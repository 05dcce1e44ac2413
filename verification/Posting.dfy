/** From the calls that threads make to the callbacks that run: what `PostMsg`, `ExitThread` and guarded calls
    put into the queue, told from the actions of a run alone (lib/workerthread.cpp, lib/threadedclass.h). */
module Posting {
  import opened Results
  import opened WorkerThreads
  import opened WorkerSafety
  import opened Confinement

  /** The message that a thread hands over with an action: the one it posts, or its guarded call, which the
      worker alone makes without posting it. */
  function Handed(s: State, a: Action, p: Tid): seq<Msg> {
    if !Enabled(s, a) then []
    else
      match a
      case Post(q, msg) => if q == p then [msg] else []
      case Issue(q, arg) => if q == p && p != Worker then [User(p, arg, true)] else []
      case _ => []
  }

  /** Every thread that is not inside a call can post any callback of its own, ask for the exit, and make any
      guarded call, whatever the others do; so can the worker from a callback. */
  lemma {:induction false} CallsAreAlwaysPossible(s: State, p: Tid, arg: Arg)
    requires s.Pc(p) == Idle && (p.Client? || (p == Worker && s.wpc.WRun?))
    ensures Enabled(s, Post(p, User(p, arg, false))) && Handed(s, Post(p, User(p, arg, false)), p) != []
    ensures Enabled(s, Post(p, ExitMsg)) && Enabled(s, Issue(p, arg))
  {
  }

  /** All messages that a thread hands over in a run, in the order of its actions. */
  function PostedBy(s: State, actions: seq<Action>, p: Tid): seq<Msg>
    decreases actions
  {
    if actions == [] then []
    else Handed(s, actions[0], p) + PostedBy(Next(s, actions[0]), actions[1..], p)
  }

  /** The messages that one thread has put into the queue. */
  function PushedBy(msgs: seq<Msg>, pushers: seq<Tid>, p: Tid): seq<Msg>
    requires |msgs| == |pushers|
  {
    if msgs == [] then []
    else
      var n := |msgs| - 1;
      PushedBy(msgs[..n], pushers[..n], p) + if pushers[n] == p then [msgs[n]] else []
  }

  /** The message that a thread is about to put there. */
  function Carried(pc: ProducerPc): seq<Msg> {
    if pc.Want? || pc.Locked? then [pc.msg] else []
  }

  lemma {:induction false} PushedBySnoc(msgs: seq<Msg>, pushers: seq<Tid>, p: Tid, m: Msg, q: Tid)
    requires |msgs| == |pushers|
    ensures PushedBy(msgs + [m], pushers + [q], p) ==
            PushedBy(msgs, pushers, p) + if q == p then [m] else []
  {
    assert (msgs + [m])[..|msgs|] == msgs && (pushers + [q])[..|msgs|] == pushers;
  }

  predicate PostInv(s: State, p: Tid, posted: seq<Msg>) {
    && |s.log.pushed| == |s.log.pushers|
    && PushedBy(s.log.pushed, s.log.pushers, p) + Carried(s.Pc(p)) == posted
  }

  lemma {:induction false} ProducerKeepsPosts(s: State, q: Tid, p: Tid, posted: seq<Msg>)
    requires PostInv(s, p, posted) && Enabled(s, ProducerStep(q))
    ensures PostInv(StepProducer(s, q), p, posted)
  {
    hide PushedBy;
    var s' := StepProducer(s, q);
    if s.Pc(q).Locked? {
      var m := s.Pc(q).msg;
      PushedBySnoc(s.log.pushed, s.log.pushers, p, m, q);
      var before := PushedBy(s.log.pushed, s.log.pushers, p);
      assert before + [m] + [] == before + [m] && before + [] == before;
      assert q != p ==> s'.Pc(p) == s.Pc(p);
    } else {
      assert Carried(s'.Pc(p)) == Carried(s.Pc(p)) && s'.log == s.log;
    }
  }

  lemma {:induction false} WorkerKeepsPosts(s: State, p: Tid, posted: seq<Msg>)
    requires PostInv(s, p, posted) && IdInv(s) && Enabled(s, WorkerStep)
    ensures PostInv(StepWorker(s), p, posted)
  {
    hide PushedBy;
    if s.wpc.WDispatch? && s.wpc.msg.User? {
      assert StepLoop(s).producers == s.producers && StepLoop(s).log.pushed == s.log.pushed;
      assert StepLoop(s).log.pushers == s.log.pushers;
    } else {
      WorkerFrame(s);
      hide StepWorker;
    }
  }

  /** A thread that starts a call is in none before, so what it carries is all of it. */
  lemma {:induction false} CallKeepsPosts(s: State, a: Action, p: Tid, posted: seq<Msg>)
    requires PostInv(s, p, posted) && IdInv(s) && p != Timer && Enabled(s, a)
    requires !a.WorkerStep? && !a.ProducerStep?
    ensures PostInv(Step(s, a), p, posted + Handed(s, a, p))
  {
    hide PushedBy, StepWorker, StepProducer;
    assert posted + [] == posted;
    var before := PushedBy(s.log.pushed, s.log.pushers, p);
    if a.Post? || a.Issue? {
      if a.p == p {
        assert Carried(s.Pc(p)) == [] && before + [] == before == posted;
        if a.Issue? && p == Worker {
          assert Step(s, a).Pc(p) == s.Pc(p);
        } else {
          assert Carried(Step(s, a).Pc(p)) == Handed(s, a, p);
        }
      } else {
        assert Step(s, a).Pc(p) == s.Pc(p);
      }
    } else {
      assert Step(s, a).Pc(p) == s.Pc(p);
    }
  }

  lemma {:induction false} NextKeepsPosts(s: State, a: Action, p: Tid, posted: seq<Msg>)
    requires PostInv(s, p, posted) && IdInv(s) && p != Timer
    ensures PostInv(Next(s, a), p, posted + Handed(s, a, p))
  {
    assert posted + [] == posted;
    if Enabled(s, a) {
      hide PostInv, IdInv, StepWorker, StepProducer;
      match a
      case WorkerStep => WorkerKeepsPosts(s, p, posted);
      case ProducerStep(q) => ProducerKeepsPosts(s, q, p, posted);
      case _ => CallKeepsPosts(s, a, p, posted);
    }
  }

  /** What is known of the messages in the history: the timer queues timer messages, a user message was queued
      by the thread that issued it, and the worker posts no guarded calls. */
  predicate SourceInv(s: State) {
    && |s.log.pushed| == |s.log.pushers|
    && (forall i :: 0 <= i < |s.log.pushed| ==> Sound(s.log.pushed[i], s.log.pushers[i]))
    && (forall m :: m in Carried(s.Pc(Worker)) ==> Sound(m, Worker))
  }

  predicate Sound(m: Msg, p: Tid) {
    && (p == Timer ==> m == TimerMsg)
    && (m.User? ==> m.issuer == p && !(m.guarded && p == Worker))
  }

  lemma {:induction false} WorkerKeepsSource(s: State)
    requires SourceInv(s) && IdInv(s) && Enabled(s, WorkerStep)
    ensures SourceInv(StepWorker(s))
  {
    hide Sound;
    if s.wpc.WDispatch? && s.wpc.msg.User? {
      assert StepLoop(s).producers == s.producers && StepLoop(s).log.pushed == s.log.pushed;
      assert StepLoop(s).log.pushers == s.log.pushers;
    } else {
      WorkerFrame(s);
      hide StepWorker;
    }
  }

  lemma {:induction false} ProducerKeepsSource(s: State, q: Tid)
    requires SourceInv(s) && CarrierInv(s) && TimerInv(s) && Enabled(s, ProducerStep(q))
    ensures SourceInv(StepProducer(s, q))
  {
    var s' := StepProducer(s, q);
    if s.Pc(q).Locked? {
      var m := s.Pc(q).msg;
      assert q == Worker ==> m in Carried(s.Pc(Worker));
      assert Sound(m, q);
      hide Sound;
      assert s'.log.pushed == s.log.pushed + [m] && s'.log.pushers == s.log.pushers + [q];
      assert Carried(s'.Pc(Worker)) == if q == Worker then [] else Carried(s.Pc(Worker));
    } else {
      hide Sound;
      assert s'.log == s.log && Carried(s'.Pc(Worker)) == Carried(s.Pc(Worker));
    }
  }

  lemma {:induction false} CallKeepsSource(s: State, a: Action)
    requires SourceInv(s) && IdInv(s) && Enabled(s, a) && !a.WorkerStep? && !a.ProducerStep?
    ensures SourceInv(Step(s, a))
  {
    var s' := Step(s, a);
    assert s'.log.pushed == s.log.pushed && s'.log.pushers == s.log.pushers;
    if a.Post? && a.p == Worker {
      assert Carried(s'.Pc(Worker)) == [a.msg] && Sound(a.msg, Worker);
    } else {
      assert s'.Pc(Worker) == s.Pc(Worker);
    }
  }

  /** All that holds in every reachable state. */
  ghost predicate Good(s: State) {
    Inv(s) && IdInv(s) && CarrierInv(s) && SourceInv(s)
  }

  lemma {:induction false} NextKeepsGood(s: State, a: Action)
    requires Good(s)
    ensures Good(Next(s, a))
  {
    assert TimerInv(s);
    NextKeepsInv(s, a);
    NextKeepsId(s, a);
    NextKeepsCarrier(s, a);
    if Enabled(s, a) {
      hide Inv, TimerInv, IdInv, CarrierInv, SourceInv, StepWorker, StepProducer;
      match a
      case WorkerStep => WorkerKeepsSource(s);
      case ProducerStep(q) => ProducerKeepsSource(s, q);
      case _ => CallKeepsSource(s, a);
    }
  }

  lemma {:induction false} InitIsGood(s: State, p: Tid)
    requires Init(s)
    ensures Good(s) && PostInv(s, p, [])
  {
    InitEstablishesInv(s);
  }

  lemma {:induction false} RunKeepsGood(s: State, actions: seq<Action>)
    requires Good(s)
    ensures Good(Run(s, actions))
    decreases actions
  {
    hide Good, Next;
    if actions != [] {
      NextKeepsGood(s, actions[0]);
      RunKeepsGood(Next(s, actions[0]), actions[1..]);
    }
  }

  lemma {:induction false} GoodKeepsPosts(s: State, a: Action, p: Tid, posted: seq<Msg>)
    requires Good(s) && PostInv(s, p, posted) && p != Timer
    ensures PostInv(Next(s, a), p, posted + Handed(s, a, p))
  {
    NextKeepsPosts(s, a, p, posted);
  }

  lemma {:induction false} RunKeepsPosts(s: State, actions: seq<Action>, p: Tid, posted: seq<Msg>)
    requires Good(s) && PostInv(s, p, posted) && p != Timer
    ensures PostInv(Run(s, actions), p, posted + PostedBy(s, actions, p))
    decreases actions
  {
    hide Good, PostInv, Next, Handed;
    if actions == [] {
      assert posted + [] == posted;
    } else {
      var s1, handed := Next(s, actions[0]), Handed(s, actions[0], p);
      GoodKeepsPosts(s, actions[0], p, posted);
      NextKeepsGood(s, actions[0]);
      RunKeepsPosts(s1, actions[1..], p, posted + handed);
      var more := PostedBy(s1, actions[1..], p);
      assert posted + (handed + more) == posted + handed + more;
    }
  }

  /** Every run, every thread but the timer: what it has put into the queue, and then what it still carries, is
      what it handed over, message by message and in the order of its actions. */
  lemma {:induction false} PostsArriveOnce(s: State, actions: seq<Action>, p: Tid)
    requires Init(s) && p != Timer
    ensures var s' := Run(s, actions);
            && |s'.log.pushed| == |s'.log.pushers|
            && PushedBy(s'.log.pushed, s'.log.pushers, p) + Carried(s'.Pc(p)) == PostedBy(s, actions, p)
  {
    InitIsGood(s, p);
    RunKeepsPosts(s, actions, p, []);
    assert [] + PostedBy(s, actions, p) == PostedBy(s, actions, p);
  }

  /** And the timer puts timer messages there, and nothing else. */
  lemma {:induction false} TimerPostsTicks(s: State, actions: seq<Action>, i: nat)
    requires Init(s) && i < |Run(s, actions).log.pushed|
    ensures var log := Run(s, actions).log;
            |log.pushed| == |log.pushers| && (log.pushers[i] == Timer ==> log.pushed[i] == TimerMsg)
  {
    InitIsGood(s, Worker);
    RunKeepsGood(s, actions);
  }

  /** Some thread asks the worker to exit. */
  predicate ExitPosted(s: State, actions: seq<Action>)
    decreases actions
  {
    actions != [] &&
    ((Enabled(s, actions[0]) && actions[0].Post? && actions[0].msg == ExitMsg) ||
     ExitPosted(Next(s, actions[0]), actions[1..]))
  }

  lemma {:induction false} ExitIsPosted(s: State, actions: seq<Action>, p: Tid)
    requires ExitMsg in PostedBy(s, actions, p)
    ensures ExitPosted(s, actions)
    decreases actions
  {
    if ExitMsg !in Handed(s, actions[0], p) {
      ExitIsPosted(Next(s, actions[0]), actions[1..], p);
    }
  }

  lemma {:induction false} InPushedBy(msgs: seq<Msg>, pushers: seq<Tid>, i: nat)
    requires |msgs| == |pushers| && i < |msgs|
    ensures msgs[i] in PushedBy(msgs, pushers, pushers[i])
  {
    var n := |msgs| - 1;
    if i < n {
      InPushedBy(msgs[..n], pushers[..n], i);
    }
  }

  /** No exit message comes into the queue unless somebody posts one. */
  lemma {:induction false} NoExitQueued(s: State, actions: seq<Action>)
    requires Init(s) && !ExitPosted(s, actions)
    ensures ExitMsg !in Run(s, actions).log.pushed
  {
    var log := Run(s, actions).log;
    InitIsGood(s, Worker);
    RunKeepsGood(s, actions);
    hide Run, ExitPosted, PostedBy;
    forall i | 0 <= i < |log.pushed| ensures log.pushed[i] != ExitMsg {
      var p := log.pushers[i];
      assert Sound(log.pushed[i], p);
      if p != Timer {
        InPushedBy(log.pushed, log.pushers, i);
        PostsArriveOnce(s, actions, p);
        if log.pushed[i] == ExitMsg {
          ExitIsPosted(s, actions, p);
        }
      }
    }
  }

  /** The user messages among these. */
  function Users(msgs: seq<Msg>): seq<Msg> {
    if msgs == [] then [] else (if msgs[0].User? then [msgs[0]] else []) + Users(msgs[1..])
  }

  /** The user messages of one thread. */
  function UsersOf(msgs: seq<Msg>, p: Tid): seq<Msg> {
    if msgs == [] then []
    else (if msgs[0].User? && msgs[0].issuer == p then [msgs[0]] else []) + UsersOf(msgs[1..], p)
  }

  lemma {:induction false} UsersConcat(x: seq<Msg>, y: seq<Msg>)
    ensures Users(x + y) == Users(x) + Users(y)
  {
    if x == [] {
      assert x + y == y;
    } else {
      assert (x + y)[1..] == x[1..] + y;
      UsersConcat(x[1..], y);
    }
  }

  lemma {:induction false} UsersOfConcat(x: seq<Msg>, y: seq<Msg>, p: Tid)
    ensures UsersOf(x + y, p) == UsersOf(x, p) + UsersOf(y, p)
  {
    if x == [] {
      assert x + y == y;
    } else {
      assert (x + y)[1..] == x[1..] + y;
      UsersOfConcat(x[1..], y, p);
    }
  }

  lemma {:induction false} UsersOfPushed(msgs: seq<Msg>, pushers: seq<Tid>, p: Tid)
    requires |msgs| == |pushers| && forall i :: 0 <= i < |msgs| ==> Sound(msgs[i], pushers[i])
    ensures UsersOf(msgs, p) == Users(PushedBy(msgs, pushers, p))
  {
    if msgs != [] {
      hide PushedBy, Users, UsersOf, Sound;
      var n := |msgs| - 1;
      var init, from, m, q := msgs[..n], pushers[..n], msgs[n], pushers[n];
      assert msgs == init + [m] && pushers == from + [q];
      UsersOfPushed(init, from, p);
      PushedBySnoc(init, from, p, m, q);
      UsersOfConcat(init, [m], p);
      UsersConcat(PushedBy(init, from, p), if q == p then [m] else []);
      OneMessage(m, q, p);
    }
  }

  lemma {:induction false} OneMessage(m: Msg, q: Tid, p: Tid)
    requires Sound(m, q)
    ensures UsersOf([m], p) == Users(if q == p then [m] else [])
  {
    assert [m][1..] == [];
  }

  /** What runs of these messages, from thread: a prefix of what the thread sent, and all in front of an exit. */
  lemma {:induction false} UsersOfToRun(msgs: seq<Msg>, p: Tid)
    ensures UsersOf(ToRun(msgs), p) <= UsersOf(msgs, p)
    ensures ExitMsg !in msgs ==> UsersOf(ToRun(msgs), p) == UsersOf(msgs, p)
  {
    if msgs != [] && msgs[0] != ExitMsg {
      var m, more := msgs[0], msgs[1..];
      UsersOfToRun(more, p);
      assert msgs == [m] + more && (ExitMsg in more ==> ExitMsg in msgs);
      assert ToRun(msgs) == (if m.User? then [m] else []) + ToRun(more);
      hide ToRun;
      UsersOfConcat([m], more, p);
      UsersOfConcat(if m.User? then [m] else [], ToRun(more), p);
    }
  }

  lemma {:induction false} ToRunOfMore(x: seq<Msg>, y: seq<Msg>)
    requires ExitMsg !in x
    ensures ToRun(x) <= ToRun(x + y)
  {
    if x != [] {
      ToRunOfMore(x[1..], y);
      assert (x + y)[1..] == x[1..] + y;
    }
  }

  /** The state after a run, as far as one thread's messages go. */
  lemma {:induction false} SentSoFar(s: State, actions: seq<Action>, p: Tid)
    requires Init(s) && p != Timer
    ensures var s' := Run(s, actions);
            && Inv(s')
            && UsersOf(s'.log.pushed, p) <= Users(PostedBy(s, actions, p))
            && (s'.Pc(p) == Idle ==> UsersOf(s'.log.pushed, p) == Users(PostedBy(s, actions, p)))
  {
    var s' := Run(s, actions);
    InitIsGood(s, p);
    RunKeepsGood(s, actions);
    PostsArriveOnce(s, actions, p);
    assert Inv(s') && SourceInv(s');
    hide Run, Good, Inv, PostedBy, PushedBy, UsersOf, Users;
    var sent := PushedBy(s'.log.pushed, s'.log.pushers, p);
    UsersOfPushed(s'.log.pushed, s'.log.pushers, p);
    UsersConcat(sent, Carried(s'.Pc(p)));
    assert sent + [] == sent;
  }

  /** The callbacks of a thread that have run, in every run: its user messages, in the order in which it posted
      them, once each, up to some point, and nothing else. */
  lemma {:induction false} OnlyPostedMessagesRun(s: State, actions: seq<Action>, p: Tid)
    requires Init(s) && p != Timer
    ensures UsersOf(Run(s, actions).log.executed, p) <= Users(PostedBy(s, actions, p))
  {
    SentSoFar(s, actions, p);
    var s' := Run(s, actions);
    ExecutedOfPushed(s', p);
  }

  lemma {:induction false} ExecutedOfPushed(s: State, p: Tid)
    requires Inv(s)
    ensures UsersOf(s.log.executed, p) <= UsersOf(s.log.pushed, p)
  {
    var started := Started(s);
    assert started <= s.log.pushed && s.log.executed == ToRun(started);
    hide Inv;
    var later := s.log.pushed[|started|..];
    assert s.log.pushed == started + later;
    UsersOfToRun(started, p);
    UsersOfConcat(started, later, p);
  }

  lemma {:induction false} PushedGrows(s: State, actions: seq<Action>)
    ensures s.log.pushed <= Run(s, actions).log.pushed
    decreases actions
  {
    if actions != [] {
      OnePushAtMost(s, actions[0]);
      hide Next;
      PushedGrows(Next(s, actions[0]), actions[1..]);
    }
  }

  lemma {:induction false} OnePushAtMost(s: State, a: Action)
    ensures s.log.pushed <= Next(s, a).log.pushed
  {
    if Enabled(s, a) && a == WorkerStep && !(s.wpc.WDispatch? && s.wpc.msg.User?) {
      WorkerFrame(s);
    }
  }

  /** Every user message that a thread has posted before anybody posts an exit message has run when `Process`
      returns: the messages of its first calls are the first that ran for it. */
  lemma {:induction false} PostedBeforeExitRuns(s: State, before: seq<Action>, after: seq<Action>, p: Tid)
    requires Init(s) && p != Timer
    requires !ExitPosted(s, before) && Run(s, before).Pc(p) == Idle
    ensures var s' := Run(s, before + after);
            s'.wpc == WReturn || s'.wpc == WDone ==>
              Users(PostedBy(s, before, p)) <= UsersOf(s'.log.executed, p)
  {
    var mid, s' := Run(s, before), Run(s, before + after);
    SentSoFar(s, before, p);
    SentSoFar(s, before + after, p);
    hide Inv, UsersOf, Users, PostedBy;
    RunConcat(s, before, after);
    PushedGrows(mid, after);
    NoExitQueued(s, before);
    if s'.wpc == WReturn || s'.wpc == WDone {
      hide Run;
      AllInFrontOfExit(s', mid.log.pushed);
      EarlyRuns(mid.log.pushed, s'.log.popped, p);
    }
  }

  /** What comes in front of every exit message runs. */
  lemma {:induction false} EarlyRuns(early: seq<Msg>, popped: seq<Msg>, p: Tid)
    requires early <= popped && ExitMsg !in early
    ensures UsersOf(early, p) <= UsersOf(ToRun(popped), p)
  {
    hide ToRun, UsersOf;
    assert popped == early + popped[|early|..];
    ToRunOfMore(early, popped[|early|..]);
    var rest := ToRun(popped)[|ToRun(early)|..];
    assert ToRun(popped) == ToRun(early) + rest;
    UsersOfConcat(ToRun(early), rest, p);
    UsersOfToRun(early, p);
  }

  lemma {:induction false} PrefixHolds(early: seq<Msg>, all: seq<Msg>, i: nat)
    requires early <= all && i < |all|
    ensures i < |early| ==> all[i] in early
  {
    if i < |early| {
      assert all[i] == early[i];
    }
  }

  /** At the return an exit message has been taken, so all that was queued in front of the first has been. */
  lemma {:induction false} AllInFrontOfExit(s: State, early: seq<Msg>)
    requires Inv(s) && (s.wpc == WReturn || s.wpc == WDone)
    requires early <= s.log.pushed && ExitMsg !in early
    ensures early <= s.log.popped && s.log.executed == ToRun(s.log.popped)
  {
    assert ExitMsg in s.log.freed && s.log.popped == s.log.freed + [] == s.log.freed;
    var i :| 0 <= i < |s.log.popped| && s.log.popped[i] == ExitMsg;
    assert s.log.pushed == s.log.popped + s.queue && s.log.executed == ToRun(Started(s));
    hide Inv;
    assert s.log.pushed[i] == ExitMsg;
    PrefixHolds(early, s.log.pushed, i);
  }

  /** And while the worker sleeps and the lock is free, all that a thread has posted has run. */
  lemma {:induction false} SleepingWorkerHasRunAllPosts(s: State, actions: seq<Action>, p: Tid)
    requires Init(s) && p != Timer
    requires var s' := Run(s, actions);
             s'.wpc == WAsleep && s'.mutex == None && s'.Pc(p) == Idle
    ensures UsersOf(Run(s, actions).log.executed, p) == Users(PostedBy(s, actions, p))
  {
    var s' := Run(s, actions);
    SentSoFar(s, actions, p);
    assert s'.queue == [] && ExitMsg !in s'.log.freed;
    assert s'.log.popped + [] == s'.log.popped && s'.log.freed + [] == s'.log.freed;
    assert s'.log.executed == ToRun(s'.log.pushed) && ExitMsg !in s'.log.pushed;
    hide Run, Inv, PostedBy;
    UsersOfToRun(s'.log.pushed, p);
  }

  /** The arguments of the guarded calls that a thread makes in a run. */
  function IssuedIn(s: State, actions: seq<Action>, p: Tid): seq<Arg>
    decreases actions
  {
    if actions == [] then []
    else
      (if Enabled(s, actions[0]) && actions[0].Issue? && actions[0].p == p then [actions[0].arg] else []) +
      IssuedIn(Next(s, actions[0]), actions[1..], p)
  }

  /** The worker's own guarded calls run where they are made. */
  predicate OwnCallsInv(s: State, issued: seq<Arg>) {
    s.Issued(Worker) == issued && BodiesBy(s.log.bodies, Worker) == issued
  }

  lemma {:induction false} CallbackKeepsOwnCalls(s: State, issued: seq<Arg>)
    requires Good(s) && OwnCallsInv(s, issued) && s.wpc.WDispatch? && s.wpc.msg.User?
    ensures OwnCallsInv(StepLoop(s), issued)
  {
    var m := s.wpc.msg;
    assert s.log.pushed == s.log.freed + [m] + s.queue && s.log.pushed[|s.log.freed|] == m;
    assert Sound(m, s.log.pushers[|s.log.freed|]);
    BodiesBySnoc(s.log.bodies, Body(Worker, m.issuer, m.arg), Worker);
    assert StepLoop(s).Issued(Worker) == s.Issued(Worker);
  }

  lemma {:induction false} NextKeepsOwnCalls(s: State, a: Action, issued: seq<Arg>)
    requires Good(s) && OwnCallsInv(s, issued)
    ensures var more := if Enabled(s, a) && a.Issue? && a.p == Worker then [a.arg] else [];
            OwnCallsInv(Next(s, a), issued + more)
  {
    hide BodiesBy, Good, StepWorker, StepIssue;
    assert issued + [] == issued;
    if Enabled(s, a) {
      match a
      case WorkerStep =>
        WorkerKeepsOwnCalls(s, issued);
      case Issue(q, arg) =>
        BodiesBySnoc(s.log.bodies, Body(q, q, arg), Worker);
        IssueOnWorker(s, q, arg);
        assert s.log.bodies + [] == s.log.bodies;
      case _ =>
        assert Step(s, a).log.bodies == s.log.bodies && Step(s, a).log.issued == s.log.issued;
    }
  }

  lemma {:induction false} WorkerKeepsOwnCalls(s: State, issued: seq<Arg>)
    requires Good(s) && OwnCallsInv(s, issued) && Enabled(s, WorkerStep)
    ensures OwnCallsInv(StepWorker(s), issued)
  {
    if s.wpc.WDispatch? && s.wpc.msg.User? {
      CallbackKeepsOwnCalls(s, issued);
    } else {
      WorkerFrame(s);
      hide Good, StepWorker, BodiesBy;
    }
  }

  lemma {:induction false} IssueOnWorker(s: State, q: Tid, arg: Arg)
    requires Good(s) && Enabled(s, Issue(q, arg))
    ensures var s' := StepIssue(s, q, arg);
            && s'.Issued(Worker) == s.Issued(Worker) + (if q == Worker then [arg] else [])
            && s'.log.bodies == s.log.bodies + if q == Worker then [Body(q, q, arg)] else []
  {
    assert s.Issued(Worker) + [] == s.Issued(Worker) && s.log.bodies + [] == s.log.bodies;
  }

  lemma {:induction false} RunKeepsOwnCalls(s: State, actions: seq<Action>, issued: seq<Arg>)
    requires Good(s) && OwnCallsInv(s, issued)
    ensures OwnCallsInv(Run(s, actions), issued + IssuedIn(s, actions, Worker))
    decreases actions
  {
    hide Good, OwnCallsInv, Next;
    if actions == [] {
      assert issued + [] == issued;
    } else {
      var a, s1 := actions[0], Next(s, actions[0]);
      var own := if Enabled(s, a) && a.Issue? && a.p == Worker then [a.arg] else [];
      NextKeepsOwnCalls(s, a, issued);
      NextKeepsGood(s, a);
      RunKeepsOwnCalls(s1, actions[1..], issued + own);
      var more := IssuedIn(s1, actions[1..], Worker);
      assert issued + (own + more) == issued + own + more;
    }
  }

  /** A guarded call made on the worker's own thread runs at once, with its arguments: in every run the bodies
      that ran for the worker are its calls, in order. */
  lemma {:induction false} OwnCallsRunAtOnce(s: State, actions: seq<Action>)
    requires Init(s)
    ensures var s' := Run(s, actions);
            && BodiesBy(s'.log.bodies, Worker) == IssuedIn(s, actions, Worker)
            && s'.Issued(Worker) == IssuedIn(s, actions, Worker)
  {
    InitIsGood(s, Worker);
    RunKeepsOwnCalls(s, actions, []);
    assert [] + IssuedIn(s, actions, Worker) == IssuedIn(s, actions, Worker);
  }
}
