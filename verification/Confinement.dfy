/** Guarded calls (`checkThread` in lib/threadedclass.h, as `HandlerBase::handleCall` uses it): on which
    thread their bodies run, how often, with which arguments and in which order. */
module Confinement {
  import opened Results
  import opened WorkerThreads
  import opened WorkerSafety

  /** The arguments of the guarded calls of one thread among these messages. */
  function GuardedBy(msgs: seq<Msg>, p: Tid): seq<Arg> {
    if msgs == [] then []
    else
      var m := msgs[0];
      (if m.User? && m.guarded && m.issuer == p then [m.arg] else []) + GuardedBy(msgs[1..], p)
  }

  /** The arguments with which the calls of one thread have run. */
  function BodiesBy(bodies: seq<Body>, p: Tid): seq<Arg> {
    if bodies == [] then []
    else (if bodies[0].issuer == p then [bodies[0].arg] else []) + BodiesBy(bodies[1..], p)
  }

  /** A guarded call on its way into the queue. */
  function Pending(pc: ProducerPc): seq<Arg> {
    if (pc.Want? || pc.Locked?) && pc.msg.User? && pc.msg.guarded then [pc.msg.arg] else []
  }

  lemma {:induction false} GuardedByConcat(x: seq<Msg>, y: seq<Msg>, p: Tid)
    ensures GuardedBy(x + y, p) == GuardedBy(x, p) + GuardedBy(y, p)
  {
    if x == [] {
      assert x + y == y;
    } else {
      assert (x + y)[1..] == x[1..] + y;
      GuardedByConcat(x[1..], y, p);
    }
  }

  lemma {:induction false} GuardedBySnoc(x: seq<Msg>, m: Msg, p: Tid)
    ensures GuardedBy(x + [m], p) ==
            if m.User? && m.guarded && m.issuer == p then GuardedBy(x, p) + [m.arg] else GuardedBy(x, p)
  {
    GuardedByConcat(x, [m], p);
    assert [m][1..] == [];
    assert GuardedBy(x, p) + [] == GuardedBy(x, p);
  }

  lemma {:induction false} BodiesBySnoc(x: seq<Body>, b: Body, p: Tid)
    ensures BodiesBy(x + [b], p) == if b.issuer == p then BodiesBy(x, p) + [b.arg] else BodiesBy(x, p)
  {
    if x == [] {
      assert (x + [b])[1..] == [];
    } else {
      assert (x + [b])[1..] == x[1..] + [b];
      BodiesBySnoc(x[1..], b, p);
      var head := if x[0].issuer == p then [x[0].arg] else [];
      assert head + (BodiesBy(x[1..], p) + [b.arg]) == (head + BodiesBy(x[1..], p)) + [b.arg];
    }
  }

  lemma {:induction false} GuardedByOfToRun(msgs: seq<Msg>, p: Tid)
    ensures GuardedBy(ToRun(msgs), p) <= GuardedBy(msgs, p)
    ensures ExitMsg !in msgs ==> GuardedBy(ToRun(msgs), p) == GuardedBy(msgs, p)
  {
    if msgs != [] && msgs[0] != ExitMsg {
      var m, more := msgs[0], msgs[1..];
      GuardedByOfToRun(more, p);
      assert msgs == [m] + more && (ExitMsg in more ==> ExitMsg in msgs);
      assert ToRun(msgs) == (if m.User? then [m] else []) + ToRun(more);
      hide ToRun;
      GuardedByConcat([m], more, p);
      GuardedByConcat(if m.User? then [m] else [], ToRun(more), p);
    }
  }

  /** The worker knows its own thread before it runs anything; every body so far ran on it; nothing was
      posted twice. */
  predicate IdInv(s: State) {
    && (s.thisId == None || s.thisId == Some(Worker))
    && (s.wpc != WStart ==> s.thisId == Some(Worker))
    && s.log.reposts == 0
    && forall i :: 0 <= i < |s.log.bodies| ==> s.log.bodies[i].on == Worker
  }

  lemma {:induction false} NextKeepsId(s: State, a: Action)
    requires IdInv(s) && TimerInv(s)
    ensures IdInv(Next(s, a))
  {
    if Enabled(s, a) {
      match a
      case WorkerStep => WorkerKeepsId(s);
      case _ =>
    }
  }

  lemma {:induction false} WorkerKeepsId(s: State)
    requires IdInv(s) && Enabled(s, WorkerStep)
    ensures IdInv(StepWorker(s))
  {
    if !(s.wpc.WDispatch? && s.wpc.msg.User?) {
      WorkerFrame(s);
      assert s.wpc != WStart ==> StepWorker(s).thisId == s.thisId;
    }
  }

  /** Messages on their way into the queue come from the thread that carries them. */
  ghost predicate CarrierInv(s: State) {
    forall q :: (s.Pc(q).Want? || s.Pc(q).Locked?) && s.Pc(q).msg.User? ==> s.Pc(q).msg.issuer == q
  }

  lemma {:induction false} NextKeepsCarrier(s: State, a: Action)
    requires CarrierInv(s) && IdInv(s)
    ensures CarrierInv(Next(s, a))
  {
    if Enabled(s, a) {
      var s' := Step(s, a);
      forall q | (s'.Pc(q).Want? || s'.Pc(q).Locked?) && s'.Pc(q).msg.User?
        ensures s'.Pc(q).msg.issuer == q
      {
        assert (s.Pc(q).Want? || s.Pc(q).Locked?) && s.Pc(q).msg.User? ==> s.Pc(q).msg.issuer == q;
      }
    }
  }

  /** The calls of a client: queued or about to be, once each and in the order of issue; and run as they
      came out of the queue. */
  predicate OrderInv(s: State, p: Tid) {
    && GuardedBy(s.log.pushed, p) + Pending(s.Pc(p)) == s.Issued(p)
    && BodiesBy(s.log.bodies, p) == GuardedBy(s.log.executed, p)
  }

  lemma {:induction false} PushKeepsOrder(s: State, q: Tid, p: Tid)
    requires p.Client? && CarrierInv(s) && OrderInv(s, p) && s.Pc(q).Locked?
    ensures OrderInv(StepProducer(s, q), p)
  {
    hide GuardedBy, BodiesBy;
    var m, s' := s.Pc(q).msg, StepProducer(s, q);
    assert m.User? ==> m.issuer == q;
    GuardedBySnoc(s.log.pushed, m, p);
    assert s'.Issued(p) == s.Issued(p);
    if q == p {
      assert s'.Pc(p) == Pushed;
      assert GuardedBy(s'.log.pushed, p) + [] == GuardedBy(s'.log.pushed, p);
      assert GuardedBy(s.log.pushed, p) + [] == GuardedBy(s.log.pushed, p);
    } else {
      assert s'.Pc(p) == s.Pc(p);
    }
  }

  lemma {:induction false} ProducerKeepsOrder(s: State, q: Tid, p: Tid)
    requires p.Client? && CarrierInv(s) && OrderInv(s, p) && Enabled(s, ProducerStep(q))
    ensures OrderInv(StepProducer(s, q), p)
  {
    if s.Pc(q).Locked? {
      PushKeepsOrder(s, q, p);
    } else {
      hide GuardedBy, BodiesBy;
      assert Pending(StepProducer(s, q).Pc(p)) == Pending(s.Pc(p));
      assert StepProducer(s, q).log == s.log;
    }
  }

  lemma {:induction false} CallbackKeepsOrder(s: State, p: Tid)
    requires p.Client? && IdInv(s) && OrderInv(s, p) && s.wpc.WDispatch? && s.wpc.msg.User?
    ensures OrderInv(StepLoop(s), p)
  {
    hide GuardedBy, BodiesBy;
    var m := s.wpc.msg;
    GuardedBySnoc(s.log.executed, m, p);
    BodiesBySnoc(s.log.bodies, Body(Worker, m.issuer, m.arg), p);
    assert StepLoop(s).Issued(p) == s.Issued(p) && StepLoop(s).Pc(p) == s.Pc(p);
  }

  lemma {:induction false} WorkerKeepsOrder(s: State, p: Tid)
    requires p.Client? && IdInv(s) && OrderInv(s, p) && Enabled(s, WorkerStep)
    ensures OrderInv(StepWorker(s), p)
  {
    if s.wpc.WDispatch? && s.wpc.msg.User? {
      CallbackKeepsOrder(s, p);
    } else {
      WorkerFrame(s);
      hide StepWorker, GuardedBy, BodiesBy, Pending;
    }
  }

  lemma {:induction false} IssueKeepsOrder(s: State, q: Tid, arg: Arg, p: Tid)
    requires p.Client? && IdInv(s) && OrderInv(s, p) && Enabled(s, Issue(q, arg))
    ensures OrderInv(StepIssue(s, q, arg), p)
  {
    var s' := StepIssue(s, q, arg);
    if q == p {
      assert s'.Pc(p) == Want(User(p, arg, true)) && s'.Issued(p) == s.Issued(p) + [arg];
      assert GuardedBy(s.log.pushed, p) + [] == GuardedBy(s.log.pushed, p);
    } else {
      assert s'.Pc(p) == s.Pc(p) && s'.Issued(p) == s.Issued(p);
      BodiesBySnoc(s.log.bodies, Body(q, q, arg), p);
      assert BodiesBy(s.log.bodies, p) + [] == BodiesBy(s.log.bodies, p);
    }
  }

  lemma {:induction false} NextKeepsOrder(s: State, a: Action, p: Tid)
    requires p.Client? && IdInv(s) && CarrierInv(s) && OrderInv(s, p)
    ensures OrderInv(Next(s, a), p)
  {
    if Enabled(s, a) {
      match a
      case WorkerStep => WorkerKeepsOrder(s, p);
      case ProducerStep(q) => ProducerKeepsOrder(s, q, p);
      case Issue(q, arg) => IssueKeepsOrder(s, q, arg, p);
      case _ =>
        assert Pending(Step(s, a).Pc(p)) == Pending(s.Pc(p));
    }
  }

  lemma {:induction false} RunKeepsConfinement(s: State, actions: seq<Action>, p: Tid)
    requires Inv(s) && IdInv(s) && CarrierInv(s) && p.Client? && OrderInv(s, p)
    ensures IdInv(Run(s, actions)) && OrderInv(Run(s, actions), p)
    decreases actions
  {
    if actions != [] {
      var a := actions[0];
      NextKeepsInv(s, a);
      NextKeepsId(s, a);
      NextKeepsCarrier(s, a);
      NextKeepsOrder(s, a, p);
      RunKeepsConfinement(Next(s, a), actions[1..], p);
    }
  }

  lemma {:induction false} ReachableStatesAreConfined(s: State, p: Tid)
    requires Reachable(s) && p.Client?
    ensures Inv(s) && IdInv(s) && OrderInv(s, p)
  {
    var s0: State, actions: seq<Action> :| Init(s0) && s == Run(s0, actions);
    InitEstablishesInv(s0);
    RunKeepsInv(s0, actions);
    RunKeepsConfinement(s0, actions, p);
  }

  /** In every run, guarded bodies run on the worker thread and nowhere else, and a call that comes out of
      the queue is not posted again. */
  lemma {:induction false} BodiesRunOnTheWorker(s: State)
    requires Reachable(s)
    ensures s.log.reposts == 0
    ensures forall i :: 0 <= i < |s.log.bodies| ==> s.log.bodies[i].on == Worker
  {
    ReachableStatesAreConfined(s, Client(0));
  }

  /** The calls that a client issued: each is put into the queue once, and those that have run did so in the
      order of issue, with the arguments they had when they were issued. */
  lemma {:induction false} CallsRunInIssueOrder(s: State, p: Tid)
    requires Reachable(s) && p.Client?
    ensures GuardedBy(s.log.pushed, p) + Pending(s.Pc(p)) == s.Issued(p)
    ensures BodiesBy(s.log.bodies, p) <= s.Issued(p)
  {
    ReachableStatesAreConfined(s, p);
    QueueSemantics(s);
    var started := Started(s);
    var later := s.log.pushed[|started|..];
    assert s.log.pushed == started + later;
    GuardedByConcat(started, later, p);
    GuardedByOfToRun(started, p);
  }

  /** None is forgotten: whenever the worker sleeps and the lock is free, every call that a client has
      issued and handed over has run. */
  lemma {:induction false} SleepingWorkerHasRunEverything(s: State, p: Tid)
    requires Reachable(s) && p.Client?
    requires s.wpc == WAsleep && s.mutex == None && s.Pc(p) == Idle
    ensures BodiesBy(s.log.bodies, p) == s.Issued(p)
  {
    ReachableStatesAreConfined(s, p);
    assert s.queue == [];
    assert s.log.popped + [] == s.log.popped && s.log.freed + [] == s.log.freed;
    GuardedByOfToRun(s.log.pushed, p);
    assert GuardedBy(s.log.pushed, p) + [] == GuardedBy(s.log.pushed, p);
  }
}
