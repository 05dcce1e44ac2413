/** What holds in every reachable state of the worker: who has the lock, what has become of each message,
    and that no wake-up is lost. */
module WorkerSafety {
  import opened Results
  import opened WorkerThreads

  predicate HoldsAsProducer(pc: ProducerPc) {
    pc.Locked? || pc == Pushed || pc == Notified
  }

  predicate HoldsAsWorker(pc: WorkerPc) {
    pc == WCheck || pc == WPop || pc.WUnlock? || pc == WDrain || pc == WReturn
  }

  predicate Holds(s: State, p: Tid) {
    HoldsAsProducer(s.Pc(p)) || (p == Worker && HoldsAsWorker(s.wpc))
  }

  /** The timer is inside a post exactly where its loop says so, and posts timer messages only. */
  predicate TimerInv(s: State) {
    && (s.tpc == TOff <==> StartingUp(s.wpc))
    && (s.Pc(Timer) != Idle ==> s.tpc == TPosting)
    && (s.Pc(Timer).Want? || s.Pc(Timer).Locked? ==> s.Pc(Timer).msg == TimerMsg)
  }

  lemma {:induction false} WorkerKeepsTimer(s: State)
    requires TimerInv(s) && Enabled(s, WorkerStep)
    ensures TimerInv(StepWorker(s))
  {
    if ShuttingDown(s.wpc) {
      assert StepExit(s).producers == s.producers && StepExit(s).tpc == s.tpc;
    } else if !StartingUp(s.wpc) {
      assert StepLoop(s).Pc(Timer) == s.Pc(Timer) && StepLoop(s).tpc == s.tpc;
    }
  }

  lemma {:induction false} TimerInvHolds(s: State, a: Action)
    requires TimerInv(s) && Enabled(s, a)
    ensures TimerInv(Step(s, a))
  {
    match a
    case WorkerStep => WorkerKeepsTimer(s);
    case ProducerStep(q) => assert q != Timer ==> StepProducer(s, q).Pc(Timer) == s.Pc(Timer);
    case _ =>
  }

  /** Mutual exclusion: the owner of the mutex is exactly the thread inside a locked region. */
  ghost predicate LockInv(s: State) {
    && (s.mutex.Some? ==> Holds(s, s.mutex.value))
    && (forall p :: Holds(s, p) ==> s.mutex == Some(p))
    && (s.Pc(Worker) != Idle ==> s.wpc.WRun?)
  }

  lemma {:induction false} WorkerKeepsLock(s: State)
    requires LockInv(s) && Enabled(s, WorkerStep)
    ensures LockInv(StepWorker(s))
  {
    assert s.mutex.Some? ==> Holds(s, s.mutex.value);
    assert HoldsAsWorker(s.wpc) ==> Holds(s, Worker);
    if ShuttingDown(s.wpc) {
      ExitKeepsLock(s);
    } else if !StartingUp(s.wpc) {
      LoopKeepsLock(s);
    } else {
      var s' := StepStartup(s);
      forall p | Holds(s', p) ensures s'.mutex == Some(p) {
        assert Holds(s, p);
      }
    }
  }

  /** A step of the worker that takes the lock, gives it back or leaves it alone, as its place in `Process`
      says. */
  lemma {:induction false} WorkerMoves(s: State, s': State)
    requires LockInv(s)
    requires forall p :: p != Worker ==> s'.Pc(p) == s.Pc(p)
    requires !HoldsAsProducer(s.Pc(Worker)) && !HoldsAsProducer(s'.Pc(Worker))
    requires s'.Pc(Worker) != Idle ==> s'.wpc.WRun?
    requires HoldsAsWorker(s'.wpc) && !HoldsAsWorker(s.wpc) ==> s.mutex == None
    requires s'.mutex == if HoldsAsWorker(s'.wpc) then Some(Worker) else if HoldsAsWorker(s.wpc) then None else s.mutex
    ensures LockInv(s')
  {
    assert HoldsAsWorker(s.wpc) ==> Holds(s, Worker);
    assert s.mutex.Some? ==> Holds(s, s.mutex.value);
    hide HoldsAsProducer, HoldsAsWorker;
    forall p ensures Holds(s', p) <==> if p == Worker then HoldsAsWorker(s'.wpc) else Holds(s, p) {
    }
  }

  lemma {:induction false} LoopKeepsLock(s: State)
    requires LockInv(s) && Enabled(s, WorkerStep) && !StartingUp(s.wpc) && !ShuttingDown(s.wpc)
    requires HoldsAsWorker(s.wpc) ==> Holds(s, Worker)
    ensures LockInv(StepLoop(s))
  {
    assert s.wpc.WRun? || s.Pc(Worker) == Idle;
    assert HoldsAsWorker(s.wpc) ==> s.mutex == Some(Worker);
    hide LockInv;
    WorkerMoves(s, StepLoop(s));
  }

  lemma {:induction false} ExitKeepsLock(s: State)
    requires LockInv(s) && Enabled(s, WorkerStep) && ShuttingDown(s.wpc)
    requires HoldsAsWorker(s.wpc) ==> Holds(s, Worker)
    ensures LockInv(StepExit(s))
  {
    assert s.Pc(Worker) == Idle;
    assert HoldsAsWorker(s.wpc) ==> s.mutex == Some(Worker);
    hide LockInv;
    ExitFrame(s);
    WorkerMoves(s, StepExit(s));
  }

  lemma {:induction false} ProducerKeepsLock(s: State, q: Tid)
    requires LockInv(s) && Enabled(s, ProducerStep(q))
    ensures LockInv(StepProducer(s, q))
  {
    var s' := StepProducer(s, q);
    assert HoldsAsProducer(s.Pc(q)) ==> Holds(s, q);
    forall p | Holds(s', p) ensures s'.mutex == Some(p) {
      assert p != q ==> Holds(s, p);
    }
  }

  lemma {:induction false} LockInvHolds(s: State, a: Action)
    requires LockInv(s) && TimerInv(s) && Enabled(s, a)
    ensures LockInv(Step(s, a))
  {
    hide LockInv, TimerInv, StepWorker, StepProducer, StepTimer, StepIssue;
    match a
    case WorkerStep => WorkerKeepsLock(s);
    case ProducerStep(q) => ProducerKeepsLock(s, q);
    case _ => OthersKeepLock(s, a);
  }

  lemma {:induction false} OthersKeepLock(s: State, a: Action)
    requires LockInv(s) && TimerInv(s) && Enabled(s, a) && !a.WorkerStep? && !a.ProducerStep?
    ensures LockInv(Step(s, a))
  {
    hide StepWorker, StepProducer, LockInv;
    match a
    case TimerStep => OneThreadOutside(s, StepTimer(s), Timer);
    case Post(q, _) => OneThreadOutside(s, Step(s, a), q);
    case Issue(q, arg) => OneThreadOutside(s, StepIssue(s, q, arg), q);
    case SpuriousWakeup => OneThreadOutside(s, Step(s, a), Timer);
    case _ =>
  }

  /** Nothing changes for the lock if a thread outside the locked regions stays outside. */
  lemma {:induction false} OneThreadOutside(s: State, s': State, q: Tid)
    requires LockInv(s) && s'.mutex == s.mutex
    requires HoldsAsWorker(s'.wpc) == HoldsAsWorker(s.wpc) && (s.wpc.WRun? <==> s'.wpc.WRun?)
    requires forall p :: p != q ==> s'.Pc(p) == s.Pc(p)
    requires s'.Pc(q) == s.Pc(q) || (!HoldsAsProducer(s.Pc(q)) && !HoldsAsProducer(s'.Pc(q)))
    requires q == Worker && s'.Pc(q) != Idle ==> s'.wpc.WRun?
    ensures LockInv(s')
  {
    hide HoldsAsProducer, HoldsAsWorker;
    forall p ensures Holds(s', p) <==> Holds(s, p) {
    }
  }

  /** The worker pops what is there and returns from an empty queue. Sleeping on a queue that is
      not empty is only possible while a producer is between its push and its notification, with the lock in
      its hand. */
  predicate WakeInv(s: State) {
    && (s.wpc == WPop ==> s.queue != []) && (s.wpc == WReturn ==> s.queue == [])
    && (s.wpc == WAsleep && s.queue != [] ==> s.mutex.Some? && s.Pc(s.mutex.value) == Pushed)
  }

  lemma {:induction false} ProducerKeepsWake(s: State, q: Tid)
    requires LockInv(s) && WakeInv(s) && Enabled(s, ProducerStep(q))
    ensures WakeInv(StepProducer(s, q))
  {
    assert HoldsAsProducer(s.Pc(q)) ==> Holds(s, q);
    assert HoldsAsWorker(s.wpc) ==> Holds(s, Worker);
  }

  lemma {:induction false} WakeInvHolds(s: State, a: Action)
    requires LockInv(s) && TimerInv(s) && WakeInv(s) && Enabled(s, a)
    ensures WakeInv(Step(s, a))
  {
    match a
    case WorkerStep => WorkerKeepsWake(s);
    case ProducerStep(q) => ProducerKeepsWake(s, q);
    case _ =>
  }

  lemma {:induction false} WorkerKeepsWake(s: State)
    requires WakeInv(s) && Enabled(s, WorkerStep)
    ensures WakeInv(StepWorker(s))
  {
    if ShuttingDown(s.wpc) {
      ExitKeepsWake(s);
    } else if !StartingUp(s.wpc) {
      LoopKeepsWake(s);
    }
  }

  lemma {:induction false} ExitKeepsWake(s: State)
    requires Enabled(s, WorkerStep) && ShuttingDown(s.wpc)
    ensures WakeInv(StepExit(s))
  {
    assert StepExit(s).wpc == WReturn ==> s.wpc == WDrain;
  }

  lemma {:induction false} LoopKeepsWake(s: State)
    requires Enabled(s, WorkerStep) && !StartingUp(s.wpc) && !ShuttingDown(s.wpc)
    ensures WakeInv(StepLoop(s))
  {
    var s' := StepLoop(s);
    assert s'.wpc == WAsleep || s'.wpc == WPop ==> s.wpc == WCheck && s'.queue == s.queue;
  }

  /** A message that was pushed is still there when its producer notifies: it is in the way of nobody but the
      worker, and the worker has not got the lock. */
  ghost predicate PushedInv(s: State) {
    forall p :: s.Pc(p) == Pushed ==> s.queue != []
  }

  lemma {:induction false} PushedInvHolds(s: State, a: Action)
    requires LockInv(s) && PushedInv(s) && Enabled(s, a)
    ensures PushedInv(Step(s, a))
  {
    var s' := Step(s, a);
    forall p | s'.Pc(p) == Pushed ensures s'.queue != [] {
      if s.Pc(p) == Pushed {
        PushedStays(s, a, p);
      } else {
        NewlyPushed(s, a, p);
      }
    }
  }

  lemma {:induction false} PushedStays(s: State, a: Action, p: Tid)
    requires LockInv(s) && Enabled(s, a) && s.Pc(p) == Pushed && s.queue != []
    ensures Step(s, a).queue != []
  {
    assert Holds(s, p);
    if a == WorkerStep {
      assert HoldsAsWorker(s.wpc) ==> Holds(s, Worker);
      assert s.wpc != WPop && s.wpc != WDrain;
      WorkerKeepsQueue(s);
    }
  }

  lemma {:induction false} WorkerKeepsQueue(s: State)
    requires Enabled(s, WorkerStep) && s.wpc != WPop && s.wpc != WDrain
    ensures StepWorker(s).queue == s.queue
  {
  }

  lemma {:induction false} NewlyPushed(s: State, a: Action, p: Tid)
    requires Enabled(s, a) && s.Pc(p) != Pushed && Step(s, a).Pc(p) == Pushed
    ensures Step(s, a).queue != []
  {
    match a
    case WorkerStep => WorkerPushesNothing(s, p);
    case _ =>
  }

  lemma {:induction false} WorkerPushesNothing(s: State, p: Tid)
    requires Enabled(s, WorkerStep)
    ensures StepWorker(s).Pc(p) == Pushed ==> s.Pc(p) == Pushed
  {
    if !(s.wpc.WDispatch? && s.wpc.msg.User?) {
      WorkerFrame(s);
    }
  }

  /** The message that has been taken from the queue and not yet freed. */
  function InHand(pc: WorkerPc): seq<Msg> {
    if pc.WUnlock? || pc.WDispatch? || pc.WRun? || pc.WFree? || pc.WSetFlag? || pc.WJoin? || pc.WFreeExit?
    then [pc.msg] else []
  }

  /** Messages whose turn has come: all that were taken but the one still to be looked at. */
  function Started(s: State): seq<Msg> {
    if s.wpc.WUnlock? || s.wpc.WDispatch? then s.log.freed else s.log.popped
  }

  /** The user messages in front of the first exit message. */
  function ToRun(msgs: seq<Msg>): seq<Msg> {
    if msgs == [] || msgs[0] == ExitMsg then []
    else (if msgs[0].User? then [msgs[0]] else []) + ToRun(msgs[1..])
  }

  lemma {:induction false} ToRunSnoc(msgs: seq<Msg>, m: Msg)
    ensures ToRun(msgs + [m]) == if m.User? && ExitMsg !in msgs then ToRun(msgs) + [m] else ToRun(msgs)
  {
    if msgs == [] {
      assert (msgs + [m])[1..] == [];
    } else {
      assert (msgs + [m])[1..] == msgs[1..] + [m];
      ToRunSnoc(msgs[1..], m);
    }
  }

  /** Where every message is: queued in order, taken in order, freed in order, and run if and only if it is
      a user message that comes before every exit message. */
  ghost predicate HistoryInv(s: State) {
    && s.log.pushed == s.log.popped + s.queue
    && s.log.popped == s.log.freed + InHand(s.wpc)
    && (ExitMsg in s.log.freed <==> Drains(s.wpc))
    && (s.wpc.WRun? ==> s.wpc.msg.User?)
    && (s.wpc.WFree? ==> s.wpc.msg != ExitMsg)
    && (s.wpc.WSetFlag? || s.wpc.WJoin? || s.wpc.WFreeExit? ==> s.wpc.msg == ExitMsg)
    && s.log.executed == ToRun(Started(s))
  }

  lemma {:induction false} HistoryInvHolds(s: State, a: Action)
    requires HistoryInv(s) && Enabled(s, a)
    ensures HistoryInv(Step(s, a))
  {
    hide HistoryInv, StepWorker, StepProducer, StepTimer, StepIssue;
    match a
    case WorkerStep => WorkerKeepsHistory(s);
    case ProducerStep(p) => ProducerKeepsHistory(s, p);
    case _ => OthersKeepHistory(s, a);
  }

  lemma {:induction false} OthersKeepHistory(s: State, a: Action)
    requires HistoryInv(s) && Enabled(s, a) && !a.WorkerStep? && !a.ProducerStep?
    ensures HistoryInv(Step(s, a))
  {
    hide ToRun, StepWorker, StepProducer;
  }

  lemma {:induction false} ProducerKeepsHistory(s: State, p: Tid)
    requires HistoryInv(s) && Enabled(s, ProducerStep(p))
    ensures HistoryInv(StepProducer(s, p))
  {
    hide ToRun;
    if s.Pc(p).Locked? {
      assert s.log.popped + (s.queue + [s.Pc(p).msg]) == (s.log.popped + s.queue) + [s.Pc(p).msg];
    }
  }

  lemma {:induction false} WorkerKeepsHistory(s: State)
    requires HistoryInv(s) && Enabled(s, WorkerStep)
    ensures HistoryInv(StepWorker(s))
  {
    if ShuttingDown(s.wpc) {
      ExitKeepsHistory(s);
    } else if !StartingUp(s.wpc) {
      LoopKeepsHistory(s);
    }
  }

  /** Taking the front of the queue keeps the order of what was queued. */
  lemma {:induction false} TakeFront(popped: seq<Msg>, queue: seq<Msg>)
    requires queue != []
    ensures (popped + [queue[0]]) + queue[1..] == popped + queue
  {
  }

  lemma {:induction false} LoopKeepsHistory(s: State)
    requires HistoryInv(s) && Enabled(s, WorkerStep) && !StartingUp(s.wpc) && !ShuttingDown(s.wpc)
    ensures HistoryInv(StepLoop(s))
  {
    if s.wpc == WPop {
      PopKeepsHistory(s);
    } else if s.wpc.WDispatch? {
      DispatchKeepsHistory(s);
    } else if s.wpc.WFree? {
      assert s.log.freed + [s.wpc.msg] + [] == s.log.popped;
    }
  }

  lemma {:induction false} PopKeepsHistory(s: State)
    requires HistoryInv(s) && s.wpc == WPop && s.queue != []
    ensures HistoryInv(StepLoop(s))
  {
    TakeFront(s.log.popped, s.queue);
    assert s.log.freed + [] == s.log.freed;
  }

  lemma {:induction false} DispatchKeepsHistory(s: State)
    requires HistoryInv(s) && s.wpc.WDispatch?
    ensures HistoryInv(StepLoop(s))
  {
    hide ToRun;
    ToRunSnoc(s.log.freed, s.wpc.msg);
    var s' := StepLoop(s);
    assert s'.log.freed == s.log.freed && s'.log.popped == s.log.popped && InHand(s'.wpc) == [s.wpc.msg];
  }

  lemma {:induction false} ExitKeepsHistory(s: State)
    requires HistoryInv(s) && Enabled(s, WorkerStep) && ShuttingDown(s.wpc)
    ensures HistoryInv(StepExit(s))
  {
    assert s.log.freed + [] == s.log.freed;
    if s.wpc == WDrain && s.queue != [] {
      TakeFront(s.log.popped, s.queue);
      ToRunSnoc(s.log.popped, s.queue[0]);
      assert s.log.freed + [s.queue[0]] + [] == s.log.freed + [s.queue[0]];
    } else if s.wpc.WFreeExit? {
      assert s.log.freed + [s.wpc.msg] + [] == s.log.freed + [s.wpc.msg];
    }
  }

  ghost predicate Inv(s: State) {
    TimerInv(s) && LockInv(s) && WakeInv(s) && PushedInv(s) && HistoryInv(s)
  }

  lemma {:induction false} InitEstablishesInv(s: State)
    requires Init(s)
    ensures Inv(s)
  {
    forall p ensures !Holds(s, p) {
    }
  }

  lemma {:induction false} NextKeepsInv(s: State, a: Action)
    requires Inv(s)
    ensures Inv(Next(s, a))
  {
    if Enabled(s, a) {
      TimerInvHolds(s, a);
      LockInvHolds(s, a);
      WakeInvHolds(s, a);
      PushedInvHolds(s, a);
      HistoryInvHolds(s, a);
    }
  }

  lemma {:induction false} RunKeepsInv(s: State, actions: seq<Action>)
    requires Inv(s)
    ensures Inv(Run(s, actions))
    decreases actions
  {
    if actions != [] {
      NextKeepsInv(s, actions[0]);
      RunKeepsInv(Next(s, actions[0]), actions[1..]);
    }
  }

  lemma {:induction false} ReachableStatesAreSafe(s: State)
    requires Reachable(s)
    ensures Inv(s)
  {
    var s0: State, actions: seq<Action> :| Init(s0) && s == Run(s0, actions);
    InitEstablishesInv(s0);
    RunKeepsInv(s0, actions);
  }

  /** At most one thread is ever inside a locked region, and it is the one the mutex says. */
  lemma {:induction false} MutualExclusion(s: State, p: Tid, q: Tid)
    requires Reachable(s) && Holds(s, p) && Holds(s, q)
    ensures p == q && s.mutex == Some(p)
  {
    ReachableStatesAreSafe(s);
  }

  /** No lost wake-up: the queue of a sleeping worker is empty, except exactly while some thread is between
      its push and its notification; that thread has the lock, and its next step wakes the worker. */
  lemma {:induction false} NoLostWakeup(s: State)
    requires Reachable(s) && s.wpc == WAsleep
    ensures s.queue == [] <==> !exists p :: s.Pc(p) == Pushed
    ensures forall p :: s.Pc(p) == Pushed ==>
              s.mutex == Some(p) && Enabled(s, ProducerStep(p)) && Step(s, ProducerStep(p)).wpc == WWoken
  {
    ReachableStatesAreSafe(s);
    forall p | s.Pc(p) == Pushed ensures s.mutex == Some(p) {
      assert Holds(s, p);
    }
  }

  /** With an empty queue the worker takes five steps and sleeps. */
  lemma {:induction false} RunStartup(s: State)
    requires Init(s)
    ensures Run(s, [WorkerStep, WorkerStep, WorkerStep, WorkerStep, WorkerStep]) ==
            s.(thisId := Some(Worker), timerExit := false, tpc := TCheck, wpc := WAsleep)
  {
    var s1 := s.(thisId := Some(Worker), wpc := WClear);
    var s2 := s1.(timerExit := false, wpc := WSpawn);
    var s3 := s2.(tpc := TCheck, wpc := WLock);
    var s4 := s3.(mutex := Some(Worker), wpc := WCheck);
    var s5 := s4.(mutex := None, wpc := WAsleep);
    assert Next(s, WorkerStep) == s1 && Next(s1, WorkerStep) == s2 && Next(s2, WorkerStep) == s3;
    assert Next(s3, WorkerStep) == s4 && Next(s4, WorkerStep) == s5;
    hide Next;
    assert Run(s4, [WorkerStep]) == s5;
    assert Run(s3, [WorkerStep, WorkerStep]) == s5;
    assert Run(s2, [WorkerStep, WorkerStep, WorkerStep]) == s5;
    assert Run(s1, [WorkerStep, WorkerStep, WorkerStep, WorkerStep]) == s5;
  }

  /** A client that calls and gets as far as its push. */
  lemma {:induction false} RunPush(s: State, p: Tid)
    requires p.Client? && s.Pc(p) == Idle && s.mutex == None
    ensures var s' := Run(s, [Post(p, ExitMsg), ProducerStep(p), ProducerStep(p)]);
            s'.wpc == s.wpc && s'.queue == s.queue + [ExitMsg]
  {
    var s1 := Next(s, Post(p, ExitMsg));
    assert s1.Pc(p) == Want(ExitMsg) && s1.wpc == s.wpc && s1.queue == s.queue && s1.mutex == None;
    var s2 := Next(s1, ProducerStep(p));
    assert s2.Pc(p) == Locked(ExitMsg) && s2.wpc == s.wpc && s2.queue == s.queue;
    var s3 := Next(s2, ProducerStep(p));
    assert s3.wpc == s.wpc && s3.queue == s.queue + [ExitMsg];
    hide Next;
    assert Run(s2, [ProducerStep(p)]) == s3;
    assert Run(s1, [ProducerStep(p), ProducerStep(p)]) == s3;
    assert [Post(p, ExitMsg), ProducerStep(p), ProducerStep(p)][1..] == [ProducerStep(p), ProducerStep(p)];
  }

  /** The exception is real: a worker asleep with a message in its queue can be reached. */
  lemma {:induction false} AsleepOnFullQueue()
    ensures exists s :: Reachable(s) && s.wpc == WAsleep && s.queue != []
  {
    hide Run;
    var client := Client(0);
    var s0 := State([], None, false, None, WStart, TOff, map[], Log([], [], [], [], [], map[], 0, 0, []));
    var start := [WorkerStep, WorkerStep, WorkerStep, WorkerStep, WorkerStep];
    var push := [Post(client, ExitMsg), ProducerStep(client), ProducerStep(client)];
    var asleep := s0.(thisId := Some(Worker), tpc := TCheck, wpc := WAsleep);
    assert Run(s0, start) == asleep by { RunStartup(s0); }
    var pushed := Run(asleep, push);
    assert pushed.wpc == WAsleep && pushed.queue == [ExitMsg] by { RunPush(asleep, client); }
    RunConcat(s0, start, push);
    RunsReach(s0, start + push);
  }

  lemma {:induction false} RunsReach(s: State, actions: seq<Action>)
    requires Init(s)
    ensures Reachable(Run(s, actions))
  {
    hide Run;
  }

  /** In every reachable state the callbacks run so far are the user messages whose turn has come, without
      those behind the first exit message, in queue order and once each; and no message has been freed
      out of order, twice, or while it is in use. */
  lemma {:induction false} QueueSemantics(s: State)
    requires Reachable(s)
    ensures s.log.executed == ToRun(Started(s))
    ensures Started(s) <= s.log.pushed
    ensures s.log.popped == s.log.freed + InHand(s.wpc)
    ensures s.log.pushed == s.log.popped + s.queue
  {
    ReachableStatesAreSafe(s);
  }

  /** When `Process` returns, the queue is empty, everything queued until then has been freed exactly once,
      and what was run is exactly what was queued in front of the first exit message. */
  lemma {:induction false} ReturnLeavesNothingBehind(s: State)
    requires Reachable(s) && s.wpc == WReturn
    ensures s.queue == [] && s.log.freed == s.log.pushed && s.log.executed == ToRun(s.log.pushed)
    ensures ExitMsg in s.log.pushed
  {
    ReachableStatesAreSafe(s);
    assert s.log.popped + [] == s.log.popped && s.log.freed + [] == s.log.freed;
  }

  lemma {:induction false} RunConcat(s: State, actions: seq<Action>, more: seq<Action>)
    ensures Run(s, actions + more) == Run(Run(s, actions), more)
    decreases actions
  {
    if actions == [] {
      assert actions + more == more;
    } else {
      assert (actions + more)[1..] == actions[1..] + more;
      RunConcat(Next(s, actions[0]), actions[1..], more);
    }
  }
}
