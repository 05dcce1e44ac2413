/** Shutting the worker down (lib/workerthread.cpp): the exit flag, the join, and how much is left to do. */
module Shutdown {
  import opened Results
  import opened WorkerThreads
  import opened WorkerSafety

  /** The worker has set the exit flag. */
  predicate FlagUp(pc: WorkerPc) {
    pc.WJoin? || pc.WFreeExit? || Drains(pc)
  }

  /** The timer has passed its test of the flag and will queue one more message. */
  predicate TickPending(s: State) {
    s.tpc == TSleep || (s.tpc == TPosting && (s.Pc(Timer).Want? || s.Pc(Timer).Locked?))
  }

  predicate FlagInv(s: State) {
    && (s.wpc != WStart && s.wpc != WClear ==> (s.timerExit <==> FlagUp(s.wpc)))
    && (s.tpc == TDone ==> FlagUp(s.wpc))
    && (s.wpc.WFreeExit? || Drains(s.wpc) ==> s.tpc == TDone)
    && (!FlagUp(s.wpc) ==> s.log.lateTicks == 0)
    && s.log.lateTicks + (if TickPending(s) then 1 else 0) <= 1
  }

  lemma {:induction false} WorkerKeepsFlag(s: State)
    requires FlagInv(s) && TimerInv(s) && Enabled(s, WorkerStep)
    ensures FlagInv(StepWorker(s))
  {
    if !ShuttingDown(s.wpc) && !StartingUp(s.wpc) {
      var s' := StepLoop(s);
      assert s'.Pc(Timer) == s.Pc(Timer) && s'.tpc == s.tpc && s'.timerExit == s.timerExit;
      assert s'.log.lateTicks == s.log.lateTicks && !FlagUp(s'.wpc);
    }
  }

  lemma {:induction false} ProducerKeepsFlag(s: State, q: Tid)
    requires FlagInv(s) && TimerInv(s) && Enabled(s, ProducerStep(q))
    ensures FlagInv(StepProducer(s, q))
  {
    if q != Timer {
      assert StepProducer(s, q).Pc(Timer) == s.Pc(Timer);
    }
  }

  lemma {:induction false} NextKeepsFlag(s: State, a: Action)
    requires FlagInv(s) && TimerInv(s)
    ensures FlagInv(Next(s, a))
  {
    if Enabled(s, a) {
      match a
      case WorkerStep => WorkerKeepsFlag(s);
      case ProducerStep(q) => ProducerKeepsFlag(s, q);
      case _ =>
    }
  }

  lemma {:induction false} RunKeepsFlag(s: State, actions: seq<Action>)
    requires FlagInv(s) && Inv(s)
    ensures FlagInv(Run(s, actions))
    decreases actions
  {
    if actions != [] {
      NextKeepsFlag(s, actions[0]);
      NextKeepsInv(s, actions[0]);
      RunKeepsFlag(Next(s, actions[0]), actions[1..]);
    }
  }

  lemma {:induction false} ReachableStatesKeepFlag(s: State)
    requires Reachable(s)
    ensures FlagInv(s) && Inv(s)
  {
    var s0: State, actions: seq<Action> :| Init(s0) && s == Run(s0, actions);
    InitEstablishesInv(s0);
    RunKeepsInv(s0, actions);
    RunKeepsFlag(s0, actions);
  }

  /** The timer queues at most one message once the flag is set, and none once it has been joined. */
  lemma {:induction false} AtMostOneLateTick(s: State)
    requires Reachable(s)
    ensures s.log.lateTicks <= 1
    ensures s.wpc.WFreeExit? || Drains(s.wpc) ==> s.tpc == TDone && s.Pc(Timer) == Idle
  {
    ReachableStatesKeepFlag(s);
  }

  /** A step that can be taken: by the owner of the lock if a producer has it, else by the worker, else by
      the thread that the worker waits for. */
  function Unblocked(s: State): Action {
    if s.mutex.Some? && HoldsAsProducer(s.Pc(s.mutex.value)) then ProducerStep(s.mutex.value)
    else if Enabled(s, WorkerStep) then WorkerStep
    else if s.wpc.WRun? then ProducerStep(Worker)
    else if Enabled(s, TimerStep) then TimerStep
    else ProducerStep(Timer)
  }

  lemma {:induction false} UnblockedIsEnabled(s: State)
    requires Inv(s) && FlagInv(s) && s.wpc != WDone
    ensures Enabled(s, Unblocked(s))
  {
    if s.mutex.Some? {
      assert Holds(s, s.mutex.value);
    }
  }

  /** No deadlock: until `Process` has returned some thread of the worker's own, or the owner of its lock,
      can go on. In particular the worker joins the timer without holding the lock. */
  lemma {:induction false} NoDeadlock(s: State)
    requires Reachable(s) && s.wpc != WDone
    ensures Enabled(s, Unblocked(s))
    ensures s.wpc.WJoin? ==> s.mutex != Some(Worker)
  {
    ReachableStatesKeepFlag(s);
    UnblockedIsEnabled(s);
    if s.mutex.Some? {
      assert Holds(s, s.mutex.value);
    }
  }

  function WorkerRank(s: State): nat {
    match s.wpc
    case WJoin(_) => 5 + |s.queue|
    case WFreeExit(_) => 4 + |s.queue|
    case WDrainLock => 3 + |s.queue|
    case WDrain => 2 + |s.queue|
    case WReturn => 1
    case _ => 0
  }

  /** The push of a last timer message costs the worker one step more. */
  function TimerRank(s: State): nat {
    match s.tpc
    case TOff => 0
    case TDone => 0
    case TCheck => 1
    case TSleep => 8
    case TPosting =>
      (match s.Pc(Timer)
       case Idle => 2
       case Notified => 3
       case Pushed => 4
       case Locked(_) => 6
       case Want(_) => 7)
  }

  /** The steps that the worker and its timer have still to take once the flag is set. */
  function Rank(s: State): nat {
    WorkerRank(s) + TimerRank(s)
  }

  /** A step of the worker or of its timer. */
  predicate OwnStep(a: Action) {
    a == WorkerStep || a == TimerStep || a == ProducerStep(Timer)
  }

  /** Another thread queues a message that the worker will have to free. */
  predicate AddsWork(s: State, a: Action) {
    a.ProducerStep? && a.p != Timer && s.Pc(a.p).Locked? && s.wpc != WDone
  }

  function CountIf(b: bool): nat {
    if b then 1 else 0
  }

  lemma {:induction false} WorkerLowersRank(s: State)
    requires FlagInv(s) && TimerInv(s) && FlagUp(s.wpc) && Enabled(s, WorkerStep)
    ensures FlagUp(StepWorker(s).wpc) && Rank(StepWorker(s)) == Rank(s) - 1
  {
    assert StepExit(s).Pc(Timer) == s.Pc(Timer) && StepExit(s).tpc == s.tpc;
  }

  lemma {:induction false} ProducerAndRank(s: State, q: Tid)
    requires Inv(s) && FlagInv(s) && FlagUp(s.wpc) && Enabled(s, ProducerStep(q))
    ensures StepProducer(s, q).wpc == s.wpc
    ensures Rank(StepProducer(s, q)) ==
            if q == Timer then Rank(s) - 1 else Rank(s) + CountIf(AddsWork(s, ProducerStep(q)))
  {
    assert HoldsAsProducer(s.Pc(q)) ==> Holds(s, q);
    assert HoldsAsWorker(s.wpc) ==> Holds(s, Worker);
    assert q != Timer ==> StepProducer(s, q).Pc(Timer) == s.Pc(Timer);
  }

  /** Every step of the worker or its timer lowers the rank by exactly one; nothing raises it but a message
      queued by another thread, and that by one. */
  lemma {:induction false} RankOfStep(s: State, a: Action)
    requires Inv(s) && FlagInv(s) && FlagUp(s.wpc)
    ensures FlagUp(Next(s, a).wpc)
    ensures Rank(Next(s, a)) + CountIf(Enabled(s, a) && OwnStep(a)) ==
            Rank(s) + CountIf(Enabled(s, a) && AddsWork(s, a))
  {
    assert TimerInv(s);
    hide Rank, StepWorker, StepTimer, StepProducer, StepIssue, Inv, FlagInv, TimerInv;
    if Enabled(s, a) {
      match a
      case WorkerStep => WorkerLowersRank(s);
      case ProducerStep(q) => ProducerAndRank(s, q);
      case TimerStep => TimerLowersRank(s);
      case _ => OthersKeepRank(s, a);
    }
  }

  /** A thread that starts a call is not the timer, and the worker is no longer asleep. */
  lemma {:induction false} OthersKeepRank(s: State, a: Action)
    requires FlagUp(s.wpc) && Enabled(s, a) && (a.SpuriousWakeup? || a.Post? || a.Issue?)
    ensures Step(s, a).wpc == s.wpc && Rank(Step(s, a)) == Rank(s)
  {
    hide Rank, StepWorker, StepTimer, StepProducer;
    var s' := Step(s, a);
    assert s'.Pc(Timer) == s.Pc(Timer);
    SameRank(s, s');
  }

  lemma {:induction false} SameRank(s: State, s': State)
    requires s'.wpc == s.wpc && s'.tpc == s.tpc && s'.queue == s.queue && s'.Pc(Timer) == s.Pc(Timer)
    ensures Rank(s') == Rank(s)
  {
  }

  lemma {:induction false} TimerLowersRank(s: State)
    requires FlagInv(s) && TimerInv(s) && FlagUp(s.wpc) && Enabled(s, TimerStep)
    ensures StepTimer(s).wpc == s.wpc && Rank(StepTimer(s)) == Rank(s) - 1
  {
  }

  function OwnSteps(s: State, actions: seq<Action>): nat
    decreases actions
  {
    if actions == [] then 0
    else CountIf(Enabled(s, actions[0]) && OwnStep(actions[0])) + OwnSteps(Next(s, actions[0]), actions[1..])
  }

  function MessagesAdded(s: State, actions: seq<Action>): nat
    decreases actions
  {
    if actions == [] then 0
    else CountIf(Enabled(s, actions[0]) && AddsWork(s, actions[0])) +
         MessagesAdded(Next(s, actions[0]), actions[1..])
  }

  lemma {:induction false} RankOfRun(s: State, actions: seq<Action>)
    requires Inv(s) && FlagInv(s) && FlagUp(s.wpc)
    ensures OwnSteps(s, actions) + Rank(Run(s, actions)) == Rank(s) + MessagesAdded(s, actions)
    decreases actions
  {
    if actions != [] {
      RankOfStep(s, actions[0]);
      NextKeepsInv(s, actions[0]);
      NextKeepsFlag(s, actions[0]);
      RankOfRun(Next(s, actions[0]), actions[1..]);
    }
  }

  /** Progress of the shutdown: however the threads interleave, once the flag is set the worker and its
      timer together take at most `Rank` steps, plus one for every message that others queue in the
      meantime, and exactly that many to get to the return. */
  lemma {:induction false} ShutdownIsBounded(s: State, actions: seq<Action>)
    requires Reachable(s) && FlagUp(s.wpc)
    ensures OwnSteps(s, actions) <= Rank(s) + MessagesAdded(s, actions)
    ensures Run(s, actions).wpc == WDone ==> OwnSteps(s, actions) == Rank(s) + MessagesAdded(s, actions)
    ensures Rank(s) <= 13 + |s.queue|
  {
    ReachableStatesKeepFlag(s);
    RankOfRun(s, actions);
    RunKeepsFlag(s, actions);
    RankIsBounded(s);
    hide Run, OwnSteps, MessagesAdded, Rank, Inv;
    if Run(s, actions).wpc == WDone {
      ReturnHasRankZero(Run(s, actions));
    }
  }

  lemma {:induction false} RankIsBounded(s: State)
    ensures Rank(s) <= 13 + |s.queue|
  {
  }

  lemma {:induction false} ReturnHasRankZero(s: State)
    requires FlagInv(s) && s.wpc == WDone
    ensures Rank(s) == 0
  {
  }

  /** The steps that a thread other than the timer still takes with the lock; its push adds one for the
      worker. */
  function OwnerRank(s: State): nat {
    if s.mutex.None? || s.mutex.value == Timer then 0
    else
      match s.Pc(s.mutex.value)
      case Locked(_) => 4
      case Pushed => 2
      case Notified => 1
      case _ => 0
  }

  lemma {:induction false} UnblockedGoesOn(s: State)
    requires Inv(s) && FlagInv(s) && FlagUp(s.wpc) && s.wpc != WDone
    ensures Enabled(s, Unblocked(s))
    ensures var s' := Next(s, Unblocked(s));
            && Inv(s') && FlagInv(s') && FlagUp(s'.wpc)
            && Rank(s') + OwnerRank(s') == Rank(s) + OwnerRank(s) - 1
  {
    UnblockedIsEnabled(s);
    NextKeepsInv(s, Unblocked(s));
    NextKeepsFlag(s, Unblocked(s));
    RankOfStep(s, Unblocked(s));
    OwnerOfStep(s);
  }

  lemma {:induction false} OwnerOfStep(s: State)
    requires Inv(s) && FlagInv(s) && FlagUp(s.wpc) && s.wpc != WDone && Enabled(s, Unblocked(s))
    ensures OwnerRank(Step(s, Unblocked(s))) + CountIf(AddsWork(s, Unblocked(s))) ==
            OwnerRank(s) - CountIf(!OwnStep(Unblocked(s)))
  {
  }

  /** The schedule that always takes the step that is not blocked, until `Process` has returned. */
  function Steered(s: State, steps: nat): State
    decreases steps
  {
    if steps == 0 || s.wpc == WDone then s else Steered(Next(s, Unblocked(s)), steps - 1)
  }

  /** The shutdown finishes: from every reachable state in which the flag is set that schedule returns within
      the rank, and what is left to a thread that has the lock. */
  lemma {:induction false} ShutdownFinishes(s: State)
    requires Reachable(s) && FlagUp(s.wpc)
    ensures Steered(s, Rank(s) + OwnerRank(s)).wpc == WDone
  {
    ReachableStatesKeepFlag(s);
    SteeredReturns(s, Rank(s) + OwnerRank(s));
  }

  lemma {:induction false} SteeredReturns(s: State, steps: nat)
    requires Inv(s) && FlagInv(s) && FlagUp(s.wpc) && steps == Rank(s) + OwnerRank(s)
    ensures Steered(s, steps).wpc == WDone
    decreases steps
  {
    hide Rank, OwnerRank, Unblocked, Enabled, Next, Inv, FlagInv, FlagUp;
    if s.wpc != WDone {
      UnblockedGoesOn(s);
      SteeredReturns(Next(s, Unblocked(s)), steps - 1);
    }
  }
}
