/** The worker thread, its timer thread and the threads that post to it (lib/workerthread.cpp), and the
    thread check of guarded calls (lib/threadedclass.h), as a transition system. One step is one access
    to shared state; the steps of all threads interleave freely. */
module WorkerThreads {
  import opened Results

  /** Any number of client threads besides the worker and its timer. */
  datatype Tid = Worker | Timer | Client(id: nat)

  type Arg = string

  /** A user message is a callback: either any function, or a guarded call with its arguments captured. */
  datatype Msg = User(issuer: Tid, arg: Arg, guarded: bool) | TimerMsg | ExitMsg

  /** Where `Process` is. */
  datatype WorkerPc =
    | WStart | WClear | WSpawn
    | WLock | WCheck | WAsleep | WWoken | WPop
    | WUnlock(msg: Msg) | WDispatch(msg: Msg) | WRun(msg: Msg) | WFree(msg: Msg)
    | WSetFlag(msg: Msg) | WJoin(msg: Msg) | WFreeExit(msg: Msg)
    | WDrainLock | WDrain | WReturn | WDone

  /** Where `TimerThread` is. */
  datatype TimerPc = TOff | TCheck | TSleep | TPosting | TDone

  /** Where a thread is in `PostMsg`, `ExitThread` or the end of the timer loop. */
  datatype ProducerPc = Idle | Want(msg: Msg) | Locked(msg: Msg) | Pushed | Notified

  /** A guarded body that ran: on which thread, and which call it was. */
  datatype Body = Body(on: Tid, issuer: Tid, arg: Arg)

  /** Histories: messages in the order in which they were queued, taken, run and freed, guarded calls
      issued and run, timer messages queued since the exit flag was set, and guarded calls that were posted
      a second time, and which thread queued each message. */
  datatype Log = Log(pushed: seq<Msg>, popped: seq<Msg>, executed: seq<Msg>, freed: seq<Msg>,
                     bodies: seq<Body>, issued: map<Tid, seq<Arg>>, lateTicks: nat, reposts: nat,
                     pushers: seq<Tid>)

  /** The members of the worker, the program counters, and the histories. */
  datatype State = State(queue: seq<Msg>, mutex: Option<Tid>, timerExit: bool, thisId: Option<Tid>,
                         wpc: WorkerPc, tpc: TimerPc, producers: map<Tid, ProducerPc>, log: Log)
  {
    function Pc(p: Tid): ProducerPc {
      if p in producers then producers[p] else Idle
    }

    function Issued(p: Tid): seq<Arg> {
      if p in log.issued then log.issued[p] else []
    }

    /** A thread can make a call if it is not inside one; the worker does so from a callback. */
    predicate CanCall(p: Tid) {
      Pc(p) == Idle && (p.Client? || (p.Worker? && wpc.WRun?))
    }
  }

  /** Nothing has been initialised but the queue and the locks. */
  predicate Init(s: State) {
    && s.queue == [] && s.mutex == None && s.thisId == None
    && s.wpc == WStart && s.tpc == TOff && s.producers == map[]
    && s.log == Log([], [], [], [], [], map[], 0, 0, [])
  }

  datatype Action =
    | WorkerStep | SpuriousWakeup | TimerStep
    | Post(p: Tid, msg: Msg) | Issue(p: Tid, arg: Arg) | ProducerStep(p: Tid)

  predicate Enabled(s: State, a: Action) {
    match a
    case WorkerStep =>
      (match s.wpc
       case WAsleep => false
       case WDone => false
       case WLock => s.mutex == None
       case WWoken => s.mutex == None
       case WDrainLock => s.mutex == None
       case WPop => s.queue != []
       case WRun(_) => s.Pc(Worker) == Idle
       case WJoin(_) => s.tpc == TDone
       case _ => true)
    case SpuriousWakeup => s.wpc == WAsleep
    case TimerStep =>
      s.tpc == TCheck || s.tpc == TSleep || (s.tpc == TPosting && s.Pc(Timer) == Idle)
    case Post(p, msg) =>
      s.CanCall(p) && (msg == ExitMsg || (msg.User? && msg.issuer == p && !msg.guarded))
    case Issue(p, _) => s.CanCall(p)
    case ProducerStep(p) =>
      (match s.Pc(p)
       case Idle => false
       case Want(_) => s.mutex == None
       case _ => true)
  }

  function Step(s: State, a: Action): State
    requires Enabled(s, a)
  {
    match a
    case WorkerStep => StepWorker(s)
    case SpuriousWakeup => s.(wpc := WWoken)
    case TimerStep => StepTimer(s)
    case Post(p, msg) => s.(producers := s.producers[p := Want(msg)])
    case Issue(p, arg) => StepIssue(s, p, arg)
    case ProducerStep(p) => StepProducer(s, p)
  }

  function Queued(log: Log, m: Msg, p: Tid, late: bool): Log {
    log.(pushed := log.pushed + [m], pushers := log.pushers + [p], lateTicks := log.lateTicks + if late then 1 else 0)
  }

  function Taken(log: Log, m: Msg): Log {
    log.(popped := log.popped + [m])
  }

  function Freed(log: Log, m: Msg): Log {
    log.(freed := log.freed + [m])
  }

  function Ran(log: Log, b: Body): Log {
    log.(bodies := log.bodies + [b])
  }

  /** `Process`. */
  function StepWorker(s: State): State
    requires Enabled(s, WorkerStep)
  {
    if ShuttingDown(s.wpc) then StepExit(s)
    else if StartingUp(s.wpc) then StepStartup(s)
    else StepLoop(s)
  }

  predicate StartingUp(pc: WorkerPc) {
    pc == WStart || pc == WClear || pc == WSpawn
  }

  /** From the exit message on. */
  predicate ShuttingDown(pc: WorkerPc) {
    pc.WSetFlag? || pc.WJoin? || pc.WFreeExit? || Drains(pc)
  }

  predicate Drains(pc: WorkerPc) {
    pc == WDrainLock || pc == WDrain || pc == WReturn || pc == WDone
  }

  function StepStartup(s: State): State {
    match s.wpc
    case WStart => s.(thisId := Some(Worker), wpc := WClear)
    case WClear => s.(timerExit := false, wpc := WSpawn)
    case _ => s.(tpc := TCheck, wpc := WLock)
  }

  /** One round of the message loop. */
  function StepLoop(s: State): State
    requires Enabled(s, WorkerStep)
  {
    match s.wpc
    case WLock => s.(mutex := Some(Worker), wpc := WCheck)
    case WWoken => s.(mutex := Some(Worker), wpc := WCheck)
    case WCheck => if s.queue == [] then s.(mutex := None, wpc := WAsleep) else s.(wpc := WPop)
    case WPop => s.(queue := s.queue[1..], wpc := WUnlock(s.queue[0]), log := Taken(s.log, s.queue[0]))
    case WUnlock(m) => s.(mutex := None, wpc := WDispatch(m))
    case WDispatch(m) =>
      (match m
       case User(_, _, _) => StartCallback(s.(wpc := WRun(m), log := s.log.(executed := s.log.executed + [m])), m)
       case TimerMsg => s.(wpc := WFree(m))
       case ExitMsg => s.(wpc := WSetFlag(m)))
    case WRun(m) => s.(wpc := WFree(m))
    case WFree(m) => s.(wpc := WLock, log := Freed(s.log, m))
    case _ => s
  }

  /** The exit message: stop the timer, then empty the queue. */
  function StepExit(s: State): State {
    match s.wpc
    case WSetFlag(m) => s.(timerExit := true, wpc := WJoin(m))
    case WJoin(m) => s.(wpc := WFreeExit(m))
    case WFreeExit(m) => s.(wpc := WDrainLock, log := Freed(s.log, m))
    case WDrainLock => s.(mutex := Some(Worker), wpc := WDrain)
    case WDrain =>
      if s.queue == [] then s.(wpc := WReturn)
      else s.(queue := s.queue[1..], log := Freed(Taken(s.log, s.queue[0]), s.queue[0]))
    case WReturn => s.(mutex := None, wpc := WDone)
    case _ => s
  }

  /** A guarded call that comes out of the queue makes the thread check again: it runs, or would be posted
      a second time, and which thread queued each message. */
  function StartCallback(s: State, m: Msg): State
    requires m.User?
  {
    if !m.guarded then s
    else if s.thisId == Some(Worker) then s.(log := Ran(s.log, Body(Worker, m.issuer, m.arg)))
    else s.(producers := s.producers[Worker := Want(m)], log := s.log.(reposts := s.log.reposts + 1))
  }

  /** Except when it starts a callback, the worker only moves messages. */
  lemma {:induction false} WorkerFrame(s: State)
    requires Enabled(s, WorkerStep) && !(s.wpc.WDispatch? && s.wpc.msg.User?)
    ensures var s' := StepWorker(s);
            && s'.producers == s.producers
            && s'.log == s.log.(popped := s'.log.popped, freed := s'.log.freed)
  {
    if ShuttingDown(s.wpc) {
      ExitFrame(s);
    } else if !StartingUp(s.wpc) {
      LoopFrame(s);
    }
  }

  lemma {:induction false} LoopFrame(s: State)
    requires Enabled(s, WorkerStep) && !(s.wpc.WDispatch? && s.wpc.msg.User?)
    ensures var s' := StepLoop(s);
            s'.producers == s.producers && s'.log == s.log.(popped := s'.log.popped, freed := s'.log.freed)
  {
  }

  lemma {:induction false} ExitFrame(s: State)
    ensures var s' := StepExit(s);
            s'.producers == s.producers && s'.log == s.log.(popped := s'.log.popped, freed := s'.log.freed)
  {
  }

  /** `TimerThread`. */
  function StepTimer(s: State): State
    requires Enabled(s, TimerStep)
  {
    match s.tpc
    case TCheck => s.(tpc := if s.timerExit then TDone else TSleep)
    case TSleep => s.(producers := s.producers[Timer := Want(TimerMsg)], tpc := TPosting)
    case TPosting => s.(tpc := TCheck)
    case _ => s
  }

  /** A guarded call: run the body here if this is the worker thread, else post it with its arguments. */
  function StepIssue(s: State, p: Tid, arg: Arg): State {
    var recorded := s.log.(issued := s.log.issued[p := s.Issued(p) + [arg]]);
    if s.thisId == Some(p) then s.(log := Ran(recorded, Body(p, p, arg)))
    else s.(log := recorded, producers := s.producers[p := Want(User(p, arg, true))])
  }

  /** Lock, push, notify, unlock. Only the worker ever waits on the condition variable. */
  function StepProducer(s: State, p: Tid): State {
    match s.Pc(p)
    case Idle => s
    case Want(m) => s.(mutex := Some(p), producers := s.producers[p := Locked(m)])
    case Locked(m) =>
      s.(queue := s.queue + [m], producers := s.producers[p := Pushed],
         log := Queued(s.log, m, p, p == Timer && s.timerExit))
    case Pushed =>
      s.(producers := s.producers[p := Notified], wpc := if s.wpc == WAsleep then WWoken else s.wpc)
    case Notified => s.(mutex := None, producers := s.producers[p := Idle])
  }

  /** An action that is not enabled does not happen. */
  function Next(s: State, a: Action): State {
    if Enabled(s, a) then Step(s, a) else s
  }

  function Run(s: State, actions: seq<Action>): State
    decreases actions
  {
    if actions == [] then s else Run(Next(s, actions[0]), actions[1..])
  }

  ghost predicate Reachable(s: State) {
    exists s0: State, actions: seq<Action> :: Init(s0) && s == Run(s0, actions)
  }
}
