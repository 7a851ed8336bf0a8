/** The worker pool of netty/utils/worker_pool.go as a system of interleaved atomic steps over the
    contents of its channels. A step is one channel operation or one change of a goroutine's own
    state; any enabled step of any goroutine may happen next. */
module WorkerPool {

  /** A task is named by the AddTask call that carried it, so two calls never share a name. */
  type Task = nat

  /** Workers are numbered in the order startWorker created them. */
  type Id = nat

  datatype Config = Config(taskCap: nat, idleWorkers: nat, maxWorkers: nat)

  /** NewWorkerPool: at least one idle worker, and no fewer in all than idle. */
  function Configure(taskCap: nat, idle: int, max: int): (c: Config)
    ensures 1 <= c.idleWorkers <= c.maxWorkers
  {
    var i := if idle < 1 then 1 else idle;
    Config(taskCap, i, if max < i then i else max)
  }

  /** What a worker's own channel carries: a task, or nil. */
  datatype Order = Exec(task: Task) | Exit

  datatype Phase = Offering | Waiting | Running(task: Task) | Leaving | Gone

  datatype Worker = Worker(phase: Phase, inbox: seq<Order>, open: bool)

  const Newborn := Worker(Offering, [], true)

  /** Where the dispatcher stands between two of its channel operations. */
  datatype Dispatcher =
    | Selecting
    | Assigning(task: Task)
    | Awaiting(task: Task)
    | Giving(task: Task, worker: Id)
    | Trimming(left: nat)
    | Dismissing(left: nat, worker: Id)
    | Draining
    | DrainAwaiting(task: Task)
    | DrainGiving(task: Task, worker: Id)
    | Retiring
    | RetireGiving(worker: Id)
    | ClosingReady
    | ClosingQueue
    | ClosingSignal
    | Finished

  datatype State = State(
    cancelled: bool,
    next: Task,             // name of the next AddTask call to pass the check
    adders: set<Task>,      // calls past the check that have not sent yet
    queue: seq<Task>,
    queueOpen: bool,
    ready: seq<Id>,
    readyOpen: bool,
    workers: seq<Worker>,
    count: int,             // workerCount
    dispatcher: Dispatcher,
    signalled: bool,        // closedSignal is closed
    accepted: seq<Task>,    // history: sent to the queue
    started: seq<Task>,     // history: begun by a worker
    done: seq<Task>,        // history: finished
    offers: seq<Id>,        // history: sent to readyWorkers
    crashed: bool)          // a goroutine sent on a closed channel

  const Initial := State(false, 0, {}, [], true, [], true, [], 0, Selecting, false, [], [], [], [], false)

  /** Callers of AddTask and Stop; the dispatcher's own select; a worker's loop. */
  datatype Step = Call(call: CallStep) | Dispatch(move: Move) | Work(worker: Id, deed: Deed)

  datatype CallStep = Enter | Send(task: Task) | Handoff(task: Task) | Cancel

  /** Take a task, pop a ready worker, post to it, or move on without a channel in hand. */
  datatype Move = Take | Pop | Post | Spawn | Tick | TrimStop | SeeCancel | DrainDone | RetireDone | Close

  datatype Deed = Offer | Receive | Complete | Leave

  /** The worker whose channel the dispatcher has taken from readyWorkers and not yet used. */
  function Hand(d: Dispatcher): (h: seq<Id>)
    ensures |h| <= 1
  {
    if d.Giving? || d.Dismissing? || d.DrainGiving? || d.RetireGiving? then [d.worker] else []
  }

  /** Whether the dispatcher has taken task t from the queue and not yet sent it on. */
  function HandTask(d: Dispatcher, t: Task): nat {
    if (d.Assigning? || d.Awaiting? || d.Giving? || d.DrainAwaiting? || d.DrainGiving?) && d.task == t then 1 else 0
  }

  // ----- callers -----

  predicate CallEnabled(c: Config, s: State, call: CallStep) {
    match call
    case Enter => !s.cancelled
    case Send(t) => t in s.adders && (!s.queueOpen || |s.queue| < c.taskCap)
    case Handoff(t) => c.taskCap == 0 && t in s.adders && s.queueOpen && s.dispatcher.Selecting?
    case Cancel => !s.cancelled
  }

  /** Stop cancels once; later calls change nothing. AddTask is a check and, later, a send; a send on the
      closed queue panics. A queue without buffer passes the task straight to the dispatcher's select. */
  function Called(s: State, call: CallStep): State {
    match call
    case Enter => s.(adders := s.adders + {s.next}, next := s.next + 1)
    case Send(t) =>
      if !s.queueOpen then s.(crashed := true)
      else s.(adders := s.adders - {t}, queue := s.queue + [t], accepted := s.accepted + [t])
    case Handoff(t) => s.(adders := s.adders - {t}, accepted := s.accepted + [t], dispatcher := Assigning(t))
    case Cancel => s.(cancelled := true)
  }

  // ----- the dispatcher -----

  /** The states that receive from readyWorkers. */
  predicate WantsWorker(s: State) {
    var d := s.dispatcher;
    || d.Assigning? || d.Awaiting? || d.DrainAwaiting?
    || (d.Trimming? && d.left > 0) || (d.Retiring? && s.count > 0)
  }

  function Holding(d: Dispatcher, w: Id): Dispatcher {
    match d
    case Assigning(t) => Giving(t, w)
    case Awaiting(t) => Giving(t, w)
    case DrainAwaiting(t) => DrainGiving(t, w)
    case Trimming(left) => Dismissing(left, w)
    case _ => RetireGiving(w)
  }

  /** What is sent on the worker's channel, and where the dispatcher goes after that. */
  function OrderOf(d: Dispatcher): Order {
    if d.Giving? || d.DrainGiving? then Exec(d.task) else Exit
  }

  function Released(d: Dispatcher): Dispatcher {
    match d
    case Giving(_, _) => Selecting
    case DrainGiving(_, _) => Draining
    case Dismissing(left, _) => Trimming(if left > 0 then left - 1 else 0)
    case _ => Retiring
  }

  /** A send into the one-slot buffer waits for the slot; on a closed channel it panics at once. */
  predicate CanPost(s: State, w: Id) {
    w < |s.workers| && (!s.workers[w].open || s.workers[w].inbox == [])
  }

  function Posted(s: State, w: Id): State
    requires w < |s.workers|
  {
    var k := s.workers[w];
    var order := OrderOf(s.dispatcher);
    if !k.open then s.(crashed := true)
    else s.(workers := s.workers[w := k.(inbox := k.inbox + [order])],
            dispatcher := Released(s.dispatcher),
            count := if order.Exit? then s.count - 1 else s.count)
  }

  predicate MoveEnabled(s: State, move: Move) {
    var d := s.dispatcher;
    match move
    case Take => (d.Selecting? || d.Draining?) && s.queue != []
    case Pop => WantsWorker(s) && s.ready != []
    case Post => Hand(d) != [] && CanPost(s, Hand(d)[0])
    case Spawn => d.Assigning? && s.ready == []
    case Tick => d.Selecting?
    case TrimStop => d.Trimming? && (d.left == 0 || s.ready == [])
    case SeeCancel => d.Selecting? && s.cancelled
    case DrainDone => d.Draining? && s.queue == []
    case RetireDone => d.Retiring? && s.count <= 0
    case Close => d.ClosingReady? || d.ClosingQueue? || d.ClosingSignal?
  }

  function Moved(c: Config, s: State, move: Move): State
    requires MoveEnabled(s, move)
  {
    var d := s.dispatcher;
    match move
    case Take =>
      s.(queue := s.queue[1..],
         dispatcher := if d.Selecting? then Assigning(s.queue[0]) else DrainAwaiting(s.queue[0]))
    case Pop => s.(ready := s.ready[1..], dispatcher := Holding(d, s.ready[0]))
    case Post => Posted(s, Hand(d)[0])
    case Spawn =>
      if s.count < c.maxWorkers then
        s.(workers := s.workers + [Newborn], count := s.count + 1, dispatcher := Awaiting(d.task))
      else s.(dispatcher := Awaiting(d.task))
    case Tick =>
      s.(dispatcher := if s.count > c.idleWorkers then Trimming(s.count - c.idleWorkers) else Selecting)
    case TrimStop => s.(dispatcher := Selecting)
    case SeeCancel => s.(dispatcher := Draining)
    case DrainDone => s.(dispatcher := Retiring)
    case RetireDone => s.(dispatcher := ClosingReady)
    case Close =>
      if d.ClosingReady? then s.(readyOpen := false, dispatcher := ClosingQueue)
      else if d.ClosingQueue? then s.(queueOpen := false, dispatcher := ClosingSignal)
      else s.(signalled := true, dispatcher := Finished)
  }

  // ----- the workers -----

  predicate DeedEnabled(c: Config, s: State, w: Id, deed: Deed) {
    w < |s.workers| &&
    var k := s.workers[w];
    match deed
    case Offer => k.phase.Offering? && (!s.readyOpen || |s.ready| < c.idleWorkers)
    case Receive => k.phase.Waiting? && k.inbox != []
    case Complete => k.phase.Running?
    case Leave => k.phase.Leaving?
  }

  function Set(s: State, w: Id, k: Worker): State
    requires w < |s.workers|
  {
    s.(workers := s.workers[w := k])
  }

  function Worked(c: Config, s: State, w: Id, deed: Deed): State
    requires DeedEnabled(c, s, w, deed)
  {
    var k := s.workers[w];
    match deed
    case Offer =>
      if !s.readyOpen then s.(crashed := true)
      else Set(s, w, k.(phase := Waiting)).(ready := s.ready + [w], offers := s.offers + [w])
    case Receive =>
      (match k.inbox[0]
       case Exit => Set(s, w, k.(phase := Leaving, inbox := k.inbox[1..]))
       case Exec(t) => Set(s, w, k.(phase := Running(t), inbox := k.inbox[1..])).(started := s.started + [t]))
    case Complete => Set(s, w, k.(phase := Offering)).(done := s.done + [k.phase.task])
    case Leave => Set(s, w, k.(phase := Gone, open := false))
  }

  // ----- schedules -----

  predicate Enabled(c: Config, s: State, step: Step) {
    !s.crashed &&
    match step
    case Call(call) => CallEnabled(c, s, call)
    case Dispatch(move) => MoveEnabled(s, move)
    case Work(w, deed) => DeedEnabled(c, s, w, deed)
  }

  function Apply(c: Config, s: State, step: Step): State
    requires Enabled(c, s, step)
  {
    match step
    case Call(call) => Called(s, call)
    case Dispatch(move) => Moved(c, s, move)
    case Work(w, deed) => Worked(c, s, w, deed)
  }

  /** A schedule is a list of steps each enabled when its turn comes. */
  predicate Runs(c: Config, s: State, steps: seq<Step>)
    decreases |steps|
  {
    steps == [] || (Enabled(c, s, steps[0]) && Runs(c, Apply(c, s, steps[0]), steps[1..]))
  }

  function After(c: Config, s: State, steps: seq<Step>): State
    requires Runs(c, s, steps)
    decreases |steps|
  {
    if steps == [] then s else After(c, Apply(c, s, steps[0]), steps[1..])
  }
}
