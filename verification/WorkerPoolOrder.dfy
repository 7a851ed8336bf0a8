/** The channels of the worker pool are first in, first out, and bounded; and what trimming achieves. */
module WorkerPoolOrder {
  import opened WorkerPool
  import opened WorkerPoolSafety

  /** `rest` is what is left of a history after its first elements have been received in order, and
      `last` the most recent of these, if it is still in the receiver's hand. */
  ghost predicate Received<T>(history: seq<T>, rest: seq<T>, last: seq<T>) {
    var n := |history| - |rest|;
    && n >= |last| && history[n..] == rest && history[n - |last|..n] == last
  }

  lemma ReceivedSend<T>(history: seq<T>, rest: seq<T>, last: seq<T>, x: T)
    requires Received(history, rest, last)
    ensures Received(history + [x], rest + [x], last)
  {
    var n := |history| - |rest|;
    assert (history + [x])[n..] == history[n..] + [x];
    assert (history + [x])[n - |last|..n] == history[n - |last|..n];
  }

  lemma ReceivedTake<T>(history: seq<T>, rest: seq<T>)
    requires Received(history, rest, []) && rest != []
    ensures Received(history, rest[1..], [rest[0]])
  {
    var n := |history| - |rest|;
    assert history[n + 1..] == rest[1..] && history[n..n + 1] == [rest[0]];
  }

  lemma ReceivedRelease<T>(history: seq<T>, rest: seq<T>, last: seq<T>)
    requires Received(history, rest, last)
    ensures Received(history, rest, [])
  {
    var n := |history| - |rest|;
    assert history[n..n] == [];
  }

  lemma ReceivedDirect<T>(history: seq<T>, x: T)
    ensures Received(history + [x], [], [x])
  {
    var n := |history| + 1;
    assert (history + [x])[n..] == [] && (history + [x])[n - 1..n] == [x];
  }

  /** The task the dispatcher holds. */
  function TaskInHand(d: Dispatcher): seq<Task> {
    if d.Assigning? || d.Awaiting? || d.Giving? || d.DrainAwaiting? || d.DrainGiving? then [d.task] else []
  }

  ghost predicate TasksInOrder(c: Config, s: State) {
    |s.queue| <= c.taskCap && Received(s.accepted, s.queue, TaskInHand(s.dispatcher))
  }

  ghost predicate OffersInOrder(c: Config, s: State) {
    |s.ready| <= c.idleWorkers && Received(s.offers, s.ready, Hand(s.dispatcher))
  }

  /** While it trims, the dispatcher has exactly the surplus left to dismiss. */
  predicate Surplus(c: Config, s: State) {
    var d := s.dispatcher;
    (d.Trimming? || d.Dismissing?) ==> d.left + c.idleWorkers == s.count
  }

  lemma CallKeepsOrder(c: Config, s: State, call: CallStep)
    requires TasksInOrder(c, s) && CallEnabled(c, s, call)
    ensures TasksInOrder(c, Called(s, call))
  {
    hide Received;
    if call.Send? {
      ReceivedSend(s.accepted, s.queue, TaskInHand(s.dispatcher), call.task);
    } else if call.Handoff? {
      ReceivedDirect(s.accepted, call.task);
    }
  }

  lemma PostFrame(c: Config, s: State)
    requires MoveEnabled(s, Post)
    ensures var s' := Moved(c, s, Post);
            && s'.accepted == s.accepted && s'.queue == s.queue && s'.offers == s.offers && s'.ready == s.ready
            && (s'.dispatcher == s.dispatcher || (TaskInHand(s'.dispatcher) == [] && Hand(s'.dispatcher) == []))
  {
    hide OrderOf;
  }

  /** Apart from taking one, a move keeps the dispatcher's task or lets it go. */
  lemma MoveFrameTasks(c: Config, s: State, move: Move)
    requires MoveEnabled(s, move) && !move.Take?
    ensures var s' := Moved(c, s, move);
            && s'.accepted == s.accepted && s'.queue == s.queue
            && (TaskInHand(s'.dispatcher) == TaskInHand(s.dispatcher) || TaskInHand(s'.dispatcher) == [])
  {
    if move.Post? {
      PostFrame(c, s);
    } else {
      hide Posted, Hand, CanPost;
      match move
      case Pop =>
      case Spawn =>
      case Tick =>
      case _ =>
    }
  }

  lemma MoveKeepsTasks(c: Config, s: State, move: Move)
    requires TasksInOrder(c, s) && MoveEnabled(s, move)
    ensures TasksInOrder(c, Moved(c, s, move))
  {
    hide Received;
    if move.Take? {
      TakeKeepsTasks(c, s);
    } else {
      ReceivedRelease(s.accepted, s.queue, TaskInHand(s.dispatcher));
      MoveFrameTasks(c, s, move);
      hide Moved, MoveEnabled, TaskInHand;
    }
  }

  lemma TakeKeepsTasks(c: Config, s: State)
    requires TasksInOrder(c, s) && MoveEnabled(s, Take)
    ensures TasksInOrder(c, Moved(c, s, Take))
  {
    hide Received;
    assert TaskInHand(s.dispatcher) == [];
    ReceivedTake(s.accepted, s.queue);
  }

  /** Apart from receiving one, a move keeps the worker in hand or lets it go. */
  lemma MoveFrameOffers(c: Config, s: State, move: Move)
    requires MoveEnabled(s, move) && !move.Pop?
    ensures var s' := Moved(c, s, move);
            && s'.offers == s.offers && s'.ready == s.ready
            && (Hand(s'.dispatcher) == Hand(s.dispatcher) || Hand(s'.dispatcher) == [])
  {
    if move.Post? {
      PostFrame(c, s);
    } else {
      hide Posted, CanPost;
      match move
      case Take =>
      case Spawn =>
      case Tick =>
      case _ =>
    }
  }

  lemma MoveKeepsOffers(c: Config, s: State, move: Move)
    requires OffersInOrder(c, s) && MoveEnabled(s, move)
    ensures OffersInOrder(c, Moved(c, s, move))
  {
    hide Received;
    if move.Pop? {
      PopKeepsOffers(c, s);
    } else {
      ReceivedRelease(s.offers, s.ready, Hand(s.dispatcher));
      MoveFrameOffers(c, s, move);
      hide Moved, MoveEnabled, Hand;
    }
  }

  lemma PopKeepsOffers(c: Config, s: State)
    requires OffersInOrder(c, s) && MoveEnabled(s, Pop)
    ensures OffersInOrder(c, Moved(c, s, Pop))
  {
    hide Received;
    assert Hand(s.dispatcher) == [];
    ReceivedTake(s.offers, s.ready);
  }

  lemma MoveKeepsSurplus(c: Config, s: State, move: Move)
    requires Inv(c, s) && Surplus(c, s) && MoveEnabled(s, move)
    ensures Surplus(c, Moved(c, s, move))
  {
    if move.Post? {
      HandIsEmpty(s);
    }
    hide ChannelsOk, CountsOk;
  }

  lemma DeedKeepsOrder(c: Config, s: State, w: Id, deed: Deed)
    requires TasksInOrder(c, s) && OffersInOrder(c, s) && Surplus(c, s) && DeedEnabled(c, s, w, deed)
    ensures var s' := Worked(c, s, w, deed);
            TasksInOrder(c, s') && OffersInOrder(c, s') && Surplus(c, s')
  {
    if deed.Offer? {
      ReceivedSend(s.offers, s.ready, Hand(s.dispatcher), w);
    }
    DeedFrameOrder(c, s, w, deed);
    hide Received, Worked;
  }

  lemma DeedFrameOrder(c: Config, s: State, w: Id, deed: Deed)
    requires DeedEnabled(c, s, w, deed)
    ensures var s' := Worked(c, s, w, deed);
            && s'.accepted == s.accepted && s'.queue == s.queue && s'.dispatcher == s.dispatcher && s'.count == s.count
            && if deed.Offer? && s.readyOpen then s'.offers == s.offers + [w] && s'.ready == s.ready + [w]
               else s'.offers == s.offers && s'.ready == s.ready
  {
    match deed
    case Offer =>
    case Receive =>
    case Complete =>
    case Leave =>
  }

  ghost predicate InOrder(c: Config, s: State) {
    TasksInOrder(c, s) && OffersInOrder(c, s) && Surplus(c, s)
  }

  lemma StepKeepsOrder(c: Config, s: State, step: Step)
    requires Inv(c, s) && InOrder(c, s) && Enabled(c, s, step)
    ensures InOrder(c, Apply(c, s, step))
  {
    match step
    case Call(call) => CallKeepsOrder(c, s, call); hide TasksInOrder, Inv;
    case Dispatch(move) =>
      MoveKeepsTasks(c, s, move);
      MoveKeepsOffers(c, s, move);
      MoveKeepsSurplus(c, s, move);
      hide TasksInOrder, OffersInOrder, Surplus, Moved, MoveEnabled;
    case Work(w, deed) =>
      DeedKeepsOrder(c, s, w, deed);
      hide TasksInOrder, OffersInOrder, Surplus, Worked, DeedEnabled;
  }

  lemma {:induction false} RunKeepsOrder(c: Config, s: State, steps: seq<Step>)
    requires 1 <= c.idleWorkers <= c.maxWorkers && Inv(c, s) && InOrder(c, s) && Runs(c, s, steps)
    ensures InOrder(c, After(c, s, steps))
    decreases |steps|
  {
    if steps != [] {
      StepKeepsInv(c, s, steps[0]);
      StepKeepsOrder(c, s, steps[0]);
      hide Inv, InOrder, Enabled, Apply;
      RunKeepsOrder(c, Apply(c, s, steps[0]), steps[1..]);
    }
  }

  lemma ReachableInOrder(c: Config, steps: seq<Step>)
    requires 1 <= c.idleWorkers <= c.maxWorkers && Runs(c, Initial, steps)
    ensures Good(c, After(c, Initial, steps)) && InOrder(c, After(c, Initial, steps))
  {
    InitialGood(c);
    InitialInOrder(c);
    hide Good, InOrder;
    RunKeepsGood(c, Initial, steps);
    RunKeepsOrder(c, Initial, steps);
  }

  lemma InitialInOrder(c: Config)
    ensures InOrder(c, Initial) && Inv(c, Initial)
  {
    var none: seq<nat> := [];
    assert none[0..] == none && none[0..0] == none;
  }

  /** Under every schedule the queue holds the most recently accepted tasks in the order of acceptance,
      within its capacity, and the dispatcher's task is the one accepted just before them; the same of the
      offered workers and the worker in its hand. */
  lemma FirstInFirstOut(c: Config, steps: seq<Step>)
    requires 1 <= c.idleWorkers <= c.maxWorkers && Runs(c, Initial, steps)
    ensures var s := After(c, Initial, steps);
            var n, m := |s.accepted| - |s.queue|, |s.offers| - |s.ready|;
            && |s.queue| <= c.taskCap && 0 <= n && s.accepted[n..] == s.queue
            && (TaskInHand(s.dispatcher) != [] ==> 0 < n && TaskInHand(s.dispatcher)[0] == s.accepted[n - 1])
            && |s.ready| <= c.idleWorkers && 0 <= m && s.offers[m..] == s.ready
            && (Hand(s.dispatcher) != [] ==> 0 < m && Hand(s.dispatcher)[0] == s.offers[m - 1])
  {
    ReachableInOrder(c, steps);
    var s := After(c, Initial, steps);
    var n, m := |s.accepted| - |s.queue|, |s.offers| - |s.ready|;
    if TaskInHand(s.dispatcher) != [] {
      assert s.accepted[n - 1..n][0] == s.accepted[n - 1];
    }
    if Hand(s.dispatcher) != [] {
      assert s.offers[m - 1..m][0] == s.offers[m - 1];
    }
  }

  lemma {:induction false} OccursTwice(q: seq<Task>, i: nat, j: nat)
    requires i < j < |q| && q[i] == q[j]
    ensures Occurs(q, q[i]) >= 2
  {
    var n := |q| - 1;
    if j < n {
      OccursTwice(q[..n], i, j);
    } else {
      OccursOnce(q[..n], i);
    }
  }

  lemma {:induction false} OccursOnce(q: seq<Task>, i: nat)
    requires i < |q|
    ensures Occurs(q, q[i]) >= 1
  {
    var n := |q| - 1;
    if i < n {
      OccursOnce(q[..n], i);
    }
  }

  /** So a task never waits in the queue when one accepted after it has left. */
  lemma EarlierLeavesFirst(c: Config, steps: seq<Step>, i: nat, j: nat)
    requires 1 <= c.idleWorkers <= c.maxWorkers && Runs(c, Initial, steps)
    requires i < j < |After(c, Initial, steps).accepted|
    ensures var s := After(c, Initial, steps);
            s.accepted[i] != s.accepted[j] && (s.accepted[i] in s.queue ==> s.accepted[j] in s.queue)
  {
    ReachableInOrder(c, steps);
    var s := After(c, Initial, steps);
    FirstInFirstOut(c, steps);
    AcceptedOnce(c, s, i, j);
    if s.accepted[i] in s.queue {
      var n := |s.accepted| - |s.queue|;
      var k :| 0 <= k < |s.queue| && s.queue[k] == s.accepted[i];
      assert s.accepted[n + k] == s.accepted[n..][k];
      if i < n {
        AcceptedOnce(c, s, i, n + k);
      }
      assert s.queue[j - n] == s.accepted[n..][j - n] == s.accepted[j];
    }
  }

  lemma AcceptedOnce(c: Config, s: State, i: nat, j: nat)
    requires Good(c, s) && i < j < |s.accepted|
    ensures s.accepted[i] != s.accepted[j]
  {
    assert LedgerAt(s, s.accepted[i]);
    if s.accepted[i] == s.accepted[j] {
      OccursTwice(s.accepted, i, j);
    }
  }

  /** The ticker trims all of the surplus that is on offer: a pass ends with the idle number of workers, or
      with none on offer. */
  lemma TrimsTheSurplus(c: Config, steps: seq<Step>)
    requires 1 <= c.idleWorkers <= c.maxWorkers && Runs(c, Initial, steps)
    requires MoveEnabled(After(c, Initial, steps), TrimStop)
    ensures var s := After(c, Initial, steps);
            s.count == c.idleWorkers || (s.count > c.idleWorkers && s.ready == [])
  {
    ReachableInOrder(c, steps);
  }

  /** And a pass can be made by the dispatcher alone: from a tick with a surplus it dismisses as many workers
      as are on offer, down to the idle number, and returns to its select. */
  lemma TrimPass(c: Config, s: State) returns (steps: seq<Step>)
    requires 1 <= c.idleWorkers <= c.maxWorkers && Inv(c, s) && Surplus(c, s) && !s.crashed
    requires s.dispatcher.Selecting? && s.count > c.idleWorkers
    ensures Runs(c, s, steps) && steps != [] && steps[0] == Dispatch(Tick)
    ensures forall i :: 0 <= i < |steps| ==> steps[i].Dispatch?
    ensures var e := After(c, s, steps);
            && e.dispatcher.Selecting?
            && e.count == if s.count - |s.ready| > c.idleWorkers then s.count - |s.ready| else c.idleWorkers
  {
    var tick := Dispatch(Tick);
    StepKeepsInv(c, s, tick);
    MoveKeepsSurplus(c, s, Tick);
    var s1 := Apply(c, s, tick);
    hide Inv;
    var rest := TrimRest(c, s1);
    steps := [tick] + rest;
    assert steps[1..] == rest;
  }

  lemma {:induction false} TrimRest(c: Config, s: State) returns (steps: seq<Step>)
    requires 1 <= c.idleWorkers <= c.maxWorkers && Inv(c, s) && Surplus(c, s) && !s.crashed
    requires s.dispatcher.Trimming?
    ensures Runs(c, s, steps) && forall i :: 0 <= i < |steps| ==> steps[i].Dispatch?
    ensures var e := After(c, s, steps);
            && e.dispatcher.Selecting?
            && e.count == if s.count - |s.ready| > c.idleWorkers then s.count - |s.ready| else c.idleWorkers
    decreases s.dispatcher.left
  {
    if s.dispatcher.left == 0 || s.ready == [] {
      var stop := Dispatch(TrimStop);
      steps := [stop];
      assert steps[1..] == [] && Runs(c, Apply(c, s, stop), []);
    } else {
      var s2 := DismissOne(c, s);
      hide Inv, Moved, MoveEnabled;
      var rest := TrimRest(c, s2);
      steps := [Dispatch(Pop), Dispatch(Post)] + rest;
      assert steps[1..] == [Dispatch(Post)] + rest && steps[1..][1..] == rest;
    }
  }

  lemma DismissOne(c: Config, s: State) returns (s2: State)
    requires 1 <= c.idleWorkers <= c.maxWorkers && Inv(c, s) && Surplus(c, s) && !s.crashed
    requires s.dispatcher.Trimming? && s.dispatcher.left > 0 && s.ready != []
    ensures Enabled(c, s, Dispatch(Pop))
    ensures var s1 := Apply(c, s, Dispatch(Pop)); Enabled(c, s1, Dispatch(Post)) && s2 == Apply(c, s1, Dispatch(Post))
    ensures Inv(c, s2) && Surplus(c, s2) && !s2.crashed && s2.dispatcher == Trimming(s.dispatcher.left - 1)
    ensures s2.count == s.count - 1 && s2.ready == s.ready[1..]
  {
    StepKeepsInv(c, s, Dispatch(Pop));
    MoveKeepsSurplus(c, s, Pop);
    var s1 := Apply(c, s, Dispatch(Pop));
    HandIsEmpty(s1);
    StepKeepsInv(c, s1, Dispatch(Post));
    MoveKeepsSurplus(c, s1, Post);
    s2 := Apply(c, s1, Dispatch(Post));
    hide Inv, Surplus;
  }

  /** A worker is started only for a task in hand, with none on offer and below the maximum. */
  lemma StartedOnlyWhenNeeded(c: Config, s: State, step: Step)
    requires Enabled(c, s, step) && |Apply(c, s, step).workers| != |s.workers|
    ensures |Apply(c, s, step).workers| == |s.workers| + 1
    ensures s.ready == [] && s.count < c.maxWorkers && TaskInHand(s.dispatcher) != []
  {
    match step
    case Call(call) =>
    case Dispatch(move) => OnlySpawnStarts(c, s, move); hide Moved;
    case Work(w, deed) => SameWorkers(c, s, w, deed); hide Worked;
  }

  lemma OnlySpawnStarts(c: Config, s: State, move: Move)
    requires MoveEnabled(s, move)
    ensures |Moved(c, s, move).workers| ==
            if move.Spawn? && s.count < c.maxWorkers then |s.workers| + 1 else |s.workers|
  {
    match move
    case Post =>
    case Spawn =>
    case _ =>
  }

  lemma SameWorkers(c: Config, s: State, w: Id, deed: Deed)
    requires DeedEnabled(c, s, w, deed)
    ensures |Worked(c, s, w, deed).workers| == |s.workers|
  {
    match deed
    case Offer =>
    case Receive =>
    case Complete =>
    case Leave =>
  }
}
