/** What holds in every state any schedule of the worker pool can reach. */
module WorkerPoolSafety {
  import opened WorkerPool

  // ----- counting over the workers -----

  /** Told to exit: nil is on its channel, or it has already seen it. */
  predicate Dismissed(k: Worker) {
    k.phase.Leaving? || k.phase.Gone? || k.inbox == [Exit]
  }

  function Live(ws: seq<Worker>): nat {
    if ws == [] then 0 else Live(ws[..|ws| - 1]) + (if Dismissed(ws[|ws| - 1]) then 0 else 1)
  }

  function Busy(k: Worker, t: Task): nat {
    if k.phase == Running(t) then 1 else 0
  }

  function Mail(k: Worker, t: Task): nat {
    if k.inbox == [Exec(t)] then 1 else 0
  }

  /** How many workers are running task t. */
  function Executing(ws: seq<Worker>, t: Task): nat {
    if ws == [] then 0 else Executing(ws[..|ws| - 1], t) + Busy(ws[|ws| - 1], t)
  }

  /** How many worker channels hold task t. */
  function Mailed(ws: seq<Worker>, t: Task): nat {
    if ws == [] then 0 else Mailed(ws[..|ws| - 1], t) + Mail(ws[|ws| - 1], t)
  }

  /** Changing one worker changes each total by what that worker contributes. */
  lemma {:induction false} Replace(ws: seq<Worker>, w: Id, k: Worker, t: Task)
    requires w < |ws|
    ensures Executing(ws[w := k], t) == Executing(ws, t) - Busy(ws[w], t) + Busy(k, t)
    ensures Mailed(ws[w := k], t) == Mailed(ws, t) - Mail(ws[w], t) + Mail(k, t)
  {
    hide Busy, Mail;
    var n := |ws| - 1;
    if w == n {
      assert ws[w := k][..n] == ws[..n];
    } else {
      Replace(ws[..n], w, k, t);
      assert ws[w := k][..n] == ws[..n][w := k];
    }
  }

  lemma {:induction false} ReplaceLive(ws: seq<Worker>, w: Id, k: Worker)
    requires w < |ws|
    ensures Live(ws[w := k]) == Live(ws) - (if Dismissed(ws[w]) then 0 else 1) + (if Dismissed(k) then 0 else 1)
  {
    hide Dismissed;
    var n := |ws| - 1;
    if w == n {
      assert ws[w := k][..n] == ws[..n];
    } else {
      ReplaceLive(ws[..n], w, k);
      assert ws[w := k][..n] == ws[..n][w := k];
    }
  }

  lemma Hire(ws: seq<Worker>, t: Task)
    ensures Live(ws + [Newborn]) == Live(ws) + 1
    ensures Executing(ws + [Newborn], t) == Executing(ws, t)
    ensures Mailed(ws + [Newborn], t) == Mailed(ws, t)
  {
    assert (ws + [Newborn])[..|ws|] == ws;
  }

  // ----- the invariant -----

  predicate Distinct<T(==)>(s: seq<T>) {
    forall i, j :: 0 <= i < j < |s| ==> s[i] != s[j]
  }

  /** A worker's channel is on offer, in the dispatcher's hand, or full - one of these while it
      waits, none otherwise. So it is offered at most once and empty when taken. */
  predicate WorkerOk(s: State, w: Id)
    requires w < |s.workers|
  {
    var k := s.workers[w];
    var listed := w in s.ready;
    var held := w in Hand(s.dispatcher);
    && (k.open <==> !k.phase.Gone?)
    && (if k.phase.Waiting? then
          && |k.inbox| <= 1
          && (listed ==> !held && k.inbox == [])
          && (held ==> k.inbox == [])
          && (!listed && !held ==> k.inbox != [])
        else !listed && !held && k.inbox == [])
  }

  predicate ChannelsOk(s: State) {
    && Distinct(s.ready)
    && (forall i :: 0 <= i < |s.ready| ==> s.ready[i] < |s.workers|)
    && (forall w :: w in Hand(s.dispatcher) ==> w < |s.workers|)
    && (forall w: Id :: w < |s.workers| ==> WorkerOk(s, w))
  }

  predicate Closing(d: Dispatcher) {
    d.ClosingReady? || d.ClosingQueue? || d.ClosingSignal? || d.Finished?
  }

  predicate CountsOk(c: Config, s: State) {
    s.count == Live(s.workers) && s.count <= c.maxWorkers && |s.ready| <= c.idleWorkers
  }

  /** What the dispatcher's position says about the counts and about which channels are closed. */
  predicate StageOk(c: Config, s: State) {
    var d := s.dispatcher;
    && (d.Trimming? ==> d.left == 0 || d.left + c.idleWorkers <= s.count)
    && (d.Dismissing? ==> 0 < d.left && d.left + c.idleWorkers <= s.count)
    && (d.Awaiting? ==> s.count > 0)
    && (Closing(d) ==> s.count == 0)
    && (s.readyOpen <==> !(d.ClosingQueue? || d.ClosingSignal? || d.Finished?))
    && (s.queueOpen <==> !(d.ClosingSignal? || d.Finished?))
    && (s.signalled <==> d.Finished?)
  }

  function Occurs(q: seq<Task>, t: Task): nat {
    if q == [] then 0 else Occurs(q[..|q| - 1], t) + (if q[|q| - 1] == t then 1 else 0)
  }

  lemma Append(q: seq<Task>, x: Task, t: Task)
    ensures Occurs(q + [x], t) == Occurs(q, t) + (if x == t then 1 else 0)
  {
    assert (q + [x])[..|q|] == q;
  }

  lemma {:induction false} Shift(q: seq<Task>, t: Task)
    requires q != []
    ensures Occurs(q, t) == Occurs(q[1..], t) + (if q[0] == t then 1 else 0)
  {
    var n := |q| - 1;
    if n > 0 {
      Shift(q[..n], t);
      assert q[1..][..n - 1] == q[..n][1..];
    }
  }

  /** In how many places task t is: queue, dispatcher's hand, a worker's channel, running, done. */
  function Places(s: State, t: Task): nat {
    Occurs(s.queue, t) + HandTask(s.dispatcher, t) + Mailed(s.workers, t) + Executing(s.workers, t) + Occurs(s.done, t)
  }

  /** Task t is in one place if it was accepted and in none otherwise; it was begun once if it is
      running or done; and it waits with its caller only before it is accepted. */
  predicate LedgerAt(s: State, t: Task) {
    && Occurs(s.accepted, t) == Places(s, t) <= 1
    && Occurs(s.started, t) == Executing(s.workers, t) + Occurs(s.done, t)
    && (t in s.adders ==> t < s.next && Occurs(s.accepted, t) == 0)
    && (t >= s.next ==> Occurs(s.accepted, t) == 0)
  }

  predicate Inv(c: Config, s: State) {
    ChannelsOk(s) && CountsOk(c, s) && StageOk(c, s)
  }

  // ----- channels: each step keeps every channel in order -----

  lemma ChannelOf(s: State, w: Id)
    requires ChannelsOk(s) && w < |s.workers|
    ensures WorkerOk(s, w)
  {
  }

  lemma SteadyKeepsChannels(s: State, s': State)
    requires ChannelsOk(s) && s'.ready == s.ready && s'.workers == s.workers
    requires Hand(s.dispatcher) == Hand(s'.dispatcher)
    ensures ChannelsOk(s')
  {
    forall w: Id | w < |s'.workers|
      ensures WorkerOk(s', w)
    {
      ChannelOf(s, w);
    }
  }

  lemma PopKeepsChannels(c: Config, s: State)
    requires ChannelsOk(s) && MoveEnabled(s, Pop)
    ensures ChannelsOk(Moved(c, s, Pop))
  {
    var s' := Moved(c, s, Pop);
    assert Hand(s.dispatcher) == [] && Hand(s'.dispatcher) == [s.ready[0]];
    forall w: Id | w < |s'.workers|
      ensures WorkerOk(s', w)
    {
      ChannelOf(s, w);
      assert s.ready == [s.ready[0]] + s.ready[1..];
    }
  }

  /** The worker in hand is waiting at an open, empty channel: the send neither blocks nor panics. */
  lemma HandIsEmpty(s: State)
    requires ChannelsOk(s) && Hand(s.dispatcher) != []
    ensures var w := Hand(s.dispatcher)[0];
            w < |s.workers| && s.workers[w] == Worker(Waiting, [], true)
    ensures MoveEnabled(s, Post)
  {
    var w := Hand(s.dispatcher)[0];
    assert w in Hand(s.dispatcher);
    ChannelOf(s, w);
  }

  lemma PostKeepsChannels(c: Config, s: State)
    requires ChannelsOk(s) && MoveEnabled(s, Post)
    ensures ChannelsOk(Moved(c, s, Post))
  {
    HandIsEmpty(s);
    var s' := Moved(c, s, Post);
    assert Hand(s'.dispatcher) == [];
    forall w: Id | w < |s'.workers|
      ensures WorkerOk(s', w)
    {
      ChannelOf(s, w);
    }
  }

  lemma SpawnKeepsChannels(c: Config, s: State)
    requires ChannelsOk(s) && MoveEnabled(s, Spawn)
    ensures ChannelsOk(Moved(c, s, Spawn))
  {
    var s' := Moved(c, s, Spawn);
    forall w: Id | w < |s'.workers|
      ensures WorkerOk(s', w)
    {
      if w < |s.workers| {
        ChannelOf(s, w);
      }
    }
  }

  lemma MoveKeepsChannels(c: Config, s: State, move: Move)
    requires ChannelsOk(s) && MoveEnabled(s, move)
    ensures ChannelsOk(Moved(c, s, move))
  {
    hide ChannelsOk;
    match move
    case Pop => PopKeepsChannels(c, s);
    case Post => PostKeepsChannels(c, s);
    case Spawn => SpawnKeepsChannels(c, s);
    case _ => SteadyKeepsChannels(s, Moved(c, s, move));
  }

  lemma OfferKeepsChannels(c: Config, s: State, w: Id)
    requires ChannelsOk(s) && DeedEnabled(c, s, w, Offer)
    ensures ChannelsOk(Worked(c, s, w, Offer))
  {
    ChannelOf(s, w);
    var s' := Worked(c, s, w, Offer);
    forall v: Id | v < |s'.workers|
      ensures WorkerOk(s', v)
    {
      ChannelOf(s, v);
      assert v in s.ready + [w] <==> v in s.ready || v == w;
    }
  }

  /** A worker that has a message, a task or its leave is alone with its channel. */
  lemma DeedKeepsChannels(c: Config, s: State, w: Id, deed: Deed)
    requires ChannelsOk(s) && DeedEnabled(c, s, w, deed) && !deed.Offer?
    ensures ChannelsOk(Worked(c, s, w, deed))
  {
    AloneAfterDeed(c, s, w, deed);
    hide Worked;
    var s' := Worked(c, s, w, deed);
    forall v: Id | v < |s'.workers|
      ensures WorkerOk(s', v)
    {
      ChannelOf(s, v);
    }
  }

  lemma DeedAlone(c: Config, s: State, w: Id, deed: Deed)
    requires DeedEnabled(c, s, w, deed) && !deed.Offer?
    ensures var s' := Worked(c, s, w, deed);
            && s'.ready == s.ready && s'.dispatcher == s.dispatcher
            && |s'.workers| == |s.workers| && s'.workers == s.workers[w := s'.workers[w]]
  {
    match deed
    case Receive =>
    case Complete =>
    case Leave =>
  }

  lemma AloneAfterDeed(c: Config, s: State, w: Id, deed: Deed)
    requires ChannelsOk(s) && DeedEnabled(c, s, w, deed) && !deed.Offer?
    ensures var s' := Worked(c, s, w, deed);
            && s'.ready == s.ready && s'.dispatcher == s.dispatcher
            && |s'.workers| == |s.workers| && s'.workers == s.workers[w := s'.workers[w]]
            && WorkerOk(s', w)
  {
    ChannelOf(s, w);
    DeedAlone(c, s, w, deed);
    hide ChannelsOk;
  }

  // ----- counts -----

  /** A worker not told to exit is counted, so a zero count leaves none. */
  lemma LiveIsLive(ws: seq<Worker>, w: Id)
    requires w < |ws| && !Dismissed(ws[w])
    ensures Live(ws) > 0
  {
    ReplaceLive(ws, w, Worker(Gone, [], false));
  }

  lemma PostKeepsCounts(c: Config, s: State)
    requires ChannelsOk(s) && CountsOk(c, s) && StageOk(c, s) && MoveEnabled(s, Post)
    ensures CountsOk(c, Moved(c, s, Post)) && StageOk(c, Moved(c, s, Post))
    ensures Moved(c, s, Post).crashed == s.crashed
  {
    HandIsEmpty(s);
    hide ChannelsOk, Live;
    var w := Hand(s.dispatcher)[0];
    var k := Worker(Waiting, [OrderOf(s.dispatcher)], true);
    assert [] + [OrderOf(s.dispatcher)] == [OrderOf(s.dispatcher)];
    assert Moved(c, s, Post).workers == s.workers[w := k];
    ReplaceLive(s.workers, w, k);
  }

  lemma MoveKeepsCounts(c: Config, s: State, move: Move)
    requires CountsOk(c, s) && MoveEnabled(s, move) && !move.Post?
    ensures CountsOk(c, Moved(c, s, move))
    ensures Moved(c, s, move).crashed == s.crashed
  {
    hide Live;
    if !move.Take? {
      QuietMove(c, s, move, 0);
    }
    Hire(s.workers, 0);
  }

  lemma MoveKeepsStage(c: Config, s: State, move: Move)
    requires 1 <= c.idleWorkers <= c.maxWorkers && 0 <= s.count
    requires StageOk(c, s) && MoveEnabled(s, move) && !move.Post?
    ensures StageOk(c, Moved(c, s, move))
  {
    hide CountsOk;
    match move
    case Pop =>
    case Close =>
    case Tick =>
    case _ =>
  }

  lemma DeedKeepsCounts(c: Config, s: State, w: Id, deed: Deed)
    requires ChannelsOk(s) && CountsOk(c, s) && StageOk(c, s) && DeedEnabled(c, s, w, deed)
    ensures CountsOk(c, Worked(c, s, w, deed)) && StageOk(c, Worked(c, s, w, deed))
    ensures Worked(c, s, w, deed).crashed == s.crashed
  {
    hide ChannelsOk, Live;
    ChannelOf(s, w);
    var s' := Worked(c, s, w, deed);
    ReplaceLive(s.workers, w, s'.workers[w]);
    if deed.Offer? {
      LiveIsLive(s.workers, w);
    }
  }

  // ----- the ledger, one task at a time -----

  lemma CallKeepsLedger(c: Config, s: State, call: CallStep, t: Task)
    requires LedgerAt(s, t) && CallEnabled(c, s, call) && StageOk(c, s)
    requires call.Send? || call.Handoff? ==> LedgerAt(s, call.task)
    ensures LedgerAt(Called(s, call), t)
  {
    hide Occurs, Mailed, Executing;
    if call.Send? || call.Handoff? {
      Append(s.queue, call.task, t);
      Append(s.accepted, call.task, t);
    }
  }

  lemma PostKeepsLedger(c: Config, s: State, t: Task)
    requires ChannelsOk(s) && LedgerAt(s, t) && MoveEnabled(s, Post)
    ensures LedgerAt(Moved(c, s, Post), t)
  {
    HandIsEmpty(s);
    hide ChannelsOk, Executing, Mailed, Occurs;
    var w := Hand(s.dispatcher)[0];
    var k := Worker(Waiting, [OrderOf(s.dispatcher)], true);
    assert [] + [OrderOf(s.dispatcher)] == [OrderOf(s.dispatcher)];
    assert Moved(c, s, Post).workers == s.workers[w := k];
    Replace(s.workers, w, k, t);
  }

  lemma TakeKeepsLedger(c: Config, s: State, t: Task)
    requires LedgerAt(s, t) && MoveEnabled(s, Take)
    ensures LedgerAt(Moved(c, s, Take), t)
  {
    hide Executing, Mailed, Occurs;
    Shift(s.queue, t);
  }

  /** The moves that neither take nor post leave every task where it is. */
  lemma QuietMove(c: Config, s: State, move: Move, t: Task)
    requires MoveEnabled(s, move) && !move.Post? && !move.Take?
    ensures var s' := Moved(c, s, move);
            && s'.queue == s.queue && s'.done == s.done && s'.accepted == s.accepted && s'.started == s.started
            && s'.adders == s.adders && s'.next == s.next && s'.crashed == s.crashed
            && s'.workers == (if move.Spawn? && s.count < c.maxWorkers then s.workers + [Newborn] else s.workers)
            && HandTask(s'.dispatcher, t) == HandTask(s.dispatcher, t)
  {
    match move
    case Pop =>
    case Spawn =>
    case Tick =>
    case Close =>
    case _ =>
  }

  lemma MoveKeepsLedger(c: Config, s: State, move: Move, t: Task)
    requires LedgerAt(s, t) && MoveEnabled(s, move) && !move.Post? && !move.Take?
    ensures LedgerAt(Moved(c, s, move), t)
  {
    hide Executing, Mailed, Occurs, Moved, HandTask;
    QuietMove(c, s, move, t);
    Hire(s.workers, t);
  }

  lemma DeedKeepsLedger(c: Config, s: State, w: Id, deed: Deed, t: Task)
    requires ChannelsOk(s) && LedgerAt(s, t) && DeedEnabled(c, s, w, deed)
    ensures LedgerAt(Worked(c, s, w, deed), t)
  {
    hide ChannelsOk, Executing, Mailed, Occurs;
    ChannelOf(s, w);
    var s' := Worked(c, s, w, deed);
    Replace(s.workers, w, s'.workers[w], t);
    if deed.Receive? && s.workers[w].inbox[0].Exec? {
      Append(s.started, s.workers[w].inbox[0].task, t);
    } else if deed.Complete? {
      Append(s.done, s.workers[w].phase.task, t);
    }
  }

  // ----- every reachable state -----

  ghost predicate Good(c: Config, s: State) {
    Inv(c, s) && forall t: Task :: LedgerAt(s, t)
  }

  lemma StepKeepsInv(c: Config, s: State, step: Step)
    requires 1 <= c.idleWorkers <= c.maxWorkers
    requires Inv(c, s) && Enabled(c, s, step)
    ensures Inv(c, Apply(c, s, step))
    ensures Apply(c, s, step).crashed ==> step.Call? && step.call.Send? && !s.queueOpen
  {
    hide ChannelsOk, Live;
    match step
    case Call(call) =>
      SteadyKeepsChannels(s, Called(s, call));
    case Dispatch(move) =>
      MoveKeepsChannels(c, s, move);
      if move.Post? {
        PostKeepsCounts(c, s);
      } else {
        MoveKeepsCounts(c, s, move);
        MoveKeepsStage(c, s, move);
      }
    case Work(w, deed) =>
      if deed.Offer? {
        OfferKeepsChannels(c, s, w);
      } else {
        DeedKeepsChannels(c, s, w, deed);
      }
      DeedKeepsCounts(c, s, w, deed);
  }

  lemma StepKeepsLedger(c: Config, s: State, step: Step, t: Task)
    requires Good(c, s) && Enabled(c, s, step)
    ensures LedgerAt(Apply(c, s, step), t)
  {
    hide ChannelsOk, LedgerAt, CountsOk, StageOk;
    match step
    case Call(call) => CallKeepsLedger(c, s, call, t);
    case Dispatch(move) =>
      if move.Post? {
        PostKeepsLedger(c, s, t);
      } else if move.Take? {
        TakeKeepsLedger(c, s, t);
      } else {
        MoveKeepsLedger(c, s, move, t);
      }
    case Work(w, deed) => DeedKeepsLedger(c, s, w, deed, t);
  }

  lemma {:induction false} RunKeepsGood(c: Config, s: State, steps: seq<Step>)
    requires 1 <= c.idleWorkers <= c.maxWorkers
    requires Good(c, s) && Runs(c, s, steps)
    ensures Good(c, After(c, s, steps))
    decreases |steps|
  {
    if steps != [] {
      StepKeepsInv(c, s, steps[0]);
      forall t: Task
        ensures LedgerAt(Apply(c, s, steps[0]), t)
      {
        StepKeepsLedger(c, s, steps[0], t);
      }
      RunKeepsGood(c, Apply(c, s, steps[0]), steps[1..]);
    }
  }

  lemma InitialGood(c: Config)
    ensures Good(c, Initial)
  {
  }

  // ----- what the invariant means to a user of the pool -----

  /** Conservation: under every schedule an accepted task is in exactly one place, any other task is
      in none, and no task is begun twice. */
  lemma EveryTaskInOnePlace(c: Config, steps: seq<Step>, t: Task)
    requires 1 <= c.idleWorkers <= c.maxWorkers && Runs(c, Initial, steps)
    ensures var s := After(c, Initial, steps);
            && Places(s, t) == (if Occurs(s.accepted, t) > 0 then 1 else 0)
            && Occurs(s.started, t) == Executing(s.workers, t) + Occurs(s.done, t) <= 1
  {
    InitialGood(c);
    RunKeepsGood(c, Initial, steps);
    var s := After(c, Initial, steps);
    assert LedgerAt(s, t);
  }

  /** The dispatcher never blocks on, and never panics at, the channel of a worker it has popped;
      workerCount counts the workers not told to exit and respects its bound; no channel is offered
      twice; and trimming stops at the idle number. */
  lemma ChannelSafety(c: Config, steps: seq<Step>)
    requires 1 <= c.idleWorkers <= c.maxWorkers && Runs(c, Initial, steps)
    ensures var s := After(c, Initial, steps);
            && Distinct(s.ready)
            && (forall i :: 0 <= i < |s.ready| ==>
                  s.ready[i] < |s.workers| && s.workers[s.ready[i]] == Worker(Waiting, [], true))
            && (Hand(s.dispatcher) != [] ==> MoveEnabled(s, Post) && Moved(c, s, Post).crashed == s.crashed)
            && s.count == Live(s.workers) <= c.maxWorkers
            && (s.dispatcher.Dismissing? && MoveEnabled(s, Post) ==> Moved(c, s, Post).count >= c.idleWorkers)
  {
    InitialGood(c);
    RunKeepsGood(c, Initial, steps);
    var s := After(c, Initial, steps);
    forall i | 0 <= i < |s.ready|
      ensures s.ready[i] < |s.workers| && s.workers[s.ready[i]] == Worker(Waiting, [], true)
    {
      assert s.ready[i] in s.ready;
      ChannelOf(s, s.ready[i]);
    }
    if Hand(s.dispatcher) != [] {
      HandIsEmpty(s);
      PostKeepsCounts(c, s);
    }
  }

  lemma CrashIsLast(c: Config, s: State, steps: seq<Step>)
    requires s.crashed && Runs(c, s, steps)
    ensures steps == []
  {
  }

  /** The only send on a closed channel is that of a caller that passed AddTask's check before the
      pool was cancelled and reached the queue after it was closed. */
  lemma {:induction false} OnlyLateCallersCrash(c: Config, s: State, steps: seq<Step>)
    requires 1 <= c.idleWorkers <= c.maxWorkers && Inv(c, s) && !s.crashed && Runs(c, s, steps)
    requires After(c, s, steps).crashed
    ensures var n := |steps| - 1;
            && n >= 0 && steps[n].Call? && steps[n].call.Send?
            && Runs(c, s, steps[..n])
            && steps[n].call.task in After(c, s, steps[..n]).adders
            && !After(c, s, steps[..n]).queueOpen
    decreases |steps|
  {
    var s' := Apply(c, s, steps[0]);
    StepKeepsInv(c, s, steps[0]);
    hide Inv, Apply;
    if s'.crashed {
      CrashIsLast(c, s', steps[1..]);
      assert steps[..0] == [];
    } else {
      OnlyLateCallersCrash(c, s', steps[1..]);
      var n := |steps| - 1;
      assert steps[..n][1..] == steps[1..][..n - 1] && steps[1..][n - 1] == steps[n];
    }
  }

  lemma {:induction false} NoneLive(s: State, n: nat, t: Task)
    requires ChannelsOk(s) && n <= |s.workers| && Live(s.workers[..n]) == 0
    ensures forall w: Id :: w < n ==> Dismissed(s.workers[w])
    ensures Executing(s.workers[..n], t) == 0 && Mailed(s.workers[..n], t) == 0
  {
    if n > 0 {
      assert s.workers[..n][..n - 1] == s.workers[..n - 1];
      NoneLive(s, n - 1, t);
      ChannelOf(s, n - 1);
    }
  }

  /** Once closedSignal is closed every worker has its exit order, every task that was begun has
      finished, and an accepted task that is not done is still in the queue. */
  lemma ClosedMeansFinished(c: Config, steps: seq<Step>, t: Task)
    requires 1 <= c.idleWorkers <= c.maxWorkers && Runs(c, Initial, steps)
    requires After(c, Initial, steps).signalled
    ensures var s := After(c, Initial, steps);
            && (forall w: Id :: w < |s.workers| ==> Dismissed(s.workers[w]))
            && Occurs(s.started, t) == Occurs(s.done, t)
            && Occurs(s.accepted, t) == Occurs(s.queue, t) + Occurs(s.done, t)
  {
    InitialGood(c);
    RunKeepsGood(c, Initial, steps);
    var s := After(c, Initial, steps);
    assert LedgerAt(s, t);
    assert s.workers[..|s.workers|] == s.workers;
    NoneLive(s, |s.workers|, t);
  }
}
