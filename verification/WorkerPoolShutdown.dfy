/** Whether the pool can still close closedSignal, which is what StopWait waits for, whether it always
    does, and whether a caller can still panic. */
module WorkerPoolShutdown {
  import opened WorkerPool
  import opened WorkerPoolSafety

  /** The drain loop wants a worker and there is none left, nor any way to get one. */
  predicate Stranded(s: State) {
    s.count == 0 && (s.dispatcher.DrainAwaiting? || (s.dispatcher.Draining? && s.queue != []))
  }

  ghost predicate CanClose(c: Config, s: State) {
    exists steps :: Runs(c, s, steps) && After(c, s, steps).signalled
  }

  ghost predicate CanCrash(c: Config, s: State) {
    exists steps :: Runs(c, s, steps) && After(c, s, steps).crashed
  }

  /** The dispatcher has left its select for good. */
  predicate Winding(d: Dispatcher) {
    d.Draining? || d.DrainAwaiting? || d.DrainGiving? || d.Retiring? || d.RetireGiving? || Closing(d)
  }

  // ----- composing schedules -----

  lemma {:induction false} Compose(c: Config, s: State, a: seq<Step>, b: seq<Step>)
    requires Runs(c, s, a) && Runs(c, After(c, s, a), b)
    ensures Runs(c, s, a + b) && After(c, s, a + b) == After(c, After(c, s, a), b)
    decreases |a|
  {
    if a == [] {
      assert a + b == b;
    } else {
      Compose(c, Apply(c, s, a[0]), a[1..], b);
      assert (a + b)[0] == a[0] && (a + b)[1..] == a[1..] + b;
    }
  }

  lemma Single(c: Config, s: State, step: Step)
    requires Enabled(c, s, step)
    ensures Runs(c, s, [step]) && After(c, s, [step]) == Apply(c, s, step)
  {
    assert [step][1..] == [];
    assert Runs(c, Apply(c, s, step), []);
  }

  // ----- a live worker can always come to offer itself -----

  /** What the steps of workers alone leave as it was. */
  predicate Undisturbed(s: State, s': State) {
    && s'.dispatcher == s.dispatcher && s'.queue == s.queue && s'.count == s.count
    && s'.cancelled == s.cancelled && s'.crashed == s.crashed && s'.adders == s.adders
  }

  lemma {:induction false} FindLive(ws: seq<Worker>) returns (w: Id)
    requires Live(ws) > 0
    ensures w < |ws| && !Dismissed(ws[w])
  {
    var n := |ws| - 1;
    if Dismissed(ws[n]) {
      w := FindLive(ws[..n]);
    } else {
      w := n;
    }
  }

  function Distance(p: Phase): nat {
    match p
    case Waiting => 2
    case Running(_) => 1
    case _ => 0
  }

  /** With no channel on offer and none in hand, any live worker gets to readyWorkers by itself. */
  lemma {:induction false} LetOffer(c: Config, s: State, w: Id) returns (steps: seq<Step>)
    requires 1 <= c.idleWorkers <= c.maxWorkers && Inv(c, s) && !s.crashed
    requires s.ready == [] && Hand(s.dispatcher) == []
    requires w < |s.workers| && !Dismissed(s.workers[w])
    ensures Runs(c, s, steps)
    ensures var s' := After(c, s, steps);
            Inv(c, s') && Undisturbed(s, s') && s'.ready != []
    decreases Distance(s.workers[w].phase)
  {
    ChannelOf(s, w);
    LiveIsLive(s.workers, w);
    var k := s.workers[w];
    var deed := match k.phase case Offering => Offer case Waiting => Receive case _ => Complete;
    var step := Work(w, deed);
    assert Enabled(c, s, step);
    var s1 := Apply(c, s, step);
    StepKeepsInv(c, s, step);
    Single(c, s, step);
    if deed.Offer? {
      steps := [step];
    } else {
      OneDeed(c, s, w, deed);
      var more := LetOffer(c, s1, w);
      steps := [step] + more;
      Compose(c, s, [step], more);
    }
  }

  lemma OneDeed(c: Config, s: State, w: Id, deed: Deed)
    requires Inv(c, s) && DeedEnabled(c, s, w, deed) && !Dismissed(s.workers[w])
    requires deed.Receive? || deed.Complete?
    ensures var s' := Worked(c, s, w, deed);
            && Undisturbed(s, s') && s'.ready == s.ready && |s'.workers| == |s.workers|
            && !Dismissed(s'.workers[w])
            && Distance(s'.workers[w].phase) < Distance(s.workers[w].phase)
  {
    ChannelOf(s, w);
  }

  // ----- a measure of what is left to do before the pool is closed -----

  function Remaining(c: Config, s: State): int {
    var b := 5 + 2 * c.maxWorkers;
    var q := |s.queue|;
    match s.dispatcher
    case Finished => 0
    case ClosingSignal => 1
    case ClosingQueue => 2
    case ClosingReady => 3
    case Retiring => 4 + 2 * s.count
    case RetireGiving(_) => 3 + 2 * s.count
    case Draining => b + 3 * q
    case DrainGiving(_, _) => b + 3 * q + 1
    case DrainAwaiting(_) => b + 3 * q + 2
    case Selecting => b + 5 * q + 1
    case Giving(_, _) => b + 5 * q + 2
    case Awaiting(_) => b + 5 * q + 3
    case Assigning(_) => b + 5 * q + 4
    case Trimming(left) => b + 5 * q + 2 + 2 * left
    case Dismissing(left, _) => b + 5 * q + 1 + 2 * left
  }

  /** The move that brings the dispatcher closer to closing, once a worker is on offer if it wants one. */
  function NextMove(c: Config, s: State): Move {
    match s.dispatcher
    case Selecting => if s.count == 0 && s.queue != [] then Take else SeeCancel
    case Assigning(_) => if s.ready == [] then Spawn else Pop
    case Trimming(left) => if left == 0 || s.ready == [] then TrimStop else Pop
    case Draining => if s.queue == [] then DrainDone else Take
    case Retiring => if s.count <= 0 then RetireDone else Pop
    case Awaiting(_) => Pop
    case DrainAwaiting(_) => Pop
    case ClosingReady => Close
    case ClosingQueue => Close
    case ClosingSignal => Close
    case _ => Post
  }

  /** The dispatcher must receive a worker's channel before anything else. */
  predicate NeedsWorker(s: State) {
    s.dispatcher.Awaiting? || s.dispatcher.DrainAwaiting? || (s.dispatcher.Retiring? && s.count > 0)
  }

  predicate Ready(c: Config, s: State) {
    Inv(c, s) && !s.crashed && s.cancelled && !Stranded(s)
  }

  lemma MoveProgresses(c: Config, s: State)
    requires 1 <= c.idleWorkers <= c.maxWorkers && Ready(c, s) && !s.dispatcher.Finished?
    requires NeedsWorker(s) ==> s.ready != []
    ensures MoveEnabled(s, NextMove(c, s))
    ensures var s' := Moved(c, s, NextMove(c, s));
            Ready(c, s') && 0 <= Remaining(c, s') < Remaining(c, s) && s'.adders == s.adders
  {
    if Hand(s.dispatcher) != [] {
      HandIsEmpty(s);
      LiveIsLive(s.workers, Hand(s.dispatcher)[0]);
    }
    assert 0 <= s.count <= c.maxWorkers;
    StepKeepsInv(c, s, Dispatch(NextMove(c, s)));
    NextMoveShrinks(c, s);
  }

  lemma NextMoveShrinks(c: Config, s: State)
    requires 1 <= c.idleWorkers && 0 <= s.count <= c.maxWorkers && StageOk(c, s)
    requires MoveEnabled(s, NextMove(c, s)) && !s.crashed && s.cancelled && !Stranded(s)
    requires Hand(s.dispatcher) != [] ==>
               var w := Hand(s.dispatcher)[0]; s.count > 0 && w < |s.workers| && s.workers[w].open
    ensures var s' := Moved(c, s, NextMove(c, s));
            && 0 <= Remaining(c, s') < Remaining(c, s)
            && s'.cancelled && !Stranded(s') && s'.adders == s.adders
  {
    hide CountsOk;
    match s.dispatcher
    case _ =>
  }

  /** From every such state some schedule closes the pool, with the callers standing still. */
  lemma {:induction false} ClosingRun(c: Config, s: State) returns (steps: seq<Step>)
    requires 1 <= c.idleWorkers <= c.maxWorkers && Ready(c, s) && 0 <= Remaining(c, s)
    ensures Runs(c, s, steps)
    ensures var e := After(c, s, steps);
            e.signalled && !e.queueOpen && !e.crashed && e.adders == s.adders
    decreases Remaining(c, s)
  {
    if s.dispatcher.Finished? {
      return [];
    }
    var wait: seq<Step> := [];
    var s1 := s;
    if NeedsWorker(s) && s.ready == [] {
      var w := FindLive(s.workers);
      wait := LetOffer(c, s, w);
      s1 := After(c, s, wait);
    }
    MoveProgresses(c, s1);
    var step := Dispatch(NextMove(c, s1));
    Single(c, s1, step);
    Compose(c, s, wait, [step]);
    var rest := ClosingRun(c, Apply(c, s1, step));
    Compose(c, s, wait + [step], rest);
    steps := wait + [step] + rest;
  }

  // ----- stranded for good -----

  lemma StrandedStays(c: Config, s: State, step: Step)
    requires 1 <= c.idleWorkers <= c.maxWorkers && Inv(c, s) && Stranded(s) && Enabled(c, s, step)
    ensures Stranded(Apply(c, s, step)) && !Apply(c, s, step).signalled
  {
    StepKeepsInv(c, s, step);
    if s.ready != [] {
      assert s.ready[0] in s.ready;
      ChannelOf(s, s.ready[0]);
      LiveIsLive(s.workers, s.ready[0]);
    }
  }

  lemma {:induction false} StrandedForever(c: Config, s: State, steps: seq<Step>)
    requires 1 <= c.idleWorkers <= c.maxWorkers && Inv(c, s) && Stranded(s) && Runs(c, s, steps)
    ensures !After(c, s, steps).signalled && Stranded(After(c, s, steps)) && Inv(c, After(c, s, steps))
    decreases |steps|
  {
    if steps != [] {
      StrandedStays(c, s, steps[0]);
      StepKeepsInv(c, s, steps[0]);
      StrandedForever(c, Apply(c, s, steps[0]), steps[1..]);
    }
  }

  /** Exactly when the pool can still close: unless it is draining a task with no worker. */
  lemma CanCloseIff(c: Config, steps: seq<Step>)
    requires 1 <= c.idleWorkers <= c.maxWorkers && Runs(c, Initial, steps)
    requires !After(c, Initial, steps).crashed
    ensures var s := After(c, Initial, steps);
            CanClose(c, s) <==> !Stranded(s)
  {
    InitialGood(c);
    RunKeepsGood(c, Initial, steps);
    var s := After(c, Initial, steps);
    if Stranded(s) {
      forall more | Runs(c, s, more)
        ensures !After(c, s, more).signalled
      {
        StrandedForever(c, s, more);
      }
    } else {
      var more := StopAndClose(c, s, s.cancelled);
    }
  }

  /** Stops the pool if that has not happened, on request with one more AddTask past its check before,
      and closes it. */
  lemma StopAndClose(c: Config, s: State, alone: bool) returns (steps: seq<Step>)
    requires 1 <= c.idleWorkers <= c.maxWorkers && Inv(c, s) && !s.crashed && !Stranded(s)
    requires s.cancelled ==> alone
    ensures Runs(c, s, steps)
    ensures var e := After(c, s, steps);
            && e.signalled && !e.queueOpen && !e.crashed
            && e.adders == if alone then s.adders else s.adders + {s.next}
    decreases !alone, !s.cancelled
  {
    if !alone {
      StepKeepsInv(c, s, Call(Enter));
      Single(c, s, Call(Enter));
      var more := StopAndClose(c, Apply(c, s, Call(Enter)), true);
      Compose(c, s, [Call(Enter)], more);
      steps := [Call(Enter)] + more;
    } else if !s.cancelled {
      StepKeepsInv(c, s, Call(Cancel));
      Single(c, s, Call(Cancel));
      var more := StopAndClose(c, Apply(c, s, Call(Cancel)), true);
      Compose(c, s, [Call(Cancel)], more);
      steps := [Call(Cancel)] + more;
    } else {
      assert 0 <= Remaining(c, s);
      steps := ClosingRun(c, s);
    }
  }

  // ----- the panic on the closed queue -----

  lemma {:induction false} NobodyNew(c: Config, s: State, steps: seq<Step>)
    requires s.cancelled && s.adders == {} && Runs(c, s, steps)
    ensures After(c, s, steps).adders == {} && After(c, s, steps).cancelled
    decreases |steps|
  {
    if steps != [] {
      NobodyNew(c, Apply(c, s, steps[0]), steps[1..]);
    }
  }

  /** Exactly when some schedule still makes a caller send on the closed queue: as long as the pool is
      not stopped, and after that as long as a caller is past its check and the pool can close. */
  lemma CanCrashIff(c: Config, steps: seq<Step>)
    requires 1 <= c.idleWorkers <= c.maxWorkers && Runs(c, Initial, steps)
    requires !After(c, Initial, steps).crashed
    ensures var s := After(c, Initial, steps);
            CanCrash(c, s) <==> !s.cancelled || (s.adders != {} && !Stranded(s))
  {
    ReachableSound(c, steps);
    var s := After(c, Initial, steps);
    if !s.cancelled || (s.adders != {} && !Stranded(s)) {
      var more := CrashingRun(c, s);
    } else {
      forall more | Runs(c, s, more)
        ensures !After(c, s, more).crashed
      {
        NoCrash(c, s, more);
      }
    }
  }

  lemma CrashingRun(c: Config, s: State) returns (steps: seq<Step>)
    requires 1 <= c.idleWorkers <= c.maxWorkers && Inv(c, s) && !s.crashed
    requires !Stranded(s) && (s.cancelled ==> s.adders != {})
    ensures Runs(c, s, steps) && After(c, s, steps).crashed
  {
    var more := StopAndClose(c, s, s.cancelled);
    var e := After(c, s, more);
    assert e.adders != {} by {
      assert !s.cancelled ==> s.next in e.adders;
    }
    var t :| t in e.adders;
    hide Inv, Stranded;
    Single(c, e, Call(Send(t)));
    Compose(c, s, more, [Call(Send(t))]);
    steps := more + [Call(Send(t))];
  }

  lemma NoCrash(c: Config, s: State, steps: seq<Step>)
    requires 1 <= c.idleWorkers <= c.maxWorkers && Inv(c, s) && !s.crashed && Runs(c, s, steps)
    requires s.cancelled && (s.adders == {} || Stranded(s))
    ensures !After(c, s, steps).crashed
  {
    if After(c, s, steps).crashed {
      OnlyLateCallersCrash(c, s, steps);
      var before := steps[..|steps| - 1];
      if Stranded(s) {
        StrandedForever(c, s, before);
      } else {
        NobodyNew(c, s, before);
      }
    }
  }

  lemma Then(c: Config, s: State, step: Step, s': State, rest: seq<Step>, steps: seq<Step>)
    requires Enabled(c, s, step) && Apply(c, s, step) == s' && Runs(c, s', rest) && steps == [step] + rest
    ensures Runs(c, s, steps) && After(c, s, steps) == After(c, s', rest)
  {
    assert steps[1..] == rest;
  }

  /** The shortest way there, for every configuration: a call passes its check, the pool is stopped and
      closes, and the call sends. */
  lemma LateCallerExample(c: Config)
    ensures var steps := [Call(Enter), Call(Cancel), Dispatch(SeeCancel), Dispatch(DrainDone), Dispatch(RetireDone),
                          Dispatch(Move.Close), Dispatch(Move.Close), Call(Send(0))];
            Runs(c, Initial, steps) && After(c, Initial, steps).crashed
  {
    var steps := [Call(Enter), Call(Cancel), Dispatch(SeeCancel), Dispatch(DrainDone), Dispatch(RetireDone),
                  Dispatch(Move.Close), Dispatch(Move.Close), Call(Send(0))];
    var s1 := Initial.(adders := {0}, next := 1);
    var s2 := s1.(cancelled := true);
    var s3 := s2.(dispatcher := Draining);
    var s4 := s2.(dispatcher := Retiring);
    LateCallerEnd(c, s4);
    assert steps[4..] == [Dispatch(RetireDone), Dispatch(Move.Close), Dispatch(Move.Close), Call(Send(0))];
    Then(c, s3, steps[3], s4, steps[4..], steps[3..]);
    Then(c, s2, steps[2], s3, steps[3..], steps[2..]);
    Then(c, s1, steps[1], s2, steps[2..], steps[1..]);
    Then(c, Initial, steps[0], s1, steps[1..], steps);
  }

  lemma LateCallerEnd(c: Config, s: State)
    requires !s.crashed && s.dispatcher.Retiring? && s.count == 0 && 0 in s.adders
    ensures var steps := [Dispatch(RetireDone), Dispatch(Move.Close), Dispatch(Move.Close), Call(Send(0))];
            Runs(c, s, steps) && After(c, s, steps).crashed
  {
    var steps := [Dispatch(RetireDone), Dispatch(Move.Close), Dispatch(Move.Close), Call(Send(0))];
    var s1 := s.(dispatcher := ClosingReady);
    var s2 := s.(dispatcher := ClosingQueue, readyOpen := false);
    var s3 := s2.(dispatcher := ClosingSignal, queueOpen := false);
    Then(c, s3, steps[3], s3.(crashed := true), [], steps[3..]);
    Then(c, s2, steps[2], s3, steps[3..], steps[2..]);
    Then(c, s1, steps[1], s2, steps[2..], steps[1..]);
    Then(c, s, steps[0], s1, steps[1..], steps);
  }

  // ----- every schedule winds the pool down -----

  /** Steps a worker can still make without hearing from the dispatcher again. */
  function Toil(k: Worker): nat {
    match k.phase
    case Offering => 1
    case Waiting => if k.inbox == [] then 0 else if k.inbox[0].Exec? then 3 else 2
    case Running(_) => 2
    case Leaving => 1
    case Gone => 0
  }

  function TotalToil(ws: seq<Worker>): nat {
    if ws == [] then 0 else TotalToil(ws[..|ws| - 1]) + Toil(ws[|ws| - 1])
  }

  lemma {:induction false} ReplaceToil(ws: seq<Worker>, w: Id, k: Worker)
    requires w < |ws|
    ensures TotalToil(ws[w := k]) == TotalToil(ws) - Toil(ws[w]) + Toil(k)
  {
    hide Toil;
    var n := |ws| - 1;
    if w == n {
      assert ws[w := k][..n] == ws[..n];
    } else {
      ReplaceToil(ws[..n], w, k);
      assert ws[w := k][..n] == ws[..n][w := k];
    }
  }

  /** What the dispatcher still has to do apart from the queue, every worker to be dismissed included. */
  function Errand(d: Dispatcher, count: int): int {
    match d
    case Finished => 0
    case ClosingSignal => 1
    case ClosingQueue => 2
    case ClosingReady => 3
    case Retiring => 4 + 5 * count
    case RetireGiving(_) => 3 + 5 * count
    case DrainAwaiting(_) => 11 + 5 * count
    case DrainGiving(_, _) => 10 + 5 * count
    case _ => 5 + 5 * count
  }

  /** A bound on the steps left: callers past the check, queued tasks, the dispatcher and the workers. */
  function Effort(s: State): int {
    8 * |s.adders| + 7 * |s.queue| + Errand(s.dispatcher, s.count) + TotalToil(s.workers)
  }

  lemma CallWinds(c: Config, s: State, call: CallStep)
    requires s.cancelled && Winding(s.dispatcher) && CallEnabled(c, s, call)
    ensures var s' := Called(s, call);
            s'.crashed || (s'.cancelled && s'.dispatcher == s.dispatcher && Effort(s') < Effort(s))
  {
    hide TotalToil;
    if call.Send? {
      assert |s.adders - {call.task}| == |s.adders| - 1;
    }
  }

  /** What a move of the dispatcher does to the measure, apart from callers and workers. */
  predicate Winds(s: State, s': State) {
    && s'.adders == s.adders && s'.workers == s.workers && s'.cancelled == s.cancelled
    && Winding(s'.dispatcher)
    && 7 * |s'.queue| + Errand(s'.dispatcher, s'.count) < 7 * |s.queue| + Errand(s.dispatcher, s.count)
  }

  lemma TakeWinds(c: Config, s: State)
    requires Winding(s.dispatcher) && MoveEnabled(s, Take)
    ensures Winds(s, Moved(c, s, Take))
  {
    assert s.dispatcher.Draining?;
  }

  lemma PopWinds(c: Config, s: State)
    requires Winding(s.dispatcher) && MoveEnabled(s, Pop)
    ensures Winds(s, Moved(c, s, Pop))
  {
    assert s.dispatcher.DrainAwaiting? || s.dispatcher.Retiring?;
  }

  lemma PassWinds(c: Config, s: State, move: Move)
    requires s.count >= 0 && Winding(s.dispatcher) && MoveEnabled(s, move)
    requires move.DrainDone? || move.RetireDone? || move.Close?
    ensures Winds(s, Moved(c, s, move))
  {
  }

  lemma MoveWinds(c: Config, s: State, move: Move)
    requires s.count >= 0 && s.cancelled && Winding(s.dispatcher) && MoveEnabled(s, move) && !move.Post?
    ensures var s' := Moved(c, s, move);
            s'.cancelled && Winding(s'.dispatcher) && Effort(s') < Effort(s)
  {
    match move {
      case Take => TakeWinds(c, s);
      case Pop => PopWinds(c, s);
      case _ => PassWinds(c, s, move);
    }
    hide TotalToil, Moved, MoveEnabled, Errand, Winding;
  }

  lemma PostWinds(c: Config, s: State)
    requires Inv(c, s) && s.cancelled && Winding(s.dispatcher) && MoveEnabled(s, Post)
    ensures var s' := Moved(c, s, Post);
            s'.cancelled && Winding(s'.dispatcher) && Effort(s') < Effort(s)
  {
    HandIsEmpty(s);
    var w := Hand(s.dispatcher)[0];
    var order := OrderOf(s.dispatcher);
    assert [] + [order] == [order];
    ReplaceToil(s.workers, w, Worker(Waiting, [order], true));
    hide TotalToil, Inv;
  }

  /** A worker touches itself, the offers and the histories only. */
  lemma DeedFrame(c: Config, s: State, w: Id, deed: Deed)
    requires DeedEnabled(c, s, w, deed)
    ensures var s' := Worked(c, s, w, deed);
            && s'.dispatcher == s.dispatcher && s'.count == s.count && s'.queue == s.queue
            && s'.adders == s.adders && s'.cancelled == s.cancelled
  {
    match deed
    case Offer =>
    case Receive =>
    case Complete =>
    case Leave =>
  }

  lemma DeedTouches(c: Config, s: State, w: Id, deed: Deed)
    requires DeedEnabled(c, s, w, deed)
    ensures var s' := Worked(c, s, w, deed);
            |s'.workers| == |s.workers| && s'.workers == s.workers[w := s'.workers[w]]
  {
    assert s.workers[w := s.workers[w]] == s.workers;
  }

  lemma DeedToils(c: Config, s: State, w: Id, deed: Deed)
    requires ChannelsOk(s) && DeedEnabled(c, s, w, deed)
    ensures var s' := Worked(c, s, w, deed);
            |s'.workers| == |s.workers| && (s'.crashed || Toil(s'.workers[w]) < Toil(s.workers[w]))
  {
    ChannelOf(s, w);
    hide ChannelsOk;
  }

  lemma DeedWinds(c: Config, s: State, w: Id, deed: Deed)
    requires Inv(c, s) && DeedEnabled(c, s, w, deed)
    ensures var s' := Worked(c, s, w, deed);
            s'.crashed || (s'.cancelled == s.cancelled && s'.dispatcher == s.dispatcher && Effort(s') < Effort(s))
  {
    DeedFrame(c, s, w, deed);
    DeedTouches(c, s, w, deed);
    DeedToils(c, s, w, deed);
    ReplaceToil(s.workers, w, Worked(c, s, w, deed).workers[w]);
    hide Worked, TotalToil, Toil, Inv, Errand;
  }

  lemma StepWinds(c: Config, s: State, step: Step)
    requires Inv(c, s) && s.cancelled && Winding(s.dispatcher) && Enabled(c, s, step)
    ensures var s' := Apply(c, s, step);
            s'.crashed || (s'.cancelled && Winding(s'.dispatcher) && Effort(s') < Effort(s))
  {
    assert s.count >= 0;
    hide Effort, Inv, Winding;
    match step
    case Call(call) => CallWinds(c, s, call);
    case Dispatch(move) =>
      if move.Post? {
        PostWinds(c, s);
      } else {
        MoveWinds(c, s, move);
      }
    case Work(w, deed) => DeedWinds(c, s, w, deed);
  }

  /** Once the dispatcher has seen the shutdown every schedule is finite: it has no more steps than the
      effort left. */
  lemma {:induction false} ShutdownTerminates(c: Config, s: State, steps: seq<Step>)
    requires 1 <= c.idleWorkers <= c.maxWorkers
    requires Inv(c, s) && s.cancelled && Winding(s.dispatcher) && !s.crashed && Runs(c, s, steps)
    ensures |steps| <= Effort(s) + 1
    decreases |steps|
  {
    EffortPositive(c, s);
    if steps != [] {
      var s' := Apply(c, s, steps[0]);
      StepWinds(c, s, steps[0]);
      StepKeepsInv(c, s, steps[0]);
      hide Effort, Inv, Winding, Enabled, Apply;
      if s'.crashed {
        CrashIsLast(c, s', steps[1..]);
      } else {
        ShutdownTerminates(c, s', steps[1..]);
      }
    }
  }

  lemma EffortPositive(c: Config, s: State)
    requires Inv(c, s)
    ensures Effort(s) >= 0
  {
    assert s.count >= 0;
  }

  /** As long as the pool is neither closed nor waiting in the drain for a worker that does not exist,
      one of its own goroutines can move. */
  lemma SomethingMoves(c: Config, s: State) returns (step: Step)
    requires 1 <= c.idleWorkers <= c.maxWorkers
    requires Inv(c, s) && !s.crashed
    requires !s.signalled && !(s.dispatcher.DrainAwaiting? && s.count == 0)
    ensures Enabled(c, s, step) && !step.Call?
  {
    if Hand(s.dispatcher) != [] {
      HandIsEmpty(s);
      step := Dispatch(Post);
    } else if NeedsWorker(s) && s.ready == [] {
      var w := FindLive(s.workers);
      ChannelOf(s, w);
      step := Work(w, match s.workers[w].phase case Offering => Offer case Waiting => Receive case _ => Complete);
    } else {
      step := Dispatch(if s.dispatcher.Selecting? then Tick else NextMove(c, s));
    }
  }

  // ----- whether the pool always closes -----

  /** The drain may come to hold a task while there is no worker, under some schedule from here. */
  predicate Risky(c: Config, s: State) {
    var d := s.dispatcher;
    c.taskCap > 0 && s.count == 0 &&
    (|| d.DrainAwaiting?
     || (d.Draining? && (s.queue != [] || s.adders != {}))
     || (d.Selecting? && (s.queue != [] || s.adders != {} || !s.cancelled)))
  }

  /** What else holds in every reachable state: trimming leaves the idle workers, a queue without buffer
      holds nothing, and the dispatcher winds down only when stopped. */
  predicate Sound(c: Config, s: State) {
    var d := s.dispatcher;
    && (d.Trimming? ==> s.count >= c.idleWorkers)
    && (c.taskCap == 0 ==> s.queue == [] && !d.DrainAwaiting? && !d.DrainGiving?)
    && (Winding(d) ==> s.cancelled)
  }

  lemma PostKeepsSound(c: Config, s: State)
    requires 1 <= c.idleWorkers && Inv(c, s) && Sound(c, s) && MoveEnabled(s, Post)
    ensures Sound(c, Moved(c, s, Post))
    ensures !Risky(c, s) ==> !Risky(c, Moved(c, s, Post))
  {
    HandIsEmpty(s);
    LiveIsLive(s.workers, Hand(s.dispatcher)[0]);
    assert s.count > 0;
    hide ChannelsOk, CountsOk;
  }

  lemma MoveKeepsSound(c: Config, s: State, move: Move)
    requires 1 <= c.idleWorkers <= c.maxWorkers && StageOk(c, s) && Sound(c, s)
    requires MoveEnabled(s, move) && !move.Post? && (s.ready != [] ==> s.count > 0)
    ensures Sound(c, Moved(c, s, move))
    ensures !Risky(c, s) ==> !Risky(c, Moved(c, s, move))
  {
    hide Posted, CanPost;
  }

  lemma CallKeepsSound(c: Config, s: State, call: CallStep)
    requires Sound(c, s) && CallEnabled(c, s, call)
    ensures Sound(c, Called(s, call))
    ensures !Risky(c, s) ==> !Risky(c, Called(s, call))
  {
  }

  lemma DeedKeepsSound(c: Config, s: State, w: Id, deed: Deed)
    requires Sound(c, s) && DeedEnabled(c, s, w, deed)
    ensures Sound(c, Worked(c, s, w, deed))
    ensures !Risky(c, s) ==> !Risky(c, Worked(c, s, w, deed))
  {
    DeedFrame(c, s, w, deed);
    hide Worked, DeedEnabled;
  }

  lemma ReadyIsLive(c: Config, s: State)
    requires Inv(c, s) && s.ready != []
    ensures s.count > 0
  {
    assert s.ready[0] in s.ready;
    ChannelOf(s, s.ready[0]);
    LiveIsLive(s.workers, s.ready[0]);
  }

  /** No step brings the risk back. */
  lemma StepKeepsSound(c: Config, s: State, step: Step)
    requires 1 <= c.idleWorkers <= c.maxWorkers && Inv(c, s) && Sound(c, s) && Enabled(c, s, step)
    ensures Sound(c, Apply(c, s, step))
    ensures !Risky(c, s) ==> !Risky(c, Apply(c, s, step))
  {
    if s.ready != [] {
      ReadyIsLive(c, s);
    }
    hide Risky, Sound, ChannelsOk, CountsOk, StageOk;
    match step
    case Call(call) => CallKeepsSound(c, s, call);
    case Dispatch(move) =>
      if move.Post? {
        PostKeepsSound(c, s);
      } else {
        MoveKeepsSound(c, s, move);
      }
    case Work(w, deed) => DeedKeepsSound(c, s, w, deed);
  }

  lemma {:induction false} RunKeepsSound(c: Config, s: State, steps: seq<Step>)
    requires 1 <= c.idleWorkers <= c.maxWorkers && Inv(c, s) && Sound(c, s) && Runs(c, s, steps)
    ensures Inv(c, After(c, s, steps)) && Sound(c, After(c, s, steps))
    ensures !Risky(c, s) ==> !Risky(c, After(c, s, steps))
    decreases |steps|
  {
    if steps != [] {
      StepKeepsInv(c, s, steps[0]);
      StepKeepsSound(c, s, steps[0]);
      hide Inv, Sound, Risky, Enabled, Apply;
      RunKeepsSound(c, Apply(c, s, steps[0]), steps[1..]);
    }
  }

  ghost predicate CanStrand(c: Config, s: State) {
    exists steps :: Runs(c, s, steps) && Stranded(After(c, s, steps))
  }

  function Rank(s: State): nat {
    if Stranded(s) then 0
    else if s.queue != [] then (if s.cancelled then 1 else 2)
    else if s.adders != {} then 3
    else 4
  }

  /** The step that leads from a risky state towards a stranded one. */
  lemma Lure(c: Config, s: State) returns (step: Step)
    requires StageOk(c, s) && !s.crashed && Risky(c, s) && !Stranded(s)
    ensures Enabled(c, s, step)
    ensures var s' := Apply(c, s, step);
            !s'.crashed && Risky(c, s') && Rank(s') < Rank(s)
  {
    if s.queue != [] {
      step := if s.cancelled then Dispatch(SeeCancel) else Call(Cancel);
    } else if s.adders != {} {
      var t :| t in s.adders;
      step := Call(Send(t));
    } else {
      step := Call(Enter);
      assert s.next in Apply(c, s, step).adders;
    }
  }

  lemma {:induction false} StrandingRun(c: Config, s: State) returns (steps: seq<Step>)
    requires 1 <= c.idleWorkers <= c.maxWorkers && Inv(c, s) && !s.crashed && Risky(c, s)
    ensures Runs(c, s, steps)
    ensures var e := After(c, s, steps); Stranded(e) && Inv(c, e) && !e.crashed
    decreases Rank(s)
  {
    steps := [];
    if !Stranded(s) {
      var step := Lure(c, s);
      StepKeepsInv(c, s, step);
      hide Inv, Risky, Stranded, Enabled, Apply;
      var rest := StrandingRun(c, Apply(c, s, step));
      steps := [step] + rest;
      Then(c, s, step, Apply(c, s, step), rest, steps);
    }
  }

  lemma ReachableSound(c: Config, steps: seq<Step>)
    requires 1 <= c.idleWorkers <= c.maxWorkers && Runs(c, Initial, steps)
    ensures Inv(c, After(c, Initial, steps)) && Sound(c, After(c, Initial, steps))
  {
    InitialGood(c);
    RunKeepsSound(c, Initial, steps);
  }

  lemma SoundStrandedIsRisky(c: Config, s: State)
    requires Sound(c, s) && Stranded(s)
    ensures Risky(c, s)
  {
  }

  /** Exactly from which states some schedule strands the pool: those with a buffered queue and no
      worker in which a task is, or may still come, before a dispatcher that is, or may come to be, in its
      drain. A pool with a worker never gets there. */
  lemma CanStrandIff(c: Config, steps: seq<Step>)
    requires 1 <= c.idleWorkers <= c.maxWorkers && Runs(c, Initial, steps)
    requires !After(c, Initial, steps).crashed
    ensures var s := After(c, Initial, steps);
            CanStrand(c, s) <==> Risky(c, s)
  {
    ReachableSound(c, steps);
    var s := After(c, Initial, steps);
    if Risky(c, s) {
      var more := StrandingRun(c, s);
    } else {
      forall more | Runs(c, s, more)
        ensures !Stranded(After(c, s, more))
      {
        RunKeepsSound(c, s, more);
        if Stranded(After(c, s, more)) {
          SoundStrandedIsRisky(c, After(c, s, more));
        }
      }
    }
  }

  /** No goroutine, caller or pool, can move. */
  ghost predicate Halted(c: Config, s: State) {
    forall step :: !Enabled(c, s, step)
  }

  /** A pool that winds down can be run until nothing moves. */
  lemma {:induction false} RunOut(c: Config, s: State) returns (steps: seq<Step>)
    requires 1 <= c.idleWorkers <= c.maxWorkers
    requires Inv(c, s) && s.cancelled && Winding(s.dispatcher)
    ensures Runs(c, s, steps) && Halted(c, After(c, s, steps))
    decreases if s.crashed then 0 else 1, Effort(s)
  {
    steps := [];
    if !Halted(c, s) {
      var step :| Enabled(c, s, step);
      var s' := Apply(c, s, step);
      EffortPositive(c, s);
      StepKeepsInv(c, s, step);
      StepWinds(c, s, step);
      if s'.crashed {
        steps := [step];
        Single(c, s, step);
      } else {
        EffortPositive(c, s');
        hide Effort, Inv, Winding, Enabled, Apply;
        var rest := RunOut(c, s');
        steps := [step] + rest;
        Then(c, s, step, s', rest, steps);
      }
    }
  }

  /** Exactly when a pool can be relied on to close: from a reachable state every schedule that runs
      until nothing moves has closed closedSignal, or let a late caller panic, if and only if the state is
      not risky. */
  lemma AlwaysClosesIff(c: Config, steps: seq<Step>)
    requires 1 <= c.idleWorkers <= c.maxWorkers && Runs(c, Initial, steps)
    requires !After(c, Initial, steps).crashed
    ensures var s := After(c, Initial, steps);
            (forall more :: Runs(c, s, more) && Halted(c, After(c, s, more)) ==>
                              After(c, s, more).signalled || After(c, s, more).crashed)
            <==> !Risky(c, s)
  {
    ReachableSound(c, steps);
    var s := After(c, Initial, steps);
    if Risky(c, s) {
      var more := StrandedHalt(c, s);
    } else {
      forall more | Runs(c, s, more) && Halted(c, After(c, s, more))
        ensures After(c, s, more).signalled || After(c, s, more).crashed
      {
        RunKeepsSound(c, s, more);
        HaltedIsDone(c, After(c, s, more));
      }
    }
  }

  lemma HaltedIsDone(c: Config, s: State)
    requires 1 <= c.idleWorkers <= c.maxWorkers && Inv(c, s) && Sound(c, s) && !Risky(c, s) && Halted(c, s)
    ensures s.signalled || s.crashed
  {
    if !s.signalled && !s.crashed {
      var step := SomethingMoves(c, s);
    }
  }

  lemma StrandedHalt(c: Config, s: State) returns (steps: seq<Step>)
    requires 1 <= c.idleWorkers <= c.maxWorkers && Inv(c, s) && Sound(c, s) && !s.crashed && Risky(c, s)
    ensures Runs(c, s, steps) && Halted(c, After(c, s, steps))
    ensures !After(c, s, steps).signalled && !After(c, s, steps).crashed
  {
    var lure := StrandingRun(c, s);
    RunKeepsSound(c, s, lure);
    var e := After(c, s, lure);
    assert Winding(e.dispatcher);
    hide Inv, Sound, Risky;
    var rest := RunOut(c, e);
    StrandedForever(c, e, rest);
    NoCrash(c, e, rest);
    Compose(c, s, lure, rest);
    steps := lure + rest;
  }

  /** It does happen: one accepted task, and a shutdown that the dispatcher sees before the task. */
  lemma StrandedExample(c: Config)
    requires 1 <= c.idleWorkers <= c.maxWorkers && c.taskCap >= 1
    ensures var steps := [Call(Enter), Call(Send(0)), Call(Cancel), Dispatch(SeeCancel)];
            Runs(c, Initial, steps) && Stranded(After(c, Initial, steps))
  {
    var s1 := Apply(c, Initial, Call(Enter));
    var s2 := Apply(c, s1, Call(Send(0)));
    var s3 := Apply(c, s2, Call(Cancel));
    Single(c, Initial, Call(Enter));
    Single(c, s1, Call(Send(0)));
    Single(c, s2, Call(Cancel));
    Single(c, s3, Dispatch(SeeCancel));
    Compose(c, Initial, [Call(Enter)], [Call(Send(0))]);
    Compose(c, Initial, [Call(Enter)] + [Call(Send(0))], [Call(Cancel)]);
    Compose(c, Initial, [Call(Enter)] + [Call(Send(0))] + [Call(Cancel)], [Dispatch(SeeCancel)]);
    assert [Call(Enter)] + [Call(Send(0))] + [Call(Cancel)] + [Dispatch(SeeCancel)]
        == [Call(Enter), Call(Send(0)), Call(Cancel), Dispatch(SeeCancel)];
  }
}
