/** Closing a channel: Channel.Close, the inactive and exception walks it sets off, the handlers that
    may close again from inside, and any number of goroutines doing this at once. Each goroutine is a
    stack of calls still to make; a step makes the top call of one of them, and where that call meets a
    handler the step also says how the handler reacts this time. */
module CloseCascade {

  /** What a handler does with an inactive or exception event: pass it on through its context, close
      through its context, or call Channel.Close. */
  datatype Act = Forward | CloseContext | CloseChannel

  /** None for an event interface the handler does not implement; otherwise what it usually does, and
      what else it may do, anew at every event. */
  datatype Reaction = None | Acts(usual: seq<Act>, others: seq<seq<Act>>)

  function Chosen(r: Reaction, choice: nat): (acts: seq<Act>)
    requires r.Acts?
    ensures |acts| <= Longest(r)
  {
    if choice < |r.others| then
      LongestOf(r.usual, r.others, choice);
      r.others[choice]
    else
      LongestOf(r.usual, r.others, 0);
      r.usual
  }

  function Longest(r: Reaction): nat
    requires r.Acts?
  {
    MaxLength(|r.usual|, r.others)
  }

  function MaxLength(least: nat, lists: seq<seq<Act>>): nat
    decreases |lists|
  {
    if lists == [] then least else MaxLength(if |lists[0]| > least then |lists[0]| else least, lists[1..])
  }

  lemma {:induction false} LongestOf(usual: seq<Act>, others: seq<seq<Act>>, i: nat)
    ensures |usual| <= MaxLength(|usual|, others)
    ensures i < |others| ==> |others[i]| <= MaxLength(|usual|, others)
    decreases |others|
  {
    if others != [] {
      LongestOf(if |others[0]| > |usual| then others[0] else usual, others[1..], if i == 0 then 0 else i - 1);
    }
  }

  datatype Handler = Handler(inactive: Reaction, exception: Reaction)

  const Head := Handler(Acts([CloseChannel], []), Acts([Forward], []))
  const Tail := Handler(Acts([Forward], []), Acts([CloseContext], []))

  /** The handlers between the sentinels; the whole pipeline has the head and the tail around them. */
  function Pipeline(inner: seq<Handler>): (p: seq<Handler>)
    ensures |p| == |inner| + 2
  {
    [Head] + inner + [Tail]
  }

  predicate Framed(p: seq<Handler>) {
    |p| >= 2 && p[0] == Head && p[|p| - 1] == Tail
  }

  datatype Call =
    | Close                     // Channel.Close up to its compare-and-swap
    | CloseTransport
    | FireInactive
    | DropPipeline              // c.pipeline = nil
    | WalkInactive(at: nat)     // from a context towards the head
    | WalkException(at: nat)    // from a context towards the tail
    | Post                      // postCloseEvent up to its compare-and-swap
    | CheckClosed               // the load of closed in postCloseEvent
    | FireException

  /** What happens, as the outside sees it; a handler is met when an event reaches it. */
  datatype Note =
    | TransportClosed | InactiveFired | MetInactive(at: nat) | ExceptionFired | MetException(at: nat)
    | PipelineDropped

  datatype State = State(
    closed: bool, posted: bool, dropped: bool,
    log: seq<Note>,
    threads: seq<seq<Call>>,
    crashed: bool)              // fireChannelException on a nil pipeline

  // ----- the two searches along the pipeline -----

  /** The nearest handler before `at` that implements InactiveHandler; the head always does. */
  function PrevInactive(p: seq<Handler>, at: nat): (j: nat)
    requires 0 < at <= |p| && p[0].inactive.Acts?
    ensures j < at && p[j].inactive.Acts?
    ensures forall k :: j < k < at ==> p[k].inactive.None?
  {
    if p[at - 1].inactive.Acts? then at - 1 else PrevInactive(p, at - 1)
  }

  /** The nearest handler behind `at` that implements ExceptionHandler; the tail always does. */
  function NextException(p: seq<Handler>, at: nat): (j: nat)
    requires at + 1 < |p| && p[|p| - 1].exception.Acts?
    ensures at < j < |p| && p[j].exception.Acts?
    ensures forall k :: at < k < j ==> p[k].exception.None?
    decreases |p| - at
  {
    if p[at + 1].exception.Acts? then at + 1 else NextException(p, at + 1)
  }

  /** The calls a handler at `at` makes. */
  function Calls(acts: seq<Act>, at: nat, onForward: Call): (r: seq<Call>)
    ensures |r| == |acts|
  {
    if acts == [] then []
    else
      [match acts[0]
       case Forward => onForward
       case CloseContext => WalkInactive(at)
       case CloseChannel => Close] + Calls(acts[1..], at, onForward)
  }

  function InactiveCalls(p: seq<Handler>, at: nat, choice: nat): seq<Call>
    requires Framed(p)
  {
    if at == 0 || at > |p| then []
    else var j := PrevInactive(p, at); Calls(Chosen(p[j].inactive, choice), j, WalkInactive(j))
  }

  function ExceptionCalls(p: seq<Handler>, at: nat, choice: nat): seq<Call>
    requires Framed(p)
  {
    if at + 1 >= |p| then []
    else var j := NextException(p, at); Calls(Chosen(p[j].exception, choice), j, WalkException(j))
  }

  function Jot(s: State, note: Note): State {
    s.(log := s.log + [note])
  }

  /** What a call does to the shared state, and which calls it leads to. */
  function Effect(p: seq<Handler>, s: State, call: Call, choice: nat): (State, seq<Call>)
    requires Framed(p)
  {
    match call
    case Close =>
      if s.closed then (s, []) else (s.(closed := true), [CloseTransport, FireInactive, DropPipeline])
    case CloseTransport => (Jot(s, TransportClosed), [])
    case FireInactive => (Jot(s, InactiveFired), [WalkInactive(|p| - 1)])
    case DropPipeline => (Jot(s.(dropped := true), PipelineDropped), [])
    case WalkInactive(at) =>
      if 0 < at <= |p| then (Jot(s, MetInactive(PrevInactive(p, at))), InactiveCalls(p, at, choice)) else (s, [])
    case WalkException(at) =>
      if at + 1 < |p| then (Jot(s, MetException(NextException(p, at))), ExceptionCalls(p, at, choice)) else (s, [])
    case Post => if s.posted then (s, []) else (s.(posted := true), [CheckClosed])
    case CheckClosed => (s, if s.closed then [] else [FireException])
    case FireException => if s.dropped then (s.(crashed := true), []) else (Jot(s, ExceptionFired), [WalkException(0)])
  }

  /** Which goroutine goes next, and how the handler its call may meet reacts. */
  datatype Turn = Turn(thread: nat, choice: nat)

  predicate Enabled(s: State, thread: nat) {
    !s.crashed && thread < |s.threads| && s.threads[thread] != []
  }

  function Step(p: seq<Handler>, s: State, turn: Turn): State
    requires Framed(p) && Enabled(s, turn.thread)
  {
    var stack := s.threads[turn.thread];
    var (s', calls) := Effect(p, s, stack[0], turn.choice);
    s'.(threads := s.threads[turn.thread := calls + stack[1..]])
  }

  predicate Runs(p: seq<Handler>, s: State, schedule: seq<Turn>)
    requires Framed(p)
    decreases |schedule|
  {
    schedule == [] || (Enabled(s, schedule[0].thread) && Runs(p, Step(p, s, schedule[0]), schedule[1..]))
  }

  function After(p: seq<Handler>, s: State, schedule: seq<Turn>): State
    requires Framed(p) && Runs(p, s, schedule)
    decreases |schedule|
  {
    if schedule == [] then s else After(p, Step(p, s, schedule[0]), schedule[1..])
  }

  /** Callers arrive with calls of Close and postCloseEvent to make, one after the other, as the read loop
      does when a handler closes and the loop then reports its error; nothing has happened yet. */
  predicate Fresh(s: State) {
    && !s.closed && !s.posted && !s.dropped && !s.crashed && s.log == []
    && forall i :: 0 <= i < |s.threads| ==> FromOutside(s.threads[i])
  }

  predicate FromOutside(stack: seq<Call>) {
    forall k :: 0 <= k < |stack| ==> stack[k] == Close || stack[k] == Post
  }

  // ----- termination: every call weighs more than the calls it leads to -----

  function Times(n: nat, each: nat): nat {
    n * each
  }

  function WeightInactive(p: seq<Handler>, at: nat): nat
    requires Framed(p)
    decreases at
  {
    if at == 0 || at > |p| then 1
    else var j := PrevInactive(p, at); 1 + Times(Longest(p[j].inactive), 1 + WeightInactive(p, j))
  }

  function WeightException(p: seq<Handler>, at: nat): nat
    requires Framed(p)
    decreases |p| - at
  {
    if at + 1 >= |p| then 1
    else
      var j := NextException(p, at);
      1 + Times(Longest(p[j].exception), 1 + WeightException(p, j) + WeightInactive(p, j))
  }

  function Weight(p: seq<Handler>, call: Call): nat
    requires Framed(p)
  {
    match call
    case Close => 1
    case CloseTransport => 1
    case FireInactive => 1 + WeightInactive(p, |p| - 1)
    case DropPipeline => 1
    case WalkInactive(at) => WeightInactive(p, at)
    case WalkException(at) => WeightException(p, at)
    case Post => 3 + WeightException(p, 0)
    case CheckClosed => 2 + WeightException(p, 0)
    case FireException => 1 + WeightException(p, 0)
  }

  function StackWeight(p: seq<Handler>, stack: seq<Call>): nat
    requires Framed(p)
  {
    if stack == [] then 0 else Weight(p, stack[0]) + StackWeight(p, stack[1..])
  }

  function ThreadsWeight(p: seq<Handler>, threads: seq<seq<Call>>): nat
    requires Framed(p)
  {
    if threads == [] then 0
    else ThreadsWeight(p, threads[..|threads| - 1]) + StackWeight(p, threads[|threads| - 1])
  }

  /** All pending calls, plus what the one successful Close will still add. */
  function Budget(p: seq<Handler>, s: State): nat
    requires Framed(p)
  {
    ThreadsWeight(p, s.threads) + (if s.closed then 0 else 3 + WeightInactive(p, |p| - 1))
  }

  lemma {:induction false} StackSplit(p: seq<Handler>, a: seq<Call>, b: seq<Call>)
    requires Framed(p)
    ensures StackWeight(p, a + b) == StackWeight(p, a) + StackWeight(p, b)
  {
    if a == [] {
      assert a + b == b;
    } else {
      StackSplit(p, a[1..], b);
      assert (a + b)[0] == a[0] && (a + b)[1..] == a[1..] + b;
    }
  }

  lemma {:induction false} ThreadsReplace(p: seq<Handler>, threads: seq<seq<Call>>, i: nat, stack: seq<Call>)
    requires Framed(p) && i < |threads|
    ensures ThreadsWeight(p, threads[i := stack]) ==
            ThreadsWeight(p, threads) - StackWeight(p, threads[i]) + StackWeight(p, stack)
  {
    var n := |threads| - 1;
    if i == n {
      assert threads[i := stack][..n] == threads[..n];
    } else {
      ThreadsReplace(p, threads[..n], i, stack);
      assert threads[i := stack][..n] == threads[..n][i := stack];
    }
  }

  lemma {:induction false} CallsWeigh(p: seq<Handler>, acts: seq<Act>, at: nat, onForward: Call, most: nat, bound: nat)
    requires Framed(p) && Weight(p, onForward) <= bound && WeightInactive(p, at) <= bound && 1 <= bound
    requires |acts| <= most
    ensures StackWeight(p, Calls(acts, at, onForward)) <= most * bound
  {
    hide WeightInactive, WeightException;
    if acts != [] {
      CallsWeigh(p, acts[1..], at, onForward, most - 1, bound);
      var calls := Calls(acts, at, onForward);
      assert calls[1..] == Calls(acts[1..], at, onForward);
      assert Weight(p, calls[0]) <= bound;
      Distribute(most, bound);
    }
  }

  lemma Distribute(n: nat, bound: nat)
    requires n > 0
    ensures n * bound == bound + (n - 1) * bound
  {
  }

  lemma InactiveCallsWeigh(p: seq<Handler>, at: nat, choice: nat)
    requires Framed(p)
    ensures StackWeight(p, InactiveCalls(p, at, choice)) < WeightInactive(p, at)
  {
    assert StackWeight(p, []) == 0;
    hide StackWeight, Calls, WeightException;
    if 0 < at <= |p| {
      var j := PrevInactive(p, at);
      var w := 1 + WeightInactive(p, j);
      assert WeightInactive(p, at) == 1 + Times(Longest(p[j].inactive), w);
      CallsWeigh(p, Chosen(p[j].inactive, choice), j, WalkInactive(j), Longest(p[j].inactive), w);
    }
  }

  lemma ExceptionCallsWeigh(p: seq<Handler>, at: nat, choice: nat)
    requires Framed(p)
    ensures StackWeight(p, ExceptionCalls(p, at, choice)) < WeightException(p, at)
  {
    assert StackWeight(p, []) == 0;
    hide StackWeight, Calls, WeightInactive;
    if at + 1 < |p| {
      var j := NextException(p, at);
      var w := 1 + WeightException(p, j) + WeightInactive(p, j);
      assert WeightException(p, at) == 1 + Times(Longest(p[j].exception), w);
      CallsWeigh(p, Chosen(p[j].exception, choice), j, WalkException(j), Longest(p[j].exception), w);
    }
  }

  lemma EffectWeighs(p: seq<Handler>, s: State, call: Call, choice: nat)
    requires Framed(p)
    ensures var (s', calls) := Effect(p, s, call, choice);
            && s'.threads == s.threads
            && StackWeight(p, calls) + (if s'.closed then 0 else 3 + WeightInactive(p, |p| - 1))
               < Weight(p, call) + (if s.closed then 0 else 3 + WeightInactive(p, |p| - 1))
  {
    hide WeightInactive, WeightException, InactiveCalls, ExceptionCalls;
    match call
    case WalkInactive(at) => InactiveCallsWeigh(p, at, choice);
    case WalkException(at) => ExceptionCallsWeigh(p, at, choice);
    case Close => CloseWeighs(p);
    case FireInactive => SingleWeighs(p, WalkInactive(|p| - 1));
    case Post => SingleWeighs(p, CheckClosed);
    case CheckClosed => SingleWeighs(p, FireException);
    case FireException => SingleWeighs(p, WalkException(0));
    case _ =>
  }

  lemma SingleWeighs(p: seq<Handler>, call: Call)
    requires Framed(p)
    ensures StackWeight(p, [call]) == Weight(p, call)
  {
    assert [call][1..] == [];
  }

  lemma CloseWeighs(p: seq<Handler>)
    requires Framed(p)
    ensures StackWeight(p, [CloseTransport, FireInactive, DropPipeline]) == 3 + WeightInactive(p, |p| - 1)
  {
    var cs := [CloseTransport, FireInactive, DropPipeline];
    assert cs[1..] == [FireInactive, DropPipeline] && cs[1..][1..] == [DropPipeline];
    SingleWeighs(p, DropPipeline);
  }

  lemma StepSpends(p: seq<Handler>, s: State, turn: Turn)
    requires Framed(p) && Enabled(s, turn.thread)
    ensures Budget(p, Step(p, s, turn)) < Budget(p, s)
  {
    var stack := s.threads[turn.thread];
    var (s', calls) := Effect(p, s, stack[0], turn.choice);
    EffectWeighs(p, s, stack[0], turn.choice);
    StackSplit(p, calls, stack[1..]);
    ThreadsReplace(p, s.threads, turn.thread, calls + stack[1..]);
  }

  /** Termination: whatever the handlers do and however the goroutines interleave, no schedule is
      longer than the budget of the state it starts from. */
  lemma {:induction false} CascadeTerminates(p: seq<Handler>, s: State, schedule: seq<Turn>)
    requires Framed(p) && Runs(p, s, schedule)
    ensures |schedule| <= Budget(p, s)
    decreases |schedule|
  {
    if schedule != [] {
      StepSpends(p, s, schedule[0]);
      CascadeTerminates(p, Step(p, s, schedule[0]), schedule[1..]);
    }
  }

  // ----- at most once -----

  function PendingIn(stack: seq<Call>, call: Call): nat {
    if stack == [] then 0 else (if stack[0] == call then 1 else 0) + PendingIn(stack[1..], call)
  }

  function Pending(threads: seq<seq<Call>>, call: Call): nat {
    if threads == [] then 0
    else Pending(threads[..|threads| - 1], call) + PendingIn(threads[|threads| - 1], call)
  }

  lemma {:induction false} PendingSplit(a: seq<Call>, b: seq<Call>, call: Call)
    ensures PendingIn(a + b, call) == PendingIn(a, call) + PendingIn(b, call)
  {
    if a == [] {
      assert a + b == b;
    } else {
      PendingSplit(a[1..], b, call);
      assert (a + b)[0] == a[0] && (a + b)[1..] == a[1..] + b;
    }
  }

  lemma {:induction false} PendingReplace(threads: seq<seq<Call>>, i: nat, stack: seq<Call>, call: Call)
    requires i < |threads|
    ensures Pending(threads[i := stack], call) ==
            Pending(threads, call) - PendingIn(threads[i], call) + PendingIn(stack, call)
  {
    var n := |threads| - 1;
    if i == n {
      assert threads[i := stack][..n] == threads[..n];
    } else {
      PendingReplace(threads[..n], i, stack, call);
      assert threads[i := stack][..n] == threads[..n][i := stack];
    }
  }

  /** The calls no handler makes itself. */
  predicate Reserved(call: Call) {
    call.CloseTransport? || call.FireInactive? || call.DropPipeline? || call.CheckClosed? || call.FireException?
  }

  function Noted(log: seq<Note>, note: Note): nat {
    if log == [] then 0
    else Noted(log[..|log| - 1], note) + (if log[|log| - 1] == note then 1 else 0)
  }

  lemma NotedOneMore(log: seq<Note>, last: Note, note: Note)
    ensures Noted(log + [last], note) == Noted(log, note) + (if last == note then 1 else 0)
  {
    assert (log + [last])[..|log|] == log;
  }

  lemma {:induction false} HandlersOnlyAsk(acts: seq<Act>, at: nat, onForward: Call, call: Call)
    requires Reserved(call)
    requires onForward != call
    ensures PendingIn(Calls(acts, at, onForward), call) == 0
  {
    if acts != [] {
      HandlersOnlyAsk(acts[1..], at, onForward, call);
      var calls := Calls(acts, at, onForward);
      assert calls[1..] == Calls(acts[1..], at, onForward);
    }
  }

  /** Done plus still to be done is one after the successful Close, and zero before it. */
  predicate OnceOk(s: State) {
    var n := if s.closed then 1 else 0;
    && Noted(s.log, TransportClosed) + Pending(s.threads, CloseTransport) == n
    && Noted(s.log, InactiveFired) + Pending(s.threads, FireInactive) == n
    && (if s.dropped then 1 else 0) + Pending(s.threads, DropPipeline) == n
    && Noted(s.log, ExceptionFired) + Pending(s.threads, CheckClosed) + Pending(s.threads, FireException)
       <= (if s.posted then 1 else 0)
  }

  /** The reserved calls a call leads to. */
  function Asks(s: State, call: Call, asked: Call): nat {
    match asked
    case CheckClosed => if call == Post && !s.posted then 1 else 0
    case FireException => if call == CheckClosed && !s.closed then 1 else 0
    case _ => if call == Close && !s.closed then 1 else 0
  }

  lemma EffectAsksOnce(p: seq<Handler>, s: State, call: Call, choice: nat, asked: Call)
    requires Framed(p) && Reserved(asked)
    ensures PendingIn(Effect(p, s, call, choice).1, asked) == Asks(s, call, asked)
  {
    match call
    case WalkInactive(at) =>
      if 0 < at <= |p| {
        var j := PrevInactive(p, at);
        HandlersOnlyAsk(Chosen(p[j].inactive, choice), j, WalkInactive(j), asked);
      }
    case WalkException(at) =>
      if at + 1 < |p| {
        var j := NextException(p, at);
        HandlersOnlyAsk(Chosen(p[j].exception, choice), j, WalkException(j), asked);
      }
    case Close =>
      var cs := [CloseTransport, FireInactive, DropPipeline];
      assert cs[1..] == [FireInactive, DropPipeline] && cs[1..][1..] == [DropPipeline];
    case Post => assert [CheckClosed][1..] == [];
    case CheckClosed => assert [FireException][1..] == [];
    case _ =>
  }

  lemma StepPends(p: seq<Handler>, s: State, turn: Turn, asked: Call)
    requires Framed(p) && Enabled(s, turn.thread)
    requires Reserved(asked)
    ensures var call := s.threads[turn.thread][0];
            Pending(Step(p, s, turn).threads, asked) ==
            Pending(s.threads, asked) - (if call == asked then 1 else 0) + Asks(s, call, asked)
  {
    var stack := s.threads[turn.thread];
    EffectAsksOnce(p, s, stack[0], turn.choice, asked);
    hide Effect, Pending;
    var calls := Effect(p, s, stack[0], turn.choice).1;
    PendingSplit(calls, stack[1..], asked);
    PendingReplace(s.threads, turn.thread, calls + stack[1..], asked);
  }

  lemma EffectNotes(p: seq<Handler>, s: State, call: Call, choice: nat)
    requires Framed(p)
    ensures var log := Effect(p, s, call, choice).0.log;
            && Noted(log, TransportClosed) == Noted(s.log, TransportClosed) + (if call == CloseTransport then 1 else 0)
            && Noted(log, InactiveFired) == Noted(s.log, InactiveFired) + (if call == FireInactive then 1 else 0)
            && Noted(log, ExceptionFired) ==
               Noted(s.log, ExceptionFired) + (if call == FireException && !s.dropped then 1 else 0)
  {
    hide Noted, InactiveCalls, ExceptionCalls;
    var log := Effect(p, s, call, choice).0.log;
    if log != s.log {
      var last := log[|s.log|];
      NotedOneMore(s.log, last, TransportClosed);
      NotedOneMore(s.log, last, InactiveFired);
      NotedOneMore(s.log, last, ExceptionFired);
    }
  }

  /** What a call does to the flags. */
  lemma EffectFlags(p: seq<Handler>, s: State, call: Call, choice: nat)
    requires Framed(p)
    ensures var s' := Effect(p, s, call, choice).0;
            && s'.closed == (s.closed || call == Close) && s'.posted == (s.posted || call == Post)
            && s'.dropped == (s.dropped || call == DropPipeline) && s'.threads == s.threads
  {
    hide InactiveCalls, ExceptionCalls;
  }

  lemma StepKeepsOnce(p: seq<Handler>, s: State, turn: Turn)
    requires Framed(p) && Enabled(s, turn.thread) && OnceOk(s)
    ensures OnceOk(Step(p, s, turn))
  {
    var call := s.threads[turn.thread][0];
    EffectFlags(p, s, call, turn.choice);
    EffectNotes(p, s, call, turn.choice);
    hide Effect, Pending, PendingIn, Noted;
    StepPends(p, s, turn, CloseTransport);
    StepPends(p, s, turn, FireInactive);
    StepPends(p, s, turn, DropPipeline);
    StepPends(p, s, turn, CheckClosed);
    StepPends(p, s, turn, FireException);
  }

  lemma {:induction false} RunKeepsOnce(p: seq<Handler>, s: State, schedule: seq<Turn>)
    requires Framed(p) && Runs(p, s, schedule) && OnceOk(s)
    ensures OnceOk(After(p, s, schedule))
    decreases |schedule|
  {
    if schedule != [] {
      StepKeepsOnce(p, s, schedule[0]);
      RunKeepsOnce(p, Step(p, s, schedule[0]), schedule[1..]);
    }
  }

  lemma {:induction false} FreshPendsNothing(threads: seq<seq<Call>>, call: Call)
    requires Reserved(call)
    requires forall i :: 0 <= i < |threads| ==> FromOutside(threads[i])
    ensures Pending(threads, call) == 0
  {
    if threads != [] {
      var n := |threads| - 1;
      FreshPendsNothing(threads[..n], call);
      OutsidePendsNothing(threads[n], call);
    }
  }

  lemma {:induction false} OutsidePendsNothing(stack: seq<Call>, call: Call)
    requires Reserved(call)
    requires FromOutside(stack)
    ensures PendingIn(stack, call) == 0
  {
    if stack != [] {
      OutsidePendsNothing(stack[1..], call);
    }
  }

  predicate Quiescent(s: State) {
    forall i :: 0 <= i < |s.threads| ==> s.threads[i] == []
  }

  lemma {:induction false} QuiescentPendsNothing(threads: seq<seq<Call>>, call: Call)
    requires forall i :: 0 <= i < |threads| ==> threads[i] == []
    ensures Pending(threads, call) == 0
  {
    if threads != [] {
      QuiescentPendsNothing(threads[..|threads| - 1], call);
    }
  }

  /** However many callers race, the transport is closed, the inactive event fired and the exception
      event fired at most once, and when all is quiet the first two have happened exactly once if the
      channel is closed and not otherwise. */
  lemma AtMostOnce(p: seq<Handler>, s: State, schedule: seq<Turn>)
    requires Framed(p) && Fresh(s) && Runs(p, s, schedule)
    ensures var e := After(p, s, schedule);
            var transports, inactives := Noted(e.log, TransportClosed), Noted(e.log, InactiveFired);
            && transports <= 1 && inactives <= 1 && Noted(e.log, ExceptionFired) <= 1
            && (Quiescent(e) ==> transports == inactives == if e.closed then 1 else 0)
  {
    FreshIsOnce(s);
    RunKeepsOnce(p, s, schedule);
    var e := After(p, s, schedule);
    if Quiescent(e) {
      QuiescentPendsNothing(e.threads, CloseTransport);
      QuiescentPendsNothing(e.threads, FireInactive);
    }
  }

  // ----- an event is not lost on the way -----

  /** Whether a walk towards the head certainly ends in Channel.Close: however the next handler reacts,
      one of the things it does leads there. */
  ghost predicate InactiveCloses(p: seq<Handler>, at: nat)
    requires Framed(p)
    decreases at
  {
    && 0 < at <= |p|
    && var j := PrevInactive(p, at);
       var before := InactiveCloses(p, j);
       forall choice: nat :: LeadsAmong(Chosen(p[j].inactive, choice), before, before)
  }

  /** The same of a walk towards the tail. */
  ghost predicate ExceptionCloses(p: seq<Handler>, at: nat)
    requires Framed(p)
    decreases |p| - at
  {
    && at + 1 < |p|
    && var j := NextException(p, at);
       var behind, before := ExceptionCloses(p, j), InactiveCloses(p, j);
       forall choice: nat :: LeadsAmong(Chosen(p[j].exception, choice), behind, before)
  }

  /** One of the acts leads to Channel.Close, given what passing on and closing the context do. */
  predicate LeadsAmong(acts: seq<Act>, forward: bool, closeContext: bool) {
    CloseChannel in acts || (forward && Forward in acts) || (closeContext && CloseContext in acts)
  }

  /** A pending call that is certain to end in Channel.Close. */
  ghost predicate Leads(p: seq<Handler>, call: Call)
    requires Framed(p)
  {
    match call
    case Close => true
    case CheckClosed => ExceptionCloses(p, 0)
    case FireException => ExceptionCloses(p, 0)
    case WalkInactive(at) => InactiveCloses(p, at)
    case WalkException(at) => ExceptionCloses(p, at)
    case _ => false
  }

  lemma {:induction false} SomeCallLeads(p: seq<Handler>, acts: seq<Act>, at: nat, onForward: Call) returns (k: nat)
    requires Framed(p) && LeadsAmong(acts, Leads(p, onForward), InactiveCloses(p, at))
    ensures k < |acts| && Leads(p, Calls(acts, at, onForward)[k])
  {
    hide InactiveCloses, ExceptionCloses;
    var calls := Calls(acts, at, onForward);
    if Leads(p, calls[0]) {
      k := 0;
    } else {
      k := SomeCallLeads(p, acts[1..], at, onForward);
      k := k + 1;
    }
  }

  /** Each call under way to Channel.Close leads to another one or closes. */
  lemma LeadsOn(p: seq<Handler>, s: State, call: Call, choice: nat) returns (k: nat)
    requires Framed(p) && !s.dropped && Leads(p, call)
    ensures var (s', calls) := Effect(p, s, call, choice);
            s'.closed || (k < |calls| && Leads(p, calls[k]))
  {
    k := 0;
    match call
    case WalkInactive(at) =>
      var j := PrevInactive(p, at);
      k := SomeCallLeads(p, Chosen(p[j].inactive, choice), j, WalkInactive(j));
    case WalkException(at) =>
      var j := NextException(p, at);
      k := SomeCallLeads(p, Chosen(p[j].exception, choice), j, WalkException(j));
    case _ =>
  }

  /** A Close is still under way unless the channel is closed. */
  ghost predicate UnderWay(p: seq<Handler>, s: State)
    requires Framed(p)
  {
    s.closed || exists i, k :: 0 <= i < |s.threads| && 0 <= k < |s.threads[i]| && Leads(p, s.threads[i][k])
  }

  lemma StepKeepsUnderWay(p: seq<Handler>, s: State, turn: Turn)
    requires Framed(p) && OnceOk(s) && UnderWay(p, s) && Enabled(s, turn.thread)
    ensures UnderWay(p, Step(p, s, turn))
  {
    assert s.dropped ==> s.closed;
    hide InactiveCalls, ExceptionCalls, OnceOk, Leads;
    var thread := turn.thread;
    var stack := s.threads[thread];
    var calls := Effect(p, s, stack[0], turn.choice).1;
    var e := Step(p, s, turn);
    if !s.closed && !e.closed {
      var i, k :| 0 <= i < |s.threads| && 0 <= k < |s.threads[i]| && Leads(p, s.threads[i][k]);
      if i != thread {
        assert e.threads[i][k] == s.threads[i][k];
      } else if k > 0 {
        assert e.threads[i][|calls| + k - 1] == s.threads[i][k];
      } else {
        var k' := LeadsOn(p, s, stack[0], turn.choice);
        assert e.threads[i][k'] == calls[k'];
      }
    }
  }

  lemma {:induction false} RunKeepsUnderWay(p: seq<Handler>, s: State, schedule: seq<Turn>)
    requires Framed(p) && OnceOk(s) && UnderWay(p, s) && Runs(p, s, schedule)
    ensures UnderWay(p, After(p, s, schedule))
    decreases |schedule|
  {
    if schedule != [] {
      StepKeepsUnderWay(p, s, schedule[0]);
      StepKeepsOnce(p, s, schedule[0]);
      RunKeepsUnderWay(p, Step(p, s, schedule[0]), schedule[1..]);
    }
  }

  lemma FreshIsOnce(s: State)
    requires Fresh(s)
    ensures OnceOk(s)
  {
    FreshPendsNothing(s.threads, CloseTransport);
    FreshPendsNothing(s.threads, FireInactive);
    FreshPendsNothing(s.threads, DropPipeline);
    FreshPendsNothing(s.threads, CheckClosed);
    FreshPendsNothing(s.threads, FireException);
  }

  ghost predicate SomeoneCloses(s: State) {
    exists i :: 0 <= i < |s.threads| && Close in s.threads[i]
  }

  lemma CloserIsUnderWay(p: seq<Handler>, s: State)
    requires Framed(p) && SomeoneCloses(s)
    ensures UnderWay(p, s)
  {
    var i :| 0 <= i < |s.threads| && Close in s.threads[i];
    var k :| 0 <= k < |s.threads[i]| && s.threads[i][k] == Close;
    assert Leads(p, s.threads[i][k]);
  }

  lemma FirstStepSetsOff(p: seq<Handler>, s: State, turn: Turn)
    requires Framed(p) && Fresh(s) && Enabled(s, turn.thread) && OnceOk(s)
    requires SomeoneCloses(s) || ExceptionCloses(p, 0)
    ensures UnderWay(p, Step(p, s, turn))
  {
    var e := Step(p, s, turn);
    if SomeoneCloses(s) {
      CloserIsUnderWay(p, s);
      StepKeepsUnderWay(p, s, turn);
    } else {
      assert s.threads[turn.thread][0] == Post;
      assert e.threads[turn.thread][0] == CheckClosed && Leads(p, e.threads[turn.thread][0]);
    }
  }

  lemma EveryReportCloses(p: seq<Handler>, s: State, schedule: seq<Turn>)
    requires Framed(p) && Fresh(s) && !Quiescent(s) && Runs(p, s, schedule)
    requires SomeoneCloses(s) || ExceptionCloses(p, 0)
    requires Quiescent(After(p, s, schedule))
    ensures var e := After(p, s, schedule);
            e.closed && Noted(e.log, TransportClosed) == Noted(e.log, InactiveFired) == 1
  {
    FreshIsOnce(s);
    var s1 := Step(p, s, schedule[0]);
    StepKeepsOnce(p, s, schedule[0]);
    FirstStepSetsOff(p, s, schedule[0]);
    RunKeepsUnderWay(p, s1, schedule[1..]);
    AtMostOnce(p, s, schedule);
  }

  /** A pending call that the handlers may let come to nothing. */
  ghost predicate Futile(p: seq<Handler>, call: Call)
    requires Framed(p)
  {
    match call
    case Post => !ExceptionCloses(p, 0)
    case CheckClosed => !ExceptionCloses(p, 0)
    case FireException => !ExceptionCloses(p, 0)
    case WalkInactive(at) => !InactiveCloses(p, at)
    case WalkException(at) => !ExceptionCloses(p, at)
    case _ => false
  }

  lemma {:induction false} AllCallsFutile(p: seq<Handler>, acts: seq<Act>, at: nat, onForward: Call)
    requires Framed(p) && (onForward.WalkInactive? || onForward.WalkException?)
    requires !LeadsAmong(acts, !Futile(p, onForward), InactiveCloses(p, at))
    ensures forall call :: call in Calls(acts, at, onForward) ==> Futile(p, call)
  {
    hide InactiveCloses, ExceptionCloses;
    if acts != [] {
      AllCallsFutile(p, acts[1..], at, onForward);
    }
  }

  /** The handlers' reaction that lets a futile call come to nothing. */
  lemma FutileChoice(p: seq<Handler>, s: State, call: Call) returns (choice: nat)
    requires Framed(p) && Futile(p, call) && !s.closed && !s.dropped && !s.crashed
    ensures var (s', calls) := Effect(p, s, call, choice);
            && !s'.closed && !s'.dropped && !s'.crashed
            && forall c :: c in calls ==> Futile(p, c)
  {
    choice := 0;
    match call
    case WalkInactive(at) =>
      if 0 < at <= |p| {
        var j := PrevInactive(p, at);
        var before := InactiveCloses(p, j);
        choice :| !LeadsAmong(Chosen(p[j].inactive, choice), before, before);
        AllCallsFutile(p, Chosen(p[j].inactive, choice), j, WalkInactive(j));
      }
    case WalkException(at) =>
      if at + 1 < |p| {
        var j := NextException(p, at);
        choice :| !LeadsAmong(Chosen(p[j].exception, choice), ExceptionCloses(p, j), InactiveCloses(p, j));
        AllCallsFutile(p, Chosen(p[j].exception, choice), j, WalkException(j));
      }
    case _ =>
  }

  ghost predicate AllFutile(p: seq<Handler>, s: State)
    requires Framed(p)
  {
    && !s.closed && !s.dropped && !s.crashed
    && forall i, k :: 0 <= i < |s.threads| && 0 <= k < |s.threads[i]| ==> Futile(p, s.threads[i][k])
  }

  lemma FutileStep(p: seq<Handler>, s: State, thread: nat) returns (turn: Turn)
    requires Framed(p) && AllFutile(p, s) && Enabled(s, thread)
    ensures turn.thread == thread && AllFutile(p, Step(p, s, turn))
  {
    var stack := s.threads[thread];
    assert Futile(p, stack[0]);
    var choice := FutileChoice(p, s, stack[0]);
    turn := Turn(thread, choice);
    hide Effect, Futile;
    var calls := Effect(p, s, stack[0], choice).1;
    var e := Step(p, s, turn);
    forall i, k | 0 <= i < |e.threads| && 0 <= k < |e.threads[i]|
      ensures Futile(p, e.threads[i][k])
    {
      if i == thread {
        if k < |calls| {
          assert e.threads[i][k] == calls[k];
        } else {
          assert e.threads[i][k] == stack[k - |calls| + 1];
        }
      }
    }
  }

  /** From a state whose pending calls are all futile some schedule runs out with the channel open. */
  lemma {:induction false} FutileRun(p: seq<Handler>, s: State) returns (schedule: seq<Turn>)
    requires Framed(p) && AllFutile(p, s)
    ensures Runs(p, s, schedule)
    ensures var e := After(p, s, schedule); Quiescent(e) && !e.closed
    decreases Budget(p, s)
  {
    schedule := [];
    if !Quiescent(s) {
      var thread :| 0 <= thread < |s.threads| && s.threads[thread] != [];
      var turn := FutileStep(p, s, thread);
      StepSpends(p, s, turn);
      var rest := FutileRun(p, Step(p, s, turn));
      schedule := Prepend(p, s, turn, rest);
    }
  }

  lemma Prepend(p: seq<Handler>, s: State, turn: Turn, rest: seq<Turn>) returns (schedule: seq<Turn>)
    requires Framed(p) && Enabled(s, turn.thread) && Runs(p, Step(p, s, turn), rest)
    ensures schedule == [turn] + rest
    ensures Runs(p, s, schedule) && After(p, s, schedule) == After(p, Step(p, s, turn), rest)
  {
    schedule := [turn] + rest;
    assert schedule[1..] == rest;
  }

  /** Exactly when callers can count on the channel being closed once all pending calls have run out:
      when one of them calls Close, or no reaction of the handlers lets a reported failure come to
      nothing. */
  lemma AlwaysClosesIff(p: seq<Handler>, s: State)
    requires Framed(p) && Fresh(s) && !Quiescent(s)
    ensures (forall schedule :: Runs(p, s, schedule) && Quiescent(After(p, s, schedule)) ==>
                                  After(p, s, schedule).closed)
            <==> SomeoneCloses(s) || ExceptionCloses(p, 0)
  {
    if SomeoneCloses(s) || ExceptionCloses(p, 0) {
      forall schedule | Runs(p, s, schedule) && Quiescent(After(p, s, schedule))
        ensures After(p, s, schedule).closed
      {
        EveryReportCloses(p, s, schedule);
      }
    } else {
      var schedule := FutileRun(p, s);
    }
  }

  /** A handler that only sometimes swallows the exception may leave the channel open. */
  lemma SwallowedExceptionExample() returns (schedule: seq<Turn>)
    ensures var p := Pipeline([Handler(None, Acts([Forward], [[]]))]);
            var s := State(false, false, false, [], [[Post]], false);
            Runs(p, s, schedule) && Quiescent(After(p, s, schedule)) && !After(p, s, schedule).closed
  {
    var p := Pipeline([Handler(None, Acts([Forward], [[]]))]);
    assert NextException(p, 0) == 1 && Chosen(p[1].exception, 0) == [];
    assert !ExceptionCloses(p, 0);
    schedule := FutileRun(p, State(false, false, false, [], [[Post]], false));
  }

  /** No handler swallows an event, however it reacts. */
  ghost predicate Responsive(p: seq<Handler>) {
    forall i, choice: nat :: 0 <= i < |p| ==>
      && (p[i].inactive.Acts? ==> Chosen(p[i].inactive, choice) != [])
      && (p[i].exception.Acts? ==> Chosen(p[i].exception, choice) != [])
  }

  lemma OneActLeads(acts: seq<Act>, forward: bool, closeContext: bool)
    requires acts != [] && (acts[0] == Forward ==> forward) && (acts[0] == CloseContext ==> closeContext)
    ensures LeadsAmong(acts, forward, closeContext)
  {
    assert acts[0] in acts;
  }

  lemma {:induction false} ResponsiveInactive(p: seq<Handler>, at: nat)
    requires Framed(p) && Responsive(p) && 0 < at <= |p|
    ensures InactiveCloses(p, at)
    decreases at
  {
    var j := PrevInactive(p, at);
    if j > 0 {
      ResponsiveInactive(p, j);
    }
    forall choice: nat
      ensures LeadsAmong(Chosen(p[j].inactive, choice), InactiveCloses(p, j), InactiveCloses(p, j))
    {
      var acts := Chosen(p[j].inactive, choice);
      assert j == 0 ==> acts == [CloseChannel];
      OneActLeads(acts, j > 0, j > 0);
    }
  }

  /** Responsive handlers are enough. */
  lemma {:induction false} ResponsiveCloses(p: seq<Handler>, at: nat)
    requires Framed(p) && Responsive(p) && at + 1 < |p|
    ensures ExceptionCloses(p, at)
    decreases |p| - at
  {
    var j := NextException(p, at);
    ResponsiveInactive(p, j);
    if j + 1 < |p| {
      ResponsiveCloses(p, j);
    }
    forall choice: nat
      ensures LeadsAmong(Chosen(p[j].exception, choice), ExceptionCloses(p, j), InactiveCloses(p, j))
    {
      var acts := Chosen(p[j].exception, choice);
      assert j == |p| - 1 ==> acts == [CloseContext];
      OneActLeads(acts, j + 1 < |p|, true);
    }
  }

  // ----- who hears of it -----

  /** What a note obliges the cascade to: a walk to make, and the handler that walk meets. */
  datatype Duty = NoDuty | Duty(walk: Call, meeting: Note)

  /** Passes the event on, however it reacts. */
  ghost predicate PassesOn(r: Reaction) {
    r.Acts? && forall choice: nat :: Forward in Chosen(r, choice)
  }

  ghost function DutyOf(p: seq<Handler>, note: Note): Duty
    requires Framed(p)
  {
    match note
    case InactiveFired => Duty(WalkInactive(|p| - 1), MetInactive(PrevInactive(p, |p| - 1)))
    case MetInactive(j) =>
      if 0 < j < |p| && PassesOn(p[j].inactive) then Duty(WalkInactive(j), MetInactive(PrevInactive(p, j)))
      else NoDuty
    case ExceptionFired => Duty(WalkException(0), MetException(NextException(p, 0)))
    case MetException(j) =>
      if j + 1 < |p| && PassesOn(p[j].exception) then Duty(WalkException(j), MetException(NextException(p, j)))
      else NoDuty
    case _ => NoDuty
  }

  ghost predicate Awaits(s: State, call: Call) {
    exists i, k :: 0 <= i < |s.threads| && 0 <= k < |s.threads[i]| && s.threads[i][k] == call
  }

  ghost predicate Dutiful(p: seq<Handler>, s: State)
    requires Framed(p)
  {
    forall n :: n in s.log && DutyOf(p, n).Duty? ==> Awaits(s, DutyOf(p, n).walk) || DutyOf(p, n).meeting in s.log
  }

  lemma {:induction false} ForwardCalls(acts: seq<Act>, at: nat, onForward: Call)
    requires Forward in acts
    ensures onForward in Calls(acts, at, onForward)
  {
    if acts[0] != Forward {
      ForwardCalls(acts[1..], at, onForward);
      assert Calls(acts, at, onForward)[1..] == Calls(acts[1..], at, onForward);
    }
  }

  /** A call that is made notes what is owed to it, and takes on what it notes. */
  ghost predicate DoesDuty(p: seq<Handler>, s: State, call: Call, s': State, calls: seq<Call>)
    requires Framed(p)
  {
    && s.log <= s'.log
    && (forall n :: DutyOf(p, n).Duty? && DutyOf(p, n).walk == call ==> DutyOf(p, n).meeting in s'.log)
    && (forall n :: n in s'.log && n !in s.log && DutyOf(p, n).Duty? ==> DutyOf(p, n).walk in calls)
  }

  lemma InactiveDuty(p: seq<Handler>, s: State, at: nat, choice: nat)
    requires Framed(p)
    ensures var (s', calls) := Effect(p, s, WalkInactive(at), choice); DoesDuty(p, s, WalkInactive(at), s', calls)
  {
    if 0 < at <= |p| {
      var j := PrevInactive(p, at);
      var acts := Chosen(p[j].inactive, choice);
      assert MetInactive(j) in Effect(p, s, WalkInactive(at), choice).0.log;
      if Forward in acts {
        ForwardCalls(acts, j, WalkInactive(j));
      }
      hide Calls, Chosen;
    }
  }

  lemma ExceptionDuty(p: seq<Handler>, s: State, at: nat, choice: nat)
    requires Framed(p)
    ensures var (s', calls) := Effect(p, s, WalkException(at), choice); DoesDuty(p, s, WalkException(at), s', calls)
  {
    if at + 1 < |p| {
      var j := NextException(p, at);
      var acts := Chosen(p[j].exception, choice);
      assert MetException(j) in Effect(p, s, WalkException(at), choice).0.log;
      if Forward in acts {
        ForwardCalls(acts, j, WalkException(j));
      }
      hide Calls, Chosen;
    }
  }

  lemma CallDoesDuty(p: seq<Handler>, s: State, call: Call, choice: nat)
    requires Framed(p)
    ensures var (s', calls) := Effect(p, s, call, choice); DoesDuty(p, s, call, s', calls)
  {
    match call
    case WalkInactive(at) => InactiveDuty(p, s, at, choice);
    case WalkException(at) => ExceptionDuty(p, s, at, choice);
    case _ => hide InactiveCalls, ExceptionCalls;
  }

  lemma StepKeepsDutiful(p: seq<Handler>, s: State, turn: Turn)
    requires Framed(p) && Dutiful(p, s) && Enabled(s, turn.thread)
    ensures Dutiful(p, Step(p, s, turn))
  {
    var t := turn.thread;
    var stack := s.threads[t];
    CallDoesDuty(p, s, stack[0], turn.choice);
    hide Effect, DutyOf;
    var calls := Effect(p, s, stack[0], turn.choice).1;
    var e := Step(p, s, turn);
    forall n | n in e.log && DutyOf(p, n).Duty?
      ensures Awaits(e, DutyOf(p, n).walk) || DutyOf(p, n).meeting in e.log
    {
      var walk := DutyOf(p, n).walk;
      if n !in s.log {
        var k :| 0 <= k < |calls| && calls[k] == walk;
        assert e.threads[t][k] == walk;
      } else if Awaits(s, walk) && walk != stack[0] {
        var i, k :| 0 <= i < |s.threads| && 0 <= k < |s.threads[i]| && s.threads[i][k] == walk;
        if i == t {
          assert e.threads[t][|calls| + k - 1] == walk;
        } else {
          assert e.threads[i][k] == walk;
        }
      }
    }
  }

  lemma {:induction false} RunKeepsDutiful(p: seq<Handler>, s: State, schedule: seq<Turn>)
    requires Framed(p) && Dutiful(p, s) && Runs(p, s, schedule)
    ensures Dutiful(p, After(p, s, schedule))
    decreases |schedule|
  {
    if schedule != [] {
      StepKeepsDutiful(p, s, schedule[0]);
      hide Step, Dutiful;
      RunKeepsDutiful(p, Step(p, s, schedule[0]), schedule[1..]);
    }
  }

  /** Every handler from `j` exclusive up to `at` exclusive passes the inactive event on, or does not
      listen to it. */
  ghost predicate PassedOnTo(p: seq<Handler>, j: nat, at: nat) {
    forall i :: j < i < at && i < |p| ==> p[i].inactive.None? || PassesOn(p[i].inactive)
  }

  lemma {:induction false} WalkMeets(p: seq<Handler>, e: State, at: nat, j: nat)
    requires Framed(p) && Dutiful(p, e) && Quiescent(e) && j < at <= |p| - 1
    requires p[j].inactive.Acts? && PassedOnTo(p, j, at)
    requires MetInactive(PrevInactive(p, at)) in e.log
    ensures MetInactive(j) in e.log
    decreases at
  {
    var m := PrevInactive(p, at);
    if m != j {
      assert j < m;
      assert PassesOn(p[m].inactive);
      assert DutyOf(p, MetInactive(m)) == Duty(WalkInactive(m), MetInactive(PrevInactive(p, m)));
      WalkMeets(p, e, m, j);
    }
  }

  /** Once all is quiet after a Close, whoever called and whatever else happened, every handler below the
      tail that listens to the inactive event has met it, if those between it and the tail pass it on;
      the nearest one always has. */
  lemma ClosingIsHeard(p: seq<Handler>, s: State, schedule: seq<Turn>, j: nat)
    requires Framed(p) && Fresh(s) && Runs(p, s, schedule)
    requires var e := After(p, s, schedule); Quiescent(e) && e.closed
    requires j < |p| - 1 && p[j].inactive.Acts? && PassedOnTo(p, j, |p| - 1)
    ensures MetInactive(j) in After(p, s, schedule).log
  {
    var e := After(p, s, schedule);
    AtMostOnce(p, s, schedule);
    NotedIn(e.log, InactiveFired);
    RunKeepsDutiful(p, s, schedule);
    assert DutyOf(p, InactiveFired).meeting in e.log;
    WalkMeets(p, e, |p| - 1, j);
  }

  /** The same towards the tail, for the exception event. */
  ghost predicate PassedOnFrom(p: seq<Handler>, at: nat, j: nat) {
    forall i :: at < i < j && i < |p| ==> p[i].exception.None? || PassesOn(p[i].exception)
  }

  lemma {:induction false} ExceptionMeets(p: seq<Handler>, e: State, at: nat, j: nat)
    requires Framed(p) && Dutiful(p, e) && Quiescent(e) && at < j < |p|
    requires p[j].exception.Acts? && PassedOnFrom(p, at, j)
    requires MetException(NextException(p, at)) in e.log
    ensures MetException(j) in e.log
    decreases |p| - at
  {
    var m := NextException(p, at);
    if m != j {
      assert m < j;
      assert PassesOn(p[m].exception);
      assert DutyOf(p, MetException(m)) == Duty(WalkException(m), MetException(NextException(p, m)));
      ExceptionMeets(p, e, m, j);
    }
  }

  lemma ReportIsHeard(p: seq<Handler>, s: State, schedule: seq<Turn>, j: nat)
    requires Framed(p) && Fresh(s) && Runs(p, s, schedule)
    requires var e := After(p, s, schedule); Quiescent(e) && ExceptionFired in e.log
    requires 0 < j < |p| && p[j].exception.Acts? && PassedOnFrom(p, 0, j)
    ensures MetException(j) in After(p, s, schedule).log
  {
    var e := After(p, s, schedule);
    RunKeepsDutiful(p, s, schedule);
    assert DutyOf(p, ExceptionFired).meeting in e.log;
    ExceptionMeets(p, e, 0, j);
  }

  lemma {:induction false} NotedIn(log: seq<Note>, note: Note)
    ensures Noted(log, note) > 0 <==> note in log
  {
    if log != [] {
      var n := |log| - 1;
      NotedIn(log[..n], note);
      assert log == log[..n] + [log[n]];
    }
  }

  // ----- the whole script of a Close -----

  /** The handlers an inactive walk from `at` meets when each passes it on. */
  function Chain(p: seq<Handler>, at: nat): seq<Note>
    requires Framed(p)
    decreases at
  {
    if at == 0 || at > |p| then []
    else var j := PrevInactive(p, at); [MetInactive(j)] + Chain(p, j)
  }

  /** They are exactly those that listen, each once, from the last one down to the head. */
  lemma {:induction false} ChainIs(p: seq<Handler>, at: nat)
    requires Framed(p) && 0 < at <= |p|
    ensures var c := Chain(p, at);
            && c != [] && c[|c| - 1] == MetInactive(0)
            && (forall i :: 0 <= i < |c| ==> c[i].MetInactive? && c[i].at < at)
            && (forall i, k :: 0 <= i < k < |c| ==> c[i].at > c[k].at)
            && (forall j :: 0 <= j < at ==> (MetInactive(j) in c <==> p[j].inactive.Acts?))
    decreases at
  {
    var j := PrevInactive(p, at);
    if j > 0 {
      ChainIs(p, j);
    }
  }

  /** Handlers between the sentinels pass the inactive event on, once, or do not listen. */
  predicate ForwardsOnce(p: seq<Handler>) {
    forall i :: 0 < i < |p| - 1 ==> p[i].inactive.None? || p[i].inactive == Acts([Forward], [])
  }

  /** Transport, event, handlers from the tail down to the head, pipeline. */
  function Script(p: seq<Handler>): seq<Note>
    requires Framed(p)
  {
    [TransportClosed, InactiveFired] + Chain(p, |p| - 1) + [PipelineDropped]
  }

  /** What a call of the cascade will have noted when it returns. */
  function Due(p: seq<Handler>, call: Call): seq<Note>
    requires Framed(p)
  {
    match call
    case CloseTransport => [TransportClosed]
    case FireInactive => [InactiveFired] + Chain(p, |p| - 1)
    case WalkInactive(at) => Chain(p, at)
    case DropPipeline => [PipelineDropped]
    case _ => []
  }

  function StillToNote(p: seq<Handler>, stack: seq<Call>): seq<Note>
    requires Framed(p)
  {
    if stack == [] then [] else Due(p, stack[0]) + StillToNote(p, stack[1..])
  }

  lemma NoteOne(p: seq<Handler>, call: Call)
    requires Framed(p)
    ensures StillToNote(p, [call]) == Due(p, call)
  {
    hide Due;
    assert [call][1..] == [];
    assert Due(p, call) + [] == Due(p, call);
  }

  predicate OnlyCloses(stack: seq<Call>) {
    forall k :: 0 <= k < |stack| ==> stack[k] == Close
  }

  lemma {:induction false} ClosesNoteNothing(p: seq<Handler>, stack: seq<Call>)
    requires Framed(p) && OnlyCloses(stack)
    ensures StillToNote(p, stack) == []
  {
    if stack != [] {
      ClosesNoteNothing(p, stack[1..]);
    }
  }

  /** A call of the cascade itself. */
  predicate Closing(p: seq<Handler>, call: Call) {
    call.Close? || call.CloseTransport? || call.FireInactive? || call.DropPipeline?
    || (call.WalkInactive? && call.at < |p|)
  }

  /** One goroutine is doing all the closing, and what it has noted and still will is the script. */
  ghost predicate OneCloser(p: seq<Handler>, s: State, w: nat)
    requires Framed(p)
  {
    && !s.crashed && w < |s.threads|
    && (forall i :: 0 <= i < |s.threads| && i != w ==> OnlyCloses(s.threads[i]))
    && (if s.closed then
          && (forall k :: 0 <= k < |s.threads[w]| ==> Closing(p, s.threads[w][k]))
          && s.log + StillToNote(p, s.threads[w]) == Script(p)
        else s.log == [] && OnlyCloses(s.threads[w]))
  }

  lemma Regroup(a: seq<Note>, b: seq<Note>, c: seq<Note>)
    ensures (a + b) + c == a + (b + c)
  {
  }

  lemma {:induction false} NoteSplit(p: seq<Handler>, a: seq<Call>, b: seq<Call>)
    requires Framed(p)
    ensures StillToNote(p, a + b) == StillToNote(p, a) + StillToNote(p, b)
  {
    hide Due;
    if a == [] {
      assert a + b == b && [] + StillToNote(p, b) == StillToNote(p, b);
    } else {
      NoteSplit(p, a[1..], b);
      assert (a + b)[0] == a[0] && (a + b)[1..] == a[1..] + b;
      Regroup(Due(p, a[0]), StillToNote(p, a[1..]), StillToNote(p, b));
    }
  }

  /** One call of the closing goroutine notes the first part of what is due, and its calls the rest. */
  lemma CloserCall(p: seq<Handler>, s: State, call: Call, choice: nat) returns (notes: seq<Note>)
    requires Framed(p) && ForwardsOnce(p) && s.closed && !s.crashed && Closing(p, call)
    ensures var (s', calls) := Effect(p, s, call, choice);
            && s'.closed && !s'.crashed && s'.log == s.log + notes
            && (forall k :: 0 <= k < |calls| ==> Closing(p, calls[k]))
            && notes + StillToNote(p, calls) == Due(p, call)
  {
    notes := [];
    hide StillToNote;
    NoneToNote(p);
    match call
    case CloseTransport => notes := [TransportClosed];
    case DropPipeline => notes := [PipelineDropped];
    case FireInactive =>
      notes := [InactiveFired];
      NoteOne(p, WalkInactive(|p| - 1));
    case WalkInactive(at) =>
      if at > 0 {
        var j := PrevInactive(p, at);
        notes := [MetInactive(j)];
        WalkInactiveOnce(p, at, choice);
        hide InactiveCalls;
        NoteOne(p, WalkInactive(j));
        NoteOne(p, Close);
      }
    case _ =>
  }

  lemma NoneToNote(p: seq<Handler>)
    requires Framed(p)
    ensures StillToNote(p, []) == []
  {
  }

  /** The same on its stack. */
  lemma CloserStack(p: seq<Handler>, s: State, stack: seq<Call>, choice: nat)
    requires Framed(p) && ForwardsOnce(p) && s.closed && stack != [] && !s.crashed
    requires forall k :: 0 <= k < |stack| ==> Closing(p, stack[k])
    ensures var (s', calls) := Effect(p, s, stack[0], choice);
            && s'.closed && !s'.crashed
            && (forall k :: 0 <= k < |calls| ==> Closing(p, calls[k]))
            && s'.log + StillToNote(p, calls + stack[1..]) == s.log + StillToNote(p, stack)
  {
    var rest := StillToNote(p, stack[1..]);
    assert StillToNote(p, stack) == Due(p, stack[0]) + rest;
    var notes := CloserCall(p, s, stack[0], choice);
    hide Effect, StillToNote, Closing, Due;
    var (s', calls) := Effect(p, s, stack[0], choice);
    NoteSplit(p, calls, stack[1..]);
    Regroup(s.log, notes, StillToNote(p, calls) + rest);
    Regroup(notes, StillToNote(p, calls), rest);
  }

  lemma WalkInactiveOnce(p: seq<Handler>, at: nat, choice: nat)
    requires Framed(p) && ForwardsOnce(p) && 0 < at < |p|
    ensures var j := PrevInactive(p, at);
            InactiveCalls(p, at, choice) == if j == 0 then [Close] else [WalkInactive(j)]
  {
    var j := PrevInactive(p, at);
    var acts := Chosen(p[j].inactive, choice);
    assert acts == if j == 0 then [CloseChannel] else [Forward];
    assert acts[1..] == [];
  }

  lemma CloserStep(p: seq<Handler>, s: State, w: nat, turn: Turn) returns (w': nat)
    requires Framed(p) && ForwardsOnce(p) && OneCloser(p, s, w) && Enabled(s, turn.thread)
    ensures OneCloser(p, Step(p, s, turn), w')
  {
    w' := w;
    var t := turn.thread;
    var stack := s.threads[t];
    var e := Step(p, s, turn);
    if !s.closed {
      w' := t;
      FirstClose(p, s, turn);
    } else if t == w {
      CloserStack(p, s, stack, turn.choice);
      hide Effect, Script, StillToNote;
      var calls := Effect(p, s, stack[0], turn.choice).1;
      forall k | 0 <= k < |e.threads[w]|
        ensures Closing(p, e.threads[w][k])
      {
        assert e.threads[w][k] == if k < |calls| then calls[k] else stack[k - |calls| + 1];
      }
    } else {
      assert stack[0] == Close;
      assert e.threads[t] == stack[1..];
    }
  }

  lemma FirstClose(p: seq<Handler>, s: State, turn: Turn)
    requires Framed(p) && Enabled(s, turn.thread) && !s.closed && s.log == []
    requires forall i :: 0 <= i < |s.threads| ==> OnlyCloses(s.threads[i])
    ensures OneCloser(p, Step(p, s, turn), turn.thread)
  {
    var e := Step(p, s, turn);
    var rest := s.threads[turn.thread][1..];
    var own := e.threads[turn.thread];
    assert own == [CloseTransport, FireInactive, DropPipeline] + rest;
    assert e.log + StillToNote(p, own) == StillToNote(p, own);
    ClosesNoteNothing(p, rest);
    ScriptIsDue(p, own, rest);
  }

  lemma ScriptIsDue(p: seq<Handler>, own: seq<Call>, rest: seq<Call>)
    requires Framed(p) && own == [CloseTransport, FireInactive, DropPipeline] + rest && StillToNote(p, rest) == []
    ensures StillToNote(p, own) == Script(p)
  {
    var own1, own2 := [FireInactive, DropPipeline] + rest, [DropPipeline] + rest;
    assert own[1..] == own1 && own1[1..] == own2 && own2[1..] == rest;
    var chain := Chain(p, |p| - 1);
    hide Chain;
    assert StillToNote(p, own2) == [PipelineDropped] + [];
    assert StillToNote(p, own1) == ([InactiveFired] + chain) + [PipelineDropped];
    Regroup([TransportClosed], [InactiveFired] + chain, [PipelineDropped]);
    Regroup([TransportClosed], [InactiveFired], chain);
    assert [TransportClosed] + [InactiveFired] == [TransportClosed, InactiveFired];
  }

  lemma {:induction false} CloserRun(p: seq<Handler>, s: State, w: nat, schedule: seq<Turn>) returns (w': nat)
    requires Framed(p) && ForwardsOnce(p) && OneCloser(p, s, w) && Runs(p, s, schedule)
    ensures OneCloser(p, After(p, s, schedule), w')
    decreases |schedule|
  {
    w' := w;
    if schedule != [] {
      w' := CloserStep(p, s, w, schedule[0]);
      hide OneCloser, Step;
      w' := CloserRun(p, Step(p, s, schedule[0]), w', schedule[1..]);
    }
  }

  /** However many goroutines call Close, and however often: when all is quiet the transport was closed,
      the inactive event fired and met every handler that listens, from the last down to the head, and the
      pipeline dropped - each once, in this order, and nothing else. */
  lemma CloseFollowsScript(p: seq<Handler>, s: State, schedule: seq<Turn>)
    requires Framed(p) && ForwardsOnce(p) && Fresh(s) && SomeoneCloses(s)
    requires forall i :: 0 <= i < |s.threads| ==> OnlyCloses(s.threads[i])
    requires Runs(p, s, schedule) && Quiescent(After(p, s, schedule))
    ensures After(p, s, schedule).log == Script(p)
  {
    var w := CloserRun(p, s, 0, schedule);
    EveryReportCloses(p, s, schedule);
    var e := After(p, s, schedule);
    assert e.threads[w] == [] && e.log + [] == e.log;
  }

  // ----- the nil pipeline -----

  /** The two calls of postCloseEvent behind its compare-and-swap. */
  predicate Reporting(call: Call) {
    call.CheckClosed? || call.FireException?
  }

  predicate NoneReporting(stack: seq<Call>) {
    forall k :: 0 <= k < |stack| ==> !Reporting(stack[k])
  }

  lemma {:induction false} HandlersNeverReport(acts: seq<Act>, at: nat, onForward: Call)
    requires !Reporting(onForward)
    ensures NoneReporting(Calls(acts, at, onForward))
  {
    if acts != [] {
      HandlersNeverReport(acts[1..], at, onForward);
    }
  }

  /** Once the report is made, or for a call that is none, nothing reports or crashes. */
  lemma SilentCall(p: seq<Handler>, s: State, call: Call, choice: nat)
    requires Framed(p) && !Reporting(call) && (call == Post ==> s.posted)
    ensures var (s', calls) := Effect(p, s, call, choice);
            && NoneReporting(calls) && s'.crashed == s.crashed && s'.posted == s.posted
            && s'.dropped == (s.dropped || call == DropPipeline)
            && s'.closed == (s.closed || call == Close)
            && (call == Close && !s.closed ==> DropPipeline in calls)
  {
    match call
    case WalkInactive(at) =>
      if 0 < at <= |p| {
        var j := PrevInactive(p, at);
        HandlersNeverReport(Chosen(p[j].inactive, choice), j, WalkInactive(j));
      }
    case WalkException(at) =>
      if at + 1 < |p| {
        var j := NextException(p, at);
        HandlersNeverReport(Chosen(p[j].exception, choice), j, WalkException(j));
      }
    case Close => assert [CloseTransport, FireInactive, DropPipeline][2] == DropPipeline;
    case _ =>
  }

  /** This goroutine has dropped the pipeline, or will. */
  predicate WillDrop(s: State, thread: nat) {
    s.dropped || (thread < |s.threads| &&
                  (DropPipeline in s.threads[thread] || (!s.closed && Close in s.threads[thread])))
  }

  lemma SilentStep(p: seq<Handler>, s: State, turn: Turn)
    requires Framed(p) && Enabled(s, turn.thread) && NoneReporting(s.threads[turn.thread])
    requires s.threads[turn.thread][0] == Post ==> s.posted
    ensures var e := Step(p, s, turn);
            && |e.threads| == |s.threads| && NoneReporting(e.threads[turn.thread]) && !e.crashed
            && e.posted == s.posted
            && (forall i :: 0 <= i < |s.threads| && i != turn.thread ==> e.threads[i] == s.threads[i])
            && (WillDrop(s, turn.thread) ==> WillDrop(e, turn.thread))
            && (s.closed ==> e.closed)
  {
    var stack := s.threads[turn.thread];
    SilentCall(p, s, stack[0], turn.choice);
    hide Effect, Reporting;
    var calls := Effect(p, s, stack[0], turn.choice).1;
    var now := Step(p, s, turn).threads[turn.thread];
    forall k | 0 <= k < |now|
      ensures !Reporting(now[k])
    {
      assert now[k] == if k < |calls| then calls[k] else stack[k - |calls| + 1];
    }
    forall call | call in stack && call != stack[0]
      ensures call in now
    {
      assert call in stack[1..];
    }
  }

  /** After the report is claimed a goroutine that closes can run to its end, the others standing still,
      and leaves no pipeline. */
  lemma {:induction false} CloserRunsOut(p: seq<Handler>, s: State, thread: nat) returns (schedule: seq<Turn>)
    requires Framed(p) && thread < |s.threads| && NoneReporting(s.threads[thread]) && !s.crashed && s.posted
    requires WillDrop(s, thread)
    ensures Runs(p, s, schedule)
    ensures var e := After(p, s, schedule);
            && |e.threads| == |s.threads| && e.dropped && !e.crashed
            && forall i :: 0 <= i < |s.threads| && i != thread ==> e.threads[i] == s.threads[i]
    decreases Budget(p, s)
  {
    schedule := [];
    if s.threads[thread] != [] {
      var turn := Turn(thread, 0);
      SilentStep(p, s, turn);
      StepSpends(p, s, turn);
      hide Step, WillDrop;
      var rest := CloserRunsOut(p, Step(p, s, turn), thread);
      schedule := Prepend(p, s, turn, rest);
    }
  }

  lemma {:induction false} Append(p: seq<Handler>, s: State, schedule: seq<Turn>, turn: Turn)
    requires Framed(p) && Runs(p, s, schedule) && Enabled(After(p, s, schedule), turn.thread)
    ensures Runs(p, s, schedule + [turn])
    ensures After(p, s, schedule + [turn]) == Step(p, After(p, s, schedule), turn)
    decreases |schedule|
  {
    if schedule == [] {
      assert [turn][1..] == [] && schedule + [turn] == [turn];
    } else {
      Append(p, Step(p, s, schedule[0]), schedule[1..], turn);
      assert (schedule + [turn])[1..] == schedule[1..] + [turn];
    }
  }

  /** Goroutine i reports first of all, and another one, j, closes. */
  predicate Collide(s: State, i: nat, j: nat) {
    && i < |s.threads| && j < |s.threads| && i != j
    && s.threads[i] != [] && s.threads[i][0] == Post && Close in s.threads[j]
  }

  /** The race: the reporter loads `closed` as unset, the other goroutine closes and drops the pipeline,
      and the reporter then fires its exception on nil. */
  lemma Race(p: seq<Handler>, s: State, reporter: nat, closer: nat) returns (schedule: seq<Turn>)
    requires Framed(p) && Fresh(s) && Collide(s, reporter, closer)
    ensures Runs(p, s, schedule) && After(p, s, schedule).crashed
  {
    var r := Turn(reporter, 0);
    var s1 := Step(p, s, r);
    assert s1.threads[reporter][0] == CheckClosed && s1.threads[closer] == s.threads[closer];
    var s2 := Step(p, s1, r);
    assert s2.threads[reporter][0] == FireException && s2.threads[closer] == s.threads[closer];
    assert NoneReporting(s2.threads[closer]);
    assert WillDrop(s2, closer);
    schedule := CloserRunsOut(p, s2, closer);
    Append(p, s2, schedule, r);
    schedule := schedule + [r];
    hide Runs, After;
    schedule := Prepend(p, s1, r, schedule);
    schedule := Prepend(p, s, r, schedule);
  }

  // Without such a pair, either nobody reports before the channel is closed ...

  /** Reports come too late: where the channel is open every goroutine closes first. */
  ghost predicate LateReports(s: State) {
    && !s.crashed
    && (forall i, k :: 0 <= i < |s.threads| && 0 <= k < |s.threads[i]| ==> !s.threads[i][k].FireException?)
    && (!s.closed ==>
          forall i :: 0 <= i < |s.threads| ==>
            s.threads[i] == [] || s.threads[i][0] == Close)
  }

  lemma LateStep(p: seq<Handler>, s: State, turn: Turn)
    requires Framed(p) && LateReports(s) && Enabled(s, turn.thread)
    ensures LateReports(Step(p, s, turn))
  {
    var stack := s.threads[turn.thread];
    NoFireHere(p, s, stack[0], turn.choice);
    hide Effect;
    var calls := Effect(p, s, stack[0], turn.choice).1;
    var e := Step(p, s, turn);
    forall i, k | 0 <= i < |e.threads| && 0 <= k < |e.threads[i]|
      ensures !e.threads[i][k].FireException?
    {
      if i == turn.thread {
        assert e.threads[i][k] == if k < |calls| then calls[k] else stack[k - |calls| + 1];
      }
    }
  }

  lemma NoFireHere(p: seq<Handler>, s: State, call: Call, choice: nat)
    requires Framed(p) && !s.crashed && !call.FireException? && (!s.closed ==> call == Close)
    ensures var (s', calls) := Effect(p, s, call, choice);
            !s'.crashed && s'.closed && forall k :: 0 <= k < |calls| ==> !calls[k].FireException?
  {
    if call != Post && call != CheckClosed {
      SilentCall(p, s, call, choice);
    }
  }

  lemma {:induction false} LateNeverCrash(p: seq<Handler>, s: State, schedule: seq<Turn>)
    requires Framed(p) && LateReports(s) && Runs(p, s, schedule)
    ensures !After(p, s, schedule).crashed
    decreases |schedule|
  {
    if schedule != [] {
      LateStep(p, s, schedule[0]);
      LateNeverCrash(p, Step(p, s, schedule[0]), schedule[1..]);
    }
  }

  // ... or the one that reports is the only one that closes.

  ghost predicate OneReporter(s: State, winner: nat) {
    && !s.crashed && s.posted && winner < |s.threads|
    && (forall i, k :: 0 <= i < |s.threads| && i != winner && 0 <= k < |s.threads[i]| ==> s.threads[i][k] == Post)
    && (s.threads[winner] != [] ==>
          NoneReporting(s.threads[winner][1..]) && (Reporting(s.threads[winner][0]) ==> !s.dropped))
  }

  lemma StepKeepsOneReporter(p: seq<Handler>, s: State, winner: nat, turn: Turn)
    requires Framed(p) && OneReporter(s, winner) && Enabled(s, turn.thread)
    ensures OneReporter(Step(p, s, turn), winner)
  {
    var stack := s.threads[turn.thread];
    var e := Step(p, s, turn);
    if turn.thread == winner && Reporting(stack[0]) {
      ReportStep(p, s, turn);
    } else {
      assert NoneReporting(stack) by {
        assert forall k :: 0 < k < |stack| ==> stack[k] == stack[1..][k - 1];
      }
      SilentStep(p, s, turn);
      if turn.thread == winner {
        assert NoneReporting(e.threads[winner]);
      } else {
        assert s.threads[turn.thread][0] == Post;
        assert e.threads[turn.thread] == stack[1..];
      }
    }
  }

  lemma ReportStep(p: seq<Handler>, s: State, turn: Turn)
    requires Framed(p) && Enabled(s, turn.thread) && !s.dropped
    requires var stack := s.threads[turn.thread]; Reporting(stack[0]) && NoneReporting(stack[1..])
    ensures var e := Step(p, s, turn);
            && !e.crashed && !e.dropped && e.posted == s.posted && |e.threads| == |s.threads|
            && (forall i :: 0 <= i < |s.threads| && i != turn.thread ==> e.threads[i] == s.threads[i])
            && var now := e.threads[turn.thread]; now != [] ==> NoneReporting(now[1..])
  {
    var rest := s.threads[turn.thread][1..];
    var calls := Effect(p, s, s.threads[turn.thread][0], turn.choice).1;
    if calls == [] {
      assert calls + rest == rest;
      assert rest != [] ==> NoneReporting(rest[1..]);
    } else {
      assert (calls + rest)[1..] == rest;
    }
  }

  lemma {:induction false} ReporterNeverCrashes(p: seq<Handler>, s: State, winner: nat, schedule: seq<Turn>)
    requires Framed(p) && OneReporter(s, winner) && Runs(p, s, schedule)
    ensures !After(p, s, schedule).crashed
    decreases |schedule|
  {
    if schedule != [] {
      StepKeepsOneReporter(p, s, winner, schedule[0]);
      ReporterNeverCrashes(p, Step(p, s, schedule[0]), winner, schedule[1..]);
    }
  }

  lemma FirstReport(p: seq<Handler>, s: State, turn: Turn)
    requires Framed(p) && Fresh(s) && Enabled(s, turn.thread) && s.threads[turn.thread][0] == Post
    requires forall i, j :: !Collide(s, i, j)
    ensures OneReporter(Step(p, s, turn), turn.thread)
  {
    var e := Step(p, s, turn);
    var stack := s.threads[turn.thread];
    assert e.threads[turn.thread] == [CheckClosed] + stack[1..];
    assert e.threads[turn.thread][1..] == stack[1..];
    forall i, k | 0 <= i < |e.threads| && i != turn.thread && 0 <= k < |e.threads[i]|
      ensures e.threads[i][k] == Post
    {
      assert !Collide(s, turn.thread, i);
    }
  }

  lemma NeverCrashes(p: seq<Handler>, s: State, schedule: seq<Turn>)
    requires Framed(p) && Fresh(s) && Runs(p, s, schedule)
    requires forall i, j :: !Collide(s, i, j)
    ensures !After(p, s, schedule).crashed
  {
    if schedule != [] {
      var turn := schedule[0];
      if s.threads[turn.thread][0] == Post {
        FirstReport(p, s, turn);
        ReporterNeverCrashes(p, Step(p, s, turn), turn.thread, schedule[1..]);
      } else {
        forall i | 0 <= i < |s.threads|
          ensures s.threads[i] == [] || s.threads[i][0] == Close
        {
          assert !Collide(s, i, turn.thread);
        }
        LateNeverCrash(p, s, schedule);
      }
    }
  }

  /** Whatever the pipeline and its handlers, some schedule of the callers uses the nil pipeline if and
      only if one goroutine reports a failure before anything else and another one closes. */
  lemma NilPipelineIff(p: seq<Handler>, s: State)
    requires Framed(p) && Fresh(s)
    ensures (exists schedule :: Runs(p, s, schedule) && After(p, s, schedule).crashed)
            <==> exists i, j :: Collide(s, i, j)
  {
    if i, j :| Collide(s, i, j) {
      var schedule := Race(p, s, i, j);
    } else {
      forall schedule | Runs(p, s, schedule)
        ensures !After(p, s, schedule).crashed
      {
        NeverCrashes(p, s, schedule);
      }
    }
  }
}
