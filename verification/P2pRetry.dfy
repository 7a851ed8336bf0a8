/** The retry budget: how often an attempt is tried, what its exhaustion costs, and when forwarded
    packets stop starting new ones. */
module P2pRetry {
  import opened Bits
  import opened P2pModel
  import opened P2pRuns

  ghost predicate Distinct(keys: seq<Mac>) {
    forall i, j :: 0 <= i < j < |keys| ==> keys[i] != keys[j]
  }

  // ----- one attempt under a sweep -----

  lemma VisitTryingAt(c: Config, s: State, key: Mac, k: Mac)
    requires Filed(s) && k in s.trying
    ensures var (s', gone) := VisitTrying(c, s, key);
            var r := s.trying[k];
            var spent := s.contexts[r].tries >= c.tryLimit;
            && s'.trying == s.trying && |s'.contexts| == |s.contexts|
            && (key != k ==> s'.contexts[r] == s.contexts[r] && k !in gone)
            && (key == k ==> gone == (if spent then [k] else []) &&
                             s'.contexts[r].tries == s.contexts[r].tries + (if spent then 0 else 1))
            && (forall m :: m in gone ==> m == key)
            && |gone| <= 1
  {
    if key in s.trying && key != k {
      assert s.contexts[s.trying[key]].mac == key;
      assert s.trying[key] != s.trying[k];
    }
  }

  lemma {:induction false} SweepTryingAt(c: Config, s: State, keys: seq<Mac>, k: Mac)
    requires Filed(s) && Distinct(keys) && k in s.trying
    ensures var (s', gone) := SweepTrying(c, s, keys);
            var r := s.trying[k];
            var spent := s.contexts[r].tries >= c.tryLimit;
            && s'.trying == s.trying && |s'.contexts| == |s.contexts|
            && (k in gone <==> k in keys && spent)
            && s'.contexts[r].tries == s.contexts[r].tries + (if k in keys && !spent then 1 else 0)
    decreases |keys|
  {
    if keys != [] {
      var (s1, first) := VisitTrying(c, s, keys[0]);
      VisitTryingTries(c, s, keys[0]);
      VisitTryingAt(c, s, keys[0], k);
      hide VisitTrying, Filed, Tried;
      SweepTryingAt(c, s1, keys[1..], k);
      assert k in keys <==> k == keys[0] || k in keys[1..];
    }
  }

  /** Only keys of the range are given up, each at most once. */
  lemma {:induction false} GoneComesFromKeys(c: Config, s: State, keys: seq<Mac>)
    requires Filed(s) && Distinct(keys)
    ensures var gone := SweepTrying(c, s, keys).1;
            Distinct(gone) && forall m :: m in gone ==> m in keys
    decreases |keys|
  {
    if keys != [] {
      var (s1, first) := VisitTrying(c, s, keys[0]);
      VisitTryingTries(c, s, keys[0]);
      GivenUpIsKey(c, s, keys[0]);
      hide VisitTrying, Filed, Tried;
      GoneComesFromKeys(c, s1, keys[1..]);
      var more := SweepTrying(c, s1, keys[1..]).1;
      assert keys[0] !in keys[1..];
    }
  }

  lemma GivenUpIsKey(c: Config, s: State, key: Mac)
    requires Filed(s)
    ensures var gone := VisitTrying(c, s, key).1;
            gone == [] || (gone == [key] && key in s.trying)
  {
  }

  // ----- exhaustion -----

  /** The failure record after one more failure: the count is a uint32. */
  function OneMore(s: State, k: Mac, now: int): Failure {
    Failure(if k in s.fails then (s.fails[k].count + 1) % TWO_32 else 1, now)
  }

  lemma {:induction false} ExhaustAt(s: State, gone: seq<Mac>, now: int, k: Mac)
    requires Distinct(gone)
    ensures var s' := Exhaust(s, gone, now);
            if k in gone then k in s'.fails && s'.fails[k] == OneMore(s, k, now)
            else (k in s'.fails <==> k in s.fails) && (k in s.fails ==> s'.fails[k] == s.fails[k])
    decreases |gone|
  {
    if gone != [] {
      var s1 := SaveFailure(s, gone[0], now);
      var s2 := s1.(trying := s1.trying - {gone[0]});
      ExhaustAt(s2, gone[1..], now, k);
      assert k in gone <==> k == gone[0] || k in gone[1..];
    }
  }

  /** A tick on an attempt: below the limit it is tried once more and stays; at the limit it goes, with
      its punch socket, at the price of exactly one failure. A MAC without an attempt is untouched. */
  lemma TickOnAttempt(c: Config, s: State, now: int, liveKeys: seq<Mac>, tryKeys: seq<Mac>, k: Mac)
    requires Filed(s) && s.running && Enumerates(tryKeys, s.trying)
    ensures var s' := Tick(c, s, now, liveKeys, tryKeys);
            if k in s.trying && s.contexts[s.trying[k]].tries >= c.tryLimit then
              && k !in s'.trying && k !in s'.punch
              && k in s'.fails && s'.fails[k] == OneMore(s, k, now)
            else
              && (k in s'.trying <==> k in s.trying) && (k in s.trying ==> s'.trying[k] == s.trying[k])
              && (k in s'.fails <==> k in s.fails) && (k in s.fails ==> s'.fails[k] == s.fails[k])
              && (k in s'.punch <==> k in s.punch) && (k in s.punch ==> s'.punch[k] == s.punch[k])
              && |s'.contexts| == |s.contexts|
              && (k in s.trying ==> s'.contexts[s.trying[k]].tries == s.contexts[s.trying[k]].tries + 1)
  {
    hide Rung, SweepTrying, Exhaust, Tick, SweepLive;
    TickIs(c, s, now, liveKeys, tryKeys);
    RungPings(c, s, now, liveKeys);
    var s2 := Rung(c, s, now, liveKeys);
    var (s3, gone) := SweepTrying(c, s2, tryKeys);
    SweepTryingTries(c, s2, tryKeys);
    GoneComesFromKeys(c, s2, tryKeys);
    if k in s.trying {
      SweepTryingAt(c, s2, tryKeys, k);
    }
    ExhaustDrops(s3, gone, now);
    ExhaustAt(s3, gone, now, k);
  }

  /** The sweep over established contexts leaves attempts, punches and failures alone. */
  lemma RungPings(c: Config, s: State, now: int, liveKeys: seq<Mac>)
    requires Filed(s)
    ensures var s2 := Rung(c, s, now, liveKeys);
            && s2.trying == s.trying && s2.punch == s.punch && s2.fails == s.fails
            && |s2.contexts| == |s.contexts|
            && (forall r: Ref :: r < |s.contexts| ==> s2.contexts[r].tries == s.contexts[r].tries)
  {
    SweepLivePings(c, s, liveKeys, now);
    hide SweepLive;
  }

  // ----- the budget over whole runs -----

  /** No context has been tried more often than the limit allows. */
  ghost predicate WithinLimit(c: Config, s: State) {
    forall r: Ref :: r < |s.contexts| ==> s.contexts[r].tries <= c.tryLimit
  }

  lemma {:induction false} SweepTryingWithinLimit(c: Config, s: State, keys: seq<Mac>)
    requires Filed(s) && WithinLimit(c, s)
    ensures WithinLimit(c, SweepTrying(c, s, keys).0)
    decreases |keys|
  {
    if keys != [] {
      VisitTryingTries(c, s, keys[0]);
      VisitTryingWithinLimit(c, s, keys[0]);
      hide VisitTrying, Filed, Tried, WithinLimit;
      SweepTryingWithinLimit(c, VisitTrying(c, s, keys[0]).0, keys[1..]);
    }
  }

  lemma VisitTryingWithinLimit(c: Config, s: State, key: Mac)
    requires Filed(s) && WithinLimit(c, s)
    ensures WithinLimit(c, VisitTrying(c, s, key).0)
  {
  }

  lemma TickWithinLimit(c: Config, s: State, now: int, liveKeys: seq<Mac>, tryKeys: seq<Mac>)
    requires Filed(s) && WithinLimit(c, s)
    ensures WithinLimit(c, Tick(c, s, now, liveKeys, tryKeys))
  {
    hide Rung, SweepTrying, Exhaust, SweepLive;
    if s.running {
      TickIs(c, s, now, liveKeys, tryKeys);
      RungPings(c, s, now, liveKeys);
      var s2 := Rung(c, s, now, liveKeys);
      SweepTryingWithinLimit(c, s2, tryKeys);
      var (s3, gone) := SweepTrying(c, s2, tryKeys);
      ExhaustDrops(s3, gone, now);
    }
  }

  /** Apart from a tick, tries change only by the creation of contexts that have none. */
  lemma StepWithinLimit(c: Config, s: State, e: Event)
    requires Filed(s) && Enabled(s, e) && WithinLimit(c, s)
    ensures WithinLimit(c, Apply(c, s, e))
  {
    hide Tick, StartPunch, NeedsPunch;
    match e
    case Tock(now, liveKeys, tryKeys) => TickWithinLimit(c, s, now, liveKeys, tryKeys);
    case Outgoing(mac, now, known, dial) => StartPunchPunches(c, s, mac, false, now, dial);
    case Triggered(mac, now, dial) => StartPunchPunches(c, s, mac, true, now, dial);
    case _ =>
  }

  /** Apart from a tick no event changes how often a context was tried. */
  lemma StepKeepsTries(c: Config, s: State, e: Event)
    requires Filed(s) && Enabled(s, e) && !e.Tock?
    ensures |s.contexts| <= |Apply(c, s, e).contexts|
    ensures forall r: Ref :: r < |s.contexts| ==> Apply(c, s, e).contexts[r].tries == s.contexts[r].tries
  {
    hide StartPunch, NeedsPunch;
    match e
    case Outgoing(mac, now, known, dial) => StartPunchPunches(c, s, mac, false, now, dial);
    case Triggered(mac, now, dial) => StartPunchPunches(c, s, mac, true, now, dial);
    case _ =>
  }

  /** Only an ack files an attempt. */
  lemma StepFilesNoAttempt(c: Config, s: State, e: Event, k: Mac)
    requires Filed(s) && Enabled(s, e) && !e.Tock? && !(e.Acked? && e.mac == k)
    ensures k in Apply(c, s, e).trying ==> k in s.trying && Apply(c, s, e).trying[k] == s.trying[k]
  {
    hide StartPunch, NeedsPunch;
    match e
    case Outgoing(mac, now, known, dial) => StartPunchPunches(c, s, mac, false, now, dial);
    case Triggered(mac, now, dial) => StartPunchPunches(c, s, mac, true, now, dial);
    case _ =>
  }

  /** One step of an attempt's life when no ack comes for its MAC: it is the same attempt, and a tick
      has brought it one try further. */
  lemma StepAges(c: Config, s: State, e: Event, k: Mac)
    requires Filed(s) && Enabled(s, e) && !(e.Acked? && e.mac == k)
    ensures Filed(Apply(c, s, e))
    ensures k in Apply(c, s, e).trying ==>
              && k in s.trying && Apply(c, s, e).trying[k] == s.trying[k]
              && Apply(c, s, e).contexts[s.trying[k]].tries ==
                 s.contexts[s.trying[k]].tries + (if e.Tock? && s.running then 1 else 0)
  {
    StepKeepsFiled(c, s, e);
    if e.Tock? {
      hide Tick;
      if s.running {
        TickOnAttempt(c, s, e.now, e.liveKeys, e.tryKeys, k);
      } else {
        TickIdle(c, s, e.now, e.liveKeys, e.tryKeys);
      }
    } else {
      hide Apply;
      StepKeepsTries(c, s, e);
      StepFilesNoAttempt(c, s, e, k);
    }
  }

  lemma TickIdle(c: Config, s: State, now: int, liveKeys: seq<Mac>, tryKeys: seq<Mac>)
    requires Filed(s) && !s.running
    ensures Tick(c, s, now, liveKeys, tryKeys) == s
  {
  }

  /** The ticks of a run that found the service running. */
  ghost function Ticks(c: Config, s: State, events: seq<Event>): nat
    requires Filed(s) && Follows(c, s, events)
    decreases |events|
  {
    if events == [] then 0
    else
      StepKeepsFiled(c, s, events[0]);
      (if events[0].Tock? && s.running then 1 else 0) + Ticks(c, Apply(c, s, events[0]), events[1..])
  }

  lemma {:induction false} RunAges(c: Config, s: State, events: seq<Event>, k: Mac)
    requires Filed(s) && Follows(c, s, events) && WithinLimit(c, s)
    requires forall i :: 0 <= i < |events| ==> !(events[i].Acked? && events[i].mac == k)
    ensures WithinLimit(c, Ends(c, s, events))
    ensures k in Ends(c, s, events).trying ==>
              && k in s.trying && Ends(c, s, events).trying[k] == s.trying[k]
              && s.trying[k] < |s.contexts| && s.trying[k] < |Ends(c, s, events).contexts|
              && Ends(c, s, events).contexts[s.trying[k]].tries == s.contexts[s.trying[k]].tries + Ticks(c, s, events)
    decreases |events|
  {
    if events != [] {
      StepAges(c, s, events[0], k);
      StepWithinLimit(c, s, events[0]);
      StepKeepsFiled(c, s, events[0]);
      hide Apply, WithinLimit, Enabled;
      RunAges(c, Apply(c, s, events[0]), events[1..], k);
    }
  }

  /** The retry bound: without a new ack for its MAC an attempt is over after at most the configured
      number of tries plus one ticks, and it has never been tried more often than that number. */
  lemma AttemptsEnd(c: Config, s: State, events: seq<Event>, k: Mac)
    requires Filed(s) && Follows(c, s, events) && WithinLimit(c, s)
    requires forall i :: 0 <= i < |events| ==> !(events[i].Acked? && events[i].mac == k)
    requires Ticks(c, s, events) >= c.tryLimit + 1
    ensures k !in Ends(c, s, events).trying
    ensures WithinLimit(c, Ends(c, s, events))
  {
    RunAges(c, s, events, k);
  }

  // ----- ten failures -----

  /** The events after which a MAC may be punched again whatever its record. */
  predicate Pardons(s: State, e: Event, k: Mac) {
    e.Clear? || (e.Begin? && !s.running) || ((e.Changed? || e.Forgotten?) && e.mac == k)
  }

  /** Whether an event records a failure of k: an invalid ack, a refused dial of a new punch socket, or
      a tick on an attempt that has used up its tries. */
  ghost predicate Records(c: Config, s: State, e: Event, k: Mac)
    requires Filed(s) && Enabled(s, e)
  {
    match e
    case Acked(mac, hasSock, valid, _, _) => mac == k && hasSock && !valid
    case Outgoing(mac, now, known, dial) =>
      && mac == k && dial.Refused? && k !in s.punch
      && s.running && k !in s.live && NeedsPunch(c, s, k, now, known)
    case Triggered(mac, _, dial) =>
      mac == k && dial.Refused? && k !in s.punch && Unicast(k) && k !in s.trying && k !in s.live
    case Tock(_, _, _) => s.running && k in s.trying && s.contexts[s.trying[k]].tries >= c.tryLimit
    case _ => false
  }

  function FailCount(s: State, k: Mac): uint32 {
    if k in s.fails then s.fails[k].count else 0
  }

  /** The record of k after one more failure, or as it was. */
  ghost predicate Counted(s: State, s': State, k: Mac, more: bool) {
    && (k in s'.fails <==> k in s.fails || more)
    && FailCount(s', k) == (FailCount(s, k) + (if more then 1 else 0)) % TWO_32
  }

  lemma StartPunchCounts(c: Config, s: State, mac: Mac, trigger: bool, now: int, dial: Dial, k: Mac)
    ensures Counted(s, StartPunch(c, s, mac, trigger, now, dial), k, mac == k && mac !in s.punch && dial.Refused?)
  {
  }

  lemma TickCounts(c: Config, s: State, e: Event, k: Mac)
    requires Filed(s) && Enabled(s, e) && e.Tock?
    ensures Counted(s, Apply(c, s, e), k, Records(c, s, e, k))
  {
    hide Tick;
    if s.running {
      TickOnAttempt(c, s, e.now, e.liveKeys, e.tryKeys, k);
    } else {
      TickIdle(c, s, e.now, e.liveKeys, e.tryKeys);
    }
  }

  /** An event that does not pardon k changes its failure count by exactly the failure it records. */
  lemma StepCounts(c: Config, s: State, e: Event, k: Mac)
    requires Filed(s) && Enabled(s, e) && !Pardons(s, e, k)
    ensures Counted(s, Apply(c, s, e), k, Records(c, s, e, k))
  {
    if e.Tock? {
      TickCounts(c, s, e, k);
    } else if e.Outgoing? || e.Triggered? {
      PunchCounts(c, s, e, k);
    } else if e.Acked? {
      AckCounts(s, e.mac, e.hasSock, e.valid, e.now, e.dial, k);
    } else {
      hide Tick, Forward, OnTrigger, OnAck, Counted, FailCount;
      OthersCountNothing(c, s, e, k);
    }
  }

  lemma OthersCountNothing(c: Config, s: State, e: Event, k: Mac)
    requires Filed(s) && Enabled(s, e) && !Pardons(s, e, k)
    requires !e.Tock? && !e.Outgoing? && !e.Triggered? && !e.Acked?
    ensures Counted(s, Apply(c, s, e), k, false)
  {
    hide Tick, Forward, OnTrigger, OnAck;
  }

  lemma AckCounts(s: State, mac: Mac, hasSock: bool, valid: bool, now: int, dial: Dial, k: Mac)
    ensures Counted(s, OnAck(s, mac, hasSock, valid, now, dial), k, mac == k && hasSock && !valid)
  {
  }

  lemma PunchCounts(c: Config, s: State, e: Event, k: Mac)
    requires Filed(s) && Enabled(s, e) && (e.Outgoing? || e.Triggered?)
    ensures Counted(s, Apply(c, s, e), k, Records(c, s, e, k))
  {
    StartPunchCounts(c, s, e.mac, e.Triggered?, e.now, e.dial, k);
    hide StartPunch, Elapsed, Counted, FailCount;
    if Apply(c, s, e).fails == s.fails {
      UnchangedCounts(s, Apply(c, s, e), k);
    }
  }

  lemma UnchangedCounts(s: State, s': State, k: Mac)
    requires s'.fails == s.fails
    ensures Counted(s, s', k, false)
  {
  }

  lemma PardonForgets(c: Config, s: State, e: Event, k: Mac)
    requires Filed(s) && Enabled(s, e) && Pardons(s, e, k)
    ensures k !in Apply(c, s, e).fails
  {
  }

  /** The failures of k since its last pardon, starting from n of them. */
  ghost function Failures(c: Config, s: State, events: seq<Event>, k: Mac, n: nat): nat
    requires Filed(s) && Follows(c, s, events)
    decreases |events|
  {
    if events == [] then n
    else
      StepKeepsFiled(c, s, events[0]);
      var n' := if Pardons(s, events[0], k) then 0 else if Records(c, s, events[0], k) then n + 1 else n;
      Failures(c, Apply(c, s, events[0]), events[1..], k, n')
  }

  /** Over every run the count is the number of failures since the last pardon, modulo 2^32. */
  lemma {:induction false} FailuresCounted(c: Config, s: State, events: seq<Event>, k: Mac, n: nat)
    requires Filed(s) && Follows(c, s, events) && FailCount(s, k) == n % TWO_32
    ensures FailCount(Ends(c, s, events), k) == Failures(c, s, events, k, n) % TWO_32
    decreases |events|
  {
    if events != [] {
      StepKeepsFiled(c, s, events[0]);
      if Pardons(s, events[0], k) {
        PardonForgets(c, s, events[0], k);
        hide Apply, Filed, Enabled, Records;
        FailuresCounted(c, Apply(c, s, events[0]), events[1..], k, 0);
      } else {
        StepCounts(c, s, events[0], k);
        var n' := if Records(c, s, events[0], k) then n + 1 else n;
        OneMoreModulo(n);
        hide Apply, Filed, Enabled, Records;
        FailuresCounted(c, Apply(c, s, events[0]), events[1..], k, n');
      }
    }
  }

  lemma OneMoreModulo(n: nat)
    ensures (n % TWO_32 + 1) % TWO_32 == (n + 1) % TWO_32 && (n % TWO_32) % TWO_32 == n % TWO_32
  {
  }

  /** Ten failures block a MAC, exactly: at the end of any run, forwarded packets for a peer without
      connection or attempt start nothing, at whatever time, if and only if the failures since the last
      pardon, modulo 2^32, are at least ten. */
  lemma BlockedIff(c: Config, s: State, events: seq<Event>, k: Mac, n: nat)
    requires Filed(s) && Follows(c, s, events) && FailCount(s, k) == n % TWO_32
    requires var e := Ends(c, s, events);
             e.running && Unicast(k) && k !in e.live && k !in e.trying
    ensures var e := Ends(c, s, events);
            (forall now, known, dial :: Forward(c, e, k, now, known, dial) == e)
            <==> Failures(c, s, events, k, n) % TWO_32 >= 10
  {
    FailuresCounted(c, s, events, k, n);
    hide Failures, Follows;
    var e := Ends(c, s, events);
    if FailCount(e, k) >= 10 {
      forall now, known, dial
        ensures Forward(c, e, k, now, known, dial) == e
      {
      }
    } else {
      PunchesAgain(c, e, k);
    }
  }

  /** A packet that comes late enough dials anew, or drops a punch socket that has outlived itself. */
  lemma PunchesAgain(c: Config, s: State, k: Mac)
    requires Filed(s) && s.running && Unicast(k) && k !in s.live && k !in s.trying
    requires FailCount(s, k) < 10
    ensures exists now, known, dial :: Forward(c, s, k, now, known, dial) != s
  {
    var now := LateEnough(c, s, k);
    var s' := Forward(c, s, k, now, true, Refused);
    hide Elapsed;
    if k in s.punch {
      assert k !in s'.punch;
    } else {
      assert FailCount(s', k) != FailCount(s, k);
    }
  }

  lemma LateEnough(c: Config, s: State, k: Mac) returns (now: int)
    ensures k in s.fails ==> Elapsed(now, s.fails[k].time) >= c.retryInterval
    ensures k in s.punch ==> now - s.punch[k].start >= c.punchLife
  {
    var late := if k in s.punch then s.punch[k].start + c.punchLife else 0;
    if k in s.fails {
      var from := s.fails[k].time + c.retryInterval as int;
      var rounds := if late > from then late - from else 0;
      now := from + rounds * TWO_32;
      ModUnique(now - s.fails[k].time, TWO_32, rounds, c.retryInterval);
    } else {
      now := late;
    }
  }

  /** Invalid acks, one after the other. */
  lemma {:induction false} ManyInvalidAcks(c: Config, s: State, k: Mac, m: nat, n: nat) returns (events: seq<Event>)
    requires Filed(s)
    ensures |events| == m && Follows(c, s, events) && Failures(c, s, events, k, n) == n + m
    ensures Ends(c, s, events) == s.(fails := Ends(c, s, events).fails, punch := Ends(c, s, events).punch)
    ensures m > 0 ==> k !in Ends(c, s, events).punch
    decreases m
  {
    events := [];
    if m > 0 {
      var e := Acked(k, true, false, 0, Refused);
      StepKeepsFiled(c, s, e);
      var rest := ManyInvalidAcks(c, Apply(c, s, e), k, m - 1, n + 1);
      events := [e] + rest;
      assert events[1..] == rest;
    }
  }

  /** The count does wrap: after 2^32 failures without a pardon the MAC is punched again. */
  lemma WrappedCountExample(c: Config, k: Mac) returns (events: seq<Event>)
    requires Unicast(k)
    ensures var s := Start(Initial);
            && Follows(c, s, events) && Failures(c, s, events, k, 0) == TWO_32
            && exists now, known, dial :: Forward(c, Ends(c, s, events), k, now, known, dial) != Ends(c, s, events)
  {
    var s := Start(Initial);
    events := ManyInvalidAcks(c, s, k, TWO_32, 0);
    BlockedIff(c, s, events, k, 0);
  }
}
