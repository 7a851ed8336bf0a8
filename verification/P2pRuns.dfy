/** Runs of one peer's hole-punching service, and what every reachable state keeps: where contexts
    come from and what the maps are keyed by. */
module P2pRuns {
  import opened Bits
  import opened P2pModel

  datatype Event =
    | Begin | Halt | Clear | Tock(now: int, liveKeys: seq<Mac>, tryKeys: seq<Mac>)
    | Outgoing(mac: Mac, now: int, known: bool, dial: Dial)
    | Triggered(mac: Mac, now: int, dial: Dial)
    | Acked(mac: Mac, hasSock: bool, valid: bool, now: int, dial: Dial)
    | Incoming(ref: Ref, frame: Frame, src: Mac, now: int)
    | Idle(ref: Ref)
    | Changed(mac: Mac) | Forgotten(mac: Mac)

  /** A range over a map presents every key once. */
  ghost predicate Enumerates(keys: seq<Mac>, m: map<Mac, Ref>) {
    && (forall i, j :: 0 <= i < j < |keys| ==> keys[i] != keys[j])
    && (forall k :: k in keys <==> k in m)
  }

  /** Frames and idle events need a connected channel. */
  ghost predicate Enabled(s: State, e: Event) {
    match e
    case Tock(_, liveKeys, tryKeys) => Enumerates(liveKeys, s.live) && Enumerates(tryKeys, s.trying)
    case Incoming(r, _, _, _) => r < |s.contexts| && s.contexts[r].handler
    case Idle(r) => r < |s.contexts| && s.contexts[r].handler
    case _ => true
  }

  // ----- the invariant -----

  /** Punch sockets and attempts are filed under their own MAC; everything filed is connected. */
  ghost predicate Filed(s: State) {
    && (forall k :: k in s.punch ==> s.punch[k].mac == k)
    && (forall k :: k in s.trying ==>
          && s.trying[k] < |s.contexts|
          && s.contexts[s.trying[k]].mac == k && s.contexts[s.trying[k]].handler)
    && (forall k :: k in s.live ==> s.live[k] < |s.contexts| && s.contexts[s.live[k]].handler)
  }

  function Apply(c: Config, s: State, e: Event): State
    requires Filed(s) && Enabled(s, e)
  {
    match e
    case Begin => Start(s)
    case Halt => Stop(s)
    case Clear => Reset(s)
    case Tock(now, liveKeys, tryKeys) => Tick(c, s, now, liveKeys, tryKeys)
    case Outgoing(mac, now, known, dial) => Forward(c, s, mac, now, known, dial)
    case Triggered(mac, now, dial) => OnTrigger(c, s, mac, now, dial)
    case Acked(mac, hasSock, valid, now, dial) => OnAck(s, mac, hasSock, valid, now, dial)
    case Incoming(r, frame, src, now) => OnFrame(s, r, frame, src, now)
    case Idle(r) => OnIdle(s, r)
    case Changed(mac) => PeerStateChanged(s, mac)
    case Forgotten(mac) => DeleteFailed(s, mac)
  }

  /** Contexts stay in the table under their MAC, and a handler once set stays set. */
  ghost predicate Kept(s: State, s': State) {
    && |s.contexts| <= |s'.contexts|
    && (forall r: Ref :: r < |s.contexts| ==>
          s'.contexts[r].mac == s.contexts[r].mac && (s.contexts[r].handler <==> s'.contexts[r].handler))
  }

  /** What a sweep over established contexts may change: pings and the connected flag. */
  ghost predicate Pinged(s: State, s': State) {
    && s'.trying == s.trying && s'.punch == s.punch && s'.fails == s.fails
    && s'.live == s.live && s'.running == s.running
    && |s'.contexts| == |s.contexts|
    && (forall r: Ref :: r < |s.contexts| ==>
          s'.contexts[r] == s.contexts[r].(pings := s'.contexts[r].pings, connected := s'.contexts[r].connected))
  }

  lemma {:induction false} SweepLivePings(c: Config, s: State, keys: seq<Mac>, now: int)
    requires forall k :: k in s.live ==> s.live[k] < |s.contexts|
    ensures Pinged(s, SweepLive(c, s, keys, now).0)
    decreases |keys|
  {
    if keys != [] {
      VisitLivePings(c, s, keys[0], now);
      SweepLivePings(c, VisitLive(c, s, keys[0], now).0, keys[1..], now);
    }
  }

  lemma VisitLivePings(c: Config, s: State, key: Mac, now: int)
    requires forall k :: k in s.live ==> s.live[k] < |s.contexts|
    ensures Pinged(s, VisitLive(c, s, key, now).0)
  {
  }

  /** What the sweep over attempts may change: tries, the connected flag, and attempts dropped. */
  ghost predicate Tried(s: State, s': State) {
    && s'.punch == s.punch && s'.fails == s.fails && s'.live == s.live && s'.running == s.running
    && s'.trying == s.trying
    && |s'.contexts| == |s.contexts|
    && (forall r: Ref :: r < |s.contexts| ==>
          s'.contexts[r] == s.contexts[r].(tries := s'.contexts[r].tries, connected := s'.contexts[r].connected))
  }

  lemma SendTryTries(s: State, mac: Mac)
    requires Filed(s)
    ensures Tried(s, SendTry(s, mac))
  {
  }

  lemma VisitTryingTries(c: Config, s: State, key: Mac)
    requires Filed(s)
    ensures Tried(s, VisitTrying(c, s, key).0) && Filed(VisitTrying(c, s, key).0)
  {
    SendTryTries(s, key);
    hide SendTry;
  }

  lemma {:induction false} SweepTryingTries(c: Config, s: State, keys: seq<Mac>)
    requires Filed(s)
    ensures Tried(s, SweepTrying(c, s, keys).0)
    decreases |keys|
  {
    if keys != [] {
      VisitTryingTries(c, s, keys[0]);
      SweepTryingTries(c, VisitTrying(c, s, keys[0]).0, keys[1..]);
    }
  }

  lemma {:induction false} ExhaustDrops(s: State, gone: seq<Mac>, now: int)
    ensures var s' := Exhaust(s, gone, now);
            && s'.live == s.live && s'.contexts == s.contexts && s'.running == s.running && s'.sent == s.sent
            && s'.trying == s.trying - Members(gone) && s'.punch == s.punch - Members(gone)
            && s'.fails.Keys == s.fails.Keys + Members(gone)
            && (forall k :: k in s.fails && k !in gone ==> s'.fails[k] == s.fails[k])
    decreases |gone|
  {
    if gone != [] {
      var s1 := SaveFailure(s, gone[0], now);
      ExhaustDrops(s1.(trying := s1.trying - {gone[0]}), gone[1..], now);
      assert Members(gone) == {gone[0]} + Members(gone[1..]);
    }
  }

  // ----- every operation keeps the filing -----

  ghost predicate Within<T(!new)>(m': map<Mac, T>, m: map<Mac, T>) {
    forall k :: k in m' ==> k in m && m'[k] == m[k]
  }

  /** Nothing is filed anew, and contexts are kept. */
  ghost predicate Shrunk(s: State, s': State) {
    && |s'.contexts| == |s.contexts| && Kept(s, s')
    && Within(s'.punch, s.punch) && Within(s'.trying, s.trying) && Within(s'.live, s.live)
  }

  lemma ShrunkIsFiled(s: State, s': State)
    requires Filed(s) && Shrunk(s, s')
    ensures Filed(s')
  {
  }

  /** The states between the three parts of a tick. */
  ghost function Rung(c: Config, s: State, now: int, liveKeys: seq<Mac>): State
    requires Filed(s)
  {
    var (s1, quiet) := SweepLive(c, s, liveKeys, now);
    s1.(live := s1.live - Members(quiet))
  }

  lemma RungShrinks(c: Config, s: State, now: int, liveKeys: seq<Mac>)
    requires Filed(s)
    ensures Shrunk(s, Rung(c, s, now, liveKeys)) && Filed(Rung(c, s, now, liveKeys))
  {
    SweepLivePings(c, s, liveKeys, now);
    hide SweepLive;
    ShrunkIsFiled(s, Rung(c, s, now, liveKeys));
  }

  lemma SweepTryingShrinks(c: Config, s: State, keys: seq<Mac>)
    requires Filed(s)
    ensures Shrunk(s, SweepTrying(c, s, keys).0) && Filed(SweepTrying(c, s, keys).0)
  {
    SweepTryingTries(c, s, keys);
    hide SweepTrying;
    ShrunkIsFiled(s, SweepTrying(c, s, keys).0);
  }

  lemma ExhaustShrinks(s: State, gone: seq<Mac>, now: int)
    requires Filed(s)
    ensures Shrunk(s, Exhaust(s, gone, now)) && Filed(Exhaust(s, gone, now))
  {
    ExhaustDrops(s, gone, now);
    hide Exhaust;
    ShrunkIsFiled(s, Exhaust(s, gone, now));
  }

  lemma TickIs(c: Config, s: State, now: int, liveKeys: seq<Mac>, tryKeys: seq<Mac>)
    requires Filed(s) && s.running
    ensures Filed(Rung(c, s, now, liveKeys))
    ensures var (s3, gone) := SweepTrying(c, Rung(c, s, now, liveKeys), tryKeys);
            Tick(c, s, now, liveKeys, tryKeys) == Exhaust(s3, gone, now)
  {
    RungShrinks(c, s, now, liveKeys);
    hide SweepLive, SweepTrying, Exhaust, Shrunk;
  }

  lemma TickShrinks(c: Config, s: State, now: int, liveKeys: seq<Mac>, tryKeys: seq<Mac>)
    requires Filed(s)
    ensures Shrunk(s, Tick(c, s, now, liveKeys, tryKeys)) && Filed(Tick(c, s, now, liveKeys, tryKeys))
  {
    if s.running {
      hide Rung, SweepTrying, Exhaust, Tick, Filed;
      RungShrinks(c, s, now, liveKeys);
      var s2 := Rung(c, s, now, liveKeys);
      SweepTryingShrinks(c, s2, tryKeys);
      var (s3, gone) := SweepTrying(c, s2, tryKeys);
      ExhaustShrinks(s3, gone, now);
      TickIs(c, s, now, liveKeys, tryKeys);
      hide Shrunk;
      ShrunkTwice(s, s2, s3);
      ShrunkTwice(s, s3, Exhaust(s3, gone, now));
    }
  }

  lemma ShrunkTwice(s: State, s1: State, s2: State)
    requires Shrunk(s, s1) && Shrunk(s1, s2)
    ensures Shrunk(s, s2)
  {
  }

  /** What punching may change: the entry of its own MAC, failures, and messages. */
  ghost predicate Punched(s: State, s': State, mac: Mac) {
    && s'.trying == s.trying && s'.live == s.live && s'.contexts == s.contexts && s'.running == s.running
    && (forall k :: k in s'.punch && k != mac ==> k in s.punch && s'.punch[k] == s.punch[k])
    && (mac in s'.punch ==> s'.punch[mac].mac == mac)
  }

  lemma SendTriggerPunches(c: Config, s: State, mac: Mac, now: int)
    requires mac in s.punch ==> s.punch[mac].mac == mac
    ensures Punched(s, SendTrigger(c, s, mac, now), mac)
  {
  }

  lemma NewPunchPunches(c: Config, s: State, mac: Mac, now: int, dial: Dial)
    ensures Punched(s, NewPunch(c, s, mac, now, dial), mac)
  {
    if dial.Up? {
      var s1 := s.(punch := s.punch[mac := Punch(mac, now, false, false)]);
      SendTriggerPunches(c, s1.(punch := s1.punch[mac := Punch(mac, now, true, false)]), mac, now);
      hide SendTrigger;
    }
  }

  lemma StartPunchPunches(c: Config, s: State, mac: Mac, trigger: bool, now: int, dial: Dial)
    requires Filed(s)
    ensures Punched(s, StartPunch(c, s, mac, trigger, now, dial), mac)
  {
    SendTriggerPunches(c, s, mac, now);
    NewPunchPunches(c, s, mac, now, dial);
    hide SendTrigger, NewPunch;
  }

  lemma PunchedIsFiled(s: State, s': State, mac: Mac)
    requires Filed(s) && Punched(s, s', mac)
    ensures Filed(s') && Kept(s, s')
  {
  }

  /** Hearing from a context changes only that context. */
  function Heard(s: State, r: Ref, now: int): State
    requires r < |s.contexts|
  {
    Put(s, r, s.contexts[r].(handler := true, lastReceive := now, pings := 0))
  }

  lemma HeardIsFiled(s: State, r: Ref, now: int)
    requires Filed(s) && r < |s.contexts| && s.contexts[r].handler
    ensures Filed(Heard(s, r, now)) && Kept(s, Heard(s, r, now))
  {
    ShrunkIsFiled(s, Heard(s, r, now));
  }

  lemma PromoteIsFiled(s: State, mac: Mac, via: Ref)
    requires Filed(s) && via < |s.contexts| && s.contexts[via].handler
    ensures Filed(Promote(s, mac, via)) && Kept(s, Promote(s, mac, via))
  {
  }

  lemma FrameKeepsFiled(s: State, r: Ref, frame: Frame, src: Mac, now: int)
    requires Filed(s) && r < |s.contexts| && s.contexts[r].handler
    ensures Filed(OnFrame(s, r, frame, src, now)) && Kept(s, OnFrame(s, r, frame, src, now))
  {
    HeardIsFiled(s, r, now);
    var s1 := Heard(s, r, now);
    assert OnFrame(s, r, frame, src, now) ==
           match frame case Try => Promote(s1, src, r) case PingFrame => Send(s1, Pong(r)) case _ => s1;
    PromoteIsFiled(s1, src, r);
    SentIsFiled(s1, Pong(r));
    hide Heard, Promote, OnFrame, Send, Filed, Kept;
    KeptTwice(s, s1, OnFrame(s, r, frame, src, now));
  }

  /** A frame on any context, even one without a handler so far, leaves everything filed. */
  lemma FrameLeavesFiled(s: State, r: Ref, frame: Frame, src: Mac, now: int)
    requires Filed(s) && r < |s.contexts|
    ensures Filed(Heard(s, r, now)) && Filed(OnFrame(s, r, frame, src, now))
  {
    var s1 := Heard(s, r, now);
    assert Filed(s1);
    PromoteIsFiled(s1, src, r);
  }

  lemma SentIsFiled(s: State, m: Message)
    requires Filed(s)
    ensures Filed(Send(s, m)) && Kept(s, Send(s, m)) && Kept(s, s)
  {
  }

  lemma KeptTwice(s: State, s1: State, s2: State)
    requires Kept(s, s1) && Kept(s1, s2)
    ensures Kept(s, s2)
  {
  }

  lemma AckKeepsFiled(s: State, mac: Mac, hasSock: bool, valid: bool, now: int, dial: Dial)
    requires Filed(s)
    ensures Filed(OnAck(s, mac, hasSock, valid, now, dial)) && Kept(s, OnAck(s, mac, hasSock, valid, now, dial))
  {
  }

  lemma StepKeepsFiled(c: Config, s: State, e: Event)
    requires Filed(s) && Enabled(s, e)
    ensures Filed(Apply(c, s, e)) && Kept(s, Apply(c, s, e))
  {
    hide Tick, Forward, OnTrigger, OnFrame, OnAck;
    match e
    case Tock(now, liveKeys, tryKeys) => TickShrinks(c, s, now, liveKeys, tryKeys);
    case Outgoing(mac, now, known, dial) => ForwardKeepsFiled(c, s, mac, now, known, dial);
    case Triggered(mac, now, dial) => TriggerKeepsFiled(c, s, mac, now, dial);
    case Acked(mac, hasSock, valid, now, dial) => AckKeepsFiled(s, mac, hasSock, valid, now, dial);
    case Incoming(r, frame, src, now) => FrameKeepsFiled(s, r, frame, src, now);
    case _ =>
  }

  lemma ForwardKeepsFiled(c: Config, s: State, mac: Mac, now: int, known: bool, dial: Dial)
    requires Filed(s)
    ensures Filed(Forward(c, s, mac, now, known, dial)) && Kept(s, Forward(c, s, mac, now, known, dial))
  {
    StartPunchPunches(c, s, mac, false, now, dial);
    PunchedIsFiled(s, StartPunch(c, s, mac, false, now, dial), mac);
    hide StartPunch, NeedsPunch;
  }

  lemma TriggerKeepsFiled(c: Config, s: State, mac: Mac, now: int, dial: Dial)
    requires Filed(s)
    ensures Filed(OnTrigger(c, s, mac, now, dial)) && Kept(s, OnTrigger(c, s, mac, now, dial))
  {
    StartPunchPunches(c, s, mac, true, now, dial);
    PunchedIsFiled(s, StartPunch(c, s, mac, true, now, dial), mac);
    hide StartPunch;
  }

  // ----- where contexts come from -----

  /** A run is a list of events each possible when its turn comes. */
  ghost predicate Possible(c: Config, events: seq<Event>)
    decreases |events|, 0
  {
    events == [] ||
    var init, last := events[..|events| - 1], events[|events| - 1];
    Possible(c, init) && Enabled(After(c, init), last)
  }

  ghost function After(c: Config, events: seq<Event>): (s: State)
    requires Possible(c, events)
    ensures Filed(s)
    decreases |events|, 1
  {
    if events == [] then Initial
    else
      var s := After(c, events[..|events| - 1]);
      StepKeepsFiled(c, s, events[|events| - 1]);
      Apply(c, s, events[|events| - 1])
  }

  lemma {:induction false} PrefixPossible(c: Config, events: seq<Event>, i: nat)
    requires Possible(c, events) && i <= |events|
    ensures Possible(c, events[..i])
    decreases |events|
  {
    if i < |events| {
      var init := events[..|events| - 1];
      PrefixPossible(c, init, i);
      assert init[..i] == events[..i];
    } else {
      assert events[..i] == events;
    }
  }

  /** Only an ack adds a context, one at a time, and a connected one only if the ack was accepted. */
  lemma OnlyAcksCreate(c: Config, s: State, e: Event)
    requires Filed(s) && Enabled(s, e) && |Apply(c, s, e).contexts| > |s.contexts|
    ensures e.Acked? && |Apply(c, s, e).contexts| == |s.contexts| + 1
    ensures var p := Apply(c, s, e).contexts[|s.contexts|];
            p.mac == e.mac && (p.handler ==> AckAccepted(s, e.mac, e.hasSock, e.valid, e.dial))
  {
    if e.Acked? {
      AckCreates(s, e.mac, e.hasSock, e.valid, e.now, e.dial);
      hide OnAck;
    } else {
      OthersAddNone(c, s, e);
      hide Apply;
    }
  }

  lemma AckCreates(s: State, mac: Mac, hasSock: bool, valid: bool, now: int, dial: Dial)
    ensures var s' := OnAck(s, mac, hasSock, valid, now, dial);
            |s'.contexts| > |s.contexts| ==>
              && |s'.contexts| == |s.contexts| + 1
              && s'.contexts[|s.contexts|].mac == mac
              && (s'.contexts[|s.contexts|].handler ==> AckAccepted(s, mac, hasSock, valid, dial))
  {
  }

  lemma OthersAddNone(c: Config, s: State, e: Event)
    requires Filed(s) && Enabled(s, e) && !e.Acked?
    ensures |Apply(c, s, e).contexts| == |s.contexts|
  {
    hide Tick, Forward, OnTrigger;
    match e
    case Tock(now, liveKeys, tryKeys) => TickShrinks(c, s, now, liveKeys, tryKeys);
    case Outgoing(mac, now, known, dial) => ForwardAddsNone(c, s, mac, now, known, dial);
    case Triggered(mac, now, dial) => TriggerAddsNone(c, s, mac, now, dial);
    case _ =>
  }

  lemma ForwardAddsNone(c: Config, s: State, mac: Mac, now: int, known: bool, dial: Dial)
    requires Filed(s)
    ensures Forward(c, s, mac, now, known, dial).contexts == s.contexts
  {
    StartPunchPunches(c, s, mac, false, now, dial);
    hide StartPunch, NeedsPunch;
  }

  lemma TriggerAddsNone(c: Config, s: State, mac: Mac, now: int, dial: Dial)
    requires Filed(s)
    ensures OnTrigger(c, s, mac, now, dial).contexts == s.contexts
  {
    StartPunchPunches(c, s, mac, true, now, dial);
    hide StartPunch;
  }

  /** Event i of the run is the accepted ack that created context r. */
  ghost predicate Created(c: Config, events: seq<Event>, i: nat, r: Ref, mac: Mac)
    requires Possible(c, events)
  {
    && i < |events| && events[i].Acked? && events[i].mac == mac
    && Possible(c, events[..i])
    && |After(c, events[..i]).contexts| == r
    && AckAccepted(After(c, events[..i]), mac, events[i].hasSock, events[i].valid, events[i].dial)
  }

  lemma {:induction false} Origin(c: Config, events: seq<Event>, r: Ref) returns (i: nat)
    requires Possible(c, events) && r < |After(c, events).contexts| && After(c, events).contexts[r].handler
    ensures Created(c, events, i, r, After(c, events).contexts[r].mac)
    decreases |events|
  {
    var n := |events| - 1;
    var init := events[..n];
    var s := After(c, init);
    StepKeepsFiled(c, s, events[n]);
    hide Apply, Filed, Enabled;
    if r < |s.contexts| {
      i := Origin(c, init, r);
      assert init[..i] == events[..i];
    } else {
      OnlyAcksCreate(c, s, events[n]);
      i := n;
    }
  }

  /** In every reachable state each attempt is filed under its own MAC, and each attempting or
      established context was created by an accepted valid ack that found a punch socket with a known
      address for that MAC. */
  lemma EveryContextWasAcked(c: Config, events: seq<Event>, key: Mac, r: Ref) returns (i: nat)
    requires Possible(c, events)
    requires var s := After(c, events);
             (key in s.trying && r == s.trying[key]) || (key in s.live && r == s.live[key])
    ensures var s := After(c, events);
            && r < |s.contexts|
            && (key in s.trying && r == s.trying[key] ==> s.contexts[r].mac == key)
            && Created(c, events, i, r, s.contexts[r].mac)
  {
    i := Origin(c, events, r);
  }

  // ----- punch entries -----

  /** Entries present before and after are the same. */
  ghost predicate Agree<T(!new)>(m: map<Mac, T>, m': map<Mac, T>) {
    forall k :: k in m && k in m' ==> m'[k] == m[k]
  }

  lemma StartPunchAgrees(c: Config, s: State, mac: Mac, trigger: bool, now: int, dial: Dial)
    requires Filed(s)
    ensures Agree(s.punch, StartPunch(c, s, mac, trigger, now, dial).punch)
  {
    if mac !in s.punch {
      NewPunchPunches(c, s, mac, now, dial);
    }
    hide NewPunch;
  }

  /** No event replaces a punch entry: one that is there before and after is the same. */
  lemma PunchNeverOverwritten(c: Config, s: State, e: Event)
    requires Filed(s) && Enabled(s, e)
    ensures Agree(s.punch, Apply(c, s, e).punch)
  {
    hide Tick, StartPunch, NeedsPunch;
    match e
    case Tock(now, liveKeys, tryKeys) => TickShrinks(c, s, now, liveKeys, tryKeys);
    case Outgoing(mac, now, known, dial) => StartPunchAgrees(c, s, mac, false, now, dial);
    case Triggered(mac, now, dial) => StartPunchAgrees(c, s, mac, true, now, dial);
    case _ =>
  }

  // ----- the established map -----

  ghost predicate LiveFiled(s: State)
    requires Filed(s)
  {
    forall k :: k in s.live ==> s.contexts[s.live[k]].mac == k
  }

  /** A try frame keeps the established map filed by MAC exactly when its sender is being tried or is
      the peer of the connection it came in on. */
  lemma TryKeepsLiveFiledIff(s: State, r: Ref, src: Mac, now: int)
    requires Filed(s) && LiveFiled(s) && r < |s.contexts| && s.contexts[r].handler
    ensures Filed(OnFrame(s, r, Try, src, now))
    ensures LiveFiled(OnFrame(s, r, Try, src, now)) <==> src in s.trying || src == s.contexts[r].mac
  {
    FrameKeepsFiled(s, r, Try, src, now);
    var s' := OnFrame(s, r, Try, src, now);
    assert src in s'.live && s'.live[src] == if src in s.trying then s.trying[src] else r;
  }

  /** Every sender is who it says: the frame's source is the connection's peer. */
  ghost predicate Honest(s: State, e: Event)
    requires Enabled(s, e)
  {
    e.Incoming? ==> e.src == s.contexts[e.ref].mac
  }

  lemma StepKeepsLiveFiled(c: Config, s: State, e: Event)
    requires Filed(s) && LiveFiled(s) && Enabled(s, e) && Honest(s, e)
    ensures Filed(Apply(c, s, e)) && LiveFiled(Apply(c, s, e))
  {
    StepKeepsFiled(c, s, e);
    if e.Incoming? && e.frame.Try? {
      TryKeepsLiveFiledIff(s, e.ref, e.src, e.now);
    } else {
      LiveOnlyShrinks(c, s, e);
      hide Apply, Filed;
    }
  }

  /** Without a try frame no entry of the established map is added or replaced. */
  lemma LiveOnlyShrinks(c: Config, s: State, e: Event)
    requires Filed(s) && Enabled(s, e) && !(e.Incoming? && e.frame.Try?)
    ensures Within(Apply(c, s, e).live, s.live)
  {
    hide Tick, StartPunch, NeedsPunch;
    match e
    case Tock(now, liveKeys, tryKeys) => TickShrinks(c, s, now, liveKeys, tryKeys);
    case Outgoing(mac, now, known, dial) => StartPunchPunches(c, s, mac, false, now, dial);
    case Triggered(mac, now, dial) => StartPunchPunches(c, s, mac, true, now, dial);
    case _ =>
  }

  // ----- runs from any state -----

  ghost predicate Follows(c: Config, s: State, events: seq<Event>)
    requires Filed(s)
    decreases |events|
  {
    events == [] ||
    (Enabled(s, events[0]) && (StepKeepsFiled(c, s, events[0]); Follows(c, Apply(c, s, events[0]), events[1..])))
  }

  ghost function Ends(c: Config, s: State, events: seq<Event>): (s': State)
    requires Filed(s) && Follows(c, s, events)
    ensures Filed(s')
    decreases |events|
  {
    if events == [] then s
    else
      StepKeepsFiled(c, s, events[0]);
      Ends(c, Apply(c, s, events[0]), events[1..])
  }

  /** MAC k has a punch entry all along a run. */
  ghost predicate StaysOnFile(c: Config, s: State, events: seq<Event>, k: Mac)
    requires Filed(s) && Follows(c, s, events)
    decreases |events|
  {
    && k in s.punch
    && (events == [] || (StepKeepsFiled(c, s, events[0]); StaysOnFile(c, Apply(c, s, events[0]), events[1..], k)))
  }

  /** So over any run a punch entry is the same one until it is dropped. */
  lemma {:induction false} PunchSameUntilDropped(c: Config, s: State, events: seq<Event>, k: Mac)
    requires Filed(s) && Follows(c, s, events) && StaysOnFile(c, s, events, k)
    ensures k in Ends(c, s, events).punch && Ends(c, s, events).punch[k] == s.punch[k]
    decreases |events|
  {
    if events != [] {
      StepKeepsFiled(c, s, events[0]);
      PunchNeverOverwritten(c, s, events[0]);
      hide Apply, Filed, Enabled;
      PunchSameUntilDropped(c, Apply(c, s, events[0]), events[1..], k);
    }
  }

  ghost predicate AllHonest(c: Config, s: State, events: seq<Event>)
    requires Filed(s) && Follows(c, s, events)
    decreases |events|
  {
    events == [] ||
    (Honest(s, events[0]) && (StepKeepsFiled(c, s, events[0]); AllHonest(c, Apply(c, s, events[0]), events[1..])))
  }

  /** While senders are honest the established map stays filed by MAC. */
  lemma {:induction false} HonestRunsStayFiled(c: Config, s: State, events: seq<Event>)
    requires Filed(s) && LiveFiled(s) && Follows(c, s, events) && AllHonest(c, s, events)
    ensures LiveFiled(Ends(c, s, events))
    decreases |events|
  {
    if events != [] {
      StepKeepsLiveFiled(c, s, events[0]);
      hide Apply, Filed, LiveFiled, Enabled, Honest;
      HonestRunsStayFiled(c, Apply(c, s, events[0]), events[1..]);
    }
  }
}
