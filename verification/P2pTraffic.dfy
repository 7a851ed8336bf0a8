/** Everything the service sends, counted message by message over whole runs, and everything it remembers
    of a connection. */
module P2pTraffic {
  import opened Bits
  import opened P2pModel
  import opened P2pRuns
  import opened P2pRetry
  import opened P2pHandshake

  function One(b: bool): nat {
    if b then 1 else 0
  }

  function Least(a: nat, b: nat): nat {
    if a < b then a else b
  }

  /** How many of the keys the established map files this context under. */
  function KeysOn(live: map<Mac, Ref>, keys: seq<Mac>, r: Ref): nat {
    if keys == [] then 0 else One(keys[0] in live && live[keys[0]] == r) + KeysOn(live, keys[1..], r)
  }

  /** A context not heard from for more than the heartbeat and two seconds. */
  predicate Quiet(p: Peer, now: int) {
    (now - p.lastReceive) % TWO_32 > 7
  }

  /** The pings a tick sends on a context: one for every key it is filed under, until three are
      unanswered. */
  function PingsDue(s: State, keys: seq<Mac>, now: int, r: Ref): nat
    requires r < |s.contexts|
  {
    var p := s.contexts[r];
    if Quiet(p, now) && p.pings < 3 then Least(KeysOn(s.live, keys, r), 3 - p.pings) else 0
  }

  /** Whether a tick gives the context up: quiet with no ping left to send, or silent for too long. */
  predicate GivenUp(c: Config, s: State, keys: seq<Mac>, now: int, r: Ref)
    requires r < |s.contexts|
  {
    var p := s.contexts[r];
    var n := KeysOn(s.live, keys, r);
    n > 0 && if Quiet(p, now) then p.pings + n > 3 else (now - p.lastReceive) % TWO_32 > c.offline
  }

  /** Whether an event sends a trigger for the MAC: a punch socket is dialled, or triggered again. */
  predicate Triggers(c: Config, s: State, e: Event, mac: Mac) {
    var dials := mac !in s.punch && c.punchLife > 0;
    || (e.Outgoing? && e.mac == mac && s.running && mac !in s.live && NeedsPunch(c, s, mac, e.now, e.known)
        && dials && e.dial.Up?)
    || (e.Triggered? && e.mac == mac && Unicast(mac) && mac !in s.trying && mac !in s.live
        && (if mac in s.punch then e.now - s.punch[mac].start < c.punchLife && s.punch[mac].handler
            else dials && e.dial.Up?))
  }

  /** How often an event sends a message. */
  ghost function Due(c: Config, s: State, e: Event, m: Message): nat
    requires Filed(s) && Enabled(s, e)
  {
    match m
    case Data(r) => One(e.Outgoing? && s.running && Unicast(e.mac) && e.mac in s.live && s.live[e.mac] == r)
    case Pong(r) => One(e.Incoming? && e.frame.PingFrame? && e.ref == r)
    case Reply(r) => One(e.Incoming? && e.frame.Try? && e.src in s.trying && s.trying[e.src] == r)
    case TimedTry(r) =>
      One(e.Tock? && s.running && r < |s.contexts| && IsAttempt(s, r) && s.contexts[r].tries < c.tryLimit)
    case Ping(r) =>
      if e.Tock? then (if s.running && r < |s.contexts| then PingsDue(s, e.liveKeys, e.now, r) else 0)
      else
        One((e.Idle? && e.ref == r) ||
            (e.Acked? && r == |s.contexts| && AckAccepted(s, e.mac, e.hasSock, e.valid, e.dial)))
    case Trigger(mac) => One(Triggers(c, s, e, mac))
  }

  predicate IsAttempt(s: State, r: Ref)
    requires r < |s.contexts|
  {
    var k := s.contexts[r].mac;
    k in s.trying && s.trying[k] == r
  }

  // ----- the two sweeps of a tick -----

  lemma VisitLiveSays(c: Config, s: State, key: Mac, now: int, m: Message)
    requires Filed(s)
    ensures var s' := VisitLive(c, s, key, now).0;
            var pings := key in s.live && Quiet(s.contexts[s.live[key]], now) && s.contexts[s.live[key]].pings < 3;
            Count(s'.sent, m) == Count(s.sent, m) + One(pings && m == Ping(s.live[key]))
  {
    hide Count;
    if key in s.live {
      CountSend(s.sent, m, Ping(s.live[key]));
    }
  }

  lemma VisitLiveAtRef(c: Config, s: State, key: Mac, now: int, r: Ref)
    requires Filed(s) && r < |s.contexts|
    ensures var s' := VisitLive(c, s, key, now).0;
            var p := s.contexts[r];
            && |s'.contexts| == |s.contexts|
            && s'.contexts[r] ==
               if !(key in s.live && s.live[key] == r) then p
               else if Quiet(p, now) && p.pings < 3 then p.(pings := p.pings + 1)
               else if Quiet(p, now) || (now - p.lastReceive) % TWO_32 > c.offline then p.(connected := false)
               else p
  {
  }

  /** What the sweep over established contexts does to one of them. */
  lemma {:induction false} SweepLiveAtRef(c: Config, s: State, keys: seq<Mac>, now: int, r: Ref)
    requires Filed(s) && r < |s.contexts|
    ensures var s' := SweepLive(c, s, keys, now).0;
            var p := s.contexts[r];
            && |s'.contexts| == |s.contexts|
            && s'.contexts[r] == p.(pings := p.pings + PingsDue(s, keys, now, r),
                                    connected := p.connected && !GivenUp(c, s, keys, now, r))
    decreases |keys|
  {
    if keys != [] {
      var s1 := VisitLive(c, s, keys[0], now).0;
      VisitLivePings(c, s, keys[0], now);
      ShrunkIsFiled(s, s1);
      VisitLiveAtRef(c, s, keys[0], now, r);
      hide VisitLive, Filed, Pinged, Shrunk;
      SweepLiveAtRef(c, s1, keys[1..], now, r);
    }
  }

  /** The first key's share of the pings. */
  lemma PingsDueStep(c: Config, s: State, s1: State, keys: seq<Mac>, now: int, r: Ref)
    requires keys != [] && r < |s.contexts| == |s1.contexts| && s1.live == s.live
    requires var p := s.contexts[r];
             var pinged := keys[0] in s.live && s.live[keys[0]] == r && Quiet(p, now) && p.pings < 3;
             s1.contexts[r].pings == p.pings + One(pinged) && s1.contexts[r].lastReceive == p.lastReceive
    ensures var p := s.contexts[r];
            var pinged := keys[0] in s.live && s.live[keys[0]] == r && Quiet(p, now) && p.pings < 3;
            PingsDue(s, keys, now, r) == One(pinged) + PingsDue(s1, keys[1..], now, r)
  {
  }

  lemma {:induction false} SweepLiveSays(c: Config, s: State, keys: seq<Mac>, now: int, m: Message)
    requires Filed(s)
    ensures Count(SweepLive(c, s, keys, now).0.sent, m) ==
            Count(s.sent, m) + (if m.Ping? && m.ref < |s.contexts| then PingsDue(s, keys, now, m.ref) else 0)
    decreases |keys|
  {
    if keys != [] {
      var s1 := VisitLive(c, s, keys[0], now).0;
      VisitLivePings(c, s, keys[0], now);
      ShrunkIsFiled(s, s1);
      VisitLiveSays(c, s, keys[0], now, m);
      assert keys[0] in s.live ==> s.live[keys[0]] < |s.contexts|;
      if m.Ping? && m.ref < |s.contexts| {
        VisitLiveAtRef(c, s, keys[0], now, m.ref);
        PingsDueStep(c, s, s1, keys, now, m.ref);
      }
      hide VisitLive, Filed, Shrunk, Count, PingsDue, KeysOn, Quiet;
      SweepLiveSays(c, s1, keys[1..], now, m);
    }
  }

  lemma VisitLiveGone(c: Config, s: State, key: Mac, now: int)
    requires Filed(s)
    ensures var gone := VisitLive(c, s, key, now).1;
            var r := if key in s.live then s.live[key] else 0;
            gone == if key in s.live && GivesUpOn(c, s.contexts[r], now) then [s.contexts[r].mac] else []
  {
  }

  predicate GivesUpOn(c: Config, p: Peer, now: int) {
    if Quiet(p, now) then p.pings >= 3 else (now - p.lastReceive) % TWO_32 > c.offline
  }

  lemma GivenUpStep(c: Config, s: State, s1: State, keys: seq<Mac>, now: int, r: Ref)
    requires keys != [] && r < |s.contexts| == |s1.contexts| && s1.live == s.live
    requires var p := s.contexts[r];
             var pinged := keys[0] in s.live && s.live[keys[0]] == r && Quiet(p, now) && p.pings < 3;
             s1.contexts[r].pings == p.pings + One(pinged) && s1.contexts[r].lastReceive == p.lastReceive
    ensures var first := keys[0] in s.live && s.live[keys[0]] == r && GivesUpOn(c, s.contexts[r], now);
            GivenUp(c, s, keys, now, r) <==> first || GivenUp(c, s1, keys[1..], now, r)
  {
  }

  /** The MACs a tick strikes off are those of the contexts it gives up, under whatever key. */
  lemma {:induction false} SweepLiveGone(c: Config, s: State, keys: seq<Mac>, now: int, k: Mac)
    requires Filed(s)
    ensures k in SweepLive(c, s, keys, now).1 <==>
            exists r: Ref :: r < |s.contexts| && GivenUp(c, s, keys, now, r) && s.contexts[r].mac == k
    decreases |keys|
  {
    if keys != [] {
      var s1 := VisitLive(c, s, keys[0], now).0;
      VisitLivePings(c, s, keys[0], now);
      ShrunkIsFiled(s, s1);
      VisitLiveGone(c, s, keys[0], now);
      forall r: Ref | r < |s.contexts|
        ensures s1.contexts[r].mac == s.contexts[r].mac
        ensures var first := keys[0] in s.live && s.live[keys[0]] == r && GivesUpOn(c, s.contexts[r], now);
                GivenUp(c, s, keys, now, r) <==> first || GivenUp(c, s1, keys[1..], now, r)
      {
        VisitLiveAtRef(c, s, keys[0], now, r);
        GivenUpStep(c, s, s1, keys, now, r);
      }
      assert keys[0] in s.live ==> s.live[keys[0]] < |s.contexts|;
      assert |s1.contexts| == |s.contexts|;
      hide VisitLive, Filed, Pinged, Shrunk, GivenUp, GivesUpOn, Quiet;
      SweepLiveGone(c, s1, keys[1..], now, k);
    }
  }

  /** So a tick ends exactly the connections filed under such a MAC. */
  lemma TickEnds(c: Config, s: State, now: int, liveKeys: seq<Mac>, tryKeys: seq<Mac>, k: Mac)
    requires Filed(s) && s.running
    ensures var s' := Tick(c, s, now, liveKeys, tryKeys);
            && (k in s'.live <==>
                && k in s.live
                && !exists r: Ref :: r < |s.contexts| && GivenUp(c, s, liveKeys, now, r) && s.contexts[r].mac == k)
            && (k in s'.live ==> s'.live[k] == s.live[k])
  {
    TickIs(c, s, now, liveKeys, tryKeys);
    SweepLiveGone(c, s, liveKeys, now, k);
    SweepLivePings(c, s, liveKeys, now);
    hide SweepLive, SweepTrying, Exhaust, Tick, GivenUp, Filed;
    var s2 := Rung(c, s, now, liveKeys);
    hide Rung;
    SweepTryingTries(c, s2, tryKeys);
    var (s3, gone) := SweepTrying(c, s2, tryKeys);
    ExhaustDrops(s3, gone, now);
  }

  lemma VisitTryingSays(c: Config, s: State, key: Mac, m: Message)
    requires Filed(s)
    ensures var s' := VisitTrying(c, s, key).0;
            var tries := key in s.trying && s.contexts[s.trying[key]].tries < c.tryLimit;
            Count(s'.sent, m) == Count(s.sent, m) + One(tries && m == TimedTry(s.trying[key]))
  {
    hide Count;
    if key in s.trying {
      CountSend(s.sent, m, TimedTry(s.trying[key]));
    }
  }

  lemma VisitTryingAtRef(c: Config, s: State, key: Mac, r: Ref)
    requires Filed(s) && r < |s.contexts|
    ensures var s' := VisitTrying(c, s, key).0;
            var p := s.contexts[r];
            && |s'.contexts| == |s.contexts|
            && s'.contexts[r] ==
               if !(key in s.trying && s.trying[key] == r) then p
               else if p.tries < c.tryLimit then p.(tries := p.tries + 1)
               else p.(connected := false)
  {
  }

  /** The key an attempt is filed under is its MAC. */
  lemma AttemptKey(s: State, key: Mac, r: Ref)
    requires Filed(s) && key in s.trying && s.trying[key] == r
    ensures r < |s.contexts| && s.contexts[r].mac == key && IsAttempt(s, r)
  {
  }

  /** What the sweep over attempts does to one context. */
  lemma {:induction false} SweepTryingAtRef(c: Config, s: State, keys: seq<Mac>, r: Ref)
    requires Filed(s) && Distinct(keys) && r < |s.contexts|
    ensures var s' := SweepTrying(c, s, keys).0;
            var p := s.contexts[r];
            var tried := IsAttempt(s, r) && p.mac in keys;
            && |s'.contexts| == |s.contexts|
            && s'.contexts[r] == p.(tries := p.tries + One(tried && p.tries < c.tryLimit),
                                    connected := p.connected && !(tried && p.tries >= c.tryLimit))
    decreases |keys|
  {
    if keys != [] {
      var s1 := VisitTrying(c, s, keys[0]).0;
      VisitTryingTries(c, s, keys[0]);
      VisitTryingAtRef(c, s, keys[0], r);
      if keys[0] in s.trying && s.trying[keys[0]] == r {
        AttemptKey(s, keys[0], r);
      }
      assert s.contexts[r].mac in keys <==> s.contexts[r].mac == keys[0] || s.contexts[r].mac in keys[1..];
      hide VisitTrying, Filed;
      SweepTryingAtRef(c, s1, keys[1..], r);
    }
  }

  lemma {:induction false} SweepTryingSays(c: Config, s: State, keys: seq<Mac>, m: Message)
    requires Filed(s) && Distinct(keys)
    ensures Count(SweepTrying(c, s, keys).0.sent, m) ==
            Count(s.sent, m) + One(m.TimedTry? && m.ref < |s.contexts| && IsAttempt(s, m.ref)
                                   && s.contexts[m.ref].mac in keys && s.contexts[m.ref].tries < c.tryLimit)
    decreases |keys|
  {
    if keys != [] {
      var s1 := VisitTrying(c, s, keys[0]).0;
      VisitTryingTries(c, s, keys[0]);
      VisitTryingSays(c, s, keys[0], m);
      if keys[0] in s.trying {
        AttemptKey(s, keys[0], s.trying[keys[0]]);
      }
      if m.TimedTry? && m.ref < |s.contexts| {
        VisitTryingAtRef(c, s, keys[0], m.ref);
        var k := s.contexts[m.ref].mac;
        assert k in keys <==> k == keys[0] || k in keys[1..];
      }
      hide VisitTrying, Filed, Count;
      SweepTryingSays(c, s1, keys[1..], m);
    }
  }

  // ----- a whole tick -----

  lemma RungSays(c: Config, s: State, now: int, keys: seq<Mac>, m: Message)
    requires Filed(s)
    ensures var s2 := Rung(c, s, now, keys);
            && Count(s2.sent, m) ==
               Count(s.sent, m) + (if m.Ping? && m.ref < |s.contexts| then PingsDue(s, keys, now, m.ref) else 0)
            && s2.trying == s.trying && |s2.contexts| == |s.contexts|
  {
    SweepLiveSays(c, s, keys, now, m);
    SweepLivePings(c, s, keys, now);
    hide SweepLive, Count;
  }

  lemma RungAtRef(c: Config, s: State, now: int, keys: seq<Mac>, r: Ref)
    requires Filed(s) && r < |s.contexts|
    ensures var s2 := Rung(c, s, now, keys);
            var p := s.contexts[r];
            && s2.trying == s.trying && |s2.contexts| == |s.contexts|
            && s2.contexts[r] == p.(pings := p.pings + PingsDue(s, keys, now, r),
                                    connected := p.connected && !GivenUp(c, s, keys, now, r))
  {
    SweepLiveAtRef(c, s, keys, now, r);
    SweepLivePings(c, s, keys, now);
    hide SweepLive;
  }

  lemma TickSays(c: Config, s: State, now: int, liveKeys: seq<Mac>, tryKeys: seq<Mac>, m: Message)
    requires Filed(s) && s.running && Enumerates(tryKeys, s.trying)
    ensures Count(Tick(c, s, now, liveKeys, tryKeys).sent, m) == Count(s.sent, m) +
            match m
            case Ping(r) => if r < |s.contexts| then PingsDue(s, liveKeys, now, r) else 0
            case TimedTry(r) => One(r < |s.contexts| && IsAttempt(s, r) && s.contexts[r].tries < c.tryLimit)
            case _ => 0
  {
    TickIs(c, s, now, liveKeys, tryKeys);
    RungSays(c, s, now, liveKeys, m);
    if m.TimedTry? && m.ref < |s.contexts| {
      RungAtRef(c, s, now, liveKeys, m.ref);
    }
    hide Rung, SweepTrying, Exhaust, Tick, SweepLive, Count, Filed, PingsDue, GivenUp;
    var s2 := Rung(c, s, now, liveKeys);
    SweepTryingSays(c, s2, tryKeys, m);
    var (s3, gone) := SweepTrying(c, s2, tryKeys);
    ExhaustDrops(s3, gone, now);
  }

  lemma TickAtRef(c: Config, s: State, now: int, liveKeys: seq<Mac>, tryKeys: seq<Mac>, r: Ref)
    requires Filed(s) && s.running && Enumerates(tryKeys, s.trying) && r < |s.contexts|
    ensures var s' := Tick(c, s, now, liveKeys, tryKeys);
            var p := s.contexts[r];
            var attempt := IsAttempt(s, r);
            && |s'.contexts| == |s.contexts|
            && s'.contexts[r] ==
               p.(pings := p.pings + PingsDue(s, liveKeys, now, r),
                  tries := p.tries + One(attempt && p.tries < c.tryLimit),
                  connected := p.connected && !GivenUp(c, s, liveKeys, now, r) && !(attempt && p.tries >= c.tryLimit))
  {
    TickIs(c, s, now, liveKeys, tryKeys);
    RungAtRef(c, s, now, liveKeys, r);
    hide Rung, SweepTrying, Exhaust, Tick, SweepLive, Filed, PingsDue, GivenUp;
    var s2 := Rung(c, s, now, liveKeys);
    SweepTryingAtRef(c, s2, tryKeys, r);
    var (s3, gone) := SweepTrying(c, s2, tryKeys);
    ExhaustDrops(s3, gone, now);
  }

  // ----- every event -----

  lemma StartPunchSays(c: Config, s: State, mac: Mac, trigger: bool, now: int, dial: Dial)
    ensures var said := if mac in s.punch then
                          trigger && now - s.punch[mac].start < c.punchLife && s.punch[mac].handler
                        else dial.Up? && c.punchLife > 0;
            StartPunch(c, s, mac, trigger, now, dial).sent == s.sent + (if said then [Trigger(mac)] else [])
  {
    assert s.sent + [] == s.sent;
    if mac in s.punch {
      TriggerSays(c, s, mac, now);
    } else {
      NewPunchSays(c, s, mac, now, dial);
    }
    hide SendTrigger, NewPunch;
  }

  lemma TriggerSays(c: Config, s: State, mac: Mac, now: int)
    requires mac in s.punch
    ensures SendTrigger(c, s, mac, now).sent == s.sent +
            (if now - s.punch[mac].start < c.punchLife && s.punch[mac].handler then [Trigger(mac)] else [])
  {
    assert s.sent + [] == s.sent;
  }

  lemma NewPunchSays(c: Config, s: State, mac: Mac, now: int, dial: Dial)
    ensures NewPunch(c, s, mac, now, dial).sent ==
            s.sent + (if dial.Up? && c.punchLife > 0 then [Trigger(mac)] else [])
  {
    assert s.sent + [] == s.sent;
    if dial.Up? {
      var s1 := s.(punch := s.punch[mac := Punch(mac, now, false, false)]);
      TriggerSays(c, s1.(punch := s1.punch[mac := Punch(mac, now, true, false)]), mac, now);
      hide SendTrigger;
    }
  }

  lemma CountMaybe(sent: seq<Message>, m: Message, said: bool, x: Message)
    ensures Count(sent + (if said then [x] else []), m) == Count(sent, m) + One(said && m == x)
  {
    CountSend(sent, m, x);
    hide Count;
    assert sent + [] == sent;
  }

  lemma ForwardSays(c: Config, s: State, mac: Mac, now: int, known: bool, dial: Dial)
    requires Filed(s)
    ensures var data := s.running && Unicast(mac) && mac in s.live;
            var trigger := Triggers(c, s, Outgoing(mac, now, known, dial), mac);
            && !(data && trigger)
            && Forward(c, s, mac, now, known, dial).sent ==
               s.sent + (if trigger then [Trigger(mac)] else if data then [Data(s.live[mac])] else [])
  {
    StartPunchSays(c, s, mac, false, now, dial);
    assert s.sent + [] == s.sent;
    hide StartPunch, Elapsed;
  }

  lemma TriggeredSays(c: Config, s: State, mac: Mac, now: int, dial: Dial)
    ensures OnTrigger(c, s, mac, now, dial).sent ==
            s.sent + (if Triggers(c, s, Triggered(mac, now, dial), mac) then [Trigger(mac)] else [])
  {
    StartPunchSays(c, s, mac, true, now, dial);
    assert s.sent + [] == s.sent;
    hide StartPunch, NeedsPunch;
  }

  lemma TriggersOwn(c: Config, s: State, e: Event, mac: Mac)
    requires (e.Outgoing? || e.Triggered?) && mac != e.mac
    ensures !Triggers(c, s, e, mac)
  {
  }

  lemma OutgoingSays(c: Config, s: State, e: Event, m: Message)
    requires Filed(s) && Enabled(s, e) && e.Outgoing?
    ensures Count(Apply(c, s, e).sent, m) == Count(s.sent, m) + Due(c, s, e, m)
  {
    ForwardSays(c, s, e.mac, e.now, e.known, e.dial);
    if m.Trigger? && m.mac != e.mac {
      TriggersOwn(c, s, e, m.mac);
    }
    hide Forward, Triggers, Filed, NeedsPunch;
    if Triggers(c, s, e, e.mac) {
      CountMaybe(s.sent, m, true, Trigger(e.mac));
    } else if s.running && Unicast(e.mac) && e.mac in s.live {
      CountMaybe(s.sent, m, true, Data(s.live[e.mac]));
    } else {
      CountMaybe(s.sent, m, false, m);
    }
    hide Count;
  }

  lemma TriggerEventSays(c: Config, s: State, e: Event, m: Message)
    requires Filed(s) && Enabled(s, e) && e.Triggered?
    ensures Count(Apply(c, s, e).sent, m) == Count(s.sent, m) + Due(c, s, e, m)
  {
    TriggeredSays(c, s, e.mac, e.now, e.dial);
    if m.Trigger? && m.mac != e.mac {
      TriggersOwn(c, s, e, m.mac);
    }
    hide OnTrigger, Triggers, Filed;
    CountMaybe(s.sent, m, Triggers(c, s, e, e.mac), Trigger(e.mac));
    hide Count;
  }

  lemma FrameSays(s: State, q: Ref, frame: Frame, src: Mac, now: int, m: Message)
    requires Filed(s) && q < |s.contexts|
    ensures Count(OnFrame(s, q, frame, src, now).sent, m) == Count(s.sent, m)
            + One(frame.PingFrame? && m == Pong(q))
            + One(frame.Try? && src in s.trying && m == Reply(s.trying[src]))
  {
    CountSend(s.sent, m, Pong(q));
    if src in s.trying {
      CountSend(s.sent, m, Reply(s.trying[src]));
    }
    hide Count;
  }

  lemma OtherSays(c: Config, s: State, e: Event, m: Message)
    requires Filed(s) && Enabled(s, e) && !e.Tock? && !e.Outgoing? && !e.Triggered? && !e.Incoming?
    ensures Count(Apply(c, s, e).sent, m) == Count(s.sent, m) + Due(c, s, e, m)
  {
    if e.Acked? {
      AckSays(s, e.mac, e.hasSock, e.valid, e.now, e.dial, m);
      hide Count, OnAck;
    } else if e.Idle? {
      CountSend(s.sent, m, Ping(e.ref));
      hide Count;
    } else {
      assert Apply(c, s, e).sent == s.sent;
      hide Count, Apply;
    }
  }

  lemma AckSays(s: State, mac: Mac, hasSock: bool, valid: bool, now: int, dial: Dial, m: Message)
    ensures Count(OnAck(s, mac, hasSock, valid, now, dial).sent, m) ==
            Count(s.sent, m) + One(AckAccepted(s, mac, hasSock, valid, dial) && m == Ping(|s.contexts|))
  {
    CountSend(s.sent, m, Ping(|s.contexts|));
    hide Count;
  }

  /** One event sends each message as often as it should. */
  lemma StepSays(c: Config, s: State, e: Event, m: Message)
    requires Filed(s) && Enabled(s, e)
    ensures Count(Apply(c, s, e).sent, m) == Count(s.sent, m) + Due(c, s, e, m)
  {
    if e.Outgoing? {
      OutgoingSays(c, s, e, m);
    } else if e.Triggered? {
      TriggerEventSays(c, s, e, m);
    } else if e.Tock? {
      if s.running {
        TickSays(c, s, e.now, e.liveKeys, e.tryKeys, m);
      } else {
        TickIdle(c, s, e.now, e.liveKeys, e.tryKeys);
      }
      hide Tick, Count;
    } else if e.Incoming? {
      FrameSays(s, e.ref, e.frame, e.src, e.now, m);
      hide OnFrame, Count;
    } else {
      OtherSays(c, s, e, m);
    }
  }

  /** How often the events of a run send a message. */
  ghost function Owed(c: Config, events: seq<Event>, m: Message): nat
    requires Possible(c, events)
    decreases |events|
  {
    if events == [] then 0
    else
      var init, last := events[..|events| - 1], events[|events| - 1];
      Owed(c, init, m) + Due(c, After(c, init), last, m)
  }

  /** Over every run every message has been sent exactly as often as the events ask for it: a packet for
      every forwarded one that finds its peer established, a pong for every ping, a reply for every
      promotion, a try for every tick on an attempt below its limit, a ping for every idle event, accepted
      ack and quiet tick, a trigger for every punch. */
  lemma {:induction false} TrafficExact(c: Config, events: seq<Event>, m: Message)
    requires Possible(c, events)
    ensures Count(After(c, events).sent, m) == Owed(c, events, m)
    decreases |events|
  {
    if events != [] {
      var init, last := events[..|events| - 1], events[|events| - 1];
      TrafficExact(c, init, m);
      StepSays(c, After(c, init), last, m);
      hide Apply, Filed, Enabled, Due, Count;
    }
  }

  // ----- what is remembered of a connection -----

  /** Whether an event ends the connection of a context from this side. */
  ghost predicate Lost(c: Config, s: State, e: Event, r: Ref)
    requires Filed(s) && Enabled(s, e) && r < |s.contexts|
  {
    e.Tock? && s.running &&
    (GivenUp(c, s, e.liveKeys, e.now, r) || (IsAttempt(s, r) && s.contexts[r].tries >= c.tryLimit))
  }

  /** One event, and everything a context remembers: when it was last heard, the pings unanswered since,
      its tries, and whether it is connected. */
  lemma StepRemembers(c: Config, s: State, e: Event, r: Ref)
    requires Filed(s) && Enabled(s, e) && r < |s.contexts|
    ensures var p := s.contexts[r];
            var heard := e.Incoming? && e.ref == r;
            && r < |Apply(c, s, e).contexts|
            && Apply(c, s, e).contexts[r] ==
               Peer(p.mac, p.handler, p.connected && !Lost(c, s, e, r), p.tries + Due(c, s, e, TimedTry(r)),
                    if heard then e.now else p.lastReceive,
                    if heard then 0 else p.pings + Due(c, s, e, Ping(r)))
  {
    if e.Tock? {
      if s.running {
        TickAtRef(c, s, e.now, e.liveKeys, e.tryKeys, r);
      } else {
        TickIdle(c, s, e.now, e.liveKeys, e.tryKeys);
      }
      hide Tick, PingsDue, GivenUp;
    } else if e.Outgoing? || e.Triggered? {
      StartPunchPunches(c, s, e.mac, e.Triggered?, e.now, e.dial);
      hide StartPunch, NeedsPunch;
    } else if e.Incoming? {
      FrameRemembers(s, e.ref, e.frame, e.src, e.now, r);
      hide OnFrame;
    } else {
      hide Tick, Forward, OnTrigger, OnFrame;
    }
  }

  lemma FrameRemembers(s: State, q: Ref, frame: Frame, src: Mac, now: int, r: Ref)
    requires q < |s.contexts| && r < |s.contexts| && s.contexts[q].handler
    ensures var s' := OnFrame(s, q, frame, src, now);
            |s'.contexts| == |s.contexts| &&
            s'.contexts[r] == if q == r then s.contexts[r].(lastReceive := now, pings := 0) else s.contexts[r]
  {
  }

  /** When a context was last heard, by the frames of the run alone. */
  function LastHeard(events: seq<Event>, r: Ref): int {
    if events == [] then 0
    else
      var last := events[|events| - 1];
      if last.Incoming? && last.ref == r then last.now else LastHeard(events[..|events| - 1], r)
  }

  /** The pings sent on a context since it was last heard or created. */
  ghost function Unanswered(c: Config, events: seq<Event>, r: Ref): nat
    requires Possible(c, events)
    decreases |events|
  {
    if events == [] then 0
    else
      var init, last := events[..|events| - 1], events[|events| - 1];
      if r >= |After(c, init).contexts| || (last.Incoming? && last.ref == r) then 0
      else Unanswered(c, init, r) + Due(c, After(c, init), last, Ping(r))
  }

  lemma NewContext(c: Config, s: State, e: Event)
    requires Filed(s) && Enabled(s, e) && |Apply(c, s, e).contexts| > |s.contexts|
    ensures e.Acked? && |Apply(c, s, e).contexts| == |s.contexts| + 1
    ensures var up := AckAccepted(s, e.mac, e.hasSock, e.valid, e.dial);
            Apply(c, s, e).contexts[|s.contexts|] == Peer(e.mac, up, up, 0, 0, 0)
  {
    OnlyAcksCreate(c, s, e);
  }

  /** Over every run a context remembers exactly when it was last heard, how many pings have gone out
      since, and how often it was tried. */
  lemma {:induction false} ContextRemembers(c: Config, events: seq<Event>, r: Ref)
    requires Possible(c, events) && r < |After(c, events).contexts|
    ensures var p := After(c, events).contexts[r];
            && p.lastReceive == LastHeard(events, r)
            && p.pings == Unanswered(c, events, r)
            && p.tries == Owed(c, events, TimedTry(r))
    decreases |events|
  {
    var n := |events| - 1;
    var init, last := events[..n], events[n];
    var s := After(c, init);
    if r < |s.contexts| {
      ContextRemembers(c, init, r);
      StepRemembers(c, s, last, r);
      hide Apply, Filed, Enabled, Due;
    } else {
      NewContext(c, s, last);
      TrafficExact(c, events, TimedTry(r));
      TryTrafficBounded(c, events, r);
      NeverHeard(c, init, r);
      hide Apply, Filed, Due, Count;
    }
  }

  /** A context that does not exist yet has not been heard. */
  lemma {:induction false} NeverHeard(c: Config, events: seq<Event>, r: Ref)
    requires Possible(c, events) && r >= |After(c, events).contexts|
    ensures LastHeard(events, r) == 0
    decreases |events|
  {
    if events != [] {
      var init, last := events[..|events| - 1], events[|events| - 1];
      StepKeepsFiled(c, After(c, init), last);
      hide Apply, Filed;
      NeverHeard(c, init, r);
    }
  }
}
