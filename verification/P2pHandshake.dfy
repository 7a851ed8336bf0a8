/** The try/reply handshake: how many messages a context can send, and what a promotion on one side
    says about the other, over a network that loses, delays and duplicates. */
module P2pHandshake {
  import opened Bits
  import opened P2pModel
  import opened P2pRuns
  import opened P2pRetry

  function Count(sent: seq<Message>, m: Message): nat {
    if sent == [] then 0 else Count(sent[..|sent| - 1], m) + (if sent[|sent| - 1] == m then 1 else 0)
  }

  lemma CountSend(sent: seq<Message>, m: Message, x: Message)
    ensures Count(sent + [x], m) == Count(sent, m) + (if x == m then 1 else 0)
  {
    assert (sent + [x])[..|sent|] == sent;
  }

  // ----- what one context has said -----

  /** A context's timed tries are its try count, it has replied at most once, and not at all while it
      is still an attempt. */
  ghost predicate SpokeAt(s: State, r: Ref) {
    && Count(s.sent, TimedTry(r)) == (if r < |s.contexts| then s.contexts[r].tries else 0)
    && Count(s.sent, Reply(r)) <= 1
    && (Count(s.sent, TimedTry(r)) + Count(s.sent, Reply(r)) > 0 ==> r < |s.contexts| && s.contexts[r].handler)
    && (forall k :: k in s.trying && s.trying[k] == r ==> Count(s.sent, Reply(r)) == 0)
  }

  lemma VisitTryingSpeaks(c: Config, s: State, key: Mac, r: Ref)
    requires Filed(s) && SpokeAt(s, r)
    ensures SpokeAt(VisitTrying(c, s, key).0, r)
  {
    hide Count;
    if key in s.trying {
      CountSend(s.sent, TimedTry(r), TimedTry(s.trying[key]));
      CountSend(s.sent, Reply(r), TimedTry(s.trying[key]));
    }
  }

  lemma {:induction false} SweepTryingSpeaks(c: Config, s: State, keys: seq<Mac>, r: Ref)
    requires Filed(s) && SpokeAt(s, r)
    ensures SpokeAt(SweepTrying(c, s, keys).0, r)
    decreases |keys|
  {
    if keys != [] {
      VisitTryingTries(c, s, keys[0]);
      VisitTryingSpeaks(c, s, keys[0], r);
      hide VisitTrying, Filed, SpokeAt, Tried;
      SweepTryingSpeaks(c, VisitTrying(c, s, keys[0]).0, keys[1..], r);
    }
  }

  lemma VisitLiveSpeaks(c: Config, s: State, key: Mac, now: int, r: Ref)
    requires Filed(s) && SpokeAt(s, r)
    ensures SpokeAt(VisitLive(c, s, key, now).0, r)
  {
    hide Count, Elapsed;
    if key in s.live {
      CountSend(s.sent, TimedTry(r), Ping(s.live[key]));
      CountSend(s.sent, Reply(r), Ping(s.live[key]));
    }
  }

  lemma {:induction false} SweepLiveSpeaks(c: Config, s: State, keys: seq<Mac>, now: int, r: Ref)
    requires Filed(s) && SpokeAt(s, r)
    ensures SpokeAt(SweepLive(c, s, keys, now).0, r)
    decreases |keys|
  {
    if keys != [] {
      VisitLivePings(c, s, keys[0], now);
      ShrunkIsFiled(s, VisitLive(c, s, keys[0], now).0);
      VisitLiveSpeaks(c, s, keys[0], now, r);
      hide VisitLive, Filed, SpokeAt, Pinged;
      SweepLiveSpeaks(c, VisitLive(c, s, keys[0], now).0, keys[1..], now, r);
    }
  }

  lemma TickSpeaks(c: Config, s: State, now: int, liveKeys: seq<Mac>, tryKeys: seq<Mac>, r: Ref)
    requires Filed(s) && SpokeAt(s, r)
    ensures SpokeAt(Tick(c, s, now, liveKeys, tryKeys), r)
  {
    if s.running {
      hide Count, SweepTrying, SweepLive, Exhaust;
      SweepLiveSpeaks(c, s, liveKeys, now, r);
      SweepLivePings(c, s, liveKeys, now);
      RungShrinks(c, s, now, liveKeys);
      var s2 := Rung(c, s, now, liveKeys);
      assert SpokeAt(s2, r);
      SweepTryingSpeaks(c, s2, tryKeys, r);
      var (s3, gone) := SweepTrying(c, s2, tryKeys);
      ExhaustDrops(s3, gone, now);
      TickIs(c, s, now, liveKeys, tryKeys);
      hide Tick;
    }
  }

  /** Punching sends a trigger or nothing. */
  ghost predicate TriggersOnly(s: State, s': State, mac: Mac) {
    s'.sent == s.sent || s'.sent == s.sent + [Trigger(mac)]
  }

  lemma SendTriggerSpeaks(c: Config, s: State, mac: Mac, now: int)
    ensures TriggersOnly(s, SendTrigger(c, s, mac, now), mac)
  {
  }

  lemma NewPunchSpeaks(c: Config, s: State, mac: Mac, now: int, dial: Dial)
    ensures TriggersOnly(s, NewPunch(c, s, mac, now, dial), mac)
  {
    var s1 := s.(punch := s.punch[mac := Punch(mac, now, false, false)]);
    SendTriggerSpeaks(c, s1.(punch := s1.punch[mac := Punch(mac, now, true, false)]), mac, now);
    hide SendTrigger;
  }

  lemma PunchSpeaks(c: Config, s: State, mac: Mac, trigger: bool, now: int, dial: Dial)
    ensures TriggersOnly(s, StartPunch(c, s, mac, trigger, now, dial), mac)
  {
    SendTriggerSpeaks(c, s, mac, now);
    NewPunchSpeaks(c, s, mac, now, dial);
    hide SendTrigger, NewPunch;
  }

  lemma FrameSpeaks(s: State, q: Ref, frame: Frame, src: Mac, now: int, r: Ref)
    requires Filed(s) && q < |s.contexts| && SpokeAt(s, r)
    ensures SpokeAt(OnFrame(s, q, frame, src, now), r)
  {
    hide Count;
    var reply := Reply(if src in s.trying then s.trying[src] else 0);
    CountSend(s.sent, TimedTry(r), reply);
    CountSend(s.sent, Reply(r), reply);
    CountSend(s.sent, TimedTry(r), Pong(q));
    CountSend(s.sent, Reply(r), Pong(q));
    if frame.Try? && src in s.trying && s.trying[src] == r {
      assert forall k :: k in s.trying && s.trying[k] == r ==> s.contexts[r].mac == k;
    }
  }

  lemma AckSpeaks(s: State, mac: Mac, hasSock: bool, valid: bool, now: int, dial: Dial, r: Ref)
    requires Filed(s) && SpokeAt(s, r)
    ensures SpokeAt(OnAck(s, mac, hasSock, valid, now, dial), r)
  {
    hide Count;
    CountSend(s.sent, TimedTry(r), Ping(|s.contexts|));
    CountSend(s.sent, Reply(r), Ping(|s.contexts|));
  }

  lemma StepSpeaks(c: Config, s: State, e: Event, r: Ref)
    requires Filed(s) && Enabled(s, e) && SpokeAt(s, r)
    ensures SpokeAt(Apply(c, s, e), r)
  {
    hide Count, Tick, StartPunch, NeedsPunch, OnFrame, OnAck;
    match e
    case Tock(now, liveKeys, tryKeys) => TickSpeaks(c, s, now, liveKeys, tryKeys, r);
    case Outgoing(mac, now, known, dial) =>
      StartPunchPunches(c, s, mac, false, now, dial);
      PunchSpeaks(c, s, mac, false, now, dial);
      CountSend(s.sent, TimedTry(r), Trigger(mac));
      CountSend(s.sent, Reply(r), Trigger(mac));
      if mac in s.live {
        CountSend(s.sent, TimedTry(r), Data(s.live[mac]));
        CountSend(s.sent, Reply(r), Data(s.live[mac]));
      }
    case Triggered(mac, now, dial) =>
      StartPunchPunches(c, s, mac, true, now, dial);
      PunchSpeaks(c, s, mac, true, now, dial);
      CountSend(s.sent, TimedTry(r), Trigger(mac));
      CountSend(s.sent, Reply(r), Trigger(mac));
    case Acked(mac, hasSock, valid, now, dial) => AckSpeaks(s, mac, hasSock, valid, now, dial, r);
    case Incoming(q, frame, src, now) => FrameSpeaks(s, q, frame, src, now, r);
    case Idle(q) =>
      CountSend(s.sent, TimedTry(r), Ping(q));
      CountSend(s.sent, Reply(r), Ping(q));
    case _ =>
  }

  /** In every run a context sends at most the configured number of timed tries and one reply, so the
      exchange of tries and replies cannot go on for ever. */
  lemma {:induction false} TryTrafficBounded(c: Config, events: seq<Event>, r: Ref)
    requires Possible(c, events)
    ensures SpokeAt(After(c, events), r) && WithinLimit(c, After(c, events))
    ensures Count(After(c, events).sent, TimedTry(r)) <= c.tryLimit
    ensures Count(After(c, events).sent, Reply(r)) <= 1
    decreases |events|
  {
    if events != [] {
      var n := |events| - 1;
      TryTrafficBounded(c, events[..n], r);
      var s := After(c, events[..n]);
      StepSpeaks(c, s, events[n], r);
      StepWithinLimit(c, s, events[n]);
      hide Apply, Filed, Count;
    }
  }

  // ----- a reply is a promotion -----

  lemma {:induction false} SweepTryingNeverReplies(c: Config, s: State, keys: seq<Mac>, r: Ref)
    requires Filed(s)
    ensures Count(SweepTrying(c, s, keys).0.sent, Reply(r)) == Count(s.sent, Reply(r))
    decreases |keys|
  {
    if keys != [] {
      VisitTryingTries(c, s, keys[0]);
      if keys[0] in s.trying {
        CountSend(s.sent, Reply(r), TimedTry(s.trying[keys[0]]));
      }
      hide Count;
      SweepTryingNeverReplies(c, VisitTrying(c, s, keys[0]).0, keys[1..], r);
    }
  }

  lemma {:induction false} SweepLiveNeverReplies(c: Config, s: State, keys: seq<Mac>, now: int, r: Ref)
    requires Filed(s)
    ensures Count(SweepLive(c, s, keys, now).0.sent, Reply(r)) == Count(s.sent, Reply(r))
    decreases |keys|
  {
    if keys != [] {
      VisitLivePings(c, s, keys[0], now);
      ShrunkIsFiled(s, VisitLive(c, s, keys[0], now).0);
      if keys[0] in s.live {
        CountSend(s.sent, Reply(r), Ping(s.live[keys[0]]));
      }
      hide Count, Elapsed, GivesUp;
      SweepLiveNeverReplies(c, VisitLive(c, s, keys[0], now).0, keys[1..], now, r);
    }
  }

  lemma TickNeverReplies(c: Config, s: State, now: int, liveKeys: seq<Mac>, tryKeys: seq<Mac>, r: Ref)
    requires Filed(s)
    ensures Count(Tick(c, s, now, liveKeys, tryKeys).sent, Reply(r)) == Count(s.sent, Reply(r))
  {
    if s.running {
      hide Count, SweepTrying, SweepLive, Exhaust;
      SweepLiveNeverReplies(c, s, liveKeys, now, r);
      RungShrinks(c, s, now, liveKeys);
      var s2 := Rung(c, s, now, liveKeys);
      SweepTryingNeverReplies(c, s2, tryKeys, r);
      var (s3, gone) := SweepTrying(c, s2, tryKeys);
      ExhaustDrops(s3, gone, now);
      TickIs(c, s, now, liveKeys, tryKeys);
    }
  }

  /** No event but an incoming frame adds a reply. */
  lemma OthersNeverReply(c: Config, s: State, e: Event, r: Ref)
    requires Filed(s) && Enabled(s, e) && !e.Incoming?
    ensures Count(Apply(c, s, e).sent, Reply(r)) == Count(s.sent, Reply(r))
  {
    hide Count, Tick, StartPunch, NeedsPunch;
    match e
    case Tock(now, liveKeys, tryKeys) => TickNeverReplies(c, s, now, liveKeys, tryKeys, r);
    case Outgoing(mac, now, known, dial) =>
      PunchSpeaks(c, s, mac, false, now, dial);
      CountSend(s.sent, Reply(r), Trigger(mac));
      if mac in s.live {
        CountSend(s.sent, Reply(r), Data(s.live[mac]));
      }
    case Triggered(mac, now, dial) =>
      PunchSpeaks(c, s, mac, true, now, dial);
      CountSend(s.sent, Reply(r), Trigger(mac));
    case Acked(mac, hasSock, valid, now, dial) => CountSend(s.sent, Reply(r), Ping(|s.contexts|));
    case Idle(q) => CountSend(s.sent, Reply(r), Ping(q));
    case _ =>
  }

  /** A context replies only at the moment a try frame promotes it from attempt to established. */
  lemma RepliesOnlyOnPromotion(c: Config, s: State, e: Event, r: Ref)
    requires Filed(s) && Enabled(s, e)
    requires Count(Apply(c, s, e).sent, Reply(r)) > Count(s.sent, Reply(r))
    ensures e.Incoming? && e.frame.Try? && e.src in s.trying && s.trying[e.src] == r
    ensures var s' := Apply(c, s, e);
            e.src !in s'.trying && e.src in s'.live && s'.live[e.src] == r
  {
    hide Count, Filed;
    if !e.Incoming? {
      OthersNeverReply(c, s, e, r);
    } else {
      CountSend(s.sent, Reply(r), Pong(e.ref));
      if e.src in s.trying {
        CountSend(s.sent, Reply(r), Reply(s.trying[e.src]));
      }
    }
  }

  // ----- two peers -----

  datatype Side = West | East

  function Other(side: Side): Side {
    if side == West then East else West
  }

  /** Two services with their settings and MACs; third parties may exist but do not forge sources. */
  datatype World = World(config: Side -> Config, mac: Side -> Mac)

  datatype Turn = Turn(side: Side, event: Event)

  /** The events of one side of a joint run. */
  function History(turns: seq<Turn>, side: Side): seq<Event> {
    if turns == [] then []
    else
      var init := History(turns[..|turns| - 1], side);
      var last := turns[|turns| - 1];
      if last.side == side then init + [last.event] else init
  }

  /** Has sent a try or a reply on a context for `to`. */
  ghost predicate Spoken(s: State, to: Mac) {
    exists r: Ref :: r < |s.contexts| && s.contexts[r].mac == to &&
                     Count(s.sent, TimedTry(r)) + Count(s.sent, Reply(r)) > 0
  }

  /** Joint runs: a try that claims to come from the other side was sent by it to this side, some time
      ago and perhaps more than once delivered; nothing says that a sent try is delivered at all. */
  ghost predicate JointlyPossible(w: World, turns: seq<Turn>)
    decreases |turns|
  {
    && Possible(w.config(West), History(turns, West)) && Possible(w.config(East), History(turns, East))
    && (turns == [] ||
        var init, last := turns[..|turns| - 1], turns[|turns| - 1];
        && JointlyPossible(w, init)
        && (var far := Other(last.side);
            last.event.Incoming? && last.event.frame.Try? && last.event.src == w.mac(far) ==>
              Spoken(After(w.config(far), History(init, far)), w.mac(last.side))))
  }

  /** Has, or had, an attempt for `mac` that got as far as a connection. */
  ghost predicate Attempted(s: State, mac: Mac) {
    exists r: Ref :: r < |s.contexts| && s.contexts[r].mac == mac && s.contexts[r].handler
  }

  lemma SpokenMeansAttempted(c: Config, events: seq<Event>, to: Mac)
    requires Possible(c, events) && Spoken(After(c, events), to)
    ensures Attempted(After(c, events), to)
  {
    var s := After(c, events);
    var r: Ref :| r < |s.contexts| && s.contexts[r].mac == to &&
                  Count(s.sent, TimedTry(r)) + Count(s.sent, Reply(r)) > 0;
    TryTrafficBounded(c, events, r);
  }

  lemma AttemptedStays(c: Config, s: State, e: Event, mac: Mac)
    requires Filed(s) && Enabled(s, e) && Attempted(s, mac)
    ensures Attempted(Apply(c, s, e), mac)
  {
    StepKeepsFiled(c, s, e);
    hide Apply, Filed, Enabled;
    var r: Ref :| r < |s.contexts| && s.contexts[r].mac == mac && s.contexts[r].handler;
    assert Apply(c, s, e).contexts[r].mac == mac;
  }

  /** The established map gains a MAC only from a try frame that names it. */
  lemma OnlyTriesEstablish(c: Config, s: State, e: Event, k: Mac)
    requires Filed(s) && Enabled(s, e) && k in Apply(c, s, e).live && k !in s.live
    ensures e.Incoming? && e.frame.Try? && e.src == k
  {
    if !(e.Incoming? && e.frame.Try?) {
      LiveOnlyShrinks(c, s, e);
    }
  }

  lemma {:induction false} EstablishedMeansAttempted(w: World, turns: seq<Turn>, side: Side)
    requires JointlyPossible(w, turns)
    requires w.mac(Other(side)) in After(w.config(side), History(turns, side)).live
    ensures Attempted(After(w.config(Other(side)), History(turns, Other(side))), w.mac(side))
    decreases |turns|
  {
    hide Attempted, Spoken, Apply, Enabled, Filed;
    var far := Other(side);
    if turns == [] {
      assert false;
    }
    var init, last := turns[..|turns| - 1], turns[|turns| - 1];
    var near0, far0 := After(w.config(side), History(init, side)), After(w.config(far), History(init, far));
    HistoryStep(w, turns, side);
    HistoryStep(w, turns, far);
    if w.mac(far) in near0.live {
      EstablishedMeansAttempted(w, init, side);
      if last.side == far {
        AttemptedStays(w.config(far), far0, last.event, w.mac(side));
      }
    } else {
      OnlyTriesEstablish(w.config(side), near0, last.event, w.mac(far));
      SpokenMeansAttempted(w.config(far), History(init, far), w.mac(side));
    }
  }

  /** How one turn moves each side. */
  lemma HistoryStep(w: World, turns: seq<Turn>, side: Side)
    requires JointlyPossible(w, turns) && turns != []
    ensures var init, last := turns[..|turns| - 1], turns[|turns| - 1];
            var c := w.config(side);
            && Possible(c, History(init, side)) && Possible(c, History(turns, side))
            && var s := After(c, History(init, side));
            if last.side == side then
              Enabled(s, last.event) && Filed(s) && After(c, History(turns, side)) == Apply(c, s, last.event)
            else After(c, History(turns, side)) == s
  {
    hide Apply, Enabled, Filed, Spoken;
    var init, last := turns[..|turns| - 1], turns[|turns| - 1];
    assert JointlyPossible(w, init);
    if last.side == side {
      var h := History(init, side);
      assert (h + [last.event])[..|h|] == h;
    }
  }

  /** If one side holds the other as established, the other side did accept a valid ack for it, with
      a punch socket of known address: there is that event in its history. */
  lemma EstablishedMeansAcked(w: World, turns: seq<Turn>, side: Side) returns (i: nat, r: Ref)
    requires JointlyPossible(w, turns)
    requires w.mac(Other(side)) in After(w.config(side), History(turns, side)).live
    ensures Possible(w.config(Other(side)), History(turns, Other(side)))
    ensures Created(w.config(Other(side)), History(turns, Other(side)), i, r, w.mac(side))
  {
    var far := Other(side);
    EstablishedMeansAttempted(w, turns, side);
    var s := After(w.config(far), History(turns, far));
    r :| r < |s.contexts| && s.contexts[r].mac == w.mac(side) && s.contexts[r].handler;
    i := Origin(w.config(far), History(turns, far), r);
  }

  // ----- the handshake can happen -----

  /** A side that has started, punched and accepted its ack: one attempt, nothing tried yet. */
  function Attempting(m: Mac): State {
    State(true, map[m := Punch(m, 0, true, true)], map[m := 0], map[], map[],
          [Peer(m, true, true, 0, 0, 0)], [Trigger(m), Ping(0)])
  }

  const Ready: Dial := Up(true)

  lemma ColdStart(c: Config, m: Mac)
    requires c.punchLife > 0 && Unicast(m)
    ensures var s1 := Start(Initial);
            var s2 := OnTrigger(c, s1, m, 0, Ready);
            Filed(s1) && Filed(s2) && OnAck(s2, m, true, true, 0, Ready) == Attempting(m)
  {
    var s1 := Start(Initial);
    var s2 := OnTrigger(c, s1, m, 0, Ready);
    assert s2.punch == map[m := Punch(m, 0, true, true)];
    assert s2.sent == [Trigger(m)];
    var s3 := OnAck(s2, m, true, true, 0, Ready);
    assert s3.trying == map[m := 0];
    assert s3.contexts == [Peer(m, true, true, 0, 0, 0)];
    assert s3.sent == [Trigger(m), Ping(0)];
  }

  /** The first tick sends the first try. */
  lemma FirstTick(c: Config, m: Mac)
    requires c.tryLimit > 0
    ensures Filed(Attempting(m))
    ensures var s := Tick(c, Attempting(m), 0, [], [m]);
            && s.trying == map[m := 0] && s.contexts == [Peer(m, true, true, 1, 0, 0)] && s.live == map[]
            && s.sent == [Trigger(m), Ping(0), TimedTry(0)]
  {
    var s := Attempting(m);
    assert SweepLive(c, s, [], 0) == (s, []);
    assert s.live - Members([]) == map[];
    var s3 := VisitTrying(c, s, m).0;
    assert [m][1..] == [];
    assert SweepTrying(c, s, [m]).0 == s3 && SweepTrying(c, s, [m]).1 == [];
    assert s3.contexts == [Peer(m, true, true, 1, 0, 0)];
    assert s3.sent == [Trigger(m), Ping(0), TimedTry(0)];
  }

  lemma Extend(c: Config, events: seq<Event>, e: Event)
    requires Possible(c, events) && Enabled(After(c, events), e)
    ensures Possible(c, events + [e]) && After(c, events + [e]) == Apply(c, After(c, events), e)
  {
    hide Enabled, Apply;
    assert (events + [e])[..|events|] == events;
  }

  /** One more turn of a joint run. */
  lemma Play(w: World, turns: seq<Turn>, side: Side, e: Event)
    requires JointlyPossible(w, turns)
    requires Possible(w.config(side), History(turns, side)) && Enabled(After(w.config(side), History(turns, side)), e)
    requires e.Incoming? && e.frame.Try? && e.src == w.mac(Other(side)) ==>
               Possible(w.config(Other(side)), History(turns, Other(side))) &&
               Spoken(After(w.config(Other(side)), History(turns, Other(side))), w.mac(side))
    ensures var turns' := turns + [Turn(side, e)];
            && JointlyPossible(w, turns')
            && History(turns', side) == History(turns, side) + [e]
            && History(turns', Other(side)) == History(turns, Other(side))
            && After(w.config(side), History(turns', side)) ==
               Apply(w.config(side), After(w.config(side), History(turns, side)), e)
  {
    hide Enabled, Apply, Spoken;
    var turns' := turns + [Turn(side, e)];
    assert turns'[..|turns|] == turns;
    Extend(w.config(side), History(turns, side), e);
  }

  /** The three events that bring a side to its attempt, on one side's state. */
  lemma ColdStartSteps(c: Config, m: Mac)
    requires c.punchLife > 0 && Unicast(m)
    ensures Enabled(Initial, Begin) && Filed(Initial)
    ensures var s1 := Apply(c, Initial, Begin);
            && Filed(s1) && Enabled(s1, Triggered(m, 0, Ready))
            && var s2 := Apply(c, s1, Triggered(m, 0, Ready));
            && Filed(s2) && Enabled(s2, Acked(m, true, true, 0, Ready))
            && Apply(c, s2, Acked(m, true, true, 0, Ready)) == Attempting(m)
  {
    ColdStart(c, m);
    hide OnTrigger, OnAck, Start, Attempting;
  }

  lemma PlayColdStart(w: World, turns: seq<Turn>, side: Side) returns (turns': seq<Turn>)
    requires JointlyPossible(w, turns) && History(turns, side) == []
    requires w.config(side).punchLife > 0 && Unicast(w.mac(Other(side)))
    ensures JointlyPossible(w, turns') && History(turns', Other(side)) == History(turns, Other(side))
    ensures Possible(w.config(side), History(turns', side))
    ensures After(w.config(side), History(turns', side)) == Attempting(w.mac(Other(side)))
  {
    hide JointlyPossible, Spoken, History, Attempting, After, Possible, Apply, Enabled, Filed;
    var m := w.mac(Other(side));
    var e1, e2, e3 := Begin, Triggered(m, 0, Ready), Acked(m, true, true, 0, Ready);
    ColdStartSteps(w.config(side), m);
    HistoriesPossible(w, turns, side);
    Play(w, turns, side, e1);
    turns' := turns + [Turn(side, e1)];
    HistoriesPossible(w, turns', side);
    Play(w, turns', side, e2);
    turns' := turns' + [Turn(side, e2)];
    HistoriesPossible(w, turns', side);
    Play(w, turns', side, e3);
    turns' := turns' + [Turn(side, e3)];
    HistoriesPossible(w, turns', side);
  }

  /** Where a try frame breaks the keying of the established map: an attempt for m, reached from a cold
      start, hears a try that names another source on its connection. */
  lemma ForeignTryExample(c: Config, m: Mac, other: Mac)
    requires c.punchLife > 0 && Unicast(m) && other != m
    ensures var start := [Begin, Triggered(m, 0, Ready), Acked(m, true, true, 0, Ready)];
            var try := Incoming(0, Try, other, 0);
            && Possible(c, start) && LiveFiled(After(c, start))
            && Possible(c, start + [try]) && !LiveFiled(After(c, start + [try]))
  {
    ColdStartRun(c, m);
    var start := [Begin, Triggered(m, 0, Ready), Acked(m, true, true, 0, Ready)];
    var s := Attempting(m);
    assert LiveFiled(s) && Enabled(s, Incoming(0, Try, other, 0)) && other !in s.trying;
    TryKeepsLiveFiledIff(s, 0, other, 0);
    hide Possible, After, OnFrame, LiveFiled, Attempting;
    Extend(c, start, Incoming(0, Try, other, 0));
  }

  lemma ColdStartRun(c: Config, m: Mac)
    requires c.punchLife > 0 && Unicast(m)
    ensures var start := [Begin, Triggered(m, 0, Ready), Acked(m, true, true, 0, Ready)];
            Possible(c, start) && After(c, start) == Attempting(m)
  {
    ColdStartSteps(c, m);
    assert Possible(c, []) && After(c, []) == Initial;
    hide Apply, Enabled, Filed, Attempting, After, Possible;
    var e1, e2, e3 := Begin, Triggered(m, 0, Ready), Acked(m, true, true, 0, Ready);
    Extend(c, [], e1);
    assert [] + [e1] == [e1];
    Extend(c, [e1], e2);
    assert [e1] + [e2] == [e1, e2];
    Extend(c, [e1, e2], e3);
    assert [e1, e2] + [e3] == [e1, e2, e3];
  }

  lemma HistoriesPossible(w: World, turns: seq<Turn>, side: Side)
    requires JointlyPossible(w, turns)
    ensures Possible(w.config(side), History(turns, side))
    ensures History(turns, side) == [] ==> After(w.config(side), History(turns, side)) == Initial
  {
  }

  /** A try frame from the peer being tried establishes it, and the reply is on record. */
  lemma FrameEstablishes(s: State, m: Mac, now: int)
    requires Filed(s) && m in s.trying
    ensures var s' := OnFrame(s, s.trying[m], Try, m, now);
            m in s'.live && s'.live[m] == s.trying[m] && Spoken(s', m)
  {
    var r := s.trying[m];
    var s' := OnFrame(s, r, Try, m, now);
    assert s'.sent == s.sent + [Reply(r)] && s'.contexts[r].mac == m;
    CountSend(s.sent, Reply(r), Reply(r));
  }

  /** One side of a joint run hears a try of the other, which it is trying itself. */
  lemma Hear(w: World, turns: seq<Turn>, side: Side, now: int) returns (turns': seq<Turn>)
    requires JointlyPossible(w, turns)
    requires Possible(w.config(side), History(turns, side))
    requires Possible(w.config(Other(side)), History(turns, Other(side)))
    requires w.mac(Other(side)) in After(w.config(side), History(turns, side)).trying
    requires Spoken(After(w.config(Other(side)), History(turns, Other(side))), w.mac(side))
    ensures var m, s := w.mac(Other(side)), After(w.config(side), History(turns, side));
            turns' == turns + [Turn(side, Incoming(s.trying[m], Try, m, now))]
    ensures JointlyPossible(w, turns') && History(turns', Other(side)) == History(turns, Other(side))
    ensures Possible(w.config(side), History(turns', side))
    ensures var m, s := w.mac(Other(side)), After(w.config(side), History(turns, side));
            var s' := After(w.config(side), History(turns', side));
            m in s'.live && s'.live[m] == s.trying[m] && Spoken(s', m)
  {
    hide JointlyPossible, History, OnFrame, After, Possible, Spoken;
    var m, s := w.mac(Other(side)), After(w.config(side), History(turns, side));
    var e := Incoming(s.trying[m], Try, m, now);
    Play(w, turns, side, e);
    turns' := turns + [Turn(side, e)];
    HistoriesPossible(w, turns', side);
    FrameEstablishes(s, m, now);
  }

  /** Wherever a joint run has got to: if each side is trying the other and one has sent a try, then
      delivering that try and the reply to it, and nothing else, leaves each side holding the other as
      established, on the contexts they were trying. */
  lemma OneTryAndOneReplySuffice(w: World, turns: seq<Turn>, side: Side, t1: int, t2: int) returns (turns': seq<Turn>)
    requires JointlyPossible(w, turns)
    requires Possible(w.config(side), History(turns, side))
    requires Possible(w.config(Other(side)), History(turns, Other(side)))
    requires var near := After(w.config(side), History(turns, side));
             var far := After(w.config(Other(side)), History(turns, Other(side)));
             w.mac(Other(side)) in near.trying && w.mac(side) in far.trying && Spoken(near, w.mac(Other(side)))
    ensures var macNear, macFar := w.mac(side), w.mac(Other(side));
            var near := After(w.config(side), History(turns, side));
            var far := After(w.config(Other(side)), History(turns, Other(side)));
            && turns' == turns + [Turn(Other(side), Incoming(far.trying[macNear], Try, macNear, t1)),
                                  Turn(side, Incoming(near.trying[macFar], Try, macFar, t2))]
            && JointlyPossible(w, turns')
            && Possible(w.config(side), History(turns', side))
            && Possible(w.config(Other(side)), History(turns', Other(side)))
            && var near' := After(w.config(side), History(turns', side));
            var far' := After(w.config(Other(side)), History(turns', Other(side)));
            && macFar in near'.live && near'.live[macFar] == near.trying[macFar]
            && macNear in far'.live && far'.live[macNear] == far.trying[macNear]
  {
    hide JointlyPossible, History, OnFrame, After, Possible, Spoken;
    assert Other(Other(side)) == side;
    turns' := Hear(w, turns, Other(side), t1);
    turns' := Hear(w, turns', side, t2);
  }

  /** From a cold start two peers can reach the state in which each holds the other as established. */
  lemma HandshakeExample(w: World) returns (turns: seq<Turn>)
    requires forall side :: w.config(side).punchLife > 0 && w.config(side).tryLimit > 0 && Unicast(w.mac(side))
    ensures JointlyPossible(w, turns)
    ensures Possible(w.config(West), History(turns, West)) && Possible(w.config(East), History(turns, East))
    ensures w.mac(East) in After(w.config(West), History(turns, West)).live
    ensures w.mac(West) in After(w.config(East), History(turns, East)).live
  {
    assert JointlyPossible(w, []) && History([], West) == [] && History([], East) == [];
    turns := PlayColdStart(w, [], West);
    turns := PlayColdStart(w, turns, East);
    turns := PlayExchange(w, turns);
  }

  lemma PlayExchange(w: World, turns: seq<Turn>) returns (turns': seq<Turn>)
    requires JointlyPossible(w, turns) && w.config(West).tryLimit > 0
    requires Possible(w.config(West), History(turns, West)) && Possible(w.config(East), History(turns, East))
    requires After(w.config(West), History(turns, West)) == Attempting(w.mac(East))
    requires After(w.config(East), History(turns, East)) == Attempting(w.mac(West))
    ensures JointlyPossible(w, turns')
    ensures Possible(w.config(West), History(turns', West)) && Possible(w.config(East), History(turns', East))
    ensures w.mac(East) in After(w.config(West), History(turns', West)).live
    ensures w.mac(West) in After(w.config(East), History(turns', East)).live
  {
    hide JointlyPossible, History, OnFrame, Tick, After, Possible, Spoken;
    var mw, me := w.mac(West), w.mac(East);
    FirstTick(w.config(West), me);
    Play(w, turns, West, Tock(0, [], [me]));
    turns' := turns + [Turn(West, Tock(0, [], [me]))];
    HistoriesPossible(w, turns', West);
    var sw := After(w.config(West), History(turns', West));
    TickedSpoke(sw, me);
    HistoriesPossible(w, turns', East);
    turns' := OneTryAndOneReplySuffice(w, turns', West, 0, 0);
  }

  lemma TickedSpoke(s: State, m: Mac)
    requires s.contexts == [Peer(m, true, true, 1, 0, 0)] && s.sent == [Trigger(m), Ping(0), TimedTry(0)]
    ensures Spoken(s, m)
  {
    var before := [Trigger(m), Ping(0)];
    assert s.sent == before + [TimedTry(0)];
    CountSend(before, TimedTry(0), TimedTry(0));
    assert s.contexts[0].mac == m;
  }
}
