/** When ticks give up established peers: not while they are heard from, and soon after they fall
    silent. */
module P2pEviction {
  import opened Bits
  import opened P2pModel
  import opened P2pRuns
  import opened P2pRetry

  // ----- one established peer under a sweep -----

  lemma VisitLiveAt(c: Config, s: State, key: Mac, now: int, k: Mac)
    requires Filed(s) && LiveFiled(s) && k in s.live
    ensures var (s', gone) := VisitLive(c, s, key, now);
            var r := s.live[k];
            var p := s.contexts[r];
            && (key != k ==> s'.contexts[r] == p && k !in gone)
            && (key == k ==>
                  && gone == (if GivesUp(c, p, now) then [k] else [])
                  && s'.contexts[r].pings == PingsAfter(c, p, now))
  {
    hide Elapsed;
    if key in s.live && key != k {
      assert s.contexts[s.live[key]].mac == key;
      assert s.live[key] != s.live[k];
    }
  }

  lemma VisitLiveStaysFiled(c: Config, s: State, key: Mac, now: int)
    requires Filed(s) && LiveFiled(s)
    ensures var s' := VisitLive(c, s, key, now).0;
            Filed(s') && LiveFiled(s') && s'.live == s.live && |s'.contexts| == |s.contexts|
    ensures forall r: Ref :: r < |s.contexts| ==>
              VisitLive(c, s, key, now).0.contexts[r].lastReceive == s.contexts[r].lastReceive
  {
    VisitLivePings(c, s, key, now);
    hide VisitLive;
    ShrunkIsFiled(s, VisitLive(c, s, key, now).0);
  }

  /** What a tick makes of an established context: dropped, or with its ping count. */
  function PingsAfter(c: Config, p: Peer, now: int): nat {
    p.pings + (if !GivesUp(c, p, now) && Elapsed(now, p.lastReceive) > HEARTBEAT + 2 then 1 else 0)
  }

  lemma {:induction false} SweepLiveAt(c: Config, s: State, keys: seq<Mac>, now: int, k: Mac)
    requires Filed(s) && LiveFiled(s) && Distinct(keys) && k in s.live
    ensures var (s', gone) := SweepLive(c, s, keys, now);
            var r := s.live[k];
            var p := s.contexts[r];
            && (k in gone <==> k in keys && GivesUp(c, p, now))
            && (k !in keys ==> s'.contexts[r] == p)
            && (k in keys ==> s'.contexts[r].pings == PingsAfter(c, p, now))
    decreases |keys|
  {
    if keys != [] {
      var (s1, first) := VisitLive(c, s, keys[0], now);
      VisitLiveStaysFiled(c, s, keys[0], now);
      VisitLiveAt(c, s, keys[0], now, k);
      hide VisitLive, GivesUp, Elapsed, Filed, LiveFiled;
      SweepLiveAt(c, s1, keys[1..], now, k);
      assert k in keys <==> k == keys[0] || k in keys[1..];
    }
  }

  /** A tick keeps an established peer exactly when it does not give it up; a kept one is the same
      context, with one more ping if it was quiet. */
  lemma TickOnEstablished(c: Config, s: State, now: int, liveKeys: seq<Mac>, tryKeys: seq<Mac>, k: Mac)
    requires Filed(s) && LiveFiled(s) && s.running && Enumerates(liveKeys, s.live) && k in s.live
    ensures var s' := Tick(c, s, now, liveKeys, tryKeys);
            var r := s.live[k];
            var p := s.contexts[r];
            && (k in s'.live <==> !GivesUp(c, p, now))
            && |s'.contexts| == |s.contexts|
            && (k in s'.live ==>
                  s'.live[k] == r && s'.contexts[r].pings == PingsAfter(c, p, now)
                  && s'.contexts[r].lastReceive == p.lastReceive)
  {
    SweepLivePings(c, s, liveKeys, now);
    SweepLiveAt(c, s, liveKeys, now, k);
    hide SweepLive, SweepTrying, Exhaust, GivesUp, PingsAfter;
    RungShrinks(c, s, now, liveKeys);
    var s2 := Rung(c, s, now, liveKeys);
    TickIs(c, s, now, liveKeys, tryKeys);
    SweepTryingTries(c, s2, tryKeys);
    var (s3, gone) := SweepTrying(c, s2, tryKeys);
    ExhaustDrops(s3, gone, now);
  }

  /** A peer heard from within the heartbeat plus two seconds before a tick survives it. */
  lemma HeardTick(c: Config, s: State, now: int, liveKeys: seq<Mac>, tryKeys: seq<Mac>, k: Mac)
    requires Filed(s) && LiveFiled(s) && Enumerates(liveKeys, s.live) && k in s.live
    requires c.offline >= HEARTBEAT + 2
    requires 0 <= now - s.contexts[s.live[k]].lastReceive <= HEARTBEAT + 2
    ensures k in Tick(c, s, now, liveKeys, tryKeys).live
  {
    if s.running {
      TickOnEstablished(c, s, now, liveKeys, tryKeys, k);
    }
  }

  /** The operations that take a connection away outright. */
  predicate Cuts(s: State, e: Event, k: Mac) {
    e.Halt? || e.Clear? || (e.Begin? && !s.running) || (e.Changed? && e.mac == k)
  }

  /** Apart from these and ticks nothing does. */
  lemma OnlyCutsEnd(c: Config, s: State, e: Event, k: Mac)
    requires Filed(s) && Enabled(s, e) && !e.Tock? && !Cuts(s, e, k) && k in s.live
    ensures k in Apply(c, s, e).live
  {
    hide StartPunch, NeedsPunch;
    match e
    case Outgoing(mac, now, known, dial) => StartPunchPunches(c, s, mac, false, now, dial);
    case Triggered(mac, now, dial) => StartPunchPunches(c, s, mac, true, now, dial);
    case _ =>
  }

  /** Honest senders, no cut, and at every running tick k's connection was heard within the limit. */
  ghost predicate KeptUp(c: Config, s: State, events: seq<Event>, k: Mac)
    requires Filed(s) && Follows(c, s, events)
    decreases |events|
  {
    events == [] ||
    (&& Honest(s, events[0]) && !Cuts(s, events[0], k)
     && (events[0].Tock? && s.running && k in s.live ==>
           0 <= events[0].now - s.contexts[s.live[k]].lastReceive <= HEARTBEAT + 2)
     && (StepKeepsFiled(c, s, events[0]); KeptUp(c, Apply(c, s, events[0]), events[1..], k)))
  }

  /** An established peer that is heard from before every tick stays established over the whole run. */
  lemma {:induction false} HeardPeersStay(c: Config, s: State, events: seq<Event>, k: Mac)
    requires Filed(s) && LiveFiled(s) && Follows(c, s, events) && k in s.live
    requires c.offline >= HEARTBEAT + 2 && KeptUp(c, s, events, k)
    ensures k in Ends(c, s, events).live
    decreases |events|
  {
    if events != [] {
      var e := events[0];
      StepKeepsLiveFiled(c, s, e);
      HeardStep(c, s, e, k);
      hide Apply, Filed, LiveFiled, Enabled, Honest, Cuts;
      HeardPeersStay(c, Apply(c, s, e), events[1..], k);
    }
  }

  lemma HeardStep(c: Config, s: State, e: Event, k: Mac)
    requires Filed(s) && LiveFiled(s) && Enabled(s, e) && !Cuts(s, e, k) && k in s.live && c.offline >= HEARTBEAT + 2
    requires e.Tock? && s.running ==> 0 <= e.now - s.contexts[s.live[k]].lastReceive <= HEARTBEAT + 2
    ensures k in Apply(c, s, e).live
  {
    if e.Tock? {
      hide Tick;
      if s.running {
        HeardTick(c, s, e.now, e.liveKeys, e.tryKeys, k);
      } else {
        TickIdle(c, s, e.now, e.liveKeys, e.tryKeys);
      }
    } else {
      OnlyCutsEnd(c, s, e, k);
    }
  }

  /** On a quiet tick an established peer survives exactly if fewer than three pings are unanswered,
      and then one more is sent. */
  lemma QuietTickIff(c: Config, s: State, now: int, liveKeys: seq<Mac>, tryKeys: seq<Mac>, k: Mac)
    requires Filed(s) && LiveFiled(s) && s.running && Enumerates(liveKeys, s.live) && k in s.live
    requires Elapsed(now, s.contexts[s.live[k]].lastReceive) > HEARTBEAT + 2
    ensures var s' := Tick(c, s, now, liveKeys, tryKeys);
            && (k in s'.live <==> s.contexts[s.live[k]].pings < 3)
            && (k in s'.live ==> |s'.contexts| == |s.contexts| &&
                                 s'.contexts[s.live[k]].pings == s.contexts[s.live[k]].pings + 1)
  {
    TickOnEstablished(c, s, now, liveKeys, tryKeys, k);
    hide Tick, Elapsed;
  }

  // ----- silence -----

  /** One step in the silence of an established peer. */
  lemma StepInSilence(c: Config, s: State, e: Event, k: Mac)
    requires Filed(s) && LiveFiled(s) && Enabled(s, e) && Honest(s, e)
    requires e.Incoming? ==> s.contexts[e.ref].mac != k
    ensures Filed(Apply(c, s, e)) && LiveFiled(Apply(c, s, e))
    ensures k in Apply(c, s, e).live ==>
              && k in s.live && Apply(c, s, e).live[k] == s.live[k]
              && s.live[k] < |Apply(c, s, e).contexts|
              && (var p, p' := s.contexts[s.live[k]], Apply(c, s, e).contexts[s.live[k]];
                  && p'.lastReceive == p.lastReceive
                  && (if e.Tock? && s.running then !GivesUp(c, p, e.now) && p'.pings == PingsAfter(c, p, e.now)
                      else p'.pings >= p.pings))
  {
    StepKeepsLiveFiled(c, s, e);
    if e.Tock? {
      if s.running {
        if k in s.live {
          TickOnEstablished(c, s, e.now, e.liveKeys, e.tryKeys, k);
        } else {
          TickShrinks(c, s, e.now, e.liveKeys, e.tryKeys);
        }
      } else {
        TickIdle(c, s, e.now, e.liveKeys, e.tryKeys);
      }
      hide Tick, GivesUp, PingsAfter;
    } else {
      hide LiveFiled;
      QuietStep(c, s, e, k);
      hide Apply;
    }
  }

  /** Events other than ticks, frames of k and idle events of k leave an established k as it is. */
  lemma QuietStep(c: Config, s: State, e: Event, k: Mac)
    requires Filed(s) && Enabled(s, e) && Honest(s, e) && !e.Tock?
    requires e.Incoming? ==> s.contexts[e.ref].mac != k
    ensures |s.contexts| <= |Apply(c, s, e).contexts|
    ensures k in Apply(c, s, e).live ==> k in s.live && Apply(c, s, e).live[k] == s.live[k]
    ensures k in s.live && s.contexts[s.live[k]].mac == k ==>
              var p, p' := s.contexts[s.live[k]], Apply(c, s, e).contexts[s.live[k]];
              p'.lastReceive == p.lastReceive && p'.pings >= p.pings
  {
    if e.Incoming? {
      ForeignFrame(s, e.ref, e.frame, e.src, e.now, k);
    } else {
      LiveOnlyShrinks(c, s, e);
      QuietContexts(c, s, e);
    }
    assert e.Incoming? ==> Apply(c, s, e) == OnFrame(s, e.ref, e.frame, e.src, e.now);
    hide Apply, OnFrame;
  }

  lemma ForeignFrame(s: State, r: Ref, frame: Frame, src: Mac, now: int, k: Mac)
    requires Filed(s) && r < |s.contexts| && s.contexts[r].mac != k && src == s.contexts[r].mac
    ensures var s' := OnFrame(s, r, frame, src, now);
            && |s'.contexts| == |s.contexts|
            && (k in s'.live ==> k in s.live && s'.live[k] == s.live[k])
            && (k in s.live && s.contexts[s.live[k]].mac == k ==> s'.contexts[s.live[k]] == s.contexts[s.live[k]])
  {
  }

  lemma QuietContexts(c: Config, s: State, e: Event)
    requires Filed(s) && Enabled(s, e) && !e.Tock? && !e.Incoming?
    ensures |s.contexts| <= |Apply(c, s, e).contexts|
    ensures forall r: Ref :: r < |s.contexts| ==>
              Apply(c, s, e).contexts[r].lastReceive == s.contexts[r].lastReceive &&
              Apply(c, s, e).contexts[r].pings >= s.contexts[r].pings
  {
    hide StartPunch, NeedsPunch;
    match e
    case Outgoing(mac, now, known, dial) => StartPunchPunches(c, s, mac, false, now, dial);
    case Triggered(mac, now, dial) => StartPunchPunches(c, s, mac, true, now, dial);
    case _ =>
  }

  /** Honest senders, none of them k, and every tick more than the limit after k was last heard. */
  ghost predicate Silent(c: Config, s: State, events: seq<Event>, k: Mac, last: int)
    requires Filed(s) && Follows(c, s, events)
    decreases |events|
  {
    events == [] ||
    (&& Honest(s, events[0])
     && (events[0].Incoming? ==> s.contexts[events[0].ref].mac != k)
     && (events[0].Tock? ==> Elapsed(events[0].now, last) > HEARTBEAT + 2)
     && (StepKeepsFiled(c, s, events[0]); Silent(c, Apply(c, s, events[0]), events[1..], k, last)))
  }

  lemma {:induction false} SilentRun(c: Config, s: State, events: seq<Event>, k: Mac)
    requires Filed(s) && LiveFiled(s) && Follows(c, s, events) && k in s.live
    requires Silent(c, s, events, k, s.contexts[s.live[k]].lastReceive)
    requires k in Ends(c, s, events).live
    ensures Ticks(c, s, events) == 0 || Ticks(c, s, events) + s.contexts[s.live[k]].pings <= 3
    decreases |events|
  {
    if events != [] {
      StepInSilence(c, s, events[0], k);
      var s1 := Apply(c, s, events[0]);
      if k in s1.live {
        hide Apply, Filed, LiveFiled, Enabled, Honest;
        SilentRun(c, s1, events[1..], k);
      } else {
        hide Apply, Filed, LiveFiled, Enabled, Honest;
        GoneStaysGone(c, s1, events[1..], k, s.contexts[s.live[k]].lastReceive);
      }
    }
  }

  lemma {:induction false} GoneStaysGone(c: Config, s: State, events: seq<Event>, k: Mac, last: int)
    requires Filed(s) && LiveFiled(s) && Follows(c, s, events) && k !in s.live
    requires Silent(c, s, events, k, last)
    ensures k !in Ends(c, s, events).live
    decreases |events|
  {
    if events != [] {
      StepInSilence(c, s, events[0], k);
      hide Apply, Filed, LiveFiled, Enabled, Honest;
      GoneStaysGone(c, Apply(c, s, events[0]), events[1..], k, last);
    }
  }

  /** A peer that has fallen silent is no longer established after four ticks, whatever idle events,
      other peers' traffic or other operations come in between. */
  lemma SilentPeersGo(c: Config, s: State, events: seq<Event>, k: Mac)
    requires Filed(s) && LiveFiled(s) && Follows(c, s, events) && k in s.live
    requires Silent(c, s, events, k, s.contexts[s.live[k]].lastReceive)
    requires Ticks(c, s, events) >= 4
    ensures k !in Ends(c, s, events).live
  {
    if k in Ends(c, s, events).live {
      SilentRun(c, s, events, k);
    }
  }
}
