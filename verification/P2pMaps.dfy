/** What every event does to the four maps, key by key: who becomes established, attempted or punched for,
    who no longer is, and what is noted of failures. */
module P2pMaps {
  import opened Bits
  import opened P2pModel
  import opened P2pRuns
  import opened P2pRetry
  import opened P2pEviction

  lemma StepRuns(c: Config, s: State, e: Event)
    requires Filed(s) && Enabled(s, e)
    ensures Apply(c, s, e).running == (e.Begin? || (s.running && !e.Halt?))
  {
    if e.Outgoing? || e.Triggered? {
      StartPunchPunches(c, s, e.mac, e.Triggered?, e.now, e.dial);
      hide StartPunch, NeedsPunch;
    } else if e.Tock? {
      TickRuns(c, s, e.now, e.liveKeys, e.tryKeys);
      hide Tick;
    } else {
      hide Tick, Forward, OnTrigger;
    }
  }

  lemma TickRuns(c: Config, s: State, now: int, liveKeys: seq<Mac>, tryKeys: seq<Mac>)
    requires Filed(s)
    ensures Tick(c, s, now, liveKeys, tryKeys).running == s.running
  {
    if s.running {
      TickIs(c, s, now, liveKeys, tryKeys);
      SweepLivePings(c, s, liveKeys, now);
      var s2 := Rung(c, s, now, liveKeys);
      assert s2.running;
      hide Rung, SweepLive, SweepTrying, Exhaust, Tick, Filed;
      SweepTryingTries(c, s2, tryKeys);
      var (s3, gone) := SweepTrying(c, s2, tryKeys);
      ExhaustDrops(s3, gone, now);
    }
  }

  // ----- connections and attempts -----

  lemma PunchFrame(c: Config, s: State, e: Event)
    requires Filed(s) && Enabled(s, e) && (e.Outgoing? || e.Triggered?)
    ensures Apply(c, s, e).trying == s.trying && Apply(c, s, e).live == s.live
  {
    StartPunchPunches(c, s, e.mac, e.Triggered?, e.now, e.dial);
    hide StartPunch, NeedsPunch;
  }

  /** A try frame establishes the MAC it names, on the attempt for it or the connection it came by; a stop,
      a reset, a restart and a state change end a connection; nothing else but a tick touches it. */
  lemma EstablishedChanges(c: Config, s: State, e: Event, k: Mac)
    requires Filed(s) && Enabled(s, e) && !e.Tock?
    ensures var s' := Apply(c, s, e);
            if e.Incoming? && e.frame.Try? && e.src == k then
              k in s'.live && s'.live[k] == if k in s.trying then s.trying[k] else e.ref
            else
              && (k in s'.live <==> k in s.live && !Cuts(s, e, k))
              && (k in s'.live ==> s'.live[k] == s.live[k])
  {
    if e.Outgoing? || e.Triggered? {
      PunchFrame(c, s, e);
      hide Apply;
    } else {
      hide Tick, Forward, OnTrigger;
    }
  }

  /** An ack that finds a punch socket of known address: it starts an attempt, or ends one. */
  predicate Answers(s: State, e: Event, k: Mac) {
    e.Acked? && e.mac == k && e.hasSock && e.valid && k in s.punch && s.punch[k].sock
  }

  /** Such an ack starts the attempt anew on a new context, or ends it if the peer cannot be dialled;
      promotion, a stop, a reset, a restart and a state change end it; nothing else but a tick does. */
  lemma AttemptChanges(c: Config, s: State, e: Event, k: Mac)
    requires Filed(s) && Enabled(s, e) && !e.Tock?
    ensures var s' := Apply(c, s, e);
            if Answers(s, e, k) then
              (k in s'.trying <==> e.dial.Up?) && (k in s'.trying ==> s'.trying[k] == |s.contexts|)
            else
              && (k in s'.trying <==>
                  k in s.trying && !Cuts(s, e, k) && !(e.Incoming? && e.frame.Try? && e.src == k))
              && (k in s'.trying ==> s'.trying[k] == s.trying[k])
  {
    if e.Outgoing? || e.Triggered? {
      PunchFrame(c, s, e);
      hide Apply;
    } else {
      hide Tick, Forward, OnTrigger;
    }
  }

  // ----- punch sockets -----

  /** An event that makes the service punch for k. */
  predicate Punches(c: Config, s: State, e: Event, k: Mac) {
    || (e.Outgoing? && e.mac == k && s.running && k !in s.live && NeedsPunch(c, s, k, e.now, e.known))
    || (e.Triggered? && e.mac == k && Unicast(k) && k !in s.trying && k !in s.live)
  }

  lemma StartPunchAt(c: Config, s: State, mac: Mac, trigger: bool, now: int, dial: Dial, k: Mac)
    ensures var s' := StartPunch(c, s, mac, trigger, now, dial);
            if k != mac || (k in s.punch && now - s.punch[k].start < c.punchLife) then
              (k in s'.punch <==> k in s.punch) && (k in s.punch ==> s'.punch[k] == s.punch[k])
            else if k in s.punch then k !in s'.punch
            else
              && (k in s'.punch <==> dial.Up? && c.punchLife > 0)
              && (k in s'.punch ==> s'.punch[k] == Punch(k, now, true, dial.addressKnown))
  {
    if mac in s.punch {
      hide NewPunch;
    } else {
      NewPunchAt(c, s, mac, now, dial, k);
      hide NewPunch;
    }
  }

  lemma NewPunchAt(c: Config, s: State, mac: Mac, now: int, dial: Dial, k: Mac)
    requires mac !in s.punch
    ensures var s' := NewPunch(c, s, mac, now, dial);
            if k != mac then (k in s'.punch <==> k in s.punch) && (k in s.punch ==> s'.punch[k] == s.punch[k])
            else
              && (k in s'.punch <==> dial.Up? && c.punchLife > 0)
              && (k in s'.punch ==> s'.punch[k] == Punch(k, now, true, dial.addressKnown))
  {
  }

  /** A punch socket is created by punching when there is none and the server can be dialled, with the
      address the dial found; it goes with a reset, a restart, a failure, and punching after its life. */
  lemma PunchChanges(c: Config, s: State, e: Event, k: Mac)
    requires Filed(s) && Enabled(s, e)
    ensures var s' := Apply(c, s, e);
            if k !in s.punch then
              && (k in s'.punch <==> Punches(c, s, e, k) && e.dial.Up? && c.punchLife > 0)
              && (k in s'.punch ==> s'.punch[k] == Punch(k, e.now, true, e.dial.addressKnown))
            else
              && (k in s'.punch <==>
                  && !e.Clear? && !(e.Begin? && !s.running) && !Records(c, s, e, k)
                  && !(Punches(c, s, e, k) && e.now - s.punch[k].start >= c.punchLife))
              && (k in s'.punch ==> s'.punch[k] == s.punch[k])
  {
    if e.Tock? {
      TickPunches(c, s, e, k);
    } else if e.Outgoing? || e.Triggered? {
      StartPunchAt(c, s, e.mac, e.Triggered?, e.now, e.dial, k);
      hide StartPunch, Elapsed;
    } else {
      hide Tick, Forward, OnTrigger;
    }
  }

  lemma TickPunches(c: Config, s: State, e: Event, k: Mac)
    requires Filed(s) && Enabled(s, e) && e.Tock?
    ensures var s' := Apply(c, s, e);
            && (k in s'.punch <==> k in s.punch && !Records(c, s, e, k))
            && (k in s'.punch ==> s'.punch[k] == s.punch[k])
  {
    if s.running {
      TickOnAttempt(c, s, e.now, e.liveKeys, e.tryKeys, k);
    } else {
      TickIdle(c, s, e.now, e.liveKeys, e.tryKeys);
    }
    hide Tick;
  }

  /** In every reachable state a punch socket goes back to the event that dialled for it, and holds that
      event's time and the address its dial found. */
  lemma {:induction false} PunchOrigin(c: Config, events: seq<Event>, k: Mac) returns (i: nat)
    requires Possible(c, events) && k in After(c, events).punch
    ensures i < |events| && (events[i].Outgoing? || events[i].Triggered?) && events[i].mac == k && events[i].dial.Up?
    ensures After(c, events).punch[k] == Punch(k, events[i].now, true, events[i].dial.addressKnown)
    decreases |events|
  {
    var init, last := events[..|events| - 1], events[|events| - 1];
    PunchChanges(c, After(c, init), last, k);
    hide Apply, Filed, Enabled;
    if k in After(c, init).punch {
      i := PunchOrigin(c, init, k);
    } else {
      i := |events| - 1;
    }
  }

  // ----- the time of a failure -----

  lemma StartPunchTimes(c: Config, s: State, mac: Mac, trigger: bool, now: int, dial: Dial, k: Mac)
    ensures var s' := StartPunch(c, s, mac, trigger, now, dial);
            if mac == k && mac !in s.punch && dial.Refused? then k in s'.fails && s'.fails[k].time == now
            else (k in s'.fails <==> k in s.fails) && (k in s.fails ==> s'.fails[k] == s.fails[k])
  {
  }

  /** A recorded failure holds the time of its event, and no other event touches the record but a pardon. */
  lemma FailureTimes(c: Config, s: State, e: Event, k: Mac)
    requires Filed(s) && Enabled(s, e) && !Pardons(s, e, k)
    ensures var s' := Apply(c, s, e);
            if Records(c, s, e, k) then k in s'.fails && s'.fails[k].time == e.now
            else (k in s'.fails <==> k in s.fails) && (k in s.fails ==> s'.fails[k] == s.fails[k])
  {
    if e.Tock? {
      if s.running {
        TickOnAttempt(c, s, e.now, e.liveKeys, e.tryKeys, k);
      } else {
        TickIdle(c, s, e.now, e.liveKeys, e.tryKeys);
      }
      hide Tick;
    } else if e.Outgoing? || e.Triggered? {
      PunchTimes(c, s, e, k);
      hide Apply, Records;
    } else {
      hide Tick, Forward, OnTrigger;
    }
  }

  lemma PunchTimes(c: Config, s: State, e: Event, k: Mac)
    requires Filed(s) && Enabled(s, e) && (e.Outgoing? || e.Triggered?)
    ensures var s' := Apply(c, s, e);
            if Records(c, s, e, k) then k in s'.fails && s'.fails[k].time == e.now
            else (k in s'.fails <==> k in s.fails) && (k in s.fails ==> s'.fails[k] == s.fails[k])
  {
    StartPunchTimes(c, s, e.mac, e.Triggered?, e.now, e.dial, k);
    hide StartPunch, Elapsed;
  }

  // ----- when a forwarded packet does something -----

  /** For a unicast peer that is not established a forwarded packet changes something exactly if the peer is
      known and not being tried, its failures are below ten and the last one is an interval ago, and there is
      no punch socket within its life - and then dialling leaves a trace. */
  lemma ForwardActsIff(c: Config, s: State, k: Mac, now: int, known: bool, dial: Dial)
    requires Filed(s) && s.running && Unicast(k) && k !in s.live
    ensures Forward(c, s, k, now, known, dial) != s <==>
            && known && k !in s.trying
            && (k in s.fails ==> s.fails[k].count < 10 && (now - s.fails[k].time) % TWO_32 >= c.retryInterval)
            && (if k in s.punch then now - s.punch[k].start >= c.punchLife else dial.Refused? || c.punchLife > 0)
  {
    var s' := StartPunch(c, s, k, false, now, dial);
    if k in s.punch {
      assert now - s.punch[k].start >= c.punchLife ==> k !in s'.punch;
      assert now - s.punch[k].start < c.punchLife ==> s' == s;
    } else {
      NewPunchChanges(c, s, k, now, dial);
    }
    hide StartPunch;
  }

  lemma NewPunchChanges(c: Config, s: State, k: Mac, now: int, dial: Dial)
    requires k !in s.punch
    ensures NewPunch(c, s, k, now, dial) != s <==> dial.Refused? || c.punchLife > 0
  {
    var s' := NewPunch(c, s, k, now, dial);
    if dial.Refused? {
      assert k in s'.fails;
      assert s'.fails[k].count != (if k in s.fails then s.fails[k].count else 0);
    } else if c.punchLife > 0 {
      assert k in s'.punch;
    } else {
      assert s'.punch == s.punch;
    }
  }
}
