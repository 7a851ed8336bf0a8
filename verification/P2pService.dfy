/** The service object: its maps, updated in place by the methods of service/p2p_service.go and
    service/data_handler.go, each proved to do what P2pModel says it means. Filed is the invariant of the
    object: the constructor sets it up and every public method keeps it. The methods that the outside world
    calls do what the event of the same purpose does in P2pRuns, whenever that event is enabled: a frame or
    an idle event on a connected context, a tick whose ranges present every key once, and all other events
    always. So such calls on a new object make up a run, and the theorems about runs hold of it; the
    remaining methods are parts of these. */
module P2pService {
  import opened Bits
  import opened P2pModel
  import opened P2pRuns
  import opened P2pHandshake

  class Service {
    const config: Config
    var running: bool
    var punch: map<Mac, Punch>
    var trying: map<Mac, Ref>
    var live: map<Mac, Ref>
    var fails: map<Mac, Failure>
    var contexts: seq<Peer>
    var sent: seq<Message>

    ghost function Model(): State
      reads this
    {
      State(running, punch, trying, live, fails, contexts, sent)
    }

    constructor (config: Config)
      ensures this.config == config && Model() == Initial && Filed(Model())
    {
      this.config := config;
      running := false;
      punch, trying, live, fails := map[], map[], map[], map[];
      contexts, sent := [], [];
    }

    method Start()
      requires Filed(Model())
      modifies this
      ensures Model() == Apply(config, old(Model()), Begin) && Filed(Model())
    {
      if running {
        return;
      }
      running := true;
      punch, trying, live, fails := map[], map[], map[], map[];
    }

    method SaveFailPunchInfo(mac: Mac, now: int)
      modifies this`fails, this`punch
      ensures Model() == SaveFailure(old(Model()), mac, now)
    {
      if mac in fails {
        fails := fails[mac := Failure((fails[mac].count + 1) % TWO_32, now)];
      } else {
        fails := fails[mac := Failure(1, now)];
      }
      punch := punch - {mac};
    }

    method SendP2PTrigger(mac: Mac, now: int)
      requires Filed(Model())
      modifies this`punch, this`sent
      ensures Model() == SendTrigger(config, old(Model()), mac, now) && Filed(Model())
    {
      SendTriggerPunches(config, Model(), mac, now);
      PunchedIsFiled(Model(), SendTrigger(config, Model(), mac, now), mac);
      if mac in punch {
        if now - punch[mac].start >= config.punchLife {
          punch := punch - {mac};
          return;
        }
        if !punch[mac].handler {
          return;
        }
        sent := sent + [Trigger(mac)];
      }
    }

    method NewPunchSock(mac: Mac, now: int, dial: Dial)
      requires Filed(Model())
      modifies this
      ensures Model() == NewPunch(config, old(Model()), mac, now, dial) && Filed(Model())
    {
      NewPunchPunches(config, Model(), mac, now, dial);
      PunchedIsFiled(Model(), NewPunch(config, Model(), mac, now, dial), mac);
      punch := punch[mac := Punch(mac, now, false, false)];
      if dial.Refused? {
        SaveFailPunchInfo(mac, now);
        return;
      }
      punch := punch[mac := punch[mac].(handler := true)];
      SendP2PTrigger(mac, now);
      if mac in punch {
        punch := punch[mac := punch[mac].(sock := dial.addressKnown)];
      }
    }

    method StartPunch(mac: Mac, trigger: bool, now: int, dial: Dial)
      requires Filed(Model())
      modifies this
      ensures Model() == P2pModel.StartPunch(config, old(Model()), mac, trigger, now, dial) && Filed(Model())
    {
      StartPunchPunches(config, Model(), mac, trigger, now, dial);
      PunchedIsFiled(Model(), P2pModel.StartPunch(config, Model(), mac, trigger, now, dial), mac);
      if mac in punch {
        if now - punch[mac].start < config.punchLife {
          if trigger {
            SendP2PTrigger(mac, now);
          }
        } else {
          punch := punch - {mac};
        }
        return;
      }
      NewPunchSock(mac, now, dial);
    }

    method TryForwardMessage(mac: Mac, now: int, known: bool, dial: Dial) returns (done: bool)
      requires Filed(Model())
      modifies this
      ensures Model() == Apply(config, old(Model()), Outgoing(mac, now, known, dial)) && Filed(Model())
      ensures done <==> old(running) && Unicast(mac) && mac in old(live) && old(contexts[live[mac]].handler)
      ensures done ==> sent == old(sent) + [Data(old(live[mac]))]
      ensures !done ==> sent == old(sent) || sent == old(sent) + [Trigger(mac)]
    {
      ForwardKeepsFiled(config, Model(), mac, now, known, dial);
      hide Tick, OnAck, OnTrigger, OnFrame, OnIdle;
      if !running || !Unicast(mac) {
        return false;
      }
      if mac in live {
        if contexts[live[mac]].handler {
          sent := sent + [Data(live[mac])];
          return true;
        }
        return false;
      }
      var need := IsNeedP2P(mac, now, known);
      if need {
        PunchSpeaks(config, Model(), mac, false, now, dial);
        StartPunch(mac, false, now, dial);
      }
      return false;
    }

    method IsNeedP2P(mac: Mac, now: int, known: bool) returns (need: bool)
      ensures need <==> NeedsPunch(config, Model(), mac, now, known)
    {
      if !Unicast(mac) {
        return false;
      }
      if mac in fails {
        if fails[mac].count >= 10 || Elapsed(now, fails[mac].time) < config.retryInterval {
          return false;
        }
      }
      if !known {
        return false;
      }
      return mac !in trying;
    }

    method ProcessP2PTrigger(mac: Mac, now: int, dial: Dial)
      requires Filed(Model())
      modifies this
      ensures Model() == Apply(config, old(Model()), Triggered(mac, now, dial)) && Filed(Model())
    {
      TriggerKeepsFiled(config, Model(), mac, now, dial);
      if Unicast(mac) && mac !in trying && mac !in live {
        StartPunch(mac, true, now, dial);
      }
    }

    method ProcessP2PAck(mac: Mac, hasSock: bool, valid: bool, now: int, dial: Dial)
      requires Filed(Model())
      modifies this
      ensures Model() == Apply(config, old(Model()), Acked(mac, hasSock, valid, now, dial)) && Filed(Model())
    {
      AckKeepsFiled(Model(), mac, hasSock, valid, now, dial);
      AckIs(config, Model(), mac, hasSock, valid, now, dial);
      hide Filed, Apply;
      if !hasSock {
        return;
      }
      if !valid {
        SaveFailPunchInfo(mac, now);
        return;
      }
      if mac !in punch || !punch[mac].sock {
        return;
      }
      var r := |contexts|;
      contexts := contexts + [Peer(mac, false, false, 0, 0, 0)];
      trying := trying[mac := r];
      if dial.Refused? {
        trying := trying - {mac};
        StoredAndDropped(old(trying), mac, r);
        return;
      }
      contexts := contexts[r := contexts[r].(handler := true, connected := true)];
      LastReplaced(old(contexts), Peer(mac, false, false, 0, 0, 0), Peer(mac, true, true, 0, 0, 0));
      sent := sent + [Ping(r)];
    }

    method SendP2PTry(mac: Mac)
      requires Filed(Model())
      modifies this`contexts, this`trying, this`sent
      ensures Model() == SendTry(old(Model()), mac) && Filed(Model())
    {
      SendTryTries(Model(), mac);
      ShrunkIsFiled(Model(), SendTry(Model(), mac));
      if mac in trying {
        var r := trying[mac];
        contexts := contexts[r := contexts[r].(tries := contexts[r].tries + 1)];
        if contexts[r].handler {
          sent := sent + [TimedTry(r)];
          return;
        }
      }
      trying := trying - {mac};
      assert mac !in old(trying) ==> trying == old(trying);
    }

    method P2PSuccess(mac: Mac, via: Ref)
      requires Filed(Model()) && via < |contexts| && contexts[via].handler
      modifies this`live, this`trying, this`sent
      ensures Model() == Promote(old(Model()), mac, via) && Filed(Model())
    {
      PromoteIsFiled(Model(), mac, via);
      if mac in trying {
        var r := trying[mac];
        live := live[mac := r];
        trying := trying - {mac};
        sent := sent + [Reply(r)];
      } else {
        live := live[mac := via];
      }
    }

    /** DataHandler.HandleRead on the context's connection. */
    method HandleRead(r: Ref, frame: Frame, src: Mac, now: int)
      requires Filed(Model()) && r < |contexts|
      modifies this
      ensures Model() == OnFrame(old(Model()), r, frame, src, now) && Filed(Model())
      ensures Enabled(old(Model()), Incoming(r, frame, src, now)) ==>
                Model() == Apply(config, old(Model()), Incoming(r, frame, src, now))
    {
      FrameLeavesFiled(Model(), r, frame, src, now);
      contexts := contexts[r := contexts[r].(handler := true, lastReceive := now, pings := 0)];
      match frame
      case Try => P2PSuccess(src, r);
      case PingFrame => sent := sent + [Pong(r)];
      case Packet =>
      case PongFrame =>
    }

    /** DataHandler.HandleEvent on read idleness. */
    method HandleIdle(r: Ref)
      requires Filed(Model()) && r < |contexts|
      modifies this`contexts, this`sent
      ensures Model() == OnIdle(old(Model()), r) && Filed(Model())
      ensures Enabled(old(Model()), Idle(r)) ==> Model() == Apply(config, old(Model()), Idle(r))
    {
      if contexts[r].handler {
        contexts := contexts[r := contexts[r].(pings := contexts[r].pings + 1)];
        sent := sent + [Ping(r)];
      }
    }

    method PeerStateChanged(mac: Mac)
      requires Filed(Model())
      modifies this`fails, this`trying, this`live
      ensures Model() == Apply(config, old(Model()), Changed(mac)) && Filed(Model())
    {
      fails := fails - {mac};
      trying := trying - {mac};
      live := live - {mac};
    }

    method DeleteFailedP2P(mac: Mac)
      requires Filed(Model())
      modifies this`fails
      ensures Model() == Apply(config, old(Model()), Forgotten(mac)) && Filed(Model())
    {
      fails := fails - {mac};
    }

    method IsP2P(mac: Mac) returns (established: bool)
      ensures established <==> mac in Model().live
    {
      return mac in live;
    }

    /** Stop and the clean-up by the state-check goroutine. */
    method Stop()
      requires Filed(Model())
      modifies this`running, this`trying, this`live
      ensures Model() == Apply(config, old(Model()), Halt) && Filed(Model())
    {
      running := false;
      live := map[];
      trying := map[];
    }

    method ResetP2PSocks()
      requires Filed(Model())
      modifies this`punch, this`fails, this`trying, this`live
      ensures Model() == Apply(config, old(Model()), Clear) && Filed(Model())
    {
      punch, fails, trying, live := map[], map[], map[], map[];
    }

    /** The body of one tick of stateCheck. The arguments are the orders in which the two ranges
        present their keys. */
    method StateCheck(now: int, liveKeys: seq<Mac>, tryKeys: seq<Mac>)
      requires Filed(Model())
      modifies this
      ensures Model() == Tick(config, old(Model()), now, liveKeys, tryKeys)
      ensures Enabled(old(Model()), Tock(now, liveKeys, tryKeys)) ==>
                Model() == Apply(config, old(Model()), Tock(now, liveKeys, tryKeys))
      ensures Filed(Model())
    {
      ghost var s := Model();
      TickShrinks(config, s, now, liveKeys, tryKeys);
      if !running {
        return;
      }
      hide SweepLive, SweepTrying, Exhaust, Filed, Tick;
      RungShrinks(config, s, now, liveKeys);
      TickIs(config, s, now, liveKeys, tryKeys);
      var quiet := CheckEstablished(now, liveKeys);
      DropEstablished(quiet);
      assert Model() == Rung(config, s, now, liveKeys);
      var spent := CheckAttempts(tryKeys);
      DropAttempts(spent, now);
    }

    /** The range over established contexts. */
    method CheckEstablished(now: int, keys: seq<Mac>) returns (toRemove: seq<Mac>)
      requires Filed(Model())
      modifies this`contexts, this`sent
      ensures Model() == SweepLive(config, old(Model()), keys, now).0
      ensures toRemove == SweepLive(config, old(Model()), keys, now).1
    {
      hide VisitLive;
      toRemove := [];
      ghost var goal := SweepLive(config, Model(), keys, now);
      var i := 0;
      assert keys[0..] == keys;
      while i < |keys|
        invariant 0 <= i <= |keys| && Filed(Model())
        invariant goal.0 == SweepLive(config, Model(), keys[i..], now).0
        invariant goal.1 == toRemove + SweepLive(config, Model(), keys[i..], now).1
      {
        assert keys[i..][0] == keys[i] && keys[i..][1..] == keys[i + 1..];
        VisitLivePings(config, Model(), keys[i], now);
        ShrunkIsFiled(Model(), VisitLive(config, Model(), keys[i], now).0);
        hide Filed;
        var gone := CheckOne(keys[i], now);
        toRemove := toRemove + gone;
        i := i + 1;
      }
    }

    method CheckOne(key: Mac, now: int) returns (gone: seq<Mac>)
      requires key in live ==> live[key] < |contexts|
      modifies this`contexts, this`sent
      ensures Model() == VisitLive(config, old(Model()), key, now).0
      ensures gone == VisitLive(config, old(Model()), key, now).1
    {
      gone := [];
      if key in live {
        var r := live[key];
        var p := contexts[r];
        var quiet := Elapsed(now, p.lastReceive);
        if quiet > HEARTBEAT + 2 {
          if p.pings >= 3 || !p.handler {
            contexts := contexts[r := p.(connected := false)];
            gone := [p.mac];
          } else {
            contexts := contexts[r := p.(pings := p.pings + 1)];
            sent := sent + [Ping(r)];
          }
        } else if quiet > config.offline {
          contexts := contexts[r := p.(connected := false)];
          gone := [p.mac];
        }
      }
    }

    method DropEstablished(toRemove: seq<Mac>)
      modifies this`live
      ensures live == old(live) - Members(toRemove)
    {
      var i := 0;
      while i < |toRemove|
        invariant 0 <= i <= |toRemove|
        invariant live == old(live) - Members(toRemove[..i])
      {
        assert Members(toRemove[..i + 1]) == Members(toRemove[..i]) + {toRemove[i]};
        live := live - {toRemove[i]};
        i := i + 1;
      }
      assert toRemove[..i] == toRemove;
    }

    /** The range over attempts. */
    method CheckAttempts(keys: seq<Mac>) returns (spent: seq<Mac>)
      requires Filed(Model())
      modifies this`contexts, this`trying, this`sent
      ensures Model() == SweepTrying(config, old(Model()), keys).0
      ensures spent == SweepTrying(config, old(Model()), keys).1
    {
      hide VisitTrying, Tried;
      spent := [];
      ghost var goal := SweepTrying(config, Model(), keys);
      var i := 0;
      assert keys[0..] == keys;
      while i < |keys|
        invariant 0 <= i <= |keys| && Filed(Model())
        invariant goal.0 == SweepTrying(config, Model(), keys[i..]).0
        invariant goal.1 == spent + SweepTrying(config, Model(), keys[i..]).1
      {
        assert keys[i..][0] == keys[i] && keys[i..][1..] == keys[i + 1..];
        VisitTryingTries(config, Model(), keys[i]);
        var gone := TryOne(keys[i]);
        hide Filed;
        spent := spent + gone;
        i := i + 1;
      }
    }

    method TryOne(key: Mac) returns (gone: seq<Mac>)
      requires Filed(Model())
      modifies this`contexts, this`trying, this`sent
      ensures Model() == VisitTrying(config, old(Model()), key).0
      ensures gone == VisitTrying(config, old(Model()), key).1
    {
      gone := [];
      if key in trying {
        var r := trying[key];
        var p := contexts[r];
        if p.tries >= config.tryLimit {
          contexts := contexts[r := p.(connected := false)];
          gone := [p.mac];
        } else {
          SendP2PTry(p.mac);
        }
      }
    }

    method DropAttempts(spent: seq<Mac>, now: int)
      modifies this`fails, this`punch, this`trying
      ensures Model() == Exhaust(old(Model()), spent, now)
    {
      ghost var goal := Exhaust(Model(), spent, now);
      var i := 0;
      assert spent[0..] == spent;
      while i < |spent|
        invariant 0 <= i <= |spent|
        invariant goal == Exhaust(Model(), spent[i..], now)
      {
        assert spent[i..][1..] == spent[i + 1..];
        SaveFailPunchInfo(spent[i], now);
        trying := trying - {spent[i]};
        i := i + 1;
      }
    }
  }

  lemma AckIs(c: Config, s: State, mac: Mac, hasSock: bool, valid: bool, now: int, dial: Dial)
    requires Filed(s)
    ensures Apply(c, s, Acked(mac, hasSock, valid, now, dial)) == OnAck(s, mac, hasSock, valid, now, dial)
  {
    hide OnAck;
  }

  lemma StoredAndDropped(m: map<Mac, Ref>, k: Mac, r: Ref)
    ensures m[k := r] - {k} == m - {k}
  {
  }

  lemma LastReplaced(peers: seq<Peer>, p: Peer, q: Peer)
    ensures (peers + [p])[|peers| := q] == peers + [q]
  {
  }
}
