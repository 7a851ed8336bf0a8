/** The hole-punching service of service/p2p_service.go and the frame handler of
    service/data_handler.go, as a state and the meaning of each operation on it. Connection contexts
    are shared by reference in the source, so here they live in one table and the maps hold their
    index in it; sent messages are kept as a history. Time is a parameter of every operation. */
module P2pModel {
  import opened Bits

  type Mac = nat
  type Ref = nat

  const BROADCAST: Mac := 0xFFFF_FFFF_FFFF
  const MULTICAST: Mac := 0x01005E

  predicate Unicast(mac: Mac) {
    mac != BROADCAST && mac != MULTICAST
  }

  /** PeerSockContext. Heartbeat is always created as 5. */
  datatype Peer = Peer(mac: Mac, handler: bool, connected: bool, tries: nat, lastReceive: int, pings: nat)

  const HEARTBEAT: nat := 5

  /** PunchSockContext: `sock` tells whether LocalSock is known. */
  datatype Punch = Punch(mac: Mac, start: int, handler: bool, sock: bool)

  /** PunchFailInfo; the count is a uint32. */
  datatype Failure = Failure(count: uint32, time: int)

  datatype Config = Config(tryLimit: uint32, retryInterval: uint32, offline: uint32, punchLife: int)

  datatype Message =
    | TimedTry(ref: Ref)        // P2PTry from a tick
    | Reply(ref: Ref)           // P2PTry on promotion
    | Ping(ref: Ref) | Pong(ref: Ref) | Data(ref: Ref)
    | Trigger(mac: Mac)         // to the server

  datatype State = State(
    running: bool,
    punch: map<Mac, Punch>,
    trying: map<Mac, Ref>,
    live: map<Mac, Ref>,
    fails: map<Mac, Failure>,
    contexts: seq<Peer>,
    sent: seq<Message>)

  const Initial := State(false, map[], map[], map[], map[], [], [])

  // ----- small pieces -----

  /** uint32(now - then). */
  function Elapsed(now: int, since: int): uint32 {
    (now - since) % TWO_32
  }

  function Send(s: State, m: Message): State {
    s.(sent := s.sent + [m])
  }

  function Put(s: State, r: Ref, p: Peer): State
    requires r < |s.contexts|
  {
    s.(contexts := s.contexts[r := p])
  }

  /** saveFailPunchInfo: one more failure, and the punch socket goes. */
  function SaveFailure(s: State, mac: Mac, now: int): State {
    var count := if mac in s.fails then (s.fails[mac].count + 1) % TWO_32 else 1;
    s.(fails := s.fails[mac := Failure(count, now)], punch := s.punch - {mac})
  }

  /** SendP2PTrigger. */
  function SendTrigger(c: Config, s: State, mac: Mac, now: int): State {
    if mac !in s.punch then s
    else if now - s.punch[mac].start >= c.punchLife then s.(punch := s.punch - {mac})
    else if !s.punch[mac].handler then s
    else Send(s, Trigger(mac))
  }

  /** How dialling the server or the peer went: refused, or up with or without a readable address. */
  datatype Dial = Refused | Up(addressKnown: bool)

  /** newPunchSock: store, dial, and - on the active event - trigger. */
  function NewPunch(c: Config, s: State, mac: Mac, now: int, dial: Dial): State {
    var s1 := s.(punch := s.punch[mac := Punch(mac, now, false, false)]);
    match dial
    case Refused => SaveFailure(s1, mac, now)
    case Up(known) =>
      var s2 := SendTrigger(c, s1.(punch := s1.punch[mac := Punch(mac, now, true, false)]), mac, now);
      if mac in s2.punch then s2.(punch := s2.punch[mac := s2.punch[mac].(sock := known)]) else s2
  }

  function StartPunch(c: Config, s: State, mac: Mac, trigger: bool, now: int, dial: Dial): State {
    if mac in s.punch then
      if now - s.punch[mac].start < c.punchLife then
        if trigger then SendTrigger(c, s, mac, now) else s
      else s.(punch := s.punch - {mac})
    else NewPunch(c, s, mac, now, dial)
  }

  /** isNeedP2P; `known` is whether the group has such a peer. */
  predicate NeedsPunch(c: Config, s: State, mac: Mac, now: int, known: bool) {
    && Unicast(mac)
    && (mac in s.fails ==> s.fails[mac].count < 10 && Elapsed(now, s.fails[mac].time) >= c.retryInterval)
    && known
    && mac !in s.trying
  }

  // ----- operations -----

  function Start(s: State): State {
    if s.running then s
    else s.(running := true, punch := map[], trying := map[], live := map[], fails := map[])
  }

  /** TryForwardMessage for a data frame. */
  function Forward(c: Config, s: State, mac: Mac, now: int, known: bool, dial: Dial): State
    requires mac in s.live ==> s.live[mac] < |s.contexts|
  {
    if !s.running || !Unicast(mac) then s
    else if mac in s.live then
      if s.contexts[s.live[mac]].handler then Send(s, Data(s.live[mac])) else s
    else if NeedsPunch(c, s, mac, now, known) then StartPunch(c, s, mac, false, now, dial)
    else s
  }

  /** ProcessP2PTrigger. */
  function OnTrigger(c: Config, s: State, mac: Mac, now: int, dial: Dial): State {
    if !Unicast(mac) || mac in s.trying || mac in s.live then s else StartPunch(c, s, mac, true, now, dial)
  }

  /** An ack that ProcessP2PAck turns into an attempt. */
  predicate AckAccepted(s: State, mac: Mac, hasSock: bool, valid: bool, dial: Dial) {
    hasSock && valid && mac in s.punch && s.punch[mac].sock && dial.Up?
  }

  /** ProcessP2PAck. The context is stored before dialling and removed again when dialling fails; its
      active event sets the handler and sends a ping. */
  function OnAck(s: State, mac: Mac, hasSock: bool, valid: bool, now: int, dial: Dial): State {
    if !hasSock then s
    else if !valid then SaveFailure(s, mac, now)
    else if mac !in s.punch || !s.punch[mac].sock then s
    else
      var r := |s.contexts|;
      match dial
      case Refused => s.(contexts := s.contexts + [Peer(mac, false, false, 0, 0, 0)], trying := s.trying - {mac})
      case Up(_) =>
        Send(s.(contexts := s.contexts + [Peer(mac, true, true, 0, 0, 0)], trying := s.trying[mac := r]), Ping(r))
  }

  datatype Frame = Packet | Try | PingFrame | PongFrame

  /** P2PSuccess. */
  function Promote(s: State, mac: Mac, via: Ref): State {
    if mac in s.trying then
      var r := s.trying[mac];
      Send(s.(live := s.live[mac := r], trying := s.trying - {mac}), Reply(r))
    else s.(live := s.live[mac := via])
  }

  /** DataHandler.HandleRead and processMsg for a data frame that names `src` as its sender. */
  function OnFrame(s: State, r: Ref, frame: Frame, src: Mac, now: int): State
    requires r < |s.contexts|
  {
    var s1 := Put(s, r, s.contexts[r].(handler := true, lastReceive := now, pings := 0));
    match frame
    case Try => Promote(s1, src, r)
    case PingFrame => Send(s1, Pong(r))
    case _ => s1
  }

  /** DataHandler.HandleEvent on read idleness. */
  function OnIdle(s: State, r: Ref): State
    requires r < |s.contexts|
  {
    var p := s.contexts[r];
    if p.handler then Send(Put(s, r, p.(pings := p.pings + 1)), Ping(r)) else s
  }

  function PeerStateChanged(s: State, mac: Mac): State {
    s.(fails := s.fails - {mac}, trying := s.trying - {mac}, live := s.live - {mac})
  }

  function DeleteFailed(s: State, mac: Mac): State {
    s.(fails := s.fails - {mac})
  }

  function Reset(s: State): State {
    s.(punch := map[], fails := map[], trying := map[], live := map[])
  }

  /** Stop and what the state-check goroutine does on its way out. */
  function Stop(s: State): State {
    s.(running := false, trying := map[], live := map[])
  }

  // ----- the tick of stateCheck -----

  /** Whether a tick gives an established context up. */
  predicate GivesUp(c: Config, p: Peer, now: int) {
    var quiet := Elapsed(now, p.lastReceive);
    if quiet > HEARTBEAT + 2 then p.pings >= 3 || !p.handler else quiet > c.offline
  }

  /** One turn of the range over established contexts: (state, MACs to delete so far). */
  function VisitLive(c: Config, s: State, key: Mac, now: int): (State, seq<Mac>)
    requires key in s.live ==> s.live[key] < |s.contexts|
  {
    if key !in s.live then (s, [])
    else
      var r := s.live[key];
      var p := s.contexts[r];
      if GivesUp(c, p, now) then (Put(s, r, p.(connected := false)), [p.mac])
      else if Elapsed(now, p.lastReceive) > HEARTBEAT + 2 then
        (Send(Put(s, r, p.(pings := p.pings + 1)), Ping(r)), [])
      else (s, [])
  }

  function SweepLive(c: Config, s: State, keys: seq<Mac>, now: int): (o: (State, seq<Mac>))
    requires forall k :: k in s.live ==> s.live[k] < |s.contexts|
    ensures o.0.live == s.live && |o.0.contexts| == |s.contexts|
    decreases |keys|
  {
    if keys == [] then (s, [])
    else
      var (s1, gone) := VisitLive(c, s, keys[0], now);
      var (s2, more) := SweepLive(c, s1, keys[1..], now);
      (s2, gone + more)
  }

  /** One turn of the range over attempts, with SendP2PTry inlined. */
  function VisitTrying(c: Config, s: State, key: Mac): (State, seq<Mac>)
    requires forall k :: k in s.trying ==> s.trying[k] < |s.contexts|
  {
    if key !in s.trying then (s, [])
    else
      var r := s.trying[key];
      var p := s.contexts[r];
      if p.tries >= c.tryLimit then (Put(s, r, p.(connected := false)), [p.mac])
      else (SendTry(s, p.mac), [])
  }

  /** SendP2PTry. */
  function SendTry(s: State, mac: Mac): State
    requires mac in s.trying ==> s.trying[mac] < |s.contexts|
  {
    if mac in s.trying then
      var r := s.trying[mac];
      var p := s.contexts[r];
      var s1 := Put(s, r, p.(tries := p.tries + 1));
      if p.handler then Send(s1, TimedTry(r)) else s1.(trying := s1.trying - {mac})
    else s
  }

  function SweepTrying(c: Config, s: State, keys: seq<Mac>): (o: (State, seq<Mac>))
    requires forall k :: k in s.trying ==> s.trying[k] < |s.contexts|
    ensures |o.0.contexts| == |s.contexts|
    decreases |keys|
  {
    if keys == [] then (s, [])
    else
      var (s1, gone) := VisitTrying(c, s, keys[0]);
      var (s2, more) := SweepTrying(c, s1, keys[1..]);
      (s2, gone + more)
  }

  function Exhaust(s: State, gone: seq<Mac>, now: int): State
    decreases |gone|
  {
    if gone == [] then s
    else
      var s1 := SaveFailure(s, gone[0], now);
      Exhaust(s1.(trying := s1.trying - {gone[0]}), gone[1..], now)
  }

  function Members(macs: seq<Mac>): set<Mac> {
    set m | m in macs
  }

  /** A tick visits the two maps in whatever orders the ranges present their keys. */
  function Tick(c: Config, s: State, now: int, liveKeys: seq<Mac>, tryKeys: seq<Mac>): State
    requires forall k :: k in s.live ==> s.live[k] < |s.contexts|
    requires forall k :: k in s.trying ==> s.trying[k] < |s.contexts|
  {
    if !s.running then s
    else
      var (s1, quiet) := SweepLive(c, s, liveKeys, now);
      SweepLiveFrame(c, s, liveKeys, now);
      var s2 := s1.(live := s1.live - Members(quiet));
      var (s3, gone) := SweepTrying(c, s2, tryKeys);
      Exhaust(s3, gone, now)
  }

  /** The first sweep touches established contexts and nothing else. */
  lemma {:induction false} SweepLiveFrame(c: Config, s: State, keys: seq<Mac>, now: int)
    requires forall k :: k in s.live ==> s.live[k] < |s.contexts|
    ensures var s' := SweepLive(c, s, keys, now).0;
            && s'.trying == s.trying && s'.punch == s.punch && s'.fails == s.fails && s'.live == s.live
            && s'.running == s.running && |s'.contexts| == |s.contexts|
    decreases |keys|
  {
    if keys != [] {
      SweepLiveFrame(c, VisitLive(c, s, keys[0], now).0, keys[1..], now);
    }
  }
}
