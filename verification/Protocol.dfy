/** Every client call, and the receiver's handling of a PUBLISH, as a program over socket operations:
    where it stands, which operation it wants next, and where it goes with the result. */
module Protocol {
  import opened Bytes
  import opened Errors
  import opened Packets
  import opened ClientConfig
  import PB = PayloadBuffer
  import RL = RemainingLength

  // ---------------------------------------------------------------- the session and its calls

  datatype Sess = Sess(config: Config, socket: int, connected: bool, nextId: uint16)

  const NEW_SESSION := Sess(DEFAULT_CONFIG, -1, false, 0)

  datatype Call =
    | DoConnect
    | DoDisconnect
    | DoPublish(topic: cstring, content: bytes, qos: int, retain: bool)
    | DoSubscribe(filter: cstring, qos: int)
    | DoUnsubscribe(filter: cstring)
    | DoPingreq
    | DoOnPublish(frame: bytes)
    | DoDeinit

  /** What the source demands of the arguments. */
  predicate CallOk(call: Call) {
    match call
    case DoPublish(topic, content, _, _) =>
      |topic| <= 0xFFFF && content != []
    case DoOnPublish(frame) =>
      frame != [] && (FlagOf(frame[0]).kind == PUBLISH ==> PublishInBounds(frame))
    case _ => true
  }

  /** A QoS outside 0, 1, 2 is replaced by the configured one. */
  function Effective(config: Config, qos: int): QoS {
    if 0 <= qos < 3 then qos else config.qos
  }

  /** A length code can announce what the call sends: of all packets only a PUBLISH can be too long. */
  predicate Codable(c: Config, call: Call) {
    call.DoPublish? ==>
      2 + |call.topic| + (if Effective(c, call.qos) > 0 then 2 else 0) + |call.content| <= RL.MAX_REMAINING
  }

  function PublishPacket(s: Sess, topic: cstring, content: bytes, qos: QoS, retain: bool): Packet
    requires |topic| <= 0xFFFF
  {
    Publish(false, qos, retain, topic, if qos > 0 then s.nextId else 0, content)
  }

  function SubscribePacket(s: Sess, filter: cstring, qos: QoS): Packet {
    Listed(SUBSCRIBE, s.nextId, PB.Emit(PB.Str(filter)) + [qos])
  }

  function UnsubscribePacket(s: Sess, filter: cstring): Packet {
    Listed(UNSUBSCRIBE, s.nextId, PB.Emit(PB.Str(filter)))
  }

  function TakeId(s: Sess): Sess {
    s.(nextId := (s.nextId + 1) % 0x1_0000)
  }

  // ---------------------------------------------------------------- control points

  datatype Control =
    | Halt(ret: int)
    | OpenSocket(p: Packet) | TcpConnect(p: Packet) | SendConnect(p: Packet) | AwaitConnack
    | SendDisconnect
    | SendPublish(p: Packet, qos: QoS) | AwaitPuback | AwaitPubrec | SendPubrel(id: uint16) | AwaitPubcomp(id: uint16)
    | SendSubscribe(p: Packet) | AwaitSuback
    | SendUnsubscribe(p: Packet) | AwaitUnsuback
    | SendPingreq | AwaitPingresp
    | SendPuback(id: uint16) | SendPubrec(id: uint16) | AwaitPubrel | SendPubcomp(id: uint16)

  /** Everything a call does before its first socket operation. */
  function Enter(s: Sess, call: Call): (Sess, Control)
    requires CallOk(call)
  {
    match call
    case DoConnect =>
      var p := ConnectPacket(s.config);
      (s, if s.connected then Halt(E_NONE) else if s.socket < 0 then OpenSocket(p) else TcpConnect(p))
    case DoDisconnect =>
      (s, if s.socket < 0 then Halt(-E_NET_SOCK) else if !s.connected then Halt(E_NONE) else SendDisconnect)
    case DoPublish(topic, content, qos, retain) =>
      if s.socket < 0 then (s, Halt(-E_NET_SOCK))
      else
        var q := Effective(s.config, qos);
        (TakeId(s), SendPublish(PublishPacket(s, topic, content, q, retain), q))
    case DoSubscribe(filter, qos) =>
      if s.socket < 0 then (s, Halt(-E_NET_SOCK))
      else (TakeId(s), SendSubscribe(SubscribePacket(s, filter, Effective(s.config, qos))))
    case DoUnsubscribe(filter) =>
      if s.socket < 0 then (s, Halt(-E_NET_SOCK))
      else (TakeId(s), SendUnsubscribe(UnsubscribePacket(s, filter)))
    case DoPingreq =>
      (s, if s.socket < 0 then Halt(-E_NET_SOCK) else SendPingreq)
    case DoOnPublish(frame) =>
      var h := FlagOf(frame[0]);
      if h.kind == PUBLISH && h.qos == 1 then (TakeId(s), SendPuback(s.nextId))
      else if h.kind == PUBLISH && h.qos == 2 then (TakeId(s), SendPubrec(s.nextId))
      else (s, Halt(E_NONE))
    case DoDeinit =>
      (Sess(DEFAULT_CONFIG, -1, s.connected, 0), Halt(E_NONE))
  }

  datatype Op = Open | Dial | Transmit(p: Packet) | Await(stale: bytes)

  /** The next operation. An `Await` names what the receive buffer holds beforehand: zeros,
      except for PUBCOMP, which is received into the buffer of the PUBREL just sent. */
  function Wants(c: Control): Op
    requires !c.Halt?
  {
    match c
    case OpenSocket(_) => Open
    case TcpConnect(_) => Dial
    case SendConnect(p) => Transmit(p)
    case SendDisconnect => Transmit(Bare(DISCONNECT))
    case SendPublish(p, _) => Transmit(p)
    case SendPubrel(id) => Transmit(Ack(PUBREL, id))
    case SendSubscribe(p) => Transmit(p)
    case SendUnsubscribe(p) => Transmit(p)
    case SendPingreq => Transmit(Bare(PINGREQ))
    case SendPuback(id) => Transmit(Ack(PUBACK, id))
    case SendPubrec(id) => Transmit(Ack(PUBREC, id))
    case SendPubcomp(id) => Transmit(Ack(PUBCOMP, id))
    case AwaitPubcomp(id) => Await(Encode(Ack(PUBREL, id)))
    case AwaitSuback => Await(RL.Zeros(5))
    case AwaitPingresp => Await(RL.Zeros(2))
    case _ => Await(RL.Zeros(4))
  }

  /** The packet type of the bytes in a receive buffer. */
  function KindIn(buf: bytes): int {
    if buf == [] then -1 else FlagOf(buf[0]).kind
  }

  /** Byte `i` of a receive buffer. */
  function ByteIn(buf: bytes, i: nat): byte {
    if i < |buf| then buf[i] else 0
  }

  function IdIn(buf: bytes): uint16 {
    FromU16(ByteIn(buf, 2), ByteIn(buf, 3))
  }

  /** Where the call goes, given the result `r` of the operation and the receive buffer after it. */
  function Next(s: Sess, c: Control, r: int, buf: bytes): (Sess, Control)
    requires !c.Halt?
  {
    match c
    case OpenSocket(p) => (s.(socket := r), if r < 0 then Halt(-E_NET_SOCK) else TcpConnect(p))
    case TcpConnect(p) => (s, if r != 0 then Halt(-E_NET_CONN) else SendConnect(p))
    case SendConnect(_) => (s, if r < 0 then Halt(-E_NET_CONN) else AwaitConnack)
    case AwaitConnack =>
      if r < 0 then (s, Halt(-E_NET_XFER))
      else (s.(connected := true),
            Halt(if KindIn(buf) != CONNACK then -E_NET_CONN else if ByteIn(buf, 3) == 0 then E_NONE else -E_SESS_ACK))
    case SendDisconnect =>
      if r < 0 then (s, Halt(-E_NET_CONN)) else (s.(socket := -1, connected := false), Halt(r))
    case SendPublish(_, qos) =>
      (s, if r < 0 then Halt(-E_NET_CONN)
          else if qos == 0 then Halt(E_NONE)
          else if qos == 1 then AwaitPuback
          else AwaitPubrec)
    case AwaitPuback =>
      (s, Halt(if r < 0 then r else if KindIn(buf) == PUBACK then E_NONE else -E_NET_CONN))
    case AwaitPubrec =>
      (s, if r < 0 then Halt(r)
          else if KindIn(buf) == PUBREC then SendPubrel(IdIn(buf))
          else Halt(-E_NET_CONN))
    case SendPubrel(id) => (s, if r < 0 then Halt(-E_NET_XFER) else AwaitPubcomp(id))
    case AwaitPubcomp(_) =>
      (s, Halt(if r < 0 then -E_NET_XFER else if KindIn(buf) == PUBCOMP then E_NONE else -E_SESS_ACK))
    case SendSubscribe(_) => (s, if r < 0 then Halt(r) else AwaitSuback)
    case AwaitSuback =>
      (s, Halt(if r < 0 then r else if KindIn(buf) == SUBACK && ByteIn(buf, 4) < 128 then E_NONE else -E_SESS_ACK))
    case SendUnsubscribe(_) => (s, if r < 0 then Halt(-E_NET_XFER) else AwaitUnsuback)
    case AwaitUnsuback =>
      (s, Halt(if r < 0 then -E_NET_XFER else if KindIn(buf) == UNSUBACK then E_NONE else -E_SESS_ACK))
    case SendPingreq => (s, if r < 0 then Halt(-E_NET_XFER) else AwaitPingresp)
    case AwaitPingresp =>
      (s, Halt(if r < 0 then -E_NET_XFER else if KindIn(buf) == PINGRESP then E_NONE else -E_SESS_ACK))
    case SendPuback(_) => (s, Halt(E_NONE))
    case SendPubrec(_) => (s, AwaitPubrel)
    case AwaitPubrel => (TakeId(s), SendPubcomp(s.nextId))
    case SendPubcomp(_) => (s, Halt(E_NONE))
  }

  /** How many operations are still to come at most. */
  function Rank(c: Control): nat {
    match c
    case Halt(_) => 0
    case OpenSocket(_) => 4
    case TcpConnect(_) => 3
    case SendConnect(_) => 2
    case SendPublish(_, qos) => if qos == 2 then 4 else qos + 1
    case AwaitPubrec => 3
    case SendPubrel(_) => 2
    case SendSubscribe(_) => 2
    case SendUnsubscribe(_) => 2
    case SendPingreq => 2
    case SendPubrec(_) => 3
    case AwaitPubrel => 2
    case _ => 1
  }

  // ---------------------------------------------------------------- the network

  /** What one socket operation will return, and the bytes that a receive will deliver. */
  datatype Outcome = Outcome(ret: int, data: bytes)

  datatype Event =
    | Opened(socket: int)
    | Sent(frame: bytes)
    | SendFailed
    | Received(buf: bytes) // the receive buffer afterwards
    | ReceiveFailed
    | Delivered(topic: bytes, content: bytes)

  /** The outcomes still to come, and what has happened. */
  datatype Net = Net(script: seq<Outcome>, log: seq<Event>)

  function Coming(n: Net): Outcome {
    if n.script == [] then Outcome(-1, []) else n.script[0]
  }

  function After(n: Net, e: seq<Event>): Net {
    Net(if n.script == [] then [] else n.script[1..], n.log + e)
  }

  function OpenNet(n: Net): (Net, int) {
    var r := Coming(n).ret;
    (After(n, if r >= 0 then [Opened(r)] else []), r)
  }

  function DialNet(n: Net): (Net, int) {
    (After(n, []), Coming(n).ret)
  }

  /** A send transmits everything or fails; on a closed descriptor it fails. */
  function SendNet(n: Net, socket: int, frame: bytes): (Net, int) {
    if socket < 0 then (After(n, [SendFailed]), -1)
    else if Coming(n).ret < 0 then (After(n, [SendFailed]), Coming(n).ret)
    else (After(n, [Sent(frame)]), |frame|)
  }

  /** The bytes that arrive overwrite the front of the buffer. Fewer may arrive than the buffer holds, even none. */
  function Overlay(stale: bytes, data: bytes): (b: bytes)
    ensures |b| == |stale|
  {
    if |data| <= |stale| then data + stale[|data|..] else data[..|stale|]
  }

  function RecvNet(n: Net, socket: int, stale: bytes): (Net, int, bytes) {
    if socket < 0 then (After(n, [ReceiveFailed]), -1, stale)
    else
      var o := Coming(n);
      if o.ret < 0 then (After(n, [ReceiveFailed]), o.ret, stale)
      else
        var buf := Overlay(stale, o.data);
        (After(n, [Received(buf)]), if |o.data| <= |stale| then |o.data| else |stale|, buf)
  }

  // ---------------------------------------------------------------- runs

  datatype World = World(sess: Sess, net: Net)

  /** The outcome of the socket operation that comes after `i` others. */
  function Nth(w: World, i: nat): Outcome {
    if i < |w.net.script| then w.net.script[i] else Outcome(-1, [])
  }

  function Step(w: World, c: Control): (World, Control)
    requires !c.Halt?
  {
    match Wants(c)
    case Open =>
      var (n, r) := OpenNet(w.net);
      var (s, c') := Next(w.sess, c, r, []);
      (World(s, n), c')
    case Dial =>
      var (n, r) := DialNet(w.net);
      var (s, c') := Next(w.sess, c, r, []);
      (World(s, n), c')
    case Transmit(p) =>
      var (n, r) := SendNet(w.net, w.sess.socket, Encode(p));
      var (s, c') := Next(w.sess, c, r, []);
      (World(s, n), c')
    case Await(stale) =>
      var (n, r, buf) := RecvNet(w.net, w.sess.socket, stale);
      var (s, c') := Next(w.sess, c, r, buf);
      (World(s, n), c')
  }

  lemma StepRank(w: World, c: Control)
    requires !c.Halt?
    ensures Rank(Step(w, c).1) < Rank(c)
  {
    hide Encode, Overlay, KindIn, ByteIn, IdIn;
  }

  /** Runs on to the end: the return value and the world after it. */
  function Exec(w: World, c: Control): (int, World)
    decreases Rank(c)
  {
    if c.Halt? then (c.ret, w)
    else
      StepRank(w, c);
      var (w', c') := Step(w, c);
      Exec(w', c')
  }

  lemma ExecHalts()
    ensures forall w: World, ret: int :: Exec(w, Halt(ret)) == (ret, w)
  {
  }

  /** The rest of a call whose operation at `c` gave `r` and left `buf` in the receive buffer. */
  function Resume(w: World, c: Control, r: int, buf: bytes): (int, World)
    requires !c.Halt?
  {
    var (s, c') := Next(w.sess, c, r, buf);
    Exec(w.(sess := s), c')
  }

  /** A received PUBLISH is handed on before it is acknowledged. */
  function Deliveries(call: Call): seq<Event>
    requires CallOk(call)
  {
    if call.DoOnPublish? && FlagOf(call.frame[0]).kind == PUBLISH then
      var v := ViewPublish(call.frame);
      [Delivered(v.vars.topic, v.content)]
    else []
  }

  function Begin(w: World, call: Call): (World, Control)
    requires CallOk(call)
  {
    var (s, c) := Enter(w.sess, call);
    (World(s, w.net.(log := w.net.log + Deliveries(call))), c)
  }

  function Run(w: World, call: Call): (int, World)
    requires CallOk(call)
  {
    var (w', c) := Begin(w, call);
    Exec(w', c)
  }
}
