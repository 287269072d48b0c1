/** The session object and its calls as the source runs them, each proved to do what `Protocol` says. */
module Sessions {
  import opened Bytes
  import opened Errors
  import opened PayloadBuffer
  import opened Packets
  import opened Packing
  import opened ClientConfig
  import opened Protocol
  import RL = RemainingLength

  /** The socket layer: outcomes to come, and a ghost record of what has happened. */
  class Wire {
    var script: seq<Outcome>
    ghost var log: seq<Event>

    ghost function State(): Net
      reads this
    {
      Net(script, log)
    }

    constructor (script: seq<Outcome>)
      ensures State() == Net(script, [])
    {
      this.script := script;
      log := [];
    }

    method Take() returns (o: Outcome)
      modifies this`script
      ensures o == old(Coming(State())) && script == old(After(State(), []).script)
    {
      if script == [] {
        return Outcome(-1, []);
      }
      o := script[0];
      script := script[1..];
    }

    method Open() returns (r: int)
      modifies this
      ensures (State(), r) == OpenNet(old(State()))
    {
      var o := Take();
      r := o.ret;
      log := log + if r >= 0 then [Opened(r)] else [];
    }

    method Dial() returns (r: int)
      modifies this
      ensures (State(), r) == DialNet(old(State()))
    {
      var o := Take();
      r := o.ret;
      log := log + [];
    }

    method Send(socket: int, buf: array<byte>) returns (r: int)
      modifies this
      ensures (State(), r) == SendNet(old(State()), socket, buf[..])
    {
      var o := Take();
      if socket < 0 || o.ret < 0 {
        log := log + [SendFailed];
        r := if socket < 0 then -1 else o.ret;
      } else {
        log := log + [Sent(buf[..])];
        r := buf.Length;
      }
    }

    method Recv(socket: int, buf: array<byte>) returns (r: int)
      modifies this, buf
      ensures (State(), r, buf[..]) == RecvNet(old(State()), socket, old(buf[..]))
    {
      var o := Take();
      if socket < 0 || o.ret < 0 {
        log := log + [ReceiveFailed];
        r := if socket < 0 then -1 else o.ret;
      } else {
        var n := if |o.data| <= buf.Length then |o.data| else buf.Length;
        Copy(buf, 0, o.data[..n]);
        assert buf[..n] == o.data[..n] && buf[n..] == old(buf[..])[n..];
        assert buf[..] == buf[..n] + buf[n..];
        assert buf[..] == Overlay(old(buf[..]), o.data);
        log := log + [Received(buf[..])];
        r := n;
      }
    }
  }

  /** The peer never sends a control packet whose length code goes on after its first byte:
      every packet that a client waits for has a Remaining Length below 128. */
  ghost predicate Framed(script: seq<Outcome>) {
    forall i :: 0 <= i < |script| && |script[i].data| >= 2 ==> script[i].data[1] < 128
  }

  lemma FramedAfter(n: Net)
    requires Framed(n.script)
    ensures Framed(After(n, []).script)
  {
    if n.script != [] {
      assert forall i :: 0 <= i < |n.script| - 1 ==> n.script[1..][i] == n.script[i + 1];
    }
  }

  /** A buffer that was well framed stays so; the unpackers then find the fields where `Protocol` looks for them. */
  lemma FramedReply(n: Net, socket: int, stale: bytes)
    requires Framed(n.script) && |stale| >= 2 && stale[1] < 128
    ensures var buf := RecvNet(n, socket, stale).2;
            |buf| == |stale| && buf[1] < 128 && ShortHeader(buf)
    ensures Framed(RecvNet(n, socket, stale).0.script)
  {
    FramedAfter(n);
    if n.script != [] && |n.script[0].data| >= 2 {
      assert n.script[0].data[1] < 128;
    }
    var buf := RecvNet(n, socket, stale).2;
    ShortHeaderOf(buf);
  }

  ghost predicate ShortHeader(b: bytes) {
    Opens(b) && HeaderLen(b) == 2 && Rest(b) == b[2..]
  }

  lemma ShortHeaderOf(b: bytes)
    requires |b| >= 2 && b[1] < 128
    ensures ShortHeader(b)
  {
    assert b[1..][0] == b[1];
  }

  lemma AckFrame(kind: nibble, id: uint16)
    ensures |Encode(Ack(kind, id))| == 4 && Encode(Ack(kind, id))[1] == 2
  {
  }

  class Session {
    var config: Config
    var socket: int
    var isConnected: bool
    var idPacket: uint16
    const wire: Wire

    ghost function State(): World
      reads this, wire
    {
      World(Sess(config, socket, isConnected, idPacket), wire.State())
    }

    constructor (wire: Wire)
      ensures this.wire == wire
      ensures State() == World(NEW_SESSION, wire.State())
    {
      this.wire := wire;
      config, socket, isConnected, idPacket := DEFAULT_CONFIG, -1, false, 0;
    }

    method Deinit()
      modifies this
      ensures (E_NONE, State()) == Run(old(State()), DoDeinit)
    {
      config, socket, idPacket := DEFAULT_CONFIG, -1, 0;
      assert wire.log + [] == wire.log;
    }

    /** `id_packet++` on a 16-bit counter. */
    method NextId() returns (id: uint16)
      modifies this`idPacket
      ensures id == old(idPacket) && State() == old(State()).(sess := TakeId(old(State()).sess))
    {
      id := idPacket;
      idPacket := (idPacket + 1) % 0x1_0000;
    }

    /** Sends one packet, which takes the call on from control point `c`. */
    method Transmit(ghost c: Control, buf: array<byte>) returns (r: int)
      requires Framed(wire.script) && !c.Halt? && Wants(c).Transmit? && buf[..] == Encode(Wants(c).p)
      modifies wire
      ensures State().sess == old(State().sess)
      ensures Exec(old(State()), c) == Resume(State(), c, r, [])
      ensures Framed(wire.script)
    {
      FramedAfter(wire.State());
      r := wire.Send(socket, buf);
    }

    /** Receives into a buffer, which takes the call on from control point `c`. */
    method Receive(ghost c: Control, buf: array<byte>) returns (r: int)
      requires Framed(wire.script) && !c.Halt? && Wants(c) == Await(buf[..])
      requires buf.Length >= 2 && buf[1] < 128
      modifies wire, buf
      ensures State().sess == old(State().sess)
      ensures Exec(old(State()), c) == Resume(State(), c, r, buf[..])
      ensures Framed(wire.script) && ShortHeader(buf[..])
    {
      FramedReply(wire.State(), socket, buf[..]);
      r := wire.Recv(socket, buf);
    }

    method Zeroed(n: nat) returns (buf: array<byte>)
      ensures fresh(buf) && buf.Length == n && buf[..] == RL.Zeros(n)
      ensures n > 1 ==> buf[1] == 0
    {
      buf := new byte[n](_ => 0);
    }

    method Connect() returns (err: int)
      requires Framed(wire.script)
      modifies this`socket, this`isConnected, wire
      ensures (err, State()) == Run(old(State()), DoConnect)
      ensures Framed(wire.script)
    {
      hide Exec;
      ExecHalts();
      assert wire.log + [] == wire.log;
      if isConnected {
        return E_NONE;
      }
      ghost var p := ConnectPacket(config);
      if socket < 0 {
        OpenTcp(p);
        if socket < 0 {
          return -E_NET_SOCK;
        }
      }
      var r := DialTcp(p);
      if r != 0 {
        return -E_NET_CONN;
      }
      var packet := BuildConnect();
      err := Transmit(SendConnect(p), packet);
      if err < 0 {
        return -E_NET_CONN;
      }
      err := AcceptConnack();
    }

    method OpenTcp(ghost p: Packet)
      requires Framed(wire.script)
      modifies this`socket, wire
      ensures Exec(old(State()), OpenSocket(p))
           == Exec(State(), if socket < 0 then Halt(-E_NET_SOCK) else TcpConnect(p))
      ensures Framed(wire.script)
    {
      FramedAfter(wire.State());
      socket := wire.Open();
    }

    method DialTcp(ghost p: Packet) returns (r: int)
      requires Framed(wire.script)
      modifies wire
      ensures Exec(old(State()), TcpConnect(p))
           == Exec(State(), if r != 0 then Halt(-E_NET_CONN) else SendConnect(p))
      ensures Framed(wire.script)
    {
      FramedAfter(wire.State());
      r := wire.Dial();
    }

    /** Any CONNACK, and anything else that arrives instead, makes the session connected. */
    method AcceptConnack() returns (err: int)
      requires Framed(wire.script)
      modifies this`isConnected, wire
      ensures (err, State()) == Exec(old(State()), AwaitConnack)
      ensures Framed(wire.script)
    {
      hide Exec;
      ExecHalts();
      var connack := Zeroed(4);
      err := Receive(AwaitConnack, connack);
      if err < 0 {
        return -E_NET_XFER;
      }
      var a := UnpackConnack(connack);
      if a.hdr.kind == CONNACK {
        err := if a.vars.code == 0 then E_NONE else -E_SESS_ACK;
      } else {
        err := -E_NET_CONN;
      }
      isConnected := true;
    }

    /** Fills in flags and payload from the configuration and packs the packet. */
    method BuildConnect() returns (packet: array<byte>)
      ensures fresh(packet) && packet[..] == Encode(ConnectPacket(config))
    {
      var p := new Payload(CONNECT_CAPACITY);
      ghost var items := WriteNext(p, [], Some(config.clientId));
      if HasWill(config) {
        items := WriteNext(p, items, config.willTopic);
        items := WriteNext(p, items, config.willMessage);
      }
      assert items == [Str(config.clientId)]
                      + if HasWill(config) then [Str(config.willTopic.value), Str(config.willMessage.value)] else [];
      items := WriteNext(p, items, config.user);
      items := WriteNext(p, items, config.password);
      assert items == ConnectItems(config);
      FlagsTell(config);
      WritesAppend(CONNECT_CAPACITY, [], items);
      packet := PackConnect(Attr(FixedHeader(CONNECT), 0, ConnectVars(ConnectFlags(config), config.keepAlive), p));
    }

    /** Writes a string if there is one; whether it fitted is not looked at. */
    method WriteNext(p: Payload, ghost items: seq<Item>, s: Option<cstring>) returns (ghost items': seq<Item>)
      requires p.Valid() && p.len == CONNECT_CAPACITY && p.Contents() == WriteAll(CONNECT_CAPACITY, [], items).0
      modifies p`lenValid, p.buf
      ensures items' == items + Optional(s)
      ensures p.Valid() && p.Contents() == WriteAll(CONNECT_CAPACITY, [], items').0
    {
      items' := items + Optional(s);
      if s.Some? {
        ghost var before := p.Contents();
        WriteAllConcat(CONNECT_CAPACITY, [], items, [Str(s.value)]);
        assert WriteAll(CONNECT_CAPACITY, before, [Str(s.value)]).0 == Write(CONNECT_CAPACITY, before, Str(s.value));
        var r := p.WriteString(s.value);
      } else {
        assert items' == items;
      }
    }

    method Disconnect() returns (err: int)
      requires Framed(wire.script)
      modifies this`socket, this`isConnected, wire
      ensures (err, State()) == Run(old(State()), DoDisconnect)
      ensures Framed(wire.script)
    {
      hide Exec;
      ExecHalts();
      assert wire.log + [] == wire.log;
      if socket < 0 {
        return -E_NET_SOCK;
      }
      if !isConnected {
        return E_NONE;
      }
      var packet := PackBare(DISCONNECT);
      err := Transmit(SendDisconnect, packet);
      if err < 0 {
        return -E_NET_CONN;
      }
      socket := -1;
      isConnected := false;
    }

    method BuildPublish(topic: cstring, payload: Payload, q: QoS, retain: bool, id: uint16)
      returns (packet: array<byte>)
      requires payload.Valid() && CallOk(DoPublish(topic, payload.Contents(), q, retain))
      requires Codable(config, DoPublish(topic, payload.Contents(), q, retain))
      ensures fresh(packet)
      ensures packet[..] == Encode(Packet.Publish(false, q, retain, topic, if q > 0 then id else 0, payload.Contents()))
    {
      var copy := new Payload(payload.lenValid);
      Copy(copy.buf, 0, payload.buf[..payload.lenValid]);
      copy.lenValid := payload.lenValid;
      assert copy.Contents() == payload.Contents();
      CStrWhole(topic);
      packet := PackPublish(Attr(CtlFlag(PUBLISH, false, q, retain), 0, PublishVars(topic, id), copy));
    }

    method BuildSubscribe(filter: cstring, q: QoS, id: uint16) returns (packet: array<byte>)
      ensures fresh(packet) && packet[..] == Encode(Listed(SUBSCRIBE, id, Emit(Str(filter)) + [q]))
    {
      var p := new Payload(|filter| + 3);
      var r := p.WriteString(filter);
      r := p.WriteByte(q);
      assert p.Contents() == Emit(Str(filter)) + [q];
      packet := PackListed(SUBSCRIBE, id, p);
    }

    method BuildUnsubscribe(filter: cstring, id: uint16) returns (packet: array<byte>)
      ensures fresh(packet) && packet[..] == Encode(Listed(UNSUBSCRIBE, id, Emit(Str(filter))))
    {
      var p := new Payload(|filter| + 2);
      var r := p.WriteString(filter);
      assert p.Contents() == Emit(Str(filter));
      packet := PackListed(UNSUBSCRIBE, id, p);
    }

    method Publish(topic: cstring, payload: Payload, qos: int, retain: bool) returns (err: int)
      requires payload.Valid() && CallOk(DoPublish(topic, payload.Contents(), qos, retain))
      requires Codable(config, DoPublish(topic, payload.Contents(), qos, retain))
      requires Framed(wire.script)
      modifies this`idPacket, wire
      ensures (err, State()) == Run(old(State()), DoPublish(topic, old(payload.Contents()), qos, retain))
      ensures Framed(wire.script)
    {
      hide Exec;
      ExecHalts();
      assert wire.log + [] == wire.log;
      if socket < 0 {
        return -E_NET_SOCK;
      }
      var q := Effective(config, qos);
      ghost var p := PublishPacket(State().sess, topic, payload.Contents(), q, retain);
      var id := NextId();
      var packet := BuildPublish(topic, payload, q, retain, id);
      err := Transmit(SendPublish(p, q), packet);
      if err < 0 {
        return -E_NET_CONN;
      }
      var ack := Zeroed(4);
      if q == 0 {
        err := E_NONE;
      } else if q == 1 {
        err := Receive(AwaitPuback, ack);
        if err < 0 {
          return;
        }
        var a := UnpackAck(ack);
        err := if a.hdr.kind == PUBACK then E_NONE else -E_NET_CONN;
      } else {
        err := PublishExactlyOnce(ack);
      }
    }

    /** The QoS 2 branch: PUBREC in, PUBREL out with the id it carried, PUBCOMP into the buffer of the PUBREL. */
    method PublishExactlyOnce(ack: array<byte>) returns (err: int)
      requires Framed(wire.script) && ack[..] == RL.Zeros(4)
      modifies wire, ack
      ensures (err, State()) == Exec(old(State()), AwaitPubrec)
      ensures Framed(wire.script)
    {
      hide Exec;
      ExecHalts();
      assert ack[1] == ack[..][1];
      err := Receive(AwaitPubrec, ack);
      if err < 0 {
        return;
      }
      var a := UnpackAck(ack);
      if a.hdr.kind != PUBREC {
        return -E_NET_CONN;
      }
      var id := a.vars.id;
      var pubrel := PackAck(PUBREL, id);
      err := Transmit(SendPubrel(id), pubrel);
      if err < 0 {
        return -E_NET_XFER;
      }
      AckFrame(PUBREL, id);
      assert pubrel[1] == pubrel[..][1];
      err := Receive(AwaitPubcomp(id), pubrel);
      if err < 0 {
        return -E_NET_XFER;
      }
      a := UnpackAck(pubrel);
      err := if a.hdr.kind == PUBCOMP then E_NONE else -E_SESS_ACK;
    }

    method Subscribe(filter: cstring, qos: int) returns (err: int)
      requires Framed(wire.script)
      modifies this`idPacket, wire
      ensures (err, State()) == Run(old(State()), DoSubscribe(filter, qos))
      ensures Framed(wire.script)
    {
      hide Exec;
      ExecHalts();
      assert wire.log + [] == wire.log;
      if socket < 0 {
        return -E_NET_SOCK;
      }
      ghost var p := SubscribePacket(State().sess, filter, Effective(config, qos));
      var id := NextId();
      var packet := BuildSubscribe(filter, Effective(config, qos), id);
      err := Transmit(SendSubscribe(p), packet);
      if err < 0 {
        return;
      }
      err := AcceptSuback();
    }

    /** The reply half of subscribe. */
    method AcceptSuback() returns (err: int)
      requires Framed(wire.script)
      modifies wire
      ensures (err, State()) == Exec(old(State()), AwaitSuback)
      ensures Framed(wire.script)
    {
      hide Exec;
      ExecHalts();
      var suback := Zeroed(5);
      err := Receive(AwaitSuback, suback);
      if err < 0 {
        return;
      }
      err := CheckSuback(suback);
    }

    method CheckSuback(suback: array<byte>) returns (err: int)
      requires suback.Length == 5 && ShortHeader(suback[..])
      ensures err == if FlagOf(suback[0]).kind == SUBACK && suback[4] < 128 then E_NONE else -E_SESS_ACK
    {
      var a := UnpackListed(suback);
      assert a.payload.buf[..] == suback[4..];
      var code;
      err, code := a.payload.ReadByte();
      err := if a.hdr.kind == SUBACK && code < 128 then E_NONE else -E_SESS_ACK;
    }

    method Unsubscribe(filter: cstring) returns (err: int)
      requires Framed(wire.script)
      modifies this`idPacket, wire
      ensures (err, State()) == Run(old(State()), DoUnsubscribe(filter))
      ensures Framed(wire.script)
    {
      hide Exec;
      ExecHalts();
      assert wire.log + [] == wire.log;
      if socket < 0 {
        return -E_NET_SOCK;
      }
      ghost var p := UnsubscribePacket(State().sess, filter);
      var id := NextId();
      var packet := BuildUnsubscribe(filter, id);
      err := Transmit(SendUnsubscribe(p), packet);
      if err < 0 {
        return -E_NET_XFER;
      }
      var unsuback := Zeroed(4);
      err := Receive(AwaitUnsuback, unsuback);
      if err < 0 {
        return -E_NET_XFER;
      }
      var a := UnpackAck(unsuback);
      err := if a.hdr.kind == UNSUBACK then E_NONE else -E_SESS_ACK;
    }

    method Pingreq() returns (err: int)
      requires Framed(wire.script)
      modifies wire
      ensures (err, State()) == Run(old(State()), DoPingreq)
      ensures Framed(wire.script)
    {
      hide Exec;
      ExecHalts();
      assert wire.log + [] == wire.log;
      if socket < 0 {
        return -E_NET_SOCK;
      }
      var packet := PackBare(PINGREQ);
      err := Transmit(SendPingreq, packet);
      if err < 0 {
        return -E_NET_XFER;
      }
      var pingresp := Zeroed(2);
      err := Receive(AwaitPingresp, pingresp);
      if err < 0 {
        return -E_NET_XFER;
      }
      var a := UnpackBare(pingresp);
      err := if a.hdr.kind == PINGRESP then E_NONE else -E_SESS_ACK;
    }

    /** Hands a received packet on; for a PUBLISH, runs the receiver's half of the handshake. */
    method OnPublish(buf: array<byte>) returns (err: int)
      requires Framed(wire.script) && CallOk(DoOnPublish(buf[..]))
      modifies this`idPacket, wire
      ensures err == E_NONE
      ensures (err, State()) == Run(old(State()), DoOnPublish(old(buf[..])))
      ensures Framed(wire.script)
    {
      hide Exec, Encode, PublishInBounds, Opens, HeaderLen, Declared, Rest;
      err := E_NONE;
      ExecHalts();
      if buf[0] / 16 == PUBLISH {
        var a := UnpackPublish(buf);
        Deliver(a, ViewPublish(buf[..]));
        if a.hdr.qos == 1 {
          var id := NextId();
          var puback := PackAck(PUBACK, id);
          var r := Transmit(SendPuback(id), puback);
        } else if a.hdr.qos == 2 {
          var id := NextId();
          ReceiveExactlyOnce(id);
        }
      } else {
        assert wire.log + [] == wire.log;
      }
    }

    /** Hands topic and payload on. */
    method Deliver(a: Attr, ghost v: View)
      requires Shows(a, v) && v.vars.PublishVars?
      modifies wire
      ensures var n := old(wire.State());
              State() == old(State()).(net := n.(log := n.log + [Delivered(a.vars.topic, v.content)]))
      ensures Shows(a, v)
    {
      wire.log := wire.log + [Delivered(a.vars.topic, v.content)];
    }

    /** The QoS 2 branch of the receiver: no failure stops it. */
    method ReceiveExactlyOnce(id: uint16)
      requires Framed(wire.script)
      modifies this`idPacket, wire
      ensures (E_NONE, State()) == Exec(old(State()), SendPubrec(id))
      ensures Framed(wire.script)
    {
      hide Exec;
      ExecHalts();
      var pubrec := PackAck(PUBREC, id);
      var r := Transmit(SendPubrec(id), pubrec);
      AnswerPubrel();
    }

    method AnswerPubrel()
      requires Framed(wire.script)
      modifies this`idPacket, wire
      ensures (E_NONE, State()) == Exec(old(State()), AwaitPubrel)
      ensures Framed(wire.script)
    {
      hide Exec;
      ExecHalts();
      HearPubrel();
      var id := NextId();
      var pubcomp := PackAck(PUBCOMP, id);
      var r := Transmit(SendPubcomp(id), pubcomp);
    }

    /** Whatever arrives, or nothing, passes for a PUBREL. */
    method HearPubrel()
      requires Framed(wire.script)
      modifies wire
      ensures State().sess == old(State()).sess
      ensures Exec(old(State()), AwaitPubrel) == Resume(State(), AwaitPubrel, 0, [])
      ensures Framed(wire.script)
    {
      hide Exec;
      var pubrel := Zeroed(4);
      var r := Receive(AwaitPubrel, pubrel);
      var a := UnpackAck(pubrel);
    }
  }
}
