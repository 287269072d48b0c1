/** What every call comes to, for every outcome of its socket operations: return value, session and events, in terms of
    the arguments and of the bytes that arrive. */
module Outcomes {
  import opened Bytes
  import opened Errors
  import opened Packets
  import opened ClientConfig
  import opened Protocol
  import opened Runs
  import opened Refinement
  import Invariants
  import Layout
  import PB = PayloadBuffer
  import RL = RemainingLength

  // ---------------------------------------------------------------- buffers

  /** What arrives overwrites the front of the buffer; what lies behind keeps its place, what is too much is cut off. */
  lemma OverlayBytes(stale: bytes, data: bytes, i: nat)
    requires i < |stale|
    ensures Overlay(stale, data)[i] == if i < |data| then data[i] else stale[i]
  {
  }

  /** The first byte tells the type, the third and fourth the id. */
  lemma ReplyBytes(b: bytes)
    ensures b != [] ==> KindIn(b) == b[0] / 16
    ensures |b| >= 4 ==> var hi: int, lo: int := b[2], b[3]; IdIn(b) == 256 * hi + lo && ByteIn(b, 3) == b[3]
    ensures |b| >= 5 ==> ByteIn(b, 4) == b[4]
  {
  }

  lemma FreshBuffers()
    ensures RL.Zeros(2) == [0, 0] && RL.Zeros(4) == [0, 0, 0, 0] && RL.Zeros(5) == [0, 0, 0, 0, 0]
  {
  }

  /** A new session. */
  lemma NewSessionIs()
    ensures NEW_SESSION.socket == -1 && !NEW_SESSION.connected && NEW_SESSION.nextId == 0
    ensures var c := NEW_SESSION.config;
            && c == DEFAULT_CONFIG && c.qos == 0 && c.keepAlive == 32 && c.cleanSession && c.willQos == 0 && !c.willRetain
            && c.willTopic == c.willMessage == c.user == c.password == None
            && c.clientId == [115, 104, 121, 108, 111, 99, 107, 45, 97, 114, 99, 104, 108, 105, 110, 117, 120]
  {
  }

  // ---------------------------------------------------------------- the rest of a call

  predicate Comes(w: World, c: Control, ret: int, s: Sess, events: seq<Event>) {
    Exec(w, c).0 == ret && Exec(w, c).1.sess == s && ExecEvents(w, c) == events
  }

  predicate CallComes(w: World, call: Call, ret: int, s: Sess, events: seq<Event>)
    requires CallOk(call)
  {
    Run(w, call).0 == ret && Run(w, call).1.sess == s && Invariants.RunEvents(w, call) == events
  }

  /** One operation and then the rest: what the rest comes to, the whole comes to with the event in front. */
  lemma StepComes(w: World, c: Control, ret: int, s: Sess, events: seq<Event>)
    requires !c.Halt? && Comes(Step(w, c).0, Step(w, c).1, ret, s, events)
    ensures Comes(w, c, ret, s, StepEvents(w, c) + events)
  {
    hide Exec, ExecEvents, ExecSends, Step, StepEvents;
    Unfold(w, c);
  }

  lemma HaltComes(w: World, ret: int)
    ensures Comes(w, Halt(ret), ret, w.sess, [])
  {
  }

  /** What a send does. */
  lemma Sends(w: World, c: Control)
    requires !c.Halt? && Wants(c).Transmit? && w.sess.socket >= 0
    ensures var o, frame := Nth(w, 0), Encode(Wants(c).p);
            var r := if o.ret < 0 then o.ret else |frame|;
            && Step(w, c).0.sess == Next(w.sess, c, r, []).0 && Step(w, c).1 == Next(w.sess, c, r, []).1
            && Step(w, c).0.net.script == After(w.net, []).script
            && StepEvents(w, c) == [if o.ret < 0 then SendFailed else Sent(frame)]
  {
    hide Encode, Next;
  }

  /** What a receive does. */
  lemma Hears(w: World, c: Control)
    requires !c.Halt? && Wants(c).Await? && w.sess.socket >= 0
    ensures var o, stale := Nth(w, 0), Wants(c).stale;
            var r := if o.ret < 0 then o.ret else if |o.data| < |stale| then |o.data| else |stale|;
            var b := if o.ret < 0 then stale else Overlay(stale, o.data);
            && Step(w, c).0.sess == Next(w.sess, c, r, b).0 && Step(w, c).1 == Next(w.sess, c, r, b).1
            && Step(w, c).0.net.script == After(w.net, []).script
            && StepEvents(w, c) == [if o.ret < 0 then ReceiveFailed else Received(b)]
  {
    hide Encode, Overlay, Next;
  }

  lemma NthLater(w: World, w': World)
    requires w'.net.script == After(w.net, []).script
    ensures forall i: nat :: Nth(w', i) == Nth(w, i + 1)
  {
  }

  // ---------------------------------------------------------------- the wait for the last reply

  /** What the last reply of a call makes of it. */
  function Verdict(c: Control, b: bytes): int
    requires |b| >= 2 && (c.AwaitSuback? ==> |b| == 5)
  {
    match c
    case AwaitPuback => if b[0] / 16 == 4 then E_NONE else -E_NET_CONN
    case AwaitPubcomp(_) => if b[0] / 16 == 7 then E_NONE else -E_SESS_ACK
    case AwaitSuback => if b[0] / 16 == 9 && b[4] < 128 then E_NONE else -E_SESS_ACK
    case AwaitUnsuback => if b[0] / 16 == 11 then E_NONE else -E_SESS_ACK
    case _ => if b[0] / 16 == 13 then E_NONE else -E_SESS_ACK
  }

  predicate LastWait(c: Control) {
    c.AwaitPuback? || c.AwaitPubcomp? || c.AwaitSuback? || c.AwaitUnsuback? || c.AwaitPingresp?
  }

  /** Puback and suback pass the error of the receive on; the others report a failed transfer. */
  function Unheard(c: Control, r: int): int {
    if c.AwaitPuback? || c.AwaitSuback? then r else -E_NET_XFER
  }

  lemma BufferSize(c: Control)
    requires LastWait(c)
    ensures Wants(c).Await?
    ensures |Wants(c).stale| == if c.AwaitSuback? then 5 else if c.AwaitPingresp? then 2 else 4
  {
  }

  lemma VerdictIs(s: Sess, c: Control, r: int, b: bytes)
    requires LastWait(c) && |b| == if c.AwaitSuback? then 5 else if c.AwaitPingresp? then 2 else 4
    ensures Next(s, c, r, b).0 == s
    ensures Next(s, c, r, b).1 == Halt(if r < 0 then Unheard(c, r) else Verdict(c, b))
  {
  }

  lemma LastReplyComes(w: World, c: Control)
    requires LastWait(c) && w.sess.socket >= 0
    ensures Wants(c).Await?
    ensures var o, b := Nth(w, 0), Overlay(Wants(c).stale, Nth(w, 0).data);
            && |b| == |Wants(c).stale| == (if c.AwaitSuback? then 5 else if c.AwaitPingresp? then 2 else 4)
            && if o.ret < 0 then Comes(w, c, Unheard(c, o.ret), w.sess, [ReceiveFailed])
               else Comes(w, c, Verdict(c, b), w.sess, [Received(b)])
  {
    hide Exec, ExecEvents, ExecSends, Step, StepEvents, Encode, Verdict, Next;
    BufferSize(c);
    Hears(w, c);
    var b := Overlay(Wants(c).stale, Nth(w, 0).data);
    var o, stale := Nth(w, 0), Wants(c).stale;
    if o.ret < 0 {
      VerdictIs(w.sess, c, o.ret, stale);
    } else {
      VerdictIs(w.sess, c, if |o.data| < |stale| then |o.data| else |stale|, b);
    }
    var c' := Step(w, c).1;
    HaltComes(Step(w, c).0, c'.ret);
    StepComes(w, c, c'.ret, w.sess, []);
    Assoc(StepEvents(w, c), [], []);
  }

  // ---------------------------------------------------------------- one request, one reply

  predicate Leads(c: Control, c': Control) {
    || (c.SendPublish? && c.qos == 1 && c'.AwaitPuback?)
    || (c.SendSubscribe? && c'.AwaitSuback?)
    || (c.SendUnsubscribe? && c'.AwaitUnsuback?)
    || (c.SendPingreq? && c'.AwaitPingresp?)
  }

  /** Subscribe passes the error of the send on. */
  function Unsent(c: Control, r: int): int {
    if c.SendSubscribe? then r else if c.SendPublish? then -E_NET_CONN else -E_NET_XFER
  }

  lemma RequestNext(s: Sess, c: Control, c': Control, r: int)
    requires Leads(c, c')
    ensures Wants(c).Transmit?
    ensures Next(s, c, r, []).0 == s && Next(s, c, r, []).1 == if r < 0 then Halt(Unsent(c, r)) else c'
  {
  }

  lemma RequestComes(w: World, c: Control, c': Control)
    requires Leads(c, c') && w.sess.socket >= 0
    ensures Wants(c).Transmit? && Wants(c').Await?
    ensures var sent, b := Sent(Encode(Wants(c).p)), Overlay(Wants(c').stale, Nth(w, 1).data);
            && |b| == (if c'.AwaitSuback? then 5 else if c'.AwaitPingresp? then 2 else 4)
            && if Nth(w, 0).ret < 0 then Comes(w, c, Unsent(c, Nth(w, 0).ret), w.sess, [SendFailed])
               else if Nth(w, 1).ret < 0 then Comes(w, c, Unheard(c', Nth(w, 1).ret), w.sess, [sent, ReceiveFailed])
               else Comes(w, c, Verdict(c', b), w.sess, [sent, Received(b)])
  {
    hide Exec, ExecEvents, ExecSends, Step, StepEvents, Encode, Verdict, Next, Comes, Overlay, Unheard, Unsent;
    var o := Nth(w, 0);
    BufferSize(c');
    RequestNext(w.sess, c, c', o.ret);
    var r := if o.ret < 0 then o.ret else |Encode(Wants(c).p)|;
    RequestNext(w.sess, c, c', r);
    Sends(w, c);
    var w' := Step(w, c).0;
    NthLater(w, w');
    LastReplyComes(w', c');
    if o.ret < 0 {
      HaltComes(w', Unsent(c, r));
      StepComes(w, c, Unsent(c, r), w.sess, []);
      Assoc([SendFailed], [], []);
    } else {
      var b := Overlay(Wants(c').stale, Nth(w, 1).data);
      var ret := if Nth(w, 1).ret < 0 then Unheard(c', Nth(w, 1).ret) else Verdict(c', b);
      var e := if Nth(w, 1).ret < 0 then ReceiveFailed else Received(b);
      StepComes(w, c, ret, w.sess, [e]);
      assert StepEvents(w, c) + [e] == [Sent(Encode(Wants(c).p)), e];
    }
  }

  /** A call comes to what its program comes to. */
  lemma BeginComes(w: World, call: Call, ret: int, s: Sess, events: seq<Event>)
    requires CallOk(call) && !call.DoOnPublish?
    requires Comes(w.(sess := Enter(w.sess, call).0), Enter(w.sess, call).1, ret, s, events)
    ensures CallComes(w, call, ret, s, events)
  {
    hide Exec, ExecEvents, ExecSends, Enter;
    BeginQuiet(w, call);
    Assoc(events, [], []);
  }

  lemma SameNth(w: World, w': World)
    requires w'.net == w.net
    ensures forall i: nat :: Nth(w', i) == Nth(w, i)
  {
  }

  /** The packet id that goes up with every publish, subscribe and unsubscribe. */
  function Counted(s: Sess): Sess {
    s.(nextId := (s.nextId + 1) % 65536)
  }

  // ---------------------------------------------------------------- the calls

  lemma NoSocketComes(w: World, call: Call)
    requires CallOk(call) && ClientCall(call) && w.sess.socket < 0
    ensures CallComes(w, call, -E_NET_SOCK, w.sess, [])
  {
    HaltComes(w, -E_NET_SOCK);
    hide Exec, ExecEvents, ExecSends, Comes, CallComes, CallOk;
    BeginComes(w, call, -E_NET_SOCK, w.sess, []);
  }

  /** Publish with QoS 0 or 1. */
  lemma PublishComes(w: World, topic: cstring, content: bytes, qos: int, retain: bool)
    requires CallOk(DoPublish(topic, content, qos, retain)) && w.sess.socket >= 0
    requires (if 0 <= qos <= 2 then qos else w.sess.config.qos) != 2
    ensures var q := if 0 <= qos <= 2 then qos else w.sess.config.qos;
            var call, s := DoPublish(topic, content, qos, retain), Counted(w.sess);
            var sent := Sent(Encode(Publish(false, q, retain, topic, if q > 0 then w.sess.nextId else 0, content)));
            var b := Overlay([0, 0, 0, 0], Nth(w, 1).data);
            if Nth(w, 0).ret < 0 then CallComes(w, call, -E_NET_CONN, s, [SendFailed])
            else if q == 0 then CallComes(w, call, E_NONE, s, [sent])
            else if Nth(w, 1).ret < 0 then CallComes(w, call, Nth(w, 1).ret, s, [sent, ReceiveFailed])
            else CallComes(w, call, if b[0] / 16 == 4 then E_NONE else -E_NET_CONN, s, [sent, Received(b)])
  {
    hide Exec, ExecEvents, ExecSends, Step, StepEvents, Encode, Overlay, Comes, CallComes;
    var q := if 0 <= qos <= 2 then qos else w.sess.config.qos;
    var call := DoPublish(topic, content, qos, retain);
    var p := Publish(false, q, retain, topic, if q > 0 then w.sess.nextId else 0, content);
    var w1 := w.(sess := Counted(w.sess));
    assert Enter(w.sess, call) == (w1.sess, SendPublish(p, q));
    SameNth(w, w1);
    FreshBuffers();
    forall ret: int, events: seq<Event> | Comes(w1, SendPublish(p, q), ret, w1.sess, events)
      ensures CallComes(w, call, ret, w1.sess, events)
    {
      BeginComes(w, call, ret, w1.sess, events);
    }
    hide CallOk, Enter;
    if q == 1 {
      RequestComes(w1, SendPublish(p, 1), AwaitPuback);
    } else {
      UnansweredComes(w1, p);
    }
  }

  lemma UnansweredComes(w: World, p: Packet)
    requires w.sess.socket >= 0
    ensures if Nth(w, 0).ret < 0 then Comes(w, SendPublish(p, 0), -E_NET_CONN, w.sess, [SendFailed])
            else Comes(w, SendPublish(p, 0), E_NONE, w.sess, [Sent(Encode(p))])
  {
    hide Exec, ExecEvents, ExecSends, Step, StepEvents, Encode, Comes;
    var c := SendPublish(p, 0);
    Sends(w, c);
    HaltComes(Step(w, c).0, Step(w, c).1.ret);
    StepComes(w, c, Step(w, c).1.ret, w.sess, []);
    Assoc(StepEvents(w, c), [], []);
  }

  // ---------------------------------------------------------------- publish with QoS 2

  lemma PubrelNext(s: Sess, id: uint16, r: int)
    ensures Wants(SendPubrel(id)) == Transmit(Ack(PUBREL, id))
    ensures Next(s, SendPubrel(id), r, []) == (s, if r < 0 then Halt(-E_NET_XFER) else AwaitPubcomp(id))
    ensures Wants(AwaitPubcomp(id)) == Await(Encode(Ack(PUBREL, id)))
  {
    hide Encode;
  }

  /** From the PUBREL on; PUBCOMP is received into the buffer of the PUBREL. */
  lemma PubrelComes(w: World, hi: byte, lo: byte)
    requires w.sess.socket >= 0
    ensures var c := SendPubrel(256 * hi + lo);
            var rel := [0x62, 2, hi, lo];
            var d := Overlay(rel, Nth(w, 1).data);
            if Nth(w, 0).ret < 0 then Comes(w, c, -E_NET_XFER, w.sess, [SendFailed])
            else if Nth(w, 1).ret < 0 then Comes(w, c, -E_NET_XFER, w.sess, [Sent(rel), ReceiveFailed])
            else Comes(w, c, if d[0] / 16 == 7 then E_NONE else -E_SESS_ACK, w.sess, [Sent(rel), Received(d)])
  {
    hide Exec, ExecEvents, ExecSends, Step, StepEvents, Encode, Overlay, Comes, Next, Wants;
    var id: uint16 := 256 * hi + lo;
    var o, rel := Nth(w, 0), [0x62, 2, hi, lo];
    Layout.AckBytes(id);
    assert id / 256 == hi && id % 256 == lo;
    PubrelNext(w.sess, id, o.ret);
    PubrelNext(w.sess, id, |rel|);
    Sends(w, SendPubrel(id));
    var w' := Step(w, SendPubrel(id)).0;
    NthLater(w, w');
    if o.ret < 0 {
      HaltComes(w', -E_NET_XFER);
      StepComes(w, SendPubrel(id), -E_NET_XFER, w.sess, []);
      Assoc([SendFailed], [], []);
    } else {
      LastReplyComes(w', AwaitPubcomp(id));
      var d := Overlay(rel, Nth(w, 1).data);
      var ret := if Nth(w, 1).ret < 0 then -E_NET_XFER else if d[0] / 16 == 7 then E_NONE else -E_SESS_ACK;
      var e := if Nth(w, 1).ret < 0 then ReceiveFailed else Received(d);
      StepComes(w, SendPubrel(id), ret, w.sess, [e]);
      assert [Sent(rel)] + [e] == [Sent(rel), e];
    }
  }

  lemma PubrecNext(s: Sess, r: int, b: bytes)
    requires |b| == 4
    ensures Wants(AwaitPubrec) == Await(RL.Zeros(4))
    ensures Next(s, AwaitPubrec, r, b).0 == s
    ensures var hi: int, lo: int := b[2], b[3];
            Next(s, AwaitPubrec, r, b).1 ==
            if r < 0 then Halt(r) else if b[0] / 16 == 5 then SendPubrel(256 * hi + lo) else Halt(-E_NET_CONN)
  {
  }

  /** From the wait for the PUBREC on; the two id bytes go back as they came. */
  lemma PubrecComes(w: World)
    requires w.sess.socket >= 0
    ensures var b := Overlay([0, 0, 0, 0], Nth(w, 0).data);
            var rel := [0x62, 2, b[2], b[3]];
            var d := Overlay(rel, Nth(w, 2).data);
            if Nth(w, 0).ret < 0 then Comes(w, AwaitPubrec, Nth(w, 0).ret, w.sess, [ReceiveFailed])
            else if b[0] / 16 != 5 then Comes(w, AwaitPubrec, -E_NET_CONN, w.sess, [Received(b)])
            else if Nth(w, 1).ret < 0 then Comes(w, AwaitPubrec, -E_NET_XFER, w.sess, [Received(b), SendFailed])
            else if Nth(w, 2).ret < 0 then
              Comes(w, AwaitPubrec, -E_NET_XFER, w.sess, [Received(b), Sent(rel), ReceiveFailed])
            else
              Comes(w, AwaitPubrec, if d[0] / 16 == 7 then E_NONE else -E_SESS_ACK, w.sess,
                    [Received(b), Sent(rel), Received(d)])
  {
    hide Exec, ExecEvents, ExecSends, Step, StepEvents, Overlay, Comes, Next, Wants;
    FreshBuffers();
    var o, b := Nth(w, 0), Overlay([0, 0, 0, 0], Nth(w, 0).data);
    PubrecNext(w.sess, o.ret, [0, 0, 0, 0]);
    PubrecNext(w.sess, if |o.data| < 4 then |o.data| else 4, b);
    Hears(w, AwaitPubrec);
    var w' := Step(w, AwaitPubrec).0;
    NthLater(w, w');
    if o.ret < 0 || b[0] / 16 != 5 {
      var ret := if o.ret < 0 then o.ret else -E_NET_CONN;
      HaltComes(w', ret);
      StepComes(w, AwaitPubrec, ret, w.sess, []);
      Assoc(StepEvents(w, AwaitPubrec), [], []);
    } else {
      PubrelComes(w', b[2], b[3]);
      var rel := [0x62, 2, b[2], b[3]];
      var d := Overlay(rel, Nth(w, 2).data);
      var ret := if Nth(w, 1).ret < 0 || Nth(w, 2).ret < 0 then -E_NET_XFER
                 else if d[0] / 16 == 7 then E_NONE else -E_SESS_ACK;
      var rest := if Nth(w, 1).ret < 0 then [SendFailed]
                  else if Nth(w, 2).ret < 0 then [Sent(rel), ReceiveFailed] else [Sent(rel), Received(d)];
      StepComes(w, AwaitPubrec, ret, w.sess, rest);
      Joined(Received(b), rest);
    }
  }

  lemma Joined(e: Event, rest: seq<Event>)
    ensures |rest| == 1 ==> [e] + rest == [e, rest[0]]
    ensures |rest| == 2 ==> [e] + rest == [e, rest[0], rest[1]]
    ensures |rest| == 3 ==> [e] + rest == [e, rest[0], rest[1], rest[2]]
  {
  }

  lemma PublishNext(s: Sess, p: Packet, r: int)
    ensures Wants(SendPublish(p, 2)) == Transmit(p)
    ensures Next(s, SendPublish(p, 2), r, []) == (s, if r < 0 then Halt(-E_NET_CONN) else AwaitPubrec)
  {
  }

  lemma SendsThenPubrec(w: World, p: Packet, ret: int, rest: seq<Event>)
    requires w.sess.socket >= 0 && Nth(w, 0).ret >= 0
    requires Comes(Step(w, SendPublish(p, 2)).0, AwaitPubrec, ret, w.sess, rest)
    ensures Comes(w, SendPublish(p, 2), ret, w.sess, [Sent(Encode(p))] + rest)
  {
    hide Exec, ExecEvents, ExecSends, Step, StepEvents, Encode, Comes, Next, Wants;
    PublishNext(w.sess, p, |Encode(p)|);
    Sends(w, SendPublish(p, 2));
    StepComes(w, SendPublish(p, 2), ret, w.sess, rest);
  }

  lemma ExactlyOnceRest(w: World, p: Packet)
    requires w.sess.socket >= 0
    ensures var sent := Sent(Encode(p));
            var c, b := SendPublish(p, 2), Overlay([0, 0, 0, 0], Nth(w, 1).data);
            var rel := [0x62, 2, b[2], b[3]];
            var d := Overlay(rel, Nth(w, 3).data);
            if Nth(w, 0).ret < 0 then Comes(w, c, -E_NET_CONN, w.sess, [SendFailed])
            else if Nth(w, 1).ret < 0 then Comes(w, c, Nth(w, 1).ret, w.sess, [sent, ReceiveFailed])
            else if b[0] / 16 != 5 then Comes(w, c, -E_NET_CONN, w.sess, [sent, Received(b)])
            else if Nth(w, 2).ret < 0 then Comes(w, c, -E_NET_XFER, w.sess, [sent, Received(b), SendFailed])
            else if Nth(w, 3).ret < 0 then
              Comes(w, c, -E_NET_XFER, w.sess, [sent, Received(b), Sent(rel), ReceiveFailed])
            else
              Comes(w, c, if d[0] / 16 == 7 then E_NONE else -E_SESS_ACK, w.sess,
                    [sent, Received(b), Sent(rel), Received(d)])
  {
    hide Exec, ExecEvents, ExecSends, Step, StepEvents, Encode, Overlay, Comes, Next, Wants;
    var c, sent := SendPublish(p, 2), Sent(Encode(p));
    var o, b := Nth(w, 0), Overlay([0, 0, 0, 0], Nth(w, 1).data);
    PublishNext(w.sess, p, o.ret);
    PublishNext(w.sess, p, |Encode(p)|);
    Sends(w, c);
    var w' := Step(w, c).0;
    NthLater(w, w');
    if o.ret < 0 {
      HaltComes(w', -E_NET_CONN);
      StepComes(w, c, -E_NET_CONN, w.sess, []);
      Assoc([SendFailed], [], []);
    } else {
      PubrecComes(w');
      forall ret: int, rest: seq<Event> | Comes(w', AwaitPubrec, ret, w.sess, rest)
        ensures Comes(w, c, ret, w.sess, [sent] + rest)
      {
        SendsThenPubrec(w, p, ret, rest);
      }
      var rel := [0x62, 2, b[2], b[3]];
      var d := Overlay(rel, Nth(w, 3).data);
      Joined(sent, [ReceiveFailed]);
      Joined(sent, [Received(b)]);
      Joined(sent, [Received(b), SendFailed]);
      Joined(sent, [Received(b), Sent(rel), ReceiveFailed]);
      Joined(sent, [Received(b), Sent(rel), Received(d)]);
    }
  }

  /** Publish with QoS 2. */
  lemma ExactlyOnceComes(w: World, topic: cstring, content: bytes, qos: int, retain: bool)
    requires CallOk(DoPublish(topic, content, qos, retain)) && w.sess.socket >= 0
    requires (if 0 <= qos <= 2 then qos else w.sess.config.qos) == 2
    ensures var call, s := DoPublish(topic, content, qos, retain), Counted(w.sess);
            var sent := Sent(Encode(Publish(false, 2, retain, topic, w.sess.nextId, content)));
            var b := Overlay([0, 0, 0, 0], Nth(w, 1).data);
            var rel := [0x62, 2, b[2], b[3]];
            var d := Overlay(rel, Nth(w, 3).data);
            if Nth(w, 0).ret < 0 then CallComes(w, call, -E_NET_CONN, s, [SendFailed])
            else if Nth(w, 1).ret < 0 then CallComes(w, call, Nth(w, 1).ret, s, [sent, ReceiveFailed])
            else if b[0] / 16 != 5 then CallComes(w, call, -E_NET_CONN, s, [sent, Received(b)])
            else if Nth(w, 2).ret < 0 then CallComes(w, call, -E_NET_XFER, s, [sent, Received(b), SendFailed])
            else if Nth(w, 3).ret < 0 then
              CallComes(w, call, -E_NET_XFER, s, [sent, Received(b), Sent(rel), ReceiveFailed])
            else
              CallComes(w, call, if d[0] / 16 == 7 then E_NONE else -E_SESS_ACK, s,
                        [sent, Received(b), Sent(rel), Received(d)])
  {
    hide Exec, ExecEvents, ExecSends, Encode, Overlay, Comes, CallComes;
    var call := DoPublish(topic, content, qos, retain);
    var p := Publish(false, 2, retain, topic, w.sess.nextId, content);
    var w1 := w.(sess := Counted(w.sess));
    assert Enter(w.sess, call) == (w1.sess, SendPublish(p, 2));
    SameNth(w, w1);
    forall ret: int, events: seq<Event> | Comes(w1, SendPublish(p, 2), ret, w1.sess, events)
      ensures CallComes(w, call, ret, w1.sess, events)
    {
      BeginComes(w, call, ret, w1.sess, events);
    }
    hide CallOk, Enter;
    ExactlyOnceRest(w1, p);
  }

  // ---------------------------------------------------------------- subscribe, unsubscribe, pingreq, disconnect

  lemma SubscribeComes(w: World, filter: cstring, qos: int)
    requires w.sess.socket >= 0
    ensures var q := if 0 <= qos <= 2 then qos else w.sess.config.qos;
            var n := |filter| % 65536;
            var call, s := DoSubscribe(filter, qos), Counted(w.sess);
            var sent := Sent(Encode(Listed(SUBSCRIBE, w.sess.nextId, [n / 256, n % 256] + filter[..n] + [q])));
            var b := Overlay([0, 0, 0, 0, 0], Nth(w, 1).data);
            if Nth(w, 0).ret < 0 then CallComes(w, call, Nth(w, 0).ret, s, [SendFailed])
            else if Nth(w, 1).ret < 0 then CallComes(w, call, Nth(w, 1).ret, s, [sent, ReceiveFailed])
            else
              CallComes(w, call, if b[0] / 16 == 9 && b[4] < 128 then E_NONE else -E_SESS_ACK, s,
                        [sent, Received(b)])
  {
    hide Exec, ExecEvents, ExecSends, Encode, Overlay, Comes, CallComes, PB.Emit;
    var q := if 0 <= qos <= 2 then qos else w.sess.config.qos;
    var n, call := |filter| % 65536, DoSubscribe(filter, qos);
    var p := Listed(SUBSCRIBE, w.sess.nextId, [n / 256, n % 256] + filter[..n] + [q]);
    var w1 := w.(sess := Counted(w.sess));
    Layout.ItemBytes(filter, 0, []);
    assert Enter(w.sess, call) == (w1.sess, SendSubscribe(p));
    SameNth(w, w1);
    FreshBuffers();
    forall ret: int, events: seq<Event> | Comes(w1, SendSubscribe(p), ret, w1.sess, events)
      ensures CallComes(w, call, ret, w1.sess, events)
    {
      BeginComes(w, call, ret, w1.sess, events);
    }
    hide Enter;
    RequestComes(w1, SendSubscribe(p), AwaitSuback);
  }

  lemma UnsubscribeComes(w: World, filter: cstring)
    requires w.sess.socket >= 0
    ensures var n := |filter| % 65536;
            var call, s := DoUnsubscribe(filter), Counted(w.sess);
            var sent := Sent(Encode(Listed(UNSUBSCRIBE, w.sess.nextId, [n / 256, n % 256] + filter[..n])));
            var b := Overlay([0, 0, 0, 0], Nth(w, 1).data);
            if Nth(w, 0).ret < 0 then CallComes(w, call, -E_NET_XFER, s, [SendFailed])
            else if Nth(w, 1).ret < 0 then CallComes(w, call, -E_NET_XFER, s, [sent, ReceiveFailed])
            else CallComes(w, call, if b[0] / 16 == 11 then E_NONE else -E_SESS_ACK, s, [sent, Received(b)])
  {
    hide Exec, ExecEvents, ExecSends, Encode, Overlay, Comes, CallComes, PB.Emit;
    var n, call := |filter| % 65536, DoUnsubscribe(filter);
    var p := Listed(UNSUBSCRIBE, w.sess.nextId, [n / 256, n % 256] + filter[..n]);
    var w1 := w.(sess := Counted(w.sess));
    Layout.ItemBytes(filter, 0, []);
    assert Enter(w.sess, call) == (w1.sess, SendUnsubscribe(p));
    SameNth(w, w1);
    FreshBuffers();
    forall ret: int, events: seq<Event> | Comes(w1, SendUnsubscribe(p), ret, w1.sess, events)
      ensures CallComes(w, call, ret, w1.sess, events)
    {
      BeginComes(w, call, ret, w1.sess, events);
    }
    hide Enter;
    RequestComes(w1, SendUnsubscribe(p), AwaitUnsuback);
  }

  lemma PingreqComes(w: World)
    requires w.sess.socket >= 0
    ensures var sent := Sent([0xC0, 0]);
            var b := Overlay([0, 0], Nth(w, 1).data);
            if Nth(w, 0).ret < 0 then CallComes(w, DoPingreq, -E_NET_XFER, w.sess, [SendFailed])
            else if Nth(w, 1).ret < 0 then CallComes(w, DoPingreq, -E_NET_XFER, w.sess, [sent, ReceiveFailed])
            else CallComes(w, DoPingreq, if b[0] / 16 == 13 then E_NONE else -E_SESS_ACK, w.sess, [sent, Received(b)])
  {
    hide Exec, ExecEvents, ExecSends, Encode, Overlay, Comes, CallComes;
    Layout.BareBytes();
    FreshBuffers();
    forall ret: int, events: seq<Event> | Comes(w, SendPingreq, ret, w.sess, events)
      ensures CallComes(w, DoPingreq, ret, w.sess, events)
    {
      BeginComes(w, DoPingreq, ret, w.sess, events);
    }
    RequestComes(w, SendPingreq, AwaitPingresp);
  }

  lemma DisconnectComes(w: World)
    requires w.sess.socket >= 0
    ensures if !w.sess.connected then CallComes(w, DoDisconnect, E_NONE, w.sess, [])
            else if Nth(w, 0).ret < 0 then CallComes(w, DoDisconnect, -E_NET_CONN, w.sess, [SendFailed])
            else CallComes(w, DoDisconnect, 2, w.sess.(socket := -1, connected := false), [Sent([0xE0, 0])])
  {
    hide Exec, ExecEvents, ExecSends, Run, Comes;
    if w.sess.connected {
      Invariants.DisconnectCloses(w);
    } else {
      HaltComes(w, E_NONE);
      BeginComes(w, DoDisconnect, E_NONE, w.sess, []);
    }
  }

  lemma DeinitComes(w: World)
    ensures CallComes(w, DoDeinit, E_NONE, Sess(DEFAULT_CONFIG, -1, w.sess.connected, 0), [])
  {
    var s := Sess(DEFAULT_CONFIG, -1, w.sess.connected, 0);
    HaltComes(w.(sess := s), E_NONE);
    hide Exec, ExecEvents, ExecSends, Comes, CallComes;
    BeginComes(w, DoDeinit, E_NONE, s, []);
  }

  // ---------------------------------------------------------------- connect

  /** Three ways a reply to CONNECT is judged. */
  function Admission(b: bytes): int
    requires |b| == 4
  {
    if b[0] / 16 != 2 then -E_NET_CONN else if b[3] == 0 then E_NONE else -E_SESS_ACK
  }

  lemma ConnackNext(s: Sess, r: int, b: bytes)
    requires |b| == 4
    ensures Wants(AwaitConnack) == Await(RL.Zeros(4))
    ensures Next(s, AwaitConnack, r, b).0 == if r < 0 then s else s.(connected := true)
    ensures Next(s, AwaitConnack, r, b).1 == Halt(if r < 0 then -E_NET_XFER else Admission(b))
  {
  }

  lemma ConnackComes(w: World)
    requires w.sess.socket >= 0
    ensures var b := Overlay([0, 0, 0, 0], Nth(w, 0).data);
            if Nth(w, 0).ret < 0 then Comes(w, AwaitConnack, -E_NET_XFER, w.sess, [ReceiveFailed])
            else Comes(w, AwaitConnack, Admission(b), w.sess.(connected := true), [Received(b)])
  {
    hide Exec, ExecEvents, ExecSends, Step, StepEvents, Overlay, Comes, Next, Wants, Admission;
    FreshBuffers();
    var o, b := Nth(w, 0), Overlay([0, 0, 0, 0], Nth(w, 0).data);
    ConnackNext(w.sess, o.ret, [0, 0, 0, 0]);
    ConnackNext(w.sess, if |o.data| < 4 then |o.data| else 4, b);
    Hears(w, AwaitConnack);
    var w' := Step(w, AwaitConnack).0;
    var ret := if o.ret < 0 then -E_NET_XFER else Admission(b);
    HaltComes(w', ret);
    StepComes(w, AwaitConnack, ret, w'.sess, []);
    Assoc(StepEvents(w, AwaitConnack), [], []);
  }

  lemma SendConnectNext(s: Sess, p: Packet, r: int)
    ensures Wants(SendConnect(p)) == Transmit(p)
    ensures Next(s, SendConnect(p), r, []) == (s, if r < 0 then Halt(-E_NET_CONN) else AwaitConnack)
  {
  }

  lemma SendConnectComes(w: World, p: Packet)
    requires w.sess.socket >= 0
    ensures var c, b := SendConnect(p), Overlay([0, 0, 0, 0], Nth(w, 1).data);
            if Nth(w, 0).ret < 0 then Comes(w, c, -E_NET_CONN, w.sess, [SendFailed])
            else if Nth(w, 1).ret < 0 then Comes(w, c, -E_NET_XFER, w.sess, [Sent(Encode(p)), ReceiveFailed])
            else Comes(w, c, Admission(b), w.sess.(connected := true), [Sent(Encode(p)), Received(b)])
  {
    hide Exec, ExecEvents, ExecSends, Step, StepEvents, Encode, Overlay, Comes, Next, Wants, Admission;
    var c, b := SendConnect(p), Overlay([0, 0, 0, 0], Nth(w, 1).data);
    SendConnectNext(w.sess, p, Nth(w, 0).ret);
    SendConnectNext(w.sess, p, |Encode(p)|);
    Sends(w, c);
    var w' := Step(w, c).0;
    NthLater(w, w');
    if Nth(w, 0).ret < 0 {
      HaltComes(w', -E_NET_CONN);
      StepComes(w, c, -E_NET_CONN, w.sess, []);
      Assoc([SendFailed], [], []);
    } else {
      ConnackComes(w');
      var e := if Nth(w, 1).ret < 0 then ReceiveFailed else Received(b);
      var ret := if Nth(w, 1).ret < 0 then -E_NET_XFER else Admission(b);
      var s := if Nth(w, 1).ret < 0 then w.sess else w.sess.(connected := true);
      StepComes(w, c, ret, s, [e]);
      Joined(Sent(Encode(p)), [e]);
    }
  }

  lemma DialStep(w: World, p: Packet)
    ensures var c, o := TcpConnect(p), Nth(w, 0);
            && Step(w, c).0.sess == w.sess && Step(w, c).0.net.script == After(w.net, []).script
            && Step(w, c).1 == (if o.ret != 0 then Halt(-E_NET_CONN) else SendConnect(p))
            && StepEvents(w, c) == []
  {
  }

  lemma DialComes(w: World, p: Packet)
    requires w.sess.socket >= 0
    ensures var c, b := TcpConnect(p), Overlay([0, 0, 0, 0], Nth(w, 2).data);
            if Nth(w, 0).ret != 0 then Comes(w, c, -E_NET_CONN, w.sess, [])
            else if Nth(w, 1).ret < 0 then Comes(w, c, -E_NET_CONN, w.sess, [SendFailed])
            else if Nth(w, 2).ret < 0 then Comes(w, c, -E_NET_XFER, w.sess, [Sent(Encode(p)), ReceiveFailed])
            else Comes(w, c, Admission(b), w.sess.(connected := true), [Sent(Encode(p)), Received(b)])
  {
    hide Exec, ExecEvents, ExecSends, Step, StepEvents, Encode, Overlay, Comes, Admission;
    var c := TcpConnect(p);
    DialStep(w, p);
    var w' := Step(w, c).0;
    NthLater(w, w');
    forall ret: int, s: Sess, events: seq<Event> | Comes(w', Step(w, c).1, ret, s, events)
      ensures Comes(w, c, ret, s, events)
    {
      StepComes(w, c, ret, s, events);
      Assoc(events, [], []);
    }
    if Nth(w, 0).ret != 0 {
      HaltComes(w', -E_NET_CONN);
    } else {
      SendConnectComes(w', p);
    }
  }

  lemma OpenStep(w: World, p: Packet)
    ensures var c, o := OpenSocket(p), Nth(w, 0);
            && Step(w, c).0.sess == w.sess.(socket := o.ret) && Step(w, c).0.net.script == After(w.net, []).script
            && Step(w, c).1 == (if o.ret < 0 then Halt(-E_NET_SOCK) else TcpConnect(p))
            && StepEvents(w, c) == if o.ret < 0 then [] else [Opened(o.ret)]
  {
  }

  /** Connect on a session that has a socket, from an earlier attempt that failed. */
  lemma RetryComes(w: World)
    requires !w.sess.connected && w.sess.socket >= 0
    ensures var c := w.sess.config;
            var sent := Sent(Encode(Connect(ConnectFlags(c), c.keepAlive, ConnectContent(c))));
            var b := Overlay([0, 0, 0, 0], Nth(w, 2).data);
            if Nth(w, 0).ret != 0 then CallComes(w, DoConnect, -E_NET_CONN, w.sess, [])
            else if Nth(w, 1).ret < 0 then CallComes(w, DoConnect, -E_NET_CONN, w.sess, [SendFailed])
            else if Nth(w, 2).ret < 0 then CallComes(w, DoConnect, -E_NET_XFER, w.sess, [sent, ReceiveFailed])
            else CallComes(w, DoConnect, Admission(b), w.sess.(connected := true), [sent, Received(b)])
  {
    hide Exec, ExecEvents, ExecSends, Encode, Overlay, Comes, CallComes, ConnectFlags, ConnectContent, Admission;
    var p := Connect(ConnectFlags(w.sess.config), w.sess.config.keepAlive, ConnectContent(w.sess.config));
    forall ret: int, s: Sess, events: seq<Event> | Comes(w, TcpConnect(p), ret, s, events)
      ensures CallComes(w, DoConnect, ret, s, events)
    {
      BeginComes(w, DoConnect, ret, s, events);
    }
    DialComes(w, p);
  }

  /** Connect on a session without socket. A failed open leaves its result in the session. */
  lemma ConnectComes(w: World)
    requires !w.sess.connected && w.sess.socket < 0
    ensures var c := w.sess.config;
            var s, got := w.sess.(socket := Nth(w, 0).ret), Opened(Nth(w, 0).ret);
            var sent := Sent(Encode(Connect(ConnectFlags(c), c.keepAlive, ConnectContent(c))));
            var b := Overlay([0, 0, 0, 0], Nth(w, 3).data);
            if Nth(w, 0).ret < 0 then CallComes(w, DoConnect, -E_NET_SOCK, s, [])
            else if Nth(w, 1).ret != 0 then CallComes(w, DoConnect, -E_NET_CONN, s, [got])
            else if Nth(w, 2).ret < 0 then CallComes(w, DoConnect, -E_NET_CONN, s, [got, SendFailed])
            else if Nth(w, 3).ret < 0 then CallComes(w, DoConnect, -E_NET_XFER, s, [got, sent, ReceiveFailed])
            else CallComes(w, DoConnect, Admission(b), s.(connected := true), [got, sent, Received(b)])
  {
    hide Exec, ExecEvents, ExecSends, Encode, Overlay, Comes, CallComes, ConnectFlags, ConnectContent, Admission;
    hide Step, StepEvents;
    var p := Connect(ConnectFlags(w.sess.config), w.sess.config.keepAlive, ConnectContent(w.sess.config));
    forall ret: int, s: Sess, events: seq<Event> | Comes(w, OpenSocket(p), ret, s, events)
      ensures CallComes(w, DoConnect, ret, s, events)
    {
      BeginComes(w, DoConnect, ret, s, events);
    }
    OpenStep(w, p);
    var w' := Step(w, OpenSocket(p)).0;
    NthLater(w, w');
    forall ret: int, s: Sess, events: seq<Event> | Comes(w', Step(w, OpenSocket(p)).1, ret, s, events)
      ensures Comes(w, OpenSocket(p), ret, s, StepEvents(w, OpenSocket(p)) + events)
    {
      StepComes(w, OpenSocket(p), ret, s, events);
    }
    if Nth(w, 0).ret < 0 {
      HaltComes(w', -E_NET_SOCK);
    } else {
      DialComes(w', p);
      var got, sent := Opened(Nth(w, 0).ret), Sent(Encode(p));
      var b := Overlay([0, 0, 0, 0], Nth(w, 3).data);
      Assoc([got], [], []);
      Joined(got, [SendFailed]);
      Joined(got, [sent, ReceiveFailed]);
      Joined(got, [sent, Received(b)]);
    }
  }

  lemma ConnectedComes(w: World)
    requires w.sess.connected
    ensures CallComes(w, DoConnect, E_NONE, w.sess, [])
  {
    hide Exec, ExecEvents, ExecSends, Comes, CallComes, ConnectPacket;
    HaltComes(w, E_NONE);
    BeginComes(w, DoConnect, E_NONE, w.sess, []);
  }

  // ---------------------------------------------------------------- on_publish

  /** The event of a send, or of a receive into four bytes, that may fail. */
  function Attempt(w: World, i: nat, frame: bytes): Event {
    if w.sess.socket < 0 || Nth(w, i).ret < 0 then SendFailed else Sent(frame)
  }

  function Hearing(w: World, i: nat): Event {
    if w.sess.socket < 0 || Nth(w, i).ret < 0 then ReceiveFailed
    else Received(Overlay([0, 0, 0, 0], Nth(w, i).data))
  }

  lemma AnswerStep(w: World, c: Control)
    requires c.SendPuback? || c.SendPubrec? || c.SendPubcomp?
    ensures var first := if c.SendPuback? then 0x40 else if c.SendPubrec? then 0x50 else 0x70;
            && Step(w, c).0.sess == w.sess && Step(w, c).0.net.script == After(w.net, []).script
            && Step(w, c).1 == (if c.SendPubrec? then AwaitPubrel else Halt(E_NONE))
            && StepEvents(w, c) == [Attempt(w, 0, [first, 2, c.id / 256, c.id % 256])]
  {
    hide Encode;
    Layout.AckBytes(c.id);
  }

  lemma PubrelStep(w: World)
    ensures var w', c := Step(w, AwaitPubrel).0, Step(w, AwaitPubrel).1;
            && w'.sess == Counted(w.sess) && w'.net.script == After(w.net, []).script
            && c == SendPubcomp(w.sess.nextId) && StepEvents(w, AwaitPubrel) == [Hearing(w, 0)]
  {
    hide Encode, Overlay;
    FreshBuffers();
  }

  lemma AnswerComes(w: World, c: Control)
    requires c.SendPuback? || c.SendPubcomp?
    ensures var first := if c.SendPuback? then 0x40 else 0x70;
            Comes(w, c, E_NONE, w.sess, [Attempt(w, 0, [first, 2, c.id / 256, c.id % 256])])
  {
    hide Exec, ExecEvents, ExecSends, Step, StepEvents, Comes, Attempt;
    AnswerStep(w, c);
    HaltComes(Step(w, c).0, E_NONE);
    StepComes(w, c, E_NONE, w.sess, []);
    Assoc(StepEvents(w, c), [], []);
  }

  lemma TwoAnswersCome(w: World, id: uint16)
    ensures var m := w.sess.nextId;
            Comes(w, SendPubrec(id), E_NONE, Counted(w.sess),
                  [Attempt(w, 0, [0x50, 2, id / 256, id % 256]), Hearing(w, 1),
                   Attempt(w, 2, [0x70, 2, m / 256, m % 256])])
  {
    hide Exec, ExecEvents, ExecSends, Step, StepEvents, Comes;
    var m := w.sess.nextId;
    AnswerStep(w, SendPubrec(id));
    var w1 := Step(w, SendPubrec(id)).0;
    NthLater(w, w1);
    PubrelStep(w1);
    var w2 := Step(w1, AwaitPubrel).0;
    NthLater(w1, w2);
    AnswerComes(w2, SendPubcomp(m));
    var last := Attempt(w, 2, [0x70, 2, m / 256, m % 256]);
    StepComes(w1, AwaitPubrel, E_NONE, w2.sess, [last]);
    Joined(Hearing(w, 1), [last]);
    StepComes(w, SendPubrec(id), E_NONE, w2.sess, [Hearing(w, 1), last]);
    Joined(Attempt(w, 0, [0x50, 2, id / 256, id % 256]), [Hearing(w, 1), last]);
  }

  lemma SameAttempts(w: World, w': World)
    requires w'.net.script == w.net.script && w'.sess.socket == w.sess.socket
    ensures forall i: nat, frame: bytes :: Attempt(w', i, frame) == Attempt(w, i, frame)
    ensures forall i: nat :: Hearing(w', i) == Hearing(w, i)
  {
  }

  /** The handler of received packets: it hands a PUBLISH on, then answers by its QoS with ids of its own,
      and nothing that fails changes its return value. */
  lemma OnPublishComes(w: World, frame: bytes)
    requires CallOk(DoOnPublish(frame))
    ensures var call, kind, q := DoOnPublish(frame), frame[0] / 16, frame[0] / 2 % 4;
            var n, m := w.sess.nextId, (w.sess.nextId + 1) % 65536;
            if kind != 3 then CallComes(w, call, E_NONE, w.sess, [])
            else
              var d := Delivered(ViewPublish(frame).vars.topic, ViewPublish(frame).content);
              if q == 1 then
                CallComes(w, call, E_NONE, Counted(w.sess), [d, Attempt(w, 0, [0x40, 2, n / 256, n % 256])])
              else if q == 2 then
                CallComes(w, call, E_NONE, Counted(Counted(w.sess)),
                          [d, Attempt(w, 0, [0x50, 2, n / 256, n % 256]), Hearing(w, 1),
                           Attempt(w, 2, [0x70, 2, m / 256, m % 256])])
              else CallComes(w, call, E_NONE, w.sess, [d])
  {
    hide Exec, ExecEvents, ExecSends, PublishInBounds, Opens, HeaderLen, Declared, Rest, Attempt, Hearing;
    var (w1, c1) := Begin(w, DoOnPublish(frame));
    SameAttempts(w, w1);
    var n, m := w.sess.nextId, (w.sess.nextId + 1) % 65536;
    var d := if frame[0] / 16 == 3 then Delivered(ViewPublish(frame).vars.topic, ViewPublish(frame).content)
             else SendFailed;
    if c1.Halt? {
      HaltComes(w1, E_NONE);
    } else if c1.SendPuback? {
      AnswerComes(w1, c1);
      Joined(d, [Attempt(w, 0, [0x40, 2, n / 256, n % 256])]);
    } else {
      TwoAnswersCome(w1, n);
      var last := Attempt(w, 2, [0x70, 2, m / 256, m % 256]);
      Joined(d, [Attempt(w, 0, [0x50, 2, n / 256, n % 256]), Hearing(w, 1), last]);
    }
  }

  /** What is handed on is the message that was sent. */
  lemma MessageArrives(p: Packet)
    requires p.Publish? && WellFormed(p)
    ensures var frame := Encode(p);
            && frame != [] && CallOk(DoOnPublish(frame)) && frame[0] / 16 == 3 && frame[0] / 2 % 4 == p.qos
            && Deliveries(DoOnPublish(frame)) == [Delivered(p.topic, p.content)]
  {
    RoundTrip(p);
    Invariants.FirstByte(p);
    hide Encode, PublishInBounds, ViewPublish;
  }

  // ---------------------------------------------------------------- what goes out, by the arguments

  /** A QoS of 0, 1 or 2 goes out as it is, any other as the configured one; DUP is never set. */
  lemma PublishGoesOut(w: World, topic: cstring, content: bytes, qos: int, retain: bool)
    requires CallOk(DoPublish(topic, content, qos, retain)) && Goes(w, DoPublish(topic, content, qos, retain))
    ensures var q := if 0 <= qos <= 2 then qos else w.sess.config.qos;
            var ps := RunSends(w, DoPublish(topic, content, qos, retain));
            ps != [] && ps[0] == Publish(false, q, retain, topic, if q > 0 then w.sess.nextId else 0, content)
  {
    hide RunSends;
    CallSends(w, DoPublish(topic, content, qos, retain));
  }

  /** The filter goes out as far as its length field tells it, and behind it the QoS. */
  lemma SubscribeGoesOut(w: World, filter: cstring, qos: int)
    requires Goes(w, DoSubscribe(filter, qos))
    ensures var q := if 0 <= qos <= 2 then qos else w.sess.config.qos;
            var n := |filter| % 65536;
            RunSends(w, DoSubscribe(filter, qos))
            == [Listed(SUBSCRIBE, w.sess.nextId, [n / 256, n % 256] + filter[..n] + [q])]
  {
    hide RunSends, PB.Emit;
    Layout.ItemBytes(filter, 0, []);
    CallSends(w, DoSubscribe(filter, qos));
  }

  /** The PUBREL carries the id of the PUBREC, whatever id that is. */
  lemma PubrelEchoes(w: World, call: Call, id: uint16)
    requires CallOk(call) && call.DoPublish? && (if 0 <= call.qos <= 2 then call.qos else w.sess.config.qos) == 2
    requires Goes(w, call) && Nth(w, 1).ret >= 0 && Nth(w, 2).ret >= 0
    requires Nth(w, 1).data == Encode(Ack(PUBREC, id))
    ensures RunSends(w, call) == [Asked(w.sess, call), Ack(PUBREL, id)]
  {
    hide RunSends, Asked;
    Layout.AckBytes(id);
    FreshBuffers();
    var b := [0x50, 2, id / 256, id % 256];
    assert FirstReply(w) == b;
    ReplyBytes(b);
    CallSends(w, call);
  }

  /** What a reader of the trace is told of a call. */
  lemma ToldIs(c: Config, topic: cstring, content: bytes, filter: cstring, qos: int, retain: bool)
    ensures var q := if 0 <= qos <= 2 then qos else c.qos;
            var n := |filter| % 65536;
            && Told(c, DoPublish(topic, content, qos, retain)) == DoPublish(topic, content, q, retain)
            && Told(c, DoSubscribe(filter, qos)) == DoSubscribe(filter[..n], q)
            && Told(c, DoUnsubscribe(filter)) == DoUnsubscribe(filter[..n])
            && Told(c, DoPingreq) == DoPingreq && Told(c, DoDisconnect) == DoDisconnect
  {
  }
}
