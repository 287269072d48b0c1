/** What the sent bytes tell: runs of client calls against any outcomes, as a reader of the trace sees them. */
module Refinement {
  import opened Bytes
  import opened Errors
  import opened Packets
  import opened Streams
  import opened ClientConfig
  import opened Protocol
  import opened Runs
  import PB = PayloadBuffer
  import RL = RemainingLength

  // ---------------------------------------------------------------- packets and calls

  /** The calls of a client on its connection. */
  predicate ClientCall(call: Call) {
    call.DoPublish? || call.DoSubscribe? || call.DoUnsubscribe? || call.DoPingreq? || call.DoDisconnect?
  }

  /** The call with its QoS made explicit. */
  function Normal(c: Config, call: Call): Call {
    match call
    case DoPublish(topic, content, qos, retain) => DoPublish(topic, content, Effective(c, qos), retain)
    case DoSubscribe(filter, qos) => DoSubscribe(filter, Effective(c, qos))
    case _ => call
  }

  /** What the length field of a filter leaves of it. */
  function Cut(filter: cstring): cstring {
    filter[..PB.Narrow(|filter|)]
  }

  /** The call as its packet tells it. */
  function Told(c: Config, call: Call): Call {
    match Normal(c, call)
    case DoSubscribe(filter, qos) => DoSubscribe(Cut(filter), qos)
    case DoUnsubscribe(filter) => DoUnsubscribe(Cut(filter))
    case plain => plain
  }

  /** The packet tells the call truly exactly when a length field can tell the length of its filter. */
  lemma ToldTrulyIff(c: Config, call: Call)
    ensures Told(c, call) == Normal(c, call)
       <==> (call.DoSubscribe? || call.DoUnsubscribe? ==> |call.filter| <= 0xFFFF)
  {
    if call.DoSubscribe? || call.DoUnsubscribe? {
      assert |Cut(call.filter)| == PB.Narrow(|call.filter|);
    }
  }

  /** The packet that a call asks for. */
  function Asked(s: Sess, call: Call): Packet
    requires CallOk(call) && ClientCall(call)
  {
    match call
    case DoPublish(topic, content, qos, retain) => PublishPacket(s, topic, content, Effective(s.config, qos), retain)
    case DoSubscribe(filter, qos) => SubscribePacket(s, filter, Effective(s.config, qos))
    case DoUnsubscribe(filter) => UnsubscribePacket(s, filter)
    case DoPingreq => Bare(PINGREQ)
    case DoDisconnect => Bare(DISCONNECT)
  }

  predicate Exactly2(s: Sess, call: Call) {
    call.DoPublish? && Effective(s.config, call.qos) == 2
  }

  /** The call that a packet makes known; a PUBREL belongs to the PUBLISH before it. */
  function CallOf(p: Packet): Option<Call> {
    match p
    case Publish(dup, qos, retain, topic, _, content) =>
      if dup || 0 in topic then None else Some(DoPublish(topic, content, qos, retain))
    case Listed(kind, _, content) =>
      (match PB.ReadStr(content, |content|, 0, 0xFFFF)
       case Got(filter, next) =>
         if 0 in filter then None
         else if kind == UNSUBSCRIBE then Some(DoUnsubscribe(filter))
         else (match PB.ReadOne(content, |content|, next)
               case Got(q, _) => Some(DoSubscribe(filter, q[0]))
               case _ => None)
       case _ => None)
    case Bare(kind) => Some(if kind == PINGREQ then DoPingreq else DoDisconnect)
    case _ => None
  }

  function CallsOf(ps: seq<Packet>): seq<Call> {
    if ps == [] then []
    else
      (match CallOf(ps[0])
       case Some(call) => [call]
       case None => []) + CallsOf(ps[1..])
  }

  lemma FilterTells(filter: cstring, more: bytes)
    ensures var e := PB.Emit(PB.Str(filter));
            PB.ReadStr(e + more, |e + more|, 0, 0xFFFF) == PB.Got(Cut(filter), |e|)
  {
    var cut := Cut(filter);
    assert PB.Emit(PB.Str(filter)) == PB.Emit(PB.Str(cut));
    PB.ReadFirst([], PB.Str(cut), more, [], 0xFFFF);
    Assoc(PB.Emit(PB.Str(cut)) + more, [], []);
    Assoc([], PB.Emit(PB.Str(cut)), more);
  }

  lemma AskedTells(s: Sess, call: Call)
    requires CallOk(call) && ClientCall(call)
    ensures CallOf(Asked(s, call)) == Some(Told(s.config, call))
  {
    match call
    case DoSubscribe(filter, qos) =>
      FilterTells(filter, [Effective(s.config, qos)]);
    case DoUnsubscribe(filter) =>
      FilterTells(filter, []);
      Assoc(PB.Emit(PB.Str(filter)), [], []);
    case _ =>
  }

  // ---------------------------------------------------------------- what a call sends, whatever happens

  /** What is in the receive buffer when the reply to PUBLISH is looked at. */
  function FirstReply(w: World): bytes {
    Overlay(RL.Zeros(4), Nth(w, 1).data)
  }

  /** The packet of the call goes out. */
  predicate Goes(w: World, call: Call) {
    w.sess.socket >= 0 && (call.DoDisconnect? ==> w.sess.connected) && Nth(w, 0).ret >= 0
  }

  /** A PUBREC came back, and the PUBREL goes out as well. */
  predicate Releases(w: World, call: Call) {
    Exactly2(w.sess, call) && Nth(w, 1).ret >= 0 && KindIn(FirstReply(w)) == PUBREC && Nth(w, 2).ret >= 0
  }

  lemma LastSends(w: World, c: Control)
    requires c.AwaitPuback? || c.AwaitPubcomp? || c.AwaitSuback? || c.AwaitUnsuback? || c.AwaitPingresp?
    ensures ExecSends(w, c) == []
  {
    hide Exec, ExecSends, ExecEvents, Encode, Overlay, KindIn, ByteIn, IdIn;
    Unfold(w, c);
    Unfold(Step(w, c).0, Step(w, c).1);
  }

  /** Where only the operation at `c` may send. */
  lemma OneSends(w: World, c: Control)
    requires c.SendDisconnect? || c.SendSubscribe? || c.SendUnsubscribe? || c.SendPingreq? || c.SendPubrel?
          || (c.SendPublish? && c.qos < 2)
    ensures ExecSends(w, c) == StepSends(w, c)
  {
    hide Exec, ExecSends, ExecEvents, Encode, Overlay, KindIn, ByteIn, IdIn;
    Unfold(w, c);
    var (w', c') := Step(w, c);
    if c'.Halt? {
      Unfold(w', c');
    } else {
      LastSends(w', c');
    }
  }

  lemma PubrecSendsRel(w: World)
    requires w.sess.socket >= 0
    ensures var buf := Overlay(RL.Zeros(4), Nth(w, 0).data);
            ExecSends(w, AwaitPubrec) == if Nth(w, 0).ret >= 0 && KindIn(buf) == PUBREC && Nth(w, 1).ret >= 0
                                         then [Ack(PUBREL, IdIn(buf))] else []
  {
    hide Exec, ExecSends, ExecEvents, Encode, Overlay, KindIn, ByteIn, IdIn;
    Unfold(w, AwaitPubrec);
    var (w', c') := Step(w, AwaitPubrec);
    if c'.Halt? {
      Unfold(w', c');
    } else {
      OneSends(w', c');
      assert Coming(w'.net) == Nth(w, 1);
    }
  }

  lemma PublishSendsTwo(w: World, p: Packet)
    requires w.sess.socket >= 0
    ensures ExecSends(w, SendPublish(p, 2)) ==
            if Nth(w, 0).ret < 0 then []
            else [p] + if Nth(w, 1).ret >= 0 && KindIn(FirstReply(w)) == PUBREC && Nth(w, 2).ret >= 0
                       then [Ack(PUBREL, IdIn(FirstReply(w)))] else []
  {
    hide Exec, ExecSends, ExecEvents, Encode, Overlay, KindIn, ByteIn, IdIn;
    Unfold(w, SendPublish(p, 2));
    var (w', c') := Step(w, SendPublish(p, 2));
    if c'.Halt? {
      Unfold(w', c');
    } else {
      PubrecSendsRel(w');
      assert Nth(w', 0) == Nth(w, 1) && Nth(w', 1) == Nth(w, 2);
    }
  }

  /** Against any outcomes, a call sends the packet it asks for if that goes out, then the PUBREL if a PUBREC
      came back and that goes out, with the id of the PUBREC; and nothing else. */
  lemma CallSends(w: World, call: Call)
    requires CallOk(call) && ClientCall(call)
    ensures RunSends(w, call) ==
            if !Goes(w, call) then []
            else [Asked(w.sess, call)] + if Releases(w, call) then [Ack(PUBREL, IdIn(FirstReply(w)))] else []
  {
    hide Exec, ExecSends, ExecEvents, PublishPacket, SubscribePacket, UnsubscribePacket, Encode, Overlay, KindIn, IdIn;
    BeginQuiet(w, call);
    var (w1, c1) := Begin(w, call);
    if c1.Halt? {
      Unfold(w1, c1);
    } else if Exactly2(w.sess, call) {
      assert FirstReply(w1) == FirstReply(w) && forall i: nat :: Nth(w1, i) == Nth(w, i);
      PublishSendsTwo(w1, c1.p);
    } else {
      OneSends(w1, c1);
      assert Coming(w1.net) == Nth(w, 0);
    }
  }

  // ---------------------------------------------------------------- runs against any outcomes

  predicate ClientCalls(calls: seq<Call>) {
    forall i :: 0 <= i < |calls| ==> CallOk(calls[i]) && ClientCall(calls[i])
  }

  /** The calls whose packets went out, in order, as those packets tell them. */
  function Gone(w: World, calls: seq<Call>): seq<Call>
    requires AllOk(calls)
    decreases |calls|
  {
    if calls == [] then []
    else (if Goes(w, calls[0]) then [Told(w.sess.config, calls[0])] else []) + Gone(Run(w, calls[0]).1, calls[1..])
  }

  lemma {:induction false} CallsOfConcat(a: seq<Packet>, b: seq<Packet>)
    ensures CallsOf(a + b) == CallsOf(a) + CallsOf(b)
  {
    hide CallOf, CallsOf;
    NoCalls();
    if a == [] {
      Assoc(b, [], []);
      Assoc(CallsOf(b), [], []);
    } else {
      HeadTail(a);
      Assoc([a[0]], a[1..], b);
      CallsOfCons(a[0], a[1..]);
      CallsOfCons(a[0], a[1..] + b);
      CallsOfConcat(a[1..], b);
      Assoc(if CallOf(a[0]).Some? then [CallOf(a[0]).value] else [], CallsOf(a[1..]), CallsOf(b));
    }
  }

  lemma CallsOfOne(w: World, call: Call)
    requires CallOk(call) && ClientCall(call)
    ensures CallsOf(RunSends(w, call)) == if Goes(w, call) then [Told(w.sess.config, call)] else []
  {
    hide Asked, Told, CallOf, CallsOf, Goes, Releases, RunSends, IdIn, FirstReply;
    CallSends(w, call);
    AskedTells(w.sess, call);
    AckTellsNothing(IdIn(FirstReply(w)));
    var p, rel := Asked(w.sess, call), Ack(PUBREL, IdIn(FirstReply(w)));
    NoCalls();
    CallsOfCons(p, []);
    CallsOfCons(rel, []);
    CallsOfCons(p, [rel]);
    Assoc([rel], [], []);
    Assoc([p], [], []);
    Assoc([Told(w.sess.config, call)], [], []);
  }

  lemma NoCalls()
    ensures CallsOf([]) == []
  {
  }

  lemma {:induction false} SendsTellGone(w: World, calls: seq<Call>)
    requires ClientCalls(calls)
    ensures CallsOf(RunAllSends(w, calls)) == Gone(w, calls)
    decreases |calls|
  {
    hide Run, RunSends, Goes, Told, CallsOf;
    NoCalls();
    if calls != [] {
      CallsOfOne(w, calls[0]);
      SendsTellGone(Run(w, calls[0]).1, calls[1..]);
      CallsOfConcat(RunSends(w, calls[0]), RunAllSends(Run(w, calls[0]).1, calls[1..]));
    }
  }

  /** Any client calls against any outcomes, refusals and failures included: the bytes added to the trace parse,
      and what they tell is the list of calls whose packets went out, in order, and no other call. */
  lemma RunRefines(w: World, calls: seq<Call>)
    requires ClientCalls(calls) && AllCodable(w.sess.config, calls)
    ensures var ps := RunAllSends(w, calls);
            && AllWellFormed(ps)
            && SentBytes(RunAll(w, calls).1.net.log) == SentBytes(w.net.log) + EncodeAll(ps)
            && Parse(EncodeAll(ps)) == Some(ps)
            && CallsOf(ps) == Gone(w, calls)
  {
    hide RunAll, RunAllSends, CallsOf, Gone, EncodeAll, Parse, AllFilled, ClientCall;
    TraceParses(w, calls);
    NoClientConnects(calls);
    FilledBefore(w, calls);
    SendsTellGone(w, calls);
  }

  lemma NoClientConnects(calls: seq<Call>)
    requires ClientCalls(calls)
    ensures DoConnect !in calls
  {
  }

  /** A subscribe that the server refuses: the call fails, and yet its packet went out and is told. */
  lemma RefusedButTold(w: World, filter: cstring, qos: int, id: uint16)
    requires w.sess.socket >= 0 && Nth(w, 0).ret >= 0
    requires Nth(w, 1).ret >= 0 && Nth(w, 1).data == Encode(Listed(SUBACK, id, [0x80]))
    ensures Run(w, DoSubscribe(filter, qos)).0 == -E_SESS_ACK
    ensures Gone(w, [DoSubscribe(filter, qos)]) == [Told(w.sess.config, DoSubscribe(filter, qos))]
  {
    var call := DoSubscribe(filter, qos);
    hide Exec, ExecSends, ExecEvents, SubscribePacket, Encode, Told, Overlay;
    BeginQuiet(w, call);
    var (w1, c1) := Begin(w, call);
    var (w2, c2) := Step(w1, c1);
    assert Coming(w1.net) == Nth(w, 0);
    Unfold(w1, c1);
    assert Coming(w2.net) == Nth(w, 1);
    SubackRefused(w2, id);
    hide Run;
    assert [call][0] == call && [call][1..] == [];
  }

  lemma SubackRefused(w: World, id: uint16)
    requires w.sess.socket >= 0
    requires Coming(w.net).ret >= 0 && Coming(w.net).data == Encode(Listed(SUBACK, id, [0x80]))
    ensures Exec(w, AwaitSuback).0 == -E_SESS_ACK
  {
    var frame := Encode(Listed(SUBACK, id, [0x80]));
    assert |frame| == 5 && frame[4] == 0x80;
    assert Overlay(RL.Zeros(5), frame) == frame;
    hide Exec, ExecSends, ExecEvents, Encode, Overlay, KindIn;
    Unfold(w, AwaitSuback);
    Unfold(Step(w, AwaitSuback).0, Step(w, AwaitSuback).1);
  }

  // ---------------------------------------------------------------- successful runs

  /** The id in the PUBREC that answers a QoS 2 PUBLISH: what the second socket operation delivers. */
  function PubrecId(w: World): uint16 {
    IdIn(FirstReply(w))
  }

  /** The control points of the calls a client makes. */
  predicate ClientControl(c: Control) {
    match c
    case SendDisconnect => true
    case SendPublish(_, _) => true
    case AwaitPuback => true
    case AwaitPubrec => true
    case SendPubrel(_) => true
    case AwaitPubcomp(_) => true
    case SendSubscribe(_) => true
    case AwaitSuback => true
    case SendUnsubscribe(_) => true
    case AwaitUnsuback => true
    case SendPingreq => true
    case AwaitPingresp => true
    case _ => false
  }

  /** Where a control point leads when its operation succeeds and the reply is the right one. */
  function Onward(w: World, c: Control): Control {
    match c
    case SendDisconnect => Halt(2)
    case SendPublish(_, qos) => if qos == 0 then Halt(E_NONE) else if qos == 1 then AwaitPuback else AwaitPubrec
    case AwaitPubrec => SendPubrel(IdIn(Overlay(RL.Zeros(4), Coming(w.net).data)))
    case SendPubrel(id) => AwaitPubcomp(id)
    case SendSubscribe(_) => AwaitSuback
    case SendUnsubscribe(_) => AwaitUnsuback
    case SendPingreq => AwaitPingresp
    case _ => Halt(E_NONE)
  }

  lemma DisconnectLength()
    ensures |Encode(Bare(DISCONNECT))| == 2
  {
  }

  /** A call that ends well goes onward at every step: nothing it sends fails. */
  lemma SuccessStep(w: World, c: Control)
    requires ClientControl(c) && Exec(w, c).0 >= 0
    ensures Step(w, c).1 == Onward(w, c) && Exec(w, c) == Exec(Step(w, c).0, Onward(w, c))
    ensures ExecSends(w, c) == (if Wants(c).Transmit? then [Wants(c).p] else []) + ExecSends(Step(w, c).0, Onward(w, c))
    ensures Step(w, c).0.sess == if c.SendDisconnect? then w.sess.(socket := -1, connected := false) else w.sess
    ensures Step(w, c).0.net.script == After(w.net, []).script
  {
    DisconnectLength();
    hide Exec, ExecSends, ExecEvents, Encode, Overlay, KindIn, ByteIn, IdIn;
    Unfold(w, c);
    Unfold(Step(w, c).0, Step(w, c).1);
  }

  /** The session after a call that ended well. */
  function AfterSuccess(s: Sess, call: Call): Sess {
    match call
    case DoPublish(_, _, _, _) => TakeId(s)
    case DoSubscribe(_, _) => TakeId(s)
    case DoUnsubscribe(_) => TakeId(s)
    case DoDisconnect => s.(socket := -1, connected := false)
    case _ => s
  }

  lemma SuccessOne(w: World, c: Control)
    requires ClientControl(c) && Exec(w, c).0 >= 0 && Onward(w, c).Halt?
    ensures ExecSends(w, c) == if Wants(c).Transmit? then [Wants(c).p] else []
    ensures Exec(w, c).1.sess == if c.SendDisconnect? then w.sess.(socket := -1, connected := false) else w.sess
  {
    hide Exec, ExecSends, ExecEvents, Step, Wants;
    SuccessStep(w, c);
    Unfold(Step(w, c).0, Onward(w, c));
  }

  lemma SuccessTwo(w: World, c: Control)
    requires ClientControl(c) && Exec(w, c).0 >= 0 && !c.AwaitPubrec?
    requires var c' := Onward(w, c); !c'.Halt? && !c'.AwaitPubrec?
    ensures Wants(c).Transmit? && ExecSends(w, c) == [Wants(c).p] && Exec(w, c).1.sess == w.sess
  {
    hide Exec, ExecSends, ExecEvents, Step, Encode, Overlay, IdIn;
    SuccessStep(w, c);
    SuccessOne(Step(w, c).0, Onward(w, c));
  }

  lemma SuccessFour(w: World, p: Packet)
    requires Exec(w, SendPublish(p, 2)).0 >= 0
    ensures ExecSends(w, SendPublish(p, 2)) == [p, Ack(PUBREL, PubrecId(w))]
    ensures Exec(w, SendPublish(p, 2)).1.sess == w.sess
  {
    hide Exec, ExecSends, ExecEvents, Step, Overlay, IdIn;
    SuccessStep(w, SendPublish(p, 2));
    var w' := Step(w, SendPublish(p, 2)).0;
    SuccessStep(w', AwaitPubrec);
    SuccessTwo(Step(w', AwaitPubrec).0, SendPubrel(PubrecId(w)));
  }

  /** A successful call puts exactly the packet it asks for on the wire, and for QoS 2 the PUBREL after it,
      which carries the id of the PUBREC. */
  lemma SuccessSends(w: World, call: Call)
    requires CallOk(call) && ClientCall(call)
    requires w.sess.connected && Run(w, call).0 >= 0
    ensures w.sess.socket >= 0
    ensures RunSends(w, call) ==
            [Asked(w.sess, call)] + if Exactly2(w.sess, call) then [Ack(PUBREL, PubrecId(w))] else []
    ensures Run(w, call).1.sess == AfterSuccess(w.sess, call)
  {
    hide Exec, ExecSends, ExecEvents, PublishPacket, SubscribePacket, UnsubscribePacket;
    BeginQuiet(w, call);
    var (w1, c1) := Begin(w, call);
    Unfold(w1, c1);
    if w.sess.socket >= 0 {
      hide Step;
      if Exactly2(w.sess, call) {
        SuccessFour(w1, c1.p);
      } else if Onward(w1, c1).Halt? {
        SuccessOne(w1, c1);
      } else {
        SuccessTwo(w1, c1);
      }
    }
  }

  predicate Succeeds(w: World, calls: seq<Call>)
    requires AllOk(calls)
  {
    forall r :: r in RunAll(w, calls).0 ==> r >= 0
  }

  /** The abstract packets that a list of calls asks for: ids count up, and every QoS 2 PUBLISH
      is followed by a PUBREL with the next of the given ids. */
  function PacketsFor(s: Sess, calls: seq<Call>, rels: seq<uint16>): seq<Packet>
    requires ClientCalls(calls)
    decreases |calls|
  {
    if calls == [] then []
    else
      var released := Exactly2(s, calls[0]) && rels != [];
      [Asked(s, calls[0])] + (if released then [Ack(PUBREL, rels[0])] else [])
      + PacketsFor(AfterSuccess(s, calls[0]), calls[1..], if released then rels[1..] else rels)
  }

  /** The ids of the PUBRECs that arrive during a run. */
  function PubrecIds(w: World, calls: seq<Call>): seq<uint16>
    requires AllOk(calls)
    decreases |calls|
  {
    if calls == [] then []
    else (if Exactly2(w.sess, calls[0]) then [PubrecId(w)] else []) + PubrecIds(Run(w, calls[0]).1, calls[1..])
  }

  function AllTold(c: Config, calls: seq<Call>): seq<Call> {
    if calls == [] then [] else [Told(c, calls[0])] + AllTold(c, calls[1..])
  }

  lemma CallsOfCons(p: Packet, ps: seq<Packet>)
    ensures CallsOf([p] + ps) == (if CallOf(p).Some? then [CallOf(p).value] else []) + CallsOf(ps)
  {
    hide CallOf;
    assert ([p] + ps)[1..] == ps;
  }

  /** The packets make the calls known. */
  lemma {:induction false} PacketsTellCalls(s: Sess, calls: seq<Call>, rels: seq<uint16>)
    requires ClientCalls(calls)
    ensures CallsOf(PacketsFor(s, calls, rels)) == AllTold(s.config, calls)
    decreases |calls|
  {
    if calls != [] {
      hide Asked, Told, CallOf, CallsOf, Exactly2;
      var p := Asked(s, calls[0]);
      var released := Exactly2(s, calls[0]) && rels != [];
      var more := if released then rels[1..] else rels;
      var rest := PacketsFor(AfterSuccess(s, calls[0]), calls[1..], more);
      assert PacketsFor(s, calls, rels) == [p] + (if released then [Ack(PUBREL, rels[0])] else []) + rest;
      PacketsTellCalls(AfterSuccess(s, calls[0]), calls[1..], more);
      hide PacketsFor, AfterSuccess;
      AskedTells(s, calls[0]);
      if released {
        AckTellsNothing(rels[0]);
        CallsOfCons(Ack(PUBREL, rels[0]), rest);
        CallsOfCons(p, [Ack(PUBREL, rels[0])] + rest);
        Assoc([p], [Ack(PUBREL, rels[0])], rest);
        Assoc(CallsOf(rest), [], []);
      } else {
        CallsOfCons(p, rest);
        Assoc([p], [], rest);
      }
    } else {
      assert CallsOf([]) == [];
    }
  }

  lemma AckTellsNothing(id: uint16)
    ensures CallOf(Ack(PUBREL, id)) == None
  {
  }

  lemma SucceedsSplit(w: World, calls: seq<Call>)
    requires AllOk(calls) && calls != [] && Succeeds(w, calls)
    ensures Run(w, calls[0]).0 >= 0 && Succeeds(Run(w, calls[0]).1, calls[1..])
  {
    hide Run;
    var rs := RunAll(w, calls).0;
    assert rs[0] in rs;
    assert forall r :: r in rs[1..] ==> r in rs;
  }

  lemma PubrecIdsSplit(w: World, calls: seq<Call>)
    requires AllOk(calls) && calls != []
    ensures var ids, rest := PubrecIds(w, calls), PubrecIds(Run(w, calls[0]).1, calls[1..]);
            if Exactly2(w.sess, calls[0]) then ids != [] && ids[0] == PubrecId(w) && ids[1..] == rest else ids == rest
  {
    hide Run, Exactly2, PubrecId;
  }

  lemma {:induction false} SuccessfulPackets(w: World, calls: seq<Call>)
    requires ClientCalls(calls) && w.sess.connected && Succeeds(w, calls)
    ensures RunAllSends(w, calls) == PacketsFor(w.sess, calls, PubrecIds(w, calls))
    decreases |calls|
  {
    if calls != [] {
      hide Run, RunAll, RunSends, Asked, Exactly2, Succeeds;
      var w' := Run(w, calls[0]).1;
      SucceedsSplit(w, calls);
      SuccessSends(w, calls[0]);
      PubrecIdsSplit(w, calls);
      hide PubrecIds;
      if calls[0].DoDisconnect? {
        if calls[1..] != [] {
          DisconnectedFails(w', calls[1..]);
        }
      } else {
        SuccessfulPackets(w', calls[1..]);
      }
    }
  }

  /** Without a socket no client call succeeds. */
  lemma DisconnectedFails(w: World, calls: seq<Call>)
    requires ClientCalls(calls) && calls != [] && w.sess.socket < 0
    ensures !Succeeds(w, calls)
  {
    assert Run(w, calls[0]).0 == RunAll(w, calls).0[0] == -E_NET_SOCK;
    assert RunAll(w, calls).0[0] in RunAll(w, calls).0;
  }

  /** A connected run of client calls that all succeed: the packets sent are those asked for, with the PUBRELs,
      and what the trace tells is the whole list of calls. */
  lemma SuccessfulRun(w: World, calls: seq<Call>)
    requires ClientCalls(calls) && AllCodable(w.sess.config, calls) && w.sess.connected && Succeeds(w, calls)
    ensures var ps := PacketsFor(w.sess, calls, PubrecIds(w, calls));
            && SentBytes(RunAll(w, calls).1.net.log) == SentBytes(w.net.log) + EncodeAll(ps)
            && Parse(EncodeAll(ps)) == Some(ps)
            && CallsOf(ps) == AllTold(w.sess.config, calls)
  {
    hide RunAll, RunAllSends, PacketsFor, PubrecIds, CallsOf, AllTold, Gone, EncodeAll, Parse;
    SuccessfulPackets(w, calls);
    RunRefines(w, calls);
    PacketsTellCalls(w.sess, calls, PubrecIds(w, calls));
  }
}
