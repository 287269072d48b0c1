/** Properties of whole runs: any calls, in any order, against any outcomes of the socket operations. */
module Runs {
  import opened Bytes
  import opened Errors
  import opened Packets
  import opened Streams
  import opened ClientConfig
  import opened Protocol
  import PB = PayloadBuffer
  import RL = RemainingLength

  predicate AllOk(calls: seq<Call>) {
    forall i :: 0 <= i < |calls| ==> CallOk(calls[i])
  }

  function RunAll(w: World, calls: seq<Call>): (seq<int>, World)
    requires AllOk(calls)
    decreases |calls|
  {
    if calls == [] then ([], w)
    else
      var (r, w') := Run(w, calls[0]);
      var (rs, end) := RunAll(w', calls[1..]);
      ([r] + rs, end)
  }

  // ---------------------------------------------------------------- the trace of sent bytes

  /** The bytes that a log records as sent. */
  function SentBytes(log: seq<Event>): bytes {
    if log == [] then []
    else SentBytes(log[..|log| - 1]) + if log[|log| - 1].Sent? then log[|log| - 1].frame else []
  }

  lemma {:induction false} SentBytesConcat(a: seq<Event>, b: seq<Event>)
    ensures SentBytes(a + b) == SentBytes(a) + SentBytes(b)
  {
    if b == [] {
      assert a + b == a;
    } else {
      assert (a + b)[..|a + b| - 1] == a + b[..|b| - 1];
      SentBytesConcat(a, b[..|b| - 1]);
    }
  }

  /** The packet that one step puts on the wire, if any. */
  function StepSends(w: World, c: Control): seq<Packet>
    requires !c.Halt?
  {
    var op := Wants(c);
    if op.Transmit? && w.sess.socket >= 0 && Coming(w.net).ret >= 0 then [op.p] else []
  }

  /** The packets that the rest of a call puts on the wire. */
  function ExecSends(w: World, c: Control): seq<Packet>
    decreases Rank(c)
  {
    if c.Halt? then []
    else
      StepRank(w, c);
      var (w', c') := Step(w, c);
      StepSends(w, c) + ExecSends(w', c')
  }

  function RunSends(w: World, call: Call): seq<Packet>
    requires CallOk(call)
  {
    var (w', c) := Begin(w, call);
    ExecSends(w', c)
  }

  function RunAllSends(w: World, calls: seq<Call>): seq<Packet>
    requires AllOk(calls)
    decreases |calls|
  {
    if calls == [] then [] else RunSends(w, calls[0]) + RunAllSends(Run(w, calls[0]).1, calls[1..])
  }

  predicate ControlOk(c: Control) {
    match c
    case OpenSocket(p) => Sendable(p)
    case TcpConnect(p) => Sendable(p)
    case SendConnect(p) => Sendable(p)
    case SendPublish(p, qos) => WellFormed(p)
    case SendSubscribe(p) => WellFormed(p)
    case SendUnsubscribe(p) => WellFormed(p)
    case _ => true
  }

  lemma ConnectSendable(c: Config)
    ensures Sendable(ConnectPacket(c))
    ensures EmptyConnect(ConnectPacket(c)) <==> ConnectContent(c) == []
  {
    ConnectWellFormedIff(c);
  }

  /** Every packet of the calls can be announced, under a configuration that stays. */
  predicate AllCodable(c: Config, calls: seq<Call>) {
    forall i :: 0 <= i < |calls| ==> Codable(c, calls[i])
  }

  lemma EnterOk(s: Sess, call: Call)
    requires CallOk(call) && Codable(s.config, call)
    ensures ControlOk(Enter(s, call).1)
  {
    match call
    case DoConnect => ConnectSendable(s.config);
    case _ =>
  }

  lemma EncodeAllCons(p: Packet, ps: seq<Packet>)
    ensures EncodeAll([p] + ps) == Encode(p) + EncodeAll(ps)
  {
    hide Encode;
    assert ([p] + ps)[1..] == ps;
  }

  lemma {:induction false} EncodeAllConcat(a: seq<Packet>, b: seq<Packet>)
    ensures EncodeAll(a + b) == EncodeAll(a) + EncodeAll(b)
  {
    hide Encode, EncodeAll;
    NothingSent();
    if a == [] {
      Assoc(b, [], []);
      Assoc(EncodeAll(b), [], []);
    } else {
      HeadTail(a);
      Assoc([a[0]], a[1..], b);
      EncodeAllCons(a[0], a[1..]);
      EncodeAllCons(a[0], a[1..] + b);
      EncodeAllConcat(a[1..], b);
      Assoc(Encode(a[0]), EncodeAll(a[1..]), EncodeAll(b));
    }
  }

  lemma WantsOk(c: Control)
    requires !c.Halt? && ControlOk(c)
    ensures Wants(c).Transmit? ==> Sendable(Wants(c).p)
  {
  }

  lemma NextOk(s: Sess, c: Control, r: int, buf: bytes)
    requires !c.Halt? && ControlOk(c)
    ensures ControlOk(Next(s, c, r, buf).1)
  {
    hide WellFormed;
  }

  function StepEvents(w: World, c: Control): seq<Event>
    requires !c.Halt?
  {
    match Wants(c)
    case Open => if Coming(w.net).ret >= 0 then [Opened(Coming(w.net).ret)] else []
    case Dial => []
    case Transmit(p) => [if StepSends(w, c) == [] then SendFailed else Sent(Encode(p))]
    case Await(stale) =>
      [if w.sess.socket < 0 || Coming(w.net).ret < 0 then ReceiveFailed
       else Received(Overlay(stale, Coming(w.net).data))]
  }

  function ExecEvents(w: World, c: Control): seq<Event>
    decreases Rank(c)
  {
    if c.Halt? then []
    else
      StepRank(w, c);
      StepEvents(w, c) + ExecEvents(Step(w, c).0, Step(w, c).1)
  }

  lemma StepLog(w: World, c: Control)
    requires !c.Halt?
    ensures Step(w, c).0.net.log == w.net.log + StepEvents(w, c)
  {
    hide Next, Encode;
  }

  lemma Unfold(w: World, c: Control)
    ensures c.Halt? ==> Exec(w, c) == (c.ret, w) && ExecSends(w, c) == [] && ExecEvents(w, c) == []
    ensures !c.Halt? ==>
              && Exec(w, c) == Exec(Step(w, c).0, Step(w, c).1)
              && ExecSends(w, c) == StepSends(w, c) + ExecSends(Step(w, c).0, Step(w, c).1)
              && ExecEvents(w, c) == StepEvents(w, c) + ExecEvents(Step(w, c).0, Step(w, c).1)
  {
    hide Encode, Overlay, KindIn, ByteIn, IdIn, Step, StepSends, StepEvents;
  }

  lemma StepOk(w: World, c: Control)
    requires !c.Halt? && ControlOk(c)
    ensures ControlOk(Step(w, c).1) && AllSendable(StepSends(w, c))
  {
    hide Next, Sendable, ControlOk, Encode;
    WantsOk(c);
    forall r: int, buf: bytes {
      NextOk(w.sess, c, r, buf);
    }
  }

  lemma {:induction false} ExecSendable(w: World, c: Control)
    requires ControlOk(c)
    ensures AllSendable(ExecSends(w, c))
    decreases Rank(c)
  {
    hide Step, Sendable, ControlOk, Encode, Rank, StepSends;
    Unfold(w, c);
    hide Exec, ExecSends, ExecEvents;
    if !c.Halt? {
      StepRank(w, c);
      StepOk(w, c);
      ExecSendable(Step(w, c).0, Step(w, c).1);
    }
  }

  lemma StepTrace(w: World, c: Control)
    requires !c.Halt?
    ensures var (w', c') := Step(w, c);
            && w'.sess.config == w.sess.config
            && w.net.log <= w'.net.log
            && SentBytes(w'.net.log) == SentBytes(w.net.log) + EncodeAll(StepSends(w, c))
  {
    StepConfig(w, c);
    StepLog(w, c);
    StepBytes(w, c);
    SentBytesConcat(w.net.log, StepEvents(w, c));
    hide Step, StepSends, StepEvents, Encode, SentBytes, EncodeAll;
  }

  lemma StepConfig(w: World, c: Control)
    requires !c.Halt?
    ensures Step(w, c).0.sess.config == w.sess.config
  {
    hide Encode, Overlay, KindIn, ByteIn, IdIn;
  }

  lemma StepBytes(w: World, c: Control)
    requires !c.Halt?
    ensures SentBytes(StepEvents(w, c)) == EncodeAll(StepSends(w, c))
  {
    hide Encode, Overlay, SentBytes, EncodeAll, Wants;
    NothingSent();
    forall e: Event {
      SentOne(e);
    }
    if StepSends(w, c) != [] {
      EncodeOne(Wants(c).p);
    }
  }

  lemma NothingSent()
    ensures SentBytes([]) == EncodeAll([]) == []
  {
  }

  lemma SentOne(e: Event)
    ensures SentBytes([e]) == if e.Sent? then e.frame else []
  {
    assert [e][..0] == [];
  }

  lemma EncodeOne(p: Packet)
    ensures EncodeAll([p]) == Encode(p)
  {
    hide Encode;
    assert [p][1..] == [];
  }

  lemma {:induction false} ExecTrace(w: World, c: Control)
    ensures var w' := Exec(w, c).1;
            && w'.sess.config == w.sess.config
            && w.net.log <= w'.net.log
            && SentBytes(w'.net.log) == SentBytes(w.net.log) + EncodeAll(ExecSends(w, c))
    decreases Rank(c)
  {
    hide Step, Wants, Encode, Rank, StepSends, SentBytes, EncodeAll;
    NothingSent();
    Unfold(w, c);
    hide Exec, ExecSends, ExecEvents;
    if !c.Halt? {
      StepRank(w, c);
      StepTrace(w, c);
      var (w', c') := Step(w, c);
      ExecTrace(w', c');
      EncodeAllConcat(StepSends(w, c), ExecSends(w', c'));
      Assoc(SentBytes(w.net.log), EncodeAll(StepSends(w, c)), EncodeAll(ExecSends(w', c')));
    }
  }

  lemma DeliveriesUnsent(call: Call)
    requires CallOk(call)
    ensures SentBytes(Deliveries(call)) == []
  {
    hide ViewPublish, PublishInBounds, SentBytes;
    NothingSent();
    if Deliveries(call) != [] {
      SentOne(Deliveries(call)[0]);
    }
  }

  lemma BeginTrace(w: World, call: Call)
    requires CallOk(call)
    ensures var (w', c) := Begin(w, call);
            && w.net.log <= w'.net.log && SentBytes(w'.net.log) == SentBytes(w.net.log)
            && (w'.sess.config == if call.DoDeinit? then DEFAULT_CONFIG else w.sess.config)
  {
    hide CallOk, SentBytes, Deliveries;
    EnterConfig(w.sess, call);
    SentBytesConcat(w.net.log, Deliveries(call));
    DeliveriesUnsent(call);
    Assoc(SentBytes(w.net.log), [], []);
    hide Enter;
  }

  lemma EnterConfig(s: Sess, call: Call)
    requires CallOk(call)
    ensures Enter(s, call).0.config == if call.DoDeinit? then DEFAULT_CONFIG else s.config
  {
    hide PublishInBounds;
  }

  lemma RunTrace(w: World, call: Call)
    requires CallOk(call)
    ensures var w' := Run(w, call).1;
            && w.net.log <= w'.net.log
            && SentBytes(w'.net.log) == SentBytes(w.net.log) + EncodeAll(RunSends(w, call))
            && (w'.sess.config == if call.DoDeinit? then DEFAULT_CONFIG else w.sess.config)
  {
    hide Exec, ExecSends, Begin, SentBytes, EncodeAll;
    BeginTrace(w, call);
    ExecTrace(Begin(w, call).0, Begin(w, call).1);
  }

  lemma RunSendable(w: World, call: Call)
    requires CallOk(call) && Codable(w.sess.config, call)
    ensures AllSendable(RunSends(w, call))
  {
    hide ExecSends, Enter, ControlOk, AllSendable, Deliveries;
    EnterOk(w.sess, call);
    ExecSendable(Begin(w, call).0, Begin(w, call).1);
  }

  // ---------------------------------------------------------------- what connect sends

  lemma BeginQuiet(w: World, call: Call)
    requires CallOk(call) && !call.DoOnPublish?
    ensures Begin(w, call).0 == w.(sess := Enter(w.sess, call).0)
  {
    assert w.net.log + [] == w.net.log;
  }

  /** An unconnected session without a socket opens one before it dials. */
  function Opening(s: Sess): nat {
    if s.socket < 0 then 1 else 0
  }

  /** A socket is there or is obtained, and dialling and sending go through. */
  predicate ConnectGoes(w: World) {
    var k := Opening(w.sess);
    !w.sess.connected && (k == 1 ==> Nth(w, 0).ret >= 0) && Nth(w, k).ret == 0 && Nth(w, k + 1).ret >= 0
  }

  /** What comes of dialling: the packets, the connected mark, the return value. */
  lemma DialEnds(w: World, p: Packet)
    requires w.sess.socket >= 0
    ensures var goes := Nth(w, 0).ret == 0 && Nth(w, 1).ret >= 0;
            var reply := Overlay(RL.Zeros(4), Nth(w, 2).data);
            var (r, w') := Exec(w, TcpConnect(p));
            && ExecSends(w, TcpConnect(p)) == (if goes then [p] else [])
            && (w'.sess.connected <==> w.sess.connected || (goes && Nth(w, 2).ret >= 0))
            && (r == E_NONE <==> goes && Nth(w, 2).ret >= 0 && KindIn(reply) == CONNACK && ByteIn(reply, 3) == 0)
  {
    hide Exec, ExecSends, ExecEvents, Encode, Overlay, KindIn, ByteIn;
    var (w1, c1) := Step(w, TcpConnect(p));
    Unfold(w, TcpConnect(p));
    Assoc(ExecSends(w1, c1), [], []);
    if c1.Halt? {
      Unfold(w1, c1);
    } else {
      assert Nth(w1, 0) == Nth(w, 1) && Nth(w1, 1) == Nth(w, 2);
      SendConnectEnds(w1, p);
    }
  }

  lemma SendConnectEnds(w: World, p: Packet)
    requires w.sess.socket >= 0
    ensures var o := Nth(w, 1);
            var goes := Nth(w, 0).ret >= 0;
            var reply := Overlay(RL.Zeros(4), o.data);
            var (r, w') := Exec(w, SendConnect(p));
            && ExecSends(w, SendConnect(p)) == (if goes then [p] else [])
            && (w'.sess.connected <==> w.sess.connected || (goes && o.ret >= 0))
            && (r == E_NONE <==> goes && o.ret >= 0 && KindIn(reply) == CONNACK && ByteIn(reply, 3) == 0)
  {
    hide Exec, ExecSends, ExecEvents, Encode, Overlay, KindIn, ByteIn;
    var (w1, c1) := Step(w, SendConnect(p));
    Unfold(w, SendConnect(p));
    Unfold(w1, c1);
    if !c1.Halt? {
      assert Coming(w1.net) == Nth(w, 1);
      Unfold(Step(w1, c1).0, Step(w1, c1).1);
    }
  }

  /** What comes of connect on a session that is not connected yet, whether or not it has a socket. */
  lemma ConnectEnds(w: World)
    requires !w.sess.connected
    ensures var (r, w') := Run(w, DoConnect);
            var o := Nth(w, Opening(w.sess) + 2);
            var reply := Overlay(RL.Zeros(4), o.data);
            && RunSends(w, DoConnect) == (if ConnectGoes(w) then [ConnectPacket(w.sess.config)] else [])
            && (w'.sess.connected <==> ConnectGoes(w) && o.ret >= 0)
            && (r == E_NONE <==> ConnectGoes(w) && o.ret >= 0 && KindIn(reply) == CONNACK && ByteIn(reply, 3) == 0)
  {
    hide Exec, ExecSends, ExecEvents, Encode, Overlay, KindIn, ByteIn, ConnectPacket;
    BeginQuiet(w, DoConnect);
    var (w1, c1) := Begin(w, DoConnect);
    if w.sess.socket < 0 {
      Unfold(w1, c1);
      var (w2, c2) := Step(w1, c1);
      if c2.Halt? {
        Unfold(w2, c2);
      } else {
        assert forall i: nat :: Nth(w2, i) == Nth(w, i + 1);
        DialEnds(w2, c2.p);
      }
    } else {
      assert forall i: nat :: Nth(w1, i) == Nth(w, i);
      DialEnds(w1, c1.p);
    }
  }

  // ---------------------------------------------------------------- the trace of a run

  /** The world after the first `i` calls. */
  function At(w: World, calls: seq<Call>, i: nat): World
    requires AllOk(calls) && i <= |calls|
  {
    RunAll(w, calls[..i]).1
  }

  lemma AtStart(w: World, calls: seq<Call>)
    requires AllOk(calls)
    ensures At(w, calls, 0) == w
  {
  }

  lemma AtLater(w: World, calls: seq<Call>, i: nat)
    requires AllOk(calls) && i < |calls|
    ensures At(w, calls, i + 1) == At(Run(w, calls[0]).1, calls[1..], i)
  {
    hide Run;
    assert calls[..i + 1][1..] == calls[1..][..i];
  }

  /** If the call puts a CONNECT on the wire, the CONNECT has a payload. */
  predicate Filled(w: World, call: Call) {
    call.DoConnect? && ConnectGoes(w) ==> ConnectContent(w.sess.config) != []
  }

  predicate AllFilled(w: World, calls: seq<Call>)
    requires AllOk(calls)
  {
    forall i :: 0 <= i < |calls| ==> Filled(At(w, calls, i), calls[i])
  }

  lemma AllFilledSplit(w: World, calls: seq<Call>)
    requires AllOk(calls) && calls != []
    ensures AllFilled(w, calls) <==> Filled(w, calls[0]) && AllFilled(Run(w, calls[0]).1, calls[1..])
  {
    hide Run, Filled, At;
    var w' := Run(w, calls[0]).1;
    AtStart(w, calls);
    forall i | 0 <= i < |calls| - 1
      ensures At(w, calls, i + 1) == At(w', calls[1..], i) && calls[i + 1] == calls[1..][i]
    {
      AtLater(w, calls, i);
    }
    if AllFilled(w, calls) {
      forall i | 0 <= i < |calls[1..]|
        ensures Filled(At(w', calls[1..], i), calls[1..][i])
      {
        assert Filled(At(w, calls, i + 1), calls[i + 1]);
      }
      assert Filled(At(w, calls, 0), calls[0]);
    }
    if Filled(w, calls[0]) && AllFilled(w', calls[1..]) {
      forall i | 0 <= i < |calls|
        ensures Filled(At(w, calls, i), calls[i])
      {
        if i > 0 {
          assert Filled(At(w', calls[1..], i - 1), calls[1..][i - 1]);
        }
      }
    }
  }

  /** The rest of a call that is not a connect. */
  predicate PastConnect(c: Control) {
    match c
    case OpenSocket(_) => false
    case TcpConnect(_) => false
    case SendConnect(_) => false
    case SendPublish(p, _) => p.Publish?
    case SendSubscribe(p) => p.Listed?
    case SendUnsubscribe(p) => p.Listed?
    case _ => true
  }

  lemma {:induction false} NoConnectSent(w: World, c: Control)
    requires PastConnect(c)
    ensures forall p :: p in ExecSends(w, c) ==> !p.Connect?
    decreases Rank(c)
  {
    hide Exec, ExecSends, ExecEvents, Encode, Overlay, KindIn, ByteIn, IdIn;
    Unfold(w, c);
    if !c.Halt? {
      StepRank(w, c);
      NoConnectSent(Step(w, c).0, Step(w, c).1);
    }
  }

  lemma BeginPast(w: World, call: Call)
    requires CallOk(call) && !call.DoConnect?
    ensures PastConnect(Begin(w, call).1)
  {
    hide ViewPublish, PublishInBounds;
  }

  lemma SendsFilled(w: World, call: Call)
    requires CallOk(call) && Codable(w.sess.config, call)
    ensures AllWellFormed(RunSends(w, call)) <==> Filled(w, call)
  {
    RunSendable(w, call);
    if call.DoConnect? {
      ConnectSendable(w.sess.config);
      if w.sess.connected {
        Unfold(Begin(w, call).0, Begin(w, call).1);
      } else {
        ConnectEnds(w);
      }
      hide RunSends, Run, WellFormed, ConnectContent, ConnectPacket;
      var p := ConnectPacket(w.sess.config);
      EmptyIsMalformed(p);
      assert RunSends(w, call) == if ConnectGoes(w) then [p] else [];
      assert [p][0] == p;
    } else {
      BeginPast(w, call);
      NoConnectSent(Begin(w, call).0, Begin(w, call).1);
      hide Run, WellFormed, ExecSends, Begin, ConnectGoes;
      forall i | 0 <= i < |RunSends(w, call)|
        ensures WellFormed(RunSends(w, call)[i])
      {
        assert Sendable(RunSends(w, call)[i]) && RunSends(w, call)[i] in RunSends(w, call);
      }
    }
  }

  lemma WellFormedConcat(a: seq<Packet>, b: seq<Packet>)
    ensures AllWellFormed(a + b) <==> AllWellFormed(a) && AllWellFormed(b)
    ensures AllSendable(a + b) <==> AllSendable(a) && AllSendable(b)
  {
    hide WellFormed, Sendable;
    assert forall i :: 0 <= i < |a| ==> (a + b)[i] == a[i];
    assert forall i :: 0 <= i < |b| ==> (a + b)[|a| + i] == b[i];
  }

  lemma CodableStays(w: World, calls: seq<Call>)
    requires AllOk(calls) && calls != [] && AllCodable(w.sess.config, calls)
    ensures Codable(w.sess.config, calls[0]) && AllCodable(Run(w, calls[0]).1.sess.config, calls[1..])
  {
    hide Run, RunSends, SentBytes, EncodeAll;
    RunTrace(w, calls[0]);
    forall i | 0 <= i < |calls| - 1
      ensures calls[1..][i] == calls[i + 1] && Codable(DEFAULT_CONFIG, calls[i + 1])
    {
      assert Codable(w.sess.config, calls[i + 1]);
    }
  }

  lemma {:induction false} RunAllTrace(w: World, calls: seq<Call>)
    requires AllOk(calls)
    ensures var (log, ps) := (RunAll(w, calls).1.net.log, RunAllSends(w, calls));
            w.net.log <= log && SentBytes(log) == SentBytes(w.net.log) + EncodeAll(ps)
    decreases |calls|
  {
    hide Run, RunSends, Encode, SentBytes, EncodeAll;
    NothingSent();
    if calls != [] {
      RunTrace(w, calls[0]);
      var w' := Run(w, calls[0]).1;
      RunAllTrace(w', calls[1..]);
      var first, rest := RunSends(w, calls[0]), RunAllSends(w', calls[1..]);
      EncodeAllConcat(first, rest);
      Assoc(SentBytes(w.net.log), EncodeAll(first), EncodeAll(rest));
    }
  }

  lemma {:induction false} RunAllSendable(w: World, calls: seq<Call>)
    requires AllOk(calls) && AllCodable(w.sess.config, calls)
    ensures AllSendable(RunAllSends(w, calls))
    ensures AllWellFormed(RunAllSends(w, calls)) <==> AllFilled(w, calls)
    decreases |calls|
  {
    hide Run, RunSends, Sendable, WellFormed, Filled, Codable;
    if calls != [] {
      CodableStays(w, calls);
      hide AllSendable, AllWellFormed, AllFilled, AllCodable;
      RunSendable(w, calls[0]);
      SendsFilled(w, calls[0]);
      AllFilledSplit(w, calls);
      var w' := Run(w, calls[0]).1;
      RunAllSendable(w', calls[1..]);
      WellFormedConcat(RunSends(w, calls[0]), RunAllSends(w', calls[1..]));
    }
  }

  /** Whatever is called and whatever fails, the bytes a run adds to the trace are the encodings of the packets
      put on the wire, and parsing them gives back exactly those packets; except that the stream is refused
      exactly when a CONNECT went out for which not one of the configured strings fitted. */
  lemma TraceParses(w: World, calls: seq<Call>)
    requires AllOk(calls) && AllCodable(w.sess.config, calls)
    ensures var (log, ps) := (RunAll(w, calls).1.net.log, RunAllSends(w, calls));
            && w.net.log <= log
            && SentBytes(log) == SentBytes(w.net.log) + EncodeAll(ps)
            && (AllWellFormed(ps) <==> AllFilled(w, calls))
            && Parse(EncodeAll(ps)) == if AllFilled(w, calls) then Some(ps) else None
  {
    hide RunAll, RunAllSends, Parse, SentBytes, EncodeAll, AllFilled, AllSendable, AllWellFormed;
    RunAllTrace(w, calls);
    RunAllSendable(w, calls);
    ParseIff(RunAllSends(w, calls));
  }

  /** A run without connect, or with a configuration of which some string fits, has nothing to fear:
      no call changes the configuration but a reset, whose default fits. */
  lemma {:induction false} FilledBefore(w: World, calls: seq<Call>)
    requires AllOk(calls)
    requires DoConnect !in calls || ConnectContent(w.sess.config) != []
    ensures AllFilled(w, calls)
    decreases |calls|
  {
    if calls != [] {
      hide Run, ConnectContent, ConnectGoes, AllFilled;
      ContentStays(w, calls[0]);
      AllFilledSplit(w, calls);
      FilledBefore(Run(w, calls[0]).1, calls[1..]);
    }
  }

  lemma ContentStays(w: World, call: Call)
    requires CallOk(call)
    ensures ConnectContent(w.sess.config) != [] ==> ConnectContent(Run(w, call).1.sess.config) != []
  {
    hide Run, ConnectContent, SentBytes, EncodeAll, RunSends;
    RunTrace(w, call);
    DefaultFits();
  }

  lemma DefaultFits()
    ensures ConnectContent(DEFAULT_CONFIG) != []
  {
    ConnectWellFormedIff(DEFAULT_CONFIG);
    assert PB.Str(DEFAULT_ID) in ConnectItems(DEFAULT_CONFIG);
  }

  /** It does happen: a client id of 1011 characters and nothing else. Every operation of connect goes through,
      and no reader takes the packet that was sent for a CONNECT. */
  lemma LongClientId(w: World)
    requires !w.sess.connected && w.sess.socket < 0
    requires w.sess.config == DEFAULT_CONFIG.(clientId := seq(1011, _ => 97))
    requires Nth(w, 0).ret >= 0 && Nth(w, 1).ret == 0 && Nth(w, 2).ret >= 0
    ensures !AllFilled(w, [DoConnect])
    ensures RunAllSends(w, [DoConnect]) == [ConnectPacket(w.sess.config)]
    ensures Parse(EncodeAll([ConnectPacket(w.sess.config)])) == None
  {
    hide ConnectContent, RunSends, Run;
    var c := w.sess.config;
    ConnectWellFormedIff(c);
    assert ConnectItems(c) == [PB.Str(c.clientId)];
    assert |PB.Emit(PB.Str(c.clientId))| == 1013;
    ConnectEnds(w);
    AtStart(w, [DoConnect]);
    assert [DoConnect][0] == DoConnect;
    assert RunSends(w, DoConnect) == [ConnectPacket(c)];
    TraceParses(w, [DoConnect]);
  }
}
