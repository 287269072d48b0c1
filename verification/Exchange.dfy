/** A publishing client and a receiver that runs `on_publish`, joined by two FIFO channels that deliver
    whole packets: any list of publishes, any interleaving of the two sides. */
module Exchange {
  import opened Bytes
  import opened Errors
  import opened Packets
  import opened ClientConfig
  import opened Protocol
  import opened Runs
  import RL = RemainingLength

  datatype System = System(
    todo: seq<Call>, // publishes not yet begun
    sender: Sess, sc: Control,
    receiver: Sess, rc: Control,
    toReceiver: seq<bytes>, toSender: seq<bytes>,
    delivered: seq<(bytes, bytes)>, // topics and payloads handed on
    results: seq<int>) // what the finished publishes returned

  datatype Side = Sender | Receiver

  /** One socket operation with a given outcome, as the calls themselves take it. */
  function Act(s: Sess, c: Control, o: Outcome): (Sess, Control)
    requires !c.Halt?
  {
    var (w, c') := Step(World(s, Net([o], [])), c);
    (w.sess, c')
  }

  /** A side's operations one after another. */
  function Acts(s: Sess, c: Control, os: seq<Outcome>): (Sess, Control)
    decreases |os|
  {
    if c.Halt? || os == [] then (s, c)
    else
      var (s', c') := Act(s, c, os[0]);
      Acts(s', c', os[1..])
  }

  lemma StepIsAct(w: World, c: Control)
    requires !c.Halt?
    ensures Act(w.sess, c, Coming(w.net)) == (Step(w, c).0.sess, Step(w, c).1)
    ensures Step(w, c).0.net.script == After(w.net, []).script
  {
    hide Next, Encode, Overlay;
  }

  /** A side that moves by `Act` until its call ends does what the call alone does against the same outcomes. */
  lemma {:induction false} ActsAreExec(w: World, c: Control, os: seq<Outcome>)
    requires os <= w.net.script && Acts(w.sess, c, os).1.Halt?
    ensures (Exec(w, c).0, Exec(w, c).1.sess) == (Acts(w.sess, c, os).1.ret, Acts(w.sess, c, os).0)
    decreases |os|
  {
    hide Act, Step, Rank;
    if !c.Halt? {
      assert Coming(w.net) == os[0];
      StepIsAct(w, c);
      ActsAreExec(Step(w, c).0, Step(w, c).1, os[1..]);
    }
  }

  function Returned(c: Control): seq<int> {
    if c.Halt? then [c.ret] else []
  }

  /** The sender begins its next publish, sends, or takes the packet at the head of its channel.
      There is no move if it waits for a packet that is not there. */
  function SenderMove(y: System): Option<System> {
    if y.sc.Halt? then
      if y.todo == [] || !CallOk(y.todo[0]) then None
      else
        var (s, c) := Enter(y.sender, y.todo[0]);
        Some(y.(todo := y.todo[1..], sender := s, sc := c, results := y.results + Returned(c)))
    else match Wants(y.sc)
      case Transmit(p) =>
        var (s, c) := Act(y.sender, y.sc, Outcome(|Encode(p)|, []));
        Some(y.(sender := s, sc := c, toReceiver := y.toReceiver + [Encode(p)], results := y.results + Returned(c)))
      case Await(_) =>
        if y.toSender == [] then None
        else
          var (s, c) := Act(y.sender, y.sc, Outcome(|y.toSender[0]|, y.toSender[0]));
          Some(y.(sender := s, sc := c, toSender := y.toSender[1..], results := y.results + Returned(c)))
      case _ => None
  }

  /** An idle receiver hands the packet at the head of its channel to `on_publish`. */
  function ReceiverMove(y: System): Option<System> {
    if y.rc.Halt? then
      if y.toReceiver == [] || !CallOk(DoOnPublish(y.toReceiver[0])) then None
      else
        var call := DoOnPublish(y.toReceiver[0]);
        var (s, c) := Enter(y.receiver, call);
        var d := Deliveries(call);
        Some(y.(receiver := s, rc := c, toReceiver := y.toReceiver[1..],
                delivered := y.delivered + if d == [] then [] else [(d[0].topic, d[0].content)]))
    else match Wants(y.rc)
      case Transmit(p) =>
        var (s, c) := Act(y.receiver, y.rc, Outcome(|Encode(p)|, []));
        Some(y.(receiver := s, rc := c, toSender := y.toSender + [Encode(p)]))
      case Await(_) =>
        if y.toReceiver == [] then None
        else
          var (s, c) := Act(y.receiver, y.rc, Outcome(|y.toReceiver[0]|, y.toReceiver[0]));
          Some(y.(receiver := s, rc := c, toReceiver := y.toReceiver[1..]))
      case _ => None
  }

  function Move(y: System, side: Side): Option<System> {
    if side.Sender? then SenderMove(y) else ReceiverMove(y)
  }

  /** An interleaving: which side moves next, again and again. */
  function Interleave(y: System, schedule: seq<Side>): Option<System>
    decreases |schedule|
  {
    if schedule == [] then Some(y)
    else match Move(y, schedule[0])
      case None => None
      case Some(y') => Interleave(y', schedule[1..])
  }

  predicate Publishes(pubs: seq<Call>) {
    forall i :: 0 <= i < |pubs| ==> pubs[i].DoPublish? && CallOk(pubs[i])
  }

  /** Both sides idle, with sockets, and nothing in the channels. */
  predicate Start(y: System, pubs: seq<Call>) {
    && Publishes(pubs) && AllCodable(y.sender.config, pubs) && y.todo == pubs
    && y.sc.Halt? && y.rc.Halt? && y.sender.socket >= 0 && y.receiver.socket >= 0
    && y.toReceiver == [] && y.toSender == [] && y.delivered == [] && y.results == []
  }

  // ---------------------------------------------------------------- the invariant

  function Messages(pubs: seq<Call>): (m: seq<(bytes, bytes)>)
    requires Publishes(pubs)
    ensures |m| == |pubs|
  {
    seq(|pubs|, i requires 0 <= i < |pubs| => (pubs[i].topic, pubs[i].content))
  }

  /** The QoS a publish goes out with. */
  function Q(y: System, call: Call): QoS
    requires call.DoPublish?
  {
    Effective(y.sender.config, call.qos)
  }

  /** How many publishes were begun, and how many of them are on their way or delivered. */
  function Begun(y: System, pubs: seq<Call>): int {
    |pubs| - |y.todo|
  }

  function Out(y: System, pubs: seq<Call>): int {
    Begun(y, pubs) - if y.sc.SendPublish? then 1 else 0
  }

  predicate IsFrameOf(f: bytes, call: Call, q: QoS)
    requires call.DoPublish?
  {
    && PublishInBounds(f) && FlagOf(f[0]).kind == PUBLISH && FlagOf(f[0]).qos == q
    && ViewPublish(f).vars.topic == call.topic && ViewPublish(f).content == call.content
  }

  predicate IsAck(f: bytes, kind: int) {
    |f| == 4 && KindIn(f) == kind
  }

  /** The publish frames on their way are those not yet delivered, in order. */
  predicate InFlight(y: System, pubs: seq<Call>)
    requires Publishes(pubs)
  {
    var d, out := |y.delivered|, Out(y, pubs);
    && d <= out <= |pubs|
    && |y.toReceiver| == out - d
    && forall i :: d <= i < out ==> IsFrameOf(y.toReceiver[i - d], pubs[i], Q(y, pubs[i]))
  }

  /** Only the last publish on its way may ask for an acknowledgement. */
  predicate OnlyLastAsks(y: System, pubs: seq<Call>, last: QoS)
    requires Publishes(pubs)
  {
    var d, out := |y.delivered|, Out(y, pubs);
    && d <= out <= |pubs|
    && (forall i :: d <= i < out - 1 ==> Q(y, pubs[i]) == 0)
    && (d < out ==> Q(y, pubs[out - 1]) == last)
  }

  predicate Idle(y: System, pubs: seq<Call>, last: QoS)
    requires Publishes(pubs)
  {
    y.rc.Halt? && y.toSender == [] && InFlight(y, pubs) && OnlyLastAsks(y, pubs, last)
  }

  predicate Phase(y: System, pubs: seq<Call>)
    requires Publishes(pubs)
  {
    var all := |y.delivered| == Begun(y, pubs);
    match y.sc
    case Halt(_) => Idle(y, pubs, 0)
    case SendPublish(p, q) =>
      && Idle(y, pubs, 0) && y.todo != pubs
      && var call := pubs[Begun(y, pubs) - 1];
         q == Q(y, call) && IsFrameOf(Encode(p), call, q)
    case AwaitPuback =>
      || (Idle(y, pubs, 1) && !all)
      || (all && y.rc.SendPuback? && y.toReceiver == [] && y.toSender == [])
      || (all && y.rc.Halt? && y.toReceiver == [] && |y.toSender| == 1 && IsAck(y.toSender[0], PUBACK))
    case AwaitPubrec =>
      || (Idle(y, pubs, 2) && !all)
      || (all && y.rc.SendPubrec? && y.toReceiver == [] && y.toSender == [])
      || (all && y.rc.AwaitPubrel? && y.toReceiver == [] && |y.toSender| == 1 && IsAck(y.toSender[0], PUBREC))
    case SendPubrel(_) => all && y.rc.AwaitPubrel? && y.toReceiver == [] && y.toSender == []
    case AwaitPubcomp(_) =>
      || (all && y.rc.AwaitPubrel? && |y.toReceiver| == 1 && y.toSender == [])
      || (all && y.rc.SendPubcomp? && y.toReceiver == [] && y.toSender == [])
      || (all && y.rc.Halt? && y.toReceiver == [] && |y.toSender| == 1 && IsAck(y.toSender[0], PUBCOMP))
    case _ => false
  }

  predicate Common(y: System, pubs: seq<Call>) {
    && Publishes(pubs) && AllCodable(y.sender.config, pubs)
    && |y.todo| <= |pubs| && y.todo == pubs[Begun(y, pubs)..]
    && |y.delivered| <= Begun(y, pubs) && y.delivered == Messages(pubs)[..|y.delivered|]
    && y.sender.socket >= 0 && y.receiver.socket >= 0
    && |y.results| == Begun(y, pubs) - (if y.sc.Halt? then 0 else 1)
    && forall r :: r in y.results ==> r == E_NONE
  }

  predicate Inv(y: System, pubs: seq<Call>) {
    Common(y, pubs) && Phase(y, pubs)
  }

  // ---------------------------------------------------------------- the measure

  function SenderCost(q: QoS): nat {
    if q == 2 then 5 else q + 2
  }

  function ReceiverCost(q: QoS): nat {
    if q == 2 then 4 else q + 1
  }

  function Costs(config: Config, pubs: seq<Call>, cost: QoS -> nat): nat
    requires Publishes(pubs)
  {
    if pubs == [] then 0 else cost(Effective(config, pubs[0].qos)) + Costs(config, pubs[1..], cost)
  }

  /** The moves that are still to come. */
  function Left(y: System, pubs: seq<Call>): nat
    requires Common(y, pubs)
  {
    Costs(y.sender.config, pubs[Begun(y, pubs)..], SenderCost) + Rank(y.sc)
    + Costs(y.sender.config, pubs[|y.delivered|..], ReceiverCost) + Rank(y.rc)
  }

  // ---------------------------------------------------------------- one move

  lemma AckSeen(kind: nibble, id: uint16)
    ensures IsAck(Encode(Ack(kind, id)), kind)
  {
    FlagInverse(FixedHeader(kind), 0);
    assert Encode(Ack(kind, id))[0] == FlagByte(FixedHeader(kind));
  }

  lemma PublishSeen(s: Sess, call: Call)
    requires call.DoPublish? && CallOk(call) && Codable(s.config, call)
    ensures var q := Effective(s.config, call.qos);
            IsFrameOf(Encode(PublishPacket(s, call.topic, call.content, q, call.retain)), call, q)
  {
    var p := PublishPacket(s, call.topic, call.content, Effective(s.config, call.qos), call.retain);
    CStrWhole(call.topic);
    PublishBodySplits(call.topic, p.qos, p.id, call.content);
    assert Encode(p) == Frame(HeaderOf(p), PublishBody(call.topic, p.qos, p.id, call.content));
    hide Encode, Frame, PublishBody, CStr, Opens, Declared, HeaderLen, Rest;
    PublishRoundTrip(HeaderOf(p), call.topic, p.id, call.content);
    FlagInverse(HeaderOf(p), 0);
    FrameOpens(HeaderOf(p), PublishBody(call.topic, p.qos, p.id, call.content));
    hide PublishInBounds, ViewPublish;
  }

  lemma ActSends(s: Sess, c: Control)
    requires !c.Halt? && Wants(c).Transmit? && s.socket >= 0
    ensures var n := |Encode(Wants(c).p)|; Act(s, c, Outcome(n, [])) == Next(s, c, n, [])
  {
    hide Next, Encode;
  }

  lemma ActAwaits(s: Sess, c: Control, f: bytes)
    requires !c.Halt? && Wants(c).Await? && s.socket >= 0
    ensures exists r: nat, buf: bytes ::
              && Act(s, c, Outcome(|f|, f)) == Next(s, c, r, buf)
              && (|f| == |Wants(c).stale| ==> r == |f| && buf == f)
  {
    hide Next, Encode;
    var buf := Overlay(Wants(c).stale, f);
    var r := if |f| <= |Wants(c).stale| then |f| else |Wants(c).stale|;
    assert Act(s, c, Outcome(|f|, f)) == Next(s, c, r, buf);
  }

  lemma ReplyBuffer(c: Control)
    requires c.AwaitPuback? || c.AwaitPubrec? || c.AwaitPubcomp?
    ensures Wants(c).Await? && |Wants(c).stale| == 4
  {
  }

  lemma SenderBegins(y: System, pubs: seq<Call>)
    requires Inv(y, pubs) && y.sc.Halt? && y.todo != []
    ensures var m := SenderMove(y);
            m.Some? && Inv(m.value, pubs) && Left(y, pubs) == Left(m.value, pubs) + 1
  {
    hide Encode, IsFrameOf, PublishPacket, Codable;
    var b := Begun(y, pubs);
    assert y.todo[0] == pubs[b] && y.todo[1..] == pubs[b + 1..] == pubs[b..][1..];
    PublishSeen(y.sender, pubs[b]);
  }

  lemma SenderPublishes(y: System, pubs: seq<Call>)
    requires Inv(y, pubs) && y.sc.SendPublish?
    ensures var m := SenderMove(y);
            m.Some? && Inv(m.value, pubs) && Left(y, pubs) == Left(m.value, pubs) + 1
  {
    hide Encode, IsFrameOf, PublishPacket;
    hide Act;
    ActSends(y.sender, y.sc);
    var y' := SenderMove(y).value;
    assert forall i :: 0 <= i < |y.toReceiver| ==> y'.toReceiver[i] == y.toReceiver[i];
    assert y'.toReceiver[|y.toReceiver|] == Encode(y.sc.p);
  }

  lemma SenderReleases(y: System, pubs: seq<Call>)
    requires Inv(y, pubs) && y.sc.SendPubrel?
    ensures var m := SenderMove(y);
            m.Some? && Inv(m.value, pubs) && Left(y, pubs) == Left(m.value, pubs) + 1
  {
    hide Encode, IsFrameOf;
    hide Act;
    ActSends(y.sender, y.sc);
  }

  lemma SenderHears(y: System, pubs: seq<Call>)
    requires Inv(y, pubs) && !y.sc.Halt? && Wants(y.sc).Await? && y.toSender != []
    ensures var m := SenderMove(y);
            m.Some? && Inv(m.value, pubs) && Left(y, pubs) == Left(m.value, pubs) + 1
  {
    hide Act, IsFrameOf;
    hide Encode;
    ActAwaits(y.sender, y.sc, y.toSender[0]);
    ReplyBuffer(y.sc);
  }

  /** Whenever the sender can move, the invariant is kept and one move less is left. */
  lemma SenderKeeps(y: System, pubs: seq<Call>)
    requires Inv(y, pubs) && SenderMove(y).Some?
    ensures Inv(SenderMove(y).value, pubs) && Left(y, pubs) == Left(SenderMove(y).value, pubs) + 1
  {
    if y.sc.Halt? {
      SenderBegins(y, pubs);
    } else if y.sc.SendPublish? {
      SenderPublishes(y, pubs);
    } else if y.sc.SendPubrel? {
      SenderReleases(y, pubs);
    } else {
      SenderHears(y, pubs);
    }
  }

  /** What `on_publish` begins with, for a publish frame. */
  function Answer(s: Sess, q: QoS): (Sess, Control) {
    if q == 0 then (s, Halt(E_NONE))
    else (TakeId(s), if q == 1 then SendPuback(s.nextId) else SendPubrec(s.nextId))
  }

  lemma TakeEffect(y: System, call: Call, q: QoS)
    requires call.DoPublish? && y.rc.Halt? && y.toReceiver != [] && IsFrameOf(y.toReceiver[0], call, q)
    ensures var m := ReceiverMove(y);
            && m.Some?
            && m.value == y.(receiver := Answer(y.receiver, q).0, rc := Answer(y.receiver, q).1,
                             toReceiver := y.toReceiver[1..], delivered := m.value.delivered)
            && m.value.delivered == y.delivered + [(call.topic, call.content)]
  {
    assert y.toReceiver[0] != [];
    hide PublishInBounds, ViewPublish;
  }

  lemma ReceiverTakes(y: System, pubs: seq<Call>)
    requires Inv(y, pubs) && y.rc.Halt? && y.toReceiver != []
    ensures var m := ReceiverMove(y);
            m.Some? && Inv(m.value, pubs) && Left(y, pubs) == Left(m.value, pubs) + 1
  {
    hide Phase, Left, ReceiverMove, IsFrameOf;
    var d := |y.delivered|;
    FlightHead(y, pubs);
    TakeEffect(y, pubs[d], Q(y, pubs[d]));
    TakeKeepsCommon(y, ReceiverMove(y).value, pubs);
    TakeKeepsPhase(y, ReceiverMove(y).value, pubs);
  }

  lemma TakeKeepsCommon(y: System, y': System, pubs: seq<Call>)
    requires Common(y, pubs) && y.rc.Halt? && |y.delivered| < Begun(y, pubs)
    requires var call := pubs[|y.delivered|];
             && y' == y.(receiver := Answer(y.receiver, Q(y, call)).0, rc := Answer(y.receiver, Q(y, call)).1,
                         toReceiver := y'.toReceiver, delivered := y'.delivered)
             && y'.delivered == y.delivered + [(call.topic, call.content)]
    ensures Common(y', pubs) && Left(y, pubs) == Left(y', pubs) + 1
  {
    var d := |y.delivered|;
    assert Messages(pubs)[..d + 1] == Messages(pubs)[..d] + [Messages(pubs)[d]];
    assert pubs[d..][1..] == pubs[d + 1..];
  }

  /** An idle receiver finds at the head of its channel the next publish to deliver. */
  lemma FlightHead(y: System, pubs: seq<Call>)
    requires Inv(y, pubs) && y.rc.Halt? && y.toReceiver != []
    ensures var d := |y.delivered|; d < Begun(y, pubs) && IsFrameOf(y.toReceiver[0], pubs[d], Q(y, pubs[d]))
  {
    hide Encode, IsFrameOf;
  }

  lemma TakeKeepsPhase(y: System, y': System, pubs: seq<Call>)
    requires Inv(y, pubs) && y.rc.Halt? && y.toReceiver != [] && |y.delivered| < |pubs|
    requires var q := Q(y, pubs[|y.delivered|]);
             y' == y.(receiver := y'.receiver, rc := Answer(y.receiver, q).1, toReceiver := y.toReceiver[1..],
                      delivered := y'.delivered)
    requires |y'.delivered| == |y.delivered| + 1
    ensures Phase(y', pubs)
  {
    hide Encode, IsFrameOf;
    var d, out := |y.delivered|, Out(y, pubs);
    assert Out(y', pubs) == out;
    forall i | d + 1 <= i < out
      ensures IsFrameOf(y'.toReceiver[i - (d + 1)], pubs[i], Q(y', pubs[i]))
    {
      assert y'.toReceiver[i - (d + 1)] == y.toReceiver[i - d];
    }
  }

  lemma ReceiverAnswers(y: System, pubs: seq<Call>)
    requires Inv(y, pubs) && !y.rc.Halt? && Wants(y.rc).Transmit?
    ensures var m := ReceiverMove(y);
            m.Some? && Inv(m.value, pubs) && Left(y, pubs) == Left(m.value, pubs) + 1
  {
    hide Act, IsFrameOf;
    hide Encode, IsAck;
    ActSends(y.receiver, y.rc);
    AckSeen(Wants(y.rc).p.kind, Wants(y.rc).p.id);
  }

  lemma ReceiverHears(y: System, pubs: seq<Call>)
    requires Inv(y, pubs) && !y.rc.Halt? && Wants(y.rc).Await? && y.toReceiver != []
    ensures var m := ReceiverMove(y);
            m.Some? && Inv(m.value, pubs) && Left(y, pubs) == Left(m.value, pubs) + 1
  {
    hide Act, IsFrameOf, Encode;
    ActAwaits(y.receiver, y.rc, y.toReceiver[0]);
  }

  /** Whenever the receiver can move, the invariant is kept and one move less is left. */
  lemma ReceiverKeeps(y: System, pubs: seq<Call>)
    requires Inv(y, pubs) && ReceiverMove(y).Some?
    ensures Inv(ReceiverMove(y).value, pubs) && Left(y, pubs) == Left(ReceiverMove(y).value, pubs) + 1
  {
    if y.rc.Halt? {
      ReceiverTakes(y, pubs);
    } else if Wants(y.rc).Transmit? {
      ReceiverAnswers(y, pubs);
    } else {
      ReceiverHears(y, pubs);
    }
  }

  // ---------------------------------------------------------------- whole interleavings

  /** Everything was published, delivered once and in order, and acknowledged. */
  predicate Finished(y: System, pubs: seq<Call>)
    requires Publishes(pubs)
  {
    && y.todo == [] && y.sc.Halt? && y.rc.Halt?
    && y.toReceiver == [] && y.toSender == []
    && y.delivered == Messages(pubs)
    && |y.results| == |pubs| && forall r :: r in y.results ==> r == E_NONE
  }

  lemma StuckIsFinished(y: System, pubs: seq<Call>)
    requires Inv(y, pubs) && SenderMove(y).None? && ReceiverMove(y).None?
    ensures Finished(y, pubs)
  {
    hide Encode, Act, Enter;
    var d := |y.delivered|;
    if y.toReceiver != [] && y.rc.Halt? {
      TakeEffect(y, pubs[d], Q(y, pubs[d]));
      assert false;
    }
    assert Messages(pubs)[..|pubs|] == Messages(pubs);
  }

  lemma NothingLeftIsFinished(y: System, pubs: seq<Call>)
    requires Inv(y, pubs) && Left(y, pubs) == 0
    ensures Finished(y, pubs)
  {
    hide Encode, IsFrameOf;
    assert Messages(pubs)[..|pubs|] == Messages(pubs);
  }

  /** No deadlock: neither side can move exactly when everything is finished, which is when nothing is left. */
  lemma NoDeadlock(y: System, pubs: seq<Call>)
    requires Inv(y, pubs)
    ensures SenderMove(y).None? && ReceiverMove(y).None? <==> Finished(y, pubs)
    ensures Finished(y, pubs) <==> Left(y, pubs) == 0
  {
    if SenderMove(y).None? && ReceiverMove(y).None? {
      StuckIsFinished(y, pubs);
    }
    if Left(y, pubs) == 0 {
      NothingLeftIsFinished(y, pubs);
    }
    if Finished(y, pubs) {
      assert pubs[|pubs|..] == [];
    }
    hide Phase, Encode, Act, Enter;
  }

  lemma {:induction false} InterleavingKeeps(y: System, pubs: seq<Call>, schedule: seq<Side>)
    requires Inv(y, pubs) && Interleave(y, schedule).Some?
    ensures var end := Interleave(y, schedule).value;
            Inv(end, pubs) && Left(y, pubs) == Left(end, pubs) + |schedule|
    decreases |schedule|
  {
    if schedule != [] {
      hide Inv, Left, SenderMove, ReceiverMove;
      if schedule[0].Sender? {
        SenderKeeps(y, pubs);
      } else {
        ReceiverKeeps(y, pubs);
      }
      InterleavingKeeps(Move(y, schedule[0]).value, pubs, schedule[1..]);
    }
  }

  lemma StartInv(y: System, pubs: seq<Call>)
    requires Start(y, pubs)
    ensures Inv(y, pubs)
  {
    assert pubs[0..] == pubs;
    assert Messages(pubs)[..0] == [];
  }

  /** The number of moves that a list of publishes takes, both sides together. */
  function Total(config: Config, pubs: seq<Call>): nat
    requires Publishes(pubs)
  {
    Costs(config, pubs, SenderCost) + Costs(config, pubs, ReceiverCost)
  }

  /** Every interleaving of any list of publishes: at every moment the messages delivered are the first ones
      published, each once; it never takes more than a fixed number of moves; if it cannot go on, every message
      was delivered, every publish returned E_NONE and the channels are empty; and that is so exactly when the
      number is reached. */
  lemma EveryInterleaving(y: System, pubs: seq<Call>, schedule: seq<Side>)
    requires Start(y, pubs) && Interleave(y, schedule).Some?
    ensures var end, total := Interleave(y, schedule).value, Total(y.sender.config, pubs);
            && |end.delivered| <= |pubs| && end.delivered == Messages(pubs)[..|end.delivered|]
            && |schedule| <= total
            && (SenderMove(end).None? && ReceiverMove(end).None? <==> Finished(end, pubs))
            && (Finished(end, pubs) <==> |schedule| == total)
  {
    StartInv(y, pubs);
    InterleavingKeeps(y, pubs, schedule);
    NoDeadlock(Interleave(y, schedule).value, pubs);
    assert pubs[0..] == pubs;
    assert Rank(y.sc) == Rank(y.rc) == 0;
    hide Inv, Interleave, Finished, SenderMove, ReceiverMove;
  }

  // ---------------------------------------------------------------- each side by itself

  /** Where a side stands. */
  function Who(y: System, side: Side): (Sess, Control) {
    if side.Sender? then (y.sender, y.sc) else (y.receiver, y.rc)
  }

  function Inbox(y: System, side: Side): seq<bytes> {
    if side.Sender? then y.toSender else y.toReceiver
  }

  /** The outcome of the socket operation in a side's move; a move that begins a call has none. */
  function Hears(y: System, side: Side): seq<Outcome> {
    var c := Who(y, side).1;
    if c.Halt? then []
    else match Wants(c)
      case Transmit(p) => [Outcome(|Encode(p)|, [])]
      case _ => if Inbox(y, side) == [] then [] else [Outcome(|Inbox(y, side)[0]|, Inbox(y, side)[0])]
  }

  /** The call that a side's move begins, if it begins one. */
  function Begins(y: System, side: Side): seq<Call>
    requires Move(y, side).Some?
  {
    if !Who(y, side).1.Halt? then [] else if side.Sender? then [y.todo[0]] else [DoOnPublish(y.toReceiver[0])]
  }

  /** All outcomes a side meets in an interleaving. */
  function Heard(y: System, schedule: seq<Side>, side: Side): seq<Outcome>
    requires Interleave(y, schedule).Some?
    decreases |schedule|
  {
    if schedule == [] then []
    else (if schedule[0] == side then Hears(y, side) else []) + Heard(Move(y, schedule[0]).value, schedule[1..], side)
  }

  /** All calls a side begins. */
  function Called(y: System, schedule: seq<Side>, side: Side): seq<Call>
    requires Interleave(y, schedule).Some?
    decreases |schedule|
  {
    if schedule == [] then []
    else (if schedule[0] == side then Begins(y, side) else []) + Called(Move(y, schedule[0]).value, schedule[1..], side)
  }

  /** What the calls return that a side finishes. */
  function Returns(y: System, schedule: seq<Side>, side: Side): seq<int>
    requires Interleave(y, schedule).Some?
    decreases |schedule|
  {
    if schedule == [] then []
    else
      var y' := Move(y, schedule[0]).value;
      (if schedule[0] == side then Returned(Who(y', side).1) else []) + Returns(y', schedule[1..], side)
  }

  /** Runs the rest of a call and then more calls. */
  function Finish(w: World, c: Control, calls: seq<Call>): (seq<int>, World)
    requires AllOk(calls)
  {
    if c.Halt? then RunAll(w, calls)
    else
      var (r, w') := Exec(w, c);
      var (rs, end) := RunAll(w', calls);
      ([r] + rs, end)
  }

  lemma FinishStep(w: World, c: Control, calls: seq<Call>)
    requires !c.Halt? && AllOk(calls)
    ensures var (w', c') := Step(w, c);
            && Finish(w, c, calls).0 == Returned(c') + Finish(w', c', calls).0
            && Finish(w, c, calls).1 == Finish(w', c', calls).1
  {
    hide Exec, ExecSends, ExecEvents, Step, StepSends, StepEvents, RunAll;
    Unfold(w, c);
    Unfold(Step(w, c).0, Step(w, c).1);
  }

  lemma FinishBegin(w: World, call: Call, calls: seq<Call>)
    requires CallOk(call) && AllOk(calls)
    ensures AllOk([call] + calls)
    ensures var (w', c') := Begin(w, call);
            && RunAll(w, [call] + calls).0 == Returned(c') + Finish(w', c', calls).0
            && RunAll(w, [call] + calls).1 == Finish(w', c', calls).1
  {
    hide Exec, ExecSends, ExecEvents, Begin;
    assert ([call] + calls)[1..] == calls;
    var (w', c') := Begin(w, call);
    Unfold(w', c');
  }

  /** A side's own move begins a call or takes it one operation further; the other side's move leaves it alone. */
  lemma MoveProjects(y: System, mover: Side, side: Side)
    requires Move(y, mover).Some?
    ensures var (s, c) := Who(y, side);
            var y' := Move(y, mover).value;
            if mover != side then Who(y', side) == (s, c)
            else if c.Halt? then |Begins(y, side)| == 1 && CallOk(Begins(y, side)[0]) && Hears(y, side) == []
                                 && Who(y', side) == Enter(s, Begins(y, side)[0])
            else Begins(y, side) == [] && |Hears(y, side)| == 1 && Who(y', side) == Act(s, c, Hears(y, side)[0])
  {
    hide Act, Enter, Encode;
  }

  lemma {:induction false} CalledOk(y: System, schedule: seq<Side>, side: Side)
    requires Interleave(y, schedule).Some?
    ensures AllOk(Called(y, schedule, side))
    decreases |schedule|
  {
    if schedule != [] {
      hide Move, Begins;
      MoveProjects(y, schedule[0], side);
      CalledOk(Move(y, schedule[0]).value, schedule[1..], side);
    }
  }

  lemma UnfoldSchedule(y: System, schedule: seq<Side>, side: Side)
    requires schedule != [] && Interleave(y, schedule).Some?
    ensures Move(y, schedule[0]).Some?
    ensures var y', rest := Move(y, schedule[0]).value, schedule[1..];
            var own := schedule[0] == side;
            && Interleave(y, schedule) == Interleave(y', rest)
            && Heard(y, schedule, side) == (if own then Hears(y, side) else []) + Heard(y', rest, side)
            && Called(y, schedule, side) == (if own then Begins(y, side) else []) + Called(y', rest, side)
            && Returns(y, schedule, side) == (if own then Returned(Who(y', side).1) else []) + Returns(y', rest, side)
  {
    hide Move, Hears, Begins, Returned;
  }

  lemma ScriptStep(script: seq<Outcome>, o: Outcome, rest: seq<Outcome>)
    requires [o] + rest <= script
    ensures script != [] && script[0] == o && rest <= script[1..]
  {
  }

  /** A side alone, in a world that gives it the outcomes it met, returns what it returned in the interleaving. */
  lemma {:induction false} Projects(y: System, schedule: seq<Side>, side: Side, w: World)
    requires Interleave(y, schedule).Some?
    requires w.sess == Who(y, side).0 && Heard(y, schedule, side) <= w.net.script
    ensures AllOk(Called(y, schedule, side))
    ensures var end := Interleave(y, schedule).value;
            var (rs, w') := Finish(w, Who(y, side).1, Called(y, schedule, side));
            && Returns(y, schedule, side) <= rs
            && (Who(end, side).1.Halt? ==> Returns(y, schedule, side) == rs && w'.sess == Who(end, side).0)
    decreases |schedule|
  {
    hide Move, Begins, Hears, Act, Enter, Step, Returned, Deliveries;
    CalledOk(y, schedule, side);
    if schedule != [] {
      hide Exec, RunAll;
      UnfoldSchedule(y, schedule, side);
      hide Heard, Called, Returns, Interleave;
      var y', rest := Move(y, schedule[0]).value, schedule[1..];
      MoveProjects(y, schedule[0], side);
      CalledOk(y', rest, side);
      if schedule[0] != side {
        Assoc(Called(y', rest, side), [], []);
        Assoc(Returns(y', rest, side), [], []);
        Assoc(Heard(y', rest, side), [], []);
        Projects(y', rest, side, w);
      } else if Who(y, side).1.Halt? {
        var call := Begins(y, side)[0];
        Assoc(Heard(y', rest, side), [], []);
        FinishBegin(w, call, Called(y', rest, side));
        Projects(y', rest, side, Begin(w, call).0);
      } else {
        var c := Who(y, side).1;
        hide Finish, Who;
        Assoc(Called(y', rest, side), [], []);
        ScriptStep(w.net.script, Hears(y, side)[0], Heard(y', rest, side));
        StepIsAct(w, c);
        FinishStep(w, c, Called(y', rest, side));
        Projects(y', rest, side, Step(w, c).0);
      }
    }
  }

  lemma SenderMoveBooks(y: System, side: Side)
    requires Move(y, side).Some?
    ensures var y' := Move(y, side).value;
            && y.todo == (if side.Sender? then Begins(y, side) else []) + y'.todo
            && y'.results == y.results + if side.Sender? then Returned(y'.sc) else []
  {
    hide Act, Enter, Encode, Deliveries;
  }

  lemma {:induction false} SenderBooks(y: System, schedule: seq<Side>)
    requires Interleave(y, schedule).Some?
    ensures var end := Interleave(y, schedule).value;
            && y.todo == Called(y, schedule, Sender) + end.todo
            && end.results == y.results + Returns(y, schedule, Sender)
    decreases |schedule|
  {
    hide Move, Begins, Returned;
    if schedule == [] {
      Assoc(y.todo, [], []);
      Assoc(y.results, [], []);
    } else {
      UnfoldSchedule(y, schedule, Sender);
      hide Heard, Called, Returns, Interleave;
      var y' := Move(y, schedule[0]).value;
      SenderMoveBooks(y, schedule[0]);
      SenderBooks(y', schedule[1..]);
      var own := schedule[0] == Sender;
      var rest := Called(y', schedule[1..], Sender);
      Assoc(if own then Begins(y, Sender) else [], rest, Interleave(y, schedule).value.todo);
      Assoc(y.results, if own then Returned(y'.sc) else [], Returns(y', schedule[1..], Sender));
    }
  }

  /** In any interleaving, the publishes that the sender finished are the run of its calls against the outcomes that
      it met, alone, by return values and session; and so are the handlers that the receiver finished. */
  lemma EachSideRuns(y: System, pubs: seq<Call>, schedule: seq<Side>, w: World, v: World)
    requires Start(y, pubs) && Interleave(y, schedule).Some?
    requires w.sess == y.sender && Heard(y, schedule, Sender) <= w.net.script
    requires v.sess == y.receiver && Heard(y, schedule, Receiver) <= v.net.script
    ensures AllOk(pubs) && AllOk(Called(y, schedule, Receiver))
    ensures var end := Interleave(y, schedule).value;
            && 0 <= Begun(end, pubs) <= |pubs|
            && var (rs, w') := RunAll(w, pubs[..Begun(end, pubs)]);
               end.results <= rs && (end.sc.Halt? ==> end.results == rs && w'.sess == end.sender)
    ensures var end := Interleave(y, schedule).value;
            end.rc.Halt? ==> RunAll(v, Called(y, schedule, Receiver)).1.sess == end.receiver
  {
    hide Move, Interleave, Heard, Called, Returns, RunAll;
    SenderBooks(y, schedule);
    CalledOk(y, schedule, Receiver);
    Projects(y, schedule, Sender, w);
    Projects(y, schedule, Receiver, v);
    Assoc(Returns(y, schedule, Sender), [], []);
    assert pubs[..Begun(Interleave(y, schedule).value, pubs)] == Called(y, schedule, Sender);
  }
}
