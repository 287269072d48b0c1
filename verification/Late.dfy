/** The exchange when receives may fail: replies that nobody waited for arrive late and pass for the replies of
    later publishes, which do not compare ids. */
module LateReplies {
  import opened Bytes
  import opened Errors
  import opened Packets
  import opened ClientConfig
  import opened Protocol
  import opened Runs
  import opened Exchange
  import Invariants
  import RL = RemainingLength

  /** A move, or a receive that fails. */
  datatype Turn = Go(side: Side) | Miss(side: Side)

  /** The receive of a waiting side fails; the channels keep what they hold. */
  function MissMove(y: System, side: Side): Option<System> {
    var (s, c) := Who(y, side);
    if c.Halt? || !Wants(c).Await? then None
    else
      var (s', c') := Act(s, c, Outcome(-1, []));
      if side.Sender? then Some(y.(sender := s', sc := c', results := y.results + Returned(c')))
      else Some(y.(receiver := s', rc := c'))
  }

  function Take(y: System, t: Turn): Option<System> {
    if t.Go? then Move(y, t.side) else MissMove(y, t.side)
  }

  function Play(y: System, ts: seq<Turn>): Option<System>
    decreases |ts|
  {
    if ts == [] then Some(y)
    else match Take(y, ts[0])
      case None => None
      case Some(y') => Play(y', ts[1..])
  }

  /** What becomes of the packet that the receiver takes off its channel, if the turn takes one: whether it is handed
      on as a message. A receiver that waits for a PUBREL takes any packet for it. */
  function Fate(y: System, t: Turn): seq<bool> {
    if t != Go(Receiver) || y.toReceiver == [] then []
    else if y.rc.Halt? then [KindIn(y.toReceiver[0]) == PUBLISH]
    else if Wants(y.rc).Await? then [false]
    else []
  }

  function Fates(y: System, ts: seq<Turn>): seq<bool>
    requires Play(y, ts).Some?
    decreases |ts|
  {
    if ts == [] then [] else Fate(y, ts[0]) + Fates(Take(y, ts[0]).value, ts[1..])
  }

  /** A packet that is handed on adds its message to what was delivered; no other turn adds any. */
  lemma FateTells(y: System, t: Turn)
    requires Take(y, t).Some?
    ensures Fate(y, t) == [true] ==> PublishInBounds(y.toReceiver[0])
    ensures Take(y, t).value.delivered == y.delivered +
            if Fate(y, t) == [true] then
              [(ViewPublish(y.toReceiver[0]).vars.topic, ViewPublish(y.toReceiver[0]).content)]
            else []
  {
    Assoc(y.delivered, [], []);
    hide Act, Enter, Encode, ViewPublish, PublishInBounds;
  }

  // ---------------------------------------------------------------- the states of such an exchange

  /** The QoS with which a packet asks for an answer. */
  function Asks(f: bytes): twobit {
    if KindIn(f) == PUBLISH then FlagOf(f[0]).qos else 0
  }

  predicate Answers(c: Control) {
    c.Halt? || c.SendPuback? || c.SendPubrec? || c.AwaitPubrel? || c.SendPubcomp?
  }

  predicate Publishing(c: Control) {
    match c
    case Halt(_) => true
    case SendPublish(p, q) => CallOk(DoOnPublish(Encode(p))) && KindIn(Encode(p)) == PUBLISH && Asks(Encode(p)) == q
    case AwaitPuback => true
    case AwaitPubrec => true
    case SendPubrel(_) => true
    case AwaitPubcomp(_) => true
    case _ => false
  }

  predicate PubcompDue(rc: Control) {
    rc.AwaitPubrel? || rc.SendPubcomp?
  }

  /** After the PUBREC of an answer comes its PUBCOMP. */
  predicate Paired(toSender: seq<bytes>, rc: Control) {
    toSender != [] ==>
      && (KindIn(toSender[0]) == PUBREC ==>
            if |toSender| > 1 then KindIn(toSender[1]) == PUBCOMP else PubcompDue(rc))
      && Paired(toSender[1..], rc)
  }

  /** What holds in every state that is reached, whatever receives fail. */
  predicate Sane(y: System) {
    && y.sender.socket >= 0 && y.receiver.socket >= 0
    && Sendables(y.sender.config, y.todo)
    && Publishing(y.sc) && Answers(y.rc)
    && Takeable(y.toReceiver) && Acks(y.toSender)
    && Paired(y.toSender, y.rc)
  }

  predicate Sendables(c: Config, todo: seq<Call>) {
    Publishes(todo) && AllCodable(c, todo)
  }

  predicate Takeable(frames: seq<bytes>) {
    forall f :: f in frames ==> CallOk(DoOnPublish(f))
  }

  predicate Acks(frames: seq<bytes>) {
    forall f :: f in frames ==> |f| == 4
  }

  /** The channels and the list of publishes stay in order when they lose their first element or gain one. */
  lemma SaneSeqs(c: Config, todo: seq<Call>, frames: seq<bytes>, acks: seq<bytes>)
    ensures Sendables(c, todo) && todo != [] ==> Sendables(c, todo[1..])
    ensures Takeable(frames) && frames != [] ==> CallOk(DoOnPublish(frames[0])) && Takeable(frames[1..])
    ensures forall f :: Takeable(frames) && CallOk(DoOnPublish(f)) ==> Takeable(frames + [f])
    ensures Acks(acks) && acks != [] ==> |acks[0]| == 4 && Acks(acks[1..])
    ensures forall f :: Acks(acks) && |f| == 4 ==> Acks(acks + [f])
  {
    hide CallOk, Codable;
  }

  /** The type of the first reply that the packets on their way will bring, if no more are sent. */
  function FirstOf(rc: Control, frames: seq<bytes>): Option<int> {
    match rc
    case SendPuback(_) => Some(PUBACK)
    case SendPubrec(_) => Some(PUBREC)
    case SendPubcomp(_) => Some(PUBCOMP)
    case AwaitPubrel => if frames == [] then None else Some(PUBCOMP)
    case _ =>
      if frames == [] then None
      else if Asks(frames[0]) == 1 then Some(PUBACK)
      else if Asks(frames[0]) == 2 then Some(PUBREC)
      else FirstOf(rc, frames[1..])
  }

  function NextReply(y: System): Option<int> {
    if y.toSender != [] then Some(KindIn(y.toSender[0])) else FirstOf(y.rc, y.toReceiver)
  }

  /** The first reply that a publish waits for. */
  function Expected(q: QoS): int {
    if q == 1 then PUBACK else PUBREC
  }

  // ---------------------------------------------------------------- one turn

  lemma ActMisses(s: Sess, c: Control)
    requires !c.Halt? && Wants(c).Await? && s.socket >= 0
    ensures Act(s, c, Outcome(-1, [])) == Next(s, c, -1, Wants(c).stale)
  {
    hide Next, Encode;
  }

  lemma PublishAsks(s: Sess, call: Call)
    requires call.DoPublish? && CallOk(call) && Codable(s.config, call)
    ensures var q := Effective(s.config, call.qos);
            Publishing(SendPublish(PublishPacket(s, call.topic, call.content, q, call.retain), q))
  {
    PublishSeen(s, call);
    hide Encode, PublishPacket, ViewPublish, Codable;
  }

  lemma NextBegins(y: System)
    requires Sane(y) && y.sc.Halt? && y.todo != []
    ensures var y' := Take(y, Go(Sender));
            && y'.Some? && y'.value.sc.SendPublish? && y'.value.sc.qos == Q(y, y.todo[0]) && Publishing(y'.value.sc)
            && y'.value == y.(todo := y.todo[1..], sender := TakeId(y.sender), sc := y'.value.sc)
  {
    hide Encode, PublishPacket, Codable, Publishing;
    assert CallOk(y.todo[0]) && Codable(y.sender.config, y.todo[0]);
    PublishAsks(y.sender, y.todo[0]);
    Assoc(y.results, [], []);
  }

  lemma PublishGoes(y: System)
    requires Sane(y) && y.sc.SendPublish?
    ensures var c := if y.sc.qos == 0 then Halt(E_NONE) else if y.sc.qos == 1 then AwaitPuback else AwaitPubrec;
            Take(y, Go(Sender))
            == Some(y.(sc := c, toReceiver := y.toReceiver + [Encode(y.sc.p)], results := y.results + Returned(c)))
  {
    hide Encode, CallOk;
    ActSends(y.sender, y.sc);
    hide Act;
  }

  lemma PubrelGoes(y: System)
    requires Sane(y) && y.sc.SendPubrel?
    ensures var f := Encode(Ack(PUBREL, y.sc.id));
            && Take(y, Go(Sender)) == Some(y.(sc := AwaitPubcomp(y.sc.id), toReceiver := y.toReceiver + [f]))
            && CallOk(DoOnPublish(f)) && Asks(f) == 0
  {
    hide Encode, PublishInBounds;
    hide Act;
    AckSeen(PUBREL, y.sc.id);
    ActSends(y.sender, y.sc);
    assert y.results + [] == y.results;
  }

  predicate Waiting(c: Control) {
    c.AwaitPuback? || c.AwaitPubrec? || c.AwaitPubcomp?
  }

  lemma ReplyComes(y: System)
    requires Sane(y) && Waiting(y.sc) && y.toSender != []
    ensures var c := Next(y.sender, y.sc, 4, y.toSender[0]).1;
            Take(y, Go(Sender)) == Some(y.(sc := c, toSender := y.toSender[1..], results := y.results + Returned(c)))
  {
    hide Act, Encode, CallOk;
    ActAwaits(y.sender, y.sc, y.toSender[0]);
    ReplyBuffer(y.sc);
  }

  lemma ReplyFails(y: System)
    requires Sane(y) && Waiting(y.sc)
    ensures var c := Next(y.sender, y.sc, -1, []).1;
            && Take(y, Miss(Sender)) == Some(y.(sc := c, results := y.results + Returned(c)))
            && c.Halt? && c.ret < 0
  {
    hide Encode, Sendables, Takeable, Acks, Paired, Publishing;
    ActMisses(y.sender, y.sc);
    hide Act;
  }

  lemma FrameTaken(y: System)
    requires Sane(y) && y.rc.Halt? && y.toReceiver != []
    ensures var y', q := Take(y, Go(Receiver)), Asks(y.toReceiver[0]);
            && y'.Some?
            && y'.value == y.(receiver := y'.value.receiver, rc := y'.value.rc, toReceiver := y.toReceiver[1..],
                              delivered := y'.value.delivered)
            && y'.value.receiver.socket == y.receiver.socket
            && var c := y'.value.rc;
               if q == 1 then c.SendPuback? else if q == 2 then c.SendPubrec? else c.Halt?
  {
    assert y.toReceiver[0] in y.toReceiver;
    hide PublishInBounds, ViewPublish;
  }

  function KindOfAnswer(c: Control): nibble {
    if c.SendPuback? then PUBACK else if c.SendPubrec? then PUBREC else PUBCOMP
  }

  lemma AnswerAct(s: Sess, c: Control)
    requires s.socket >= 0 && (c.SendPuback? || c.SendPubrec? || c.SendPubcomp?)
    ensures var ack := Encode(Ack(KindOfAnswer(c), c.id));
            && Wants(c) == Transmit(Ack(KindOfAnswer(c), c.id))
            && Act(s, c, Outcome(|ack|, [])) == (s, if c.SendPubrec? then AwaitPubrel else Halt(E_NONE))
            && IsAck(ack, KindOfAnswer(c))
  {
    hide Act, Encode, IsAck;
    AckSeen(KindOfAnswer(c), c.id);
    ActSends(s, c);
  }

  lemma AnswerGoes(y: System)
    requires Sane(y) && (y.rc.SendPuback? || y.rc.SendPubrec? || y.rc.SendPubcomp?)
    ensures var ack := Encode(Ack(KindOfAnswer(y.rc), y.rc.id));
            && Take(y, Go(Receiver)) == Some(y.(rc := if y.rc.SendPubrec? then AwaitPubrel else Halt(E_NONE),
                                                toSender := y.toSender + [ack]))
            && IsAck(ack, KindOfAnswer(y.rc))
  {
    hide Act, Encode, IsAck, Wants, Sendables, Takeable, Acks, Paired, Publishing, KindOfAnswer;
    AnswerAct(y.receiver, y.rc);
  }

  lemma PubrelComes(y: System)
    requires Sane(y) && y.rc.AwaitPubrel? && y.toReceiver != []
    ensures var s := y.receiver;
            Take(y, Go(Receiver))
            == Some(y.(receiver := TakeId(s), rc := SendPubcomp(s.nextId), toReceiver := y.toReceiver[1..]))
  {
    hide Encode, Sendables, Takeable, Acks, Paired, Publishing, TakeId;
    ActAwaits(y.receiver, y.rc, y.toReceiver[0]);
    hide Act;
  }

  lemma PubrelFails(y: System)
    requires Sane(y) && y.rc.AwaitPubrel?
    ensures var s := y.receiver;
            Take(y, Miss(Receiver)) == Some(y.(receiver := TakeId(s), rc := SendPubcomp(s.nextId)))
  {
    hide Encode, Sendables, Takeable, Acks, Paired, Publishing, TakeId;
    ActMisses(y.receiver, y.rc);
    hide Act;
  }

  /** There are no other turns. */
  lemma TurnCases(y: System, t: Turn)
    requires Sane(y) && Take(y, t).Some?
    ensures t == Go(Sender) ==> if y.sc.Halt? then y.todo != [] else Waiting(y.sc) ==> y.toSender != []
    ensures t == Miss(Sender) ==> Waiting(y.sc)
    ensures t == Go(Receiver) && (y.rc.Halt? || y.rc.AwaitPubrel?) ==> y.toReceiver != []
    ensures t == Miss(Receiver) ==> y.rc.AwaitPubrel?
  {
    hide Act, Encode, CallOk, Enter;
  }

  // ---------------------------------------------------------------- every state that is reached

  /** The receiver's control point matters only while a PUBCOMP is due. */
  lemma {:induction false} PairedOther(toSender: seq<bytes>, rc: Control, rc': Control)
    requires Paired(toSender, rc) && (PubcompDue(rc) ==> PubcompDue(rc'))
    ensures Paired(toSender, rc')
  {
    hide KindIn, PubcompDue;
    if toSender != [] {
      PairedOther(toSender[1..], rc, rc');
    }
  }

  lemma {:induction false} PairedAnswer(toSender: seq<bytes>, rc: Control, ack: bytes)
    requires Paired(toSender, rc) && (rc.SendPuback? || rc.SendPubrec? || rc.SendPubcomp?)
    requires IsAck(ack, KindOfAnswer(rc))
    ensures Paired(toSender + [ack], if rc.SendPubrec? then AwaitPubrel else Halt(E_NONE))
  {
    hide KindIn;
    if toSender != [] {
      assert (toSender + [ack])[1..] == toSender[1..] + [ack];
      PairedAnswer(toSender[1..], rc, ack);
    }
  }

  /** Where a reply of four bytes leads. */
  lemma ReplyLeads(s: Sess, c: Control, f: bytes)
    requires Waiting(c)
    ensures var c' := Next(s, c, 4, f).1;
            && Publishing(c')
            && if c.AwaitPubrec? && KindIn(f) == PUBREC then c' == SendPubrel(IdIn(f))
               else && c'.Halt? && c'.ret <= E_NONE
                    && (c'.ret == E_NONE <==> (c.AwaitPuback? && KindIn(f) == PUBACK)
                                              || (c.AwaitPubcomp? && KindIn(f) == PUBCOMP))
  {
    hide KindIn, IdIn;
  }

  lemma PairedTail(toSender: seq<bytes>, rc: Control)
    requires toSender != [] && Paired(toSender, rc)
    ensures Paired(toSender[1..], rc)
  {
    hide KindIn;
  }

  lemma ReplySane(y: System)
    requires Sane(y) && Waiting(y.sc) && y.toSender != []
    ensures Take(y, Go(Sender)).Some? && Sane(Take(y, Go(Sender)).value)
  {
    hide Take, Sendables, Takeable, Acks, Encode, Paired, Next, Publishing;
    ReplyComes(y);
    ReplyLeads(y.sender, y.sc, y.toSender[0]);
    SaneSeqs(y.sender.config, y.todo, y.toReceiver, y.toSender);
    PairedTail(y.toSender, y.rc);
  }

  lemma BeginSane(y: System)
    requires Sane(y) && y.sc.Halt? && y.todo != []
    ensures Take(y, Go(Sender)).Some? && Sane(Take(y, Go(Sender)).value)
  {
    hide Take, Sendables, Takeable, Acks, Paired, Publishing;
    NextBegins(y);
    SaneSeqs(y.sender.config, y.todo, [], []);
  }

  lemma PublishSane(y: System)
    requires Sane(y) && y.sc.SendPublish?
    ensures Take(y, Go(Sender)).Some? && Sane(Take(y, Go(Sender)).value)
  {
    hide Take, Encode, CallOk, Sendables, Takeable, Acks, Paired, KindIn, Asks;
    PublishGoes(y);
    SaneSeqs(y.sender.config, y.todo, y.toReceiver, y.toSender);
  }

  lemma PubrelSane(y: System)
    requires Sane(y) && y.sc.SendPubrel?
    ensures Take(y, Go(Sender)).Some? && Sane(Take(y, Go(Sender)).value)
  {
    hide Take, Encode, CallOk, Sendables, Takeable, Acks, Paired, KindIn, Asks;
    PubrelGoes(y);
    SaneSeqs(y.sender.config, y.todo, y.toReceiver, y.toSender);
  }

  lemma SenderKeepsSane(y: System, t: Turn)
    requires Sane(y) && t.side.Sender? && Take(y, t).Some?
    ensures Sane(Take(y, t).value)
  {
    TurnCases(y, t);
    hide Take, Encode, CallOk, Sendables, Takeable, Acks, Paired, KindIn, Asks, IdIn, Next;
    if t.Miss? {
      ReplyFails(y);
    } else if y.sc.Halt? {
      BeginSane(y);
    } else if Waiting(y.sc) {
      ReplySane(y);
    } else if y.sc.SendPublish? {
      PublishSane(y);
    } else {
      PubrelSane(y);
    }
  }

  /** Whatever the receiver does but answer. */
  lemma ReceiverSane(y: System, y': System)
    requires Sane(y)
    requires y' == y.(receiver := y'.receiver, rc := y'.rc, toReceiver := y'.toReceiver, delivered := y'.delivered)
    requires y'.receiver.socket == y.receiver.socket && Answers(y'.rc) && (PubcompDue(y.rc) ==> PubcompDue(y'.rc))
    requires y'.toReceiver == y.toReceiver || (y.toReceiver != [] && y'.toReceiver == y.toReceiver[1..])
    ensures Sane(y')
  {
    hide Sendables, Takeable, Acks, Paired, Publishing;
    PairedOther(y.toSender, y.rc, y'.rc);
    SaneSeqs(y.sender.config, [], y.toReceiver, []);
  }

  lemma AnswerSane(y: System)
    requires Sane(y) && (y.rc.SendPuback? || y.rc.SendPubrec? || y.rc.SendPubcomp?)
    ensures Take(y, Go(Receiver)).Some? && Sane(Take(y, Go(Receiver)).value)
  {
    hide Take, Encode, KindIn, Sendables, Takeable, Acks, Paired, Publishing;
    AnswerGoes(y);
    var ack := Encode(Ack(KindOfAnswer(y.rc), y.rc.id));
    PairedAnswer(y.toSender, y.rc, ack);
    SaneSeqs(y.sender.config, [], [], y.toSender);
  }

  lemma ReceiverKeepsSane(y: System, t: Turn)
    requires Sane(y) && t.side.Receiver? && Take(y, t).Some?
    ensures Sane(Take(y, t).value)
  {
    TurnCases(y, t);
    hide Take, Sendables, Takeable, Acks, Paired, Publishing, Asks;
    if t.Miss? {
      PubrelFails(y);
      ReceiverSane(y, Take(y, t).value);
    } else if y.rc.Halt? {
      FrameTaken(y);
      ReceiverSane(y, Take(y, t).value);
    } else if y.rc.AwaitPubrel? {
      PubrelComes(y);
      ReceiverSane(y, Take(y, t).value);
    } else {
      AnswerSane(y);
    }
  }

  lemma {:induction false} PlayKeepsSane(y: System, ts: seq<Turn>)
    requires Sane(y) && Play(y, ts).Some?
    ensures Sane(Play(y, ts).value)
    decreases |ts|
  {
    if ts != [] {
      hide Sane, Take;
      if ts[0].side.Sender? {
        SenderKeepsSane(y, ts[0]);
      } else {
        ReceiverKeepsSane(y, ts[0]);
      }
      PlayKeepsSane(Take(y, ts[0]).value, ts[1..]);
    }
  }

  lemma StartSane(y: System, pubs: seq<Call>)
    requires Start(y, pubs)
    ensures Sane(y)
  {
    hide CallOk, Codable;
  }

  // ---------------------------------------------------------------- when success means delivery

  /** A QoS 1 publish takes a PUBACK of any id for its own. */
  lemma PubackIdIgnored(w: World, call: Call, id: uint16)
    requires CallOk(call) && call.DoPublish? && Effective(w.sess.config, call.qos) == 1 && w.sess.socket >= 0
    requires Nth(w, 0).ret >= 0 && Nth(w, 1).ret >= 0 && Nth(w, 1).data == Encode(Ack(PUBACK, id))
    ensures Run(w, call).0 == E_NONE
  {
    AckSeen(PUBACK, id);
    assert Overlay(RL.Zeros(4), Encode(Ack(PUBACK, id))) == Encode(Ack(PUBACK, id));
    hide Run, Encode;
    Invariants.AnsweredIff(w, call);
  }

  /** The publish about to be sent returns E_NONE in this play although its message was not handed on by then,
      or ever: on the channel, the packet comes behind those that are there already. */
  predicate Deceived(y: System, ts: seq<Turn>) {
    && Play(y, ts).Some?
    && Play(y, ts).value.results == y.results + [E_NONE]
    && !Holds(Fates(y, ts), |y.toReceiver|)
  }

  lemma {:induction false} ResultsGrow(y: System, ts: seq<Turn>)
    requires Play(y, ts).Some?
    ensures y.results <= Play(y, ts).value.results
    decreases |ts|
  {
    if ts != [] {
      TakeResults(y, ts[0]);
      hide Take;
      ResultsGrow(Take(y, ts[0]).value, ts[1..]);
    }
  }

  lemma TakeResults(y: System, t: Turn)
    requires Take(y, t).Some?
    ensures y.results <= Take(y, t).value.results
  {
    hide Act, Enter, Encode, Deliveries, CallOk;
  }

  /** The call has ended with an error. */
  predicate HasFailed(y: System, y': System) {
    |y.results| < |y'.results| && y.results <= y'.results && y'.results[|y.results|] < 0
  }

  lemma FailedForGood(y: System, y': System, rs: seq<int>)
    requires HasFailed(y, y') && y'.results <= rs
    ensures rs != y.results + [E_NONE]
  {
    assert rs[|y.results|] < 0;
  }

  /** The sender is between sending this publish and its first reply. */
  predicate InCall(c: Control, q: QoS) {
    (q == 1 && c.AwaitPuback?) || (q == 2 && c.AwaitPubrec?) || (q > 0 && c.SendPublish? && c.qos == q)
  }

  /** A reply that is not the expected one comes first: this publish cannot return E_NONE any more. */
  predicate Doomed(y: System, q: QoS) {
    && Sane(y) && InCall(y.sc, q)
    && if y.toSender != [] then KindIn(y.toSender[0]) != Expected(q) else y.rc.SendPubcomp?
  }

  lemma DoomedTurn(y: System, q: QoS, t: Turn)
    requires Doomed(y, q) && Take(y, t).Some?
    ensures var y' := Take(y, t).value;
            || (Doomed(y', q) && y'.results == y.results)
            || HasFailed(y, y')
  {
    hide Take, Sane, Encode, KindIn, IdIn, Asks;
    TurnCases(y, t);
    ReceiverIs(y);
    if t.side.Sender? {
      SenderKeepsSane(y, t);
    } else {
      ReceiverKeepsSane(y, t);
    }
    match t
    case Go(Sender) =>
      if y.sc.SendPublish? {
        PublishGoes(y);
        assert y.results + [] == y.results;
      } else {
        ReplyComes(y);
        ReplyLeads(y.sender, y.sc, y.toSender[0]);
      }
    case Miss(Sender) => ReplyFails(y);
    case Go(Receiver) =>
      if y.rc.Halt? {
        FrameTaken(y);
      } else if y.rc.AwaitPubrel? {
        PubrelComes(y);
      } else {
        AnswerGoes(y);
      }
    case Miss(Receiver) => PubrelFails(y);
  }

  lemma {:induction false} DoomedFails(y: System, q: QoS, ts: seq<Turn>)
    requires Doomed(y, q) && Play(y, ts).Some?
    ensures Play(y, ts).value.results != y.results + [E_NONE]
    decreases |ts|
  {
    if ts != [] {
      hide Take, Doomed;
      DoomedTurn(y, q, ts[0]);
      var y' := Take(y, ts[0]).value;
      if y'.results == y.results {
        DoomedFails(y', q, ts[1..]);
      } else {
        ResultsGrow(y', ts[1..]);
        FailedForGood(y, y', Play(y', ts[1..]).value.results);
      }
    } else {
      assert |y.results + [E_NONE]| == |y.results| + 1;
    }
  }

  /** Nothing is decided yet: no reply has come, none that is on its way is the expected one, and the packet of this
      publish is still to be taken, behind `ahead` others. */
  predicate Undecided(y: System, q: QoS, ahead: nat) {
    && Sane(y) && InCall(y.sc, q) && y.toSender == [] && !y.rc.SendPubcomp?
    && (if y.sc.SendPublish? then |y.toReceiver| == ahead
        else |y.toReceiver| == ahead + 1 && Asks(y.toReceiver[ahead]) == q)
    && FirstOf(y.rc, y.toReceiver[..ahead]) != Some(Expected(q))
  }

  lemma FirstOfTail(rc: Control, frames: seq<bytes>, q: QoS)
    requires rc.Halt? && frames != [] && q > 0 && FirstOf(rc, frames) != Some(Expected(q))
    ensures Asks(frames[0]) == 0 || Asks(frames[0]) == 3 ==> FirstOf(rc, frames[1..]) != Some(Expected(q))
    ensures Asks(frames[0]) == 1 ==> q == 2
    ensures Asks(frames[0]) == 2 ==> q == 1
  {
  }

  lemma {:induction false} FirstOfHalt(rc: Control, rc': Control, frames: seq<bytes>)
    requires rc.Halt? && rc'.Halt?
    ensures FirstOf(rc, frames) == FirstOf(rc', frames)
  {
    if frames != [] {
      FirstOfHalt(rc, rc', frames[1..]);
    }
  }

  lemma FirstAhead(rc: Control, rc': Control, frames: seq<bytes>, q: QoS)
    requires rc.Halt? && frames != [] && q > 0 && FirstOf(rc, frames) != Some(Expected(q))
    requires var a := Asks(frames[0]);
             if a == 1 then rc'.SendPuback? else if a == 2 then rc'.SendPubrec? else rc'.Halt?
    ensures FirstOf(rc', frames[1..]) != Some(Expected(q)) && !rc'.SendPubcomp?
  {
    hide Asks;
    FirstOfTail(rc, frames, q);
    if rc'.Halt? {
      FirstOfHalt(rc, rc', frames[1..]);
    }
  }

  /** The receiver takes a packet that lies ahead. */
  lemma TakesAhead(y: System, q: QoS, ahead: nat)
    requires Undecided(y, q, ahead) && y.rc.Halt? && ahead > 0
    ensures var y' := Take(y, Go(Receiver));
            y'.Some? && Undecided(y'.value, q, ahead - 1) && y'.value.results == y.results
  {
    FrameTaken(y);
    ReceiverKeepsSane(y, Go(Receiver));
    hide Take, Sane, Asks, FirstOf;
    var y' := Take(y, Go(Receiver)).value;
    var frames := y.toReceiver[..ahead];
    FramesTail(y.toReceiver, ahead);
    FirstAhead(y.rc, y'.rc, frames, q);
  }

  lemma FramesTail(frames: seq<bytes>, n: nat)
    requires 0 < n <= |frames|
    ensures frames[..n] != [] && frames[..n][0] == frames[0] && frames[..n][1..] == frames[1..][..n - 1]
    ensures n < |frames| ==> frames[1..][n - 1] == frames[n]
  {
  }

  /** What one turn makes of an undecided state. */
  predicate Decides(y: System, q: QoS, ahead: nat, t: Turn)
    requires Take(y, t).Some?
  {
    var y' := Take(y, t).value;
    || (y'.results == y.results && Doomed(y', q))
    || HasFailed(y, y')
    || (y'.results == y.results && Fate(y, t) == [] && Undecided(y', q, ahead))
    || (y'.results == y.results && ahead > 0 && |Fate(y, t)| == 1 && Undecided(y', q, ahead - 1))
    || (ahead == 0 && Fate(y, t) == [true])
  }

  lemma PublishingAsks(y: System)
    requires Sane(y) && y.sc.SendPublish?
    ensures Asks(Encode(y.sc.p)) == y.sc.qos
  {
    hide Asks, Encode, CallOk;
  }

  lemma UndecidedPublish(y: System, q: QoS, ahead: nat)
    requires Undecided(y, q, ahead) && y.sc.SendPublish?
    ensures var y' := Take(y, Go(Sender));
            y'.Some? && Undecided(y'.value, q, ahead) && y'.value.results == y.results
  {
    hide Take, Sane, Encode, KindIn, IdIn, Asks, FirstOf;
    PublishGoes(y);
    SenderKeepsSane(y, Go(Sender));
    var f := Encode(y.sc.p);
    PublishingAsks(y);
    Assoc(y.results, [], []);
    assert (y.toReceiver + [f])[..ahead] == y.toReceiver[..ahead];
  }

  lemma UndecidedSender(y: System, q: QoS, ahead: nat, t: Turn)
    requires Undecided(y, q, ahead) && t.side.Sender? && Take(y, t).Some?
    ensures Decides(y, q, ahead, t)
  {
    hide Take, Sane, Encode, KindIn, IdIn, FirstOf, Asks, Next;
    TurnCases(y, t);
    if t.Miss? {
      ReplyFails(y);
    } else {
      UndecidedPublish(y, q, ahead);
    }
  }

  lemma UndecidedReceiver(y: System, q: QoS, ahead: nat, t: Turn)
    requires Undecided(y, q, ahead) && t.side.Receiver? && Take(y, t).Some?
    ensures Decides(y, q, ahead, t)
  {
    hide Take, Sane, Encode, KindIn, IdIn, Next;
    TurnCases(y, t);
    ReceiverIs(y);
    ReceiverKeepsSane(y, t);
    if t.Miss? {
      PubrelFails(y);
    } else if y.rc.Halt? {
      if ahead > 0 {
        TakesAhead(y, q, ahead);
      }
    } else if y.rc.AwaitPubrel? {
      PubrelComes(y);
    } else {
      AnswerGoes(y);
    }
  }

  lemma PlayUnfold(y: System, ts: seq<Turn>)
    requires ts != [] && Play(y, ts).Some?
    ensures Take(y, ts[0]).Some? && Play(y, ts) == Play(Take(y, ts[0]).value, ts[1..])
    ensures Fates(y, ts) == Fate(y, ts[0]) + Fates(Take(y, ts[0]).value, ts[1..])
    ensures y.results <= Take(y, ts[0]).value.results <= Play(y, ts).value.results
  {
    TakeResults(y, ts[0]);
    ResultsGrow(Take(y, ts[0]).value, ts[1..]);
    hide Take, Fate;
  }

  lemma PlayEmpty(y: System)
    ensures Play(y, []) == Some(y) && Fates(y, []) == []
    ensures y.results != y.results + [E_NONE]
  {
    assert |y.results + [E_NONE]| == |y.results| + 1;
  }

  /** The entry at `k` is true. */
  predicate Holds(a: seq<bool>, k: nat) {
    k < |a| && a[k]
  }

  lemma HoldsLater(a: seq<bool>, b: seq<bool>, k: nat)
    ensures a == [] ==> (Holds(a + b, k) <==> Holds(b, k))
    ensures |a| == 1 && k > 0 ==> (Holds(a + b, k) <==> Holds(b, k - 1))
    ensures a == [true] && k == 0 ==> Holds(a + b, k)
  {
  }

  /** From there on the publish returns E_NONE only after its message was handed on. */
  lemma {:induction false} UndecidedDelivers(y: System, q: QoS, ahead: nat, ts: seq<Turn>)
    requires Undecided(y, q, ahead) && Play(y, ts).Some?
    requires Play(y, ts).value.results == y.results + [E_NONE]
    ensures Holds(Fates(y, ts), ahead)
    decreases |ts|
  {
    hide Play, Fates, Take, Doomed, Undecided, Fate, HasFailed, Holds;
    if ts == [] {
      PlayEmpty(y);
    } else {
      PlayUnfold(y, ts);
      var t, y' := ts[0], Take(y, ts[0]).value;
      if t.side.Sender? {
        UndecidedSender(y, q, ahead, t);
      } else {
        UndecidedReceiver(y, q, ahead, t);
      }
      HoldsLater(Fate(y, t), Fates(y', ts[1..]), ahead);
      if y'.results == y.results && Doomed(y', q) {
        DoomedFails(y', q, ts[1..]);
      } else if y'.results == y.results && Fate(y, t) == [] && Undecided(y', q, ahead) {
        UndecidedDelivers(y', q, ahead, ts[1..]);
      } else if y'.results == y.results && ahead > 0 && |Fate(y, t)| == 1 && Undecided(y', q, ahead - 1) {
        UndecidedDelivers(y', q, ahead - 1, ts[1..]);
      } else if HasFailed(y, y') {
        FailedForGood(y, y', Play(y', ts[1..]).value.results);
      }
    }
  }

  /** A publish about to be sent that asks for an answer. */
  predicate Asking(y: System) {
    Sane(y) && y.sc.SendPublish? && (y.sc.qos == 1 || y.sc.qos == 2)
  }

  lemma NotDeceived(y: System, ts: seq<Turn>)
    requires Asking(y) && NextReply(y) != Some(Expected(y.sc.qos))
    ensures !Deceived(y, ts)
  {
    hide Play, Fates, Sane, KindIn;
    var q, ahead := y.sc.qos, |y.toReceiver|;
    if Play(y, ts).Some? && Play(y, ts).value.results == y.results + [E_NONE] {
      assert y.toReceiver[..ahead] == y.toReceiver;
      if y.toSender != [] || y.rc.SendPubcomp? {
        DoomedFails(y, q, ts);
      } else {
        UndecidedDelivers(y, q, ahead, ts);
      }
    }
  }

  // ---------------------------------------------------------------- how a late reply deceives

  lemma {:induction false} PlayConcat(y: System, a: seq<Turn>, b: seq<Turn>)
    requires Play(y, a).Some?
    ensures Play(y, a + b) == Play(Play(y, a).value, b)
    ensures Play(y, a + b).Some? ==> Fates(y, a + b) == Fates(y, a) + Fates(Play(y, a).value, b)
    decreases |a|
  {
    hide Take, Fate;
    if a == [] {
      Assoc(b, [], []);
    } else {
      HeadTail(a);
      assert (a + b)[0] == a[0] && (a + b)[1..] == a[1..] + b;
      PlayConcat(Take(y, a[0]).value, a[1..], b);
    }
  }

  lemma PlayOne(y: System, t: Turn, ts: seq<Turn>)
    requires Take(y, t).Some?
    ensures Play(y, [t] + ts) == Play(Take(y, t).value, ts)
    ensures Play(y, [t] + ts).Some? ==> Fates(y, [t] + ts) == Fate(y, t) + Fates(Take(y, t).value, ts)
  {
    hide Take, Fate;
    assert ([t] + ts)[1..] == ts;
  }

  /** The receiver goes on until the first reply, which is already on its way, has arrived. */
  lemma {:induction false} Fetch(y: System, e: int) returns (ts: seq<Turn>)
    requires Sane(y) && NextReply(y) == Some(e) && e != PUBCOMP
    ensures Play(y, ts).Some?
    ensures var y' := Play(y, ts).value;
            && Sane(y') && y'.sc == y.sc && y'.results == y.results
            && y'.toSender != [] && KindIn(y'.toSender[0]) == e
            && |Fates(y, ts)| <= |y.toReceiver|
    decreases |y.toReceiver|
  {
    hide Take, Sane, Encode, KindIn, Asks, Next;
    ts := [];
    if y.toSender == [] {
      ReceiverIs(y);
      if y.rc.Halt? {
        FrameTaken(y);
        ReceiverKeepsSane(y, Go(Receiver));
        var y' := Take(y, Go(Receiver)).value;
        if y'.rc.Halt? {
          FirstOfHalt(y.rc, y'.rc, y'.toReceiver);
        }
        ts := Fetch(y', e);
        PlayOne(y, Go(Receiver), ts);
      } else {
        AnswerGoes(y);
        ReceiverKeepsSane(y, Go(Receiver));
        PlayOne(y, Go(Receiver), ts);
      }
      ts := [Go(Receiver)] + ts;
    }
  }

  lemma ReceiverIs(y: System)
    requires Sane(y)
    ensures Answers(y.rc)
  {
  }

  /** The end of a QoS 2 publish whose PUBCOMP is there or is due. */
  lemma PubcompEnds(y: System) returns (ts: seq<Turn>)
    requires Sane(y) && y.sc.AwaitPubcomp?
    requires if y.toSender != [] then KindIn(y.toSender[0]) == PUBCOMP else PubcompDue(y.rc)
    ensures Play(y, ts).Some? && Play(y, ts).value.results == y.results + [E_NONE] && Fates(y, ts) == []
    decreases if y.toSender != [] then 0 else if y.rc.SendPubcomp? then 1 else 2
  {
    hide Take, Sane, Encode, KindIn, Next;
    if y.toSender != [] {
      ReplyComes(y);
      ReplyLeads(y.sender, y.sc, y.toSender[0]);
      ts := [];
      PlayOne(y, Go(Sender), ts);
      ts := [Go(Sender)] + ts;
    } else {
      var t := if y.rc.SendPubcomp? then Go(Receiver) else Miss(Receiver);
      if y.rc.SendPubcomp? {
        AnswerGoes(y);
      } else {
        PubrelFails(y);
      }
      ReceiverKeepsSane(y, t);
      ts := PubcompEnds(Take(y, t).value);
      PlayOne(y, t, ts);
      ts := [t] + ts;
    }
  }

  lemma PairedHead(y: System)
    requires Sane(y) && y.toSender != [] && KindIn(y.toSender[0]) == PUBREC
    ensures if y.toSender[1..] != [] then KindIn(y.toSender[1..][0]) == PUBCOMP else PubcompDue(y.rc)
  {
    hide KindIn;
  }

  /** The end of a QoS 2 publish whose PUBREC is there: nothing more is needed of the other side's channel. */
  lemma PubrecEnds(y: System) returns (ts: seq<Turn>)
    requires Sane(y) && y.sc.AwaitPubrec? && y.toSender != [] && KindIn(y.toSender[0]) == PUBREC
    ensures Play(y, ts).Some? && Play(y, ts).value.results == y.results + [E_NONE] && Fates(y, ts) == []
  {
    hide Take, Sane, Encode, KindIn, Next;
    PairedHead(y);
    ReplyComes(y);
    SenderKeepsSane(y, Go(Sender));
    ReplyLeads(y.sender, y.sc, y.toSender[0]);
    Assoc(y.results, [], []);
    var y1 := Take(y, Go(Sender)).value;
    PubrelGoes(y1);
    SenderKeepsSane(y1, Go(Sender));
    ts := PubcompEnds(Take(y1, Go(Sender)).value);
    PlayOne(y1, Go(Sender), ts);
    ts := [Go(Sender)] + ts;
    PlayOne(y, Go(Sender), ts);
    ts := [Go(Sender)] + ts;
  }

  /** If the expected reply is there already, the publish ends well without the receiver's taking its packet. */
  lemma ReplyEnds(y: System) returns (ts: seq<Turn>)
    requires Asking(y) && y.toSender != [] && KindIn(y.toSender[0]) == Expected(y.sc.qos)
    ensures Play(y, ts).Some? && Play(y, ts).value.results == y.results + [E_NONE] && Fates(y, ts) == []
  {
    hide Take, Sane, Encode, KindIn, Next;
    PublishGoes(y);
    SenderKeepsSane(y, Go(Sender));
    Assoc(y.results, [], []);
    var y1 := Take(y, Go(Sender)).value;
    if y.sc.qos == 1 {
      ReplyComes(y1);
      ReplyLeads(y1.sender, y1.sc, y1.toSender[0]);
      ts := [];
      PlayOne(y1, Go(Sender), ts);
      ts := [Go(Sender)] + ts;
    } else {
      ts := PubrecEnds(y1);
    }
    PlayOne(y, Go(Sender), ts);
    ts := [Go(Sender)] + ts;
  }

  lemma Deceive(y: System) returns (ts: seq<Turn>)
    requires Asking(y) && NextReply(y) == Some(Expected(y.sc.qos))
    ensures Deceived(y, ts)
  {
    hide Take, Sane, KindIn, Play, Fates;
    ts := Fetch(y, Expected(y.sc.qos));
    var more := ReplyEnds(Play(y, ts).value);
    PlayConcat(y, ts, more);
    ts := ts + more;
  }

  /** When E_NONE may be believed: a publish that asks for an answer can return E_NONE without its message having
      been handed on, exactly when the first reply on its way, left over from an earlier publish, is of the type
      that it waits for. The id is not looked at. */
  lemma DeceivedIff(y: System, pubs: seq<Call>, before: seq<Turn>)
    requires Start(y, pubs) && Play(y, before).Some?
    requires var now := Play(y, before).value; now.sc.SendPublish? && (now.sc.qos == 1 || now.sc.qos == 2)
    ensures var now := Play(y, before).value;
            (exists ts :: Deceived(now, ts)) <==> NextReply(now) == Some(Expected(now.sc.qos))
  {
    StartSane(y, pubs);
    PlayKeepsSane(y, before);
    hide Play, Sane, NextReply, Deceived;
    var now := Play(y, before).value;
    if NextReply(now) == Some(Expected(now.sc.qos)) {
      var ts := Deceive(now);
    } else {
      forall ts {
        NotDeceived(now, ts);
      }
    }
  }

  /** It can be lost for good. An earlier QoS 2 publish gave up on its PUBREC, which has arrived since: the receiver
      takes the next PUBLISH for the PUBREL, the sender the late PUBREC for its own, and E_NONE is returned for a
      message that no continuation ever hands on. */
  lemma LostForGood(y: System) returns (ts: seq<Turn>)
    requires Asking(y) && y.sc.qos == 2 && y.rc.AwaitPubrel?
    requires y.toReceiver == [] && |y.toSender| == 1 && KindIn(y.toSender[0]) == PUBREC
    ensures Play(y, ts).Some? && Play(y, ts).value.results == y.results + [E_NONE]
    ensures forall more :: Play(y, ts + more).Some? ==> Fates(y, ts + more) != [] && !Fates(y, ts + more)[0]
  {
    hide Take, Sane, Encode, KindIn, Next;
    PublishGoes(y);
    SenderKeepsSane(y, Go(Sender));
    Assoc(y.results, [], []);
    var y1 := Take(y, Go(Sender)).value;
    PubrelComes(y1);
    ReceiverKeepsSane(y1, Go(Receiver));
    ts := PubrecEnds(Take(y1, Go(Receiver)).value);
    PlayOne(y1, Go(Receiver), ts);
    ts := [Go(Receiver)] + ts;
    PlayOne(y, Go(Sender), ts);
    ts := [Go(Sender)] + ts;
    hide Play, Fates;
    assert Fates(y, ts) == [false];
    forall more | Play(y, ts + more).Some?
      ensures Fates(y, ts + more) != [] && !Fates(y, ts + more)[0]
    {
      PlayConcat(y, ts, more);
    }
  }

  /** A QoS 2 publish that is sent, and whose wait for the PUBREC fails. */
  lemma GivesUp(y: System) returns (ts: seq<Turn>)
    requires Sane(y) && y.sc.Halt? && y.todo != [] && Q(y, y.todo[0]) == 2
    ensures Play(y, ts).Some? && Fates(y, ts) == [] && Sane(Play(y, ts).value)
    ensures var y' := Play(y, ts).value;
            && |y'.toReceiver| == |y.toReceiver| + 1 && y'.toReceiver[..|y.toReceiver|] == y.toReceiver
            && Asks(y'.toReceiver[|y.toReceiver|]) == 2
            && y'.sc.Halt? && y'.sc.ret < 0 && y'.results == y.results + [y'.sc.ret]
            && y'.todo == y.todo[1..] && y'.sender.config == y.sender.config
            && y'.toSender == y.toSender && y'.rc == y.rc
  {
    hide Take, Sane, Encode, KindIn, Next, Asks;
    NextBegins(y);
    SenderKeepsSane(y, Go(Sender));
    var y1 := Take(y, Go(Sender)).value;
    PublishGoes(y1);
    SenderKeepsSane(y1, Go(Sender));
    Assoc(y.results, [], []);
    var y2 := Take(y1, Go(Sender)).value;
    ReplyFails(y2);
    SenderKeepsSane(y2, Miss(Sender));
    ts := [];
    PlayOne(y2, Miss(Sender), ts);
    ts := [Miss(Sender)] + ts;
    PlayOne(y1, Go(Sender), ts);
    ts := [Go(Sender)] + ts;
    PlayOne(y, Go(Sender), ts);
    ts := [Go(Sender)] + ts;
  }

  lemma PlaySingle(y: System, t: Turn)
    requires Take(y, t).Some?
    ensures Play(y, [t]) == Take(y, t) && Fates(y, [t]) == Fate(y, t)
  {
    hide Take, Fate;
    PlayOne(y, t, []);
    Assoc([t], [], []);
    Assoc(Fate(y, t), [], []);
  }

  lemma AnswersPubrec(y: System)
    requires Sane(y) && y.rc.SendPubrec?
    ensures Play(y, [Go(Receiver)]).Some? && Fates(y, [Go(Receiver)]) == []
    ensures var y' := Play(y, [Go(Receiver)]).value;
            && Sane(y') && |y'.toSender| == |y.toSender| + 1 && KindIn(y'.toSender[|y.toSender|]) == PUBREC
            && y' == y.(rc := AwaitPubrel, toSender := y'.toSender)
  {
    hide Take, Sane, Encode, KindIn, Play, Fates;
    AnswerGoes(y);
    ReceiverKeepsSane(y, Go(Receiver));
    PlaySingle(y, Go(Receiver));
  }

  /** An idle receiver takes a QoS 2 message and answers. */
  lemma TakesAndAnswers(y: System)
    requires Sane(y) && y.rc.Halt? && |y.toReceiver| == 1 && Asks(y.toReceiver[0]) == 2
    ensures var ts := [Go(Receiver)] + [Go(Receiver)];
            && Play(y, ts).Some? && Fates(y, ts) == [true]
            && var y' := Play(y, ts).value;
               && Sane(y') && y'.rc.AwaitPubrel? && y'.toReceiver == []
               && |y'.toSender| == |y.toSender| + 1 && KindIn(y'.toSender[|y.toSender|]) == PUBREC
               && y'.sc == y.sc && y'.results == y.results && y'.todo == y.todo && y'.sender == y.sender
  {
    assert KindIn(y.toReceiver[0]) == PUBLISH;
    hide Take, Sane, Encode, KindIn, Asks, Play, Fates;
    FrameTaken(y);
    ReceiverKeepsSane(y, Go(Receiver));
    PlaySingle(y, Go(Receiver));
    AnswersPubrec(Take(y, Go(Receiver)).value);
    PlayConcat(y, [Go(Receiver)], [Go(Receiver)]);
  }

  /** The first of two QoS 2 publishes has failed, and its packet is on its way. */
  predicate GaveUp(y: System) {
    && Sane(y) && y.sc.Halt? && y.todo != [] && Q(y, y.todo[0]) == 2
    && y.rc.Halt? && y.toSender == [] && |y.toReceiver| == 1 && Asks(y.toReceiver[0]) == 2
    && |y.results| == 1 && y.results[0] < 0
  }

  lemma FirstGivesUp(y: System, pubs: seq<Call>) returns (ts: seq<Turn>)
    requires Start(y, pubs) && |pubs| == 2 && Q(y, pubs[0]) == Q(y, pubs[1]) == 2
    ensures Play(y, ts).Some? && Fates(y, ts) == [] && GaveUp(Play(y, ts).value)
  {
    StartSane(y, pubs);
    hide Sane, Play, Fates, KindIn, Asks;
    ts := GivesUp(y);
  }

  lemma FirstFails(y: System, pubs: seq<Call>) returns (ts: seq<Turn>)
    requires Start(y, pubs) && |pubs| == 2 && Q(y, pubs[0]) == Q(y, pubs[1]) == 2
    ensures Play(y, ts).Some? && Fates(y, ts) == [true]
    ensures var now := Play(y, ts).value;
            && Asking(now) && now.sc.qos == 2 && now.rc.AwaitPubrel?
            && now.toReceiver == [] && |now.toSender| == 1 && KindIn(now.toSender[0]) == PUBREC
            && |now.results| == 1 && now.results[0] < 0
  {
    hide Start, Sane, Play, Fates, KindIn, Asks, Asking;
    ts := FirstGivesUp(y, pubs);
    var y1 := Play(y, ts).value;
    var b := [Go(Receiver)] + [Go(Receiver)];
    TakesAndAnswers(y1);
    PlayConcat(y, ts, b);
    ts := ts + b;
    BeginsAsking(Play(y1, b).value);
    PlayConcat(y, ts, [Go(Sender)]);
    ts := ts + [Go(Sender)];
  }

  lemma BeginsAsking(y: System)
    requires Sane(y) && y.sc.Halt? && y.todo != [] && Q(y, y.todo[0]) == 2
    ensures Play(y, [Go(Sender)]).Some? && Fates(y, [Go(Sender)]) == []
    ensures var y' := Play(y, [Go(Sender)]).value;
            && Asking(y') && y'.sc.qos == 2
            && y'.rc == y.rc && y'.toReceiver == y.toReceiver && y'.toSender == y.toSender && y'.results == y.results
  {
    hide Take, Sane, Play, Fates;
    NextBegins(y);
    SenderKeepsSane(y, Go(Sender));
    PlaySingle(y, Go(Sender));
  }

  /** One receive that fails is enough: of two QoS 2 publishes the first one fails, although its message is handed on,
      and the second one returns E_NONE, although its message never is. */
  lemma FailureThenLoss(y: System, pubs: seq<Call>) returns (ts: seq<Turn>)
    requires Start(y, pubs) && |pubs| == 2 && Q(y, pubs[0]) == Q(y, pubs[1]) == 2
    ensures Play(y, ts).Some?
    ensures var rs := Play(y, ts).value.results; |rs| == 2 && rs[0] < 0 && rs[1] == E_NONE
    ensures forall more :: Play(y, ts + more).Some? ==>
              |Fates(y, ts + more)| >= 2 && Fates(y, ts + more)[0] && !Fates(y, ts + more)[1]
  {
    hide Play, Fates, Start, Asking, Q, KindIn;
    var a := FirstFails(y, pubs);
    var now := Play(y, a).value;
    var c := LostForGood(now);
    ts := a + c;
    PlayConcat(y, a, c);
    forall more | Play(y, ts + more).Some?
      ensures |Fates(y, ts + more)| >= 2 && Fates(y, ts + more)[0] && !Fates(y, ts + more)[1]
    {
      Assoc(a, c, more);
      PlayConcat(y, a, c + more);
      SecondOf(Fates(y, a), Fates(now, c + more));
    }
  }

  lemma SecondOf(a: seq<bool>, b: seq<bool>)
    requires a == [true] && b != []
    ensures |a + b| >= 2 && (a + b)[0] && (a + b)[1] == b[0]
  {
  }

  // ---------------------------------------------------------------- as long as every publish succeeds

  predicate Quiet(frames: seq<bytes>) {
    forall i :: 0 <= i < |frames| ==> Asks(frames[i]) == 0
  }

  /** The PUBCOMP is due or there, and nothing else. */
  predicate Closing(toSender: seq<bytes>, rc: Control) {
    || (toSender == [] && PubcompDue(rc))
    || (|toSender| == 1 && KindIn(toSender[0]) == PUBCOMP && rc.Halt?)
  }

  /** The packet that asks is the last one on its way, and nothing has come of it. */
  predicate OnItsWay(y: System, q: QoS) {
    && y.toSender == [] && y.rc.Halt? && y.toReceiver != []
    && Quiet(y.toReceiver[..|y.toReceiver| - 1]) && Asks(y.toReceiver[|y.toReceiver| - 1]) == q
  }

  /** No reply is there or on its way but those to the publish under way. */
  predicate Calm(y: System) {
    match y.sc
    case AwaitPuback =>
      || OnItsWay(y, 1)
      || (y.toSender == [] && y.rc.SendPuback? && Quiet(y.toReceiver))
      || (|y.toSender| == 1 && KindIn(y.toSender[0]) == PUBACK && y.rc.Halt? && Quiet(y.toReceiver))
    case AwaitPubrec =>
      || OnItsWay(y, 2)
      || (y.toSender == [] && y.rc.SendPubrec? && Quiet(y.toReceiver))
      || (y.toSender != [] && KindIn(y.toSender[0]) == PUBREC && Closing(y.toSender[1..], y.rc) && Quiet(y.toReceiver))
    case SendPubrel(_) => Closing(y.toSender, y.rc) && Quiet(y.toReceiver)
    case AwaitPubcomp(_) => Closing(y.toSender, y.rc) && Quiet(y.toReceiver)
    case _ => y.toSender == [] && y.rc.Halt? && Quiet(y.toReceiver)
  }

  lemma QuietSeqs(frames: seq<bytes>, f: bytes)
    ensures Quiet(frames) && frames != [] ==> Asks(frames[0]) == 0 && Quiet(frames[1..])
    ensures Quiet(frames) && Asks(f) == 0 ==> Quiet(frames + [f])
    ensures (frames + [f])[..|frames|] == frames && (frames + [f])[|frames|] == f
  {
    hide Asks;
  }

  lemma CalmSend(y: System)
    requires Sane(y) && Calm(y) && (y.sc.SendPublish? || y.sc.SendPubrel?)
    ensures Take(y, Go(Sender)).Some? && Calm(Take(y, Go(Sender)).value)
  {
    hide Take, Encode, KindIn, IdIn, Quiet, Next, CallOk, Sendables, Takeable, Acks, Paired, Closing;
    hide Asks;
    if y.sc.SendPublish? {
      PublishGoes(y);
      QuietSeqs(y.toReceiver, Encode(y.sc.p));
    } else {
      PubrelGoes(y);
      QuietSeqs(y.toReceiver, Encode(Ack(PUBREL, y.sc.id)));
    }
  }

  lemma CalmReply(y: System)
    requires Sane(y) && Calm(y) && Waiting(y.sc) && y.toSender != []
    ensures var m := Take(y, Go(Sender)); m.Some? && (HasFailed(y, m.value) || Calm(m.value))
  {
    hide Take, Sane, Encode, KindIn, IdIn, Quiet, Asks, Next, Publishing;
    ReplyComes(y);
    ReplyLeads(y.sender, y.sc, y.toSender[0]);
  }

  lemma CalmSender(y: System, t: Turn)
    requires Sane(y) && Calm(y) && t.side.Sender? && Take(y, t).Some?
    ensures HasFailed(y, Take(y, t).value) || Calm(Take(y, t).value)
  {
    hide Take, Encode, KindIn, Quiet, Asks, Next, CallOk, Sendables, Takeable, Acks, Paired;
    TurnCases(y, t);
    if t.Miss? {
      ReplyFails(y);
    } else if y.sc.Halt? {
      NextBegins(y);
    } else if Waiting(y.sc) {
      CalmReply(y);
    } else {
      CalmSend(y);
    }
  }

  lemma CalmTakes(y: System)
    requires Sane(y) && Calm(y) && y.rc.Halt? && y.toReceiver != []
    ensures Take(y, Go(Receiver)).Some? && Calm(Take(y, Go(Receiver)).value)
  {
    hide Take, Sane, KindIn, Asks;
    hide Quiet;
    FrameTaken(y);
    if (y.sc.AwaitPuback? && OnItsWay(y, 1)) || (y.sc.AwaitPubrec? && OnItsWay(y, 2)) {
      CalmTake(y);
    } else {
      QuietSeqs(y.toReceiver, []);
    }
  }

  lemma CalmAnswers(y: System)
    requires Sane(y) && Calm(y) && (y.rc.SendPuback? || y.rc.SendPubrec? || y.rc.SendPubcomp?)
    ensures Take(y, Go(Receiver)).Some? && Calm(Take(y, Go(Receiver)).value)
  {
    hide Take, Sane, Encode, KindIn, Quiet;
    AnswerGoes(y);
  }

  lemma CalmReceiver(y: System, t: Turn)
    requires Sane(y) && Calm(y) && t.side.Receiver? && Take(y, t).Some?
    ensures Calm(Take(y, t).value)
  {
    hide Take, KindIn, Quiet, Asks, Sendables, Takeable, Acks, Paired, Publishing;
    TurnCases(y, t);
    if t.Miss? {
      PubrelFails(y);
    } else if y.rc.Halt? {
      CalmTakes(y);
    } else if y.rc.AwaitPubrel? {
      PubrelComes(y);
      QuietSeqs(y.toReceiver, []);
    } else {
      CalmAnswers(y);
    }
  }

  lemma CalmTake(y: System)
    requires y.toReceiver != []
    ensures var n := |y.toReceiver|;
            Quiet(y.toReceiver[..n - 1]) ==>
              if n == 1 then Quiet(y.toReceiver[1..])
              else && Asks(y.toReceiver[0]) == 0 && y.toReceiver[1..][..n - 2] == y.toReceiver[..n - 1][1..]
                   && Quiet(y.toReceiver[1..][..n - 2])
  {
    hide Asks;
  }

  lemma FailureShows(y: System, y': System, rs: seq<int>)
    requires HasFailed(y, y') && y'.results <= rs
    ensures !forall r :: r in rs ==> r == E_NONE
  {
    assert rs[|y.results|] in rs;
  }

  lemma {:induction false} PlayCalm(y: System, ts: seq<Turn>)
    requires Sane(y) && Calm(y) && Play(y, ts).Some?
    requires forall r :: r in Play(y, ts).value.results ==> r == E_NONE
    ensures Calm(Play(y, ts).value)
    decreases |ts|
  {
    if ts != [] {
      hide Take, Sane, Calm;
      var y' := Take(y, ts[0]).value;
      if ts[0].side.Sender? {
        SenderKeepsSane(y, ts[0]);
        CalmSender(y, ts[0]);
      } else {
        ReceiverKeepsSane(y, ts[0]);
        CalmReceiver(y, ts[0]);
      }
      ResultsGrow(y', ts[1..]);
      if HasFailed(y, y') {
        FailureShows(y, y', Play(y', ts[1..]).value.results);
        assert false;
      }
      PlayCalm(y', ts[1..]);
    }
  }

  lemma {:induction false} QuietAnswersNothing(rc: Control, frames: seq<bytes>)
    requires rc.Halt? && Quiet(frames)
    ensures FirstOf(rc, frames) == None
  {
    if frames != [] {
      QuietSeqs(frames, []);
      QuietAnswersNothing(rc, frames[1..]);
    }
  }

  /** As long as every publish so far returned E_NONE, whatever receives of the receiver failed, the next E_NONE may be
      believed as well: the message was handed on. */
  lemma SuccessMeansDelivery(y: System, pubs: seq<Call>, before: seq<Turn>, ts: seq<Turn>)
    requires Start(y, pubs) && Play(y, before).Some?
    requires var now := Play(y, before).value;
             && now.sc.SendPublish? && (now.sc.qos == 1 || now.sc.qos == 2)
             && forall r :: r in now.results ==> r == E_NONE
    ensures !Deceived(Play(y, before).value, ts)
  {
    StartSane(y, pubs);
    PlayKeepsSane(y, before);
    PlayCalm(y, before);
    hide Play, Sane, Deceived;
    var now := Play(y, before).value;
    QuietAnswersNothing(now.rc, now.toReceiver);
    NotDeceived(now, ts);
  }

  // ---------------------------------------------------------------- QoS 0 and 1 only

  function Failures(results: seq<int>): nat {
    if results == [] then 0 else Failures(results[..|results| - 1]) + if results[|results| - 1] == E_NONE then 0 else 1
  }

  /** The packets that ask for a PUBACK. */
  function Askers(frames: seq<bytes>): nat {
    if frames == [] then 0 else (if Asks(frames[0]) == 1 then 1 else 0) + Askers(frames[1..])
  }

  predicate LowFrames(frames: seq<bytes>) {
    forall i :: 0 <= i < |frames| ==> Asks(frames[i]) <= 1
  }

  predicate AllPuback(toSender: seq<bytes>) {
    forall i :: 0 <= i < |toSender| ==> KindIn(toSender[i]) == PUBACK
  }

  predicate LowCalls(c: Config, calls: seq<Call>) {
    forall i :: 0 <= i < |calls| ==> calls[i].DoPublish? && Effective(c, calls[i].qos) <= 1
  }

  /** The PUBACKs that are there or on their way. */
  function Acknowledgements(y: System): nat {
    |y.toSender| + (if y.rc.SendPuback? then 1 else 0) + Askers(y.toReceiver)
  }

  /** There is one PUBACK too many for every publish that failed. */
  predicate Low(y: System) {
    && LowCalls(y.sender.config, y.todo)
    && (y.sc.Halt? || (y.sc.SendPublish? && y.sc.qos <= 1) || y.sc.AwaitPuback?)
    && (y.rc.Halt? || y.rc.SendPuback?)
    && LowFrames(y.toReceiver) && AllPuback(y.toSender)
    && Acknowledgements(y) == Failures(y.results) + if y.sc.AwaitPuback? then 1 else 0
  }

  lemma FailuresAdd(results: seq<int>, r: int)
    ensures Failures(results + [r]) == Failures(results) + if r == E_NONE then 0 else 1
    ensures results + [] == results
  {
    assert (results + [r])[..|results|] == results;
  }

  lemma {:induction false} AskersAdd(frames: seq<bytes>, f: bytes)
    ensures Askers(frames + [f]) == Askers(frames) + if Asks(f) == 1 then 1 else 0
  {
    hide Asks;
    if frames == [] {
      assert frames + [f] == [f] && [f][1..] == [];
    } else {
      assert (frames + [f])[1..] == frames[1..] + [f];
      AskersAdd(frames[1..], f);
    }
  }

  lemma LowSeqs(c: Config, todo: seq<Call>, frames: seq<bytes>, acks: seq<bytes>, f: bytes)
    ensures LowCalls(c, todo) && todo != [] ==>
              todo[0].DoPublish? && Effective(c, todo[0].qos) <= 1 && LowCalls(c, todo[1..])
    ensures LowFrames(frames) && frames != [] ==> Asks(frames[0]) <= 1 && LowFrames(frames[1..])
    ensures LowFrames(frames) && Asks(f) <= 1 ==> LowFrames(frames + [f])
    ensures AllPuback(acks) && acks != [] ==> KindIn(acks[0]) == PUBACK && AllPuback(acks[1..])
    ensures AllPuback(acks) && KindIn(f) == PUBACK ==> AllPuback(acks + [f])
  {
    hide Asks, KindIn, Effective;
  }

  lemma LowPublish(y: System)
    requires Sane(y) && Low(y) && y.sc.SendPublish?
    ensures Take(y, Go(Sender)).Some? && Low(Take(y, Go(Sender)).value)
  {
    hide Take, Encode, Wants, CallOk, KindIn, Asks;
    hide Sendables, Takeable, Acks, Paired, LowCalls, LowFrames, AllPuback, Failures, Askers;
    var f := Encode(y.sc.p);
    PublishGoes(y);
    AskersAdd(y.toReceiver, f);
    LowSeqs(y.sender.config, [], y.toReceiver, [], f);
    FailuresAdd(y.results, E_NONE);
  }

  lemma LowReply(y: System)
    requires Sane(y) && Low(y) && y.sc.AwaitPuback? && y.toSender != []
    ensures Take(y, Go(Sender)).Some? && Low(Take(y, Go(Sender)).value)
  {
    hide Take, Sane, Next, LowCalls, LowFrames, AllPuback, Failures, Askers, KindIn;
    ReplyComes(y);
    ReplyLeads(y.sender, y.sc, y.toSender[0]);
    LowSeqs(y.sender.config, [], [], y.toSender, []);
    FailuresAdd(y.results, E_NONE);
  }

  lemma LowSender(y: System, t: Turn)
    requires Sane(y) && Low(y) && t.side.Sender? && Take(y, t).Some?
    ensures Low(Take(y, t).value)
  {
    hide Take, Sane, LowCalls, LowFrames, AllPuback, Failures, Askers, Next, Publishing;
    TurnCases(y, t);
    if t.Miss? {
      ReplyFails(y);
      FailuresAdd(y.results, Take(y, t).value.sc.ret);
    } else if y.sc.Halt? {
      NextBegins(y);
      LowSeqs(y.sender.config, y.todo, [], [], []);
    } else if y.sc.SendPublish? {
      LowPublish(y);
    } else {
      LowReply(y);
    }
  }

  lemma LowReceiver(y: System, t: Turn)
    requires Sane(y) && Low(y) && t.side.Receiver? && Take(y, t).Some?
    ensures Low(Take(y, t).value)
  {
    hide Take, Encode, KindIn, CallOk, Sendables, Takeable, Acks, Paired, LowCalls, LowFrames, AllPuback;
    hide Failures, Asks, Publishing;
    TurnCases(y, t);
    if y.rc.Halt? {
      FrameTaken(y);
      LowSeqs(y.sender.config, [], y.toReceiver, [], []);
    } else {
      AnswerGoes(y);
      LowSeqs(y.sender.config, [], [], y.toSender, Encode(Ack(KindOfAnswer(y.rc), y.rc.id)));
    }
  }

  lemma {:induction false} PlayLow(y: System, ts: seq<Turn>)
    requires Sane(y) && Low(y) && Play(y, ts).Some?
    ensures Low(Play(y, ts).value)
    decreases |ts|
  {
    if ts != [] {
      hide Take, Sane, Low;
      if ts[0].side.Sender? {
        SenderKeepsSane(y, ts[0]);
        LowSender(y, ts[0]);
      } else {
        ReceiverKeepsSane(y, ts[0]);
        LowReceiver(y, ts[0]);
      }
      PlayLow(Take(y, ts[0]).value, ts[1..]);
    }
  }

  lemma {:induction false} NoFailuresIff(results: seq<int>)
    ensures Failures(results) > 0 <==> exists r :: r in results && r != E_NONE
  {
    if results != [] {
      var front, last := results[..|results| - 1], results[|results| - 1];
      NoFailuresIff(front);
      assert last in results && forall r :: r in front ==> r in results;
      if r :| r in results && r != E_NONE && r != last {
        assert r in front;
      }
    }
  }

  lemma {:induction false} AskersFirst(rc: Control, frames: seq<bytes>)
    requires rc.Halt? && LowFrames(frames)
    ensures FirstOf(rc, frames) == if Askers(frames) > 0 then Some(PUBACK) else None
  {
    if frames != [] {
      LowSeqs(DEFAULT_CONFIG, [], frames, [], []);
      hide Asks, LowFrames;
      AskersFirst(rc, frames[1..]);
    }
  }

  lemma LowNext(y: System)
    requires Sane(y) && Low(y) && y.sc.SendPublish?
    ensures NextReply(y) == Some(PUBACK) <==> exists r :: r in y.results && r != E_NONE
  {
    NoFailuresIff(y.results);
    hide Sane, Failures, Askers, LowFrames, FirstOf, KindIn;
    LowSeqs(y.sender.config, [], [], y.toSender, []);
    if y.rc.Halt? {
      AskersFirst(y.rc, y.toReceiver);
    } else {
      PubackFirst(y.rc, y.toReceiver);
    }
  }

  lemma PubackFirst(rc: Control, frames: seq<bytes>)
    requires rc.SendPuback?
    ensures FirstOf(rc, frames) == Some(PUBACK)
  {
  }

  /** With QoS 0 and 1 only, the caller can tell: a QoS 1 publish can return E_NONE without delivery exactly when some
      publish before it failed. */
  lemma DeceivedAfterFailureIff(y: System, pubs: seq<Call>, before: seq<Turn>)
    requires Start(y, pubs) && LowCalls(y.sender.config, pubs) && Play(y, before).Some?
    requires var now := Play(y, before).value; now.sc.SendPublish? && now.sc.qos == 1
    ensures var now := Play(y, before).value;
            (exists ts :: Deceived(now, ts)) <==> (exists r :: r in now.results && r != E_NONE)
  {
    StartSane(y, pubs);
    PlayKeepsSane(y, before);
    PlayLow(y, before);
    hide Play, Sane, Low, NextReply, Deceived;
    DeceivedIff(y, pubs, before);
    LowNext(Play(y, before).value);
  }
}
