/** What no run can break: packet ids, the connection state, and the order of the QoS 2 exchange. */
module Invariants {
  import opened Bytes
  import opened Errors
  import opened Packets
  import opened ClientConfig
  import opened Protocol
  import opened Runs
  import opened Refinement
  import Layout
  import RL = RemainingLength

  // ---------------------------------------------------------------- what a call adds to the log

  function RunEvents(w: World, call: Call): seq<Event>
    requires CallOk(call)
  {
    Deliveries(call) + ExecEvents(Begin(w, call).0, Begin(w, call).1)
  }

  function RunAllEvents(w: World, calls: seq<Call>): seq<Event>
    requires AllOk(calls)
    decreases |calls|
  {
    if calls == [] then [] else RunEvents(w, calls[0]) + RunAllEvents(Run(w, calls[0]).1, calls[1..])
  }

  lemma {:induction false} ExecLog(w: World, c: Control)
    ensures Exec(w, c).1.net.log == w.net.log + ExecEvents(w, c)
    decreases Rank(c)
  {
    Unfold(w, c);
    hide Step, StepEvents, Rank, Exec, ExecSends, ExecEvents;
    if !c.Halt? {
      StepRank(w, c);
      StepLog(w, c);
      ExecLog(Step(w, c).0, Step(w, c).1);
    }
  }

  /** The log of a run is the log before it and then the events of its calls. */
  lemma {:induction false} RunAllLog(w: World, calls: seq<Call>)
    requires AllOk(calls)
    ensures RunAll(w, calls).1.net.log == w.net.log + RunAllEvents(w, calls)
    decreases |calls|
  {
    hide Run, RunEvents;
    if calls != [] {
      OneCallLog(w, calls[0]);
      RunAllLog(Run(w, calls[0]).1, calls[1..]);
    }
  }

  // ---------------------------------------------------------------- packet ids

  /** The ids a call takes, in order. */
  function Taken(s: Sess, call: Call): seq<uint16>
    requires CallOk(call)
  {
    match call
    case DoOnPublish(frame) =>
      var h := FlagOf(frame[0]);
      if h.kind != PUBLISH then []
      else if h.qos == 1 then [s.nextId]
      else if h.qos == 2 then [s.nextId, (s.nextId + 1) % 0x1_0000]
      else []
    case DoPublish(_, _, _, _) => if s.socket < 0 then [] else [s.nextId]
    case DoSubscribe(_, _) => if s.socket < 0 then [] else [s.nextId]
    case DoUnsubscribe(_) => if s.socket < 0 then [] else [s.nextId]
    case _ => []
  }

  function AllTaken(w: World, calls: seq<Call>): seq<uint16>
    requires AllOk(calls)
    decreases |calls|
  {
    if calls == [] then [] else Taken(w.sess, calls[0]) + AllTaken(Run(w, calls[0]).1, calls[1..])
  }

  /** How far the rest of a call moves the counter. */
  function StillTakes(c: Control): nat {
    if c.SendPubrec? || c.AwaitPubrel? then 1 else 0
  }

  lemma StepCounts(w: World, c: Control)
    requires !c.Halt?
    ensures var (w', c') := Step(w, c);
            (w'.sess.nextId + StillTakes(c')) % 0x1_0000 == (w.sess.nextId + StillTakes(c)) % 0x1_0000
  {
    hide Encode, Overlay, KindIn, ByteIn, IdIn, RL.Zeros;
  }

  lemma {:induction false} ExecCounts(w: World, c: Control)
    ensures Exec(w, c).1.sess.nextId == (w.sess.nextId + StillTakes(c)) % 0x1_0000
    decreases Rank(c)
  {
    Unfold(w, c);
    hide Step, Rank, Exec, ExecSends, ExecEvents;
    if !c.Halt? {
      StepCounts(w, c);
      StepRank(w, c);
      hide StillTakes;
      ExecCounts(Step(w, c).0, Step(w, c).1);
    }
  }

  /** Whatever the outcomes, a call moves the counter by the number of ids it takes. */
  lemma RunCounts(w: World, call: Call)
    requires CallOk(call) && !call.DoDeinit?
    ensures Run(w, call).1.sess.nextId == (w.sess.nextId + |Taken(w.sess, call)|) % 0x1_0000
  {
    hide Exec, ExecSends, ExecEvents, PublishInBounds, ViewPublish;
    hide ConnectPacket, PublishPacket, SubscribePacket, UnsubscribePacket;
    ExecCounts(Begin(w, call).0, Begin(w, call).1);
  }

  lemma TakenCounts(s: Sess, call: Call, k: nat)
    requires CallOk(call) && k < |Taken(s, call)|
    ensures Taken(s, call)[k] == (s.nextId + k) % 0x1_0000
  {
  }

  lemma ModSum(a: nat, b: nat, k: nat)
    ensures ((a + b) % 0x1_0000 + k) % 0x1_0000 == (a + b + k) % 0x1_0000
  {
  }

  lemma ModDistinct(a: nat, d: nat)
    requires 0 < d <= 0x1_0000
    ensures a % 0x1_0000 == (a + d) % 0x1_0000 <==> d == 0x1_0000
  {
  }

  /** Over any run that mixes publish, subscribe, unsubscribe and received publishes with anything else,
      the k-th id taken is the first one plus k, modulo 65536. */
  lemma {:induction false} IdsCountUp(w: World, calls: seq<Call>, k: nat)
    requires AllOk(calls) && (forall call :: call in calls ==> !call.DoDeinit?)
    requires k < |AllTaken(w, calls)|
    ensures AllTaken(w, calls)[k] == (w.sess.nextId + k) % 0x1_0000
    decreases |calls|
  {
    hide Run, Taken;
    var first := Taken(w.sess, calls[0]);
    RunCounts(w, calls[0]);
    if k < |first| {
      TakenCounts(w.sess, calls[0], k);
    } else {
      IdsCountUp(Run(w, calls[0]).1, calls[1..], k - |first|);
      ModSum(w.sess.nextId, |first|, k - |first|);
    }
  }

  /** Any 65536 consecutive ids of a run are pairwise distinct; the id after them is the first one again. */
  lemma IdsDistinct(w: World, calls: seq<Call>, j: nat, k: nat)
    requires AllOk(calls) && (forall call :: call in calls ==> !call.DoDeinit?)
    requires j < k < |AllTaken(w, calls)| && k - j <= 0x1_0000
    ensures AllTaken(w, calls)[j] == AllTaken(w, calls)[k] <==> k - j == 0x1_0000
  {
    hide AllTaken;
    IdsCountUp(w, calls, j);
    IdsCountUp(w, calls, k);
    ModDistinct(w.sess.nextId + j, k - j);
  }

  /** The packets of a call that must carry an id the session took for it: all that bear one, except PUBREL. */
  predicate CarriesOwnId(p: Packet) {
    (p.Publish? && p.qos > 0) || p.Listed? || (p.Ack? && p.kind != PUBREL)
  }

  /** Which of the ids of its call a packet carries. */
  function Place(p: Packet): nat {
    if p.Ack? && p.kind == PUBCOMP then 1 else 0
  }

  /** The control point is bound to send only ids from `ids`, now or later. */
  ghost predicate Bound(s: Sess, c: Control, ids: seq<uint16>) {
    match c
    case SendPublish(p, _) => p.Publish? && (CarriesOwnId(p) ==> ids == [p.id])
    case SendSubscribe(p) => p.Listed? && ids == [p.id]
    case SendUnsubscribe(p) => p.Listed? && ids == [p.id]
    case SendPuback(id) => ids == [id]
    case SendPubrec(id) => ids == [id, s.nextId]
    case AwaitPubrel => |ids| == 2 && ids[1] == s.nextId
    case SendPubcomp(id) => |ids| == 2 && ids[1] == id
    case OpenSocket(p) => p.Connect?
    case TcpConnect(p) => p.Connect?
    case SendConnect(p) => p.Connect?
    case _ => true
  }

  lemma {:induction false} ExecCarries(w: World, c: Control, ids: seq<uint16>)
    requires Bound(w.sess, c, ids)
    ensures forall p :: p in ExecSends(w, c) && CarriesOwnId(p) ==> Place(p) < |ids| && p.id == ids[Place(p)]
    decreases Rank(c)
  {
    Unfold(w, c);
    hide Encode, Exec, ExecSends, ExecEvents;
    if !c.Halt? {
      StepRank(w, c);
      ExecCarries(Step(w, c).0, Step(w, c).1, ids);
    }
  }

  /** Every packet that bears an id carries one that the session took for this very call: PUBCOMP the second one,
      any other the first; only a PUBREL carries the id of the PUBREC it answers. */
  lemma IdsCarried(w: World, call: Call)
    requires CallOk(call)
    ensures var ids := Taken(w.sess, call);
            forall p :: p in RunSends(w, call) && CarriesOwnId(p) ==> Place(p) < |ids| && p.id == ids[Place(p)]
  {
    hide Exec, ExecSends, ExecEvents, PublishInBounds, ViewPublish;
    ExecCarries(Begin(w, call).0, Begin(w, call).1, Taken(w.sess, call));
  }

  function OwnId(p: Packet): seq<uint16> {
    if CarriesOwnId(p) then [p.id] else []
  }

  /** The own ids that packets carry, in order. */
  function OwnIds(ps: seq<Packet>): seq<uint16> {
    if ps == [] then [] else OwnId(ps[0]) + OwnIds(ps[1..])
  }

  /** `a` is `b` with some elements left out. */
  predicate Subseq<T(==)>(a: seq<T>, b: seq<T>) {
    || a == []
    || (b != [] && ((a[0] == b[0] && Subseq(a[1..], b[1..])) || Subseq(a, b[1..])))
  }

  lemma {:induction false} SubseqPrefix<T>(a: seq<T>, b: seq<T>, c: seq<T>)
    requires Subseq(a, c)
    ensures Subseq(a, b + c)
    decreases |b|
  {
    if b == [] {
      Assoc(c, [], []);
    } else {
      SubseqPrefix(a, b[1..], c);
      assert (b + c)[1..] == b[1..] + c;
    }
  }

  lemma {:induction false} SubseqConcat<T>(a: seq<T>, b: seq<T>, c: seq<T>, d: seq<T>)
    requires Subseq(a, b) && Subseq(c, d)
    ensures Subseq(a + c, b + d)
    decreases |b|
  {
    if a == [] {
      Assoc(c, [], []);
      SubseqPrefix(c, b, d);
    } else {
      assert (a + c)[1..] == a[1..] + c && (b + d)[1..] == b[1..] + d;
      if a[0] == b[0] && Subseq(a[1..], b[1..]) {
        SubseqConcat(a[1..], b[1..], c, d);
      } else {
        SubseqConcat(a, b[1..], c, d);
      }
    }
  }

  lemma {:induction false} OwnIdsConcat(a: seq<Packet>, b: seq<Packet>)
    ensures OwnIds(a + b) == OwnIds(a) + OwnIds(b)
  {
    hide OwnId;
    if a == [] {
      Assoc(b, [], []);
      Assoc(OwnIds(b), [], []);
    } else {
      assert (a + b)[1..] == a[1..] + b;
      OwnIdsConcat(a[1..], b);
      Assoc(OwnId(a[0]), OwnIds(a[1..]), OwnIds(b));
    }
  }

  /** The own ids that the rest of a call is to send, in order. */
  function Due(s: Sess, c: Control): seq<uint16> {
    match c
    case SendPublish(p, _) => OwnId(p)
    case SendSubscribe(p) => OwnId(p)
    case SendUnsubscribe(p) => OwnId(p)
    case SendPuback(id) => [id]
    case SendPubrec(id) => [id, s.nextId]
    case AwaitPubrel => [s.nextId]
    case SendPubcomp(id) => [id]
    case _ => []
  }

  /** Connect, which carries no id, goes by its packet. */
  predicate DueOk(c: Control) {
    c.OpenSocket? || c.TcpConnect? || c.SendConnect? ==> c.p.Connect?
  }

  lemma DueStep(w: World, c: Control)
    requires !c.Halt? && DueOk(c)
    ensures DueOk(Step(w, c).1)
    ensures var now := if Wants(c).Transmit? then OwnId(Wants(c).p) else [];
            Due(w.sess, c) == now + Due(Step(w, c).0.sess, Step(w, c).1)
  {
    hide Encode, Overlay, KindIn, ByteIn, IdIn;
  }

  lemma DueSent(w: World, c: Control)
    requires !c.Halt?
    ensures var now := if Wants(c).Transmit? then OwnId(Wants(c).p) else [];
            OwnIds(StepSends(w, c)) == [] || OwnIds(StepSends(w, c)) == now
  {
    hide Wants, OwnId;
    if StepSends(w, c) != [] {
      assert StepSends(w, c)[1..] == [];
    }
  }

  lemma {:induction false} ExecDue(w: World, c: Control)
    requires DueOk(c)
    ensures Subseq(OwnIds(ExecSends(w, c)), Due(w.sess, c))
    decreases Rank(c)
  {
    Unfold(w, c);
    hide Exec, ExecSends, ExecEvents, Step, StepSends, Rank;
    if !c.Halt? {
      StepRank(w, c);
      DueStep(w, c);
      DueSent(w, c);
      var (w', c') := Step(w, c);
      ExecDue(w', c');
      OwnIdsConcat(StepSends(w, c), ExecSends(w', c'));
      var now := if Wants(c).Transmit? then OwnId(Wants(c).p) else [];
      hide OwnIds, Due, Wants, OwnId;
      assert Subseq(OwnIds(StepSends(w, c)), now);
      SubseqConcat(OwnIds(StepSends(w, c)), now, OwnIds(ExecSends(w', c')), Due(w'.sess, c'));
    }
  }

  lemma RunDue(w: World, call: Call)
    requires CallOk(call)
    ensures Subseq(OwnIds(RunSends(w, call)), Taken(w.sess, call))
  {
    hide ExecSends, PublishInBounds, ViewPublish, ConnectContent, OwnIds;
    var (w1, c1) := Begin(w, call);
    ExecDue(w1, c1);
    assert Due(w1.sess, c1) == Taken(w.sess, call) || Due(w1.sess, c1) == [];
  }

  /** Over any run, resets and failures included: the own ids on the wire are the ids taken, in the order taken,
      some left out, none twice for one taking. */
  lemma {:induction false} RunIdsCarried(w: World, calls: seq<Call>)
    requires AllOk(calls)
    ensures Subseq(OwnIds(RunAllSends(w, calls)), AllTaken(w, calls))
    decreases |calls|
  {
    if calls != [] {
      hide Run, RunSends, Taken, OwnIds, Subseq;
      var w' := Run(w, calls[0]).1;
      RunDue(w, calls[0]);
      RunIdsCarried(w', calls[1..]);
      OwnIdsConcat(RunSends(w, calls[0]), RunAllSends(w', calls[1..]));
      SubseqConcat(OwnIds(RunSends(w, calls[0])), Taken(w.sess, calls[0]),
                   OwnIds(RunAllSends(w', calls[1..])), AllTaken(w', calls[1..]));
    }
  }

  // ---------------------------------------------------------------- the connection

  /** A connected session has a socket. */
  predicate Consistent(s: Sess) {
    s.connected ==> s.socket >= 0
  }

  /** Where the rest of a call may only run with a socket. */
  predicate ControlConsistent(s: Sess, c: Control) {
    && Consistent(s)
    && match c
       case OpenSocket(_) => !s.connected
       case TcpConnect(_) => s.socket >= 0
       case SendConnect(_) => s.socket >= 0
       case AwaitConnack => s.socket >= 0
       case _ => true
  }

  lemma {:induction false} ExecConsistent(w: World, c: Control)
    requires ControlConsistent(w.sess, c)
    ensures Consistent(Exec(w, c).1.sess)
    decreases Rank(c)
  {
    Unfold(w, c);
    hide Encode, Exec, ExecSends, ExecEvents;
    if !c.Halt? {
      StepRank(w, c);
      ExecConsistent(Step(w, c).0, Step(w, c).1);
    }
  }

  /** Every call keeps the session consistent, whatever fails, but for one: resetting a connected session. */
  lemma ConsistentIff(w: World, call: Call)
    requires CallOk(call) && Consistent(w.sess)
    ensures Consistent(Run(w, call).1.sess) <==> !(call.DoDeinit? && w.sess.connected)
  {
    hide Exec, ExecSends, ExecEvents, PublishInBounds, ViewPublish;
    hide ConnectPacket, PublishPacket, SubscribePacket, UnsubscribePacket;
    ExecHalts();
    if !call.DoDeinit? {
      ExecConsistent(Begin(w, call).0, Begin(w, call).1);
    }
  }

  lemma {:induction false} AtNext(w: World, calls: seq<Call>, i: nat)
    requires AllOk(calls) && i < |calls|
    ensures At(w, calls, i + 1) == Run(At(w, calls, i), calls[i]).1
    decreases |calls|
  {
    hide Run, At;
    AtLater(w, calls, i);
    if i == 0 {
      AtStart(w, calls);
      AtStart(Run(w, calls[0]).1, calls[1..]);
    } else {
      AtLater(w, calls, i - 1);
      AtNext(Run(w, calls[0]).1, calls[1..], i - 1);
    }
  }

  /** The first `i` calls of a consistent session keep it consistent, and it stays so up to the end of the run,
      exactly when no reset meets a connected session. */
  lemma RunConsistent(w: World, calls: seq<Call>)
    requires AllOk(calls) && Consistent(w.sess)
    ensures (forall i :: 0 <= i <= |calls| ==> Consistent(At(w, calls, i).sess))
       <==> (forall i :: 0 <= i < |calls| ==> !(calls[i].DoDeinit? && At(w, calls, i).sess.connected))
  {
    hide Run, At, Consistent;
    if forall i :: 0 <= i <= |calls| ==> Consistent(At(w, calls, i).sess) {
      forall i | 0 <= i < |calls|
        ensures !(calls[i].DoDeinit? && At(w, calls, i).sess.connected)
      {
        AtNext(w, calls, i);
        ConsistentIff(At(w, calls, i), calls[i]);
      }
    }
    if forall i :: 0 <= i < |calls| ==> !(calls[i].DoDeinit? && At(w, calls, i).sess.connected) {
      forall i | 0 <= i <= |calls|
        ensures Consistent(At(w, calls, i).sess)
      {
        ConsistentUpTo(w, calls, i);
      }
    }
  }

  lemma {:induction false} ConsistentUpTo(w: World, calls: seq<Call>, n: nat)
    requires AllOk(calls) && Consistent(w.sess) && n <= |calls|
    requires forall i :: 0 <= i < n ==> !(calls[i].DoDeinit? && At(w, calls, i).sess.connected)
    ensures Consistent(At(w, calls, n).sess)
  {
    hide Run, Consistent;
    if n > 0 {
      ConsistentUpTo(w, calls, n - 1);
      AtNext(w, calls, n - 1);
      hide At;
      ConsistentIff(At(w, calls, n - 1), calls[n - 1]);
    }
  }

  predicate Silent(events: seq<Event>) {
    forall e :: e in events ==> !e.Sent? && !e.Received?
  }

  predicate ObtainsSocket(events: seq<Event>) {
    exists e :: e in events && e.Opened?
  }

  lemma Joined(a: seq<Event>, b: seq<Event>)
    ensures Silent(a + b) <==> Silent(a) && Silent(b)
    ensures ObtainsSocket(a + b) <==> ObtainsSocket(a) || ObtainsSocket(b)
  {
    assert forall e :: e in a + b <==> e in a || e in b;
  }

  /** The control points that are never reached without a socket. */
  predicate NeedsSocket(c: Control) {
    c.TcpConnect? || c.SendConnect? || c.AwaitConnack? || c.SendDisconnect?
  }

  lemma StepSilent(w: World, c: Control)
    requires !c.Halt? && w.sess.socket < 0 && !ObtainsSocket(StepEvents(w, c)) && !NeedsSocket(c)
    ensures Silent(StepEvents(w, c)) && Step(w, c).0.sess.socket < 0 && !NeedsSocket(Step(w, c).1)
  {
    hide Encode, Overlay;
    if c.OpenSocket? && Coming(w.net).ret >= 0 {
      ObtainsOne(Coming(w.net).ret);
    }
  }

  lemma ObtainsOne(socket: int)
    ensures ObtainsSocket([Opened(socket)])
  {
    assert [Opened(socket)][0].Opened?;
  }

  /** Without a socket and without obtaining one, the rest of a call neither sends nor receives. */
  lemma {:induction false} ExecSilent(w: World, c: Control)
    requires w.sess.socket < 0 && !ObtainsSocket(ExecEvents(w, c)) && !NeedsSocket(c)
    ensures Silent(ExecEvents(w, c)) && Exec(w, c).1.sess.socket < 0
    decreases Rank(c)
  {
    Unfold(w, c);
    hide Step, StepEvents, Rank, Exec, ExecSends, ExecEvents, NeedsSocket, ObtainsSocket;
    if !c.Halt? {
      StepRank(w, c);
      Joined(StepEvents(w, c), ExecEvents(Step(w, c).0, Step(w, c).1));
      StepSilent(w, c);
      ExecSilent(Step(w, c).0, Step(w, c).1);
    }
  }

  lemma RunSilent(w: World, call: Call)
    requires CallOk(call) && w.sess.socket < 0 && !ObtainsSocket(RunEvents(w, call))
    ensures Silent(RunEvents(w, call)) && Run(w, call).1.sess.socket < 0
  {
    hide Exec, ExecSends, ExecEvents, PublishInBounds, ViewPublish;
    hide ConnectPacket, PublishPacket, SubscribePacket, UnsubscribePacket;
    var (w1, c1) := Begin(w, call);
    Joined(Deliveries(call), ExecEvents(w1, c1));
    ExecSilent(w1, c1);
  }

  /** Once there is no socket, no call of any kind sends or receives a byte until a socket is obtained again. */
  lemma {:induction false} SilentUntilOpened(w: World, calls: seq<Call>)
    requires AllOk(calls) && w.sess.socket < 0 && !ObtainsSocket(RunAllEvents(w, calls))
    ensures Silent(RunAllEvents(w, calls)) && RunAll(w, calls).1.sess.socket < 0
    decreases |calls|
  {
    if calls != [] {
      hide Run, RunEvents, Silent, ObtainsSocket;
      var w' := Run(w, calls[0]).1;
      Joined(RunEvents(w, calls[0]), RunAllEvents(w', calls[1..]));
      RunSilent(w, calls[0]);
      SilentUntilOpened(w', calls[1..]);
    } else {
      assert Silent([]);
    }
  }

  /** A disconnect that is carried out leaves no socket; it returns the two bytes sent, not E_NONE. */
  lemma DisconnectCloses(w: World)
    requires w.sess.connected && w.sess.socket >= 0
    ensures var (r, w') := Run(w, DoDisconnect);
            if Coming(w.net).ret >= 0
            then && r == 2 && w'.sess == w.sess.(socket := -1, connected := false)
                 && RunEvents(w, DoDisconnect) == [Sent([0xE0, 0])]
            else r == -E_NET_CONN && w'.sess == w.sess && RunEvents(w, DoDisconnect) == [SendFailed]
  {
    BeginQuiet(w, DoDisconnect);
    Unfold(w, SendDisconnect);
    Unfold(Step(w, SendDisconnect).0, Step(w, SendDisconnect).1);
    assert Encode(Bare(DISCONNECT)) == [0xE0, 0];
  }

  predicate Stuck(s: Sess) {
    s.connected && s.socket < 0
  }

  function StuckReturn(call: Call): int {
    if call.DoConnect? || call.DoDeinit? || call.DoOnPublish? then E_NONE else -E_NET_SOCK
  }

  lemma StuckRun(w: World, call: Call)
    requires CallOk(call) && Stuck(w.sess)
    ensures Run(w, call).0 == StuckReturn(call) && Stuck(Run(w, call).1.sess)
    ensures Silent(RunEvents(w, call)) && !ObtainsSocket(RunEvents(w, call))
  {
    hide Exec, ExecSends, ExecEvents, PublishInBounds, ViewPublish;
    hide ConnectPacket, PublishPacket, SubscribePacket, UnsubscribePacket;
    var (w1, c1) := Begin(w, call);
    Joined(Deliveries(call), ExecEvents(w1, c1));
    StuckExec(w1, c1);
  }

  lemma {:induction false} SilentSendsNothing(events: seq<Event>)
    requires Silent(events)
    ensures SentBytes(events) == []
  {
    if events != [] {
      var last := events[|events| - 1];
      assert last in events;
      assert forall e :: e in events[..|events| - 1] ==> e in events;
      SilentSendsNothing(events[..|events| - 1]);
    }
  }

  /** After a disconnect that is carried out, the two bytes of its packet are the last in the trace: whatever is
      called then, nothing follows them until a socket is obtained. */
  lemma DisconnectEndsTrace(w: World, calls: seq<Call>)
    requires AllOk(calls) && w.sess.connected && w.sess.socket >= 0 && Coming(w.net).ret >= 0
    requires !ObtainsSocket(RunAllEvents(Run(w, DoDisconnect).1, calls))
    ensures SentBytes(RunAll(Run(w, DoDisconnect).1, calls).1.net.log) == SentBytes(w.net.log) + [0xE0, 0]
  {
    hide Run, RunEvents, SentBytes, Silent, ObtainsSocket;
    var w' := Run(w, DoDisconnect).1;
    DisconnectCloses(w);
    SilentUntilOpened(w', calls);
    SilentSendsNothing(RunAllEvents(w', calls));
    RunAllLog(w', calls);
    SentBytesConcat(w'.net.log, RunAllEvents(w', calls));
    OneCallLog(w, DoDisconnect);
    SentBytesConcat(w.net.log, RunEvents(w, DoDisconnect));
    SentOne(Sent([0xE0, 0]));
  }

  lemma OneCallLog(w: World, call: Call)
    requires CallOk(call)
    ensures Run(w, call).1.net.log == w.net.log + RunEvents(w, call)
  {
    hide Exec, ExecSends, ExecEvents, Enter, Deliveries;
    ExecLog(Begin(w, call).0, Begin(w, call).1);
  }

  /** A session that was reset while connected is stuck: every later connect reports success without a socket,
      and nothing is ever sent or received again. */
  lemma {:induction false} ResetWhileConnectedIsStuck(w: World, calls: seq<Call>)
    requires AllOk(calls) && Stuck(w.sess)
    ensures var (rs, w') := RunAll(w, calls);
            && Stuck(w'.sess)
            && Silent(RunAllEvents(w, calls)) && !ObtainsSocket(RunAllEvents(w, calls))
            && |rs| == |calls|
            && forall i :: 0 <= i < |calls| ==> rs[i] == StuckReturn(calls[i])
    decreases |calls|
  {
    if calls != [] {
      hide Run, RunEvents, Silent, ObtainsSocket, StuckReturn;
      var w' := Run(w, calls[0]).1;
      Joined(RunEvents(w, calls[0]), RunAllEvents(w', calls[1..]));
      StuckRun(w, calls[0]);
      ResetWhileConnectedIsStuck(w', calls[1..]);
    } else {
      assert Silent([]) && !ObtainsSocket([]);
    }
  }

  /** The control points a stuck session still reaches. */
  predicate Answering(c: Control) {
    c.Halt? || c.SendPuback? || c.SendPubrec? || c.AwaitPubrel? || c.SendPubcomp?
  }

  lemma StuckStep(w: World, c: Control)
    requires Stuck(w.sess) && Answering(c) && !c.Halt?
    ensures var (w', c') := Step(w, c);
            && Stuck(w'.sess) && Answering(c') && (c'.Halt? ==> c'.ret == E_NONE)
            && Silent(StepEvents(w, c)) && !ObtainsSocket(StepEvents(w, c))
  {
    hide Encode, Overlay;
  }

  lemma {:induction false} StuckExec(w: World, c: Control)
    requires Stuck(w.sess) && Answering(c)
    ensures var (r, w') := Exec(w, c);
            && Stuck(w'.sess)
            && Silent(ExecEvents(w, c)) && !ObtainsSocket(ExecEvents(w, c))
            && r == if c.Halt? then c.ret else E_NONE
    decreases Rank(c)
  {
    Unfold(w, c);
    hide Exec, ExecSends, ExecEvents;
    if !c.Halt? {
      StepRank(w, c);
      StuckStep(w, c);
      Joined(StepEvents(w, c), ExecEvents(Step(w, c).0, Step(w, c).1));
      hide Step, StepEvents, Rank, Silent, ObtainsSocket, Stuck;
      StuckExec(Step(w, c).0, Step(w, c).1);
    }
  }

  // ---------------------------------------------------------------- exactly once, against any peer

  // The lemmas of this section and the next take replies of any bytes. Where the second byte of a reply is 128 or
  // more they speak of the model only: the C code then reads on past its reply buffer, or, for a SUBACK, follows
  // a payload pointer that is null. The session methods ask for smaller ones (`Framed`).

  /** What is in the receive buffer when the reply to PUBREL is looked at. */
  function SecondReply(w: World): bytes {
    Overlay(Encode(Ack(PUBREL, IdIn(FirstReply(w)))), Nth(w, 3).data)
  }

  predicate Ends(r: int, events: seq<Event>, expected: (int, seq<Event>)) {
    r == expected.0 && events == expected.1
  }

  lemma FromPubcomp(w: World, id: uint16)
    requires w.sess.socket >= 0
    ensures var buf := Overlay(Encode(Ack(PUBREL, id)), Coming(w.net).data);
            Ends(Exec(w, AwaitPubcomp(id)).0, ExecEvents(w, AwaitPubcomp(id)),
              if Coming(w.net).ret < 0 then (-E_NET_XFER, [ReceiveFailed])
              else (if KindIn(buf) == PUBCOMP then E_NONE else -E_SESS_ACK, [Received(buf)]))
  {
    hide Exec, ExecSends, ExecEvents, Encode, Overlay, KindIn;
    Unfold(w, AwaitPubcomp(id));
    Unfold(Step(w, AwaitPubcomp(id)).0, Step(w, AwaitPubcomp(id)).1);
  }

  lemma FromPubrel(w: World, id: uint16)
    requires w.sess.socket >= 0
    ensures var pubrel := Sent(Encode(Ack(PUBREL, id)));
            var next := w.(net := After(w.net, [pubrel]));
            Ends(Exec(w, SendPubrel(id)).0, ExecEvents(w, SendPubrel(id)),
              if Coming(w.net).ret < 0 then (-E_NET_XFER, [SendFailed])
              else (Exec(next, AwaitPubcomp(id)).0, [pubrel] + ExecEvents(next, AwaitPubcomp(id))))
  {
    hide Exec, ExecSends, ExecEvents, Encode;
    Unfold(w, SendPubrel(id));
    Unfold(Step(w, SendPubrel(id)).0, Step(w, SendPubrel(id)).1);
  }

  lemma FromPubrec(w: World)
    requires w.sess.socket >= 0
    ensures var buf := Overlay(RL.Zeros(4), Coming(w.net).data);
            var next := w.(net := After(w.net, [Received(buf)]));
            Ends(Exec(w, AwaitPubrec).0, ExecEvents(w, AwaitPubrec),
              if Coming(w.net).ret < 0 then (Coming(w.net).ret, [ReceiveFailed])
              else if KindIn(buf) != PUBREC then (-E_NET_CONN, [Received(buf)])
              else (Exec(next, SendPubrel(IdIn(buf))).0, [Received(buf)] + ExecEvents(next, SendPubrel(IdIn(buf)))))
  {
    hide Exec, ExecSends, ExecEvents, Encode, Overlay, KindIn, IdIn;
    Unfold(w, AwaitPubrec);
    Unfold(Step(w, AwaitPubrec).0, Step(w, AwaitPubrec).1);
  }

  /** What follows the PUBLISH of a QoS 2 exchange. */
  lemma AfterPublish(w: World)
    requires w.sess.socket >= 0
    ensures var first := Overlay(RL.Zeros(4), Nth(w, 0).data);
            var id := IdIn(first);
            var pubrel := Sent(Encode(Ack(PUBREL, id)));
            var second := Overlay(Encode(Ack(PUBREL, id)), Nth(w, 2).data);
            Ends(Exec(w, AwaitPubrec).0, ExecEvents(w, AwaitPubrec),
              if Nth(w, 0).ret < 0 then (Nth(w, 0).ret, [ReceiveFailed])
              else if KindIn(first) != PUBREC then (-E_NET_CONN, [Received(first)])
              else if Nth(w, 1).ret < 0 then (-E_NET_XFER, [Received(first), SendFailed])
              else if Nth(w, 2).ret < 0 then (-E_NET_XFER, [Received(first), pubrel, ReceiveFailed])
              else (if KindIn(second) == PUBCOMP then E_NONE else -E_SESS_ACK,
                    [Received(first), pubrel, Received(second)]))
  {
    hide Exec, ExecSends, ExecEvents, Encode, KindIn, IdIn, Overlay;
    var first := Overlay(RL.Zeros(4), Nth(w, 0).data);
    var id := IdIn(first);
    var w2 := w.(net := After(w.net, [Received(first)]));
    var w3 := w2.(net := After(w2.net, [Sent(Encode(Ack(PUBREL, id)))]));
    assert Coming(w.net) == Nth(w, 0) && Coming(w2.net) == Nth(w, 1) && Coming(w3.net) == Nth(w, 2);
    FromPubrec(w);
    FromPubrel(w2, id);
    FromPubcomp(w3, id);
  }

  lemma PublishStep(w: World, p: Packet)
    requires w.sess.socket >= 0
    ensures var next := w.(net := After(w.net, [Sent(Encode(p))]));
            Ends(Exec(w, SendPublish(p, 2)).0, ExecEvents(w, SendPublish(p, 2)),
              if Coming(w.net).ret < 0 then (-E_NET_CONN, [SendFailed])
              else (Exec(next, AwaitPubrec).0, [Sent(Encode(p))] + ExecEvents(next, AwaitPubrec)))
  {
    hide Exec, ExecSends, ExecEvents, Encode;
    Unfold(w, SendPublish(p, 2));
    Unfold(Step(w, SendPublish(p, 2)).0, Step(w, SendPublish(p, 2)).1);
  }

  /** What a QoS 2 publish does against a peer that answers anything, or nothing; in the C code, any reply whose
      second byte is below 128. */
  lemma ExactlyOnceEvents(w: World, call: Call)
    requires CallOk(call) && call.DoPublish? && Exactly2(w.sess, call) && w.sess.socket >= 0
    ensures var publish, pubrel := Sent(Encode(Asked(w.sess, call))), Sent(Encode(Ack(PUBREL, IdIn(FirstReply(w)))));
            Ends(Run(w, call).0, RunEvents(w, call),
              if Nth(w, 0).ret < 0 then (-E_NET_CONN, [SendFailed])
              else if Nth(w, 1).ret < 0 then (Nth(w, 1).ret, [publish, ReceiveFailed])
              else if KindIn(FirstReply(w)) != PUBREC then (-E_NET_CONN, [publish, Received(FirstReply(w))])
              else if Nth(w, 2).ret < 0 then (-E_NET_XFER, [publish, Received(FirstReply(w)), SendFailed])
              else if Nth(w, 3).ret < 0 then (-E_NET_XFER, [publish, Received(FirstReply(w)), pubrel, ReceiveFailed])
              else (if KindIn(SecondReply(w)) == PUBCOMP then E_NONE else -E_SESS_ACK,
                    [publish, Received(FirstReply(w)), pubrel, Received(SecondReply(w))]))
  {
    hide Exec, ExecSends, ExecEvents, Encode, PublishPacket, KindIn, IdIn, Overlay;
    BeginQuiet(w, call);
    var w1 := Begin(w, call).0;
    var p := Asked(w.sess, call);
    assert RunEvents(w, call) == ExecEvents(w1, SendPublish(p, 2));
    var w2 := w1.(net := After(w1.net, [Sent(Encode(p))]));
    assert Nth(w2, 0) == Nth(w, 1) && Nth(w2, 1) == Nth(w, 2) && Nth(w2, 2) == Nth(w, 3);
    PublishStep(w1, p);
    AfterPublish(w2);
  }

  lemma FirstByte(p: Packet)
    ensures Encode(p) != [] && FlagOf(Encode(p)[0]) == HeaderOf(p)
  {
    FlagInverse(HeaderOf(p), 0);
    assert Encode(p)[0] == FlagByte(HeaderOf(p));
  }

  predicate IsPubrel(e: Event) {
    e.Sent? && e.frame != [] && e.frame[0] / 16 == 6
  }

  /** Against any peer: PUBREL is sent at most once, only after a PUBREC in the same exchange, with that PUBREC's
      id; and the call returns E_NONE exactly when both sends succeeded and PUBREC and then PUBCOMP came back.
      The C code keeps to this for replies whose second byte is below 128. */
  lemma ExactlyOnceSender(w: World, call: Call)
    requires CallOk(call) && call.DoPublish? && (if 0 <= call.qos <= 2 then call.qos else w.sess.config.qos) == 2
    requires w.sess.socket >= 0
    ensures var events := RunEvents(w, call);
            && (forall i :: 0 <= i < |events| && IsPubrel(events[i]) ==>
                  && i == 2 && events[1].Received? && |events[1].buf| == 4 && events[1].buf[0] / 16 == 5
                  && events[2] == Sent([0x62, 2, events[1].buf[2], events[1].buf[3]]))
            && (Run(w, call).0 == E_NONE <==>
                  && |events| == 4 && events[0].Sent?
                  && events[1].Received? && |events[1].buf| == 4 && events[1].buf[0] / 16 == 5
                  && events[2].Sent?
                  && events[3].Received? && |events[3].buf| == 4 && events[3].buf[0] / 16 == 7)
  {
    hide Exec, ExecSends, ExecEvents, Encode, Overlay;
    ExactlyOnceEvents(w, call);
    FirstByte(Asked(w.sess, call));
    Layout.AckBytes(IdIn(FirstReply(w)));
    BytesOfId(FirstReply(w));
  }

  lemma BytesOfId(buf: bytes)
    requires |buf| == 4
    ensures IdIn(buf) / 256 == buf[2] && IdIn(buf) % 256 == buf[3]
  {
  }

  // ---------------------------------------------------------------- one request, one reply

  /** The packet type that answers a call, and the size of the buffer it is received into. */
  function Reply(s: Sess, call: Call): Option<(int, nat)> {
    match call
    case DoPublish(_, _, qos, _) => if Effective(s.config, qos) == 1 then Some((PUBACK, 4)) else None
    case DoSubscribe(_, _) => Some((SUBACK, 5))
    case DoUnsubscribe(_) => Some((UNSUBACK, 4))
    case DoPingreq => Some((PINGRESP, 2))
    case _ => None
  }

  lemma AwaitEnds(w: World, c: Control)
    requires c.AwaitPuback? || c.AwaitSuback? || c.AwaitUnsuback? || c.AwaitPingresp?
    requires w.sess.socket >= 0
    ensures var o := Coming(w.net);
            var reply := Overlay(Wants(c).stale, o.data);
            Exec(w, c).0 == E_NONE <==>
              o.ret >= 0
              && KindIn(reply) == (if c.AwaitPuback? then PUBACK else if c.AwaitSuback? then SUBACK
                                   else if c.AwaitUnsuback? then UNSUBACK else PINGRESP)
              && (c.AwaitSuback? ==> ByteIn(reply, 4) < 128)
  {
    hide Exec, ExecSends, ExecEvents, Encode, Overlay, KindIn, ByteIn;
    Unfold(w, c);
    Unfold(Step(w, c).0, Step(w, c).1);
  }

  /** A call that expects one reply returns E_NONE exactly when the request went out and a reply of the right type
      came back; a SUBACK must not refuse, either. The C code keeps to this for replies whose second byte is
      below 128. */
  lemma AnsweredIff(w: World, call: Call)
    requires CallOk(call) && Reply(w.sess, call).Some? && w.sess.socket >= 0
    ensures var (kind, size) := Reply(w.sess, call).value;
            var reply := Overlay(RL.Zeros(size), Nth(w, 1).data);
            Run(w, call).0 == E_NONE <==>
              && Nth(w, 0).ret >= 0 && Nth(w, 1).ret >= 0 && KindIn(reply) == kind
              && (call.DoSubscribe? ==> ByteIn(reply, 4) < 128)
  {
    hide Exec, ExecSends, ExecEvents, Encode, Overlay, KindIn, ByteIn;
    hide PublishPacket, SubscribePacket, UnsubscribePacket;
    hide Step;
    BeginQuiet(w, call);
    var (w1, c1) := Begin(w, call);
    assert Coming(w1.net) == Nth(w, 0);
    RequestStep(w1, c1);
    var w2 := Step(w1, c1).0;
    assert Nth(w1, 0) == Nth(w, 0) && Coming(w2.net) == Nth(w, 1);
    AwaitEnds(w2, Onward(w1, c1));
  }

  lemma RequestStep(w: World, c: Control)
    requires c.SendSubscribe? || c.SendUnsubscribe? || c.SendPingreq? || (c.SendPublish? && c.qos == 1)
    requires w.sess.socket >= 0
    ensures Exec(w, c).0 == E_NONE <==> Coming(w.net).ret >= 0 && Exec(Step(w, c).0, Onward(w, c)).0 == E_NONE
    ensures Step(w, c).0.sess == w.sess && Step(w, c).0.net.script == After(w.net, []).script
  {
    hide Exec, ExecSends, ExecEvents, Encode, Overlay;
    Unfold(w, c);
    Unfold(Step(w, c).0, Step(w, c).1);
  }

  // ---------------------------------------------------------------- where the code and the standard part

  /** A PUBACK carries the session's own next id, so it answers the PUBLISH by its id (section 2.3.1 of MQTT 3.1.1)
      exactly when the two happen to be equal. */
  lemma PubackEchoIff(w: World, frame: bytes)
    requires CallOk(DoOnPublish(frame)) && FlagOf(frame[0]).kind == PUBLISH && FlagOf(frame[0]).qos == 1
    requires w.sess.socket >= 0 && Nth(w, 0).ret >= 0
    ensures RunSends(w, DoOnPublish(frame)) == [Ack(PUBACK, w.sess.nextId)]
    ensures RunSends(w, DoOnPublish(frame)) == [Ack(PUBACK, ViewPublish(frame).vars.id)]
       <==> w.sess.nextId == ViewPublish(frame).vars.id
  {
    hide Encode, PublishInBounds, ViewPublish, ExecSends, Exec, ExecEvents;
    var (w1, c1) := Begin(w, DoOnPublish(frame));
    Unfold(w1, c1);
    Unfold(Step(w1, c1).0, Step(w1, c1).1);
  }

  lemma PubcompSends(w: World, id: uint16)
    requires w.sess.socket >= 0 && Coming(w.net).ret >= 0
    ensures ExecSends(w, SendPubcomp(id)) == [Ack(PUBCOMP, id)]
  {
    hide Exec, ExecSends, ExecEvents, Encode;
    Unfold(w, SendPubcomp(id));
    Unfold(Step(w, SendPubcomp(id)).0, Step(w, SendPubcomp(id)).1);
  }

  lemma PubrelSends(w: World)
    requires w.sess.socket >= 0 && Nth(w, 1).ret >= 0
    ensures ExecSends(w, AwaitPubrel) == [Ack(PUBCOMP, w.sess.nextId)]
  {
    hide Exec, ExecSends, ExecEvents, Encode, Overlay;
    Unfold(w, AwaitPubrel);
    PubcompSends(Step(w, AwaitPubrel).0, w.sess.nextId);
  }

  lemma PubrecSends(w: World, id: uint16)
    requires w.sess.socket >= 0 && Nth(w, 0).ret >= 0 && Nth(w, 2).ret >= 0
    ensures ExecSends(w, SendPubrec(id)) == [Ack(PUBREC, id), Ack(PUBCOMP, w.sess.nextId)]
  {
    hide Exec, ExecSends, ExecEvents, Encode;
    Unfold(w, SendPubrec(id));
    var w' := Step(w, SendPubrec(id)).0;
    assert Nth(w', 1) == Nth(w, 2);
    PubrelSends(w');
  }

  /** For QoS 2 the two answers never both carry the id of the PUBLISH: their own ids differ. */
  lemma PubrecPubcompNeverEcho(w: World, frame: bytes)
    requires CallOk(DoOnPublish(frame)) && FlagOf(frame[0]).kind == PUBLISH && FlagOf(frame[0]).qos == 2
    requires w.sess.socket >= 0 && Nth(w, 0).ret >= 0 && Nth(w, 2).ret >= 0
    ensures var n := w.sess.nextId;
            RunSends(w, DoOnPublish(frame)) == [Ack(PUBREC, n), Ack(PUBCOMP, (n + 1) % 0x1_0000)]
    ensures exists p :: p in RunSends(w, DoOnPublish(frame)) && p.id != ViewPublish(frame).vars.id
  {
    hide Encode, PublishInBounds, ViewPublish, ExecSends, Exec, ExecEvents, Overlay, Step, StepSends;
    var (w1, c1) := Begin(w, DoOnPublish(frame));
    PubrecSends(w1, w.sess.nextId);
    var ps := RunSends(w, DoOnPublish(frame));
    assert ps[0] in ps && ps[1] in ps;
  }

  /** Connect marks the session connected as soon as any reply arrives, so the mark is there without an acceptance
      exactly when a socket was there or was obtained, dialling, sending and receiving went through, and the reply
      was not an accepting CONNACK. A retry after a failure dials with the socket it still has. */
  lemma ConnectedWithoutAcceptanceIff(w: World)
    requires !w.sess.connected
    ensures var (r, w') := Run(w, DoConnect);
            var k := if w.sess.socket < 0 then 1 else 0;
            var reply := Overlay(RL.Zeros(4), Nth(w, k + 2).data);
            && (w'.sess.connected && r != E_NONE <==>
                  && (k == 1 ==> Nth(w, 0).ret >= 0)
                  && Nth(w, k).ret == 0 && Nth(w, k + 1).ret >= 0 && Nth(w, k + 2).ret >= 0
                  && !(KindIn(reply) == CONNACK && ByteIn(reply, 3) == 0))
            && (r == E_NONE ==> w'.sess.connected)
  {
    hide Run, RunSends, Overlay, KindIn, ByteIn, ConnectPacket;
    ConnectEnds(w);
  }
}
