/** The request/response protocol of the browser command broker as interleaved atomic steps.

    Every goroutine of the source is cut at its lock boundaries and channel operations: commands,
    reconnects, read loops, disconnects and the goroutines that hand results to waiters interleave
    freely. Request ids, channels, accepted connections and deliveries are fresh when they appear. */
module BrokerProtocol {
  import opened Options
  import opened BrokerState

  type ChannelId = nat
  type DeliveryId = nat

  /** A one-slot result channel and everything ever put into it. */
  datatype Channel = Channel(slot: Option<Reply>, history: seq<Reply>)

  /** A goroutine that took channels out of `pending` and has yet to put `reply` into each. */
  datatype Delivery = Delivery(todo: map<RequestId, ChannelId>, reply: Reply)

  datatype Outcome = Returned(reply: Reply) | GaveUp | NoRuntime

  /** Where a call of `Execute` is. */
  datatype Pc =
    | Writing      // registered; the command frame is being written
    | WriteFailed  // the write returned an error; the entry is about to be removed
    | Unregistered // entry removed after a failed write; the context is about to be checked
    | Dropping     // the context is still live; the connection is about to be dropped
    | Waiting      // selecting on the context and the result channel
    | Cancelling   // the context fired; the entry is about to be removed
    | Cancelled    // entry removed; the cancel frame is being written
    | Finished(outcome: Outcome)
  {
    /** The stages between registration and giving up. */
    predicate Awaiting() {
      Writing? || WriteFailed? || Waiting? || Cancelling?
    }
  }

  datatype Request = Refused | Request(conn: ConnId, ch: ChannelId, pc: Pc)

  datatype State = State(
    core: Core<ChannelId>,
    channels: map<ChannelId, Channel>,
    deliveries: map<DeliveryId, Delivery>,
    requests: map<RequestId, Request>,
    accepted: set<ConnId>)

  datatype Action =
    | Start(id: RequestId, ch: ChannelId)
    | WriteReturns(id: RequestId, ok: bool)
    | RemoveEntry(id: RequestId)
    | CheckContext(id: RequestId, cancelled: bool)
    | DropConnection(id: RequestId, d: DeliveryId)
    | ContextFires(id: RequestId)
    | CancelSent(id: RequestId)
    | Receive(id: RequestId)
    | Accept(k: ConnId, now: Time, d: DeliveryId)
    | Read(m: Message, d: DeliveryId)
    | ReaderEnds(k: ConnId, d: DeliveryId)
    | Deliver(d: DeliveryId, id: RequestId)

  const INIT := State(BrokerState.NoRuntime(), map[], map[], map[], {})

  predicate At(s: State, id: RequestId, pc: Pc) {
    id in s.requests && s.requests[id].Request? && s.requests[id].pc == pc
  }

  predicate Enabled(s: State, a: Action) {
    match a
    case Start(id, ch) => id !in s.requests && ch !in s.channels
    case WriteReturns(id, _) => At(s, id, Writing)
    case RemoveEntry(id) => At(s, id, WriteFailed) || At(s, id, Cancelling)
    case CheckContext(id, _) => At(s, id, Unregistered)
    case DropConnection(id, d) => At(s, id, Dropping) && d !in s.deliveries
    case ContextFires(id) => At(s, id, Waiting)
    case CancelSent(id) => At(s, id, Cancelled)
    case Receive(id) =>
      && At(s, id, Waiting)
      && s.requests[id].ch in s.channels
      && s.channels[s.requests[id].ch].slot.Some?
    case Accept(k, _, d) => k !in s.accepted && d !in s.deliveries
    case Read(m, d) => m.id != "" && d !in s.deliveries
    case ReaderEnds(k, d) => k in s.accepted && d !in s.deliveries
    // A send on a full one-slot channel blocks, so it is enabled only while the slot is empty.
    case Deliver(d, id) =>
      && d in s.deliveries && id in s.deliveries[d].todo
      && s.deliveries[d].todo[id] in s.channels
      && s.channels[s.deliveries[d].todo[id]].slot.None?
  }

  function Moved(s: State, id: RequestId, pc: Pc): State
    requires id in s.requests && s.requests[id].Request?
  {
    s.(requests := s.requests[id := s.requests[id].(pc := pc)])
  }

  function Disconnect(s: State, k: ConnId, d: DeliveryId): State {
    s.(core := Disconnected(s.core, k),
       deliveries := s.deliveries[d := Delivery(TakenByDisconnect(s.core, k), Unavailable)])
  }

  function Apply(s: State, a: Action): State
    requires Enabled(s, a)
  {
    match a
    case Start(id, ch) =>
      var t := s.(core := Registered(s.core, id, ch), channels := s.channels[ch := Channel(None, [])]);
      t.(requests := s.requests[id :=
        if s.core.conn.None? then Refused else Request(s.core.conn.value, ch, Writing)])
    case WriteReturns(id, ok) => Moved(s, id, if ok then Waiting else WriteFailed)
    case RemoveEntry(id) =>
      var t := Moved(s, id, if s.requests[id].pc.WriteFailed? then Unregistered else Cancelled);
      t.(core := Removed(s.core, id))
    case CheckContext(id, cancelled) => Moved(s, id, if cancelled then Finished(GaveUp) else Dropping)
    case DropConnection(id, d) => Disconnect(Moved(s, id, Finished(NoRuntime)), s.requests[id].conn, d)
    case ContextFires(id) => Moved(s, id, Cancelling)
    case CancelSent(id) => Moved(s, id, Finished(GaveUp))
    case Receive(id) =>
      var ch := s.requests[id].ch;
      var t := Moved(s, id, Finished(Returned(s.channels[ch].slot.value)));
      t.(channels := s.channels[ch := s.channels[ch].(slot := None)])
    case Accept(k, now, d) =>
      s.(core := Replaced(k, now),
         deliveries := s.deliveries[d := Delivery(s.core.pending, Unavailable)],
         accepted := s.accepted + {k})
    case Read(m, d) =>
      s.(core := Removed(s.core, m.id),
         deliveries := s.deliveries[d := Delivery(TakenByResolve(s.core, m.id), Answer(m.id, Decode(m)))])
    case ReaderEnds(k, d) => Disconnect(s, k, d)
    case Deliver(d, id) =>
      var x := s.deliveries[d];
      var ch := x.todo[id];
      s.(deliveries := s.deliveries[d := x.(todo := x.todo - {id})],
         channels := s.channels[ch := Channel(Some(x.reply), s.channels[ch].history + [x.reply])])
  }

  predicate Legal(s: State, actions: seq<Action>)
    decreases |actions|
  {
    actions == [] || (Enabled(s, actions[0]) && Legal(Apply(s, actions[0]), actions[1..]))
  }

  function Run(s: State, actions: seq<Action>): State
    requires Legal(s, actions)
    decreases |actions|
  {
    if actions == [] then s else Run(Apply(s, actions[0]), actions[1..])
  }

  // ---------- the inductive invariant ----------

  predicate Live(s: State, id: RequestId) {
    id in s.requests && s.requests[id].Request?
  }

  ghost predicate HeldBy(s: State, d: DeliveryId, id: RequestId) {
    d in s.deliveries && id in s.deliveries[d].todo
  }

  ghost predicate Held(s: State, id: RequestId) {
    exists d :: HeldBy(s, d, id)
  }

  /** Each request owns its channel, and the channel holds at most the one reply meant for it. */
  ghost predicate ChannelsOwned(s: State) {
    && (forall id :: Live(s, id) ==> s.requests[id].ch in s.channels)
    && (forall i, j :: Live(s, i) && Live(s, j) && s.requests[i].ch == s.requests[j].ch ==> i == j)
  }

  ghost predicate ChannelSound(s: State, id: RequestId)
    requires Live(s, id) && s.requests[id].ch in s.channels
  {
    var c := s.channels[s.requests[id].ch];
    && |c.history| <= 1
    && (c.slot.Some? ==> c.history == [c.slot.value])
    && (forall x :: x in c.history && x.Answer? ==> x.from == id)
    && (if s.requests[id].pc.Finished? && s.requests[id].pc.outcome.Returned?
        then c.history == [s.requests[id].pc.outcome.reply] && c.slot.None?
        else c.history != [] ==> c.slot.Some?)
  }

  /** A channel in `pending` belongs to a command on the current connection and is still unsent. */
  ghost predicate PendingSound(s: State) {
    forall id :: id in s.core.pending ==> EntrySound(s, id)
  }

  ghost predicate EntrySound(s: State, id: RequestId)
    requires id in s.core.pending
  {
    && Live(s, id) && s.core.pending[id] == s.requests[id].ch
    && s.requests[id].pc.Awaiting()
    && s.core.conn == Some(s.requests[id].conn)
    && s.requests[id].ch in s.channels && s.channels[s.requests[id].ch].history == []
    && !Held(s, id)
  }

  ghost predicate DeliverySound(s: State, d: DeliveryId, id: RequestId)
    requires HeldBy(s, d, id)
  {
    && Live(s, id) && s.deliveries[d].todo[id] == s.requests[id].ch
    && s.requests[id].ch in s.channels && s.channels[s.requests[id].ch].history == []
    && (s.deliveries[d].reply.Answer? ==> s.deliveries[d].reply.from == id)
  }

  /** A channel taken by a delivery is owned by that delivery alone and is still unsent. */
  ghost predicate DeliveriesSound(s: State) {
    && (forall d, id :: HeldBy(s, d, id) ==> DeliverySound(s, d, id))
    && (forall d, e, id :: HeldBy(s, d, id) && HeldBy(s, e, id) ==> d == e)
  }

  /** Until a request gives up, somebody owes it a reply or has already put one. */
  ghost predicate Covered(s: State) {
    forall id :: Live(s, id) && s.requests[id].pc.Awaiting() && s.requests[id].ch in s.channels ==>
      id in s.core.pending || Held(s, id) || |s.channels[s.requests[id].ch].history| == 1
  }

  ghost predicate ConnectionsSound(s: State) {
    && (s.core.conn.Some? ==> s.core.conn.value in s.accepted)
    && (s.core.conn.Some? <==> s.core.connectedAt.Some?)
    && (forall id :: Live(s, id) ==> s.requests[id].conn in s.accepted)
  }

  ghost predicate Inv(s: State) {
    && ChannelsOwned(s)
    && (forall id :: Live(s, id) ==> ChannelSound(s, id))
    && PendingSound(s)
    && DeliveriesSound(s)
    && Covered(s)
    && ConnectionsSound(s)
  }

  /** The channels a step takes out of `pending`, all of them for the delivery it starts. */
  function Taken(s: State, a: Action): map<RequestId, ChannelId>
    requires Enabled(s, a)
  {
    match a
    case DropConnection(id, _) => TakenByDisconnect(s.core, s.requests[id].conn)
    case Accept(_, _, _) => s.core.pending
    case Read(m, _) => TakenByResolve(s.core, m.id)
    case ReaderEnds(k, _) => TakenByDisconnect(s.core, k)
    case _ => map[]
  }

  /** The delivery a step starts. */
  function Started(a: Action): Option<DeliveryId> {
    match a
    case DropConnection(_, d) => Some(d)
    case Accept(_, _, d) => Some(d)
    case Read(_, d) => Some(d)
    case ReaderEnds(_, d) => Some(d)
    case _ => None
  }

  lemma HeldAfter(s: State, a: Action)
    requires Enabled(s, a)
    ensures forall d: DeliveryId, i :: HeldBy(Apply(s, a), d, i) <==>
      (HeldBy(s, d, i) && a != Deliver(d, i)) || (Started(a) == Some(d) && i in Taken(s, a))
  {
  }

  lemma StepKeepsConnections(s: State, a: Action)
    requires ConnectionsSound(s) && Enabled(s, a)
    ensures ConnectionsSound(Apply(s, a))
  {
  }

  lemma StepKeepsOwnership(s: State, a: Action)
    requires ChannelsOwned(s) && Enabled(s, a)
    ensures ChannelsOwned(Apply(s, a))
  {
  }

  lemma StepKeepsChannel(s: State, a: Action, id: RequestId)
    requires ChannelsOwned(s) && DeliveriesSound(s) && (Live(s, id) ==> ChannelSound(s, id))
    requires Enabled(s, a) && Live(Apply(s, a), id)
    ensures Apply(s, a).requests[id].ch in Apply(s, a).channels && ChannelSound(Apply(s, a), id)
  {
    if Live(s, id) {
      assert ChannelSound(s, id);
      if a.Deliver? {
        assert DeliverySound(s, a.d, a.id);
      }
    }
  }

  lemma StepKeepsChannels(s: State, a: Action)
    requires Inv(s) && Enabled(s, a)
    ensures ChannelsOwned(Apply(s, a))
    ensures forall id :: Live(Apply(s, a), id) ==> ChannelSound(Apply(s, a), id)
  {
    StepKeepsOwnership(s, a);
    forall id | Live(Apply(s, a), id)
      ensures ChannelSound(Apply(s, a), id)
    {
      StepKeepsChannel(s, a, id);
    }
  }

  lemma StartKeepsEntry(s: State, a: Action, id: RequestId)
    requires Inv(s) && Enabled(s, a) && a.Start? && id in Apply(s, a).core.pending
    ensures EntrySound(Apply(s, a), id)
  {
    HeldAfter(s, a);
    if id in s.core.pending {
      assert EntrySound(s, id);
    }
  }

  lemma DeliverKeepsEntry(s: State, a: Action, id: RequestId)
    requires Inv(s) && Enabled(s, a) && a.Deliver? && id in Apply(s, a).core.pending
    ensures EntrySound(Apply(s, a), id)
  {
    HeldAfter(s, a);
    assert EntrySound(s, id) && DeliverySound(s, a.d, a.id) && Held(s, a.id);
    assert a.id != id && s.requests[a.id].ch != s.requests[id].ch;
  }

  lemma StepKeepsEntry(s: State, a: Action, id: RequestId)
    requires Inv(s) && Enabled(s, a) && id in Apply(s, a).core.pending
    ensures EntrySound(Apply(s, a), id)
  {
    if a.Start? {
      StartKeepsEntry(s, a, id);
    } else if a.Deliver? {
      DeliverKeepsEntry(s, a, id);
    } else {
      HeldAfter(s, a);
      assert EntrySound(s, id);
    }
  }

  lemma StepKeepsPending(s: State, a: Action)
    requires Inv(s) && Enabled(s, a)
    ensures PendingSound(Apply(s, a))
  {
    forall id | id in Apply(s, a).core.pending
      ensures EntrySound(Apply(s, a), id)
    {
      StepKeepsEntry(s, a, id);
    }
  }

  lemma StepKeepsDeliveries(s: State, a: Action)
    requires Inv(s) && Enabled(s, a)
    ensures DeliveriesSound(Apply(s, a))
  {
    HeldAfter(s, a);
    var t := Apply(s, a);
    forall d: DeliveryId, id | HeldBy(t, d, id)
      ensures DeliverySound(t, d, id) && (HeldBy(s, d, id) || (Started(a) == Some(d) && id in s.core.pending))
    {
      if HeldBy(s, d, id) {
        OldDeliveryStaysSound(s, a, d, id);
      } else {
        NewDeliveryIsSound(s, a, id);
      }
    }
  }

  lemma OldDeliveryStaysSound(s: State, a: Action, d: DeliveryId, id: RequestId)
    requires ChannelsOwned(s) && DeliveriesSound(s) && Enabled(s, a) && HeldBy(s, d, id) && HeldBy(Apply(s, a), d, id)
    ensures DeliverySound(Apply(s, a), d, id)
  {
    assert DeliverySound(s, d, id);
    if a.Deliver? {
      assert HeldBy(s, a.d, a.id);
    }
  }

  lemma NewDeliveryIsSound(s: State, a: Action, id: RequestId)
    requires Inv(s) && Enabled(s, a) && Started(a).Some? && id in Taken(s, a)
    ensures id in s.core.pending && HeldBy(Apply(s, a), Started(a).value, id)
    ensures DeliverySound(Apply(s, a), Started(a).value, id)
  {
  }

  lemma StepKeepsCovered(s: State, a: Action)
    requires Inv(s) && Enabled(s, a)
    ensures Covered(Apply(s, a))
  {
    HeldAfter(s, a);
    StepKeepsChannels(s, a);
    var t := Apply(s, a);
    forall id | Live(t, id) && t.requests[id].pc.Awaiting() && t.requests[id].ch in t.channels
      ensures id in t.core.pending || Held(t, id) || |t.channels[t.requests[id].ch].history| == 1
    {
      if id in Taken(s, a) {
        assert HeldBy(t, Started(a).value, id);
      } else if Held(s, id) {
        var d :| HeldBy(s, d, id);
        assert DeliverySound(s, d, id);
        assert a != Deliver(d, id) ==> HeldBy(t, d, id);
      }
    }
  }

  /** Every step keeps the invariant. */
  lemma StepKeepsInv(s: State, a: Action)
    requires Inv(s) && Enabled(s, a)
    ensures Inv(Apply(s, a))
  {
    StepKeepsChannels(s, a);
    StepKeepsPending(s, a);
    StepKeepsDeliveries(s, a);
    StepKeepsCovered(s, a);
    StepKeepsConnections(s, a);
  }

  lemma {:induction false} RunKeepsInv(s: State, actions: seq<Action>)
    requires Inv(s) && Legal(s, actions)
    ensures Inv(Run(s, actions))
    decreases |actions|
  {
    if actions != [] {
      StepKeepsInv(s, actions[0]);
      RunKeepsInv(Apply(s, actions[0]), actions[1..]);
    }
  }

  // ---------- what the protocol promises over whole runs ----------

  /** In every interleaving a result channel is sent to at most once, every decoded reply it gets
      carries the id of the request that owns it, and no sender is ever blocked by a full slot. */
  lemma AtMostOneReplyEach(actions: seq<Action>)
    requires Legal(INIT, actions)
    ensures var s := Run(INIT, actions);
      && (forall id :: Live(s, id) ==>
          && s.requests[id].ch in s.channels
          && |s.channels[s.requests[id].ch].history| <= 1
          && (forall x :: x in s.channels[s.requests[id].ch].history && x.Answer? ==> x.from == id))
      && (forall d, id :: HeldBy(s, d, id) ==> Enabled(s, Deliver(d, id)))
  {
    RunKeepsInv(INIT, actions);
    var s := Run(INIT, actions);
    forall d, id | HeldBy(s, d, id)
      ensures Enabled(s, Deliver(d, id))
    {
      assert ChannelSound(s, id);
    }
  }

  /** The value a call of `Execute` returns was the single reply put into its own channel. */
  lemma ReturnedReplyIsOwn(actions: seq<Action>, id: RequestId, x: Reply)
    requires Legal(INIT, actions) && At(Run(INIT, actions), id, Finished(Returned(x)))
    ensures var s := Run(INIT, actions);
      && s.requests[id].ch in s.channels && s.channels[s.requests[id].ch].history == [x]
      && (x.Answer? ==> x.from == id)
  {
    RunKeepsInv(INIT, actions);
    var s := Run(INIT, actions);
    assert ChannelSound(s, id);
    assert x in s.channels[s.requests[id].ch].history;
  }

  /** No waiter is stranded: from registration until a request gives up, its entry is in `pending`
      and the current connection is the one it captured, or exactly one sender has taken its
      channel, or its reply has been put and is still in the slot. */
  lemma NoWaiterStranded(actions: seq<Action>, id: RequestId)
    requires Legal(INIT, actions)
    requires var s := Run(INIT, actions); Live(s, id) && s.requests[id].pc.Awaiting()
    ensures var s := Run(INIT, actions);
      || (id in s.core.pending && s.core.conn == Some(s.requests[id].conn))
      || (exists d :: HeldBy(s, d, id) && forall e :: HeldBy(s, e, id) ==> e == d)
      || (s.requests[id].ch in s.channels && s.channels[s.requests[id].ch].slot.Some?)
  {
    RunKeepsInv(INIT, actions);
    var s := Run(INIT, actions);
    assert ChannelSound(s, id);
    if Held(s, id) {
      var d :| HeldBy(s, d, id);
    }
  }

  /** `pending` is empty whenever there is no connection, and the status fields agree. */
  lemma NoConnectionNoPending(actions: seq<Action>)
    requires Legal(INIT, actions)
    ensures var c := Run(INIT, actions).core;
      && (c.conn.None? ==> c == BrokerState.NoRuntime())
      && (c.conn.Some? <==> c.connectedAt.Some?)
  {
    RunKeepsInv(INIT, actions);
    var s := Run(INIT, actions);
    assert s.core.conn.None? ==> forall id :: id !in s.core.pending;
  }

  lemma StepRetires(s: State, a: Action, k: ConnId)
    requires Enabled(s, a) && k in s.accepted && s.core.conn != Some(k)
    ensures k in Apply(s, a).accepted && Apply(s, a).core.conn != Some(k)
  {
  }

  /** A connection that was replaced or dropped never becomes current again. */
  lemma {:induction false} RetiredStaysRetired(s: State, actions: seq<Action>, k: ConnId)
    requires Legal(s, actions) && k in s.accepted && s.core.conn != Some(k)
    ensures k in Run(s, actions).accepted && Run(s, actions).core.conn != Some(k)
    decreases |actions|
  {
    if actions != [] {
      StepRetires(s, actions[0], k);
      RetiredStaysRetired(Apply(s, actions[0]), actions[1..], k);
    }
  }

  lemma {:induction false} RunSplits(s: State, before: seq<Action>, after: seq<Action>)
    requires Legal(s, before + after)
    ensures Legal(s, before) && Legal(Run(s, before), after)
    ensures Run(s, before + after) == Run(Run(s, before), after)
    decreases |before|
  {
    if before == [] {
      assert before + after == after;
    } else {
      assert (before + after)[1..] == before[1..] + after;
      RunSplits(Apply(s, before[0]), before[1..], after);
    }
  }

  /** However late a replaced connection's read loop ends, its disconnect leaves the connection
      fields, every pending entry, every channel and every request as they were. */
  lemma LateDisconnectIsHarmless(before: seq<Action>, after: seq<Action>, k: ConnId, d: DeliveryId)
    requires Legal(INIT, before + after + [ReaderEnds(k, d)])
    requires Legal(INIT, before) && k in Run(INIT, before).accepted && Run(INIT, before).core.conn != Some(k)
    ensures Legal(INIT, before + after)
    ensures var s := Run(INIT, before + after); var t := Run(INIT, before + after + [ReaderEnds(k, d)]);
      && t.core == s.core && t.channels == s.channels && t.requests == s.requests
      && forall e, id :: HeldBy(t, e, id) <==> HeldBy(s, e, id)
  {
    RunSplits(INIT, before + after, [ReaderEnds(k, d)]);
    RunSplits(INIT, before, after);
    RetiredStaysRetired(Run(INIT, before), after, k);
    var s := Run(INIT, before + after);
    assert Run(s, [ReaderEnds(k, d)]) == Apply(s, ReaderEnds(k, d));
    assert Disconnect(s, k, d).deliveries[d].todo == map[];
  }

  ghost predicate Answers(s: State, id: RequestId, more: seq<Action>) {
    && Legal(s, more)
    && Live(Run(s, more), id)
    && Run(s, more).requests[id].pc.Finished? && Run(s, more).requests[id].pc.outcome.Returned?
  }

  lemma SlotAnswers(s: State, id: RequestId)
    requires Inv(s) && At(s, id, Waiting)
    requires s.requests[id].ch in s.channels && s.channels[s.requests[id].ch].slot.Some?
    ensures Answers(s, id, [Receive(id)])
  {
    assert Run(s, [Receive(id)]) == Run(Apply(s, Receive(id)), []);
  }

  lemma DeliveryAnswers(s: State, id: RequestId, d: DeliveryId)
    requires Inv(s) && At(s, id, Waiting) && HeldBy(s, d, id)
    ensures Answers(s, id, [Deliver(d, id), Receive(id)])
  {
    assert ChannelSound(s, id);
    StepKeepsInv(s, Deliver(d, id));
    SlotAnswers(Apply(s, Deliver(d, id)), id);
    assert [Deliver(d, id), Receive(id)][1..] == [Receive(id)];
  }

  lemma LostConnectionAnswers(s: State, id: RequestId, d: DeliveryId)
    requires Inv(s) && At(s, id, Waiting) && id in s.core.pending && d !in s.deliveries
    ensures Answers(s, id, [ReaderEnds(s.requests[id].conn, d), Deliver(d, id), Receive(id)])
  {
    var lost := ReaderEnds(s.requests[id].conn, d);
    StepKeepsInv(s, lost);
    assert HeldBy(Apply(s, lost), d, id);
    DeliveryAnswers(Apply(s, lost), id, d);
    assert [lost, Deliver(d, id), Receive(id)][1..] == [Deliver(d, id), Receive(id)];
  }

  lemma InvariantStateAnswers(s: State, id: RequestId, unused: DeliveryId) returns (more: seq<Action>)
    requires Inv(s) && At(s, id, Waiting) && unused !in s.deliveries
    ensures |more| <= 3 && forall a :: a in more ==> a.ReaderEnds? || a.Deliver? || a.Receive?
    ensures Answers(s, id, more)
  {
    if id in s.core.pending {
      LostConnectionAnswers(s, id, unused);
      more := [ReaderEnds(s.requests[id].conn, unused), Deliver(unused, id), Receive(id)];
    } else if Held(s, id) {
      var d :| HeldBy(s, d, id);
      DeliveryAnswers(s, id, d);
      more := [Deliver(d, id), Receive(id)];
    } else {
      assert ChannelSound(s, id);
      SlotAnswers(s, id);
      more := [Receive(id)];
    }
  }

  /** A waiter can always be answered: from every reachable state where `id` is waiting, at most
      three more steps, none of them a cancellation, make its `Execute` return a reply. */
  lemma WaiterCanAlwaysReturn(actions: seq<Action>, id: RequestId, unused: DeliveryId)
    requires Legal(INIT, actions) && At(Run(INIT, actions), id, Waiting)
    requires unused !in Run(INIT, actions).deliveries
    ensures exists more: seq<Action> ::
      && |more| <= 3 && (forall a :: a in more ==> a.ReaderEnds? || a.Deliver? || a.Receive?)
      && Answers(Run(INIT, actions), id, more)
  {
    RunKeepsInv(INIT, actions);
    var more := InvariantStateAnswers(Run(INIT, actions), id, unused);
  }
}
