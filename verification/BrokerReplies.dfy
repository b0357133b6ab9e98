/** What a call of `Execute` gives back, and why: every reply is traced to the message that was read or
    to the connection that was lost, over whole runs of the protocol. */
module BrokerReplies {
  import opened Options
  import opened BrokerState
  import opened BrokerProtocol

  // ---------- where a reply comes from ----------

  /** Some message read in the run carries the id and tells what the reply says. */
  ghost predicate Told(seen: seq<Action>, id: RequestId, x: Reply) {
    exists m, d :: Read(m, d) in seen && m.id == id && x.Answer? && x.from == id && Tells(m, x.body)
  }

  /** The reply goes, or went, to the channel of request `id`. */
  ghost predicate Owed(s: State, id: RequestId, x: Reply) {
    && Live(s, id)
    && ((s.requests[id].ch in s.channels && x in s.channels[s.requests[id].ch].history)
        || exists d :: HeldBy(s, d, id) && s.deliveries[d].reply == x)
  }

  /** A decoded reply comes from a message, and an unavailable error from the loss of the connection. */
  ghost predicate Accounted(s: State, seen: seq<Action>, id: RequestId, x: Reply)
    requires Live(s, id)
  {
    match x
    case Answer(_, _) => Told(seen, id, x)
    case Unavailable => s.core.conn != Some(s.requests[id].conn)
  }

  /** Each stage of a call was reached by the steps that lead to it. */
  ghost predicate Trail(s: State, seen: seq<Action>, id: RequestId)
    requires Live(s, id)
  {
    match s.requests[id].pc
    case Writing => true
    case WriteFailed => WriteReturns(id, false) in seen
    case Unregistered => WriteReturns(id, false) in seen
    case Dropping => WriteReturns(id, false) in seen && CheckContext(id, false) in seen
    case Waiting => WriteReturns(id, true) in seen
    case Cancelling => ContextFires(id) in seen
    case Cancelled => ContextFires(id) in seen
    case Finished(GaveUp) => ContextFires(id) in seen || CheckContext(id, true) in seen
    case Finished(NoRuntime) =>
      && WriteReturns(id, false) in seen && CheckContext(id, false) in seen
      && s.core.conn != Some(s.requests[id].conn)
    case Finished(Returned(_)) => WriteReturns(id, true) in seen
  }

  /** The status time is that of the accept of the current connection. */
  ghost predicate TimeSound(s: State, seen: seq<Action>) {
    s.core.conn.Some? ==> exists now, d :: Accept(s.core.conn.value, now, d) in seen && s.core.connectedAt == Some(now)
  }

  ghost predicate Traced(s: State, seen: seq<Action>) {
    && (forall id, x :: Owed(s, id, x) ==> Accounted(s, seen, id, x))
    && (forall id :: Live(s, id) ==> Trail(s, seen, id))
    && TimeSound(s, seen)
  }

  lemma SeenGrows(seen: seq<Action>, a: Action)
    ensures a in seen + [a] && forall b :: b in seen ==> b in seen + [a]
    ensures forall id, x :: Told(seen, id, x) ==> Told(seen + [a], id, x)
  {
    forall id, x | Told(seen, id, x)
      ensures Told(seen + [a], id, x)
    {
      var m, d :| Read(m, d) in seen && m.id == id && x.Answer? && x.from == id && Tells(m, x.body);
      assert Read(m, d) in seen + [a];
    }
  }

  /** A request that is not starting was live before and keeps its connection; and one whose connection
      is not current does not get it back. */
  lemma RequestStays(s: State, a: Action, id: RequestId)
    requires ConnectionsSound(s) && Enabled(s, a) && Live(Apply(s, a), id) && (a.Start? ==> a.id != id)
    ensures Live(s, id) && Apply(s, a).requests[id].(pc := s.requests[id].pc) == s.requests[id]
    ensures s.core.conn != Some(s.requests[id].conn) ==> Apply(s, a).core.conn != Some(s.requests[id].conn)
  {
  }

  lemma StartOwesNothing(s: State, id: RequestId, ch: ChannelId, x: Reply)
    requires Inv(s) && Enabled(s, Start(id, ch))
    ensures !Owed(Apply(s, Start(id, ch)), id, x)
  {
    HeldAfter(s, Start(id, ch));
    var t := Apply(s, Start(id, ch));
    if Live(t, id) {
      assert t.channels[ch].history == [];
      assert forall d :: HeldBy(s, d, id) ==> DeliverySound(s, d, id);
    }
  }

  /** The reply of the delivery that the step starts. */
  function NewReply(a: Action): Reply {
    if a.Read? then Answer(a.m.id, Decode(a.m)) else Unavailable
  }

  lemma SentBefore(s: State, a: Action, id: RequestId, x: Reply)
    requires ChannelsOwned(s) && DeliveriesSound(s) && Enabled(s, a) && Live(s, id)
    requires var t := Apply(s, a);
      && Live(t, id) && t.requests[id].ch == s.requests[id].ch
      && t.requests[id].ch in t.channels && x in t.channels[t.requests[id].ch].history
    ensures Owed(s, id, x)
  {
    if a.Deliver? {
      assert HeldBy(s, a.d, a.id) && DeliverySound(s, a.d, a.id);
      hide DeliverySound, DeliveriesSound;
    }
  }

  lemma HeldBefore(s: State, a: Action, id: RequestId, d: DeliveryId)
    requires Enabled(s, a) && HeldBy(Apply(s, a), d, id)
    ensures if Started(a) == Some(d) then id in Taken(s, a) && Apply(s, a).deliveries[d].reply == NewReply(a)
            else HeldBy(s, d, id) && Apply(s, a).deliveries[d].reply == s.deliveries[d].reply
  {
  }

  /** What is owed after a step was owed before, or the step has just taken the channel. */
  lemma OwedBefore(s: State, a: Action, id: RequestId, x: Reply)
    requires Inv(s) && Enabled(s, a) && Owed(Apply(s, a), id, x) && (a.Start? ==> a.id != id)
    ensures Owed(s, id, x) || (Started(a).Some? && id in Taken(s, a) && x == NewReply(a))
  {
    RequestStays(s, a, id);
    var t := Apply(s, a);
    hide Apply, Enabled;
    if t.requests[id].ch in t.channels && x in t.channels[t.requests[id].ch].history {
      SentBefore(s, a, id, x);
    } else {
      var d :| HeldBy(t, d, id) && t.deliveries[d].reply == x;
      HeldBefore(s, a, id, d);
    }
  }

  /** Whoever's channel is taken for an unavailable error has lost its connection. */
  lemma TakenIsLost(s: State, a: Action, id: RequestId)
    requires Inv(s) && Enabled(s, a) && Started(a).Some? && id in Taken(s, a)
    ensures Live(s, id) && id in s.core.pending
    ensures a.Read? ==> a.m.id == id
    ensures !a.Read? ==> Apply(s, a).core.conn != Some(s.requests[id].conn)
  {
    assert EntrySound(s, id);
  }

  lemma DecodeTells(m: Message)
    ensures Tells(m, Decode(m))
  {
  }

  lemma ReplyStaysAccounted(s: State, seen: seq<Action>, a: Action, id: RequestId, x: Reply)
    requires Inv(s) && Enabled(s, a) && Traced(s, seen) && Owed(Apply(s, a), id, x)
    ensures Accounted(Apply(s, a), seen + [a], id, x)
  {
    SeenGrows(seen, a);
    if a.Start? && a.id == id {
      StartOwesNothing(s, id, a.ch, x);
    } else {
      OwedBefore(s, a, id, x);
      RequestStays(s, a, id);
      hide Enabled, Apply, Inv, Told;
      if Owed(s, id, x) {
        assert Accounted(s, seen, id, x);
      } else {
        TakenIsLost(s, a, id);
        if a.Read? {
          DecodeTells(a.m);
          assert Told(seen + [a], id, x) by { WasTold(seen + [a], a.m, a.d, x); }
        }
      }
    }
  }

  lemma WasTold(seen: seq<Action>, m: Message, d: DeliveryId, x: Reply)
    requires Read(m, d) in seen && x.Answer? && x.from == m.id && Tells(m, x.body)
    ensures Told(seen, m.id, x)
  {
  }

  lemma TrailGoesOn(s: State, seen: seq<Action>, a: Action, id: RequestId)
    requires ConnectionsSound(s) && Enabled(s, a) && Live(Apply(s, a), id) && (Live(s, id) ==> Trail(s, seen, id))
    ensures Trail(Apply(s, a), seen + [a], id)
  {
    assert a in seen + [a] && forall b :: b in seen ==> b in seen + [a];
    if !(a.Start? && a.id == id) {
      RequestStays(s, a, id);
    }
  }

  lemma TimeStaysSound(s: State, seen: seq<Action>, a: Action)
    requires Enabled(s, a) && TimeSound(s, seen)
    ensures TimeSound(Apply(s, a), seen + [a])
  {
    assert a in seen + [a] && forall b :: b in seen ==> b in seen + [a];
    if s.core.conn.Some? {
      var now, d :| Accept(s.core.conn.value, now, d) in seen && s.core.connectedAt == Some(now);
      assert Accept(s.core.conn.value, now, d) in seen + [a];
    }
  }

  lemma StepIsTraced(s: State, seen: seq<Action>, a: Action)
    requires Inv(s) && Enabled(s, a) && Traced(s, seen)
    ensures Traced(Apply(s, a), seen + [a])
  {
    TimeStaysSound(s, seen, a);
    hide Enabled, Apply, Inv, Owed, Accounted, Trail, TimeSound;
    var t := Apply(s, a);
    forall id, x | Owed(t, id, x)
      ensures Live(t, id) && Accounted(t, seen + [a], id, x)
    {
      OwedIsLive(t, id, x);
      ReplyStaysAccounted(s, seen, a, id, x);
    }
    forall id | Live(t, id)
      ensures Trail(t, seen + [a], id)
    {
      assert ConnectionsSound(s) && (Live(s, id) ==> Trail(s, seen, id)) by { TrailSoFar(s, seen, id); }
      TrailGoesOn(s, seen, a, id);
    }
  }

  lemma TrailSoFar(s: State, seen: seq<Action>, id: RequestId)
    requires Inv(s) && Traced(s, seen)
    ensures ConnectionsSound(s) && (Live(s, id) ==> Trail(s, seen, id))
  {
  }

  lemma OwedIsLive(s: State, id: RequestId, x: Reply)
    requires Owed(s, id, x)
    ensures Live(s, id)
  {
  }

  lemma {:induction false} RunIsTraced(s: State, seen: seq<Action>, actions: seq<Action>)
    requires Inv(s) && Traced(s, seen) && Legal(s, actions)
    ensures Inv(Run(s, actions)) && Traced(Run(s, actions), seen + actions)
    decreases |actions|
  {
    hide Enabled, Apply, Inv, Traced;
    if actions == [] {
      assert seen + actions == seen;
    } else {
      StepKeepsInv(s, actions[0]);
      StepIsTraced(s, seen, actions[0]);
      RunIsTraced(Apply(s, actions[0]), seen + [actions[0]], actions[1..]);
      assert seen + [actions[0]] + actions[1..] == seen + actions;
    }
  }

  lemma InitIsTraced()
    ensures Inv(INIT) && Traced(INIT, [])
  {
  }

  // ---------- every outcome has its reason ----------

  /** A call that returned a decoded reply returned what one message read in the run held, and the
      message carried its id; one that returned the unavailable error had lost its connection for good,
      by then or because its own write failed; and one that gave up was cancelled. */
  lemma EveryOutcomeHasItsReason(actions: seq<Action>, id: RequestId)
    requires Legal(INIT, actions) && Live(Run(INIT, actions), id) && Run(INIT, actions).requests[id].pc.Finished?
    ensures var s := Run(INIT, actions);
      match s.requests[id].pc.outcome
      case Returned(Answer(from, body)) =>
        from == id && exists m, d :: Read(m, d) in actions && m.id == id && Tells(m, body)
      case Returned(Unavailable) => s.core.conn != Some(s.requests[id].conn)
      case GaveUp => ContextFires(id) in actions || CheckContext(id, true) in actions
      case NoRuntime =>
        && WriteReturns(id, false) in actions && CheckContext(id, false) in actions
        && s.core.conn != Some(s.requests[id].conn)
  {
    hide Enabled, Apply, Run, Legal, Tells, TimeSound;
    InitIsTraced();
    RunIsTraced(INIT, [], actions);
    assert [] + actions == actions;
    var s := Run(INIT, actions);
    assert Trail(s, actions, id) && ChannelSound(s, id);
    if s.requests[id].pc.outcome.Returned? {
      var x := s.requests[id].pc.outcome.reply;
      assert s.channels[s.requests[id].ch].history == [x];
      assert Owed(s, id, x);
      assert Accounted(s, actions, id, x);
      if x.Answer? {
        var m, d :| Read(m, d) in actions && m.id == id && x.Answer? && x.from == id && Tells(m, x.body);
      }
    }
  }

  /** The time the status gives is the one at which the current connection was accepted. */
  lemma StatusTimeIsTheAccepts(actions: seq<Action>)
    requires Legal(INIT, actions) && Run(INIT, actions).core.conn.Some?
    ensures var c := Run(INIT, actions).core;
      exists now, d :: Accept(c.conn.value, now, d) in actions && c.connectedAt == Some(now)
  {
    hide Enabled, Apply, Run, Legal, Inv, Owed, Accounted, Trail;
    InitIsTraced();
    RunIsTraced(INIT, [], actions);
    assert [] + actions == actions;
  }

  // ---------- a message that finds its request decides what the call returns ----------

  /** The one reply this request can still get. */
  ghost predicate Bound(s: State, id: RequestId, x: Reply) {
    && Live(s, id) && s.requests[id].ch in s.channels && id !in s.core.pending
    && (forall y :: y in s.channels[s.requests[id].ch].history ==> y == x)
    && (forall d :: HeldBy(s, d, id) ==> s.deliveries[d].reply == x)
  }

  lemma StepKeepsBound(s: State, a: Action, id: RequestId, x: Reply)
    requires Inv(s) && Enabled(s, a) && Bound(s, id, x)
    ensures Bound(Apply(s, a), id, x)
  {
    StaysLive(s, a, id);
    NothingTaken(s, a, id);
    var t := Apply(s, a);
    hide Apply, Enabled;
    forall y | y in t.channels[t.requests[id].ch].history
      ensures y == x
    {
      SentBefore(s, a, id, y);
    }
    forall d | HeldBy(t, d, id)
      ensures t.deliveries[d].reply == x
    {
      HeldBefore(s, a, id, d);
    }
  }

  lemma StaysLive(s: State, a: Action, id: RequestId)
    requires ChannelsOwned(s) && Enabled(s, a) && Live(s, id)
    ensures var t := Apply(s, a);
      Live(t, id) && t.requests[id].ch == s.requests[id].ch && t.requests[id].ch in t.channels
  {
  }

  lemma NothingTaken(s: State, a: Action, id: RequestId)
    requires Enabled(s, a) && Live(s, id) && id !in s.core.pending
    ensures id !in Taken(s, a) && id !in Apply(s, a).core.pending
  {
  }

  lemma {:induction false} RunKeepsBound(s: State, actions: seq<Action>, id: RequestId, x: Reply)
    requires Inv(s) && Legal(s, actions) && Bound(s, id, x)
    ensures Inv(Run(s, actions)) && Bound(Run(s, actions), id, x)
    decreases |actions|
  {
    hide Enabled, Apply, Inv, Bound;
    if actions != [] {
      StepKeepsInv(s, actions[0]);
      StepKeepsBound(s, actions[0], id, x);
      RunKeepsBound(Apply(s, actions[0]), actions[1..], id, x);
    }
  }

  lemma ReadBinds(s: State, m: Message, d: DeliveryId)
    requires Inv(s) && Enabled(s, Read(m, d)) && m.id in s.core.pending
    ensures Bound(Apply(s, Read(m, d)), m.id, Answer(m.id, Decode(m)))
  {
    HeldAfter(s, Read(m, d));
    assert EntrySound(s, m.id);
  }

  /** Once a message has found its request pending, that request's call can return nothing but what the
      message holds, whatever happens afterwards. */
  lemma FoundMessageDecides(before: seq<Action>, m: Message, d: DeliveryId, after: seq<Action>, x: Reply)
    requires Legal(INIT, before + [Read(m, d)] + after) && Legal(INIT, before) && m.id in Run(INIT, before).core.pending
    requires At(Run(INIT, before + [Read(m, d)] + after), m.id, Finished(Returned(x)))
    ensures x.Answer? && x.from == m.id && Tells(m, x.body)
  {
    hide Enabled, Apply, Tells, Bound;
    var s := Run(INIT, before);
    var read := [Read(m, d)];
    assert before + read + after == before + (read + after);
    RunSplits(INIT, before, read + after);
    RunSplits(s, read, after);
    RunKeepsInv(INIT, before);
    assert Run(s, read) == Run(Apply(s, read[0]), read[1..]);
    ReadBinds(s, m, d);
    StepKeepsInv(s, Read(m, d));
    RunKeepsBound(Apply(s, Read(m, d)), after, m.id, Answer(m.id, Decode(m)));
    BoundReturns(Run(INIT, before + read + after), m.id, x, Answer(m.id, Decode(m)));
    DecodeTells(m);
  }

  lemma BoundReturns(s: State, id: RequestId, x: Reply, y: Reply)
    requires Inv(s) && Bound(s, id, y) && At(s, id, Finished(Returned(x)))
    ensures x == y
  {
    assert ChannelSound(s, id);
    assert x in s.channels[s.requests[id].ch].history;
  }

  // ---------- a call that is answered ----------

  lemma StartWaits(s: State, id: RequestId, ch: ChannelId)
    requires Inv(s) && Enabled(s, Start(id, ch)) && s.core.conn.Some?
    ensures Enabled(Apply(s, Start(id, ch)), WriteReturns(id, true))
    ensures var t := Apply(Apply(s, Start(id, ch)), WriteReturns(id, true));
      Inv(t) && At(t, id, Waiting) && id in t.core.pending && t.deliveries == s.deliveries
  {
    StepKeepsInv(s, Start(id, ch));
    StepKeepsInv(Apply(s, Start(id, ch)), WriteReturns(id, true));
    hide Inv;
  }

  lemma ReadTakes(s: State, m: Message, d: DeliveryId)
    requires Inv(s) && At(s, m.id, Waiting) && m.id in s.core.pending && m.id != "" && d !in s.deliveries
    ensures Enabled(s, Read(m, d))
    ensures var t := Apply(s, Read(m, d));
      Inv(t) && At(t, m.id, Waiting) && HeldBy(t, d, m.id) && t.deliveries[d].reply == Answer(m.id, Decode(m))
  {
    StepKeepsInv(s, Read(m, d));
    hide Inv;
  }

  lemma DeliveryReturns(s: State, id: RequestId, d: DeliveryId)
    requires Inv(s) && At(s, id, Waiting) && HeldBy(s, d, id)
    ensures Enabled(s, Deliver(d, id)) && Enabled(Apply(s, Deliver(d, id)), Receive(id))
    ensures At(Apply(Apply(s, Deliver(d, id)), Receive(id)), id, Finished(Returned(s.deliveries[d].reply)))
  {
    assert DeliverySound(s, d, id) && ChannelSound(s, id);
  }

  function FullCall(ch: ChannelId, m: Message, d: DeliveryId): seq<Action> {
    [Start(m.id, ch), WriteReturns(m.id, true), Read(m, d), Deliver(d, m.id), Receive(m.id)]
  }

  lemma FullCallRuns(s: State, ch: ChannelId, m: Message, d: DeliveryId)
    requires Inv(s) && Enabled(s, Start(m.id, ch)) && s.core.conn.Some? && m.id != "" && d !in s.deliveries
    ensures Legal(s, FullCall(ch, m, d))
    ensures At(Run(s, FullCall(ch, m, d)), m.id, Finished(Returned(Answer(m.id, Decode(m)))))
  {
    hide Enabled, Apply, Inv, HeldBy;
    var id := m.id;
    var s1 := Apply(s, Start(id, ch));
    StartWaits(s, id, ch);
    var s2 := Apply(s1, WriteReturns(id, true));
    ReadTakes(s2, m, d);
    var s3 := Apply(s2, Read(m, d));
    DeliveryReturns(s3, id, d);
    var s4 := Apply(s3, Deliver(d, id));
    LastOf(s4, Receive(id));
    Stepped(s3, Deliver(d, id), [Receive(id)]);
    Stepped(s2, Read(m, d), [Deliver(d, id)] + [Receive(id)]);
    Stepped(s1, WriteReturns(id, true), [Read(m, d)] + ([Deliver(d, id)] + [Receive(id)]));
    Stepped(s, Start(id, ch), [WriteReturns(id, true)] + ([Read(m, d)] + ([Deliver(d, id)] + [Receive(id)])));
    assert FullCall(ch, m, d)
      == [Start(id, ch)] + ([WriteReturns(id, true)] + ([Read(m, d)] + ([Deliver(d, id)] + [Receive(id)])));
  }

  /** From every reachable state with a connection a new call can run to its answer, and returns what
      the message holds; without one it is refused at once. */
  lemma ANewCallIsAnswered(actions: seq<Action>, ch: ChannelId, m: Message, d: DeliveryId)
    requires Legal(INIT, actions) && m.id != ""
    requires var s := Run(INIT, actions); m.id !in s.requests && ch !in s.channels && d !in s.deliveries
    ensures var s := Run(INIT, actions);
      && Enabled(s, Start(m.id, ch))
      && (s.core.conn.None? ==> Apply(s, Start(m.id, ch)).requests[m.id] == Refused)
      && (s.core.conn.Some? ==>
          && Legal(s, FullCall(ch, m, d))
          && exists b :: Tells(m, b) && At(Run(s, FullCall(ch, m, d)), m.id, Finished(Returned(Answer(m.id, b)))))
  {
    hide Tells, Inv, Run, Legal, FullCall;
    InitIsTraced();
    RunKeepsInv(INIT, actions);
    DecodeTells(m);
    if Run(INIT, actions).core.conn.Some? {
      FullCallRuns(Run(INIT, actions), ch, m, d);
    }
  }

  lemma LastOf(s: State, a: Action)
    requires Enabled(s, a)
    ensures Legal(s, [a]) && Run(s, [a]) == Apply(s, a)
  {
    assert [a][1..] == [];
    assert Run(s, [a]) == Run(Apply(s, a), []);
  }

  lemma Stepped(s: State, a: Action, rest: seq<Action>)
    requires Enabled(s, a) && Legal(Apply(s, a), rest)
    ensures Legal(s, [a] + rest) && Run(s, [a] + rest) == Run(Apply(s, a), rest)
  {
    assert ([a] + rest)[1..] == rest;
  }
}
