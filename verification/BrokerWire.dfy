/** The broker's protocol and its write gate together: a command is registered, its frame is written
    through the gate, and what the write returned decides how the call goes on. */
module BrokerWire {
  import opened Options
  import opened BrokerState
  import P = BrokerProtocol
  import G = WriteGate

  datatype State = State(p: P.State, g: G.State)

  datatype Action =
    | Start(id: RequestId, ch: P.ChannelId, payload: seq<G.Byte>) // register, and arrive at the gate
    | CommandWritten(id: RequestId)                               // `write` returned to `Execute`
    | GiveUp(id: RequestId, payload: seq<G.Byte>)                 // entry removed, cancel frame to the gate
    | CancelWritten(id: RequestId)                                // its result is not looked at
    | Gate(b: G.Action)
    | Protocol(c: P.Action)

  const INIT := State(P.INIT, G.INIT)

  /** The call of `write` has returned. */
  predicate Over(g: G.State, w: G.WriterId) {
    w in g.writers && (g.writers[w].Done? || g.writers[w].TurnedAway?)
  }

  /** It returned a nil error. */
  predicate Succeeded(g: G.State, w: G.WriterId) {
    w in g.writers && g.writers[w].Done? && g.writers[w].ok
  }

  predicate Possible(s: State, a: Action) {
    match a
    case Start(id, ch, _) => P.Enabled(s.p, P.Start(id, ch)) && G.CommandFrame(id) !in s.g.writers
    case CommandWritten(id) => P.At(s.p, id, P.Writing) && Over(s.g, G.CommandFrame(id))
    case GiveUp(id, _) => P.At(s.p, id, P.Cancelling) && G.CancelFrame(id) !in s.g.writers
    case CancelWritten(id) => P.At(s.p, id, P.Cancelled) && Over(s.g, G.CancelFrame(id))
    case Gate(b) => G.Enabled(s.g, b) && !b.Arrive?
    case Protocol(b) =>
      && P.Enabled(s.p, b) && !b.Start? && !b.WriteReturns? && !b.CancelSent?
      && (b.RemoveEntry? ==> P.At(s.p, b.id, P.WriteFailed))
  }

  function Step(s: State, a: Action): State
    requires Possible(s, a)
  {
    match a
    case Start(id, ch, payload) =>
      var p := P.Apply(s.p, P.Start(id, ch));
      if s.p.core.conn.None? then s.(p := p)
      else State(p, G.Apply(s.g, G.Arrive(G.CommandFrame(id), s.p.core.conn.value, payload)))
    case CommandWritten(id) => s.(p := P.Apply(s.p, P.WriteReturns(id, Succeeded(s.g, G.CommandFrame(id)))))
    case GiveUp(id, payload) =>
      State(P.Apply(s.p, P.RemoveEntry(id)), G.Apply(s.g, G.Arrive(G.CancelFrame(id), s.p.requests[id].conn, payload)))
    case CancelWritten(id) => s.(p := P.Apply(s.p, P.CancelSent(id)))
    case Gate(b) => s.(g := G.Apply(s.g, b))
    case Protocol(b) => s.(p := P.Apply(s.p, b))
  }

  predicate Legal(s: State, actions: seq<Action>)
    decreases |actions|
  {
    actions == [] || (Possible(s, actions[0]) && Legal(Step(s, actions[0]), actions[1..]))
  }

  function Run(s: State, actions: seq<Action>): State
    requires Legal(s, actions)
    decreases |actions|
  {
    if actions == [] then s else Run(Step(s, actions[0]), actions[1..])
  }

  // ---------- the invariant ----------

  /** The call has learnt that its command frame was not written, and has not gone on waiting. */
  predicate Failing(pc: P.Pc) {
    pc.WriteFailed? || pc.Unregistered? || pc.Dropping? || pc == P.Finished(P.GaveUp) || pc == P.Finished(P.NoRuntime)
  }

  /** The writer of a command frame writes to the connection its request captured; once its write has
      failed, the call is on its way out. */
  ghost predicate WriterSound(s: State, id: RequestId) {
    var w := G.CommandFrame(id);
    w in s.g.writers ==>
      && P.Live(s.p, id)
      && (s.g.writers[w].AtGate? ==> s.g.writers[w].conn == s.p.requests[id].conn)
      && (s.p.requests[id].pc.Writing? || Over(s.g, w))
      && (Over(s.g, w) && !Succeeded(s.g, w) ==> s.p.requests[id].pc.Writing? || Failing(s.p.requests[id].pc))
  }

  ghost predicate TurnOwned(g: G.State, k: nat)
    requires k < |g.turns|
  {
    var w := g.turns[k].writer;
    w in g.writers && (g.writers[w].Holding? || g.writers[w].Done?) && g.writers[w].turn == k
  }

  /** A turn belongs to a writer, and its bytes go to the connection of the writer's request. */
  ghost predicate TurnSound(s: State, k: nat)
    requires k < |s.g.turns|
  {
    var t := s.g.turns[k];
    && TurnOwned(s.g, k)
    && (t.writer.CommandFrame? ==> P.Live(s.p, t.writer.id) && t.conn == s.p.requests[t.writer.id].conn)
  }

  /** A call that dropped its connection leaves it dropped. */
  predicate Dropped(p: P.State, id: RequestId) {
    P.At(p, id, P.Finished(P.NoRuntime)) ==>
      p.requests[id].conn in p.accepted && p.core.conn != Some(p.requests[id].conn)
  }

  ghost predicate Inv(s: State) {
    && P.Inv(s.p) && G.Inv(s.g)
    && (forall id :: WriterSound(s, id)) && (forall id :: Dropped(s.p, id))
    && (forall k :: 0 <= k < |s.g.turns| ==> TurnSound(s, k))
  }

  lemma PartsKeepInv(s: State, a: Action)
    requires Inv(s) && Possible(s, a)
    ensures P.Inv(Step(s, a).p) && G.Inv(Step(s, a).g)
  {
    hide P.Inv, G.Inv, P.Apply, G.Apply, WriterSound, TurnSound, Dropped;
    match a {
      case Start(id, ch, payload) =>
        P.StepKeepsInv(s.p, P.Start(id, ch));
        if s.p.core.conn.Some? {
          G.StepKeepsInv(s.g, G.Arrive(G.CommandFrame(id), s.p.core.conn.value, payload));
        }
      case CommandWritten(id) => P.StepKeepsInv(s.p, P.WriteReturns(id, Succeeded(s.g, G.CommandFrame(id))));
      case GiveUp(id, payload) =>
        P.StepKeepsInv(s.p, P.RemoveEntry(id));
        G.StepKeepsInv(s.g, G.Arrive(G.CancelFrame(id), s.p.requests[id].conn, payload));
      case CancelWritten(id) => P.StepKeepsInv(s.p, P.CancelSent(id));
      case Gate(b) => G.StepKeepsInv(s.g, b);
      case Protocol(b) => P.StepKeepsInv(s.p, b);
    }
  }

  /** No step makes a request change its connection or a call leave the ways out. */
  lemma RequestsGoOn(p: P.State, b: P.Action, id: RequestId)
    requires P.Enabled(p, b) && P.Live(p, id)
    ensures var q := P.Apply(p, b);
      && P.Live(q, id) && q.requests[id].conn == p.requests[id].conn
      && (Failing(p.requests[id].pc) ==> Failing(q.requests[id].pc))
      && (q.requests[id].pc.Writing? ==> p.requests[id].pc.Writing?)
      && (p.requests[id].pc.Writing? ==> q.requests[id].pc == p.requests[id].pc || b.WriteReturns?)
  {
  }

  lemma DroppedStaysDropped(p: P.State, b: P.Action, id: RequestId)
    requires P.ConnectionsSound(p) && P.Enabled(p, b) && Dropped(p, id)
    ensures Dropped(P.Apply(p, b), id)
  {
    if b.DropConnection? && b.id == id {
      assert P.Live(p, id);
    }
  }

  lemma StepKeepsDropped(s: State, a: Action, id: RequestId)
    requires Inv(s) && Possible(s, a)
    ensures Dropped(Step(s, a).p, id)
  {
    hide WriterSound, TurnSound, G.Inv, G.Apply, G.Enabled, P.Apply, P.Enabled;
    assert Dropped(s.p, id);
    assert P.ConnectionsSound(s.p);
    match a {
      case Start(i, ch, _) => DroppedStaysDropped(s.p, P.Start(i, ch), id);
      case CommandWritten(i) => DroppedStaysDropped(s.p, P.WriteReturns(i, Succeeded(s.g, G.CommandFrame(i))), id);
      case GiveUp(i, _) => DroppedStaysDropped(s.p, P.RemoveEntry(i), id);
      case CancelWritten(i) => DroppedStaysDropped(s.p, P.CancelSent(i), id);
      case Gate(_) =>
      case Protocol(c) => DroppedStaysDropped(s.p, c, id);
    }
  }

  /** Writers stay; one that is over stays as it ended, and one still at the gate has not changed. */
  lemma WritersGoOn(g: G.State, b: G.Action, w: G.WriterId)
    requires G.Enabled(g, b)
    ensures var h := G.Apply(g, b);
      && (w in g.writers ==> w in h.writers)
      && (Over(g, w) ==> h.writers[w] == g.writers[w])
      && (w in g.writers && h.writers[w].AtGate? ==> h.writers[w] == g.writers[w])
      && (w !in g.writers && w in h.writers ==> b.Arrive? && b.w == w && h.writers[w] == G.AtGate(b.conn, b.payload))
  {
  }

  lemma TurnsGoOn(g: G.State, b: G.Action, k: nat)
    requires G.Enabled(g, b) && forall j :: 0 <= j < |g.turns| ==> TurnOwned(g, j)
    requires k < |G.Apply(g, b).turns|
    ensures var h := G.Apply(g, b);
      && TurnOwned(h, k)
      && (k < |g.turns| ==> h.turns[k].writer == g.turns[k].writer && h.turns[k].conn == g.turns[k].conn)
      && (k >= |g.turns| ==>
          b.Take? && h.turns[k].writer == b.w && b.w in g.writers && g.writers[b.w].AtGate? && h.turns[k].conn == g.writers[b.w].conn)
  {
    if k < |g.turns| {
      assert TurnOwned(g, k);
    }
  }

  /** What a protocol step leaves to be said of the writers, the gate being still. */
  lemma ProtocolKeepsWriter(s: State, b: P.Action, id: RequestId)
    requires P.Enabled(s.p, b) && WriterSound(s, id)
    requires b.WriteReturns? && b.id == id ==>
      Over(s.g, G.CommandFrame(id)) && b.ok == Succeeded(s.g, G.CommandFrame(id))
    ensures WriterSound(s.(p := P.Apply(s.p, b)), id)
  {
    if G.CommandFrame(id) in s.g.writers {
      RequestsGoOn(s.p, b, id);
    }
  }

  lemma ProtocolKeepsTurn(s: State, b: P.Action, k: nat)
    requires P.Enabled(s.p, b) && k < |s.g.turns| && TurnSound(s, k)
    ensures TurnSound(s.(p := P.Apply(s.p, b)), k)
  {
    hide P.Apply, P.Enabled;
    var w := s.g.turns[k].writer;
    if w.CommandFrame? {
      RequestsGoOn(s.p, b, w.id);
    }
  }

  lemma GateKeepsWriter(s: State, b: G.Action, id: RequestId)
    requires G.Enabled(s.g, b) && WriterSound(s, id)
    requires b.Arrive? && b.w == G.CommandFrame(id) ==>
      P.Live(s.p, id) && s.p.requests[id].pc.Writing? && b.conn == s.p.requests[id].conn
    ensures WriterSound(s.(g := G.Apply(s.g, b)), id)
  {
    hide G.Apply, G.Enabled;
    WritersGoOn(s.g, b, G.CommandFrame(id));
  }

  lemma GateKeepsTurn(s: State, b: G.Action, k: nat)
    requires G.Enabled(s.g, b) && (forall j :: 0 <= j < |s.g.turns| ==> TurnSound(s, j)) && forall id :: WriterSound(s, id)
    requires k < |G.Apply(s.g, b).turns|
    ensures TurnSound(s.(g := G.Apply(s.g, b)), k)
  {
    hide G.Apply, G.Enabled, TurnOwned;
    assert forall j :: 0 <= j < |s.g.turns| ==> TurnSound(s, j) && TurnOwned(s.g, j);
    TurnsGoOn(s.g, b, k);
    if k < |s.g.turns| {
      assert TurnSound(s, k);
    }
    if k >= |s.g.turns| && b.w.CommandFrame? {
      assert WriterSound(s, b.w.id);
    }
  }

  ghost predicate Tied(s: State) {
    && (forall id :: WriterSound(s, id))
    && (forall k :: 0 <= k < |s.g.turns| ==> TurnSound(s, k))
  }

  lemma ProtocolKeepsTied(s: State, b: P.Action)
    requires P.Enabled(s.p, b) && Tied(s)
    requires b.WriteReturns? ==> Over(s.g, G.CommandFrame(b.id)) && b.ok == Succeeded(s.g, G.CommandFrame(b.id))
    ensures Tied(s.(p := P.Apply(s.p, b)))
  {
    hide P.Apply, P.Enabled, WriterSound, TurnSound;
    forall id
      ensures WriterSound(s.(p := P.Apply(s.p, b)), id)
    {
      ProtocolKeepsWriter(s, b, id);
    }
    forall k | 0 <= k < |s.g.turns|
      ensures TurnSound(s.(p := P.Apply(s.p, b)), k)
    {
      ProtocolKeepsTurn(s, b, k);
    }
  }

  lemma GateKeepsTied(s: State, b: G.Action)
    requires G.Enabled(s.g, b) && Tied(s)
    requires b.Arrive? && b.w.CommandFrame? ==>
      P.Live(s.p, b.w.id) && s.p.requests[b.w.id].pc.Writing? && b.conn == s.p.requests[b.w.id].conn
    ensures Tied(s.(g := G.Apply(s.g, b)))
  {
    hide G.Apply, G.Enabled, WriterSound, TurnSound;
    forall id
      ensures WriterSound(s.(g := G.Apply(s.g, b)), id)
    {
      GateKeepsWriter(s, b, id);
    }
    forall k | 0 <= k < |G.Apply(s.g, b).turns|
      ensures TurnSound(s.(g := G.Apply(s.g, b)), k)
    {
      GateKeepsTurn(s, b, k);
    }
  }

  lemma StartIsWriting(p: P.State, id: RequestId, ch: P.ChannelId)
    requires P.Enabled(p, P.Start(id, ch)) && p.core.conn.Some?
    ensures var q := P.Apply(p, P.Start(id, ch)); id in q.requests && q.requests[id] == P.Request(p.core.conn.value, ch, P.Writing)
  {
  }

  lemma StepKeepsTied(s: State, a: Action)
    requires Tied(s) && Possible(s, a)
    ensures Tied(Step(s, a))
  {
    hide P.Apply, G.Apply, WriterSound, TurnSound, Tied;
    match a {
      case Start(id, ch, payload) =>
        ProtocolKeepsTied(s, P.Start(id, ch));
        if s.p.core.conn.Some? {
          StartIsWriting(s.p, id, ch);
          GateKeepsTied(s.(p := P.Apply(s.p, P.Start(id, ch))), G.Arrive(G.CommandFrame(id), s.p.core.conn.value, payload));
        }
      case CommandWritten(id) => ProtocolKeepsTied(s, P.WriteReturns(id, Succeeded(s.g, G.CommandFrame(id))));
      case GiveUp(id, payload) =>
        ProtocolKeepsTied(s, P.RemoveEntry(id));
        GateKeepsTied(s.(p := P.Apply(s.p, P.RemoveEntry(id))), G.Arrive(G.CancelFrame(id), s.p.requests[id].conn, payload));
      case CancelWritten(id) => ProtocolKeepsTied(s, P.CancelSent(id));
      case Gate(b) => GateKeepsTied(s, b);
      case Protocol(c) => ProtocolKeepsTied(s, c);
    }
  }

  lemma StepKeepsInv(s: State, a: Action)
    requires Inv(s) && Possible(s, a)
    ensures Inv(Step(s, a))
  {
    hide P.Inv, G.Inv, WriterSound, TurnSound, Dropped, Step, Possible;
    PartsKeepInv(s, a);
    StepKeepsTied(s, a);
    forall id
      ensures Dropped(Step(s, a).p, id)
    {
      StepKeepsDropped(s, a, id);
    }
  }

  lemma InitIsSound()
    ensures Inv(INIT)
  {
  }

  lemma {:induction false} RunKeepsInv(s: State, actions: seq<Action>)
    requires Inv(s) && Legal(s, actions)
    ensures Inv(Run(s, actions))
    decreases |actions|
  {
    hide Inv, Step, Possible;
    if actions != [] {
      StepKeepsInv(s, actions[0]);
      RunKeepsInv(Step(s, actions[0]), actions[1..]);
    }
  }

  // ---------- whose frames may stand cut short on the current connection ----------

  /** If a write on the connection that is current stopped midway, it was the write of a cancel frame,
      whose error nobody looks at, or of a command whose call returned because its context was
      cancelled, or of one still on its way to find out, and then to drop the connection unless it is
      cancelled. A write that failed for any other reason has cost the connection its place. */
  lemma CutFramesOnTheCurrentConnection(actions: seq<Action>, k: nat)
    requires Legal(INIT, actions)
    requires var s := Run(INIT, actions);
      && k < |s.g.turns| && 0 < s.g.turns[k].sent < |s.g.turns[k].frame|
      && s.p.core.conn == Some(s.g.turns[k].conn) && Over(s.g, s.g.turns[k].writer)
    ensures var s := Run(INIT, actions); var w := s.g.turns[k].writer;
      || w.CancelFrame?
      || (P.Live(s.p, w.id)
          && var pc := s.p.requests[w.id].pc;
          pc == P.Finished(P.GaveUp) || pc.Writing? || pc.WriteFailed? || pc.Unregistered? || pc.Dropping?)
  {
    hide Run, Legal, P.Inv;
    InitIsSound();
    RunKeepsInv(INIT, actions);
    var s := Run(INIT, actions);
    assert TurnSound(s, k);
    var w := s.g.turns[k].writer;
    if w.CommandFrame? {
      assert WriterSound(s, w.id) && Dropped(s.p, w.id);
      assert !Succeeded(s.g, w);
    }
  }

  /** So once every call has returned, only cancelled commands and cancel frames can have cut a frame on
      the connection in use. */
  lemma OnlyTheCancelledCut(actions: seq<Action>, k: nat)
    requires Legal(INIT, actions)
    requires var s := Run(INIT, actions);
      && (forall id :: P.Live(s.p, id) ==> s.p.requests[id].pc.Finished?)
      && k < |s.g.turns| && 0 < s.g.turns[k].sent < |s.g.turns[k].frame|
      && s.p.core.conn == Some(s.g.turns[k].conn) && Over(s.g, s.g.turns[k].writer)
    ensures var s := Run(INIT, actions); var w := s.g.turns[k].writer;
      w.CancelFrame? || P.At(s.p, w.id, P.Finished(P.GaveUp))
  {
    hide Run, Legal;
    CutFramesOnTheCurrentConnection(actions, k);
  }

  // ---------- a run in which one does ----------

  lemma Stepped(s: State, a: Action, rest: seq<Action>)
    requires Possible(s, a) && Legal(Step(s, a), rest)
    ensures Legal(s, [a] + rest) && Run(s, [a] + rest) == Run(Step(s, a), rest)
  {
    hide Possible, Step;
    assert ([a] + rest)[1..] == rest;
  }

  /** The command is registered on connection 0 and holds the token. */
  lemma CommandAtWork(id: RequestId, payload: seq<G.Byte>) returns (s: State, actions: seq<Action>)
    ensures Legal(INIT, actions) && Run(INIT, actions) == s
    ensures var w := G.CommandFrame(id);
      && s.p.core.conn == Some(0) && P.At(s.p, id, P.Writing) && s.p.requests[id].conn == 0
      && s.g == G.State(0, map[w := G.Holding(0, false)], map[], [G.Turn(w, 0, payload, 0)])
  {
    var w := G.CommandFrame(id);
    var accept, start, take := Protocol(P.Accept(0, 0, 0)), Start(id, 0, payload), Gate(G.Take(w));
    var s1 := Step(INIT, accept);
    var s2 := Step(s1, start);
    assert s2.g.writers == map[w := G.AtGate(0, payload)];
    s := Step(s2, take);
    Stepped(s2, take, []);
    Stepped(s1, start, [take] + []);
    Stepped(INIT, accept, [start] + ([take] + []));
    actions := [accept] + ([start] + ([take] + []));
    assert s.g.writers == map[w := G.Holding(0, false)];
    assert s.g.turns == [G.Turn(w, 0, payload, 0)];
  }

  /** From there its first byte goes out, the write fails, and the caller turns out to have cancelled. */
  lemma CommandCutShort(s: State, id: RequestId, payload: seq<G.Byte>) returns (t: State, actions: seq<Action>)
    requires var w := G.CommandFrame(id);
      && s.p.core.conn == Some(0) && P.At(s.p, id, P.Writing) && s.p.requests[id].conn == 0
      && s.g == G.State(0, map[w := G.Holding(0, false)], map[], [G.Turn(w, 0, payload, 0)])
    requires payload != []
    ensures Legal(s, actions) && Run(s, actions) == t
    ensures t.p.core.conn == Some(0) && P.At(t.p, id, P.Finished(P.GaveUp))
    ensures t.g.tokens == 1 && G.WireOf(t.g, 0) == [payload[0]] && t.g.turns == [G.Turn(G.CommandFrame(id), 0, payload, 1)]
  {
    var w := G.CommandFrame(id);
    var append, release := Gate(G.Append(w, 1, true)), Gate(G.Release(w));
    var s1 := Step(s, append);
    assert s1.g.turns == [G.Turn(w, 0, payload, 1)] && G.WireOf(s1.g, 0) == [payload[0]];
    var s2 := Step(s1, release);
    assert s2.g.writers[w] == G.Done(0, false);
    var s3 := Step(s2, CommandWritten(id));
    assert P.At(s3.p, id, P.WriteFailed);
    var s4 := Step(s3, Protocol(P.RemoveEntry(id)));
    assert P.At(s4.p, id, P.Unregistered);
    t := Step(s4, Protocol(P.CheckContext(id, true)));
    var rest := [Protocol(P.CheckContext(id, true))] + [];
    Stepped(s4, Protocol(P.CheckContext(id, true)), []);
    Stepped(s3, Protocol(P.RemoveEntry(id)), rest);
    rest := [Protocol(P.RemoveEntry(id))] + rest;
    Stepped(s2, CommandWritten(id), rest);
    rest := [CommandWritten(id)] + rest;
    Stepped(s1, release, rest);
    rest := [release] + rest;
    Stepped(s, append, rest);
    actions := [append] + rest;
  }

  lemma {:induction false} RunsJoin(s: State, before: seq<Action>, after: seq<Action>)
    requires Legal(s, before) && Legal(Run(s, before), after)
    ensures Legal(s, before + after) && Run(s, before + after) == Run(Run(s, before), after)
    decreases |before|
  {
    hide Step, Possible;
    if before == [] {
      assert before + after == after;
    } else {
      assert (before + after)[1..] == before[1..] + after;
      RunsJoin(Step(s, before[0]), before[1..], after);
    }
  }

  /** A cancelled command can leave half a frame on a connection that stays current: the wire does not
      always hold whole frames. */
  lemma ACutFrameCanStay(id: RequestId, payload: seq<G.Byte>) returns (actions: seq<Action>)
    requires payload != [] && |payload| + 1 <= G.MAX_FRAME_BYTES
    ensures Legal(INIT, actions)
    ensures var s := Run(INIT, actions);
      && s.p.core.conn == Some(0) && P.At(s.p, id, P.Finished(P.GaveUp))
      && G.WireOf(s.g, 0) == [payload[0]] && G.WholeFrames(s.g.turns, 0) == []
  {
    hide Step, Possible;
    var s, before := CommandAtWork(id, payload);
    var t, after := CommandCutShort(s, id, payload);
    RunsJoin(INIT, before, after);
    actions := before + after;
    NoWholeFrame(G.Turn(G.CommandFrame(id), 0, payload, 1));
  }

  lemma NoWholeFrame(t: G.Turn)
    requires t.sent < |t.frame|
    ensures G.WholeFrames([t], t.conn) == []
  {
    assert [t][..0] == [];
  }
}
