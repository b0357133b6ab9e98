/** The one-token write gate of the browser command broker: any number of goroutines write frames to
    any number of connections, and every write holds the token while it runs its short-write loop. */
module WriteGate {
  type Byte = b: int | 0 <= b < 256

  /** A call of `write`: for the command frame of a request or for its cancel frame. */
  datatype WriterId = CommandFrame(id: string) | CancelFrame(id: string)

  type ConnId = nat

  const NEWLINE: Byte := 10
  const MAX_FRAME_BYTES := 8 * 1024 * 1024

  /** The byte stream the runtime has received on one connection. */
  class Wire {
    var bytes: seq<Byte>
    ghost var lastFailed: bool

    // One `conn.Write`: any number of bytes may be taken, with or without an error.
    method Write(p: seq<Byte>) returns (n: nat, failed: bool)
      modifies this
      ensures n <= |p| && bytes == old(bytes) + p[..n] && lastFailed == failed
    {
      n :| 0 <= n <= |p|;
      failed := *;
      lastFailed := failed;
      bytes := bytes + p[..n];
    }
  }

  // ---------- all writers together ----------

  /** One writer's time with the token, and how many bytes of its frame got onto the wire. */
  datatype Turn = Turn(writer: WriterId, conn: ConnId, payload: seq<Byte>, sent: nat) {
    const frame := payload + [NEWLINE]
  }

  datatype Writer =
    | AtGate(conn: ConnId, payload: seq<Byte>)
    | Holding(turn: nat, failed: bool)
    | TurnedAway               // the context fired before the token was taken
    | Done(turn: nat, ok: bool)  // ok stands for a nil error

  /** `turns` is a history; the source only has the token, the writers and the wires. */
  datatype State = State(tokens: nat, writers: map<WriterId, Writer>, wires: map<ConnId, seq<Byte>>, turns: seq<Turn>)

  datatype Action =
    | Arrive(w: WriterId, conn: ConnId, payload: seq<Byte>)
    | TurnAway(w: WriterId)
    | Take(w: WriterId)
    | Refuse(w: WriterId)                       // no deadline, no encoding, or too long a frame
    | Append(w: WriterId, n: nat, failed: bool) // one `conn.Write`
    | Release(w: WriterId)

  const INIT := State(1, map[], map[], [])

  function WireOf(s: State, c: ConnId): seq<Byte> {
    if c in s.wires then s.wires[c] else []
  }

  predicate IsHolding(s: State, w: WriterId) {
    w in s.writers && s.writers[w].Holding? && s.writers[w].turn < |s.turns|
  }

  predicate Enabled(s: State, a: Action) {
    match a
    case Arrive(w, _, _) => w !in s.writers
    case TurnAway(w) => w in s.writers && s.writers[w].AtGate?
    case Take(w) => w in s.writers && s.writers[w].AtGate? && s.tokens > 0
    case Refuse(w) => IsHolding(s, w) && s.turns[s.writers[w].turn].sent == 0
    case Append(w, n, failed) =>
      && IsHolding(s, w) && !s.writers[w].failed
      && var t := s.turns[s.writers[w].turn];
      && t.sent < |t.frame| && n <= |t.frame| - t.sent && (n == 0 ==> failed)
    case Release(w) =>
      && IsHolding(s, w)
      && (s.writers[w].failed || s.turns[s.writers[w].turn].sent == |s.turns[s.writers[w].turn].frame|)
  }

  function Apply(s: State, a: Action): State
    requires Enabled(s, a)
  {
    match a
    case Arrive(w, c, payload) => s.(writers := s.writers[w := AtGate(c, payload)])
    case TurnAway(w) => s.(writers := s.writers[w := TurnedAway])
    case Take(w) =>
      s.(tokens := s.tokens - 1,
         writers := s.writers[w := Holding(|s.turns|, false)],
         turns := s.turns + [Turn(w, s.writers[w].conn, s.writers[w].payload, 0)])
    case Refuse(w) => s.(writers := s.writers[w := s.writers[w].(failed := true)])
    case Append(w, n, failed) =>
      var k := s.writers[w].turn;
      var t := s.turns[k];
      s.(writers := s.writers[w := Holding(k, failed)],
         wires := s.wires[t.conn := WireOf(s, t.conn) + t.frame[t.sent..][..n]],
         turns := s.turns[k := t.(sent := t.sent + n)])
    case Release(w) =>
      var k := s.writers[w].turn;
      s.(tokens := s.tokens + 1,
         writers := s.writers[w := Done(k, !s.writers[w].failed && s.turns[k].sent == |s.turns[k].frame|)])
  }

  predicate Legal(s: State, actions: seq<Action>)
    decreases |actions|
  {
    actions == [] || (Enabled(s, actions[0]) && Legal(Apply(s, actions[0]), actions[1..]))
  }

  function Run(s: State, actions: seq<Action>): State
    requires Legal(s, actions)
    decreases |actions|
  {
    if actions == [] then s else Run(Apply(s, actions[0]), actions[1..])
  }

  /** The bytes the turns put onto connection `c`, one turn after the other. */
  function Laid(turns: seq<Turn>, c: ConnId): seq<Byte> {
    if turns == [] then []
    else
      var t := turns[|turns| - 1];
      Laid(turns[..|turns| - 1], c) + if t.conn == c && t.sent <= |t.frame| then t.frame[..t.sent] else []
  }

  ghost predicate Inv(s: State) {
    && s.tokens <= 1
    // a writer with the token owns the latest turn, and there is one exactly when the gate is empty
    && (forall w :: w in s.writers && s.writers[w].Holding? ==>
        s.tokens == 0 && s.writers[w].turn == |s.turns| - 1 && s.turns[|s.turns| - 1].writer == w)
    && (s.tokens == 0 ==> s.turns != [] && IsHolding(s, s.turns[|s.turns| - 1].writer))
    && (forall w :: w in s.writers && s.writers[w].Done? ==>
        && s.writers[w].turn < |s.turns| && s.turns[s.writers[w].turn].writer == w
        && (s.tokens == 0 ==> s.writers[w].turn < |s.turns| - 1)
        && (s.writers[w].ok ==> s.turns[s.writers[w].turn].sent == |s.turns[s.writers[w].turn].frame|))
    && (forall k :: 0 <= k < |s.turns| ==> s.turns[k].sent <= |s.turns[k].frame|)
    && (forall c :: WireOf(s, c) == Laid(s.turns, c))
  }

  lemma LaidGrows(turns: seq<Turn>, n: nat, c: ConnId)
    requires turns != []
    requires var t := turns[|turns| - 1]; t.sent + n <= |t.frame|
    ensures var k := |turns| - 1; var t := turns[k];
      Laid(turns[k := t.(sent := t.sent + n)], c) == Laid(turns, c) + if t.conn == c then t.frame[t.sent..][..n] else []
  {
    var k := |turns| - 1;
    var t := turns[k];
    assert turns[k := t.(sent := t.sent + n)][..k] == turns[..k];
    assert t.frame[..t.sent] + t.frame[t.sent..][..n] == t.frame[..t.sent + n];
  }

  lemma AppendKeepsWires(s: State, w: WriterId, n: nat, failed: bool, c: ConnId)
    requires Inv(s) && Enabled(s, Append(w, n, failed))
    ensures var t := Apply(s, Append(w, n, failed)); WireOf(t, c) == Laid(t.turns, c)
  {
    hide Laid;
    assert WireOf(s, c) == Laid(s.turns, c);
    LaidGrows(s.turns, n, c);
  }

  lemma TakeKeepsWires(s: State, w: WriterId, c: ConnId)
    requires Inv(s) && Enabled(s, Take(w))
    ensures var t := Apply(s, Take(w)); WireOf(t, c) == Laid(t.turns, c)
  {
    assert Apply(s, Take(w)).turns[..|s.turns|] == s.turns;
  }

  lemma StepKeepsWires(s: State, a: Action, c: ConnId)
    requires Inv(s) && Enabled(s, a)
    ensures WireOf(Apply(s, a), c) == Laid(Apply(s, a).turns, c)
  {
    match a {
      case Append(w, n, failed) => AppendKeepsWires(s, w, n, failed, c);
      case Take(w) => TakeKeepsWires(s, w, c);
      case _ => assert WireOf(s, c) == Laid(s.turns, c);
    }
  }

  lemma StepKeepsInv(s: State, a: Action)
    requires Inv(s) && Enabled(s, a)
    ensures Inv(Apply(s, a))
  {
    hide Laid;
    forall c
      ensures WireOf(Apply(s, a), c) == Laid(Apply(s, a).turns, c)
    {
      StepKeepsWires(s, a, c);
    }
  }

  lemma {:induction false} RunKeepsInv(s: State, actions: seq<Action>)
    requires Inv(s) && Legal(s, actions)
    ensures Inv(Run(s, actions))
    decreases |actions|
  {
    if actions != [] {
      StepKeepsInv(s, actions[0]);
      RunKeepsInv(Apply(s, actions[0]), actions[1..]);
    }
  }

  // ---------- what the gate promises over whole runs ----------

  /** There is exactly one token: in the gate, or with one writer. */
  lemma OneToken(actions: seq<Action>)
    requires Legal(INIT, actions)
    ensures var s := Run(INIT, actions);
      || (s.tokens == 1 && forall w :: w in s.writers ==> !s.writers[w].Holding?)
      || (s.tokens == 0 && exists w :: IsHolding(s, w) && forall v :: v in s.writers && s.writers[v].Holding? ==> v == w)
  {
    RunKeepsInv(INIT, actions);
    var s := Run(INIT, actions);
    if s.tokens == 0 {
      assert IsHolding(s, s.turns[|s.turns| - 1].writer);
    }
  }

  lemma {:induction false} LaidSplits(turns: seq<Turn>, k: nat, c: ConnId)
    requires k < |turns| && turns[k].conn == c && turns[k].sent <= |turns[k].frame|
    ensures Laid(turns[..k], c) + turns[k].frame[..turns[k].sent] <= Laid(turns, c)
  {
    var rest := turns[..|turns| - 1];
    if k == |turns| - 1 {
    } else {
      assert rest[..k] == turns[..k];
      LaidSplits(rest, k, c);
    }
  }

  /** The bytes of a turn are one contiguous piece of the wire, after everything that earlier turns
      laid there: no other write is interleaved with them. */
  lemma TurnsAreContiguous(actions: seq<Action>, k: nat)
    requires Legal(INIT, actions) && k < |Run(INIT, actions).turns|
    ensures var s := Run(INIT, actions); var t := s.turns[k];
      t.sent <= |t.frame| && Laid(s.turns[..k], t.conn) + t.frame[..t.sent] <= WireOf(s, t.conn)
  {
    RunKeepsInv(INIT, actions);
    var s := Run(INIT, actions);
    LaidSplits(s.turns, k, s.turns[k].conn);
  }

  /** A nil error means that the whole frame and its newline are on the wire in one piece. */
  lemma NilMeansWholeFrame(actions: seq<Action>, w: WriterId)
    requires Legal(INIT, actions)
    requires var s := Run(INIT, actions); w in s.writers && s.writers[w].Done? && s.writers[w].ok
    ensures var s := Run(INIT, actions);
      && s.writers[w].turn < |s.turns|
      && var t := s.turns[s.writers[w].turn];
      t.writer == w && Laid(s.turns[..s.writers[w].turn], t.conn) + t.frame <= WireOf(s, t.conn)
  {
    RunKeepsInv(INIT, actions);
    var s := Run(INIT, actions);
    var t := s.turns[s.writers[w].turn];
    TurnsAreContiguous(actions, s.writers[w].turn);
    assert t.frame[..t.sent] == t.frame;
  }

  /** The frames that went out whole on `c`. */
  function WholeFrames(turns: seq<Turn>, c: ConnId): seq<Byte> {
    if turns == [] then []
    else
      var t := turns[|turns| - 1];
      WholeFrames(turns[..|turns| - 1], c) + if t.conn == c && t.sent == |t.frame| then t.frame else []
  }

  ghost predicate NoneCutShort(turns: seq<Turn>, c: ConnId) {
    forall k :: 0 <= k < |turns| && turns[k].conn == c ==> turns[k].sent == 0 || turns[k].sent == |turns[k].frame|
  }

  lemma {:induction false} LaidAgainstWhole(turns: seq<Turn>, c: ConnId)
    requires forall k :: 0 <= k < |turns| ==> turns[k].sent <= |turns[k].frame|
    ensures |WholeFrames(turns, c)| <= |Laid(turns, c)|
    ensures |WholeFrames(turns, c)| == |Laid(turns, c)| <==> NoneCutShort(turns, c)
    ensures NoneCutShort(turns, c) ==> WholeFrames(turns, c) == Laid(turns, c)
  {
    if turns != [] {
      var n := |turns| - 1;
      LaidAgainstWhole(turns[..n], c);
      assert NoneCutShort(turns, c) <==>
        (NoneCutShort(turns[..n], c) && (turns[n].conn == c ==> turns[n].sent == 0 || turns[n].sent == |turns[n].frame|));
      assert turns[n].frame[..|turns[n].frame|] == turns[n].frame;
    }
  }

  /** The wire is a sequence of whole frames exactly when no write on it was cut short midway; a
      cancelled write may cut one short without the connection being dropped. */
  lemma WireIsWholeFramesIff(actions: seq<Action>, c: ConnId)
    requires Legal(INIT, actions)
    ensures var s := Run(INIT, actions);
      WireOf(s, c) == WholeFrames(s.turns, c) <==> NoneCutShort(s.turns, c)
  {
    RunKeepsInv(INIT, actions);
    LaidAgainstWhole(Run(INIT, actions).turns, c);
  }

  lemma Stepped(s: State, a: Action, rest: seq<Action>)
    requires Enabled(s, a) && Legal(Apply(s, a), rest)
    ensures Legal(s, [a] + rest) && Run(s, [a] + rest) == Run(Apply(s, a), rest)
  {
    assert ([a] + rest)[1..] == rest;
  }

  // ---------- the loop of one writer ----------

  lemma {:induction false} RunSnoc(s: State, actions: seq<Action>, a: Action)
    requires Legal(s, actions) && Enabled(Run(s, actions), a)
    ensures Legal(s, actions + [a]) && Run(s, actions + [a]) == Apply(Run(s, actions), a)
    decreases |actions|
  {
    hide Apply, Enabled;
    if actions == [] {
      Stepped(s, a, []);
      assert [a] + [] == [] + [a];
    } else {
      assert (actions + [a])[1..] == actions[1..] + [a];
      RunSnoc(Apply(s, actions[0]), actions[1..], a);
    }
  }

  /** The writer holds the token and has put nothing on the wire. */
  ghost predicate Begins(s: State, w: WriterId, payload: seq<Byte>, wire: seq<Byte>) {
    && IsHolding(s, w) && !s.writers[w].failed
    && var t := s.turns[s.writers[w].turn];
    t.payload == payload && t.sent == 0 && WireOf(s, t.conn) == wire
  }

  /** The writer of `begin` has put `sent` bytes on the wire; `failed` says that it stopped. */
  ghost predicate Wrote(begin: State, s: State, w: WriterId, sent: nat, failed: bool, wire: seq<Byte>)
    requires IsHolding(begin, w)
  {
    var k := begin.writers[w].turn;
    && IsHolding(s, w) && s.writers[w] == Holding(k, failed) && k < |s.turns|
    && s.turns[k] == begin.turns[k].(sent := sent) && WireOf(s, begin.turns[k].conn) == wire
  }

  lemma OneMoreWrite(begin: State, s: State, w: WriterId, sent: nat, n: nat, failed: bool, wire: seq<Byte>)
    requires IsHolding(begin, w) && Wrote(begin, s, w, sent, false, wire) && (n == 0 ==> failed)
    requires sent < |begin.turns[begin.writers[w].turn].frame| && sent + n <= |begin.turns[begin.writers[w].turn].frame|
    ensures Enabled(s, Append(w, n, failed))
    ensures var frame := begin.turns[begin.writers[w].turn].frame;
      Wrote(begin, Apply(s, Append(w, n, failed)), w, sent + n, failed, wire + frame[sent..][..n])
  {
  }

  lemma NothingWritten(begin: State, w: WriterId, payload: seq<Byte>, wire: seq<Byte>)
    requires Begins(begin, w, payload, wire)
    ensures Wrote(begin, begin, w, 0, false, wire)
    ensures Enabled(begin, Refuse(w)) && Wrote(begin, Apply(begin, Refuse(w)), w, 0, true, wire)
    ensures begin.turns[begin.writers[w].turn].frame == payload + [NEWLINE]
  {
  }

  lemma WriterIsDone(begin: State, s: State, w: WriterId, sent: nat, failed: bool, wire: seq<Byte>)
    requires IsHolding(begin, w) && Wrote(begin, s, w, sent, failed, wire)
    requires failed || sent == |begin.turns[begin.writers[w].turn].frame|
    ensures Enabled(s, Release(w))
    ensures Apply(s, Release(w)).writers[w] == Done(begin.writers[w].turn, !failed)
  {
  }

  /** The body of `write` while it holds the token: true stands for a nil error. */
  method WriteFrame(wire: Wire, payload: seq<Byte>, encodable: bool, ghost begin: State, ghost w: WriterId)
    returns (complete: bool, ghost sent: nat, ghost steps: seq<Action>)
    requires Begins(begin, w, payload, wire.bytes)
    modifies wire
    ensures sent <= |payload| + 1
    ensures wire.bytes == old(wire.bytes) + (payload + [NEWLINE])[..sent]
    ensures var fits := encodable && |payload| + 1 <= MAX_FRAME_BYTES;
      && (complete <==> fits && sent == |payload| + 1 && !wire.lastFailed)
      && (!fits ==> sent == 0)
    ensures Legal(begin, steps) && Wrote(begin, Run(begin, steps), w, sent, !complete, wire.bytes)
    ensures Enabled(Run(begin, steps), Release(w))
    ensures Apply(Run(begin, steps), Release(w)).writers[w] == Done(begin.writers[w].turn, complete)
  {
    hide Run, Legal, Wrote, Apply, Enabled, WireOf;
    NothingWritten(begin, w, payload, wire.bytes);
    var failed := !encodable;
    if !failed && |payload| + 1 > MAX_FRAME_BYTES {
      failed := true;
    }
    sent, steps := 0, [];
    NoSteps(begin);
    if failed {
      steps := [Refuse(w)];
      Stepped(begin, Refuse(w), []);
      NoSteps(Apply(begin, Refuse(w)));
      assert [Refuse(w)] + [] == [Refuse(w)];
      assert wire.bytes == old(wire.bytes) + (payload + [NEWLINE])[..0];
      WriterIsDone(begin, Run(begin, steps), w, 0, true, wire.bytes);
      return false, 0, steps;
    }
    var frame := payload + [NEWLINE];
    ghost var whole := frame;
    while |frame| > 0 && !failed
      invariant sent <= |whole| && frame == whole[sent..]
      invariant wire.bytes == old(wire.bytes) + whole[..sent]
      invariant sent > 0 || failed ==> wire.lastFailed == failed
      invariant Legal(begin, steps) && Wrote(begin, Run(begin, steps), w, sent, failed, wire.bytes)
      decreases |frame|, !failed
    {
      ghost var was, before := sent, wire.bytes;
      var written;
      written, failed := wire.Write(frame);
      if written == 0 && !failed {
        failed := true;
        OneMoreWrite(begin, Run(begin, steps), w, sent, 0, true, before);
        RunSnoc(begin, steps, Append(w, 0, true));
        steps := steps + [Append(w, 0, true)];
        assert before + whole[sent..][..0] == before == wire.bytes;
        break;
      }
      OneMoreWrite(begin, Run(begin, steps), w, sent, written, failed, before);
      RunSnoc(begin, steps, Append(w, written, failed));
      steps := steps + [Append(w, written, failed)];
      assert whole[..sent] + frame[..written] == whole[..sent + written];
      sent := sent + written;
      frame := frame[written..];
    }
    complete := !failed && |frame| == 0;
    WriterIsDone(begin, Run(begin, steps), w, sent, failed, wire.bytes);
  }

  lemma NoSteps(s: State)
    ensures Legal(s, []) && Run(s, []) == s
  {
  }

  // ---------- what the line scanner on the other end reads ----------

  /** The newline-terminated lines of a byte stream, without their newlines. */
  function Lines(b: seq<Byte>): seq<seq<Byte>> {
    LinesFrom(b, [])
  }

  function LinesFrom(b: seq<Byte>, line: seq<Byte>): seq<seq<Byte>>
    decreases |b|
  {
    if b == [] then []
    else if b[0] == NEWLINE then [line] + LinesFrom(b[1..], [])
    else LinesFrom(b[1..], line + [b[0]])
  }

  function Framed(payloads: seq<seq<Byte>>): seq<Byte> {
    if payloads == [] then [] else payloads[0] + [NEWLINE] + Framed(payloads[1..])
  }

  lemma {:induction false} LineIsRead(payload: seq<Byte>, line: seq<Byte>, rest: seq<Byte>)
    requires NEWLINE !in payload
    ensures LinesFrom(payload + [NEWLINE] + rest, line) == [line + payload] + LinesFrom(rest, [])
    decreases |payload|
  {
    var b := payload + [NEWLINE] + rest;
    if payload == [] {
      assert b[1..] == rest && line + payload == line;
    } else {
      assert b[1..] == payload[1..] + [NEWLINE] + rest;
      LineIsRead(payload[1..], line + [payload[0]], rest);
      assert line + [payload[0]] + payload[1..] == line + payload;
    }
  }

  /** Framing is invertible: reading lines off whole frames gives back the payloads, in order. */
  lemma {:induction false} FramingRoundTrip(payloads: seq<seq<Byte>>)
    requires forall p :: p in payloads ==> NEWLINE !in p
    ensures Lines(Framed(payloads)) == payloads
    decreases |payloads|
  {
    if payloads != [] {
      LineIsRead(payloads[0], [], Framed(payloads[1..]));
      FramingRoundTrip(payloads[1..]);
      assert [] + payloads[0] == payloads[0];
    }
  }

  lemma {:induction false} FramedAppend(payloads: seq<seq<Byte>>, p: seq<Byte>)
    ensures Framed(payloads + [p]) == Framed(payloads) + p + [NEWLINE]
    decreases |payloads|
  {
    if payloads == [] {
      assert payloads + [p] == [p];
    } else {
      assert (payloads + [p])[1..] == payloads[1..] + [p];
      FramedAppend(payloads[1..], p);
    }
  }

  function WholePayloads(turns: seq<Turn>, c: ConnId): seq<seq<Byte>> {
    if turns == [] then []
    else
      var t := turns[|turns| - 1];
      WholePayloads(turns[..|turns| - 1], c) + if t.conn == c && t.sent == |t.frame| then [t.payload] else []
  }

  lemma {:induction false} WholeFramesAreFramed(turns: seq<Turn>, c: ConnId)
    ensures WholeFrames(turns, c) == Framed(WholePayloads(turns, c))
  {
    if turns != [] {
      var n := |turns| - 1;
      var before := WholePayloads(turns[..n], c);
      WholeFramesAreFramed(turns[..n], c);
      FramedAppend(before, turns[n].payload);
      assert Framed(before) + turns[n].payload + [NEWLINE] == Framed(before) + turns[n].frame;
      assert before + [] == before && Framed(before) + [] == Framed(before);
    }
  }

  lemma {:induction false} WholePayloadsAreTurns(turns: seq<Turn>, c: ConnId, p: seq<Byte>)
    requires p in WholePayloads(turns, c)
    ensures exists k :: 0 <= k < |turns| && turns[k].payload == p
  {
    var n := |turns| - 1;
    if p in WholePayloads(turns[..n], c) {
      WholePayloadsAreTurns(turns[..n], c, p);
      var k :| 0 <= k < n && turns[..n][k].payload == p;
      assert turns[k].payload == p;
    }
  }

  /** If no write on `c` was cut short midway and no encoded message holds a raw newline, the other
      end reads exactly the messages written whole, in the order their writers got the token. */
  lemma ReaderSeesWholeMessages(actions: seq<Action>, c: ConnId)
    requires Legal(INIT, actions)
    requires NoneCutShort(Run(INIT, actions).turns, c)
    requires forall k :: 0 <= k < |Run(INIT, actions).turns| ==> NEWLINE !in Run(INIT, actions).turns[k].payload
    ensures var s := Run(INIT, actions); Lines(WireOf(s, c)) == WholePayloads(s.turns, c)
  {
    var s := Run(INIT, actions);
    WireIsWholeFramesIff(actions, c);
    WholeFramesAreFramed(s.turns, c);
    forall p | p in WholePayloads(s.turns, c)
      ensures NEWLINE !in p
    {
      WholePayloadsAreTurns(s.turns, c, p);
    }
    FramingRoundTrip(WholePayloads(s.turns, c));
  }
}
