/** All continuations of one incident together: operators and the automatic trigger ask to continue
    at any time and with any role map. A continuation reads the attempts first and acts on what it read
    later; other continuations may act and attempts may settle in between. */
module FailoverRuns {
  import opened Options
  import opened Strings
  import opened Failover

  datatype Request = Request(m: RoleMap, roleID: string, current: Target, automatic: bool, generation: string)

  datatype Outcome =
    | Adopted(attempt: Attempt)     // an open attempt is driven on
    | Converged(attempt: Attempt)   // an acknowledged attempt only needs its pause cleared
    | AlreadyAttempted              // the automatic trigger acts once per incident
    | LimitReached
    | NoRung(choice: Choice)
    | NoGeneration
    | Appended(attempt: Attempt)

  /** What a continuation does, given the attempts as the store lists them. */
  function Decide(listed: seq<Attempt>, q: Request): Outcome {
    if Active(listed).Some? then Adopted(Active(listed).value)
    else if Latest(listed).Some? && Latest(listed).value.state.Acked? && Latest(listed).value.generation != "" then
      Converged(Latest(listed).value)
    else if q.automatic && listed != [] then AlreadyAttempted
    else if |listed| >= MAX_FAILOVERS_PER_INCIDENT then LimitReached
    else
      var choice := ChosenRung(q.m, q.roleID, q.current, Used(listed));
      if !choice.Rung? then NoRung(choice)
      else if Trim(q.generation) == "" then NoGeneration
      else Appended(Attempt(NextSeq(listed), choice.target, choice.index, q.generation, Requested))
  }

  type CallId = nat

  /** A continuation that has read the attempts, in the order the store listed them, and not yet acted. */
  datatype Call = Call(q: Request, listed: seq<Attempt>)

  datatype State = State(rows: seq<Attempt>, calls: map<CallId, Call>)

  /** `Settle` is the compare-and-set that moves an open attempt to another state. */
  datatype Event =
    | Look(call: CallId, q: Request, listed: seq<Attempt>)
    | Act(call: CallId)
    | Settle(seqNo: int, from: AttemptState, to: AttemptState)

  const START := State([], map[])

  predicate Possible(s: State, e: Event) {
    match e
    case Look(call, _, listed) => call !in s.calls && multiset(listed) == multiset(s.rows)
    case Act(call) => call in s.calls
    case Settle(_, from, to) => !from.Terminal() && to != Requested
  }

  predicate SeqTaken(rows: seq<Attempt>, seqNo: int) {
    exists a :: a in rows && a.seqNo == seqNo
  }

  function Settled(rows: seq<Attempt>, seqNo: int, from: AttemptState, to: AttemptState): seq<Attempt> {
    if rows == [] then []
    else
      var a := rows[|rows| - 1];
      Settled(rows[..|rows| - 1], seqNo, from, to)
      + [if a.seqNo == seqNo && a.state == from then a.(state := to) else a]
  }

  /** The attempts once a continuation has acted on what it read: an append whose sequence number was
      taken meanwhile is rejected by the store. */
  function Acted(rows: seq<Attempt>, c: Call): seq<Attempt> {
    var outcome := Decide(c.listed, c.q);
    if outcome.Appended? && !SeqTaken(rows, outcome.attempt.seqNo) then rows + [outcome.attempt] else rows
  }

  function After(s: State, e: Event): State
    requires Possible(s, e)
  {
    match e
    case Look(call, q, listed) => s.(calls := s.calls[call := Call(q, listed)])
    case Act(call) => State(Acted(s.rows, s.calls[call]), s.calls - {call})
    case Settle(seqNo, from, to) => s.(rows := Settled(s.rows, seqNo, from, to))
  }

  predicate Legal(s: State, events: seq<Event>)
    decreases |events|
  {
    events == [] || (Possible(s, events[0]) && Legal(After(s, events[0]), events[1..]))
  }

  function Run(s: State, events: seq<Event>): State
    requires Legal(s, events)
    decreases |events|
  {
    if events == [] then s else Run(After(s, events[0]), events[1..])
  }

  /** The attempts are numbered 1, 2, 3, …; all but the latest have failed; no two went to the same
      target; and there are at most eight. */
  ghost predicate Inv(rows: seq<Attempt>) {
    && |rows| <= MAX_FAILOVERS_PER_INCIDENT
    && (forall i :: 0 <= i < |rows| ==> rows[i].seqNo == i + 1 && Trim(rows[i].generation) != "")
    && (forall i :: 0 <= i < |rows| - 1 ==> rows[i].state == Failed)
    && (forall i, j :: 0 <= i < j < |rows| ==> rows[i].Destination() != rows[j].Destination())
  }

  /** A continuation about to append has read the attempts as they are now, or its number is taken. */
  ghost predicate CallSound(rows: seq<Attempt>, c: Call) {
    var outcome := Decide(c.listed, c.q);
    outcome.Appended? ==> multiset(c.listed) == multiset(rows) || SeqTaken(rows, outcome.attempt.seqNo)
  }

  ghost predicate Sound(s: State) {
    Inv(s.rows) && forall id :: id in s.calls ==> CallSound(s.rows, s.calls[id])
  }

  lemma InvGivesLatest(rows: seq<Attempt>)
    requires Inv(rows)
    ensures SeqsDistinct(rows)
    ensures rows != [] ==> Latest(rows) == Some(rows[|rows| - 1])
  {
    hide Trim;
    LatestIsHighest(rows);
  }

  lemma TrimEmpty()
    ensures Trim("") == ""
  {
  }

  lemma UnspentTarget(listed: seq<Attempt>, rung: Target, current: Target)
    ensures Eligible(rung, current, Used(listed)) <==>
      && rung.harness.IsKnown() && Trimmed(rung) != Trimmed(current)
      && forall b :: b in listed ==> Trimmed(rung) != b.Destination()
  {
    hide Trim;
    UsedAre(listed);
    forall b | b in listed
      ensures b.Destination() in Used(listed) && Trimmed(b.Destination()) == b.Destination()
    {
      TrimIdempotent(b.to.model);
    }
  }

  /** A continuation that appends gives its attempt the lowest eligible rung of the ladder in force. */
  lemma AppendTakesLowestRung(listed: seq<Attempt>, q: Request)
    requires Decide(listed, q).Appended?
    ensures var a := Decide(listed, q).attempt; var ladder := Ladder(q.m, q.roleID);
      && 0 <= a.rungIndex && IsFirstEligible(ladder, q.current, Used(listed), a.rungIndex)
      && a.to == Trimmed(ladder[a.rungIndex])
      && |listed| < MAX_FAILOVERS_PER_INCIDENT && a.state == Requested
      && (q.automatic ==> listed == [])
      && a.Destination() == a.to && forall b :: b in listed ==> a.to != b.Destination()
  {
    hide Trim;
    var a := Decide(listed, q).attempt;
    var rung := Ladder(q.m, q.roleID)[a.rungIndex];
    TrimIdempotent(rung.model);
    UnspentTarget(listed, rung, q.current);
  }

  lemma {:induction false} SettledAt(rows: seq<Attempt>, seqNo: int, from: AttemptState, to: AttemptState)
    ensures var t := Settled(rows, seqNo, from, to);
      |t| == |rows| && forall i :: 0 <= i < |t| ==>
        t[i] == if rows[i].seqNo == seqNo && rows[i].state == from then rows[i].(state := to) else rows[i]
    decreases |rows|
  {
    if rows != [] {
      SettledAt(rows[..|rows| - 1], seqNo, from, to);
    }
  }

  lemma SettleKeepsInv(rows: seq<Attempt>, seqNo: int, from: AttemptState, to: AttemptState)
    requires Inv(rows) && !from.Terminal()
    ensures Inv(Settled(rows, seqNo, from, to))
  {
    hide Trim, Settled;
    SettledAt(rows, seqNo, from, to);
  }

  /** What the folds give on the stored attempts, in whatever order they are listed. */
  lemma ListedFacts(rows: seq<Attempt>, listed: seq<Attempt>)
    requires Inv(rows) && multiset(listed) == multiset(rows)
    ensures |listed| == |rows| && NextSeq(listed) == |rows| + 1
    ensures rows == [] ==> Latest(listed).None?
    ensures rows != [] ==> Latest(listed) == Some(rows[|rows| - 1])
    ensures forall b :: b in rows <==> b in listed
    ensures forall t :: t in Used(listed) <==> t in Used(rows)
  {
    hide Trim, Used;
    InvGivesLatest(rows);
    FoldsIgnoreOrder(rows, listed);
    assert forall b :: b in rows <==> b in multiset(rows);
    assert forall b :: b in listed <==> b in multiset(listed);
  }

  lemma AppendKeepsInv(rows: seq<Attempt>, c: Call)
    requires Inv(rows) && multiset(c.listed) == multiset(rows) && Decide(c.listed, c.q).Appended?
    ensures var a := Decide(c.listed, c.q).attempt; Inv(rows + [a]) && a.seqNo == |rows| + 1
  {
    hide Trim, ChosenRung, Latest, Used, NextSeq;
    ListedFacts(rows, c.listed);
    TrimEmpty();
    AppendTakesLowestRung(c.listed, c.q);
  }

  lemma EmptyKeepsInv()
    ensures Inv([])
  {
  }

  // ---------- what every event keeps ----------

  lemma LookKeepsSound(s: State, call: CallId, q: Request, listed: seq<Attempt>)
    requires Sound(s) && Possible(s, Look(call, q, listed))
    ensures Sound(After(s, Look(call, q, listed)))
  {
    hide Inv, Decide;
  }

  /** An append takes the number every other continuation that read the same attempts would take. */
  lemma OthersAfterAppend(rows: seq<Attempt>, c: Call, a: Attempt)
    requires Inv(rows) && CallSound(rows, c) && a.seqNo == |rows| + 1
    ensures CallSound(rows + [a], c)
  {
    hide Trim, ChosenRung, Latest, Used, NextSeq, Inv;
    if Decide(c.listed, c.q).Appended? {
      assert a in rows + [a];
      if multiset(c.listed) == multiset(rows) {
        ListedFacts(rows, c.listed);
      } else {
        var b :| b in rows && b.seqNo == Decide(c.listed, c.q).attempt.seqNo;
        assert b in rows + [a];
      }
    }
  }

  lemma ActKeepsSound(s: State, call: CallId)
    requires Sound(s) && Possible(s, Act(call))
    ensures Sound(After(s, Act(call)))
  {
    hide Inv, Decide, CallSound;
    var c := s.calls[call];
    if Acted(s.rows, c) != s.rows {
      ActedOnCurrent(s.rows, c);
      AppendKeepsInv(s.rows, c);
      forall id | id in s.calls
        ensures CallSound(Acted(s.rows, c), s.calls[id])
      {
        OthersAfterAppend(s.rows, s.calls[id], Decide(c.listed, c.q).attempt);
      }
    }
  }

  /** Whoever manages to append has read the attempts as they still are. */
  lemma ActedOnCurrent(rows: seq<Attempt>, c: Call)
    requires CallSound(rows, c) && Acted(rows, c) != rows
    ensures Decide(c.listed, c.q).Appended? && multiset(c.listed) == multiset(rows)
    ensures Acted(rows, c) == rows + [Decide(c.listed, c.q).attempt]
  {
    hide Decide;
  }

  /** While somebody may still append, no attempt is open and so none can settle. */
  lemma OthersAfterSettle(rows: seq<Attempt>, c: Call, seqNo: int, from: AttemptState, to: AttemptState)
    requires Inv(rows) && CallSound(rows, c) && !from.Terminal()
    ensures CallSound(Settled(rows, seqNo, from, to), c)
  {
    hide Trim, ChosenRung, Latest, Used, NextSeq, Settled;
    SettledAt(rows, seqNo, from, to);
    var t := Settled(rows, seqNo, from, to);
    if Decide(c.listed, c.q).Appended? {
      if multiset(c.listed) == multiset(rows) {
        ListedFacts(rows, c.listed);
        assert t == rows;
      } else {
        var i :| 0 <= i < |rows| && rows[i].seqNo == Decide(c.listed, c.q).attempt.seqNo;
        assert t[i] in t;
      }
    }
  }

  lemma SettleKeepsSound(s: State, seqNo: int, from: AttemptState, to: AttemptState)
    requires Sound(s) && !from.Terminal()
    ensures Sound(s.(rows := Settled(s.rows, seqNo, from, to)))
  {
    hide Inv, CallSound, Settled;
    SettleKeepsInv(s.rows, seqNo, from, to);
    forall id | id in s.calls
      ensures CallSound(Settled(s.rows, seqNo, from, to), s.calls[id])
    {
      OthersAfterSettle(s.rows, s.calls[id], seqNo, from, to);
    }
  }

  /** Every event keeps the invariant, however long a continuation waits between reading and acting. */
  lemma EventKeepsSound(s: State, e: Event)
    requires Sound(s) && Possible(s, e)
    ensures Sound(After(s, e))
  {
    hide Sound, Acted, Settled;
    match e {
      case Look(call, q, listed) => LookKeepsSound(s, call, q, listed);
      case Act(call) => ActKeepsSound(s, call);
      case Settle(seqNo, from, to) => SettleKeepsSound(s, seqNo, from, to);
    }
  }

  lemma StartIsSound()
    ensures Sound(START)
  {
  }

  lemma {:induction false} RunKeepsSound(s: State, events: seq<Event>)
    requires Sound(s) && Legal(s, events)
    ensures Sound(Run(s, events))
    decreases |events|
  {
    hide Sound, After, Possible;
    if events != [] {
      EventKeepsSound(s, events[0]);
      RunKeepsSound(After(s, events[0]), events[1..]);
    }
  }

  // ---------- what every run of an incident promises ----------

  /** Over any run of an incident, role-map edits and stale reads included: sequence numbers are unique,
      targets are pairwise different, there are never more than eight attempts, and every attempt but
      the latest has failed, so at most one is open and it is the latest. */
  lemma EveryIncidentIsSafe(events: seq<Event>)
    requires Legal(START, events)
    ensures var rows := Run(START, events).rows;
      && |rows| <= MAX_FAILOVERS_PER_INCIDENT
      && (forall i, j :: 0 <= i < j < |rows| ==> 
          rows[i].seqNo != rows[j].seqNo && rows[i].Destination() != rows[j].Destination())
      && (forall i :: 0 <= i < |rows| && !rows[i].state.Terminal() ==> i == |rows| - 1 && Latest(rows) == Some(rows[i]))
      && (forall i :: 0 <= i < |rows| - 1 ==> rows[i].state == Failed)
  {
    hide Trim, Run, Legal;
    StartIsSound();
    RunKeepsSound(START, events);
    InvGivesLatest(Run(START, events).rows);
  }

  lemma OpenRowIsAdopted(rows: seq<Attempt>, a: Attempt, q: Request, listed: seq<Attempt>)
    requires Inv(rows) && multiset(listed) == multiset(rows)
    requires a in rows && !a.state.Terminal()
    ensures rows != [] && Decide(listed, q) == Adopted(rows[|rows| - 1])
  {
    hide Trim, ChosenRung, Latest, Used, NextSeq;
    ListedFacts(rows, listed);
  }

  lemma AckedRowConverges(rows: seq<Attempt>, a: Attempt, q: Request, listed: seq<Attempt>)
    requires Inv(rows) && multiset(listed) == multiset(rows)
    requires a in rows && a.state.Acked?
    ensures rows != [] && Decide(listed, q) == Converged(rows[|rows| - 1])
  {
    hide Trim, ChosenRung, Latest, Used, NextSeq;
    ListedFacts(rows, listed);
    TrimEmpty();
  }

  /** While an attempt is open, every continuation that reads the attempts adopts it, in whatever order
      they are listed; and no continuation under way, however old its reading, adds an attempt or
      spends a rung. */
  lemma OpenAttemptIsAdopted(events: seq<Event>, q: Request, listed: seq<Attempt>)
    requires Legal(START, events) && multiset(listed) == multiset(Run(START, events).rows)
    requires exists a :: a in Run(START, events).rows && !a.state.Terminal()
    ensures var s := Run(START, events);
      && s.rows != [] && Decide(listed, q) == Adopted(s.rows[|s.rows| - 1])
      && forall call :: call in s.calls ==> Acted(s.rows, s.calls[call]) == s.rows
  {
    hide Inv, Decide, Run, Legal, Acted, CallSound;
    StartIsSound();
    RunKeepsSound(START, events);
    var s := Run(START, events);
    var a :| a in s.rows && !a.state.Terminal();
    OpenRowIsAdopted(s.rows, a, q, listed);
    forall call | call in s.calls
      ensures Acted(s.rows, s.calls[call]) == s.rows
    {
      var c := s.calls[call];
      if Acted(s.rows, c) != s.rows {
        ActedOnCurrent(s.rows, c);
        OpenRowIsAdopted(s.rows, a, c.q, c.listed);
      }
    }
  }

  /** Once an attempt is acknowledged no continuation, new or under way, ever starts another. */
  lemma AcknowledgedIncidentIsOver(events: seq<Event>, q: Request, listed: seq<Attempt>)
    requires Legal(START, events) && multiset(listed) == multiset(Run(START, events).rows)
    requires exists a :: a in Run(START, events).rows && a.state.Acked?
    ensures var s := Run(START, events);
      && s.rows != [] && Decide(listed, q) == Converged(s.rows[|s.rows| - 1])
      && forall call :: call in s.calls ==> Acted(s.rows, s.calls[call]) == s.rows
  {
    hide Inv, Decide, Run, Legal, Acted, CallSound;
    StartIsSound();
    RunKeepsSound(START, events);
    var s := Run(START, events);
    var a :| a in s.rows && a.state.Acked?;
    AckedRowConverges(s.rows, a, q, listed);
    forall call | call in s.calls
      ensures Acted(s.rows, s.calls[call]) == s.rows
    {
      var c := s.calls[call];
      if Acted(s.rows, c) != s.rows {
        ActedOnCurrent(s.rows, c);
        AckedRowConverges(s.rows, a, c.q, c.listed);
      }
    }
  }

  /** The decision does not depend on the order in which the attempts are listed. */
  lemma DecisionIgnoresOrder(events: seq<Event>, q: Request, xs: seq<Attempt>, ys: seq<Attempt>)
    requires Legal(START, events)
    requires multiset(xs) == multiset(Run(START, events).rows) && multiset(ys) == multiset(Run(START, events).rows)
    ensures Decide(xs, q) == Decide(ys, q)
  {
    hide Inv, Trim, Latest, Used, NextSeq, FirstEligible, Ladder, Run, Legal, CallSound;
    StartIsSound();
    RunKeepsSound(START, events);
    ListedFacts(Run(START, events).rows, xs);
    ListedFacts(Run(START, events).rows, ys);
    ChoiceIgnoresOrder(Ladder(q.m, q.roleID), q.current, Used(xs), Used(ys));
  }

  // ---------- exactly when a continuation does what ----------

  /** Some attempt can still be driven on. */
  ghost predicate AnyOpen(rows: seq<Attempt>) {
    exists a :: a in rows && !a.state.Terminal()
  }

  ghost predicate AllFailed(rows: seq<Attempt>) {
    forall a :: a in rows ==> a.state == Failed
  }

  /** A supported target of the ladder that is not the current one and that no attempt went to. */
  ghost predicate IsFree(rung: Target, current: Target, rows: seq<Attempt>) {
    rung.harness.IsKnown() && Trimmed(rung) != Trimmed(current) && forall a :: a in rows ==> a.Destination() != Trimmed(rung)
  }

  ghost predicate AnyFree(rows: seq<Attempt>, q: Request) {
    exists r :: r in Ladder(q.m, q.roleID) && IsFree(r, q.current, rows)
  }

  /** Only the limit, the role, the ladder and the generation can still stand in the way. */
  ghost predicate MayContinue(rows: seq<Attempt>, q: Request) {
    AllFailed(rows) && (q.automatic ==> rows == [])
  }

  lemma InvStates(rows: seq<Attempt>)
    requires Inv(rows)
    ensures AnyOpen(rows) <==> rows != [] && !rows[|rows| - 1].state.Terminal()
    ensures (exists a :: a in rows && a.state.Acked?) <==> rows != [] && rows[|rows| - 1].state.Acked?
    ensures AllFailed(rows) <==> rows == [] || rows[|rows| - 1].state == Failed
  {
    hide Trim;
    if rows != [] {
      assert rows[|rows| - 1] in rows;
    }
  }

  lemma ChoiceIs(rows: seq<Attempt>, listed: seq<Attempt>, q: Request)
    requires forall b :: b in rows <==> b in listed
    ensures var choice := ChosenRung(q.m, q.roleID, q.current, Used(listed));
      && (choice.RoleRequired? <==> AllSpace(q.roleID))
      && (choice.Rung? <==> !AllSpace(q.roleID) && AnyFree(rows, q))
  {
    hide Trim, Used, Trimmed, Ladder;
    TrimIsEmptyIff(q.roleID);
    var ladder := Ladder(q.m, q.roleID);
    forall r
      ensures Eligible(r, q.current, Used(listed)) <==> IsFree(r, q.current, rows)
    {
      UnspentTarget(listed, r, q.current);
    }
    var choice := FirstEligible(ladder, q.current, Used(listed), 0);
    if choice.Rung? {
      assert ladder[choice.index] in ladder;
    }
  }

  /** In every state of an incident a continuation that reads the attempts adopts one exactly if one is
      open and converges exactly if one is acknowledged; if all have failed, it starts another exactly if
      it is manual or the first, there are fewer than eight, role and generation are given, and some
      rung of the role's ladder is free; and else it names the first of these that is missing. */
  lemma ContinuesExactlyWhen(events: seq<Event>, q: Request, listed: seq<Attempt>)
    requires Legal(START, events) && multiset(listed) == multiset(Run(START, events).rows)
    ensures var rows := Run(START, events).rows; var d := Decide(listed, q);
      && (d.Adopted? <==> AnyOpen(rows))
      && (d.Converged? <==> exists a :: a in rows && a.state.Acked?)
      && (d.AlreadyAttempted? <==> AllFailed(rows) && rows != [] && q.automatic)
      && (d.LimitReached? <==> MayContinue(rows, q) && |rows| >= 8)
      && (d == NoRung(RoleRequired) <==> MayContinue(rows, q) && |rows| < 8 && AllSpace(q.roleID))
      && (d == NoRung(NoTarget) <==> MayContinue(rows, q) && |rows| < 8 && !AllSpace(q.roleID) && !AnyFree(rows, q))
      && (d.NoGeneration? <==>
          MayContinue(rows, q) && |rows| < 8 && !AllSpace(q.roleID) && AnyFree(rows, q) && AllSpace(q.generation))
      && (d.Appended? <==>
          MayContinue(rows, q) && |rows| < 8 && !AllSpace(q.roleID) && AnyFree(rows, q) && !AllSpace(q.generation))
  {
    hide Run, Legal, CallSound, Used, NextSeq, ChosenRung, Trim, AnyOpen, AllFailed, AnyFree, Latest, AllSpace;
    StartIsSound();
    RunKeepsSound(START, events);
    var rows := Run(START, events).rows;
    ListedFacts(rows, listed);
    InvStates(rows);
    ChoiceIs(rows, listed, q);
    TrimIsEmptyIff(q.generation);
    TrimEmpty();
  }

  // ---------- a fixed ladder ----------

  /** The different targets of the ladder that could ever be chosen. */
  function Rungs(ladder: seq<Target>): set<Target> {
    set r | r in ladder && r.harness.IsKnown() :: Trimmed(r)
  }

  function Spent(rows: seq<Attempt>): set<Target> {
    set a | a in rows :: a.Destination()
  }

  function Unspent(ladder: seq<Target>, rows: seq<Attempt>): set<Target> {
    Rungs(ladder) - Spent(rows)
  }

  /** Each new attempt on a ladder strictly lowers the number of its unspent distinct rungs. */
  lemma AppendSpendsARung(rows: seq<Attempt>, listed: seq<Attempt>, q: Request)
    requires multiset(listed) == multiset(rows) && Decide(listed, q).Appended?
    ensures var ladder := Ladder(q.m, q.roleID); var a := Decide(listed, q).attempt;
      && Unspent(ladder, rows + [a]) < Unspent(ladder, rows)
      && |Unspent(ladder, rows + [a])| < |Unspent(ladder, rows)|
  {
    hide Trim;
    AppendTakesLowestRung(listed, q);
    var ladder := Ladder(q.m, q.roleID);
    var a := Decide(listed, q).attempt;
    TrimIdempotent(ladder[a.rungIndex].model);
    assert ladder[a.rungIndex] in ladder;
    assert a.Destination() == a.to && a.to in Rungs(ladder);
    forall b | b in rows
      ensures b.Destination() != a.to
    {
      assert b in multiset(rows) && b in multiset(listed) && b in listed;
      TrimIdempotent(b.to.model);
    }
    assert Spent(rows + [a]) == Spent(rows) + {a.to};
    assert Unspent(ladder, rows + [a]) == Unspent(ladder, rows) - {a.to};
  }

  predicate OnLadder(events: seq<Event>, ladder: seq<Target>) {
    forall e :: e in events && e.Look? ==> Ladder(e.q.m, e.q.roleID) == ladder
  }

  predicate CallsOnLadder(s: State, ladder: seq<Target>) {
    forall id :: id in s.calls ==> Ladder(s.calls[id].q.m, s.calls[id].q.roleID) == ladder
  }

  lemma EventPays(s: State, e: Event, ladder: seq<Target>)
    requires Sound(s) && Possible(s, e) && CallsOnLadder(s, ladder)
    requires e.Look? ==> Ladder(e.q.m, e.q.roleID) == ladder
    ensures CallsOnLadder(After(s, e), ladder)
    ensures |After(s, e).rows| - |s.rows| <= |Unspent(ladder, s.rows)| - |Unspent(ladder, After(s, e).rows)|
  {
    hide Decide, Trim, Ladder, Unspent, Inv, CallSound, Settled, Acted;
    match e {
      case Look(_, _, _) =>
      case Act(call) =>
        var c := s.calls[call];
        if Acted(s.rows, c) != s.rows {
          ActedOnCurrent(s.rows, c);
          AppendSpendsARung(s.rows, c.listed, c.q);
        }
      case Settle(seqNo, from, to) =>
        SettleSpendsNothing(s.rows, seqNo, from, to, ladder);
    }
  }

  lemma {:induction false} UnspentPays(s: State, events: seq<Event>, ladder: seq<Target>)
    requires Sound(s) && Legal(s, events) && OnLadder(events, ladder) && CallsOnLadder(s, ladder)
    ensures |Run(s, events).rows| - |s.rows| <= |Unspent(ladder, s.rows)| - |Unspent(ladder, Run(s, events).rows)|
    decreases |events|
  {
    hide Sound, After, Possible, Unspent, Ladder, CallsOnLadder;
    if events != [] {
      assert events[0] in events;
      assert forall e :: e in events[1..] ==> e in events;
      EventKeepsSound(s, events[0]);
      EventPays(s, events[0], ladder);
      UnspentPays(After(s, events[0]), events[1..], ladder);
    }
  }

  lemma SettleSpendsNothing(rows: seq<Attempt>, seqNo: int, from: AttemptState, to: AttemptState, ladder: seq<Target>)
    ensures |Settled(rows, seqNo, from, to)| == |rows|
    ensures Unspent(ladder, Settled(rows, seqNo, from, to)) == Unspent(ladder, rows)
  {
    hide Rungs, Settled;
    SettledAt(rows, seqNo, from, to);
    SameDestinations(rows, Settled(rows, seqNo, from, to));
  }

  lemma SameDestinations(rows: seq<Attempt>, t: seq<Attempt>)
    requires |t| == |rows| && forall i :: 0 <= i < |t| ==> t[i].to == rows[i].to
    ensures Spent(t) == Spent(rows)
  {
    hide Trimmed;
    forall x
      ensures x in Spent(t) <==> x in Spent(rows)
    {
      if x in Spent(t) {
        var i :| 0 <= i < |t| && t[i].Destination() == x;
        assert rows[i] in rows && rows[i].Destination() == x;
      }
      if x in Spent(rows) {
        var i :| 0 <= i < |rows| && rows[i].Destination() == x;
        assert t[i] in t && t[i].Destination() == x;
      }
    }
  }

  lemma {:induction false} RungsAreFew(ladder: seq<Target>)
    ensures |Rungs(ladder)| <= |ladder|
    decreases |ladder|
  {
    hide Trim;
    if ladder != [] {
      var n := |ladder| - 1;
      RungsAreFew(ladder[..n]);
      var r := ladder[n];
      assert ladder == ladder[..n] + [r];
      assert Rungs(ladder) == Rungs(ladder[..n]) + (if r.harness.IsKnown() then {Trimmed(r)} else {});
    }
  }

  /** With a fixed ladder an incident never has more attempts than the ladder has rungs, nor more than
      the limit. */
  lemma LadderBoundsAttempts(events: seq<Event>, ladder: seq<Target>)
    requires Legal(START, events) && OnLadder(events, ladder)
    ensures |Run(START, events).rows| <= |ladder| && |Run(START, events).rows| <= MAX_FAILOVERS_PER_INCIDENT
  {
    hide Rungs, CallSound, Run, Legal;
    StartIsSound();
    RunKeepsSound(START, events);
    UnspentPays(START, events, ladder);
    RungsAreFew(ladder);
    assert Unspent(ladder, []) == Rungs(ladder);
  }
}
