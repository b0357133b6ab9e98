/** What a whole import promises about the two registries, whatever rows they hold: the laws of one
    run, when a dry run foretells it, and when a rerun repeats it. */
module DevImportLaws {
  import opened Options
  import opened Strings
  import opened DevImport

  type Refusals = seq<Option<Conflict>>

  predicate DistinctIDs(list: seq<Row>) {
    forall i, j :: 0 <= i < j < |list| ==> list[i].id != list[j].id
  }

  predicate AllActive(list: seq<Row>) {
    forall r :: r in list ==> !r.archived
  }

  /** What the preflight checks make sure of. */
  ghost predicate Decodable(rows: map<string, Row>, list: seq<Row>) {
    forall r :: r in list ==> r.readable && (r.id in rows ==> rows[r.id].readable)
  }

  /** The listing of a store is such a list. */
  lemma ListingIsDistinct(rows: map<string, Row>)
    requires Keyed(rows)
    ensures DistinctIDs(ActiveInOrder(rows)) && AllActive(ActiveInOrder(rows))
  {
    var ids := Sorted(ActiveIDs(rows));
    SortedInOrder(ActiveIDs(rows));
    hide Sorted, Leq;
    assert forall i :: 0 <= i < |ids| ==> ids[i] in ids;
  }

  // ---------- conservation ----------

  /** Every source project is inserted, updated or skipped, and every skip reports its conflict. */
  lemma {:induction false} EveryProjectIsCounted(reg: Registry, from: Registry, list: seq<Row>, ws: Refusals)
    requires |ws| == |list|
    ensures var rep := Plan(reg, from, list, ws).report;
      rep.inserted + rep.updated + rep.skipped == |list| && |rep.conflicts| == rep.skipped
    decreases |list|
  {
    hide Judge;
    if list != [] {
      EveryProjectIsCounted(reg, from, list[..|list| - 1], ws[..|list| - 1]);
    }
  }

  // ---------- what a run keeps ----------

  /** `after` keeps every row's id, path and archival of `before`, and archived rows whole. */
  ghost predicate KeepsPairs(before: map<string, Row>, after: map<string, Row>) {
    forall id :: id in before ==>
      && id in after && after[id].path == before[id].path && after[id].archived == before[id].archived
      && (before[id].archived ==> after[id] == before[id])
  }

  /** Two active rows share a path only if both were there before. */
  ghost predicate SharesNoMore(before: map<string, Row>, after: map<string, Row>) {
    forall i, j, p :: i != j && ActiveAt(after, i, p) && ActiveAt(after, j, p) ==> i in before && j in before
  }

  predicate SameAt(a: Registry, b: Registry, id: string) {
    && (id in a.rows <==> id in b.rows) && (id in a.rows && id in b.rows ==> a.rows[id] == b.rows[id])
    && ReposOf(a, id) == ReposOf(b, id)
  }

  /** The row is the source's, and its child repositories are the source's, owned by it. */
  predicate Landed(reg: Registry, from: Registry, src: Row) {
    src.id in reg.rows && reg.rows[src.id] == src && ReposOf(reg, src.id) == Owned(ReposOf(from, src.id), src.id)
  }

  lemma PlanOneEffect(p: Planned, from: Registry, src: Row, refusal: Option<Conflict>)
    requires !src.archived
    ensures var q := PlanOne(p, src, Owned(ReposOf(from, src.id), src.id), refusal);
      && KeepsPairs(p.reg.rows, q.reg.rows) && SharesNoMore(p.reg.rows, q.reg.rows)
      && (forall id :: id != src.id ==> SameAt(p.reg, q.reg, id))
      && if Judge(p.reg.rows, src).Refuse? || refusal.Some? then q.reg == p.reg else Landed(q.reg, from, src)
  {
    hide Judge, IsLastAt, SharesNoMore;
    JudgeIs(p.reg.rows, src);
    UpdateIsActive(p.reg.rows, src);
    NothingChanges(p.reg.rows);
    if !Judge(p.reg.rows, src).Refuse? {
      ImportSharesNoMore(p.reg.rows, src);
    }
  }

  lemma ImportSharesNoMore(rows: map<string, Row>, src: Row)
    requires !src.archived && !Judge(rows, src).Refuse?
    ensures SharesNoMore(rows, rows[src.id := src])
  {
    hide Judge, IsLastAt;
    JudgeIs(rows, src);
    UpdateIsActive(rows, src);
    var after := rows[src.id := src];
    forall i, j, p | i != j && ActiveAt(after, i, p) && ActiveAt(after, j, p)
      ensures i in rows && j in rows
    {
      assert i != src.id ==> ActiveAt(rows, i, p);
      assert j != src.id ==> ActiveAt(rows, j, p);
    }
  }

  lemma UpdateIsActive(rows: map<string, Row>, src: Row)
    ensures Judge(rows, src).Update? ==> ActiveAt(rows, src.id, src.path)
  {
    hide Judge, Leq;
    JudgeIs(rows, src);
  }

  lemma KeepsPairsTransitive(a: map<string, Row>, b: map<string, Row>, c: map<string, Row>)
    requires KeepsPairs(a, b) && KeepsPairs(b, c)
    ensures KeepsPairs(a, c)
  {
  }

  lemma SharesNoMoreTransitive(a: map<string, Row>, b: map<string, Row>, c: map<string, Row>)
    requires SharesNoMore(a, b) && SharesNoMore(b, c) && KeepsPairs(b, c)
    ensures SharesNoMore(a, c)
  {
    forall i, j, p | i != j && ActiveAt(c, i, p) && ActiveAt(c, j, p)
      ensures i in a && j in a
    {
      assert ActiveAt(b, i, p) && ActiveAt(b, j, p);
    }
  }

  lemma NothingChanges(rows: map<string, Row>)
    ensures KeepsPairs(rows, rows) && SharesNoMore(rows, rows)
  {
  }

  /** No existing id/path pair changes, archived rows are never touched, two active rows share a path
      only if they did before, and every new or changed row is a source row. */
  lemma {:induction false} PlanKeepsTheTarget(reg: Registry, from: Registry, list: seq<Row>, ws: Refusals)
    requires |ws| == |list| && Keyed(reg.rows) && AllActive(list)
    ensures var after := Plan(reg, from, list, ws).reg.rows;
      && Keyed(after) && KeepsPairs(reg.rows, after) && SharesNoMore(reg.rows, after)
      && forall id :: id in after ==> (id in reg.rows && after[id] == reg.rows[id]) || after[id] in list
    decreases |list|
  {
    hide Judge, Keyed, KeepsPairs, SharesNoMore, PlanOne, SameAt;
    if list == [] {
      NothingChanges(reg.rows);
    } else {
      var n := |list| - 1;
      var src := list[n];
      var p := Plan(reg, from, list[..n], ws[..n]);
      assert list == list[..n] + [src];
      PlanKeepsTheTarget(reg, from, list[..n], ws[..n]);
      PlanOneKeeps(p.reg, p.report, src, Owned(ReposOf(from, src.id), src.id), ws[n]);
      PlanOneEffect(p, from, src, ws[n]);
      KeepsPairsTransitive(reg.rows, p.reg.rows, Plan(reg, from, list, ws).reg.rows);
      SharesNoMoreTransitive(reg.rows, p.reg.rows, Plan(reg, from, list, ws).reg.rows);
    }
  }

  /** In particular active rows stay unique by path. */
  lemma PathsStayUnique(reg: Registry, from: Registry, list: seq<Row>, ws: Refusals)
    requires |ws| == |list| && Keyed(reg.rows) && AllActive(list)
    requires forall i, j, p :: ActiveAt(reg.rows, i, p) && ActiveAt(reg.rows, j, p) ==> i == j
    ensures var after := Plan(reg, from, list, ws).reg.rows;
      forall i, j, p :: ActiveAt(after, i, p) && ActiveAt(after, j, p) ==> i == j
  {
    hide Plan, Keyed;
    PlanKeepsTheTarget(reg, from, list, ws);
    var after := Plan(reg, from, list, ws).reg.rows;
    forall i, j, p | ActiveAt(after, i, p) && ActiveAt(after, j, p)
      ensures i == j
    {
      assert i != j ==> ActiveAt(reg.rows, i, p) && ActiveAt(reg.rows, j, p);
    }
  }

  // ---------- what each project became ----------

  /** How the run judged the k-th project: against the rows as those before it left them. */
  ghost function VerdictOf(reg: Registry, from: Registry, list: seq<Row>, ws: Refusals, k: nat): Verdict
    requires |ws| == |list| && k < |list|
  {
    Judge(Plan(reg, from, list[..k], ws[..k]).reg.rows, list[k])
  }

  /** The project was let through, and the store refused it. */
  ghost predicate RefusedAt(reg: Registry, from: Registry, list: seq<Row>, ws: Refusals, k: nat)
    requires |ws| == |list| && k < |list|
  {
    !VerdictOf(reg, from, list, ws, k).Refuse? && ws[k].Some?
  }

  /** Later projects leave alone what an earlier one was judged on and what it became. */
  lemma {:induction false} LaterLeaveIt(reg: Registry, from: Registry, list: seq<Row>, ws: Refusals, k: nat)
    requires |ws| == |list| && AllActive(list) && DistinctIDs(list) && k < |list|
    ensures var before, end := Plan(reg, from, list[..k], ws[..k]).reg, Plan(reg, from, list, ws).reg;
      && KeepsPairs(before.rows, end.rows) && SharesNoMore(before.rows, end.rows)
      && if VerdictOf(reg, from, list, ws, k).Refuse? || ws[k].Some? then SameAt(before, end, list[k].id)
         else Landed(end, from, list[k])
    decreases |list|
  {
    hide Judge, KeepsPairs, SharesNoMore, PlanOne;
    var n := |list| - 1;
    var p := Plan(reg, from, list[..n], ws[..n]);
    assert list[..n][..k] == list[..k] && ws[..n][..k] == ws[..k];
    assert list == list[..n] + [list[n]];
    PlanOneEffect(p, from, list[n], ws[n]);
    if k < n {
      LaterLeaveIt(reg, from, list[..n], ws[..n], k);
      assert list[..n][k] == list[k] && ws[..n][k] == ws[k] && list[k].id != list[n].id;
      assert SameAt(p.reg, Plan(reg, from, list, ws).reg, list[k].id);
      KeepsPairsTransitive(Plan(reg, from, list[..k], ws[..k]).reg.rows, p.reg.rows, Plan(reg, from, list, ws).reg.rows);
      SharesNoMoreTransitive(Plan(reg, from, list[..k], ws[..k]).reg.rows, p.reg.rows, Plan(reg, from, list, ws).reg.rows);
    }
  }

  // ---------- dry and real ----------

  /** The same ids with the same paths, active or archived alike. */
  ghost predicate SamePairs(a: map<string, Row>, b: map<string, Row>) {
    a.Keys == b.Keys && forall id :: id in a && id in b ==> a[id].path == b[id].path && a[id].archived == b[id].archived
  }

  lemma SamePairsSameVerdict(a: map<string, Row>, b: map<string, Row>, src: Row)
    requires SamePairs(a, b)
    ensures Judge(a, src) == Judge(b, src)
  {
    hide Leq;
    assert forall x, p :: ActiveAt(a, x, p) <==> ActiveAt(b, x, p);
    assert forall x, p :: IsLastAt(a, x, p) <==> IsLastAt(b, x, p);
    if LastAt(a, src.path).Some? {
      LastIs(b, LastAt(a, src.path).value, src.path);
    } else {
      assert forall x :: !IsLastAt(b, x, src.path);
    }
  }

  /** A real run that was refused an update differs from a dry run in what it counts, but not in the
      ids and paths of the target. */
  lemma {:induction false} AgainstDry(reg: Registry, from: Registry, list: seq<Row>, ws: Refusals)
    requires |ws| == |list| && AllActive(list) && Answered(reg, from, list, ws)
    ensures var done, dry := Plan(reg, from, list, ws), Plan(reg, from, list, NoRefusals(|list|));
      && SamePairs(done.reg.rows, dry.reg.rows) && done.report.skipped >= dry.report.skipped
      && ((exists k :: 0 <= k < |list| && RefusedAt(reg, from, list, ws, k)) ==> done.report.skipped > dry.report.skipped)
      && ((forall k :: 0 <= k < |list| ==> !RefusedAt(reg, from, list, ws, k)) ==> done == dry)
    decreases |list|
  {
    hide Judge, PlanOne, SamePairs, Possible, Plan, Answered, RefusedAt;
    if list == [] {
      NothingPlanned(reg, from);
      SamePairsReflexive(reg.rows);
      assert ws == [] && NoRefusals(0) == [];
    } else {
      var n := |list| - 1;
      var done, dry := Plan(reg, from, list[..n], ws[..n]), Plan(reg, from, list[..n], NoRefusals(n));
      assert NoRefusals(|list|)[..n] == NoRefusals(n);
      AnsweredBefore(reg, from, list, ws, n);
      assert forall r :: r in list[..n] ==> r in list;
      AgainstDry(reg, from, list[..n], ws[..n]);
      AnsweredAt(reg, from, list, ws, n);
      LastStep(reg, from, list, ws);
      LastStep(reg, from, list, NoRefusals(|list|));
      StepAgainstDry(done, dry, list[n], Owned(ReposOf(from, list[n].id), list[n].id), ws[n]);
      RefusedBefore(reg, from, list, ws, n);
      RefusedIs(reg, from, list, ws, n);
    }
  }

  lemma LastStep(reg: Registry, from: Registry, list: seq<Row>, ws: Refusals)
    requires |ws| == |list| && list != []
    ensures var n := |list| - 1;
      Plan(reg, from, list, ws) ==
      PlanOne(Plan(reg, from, list[..n], ws[..n]), list[n], Owned(ReposOf(from, list[n].id), list[n].id), ws[n])
  {
    hide PlanOne;
  }

  lemma AnsweredAt(reg: Registry, from: Registry, list: seq<Row>, ws: Refusals, k: nat)
    requires |ws| == |list| && k < |list| && Answered(reg, from, list, ws)
    ensures Possible(Plan(reg, from, list[..k], ws[..k]).reg.rows, list[k], ws[k])
  {
    hide Possible, Plan;
  }

  lemma RefusedIs(reg: Registry, from: Registry, list: seq<Row>, ws: Refusals, k: nat)
    requires |ws| == |list| && k < |list|
    ensures RefusedAt(reg, from, list, ws, k) <==>
      !Judge(Plan(reg, from, list[..k], ws[..k]).reg.rows, list[k]).Refuse? && ws[k].Some?
  {
    hide Judge, Plan;
  }

  lemma SamePairsReflexive(rows: map<string, Row>)
    ensures SamePairs(rows, rows)
  {
  }

  lemma AnsweredBefore(reg: Registry, from: Registry, list: seq<Row>, ws: Refusals, n: nat)
    requires |ws| == |list| && Answered(reg, from, list, ws) && n <= |list|
    ensures Answered(reg, from, list[..n], ws[..n])
  {
    hide Possible, Plan;
    forall k | 0 <= k < n
      ensures Possible(Plan(reg, from, list[..n][..k], ws[..n][..k]).reg.rows, list[..n][k], ws[..n][k])
    {
      assert list[..n][..k] == list[..k] && ws[..n][..k] == ws[..k];
    }
  }

  lemma RefusedBefore(reg: Registry, from: Registry, list: seq<Row>, ws: Refusals, n: nat)
    requires |ws| == |list| && n < |list|
    ensures forall k :: 0 <= k < n ==> (RefusedAt(reg, from, list[..n], ws[..n], k) <==> RefusedAt(reg, from, list, ws, k))
  {
    hide Judge, Plan;
    forall k | 0 <= k < n
      ensures RefusedAt(reg, from, list[..n], ws[..n], k) <==> RefusedAt(reg, from, list, ws, k)
    {
      assert list[..n][..k] == list[..k] && ws[..n][..k] == ws[..k];
    }
  }

  lemma StepAgainstDry(done: Planned, dry: Planned, src: Row, repos: seq<Repo>, refusal: Option<Conflict>)
    requires SamePairs(done.reg.rows, dry.reg.rows) && done.report.skipped >= dry.report.skipped
    requires !src.archived && Possible(done.reg.rows, src, refusal)
    ensures var p, q := PlanOne(done, src, repos, refusal), PlanOne(dry, src, repos, None);
      && SamePairs(p.reg.rows, q.reg.rows)
      && p.report.skipped - q.report.skipped ==
        done.report.skipped - dry.report.skipped + (if !Judge(done.reg.rows, src).Refuse? && refusal.Some? then 1 else 0)
      && (done == dry && (Judge(done.reg.rows, src).Refuse? || refusal.None?) ==> p == q)
  {
    hide Judge, IsLastAt;
    SamePairsSameVerdict(done.reg.rows, dry.reg.rows, src);
    JudgeIs(done.reg.rows, src);
    UpdateIsActive(done.reg.rows, src);
  }

  /** A run makes no row an at-risk one, and none stops being one before its turn. */
  lemma RiskIsKept(before: map<string, Row>, after: map<string, Row>, src: Row)
    requires KeepsPairs(before, after) && SharesNoMore(before, after)
    ensures AtRisk(before, src) <==> AtRisk(after, src)
  {
    hide Leq;
    assert forall x, p :: ActiveAt(before, x, p) ==> ActiveAt(after, x, p);
    assert forall x, p :: ActiveAt(after, x, p) && x in before ==> ActiveAt(before, x, p);
    if AtRisk(before, src) {
      var x :| x != src.id && ActiveAt(before, x, src.path);
      forall y | ActiveAt(after, y, src.path)
        ensures Leq(y, src.id)
      {
        assert ActiveAt(before, src.id, src.path);
        if y != src.id {
          assert y in before;
        }
      }
    }
    if AtRisk(after, src) {
      var x :| x != src.id && ActiveAt(after, x, src.path);
      assert ActiveAt(after, src.id, src.path);
      assert ActiveAt(before, x, src.path) && ActiveAt(before, src.id, src.path);
    }
  }

  lemma OnlyRiskyAreRefused(reg: Registry, from: Registry, list: seq<Row>, ws: Refusals, k: nat)
    requires |ws| == |list| && k < |list| && Keyed(reg.rows) && AllActive(list) && Decodable(reg.rows, list)
    requires Answered(reg, from, list, ws) && RefusedAt(reg, from, list, ws, k)
    ensures AtRisk(reg.rows, list[k])
  {
    hide Judge, MayAnswer, AtRisk, Keyed, Plan, Possible;
    var rows := Plan(reg, from, list[..k], ws[..k]).reg.rows;
    assert forall r :: r in list[..k] ==> r in list;
    PlanKeepsTheTarget(reg, from, list[..k], ws[..k]);
    assert Possible(rows, list[k], ws[k]);
    PossibleIs(rows, list[k], ws[k]);
    StillDecodable(reg.rows, rows, list, list[k]);
    StoreRefusesOnlyShared(rows, list[k], Refused(ws[k].value));
    RiskIsKept(reg.rows, rows, list[k]);
  }

  lemma PossibleIs(rows: map<string, Row>, src: Row, refusal: Option<Conflict>)
    ensures Possible(rows, src, refusal) <==>
      (!Judge(rows, src).Refuse? ==> MayAnswer(rows, src, if refusal.None? then Written else Refused(refusal.value)))
  {
  }

  lemma StillDecodable(before: map<string, Row>, after: map<string, Row>, list: seq<Row>, src: Row)
    requires Keyed(before) && Keyed(after) && Decodable(before, list) && src in list
    requires forall id :: id in after ==> (id in before && after[id] == before[id]) || after[id] in list
    ensures src.id in after ==> after[src.id].readable
  {
  }

  /** Answers in which the store refuses an at-risk update and nothing else. */
  function OneRefusal(n: nat, k: nat, c: Conflict): Refusals
    requires k < n
  {
    NoRefusals(n)[k := Some(c)]
  }

  /** A project that is let through may always be written. */
  lemma MayBeWritten(rows: map<string, Row>, src: Row)
    requires src.id in rows ==> rows[src.id].readable
    ensures Possible(rows, src, None)
  {
    hide Judge, Leq;
    JudgeIs(rows, src);
  }

  lemma RiskyMayBeRefused(rows: map<string, Row>, src: Row) returns (c: Conflict)
    requires AtRisk(rows, src) && rows[src.id].readable
    ensures Judge(rows, src) == Update && Possible(rows, src, Some(c))
  {
    hide Judge, Leq;
    JudgeIs(rows, src);
    var x :| x != src.id && ActiveAt(rows, x, src.path);
    c := Conflict(src.id, src.path, SamePathDifferentActiveID, x, src.path);
  }

  lemma OneRefusalIsAnswered(reg: Registry, from: Registry, list: seq<Row>, k: nat) returns (ws: Refusals)
    requires Keyed(reg.rows) && AllActive(list) && Decodable(reg.rows, list)
    requires k < |list| && AtRisk(reg.rows, list[k])
    ensures |ws| == |list| && Answered(reg, from, list, ws) && RefusedAt(reg, from, list, ws, k)
  {
    hide Judge, AtRisk, Keyed, Plan, Possible, MayAnswer, KeepsPairs, SharesNoMore;
    var rows := Plan(reg, from, list[..k], NoRefusals(|list|)[..k]).reg.rows;
    assert forall r :: r in list[..k] ==> r in list;
    PlanKeepsTheTarget(reg, from, list[..k], NoRefusals(|list|)[..k]);
    StillDecodable(reg.rows, rows, list, list[k]);
    RiskIsKept(reg.rows, rows, list[k]);
    RiskyIsThere(rows, list[k]);
    var c := RiskyMayBeRefused(rows, list[k]);
    ws := OneRefusal(|list|, k, c);
    assert ws[..k] == NoRefusals(|list|)[..k];
    forall j | 0 <= j < |list|
      ensures Possible(Plan(reg, from, list[..j], ws[..j]).reg.rows, list[j], ws[j])
    {
      if j != k {
        var there := Plan(reg, from, list[..j], ws[..j]).reg.rows;
        assert forall r :: r in list[..j] ==> r in list;
        PlanKeepsTheTarget(reg, from, list[..j], ws[..j]);
        StillDecodable(reg.rows, there, list, list[j]);
        MayBeWritten(there, list[j]);
      }
    }
  }

  lemma RiskyIsThere(rows: map<string, Row>, src: Row)
    requires AtRisk(rows, src)
    ensures src.id in rows
  {
  }

  ghost predicate AnyAtRisk(rows: map<string, Row>, list: seq<Row>) {
    exists k :: 0 <= k < |list| && AtRisk(rows, list[k])
  }

  /** The dry run reports what the real run will, whatever the store answers, if and only if no source
      project has in the target an active row of its id and path that is the last one at that path
      while another active row has the path too. */
  lemma DryEqualsRealIff(reg: Registry, from: Registry, list: seq<Row>)
    requires Keyed(reg.rows) && AllActive(list) && Decodable(reg.rows, list)
    ensures (forall ws: Refusals :: |ws| == |list| && Answered(reg, from, list, ws) ==>
        Plan(reg, from, list, ws).report == Plan(reg, from, list, NoRefusals(|list|)).report)
      <==> !AnyAtRisk(reg.rows, list)
  {
    hide Plan, Answered, RefusedAt, AtRisk, Keyed, Decodable;
    if AnyAtRisk(reg.rows, list) {
      var k :| 0 <= k < |list| && AtRisk(reg.rows, list[k]);
      var ws := OneRefusalIsAnswered(reg, from, list, k);
      AgainstDry(reg, from, list, ws);
    } else {
      forall ws: Refusals | |ws| == |list| && Answered(reg, from, list, ws)
        ensures Plan(reg, from, list, ws) == Plan(reg, from, list, NoRefusals(|list|))
      {
        NothingRefused(reg, from, list, ws);
      }
    }
  }

  lemma NothingRefused(reg: Registry, from: Registry, list: seq<Row>, ws: Refusals)
    requires Keyed(reg.rows) && AllActive(list) && Decodable(reg.rows, list) && !AnyAtRisk(reg.rows, list)
    requires |ws| == |list| && Answered(reg, from, list, ws)
    ensures Plan(reg, from, list, ws) == Plan(reg, from, list, NoRefusals(|list|))
  {
    hide Plan, Answered, RefusedAt, AtRisk, Keyed, Decodable;
    forall k | 0 <= k < |list|
      ensures !RefusedAt(reg, from, list, ws, k)
    {
      if RefusedAt(reg, from, list, ws, k) {
        OnlyRiskyAreRefused(reg, from, list, ws, k);
      }
    }
    AgainstDry(reg, from, list, ws);
  }

  // ---------- running it again ----------

  /** What the rerun makes of a project the first run judged. */
  function Again(v: Verdict): Verdict {
    match v
    case Refuse(c) => Refuse(c)
    case _ => Update
  }

  lemma LastStaysLast(before: map<string, Row>, end: map<string, Row>, x: string, path: string)
    requires KeepsPairs(before, end) && SharesNoMore(before, end) && IsLastAt(before, x, path)
    ensures IsLastAt(end, x, path)
  {
    hide Leq;
    forall y | ActiveAt(end, y, path)
      ensures Leq(y, x)
    {
      assert ActiveAt(end, x, path);
      assert y in before ==> ActiveAt(before, y, path);
    }
  }

  /** A project judged on rows that only grew, with its own row written or left as it was. */
  lemma JudgedAgain(before: map<string, Row>, end: map<string, Row>, src: Row)
    requires KeepsPairs(before, end) && SharesNoMore(before, end)
    requires Judge(before, src).Refuse? ==> (src.id in before <==> src.id in end)
    requires Judge(before, src).Insert? ==> ActiveAt(end, src.id, src.path)
    ensures Judge(end, src) == Again(Judge(before, src))
  {
    hide Judge, Leq, IsLastAt, SharesNoMore, KeepsPairs;
    JudgeIs(before, src);
    JudgeIs(end, src);
    match Judge(before, src) {
      case Insert => InsertedIsLast(before, end, src);
      case Update => LastStaysLast(before, end, src.id, src.path);
      case Refuse(_) => RefusedAgain(before, end, src);
    }
  }

  lemma InsertedIsLast(before: map<string, Row>, end: map<string, Row>, src: Row)
    requires SharesNoMore(before, end) && src.id !in before && ActiveAt(end, src.id, src.path)
    ensures IsLastAt(end, src.id, src.path)
  {
    LeqTotal(src.id, src.id);
  }

  lemma RefusedAgain(before: map<string, Row>, end: map<string, Row>, src: Row)
    requires KeepsPairs(before, end) && SharesNoMore(before, end)
    requires Judge(before, src).Refuse? && (src.id in before <==> src.id in end)
    ensures Judge(end, src) == Judge(before, src)
  {
    hide Leq, IsLastAt, SharesNoMore, LastAt;
    if src.id !in before || (!before[src.id].archived && before[src.id].path == src.path) {
      var x := LastAt(before, src.path).value;
      LastHolds(before, src.path);
      LastStaysLast(before, end, x, src.path);
      LastIs(end, x, src.path);
    }
  }

  lemma LastHolds(rows: map<string, Row>, path: string)
    ensures LastAt(rows, path).Some? ==> IsLastAt(rows, LastAt(rows, path).value, path)
  {
    hide IsLastAt;
  }

  /** Against the finished target every project is judged again as `Again` says, and what was written
      is still there. */
  lemma JudgedAtTheEnd(reg: Registry, from: Registry, list: seq<Row>, ws: Refusals, k: nat)
    requires |ws| == |list| && AllActive(list) && DistinctIDs(list) && Answered(reg, from, list, ws) && k < |list|
    ensures var end := Plan(reg, from, list, ws).reg; var v := VerdictOf(reg, from, list, ws, k);
      && Judge(end.rows, list[k]) == Again(v)
      && (!v.Refuse? && ws[k].None? ==> Landed(end, from, list[k]))
  {
    hide Judge, KeepsPairs, SharesNoMore, Plan, Possible, Answered;
    LaterLeaveIt(reg, from, list, ws, k);
    AnsweredAt(reg, from, list, ws, k);
    var before, end := Plan(reg, from, list[..k], ws[..k]).reg.rows, Plan(reg, from, list, ws).reg.rows;
    InsertIsWritten(before, list[k], ws[k]);
    JudgedAgain(before, end, list[k]);
  }

  lemma InsertIsWritten(rows: map<string, Row>, src: Row, refusal: Option<Conflict>)
    requires Possible(rows, src, refusal)
    ensures Judge(rows, src).Insert? ==> refusal.None?
  {
    hide Judge, Leq;
    JudgeIs(rows, src);
  }

  /** The registries agree on every project and on its child repositories. */
  ghost predicate Alike(a: Registry, b: Registry) {
    a.rows == b.rows && forall id :: ReposOf(a, id) == ReposOf(b, id)
  }

  /** The rerun's report so far repeats the first run's with its inserts counted as updates. */
  predicate Repeats(again: Report, first: Report) {
    again == Report(0, first.inserted + first.updated, first.skipped, first.conflicts)
  }

  lemma RerunOne(again: Planned, first: Planned, end: Registry, from: Registry, src: Row, refusal: Option<Conflict>)
    requires Alike(again.reg, end) && Repeats(again.report, first.report)
    requires Judge(end.rows, src) == Again(Judge(first.reg.rows, src))
    requires !Judge(first.reg.rows, src).Refuse? && refusal.None? ==> Landed(end, from, src)
    ensures var repos := Owned(ReposOf(from, src.id), src.id);
      && Alike(PlanOne(again, src, repos, refusal).reg, end)
      && Repeats(PlanOne(again, src, repos, refusal).report, PlanOne(first, src, repos, refusal).report)
  {
    hide Judge;
  }

  lemma {:induction false} RerunSteps(reg: Registry, from: Registry, list: seq<Row>, ws: Refusals, k: nat)
    requires |ws| == |list| && AllActive(list) && DistinctIDs(list) && Answered(reg, from, list, ws) && k <= |list|
    ensures var end := Plan(reg, from, list, ws).reg; var again := Plan(end, from, list[..k], ws[..k]);
      Alike(again.reg, end) && Repeats(again.report, Plan(reg, from, list[..k], ws[..k]).report)
    decreases k
  {
    hide Judge, Alike, PlanOne, Landed, Again, ReposOf, Owned, Plan, Answered;
    var end := Plan(reg, from, list, ws).reg;
    if k == 0 {
      AlikeItself(end);
      NothingPlanned(reg, from);
      NothingPlanned(end, from);
    } else {
      var n := k - 1;
      RerunSteps(reg, from, list, ws, n);
      JudgedAtTheEnd(reg, from, list, ws, n);
      assert list[..k][..n] == list[..n] && ws[..k][..n] == ws[..n];
      LastStep(reg, from, list[..k], ws[..k]);
      LastStep(end, from, list[..k], ws[..k]);
      RerunOne(Plan(end, from, list[..n], ws[..n]), Plan(reg, from, list[..n], ws[..n]), end, from, list[n], ws[n]);
    }
  }

  lemma AlikeItself(reg: Registry)
    ensures Alike(reg, reg)
  {
  }

  /** Running the importer on its own result, with the store answering as before, inserts nothing,
      reports the same conflicts, updates as many projects as the first run inserted or updated, and
      changes nothing in the target; and the store may answer as before. */
  lemma RerunRepeats(reg: Registry, from: Registry, list: seq<Row>, ws: Refusals)
    requires |ws| == |list| && AllActive(list) && DistinctIDs(list) && Answered(reg, from, list, ws)
    requires Keyed(reg.rows) && Decodable(reg.rows, list)
    ensures var first := Plan(reg, from, list, ws); var again := Plan(first.reg, from, list, ws);
      Repeats(again.report, first.report) && Alike(again.reg, first.reg) && Answered(first.reg, from, list, ws)
  {
    hide Plan, Alike, Answered, Possible, Judge, KeepsPairs, SharesNoMore, Keyed, Decodable;
    RerunSteps(reg, from, list, ws, |list|);
    assert list[..|list|] == list && ws[..|ws|] == ws;
    var end := Plan(reg, from, list, ws).reg;
    forall k | 0 <= k < |list|
      ensures Possible(Plan(end, from, list[..k], ws[..k]).reg.rows, list[k], ws[k])
    {
      RerunSteps(reg, from, list, ws, k);
      AlikeRows(Plan(end, from, list[..k], ws[..k]).reg, end);
      AnswerStands(reg, from, list, ws, k);
    }
    AllPossible(end, from, list, ws);
  }

  lemma AllPossible(reg: Registry, from: Registry, list: seq<Row>, ws: Refusals)
    requires |ws| == |list|
    requires forall k :: 0 <= k < |list| ==> Possible(Plan(reg, from, list[..k], ws[..k]).reg.rows, list[k], ws[k])
    ensures Answered(reg, from, list, ws)
  {
    hide Possible, Plan;
  }

  /** What the store answered during the run it may answer again at its end. */
  lemma AnswerStands(reg: Registry, from: Registry, list: seq<Row>, ws: Refusals, k: nat)
    requires |ws| == |list| && AllActive(list) && DistinctIDs(list) && Answered(reg, from, list, ws) && k < |list|
    requires Keyed(reg.rows) && Decodable(reg.rows, list)
    ensures Possible(Plan(reg, from, list, ws).reg.rows, list[k], ws[k])
  {
    hide Judge, KeepsPairs, SharesNoMore, Plan, Possible, Answered, Keyed, Decodable, Landed, SameAt;
    var before, end := Plan(reg, from, list[..k], ws[..k]).reg.rows, Plan(reg, from, list, ws).reg.rows;
    PlanKeepsTheTarget(reg, from, list, ws);
    StillDecodable(reg.rows, end, list, list[k]);
    assert forall r :: r in list[..k] ==> r in list;
    PlanKeepsTheTarget(reg, from, list[..k], ws[..k]);
    StillDecodable(reg.rows, before, list, list[k]);
    if ws[k].None? {
      MayBeWritten(end, list[k]);
    } else {
      LaterLeaveIt(reg, from, list, ws, k);
      AnsweredAt(reg, from, list, ws, k);
      JudgedAtTheEnd(reg, from, list, ws, k);
      RefusalStands(before, end, list[k], ws[k]);
    }
  }

  lemma RefusalStands(before: map<string, Row>, end: map<string, Row>, src: Row, refusal: Option<Conflict>)
    requires KeepsPairs(before, end) && Possible(before, src, refusal) && refusal.Some?
    requires Judge(end, src) == Again(Judge(before, src))
    requires (src.id in before ==> before[src.id].readable) && (src.id in end ==> end[src.id].readable)
    ensures Possible(end, src, refusal)
  {
    hide Judge, Leq;
    JudgeIs(before, src);
    JudgeIs(end, src);
  }

  /** A rerun inserts nothing and repeats the first run's report and result, whatever the store
      answers to either, if and only if no update is at risk of being refused. */
  lemma RerunIsIdempotentIff(reg: Registry, from: Registry, list: seq<Row>, ws: Refusals)
    requires |ws| == |list| && AllActive(list) && DistinctIDs(list) && Answered(reg, from, list, ws)
    requires Keyed(reg.rows) && Decodable(reg.rows, list)
    ensures var first := Plan(reg, from, list, ws);
      (forall vs: Refusals :: |vs| == |list| && Answered(first.reg, from, list, vs) ==>
        Repeats(Plan(first.reg, from, list, vs).report, first.report))
      <==> !AnyAtRisk(reg.rows, list)
  {
    hide Plan, Alike, Answered, Keyed, Decodable, AtRisk, KeepsPairs, SharesNoMore;
    var first := Plan(reg, from, list, ws);
    RerunRepeats(reg, from, list, ws);
    PlanKeepsTheTarget(reg, from, list, ws);
    DecodableAtTheEnd(reg.rows, first.reg.rows, list);
    forall k | 0 <= k < |list|
      ensures AtRisk(reg.rows, list[k]) <==> AtRisk(first.reg.rows, list[k])
    {
      RiskIsKept(reg.rows, first.reg.rows, list[k]);
    }
    DryEqualsRealIff(first.reg, from, list);
    assert AnyAtRisk(first.reg.rows, list) <==> AnyAtRisk(reg.rows, list);
    NoRefusalsIsAnswered(first.reg, from, list);
  }

  lemma DecodableAtTheEnd(before: map<string, Row>, after: map<string, Row>, list: seq<Row>)
    requires Keyed(before) && Keyed(after) && Decodable(before, list)
    requires forall id :: id in after ==> (id in before && after[id] == before[id]) || after[id] in list
    ensures Decodable(after, list)
  {
    forall r | r in list
      ensures r.id in after ==> after[r.id].readable
    {
      StillDecodable(before, after, list, r);
    }
  }

  lemma NoRefusalsIsAnswered(reg: Registry, from: Registry, list: seq<Row>)
    requires Keyed(reg.rows) && AllActive(list) && Decodable(reg.rows, list)
    ensures Answered(reg, from, list, NoRefusals(|list|))
  {
    hide Plan, Possible, Keyed, KeepsPairs, SharesNoMore, Decodable;
    var ws := NoRefusals(|list|);
    forall k | 0 <= k < |list|
      ensures Possible(Plan(reg, from, list[..k], ws[..k]).reg.rows, list[k], ws[k])
    {
      assert forall r :: r in list[..k] ==> r in list;
      PlanKeepsTheTarget(reg, from, list[..k], ws[..k]);
      var rows := Plan(reg, from, list[..k], ws[..k]).reg.rows;
      StillDecodable(reg.rows, rows, list, list[k]);
      MayBeWritten(rows, list[k]);
    }
    AllPossible(reg, from, list, ws);
  }

  /** A rerun judges every project as `Again` says: it lets through exactly those the first run let
      through, now as updates, and refuses the others for the same reason; and what the first run
      wrote is in the target as the source has it. */
  lemma RerunUpdatesTheSame(reg: Registry, from: Registry, list: seq<Row>, ws: Refusals, k: nat)
    requires |ws| == |list| && AllActive(list) && DistinctIDs(list) && Answered(reg, from, list, ws) && k < |list|
    ensures var end := Plan(reg, from, list, ws).reg; var v := VerdictOf(reg, from, list, ws, k);
      && VerdictOf(end, from, list, ws, k) == Again(v)
      && (!v.Refuse? && ws[k].None? ==> Landed(end, from, list[k]))
  {
    hide Judge, Plan, Landed, Answered;
    RerunSteps(reg, from, list, ws, k);
    JudgedAtTheEnd(reg, from, list, ws, k);
  }

  lemma AlikeRows(a: Registry, b: Registry)
    requires Alike(a, b)
    ensures a.rows == b.rows
  {
  }

  // ---------- an input on which dry and real differ ----------

  function At(id: string): Row {
    Row(id, "/p", false, true, "")
  }

  /** Two active rows at one path. */
  function SharedTarget(): Registry {
    Registry(map["a" := At("a"), "b" := At("b")], map[])
  }

  lemma BIsLast()
    ensures IsLastAt(SharedTarget().rows, "b", "/p") && !IsLastAt(SharedTarget().rows, "a", "/p")
  {
    assert ActiveAt(SharedTarget().rows, "a", "/p") && ActiveAt(SharedTarget().rows, "b", "/p");
    assert Leq("a", "b") && Leq("b", "b") && !Leq("b", "a");
  }

  /** Importing `b`, a dry run counts an update, and a real run may report a conflict with `a`;
      importing `a` instead, every run reports the same conflict with `b`. */
  lemma DryAndRealCanDiffer(from: Registry)
    ensures var c := Conflict("b", "/p", SamePathDifferentActiveID, "a", "/p");
      && Plan(SharedTarget(), from, [At("b")], NoRefusals(1)).report == Report(0, 1, 0, [])
      && Answered(SharedTarget(), from, [At("b")], [Some(c)])
      && Plan(SharedTarget(), from, [At("b")], [Some(c)]).report == Report(0, 0, 1, [c])
    ensures forall w ::
      Plan(SharedTarget(), from, [At("a")], [w]).report
      == Report(0, 0, 1, [Conflict("a", "/p", SamePathDifferentActiveID, "b", "/p")])
  {
    hide IsLastAt, Leq, Judge;
    var c := Conflict("b", "/p", SamePathDifferentActiveID, "a", "/p");
    var rows := SharedTarget().rows;
    BIsLast();
    JudgeIs(rows, At("b"));
    JudgeIs(rows, At("a"));
    assert ActiveAt(rows, "a", "/p") && ActiveAt(rows, "b", "/p");
    NothingPlanned(SharedTarget(), from);
    assert NoRefusals(1) == [None] && [At("b")][..0] == [] && [At("a")][..0] == [];
    LastStep(SharedTarget(), from, [At("b")], [None]);
    LastStep(SharedTarget(), from, [At("b")], [Some(c)]);
    forall w
      ensures Plan(SharedTarget(), from, [At("a")], [w]).report ==
        Report(0, 0, 1, [Conflict("a", "/p", SamePathDifferentActiveID, "b", "/p")])
    {
      LastStep(SharedTarget(), from, [At("a")], [w]);
    }
    assert Possible(rows, At("b"), Some(c));
    AllPossible(SharedTarget(), from, [At("b")], [Some(c)]);
  }
}
