/** What the importer's report says is so: its counts against the ids of the target before and after,
    its conflicts against the rows they name; and the importer itself, run three times. */
module DevImportReports {
  import opened Options
  import opened Strings
  import opened DevImport
  import opened DevImportLaws

  /** Whatever the store refused, it may have refused. A dry run asks for nothing. */
  ghost predicate Honest(reg: Registry, from: Registry, list: seq<Row>, ws: Refusals)
    requires |ws| == |list|
  {
    forall k :: 0 <= k < |list| && ws[k].Some? ==>
      Possible(Plan(reg, from, list[..k], ws[..k]).reg.rows, list[k], ws[k])
  }

  lemma BothKindsAreHonest(reg: Registry, from: Registry, list: seq<Row>, ws: Refusals)
    requires |ws| == |list|
    ensures Answered(reg, from, list, ws) || ws == NoRefusals(|list|) ==> Honest(reg, from, list, ws)
  {
    hide Possible, Plan;
  }

  lemma HonestBefore(reg: Registry, from: Registry, list: seq<Row>, ws: Refusals)
    requires |ws| == |list| && list != [] && Honest(reg, from, list, ws)
    ensures var n := |list| - 1;
      && Honest(reg, from, list[..n], ws[..n])
      && (ws[n].Some? ==> Possible(Plan(reg, from, list[..n], ws[..n]).reg.rows, list[n], ws[n]))
  {
    hide Possible, Plan;
    var n := |list| - 1;
    forall k | 0 <= k < n && ws[..n][k].Some?
      ensures Possible(Plan(reg, from, list[..n][..k], ws[..n][..k]).reg.rows, list[..n][k], ws[..n][k])
    {
      assert list[..n][..k] == list[..k] && ws[..n][..k] == ws[..k];
    }
  }

  // ---------- the counts ----------

  ghost function IDs(list: seq<Row>): set<string> {
    set r | r in list :: r.id
  }

  /** The projects some conflict names. */
  ghost function Reported(rep: Report): set<string> {
    set c | c in rep.conflicts :: c.projectID
  }

  /** The ids without a conflict. */
  ghost function Accepted(ids: set<string>, rep: Report): set<string> {
    ids - Reported(rep)
  }

  /** Of the accepted ids the target had the updated ones before, and has gained the inserted ones. */
  ghost predicate Tally(before: set<string>, accepted: set<string>, after: set<string>, inserted: nat, updated: nat) {
    inserted == |accepted - before| && updated == |accepted * before| && after == before + accepted
  }

  /** The report counts the ids of the source projects rightly. */
  ghost predicate Counts(before: set<string>, ids: set<string>, after: set<string>, rep: Report) {
    && Tally(before, Accepted(ids, rep), after, rep.inserted, rep.updated)
    && rep.skipped == |Reported(rep)| && Reported(rep) <= ids
  }

  lemma Refusing(rep: Report, c: Conflict)
    ensures Reported(Skipped(rep, c)) == Reported(rep) + {c.projectID}
  {
    assert forall d :: d in rep.conflicts + [c] <==> d in rep.conflicts || d == c;
  }

  lemma LastID(list: seq<Row>)
    requires list != [] && DistinctIDs(list)
    ensures var n := |list| - 1; IDs(list) == IDs(list[..n]) + {list[n].id} && list[n].id !in IDs(list[..n])
  {
    var n := |list| - 1;
    assert list == list[..n] + [list[n]];
    assert forall r :: r in list <==> r in list[..n] || r == list[n];
  }

  lemma RefusedCounts(before: set<string>, ids: set<string>, after: set<string>, rep: Report, c: Conflict)
    requires Counts(before, ids, after, rep) && c.projectID !in ids
    ensures Counts(before, ids + {c.projectID}, after, Skipped(rep, c))
  {
    hide Reported, Tally;
    Refusing(rep, c);
    assert Accepted(ids + {c.projectID}, Skipped(rep, c)) == Accepted(ids, rep);
  }

  lemma OneMoreTallied(before: set<string>, accepted: set<string>, after: set<string>, inserted: nat, updated: nat, id: string)
    requires Tally(before, accepted, after, inserted, updated) && id !in accepted
    ensures id in after <==> id in before
    ensures if id in before then Tally(before, accepted + {id}, after + {id}, inserted, updated + 1)
            else Tally(before, accepted + {id}, after + {id}, inserted + 1, updated)
  {
    assert after + {id} == before + (accepted + {id});
    if id in before {
      assert (accepted + {id}) - before == accepted - before;
      assert (accepted + {id}) * before == accepted * before + {id};
    } else {
      assert (accepted + {id}) - before == (accepted - before) + {id};
      assert (accepted + {id}) * before == accepted * before;
    }
  }

  lemma WrittenCounts(before: set<string>, ids: set<string>, after: set<string>, rep: Report, id: string, done: Report)
    requires Counts(before, ids, after, rep) && id !in ids
    requires done == if id in after then rep.(updated := rep.updated + 1) else rep.(inserted := rep.inserted + 1)
    ensures Counts(before, ids + {id}, after + {id}, done)
  {
    hide Reported, Tally;
    SameConflicts(rep, done);
    assert Accepted(ids + {id}, done) == Accepted(ids, rep) + {id};
    OneMoreTallied(before, Accepted(ids, rep), after, rep.inserted, rep.updated, id);
  }

  /** What became of the project, by the conflict it was given, if any. */
  lemma StepCounts(before: set<string>, ids: set<string>, p: Planned, src: Row, repos: seq<Repo>, refusal: Option<Conflict>)
    requires Counts(before, ids, p.reg.rows.Keys, p.report) && src.id !in ids
    requires refusal.Some? ==> Possible(p.reg.rows, src, refusal)
    ensures var q := PlanOne(p, src, repos, refusal); Counts(before, ids + {src.id}, q.reg.rows.Keys, q.report)
  {
    hide Judge, Reported, Counts, Possible, IsLastAt;
    JudgeIs(p.reg.rows, src);
    UpdateIsActive(p.reg.rows, src);
    var verdict := Judge(p.reg.rows, src);
    if verdict.Refuse? || refusal.Some? {
      ConflictNamesIt(p.reg.rows, src, refusal);
      RefusedCounts(before, ids, p.reg.rows.Keys, p.report, if verdict.Refuse? then verdict.conflict else refusal.value);
    } else {
      var q := PlanOne(p, src, repos, refusal);
      assert q.reg.rows.Keys == p.reg.rows.Keys + {src.id};
      WrittenCounts(before, ids, p.reg.rows.Keys, p.report, src.id, q.report);
    }
  }

  lemma SameConflicts(a: Report, b: Report)
    requires a.conflicts == b.conflicts
    ensures Reported(a) == Reported(b)
  {
  }

  lemma ConflictNamesIt(rows: map<string, Row>, src: Row, refusal: Option<Conflict>)
    requires refusal.Some? ==> Possible(rows, src, refusal)
    ensures Judge(rows, src).Refuse? ==> Judge(rows, src).conflict.projectID == src.id
    ensures !Judge(rows, src).Refuse? && refusal.Some? ==> refusal.value.projectID == src.id
  {
    hide LastAt;
  }

  /** The insert count is the number of ids the target gained, which are those of the accepted source
      projects that it did not have; the update count is the number of those it had; and every accepted
      project stands in the target as the source has it. */
  lemma {:induction false} ReportCounts(reg: Registry, from: Registry, list: seq<Row>, ws: Refusals)
    requires |ws| == |list| && AllActive(list) && DistinctIDs(list) && Honest(reg, from, list, ws)
    ensures var p := Plan(reg, from, list, ws);
      && Counts(reg.rows.Keys, IDs(list), p.reg.rows.Keys, p.report)
      && p.report.inserted == |p.reg.rows.Keys| - |reg.rows.Keys|
      && forall r :: r in list && r.id !in Reported(p.report) ==> Landed(p.reg, from, r)
    decreases |list|
  {
    hide Counts, PlanOne, Honest, Possible, Landed, SameAt;
    if list == [] {
      NothingPlanned(reg, from);
      NothingCounts(reg.rows.Keys);
    } else {
      var n := |list| - 1;
      var src := list[n];
      var p := Plan(reg, from, list[..n], ws[..n]);
      assert forall r :: r in list <==> r in list[..n] || r == src by {
        assert list == list[..n] + [src];
      }
      HonestBefore(reg, from, list, ws);
      ReportCounts(reg, from, list[..n], ws[..n]);
      LastID(list);
      LastStep(reg, from, list, ws);
      StepCounts(reg.rows.Keys, IDs(list[..n]), p, src, Owned(ReposOf(from, src.id), src.id), ws[n]);
      StepLands(p, from, list[..n], src, ws[n]);
    }
    GainedAreNew(reg.rows.Keys, IDs(list), Plan(reg, from, list, ws).reg.rows.Keys, Plan(reg, from, list, ws).report);
  }

  lemma NothingCounts(before: set<string>)
    ensures Counts(before, IDs([]), before, EMPTY_REPORT)
  {
    assert IDs([]) == {} && Reported(EMPTY_REPORT) == {};
  }

  lemma GainedAreNew(before: set<string>, ids: set<string>, after: set<string>, rep: Report)
    requires Counts(before, ids, after, rep)
    ensures rep.inserted == |after| - |before|
  {
    hide Reported, Accepted;
    var gained := Accepted(ids, rep) - before;
    assert after == before + gained;
  }

  lemma StepLands(p: Planned, from: Registry, front: seq<Row>, src: Row, refusal: Option<Conflict>)
    requires !src.archived && src.id !in IDs(front) && (refusal.Some? ==> Possible(p.reg.rows, src, refusal))
    requires forall r :: r in front && r.id !in Reported(p.report) ==> Landed(p.reg, from, r)
    ensures var q := PlanOne(p, src, Owned(ReposOf(from, src.id), src.id), refusal);
      forall r :: (r in front || r == src) && r.id !in Reported(q.report) ==> Landed(q.reg, from, r)
  {
    hide Judge, KeepsPairs, SharesNoMore, Possible;
    var q := PlanOne(p, src, Owned(ReposOf(from, src.id), src.id), refusal);
    PlanOneEffect(p, from, src, refusal);
    ConflictNamesIt(p.reg.rows, src, refusal);
    var verdict := Judge(p.reg.rows, src);
    if verdict.Refuse? || refusal.Some? {
      Refusing(p.report, if verdict.Refuse? then verdict.conflict else refusal.value);
    } else {
      SameConflicts(p.report, q.report);
    }
    forall r | r in front && r.id !in Reported(q.report)
      ensures Landed(q.reg, from, r)
    {
      assert r.id in IDs(front) && SameAt(p.reg, q.reg, r.id);
    }
  }

  // ---------- the conflicts ----------

  /** What the conflict says of the project is so: of the rows before the run where it names the
      project's own row, and of those after it where it names another. */
  ghost predicate Explains(c: Conflict, src: Row, before: map<string, Row>, after: map<string, Row>) {
    && c.projectID == src.id && c.path == src.path
    && match c.reason
      case SameIDArchivedTarget =>
        src.id in before && before[src.id].archived && c.targetID == src.id && c.targetPath == before[src.id].path
      case SameIDDifferentActivePath =>
        && src.id in before && !before[src.id].archived && before[src.id].path != src.path
        && c.targetID == src.id && c.targetPath == before[src.id].path
      case SamePathDifferentActiveID =>
        && (src.id in before ==> ActiveAt(before, src.id, src.path))
        && c.targetID != src.id && ActiveAt(after, c.targetID, src.path) && c.targetPath == src.path
  }

  lemma ConflictExplains(before: map<string, Row>, rows: map<string, Row>, src: Row, refusal: Option<Conflict>)
    requires KeepsPairs(before, rows) && (src.id in rows ==> src.id in before)
    requires refusal.Some? ==> Possible(rows, src, refusal)
    ensures Judge(rows, src).Refuse? ==> Explains(Judge(rows, src).conflict, src, before, rows)
    ensures !Judge(rows, src).Refuse? && refusal.Some? ==> Explains(refusal.value, src, before, rows)
  {
    LastHolds(rows, src.path);
    JudgeIs(rows, src);
    hide Leq, LastAt;
  }

  lemma StillExplains(c: Conflict, src: Row, before: map<string, Row>, rows: map<string, Row>, after: map<string, Row>)
    requires Explains(c, src, before, rows) && KeepsPairs(rows, after)
    ensures Explains(c, src, before, after)
  {
  }

  /** The conflict the project was given, if any. */
  ghost function Given(rows: map<string, Row>, src: Row, refusal: Option<Conflict>): Option<Conflict> {
    var v := Judge(rows, src);
    if v.Refuse? then Some(v.conflict) else refusal
  }

  lemma ConflictsAfter(p: Planned, src: Row, repos: seq<Repo>, refusal: Option<Conflict>)
    ensures var given := Given(p.reg.rows, src, refusal);
      PlanOne(p, src, repos, refusal).report.conflicts
      == p.report.conflicts + if given.Some? then [given.value] else []
  {
    hide Judge;
  }

  lemma StepExplains(before: map<string, Row>, p: Planned, from: Registry, src: Row, refusal: Option<Conflict>)
    requires KeepsPairs(before, p.reg.rows) && (src.id in p.reg.rows ==> src.id in before) && !src.archived
    requires refusal.Some? ==> Possible(p.reg.rows, src, refusal)
    ensures var q := PlanOne(p, src, Owned(ReposOf(from, src.id), src.id), refusal);
      && (forall c, r :: Explains(c, r, before, p.reg.rows) ==> Explains(c, r, before, q.reg.rows))
      && forall c :: c in q.report.conflicts ==> c in p.report.conflicts || Explains(c, src, before, q.reg.rows)
  {
    hide Judge, Explains, KeepsPairs, SharesNoMore, SameAt, Landed, Owned, PlanOne, Possible;
    PlanOneEffect(p, from, src, refusal);
    ConflictsAfter(p, src, Owned(ReposOf(from, src.id), src.id), refusal);
    ConflictExplains(before, p.reg.rows, src, refusal);
    var q := PlanOne(p, src, Owned(ReposOf(from, src.id), src.id), refusal);
    forall c, r | Explains(c, r, before, p.reg.rows)
      ensures Explains(c, r, before, q.reg.rows)
    {
      StillExplains(c, r, before, p.reg.rows, q.reg.rows);
    }
  }

  /** Every reported conflict is a source project's, with a reason that is so. */
  lemma {:induction false} ConflictsAreTrue(reg: Registry, from: Registry, list: seq<Row>, ws: Refusals)
    requires |ws| == |list| && Keyed(reg.rows) && AllActive(list) && DistinctIDs(list) && Honest(reg, from, list, ws)
    ensures var p := Plan(reg, from, list, ws);
      forall c :: c in p.report.conflicts ==> exists r :: r in list && Explains(c, r, reg.rows, p.reg.rows)
    decreases |list|
  {
    hide Honest, Possible, SharesNoMore, KeepsPairs, Keyed, Explains, PlanOne, Owned, Plan;
    if list == [] {
      NothingPlanned(reg, from);
    } else {
      var n := |list| - 1;
      var p := Plan(reg, from, list[..n], ws[..n]);
      assert list == list[..n] + [list[n]];
      HonestBefore(reg, from, list, ws);
      ConflictsAreTrue(reg, from, list[..n], ws[..n]);
      PlanKeepsTheTarget(reg, from, list[..n], ws[..n]);
      NotYetNew(reg, from, list, ws);
      LastStep(reg, from, list, ws);
      StepExplains(reg.rows, p, from, list[n], ws[n]);
    }
  }

  lemma NotYetNew(reg: Registry, from: Registry, list: seq<Row>, ws: Refusals)
    requires |ws| == |list| && list != [] && AllActive(list) && DistinctIDs(list) && Honest(reg, from, list, ws)
    ensures var n := |list| - 1;
      list[n].id in Plan(reg, from, list[..n], ws[..n]).reg.rows ==> list[n].id in reg.rows
  {
    hide Honest, Possible, Plan, Landed;
    var n := |list| - 1;
    HonestBefore(reg, from, list, ws);
    ReportCounts(reg, from, list[..n], ws[..n]);
    LastID(list);
  }

  // ---------- the importer itself, three times ----------

  lemma StillReadable(reg: Registry, from: Registry, ws: Refusals)
    requires Keyed(from.rows) && Keyed(reg.rows) && AllReadable(from.rows, reg.rows)
    requires |ws| == |ActiveInOrder(from.rows)|
    ensures var after := Plan(reg, from, ActiveInOrder(from.rows), ws).reg.rows;
      Keyed(after) && AllReadable(from.rows, after) && Decodable(reg.rows, ActiveInOrder(from.rows))
  {
    hide Keyed, Plan, KeepsPairs, SharesNoMore;
    var list := ActiveInOrder(from.rows);
    ListingIsDistinct(from.rows);
    InOrderAreReadable(from.rows, reg.rows);
    PlanKeepsTheTarget(reg, from, list, ws);
    ActiveStaysSo(reg.rows, Plan(reg, from, list, ws).reg.rows);
  }

  lemma ActiveStaysSo(before: map<string, Row>, after: map<string, Row>)
    requires KeepsPairs(before, after)
    ensures forall id :: id in before && id in after && after[id] == before[id] && id in ActiveIDs(after) ==> id in ActiveIDs(before)
  {
  }

  /** A dry run, a real run and another one. All three preflight alike, count every active source
      project, and keep every id/path pair of the target. Unless an update is at risk of being refused,
      the dry run foretells the real one, and the third reports its inserts as updates and leaves every
      row and every child repository as they are. */
  method DryRealAgain(source: Store, target: Store) returns (dry: Report, first: Report, again: Report)
    requires source != target && Keyed(source.reg.rows) && Keyed(target.reg.rows)
    requires AllReadable(source.reg.rows, target.reg.rows)
    modifies target
    ensures first.inserted + first.updated + first.skipped == |ActiveIDs(source.reg.rows)|
    ensures dry.inserted == first.inserted == |target.reg.rows.Keys| - |old(target.reg.rows).Keys|
    ensures target.reg.rows.Keys == old(target.reg.rows).Keys + Accepted(IDs(ActiveInOrder(source.reg.rows)), first)
    ensures first.updated == |Accepted(IDs(ActiveInOrder(source.reg.rows)), first) * old(target.reg.rows).Keys|
    ensures KeepsPairs(old(target.reg.rows), target.reg.rows) && SharesNoMore(old(target.reg.rows), target.reg.rows)
    ensures !AnyAtRisk(old(target.reg.rows), ActiveInOrder(source.reg.rows)) ==>
      && dry == first && Repeats(again, first)
      && Alike(target.reg, Plan(old(target.reg), source.reg, ActiveInOrder(source.reg.rows), NoRefusals(|ActiveInOrder(source.reg.rows)|)).reg)
  {
    hide Judge, Plan, Keyed, KeepsPairs, SharesNoMore, Alike, AllReadable, ActiveInOrder, Answered, AnyAtRisk, Decodable, Repeats;
    hide Accepted;
    ghost var was := target.reg;
    ghost var w0, w1, w2;
    var failure;
    dry, failure, w0 := Run(source, target, true);
    first, failure, w1 := Run(source, target, false);
    StillReadable(was, source.reg, w1);
    again, failure, w2 := Run(source, target, false);
    TwoRuns(was, source.reg, w1, w2);
  }

  /** A real run and another one on its result, as values. */
  lemma TwoRuns(reg: Registry, from: Registry, ws: Refusals, vs: Refusals)
    requires Keyed(from.rows) && Keyed(reg.rows) && AllReadable(from.rows, reg.rows)
    requires var list := ActiveInOrder(from.rows);
      && |ws| == |list| == |vs|
      && Answered(reg, from, list, ws) && Answered(Plan(reg, from, list, ws).reg, from, list, vs)
    ensures var list := ActiveInOrder(from.rows);
      var first := Plan(reg, from, list, ws); var again := Plan(first.reg, from, list, vs);
      && first.report.inserted + first.report.updated + first.report.skipped == |ActiveIDs(from.rows)|
      && Plan(reg, from, list, NoRefusals(|list|)).report.inserted == first.report.inserted
      && first.report.inserted == |again.reg.rows.Keys| - |reg.rows.Keys|
      && again.reg.rows.Keys == reg.rows.Keys + Accepted(IDs(list), first.report)
      && first.report.updated == |Accepted(IDs(list), first.report) * reg.rows.Keys|
      && KeepsPairs(reg.rows, again.reg.rows) && SharesNoMore(reg.rows, again.reg.rows)
      && (!AnyAtRisk(reg.rows, list) ==>
          && first == Plan(reg, from, list, NoRefusals(|list|))
          && Repeats(again.report, first.report) && Alike(again.reg, first.reg))
  {
    ListingIsDistinct(from.rows);
    SortedInOrder(ActiveIDs(from.rows));
    hide Accepted;
    hide Judge, Plan, Keyed, KeepsPairs, SharesNoMore, Alike, AllReadable, Sorted, Answered, AnyAtRisk, Decodable, Repeats;
    var list := ActiveInOrder(from.rows);
    var first := Plan(reg, from, list, ws);
    StillReadable(reg, from, ws);
    PlanKeepsTheTarget(reg, from, list, ws);
    PlanKeepsTheTarget(first.reg, from, list, vs);
    KeepsPairsTransitive(reg.rows, first.reg.rows, Plan(first.reg, from, list, vs).reg.rows);
    SharesNoMoreTransitive(reg.rows, first.reg.rows, Plan(first.reg, from, list, vs).reg.rows);
    EveryProjectIsCounted(reg, from, list, ws);
    CountsOfTwo(reg, from, ws, vs);
    if !AnyAtRisk(reg.rows, list) {
      NothingRefused(reg, from, list, ws);
      RerunWithoutRisk(reg, from, list, ws, vs);
    }
  }

  /** A dry run has the ids a real one has: only updates can be refused. */
  lemma SameIDsAsDry(reg: Registry, from: Registry, list: seq<Row>, ws: Refusals)
    requires |ws| == |list| && AllActive(list) && Answered(reg, from, list, ws)
    ensures Plan(reg, from, list, ws).reg.rows.Keys == Plan(reg, from, list, NoRefusals(|list|)).reg.rows.Keys
  {
    hide Plan, Answered, RefusedAt;
    AgainstDry(reg, from, list, ws);
  }

  /** The counts of the first run, which a dry run shares as to inserts and a rerun leaves so. */
  lemma CountsOfTwo(reg: Registry, from: Registry, ws: Refusals, vs: Refusals)
    requires Keyed(from.rows) && Keyed(reg.rows) && AllReadable(from.rows, reg.rows)
    requires var list := ActiveInOrder(from.rows);
      && |ws| == |list| == |vs|
      && Answered(reg, from, list, ws) && Answered(Plan(reg, from, list, ws).reg, from, list, vs)
    ensures var list := ActiveInOrder(from.rows);
      var first := Plan(reg, from, list, ws); var again := Plan(first.reg, from, list, vs);
      && Plan(reg, from, list, NoRefusals(|list|)).report.inserted == first.report.inserted
      && first.report.inserted == |again.reg.rows.Keys| - |reg.rows.Keys|
      && again.reg.rows.Keys == reg.rows.Keys + Accepted(IDs(list), first.report)
      && first.report.updated == |Accepted(IDs(list), first.report) * reg.rows.Keys|
  {
    ListingIsDistinct(from.rows);
    hide Plan, Keyed, AllReadable, Answered, Decodable, ActiveInOrder, Accepted, Reported, IDs, Alike, Landed, Honest;
    var list := ActiveInOrder(from.rows);
    var first := Plan(reg, from, list, ws);
    StillReadable(reg, from, ws);
    BothKindsAreHonest(reg, from, list, ws);
    BothKindsAreHonest(reg, from, list, NoRefusals(|list|));
    ReportCounts(reg, from, list, ws);
    ReportCounts(reg, from, list, NoRefusals(|list|));
    SameIDsAsDry(reg, from, list, ws);
    RerunRepeats(reg, from, list, ws);
    AlikeRows(Plan(first.reg, from, list, ws).reg, first.reg);
    SameIDsAsDry(first.reg, from, list, ws);
    SameIDsAsDry(first.reg, from, list, vs);
  }

  lemma RerunWithoutRisk(reg: Registry, from: Registry, list: seq<Row>, ws: Refusals, vs: Refusals)
    requires |ws| == |list| == |vs| && AllActive(list) && DistinctIDs(list)
    requires Keyed(reg.rows) && Decodable(reg.rows, list) && !AnyAtRisk(reg.rows, list)
    requires Answered(reg, from, list, ws) && Answered(Plan(reg, from, list, ws).reg, from, list, vs)
    ensures var first := Plan(reg, from, list, ws); var again := Plan(first.reg, from, list, vs);
      Repeats(again.report, first.report) && Alike(again.reg, first.reg)
  {
    hide Plan, Alike, Answered, Keyed, Decodable, AtRisk, KeepsPairs, SharesNoMore;
    var first := Plan(reg, from, list, ws);
    RerunRepeats(reg, from, list, ws);
    PlanKeepsTheTarget(reg, from, list, ws);
    DecodableAtTheEnd(reg.rows, first.reg.rows, list);
    forall k | 0 <= k < |list|
      ensures AtRisk(reg.rows, list[k]) <==> AtRisk(first.reg.rows, list[k])
    {
      RiskIsKept(reg.rows, first.reg.rows, list[k]);
    }
    NothingRefused(first.reg, from, list, ws);
    NothingRefused(first.reg, from, list, vs);
  }
}
