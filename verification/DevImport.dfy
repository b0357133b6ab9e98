/** Copying the active projects of one registry into another: a loop over two lookup tables, held
    against a plan that only looks at the target's rows. */
module DevImport {
  import opened Options
  import opened Strings

  /** `readable` says that this version can decode the stored config; `details` is everything that
      decides no conflict. */
  datatype Row = Row(id: string, path: string, archived: bool, readable: bool, details: string)

  datatype Repo = Repo(projectID: string, name: string, details: string)

  datatype Registry = Registry(rows: map<string, Row>, repos: map<string, seq<Repo>>)

  datatype Reason = SameIDArchivedTarget | SameIDDifferentActivePath | SamePathDifferentActiveID

  datatype Conflict = Conflict(projectID: string, path: string, reason: Reason, targetID: string, targetPath: string)

  datatype Report = Report(inserted: nat, updated: nat, skipped: nat, conflicts: seq<Conflict>)

  datatype Failure = SourceUnreadable(id: string) | TargetUnreadable(id: string) | LookupFailed(id: string)

  const EMPTY_REPORT := Report(0, 0, 0, [])

  // ---------- the plan ----------

  ghost predicate Keyed(rows: map<string, Row>) {
    forall id :: id in rows ==> rows[id].id == id
  }

  predicate ActiveAt(rows: map<string, Row>, id: string, path: string) {
    id in rows && !rows[id].archived && rows[id].path == path
  }

  /** The row a listing in id order has last at the path, and so the one a table by path keeps. */
  ghost predicate IsLastAt(rows: map<string, Row>, id: string, path: string) {
    ActiveAt(rows, id, path) && forall x :: ActiveAt(rows, x, path) ==> Leq(x, id)
  }

  ghost function LastAt(rows: map<string, Row>, path: string): Option<string> {
    if x :| IsLastAt(rows, x, path) then Some(x) else None
  }

  lemma LastExists(rows: map<string, Row>, x: string, path: string)
    requires ActiveAt(rows, x, path)
    ensures exists y :: IsLastAt(rows, y, path)
  {
    var s := set id | id in rows && ActiveAt(rows, id, path);
    assert x in s;
    GreatestExists(s);
    var y :| IsGreatest(y, s);
    assert IsLastAt(rows, y, path);
  }

  lemma LastIs(rows: map<string, Row>, x: string, path: string)
    requires IsLastAt(rows, x, path)
    ensures LastAt(rows, path) == Some(x)
  {
    var y := LastAt(rows, path).value;
    LeqTotal(x, y);
  }

  lemma NoLast(rows: map<string, Row>, path: string)
    ensures LastAt(rows, path).None? <==> forall x :: !ActiveAt(rows, x, path)
  {
    if x :| ActiveAt(rows, x, path) {
      LastExists(rows, x, path);
    }
  }

  datatype Verdict = Insert | Update | Refuse(conflict: Conflict)

  ghost function Judge(rows: map<string, Row>, src: Row): Verdict {
    if src.id in rows && rows[src.id].archived then
      Refuse(Conflict(src.id, src.path, SameIDArchivedTarget, src.id, rows[src.id].path))
    else if src.id in rows && rows[src.id].path != src.path then
      Refuse(Conflict(src.id, src.path, SameIDDifferentActivePath, src.id, rows[src.id].path))
    else
      match LastAt(rows, src.path)
      case None => Insert
      case Some(x) =>
        if x != src.id then Refuse(Conflict(src.id, src.path, SamePathDifferentActiveID, x, src.path)) else Update
  }

  /** The verdicts, without the choice of a last row. */
  lemma JudgeIs(rows: map<string, Row>, src: Row)
    ensures Judge(rows, src).Insert? <==> src.id !in rows && forall x :: !ActiveAt(rows, x, src.path)
    ensures Judge(rows, src).Update? <==> IsLastAt(rows, src.id, src.path)
    ensures forall x :: x != src.id && IsLastAt(rows, x, src.path) && (src.id in rows ==> ActiveAt(rows, src.id, src.path)) ==>
      Judge(rows, src) == Refuse(Conflict(src.id, src.path, SamePathDifferentActiveID, x, src.path))
  {
    NoLast(rows, src.path);
    forall x | IsLastAt(rows, x, src.path)
      ensures LastAt(rows, src.path) == Some(x)
    {
      LastIs(rows, x, src.path);
    }
    assert src.id in rows && !rows[src.id].archived && rows[src.id].path == src.path ==> ActiveAt(rows, src.id, src.path);
  }

  /** The child repositories as they are, under their new owner. */
  function Owned(repos: seq<Repo>, id: string): (r: seq<Repo>)
    ensures |r| == |repos|
    ensures forall i :: 0 <= i < |r| ==>
      r[i].projectID == id && r[i].name == repos[i].name && r[i].details == repos[i].details
  {
    seq(|repos|, i requires 0 <= i < |repos| => repos[i].(projectID := id))
  }

  function ReposOf(reg: Registry, id: string): seq<Repo> {
    if id in reg.repos then reg.repos[id] else []
  }

  function Imported(reg: Registry, src: Row, repos: seq<Repo>): Registry {
    Registry(reg.rows[src.id := src], reg.repos[src.id := repos])
  }

  datatype Planned = Planned(reg: Registry, report: Report)

  /** One project, given the store's refusal of its import if there is one. */
  ghost function PlanOne(p: Planned, src: Row, repos: seq<Repo>, refusal: Option<Conflict>): Planned {
    var v := Judge(p.reg.rows, src);
    if v.Refuse? then Planned(p.reg, Skipped(p.report, v.conflict))
    else if refusal.Some? then Planned(p.reg, Skipped(p.report, refusal.value))
    else
      Planned(Imported(p.reg, src, repos),
              if v.Insert? then p.report.(inserted := p.report.inserted + 1)
              else p.report.(updated := p.report.updated + 1))
  }

  function Skipped(rep: Report, c: Conflict): Report {
    rep.(skipped := rep.skipped + 1, conflicts := rep.conflicts + [c])
  }

  /** The projects one after another, each against the target as those before it left it. */
  ghost function Plan(reg: Registry, from: Registry, list: seq<Row>, refusals: seq<Option<Conflict>>): Planned
    requires |refusals| == |list|
  {
    if list == [] then Planned(reg, EMPTY_REPORT)
    else
      var n := |list| - 1;
      PlanOne(Plan(reg, from, list[..n], refusals[..n]), list[n], Owned(ReposOf(from, list[n].id), list[n].id), refusals[n])
  }

  /** A dry run asks no store, as if nothing were refused. */
  function NoRefusals(n: nat): seq<Option<Conflict>> {
    seq(n, _ => None)
  }

  // ---------- lists ----------

  function ActiveIDs(rows: map<string, Row>): set<string> {
    set id | id in rows && !rows[id].archived
  }

  function RowsOf(rows: map<string, Row>, ids: seq<string>): seq<Row>
    requires forall id :: id in ids ==> id in rows
  {
    seq(|ids|, i requires 0 <= i < |ids| => rows[ids[i]])
  }

  /** The active rows in id order. */
  ghost function ActiveInOrder(rows: map<string, Row>): seq<Row> {
    RowsOf(rows, Sorted(ActiveIDs(rows)))
  }

  predicate IsActiveRow(r: Row, rows: map<string, Row>) {
    r.id in rows && !r.archived && rows[r.id] == r
  }

  /** Every active row once, in no particular order. */
  ghost predicate ListsActive(list: seq<Row>, rows: map<string, Row>) {
    && (forall r :: r in list <==> IsActiveRow(r, rows))
    && (forall i, j :: 0 <= i < j < |list| ==> list[i].id != list[j].id)
  }

  method IndexByID(list: seq<Row>, ghost rows: map<string, Row>) returns (byID: map<string, Row>)
    requires ListsActive(list, rows) && Keyed(rows)
    ensures byID.Keys == ActiveIDs(rows) && forall id :: id in byID ==> byID[id] == rows[id]
  {
    byID := map[];
    for i := 0 to |list|
      invariant forall id :: id in byID ==> id in ActiveIDs(rows) && byID[id] == rows[id]
      invariant forall j :: 0 <= j < i ==> list[j].id in byID
    {
      assert list[i] in list;
      byID := byID[list[i].id := list[i]];
    }
    forall id | id in ActiveIDs(rows)
      ensures id in byID
    {
      assert IsActiveRow(rows[id], rows);
    }
  }

  lemma InOrderLists(rows: map<string, Row>)
    requires Keyed(rows)
    ensures ListsActive(ActiveInOrder(rows), rows)
  {
    var ids := Sorted(ActiveIDs(rows));
    SortedInOrder(ActiveIDs(rows));
    hide Sorted, Leq;
    assert forall i :: 0 <= i < |ids| ==> ids[i] in ids;
    var list := ActiveInOrder(rows);
    forall r | IsActiveRow(r, rows)
      ensures r in list
    {
      assert r.id in ids;
      var i :| 0 <= i < |ids| && ids[i] == r.id;
      assert list[i] == r;
    }
  }

  // `sort.Slice` by id, on a list without repeated ids.
  method SortByID(list: seq<Row>, ghost rows: map<string, Row>) returns (sorted: seq<Row>)
    requires ListsActive(list, rows) && Keyed(rows)
    ensures sorted == ActiveInOrder(rows)
  {
    hide ListsActive, Keyed, Sorted;
    var byID := IndexByID(list, rows);
    var ids := SortKeys(byID.Keys);
    sorted := RowsOf(byID, ids);
    assert forall i :: 0 <= i < |ids| ==> ids[i] in ids;
    assert sorted == RowsOf(rows, ids);
  }

  // ---------- the store ----------

  datatype Lookup = Missing | Present(row: Row) | Undecodable

  datatype Write = Written | Refused(conflict: Conflict) | ConfigUnreadable

  /** What the store may answer to an import: it repeats the conflict checks on its own rows, and of
      several active rows at one path its query yields any. */
  ghost predicate MayAnswer(rows: map<string, Row>, src: Row, w: Write) {
    if src.id in rows && !rows[src.id].readable then w == ConfigUnreadable
    else if src.id in rows && rows[src.id].archived then
      w == Refused(Conflict(src.id, src.path, SameIDArchivedTarget, src.id, rows[src.id].path))
    else if src.id in rows && rows[src.id].path != src.path then
      w == Refused(Conflict(src.id, src.path, SameIDDifferentActivePath, src.id, rows[src.id].path))
    else if w.Refused? then
      && w.conflict.targetID != src.id && ActiveAt(rows, w.conflict.targetID, src.path)
      && w.conflict == Conflict(src.id, src.path, SamePathDifferentActiveID, w.conflict.targetID, src.path)
    else
      w == Written && ((exists x :: ActiveAt(rows, x, src.path)) ==> ActiveAt(rows, src.id, src.path))
  }

  class Store {
    var reg: Registry

    method GetProject(id: string) returns (r: Lookup)
      ensures r == if id !in reg.rows then Missing
                   else if reg.rows[id].readable then Present(reg.rows[id]) else Undecodable
    {
      if id !in reg.rows {
        return Missing;
      }
      return if reg.rows[id].readable then Present(reg.rows[id]) else Undecodable;
    }

    // The query orders by id.
    method ListProjects() returns (list: seq<Row>)
      ensures list == ActiveInOrder(reg.rows)
    {
      var ids := SortKeys(ActiveIDs(reg.rows));
      return RowsOf(reg.rows, ids);
    }

    method ListWorkspaceRepos(id: string) returns (repos: seq<Repo>)
      ensures repos == ReposOf(reg, id)
    {
      return if id in reg.repos then reg.repos[id] else [];
    }

    // Any one of the active rows at the path.
    method FindProjectByPath(path: string) returns (r: Option<Row>)
      requires Keyed(reg.rows)
      ensures r.None? ==> forall x :: !ActiveAt(reg.rows, x, path)
      ensures r.Some? ==> ActiveAt(reg.rows, r.value.id, path) && reg.rows[r.value.id] == r.value
    {
      if id :| id in reg.rows && !reg.rows[id].archived && reg.rows[id].path == path {
        return Some(reg.rows[id]);
      }
      return None;
    }

    method ImportWorkspaceProject(src: Row, repos: seq<Repo>) returns (w: Write)
      requires Keyed(reg.rows)
      modifies this
      ensures MayAnswer(old(reg.rows), src, w)
      ensures reg == if w.Written? then Imported(old(reg), src, repos) else old(reg)
    {
      if src.id in reg.rows {
        var existing := reg.rows[src.id];
        if !existing.readable {
          return ConfigUnreadable;
        }
        if existing.archived {
          return Refused(Conflict(src.id, src.path, SameIDArchivedTarget, existing.id, existing.path));
        }
        if existing.path != src.path {
          return Refused(Conflict(src.id, src.path, SameIDDifferentActivePath, existing.id, existing.path));
        }
      }
      var byPath := FindProjectByPath(src.path);
      if byPath.Some? && byPath.value.id != src.id {
        return Refused(Conflict(src.id, src.path, SamePathDifferentActiveID, byPath.value.id, byPath.value.path));
      }
      reg := Imported(reg, src, repos);
      return Written;
    }
  }

  // ---------- the two tables ----------

  /** The tables know exactly the active rows: by id, and the last one at each path. */
  ghost predicate Matches(byID: map<string, Row>, byPath: map<string, Row>, rows: map<string, Row>) {
    && (forall id :: id in byID ==> byID[id].id == id && ActiveAt(rows, id, byID[id].path))
    && (forall id :: id in rows && !rows[id].archived ==> id in byID && rows[id].path in byPath)
    && (forall p :: p in byPath ==> byPath[p].path == p && IsLastAt(rows, byPath[p].id, p))
  }

  /** What the tables decide about a project is what the plan decides on the rows. */
  lemma TablesJudge(byID: map<string, Row>, byPath: map<string, Row>, rows: map<string, Row>, src: Row)
    requires Matches(byID, byPath, rows)
    ensures src.id !in byID && src.id in rows ==>
      rows[src.id].archived
      && Judge(rows, src) == Refuse(Conflict(src.id, src.path, SameIDArchivedTarget, src.id, rows[src.id].path))
    ensures src.id in byID && byID[src.id].path != src.path ==>
      Judge(rows, src) == Refuse(Conflict(src.id, src.path, SameIDDifferentActivePath, src.id, byID[src.id].path))
    ensures var clear := if src.id in byID then byID[src.id].path == src.path else src.id !in rows;
      && (clear && src.path in byPath && byPath[src.path].id != src.id ==>
            Judge(rows, src) == Refuse(Conflict(src.id, src.path, SamePathDifferentActiveID, byPath[src.path].id, src.path)))
      && (clear && (src.path in byPath ==> byPath[src.path].id == src.id) ==>
            && Judge(rows, src) == (if src.id in byID then Update else Insert)
            && (src.path in byPath <==> src.id in byID))
  {
    hide Leq, LastAt;
    NoLast(rows, src.path);
    if src.path in byPath {
      LastIs(rows, byPath[src.path].id, src.path);
    }
  }

  lemma TablesFollow(byID: map<string, Row>, byPath: map<string, Row>, rows: map<string, Row>, src: Row)
    requires Matches(byID, byPath, rows) && !src.archived
    ensures Judge(rows, src) == Insert ==> Matches(byID[src.id := src], byPath[src.path := src], rows[src.id := src])
    ensures Judge(rows, src) == Update ==> Matches(byID, byPath, rows[src.id := src])
  {
    hide Judge, Leq;
    JudgeIs(rows, src);
    LeqTotal(src.id, src.id);
    if Judge(rows, src) == Insert {
      assert forall x, p :: ActiveAt(rows[src.id := src], x, p) <==> ActiveAt(rows, x, p) || (x == src.id && p == src.path);
    }
    if Judge(rows, src) == Update {
      assert forall x, p :: ActiveAt(rows[src.id := src], x, p) <==> ActiveAt(rows, x, p);
    }
  }

  /** The store refuses an import that the tables let through only where another active row has its
      path, and only an update whose own row is the last there. */
  lemma StoreRefusesOnlyShared(rows: map<string, Row>, src: Row, w: Write)
    requires (src.id in rows ==> rows[src.id].readable) && MayAnswer(rows, src, w)
    requires !Judge(rows, src).Refuse?
    ensures w == Written || w.Refused?
    ensures w.Refused? ==> AtRisk(rows, src)
  {
    hide Judge, Leq;
    JudgeIs(rows, src);
  }

  /** The project's row is the last active one at its path, but not the only one: the tables let its
      update through, and the store may refuse it. */
  ghost predicate AtRisk(rows: map<string, Row>, src: Row) {
    IsLastAt(rows, src.id, src.path) && exists x :: x != src.id && ActiveAt(rows, x, src.path)
  }

  // ---------- the run ----------

  /** Every active row on either side can be decoded, and so can every target row of a source id. */
  ghost predicate AllReadable(from: map<string, Row>, to: map<string, Row>) {
    && (forall id :: id in ActiveIDs(from) ==> from[id].readable && (id in to ==> to[id].readable))
    && (forall id :: id in ActiveIDs(to) ==> to[id].readable)
  }

  /** The failure names a row that cannot be decoded and has to be. */
  ghost predicate Accuses(failure: Failure, from: map<string, Row>, to: map<string, Row>) {
    match failure
    case SourceUnreadable(id) => id in ActiveIDs(from) && !from[id].readable
    case TargetUnreadable(id) => id in ActiveIDs(to) && !to[id].readable
    case LookupFailed(id) => id in ActiveIDs(from) && id in to && !to[id].readable
  }

  method Preflight(sourceProjects: seq<Row>, targetProjects: seq<Row>, ghost from: map<string, Row>, target: Store)
    returns (failure: Option<Failure>)
    requires Keyed(from) && Keyed(target.reg.rows)
    requires ListsActive(sourceProjects, from) && ListsActive(targetProjects, target.reg.rows)
    ensures failure.None? <==> AllReadable(from, target.reg.rows)
    ensures failure.Some? ==> Accuses(failure.value, from, target.reg.rows)
  {
    hide Keyed;
    for i := 0 to |sourceProjects|
      invariant forall j :: 0 <= j < i ==> sourceProjects[j].readable
    {
      if !sourceProjects[i].readable {
        assert sourceProjects[i] in sourceProjects;
        return Some(SourceUnreadable(sourceProjects[i].id));
      }
    }
    for i := 0 to |targetProjects|
      invariant forall j :: 0 <= j < i ==> targetProjects[j].readable
    {
      if !targetProjects[i].readable {
        assert targetProjects[i] in targetProjects;
        return Some(TargetUnreadable(targetProjects[i].id));
      }
    }
    for i := 0 to |sourceProjects|
      invariant forall j :: 0 <= j < i && sourceProjects[j].id in target.reg.rows ==>
        target.reg.rows[sourceProjects[j].id].readable
    {
      var found := target.GetProject(sourceProjects[i].id);
      if found.Undecodable? {
        assert sourceProjects[i] in sourceProjects;
        return Some(LookupFailed(sourceProjects[i].id));
      }
    }
    AllWereReadable(sourceProjects, targetProjects, from, target.reg.rows);
    return None;
  }

  lemma AllWereReadable(sources: seq<Row>, targets: seq<Row>, from: map<string, Row>, to: map<string, Row>)
    requires Keyed(from) && Keyed(to) && ListsActive(sources, from) && ListsActive(targets, to)
    requires forall i :: 0 <= i < |sources| ==>
      sources[i].readable && (sources[i].id in to ==> to[sources[i].id].readable)
    requires forall i :: 0 <= i < |targets| ==> targets[i].readable
    ensures AllReadable(from, to)
  {
    assert forall r :: r in sources ==> exists i :: 0 <= i < |sources| && sources[i] == r;
    assert forall r :: r in targets ==> exists i :: 0 <= i < |targets| && targets[i] == r;
    assert forall id :: id in ActiveIDs(from) ==> IsActiveRow(from[id], from);
    assert forall id :: id in ActiveIDs(to) ==> IsActiveRow(to[id], to);
  }

  /** The rows the loop will write over in a real run are the plan's; in a dry run they are still the
      old ones, which know the same archived rows. */
  ghost predicate Follows(stored: map<string, Row>, planned: map<string, Row>) {
    && (forall id :: id in stored ==> id in planned)
    && (forall id :: id in planned && planned[id].archived ==> id in stored && stored[id] == planned[id])
  }

  /** The tables after the first `i` rows of a listing in id order. */
  ghost predicate Filled(list: seq<Row>, i: nat, byID: map<string, Row>, byPath: map<string, Row>, rows: map<string, Row>)
    requires i <= |list|
  {
    && (forall id :: id in byID ==> byID[id].id == id && IsActiveRow(byID[id], rows))
    && (forall p :: p in byPath ==> byPath[p].path == p && IsActiveRow(byPath[p], rows))
    && (forall j :: 0 <= j < i ==>
        list[j].id in byID && list[j].path in byPath && Leq(list[j].id, byPath[list[j].path].id))
  }

  method Tables(list: seq<Row>, ghost rows: map<string, Row>) returns (byID: map<string, Row>, byPath: map<string, Row>)
    requires list == ActiveInOrder(rows) && Keyed(rows)
    ensures Matches(byID, byPath, rows)
  {
    hide Leq, ActiveInOrder, Keyed, Filled, Matches, ListsActive;
    ListIsInOrder(rows);
    byID, byPath := map[], map[];
    assert Filled(list, 0, byID, byPath, rows) by {
      NothingFilled(list, rows);
    }
    for i := 0 to |list|
      invariant Filled(list, i, byID, byPath, rows)
    {
      FillOne(list, i, byID, byPath, rows);
      byID := byID[list[i].id := list[i]];
      byPath := byPath[list[i].path := list[i]];
    }
    TablesMatch(list, byID, byPath, rows);
  }

  lemma NothingFilled(list: seq<Row>, rows: map<string, Row>)
    ensures Filled(list, 0, map[], map[], rows)
  {
  }

  /** A later row of the listing takes the place of an earlier one at its path, and has the greater id. */
  lemma FillOne(list: seq<Row>, i: nat, byID: map<string, Row>, byPath: map<string, Row>, rows: map<string, Row>)
    requires ListsActive(list, rows) && i < |list| && Filled(list, i, byID, byPath, rows)
    requires forall j, k :: 0 <= j <= k < |list| ==> Leq(list[j].id, list[k].id)
    ensures Filled(list, i + 1, byID[list[i].id := list[i]], byPath[list[i].path := list[i]], rows)
  {
    hide Leq;
    assert list[i] in list;
  }

  lemma ListIsInOrder(rows: map<string, Row>)
    requires Keyed(rows)
    ensures ListsActive(ActiveInOrder(rows), rows)
    ensures var list := ActiveInOrder(rows); forall i, j :: 0 <= i <= j < |list| ==> Leq(list[i].id, list[j].id)
  {
    InOrderLists(rows);
    var ids := Sorted(ActiveIDs(rows));
    SortedInOrder(ActiveIDs(rows));
    hide Sorted, Leq;
    assert forall i :: 0 <= i < |ids| ==> ids[i] in ids;
    forall i | 0 <= i < |ids|
      ensures Leq(ids[i], ids[i])
    {
      LeqTotal(ids[i], ids[i]);
    }
  }

  lemma TablesMatch(list: seq<Row>, byID: map<string, Row>, byPath: map<string, Row>, rows: map<string, Row>)
    requires ListsActive(list, rows) && Keyed(rows) && Filled(list, |list|, byID, byPath, rows)
    ensures Matches(byID, byPath, rows)
  {
    hide Leq;
    forall id | id in rows && !rows[id].archived
      ensures id in byID && rows[id].path in byPath && Leq(id, byPath[rows[id].path].id)
    {
      assert IsActiveRow(rows[id], rows);
      var j :| 0 <= j < |list| && list[j] == rows[id];
    }
  }

  method AddConflict(rep: Report, c: Conflict) returns (r: Report)
    ensures r == Skipped(rep, c)
  {
    return rep.(skipped := rep.skipped + 1, conflicts := rep.conflicts + [c]);
  }

  /** One pass of the importer's loop, and the store's refusal if it gave one. */
  method ImportOne(source: Store, target: Store, dryRun: bool, src: Row,
                   byID0: map<string, Row>, byPath0: map<string, Row>, rep0: Report, ghost planned: Registry)
    returns (byID: map<string, Row>, byPath: map<string, Row>, rep: Report, ghost refusal: Option<Conflict>)
    requires source != target && !src.archived
    requires Keyed(planned.rows) && Matches(byID0, byPath0, planned.rows)
    requires Follows(target.reg.rows, planned.rows) && Keyed(target.reg.rows) && (!dryRun ==> target.reg == planned)
    requires src.id in target.reg.rows ==> target.reg.rows[src.id].readable
    modifies target
    ensures dryRun ==> refusal.None?
    ensures !dryRun ==> Possible(planned.rows, src, refusal)
    ensures var p := PlanOne(Planned(planned, rep0), src, Owned(ReposOf(source.reg, src.id), src.id), refusal);
      && rep == p.report && Matches(byID, byPath, p.reg.rows)
      && target.reg == if dryRun then old(target.reg) else p.reg
  {
    hide Judge, Keyed, Matches, MayAnswer, AtRisk;
    byID, byPath, rep, refusal := byID0, byPath0, rep0, None;
    TablesJudge(byID, byPath, planned.rows, src);
    TablesFollow(byID, byPath, planned.rows, src);
    var existingByID := if src.id in byID then Some(byID[src.id]) else None;
    var existingByPath := if src.path in byPath then Some(byPath[src.path]) else None;
    TableRows(byID, byPath, planned.rows, src);
    if existingByID.None? {
      var found := target.GetProject(src.id);
      match found {
        case Present(existing) =>
          if existing.archived {
            rep := AddConflict(rep, Conflict(src.id, src.path, SameIDArchivedTarget, existing.id, existing.path));
            return;
          }
          existingByID := Some(existing);
        case _ =>
      }
    }
    if existingByID.Some? && existingByID.value.path != src.path {
      rep := AddConflict(rep, Conflict(src.id, src.path, SameIDDifferentActivePath, existingByID.value.id, existingByID.value.path));
      return;
    }
    if existingByPath.Some? && existingByPath.value.id != src.id {
      rep := AddConflict(rep, Conflict(src.id, src.path, SamePathDifferentActiveID, existingByPath.value.id, existingByPath.value.path));
      return;
    }
    var repos := source.ListWorkspaceRepos(src.id);
    repos := Owned(repos, src.id);
    if !dryRun {
      var w := target.ImportWorkspaceProject(src, repos);
      StoreRefusesOnlyShared(planned.rows, src, w);
      if w.Refused? {
        refusal := Some(w.conflict);
        rep := AddConflict(rep, w.conflict);
        return;
      }
    }
    if existingByID.Some? && existingByPath.Some? {
      rep := rep.(updated := rep.updated + 1);
      return;
    }
    byID := byID[src.id := src];
    byPath := byPath[src.path := src];
    rep := rep.(inserted := rep.inserted + 1);
  }

  /** What the tables hold at a project's keys, and what they leave to a lookup. */
  lemma TableRows(byID: map<string, Row>, byPath: map<string, Row>, rows: map<string, Row>, src: Row)
    requires Matches(byID, byPath, rows) && Keyed(rows)
    ensures src.id in byID ==> byID[src.id].id == src.id
    ensures src.id in byID ==> src.id in rows && !rows[src.id].archived
    ensures src.id in rows && src.id !in byID ==> rows[src.id].archived
    ensures src.path in byPath ==> byPath[src.path].path == src.path
    ensures src.id in rows ==> rows[src.id].id == src.id
  {
  }

  /** The store may answer so if the project gets as far as being imported. */
  ghost predicate Possible(rows: map<string, Row>, src: Row, refusal: Option<Conflict>) {
    !Judge(rows, src).Refuse? ==> MayAnswer(rows, src, if refusal.None? then Written else Refused(refusal.value))
  }

  /** These are answers the store may give to a real run. */
  ghost predicate Answered(reg: Registry, from: Registry, list: seq<Row>, refusals: seq<Option<Conflict>>)
    requires |refusals| == |list|
  {
    forall k :: 0 <= k < |list| ==>
      Possible(Plan(reg, from, list[..k], refusals[..k]).reg.rows, list[k], refusals[k])
  }

  method ImportAll(source: Store, target: Store, dryRun: bool, sources: seq<Row>,
                   byID0: map<string, Row>, byPath0: map<string, Row>)
    returns (rep: Report, ghost refusals: seq<Option<Conflict>>)
    requires source != target
    requires Keyed(target.reg.rows) && Matches(byID0, byPath0, target.reg.rows)
    requires forall r :: r in sources ==>
      !r.archived && r.readable && (r.id in target.reg.rows ==> target.reg.rows[r.id].readable)
    modifies target
    ensures |refusals| == |sources|
    ensures if dryRun then refusals == NoRefusals(|sources|) else Answered(old(target.reg), source.reg, sources, refusals)
    ensures var p := Plan(old(target.reg), source.reg, sources, refusals);
      rep == p.report && target.reg == if dryRun then old(target.reg) else p.reg
  {
    hide Judge, Keyed, Matches, Possible, PlanOne, Plan, Answered;
    rep, refusals := EMPTY_REPORT, [];
    var byID, byPath := byID0, byPath0;
    ghost var planned := Planned(target.reg, rep);
    NothingPlanned(target.reg, source.reg);
    for k := 0 to |sources|
      invariant |refusals| == k && rep == planned.report
      invariant if dryRun then refusals == NoRefusals(k) else Answered(old(target.reg), source.reg, sources[..k], refusals)
      invariant planned == Plan(old(target.reg), source.reg, sources[..k], refusals)
      invariant Keyed(planned.reg.rows) && Matches(byID, byPath, planned.reg.rows)
      invariant Follows(old(target.reg).rows, planned.reg.rows)
      invariant target.reg == if dryRun then old(target.reg) else planned.reg
      invariant forall r :: r in sources && r.id in target.reg.rows ==> target.reg.rows[r.id].readable
    {
      var src := sources[k];
      assert src in sources;
      ghost var was := planned;
      ghost var repos := Owned(ReposOf(source.reg, src.id), src.id);
      ghost var refusal;
      byID, byPath, rep, refusal := ImportOne(source, target, dryRun, src, byID, byPath, rep, planned.reg);
      PlanSnoc(old(target.reg), source.reg, sources, k, refusals, refusal);
      PlanOneKeeps(was.reg, was.report, src, repos, refusal);
      planned := PlanOne(was, src, repos, refusal);
      refusals := refusals + [refusal];
    }
    assert sources[..|sources|] == sources;
  }

  lemma NothingPlanned(reg: Registry, from: Registry)
    ensures Plan(reg, from, [], []) == Planned(reg, EMPTY_REPORT) && Answered(reg, from, [], [])
  {
  }

  lemma PlanSnoc(reg: Registry, from: Registry, list: seq<Row>, k: nat, refusals: seq<Option<Conflict>>, refusal: Option<Conflict>)
    requires k < |list| && |refusals| == k
    ensures Plan(reg, from, list[..k + 1], refusals + [refusal]) ==
      PlanOne(Plan(reg, from, list[..k], refusals), list[k], Owned(ReposOf(from, list[k].id), list[k].id), refusal)
    ensures Answered(reg, from, list[..k + 1], refusals + [refusal]) <==>
      Answered(reg, from, list[..k], refusals) && Possible(Plan(reg, from, list[..k], refusals).reg.rows, list[k], refusal)
  {
    hide PlanOne, Possible, Owned, ReposOf;
    var xs, ws := list[..k + 1], refusals + [refusal];
    assert xs[..k] == list[..k] && ws[..k] == refusals;
    forall j | 0 <= j < k
      ensures xs[..j] == list[..k][..j] && ws[..j] == refusals[..j] && xs[j] == list[..k][j] && ws[j] == refusals[j]
    {
    }
  }

  lemma PlanOneKeeps(reg: Registry, rep: Report, src: Row, repos: seq<Repo>, refusal: Option<Conflict>)
    requires Keyed(reg.rows)
    ensures var after := PlanOne(Planned(reg, rep), src, repos, refusal).reg;
      && Keyed(after.rows)
      && (forall id :: id in reg.rows ==> id in after.rows)
      && (!src.archived ==> forall id :: id in after.rows && after.rows[id].archived ==> id in reg.rows && after.rows[id] == reg.rows[id])
      && (forall id :: id in after.rows && id !in reg.rows ==> id == src.id)
      && (forall id :: id in after.rows ==> after.rows[id] == src || (id in reg.rows && after.rows[id] == reg.rows[id]))
  {
    hide Judge;
  }

  lemma InOrderAreReadable(from: map<string, Row>, to: map<string, Row>)
    requires Keyed(from) && AllReadable(from, to)
    ensures forall r :: r in ActiveInOrder(from) ==> !r.archived && r.readable && (r.id in to ==> to[r.id].readable)
  {
    hide Sorted;
    var ids := Sorted(ActiveIDs(from));
    forall i | 0 <= i < |ids|
      ensures ids[i] in ActiveIDs(from)
    {
      assert ids[i] in ids;
    }
  }

  /** Either all preflight checks pass and the run does what the plan says, writing nothing if dry, or
      one fails and nothing was touched. A real run follows the plan for the refusals the store gave. */
  method Run(source: Store, target: Store, dryRun: bool)
    returns (rep: Report, failure: Option<Failure>, ghost refusals: seq<Option<Conflict>>)
    requires source != target && Keyed(source.reg.rows) && Keyed(target.reg.rows)
    modifies target
    ensures failure.None? <==> AllReadable(source.reg.rows, old(target.reg.rows))
    ensures failure.Some? ==>
      rep == EMPTY_REPORT && target.reg == old(target.reg) && Accuses(failure.value, source.reg.rows, target.reg.rows)
    ensures failure.None? ==>
      var list := ActiveInOrder(source.reg.rows);
      && |refusals| == |list|
      && (if dryRun then refusals == NoRefusals(|list|) else Answered(old(target.reg), source.reg, list, refusals))
      && var p := Plan(old(target.reg), source.reg, list, refusals);
      rep == p.report && target.reg == if dryRun then old(target.reg) else p.reg
  {
    hide Judge, Keyed, Sorted, ListsActive, AllReadable, Matches, Answered, Accuses;
    rep, refusals := EMPTY_REPORT, [];
    var sourceProjects := source.ListProjects();
    var targetProjects := target.ListProjects();
    InOrderLists(source.reg.rows);
    InOrderLists(target.reg.rows);
    failure := Preflight(sourceProjects, targetProjects, source.reg.rows, target);
    if failure.Some? {
      return;
    }
    sourceProjects := SortByID(sourceProjects, source.reg.rows);
    var byID, byPath := Tables(targetProjects, target.reg.rows);
    InOrderAreReadable(source.reg.rows, target.reg.rows);
    rep, refusals := ImportAll(source, target, dryRun, sourceProjects, byID, byPath);
  }
}
