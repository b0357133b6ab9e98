/** The registered project the current directory belongs to: a single pass that keeps the longest
    matching path and whether another project shares it. */
module ProjectLookup {
  import opened Options

  /** An absolute path after `filepath.Clean`, as its components. */
  type Path = seq<string>

  predicate Clean(p: Path) {
    forall c :: c in p ==> c != "" && c != "." && c != ".." && '/' !in c
  }

  function Joined(cs: seq<string>): string {
    if cs == [] then "" else if |cs| == 1 then cs[0] else cs[0] + "/" + Joined(cs[1..])
  }

  /** The path's text; its length is what the search compares. */
  function Text(p: Path): string {
    "/" + Joined(p)
  }

  // ---------- containment ----------

  function Common(a: Path, b: Path): (k: nat)
    ensures k <= |a| && k <= |b| && a[..k] == b[..k]
    ensures k < |a| && k < |b| ==> a[k] != b[k]
  {
    if a == [] || b == [] || a[0] != b[0] then 0 else 1 + Common(a[1..], b[1..])
  }

  function Ups(n: nat): seq<string> {
    if n == 0 then [] else [".."] + Ups(n - 1)
  }

  /** `filepath.Rel`: up out of the root, then down to the child. */
  function Rel(root: Path, child: Path): string {
    if root == child then "."
    else Joined(Ups(|root| - Common(root, child)) + child[Common(root, child)..])
  }

  predicate PathContains(root: Path, child: Path) {
    || root == child
    || (Rel(root, child) != "." && Rel(root, child) != ".." && !("../" <= Rel(root, child)))
  }

  /** The test on the text of the relative path decides whether the root's components start the
      child's; a directory whose name merely begins with two dots is inside. */
  lemma ContainsIsPrefix(root: Path, child: Path)
    requires Clean(child)
    ensures PathContains(root, child) <==> root <= child
  {
    var k := Common(root, child);
    if root == child {
    } else if k == |root| {
      assert Ups(0) + child[k..] == child[k..] && child[k] in child;
      DownIsNotUp(child[k..]);
    } else {
      var rest := Ups(|root| - k - 1) + child[k..];
      assert Ups(|root| - k) + child[k..] == [".."] + rest;
      assert ([".."] + rest)[1..] == rest;
      NotPrefix(root, child, k);
    }
  }

  lemma NotPrefix(a: Path, b: Path, k: nat)
    requires k < |a| && (k < |b| ==> a[k] != b[k])
    ensures !(a <= b)
  {
  }

  lemma DownIsNotUp(cs: seq<string>)
    requires cs != [] && cs[0] != "" && cs[0] != "." && cs[0] != ".." && '/' !in cs[0]
    ensures Joined(cs) != "." && Joined(cs) != ".." && !("../" <= Joined(cs))
  {
    var c, s := cs[0], Joined(cs);
    assert forall i :: 0 <= i < |c| ==> s[i] == c[i] && c[i] in c;
    assert |cs| > 1 ==> |s| > |c| && s[|c|] == '/';
    assert |cs| == 1 ==> s == c;
    assert |c| == 1 && |s| > 1 ==> s[1] == '/';
    assert |c| > 2 ==> s[2] != '/';
    assert |c| == 2 ==> c == [c[0], c[1]];
    assert |c| == 1 ==> c == [c[0]];
  }

  /** Of two paths one of which continues the other the longer text is the deeper one. */
  lemma {:induction false} DeeperIsLonger(a: Path, b: Path)
    requires Clean(b) && a <= b && a != b
    ensures |Text(a)| < |Text(b)|
  {
    assert b[0] in b;
    if a != [] {
      assert forall c :: c in b[1..] ==> c in b;
      assert a[1..] <= b[1..];
      DeeperIsLonger(a[1..], b[1..]);
    }
  }

  lemma LengthsOrderPrefixes(a: Path, b: Path, cwd: Path)
    requires Clean(cwd) && a <= cwd && b <= cwd
    ensures |Text(a)| < |Text(b)| <==> |a| < |b|
    ensures |Text(a)| == |Text(b)| <==> a == b
  {
    assert a == cwd[..|a|] && b == cwd[..|b|];
    if |a| < |b| {
      assert forall c :: c in b ==> c in cwd;
      DeeperIsLonger(a, b);
    } else if |b| < |a| {
      assert forall c :: c in a ==> c in cwd;
      DeeperIsLonger(b, a);
    }
  }

  // ---------- the search ----------

  datatype Location = NoPath | Unusable | At(path: Path)

  datatype Project = Project(id: string, kind: string, location: Location)

  datatype Outcome = FetchFailed | Ambiguous | Found(project: Project) | NotFound

  /** What the daemon answers for each listed id; None is a failed request. */
  type Registry = map<string, Option<Project>>

  predicate Answers(ids: seq<string>, reg: Registry) {
    forall id :: id in ids ==> id in reg
  }

  predicate Holds(o: Option<Project>, cwd: Path) {
    o.Some? && o.value.location.At? && o.value.location.path <= cwd
  }

  function PathOf(o: Option<Project>): Path
    requires o.Some? && o.value.location.At?
  {
    o.value.location.path
  }

  ghost predicate AnyHolds(ids: seq<string>, reg: Registry, cwd: Path)
    requires Answers(ids, reg)
  {
    exists i :: 0 <= i < |ids| && Holds(reg[ids[i]], cwd)
  }

  /** The i-th project holds the directory and no listed one does more deeply. */
  ghost predicate IsDeepest(ids: seq<string>, reg: Registry, cwd: Path, i: nat): (b: bool)
    requires Answers(ids, reg)
    ensures b ==> i < |ids| && Holds(reg[ids[i]], cwd)
  {
    && i < |ids| && Holds(reg[ids[i]], cwd)
    && forall j :: 0 <= j < |ids| && Holds(reg[ids[j]], cwd) ==> |PathOf(reg[ids[j]])| <= |PathOf(reg[ids[i]])|
  }

  ghost predicate Shared(ids: seq<string>, reg: Registry, cwd: Path, i: nat)
    requires Answers(ids, reg) && i < |ids| && Holds(reg[ids[i]], cwd)
  {
    exists j :: 0 <= j < |ids| && j != i && Holds(reg[ids[j]], cwd) && PathOf(reg[ids[j]]) == PathOf(reg[ids[i]])
  }

  predicate IsScratch(p: Project) {
    p.id == "scratch" && p.kind == "scratch"
  }

  /** The promised outcome, without reference to any order of search. */
  ghost predicate IsOutcome(ids: seq<string>, reg: Registry, cwd: Path, r: Outcome)
    requires Answers(ids, reg)
  {
    if exists i :: 0 <= i < |ids| && reg[ids[i]].None? then r == FetchFailed
    else if !AnyHolds(ids, reg, cwd) then
      r == if |ids| == 1 && IsScratch(reg[ids[0]].value) then Found(reg[ids[0]].value) else NotFound
    else
      exists i: nat :: IsDeepest(ids, reg, cwd, i)
        && r == if Shared(ids, reg, cwd, i) then Ambiguous else Found(reg[ids[i]].value)
  }

  lemma NothingHolds(reg: Registry, cwd: Path)
    ensures !AnyHolds([], reg, cwd)
  {
  }

  lemma SkipOne(ids: seq<string>, reg: Registry, cwd: Path, k: nat, at: nat)
    requires Answers(ids, reg) && k < |ids| && !Holds(reg[ids[k]], cwd)
    ensures AnyHolds(ids[..k + 1], reg, cwd) <==> AnyHolds(ids[..k], reg, cwd)
    ensures IsDeepest(ids[..k], reg, cwd, at) ==>
      && IsDeepest(ids[..k + 1], reg, cwd, at)
      && (Shared(ids[..k + 1], reg, cwd, at) <==> Shared(ids[..k], reg, cwd, at))
  {
    hide Holds;
    var xs, ys := ids[..k], ids[..k + 1];
    assert forall i :: 0 <= i < k ==> xs[i] == ys[i];
    assert ys[k] == ids[k];
    assert forall i :: 0 <= i <= k && Holds(reg[ys[i]], cwd) ==> i < k && Holds(reg[xs[i]], cwd);
  }

  lemma TakeOne(ids: seq<string>, reg: Registry, cwd: Path, k: nat, at: nat)
    requires Answers(ids, reg) && k < |ids| && Holds(reg[ids[k]], cwd) && Clean(cwd)
    ensures AnyHolds(ids[..k + 1], reg, cwd)
    ensures !AnyHolds(ids[..k], reg, cwd) ==>
      IsDeepest(ids[..k + 1], reg, cwd, k) && !Shared(ids[..k + 1], reg, cwd, k)
    ensures IsDeepest(ids[..k], reg, cwd, at) ==>
      var known, found := |Text(PathOf(reg[ids[at]]))|, |Text(PathOf(reg[ids[k]]))|;
      && (found > known ==> IsDeepest(ids[..k + 1], reg, cwd, k) && !Shared(ids[..k + 1], reg, cwd, k))
      && (found == known ==> IsDeepest(ids[..k + 1], reg, cwd, at) && Shared(ids[..k + 1], reg, cwd, at))
      && (found < known ==>
            && IsDeepest(ids[..k + 1], reg, cwd, at)
            && (Shared(ids[..k + 1], reg, cwd, at) <==> Shared(ids[..k], reg, cwd, at)))
  {
    hide Text, Clean;
    var xs, ys := ids[..k], ids[..k + 1];
    assert forall i :: 0 <= i < k ==> xs[i] == ys[i];
    assert ys[k] == ids[k];
    if IsDeepest(xs, reg, cwd, at) {
      LengthsOrderPrefixes(PathOf(reg[ids[at]]), PathOf(reg[ids[k]]), cwd);
      LengthsOrderPrefixes(PathOf(reg[ids[k]]), PathOf(reg[ids[at]]), cwd);
      assert |PathOf(reg[ids[k]])| > |PathOf(reg[ids[at]])| ==> !Shared(ys, reg, cwd, k);
    }
  }

  method ResolveProjectFromCWD(ids: seq<string>, reg: Registry, cwd: Path) returns (r: Outcome)
    requires Answers(ids, reg) && Clean(cwd)
    ensures IsOutcome(ids, reg, cwd, r)
  {
    hide PathContains, Text, Clean, AnyHolds, IsDeepest, Shared;
    var best: Option<Project> := None;
    var bestLen := -1;
    var ambiguous := false;
    var details: map<string, Project> := map[];
    ghost var at := 0;
    assert !AnyHolds(ids[..0], reg, cwd) by {
      NothingHolds(reg, cwd);
    }
    for k := 0 to |ids|
      invariant forall i :: 0 <= i < k ==> reg[ids[i]].Some? && ids[i] in details && details[ids[i]] == reg[ids[i]].value
      invariant bestLen == -1 <==> !AnyHolds(ids[..k], reg, cwd)
      invariant bestLen >= -1
      invariant bestLen != -1 ==>
        && IsDeepest(ids[..k], reg, cwd, at) && best == reg[ids[at]] && bestLen == |Text(PathOf(best))|
        && (ambiguous <==> Shared(ids[..k], reg, cwd, at))
    {
      ghost var before := ids[..k];
      var answer := reg[ids[k]];
      if answer.None? {
        return FetchFailed;
      }
      var project := answer.value;
      details := details[ids[k] := project];
      if !project.location.At? {
        SkipOne(ids, reg, cwd, k, at);
        continue;
      }
      var projectPath := project.location.path;
      ContainsIsPrefix(projectPath, cwd);
      if !PathContains(projectPath, cwd) {
        SkipOne(ids, reg, cwd, k, at);
        continue;
      }
      TakeOne(ids, reg, cwd, k, at);
      var pathLen := |Text(projectPath)|;
      if pathLen > bestLen {
        best := Some(project);
        bestLen := pathLen;
        ambiguous := false;
        at := k;
      } else if pathLen == bestLen {
        ambiguous := true;
      }
    }
    assert ids[..|ids|] == ids;
    if bestLen == -1 {
      if |ids| == 1 && IsScratch(details[ids[0]]) {
        return Found(details[ids[0]]);
      }
      return NotFound;
    }
    if ambiguous {
      return Ambiguous;
    }
    return Found(best.value);
  }

  // ---------- the outcome is one, in any order ----------

  predicate Distinct(ids: seq<string>) {
    forall i, j :: 0 <= i < j < |ids| ==> ids[i] != ids[j]
  }

  lemma SameDeepest(xs: seq<string>, ys: seq<string>, reg: Registry, cwd: Path, i: nat, j: nat)
    requires Answers(xs, reg) && Answers(ys, reg)
    requires Distinct(xs) && Distinct(ys) && forall id :: id in xs <==> id in ys
    requires IsDeepest(xs, reg, cwd, i) && IsDeepest(ys, reg, cwd, j)
    ensures PathOf(reg[xs[i]]) == PathOf(reg[ys[j]])
    ensures Shared(xs, reg, cwd, i) || Shared(ys, reg, cwd, j) ==> Shared(xs, reg, cwd, i) && Shared(ys, reg, cwd, j)
    ensures !Shared(xs, reg, cwd, i) ==> xs[i] == ys[j]
  {
    var i', j' := IndexOf(ys[j], xs), IndexOf(xs[i], ys);
    assert PathOf(reg[xs[i]]) == cwd[..|PathOf(reg[xs[i]])|];
    if Shared(xs, reg, cwd, i) {
      SharedCarries(xs, ys, reg, cwd, i, j);
    }
    if Shared(ys, reg, cwd, j) {
      SharedCarries(ys, xs, reg, cwd, j, i);
    }
  }

  function IndexOf(id: string, ids: seq<string>): (i: nat)
    requires id in ids
    ensures i < |ids| && ids[i] == id
  {
    if ids[0] == id then 0 else 1 + IndexOf(id, ids[1..])
  }

  lemma SharedCarries(xs: seq<string>, ys: seq<string>, reg: Registry, cwd: Path, i: nat, j: nat)
    requires Answers(xs, reg) && Answers(ys, reg) && Distinct(xs) && forall id :: id in xs ==> id in ys
    requires i < |xs| && Holds(reg[xs[i]], cwd) && j < |ys| && Holds(reg[ys[j]], cwd)
    requires PathOf(reg[xs[i]]) == PathOf(reg[ys[j]]) && Shared(xs, reg, cwd, i)
    ensures Shared(ys, reg, cwd, j)
  {
    var k :| 0 <= k < |xs| && k != i && Holds(reg[xs[k]], cwd) && PathOf(reg[xs[k]]) == PathOf(reg[xs[i]]);
    var other := if xs[i] == ys[j] then xs[k] else xs[i];
    assert xs[i] != xs[k];
    assert ys[IndexOf(other, ys)] == other;
  }

  lemma SomeCarries(xs: seq<string>, ys: seq<string>, reg: Registry, cwd: Path)
    requires Answers(xs, reg) && Answers(ys, reg) && forall id :: id in xs ==> id in ys
    ensures AnyHolds(xs, reg, cwd) ==> AnyHolds(ys, reg, cwd)
    ensures (exists i :: 0 <= i < |xs| && reg[xs[i]].None?) ==> exists i :: 0 <= i < |ys| && reg[ys[i]].None?
  {
    hide Holds;
    assert forall i :: 0 <= i < |xs| ==> ys[IndexOf(xs[i], ys)] == xs[i];
  }

  /** With distinct ids, as a registry's primary keys are, there is one outcome, in whatever order the
      projects are listed: sorting them first only decides which failed request is named. */
  lemma OutcomeIgnoresOrder(xs: seq<string>, ys: seq<string>, reg: Registry, cwd: Path, q: Outcome, r: Outcome)
    requires Answers(xs, reg) && Answers(ys, reg)
    requires Distinct(xs) && Distinct(ys) && |xs| == |ys| && forall id :: id in xs <==> id in ys
    requires IsOutcome(xs, reg, cwd, q) && IsOutcome(ys, reg, cwd, r)
    ensures q == r
  {
    hide IsDeepest, Shared, Holds, AnyHolds, Distinct;
    SomeCarries(xs, ys, reg, cwd);
    SomeCarries(ys, xs, reg, cwd);
    assert |xs| == 1 ==> ys[0] in xs;
    if (forall i :: 0 <= i < |xs| ==> reg[xs[i]].Some?) && AnyHolds(xs, reg, cwd) {
      var i: nat :| IsDeepest(xs, reg, cwd, i)
        && q == if Shared(xs, reg, cwd, i) then Ambiguous else Found(reg[xs[i]].value);
      var j: nat :| IsDeepest(ys, reg, cwd, j)
        && r == if Shared(ys, reg, cwd, j) then Ambiguous else Found(reg[ys[j]].value);
      SameDeepest(xs, ys, reg, cwd, i, j);
    }
  }
}
