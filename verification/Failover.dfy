/** Manual failover: which rung of a role's ladder a continuation takes, and the folds over the
    attempts of one incident that decide whether it takes one at all. */
module Failover {
  import opened Options
  import opened Strings

  const MAX_FAILOVERS_PER_INCIDENT := 8

  datatype AttemptState = Requested | PostStop | Acked | Failed {
    predicate Terminal() {
      Acked? || Failed?
    }
  }

  /** The supported harnesses; `Other` is any other text, the empty one included. */
  datatype Harness =
    | ClaudeCode | Codex | Aider | OpenCode | Grok | Droid | Amp | Agy | Crush | Cursor | Qwen | Copilot
    | Goose | Auggie | Continue | Devin | Cline | Kimi | Muse | Kiro | Kilocode | Vibe | Pi | Kimchi
    | PrimeAgent | Autohand
    | Other(name: string)
  {
    predicate IsKnown() {
      !Other?
    }
  }

  datatype Target = Target(harness: Harness, model: string)

  /** The part of an attempt that decides later continuations. */
  datatype Attempt = Attempt(seqNo: int, to: Target, rungIndex: int, generation: string, state: AttemptState) {
    function Destination(): Target {
      Trimmed(to)
    }
  }

  datatype RoleMap = RoleMap(
    schemaVersion: int,
    strictDelegation: bool,
    orchestratorRole: string,
    roles: set<string>,
    mode: string,
    ladders: map<string, seq<Target>>)
  {
    predicate IsZero() {
      && schemaVersion == 0 && !strictDelegation && roles == {} && orchestratorRole == "" && mode == ""
      && ladders == map[]
    }

    function WithDefaults(): RoleMap {
      if IsZero() then this
      else this.(
        schemaVersion := if schemaVersion == 0 then 1 else schemaVersion,
        orchestratorRole := if Trim(orchestratorRole) == "" then "orchestrator" else orchestratorRole,
        mode := if mode == "" && ladders != map[] then "manual" else mode)
    }
  }

  function Trimmed(t: Target): Target {
    Target(t.harness, Trim(t.model))
  }

  /** How the source compares targets. */
  predicate SameTarget(a: Target, b: Target) {
    a.harness == b.harness && Trim(a.model) == Trim(b.model)
  }

  // ---------- the rung ----------

  datatype Choice = Rung(target: Target, index: nat) | NoTarget | RoleRequired

  /** The ladder a role may continue on: none unless the role is in a map that is in use. */
  function Ladder(m: RoleMap, roleID: string): seq<Target> {
    if !m.IsZero() && Trim(roleID) in m.roles && Trim(roleID) in m.ladders then m.ladders[Trim(roleID)] else []
  }

  /** A rung may be taken if its harness is known, it is not where the session already is, and no
      attempt of the incident went there, whatever space stands around the names of the models. */
  predicate Eligible(rung: Target, current: Target, used: seq<Target>) {
    && rung.harness.IsKnown() && Trimmed(rung) != Trimmed(current)
    && forall u :: u in used ==> Trimmed(rung) != Trimmed(u)
  }

  predicate IsFirstEligible(ladder: seq<Target>, current: Target, used: seq<Target>, i: nat) {
    && i < |ladder| && Eligible(ladder[i], current, used)
    && forall j :: 0 <= j < i ==> !Eligible(ladder[j], current, used)
  }

  predicate NoneEligible(ladder: seq<Target>, current: Target, used: seq<Target>) {
    forall r :: r in ladder ==> !Eligible(r, current, used)
  }

  function FirstEligible(ladder: seq<Target>, current: Target, used: seq<Target>, i: nat): (r: Choice)
    requires i <= |ladder| && forall j :: 0 <= j < i ==> !Eligible(ladder[j], current, used)
    ensures r.Rung? ==> IsFirstEligible(ladder, current, used, r.index) && r.target == Trimmed(ladder[r.index])
    ensures !r.Rung? ==> r.NoTarget? && NoneEligible(ladder, current, used)
    decreases |ladder| - i
  {
    if i == |ladder| then NoTarget
    else if Eligible(ladder[i], current, used) then Rung(Trimmed(ladder[i]), i)
    else FirstEligible(ladder, current, used, i + 1)
  }

  function ChosenRung(m: RoleMap, roleID: string, current: Target, used: seq<Target>): Choice {
    if Trim(roleID) == "" then RoleRequired else FirstEligible(Ladder(m, roleID), current, used, 0)
  }

  /** The lowest rung nobody has spent, by its position in the configured ladder. */
  method NextFailoverRung(m0: RoleMap, roleID0: string, current: Target, used: seq<Target>) returns (r: Choice)
    ensures r == ChosenRung(m0, roleID0, current, used)
    ensures r.RoleRequired? <==> Trim(roleID0) == ""
    ensures r.Rung? ==>
      && IsFirstEligible(Ladder(m0, roleID0), current, used, r.index)
      && r.target == Trimmed(Ladder(m0, roleID0)[r.index])
    ensures r.NoTarget? <==> Trim(roleID0) != "" && NoneEligible(Ladder(m0, roleID0), current, used)
  {
    hide Trim;
    var roleID := Trim(roleID0);
    if roleID == "" {
      return RoleRequired;
    }
    var m := m0.WithDefaults();
    if m.IsZero() {
      return NoTarget;
    }
    if roleID !in m.roles {
      return NoTarget;
    }
    var ladder := if roleID in m.ladders then m.ladders[roleID] else [];
    assert ladder == Ladder(m0, roleID0);
    for i := 0 to |ladder|
      invariant forall j :: 0 <= j < i ==> !Eligible(ladder[j], current, used)
      invariant FirstEligible(ladder, current, used, i) == FirstEligible(ladder, current, used, 0)
    {
      var rung := ladder[i];
      if !rung.harness.IsKnown() {
        continue;
      }
      if SameTarget(rung, current) {
        continue;
      }
      var spent := IsSpent(rung, used);
      if spent {
        continue;
      }
      return Rung(Trimmed(rung), i);
    }
    r := NoTarget;
  }

  method IsSpent(rung: Target, used: seq<Target>) returns (spent: bool)
    ensures spent <==> exists u :: u in used && Trimmed(u) == Trimmed(rung)
  {
    hide Trim;
    spent := false;
    for k := 0 to |used|
      invariant !spent
      invariant forall l :: 0 <= l < k ==> Trimmed(used[l]) != Trimmed(rung)
    {
      if SameTarget(rung, used[k]) {
        assert used[k] in used;
        return true;
      }
    }
  }

  // ---------- folds over the attempts of an incident ----------

  function Latest(attempts: seq<Attempt>): Option<Attempt> {
    if attempts == [] then None
    else
      var best, a := Latest(attempts[..|attempts| - 1]), attempts[|attempts| - 1];
      if best.None? || a.seqNo > best.value.seqNo then Some(a) else best
  }

  method LatestFailoverAttempt(attempts: seq<Attempt>) returns (latest: Option<Attempt>)
    ensures latest == Latest(attempts)
    ensures latest.None? <==> attempts == []
    ensures latest.Some? ==> latest.value in attempts && forall a :: a in attempts ==> a.seqNo <= latest.value.seqNo
  {
    latest := None;
    for i := 0 to |attempts|
      invariant latest == Latest(attempts[..i])
    {
      assert attempts[..i + 1][..i] == attempts[..i];
      if latest.None? || attempts[i].seqNo > latest.value.seqNo {
        latest := Some(attempts[i]);
      }
    }
    assert attempts[..|attempts|] == attempts;
    LatestIsHighest(attempts);
  }

  lemma {:induction false} LatestIsHighest(attempts: seq<Attempt>)
    ensures Latest(attempts).None? <==> attempts == []
    ensures Latest(attempts).Some? ==>
      Latest(attempts).value in attempts && forall a :: a in attempts ==> a.seqNo <= Latest(attempts).value.seqNo
    decreases |attempts|
  {
    if attempts != [] {
      LatestIsHighest(attempts[..|attempts| - 1]);
    }
  }

  function NextSeq(attempts: seq<Attempt>): int {
    match Latest(attempts)
    case None => 1
    case Some(a) => a.seqNo + 1
  }

  function Used(attempts: seq<Attempt>): seq<Target> {
    if attempts == [] then []
    else Used(attempts[..|attempts| - 1]) + [attempts[|attempts| - 1].Destination()]
  }

  method UsedFailoverTargets(attempts: seq<Attempt>) returns (r: seq<Target>)
    ensures r == Used(attempts)
    ensures |r| == |attempts| && forall i :: 0 <= i < |r| ==> r[i] == attempts[i].Destination()
  {
    hide Trim;
    r := [];
    for i := 0 to |attempts|
      invariant r == Used(attempts[..i])
      invariant |r| == i && forall j :: 0 <= j < i ==> r[j] == attempts[j].Destination()
    {
      assert attempts[..i + 1][..i] == attempts[..i];
      r := r + [attempts[i].Destination()];
    }
    assert attempts[..|attempts|] == attempts;
  }

  function Active(attempts: seq<Attempt>): Option<Attempt> {
    match Latest(attempts)
    case None => None
    case Some(a) => if a.state.Terminal() then None else Some(a)
  }

  // ---------- order of the list ----------

  ghost predicate SeqsDistinct(attempts: seq<Attempt>) {
    forall a, b :: a in attempts && b in attempts && a.seqNo == b.seqNo ==> a == b
  }

  /** The folds do not depend on the order in which the store lists the attempts. */
  lemma FoldsIgnoreOrder(xs: seq<Attempt>, ys: seq<Attempt>)
    requires multiset(xs) == multiset(ys) && SeqsDistinct(xs)
    ensures Latest(xs) == Latest(ys) && NextSeq(xs) == NextSeq(ys) && Active(xs) == Active(ys)
    ensures |xs| == |ys| && forall t :: t in Used(xs) <==> t in Used(ys)
  {
    assert |xs| == |multiset(xs)| && |ys| == |multiset(ys)|;
    assert forall a :: a in xs <==> a in multiset(xs);
    assert forall a :: a in ys <==> a in multiset(ys);
    LatestIsHighest(xs);
    LatestIsHighest(ys);
    UsedAre(xs);
    UsedAre(ys);
  }

  lemma {:induction false} UsedAre(attempts: seq<Attempt>)
    ensures forall t :: t in Used(attempts) <==> exists a :: a in attempts && a.Destination() == t
    decreases |attempts|
  {
    hide Trim;
    if attempts != [] {
      var n := |attempts| - 1;
      UsedAre(attempts[..n]);
      assert forall a :: a in attempts <==> a in attempts[..n] || a == attempts[n];
    }
  }

  lemma {:induction false} ChoiceIgnoresOrder(ladder: seq<Target>, current: Target, us: seq<Target>, vs: seq<Target>)
    requires forall t :: t in us <==> t in vs
    ensures FirstEligible(ladder, current, us, 0) == FirstEligible(ladder, current, vs, 0)
  {
    hide Trimmed;
    var q, r := FirstEligible(ladder, current, us, 0), FirstEligible(ladder, current, vs, 0);
    assert forall t :: Eligible(t, current, us) <==> Eligible(t, current, vs);
    assert q.Rung? ==> ladder[q.index] in ladder;
    assert r.Rung? ==> ladder[r.index] in ladder;
    assert q.Rung? && r.Rung? ==> !(q.index < r.index) && !(r.index < q.index);
  }
}
