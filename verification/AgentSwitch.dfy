/** The durable states of an agent switch and the transitions the store lets through. */
module AgentSwitch {
  datatype SwitchState =
    | PreparingHandoff | StoppingSource | SourceStopped | StartingTarget | TargetReady | Delivering
    | Completed | Failed
    | Unknown(text: string)
  {
    predicate Valid() {
      !Unknown?
    }

    predicate Terminal() {
      Completed? || Failed?
    }
  }

  predicate ValidTransition(from: SwitchState, to: SwitchState) {
    if !from.Valid() || !to.Valid() || from.Terminal() then false
    else if from == to then true
    else if to == Failed then true
    else match from
      case PreparingHandoff => to == StoppingSource
      case StoppingSource => to == SourceStopped
      case SourceStopped => to == StartingTarget
      case StartingTarget => to == TargetReady
      case TargetReady => to == Delivering
      case Delivering => to == Completed
      case _ => false
  }

  predicate RequiresRecovery(state: SwitchState, targetHandle: string, startUnconfirmed: bool) {
    state == StartingTarget && targetHandle == "" && startUnconfirmed
  }

  /** A switch is created preparing its handoff, and every later write is a valid transition. */
  predicate IsHistory(states: seq<SwitchState>) {
    && states != [] && states[0] == PreparingHandoff
    && forall i :: 0 < i < |states| ==> ValidTransition(states[i - 1], states[i])
  }

  /** The phases of a switch that succeeds. */
  function Phase(k: nat): SwitchState
    requires k < 7
  {
    match k
    case 0 => PreparingHandoff
    case 1 => StoppingSource
    case 2 => SourceStopped
    case 3 => StartingTarget
    case 4 => TargetReady
    case 5 => Delivering
    case _ => Completed
  }

  /** The states in order, with amendments within one phase left out. */
  function Phases(states: seq<SwitchState>): seq<SwitchState> {
    if |states| <= 1 then states
    else
      var n := |states| - 1;
      Phases(states[..n]) + if states[n] == states[n - 1] then [] else [states[n]]
  }

  predicate ChainPrefix(p: seq<SwitchState>) {
    |p| <= 7 && forall k :: 0 <= k < |p| ==> p[k] == Phase(k)
  }

  /** A start of the chain, or an uncompleted start of it that then failed. */
  predicate Orderly(p: seq<SwitchState>) {
    && p != []
    && (ChainPrefix(p) || (1 < |p| <= 7 && p[|p| - 1] == Failed && ChainPrefix(p[..|p| - 1])))
  }

  predicate StopsWhenOver(states: seq<SwitchState>) {
    forall i :: 0 <= i < |states| - 1 ==> !states[i].Terminal()
  }

  lemma OneMorePhase(p: seq<SwitchState>, y: SwitchState)
    ensures ChainPrefix(p + [y]) <==> ChainPrefix(p) && |p| < 7 && y == Phase(|p|)
    ensures p != [] && ChainPrefix(p) ==> p[|p| - 1] == Phase(|p| - 1)
  {
    hide Phase;
    var q := p + [y];
    assert forall k :: 0 <= k < |p| ==> q[k] == p[k];
    assert q[|p|] == y;
  }

  lemma OneMore(p: seq<SwitchState>, x: SwitchState, y: SwitchState)
    requires p != [] && p[|p| - 1] == x
    ensures var q := p + if y == x then [] else [y];
      Orderly(p) && ValidTransition(x, y) <==> !x.Terminal() && Orderly(q)
  {
    hide ChainPrefix;
    var q := p + [y];
    assert q[..|q| - 1] == p && q[|q| - 1] == y && p + [] == p;
    assert p == p[..|p| - 1] + [x];
    OneMorePhase(p, y);
    OneMorePhase(p[..|p| - 1], x);
  }

  lemma {:induction false} PhasesEnd(states: seq<SwitchState>)
    requires states != []
    ensures Phases(states) != [] && Phases(states)[|Phases(states)| - 1] == states[|states| - 1]
    decreases |states|
  {
    if |states| > 1 {
      PhasesEnd(states[..|states| - 1]);
    }
  }

  /** A sequence of states can be written for a switch exactly when nothing follows a terminal state
      and, repeats removed, it is a prefix of the chain or an uncompleted prefix followed by failed. */
  lemma {:induction false} HistoriesAreOrderly(states: seq<SwitchState>)
    ensures IsHistory(states) <==> states != [] && StopsWhenOver(states) && Orderly(Phases(states))
    decreases |states|
  {
    if |states| > 1 {
      var n := |states| - 1;
      var rest := states[..n];
      HistoriesAreOrderly(rest);
      PhasesEnd(rest);
      OneMore(Phases(rest), states[n - 1], states[n]);
      HistorySteps(states);
    }
  }

  lemma HistorySteps(states: seq<SwitchState>)
    requires |states| > 1
    ensures var n := |states| - 1;
      && (IsHistory(states) <==> IsHistory(states[..n]) && ValidTransition(states[n - 1], states[n]))
      && (StopsWhenOver(states) <==> StopsWhenOver(states[..n]) && !states[n - 1].Terminal())
  {
  }

  // ---------- what that means for a switch ----------

  /** At most six changes of state; completion passed through every phase; the target is never started
      before the source's stop was confirmed; what is terminal stays so; and recovery is only ever
      asked for between a confirmed stop and a target. */
  lemma EverySwitchIsSafe(states: seq<SwitchState>)
    requires IsHistory(states)
    ensures |Phases(states)| <= 7
    ensures Completed in states ==> forall k :: 0 <= k < 7 ==> Phase(k) in states
    ensures forall i :: 0 <= i < |states| && states[i] in {StartingTarget, TargetReady, Delivering, Completed} ==>
      exists j :: 0 <= j < i && states[j] == SourceStopped
    ensures forall i :: 0 <= i < |states| && states[i].Terminal() ==> i == |states| - 1
    ensures forall i, handle, unconfirmed :: 0 <= i < |states| && RequiresRecovery(states[i], handle, unconfirmed) ==>
      !states[i].Terminal() && exists j :: 0 <= j < i && states[j] == SourceStopped
  {
    HistoriesAreOrderly(states);
    PhasesAre(states);
    forall i | 0 <= i < |states| && states[i] in {StartingTarget, TargetReady, Delivering, Completed}
      ensures exists j :: 0 <= j < i && states[j] == SourceStopped
    {
      StopComesFirst(states, i);
    }
    if Completed in states {
      CompletedHasAllPhases(Phases(states));
    }
  }

  lemma {:induction false} PhasesAre(states: seq<SwitchState>)
    ensures forall x :: x in Phases(states) <==> x in states
    decreases |states|
  {
    if |states| > 1 {
      var n := |states| - 1;
      PhasesAre(states[..n]);
      assert states == states[..n] + [states[n]];
      assert states[n - 1] == states[..n][n - 1];
    }
  }

  lemma CompletedHasAllPhases(p: seq<SwitchState>)
    requires Orderly(p) && Completed in p
    ensures forall k :: 0 <= k < 7 ==> Phase(k) in p
  {
    var i :| 0 <= i < |p| && p[i] == Completed;
    assert i == 6;
    forall k | 0 <= k < 7
      ensures Phase(k) in p
    {
      assert p[k] == Phase(k);
    }
  }

  lemma {:induction false} StopComesFirst(states: seq<SwitchState>, i: nat)
    requires IsHistory(states) && i < |states|
    requires states[i] in {StartingTarget, TargetReady, Delivering, Completed}
    ensures exists j :: 0 <= j < i && states[j] == SourceStopped
  {
    assert ValidTransition(states[i - 1], states[i]);
    if states[i - 1] != SourceStopped {
      StopComesFirst(states, i - 1);
    }
  }

  /** The target is known to run, or to have failed to. */
  predicate StartDecided(state: SwitchState) {
    state in {TargetReady, Delivering, Completed, Failed}
  }

  lemma {:induction false} PhasesOnlyGoOn(states: seq<SwitchState>, j: nat, i: nat)
    requires IsHistory(states) && j <= i < |states|
    ensures StartDecided(states[j]) ==> StartDecided(states[i])
    ensures states[j] == StartingTarget ==> states[i] == StartingTarget || StartDecided(states[i])
  {
    if j < i {
      PhasesOnlyGoOn(states, j, i - 1);
      assert ValidTransition(states[i - 1], states[i]);
    }
  }

  /** A switch asks for recovery exactly from the moment its target's start was begun until that start
      succeeded or failed, as long as no target was recorded and the start is marked unconfirmed. */
  lemma RecoveryIsAskedIff(states: seq<SwitchState>, i: nat, handle: string, unconfirmed: bool)
    requires IsHistory(states) && i < |states|
    ensures RequiresRecovery(states[i], handle, unconfirmed) <==>
      && handle == "" && unconfirmed
      && (exists j :: 0 <= j <= i && states[j] == StartingTarget)
      && forall j :: 0 <= j <= i ==> !StartDecided(states[j])
  {
    forall j | 0 <= j <= i
      ensures StartDecided(states[j]) ==> StartDecided(states[i])
      ensures states[j] == StartingTarget ==> states[i] == StartingTarget || StartDecided(states[i])
    {
      PhasesOnlyGoOn(states, j, i);
    }
  }
}
