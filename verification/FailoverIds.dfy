/** The ids composed for failover attempts and lifecycle ledger rows. */
module FailoverIds {
  import opened Strings

  datatype Phase = RequestedPhase | PreStopPhase | PostStopPhase | TargetAckPhase | FailedPhase

  function PhaseText(p: Phase): string {
    match p
    case RequestedPhase => "requested"
    case PreStopPhase => "pre_stop"
    case PostStopPhase => "post_stop"
    case TargetAckPhase => "target_ack"
    case FailedPhase => "failed"
  }

  const KIND := "failover"

  function AttemptID(session: string, incident: string, seqNo: int): string {
    session + ":" + Trim(incident) + ":" + Itoa(seqNo)
  }

  function LedgerID(session: string, incident: string, seqNo: int, phase: Phase): string {
    session + ":" + Trim(incident) + ":" + KIND + ":" + Itoa(seqNo) + ":" + PhaseText(phase)
  }

  /** The ledger id the switch saga composes. */
  function SwitchLedgerID(session: string, generation: string, phase: Phase): string {
    session + ":" + generation + ":" + PhaseText(phase)
  }

  predicate ColonFree(s: string) {
    ':' !in s
  }

  /** What follows the last colon is determined, and so is what precedes it. */
  lemma LastColonSplits(a: string, x: string, b: string, y: string)
    requires ColonFree(x) && ColonFree(y)
    requires a + ":" + x == b + ":" + y
    ensures a == b && x == y
  {
    var s := a + ":" + x;
    assert s[|a|] == ':' && s[|b|] == ':';
    assert forall k :: |a| < k < |s| ==> s[k] == x[k - |a| - 1];
    assert forall k :: |b| < k < |s| ==> s[k] == y[k - |b| - 1];
    assert s[..|a|] == a && s[..|b|] == b;
    assert s[|a| + 1..] == x && s[|b| + 1..] == y;
  }

  lemma PartsAreColonFree(n: int, p: Phase)
    ensures ColonFree(Itoa(n)) && ColonFree(PhaseText(p)) && ColonFree(KIND)
  {
    ItoaSign(n);
  }

  lemma PhaseTextInjective(p: Phase, q: Phase)
    requires PhaseText(p) == PhaseText(q)
    ensures p == q
  {
    assert |PhaseText(p)| == |PhaseText(q)| && PhaseText(p)[1] == PhaseText(q)[1];
  }

  lemma {:induction false} TrimKeepsColonFree(s: string)
    requires ColonFree(s)
    ensures ColonFree(Trim(s))
  {
    TrimLeftIs(s);
    TrimRightIs(TrimLeft(s));
    assert ColonFree(TrimLeft(s));
  }

  /** An attempt id determines session, trimmed incident and sequence number, whatever the session
      id, as long as incident ids hold no colon. */
  lemma AttemptIDIsUnique(s: string, i: string, m: int, t: string, j: string, n: int)
    requires ColonFree(i) && ColonFree(j)
    requires AttemptID(s, i, m) == AttemptID(t, j, n)
    ensures s == t && Trim(i) == Trim(j) && m == n
  {
    hide Trim, Itoa;
    PartsAreColonFree(m, FailedPhase);
    PartsAreColonFree(n, FailedPhase);
    TrimKeepsColonFree(i);
    TrimKeepsColonFree(j);
    LastColonSplits(s + ":" + Trim(i), Itoa(m), t + ":" + Trim(j), Itoa(n));
    LastColonSplits(s, Trim(i), t, Trim(j));
    ItoaInjective(m, n);
  }

  /** A ledger id determines session, trimmed incident, sequence number and phase. */
  lemma LedgerIDIsUnique(s: string, i: string, m: int, p: Phase, t: string, j: string, n: int, q: Phase)
    requires ColonFree(i) && ColonFree(j)
    requires LedgerID(s, i, m, p) == LedgerID(t, j, n, q)
    ensures s == t && Trim(i) == Trim(j) && m == n && p == q
  {
    hide Trim, Itoa, PhaseText;
    PartsAreColonFree(m, p);
    PartsAreColonFree(n, q);
    TrimKeepsColonFree(i);
    TrimKeepsColonFree(j);
    LastColonSplits(s + ":" + Trim(i) + ":" + KIND + ":" + Itoa(m), PhaseText(p), t + ":" + Trim(j) + ":" + KIND + ":" + Itoa(n), PhaseText(q));
    LastColonSplits(s + ":" + Trim(i) + ":" + KIND, Itoa(m), t + ":" + Trim(j) + ":" + KIND, Itoa(n));
    LastColonSplits(s + ":" + Trim(i), KIND, t + ":" + Trim(j), KIND);
    LastColonSplits(s, Trim(i), t, Trim(j));
    ItoaInjective(m, n);
    PhaseTextInjective(p, q);
  }

  /** A failover ledger id equals a switch ledger id exactly when the phases agree and the switch's
      session and generation spell out the failover's session, incident, kind and number. */
  lemma LedgerIDsCollideIff(s: string, i: string, m: int, p: Phase, t: string, g: string, q: Phase)
    ensures LedgerID(s, i, m, p) == SwitchLedgerID(t, g, q) <==>
      p == q && t + ":" + g == s + ":" + Trim(i) + ":" + KIND + ":" + Itoa(m)
  {
    hide Trim, Itoa, PhaseText;
    PartsAreColonFree(m, p);
    PartsAreColonFree(m, q);
    if LedgerID(s, i, m, p) == SwitchLedgerID(t, g, q) {
      LastColonSplits(s + ":" + Trim(i) + ":" + KIND + ":" + Itoa(m), PhaseText(p), t + ":" + g, PhaseText(q));
      PhaseTextInjective(p, q);
    }
  }

  /** So with colon-free session and generation ids no two of them are ever equal. */
  lemma LedgersNeverCollide(s: string, i: string, m: int, p: Phase, t: string, g: string, q: Phase)
    requires ColonFree(t) && ColonFree(g)
    ensures LedgerID(s, i, m, p) != SwitchLedgerID(t, g, q)
  {
    hide Trim, Itoa, PhaseText;
    LedgerIDsCollideIff(s, i, m, p, t, g, q);
    PartsAreColonFree(m, p);
    var front := s + ":" + Trim(i) + ":" + KIND;
    assert front[|s|] in front;
    if t + ":" + g == front + ":" + Itoa(m) {
      LastColonSplits(t, g, front, Itoa(m));
    }
  }
}
