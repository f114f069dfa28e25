/** The two unsynchronised reads behind one status report. */
module StatusReads {
  import opened SafetyProtocol
  import opened HoldWindows

  /** Report `rd` reads the vmap alias at `i` and the direct alias at `j`. */
  ghost predicate ReportSpan(r: Trace, rd: nat, i: nat, j: nat)
    requires i < j < |r.events| < |r.states|
  {
    && r.events[i] == ReportVmalloc(rd) && r.events[j] == ReportDirect(rd)
    && forall k | i < k < j :: r.events[k] != ReportDirect(rd)
  }

  lemma {:induction false} ReportKeepsFirstValue(r: Trace, rd: nat, i: nat, j: nat, k: nat)
    requires IsRun(r) && i < k <= j < |r.events| && ReportSpan(r, rd, i, j)
    ensures rd in r.states[k].reports
    ensures r.states[k].reports[rd] == if r.states[i].vmalloc.Leaf? then r.states[i].word else 0
  {
    assert StepAt(r, k - 1);
    if k > i + 1 {
      ReportKeepsFirstValue(r, rd, i, j, k - 1);
    }
  }

  /** If the vmap alias exists and the two values of one report differ, a store landed between
      its two unsynchronised reads: both aliases show every store. */
  lemma DifferingReportHasStore(r: Trace, rd: nat, i: nat, j: nat) returns (k: nat)
    requires IsRun(r) && i < j < |r.events| && ReportSpan(r, rd, i, j)
    requires r.states[i].vmalloc.Leaf?
    requires rd in r.states[j].reports && r.states[j].reports[rd] != r.states[j].word
    ensures i < k < j && StoreOf(r.states[k], r.events[k]).Some?
  {
    hide Step, Enabled, StoreOf;
    ReportKeepsFirstValue(r, rd, i, j, j);
    k := ChangeHasStore(r, i, j);
    if k == i {
      ReportStoresNothing(r.states[i], rd);
    }
  }

  lemma ReportStoresNothing(s: State, rd: nat)
    ensures StoreOf(s, ReportVmalloc(rd)).None?
  {
  }

  /** Without the vmap alias the first value is always 0, so the values differ exactly when the
      word is not 0, stores or no stores. */
  lemma ReportWithoutAlias(r: Trace, rd: nat, i: nat, j: nat)
    requires IsRun(r) && i < j < |r.events| && ReportSpan(r, rd, i, j)
    requires r.states[i].vmalloc.Absent?
    ensures rd in r.states[j].reports
    ensures r.states[j].reports[rd] != r.states[j].word <==> r.states[j].word != 0
    ensures rd !in r.states[j + 1].reports
  {
    hide Enabled;
    ReportKeepsFirstValue(r, rd, i, j, j);
    assert StepAt(r, j);
  }
}
