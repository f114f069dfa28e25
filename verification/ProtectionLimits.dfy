/** A run in which a failed `vmap` makes the hypotheses of `Protection` matter. */
module ProtectionLimits {
  import opened Wrappers
  import opened SafetyProtocol
  import opened Protection

  // ---- When vmap failed ----

  /** The states of a run that protects a page without vmap alias and then writes to it. */
  function StrandedState(s: State, v: Word, k: nat): State {
    var ro := s.(direct := false);
    match k
    case 0 => s
    case 1 => s.(owner := Some(0), inside := map[0 := ProtectDirect(true)])
    case 2 => ro.(owner := Some(0), inside := map[0 := ProtectVmalloc(true)])
    case 3 => ro.(owner := Some(0), inside := map[0 := ProtectFlag(true, true)])
    case 4 => ro.(owner := Some(0), inside := map[0 := Leaving])
    case 5 => ro
    case 6 => ro.(owner := Some(1), inside := map[1 := WriteReadFlag(v)])
    case 7 => ro.(owner := Some(1), inside := map[1 := WriteStore(v, false)])
    case _ => ro.(owner := Some(1), inside := map[1 := Dead])
  }

  function StrandedEvents(v: Word): seq<Event> {
    [ Lock(0, SetProtection(true)), Act(0, true), Act(0, true), Act(0, true), Unlock(0),
      Lock(1, SafeWrite(v)), Act(1, true), Act(1, true) ]
  }

  ghost predicate StrandedStep(s: State, v: Word, k: nat)
    requires k < 8
  {
    var before, e := StrandedState(s, v, k), StrandedEvents(v)[k];
    Enabled(before, e) && Step(before, e) == StrandedState(s, v, k + 1) && Complies(before, e, true)
  }

  lemma StrandedSteps(s: State, v: Word, k: nat)
    requires Initial(s) && s.vmalloc == Absent(false) && k < 8
    ensures StrandedStep(s, v, k)
  {
    var n, m := Step(StrandedState(s, v, k), StrandedEvents(v)[k]), StrandedState(s, v, k + 1);
    if k < 4 {
      assert n.inside == m.inside;
    } else {
      assert n.inside == m.inside;
    }
  }

  /** The condition of `FlagMatchesLeaves`, `UnloadRestoresLeaves` and `WriteDiesIffStranded` is
      met by a run without owner-clears: the page is left read-only with the flag clear, would be
      freed like that, and kills the next authorised write, which keeps the mutex. */
  lemma MissingAliasStrandsPage(s: State, v: Word) returns (r: Trace)
    requires Initial(s) && s.vmalloc == Absent(false)
    ensures CompliantRun(r, true) && r.states[0] == s && |r.events| == 8
    ensures var rest := r.states[5];
            rest.inside == map[] && !rest.flag && !rest.direct && LeavesAtFree(rest, true, true) == (false, s.vmalloc)
    ensures r.events[5] == Lock(1, SafeWrite(v)) && r.states[8].owner == Some(1) && r.states[8].inside == map[1 := Dead]
  {
    hide Step, Enabled, Complies;
    r := Trace(seq(9, k requires 0 <= k < 9 => StrandedState(s, v, k)), StrandedEvents(v));
    forall k: nat | k < 8
      ensures StepAt(r, k) && Complies(r.states[k], r.events[k], true)
    {
      StrandedSteps(s, v, k);
    }
  }
}
