/**
 Exactly which owner-clears leave the protection flag truthful: those that land when no live task
 is inside. A clear that hits a live task, whatever it is doing, lets two authorised operations
 overlap so that the flag ends up clear over a read-only vmap leaf.
 */
module FlagTruth {
  import opened Wrappers
  import opened SafetyProtocol
  import opened Exclusion
  import opened Protection

  /** The flag says whether the vmap leaf is read-only. */
  predicate Truthful(s: State) {
    s.flag <==> s.vmalloc == Leaf(false)
  }

  /** It does in every state with no authorised operation in progress. */
  ghost predicate AlwaysTruthful(r: Trace) {
    forall k | 0 <= k < |r.states| && Idle(r.states[k]) :: Truthful(r.states[k])
  }

  /** Unloading from such a state frees the page with both aliases writable. */
  ghost predicate AlwaysFreed(r: Trace, d: bool) {
    forall k | 0 <= k < |r.states| && Idle(r.states[k]) :: LeavesAtFree(r.states[k], d, true) == (true, Leaf(true))
  }

  /** `n` is `r` followed by further events, none of them an owner-clear. */
  ghost predicate Continues(n: Trace, r: Trace, d: bool) {
    && ComplyingRun(n, d) && |r.states| == |r.events| + 1 && |r.events| <= |n.events| == |n.states| - 1
    && n.states[..|r.states|] == r.states && n.events[..|r.events|] == r.events && NoClears(n, |r.events|)
  }

  function Prefix(r: Trace, k: nat): Trace
    requires k <= |r.events| < |r.states|
  {
    Trace(r.states[..k + 1], r.events[..k])
  }

  // ---- Harmless clears ----

  /** While all clears are tame the flag is truthful and unloading frees a writable page. */
  lemma TameIsTruthful(r: Trace, d: bool)
    requires ComplyingRun(r, d) && r.states[0].vmalloc.Leaf? && TameClears(r, |r.events|)
    ensures AlwaysTruthful(r) && AlwaysFreed(r, d)
  {
    hide Step, Enabled, Complies, Idle, LeavesAtFree;
    TameIsOrderly(r, d);
    forall k | 0 <= k < |r.states| && Idle(r.states[k])
      ensures Truthful(r.states[k]) && LeavesAtFree(r.states[k], d, true) == (true, Leaf(true))
    {
      FlagMatchesLeaves(r, d, k);
      UnloadRestoresLeaves(r, d, k);
    }
  }

  lemma TameContinues(n: Trace, r: Trace, d: bool)
    requires Continues(n, r, d) && TameClears(r, |r.events|)
    ensures TameClears(n, |n.events|)
  {
    hide ComplyingRun, NobodyLive;
    forall k | 0 <= k < |n.events| && n.events[k].RogueClear?
      ensures NobodyLive(n.states[k])
    {
      assert n.events[k] == n.events[..|r.events|][k] == r.events[k];
      assert n.states[k] == n.states[..|r.states|][k] == r.states[k];
    }
  }

  // ---- Extending a run ----

  function End(r: Trace): State
    requires r.states != []
  {
    r.states[|r.states| - 1]
  }

  lemma ContinuesItself(r: Trace, d: bool)
    requires ComplyingRun(r, d)
    ensures Continues(r, r, d)
  {
  }

  /** One more event. */
  lemma Go(n: Trace, r: Trace, d: bool, e: Event) returns (m: Trace)
    requires Continues(n, r, d) && Enabled(End(n), e) && Complies(End(n), e, d) && !e.RogueClear?
    ensures Continues(m, r, d) && End(m) == Step(End(n), e) && m == Extend(n, e)
  {
    hide Step, Enabled, Complies;
    m := Extend(n, e);
    ExtendIsRun(n, e);
    assert m.states[..|r.states|] == n.states[..|r.states|] && m.events[..|r.events|] == n.events[..|r.events|];
    forall k | 0 <= k < |m.events|
      ensures Complies(m.states[k], m.events[k], d)
    {
      assert m.states[k] == n.states[k];
      assert k < |n.events| ==> m.events[k] == n.events[k];
    }
  }

  /** `safety_mem_set_protection` by `u` has done all but set the flag and unlock. */
  function Toggled(s: State, u: Task, enable: bool, d: bool): State {
    s.(owner := Some(u), inside := s.inside[u := ProtectFlag(enable, true)],
       direct := if d then !enable else s.direct, vmalloc := Leaf(!enable))
  }

  lemma ToggleLock(s: State, u: Task, enable: bool)
    requires s.owner == None && u !in s.inside
    ensures Enabled(s, Lock(u, SetProtection(enable)))
    ensures Step(s, Lock(u, SetProtection(enable))) ==
            s.(owner := Some(u), inside := s.inside[u := ProtectDirect(enable)])
  {
  }

  lemma ToggleDirect(s: State, u: Task, enable: bool, d: bool)
    requires u in s.inside && s.inside[u] == ProtectDirect(enable)
    ensures Enabled(s, Act(u, d)) && Complies(s, Act(u, d), d)
    ensures Step(s, Act(u, d)) ==
            s.(inside := s.inside[u := ProtectVmalloc(enable)], direct := if d then !enable else s.direct)
  {
  }

  lemma ToggleVmalloc(s: State, u: Task, enable: bool, d: bool)
    requires u in s.inside && s.inside[u] == ProtectVmalloc(enable) && s.vmalloc.Leaf?
    ensures Enabled(s, Act(u, true)) && Complies(s, Act(u, true), d)
    ensures Step(s, Act(u, true)) == s.(inside := s.inside[u := ProtectFlag(enable, true)], vmalloc := Leaf(!enable))
  {
  }

  lemma Toggle(n: Trace, r: Trace, d: bool, u: Task, enable: bool) returns (m: Trace)
    requires Continues(n, r, d) && End(n).owner == None && u !in End(n).inside && End(n).vmalloc.Leaf?
    ensures Continues(m, r, d) && End(m) == Toggled(End(n), u, enable, d)
  {
    hide Step, Enabled, Complies, Toggled, ComplyingRun;
    ToggleLock(End(n), u, enable);
    LocksComply(End(n), u, SetProtection(enable), d);
    m := Go(n, r, d, Lock(u, SetProtection(enable)));
    ToggleDirect(End(m), u, enable, d);
    m := Go(m, r, d, Act(u, d));
    ToggleVmalloc(End(m), u, enable, d);
    m := Go(m, r, d, Act(u, true));
    ToggledState(End(n), u, enable, d);
  }

  lemma ToggledState(s: State, u: Task, enable: bool, d: bool)
    ensures Toggled(s, u, enable, d) ==
            s.(owner := Some(u), direct := if d then !enable else s.direct, vmalloc := Leaf(!enable),
               inside := s.inside[u := ProtectDirect(enable)][u := ProtectVmalloc(enable)]
                                 [u := ProtectFlag(enable, true)])
  {
  }

  lemma LocksComply(s: State, t: Task, entry: Entry, d: bool)
    ensures Complies(s, Lock(t, entry), d) && Complies(s, Unlock(t), d)
  {
  }

  /** The rest of it. */
  function Flagging(s: State, u: Task, enable: bool): State {
    s.(owner := None, inside := s.inside - {u}, flag := enable && s.vmalloc.WalkedReadOnly())
  }

  lemma FlagSteps(s: State, u: Task, enable: bool, d: bool)
    requires u in s.inside && s.inside[u] == ProtectFlag(enable, true)
    ensures var s1 := Step(s, Act(u, true));
            && Enabled(s, Act(u, true)) && Complies(s, Act(u, true), d)
            && Enabled(s1, Unlock(u)) && Step(s1, Unlock(u)) == Flagging(s, u, enable)
  {
    var s1 := Step(s, Act(u, true));
    assert s1 == s.(inside := s.inside[u := Leaving], flag := enable && s.vmalloc.WalkedReadOnly());
    assert s.inside[u := Leaving] - {u} == s.inside - {u};
  }

  lemma SetFlag(n: Trace, r: Trace, d: bool, u: Task, enable: bool) returns (m: Trace)
    requires Continues(n, r, d) && u in End(n).inside && End(n).inside[u] == ProtectFlag(enable, true)
    ensures Continues(m, r, d) && End(m) == Flagging(End(n), u, enable)
  {
    hide Step, Enabled, Complies, Flagging, ComplyingRun;
    FlagSteps(End(n), u, enable, d);
    m := Go(n, r, d, Act(u, true));
    LocksComply(End(m), u, ThreadA, d);
    m := Go(m, r, d, Unlock(u));
  }

  // ---- Letting a task run to its end ----

  /** How many steps a task has before it unlocks, at most. */
  function Rank(p: Phase): nat {
    match p
    case WriteReadFlag(_) => 6
    case WriteDirectRw(_) => 5
    case WriteVmallocRw(_) => 4
    case WriteStore(_, _) => 3
    case AReadInitial => 3
    case ProtectDirect(_) => 3
    case AReadCurrent(_) => 2
    case ProtectVmalloc(_) => 2
    case WriteDirectRo(_) => 2
    case ACompare(_, _) => 1
    case BRestore => 1
    case ProtectFlag(_, _) => 1
    case WriteVmallocRo(_) => 1
    case Leaving => 0
    case Dead => 0
  }

  /** The task will not die at a store still to come. */
  predicate Survives(s: State, p: Phase) {
    !p.Dead? && (p.BRestore? || p.WriteReadFlag? || p.WriteDirectRw? || p.WriteVmallocRw? || p.WriteStore? ==> s.direct)
  }

  function ResultFor(p: Phase, d: bool): bool {
    if p.ProtectDirect? || p.WriteDirectRw? || p.WriteDirectRo? then d else true
  }

  /** The leaves that do not depend on what happens: a leaf stays a leaf, and an unchangeable
      direct leaf stays writable. */
  predicate Steady(s: State, d: bool) {
    s.vmalloc.Leaf? && (!d ==> s.direct)
  }

  lemma SurvivorAct(s: State, h: Task, d: bool)
    requires h in s.inside && Survives(s, s.inside[h]) && !s.inside[h].Leaving? && Steady(s, d)
    ensures var e := Act(h, ResultFor(s.inside[h], d));
            && Enabled(s, e) && Complies(s, e, d)
            && var n := Step(s, e);
               && h in n.inside && n.inside - {h} == s.inside - {h}
               && Survives(n, n.inside[h]) && Rank(n.inside[h]) < Rank(s.inside[h]) && Steady(n, d)
  {
    var e := Act(h, ResultFor(s.inside[h], d));
    var n := Advance(s, h, e.ok);
    assert n.inside - {h} == s.inside - {h};
  }

  lemma {:induction false} RunOut(n: Trace, r: Trace, d: bool, h: Task) returns (m: Trace)
    requires Continues(n, r, d) && h in End(n).inside && Survives(End(n), End(n).inside[h]) && Steady(End(n), d)
    ensures Continues(m, r, d) && Steady(End(m), d)
    ensures End(m).owner == None && End(m).inside == End(n).inside - {h}
    decreases Rank(End(n).inside[h])
  {
    hide Step, Enabled, Complies, Survives, ComplyingRun, Rank;
    var s := End(n);
    if s.inside[h].Leaving? {
      LocksComply(s, h, ThreadA, d);
      UnlockSteps(s, h, d);
      m := Go(n, r, d, Unlock(h));
    } else {
      SurvivorAct(s, h, d);
      m := Go(n, r, d, Act(h, ResultFor(s.inside[h], d)));
      m := RunOut(m, r, d, h);
    }
  }

  lemma UnlockSteps(s: State, h: Task, d: bool)
    requires h in s.inside && s.inside[h].Leaving? && Steady(s, d)
    ensures Enabled(s, Unlock(h)) && Step(s, Unlock(h)) == s.(owner := None, inside := s.inside - {h})
  {
  }

  // ---- Harmful clears ----

  lemma SteadyStep(s: State, e: Event, d: bool)
    requires Enabled(s, e) && Steady(s, d) && Complies(s, e, d)
    ensures Steady(Step(s, e), d)
  {
    hide NextPhase;
  }

  lemma {:induction false} AlwaysSteady(r: Trace, d: bool, k: nat)
    requires ComplyingRun(r, d) && r.states[0].vmalloc.Leaf? && k <= |r.events|
    ensures Steady(r.states[k], d)
  {
    hide Step, Enabled, Complies;
    if k > 0 {
      AlwaysSteady(r, d, k - 1);
      assert StepAt(r, k - 1);
      SteadyStep(r.states[k - 1], r.events[k - 1], d);
    }
  }

  lemma {:induction false} Bound(ts: set<Task>) returns (b: Task)
    ensures forall t | t in ts :: t < b
  {
    if ts == {} {
      b := 0;
    } else {
      var t :| t in ts;
      b := Bound(ts - {t});
      b := if b <= t then t + 1 else b;
      assert ts == (ts - {t}) + {t};
    }
  }

  /** From any reachable state with a free mutex and a live task inside: a second task disables
      protection up to the flag, the first one finishes and frees the mutex under it, a third
      enables protection, and the second clears the flag. */
  lemma LiveTaskBreaksFlag(r: Trace, d: bool, h: Task) returns (n: Trace)
    requires ComplyingRun(r, d) && r.states[0].vmalloc.Leaf?
    requires End(r).owner == None && h in End(r).inside && !End(r).inside[h].Dead?
    ensures Continues(n, r, d)
    ensures End(n).owner == None && End(n).inside == End(r).inside - {h}
    ensures !End(n).flag && End(n).vmalloc == Leaf(false) && End(n).direct == !d
  {
    hide Step, Enabled, Complies, StepAt, Initial;
    var b := Bound(End(r).inside.Keys);
    var u, v := b, b + 1;
    assert u !in End(r).inside.Keys && v !in End(r).inside.Keys && u != h && v != h;
    AlwaysSteady(r, d, |r.states| - 1);
    ContinuesItself(r, d);
    n := Toggle(r, r, d, u, false);
    n := RunOut(n, r, d, h);
    assert v !in End(n).inside && End(n).inside[u] == ProtectFlag(false, true);
    n := Toggle(n, r, d, v, true);
    n := SetFlag(n, r, d, v, true);
    n := SetFlag(n, r, d, u, false);
    assert End(n).inside == End(r).inside - {h};
  }

  // ---- Exactly when ----

  /** A clear that hits a live task, when no earlier one did, has an untruthful continuation. */
  lemma LiveClearBreaksFlag(r: Trace, d: bool) returns (n: Trace)
    requires ComplyingRun(r, d) && r.states[0].vmalloc.Leaf? && r.events != []
    requires var i := |r.events| - 1; r.events[i].RogueClear? && TameClears(r, i) && !NobodyLive(r.states[i])
    ensures Continues(n, r, d) && !AlwaysTruthful(n) && !AlwaysFreed(n, d)
    ensures End(n).owner == None && NobodyLive(End(n)) && !End(n).flag && End(n).direct == !d
  {
    hide Step, Enabled, Complies;
    var i := |r.events| - 1;
    var h :| h in r.states[i].inside && !r.states[i].inside[h].Dead?;
    LiveExclusiveThroughout(r, i);
    assert StepAt(r, i);
    MutexStep(r.states[i], r.events[i]);
    n := LiveTaskBreaksFlag(r, d, h);
    UntruthfulEnd(n, d);
  }

  lemma UntruthfulEnd(n: Trace, d: bool)
    requires n.states != [] && NobodyLive(End(n)) && !End(n).flag && End(n).vmalloc == Leaf(false)
    ensures !AlwaysTruthful(n) && !AlwaysFreed(n, d)
  {
    assert Idle(End(n));
  }

  lemma TameContinuationIsTruthful(n: Trace, r: Trace, d: bool)
    requires Continues(n, r, d) && TameClears(r, |r.events|) && r.states[0].vmalloc.Leaf?
    ensures AlwaysTruthful(n) && AlwaysFreed(n, d)
  {
    hide ComplyingRun, AlwaysTruthful, AlwaysFreed;
    TameContinues(n, r, d);
    assert n.states[0] == n.states[..|r.states|][0];
    TameIsTruthful(n, d);
  }

  /** An owner-clear, when no earlier one did harm, does none exactly when it lands while no live
      task is inside: then, and only then, in every idle state of every continuation without
      further clears the flag is truthful; and so for unloading. */
  lemma ClearIsHarmlessIff(r: Trace, d: bool)
    requires ComplyingRun(r, d) && r.states[0].vmalloc.Leaf? && r.events != []
    requires var i := |r.events| - 1; r.events[i].RogueClear? && TameClears(r, i)
    ensures NobodyLive(r.states[|r.events| - 1]) <==> forall n: Trace | Continues(n, r, d) :: AlwaysTruthful(n)
    ensures NobodyLive(r.states[|r.events| - 1]) <==> forall n: Trace | Continues(n, r, d) :: AlwaysFreed(n, d)
  {
    hide Continues, AlwaysTruthful, AlwaysFreed, Truthful, NobodyLive, Complies, StepAt, Initial;
    if NobodyLive(r.states[|r.events| - 1]) {
      forall n: Trace | Continues(n, r, d)
        ensures AlwaysTruthful(n) && AlwaysFreed(n, d)
      {
        TameContinuationIsTruthful(n, r, d);
      }
    } else {
      var n := LiveClearBreaksFlag(r, d);
    }
  }

  lemma PrefixComplies(r: Trace, d: bool, k: nat)
    requires ComplyingRun(r, d) && k <= |r.events|
    ensures ComplyingRun(Prefix(r, k), d)
    ensures TameClears(r, k) ==> TameClears(Prefix(r, k), k)
  {
    hide Step, Enabled, Complies, Initial, NobodyLive;
    var p := Prefix(r, k);
    forall m: nat | m < k
      ensures StepAt(p, m)
    {
      assert StepAt(r, m);
    }
  }

  lemma {:induction false} FirstLiveClear(r: Trace, m: nat) returns (i: nat)
    requires m <= |r.events| < |r.states| && !TameClears(r, m)
    ensures i < m && r.events[i].RogueClear? && !NobodyLive(r.states[i]) && TameClears(r, i)
  {
    hide NobodyLive;
    if TameClears(r, m - 1) {
      i := m - 1;
    } else {
      i := FirstLiveClear(r, m - 1);
    }
  }

  /** Over whole runs with any number of clears: all of them land while no live task is inside,
      exactly when the flag is truthful in every idle state that the run can be led to, from any
      of its points, without a further clear; and so for unloading. */
  lemma FlagTruthfulIff(r: Trace, d: bool)
    requires ComplyingRun(r, d) && r.states[0].vmalloc.Leaf?
    ensures TameClears(r, |r.events|) <==>
            forall k: nat, n: Trace | k <= |r.events| && Continues(n, Prefix(r, k), d) :: AlwaysTruthful(n)
    ensures TameClears(r, |r.events|) <==>
            forall k: nat, n: Trace | k <= |r.events| && Continues(n, Prefix(r, k), d) :: AlwaysFreed(n, d)
  {
    hide Continues, AlwaysTruthful, AlwaysFreed, Truthful, NobodyLive, Complies, StepAt, Initial;
    if TameClears(r, |r.events|) {
      forall k: nat, n: Trace | k <= |r.events| && Continues(n, Prefix(r, k), d)
        ensures AlwaysTruthful(n) && AlwaysFreed(n, d)
      {
        PrefixComplies(r, d, k);
        TameContinuationIsTruthful(n, Prefix(r, k), d);
      }
    } else {
      var i := FirstLiveClear(r, |r.events|);
      var p := Prefix(r, i + 1);
      PrefixComplies(r, d, i + 1);
      assert TameClears(p, i);
      var n := LiveClearBreaksFlag(p, d);
    }
  }

  lemma WriteSteps(s: State, t: Task, v: Word, d: bool)
    requires s.owner == None && t !in s.inside && !s.flag && !s.direct
    ensures var s1 := Step(s, Lock(t, SafeWrite(v)));
            var s2 := Step(s1, Act(t, true));
            var s3 := Step(s2, Act(t, true));
            && Enabled(s, Lock(t, SafeWrite(v))) && t in s1.inside
            && Enabled(s1, Act(t, true)) && Complies(s1, Act(t, true), d) && t in s2.inside
            && Enabled(s2, Act(t, true)) && Complies(s2, Act(t, true), d)
            && s3.owner == Some(t) && t in s3.inside && s3.inside[t].Dead?
  {
    var s1 := Step(s, Lock(t, SafeWrite(v)));
    assert s1 == s.(owner := Some(t), inside := s.inside[t := WriteReadFlag(v)]);
    var s2 := Step(s1, Act(t, true));
    assert s2 == s.(owner := Some(t), inside := s.inside[t := WriteStore(v, false)]);
  }

  /** A harmful clear can also kill an authorised write, if the direct leaf is changeable: without
      one `WriteDiesIffStranded` excludes it. */
  lemma LiveClearKillsWrite(r: Trace, v: Word) returns (n: Trace, t: Task, i: nat)
    requires ComplyingRun(r, true) && r.states[0].vmalloc.Leaf? && r.events != []
    requires var i := |r.events| - 1; r.events[i].RogueClear? && TameClears(r, i) && !NobodyLive(r.states[i])
    ensures Continues(n, r, true) && i < |n.events| && Writing(n, t, v, i, |n.events|)
    ensures End(n).owner == Some(t) && t in End(n).inside && End(n).inside[t].Dead?
  {
    hide Step, Enabled, Complies, StepAt, Initial, NobodyLive, AlwaysTruthful, AlwaysFreed;
    n := LiveClearBreaksFlag(r, true);
    t := Bound(End(n).inside.Keys);
    i := |n.events|;
    assert t !in End(n).inside.Keys;
    WriteSteps(End(n), t, v, true);
    LocksComply(End(n), t, SafeWrite(v), true);
    n := Go(n, r, true, Lock(t, SafeWrite(v)));
    n := Go(n, r, true, Act(t, true));
    n := Go(n, r, true, Act(t, true));
  }

  // ---- A run with one clear ----

  lemma {:induction false} ClearsFrom(r: Trace, i: nat, k: nat)
    requires i <= k <= |r.events| && NoClears(r, i)
    ensures Clears(r, k) == Clears(r, i)
  {
    if k > i {
      ClearsFrom(r, i, k - 1);
    }
  }

  /** Thread A, hit by the rogue thread's clear inside its critical section. */
  lemma HitThreadA(s: State, d: bool) returns (r: Trace)
    requires Initial(s)
    ensures ComplyingRun(r, d) && r.states[0] == s && Clears(r, |r.events|) == 1
    ensures End(r).owner == None && End(r).inside == map[0 := AReadInitial]
  {
    hide Step, Enabled, Complies;
    r := Trace([s], []);
    HitSteps(s, d);
    r := Comply(r, d, Lock(0, ThreadA));
    r := Comply(r, d, RogueCheck);
    r := Comply(r, d, RogueClear);
  }

  lemma HitSteps(s: State, d: bool)
    requires Initial(s)
    ensures var s1 := Step(s, Lock(0, ThreadA)); var s2 := Step(s1, RogueCheck); var s3 := Step(s2, RogueClear);
            && Enabled(s, Lock(0, ThreadA)) && Enabled(s1, RogueCheck) && Enabled(s2, RogueClear)
            && s3.owner == None && s3.inside == map[0 := AReadInitial]
  {
  }

  /** One more event that changes no leaf. */
  lemma Comply(r: Trace, d: bool, e: Event) returns (n: Trace)
    requires ComplyingRun(r, d) && Enabled(End(r), e) && !e.Act?
    ensures ComplyingRun(n, d) && n.states[0] == r.states[0] && End(n) == Step(End(r), e)
    ensures Clears(n, |n.events|) == Clears(r, |r.events|) + if e.RogueClear? then 1 else 0
  {
    hide Step, Enabled;
    n := Extend(r, e);
    ExtendIsRun(r, e);
    ClearsPrefix(r, n, |r.events|);
  }

  /** One owner-clear is enough: the system comes to rest, with nobody inside, with the flag clear
      and the vmap leaf read-only. */
  lemma OwnerClearBreaksFlag(s: State, d: bool) returns (n: Trace)
    requires Initial(s) && s.vmalloc == Leaf(true)
    ensures ComplyingRun(n, d) && n.states[0] == s && Clears(n, |n.events|) == 1
    ensures End(n).inside == map[] && !End(n).flag && End(n).vmalloc == Leaf(false) && End(n).direct == !d
  {
    hide ComplyingRun;
    var r := HitThreadA(s, d);
    n := LiveTaskBreaksFlag(r, d, 0);
    assert n.states[0] == n.states[..|r.states|][0];
    ClearsPrefix(r, n, |r.events|);
    ClearsFrom(n, |r.events|, |n.events|);
  }
}
