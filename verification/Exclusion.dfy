/**
 Mutual exclusion of `safety_mutex` in every run, with and without the rogue thread's
 owner-clears. The clear is a check and a store in two separate steps, so it may hit a
 mutex that has changed hands, or is free, by the time it lands.
 */
module Exclusion {
  import opened Wrappers
  import opened SafetyProtocol

  /** Owner-clears among the first `k` events. */
  ghost function Clears(r: Trace, k: nat): nat
    requires k <= |r.events|
  {
    if k == 0 then 0 else Clears(r, k - 1) + if r.events[k - 1].RogueClear? then 1 else 0
  }

  /** A non-zero owner word names a task that is inside. */
  predicate OwnerInside(s: State) {
    s.owner.Some? ==> s.owner.value in s.inside
  }

  function OwnerBit(s: State): nat {
    if s.owner.Some? then 1 else 0
  }

  /** Exactly the owner is inside, and nobody when there is no owner. */
  predicate Exclusive(s: State) {
    match s.owner
    case None => s.inside == map[]
    case Some(t) => s.inside.Keys == {t}
  }

  lemma UpdateSize<K, V>(m: map<K, V>, k: K, v: V)
    ensures |m[k := v]| == if k in m then |m| else |m| + 1
  {
    assert m[k := v].Keys == m.Keys + {k};
  }

  lemma RemoveSize<K, V>(m: map<K, V>, k: K)
    requires k in m
    ensures |m - {k}| == |m| - 1
  {
    assert (m - {k}).Keys == m.Keys - {k};
  }

  /** How an event moves the mutex: who owns it and who is inside afterwards. */
  lemma MutexStep(s: State, e: Event)
    requires Enabled(s, e)
    ensures Step(s, e).owner ==
            match e {
              case Lock(t, _) => Some(t)
              case Unlock(_) => None
              case RogueClear => None
              case _ => s.owner
            }
    ensures Step(s, e).inside ==
            match e {
              case Lock(t, entry) => s.inside[t := FirstPhase(entry)]
              case Act(t, ok) => s.inside[t := NextPhase(s, s.inside[t], ok)]
              case Unlock(t) => s.inside - {t}
              case _ => s.inside
            }
  {
    hide NextPhase, PhaseStore, AttackLands, AttackValue;
  }

  /** One event adds at most one task beyond the owner, and only an owner-clear does. */
  lemma InsideStep(s: State, e: Event, clears: nat)
    requires Enabled(s, e) && OwnerInside(s) && |s.inside| <= OwnerBit(s) + clears
    ensures OwnerInside(Step(s, e))
    ensures |Step(s, e).inside| <= OwnerBit(Step(s, e)) + clears + if e.RogueClear? then 1 else 0
  {
    hide Step, NextPhase;
    MutexStep(s, e);
    match e
    case Lock(t, entry) => UpdateSize(s.inside, t, FirstPhase(entry));
    case Act(t, ok) => UpdateSize(s.inside, t, NextPhase(s, s.inside[t], ok));
    case Unlock(t) => RemoveSize(s.inside, t);
    case _ =>
  }

  /** In every run the owner is inside, and the tasks inside number at most one for a set
      owner word plus one for every owner-clear so far. */
  lemma {:induction false} InsideBoundedByClears(r: Trace, k: nat)
    requires InitialRun(r) && k <= |r.events|
    ensures OwnerInside(r.states[k])
    ensures |r.states[k].inside| <= OwnerBit(r.states[k]) + Clears(r, k)
  {
    hide Step, Enabled;
    if k > 0 {
      InsideBoundedByClears(r, k - 1);
      assert StepAt(r, k - 1);
      InsideStep(r.states[k - 1], r.events[k - 1], Clears(r, k - 1));
    }
  }

  lemma ExclusiveStep(s: State, e: Event)
    requires Enabled(s, e) && Exclusive(s) && (e.RogueClear? ==> s.inside == map[])
    ensures Exclusive(Step(s, e))
  {
    hide Step, NextPhase;
    MutexStep(s, e);
    match e
    case Lock(t, entry) => assert Step(s, e).inside.Keys == {t};
    case Act(t, ok) => assert Step(s, e).inside.Keys == s.inside.Keys;
    case Unlock(t) => assert Step(s, e).inside.Keys == {};
    case _ =>
  }

  /** Exclusion survives every stretch of a run in which no owner-clear hits a task inside. */
  lemma {:induction false} ExclusiveFrom(r: Trace, i: nat, k: nat)
    requires IsRun(r) && i <= k <= |r.events| && Exclusive(r.states[i]) && VacantClears(r, i)
    ensures Exclusive(r.states[k])
  {
    hide Step, Enabled;
    if k > i {
      ExclusiveFrom(r, i, k - 1);
      assert StepAt(r, k - 1);
      ExclusiveStep(r.states[k - 1], r.events[k - 1]);
    }
  }

  /** However many owner-clears came before, once the critical section has emptied and no later
      clear hits a task inside, the mutex excludes again in every later state. */
  lemma ExclusionRestored(r: Trace, i: nat, k: nat)
    requires InitialRun(r) && i <= k <= |r.events|
    requires r.states[i].inside == map[] && VacantClears(r, i)
    ensures Exclusive(r.states[k])
  {
    InsideBoundedByClears(r, i);
    ExclusiveFrom(r, i, k);
  }

  // ---- Owner-clears that hit nobody alive ----

  /** Every task inside has died there. */
  predicate NobodyLive(s: State) {
    forall t | t in s.inside :: s.inside[t].Dead?
  }

  /** Every task inside that is alive owns the mutex; so there is at most one. */
  predicate LiveExclusive(s: State) {
    forall t | t in s.inside && !s.inside[t].Dead? :: s.owner == Some(t)
  }

  /** No owner-clear before position `to` lands while a live task is inside. */
  ghost predicate TameClears(r: Trace, to: nat)
    requires to <= |r.events| < |r.states|
  {
    forall k | 0 <= k < to && r.events[k].RogueClear? :: NobodyLive(r.states[k])
  }

  lemma LiveExclusiveStep(s: State, e: Event)
    requires Enabled(s, e) && LiveExclusive(s) && (e.RogueClear? ==> NobodyLive(s))
    ensures LiveExclusive(Step(s, e))
  {
    hide Step, NextPhase;
    MutexStep(s, e);
  }

  /** Among the living, exclusion survives every owner-clear that hits none of them. */
  lemma {:induction false} LiveExclusiveThroughout(r: Trace, k: nat)
    requires InitialRun(r) && k <= |r.events| && TameClears(r, k)
    ensures LiveExclusive(r.states[k])
  {
    hide Step, Enabled, LiveExclusive;
    if k == 0 {
      NobodyYet(r.states[0]);
    } else {
      hide NobodyLive;
      LiveExclusiveThroughout(r, k - 1);
      assert StepAt(r, k - 1);
      LiveExclusiveStep(r.states[k - 1], r.events[k - 1]);
    }
  }

  lemma NobodyYet(s: State)
    requires Initial(s)
    ensures LiveExclusive(s)
  {
  }

  // ---- The bound is tight ----

  /** Thread-A tasks `0..n`, each just through the lock. */
  function Crowd(n: nat): map<Task, Phase> {
    if n == 0 then map[0 := AReadInitial] else Crowd(n - 1)[n := AReadInitial]
  }

  lemma CrowdKeys(n: nat, t: Task)
    ensures t in Crowd(n) <==> t <= n
    ensures |Crowd(n)| == n + 1
  {
    if n > 0 {
      CrowdKeys(n - 1, t);
      CrowdKeys(n - 1, n);
      UpdateSize(Crowd(n - 1), n, AReadInitial);
    }
  }

  predicate Intruded(s: State, n: nat) {
    s.rogue == RogueIdle && s.owner == Some(n) && s.inside == Crowd(n) && |s.inside| == n + 1
  }

  /** The bound is tight: for every `n` some run has `n` owner-clears and `n + 1` tasks inside. */
  lemma {:induction false} BoundIsReached(s: State, n: nat) returns (r: Trace)
    requires Initial(s)
    ensures InitialRun(r) && r.states[0] == s
    ensures Clears(r, |r.events|) == n && |r.states[|r.events|].inside| == n + 1
    ensures Intruded(r.states[|r.events|], n)
  {
    hide Step, Enabled;
    if n == 0 {
      r := Trace([s], []);
      FirstArrival(s);
      r := ClearsExtend(r, Lock(0, ThreadA));
    } else {
      r := BoundIsReached(s, n - 1);
      AfterClearAndEnter(r.states[|r.events|], n);
      r := ClearsExtend(r, RogueCheck);
      r := ClearsExtend(r, RogueClear);
      r := ClearsExtend(r, RogueCount);
      r := ClearsExtend(r, Lock(n, ThreadA));
    }
  }

  lemma FirstArrival(s: State)
    requires Initial(s)
    ensures Enabled(s, Lock(0, ThreadA)) && Intruded(Step(s, Lock(0, ThreadA)), 0)
  {
  }

  /** A full metadata attack lets one more task in. */
  lemma AfterClearAndEnter(s: State, n: nat)
    requires n > 0 && Intruded(s, n - 1)
    ensures var s1 := Step(s, RogueCheck); var s2 := Step(s1, RogueClear); var s3 := Step(s2, RogueCount);
            && Enabled(s, RogueCheck) && Enabled(s1, RogueClear) && Enabled(s2, RogueCount)
            && Enabled(s3, Lock(n, ThreadA)) && Intruded(Step(s3, Lock(n, ThreadA)), n)
  {
    CrowdKeys(n - 1, n);
    CrowdKeys(n, n);
  }

  lemma ClearsExtend(r: Trace, e: Event) returns (n: Trace)
    requires IsRun(r) && Enabled(r.states[|r.events|], e)
    ensures IsRun(n) && n.states[0] == r.states[0]
    ensures |n.events| == |r.events| + 1 && n.states[|n.events|] == Step(r.states[|r.events|], e)
    ensures Clears(n, |n.events|) == Clears(r, |r.events|) + if e.RogueClear? then 1 else 0
  {
    hide Step, Enabled;
    n := Extend(r, e);
    ExtendIsRun(r, e);
    ClearsPrefix(r, n, |r.events|);
  }

  lemma {:induction false} ClearsPrefix(r: Trace, n: Trace, k: nat)
    requires k <= |r.events| <= |n.events| && n.events[..|r.events|] == r.events
    ensures Clears(n, k) == Clears(r, k)
  {
    if k > 0 {
      ClearsPrefix(r, n, k - 1);
      assert n.events[k - 1] == r.events[k - 1];
    }
  }

  /** Stores of the rogue thread that landed among the first `k` events. */
  ghost function RogueStores(r: Trace, k: nat): nat
    requires k <= |r.events| < |r.states|
  {
    if k == 0 then 0
    else RogueStores(r, k - 1) + if RogueLands(r.states[k - 1], r.events[k - 1]) then 1 else 0
  }

  predicate RogueLands(s: State, e: Event) {
    e.RogueStore? && OutsideStore(s, e)
  }

  lemma RogueStep(s: State, e: Event)
    requires Enabled(s, e)
    ensures var n := Step(s, e);
            && n.unsyncWrites + (if n.rogue.RogueStored? then 1 else 0)
               == s.unsyncWrites + (if s.rogue.RogueStored? then 1 else 0) + (if RogueLands(s, e) then 1 else 0)
            && n.metadataAttacks + (if n.rogue.RogueCleared? then 1 else 0)
               == s.metadataAttacks + (if s.rogue.RogueCleared? then 1 else 0) + (if e.RogueClear? then 1 else 0)
  {
    hide NextPhase, PhaseStore;
  }

  /** The rogue thread's two counters lag the stores and clears it performed by at most one,
      and exactly while it stands between the attack and the increment. */
  lemma {:induction false} RogueCountersLag(r: Trace, k: nat)
    requires InitialRun(r) && k <= |r.events|
    ensures RogueStores(r, k) == r.states[k].unsyncWrites + if r.states[k].rogue.RogueStored? then 1 else 0
    ensures Clears(r, k) == r.states[k].metadataAttacks + if r.states[k].rogue.RogueCleared? then 1 else 0
  {
    hide Step, Enabled, RogueLands;
    if k > 0 {
      RogueCountersLag(r, k - 1);
      assert StepAt(r, k - 1);
      RogueStep(r.states[k - 1], r.events[k - 1]);
    }
  }

  /** A task killed while holding the mutex keeps it: until an owner-clear hits it nobody enters. */
  lemma {:induction false} DeadHolderBlocksEveryone(r: Trace, i: nat, k: nat, t: Task)
    requires IsRun(r) && i <= k <= |r.events| && VacantClears(r, i) && Exclusive(r.states[i])
    requires r.states[i].owner == Some(t) && r.states[i].inside[t].Dead?
    ensures r.states[k].owner == Some(t) && r.states[k].inside == map[t := Dead]
    ensures k < |r.events| ==> !r.events[k].Lock? && !r.events[k].Act? && !r.events[k].Unlock?
  {
    hide Step, Enabled;
    if k == i {
      assert r.states[i].inside == map[t := Dead];
    } else {
      DeadHolderBlocksEveryone(r, i, k - 1, t);
      assert StepAt(r, k - 1);
      DeadHolderStep(r.states[k - 1], r.events[k - 1], t);
    }
    if k < |r.events| {
      assert StepAt(r, k);
      DeadHolderStep(r.states[k], r.events[k], t);
    }
  }

  lemma DeadHolderStep(s: State, e: Event, t: Task)
    requires s.owner == Some(t) && s.inside == map[t := Dead] && Enabled(s, e) && (e.RogueClear? ==> s.inside == map[])
    ensures !e.Lock? && !e.Act? && !e.Unlock?
    ensures Step(s, e).owner == Some(t) && Step(s, e).inside == map[t := Dead]
  {
    hide Step, NextPhase;
    assert t in s.inside;
    MutexStep(s, e);
  }
}
