/** What read-only leaves keep out: the bad driver, the rogue thread and everybody else. */
module Attacks {
  import opened Wrappers
  import opened SafetyProtocol
  import opened Protection

  // ---- Both aliases read-only ----

  /** Neither alias accepts a store. */
  predicate ReadOnly(s: State) {
    !s.direct && !s.vmalloc.Writable()
  }

  lemma ReadOnlyStep(s: State, e: Event)
    requires Enabled(s, e) && ReadOnly(s) && !SetsMemory(s, e)
    ensures Step(s, e).word == s.word && ReadOnly(Step(s, e))
  {
    hide NextPhase, AttackValue;
  }

  /** Once both aliases are read-only the word keeps its value, whatever the bad driver, the
      rogue thread, Thread B and status readers do, until the next `set_memory_*` call. */
  lemma {:induction false} ReadOnlyKeepsWord(r: Trace, i: nat, k: nat)
    requires IsRun(r) && i <= k <= |r.events| && ReadOnly(r.states[i])
    requires forall m | i <= m < k :: !SetsMemory(r.states[m], r.events[m])
    ensures r.states[k].word == r.states[i].word && ReadOnly(r.states[k])
  {
    hide Step, Enabled, ReadOnly, SetsMemory;
    if k > i {
      ReadOnlyKeepsWord(r, i, k - 1);
      assert StepAt(r, k - 1);
      ReadOnlyStep(r.states[k - 1], r.events[k - 1]);
    }
  }

  // ---- Only the vmap alias read-only ----

  /** The vmap leaf is read-only before each event from `i` to `k`. */
  ghost predicate VmallocHeld(r: Trace, i: nat, k: nat)
    requires k < |r.states|
  {
    forall m | i <= m < k :: r.states[m].vmalloc == Leaf(false)
  }

  /** The events without the bad driver's mode 1. */
  function WithoutMode1(events: seq<Event>): seq<Event> {
    if events == [] then []
    else
      var last := events[|events| - 1];
      WithoutMode1(events[..|events| - 1]) + if last == BadWrite(VmallocWrite) then [] else [last]
  }

  lemma WithoutMode1Last(events: seq<Event>, i: nat, k: nat)
    requires i < k <= |events|
    ensures WithoutMode1(events[i..k]) ==
            WithoutMode1(events[i..k - 1]) + if events[k - 1] == BadWrite(VmallocWrite) then [] else [events[k - 1]]
  {
    assert events[i..k][..k - 1 - i] == events[i..k - 1];
  }

  lemma Mode1DoesNothing(s: State)
    requires s.vmalloc == Leaf(false)
    ensures Step(s, BadWrite(VmallocWrite)) == s
  {
  }

  /** While the vmap leaf is read-only mode 1 might as well not happen: the run without its
      events goes through the same states, `states[m]` where the events before `m` lead. */
  lemma {:induction false} Mode1IsInert(r: Trace, i: nat, k: nat) returns (n: Trace)
    requires IsRun(r) && i <= k <= |r.events| && VmallocHeld(r, i, k)
    ensures IsRun(n) && n.events == WithoutMode1(r.events[i..k])
    ensures forall m | i <= m <= k ::
              var at := |WithoutMode1(r.events[i..m])|; at < |n.states| && n.states[at] == r.states[m]
    ensures n.states[|n.events|] == r.states[k]
  {
    hide Step, Enabled;
    if k == i {
      n := Trace([r.states[i]], []);
    } else {
      hide WithoutMode1;
      var before := Mode1IsInert(r, i, k - 1);
      assert StepAt(r, k - 1);
      WithoutMode1Last(r.events, i, k);
      if r.events[k - 1] == BadWrite(VmallocWrite) {
        Mode1DoesNothing(r.states[k - 1]);
        n := before;
      } else {
        ExtendIsRun(before, r.events[k - 1]);
        n := Extend(before, r.events[k - 1]);
      }
      forall m | i <= m <= k
        ensures var at := |WithoutMode1(r.events[i..m])|; at < |n.states| && n.states[at] == r.states[m]
      {
        if m < k {
          var at := |WithoutMode1(r.events[i..m])|;
          assert n.states[at] == before.states[at];
        }
      }
    }
  }

  // ---- What decides the word ----

  /** The value that an event tries to store. */
  function Attempt(s: State, e: Event): Option<Word> {
    match e
    case Act(t, _) =>
      if t !in s.inside then None
      else if s.inside[t].BRestore? then Some(0x5AFE1234)
      else if s.inside[t].WriteStore? then Some(s.inside[t].val)
      else None
    case RogueStore(val) => Some(val)
    case BadWrite(VmallocWrite) => Some(0xBAD10001)
    case BadWrite(MutexBypass) => Some(0xBAD20002)
    case BadWrite(LinearAlias) => Some(0xBAD30003)
    case _ => None
  }

  /** The leaf that it goes through is writable: the vmap leaf for mode 1, if there is one, and the
      direct leaf for everybody else. */
  predicate TargetWritable(s: State, e: Event) {
    if e == BadWrite(VmallocWrite) && s.vmalloc.Leaf? then s.vmalloc.writable else s.direct
  }

  /** The last value tried through a leaf that was writable at that moment, or the word at `i`. */
  ghost function LastLanded(r: Trace, i: nat, k: nat): Word
    requires i <= k <= |r.events| < |r.states|
  {
    if k == i then r.states[i].word
    else if Attempt(r.states[k - 1], r.events[k - 1]).Some? && TargetWritable(r.states[k - 1], r.events[k - 1])
    then Attempt(r.states[k - 1], r.events[k - 1]).value
    else LastLanded(r, i, k - 1)
  }

  lemma LandedStep(s: State, e: Event)
    requires Enabled(s, e)
    ensures Step(s, e).word ==
            if Attempt(s, e).Some? && TargetWritable(s, e) then Attempt(s, e).value else s.word
  {
    hide NextPhase;
  }

  /** In every run the word is the last value that anybody tried to store through a leaf that was
      writable at that moment: mode 1 through the vmap leaf, or the direct one when there is no
      alias, and modes 2 and 3, the rogue thread and the participants through the direct leaf. */
  lemma {:induction false} WordIsLastLanded(r: Trace, i: nat, k: nat)
    requires IsRun(r) && i <= k <= |r.events|
    ensures r.states[k].word == LastLanded(r, i, k)
  {
    hide Step, Enabled, Attempt, TargetWritable;
    if k > i {
      WordIsLastLanded(r, i, k - 1);
      assert StepAt(r, k - 1);
      LandedStep(r.states[k - 1], r.events[k - 1]);
    }
  }

  /** What can happen in any state: the bad driver can always attack, a task can lock a free mutex
      for any purpose, a live task inside has a next step, whatever `set_memory_*` will answer, the
      rogue thread goes on unless a store has killed it, and any report takes its next read. */
  lemma WhatCanHappen(s: State, mode: Attack, t: Task, entry: Entry, ok: bool, val: Word, report: nat)
    ensures Enabled(s, BadWrite(mode))
    ensures s.owner == None && t !in s.inside ==> Enabled(s, Lock(t, entry))
    ensures t in s.inside && s.inside[t].Leaving? ==> Enabled(s, Unlock(t))
    ensures t in s.inside && !s.inside[t].Leaving? && !s.inside[t].Dead? ==> Enabled(s, Act(t, ok))
    ensures s.rogue == RogueIdle ==> Enabled(s, RogueStore(val)) && Enabled(s, RogueCheck)
    ensures s.rogue == RogueSawLocked ==> Enabled(s, RogueClear)
    ensures s.rogue == RogueStored || s.rogue == RogueCleared ==> Enabled(s, RogueCount)
    ensures Enabled(s, if report in s.reports then ReportDirect(report) else ReportVmalloc(report))
  {
  }

  // ---- The rogue thread ----

  lemma AttackStep(s: State, e: Event)
    requires Enabled(s, e)
    ensures Step(s, e).rogue.RogueSawLocked? && !s.rogue.RogueSawLocked? ==> e.RogueCheck? && s.owner.Some?
    ensures Step(s, e).rogue.RogueDead? <==> s.rogue.RogueDead? || (e.RogueStore? && !s.direct)
    ensures e.RogueClear? ==> s.rogue.RogueSawLocked?
  {
    hide NextPhase, AttackLands;
  }

  /** A metadata attack starts only from a held mutex: before every owner-clear the thread has
      looked and found the owner word set, and has done nothing in between. */
  lemma {:induction false} ClearHasSeenOwner(r: Trace, k: nat) returns (i: nat)
    requires InitialRun(r) && k <= |r.events| && r.states[k].rogue.RogueSawLocked?
    ensures i < k && r.events[i] == RogueCheck && r.states[i].owner.Some?
    ensures forall m | i < m <= k :: r.states[m].rogue.RogueSawLocked?
  {
    hide Step, Enabled;
    assert StepAt(r, k - 1);
    AttackStep(r.states[k - 1], r.events[k - 1]);
    if r.states[k - 1].rogue.RogueSawLocked? {
      i := ClearHasSeenOwner(r, k - 1);
    } else {
      i := k - 1;
    }
  }

  /** Every owner-clear of a run comes from such an attack. */
  lemma EveryClearHasSeenOwner(r: Trace, k: nat) returns (i: nat)
    requires InitialRun(r) && k < |r.events| && r.events[k].RogueClear?
    ensures i < k && r.events[i] == RogueCheck && r.states[i].owner.Some?
    ensures forall m | i < m < k :: !r.events[m].RogueStore? && !r.events[m].RogueCheck? && !r.events[m].RogueClear?
                                    && !r.events[m].RogueCount?
  {
    hide Step;
    assert StepAt(r, k);
    i := ClearHasSeenOwner(r, k);
    forall m | i < m < k
      ensures !r.events[m].RogueStore? && !r.events[m].RogueCheck? && !r.events[m].RogueClear?
      ensures !r.events[m].RogueCount?
    {
      assert StepAt(r, m);
      SawLockedStays(r.states[m], r.events[m]);
    }
  }

  lemma SawLockedStays(s: State, e: Event)
    requires Enabled(s, e) && s.rogue.RogueSawLocked? && Step(s, e).rogue.RogueSawLocked?
    ensures !e.RogueStore? && !e.RogueCheck? && !e.RogueClear? && !e.RogueCount?
  {
  }

  /** The thread is dead exactly if one of its stores met a read-only direct leaf. */
  lemma {:induction false} RogueDiesIff(r: Trace, k: nat)
    requires InitialRun(r) && k <= |r.events|
    ensures r.states[k].rogue.RogueDead? <==> exists i | 0 <= i < k :: r.events[i].RogueStore? && !r.states[i].direct
  {
    hide Step, Enabled;
    if k > 0 {
      RogueDiesIff(r, k - 1);
      assert StepAt(r, k - 1);
      AttackStep(r.states[k - 1], r.events[k - 1]);
    }
  }
}
