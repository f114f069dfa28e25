/**
 What Thread A's violation counter counts. Thread A reads the word, holds the mutex for a
 while, reads again and compares; a hold window is that stretch of a run.
 */
module HoldWindows {
  import opened Wrappers
  import opened SafetyProtocol
  import opened Exclusion

  predicate PhaseIs(s: State, t: Task, p: Phase) {
    t in s.inside && s.inside[t] == p
  }

  /** Task `t` is in phase `p` in every state from `lo` to `hi`. */
  ghost predicate Stays(r: Trace, t: Task, lo: nat, hi: nat, p: Phase)
    requires hi < |r.states|
  {
    forall k | lo <= k <= hi :: PhaseIs(r.states[k], t, p)
  }

  predicate ActsAt(r: Trace, t: Task, k: nat)
    requires k < |r.events|
  {
    r.events[k].Act? && r.events[k].t == t
  }

  /** Thread-A task `t` reads at `i`, reads again at `j` and compares at `n`. */
  ghost predicate HoldWindow(r: Trace, t: Task, i: nat, j: nat, n: nat)
    requires i < j < n < |r.events| < |r.states|
  {
    var initial, current := r.states[i].word, r.states[j].word;
    && ActsAt(r, t, i) && ActsAt(r, t, j) && ActsAt(r, t, n)
    && PhaseIs(r.states[i], t, AReadInitial)
    && Stays(r, t, i + 1, j, AReadCurrent(initial))
    && Stays(r, t, j + 1, n, ACompare(initial, current))
  }

  // ---- Finding the window of a comparison ----

  /** A phase is entered by the task's own lock or step. */
  lemma PhaseEntry(s: State, e: Event, t: Task, p: Phase)
    requires Enabled(s, e) && PhaseIs(Step(s, e), t, p) && !PhaseIs(s, t, p)
    ensures || (e.Lock? && e.t == t && p == FirstPhase(e.entry))
            || (e.Act? && e.t == t && t in s.inside && NextPhase(s, s.inside[t], e.ok) == p)
  {
    hide Step, NextPhase;
    MutexStep(s, e);
  }

  /** The event that brought a task into its current phase. */
  lemma {:induction false} PhaseEntered(r: Trace, t: Task, n: nat, p: Phase) returns (j: nat)
    requires InitialRun(r) && n <= |r.events| && PhaseIs(r.states[n], t, p)
    ensures j < n && Stays(r, t, j + 1, n, p) && !PhaseIs(r.states[j], t, p)
    ensures StepAt(r, j)
    ensures var s, e := r.states[j], r.events[j];
            || (e.Lock? && e.t == t && p == FirstPhase(e.entry))
            || (ActsAt(r, t, j) && t in s.inside && NextPhase(s, s.inside[t], e.ok) == p)
  {
    hide Step, Enabled, NextPhase;
    assert StepAt(r, n - 1);
    if PhaseIs(r.states[n - 1], t, p) {
      j := PhaseEntered(r, t, n - 1, p);
    } else {
      j := n - 1;
      PhaseEntry(r.states[j], r.events[j], t, p);
    }
  }

  /** Only the second read leads to a comparison, and only the first read leads to it. */
  lemma ReadPhases(s: State, p: Phase, ok: bool)
    ensures NextPhase(s, p, ok).ACompare? ==>
              p.AReadCurrent? && NextPhase(s, p, ok) == ACompare(p.initial, s.word)
    ensures NextPhase(s, p, ok).AReadCurrent? ==> p.AReadInitial? && NextPhase(s, p, ok) == AReadCurrent(s.word)
  {
  }

  /** Every comparison closes a hold window. */
  lemma ComparisonHasWindow(r: Trace, t: Task, n: nat) returns (i: nat, j: nat)
    requires InitialRun(r) && n < |r.events| && ActsAt(r, t, n)
    requires t in r.states[n].inside && r.states[n].inside[t].ACompare?
    ensures i < j < n && HoldWindow(r, t, i, j, n)
    ensures r.states[n].inside[t] == ACompare(r.states[i].word, r.states[j].word)
  {
    hide Step, Enabled, NextPhase;
    j := PhaseEntered(r, t, n, r.states[n].inside[t]);
    ReadPhases(r.states[j], r.states[j].inside[t], r.events[j].ok);
    i := PhaseEntered(r, t, j, r.states[j].inside[t]);
    ReadPhases(r.states[i], r.states[i].inside[t], r.events[i].ok);
  }

  /** The windows of two comparisons do not overlap. */
  lemma WindowsDisjoint(r: Trace, t: Task, i: nat, j: nat, n: nat, t': Task, i': nat, j': nat, n': nat)
    requires InitialRun(r) && TameClears(r, |r.events|)
    requires i < j < n < n' < |r.events| && HoldWindow(r, t, i, j, n)
    requires i' < j' < n' && HoldWindow(r, t', i', j', n')
    ensures n < i'
  {
    hide Step, Enabled;
    LiveExclusiveThroughout(r, n);
    assert StepAt(r, n);
    MutexStep(r.states[n], r.events[n]);
  }

  // ---- What can change the word inside a window ----

  /** A changed word means that a store landed in between. */
  lemma {:induction false} ChangeHasStore(r: Trace, lo: nat, hi: nat) returns (k: nat)
    requires IsRun(r) && lo <= hi <= |r.events| && r.states[lo].word != r.states[hi].word
    ensures lo <= k < hi && StoreOf(r.states[k], r.events[k]).Some?
  {
    hide Step, Enabled, StoreOf;
    assert StepAt(r, hi - 1);
    WordAfter(r.states[hi - 1], r.events[hi - 1]);
    if r.states[lo].word != r.states[hi - 1].word {
      k := ChangeHasStore(r, lo, hi - 1);
    } else {
      k := hi - 1;
    }
  }

  /** While Thread A reads under exclusion, only code outside the protocol can store. */
  lemma HeldStoreIsOutside(s: State, e: Event, t: Task)
    requires Enabled(s, e) && LiveExclusive(s) && t in s.inside
    requires s.inside[t].AReadInitial? || s.inside[t].AReadCurrent?
    ensures StoreOf(s, e).Some? ==> OutsideStore(s, e)
  {
    hide AttackLands, AttackValue;
  }

  /** If no owner-clear hits a live task, every counted violation has its own hold window, and in
      it, between the two reads, a store by code that does not take the mutex. */
  lemma ViolationHasOutsideStore(r: Trace, t: Task, n: nat) returns (i: nat, j: nat, k: nat)
    requires InitialRun(r) && TameClears(r, |r.events|) && n < |r.events|
    requires ActsAt(r, t, n) && r.states[n + 1].violations > r.states[n].violations
    ensures i < k < j < n && HoldWindow(r, t, i, j, n)
    ensures OutsideStore(r.states[k], r.events[k])
  {
    hide NextPhase, PhaseStore;
    assert StepAt(r, n);
    i, j := ComparisonHasWindow(r, t, n);
    k := StoreInWindow(r, t, i, j, n);
  }

  lemma StoreInWindow(r: Trace, t: Task, i: nat, j: nat, n: nat) returns (k: nat)
    requires InitialRun(r) && TameClears(r, |r.events|) && i < j < n < |r.events| && HoldWindow(r, t, i, j, n)
    requires r.states[i].word != r.states[j].word
    ensures i < k < j && OutsideStore(r.states[k], r.events[k])
  {
    hide Step, Enabled, StoreOf, OutsideStore;
    k := ChangeHasStore(r, i, j);
    LiveExclusiveThroughout(r, k);
    assert StepAt(r, k);
    assert PhaseIs(r.states[k], t, if k == i then AReadInitial else AReadCurrent(r.states[i].word));
    HeldStoreIsOutside(r.states[k], r.events[k], t);
    if k == i {
      OwnReadStoresNothing(r.states[k], r.events[k]);
    }
  }

  lemma OwnReadStoresNothing(s: State, e: Event)
    requires e.Act?
    ensures !OutsideStore(s, e)
  {
  }

  // ---- Counting violations against outside stores ----

  /** Successful stores by code outside the protocol among the first `k` events. */
  ghost function OutsideStores(r: Trace, k: nat): nat
    requires k <= |r.events| < |r.states|
  {
    if k == 0 then 0
    else OutsideStores(r, k - 1) + if OutsideStore(r.states[k - 1], r.events[k - 1]) then 1 else 0
  }

  predicate PendingPhase(p: Phase, word: Word) {
    || (p.AReadCurrent? && p.initial != word)
    || (p.ACompare? && p.initial != p.current)
  }

  /** One while the owner is in a window whose comparison would fail as things stand. */
  function Pending(s: State): nat {
    if s.owner.Some? && s.owner.value in s.inside && PendingPhase(s.inside[s.owner.value], s.word) then 1 else 0
  }

  /** The owner's own step counts no violation that was not pending. */
  lemma PendingAct(s: State, t: Task, ok: bool)
    requires t in s.inside && s.owner == Some(t)
    ensures Advance(s, t, ok).violations + Pending(Advance(s, t, ok)) <= s.violations + Pending(s)
  {
  }

  lemma PendingStep(s: State, e: Event)
    requires Enabled(s, e) && LiveExclusive(s) && (e.RogueClear? ==> NobodyLive(s))
    ensures Step(s, e).violations + Pending(Step(s, e))
         <= s.violations + Pending(s) + if OutsideStore(s, e) then 1 else 0
  {
    hide Advance, AttackLands, AttackValue;
    if e.Act? {
      PendingAct(s, e.t, e.ok);
    }
  }

  /** If no owner-clear hits a live task, the violation counter never exceeds the successful
      outside stores; in particular it stays 0 while there are none. */
  lemma {:induction false} ViolationsBoundedByOutsideStores(r: Trace, k: nat)
    requires InitialRun(r) && TameClears(r, |r.events|) && k <= |r.events|
    ensures r.states[k].violations + Pending(r.states[k]) <= OutsideStores(r, k)
  {
    hide Step, Enabled, OutsideStore;
    if k > 0 {
      ViolationsBoundedByOutsideStores(r, k - 1);
      LiveExclusiveThroughout(r, k - 1);
      assert StepAt(r, k - 1);
      PendingStep(r.states[k - 1], r.events[k - 1]);
    }
  }

  // ---- The rogue thread alone, with a fixed value ----

  /** The only outside stores are the rogue thread's, of the one value `c`. */
  predicate RogueOnly(e: Event, c: Word) {
    !e.BadWrite? && (e.RogueStore? ==> e.val == c)
  }

  ghost predicate RogueOnlyRun(r: Trace, c: Word) {
    InitialRun(r) && TameClears(r, |r.events|) && forall k | 0 <= k < |r.events| :: RogueOnly(r.events[k], c)
  }

  /** A rogue store landed at some event from `lo` up to but excluding `hi`. */
  ghost predicate RogueStoredBetween(r: Trace, lo: nat, hi: nat)
    requires hi <= |r.events| < |r.states|
  {
    exists k | lo <= k < hi :: RogueLands(r.states[k], r.events[k])
  }

  lemma {:induction false} WordInWindow(r: Trace, c: Word, t: Task, i: nat, j: nat, m: nat)
    requires RogueOnlyRun(r, c) && i < m <= j < |r.events|
    requires ActsAt(r, t, i) && PhaseIs(r.states[i], t, AReadInitial)
    requires Stays(r, t, i + 1, j, AReadCurrent(r.states[i].word))
    ensures r.states[m].word == if RogueStoredBetween(r, i + 1, m) then c else r.states[i].word
  {
    hide Step, Enabled, StoreOf, OutsideStore, RogueLands;
    var s, e := r.states[m - 1], r.events[m - 1];
    assert StepAt(r, m - 1);
    WordAfter(s, e);
    LiveExclusiveThroughout(r, m - 1);
    HeldStoreIsOutside(s, e, t);
    OutsideIsRogue(s, e, c);
    if m == i + 1 {
      OwnReadStoresNothing(s, e);
    } else {
      WordInWindow(r, c, t, i, j, m - 1);
      assert RogueStoredBetween(r, i + 1, m) <==> RogueStoredBetween(r, i + 1, m - 1) || RogueLands(s, e);
    }
  }

  lemma OutsideIsRogue(s: State, e: Event, c: Word)
    requires RogueOnly(e, c)
    ensures OutsideStore(s, e) <==> RogueLands(s, e)
    ensures RogueLands(s, e) ==> StoreOf(s, e) == Some(c)
    ensures OutsideStore(s, e) ==> StoreOf(s, e).Some?
  {
  }

  /** With the rogue thread as the only outsider and a fixed value, a hold window ends in a
      mismatch exactly when a rogue store landed in it and the first read saw another value. */
  lemma MismatchIffRogueStore(r: Trace, c: Word, t: Task, i: nat, j: nat, n: nat)
    requires RogueOnlyRun(r, c) && i < j < n < |r.events| && HoldWindow(r, t, i, j, n)
    ensures r.states[i].word != r.states[j].word
            <==> RogueStoredBetween(r, i + 1, j) && r.states[i].word != c
    ensures r.states[n + 1].violations == r.states[n].violations + 1
            <==> RogueStoredBetween(r, i + 1, j) && r.states[i].word != c
  {
    hide NextPhase, PhaseStore, OutsideStore;
    WordInWindow(r, c, t, i, j, j);
    assert StepAt(r, n);
    assert PhaseIs(r.states[n], t, ACompare(r.states[i].word, r.states[j].word));
  }

  /** Participant stores of values other than `c` among the first `k` events. */
  ghost function OtherStores(r: Trace, c: Word, k: nat): nat
    requires k <= |r.events| < |r.states|
  {
    if k == 0 then 0
    else OtherStores(r, c, k - 1) + if OtherStore(r.states[k - 1], r.events[k - 1], c) then 1 else 0
  }

  predicate OtherStore(s: State, e: Event, c: Word) {
    e.Act? && StoreOf(s, e).Some? && StoreOf(s, e).value != c
  }

  function Restorable(s: State, c: Word): nat {
    if s.word != c then 1 else 0
  }

  lemma RestorableAct(s: State, t: Task, ok: bool, c: Word)
    requires t in s.inside && s.owner == Some(t)
    ensures var n := Advance(s, t, ok);
            n.violations + Pending(n) + Restorable(n, c)
            <= s.violations + Pending(s) + Restorable(s, c) + if OtherStore(s, Act(t, ok), c) then 1 else 0
  {
  }

  lemma RestorableStep(s: State, e: Event, c: Word)
    requires Enabled(s, e) && LiveExclusive(s) && (e.RogueClear? ==> NobodyLive(s)) && RogueOnly(e, c)
    ensures var n := Step(s, e);
            n.violations + Pending(n) + Restorable(n, c)
            <= s.violations + Pending(s) + Restorable(s, c) + if OtherStore(s, e, c) then 1 else 0
  {
    hide Advance;
    if e.Act? {
      RestorableAct(s, e.t, e.ok, c);
    }
  }

  /** Hence violations are at most one more than the participants' stores of other values:
      the word has to be restored between two violations. */
  lemma {:induction false} ViolationsBoundedByRestores(r: Trace, c: Word, k: nat)
    requires RogueOnlyRun(r, c) && k <= |r.events|
    ensures r.states[k].violations + Pending(r.states[k]) + Restorable(r.states[k], c) <= 1 + OtherStores(r, c, k)
  {
    hide Step, Enabled, OtherStore, Restorable, Pending;
    if k == 0 {
      StartsRestorable(r.states[0], c);
    } else {
      ViolationsBoundedByRestores(r, c, k - 1);
      LiveExclusiveThroughout(r, k - 1);
      assert StepAt(r, k - 1);
      RestorableStep(r.states[k - 1], r.events[k - 1], c);
    }
  }

  lemma StartsRestorable(s: State, c: Word)
    requires Initial(s)
    ensures s.violations + Pending(s) + Restorable(s, c) <= 1
  {
  }
}
