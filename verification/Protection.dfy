/**
 The protection flag, the write permission of the two aliases, and the authorised operations
 that change them, over every run in which those operations do not overlap.
 */
module Protection {
  import opened Wrappers
  import opened SafetyProtocol
  import opened Exclusion

  // ---- Runs ----

  /** The event is a `set_memory_*` call of an authorised operation. */
  predicate SetsMemory(s: State, e: Event) {
    e.Act? && e.t in s.inside && s.inside[e.t].ChangesLeaf()
  }

  /** `set_memory_*` always succeeds on the vmap alias, if there is one, and on the direct alias
      always has the one result `d`. */
  predicate Complies(s: State, e: Event, d: bool) {
    SetsMemory(s, e) ==>
      var p := s.inside[e.t];
      if p.ProtectDirect? || p.WriteDirectRw? || p.WriteDirectRo? then e.ok == d else e.ok || s.vmalloc.Absent?
  }

  /** At most one task is inside `safety_mem_set_protection` or `safety_mem_safe_write`. */
  predicate Solo(s: State) {
    forall t, u | t in s.inside && u in s.inside && s.inside[t].Authorised() && s.inside[u].Authorised() :: t == u
  }

  /** No `safety_mem_set_protection` or `safety_mem_safe_write` is in progress. */
  predicate Idle(s: State) {
    forall t | t in s.inside :: !s.inside[t].Authorised()
  }

  /** A run from initialisation with these results of `set_memory_*`. */
  ghost predicate ComplyingRun(r: Trace, d: bool) {
    InitialRun(r) && forall k | 0 <= k < |r.events| :: Complies(r.states[k], r.events[k], d)
  }

  /** Authorised operations never overlap, whatever owner-clears happen. */
  ghost predicate OrderlyRun(r: Trace, d: bool) {
    ComplyingRun(r, d) && forall k | 0 <= k < |r.states| :: Solo(r.states[k])
  }

  /** No owner-clear hits a task inside. */
  ghost predicate CompliantRun(r: Trace, d: bool) {
    ComplyingRun(r, d) && VacantClears(r, 0)
  }

  /** As long as owner-clears hit nobody alive, the mutex keeps the operations apart. */
  lemma TameIsOrderly(r: Trace, d: bool)
    requires ComplyingRun(r, d) && TameClears(r, |r.events|)
    ensures OrderlyRun(r, d)
  {
    hide Step, Enabled, Complies;
    forall k | 0 <= k < |r.states|
      ensures Solo(r.states[k])
    {
      LiveExclusiveThroughout(r, k);
    }
  }

  lemma CompliantIsOrderly(r: Trace, d: bool)
    requires CompliantRun(r, d)
    ensures OrderlyRun(r, d)
  {
    hide Step, Enabled, Complies;
    TameIsOrderly(r, d);
  }

  /** What the last completed `safety_mem_set_protection` was asked for; false before the first. */
  ghost function Requested(r: Trace, k: nat): bool
    requires k <= |r.events| < |r.states|
  {
    if k == 0 then false else RequestedAfter(r.states[k - 1], r.events[k - 1], Requested(r, k - 1))
  }

  predicate RequestedAfter(s: State, e: Event, on: bool) {
    if e.Act? && e.t in s.inside && s.inside[e.t].ProtectFlag? then s.inside[e.t].enable else on
  }

  // ---- The leaves and the flag in every state ----

  /** The vmap alias under a request: a missing one (`a` is the alias at initialisation) stays so. */
  function Aliased(a: Alias, on: bool): Alias {
    if a.Leaf? then Leaf(!on) else a
  }

  /** The flag under a request: without the alias it depends on the unrelated mapping that the
      walk of the null pointer finds. */
  predicate Flagged(a: Alias, on: bool) {
    on && (a.Leaf? || a.nullReadOnly)
  }

  /** The leaves and the flag are those of the last request. */
  predicate Settled(s: State, a: Alias, d: bool, on: bool) {
    s.direct == !(on && d) && s.vmalloc == Aliased(a, on) && s.flag == Flagged(a, on)
  }

  /** What they look like in each phase of an authorised operation. */
  predicate Expected(s: State, p: Phase, a: Alias, d: bool, on: bool) {
    && s.flag == Flagged(a, on)
    && match p
       case ProtectVmalloc(enable) => s.direct == !(enable && d) && s.vmalloc == Aliased(a, on)
       case ProtectFlag(enable, ok) => s.direct == !(enable && d) && s.vmalloc == Aliased(a, enable) && ok
       case WriteDirectRw(_) => s.flag && Settled(s, a, d, on)
       case WriteVmallocRw(_) => s.flag && s.direct && s.vmalloc == Aliased(a, on)
       case WriteStore(_, wasRo) =>
         s.flag == wasRo && if wasRo then s.direct && s.vmalloc == Aliased(a, false) else Settled(s, a, d, on)
       case WriteDirectRo(_) => s.flag && s.direct && s.vmalloc == Aliased(a, false)
       case WriteVmallocRo(_) => s.flag && s.direct == !d && s.vmalloc == Aliased(a, false)
       case _ => Settled(s, a, d, on)
  }

  predicate Consistent(s: State, a: Alias, d: bool, on: bool) {
    && (Idle(s) ==> Settled(s, a, d, on))
    && forall t | t in s.inside && s.inside[t].Authorised() :: Expected(s, s.inside[t], a, d, on)
  }

  /** An authorised operation goes from expected state to expected state, and leaves a settled one. */
  lemma AuthorisedAct(s: State, t: Task, ok: bool, a: Alias, d: bool, on: bool)
    requires t in s.inside && s.inside[t].Authorised() && Expected(s, s.inside[t], a, d, on)
    requires Complies(s, Act(t, ok), d)
    ensures var n, now := Advance(s, t, ok), RequestedAfter(s, Act(t, ok), on);
            && (n.inside[t].Authorised() ==> Expected(n, n.inside[t], a, d, now))
            && (!n.inside[t].Authorised() ==> Settled(n, a, d, now))
  {
  }

  /** Everybody else leaves the leaves, the flag and the request alone. */
  lemma OthersKeepLeaves(s: State, e: Event, on: bool)
    requires Enabled(s, e) && (e.Act? ==> !s.inside[e.t].Authorised())
    ensures Step(s, e).direct == s.direct && Step(s, e).vmalloc == s.vmalloc && Step(s, e).flag == s.flag
    ensures RequestedAfter(s, e, on) == on
    ensures e.Act? ==> !NextPhase(s, s.inside[e.t], e.ok).Authorised()
  {
  }

  lemma ConsistentAct(s: State, t: Task, ok: bool, a: Alias, d: bool, on: bool)
    requires Enabled(s, Act(t, ok)) && s.inside[t].Authorised()
    requires Consistent(s, a, d, on) && Solo(s) && Complies(s, Act(t, ok), d)
    ensures Consistent(Step(s, Act(t, ok)), a, d, RequestedAfter(s, Act(t, ok), on))
  {
    hide Expected, Settled, NextPhase;
    AuthorisedAct(s, t, ok, a, d, on);
    MutexStep(s, Act(t, ok));
  }

  /** The invariant depends on the leaves, the flag and the authorised tasks only. */
  lemma ConsistentFrame(s: State, n: State, a: Alias, d: bool, on: bool)
    requires Consistent(s, a, d, on)
    requires n.direct == s.direct && n.vmalloc == s.vmalloc && n.flag == s.flag
    requires forall t | t in s.inside && s.inside[t].Authorised() :: t in n.inside && n.inside[t] == s.inside[t]
    requires forall t | t in n.inside && n.inside[t].Authorised() && (t !in s.inside || n.inside[t] != s.inside[t]) ::
               Idle(s) && (n.inside[t].ProtectDirect? || n.inside[t].WriteReadFlag?)
    ensures Consistent(n, a, d, on)
  {
    hide Expected;
    forall t | t in n.inside && n.inside[t].Authorised()
      ensures Expected(n, n.inside[t], a, d, on)
    {
      ExpectedFrame(s, n, n.inside[t], a, d, on);
    }
  }

  lemma ExpectedFrame(s: State, n: State, p: Phase, a: Alias, d: bool, on: bool)
    requires n.direct == s.direct && n.vmalloc == s.vmalloc && n.flag == s.flag
    ensures Expected(n, p, a, d, on) == Expected(s, p, a, d, on)
    ensures p.ProtectDirect? || p.WriteReadFlag? ==> (Settled(s, a, d, on) ==> Expected(s, p, a, d, on))
  {
  }

  lemma ConsistentStep(s: State, e: Event, a: Alias, d: bool, on: bool)
    requires Enabled(s, e) && Consistent(s, a, d, on) && Complies(s, e, d) && Solo(s) && Solo(Step(s, e))
    ensures Consistent(Step(s, e), a, d, RequestedAfter(s, e, on))
  {
    hide Step, Consistent, NextPhase, RequestedAfter, Complies;
    if e.Act? && s.inside[e.t].Authorised() {
      ConsistentAct(s, e.t, e.ok, a, d, on);
    } else {
      OthersKeepLeaves(s, e, on);
      MutexStep(s, e);
      ConsistentFrame(s, Step(s, e), a, d, on);
    }
  }

  lemma {:induction false} AlwaysConsistent(r: Trace, d: bool, k: nat)
    requires OrderlyRun(r, d) && k <= |r.events|
    ensures Consistent(r.states[k], r.states[0].vmalloc, d, Requested(r, k))
  {
    hide Step, Enabled, Complies, Solo;
    if k > 0 {
      hide Consistent, RequestedAfter;
      AlwaysConsistent(r, d, k - 1);
      assert StepAt(r, k - 1);
      ConsistentStep(r.states[k - 1], r.events[k - 1], r.states[0].vmalloc, d, Requested(r, k - 1));
    }
  }

  // ---- The flag tells the truth ----

  /** In every state with no authorised operation in progress, of every run in which they do not
      overlap: flag and leaves are those of the last request. With the vmap alias the flag is set
      exactly when its leaf is read-only, and a clear flag means both aliases writable. Without
      it, a clear flag means a writable direct leaf exactly unless protection was requested,
      the direct leaf is changeable and the null pointer does not walk to a read-only mapping. */
  lemma FlagMatchesLeaves(r: Trace, d: bool, k: nat)
    requires OrderlyRun(r, d) && k <= |r.events| && Idle(r.states[k])
    ensures var s, a := r.states[k], r.states[0].vmalloc;
            && Settled(s, a, d, Requested(r, k))
            && (a.Leaf? ==> (s.flag <==> s.vmalloc == Leaf(false)) && (!s.flag ==> s.direct && s.vmalloc == Leaf(true)))
            && (a.Absent? ==> ((!s.flag ==> s.direct) <==> a.nullReadOnly || !d || !Requested(r, k)))
  {
    AlwaysConsistent(r, d, k);
  }

  /** The leaves when `safety_mem_exit` frees the page: it restores write permission only if the
      flag is set; `okDirect` and `okVmalloc` are the results of its two calls. */
  function LeavesAtFree(s: State, okDirect: bool, okVmalloc: bool): (bool, Alias) {
    if !s.flag then (s.direct, s.vmalloc)
    else (s.direct || okDirect, if s.vmalloc.Leaf? && okVmalloc then Leaf(true) else s.vmalloc)
  }

  /** The alias is missing, protection was requested and made the direct leaf read-only, and the
      flag does not know. */
  ghost predicate Stranded(r: Trace, d: bool, k: nat)
    requires k <= |r.events| < |r.states|
  {
    r.states[0].vmalloc == Absent(false) && d && Requested(r, k)
  }

  /** Unloading from any idle state frees the page with its aliases writable, exactly unless the
      page is stranded. */
  lemma UnloadRestoresLeaves(r: Trace, d: bool, k: nat)
    requires OrderlyRun(r, d) && k <= |r.events| && Idle(r.states[k])
    ensures LeavesAtFree(r.states[k], d, true) == (!Stranded(r, d, k), Aliased(r.states[0].vmalloc, false))
    ensures LeavesAtFree(r.states[k], d, false).1 == r.states[k].vmalloc
  {
    AlwaysConsistent(r, d, k);
  }

  /** Thread B restores the sentinel by a plain store: with a changeable direct leaf, protection
      kills it inside the critical section, and `DeadHolderBlocksEveryone` applies from then on. */
  lemma ThreadBDiesIffProtected(r: Trace, d: bool, k: nat, t: Task, ok: bool)
    requires CompliantRun(r, d) && k <= |r.events| && r.states[k].owner == None
    ensures var n := Step(Step(r.states[k], Lock(t, ThreadB)), Act(t, ok));
            && n.owner == Some(t) && n.inside.Keys == {t}
            && (n.inside[t].Dead? <==> Requested(r, k) && d)
            && (r.states[0].vmalloc.Leaf? ==> Requested(r, k) == r.states[k].flag)
            && n.word == if Requested(r, k) && d then r.states[k].word else SAFETY_SENTINEL
  {
    CompliantIsOrderly(r, d);
    AlwaysConsistent(r, d, k);
    ExclusiveFrom(r, 0, k);
    var s := r.states[k];
    var s1 := Step(s, Lock(t, ThreadB));
    assert s1 == s.(owner := Some(t), inside := map[t := BRestore]);
  }

  // ---- The authorised write ----

  /** Task `t` locked at `i` for `safety_mem_safe_write(v)` and has not unlocked before `k`. */
  ghost predicate Writing(r: Trace, t: Task, v: Word, i: nat, k: nat)
    requires i < k <= |r.events| < |r.states|
  {
    r.events[i] == Lock(t, SafeWrite(v)) && forall m | i < m <= k :: t in r.states[m].inside
  }

  predicate WritePhase(p: Phase, v: Word) {
    || p == WriteReadFlag(v) || p == WriteDirectRw(v) || p == WriteVmallocRw(v)
    || (p.WriteStore? && p.val == v) || p == WriteDirectRo(v) || p == WriteVmallocRo(v)
  }

  /** The write goes through its phases and dies at its store exactly when that is stranded. */
  lemma WriteAct(s: State, t: Task, v: Word, ok: bool, a: Alias, d: bool, on: bool)
    requires t in s.inside && WritePhase(s.inside[t], v) && Expected(s, s.inside[t], a, d, on)
    ensures var p := NextPhase(s, s.inside[t], ok);
            || WritePhase(p, v) || (p.Leaving? && !(a == Absent(false) && d && on))
            || (p.Dead? && a == Absent(false) && d && on)
    ensures RequestedAfter(s, Act(t, ok), on) == on
  {
  }

  lemma {:induction false} WriteProgress(r: Trace, d: bool, t: Task, v: Word, i: nat, k: nat)
    requires OrderlyRun(r, d) && i < k <= |r.events| && Writing(r, t, v, i, k)
    ensures var p := r.states[k].inside[t];
            || (WritePhase(p, v) && Requested(r, k) == Requested(r, i))
            || (p.Leaving? && !Stranded(r, d, i)) || (p.Dead? && Stranded(r, d, i))
  {
    hide Step, NextPhase, RequestedAfter, Consistent, Complies, WritePhase, Solo;
    var s, e := r.states[k - 1], r.events[k - 1];
    assert StepAt(r, k - 1);
    MutexStep(s, e);
    if k == i + 1 {
      OthersKeepLeaves(s, e, Requested(r, i));
      WriteStarts(v);
    } else {
      WriteProgress(r, d, t, v, i, k - 1);
      assert t in r.states[k].inside;
      if WritePhase(s.inside[t], v) {
        AlwaysConsistent(r, d, k - 1);
        WriteProgressStep(s, e, t, v, r.states[0].vmalloc, d, Requested(r, k - 1));
      }
    }
  }

  lemma WriteStarts(v: Word)
    ensures WritePhase(FirstPhase(SafeWrite(v)), v)
  {
  }

  lemma WriteProgressStep(s: State, e: Event, t: Task, v: Word, a: Alias, d: bool, on: bool)
    requires Enabled(s, e) && t in s.inside && WritePhase(s.inside[t], v)
    requires Consistent(s, a, d, on) && Solo(s)
    requires t in Step(s, e).inside
    ensures RequestedAfter(s, e, on) == on
    ensures var p := Step(s, e).inside[t];
            || WritePhase(p, v) || (p.Leaving? && !(a == Absent(false) && d && on))
            || (p.Dead? && a == Absent(false) && d && on)
  {
    hide Step, NextPhase, RequestedAfter, Expected;
    MutexStep(s, e);
    if e.Act? && e.t == t {
      WriteAct(s, t, v, e.ok, a, d, on);
    } else {
      OthersKeepLeaves(s, e, on);
    }
  }

  /** An authorised write dies holding the mutex only if it began on a stranded page, and only
      then; with the vmap alias it never faults, whoever stores or clears the owner meanwhile. */
  lemma WriteDiesIffStranded(r: Trace, d: bool, t: Task, v: Word, i: nat, k: nat)
    requires OrderlyRun(r, d) && i < k <= |r.events| && Writing(r, t, v, i, k)
    ensures r.states[k].inside[t].Dead? ==> Stranded(r, d, i)
    ensures r.states[k].inside[t].Leaving? ==> !Stranded(r, d, i)
    ensures r.states[0].vmalloc.Leaf? ==> !r.states[k].inside[t].Dead?
  {
    WriteProgress(r, d, t, v, i, k);
  }

  /** No other task is inside an authorised operation from the lock at `i` on. */
  ghost predicate Undisturbed(r: Trace, t: Task, i: nat, k: nat)
    requires k < |r.states|
  {
    forall m, u | i < m <= k && u in r.states[m].inside && u != t :: !r.states[m].inside[u].Authorised()
  }

  lemma {:induction false} RequestKept(r: Trace, d: bool, t: Task, v: Word, i: nat, k: nat)
    requires OrderlyRun(r, d) && i < k <= |r.events| && Writing(r, t, v, i, k) && Undisturbed(r, t, i, k)
    ensures Requested(r, k) == Requested(r, i)
  {
    hide Step, NextPhase;
    var s, e := r.states[k - 1], r.events[k - 1];
    assert StepAt(r, k - 1);
    if k > i + 1 {
      RequestKept(r, d, t, v, i, k - 1);
      WriteProgress(r, d, t, v, i, k - 1);
    }
  }

  /** A store by anybody but `t`. */
  predicate ForeignStore(s: State, e: Event, t: Task) {
    StoreOf(s, e).Some? && !(e.Act? && e.t == t)
  }

  /** The write has stored `v`. */
  predicate HasStored(s: State, t: Task, v: Word)
    requires t in s.inside
  {
    (s.inside[t].WriteDirectRo? || s.inside[t].WriteVmallocRo? || s.inside[t].Leaving?) ==> s.word == v
  }

  lemma HasStoredAct(s: State, t: Task, v: Word, ok: bool)
    requires t in s.inside && WritePhase(s.inside[t], v) && HasStored(s, t, v)
    ensures HasStored(Advance(s, t, ok), t, v)
  {
  }

  lemma {:induction false} HasStoredThroughout(r: Trace, d: bool, t: Task, v: Word, i: nat, k: nat)
    requires OrderlyRun(r, d) && i < k <= |r.events| && Writing(r, t, v, i, k)
    requires forall m | i < m < k :: !ForeignStore(r.states[m], r.events[m], t)
    ensures HasStored(r.states[k], t, v)
  {
    hide StoreOf, NextPhase, Complies, Solo, WritePhase;
    var s, e := r.states[k - 1], r.events[k - 1];
    assert StepAt(r, k - 1);
    MutexStep(s, e);
    if k > i + 1 {
      HasStoredThroughout(r, d, t, v, i, k - 1);
      WriteProgress(r, d, t, v, i, k - 1);
      if e.Act? && e.t == t {
        HasStoredAct(s, t, v, e.ok);
      } else {
        WordAfter(s, e);
      }
    }
  }

  /** When an authorised write is done and until another authorised operation begins, the leaves
      and the flag are as they were before it locked, and every alias reads `v` unless somebody
      else has stored since. */
  lemma WriteRestores(r: Trace, d: bool, t: Task, v: Word, i: nat, k: nat)
    requires OrderlyRun(r, d) && i < k <= |r.events| && Writing(r, t, v, i, k) && Undisturbed(r, t, i, k)
    requires r.states[k].inside[t].Leaving?
    ensures var before, after := r.states[i], r.states[k];
            && after.flag == before.flag && after.direct == before.direct && after.vmalloc == before.vmalloc
    ensures (forall m | i < m < k :: !ForeignStore(r.states[m], r.events[m], t)) ==> r.states[k].word == v
  {
    hide Step, Complies, Solo, ForeignStore;
    RequestKept(r, d, t, v, i, k);
    assert Idle(r.states[k]);
    FlagMatchesLeaves(r, d, k);
    assert StepAt(r, i);
    MutexStep(r.states[i], r.events[i]);
    forall u | u in r.states[i].inside
      ensures !r.states[i].inside[u].Authorised()
    {
      assert u in r.states[i + 1].inside && u != t;
    }
    FlagMatchesLeaves(r, d, i);
    if forall m | i < m < k :: !ForeignStore(r.states[m], r.events[m], t) {
      HasStoredThroughout(r, d, t, v, i, k);
    }
  }

  /** If no owner-clear hits a task inside and nobody stores from outside, a whole
      `safety_mem_safe_write(v)` from its lock at `i` to its unlock at `j` makes every alias read
      `v` and changes nothing else. */
  lemma SafeWriteRestores(r: Trace, d: bool, t: Task, v: Word, i: nat, j: nat)
    requires CompliantRun(r, d) && i < j < |r.events| && Writing(r, t, v, i, j) && r.events[j] == Unlock(t)
    requires forall m | i < m < j :: !OutsideStore(r.states[m], r.events[m])
    ensures var before, after := r.states[i], r.states[j + 1];
            && after.word == v && after.flag == before.flag
            && after.direct == before.direct && after.vmalloc == before.vmalloc
            && after.inside == before.inside == map[] && after.owner == before.owner == None
  {
    hide Step, NextPhase, Complies, StoreOf;
    CompliantIsOrderly(r, d);
    forall m | i < m <= j
      ensures r.states[m].inside.Keys == {t}
    {
      ExclusiveFrom(r, 0, m);
    }
    forall m | i < m < j
      ensures !ForeignStore(r.states[m], r.events[m], t)
    {
      assert StepAt(r, m);
      StoresAreActs(r.states[m], r.events[m], t);
    }
    assert StepAt(r, i) && StepAt(r, j);
    WriteRestores(r, d, t, v, i, j);
    UnlockKeeps(r.states[j], t);
    ExclusiveFrom(r, 0, i);
    ExclusiveFrom(r, 0, j + 1);
  }

  lemma StoresAreActs(s: State, e: Event, t: Task)
    requires Enabled(s, e) && s.inside.Keys == {t} && !OutsideStore(s, e)
    ensures !ForeignStore(s, e, t)
  {
  }

  lemma UnlockKeeps(s: State, t: Task)
    requires Enabled(s, Unlock(t))
    ensures var n := Step(s, Unlock(t));
            n.word == s.word && n.flag == s.flag && n.direct == s.direct && n.vmalloc == s.vmalloc && n.owner == None
  {
  }
}
