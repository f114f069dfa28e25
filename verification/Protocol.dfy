/**
 The safety word, its mutex and everybody who touches them, as a transition system.

 One physical word is reached through two virtual aliases (the direct map and the
 vmap alias), so the state holds one `word` and one write bit per alias. Every lock,
 unlock, read, store, `set_memory_*` call and counter increment is one atomic event.

 Environment contracts:
  - a lock is acquired only when the owner word is 0; unlocking writes 0 whoever holds it;
  - `set_memory_ro/rw` flips the write bit of one leaf and returns 0, or changes nothing;
  - a nofault copy succeeds exactly when its leaf is present and writable;
  - a plain store through a read-only alias kills the storing task and changes nothing;
  - memory is sequentially consistent and counters do not wrap.
 */
module SafetyProtocol {
  import opened Wrappers

  /** A `u32` of the source. */
  type Word = w: int | 0 <= w < 0x1_0000_0000

  const SAFETY_SENTINEL: Word := 0x5AFE1234

  type Task = nat

  /** The vmap alias of the safety page: `vmap` may have failed, leaving a null pointer. The
      page-table walk of that pointer then inspects some other mapping, of which only one thing
      matters: whether it is valid and read-only. */
  datatype Alias = Absent(nullReadOnly: bool) | Leaf(writable: bool) {
    predicate Writable() {
      Leaf? && writable
    }

    /** The walk reports a valid mapping without write permission. */
    predicate WalkedReadOnly() {
      if Leaf? then !writable else nullReadOnly
    }
  }

  /** The four pieces of code that take `safety_mutex`. */
  datatype Entry =
    | ThreadA
    | ThreadB
    | SetProtection(enable: bool)
    | SafeWrite(val: Word)

  /** What a task between lock and unlock does next. */
  datatype Phase =
    | AReadInitial
    | AReadCurrent(initial: Word)
    | ACompare(initial: Word, current: Word)
    | BRestore
    | ProtectDirect(enable: bool)
    | ProtectVmalloc(enable: bool)
    | ProtectFlag(enable: bool, vmallocOk: bool)
    | WriteReadFlag(val: Word)
    | WriteDirectRw(val: Word)
    | WriteVmallocRw(val: Word)
    | WriteStore(val: Word, wasRo: bool)
    | WriteDirectRo(val: Word)
    | WriteVmallocRo(val: Word)
    | Leaving
    | Dead
  {
    /** The next step is a `set_memory_*` call. */
    predicate ChangesLeaf() {
      ProtectDirect? || ProtectVmalloc? || WriteDirectRw? || WriteVmallocRw? || WriteDirectRo? || WriteVmallocRo?
    }

    /** Part of `safety_mem_set_protection` or `safety_mem_safe_write`, the unlock excepted. */
    predicate Authorised() {
      ChangesLeaf() || ProtectFlag? || WriteReadFlag? || WriteStore?
    }
  }

  /** Where the rogue thread is in one iteration of its loop. */
  datatype Rogue = RogueIdle | RogueStored | RogueSawLocked | RogueCleared | RogueDead

  /** The three modes of the bad driver. */
  datatype Attack = VmallocWrite | MutexBypass | LinearAlias

  datatype State = State(
    word: Word,
    direct: bool,
    vmalloc: Alias,
    flag: bool,
    owner: Option<Task>,
    inside: map<Task, Phase>,
    violations: nat,
    rogue: Rogue,
    unsyncWrites: nat,
    metadataAttacks: nat,
    reports: map<nat, Word>
  )

  datatype Event =
    | Lock(t: Task, entry: Entry)
    | Act(t: Task, ok: bool)
    | Unlock(t: Task)
    | RogueStore(val: Word)
    | RogueCheck
    | RogueClear
    | RogueCount
    | BadWrite(mode: Attack)
    | ReportVmalloc(r: nat)
    | ReportDirect(r: nat)

  function FirstPhase(entry: Entry): Phase {
    match entry
    case ThreadA => AReadInitial
    case ThreadB => BRestore
    case SetProtection(enable) => ProtectDirect(enable)
    case SafeWrite(val) => WriteReadFlag(val)
  }

  predicate Enabled(s: State, e: Event) {
    match e
    case Lock(t, _) => s.owner.None? && t !in s.inside
    case Act(t, _) => t in s.inside && !s.inside[t].Leaving? && !s.inside[t].Dead?
    case Unlock(t) => t in s.inside && s.inside[t].Leaving?
    case RogueStore(_) => s.rogue.RogueIdle?
    case RogueCheck => s.rogue.RogueIdle?
    case RogueClear => s.rogue.RogueSawLocked?
    case RogueCount => s.rogue.RogueStored? || s.rogue.RogueCleared?
    case BadWrite(_) => true
    case ReportVmalloc(r) => r !in s.reports
    case ReportDirect(r) => r in s.reports
  }

  /** Whether the alias that an attack mode stores through is writable; a missing vmap alias
      makes mode 1 fall back to the direct one. */
  predicate AttackLands(s: State, mode: Attack) {
    match mode
    case VmallocWrite => if s.vmalloc.Absent? then s.direct else s.vmalloc.writable
    case MutexBypass => s.direct
    case LinearAlias => s.direct
  }

  function AttackValue(mode: Attack): Word {
    match mode
    case VmallocWrite => 0xBAD10001
    case MutexBypass => 0xBAD20002
    case LinearAlias => 0xBAD30003
  }

  /** The value a task stores in the safety word by its next step, if it stores one. */
  function PhaseStore(s: State, p: Phase): Option<Word> {
    if p.BRestore? && s.direct then Some(SAFETY_SENTINEL)
    else if p.WriteStore? && s.direct then Some(p.val)
    else None
  }

  /** The value an enabled event stores in the safety word, if it stores one. */
  function StoreOf(s: State, e: Event): Option<Word> {
    match e
    case Act(t, _) => if t in s.inside then PhaseStore(s, s.inside[t]) else None
    case RogueStore(val) => if s.direct then Some(val) else None
    case BadWrite(mode) => if AttackLands(s, mode) then Some(AttackValue(mode)) else None
    case _ => None
  }

  /** A store by code that does not take the mutex. */
  predicate OutsideStore(s: State, e: Event) {
    (e.RogueStore? || e.BadWrite?) && StoreOf(s, e).Some?
  }

  /** The phase after a task's next step; `ok` is the result of the step's `set_memory_*`
      call when it makes one. */
  function NextPhase(s: State, p: Phase, ok: bool): Phase {
    match p
    case AReadInitial => AReadCurrent(s.word)
    case AReadCurrent(initial) => ACompare(initial, s.word)
    case ACompare(_, _) => Leaving
    case BRestore => if s.direct then Leaving else Dead
    case ProtectDirect(enable) => ProtectVmalloc(enable)
    case ProtectVmalloc(enable) => ProtectFlag(enable, s.vmalloc.Absent? || ok)
    case ProtectFlag(_, _) => Leaving
    case WriteReadFlag(val) => if s.flag then WriteDirectRw(val) else WriteStore(val, false)
    case WriteDirectRw(val) => WriteVmallocRw(val)
    case WriteVmallocRw(val) => WriteStore(val, true)
    case WriteStore(val, wasRo) => if !s.direct then Dead else if wasRo then WriteDirectRo(val) else Leaving
    case WriteDirectRo(val) => WriteVmallocRo(val)
    case WriteVmallocRo(_) => Leaving
    case Leaving => Leaving
    case Dead => Dead
  }

  /** The direct leaf after the step: `set_memory_*` with result `ok` on phases that call it. */
  function DirectAfter(direct: bool, p: Phase, ok: bool): bool {
    if !ok then direct
    else if p.ProtectDirect? then !p.enable
    else if p.WriteDirectRw? then true
    else if p.WriteDirectRo? then false
    else direct
  }

  /** The vmap leaf after the step; a missing alias is skipped. */
  function VmallocAfter(vmalloc: Alias, p: Phase, ok: bool): Alias {
    if !ok || vmalloc.Absent? then vmalloc
    else if p.ProtectVmalloc? then Leaf(!p.enable)
    else if p.WriteVmallocRw? then Leaf(true)
    else if p.WriteVmallocRo? then Leaf(false)
    else vmalloc
  }

  /** The protection flag: set only when the vmap leaf was changed and verified read-only. */
  function FlagAfter(s: State, p: Phase): bool {
    if p.ProtectFlag? then p.enable && p.vmallocOk && s.vmalloc.WalkedReadOnly() else s.flag
  }

  function ViolationsAfter(s: State, p: Phase): nat {
    if p.ACompare? && p.initial != p.current then s.violations + 1 else s.violations
  }

  function Stored(word: Word, store: Option<Word>): Word {
    if store.Some? then store.value else word
  }

  /** One step of a task that holds, or thinks it holds, the mutex. */
  function Advance(s: State, t: Task, ok: bool): State
    requires t in s.inside
  {
    var p := s.inside[t];
    s.(inside := s.inside[t := NextPhase(s, p, ok)],
       word := Stored(s.word, PhaseStore(s, p)),
       direct := DirectAfter(s.direct, p, ok),
       vmalloc := VmallocAfter(s.vmalloc, p, ok),
       flag := FlagAfter(s, p),
       violations := ViolationsAfter(s, p))
  }

  /** One event; an event that is not enabled changes nothing. */
  function Step(s: State, e: Event): State {
    if !Enabled(s, e) then s else
    match e
    case Lock(t, entry) => s.(owner := Some(t), inside := s.inside[t := FirstPhase(entry)])
    case Act(t, ok) => Advance(s, t, ok)
    case Unlock(t) => s.(owner := None, inside := s.inside - {t})
    case RogueStore(val) =>
      if s.direct then s.(word := val, rogue := RogueStored) else s.(rogue := RogueDead)
    case RogueCheck => if s.owner.Some? then s.(rogue := RogueSawLocked) else s
    case RogueClear => s.(owner := None, rogue := RogueCleared)
    case RogueCount =>
      if s.rogue.RogueStored? then s.(rogue := RogueIdle, unsyncWrites := s.unsyncWrites + 1)
      else s.(rogue := RogueIdle, metadataAttacks := s.metadataAttacks + 1)
    case BadWrite(mode) => if AttackLands(s, mode) then s.(word := AttackValue(mode)) else s
    case ReportVmalloc(r) => s.(reports := s.reports[r := if s.vmalloc.Leaf? then s.word else 0])
    case ReportDirect(r) => s.(reports := s.reports - {r})
  }

  /** After `safety_mem_init`: the sentinel stored, both aliases writable, nobody running. */
  predicate Initial(s: State) {
    && s.word == SAFETY_SENTINEL && s.direct && s.vmalloc != Leaf(false) && !s.flag
    && s.owner == None && s.inside == map[] && s.violations == 0
    && s.rogue == RogueIdle && s.unsyncWrites == 0 && s.metadataAttacks == 0 && s.reports == map[]
  }

  /** A finite history: `states[k]` is the state before `events[k]`. */
  datatype Trace = Trace(states: seq<State>, events: seq<Event>)

  /** Event `k` is enabled and leads to the next state. */
  ghost predicate StepAt(r: Trace, k: nat)
    requires k < |r.events| && |r.states| == |r.events| + 1
  {
    Enabled(r.states[k], r.events[k]) && r.states[k + 1] == Step(r.states[k], r.events[k])
  }

  /** Every event is enabled when it happens and leads to the next state. */
  ghost predicate IsRun(r: Trace) {
    |r.states| == |r.events| + 1 && forall k: nat | k < |r.events| :: StepAt(r, k)
  }

  /** A run that starts when the module has just been initialised. */
  ghost predicate InitialRun(r: Trace) {
    IsRun(r) && Initial(r.states[0])
  }

  /** No owner-clear happens at or after position `from`. */
  ghost predicate NoClears(r: Trace, from: nat) {
    forall k | from <= k < |r.events| :: !r.events[k].RogueClear?
  }

  /** No owner-clear at or after position `from` lands while a task is inside. */
  ghost predicate VacantClears(r: Trace, from: nat)
    requires |r.events| < |r.states|
  {
    forall k | from <= k < |r.events| && r.events[k].RogueClear? :: r.states[k].inside == map[]
  }

  /** Only a store changes the word, and it changes it to the stored value. */
  lemma WordAfter(s: State, e: Event)
    requires Enabled(s, e)
    ensures Step(s, e).word == Stored(s.word, StoreOf(s, e))
  {
  }

  function Extend(r: Trace, e: Event): Trace
    requires r.states != []
  {
    Trace(r.states + [Step(r.states[|r.states| - 1], e)], r.events + [e])
  }

  /** An enabled event extends a run. */
  lemma ExtendIsRun(r: Trace, e: Event)
    requires IsRun(r) && Enabled(r.states[|r.events|], e)
    ensures IsRun(Extend(r, e))
  {
    hide Step, Enabled;
    var n := Extend(r, e);
    forall k: nat | k < |n.events|
      ensures StepAt(n, k)
    {
      if k < |r.events| {
        assert StepAt(r, k);
      }
    }
  }
}
