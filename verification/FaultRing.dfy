/** Bounded histories. */
module Bounded {

  /** The last `n` elements, or all of them. */
  function Last<T>(s: seq<T>, n: nat): (r: seq<T>)
    ensures |r| == if |s| < n then |s| else n
  {
    s[if |s| < n then 0 else |s| - n..]
  }
}

/**
 The two fault logs: bounded rings that stand for "the last 128 events". Each critical section
 under the logs' spinlocks is one atomic operation; the CPU monitor's unlocked range test is not.
 */
module FaultRing {
  import opened Bounded

  const DEMO_LOG_CAPACITY: nat := 128

  /** The slot of the `k`-th event. */
  function Slot(k: nat): (i: nat)
    ensures i < DEMO_LOG_CAPACITY
  {
    k % DEMO_LOG_CAPACITY
  }

  /** Fewer than 128 consecutive positions fall into different slots. */
  lemma DistinctSlots(k: nat, n: nat)
    requires k < n < k + DEMO_LOG_CAPACITY
    ensures Slot(k) != Slot(n)
  {
  }

  /** The `n` last elements of `history` lie in the slots given by their positions. */
  ghost predicate Stored<T>(slots: seq<T>, history: seq<T>, n: nat) {
    && |slots| == DEMO_LOG_CAPACITY && n <= |history|
    && forall k | |history| - n <= k < |history| :: slots[Slot(k)] == history[k]
  }

  lemma StoredAppend<T>(slots: seq<T>, history: seq<T>, n: nat, n': nat, entry: T)
    requires Stored(slots, history, n) && n' <= n + 1 && n' <= DEMO_LOG_CAPACITY
    ensures Stored(slots[Slot(|history|) := entry], history + [entry], n')
  {
    hide Slot;
    var h, m := history + [entry], |history|;
    var after := slots[Slot(m) := entry];
    forall k | |h| - n' <= k < |h|
      ensures after[Slot(k)] == h[k]
    {
      if k < m {
        DistinctSlots(k, m);
      }
    }
  }

  /** Where the copy loop finds the `i`-th of the kept elements. */
  lemma SlotOfKept(total: nat, count: nat, i: nat)
    requires i < count && count == if total < DEMO_LOG_CAPACITY then total else DEMO_LOG_CAPACITY
    ensures (if count == DEMO_LOG_CAPACITY then (Slot(total) + i) % DEMO_LOG_CAPACITY else i) == Slot(total - count + i)
  {
  }

  class Ring<T(0)> {
    const slots: array<T>
    var head: nat
    var count: nat
    /** Everything ever logged. */
    ghost var history: seq<T>

    ghost predicate Valid()
      reads this, slots
    {
      && slots.Length == DEMO_LOG_CAPACITY
      && head == Slot(|history|)
      && count == |Last(history, DEMO_LOG_CAPACITY)|
      && Stored(slots[..], history, count)
    }

    constructor ()
      ensures Valid() && history == [] && fresh(slots)
    {
      slots := new T[DEMO_LOG_CAPACITY];
      head, count, history := 0, 0, [];
    }

    /** Overwrites the slot at the head and moves on. */
    method Log(entry: T)
      requires Valid()
      modifies this, slots
      ensures Valid() && history == old(history) + [entry]
    {
      ghost var before, n := slots[..], count;
      slots[head] := entry;
      assert slots[..] == before[Slot(|history|) := entry];
      head := (head + 1) % DEMO_LOG_CAPACITY;
      if count < DEMO_LOG_CAPACITY {
        count := count + 1;
      }
      StoredAppend(before, history, n, count, entry);
      history := history + [entry];
    }

    /** The copy loop of the two `proc_show` functions: the kept events, oldest first. */
    method Snapshot() returns (snapshot: array<T>, n: nat)
      requires Valid()
      ensures fresh(snapshot) && n <= snapshot.Length
      ensures snapshot[..n] == Last(history, 128)
    {
      hide Last, Stored, Slot;
      snapshot := new T[DEMO_LOG_CAPACITY];
      n := count;
      ghost var kept := Last(history, DEMO_LOG_CAPACITY);
      for i := 0 to n
        invariant snapshot.Length == DEMO_LOG_CAPACITY && n == count && Valid()
        invariant forall k | 0 <= k < i :: snapshot[k] == kept[k]
      {
        var idx := if count == DEMO_LOG_CAPACITY then (head + i) % DEMO_LOG_CAPACITY else i;
        SlotOfKept(|history|, count, i);
        KeptSlot(slots[..], history, count, i);
        snapshot[i] := slots[idx];
      }
    }
  }

  lemma KeptSlot<T>(slots: seq<T>, history: seq<T>, n: nat, i: nat)
    requires Stored(slots, history, n) && i < n && n == |Last(history, DEMO_LOG_CAPACITY)|
    ensures slots[Slot(|history| - n + i)] == Last(history, DEMO_LOG_CAPACITY)[i]
  {
    hide Slot;
    var k := |history| - n + i;
    assert slots[Slot(k)] == history[k];
  }
}

/** The CPU fault monitor. */
module CtxMonitor {
  import opened Wrappers
  import opened Bounded
  import opened FaultRing

  datatype FaultEntry = FaultEntry(timestamp: nat, pc: nat, faultAddr: nat, pid: int, comm: string, err: int, trap: int)

  /** The die notifier's payload; both pointers may be null. */
  datatype DieArgs = DieArgs(pc: Option<nat>, err: int, trapnr: int)

  /** Clock and current task when the exception is reported. */
  datatype Context = Context(timestamp: nat, pid: int, comm: string)

  /** A moment in a history: after that many operations and, if `half`, between the two stores of
      the range update that comes next. */
  datatype Moment = Moment(done: nat, half: bool) {
    predicate UpTo(later: Moment) {
      done < later.done || (done == later.done && (half ==> later.half))
    }
  }

  /** When one notifier call loads the range: start and end for the tests against 0, then start
      and end again for the comparisons. */
  datatype Loads = Loads(startTested: Moment, endTested: Moment, startCompared: Moment, endCompared: Moment) {
    predicate InOrder(now: nat) {
      && startTested.UpTo(endTested) && endTested.UpTo(startCompared) && startCompared.UpTo(endCompared)
      && endCompared.UpTo(Moment(now, false))
    }
  }

  /** Range updates and appends are locked; a call stands where it appends or returns, and its
      loads, which take no lock, may have come earlier, also in the middle of an update. */
  datatype Op =
    | SetRange(start: nat, end: nat)
    | Notify(args: Option<DieArgs>, ctx: Context, at: Loads)

  ghost predicate History(ops: seq<Op>) {
    forall n | 0 <= n < |ops| :: ops[n].Notify? ==> ops[n].at.InOrder(n)
  }

  /** The range set by the last update. */
  function RangeAfter(ops: seq<Op>): (nat, nat) {
    if ops == [] then (0, 0)
    else if ops[|ops| - 1].SetRange? then (ops[|ops| - 1].start, ops[|ops| - 1].end)
    else RangeAfter(ops[..|ops| - 1])
  }

  /** The two bounds as an unlocked reader finds them. */
  function InForce(ops: seq<Op>, m: Moment): (nat, nat) {
    var range := RangeAfter(if m.done <= |ops| then ops[..m.done] else ops);
    if m.half && m.done < |ops| && ops[m.done].SetRange? then (ops[m.done].start, range.1) else range
  }

  /** A range with a zero bound filters nothing. */
  predicate Filtered(range: (nat, nat), pc: nat) {
    range.0 != 0 && range.1 != 0 && (pc < range.0 || pc >= range.1)
  }

  /** The four values that a call has loaded. */
  datatype Bounds = Bounds(startTested: nat, endTested: nat, startCompared: nat, endCompared: nat) {
    predicate Drop(pc: nat) {
      startTested != 0 && endTested != 0 && (pc < startCompared || pc >= endCompared)
    }
  }

  function Loaded(before: seq<Op>, at: Loads): Bounds {
    Bounds(InForce(before, at.startTested).0, InForce(before, at.endTested).1,
           InForce(before, at.startCompared).0, InForce(before, at.endCompared).1)
  }

  /** The call's own filter, which may see parts of several ranges. */
  predicate Dropped(before: seq<Op>, at: Loads, pc: nat) {
    Loaded(before, at).Drop(pc)
  }

  /** The entry that a call adds; the filter and the logged address are the program counter, not
      the address that was accessed. */
  function CallEntry(args: Option<DieArgs>, ctx: Context, loaded: Bounds): seq<FaultEntry> {
    if args.None? || args.value.pc.None? || loaded.Drop(args.value.pc.value) then []
    else [FaultEntry(ctx.timestamp, args.value.pc.value, args.value.pc.value, ctx.pid, ctx.comm,
                     args.value.err, args.value.trapnr)]
  }

  function EntryOf(op: Op, before: seq<Op>): seq<FaultEntry> {
    match op
    case SetRange(_, _) => []
    case Notify(args, ctx, at) => CallEntry(args, ctx, Loaded(before, at))
  }

  /** The accepted events of a history, in the order of their appends. */
  function Accepted(ops: seq<Op>): seq<FaultEntry> {
    if ops == [] then []
    else
      var before := ops[..|ops| - 1];
      Accepted(before) + EntryOf(ops[|ops| - 1], before)
  }

  class Monitor {
    const ring: Ring<FaultEntry>
    var rangeStart: nat
    var rangeEnd: nat

    ghost predicate Valid()
      reads this, ring, ring.slots
    {
      ring.Valid()
    }

    constructor ()
      ensures Valid() && ring.history == [] && rangeStart == 0 && rangeEnd == 0
      ensures fresh(ring) && fresh(ring.slots)
    {
      ring := new Ring<FaultEntry>();
      rangeStart, rangeEnd := 0, 0;
    }

    /** `half` is what an unlocked reader finds between the two stores. */
    method SetProtectedRange(start: nat, end: nat) returns (half: (nat, nat))
      requires Valid()
      modifies this
      ensures Valid() && rangeStart == start && rangeEnd == end && half == (start, old(rangeEnd))
    {
      rangeStart := start;
      half := (rangeStart, rangeEnd);
      rangeEnd := end;
    }

    /** `ctx_die_notifier_cb` with the values of its loads. */
    method DieNotifier(args: Option<DieArgs>, ctx: Context, loaded: Bounds)
      requires Valid()
      modifies ring, ring.slots
      ensures Valid() && ring.history == old(ring.history) + CallEntry(args, ctx, loaded)
    {
      if args.None? || args.value.pc.None? {
        return;
      }
      var faultAddr := args.value.pc.value;
      if loaded.startTested != 0 && loaded.endTested != 0 {
        if faultAddr < loaded.startCompared || faultAddr >= loaded.endCompared {
          return;
        }
      }
      ring.Log(FaultEntry(ctx.timestamp, args.value.pc.value, faultAddr, ctx.pid, ctx.comm,
                          args.value.err, args.value.trapnr));
    }
  }

  /** What a reader finds after some operations and halfway through the next. */
  datatype Sight = Sight(whole: (nat, nat), half: (nat, nat)) {
    function At(half: bool): (nat, nat) {
      if half then this.half else whole
    }
  }

  /** `seen` records the bounds over a whole history. */
  ghost predicate Records(seen: seq<Sight>, now: (nat, nat), ops: seq<Op>) {
    && |seen| == |ops| && now == InForce(ops, Moment(|ops|, false))
    && forall k | 0 <= k < |ops| ::
         seen[k].whole == InForce(ops, Moment(k, false)) && seen[k].half == InForce(ops, Moment(k, true))
  }

  lemma RecordsStep(seen: seq<Sight>, now: (nat, nat), ops: seq<Op>, op: Op)
    requires Records(seen, now, ops)
    ensures var next := if op.SetRange? then (op.start, op.end) else now;
            var half := if op.SetRange? then (op.start, now.1) else now;
            Records(seen + [Sight(now, half)], next, ops + [op])
  {
    var n := ops + [op];
    assert n[..|ops|] == ops && n[..|n|] == n && ops[..|ops|] == ops;
    forall k, half | 0 <= k < |ops|
      ensures InForce(n, Moment(k, half)) == InForce(ops, Moment(k, half))
    {
      assert n[..k] == ops[..k];
    }
  }

  /** A load in a recorded history. */
  function Look(seen: seq<Sight>, now: (nat, nat), m: Moment): (nat, nat) {
    if m.done < |seen| then seen[m.done].At(m.half) else now
  }

  lemma LookIsInForce(seen: seq<Sight>, now: (nat, nat), ops: seq<Op>, m: Moment)
    requires Records(seen, now, ops)
    ensures Look(seen, now, m) == InForce(ops, m)
  {
    assert ops[..|ops|] == ops;
    if m.done < |ops| {
      assert m == Moment(m.done, m.half);
    }
  }

  /** For every interleaving of notifier calls, with their loads at any earlier moments, and range
      updates the rendered log is the last 128 accepted events in the order of their appends. */
  method RenderedLog(ops: seq<Op>) returns (log: seq<FaultEntry>)
    ensures log == Last(Accepted(ops), 128)
  {
    hide Last, Stored, Slot, Records, InForce, CallEntry;
    var monitor := new Monitor();
    var seen: seq<Sight> := [];
    NothingSeen();
    for i := 0 to |ops|
      invariant monitor.Valid() && fresh(monitor) && fresh(monitor.ring) && fresh(monitor.ring.slots)
      invariant monitor.ring.history == Accepted(ops[..i])
      invariant Records(seen, (monitor.rangeStart, monitor.rangeEnd), ops[..i])
    {
      assert ops[..i + 1] == ops[..i] + [ops[i]] && ops[..i + 1][..i] == ops[..i];
      var now := (monitor.rangeStart, monitor.rangeEnd);
      RecordsStep(seen, now, ops[..i], ops[i]);
      match ops[i]
      case SetRange(start, end) =>
        var half := monitor.SetProtectedRange(start, end);
        seen := seen + [Sight(now, half)];
      case Notify(args, ctx, at) =>
        LookIsInForce(seen, now, ops[..i], at.startTested);
        LookIsInForce(seen, now, ops[..i], at.endTested);
        LookIsInForce(seen, now, ops[..i], at.startCompared);
        LookIsInForce(seen, now, ops[..i], at.endCompared);
        monitor.DieNotifier(args, ctx, Bounds(Look(seen, now, at.startTested).0, Look(seen, now, at.endTested).1,
                                              Look(seen, now, at.startCompared).0, Look(seen, now, at.endCompared).1));
        seen := seen + [Sight(now, now)];
    }
    assert ops[..|ops|] == ops;
    var snapshot, n := monitor.ring.Snapshot();
    log := snapshot[..n];
  }

  lemma NothingSeen()
    ensures Records([], (0, 0), [])
  {
  }

  /** The entry of a call with registers: its program counter is also the fault address. */
  predicate IsEntryOf(entry: FaultEntry, op: Op) {
    && op.Notify? && op.args.Some? && op.args.value.pc.Some?
    && entry == FaultEntry(op.ctx.timestamp, op.args.value.pc.value, op.args.value.pc.value,
                           op.ctx.pid, op.ctx.comm, op.args.value.err, op.args.value.trapnr)
  }

  ghost predicate Increasing(s: seq<nat>) {
    forall i, j | 0 <= i < j < |s| :: s[i] < s[j]
  }

  /** Operation `n` is a call whose filter let it through, with this entry. */
  predicate LoggedAt(ops: seq<Op>, n: nat, entry: FaultEntry) {
    n < |ops| && IsEntryOf(entry, ops[n]) && !Dropped(ops[..n], ops[n].at, entry.pc)
  }

  /** Operation `n` is a range update, or a call without registers or dropped by its filter. */
  predicate NotLoggedAt(ops: seq<Op>, n: nat)
    requires n < |ops|
  {
    || ops[n].SetRange? || ops[n].args.None? || ops[n].args.value.pc.None?
    || Dropped(ops[..n], ops[n].at, ops[n].args.value.pc.value)
  }

  lemma LoggedPrefix(ops: seq<Op>, n: nat)
    requires n < |ops| - 1
    ensures NotLoggedAt(ops[..|ops| - 1], n) == NotLoggedAt(ops, n)
    ensures forall entry | LoggedAt(ops[..|ops| - 1], n, entry) :: LoggedAt(ops, n, entry)
  {
    assert ops[..|ops| - 1][..n] == ops[..n];
  }

  lemma LoggedLast(op: Op, before: seq<Op>)
    ensures var ops := before + [op];
            if EntryOf(op, before) == [] then NotLoggedAt(ops, |before|)
            else |EntryOf(op, before)| == 1 && LoggedAt(ops, |before|, EntryOf(op, before)[0])
  {
    assert (before + [op])[..|before|] == before;
  }

  /** No call is lost, duplicated or reordered: the accepted events belong to strictly increasing
      positions of the history, and every call at another position had no registers or was
      dropped by its filter. */
  lemma {:induction false} AcceptedInOrder(ops: seq<Op>) returns (pos: seq<nat>)
    ensures |pos| == |Accepted(ops)| && Increasing(pos)
    ensures forall k | 0 <= k < |pos| :: LoggedAt(ops, pos[k], Accepted(ops)[k])
    ensures forall n | 0 <= n < |ops| && n !in pos :: NotLoggedAt(ops, n)
  {
    hide LoggedAt, NotLoggedAt, EntryOf;
    if ops == [] {
      pos := [];
    } else {
      var n := |ops| - 1;
      var before := ops[..n];
      var earlier := AcceptedInOrder(before);
      assert ops == before + [ops[n]];
      LoggedLast(ops[n], before);
      forall k | 0 <= k < |earlier|
        ensures earlier[k] < n && LoggedAt(ops, earlier[k], Accepted(before)[k])
      {
        assert earlier[k] < n by { LoggedInside(before, earlier[k], Accepted(before)[k]); }
        LoggedPrefix(ops, earlier[k]);
      }
      forall m | 0 <= m < n && m !in earlier
        ensures NotLoggedAt(ops, m)
      {
        LoggedPrefix(ops, m);
      }
      pos := earlier + if EntryOf(ops[n], before) == [] then [] else [n];
      assert forall k | k in earlier :: k in pos;
    }
  }

  lemma LoggedInside(ops: seq<Op>, n: nat, entry: FaultEntry)
    requires LoggedAt(ops, n, entry)
    ensures n < |ops|
  {
  }

  // ---- What unlocked loads do to the filter ----

  lemma {:induction false} RangeKept(ops: seq<Op>, k: nat)
    requires k <= |ops| && forall n | k <= n < |ops| :: ops[n].Notify?
    ensures RangeAfter(ops[..k]) == RangeAfter(ops)
    decreases |ops|
  {
    if k == |ops| {
      assert ops[..k] == ops;
    } else {
      var before := ops[..|ops| - 1];
      assert before[..k] == ops[..k];
      RangeKept(before, k);
    }
  }

  /** A call during which the range is not updated is judged by the range in force. */
  lemma QuietCallIsAtomic(before: seq<Op>, at: Loads, pc: nat)
    requires at.InOrder(|before|) && forall n | at.startTested.done <= n < |before| :: before[n].Notify?
    ensures Dropped(before, at, pc) <==> Filtered(RangeAfter(before), pc)
  {
    RangeKept(before, at.startTested.done);
    RangeKept(before, at.endTested.done);
    RangeKept(before, at.startCompared.done);
    RangeKept(before, at.endCompared.done);
  }

  /** The updates that the protection switch makes: one fixed range, or none. */
  ghost predicate Switching(ops: seq<Op>, range: (nat, nat)) {
    forall n | 0 <= n < |ops| && ops[n].SetRange? :: (ops[n].start, ops[n].end) in {(0, 0), range}
  }

  lemma {:induction false} SwitchedRange(ops: seq<Op>, range: (nat, nat))
    requires Switching(ops, range)
    ensures RangeAfter(ops) == (0, 0) || RangeAfter(ops) == range
  {
    if ops != [] && ops[|ops| - 1].Notify? {
      SwitchedRange(ops[..|ops| - 1], range);
    }
  }

  lemma SwitchedBounds(ops: seq<Op>, range: (nat, nat), m: Moment)
    requires Switching(ops, range)
    ensures InForce(ops, m).0 in {0, range.0} && InForce(ops, m).1 in {0, range.1}
  {
    SwitchedRange(if m.done <= |ops| then ops[..m.done] else ops, range);
  }

  lemma SwitchedLoads(before: seq<Op>, at: Loads, range: (nat, nat))
    requires Switching(before, range)
    ensures var b := Loaded(before, at);
            && b.startTested in {0, range.0} && b.endTested in {0, range.1}
            && b.startCompared in {0, range.0} && b.endCompared in {0, range.1}
  {
    hide InForce, Switching;
    SwitchedBounds(before, range, at.startTested);
    SwitchedBounds(before, range, at.endTested);
    SwitchedBounds(before, range, at.startCompared);
    SwitchedBounds(before, range, at.endCompared);
  }

  /** A fault inside the protected range, which neither setting of the switch would drop, is lost
      exactly when both bounds are set at their tests and the end is gone by its comparison. */
  lemma InsideFaultLostIff(before: seq<Op>, at: Loads, range: (nat, nat), pc: nat)
    requires Switching(before, range) && 0 < range.0 <= pc < range.1
    ensures Dropped(before, at, pc) <==>
            var b := Loaded(before, at); b.startTested != 0 && b.endTested != 0 && b.endCompared == 0
  {
    hide Loaded, Switching;
    SwitchedLoads(before, at, range);
  }

  /** A fault outside it is logged exactly when a bound is gone at its test or, below the range,
      when the start is gone and the end still set at the comparisons. */
  lemma OutsideFaultLoggedIff(before: seq<Op>, at: Loads, range: (nat, nat), pc: nat)
    requires Switching(before, range) && 0 < range.0 < range.1 && !(range.0 <= pc < range.1)
    ensures !Dropped(before, at, pc) <==>
            var b := Loaded(before, at);
            || b.startTested == 0 || b.endTested == 0
            || (pc < range.0 && b.startCompared == 0 && b.endCompared != 0)
  {
    hide Loaded, Switching;
    SwitchedLoads(before, at, range);
  }

  /** The protection switch sets its range and is then switched off. */
  function SwitchedOff(range: (nat, nat)): seq<Op> {
    [SetRange(range.0, range.1), SetRange(0, 0)]
  }

  lemma SwitchedOffRanges(range: (nat, nat))
    ensures var before := SwitchedOff(range);
            && InForce(before, Moment(1, false)) == range && InForce(before, Moment(1, true)) == (0, range.1)
            && InForce(before, Moment(2, false)) == (0, 0) && Accepted(before) == []
  {
    var before := SwitchedOff(range);
    var on := [SetRange(range.0, range.1)];
    assert before[..1] == on && before[..2] == before && on[..0] == [];
    assert Accepted(on) == Accepted([]) + [];
    assert Accepted(before) == Accepted(on) + [];
  }

  lemma AcceptedAfter(before: seq<Op>, op: Op)
    ensures Accepted(before + [op]) == Accepted(before) + EntryOf(op, before)
  {
    assert (before + [op])[..|before|] == before;
  }

  /** Switching protection off during a call can lose a fault inside the range, when the last
      comparison comes after both stores, and can log one below it although the tests found the
      range set, when the comparisons fall between the two stores. */
  lemma SwitchMisjudgesFaults(range: (nat, nat), args: DieArgs, ctx: Context)
    requires args.pc.Some? && 0 < range.0 < range.1
    ensures var whole, half := Moment(1, false), Moment(1, true);
            var late := Notify(Some(args), ctx, Loads(whole, whole, half, Moment(2, false)));
            var torn := Notify(Some(args), ctx, Loads(whole, whole, half, half));
            && History(SwitchedOff(range) + [late]) && History(SwitchedOff(range) + [torn])
            && (range.0 <= args.pc.value < range.1 ==> Accepted(SwitchedOff(range) + [late]) == [])
            && (args.pc.value < range.0 ==> |Accepted(SwitchedOff(range) + [torn])| == 1)
  {
    hide InForce, Accepted;
    var whole, half := Moment(1, false), Moment(1, true);
    SwitchedOffRanges(range);
    AcceptedAfter(SwitchedOff(range), Notify(Some(args), ctx, Loads(whole, whole, half, Moment(2, false))));
    AcceptedAfter(SwitchedOff(range), Notify(Some(args), ctx, Loads(whole, whole, half, half)));
  }
}

/** The DMA fault log of the SMMU guard: the same ring without a filter. */
module SmmuGuard {
  import opened Wrappers
  import opened Bounded
  import opened FaultRing

  datatype SmmuEntry = SmmuEntry(timestamp: nat, phys: nat, size: nat, streamId: nat, devName: string, action: string)

  datatype BlockedDma = BlockedDma(timestamp: nat, phys: nat, size: nat, streamId: nat, devName: Option<string>)

  const DEMO_DEVICE_NAME_SIZE: nat := 32

  /** `strscpy` into a buffer: at most `size - 1` characters. */
  function Copied(s: string, size: nat): string
    requires size > 0
  {
    if |s| < size then s else s[..size - 1]
  }

  function EntryFor(d: BlockedDma): SmmuEntry {
    var name := if d.devName.Some? then d.devName.value else "dummy_dma_dev";
    SmmuEntry(d.timestamp, d.phys, d.size, d.streamId, Copied(name, DEMO_DEVICE_NAME_SIZE), "BLOCKED")
  }

  /** The entry of a transaction: its own figures, the default name for a device without one, at
      most the first 31 characters of the name, and the action. */
  predicate IsEntryOf(e: SmmuEntry, d: BlockedDma) {
    && e.timestamp == d.timestamp && e.phys == d.phys && e.size == d.size && e.streamId == d.streamId
    && e.action == "BLOCKED"
    && (d.devName.None? ==> e.devName == "dummy_dma_dev")
    && (d.devName.Some? ==> e.devName <= d.devName.value
                            && |e.devName| == if |d.devName.value| < 31 then |d.devName.value| else 31)
  }

  lemma EntryIsExact(d: BlockedDma)
    ensures IsEntryOf(EntryFor(d), d)
  {
  }

  /** `smmu_guard_log_blocked_dma` for each transaction in turn, then the rendered log: the last
      128 transactions in arrival order. */
  method RenderedLog(dmas: seq<BlockedDma>) returns (log: seq<SmmuEntry>)
    ensures log == Last(seq(|dmas|, i requires 0 <= i < |dmas| => EntryFor(dmas[i])), 128)
    ensures |log| == if |dmas| < 128 then |dmas| else 128
    ensures forall i | 0 <= i < |log| :: IsEntryOf(log[i], dmas[|dmas| - |log| + i])
  {
    hide Last, Stored, Slot;
    var ring := new Ring<SmmuEntry>();
    for i := 0 to |dmas|
      invariant ring.Valid() && fresh(ring) && fresh(ring.slots)
      invariant |ring.history| == i && forall k | 0 <= k < i :: ring.history[k] == EntryFor(dmas[k])
    {
      ring.Log(EntryFor(dmas[i]));
    }
    assert ring.history == seq(|dmas|, i requires 0 <= i < |dmas| => EntryFor(dmas[i]));
    var snapshot, n := ring.Snapshot();
    log := snapshot[..n];
    LastAt(ring.history, 128);
    forall i | 0 <= i < |log|
      ensures IsEntryOf(log[i], dmas[|dmas| - |log| + i])
    {
      EntryIsExact(dmas[|dmas| - |log| + i]);
    }
  }

  lemma LastAt<T>(s: seq<T>, n: nat)
    ensures forall i | 0 <= i < |Last(s, n)| :: Last(s, n)[i] == s[|s| - |Last(s, n)| + i]
  {
  }
}
