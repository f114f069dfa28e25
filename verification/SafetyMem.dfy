/**
 `safety_mem_set_protection` and `safety_mem_safe_write` as straight-line code on the module's
 globals, tied to the transition system: executed alone, each is a run of it, event by event.
 */
module SafetyMem {
  import opened Wrappers
  import opened SafetyProtocol
  import opened Protection

  /** The results of the up to four `set_memory_*` calls of one authorised write. */
  datatype WriteResults = WriteResults(directRw: bool, vmallocRw: bool, directRo: bool, vmallocRo: bool)

  /** A run that starts in `from` and ends in `to`. */
  ghost predicate RunBetween(r: Trace, from: State, to: State) {
    IsRun(r) && r.states[0] == from && r.states[|r.events|] == to
  }

  const EINVAL := -22

  /** The vmap alias once an authorised write has tried to make it writable. */
  function Unlocked(vmalloc: Alias, ok: WriteResults): Alias {
    if vmalloc.Leaf? && ok.vmallocRw then Leaf(true) else vmalloc
  }

  /** The events of one `safety_mem_safe_write(val)` begun with the flag at `flag`. */
  function WriteEvents(t: Task, val: Word, flag: bool, ok: WriteResults, died: bool): seq<Event> {
    [Lock(t, SafeWrite(val))] + [Act(t, true)]
    + (if flag then [Act(t, ok.directRw), Act(t, ok.vmallocRw)] else [])
    + [Act(t, true)]
    + (if died then [] else (if flag then [Act(t, ok.directRo), Act(t, ok.vmallocRo)] else []) + [Unlock(t)])
  }

  class SafetyMem {
    var word: Word
    var direct: bool
    var vmalloc: Alias
    var flag: bool
    var owner: Option<Task>
    ghost var inside: map<Task, Phase>

    /** The module's state inside an otherwise idle system. */
    ghost function View(): State
      reads this
    {
      State(word, direct, vmalloc, flag, owner, inside, 0, RogueIdle, 0, 0, map[])
    }

    /** `safety_mem_init`: the sentinel stored, both aliases writable; `vmap` may have failed. */
    constructor (vmapOk: bool, nullReadOnly: bool)
      ensures Initial(View()) && word == 0x5AFE1234 && direct && !flag && owner == None
      ensures vmalloc == if vmapOk then Leaf(true) else Absent(nullReadOnly)
    {
      word := SAFETY_SENTINEL;
      direct := true;
      vmalloc := if vmapOk then Leaf(true) else Absent(nullReadOnly);
      flag := false;
      owner := None;
      inside := map[];
    }

    /** `ret` is the errno-style result: 0 exactly when every attempted call succeeded. Flag and
        vmap leaf come to disagree exactly when the call on that leaf fails with the flag set. */
    method SetProtection(t: Task, enable: bool, okDirect: bool, okVmalloc: bool)
      returns (ret: int, ghost r: Trace)
      requires owner == None && inside == map[]
      modifies this
      ensures RunBetween(r, old(View()), View())
      ensures r.events ==
              [Lock(t, Entry.SetProtection(enable)), Act(t, okDirect), Act(t, okVmalloc), Act(t, true), Unlock(t)]
      ensures owner == None && inside == map[] && word == old(word)
      ensures ret == 0 <==> okDirect && (vmalloc.Leaf? ==> okVmalloc)
      ensures flag <==> enable && (vmalloc.Leaf? ==> okVmalloc) && vmalloc.WalkedReadOnly()
      ensures direct == (if okDirect then !enable else old(direct))
      ensures vmalloc == (if okVmalloc && old(vmalloc).Leaf? then Leaf(!enable) else old(vmalloc))
      ensures old(vmalloc == Leaf(!flag)) ==> (vmalloc == Leaf(!flag) <==> okVmalloc || !old(flag))
    {
      hide RunBetween, Step, Enabled;
      r := MutexLock(t, Entry.SetProtection(enable));
      var retVirt, retVmalloc;
      retVirt, r := SetDirect(t, ProtectDirect(enable), !enable, okDirect, old(View()), r);
      retVmalloc, r := SetVmalloc(t, ProtectVmalloc(enable), !enable, okVmalloc, old(View()), r);
      r := SetFlag(t, enable, retVmalloc, old(View()), r);
      r := MutexUnlock(t, old(View()), r);
      ret := if retVmalloc != 0 then retVmalloc else retVirt;
    }

    /** `died` when the store hit a read-only direct alias: the task is gone, the mutex held. Flag
        and vmap leaf come to disagree exactly when that leaf was made writable and the call that
        should protect it again fails. */
    method SafeWrite(t: Task, val: Word, ok: WriteResults) returns (died: bool, ghost r: Trace)
      requires owner == None && inside == map[]
      modifies this
      ensures RunBetween(r, old(View()), View())
      ensures r.events == WriteEvents(t, val, old(flag), ok, died)
      ensures died <==> !old(direct) && !(old(flag) && ok.directRw)
      ensures !died ==> owner == None && inside == map[] && word == val && flag == old(flag)
      ensures died ==> owner == Some(t) && inside == map[t := Dead] && word == old(word) && flag == old(flag)
      ensures !old(flag) ==> direct == old(direct) && vmalloc == old(vmalloc)
      ensures old(flag) && !died ==> direct == !ok.directRo
      ensures old(flag) && !died ==>
                vmalloc == if vmalloc.Leaf? && ok.vmallocRo then Leaf(false) else Unlocked(old(vmalloc), ok)
      ensures old(vmalloc == Leaf(!flag)) && !died ==>
                (vmalloc == Leaf(!flag) <==> !old(flag) || ok.vmallocRo || !ok.vmallocRw)
    {
      hide RunBetween, Step, Enabled;
      r := MutexLock(t, Entry.SafeWrite(val));
      var wasRo: bool;
      wasRo, r := ReadFlag(t, val, old(View()), r);
      if wasRo {
        r := MakeWritable(t, val, ok, old(View()), r);
      }
      died, r := Store(t, val, wasRo, old(View()), r);
      if died {
        return;
      }
      if wasRo {
        r := MakeReadOnly(t, val, ok, old(View()), r);
      }
      r := MutexUnlock(t, old(View()), r);
    }

    /** `safety_mem_exit` up to freeing the page: write permission is restored if the flag is set. */
    method Exit(okDirect: bool, okVmalloc: bool)
      modifies this`direct, this`vmalloc
      ensures (direct, vmalloc) == LeavesAtFree(old(View()), okDirect, okVmalloc)
      ensures direct <==> old(direct) || (flag && okDirect)
      ensures vmalloc == if flag && okVmalloc && old(vmalloc).Leaf? then Leaf(true) else old(vmalloc)
    {
      if flag {
        if okDirect {
          direct := true;
        }
        if vmalloc.Leaf? && okVmalloc {
          vmalloc := Leaf(true);
        }
      }
    }

    /** Both aliases back to writable before the store. */
    method MakeWritable(t: Task, val: Word, ok: WriteResults, ghost start: State, ghost r: Trace)
      returns (ghost n: Trace)
      requires inside == map[t := WriteDirectRw(val)] && RunBetween(r, start, View())
      modifies this`direct, this`vmalloc, this`inside
      ensures inside == map[t := WriteStore(val, true)] && RunBetween(n, start, View())
      ensures n.events == r.events + [Act(t, ok.directRw), Act(t, ok.vmallocRw)]
      ensures direct == (old(direct) || ok.directRw) && vmalloc == Unlocked(old(vmalloc), ok)
    {
      hide RunBetween, Step, Enabled;
      var ret;
      ret, n := SetDirect(t, WriteDirectRw(val), true, ok.directRw, start, r);
      ret, n := SetVmalloc(t, WriteVmallocRw(val), true, ok.vmallocRw, start, n);
    }

    /** Both aliases read-only again after the store. */
    method MakeReadOnly(t: Task, val: Word, ok: WriteResults, ghost start: State, ghost r: Trace)
      returns (ghost n: Trace)
      requires inside == map[t := WriteDirectRo(val)] && RunBetween(r, start, View())
      modifies this`direct, this`vmalloc, this`inside
      ensures inside == map[t := Leaving] && RunBetween(n, start, View())
      ensures n.events == r.events + [Act(t, ok.directRo), Act(t, ok.vmallocRo)]
      ensures direct == (old(direct) && !ok.directRo)
      ensures vmalloc == if old(vmalloc).Leaf? && ok.vmallocRo then Leaf(false) else old(vmalloc)
    {
      hide RunBetween, Step, Enabled;
      var ret;
      ret, n := SetDirect(t, WriteDirectRo(val), false, ok.directRo, start, r);
      ret, n := SetVmalloc(t, WriteVmallocRo(val), false, ok.vmallocRo, start, n);
    }

    // ---- The single statements; `start` and `r` are the run performed so far ----

    method MutexLock(t: Task, entry: Entry) returns (ghost r: Trace)
      requires owner == None && inside == map[]
      modifies this`owner, this`inside
      ensures owner == Some(t) && inside == map[t := FirstPhase(entry)]
      ensures RunBetween(r, old(View()), View()) && r.events == [Lock(t, entry)]
    {
      ghost var before := View();
      owner := Some(t);
      inside := map[t := FirstPhase(entry)];
      r := Track(Trace([before], []), Lock(t, entry), before, before);
    }

    method MutexUnlock(t: Task, ghost start: State, ghost r: Trace) returns (ghost n: Trace)
      requires inside == map[t := Leaving] && RunBetween(r, start, View())
      modifies this`owner, this`inside
      ensures owner == None && inside == map[]
      ensures RunBetween(n, start, View()) && n.events == r.events + [Unlock(t)]
    {
      ghost var before := View();
      owner := None;
      inside := map[];
      n := Track(r, Unlock(t), start, before);
    }

    /** `set_memory_rw` or `set_memory_ro` on the direct alias. */
    method SetDirect(t: Task, ghost p: Phase, writable: bool, ok: bool, ghost start: State, ghost r: Trace)
      returns (ret: int, ghost n: Trace)
      requires p == ProtectDirect(!writable) || (p.WriteDirectRw? && writable) || (p.WriteDirectRo? && !writable)
      requires inside == map[t := p] && RunBetween(r, start, View())
      modifies this`direct, this`inside
      ensures direct == (if ok then writable else old(direct)) && (ret == 0 <==> ok)
      ensures inside == map[t := NextPhase(old(View()), p, ok)]
      ensures RunBetween(n, start, View()) && n.events == r.events + [Act(t, ok)]
    {
      ghost var before := View();
      ret := if ok then 0 else EINVAL;
      if ok {
        direct := writable;
      }
      inside := map[t := NextPhase(before, p, ok)];
      n := Track(r, Act(t, ok), start, before);
    }

    /** `set_memory_rw` or `set_memory_ro` on the vmap alias, skipped when there is none. */
    method SetVmalloc(t: Task, ghost p: Phase, writable: bool, ok: bool, ghost start: State, ghost r: Trace)
      returns (ret: int, ghost n: Trace)
      requires p == ProtectVmalloc(!writable) || (p.WriteVmallocRw? && writable) || (p.WriteVmallocRo? && !writable)
      requires inside == map[t := p] && RunBetween(r, start, View())
      modifies this`vmalloc, this`inside
      ensures vmalloc == (if ok && old(vmalloc).Leaf? then Leaf(writable) else old(vmalloc))
      ensures ret == 0 <==> ok || vmalloc.Absent?
      ensures inside == map[t := NextPhase(old(View()), p, ok)]
      ensures RunBetween(n, start, View()) && n.events == r.events + [Act(t, ok)]
    {
      ghost var before := View();
      ret := 0;
      if vmalloc.Leaf? {
        if ok {
          vmalloc := Leaf(writable);
        } else {
          ret := EINVAL;
        }
      }
      inside := map[t := NextPhase(before, p, ok)];
      n := Track(r, Act(t, ok), start, before);
    }

    method SetFlag(t: Task, enable: bool, retVmalloc: int, ghost start: State, ghost r: Trace) returns (ghost n: Trace)
      requires inside == map[t := ProtectFlag(enable, retVmalloc == 0)] && RunBetween(r, start, View())
      modifies this`flag, this`inside
      ensures flag <==> enable && retVmalloc == 0 && vmalloc.WalkedReadOnly()
      ensures inside == map[t := Leaving]
      ensures RunBetween(n, start, View()) && n.events == r.events + [Act(t, true)]
    {
      ghost var before := View();
      if enable {
        flag := retVmalloc == 0 && vmalloc.WalkedReadOnly();
      } else {
        flag := false;
      }
      inside := map[t := Leaving];
      n := Track(r, Act(t, true), start, before);
    }

    method ReadFlag(t: Task, val: Word, ghost start: State, ghost r: Trace) returns (wasRo: bool, ghost n: Trace)
      requires inside == map[t := WriteReadFlag(val)] && RunBetween(r, start, View())
      modifies this`inside
      ensures wasRo == flag && inside == map[t := if flag then WriteDirectRw(val) else WriteStore(val, false)]
      ensures RunBetween(n, start, View()) && n.events == r.events + [Act(t, true)]
    {
      ghost var before := View();
      wasRo := flag;
      inside := map[t := if flag then WriteDirectRw(val) else WriteStore(val, false)];
      n := Track(r, Act(t, true), start, before);
    }

    /** The plain store through the direct alias. */
    method Store(t: Task, val: Word, wasRo: bool, ghost start: State, ghost r: Trace)
      returns (died: bool, ghost n: Trace)
      requires inside == map[t := WriteStore(val, wasRo)] && RunBetween(r, start, View())
      modifies this`word, this`inside
      ensures died == !direct && word == (if died then old(word) else val)
      ensures inside == map[t := if died then Dead else if wasRo then WriteDirectRo(val) else Leaving]
      ensures RunBetween(n, start, View()) && n.events == r.events + [Act(t, true)]
    {
      ghost var before := View();
      died := !direct;
      if !died {
        word := val;
      }
      inside := map[t := if died then Dead else if wasRo then WriteDirectRo(val) else Leaving];
      n := Track(r, Act(t, true), start, before);
    }

    /** Records that the code has just performed event `e`. */
    ghost method Track(r: Trace, e: Event, start: State, before: State) returns (n: Trace)
      requires RunBetween(r, start, before) && Enabled(before, e) && View() == Step(before, e)
      ensures RunBetween(n, start, View()) && n.events == r.events + [e]
    {
      hide Step, Enabled;
      n := Extend(r, e);
      ExtendIsRun(r, e);
    }
  }
}
