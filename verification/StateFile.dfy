/**
 From the kernel's status text through the harness's state file to the monitor's snapshots.
 */
module StateFile {
  import opened Text
  import opened StatusReport

  // ---- The harness: republishing ----

  /** A status line with its first colon turned into `=`; lines without one are dropped. */
  function Republished(prefix: string, lines: seq<string>): seq<string> {
    if lines == [] then []
    else
      var c := Find(lines[0], ':');
      (if c < 0 then [] else [prefix + lines[0][..c] + "=" + lines[0][c + 1..]]) + Republished(prefix, lines[1..])
  }

  /** The lines of the state file. */
  function Published(id: string, title: string, phase: string, before: string, after: string): seq<string> {
    ["SCENARIO_ID=" + id, "TITLE=" + title, "PHASE=" + phase]
    + Republished("BEFORE_", GetLines(before)) + Republished("AFTER_", GetLines(after))
  }

  /** The text that one status line adds to the state file. */
  function RepublishedLine(prefix: string, line: string): string {
    var c := Find(line, ':');
    if c < 0 then "" else prefix + line[..c] + "=" + line[c + 1..] + "\n"
  }

  /** The first line of a text and what follows it, as `std::getline` takes it off. */
  function FirstLine(s: string): (string, string)
    requires s != []
    ensures GetLines(s) == [FirstLine(s).0] + GetLines(FirstLine(s).1) && |FirstLine(s).1| < |s|
  {
    var n := Find(s, '\n');
    if n < 0 then
      assert GetLines("") == [];
      (s, "")
    else (s[..n], s[n + 1..])
  }

  lemma RepublishedCons(prefix: string, line: string, rest: seq<string>)
    ensures Unlines(Republished(prefix, [line] + rest)) ==
            RepublishedLine(prefix, line) + Unlines(Republished(prefix, rest))
  {
    assert ([line] + rest)[1..] == rest;
    var c := Find(line, ':');
    if c < 0 {
      assert Republished(prefix, [line] + rest) == Republished(prefix, rest);
    } else {
      UnlinesCons(prefix + line[..c] + "=" + line[c + 1..], Republished(prefix, rest));
    }
  }

  /** `write_snapshot`: the getline loop appending to the stream. */
  method WriteSnapshot(stream: string, prefix: string, snapshot: string) returns (out: string)
    ensures out == stream + Unlines(Republished(prefix, GetLines(snapshot)))
  {
    hide Republished, Unlines, GetLines, Find;
    out := stream;
    var rest := snapshot;
    ghost var all := Unlines(Republished(prefix, GetLines(snapshot)));
    while rest != []
      invariant out + Unlines(Republished(prefix, GetLines(rest))) == stream + all
      decreases |rest|
    {
      var (line, tail) := FirstLine(rest);
      ghost var later := Unlines(Republished(prefix, GetLines(tail)));
      RepublishedCons(prefix, line, GetLines(tail));
      Associative(out, RepublishedLine(prefix, line), later);
      var colon := Find(line, ':');
      if colon >= 0 {
        out := out + (prefix + line[..colon] + "=" + line[colon + 1..] + "\n");
      }
      rest := tail;
    }
    NothingRepublished(prefix);
  }

  lemma NothingRepublished(prefix: string)
    ensures Unlines(Republished(prefix, GetLines(""))) == ""
  {
  }

  /** `publish_state`. */
  method PublishState(id: string, title: string, phase: string, before: string, after: string) returns (file: string)
    ensures file == Unlines(Published(id, title, phase, before, after))
  {
    file := "SCENARIO_ID=" + id + "\n";
    file := file + ("TITLE=" + title + "\n");
    file := file + ("PHASE=" + phase + "\n");
    file := WriteSnapshot(file, "BEFORE_", before);
    file := WriteSnapshot(file, "AFTER_", after);
    PublishedText(id, title, phase, before, after);
  }

  lemma HeadText(a: string, b: string, c: string)
    ensures Unlines([a, b, c]) == a + "\n" + (b + "\n") + (c + "\n")
  {
    UnlinesCons(a, [b, c]);
    UnlinesCons(b, [c]);
    UnlinesCons(c, []);
    assert [a, b, c] == [a] + [b, c] && [b, c] == [b] + [c] && [c] == [c] + [];
  }

  lemma PublishedText(id: string, title: string, phase: string, before: string, after: string)
    ensures Unlines(Published(id, title, phase, before, after)) ==
            "SCENARIO_ID=" + id + "\n" + ("TITLE=" + title + "\n") + ("PHASE=" + phase + "\n")
            + Unlines(Republished("BEFORE_", GetLines(before))) + Unlines(Republished("AFTER_", GetLines(after)))
  {
    hide Unlines, Republished;
    var head := ["SCENARIO_ID=" + id, "TITLE=" + title, "PHASE=" + phase];
    var b, a := Republished("BEFORE_", GetLines(before)), Republished("AFTER_", GetLines(after));
    UnlinesAppend(head + b, a);
    UnlinesAppend(head, b);
    HeadText("SCENARIO_ID=" + id, "TITLE=" + title, "PHASE=" + phase);
  }

  // ---- The monitor: parsing ----

  datatype Snapshot = Snapshot(
    valVmalloc: nat, valPhys: nat, entry: nat, writable: bool, ctxProtected: bool, smmuActive: bool,
    level: string, status: string)

  const CLEARED := Snapshot(0, 0, 0, false, false, false, "--", "--")

  predicate Truth(value: string) {
    value == "1" || value == "true" || value == "ON"
  }

  /** The fields of a snapshot. */
  datatype Slot =
    | VmallocSlot | PhysSlot | EntrySlot | WritableSlot | CtxSlot | SmmuSlot | LevelSlot | StatusSlot | NoSlot

  /** The field that `update_snapshot` sets for a key. */
  function SlotOf(key: string): Slot {
    if key == "value_via_vmalloc" || key == "val_vmalloc" then VmallocSlot
    else if key == "value_via_phys" || key == "val_phys" then PhysSlot
    else if key == "mapping_entry_current" || key == "mapping_entry_vmalloc" then EntrySlot
    else if key == "mapping_writable_current" || key == "mapping_writable_vmalloc" then WritableSlot
    else if key == "ctx_protected" then CtxSlot
    else if key == "smmu_active" then SmmuSlot
    else if key == "mapping_level_current" || key == "mapping_level_vmalloc" then LevelSlot
    else if key == "status" then StatusSlot
    else NoSlot
  }

  function Put(s: Snapshot, slot: Slot, value: string): Snapshot {
    match slot
    case VmallocSlot => s.(valVmalloc := ParseHex(value, 0x1_0000_0000))
    case PhysSlot => s.(valPhys := ParseHex(value, 0x1_0000_0000))
    case EntrySlot => s.(entry := ParseHex(value, 0x1_0000_0000_0000_0000))
    case WritableSlot => s.(writable := value == "1")
    case CtxSlot => s.(ctxProtected := Truth(value))
    case SmmuSlot => s.(smmuActive := Truth(value))
    case LevelSlot => s.(level := value)
    case StatusSlot => s.(status := value)
    case NoSlot => s
  }

  /** `update_snapshot`. */
  function Update(s: Snapshot, key: string, value: string): Snapshot {
    Put(s, SlotOf(key), value)
  }

  /** The local variables of one pass over the state file, and the snapshots it updates. */
  datatype Pass = Pass(id: string, title: string, phase: string, before: Snapshot, after: Snapshot)

  /** One iteration of the parsing loop. */
  function OnLine(p: Pass, line: string): Pass {
    var eq := Find(line, '=');
    if eq < 0 then p else
    var key, value := Trim(line[..eq]), Trim(line[eq + 1..]);
    if key == "SCENARIO_ID" then p.(id := value)
    else if key == "TITLE" then p.(title := value)
    else if key == "PHASE" then p.(phase := value)
    else if "BEFORE_" <= key then p.(before := Update(p.before, key[7..], value))
    else if "AFTER_" <= key then p.(after := Update(p.after, key[6..], value))
    else p
  }

  function OnLines(p: Pass, lines: seq<string>): Pass
    decreases |lines|
  {
    if lines == [] then p else OnLines(OnLine(p, lines[0]), lines[1..])
  }

  datatype View = View(before: Snapshot, after: Snapshot, id: string, title: string)

  /** What one `sync_scenario_state` makes of the display. */
  function Synced(v: View, file: string): View {
    var p := OnLines(Pass("", "", "", v.before, v.after), GetLines(file));
    var setup := p.phase == "SETUP";
    View(if setup then CLEARED else p.before, if setup then CLEARED else p.after,
         if p.id != "" then p.id else v.id,
         if p.id != "" && p.title != "" then p.title else v.title)
  }

  class DisplayState {
    var before: Snapshot
    var after: Snapshot
    var scenarioId: string
    var scenarioTitle: string

    function State(): View
      reads this
    {
      View(before, after, scenarioId, scenarioTitle)
    }

    /** `sync_scenario_state` on the contents of the state file. */
    method SyncScenarioState(file: string)
      modifies this
      ensures State() == Synced(old(State()), file)
    {
      var scId, scTitle, phase := "", "", "";
      var rest := file;
      ghost var start := Pass("", "", "", before, after);
      while rest != []
        invariant scenarioId == old(scenarioId) && scenarioTitle == old(scenarioTitle)
        invariant OnLines(Pass(scId, scTitle, phase, before, after), GetLines(rest)) == OnLines(start, GetLines(file))
        decreases |rest|
      {
        var (line, tail) := FirstLine(rest);
        assert ([line] + GetLines(tail))[1..] == GetLines(tail);
        var eq := Find(line, '=');
        if eq >= 0 {
          var key, value := Trim(line[..eq]), Trim(line[eq + 1..]);
          if key == "SCENARIO_ID" {
            scId := value;
          } else if key == "TITLE" {
            scTitle := value;
          } else if key == "PHASE" {
            phase := value;
          } else if "BEFORE_" <= key {
            before := Update(before, key[7..], value);
          } else if "AFTER_" <= key {
            after := Update(after, key[6..], value);
          }
        }
        rest := tail;
      }
      if phase == "SETUP" {
        before := CLEARED;
        after := CLEARED;
      }
      if scId != "" {
        scenarioId := scId;
        if scTitle != "" {
          scenarioTitle := scTitle;
        }
      }
    }
  }
}
