/**
 The round trip of a status report: printed by the kernel, republished by the harness, parsed by
 the monitor. It is exact for every owner name that is harmless, and for no other.
 */
module StatusRoundTrip {
  import opened Wrappers
  import opened Text
  import opened StatusReport
  import opened StateFile

  // ---- What the monitor makes of any status line ----

  /** The line with its first colon turned into `=`. */
  function Turned(line: string): (t: string)
    requires ':' in line
    ensures '=' in t
  {
    var c := Find(line, ':');
    var t := line[..c] + "=" + line[c + 1..];
    assert t[c] == '=';
    t
  }

  /** The key that the monitor finds behind the prefix: up to the first `=`, which the line may
      have had before its colon, and without blanks at its end only. */
  function LineKey(line: string): string
    requires ':' in line
  {
    TrimRight(Turned(line)[..Find(Turned(line), '=')])
  }

  function LineValue(line: string): string
    requires ':' in line
  {
    Trim(Turned(line)[Find(Turned(line), '=') + 1..])
  }

  function UpdateLine(s: Snapshot, line: string): Snapshot {
    if ':' in line then Update(s, LineKey(line), LineValue(line)) else s
  }

  function UpdateLines(s: Snapshot, lines: seq<string>): Snapshot
    decreases |lines|
  {
    if lines == [] then s else UpdateLines(UpdateLine(s, lines[0]), lines[1..])
  }

  lemma {:induction false} UpdateLinesAppend(s: Snapshot, a: seq<string>, b: seq<string>)
    ensures UpdateLines(s, a + b) == UpdateLines(UpdateLines(s, a), b)
    decreases |a|
  {
    hide UpdateLine;
    if a == [] {
      assert a + b == b;
    } else {
      UpdateLinesAppend(UpdateLine(s, a[0]), a[1..], b);
      assert (a + b)[1..] == a[1..] + b;
    }
  }

  lemma OneLine(s: Snapshot, line: string)
    ensures UpdateLines(s, [line]) == UpdateLine(s, line)
  {
    hide UpdateLine;
    assert [line][1..] == [];
  }

  /** A prefixed key is told from the header keys, and the prefixes apart, by its first letter. */
  lemma NotHeader(key: string)
    requires "BEFORE_" <= key || "AFTER_" <= key
    ensures key != "SCENARIO_ID" && key != "TITLE" && key != "PHASE"
    ensures "AFTER_" <= key ==> !("BEFORE_" <= key)
  {
    assert key[0] == 'B' || key[0] == 'A';
  }

  lemma {:induction false} TrimRightBehind(front: string, s: string)
    requires front != [] && !Blank(front[|front| - 1])
    ensures TrimRight(front + s) == front + TrimRight(s)
  {
    if s == [] {
      assert front + s == front;
    } else {
      var t := front + s;
      assert t[|t| - 1] == s[|s| - 1] && t[..|t| - 1] == front + s[..|s| - 1];
      if Blank(s[|s| - 1]) {
        TrimRightBehind(front, s[..|s| - 1]);
      }
    }
  }

  lemma FindBehind(prefix: string, s: string, c: char)
    requires c !in prefix && c in s
    ensures var e := Find(s, c);
            && Find(prefix + s, c) == |prefix| + e
            && (prefix + s)[..|prefix| + e] == prefix + s[..e] && (prefix + s)[|prefix| + e + 1..] == s[e + 1..]
  {
    hide Find;
    var e := Find(s, c);
    SliceBehind(prefix, s, e);
    SliceBehind(prefix, s, e + 1);
    NotInEither(prefix, s[..e], c);
    FindAt(prefix + s, c, |prefix| + e);
  }

  lemma NotInEither(a: string, b: string, c: char)
    requires c !in a && c !in b
    ensures c !in a + b
  {
  }

  lemma SliceBehind(prefix: string, s: string, e: nat)
    requires e <= |s|
    ensures (prefix + s)[..|prefix| + e] == prefix + s[..e] && (prefix + s)[|prefix| + e..] == s[e..]
  {
  }

  /** A republished line in the monitor: behind its prefix it is cut at its first `=`. */
  lemma PrefixedLine(prefix: string, line: string)
    requires (prefix == "BEFORE_" || prefix == "AFTER_") && ':' in line
    ensures var e, t := Find(Turned(line), '='), prefix + Turned(line);
            && Find(t, '=') == |prefix| + e
            && Trim(t[..|prefix| + e]) == prefix + LineKey(line) && Trim(t[|prefix| + e + 1..]) == LineValue(line)
  {
    hide Turned, TrimRight, TrimLeft, Find;
    var u := Turned(line);
    var e := Find(u, '=');
    assert '=' !in prefix;
    FindBehind(prefix, u, '=');
    NothingToTrim(prefix + u[..e]);
    TrimRightBehind(prefix, u[..e]);
  }

  lemma NothingToTrim(s: string)
    requires s != [] && !Blank(s[0])
    ensures TrimLeft(s) == s
  {
  }

  lemma OnPrefixedLine(p: Pass, prefix: string, line: string)
    requires (prefix == "BEFORE_" || prefix == "AFTER_") && ':' in line
    ensures OnLine(p, prefix + Turned(line)) ==
            if prefix == "BEFORE_" then p.(before := UpdateLine(p.before, line))
            else p.(after := UpdateLine(p.after, line))
  {
    hide Update, Trim, Find, Turned, LineKey, LineValue;
    PrefixedLine(prefix, line);
    NotHeader(prefix + LineKey(line));
    assert (prefix + LineKey(line))[|prefix|..] == LineKey(line);
  }

  /** Republishing any lines and parsing them again updates the one snapshot line by line. */
  lemma {:induction false} OnRepublished(p: Pass, prefix: string, lines: seq<string>)
    requires prefix == "BEFORE_" || prefix == "AFTER_"
    ensures OnLines(p, Republished(prefix, lines)) ==
            if prefix == "BEFORE_" then p.(before := UpdateLines(p.before, lines))
            else p.(after := UpdateLines(p.after, lines))
    decreases |lines|
  {
    hide OnLine, UpdateLine;
    if lines != [] {
      var line, rest := lines[0], lines[1..];
      RepublishedFirst(prefix, lines);
      if ':' in line {
        OnPrefixedLine(p, prefix, line);
        var n := [prefix + Turned(line)] + Republished(prefix, rest);
        assert n[1..] == Republished(prefix, rest);
        OnRepublished(OnLine(p, prefix + Turned(line)), prefix, rest);
      } else {
        LineWithoutColon(p, line);
        OnRepublished(p, prefix, rest);
        assert Republished(prefix, lines) == Republished(prefix, rest);
      }
    }
  }

  lemma LineWithoutColon(p: Pass, line: string)
    requires ':' !in line
    ensures UpdateLine(p.before, line) == p.before && UpdateLine(p.after, line) == p.after
  {
  }

  lemma RepublishedFirst(prefix: string, lines: seq<string>)
    requires lines != []
    ensures Republished(prefix, lines) ==
            (if ':' in lines[0] then [prefix + Turned(lines[0])] else []) + Republished(prefix, lines[1..])
  {
    if ':' in lines[0] {
      var c := Find(lines[0], ':');
      assert prefix + lines[0][..c] + "=" + lines[0][c + 1..] == prefix + Turned(lines[0]);
    }
  }

  // ---- The pass over the whole file ----

  lemma {:induction false} OnLinesAppend(p: Pass, a: seq<string>, b: seq<string>)
    ensures OnLines(p, a + b) == OnLines(OnLines(p, a), b)
    decreases |a|
  {
    hide OnLine;
    if a == [] {
      assert a + b == b;
    } else {
      OnLinesAppend(OnLine(p, a[0]), a[1..], b);
      assert (a + b)[1..] == a[1..] + b;
    }
  }

  lemma OnHeader(p: Pass, id: string, title: string, phase: string)
    ensures OnLines(p, ["SCENARIO_ID=" + id, "TITLE=" + title, "PHASE=" + phase])
         == p.(id := Trim(id), title := Trim(title), phase := Trim(phase))
  {
    hide OnLine, Trim, OnLines;
    assert "SCENARIO_ID=" + id == "SCENARIO_ID" + "=" + id;
    assert "TITLE=" + title == "TITLE" + "=" + title;
    assert "PHASE=" + phase == "PHASE" + "=" + phase;
    OnHeaderLine(p, "SCENARIO_ID", id);
    var p1 := p.(id := Trim(id));
    OnHeaderLine(p1, "TITLE", title);
    var p2 := p1.(title := Trim(title));
    OnHeaderLine(p2, "PHASE", phase);
    OnThree(p, "SCENARIO_ID=" + id, "TITLE=" + title, "PHASE=" + phase);
  }

  lemma OnThree(p: Pass, a: string, b: string, c: string)
    ensures OnLines(p, [a, b, c]) == OnLine(OnLine(OnLine(p, a), b), c)
  {
    hide OnLine;
    assert [a, b, c][1..] == [b, c] && [b, c][1..] == [c] && [c][1..] == [];
    assert OnLines(p, [a, b, c]) == OnLines(OnLine(p, a), [b, c]) == OnLines(OnLine(OnLine(p, a), b), [c]);
  }

  lemma OnHeaderLine(p: Pass, key: string, value: string)
    requires key == "SCENARIO_ID" || key == "TITLE" || key == "PHASE"
    ensures OnLine(p, key + "=" + value) ==
            if key == "SCENARIO_ID" then p.(id := Trim(value))
            else if key == "TITLE" then p.(title := Trim(value))
            else p.(phase := Trim(value))
  {
    assert '=' !in key;
    FindAfter(key, '=', value);
    var line := key + "=" + value;
    assert line == key + ['='] + value && line[..|key|] == key && line[|key| + 1..] == value;
    TrimKeeps(key);
  }

  lemma {:induction false} RepublishedAreLines(prefix: string, lines: seq<string>)
    requires Lines(lines) && '\n' !in prefix
    ensures Lines(Republished(prefix, lines))
  {
    if lines != [] {
      RepublishedAreLines(prefix, lines[1..]);
      assert lines[0] in lines;
      var c := Find(lines[0], ':');
      if c >= 0 {
        assert '\n' !in lines[0][..c] && '\n' !in lines[0][c + 1..];
      }
    }
  }

  lemma PublishedAreLines(id: string, title: string, phase: string, before: string, after: string)
    requires '\n' !in id && '\n' !in title && '\n' !in phase
    ensures Lines(Published(id, title, phase, before, after))
  {
    hide Republished;
    GetLinesHaveNoNewline(before);
    GetLinesHaveNoNewline(after);
    RepublishedAreLines("BEFORE_", GetLines(before));
    RepublishedAreLines("AFTER_", GetLines(after));
  }

  /** For all texts: each snapshot is updated by its own text's lines, or cleared in setup. */
  lemma SyncedText(v: View, id: string, title: string, phase: string, before: string, after: string)
    requires '\n' !in id && '\n' !in title && '\n' !in phase
    ensures var n := Synced(v, Unlines(Published(id, title, phase, before, after)));
            && n.before == (if Trim(phase) == "SETUP" then CLEARED else UpdateLines(v.before, GetLines(before)))
            && n.after == (if Trim(phase) == "SETUP" then CLEARED else UpdateLines(v.after, GetLines(after)))
            && n.id == (if Trim(id) != "" then Trim(id) else v.id)
            && n.title == (if Trim(id) != "" && Trim(title) != "" then Trim(title) else v.title)
  {
    hide Republished, OnLines, GetLines, Unlines, UpdateLines, Trim;
    PublishedAreLines(id, title, phase, before, after);
    LinesRoundTrip(Published(id, title, phase, before, after));
    var header := ["SCENARIO_ID=" + id, "TITLE=" + title, "PHASE=" + phase];
    var b, a := Republished("BEFORE_", GetLines(before)), Republished("AFTER_", GetLines(after));
    var p := Pass("", "", "", v.before, v.after);
    OnLinesAppend(p, header + b, a);
    OnLinesAppend(p, header, b);
    OnHeader(p, id, title, phase);
    var p1 := OnLines(p, header);
    OnRepublished(p1, "BEFORE_", GetLines(before));
    OnRepublished(OnLines(p1, b), "AFTER_", GetLines(after));
  }

  // ---- What the fields of one status leave in a snapshot ----

  /** Updating from a list of printed fields, in order. */
  function UpdateAll(s: Snapshot, fs: seq<Field>): Snapshot
    decreases |fs|
  {
    if fs == [] then s else UpdateAll(UpdateField(s, fs[0]), fs[1..])
  }

  function UpdateField(s: Snapshot, f: Field): Snapshot {
    Update(s, f.key, Trim(" " + f.value))
  }

  lemma {:induction false} UpdateAllAppend(s: Snapshot, a: seq<Field>, b: seq<Field>)
    ensures UpdateAll(s, a + b) == UpdateAll(UpdateAll(s, a), b)
    decreases |a|
  {
    hide UpdateField;
    if a == [] {
      assert a + b == b;
    } else {
      UpdateAllAppend(UpdateField(s, a[0]), a[1..], b);
      assert (a + b)[1..] == a[1..] + b;
    }
  }

  /** The snapshot of a status: its values, flags and status, and the vmap mapping. */
  function SnapshotOf(st: Status): Snapshot {
    Snapshot(st.valueVmalloc, st.valuePhys, st.vmalloc.entry, st.vmalloc.writable, st.ctxProtected, st.smmuActive,
             if st.vmalloc.block then "PMD_BLOCK" else "PTE_PAGE",
             if st.ctxProtected then "PROTECTED_RO" else "UNPROTECTED_RW")
  }

  /** The texts that the kernel prints for a level and for the protection status. */
  lemma PrintedNames(b: bool)
    ensures LevelName(b) == if b then "PMD_BLOCK" else "PTE_PAGE"
    ensures StatusName(b) == if b then "PROTECTED_RO" else "UNPROTECTED_RW"
  {
  }

  /** Keys that the snapshot ignores. */
  lemma IgnoredKeys(s: Snapshot, v: string)
    ensures Update(s, "virt_addr", v) == s && Update(s, "phys_addr", v) == s
    ensures Update(s, "mapping_level_before", v) == s && Update(s, "mapping_entry_before", v) == s
    ensures Update(s, "mapping_writable_before", v) == s && Update(s, "mapping_valid_current", v) == s
    ensures Update(s, "mutex_owner", v) == s
  {
    hide SlotOf;
    AddressSlots();
    BeforeSlots();
    OtherSlots();
  }

  lemma AddressSlots()
    ensures SlotOf("virt_addr") == NoSlot && SlotOf("phys_addr") == NoSlot
  {
  }

  lemma BeforeSlots()
    ensures SlotOf("mapping_level_before") == NoSlot && SlotOf("mapping_entry_before") == NoSlot
    ensures SlotOf("mapping_writable_before") == NoSlot
  {
  }

  lemma OtherSlots()
    ensures SlotOf("mapping_valid_current") == NoSlot && SlotOf("mutex_owner") == NoSlot
  {
  }

  lemma MappingKeys(s: Snapshot, v: string)
    ensures Update(s, "mapping_level_current", v) == Update(s, "mapping_level_vmalloc", v) == s.(level := v)
    ensures Update(s, "mapping_entry_current", v) == Update(s, "mapping_entry_vmalloc", v)
         == s.(entry := ParseHex(v, 0x1_0000_0000_0000_0000))
    ensures Update(s, "mapping_writable_current", v) == Update(s, "mapping_writable_vmalloc", v)
         == s.(writable := v == "1")
  {
    hide SlotOf, ParseHex;
    CurrentSlots();
    VmallocSlots();
  }

  lemma CurrentSlots()
    ensures SlotOf("mapping_level_current") == LevelSlot && SlotOf("mapping_entry_current") == EntrySlot
    ensures SlotOf("mapping_writable_current") == WritableSlot
  {
  }

  lemma VmallocSlots()
    ensures SlotOf("mapping_level_vmalloc") == LevelSlot && SlotOf("mapping_entry_vmalloc") == EntrySlot
    ensures SlotOf("mapping_writable_vmalloc") == WritableSlot
  {
  }

  lemma ValueKeys(s: Snapshot, v: string)
    ensures Update(s, "value_via_vmalloc", v) == Update(s, "val_vmalloc", v)
         == s.(valVmalloc := ParseHex(v, 0x1_0000_0000))
    ensures Update(s, "value_via_phys", v) == Update(s, "val_phys", v) == s.(valPhys := ParseHex(v, 0x1_0000_0000))
    ensures Update(s, "ctx_protected", v) == s.(ctxProtected := v in {"1", "true", "ON"})
    ensures Update(s, "smmu_active", v) == s.(smmuActive := v in {"1", "true", "ON"})
    ensures Update(s, "status", v) == s.(status := v)
  {
    hide SlotOf, ParseHex;
    ShortKeySlots();
    ValueSlots();
    StatusSlots();
  }

  lemma StatusSlots()
    ensures SlotOf("status") == StatusSlot
  {
  }

  /** Numbers come back exactly, texts without outer blanks unchanged, bits as truth values. */
  lemma ValuesComeBack(word: U32, entry: U64, bit: bool)
    ensures ParseHex(Trim(" " + Word(word)), 0x1_0000_0000) == word
    ensures ParseHex(Trim(" " + EntryText(entry)), 0x1_0000_0000_0000_0000) == entry
    ensures (Trim(" " + Bit(bit)) == "1") == bit && (Trim(" " + Bit(bit)) in {"1", "true", "ON"}) == bit
    ensures Trim(" " + LevelName(bit)) == LevelName(bit) && Trim(" " + StatusName(bit)) == StatusName(bit)
  {
    hide Hex, Trim, ParseHex;
    WidthOf32();
    NumberText(word, 8, true);
    NumberText(entry, 16, true);
    HexRoundTrip(word, 8, true, 0x1_0000_0000);
    HexRoundTrip(entry, 16, true, 0x1_0000_0000_0000_0000);
    TrimKeeps(Word(word));
    TrimKeeps(EntryText(entry));
    TrimKeeps(Bit(bit));
    TrimKeeps(LevelName(bit));
    TrimKeeps(StatusName(bit));
  }

  lemma UpdateFour(s: Snapshot, a: Field, b: Field, c: Field, d: Field)
    ensures UpdateAll(s, [a, b, c, d]) == UpdateField(UpdateField(UpdateField(UpdateField(s, a), b), c), d)
  {
    hide UpdateField;
    assert [a, b, c, d][1..] == [b, c, d] && [b, c, d][1..] == [c, d] && [c, d][1..] == [d] && [d][1..] == [];
    assert UpdateAll(s, [a, b, c, d]) == UpdateAll(UpdateField(s, a), [b, c, d])
        == UpdateAll(UpdateField(UpdateField(s, a), b), [c, d])
        == UpdateAll(UpdateField(UpdateField(UpdateField(s, a), b), c), [d]);
  }

  lemma UpdateFive(s: Snapshot, a: Field, b: Field, c: Field, d: Field, e: Field)
    ensures UpdateAll(s, [a, b, c, d, e]) == UpdateField(UpdateAll(s, [a, b, c, d]), e)
  {
    hide UpdateField;
    UpdateAllAppend(s, [a, b, c, d], [e]);
    assert [a, b, c, d, e] == [a, b, c, d] + [e] && [e][1..] == [];
    assert UpdateAll(UpdateAll(s, [a, b, c, d]), [e])
        == UpdateAll(UpdateField(UpdateAll(s, [a, b, c, d]), e), [e][1..]);
  }

  lemma AddressUpdate(s: Snapshot, st: Status)
    ensures UpdateAll(s, AddressFields(st)) == s
  {
    hide Update, UpdateAll, Trim, Hex, Bit, LevelName;
    var f := AddressFields(st);
    UpdateFive(s, f[0], f[1], f[2], f[3], f[4]);
    UpdateFour(s, f[0], f[1], f[2], f[3]);
    IgnoredKeys(s, Trim(" " + f[0].value));
    IgnoredKeys(s, Trim(" " + f[1].value));
    IgnoredKeys(s, Trim(" " + f[2].value));
    IgnoredKeys(s, Trim(" " + f[3].value));
    IgnoredKeys(s, Trim(" " + f[4].value));
  }

  lemma CurrentUpdate(s: Snapshot, st: Status)
    ensures UpdateAll(s, CurrentFields(st)) ==
            s.(level := LevelName(st.current.block), entry := st.current.entry, writable := st.current.writable)
  {
    hide Update, UpdateAll, Trim, Hex, Bit, LevelName, ParseHex;
    var f := CurrentFields(st);
    UpdateFour(s, f[0], f[1], f[2], f[3]);
    ValuesComeBack(0, st.current.entry, st.current.block);
    ValuesComeBack(0, 0, st.current.writable);
    MappingKeys(s, Trim(" " + f[0].value));
    var s1 := UpdateField(s, f[0]);
    MappingKeys(s1, Trim(" " + f[1].value));
    var s2 := UpdateField(s1, f[1]);
    MappingKeys(s2, Trim(" " + f[2].value));
    IgnoredKeys(UpdateField(s2, f[2]), Trim(" " + f[3].value));
  }

  lemma VmallocUpdate(s: Snapshot, st: Status)
    ensures UpdateAll(s, VmallocFields(st)) ==
            s.(level := LevelName(st.vmalloc.block), entry := st.vmalloc.entry, writable := st.vmalloc.writable,
               valVmalloc := st.valueVmalloc)
  {
    hide Update, UpdateAll, Trim, Hex, Bit, LevelName, ParseHex;
    var f := VmallocFields(st);
    UpdateFour(s, f[0], f[1], f[2], f[3]);
    ValuesComeBack(st.valueVmalloc, st.vmalloc.entry, st.vmalloc.block);
    ValuesComeBack(0, 0, st.vmalloc.writable);
    MappingKeys(s, Trim(" " + f[0].value));
    var s1 := UpdateField(s, f[0]);
    MappingKeys(s1, Trim(" " + f[1].value));
    var s2 := UpdateField(s1, f[1]);
    MappingKeys(s2, Trim(" " + f[2].value));
    ValueKeys(UpdateField(s2, f[2]), Trim(" " + f[3].value));
  }

  lemma UpdateThree(s: Snapshot, a: Field, b: Field, c: Field)
    ensures UpdateAll(s, [a, b, c]) == UpdateField(UpdateField(UpdateField(s, a), b), c)
  {
    hide UpdateField;
    assert [a, b, c][1..] == [b, c] && [b, c][1..] == [c] && [c][1..] == [];
    assert UpdateAll(s, [a, b, c]) == UpdateAll(UpdateField(s, a), [b, c])
        == UpdateAll(UpdateField(UpdateField(s, a), b), [c]);
  }

  lemma FlagsUpdate(s: Snapshot, st: Status)
    ensures UpdateAll(s, FlagFields(st)) ==
            s.(valPhys := st.valuePhys, ctxProtected := st.ctxProtected, smmuActive := st.smmuActive)
  {
    hide Update, UpdateAll, Trim, Hex, Bit, StatusName, ParseHex, Truth;
    var f := StateFields(st);
    assert f[..3] == [f[0], f[1], f[2]];
    UpdateThree(s, f[0], f[1], f[2]);
    ValuesComeBack(st.valuePhys, 0, st.ctxProtected);
    ValuesComeBack(0, 0, st.smmuActive);
    ValueKeys(s, Trim(" " + f[0].value));
    var s1 := UpdateField(s, f[0]);
    ValueKeys(s1, Trim(" " + f[1].value));
    var s2 := UpdateField(s1, f[1]);
    ValueKeys(s2, Trim(" " + f[2].value));
  }

  /** The value and the two flags, printed before the owner's name. */
  function FlagFields(st: Status): seq<Field> {
    StateFields(st)[..3]
  }

  /** The fields printed before the owner's name. */
  function Front(st: Status): seq<Field> {
    AddressFields(st) + CurrentFields(st) + VmallocFields(st) + FlagFields(st)
  }

  /** They give the snapshot but for its status: the `_current` mapping is overwritten by the later
      vmap lines. */
  lemma FieldsGiveSnapshot(s: Snapshot, st: Status)
    ensures UpdateAll(s, Front(st)) == SnapshotOf(st).(status := s.status)
  {
    hide UpdateAll, AddressFields, CurrentFields, VmallocFields, FlagFields, LevelName;
    PrintedNames(st.vmalloc.block);
    var a, c, v, t := AddressFields(st), CurrentFields(st), VmallocFields(st), FlagFields(st);
    UpdateAllAppend(s, a + c + v, t);
    UpdateAllAppend(s, a + c, v);
    UpdateAllAppend(s, a, c);
    AddressUpdate(s, st);
    CurrentUpdate(s, st);
    VmallocUpdate(UpdateAll(s, a + c), st);
    FlagsUpdate(UpdateAll(s, a + c + v), st);
  }

  lemma KeyHasNoSeparator(k: string)
    requires GoodKey(k)
    ensures k != [] && ':' !in k && '=' !in k && '\n' !in k && !Blank(k[0]) && !Blank(k[|k| - 1])
  {
  }

  /** A printed field is parsed as itself. */
  lemma FieldLineParsed(f: Field)
    requires GoodKey(f.key)
    ensures ':' in FieldLine(f) && LineKey(FieldLine(f)) == f.key && LineValue(FieldLine(f)) == Trim(" " + f.value)
  {
    hide TrimLeft, TrimRight, GoodKey, Find;
    var line, rest := FieldLine(f), " " + f.value;
    KeyHasNoSeparator(f.key);
    assert line == f.key + [':'] + rest && line[|f.key|] == ':';
    FindAfter(f.key, ':', rest);
    assert line[..|f.key|] == f.key && line[|f.key| + 1..] == rest;
    var t := Turned(line);
    assert t == f.key + ['='] + rest;
    FindAfter(f.key, '=', rest);
    assert t[..|f.key|] == f.key && t[|f.key| + 1..] == rest;
    NothingToTrimRight(f.key);
  }

  lemma FieldLineUpdate(s: Snapshot, f: Field)
    requires GoodKey(f.key)
    ensures UpdateLine(s, FieldLine(f)) == UpdateField(s, f)
  {
    hide Update, LineKey, LineValue, FieldLine, GoodKey, Trim;
    FieldLineParsed(f);
  }

  lemma NothingToTrimRight(s: string)
    requires s != [] && !Blank(s[|s| - 1])
    ensures TrimRight(s) == s
  {
  }

  lemma {:induction false} FieldLinesUpdate(s: Snapshot, fs: seq<Field>)
    requires GoodFields(fs)
    ensures UpdateLines(s, FieldLines(fs)) == UpdateAll(s, fs)
    decreases |fs|
  {
    hide UpdateLine, UpdateField, FieldLine, GoodKey;
    if fs != [] {
      assert GoodField(fs[0]);
      FieldLineUpdate(s, fs[0]);
      assert FieldLines(fs)[1..] == FieldLines(fs[1..]);
      assert forall i | 0 <= i < |fs[1..]| :: fs[1..][i] == fs[i + 1];
      FieldLinesUpdate(UpdateField(s, fs[0]), fs[1..]);
    }
  }

  lemma FieldLinesAreLines(fs: seq<Field>)
    requires GoodFields(fs)
    ensures Lines(FieldLines(fs))
  {
    FieldLinesAt(fs);
    forall l | l in FieldLines(fs)
      ensures '\n' !in l
    {
      var i :| 0 <= i < |fs| && l == FieldLines(fs)[i];
      assert GoodField(fs[i]);
      KeyHasNoSeparator(fs[i].key);
    }
  }

  lemma FrontIsGood(st: Status)
    ensures GoodFields(Front(st))
  {
    hide AddressFields, CurrentFields, VmallocFields, FlagFields;
    AddressFieldsAreGood(st);
    CurrentFieldsAreGood(st);
    VmallocFieldsAreGood(st);
    FlagFieldsAreGood(st);
  }

  lemma FlagFieldsAreGood(st: Status)
    ensures GoodFields(FlagFields(st))
  {
    hide Word, Bit, StatusName, GoodField;
    var plain := st.(owner := "");
    StateFieldsAreGood(plain);
    var f := StateFields(plain);
    assert GoodField(f[0]) && GoodField(f[1]) && GoodField(f[2]);
  }

  // ---- The owner's name ----

  /** The lines that a newline in the owner's name starts. */
  function LaterLines(owner: string): seq<string> {
    var lines := GetLines(owner + "\n");
    if lines == [] then [] else lines[1..]
  }

  /** Text that ends in a newline is its lines. */
  lemma {:induction false} TextOfLines(s: string)
    ensures var lines := GetLines(s + "\n"); lines != [] && s + "\n" == Unlines(lines) && Lines(lines)
    decreases |s|
  {
    hide GetLines, Unlines;
    var t := s + "\n";
    assert t[|s|] == '\n';
    var n := Find(t, '\n');
    GetLinesHaveNoNewline(t);
    GetLinesUnfold(t);
    if n == |s| {
      assert t[n + 1..] == [];
      GetLinesNothing();
      assert t[..n] == s;
      UnlinesCons(s, []);
      UnlinesNothing();
    } else {
      var rest := s[n + 1..];
      assert t[n + 1..] == rest + "\n";
      TextOfLines(rest);
      UnlinesCons(t[..n], GetLines(rest + "\n"));
      assert t == t[..n] + "\n" + (rest + "\n");
    }
  }

  /** The lines of a report: the owner's name may take several. */
  lemma ReportLines(st: Status)
    ensures var first := FieldLine(Field("mutex_owner", GetLines(st.owner + "\n")[0]));
            var last := FieldLine(Field("status", StatusName(st.ctxProtected)));
            GetLines(st.owner + "\n") != []
            && GetLines(Render(st)) == FieldLines(Front(st)) + [first] + LaterLines(st.owner) + [last]
  {
    hide GetLines, Unlines, FieldLines, Front, StatusName, FieldLine, Lines;
    TextOfLines(st.owner);
    var own := GetLines(st.owner + "\n");
    var first, last := FieldLine(Field("mutex_owner", own[0])), FieldLine(Field("status", StatusName(st.ctxProtected)));
    var lines := FieldLines(Front(st)) + [first] + own[1..] + [last];
    RenderText(st);
    OwnerText(own);
    UnlinesAppend(FieldLines(Front(st)) + [first] + own[1..], [last]);
    UnlinesAppend(FieldLines(Front(st)), [first] + own[1..]);
    assert FieldLines(Front(st)) + [first] + own[1..] == FieldLines(Front(st)) + ([first] + own[1..]);
    LineText(last);
    assert Render(st) == Unlines(lines);
    assert Lines(lines) by {
      FrontIsGood(st);
      FieldLinesAreLines(Front(st));
      ReportLinesAreLines(FieldLines(Front(st)), own, st.ctxProtected);
    }
    LinesRoundTrip(lines);
  }

  lemma ReportLinesAreLines(front: seq<string>, own: seq<string>, ctxProtected: bool)
    requires Lines(front) && own != [] && Lines(own)
    ensures Lines(front + [FieldLine(Field("mutex_owner", own[0]))] + own[1..]
                  + [FieldLine(Field("status", StatusName(ctxProtected)))])
  {
    hide StatusName;
    NamesHaveNoNewline(ctxProtected);
    var first, last := FieldLine(Field("mutex_owner", own[0])), FieldLine(Field("status", StatusName(ctxProtected)));
    assert own[0] in own;
    assert '\n' !in first && '\n' !in last;
    forall l | l in front + [first] + own[1..] + [last]
      ensures '\n' !in l
    {
      assert l in front || l == first || l in own || l == last;
    }
  }

  lemma RenderText(st: Status)
    ensures Render(st) == Unlines(FieldLines(Front(st))) + ("mutex_owner: " + (st.owner + "\n"))
                          + (FieldLine(Field("status", StatusName(st.ctxProtected))) + "\n")
  {
    hide Unlines, FieldLines, StatusName, AddressFields, CurrentFields, VmallocFields;
    var t := StateFields(st);
    assert t == t[..3] + [t[3]] + [t[4]];
    assert Fields(st) == Front(st) + [t[3]] + [t[4]];
    FieldLinesAppend(Front(st) + [t[3]], [t[4]]);
    FieldLinesAppend(Front(st), [t[3]]);
    OneFieldLine(t[3]);
    OneFieldLine(t[4]);
    var front := FieldLines(Front(st));
    UnlinesAppend(front + [FieldLine(t[3])], [FieldLine(t[4])]);
    UnlinesAppend(front, [FieldLine(t[3])]);
    LineText(FieldLine(t[3]));
    LineText(FieldLine(t[4]));
    assert FieldLine(t[3]) + "\n" == "mutex_owner: " + (st.owner + "\n");
  }

  lemma OneFieldLine(f: Field)
    ensures FieldLines([f]) == [FieldLine(f)]
  {
    assert [f][1..] == [];
  }

  lemma OwnerText(own: seq<string>)
    requires own != []
    ensures "mutex_owner: " + Unlines(own) == Unlines([FieldLine(Field("mutex_owner", own[0]))] + own[1..])
  {
    hide Unlines;
    assert own == [own[0]] + own[1..];
    UnlinesCons(own[0], own[1..]);
    UnlinesCons(FieldLine(Field("mutex_owner", own[0])), own[1..]);
  }

  /** What the monitor shows of a report, whatever it showed before. */
  lemma ShownReport(s: Snapshot, st: Status)
    ensures UpdateLines(s, GetLines(Render(st))) ==
            UpdateLines(SnapshotOf(st).(status := s.status), LaterLines(st.owner))
              .(status := if st.ctxProtected then "PROTECTED_RO" else "UNPROTECTED_RW")
  {
    hide UpdateLines, UpdateLine, GetLines, FieldLines, Front, Render, SnapshotOf, StatusName, LaterLines, FieldLine;
    PrintedNames(st.ctxProtected);
    hide UpdateAll;
    ReportLines(st);
    var own := GetLines(st.owner + "\n");
    var o, e := Field("mutex_owner", own[0]), Field("status", StatusName(st.ctxProtected));
    var front, later := FieldLines(Front(st)), LaterLines(st.owner);
    UpdateLinesAppend(s, front + [FieldLine(o)] + later, [FieldLine(e)]);
    UpdateLinesAppend(s, front + [FieldLine(o)], later);
    UpdateLinesAppend(s, front, [FieldLine(o)]);
    FrontIsGood(st);
    FieldLinesUpdate(s, Front(st));
    FieldsGiveSnapshot(s, st);
    var s1 := SnapshotOf(st).(status := s.status);
    OwnerAndStatus(s1, own[0], st.ctxProtected);
    OneLine(s1, FieldLine(o));
    var s2 := UpdateLines(s1, later);
    OneLine(s2, FieldLine(e));
    OwnerAndStatus(s2, own[0], st.ctxProtected);
  }

  lemma OwnerAndStatus(s: Snapshot, name: string, ctxProtected: bool)
    ensures UpdateLine(s, FieldLine(Field("mutex_owner", name))) == s
    ensures UpdateLine(s, FieldLine(Field("status", StatusName(ctxProtected))))
         == s.(status := StatusName(ctxProtected))
  {
    hide Update, UpdateLine, FieldLine, Trim, GoodKey, StatusName;
    StateKeys();
    FieldLineUpdate(s, Field("mutex_owner", name));
    FieldLineUpdate(s, Field("status", StatusName(ctxProtected)));
    IgnoredKeys(s, Trim(" " + name));
    ValuesComeBack(0, 0, ctxProtected);
    ValueKeys(s, StatusName(ctxProtected));
  }

  // ---- Exactly the harmless names ----

  /** An update sets its slot to a value that does not depend on the snapshot, and nothing else. */
  ghost predicate SetsOnly(a: Snapshot, n: Snapshot, slot: Slot) {
    && (slot != VmallocSlot ==> n.valVmalloc == a.valVmalloc) && (slot != PhysSlot ==> n.valPhys == a.valPhys)
    && (slot != EntrySlot ==> n.entry == a.entry) && (slot != WritableSlot ==> n.writable == a.writable)
    && (slot != CtxSlot ==> n.ctxProtected == a.ctxProtected) && (slot != SmmuSlot ==> n.smmuActive == a.smmuActive)
    && (slot != LevelSlot ==> n.level == a.level) && (slot != StatusSlot ==> n.status == a.status)
  }

  ghost predicate SameIn(m: Snapshot, n: Snapshot, slot: Slot) {
    match slot
    case VmallocSlot => m.valVmalloc == n.valVmalloc
    case PhysSlot => m.valPhys == n.valPhys
    case EntrySlot => m.entry == n.entry
    case WritableSlot => m.writable == n.writable
    case CtxSlot => m.ctxProtected == n.ctxProtected
    case SmmuSlot => m.smmuActive == n.smmuActive
    case LevelSlot => m.level == n.level
    case StatusSlot => m.status == n.status
    case NoSlot => true
  }

  lemma UpdateSets(a: Snapshot, b: Snapshot, key: string, value: string)
    ensures SetsOnly(a, Update(a, key, value), SlotOf(key))
    ensures SameIn(Update(a, key, value), Update(b, key, value), SlotOf(key))
  {
    hide SlotOf, ParseHex, Truth;
  }

  lemma ShortKeySlots()
    ensures SlotOf("val_vmalloc") == VmallocSlot && SlotOf("val_phys") == PhysSlot
  {
  }

  lemma ValueSlots()
    ensures SlotOf("value_via_vmalloc") == VmallocSlot && SlotOf("value_via_phys") == PhysSlot
    ensures SlotOf("ctx_protected") == CtxSlot && SlotOf("smmu_active") == SmmuSlot
  {
  }

  /** The monitor recognises the key; the report's own status line comes last and undoes others. */
  predicate Recognised(key: string) {
    SlotOf(key) != NoSlot && SlotOf(key) != StatusSlot
  }

  /** These are exactly the recognised keys. */
  lemma RecognisedKeys(key: string)
    ensures Recognised(key) <==>
            || key in {"value_via_vmalloc", "val_vmalloc", "value_via_phys", "val_phys", "ctx_protected", "smmu_active"}
            || key in {"mapping_entry_current", "mapping_writable_current", "mapping_level_current"}
            || key in {"mapping_entry_vmalloc", "mapping_writable_vmalloc", "mapping_level_vmalloc"}
  {
    if Recognised(key) {
      OtherKeys(key);
    } else {
      hide SlotOf;
      ShortKeySlots();
      ValueSlots();
      CurrentSlots();
      VmallocSlots();
    }
  }

  lemma OtherKeys(key: string)
    requires Recognised(key)
    ensures || key in {"value_via_vmalloc", "val_vmalloc", "value_via_phys", "val_phys", "ctx_protected", "smmu_active"}
            || key in {"mapping_entry_current", "mapping_writable_current", "mapping_level_current"}
            || key in {"mapping_entry_vmalloc", "mapping_writable_vmalloc", "mapping_level_vmalloc"}
  {
  }

  predicate HarmlessLine(line: string) {
    ':' in line ==> !Recognised(LineKey(line))
  }

  /** No line after the first of the name has a key that the monitor recognises. */
  predicate Harmless(owner: string) {
    forall i | 0 <= i < |LaterLines(owner)| :: HarmlessLine(LaterLines(owner)[i])
  }

  lemma HarmlessUpdate(s: Snapshot, line: string)
    requires HarmlessLine(line)
    ensures UpdateLine(s, line).(status := "") == s.(status := "")
  {
    hide Update, SlotOf, LineKey, LineValue;
    if ':' in line {
      UpdateSets(s, s, LineKey(line), LineValue(line));
    }
  }

  lemma {:induction false} HarmlessUpdates(s: Snapshot, lines: seq<string>)
    requires forall i | 0 <= i < |lines| :: HarmlessLine(lines[i])
    ensures UpdateLines(s, lines).(status := "") == s.(status := "")
    decreases |lines|
  {
    hide UpdateLine, HarmlessLine;
    if lines != [] {
      HarmlessUpdate(s, lines[0]);
      HarmlessUpdates(UpdateLine(s, lines[0]), lines[1..]);
    }
  }

  /** Two snapshots that differ in everything but the status. */
  predicate AllDiffer(a: Snapshot, b: Snapshot) {
    && a.valVmalloc != b.valVmalloc && a.valPhys != b.valPhys && a.entry != b.entry && a.writable != b.writable
    && a.ctxProtected != b.ctxProtected && a.smmuActive != b.smmuActive && a.level != b.level
  }

  lemma DifferingUpdate(a: Snapshot, b: Snapshot, line: string)
    requires AllDiffer(UpdateLine(a, line), UpdateLine(b, line))
    ensures HarmlessLine(line) && AllDiffer(a, b)
  {
    hide Update, SlotOf, LineKey, LineValue;
    if ':' in line {
      UpdateSets(a, b, LineKey(line), LineValue(line));
      UpdateSets(b, a, LineKey(line), LineValue(line));
    }
  }

  /** A recognised key makes some field independent of the report, and no later line undoes that. */
  lemma {:induction false} DifferingUpdates(a: Snapshot, b: Snapshot, lines: seq<string>)
    requires AllDiffer(UpdateLines(a, lines), UpdateLines(b, lines))
    ensures (forall i | 0 <= i < |lines| :: HarmlessLine(lines[i])) && AllDiffer(a, b)
    decreases |lines|
  {
    hide UpdateLine, HarmlessLine, AllDiffer;
    if lines != [] {
      DifferingUpdates(UpdateLine(a, lines[0]), UpdateLine(b, lines[0]), lines[1..]);
      DifferingUpdate(a, b, lines[0]);
      forall i | 0 <= i < |lines|
        ensures HarmlessLine(lines[i])
      {
        if i > 0 {
          assert lines[1..][i - 1] == lines[i];
        }
      }
    }
  }

  /** The report reaches the snapshot unchanged, whatever the monitor showed before. */
  ghost predicate Arrives(s: Snapshot, st: Status) {
    UpdateLines(s, GetLines(Render(st))) == SnapshotOf(st)
  }

  lemma HarmlessArrives(s: Snapshot, st: Status)
    requires Harmless(st.owner)
    ensures Arrives(s, st)
  {
    hide UpdateLines, GetLines, Render, LaterLines, HarmlessLine;
    ShownReport(s, st);
    HarmlessUpdates(SnapshotOf(st).(status := s.status), LaterLines(st.owner));
  }

  /** Two reports of one owner with nothing else in common. */
  function Probe(owner: string, b: bool): Status {
    var n: nat := if b then 1 else 0;
    var mapping := Mapping(b, n, b, b);
    Status(0, 0, mapping, mapping, mapping, n, n, b, b, owner)
  }

  lemma ProbesDiffer(owner: string)
    ensures AllDiffer(SnapshotOf(Probe(owner, false)), SnapshotOf(Probe(owner, true)))
  {
    assert "PMD_BLOCK"[1] != "PTE_PAGE"[1];
  }

  /** The reports of an owner arrive, all of them, exactly when the name is harmless. */
  lemma ReportsArriveIff(s: Snapshot, owner: string)
    ensures (forall st: Status | st.owner == owner :: Arrives(s, st)) <==> Harmless(owner)
  {
    hide Arrives, Harmless;
    if Harmless(owner) {
      forall st: Status | st.owner == owner
        ensures Arrives(s, st)
      {
        HarmlessArrives(s, st);
      }
    }
    if forall st: Status | st.owner == owner :: Arrives(s, st) {
      assert Arrives(s, Probe(owner, false)) && Arrives(s, Probe(owner, true));
      ArrivingProbes(s, owner);
    }
  }

  lemma ArrivingProbes(s: Snapshot, owner: string)
    requires Arrives(s, Probe(owner, false)) && Arrives(s, Probe(owner, true))
    ensures Harmless(owner)
  {
    hide UpdateLines, GetLines, Render, LaterLines, HarmlessLine, SnapshotOf;
    var p, q := Probe(owner, false), Probe(owner, true);
    ShownReport(s, p);
    ShownReport(s, q);
    ProbesDiffer(owner);
    DifferingUpdates(SnapshotOf(p).(status := s.status), SnapshotOf(q).(status := s.status), LaterLines(owner));
  }

  // ---- The whole chain ----

  /** The text read from the status file: empty when the module is not loaded. */
  function StatusText(st: Option<Status>): string {
    if st.Some? then Render(st.value) else ""
  }

  predicate HarmlessOwner(st: Option<Status>) {
    st.Some? ==> Harmless(st.value.owner)
  }

  /** For all statuses with harmless owner names, printing, republishing and syncing gives
      snapshots with exactly the printed values, whatever the display showed before; a missing
      status leaves its snapshot alone, and the setup phase clears both. */
  lemma StatusReachesMonitor(v: View, id: string, title: string, phase: string, b: Option<Status>, a: Option<Status>)
    requires '\n' !in id && '\n' !in title && '\n' !in phase && HarmlessOwner(b) && HarmlessOwner(a)
    ensures var n := Synced(v, Unlines(Published(id, title, phase, StatusText(b), StatusText(a))));
            && n.before == (if Trim(phase) == "SETUP" then Snapshot(0, 0, 0, false, false, false, "--", "--")
                            else if b.Some? then SnapshotOf(b.value) else v.before)
            && n.after == (if Trim(phase) == "SETUP" then Snapshot(0, 0, 0, false, false, false, "--", "--")
                           else if a.Some? then SnapshotOf(a.value) else v.after)
            && n.id == (if Trim(id) != "" then Trim(id) else v.id)
            && n.title == (if Trim(id) != "" && Trim(title) != "" then Trim(title) else v.title)
  {
    hide Synced, Published, Unlines, Render, SnapshotOf, Trim, Harmless, UpdateLines, GetLines;
    SyncedText(v, id, title, phase, StatusText(b), StatusText(a));
    if b.Some? {
      HarmlessArrives(v.before, b.value);
    } else {
      NoText(v.before);
    }
    if a.Some? {
      HarmlessArrives(v.after, a.value);
    } else {
      NoText(v.after);
    }
  }

  lemma NoText(s: Snapshot)
    ensures UpdateLines(s, GetLines("")) == s
  {
  }

  /** And only for those: if another name owns the mutex, the state file of some report of its
      misleads the monitor. */
  lemma OnlyHarmlessOwnersReachMonitor(v: View, id: string, title: string, phase: string, owner: string)
    requires '\n' !in id && '\n' !in title && '\n' !in phase && Trim(phase) != "SETUP"
    ensures (forall st: Status | st.owner == owner ::
               Synced(v, Unlines(Published(id, title, phase, "", Render(st)))).after == SnapshotOf(st))
            <==> Harmless(owner)
  {
    hide Synced, Published, Unlines, Render, SnapshotOf, Trim, Harmless, UpdateLines, GetLines;
    forall st: Status
      ensures Synced(v, Unlines(Published(id, title, phase, "", Render(st)))).after == SnapshotOf(st)
              <==> Arrives(v.after, st)
    {
      SyncedText(v, id, title, phase, "", Render(st));
    }
    ReportsArriveIff(v.after, owner);
  }

  /** Names without a newline are harmless. */
  lemma PlainNameIsHarmless(owner: string)
    requires '\n' !in owner
    ensures Harmless(owner)
  {
    hide HarmlessLine;
    FindAfter(owner, '\n', "");
    assert owner + "\n" == owner + ['\n'] + "";
    assert (owner + "\n")[|owner| + 1..] == "";
    assert GetLines(owner + "\n") == [owner];
  }

  /** A task name of 12 characters, within the kernel's 15. */
  const FORGER := "\nval_phys: 0"

  /** With that owner the monitor shows 0 for the value read through the direct alias, whatever
      the kernel printed. */
  lemma NewlineInOwnerForgesValue(s: Snapshot, st: Status)
    requires st.owner == FORGER
    ensures |FORGER| <= 15 && !Harmless(FORGER)
    ensures UpdateLines(s, GetLines(Render(st))).valPhys == 0
  {
    hide UpdateLines, GetLines, Render, LaterLines, SnapshotOf, UpdateLine, Harmless;
    ForgedLines();
    ShownReport(s, st);
    var t := SnapshotOf(st).(status := s.status);
    OneLine(t, "val_phys: 0");
    ForgedUpdate(t);
  }

  lemma ForgedLines()
    ensures LaterLines(FORGER) == ["val_phys: 0"]
  {
    hide GetLines;
    LinesRoundTrip(["", "val_phys: 0"]);
    UnlinesCons("", ["val_phys: 0"]);
    UnlinesCons("val_phys: 0", []);
    UnlinesNothing();
    assert ["", "val_phys: 0"] == [""] + ["val_phys: 0"] && ["val_phys: 0"] == ["val_phys: 0"] + [];
    assert FORGER + "\n" == "" + "\n" + ("val_phys: 0" + "\n" + "");
  }

  lemma ForgedUpdate(s: Snapshot)
    ensures UpdateLine(s, "val_phys: 0").valPhys == 0 && !Harmless(FORGER)
  {
    hide LaterLines, Update, Trim, Find, LineKey, LineValue;
    ForgedLines();
    var f := Field("val_phys", "0");
    assert FieldLine(f) == "val_phys: 0";
    FieldLineParsed(f);
    FieldLineUpdate(s, f);
    ForgedValue(s);
    assert !HarmlessLine(LaterLines(FORGER)[0]);
  }

  lemma ForgedValue(s: Snapshot)
    ensures Update(s, "val_phys", Trim(" " + "0")).valPhys == 0
  {
    TrimKeeps("0");
    assert HexSpan("0"[1..]) == 0 && HexSpan("0") == 1;
    assert "0"[..1] == "0" && HexValue("0"[..0]) == 0;
  }
}
