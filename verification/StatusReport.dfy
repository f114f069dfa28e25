/** What `/proc/safety_mem_status` prints. */
module StatusReport {
  import opened Text

  type U32 = n: nat | n < 0x1_0000_0000
  type U64 = n: nat | n < 0x1_0000_0000_0000_0000

  /** The parts of a page-table walk that are printed. */
  datatype Mapping = Mapping(block: bool, entry: U64, writable: bool, valid: bool)

  datatype Status = Status(
    virt: U64, phys: U64, before: Mapping, current: Mapping, vmalloc: Mapping,
    valueVmalloc: U32, valuePhys: U32, ctxProtected: bool, smmuActive: bool, owner: string)

  datatype Field = Field(key: string, value: string)

  function Bit(b: bool): string {
    if b then "1" else "0"
  }

  function LevelName(block: bool): string {
    if block then "PMD_BLOCK" else "PTE_PAGE"
  }

  function StatusName(ctxProtected: bool): string {
    if ctxProtected then "PROTECTED_RO" else "UNPROTECTED_RW"
  }

  function Word(n: U32): string {
    "0x" + Hex(n, 8, true)
  }

  function EntryText(n: U64): string {
    "0x" + Hex(n, 16, true)
  }

  function Address(n: U64): string {
    "0x" + Hex(n, 16, false)
  }

  /** The first half: addresses and the walk made at initialisation and now. */
  function AddressFields(st: Status): seq<Field> {
    [ Field("virt_addr", Address(st.virt)),
      Field("phys_addr", Address(st.phys)),
      Field("mapping_level_before", LevelName(st.before.block)),
      Field("mapping_entry_before", EntryText(st.before.entry)),
      Field("mapping_writable_before", Bit(st.before.writable)) ]
  }

  function CurrentFields(st: Status): seq<Field> {
    [ Field("mapping_level_current", LevelName(st.current.block)),
      Field("mapping_entry_current", EntryText(st.current.entry)),
      Field("mapping_writable_current", Bit(st.current.writable)),
      Field("mapping_valid_current", Bit(st.current.valid)) ]
  }

  function VmallocFields(st: Status): seq<Field> {
    [ Field("mapping_level_vmalloc", LevelName(st.vmalloc.block)),
      Field("mapping_entry_vmalloc", EntryText(st.vmalloc.entry)),
      Field("mapping_writable_vmalloc", Bit(st.vmalloc.writable)),
      Field("value_via_vmalloc", Word(st.valueVmalloc)) ]
  }

  function StateFields(st: Status): seq<Field> {
    [ Field("value_via_phys", Word(st.valuePhys)),
      Field("ctx_protected", Bit(st.ctxProtected)),
      Field("smmu_active", Bit(st.smmuActive)),
      Field("mutex_owner", st.owner),
      Field("status", StatusName(st.ctxProtected)) ]
  }

  /** All lines in the order of the printing statements. */
  function Fields(st: Status): seq<Field> {
    AddressFields(st) + CurrentFields(st) + VmallocFields(st) + StateFields(st)
  }

  function FieldLine(f: Field): string {
    f.key + ": " + f.value
  }

  function FieldLines(fs: seq<Field>): seq<string> {
    if fs == [] then [] else [FieldLine(fs[0])] + FieldLines(fs[1..])
  }

  /** `safety_mem_proc_show`. */
  function Render(st: Status): string {
    Unlines(FieldLines(Fields(st)))
  }

  lemma {:induction false} FieldLinesAt(fs: seq<Field>)
    ensures |FieldLines(fs)| == |fs| && forall i | 0 <= i < |fs| :: FieldLines(fs)[i] == FieldLine(fs[i])
  {
    if fs != [] {
      FieldLinesAt(fs[1..]);
    }
  }

  lemma {:induction false} FieldLinesAppend(a: seq<Field>, b: seq<Field>)
    ensures FieldLines(a + b) == FieldLines(a) + FieldLines(b)
  {
    if a == [] {
      assert a + b == b;
    } else {
      FieldLinesAppend(a[1..], b);
      assert (a + b)[1..] == a[1..] + b;
    }
  }

  predicate KeyChar(c: char) {
    'a' <= c <= 'z' || c == '_'
  }

  /** A key of lower-case letters and underscores survives both separators and trimming. */
  predicate GoodKey(k: string) {
    k != [] && forall i | 0 <= i < |k| :: KeyChar(k[i])
  }

  predicate GoodField(f: Field) {
    GoodKey(f.key) && '\n' !in f.value
  }

  ghost predicate GoodFields(fs: seq<Field>) {
    forall i | 0 <= i < |fs| :: GoodField(fs[i])
  }

  lemma NumberText(n: nat, w: nat, upper: bool)
    ensures '\n' !in "0x" + Hex(n, w, upper) && ':' !in "0x" + Hex(n, w, upper) && Trimmed("0x" + Hex(n, w, upper))
  {
    HexDigits(n, w, upper);
  }

  lemma NamesHaveNoNewline(b: bool)
    ensures '\n' !in Bit(b) && '\n' !in LevelName(b) && '\n' !in StatusName(b)
    ensures ':' !in Bit(b) && ':' !in LevelName(b) && ':' !in StatusName(b)
  {
  }

  lemma AddressKeys()
    ensures GoodKey("virt_addr") && GoodKey("phys_addr")
    ensures GoodKey("mapping_level_before") && GoodKey("mapping_entry_before") && GoodKey("mapping_writable_before")
  {
  }

  lemma CurrentKeys()
    ensures GoodKey("mapping_level_current") && GoodKey("mapping_entry_current")
    ensures GoodKey("mapping_writable_current") && GoodKey("mapping_valid_current")
  {
  }

  lemma VmallocKeys()
    ensures GoodKey("mapping_level_vmalloc") && GoodKey("mapping_entry_vmalloc")
    ensures GoodKey("mapping_writable_vmalloc") && GoodKey("value_via_vmalloc")
  {
  }

  lemma StateKeys()
    ensures GoodKey("value_via_phys") && GoodKey("ctx_protected") && GoodKey("smmu_active")
    ensures GoodKey("mutex_owner") && GoodKey("status")
  {
  }

  lemma AddressFieldsAreGood(st: Status)
    ensures GoodFields(AddressFields(st))
  {
    hide Hex, GoodKey, LevelName, Bit;
    AddressKeys();
    NumberText(st.virt, 16, false);
    NumberText(st.phys, 16, false);
    NumberText(st.before.entry, 16, true);
    NamesHaveNoNewline(st.before.block);
    NamesHaveNoNewline(st.before.writable);
  }

  lemma CurrentFieldsAreGood(st: Status)
    ensures GoodFields(CurrentFields(st))
  {
    hide Hex, GoodKey, LevelName, Bit;
    CurrentKeys();
    NumberText(st.current.entry, 16, true);
    NamesHaveNoNewline(st.current.block);
    NamesHaveNoNewline(st.current.writable);
    NamesHaveNoNewline(st.current.valid);
  }

  lemma VmallocFieldsAreGood(st: Status)
    ensures GoodFields(VmallocFields(st))
  {
    hide Hex, GoodKey, LevelName, Bit;
    VmallocKeys();
    NumberText(st.vmalloc.entry, 16, true);
    NumberText(st.valueVmalloc, 8, true);
    NamesHaveNoNewline(st.vmalloc.block);
    NamesHaveNoNewline(st.vmalloc.writable);
  }

  lemma StateFieldsAreGood(st: Status)
    requires '\n' !in st.owner
    ensures GoodFields(StateFields(st))
  {
    hide Hex, GoodKey, StatusName, Bit;
    StateKeys();
    NumberText(st.valuePhys, 8, true);
    NamesHaveNoNewline(st.ctxProtected);
    NamesHaveNoNewline(st.smmuActive);
  }

  // ---- The printed text ----

  /** The line is the key and `w` digits out of `digits`, of value `n`, behind `0x`. */
  ghost predicate PrintsNumber(line: string, key: string, n: nat, w: nat, digits: string) {
    var at := |key| + 4;
    && |line| == at + w && line[..at] == key + ": 0x" && HexValue(line[at..]) == n
    && forall i | at <= i < |line| :: line[i] in digits
  }

  lemma NumberLine(key: string, n: nat, w: nat, upper: bool)
    requires n < Pow16(w)
    ensures PrintsNumber(FieldLine(Field(key, "0x" + Hex(n, w, upper))), key, n, w,
                         if upper then "0123456789ABCDEF" else "0123456789abcdef")
  {
    hide Hex, HexValue;
    var line, at := FieldLine(Field(key, "0x" + Hex(n, w, upper))), |key| + 4;
    assert line == (key + ": 0x") + Hex(n, w, upper);
    assert line[..at] == key + ": 0x" && line[at..] == Hex(n, w, upper);
    HexValueOfHex(n, w, upper);
    HexCase(n, w, upper);
    assert forall i | at <= i < |line| :: line[i] == Hex(n, w, upper)[i - at];
  }

  /** A walk's level, entry and write permission. */
  ghost predicate PrintsMapping(lines: seq<string>, suffix: string, m: Mapping)
    requires |lines| == 3
  {
    && lines[0] == "mapping_level_" + suffix + ": " + (if m.block then "PMD_BLOCK" else "PTE_PAGE")
    && PrintsNumber(lines[1], "mapping_entry_" + suffix, m.entry, 16, "0123456789ABCDEF")
    && lines[2] == "mapping_writable_" + suffix + ": " + (if m.writable then "1" else "0")
  }

  lemma MappingLines(suffix: string, m: Mapping)
    ensures PrintsMapping([ FieldLine(Field("mapping_level_" + suffix, LevelName(m.block))),
                            FieldLine(Field("mapping_entry_" + suffix, EntryText(m.entry))),
                            FieldLine(Field("mapping_writable_" + suffix, Bit(m.writable))) ], suffix, m)
  {
    hide Hex, PrintsNumber;
    WidthOf32();
    NumberLine("mapping_entry_" + suffix, m.entry, 16, true);
  }

  /** The lines before the owner's name: addresses in lower-case digits, the three walks, the
      validity of the current one, the two values and the flags. */
  ghost predicate PrintsFront(lines: seq<string>, st: Status)
    requires |lines| == 18
  {
    && PrintsNumber(lines[0], "virt_addr", st.virt, 16, "0123456789abcdef")
    && PrintsNumber(lines[1], "phys_addr", st.phys, 16, "0123456789abcdef")
    && PrintsMapping(lines[2..5], "before", st.before)
    && PrintsMapping(lines[5..8], "current", st.current)
    && lines[8] == "mapping_valid_current: " + (if st.current.valid then "1" else "0")
    && PrintsMapping(lines[9..12], "vmalloc", st.vmalloc)
    && PrintsNumber(lines[12], "value_via_vmalloc", st.valueVmalloc, 8, "0123456789ABCDEF")
    && PrintsNumber(lines[13], "value_via_phys", st.valuePhys, 8, "0123456789ABCDEF")
    && lines[14] == "ctx_protected: " + (if st.ctxProtected then "1" else "0")
    && lines[15] == "smmu_active: " + (if st.smmuActive then "1" else "0")
  }

  /** The printed report, line by line. */
  lemma PrintedReport(st: Status)
    ensures var lines := FieldLines(Fields(st));
            && Render(st) == Unlines(lines) && |lines| == 18 && PrintsFront(lines, st)
            && lines[16] == "mutex_owner: " + st.owner
            && lines[17] == "status: " + (if st.ctxProtected then "PROTECTED_RO" else "UNPROTECTED_RW")
  {
    hide Hex, PrintsNumber, PrintsMapping, FieldLines, LevelName, Bit;
    WidthOf32();
    FieldLinesAt(Fields(st));
    var lines := FieldLines(Fields(st));
    NumberLine("virt_addr", st.virt, 16, false);
    NumberLine("phys_addr", st.phys, 16, false);
    NumberLine("value_via_vmalloc", st.valueVmalloc, 8, true);
    NumberLine("value_via_phys", st.valuePhys, 8, true);
    PrintedMappings(st);
    PrintedBits(st);
  }

  lemma PrintedMappings(st: Status)
    ensures var lines := FieldLines(Fields(st));
            |lines| == 18 && PrintsMapping(lines[2..5], "before", st.before)
            && PrintsMapping(lines[5..8], "current", st.current) && PrintsMapping(lines[9..12], "vmalloc", st.vmalloc)
  {
    hide Hex, PrintsMapping, FieldLines, LevelName, Bit;
    FieldLinesAt(Fields(st));
    MappingLines("before", st.before);
    MappingLines("current", st.current);
    MappingLines("vmalloc", st.vmalloc);
    MappingSuffixes();
    var lines := FieldLines(Fields(st));
    assert lines[2..5] == [lines[2], lines[3], lines[4]];
    assert lines[5..8] == [lines[5], lines[6], lines[7]];
    assert lines[9..12] == [lines[9], lines[10], lines[11]];
  }

  lemma MappingSuffixes()
    ensures "mapping_level_" + "before" == "mapping_level_before"
    ensures "mapping_entry_" + "before" == "mapping_entry_before"
    ensures "mapping_writable_" + "before" == "mapping_writable_before"
    ensures "mapping_level_" + "current" == "mapping_level_current"
    ensures "mapping_entry_" + "current" == "mapping_entry_current"
    ensures "mapping_writable_" + "current" == "mapping_writable_current"
    ensures "mapping_level_" + "vmalloc" == "mapping_level_vmalloc"
    ensures "mapping_entry_" + "vmalloc" == "mapping_entry_vmalloc"
    ensures "mapping_writable_" + "vmalloc" == "mapping_writable_vmalloc"
  {
  }

  lemma PrintedBits(st: Status)
    ensures var f := Fields(st);
            && |f| == 18
            && FieldLine(f[8]) == "mapping_valid_current: " + (if st.current.valid then "1" else "0")
            && FieldLine(f[14]) == "ctx_protected: " + (if st.ctxProtected then "1" else "0")
            && FieldLine(f[15]) == "smmu_active: " + (if st.smmuActive then "1" else "0")
            && FieldLine(f[16]) == "mutex_owner: " + st.owner
            && FieldLine(f[17]) == "status: " + (if st.ctxProtected then "PROTECTED_RO" else "UNPROTECTED_RW")
  {
    hide Hex, LevelName;
  }

  /** A hexadecimal word identifies its value. */
  lemma WordInjective(a: U32, b: U32)
    ensures Word(a) == Word(b) <==> a == b
  {
    WidthOf32();
    HexRoundTrip(a, 8, true, 0x1_0000_0000);
    HexRoundTrip(b, 8, true, 0x1_0000_0000);
  }
}
