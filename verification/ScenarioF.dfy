/**
 Scenario F judges the protected system by searching the status text for substrings. The
 searches mean what they should for every state of the kernel and every owner name.
 */
module ScenarioF {
  import opened Text
  import opened StatusReport
  import SafetyProtocol

  const SENTINEL: U32 := SafetyProtocol.SAFETY_SENTINEL

  /** The two searches of `setup`. */
  ghost predicate SetupAccepts(status: string) {
    Contains(status, "ctx_protected: 1") && Contains(status, "mapping_writable_vmalloc: 0")
  }

  /** The two searches of `run`. */
  ghost predicate ValuePreserved(status: string) {
    Contains(status, "value_via_vmalloc: " + "0x5AFE1234") && Contains(status, "value_via_phys: " + "0x5AFE1234")
  }

  // ---- Searching a text of lines ----

  /** A needle without newline lies on one side of a newline. */
  lemma ContainsSplit(x: string, y: string, needle: string)
    requires '\n' !in needle && needle != []
    ensures Contains(x + "\n" + y, needle) <==> Contains(x, needle) || Contains(y, needle)
  {
    var text := x + "\n" + y;
    assert text[|x| + 1..] == y && text[..|x|] == x && text[|x|] == '\n';
    if Contains(text, needle) {
      var i :| 0 <= i <= |text| - |needle| && Occurs(text, needle, i);
      if i + |needle| <= |x| {
        assert Occurs(x, needle, i) by { assert x[i..i + |needle|] == text[i..i + |needle|]; }
      } else if i > |x| {
        var j := i - |x| - 1;
        assert Occurs(y, needle, j) by { assert text[|x| + 1..][j..j + |needle|] == text[i..i + |needle|]; }
      }
    }
    if Contains(x, needle) {
      var i :| 0 <= i <= |x| - |needle| && Occurs(x, needle, i);
      assert Occurs(text, needle, i) by { assert x[i..i + |needle|] == text[i..i + |needle|]; }
    }
    if Contains(y, needle) {
      var j :| 0 <= j <= |y| - |needle| && Occurs(y, needle, j);
      var i := j + |x| + 1;
      assert Occurs(text, needle, i) by { assert text[|x| + 1..][j..j + |needle|] == text[i..i + |needle|]; }
    }
  }

  /** The needle is found in one of the fields' lines. */
  ghost predicate InFields(fs: seq<Field>, needle: string) {
    exists i | 0 <= i < |fs| :: Contains(FieldLine(fs[i]), needle)
  }

  lemma {:induction false} ContainsInFields(fs: seq<Field>, needle: string)
    requires '\n' !in needle && needle != []
    ensures Contains(Unlines(FieldLines(fs)), needle) <==> InFields(fs, needle)
  {
    if fs != [] {
      ContainsInFields(fs[1..], needle);
      ContainsSplit(FieldLine(fs[0]), Unlines(FieldLines(fs[1..])), needle);
      InFieldsAppend([fs[0]], fs[1..], needle);
      assert [fs[0]] + fs[1..] == fs;
    }
  }

  lemma InFieldsAppend(a: seq<Field>, b: seq<Field>, needle: string)
    ensures InFields(a + b, needle) <==> InFields(a, needle) || InFields(b, needle)
    ensures |a| == 1 ==> (InFields(a, needle) <==> Contains(FieldLine(a[0]), needle))
  {
    hide Contains;
    forall i | 0 <= i < |a|
      ensures (a + b)[i] == a[i]
    {
    }
    forall i | 0 <= i < |b|
      ensures (a + b)[|a| + i] == b[i]
    {
    }
  }

  // ---- Searching one line ----

  predicate EndsWith(s: string, suffix: string) {
    |suffix| <= |s| && s[|s| - |suffix|..] == suffix
  }

  /** The characters of a line with a single colon. */
  lemma LineAt(key: string, value: string, i: nat)
    requires i < |key| + 2 + |value|
    ensures (key + ": " + value)[i] ==
            if i < |key| then key[i]
            else if i == |key| then ':'
            else if i == |key| + 1 then ' '
            else value[i - |key| - 2]
  {
  }

  lemma OccursAt(text: string, needle: string, i: nat, j: nat)
    requires i + |needle| <= |text| && Occurs(text, needle, i) && j < |needle|
    ensures text[i + j] == needle[j]
  {
    assert text[i..i + |needle|][j] == needle[j];
  }

  /** The needle's colon meets the line's. */
  lemma ColonsMeet(f: Field, k: string, v: string, i: nat)
    requires ':' !in f.key && ':' !in f.value && i + |k| + 2 + |v| <= |FieldLine(f)|
             && Occurs(FieldLine(f), k + ": " + v, i)
    ensures i + |k| == |f.key|
  {
    hide Occurs;
    var needle := k + ": " + v;
    LineAt(k, v, |k|);
    OccursAt(FieldLine(f), needle, i, |k|);
    LineAt(f.key, f.value, i + |k|);
  }

  /** Whatever occurs in the line is the end of the key and the start of the value. */
  lemma FoundInField(f: Field, k: string, v: string, i: nat)
    requires ':' !in f.key && ':' !in f.value && i + |k| + 2 + |v| <= |FieldLine(f)|
             && Occurs(FieldLine(f), k + ": " + v, i)
    ensures EndsWith(f.key, k) && v <= f.value
  {
    hide Occurs;
    var line, needle := FieldLine(f), k + ": " + v;
    ColonsMeet(f, k, v, i);
    forall j | 0 <= j < |k|
      ensures f.key[i + j] == k[j]
    {
      LineAt(k, v, j);
      LineAt(f.key, f.value, i + j);
      OccursAt(line, needle, i, j);
    }
    assert f.key[i..] == k;
    forall j | 0 <= j < |v|
      ensures f.value[j] == v[j]
    {
      LineAt(k, v, |k| + 2 + j);
      LineAt(f.key, f.value, |f.key| + 2 + j);
      OccursAt(line, needle, i, |k| + 2 + j);
    }
    assert f.value[..|v|] == v;
  }

  lemma OccursBetween(a: string, needle: string, b: string)
    ensures Contains(a + needle + b, needle)
  {
    var text := a + needle + b;
    assert text[|a|..|a| + |needle|] == needle;
    assert Occurs(text, needle, |a|);
  }

  lemma LineAround(key: string, k: string, v: string, value: string)
    ensures (key + k) + ": " + (v + value) == key + (k + ": " + v) + value
  {
  }

  /** The end of the key and the start of the value do occur. */
  lemma FieldIsFound(f: Field, k: string, v: string)
    requires EndsWith(f.key, k) && v <= f.value
    ensures Contains(FieldLine(f), k + ": " + v)
  {
    hide Contains;
    var front, back := f.key[..|f.key| - |k|], f.value[|v|..];
    assert f.key == front + k && f.value == v + back;
    LineAround(front, k, v, back);
    OccursBetween(front, k + ": " + v, back);
  }

  /** In a line with a single colon, a needle with a single colon matches the key from behind and
      the value from the front. */
  lemma SearchField(f: Field, k: string, v: string)
    requires ':' !in f.key && ':' !in f.value
    ensures Contains(FieldLine(f), k + ": " + v) <==> EndsWith(f.key, k) && v <= f.value
  {
    hide Occurs, EndsWith, FieldLine;
    var line, needle := FieldLine(f), k + ": " + v;
    if Contains(line, needle) {
      var i :| 0 <= i <= |line| - |needle| && Occurs(line, needle, i);
      FoundInField(f, k, v, i);
    }
    if EndsWith(f.key, k) && v <= f.value {
      FieldIsFound(f, k, v);
    }
  }

  /** A needle longer than a task name that cannot start inside the key is not on the owner line. */
  lemma OwnerLineIsInnocent(owner: string, needle: string)
    requires |owner| <= 15 && |needle| > 15
    requires needle[0] == 'c' || needle[0] == 'v' || (needle[0] == 'm' && needle[1] == 'a')
    ensures !Contains(FieldLine(Field("mutex_owner", owner)), needle)
  {
    var line := FieldLine(Field("mutex_owner", owner));
    forall i | 0 <= i <= |line| - |needle|
      ensures !Occurs(line, needle, i)
    {
      if i < 13 {
        assert line[i] == "mutex_owner: "[i];
        assert i == 0 ==> line[1] == 'u';
      }
    }
  }

  // ---- Searching the whole report ----

  predicate Hit(f: Field, k: string, v: string) {
    EndsWith(f.key, k) && v <= f.value
  }

  ghost predicate NoColons(fs: seq<Field>) {
    forall i | 0 <= i < |fs| :: ':' !in fs[i].key && ':' !in fs[i].value
  }

  lemma SearchFields(fs: seq<Field>, k: string, v: string)
    requires NoColons(fs) && ':' !in k
    ensures InFields(fs, k + ": " + v) <==> exists i | 0 <= i < |fs| :: Hit(fs[i], k, v)
  {
    hide Contains, EndsWith, FieldLine;
    forall i | 0 <= i < |fs|
      ensures Contains(FieldLine(fs[i]), k + ": " + v) <==> Hit(fs[i], k, v)
    {
      SearchField(fs[i], k, v);
    }
  }

  lemma KeyHasNoColon(k: string)
    requires GoodKey(k)
    ensures ':' !in k
  {
  }

  lemma AddressNoColons(st: Status)
    ensures NoColons(AddressFields(st))
  {
    hide Hex, GoodKey, LevelName, Bit;
    AddressKeys();
    KeyHasNoColon("virt_addr");
    KeyHasNoColon("phys_addr");
    KeyHasNoColon("mapping_level_before");
    KeyHasNoColon("mapping_entry_before");
    KeyHasNoColon("mapping_writable_before");
    NumberText(st.virt, 16, false);
    NumberText(st.phys, 16, false);
    NumberText(st.before.entry, 16, true);
    NamesHaveNoNewline(st.before.block);
    NamesHaveNoNewline(st.before.writable);
  }

  lemma CurrentNoColons(st: Status)
    ensures NoColons(CurrentFields(st))
  {
    hide Hex, GoodKey, LevelName, Bit;
    CurrentKeys();
    KeyHasNoColon("mapping_level_current");
    KeyHasNoColon("mapping_entry_current");
    KeyHasNoColon("mapping_writable_current");
    KeyHasNoColon("mapping_valid_current");
    NumberText(st.current.entry, 16, true);
    NamesHaveNoNewline(st.current.block);
    NamesHaveNoNewline(st.current.writable);
    NamesHaveNoNewline(st.current.valid);
  }

  lemma VmallocNoColons(st: Status)
    ensures NoColons(VmallocFields(st))
  {
    hide Hex, GoodKey, LevelName, Bit;
    VmallocKeys();
    KeyHasNoColon("mapping_level_vmalloc");
    KeyHasNoColon("mapping_entry_vmalloc");
    KeyHasNoColon("mapping_writable_vmalloc");
    KeyHasNoColon("value_via_vmalloc");
    NumberText(st.vmalloc.entry, 16, true);
    NumberText(st.valueVmalloc, 8, true);
    NamesHaveNoNewline(st.vmalloc.block);
    NamesHaveNoNewline(st.vmalloc.writable);
  }

  lemma StateNoColons(st: Status)
    ensures NoColons(StateFields(st)[..3] + StateFields(st)[4..])
  {
    hide Hex, GoodKey, StatusName, Bit;
    StateKeys();
    KeyHasNoColon("value_via_phys");
    KeyHasNoColon("ctx_protected");
    KeyHasNoColon("smmu_active");
    KeyHasNoColon("status");
    NumberText(st.valuePhys, 8, true);
    NamesHaveNoNewline(st.ctxProtected);
    NamesHaveNoNewline(st.smmuActive);
  }

  /** The owner line never answers a search, so the report is searched field by field. */
  lemma SearchReport(st: Status, k: string, v: string)
    requires |st.owner| <= 15 && GoodKey(k) && '\n' !in v && |k| + |v| > 13
    requires |k| > 1 && (k[0] == 'c' || k[0] == 'v' || (k[0] == 'm' && k[1] == 'a'))
    ensures Contains(Render(st), k + ": " + v) <==>
            || InFields(AddressFields(st), k + ": " + v) || InFields(CurrentFields(st), k + ": " + v)
            || InFields(VmallocFields(st), k + ": " + v)
            || InFields(StateFields(st)[..3] + StateFields(st)[4..], k + ": " + v)
  {
    hide Contains, InFields, AddressFields, CurrentFields, VmallocFields;
    var n := k + ": " + v;
    var a, c, w, t := AddressFields(st), CurrentFields(st), VmallocFields(st), StateFields(st);
    ContainsInFields(Fields(st), n);
    InFieldsAppend(a + c + w, t, n);
    InFieldsAppend(a + c, w, n);
    InFieldsAppend(a, c, n);
    assert t == t[..3] + [t[3]] + t[4..];
    InFieldsAppend(t[..3] + [t[3]], t[4..], n);
    InFieldsAppend(t[..3], [t[3]], n);
    InFieldsAppend([t[3]], [], n);
    InFieldsAppend(t[..3], t[4..], n);
    OwnerLineIsInnocent(st.owner, n);
  }

  // ---- The four needles ----

  predicate Unlike(k: string, suffix: string) {
    |k| < |suffix| || (k != [] && suffix != [] && k[|k| - 1] != suffix[|suffix| - 1])
  }

  lemma UnlikeEnds(k: string, suffix: string)
    requires Unlike(k, suffix)
    ensures !EndsWith(k, suffix)
  {
  }

  lemma NoHit(fs: seq<Field>, k: string, v: string)
    requires NoColons(fs) && ':' !in k
    requires forall i | 0 <= i < |fs| :: !EndsWith(fs[i].key, k)
    ensures !InFields(fs, k + ": " + v)
  {
    hide EndsWith, InFields;
    SearchFields(fs, k, v);
  }

  lemma OneHit(fs: seq<Field>, j: nat, k: string, v: string)
    requires NoColons(fs) && ':' !in k && j < |fs| && fs[j].key == k
    requires forall i | 0 <= i < |fs| && i != j :: !EndsWith(fs[i].key, k)
    ensures InFields(fs, k + ": " + v) <==> v <= fs[j].value
  {
    hide InFields;
    SearchFields(fs, k, v);
    assert Hit(fs[j], k, v) <==> v <= fs[j].value;
  }

  predicate UnlikeAddress(k: string) {
    && Unlike("virt_addr", k) && Unlike("phys_addr", k) && Unlike("mapping_level_before", k)
    && Unlike("mapping_entry_before", k) && Unlike("mapping_writable_before", k)
  }

  predicate UnlikeCurrent(k: string) {
    && Unlike("mapping_level_current", k) && Unlike("mapping_entry_current", k)
    && Unlike("mapping_writable_current", k) && Unlike("mapping_valid_current", k)
  }

  lemma ForeignKeys(k: string)
    requires k in {"ctx_protected", "mapping_writable_vmalloc", "value_via_vmalloc", "value_via_phys"}
    ensures UnlikeAddress(k) && UnlikeCurrent(k) && GoodKey(k)
  {
    hide GoodKey;
    VmallocKeys();
    StateKeys();
  }

  lemma NotInAddress(st: Status, k: string, v: string)
    requires UnlikeAddress(k) && GoodKey(k)
    ensures !InFields(AddressFields(st), k + ": " + v)
  {
    hide Unlike, EndsWith, GoodKey, InFields, Hex, LevelName, Bit, NoColons;
    UnlikeEnds("virt_addr", k);
    UnlikeEnds("phys_addr", k);
    UnlikeEnds("mapping_level_before", k);
    UnlikeEnds("mapping_entry_before", k);
    UnlikeEnds("mapping_writable_before", k);
    AddressNoColons(st);
    KeyHasNoColon(k);
    NoHit(AddressFields(st), k, v);
  }

  lemma NotInCurrent(st: Status, k: string, v: string)
    requires UnlikeCurrent(k) && GoodKey(k)
    ensures !InFields(CurrentFields(st), k + ": " + v)
  {
    hide Unlike, EndsWith, GoodKey, InFields, Hex, LevelName, Bit, NoColons;
    UnlikeEnds("mapping_level_current", k);
    UnlikeEnds("mapping_entry_current", k);
    UnlikeEnds("mapping_writable_current", k);
    UnlikeEnds("mapping_valid_current", k);
    CurrentNoColons(st);
    KeyHasNoColon(k);
    NoHit(CurrentFields(st), k, v);
  }

  lemma VmallocEndings()
    ensures !EndsWith("mapping_level_vmalloc", "ctx_protected") && !EndsWith("mapping_entry_vmalloc", "ctx_protected")
    ensures !EndsWith("mapping_writable_vmalloc", "ctx_protected") && !EndsWith("value_via_vmalloc", "ctx_protected")
    ensures !EndsWith("mapping_level_vmalloc", "value_via_phys") && !EndsWith("mapping_entry_vmalloc", "value_via_phys")
    ensures !EndsWith("mapping_writable_vmalloc", "value_via_phys") && !EndsWith("value_via_vmalloc", "value_via_phys")
    ensures !EndsWith("mapping_level_vmalloc", "mapping_writable_vmalloc")
    ensures !EndsWith("mapping_entry_vmalloc", "mapping_writable_vmalloc")
    ensures !EndsWith("value_via_vmalloc", "mapping_writable_vmalloc")
  {
    UnlikeEnds("mapping_level_vmalloc", "ctx_protected");
    UnlikeEnds("mapping_entry_vmalloc", "ctx_protected");
    UnlikeEnds("mapping_writable_vmalloc", "ctx_protected");
    UnlikeEnds("value_via_vmalloc", "ctx_protected");
    UnlikeEnds("mapping_level_vmalloc", "value_via_phys");
    UnlikeEnds("mapping_entry_vmalloc", "value_via_phys");
    UnlikeEnds("mapping_writable_vmalloc", "value_via_phys");
    UnlikeEnds("value_via_vmalloc", "value_via_phys");
  }

  lemma ValueVmallocEndings()
    ensures !EndsWith("mapping_level_vmalloc", "value_via_vmalloc")
    ensures !EndsWith("mapping_entry_vmalloc", "value_via_vmalloc")
    ensures !EndsWith("mapping_writable_vmalloc", "value_via_vmalloc")
  {
    assert "mapping_level_vmalloc"[21 - 17..][8] == 'l' && "value_via_vmalloc"[8] == 'a';
    assert "mapping_entry_vmalloc"[21 - 17..][8] == 'y';
    assert "mapping_writable_vmalloc"[24 - 17..][8] == 'e';
  }

  lemma StateEndings()
    ensures !EndsWith("value_via_phys", "ctx_protected") && !EndsWith("smmu_active", "ctx_protected")
    ensures !EndsWith("status", "ctx_protected")
    ensures !EndsWith("ctx_protected", "value_via_phys") && !EndsWith("smmu_active", "value_via_phys")
    ensures !EndsWith("status", "value_via_phys")
    ensures !EndsWith("value_via_phys", "value_via_vmalloc") && !EndsWith("ctx_protected", "value_via_vmalloc")
    ensures !EndsWith("smmu_active", "value_via_vmalloc") && !EndsWith("status", "value_via_vmalloc")
    ensures !EndsWith("value_via_phys", "mapping_writable_vmalloc")
            && !EndsWith("ctx_protected", "mapping_writable_vmalloc")
    ensures !EndsWith("smmu_active", "mapping_writable_vmalloc") && !EndsWith("status", "mapping_writable_vmalloc")
  {
    UnlikeEnds("value_via_phys", "ctx_protected");
  }

  /** The vmap group answers only searches for its own keys. */
  lemma InVmalloc(st: Status, k: string, v: string)
    requires k in {"ctx_protected", "mapping_writable_vmalloc", "value_via_vmalloc", "value_via_phys"}
    ensures InFields(VmallocFields(st), k + ": " + v) <==>
            || (k == "mapping_writable_vmalloc" && v <= Bit(st.vmalloc.writable))
            || (k == "value_via_vmalloc" && v <= Word(st.valueVmalloc))
  {
    hide EndsWith, GoodKey, InFields, Hex, LevelName, Bit, NoColons;
    ForeignKeys(k);
    KeyHasNoColon(k);
    VmallocNoColons(st);
    VmallocEndings();
    ValueVmallocEndings();
    var fs := VmallocFields(st);
    if k == "mapping_writable_vmalloc" {
      OneHit(fs, 2, k, v);
    } else if k == "value_via_vmalloc" {
      OneHit(fs, 3, k, v);
    } else {
      NoHit(fs, k, v);
    }
  }

  lemma InState(st: Status, k: string, v: string)
    requires k in {"ctx_protected", "mapping_writable_vmalloc", "value_via_vmalloc", "value_via_phys"}
    ensures InFields(StateFields(st)[..3] + StateFields(st)[4..], k + ": " + v) <==>
            || (k == "value_via_phys" && v <= Word(st.valuePhys))
            || (k == "ctx_protected" && v <= Bit(st.ctxProtected))
  {
    hide EndsWith, GoodKey, InFields, Hex, StatusName, Bit, NoColons;
    ForeignKeys(k);
    KeyHasNoColon(k);
    StateNoColons(st);
    StateEndings();
    var fs := StateFields(st)[..3] + StateFields(st)[4..];
    if k == "value_via_phys" {
      OneHit(fs, 0, k, v);
    } else if k == "ctx_protected" {
      OneHit(fs, 1, k, v);
    } else {
      NoHit(fs, k, v);
    }
  }

  /** What each needle's search answers, for every report. */
  lemma SearchAnswer(st: Status, k: string, v: string)
    requires |st.owner| <= 15 && '\n' !in v && |k| + |v| > 13
    requires k in {"ctx_protected", "mapping_writable_vmalloc", "value_via_vmalloc", "value_via_phys"}
    ensures Contains(Render(st), k + ": " + v) <==>
            || (k == "ctx_protected" && v <= Bit(st.ctxProtected))
            || (k == "mapping_writable_vmalloc" && v <= Bit(st.vmalloc.writable))
            || (k == "value_via_vmalloc" && v <= Word(st.valueVmalloc))
            || (k == "value_via_phys" && v <= Word(st.valuePhys))
  {
    hide Contains, InFields, GoodKey, Render, UnlikeAddress, UnlikeCurrent, StateFields, Word, Bit;
    ForeignKeys(k);
    SearchReport(st, k, v);
    NotInAddress(st, k, v);
    NotInCurrent(st, k, v);
    InVmalloc(st, k, v);
    InState(st, k, v);
  }

  /** One more digit. */
  lemma HexStep(n: nat, w: nat, prefix: string, d: char)
    requires w > 0 && Hex(n / 16, w - 1, true) == prefix && Digit(n % 16, true) == d
    ensures Hex(n, w, true) == prefix + [d]
  {
  }

  lemma SentinelDigits()
    ensures Word(SENTINEL) == "0x5AFE1234"
  {
    hide Hex;
    assert Hex(0, 0, true) == "";
    HexStep(0x5, 1, "", '5');
    HexStep(0x5A, 2, "5", 'A');
    HexStep(0x5AF, 3, "5A", 'F');
    HexStep(0x5AFE, 4, "5AF", 'E');
    HexStep(0x5AFE1, 5, "5AFE", '1');
    HexStep(0x5AFE12, 6, "5AFE1", '2');
    HexStep(0x5AFE123, 7, "5AFE12", '3');
    HexStep(0x5AFE1234, 8, "5AFE123", '4');
  }

  lemma SentinelText(n: U32)
    ensures "0x5AFE1234" <= Word(n) <==> n == SENTINEL
  {
    hide Hex;
    WordInjective(n, SENTINEL);
    SentinelDigits();
  }

  lemma BitText(b: bool)
    ensures "1" <= Bit(b) <==> b
    ensures "0" <= Bit(b) <==> !b
  {
    assert Bit(b)[0] == if b then '1' else '0';
  }

  /** For every state and every owner name of at most 15 characters, whatever they are, setup
      accepts exactly when the flag is 1 and the vmap walk is not writable, and the value counts
      as preserved exactly when both printed values are the sentinel. */
  lemma VerdictsAreExact(st: Status)
    requires |st.owner| <= 15
    ensures SetupAccepts(Render(st)) <==> st.ctxProtected && !st.vmalloc.writable
    ensures ValuePreserved(Render(st)) <==> st.valueVmalloc == SENTINEL && st.valuePhys == SENTINEL
  {
    hide Contains, Render, Word, Bit;
    BitText(st.ctxProtected);
    BitText(st.vmalloc.writable);
    SearchAnswer(st, "ctx_protected", "1");
    SearchAnswer(st, "mapping_writable_vmalloc", "0");
    SearchAnswer(st, "value_via_vmalloc", "0x5AFE1234");
    SearchAnswer(st, "value_via_phys", "0x5AFE1234");
    SentinelText(st.valueVmalloc);
    SentinelText(st.valuePhys);
    assert "ctx_protected" + ": " + "1" == "ctx_protected: 1";
    assert "mapping_writable_vmalloc" + ": " + "0" == "mapping_writable_vmalloc: 0";
    assert "value_via_vmalloc" + ": " + "0x5AFE1234" == "value_via_vmalloc: " + "0x5AFE1234";
    assert "value_via_phys" + ": " + "0x5AFE1234" == "value_via_phys: " + "0x5AFE1234";
  }
}
