/**
 The page-table walker against the architecture's own translation.

 VMSAv8-64 with the 4 KB granule and 48-bit addresses (chapter D8 of the Arm Architecture
 Reference Manual, DDI 0487): four levels of 512 descriptors. The kernel folds its P4D level
 into the PGD, so the walker's PGD, PUD, PMD and PTE are levels 0 to 3.
 */
module PageTable {
  import opened Wrappers

  /** A 64-bit descriptor, by the bits anybody looks at: bit 0, bit 1, the output frame, the
      kernel's PTE_WRITE, AP[2] (read-only), PTE_PROT_NONE, APTable[1] (read-only below) and
      the rest. */
  datatype Desc = Desc(
    valid: bool, table: bool, pfn: nat, write: bool, rdonly: bool, protNone: bool, roTable: bool, rest: nat)

  /** The all-zero descriptor. */
  const NONE := Desc(false, false, 0, false, false, false, false, 0)

  const PAGE_SIZE := 4096
  const PMD_SIZE := 0x20_0000
  const PUD_SIZE := 0x4000_0000

  /** Table memory: the descriptor at an index of the table in a frame. */
  type Memory = map<(nat, nat), Desc>

  function Entry(m: Memory, frame: nat, index: nat): Desc {
    if (frame, index) in m then m[(frame, index)] else NONE
  }

  /** The address cut above the level's offset: the page number at level 3. */
  function Number(va: nat, level: nat): nat
    requires level <= 3
    decreases 3 - level
  {
    if level == 3 then va / PAGE_SIZE else Number(va, level + 1) / 512
  }

  function Index(va: nat, level: nat): nat
    requires level <= 3
  {
    Number(va, level) % 512
  }

  /** Addresses that the kernel's table base register translates. */
  predicate KernelAddress(va: nat) {
    0xFFFF_0000_0000_0000 <= va < 0x1_0000_0000_0000_0000
  }

  // ---- The walker ----

  datatype WalkInfo = WalkInfo(
    virt: nat, phys: nat, pgd: Desc, p4d: Desc, pud: Desc, pmd: Desc, pte: Desc,
    block: bool, writable: bool, valid: bool)

  function Zeroed(va: nat): WalkInfo {
    WalkInfo(va, 0, NONE, NONE, NONE, NONE, NONE, false, false, false)
  }

  /** `p4d_none` or `p4d_bad`: the table bit is missing; the valid bit is not tested. */
  predicate NoP4d(d: Desc) {
    d == NONE || !d.table
  }

  /** `pud_none` or `pud_bad`: not a table descriptor. */
  predicate NoPud(d: Desc) {
    d == NONE || !(d.valid && d.table)
  }

  /** `pmd_pfn`: the frame with the bits below a block's size masked off. */
  function BlockFrame(pfn: nat): nat {
    pfn / 512 * 512
  }

  /** `pmd_sect`: a block descriptor. */
  predicate Section(d: Desc) {
    d.valid && !d.table
  }

  /** `pte_present`. */
  predicate Present(d: Desc) {
    d.valid || d.protNone
  }

  /** What the walk of `va` from the table in frame `root` reports. */
  function Walk(m: Memory, root: nat, va: nat): (w: WalkInfo)
    ensures w.virt == va && (w.block ==> w.valid)
  {
    var pgd := Entry(m, root, Index(va, 0));
    var i0 := Zeroed(va).(pgd := pgd);
    if NoP4d(pgd) then i0 else
    var pud := Entry(m, pgd.pfn, Index(va, 1));
    var i1 := i0.(p4d := pgd);
    if NoPud(pud) then i1 else
    var pmd := Entry(m, pud.pfn, Index(va, 2));
    var i2 := i1.(pud := pud);
    if pmd == NONE then i2
    else if Section(pmd) then
      i2.(pmd := pmd, block := true, valid := true, writable := pmd.write, phys := BlockFrame(pmd.pfn) * PAGE_SIZE)
    else
      var pte := Entry(m, pmd.pfn, Index(va, 3));
      var i3 := i2.(pmd := pmd);
      if pte == NONE then i3
      else i3.(pte := pte, valid := Present(pte), writable := pte.write, phys := pte.pfn * PAGE_SIZE)
  }

  /** `safety_mem_walk_pgtable`: the record filled field by field, with early returns. */
  method WalkPgtable(m: Memory, root: nat, va: nat) returns (info: WalkInfo)
    ensures info == Walk(m, root, va)
  {
    info := Zeroed(va);
    var pgd := Entry(m, root, Index(va, 0));
    info := info.(pgd := pgd);
    var p4d := pgd;
    if p4d == NONE || !p4d.table {
      return;
    }
    info := info.(p4d := p4d);
    var pud := Entry(m, p4d.pfn, Index(va, 1));
    if pud == NONE || !(pud.valid && pud.table) {
      return;
    }
    info := info.(pud := pud);
    var pmd := Entry(m, pud.pfn, Index(va, 2));
    if pmd == NONE {
      return;
    }
    info := info.(pmd := pmd);
    if Section(pmd) {
      info := info.(block := true);
      info := info.(valid := true);
      info := info.(writable := pmd.write);
      info := info.(phys := pmd.pfn / 512 * 512 * PAGE_SIZE);
      return;
    }
    var pte := Entry(m, pmd.pfn, Index(va, 3));
    if pte == NONE {
      return;
    }
    info := info.(pte := pte);
    info := info.(valid := Present(pte));
    info := info.(writable := pte.write);
    info := info.(phys := pte.pfn * PAGE_SIZE);
  }

  // ---- The architecture ----

  datatype Mapping = Fault | Mapped(pa: nat, writable: bool, size: nat)

  function BlockSize(level: nat): (size: nat)
    ensures size > 0
  {
    if level == 1 then PUD_SIZE else if level == 2 then PMD_SIZE else PAGE_SIZE
  }

  /** The leaf denies stores. The kernel's PTE_WRITE is the architecture's DBM bit: with hardware
      management of the dirty state (`dirty`) a store through a read-only leaf that has it set
      clears the read-only bit and succeeds. */
  predicate KeepsStoresOut(dirty: bool, d: Desc) {
    d.rdonly && !(dirty && d.write)
  }

  /** The leaf's translation; low bits of a block's output address are not used. */
  function LeafMapping(dirty: bool, d: Desc, level: nat, va: nat, ro: bool): Mapping {
    var size := BlockSize(level);
    Mapped(d.pfn * PAGE_SIZE / size * size + va % size, !(ro || KeepsStoresOut(dirty, d)), size)
  }

  /** The translation table walk from `level` on; `ro` is the read-only restriction of the table
      descriptors above. */
  function Translate(dirty: bool, m: Memory, frame: nat, level: nat, va: nat, ro: bool): Mapping
    requires level <= 3
    decreases 3 - level
  {
    var d := Entry(m, frame, Index(va, level));
    if !d.valid then Fault
    else if level == 3 then (if d.table then LeafMapping(dirty, d, 3, va, ro) else Fault)
    else if d.table then Translate(dirty, m, d.pfn, level + 1, va, ro || d.roTable)
    else if level == 0 then Fault
    else LeafMapping(dirty, d, level, va, ro)
  }

  function Architecture(dirty: bool, m: Memory, root: nat, va: nat): Mapping {
    if KernelAddress(va) then Translate(dirty, m, root, 0, va, false) else Fault
  }

  // ---- Agreement ----

  /** The descriptors on the walked path have the form the kernel gives its own: table entries
      are valid, the last entry is a valid page descriptor, and the software write bit says what
      the hardware permission bits say. */
  predicate KernelForm(dirty: bool, w: WalkInfo) {
    && KernelAddress(w.virt) && w.pgd.valid
    && (if w.block then w.pmd.write == !(w.pgd.roTable || w.pud.roTable || KeepsStoresOut(dirty, w.pmd))
        else && w.pmd.valid && w.pte.valid && w.pte.table
             && w.pte.write == !(w.pgd.roTable || w.pud.roTable || w.pmd.roTable || KeepsStoresOut(dirty, w.pte)))
  }

  function MappingSize(w: WalkInfo): (size: nat)
    ensures size > 0
  {
    if w.block then PMD_SIZE else PAGE_SIZE
  }

  /** What the walker's answer claims about the translation of its address. */
  function Claimed(w: WalkInfo): Mapping {
    Mapped(w.phys + w.virt % MappingSize(w), w.writable, MappingSize(w))
  }

  lemma BlockAlignment(pfn: nat)
    ensures pfn * PAGE_SIZE / PMD_SIZE * PMD_SIZE == BlockFrame(pfn) * PAGE_SIZE
    ensures pfn * PAGE_SIZE / PAGE_SIZE * PAGE_SIZE == pfn * PAGE_SIZE
  {
    var q, r := pfn / 512, pfn % 512;
    assert pfn * PAGE_SIZE == q * PMD_SIZE + r * PAGE_SIZE;
    assert pfn * PAGE_SIZE / PMD_SIZE == q;
  }

  /** A valid answer is the architecture's translation exactly when the path is in kernel form. */
  lemma ValidWalkIsTranslation(dirty: bool, m: Memory, root: nat, va: nat)
    requires Walk(m, root, va).valid
    ensures Architecture(dirty, m, root, va) == Claimed(Walk(m, root, va)) <==> KernelForm(dirty, Walk(m, root, va))
  {
    var w := Walk(m, root, va);
    BlockAlignment(if w.block then w.pmd.pfn else w.pte.pfn);
    WalkSteps(dirty, m, root, va);
  }

  /** The architecture's walk of a kernel address, unrolled along the walker's descriptors. */
  lemma WalkSteps(dirty: bool, m: Memory, root: nat, va: nat)
    requires Walk(m, root, va).valid
    ensures var w := Walk(m, root, va);
            Translate(dirty, m, root, 0, va, false) ==
            if !w.pgd.valid || !w.pmd.valid then Fault
            else if w.block then LeafMapping(dirty, w.pmd, 2, va, w.pgd.roTable || w.pud.roTable)
            else if w.pte.valid && w.pte.table
            then LeafMapping(dirty, w.pte, 3, va, w.pgd.roTable || w.pud.roTable || w.pmd.roTable)
            else Fault
  {
    var w := Walk(m, root, va);
    if w.pgd.valid {
      var ro := w.pgd.roTable || w.pud.roTable;
      assert Translate(dirty, m, root, 0, va, false) == Translate(dirty, m, w.pgd.pfn, 1, va, w.pgd.roTable)
          == Translate(dirty, m, w.pud.pfn, 2, va, ro);
      if w.pmd.valid && w.pmd.table {
        assert Translate(dirty, m, w.pud.pfn, 2, va, ro) == Translate(dirty, m, w.pmd.pfn, 3, va, ro || w.pmd.roTable);
      }
    }
  }

  /** What the walk reports, also when it ends early: each entry up to the one that ends it, and for
      the last one its validity, which takes PROT_NONE pages as valid, its software write bit and
      its frame. */
  lemma RecordedEntries(m: Memory, root: nat, va: nat)
    ensures var w, t1 := Walk(m, root, va), TableAt(m, root, va, 1);
            var t2, t3 := TableAt(m, root, va, 2), TableAt(m, root, va, 3);
            && w.virt == va && w.pgd == Entry(m, root, Index(va, 0))
            && w.p4d == (if t1.Some? then w.pgd else NONE)
            && w.pud == (if t2.Some? then Entry(m, t1.value, Index(va, 1)) else NONE)
            && w.pmd == (if t2.Some? then Entry(m, t2.value, Index(va, 2)) else NONE)
            && w.pte == (if t3.Some? then Entry(m, t3.value, Index(va, 3)) else NONE)
            && (w.block <==> w.pmd.valid && !w.pmd.table)
            && (w.valid <==> w.block || w.pte.valid || w.pte.protNone)
            && (w.writable <==> if w.block then w.pmd.write else w.pte.write)
            && w.phys == if w.block then w.pmd.pfn / 512 * 0x20_0000 else w.pte.pfn * 4096
  {
    TableUnfold(m, root, va);
  }

  /** An address that the architecture translates is reported valid unless a 1 GB block maps it. */
  lemma TranslatedIsValid(dirty: bool, m: Memory, root: nat, va: nat)
    requires Architecture(dirty, m, root, va).Mapped?
    ensures Walk(m, root, va).valid <==> Architecture(dirty, m, root, va).size != 0x4000_0000
  {
    var pgd := Entry(m, root, Index(va, 0));
    assert Translate(dirty, m, root, 0, va, false) == Translate(dirty, m, pgd.pfn, 1, va, pgd.roTable);
    var pud := Entry(m, pgd.pfn, Index(va, 1));
    if pud.table {
      var ro := pgd.roTable || pud.roTable;
      assert Translate(dirty, m, pgd.pfn, 1, va, pgd.roTable) == Translate(dirty, m, pud.pfn, 2, va, ro);
      var pmd := Entry(m, pud.pfn, Index(va, 2));
      if pmd.table {
        assert Translate(dirty, m, pud.pfn, 2, va, ro) == Translate(dirty, m, pmd.pfn, 3, va, ro || pmd.roTable);
      }
    }
  }

  /** The test behind the protection flag. */
  predicate VerifiedReadOnly(w: WalkInfo) {
    w.valid && !w.writable
  }

  /** The descriptors of a valid walk let the hardware store. */
  predicate HardwareWritable(dirty: bool, w: WalkInfo) {
    && KernelAddress(w.virt) && w.pgd.valid && !w.pgd.roTable && !w.pud.roTable
    && (if w.block then !KeepsStoresOut(dirty, w.pmd)
        else w.pmd.valid && !w.pmd.roTable && w.pte.valid && w.pte.table && !KeepsStoresOut(dirty, w.pte))
  }

  /** Where the flag's test holds, a store faults exactly unless the descriptors say otherwise than
      the software write bit. On kernel-form paths they never do: there the test holds exactly when
      the address translates, not through a 1 GB block, and a store through it would fault. */
  lemma FlagMeansStoresFault(dirty: bool, m: Memory, root: nat, va: nat)
    ensures var w, a := Walk(m, root, va), Architecture(dirty, m, root, va);
            && (VerifiedReadOnly(w) ==> (a.Mapped? && a.writable <==> HardwareWritable(dirty, w)))
            && (KernelAddress(va) && (w.valid ==> KernelForm(dirty, w)) ==>
                  (VerifiedReadOnly(w) <==> a.Mapped? && !a.writable && a.size != PUD_SIZE))
  {
    if Walk(m, root, va).valid {
      ValidWalkIsTranslation(dirty, m, root, va);
      WalkSteps(dirty, m, root, va);
    }
    if Architecture(dirty, m, root, va).Mapped? {
      TranslatedIsValid(dirty, m, root, va);
    }
  }

  const LINEAR_MAP_BASE := 0xFFFF_0000_0000_0000

  /** The walk of a null pointer reports whatever maps the first address of the linear map. */
  lemma NullWalksLinearMapBase(dirty: bool, m: Memory, root: nat)
    ensures Walk(m, root, 0) == Walk(m, root, LINEAR_MAP_BASE).(virt := 0)
    ensures Walk(m, root, 0).valid ==> Architecture(dirty, m, root, 0) != Claimed(Walk(m, root, 0))
  {
    assert Index(0, 3) == Index(LINEAR_MAP_BASE, 3);
    assert Index(0, 2) == Index(LINEAR_MAP_BASE, 2);
    assert Index(0, 1) == Index(LINEAR_MAP_BASE, 1);
    assert Index(0, 0) == Index(LINEAR_MAP_BASE, 0);
  }

  // ---- Changing one page-level leaf ----

  /** The frame of the table that the walk of `va` consults at a level. */
  function TableAt(m: Memory, root: nat, va: nat, level: nat): Option<nat>
    requires level <= 3
  {
    if level == 0 then Some(root) else
    match TableAt(m, root, va, level - 1)
    case None => None
    case Some(frame) =>
      var d := Entry(m, frame, Index(va, level - 1));
      var last := match level { case 1 => NoP4d(d) case 2 => NoPud(d) case _ => d == NONE || Section(d) };
      if last then None else Some(d.pfn)
  }

  ghost predicate SameIndices(a: nat, b: nat, level: nat)
    requires level <= 4
  {
    forall i: nat | i < level :: Index(a, i) == Index(b, i)
  }

  /** The tables form a tree: a frame is the table of one level and one address prefix only. */
  ghost predicate Tree(m: Memory, root: nat) {
    forall a: nat, b: nat, i: nat, j: nat |
      i <= 3 && j <= 3 && TableAt(m, root, a, i).Some? && TableAt(m, root, a, i) == TableAt(m, root, b, j)
      :: i == j && SameIndices(a, b, i)
  }

  /** The walk of `va` ends in a page-level entry. */
  predicate PageLevel(m: Memory, root: nat, va: nat) {
    var t := TableAt(m, root, va, 3);
    t.Some? && Entry(m, t.value, Index(va, 3)) != NONE
  }

  /** `set_memory_rw` (`w`) or `set_memory_ro` (`!w`) on the one page at `va`. */
  function SetMemory(m: Memory, root: nat, va: nat, w: bool): Memory
    requires PageLevel(m, root, va)
  {
    var at := (TableAt(m, root, va, 3).value, Index(va, 3));
    m[at := Entry(m, at.0, at.1).(write := w, rdonly := !w)]
  }

  /** The walk follows `TableAt`. */
  lemma WalkTables(m: Memory, root: nat, va: nat)
    ensures var w := Walk(m, root, va);
            && w.pgd == Entry(m, root, Index(va, 0))
            && (TableAt(m, root, va, 1).Some? ==>
                  TableAt(m, root, va, 1) == Some(w.pgd.pfn) && w.p4d == w.pgd)
            && (TableAt(m, root, va, 2).Some? ==> TableAt(m, root, va, 2) == Some(w.pud.pfn))
            && (TableAt(m, root, va, 3).Some? ==> TableAt(m, root, va, 3) == Some(w.pmd.pfn))
            && (PageLevel(m, root, va) ==> w.pte == Entry(m, TableAt(m, root, va, 3).value, Index(va, 3)) && !w.block)
  {
    TableUnfold(m, root, va);
  }

  lemma TableUnfold(m: Memory, root: nat, va: nat)
    ensures var d0 := Entry(m, root, Index(va, 0));
            && TableAt(m, root, va, 1) == (if NoP4d(d0) then None else Some(d0.pfn))
            && (!NoP4d(d0) ==>
                  var d1 := Entry(m, d0.pfn, Index(va, 1));
                  && TableAt(m, root, va, 2) == (if NoPud(d1) then None else Some(d1.pfn))
                  && (!NoPud(d1) ==>
                        var d2 := Entry(m, d1.pfn, Index(va, 2));
                        TableAt(m, root, va, 3) == if d2 == NONE || Section(d2) then None else Some(d2.pfn)))
            && (TableAt(m, root, va, 3).Some? ==> TableAt(m, root, va, 2).Some?)
            && (TableAt(m, root, va, 2).Some? ==> TableAt(m, root, va, 1).Some?)
  {
    assert TableAt(m, root, va, 0) == Some(root);
  }

  /** Kernel addresses with equal indices at every level lie in the same page. */
  lemma IndicesDetermineThePage(a: nat, b: nat)
    requires KernelAddress(a) && KernelAddress(b) && SameIndices(a, b, 4)
    ensures a / PAGE_SIZE == b / PAGE_SIZE
  {
    assert Index(a, 0) == Index(b, 0) && Index(a, 1) == Index(b, 1);
    assert Index(a, 2) == Index(b, 2) && Index(a, 3) == Index(b, 3);
    Decomposition(a);
    Decomposition(b);
  }

  lemma Decomposition(va: nat)
    requires KernelAddress(va)
    ensures va / PAGE_SIZE ==
            512 * (512 * (512 * (512 * 0xFFFF + Index(va, 0)) + Index(va, 1)) + Index(va, 2)) + Index(va, 3)
  {
    var n3 := va / PAGE_SIZE;
    var n2 := n3 / 512;
    var n1 := n2 / 512;
    var n0 := n1 / 512;
    assert Number(va, 3) == n3 && Number(va, 2) == n2 && Number(va, 1) == n1 && Number(va, 0) == n0;
    assert 0xF_FFF0_0000_0000 <= n3 < 0x10_0000_0000_0000;
    assert 0x7FF_F800_0000 <= n2 < 0x800_0000_0000;
    assert 0x3_FFFC_0000 <= n1 < 0x4_0000_0000;
    assert 0x1FF_FE00 <= n0 < 0x200_0000;
    assert n0 / 512 == 0xFFFF;
  }

  /** The table entry that the walk of another page consults is not the changed one. */
  lemma OtherEntries(m: Memory, root: nat, a: nat, w: bool, b: nat, level: nat)
    requires Tree(m, root) && PageLevel(m, root, a) && level <= 3
    requires level == 3 ==> KernelAddress(a) && KernelAddress(b) && a / PAGE_SIZE != b / PAGE_SIZE
    requires TableAt(m, root, b, level).Some?
    ensures var frame := TableAt(m, root, b, level).value;
            Entry(SetMemory(m, root, a, w), frame, Index(b, level)) == Entry(m, frame, Index(b, level))
  {
    if level == 3 && TableAt(m, root, a, 3) == TableAt(m, root, b, 3) && Index(a, 3) == Index(b, 3) {
      assert SameIndices(a, b, 3);
      assert SameIndices(a, b, 4) by {
        forall i: nat | i < 4
          ensures Index(a, i) == Index(b, i)
        {
        }
      }
      IndicesDetermineThePage(a, b);
    }
  }

  lemma {:induction false} TablesUnchanged(m: Memory, root: nat, a: nat, w: bool, b: nat, level: nat)
    requires Tree(m, root) && PageLevel(m, root, a) && level <= 3
    ensures TableAt(SetMemory(m, root, a, w), root, b, level) == TableAt(m, root, b, level)
  {
    if level > 0 {
      TablesUnchanged(m, root, a, w, b, level - 1);
      if TableAt(m, root, b, level - 1).Some? {
        OtherEntries(m, root, a, w, b, level - 1);
      }
    }
  }

  /** The walk depends only on the tables and entries it consults. */
  lemma SameEntriesSameWalk(m: Memory, n: Memory, root: nat, va: nat)
    requires forall level: nat | level <= 3 ::
               && TableAt(n, root, va, level) == TableAt(m, root, va, level)
               && (TableAt(m, root, va, level).Some? ==>
                     var frame := TableAt(m, root, va, level).value;
                     Entry(n, frame, Index(va, level)) == Entry(m, frame, Index(va, level)))
    ensures Walk(n, root, va) == Walk(m, root, va)
  {
    TableUnfold(m, root, va);
    assert TableAt(m, root, va, 0) == Some(root);
    assert TableAt(n, root, va, 1) == TableAt(m, root, va, 1);
    assert TableAt(n, root, va, 2) == TableAt(m, root, va, 2);
    assert TableAt(n, root, va, 3) == TableAt(m, root, va, 3);
  }

  /** Changing the permission of one page leaves the walk of every other page as it was, also
      when that page is another alias of the same frame. */
  lemma OtherPagesUnchanged(m: Memory, root: nat, a: nat, w: bool, b: nat)
    requires Tree(m, root) && PageLevel(m, root, a)
    requires KernelAddress(a) && KernelAddress(b) && a / PAGE_SIZE != b / PAGE_SIZE
    ensures Walk(SetMemory(m, root, a, w), root, b) == Walk(m, root, b)
  {
    var n := SetMemory(m, root, a, w);
    forall level: nat | level <= 3
      ensures TableAt(n, root, b, level) == TableAt(m, root, b, level)
      ensures TableAt(m, root, b, level).Some? ==>
                var frame := TableAt(m, root, b, level).value;
                Entry(n, frame, Index(b, level)) == Entry(m, frame, Index(b, level))
    {
      TablesUnchanged(m, root, a, w, b, level);
      if TableAt(m, root, b, level).Some? {
        OtherEntries(m, root, a, w, b, level);
      }
    }
    SameEntriesSameWalk(m, n, root, b);
  }

  /** On the page itself it changes the write permission and nothing else, and the tables stay a
      tree; so a page made read-only walks as valid and read-only, if it was valid. */
  lemma ChangedPage(m: Memory, root: nat, a: nat, w: bool)
    requires Tree(m, root) && PageLevel(m, root, a)
    ensures var before, after := Walk(m, root, a), Walk(SetMemory(m, root, a, w), root, a);
            after == before.(writable := w, pte := before.pte.(write := w, rdonly := !w))
    ensures PageLevel(SetMemory(m, root, a, w), root, a) && Tree(SetMemory(m, root, a, w), root)
  {
    hide Tree;
    TablesUnchanged(m, root, a, w, a, 3);
    ChangedTree(m, root, a, w);
    TableUnfold(m, root, a);
    UpperEntries(m, root, a, w);
  }

  lemma UpperEntries(m: Memory, root: nat, a: nat, w: bool)
    requires Tree(m, root) && PageLevel(m, root, a)
    ensures TableAt(m, root, a, 1).Some? && TableAt(m, root, a, 2).Some?
    ensures var n := SetMemory(m, root, a, w);
            && Entry(n, root, Index(a, 0)) == Entry(m, root, Index(a, 0))
            && (var f := TableAt(m, root, a, 1).value; Entry(n, f, Index(a, 1)) == Entry(m, f, Index(a, 1)))
            && (var f := TableAt(m, root, a, 2).value; Entry(n, f, Index(a, 2)) == Entry(m, f, Index(a, 2)))
  {
    hide Tree, SetMemory;
    TableUnfold(m, root, a);
    OtherEntries(m, root, a, w, a, 0);
    OtherEntries(m, root, a, w, a, 1);
    OtherEntries(m, root, a, w, a, 2);
  }

  lemma ChangedTree(m: Memory, root: nat, a: nat, w: bool)
    requires Tree(m, root) && PageLevel(m, root, a)
    ensures Tree(SetMemory(m, root, a, w), root)
  {
    hide SetMemory, TableAt, SameIndices;
    var n := SetMemory(m, root, a, w);
    forall b: nat, level: nat | level <= 3
      ensures TableAt(n, root, b, level) == TableAt(m, root, b, level)
    {
      TablesUnchanged(m, root, a, w, b, level);
    }
  }

  /** `set_memory_ro` followed by `set_memory_rw` restores the walk of every address. */
  lemma RoundTrip(m: Memory, root: nat, a: nat, b: nat)
    requires Tree(m, root) && PageLevel(m, root, a)
    requires Walk(m, root, a).pte.write && !Walk(m, root, a).pte.rdonly
    ensures var ro := SetMemory(m, root, a, false);
            PageLevel(ro, root, a) && Walk(SetMemory(ro, root, a, true), root, b) == Walk(m, root, b)
  {
    ChangedPage(m, root, a, false);
    var ro := SetMemory(m, root, a, false);
    TablesUnchanged(m, root, a, false, a, 3);
    WalkTables(m, root, a);
    var at := (TableAt(m, root, a, 3).value, Index(a, 3));
    var rw := SetMemory(ro, root, a, true);
    assert rw[at] == Entry(m, at.0, at.1);
    forall frame, index
      ensures Entry(rw, frame, index) == Entry(m, frame, index)
    {
    }
  }
}
