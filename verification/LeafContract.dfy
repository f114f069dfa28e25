/**
 The page tables under the protocol: the two write bits of `SafetyProtocol` are what the walker
 and the hardware see in the tables, and `set_memory_*` on one alias is exactly the flip of one
 bit that the protocol assumes.
 */
module LeafContract {
  import SafetyProtocol
  import opened PageTable

  /** Where the table tree starts, the two virtual addresses of the safety page, and whether the
      hardware manages the dirty state. */
  datatype Layout = Layout(root: nat, direct: nat, vmalloc: nat, dirty: bool)

  /** A mapping of kernel form, by a page or a 2 MB block, that no table descriptor above makes
      read-only. */
  predicate Plain(dirty: bool, m: Memory, root: nat, va: nat) {
    var w := Walk(m, root, va);
    w.valid && KernelForm(dirty, w) && !w.pgd.roTable && !w.pud.roTable && (w.block || !w.pmd.roTable)
  }

  /** The safety page as `safety_mem_init` leaves it: one frame at two addresses of the table tree.
      The vmap alias is a page of its own; the direct one may lie in a block of the linear map,
      on which `set_memory_*` fails. */
  ghost predicate TwoAliases(m: Memory, x: Layout) {
    && Tree(m, x.root) && Plain(x.dirty, m, x.root, x.direct)
    && Plain(x.dirty, m, x.root, x.vmalloc) && PageLevel(m, x.root, x.vmalloc)
    && x.direct / PAGE_SIZE != x.vmalloc / PAGE_SIZE
    && Frame(m, x.root, x.direct) == Frame(m, x.root, x.vmalloc)
  }

  /** The frame of the page that the walk claims to reach. */
  function Frame(m: Memory, root: nat, va: nat): nat {
    Claimed(Walk(m, root, va)).pa / PAGE_SIZE
  }

  predicate DirectWritable(m: Memory, x: Layout) {
    Walk(m, x.root, x.direct).writable
  }

  function VmallocAlias(m: Memory, x: Layout): SafetyProtocol.Alias {
    SafetyProtocol.Leaf(Walk(m, x.root, x.vmalloc).writable)
  }

  /** Changing one alias changes its bit, not the other's, although both map one frame. */
  lemma SetMemoryFlipsOneLeaf(m: Memory, x: Layout, w: bool)
    requires TwoAliases(m, x)
    ensures var n := SetMemory(m, x.root, x.vmalloc, w);
            && TwoAliases(n, x) && VmallocAlias(n, x) == SafetyProtocol.Leaf(w)
            && DirectWritable(n, x) == DirectWritable(m, x)
    ensures PageLevel(m, x.root, x.direct) ==>
              var n := SetMemory(m, x.root, x.direct, w);
              TwoAliases(n, x) && VmallocAlias(n, x) == VmallocAlias(m, x) && DirectWritable(n, x) == w
  {
    OneLeaf(x.dirty, m, x.root, x.vmalloc, x.direct, w);
    if PageLevel(m, x.root, x.direct) {
      OneLeaf(x.dirty, m, x.root, x.direct, x.vmalloc, w);
      PageKept(m, x.root, x.direct, x.vmalloc, w);
    }
  }

  lemma OneLeaf(dirty: bool, m: Memory, root: nat, a: nat, b: nat, w: bool)
    requires Tree(m, root) && Plain(dirty, m, root, a) && PageLevel(m, root, a) && Plain(dirty, m, root, b)
             && a / PAGE_SIZE != b / PAGE_SIZE
    ensures var n := SetMemory(m, root, a, w);
            && Tree(n, root) && Plain(dirty, n, root, a) && PageLevel(n, root, a) && Plain(dirty, n, root, b)
            && Walk(n, root, a).writable == w && Frame(n, root, a) == Frame(m, root, a)
            && Walk(n, root, b) == Walk(m, root, b)
  {
    hide Walk, Tree;
    WalkTables(m, root, a);
    ChangedPage(m, root, a, w);
    OtherPagesUnchanged(m, root, a, w, b);
  }

  lemma PageKept(m: Memory, root: nat, a: nat, b: nat, w: bool)
    requires Tree(m, root) && PageLevel(m, root, a) && PageLevel(m, root, b)
    requires KernelAddress(a) && KernelAddress(b) && a / PAGE_SIZE != b / PAGE_SIZE
    ensures PageLevel(SetMemory(m, root, a, w), root, b)
  {
    TablesUnchanged(m, root, a, w, b, 3);
    OtherEntries(m, root, a, w, b, 3);
  }

  /** The bits are the hardware's: a store through an alias faults exactly when its bit is clear,
      and the test behind the protection flag holds exactly then. */
  lemma LeafIsHardwarePermission(m: Memory, x: Layout)
    requires TwoAliases(m, x)
    ensures Architecture(x.dirty, m, x.root, x.direct).Mapped? && Architecture(x.dirty, m, x.root, x.vmalloc).Mapped?
    ensures Architecture(x.dirty, m, x.root, x.direct).writable == DirectWritable(m, x)
    ensures Architecture(x.dirty, m, x.root, x.vmalloc).writable == VmallocAlias(m, x).writable
    ensures VerifiedReadOnly(Walk(m, x.root, x.vmalloc)) == VmallocAlias(m, x).WalkedReadOnly()
    ensures Architecture(x.dirty, m, x.root, x.direct).pa / PAGE_SIZE ==
            Architecture(x.dirty, m, x.root, x.vmalloc).pa / PAGE_SIZE
  {
    hide Walk, Tree, KernelForm;
    ValidWalkIsTranslation(x.dirty, m, x.root, x.direct);
    ValidWalkIsTranslation(x.dirty, m, x.root, x.vmalloc);
  }
}
