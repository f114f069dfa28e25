# Safety isolation demo: verified model

A Dafny model of the ARM64 safety-memory demo and proofs about it. The demo has one physical word
behind two virtual aliases, a mutex that cooperative kernel threads respect and rogue code does
not, a protection switch that makes the aliases read-only, text interfaces that carry the state to
a terminal monitor, and a harness that loads and unloads the kernel modules.

`dafny verify dfyconfig.toml` checks the whole project.

| file | models |
|---|---|
| Protocol.dfy | safety word, mutex and all who touch them as a transition system; traces and runs |
| Exclusion.dfy | mutual exclusion with and without the rogue thread's owner-clears; the rogue counters |
| HoldWindows.dfy | what Thread A's violation counter counts |
| Protection.dfy | protection flag, leaf permissions, unloading and authorised writes |
| FlagTruth.dfy | exactly which owner-clears leave the protection flag truthful |
| ProtectionLimits.dfy | a run in which a failed `vmap` strands the page |
| Attacks.dfy | what read-only leaves keep out |
| StatusReads.dfy | the two values of a status report |
| SafetyMem.dfy | the two authorised operations as code, each a run of the transition system |
| PageTable.dfy | the page-table walker against the VMSAv8-64 translation (chapter D8 of the Arm Architecture Reference Manual, DDI 0487) |
| LeafContract.dfy | the two write bits of the protocol as page-table leaves |
| Text.dfy, StatusReport.dfy, StateFile.dfy, StatusRoundTrip.dfy | the status text, its way through the state file to the monitor, and the round trip |
| ScenarioF.dfy | Scenario F's searches in the status text |
| TraceStream.dfy, TraceDisplay.dfy | the monitor's trace splitter and event list; which trace lines stay displayable |
| FaultRing.dfy | the CPU and DMA fault logs |
| ModuleLoader.dfy | the module loader, its registry and signal clean-up |
| Utf8.dfy, Frame.dfy | padding of UTF-8 text (the grammar of section 4 of RFC 3629, matched with the encoding of section 3), what the frame shows and its geometry |

## Assumptions about the environment

- Memory is sequentially consistent; every lock, unlock, read, store, `set_memory_*` call and
  counter increment is one atomic event; counters do not wrap.
- A mutex is acquired only when its owner word is 0, and unlocking writes 0 whoever holds it.
- `set_memory_ro` and `set_memory_rw` flip one leaf's write bit and return 0, or change nothing and
  return an error. `LeafContract.SetMemoryFlipsOneLeaf` proves this of the page-level change itself.
- A nofault copy succeeds exactly when its leaf is writable; a plain store through a read-only leaf
  kills the storing task where it stands and leaves the word alone.
- The walk of the final page-table check and the store to the flag are one event: nothing that
  changes a leaf can run between them unless authorised operations overlap.
- Descriptor predicates are taken as Linux 6.6 has them for 4 KB pages and four table levels:
  `p4d_bad` tests the table bit only, `pud_bad` and `pmd_sect` the whole type field, `pte_present`
  the valid or PROT_NONE bit, `pte_write` and `pmd_write` the software write bit, and `pmd_pfn`
  masks the bits below the block size. The kernel's headers are not part of this model.
- The fault monitor's range updates and appends are atomic to each other, being locked. Its range
  test takes no lock: the four loads of one call, both bounds for the tests and again for the
  comparisons, may each see another range, or one of which only the start has been stored.
- With hardware management of the dirty state on, a store through a read-only leaf with PTE_WRITE
  (the architecture's DBM bit) set succeeds; the page-table results hold with it on or off.
- `insmod` succeeds only if the dependencies are loaded and the module is not; `rmmod` succeeds
  exactly when the module is loaded and no loaded module depends on it.

## What does not hold, and exactly when it does

- The flag agrees with the leaves in every run in which authorised operations do not overlap
  (`FlagMatchesLeaves`). Owner-clears keep it so exactly when each of them lands while no live task
  is inside (`ClearIsHarmlessIff` for one clear, `FlagTruthfulIff` for any number), and exactly then
  unloading always frees a writable page. A clear that hits a live task in any phase, Thread A in
  its hold window or a task about to unlock included, can be continued, without a further clear, to
  a resting state with the flag clear and the vmap leaf read-only (`LiveTaskBreaksFlag`,
  `OwnerClearBreaksFlag`) and, with a changeable direct leaf, to the death of an authorised write
  (`LiveClearKillsWrite`).
- If `vmap` failed, a requested protection can leave the flag clear and the direct alias read-only.
  That happens exactly when the direct leaf is changeable and the null pointer does not walk to a
  read-only mapping (`FlagMatchesLeaves`). Exactly then unloading frees a read-only page
  (`UnloadRestoresLeaves`) and an authorised write is killed holding the mutex
  (`WriteDiesIffStranded`); `MissingAliasStrandsPage` gives a run. The walk of the null pointer
  reports the mapping of the first linear-map address (`NullWalksLinearMapBase`).
- If `set_memory_*` can fail on the vmap alias, one call of `safety_mem_set_protection` breaks the
  agreement exactly when it fails there with the flag set, and one of `safety_mem_safe_write`
  exactly when it makes that leaf writable and fails to protect it again
  (`SafetyMem.SetProtection`, `SafetyMem.SafeWrite`).
- With a changeable direct alias, protection kills Thread B at its next store, holding the mutex
  (`ThreadBDiesIffProtected`, `DeadHolderBlocksEveryone`).
- A valid walk is the architecture's translation exactly on kernel-form paths
  (`ValidWalkIsTranslation`): the walker does not test the valid bit of the level 0 entry and of a
  level 2 table entry, nor the type of the last entry, and it reports the software write bit.
- The two values of a status report may differ without any store if `vmap` failed
  (`ReportWithoutAlias`).
- All reports of an owner reach the monitor unchanged exactly when no line after the first of the
  owner's name has a key that the monitor recognises (`OnlyHarmlessOwnersReachMonitor`); names
  without a newline have none. `NewlineInOwnerForgesValue` shows a name that forges a value.
- A destructor leaves modules behind exactly when a loaded module that is not on its list uses one
  that is (`Process.Destroy`). Signal clean-up empties every list, and restores the kernel's module
  set exactly when no destructor left anything behind and no module of a loader popped later uses
  one of a loader popped earlier (`Process.CleanupOnSignal`). `ModuleLeftBehind` shows both ways.
- A fault inside the protected range, which the monitor would log with the range set and with no
  range, is lost exactly when both bounds are set at their tests and the end is gone by its
  comparison (`InsideFaultLostIff`); a fault below the range is logged, although the tests found the
  range set, exactly when the comparisons fall between the two stores of switching it off
  (`OutsideFaultLoggedIff`). `SwitchMisjudgesFaults` shows both.
- The frame's header fits exactly from 56 columns on (`HeaderWidth`). The 60-byte limit on trace
  messages keeps the event's row displayable in the sense of `FrameGeometry` exactly when byte 60
  does not continue a character (`TraceRowDisplayableIff`, `LimitCanCutCharacter`).
- docs/presentation_scenarios.md:91-92 shows the two alias values diverging. The code maps both
  aliases to one frame, and the model follows the code.
- kernel/ctx_monitor/ctx_monitor.c:122 takes the program counter as the fault address, both for the
  range filter and for the log; the model follows the code.

## Model
| member | source | states |
|---|---|---|
| Exclusion.InsideBoundedByClears | kernel/mutex_threads/rogue_thread.c:86-95 | In every run a non-zero owner word names a task inside, and the tasks inside number at most one for a set owner word plus one for every owner-clear so far |
| Exclusion.BoundIsReached | kernel/mutex_threads/rogue_thread.c:86-95 | That bound is tight: for every n a run with n clears has n + 1 tasks inside |
| Exclusion.ExclusionRestored | kernel/mutex_threads/mutex_threads.c:96-126 | After any number of clears, once the critical section is empty and no later clear hits a task inside, exactly the owner is inside in every later state |
| Exclusion.ExclusiveFrom | kernel/safety_mem/safety_mem.c:188-233 | Exclusion survives every stretch of a run in which no owner-clear hits a task inside, for all four lock users |
| Exclusion.LiveExclusiveThroughout | kernel/mutex_threads/rogue_thread.c:86-95 | As long as owner-clears hit no live task, every live task inside is the owner |
| Exclusion.RogueCountersLag | kernel/mutex_threads/rogue_thread.c:81-92 | Both rogue counters equal the performed stores and clears, less one exactly between the attack and the increment |
| Exclusion.DeadHolderBlocksEveryone | kernel/mutex_threads/mutex_threads.c:145-153 | After a task dies holding the mutex, until an owner-clear hits it no task ever locks, acts or unlocks again |
| HoldWindows.ComparisonHasWindow | kernel/mutex_threads/mutex_threads.c:103-123 | Every comparison of Thread A closes a window of two reads with the mutex held in between |
| HoldWindows.WindowsDisjoint | kernel/mutex_threads/mutex_threads.c:96-126 | If no owner-clear hits a live task, the windows of two comparisons do not overlap, so each violation has its own |
| HoldWindows.ViolationHasOutsideStore | kernel/mutex_threads/mutex_threads.c:117-123 | Then every counted violation has a successful store by non-participating code between its two reads |
| HoldWindows.ViolationsBoundedByOutsideStores | kernel/mutex_threads/mutex_threads.c:96-126 | In every such run the violation counter never exceeds the successful outside stores |
| HoldWindows.MismatchIffRogueStore | kernel/mutex_threads/rogue_thread.c:76-82 | With the rogue thread alone and a fixed value, a window counts a violation exactly when a rogue store landed in it and the first read saw another value |
| HoldWindows.ViolationsBoundedByRestores | kernel/mutex_threads/mutex_threads.c:147-149 | Then violations are at most one plus the participants' stores of other values |
| HoldWindows.ChangeHasStore | kernel/safety_mem/safety_mem.c:419-425 | The word differs between two points of a run only if a store landed in between |
| Attacks.ReadOnlyKeepsWord | kernel/bad_driver/bad_driver.c:41-125 | With both aliases read-only no run changes the word before the next set_memory call, whatever attackers, Thread B and readers do |
| Attacks.Mode1IsInert | kernel/bad_driver/bad_driver.c:41-68 | In every stretch with the vmap leaf read-only, deleting all mode 1 attacks gives a run through the same states |
| Attacks.WordIsLastLanded | kernel/bad_driver/bad_driver.c:41-125 | In every run the word is the last value that anybody tried to store through a leaf writable at that moment: mode 1 its value through the vmap leaf, or the direct one without alias, modes 2 and 3, the rogue thread and the participants theirs through the direct leaf |
| Attacks.EveryClearHasSeenOwner | kernel/mutex_threads/rogue_thread.c:85-92 | Before every owner-clear the rogue thread found the owner word set and has done nothing since |
| Attacks.RogueDiesIff | kernel/mutex_threads/rogue_thread.c:76-82 | The rogue thread is dead if and only if one of its stores met a read-only direct leaf |
| Protection.TameIsOrderly | kernel/safety_mem/safety_mem.c:188-277 | As long as owner-clears hit no live task, at most one task is ever inside an authorised operation |
| Protection.FlagMatchesLeaves | kernel/safety_mem/safety_mem.c:180-242 | In every idle state of every run without overlapping authorised operations, flag and leaves are those of the last request: with the alias the flag is set exactly when the vmap leaf is read-only and a clear flag means both writable; without it, exactly when a clear flag still means a writable direct leaf |
| Protection.UnloadRestoresLeaves | kernel/safety_mem/safety_mem.c:455-474 | Unloading from any such state frees the page with its aliases writable, exactly unless vmap failed and a request made the direct leaf read-only behind the flag |
| Protection.WriteDiesIffStranded | kernel/safety_mem/safety_mem.c:249-280 | At every point of an authorised write: it is dead only if it began on such a page, done only if not; with the vmap alias it never faults, whoever stores or clears the owner meanwhile |
| Protection.WriteRestores | kernel/safety_mem/safety_mem.c:257-275 | When it is done, leaves and flag are as before, and the word is the written value unless somebody else stored |
| Protection.SafeWriteRestores | kernel/safety_mem/safety_mem.c:249-280 | If no owner-clear hits a task inside and nobody stores from outside, a whole authorised write from lock to unlock makes every alias read the value and changes nothing else |
| Protection.ThreadBDiesIffProtected | kernel/mutex_threads/mutex_threads.c:145-153 | Thread B's store dies holding the mutex exactly when protection is requested and the direct leaf changeable, and otherwise restores the sentinel |
| FlagTruth.ClearIsHarmlessIff | kernel/mutex_threads/rogue_thread.c:86-95 | An owner-clear, if no earlier one did harm, lands while no live task is inside if and only if in every idle state of every continuation without further clears the flag is set exactly when the vmap leaf is read-only; and if and only if unloading from all of them frees a writable page |
| FlagTruth.FlagTruthfulIff | kernel/mutex_threads/rogue_thread.c:86-95 | For whole runs with any number of clears: all land while no live task is inside if and only if the flag is truthful, and if and only if unloading frees a writable page, in every idle state that any point of the run can be led to without a further clear |
| FlagTruth.LiveTaskBreaksFlag | kernel/safety_mem/safety_mem.c:188-233 | From every reachable state with the mutex free and a live task inside, in any phase, a continuation without clears comes to rest with the flag clear and the vmap leaf read-only |
| FlagTruth.LiveClearKillsWrite | kernel/safety_mem/safety_mem.c:255-268 | After such a clear a continuation kills an authorised write, if the direct leaf is changeable |
| FlagTruth.OwnerClearBreaksFlag | kernel/mutex_threads/rogue_thread.c:88-91 | A run with one owner-clear, on Thread A inside its critical section, that comes to rest with nobody inside, the flag clear and the vmap leaf read-only |
| ProtectionLimits.MissingAliasStrandsPage | kernel/safety_mem/safety_mem.c:190-216 | A run without owner-clears after a failed vmap that leaves the page read-only with the flag clear, would free it so, and kills the next authorised write |
| StatusReads.DifferingReportHasStore | kernel/safety_mem/safety_mem.c:298-306 | If the vmap alias exists and the two values of a report differ, a store landed between its two reads |
| StatusReads.ReportWithoutAlias | kernel/safety_mem/safety_mem.c:290-306 | Without the alias the two values differ exactly when the word is not 0 |
| SafetyMem.SafetyMem.SetProtection | kernel/safety_mem/safety_mem.c:180-241 | The code is a run of five events of the transition system; it returns 0 exactly when every attempted call succeeded, sets the flag exactly when the vmap alias was changed and verified, and makes flag and vmap leaf disagree exactly when that call fails with the flag set |
| SafetyMem.SafetyMem.SafeWrite | kernel/safety_mem/safety_mem.c:249-279 | The code is a run of the transition system event by event; it dies exactly when the direct leaf is read-only and stays so, and otherwise stores the value, keeps the flag and leaves the leaves as the results of its calls say; flag and vmap leaf come to disagree exactly when the leaf was made writable and re-protecting it fails |
| SafetyMem.SafetyMem.Exit | kernel/safety_mem/safety_mem.c:461-465 | The leaves when the page is freed, for all results of the two calls |
| PageTable.WalkPgtable | kernel/safety_mem/safety_mem.c:127-173 | The record filled with early returns is the specified walk of the tables |
| PageTable.RecordedEntries | kernel/safety_mem/safety_mem.c:127-173 | What the record holds also when the walk ends early: the entries up to the one that ends it, validity with PROT_NONE pages included, the software write bit and the masked frame |
| PageTable.ValidWalkIsTranslation | kernel/safety_mem/safety_mem.c:127-173 | With hardware management of the dirty state on or off, a valid answer is the architecture's translation (address, size, write permission) if and only if the walked descriptors are of kernel form |
| PageTable.TranslatedIsValid | kernel/safety_mem/safety_mem.c:144-161 | A translated address is reported valid if and only if no 1 GB block maps it |
| PageTable.FlagMeansStoresFault | kernel/safety_mem/safety_mem.c:208-213 | Where the flag's test holds a store faults exactly unless the descriptors' hardware bits allow it; on kernel-form paths the test holds exactly when the address translates, not through a 1 GB block, and a store would fault |
| PageTable.NullWalksLinearMapBase | kernel/safety_mem/safety_mem.c:209-213 | The walk of a null pointer reports the mapping of the first linear-map address, never a translation of its own |
| PageTable.IndicesDetermineThePage | kernel/safety_mem/safety_mem.c:134-165 | Kernel addresses with equal indices at all four levels lie in one page |
| PageTable.OtherPagesUnchanged | kernel/safety_mem/safety_mem.c:197-201 | Changing the write permission of one page leaves the walk of every other page unchanged, aliases of the same frame included |
| PageTable.ChangedPage | kernel/safety_mem/safety_mem.c:197-209 | On the page itself only the write permission changes, and the tables stay a tree |
| PageTable.RoundTrip | kernel/safety_mem/safety_mem.c:258-275 | Making a writable page read-only and writable again restores the walk of every address |
| LeafContract.SetMemoryFlipsOneLeaf | kernel/safety_mem/safety_mem.c:197-204 | On the two aliases of the safety page each call flips its own leaf and not the other's, also when a block maps the direct alias and only the vmap leaf can be changed |
| LeafContract.LeafIsHardwarePermission | kernel/safety_mem/safety_mem.c:208-213 | The protocol's write bits are the hardware's permissions, the flag's test reads them rightly, and both aliases translate to one physical page |
| Text.HexRoundTrip | userspace/monitor/main.cpp:55-69 | Parsing the printed hexadecimal form of any number in range gives the number |
| Text.ParsesLeadingNumber | userspace/monitor/main.cpp:55-69 | Of any text the leading number is read, with either prefix or none and in either case, whatever follows it; a number that is too large gives 0 |
| Text.TrimIsExact | userspace/monitor/main.cpp:48-53 | Trimming takes spaces, tabs, carriage returns and newlines off both ends, all of them and nothing else |
| Text.LinesRoundTrip | userspace/monitor/main.cpp:116-123 | Reading back newline-free lines that were written one by one gives the lines |
| Text.GetLinesIsExact | userspace/monitor/main.cpp:116-123 | The lines read from any text make up that text, whose last newline may be missing |
| StatusReport.PrintedReport | kernel/safety_mem/safety_mem.c:322-342 | The 18 printed lines: keys in order, addresses as 16 lower-case and entries and values as 16 or 8 upper-case digits of their value, levels, flags, owner and status by their texts |
| StateFile.WriteSnapshot | userspace/harness/scenario_runner.hpp:67-77 | The loop appends exactly the republished lines of the status text |
| StateFile.PublishState | userspace/harness/scenario_runner.hpp:79-89 | The file is the three header lines and the two republished snapshots |
| StateFile.DisplayState.SyncScenarioState | userspace/monitor/main.cpp:106-140 | The loop updates the display as the specified fold over the file's lines, with the reset in the setup phase |
| StatusRoundTrip.OnRepublished | userspace/harness/scenario_runner.hpp:67-77 | For any status lines, republishing and parsing updates the one snapshot line by line, with the key up to the first equals sign |
| StatusRoundTrip.FieldsGiveSnapshot | userspace/monitor/main.cpp:83-104 | The fields printed before the owner give the status's values and flags and the vmap mapping, whatever the snapshot held before |
| StatusRoundTrip.ShownReport | kernel/safety_mem/safety_mem.c:322-342 | What the monitor shows of any report is its snapshot as changed by the further lines of the owner's name, with the status PROTECTED_RO if the flag is set and UNPROTECTED_RW otherwise |
| StatusRoundTrip.StatusReachesMonitor | userspace/monitor/main.cpp:48-140 | For all statuses with harmless owner names, printing, republishing and syncing gives exactly their values, flags, vmap mapping with its level's text and status text; a missing status leaves its snapshot alone, the setup phase resets both |
| StatusRoundTrip.OnlyHarmlessOwnersReachMonitor | userspace/monitor/main.cpp:83-140 | All reports of an owner reach the monitor unchanged if and only if no later line of the name has a key that the monitor recognises, status excepted |
| StatusRoundTrip.RecognisedKeys | userspace/monitor/main.cpp:83-104 | The keys that the monitor recognises, status excepted, are exactly these twelve |
| StatusRoundTrip.PlainNameIsHarmless | userspace/harness/scenario_runner.hpp:67-77 | Names without a newline are harmless |
| StatusRoundTrip.NewlineInOwnerForgesValue | userspace/monitor/main.cpp:86-87 | A name of 12 characters that is not harmless: the monitor shows 0 for the direct value of every report |
| ScenarioF.SearchReport | kernel/safety_mem/safety_mem.c:322-342 | No owner name of at most 15 characters can satisfy a search that starts like one of the needles |
| ScenarioF.VerdictsAreExact | userspace/harness/scenarios/scenario_f.cpp:23-61 | For every status and every owner name of at most 15 characters the searches hold exactly when the flag is 1 and the vmap walk not writable, and exactly when both values are the sentinel |
| TraceStream.SplitIsExact | userspace/monitor/main.cpp:278-283 | Complete lines and pending rest make up the input, and the rest has no newline |
| TraceStream.SplitAppend | userspace/monitor/main.cpp:278-292 | Splitting in two goes with the rest carried over equals splitting at once |
| TraceStream.CompactedFrom | userspace/monitor/main.cpp:173-188 | The shown message starts at the first occurrence of the first of the three prefixes that occurs at all, in their order, or is the whole line |
| TraceStream.EventOfLine | userspace/monitor/main.cpp:279-291 | A blank line gives no event; any other gives one of the trimmed line's compacted text, its first 60 bytes, a warning if and only if WARN occurs and an error if and only if FAIL or VIOLATION does |
| TraceStream.EventStreamer.OnRead | userspace/monitor/main.cpp:277-292 | One read appends the events of the completed lines, as EventOfLine describes them, and keeps the rest |
| TraceStream.EventStreamer.AppendEvent | userspace/monitor/main.cpp:142-160 | The kept list is the last 100 of all events ever appended |
| TraceStream.Stream | userspace/monitor/main.cpp:271-292 | However the stream is cut into reads, the shown events are the last 100 of the whole stream's and the buffer is what follows its last newline |
| FaultRing.Ring.Log | kernel/ctx_monitor/ctx_monitor.c:81-98 | The ring holds the last 128 of everything logged |
| FaultRing.Ring.Snapshot | kernel/ctx_monitor/ctx_monitor.c:152-162 | The copy is the last 128 logged entries, oldest first |
| CtxMonitor.Monitor.DieNotifier | kernel/ctx_monitor/ctx_monitor.c:111-132 | A call adds one entry exactly when it has registers and the four values it loaded do not filter the program counter |
| CtxMonitor.RenderedLog | kernel/ctx_monitor/ctx_monitor.c:58-162 | For every interleaving of range updates and notifier calls, with the calls' loads at any earlier moments, between the two stores of an update included, the log is the last 128 accepted events in the order of their appends |
| CtxMonitor.AcceptedInOrder | kernel/ctx_monitor/ctx_monitor.c:81-131 | The accepted events are the entries of calls at strictly increasing positions of the history, and every other call had no registers or was dropped by its filter |
| CtxMonitor.QuietCallIsAtomic | kernel/ctx_monitor/ctx_monitor.c:124-127 | A call during which the range is not updated is judged by the range in force |
| CtxMonitor.InsideFaultLostIff | kernel/ctx_monitor/ctx_monitor.c:124-127 | A fault inside the range that the protection switch sets and clears is dropped exactly when both bounds are set at their tests and the end is gone by its comparison |
| CtxMonitor.OutsideFaultLoggedIff | kernel/ctx_monitor/ctx_monitor.c:124-127 | A fault outside it is logged exactly when a bound is gone at its test or, below the range, the comparisons find the start gone and the end still set |
| CtxMonitor.SwitchMisjudgesFaults | kernel/ctx_monitor/ctx_monitor.c:58-127 | Histories with one switch-off during a call that lose a fault inside the range, and log one below it |
| SmmuGuard.RenderedLog | kernel/smmu_guard/smmu_guard.c:60-120 | The DMA log is the last 128 blocked transactions in arrival order, each with its own figures, the default name for a device without one and at most 31 characters of the name |
| ModuleLoader.Loader.Load | userspace/harness/module_loader.cpp:52-88 | The file that is taken (the path, else the guest's directory, else the local one), the answer for a missing file, a listed module and a failing insmod, and the effect; agreement of list and kernel is kept |
| ModuleLoader.Loader.Unload | userspace/harness/module_loader.cpp:90-108 | Removes the last entry of the name exactly when rmmod succeeds; agreement is kept |
| ModuleLoader.Loader.UnloadAll | userspace/harness/module_loader.cpp:110-119 | Always empties the list; a list that agrees with the kernel is removed without a failing rmmod and restores the starting set |
| ModuleLoader.Session | userspace/harness/module_loader.cpp:19-119 | Every run of loads and unloads followed by the clean-up restores the kernel's module set without a failing rmmod |
| ModuleLoader.Process.MoveConstruct | userspace/harness/module_loader.cpp:24-30 | The new loader takes the list over and is registered; the registry still covers every non-empty list and only live loaders |
| ModuleLoader.Process.Load | userspace/harness/module_loader.cpp:85-88 | A successful load registers its loader again; the registry invariant is kept |
| ModuleLoader.Process.Destroy | userspace/harness/module_loader.cpp:19-50 | The list is popped and the registry keeps exactly the registrations of other loaders, each of them and in order; modules are left behind exactly when a loaded module off the list uses one on it |
| ModuleLoader.Process.CleanupOnSignal | userspace/harness/module_loader.cpp:144-156 | In every state that construct, load, unload, move and destroy lead to: every live list ends empty, and the kernel's module set is that of the start if and only if nothing was left behind before and no module of a later turn uses one of an earlier turn |
| ModuleLoader.CleanUpRestoresIff | userspace/harness/module_loader.cpp:144-156 | Popping lists one after the other restores the starting set if and only if nothing beyond the lists was loaded and no module on a later list uses one on an earlier list |
| ModuleLoader.AllPoppedIff | userspace/harness/module_loader.cpp:110-119 | Popping one list removes all of it if and only if no loaded module outside it uses one on it |
| ModuleLoader.ModuleLeftBehind | userspace/harness/module_loader.cpp:19-50 | Destroying, or popping first, the loader of a used module leaves that module loaded |
| Utf8.VisualLen | userspace/monitor/renderer.cpp:39-50 | The loop counts the steps of the scan, also on malformed bytes |
| Utf8.VisualIsCount | userspace/monitor/renderer.cpp:39-50 | On well-formed UTF-8 the scan counts characters |
| Utf8.PadLine | userspace/monitor/renderer.cpp:61-80 | The loop truncates or pads as specified |
| Utf8.PaddingIsExact | userspace/monitor/renderer.cpp:61-80 | Padding well-formed text gives well-formed text of exactly the target width: leading characters, or the text and spaces |
| Utf8.CutKeepsIff | userspace/monitor/main.cpp:288-290 | Cutting well-formed text at any byte position gives well-formed parts if and only if the byte after the cut is not a tail |
| TraceDisplay.TraceRowDisplayableIff | userspace/monitor/main.cpp:281-290 | The row of a well-formed trace line, trimmed, compacted and cut at 60 bytes, is well-formed if and only if byte 60 of the compacted message does not continue a character |
| TraceDisplay.LimitCanCutCharacter | userspace/monitor/main.cpp:288-290 | A line of 61 bytes whose row is not well-formed |
| Frame.RenderNormal | userspace/monitor/renderer.cpp:110-213 | The output is the specified lines, each ended by a newline |
| Frame.RowShows | userspace/monitor/renderer.cpp:172-196 | In every row the left panel shows the snapshot's row and the right panel the event that many places from the newest, cut or filled with spaces to the panel's width; blank past the data |
| Frame.BordersShow | userspace/monitor/renderer.cpp:124-212 | The first line shows the two titles centred over their panels, the last three the closing line, the scenario bar over the inner width and the bottom line |
| Frame.PanelWidths | userspace/monitor/renderer.cpp:113-122 | The left panel has two fifths of the inner width, at least 18 columns, the right one the rest, at least 18 too |
| Frame.HeaderWidth | userspace/monitor/renderer.cpp:125-133 | The header is as wide as its titles need, and exactly as wide as the frame if and only if there are at least 56 columns |
| Frame.FrameGeometry | userspace/monitor/renderer.cpp:113-212 | For every terminal size the frame has max(rows, 12) lines, each below the header exactly max(cols, 40) characters wide, the header if and only if cols is at least 56 |

## Left out

- Kernel internals: mutex slow paths and hand-off, `set_memory_*`, `vmap`, TLB maintenance, barriers and scheduling appear only through the contracts above; no liveness is claimed.
- The bad driver's bookkeeping (`g_last_*`, the attack counter and result strings) and Thread A's contention counter: they feed no other component.
- The proc command parsers, and that it is the protection switch that updates the fault monitor's range: plumbing around the modelled operations.
- PMD block splitting: described in docs/implementation_plan.md:437, but no module implements it.
- IOMMU domain and platform-device set-up in the SMMU guard: calls into code that is not shown.
- SafetyMem.SafetyMem.SetProtection: the walk made for the log line after unlocking is not modelled, because it changes nothing.
- PageTable.OtherPagesUnchanged: assumes that the tables form a tree, as the kernel's do; tables shared between address ranges are not covered.
- The monitor's second parser of the live status file (userspace/monitor/main.cpp:209-249): the same line splitting and key tests as the modelled one.
- The wording of the frame's rows (userspace/monitor/renderer.cpp:174-190): the geometry holds for all well-formed, newline-free texts.
- Read errors of the trace pipe, which append one event and end the streamer; timing, sleeps and latency figures.
- Substring verdicts of scenarios B, D and E: their needles can occur in an owner's name, so no exact equivalence holds.
- Move assignment of the module loader: unused by the harness; locking inside the loader and its registry.
- Command-line handling, the analysis report, the `devmem` tool, `PhysicalMemoryView`, `expected`, `ProcReader` and `TerminalGuard`: thin wrappers with easy claims.
