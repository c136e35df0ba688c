# Memory, dirty tracking and snapshots: a verified model

Four large C files carry the weight of this system: the Linux memory manager (`memory.c`, `rmap.c`),
QEMU's KVM accelerator (`kvm-all.c`) and the Redis snapshot code (`rdb.c`). This project models what
they do at their hardest places and proves what they are relied on for.

## What is modelled

**Private anonymous memory** (`PrivateMemory*.dfy`, `AnonMemory.dfy`). One state machine holds the page
tables of all processes, the pages with their reference counts, map counts, exclusive marks and swap-cache
slots, the swap slots, copies under way and slots being read past the cache. Its steps are faults, the
copying of one entry at fork, reuse, the two halves of a copy on write, unmapping to swap, both ways of
swapping in, zapping, pinning and device writes, in any interleaving. The machine refines the simplest
memory there is: one byte map per process, duplicated at fork. `PrivateMemoryAccounting` states what follows
for the counters, the exclusive marks and the copy made with no lock held; `PrivateMemoryAccess` is the permission
law, which entries any step leaves writable, and `PrivateMemoryProgress` what gets done: nothing unused stays
behind, and pages go out to swap and come back. The class `AnonMemory.Memory`
carries out the same operations in place, with the loops over page-table entries and the roll-backs of the C
code, and each method is tied to the machine's step.

**The anon_vma forest** (`AnonVma*.dfy`, `ReverseMap.dfy`). Parents, roots, reference counts, child counts and
active counts under prepare, split, fork and unlink, with any allocation failing; `AnonVmaObjects.Forest` is
the code as it runs, with its list walks. `AnonVmaReuse` says which anon_vma fork reuses and why a dynasty of
forking and exiting processes stays small; `ReverseMap` puts pages on top and proves that the reverse-map walk
finds every mapping. `ReverseMapGuards` ties it to the page tables: where the reference counts there call a page
exclusive, it is. `JointRun` runs both machines together, so that the walk finds every entry of the page tables.
`FolioMapcount` is the packed map-count arithmetic of large folios, `TlbBatch` the
lock-free generation word of batched TLB flushes.

**Page-table freeing** (`PageTables.dfy`, `FreePgtables.dfy`, `PageTableLifetime.dfy`). Four levels of table pages,
freed between a floor and a ceiling where address 0 is both the bottom and the top; words wrap at 2^64.
`PageTableLifetime` is the address space around it: table pages come with faults and go with unmaps, and over every
run each one is reachable and serves a vma.

**KVM memory slots and dirty tracking** (`MemSlots.dfy`, `DirtyLog.dfy`, `DirtyRing.dfy`, `IrqRoutes.dfy`). The slot
table under commits, the dirty log with the kernel's side as the KVM API document describes
KVM_CLEAR_DIRTY_LOG (section 4.117) and the dirty ring (section 8.29), and the allocator of interrupt routes.

**Redis snapshots** (`Rdb*.dfy`). A printer and a parser: lengths, strings in three forms, lists, sets, sorted sets,
hashes with field expiry, streams with consumer groups whose entries are shared between lists, keys with
their opcodes, databases and the file. `RdbStrings`, `RdbStream`, `RdbObjects` and `RdbFile` hold the format as
functions and the round trips; `RdbWriter.Writer` and `RdbReader.Loader` are the functions as they run, on a
stream that may take only so many bytes or end early, and `RdbReload` puts them end to end; `RdbTruncated` proves
that no proper beginning of a saved file loads. `RdbTrace` reads a file opcode by opcode, without a loader's state,
and says for any input which record each entry comes from and with which attributes; `RdbRefusals` and `RdbAccepts`
say for any input which files and which collections load at all, and `RdbForms` in which form things are saved.

`Arithmetic.dfy` and `Wrappers.dfy` are helpers. `dafny verify dfyconfig.toml` checks everything.

## Where the code does not do what it seems to promise

Each of these is stated with the condition under which the property does hold.

- `try_to_unmap_one` warns and gives up when an anonymous page that should have swap space is not in the swap
  cache, but by then it has cleared the page-table entry, and this one branch does not put it back
  (`linux host/rmap.c:1844-1848`). `Memory.TryToUnmapOne` has the equivalence,
  `AbortedUnmapCanLosePage` the call on a reachable state.
- `kvm_irqchip_release_virq` moves the last route into the hole it has made and then does not look at it, so it
  can leave a route of the released interrupt behind (`qemu file/kvm-all.c:1982-1992`). `ReleaseClearsAll` is the
  exact condition; `AllocatorIsExact` shows that virqs from the allocator always meet it.
- A hash field that expires at time 0 is written with a TTL that is read back as no expiry at all when the
  earliest expiry is 0 (`redis/rdb.c:2443-2447`). `HashExpirySurvives` is the equivalence
  for a hash, `WholeFileRoundTrip` for a file.
- `rdbSaveObject` does not count the eight bytes of a hash's earliest expire time in its result, although its
  comment promises the number of bytes written (`redis/rdb.c:968-1000`). `Writer.WriteObject` says exactly when
  the result is right.
- `rdbLoadLen` returns UINT64_MAX for an error and for the length UINT64_MAX. `LenRoundTrip` is the equivalence;
  the loader of consumer groups is shown to be safe because it looks at the stream's error flag instead.
- `free_pgtables` also frees a PTE page that no vma uses if it exactly fills the gap between two vmas that are
  handled in one call (`linux host/memory.c:414-427`). `FreedExactly` says so; it is harmless.
- A call of `free_pgtables` can cut a PTE page off that serves none of the listed vmas, by freeing the levels above it.
  `StaysReachableIff` is the exact condition, `CanCutOff` the tree; `TablesFollowVmas` shows that no run gets there.
- What `rdbSaveDb` returns looks like a number of bytes, but each key adds 1 (`redis/rdb.c:1505-1506`). `Writer.WriteDb`
  says when the two agree: only for an empty database.
- The bounds behind batched TLB flushing are tight: `LargeIsTheLimit` and `RecordersAreTheLimit` are runs one
  step beyond them.

## Model

| member | source | states |
|---|---|---|
| `PrivateMemoryRefinement.PrivateMemoryHolds` | linux host/memory.c:3824-3915 | Over every run of faults, forks, reuse, copies, swap-outs, swap-ins, zaps, pins and reclaim, what a process finds at an address is what it would find in a byte map of its own that is duplicated at fork |
| `PrivateMemoryRefinement.WritesStayPrivate` | linux host/memory.c:3250-3277 | After any run, a store changes what is seen at no other address, of the same process or another |
| `PrivateMemoryRefinement.NextRefines` | linux host/memory.c:4369-4831 | Every single step keeps the invariant and does to what processes see exactly what its event (nothing, one write, one inherited page, one page given up) does to private memory |
| `PrivateMemoryRefinement.RunRefinesFrom` | linux host/memory.c:4369-4831 | Any run, from any state that satisfies the invariant, keeps it and does to what processes see what its events do to private memory |
| `PrivateMemoryRefinement.AnonFaultOk` | linux host/memory.c:4927-5040 | An anonymous fault, with the zero page or a new page, is not noticed by anybody |
| `PrivateMemoryRefinement.CopyEntryOk` | linux host/memory.c:805-1067 | Copying one entry at fork leaves every other view alone and shows at the child exactly what the parent shows, on the swap, the sharing and the copy-because-pinned path, or changes nothing |
| `PrivateMemoryRefinement.CopySwapOk` | linux host/memory.c:816-833 | A swap entry copied at fork, its exclusive mark cleared first, shows the parent's page at the child, keeps the invariant and leaves every other view alone |
| `PrivateMemoryRefinement.CopySharedOk` | linux host/memory.c:962-1066 | A page shared read-only at fork, its exclusive mark cleared, shows the parent's page at the child, keeps the invariant and leaves every other view alone |
| `PrivateMemoryRefinement.CopyPinnedOk` | linux host/memory.c:927-960 | A page that may be pinned is copied instead: the child sees the parent's page, and nobody else sees a difference |
| `PrivateMemoryRefinement.WpFaultOk` | linux host/memory.c:3824-3915 | A write fault, whether it reuses the page or goes on to copy, is not noticed by anybody |
| `PrivateMemoryRefinement.ReuseOrCopyOk` | linux host/memory.c:3598-3644 | Whether the reference-count tests, with giving up the swap cache in between, end in reuse or in a copy, the invariant holds, so a reused page is mapped once and reached by nobody else, and no view changes |
| `PrivateMemoryRefinement.SoleOwner` | linux host/memory.c:3626-3643 | A page whose one reference is its mapping's is outside the swap cache, held by nobody else, and may be marked exclusive |
| `PrivateMemoryRefinement.WpFinishOk` | linux host/memory.c:3399-3484 | wp_page_copy from the recheck on, successful or not, changes no view, although the copy was made before with no lock held |
| `PrivateMemoryRefinement.SwitchToCopyOk` | linux host/memory.c:3403-3481 | When the recheck finds the entry unchanged, putting the copy in its place and giving up the old page and its swap space keeps the invariant and every view |
| `PrivateMemoryRefinement.EndCopyOk` | linux host/memory.c:3475-3492 | Dropping the copier's reference changes no view and keeps the invariant |
| `PrivateMemoryRefinement.SwapInOk` | linux host/memory.c:4622-4831 | Mapping a page of the swap cache keeps every view and the invariant, so it is marked exclusive only when no other entry or copier reaches it; SwapInEntry says which access it grants |
| `PrivateMemoryRefinement.ExclusiveSwapIn` | linux host/memory.c:4673-4746 | Whether the swap entry was exclusive or the reference is the only one left, the page meets all that an exclusive page must |
| `PrivateMemoryRefinement.DirectFinishOk` | linux host/memory.c:4461-4505 | Mapping a page that was read past the swap cache keeps the invariant and every view, although the slot was read with no lock held |
| `PrivateMemoryRefinement.UnmapOk` | linux host/rmap.c:1837-1932 | Replacing a mapping by a swap entry, or giving up on the way, is not noticed by anybody |
| `PrivateMemoryRefinement.UnmapClears` | linux host/rmap.c:1780-1809 | Clearing the entry and the exclusive mark, as one update: the page keeps its contents, the slot and cache are untouched, and no other view changes |
| `PrivateMemoryRefinement.UnmapSwaps` | linux host/rmap.c:1900-1932 | With the swap entry in its place and the mapping's reference dropped, the address shows what the page held and no other view changes |
| `PrivateMemoryRefinement.FreeSwapOk` | linux host/memory.c:3630-3631 | Giving up swap space that nobody refers to changes no view |
| `PrivateMemoryRefinement.ZapOk` | linux host/memory.c:1597-1716 | Zapping an entry leaves zeros at that address and everything else as it was |
| `PrivateMemoryRefinement.StoreOk` | linux host/memory.c:3250-3277 | A store through a writable entry is a write at that address and at no other |
| `PrivateMemoryAccounting.CountsAreExact` | linux host/memory.c:4712-4722 | In every reachable state mapcount, reference count, slot count, MM_ANONPAGES and MM_SWAPENTS equal the numbers of entries and holders they stand for |
| `PrivateMemoryAccounting.WritableMeansExclusive` | linux host/memory.c:3855-3867 | A writable anonymous entry implies an exclusive page with this one mapping |
| `PrivateMemoryAccounting.ExclusiveSwapMeansSole` | linux host/memory.c:4669-4703 | An exclusive swap entry is its slot's only reference, and the cached page has no mapping |
| `PrivateMemoryAccounting.SwapInFindsSharedFolio` | linux host/memory.c:4657-4667 | The check that a page found in the swap cache is not marked exclusive never fires |
| `PrivateMemoryAccounting.StablePagesStayStable` | linux host/memory.c:4681-4702 | On a device that needs stable pages, a page under writeback is clean, unpinned and mapped read-only |
| `PrivateMemoryAccounting.CopiedPageIsCurrent` | linux host/memory.c:3399-3403 | Whatever other threads did since the lock was dropped, what was copied is what the old page holds now; so if the entry is found unchanged the copy is what the process sees |
| `PrivateMemoryAccounting.CopiedFolioStaysShared` | linux host/memory.c:3892-3914 | While the copier holds its reference, the page it copies is not exclusive and has a reference beyond its mappings |
| `PrivateMemoryAccounting.DirectReadIsCurrent` | linux host/memory.c:4461-4505 | A slot that is being read past the cache keeps its contents and stays out of the cache |
| `PrivateMemoryAccounting.AbortedUnmapCanLosePage` | linux host/rmap.c:1844-1848 | Called on a reachable state for a page outside the swap cache, try_to_unmap_one gives up and the process then reads zeros; the reclaim of the machine itself, which gives a page a slot first, never takes this branch |
| `PrivateMemoryAccess.AccessIsExact` | linux host/memory.c:4727-4746 | The permission law, in every reachable state and over every step: an entry is writable afterwards if and only if the step opens it, or it was writable for the same page and the step neither write-protects nor clears it; what opens one, always under a vma that allows writing: an anonymous write fault, a page copied at fork because it may be pinned, a write fault on an exclusive page or on one whose counts show no other user, a finished copy whose entry is unchanged, a swap-in of a page with no other user, a direct swap-in |
| `PrivateMemoryAccess.WritableIsGranted` | linux host/memory.c:4737-4746 | Over every run an entry is writable if and only if some step opened it under a vma that allows writing, and no step since has write-protected or cleared it |
| `PrivateMemoryAccess.SwapInEntry` | linux host/memory.c:4669-4768 | A swap-in changes one entry and maps the cached page there, writable if and only if the vma allows it and either the entry was exclusive and the page may be written now, or the swap cache was its only holder, this entry the only reference of its slot, and the slot is given up |
| `PrivateMemoryAccess.WpFaultEntry` | linux host/memory.c:3598-3644 | A write fault on a read-only page opens it if it is exclusive, or if its reference count is 1, or 2 with a swap cache that can be given up; in every other case the entry stays and a copy is begun |
| `PrivateMemoryAccess.WpFinishEntry` | linux host/memory.c:3399-3484 | The copy is mapped, writable if the vma allows it and the fault was not an unshare, exactly if the entry is still the one the fault saw; else no entry changes |
| `PrivateMemoryAccess.CopyEntries` | linux host/memory.c:927-983 | At fork both entries become read-only, unless the page may be pinned: then the parent keeps its entry and the child gets a copy, writable if its vma allows it, or nothing if there is no page for it |
| `PrivateMemoryAccess.UnmapEntry` | linux host/rmap.c:1837-1932 | Reclaim puts a swap entry that is exclusive exactly if the page was, or leaves the entry as it is exactly if the slot cannot be referenced, the architecture objects, or the exclusive page may be pinned |
| `PrivateMemoryProgress.NothingIsLeft` | linux host/memory.c:4712-4722 | Over every run, every slot in use is named by an entry, cached or being read, and every page is mapped, cached or held |
| `PrivateMemoryProgress.SwapsOut` | linux host/rmap.c:1837-1932 | A page used by one mapping only goes out in five steps: the entry names the slot and keeps the exclusive mark, the slot holds the page, and the folio is gone; nothing else has changed |
| `PrivateMemoryProgress.SwapsIn` | linux host/memory.c:4622-4831 | A slot that is not cached comes back in two steps with its contents; it is free afterwards and the page exclusive if nobody else refers to it and the page is written or swap space is short, else the page stays cached and is exclusive if the entry said so |
| `PrivateMemoryProgress.WriteFaultCopies` | linux host/memory.c:3399-3484 | A write fault that cannot reuse the page ends, if nothing comes between, in the entry mapping a copy with the same contents; giving up leaves every entry as it was and nothing to finish |
| `PrivateMemoryProgress.CopyGivesUpSwap` | linux host/memory.c:3476-3481 | When a copy has replaced the last mapping of a page and its lock can be had, the page keeps swap space only while it is being written or an entry refers to the slot |
| `PrivateMemoryProgress.SwapGivenUp` | linux host/memory.c:3630-3631 | Swap space is given up exactly if the page is not being written and no entry refers to the slot |
| `PrivateMemoryViews.WriteFolioViews` | linux host/memory.c:3250-3277 | Writing to an exclusive page is seen at its one mapping and nowhere else, not even through a swap entry |
| `PrivateMemoryViews.DropFromCacheViews` | linux host/memory.c:3630-3631 | Dropping a page from the swap cache changes no view if its slot is unreferenced or up to date |
| `PrivateMemoryViews.FolioFreeSwapOk` | linux host/memory.c:3630-3631 | folio_free_swap keeps the invariant and every view, and drops the cache's reference exactly if it could |
| `PrivateMemoryInvariant.CountUpdate` | linux host/memory.c:816-833 | Changing one entry changes each count by what the entry was and what it becomes |
| `PrivateMemoryInvariant.MapNewKeeps` | linux host/memory.c:4997-5027 | Mapping a new exclusive page keeps the invariant |
| `PrivateMemoryInvariant.MapHeldKeeps` | linux host/memory.c:962-983 | Mapping a shared page keeps the invariant |
| `PrivateMemoryInvariant.UnmapHeldKeeps` | linux host/rmap.c:1923-1954 | Removing a mapping, its reference handed on, keeps the invariant |
| `PrivateMemoryInvariant.DemoteKeeps` | linux host/memory.c:1029-1041 | Clearing the exclusive mark of an unpinned page keeps the invariant |
| `PrivateMemoryInvariant.PromoteKeeps` | linux host/memory.c:3632-3643 | Marking a page exclusive keeps the invariant if no other entry or copier reaches it |
| `PrivateMemoryInvariant.MapSwapKeeps` | linux host/rmap.c:1900-1932 | One more swap entry keeps the invariant if the slot is not exclusively held |
| `PrivateMemoryInvariant.UnmapSwapKeeps` | linux host/memory.c:4712-4722 | One swap entry less keeps the invariant |
| `PrivateMemoryInvariant.DropFromCacheKeeps` | linux host/memory.c:4718-4719 | Leaving the swap cache keeps the invariant |
| `AnonMemory.Memory.DoAnonymousPage` | linux host/memory.c:4927-5040 | The state after the fault is that of the machine's anonymous fault |
| `AnonMemory.Memory.DoWpPage` | linux host/memory.c:3824-3915 | The state after do_wp_page is that of the machine's write fault, and the result tells whether a copy has to follow |
| `AnonMemory.Memory.CanReuse` | linux host/memory.c:3598-3644 | The answer and the state, with swap space given up on the way, are those of the machine's test, and no entry changes |
| `AnonMemory.Memory.WpPageCopyFinish` | linux host/memory.c:3399-3484 | The state after the second phase is that of the machine's recheck, switch and release |
| `AnonMemory.Memory.CopyOne` | linux host/memory.c:1150-1199 | One round of the fork loop is one copy step, or a stop that changes nothing because something must be allocated |
| `AnonMemory.Memory.CopyPresent` | linux host/memory.c:993-1067 | Sharing or copying a present entry ends in the machine's state |
| `AnonMemory.Memory.CopyPteRange` | linux host/memory.c:1093-1236 | As far as the loop gets, the child sees what the parent saw, nobody else sees a difference, and it stops early only where something must be allocated |
| `AnonMemory.Memory.ZapPteRange` | linux host/memory.c:1597-1716 | The range is empty afterwards, and no other entry or view changes |
| `AnonMemory.Memory.DoSwapPage` | linux host/memory.c:4595-4795 | The state after mapping a page of the swap cache is that of the machine's swap-in, whose entry SwapInEntry gives: writable exactly if the vma allows it and the page has no other user |
| `AnonMemory.Memory.TryToUnmapOne` | linux host/rmap.c:1780-1966 | The walk that clears the entry first and puts it back when it must give up ends in the machine's state; when it gives up, entry, slot count and counters are what they were if and only if the page has swap space |
| `AnonMemory.Memory.TryFreeSwap` | linux host/memory.c:4718-4719 | folio_free_swap in place ends in the machine's state |
| `AnonMemory.MapThenPromote` | linux host/memory.c:3250-3277 | Mapping and promoting in one update is mapping and then promoting |
| `AnonMemory.UnmapShape` | linux host/rmap.c:1837-1932 | The several updates of a successful unmap amount to one record update |
| `AnonMemory.ShareShape` | linux host/memory.c:962-983 | The several updates of sharing an entry amount to one record update |
| `AnonMemory.CopyTouches` | linux host/memory.c:1093-1236 | Copying one entry changes no entry but the two, fills the child's exactly if the parent's is not empty and nothing must be allocated first, and leaves no passing reference behind |
| `AnonMemory.ZapEmpties` | linux host/memory.c:1597-1716 | A zapped entry is empty, no other entry changes, and only the gather gets references |
| `AnonVmaLifetime.LifetimeSafety` | linux host/rmap.c:407-460 | Over every run of prepare, split, fork, unlink and pinning, any allocation failing, no anon_vma is used after free, freed while linked, freed before one whose lock it holds, or put with children or active vmas left, and no chain has two roots |
| `AnonVmaReuse.FaultsLeaveMarks` | linux host/rmap.c:121-149 | What LifetimeSafety excludes does leave its mark: any use of an anon_vma that is gone, freeing one that is linked or is the root of others, putting one with children or active vmas left, locking a second root |
| `AnonVmaLifetime.CountsAreExact` | linux host/rmap.c:291-460 | In every reachable state num_children and num_active_vmas are the real counts, and refcount counts being linked, pins and the anon_vmas whose lock lives in this root, so a root goes last |
| `AnonVmaLifetime.ChainsAreClosed` | linux host/rmap.c:291-405 | Every chain is closed under parent, has one root, which comes last, and contains the vma's own anon_vma |
| `AnonVmaLifetime.PrepareOk` | linux host/rmap.c:197-244 | __anon_vma_prepare keeps the invariant, whichever allocation fails and whether an anon_vma of a neighbour is taken; PrepareGives says what it does |
| `AnonVmaLifetime.CloneLinksOk` | linux host/rmap.c:291-338 | The clone loop links the whole chain, or a part of it when memory runs out; a reused anon_vma is in the chain |
| `AnonVmaLifetime.CloneOk` | linux host/rmap.c:291-338 | anon_vma_clone keeps the invariant; when it fails, the vma is left without links |
| `AnonVmaLifetime.ForkOk` | linux host/rmap.c:345-405 | anon_vma_fork keeps the invariant on every path, failed allocations included |
| `AnonVmaLifetime.UnlinkTreesOk` | linux host/rmap.c:416-433 | The first loop of unlink_anon_vmas keeps the invariant, empties the chain, and leaves the emptied anon_vmas, each once, to be put |
| `AnonVmaLifetime.UnlinkOk` | linux host/rmap.c:407-460 | unlink_anon_vmas leaves a settled state and no link of the vma |
| `AnonVmaLifetime.PutKeeps` | linux host/rmap.c:2563-2570 | Dropping a reference, which may free the object and then its root, keeps the invariant |
| `AnonVmaLifetime.PutEmptyKeeps` | linux host/rmap.c:450-459 | Putting an emptied anon_vma keeps the invariant, whose part it is that no warning fires |
| `AnonVmaLifetime.FreeKeeps` | linux host/rmap.c:121-149 | Freeing on the last reference keeps the invariant; unless it was a root, one reference of its root is then in hand |
| `AnonVmaLifetime.DropLinkKeeps` | linux host/rmap.c:416-433 | Removing one link keeps every count exact and shortens the chain by its head; an emptied anon_vma waits to be put |
| `AnonVmaLifetime.LinkKeeps` | linux host/rmap.c:161-169 | One more link, right after those already made, keeps the invariant |
| `AnonVmaLifetime.ActivateKeeps` | linux host/rmap.c:318-324 | Taking a reused anon_vma as one's own keeps the invariant |
| `AnonVmaLifetime.NewRootKeeps` | linux host/rmap.c:212-231 | A new root for a vma without links keeps the invariant |
| `AnonVmaLifetime.AdoptKeeps` | linux host/rmap.c:370-396 | fork's own anon_vma, under its parent and root, keeps the invariant |
| `AnonVmaLifetime.UndoAlloc` | linux host/rmap.c:400-404 | An anon_vma that was allocated and not linked is given back |
| `AnonVmaLifetime.ParentLinked` | linux host/rmap.c:416-433 | A linked anon_vma keeps its parent linked |
| `AnonVmaLifetime.EmptyHasNone` | linux host/rmap.c:450-455 | Without links an anon_vma has no children and no active vma |
| `AnonVmaLifetime.DropLinkRoots` | linux host/rmap.c:254-264 | All links of a chain have the root of its first, so lock_anon_vma_root never warns |
| `AnonVmaReuse.NothingLeaks` | linux host/rmap.c:407-460 | Once no vma is linked and no pin is left, every anon_vma has been freed |
| `AnonVmaReuse.PrepareGives` | linux host/rmap.c:197-244 | In every reachable state: it fails exactly when a link, or for want of a mergeable neighbour an anon_vma, cannot be allocated, and then changes nothing; if it succeeds the vma has an anon_vma: the one it had, with nothing changed, or a chain of one element, the mergeable neighbour's or else a new root, which counts one active vma more; no other vma or anon_vma changes |
| `AnonVmaReuse.ForkExactly` | linux host/rmap.c:345-405 | In every reachable state, with anything running out: fork succeeds exactly if the parent has no anon_vma, or every link can be had and an anon_vma can be reused or made; the child then has one of its own on top of the parent's chain or in it, and else no link; no other vma changes |
| `AnonVmaReuse.SplitExactly` | linux host/rmap.c:291-343 | A split copies chain and anon_vma if every link can be had, and else leaves the new vma without links; no other vma changes and no anon_vma comes or goes |
| `AnonVmaReuse.UnlinkExactly` | linux host/rmap.c:407-460 | unlink_anon_vmas takes all links and the anon_vma from the vma, changes no other vma and makes no anon_vma |
| `AnonVmaReuse.PinsHold` | linux host/rmap.c:2563-2570 | An anon_vma that is pinned from outside is there; a pin adds one to its count and dropping it brings the forest back |
| `AnonVmaReuse.ForkReuses` | linux host/rmap.c:311-368 | fork reuses the oldest anon_vma of the chain that is inactive and has fewer than two children, never a root, and makes a new one exactly when every anon_vma of the chain is active or has two children |
| `AnonVmaReuse.RootIsNotReusable` | linux host/rmap.c:311-321 | A root of the parent's chain never qualifies for reuse |
| `AnonVmaReuse.OldestReusableIs` | linux host/rmap.c:296-322 | The choice of the clone loop is the last of the chain that qualifies |
| `AnonVmaReuse.ThreeAreEnough` | linux host/rmap.c:311-321 | In a line of root, child and grandchild, whichever is active leaves another to be reused |
| `AnonVmaReuse.DynastyStaysSmall` | linux host/rmap.c:345-405 | However often a process forks and the parent exits, and whichever allocations of these forks fail, at most three anon_vmas are alive |
| `AnonVmaObjects.Forest.PutAnonVma` | linux host/rmap.c:2563-2570 | The forest afterwards is that of the specification, and the invariant holds |
| `AnonVmaObjects.Forest.UnlinkAnonVmas` | linux host/rmap.c:407-460 | Both loops in place end in the specified state, settled, with no warning raised |
| `AnonVmaObjects.Forest.PutAll` | linux host/rmap.c:450-459 | The second loop in place ends in the specified state and raises no warning |
| `AnonVmaObjects.Forest.AnonVmaClone` | linux host/rmap.c:291-338 | The loop with its retried allocation, root lock and choice of a reusable anon_vma ends in the specified state |
| `AnonVmaObjects.Forest.AnonVmaFork` | linux host/rmap.c:345-405 | fork in place ends in the specified state on every path, settled and with no warning raised |
| `AnonVmaObjects.Forest.AnonVmaPrepare` | linux host/rmap.c:197-244 | prepare in place ends in the specified state, settled: on success the vma has the anon_vma that PrepareGives names |
| `AnonVmaObjects.Forest.RemoveFromTree` | linux host/rmap.c:416-433 | Taking the vma out of a tree, with the parent's child count, is the specified step |
| `ReverseMap.WalkFindsAll` | linux host/rmap.c:2713-2765 | In every reachable state the walk, which passes over vmas that do not cover the page index, visits every mapping of a page that lies in its vma and, while the page is in the swap cache and still names an anon_vma, every such swap entry for it |
| `ReverseMap.NamingIsExact` | linux host/rmap.c:1242-1265 | What every move does to the name of a page, in every reachable state: a page named for the first time names, with the index of the place it is mapped at, the anon_vma of its vma, or the oldest of the chain if it was swapped in and may be shared; after that only reuse changes it, to the own anon_vma of the one vma that maps it |
| `ReverseMap.PlayKeeps` | linux host/rmap.c:2713-2765 | Every run of forest and mapping moves keeps reverse maps complete |
| `ReverseMap.AdvanceKeeps` | linux host/rmap.c:2713-2765 | Every single move keeps reverse maps complete |
| `ReverseMap.BeginForkKeeps` | linux host/rmap.c:345-405 | A fork that gives the child its links before any entry is copied keeps reverse maps complete |
| `ReverseMap.ForkInherits` | linux host/rmap.c:345-405 | The child's chain is the parent's, or extends it by the child's own anon_vma |
| `ReverseMap.SplitKeeps` | linux host/rmap.c:291-338 | A split, with the chain cloned and the entries divided, keeps reverse maps complete |
| `ReverseMap.CopyEntryKeeps` | linux host/memory.c:962-983 | Copying an entry to a forked child keeps reverse maps complete |
| `ReverseMap.MapNewKeeps` | linux host/rmap.c:1242-1265 | A new page that names the vma's own anon_vma keeps reverse maps complete |
| `ReverseMap.MoveAnonKeeps` | linux host/rmap.c:1219-1233 | Moving a page with this one mapping to the vma's own anon_vma keeps reverse maps complete; ReuseMoves shows that wp reuse meets the guard |
| `ReverseMap.SwapInKeeps` | linux host/memory.c:4755-4768 | Mapping a page of the swap cache, which may come to name the vma's anon_vma or its root, keeps reverse maps complete; SwapInMoves shows that do_swap_page meets the guard |
| `ReverseMapGuards.ReuseIsSole` | linux host/memory.c:3598-3643 | In every reachable state of the page tables: when wp_can_reuse_anon_folio says yes, this mapping is the only one of the page, and the page is in no swap cache |
| `ReverseMapGuards.ExclusiveSwapInIsSole` | linux host/memory.c:4669-4746 | In every reachable state: when do_swap_page marks a page exclusive, for the mark in the entry or for the reference count, the swap entry it replaces is the only one of its slot and no entry maps the page |
| `ReverseMapGuards.ReleasesAreUnused` | linux host/memory.c:3630-3643 | In every reachable state: when folio_free_swap succeeds no entry names the slot; a slot outside the swap map has none; a page with map count 0, or with one reference that is not a mapping, has no mapping |
| `ReverseMapGuards.ReuseMoves` | linux host/rmap.c:1219-1233 | A reuse in the page tables is a move in ReverseMap that is taken: the page comes to name the vma's own anon_vma, and reverse maps stay complete |
| `ReverseMapGuards.SwapInMoves` | linux host/memory.c:4755-4768 | A swap-in in the page tables, exclusive or not, is a swap-in in ReverseMap that is taken, and reverse maps stay complete |
| `JointRun.JointHolds` | linux host/rmap.c:1219-1233 | Over every joint run, where each step in the page tables makes its moves in ReverseMap and reference counts alone decide on exclusivity, both machines are where runs of their own lead, show the same entries, and reverse maps are complete |
| `JointRun.EveryEntryIsFound` | linux host/rmap.c:2713-2765 | After every joint run the walk from a page comes by every entry of the page tables that maps it and, while a page is cached and names an anon_vma, by every swap entry for it, if the vma covers the place |
| `JointRun.ReuseIsTaken` | linux host/memory.c:3598-3643 | In a joint run, when the reference count allows a reuse, the page comes to name the vma's own anon_vma |
| `JointRun.MemOk` | linux host/memory.c:4369-4831 | Any step in the page tables, with its moves and what it gives up, leaves both machines matching |
| `JointRun.SwapInIs` | linux host/memory.c:4755-4768 | When the page tables mark a page exclusive on swap-in, ReverseMap makes the exclusive move, and shows the mapping |
| `JointRun.SweepOk` | linux host/rmap.c:1219-1233 | Slots and pages given up in the page tables are unused in ReverseMap, which can give up exactly those |
| `JointRun.SplitEntries` | linux host/rmap.c:293-343 | After a split the entries are those of the page tables with the upper part of the addresses in the new vma |
| `ReverseMap.UnmapKeeps` | linux host/rmap.c:1900-1951 | A swap entry in the place of a mapping keeps reverse maps complete |
| `FolioMapcount.CountsStayExact` | linux host/rmap.c:1162-1208 | Over any allowed sequence of new, PTE and PMD adds and removes, the packed count is the PTE-mapped pages plus ENTIRELY_MAPPED if PMD-mapped, the large map count is all mappings minus one, and the statistics are the mapped pages and the PMD-mapped pages |
| `FolioMapcount.SplitAskedExactly` | linux host/rmap.c:1543-1590 | A deferred split is asked for exactly when a call on an anonymous large folio that has not asked before unmaps some page while another stays mapped |
| `FolioMapcount.CallOk` | linux host/rmap.c:1162-1208 | One call keeps all four counts exact |
| `FolioMapcount.AddNewOk` | linux host/rmap.c:1425-1478 | The first mapping of a folio leaves all counts exact |
| `FolioMapcount.CountDrops` | linux host/rmap.c:1550-1578 | A page loses its last mapping exactly when the number of mapped pages drops |
| `FolioMapcount.Counts.AddRmapPtes` | linux host/rmap.c:1162-1185 | The loop over the pages ends in the specified counts and statistics |
| `FolioMapcount.Counts.AddRmapPmd` | linux host/rmap.c:1186-1205 | A PMD mapping ends in the specified counts, also when pages are mapped by PTEs already |
| `FolioMapcount.Counts.RemoveRmapPtes` | linux host/rmap.c:1544-1560 | The loop ends in the specified counts and asks for a split as specified |
| `FolioMapcount.Counts.RemoveRmapPmd` | linux host/rmap.c:1561-1592 | Removing a PMD mapping ends in the specified counts and asks for a split as specified |
| `TlbBatch.NoFlushIsLost` | linux host/rmap.c:685-768 | With at most 16384 concurrent recorders and at most 16383 records between a flusher's read and its exchange, in every interleaving the pending count differs from the flushed one while a recorded unmap has not been flushed, and neither field overflows |
| `TlbBatch.FlushSettles` | linux host/rmap.c:753-768 | A flush that nobody interferes with leaves nothing exposed and the two counts equal, and nobody starts another before the next record |
| `TlbBatch.LargeIsTheLimit` | linux host/rmap.c:679-713 | One record more between read and exchange, and a run exists in which a needed flush is lost |
| `TlbBatch.RecordersAreTheLimit` | linux host/rmap.c:703-715 | With 16385 recorders a run exists in which the pending count overflows its 15 bits: pending is 0 again, equal to a flushed count that has not moved, and a needed flush is lost |
| `TlbBatch.NextKeeps` | linux host/rmap.c:685-768 | Every step of a recorder or flusher keeps the invariant behind it |
| `TlbBatch.CommitKeeps` | linux host/rmap.c:703-715 | Increment and reset keep it, also when the exchange fails and is retried |
| `TlbBatch.ExchangeKeeps` | linux host/rmap.c:753-768 | A flusher's exchange, successful or not, keeps it when the flusher is paced |
| `TlbBatch.FlushKeeps` | linux host/rmap.c:753-768 | A flush keeps it, covering every entry cleared before |
| `FreePgtables.FreedExactly` | linux host/memory.c:377-431 | A table page is freed if and only if it lies wholly between floor and ceiling, 0 being the top, and meets a listed vma, or is the one PTE page that exactly fills the gap between two neighbours |
| `FreePgtables.NothingIsCutOff` | linux host/memory.c:377-431 | If every table page between the bounds serves a listed vma, as UnmapFreesTheUnserved shows it always does, exactly the pages between the bounds go, and every one that stays is still reachable from the top |
| `FreePgtables.StaysReachableIff` | linux host/memory.c:377-431 | For any radix tree, what a call leaves is reachable from the top if and only if no page that serves no listed vma hangs on a page between the bounds that serves one |
| `FreePgtables.CanCutOff` | linux host/memory.c:377-431 | A concrete tree for which the bare call leaves a PTE page behind whose upper levels it has freed |
| `PageTableLifetime.TablesFollowVmas` | linux host/memory.c:377-431 | Over every run of maps, splits, merges, faults and unmaps no table page is unreachable, every table page serves a vma, and without vmas no table page is left |
| `PageTableLifetime.UnmapFreesTheUnserved` | linux host/memory.c:377-431 | In every reachable state an unmap with the end of the vma before as floor and the start of the vma after as ceiling, 0 for none, is a call free_pgtables accepts, and frees exactly the table pages that serve no vma that stays |
| `PageTableLifetime.UnmapIsSafe` | linux host/memory.c:312-352 | Between the bounds of an unmap every table page serves a vma that goes |
| `PageTableLifetime.UnmapOk` | linux host/memory.c:377-431 | An unmap keeps every table page that is left reachable and serving a vma |
| `PageTableLifetime.FaultOk` | linux host/memory.c:6482-6550 | A fault that makes the missing levels for its address from the top down, or some of them, keeps every table page reachable and serving a vma |
| `PageTableLifetime.FaultReaches` | linux host/memory.c:6482-6550 | A fault inside a vma that can allocate has a table page of every level for its address, and makes no other |
| `PageTableLifetime.SplitOk` | linux host/memory.c:377-431 | Splitting a vma, also inside the range of a table page, leaves every table page serving one of the vmas |
| `FreePgtables.FreePgtables` | linux host/memory.c:377-431 | The loop that joins nearby vmas into one call frees exactly the specified tables, each once |
| `FreePgtables.GroupRange` | linux host/memory.c:411-427 | A table meets a joined range exactly if it meets one of its vmas or one of its gaps |
| `FreePgtables.GroupRooted` | linux host/memory.c:383-430 | What earlier rounds freed leaves the tables of a later group hanging together |
| `PageTables.MmuGather.FreePgdRange` | linux host/memory.c:315-375 | After rounding, with all its wrap-around cases, exactly the tables inside the bounds that meet the range are freed |
| `PageTables.MmuGather.FreeRange` | linux host/memory.c:211-310 | Each level frees exactly what lies below it inside the bounds, and itself exactly if it lies inside |
| `PageTables.MmuGather.FreeEntries` | linux host/memory.c:253-260 | The do-while loop visits each present entry once and frees exactly what lies inside |
| `PageTables.MmuGather.Free` | linux host/memory.c:202-209 | A table page is freed only while it is there, so never twice |
| `PageTables.CutDown` | linux host/memory.c:348-362 | Rounding floor and ceiling loses no table that can be freed, and admits none that cannot |
| `PageTables.TailDecides` | linux host/memory.c:228-242 | The tests after each loop, with 0 as top, hold exactly if the table page itself lies inside the bounds |
| `PageTables.AddrEndIs` | linux host/memory.c:219-226 | The next boundary in word arithmetic, or the end if that comes first |
| `PageTables.DoomSplit` | linux host/memory.c:211-310 | What is to be freed in two adjoining ranges that meet at a boundary is what is to be freed in each |
| `PageTables.StepKeeps` | linux host/memory.c:368-374 | What a walk has freed so far does not matter to the rest of it |
| `DirtyLog.NoDirtyPageIsLost` | qemu file/kvm-all.c:906-1103 | Over every run of guest writes, syncs, clears of any range with any ioctl failing, and sends, a page written since it was last sent is dirty in the kernel or in the migration's own set |
| `DirtyLog.PageComesClean` | qemu file/kvm-all.c:906-1103 | In every reachable state, a page of a section on page boundaries that is synced, cleared where the log is protected by hand, and sent is clean in the kernel, in QEMU's copy and in the migration's set |
| `DirtyLog.UnsentIsExact` | qemu file/kvm-all.c:906-928 | A page becomes unsent exactly when it is written, and is sent exactly when it is in the migration's set and, where the log is protected by hand, has been cleared |
| `DirtyLog.RequestIsExact` | qemu file/kvm-all.c:949-1010 | For a page range the request obeys the alignment rule of KVM_CLEAR_DIRTY_LOG and clears exactly the delivered bits of the range |
| `DirtyLog.ClearOneIsExact` | qemu file/kvm-all.c:935-1040 | For an aligned range, in bytes: the kernel loses exactly the delivered bits of the range, QEMU's copy exactly the range |
| `DirtyLog.ClearsOnlyDelivered` | qemu file/kvm-all.c:935-1040 | Whatever the alignment, no bit is cleared in the kernel that the last sync had not delivered or that was cleared since |
| `DirtyLog.SectionIsExact` | qemu file/kvm-all.c:1076-1094 | A section cut down to a slot is exactly the slot's part of it |
| `DirtyLog.MultiSlotClearIsExact` | qemu file/kvm-all.c:1053-1103 | A clear over many slots covers exactly the section's intersection with the slots |
| `DirtyLog.ClearStopsExactly` | qemu file/kvm-all.c:1053-1103 | If an ioctl fails, every slot before it has lost exactly the section, in its own slot QEMU has forgotten the section and the kernel has not, and the slots after it are untouched |
| `DirtyLog.ClearKeeps` | qemu file/kvm-all.c:1053-1103 | A clear keeps every unsent page dirty somewhere |
| `DirtyLog.NextKeeps` | qemu file/kvm-all.c:906-928 | Every step keeps every unsent page dirty somewhere |
| `DirtyLog.MemoryListener.LogClearOneSlot` | qemu file/kvm-all.c:935-1040 | The kernel's bits, QEMU's bits and the result are those of the specification |
| `DirtyLog.MemoryListener.PhysicalLogClear` | qemu file/kvm-all.c:1053-1103 | The walk over the slots, stopping at the first failure, ends in the specified state |
| `MemSlots.SlotTableStaysExact` | qemu file/kvm-all.c:1345-1453 | Over any sequence of commits that does not run out of slots, active slots are disjoint, their number is nr_used_slots, and they are exactly the chunks of the sections that were added as RAM, or as read-only memory where that is allowed and the device is in romd mode, and have not been removed since |
| `MemSlots.MemoryIsMapped` | qemu file/kvm-all.c:1355-1453 | Over the same runs, in addresses: a slot holds a guest address if and only if its page lies wholly inside such a section, and sends it to the host address where that section has it; no slot is larger than the largest allowed |
| `MemSlots.SlotsRunOutExactly` | qemu file/kvm-all.c:223-234 | A run of commits goes through exactly if after each of them there are slots for all that is then registered |
| `MemSlots.DeleteUndoesAdd` | qemu file/kvm-all.c:1379-1453 | Deleting a section right after adding it restores the active slots and their number |
| `MemSlots.AlignedIsExact` | qemu file/kvm-all.c:258-276 | The aligned part of a section is exactly the pages that lie wholly inside it |
| `MemSlots.ChunksTile` | qemu file/kvm-all.c:1430-1452 | Every address of a range is in exactly one chunk, which sends it where the section does |
| `MemSlots.AddChunksIs` | qemu file/kvm-all.c:1430-1452 | Adding registers exactly the chunks, and succeeds exactly if enough slots are free |
| `MemSlots.RemoveChunksIs` | qemu file/kvm-all.c:1379-1428 | Removing unregisters exactly the chunks of the range |
| `MemSlots.AddrFromHostInverts` | qemu file/kvm-all.c:278-297 | The lookup inverts the guest-to-host map when the host ranges of the slots are apart |
| `MemSlots.AddrFromHostFails` | qemu file/kvm-all.c:278-297 | The lookup fails exactly on host addresses outside every slot |
| `MemSlots.NeedInhibit` | qemu file/kvm-all.c:1602-1628 | The two-pointer scan over sorted lists answers whether any removed section has an address in common with any added one |
| `MemSlots.MemoryListener.GetFreeSlot` | qemu file/kvm-all.c:209-221 | The first unused slot, if there is one |
| `MemSlots.MemoryListener.LookupMatchingSlot` | qemu file/kvm-all.c:236-252 | The slot with exactly this range, if there is one |
| `MemSlots.MemoryListener.PhysicalAddrFromHost` | qemu file/kvm-all.c:278-297 | The loop over the slots answers as specified |
| `MemSlots.MemoryListener.SetPhys` | qemu file/kvm-all.c:1345-1453 | With both loops, in chunks of the largest slot size, it ends in the specified table, which SlotTableStaysExact and MemoryIsMapped give in terms of RAM, read-only memory and romd mode |
| `MemSlots.MemoryListener.RegionCommit` | qemu file/kvm-all.c:1590-1659 | A commit applies all removals, then all additions |
| `DirtyRing.ExactlyOnceInOrder` | qemu file/kvm-all.c:698-818 | Over any interleaving of kernel pushes, collecting and resetting, with rings of any power-of-two size, entries are collected once each in order across the index wrap-around, there is something to collect exactly while something is left, and every reset returns what was collected since the last |
| `DirtyRing.PagesAreThoseCollected` | qemu file/kvm-all.c:776-777 | Over any such interleaving, page o of slot s of address space a is marked if and only if there is such a page and some ring has collected the entry with a in the upper half of its slot field, s in the lower and offset o |
| `DirtyRing.StepsTakeEffect` | qemu file/kvm-all.c:753-818 | In every reachable state a push adds its entry while fewer than a ring's worth are out, a collect takes the next one if there is one, and a reset hands back all that was collected |
| `DirtyRing.WrapIsConsistent` | qemu file/kvm-all.c:753-787 | Ring positions stay consistent when the index wraps at 2^32 if and only if the ring size divides 2^32 |
| `DirtyRing.CanCollectIs` | qemu file/kvm-all.c:719-726 | There is something to collect exactly while something pushed has not been collected |
| `DirtyRing.ResetOk` | qemu file/kvm-all.c:790-818 | The reset takes back exactly what has been collected |
| `DirtyRing.ResetAllOk` | qemu file/kvm-all.c:790-818 | Over all rings the reset returns the number of collected entries |
| `DirtyRing.Reaper.ReapOne` | qemu file/kvm-all.c:753-787 | With the kernel pushing before any of its rounds, the loop ends when everything that has come has been collected; the ring is that of so many pushes and collections in turn, and the bitmap gains exactly the pages, by address space, slot and offset, that the collected entries name and that are there |
| `IrqRoutes.AllocatorIsExact` | qemu file/kvm-all.c:1915-2091 | From any fixed routes, over any run of adds, updates and releases of virqs so obtained, the routes are the fixed ones and exactly one for each live virq, the bitmap shows exactly the GSIs with a route, and the count stays within the array |
| `IrqRoutes.NeverHandedOutTwice` | qemu file/kvm-all.c:2013-2091 | No virq is handed out that is live or belongs to a fixed route |
| `IrqRoutes.AddSucceedsExactly` | qemu file/kvm-all.c:2039-2091 | Over every run an add succeeds if and only if the architecture accepts the message and the fixed routes and live virqs are fewer than the GSIs, that is, some GSI is free and the table is not full; the lowest free GSI is handed out |
| `IrqRoutes.LiveStepsTakeEffect` | qemu file/kvm-all.c:1939-1996 | In every reachable state releasing a live virq removes its route and no other and frees its GSI, and updating it replaces its route and no other |
| `IrqRoutes.ReleaseClearsAll` | qemu file/kvm-all.c:1977-1996 | After kvm_irqchip_release_virq no route of the interrupt is left if and only if its last route lies at least as many places before the end of the table as it has routes |
| `IrqRoutes.ReleaseCanMiss` | qemu file/kvm-all.c:1982-1992 | Two routes of one interrupt at the end of the table: one is left, because the loop does not look again at the route it has moved into a hole |
| `IrqRoutes.ReleaseOnly` | qemu file/kvm-all.c:1982-1992 | A route that is the only one of its interrupt is removed, and no other |
| `IrqRoutes.UpdateOnly` | qemu file/kvm-all.c:1939-1961 | An update replaces exactly the one route of its interrupt |
| `IrqRoutes.LowestUnused` | qemu file/kvm-all.c:2013-2024 | The lowest GSI that the bitmap shows as unused |
| `IrqRoutes.RouteTable.AddRoutingEntry` | qemu file/kvm-all.c:1915-1937 | The route is appended, the array grown when full, and the GSI marked |
| `IrqRoutes.RouteTable.IrqchipReleaseVirq` | qemu file/kvm-all.c:1977-1996 | The swap-with-last loop in place ends in the specified table |
| `IrqRoutes.RouteTable.AddMsiRouteFor` | qemu file/kvm-all.c:2039-2091 | Adding an MSI route in place, its failures included, ends in the specified table and result |
| `IrqRoutes.RouteTable.GetVirq` | qemu file/kvm-all.c:2013-2024 | The scan of the bitmap finds the lowest unused GSI |
| `RdbFile.WholeFileRoundTrip` | redis/rdb.c:1573-1611 | Provided nothing has expired, what rdbSaveRio writes, checksummed or not, is loaded, and the loaded databases, keys, values, expire times and usage are exactly the saved ones if and only if no hash field expires at time 0 |
| `RdbFile.FileParses` | redis/rdb.c:3457-3845 | Loading a saved file gives exactly the databases made of the saved items one by one, also with hash fields that expire at time 0 |
| `RdbTrace.AttributesDoNotLeak` | redis/rdb.c:3485-3804 | On any file that loads, also into databases that hold something already: what is found under a key is what the last record gave that was read while this database was selected, was not empty and had not expired, or else what was there before; its attributes are those given between the record before it, skipped or not, and this one |
| `RdbTrace.EntriesHaveRecords` | redis/rdb.c:3685-3791 | So every entry comes from a record of its own key, with the last expire time, frequency and idle time since the record before |
| `RdbTrace.LoopFollows` | redis/rdb.c:3485-3804 | Round by round the loader, wherever it started, is in the state that the opcodes read so far call for |
| `RdbTrace.EndFollows` | redis/rdb.c:3485-3804 | Whatever state the loader is in, a load that comes to an end comes to the end that the bytes alone have |
| `RdbRefusals.LoadsExactly` | redis/rdb.c:3466-3821 | What loads, on any file and into any databases, told from the bytes: exactly a file that starts with REDIS and a version from 1 to 12, whose opcodes can be read up to an end, select databases that exist, and add no key that is there already, from before or from an earlier record, unless duplicates are allowed; and from version 5 on eight bytes follow the end, which are 0 or the checksum of all that comes before them if checksums are in use |
| `RdbRefusals.LoopIs` | redis/rdb.c:3485-3804 | From any point on, the loop comes to an end exactly if the bytes have one and every opcode up to there is accepted |
| `RdbRefusals.SavedBodyNeedsItsSum` | redis/rdb.c:3806-3821 | A saved file with its last bytes replaced loads exactly if at least eight follow and the first eight are all 0 or the checksum of the body, or checksums are not in use |
| `RdbRefusals.VersionIs` | redis/rdb.c:3466-3480 | The version is the decimal after blanks and a sign, whatever follows it |
| `RdbAccepts.SetExactly` | redis/rdb.c:2090-2186 | On any bytes a set is skipped exactly if its length is 0, and loads exactly if its members can be read and no two are the same; it then holds them |
| `RdbAccepts.ZsetExactly` | redis/rdb.c:2189-2257 | On any bytes a sorted set loads exactly if it is not empty, members and scores can be read, no score is NaN and no two members are the same; it then holds those scores |
| `RdbAccepts.ListExactly` | redis/rdb.c:2552-2620 | On any bytes a list loads exactly if its nodes can be read, are plain or packed, not empty and sound, and some node holds something; it then holds those nodes in order |
| `RdbAccepts.HashExactly` | redis/rdb.c:2259-2470 | On any bytes a hash loads exactly if its minimum is a 48-bit time or none, its fields can be read, no expire time takes more than 48 bits and no two names are the same; it then holds the fields with the expire times that minimum and TTL add up to |
| `RdbAccepts.PackedExactly` | redis/rdb.c:2627-2700 | On any bytes a packed encoding is refused unless it is sound, and skipped exactly if it holds nothing |
| `RdbAccepts.StreamExactly` | redis/rdb.c:2902-3208 | On any bytes a stream loads exactly if its listpacks can be read, have IDs of 16 bytes that differ, are sound and not empty, one is there unless the length is 0, and its groups can be read, are sound and have different names |
| `RdbAccepts.GroupExactly` | redis/rdb.c:3018-3208 | On any bytes a consumer group loads exactly if it can be read, its name is new, the IDs of its global list differ, its consumers differ, each consumer's IDs differ and are in the global list, and under deep validation each global ID is some consumer's |
| `RdbAccepts.ConsumersExactly` | redis/rdb.c:3107-3190 | The consumers load exactly if they can be read, are sound and have different names, and are then built from what was read |
| `RdbAccepts.EntriesExactly` | redis/rdb.c:3076-3105 | The global list loads exactly if its entries can be read and no two have the same ID; each then has a NACK of its own with its time and count, owned by nobody |
| `RdbAccepts.AllOwnedExactly` | redis/rdb.c:3192-3208 | Deep validation passes exactly if every ID of the global list is in some consumer's |
| `RdbAccepts.LzfHasItsLength` | redis/rdb.c:382-435 | A compressed string loads exactly if its bytes are there and decompress to the length announced |
| `RdbForms.LenIsShortest` | redis/rdb.c:156-187 | No other bytes that are read as the same length are fewer |
| `RdbForms.StringForm` | redis/rdb.c:439-469 | A 32-bit integer in decimal takes two, three or five bytes; another string is compressed exactly if that is switched on, it has more than twenty bytes and becomes at least four shorter; the rest are written as they are |
| `RdbForms.HashForm` | redis/rdb.c:968-1000 | A hash is saved with TTLs exactly if one of its fields expires |
| `RdbForms.DbSaysItsSize` | redis/rdb.c:1418-1450 | A database that has keys starts with its number, the number of its keys and the number of those that expire |
| `RdbForms.SecondsLoop` | redis/rdb.c:3496-3505 | An expire time in seconds, as old files have it, is taken as milliseconds |
| `RdbFile.ItemLoop` | redis/rdb.c:1195-1235 | The loader takes a written key back with its expire time, usage, type and value |
| `RdbFile.DbLoop` | redis/rdb.c:1418-1500 | The loader takes a written database back; an empty one leaves no trace |
| `RdbFile.RecordLoop` | redis/rdb.c:3709-3791 | A type, key and value are read back into the current database |
| `RdbFile.ExpireLoop` | redis/rdb.c:1199-1204 | The expire opcode is read back as the key's expire time |
| `RdbFile.UsageLoop` | redis/rdb.c:1206-1224 | The LRU and LFU opcodes are read back as the key's usage |
| `RdbFile.AuxLoop` | redis/rdb.c:1238-1247 | Informational fields are skipped |
| `RdbTruncated.TruncatedNeverLoads` | redis/rdb.c:3485-3845 | No proper beginning of any saved file loads, with or without checksums: also with keys that have expired or come twice, and databases the loader does not have |
| `RdbTruncated.FileEnds` | redis/rdb.c:1573-1611 | Read opcode by opcode, a saved file ends where its checksum starts if all its slot information can be told from an error, and has no end otherwise |
| `RdbTruncated.LoopExt` | redis/rdb.c:3485-3804 | A load that reaches the end of a stream reaches the same end whatever follows |
| `RdbTruncated.ObjectExt` | redis/rdb.c:2045-3281 | A value that is read without running out is read the same whatever follows |
| `RdbObjects.ObjectRoundTrip` | redis/rdb.c:834-1180 | A saved value is loaded back and exactly its bytes are used |
| `RdbObjects.ObjectMeans` | redis/rdb.c:2045-3281 | What is loaded is what the value means |
| `RdbObjects.HashExpirySurvives` | redis/rdb.c:2433-2464 | Field expiry times survive saving and loading if and only if no field expires at time 0 |
| `RdbObjects.FieldsRoundTrip` | redis/rdb.c:1003-1040 | Fields with TTLs relative to the earliest, or without, are read back |
| `RdbObjects.TtlInverts` | redis/rdb.c:1008-1013 | The TTL written for a field gives its expire time back from the minimum, in 64-bit arithmetic |
| `RdbObjects.HashRoundTrip` | redis/rdb.c:2259-2470 | A hash with or without field TTLs comes back |
| `RdbObjects.ListRoundTrip` | redis/rdb.c:2552-2620 | A list of plain and packed nodes, compressed or not, comes back node by node |
| `RdbObjects.NodesRoundTrip` | redis/rdb.c:846-863 | The nodes are read back in order |
| `RdbObjects.SetRoundTrip` | redis/rdb.c:2090-2186 | A set comes back with exactly its members |
| `RdbObjects.MembersRoundTrip` | redis/rdb.c:878-900 | Distinct members are read back, and only they |
| `RdbObjects.ZsetRoundTrip` | redis/rdb.c:2189-2257 | A sorted set comes back with exactly its members and scores |
| `RdbObjects.ElemsRoundTrip` | redis/rdb.c:921-945 | Members and scores, written from the greatest to the smallest, are read back bit for bit |
| `RdbObjects.PackedRoundTrip` | redis/rdb.c:2627-2700 | A packed encoding comes back as the same bytes |
| `RdbObjects.StreamParses` | redis/rdb.c:1041-1149 | A stream's listpacks, counters and groups are read back |
| `RdbObjects.StreamRoundTrip` | redis/rdb.c:2902-3208 | A stream comes back whole |
| `RdbStream.GroupRoundTrip` | redis/rdb.c:3018-3208 | Saving and loading a consumer group rebuilds it, each NACK shared between the global list and its owner's, with or without deep validation and whatever 64-bit values its counters have |
| `RdbStream.BuildGroupIs` | redis/rdb.c:3071-3190 | What loading builds has exactly the group's entries, owners and times, each entry one object in both lists |
| `RdbStream.GroupParses` | redis/rdb.c:1100-1149 | A written group is read back into that object graph |
| `RdbStream.DeepValidationGivesOwners` | redis/rdb.c:3192-3208 | On any input, a group that loads under deep validation has an owner for each global entry, whose list holds the same NACK |
| `RdbStream.EntriesRoundTrip` | redis/rdb.c:739-778 | The global list is read back with its NACKs, unowned |
| `RdbStream.OwnedRoundTrip` | redis/rdb.c:3151-3189 | A consumer's list is read back as references to the global NACKs |
| `RdbStream.ConsumersRoundTrip` | redis/rdb.c:783-830 | All consumers are read back |
| `RdbStrings.LenByRefRoundTrip` | redis/rdb.c:156-233 | Every 64-bit length comes back and exactly its bytes are used |
| `RdbStrings.LenRoundTrip` | redis/rdb.c:239-244 | Through rdbLoadLen a length can be told from an error if and only if it is not UINT64_MAX |
| `RdbStrings.StringRoundTrip` | redis/rdb.c:439-583 | A string comes back in integer, LZF or verbatim form, and exactly the bytes written are used |
| `RdbStrings.StrRoundTrip` | redis/rdb.c:472-500 | A string object, raw or integer-encoded, comes back as its text |
| `RdbStrings.IntegerRoundTrip` | redis/rdb.c:250-322 | An encoded 8, 16 or 32-bit integer comes back as its decimal |
| `RdbStrings.LzfRoundTrip` | redis/rdb.c:336-435 | A compressed string comes back, given that decompression inverts compression |
| `RdbStrings.ParseInverts` | redis/rdb.c:327-334 | Of a 64-bit integer's decimal the integer is parsed |
| `RdbBytes.TimeRoundTrip` | redis/rdb.c:124-151 | Every signed 64-bit time comes back |
| `RdbWriter.EncodeInto` | redis/rdb.c:250-270 | The bytes put into the buffer by shifting are the integer's two's complement form |
| `RdbWriter.ShiftsAreTwosComplement` | redis/rdb.c:250-270 | Low bytes taken off by shifting a negative number are those of its two's complement |
| `RdbWriter.Advance` | redis/rdb.c:336-359 | After a failed write the stream holds exactly as much of the whole as fitted |
| `RdbWriter.Writer.WriteLen` | redis/rdb.c:156-187 | Exactly the encoding of a length is appended and its size returned; when there is no room, -1 is returned and as much as fitted is there |
| `RdbWriter.Writer.WriteString` | redis/rdb.c:439-469 | Exactly a string, as an integer, compressed or verbatim, is appended and its size returned; when there is no room, -1 is returned and as much as fitted is there |
| `RdbWriter.Writer.WriteStr` | redis/rdb.c:472-500 | Exactly a string object, raw or integer-encoded, is appended and its size returned; when there is no room, -1 is returned and as much as fitted is there |
| `RdbWriter.Writer.WriteLzfBlob` | redis/rdb.c:336-359 | Exactly a compressed blob is appended and its size returned; when there is no room, -1 is returned and as much as fitted is there |
| `RdbWriter.Writer.WritePel` | redis/rdb.c:739-778 | Exactly a pending list, with or without NACKs, is appended and its size returned; when there is no room, -1 is returned and as much as fitted is there |
| `RdbWriter.Writer.WriteConsumers` | redis/rdb.c:783-830 | Exactly the consumers of a group, counted, are appended and its size returned; when there is no room, -1 is returned and as much as fitted is there |
| `RdbWriter.Writer.WriteGroup` | redis/rdb.c:1100-1149 | Exactly a consumer group is appended and its size returned; when there is no room, -1 is returned and as much as fitted is there |
| `RdbWriter.Writer.WriteStream` | redis/rdb.c:1041-1149 | Exactly a stream is appended and its size returned; when there is no room, -1 is returned and as much as fitted is there |
| `RdbWriter.Writer.WriteNodes` | redis/rdb.c:841-863 | Exactly a list, node by node, is appended and its size returned; when there is no room, -1 is returned and as much as fitted is there |
| `RdbWriter.Writer.WriteMembers` | redis/rdb.c:878-900 | Exactly a set is appended and its size returned; when there is no room, -1 is returned and as much as fitted is there |
| `RdbWriter.Writer.WriteElems` | redis/rdb.c:921-945 | Exactly a sorted set, walked backward, is appended and its size returned; when there is no room, -1 is returned and as much as fitted is there |
| `RdbWriter.Writer.WriteFields` | redis/rdb.c:994-1038 | Exactly the fields of a hash, counted, are appended and its size returned; when there is no room, -1 is returned and as much as fitted is there |
| `RdbWriter.Writer.WriteHash` | redis/rdb.c:968-1038 | The bytes of a hash are appended; the earliest expire time is not counted in the result |
| `RdbWriter.Writer.WriteObject` | redis/rdb.c:834-1180 | The bytes of a value are appended; the result is the number of bytes written if and only if the value is not a hash that carries an earliest expire time |
| `RdbWriter.Writer.WriteItem` | redis/rdb.c:1195-1235 | A key with its attributes is appended and counted as 1, after its slot information in bytes; or -1 is returned and as much as fitted is there |
| `RdbWriter.Writer.WriteDb` | redis/rdb.c:1418-1563 | A database is appended, or what fitted and -1; the count returned is the number of bytes written if and only if the database is empty |
| `RdbWriter.Writer.WriteFile` | redis/rdb.c:1573-1611 | The whole file is written exactly if there is room for it; otherwise a proper beginning of it and a failure |
| `RdbReload.SaveAndReload` | redis/rdb.c:1573-1611 | End to end: a save is a success exactly if the whole file fitted, then loading the stream brings every database back, unless a hash field expires at time 0; what a failed save has left is refused |
| `RdbReader.Loader.ReadLenByRef` | redis/rdb.c:199-233 | On any input: what is read as a length or encoding, whether it fails, and where the stream is left are those of the format |
| `RdbReader.Loader.ReadString` | redis/rdb.c:517-583 | On any input: what is read as a string in any form, whether it fails, and where the stream is left are those of the format |
| `RdbReader.Loader.ReadInteger` | redis/rdb.c:275-322 | On any input: what is read as an encoded integer, whether it fails, and where the stream is left are those of the format |
| `RdbReader.Loader.ReadLzf` | redis/rdb.c:382-435 | On any input: what is read as a compressed string, whether it fails, and where the stream is left are those of the format |
| `RdbReader.Loader.ReadNodes` | redis/rdb.c:2552-2620 | On any input: what is read as a list's nodes, whether it fails, and where the stream is left are those of the format |
| `RdbReader.Loader.ReadMembers` | redis/rdb.c:2090-2186 | On any input: what is read as a set's members, whether it fails, and where the stream is left are those of the format |
| `RdbReader.Loader.ReadElems` | redis/rdb.c:2189-2257 | On any input: what is read as a sorted set's elements, whether it fails, and where the stream is left are those of the format |
| `RdbReader.Loader.ReadFields` | redis/rdb.c:2356-2470 | On any input: what is read as a hash's fields with their expire times, whether it fails, and where the stream is left are those of the format |
| `RdbReader.Loader.ReadEntries` | redis/rdb.c:3076-3105 | On any input: what is read as a group's pending list, whether it fails, and where the stream is left are those of the format |
| `RdbReader.Loader.ReadOwned` | redis/rdb.c:3151-3189 | On any input: what is read as a consumer's list, its NACKs looked up in the group's, whether it fails, and where the stream is left are those of the format |
| `RdbReader.Loader.ReadConsumers` | redis/rdb.c:3107-3190 | On any input: what is read as a group's consumers, whether it fails, and where the stream is left are those of the format |
| `RdbReader.Loader.CheckOwned` | redis/rdb.c:3192-3208 | The walk over the global list finds out whether every entry has an owner |
| `RdbReader.Loader.ReadGroup` | redis/rdb.c:3018-3208 | On any input: what is read as a consumer group, whether it fails, and where the stream is left are those of the format |
| `RdbReader.Loader.ReadStream` | redis/rdb.c:2902-3208 | On any input: what is read as a stream, whether it fails, and where the stream is left are those of the format |
| `RdbReader.Loader.ReadObject` | redis/rdb.c:2045-3281 | On any input: what is read as a value of any type that is written today, whether it fails, and where the stream is left are those of the format |
| `RdbReader.Loader.AddKey` | redis/rdb.c:3745-3760 | A key is added unless it is there already and duplicates are not allowed |
| `RdbReader.Loader.ReadRecord` | redis/rdb.c:3685-3791 | A record is added, skipped because it is empty or has expired, or refused, as specified |
| `RdbReader.Loader.ReadAll` | redis/rdb.c:3485-3804 | The loop over opcodes ends in the specified databases or fails where the specification does |
| `RdbReader.Loader.ReadFile` | redis/rdb.c:3457-3845 | Signature, version, contents and checksum are accepted exactly as specified, which LoadsExactly puts in terms of the bytes |

## Left out

Contracts that say less than one might expect:

- TlbBatch.NoFlushIsLost: assumes that at most 16383 records are made between a flusher's read and its exchange and that at most 16384 recorders are at work at once; the two runs one step beyond show that the code relies on both.
- DirtyLog.NoDirtyPageIsLost: what was delivered counts as sent only after its clear; the migration that reads a page before clearing it is not part of this model.
- DirtyLog.ClearOneIsExact: for ranges on page boundaries, as sections are; for other ranges ClearsOnlyDelivered still holds.
- MemSlots.SlotTableStaysExact: for commits that remove sections as they were added and add sections apart from those that stay, as the memory core does, and that do not run out of slots, where kvm_set_phys_mem aborts. Addresses are unbounded: a section that ends at 2^64 does not wrap.
- DirtyRing.ExactlyOnceInOrder: the kernel pushes while the ring has room; its soft limit, at which vCPUs exit, is not modelled.
- RdbFile.WholeFileRoundTrip: for keys that are distinct in their database, non-empty collections, scores that are not NaN and nothing expired at load; the informational fields are skipped.
- RdbObjects.ZsetRoundTrip: a sorted set is loaded as a map from members to scores; its order is a function of that map.
- RdbReader.Loader.ReadFields: a small hash loaded without deep validation accepts a repeated field, and an earliest expire time beyond 48 bits is only reported; both are failures here.
- RdbReader.Loader.ReadObject: the same, for the small hashes among the values.
- PrivateMemoryRefinement.PrivateMemoryHolds: fork is one event for each page, at the moment its entry is copied, as other threads of the parent may go on writing meanwhile; that the loop copies a whole range is stated by AnonMemory.Memory.CopyPteRange.
- PrivateMemoryAccounting.AbortedUnmapCanLosePage: a direct call of try_to_unmap_one; no run of the machine unmaps a page that has no slot.
- PrivateMemoryAccess.AccessIsExact: soft-dirty tracking and userfaultfd write protection, which can withhold write access for a while, are not modelled; the vma's permission is a parameter of the step.
- PrivateMemoryProgress.SwapsOut: for a page that nothing but its one mapping refers to, with nothing in between; what happens in between is covered by the laws over every run.
- RdbAccepts.HashExactly: like ReadFields, it refuses a repeated field whatever the validation.
- AnonMemory.Memory.CopyPteRange: entry by entry; batches of adjacent entries, the lock breaks and the retry after an allocation are not in the loop.
- AnonMemory.Memory.ZapPteRange: entry by entry; batches of adjacent entries, the lock breaks and the forced flush are not in the loop.
- AnonVmaReuse.DynastyStaysSmall: for processes with one vma, each forking until one fork succeeds and then exiting.
- ReverseMap.WalkFindsAll: what a vma covers is given, and that an entry lies in its own vma is assumed.
- DirtyRing.Reaper.ReapOne: the kernel pushes between rounds, not between the test of an entry and its marking; a vCPU that is still being created, whose ring is skipped, is not modelled.
- PageTableLifetime.TablesFollowVmas: the callers that pass the bounds, unmap_region and exit_mmap, are in mm/mmap.c, which is not part of this model's sources.
- JointRun.JointHolds: that a vma which gets its first page has an anon_vma, and that entries are copied from the vma that was forked, is what the callers see to; where an address lies in which vma is given.
- IrqRoutes.AllocatorIsExact: for routes with one entry per virq; the notifier calls and the commit ioctl are left out.

What the code does and the model does not:

- Large folios in the copy-on-write machine, KSM, hugetlb, userfaultfd, device-private and migration entries, NUMA hints, MADV_FREE and VM_DROPPABLE, hardware poison and memory cgroups.
- mprotect and mremap: a vma's protection is a parameter of each fault.
- TLB contents in the copy-on-write machine: clearing an entry and flushing it are one step there; TlbBatch treats deferred flushes on their own.
- Memory ordering and RCU: steps are atomic and sequentially consistent; a step is what one holder of the page-table lock does.
- Page reclaim, swap-out I/O and the swap allocator are environment steps of the machine: a page enters the swap cache with a fresh slot, is written with contents that are arbitrary if it changed meanwhile, and leaves when it is clean, unmapped and unused.
- folio_free_swap, swap_duplicate, swap_free, folio_try_dup_anon_rmap_pte and folio_try_share_anon_rmap_pte are not in these files: they are modelled by what their callers rely on. The check for a possibly pinned page may also answer yes for a page that is not pinned.
- Merging of vmas: ReverseMap splits vmas and drops them, and AnonVma takes find_mergeable_anon_vma to return nothing or the anon_vma of a neighbour with a single link.
- AnonVmaObjects keeps objects in maps from identifiers, with lists as sequences; pointers that alias within one object are not modelled.
- Batching of adjacent entries in fork and zap (nr greater than 1), the lock breaks of the two loops and the mmu_gather's own batches: an entry is one round.
- copy_pte_range as AnonMemory.CopyPteRange stops where it must allocate; the retry loop around it is the caller's next call.
- Page tables of huge-page vmas in free_pgtables, and more or fewer than four levels below the PGD.
- The swap-logging, address-logging and progress-file instrumentation of memory.c, rmap.c and rdb.c, and all plotting, sampling and injection scripts: logging and I/O.
- kvm-all.c's vCPU run loops, capability probing and statistics; the sync of dirty bits when a slot is removed; the bitmap copy is taken to copy exactly the given number of bits.
- rdb.h is not part of this model's sources: length kinds, type numbers, opcodes and the version are those of the RDB format, version 12.
- LZF, the integrity checks and entry counts of listpacks and intsets, and the checksum are parameters; of LZF only that decompression inverts compression is assumed. Dicts and radix trees are sequences when saved and maps when loaded.
- RDB modules, functions, legacy ziplist, zipmap and older stream formats, replication sockets, child processes, and the conversion of encodings by size at load.
