/** Clearing the dirty log: how a byte range is widened to what the kernel interface accepts
    without clearing a bit that has not been delivered, for one slot, for a section over many
    slots, and over whole runs. */
module DirtyLog {
  import opened Arithmetic

  /** KVM_CLEAR_LOG_SHIFT is 6: ranges are multiples of 64 pages. */
  const CHUNK := 64

  /** A memory slot; dirtyBmap and kernel are the pages whose bits are set in QEMU's copy of the
      dirty log and in the kernel's own. */
  datatype Slot = Slot(startAddr: nat, memorySize: nat, dirtyBmap: set<nat>, kernel: set<nat>)

  /** The arguments of KVM_CLEAR_DIRTY_LOG; bits are relative to first. */
  datatype Request = Request(first: nat, num: nat, bits: set<nat>)

  function DivRoundUp(x: nat, d: nat): nat
    requires d > 0
  {
    Div(x + d - 1, d)
  }

  // ----------------------------------------------------------- bitmap helpers

  /** bitmap_copy_with_src_offset: exactly nbits bits from offset on. */
  function CopyFrom(src: set<nat>, offset: nat, nbits: nat): set<nat> {
    set i: nat | i < nbits && TestBit(src, offset, i)
  }

  predicate TestBit(b: set<nat>, offset: nat, i: nat) {
    offset + i in b
  }

  /** bitmap_clear. */
  function ClearBits(b: set<nat>, from: nat, n: nat): set<nat> {
    set i | i in b && !(from <= i < from + n)
  }

  // -------------------------------------------------------------- the kernel

  /** KVM API document, section 4.117: the start is a multiple of 64 pages, and so is the length
      unless the range ends with the slot. */
  predicate Accepted(r: Request, npages: nat) {
    && r.first % CHUNK == 0
    && r.first + r.num <= npages
    && (r.num % CHUNK == 0 || r.first + r.num == npages)
  }

  /** The kernel clears the bits that the request names. */
  function KernelClear(kernel: set<nat>, r: Request): set<nat> {
    set p | p in kernel && !(r.first <= p < r.first + r.num && p - r.first in r.bits)
  }

  // ------------------------------------------------------------ one slot

  /** The request that kvm_log_clear_one_slot makes for [start, start + size) of a slot. */
  function ClearRequest(mem: Slot, psize: nat, start: nat, size: nat): Request
    requires psize > 0 && start < mem.memorySize
  {
    var unit := CHUNK * psize;
    var alignedStart := RoundDown(start, unit);
    var deltaBytes := start - alignedStart;
    var first := Div(alignedStart, psize);
    var wanted := DivRoundUp(size + deltaBytes, unit) * CHUNK;
    var end := Div(mem.memorySize, psize);
    DivMono(alignedStart, mem.memorySize, psize);
    var num := if wanted > end - first then end - first else wanted;
    var delta := Div(deltaBytes, psize);
    if delta != 0 || num != Div(size, psize) then
      var copy := CopyFrom(mem.dirtyBmap, first, delta + Div(size, psize));
      Request(first, num, ClearBits(copy, 0, delta))
    else Request(first, num, CopyFrom(mem.dirtyBmap, first, num))
  }

  /** kvm_log_clear_one_slot; QEMU's own bits are cleared even if the ioctl fails. */
  function ClearOne(mem: Slot, psize: nat, start: nat, size: nat, ok: bool): Slot
    requires psize > 0 && start < mem.memorySize
  {
    var r := ClearRequest(mem, psize, start, size);
    var delta := Div(start - RoundDown(start, CHUNK * psize), psize);
    mem.(kernel := if ok then KernelClear(mem.kernel, r) else mem.kernel,
         dirtyBmap := ClearBits(mem.dirtyBmap, r.first + delta, Div(size, psize)))
  }

  /** The request in pages. */
  function PageRequest(bmap: set<nat>, end: nat, s: nat, n: nat): Request
    requires s <= end
  {
    var first, delta := s - s % CHUNK, s % CHUNK;
    var wanted := DivRoundUp(n + delta, CHUNK) * CHUNK;
    var num := if wanted > end - first then end - first else wanted;
    if delta != 0 || num != n then Request(first, num, ClearBits(CopyFrom(bmap, first, delta + n), 0, delta))
    else Request(first, num, CopyFrom(bmap, first, num))
  }

  lemma RoundUpInPages(x: nat, psize: nat)
    requires psize > 0
    ensures CHUNK * psize > 0 && DivRoundUp(x * psize, CHUNK * psize) == DivRoundUp(x, CHUNK)
  {
    UnitQuotient(x + CHUNK - 1, CHUNK, psize, psize - 1);
    assert x * psize + CHUNK * psize - 1 == (x + CHUNK - 1) * psize + (psize - 1);
  }

  /** For page-aligned ranges the byte computations come to whole pages. */
  lemma InPages(mem: Slot, psize: nat, s: nat, n: nat, end: nat)
    requires psize > 0 && s < end && mem.memorySize == end * psize && s * psize < mem.memorySize
    ensures ClearRequest(mem, psize, s * psize, n * psize) == PageRequest(mem.dirtyBmap, end, s, n)
    ensures var r := ClearRequest(mem, psize, s * psize, n * psize);
      && r.first + Div(s * psize - RoundDown(s * psize, CHUNK * psize), psize) == s
      && Div(n * psize, psize) == n
  {
    hide DivRoundUp, CopyFrom, ClearBits;
    UnitRemainder(s, CHUNK, psize);
    var delta := s % CHUNK;
    WholeUnits(delta, psize);
    WholeUnits(s - delta, psize);
    assert s * psize - delta * psize == (s - delta) * psize;
    WholeUnits(n, psize);
    WholeUnits(end, psize);
    RoundUpInPages(n + delta, psize);
    assert n * psize + delta * psize == (n + delta) * psize;
  }

  /** What the kernel is asked for is acceptable, and what it clears are exactly the delivered bits
      of the range. */
  lemma RequestIsExact(bmap: set<nat>, kernel: set<nat>, end: nat, s: nat, n: nat)
    requires 0 < n && s + n <= end
    ensures
      var r := PageRequest(bmap, end, s, n);
      && Accepted(r, end)
      && (forall p :: p in KernelClear(kernel, r) <==> p in kernel && !(p in bmap && s <= p < s + n))
  {
    var r := PageRequest(bmap, end, s, n);
    Rounded(n + s % CHUNK);
    forall p | r.first <= p < r.first + r.num ensures p - r.first in r.bits <==> p in bmap && s <= p < s + n {
      assert TestBit(bmap, r.first, p - r.first) <==> p in bmap;
    }
  }

  lemma Rounded(x: nat)
    ensures var w := DivRoundUp(x, CHUNK) * CHUNK; w % CHUNK == 0 && x <= w < x + CHUNK
  {
  }

  /** kvm_log_clear_one_slot for a page-aligned range: the request obeys the kernel's alignment
      rule, only bits that the last sync delivered are cleared in the kernel, all of those in the
      range are, and QEMU's copy forgets exactly the range. */
  lemma ClearOneIsExact(mem: Slot, psize: nat, s: nat, n: nat, end: nat, ok: bool)
    requires psize > 0 && 0 < n && s + n <= end && mem.memorySize == end * psize
    ensures s * psize < mem.memorySize
    ensures Accepted(ClearRequest(mem, psize, s * psize, n * psize), end)
    ensures
      var mem' := ClearOne(mem, psize, s * psize, n * psize, ok);
      && mem'.startAddr == mem.startAddr && mem'.memorySize == mem.memorySize
      && (forall p :: p in mem'.kernel <==> p in mem.kernel && !(ok && p in mem.dirtyBmap && s <= p < s + n))
      && (forall p :: p in mem'.dirtyBmap <==> p in mem.dirtyBmap && !(s <= p < s + n))
  {
    LessProduct(s, end, psize);
    InPages(mem, psize, s, n, end);
    RequestIsExact(mem.dirtyBmap, mem.kernel, end, s, n);
    hide ClearRequest, PageRequest;
  }

  /** Whatever the alignment, no bit is cleared in the kernel that was not in QEMU's copy. */
  lemma ClearsOnlyDelivered(mem: Slot, psize: nat, start: nat, size: nat, ok: bool)
    requires psize > 0 && start < mem.memorySize
    ensures
      var mem' := ClearOne(mem, psize, start, size, ok);
      && (forall p :: p in mem'.dirtyBmap ==> p in mem.dirtyBmap)
      && (forall p :: p in mem'.kernel ==> p in mem.kernel)
      && (forall p :: p in mem.kernel && p !in mem'.kernel ==> p in mem.dirtyBmap)
  {
    var r := ClearRequest(mem, psize, start, size);
    forall i | i in r.bits ensures r.first + i in mem.dirtyBmap { assert TestBit(mem.dirtyBmap, r.first, i); }
    hide ClearRequest;
    forall p | p in mem.kernel && r.first <= p && p - r.first in r.bits ensures p in mem.dirtyBmap {
      assert r.first + (p - r.first) == p;
    }
  }

  // ------------------------------------------------------------- many slots

  predicate Overlaps(mem: Slot, start: nat, size: nat)
    requires size > 0
  {
    && mem.memorySize != 0
    && mem.startAddr <= start + size - 1
    && start <= mem.startAddr + mem.memorySize - 1
  }

  function Min(x: nat, y: nat): nat {
    if x < y then x else y
  }

  function Offset(mem: Slot, start: nat): nat {
    if start >= mem.startAddr then start - mem.startAddr else 0
  }

  function Count(mem: Slot, start: nat, size: nat): nat
    requires size > 0 && Overlaps(mem, start, size)
  {
    if start >= mem.startAddr then Min(mem.memorySize - (start - mem.startAddr), size)
    else Min(mem.memorySize, size - (mem.startAddr - start))
  }

  /** kvm_physical_log_clear from slot i on; fails names the slots whose ioctl fails. */
  function ClearFrom(slots: seq<Slot>, i: nat, psize: nat, start: nat, size: nat, fails: set<nat>): (r: seq<Slot>)
    requires psize > 0 && size > 0
    ensures |r| == |slots|
    decreases |slots| - i
  {
    if i >= |slots| then slots
    else if !Overlaps(slots[i], start, size) then ClearFrom(slots, i + 1, psize, start, size, fails)
    else
      var mem := ClearOne(slots[i], psize, Offset(slots[i], start), Count(slots[i], start, size), i !in fails);
      if i in fails then slots[i := mem] else ClearFrom(slots[i := mem], i + 1, psize, start, size, fails)
  }

  /** Everything lies on page boundaries. */
  ghost predicate OnPages(mem: Slot, psize: nat)
    requires psize > 0
  {
    && mem.startAddr == mem.startAddr / psize * psize
    && mem.memorySize == mem.memorySize / psize * psize
  }

  /** Page p of a slot is in the section. */
  predicate InSection(mem: Slot, psize: nat, start: nat, size: nat, p: nat) {
    && p * psize < mem.memorySize
    && start <= mem.startAddr + p * psize < start + size
  }

  /** One slot after the call: exactly the pages of the section are forgotten, and those of them
      that had been delivered are clear in the kernel. */
  ghost predicate Cleared(mem: Slot, mem': Slot, psize: nat, start: nat, size: nat, ok: bool) {
    && mem'.startAddr == mem.startAddr && mem'.memorySize == mem.memorySize
    && (forall p {:trigger p in mem'.kernel} :: p * psize < mem.memorySize ==>
         (p in mem'.kernel
          <==> p in mem.kernel && !(ok && p in mem.dirtyBmap && InSection(mem, psize, start, size, p))))
    && (forall p {:trigger p in mem'.dirtyBmap} :: p * psize < mem.memorySize ==>
         (p in mem'.dirtyBmap <==> p in mem.dirtyBmap && !InSection(mem, psize, start, size, p)))
  }

  lemma ProductIff(i: int, j: int, s: nat)
    requires s > 0
    ensures i * s < j * s <==> i < j
  {
    LessFactor(i, j, s);
    if i < j {
      assert (j - i - 1) * s >= 0;
      assert j * s == i * s + s + (j - i - 1) * s;
    }
  }

  /** The cut in pages: the slot has e pages from page a of the address space, the section n pages
      from page b. */
  lemma CutInPages(mem: Slot, a: nat, e: nat, b: nat, n: nat, psize: nat)
    requires psize > 0 && n > 0 && mem.startAddr == a * psize && mem.memorySize == e * psize
    requires n * psize > 0 && Overlaps(mem, b * psize, n * psize)
    ensures
      var s := if b >= a then b - a else 0;
      var c := if b >= a then Min(e - (b - a), n) else Min(e, n - (a - b));
      && 0 < c && s + c <= e
      && Offset(mem, b * psize) == s * psize && Count(mem, b * psize, n * psize) == c * psize
  {
    assert (b + n) * psize == b * psize + n * psize && (a + e) * psize == a * psize + e * psize;
    ProductIff(a, b + n, psize);
    ProductIff(b, a + e, psize);
    ProductIff(b, a, psize);
    ProductIff(0, e, psize);
    if b >= a {
      assert (b - a) * psize == b * psize - a * psize;
      assert (e - (b - a)) * psize == e * psize - (b - a) * psize;
      ProductIff(e - (b - a), n, psize);
    } else {
      assert (a - b) * psize == a * psize - b * psize;
      assert (n - (a - b)) * psize == n * psize - (a - b) * psize;
      ProductIff(e, n - (a - b), psize);
    }
  }

  lemma PageInSection(mem: Slot, a: nat, e: nat, b: nat, n: nat, psize: nat, p: nat)
    requires psize > 0 && mem.startAddr == a * psize && mem.memorySize == e * psize
    ensures InSection(mem, psize, b * psize, n * psize, p) <==> p < e && b <= a + p < b + n
    ensures p * psize < mem.memorySize <==> p < e
  {
    ProductIff(p, e, psize);
    ProductIff(a + p, b, psize);
    ProductIff(a + p, b + n, psize);
    assert (a + p) * psize == a * psize + p * psize && (b + n) * psize == b * psize + n * psize;
  }

  /** A section cut down to one slot is exactly the slot's part of it. */
  lemma SectionIsExact(mem: Slot, psize: nat, start: nat, size: nat, ok: bool)
    requires psize > 0 && size > 0 && Overlaps(mem, start, size) && OnPages(mem, psize)
    requires start == start / psize * psize && size == size / psize * psize
    ensures Cleared(mem, ClearOne(mem, psize, Offset(mem, start), Count(mem, start, size), ok), psize, start, size, ok)
  {
    Quotients(mem.startAddr, mem.memorySize, start, size, psize);
    SectionInPages(mem, mem.startAddr / psize, mem.memorySize / psize, start / psize, size / psize, psize, ok);
  }

  lemma Quotients(x: nat, y: nat, z: nat, w: nat, d: nat)
    requires d > 0
    ensures x / d >= 0 && y / d >= 0 && z / d >= 0 && w / d >= 0
  {
    LessFactor(-1, x / d, d);
    LessFactor(-1, y / d, d);
    LessFactor(-1, z / d, d);
    LessFactor(-1, w / d, d);
  }

  /** The pages s to s + c of the slot are those of the section. */
  lemma ClearedPages(mem: Slot, mem': Slot, a: nat, e: nat, b: nat, n: nat, psize: nat, s: nat, c: nat, ok: bool)
    requires psize > 0 && mem.startAddr == a * psize && mem.memorySize == e * psize
    requires s == (if b >= a then b - a else 0) && a < b + n && s + c == Min(e, b + n - a)
    requires mem'.startAddr == mem.startAddr && mem'.memorySize == mem.memorySize
    requires forall p :: p in mem'.kernel <==> p in mem.kernel && !(ok && p in mem.dirtyBmap && s <= p < s + c)
    requires forall p :: p in mem'.dirtyBmap <==> p in mem.dirtyBmap && !(s <= p < s + c)
    ensures Cleared(mem, mem', psize, b * psize, n * psize, ok)
  {
    hide InSection;
    forall p: nat | p * psize < mem.memorySize
      ensures p in mem'.kernel
        <==> p in mem.kernel && !(ok && p in mem.dirtyBmap && InSection(mem, psize, b * psize, n * psize, p))
      ensures p in mem'.dirtyBmap <==> p in mem.dirtyBmap && !InSection(mem, psize, b * psize, n * psize, p)
    {
      PageInSection(mem, a, e, b, n, psize, p);
    }
  }

  lemma SectionInPages(mem: Slot, a: nat, e: nat, b: nat, n: nat, psize: nat, ok: bool)
    requires psize > 0 && mem.startAddr == a * psize && mem.memorySize == e * psize
    requires n * psize > 0 && Overlaps(mem, b * psize, n * psize)
    ensures
      var (start, size) := (b * psize, n * psize);
      Cleared(mem, ClearOne(mem, psize, Offset(mem, start), Count(mem, start, size), ok), psize, start, size, ok)
  {
    hide ClearOne, Overlaps, Count, Offset, Cleared;
    ProductIff(0, n, psize);
    CutInPages(mem, a, e, b, n, psize);
    var s := if b >= a then b - a else 0;
    var c := if b >= a then Min(e - (b - a), n) else Min(e, n - (a - b));
    ProductIff(s, e, psize);
    ClearOneIsExact(mem, psize, s, c, e, ok);
    ClearedPages(mem, ClearOne(mem, psize, s * psize, c * psize, ok), a, e, b, n, psize, s, c, ok);
  }

  function ClearSection(mem: Slot, psize: nat, start: nat, size: nat, ok: bool): Slot
    requires psize > 0 && size > 0
  {
    if Overlaps(mem, start, size) then ClearOne(mem, psize, Offset(mem, start), Count(mem, start, size), ok) else mem
  }

  /** The walk treats each slot on its own; it stops after the first failing slot. */
  lemma {:induction false} ClearFromIs(slots: seq<Slot>, i: nat, psize: nat, start: nat, size: nat, fails: set<nat>)
    requires psize > 0 && size > 0
    ensures
      var r := ClearFrom(slots, i, psize, start, size, fails);
      && (forall k :: 0 <= k < |slots| ==>
           r[k] == slots[k] || (k >= i && r[k] == ClearSection(slots[k], psize, start, size, k !in fails)))
      && (forall k :: 0 <= k < i && k < |slots| ==> r[k] == slots[k])
      && ((forall k :: i <= k < |slots| ==> k !in fails) ==>
            forall k :: i <= k < |slots| ==> r[k] == ClearSection(slots[k], psize, start, size, true))
    decreases |slots| - i
  {
    hide ClearOne;
    if i < |slots| {
      if !Overlaps(slots[i], start, size) {
        ClearFromIs(slots, i + 1, psize, start, size, fails);
      } else if i !in fails {
        var mem := ClearOne(slots[i], psize, Offset(slots[i], start), Count(slots[i], start, size), true);
        ClearFromIs(slots[i := mem], i + 1, psize, start, size, fails);
      }
    }
  }

  /** A clear over many slots covers exactly the section's intersection with the slots. */
  lemma MultiSlotClearIsExact(slots: seq<Slot>, psize: nat, start: nat, size: nat)
    requires psize > 0 && size > 0 && start == start / psize * psize && size == size / psize * psize
    requires forall k :: 0 <= k < |slots| ==> OnPages(slots[k], psize)
    ensures
      var r := ClearFrom(slots, 0, psize, start, size, {});
      forall k :: 0 <= k < |slots| ==> Cleared(slots[k], r[k], psize, start, size, true)
  {
    ClearFromIs(slots, 0, psize, start, size, {});
    hide ClearOne, ClearFrom;
    forall k | 0 <= k < |slots|
      ensures Cleared(slots[k], ClearFrom(slots, 0, psize, start, size, {})[k], psize, start, size, true)
    {
      SlotCleared(slots[k], psize, start, size);
    }
  }

  lemma SlotCleared(mem: Slot, psize: nat, start: nat, size: nat)
    requires psize > 0 && size > 0 && start == start / psize * psize && size == size / psize * psize
    requires OnPages(mem, psize)
    ensures Cleared(mem, ClearSection(mem, psize, start, size, true), psize, start, size, true)
  {
    hide Cleared, ClearOne;
    if Overlaps(mem, start, size) {
      SectionIsExact(mem, psize, start, size, true);
    } else {
      Outside(mem, psize, start, size);
    }
  }

  lemma Outside(mem: Slot, psize: nat, start: nat, size: nat)
    requires psize > 0 && size > 0 && !Overlaps(mem, start, size)
    ensures Cleared(mem, mem, psize, start, size, true)
  {
    forall p ensures !InSection(mem, psize, start, size, p) { }
  }

  /** f is the first slot of the walk whose ioctl fails. */
  ghost predicate StopsAt(slots: seq<Slot>, i: nat, start: nat, size: nat, fails: set<nat>, f: nat)
    requires size > 0
  {
    && i <= f < |slots| && Overlaps(slots[f], start, size) && f in fails
    && forall k :: i <= k < f && Overlaps(slots[k], start, size) ==> k !in fails
  }

  lemma {:induction false} WalkStops(slots: seq<Slot>, i: nat, psize: nat, start: nat, size: nat, fails: set<nat>,
                                     f: nat)
    requires psize > 0 && size > 0 && StopsAt(slots, i, start, size, fails, f)
    ensures
      var r := ClearFrom(slots, i, psize, start, size, fails);
      && (forall k :: 0 <= k < i ==> r[k] == slots[k])
      && (forall k :: i <= k < f ==> r[k] == ClearSection(slots[k], psize, start, size, true))
      && r[f] == ClearSection(slots[f], psize, start, size, false)
      && (forall k :: f < k < |slots| ==> r[k] == slots[k])
    decreases |slots| - i
  {
    hide ClearOne;
    if i < f {
      if !Overlaps(slots[i], start, size) {
        WalkStops(slots, i + 1, psize, start, size, fails, f);
      } else {
        var mem := ClearOne(slots[i], psize, Offset(slots[i], start), Count(slots[i], start, size), true);
        WalkStops(slots[i := mem], i + 1, psize, start, size, fails, f);
      }
    }
  }

  /** If an ioctl fails, the walk has cleared the section in every slot before, has let QEMU forget the
      slot's part of it in that one, although the kernel keeps it, and leaves the rest alone. */
  lemma ClearStopsExactly(slots: seq<Slot>, psize: nat, start: nat, size: nat, fails: set<nat>, f: nat)
    requires psize > 0 && size > 0 && start == start / psize * psize && size == size / psize * psize
    requires (forall k :: 0 <= k < |slots| ==> OnPages(slots[k], psize)) && StopsAt(slots, 0, start, size, fails, f)
    ensures
      var r := ClearFrom(slots, 0, psize, start, size, fails);
      && (forall k :: 0 <= k < f ==> Cleared(slots[k], r[k], psize, start, size, true))
      && Cleared(slots[f], r[f], psize, start, size, false)
      && (forall k :: f < k < |slots| ==> r[k] == slots[k])
  {
    WalkStops(slots, 0, psize, start, size, fails, f);
    SectionIsExact(slots[f], psize, start, size, false);
    hide ClearOne, ClearFrom, Cleared;
    forall k | 0 <= k < f
      ensures Cleared(slots[k], ClearSection(slots[k], psize, start, size, true), psize, start, size, true)
    {
      SlotCleared(slots[k], psize, start, size);
    }
  }

  // ------------------------------------------------------------------ runs

  /** A page by slot and page number. */
  datatype Page = Page(slot: nat, index: nat)

  /** ram is the migration side's dirty set; unsent are the pages written since they were last
      sent.  manual is manual_dirty_log_protect. */
  datatype Log = Log(slots: seq<Slot>, ram: set<Page>, unsent: set<Page>, manual: bool)

  datatype Step =
    | Write(at: Page)
    | Sync(slot: nat)
    | Clear(start: nat, size: nat, fails: set<nat>)
    | Send(at: Page)

  function OfSlot(slot: nat, pages: set<nat>): set<Page> {
    set p | p in pages :: Page(slot, p)
  }

  /** Writes set the kernel's bit; a sync copies the kernel's bits to QEMU, and without manual
      protection clears them; a page is sent only after the log has been cleared for it. */
  function Next(st: Log, psize: nat, step: Step): Log
    requires psize > 0
  {
    match step
    case Write(at) =>
      if at.slot >= |st.slots| then st
      else
        var mem := st.slots[at.slot];
        st.(slots := st.slots[at.slot := mem.(kernel := mem.kernel + {at.index})], unsent := st.unsent + {at})
    case Sync(i) =>
      if i >= |st.slots| then st
      else
        var mem := st.slots[i];
        st.(slots := st.slots[i := mem.(dirtyBmap := mem.kernel, kernel := if st.manual then mem.kernel else {})],
            ram := st.ram + OfSlot(i, mem.kernel))
    case Clear(start, size, fails) =>
      if !st.manual || size == 0 then st else st.(slots := ClearFrom(st.slots, 0, psize, start, size, fails))
    case Send(at) =>
      if at.slot >= |st.slots| || at !in st.ram || (st.manual && at.index in st.slots[at.slot].dirtyBmap) then st
      else st.(ram := st.ram - {at}, unsent := st.unsent - {at})
  }

  function Run(st: Log, psize: nat, steps: seq<Step>): Log
    requires psize > 0
    decreases |steps|
  {
    if steps == [] then st else Run(Next(st, psize, steps[0]), psize, steps[1..])
  }

  ghost predicate Kept(st: Log) {
    && (forall at :: at in st.unsent ==> at.slot < |st.slots|)
    && (forall at :: at in st.unsent ==> at in st.ram || at.index in st.slots[at.slot].kernel)
    && (st.manual ==> forall i, p :: 0 <= i < |st.slots| && p in st.slots[i].dirtyBmap ==> Page(i, p) in st.ram)
  }

  lemma ClearKeeps(st: Log, psize: nat, start: nat, size: nat, fails: set<nat>)
    requires psize > 0 && size > 0 && st.manual && Kept(st)
    ensures Kept(st.(slots := ClearFrom(st.slots, 0, psize, start, size, fails)))
  {
    ClearFromIs(st.slots, 0, psize, start, size, fails);
    hide ClearFrom, ClearOne;
    forall k | 0 <= k < |st.slots| && Overlaps(st.slots[k], start, size)
      ensures
        var mem, mem' := st.slots[k], ClearSection(st.slots[k], psize, start, size, k !in fails);
        && (forall p :: p in mem'.dirtyBmap ==> p in mem.dirtyBmap)
        && (forall p :: p in mem.kernel && p !in mem'.kernel ==> p in mem.dirtyBmap)
    {
      var mem := st.slots[k];
      ClearsOnlyDelivered(mem, psize, Offset(mem, start), Count(mem, start, size), k !in fails);
    }
    var slots' := ClearFrom(st.slots, 0, psize, start, size, fails);
    forall at | at in st.unsent && at !in st.ram ensures at.index in slots'[at.slot].kernel {
      assert Page(at.slot, at.index) == at;
    }
  }

  lemma NextKeeps(st: Log, psize: nat, step: Step)
    requires psize > 0 && Kept(st)
    ensures Kept(Next(st, psize, step))
  {
    match step
    case Clear(start, size, fails) =>
      if st.manual && size > 0 { ClearKeeps(st, psize, start, size, fails); }
    case Sync(i) =>
      if i < |st.slots| {
        forall p | p in st.slots[i].kernel ensures Page(i, p) in OfSlot(i, st.slots[i].kernel) { }
        forall at | at in st.unsent && at.slot == i ensures Page(i, at.index) == at { }
      }
    case _ =>
  }

  lemma {:induction false} RunKeeps(st: Log, psize: nat, steps: seq<Step>)
    requires psize > 0 && Kept(st)
    ensures Kept(Run(st, psize, steps))
    decreases |steps|
  {
    hide Next, Kept;
    if steps != [] {
      NextKeeps(st, psize, steps[0]);
      RunKeeps(Next(st, psize, steps[0]), psize, steps[1..]);
    }
  }

  /** No dirty page is ever lost: over every run of writes, syncs, clears (of any range, with any
      ioctl failing) and sends, a page written since it was last sent is dirty in the kernel or in
      the migration's own set. */
  lemma NoDirtyPageIsLost(slots: seq<Slot>, manual: bool, psize: nat, steps: seq<Step>, at: Page)
    requires psize > 0 && forall i :: 0 <= i < |slots| ==> slots[i].dirtyBmap == {}
    requires at in Run(Log(slots, {}, {}, manual), psize, steps).unsent
    ensures
      var st := Run(Log(slots, {}, {}, manual), psize, steps);
      at in st.ram || (at.slot < |st.slots| && at.index in st.slots[at.slot].kernel)
  {
    RunKeeps(Log(slots, {}, {}, manual), psize, steps);
  }

  /** A page that is synced, cleared where the log is protected by hand, and sent is clean everywhere:
      in the kernel, in QEMU's copy and in the migration's set. */
  lemma PageComesClean(slots: seq<Slot>, manual: bool, psize: nat, steps: seq<Step>, at: Page, start: nat, size: nat)
    requires psize > 0 && forall i :: 0 <= i < |slots| ==> slots[i].dirtyBmap == {}
    requires var st := Run(Log(slots, {}, {}, manual), psize, steps);
      && at.slot < |st.slots| && OnPages(st.slots[at.slot], psize)
      && size > 0 && start == start / psize * psize && size == size / psize * psize
      && InSection(st.slots[at.slot], psize, start, size, at.index)
    ensures
      var st := Run(Log(slots, {}, {}, manual), psize, steps);
      var st1 := Next(st, psize, Sync(at.slot));
      var st2 := if manual then Next(st1, psize, Clear(start, size, {})) else st1;
      var st3 := Next(st2, psize, Send(at));
      && at !in st3.ram && at !in st3.unsent && at.slot < |st3.slots|
      && at.index !in st3.slots[at.slot].kernel && (manual ==> at.index !in st3.slots[at.slot].dirtyBmap)
  {
    RunKeeps(Log(slots, {}, {}, manual), psize, steps);
    RunManual(Log(slots, {}, {}, manual), psize, steps);
    var st := Run(Log(slots, {}, {}, manual), psize, steps);
    hide Run;
    var st1 := Next(st, psize, Sync(at.slot));
    assert Page(at.slot, at.index) == at;
    if at.index in st.slots[at.slot].kernel { assert at in OfSlot(at.slot, st.slots[at.slot].kernel); }
    if manual {
      ClearFromIs(st1.slots, 0, psize, start, size, {});
      SlotCleared(st1.slots[at.slot], psize, start, size);
      hide ClearFrom, ClearSection, InSection;
    }
  }

  lemma {:induction false} RunManual(st: Log, psize: nat, steps: seq<Step>)
    requires psize > 0
    ensures Run(st, psize, steps).manual == st.manual
    decreases |steps|
  {
    hide ClearFrom;
    if steps != [] { RunManual(Next(st, psize, steps[0]), psize, steps[1..]); }
  }

  /** A page becomes unsent exactly when it is written, and is sent exactly when the migration finds it
      in its set and, where the log is protected by hand, the log has been cleared for it. */
  lemma UnsentIsExact(st: Log, psize: nat, step: Step, at: Page)
    requires psize > 0 && Kept(st)
    ensures
      var st' := Next(st, psize, step);
      at in st'.unsent <==>
        || (step == Write(at) && at.slot < |st.slots|)
        || (at in st.unsent
            && !(step == Send(at) && at in st.ram && (st.manual ==> at.index !in st.slots[at.slot].dirtyBmap)))
  {
    hide ClearFrom, OfSlot;
  }

  // ------------------------------------------------------------- as it runs

  class MemoryListener {
    var slots: seq<Slot>
    const psize: nat

    constructor (slots: seq<Slot>, psize: nat)
      ensures this.slots == slots && this.psize == psize
    {
      this.slots := slots;
      this.psize := psize;
    }

    /** The kernel's side of KVM_CLEAR_DIRTY_LOG. */
    method IoctlClear(i: nat, r: Request, ok: bool)
      requires i < |slots|
      modifies this`slots
      ensures var mem := old(slots)[i];
        slots == old(slots)[i := mem.(kernel := if ok then KernelClear(mem.kernel, r) else mem.kernel)]
    {
      if ok { slots := slots[i := slots[i].(kernel := KernelClear(slots[i].kernel, r))]; }
    }

    /** kvm_log_clear_one_slot. */
    method LogClearOneSlot(i: nat, start: nat, size: nat, ok: bool)
      requires psize > 0 && i < |slots| && start < slots[i].memorySize
      modifies this`slots
      ensures slots == old(slots)[i := ClearOne(old(slots)[i], psize, start, size, ok)]
    {
      var mem := slots[i];
      var unit := CHUNK * psize;
      var bmapStart := RoundDown(start, unit);
      var startDelta := start - bmapStart;
      DivMono(bmapStart, mem.memorySize, psize);
      bmapStart := Div(bmapStart, psize);
      var npages := DivRoundUp(size + startDelta, unit) * CHUNK;
      var end := Div(mem.memorySize, psize);
      if npages > end - bmapStart { npages := end - bmapStart; }
      startDelta := Div(startDelta, psize);
      var bits: set<nat>;
      if startDelta != 0 || npages != Div(size, psize) {
        bits := CopyFrom(mem.dirtyBmap, bmapStart, startDelta + Div(size, psize));
        bits := ClearBits(bits, 0, startDelta);
      } else {
        bits := CopyFrom(mem.dirtyBmap, bmapStart, npages);
      }
      IoctlClear(i, Request(bmapStart, npages, bits), ok);
      var mem' := slots[i].(dirtyBmap := ClearBits(slots[i].dirtyBmap, bmapStart + startDelta, Div(size, psize)));
      slots := slots[i := mem'];
    }

    /** kvm_physical_log_clear, with manual protection enabled. */
    method PhysicalLogClear(start: nat, size: nat, fails: set<nat>)
      requires psize > 0
      modifies this`slots
      ensures slots == if size == 0 then old(slots) else ClearFrom(old(slots), 0, psize, start, size, fails)
    {
      if size == 0 { return; }
      hide ClearOne;
      var i := 0;
      while i < |slots|
        invariant 0 <= i <= |slots|
        invariant ClearFrom(slots, i, psize, start, size, fails) == ClearFrom(old(slots), 0, psize, start, size, fails)
        decreases |slots| - i
      {
        if Overlaps(slots[i], start, size) {
          var offset, count;
          if start >= slots[i].startAddr {
            offset := start - slots[i].startAddr;
            count := Min(slots[i].memorySize - offset, size);
          } else {
            offset := 0;
            count := Min(slots[i].memorySize, size - (slots[i].startAddr - start));
          }
          LogClearOneSlot(i, offset, count, i !in fails);
          if i in fails { return; }
        }
        i := i + 1;
      }
    }
  }
}
