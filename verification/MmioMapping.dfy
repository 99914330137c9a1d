/**
 `map_mmio` of kernel/src/memory/paging.rs: device registers mapped into the live table, page by
 page, at the direct-map address of each page.
 */
module MmioMapping {
  import opened Prelude
  import opened PhysicalMemory
  import opened FrameAllocator
  import opened Paging

  const DEVICE_ENTRY_BASE: Entry := Entry(true, true, false, true, false, true, 0)

  function DeviceEntry(p: nat): Entry { DEVICE_ENTRY_BASE.(addr := p) }

  /** The page translates to `p`: uncached, never executable, never for user mode, and writable exactly if said so. */
  predicate DeviceHit(h: Option<Hit>, p: nat, writable: bool) {
    h.Some? && h.value == Hit(p, writable, false, false, true)
  }

  ghost predicate SameAbove(m: Mem, m': Mem, root: nat) {
    forall path: seq<nat> :: |path| == 4 && InTree([], path[0], ENTRIES) ==>
      WritableAbove(m', root, path) == WritableAbove(m, root, path)
  }

  /** The page can be written unless a table entry that was there before takes that right away. */
  ghost predicate DeviceMapped(m: Mem, m': Mem, root: nat, vpage: nat, p: nat) {
    && DeviceHit(Translate(m', root, vpage), p, WritableAbove(m, root, Indices(vpage)))
    && SameAbove(m, m', root)
    && forall path: seq<nat> :: |path| == 4 && InTree([], path[0], ENTRIES) && path != Indices(vpage) ==>
         Walk(m', root, path) == Walk(m, root, path)
  }

  /** Below an interior entry the frame and caching are the child's, and rights can only shrink. */
  lemma InteriorStep(m: Mem, f: nat, path: seq<nat>, at: seq<nat>, p: nat)
    requires IsTable(m, f) && |path| > 1 && path[0] < ENTRIES && |at| + |path| == 4
    requires Interior(at, m[f].entries[path[0]])
    requires var child := m[f].entries[path[0]].addr;
             DeviceHit(Walk(m, child, path[1..]), p, WritableAbove(m, child, path[1..]))
    ensures DeviceHit(Walk(m, f, path), p, WritableAbove(m, f, path))
  {
  }

  predicate Links(m: Mem, labels: Labels, f: nat, i: nat, child: nat) {
    && f in labels && child in labels && labels[child] == labels[f] + [i]
    && IsTable(m, f) && i < ENTRIES && Interior(labels[f], m[f].entries[i]) && m[f].entries[i].addr == child
  }

  predicate Chain(m: Mem, labels: Labels, root: nat, ix: seq<nat>, t3: nat, t2: nat, t1: nat)
    requires |ix| == 4
  {
    && root in labels && labels[root] == []
    && Links(m, labels, root, ix[0], t3) && Links(m, labels, t3, ix[1], t2) && Links(m, labels, t2, ix[2], t1)
    && IsTable(m, t1)
  }

  lemma DeviceLeaf(m: Mem, labels: Labels, root: nat, vpage: nat, p: nat, t3: nat, t2: nat, t1: nat)
    requires Tree(m, labels, ENTRIES) && Chain(m, labels, root, Indices(vpage), t3, t2, t1)
    ensures DeviceMapped(m, m[t1 := Table(m[t1].entries[Indices(vpage)[3] := DeviceEntry(p)])], root, vpage, p)
  {
    var ix := Indices(vpage);
    var m' := m[t1 := Table(m[t1].entries[ix[3] := DeviceEntry(p)])];
    assert LeafWritten(m, m', labels, t1, ix[3]);
    assert labels[t1] + [ix[3]] == ix;
    assert ix[1..][1..] == ix[2..] && ix[2..][1..] == [ix[3]];
    InteriorStep(m', t2, ix[2..], labels[t2], p);
    InteriorStep(m', t3, ix[1..], labels[t3], p);
    InteriorStep(m', root, ix, [], p);
    forall path: seq<nat> | |path| == 4 && InTree([], path[0], ENTRIES)
      ensures WritableAbove(m', root, path) == WritableAbove(m, root, path)
    {
      LeafAbove(m, m', labels, t1, ix[3], ENTRIES, root, path);
    }
    forall path: seq<nat> | |path| == 4 && InTree([], path[0], ENTRIES) && path != ix
      ensures Walk(m', root, path) == Walk(m, root, path)
    {
      assert labels[root] + path == path;
      LeafWalk(m, m', labels, t1, ix[3], ENTRIES, root, path);
    }
  }

  lemma DeviceMappedAfter(m: Mem, m1: Mem, m2: Mem, root: nat, vpage: nat, p: nat)
    requires SameWalks(m, m1, root, ENTRIES) && DeviceMapped(m1, m2, root, vpage, p)
    ensures DeviceMapped(m, m2, root, vpage, p)
  {
    hide WritableAbove, Walk, Indices;
    forall path: seq<nat> | |path| == 4 && InTree([], path[0], ENTRIES)
      ensures WritableAbove(m2, root, path) == WritableAbove(m, root, path)
    {
      assert Walk(m1, root, path) == Walk(m, root, path);
    }
    forall path: seq<nat> | |path| == 4 && InTree([], path[0], ENTRIES) && path != Indices(vpage)
      ensures Walk(m2, root, path) == Walk(m, root, path)
    {
      assert Walk(m1, root, path) == Walk(m, root, path);
    }
  }

  /** The walk along `path` meets a huge page above the last level. */
  predicate Blocked(m: Mem, f: nat, path: seq<nat>)
    requires path != []
    decreases |path|
  {
    && IsTable(m, f) && path[0] < ENTRIES && |path| > 1
    && var e := m[f].entries[path[0]];
       e.present && ((e.huge && |path| <= 3) || Blocked(m, e.addr, path[1..]))
  }

  predicate HugeAt(m: Mem, f: nat, i: nat) {
    IsTable(m, f) && i < ENTRIES && m[f].entries[i].present && m[f].entries[i].huge
  }

  lemma BlockedBelow(m: Mem, labels: Labels, root: nat, ix: seq<nat>, t3: nat, t2: nat)
    requires |ix| == 4 && root in labels && labels[root] == [] && Links(m, labels, root, ix[0], t3)
    requires HugeAt(m, t3, ix[1]) || (Links(m, labels, t3, ix[1], t2) && HugeAt(m, t2, ix[2]))
    ensures Blocked(m, root, ix)
  {
    assert ix[1..][0] == ix[1] && ix[1..][1..][0] == ix[2];
    if !HugeAt(m, t3, ix[1]) {
      assert Blocked(m, t2, ix[1..][1..]);
    }
    assert Blocked(m, t3, ix[1..]);
  }

  /** The live table: the tables it had, plus the frames `taken` since. */
  ghost predicate LiveTable(b: Start, s: State, m: Mem, labels: Labels, root: nat, taken: seq<nat>) {
    b.hi == ENTRIES && Building(b, s, m, labels, taken) && root in labels && labels[root] == []
  }

  /**
   One level down without touching what is there; None exactly on the two panics, out of memory and a
   huge page in the way.
   */
  method DeviceChild(pmm: Pmm, mem: Memory, root: nat, f: nat, i: nat,
                     ghost b: Start, ghost labels: Labels, ghost taken: seq<nat>)
    returns (child: Option<nat>, ghost labels': Labels, ghost taken': seq<nat>)
    requires LiveTable(b, pmm.Abs(), mem.frames, labels, root, taken)
    requires f in labels && |labels[f]| < 3 && i < ENTRIES
    modifies pmm, mem
    ensures child.Some? ==>
              && LiveTable(b, pmm.Abs(), mem.frames, labels', root, taken')
              && SameWalks(old(mem.frames), mem.frames, root, ENTRIES)
              && Grown(old(mem.frames), mem.frames, labels, labels', f, i)
              && Links(mem.frames, labels', f, i, child.value) && IsTable(mem.frames, child.value)
    ensures child.None? ==>
              || AllocFrame(pmm.Abs()).1.None?
              || (f != root && mem.frames == old(mem.frames) && HugeAt(mem.frames, f, i))
  {
    child, labels', taken' := None, labels, taken;
    InBuilding(b, pmm.Abs(), mem.frames, labels, taken, f, i);
    var e := mem.frames[f].entries[i];
    if f != root && e.present && e.huge {
      return;
    }
    var added;
    child, added, labels' := EnsureChild(pmm, mem, root, f, i, false, b, labels, taken);
    taken' := taken + added;
    if child.Some? {
      InBuilding(b, pmm.Abs(), mem.frames, labels', taken', child.value, 0);
      InBuilding(b, pmm.Abs(), mem.frames, labels', taken', f, i);
    }
  }

  method MapDevicePage(pmm: Pmm, mem: Memory, root: nat, vpage: nat, p: nat,
                       ghost b: Start, ghost labels: Labels, ghost taken: seq<nat>)
    returns (ok: bool, ghost labels': Labels, ghost taken': seq<nat>)
    requires LiveTable(b, pmm.Abs(), mem.frames, labels, root, taken)
    requires root in labels && labels[root] == []
    modifies pmm, mem
    ensures ok ==>
              && LiveTable(b, pmm.Abs(), mem.frames, labels', root, taken')
              && DeviceMapped(old(mem.frames), mem.frames, root, vpage, p)
    ensures !ok ==> AllocFrame(pmm.Abs()).1.None? || Blocked(mem.frames, root, Indices(vpage))
  {
    hide LiveTable, SameWalks, DeviceMapped, AllocFrame, Blocked, Indices, Walk, WritableAbove;
    var ix := Indices(vpage);
    ok, labels', taken' := false, labels, taken;
    ghost var m0 := mem.frames;
    var t3;
    t3, labels', taken' := DeviceChild(pmm, mem, root, root, ix[0], b, labels', taken');
    if t3.None? { return; }
    ghost var m1, labels1 := mem.frames, labels';
    var t2;
    t2, labels', taken' := DeviceChild(pmm, mem, root, t3.value, ix[1], b, labels', taken');
    if t2.None? {
      if HugeAt(mem.frames, t3.value, ix[1]) && mem.frames == m1 {
        BlockedBelow(m1, labels1, root, ix, t3.value, 0);
      }
      return;
    }
    ghost var m2, labels2 := mem.frames, labels';
    var t1;
    t1, labels', taken' := DeviceChild(pmm, mem, root, t2.value, ix[2], b, labels', taken');
    if t1.None? {
      if HugeAt(mem.frames, t2.value, ix[2]) && mem.frames == m2 {
        BlockedBelow(m2, labels2, root, ix, t3.value, t2.value);
      }
      return;
    }
    ghost var m3 := mem.frames;
    mem.WriteEntry(t1.value, ix[3], DeviceEntry(p));
    ok := true;
    SameWalksCompose(m0, m1, m2, m3, root, ENTRIES);
    LiveTableLeaf(b, pmm.Abs(), m3, labels', root, taken', t1.value, ix[3], DeviceEntry(p));
    DeviceLeaf(m3, labels', root, vpage, p, t3.value, t2.value, t1.value);
    DeviceMappedAfter(m0, m3, mem.frames, root, vpage, p);
  }

  lemma LiveTableLeaf(b: Start, s: State, m: Mem, labels: Labels, root: nat, taken: seq<nat>, pt: nat, i: nat, e: Entry)
    requires LiveTable(b, s, m, labels, root, taken)
    requires pt in labels && |labels[pt]| == 3 && i < ENTRIES && IsTable(m, pt)
    ensures LiveTable(b, s, m[pt := Table(m[pt].entries[i := e])], labels, root, taken)
    ensures Tree(m, labels, ENTRIES)
  {
    var m' := m[pt := Table(m[pt].entries[i := e])];
    assert LeafWritten(m, m', labels, pt, i);
    LeafTree(m, m', labels, pt, i, ENTRIES);
  }

  /** Pages closer than the 48-bit address space have different table indices. */
  lemma IndicesDiffer(base: nat, p: nat, q: nat)
    requires p < q < p + PAGE_NUMBERS
    ensures Indices(base + p) != Indices(base + q)
  {
    hide Indices;
    var x, y := (base + p) % PAGE_NUMBERS, (base + q) % PAGE_NUMBERS;
    IndicesWrap(base + p);
    IndicesWrap(base + q);
    RemaindersDiffer(base + p, base + q, PAGE_NUMBERS);
    if Indices(x) == Indices(y) {
      IndicesInjective(x, y);
    }
  }

  lemma WrapTop(q: nat, r: nat)
    ensures (q * PAGE_NUMBERS + r) / 0x800_0000 == q * ENTRIES + r / 0x800_0000
  {
  }

  lemma WrapMiddle(q: nat, r: nat)
    ensures (q * PAGE_NUMBERS + r) / 0x4_0000 == q * 0x4_0000 + r / 0x4_0000
  {
  }

  lemma WrapLow(q: nat, r: nat)
    ensures (q * PAGE_NUMBERS + r) / ENTRIES == q * 0x800_0000 + r / ENTRIES
  {
  }

  lemma SameRemainder(x: nat, y: nat, k: nat)
    requires x == k * ENTRIES + y
    ensures x % ENTRIES == y % ENTRIES
  {
  }

  lemma IndicesWrap(v: nat)
    ensures Indices(v % PAGE_NUMBERS) == Indices(v)
  {
    var q, r := v / PAGE_NUMBERS, v % PAGE_NUMBERS;
    WrapTop(q, r);
    WrapMiddle(q, r);
    WrapLow(q, r);
    SameRemainder(v / 0x800_0000, r / 0x800_0000, q);
    SameRemainder(v / 0x4_0000, r / 0x4_0000, q * 0x200);
    SameRemainder(v / ENTRIES, r / ENTRIES, q * 0x4_0000);
    SameRemainder(v, r, q * 0x800_0000);
  }

  /** The table indices of the direct-map page of `p`. */
  function DirectPath(offset: nat, p: nat): seq<nat> { Indices(offset + p) }

  /**
   Pages `[lo, hi)` are device pages, writable unless a table entry of `m` above them is not; every other
   address translates as it did in `m`.
   */
  ghost predicate RangeMapped(m: Mem, m': Mem, root: nat, offset: nat, lo: nat, hi: nat) {
    && SameAbove(m, m', root)
    && (forall p: nat :: lo <= p < hi ==>
          DeviceHit(Walk(m', root, DirectPath(offset, p)), p, WritableAbove(m, root, DirectPath(offset, p))))
    && (forall path: seq<nat> :: |path| == 4 && InTree([], path[0], ENTRIES) && OffRange(path, offset, lo, hi) ==>
          Walk(m', root, path) == Walk(m, root, path))
  }

  ghost predicate BlockedIn(m: Mem, root: nat, offset: nat, lo: nat, hi: nat) {
    exists p: nat :: lo <= p < hi && Blocked(m, root, DirectPath(offset, p))
  }

  ghost predicate OffRange(path: seq<nat>, offset: nat, lo: nat, hi: nat) {
    forall p: nat :: lo <= p < hi ==> path != DirectPath(offset, p)
  }

  lemma RangeGrows(m: Mem, m1: Mem, m2: Mem, root: nat, offset: nat, lo: nat, hi: nat)
    requires lo <= hi < lo + PAGE_NUMBERS
    requires RangeMapped(m, m1, root, offset, lo, hi) && DeviceMapped(m1, m2, root, offset + hi, hi)
    ensures RangeMapped(m, m2, root, offset, lo, hi + 1)
  {
    hide WritableAbove, Walk, Indices;
    forall p: nat | lo <= p < hi + 1
      ensures DeviceHit(Walk(m2, root, DirectPath(offset, p)), p, WritableAbove(m, root, DirectPath(offset, p)))
    {
      if p < hi {
        IndicesDiffer(offset, p, hi);
        assert Walk(m2, root, DirectPath(offset, p)) == Walk(m1, root, DirectPath(offset, p));
      }
    }
    forall path: seq<nat> | |path| == 4 && InTree([], path[0], ENTRIES) && OffRange(path, offset, lo, hi + 1)
      ensures Walk(m2, root, path) == Walk(m, root, path)
    {
      assert path != DirectPath(offset, hi);
      assert OffRange(path, offset, lo, hi);
      assert Walk(m2, root, path) == Walk(m1, root, path);
    }
  }

  /**
   Maps the whole pages covering `size` bytes from `physStart`. When it does not panic, each of them
   translates to itself at the direct-map offset, uncached and not executable, for the kernel alone,
   writable unless a table entry from before is not, and nothing else changes. It panics only when frames
   run out or a huge page is in the way of one of the pages. `offset` is the direct map's first page.
   */
  method MapMmio(pmm: Pmm, mem: Memory, root: nat, offset: nat, physStart: nat, size: nat,
                 ghost labels: Labels, ghost live: set<nat>)
    returns (ok: bool, first: nat)
    requires Valid(pmm.Abs(), live) && Tree(mem.frames, labels, ENTRIES)
    requires root in labels && labels[root] == [] && forall f :: f in labels ==> !Available(pmm.Abs(), f)
    requires physStart + size + FRAME_BYTES - 1 <= FRAME_LIMIT * FRAME_BYTES && size < (PAGE_NUMBERS - 2) * FRAME_BYTES
    modifies pmm, mem
    ensures ok ==>
              && first == offset + physStart / FRAME_BYTES
              && RangeMapped(old(mem.frames), mem.frames, root, offset,
                             physStart / FRAME_BYTES, (physStart + size + FRAME_BYTES - 1) / FRAME_BYTES)
    ensures ok ==> forall a: nat :: physStart <= a < physStart + size ==>
              var vpage := first + (a / FRAME_BYTES - physStart / FRAME_BYTES);
              DeviceHit(Translate(mem.frames, root, vpage), a / FRAME_BYTES,
                        WritableAbove(old(mem.frames), root, Indices(vpage)))
    ensures !ok ==>
              || AllocFrame(pmm.Abs()).1.None?
              || BlockedIn(mem.frames, root, offset,
                           physStart / FRAME_BYTES, (physStart + size + FRAME_BYTES - 1) / FRAME_BYTES)
  {
    hide Building, RangeMapped, DeviceMapped, Valid, Tree, Available, AllocFrame, Blocked;
    var pageStart := physStart / FRAME_BYTES;
    var pageEnd := (physStart + size + FRAME_BYTES - 1) / FRAME_BYTES;
    ghost var m0 := mem.frames;
    ghost var b := Start(pmm.Abs(), live, m0, labels.Keys, ENTRIES);
    ghost var grown, taken := labels, [];
    BuildingStart(b, labels);
    RangeEmpty(m0, root, offset, pageStart);
    ok, first := false, 0;
    var p := pageStart;
    while p < pageEnd
      invariant pageStart <= p && (p <= pageEnd || p == pageStart)
      invariant LiveTable(b, pmm.Abs(), mem.frames, grown, root, taken)
      invariant RangeMapped(m0, mem.frames, root, offset, pageStart, p)
    {
      ghost var m := mem.frames;
      var mapped;
      mapped, grown, taken := MapDevicePage(pmm, mem, root, offset + p, p, b, grown, taken);
      if !mapped {
        assert DirectPath(offset, p) == Indices(offset + p);
        assert Blocked(mem.frames, root, DirectPath(offset, p)) ==>
            BlockedIn(mem.frames, root, offset, pageStart, pageEnd);
        return;
      }
      RangeGrows(m0, m, mem.frames, root, offset, pageStart, p);
      p := p + 1;
    }
    ok, first := true, offset + pageStart;
    BytesMapped(m0, mem.frames, root, offset, physStart, size);
  }

  lemma BuildingStart(b: Start, labels: Labels)
    requires Valid(b.pm, b.live) && Tree(b.mem, labels, b.hi) && b.tables == labels.Keys
    requires forall f :: f in labels ==> !Available(b.pm, f)
    ensures Building(b, b.pm, b.mem, labels, [])
  {
    assert Elems<nat>([]) == {};
  }

  /** Every byte asked for lies on one of the pages mapped. */
  lemma BytesMapped(m: Mem, m': Mem, root: nat, offset: nat, physStart: nat, size: nat)
    requires var (lo, hi) := (physStart / FRAME_BYTES, (physStart + size + FRAME_BYTES - 1) / FRAME_BYTES);
             RangeMapped(m, m', root, offset, lo, Max(lo, hi))
    ensures forall a: nat :: physStart <= a < physStart + size ==>
              var vpage := offset + physStart / FRAME_BYTES + (a / FRAME_BYTES - physStart / FRAME_BYTES);
              DeviceHit(Translate(m', root, vpage), a / FRAME_BYTES, WritableAbove(m, root, Indices(vpage)))
  {
    hide Walk, WritableAbove, Indices, DeviceHit;
    var lo, hi := physStart / FRAME_BYTES, (physStart + size + FRAME_BYTES - 1) / FRAME_BYTES;
    forall a: nat | physStart <= a < physStart + size
      ensures var vpage := offset + lo + (a / FRAME_BYTES - lo);
              DeviceHit(Translate(m', root, vpage), a / FRAME_BYTES, WritableAbove(m, root, Indices(vpage)))
    {
      BytePage(physStart, size, a);
      assert DirectPath(offset, a / FRAME_BYTES) == Indices(offset + lo + (a / FRAME_BYTES - lo));
    }
  }

  lemma BytePage(start: nat, size: nat, a: nat)
    requires start <= a < start + size
    ensures start / FRAME_BYTES <= a / FRAME_BYTES < (start + size + FRAME_BYTES - 1) / FRAME_BYTES
  {
  }

  lemma RangeEmpty(m: Mem, root: nat, offset: nat, lo: nat)
    ensures RangeMapped(m, m, root, offset, lo, lo)
  {
  }
}
