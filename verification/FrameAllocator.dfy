/**
 The physical frame allocator of kernel/src/memory/pmm.rs.

 `State` is the value of the allocator's global; the functions over it say what each
 operation does to that value, and class `Pmm` carries the operations themselves, which
 update the fields in place. A frame is named by its number, its byte address divided by
 FRAME_BYTES: regions are trimmed to whole pages on entry, so every address the allocator
 keeps (`next`, the region bounds, the free list) is a multiple of FRAME_BYTES.
 */
module FrameAllocator {
  import opened Prelude
  import opened PhysicalMemory

  const MAX_REGIONS: nat := 32
  const LOW_MEMORY: nat := 0x100      // frame number of 0x100000
  const KERNEL_END: nat := 0x300      // frame number of 0x300000
  const FRAME_LIMIT: nat := 0x100_0000_0000   // 2^40 frames, the reach of a page-table entry

  datatype Region = Region(base: nat, end: nat)

  datatype State = State(regions: seq<Region>, cur: nat, next: nat, free: nat, freeList: seq<nat>)

  // ----- What the state means -----

  ghost predicate InRegion(r: Region, f: nat) {
    r.base <= f < r.end
  }

  /** `f` lies in memory that was handed to the allocator. */
  ghost predicate Managed(s: State, f: nat) {
    exists j :: 0 <= j < |s.regions| && InRegion(s.regions[j], f)
  }

  /** `f` has not been reached by the bump pointer yet. */
  ghost predicate Bumpable(s: State, f: nat) {
    || (s.cur < |s.regions| && s.next <= f < s.regions[s.cur].end)
    || (exists j :: s.cur < j < |s.regions| && InRegion(s.regions[j], f))
  }

  ghost predicate Available(s: State, f: nat) {
    f in s.freeList || Bumpable(s, f)
  }

  ghost predicate RegionsOk(rs: seq<Region>) {
    && (forall i :: 0 <= i < |rs| ==>
          rs[i].base < rs[i].end <= FRAME_LIMIT)
    && (forall i, j :: 0 <= i < j < |rs| ==> rs[i].end <= rs[j].base || rs[j].end <= rs[i].base)
  }

  function Pages(r: Region): nat {
    if r.base < r.end then r.end - r.base else 0
  }

  /** Frames in the regions from index `i` on. */
  function PagesFrom(rs: seq<Region>, i: nat): nat
    decreases |rs| - i
  {
    if i >= |rs| then 0 else Pages(rs[i]) + PagesFrom(rs, i + 1)
  }

  function BumpCount(s: State): nat {
    if s.cur >= |s.regions| then 0
    else Pages(Region(s.next, s.regions[s.cur].end)) + PagesFrom(s.regions, s.cur + 1)
  }

  /** `live` is the set of frames handed out and not returned. */
  ghost predicate Valid(s: State, live: set<nat>) {
    && RegionsOk(s.regions)
    && (s.cur < |s.regions| ==> s.regions[s.cur].base <= s.next)
    && NoDup(s.freeList)
    && (forall f: nat :: f in s.freeList ==> Managed(s, f) && !Bumpable(s, f))
    && (forall f: nat :: f in live ==> Managed(s, f) && !Available(s, f))
    && s.free >= |s.freeList| + BumpCount(s)
  }

  // ----- The operations, on values -----

  function Dec(n: nat, k: nat): nat { if n >= k then n - k else 0 }

  function Skip(s: State): State
    requires s.cur < |s.regions|
  {
    s.(cur := s.cur + 1,
       next := if s.cur + 1 < |s.regions| then s.regions[s.cur + 1].base else s.next)
  }

  function Bump(s: State, n: nat): (State, Option<nat>)
    decreases |s.regions| - s.cur
  {
    if s.cur >= |s.regions| then (s, None)
    else if s.next + n <= s.regions[s.cur].end then
      (s.(next := s.next + n, free := Dec(s.free, n)), Some(s.next))
    else Bump(Skip(s), n)
  }

  function AllocFrame(s: State): (State, Option<nat>) {
    if s.freeList != [] then
      (s.(freeList := DropLast(s.freeList), free := Dec(s.free, 1)), Some(Last(s.freeList)))
    else Bump(s, 1)
  }

  function AllocContiguous(s: State, n: nat): (State, Option<nat>) {
    Bump(s, n)
  }

  /** None is the double-free panic. */
  function FreeFrame(s: State, f: nat): Option<State> {
    if f in s.freeList then None
    else Some(s.(freeList := s.freeList + [f], free := s.free + 1))
  }

  /** `n` successive `AllocFrame` calls, None if one of them fails. */
  function Take(s: State, n: nat): Option<(State, seq<nat>)> {
    if n == 0 then Some((s, []))
    else match Take(s, n - 1)
      case None => None
      case Some((m, fs)) =>
        match AllocFrame(m)
        case (m', Some(f)) => Some((m', fs + [f]))
        case (_, None) => None
  }

  /** `FreeFrame` on each element in turn, None if one of them panics. */
  function FreeAll(s: State, fs: seq<nat>): Option<State>
    decreases |fs|
  {
    if fs == [] then Some(s)
    else match FreeFrame(s, fs[0])
      case None => None
      case Some(m) => FreeAll(m, fs[1..])
  }

  function Block(base: nat, n: nat): (fs: seq<nat>)
    ensures |fs| == n && forall i :: 0 <= i < n ==> fs[i] == base + i
  {
    seq(n, i => base + i)
  }

  // ----- Allocation -----

  /** Skipping a region gives up the rest of it and nothing else. */
  lemma SkipSpec(s: State, live: set<nat>)
    requires Valid(s, live) && s.cur < |s.regions|
    ensures Valid(Skip(s), live)
    ensures forall g: nat :: Bumpable(Skip(s), g) ==> Bumpable(s, g)
    ensures s.next >= s.regions[s.cur].end ==> forall g: nat :: Bumpable(s, g) ==> Bumpable(Skip(s), g)
  {
    var t := Skip(s);
    forall g: nat | Bumpable(t, g) ensures Bumpable(s, g) {
      if s.cur + 1 < |s.regions| && t.next <= g < s.regions[s.cur + 1].end {
        assert InRegion(s.regions[s.cur + 1], g);
      }
    }
    if s.next >= s.regions[s.cur].end {
      forall g: nat | Bumpable(s, g) ensures Bumpable(t, g) {
        var j :| s.cur < j < |s.regions| && InRegion(s.regions[j], g);
        assert j == s.cur + 1 || s.cur + 1 < j;
      }
    }
    forall f: nat | f in s.freeList || f in live ensures Managed(t, f) {
      assert Managed(s, f);
    }
  }

  lemma ManagedIfBumpable(s: State, live: set<nat>, f: nat)
    requires Valid(s, live) && Bumpable(s, f)
    ensures Managed(s, f)
  {
    if s.cur < |s.regions| && s.next <= f < s.regions[s.cur].end {
      assert InRegion(s.regions[s.cur], f);
    }
  }

  /** The bump path hands out `n` consecutive frames that nobody held. */
  lemma {:induction false} BumpSpec(s: State, live: set<nat>, n: nat)
    requires Valid(s, live) && n >= 1
    ensures var (s', r) := Bump(s, n);
            && s'.regions == s.regions && s'.freeList == s.freeList
            && (forall g: nat :: Bumpable(s', g) ==> Bumpable(s, g))
            && (r.None? ==> s'.free == s.free && Valid(s', live) && forall g: nat :: !Bumpable(s', g))
            && (r.Some? ==> s'.free == s.free - n
                            && Valid(s', live + Elems(Block(r.value, n)))
                            && forall g: nat :: g in Block(r.value, n) ==> Bumpable(s, g) && !Bumpable(s', g))
    ensures n == 1 ==>
              var (s', r) := Bump(s, 1);
              && (r.None? <==> forall g: nat :: !Bumpable(s, g))
              && forall g: nat :: Bumpable(s, g) && (r.None? || g != r.value) ==> Bumpable(s', g)
    decreases |s.regions| - s.cur
  {
    if s.cur < |s.regions| {
      if s.next + n <= s.regions[s.cur].end {
        BumpHere(s, live, n);
        assert Bumpable(s, s.next);
      } else {
        SkipSpec(s, live);
        BumpSpec(Skip(s), live, n);
      }
    }
  }

  lemma BumpHere(s: State, live: set<nat>, n: nat)
    requires Valid(s, live) && n >= 1
    requires s.cur < |s.regions| && s.next + n <= s.regions[s.cur].end
    ensures var s' := Bump(s, n).0;
            && s'.free == s.free - n
            && Valid(s', live + Elems(Block(s.next, n)))
            && (forall g: nat :: Bumpable(s', g) ==> Bumpable(s, g))
            && (forall g: nat :: g in Block(s.next, n) ==> Bumpable(s, g) && !Bumpable(s', g))
            && (n == 1 ==> forall g: nat :: Bumpable(s, g) && g != s.next ==> Bumpable(s', g))
  {
    var s' := Bump(s, n).0;
    var block := Block(s.next, n);
    assert BumpCount(s') == BumpCount(s) - n;
    forall g: nat | g in block ensures Bumpable(s, g) && !Bumpable(s', g) && Managed(s', g) {
      var i :| 0 <= i < n && g == s.next + i;
      assert InRegion(s.regions[s.cur], g);
    }
    forall f: nat | f in s.freeList || f in live ensures Managed(s', f) {
      assert Managed(s, f);
    }
  }

  lemma ReuseSpec(s: State, live: set<nat>)
    requires Valid(s, live) && s.freeList != []
    ensures s.free >= 1
    ensures var f := Last(s.freeList);
            var s' := s.(freeList := DropLast(s.freeList), free := s.free - 1);
            && Available(s, f) && f !in live
            && Valid(s', live + {f})
            && forall g: nat :: Available(s', g) <==> Available(s, g) && g != f
  {
    var f := Last(s.freeList);
    var s' := s.(freeList := DropLast(s.freeList), free := s.free - 1);
    assert forall g: nat :: g in s.freeList <==> g in s'.freeList || g == f;
    assert forall g: nat :: Bumpable(s', g) == Bumpable(s, g);
    forall g: nat | g in s'.freeList || g in live || g == f ensures Managed(s', g) {
      assert Managed(s, g);
    }
  }

  /** A frame is handed out exactly when one is available, and only that frame stops being available. */
  lemma AllocFrameSpec(s: State, live: set<nat>)
    requires Valid(s, live)
    ensures var (s', r) := AllocFrame(s);
            && s'.regions == s.regions && s'.freeList <= s.freeList
            && (r.None? <==> forall g: nat :: !Available(s, g))
            && (r.None? ==> Valid(s', live) && s'.free == s.free && forall g: nat :: !Available(s', g))
            && (r.Some? ==> Available(s, r.value) && r.value !in live
                            && Valid(s', live + {r.value})
                            && s'.free == s.free - 1
                            && forall g: nat :: Available(s', g) <==> Available(s, g) && g != r.value)
  {
    hide Valid, Bump, Bumpable;
    if s.freeList != [] {
      ReuseSpec(s, live);
    } else {
      BumpSpec(s, live, 1);
      var (s', r) := Bump(s, 1);
      assert forall g: nat :: Available(s, g) == Bumpable(s, g);
      assert forall g: nat :: Available(s', g) == Bumpable(s', g);
      if r.Some? {
        assert Block(r.value, 1) == [r.value];
        assert Elems(Block(r.value, 1)) == {r.value};
        assert r.value in Block(r.value, 1);
        NotLive(s, live, r.value);
      }
    }
  }

  lemma NotLive(s: State, live: set<nat>, f: nat)
    requires Valid(s, live) && Available(s, f)
    ensures f !in live
  {
  }

  /** Once an allocation fails, the next one fails too. */
  lemma ExhaustedStays(s: State, live: set<nat>)
    requires Valid(s, live) && AllocFrame(s).1.None?
    ensures AllocFrame(AllocFrame(s).0).1.None?
  {
    hide Valid, Available, AllocFrame;
    AllocFrameSpec(s, live);
    AllocFrameSpec(AllocFrame(s).0, live);
  }

  /** Where region `j` has room, when the bump pointer gets to it. */
  function RoomStart(s: State, j: nat): nat
    requires s.cur <= j < |s.regions|
  {
    if j == s.cur then s.next else s.regions[j].base
  }

  /** Region `j` has `n` consecutive frames the bump pointer has not passed. */
  predicate HasRoom(s: State, j: nat, n: nat) {
    s.cur <= j < |s.regions| && RoomStart(s, j) + n <= s.regions[j].end
  }

  /** Neither the rest of the current region nor any later one holds `n` frames. */
  ghost predicate NoRoom(s: State, n: nat) { forall j: nat :: !HasRoom(s, j, n) }

  /** Region `j` is the first one with room. */
  ghost predicate FirstRoom(s: State, j: nat, n: nat) {
    HasRoom(s, j, n) && forall i: nat :: i < j ==> !HasRoom(s, i, n)
  }

  /**
   A block of `n` frames is given exactly when some region still has room for it: the first room in the order
   of the regions, and the bump pointer ends up behind it.
   */
  lemma {:induction false} BlockIsFirstRoom(s: State, n: nat)
    ensures var (s', r) := AllocContiguous(s, n);
            && (r.None? <==> NoRoom(s, n))
            && (r.Some? ==> exists j: nat ::
                  FirstRoom(s, j, n) && r.value == RoomStart(s, j) && s'.cur == j && s'.next == r.value + n)
    decreases |s.regions| - s.cur
  {
    if s.cur < |s.regions| {
      if HasRoom(s, s.cur, n) {
        assert FirstRoom(s, s.cur, n);
      } else {
        forall j: nat ensures HasRoom(s, j, n) <==> HasRoom(Skip(s), j, n) {
        }
        BlockIsFirstRoom(Skip(s), n);
        forall j: nat | FirstRoom(Skip(s), j, n)
          ensures FirstRoom(s, j, n) && RoomStart(s, j) == RoomStart(Skip(s), j)
        {
        }
      }
    }
  }

  /** A single frame: the one freed last, and without one the first the bump pointer has not passed. */
  lemma FrameIsNext(s: State)
    ensures var (s', r) := AllocFrame(s);
            && (r.None? <==> s.freeList == [] && NoRoom(s, 1))
            && (s.freeList != [] ==> r == Some(Last(s.freeList)) && s'.cur == s.cur && s'.next == s.next)
            && (s.freeList == [] && r.Some? ==> exists j: nat ::
                  FirstRoom(s, j, 1) && r.value == RoomStart(s, j) && s'.cur == j && s'.next == r.value + 1)
  {
    BlockIsFirstRoom(s, 1);
  }

  /** A frame that is freed is the next one handed out, and nothing else changed. */
  lemma FreedIsReused(s: State, f: nat)
    ensures FreeFrame(s, f).Some? ==> AllocFrame(FreeFrame(s, f).value) == (s, Some(f))
  {
    assert DropLast(s.freeList + [f]) == s.freeList;
  }

  /** A contiguous request that failed fails again. */
  lemma {:induction false} ContiguousStays(s: State, n: nat)
    ensures AllocContiguous(s, n).1.None? ==> AllocContiguous(AllocContiguous(s, n).0, n).1.None?
    decreases |s.regions| - s.cur
  {
    if s.cur < |s.regions| && s.next + n > s.regions[s.cur].end {
      ContiguousStays(Skip(s), n);
    }
  }

  lemma AllocContiguousSpec(s: State, live: set<nat>, n: nat)
    requires Valid(s, live) && n >= 1
    ensures var (s', r) := AllocContiguous(s, n);
            && s'.regions == s.regions && s'.freeList == s.freeList
            && (forall g: nat :: Available(s', g) ==> Available(s, g))
            && (r.None? ==> Valid(s', live) && s'.free == s.free)
            && (r.Some? ==> Valid(s', live + Elems(Block(r.value, n)))
                            && s'.free == s.free - n
                            && forall g: nat :: g in Block(r.value, n) ==> Available(s, g) && g !in live)
  {
    BumpSpec(s, live, n);
  }

  /** Distinct, previously unowned frames; the counter drops by exactly their number. */
  lemma {:induction false} TakeSpec(s: State, live: set<nat>, n: nat)
    requires Valid(s, live) && Take(s, n).Some?
    ensures var (s', fs) := Take(s, n).value;
            && |fs| == n && NoDup(fs)
            && s'.regions == s.regions && s'.freeList <= s.freeList
            && Valid(s', live + Elems(fs))
            && s'.free == s.free - n
            && (forall g: nat :: g in fs ==> Available(s, g) && g !in live)
            && (forall g: nat :: Available(s', g) ==> Available(s, g))
  {
    hide Valid, Available, AllocFrame;
    if n == 0 {
      assert live + Elems<nat>([]) == live;
    } else {
      TakeSpec(s, live, n - 1);
      var (m, fs) := Take(s, n - 1).value;
      AllocFrameSpec(m, live + Elems(fs));
      var f := AllocFrame(m).1.value;
      assert live + Elems(fs) + {f} == live + Elems(fs + [f]);
    }
  }

  /** One more allocation after `taken`: the frame is new in every respect. */
  lemma TakeMore(p: State, live: set<nat>, s: State, taken: seq<nat>)
    requires Valid(p, live) && Take(p, |taken|) == Some((s, taken))
    ensures Valid(s, live + Elems(taken))
    ensures AllocFrame(s).1.Some? ==>
              var (s', r) := AllocFrame(s);
              && Available(p, r.value) && r.value !in live && r.value !in taken
              && Take(p, |taken| + 1) == Some((s', taken + [r.value]))
  {
    hide Valid, Available, AllocFrame;
    TakeSpec(p, live, |taken|);
    AllocFrameSpec(s, live + Elems(taken));
  }

  lemma TakeOne(s: State)
    ensures AllocFrame(s).1.Some? ==> Take(s, 1) == Some((AllocFrame(s).0, [AllocFrame(s).1.value]))
  {
    assert Take(s, 0) == Some((s, []));
    assert AllocFrame(s).1.Some? ==> [] + [AllocFrame(s).1.value] == [AllocFrame(s).1.value];
  }

  // ----- Release -----

  /** Returning an owned frame never panics and makes exactly that frame available again. */
  lemma FreeFrameSpec(s: State, live: set<nat>, f: nat)
    requires Valid(s, live) && f in live
    ensures FreeFrame(s, f).Some?
    ensures var s' := FreeFrame(s, f).value;
            && s'.regions == s.regions
            && Valid(s', live - {f})
            && s'.free == s.free + 1
            && forall g: nat :: Available(s', g) <==> Available(s, g) || g == f
  {
    var s' := s.(freeList := s.freeList + [f], free := s.free + 1);
    assert forall g: nat :: g in s'.freeList <==> g in s.freeList || g == f;
    assert forall g: nat :: Bumpable(s', g) == Bumpable(s, g);
    forall g: nat | g in s'.freeList || g in live ensures Managed(s', g) {
      assert Managed(s, g);
    }
  }

  lemma {:induction false} FreeAllSpec(s: State, live: set<nat>, fs: seq<nat>)
    requires Valid(s, live) && NoDup(fs) && Elems(fs) <= live
    ensures FreeAll(s, fs).Some?
    ensures var s' := FreeAll(s, fs).value;
            && s'.regions == s.regions
            && Valid(s', live - Elems(fs))
            && s'.free == s.free + |fs|
            && s'.freeList == s.freeList + fs
            && forall g: nat :: Available(s', g) <==> Available(s, g) || g in fs
    decreases |fs|
  {
    hide Valid, Available;
    if fs == [] {
      assert live - Elems(fs) == live;
    } else {
      assert fs[0] in Elems(fs);
      FreeFrameSpec(s, live, fs[0]);
      var m := FreeFrame(s, fs[0]).value;
      assert forall g: nat :: g in fs <==> g == fs[0] || g in fs[1..];
      assert Elems(fs[1..]) <= live - {fs[0]};
      FreeAllSpec(m, live - {fs[0]}, fs[1..]);
      assert live - {fs[0]} - Elems(fs[1..]) == live - Elems(fs);
    }
  }

  // ----- Boot -----

  function FrameUp(a: nat): nat { (a + FRAME_BYTES - 1) / FRAME_BYTES }

  function FrameDown(a: nat): nat { a / FRAME_BYTES }

  function AddRegion(s: State, base: nat, len: nat): State {
    var r := Region(FrameUp(base), FrameDown(base + len));
    if |s.regions| >= MAX_REGIONS || r.end <= r.base then s
    else s.(regions := s.regions + [r], free := s.free + Pages(r))
  }

  const EMPTY: State := State([], 0, 0, 0, [])

  function FirstAbove(rs: seq<Region>, i: nat): nat
    decreases |rs| - i
  {
    if i >= |rs| then i
    else if rs[i].end > LOW_MEMORY then i
    else FirstAbove(rs, i + 1)
  }

  function Init(s: State): State {
    var i := FirstAbove(s.regions, 0);
    if i < |s.regions| then s.(cur := i, next := Max(s.regions[i].base, KERNEL_END)) else s
  }

  /** The state while regions are still being announced. */
  ghost predicate Collecting(s: State) {
    && RegionsOk(s.regions)
    && s.cur == 0 && s.next == 0 && s.freeList == []
    && s.free == PagesFrom(s.regions, 0)
  }

  ghost predicate Disjoint(rs: seq<Region>, base: nat, len: nat) {
    forall j :: 0 <= j < |rs| ==> base + len <= rs[j].base * FRAME_BYTES || rs[j].end * FRAME_BYTES <= base
  }

  lemma {:induction false} PagesFromAppend(rs: seq<Region>, r: Region, i: nat)
    requires i <= |rs|
    ensures PagesFrom(rs + [r], i) == PagesFrom(rs, i) + Pages(r)
    decreases |rs| - i
  {
    if i < |rs| {
      PagesFromAppend(rs, r, i + 1);
    }
  }

  lemma WholeFrames(base: nat, len: nat, f: nat)
    ensures FrameUp(base) <= f < FrameDown(base + len) <==>
              base <= f * FRAME_BYTES && (f + 1) * FRAME_BYTES <= base + len
  {
  }

  lemma RegionAdded(rs: seq<Region>, r: Region, s: State, s': State, f: nat)
    requires s.regions == rs && s'.regions == rs + [r]
    ensures Managed(s', f) <==> Managed(s, f) || InRegion(r, f)
  {
    hide InRegion;
    if j :| 0 <= j < |rs| && InRegion(rs[j], f) {
      assert s'.regions[j] == rs[j];
    }
    assert s'.regions[|rs|] == r;
    if j :| 0 <= j < |s'.regions| && InRegion(s'.regions[j], f) {
      assert j < |rs| ==> rs[j] == s'.regions[j];
    }
  }

  lemma AddRegionSpec(s: State, base: nat, len: nat)
    requires Collecting(s) && base + len <= FRAME_LIMIT * FRAME_BYTES && Disjoint(s.regions, base, len)
    ensures Collecting(AddRegion(s, base, len))
    ensures |s.regions| < MAX_REGIONS ==>
              forall f: nat :: Managed(AddRegion(s, base, len), f) <==>
                          Managed(s, f) || (base <= f * FRAME_BYTES && (f + 1) * FRAME_BYTES <= base + len)
  {
    var r := Region(FrameUp(base), FrameDown(base + len));
    var s' := AddRegion(s, base, len);
    PagesFromAppend(s.regions, r, 0);
    if |s.regions| < MAX_REGIONS {
      forall f: nat ensures Managed(s', f) <==>
                       Managed(s, f) || (base <= f * FRAME_BYTES && (f + 1) * FRAME_BYTES <= base + len)
      {
        WholeFrames(base, len, f);
        if s' != s {
          RegionAdded(s.regions, r, s, s', f);
        }
      }
    }
  }

  lemma {:induction false} FirstAboveSpec(rs: seq<Region>, i: nat)
    requires i <= |rs|
    ensures var k := FirstAbove(rs, i);
            && i <= k <= |rs|
            && (k < |rs| ==> rs[k].end > LOW_MEMORY)
            && (forall j :: i <= j < k ==> rs[j].end <= LOW_MEMORY)
    decreases |rs| - i
  {
    if i < |rs| && rs[i].end <= LOW_MEMORY {
      FirstAboveSpec(rs, i + 1);
    }
  }

  lemma {:induction false} PagesFromDrops(rs: seq<Region>, i: nat, k: nat)
    requires i <= k <= |rs|
    ensures PagesFrom(rs, k) <= PagesFrom(rs, i)
    decreases k - i
  {
    if i < k {
      PagesFromDrops(rs, i + 1, k);
    }
  }

  /**
   After `init` the allocator hands out only managed frames exactly when some region reaches above
   1 MiB (or there is no region at all, or the very first one starts at address 0). Otherwise
   `init` falls through its loop and `next` keeps the value 0, in front of region 0.
   */
  lemma InitSpec(s: State)
    requires Collecting(s)
    ensures Valid(Init(s), {}) <==>
              || s.regions == [] || s.regions[0].base == 0
              || exists j :: 0 <= j < |s.regions| && s.regions[j].end * FRAME_BYTES > 0x10_0000
    ensures !Valid(Init(s), {}) ==> AllocFrame(Init(s)).1 == Some(0) && !InRegion(s.regions[0], 0)
  {
    FirstAboveSpec(s.regions, 0);
    var k := FirstAbove(s.regions, 0);
    var s' := Init(s);
    if k < |s.regions| {
      PagesFromDrops(s.regions, 0, k);
      assert s'.regions[k].base <= s'.next;
      assert BumpCount(s') <= PagesFrom(s.regions, k);
    }
  }

  /** In the region `init` chooses, no frame below 3 MiB, where the kernel image ends, is handed out fresh. */
  lemma KernelIsSkipped(s: State, f: nat)
    requires Collecting(s) && Init(s).cur < |s.regions| && s.regions[Init(s).cur].end > LOW_MEMORY
    requires f * FRAME_BYTES < 0x30_0000 && InRegion(s.regions[Init(s).cur], f)
    ensures !Bumpable(Init(s), f)
  {
    FirstAboveSpec(s.regions, 0);
  }

  // ----- When the counter is exact -----

  /** How far the free counter is above the number of frames that can still be handed out. */
  function Slack(s: State): int { s.free - |s.freeList| - BumpCount(s) }

  /** `init` leaves the counter exact unless it passes over a region or moves past the kernel image. */
  lemma InitExact(s: State)
    requires Collecting(s)
    ensures Slack(Init(s)) == 0 <==>
              || s.regions == [] || s.regions[0].base >= KERNEL_END
              || (s.regions[0].base == 0 && forall j :: 0 <= j < |s.regions| ==> s.regions[j].end <= LOW_MEMORY)
  {
    FirstAboveSpec(s.regions, 0);
    var k := FirstAbove(s.regions, 0);
    if 0 < k < |s.regions| {
      PagesFromDrops(s.regions, 1, k);
    }
  }

  /** A skip adds the frames it gives up, so it keeps an exact counter exactly when the region is used up. */
  lemma SkipSlack(s: State)
    requires s.cur < |s.regions| && RegionsOk(s.regions)
    ensures Slack(Skip(s)) >= Slack(s)
    ensures Slack(Skip(s)) == Slack(s) <==> s.next >= s.regions[s.cur].end
  {
  }

  lemma SkipGivesUp(s: State)
    requires s.cur < |s.regions| && RegionsOk(s.regions) && s.regions[s.cur].base <= s.next < s.regions[s.cur].end
    ensures Bumpable(s, s.next) && !Bumpable(Skip(s), s.next)
  {
  }

  /** The counter stays as exact as it was if and only if every frame not handed out can still be. */
  lemma {:induction false} BumpSlack(s: State, live: set<nat>, n: nat)
    requires Valid(s, live) && n >= 1
    ensures var (s', r) := Bump(s, n);
            && Slack(s') >= Slack(s)
            && (Slack(s') == Slack(s) <==>
                forall g: nat :: Bumpable(s, g) ==> Bumpable(s', g) || (r.Some? && g in Block(r.value, n)))
    decreases |s.regions| - s.cur
  {
    hide Bumpable, BumpCount, RegionsOk;
    if s.cur < |s.regions| {
      if s.next + n <= s.regions[s.cur].end {
        BumpedFrames(s, n);
      } else {
        SkipSpec(s, live);
        SkipSlack(s);
        BumpSlack(Skip(s), live, n);
        if s.next < s.regions[s.cur].end {
          SkipGivesUp(s);
          BumpSpec(Skip(s), live, n);
        }
      }
    }
  }

  lemma BumpedFrames(s: State, n: nat)
    requires s.cur < |s.regions| && s.next + n <= s.regions[s.cur].end && s.free >= BumpCount(s)
    ensures Slack(Bump(s, n).0) == Slack(s)
    ensures forall g: nat :: Bumpable(s, g) ==> Bumpable(Bump(s, n).0, g) || g in Block(s.next, n)
  {
    forall g: nat | s.next <= g < s.next + n ensures g in Block(s.next, n) {
      assert Block(s.next, n)[g - s.next] == g;
    }
  }

  /** Single frames never make the counter less exact, in either direction. */
  lemma SingleFramesKeepSlack(s: State, live: set<nat>, f: nat)
    requires Valid(s, live)
    ensures Slack(AllocFrame(s).0) == Slack(s)
    ensures f in live ==> FreeFrame(s, f).Some? && Slack(FreeFrame(s, f).value) == Slack(s)
  {
    hide Valid, Bumpable, Bump, PagesFrom;
    if s.freeList != [] {
      ReuseSpec(s, live);
    } else {
      BumpSpec(s, live, 1);
      BumpSlack(s, live, 1);
      var r := Bump(s, 1).1;
      assert r.Some? ==> Block(r.value, 1)[0] == r.value;
    }
    if f in live {
      FreeFrameSpec(s, live, f);
    }
  }

  // ----- The allocator itself -----

  class Pmm {
    var regions: seq<Region>
    var cur: nat
    var next: nat
    var free: nat
    var freeList: seq<nat>

    function Abs(): State
      reads this
    {
      State(regions, cur, next, free, freeList)
    }

    constructor ()
      ensures Abs() == EMPTY
    {
      regions, cur, next, free, freeList := [], 0, 0, 0, [];
    }

    /** Takes the whole frames of the byte range; a range beyond the table's capacity is ignored. */
    method AddRegionBytes(base: nat, len: nat)
      modifies this
      ensures Abs() == AddRegion(old(Abs()), base, len)
    {
      if |regions| >= MAX_REGIONS {
        return;
      }
      var alignedBase := FrameUp(base);
      var alignedEnd := FrameDown(base + len);
      if alignedEnd <= alignedBase {
        return;
      }
      free := free + (alignedEnd - alignedBase);
      regions := regions + [Region(alignedBase, alignedEnd)];
    }

    method Start()
      modifies this
      ensures Abs() == Init(old(Abs()))
    {
      var i := 0;
      while i < |regions|
        invariant i <= |regions|
        invariant Abs() == old(Abs())
        invariant FirstAbove(regions, i) == FirstAbove(regions, 0)
      {
        if regions[i].end > LOW_MEMORY {
          cur := i;
          next := Max(regions[i].base, KERNEL_END);
          return;
        }
        i := i + 1;
      }
    }

    method Alloc(ghost live: set<nat>) returns (r: Option<nat>)
      requires Valid(Abs(), live)
      modifies this
      ensures (Abs(), r) == AllocFrame(old(Abs()))
    {
      if freeList != [] {
        r := Some(freeList[|freeList| - 1]);
        freeList := freeList[..|freeList| - 1];
        free := free - 1;
        return;
      }
      while true
        invariant freeList == []
        invariant Bump(Abs(), 1) == AllocFrame(old(Abs()))
        decreases |regions| - cur
      {
        if cur >= |regions| {
          return None;
        }
        var end := regions[cur].end;
        var start := next;
        if start + 1 <= end {
          next := next + 1;
          if free > 0 {
            free := free - 1;
          }
          return Some(start);
        }
        cur := cur + 1;
        if cur < |regions| {
          next := regions[cur].base;
        }
      }
    }

    method AllocBlock(n: nat) returns (r: Option<nat>)
      modifies this
      ensures (Abs(), r) == AllocContiguous(old(Abs()), n)
    {
      while true
        invariant Bump(Abs(), n) == AllocContiguous(old(Abs()), n)
        decreases |regions| - cur
      {
        if cur >= |regions| {
          return None;
        }
        var end := regions[cur].end;
        var start := next;
        if start + n <= end {
          next := next + n;
          free := if free >= n then free - n else 0;
          return Some(start);
        }
        cur := cur + 1;
        if cur < |regions| {
          next := regions[cur].base;
        }
      }
    }

    /** Scrubs the frame, then returns it to the pool; `panicked` is the double-free guard. */
    method Free(mem: Memory, f: nat) returns (panicked: bool)
      modifies this, mem
      ensures mem.frames == old(mem.frames)[f := ZeroData()]
      ensures panicked <==> FreeFrame(old(Abs()), f).None?
      ensures panicked ==> Abs() == old(Abs())
      ensures !panicked ==> Abs() == FreeFrame(old(Abs()), f).value
    {
      mem.ZeroAsData(f);
      if f in freeList {
        return true;
      }
      freeList := freeList + [f];
      free := free + 1;
      panicked := false;
    }
  }
}
