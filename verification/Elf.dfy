/**
 The two ELF loaders of kernel/src/fs/elf.rs: `load` writes an image at its own addresses,
 `load_fresh` into newly allocated frames, one per page touched.
 */
module Elf {
  import opened Prelude
  import opened PhysicalMemory
  import opened FrameAllocator
  import opened Paging

  datatype ElfError = TooSmall | BadMagic | Not64Bit | NotExecutable | NotX8664 | SegmentOutOfBounds

  // ----- Reading the file -----

  function HeaderError(d: seq<byte>): Option<ElfError> {
    if |d| < 64 then Some(TooSmall)
    else if d[..4] != [0x7F, 0x45, 0x4C, 0x46] then Some(BadMagic)
    else if d[4] != 2 then Some(Not64Bit)
    else if Little(d, 16, 2) != 2 then Some(NotExecutable)
    else if Little(d, 18, 2) != 0x3E then Some(NotX8664)
    else None
  }

  function Entry64(d: seq<byte>): nat requires |d| >= 64 { Little(d, 24, 8) }

  function HeaderCount(d: seq<byte>): nat requires |d| >= 64 { Little(d, 56, 2) }

  function HeaderSize(d: seq<byte>): nat requires |d| >= 64 { Little(d, 54, 2) }

  /** Where program header `i` starts. */
  function HeaderAt(d: seq<byte>, i: nat): nat requires |d| >= 64 { Little(d, 32, 8) + Times(i, HeaderSize(d)) }

  /** Bytes of a program header the loaders look at. */
  const PROGRAM_HEADER: nat := 56

  /** The loaders read 56 bytes per header after checking for `HeaderSize` of them. */
  predicate Readable(d: seq<byte>) { |d| >= 64 && (HeaderCount(d) == 0 || HeaderSize(d) >= PROGRAM_HEADER) }

  predicate InFile(d: seq<byte>, i: nat)
    requires |d| >= 64
  {
    HeaderSize(d) >= PROGRAM_HEADER && HeaderEnd(d, i) <= |d|
  }

  function HeaderEnd(d: seq<byte>, i: nat): nat requires |d| >= 64 { HeaderAt(d, i) + HeaderSize(d) }

  /** A PT_LOAD header with the file bytes it names. */
  datatype Segment = Segment(vaddr: nat, data: seq<byte>, memSize: nat, writable: bool, executable: bool)

  predicate IsLoad(d: seq<byte>, i: nat)
    requires Readable(d) && InFile(d, i)
  {
    Little(d, HeaderAt(d, i), 4) == 1
  }

  function FileOff(d: seq<byte>, i: nat): nat
    requires Readable(d) && InFile(d, i)
  {
    Little(d, HeaderAt(d, i) + 8, 8)
  }

  function FileSize(d: seq<byte>, i: nat): nat
    requires Readable(d) && InFile(d, i)
  {
    Little(d, HeaderAt(d, i) + 32, 8)
  }

  /** The header lies in the file and so does the segment it names. */
  predicate GoodHeader(d: seq<byte>, i: nat)
    requires Readable(d)
  {
    InFile(d, i) && (IsLoad(d, i) ==> FileOff(d, i) + FileSize(d, i) <= |d|)
  }

  predicate GoodHeaders(d: seq<byte>, n: nat)
    requires Readable(d)
  {
    forall i :: 0 <= i < n ==> GoodHeader(d, i)
  }

  function SegmentAt(d: seq<byte>, i: nat): Segment
    requires Readable(d) && GoodHeader(d, i) && IsLoad(d, i)
  {
    var h := HeaderAt(d, i);
    var flags := Little(d, h + 4, 4);
    Segment(Little(d, h + 16, 8), d[FileOff(d, i)..FileOff(d, i) + FileSize(d, i)], Little(d, h + 40, 8),
            flags / 2 % 2 == 1, flags % 2 == 1)
  }

  /** The PT_LOAD segments among the first `n` headers, in order. */
  function Segments(d: seq<byte>, n: nat): seq<Segment>
    requires Readable(d) && GoodHeaders(d, n)
  {
    if n == 0 then []
    else
      assert GoodHeader(d, n - 1);
      Segments(d, n - 1) + if IsLoad(d, n - 1) then [SegmentAt(d, n - 1)] else []
  }

  // ----- The bounds checks, in 64-bit arithmetic -----

  /** The comparison the source makes: the end of a range, as a `usize` sum, against the file's length. */
  predicate EndCheck(end: nat, len: nat) { end % U64 <= len }

  /** A range ending past 2^64 whose wrapped end looks inside the file. */
  predicate Fooled(end: nat, len: nat) { end >= U64 && end % U64 <= len }

  lemma EndCheckIs(end: nat, len: nat)
    requires len < U64
    ensures EndCheck(end, len) <==> end <= len || Fooled(end, len)
  {
  }

  function FileEnd(d: seq<byte>, i: nat): nat
    requires Readable(d) && InFile(d, i)
  {
    FileOff(d, i) + FileSize(d, i)
  }

  /** The source's two checks on header `i`; the second one reads the header the first one let through. */
  predicate Accepted(d: seq<byte>, i: nat)
    requires Readable(d) && i < HeaderCount(d) && |d| < U64 && HeaderEnd(d, i) < U64
  {
    EndCheck(HeaderEnd(d, i), |d|) && (IsLoad(d, i) ==> EndCheck(FileEnd(d, i), |d|))
  }

  /** The header is in the file, and the end of its segment wraps into the file. */
  predicate WrappedSegment(d: seq<byte>, i: nat)
    requires Readable(d)
  {
    InFile(d, i) && IsLoad(d, i) && Fooled(FileEnd(d, i), |d|)
  }

  /** The checks reject every header that is out of bounds, except exactly where the segment's end wraps. */
  lemma AcceptedIff(d: seq<byte>, i: nat)
    requires Readable(d) && i < HeaderCount(d) && |d| < U64 && HeaderEnd(d, i) < U64
    ensures Accepted(d, i) <==> GoodHeader(d, i) || WrappedSegment(d, i)
    ensures !(GoodHeader(d, i) && WrappedSegment(d, i))
  {
    hide HeaderAt, Little;
    EndCheckIs(HeaderEnd(d, i), |d|);
    if InFile(d, i) {
      EndCheckIs(FileEnd(d, i), |d|);
    }
  }

  /** Only a first header that is itself out of the file lets the end of a later header wrap. */
  lemma HeaderEndsDoNotWrap(d: seq<byte>, i: nat)
    requires Readable(d) && i < HeaderCount(d) && |d| + U32 <= U64 && InFile(d, 0)
    ensures HeaderEnd(d, i) < U64
  {
    hide Little;
    LittleBound(d, 56, 2);
    LittleBound(d, 54, 2);
    TimesBound(i, HeaderSize(d));
  }

  lemma TimesBound(i: nat, size: nat)
    requires i < U16 && size < U16
    ensures Times(i, size) + size <= U32
  {
    assert Times(i, size) + size == Times(i + 1, size) <= Times(i + 1, U16);
  }

  // ----- An image the checks let through -----

  /** One PT_LOAD header at 64, asking for 16 bytes at offset 2^64 - 8. */
  function WrappedImage(): (d: seq<byte>)
    ensures |d| == 120
  {
    seq(120, i requires 0 <= i < 120 => WrappedImageByte(i))
  }

  function WrappedImageByte(i: nat): byte {
    if i < 4 then [0x7F, 0x45, 0x4C, 0x46][i]
    else if i == 4 || i == 16 then 2
    else if i == 18 then 0x3E
    else if i == 32 then 64
    else if i == 54 then PROGRAM_HEADER
    else if i == 56 || i == 64 then 1
    else if i == 72 then 0xF8
    else if 72 < i < 80 then 0xFF
    else if i == 96 then 16
    else 0
  }

  lemma WrappedImageFields()
    ensures var d := WrappedImage();
            && HeaderError(d).None? && Readable(d) && HeaderCount(d) == 1 && HeaderAt(d, 0) == 64 && InFile(d, 0)
            && IsLoad(d, 0) && FileOff(d, 0) == U64 - 8 && FileSize(d, 0) == 16
  {
    hide Little, Times, Limit;
    var d := WrappedImage();
    assert d[..4] == [0x7F, 0x45, 0x4C, 0x46];
    LittleFirst(d, 16, 2);
    LittleFirst(d, 18, 2);
    LittleFirst(d, 32, 8);
    LittleFirst(d, 54, 2);
    LittleFirst(d, 56, 2);
    LittleFirst(d, 64, 4);
    LittleFirst(d, 96, 8);
    TimesZero(HeaderSize(d));
    OffsetField(d);
  }

  lemma TimesZero(size: nat)
    ensures Times(0, size) == 0
  {
  }

  lemma OffsetField(d: seq<byte>)
    requires |d| == 120 && d[72] == 0xF8 && forall k :: 73 <= k < 80 ==> d[k] == 0xFF
    ensures Little(d, 72, 8) == U64 - 8
  {
    LittleOnes(d, 73, 7);
    Limits();
    assert Limit(8) == 256 * Limit(7);
  }

  /** The checks accept its header, although its segment lies far outside the 120 bytes. */
  lemma WrappedImageAccepted()
    ensures var d := WrappedImage();
            HeaderError(d).None? && Readable(d) && 0 < HeaderCount(d) && HeaderEnd(d, 0) < U64 && Accepted(d, 0)
            && !GoodHeader(d, 0)
  {
    hide Little, HeaderError, HeaderAt, FileOff, FileSize, WrappedImage, HeaderCount;
    WrappedImageFields();
  }

  /** The segment's addresses, rounded up to pages, stay below 2^64. */
  predicate Addressable(s: Segment) { s.vaddr + Max(|s.data|, s.memSize) + FRAME_BYTES - 1 < U64 }

  /** What both loaders rely on: headers of full size, and no sum that wraps into the file before the first bad one. */
  ghost predicate Sane(d: seq<byte>) {
    HeaderError(d).None? ==>
      Readable(d) && |d| < U64 && forall i: nat :: i < HeaderCount(d) && GoodHeaders(d, i) ==> SaneAt(d, i)
  }

  ghost predicate SaneAt(d: seq<byte>, i: nat)
    requires Readable(d)
  {
    && !Fooled(HeaderEnd(d, i), |d|) && !WrappedSegment(d, i)
    && (GoodHeader(d, i) && IsLoad(d, i) ==> Addressable(SegmentAt(d, i)))
  }

  /** Chapter 5 of the System V gABI, "Program Header": the file size is at most the memory size. */
  predicate WellSized(segs: seq<Segment>) {
    forall i :: 0 <= i < |segs| ==> |segs[i].data| <= segs[i].memSize
  }

  predicate InSegment(s: Segment, a: nat) { s.vaddr <= a < s.vaddr + s.memSize }

  predicate InFilePart(s: Segment, a: nat) { s.vaddr <= a < s.vaddr + |s.data| }

  // ----- The flat loader -----

  ghost predicate Patched(m: map<nat, byte>, m': map<nat, byte>, to: nat, src: seq<byte>) {
    forall a: nat ::
      if to <= a < to + |src| then a in m' && m'[a] == src[a - to]
      else (a in m' <==> a in m) && (a in m ==> m'[a] == m[a])
  }

  class AddressSpace {
    var bytes: map<nat, byte>

    method Copy(to: nat, src: seq<byte>)
      modifies this
      ensures Patched(old(bytes), bytes, to, src)
    {
      for j := 0 to |src|
        invariant Patched(old(bytes), bytes, to, src[..j])
      {
        bytes := bytes[to + j := src[j]];
      }
      assert src[..|src|] == src;
    }
  }

  /** The byte `load` leaves at `a`: the last segment there decides. */
  function FlatByte(segs: seq<Segment>, a: nat): Option<byte> {
    if segs == [] then None
    else if InFilePart(Last(segs), a) then Some(Last(segs).data[a - Last(segs).vaddr])
    else if InSegment(Last(segs), a) then Some(0)
    else FlatByte(DropLast(segs), a)
  }

  /** `m` is `m0` with the segments written over it. */
  ghost predicate Overwritten(segs: seq<Segment>, m0: map<nat, byte>, m: map<nat, byte>) {
    forall a: nat :: match FlatByte(segs, a)
      case Some(b) => a in m && m[a] == b
      case None => (a in m <==> a in m0) && (a in m ==> m[a] == m0[a])
  }

  lemma HeaderErrorSize(d: seq<byte>)
    ensures HeaderError(d).None? ==> |d| >= 64
  {
  }

  lemma OverwriteNone(m: map<nat, byte>)
    ensures Overwritten([], m, m)
  {
  }

  lemma OverwriteOne(segs: seq<Segment>, s: Segment, m0: map<nat, byte>, m: map<nat, byte>,
                     m1: map<nat, byte>, m2: map<nat, byte>)
    requires Overwritten(segs, m0, m) && Patched(m, m1, s.vaddr, s.data)
    requires if s.memSize > |s.data| then Patched(m1, m2, s.vaddr + |s.data|, seq(s.memSize - |s.data|, _ => 0))
             else m2 == m1
    ensures Overwritten(segs + [s], m0, m2)
  {
    assert DropLast(segs + [s]) == segs;
  }

  /** Where no sum wraps into the file, the two comparisons are the two bounds. */
  lemma Checks(d: seq<byte>, i: nat)
    requires Readable(d) && i < HeaderCount(d) && |d| < U64
    requires !Fooled(HeaderEnd(d, i), |d|) && !WrappedSegment(d, i)
    ensures EndCheck(HeaderEnd(d, i), |d|) <==> InFile(d, i)
    ensures InFile(d, i) && IsLoad(d, i) ==> (EndCheck(FileEnd(d, i), |d|) <==> GoodHeader(d, i))
  {
    hide HeaderAt, Little;
    EndCheckIs(HeaderEnd(d, i), |d|);
    if InFile(d, i) {
      EndCheckIs(FileEnd(d, i), |d|);
    }
  }

  /** `load`. */
  method Load(d: seq<byte>, space: AddressSpace) returns (r: Result<nat, ElfError>)
    requires Sane(d)
    modifies space
    ensures HeaderError(d).Some? ==> r == Err(HeaderError(d).value) && space.bytes == old(space.bytes)
    ensures HeaderError(d).None? && !GoodHeaders(d, HeaderCount(d)) ==> r == Err(SegmentOutOfBounds)
    ensures HeaderError(d).None? && GoodHeaders(d, HeaderCount(d)) ==>
              r == Ok(Entry64(d)) && Overwritten(Segments(d, HeaderCount(d)), old(space.bytes), space.bytes)
  {
    hide HeaderError, Overwritten, HeaderAt, Little, Patched, EndCheck, Fooled, Addressable;
    var bad := HeaderError(d);
    HeaderErrorSize(d);
    if bad.Some? {
      return Err(bad.value);
    }
    OverwriteNone(space.bytes);
    for i := 0 to HeaderCount(d)
      invariant GoodHeaders(d, i)
      invariant Overwritten(Segments(d, i), old(space.bytes), space.bytes)
    {
      assert SaneAt(d, i);
      Checks(d, i);
      if !EndCheck(HeaderEnd(d, i), |d|) {
        assert !GoodHeader(d, i);
        return Err(SegmentOutOfBounds);
      }
      if !IsLoad(d, i) {
        assert Segments(d, i + 1) == Segments(d, i);
        continue;
      }
      if !EndCheck(FileEnd(d, i), |d|) {
        assert !GoodHeader(d, i);
        return Err(SegmentOutOfBounds);
      }
      var s := SegmentAt(d, i);
      ghost var m := space.bytes;
      space.Copy(s.vaddr, s.data);
      ghost var m1 := space.bytes;
      if s.memSize > |s.data| {
        space.Copy(s.vaddr + |s.data|, seq(s.memSize - |s.data|, _ => 0));
      }
      OverwriteOne(Segments(d, i), s, old(space.bytes), m, m1, space.bytes);
    }
    r := Ok(Entry64(d));
  }

  // ----- What the page-by-page loader builds -----

  function FirstPage(s: Segment): nat { s.vaddr / FRAME_BYTES }

  function EndPage(s: Segment): nat { (s.vaddr + s.memSize + FRAME_BYTES - 1) / FRAME_BYTES }

  predicate Touches(s: Segment, vpage: nat) { FirstPage(s) <= vpage < EndPage(s) }

  /** Where the next chunk of a segment goes. */
  function ChunkPage(s: Segment, copied: nat): nat { (s.vaddr + copied) / FRAME_BYTES }

  function ChunkOffset(s: Segment, copied: nat): nat { (s.vaddr + copied) % FRAME_BYTES }

  /**
   The pages a segment touches are those with a byte of its memory; without memory, it still touches the page
   of an address inside one.
   */
  lemma TouchesIff(s: Segment, vpage: nat)
    ensures s.memSize > 0 ==> (Touches(s, vpage) <==> exists a: nat :: InSegment(s, a) && a / FRAME_BYTES == vpage)
    ensures s.memSize == 0 ==> (Touches(s, vpage) <==> s.vaddr / FRAME_BYTES == vpage && s.vaddr % FRAME_BYTES != 0)
  {
    if s.memSize > 0 && Touches(s, vpage) {
      var a := Max(s.vaddr, vpage * FRAME_BYTES);
      assert InSegment(s, a) && a / FRAME_BYTES == vpage;
    }
  }

  /** The first segment that touches the page; its rights become the page's. */
  function FirstTouch(segs: seq<Segment>, vpage: nat): Option<Segment> {
    if segs == [] then None
    else if FirstTouch(DropLast(segs), vpage).Some? then FirstTouch(DropLast(segs), vpage)
    else if Touches(Last(segs), vpage) then Some(Last(segs))
    else None
  }

  /** What zeroed pages hold at `a` once the file parts were copied in order. */
  function FreshByte(segs: seq<Segment>, a: nat): byte {
    if segs == [] then 0
    else if InFilePart(Last(segs), a) then Last(segs).data[a - Last(segs).vaddr]
    else FreshByte(DropLast(segs), a)
  }

  /** The rights of a page, given the first segment on it. */
  predicate RightsFrom(s: Option<Segment>, p: Page) {
    s.Some? && p.writable == s.value.writable && p.executable == s.value.executable
  }

  predicate HasPage(pages: seq<Page>, vpage: nat) {
    exists k :: 0 <= k < |pages| && pages[k].vpage == vpage
  }

  /** One page per touched virtual page, with the rights of the first segment there. */
  ghost predicate Layout(segs: seq<Segment>, pages: seq<Page>) {
    && (forall j, k :: 0 <= j < k < |pages| ==> pages[j].vpage != pages[k].vpage)
    && (forall k :: 0 <= k < |pages| ==> RightsFrom(FirstTouch(segs, pages[k].vpage), pages[k]))
    && (forall vpage: nat :: FirstTouch(segs, vpage).Some? ==> HasPage(pages, vpage))
  }

  function At(vpage: nat, off: nat): nat { vpage * FRAME_BYTES + off }

  /** Every byte of every page is what `FreshByte` says. */
  ghost predicate Holds(segs: seq<Segment>, pages: seq<Page>, mem: Mem) {
    forall k :: 0 <= k < |pages| ==> PageHolds(segs, pages[k], mem)
  }

  ghost predicate PageHolds(segs: seq<Segment>, p: Page, mem: Mem) {
    IsData(mem, p.frame) &&
    forall off: nat :: off < FRAME_BYTES ==> mem[p.frame].bytes[off] == FreshByte(segs, At(p.vpage, off))
  }

  lemma TouchedByFilePart(s: Segment, a: nat)
    requires |s.data| <= s.memSize && InFilePart(s, a)
    ensures Touches(s, a / FRAME_BYTES)
  {
  }

  /** Every page of the last segment's file part is touched by some segment so far. */
  ghost predicate FileCovered(segs: seq<Segment>)
    requires segs != []
  {
    forall n :: 0 <= n < |Last(segs).data| ==> FirstTouch(segs, ChunkPage(Last(segs), n)).Some?
  }

  /** No file byte goes to a page without a frame: each file part lies on pages touched up to its segment. */
  ghost predicate Covered(segs: seq<Segment>) {
    segs == [] || (Covered(DropLast(segs)) && FileCovered(segs))
  }

  /** File sizes of at most the memory sizes are enough. */
  lemma {:induction false} WellSizedCovered(segs: seq<Segment>)
    requires WellSized(segs)
    ensures Covered(segs)
  {
    if segs != [] {
      var s := Last(segs);
      assert s == segs[|segs| - 1];
      WellSizedCovered(DropLast(segs));
      forall n | 0 <= n < |s.data| ensures FirstTouch(segs, ChunkPage(s, n)).Some? {
        TouchedByFilePart(s, s.vaddr + n);
      }
    }
  }

  lemma OneSegmentTouch(s: Segment, n: nat)
    ensures FirstTouch([s], ChunkPage(s, n)).Some? <==> ChunkPage(s, n) < EndPage(s)
  {
    assert DropLast([s]) == [] && Last([s]) == s;
  }

  /** An image of one segment: its file part stays on touched pages exactly when it ends on one. */
  lemma OneSegmentCovered(s: Segment)
    ensures FileCovered([s]) <==> s.data == [] || ChunkPage(s, |s.data| - 1) < EndPage(s)
  {
    hide FirstTouch, EndPage;
    assert Last([s]) == s;
    forall n: nat | n < |s.data| ensures ChunkPage(s, n) <= ChunkPage(s, |s.data| - 1) {
    }
    forall n: nat ensures FirstTouch([s], ChunkPage(s, n)).Some? <==> ChunkPage(s, n) < EndPage(s) {
      OneSegmentTouch(s, n);
    }
  }

  /** One file byte and no memory: the copy asks for a page that was never allocated. */
  lemma LookupFails()
    ensures !FileCovered([Segment(0, [7], 0, false, true)])
  {
    OneSegmentCovered(Segment(0, [7], 0, false, true));
  }

  lemma FilePartTouched(segs: seq<Segment>, a: nat)
    requires segs != [] && FileCovered(segs) && InFilePart(Last(segs), a)
    ensures FirstTouch(segs, a / FRAME_BYTES).Some?
  {
    assert ChunkPage(Last(segs), a - Last(segs).vaddr) == a / FRAME_BYTES;
  }

  /** A page no segment touches receives no file byte. */
  lemma {:induction false} UntouchedIsZero(segs: seq<Segment>, a: nat)
    requires Covered(segs) && FirstTouch(segs, a / FRAME_BYTES).None?
    ensures FreshByte(segs, a) == 0
  {
    if segs != [] {
      if InFilePart(Last(segs), a) {
        FilePartTouched(segs, a);
      }
      UntouchedIsZero(DropLast(segs), a);
    }
  }

  predicate Occupies(s: Segment, a: nat) { InSegment(s, a) || InFilePart(s, a) }

  /** Segment `j` zero-fills `a`, nothing later is there, and an earlier file byte at `a` is not zero. */
  predicate ZeroesByte(segs: seq<Segment>, j: nat, a: nat) {
    && j < |segs| && InSegment(segs[j], a) && !InFilePart(segs[j], a)
    && (forall k :: j < k < |segs| ==> !Occupies(segs[k], a))
    && FreshByte(segs[..j], a) != 0
  }

  ghost predicate ZeroedLate(segs: seq<Segment>, a: nat) { exists j: nat :: ZeroesByte(segs, j, a) }

  /** One more segment: it decides where it occupies, otherwise nothing changes. */
  lemma ZeroedLateLast(segs: seq<Segment>, a: nat)
    requires segs != []
    ensures ZeroedLate(segs, a) <==>
              if Occupies(Last(segs), a) then !InFilePart(Last(segs), a) && FreshByte(DropLast(segs), a) != 0
              else ZeroedLate(DropLast(segs), a)
  {
    hide FreshByte;
    var rest, n := DropLast(segs), |segs| - 1;
    assert segs[n] == Last(segs) && segs[..n] == rest;
    forall j: nat | j < n && !Occupies(Last(segs), a) ensures ZeroesByte(segs, j, a) <==> ZeroesByte(rest, j, a) {
      assert rest[..j] == segs[..j];
      assert forall k :: j < k < n ==> rest[k] == segs[k];
    }
    if Occupies(Last(segs), a) {
      assert ZeroesByte(segs, n, a) <==> !InFilePart(Last(segs), a) && FreshByte(rest, a) != 0;
      assert forall j: nat :: j < n ==> !ZeroesByte(segs, j, a);
    } else {
      assert !ZeroesByte(segs, n, a);
      if j: nat :| ZeroesByte(rest, j, a) {
        assert ZeroesByte(segs, j, a);
      }
    }
  }

  /**
   `load_fresh` against `load`: at an address some segment occupies, the two loaders leave the same byte
   exactly when no later zero-filled part covers a non-zero file byte there. Everywhere else the flat
   loader writes nothing and the page-by-page loader leaves zero.
   */
  lemma {:induction false} LoadersAgree(segs: seq<Segment>, a: nat)
    ensures (exists i :: 0 <= i < |segs| && Occupies(segs[i], a)) ==>
              (FlatByte(segs, a) == Some(FreshByte(segs, a)) <==> !ZeroedLate(segs, a))
    ensures (forall i :: 0 <= i < |segs| ==> !Occupies(segs[i], a)) ==>
              FlatByte(segs, a) == None && FreshByte(segs, a) == 0
  {
    if segs != [] {
      var rest := DropLast(segs);
      assert forall i :: 0 <= i < |rest| ==> rest[i] == segs[i];
      assert Last(segs) == segs[|segs| - 1];
      LoadersAgree(rest, a);
      ZeroedLateLast(segs, a);
      if !Occupies(Last(segs), a) {
        assert (exists i :: 0 <= i < |segs| && Occupies(segs[i], a)) <==>
               exists i :: 0 <= i < |rest| && Occupies(rest[i], a);
      }
    }
  }

  ghost predicate NonOverlapping(segs: seq<Segment>) {
    forall i, j, a :: 0 <= i < j < |segs| && Occupies(segs[i], a) ==> !Occupies(segs[j], a)
  }

  /** Segments that do not overlap never zero a byte late, so the loaders agree on them. */
  lemma NonOverlappingSuffices(segs: seq<Segment>, a: nat)
    requires NonOverlapping(segs)
    ensures !ZeroedLate(segs, a)
  {
    forall j: nat ensures !ZeroesByte(segs, j, a) {
      if j < |segs| && Occupies(segs[j], a) {
        assert forall i :: 0 <= i < j ==> !Occupies(segs[i], a);
        NoFileByte(segs[..j], a);
      }
    }
  }

  lemma {:induction false} NoFileByte(segs: seq<Segment>, a: nat)
    requires forall i :: 0 <= i < |segs| ==> !InFilePart(segs[i], a)
    ensures FreshByte(segs, a) == 0
  {
    if segs != [] {
      NoFileByte(DropLast(segs), a);
    }
  }

  /** Two well-sized segments on which the loaders differ. */
  lemma LateZeroingDiffers()
    ensures var segs := [Segment(0, [7], 1, false, true), Segment(0, [], 1, true, false)];
            WellSized(segs) && ZeroedLate(segs, 0) && FlatByte(segs, 0) != Some(FreshByte(segs, 0))
  {
    var segs := [Segment(0, [7], 1, false, true), Segment(0, [], 1, true, false)];
    assert segs[..1] == [Segment(0, [7], 1, false, true)] && InFilePart(Last(segs[..1]), 0);
    assert ZeroesByte(segs, 1, 0);
    assert Occupies(segs[1], 0);
    LoadersAgree(segs, 0);
  }

  /** No segment both writable and executable: then no page is. */
  lemma NoWritableExecutable(segs: seq<Segment>, pages: seq<Page>)
    requires Layout(segs, pages)
    requires forall i :: 0 <= i < |segs| ==> !(segs[i].writable && segs[i].executable)
    ensures forall k :: 0 <= k < |pages| ==> !(pages[k].writable && pages[k].executable)
  {
    forall k | 0 <= k < |pages| ensures !(pages[k].writable && pages[k].executable) {
      assert RightsFrom(FirstTouch(segs, pages[k].vpage), pages[k]);
      FirstTouchIsOne(segs, pages[k].vpage);
    }
  }

  lemma {:induction false} FirstTouchIsOne(segs: seq<Segment>, vpage: nat)
    requires FirstTouch(segs, vpage).Some?
    ensures FirstTouch(segs, vpage).value in segs
  {
    if FirstTouch(DropLast(segs), vpage).Some? {
      FirstTouchIsOne(DropLast(segs), vpage);
    }
  }

  // ----- The page-by-page loader -----

  /** The loader's frames: pages and frames go together, and only those frames changed. */
  ghost predicate Backed(pm0: State, s: State, m0: Mem, mem: Mem, pages: seq<Page>, taken: seq<nat>) {
    && Take(pm0, |taken|) == Some((s, taken))
    && NoDup(taken)
    && |pages| == |taken| && (forall k :: 0 <= k < |pages| ==> pages[k].frame == taken[k])
    && (forall g: nat :: g !in taken ==> SameAt(m0, mem, g))
  }

  /** `segs` laid out, and of segment `s` the pages before `upTo`. */
  ghost predicate LayoutUpTo(segs: seq<Segment>, s: Segment, upTo: nat, pages: seq<Page>) {
    && (forall j, k :: 0 <= j < k < |pages| ==> pages[j].vpage != pages[k].vpage)
    && (forall k :: 0 <= k < |pages| ==> RightsFrom(FirstTouch(segs + [s], pages[k].vpage), pages[k]))
    && (forall vpage: nat ::
          FirstTouch(segs, vpage).Some? || (Touches(s, vpage) && vpage < upTo) ==> HasPage(pages, vpage))
  }

  lemma TouchAppend(segs: seq<Segment>, s: Segment)
    ensures forall vpage: nat :: FirstTouch(segs + [s], vpage) ==
              if FirstTouch(segs, vpage).Some? then FirstTouch(segs, vpage)
              else if Touches(s, vpage) then Some(s) else None
  {
    assert DropLast(segs + [s]) == segs;
  }

  lemma LayoutStart(segs: seq<Segment>, s: Segment, pages: seq<Page>)
    requires Layout(segs, pages)
    ensures LayoutUpTo(segs, s, FirstPage(s), pages)
  {
    TouchAppend(segs, s);
  }

  lemma LayoutEnd(segs: seq<Segment>, s: Segment, upTo: nat, pages: seq<Page>)
    requires LayoutUpTo(segs, s, upTo, pages) && upTo >= EndPage(s)
    ensures Layout(segs + [s], pages)
  {
    TouchAppend(segs, s);
  }

  lemma LayoutKeep(segs: seq<Segment>, s: Segment, upTo: nat, pages: seq<Page>)
    requires LayoutUpTo(segs, s, upTo, pages) && HasPage(pages, upTo)
    ensures LayoutUpTo(segs, s, upTo + 1, pages)
  {
  }

  lemma LayoutAdd(segs: seq<Segment>, s: Segment, upTo: nat, pages: seq<Page>, frame: nat)
    requires LayoutUpTo(segs, s, upTo, pages) && Touches(s, upTo) && !HasPage(pages, upTo)
    ensures FirstTouch(segs, upTo).None?
    ensures LayoutUpTo(segs, s, upTo + 1, pages + [Page(upTo, frame, s.writable, s.executable)])
  {
    TouchAppend(segs, s);
    var p := Page(upTo, frame, s.writable, s.executable);
    forall vpage: nat | FirstTouch(segs, vpage).Some? || (Touches(s, vpage) && vpage < upTo + 1)
      ensures HasPage(pages + [p], vpage)
    {
      if vpage != upTo {
        assert HasPage(pages, vpage);
        var k :| 0 <= k < |pages| && pages[k].vpage == vpage;
        assert (pages + [p])[k].vpage == vpage;
      } else {
        assert (pages + [p])[|pages|].vpage == vpage;
      }
    }
  }

  /** Adding a zeroed page that no earlier segment touches. */
  lemma HoldsAdd(segs: seq<Segment>, pages: seq<Page>, m: Mem, p: Page)
    requires Covered(segs) && Holds(segs, pages, m) && FirstTouch(segs, p.vpage).None?
    requires forall k :: 0 <= k < |pages| ==> pages[k].frame != p.frame
    ensures Holds(segs, pages + [p], m[p.frame := ZeroData()])
  {
    var m' := m[p.frame := ZeroData()];
    forall off: nat | off < FRAME_BYTES ensures m'[p.frame].bytes[off] == FreshByte(segs, At(p.vpage, off)) {
      assert At(p.vpage, off) / FRAME_BYTES == p.vpage;
      UntouchedIsZero(segs, At(p.vpage, off));
    }
    forall k | 0 <= k < |pages| + 1 ensures PageHolds(segs, (pages + [p])[k], m') {
      assert k < |pages| ==> PageHolds(segs, pages[k], m);
    }
  }

  lemma BackedAdd(pm0: State, live: set<nat>, s: State, m0: Mem, m: Mem, pages: seq<Page>, taken: seq<nat>, p: Page)
    requires Valid(pm0, live) && Backed(pm0, s, m0, m, pages, taken) && AllocFrame(s).1 == Some(p.frame)
    ensures Backed(pm0, AllocFrame(s).0, m0, m[p.frame := ZeroData()], pages + [p], taken + [p.frame])
    ensures p.frame !in taken && forall k :: 0 <= k < |pages| ==> pages[k].frame != p.frame
  {
    hide Valid, AllocFrame, Take, Available;
    TakeMore(pm0, live, s, taken);
    var m' := m[p.frame := ZeroData()];
    forall g: nat | g !in taken + [p.frame] ensures SameAt(m0, m', g) {
      assert g !in taken && SameAt(m0, m, g);
    }
  }

  /** What a failed load leaves behind: the frames it took stay taken. */
  ghost predicate Leaked(pm0: State, s: State, m0: Mem, mem: Mem, taken: seq<nat>) {
    && (forall g: nat :: g !in taken ==> SameAt(m0, mem, g))
    && Take(pm0, |taken|).Some? && Take(pm0, |taken|).value.1 == taken
    && (s == Take(pm0, |taken|).value.0 || (s, None) == AllocFrame(Take(pm0, |taken|).value.0))
  }

  method FindPage(pages: seq<Page>, vpage: nat) returns (k: Option<nat>)
    ensures k.Some? ==> k.value < |pages| && pages[k.value].vpage == vpage
    ensures k.None? ==> forall j :: 0 <= j < |pages| ==> pages[j].vpage != vpage
  {
    for j := 0 to |pages|
      invariant forall i :: 0 <= i < j ==> pages[i].vpage != vpage
    {
      if pages[j].vpage == vpage {
        return Some(j);
      }
    }
    k := None;
  }

  /** The page loop for one segment: every page it touches gets a zeroed frame, unless it has one. */
  method AddPages(pmm: Pmm, mem: Memory, s: Segment, pages: seq<Page>, ghost segs: seq<Segment>,
                  ghost pm0: State, ghost live: set<nat>, ghost m0: Mem, ghost taken: seq<nat>)
    returns (ok: bool, pages': seq<Page>, ghost taken': seq<nat>)
    requires Valid(pm0, live) && Backed(pm0, pmm.Abs(), m0, mem.frames, pages, taken)
    requires Covered(segs) && Layout(segs, pages) && Holds(segs, pages, mem.frames)
    modifies pmm, mem
    ensures ok ==>
              && Backed(pm0, pmm.Abs(), m0, mem.frames, pages', taken')
              && Layout(segs + [s], pages') && Holds(segs, pages', mem.frames)
    ensures !ok ==> Leaked(pm0, pmm.Abs(), m0, mem.frames, taken') && AllocFrame(pmm.Abs()).1.None?
  {
    hide Valid, AllocFrame, Take, Holds, Layout, LayoutUpTo, FirstTouch, Covered;
    pages', taken' := pages, taken;
    LayoutStart(segs, s, pages);
    var vpage := FirstPage(s);
    while vpage < EndPage(s)
      invariant FirstPage(s) <= vpage
      invariant Backed(pm0, pmm.Abs(), m0, mem.frames, pages', taken')
      invariant LayoutUpTo(segs, s, vpage, pages') && Holds(segs, pages', mem.frames)
    {
      var k := FindPage(pages', vpage);
      if k.None? {
        TakeMore(pm0, live, pmm.Abs(), taken');
        ghost var s0 := pmm.Abs();
        var frame := pmm.Alloc(live + Elems(taken'));
        if frame.None? {
          ExhaustedStays(s0, live + Elems(taken'));
          ok := false;
          return;
        }
        var p := Page(vpage, frame.value, s.writable, s.executable);
        BackedAdd(pm0, live, s0, m0, mem.frames, pages', taken', p);
        LayoutAdd(segs, s, vpage, pages', frame.value);
        HoldsAdd(segs, pages', mem.frames, p);
        mem.ZeroAsData(frame.value);
        pages', taken' := pages' + [p], taken' + [frame.value];
      } else {
        LayoutKeep(segs, s, vpage, pages');
      }
      vpage := vpage + 1;
    }
    LayoutEnd(segs, s, vpage, pages');
    ok := true;
  }

  function Cut(s: Segment, n: nat): Segment
    requires n <= |s.data|
  {
    s.(data := s.data[..n])
  }

  lemma CutNothing(segs: seq<Segment>, s: Segment, pages: seq<Page>, m: Mem)
    requires Holds(segs, pages, m)
    ensures Holds(segs + [Cut(s, 0)], pages, m)
  {
    assert DropLast(segs + [Cut(s, 0)]) == segs;
    forall k | 0 <= k < |pages| ensures PageHolds(segs + [Cut(s, 0)], pages[k], m) {
      assert PageHolds(segs, pages[k], m);
    }
  }

  lemma CutGrows(segs: seq<Segment>, s: Segment, n: nat, n': nat, a: nat)
    requires n <= n' <= |s.data|
    ensures s.vaddr + n <= a < s.vaddr + n' ==> FreshByte(segs + [Cut(s, n')], a) == s.data[a - s.vaddr]
    ensures !(s.vaddr + n <= a < s.vaddr + n') ==> FreshByte(segs + [Cut(s, n')], a) == FreshByte(segs + [Cut(s, n)], a)
  {
    assert DropLast(segs + [Cut(s, n)]) == segs && DropLast(segs + [Cut(s, n')]) == segs;
  }

  lemma ChunkByte(segs: seq<Segment>, s: Segment, n: nat, chunk: nat, vpage: nat, o: nat)
    requires n + chunk <= |s.data| && ChunkOffset(s, n) + chunk <= FRAME_BYTES && o < FRAME_BYTES
    ensures FreshByte(segs + [Cut(s, n + chunk)], At(vpage, o)) ==
            if vpage == ChunkPage(s, n) && ChunkOffset(s, n) <= o < ChunkOffset(s, n) + chunk
            then s.data[n + o - ChunkOffset(s, n)]
            else FreshByte(segs + [Cut(s, n)], At(vpage, o))
  {
    CutGrows(segs, s, n, n + chunk, At(vpage, o));
    assert At(ChunkPage(s, n), ChunkOffset(s, n)) == s.vaddr + n;
    assert At(vpage, o) / FRAME_BYTES == vpage;
  }

  /** One chunk: the rest of the page, or the rest of the file bytes. */
  lemma ChunkCopied(segs: seq<Segment>, s: Segment, n: nat, chunk: nat, pages: seq<Page>, m: Mem, i: nat)
    requires n + chunk <= |s.data| && ChunkOffset(s, n) + chunk <= FRAME_BYTES
    requires i < |pages| && pages[i].vpage == ChunkPage(s, n)
    requires forall j, k :: 0 <= j < k < |pages| ==>
               pages[j].vpage != pages[k].vpage && pages[j].frame != pages[k].frame
    requires Holds(segs + [Cut(s, n)], pages, m) && IsData(m, pages[i].frame)
    ensures var off, f := ChunkOffset(s, n), pages[i].frame;
            Holds(segs + [Cut(s, n + chunk)], pages,
                  m[f := Data(m[f].bytes[..off] + s.data[n..n + chunk] + m[f].bytes[off + chunk..])])
  {
    hide FreshByte, ChunkOffset, ChunkPage;
    var off, f := ChunkOffset(s, n), pages[i].frame;
    var m' := m[f := Data(m[f].bytes[..off] + s.data[n..n + chunk] + m[f].bytes[off + chunk..])];
    forall k | 0 <= k < |pages| ensures PageHolds(segs + [Cut(s, n + chunk)], pages[k], m') {
      assert PageHolds(segs + [Cut(s, n)], pages[k], m);
      assert k != i ==> pages[k].vpage != pages[i].vpage && pages[k].frame != f;
      forall o: nat | o < FRAME_BYTES
        ensures m'[pages[k].frame].bytes[o] == FreshByte(segs + [Cut(s, n + chunk)], At(pages[k].vpage, o))
      {
        ChunkByte(segs, s, n, chunk, pages[k].vpage, o);
      }
    }
  }

  /** Only the frames of `pages` may differ. */
  ghost predicate OnlyPages(m: Mem, m': Mem, pages: seq<Page>) {
    forall g: nat :: NotPage(g, pages) ==> SameAt(m, m', g)
  }

  ghost predicate NotPage(g: nat, pages: seq<Page>) {
    forall k :: 0 <= k < |pages| ==> pages[k].frame != g
  }

  lemma OnlyPagesNone(m: Mem, pages: seq<Page>)
    ensures OnlyPages(m, m, pages)
  {
  }

  lemma OnlyPagesWrite(m0: Mem, m: Mem, pages: seq<Page>, i: nat, content: Frame)
    requires OnlyPages(m0, m, pages) && i < |pages|
    ensures OnlyPages(m0, m[pages[i].frame := content], pages)
  {
    forall g: nat | NotPage(g, pages) ensures SameAt(m0, m[pages[i].frame := content], g) {
      assert SameAt(m0, m, g);
    }
  }

  /**
   The chunked copy of one segment's file bytes. The page of every chunk is found, and the copy completes,
   exactly when every page of the file part is listed; otherwise the lookup's `unwrap` panics.
   */
  method CopyFile(mem: Memory, s: Segment, pages: seq<Page>, ghost segs: seq<Segment>) returns (panicked: bool)
    requires Layout(segs + [s], pages) && Holds(segs, pages, mem.frames)
    requires forall j, k :: 0 <= j < k < |pages| ==> pages[j].frame != pages[k].frame
    modifies mem
    ensures panicked <==> !FileCovered(segs + [s])
    ensures !panicked ==> Holds(segs + [s], pages, mem.frames)
    ensures OnlyPages(old(mem.frames), mem.frames, pages)
  {
    hide Holds, FreshByte, FirstTouch, OnlyPages, Layout, ChunkPage, FileCovered;
    OnlyPagesNone(mem.frames, pages);
    CutNothing(segs, s, pages, mem.frames);
    LayoutFrames(segs + [s], pages);
    var copied := 0;
    while copied < |s.data|
      invariant copied <= |s.data|
      invariant Holds(segs + [Cut(s, copied)], pages, mem.frames)
      invariant OnlyPages(old(mem.frames), mem.frames, pages)
      invariant forall n :: 0 <= n < copied ==> FirstTouch(segs + [s], ChunkPage(s, n)).Some?
    {
      var vpage := ChunkPage(s, copied);
      var off := ChunkOffset(s, copied);
      var i := FindPage(pages, vpage);
      PageListed(segs, s, copied, pages, i);
      if i.None? {
        return true;
      }
      var chunk := Min(|s.data| - copied, FRAME_BYTES - off);
      HoldsData(segs + [Cut(s, copied)], pages, mem.frames, i.value);
      ChunkCopied(segs, s, copied, chunk, pages, mem.frames, i.value);
      ghost var m := mem.frames;
      mem.WriteBytes(pages[i.value].frame, off, s.data[copied..copied + chunk]);
      OnlyPagesWrite(old(mem.frames), m, pages, i.value, mem.frames[pages[i.value].frame]);
      ChunkOnePage(s, copied, chunk);
      copied := copied + chunk;
    }
    AllCovered(segs, s);
    panicked := false;
    assert Cut(s, |s.data|) == s by {
      assert s.data[..|s.data|] == s.data;
    }
  }

  lemma LayoutFrames(segs: seq<Segment>, pages: seq<Page>)
    requires Layout(segs, pages)
    ensures forall j, k :: 0 <= j < k < |pages| ==> pages[j].vpage != pages[k].vpage
  {
  }

  lemma ChunkOnePage(s: Segment, copied: nat, chunk: nat)
    requires ChunkOffset(s, copied) + chunk <= FRAME_BYTES
    ensures forall n :: copied <= n < copied + chunk ==> ChunkPage(s, n) == ChunkPage(s, copied)
  {
  }

  /** The lookup fails exactly when no segment touches the page, and then the file part is not covered. */
  lemma PageListed(segs: seq<Segment>, s: Segment, copied: nat, pages: seq<Page>, i: Option<nat>)
    requires Layout(segs + [s], pages) && copied < |s.data|
    requires i.Some? ==> i.value < |pages| && pages[i.value].vpage == ChunkPage(s, copied)
    requires i.None? ==> forall j :: 0 <= j < |pages| ==> pages[j].vpage != ChunkPage(s, copied)
    ensures i.Some? <==> FirstTouch(segs + [s], ChunkPage(s, copied)).Some?
    ensures i.None? ==> !FileCovered(segs + [s])
  {
    hide FirstTouch, ChunkPage;
    assert Last(segs + [s]) == s;
    if i.Some? {
      assert RightsFrom(FirstTouch(segs + [s], pages[i.value].vpage), pages[i.value]);
    }
  }

  lemma AllCovered(segs: seq<Segment>, s: Segment)
    requires forall n :: 0 <= n < |s.data| ==> FirstTouch(segs + [s], ChunkPage(s, n)).Some?
    ensures FileCovered(segs + [s])
  {
    hide FirstTouch, ChunkPage;
    assert Last(segs + [s]) == s;
  }

  lemma HoldsData(segs: seq<Segment>, pages: seq<Page>, m: Mem, i: nat)
    requires Holds(segs, pages, m) && i < |pages|
    ensures IsData(m, pages[i].frame)
  {
    assert PageHolds(segs, pages[i], m);
  }

  /** Some segment before the first bad header has file bytes for a page no segment so far touches. */
  ghost predicate Uncovered(d: seq<byte>)
    requires Readable(d)
  {
    exists n: nat :: n <= HeaderCount(d) && GoodHeaders(d, n) && !Covered(Segments(d, n))
  }

  /** `pages` is a faithful page-by-page image of the whole file. */
  ghost predicate Loaded(d: seq<byte>, pages: seq<Page>, mem: Mem)
    requires Readable(d) && GoodHeaders(d, HeaderCount(d))
  {
    Layout(Segments(d, HeaderCount(d)), pages) && Holds(Segments(d, HeaderCount(d)), pages, mem)
  }

  lemma BackedKeep(pm0: State, s: State, m0: Mem, m: Mem, m': Mem, pages: seq<Page>, taken: seq<nat>)
    requires Backed(pm0, s, m0, m, pages, taken)
    requires OnlyPages(m, m', pages)
    ensures Backed(pm0, s, m0, m', pages, taken)
  {
    forall g: nat | g !in taken ensures SameAt(m0, m', g) {
      assert forall k :: 0 <= k < |pages| ==> pages[k].frame == taken[k] && taken[k] in taken;
      assert NotPage(g, pages) && SameAt(m, m', g) && SameAt(m0, m, g);
    }
  }

  lemma BackedDistinct(pm0: State, s: State, m0: Mem, m: Mem, pages: seq<Page>, taken: seq<nat>)
    requires Backed(pm0, s, m0, m, pages, taken)
    ensures forall j, k :: 0 <= j < k < |pages| ==> pages[j].frame != pages[k].frame
    ensures Leaked(pm0, s, m0, m, taken)
  {
    assert forall j, k :: 0 <= j < k < |pages| ==>
      pages[j].frame == taken[j] && pages[k].frame == taken[k] && taken[j] != taken[k];
  }

  /** All of the first `n` headers are good and every prefix of their segments is covered. */
  ghost predicate CoveredTo(d: seq<byte>, n: nat)
    requires Readable(d)
  {
    GoodHeaders(d, n) && forall m: nat :: m <= n ==> Covered(Segments(d, m))
  }

  lemma CoveredNext(d: seq<byte>, i: nat)
    requires Readable(d) && CoveredTo(d, i) && GoodHeader(d, i)
    ensures GoodHeaders(d, i + 1)
    ensures !IsLoad(d, i) ==> Segments(d, i + 1) == Segments(d, i) && CoveredTo(d, i + 1)
    ensures IsLoad(d, i) ==> Segments(d, i + 1) == Segments(d, i) + [SegmentAt(d, i)]
    ensures IsLoad(d, i) ==> (CoveredTo(d, i + 1) <==> FileCovered(Segments(d, i) + [SegmentAt(d, i)]))
    ensures IsLoad(d, i) && i < HeaderCount(d) && !FileCovered(Segments(d, i) + [SegmentAt(d, i)]) ==> Uncovered(d)
  {
    hide HeaderAt, Little, FileCovered;
    assert Covered(Segments(d, i));
    if IsLoad(d, i) {
      assert DropLast(Segments(d, i) + [SegmentAt(d, i)]) == Segments(d, i);
    }
  }

  /** Past the last header, or at the first bad one, no prefix was uncovered. */
  lemma CoveredEnd(d: seq<byte>, i: nat)
    requires Readable(d) && CoveredTo(d, i) && (i == HeaderCount(d) || (i < HeaderCount(d) && !GoodHeader(d, i)))
    ensures !Uncovered(d)
  {
    hide HeaderAt, Little, Covered, GoodHeader;
    forall n: nat | n <= HeaderCount(d) && GoodHeaders(d, n) ensures Covered(Segments(d, n)) {
      assert n <= i;
    }
  }

  /** An image whose file sizes are at most its memory sizes never makes the loader panic. */
  lemma WellSizedLoads(d: seq<byte>)
    requires Readable(d) && forall n: nat :: n <= HeaderCount(d) && GoodHeaders(d, n) ==> WellSized(Segments(d, n))
    ensures !Uncovered(d)
  {
    hide HeaderAt, Little, GoodHeader, WellSized, Covered;
    forall n: nat | n <= HeaderCount(d) && GoodHeaders(d, n) ensures Covered(Segments(d, n)) {
      WellSizedCovered(Segments(d, n));
    }
  }

  /**
   `load_fresh`. It fails on the same images as `load`, or when frames run out, and panics only where a
   file part needs a page that no segment touches; otherwise its pages hold the image.
   */
  method LoadFresh(pmm: Pmm, mem: Memory, d: seq<byte>, ghost live: set<nat>)
    returns (panicked: bool, r: Result<(nat, seq<Page>), ElfError>, ghost taken: seq<nat>)
    requires Sane(d) && Valid(pmm.Abs(), live)
    modifies pmm, mem
    ensures HeaderError(d).Some? ==> !panicked && r == Err(HeaderError(d).value)
    ensures panicked ==> HeaderError(d).None? && Uncovered(d)
    ensures HeaderError(d).None? && Uncovered(d) && !panicked ==> r.Err? && AllocFrame(pmm.Abs()).1.None?
    ensures HeaderError(d).None? && !GoodHeaders(d, HeaderCount(d)) && !panicked ==> r == Err(SegmentOutOfBounds)
    ensures HeaderError(d).None? && GoodHeaders(d, HeaderCount(d)) && !panicked ==>
              match r
              case Ok((entry, pages)) =>
                && entry == Entry64(d) && Loaded(d, pages, mem.frames)
                && Backed(old(pmm.Abs()), pmm.Abs(), old(mem.frames), mem.frames, pages, taken)
              case Err(e) => e == SegmentOutOfBounds && AllocFrame(pmm.Abs()).1.None?
    ensures !panicked && r.Err? ==> Leaked(old(pmm.Abs()), pmm.Abs(), old(mem.frames), mem.frames, taken)
  {
    hide HeaderError, HeaderAt, Little, Valid, AllocFrame, Take, Holds, Layout, Backed, Leaked, Covered, FileCovered,
         Uncovered, EndCheck, Fooled, Addressable;
    ghost var pm0, m0 := pmm.Abs(), mem.frames;
    panicked, taken := false, [];
    BackedNone(pm0, m0);
    BackedDistinct(pm0, pm0, m0, m0, [], []);
    var bad := HeaderError(d);
    HeaderErrorSize(d);
    if bad.Some? {
      return false, Err(bad.value), taken;
    }
    var pages: seq<Page> := [];
    LoadedNone(m0);
    NothingCovered();
    for i := 0 to HeaderCount(d)
      invariant !panicked && CoveredTo(d, i)
      invariant Backed(pm0, pmm.Abs(), m0, mem.frames, pages, taken)
      invariant Layout(Segments(d, i), pages) && Holds(Segments(d, i), pages, mem.frames)
    {
      BackedDistinct(pm0, pmm.Abs(), m0, mem.frames, pages, taken);
      assert SaneAt(d, i);
      Checks(d, i);
      if !EndCheck(HeaderEnd(d, i), |d|) {
        CoveredEnd(d, i);
        return false, Err(SegmentOutOfBounds), taken;
      }
      if !IsLoad(d, i) {
        CoveredNext(d, i);
        continue;
      }
      if !EndCheck(FileEnd(d, i), |d|) {
        CoveredEnd(d, i);
        return false, Err(SegmentOutOfBounds), taken;
      }
      CoveredNext(d, i);
      var s := SegmentAt(d, i);
      var ok;
      ok, pages, taken := AddPages(pmm, mem, s, pages, Segments(d, i), pm0, live, m0, taken);
      if !ok {
        return false, Err(SegmentOutOfBounds), taken;
      }
      BackedDistinct(pm0, pmm.Abs(), m0, mem.frames, pages, taken);
      ghost var m := mem.frames;
      panicked := CopyFile(mem, s, pages, Segments(d, i));
      if panicked {
        return true, Err(SegmentOutOfBounds), taken;
      }
      BackedKeep(pm0, pmm.Abs(), m0, m, mem.frames, pages, taken);
    }
    CoveredEnd(d, HeaderCount(d));
    r := Ok((Entry64(d), pages));
  }

  lemma NothingCovered()
    ensures Covered([])
  {
  }

  lemma BackedNone(pm: State, m: Mem)
    ensures Backed(pm, pm, m, m, [], [])
  {
  }

  lemma LoadedNone(m: Mem)
    ensures Layout([], []) && Holds([], [], m)
  {
  }
}
