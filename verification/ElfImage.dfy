/**
 Executables as a linker writes them (System V gABI, chapters 4 and 5), and what the loaders of
 kernel/src/fs/elf.rs read back: a writer that shares nothing with the reader but the file.
 */
module ElfImage {
  import opened Prelude
  import opened PhysicalMemory
  import opened FrameAllocator
  import opened Paging
  import opened Elf

  const FILE_HEADER: nat := 64
  const MAGIC: seq<byte> := [0x7F, 0x45, 0x4C, 0x46]
  const CLASS_64: byte := 2
  const EXECUTABLE: nat := 2
  const X86_64: nat := 0x3E
  const PT_LOAD: nat := 1

  /** The fields of the file header a loader depends on. */
  datatype Header = Header(
    magic: seq<byte>, bits: byte, kind: nat, machine: nat, entry: nat, phoff: nat, phentsize: nat, phnum: nat)

  predicate HeaderOk(h: Header) {
    && |h.magic| == 4 && h.kind < U16 && h.machine < U16 && h.entry < U64
    && h.phoff < U64 && h.phentsize < U16 && h.phnum < U16
  }

  /** `e_ident`, then the fields at their offsets; `e_version` is 1, `e_ehsize` 64, there are no sections. */
  function HeaderByte(h: Header, i: nat): byte
    requires |h.magic| == 4 && i < FILE_HEADER
  {
    if i < 4 then h.magic[i]
    else if i == 4 then h.bits
    else if i == 5 || i == 6 || i == 20 then 1
    else if 16 <= i < 18 then ByteOf(h.kind, i - 16)
    else if 18 <= i < 20 then ByteOf(h.machine, i - 18)
    else if 24 <= i < 32 then ByteOf(h.entry, i - 24)
    else if 32 <= i < 40 then ByteOf(h.phoff, i - 32)
    else if i == 52 then FILE_HEADER
    else if 54 <= i < 56 then ByteOf(h.phentsize, i - 54)
    else if 56 <= i < 58 then ByteOf(h.phnum, i - 56)
    else 0
  }

  function HeaderBytes(h: Header): (d: seq<byte>)
    requires |h.magic| == 4
    ensures |d| == FILE_HEADER
  {
    seq(FILE_HEADER, i requires 0 <= i < FILE_HEADER => HeaderByte(h, i))
  }

  /** Every field is read back, and the first one that does not fit is the error reported. */
  lemma HeaderReads(h: Header, d: seq<byte>)
    requires HeaderOk(h) && |d| >= FILE_HEADER && d[..FILE_HEADER] == HeaderBytes(h)
    ensures HeaderError(d) ==
            if h.magic != MAGIC then Some(BadMagic)
            else if h.bits != CLASS_64 then Some(Not64Bit)
            else if h.kind != EXECUTABLE then Some(NotExecutable)
            else if h.machine != X86_64 then Some(NotX8664)
            else None
    ensures Entry64(d) == h.entry && HeaderCount(d) == h.phnum && HeaderSize(d) == h.phentsize
    ensures Little(d, 32, 8) == h.phoff
  {
    hide Little, Limit, ByteOf;
    Limits();
    forall i | 0 <= i < FILE_HEADER ensures d[i] == HeaderByte(h, i) {
      assert d[..FILE_HEADER][i] == d[i];
    }
    assert d[..4] == h.magic;
    LittleOf(d, 16, 2, h.kind);
    LittleOf(d, 18, 2, h.machine);
    LittleOf(d, 24, 8, h.entry);
    LittleOf(d, 32, 8, h.phoff);
    LittleOf(d, 54, 2, h.phentsize);
    LittleOf(d, 56, 2, h.phnum);
  }

  // ----- Program headers -----

  /** One program header with its data; the loaders ignore the last four fields. */
  datatype Part = Part(kind: nat, segment: Segment, readable: bool, otherFlags: nat, paddr: nat, align: nat)

  predicate PartOk(p: Part) {
    && p.kind < U32 && p.segment.vaddr < U64 && p.segment.memSize < U64
    && p.otherFlags < 0x2000_0000 && p.paddr < U64 && p.align < U64
  }

  /** PF_X is 1, PF_W is 2, PF_R is 4. */
  function Flags(p: Part): nat {
    (if p.segment.executable then 1 else 0) + (if p.segment.writable then 2 else 0)
    + (if p.readable then 4 else 0) + 8 * p.otherFlags
  }

  lemma LowBit(bit: nat, rest: nat)
    requires bit < 2
    ensures (bit + 2 * rest) % 2 == bit && (bit + 2 * rest) / 2 == rest
  {
  }

  lemma FlagsRead(p: Part)
    ensures Flags(p) % 2 == 1 <==> p.segment.executable
    ensures Flags(p) / 2 % 2 == 1 <==> p.segment.writable
  {
    var x, w := if p.segment.executable then 1 else 0, if p.segment.writable then 1 else 0;
    var rest := (if p.readable then 1 else 0) + 2 * p.otherFlags;
    LowBit(x, w + 2 * rest);
    LowBit(w, rest);
  }

  function PartByte(p: Part, off: nat, i: nat): byte
    requires i < PROGRAM_HEADER
  {
    if i < 4 then ByteOf(p.kind, i)
    else if i < 8 then ByteOf(Flags(p), i - 4)
    else if i < 16 then ByteOf(off, i - 8)
    else if i < 24 then ByteOf(p.segment.vaddr, i - 16)
    else if i < 32 then ByteOf(p.paddr, i - 24)
    else if i < 40 then ByteOf(|p.segment.data|, i - 32)
    else if i < 48 then ByteOf(p.segment.memSize, i - 40)
    else ByteOf(p.align, i - 48)
  }

  function PartBytes(p: Part, off: nat): (d: seq<byte>)
    ensures |d| == PROGRAM_HEADER
  {
    seq(PROGRAM_HEADER, i requires 0 <= i < PROGRAM_HEADER => PartByte(p, off, i))
  }

  /** The program headers, when the first one's data starts at `off`. */
  function Table(parts: seq<Part>, off: nat): (d: seq<byte>)
    ensures |d| == |parts| * PROGRAM_HEADER
  {
    if parts == [] then []
    else PartBytes(parts[0], off) + Table(parts[1..], off + |parts[0].segment.data|)
  }

  function Contents(parts: seq<Part>): seq<byte> {
    if parts == [] then [] else parts[0].segment.data + Contents(parts[1..])
  }

  /** Bytes of data before part `i`. */
  function Before(parts: seq<Part>, i: nat): nat
    requires i <= |parts|
  {
    if i == 0 then 0 else |parts[0].segment.data| + Before(parts[1..], i - 1)
  }

  lemma {:induction false} TableAt(parts: seq<Part>, off: nat, i: nat, k: nat)
    requires i < |parts| && k < PROGRAM_HEADER
    ensures Table(parts, off)[i * PROGRAM_HEADER + k] == PartByte(parts[i], off + Before(parts, i), k)
    decreases i
  {
    hide PartByte;
    if i > 0 {
      var rest, off' := parts[1..], off + |parts[0].segment.data|;
      TableAt(rest, off', i - 1, k);
      assert Table(parts, off)[PROGRAM_HEADER + ((i - 1) * PROGRAM_HEADER + k)]
          == Table(rest, off')[(i - 1) * PROGRAM_HEADER + k];
    }
  }

  lemma {:induction false} ContentsAt(parts: seq<Part>, i: nat)
    requires i < |parts|
    ensures Before(parts, i) + |parts[i].segment.data| <= |Contents(parts)|
    ensures Contents(parts)[Before(parts, i)..Before(parts, i) + |parts[i].segment.data|] == parts[i].segment.data
    decreases i
  {
    if i > 0 {
      ContentsAt(parts[1..], i - 1);
      var lo, hi := Before(parts[1..], i - 1), Before(parts[1..], i - 1) + |parts[i].segment.data|;
      var first := |parts[0].segment.data|;
      assert Contents(parts)[first + lo..first + hi] == Contents(parts[1..])[lo..hi];
    }
  }

  // ----- The whole file -----

  function FirstData(parts: seq<Part>): nat { FILE_HEADER + |parts| * PROGRAM_HEADER }

  function Image(entry: nat, parts: seq<Part>): seq<byte> {
    HeaderBytes(Header(MAGIC, CLASS_64, EXECUTABLE, X86_64, entry, FILE_HEADER, PROGRAM_HEADER, |parts|))
    + Table(parts, FirstData(parts)) + Contents(parts)
  }

  predicate Writable(entry: nat, parts: seq<Part>) {
    entry < U64 && |parts| < U16 && |Image(entry, parts)| < U64 && forall i :: 0 <= i < |parts| ==> PartOk(parts[i])
  }

  /** The PT_LOAD segments among the first `n` parts. */
  function LoadList(parts: seq<Part>, n: nat): seq<Segment>
    requires n <= |parts|
  {
    if n == 0 then []
    else LoadList(parts, n - 1) + if parts[n - 1].kind == PT_LOAD then [parts[n - 1].segment] else []
  }

  lemma ImageHeader(entry: nat, parts: seq<Part>)
    requires Writable(entry, parts)
    ensures var d := Image(entry, parts);
            && HeaderError(d).None? && Readable(d) && Entry64(d) == entry && HeaderCount(d) == |parts|
            && HeaderSize(d) == PROGRAM_HEADER && Little(d, 32, 8) == FILE_HEADER
  {
    hide HeaderError, HeaderBytes, Little, Table, Contents;
    var d := Image(entry, parts);
    var h := Header(MAGIC, CLASS_64, EXECUTABLE, X86_64, entry, FILE_HEADER, PROGRAM_HEADER, |parts|);
    assert d[..FILE_HEADER] == HeaderBytes(h);
    HeaderReads(h, d);
  }

  lemma PlaceOfHeader(entry: nat, parts: seq<Part>, i: nat)
    requires Writable(entry, parts) && i < |parts|
    ensures var d := Image(entry, parts);
            && |d| >= FILE_HEADER && HeaderAt(d, i) == FILE_HEADER + i * PROGRAM_HEADER
            && HeaderEnd(d, i) <= FirstData(parts) <= |d|
  {
    hide Little, HeaderBytes, Contents, HeaderError, Table;
    ImageHeader(entry, parts);
    assert (i + 1) * PROGRAM_HEADER <= |parts| * PROGRAM_HEADER;
  }

  lemma ByteInHeader(entry: nat, parts: seq<Part>, i: nat, k: nat)
    requires Writable(entry, parts) && i < |parts| && k < PROGRAM_HEADER
    ensures var at := FILE_HEADER + i * PROGRAM_HEADER;
            at + k < |Image(entry, parts)|
            && Image(entry, parts)[at + k] == PartByte(parts[i], FirstData(parts) + Before(parts, i), k)
  {
    hide HeaderBytes, Contents, Table, PartByte;
    TableAt(parts, FirstData(parts), i, k);
    assert (i + 1) * PROGRAM_HEADER <= |parts| * PROGRAM_HEADER;
  }

  /** The field of `n` bytes at offset `o` of header `i`. */
  lemma FieldReads(entry: nat, parts: seq<Part>, i: nat, o: nat, n: nat, v: nat)
    requires Writable(entry, parts) && i < |parts| && o + n <= PROGRAM_HEADER && v < Limit(n)
    requires forall k :: 0 <= k < n ==> PartByte(parts[i], FirstData(parts) + Before(parts, i), o + k) == ByteOf(v, k)
    ensures var at := FILE_HEADER + i * PROGRAM_HEADER;
            at + o + n <= |Image(entry, parts)| && Little(Image(entry, parts), at + o, n) == v
  {
    hide Image, PartByte, ByteOf, Limit, FirstData, Little;
    var d, at := Image(entry, parts), FILE_HEADER + i * PROGRAM_HEADER;
    ByteInHeader(entry, parts, i, PROGRAM_HEADER - 1);
    forall k | 0 <= k < n ensures d[at + o + k] == ByteOf(v, k) {
      ByteInHeader(entry, parts, i, o + k);
    }
    LittleOf(d, at + o, n, v);
  }

  lemma FieldsOf(entry: nat, parts: seq<Part>, i: nat)
    requires Writable(entry, parts) && i < |parts|
    ensures var d := Image(entry, parts);
            && Readable(d) && InFile(d, i) && (IsLoad(d, i) <==> parts[i].kind == PT_LOAD)
            && FileOff(d, i) == FirstData(parts) + Before(parts, i) && FileSize(d, i) == |parts[i].segment.data|
            && Little(d, HeaderAt(d, i) + 4, 4) == Flags(parts[i])
            && Little(d, HeaderAt(d, i) + 16, 8) == parts[i].segment.vaddr
            && Little(d, HeaderAt(d, i) + 40, 8) == parts[i].segment.memSize
  {
    hide Little, Limit, ByteOf, Image, HeaderAt, HeaderError, HeaderSize, FirstData;
    Limits();
    ImageHeader(entry, parts);
    PlaceOfHeader(entry, parts, i);
    DataInFile(entry, parts, i);
    var p := parts[i];
    FieldReads(entry, parts, i, 0, 4, p.kind);
    FieldReads(entry, parts, i, 4, 4, Flags(p));
    FieldReads(entry, parts, i, 8, 8, FirstData(parts) + Before(parts, i));
    FieldReads(entry, parts, i, 16, 8, p.segment.vaddr);
    FieldReads(entry, parts, i, 32, 8, |p.segment.data|);
    FieldReads(entry, parts, i, 40, 8, p.segment.memSize);
  }

  lemma DataInFile(entry: nat, parts: seq<Part>, i: nat)
    requires Writable(entry, parts) && i < |parts|
    ensures var d, off := Image(entry, parts), FirstData(parts) + Before(parts, i);
            off + |parts[i].segment.data| <= |d| && d[off..off + |parts[i].segment.data|] == parts[i].segment.data
  {
    hide HeaderBytes, Table, Contents;
    ContentsAt(parts, i);
    var d, lo := Image(entry, parts), Before(parts, i);
    assert d[FirstData(parts) + lo..FirstData(parts) + lo + |parts[i].segment.data|]
        == Contents(parts)[lo..lo + |parts[i].segment.data|];
  }

  lemma SegmentReads(entry: nat, parts: seq<Part>, i: nat)
    requires Writable(entry, parts) && i < |parts|
    ensures var d := Image(entry, parts);
            && Readable(d) && GoodHeader(d, i) && (IsLoad(d, i) <==> parts[i].kind == PT_LOAD)
            && HeaderEnd(d, i) <= |d| && FileEnd(d, i) <= |d|
            && (IsLoad(d, i) ==> SegmentAt(d, i) == parts[i].segment)
  {
    hide Little, Image, HeaderAt, HeaderSize, Flags;
    FieldsOf(entry, parts, i);
    DataInFile(entry, parts, i);
    FlagsRead(parts[i]);
  }

  /** The round trip: whatever is written, the reader finds no error and exactly the segments written. */
  lemma {:induction false} ImageRoundTrip(entry: nat, parts: seq<Part>, n: nat)
    requires Writable(entry, parts) && n <= |parts|
    ensures var d := Image(entry, parts);
            && HeaderError(d).None? && Readable(d) && Entry64(d) == entry && HeaderCount(d) == |parts|
            && GoodHeaders(d, n) && Segments(d, n) == LoadList(parts, n)
    decreases n
  {
    hide Little, Image, HeaderAt, HeaderError, GoodHeader, SegmentAt, IsLoad;
    ImageHeader(entry, parts);
    if n > 0 {
      ImageRoundTrip(entry, parts, n - 1);
      SegmentReads(entry, parts, n - 1);
    }
  }

  lemma ImageSane(entry: nat, parts: seq<Part>)
    requires Writable(entry, parts) && forall i :: 0 <= i < |parts| ==> Addressable(parts[i].segment)
    ensures Sane(Image(entry, parts))
  {
    hide Little, Image, HeaderAt, HeaderError, HeaderEnd, FileEnd, GoodHeader, SegmentAt, IsLoad, Addressable;
    var d := Image(entry, parts);
    ImageHeader(entry, parts);
    forall i: nat | i < HeaderCount(d) && GoodHeaders(d, i) ensures SaneAt(d, i) {
      SegmentReads(entry, parts, i);
    }
  }

  /** The page-by-page loader on a written image: its pages hold exactly the segments written, with their rights. */
  method LoadWritten(pmm: Pmm, mem: Memory, entry: nat, parts: seq<Part>, ghost live: set<nat>)
    returns (panicked: bool, r: Result<(nat, seq<Page>), ElfError>, ghost taken: seq<nat>)
    requires Writable(entry, parts) && (forall i :: 0 <= i < |parts| ==> Addressable(parts[i].segment))
    requires Valid(pmm.Abs(), live)
    modifies pmm, mem
    ensures panicked ==> exists n: nat :: n <= |parts| && !Covered(LoadList(parts, n))
    ensures !panicked && r.Ok? ==>
              && r.value.0 == entry
              && Layout(LoadList(parts, |parts|), r.value.1) && Holds(LoadList(parts, |parts|), r.value.1, mem.frames)
    ensures !panicked && r.Err? ==> AllocFrame(pmm.Abs()).1.None?
  {
    hide Image, Sane, HeaderError, Valid, AllocFrame, Layout, Holds, Covered, Backed, Leaked, GoodHeaders, LoadList;
    ImageSane(entry, parts);
    ImageRoundTrip(entry, parts, |parts|);
    forall n: nat | n <= |parts|
      ensures GoodHeaders(Image(entry, parts), n) && Segments(Image(entry, parts), n) == LoadList(parts, n)
    {
      ImageRoundTrip(entry, parts, n);
    }
    panicked, r, taken := LoadFresh(pmm, mem, Image(entry, parts), live);
  }
}
