/**
 Physical memory as the kernel sees it through the direct map: a store from frame number to
 what the frame was last zeroed for, 4096 bytes of data or 512 page-table entries.
 */
module PhysicalMemory {
  import opened Prelude

  const FRAME_BYTES: nat := 4096
  const ENTRIES: nat := 512

  /** A page-table entry; `addr` is a frame number (bits 12 to 51 of the word). */
  datatype Entry = Entry(
    present: bool, writable: bool, user: bool, noCache: bool, huge: bool, noExec: bool, addr: nat)

  datatype Frame = Data(bytes: seq<byte>) | Table(entries: seq<Entry>)

  const ABSENT: Entry := Entry(false, false, false, false, false, false, 0)

  function ZeroData(): (z: Frame)
    ensures z.Data? && |z.bytes| == FRAME_BYTES && forall i :: 0 <= i < FRAME_BYTES ==> z.bytes[i] == 0
  {
    Data(seq(FRAME_BYTES, _ => 0))
  }

  function ZeroTable(): (z: Frame)
    ensures z.Table? && |z.entries| == ENTRIES && forall i :: 0 <= i < ENTRIES ==> z.entries[i] == ABSENT
  {
    Table(seq(ENTRIES, _ => ABSENT))
  }

  predicate IsTable(mem: map<nat, Frame>, f: nat) {
    f in mem && mem[f].Table? && |mem[f].entries| == ENTRIES
  }

  predicate IsData(mem: map<nat, Frame>, f: nat) {
    f in mem && mem[f].Data? && |mem[f].bytes| == FRAME_BYTES
  }

  class Memory {
    var frames: map<nat, Frame>

    constructor (initial: map<nat, Frame>)
      ensures frames == initial
    {
      frames := initial;
    }

    method ZeroAsData(f: nat)
      modifies this
      ensures frames == old(frames)[f := ZeroData()]
    {
      frames := frames[f := ZeroData()];
    }

    method ZeroAsTable(f: nat)
      modifies this
      ensures frames == old(frames)[f := ZeroTable()]
    {
      frames := frames[f := ZeroTable()];
    }

    method WriteEntry(f: nat, i: nat, e: Entry)
      requires IsTable(frames, f) && i < ENTRIES
      modifies this
      ensures frames == old(frames)[f := Table(old(frames)[f].entries[i := e])]
    {
      frames := frames[f := Table(frames[f].entries[i := e])];
    }

    /** Copies `src` to offset `off` of data frame `f`. */
    method WriteBytes(f: nat, off: nat, src: seq<byte>)
      requires IsData(frames, f) && off + |src| <= FRAME_BYTES
      modifies this
      ensures frames == old(frames)[f := Data(old(frames)[f].bytes[..off] + src + old(frames)[f].bytes[off + |src|..])]
    {
      frames := frames[f := Data(frames[f].bytes[..off] + src + frames[f].bytes[off + |src|..])];
    }
  }

  // ----- The entry as a 64-bit word -----

  const PRESENT: bv64 := 1
  const WRITABLE: bv64 := 2
  const USER: bv64 := 4
  const NO_CACHE: bv64 := 0x10
  const HUGE: bv64 := 0x80
  const NO_EXECUTE: bv64 := 0x8000_0000_0000_0000
  const ADDR_MASK: bv64 := 0x000F_FFFF_FFFF_F000

  function Flag(b: bool, bit: bv64): bv64 { if b then bit else 0 }

  /** The word written for an entry whose frame has byte address `phys`. */
  function Pack(e: Entry, phys: bv64): bv64 {
    phys | Flag(e.present, PRESENT) | Flag(e.writable, WRITABLE) | Flag(e.user, USER)
    | Flag(e.noCache, NO_CACHE) | Flag(e.huge, HUGE) | Flag(e.noExec, NO_EXECUTE)
  }

  /** Flags and address never overlap in the word: each field is read back as written. */
  lemma PackKeepsFields(e: Entry, phys: bv64)
    requires phys & ADDR_MASK == phys
    ensures var w := Pack(e, phys);
            && w & ADDR_MASK == phys
            && (w & PRESENT != 0) == e.present
            && (w & WRITABLE != 0) == e.writable
            && (w & USER != 0) == e.user
            && (w & NO_CACHE != 0) == e.noCache
            && (w & HUGE != 0) == e.huge
            && (w & NO_EXECUTE != 0) == e.noExec
  {
  }

  /** They are where the processor looks: bits 0, 1, 2, 4, 7 and 63, and the address in bits 12 to 51. */
  lemma PackRoundTrip(e: Entry, phys: bv64)
    requires phys & 0x000F_FFFF_FFFF_F000 == phys
    ensures var w := Pack(e, phys);
            && w & 0x000F_FFFF_FFFF_F000 == phys
            && (w & 0x1 != 0) == e.present
            && (w & 0x2 != 0) == e.writable
            && (w & 0x4 != 0) == e.user
            && (w & 0x10 != 0) == e.noCache
            && (w & 0x80 != 0) == e.huge
            && (w & 0x8000_0000_0000_0000 != 0) == e.noExec
  {
    hide Pack;
    PackKeepsFields(e, phys);
  }
}
