/**
 The 64-byte commands and 16-byte completions of kernel/src/drivers/nvme.rs, against the layouts of the
 NVM Express Base Specification, revision 1.4, sections 4.2 and 4.6.
 */
module NvmeCommands {
  import opened Prelude

  const COMMAND_BYTES: nat := 64

  /** A submission queue entry, field by field; `reserved` is double words 2 and 3. */
  datatype Command = Command(
    opcode: nat, flags: nat, cid: nat, nsid: nat, reserved: nat, mptr: nat, prp1: nat, prp2: nat,
    cdw10: nat, cdw11: nat, cdw12: nat, cdw13: nat, cdw14: nat, cdw15: nat)

  /** How a controller reads the 64 bytes. */
  function Decode(b: seq<byte>): Command
    requires |b| == COMMAND_BYTES
  {
    Command(Little(b, 0, 1), Little(b, 1, 1), Little(b, 2, 2), Little(b, 4, 4), Little(b, 8, 8), Little(b, 16, 8),
            Little(b, 24, 8), Little(b, 32, 8), Little(b, 40, 4), Little(b, 44, 4), Little(b, 48, 4), Little(b, 52, 4),
            Little(b, 56, 4), Little(b, 60, 4))
  }

  lemma {:induction false} LittleInjective(a: seq<byte>, b: seq<byte>, o: nat, n: nat)
    requires o + n <= |a| && o + n <= |b| && Little(a, o, n) == Little(b, o, n)
    ensures forall k :: o <= k < o + n ==> a[k] == b[k]
    decreases n
  {
    if n > 0 {
      assert (a[o] - b[o]) % 256 == 0;
      LittleInjective(a, b, o + 1, n - 1);
    }
  }

  /** No byte is lost: two entries that decode alike are the same 64 bytes. */
  lemma DecodeInjective(a: seq<byte>, b: seq<byte>)
    requires |a| == COMMAND_BYTES == |b| && Decode(a) == Decode(b)
    ensures a == b
  {
    hide Little;
    LittleInjective(a, b, 0, 1);
    LittleInjective(a, b, 1, 1);
    LittleInjective(a, b, 2, 2);
    LittleInjective(a, b, 4, 4);
    LittleInjective(a, b, 8, 8);
    LittleInjective(a, b, 16, 8);
    LittleInjective(a, b, 24, 8);
    LittleInjective(a, b, 32, 8);
    LittleInjective(a, b, 40, 4);
    LittleInjective(a, b, 44, 4);
    LittleInjective(a, b, 48, 4);
    LittleInjective(a, b, 52, 4);
    LittleInjective(a, b, 56, 4);
    LittleInjective(a, b, 60, 4);
  }

  // ----- Writing fields -----

  lemma {:induction false} LittleSame(a: seq<byte>, b: seq<byte>, o: nat, n: nat)
    requires o + n <= |a| && |a| == |b| && forall k :: o <= k < o + n ==> a[k] == b[k]
    ensures Little(a, o, n) == Little(b, o, n)
    decreases n
  {
    if n > 0 {
      LittleSame(a, b, o + 1, n - 1);
    }
  }

  /** `buf[o..o + n].copy_from_slice(&v.to_le_bytes())`: the field reads back, no other field changes. */
  method Put(buf: array<byte>, o: nat, n: nat, v: nat)
    requires o + n <= buf.Length && v < Limit(n)
    modifies buf
    ensures Little(buf[..], o, n) == v
    ensures forall p: nat, m: nat :: p + m <= buf.Length && (p + m <= o || o + n <= p) ==>
              Little(buf[..], p, m) == Little(old(buf[..]), p, m)
  {
    hide Limit;
    var rest := v;
    for i := 0 to n
      invariant forall k :: 0 <= k < i ==> buf[o + k] == ByteOf(v, k)
      invariant forall k :: i <= k < n ==> ByteOf(v, k) == ByteOf(rest, k - i)
      invariant forall k :: 0 <= k < o || o + n <= k < buf.Length ==> buf[k] == old(buf[k])
    {
      assert ByteOf(v, i) == ByteOf(rest, 0);
      forall k | i + 1 <= k < n ensures ByteOf(v, k) == ByteOf(rest / 256, k - (i + 1)) {
        assert ByteOf(v, k) == ByteOf(rest, k - i);
      }
      buf[o + i] := rest % 256;
      rest := rest / 256;
    }
    LittleOf(buf[..], o, n, v);
    forall p: nat, m: nat | p + m <= buf.Length && (p + m <= o || o + n <= p)
      ensures Little(buf[..], p, m) == Little(old(buf[..]), p, m)
    {
      LittleSame(buf[..], old(buf[..]), p, m);
    }
  }

  method ZeroCommand() returns (buf: array<byte>)
    ensures fresh(buf) && buf.Length == COMMAND_BYTES
    ensures forall p: nat, m: nat :: p + m <= COMMAND_BYTES ==> Little(buf[..], p, m) == 0
  {
    buf := new byte[COMMAND_BYTES](_ => 0);
    forall p: nat, m: nat | p + m <= COMMAND_BYTES ensures Little(buf[..], p, m) == 0 {
      LittleZero(buf[..], p, m);
    }
  }

  // ----- The builders -----

  const WRITE: nat := 1
  const READ: nat := 2
  const CREATE_SQ: nat := 0x01 // on the admin queue
  const CREATE_CQ: nat := 0x05

  function RwCommand(opcode: nat, cid: nat, nsid: nat, lba: nat, nlb: nat, prp1: nat): Command {
    Command(opcode, 0, cid, nsid, 0, 0, prp1, 0, lba % U32, lba / U32, nlb, 0, 0, 0)
  }

  /** The fields a controller takes from a Read or Write (section 6 of the NVM Command Set). */
  function StartLba(c: Command): nat { c.cdw10 + c.cdw11 * U32 }

  function BlockCount(c: Command): nat { c.cdw12 % U16 + 1 }

  method BuildRw(opcode: nat, cid: nat, nsid: nat, lba: nat, nlb: nat, prp1: nat) returns (b: seq<byte>)
    requires opcode < 256 && cid < U16 && nsid < U32 && lba < U64 && nlb < U16 && prp1 < U64
    ensures |b| == COMMAND_BYTES && Decode(b) == RwCommand(opcode, cid, nsid, lba, nlb, prp1)
    ensures StartLba(Decode(b)) == lba && BlockCount(Decode(b)) == nlb + 1
  {
    hide Little, Limit;
    Limits();
    var buf := ZeroCommand();
    Put(buf, 0, 1, opcode);
    Put(buf, 2, 2, cid);
    Put(buf, 4, 4, nsid);
    Put(buf, 24, 8, prp1);
    Put(buf, 40, 4, lba % U32);
    Put(buf, 44, 4, lba / U32 % U32);
    Put(buf, 48, 4, nlb);
    b := buf[..];
  }

  method BuildIdentify(cid: nat, nsid: nat, cns: nat, prp1: nat) returns (b: seq<byte>)
    requires cid < U16 && nsid < U32 && cns < U32 && prp1 < U64
    ensures |b| == COMMAND_BYTES
    ensures Decode(b) == Command(0x06, 0, cid, nsid, 0, 0, prp1, 0, cns, 0, 0, 0, 0, 0)
  {
    hide Little, Limit;
    Limits();
    var buf := ZeroCommand();
    Put(buf, 0, 1, 0x06);
    Put(buf, 2, 2, cid);
    Put(buf, 4, 4, nsid);
    Put(buf, 24, 8, prp1);
    Put(buf, 40, 4, cns);
    b := buf[..];
  }

  /** What a controller reads from double word 10 of a queue creation (section 5.3): identifier and entries. */
  function QueueId(c: Command): nat { c.cdw10 % U16 }

  function QueueSize(c: Command): nat { c.cdw10 / U16 + 1 }

  function CompletionQueueId(c: Command): nat { c.cdw11 / U16 }

  predicate Contiguous(c: Command) { c.cdw11 % 2 == 1 }

  predicate Interrupts(c: Command) { c.cdw11 / 2 % 2 == 1 }

  /** `(high << 16) | low`. */
  function Halves(high: nat, low: nat): nat { high * U16 + low }

  lemma HalvesRead(high: nat, low: nat)
    requires high < U16 && low < U16
    ensures Halves(high, low) < U32 && Halves(high, low) % U16 == low && Halves(high, low) / U16 == high
    ensures low == 1 ==> Halves(high, low) % 2 == 1 && (high == 0 ==> Halves(high, low) / 2 % 2 == 0)
  {
  }

  method BuildCreateIoCq(cid: nat, qid: nat, size0: nat, prp1: nat) returns (b: seq<byte>)
    requires cid < U16 && qid < U16 && size0 < U16 && prp1 < U64
    ensures |b| == COMMAND_BYTES
    ensures var c := Decode(b);
            && c.opcode == CREATE_CQ && c.cid == cid && c.prp1 == prp1
            && QueueId(c) == qid && QueueSize(c) == size0 + 1 && Contiguous(c) && !Interrupts(c)
  {
    hide Little, Limit, Halves;
    Limits();
    HalvesRead(size0, qid);
    HalvesRead(0, 1);
    var buf := ZeroCommand();
    Put(buf, 0, 1, CREATE_CQ);
    Put(buf, 2, 2, cid);
    Put(buf, 24, 8, prp1);
    Put(buf, 40, 4, Halves(size0, qid));
    Put(buf, 44, 4, Halves(0, 1));
    b := buf[..];
  }

  method BuildCreateIoSq(cid: nat, qid: nat, size0: nat, prp1: nat, cqid: nat) returns (b: seq<byte>)
    requires cid < U16 && qid < U16 && size0 < U16 && prp1 < U64 && cqid < U16
    ensures |b| == COMMAND_BYTES
    ensures var c := Decode(b);
            && c.opcode == CREATE_SQ && c.cid == cid && c.prp1 == prp1
            && QueueId(c) == qid && QueueSize(c) == size0 + 1 && Contiguous(c) && CompletionQueueId(c) == cqid
  {
    hide Little, Limit, Halves;
    Limits();
    HalvesRead(size0, qid);
    HalvesRead(cqid, 1);
    var buf := ZeroCommand();
    Put(buf, 0, 1, CREATE_SQ);
    Put(buf, 2, 2, cid);
    Put(buf, 24, 8, prp1);
    Put(buf, 40, 4, Halves(size0, qid));
    Put(buf, 44, 4, Halves(cqid, 1));
    b := buf[..];
  }

  // ----- Completions -----

  /** A completion queue entry: double word 0 and double word 3 (section 4.6.1). */
  datatype Completion = Completion(dw0: nat, dw3: nat)

  function CidOf(c: Completion): nat { c.dw3 % U16 }

  predicate PhaseOf(c: Completion) { c.dw3 / U16 % 2 == 1 }

  function ScOf(c: Completion): nat { c.dw3 / 0x2_0000 % 256 }

  function SctOf(c: Completion): nat { c.dw3 / 0x200_0000 % 8 }

  /** Status as a controller reports it; `rest` is the More and Do Not Retry bits. */
  datatype Status = Status(sct: nat, sc: nat, rest: nat)

  predicate StatusOk(s: Status) { s.sct < 8 && s.sc < 256 && s.rest < 16 }

  function PostedEntry(cid: nat, phase: bool, s: Status, dw0: nat): Completion {
    Completion(dw0, cid + (if phase then U16 else 0) + s.sc * 0x2_0000 + s.sct * 0x200_0000 + s.rest * 0x1000_0000)
  }

  /** The driver's shifts and masks recover every field the controller put in. */
  lemma EntryReadsBack(cid: nat, phase: bool, s: Status, dw0: nat)
    requires cid < U16 && StatusOk(s)
    ensures var c := PostedEntry(cid, phase, s, dw0);
            CidOf(c) == cid && PhaseOf(c) == phase && ScOf(c) == s.sc && SctOf(c) == s.sct && c.dw0 == dw0
  {
    var c := PostedEntry(cid, phase, s, dw0);
    var p := if phase then 1 else 0;
    assert c.dw3 / U16 == p + 2 * (s.sc + 256 * (s.sct + 8 * s.rest));
    assert c.dw3 / 0x2_0000 == s.sc + 256 * (s.sct + 8 * s.rest);
    assert c.dw3 / 0x200_0000 == s.sct + 8 * s.rest;
  }
}
