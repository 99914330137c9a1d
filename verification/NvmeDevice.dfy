/**
 A namespace as the NVM Command Set describes it: numbered blocks, and what Read and Write do to them
 through one page of host memory (PRP1 only, as kernel/src/drivers/nvme.rs builds its commands).
 */
module NvmeDevice {
  import opened Prelude
  import opened PhysicalMemory
  import opened NvmeCommands

  datatype Namespace = Namespace(nsid: nat, blockSize: nat, blocks: seq<seq<byte>>)

  predicate NamespaceOk(d: Namespace) {
    d.blockSize > 0 && forall i :: 0 <= i < |d.blocks| ==> |d.blocks[i]| == d.blockSize
  }

  /** `data` cut into `n` blocks. */
  function Cut(data: seq<byte>, size: nat, n: nat): (bs: seq<seq<byte>>)
    requires |data| == Times(n, size)
    ensures |bs| == n && forall i :: 0 <= i < n ==> |bs[i]| == size
    decreases n
  {
    if n == 0 then []
    else
      TimesStep(n, size);
      [data[..size]] + Cut(data[size..], size, n - 1)
  }

  function Join(bs: seq<seq<byte>>): seq<byte> {
    if bs == [] then [] else bs[0] + Join(bs[1..])
  }

  lemma TimesStep(n: nat, size: nat)
    requires n > 0
    ensures Times(n, size) == size + Times(n - 1, size)
  {
  }

  lemma {:induction false} JoinLength(bs: seq<seq<byte>>, size: nat)
    requires forall i :: 0 <= i < |bs| ==> |bs[i]| == size
    ensures |Join(bs)| == Times(|bs|, size)
  {
    if bs != [] {
      TimesStep(|bs|, size);
      JoinLength(bs[1..], size);
    }
  }

  lemma {:induction false} JoinCut(data: seq<byte>, size: nat, n: nat)
    requires |data| == Times(n, size)
    ensures Join(Cut(data, size, n)) == data
    decreases n
  {
    if n > 0 {
      TimesStep(n, size);
      JoinCut(data[size..], size, n - 1);
      assert Cut(data, size, n)[1..] == Cut(data[size..], size, n - 1);
    }
  }

  // ----- The abstract disk -----

  predicate InRange(d: Namespace, lba: nat, n: nat) { lba + n <= |d.blocks| }

  function DiskWrite(d: Namespace, lba: nat, data: seq<byte>, n: nat): Namespace
    requires InRange(d, lba, n) && |data| == Times(n, d.blockSize)
  {
    d.(blocks := d.blocks[..lba] + Cut(data, d.blockSize, n) + d.blocks[lba + n..])
  }

  function DiskRead(d: Namespace, lba: nat, n: nat): seq<byte>
    requires InRange(d, lba, n)
  {
    Join(d.blocks[lba..lba + n])
  }

  /** What was written is read back, and no other block changed. */
  lemma ReadAfterWrite(d: Namespace, lba: nat, data: seq<byte>, n: nat)
    requires NamespaceOk(d) && InRange(d, lba, n) && |data| == Times(n, d.blockSize)
    ensures var d' := DiskWrite(d, lba, data, n);
            && NamespaceOk(d') && InRange(d', lba, n) && DiskRead(d', lba, n) == data
            && |d'.blocks| == |d.blocks|
            && forall k :: 0 <= k < |d.blocks| && !(lba <= k < lba + n) ==> d'.blocks[k] == d.blocks[k]
  {
    hide Cut, Join;
    var d' := DiskWrite(d, lba, data, n);
    assert d'.blocks[lba..lba + n] == Cut(data, d.blockSize, n);
    JoinCut(data, d.blockSize, n);
  }

  // ----- Any sequence of writes -----

  datatype Written = Written(lba: nat, data: seq<byte>, n: nat)

  predicate Fits(d: Namespace, w: Written) { InRange(d, w.lba, w.n) && |w.data| == Times(w.n, d.blockSize) }

  predicate AllFit(d: Namespace, ws: seq<Written>) { forall i :: 0 <= i < |ws| ==> Fits(d, ws[i]) }

  predicate Same(d: Namespace, d': Namespace) {
    d'.nsid == d.nsid && d'.blockSize == d.blockSize && |d'.blocks| == |d.blocks|
  }

  function Replay(d: Namespace, ws: seq<Written>): (d': Namespace)
    requires AllFit(d, ws)
    ensures Same(d, d')
  {
    if ws == [] then d
    else
      var w := Last(ws);
      assert Fits(d, w);
      var before := Replay(d, DropLast(ws));
      DiskWrite(before, w.lba, w.data, w.n)
  }

  /** What a map from block number to block holds: the newest write that covers the block. */
  function BlockAfter(d: Namespace, ws: seq<Written>, k: nat): seq<byte>
    requires AllFit(d, ws) && k < |d.blocks|
  {
    if ws == [] then d.blocks[k]
    else
      var w := Last(ws);
      assert Fits(d, w);
      if w.lba <= k < w.lba + w.n then Cut(w.data, d.blockSize, w.n)[k - w.lba] else BlockAfter(d, DropLast(ws), k)
  }

  /** After any sequence of writes, reading any range gives, block by block, the newest data written there. */
  lemma {:induction false} NewestWriteWins(d: Namespace, ws: seq<Written>, k: nat)
    requires AllFit(d, ws) && k < |d.blocks|
    ensures Replay(d, ws).blocks[k] == BlockAfter(d, ws, k)
  {
    hide Cut;
    if ws != [] {
      assert Fits(d, Last(ws));
      NewestWriteWins(d, DropLast(ws), k);
    }
  }

  // ----- Command execution -----

  /** The namespace and the host memory the controller reaches by DMA. */
  datatype World = World(disk: Namespace, ram: map<nat, Frame>)

  datatype Effect = Effect(world: World, status: Status, dw0: nat)

  const SUCCESS: Status := Status(0, 0, 0)
  const INVALID_OPCODE: Status := Status(0, 0x01, 0)
  const INTERNAL_ERROR: Status := Status(0, 0x06, 0)
  const INVALID_NAMESPACE: Status := Status(0, 0x0B, 0)
  const INVALID_PRP: Status := Status(0, 0x13, 0)
  const LBA_OUT_OF_RANGE: Status := Status(0, 0x80, 0)

  /** One page of host memory, named by PRP1 alone, holds the whole transfer. */
  predicate OnePage(w: World, c: Command) {
    c.prp1 % FRAME_BYTES == 0 && IsData(w.ram, c.prp1 / FRAME_BYTES)
    && Times(BlockCount(c), w.disk.blockSize) <= FRAME_BYTES
  }

  /** The page a buffer of this content starts with: the rest of it is zero. */
  function PageOf(data: seq<byte>): (page: seq<byte>)
    ensures |page| == FRAME_BYTES
  {
    if |data| < FRAME_BYTES then data + seq(FRAME_BYTES - |data|, _ => 0) else data[..FRAME_BYTES]
  }

  /** The namespace has these blocks, and they fit into one page. */
  predicate Addressed(d: Namespace, nsid: nat, lba: nat, n: nat) {
    nsid == d.nsid && InRange(d, lba, n) && Times(n, d.blockSize) <= FRAME_BYTES
  }

  /** The status a working controller reports; a nonzero `fault` makes it fail without effect. */
  function StatusOf(w: World, c: Command, fault: nat): Status {
    if fault != 0 then INTERNAL_ERROR
    else if c.opcode != READ && c.opcode != WRITE then INVALID_OPCODE
    else if c.nsid != w.disk.nsid then INVALID_NAMESPACE
    else if !InRange(w.disk, StartLba(c), BlockCount(c)) then LBA_OUT_OF_RANGE
    else if !OnePage(w, c) then INVALID_PRP
    else SUCCESS
  }

  function Execute(w: World, c: Command, fault: nat): Effect {
    var n, f := BlockCount(c), c.prp1 / FRAME_BYTES;
    var size := Times(n, w.disk.blockSize);
    if StatusOf(w, c, fault) != SUCCESS then Effect(w, StatusOf(w, c, fault), 0)
    else if c.opcode == WRITE then
      Effect(w.(disk := DiskWrite(w.disk, StartLba(c), w.ram[f].bytes[..size], n)), SUCCESS, 0)
    else
      var page := w.ram[f].bytes;
      var data := DiskRead(w.disk, StartLba(c), n);
      var got := if |data| <= FRAME_BYTES then data + page[|data|..] else page;
      Effect(w.(ram := w.ram[f := Data(got)]), SUCCESS, 0)
  }

  /** Only a successful Write changes the disk, only a successful Read changes memory, in its one page. */
  lemma ExecuteFrame(w: World, c: Command, fault: nat)
    requires NamespaceOk(w.disk)
    ensures var e := Execute(w, c, fault);
            && StatusOk(e.status) && NamespaceOk(e.world.disk)
            && (e.status == SUCCESS && c.opcode == WRITE ==>
                  InRange(w.disk, StartLba(c), BlockCount(c)) && OnePage(w, c) && e.world.ram == w.ram)
            && (!(e.status == SUCCESS && c.opcode == WRITE) ==> e.world.disk == w.disk)
            && (forall g: nat ::
                  g != c.prp1 / FRAME_BYTES && g in w.ram ==> g in e.world.ram && e.world.ram[g] == w.ram[g])
            && (e.status == SUCCESS && c.opcode == READ ==>
                  && InRange(w.disk, StartLba(c), BlockCount(c)) && OnePage(w, c)
                  && var out := DiskRead(w.disk, StartLba(c), BlockCount(c));
                     && |out| == Times(BlockCount(c), w.disk.blockSize)
                     && IsData(e.world.ram, c.prp1 / FRAME_BYTES)
                     && e.world.ram[c.prp1 / FRAME_BYTES].bytes[..|out|] == out)
  {
    hide Join, Cut, Times;
    var n, lba := BlockCount(c), StartLba(c);
    if Execute(w, c, fault).status == SUCCESS {
      if c.opcode == WRITE {
        ReadAfterWrite(w.disk, lba, w.ram[c.prp1 / FRAME_BYTES].bytes[..Times(n, w.disk.blockSize)], n);
      } else {
        JoinLength(w.disk.blocks[lba..lba + n], w.disk.blockSize);
      }
    }
  }
}
