/**
 The two queue singletons and block reads and writes of kernel/src/drivers/nvme.rs. What comes from
 outside - controller bring-up, allocated frames, the controller's timing - is a parameter of each call.
 */
module NvmeBlocks {
  import opened Prelude
  import opened PhysicalMemory
  import opened NvmeCommands
  import opened NvmeDevice
  import opened NvmeQueue
  import opened NvmeDriver

  const ADMIN_DEPTH: nat := 64
  const IO_DEPTH: nat := 16
  const IO_QID: nat := 1
  const DMA_LIMIT: nat := 0x10_0000_0000_0000

  datatype Error = InitFailed(code: nat) | AllocFailed | InvalidTransferSize | Failed(reply: Reply)

  /** What a call meets: bring-up errors, frames the allocator returns, and the controller's moves per poll. */
  datatype Outside = Outside(
    init: Option<nat>, cqFrame: Option<nat>, sqFrame: Option<nat>,
    cqTurns: seq<seq<Move>>, sqTurns: seq<seq<Move>>, buffer: Option<nat>, turns: seq<seq<Move>>)

  predicate Reachable(f: Option<nat>) { f.Some? ==> f.value < DMA_LIMIT }

  predicate OutsideOk(o: Outside) {
    && Reachable(o.cqFrame) && Reachable(o.sqFrame) && Reachable(o.buffer)
    && o.cqTurns != [] && o.sqTurns != [] && o.turns != []
  }

  /** The size check of both transfer calls. */
  predicate ValidSize(len: nat, blockSize: nat) {
    len != 0 && blockSize != 0 && len % blockSize == 0 && len <= FRAME_BYTES
  }

  lemma SizeIsBlocks(len: nat, blockSize: nat)
    requires ValidSize(len, blockSize)
    ensures 1 <= len / blockSize <= FRAME_BYTES && Times(len / blockSize, blockSize) == len
  {
    Division(len, blockSize);
  }

  /** A valid size, and as many blocks as it makes are there and fit into one page. */
  predicate Transferable(d: Namespace, nsid: nat, lba: nat, len: nat, blockSize: nat) {
    ValidSize(len, blockSize) && Addressed(d, nsid, lba, len / blockSize)
  }

  /** A valid size, a buffer, and a controller that answers in time without a fault. */
  predicate Served(o: Outside, len: nat, blockSize: nat) {
    ValidSize(len, blockSize) && o.buffer.Some? && Prompt(o.turns)
  }

  /** Frames for both rings, and a controller that answers both creation commands in time without a fault. */
  predicate Creatable(o: Outside) {
    o.cqFrame.Some? && o.sqFrame.Some? && Prompt(o.cqTurns) && Prompt(o.sqTurns)
  }

  // ----- Creating the queues -----

  /** The creation command for queue 1: 16 entries, contiguous, at `prp1`; the submission queue names the other one. */
  predicate IsCreation(c: Command, completion: bool, prp1: nat) {
    && c.prp1 == prp1 && QueueId(c) == 1 && QueueSize(c) == 16 && Contiguous(c)
    && if completion then c.opcode == 0x05 && !Interrupts(c) else c.opcode == 0x01 && CompletionQueueId(c) == 1
  }

  ghost predicate CreatedBy(a: Link, b: seq<byte>, completion: bool, prp1: nat, turns: seq<seq<Move>>, a': Link,
                            reply: Reply) {
    && turns != [] && Sized(a) && |b| == COMMAND_BYTES && IsCreation(Decode(b), completion, prp1)
    && Enabled(a, Submit(b)) && (a', reply) == Wait(AdminController(), SubmitStep(a, b), turns)
  }

  /** One creation command was sent on the admin pair, and this is the reply waited for. */
  ghost predicate Created(a: Link, completion: bool, prp1: nat, turns: seq<seq<Move>>, a': Link, reply: Reply) {
    exists b: seq<byte> :: CreatedBy(a, b, completion, prp1, turns, a', reply)
  }

  function CreationResult(reply: Reply): Result<(), Error> {
    if reply.Success? then Ok(()) else Err(Failed(reply))
  }

  /** The completion queue is created first, the submission queue only after that succeeded. */
  ghost predicate Creations(a: Link, o: Outside, a': Link, r: Result<(), Error>)
    requires o.cqFrame.Some? && o.sqFrame.Some?
  {
    exists mid: Link, first: Reply :: CreationsBy(a, o, mid, first, a', r)
  }

  ghost predicate CreationsBy(a: Link, o: Outside, mid: Link, first: Reply, a': Link, r: Result<(), Error>)
    requires o.cqFrame.Some? && o.sqFrame.Some?
  {
    && Created(a, true, o.cqFrame.value * FRAME_BYTES, o.cqTurns, mid, first)
    && if !first.Success? then a' == mid && r == CreationResult(first)
       else exists second: Reply ::
              Created(mid, false, o.sqFrame.value * FRAME_BYTES, o.sqTurns, a', second) && r == CreationResult(second)
  }

  /** Exactly the two creation commands were sent. */
  predicate BothSent(a: Link, o: Outside, a': Link)
    requires o.cqFrame.Some? && o.sqFrame.Some?
  {
    var (was, now) := (a.log.submitted, a'.log.submitted);
    && was <= now && |now| == |was| + 2
    && IsCreation(now[|was|], true, o.cqFrame.value * FRAME_BYTES)
    && IsCreation(now[|was| + 1], false, o.sqFrame.value * FRAME_BYTES)
  }

  /**
   Everything that can happen when there is no I/O pair yet: no controller, no frames for the rings, or the
   commands sent and their replies. `a` and `a'` are the admin pair before and after, if there is one.
   */
  ghost predicate IoCreation(a: Option<Link>, w: World, o: Outside, a': Option<Link>, r: Result<(), Error>) {
    if a.None? && o.init.Some? then a'.None? && r == Err(InitFailed(o.init.value))
    else
      var start := if a.None? then Start(ADMIN_DEPTH, w) else a.value;
      a'.Some? &&
      if o.cqFrame.None? || o.sqFrame.None? then r == Err(AllocFailed) && a'.value == start
      else Creations(start, o, a'.value, r) && (r.Ok? ==> BothSent(start, o, a'.value))
  }

  lemma CreationsLogged(a: Link, o: Outside, a': Link, r: Result<(), Error>)
    requires o.cqFrame.Some? && o.sqFrame.Some? && Creations(a, o, a', r)
    ensures r.Ok? ==> BothSent(a, o, a')
  {
    hide Created, IsCreation;
    var mid, first :| CreationsBy(a, o, mid, first, a', r);
    CreatedLogs(a, true, o.cqFrame.value * FRAME_BYTES, o.cqTurns, mid, first);
    if first.Success? {
      var second :| Created(mid, false, o.sqFrame.value * FRAME_BYTES, o.sqTurns, a', second);
      CreatedLogs(mid, false, o.sqFrame.value * FRAME_BYTES, o.sqTurns, a', second);
    }
  }

  lemma CreatedLogs(a: Link, completion: bool, prp1: nat, turns: seq<seq<Move>>, a': Link, reply: Reply)
    requires Created(a, completion, prp1, turns, a', reply)
    ensures |a'.log.submitted| == |a.log.submitted| + 1 && a.log.submitted <= a'.log.submitted
    ensures IsCreation(Last(a'.log.submitted), completion, prp1)
  {
    hide Wait, Decode, IsCreation;
    var b :| CreatedBy(a, b, completion, prp1, turns, a', reply);
    WaitSubmitsNothing(AdminController(), SubmitStep(a, b), turns);
  }

  /** On a quiet pair the reply is a timeout, or the status with which the controller executed that command once. */
  lemma CreatedReply(a: Link, completion: bool, prp1: nat, turns: seq<seq<Move>>, a': Link, reply: Reply)
    requires Quiet(a) && Created(a, completion, prp1, turns, a', reply) && reply != CommandTimeout
    ensures Quiet(a') && exists cmd: Command, choice: nat ::
              IsCreation(cmd, completion, prp1)
              && Outcome(AdminController(), a.dev.world, cmd, choice, a'.dev.world, reply)
  {
    hide Wait, Decode, IsCreation, Quiet, Outcome, Touched, Prompt;
    var b :| CreatedBy(a, b, completion, prp1, turns, a', reply);
    ControllersBehave(a.dev.world);
    QuietCall(AdminController(), a, b, turns);
  }

  class Driver {
    const store: Storage
    const mem: Memory
    var admin: QueuePair?
    var io: QueuePair?

    ghost function Footprint(): set<object>
      reads this
    {
      (if admin == null then {} else {admin, admin.sq, admin.cq}) + (if io == null then {} else {io, io.sq, io.cq})
    }

    /** The I/O pair exists only beside the admin pair, and they share nothing but the device. */
    ghost predicate Valid()
      reads this, Footprint(), store, mem
    {
      && NamespaceOk(store.disk)
      && (admin != null ==> admin.store == store && admin.mem == mem && admin.depth == ADMIN_DEPTH && admin.Valid())
      && (io != null ==> io.store == store && io.mem == mem && io.depth == IO_DEPTH && io.Valid())
      && (io != null ==> admin != null && io != admin && io.sq != admin.sq && io.cq != admin.cq)
    }

    /** No I/O command is left over from an earlier call. */
    ghost predicate Settled()
      reads this, Footprint(), store, mem
    {
      Valid() && (io != null ==> Quiet(io.Abs()))
    }

    /** The I/O pair exists, or what creating it needs is there. */
    ghost predicate Ready(o: Outside)
      reads this, Footprint(), store, mem
    {
      Valid() && (io != null || (Creatable(o) && if admin == null then o.init.None? else Quiet(admin.Abs())))
    }

    constructor (store: Storage, mem: Memory)
      requires NamespaceOk(store.disk)
      ensures this.store == store && this.mem == mem && Settled() && admin == null && io == null
    {
      this.store, this.mem, admin, io := store, mem, null, null;
    }

    /** `invalidate_persistent_state`. */
    method Invalidate()
      requires Valid()
      modifies this
      ensures Settled() && admin == null && io == null
    {
      admin := null;
      io := null;
    }

    /** Brings the controller up on first use only: a live admin pair is left alone. */
    method EnsureAdmin(init: Option<nat>) returns (r: Result<(), Error>)
      requires Valid()
      modifies this`admin
      ensures Valid() && (r.Ok? <==> old(admin) != null || init.None?) && (r.Ok? <==> admin != null)
      ensures r != Err(InvalidTransferSize)
      ensures old(admin) != null ==> admin == old(admin)
      ensures old(admin) == null && r.Ok? ==> fresh(admin) && fresh(admin.sq) && fresh(admin.cq) && Quiet(admin.Abs())
      ensures old(admin) == null && r.Ok? ==> admin.Abs() == Start(ADMIN_DEPTH, admin.World())
      ensures r.Err? ==> r == Err(InitFailed(init.value))
    {
      if admin != null {
        return Ok(());
      }
      if init.Some? {
        return Err(InitFailed(init.value));
      }
      admin := new QueuePair(ADMIN_DEPTH, store, mem);
      r := Ok(());
    }

    /** Queue 1, created through the admin queue on first use only; completion queue first. */
    method EnsureIo(nsid: nat, o: Outside) returns (r: Result<(), Error>)
      requires Valid() && OutsideOk(o)
      modifies this, Footprint(), store, mem
      ensures Valid() && store.disk == old(store.disk) && mem.frames == old(mem.frames)
      ensures (r.Ok? <==> io != null) && r != Err(InvalidTransferSize) && (old(Ready(o)) ==> r.Ok?)
      ensures old(io) != null ==> io == old(io) && admin == old(admin) && io.Abs() == old(io.Abs())
      ensures old(io) == null && r.Ok? ==> fresh(io) && fresh(io.sq) && fresh(io.cq) && Quiet(io.Abs())
      ensures old(io) == null && r.Ok? ==> io.nextCid == 0
      ensures old(admin) != null ==> admin == old(admin)
      ensures old(admin) == null && admin != null ==> fresh(admin) && fresh(admin.sq) && fresh(admin.cq)
      ensures old(io) == null ==>
                IoCreation(if old(admin) == null then None else Some(old(admin.Abs())),
                           World(old(store.disk), old(mem.frames)), o,
                           if admin == null then None else Some(admin.Abs()), r)
    {
      hide Quiet, Good, Creations, BothSent, Start, Prompt;
      if io != null {
        return Ok(());
      }
      var up := EnsureAdmin(o.init);
      if up.Err? {
        return Err(up.error);
      }
      if o.cqFrame.None? || o.sqFrame.None? {
        return Err(AllocFailed);
      }
      r := CreateIo(o);
    }

    /** Both creation commands, and the pair once both succeeded. */
    method CreateIo(o: Outside) returns (r: Result<(), Error>)
      requires Valid() && OutsideOk(o) && admin != null && io == null && o.cqFrame.Some? && o.sqFrame.Some?
      modifies this`io, admin, admin.sq, admin.cq, store, mem
      ensures Valid() && store.disk == old(store.disk) && mem.frames == old(mem.frames)
      ensures (r.Ok? <==> io != null) && r != Err(InvalidTransferSize)
      ensures r.Ok? ==> fresh(io) && fresh(io.sq) && fresh(io.cq) && Quiet(io.Abs()) && io.nextCid == 0
      ensures old(Quiet(admin.Abs())) && Creatable(o) ==> r.Ok?
      ensures Creations(old(admin.Abs()), o, admin.Abs(), r) && (r.Ok? ==> BothSent(old(admin.Abs()), o, admin.Abs()))
    {
      hide Quiet, Good, Created, BothSent, Prompt;
      ghost var a, first, second := admin.Abs(), CommandTimeout, CommandTimeout;
      r, first := CreateQueue(true, o.cqFrame.value * FRAME_BYTES, o.cqTurns);
      ghost var mid := admin.Abs();
      if r.Err? {
        assert CreationsBy(a, o, mid, first, mid, r);
        return;
      }
      r, second := CreateQueue(false, o.sqFrame.value * FRAME_BYTES, o.sqTurns);
      assert CreationsBy(a, o, mid, first, admin.Abs(), r);
      CreationsLogged(a, o, admin.Abs(), r);
      if r.Err? {
        return;
      }
      io := new QueuePair(IO_DEPTH, store, mem);
    }

    /** One queue creation command through the admin queue. */
    method CreateQueue(completion: bool, prp1: nat, turns: seq<seq<Move>>)
      returns (r: Result<(), Error>, ghost reply: Reply)
      requires Valid() && admin != null && io == null && prp1 < U64 && turns != []
      modifies admin, admin.sq, admin.cq, store, mem
      ensures Valid() && store.disk == old(store.disk) && mem.frames == old(mem.frames)
      ensures r != Err(InvalidTransferSize)
      ensures old(Quiet(admin.Abs())) && Prompt(turns) ==> r.Ok? && Quiet(admin.Abs())
      ensures Created(old(admin.Abs()), completion, prp1, turns, admin.Abs(), reply) && r == CreationResult(reply)
      ensures |admin.log.submitted| == |old(admin.log.submitted)| + 1
      ensures old(admin.log.submitted) <= admin.log.submitted
      ensures IsCreation(Last(admin.log.submitted), completion, prp1)
    {
      hide Quiet, Lockstep, JobCids, Wait, Decode, Prompt, Outcome, IsCreation;
      ghost var w := admin.World();
      ControllersBehave(w);
      LockstepSized(admin.Abs());
      CidInRange(admin.Abs());
      var b;
      if completion {
        b := BuildCreateIoCq(admin.nextCid, IO_QID, IO_DEPTH - 1, prp1);
      } else {
        b := BuildCreateIoSq(admin.nextCid, IO_QID, IO_DEPTH - 1, prp1, IO_QID);
      }
      ghost var a := admin.Abs();
      CreationFields(Decode(b), completion, prp1);
      WaitKeeps(AdminController(), Only(w), SubmitStep(admin.Abs(), b), turns);
      if Quiet(admin.Abs()) {
        QuietCall(AdminController(), admin.Abs(), b, turns);
      }
      var answer := admin.SubmitAndWait(b, AdminController(), turns);
      CreationSucceeds(w, Decode(b), admin.World(), answer);
      assert CreatedBy(a, b, completion, prp1, turns, admin.Abs(), answer);
      CreatedLogs(a, completion, prp1, turns, admin.Abs(), answer);
      reply := answer;
      r := if answer.Success? then Ok(()) else Err(Failed(answer));
    }

    /** The common end of both transfer calls: build the command, submit, poll. */
    method Transfer(opcode: nat, nsid: nat, lba: nat, n: nat, f: nat, turns: seq<seq<Move>>) returns (reply: Reply)
      requires Valid() && io != null && turns != []
      requires opcode < 256 && nsid < U32 && lba < U64 && 1 <= n <= FRAME_BYTES && f < DMA_LIMIT
      modifies io, io.sq, io.cq, store, mem
      ensures Valid()
      ensures old(Settled()) && reply != CommandTimeout ==>
                && Settled()
                && var cmd := RwCommand(opcode, old(io.nextCid), nsid, lba, n - 1, f * FRAME_BYTES);
                   exists fault: nat :: Outcome(BlockController(), old(io.World()), cmd, fault, io.World(), reply)
      ensures old(Settled()) && reply == CommandTimeout ==>
                var cmd := RwCommand(opcode, old(io.nextCid), nsid, lba, n - 1, f * FRAME_BYTES);
                Touched(BlockController(), old(io.World()), cmd, io.World())
      ensures old(Settled()) && Prompt(turns) ==>
                && reply != CommandTimeout
                && var cmd := RwCommand(opcode, old(io.nextCid), nsid, lba, n - 1, f * FRAME_BYTES);
                   Outcome(BlockController(), old(io.World()), cmd, 0, io.World(), reply)
    {
      hide Quiet, Lockstep, JobCids, Wait, Decode, Outcome, OnItsWay, RwCommand, Prompt, Touched;
      ghost var w, s := io.World(), io.Abs();
      ControllersBehave(w);
      LockstepSized(s);
      CidInRange(s);
      var b := BuildRw(opcode, io.nextCid, nsid, lba, n - 1, f * FRAME_BYTES);
      CidOfRw(opcode, io.nextCid, nsid, lba, n - 1, f * FRAME_BYTES);
      WaitKeeps(BlockController(), Resembles(w), SubmitStep(s, b), turns);
      if Quiet(s) {
        QuietCall(BlockController(), s, b, turns);
      }
      reply := io.SubmitAndWait(b, BlockController(), turns);
      GoodIgnoresWorld(old(admin.Abs()), io.World());
    }

    /** A zeroed page with `data` at its start; the queues are not affected. */
    method PrepareBuffer(f: nat, data: seq<byte>)
      requires Valid() && |data| <= FRAME_BYTES
      modifies mem
      ensures Valid() && (old(Settled()) ==> Settled())
      ensures mem.frames == old(mem.frames)[f := Data(PageOf(data))]
    {
      hide Quiet, Good;
      mem.ZeroAsData(f);
      mem.WriteBytes(f, 0, data);
      assert mem.frames[f] == Data(PageOf(data));
      if admin != null {
        GoodIgnoresWorld(old(admin.Abs()), admin.World());
      }
      if io != null {
        GoodIgnoresWorld(old(io.Abs()), io.World());
      }
    }

    /** `io_write_blocks`. */
    method WriteBlocks(nsid: nat, lba: nat, blockSize: nat, data: seq<byte>, o: Outside) returns (r: Result<(), Error>)
      requires Valid() && OutsideOk(o) && nsid < U32 && lba < U64
      modifies this, Footprint(), store, mem
      ensures Valid() && (r == Err(InvalidTransferSize) ==> !ValidSize(|data|, blockSize))
      ensures old(Ready(o)) && !ValidSize(|data|, blockSize) ==> r == Err(InvalidTransferSize)
      ensures old(Settled()) ==> WriteSpec(old(store.disk), store.disk, nsid, lba, blockSize, data, r)
      ensures old(Settled()) && r != Err(Failed(CommandTimeout)) ==> Settled()
      ensures old(io) == null && io == null ==>
                r.Err? && IoCreation(if old(admin) == null then None else Some(old(admin.Abs())),
                                     World(old(store.disk), old(mem.frames)), o,
                                     if admin == null then None else Some(admin.Abs()), Err(r.error))
      ensures old(Settled()) && io != null && r.Err? ==>
                CallError(World(old(store.disk), old(mem.frames)), o, WRITE,
                          if old(io) == null then 0 else old(io.nextCid), nsid, lba, |data|, blockSize, data,
                          World(store.disk, mem.frames), r.error)
      ensures old(Settled() && Ready(o)) && Served(o, |data|, blockSize) ==>
                (r.Ok? <==> Transferable(old(store.disk), nsid, lba, |data|, blockSize))
    {
      hide Quiet, Good, Cut, Outcome, RwCommand, WriteSpec, Prompt, StatusOf, Touched, PageOf, Addressed,
           IoCreation, CallError, Ended, Prepared;
      ghost var d, w0 := store.disk, World(store.disk, mem.frames);
      r := EnsureIo(nsid, o);
      WriteFails(d, nsid, lba, blockSize, data, r);
      if r.Err? {
        return;
      }
      SizeError(w0, o, WRITE, io.nextCid, nsid, lba, |data|, blockSize, data, w0);
      if !ValidSize(|data|, blockSize) {
        r := Err(InvalidTransferSize);
        WriteFails(d, nsid, lba, blockSize, data, r);
        return;
      }
      if o.buffer.None? {
        r := Err(AllocFailed);
        WriteFails(d, nsid, lba, blockSize, data, r);
        return;
      }
      SizeIsBlocks(|data|, blockSize);
      var f := o.buffer.value;
      PrepareBuffer(f, data);
      ghost var w, cid := io.World(), io.nextCid;
      var reply := Transfer(WRITE, nsid, lba, |data| / blockSize, f, o.turns);
      r := if reply.Success? then Ok(()) else Err(Failed(reply));
      if old(Settled()) {
        EndedNow(w, RwCommand(WRITE, cid, nsid, lba, |data| / blockSize - 1, f * FRAME_BYTES), io.World(), reply);
        BufferReady(w0, f, data);
        if !reply.Success? {
          CommandError(w0, o, WRITE, cid, nsid, lba, |data|, blockSize, data, io.World(), reply);
        }
        WriteDone(w, io.World(), cid, nsid, lba, blockSize, data, f, reply);
        if Prompt(o.turns) {
          FaultFree(w, io.World(), WRITE, cid, nsid, lba, |data| / blockSize, f, reply);
        }
      }
    }

    /** `io_read_blocks`; on success the bytes copied out of the buffer are returned. */
    method ReadBlocks(nsid: nat, lba: nat, blockSize: nat, len: nat, o: Outside) returns (r: Result<seq<byte>, Error>)
      requires Valid() && OutsideOk(o) && nsid < U32 && lba < U64
      modifies this, Footprint(), store, mem
      ensures Valid() && (r == Err(InvalidTransferSize) ==> !ValidSize(len, blockSize))
      ensures old(Ready(o)) && !ValidSize(len, blockSize) ==> r == Err(InvalidTransferSize)
      ensures old(Settled()) ==> ReadSpec(old(store.disk), store.disk, nsid, lba, blockSize, len, r)
      ensures old(Settled()) && r != Err(Failed(CommandTimeout)) ==> Settled()
      ensures old(io) == null && io == null ==>
                r.Err? && IoCreation(if old(admin) == null then None else Some(old(admin.Abs())),
                                     World(old(store.disk), old(mem.frames)), o,
                                     if admin == null then None else Some(admin.Abs()), Err(r.error))
      ensures old(Settled()) && io != null && r.Err? ==>
                CallError(World(old(store.disk), old(mem.frames)), o, READ,
                          if old(io) == null then 0 else old(io.nextCid), nsid, lba, len, blockSize, [],
                          World(store.disk, mem.frames), r.error)
      ensures old(Settled() && Ready(o)) && Served(o, len, blockSize) ==>
                (r.Ok? <==> Transferable(old(store.disk), nsid, lba, len, blockSize))
    {
      hide Quiet, Good, Join, Outcome, RwCommand, ReadSpec, Prompt, StatusOf, Touched, PageOf, Addressed,
           IoCreation, CallError, Ended, Prepared;
      ghost var d, w0 := store.disk, World(store.disk, mem.frames);
      var up := EnsureIo(nsid, o);
      if up.Err? {
        r := Err(up.error);
        ReadFails(d, nsid, lba, blockSize, len, r);
        return;
      }
      SizeError(w0, o, READ, io.nextCid, nsid, lba, len, blockSize, [], w0);
      if !ValidSize(len, blockSize) {
        r := Err(InvalidTransferSize);
        ReadFails(d, nsid, lba, blockSize, len, r);
        return;
      }
      if o.buffer.None? {
        r := Err(AllocFailed);
        ReadFails(d, nsid, lba, blockSize, len, r);
        return;
      }
      SizeIsBlocks(len, blockSize);
      var f := o.buffer.value;
      PrepareBuffer(f, []);
      ghost var w, cid := io.World(), io.nextCid;
      var reply := Transfer(READ, nsid, lba, len / blockSize, f, o.turns);
      if old(Settled()) {
        EndedNow(w, RwCommand(READ, cid, nsid, lba, len / blockSize - 1, f * FRAME_BYTES), io.World(), reply);
        BufferReady(w0, f, []);
        if !reply.Success? {
          CommandError(w0, o, READ, cid, nsid, lba, len, blockSize, [], io.World(), reply);
        }
        ReadDone(w, io.World(), cid, nsid, lba, blockSize, len, f, reply);
        if Prompt(o.turns) {
          FaultFree(w, io.World(), READ, cid, nsid, lba, len / blockSize, f, reply);
        }
      }
      if !reply.Success? {
        return Err(Failed(reply));
      }
      r := Ok(Copied(mem.frames, f, len));
    }
  }

  /** `copy_nonoverlapping` out of the buffer page. */
  function Copied(ram: map<nat, Frame>, f: nat, len: nat): seq<byte> {
    if IsData(ram, f) && len <= FRAME_BYTES then ram[f].bytes[..len] else []
  }

  /**
   A read never changes the disk, and one that succeeds returns the start of a page that holds the blocks read,
   as many as the caller's block size makes; that is the blocks themselves if it is the namespace's.
   */
  ghost predicate ReadSpec(d: Namespace, d': Namespace, nsid: nat, lba: nat, blockSize: nat, len: nat,
                           r: Result<seq<byte>, Error>) {
    match r
    case Err(e) => d' == d
    case Ok(out) =>
      && d' == d && Transferable(d, nsid, lba, len, blockSize)
      && out == PageOf(DiskRead(d, lba, len / blockSize))[..len]
      && (blockSize == d.blockSize ==> out == DiskRead(d, lba, len / blockSize) && |out| == len)
  }

  lemma ReadFails(d: Namespace, nsid: nat, lba: nat, blockSize: nat, len: nat, r: Result<seq<byte>, Error>)
    ensures r.Err? ==> ReadSpec(d, d, nsid, lba, blockSize, len, r)
  {
  }

  /** The memory once the buffer page is zeroed and filled. */
  function Prepared(w: World, f: nat, data: seq<byte>): World { w.(ram := w.ram[f := Data(PageOf(data))]) }

  /** The one error for each cause: a bad size, no buffer, or the reply to the command that was sent. */
  ghost predicate CallError(w: World, o: Outside, opcode: nat, cid: nat, nsid: nat, lba: nat, len: nat, blockSize: nat,
                            data: seq<byte>, w': World, e: Error) {
    if !ValidSize(len, blockSize) then e == InvalidTransferSize
    else if o.buffer.None? then e == AllocFailed
    else
      var f := o.buffer.value;
      && e.Failed? && !e.reply.Success?
      && Ended(Prepared(w, f, data), RwCommand(opcode, cid, nsid, lba, len / blockSize - 1, f * FRAME_BYTES), w',
               e.reply)
  }

  lemma SizeError(w: World, o: Outside, opcode: nat, cid: nat, nsid: nat, lba: nat, len: nat, blockSize: nat,
                  data: seq<byte>, w': World)
    ensures !ValidSize(len, blockSize) ==>
              CallError(w, o, opcode, cid, nsid, lba, len, blockSize, data, w', InvalidTransferSize)
    ensures ValidSize(len, blockSize) && o.buffer.None? ==>
              CallError(w, o, opcode, cid, nsid, lba, len, blockSize, data, w', AllocFailed)
  {
  }

  lemma CommandError(w: World, o: Outside, opcode: nat, cid: nat, nsid: nat, lba: nat, len: nat, blockSize: nat,
                     data: seq<byte>, w': World, reply: Reply)
    requires ValidSize(len, blockSize) && o.buffer.Some? && !reply.Success?
    requires Ended(Prepared(w, o.buffer.value, data),
                   RwCommand(opcode, cid, nsid, lba, len / blockSize - 1, o.buffer.value * FRAME_BYTES), w', reply)
    ensures CallError(w, o, opcode, cid, nsid, lba, len, blockSize, data, w', Failed(reply))
  {
    hide Ended, Prepared, RwCommand;
  }

  /** What the controller made of the command: executed with this reply, or not answered in time. */
  ghost predicate Ended(w: World, cmd: Command, w': World, reply: Reply) {
    if reply == CommandTimeout then Touched(BlockController(), w, cmd, w')
    else exists fault: nat :: Outcome(BlockController(), w, cmd, fault, w', reply)
  }

  lemma EndedNow(w: World, cmd: Command, w': World, reply: Reply)
    requires reply == CommandTimeout ==> Touched(BlockController(), w, cmd, w')
    requires reply != CommandTimeout ==> exists fault: nat :: Outcome(BlockController(), w, cmd, fault, w', reply)
    ensures Ended(w, cmd, w', reply)
  {
  }

  lemma BufferReady(w: World, f: nat, data: seq<byte>)
    ensures var w1 := Prepared(w, f, data);
            && w1.disk == w.disk && w1.ram == w.ram[f := Data(PageOf(data))]
            && IsData(w1.ram, f) && w1.ram[f].bytes == PageOf(data)
  {
  }

  /** Then it had no effect, or that of one execution; with a success, that of a successful one. */
  lemma EndedHow(w: World, cmd: Command, w': World, reply: Reply) returns (fault: nat)
    requires Ended(w, cmd, w', reply)
    ensures var e := BlockController()(w, cmd, fault);
            && (w' == w || w' == e.world)
            && (reply.Success? ==> w' == e.world && e.status == SUCCESS)
            && (reply != CommandTimeout ==> w' == e.world && (reply.Success? <==> e.status == SUCCESS))
  {
    hide Execute, Outcome;
    fault := 0;
    if reply != CommandTimeout {
      fault :| Outcome(BlockController(), w, cmd, fault, w', reply);
      SuccessIs(w, cmd, fault, w', reply);
    } else if w' != w {
      fault :| w' == BlockController()(w, cmd, fault).world;
    }
  }

  lemma ReadDone(w: World, w': World, cid: nat, nsid: nat, lba: nat, blockSize: nat, len: nat, f: nat, reply: Reply)
    requires NamespaceOk(w.disk) && ValidSize(len, blockSize) && lba < U64
    requires IsData(w.ram, f) && w.ram[f].bytes == PageOf([])
    requires Ended(w, RwCommand(READ, cid, nsid, lba, len / blockSize - 1, f * FRAME_BYTES), w', reply)
    ensures ReadSpec(w.disk, w'.disk, nsid, lba, blockSize, len,
                     if reply.Success? then Ok(Copied(w'.ram, f, len)) else Err(Failed(reply)))
  {
    hide Ended, Execute, DiskRead, Times;
    SizeIsBlocks(len, blockSize);
    var cmd := RwCommand(READ, cid, nsid, lba, len / blockSize - 1, f * FRAME_BYTES);
    var fault := EndedHow(w, cmd, w', reply);
    RwFields(READ, cid, nsid, lba, len / blockSize, f * FRAME_BYTES);
    ReadOutcome(w, cmd, fault, f, BlockController()(w, cmd, fault).world);
    if reply.Success? {
      ReadIntoPage(DiskRead(w.disk, lba, len / blockSize));
    }
  }

  lemma ReadIntoPage(data: seq<byte>)
    requires |data| <= FRAME_BYTES
    ensures data + PageOf([])[|data|..] == PageOf(data)
  {
  }

  /** The blocks the controller takes from a page that starts with `data`. */
  function Stored(d: Namespace, lba: nat, data: seq<byte>, n: nat): Namespace
    requires InRange(d, lba, n) && Times(n, d.blockSize) <= FRAME_BYTES
  {
    DiskWrite(d, lba, PageOf(data)[..Times(n, d.blockSize)], n)
  }

  /** The write took place: on as many blocks as the caller's block size makes. */
  ghost predicate TookPlace(d: Namespace, d': Namespace, nsid: nat, lba: nat, blockSize: nat, data: seq<byte>) {
    && Transferable(d, nsid, lba, |data|, blockSize)
    && d' == Stored(d, lba, data, |data| / blockSize)
  }

  /**
   An acknowledged write took place. One that failed changed nothing, except that after a timeout it may have
   taken place as a whole.
   */
  ghost predicate WriteSpec(d: Namespace, d': Namespace, nsid: nat, lba: nat, blockSize: nat, data: seq<byte>,
                            r: Result<(), Error>) {
    match r
    case Err(e) => d' == d || (e == Failed(CommandTimeout) && TookPlace(d, d', nsid, lba, blockSize, data))
    case Ok(_) => TookPlace(d, d', nsid, lba, blockSize, data)
  }

  /** With the namespace's own block size, exactly the data is written to exactly its blocks. */
  lemma OwnBlockSize(d: Namespace, d': Namespace, nsid: nat, lba: nat, data: seq<byte>)
    requires TookPlace(d, d', nsid, lba, d.blockSize, data)
    ensures var n := |data| / d.blockSize;
            InRange(d, lba, n) && |data| == Times(n, d.blockSize) && d' == DiskWrite(d, lba, data, n)
  {
    hide Times, DiskWrite;
    SizeIsBlocks(|data|, d.blockSize);
    assert PageOf(data)[..|data|] == data;
  }

  lemma WriteFails(d: Namespace, nsid: nat, lba: nat, blockSize: nat, data: seq<byte>, r: Result<(), Error>)
    ensures r.Err? ==> WriteSpec(d, d, nsid, lba, blockSize, data, r)
  {
  }

  lemma WriteDone(w: World, w': World, cid: nat, nsid: nat, lba: nat, blockSize: nat, data: seq<byte>, f: nat,
                  reply: Reply)
    requires NamespaceOk(w.disk) && ValidSize(|data|, blockSize) && lba < U64
    requires IsData(w.ram, f) && w.ram[f].bytes == PageOf(data)
    requires Ended(w, RwCommand(WRITE, cid, nsid, lba, |data| / blockSize - 1, f * FRAME_BYTES), w', reply)
    ensures WriteSpec(w.disk, w'.disk, nsid, lba, blockSize, data,
                      if reply.Success? then Ok(()) else Err(Failed(reply)))
  {
    hide Ended, Execute, DiskWrite, PageOf, Times;
    SizeIsBlocks(|data|, blockSize);
    var cmd := RwCommand(WRITE, cid, nsid, lba, |data| / blockSize - 1, f * FRAME_BYTES);
    var fault := EndedHow(w, cmd, w', reply);
    RwFields(WRITE, cid, nsid, lba, |data| / blockSize, f * FRAME_BYTES);
    WriteOutcome(w, cmd, fault, f, BlockController()(w, cmd, fault).world);
  }

  /** Without a fault, the call succeeds exactly on the right namespace, within its blocks and one page. */
  lemma FaultFree(w: World, w': World, opcode: nat, cid: nat, nsid: nat, lba: nat, n: nat, f: nat, reply: Reply)
    requires (opcode == READ || opcode == WRITE) && lba < U64 && 1 <= n <= FRAME_BYTES && IsData(w.ram, f)
    requires Outcome(BlockController(), w, RwCommand(opcode, cid, nsid, lba, n - 1, f * FRAME_BYTES), 0, w', reply)
    ensures reply.Success? <==> Addressed(w.disk, nsid, lba, n)
  {
    hide Times, DiskWrite, DiskRead;
    RwFields(opcode, cid, nsid, lba, n, f * FRAME_BYTES);
    assert f * FRAME_BYTES / FRAME_BYTES == f && f * FRAME_BYTES % FRAME_BYTES == 0;
  }

  lemma RwFields(opcode: nat, cid: nat, nsid: nat, lba: nat, n: nat, prp1: nat)
    requires lba < U64 && 1 <= n <= FRAME_BYTES
    ensures var c := RwCommand(opcode, cid, nsid, lba, n - 1, prp1);
            StartLba(c) == lba && BlockCount(c) == n && c.opcode == opcode && c.nsid == nsid && c.prp1 == prp1
  {
  }

  // ----- Any sequence of calls -----

  /** One call with its reply, as the driver's contracts describe it. */
  datatype Call =
    | Wrote(nsid: nat, lba: nat, data: seq<byte>, done: Result<(), Error>)
    | Got(nsid: nat, lba: nat, len: nat, out: Result<seq<byte>, Error>)

  predicate TimedOut(c: Call) {
    match c
    case Wrote(_, _, _, done) => done == Err(Failed(CommandTimeout))
    case Got(_, _, _, out) => out == Err(Failed(CommandTimeout))
  }

  /** The call took the disk from `d` to `d'`, with the namespace's own block size. */
  ghost predicate CallSpec(d: Namespace, c: Call, d': Namespace) {
    match c
    case Wrote(nsid, lba, data, done) => WriteSpec(d, d', nsid, lba, d.blockSize, data, done)
    case Got(nsid, lba, len, out) => ReadSpec(d, d', nsid, lba, d.blockSize, len, out)
  }

  ghost predicate IsHistory(ds: seq<Namespace>, cs: seq<Call>) {
    && |ds| == |cs| + 1
    && forall i :: 0 <= i < |cs| ==> CallSpec(ds[i], cs[i], ds[i + 1]) && !TimedOut(cs[i])
  }

  /** The acknowledged writes, in order. */
  function Acknowledged(cs: seq<Call>, blockSize: nat): seq<Written>
    requires blockSize > 0
  {
    if cs == [] then []
    else Acknowledged(DropLast(cs), blockSize) + Added(Last(cs), blockSize)
  }

  /** What the newest call added to the acknowledged writes. */
  function Added(c: Call, blockSize: nat): seq<Written>
    requires blockSize > 0
  {
    if c.Wrote? && c.done.Ok? then [Written(c.lba, c.data, |c.data| / blockSize)] else []
  }

  lemma ReplayMore(d: Namespace, ws: seq<Written>, w: Written)
    requires AllFit(d, ws) && Fits(d, w)
    ensures AllFit(d, ws + [w]) && Replay(d, ws + [w]) == DiskWrite(Replay(d, ws), w.lba, w.data, w.n)
  {
    hide Cut, Times;
    assert DropLast(ws + [w]) == ws;
  }

  lemma CallReplays(d: Namespace, ws: seq<Written>, c: Call, d': Namespace)
    requires AllFit(d, ws) && d.blockSize > 0 && CallSpec(Replay(d, ws), c, d') && !TimedOut(c)
    ensures var after := ws + Added(c, d.blockSize); AllFit(d, after) && d' == Replay(d, after)
  {
    hide Cut, Times, Replay, ValidSize;
    if c.Wrote? && c.done.Ok? {
      OwnBlockSize(Replay(d, ws), d', c.nsid, c.lba, c.data);
      ReplayMore(d, ws, Written(c.lba, c.data, |c.data| / d.blockSize));
    } else {
      assert ws + Added(c, d.blockSize) == ws;
    }
  }

  /** After any calls, failed ones included, the disk is the first one with the acknowledged writes replayed. */
  lemma {:induction false} HistoryDisk(ds: seq<Namespace>, cs: seq<Call>)
    requires IsHistory(ds, cs) && ds[0].blockSize > 0
    ensures var ws := Acknowledged(cs, ds[0].blockSize);
            AllFit(ds[0], ws) && ds[|cs|] == Replay(ds[0], ws)
    decreases |cs|
  {
    hide CallSpec, TimedOut, Added;
    if cs != [] {
      ShorterHistory(ds, cs);
      HistoryDisk(DropLast(ds), DropLast(cs));
      CallReplays(ds[0], Acknowledged(DropLast(cs), ds[0].blockSize), Last(cs), ds[|cs|]);
    }
  }

  lemma ShorterHistory(ds: seq<Namespace>, cs: seq<Call>)
    requires IsHistory(ds, cs) && cs != []
    ensures IsHistory(DropLast(ds), DropLast(cs)) && DropLast(ds)[0] == ds[0] && DropLast(ds)[|cs| - 1] == ds[|cs| - 1]
  {
    hide CallSpec, TimedOut;
    forall i | 0 <= i < |cs| - 1
      ensures CallSpec(DropLast(ds)[i], DropLast(cs)[i], DropLast(ds)[i + 1]) && !TimedOut(DropLast(cs)[i])
    {
      assert CallSpec(ds[i], cs[i], ds[i + 1]) && !TimedOut(cs[i]);
    }
  }

  lemma HistoryPrefix(ds: seq<Namespace>, cs: seq<Call>, i: nat)
    requires IsHistory(ds, cs) && i <= |cs|
    ensures IsHistory(ds[..i + 1], cs[..i])
  {
    hide CallSpec, TimedOut;
  }

  /** The newest acknowledged block for each of `n` block numbers from `lba` on. */
  function NewestBlocks(d: Namespace, ws: seq<Written>, lba: nat, n: nat): seq<seq<byte>>
    requires AllFit(d, ws) && InRange(d, lba, n)
  {
    seq(n, k requires 0 <= k < n => BlockAfter(d, ws, lba + k))
  }

  /**
   The storage is a map from block number to block: in any sequence of calls without a timeout, every
   successful read returns, block by block, the newest data acknowledged before it.
   */
  lemma ReadsSeeNewest(ds: seq<Namespace>, cs: seq<Call>, i: nat)
    requires IsHistory(ds, cs) && ds[0].blockSize > 0 && i < |cs| && cs[i].Got? && cs[i].out.Ok?
    ensures var ws, n := Acknowledged(cs[..i], ds[0].blockSize), cs[i].len / ds[0].blockSize;
            && AllFit(ds[0], ws) && InRange(ds[0], cs[i].lba, n)
            && cs[i].out.value == Join(NewestBlocks(ds[0], ws, cs[i].lba, n))
  {
    hide Cut, Join, BlockAfter, Replay, ValidSize, Acknowledged;
    HistoryPrefix(ds, cs, i);
    HistoryDisk(ds[..i + 1], cs[..i]);
    assert ds[..i + 1][0] == ds[0] && ds[..i + 1][i] == ds[i];
    assert CallSpec(ds[i], cs[i], ds[i + 1]);
    var ws, lba, n := Acknowledged(cs[..i], ds[0].blockSize), cs[i].lba, cs[i].len / ds[0].blockSize;
    forall k | 0 <= k < n ensures ds[i].blocks[lba..lba + n][k] == NewestBlocks(ds[0], ws, lba, n)[k] {
      NewestWriteWins(ds[0], ws, lba + k);
    }
    assert ds[i].blocks[lba..lba + n] == NewestBlocks(ds[0], ws, lba, n);
  }

  lemma CidOfRw(opcode: nat, cid: nat, nsid: nat, lba: nat, nlb: nat, prp1: nat)
    ensures RwCommand(opcode, cid, nsid, lba, nlb, prp1).cid == cid
  {
  }

  /** One undisturbed call, in one statement. */
  lemma QuietCall(ctl: Controller, s: Link, b: seq<byte>, turns: seq<seq<Move>>)
    requires Quiet(s) && Enabled(s, Submit(b)) && Answers(ctl) && turns != []
    ensures var (s', r) := Wait(ctl, SubmitStep(s, b), turns);
            if r == CommandTimeout then Touched(ctl, s.dev.world, Decode(b), s'.dev.world)
            else Quiet(s') && exists choice: nat :: Outcome(ctl, s.dev.world, Decode(b), choice, s'.dev.world, r)
    ensures Prompt(turns) ==>
              var (s', r) := Wait(ctl, SubmitStep(s, b), turns);
              r != CommandTimeout && Outcome(ctl, s.dev.world, Decode(b), 0, s'.dev.world, r)
  {
    hide Lockstep, JobCids, Faithful, OnItsWay, Wait, Decode, Outcome, Prompt, Touched;
    LockstepSized(s);
    SubmitOnItsWay(ctl, s, b);
    if Prompt(turns) {
      PromptWait(ctl, s.dev.world, Decode(b), s.log.consumed, SubmitStep(s, b), turns);
    }
    WaitSpec(ctl, s.dev.world, Decode(b), s.log.consumed, SubmitStep(s, b), turns);
  }

  lemma CreationFields(c: Command, completion: bool, prp1: nat)
    requires c.prp1 == prp1 && QueueId(c) == IO_QID && QueueSize(c) == IO_DEPTH && Contiguous(c)
    requires completion ==> c.opcode == CREATE_CQ && !Interrupts(c)
    requires !completion ==> c.opcode == CREATE_SQ && CompletionQueueId(c) == IO_QID
    ensures IsCreation(c, completion, prp1)
  {
  }

  lemma CreationSucceeds(w: World, cmd: Command, w': World, r: Reply)
    ensures Outcome(AdminController(), w, cmd, 0, w', r) ==> r.Success?
  {
  }

  lemma CidInRange(s: Link)
    requires Lockstep(s)
    ensures s.host.nextCid < U16
  {
  }
}
