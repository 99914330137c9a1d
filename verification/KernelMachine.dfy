/**
 The scheduler's methods (kernel/src/scheduler/mod.rs), updating the allocator, memory, the run queue
 and the task table in place. Each is one step of module Lifecycle.
 */
module KernelMachine {
  import opened Prelude
  import opened PhysicalMemory
  import opened FrameAllocator
  import opened Paging
  import opened RunQueues
  import opened Elf
  import Scheduling
  import opened Lifecycle

  type Task = Scheduling.Task

  const OUT_OF_FRAMES := "out of memory allocating stack"
  const LOAD_FAILED := "elf load failed"

  /** How a call ends: normally, or in a kernel panic after which nothing runs. */
  datatype Outcome<+T> = Done(value: T) | Panic

  /** Every page some segment touches lies in the lower half. */
  ghost predicate LowerHalf(segs: seq<Segment>) {
    forall vpage: nat :: FirstTouch(segs, vpage).Some? ==> vpage < USER_PAGES
  }

  /** Physical memory lies below 2^47, so that a user stack's frame is also a lower-half address. */
  ghost predicate BelowUserLimit(s: State) { forall i :: 0 <= i < |s.regions| ==> s.regions[i].end <= USER_PAGES }

  /** What `spawn_program` relies on in an image it accepts. */
  ghost predicate Program(d: seq<byte>) {
    Sane(d) &&
    (HeaderError(d).None? && GoodHeaders(d, HeaderCount(d)) ==> LowerHalf(Segments(d, HeaderCount(d))))
  }

  predicate BadImage(d: seq<byte>) { HeaderError(d).Some? || !Readable(d) || !GoodHeaders(d, HeaderCount(d)) }

  /** The header is good, but a file part needs a page that no segment touches. */
  ghost predicate Unloadable(d: seq<byte>) { HeaderError(d).None? && Readable(d) && Uncovered(d) }

  /** There is no frame left: none to reuse, and no region has one that was never handed out. */
  ghost predicate NoFrame(s: State) { s.freeList == [] && NoRoom(s, 1) }

  /** There is no frame left, or no region has room for a kernel stack. */
  ghost predicate RanDry(s: State) { NoFrame(s) || NoRoom(s, Scheduling.STACK_FRAMES) }

  /** For 48-bit addresses, that is the same as a root index below 256 for every touched page. */
  lemma LowerHalfIff(segs: seq<Segment>)
    requires forall vpage: nat :: FirstTouch(segs, vpage).Some? ==> vpage < PAGE_NUMBERS
    ensures LowerHalf(segs) <==>
              forall vpage: nat :: FirstTouch(segs, vpage).Some? ==> Indices(vpage)[0] < USER_HALF
  {
    hide FirstTouch, Indices;
    forall vpage: nat | FirstTouch(segs, vpage).Some?
      ensures Indices(vpage)[0] < USER_HALF <==> vpage < USER_PAGES
    {
      RootIndexLow(vpage);
    }
  }

  class Kernel {
    const pmm: Pmm
    const mem: Memory
    const rq: RunQueue
    var tasks: map<Pid, Task>
    var current: Pid
    var nextPid: Pid
    var cr3: nat
    ghost var live: set<nat>
    ghost var leaked: set<nat>
    ghost var progs: map<Pid, Prog>
    ghost const root: nat

    ghost function SchedAbs(): Scheduling.Sched
      reads this, rq
    {
      Scheduling.Sched(tasks, rq.Abs(), current, nextPid, cr3)
    }

    ghost function Abs(): Lifecycle.Kernel
      reads this, pmm, mem, rq
    {
      Lifecycle.Kernel(SchedAbs(), pmm.Abs(), mem.frames, live, leaked, progs, root)
    }

    ghost predicate Valid()
      reads this, pmm, mem, rq
    {
      KernelInv(Abs()) && BelowUserLimit(pmm.Abs())
    }

    /** Before the first task: nothing is owned, the kernel's own table is live. */
    constructor (pmm: Pmm, mem: Memory, kernelRoot: nat)
      requires FrameAllocator.Valid(pmm.Abs(), {}) && pmm.freeList == [] && BelowUserLimit(pmm.Abs())
      requires IsTable(mem.frames, kernelRoot) && !Managed(pmm.Abs(), kernelRoot)
      ensures this.pmm == pmm && this.mem == mem && this.root == kernelRoot && fresh(rq)
      ensures Valid() && tasks == map[] && current == 0 && nextPid == 1
    {
      this.pmm, this.mem := pmm, mem;
      this.rq := new RunQueue();
      tasks, current, nextPid, cr3 := map[], 0, 1, kernelRoot;
      live, leaked, progs, root := {}, {}, map[], kernelRoot;
      new;
      EmptyQueue();
    }

    // ----- Scheduler steps -----

    method SwitchTo(next: Pid)
      requires |rq.levels| == LEVELS
      modifies this`current, this`tasks, this`cr3, rq
      ensures SchedAbs() == Scheduling.SwitchTo(old(SchedAbs()), next)
    {
      var prev := current;
      current := next;
      if prev == next {
        return;
      }
      if prev != 0 && prev in tasks && tasks[prev].state == Scheduling.Running {
        tasks := tasks[prev := tasks[prev].(state := Scheduling.Runnable)];
        rq.Enqueue(prev, tasks[prev].prio);
      }
      if next !in tasks {
        return;
      }
      tasks := tasks[next := tasks[next].(state := Scheduling.Running)];
      var nextCr3 := tasks[next].cr3;
      if cr3 != nextCr3 {
        cr3 := nextCr3;
      }
    }

    /** `yield_now`, and one turn of the boot loop. */
    method YieldNow()
      requires Valid()
      modifies this`current, this`tasks, this`cr3, rq
      ensures Valid() && Step(old(Abs()), Yield, Abs())
    {
      hide KernelInv;
      Parts(Abs());
      ghost var k := Abs();
      var next := rq.Dequeue();
      if next.Some? {
        SwitchTo(next.value);
      }
      StepInv(k, Yield, Abs());
    }

    /** The timer tick; with a lock contended it does nothing. */
    method TryPreempt(contended: bool)
      requires Valid()
      modifies this`current, this`tasks, this`cr3, rq
      ensures Valid() && Step(old(Abs()), Tick(contended), Abs())
    {
      hide KernelInv;
      Parts(Abs());
      ghost var k := Abs();
      if contended {
        return;
      }
      var next := rq.Dequeue();
      if next.Some? {
        SwitchTo(next.value);
      }
      StepInv(k, Tick(false), Abs());
    }

    method ExitCurrent() returns (r: Outcome<()>)
      requires Valid()
      modifies this`current, this`tasks, this`cr3, rq
      ensures r.Done? ==> Valid() && Step(old(Abs()), Exit, Abs())
      ensures r.Panic? <==> Scheduling.Ready(old(SchedAbs())) == []
    {
      hide KernelInv, Scheduling.Yield, SpawnProgramStep, SpawnFailedStep, SpawnThreadStep, ReapStep, ComputeStep;
      Parts(Abs());
      ghost var k := Abs();
      ExitLaw(k);
      if current != 0 && current in tasks {
        tasks := tasks[current := tasks[current].(state := Scheduling.Zombie)];
      }
      var next := rq.Dequeue();
      if next.None? {
        return Panic;
      }
      current := next.value;
      if current !in tasks {
        return Panic;
      }
      tasks := tasks[current := tasks[current].(state := Scheduling.Running)];
      if cr3 != tasks[current].cr3 {
        cr3 := tasks[current].cr3;
      }
      StepInv(k, Exit, Abs());
      r := Done(());
    }

    // ----- Process creation and reclamation -----

    method FreeFrames(fs: seq<nat>) returns (panicked: bool)
      modifies pmm, mem
      ensures panicked <==> FreeAll(old(pmm.Abs()), fs).None?
      ensures !panicked ==> FreeAll(old(pmm.Abs()), fs) == Some(pmm.Abs()) && mem.frames == Scrub(old(mem.frames), fs)
    {
      for i := 0 to |fs|
        invariant FreeAll(pmm.Abs(), fs[i..]) == FreeAll(old(pmm.Abs()), fs)
        invariant Scrub(mem.frames, fs[i..]) == Scrub(old(mem.frames), fs)
      {
        assert fs[i..][1..] == fs[i + 1..];
        panicked := pmm.Free(mem, fs[i]);
        if panicked {
          return;
        }
      }
      panicked := false;
    }

    /** Panics exactly when there is no such zombie; the double-free guard never fires. */
    method Reap(pid: Pid) returns (r: Outcome<()>)
      requires Valid()
      modifies this`tasks, this`live, this`progs, pmm, mem
      ensures r.Panic? <==> !(pid in old(tasks) && old(tasks)[pid].state == Scheduling.Zombie)
      ensures r.Done? ==> Valid() && Step(old(Abs()), Lifecycle.Reap(pid), Abs())
    {
      hide KernelInv, FreeAll, Scrub, Owns, Step;
      Parts(Abs());
      ghost var k := Abs();
      if pid !in tasks {
        return Panic;
      }
      var t := tasks[pid];
      tasks := tasks - {pid};
      if t.state != Scheduling.Zombie {
        return Panic;
      }
      ReapLaw(k, pid);
      var frames := Owns(t);
      var panicked := FreeFrames(frames);
      live, progs := live - Elems(frames), progs - {pid};
      ReapDone(k, pid, Abs());
      r := Done(());
    }

    /** The part of `spawn` shared by all tasks: a kernel stack, a task, a place in the queue. */
    method AddTask() returns (r: Outcome<Pid>, base: nat)
      requires |rq.levels| == LEVELS && nextPid < Scheduling.PID_LIMIT
      modifies this`tasks, this`nextPid, pmm, rq
      ensures r.Done? ==>
                && AllocContiguous(old(pmm.Abs()), Scheduling.STACK_FRAMES) == (pmm.Abs(), Some(base))
                && SchedAbs() == Scheduling.Spawn(old(SchedAbs()), base) && r.value == old(nextPid)
      ensures r.Panic? <==> NoRoom(old(pmm.Abs()), Scheduling.STACK_FRAMES)
      ensures r.Panic? ==> NoRoom(pmm.Abs(), Scheduling.STACK_FRAMES)
    {
      hide NoRoom;
      ContiguousStays(pmm.Abs(), Scheduling.STACK_FRAMES);
      BlockIsFirstRoom(pmm.Abs(), Scheduling.STACK_FRAMES);
      BlockIsFirstRoom(AllocContiguous(pmm.Abs(), Scheduling.STACK_FRAMES).0, Scheduling.STACK_FRAMES);
      var pid := nextPid;
      base := 0;
      nextPid := nextPid + 1;
      var block := pmm.AllocBlock(Scheduling.STACK_FRAMES);
      if block.None? {
        return Panic, base;
      }
      base := block.value;
      tasks := tasks[pid := Scheduling.Task(Scheduling.Runnable, Scheduling.DEFAULT_PRIO, cr3, base, None, 0)];
      rq.Enqueue(pid, Scheduling.DEFAULT_PRIO);
      r := Done(pid);
    }

    /** `spawn`: a step of the machine exactly when the kernel's own page table is active. */
    method SpawnKernelThread() returns (r: Outcome<Pid>)
      requires Valid() && nextPid < Scheduling.PID_LIMIT
      modifies this`tasks, this`nextPid, this`live, pmm, rq
      ensures r.Done? ==> r.value == old(nextPid) && exists base :: ThreadSpawned(old(Abs()), base, Abs())
      ensures r.Done? ==> (Valid() <==> old(cr3) == root)
      ensures r.Done? && old(cr3) == root ==> exists base :: Step(old(Abs()), SpawnThread(base), Abs())
      ensures r.Panic? <==> NoRoom(old(pmm.Abs()), Scheduling.STACK_FRAMES)
    {
      hide KernelInv, AllocContiguous, NoRoom;
      Parts(Abs());
      ghost var k := Abs();
      var base;
      r, base := AddTask();
      if r.Done? {
        live := live + Elems(Block(base, Scheduling.STACK_FRAMES));
        RegionsKept(k, base);
        assert ThreadSpawned(k, base, Abs());
        SpawnThreadIff(k, base, Abs());
        assert k.sched.cr3 == k.root ==> Step(k, SpawnThread(base), Abs());
      }
    }

    /**
     `spawn_program`: load the image into fresh frames, build its address space, and add a task for it.
     `ev` is the step taken. It fails only for a bad image or for want of a frame, and panics only when
     the allocator runs dry half way or a file part needs a page that no segment touches.
     */
    method SpawnProgram(elf: seq<byte>)
      returns (r: Outcome<Result<Pid, string>>, ghost ev: Event)
      requires Valid() && Program(elf) && nextPid < Scheduling.PID_LIMIT
      modifies this`tasks, this`nextPid, this`live, this`leaked, this`progs, pmm, mem, rq
      ensures r.Done? ==> Valid() && Step(old(Abs()), ev, Abs())
      ensures r.Done? && r.value.Err? ==> ev.SpawnFailed? && tasks == old(tasks)
      ensures r.Done? && r.value.Err? ==>
                (BadImage(elf) && r.value.error == LOAD_FAILED) || NoFrame(pmm.Abs())
      ensures r.Panic? ==> RanDry(pmm.Abs()) || Unloadable(elf)
      ensures r.Done? && r.value.Ok? ==>
                && ev.SpawnProgram? && r.value.value == old(nextPid)
                && HeaderError(elf).None? && GoodHeaders(elf, HeaderCount(elf)) && Loaded(elf, ev.pages, mem.frames)
    {
      hide KernelInv, Program, Loaded, Backed, Leaked, UserTable, Translates, UpperHalfShared, AllocFrame, NoRoom,
           AllocContiguous, HeaderError, GoodHeaders, FrameAllocator.Valid, Step, Available, Sane, Uncovered;
      ghost var k := Abs();
      Parts(k);
      ProgramImage(elf);
      CurrentTable(k);
      ev := SpawnFailed([]);
      var image;
      ghost var taken;
      var lost;
      lost, image, taken := LoadFresh(pmm, mem, elf, live);
      if lost {
        return Panic, ev;
      }
      ghost var k1 := Abs();
      FrameIsNext(pmm.Abs());
      if image.Err? {
        live, leaked, ev := live + Elems(taken), leaked + Elems(taken), SpawnFailed(taken);
        FailedStep(k, taken, Abs());
        return Done(Err(LOAD_FAILED)), ev;
      }
      var pages := image.value.1;
      AfterLoad(k, elf, pages, taken, k1);
      var stack := pmm.Alloc(live + Elems(taken));
      ghost var p2 := pmm.Abs();
      if stack.None? {
        live, leaked, ev := live + Elems(taken), leaked + Elems(taken), SpawnFailed(taken);
        FailedAtStack(k, pages, taken, k1, Abs());
        return Done(Err(OUT_OF_FRAMES)), ev;
      }
      mem.ZeroAsData(stack.value);
      AfterStack(k, elf, pages, taken, k1, stack.value, p2, mem.frames);
      ghost var m2, live2 := mem.frames, live + Elems(taken) + {stack.value};
      var ok, newRoot, tables;
      ghost var labels;
      ok, newRoot, tables, labels := CreateUserTable(pmm, mem, cr3, pages, stack.value, live2);
      if !ok {
        FrameIsNext(pmm.Abs());
        return Panic, ev;
      }
      ghost var p3 := pmm.Abs();
      var pid, base := AddTask();
      if pid.Panic? {
        return Panic, ev;
      }
      var t := tasks[pid.value].(cr3 := newRoot, isolated := Some(tables + Frames(pages)), userStack := stack.value);
      tasks := tasks[pid.value := t];
      ghost var g := Grant(Frames(pages), stack.value, tables, base);
      live, progs := live + Elems(GrantFrames(g)), progs[pid.value := Prog(tables, labels, pages)];
      ev := Event.SpawnProgram(g, pages, labels);
      Spawned(k, elf, pages, taken, k1, stack.value, p2, m2, p3, g, labels, Abs());
      r := Done(Ok(pid.value));
    }
  }

  lemma RegionsKept(k: Lifecycle.Kernel, base: nat)
    requires KernelInv(k) && AllocContiguous(k.pm, Scheduling.STACK_FRAMES).1 == Some(base)
    ensures AllocContiguous(k.pm, Scheduling.STACK_FRAMES).0.regions == k.pm.regions
  {
    AllocContiguousSpec(k.pm, k.live, Scheduling.STACK_FRAMES);
  }

  lemma ExitLaw(k: Lifecycle.Kernel)
    requires KernelInv(k)
    ensures |k.sched.queue.levels| == LEVELS
    ensures Scheduling.Exit(k.sched).None? <==> Scheduling.Ready(k.sched) == []
    ensures Scheduling.Ready(k.sched) != [] ==>
              && Pop(k.sched.queue).1 == Some(Scheduling.Ready(k.sched)[0])
              && Scheduling.Ready(k.sched)[0] in k.sched.tasks
    ensures Scheduling.Ready(k.sched) == [] ==> Pop(k.sched.queue).1 == None
  {
    Scheduling.ExitInv(k.sched);
    Scheduling.ReadyPop(k.sched);
  }

  lemma ReapLaw(k: Lifecycle.Kernel, pid: Pid)
    requires KernelInv(k) && pid in k.sched.tasks
    ensures FreeAll(k.pm, Owns(k.sched.tasks[pid])).Some?
    ensures FreeAll(k.pm, Owns(k.sched.tasks[pid])).value.regions == k.pm.regions
  {
    ReapFrees(k, pid);
  }

  lemma ReapDone(k: Lifecycle.Kernel, pid: Pid, k': Lifecycle.Kernel)
    requires KernelInv(k) && pid in k.sched.tasks && k.sched.tasks[pid].state == Scheduling.Zombie
    requires var fs := Owns(k.sched.tasks[pid]);
             && FreeAll(k.pm, fs) == Some(k'.pm)
             && k' == k.(sched := k.sched.(tasks := k.sched.tasks - {pid}), pm := k'.pm, mem := Scrub(k.mem, fs),
                         live := k.live - Elems(fs), progs := k.progs - {pid})
    ensures |k.sched.queue.levels| == LEVELS && Step(k, Lifecycle.Reap(pid), k') && KernelInv(k')
  {
    hide KernelInv, FreeAll, Scrub, Owns;
    Parts(k);
    assert ReapStep(k, pid, k');
    StepInv(k, Lifecycle.Reap(pid), k');
  }

  lemma EmptyQueue()
    ensures Consistent(EMPTY_QUEUE)
  {
    forall i | 0 <= i < LEVELS ensures !Marked(0, i) {
      ZeroUnmarked(i);
    }
  }

  // ----- The pieces of `spawn_program` -----

  lemma ProgramImage(d: seq<byte>)
    requires Program(d)
    ensures Sane(d)
  {
  }

  /** The live root is a table, and never one of the frames still to be handed out. */
  lemma CurrentTable(k: Lifecycle.Kernel)
    requires KernelInv(k)
    ensures IsTable(k.mem, k.sched.cr3) && !Available(k.pm, k.sched.cr3)
  {
    RootNotLive(k);
    var c := k.sched.current;
    if c != 0 && c in k.progs {
      assert SpaceOk(k.mem, k.root, k.sched.tasks[c], k.progs[c]);
      TablesOwned(k, c, k.sched.cr3);
    }
  }

  lemma FailedStep(k: Lifecycle.Kernel, taken: seq<nat>, k': Lifecycle.Kernel)
    requires KernelInv(k) && BelowUserLimit(k.pm) && Leaked(k.pm, k'.pm, k.mem, k'.mem, taken)
    requires k' == k.(pm := k'.pm, mem := k'.mem, live := k.live + Elems(taken), leaked := k.leaked + Elems(taken))
    ensures |k.sched.queue.levels| == LEVELS && Step(k, SpawnFailed(taken), k')
    ensures KernelInv(k') && BelowUserLimit(k'.pm)
  {
    hide KernelInv, Take, AllocFrame, FrameAllocator.Valid, Available;
    Parts(k);
    TakeSpec(k.pm, k.live, |taken|);
    AllocFrameSpec(Take(k.pm, |taken|).value.0, k'.live);
    assert SpawnFailedStep(k, taken, k');
    StepInv(k, SpawnFailed(taken), k');
  }

  /** What holds once the image is loaded. */
  ghost predicate ImageIn(k: Lifecycle.Kernel, d: seq<byte>, pages: seq<Page>, taken: seq<nat>, k1: Lifecycle.Kernel) {
    && Readable(d) && GoodHeaders(d, HeaderCount(d)) && Loaded(d, pages, k1.mem)
    && Backed(k.pm, k1.pm, k.mem, k1.mem, pages, taken)
  }

  lemma AfterLoad(k: Lifecycle.Kernel, d: seq<byte>, pages: seq<Page>, taken: seq<nat>, k1: Lifecycle.Kernel)
    requires KernelInv(k) && ImageIn(k, d, pages, taken, k1)
    ensures FrameAllocator.Valid(k1.pm, k.live + Elems(taken))
  {
    hide Take;
    TakeSpec(k.pm, k.live, |taken|);
  }

  lemma FailedAtStack(k: Lifecycle.Kernel, pages: seq<Page>, taken: seq<nat>, k1: Lifecycle.Kernel,
                      k': Lifecycle.Kernel)
    requires KernelInv(k) && BelowUserLimit(k.pm) && Backed(k.pm, k1.pm, k.mem, k1.mem, pages, taken)
    requires (k'.pm, None) == AllocFrame(k1.pm) && k'.mem == k1.mem
    requires k' == k.(pm := k'.pm, mem := k'.mem, live := k.live + Elems(taken), leaked := k.leaked + Elems(taken))
    ensures |k.sched.queue.levels| == LEVELS && Step(k, SpawnFailed(taken), k')
    ensures KernelInv(k') && BelowUserLimit(k'.pm)
    ensures NoFrame(k'.pm)
  {
    hide KernelInv, Take, AllocFrame, AllocContiguous, FrameAllocator.Valid, NoRoom;
    Parts(k);
    TakeSpec(k.pm, k.live, |taken|);
    ExhaustedStays(k1.pm, k.live + Elems(taken));
    FrameIsNext(k'.pm);
    assert Leaked(k.pm, k'.pm, k.mem, k'.mem, taken);
    FailedStep(k, taken, k');
  }

  lemma ManagedLow(s: State, live: set<nat>, f: nat)
    requires FrameAllocator.Valid(s, live) && BelowUserLimit(s) && f in live
    ensures f < USER_PAGES
  {
    var j :| 0 <= j < |s.regions| && InRegion(s.regions[j], f);
  }

  /** The pages of a loaded program can be mapped: lower half, and frames within reach. */
  lemma PagesMappable(k: Lifecycle.Kernel, d: seq<byte>, pages: seq<Page>, taken: seq<nat>, k1: Lifecycle.Kernel)
    requires KernelInv(k) && BelowUserLimit(k.pm)
    requires Program(d) && HeaderError(d).None? && ImageIn(k, d, pages, taken, k1)
    ensures forall p :: p in pages ==> p.vpage < USER_PAGES && p.frame < USER_PAGES
  {
    hide Take, HeaderError, FrameAllocator.Valid, Available, Spaces, Scrubbed, Owned;
    Parts(k);
    TakeSpec(k.pm, k.live, |taken|);
    var segs := Segments(d, HeaderCount(d));
    forall p | p in pages ensures p.vpage < USER_PAGES && p.frame < USER_PAGES {
      var i :| 0 <= i < |pages| && pages[i] == p;
      assert RightsFrom(FirstTouch(segs, pages[i].vpage), pages[i]);
      assert p.frame == taken[i] && taken[i] in taken;
      ManagedLow(k1.pm, k.live + Elems(taken), p.frame);
    }
  }

  lemma AfterStack(k: Lifecycle.Kernel, d: seq<byte>, pages: seq<Page>, taken: seq<nat>, k1: Lifecycle.Kernel,
                   stack: nat, p2: State, m2: Mem)
    requires KernelInv(k) && BelowUserLimit(k.pm)
    requires Program(d) && HeaderError(d).None? && ImageIn(k, d, pages, taken, k1)
    requires (p2, Some(stack)) == AllocFrame(k1.pm) && m2 == k1.mem[stack := ZeroData()]
    ensures FrameAllocator.Valid(p2, k.live + Elems(taken) + {stack})
    ensures IsTable(m2, k.sched.cr3) && m2[k.sched.cr3] == k.mem[k.sched.cr3] && !Available(p2, k.sched.cr3)
    ensures forall p :: p in pages ==> p.vpage < USER_PAGES && p.frame < FRAME_LIMIT
    ensures stack < USER_PAGES
  {
    hide KernelInv, Take, AllocFrame, FrameAllocator.Valid, Available, Loaded, Program, HeaderError;
    Parts(k);
    CurrentTable(k);
    PagesMappable(k, d, pages, taken, k1);
    TakeSpec(k.pm, k.live, |taken|);
    AllocFrameSpec(k1.pm, k.live + Elems(taken));
    ManagedLow(p2, k.live + Elems(taken) + {stack}, stack);
    assert k.sched.cr3 !in taken;
    assert SameAt(k.mem, k1.mem, k.sched.cr3);
  }

  /** A loaded image stays loaded while its frames are left alone. */
  lemma LoadedKept(d: seq<byte>, pages: seq<Page>, m: Mem, m': Mem)
    requires Readable(d) && GoodHeaders(d, HeaderCount(d)) && Loaded(d, pages, m)
    requires forall i :: 0 <= i < |pages| ==> SameAt(m, m', pages[i].frame)
    ensures Loaded(d, pages, m')
  {
    var segs := Segments(d, HeaderCount(d));
    forall i | 0 <= i < |pages| ensures PageHolds(segs, pages[i], m') {
      assert PageHolds(segs, pages[i], m) && SameAt(m, m', pages[i].frame);
    }
  }

  /** The grant, read off the four allocations. */
  lemma GrantIs(k: Lifecycle.Kernel, pages: seq<Page>, taken: seq<nat>, k1: Lifecycle.Kernel, stack: nat, p2: State,
                p3: State, g: Grant, p4: State)
    requires Take(k.pm, |taken|) == Some((k1.pm, taken)) && |pages| == |taken| && Frames(pages) == taken
    requires (p2, Some(stack)) == AllocFrame(k1.pm) && Take(p2, |g.tables|) == Some((p3, g.tables))
    requires AllocContiguous(p3, Scheduling.STACK_FRAMES) == (p4, Some(g.base))
    requires g.pageFrames == taken && g.stack == stack
    ensures AllocProgram(k.pm, |pages|, |g.tables|) == Some((p4, g))
  {
    hide Take, AllocFrame, AllocContiguous;
  }

  /** Building the table touches only the frames of the grant, and none of the image's. */
  lemma GrantTouched(k: Lifecycle.Kernel, d: seq<byte>, pages: seq<Page>, taken: seq<nat>, k1: Lifecycle.Kernel,
                     g: Grant, m2: Mem, m': Mem)
    requires ImageIn(k, d, pages, taken, k1) && g.pageFrames == taken && NoDup(GrantFrames(g))
    requires m2 == k1.mem[g.stack := ZeroData()]
    requires forall x: nat :: x !in g.tables ==> SameAt(m2, m', x)
    ensures OnlyIn(k.mem, m', GrantFrames(g)) && Loaded(d, pages, m')
  {
    hide Take, Loaded;
    forall x: nat | x !in GrantFrames(g) ensures SameAt(k.mem, m', x) {
      assert x !in g.tables && x !in taken && x != g.stack;
      assert SameAt(k.mem, k1.mem, x) && SameAt(m2, m', x);
    }
    forall i | 0 <= i < |pages| ensures SameAt(k1.mem, m', pages[i].frame) {
      GrantApart(g, i);
      assert SameAt(m2, m', pages[i].frame);
    }
    LoadedKept(d, pages, k1.mem, m');
  }

  lemma Spawned(k: Lifecycle.Kernel, d: seq<byte>, pages: seq<Page>, taken: seq<nat>, k1: Lifecycle.Kernel,
                stack: nat, p2: State, m2: Mem, p3: State, g: Grant, labels: Labels, k': Lifecycle.Kernel)
    requires KernelInv(k) && BelowUserLimit(k.pm) && ImageIn(k, d, pages, taken, k1)
    requires (p2, Some(stack)) == AllocFrame(k1.pm) && m2 == k1.mem[stack := ZeroData()]
    requires IsTable(m2, k.sched.cr3) && IsTable(k.mem, k.sched.cr3) && m2[k.sched.cr3] == k.mem[k.sched.cr3]
    requires g.tables != [] && |k.sched.queue.levels| == LEVELS
    requires UserTable(Start(p2, k.live + Elems(taken) + {stack}, m2, {}, USER_HALF), p3, k'.mem, labels,
                       g.tables[0], g.tables)
    requires Translates(k'.mem, g.tables[0], pages + [StackPage(stack)])
    requires UpperHalfShared(k'.mem, g.tables[0], m2[k.sched.cr3].entries)
    requires AllocContiguous(p3, Scheduling.STACK_FRAMES) == (k'.pm, Some(g.base))
    requires g.pageFrames == Frames(pages) && g.stack == stack
    requires k' == Lifecycle.Kernel(
               Scheduling.SpawnIsolated(k.sched, g.base, g.tables[0], g.tables + g.pageFrames, g.stack), k'.pm, k'.mem,
               k.live + Elems(GrantFrames(g)), k.leaked, k.progs[k.sched.nextPid := Prog(g.tables, labels, pages)],
               k.root)
    ensures Step(k, Event.SpawnProgram(g, pages, labels), k')
    ensures KernelInv(k') && BelowUserLimit(k'.pm) && Loaded(d, pages, k'.mem)
  {
    hide KernelInv, Take, AllocFrame, AllocContiguous, FrameAllocator.Valid, Available, AllocProgram, Translates,
         UpperHalfShared, Tree, Permissive, Loaded;
    Parts(k);
    assert Frames(pages) == taken;
    GrantIs(k, pages, taken, k1, stack, p2, p3, g, k'.pm);
    AllocProgramSpec(k.pm, k.live, |pages|, |g.tables|);
    assert labels.Keys == Elems(g.tables);
    GrantTouched(k, d, pages, taken, k1, g, m2, k'.mem);
    assert SpawnProgramStep(k, g, pages, labels, k');
    StepInv(k, Event.SpawnProgram(g, pages, labels), k');
  }

  lemma GrantApart(g: Grant, i: nat)
    requires NoDup(GrantFrames(g)) && i < |g.pageFrames|
    ensures g.pageFrames[i] !in g.tables && g.pageFrames[i] != g.stack
  {
    var rest := g.pageFrames + [g.stack] + Block(g.base, Scheduling.STACK_FRAMES);
    assert GrantFrames(g) == g.tables + rest;
    NoDupSplit(g.tables, rest);
    assert rest[i] == g.pageFrames[i];
    assert GrantFrames(g)[|g.tables| + i] == g.pageFrames[i] && GrantFrames(g)[|g.tables| + |g.pageFrames|] == g.stack;
  }
}
