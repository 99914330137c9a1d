/**
 The life of a process across the allocator, the loader, the page tables and the scheduler
 (kernel/src/scheduler/mod.rs with pmm.rs, paging.rs and elf.rs): who owns which frame, from
 `spawn_program` to `reap`, in every run.
 */
module Lifecycle {
  import opened Prelude
  import opened PhysicalMemory
  import opened FrameAllocator
  import opened Paging
  import opened RunQueues
  import opened Scheduling

  /** What is known of a user task's address space: its table frames, their labels, and the image pages. */
  datatype Prog = Prog(tables: seq<nat>, labels: Labels, pages: seq<Page>)

  /** `live` is every frame handed out; `leaked` are those a failed load left behind. */
  datatype Kernel = Kernel(
    sched: Sched, pm: State, mem: Mem, live: set<nat>, leaked: set<nat>, progs: map<Pid, Prog>, root: nat)

  function Frames(pages: seq<Page>): (fs: seq<nat>)
    ensures |fs| == |pages| && forall i :: 0 <= i < |fs| ==> fs[i] == pages[i].frame
  {
    seq(|pages|, i requires 0 <= i < |pages| => pages[i].frame)
  }

  /** The frames `reap` returns, in the order it returns them. */
  function Owns(t: Task): seq<nat> {
    (if t.isolated.Some? then t.isolated.value + [t.userStack] else []) + Block(t.stackBase, STACK_FRAMES)
  }

  // ----- The invariant -----

  ghost predicate Owner(k: Kernel, pid: Pid, f: nat) {
    pid in k.sched.tasks && f in Owns(k.sched.tasks[pid])
  }

  /** Every live frame has exactly one owner: one task, or the leak. */
  ghost predicate Owned(k: Kernel) {
    && Valid(k.pm, k.live)
    && k.leaked <= k.live
    && (forall pid: Pid :: pid in k.sched.tasks ==> NoDup(Owns(k.sched.tasks[pid])))
    && (forall pid: Pid, f: nat :: Owner(k, pid, f) ==> f in k.live && f !in k.leaked)
    && (forall pid: Pid, other: Pid, f: nat :: Owner(k, pid, f) && Owner(k, other, f) ==> pid == other)
    && (forall f: nat :: f in k.live && f !in k.leaked ==> exists pid: Pid :: Owner(k, pid, f))
  }

  /** The address space of a user task, as `spawn_program` built it. */
  ghost predicate SpaceOk(mem: Mem, kernelRoot: nat, t: Task, g: Prog) {
    && g.tables != [] && t.cr3 == g.tables[0]
    && t.isolated == Some(g.tables + Frames(g.pages))
    && g.labels.Keys == Elems(g.tables) && g.labels[t.cr3] == []
    && Tree(mem, g.labels, USER_HALF) && Permissive(mem, g.labels, USER_HALF)
    && Translates(mem, t.cr3, g.pages + [StackPage(t.userStack)])
    && IsTable(mem, kernelRoot) && UpperHalfShared(mem, t.cr3, mem[kernelRoot].entries)
  }

  ghost predicate Spaces(k: Kernel) {
    && IsTable(k.mem, k.root) && !Managed(k.pm, k.root)
    && (forall pid: Pid :: pid in k.progs <==> pid in k.sched.tasks && k.sched.tasks[pid].isolated.Some?)
    && (forall pid: Pid :: pid in k.progs ==> SpaceOk(k.mem, k.root, k.sched.tasks[pid], k.progs[pid]))
    && (forall pid: Pid ::
          pid in k.sched.tasks && k.sched.tasks[pid].isolated.None? ==> k.sched.tasks[pid].cr3 == k.root)
    && (k.sched.current == 0 ==> k.sched.cr3 == k.root)
  }

  /** No frame waits for reuse with its previous owner's bytes in it. */
  ghost predicate Scrubbed(k: Kernel) {
    forall f: nat :: f in k.pm.freeList ==> f in k.mem && k.mem[f] == ZeroData()
  }

  ghost predicate KernelInv(k: Kernel) {
    Inv(k.sched) && Owned(k) && Spaces(k) && Scrubbed(k)
  }

  // ----- Allocation for one program -----

  datatype Grant = Grant(pageFrames: seq<nat>, stack: nat, tables: seq<nat>, base: nat)

  /** The frames of a program, in the order `spawn_program` takes them. */
  function AllocProgram(pm: State, pages: nat, tables: nat): Option<(State, Grant)> {
    match Take(pm, pages)
    case None => None
    case Some((p1, pageFrames)) =>
      match AllocFrame(p1)
      case (_, None) => None
      case (p2, Some(stack)) =>
        match Take(p2, tables)
        case None => None
        case Some((p3, tableFrames)) =>
          match AllocContiguous(p3, STACK_FRAMES)
          case (_, None) => None
          case (p4, Some(base)) => Some((p4, Grant(pageFrames, stack, tableFrames, base)))
  }

  function GrantFrames(g: Grant): seq<nat> {
    g.tables + g.pageFrames + [g.stack] + Block(g.base, STACK_FRAMES)
  }

  ghost predicate Apart(a: seq<nat>, b: seq<nat>) { forall x :: x in a ==> x !in b }

  lemma NoDupConcat(a: seq<nat>, b: seq<nat>)
    requires NoDup(a) && NoDup(b) && Apart(a, b)
    ensures NoDup(a + b)
  {
    forall i, j | 0 <= i < j < |a + b| ensures (a + b)[i] != (a + b)[j] {
      if i < |a| <= j {
        assert a[i] in a && b[j - |a|] in b;
      }
    }
  }

  lemma BlockNoDup(base: nat, n: nat)
    ensures NoDup(Block(base, n))
  {
  }

  /** All frames of a grant are distinct, new, and accounted for. */
  lemma AllocProgramSpec(pm: State, live: set<nat>, pages: nat, tables: nat)
    requires Valid(pm, live) && AllocProgram(pm, pages, tables).Some?
    ensures var (pm', g) := AllocProgram(pm, pages, tables).value;
            && |g.pageFrames| == pages && |g.tables| == tables
            && NoDup(GrantFrames(g))
            && (forall f :: f in GrantFrames(g) ==> f !in live)
            && Valid(pm', live + Elems(GrantFrames(g)))
            && pm'.free == pm.free - |GrantFrames(g)|
            && pm'.regions == pm.regions && pm'.freeList <= pm.freeList
  {
    hide Valid, Take, AllocFrame, AllocContiguous, Available;
    TakeSpec(pm, live, pages);
    var (p1, fs) := Take(pm, pages).value;
    var l1 := live + Elems(fs);
    AllocFrameSpec(p1, l1);
    var (p2, stack) := (AllocFrame(p1).0, AllocFrame(p1).1.value);
    var l2 := l1 + {stack};
    TakeSpec(p2, l2, tables);
    var (p3, ts) := Take(p2, tables).value;
    var l3 := l2 + Elems(ts);
    AllocContiguousSpec(p3, l3, STACK_FRAMES);
    var base := AllocContiguous(p3, STACK_FRAMES).1.value;
    var g := Grant(fs, stack, ts, base);
    NoDupConcat(ts, fs);
    NoDupConcat(ts + fs, [stack]);
    BlockNoDup(base, STACK_FRAMES);
    NoDupConcat(ts + fs + [stack], Block(base, STACK_FRAMES));
    assert l3 + Elems(Block(base, STACK_FRAMES)) == live + Elems(GrantFrames(g));
  }

  // ----- Steps -----

  datatype Event =
    | SpawnProgram(g: Grant, pages: seq<Page>, labels: Labels)
    | SpawnFailed(taken: seq<nat>)
    | SpawnThread(base: nat)
    | Yield
    | Tick(skipped: bool)
    | Exit
    | Reap(pid: Pid)
    | Compute(f: nat, content: Frame)

  /** Memory differs at most in the frames of `fs`. */
  ghost predicate OnlyIn(m: Mem, m': Mem, fs: seq<nat>) {
    forall g: nat :: g !in fs ==> SameAt(m, m', g)
  }

  function Scrub(m: Mem, fs: seq<nat>): Mem
    decreases |fs|
  {
    if fs == [] then m else Scrub(m[fs[0] := ZeroData()], fs[1..])
  }

  ghost predicate SpawnProgramStep(k: Kernel, g: Grant, pages: seq<Page>, labels: Labels, k': Kernel)
    requires |k.sched.queue.levels| == LEVELS
  {
    && AllocProgram(k.pm, |pages|, |g.tables|) == Some((k'.pm, g))
    && Frames(pages) == g.pageFrames
    && OnlyIn(k.mem, k'.mem, GrantFrames(g))
    && g.tables != []
    && k'.sched == SpawnIsolated(k.sched, g.base, g.tables[0], g.tables + g.pageFrames, g.stack)
    && labels.Keys == Elems(g.tables) && labels[g.tables[0]] == []
    && Tree(k'.mem, labels, USER_HALF) && Permissive(k'.mem, labels, USER_HALF)
    && Translates(k'.mem, g.tables[0], pages + [StackPage(g.stack)])
    && IsTable(k.mem, k.sched.cr3) && UpperHalfShared(k'.mem, g.tables[0], k.mem[k.sched.cr3].entries)
    && k'.live == k.live + Elems(GrantFrames(g)) && k'.leaked == k.leaked
    && k'.progs == k.progs[k.sched.nextPid := Prog(g.tables, labels, pages)] && k'.root == k.root
  }

  /** A load that fails keeps the frames it took; the last allocation may have walked past the end. */
  ghost predicate SpawnFailedStep(k: Kernel, taken: seq<nat>, k': Kernel) {
    && Take(k.pm, |taken|).Some? && Take(k.pm, |taken|).value.1 == taken
    && (k'.pm == Take(k.pm, |taken|).value.0 || (k'.pm, None) == AllocFrame(Take(k.pm, |taken|).value.0))
    && OnlyIn(k.mem, k'.mem, taken)
    && k' == k.(pm := k'.pm, mem := k'.mem, live := k.live + Elems(taken), leaked := k.leaked + Elems(taken))
  }

  /** `spawn`: the new task runs on whatever page table is active. */
  ghost predicate ThreadSpawned(k: Kernel, base: nat, k': Kernel)
    requires |k.sched.queue.levels| == LEVELS
  {
    && AllocContiguous(k.pm, STACK_FRAMES) == (k'.pm, Some(base))
    && OnlyIn(k.mem, k'.mem, Block(base, STACK_FRAMES))
    && k' == k.(pm := k'.pm, mem := k'.mem, live := k.live + Elems(Block(base, STACK_FRAMES)),
                sched := Scheduling.Spawn(k.sched, base))
  }

  /** `spawn`, called with the kernel's own page table active. */
  ghost predicate SpawnThreadStep(k: Kernel, base: nat, k': Kernel)
    requires |k.sched.queue.levels| == LEVELS
  {
    ThreadSpawned(k, base, k') && k.sched.cr3 == k.root
  }

  /** Frees every frame of the zombie; a double free would be a panic, and no step. */
  ghost predicate ReapStep(k: Kernel, pid: Pid, k': Kernel) {
    && Scheduling.Reap(k.sched, pid).Some?
    && var fs := Owns(k.sched.tasks[pid]);
       && FreeAll(k.pm, fs) == Some(k'.pm)
       && k' == k.(sched := Scheduling.Reap(k.sched, pid).value, pm := k'.pm, mem := Scrub(k.mem, fs),
                   live := k.live - Elems(fs), progs := k.progs - {pid})
  }

  /** The running task stores into a frame it can write: a writable user leaf or its kernel stack. */
  ghost predicate ComputeStep(k: Kernel, f: nat, content: Frame, k': Kernel) {
    && k.sched.current in k.sched.tasks
    && (|| f in Block(k.sched.tasks[k.sched.current].stackBase, STACK_FRAMES)
        || (k.sched.current in k.progs && CanWrite(k.mem, k.sched.cr3, f)))
    && k' == k.(mem := k.mem[f := content])
  }

  ghost predicate CanWrite(mem: Mem, root: nat, f: nat) {
    exists vpage: nat :: vpage < USER_PAGES && Writes(Translate(mem, root, vpage), f)
  }

  predicate Writes(h: Option<Hit>, f: nat) { h.Some? && h.value.frame == f && h.value.writable && h.value.user }

  ghost predicate Step(k: Kernel, e: Event, k': Kernel)
    requires |k.sched.queue.levels| == LEVELS
  {
    match e
    case SpawnProgram(g, pages, labels) => SpawnProgramStep(k, g, pages, labels, k')
    case SpawnFailed(taken) => SpawnFailedStep(k, taken, k')
    case SpawnThread(base) => SpawnThreadStep(k, base, k')
    case Yield => k' == k.(sched := Scheduling.Yield(k.sched))
    case Tick(skipped) => k' == if skipped then k else k.(sched := Scheduling.Yield(k.sched))
    case Exit => Scheduling.Exit(k.sched).Some? && k' == k.(sched := Scheduling.Exit(k.sched).value)
    case Reap(pid) => ReapStep(k, pid, k')
    case Compute(f, content) => ComputeStep(k, f, content, k')
  }

  // ----- Ownership is kept -----

  lemma OwnedSame(k: Kernel, k': Kernel)
    requires Owned(k) && k'.live == k.live && k'.leaked == k.leaked && k'.pm == k.pm
    requires k'.sched.tasks.Keys == k.sched.tasks.Keys
    requires forall p :: p in k.sched.tasks ==> Owns(k'.sched.tasks[p]) == Owns(k.sched.tasks[p])
    ensures Owned(k')
  {
    hide Valid, Owns;
    forall pid: Pid, f: nat ensures Owner(k', pid, f) <==> Owner(k, pid, f) {
    }
  }

  lemma OwnedGrow(k: Kernel, k': Kernel, pid: Pid)
    requires Owned(k) && pid !in k.sched.tasks && k'.leaked == k.leaked
    requires k'.sched.tasks.Keys == k.sched.tasks.Keys + {pid}
    requires forall p :: p in k.sched.tasks ==> Owns(k'.sched.tasks[p]) == Owns(k.sched.tasks[p])
    requires var fs := Owns(k'.sched.tasks[pid]);
             NoDup(fs) && (forall f :: f in fs ==> f !in k.live) && k'.live == k.live + Elems(fs)
    requires Valid(k'.pm, k'.live)
    ensures Owned(k')
  {
    hide Valid, Owns;
    forall p: Pid, f: nat ensures Owner(k', p, f) <==> Owner(k, p, f) || (p == pid && f in Owns(k'.sched.tasks[pid])) {
    }
    forall f: nat | f in k'.live && f !in k'.leaked ensures exists p: Pid :: Owner(k', p, f) {
      if f in k.live {
        var p: Pid :| Owner(k, p, f);
        assert Owner(k', p, f);
      } else {
        assert Owner(k', pid, f);
      }
    }
  }

  lemma OwnedShrink(k: Kernel, k': Kernel, pid: Pid)
    requires Owned(k) && pid in k.sched.tasks && k'.leaked == k.leaked
    requires k'.sched.tasks == k.sched.tasks - {pid}
    requires k'.live == k.live - Elems(Owns(k.sched.tasks[pid])) && Valid(k'.pm, k'.live)
    ensures Owned(k')
  {
    hide Valid, Owns;
    forall p: Pid, f: nat ensures Owner(k', p, f) <==> Owner(k, p, f) && p != pid {
    }
    forall f: nat | f in k'.live && f !in k'.leaked ensures exists p: Pid :: Owner(k', p, f) {
      var p: Pid :| Owner(k, p, f);
      assert Owner(k', p, f);
    }
    forall p: Pid, f: nat | Owner(k', p, f) ensures f in k'.live {
      assert Owner(k, p, f) && (Owner(k, pid, f) <==> f in Owns(k.sched.tasks[pid]));
    }
    forall f | f in k'.leaked ensures f in k'.live {
      assert Owner(k, pid, f) <==> f in Owns(k.sched.tasks[pid]);
    }
  }

  lemma OwnedLeak(k: Kernel, k': Kernel, fs: seq<nat>)
    requires Owned(k) && k'.sched == k.sched && forall f :: f in fs ==> f !in k.live
    requires k'.live == k.live + Elems(fs) && k'.leaked == k.leaked + Elems(fs) && Valid(k'.pm, k'.live)
    ensures Owned(k')
  {
    hide Valid, Owns;
    forall p: Pid, f: nat ensures Owner(k', p, f) <==> Owner(k, p, f) {
    }
    forall f: nat | f in k'.live && f !in k'.leaked ensures exists p: Pid :: Owner(k', p, f) {
      var p: Pid :| Owner(k, p, f);
      assert Owner(k', p, f);
    }
  }

  // ----- Address spaces are kept -----

  /** An address space survives whatever leaves its own tables and the kernel root alone. */
  lemma SpaceKept(mem: Mem, mem': Mem, kernelRoot: nat, t: Task, t': Task, g: Prog)
    requires SpaceOk(mem, kernelRoot, t, g)
    requires forall f :: f in g.tables || f == kernelRoot ==> SameAt(mem, mem', f)
    requires t' == t.(state := t'.state)
    ensures SpaceOk(mem', kernelRoot, t', g)
  {
    forall f | f in g.labels ensures f in mem && f in mem' && mem[f] == mem'[f] {
      assert Node(mem, g.labels, USER_HALF, f);
      assert f in Elems(g.tables);
      assert SameAt(mem, mem', f);
    }
    forall f | f in g.labels ensures Node(mem', g.labels, USER_HALF, f) {
      assert Node(mem, g.labels, USER_HALF, f);
    }
    forall vpage: nat | vpage < USER_PAGES
      ensures Translate(mem', t.cr3, vpage) == Lookup(g.pages + [StackPage(t.userStack)], vpage)
    {
      WalkFrame(mem, mem', g.labels, USER_HALF, t.cr3, Indices(vpage));
      assert Translate(mem, t.cr3, vpage) == Lookup(g.pages + [StackPage(t.userStack)], vpage);
    }
    assert t.cr3 in g.tables;
    assert SameAt(mem, mem', kernelRoot);
  }

  lemma TablesOwned(k: Kernel, pid: Pid, f: nat)
    requires Owned(k) && Spaces(k) && pid in k.progs && f in k.progs[pid].tables
    ensures Owner(k, pid, f) && f in k.live
  {
    var t := k.sched.tasks[pid];
    assert SpaceOk(k.mem, k.root, t, k.progs[pid]);
    assert f in t.isolated.value;
    assert Owner(k, pid, f);
  }

  lemma RootNotLive(k: Kernel)
    requires Owned(k) && Spaces(k)
    ensures k.root !in k.live && !Available(k.pm, k.root)
  {
    if Available(k.pm, k.root) {
      if Bumpable(k.pm, k.root) {
        ManagedIfBumpable(k.pm, k.live, k.root);
      }
    }
  }

  /** Tasks keep their identity: only states may differ. */
  ghost predicate SameTasks(s: Sched, s': Sched) {
    s'.tasks.Keys == s.tasks.Keys && forall p :: p in s.tasks ==> s'.tasks[p] == s.tasks[p].(state := s'.tasks[p].state)
  }

  /** Steps of the scheduler alone. */
  lemma SwitchKeeps(k: Kernel, s': Sched)
    requires KernelInv(k) && Inv(s') && SameTasks(k.sched, s')
    requires s'.current == 0 ==> k.sched.current == 0 && s'.cr3 == k.sched.cr3
    ensures KernelInv(k.(sched := s'))
  {
    hide Inv, Owns, Valid, SpaceOk;
    var k' := k.(sched := s');
    forall p | p in k.sched.tasks ensures Owns(s'.tasks[p]) == Owns(k.sched.tasks[p]) {
      OwnsIgnoresState(k.sched.tasks[p], s'.tasks[p].state);
    }
    OwnedSame(k, k');
    forall pid: Pid | pid in k.progs ensures SpaceOk(k.mem, k.root, s'.tasks[pid], k.progs[pid]) {
      SpaceRefl(k.mem, k.root, k.sched.tasks[pid], s'.tasks[pid], k.progs[pid]);
    }
  }

  lemma OwnsIgnoresState(t: Task, st: TaskState)
    ensures Owns(t.(state := st)) == Owns(t)
  {
  }

  lemma SpaceRefl(mem: Mem, kernelRoot: nat, t: Task, t': Task, g: Prog)
    requires SpaceOk(mem, kernelRoot, t, g) && t' == t.(state := t'.state)
    ensures SpaceOk(mem, kernelRoot, t', g)
  {
  }

  /** A frame that is neither the kernel root nor a table of any task may change freely. */
  ghost predicate NotTable(k: Kernel, f: nat) {
    f != k.root && forall pid: Pid :: pid in k.progs ==> f !in k.progs[pid].tables
  }

  lemma SpacesKept(k: Kernel, mem': Mem)
    requires Spaces(k)
    requires forall f: nat :: !NotTable(k, f) ==> SameAt(k.mem, mem', f)
    ensures Spaces(k.(mem := mem'))
  {
    hide SpaceOk;
    assert !NotTable(k, k.root);
    assert SameAt(k.mem, mem', k.root);
    forall pid: Pid | pid in k.progs ensures SpaceOk(mem', k.root, k.sched.tasks[pid], k.progs[pid]) {
      assert forall f :: f in k.progs[pid].tables ==> !NotTable(k, f);
      SpaceKept(k.mem, mem', k.root, k.sched.tasks[pid], k.sched.tasks[pid], k.progs[pid]);
    }
  }

  lemma TablesLive(k: Kernel, f: nat)
    requires Owned(k) && Spaces(k) && f !in k.live && f != k.root
    ensures NotTable(k, f)
  {
    hide Owned, Spaces, Owner;
    forall pid: Pid | pid in k.progs ensures f !in k.progs[pid].tables {
      if f in k.progs[pid].tables {
        TablesOwned(k, pid, f);
      }
    }
  }

  /** New frames are outside every address space. */
  lemma SpacesKeptOutside(k: Kernel, mem': Mem, fs: seq<nat>)
    requires Owned(k) && Spaces(k) && OnlyIn(k.mem, mem', fs)
    requires forall f :: f in fs ==> f !in k.live && f != k.root
    ensures Spaces(k.(mem := mem'))
  {
    hide Owned, Spaces, NotTable;
    forall f: nat | !NotTable(k, f) ensures SameAt(k.mem, mem', f) {
      if f in fs {
        TablesLive(k, f);
      }
    }
    SpacesKept(k, mem');
  }

  lemma NewFramesCount(live: set<nat>, fs: seq<nat>)
    requires NoDup(fs) && forall f :: f in fs ==> f !in live
    ensures |live + Elems(fs)| == |live| + |fs|
  {
    NoDupCount(fs);
    assert live !! Elems(fs);
  }

  /** Frames taken from the allocator: none of them waits on the free list any more. */
  lemma ScrubbedKept(k: Kernel, k': Kernel, fs: seq<nat>)
    requires Scrubbed(k) && OnlyIn(k.mem, k'.mem, fs) && k'.pm.freeList <= k.pm.freeList
    requires Valid(k'.pm, k'.live) && Elems(fs) <= k'.live
    ensures Scrubbed(k')
  {
    forall f: nat | f in k'.pm.freeList ensures f in k'.mem && k'.mem[f] == ZeroData() {
      assert f !in k'.live && f in k.pm.freeList;
      assert f !in Elems(fs);
      assert SameAt(k.mem, k'.mem, f);
    }
  }

  /** One more task, whose frames are new; its address space is accounted for separately. */
  lemma TaskAdded(k: Kernel, k': Kernel, t: Task)
    requires Owned(k) && Inv(k.sched) && k'.leaked == k.leaked
    requires k'.sched.tasks == k.sched.tasks[k.sched.nextPid := t]
    requires NoDup(Owns(t)) && forall f :: f in Owns(t) ==> f !in k.live
    requires k'.live == k.live + Elems(Owns(t)) && Valid(k'.pm, k'.live)
    ensures Owned(k')
    ensures |k'.live| == |k.live| + |Owns(t)|
  {
    hide Owned, Valid, Owns;
    assert k.sched.nextPid !in k.sched.tasks;
    OwnedGrow(k, k', k.sched.nextPid);
    NewFramesCount(k.live, Owns(t));
  }

  lemma ThreadSpaces(k: Kernel, k': Kernel, t: Task)
    requires Spaces(k.(mem := k'.mem)) && k'.progs == k.progs && k'.root == k.root
    requires k.sched.nextPid !in k.sched.tasks && k'.pm.regions == k.pm.regions
    requires k'.sched.tasks == k.sched.tasks[k.sched.nextPid := t] && t.isolated.None? && t.cr3 == k.root
    requires k'.sched.current == k.sched.current && k'.sched.cr3 == k.sched.cr3
    ensures Spaces(k')
  {
    hide SpaceOk;
  }

  lemma ProgramSpaces(k: Kernel, k': Kernel, t: Task, g: Prog)
    requires Spaces(k.(mem := k'.mem)) && k'.root == k.root
    requires k.sched.nextPid !in k.sched.tasks && k'.pm.regions == k.pm.regions
    requires k'.progs == k.progs[k.sched.nextPid := g]
    requires k'.sched.tasks == k.sched.tasks[k.sched.nextPid := t] && t.isolated.Some? && SpaceOk(k'.mem, k.root, t, g)
    requires k'.sched.current == k.sched.current && k'.sched.cr3 == k.sched.cr3
    ensures Spaces(k')
  {
    hide SpaceOk;
  }

  lemma SpawnThreadInv(k: Kernel, base: nat, k': Kernel)
    requires KernelInv(k) && SpawnThreadStep(k, base, k')
    ensures KernelInv(k')
    ensures k'.pm.free + |k'.live| == k.pm.free + |k.live|
  {
    hide Valid, Available, Spaces, Scrubbed, AllocContiguous, OnlyIn, Owned, Inv;
    var block := Block(base, STACK_FRAMES);
    var t := Task(Runnable, DEFAULT_PRIO, k.sched.cr3, base, None, 0);
    Parts(k);
    AllocContiguousSpec(k.pm, k.live, STACK_FRAMES);
    RootNotLive(k);
    BlockNoDup(base, STACK_FRAMES);
    SpawnInv(k.sched, base);
    assert Owns(t) == block;
    SpacesKeptOutside(k, k'.mem, block);
    TaskAdded(k, k', t);
    ThreadSpaces(k, k', t);
    ScrubbedKept(k, k', block);
  }

  /** Spawning a thread keeps the invariant exactly when the caller runs on the kernel's own page table. */
  lemma SpawnThreadIff(k: Kernel, base: nat, k': Kernel)
    requires KernelInv(k) && ThreadSpawned(k, base, k')
    ensures KernelInv(k') <==> k.sched.cr3 == k.root
  {
    hide Valid, Owned, Inv, Scrubbed, AllocContiguous, OnlyIn, SpaceOk;
    Parts(k);
    if k.sched.cr3 == k.root {
      SpawnThreadInv(k, base, k');
    }
    var pid := k.sched.nextPid;
    assert k'.sched.tasks[pid].isolated.None? && k'.sched.tasks[pid].cr3 == k.sched.cr3;
  }

  lemma Parts(k: Kernel)
    requires KernelInv(k)
    ensures Valid(k.pm, k.live) && k.sched.nextPid !in k.sched.tasks && |k.sched.queue.levels| == LEVELS
  {
  }

  lemma SpawnProgramInv(k: Kernel, g: Grant, pages: seq<Page>, labels: Labels, k': Kernel)
    requires KernelInv(k) && SpawnProgramStep(k, g, pages, labels, k')
    ensures KernelInv(k')
    ensures k'.pm.free + |k'.live| == k.pm.free + |k.live|
  {
    hide Valid, Available, Spaces, Scrubbed, AllocProgram, OnlyIn, Owned, Inv, Tree, Permissive, Translates,
         UpperHalfShared;
    var fs := GrantFrames(g);
    var t := Task(Runnable, DEFAULT_PRIO, g.tables[0], g.base, Some(g.tables + g.pageFrames), g.stack);
    Parts(k);
    AllocProgramSpec(k.pm, k.live, |pages|, |g.tables|);
    RootNotLive(k);
    SpawnIsolatedInv(k.sched, g.base, g.tables[0], g.tables + g.pageFrames, g.stack);
    assert Owns(t) == fs;
    assert k'.sched.tasks == k.sched.tasks[k.sched.nextPid := t];
    NewNotRoot(k, k', fs);
    SpacesKeptOutside(k, k'.mem, fs);
    TaskAdded(k, k', t);
    CurrentSharesKernel(k, k', g.tables[0], fs);
    ProgramSpaces(k, k', t, Prog(g.tables, labels, pages));
    ScrubbedKept(k, k', fs);
  }

  lemma NewNotRoot(k: Kernel, k': Kernel, fs: seq<nat>)
    requires Spaces(k) && Valid(k'.pm, k'.live) && Elems(fs) <= k'.live && k'.pm.regions == k.pm.regions
    ensures forall f :: f in fs ==> f != k.root
  {
    forall f | f in fs ensures f != k.root {
      assert f in Elems(fs);
      assert Managed(k'.pm, f) && !Managed(k.pm, k.root);
    }
  }

  /** Whatever table is live, its upper half is the kernel's. */
  lemma CurrentSharesKernel(k: Kernel, k': Kernel, root: nat, fs: seq<nat>)
    requires Spaces(k) && Inv(k.sched) && Spaces(k.(mem := k'.mem))
    requires IsTable(k.mem, k.sched.cr3) && UpperHalfShared(k'.mem, root, k.mem[k.sched.cr3].entries)
    requires OnlyIn(k.mem, k'.mem, fs) && forall f :: f in fs ==> f != k.root
    ensures IsTable(k'.mem, k.root) && UpperHalfShared(k'.mem, root, k'.mem[k.root].entries)
  {
    assert SameAt(k.mem, k'.mem, k.root);
    var c := k.sched.current;
    if c != 0 && c in k.progs {
      assert SpaceOk(k.mem, k.root, k.sched.tasks[c], k.progs[c]);
    }
  }

  lemma SpawnFailedInv(k: Kernel, taken: seq<nat>, k': Kernel)
    requires KernelInv(k) && SpawnFailedStep(k, taken, k')
    ensures KernelInv(k')
    ensures k'.pm.free + |k'.live| == k.pm.free + |k.live|
  {
    hide Valid, Available, Spaces, Scrubbed, AllocFrame, Take, OnlyIn, Owned, Inv;
    Parts(k);
    TakeSpec(k.pm, k.live, |taken|);
    AllocFrameSpec(Take(k.pm, |taken|).value.0, k'.live);
    NewNotRoot(k, k', taken);
    NewFramesCount(k.live, taken);
    SpacesKeptOutside(k, k'.mem, taken);
    OwnedLeak(k, k', taken);
    ScrubbedKept(k, k', taken);
    SpacesIgnorePool(k.(mem := k'.mem), k');
  }

  lemma SpacesIgnorePool(k: Kernel, k': Kernel)
    requires Spaces(k) && k'.pm.regions == k.pm.regions
    requires k'.sched == k.sched && k'.mem == k.mem && k'.progs == k.progs && k'.root == k.root
    ensures Spaces(k')
  {
    hide SpaceOk;
  }

  lemma {:induction false} ScrubSpec(m: Mem, fs: seq<nat>)
    ensures OnlyIn(m, Scrub(m, fs), fs)
    ensures forall f :: f in fs ==> f in Scrub(m, fs) && Scrub(m, fs)[f] == ZeroData()
    decreases |fs|
  {
    if fs != [] {
      var m1 := m[fs[0] := ZeroData()];
      ScrubSpec(m1, fs[1..]);
      forall g: nat | g !in fs ensures SameAt(m, Scrub(m, fs), g) {
        assert g !in fs[1..] && g != fs[0];
        assert SameAt(m1, Scrub(m, fs), g);
      }
      forall f | f in fs ensures f in Scrub(m, fs) && Scrub(m, fs)[f] == ZeroData() {
        if f !in fs[1..] {
          assert f == fs[0] && SameAt(m1, Scrub(m, fs), f);
        }
      }
    }
  }

  /** What a zombie owns can be freed frame by frame: the double-free panic cannot fire. */
  lemma ReapFrees(k: Kernel, pid: Pid)
    requires Owned(k) && pid in k.sched.tasks
    ensures var fs := Owns(k.sched.tasks[pid]);
            && NoDup(fs) && Elems(fs) <= k.live
            && FreeAll(k.pm, fs).Some?
            && var pm := FreeAll(k.pm, fs).value;
               && Valid(pm, k.live - Elems(fs)) && pm.regions == k.pm.regions
               && pm.free == k.pm.free + |fs| && pm.freeList == k.pm.freeList + fs
  {
    hide Valid, Available, Owns;
    var fs := Owns(k.sched.tasks[pid]);
    forall f | f in fs ensures f in k.live {
      assert Owner(k, pid, f);
    }
    FreeAllSpec(k.pm, k.live, fs);
  }

  lemma TaskRemovedSpaces(k: Kernel, k': Kernel, pid: Pid)
    requires Spaces(k) && k'.pm.regions == k.pm.regions && k'.mem == k.mem && k'.root == k.root
    requires k'.sched == k.sched.(tasks := k.sched.tasks - {pid}) && k'.progs == k.progs - {pid}
    ensures Spaces(k')
  {
    hide SpaceOk;
  }

  lemma ReapStepInv(k: Kernel, pid: Pid, k': Kernel)
    requires KernelInv(k) && ReapStep(k, pid, k')
    ensures KernelInv(k')
    ensures k'.pm.free + |k'.live| == k.pm.free + |k.live|
  {
    hide Valid, Available, Spaces, Scrubbed, FreeAll, OnlyIn, Owned, Inv, Owns, Scrub;
    var fs := Owns(k.sched.tasks[pid]);
    var k1 := k'.(mem := k.mem);
    ReapFrees(k, pid);
    ReapInv(k.sched, pid);
    ScrubSpec(k.mem, fs);
    RootNotLive(k);
    OwnedShrink(k, k1, pid);
    TaskRemovedSpaces(k, k1, pid);
    SpacesKeptOutside(k1, k'.mem, fs);
    NoDupCount(fs);
    assert k.live == k'.live + Elems(fs);
    ScrubbedReap(k, k', fs);
    OwnedSame(k1, k');
  }

  lemma ScrubbedReap(k: Kernel, k': Kernel, fs: seq<nat>)
    requires Scrubbed(k) && k'.pm.freeList == k.pm.freeList + fs && OnlyIn(k.mem, k'.mem, fs)
    requires forall f :: f in fs ==> f in k'.mem && k'.mem[f] == ZeroData()
    ensures Scrubbed(k')
  {
    forall f: nat | f in k'.pm.freeList ensures f in k'.mem && k'.mem[f] == ZeroData() {
      if f !in fs {
        assert f in k.pm.freeList && SameAt(k.mem, k'.mem, f);
      }
    }
  }

  // ----- What a running task can reach -----

  lemma {:induction false} LookupIsRequested(pages: seq<Page>, vpage: nat)
    requires Lookup(pages, vpage).Some?
    ensures exists p :: p in pages && p.vpage == vpage && Lookup(pages, vpage) == Some(Request(p))
  {
    if Last(pages).vpage == vpage {
      assert Last(pages) in pages;
    } else {
      LookupIsRequested(DropLast(pages), vpage);
    }
  }

  /** Every user leaf of a task leads to an image page or its user stack, never to a table or a kernel stack. */
  lemma LeavesAreOwn(k: Kernel, pid: Pid, vpage: nat)
    requires Owned(k) && Spaces(k) && pid in k.progs && vpage < USER_PAGES
    requires Translate(k.mem, k.sched.tasks[pid].cr3, vpage).Some?
    ensures var f := Translate(k.mem, k.sched.tasks[pid].cr3, vpage).value.frame;
            && Owner(k, pid, f)
            && f !in k.progs[pid].tables
            && f !in Block(k.sched.tasks[pid].stackBase, STACK_FRAMES)
  {
    hide Valid, SpaceOk, Owns;
    var t, g := k.sched.tasks[pid], k.progs[pid];
    LeafFrame(k.mem, k.root, t, g, vpage);
    OwnsSplit(t, g, Translate(k.mem, t.cr3, vpage).value.frame);
  }

  lemma LeafFrame(mem: Mem, kernelRoot: nat, t: Task, g: Prog, vpage: nat)
    requires SpaceOk(mem, kernelRoot, t, g) && vpage < USER_PAGES
    requires Translate(mem, t.cr3, vpage).Some?
    ensures var f := Translate(mem, t.cr3, vpage).value.frame; f in Frames(g.pages) || f == t.userStack
    ensures t.isolated == Some(g.tables + Frames(g.pages))
  {
    var all := g.pages + [StackPage(t.userStack)];
    LookupIsRequested(all, vpage);
    var p :| p in all && p.vpage == vpage && Lookup(all, vpage) == Some(Request(p));
    if p in g.pages {
      var i :| 0 <= i < |g.pages| && g.pages[i] == p;
      assert Frames(g.pages)[i] == p.frame;
    }
  }

  lemma OwnsSplit(t: Task, g: Prog, f: nat)
    requires t.isolated == Some(g.tables + Frames(g.pages)) && NoDup(Owns(t))
    requires f in Frames(g.pages) || f == t.userStack
    ensures f in Owns(t) && f !in g.tables && f !in Block(t.stackBase, STACK_FRAMES)
  {
    var a, b, c := g.tables, Frames(g.pages) + [t.userStack], Block(t.stackBase, STACK_FRAMES);
    assert Owns(t) == a + b + c;
    assert a + (b + c) == a + b + c;
    NoDupSplit(a, b + c);
    NoDupSplit(a + b, c);
    assert f in b;
  }

  lemma NoDupSplit(a: seq<nat>, b: seq<nat>)
    requires NoDup(a + b)
    ensures Apart(a, b)
  {
    forall i, j | 0 <= i < |a| && 0 <= j < |b| ensures a[i] != b[j] {
      assert (a + b)[i] == a[i] && (a + b)[|a| + j] == b[j];
    }
  }

  /** No frame is mapped for user code by two tasks, and no task maps another's tables or kernel stack. */
  lemma LeavesArePrivate(k: Kernel, pid: Pid, other: Pid, vpage: nat)
    requires KernelInv(k) && pid in k.progs && other in k.sched.tasks && other != pid && vpage < USER_PAGES
    requires Translate(k.mem, k.sched.tasks[pid].cr3, vpage).Some?
    ensures Translate(k.mem, k.sched.tasks[pid].cr3, vpage).value.frame !in Owns(k.sched.tasks[other])
  {
    LeavesAreOwn(k, pid, vpage);
    var f := Translate(k.mem, k.sched.tasks[pid].cr3, vpage).value.frame;
    if f in Owns(k.sched.tasks[other]) {
      assert Owner(k, other, f);
    }
  }

  /** If no image page is both writable and executable, no user leaf is. */
  lemma LeavesKeepWX(k: Kernel, pid: Pid, vpage: nat)
    requires Spaces(k) && pid in k.progs && vpage < USER_PAGES
    requires forall p :: p in k.progs[pid].pages ==> !(p.writable && p.executable)
    ensures match Translate(k.mem, k.sched.tasks[pid].cr3, vpage)
            case None => true
            case Some(h) => !(h.writable && h.executable)
  {
    var t, g := k.sched.tasks[pid], k.progs[pid];
    assert SpaceOk(k.mem, k.root, t, g);
    var all := g.pages + [StackPage(t.userStack)];
    if Lookup(all, vpage).Some? {
      LookupIsRequested(all, vpage);
    }
  }

  /** Stores of the running task never reach a page table or a free frame. */
  lemma ComputeStepInv(k: Kernel, f: nat, content: Frame, k': Kernel)
    requires KernelInv(k) && ComputeStep(k, f, content, k')
    ensures KernelInv(k')
  {
    hide Valid, Available, Spaces, Scrubbed, Owned, Inv, Owns;
    var c := k.sched.current;
    StoreTarget(k, f, content, k');
    StoreOutsideTables(k, c, f);
    forall x: nat | !NotTable(k, x) ensures SameAt(k.mem, k'.mem, x) {
    }
    SpacesKept(k, k'.mem);
    OwnedSame(k, k');
    ScrubbedStore(k, k', f);
  }

  lemma ScrubbedStore(k: Kernel, k': Kernel, f: nat)
    requires Scrubbed(k) && Valid(k.pm, k.live) && f in k.live && k'.pm == k.pm
    requires forall x: nat :: x != f ==> SameAt(k.mem, k'.mem, x)
    ensures Scrubbed(k')
  {
    forall x: nat | x in k'.pm.freeList ensures x in k'.mem && k'.mem[x] == ZeroData() {
      assert x != f && SameAt(k.mem, k'.mem, x);
    }
  }

  lemma StoreTarget(k: Kernel, f: nat, content: Frame, k': Kernel)
    requires KernelInv(k) && ComputeStep(k, f, content, k')
    ensures Valid(k.pm, k.live) && f in k.live
    ensures Owner(k, k.sched.current, f)
    ensures k.sched.current in k.progs ==> f !in k.progs[k.sched.current].tables
  {
    hide Valid, Scrubbed;
    var c := k.sched.current;
    var t := k.sched.tasks[c];
    if f in Block(t.stackBase, STACK_FRAMES) {
      assert f in Owns(t);
      assert Owner(k, c, f);
      if c in k.progs {
        assert SpaceOk(k.mem, k.root, t, k.progs[c]);
        KernelStackSplit(t, k.progs[c], f);
      }
    } else {
      var vpage: nat :| vpage < USER_PAGES && Writes(Translate(k.mem, k.sched.cr3, vpage), f);
      LeavesAreOwn(k, c, vpage);
    }
  }

  lemma KernelStackSplit(t: Task, g: Prog, f: nat)
    requires t.isolated == Some(g.tables + Frames(g.pages)) && NoDup(Owns(t))
    requires f in Block(t.stackBase, STACK_FRAMES)
    ensures f !in g.tables
  {
    var b := Frames(g.pages) + [t.userStack] + Block(t.stackBase, STACK_FRAMES);
    assert Owns(t) == g.tables + b;
    NoDupSplit(g.tables, b);
  }

  lemma StoreOutsideTables(k: Kernel, c: Pid, f: nat)
    requires Owned(k) && Spaces(k) && Owner(k, c, f) && f in k.live
    requires c in k.progs ==> f !in k.progs[c].tables
    ensures NotTable(k, f)
  {
    RootNotLive(k);
    forall pid: Pid | pid in k.progs ensures f !in k.progs[pid].tables {
      if f in k.progs[pid].tables {
        TablesOwned(k, pid, f);
      }
    }
  }

  // ----- Runs -----

  lemma YieldKeeps(k: Kernel)
    requires KernelInv(k)
    ensures KernelInv(k.(sched := Scheduling.Yield(k.sched)))
  {
    hide Inv, Owned, Spaces, Scrubbed;
    Parts(k);
    YieldInv(k.sched);
    SwitchNonZero(k.sched);
    SwitchKeeps(k, Scheduling.Yield(k.sched));
  }

  lemma SwitchNonZero(s: Sched)
    requires Inv(s)
    ensures Scheduling.Yield(s).current == 0 ==> Scheduling.Yield(s) == s
    ensures Scheduling.Exit(s).Some? ==> Scheduling.Exit(s).value.current != 0
  {
    YieldInv(s);
    ExitInv(s);
    assert forall p: Pid :: p in Ready(s) ==> p != 0;
  }

  lemma ExitKeeps(k: Kernel)
    requires KernelInv(k) && Scheduling.Exit(k.sched).Some?
    ensures KernelInv(k.(sched := Scheduling.Exit(k.sched).value))
  {
    hide Inv, Owned, Spaces, Scrubbed;
    Parts(k);
    ExitInv(k.sched);
    SwitchNonZero(k.sched);
    SwitchKeeps(k, Scheduling.Exit(k.sched).value);
  }

  /** Every step keeps the invariant, and frames are conserved: a frame is live or counted as free. */
  lemma StepInv(k: Kernel, e: Event, k': Kernel)
    requires KernelInv(k) && Step(k, e, k')
    ensures KernelInv(k')
    ensures k'.pm.free + |k'.live| == k.pm.free + |k.live|
  {
    hide KernelInv, SpawnProgramStep, SpawnFailedStep, SpawnThreadStep, ReapStep;
    match e
    case SpawnProgram(g, pages, labels) => SpawnProgramInv(k, g, pages, labels, k');
    case SpawnFailed(taken) => SpawnFailedInv(k, taken, k');
    case SpawnThread(base) => SpawnThreadInv(k, base, k');
    case Yield => YieldKeeps(k);
    case Tick(skipped) => YieldKeeps(k);
    case Exit => ExitKeeps(k);
    case Reap(pid) => ReapStepInv(k, pid, k');
    case Compute(f, content) => ComputeStepInv(k, f, content, k');
  }

  /** Pids are never reused; of an old task only the state changes, and of its address space nothing. */
  ghost predicate Continues(k: Kernel, k': Kernel) {
    && k.sched.nextPid <= k'.sched.nextPid && k.leaked <= k'.leaked
    && (forall p :: p in k'.sched.tasks && p < k.sched.nextPid ==>
          p in k.sched.tasks && k'.sched.tasks[p] == k.sched.tasks[p].(state := k'.sched.tasks[p].state))
    && forall p: Pid :: p in k'.progs && p < k.sched.nextPid ==> p in k.progs && k'.progs[p] == k.progs[p]
  }

  lemma StepContinues(k: Kernel, e: Event, k': Kernel)
    requires KernelInv(k) && Step(k, e, k')
    ensures Continues(k, k')
  {
    hide Owned, Spaces, Scrubbed, Tree, Permissive, Translates, UpperHalfShared, Inv, AllocProgram, AllocContiguous,
         Take, AllocFrame, FreeAll, OnlyIn, Scheduling.Yield, Scheduling.Exit, Push, CanWrite;
    Parts(k);
    match e
    case Yield => YieldInv(k.sched);
    case Tick(skipped) => YieldInv(k.sched);
    case Exit => ExitInv(k.sched);
    case _ =>
  }

  ghost predicate IsRun(ks: seq<Kernel>, es: seq<Event>) {
    && |ks| == |es| + 1
    && forall i :: 0 <= i < |es| ==> |ks[i].sched.queue.levels| == LEVELS && Step(ks[i], es[i], ks[i + 1])
  }

  /** In every run from a good state, every state is good, and free plus live frames never changes. */
  lemma {:induction false} RunSafe(ks: seq<Kernel>, es: seq<Event>, i: nat)
    requires IsRun(ks, es) && KernelInv(ks[0]) && i <= |es|
    ensures KernelInv(ks[i])
    ensures ks[i].pm.free + |ks[i].live| == ks[0].pm.free + |ks[0].live|
    ensures Continues(ks[0], ks[i])
  {
    hide KernelInv, Step;
    if i > 0 {
      RunSafe(ks, es, i - 1);
      LevelsOf(ks[i - 1]);
      assert Step(ks[i - 1], es[i - 1], ks[i - 1 + 1]);
      StepInv(ks[i - 1], es[i - 1], ks[i]);
      StepContinues(ks[i - 1], es[i - 1], ks[i]);
      ContinuesCompose(ks[0], ks[i - 1], ks[i]);
    }
  }

  lemma LevelsOf(k: Kernel)
    requires KernelInv(k)
    ensures |k.sched.queue.levels| == LEVELS
  {
  }

  lemma ContinuesCompose(a: Kernel, b: Kernel, c: Kernel)
    requires Continues(a, b) && Continues(b, c)
    ensures Continues(a, c)
  {
  }

  /** `RunSafe` between any two states of a run. */
  lemma {:induction false} RunBetween(ks: seq<Kernel>, es: seq<Event>, i: nat, j: nat)
    requires IsRun(ks, es) && KernelInv(ks[0]) && i <= j <= |es|
    ensures KernelInv(ks[i]) && KernelInv(ks[j]) && Continues(ks[i], ks[j])
    decreases j
  {
    hide KernelInv, Step;
    RunSafe(ks, es, i);
    if i < j {
      RunBetween(ks, es, i, j - 1);
      LevelsOf(ks[j - 1]);
      assert Step(ks[j - 1], es[j - 1], ks[j - 1 + 1]);
      StepInv(ks[j - 1], es[j - 1], ks[j]);
      StepContinues(ks[j - 1], es[j - 1], ks[j]);
      ContinuesCompose(ks[i], ks[j - 1], ks[j]);
    }
  }

  /** A task that is still there was there before, with the same address space and frames. */
  lemma StillThere(k: Kernel, k': Kernel, pid: Pid)
    requires KernelInv(k) && KernelInv(k') && Continues(k, k') && pid < k.sched.nextPid && pid in k'.sched.tasks
    ensures pid in k.sched.tasks && k'.sched.tasks[pid] == k.sched.tasks[pid].(state := k'.sched.tasks[pid].state)
    ensures Owns(k'.sched.tasks[pid]) == Owns(k.sched.tasks[pid])
    ensures pid in k.progs <==> pid in k'.progs
    ensures pid in k'.progs ==> k'.progs[pid] == k.progs[pid]
  {
    hide SpaceOk, Owned, Scrubbed;
  }

  lemma SpaceIs(k: Kernel, pid: Pid)
    requires Spaces(k) && pid in k.progs
    ensures pid in k.sched.tasks && SpaceOk(k.mem, k.root, k.sched.tasks[pid], k.progs[pid])
  {
  }

  /**
   In every run, as long as a user task exists its address space is the one it was given: every lower-half
   page translates to the frame and rights requested at the spawn, the stack's page to the stack.
   */
  lemma TranslationsKept(ks: seq<Kernel>, es: seq<Event>, i: nat, j: nat, pid: Pid, vpage: nat)
    requires IsRun(ks, es) && KernelInv(ks[0]) && i <= j <= |es| && vpage < USER_PAGES
    requires pid in ks[i].progs && pid in ks[j].sched.tasks
    ensures pid in ks[i].sched.tasks && pid in ks[j].progs && ks[j].progs[pid] == ks[i].progs[pid]
    ensures ks[j].sched.tasks[pid] == ks[i].sched.tasks[pid].(state := ks[j].sched.tasks[pid].state)
    ensures Translate(ks[j].mem, ks[j].sched.tasks[pid].cr3, vpage)
         == Lookup(ks[i].progs[pid].pages + [StackPage(ks[i].sched.tasks[pid].userStack)], vpage)
  {
    hide KernelInv, SpaceOk, Continues, Step, Translate, Lookup;
    RunBetween(ks, es, i, j);
    InvParts(ks[i]);
    InvParts(ks[j]);
    SpaceIs(ks[i], pid);
    StillThere(ks[i], ks[j], pid);
    SpaceIs(ks[j], pid);
    SpaceTranslates(ks[j], pid, vpage);
  }

  lemma InvParts(k: Kernel)
    requires KernelInv(k)
    ensures Owned(k) && Spaces(k) && forall p: Pid :: p in k.sched.tasks ==> p < k.sched.nextPid
  {
    hide Owned, Spaces, Scrubbed;
  }

  lemma SpaceTranslates(k: Kernel, pid: Pid, vpage: nat)
    requires Spaces(k) && pid in k.progs && pid in k.sched.tasks && vpage < USER_PAGES
    ensures Translate(k.mem, k.sched.tasks[pid].cr3, vpage)
         == Lookup(k.progs[pid].pages + [StackPage(k.sched.tasks[pid].userStack)], vpage)
  {
    assert SpaceOk(k.mem, k.root, k.sched.tasks[pid], k.progs[pid]);
  }

  // ----- Isolation over runs -----

  /** No step but a store touches a task's frames, short of its reap. */
  lemma QuietStep(k: Kernel, e: Event, k': Kernel, pid: Pid, f: nat)
    requires KernelInv(k) && Step(k, e, k') && Owner(k, pid, f)
    requires !e.Compute? && e != Reap(pid)
    ensures SameAt(k.mem, k'.mem, f)
  {
    hide Valid, Spaces, Scrubbed, AllocProgram, AllocContiguous, Take, AllocFrame, FreeAll, Scrub, Owns, Inv,
         Scheduling.Yield, Scheduling.Exit;
    Parts(k);
    match e
    case SpawnProgram(g, pages, labels) => AllocProgramSpec(k.pm, k.live, |pages|, |g.tables|);
    case SpawnFailed(taken) => TakeSpec(k.pm, k.live, |taken|);
    case SpawnThread(base) => AllocContiguousSpec(k.pm, k.live, STACK_FRAMES);
    case Reap(other) =>
      ReapFrees(k, other);
      ScrubSpec(k.mem, Owns(k.sched.tasks[other]));
      assert f in Owns(k.sched.tasks[other]) ==> Owner(k, other, f);
    case _ =>
  }

  /** A frame a task owns changes only while that task runs, or when it is reaped. */
  lemma StepIsolates(k: Kernel, e: Event, k': Kernel, pid: Pid, f: nat)
    requires KernelInv(k) && Step(k, e, k') && Owner(k, pid, f)
    requires k.sched.current != pid && e != Reap(pid)
    ensures SameAt(k.mem, k'.mem, f)
  {
    hide Valid, Spaces, Scrubbed, Owns, Inv;
    if e.Compute? {
      StoreTarget(k, e.f, e.content, k');
    } else {
      QuietStep(k, e, k', pid, f);
    }
  }

  /** While a task exists and does not run, none of its frames changes. */
  lemma {:induction false} FramesKeptWhileOthersRun(ks: seq<Kernel>, es: seq<Event>, i: nat, j: nat, pid: Pid, f: nat)
    requires IsRun(ks, es) && KernelInv(ks[0]) && i <= j <= |es| && Owner(ks[i], pid, f) && pid in ks[j].sched.tasks
    requires forall l :: i <= l < j ==> ks[l].sched.current != pid
    ensures SameAt(ks[i].mem, ks[j].mem, f)
    decreases j
  {
    hide KernelInv, Step, Continues, Owns;
    if i < j {
      OneStepBack(ks, es, i, j, pid);
      FramesKeptWhileOthersRun(ks, es, i, j - 1, pid, f);
      StepIsolates(ks[j - 1], es[j - 1], ks[j], pid, f);
    }
  }

  /** The last step of a run after which a task still exists did not reap it, and the task was there before. */
  lemma OneStepBack(ks: seq<Kernel>, es: seq<Event>, i: nat, j: nat, pid: Pid)
    requires IsRun(ks, es) && KernelInv(ks[0]) && i < j <= |es| && pid in ks[i].sched.tasks && pid in ks[j].sched.tasks
    ensures KernelInv(ks[j - 1]) && |ks[j - 1].sched.queue.levels| == LEVELS && Step(ks[j - 1], es[j - 1], ks[j])
    ensures pid in ks[j - 1].sched.tasks && es[j - 1] != Reap(pid)
    ensures Owns(ks[j - 1].sched.tasks[pid]) == Owns(ks[i].sched.tasks[pid])
    ensures pid in ks[i].progs ==> pid in ks[j - 1].progs && ks[j - 1].progs[pid] == ks[i].progs[pid]
  {
    hide KernelInv, SpaceOk, Owns, Continues, SpawnProgramStep, SpawnFailedStep, SpawnThreadStep, ComputeStep;
    RunBetween(ks, es, i, j - 1);
    RunBetween(ks, es, j - 1, j);
    InvParts(ks[i]);
    LevelsOf(ks[j - 1]);
    assert Step(ks[j - 1], es[j - 1], ks[j - 1 + 1]);
    OldPid(ks[i], ks[j - 1], pid);
    StillThere(ks[j - 1], ks[j], pid);
    StillThere(ks[i], ks[j - 1], pid);
  }

  lemma OldPid(k: Kernel, k': Kernel, pid: Pid)
    requires KernelInv(k) && Continues(k, k') && pid in k.sched.tasks
    ensures pid < k'.sched.nextPid
  {
    hide Owned, Spaces, Scrubbed;
  }

  /** A page mapped without the right to write is not the target of any store. */
  lemma ReadOnlyStep(k: Kernel, e: Event, k': Kernel, pid: Pid, p: Page)
    requires KernelInv(k) && Step(k, e, k') && pid in k.progs && p in k.progs[pid].pages && !p.writable
    requires e != Reap(pid)
    ensures SameAt(k.mem, k'.mem, p.frame)
  {
    hide Valid, Scrubbed, Inv, SpaceOk, Owns, Step, CanWrite, Spaces;
    InvParts(k);
    LevelsOf(k);
    SpaceIs(k, pid);
    PageOwned(k, pid, p);
    RunsOnOwnTable(k, pid);
    if k.sched.current != pid {
      StepIsolates(k, e, k', pid, p.frame);
    } else if e.Compute? {
      ComputeIs(k, e, k');
      StoreMissesReadOnly(k, pid, p, e.f, e.content, k');
    } else {
      QuietStep(k, e, k', pid, p.frame);
    }
  }

  lemma PageOwned(k: Kernel, pid: Pid, p: Page)
    requires Owned(k) && Spaces(k) && pid in k.progs && p in k.progs[pid].pages
    ensures Owner(k, pid, p.frame) && p.frame !in Block(k.sched.tasks[pid].stackBase, STACK_FRAMES)
  {
    hide Valid, Owns;
    var t, g := k.sched.tasks[pid], k.progs[pid];
    assert SpaceOk(k.mem, k.root, t, g);
    var i :| 0 <= i < |g.pages| && g.pages[i] == p;
    assert Frames(g.pages)[i] == p.frame;
    OwnsSplit(t, g, p.frame);
  }

  lemma StoreMissesReadOnly(k: Kernel, pid: Pid, p: Page, f: nat, content: Frame, k': Kernel)
    requires Owned(k) && Spaces(k) && pid in k.progs && p in k.progs[pid].pages && !p.writable
    requires k.sched.current == pid && ComputeStep(k, f, content, k') && k.sched.cr3 == k.sched.tasks[pid].cr3
    ensures f != p.frame
  {
    hide Valid, Owns, SpaceOk, Translate, Spaces;
    SpaceIs(k, pid);
    PageOwned(k, pid, p);
    var t, g := k.sched.tasks[pid], k.progs[pid];
    if f !in Block(t.stackBase, STACK_FRAMES) {
      var vpage: nat :| vpage < USER_PAGES && Writes(Translate(k.mem, k.sched.cr3, vpage), f);
      SpaceTranslates(k, pid, vpage);
      var all := g.pages + [StackPage(t.userStack)];
      LookupIsRequested(all, vpage);
      var q :| q in all && q.vpage == vpage && Lookup(all, vpage) == Some(Request(q));
      FramesDistinct(k, pid, p, q);
    }
  }

  lemma RunsOnOwnTable(k: Kernel, pid: Pid)
    requires KernelInv(k) && pid in k.sched.tasks
    ensures k.sched.current == pid ==> k.sched.cr3 == k.sched.tasks[pid].cr3
  {
    hide Owned, Spaces, Scrubbed;
  }

  lemma ComputeIs(k: Kernel, e: Event, k': Kernel)
    requires |k.sched.queue.levels| == LEVELS && Step(k, e, k') && e.Compute?
    ensures ComputeStep(k, e.f, e.content, k') && k'.mem == k.mem[e.f := e.content]
  {
  }

  lemma FramesDistinct(k: Kernel, pid: Pid, p: Page, q: Page)
    requires Owned(k) && Spaces(k) && pid in k.progs && pid in k.sched.tasks && p in k.progs[pid].pages
    requires q in k.progs[pid].pages + [StackPage(k.sched.tasks[pid].userStack)]
    ensures q.frame == p.frame ==> q == p
  {
    hide Valid;
    var t, g := k.sched.tasks[pid], k.progs[pid];
    assert SpaceOk(k.mem, k.root, t, g);
    var fs := Frames(g.pages) + [t.userStack];
    assert Owns(t) == g.tables + fs + Block(t.stackBase, STACK_FRAMES);
    var i :| 0 <= i < |g.pages| && g.pages[i] == p;
    var j :| 0 <= j < |fs| && (g.pages + [StackPage(t.userStack)])[j] == q;
    assert fs[i] == p.frame && fs[j] == q.frame;
    assert Owns(t)[|g.tables| + i] == fs[i] && Owns(t)[|g.tables| + j] == fs[j];
  }

  /** A page of the image without the right to write holds the same bytes until its task is reaped. */
  lemma {:induction false} ReadOnlyKept(ks: seq<Kernel>, es: seq<Event>, i: nat, j: nat, pid: Pid, p: Page)
    requires IsRun(ks, es) && KernelInv(ks[0]) && i <= j <= |es|
    requires pid in ks[i].progs && p in ks[i].progs[pid].pages && !p.writable
    requires pid in ks[i].sched.tasks && pid in ks[j].sched.tasks
    ensures SameAt(ks[i].mem, ks[j].mem, p.frame)
    decreases j
  {
    hide KernelInv, Step, Owns;
    if i < j {
      OneStepBack(ks, es, i, j, pid);
      ReadOnlyKept(ks, es, i, j - 1, pid, p);
      ReadOnlyStep(ks[j - 1], es[j - 1], ks[j], pid, p);
    }
  }

  /**
   Whatever happened in between, if every task spawned since has been reaped and no load failed, exactly
   the same frames are live and the free counter has its old value.
   */
  lemma Conservation(ks: seq<Kernel>, es: seq<Event>)
    requires IsRun(ks, es) && KernelInv(ks[0])
    requires var k, k' := ks[0], ks[|es|];
             k'.sched.tasks.Keys == k.sched.tasks.Keys && k'.leaked == k.leaked
    ensures ks[|es|].live == ks[0].live && ks[|es|].pm.free == ks[0].pm.free
  {
    hide Step, Valid, Spaces, Scrubbed, Owns;
    var k, k' := ks[0], ks[|es|];
    RunSafe(ks, es, |es|);
    SameOwners(k, k');
    forall f: nat ensures f in k.live <==> f in k'.live {
      assert f in k.live && f !in k.leaked ==> exists pid: Pid :: Owner(k, pid, f);
      assert f in k'.live && f !in k'.leaked ==> exists pid: Pid :: Owner(k', pid, f);
    }
    assert k.live == k'.live;
  }

  lemma SameOwners(k: Kernel, k': Kernel)
    requires Inv(k.sched) && Continues(k, k') && k'.sched.tasks.Keys == k.sched.tasks.Keys
    ensures forall pid: Pid, f: nat :: Owner(k, pid, f) <==> Owner(k', pid, f)
  {
    forall pid: Pid, f: nat ensures Owner(k, pid, f) <==> Owner(k', pid, f) {
      assert pid in k.sched.tasks <==> pid in k'.sched.tasks;
    }
  }
}
