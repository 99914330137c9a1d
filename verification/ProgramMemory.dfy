/**
 What a program sees of its own memory: loader, page tables and task table put together
 (`spawn_program`, kernel/src/scheduler/mod.rs, over elf.rs and paging.rs).
 */
module ProgramMemory {
  import opened Prelude
  import opened PhysicalMemory
  import opened Paging
  import opened Elf
  import opened RunQueues
  import opened Lifecycle

  /** A user-mode read of one byte through the tables under `root`; None is a page fault. */
  function UserByte(mem: Mem, root: nat, a: nat): Option<byte> {
    match Translate(mem, root, a / FRAME_BYTES)
    case None => None
    case Some(h) => if h.user && IsData(mem, h.frame) then Some(mem[h.frame].bytes[a % FRAME_BYTES]) else None
  }

  /** What the page-by-page loader promises: the last file byte for the address, zero on the rest of a touched page. */
  function ImageByte(segs: seq<Segment>, a: nat): Option<byte> {
    if FirstTouch(segs, a / FRAME_BYTES).Some? then Some(FreshByte(segs, a)) else None
  }

  lemma TouchedInside(s: Segment, a: nat)
    requires InSegment(s, a)
    ensures Touches(s, a / FRAME_BYTES)
  {
  }

  lemma {:induction false} SomeTouch(segs: seq<Segment>, i: nat, vpage: nat)
    requires i < |segs| && Touches(segs[i], vpage)
    ensures FirstTouch(segs, vpage).Some?
  {
    if i < |segs| - 1 {
      SomeTouch(DropLast(segs), i, vpage);
    }
  }

  /** In a segment's memory that is the flat loader's byte, exactly unless a later zero-filled part covers it. */
  lemma ImageByteIsFlat(segs: seq<Segment>, a: nat)
    requires exists i :: 0 <= i < |segs| && InSegment(segs[i], a)
    ensures ImageByte(segs, a) == FlatByte(segs, a) <==> !ZeroedLate(segs, a)
  {
    hide FlatByte, FreshByte, FirstTouch, ZeroedLate;
    var i: nat :| i < |segs| && InSegment(segs[i], a);
    assert Occupies(segs[i], a);
    LoadersAgree(segs, a);
    TouchedInside(segs[i], a);
    SomeTouch(segs, i, a / FRAME_BYTES);
  }

  lemma {:induction false} LookupMiss(pages: seq<Page>, vpage: nat)
    ensures Lookup(pages, vpage).None? <==> !HasPage(pages, vpage)
  {
    if pages != [] {
      LookupMiss(DropLast(pages), vpage);
      if k :| 0 <= k < |DropLast(pages)| && DropLast(pages)[k].vpage == vpage {
        assert pages[k].vpage == vpage;
      }
      if Last(pages).vpage == vpage {
        assert pages[|pages| - 1].vpage == vpage;
      } else if k :| 0 <= k < |pages| && pages[k].vpage == vpage {
        assert DropLast(pages)[k].vpage == vpage;
      }
    }
  }

  /** Each page of the layout is found with its own frame and the rights of the first segment on it. */
  lemma LayoutLookup(segs: seq<Segment>, pages: seq<Page>, vpage: nat)
    requires Layout(segs, pages)
    ensures FirstTouch(segs, vpage).None? ==> Lookup(pages, vpage) == None
    ensures FirstTouch(segs, vpage).Some? ==>
              exists p :: p in pages && p.vpage == vpage && Lookup(pages, vpage) == Some(Request(p))
                          && RightsFrom(FirstTouch(segs, vpage), p)
  {
    hide FirstTouch, Lookup;
    LookupMiss(pages, vpage);
    if Lookup(pages, vpage).Some? {
      LookupIsRequested(pages, vpage);
      var p :| p in pages && p.vpage == vpage && Lookup(pages, vpage) == Some(Request(p));
      var k :| 0 <= k < |pages| && pages[k] == p;
      assert RightsFrom(FirstTouch(segs, pages[k].vpage), pages[k]);
    }
  }

  lemma StackWins(pages: seq<Page>, stack: nat, vpage: nat)
    ensures Lookup(pages + [StackPage(stack)], vpage)
         == if vpage == stack then Some(Request(StackPage(stack))) else Lookup(pages, vpage)
  {
    assert DropLast(pages + [StackPage(stack)]) == pages;
  }

  /**
   In a state where the image is still as loaded, the program reads at every lower-half address exactly
   the image's byte, zero on the rest of each touched page, and faults elsewhere. Only the page at the user
   stack's own address is the stack's, whatever the image asked for there.
   */
  lemma ProgramReadsItsImage(k: Kernel, pid: Pid, segs: seq<Segment>, a: nat)
    requires Spaces(k) && pid in k.progs && a / FRAME_BYTES < USER_PAGES
    requires Layout(segs, k.progs[pid].pages) && Holds(segs, k.progs[pid].pages, k.mem)
    ensures var t := k.sched.tasks[pid];
            if a / FRAME_BYTES == t.userStack
            then Translate(k.mem, t.cr3, a / FRAME_BYTES) == Some(Request(StackPage(t.userStack)))
            else UserByte(k.mem, t.cr3, a) == ImageByte(segs, a)
  {
    hide FirstTouch, Lookup, FreshByte, Translate, Layout, Tree, Permissive;
    var t, pages, vpage := k.sched.tasks[pid], k.progs[pid].pages, a / FRAME_BYTES;
    assert SpaceOk(k.mem, k.root, t, k.progs[pid]);
    assert Translate(k.mem, t.cr3, vpage) == Lookup(pages + [StackPage(t.userStack)], vpage);
    StackWins(pages, t.userStack, vpage);
    LayoutLookup(segs, pages, vpage);
    if vpage != t.userStack && FirstTouch(segs, vpage).Some? {
      var p :| p in pages && p.vpage == vpage && Lookup(pages, vpage) == Some(Request(p));
      var i :| 0 <= i < |pages| && pages[i] == p;
      assert PageHolds(segs, pages[i], k.mem);
      assert At(p.vpage, a % FRAME_BYTES) == a;
    }
  }

  /** With no segment both writable and executable, no user translation of the program is either. */
  lemma ProgramKeepsWX(k: Kernel, pid: Pid, segs: seq<Segment>, vpage: nat)
    requires Spaces(k) && pid in k.progs && vpage < USER_PAGES
    requires Layout(segs, k.progs[pid].pages)
    requires forall i :: 0 <= i < |segs| ==> !(segs[i].writable && segs[i].executable)
    ensures match Translate(k.mem, k.sched.tasks[pid].cr3, vpage)
            case None => true
            case Some(h) => !(h.writable && h.executable)
  {
    hide Spaces, Layout;
    NoWritableExecutable(segs, k.progs[pid].pages);
    LeavesKeepWX(k, pid, vpage);
  }

  // ----- In every run -----

  lemma SpawnedPages(k: Kernel, e: Event, k': Kernel)
    requires KernelInv(k) && |k.sched.queue.levels| == LEVELS && Step(k, e, k') && e.SpawnProgram?
    ensures k.sched.nextPid in k'.progs && k.sched.nextPid in k'.sched.tasks
    ensures k'.progs[k.sched.nextPid].pages == e.pages
  {
    hide Owned, Spaces, Scrubbed, Tree, Permissive, Translates, UpperHalfShared, AllocProgram, OnlyIn, Push;
  }

  /** The program of spawn `i` at a later state: it has the pages of that spawn and the tables built for them. */
  lemma SpawnedSpace(ks: seq<Kernel>, es: seq<Event>, i: nat, j: nat, vpage: nat)
    requires IsRun(ks, es) && KernelInv(ks[0]) && i < j <= |es| && vpage < USER_PAGES && es[i].SpawnProgram?
    requires ks[i].sched.nextPid in ks[j].sched.tasks
    ensures var pid := ks[i].sched.nextPid;
            && KernelInv(ks[j]) && pid in ks[i + 1].progs && pid in ks[i + 1].sched.tasks && pid in ks[j].progs
            && ks[i + 1].progs[pid].pages == es[i].pages && ks[j].progs[pid] == ks[i + 1].progs[pid]
            && Translate(ks[j].mem, ks[j].sched.tasks[pid].cr3, vpage)
               == Lookup(es[i].pages + [StackPage(ks[j].sched.tasks[pid].userStack)], vpage)
  {
    hide KernelInv, Step, Continues, Translate, Lookup;
    RunBetween(ks, es, i, j);
    LevelsOf(ks[i]);
    SpawnedPages(ks[i], es[i], ks[i + 1]);
    TranslationsKept(ks, es, i + 1, j, ks[i].sched.nextPid, vpage);
  }

  /**
   In every run, a program laid out from segments of which none is both writable and executable never has a
   user translation that is both, at any later state and for as long as the task exists.
   */
  lemma WXInEveryRun(ks: seq<Kernel>, es: seq<Event>, i: nat, j: nat, segs: seq<Segment>, vpage: nat)
    requires IsRun(ks, es) && KernelInv(ks[0]) && i < j <= |es| && vpage < USER_PAGES
    requires es[i].SpawnProgram? && Layout(segs, es[i].pages) && ks[i].sched.nextPid in ks[j].sched.tasks
    requires forall s :: 0 <= s < |segs| ==> !(segs[s].writable && segs[s].executable)
    ensures match Translate(ks[j].mem, ks[j].sched.tasks[ks[i].sched.nextPid].cr3, vpage)
            case None => true
            case Some(h) => !(h.writable && h.executable)
  {
    hide KernelInv, Layout, Step, Translate, Lookup;
    var pid := ks[i].sched.nextPid;
    SpawnedSpace(ks, es, i, j, vpage);
    InvParts(ks[j]);
    ProgramKeepsWX(ks[j], pid, segs, vpage);
  }

  /**
   In every run, a program reads its read-only pages as loaded, whatever it and all other tasks did since:
   the last file byte for the address, zero elsewhere on the page.
   */
  lemma ReadOnlyImageInEveryRun(ks: seq<Kernel>, es: seq<Event>, i: nat, j: nat, segs: seq<Segment>, a: nat)
    requires IsRun(ks, es) && KernelInv(ks[0]) && i < j <= |es| && a / FRAME_BYTES < USER_PAGES
    requires es[i].SpawnProgram? && Layout(segs, es[i].pages) && Holds(segs, es[i].pages, ks[i + 1].mem)
    requires ks[i].sched.nextPid in ks[j].sched.tasks
    requires var first := FirstTouch(segs, a / FRAME_BYTES); first.Some? && !first.value.writable
    ensures var t := ks[j].sched.tasks[ks[i].sched.nextPid];
            a / FRAME_BYTES != t.userStack ==> UserByte(ks[j].mem, t.cr3, a) == Some(FreshByte(segs, a))
  {
    hide KernelInv, Step, Translate, Layout, Lookup, FirstTouch, FreshByte;
    var pid, vpage := ks[i].sched.nextPid, a / FRAME_BYTES;
    SpawnedSpace(ks, es, i, j, vpage);
    StackWins(es[i].pages, ks[j].sched.tasks[pid].userStack, vpage);
    LayoutLookup(segs, es[i].pages, vpage);
    var p :| p in es[i].pages && p.vpage == vpage && Lookup(es[i].pages, vpage) == Some(Request(p))
             && RightsFrom(FirstTouch(segs, vpage), p);
    ReadOnlyKept(ks, es, i + 1, j, pid, p);
    HeldByte(segs, es[i].pages, ks[i + 1].mem, p, a);
  }

  lemma HeldByte(segs: seq<Segment>, pages: seq<Page>, m: Mem, p: Page, a: nat)
    requires Holds(segs, pages, m) && p in pages && p.vpage == a / FRAME_BYTES
    ensures IsData(m, p.frame) && m[p.frame].bytes[a % FRAME_BYTES] == FreshByte(segs, a)
  {
    hide FreshByte;
    var i :| 0 <= i < |pages| && pages[i] == p;
    assert PageHolds(segs, pages[i], m);
    assert At(p.vpage, a % FRAME_BYTES) == a;
  }

  /** Everything a program can read is unchanged after steps in which it did not run, whoever else did. */
  lemma MemoryIsPrivate(ks: seq<Kernel>, es: seq<Event>, i: nat, j: nat, pid: Pid, a: nat)
    requires IsRun(ks, es) && KernelInv(ks[0]) && i <= j <= |es| && a / FRAME_BYTES < USER_PAGES
    requires pid in ks[i].progs && pid in ks[i].sched.tasks && pid in ks[j].sched.tasks
    requires forall l :: i <= l < j ==> ks[l].sched.current != pid
    ensures UserByte(ks[j].mem, ks[j].sched.tasks[pid].cr3, a) == UserByte(ks[i].mem, ks[i].sched.tasks[pid].cr3, a)
  {
    hide KernelInv, Step, Translate, Lookup, Continues, SpaceOk, Owned, Spaces;
    var vpage := a / FRAME_BYTES;
    RunBetween(ks, es, i, i);
    InvParts(ks[i]);
    TranslationsKept(ks, es, i, i, pid, vpage);
    TranslationsKept(ks, es, i, j, pid, vpage);
    var h := Translate(ks[i].mem, ks[i].sched.tasks[pid].cr3, vpage);
    if h.Some? {
      LeavesAreOwn(ks[i], pid, vpage);
      FramesKeptWhileOthersRun(ks, es, i, j, pid, h.value.frame);
    }
  }
}
