/**
 The four-level page tables of kernel/src/memory/paging.rs.

 A table is found by walking from a root frame; `labels` records, for every table of a tree,
 the sequence of indices that leads to it. Two tables with different labels are reached by
 different addresses, and that is all the separation the proofs need.
 */
module Paging {
  import opened Prelude
  import opened PhysicalMemory
  import opened FrameAllocator

  const USER_PAGES: nat := 0x8_0000_0000      // 2^47 bytes of lower-half addresses, in pages
  const PAGE_NUMBERS: nat := 0x10_0000_0000   // 2^48 bytes of translated addresses, in pages
  const USER_HALF: nat := 256                 // root entries below this one are the lower half

  /** One requested mapping: virtual page, frame, and the segment's write and execute rights. */
  datatype Page = Page(vpage: nat, frame: nat, writable: bool, executable: bool)

  /** What the hardware makes of an address: rights are combined over all levels. */
  datatype Hit = Hit(frame: nat, writable: bool, user: bool, executable: bool, noCache: bool)

  type Mem = map<nat, Frame>
  type Labels = map<nat, seq<nat>>

  function Indices(vpage: nat): (p: seq<nat>)
    ensures |p| == 4 && forall k :: 0 <= k < 4 ==> p[k] < ENTRIES
    ensures vpage < USER_PAGES ==> p[0] < USER_HALF
  {
    [vpage / 0x800_0000 % ENTRIES, vpage / 0x4_0000 % ENTRIES, vpage / ENTRIES % ENTRIES, vpage % ENTRIES]
  }

  lemma IndicesInjective(a: nat, b: nat)
    requires a < PAGE_NUMBERS && b < PAGE_NUMBERS && Indices(a) == Indices(b)
    ensures a == b
  {
    hide Indices;
    FromIndices(a);
    FromIndices(b);
  }

  lemma DivideTwice(a: nat)
    ensures a / ENTRIES / ENTRIES == a / 0x4_0000
  {
  }

  lemma DivideThrice(a: nat)
    ensures a / 0x4_0000 / ENTRIES == a / 0x800_0000
  {
  }

  /** A page number read back from its four indices. */
  lemma FromIndices(a: nat)
    requires a < PAGE_NUMBERS
    ensures var ix := Indices(a); a == ix[0] * 0x800_0000 + ix[1] * 0x4_0000 + ix[2] * ENTRIES + ix[3]
  {
    var q1, q2, q3 := a / ENTRIES, a / 0x4_0000, a / 0x800_0000;
    DivideTwice(a);
    DivideThrice(a);
    assert q2 == ENTRIES * q3 + q2 % ENTRIES && q1 == ENTRIES * q2 + q1 % ENTRIES && a == ENTRIES * q1 + a % ENTRIES;
  }

  // ----- The walk -----

  function Offset(path: seq<nat>): nat {
    if path == [] then 0 else Offset(DropLast(path)) * ENTRIES + Last(path)
  }

  /** The page inside a huge one: 512 pages for 2 MiB, 0x40000 for 1 GiB. */
  lemma OffsetInHugePage(vpage: nat)
    ensures Offset(Indices(vpage)[3..]) == vpage % 512
    ensures Offset(Indices(vpage)[2..]) == vpage % 0x4_0000
  {
    var ix := Indices(vpage);
    assert DropLast(ix[3..]) == [] && DropLast(ix[2..]) == [ix[2]] && DropLast([ix[2]]) == [];
    HugeRemainder(vpage);
  }

  lemma HugeRemainder(v: nat)
    ensures v / ENTRIES % ENTRIES * ENTRIES + v % ENTRIES == v % 0x4_0000
  {
    var q, r := v / 0x4_0000, v % 0x4_0000;
    HugeQuotient(q, r);
    assert v / ENTRIES == q * ENTRIES + r / ENTRIES;
  }

  lemma HugeQuotient(q: nat, r: nat)
    ensures (q * 0x4_0000 + r) / ENTRIES == q * ENTRIES + r / ENTRIES
  {
  }

  predicate IsLeaf(e: Entry, levelsLeft: nat) {
    levelsLeft == 1 || (e.huge && levelsLeft <= 3)
  }

  function Walk(mem: Mem, f: nat, path: seq<nat>): Option<Hit>
    requires path != []
    decreases |path|
  {
    if !IsTable(mem, f) || path[0] >= ENTRIES then None
    else
      var e := mem[f].entries[path[0]];
      if !e.present then None
      else if IsLeaf(e, |path|) then
        Some(Hit(e.addr + Offset(path[1..]), e.writable, e.user, !e.noExec, e.noCache))
      else match Walk(mem, e.addr, path[1..])
        case None => None
        case Some(h) =>
          Some(h.(writable := h.writable && e.writable, user := h.user && e.user,
                  executable := h.executable && !e.noExec))
  }

  function Translate(mem: Mem, root: nat, vpage: nat): Option<Hit> {
    Walk(mem, root, Indices(vpage))
  }

  // ----- Trees -----

  predicate Interior(at: seq<nat>, e: Entry) {
    |at| < 3 && e.present && !(e.huge && |at| >= 1)
  }

  /** Entry `i` of a table labelled `at` belongs to the tree; only root entries below `hi` do. */
  predicate InTree(at: seq<nat>, i: nat, hi: nat) {
    i < ENTRIES && (at == [] ==> i < hi)
  }

  /** Every interior entry of table `f` leads to the table labelled with that entry's index. */
  ghost predicate Node(mem: Mem, labels: Labels, hi: nat, f: nat)
    requires f in labels
  {
    && |labels[f]| <= 3
    && IsTable(mem, f)
    && forall i: nat :: InTree(labels[f], i, hi) ==> Linked(labels, labels[f], i, mem[f].entries[i])
  }

  predicate Linked(labels: Labels, at: seq<nat>, i: nat, e: Entry) {
    Interior(at, e) ==> e.addr in labels && labels[e.addr] == at + [i]
  }

  ghost predicate Tree(mem: Mem, labels: Labels, hi: nat) {
    forall f :: f in labels ==> Node(mem, labels, hi, f)
  }

  /** `path` completes the label of `f` to a full address inside the tree. */
  predicate Reaches(labels: Labels, f: nat, path: seq<nat>, hi: nat) {
    f in labels && path != [] && |labels[f]| + |path| == 4 && InTree(labels[f], path[0], hi)
  }

  ghost predicate Grafted(mem: Mem, mem': Mem, labels: Labels, f: nat, i: nat, n: nat, hi: nat) {
    && f in labels && |labels[f]| < 3 && InTree(labels[f], i, hi)
    && IsTable(mem, f) && !mem[f].entries[i].present
    && n !in labels
    && IsTable(mem', n) && mem'[n] == ZeroTable()
    && IsTable(mem', f)
    && mem'[f].entries[i].present && mem'[f].entries[i].addr == n && !mem'[f].entries[i].huge
    && (forall j :: 0 <= j < ENTRIES && j != i ==> mem'[f].entries[j] == mem[f].entries[j])
    && (forall g :: g in labels && g != f ==> g in mem && g in mem' && mem'[g] == mem[g])
  }

  lemma GraftTree(mem: Mem, mem': Mem, labels: Labels, f: nat, i: nat, n: nat, hi: nat)
    requires Tree(mem, labels, hi) && Grafted(mem, mem', labels, f, i, n, hi)
    ensures Tree(mem', labels[n := labels[f] + [i]], hi)
  {
  }

  /** A new empty table changes no translation. */
  lemma {:induction false} GraftWalk(mem: Mem, mem': Mem, labels: Labels, f: nat, i: nat, n: nat, hi: nat,
                                     x: nat, path: seq<nat>)
    requires Tree(mem, labels, hi) && Grafted(mem, mem', labels, f, i, n, hi)
    requires Reaches(labels, x, path, hi)
    ensures Walk(mem', x, path) == Walk(mem, x, path)
    decreases |path|
  {
    var e := mem[x].entries[path[0]];
    if x == f && path[0] == i {
      assert Walk(mem', n, path[1..]).None?;
    } else if Interior(labels[x], e) {
      if path[1] < ENTRIES {
        GraftWalk(mem, mem', labels, f, i, n, hi, e.addr, path[1..]);
      }
    }
  }

  /** A table linked with the right to write takes no right away. */
  lemma {:induction false} GraftAbove(mem: Mem, mem': Mem, labels: Labels, f: nat, i: nat, n: nat, hi: nat,
                                      x: nat, path: seq<nat>)
    requires Tree(mem, labels, hi) && Grafted(mem, mem', labels, f, i, n, hi) && mem'[f].entries[i].writable
    requires Reaches(labels, x, path, hi)
    ensures WritableAbove(mem', x, path) == WritableAbove(mem, x, path)
    decreases |path|
  {
    var e := mem[x].entries[path[0]];
    if x == f && path[0] == i {
      assert WritableAbove(mem', n, path[1..]);
    } else if |path| > 1 && Interior(labels[x], e) && path[1] < ENTRIES {
      GraftAbove(mem, mem', labels, f, i, n, hi, e.addr, path[1..]);
    }
  }

  ghost predicate LeafWritten(mem: Mem, mem': Mem, labels: Labels, pt: nat, i: nat) {
    && pt in labels && |labels[pt]| == 3 && i < ENTRIES
    && IsTable(mem, pt) && IsTable(mem', pt)
    && (forall j :: 0 <= j < ENTRIES && j != i ==> mem'[pt].entries[j] == mem[pt].entries[j])
    && (forall g :: g in labels && g != pt ==> g in mem && g in mem' && mem'[g] == mem[g])
  }

  lemma LeafTree(mem: Mem, mem': Mem, labels: Labels, pt: nat, i: nat, hi: nat)
    requires Tree(mem, labels, hi) && LeafWritten(mem, mem', labels, pt, i)
    ensures Tree(mem', labels, hi)
  {
  }

  /** Writing a leaf entry changes the translation of its own address only. */
  lemma {:induction false} LeafWalk(mem: Mem, mem': Mem, labels: Labels, pt: nat, i: nat, hi: nat,
                                    x: nat, path: seq<nat>)
    requires Tree(mem, labels, hi) && LeafWritten(mem, mem', labels, pt, i)
    requires Reaches(labels, x, path, hi)
    requires labels[x] + path != labels[pt] + [i]
    ensures Walk(mem', x, path) == Walk(mem, x, path)
    decreases |path|
  {
    var e := mem[x].entries[path[0]];
    if Interior(labels[x], e) {
      if path[1] < ENTRIES {
        assert labels[e.addr] + path[1..] == labels[x] + path;
        LeafWalk(mem, mem', labels, pt, i, hi, e.addr, path[1..]);
      }
    }
  }

  lemma {:induction false} LeafAbove(mem: Mem, mem': Mem, labels: Labels, pt: nat, i: nat, hi: nat,
                                     x: nat, path: seq<nat>)
    requires Tree(mem, labels, hi) && LeafWritten(mem, mem', labels, pt, i)
    requires Reaches(labels, x, path, hi)
    ensures WritableAbove(mem', x, path) == WritableAbove(mem, x, path)
    decreases |path|
  {
    var e := mem[x].entries[path[0]];
    if |path| > 1 && Interior(labels[x], e) && path[1] < ENTRIES {
      LeafAbove(mem, mem', labels, pt, i, hi, e.addr, path[1..]);
    }
  }

  /** Translations depend on the tree's own frames only. */
  lemma {:induction false} WalkFrame(mem: Mem, mem': Mem, labels: Labels, hi: nat, x: nat, path: seq<nat>)
    requires Tree(mem, labels, hi)
    requires forall g :: g in labels ==> g in mem && g in mem' && mem'[g] == mem[g]
    requires Reaches(labels, x, path, hi)
    ensures Walk(mem', x, path) == Walk(mem, x, path)
    decreases |path|
  {
    var e := mem[x].entries[path[0]];
    if Interior(labels[x], e) && path[1] < ENTRIES {
      WalkFrame(mem, mem', labels, hi, e.addr, path[1..]);
    }
  }

  // ----- Building tables -----

  /** Where a build started: allocator state, owned frames, memory, and the tables that already existed. */
  datatype Start = Start(pm: State, live: set<nat>, mem: Mem, tables: set<nat>, hi: nat)

  /** The tables are a tree made of the initial ones and of the frames `taken` so far; nothing else changed. */
  ghost predicate Building(b: Start, s: State, mem: Mem, labels: Labels, taken: seq<nat>) {
    && Valid(b.pm, b.live)
    && Take(b.pm, |taken|) == Some((s, taken))
    && (forall f :: f in b.tables ==> !Available(b.pm, f))
    && labels.Keys == b.tables + Elems(taken)
    && Tree(mem, labels, b.hi)
    && (forall g: nat :: g !in labels ==> SameAt(b.mem, mem, g))
  }

  predicate SameAt(m: Mem, m': Mem, g: nat) {
    (g in m <==> g in m') && (g in m ==> m[g] == m'[g])
  }

  predicate Open(e: Entry) {
    e.present ==> e.writable && e.user && !e.noExec && !e.huge
  }

  /** Interior entries of a user table restrict nothing, so the leaf decides. */
  ghost predicate Permissive(mem: Mem, labels: Labels, hi: nat) {
    forall f, i: nat :: f in labels && |labels[f]| < 3 && InTree(labels[f], i, hi) && IsTable(mem, f) ==>
      Open(mem[f].entries[i])
  }

  /** No table entry on the way down takes the right to write away, as far as the way exists. */
  predicate WritableAbove(mem: Mem, f: nat, path: seq<nat>)
    decreases |path|
  {
    |path| <= 1 || !IsTable(mem, f) || path[0] >= ENTRIES ||
    var e := mem[f].entries[path[0]];
    e.present && !IsLeaf(e, |path|) ==> e.writable && WritableAbove(mem, e.addr, path[1..])
  }

  /** Every address translates as before, and a page added to it could be written exactly where it could before. */
  ghost predicate SameWalks(mem: Mem, mem': Mem, root: nat, hi: nat) {
    forall path: seq<nat> :: |path| == 4 && InTree([], path[0], hi) ==>
      && Walk(mem', root, path) == Walk(mem, root, path)
      && WritableAbove(mem', root, path) == WritableAbove(mem, root, path)
  }

  /** The memory after an empty table `n` was linked at entry `i` of `f`. */
  function Linking(m: Mem, f: nat, i: nat, n: nat, user: bool): Mem
    requires IsTable(m, f) && i < ENTRIES && n != f
  {
    m[n := ZeroTable()][f := Table(m[f].entries[i := Entry(true, true, user, false, false, false, n)])]
  }

  lemma LinkingIs(m: Mem, f: nat, i: nat, n: nat, user: bool)
    requires IsTable(m, f) && i < ENTRIES && n != f
    ensures Linking(m, f, i, n, user) ==
            m[n := ZeroTable()][f := Table(m[f].entries[i := Entry(true, true, user, false, false, false, n)])]
  {
  }

  lemma OpenEntry(m: Mem, labels: Labels, hi: nat, f: nat, i: nat)
    requires Permissive(m, labels, hi)
    requires f in labels && |labels[f]| < 3 && InTree(labels[f], i, hi) && IsTable(m, f)
    ensures Open(m[f].entries[i])
  {
  }

  lemma SameWalksReflexive(m: Mem, root: nat, hi: nat)
    ensures SameWalks(m, m, root, hi)
  {
  }

  lemma LinkTree(m: Mem, labels: Labels, hi: nat, f: nat, i: nat, n: nat, user: bool)
    requires Tree(m, labels, hi) && n !in labels
    requires f in labels && |labels[f]| < 3 && InTree(labels[f], i, hi) && IsTable(m, f) && !m[f].entries[i].present
    ensures Tree(Linking(m, f, i, n, user), labels[n := labels[f] + [i]], hi)
    ensures Grafted(m, Linking(m, f, i, n, user), labels, f, i, n, hi)
  {
    GraftTree(m, Linking(m, f, i, n, user), labels, f, i, n, hi);
  }

  lemma LinkBuilding(b: Start, s: State, s': State, m: Mem, labels: Labels, taken: seq<nat>,
                     f: nat, i: nat, n: nat, user: bool)
    requires Building(b, s, m, labels, taken)
    requires Take(b.pm, |taken| + 1) == Some((s', taken + [n])) && n !in labels
    requires f in labels && |labels[f]| < 3 && InTree(labels[f], i, b.hi) && IsTable(m, f) && !m[f].entries[i].present
    ensures Building(b, s', Linking(m, f, i, n, user), labels[n := labels[f] + [i]], taken + [n])
  {
    hide Tree, Valid, Take, Available;
    var m' := Linking(m, f, i, n, user);
    LinkTree(m, labels, b.hi, f, i, n, user);
    assert Elems(taken + [n]) == Elems(taken) + {n};
    forall g: nat | g !in labels && g != n ensures SameAt(b.mem, m', g) {
      assert SameAt(b.mem, m, g);
    }
  }

  lemma LinkPermissive(m: Mem, labels: Labels, hi: nat, f: nat, i: nat, n: nat)
    requires Tree(m, labels, hi) && Permissive(m, labels, hi) && n !in labels
    requires f in labels && |labels[f]| < 3 && InTree(labels[f], i, hi) && IsTable(m, f)
    ensures Permissive(Linking(m, f, i, n, true), labels[n := labels[f] + [i]], hi)
  {
  }

  lemma LinkWalks(m: Mem, labels: Labels, hi: nat, root: nat, f: nat, i: nat, n: nat, user: bool)
    requires Tree(m, labels, hi) && n !in labels && root in labels && labels[root] == []
    requires f in labels && |labels[f]| < 3 && InTree(labels[f], i, hi) && IsTable(m, f) && !m[f].entries[i].present
    ensures SameWalks(m, Linking(m, f, i, n, user), root, hi)
  {
    var m' := Linking(m, f, i, n, user);
    LinkTree(m, labels, hi, f, i, n, user);
    forall path: seq<nat> | |path| == 4 && InTree([], path[0], hi)
      ensures Walk(m', root, path) == Walk(m, root, path)
      ensures WritableAbove(m', root, path) == WritableAbove(m, root, path)
    {
      GraftWalk(m, m', labels, f, i, n, hi, root, path);
      GraftAbove(m, m', labels, f, i, n, hi, root, path);
    }
  }

  /** Labels are only added, and the labelled tables differ at most in entry `i` of `f`. */
  ghost predicate Grown(mem: Mem, mem': Mem, labels: Labels, labels': Labels, f: nat, i: nat) {
    && (forall g :: g in labels ==> g in labels' && labels'[g] == labels[g])
    && (forall g :: g in labels && g != f && g in mem ==> g in mem' && mem'[g] == mem[g])
    && IsTable(mem, f) && IsTable(mem', f)
    && (forall j :: 0 <= j < ENTRIES && j != i ==> mem'[f].entries[j] == mem[f].entries[j])
  }

  lemma InBuilding(b: Start, s: State, m: Mem, labels: Labels, taken: seq<nat>, f: nat, i: nat)
    requires Building(b, s, m, labels, taken) && f in labels && InTree(labels[f], i, b.hi)
    ensures Valid(s, b.live + Elems(taken))
    ensures IsTable(m, f) && Linked(labels, labels[f], i, m[f].entries[i])
    ensures forall g :: g in labels ==> g in m
    ensures Tree(m, labels, b.hi)
    ensures AllocFrame(s).1.Some? ==>
              var (s', r) := AllocFrame(s);
              r.value !in labels && Take(b.pm, |taken| + 1) == Some((s', taken + [r.value]))
  {
    hide Valid, AllocFrame, Take;
    TakeMore(b.pm, b.live, s, taken);
    assert Node(m, labels, b.hi, f);
    assert forall g :: g in labels ==> Node(m, labels, b.hi, g);
  }

  /**
   One level of the walk: the table entry `i` of `f` leads to, created empty when the entry is absent.
   None when the allocator is out of frames, which is a kernel panic.
   */
  method EnsureChild(pmm: Pmm, mem: Memory, root: nat, f: nat, i: nat, user: bool,
                     ghost b: Start, ghost labels: Labels, ghost taken: seq<nat>)
    returns (child: Option<nat>, added: seq<nat>, ghost labels': Labels)
    requires Building(b, pmm.Abs(), mem.frames, labels, taken)
    requires f in labels && |labels[f]| < 3 && InTree(labels[f], i, b.hi)
    requires root in labels && labels[root] == []
    requires user ==> Permissive(mem.frames, labels, b.hi)
    requires mem.frames[f].entries[i].present ==> Interior(labels[f], mem.frames[f].entries[i])
    modifies pmm, mem
    ensures child.Some? ==>
              && Building(b, pmm.Abs(), mem.frames, labels', taken + added)
              && SameWalks(old(mem.frames), mem.frames, root, b.hi)
              && (user ==> Permissive(mem.frames, labels', b.hi))
              && Grown(old(mem.frames), mem.frames, labels, labels', f, i)
              && child.value in labels' && labels'[child.value] == labels[f] + [i]
              && mem.frames[f].entries[i].addr == child.value
              && mem.frames[f].entries[i].present && Interior(labels[f], mem.frames[f].entries[i])
    ensures child.None? ==> AllocFrame(pmm.Abs()).1.None?
  {
    hide Building, Valid, Available, SameWalks, Permissive, Linking, AllocFrame, Take;
    ghost var m0, s0 := mem.frames, pmm.Abs();
    labels', added := labels, [];
    InBuilding(b, s0, m0, labels, taken, f, i);
    var e := mem.frames[f].entries[i];
    if !e.present {
      child := pmm.Alloc(b.live + Elems(taken));
      if child.None? {
        ExhaustedStays(s0, b.live + Elems(taken));
        return;
      }
      var n := child.value;
      mem.ZeroAsTable(n);
      mem.WriteEntry(f, i, Entry(true, true, user, false, false, false, n));
      added := [n];
      labels' := labels[n := labels[f] + [i]];
      assert mem.frames == m0[n := ZeroTable()]
                             [f := Table(m0[f].entries[i := Entry(true, true, user, false, false, false, n)])];
      LinkingIs(m0, f, i, n, user);
      LinkBuilding(b, s0, pmm.Abs(), m0, labels, taken, f, i, n, user);
      LinkWalks(m0, labels, b.hi, root, f, i, n, user);
      if user {
        LinkPermissive(m0, labels, b.hi, f, i, n);
      }
    } else {
      SameWalksReflexive(m0, root, b.hi);
      if user {
        OpenEntry(m0, labels, b.hi, f, i);
        mem.WriteEntry(f, i, e.(user := true));
        assert mem.frames[f].entries == m0[f].entries;
        assert mem.frames == m0;
      }
      child := Some(e.addr);
      assert taken + added == taken;
    }
  }

  lemma OpenStep(mem: Mem, f: nat, path: seq<nat>)
    requires IsTable(mem, f) && |path| > 1 && path[0] < ENTRIES
    requires mem[f].entries[path[0]].present && Open(mem[f].entries[path[0]])
    ensures Walk(mem, f, path) == Walk(mem, mem[f].entries[path[0]].addr, path[1..])
  {
  }

  function Request(p: Page): Hit { Hit(p.frame, p.writable, true, p.executable, false) }

  function LeafEntry(p: Page): Entry { Entry(true, p.writable, true, false, false, !p.executable, p.frame) }

  /** `mem'` translates like `mem`, except that the page's address now has the requested translation. */
  ghost predicate Remapped(mem: Mem, mem': Mem, root: nat, p: Page, hi: nat) {
    forall path: seq<nat> :: |path| == 4 && InTree([], path[0], hi) ==>
      Walk(mem', root, path) == if path == Indices(p.vpage) then Some(Request(p)) else Walk(mem, root, path)
  }

  /** Table entry `i` of `f` is open and leads to `child`. */
  predicate Leads(mem: Mem, f: nat, i: nat, child: nat) {
    && i < ENTRIES && IsTable(mem, f)
    && mem[f].entries[i].present && Open(mem[f].entries[i]) && mem[f].entries[i].addr == child
  }

  /** Open entries lead from the root through `t3` and `t2` to `t1`, the last-level table for `ix`. */
  ghost predicate OnPath(m: Mem, labels: Labels, root: nat, ix: seq<nat>, t3: nat, t2: nat, t1: nat)
    requires |ix| == 4
  {
    && root in labels && labels[root] == []
    && t3 in labels && labels[t3] == [ix[0]] && Leads(m, root, ix[0], t3)
    && t2 in labels && labels[t2] == [ix[0], ix[1]] && Leads(m, t3, ix[1], t2)
    && t1 in labels && labels[t1] == [ix[0], ix[1], ix[2]] && Leads(m, t2, ix[2], t1)
    && IsTable(m, t1)
  }

  /** Writing the leaf at the end of the four-level path gives exactly the requested translation. */
  lemma LeafRemaps(m: Mem, labels: Labels, root: nat, p: Page, t3: nat, t2: nat, t1: nat)
    requires Tree(m, labels, USER_HALF) && p.vpage < USER_PAGES
    requires OnPath(m, labels, root, Indices(p.vpage), t3, t2, t1)
    ensures Remapped(m, m[t1 := Table(m[t1].entries[Indices(p.vpage)[3] := LeafEntry(p)])], root, p, USER_HALF)
  {
    var ix := Indices(p.vpage);
    var m' := m[t1 := Table(m[t1].entries[ix[3] := LeafEntry(p)])];
    assert LeafWritten(m, m', labels, t1, ix[3]);
    forall path: seq<nat> | |path| == 4 && InTree([], path[0], USER_HALF)
      ensures Walk(m', root, path) == if path == ix then Some(Request(p)) else Walk(m, root, path)
    {
      if path == ix {
        OpenStep(m', root, ix);
        OpenStep(m', t3, ix[1..]);
        OpenStep(m', t2, ix[2..]);
        assert ix[1..][1..] == ix[2..] && ix[2..][1..] == ix[3..] && ix[3..] == [ix[3]];
        assert Walk(m', t1, ix[3..]) == Some(Request(p));
      } else {
        assert labels[t1] + [ix[3]] == ix;
        assert labels[root] + path == path;
        LeafWalk(m, m', labels, t1, ix[3], USER_HALF, root, path);
      }
    }
  }

  /** The table under construction: built from nothing, lower half only, open above the leaves. */
  ghost predicate UserTable(b: Start, s: State, mem: Mem, labels: Labels, root: nat, tables: seq<nat>) {
    && b.hi == USER_HALF && b.tables == {}
    && Building(b, s, mem, labels, tables)
    && Permissive(mem, labels, USER_HALF)
    && root in labels && labels[root] == []
  }

  /** `EnsureChild` for a user table. */
  method UserChild(pmm: Pmm, mem: Memory, root: nat, f: nat, i: nat, tables: seq<nat>,
                   ghost b: Start, ghost labels: Labels)
    returns (child: Option<nat>, tables': seq<nat>, ghost labels': Labels)
    requires UserTable(b, pmm.Abs(), mem.frames, labels, root, tables)
    requires f in labels && |labels[f]| < 3 && InTree(labels[f], i, USER_HALF)
    modifies pmm, mem
    ensures child.Some? ==>
              && UserTable(b, pmm.Abs(), mem.frames, labels', root, tables')
              && SameWalks(old(mem.frames), mem.frames, root, USER_HALF)
              && Leads(mem.frames, f, i, child.value)
              && child.value in labels' && labels'[child.value] == labels[f] + [i] && IsTable(mem.frames, child.value)
              && Grown(old(mem.frames), mem.frames, labels, labels', f, i)
              && tables <= tables'
    ensures child.None? ==> AllocFrame(pmm.Abs()).1.None?
  {
    assert Node(mem.frames, labels, USER_HALF, f);
    assert Open(mem.frames[f].entries[i]);
    var added;
    child, added, labels' := EnsureChild(pmm, mem, root, f, i, true, b, labels, tables);
    tables' := tables + added;
    if child.Some? {
      assert Node(mem.frames, labels', USER_HALF, f);
      assert Node(mem.frames, labels', USER_HALF, child.value);
    }
  }

  lemma SameWalksCompose(m0: Mem, m1: Mem, m2: Mem, m3: Mem, root: nat, hi: nat)
    requires SameWalks(m0, m1, root, hi) && SameWalks(m1, m2, root, hi) && SameWalks(m2, m3, root, hi)
    ensures SameWalks(m0, m3, root, hi)
  {
    forall path: seq<nat> | |path| == 4 && InTree([], path[0], hi)
      ensures Walk(m3, root, path) == Walk(m0, root, path)
      ensures WritableAbove(m3, root, path) == WritableAbove(m0, root, path)
    {
      assert Walk(m3, root, path) == Walk(m2, root, path) == Walk(m1, root, path) == Walk(m0, root, path);
    }
  }

  lemma RemappedAfter(m: Mem, m1: Mem, m2: Mem, root: nat, p: Page, hi: nat)
    requires SameWalks(m, m1, root, hi) && Remapped(m1, m2, root, p, hi)
    ensures Remapped(m, m2, root, p, hi)
  {
    forall path: seq<nat> | |path| == 4 && InTree([], path[0], hi)
      ensures Walk(m2, root, path) == if path == Indices(p.vpage) then Some(Request(p)) else Walk(m, root, path)
    {
      assert Walk(m1, root, path) == Walk(m, root, path);
    }
  }

  lemma LeafKeepsTable(b: Start, s: State, m: Mem, labels: Labels, root: nat, tables: seq<nat>, pt: nat, i: nat,
                       e: Entry)
    requires UserTable(b, s, m, labels, root, tables)
    requires pt in labels && |labels[pt]| == 3 && i < ENTRIES && IsTable(m, pt)
    ensures UserTable(b, s, m[pt := Table(m[pt].entries[i := e])], labels, root, tables)
  {
    var m' := m[pt := Table(m[pt].entries[i := e])];
    assert LeafWritten(m, m', labels, pt, i);
    LeafTree(m, m', labels, pt, i, USER_HALF);
  }

  /** The upper half of the root is left alone. */
  ghost predicate UpperKept(mem: Mem, mem': Mem, root: nat) {
    && IsTable(mem, root) && IsTable(mem', root)
    && forall j :: USER_HALF <= j < ENTRIES ==> mem'[root].entries[j] == mem[root].entries[j]
  }

  /** The three upper levels of one mapping: finds or makes the last-level table for `vpage`. */
  method Descend(pmm: Pmm, mem: Memory, root: nat, vpage: nat, tables: seq<nat>, ghost b: Start, ghost labels: Labels)
    returns (t: Option<nat>, tables': seq<nat>, ghost labels': Labels, ghost t3: nat, ghost t2: nat)
    requires UserTable(b, pmm.Abs(), mem.frames, labels, root, tables)
    requires root in labels && labels[root] == [] && vpage < USER_PAGES
    modifies pmm, mem
    ensures t.Some? ==>
              && UserTable(b, pmm.Abs(), mem.frames, labels', root, tables')
              && SameWalks(old(mem.frames), mem.frames, root, USER_HALF)
              && UpperKept(old(mem.frames), mem.frames, root)
              && tables <= tables'
              && OnPath(mem.frames, labels', root, Indices(vpage), t3, t2, t.value)
    ensures t.None? ==> AllocFrame(pmm.Abs()).1.None?
  {
    hide UserTable, SameWalks, AllocFrame, Indices, Walk, WritableAbove;
    var ix := Indices(vpage);
    t, tables', labels', t3, t2 := None, tables, labels, 0, 0;
    ghost var m0 := mem.frames;
    var c3;
    c3, tables', labels' := UserChild(pmm, mem, root, root, ix[0], tables', b, labels');
    if c3.None? { return; }
    t3 := c3.value;
    ghost var m1 := mem.frames;
    var c2;
    c2, tables', labels' := UserChild(pmm, mem, root, c3.value, ix[1], tables', b, labels');
    if c2.None? { return; }
    t2 := c2.value;
    ghost var m2 := mem.frames;
    t, tables', labels' := UserChild(pmm, mem, root, c2.value, ix[2], tables', b, labels');
    if t.Some? {
      SameWalksCompose(m0, m1, m2, mem.frames, root, USER_HALF);
    }
  }

  /** Adds one mapping; the table stays well formed and no other translation changes. */
  method MapUserPage(pmm: Pmm, mem: Memory, root: nat, p: Page, tables: seq<nat>, ghost b: Start, ghost labels: Labels)
    returns (ok: bool, tables': seq<nat>, ghost labels': Labels)
    requires UserTable(b, pmm.Abs(), mem.frames, labels, root, tables)
    requires p.vpage < USER_PAGES
    modifies pmm, mem
    ensures ok ==>
              && UserTable(b, pmm.Abs(), mem.frames, labels', root, tables')
              && Remapped(old(mem.frames), mem.frames, root, p, USER_HALF)
              && UpperKept(old(mem.frames), mem.frames, root)
              && tables <= tables'
    ensures !ok ==> AllocFrame(pmm.Abs()).1.None?
  {
    hide AllocFrame;
    var t;
    ghost var t3, t2;
    t, tables', labels', t3, t2 := Descend(pmm, mem, root, p.vpage, tables, b, labels);
    ok := t.Some?;
    if ok {
      ghost var m := mem.frames;
      mem.WriteEntry(t.value, Indices(p.vpage)[3], LeafEntry(p));
      LeafRemaps(m, labels', root, p, t3, t2, t.value);
      RemappedAfter(old(mem.frames), m, mem.frames, root, p, USER_HALF);
      LeafKeepsTable(b, pmm.Abs(), m, labels', root, tables', t.value, Indices(p.vpage)[3], LeafEntry(p));
    }
  }

  // ----- Whole user tables -----

  /** The last request for a page wins. */
  function Lookup(pages: seq<Page>, vpage: nat): Option<Hit> {
    if pages == [] then None
    else if Last(pages).vpage == vpage then Some(Request(Last(pages)))
    else Lookup(DropLast(pages), vpage)
  }

  /** On the whole lower half, the table translates exactly what was asked for. */
  ghost predicate Translates(mem: Mem, root: nat, pages: seq<Page>) {
    forall vpage: nat :: vpage < USER_PAGES ==> Translate(mem, root, vpage) == Lookup(pages, vpage)
  }

  ghost predicate UpperHalfShared(mem: Mem, root: nat, kernel: seq<Entry>) {
    && IsTable(mem, root) && |kernel| == ENTRIES
    && forall i :: USER_HALF <= i < ENTRIES ==> mem[root].entries[i] == kernel[i]
  }

  lemma RootIndexLow(vpage: nat)
    requires vpage < PAGE_NUMBERS
    ensures Indices(vpage)[0] < USER_HALF <==> vpage < USER_PAGES
  {
  }

  /**
   Where a mapping's walk goes from the root of a new table: into a table of its own exactly for a root index
   below 256; for any other it follows the kernel's entry into the kernel's own table.
   */
  lemma WalkStaysOwnIff(mem: Mem, labels: Labels, root: nat, kernel: seq<Entry>, vpage: nat)
    requires Tree(mem, labels, USER_HALF) && root in labels && labels[root] == []
    requires UpperHalfShared(mem, root, kernel)
    requires forall i :: USER_HALF <= i < ENTRIES && kernel[i].present ==> kernel[i].addr !in labels
    requires var e := mem[root].entries[Indices(vpage)[0]]; e.present && !e.huge
    ensures var i := Indices(vpage)[0];
            && (mem[root].entries[i].addr in labels <==> i < USER_HALF)
            && (i >= USER_HALF ==> mem[root].entries[i] == kernel[i])
  {
    hide Indices;
    assert Node(mem, labels, USER_HALF, root);
  }

  lemma RemapExtends(m: Mem, m': Mem, root: nat, pages: seq<Page>, p: Page)
    requires Translates(m, root, pages) && Remapped(m, m', root, p, USER_HALF) && p.vpage < USER_PAGES
    ensures Translates(m', root, pages + [p])
  {
    assert DropLast(pages + [p]) == pages;
    forall vpage: nat | vpage < USER_PAGES
      ensures Translate(m', root, vpage) == Lookup(pages + [p], vpage)
    {
      if Indices(vpage) == Indices(p.vpage) {
        IndicesInjective(vpage, p.vpage);
      }
      assert Walk(m', root, Indices(vpage)) ==
             if Indices(vpage) == Indices(p.vpage) then Some(Request(p)) else Walk(m, root, Indices(vpage));
    }
  }

  /** A root whose lower half is empty is a user table that translates nothing. */
  lemma EmptyUserTable(b: Start, s: State, m: Mem, root: nat)
    requires b.hi == USER_HALF && b.tables == {} && Valid(b.pm, b.live) && Take(b.pm, 1) == Some((s, [root]))
    requires IsTable(m, root) && forall i :: 0 <= i < USER_HALF ==> m[root].entries[i] == ABSENT
    requires forall g: nat :: g != root ==> SameAt(b.mem, m, g)
    ensures UserTable(b, s, m, map[root := []], root, [root])
    ensures Translates(m, root, [])
  {
    var labels: Labels := map[root := []];
    assert Node(m, labels, USER_HALF, root);
    assert labels.Keys == {root} == Elems([root]);
    forall vpage: nat | vpage < USER_PAGES ensures Translate(m, root, vpage) == None {
      assert m[root].entries[Indices(vpage)[0]] == ABSENT;
    }
  }

  /** A fresh root: the lower half empty, the upper half copied from the live root. */
  method NewRoot(pmm: Pmm, mem: Memory, kernelRoot: nat, ghost live: set<nat>)
    returns (root: Option<nat>)
    requires Valid(pmm.Abs(), live)
    requires IsTable(mem.frames, kernelRoot) && !Available(pmm.Abs(), kernelRoot)
    modifies pmm, mem
    ensures root.Some? ==>
              var b := Start(old(pmm.Abs()), live, old(mem.frames), {}, USER_HALF);
              && UserTable(b, pmm.Abs(), mem.frames, map[root.value := []], root.value, [root.value])
              && Translates(mem.frames, root.value, [])
              && UpperHalfShared(mem.frames, root.value, old(mem.frames)[kernelRoot].entries)
    ensures root.None? ==> AllocFrame(pmm.Abs()).1.None?
  {
    hide UserTable, Valid, Available, AllocFrame, Take;
    ghost var m0, s0 := mem.frames, pmm.Abs();
    AllocFrameSpec(s0, live);
    TakeOne(s0);
    root := pmm.Alloc(live);
    if root.None? {
      ExhaustedStays(s0, live);
      return;
    }
    var r := root.value;
    mem.ZeroAsTable(r);
    for i := USER_HALF to ENTRIES
      modifies mem
      invariant r != kernelRoot && IsTable(mem.frames, r)
      invariant mem.frames == m0[r := mem.frames[r]]
      invariant forall j :: 0 <= j < USER_HALF ==> mem.frames[r].entries[j] == ABSENT
      invariant forall j :: USER_HALF <= j < i ==> mem.frames[r].entries[j] == m0[kernelRoot].entries[j]
    {
      mem.WriteEntry(r, i, mem.frames[kernelRoot].entries[i]);
    }
    EmptyUserTable(Start(s0, live, m0, {}, USER_HALF), pmm.Abs(), mem.frames, r);
  }

  /**
   `create_isolated_user_table_fresh`: a new root sharing the kernel's upper half, one mapping per
   page, and the stack mapped to itself, writable and not executable. It panics (`ok` is false) only
   when the allocator is out of frames.
   */
  method CreateUserTable(pmm: Pmm, mem: Memory, kernelRoot: nat, pages: seq<Page>, stack: nat, ghost live: set<nat>)
    returns (ok: bool, root: nat, tables: seq<nat>, ghost labels: Labels)
    requires Valid(pmm.Abs(), live)
    requires IsTable(mem.frames, kernelRoot) && !Available(pmm.Abs(), kernelRoot)
    requires forall p :: p in pages ==> p.vpage < USER_PAGES && p.frame < FRAME_LIMIT
    requires stack < USER_PAGES
    modifies pmm, mem
    ensures ok ==>
              && tables != [] && root == tables[0]
              && UserTable(Start(old(pmm.Abs()), live, old(mem.frames), {}, USER_HALF),
                           pmm.Abs(), mem.frames, labels, root, tables)
              && Translates(mem.frames, root, pages + [StackPage(stack)])
              && UpperHalfShared(mem.frames, root, old(mem.frames)[kernelRoot].entries)
    ensures !ok ==> AllocFrame(pmm.Abs()).1.None?
  {
    hide UserTable, Valid, Available, Translates, Remapped, AllocFrame;
    ghost var b := Start(pmm.Abs(), live, mem.frames, {}, USER_HALF);
    ghost var kernel := mem.frames[kernelRoot].entries;
    ok, root, tables, labels := false, 0, [], map[];
    var r := NewRoot(pmm, mem, kernelRoot, live);
    if r.None? {
      return;
    }
    root := r.value;
    tables, labels := [root], map[root := []];
    var all := pages + [StackPage(stack)];
    for k := 0 to |all|
      invariant UserTable(b, pmm.Abs(), mem.frames, labels, root, tables)
      invariant tables != [] && tables[0] == root
      invariant Translates(mem.frames, root, all[..k])
      invariant UpperHalfShared(mem.frames, root, kernel)
    {
      ghost var m := mem.frames;
      var added;
      assert all[k] in all;
      added, tables, labels := MapUserPage(pmm, mem, root, all[k], tables, b, labels);
      if !added {
        return;
      }
      RemapExtends(m, mem.frames, root, all[..k], all[k]);
      assert all[..k] + [all[k]] == all[..k + 1];
    }
    assert all[..|all|] == all;
    ok := true;
  }

  function IdentityPages(vpages: seq<nat>): (ps: seq<Page>)
    ensures |ps| == |vpages| && forall i :: 0 <= i < |ps| ==> ps[i] == Page(vpages[i], vpages[i], false, true)
  {
    seq(|vpages|, i requires 0 <= i < |vpages| => Page(vpages[i], vpages[i], false, true))
  }

  /** `create_isolated_user_table`: every page mapped to the frame of the same number, executable and read-only. */
  method CreateIdentityTable(pmm: Pmm, mem: Memory, kernelRoot: nat, vpages: seq<nat>, stack: nat, ghost live: set<nat>)
    returns (ok: bool, root: nat, tables: seq<nat>, ghost labels: Labels)
    requires Valid(pmm.Abs(), live)
    requires IsTable(mem.frames, kernelRoot) && !Available(pmm.Abs(), kernelRoot)
    requires forall v :: v in vpages ==> v < USER_PAGES
    requires stack < USER_PAGES
    modifies pmm, mem
    ensures ok ==>
              && tables != [] && root == tables[0]
              && UserTable(Start(old(pmm.Abs()), live, old(mem.frames), {}, USER_HALF),
                           pmm.Abs(), mem.frames, labels, root, tables)
              && (forall v: nat :: v < USER_PAGES ==>
                    Translate(mem.frames, root, v) ==
                    if v == stack then Some(Hit(v, true, true, false, false))
                    else if v in vpages then Some(Hit(v, false, true, true, false)) else None)
              && UpperHalfShared(mem.frames, root, old(mem.frames)[kernelRoot].entries)
    ensures !ok ==> AllocFrame(pmm.Abs()).1.None?
  {
    hide UserTable, Valid, Available, UpperHalfShared, Lookup, Translate, AllocFrame;
    var pages := IdentityPages(vpages);
    forall p | p in pages ensures p.vpage < USER_PAGES && p.frame < FRAME_LIMIT {
      var i :| 0 <= i < |pages| && pages[i] == p;
      assert vpages[i] in vpages;
    }
    ok, root, tables, labels := CreateUserTable(pmm, mem, kernelRoot, pages, stack, live);
    forall v: nat ensures Lookup(pages + [StackPage(stack)], v) ==
                          if v == stack then Some(Hit(v, true, true, false, false))
                          else if v in vpages then Some(Hit(v, false, true, true, false)) else None
    {
      IdentityLookup(vpages, stack, v);
    }
  }

  lemma IdentityLookup(vpages: seq<nat>, stack: nat, v: nat)
    ensures Lookup(IdentityPages(vpages) + [StackPage(stack)], v) ==
            if v == stack then Some(Hit(v, true, true, false, false))
            else if v in vpages then Some(Hit(v, false, true, true, false)) else None
  {
    var pages := IdentityPages(vpages);
    assert DropLast(pages + [StackPage(stack)]) == pages;
    IdentityFound(vpages, v);
  }

  lemma {:induction false} IdentityFound(vpages: seq<nat>, v: nat)
    ensures Lookup(IdentityPages(vpages), v) == if v in vpages then Some(Hit(v, false, true, true, false)) else None
  {
    if vpages != [] {
      IdentityFound(DropLast(vpages), v);
      assert DropLast(IdentityPages(vpages)) == IdentityPages(DropLast(vpages));
      assert vpages == DropLast(vpages) + [Last(vpages)];
    }
  }

  function StackPage(stack: nat): Page { Page(stack, stack, true, false) }

  // ----- Reading rights back -----

  /** Every level of the walk, up to the first absent entry, is a table. */
  predicate TablesOn(mem: Mem, f: nat, path: seq<nat>)
    decreases |path|
  {
    path != [] && IsTable(mem, f) && path[0] < ENTRIES
    && (|path| > 1 && mem[f].entries[path[0]].present ==> TablesOn(mem, mem[f].entries[path[0]].addr, path[1..]))
  }

  /** The writable and executable bits of the last entry, whatever the entries above it say. */
  function RawFlags(mem: Mem, f: nat, path: seq<nat>): Option<(bool, bool)>
    requires TablesOn(mem, f, path)
    decreases |path|
  {
    var e := mem[f].entries[path[0]];
    if !e.present then None
    else if |path| == 1 then Some((e.writable, !e.noExec))
    else RawFlags(mem, e.addr, path[1..])
  }

  predicate NoHuge(mem: Mem, f: nat, path: seq<nat>)
    requires TablesOn(mem, f, path)
    decreases |path|
  {
    var e := mem[f].entries[path[0]];
    |path| > 1 && e.present ==> !IsLeaf(e, |path|) && NoHuge(mem, e.addr, path[1..])
  }

  /** No entry above the last one takes a right away that the last one grants. */
  predicate Granted(mem: Mem, f: nat, path: seq<nat>, flags: (bool, bool))
    requires TablesOn(mem, f, path)
    decreases |path|
  {
    var e := mem[f].entries[path[0]];
    |path| > 1 && e.present ==>
      (flags.0 ==> e.writable) && (flags.1 ==> !e.noExec) && Granted(mem, e.addr, path[1..], flags)
  }

  /** `debug_read_pte_flags`: the bits of the last entry, read level by level. */
  method ReadFlags(mem: Memory, root: nat, vpage: nat) returns (flags: Option<(bool, bool)>)
    requires TablesOn(mem.frames, root, Indices(vpage))
    ensures flags == RawFlags(mem.frames, root, Indices(vpage))
  {
    hide Indices, TablesOn, RawFlags;
    var ix := Indices(vpage);
    assert ix[1..][1..] == ix[2..] && ix[2..][1..] == [ix[3]];
    RawStep(mem.frames, root, ix);
    var e4 := mem.frames[root].entries[ix[0]];
    if !e4.present { return None; }
    RawStep(mem.frames, e4.addr, ix[1..]);
    var e3 := mem.frames[e4.addr].entries[ix[1]];
    if !e3.present { return None; }
    RawStep(mem.frames, e3.addr, ix[2..]);
    var e2 := mem.frames[e3.addr].entries[ix[2]];
    if !e2.present { return None; }
    RawStep(mem.frames, e2.addr, [ix[3]]);
    var e1 := mem.frames[e2.addr].entries[ix[3]];
    if !e1.present { return None; }
    flags := Some((e1.writable, !e1.noExec));
  }

  lemma RawStep(mem: Mem, f: nat, path: seq<nat>)
    requires TablesOn(mem, f, path)
    ensures path != [] && IsTable(mem, f) && path[0] < ENTRIES
    ensures var e := mem[f].entries[path[0]];
            RawFlags(mem, f, path) ==
            if !e.present then None
            else if |path| == 1 then Some((e.writable, !e.noExec))
            else assert TablesOn(mem, e.addr, path[1..]); RawFlags(mem, e.addr, path[1..])
    ensures |path| > 1 && mem[f].entries[path[0]].present ==> TablesOn(mem, mem[f].entries[path[0]].addr, path[1..])
  {
  }

  /** Without huge pages, they are the rights the hardware applies exactly if no level above takes one away. */
  lemma {:induction false} FlagsAreRightsIff(mem: Mem, f: nat, path: seq<nat>)
    requires TablesOn(mem, f, path) && NoHuge(mem, f, path)
    ensures Walk(mem, f, path).None? <==> RawFlags(mem, f, path).None?
    ensures RawFlags(mem, f, path).Some? ==>
              var (h, flags) := (Walk(mem, f, path).value, RawFlags(mem, f, path).value);
              && (h.writable ==> flags.0) && (h.executable ==> flags.1)
              && ((h.writable, h.executable) == flags <==> Granted(mem, f, path, flags))
    decreases |path|
  {
    var e := mem[f].entries[path[0]];
    if e.present && |path| > 1 {
      FlagsAreRightsIff(mem, e.addr, path[1..]);
    }
  }

  lemma {:induction false} OpenPath(mem: Mem, labels: Labels, f: nat, path: seq<nat>)
    requires Tree(mem, labels, USER_HALF) && Permissive(mem, labels, USER_HALF)
    requires f in labels && path != [] && |labels[f]| + |path| == 4 && InTree(labels[f], path[0], USER_HALF)
    requires forall i :: 0 <= i < |path| ==> path[i] < ENTRIES
    ensures TablesOn(mem, f, path) && NoHuge(mem, f, path)
    ensures forall flags :: Granted(mem, f, path, flags)
    decreases |path|
  {
    assert Node(mem, labels, USER_HALF, f);
    var e := mem[f].entries[path[0]];
    if e.present && |path| > 1 {
      assert Open(e) && Interior(labels[f], e);
      OpenPath(mem, labels, e.addr, path[1..]);
    }
  }

  /** In a user table they are the rights the hardware applies, on the whole lower half. */
  lemma UserFlagsAreRights(mem: Mem, labels: Labels, root: nat, vpage: nat)
    requires Tree(mem, labels, USER_HALF) && Permissive(mem, labels, USER_HALF)
    requires root in labels && labels[root] == [] && vpage < USER_PAGES
    ensures TablesOn(mem, root, Indices(vpage))
    ensures RawFlags(mem, root, Indices(vpage)) ==
            match Translate(mem, root, vpage)
            case None => None
            case Some(h) => Some((h.writable, h.executable))
  {
    hide Indices, Tree, Permissive, Walk, RawFlags;
    OpenPath(mem, labels, root, Indices(vpage));
    FlagsAreRightsIff(mem, root, Indices(vpage));
  }
}
