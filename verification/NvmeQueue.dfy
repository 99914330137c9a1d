/**
 One NVMe submission and completion queue pair (kernel/src/drivers/nvme.rs) between the driver and a
 controller that behaves as sections 4.1 and 4.6 of the NVM Express Base Specification, revision 1.4.
 The steps: the driver submits, polls or gives up; the controller fetches a command or posts a completion,
 in any order and at any time, but never into a full completion queue.
 */
module NvmeQueue {
  import opened Prelude
  import opened NvmeCommands
  import opened NvmeDevice

  // ----- Positions in a ring of `d` slots -----

  /** The slot of the `c`-th entry; see `SlotIsRemainder`. */
  function Slot(c: nat, d: nat): (i: nat)
    requires d > 0
    ensures i < d
  {
    if c < d then c else Slot(c - d, d)
  }

  /** The phase bit of the `c`-th completion: set on the first pass over the ring, then every other one. */
  predicate PassPhase(c: nat, d: nat)
    requires d > 0
  {
    c < d || !PassPhase(c - d, d)
  }

  /** `(i + 1) % depth`, on the driver's and the controller's own indices. */
  function Inc(i: nat, d: nat): nat
    requires d > 0
  {
    (i + 1) % d
  }

  lemma IncIs(i: nat, d: nat)
    requires i < d
    ensures Inc(i, d) == if i + 1 == d then 0 else i + 1
  {
  }

  lemma {:induction false} Advance(c: nat, d: nat)
    requires d > 1
    ensures Slot(c + 1, d) == Inc(Slot(c, d), d)
    ensures PassPhase(c + 1, d) == if Slot(c + 1, d) == 0 then !PassPhase(c, d) else PassPhase(c, d)
  {
    hide Inc;
    if c < d {
      IncIs(c, d);
    } else {
      Advance(c - d, d);
    }
  }

  lemma OnePassLater(c: nat, d: nat)
    requires d > 0
    ensures Slot(c + d, d) == Slot(c, d) && PassPhase(c + d, d) == !PassPhase(c, d)
  {
  }

  lemma {:induction false} SlotsApart(a: nat, b: nat, d: nat)
    requires d > 0 && a < b < a + d
    ensures Slot(a, d) != Slot(b, d)
  {
    if a >= d {
      SlotsApart(a - d, b - d, d);
    }
  }

  /** `u16` arithmetic on command identifiers. */
  function Wrap16(n: nat): nat { n % U16 }

  lemma WrapNext(n: nat)
    ensures Wrap16(Wrap16(n) + 1) == Wrap16(n + 1)
  {
  }

  /** Slot and phase are the count modulo the depth and the parity of completed passes. */
  lemma {:induction false} SlotIsRemainder(c: nat, d: nat)
    requires d > 0
    ensures Slot(c, d) == c % d && (PassPhase(c, d) <==> c / d % 2 == 0)
  {
    if c < d {
      DivUnique(c, d, 0, c);
    } else {
      SlotIsRemainder(c - d, d);
      Division(c - d, d);
      var q := (c - d) / d;
      assert d * (q + 1) == d * q + d;
      DivUnique(c, d, q + 1, (c - d) % d);
    }
  }

  // ----- State -----

  /** What a controller does with a command; `choice` lets it do anything. */
  type Controller = (World, Command, nat) -> Effect

  /** The driver's fields; `waiting` while a call is in progress. */
  datatype Host = Host(sqTail: nat, cqHead: nat, phase: bool, nextCid: nat, waiting: bool)

  /** A fetched command not yet completed, with its place in the order of submission. */
  datatype Job = Job(idx: nat, cmd: Command)

  datatype Device = Device(sqHead: nat, cqTail: nat, phase: bool, jobs: seq<Job>, world: World)

  datatype Done = Done(idx: nat, entry: Completion)

  /** Everything that happened on the pair. */
  datatype Log = Log(submitted: seq<Command>, fetched: nat, posted: seq<Done>, consumed: nat, timeouts: nat)

  /** The two rings in memory, their two users, and the log. */
  datatype Link = Link(depth: nat, sq: seq<seq<byte>>, cq: seq<Completion>, host: Host, dev: Device, log: Log)

  /** Rings zeroed, first pass posts with the phase bit set. */
  function Start(depth: nat, w: World): Link {
    Link(depth, seq(depth, _ => seq(COMMAND_BYTES, _ => 0)), seq(depth, _ => Completion(0, 0)),
         Host(0, 0, true, 0, false), Device(0, 0, true, [], w), Log([], 0, [], 0, 0))
  }

  ghost predicate Sized(s: Link) {
    && s.depth >= 2 && |s.sq| == s.depth && |s.cq| == s.depth
    && (forall i :: 0 <= i < s.depth ==> |s.sq[i]| == COMMAND_BYTES)
    && s.host.sqTail < s.depth && s.host.cqHead < s.depth && s.dev.sqHead < s.depth && s.dev.cqTail < s.depth
    && (s.host.waiting ==> s.log.submitted != [])
  }

  /** The entry under `cq_head` carries the phase bit the driver expects. */
  predicate SeesEntry(s: Link)
    requires s.host.cqHead < |s.cq|
  {
    PhaseOf(s.cq[s.host.cqHead]) == s.host.phase
  }

  datatype Reply = Success(dw0: nat) | UnexpectedCid | CommandFailed(sct: nat, sc: nat) | CommandTimeout

  /** What the driver makes of an entry while waiting for `cid`. */
  function Judge(e: Completion, cid: nat): Reply {
    if CidOf(e) != cid then UnexpectedCid
    else if ScOf(e) != 0 || SctOf(e) != 0 then CommandFailed(SctOf(e), ScOf(e))
    else Success(e.dw0)
  }

  /** The reply a poll now gives. */
  ghost function Answer(s: Link): Reply
    requires Sized(s) && s.host.waiting
  {
    Judge(s.cq[s.host.cqHead], Last(s.log.submitted).cid)
  }

  datatype Action = Submit(b: seq<byte>) | Poll | GiveUp | Fetch | Post(job: nat, choice: nat)

  ghost predicate Enabled(s: Link, a: Action)
    requires Sized(s)
  {
    match a
    case Submit(b) => !s.host.waiting && |b| == COMMAND_BYTES && Decode(b).cid == s.host.nextCid
    case Poll => s.host.waiting && SeesEntry(s)
    case GiveUp => s.host.waiting
    case Fetch => s.dev.sqHead != s.host.sqTail
    case Post(j, _) => j < |s.dev.jobs| && Inc(s.dev.cqTail, s.depth) != s.host.cqHead
  }

  function SubmitStep(s: Link, b: seq<byte>): Link
    requires s.depth > 0 && s.host.sqTail < |s.sq| && |b| == COMMAND_BYTES
  {
    s.(sq := s.sq[s.host.sqTail := b],
       host := s.host.(sqTail := Inc(s.host.sqTail, s.depth), nextCid := Wrap16(s.host.nextCid + 1), waiting := true),
       log := s.log.(submitted := s.log.submitted + [Decode(b)]))
  }

  function PollStep(s: Link): Link
    requires s.depth > 0
  {
    var head := Inc(s.host.cqHead, s.depth);
    s.(host := s.host.(cqHead := head, phase := if head == 0 then !s.host.phase else s.host.phase, waiting := false),
       log := s.log.(consumed := s.log.consumed + 1))
  }

  function GiveUpStep(s: Link): Link {
    s.(host := s.host.(waiting := false), log := s.log.(timeouts := s.log.timeouts + 1))
  }

  function FetchStep(s: Link): Link
    requires s.depth > 0 && s.dev.sqHead < |s.sq| && |s.sq[s.dev.sqHead]| == COMMAND_BYTES
  {
    s.(dev := s.dev.(sqHead := Inc(s.dev.sqHead, s.depth),
                     jobs := s.dev.jobs + [Job(s.log.fetched, Decode(s.sq[s.dev.sqHead]))]),
       log := s.log.(fetched := s.log.fetched + 1))
  }

  function PostStep(ctl: Controller, s: Link, j: nat, choice: nat): Link
    requires s.depth > 0 && s.dev.cqTail < |s.cq| && j < |s.dev.jobs|
  {
    var job := s.dev.jobs[j];
    var e := ctl(s.dev.world, job.cmd, choice);
    var entry := PostedEntry(job.cmd.cid, s.dev.phase, e.status, e.dw0);
    var tail := Inc(s.dev.cqTail, s.depth);
    s.(cq := s.cq[s.dev.cqTail := entry],
       dev := s.dev.(cqTail := tail, phase := if tail == 0 then !s.dev.phase else s.dev.phase,
                     jobs := s.dev.jobs[..j] + s.dev.jobs[j + 1..], world := e.world),
       log := s.log.(posted := s.log.posted + [Done(job.idx, entry)]))
  }

  ghost function Next(ctl: Controller, s: Link, a: Action): Link
    requires Sized(s) && Enabled(s, a)
  {
    match a
    case Submit(b) => SubmitStep(s, b)
    case Poll => PollStep(s)
    case GiveUp => GiveUpStep(s)
    case Fetch => FetchStep(s)
    case Post(j, choice) => PostStep(ctl, s, j, choice)
  }

  // ----- Lockstep: holds with any number of timeouts -----

  ghost predicate Counters(s: Link) {
    && Sized(s)
    && s.host.sqTail == Slot(|s.log.submitted|, s.depth) && s.host.nextCid == Wrap16(|s.log.submitted|)
    && s.host.cqHead == Slot(s.log.consumed, s.depth) && s.host.phase == PassPhase(s.log.consumed, s.depth)
    && s.dev.sqHead == Slot(s.log.fetched, s.depth)
    && s.dev.cqTail == Slot(|s.log.posted|, s.depth) && s.dev.phase == PassPhase(|s.log.posted|, s.depth)
    && s.log.consumed <= |s.log.posted| < s.log.consumed + s.depth
    && |s.log.submitted| == s.log.consumed + s.log.timeouts + (if s.host.waiting then 1 else 0)
    && |s.dev.jobs| + |s.log.posted| == s.log.fetched
  }

  /** The completion ring: the last `depth` posted entries, with their phase; slots never used still read zero. */
  ghost predicate Posted(depth: nat, cq: seq<Completion>, posted: seq<Done>) {
    && |cq| == depth && depth > 0
    && (forall k :: 0 <= k < |posted| && |posted| - depth <= k ==>
          cq[Slot(k, depth)] == posted[k].entry && PhaseOf(posted[k].entry) == PassPhase(k, depth))
    && (forall i :: |posted| <= i < depth ==> !PhaseOf(cq[i]))
  }

  ghost predicate Lockstep(s: Link) {
    Counters(s) && Posted(s.depth, s.cq, s.log.posted)
  }

  /** The driver sees an entry exactly when a posted one is unread, and then it is the oldest unread one. */
  lemma SeesExactlyUnread(s: Link)
    requires Lockstep(s)
    ensures SeesEntry(s) <==> s.log.consumed < |s.log.posted|
    ensures SeesEntry(s) ==> s.cq[s.host.cqHead] == s.log.posted[s.log.consumed].entry
  {
    var c, d := s.log.consumed, s.depth;
    if c == |s.log.posted| {
      if c >= d {
        OnePassLater(c - d, d);
        assert s.cq[Slot(c - d, d)] == s.log.posted[c - d].entry;
      }
    } else {
      assert s.cq[Slot(c, d)] == s.log.posted[c].entry;
    }
  }

  lemma StartLockstep(depth: nat, w: World)
    requires depth >= 2
    ensures Lockstep(Start(depth, w))
  {
  }

  lemma PostedGrows(depth: nat, cq: seq<Completion>, posted: seq<Done>, x: Done)
    requires Posted(depth, cq, posted) && PhaseOf(x.entry) == PassPhase(|posted|, depth)
    ensures Posted(depth, cq[Slot(|posted|, depth) := x.entry], posted + [x])
  {
    var n := |posted|;
    var cq' := cq[Slot(n, depth) := x.entry];
    forall k | 0 <= k < n + 1 && n + 1 - depth <= k
      ensures cq'[Slot(k, depth)] == (posted + [x])[k].entry && PhaseOf((posted + [x])[k].entry) == PassPhase(k, depth)
    {
      if k < n {
        SlotsApart(k, n, depth);
      }
    }
    forall i | n + 1 <= i < depth ensures !PhaseOf(cq'[i]) {
    }
  }

  lemma PostKeepsLockstep(ctl: Controller, s: Link, j: nat, choice: nat)
    requires Lockstep(s) && Enabled(s, Post(j, choice)) && Answers(ctl) && JobCids(s)
    ensures Lockstep(PostStep(ctl, s, j, choice))
  {
    hide Posted, PostedEntry, PhaseOf;
    var n, job := |s.log.posted|, s.dev.jobs[j];
    var e := ctl(s.dev.world, job.cmd, choice);
    EntryReadsBack(job.cmd.cid, s.dev.phase, e.status, e.dw0);
    Advance(n, s.depth);
    if n == s.log.consumed + s.depth - 1 {
      OnePassLater(s.log.consumed, s.depth);
    }
    PostedGrows(s.depth, s.cq, s.log.posted, Done(job.idx, PostedEntry(job.cmd.cid, s.dev.phase, e.status, e.dw0)));
  }

  /** A controller reports well-formed status fields. */
  ghost predicate Answers(ctl: Controller) {
    forall w, c, choice :: StatusOk(ctl(w, c, choice).status)
  }

  /** Command identifiers are 16 bits wide. */
  ghost predicate JobCids(s: Link) {
    forall j :: 0 <= j < |s.dev.jobs| ==> s.dev.jobs[j].cmd.cid < U16
  }

  lemma CidFits(b: seq<byte>)
    requires |b| == COMMAND_BYTES
    ensures Decode(b).cid < U16
  {
    assert Little(b, 2, 2) == b[2] + 256 * (b[3] + 256 * Little(b, 4, 0));
  }

  lemma SubmitKeepsLockstep(s: Link, b: seq<byte>)
    requires Lockstep(s) && Enabled(s, Submit(b))
    ensures Lockstep(SubmitStep(s, b))
  {
    hide Posted, Decode, PassPhase, Slot, Wrap16;
    Advance(|s.log.submitted|, s.depth);
    WrapNext(|s.log.submitted|);
  }

  lemma PollKeepsLockstep(s: Link)
    requires Lockstep(s) && Enabled(s, Poll)
    ensures Lockstep(PollStep(s))
  {
    hide Posted, PassPhase, Slot;
    SeesExactlyUnread(s);
    Advance(s.log.consumed, s.depth);
  }

  lemma FetchKeepsLockstep(s: Link)
    requires Lockstep(s) && Enabled(s, Fetch) && JobCids(s)
    ensures Lockstep(FetchStep(s)) && JobCids(FetchStep(s))
  {
    hide Posted, Decode, PassPhase, Slot;
    Advance(s.log.fetched, s.depth);
    CidFits(s.sq[s.dev.sqHead]);
  }

  lemma LockstepStep(ctl: Controller, s: Link, a: Action)
    requires Lockstep(s) && JobCids(s) && Enabled(s, a) && Answers(ctl)
    ensures Lockstep(Next(ctl, s, a)) && JobCids(Next(ctl, s, a))
  {
    hide Lockstep, Decode;
    match a
    case Submit(b) => SubmitKeepsLockstep(s, b);
    case Poll => PollKeepsLockstep(s);
    case GiveUp => GiveUpKeepsLockstep(s);
    case Fetch => FetchKeepsLockstep(s);
    case Post(j, choice) => PostKeepsLockstep(ctl, s, j, choice);
  }

  lemma GiveUpKeepsLockstep(s: Link)
    requires Lockstep(s) && s.host.waiting
    ensures Lockstep(GiveUpStep(s))
  {
    hide Posted, PassPhase, Slot;
  }

  // ----- Faithfulness: while at most depth - 2 calls timed out -----

  /**
   Commands written but not fetched are still in their slots; everything fetched, worked on or completed
   is a submitted command, each once; the controller is never a full ring behind.
   */
  ghost predicate Faithful(s: Link)
    requires Sized(s)
  {
    && s.log.fetched <= |s.log.submitted| < s.log.consumed + s.depth
    && SlotsKept(s.depth, s.sq, s.log.fetched, s.log.submitted)
    && (forall k :: 0 <= k < |s.log.submitted| ==> s.log.submitted[k].cid == Wrap16(k))
    && JobsOk(s.dev.jobs, s.log.submitted, s.log.fetched) && DoneOk(s.log.posted, s.log.submitted, s.log.fetched)
    && (forall j, p :: 0 <= j < |s.dev.jobs| && 0 <= p < |s.log.posted| ==> s.dev.jobs[j].idx != s.log.posted[p].idx)
  }

  ghost predicate SlotsKept(depth: nat, sq: seq<seq<byte>>, fetched: nat, submitted: seq<Command>)
    requires depth > 0 && |sq| == depth && forall i :: 0 <= i < depth ==> |sq[i]| == COMMAND_BYTES
  {
    forall k :: fetched <= k < |submitted| ==> Decode(sq[Slot(k, depth)]) == submitted[k]
  }

  ghost predicate JobsOk(jobs: seq<Job>, submitted: seq<Command>, fetched: nat) {
    && fetched <= |submitted|
    && (forall j :: 0 <= j < |jobs| ==> jobs[j].idx < fetched && jobs[j].cmd == submitted[jobs[j].idx])
    && forall i, j :: 0 <= i < j < |jobs| ==> jobs[i].idx != jobs[j].idx
  }

  ghost predicate DoneOk(posted: seq<Done>, submitted: seq<Command>, fetched: nat) {
    && fetched <= |submitted|
    && (forall p :: 0 <= p < |posted| ==>
          posted[p].idx < fetched && CidOf(posted[p].entry) == submitted[posted[p].idx].cid)
    && forall p, q :: 0 <= p < q < |posted| ==> posted[p].idx != posted[q].idx
  }

  /** The controller finds work exactly while the commands it has not fetched number 1 to depth - 1. */
  lemma FetchableIff(s: Link)
    requires Counters(s) && s.log.fetched <= |s.log.submitted| <= s.log.fetched + s.depth
    ensures Enabled(s, Fetch) <==> 0 < |s.log.submitted| - s.log.fetched < s.depth
  {
    hide PassPhase, Slot, Wrap16;
    var f, n := s.log.fetched, |s.log.submitted|;
    if n == f + s.depth {
      OnePassLater(f, s.depth);
    } else if f < n {
      SlotsApart(f, n, s.depth);
    }
  }

  lemma SubmitKeepsSlots(s: Link, b: seq<byte>)
    requires Counters(s) && Enabled(s, Submit(b)) && SlotsKept(s.depth, s.sq, s.log.fetched, s.log.submitted)
    requires s.log.consumed <= s.log.fetched && |s.log.submitted| + 1 < s.log.consumed + s.depth
    ensures var s' := SubmitStep(s, b); SlotsKept(s'.depth, s'.sq, s'.log.fetched, s'.log.submitted)
  {
    hide PassPhase, Slot, Wrap16, Decode;
    var s' := SubmitStep(s, b);
    forall k | s'.log.fetched <= k < |s'.log.submitted| ensures Decode(s'.sq[Slot(k, s.depth)]) == s'.log.submitted[k] {
      if k < |s.log.submitted| {
        SlotsApart(k, |s.log.submitted|, s.depth);
        assert Decode(s.sq[Slot(k, s.depth)]) == s.log.submitted[k];
      }
    }
  }

  lemma SubmitKeepsFaithful(s: Link, b: seq<byte>)
    requires Lockstep(s) && Faithful(s) && Enabled(s, Submit(b)) && s.log.timeouts <= s.depth - 2
    ensures Sized(SubmitStep(s, b)) && Faithful(SubmitStep(s, b))
  {
    hide Posted, PassPhase, Slot, Wrap16, Decode, SlotsKept;
    SubmitKeepsSlots(s, b);
    SubmitKeepsLockstep(s, b);
  }

  lemma FetchKeepsFaithful(s: Link)
    requires Lockstep(s) && Faithful(s) && Enabled(s, Fetch)
    ensures Sized(FetchStep(s)) && Faithful(FetchStep(s))
  {
    hide Posted, PassPhase, Slot, Wrap16, Decode;
    FetchableIff(s);
    Advance(s.log.fetched, s.depth);
    assert Decode(s.sq[Slot(s.log.fetched, s.depth)]) == s.log.submitted[s.log.fetched];
  }

  lemma PostKeepsFaithful(ctl: Controller, s: Link, j: nat, choice: nat)
    requires Lockstep(s) && Faithful(s) && Enabled(s, Post(j, choice)) && Answers(ctl) && JobCids(s)
    ensures Sized(PostStep(ctl, s, j, choice)) && Faithful(PostStep(ctl, s, j, choice))
  {
    hide Posted, PassPhase, Slot, Wrap16, Decode, SlotsKept, PostedEntry, CidOf, PhaseOf;
    var s', job := PostStep(ctl, s, j, choice), s.dev.jobs[j];
    var e := ctl(s.dev.world, job.cmd, choice);
    EntryReadsBack(job.cmd.cid, s.dev.phase, e.status, e.dw0);
    forall i | 0 <= i < |s'.dev.jobs| ensures s'.dev.jobs[i] == s.dev.jobs[if i < j then i else i + 1] {
    }
    assert JobsOk(s'.dev.jobs, s'.log.submitted, s'.log.fetched);
    assert DoneOk(s'.log.posted, s'.log.submitted, s'.log.fetched);
  }

  lemma LockstepSized(s: Link)
    requires Lockstep(s)
    ensures Sized(s)
  {
  }

  lemma FaithfulStep(ctl: Controller, s: Link, a: Action)
    requires Lockstep(s) && JobCids(s) && Faithful(s) && Enabled(s, a) && Answers(ctl)
    requires a.Submit? ==> s.log.timeouts <= s.depth - 2
    ensures Sized(Next(ctl, s, a)) && Faithful(Next(ctl, s, a))
  {
    hide Lockstep, Decode, JobsOk, DoneOk, SlotsKept, SeesEntry, Wrap16;
    LockstepStep(ctl, s, a);
    LockstepSized(s);
    LockstepSized(Next(ctl, s, a));
    match a
    case Submit(b) => SubmitKeepsFaithful(s, b);
    case Poll =>
    case GiveUp =>
    case Fetch => FetchKeepsFaithful(s);
    case Post(j, choice) => PostKeepsFaithful(ctl, s, j, choice);
  }

  // ----- Runs -----

  ghost predicate StepOf(ctl: Controller, s: Link, a: Action, s': Link) {
    Sized(s) && Enabled(s, a) && s' == Next(ctl, s, a)
  }

  ghost predicate IsRun(ctl: Controller, ss: seq<Link>, acts: seq<Action>) {
    && |ss| == |acts| + 1 && ss[0].depth >= 2 && ss[0] == Start(ss[0].depth, ss[0].dev.world)
    && forall i :: 0 <= i < |acts| ==> StepOf(ctl, ss[i], acts[i], ss[i + 1])
  }

  /** No command is submitted after more than depth - 2 calls timed out. */
  ghost predicate FewTimeouts(ss: seq<Link>, acts: seq<Action>)
    requires |ss| == |acts| + 1
  {
    forall i :: 0 <= i < |acts| && acts[i].Submit? ==> ss[i].log.timeouts <= ss[i].depth - 2
  }

  lemma {:induction false} RunLockstep(ctl: Controller, ss: seq<Link>, acts: seq<Action>, i: nat)
    requires IsRun(ctl, ss, acts) && Answers(ctl) && i <= |acts|
    ensures Lockstep(ss[i]) && JobCids(ss[i])
  {
    hide Lockstep, Enabled, Next, Answers, Start;
    if i == 0 {
      StartLockstep(ss[0].depth, ss[0].dev.world);
      StartIdle(ss[0].depth, ss[0].dev.world);
    } else {
      RunLockstep(ctl, ss, acts, i - 1);
      assert StepOf(ctl, ss[i - 1], acts[i - 1], ss[i - 1 + 1]);
      LockstepStep(ctl, ss[i - 1], acts[i - 1]);
    }
  }

  lemma StartIdle(depth: nat, w: World)
    requires depth >= 2
    ensures Sized(Start(depth, w)) && JobCids(Start(depth, w)) && Faithful(Start(depth, w))
  {
  }

  lemma {:induction false} RunFaithful(ctl: Controller, ss: seq<Link>, acts: seq<Action>, i: nat)
    requires IsRun(ctl, ss, acts) && Answers(ctl) && FewTimeouts(ss, acts) && i <= |acts|
    ensures Lockstep(ss[i]) && Faithful(ss[i])
  {
    hide Lockstep, Faithful, Enabled, Next, Answers, Start;
    RunLockstep(ctl, ss, acts, i);
    if i == 0 {
      StartIdle(ss[0].depth, ss[0].dev.world);
    } else {
      RunFaithful(ctl, ss, acts, i - 1);
      RunLockstep(ctl, ss, acts, i - 1);
      assert StepOf(ctl, ss[i - 1], acts[i - 1], ss[i - 1 + 1]);
      FaithfulStep(ctl, ss[i - 1], acts[i - 1]);
    }
  }

  /**
   With any controller, any timeouts and any schedule: head, tail and phase are the counts modulo the depth
   and the parity of completed passes, the driver sees an entry exactly when one is posted and unread, it is
   the oldest unread one, and submitted minus consumed is the number of timeouts (plus the call in progress).
   */
  lemma NoStaleEntry(ctl: Controller, ss: seq<Link>, acts: seq<Action>, i: nat)
    requires IsRun(ctl, ss, acts) && Answers(ctl) && i <= |acts|
    ensures var s := ss[i];
            && Counters(s)
            && (SeesEntry(s) <==> s.log.consumed < |s.log.posted|)
            && (SeesEntry(s) ==> s.cq[s.host.cqHead] == s.log.posted[s.log.consumed].entry)
  {
    hide Start, StepOf;
    RunLockstep(ctl, ss, acts, i);
    SeesExactlyUnread(ss[i]);
  }

  // ----- Whose completion is it? -----

  /** Submission `k` has no completion the driver consumed. */
  ghost predicate Outstanding(s: Link, k: nat)
    requires s.log.consumed <= |s.log.posted|
  {
    k < |s.log.submitted| && forall p :: 0 <= p < s.log.consumed ==> s.log.posted[p].idx != k
  }

  /** No outstanding command is 2^16 or more submissions old, so identifiers tell them apart. */
  ghost predicate Recent(s: Link)
    requires s.log.consumed <= |s.log.posted|
  {
    forall k: nat :: Outstanding(s, k) ==> |s.log.submitted| - 1 - k < U16
  }

  /**
   With late, lost or reordered completions, as long as at most depth - 2 calls timed out: the reply is
   UnexpectedCid exactly when the entry is another command's, and otherwise it is this command's own status.
   */
  lemma ReplyIsOwn(s: Link)
    requires Lockstep(s) && Faithful(s) && s.host.waiting && SeesEntry(s) && Recent(s)
    ensures s.log.consumed < |s.log.posted|
    ensures var done, own := s.log.posted[s.log.consumed], |s.log.submitted| - 1;
            && Outstanding(s, done.idx)
            && (Answer(s) != UnexpectedCid <==> done.idx == own)
            && (Answer(s).Success? <==> done.idx == own && SctOf(done.entry) == 0 && ScOf(done.entry) == 0)
            && (Answer(s).Success? ==> Answer(s).dw0 == done.entry.dw0)
            && (done.idx == own && !Answer(s).Success? ==>
                  Answer(s).CommandFailed? && Answer(s).sct == SctOf(done.entry) && Answer(s).sc == ScOf(done.entry))
  {
    hide Posted, PassPhase, Slot, SlotsKept, Decode, CidOf, SctOf, ScOf, PhaseOf;
    SeesExactlyUnread(s);
    var done, own := s.log.posted[s.log.consumed], |s.log.submitted| - 1;
    assert Outstanding(s, done.idx);
    if done.idx != own {
      RemaindersDiffer(done.idx, own, U16);
    }
  }

  /** The same in every run with at most depth - 2 timeouts. */
  lemma OkIsOwnInEveryRun(ctl: Controller, ss: seq<Link>, acts: seq<Action>, i: nat)
    requires IsRun(ctl, ss, acts) && Answers(ctl) && FewTimeouts(ss, acts) && i < |acts|
    requires acts[i] == Poll
    ensures ss[i].log.consumed < |ss[i].log.posted|
    ensures Sized(ss[i]) && ss[i].host.waiting
    ensures Recent(ss[i]) ==>
              var done, own := ss[i].log.posted[ss[i].log.consumed], |ss[i].log.submitted| - 1;
              && (Answer(ss[i]) != UnexpectedCid <==> done.idx == own)
              && (Answer(ss[i]).Success? <==> done.idx == own && SctOf(done.entry) == 0 && ScOf(done.entry) == 0)
  {
    hide Lockstep, Faithful, Start, Next, Recent, Answer, SctOf, ScOf;
    RunFaithful(ctl, ss, acts, i);
    assert StepOf(ctl, ss[i], acts[i], ss[i + 1]);
    SeesExactlyUnread(ss[i]);
    if Recent(ss[i]) {
      ReplyIsOwn(ss[i]);
    }
  }

  // ----- A controller that completes in order -----

  ghost predicate InOrder(s: Link) {
    && (forall p :: 0 <= p < |s.log.posted| ==> s.log.posted[p].idx == p)
    && forall j :: 0 <= j < |s.dev.jobs| ==> s.dev.jobs[j].idx == |s.log.posted| + j
  }

  lemma {:induction false} RunInOrder(ctl: Controller, ss: seq<Link>, acts: seq<Action>, i: nat)
    requires IsRun(ctl, ss, acts) && Answers(ctl) && i <= |acts|
    requires forall j :: 0 <= j < |acts| && acts[j].Post? ==> acts[j].job == 0
    ensures InOrder(ss[i])
  {
    hide Lockstep, Decode, Answers, PostedEntry, SeesEntry;
    if i > 0 {
      RunInOrder(ctl, ss, acts, i - 1);
      RunLockstep(ctl, ss, acts, i - 1);
      assert StepOf(ctl, ss[i - 1], acts[i - 1], ss[i - 1 + 1]);
      JobsCount(ss[i - 1]);
    }
  }

  lemma JobsCount(s: Link)
    requires Lockstep(s)
    ensures |s.dev.jobs| + |s.log.posted| == s.log.fetched
  {
  }

  /**
   A controller that completes commands in order: once one call timed out, no later call is answered with
   its own completion. A poll that finds an entry replies UnexpectedCid exactly when some call timed out before.
   */
  lemma TimeoutDesynchronises(ctl: Controller, ss: seq<Link>, acts: seq<Action>, i: nat)
    requires IsRun(ctl, ss, acts) && Answers(ctl) && FewTimeouts(ss, acts) && i < |acts|
    requires forall j :: 0 <= j < |acts| && acts[j].Post? ==> acts[j].job == 0
    requires acts[i] == Poll && ss[i].depth < U16
    ensures Sized(ss[i]) && ss[i].host.waiting
    ensures Answer(ss[i]) == UnexpectedCid <==> ss[i].log.timeouts > 0
  {
    hide Posted, Start, Next, Recent, Answer, PassPhase, Slot, Wrap16, SlotsKept, DoneOk, JobsOk, PhaseOf;
    RunFaithful(ctl, ss, acts, i);
    RunInOrder(ctl, ss, acts, i);
    assert StepOf(ctl, ss[i], acts[i], ss[i + 1]);
    var s := ss[i];
    OrderedRecent(s);
    ReplyIsOwn(s);
    SeesExactlyUnread(s);
  }

  lemma OrderedRecent(s: Link)
    requires Lockstep(s) && Faithful(s) && InOrder(s) && s.depth < U16
    ensures Recent(s)
  {
    hide Posted, PassPhase, Slot, Wrap16, SlotsKept, DoneOk, JobsOk, PhaseOf;
    forall k: nat | k < s.log.consumed ensures !Outstanding(s, k) {
      assert s.log.posted[k].idx == k;
    }
  }
}
