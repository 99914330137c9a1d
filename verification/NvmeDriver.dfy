/**
 The driver's calls (kernel/src/drivers/nvme.rs): submit-and-poll on one queue pair, the two queue
 singletons, and block reads and writes. The controller acts between polls; `turns` lists, for each poll,
 what it does just before it, and the deadline passes after the last one.
 */
module NvmeDriver {
  import opened Prelude
  import opened PhysicalMemory
  import opened NvmeCommands
  import opened NvmeDevice
  import opened NvmeQueue

  type Move = a: Action | a.Fetch? || a.Post? witness Fetch

  // ----- One call, on values -----

  /** A controller move, if it is possible now. */
  ghost function Try(ctl: Controller, s: Link, m: Move): Link {
    if Sized(s) && Enabled(s, m) then Next(ctl, s, m) else s
  }

  ghost function Turn(ctl: Controller, s: Link, moves: seq<Move>): Link
    decreases |moves|
  {
    if moves == [] then s else Turn(ctl, Try(ctl, s, moves[0]), moves[1..])
  }

  /** Polling until an entry shows or the turns run out. */
  ghost function Wait(ctl: Controller, s: Link, turns: seq<seq<Move>>): (Link, Reply)
    requires turns != []
    decreases |turns|
  {
    var s1 := Turn(ctl, s, turns[0]);
    if Sized(s1) && s1.host.waiting && SeesEntry(s1) then (PollStep(s1), Answer(s1))
    else if |turns| == 1 then (GiveUpStep(s1), CommandTimeout)
    else Wait(ctl, s1, turns[1..])
  }

  ghost predicate Good(s: Link) { Lockstep(s) && JobCids(s) }

  lemma TryGood(ctl: Controller, s: Link, m: Move)
    requires Good(s) && Answers(ctl)
    ensures Good(Try(ctl, s, m)) && Try(ctl, s, m).host == s.host && Try(ctl, s, m).log.submitted == s.log.submitted
    ensures Try(ctl, s, m).depth == s.depth
  {
    hide Lockstep, JobCids;
    LockstepSized(s);
    if Enabled(s, m) {
      LockstepStep(ctl, s, m);
    }
  }

  lemma {:induction false} TurnGood(ctl: Controller, s: Link, moves: seq<Move>)
    requires Good(s) && Answers(ctl)
    ensures Good(Turn(ctl, s, moves)) && Turn(ctl, s, moves).host == s.host
    ensures Turn(ctl, s, moves).log.submitted == s.log.submitted && Turn(ctl, s, moves).depth == s.depth
    decreases |moves|
  {
    hide Good, Try;
    if moves != [] {
      TryGood(ctl, s, moves[0]);
      TurnGood(ctl, Try(ctl, s, moves[0]), moves[1..]);
    }
  }

  lemma {:induction false} TurnSubmitsNothing(ctl: Controller, s: Link, moves: seq<Move>)
    ensures Turn(ctl, s, moves).log.submitted == s.log.submitted
    decreases |moves|
  {
    if moves != [] {
      TurnSubmitsNothing(ctl, Try(ctl, s, moves[0]), moves[1..]);
    }
  }

  /** Waiting submits nothing: each call sends its one command. */
  lemma {:induction false} WaitSubmitsNothing(ctl: Controller, s: Link, turns: seq<seq<Move>>)
    requires turns != []
    ensures Wait(ctl, s, turns).0.log.submitted == s.log.submitted
    decreases |turns|
  {
    hide Turn, SeesEntry, Answer, Sized;
    TurnSubmitsNothing(ctl, s, turns[0]);
    if |turns| > 1 {
      WaitSubmitsNothing(ctl, Turn(ctl, s, turns[0]), turns[1..]);
    }
  }

  // ----- A call with nothing else outstanding -----

  ghost predicate Quiet(s: Link) {
    && Good(s) && Faithful(s) && !s.host.waiting
    && s.dev.jobs == [] && s.log.timeouts == 0
    && |s.log.submitted| == s.log.fetched == |s.log.posted| == s.log.consumed
  }

  /** The reply for a command whose execution had this effect. */
  function ReplyOf(e: Effect): Reply {
    if e.status.sc != 0 || e.status.sct != 0 then CommandFailed(e.status.sct, e.status.sc) else Success(e.dw0)
  }

  lemma ReplyIsStatus(e: Effect)
    ensures ReplyOf(e).Success? <==> e.status.sct == 0 && e.status.sc == 0
    ensures ReplyOf(e).Success? ==> ReplyOf(e).dw0 == e.dw0
    ensures !ReplyOf(e).Success? ==>
              ReplyOf(e).CommandFailed? && ReplyOf(e).sct == e.status.sct && ReplyOf(e).sc == e.status.sc
  {
  }

  /** The posted entry stands for one execution of the command in the world `w`. */
  ghost predicate Executed(ctl: Controller, w: World, cmd: Command, entry: Completion, w': World) {
    exists choice: nat :: ExecutedWith(ctl, w, cmd, choice, entry, w')
  }

  ghost predicate ExecutedWith(ctl: Controller, w: World, cmd: Command, choice: nat, entry: Completion, w': World) {
    var e := ctl(w, cmd, choice);
    && w' == e.world && CidOf(entry) == cmd.cid
    && ScOf(entry) == e.status.sc && SctOf(entry) == e.status.sct && entry.dw0 == e.dw0
  }

  /** The only outstanding command, submission `n`, is on its way: not fetched, being worked on, or completed. */
  ghost predicate Stage(ctl: Controller, w: World, cmd: Command, n: nat, dev: Device, log: Log) {
    && log.timeouts == 0 && log.consumed == n && |log.submitted| == n + 1 && log.submitted[n] == cmd
    && (|| (log.fetched == n && |log.posted| == n && dev.jobs == [] && dev.world == w)
        || (log.fetched == n + 1 && |log.posted| == n && dev.jobs == [Job(n, cmd)] && dev.world == w)
        || (log.fetched == n + 1 && |log.posted| == n + 1 && dev.jobs == []
            && Executed(ctl, w, cmd, log.posted[n].entry, dev.world)))
  }

  ghost predicate OnItsWay(ctl: Controller, w: World, cmd: Command, n: nat, s: Link) {
    Good(s) && Faithful(s) && s.host.waiting && Stage(ctl, w, cmd, n, s.dev, s.log)
  }

  lemma FetchedNext(s: Link)
    requires Lockstep(s) && Faithful(s) && Enabled(s, Fetch)
    ensures s.log.fetched < |s.log.submitted| && Decode(s.sq[s.dev.sqHead]) == s.log.submitted[s.log.fetched]
  {
    hide Posted, PassPhase, Slot, Decode, DoneOk, Wrap16;
    FetchableIff(s);
  }

  lemma FetchStage(ctl: Controller, w: World, cmd: Command, n: nat, s: Link)
    requires Good(s) && Faithful(s) && Stage(ctl, w, cmd, n, s.dev, s.log) && Enabled(s, Fetch)
    ensures Stage(ctl, w, cmd, n, FetchStep(s).dev, FetchStep(s).log)
  {
    hide Lockstep, Faithful, Decode, Executed, Enabled;
    FetchedNext(s);
  }

  lemma PostStage(ctl: Controller, w: World, cmd: Command, n: nat, s: Link, j: nat, choice: nat)
    requires Good(s) && Stage(ctl, w, cmd, n, s.dev, s.log) && Sized(s) && Enabled(s, Post(j, choice)) && Answers(ctl)
    ensures Stage(ctl, w, cmd, n, PostStep(ctl, s, j, choice).dev, PostStep(ctl, s, j, choice).log)
  {
    hide Lockstep, Executed, PostedEntry;
    ExecutedBy(ctl, w, cmd, s, j, choice);
  }

  lemma TryOnItsWay(ctl: Controller, w: World, cmd: Command, n: nat, s: Link, m: Move)
    requires OnItsWay(ctl, w, cmd, n, s) && Answers(ctl)
    ensures OnItsWay(ctl, w, cmd, n, Try(ctl, s, m))
  {
    hide Lockstep, JobCids, Faithful, Stage, Enabled;
    LockstepSized(s);
    if Enabled(s, m) {
      LockstepStep(ctl, s, m);
      FaithfulStep(ctl, s, m);
      if m.Fetch? {
        FetchStage(ctl, w, cmd, n, s);
      } else {
        PostStage(ctl, w, cmd, n, s, m.job, m.choice);
      }
    }
  }

  lemma ExecutedByChoice(ctl: Controller, w: World, cmd: Command, s: Link, j: nat, choice: nat)
    requires Sized(s) && Enabled(s, Post(j, choice)) && Answers(ctl) && JobCids(s)
    requires s.dev.world == w && s.dev.jobs[j].cmd == cmd
    ensures var s' := PostStep(ctl, s, j, choice);
            ExecutedWith(ctl, w, cmd, choice, Last(s'.log.posted).entry, s'.dev.world)
  {
    hide PostedEntry, CidOf, ScOf, SctOf, PhaseOf;
    var e := ctl(w, cmd, choice);
    EntryReadsBack(cmd.cid, s.dev.phase, e.status, e.dw0);
  }

  lemma ExecutedBy(ctl: Controller, w: World, cmd: Command, s: Link, j: nat, choice: nat)
    requires Sized(s) && Enabled(s, Post(j, choice)) && Answers(ctl) && JobCids(s)
    requires s.dev.world == w && s.dev.jobs[j].cmd == cmd
    ensures var s' := PostStep(ctl, s, j, choice); Executed(ctl, w, cmd, Last(s'.log.posted).entry, s'.dev.world)
  {
    hide PostStep, ExecutedWith;
    ExecutedByChoice(ctl, w, cmd, s, j, choice);
  }

  lemma {:induction false} TurnOnItsWay(ctl: Controller, w: World, cmd: Command, n: nat, s: Link, moves: seq<Move>)
    requires OnItsWay(ctl, w, cmd, n, s) && Answers(ctl)
    ensures OnItsWay(ctl, w, cmd, n, Turn(ctl, s, moves))
    decreases |moves|
  {
    hide OnItsWay, Try;
    if moves != [] {
      TryOnItsWay(ctl, w, cmd, n, s, moves[0]);
      TurnOnItsWay(ctl, w, cmd, n, Try(ctl, s, moves[0]), moves[1..]);
    }
  }

  /** The poll that ends the wait: the command was executed once, the reply is its status, nothing is left over. */
  lemma PollEnds(ctl: Controller, w: World, cmd: Command, n: nat, s: Link)
    requires OnItsWay(ctl, w, cmd, n, s) && SeesEntry(s) && Answers(ctl)
    ensures Quiet(PollStep(s)) && exists choice: nat :: Outcome(ctl, w, cmd, choice, PollStep(s).dev.world, Answer(s))
  {
    hide Lockstep, Faithful, JobCids, Executed, CidOf, ScOf, SctOf, PhaseOf, SeesEntry;
    LockstepSized(s);
    SeesExactlyUnread(s);
    LockstepStep(ctl, s, Poll);
    FaithfulStep(ctl, s, Poll);
    CountsOf(s);
    AnswerOf(ctl, w, cmd, s);
  }

  lemma CountsOf(s: Link)
    requires Lockstep(s)
    ensures s.log.consumed <= |s.log.posted|
  {
  }

  lemma AnswerOf(ctl: Controller, w: World, cmd: Command, s: Link)
    requires Sized(s) && s.host.waiting && Last(s.log.submitted) == cmd
    requires Executed(ctl, w, cmd, s.cq[s.host.cqHead], s.dev.world)
    ensures exists choice: nat :: Outcome(ctl, w, cmd, choice, s.dev.world, Answer(s))
  {
    hide CidOf, ScOf, SctOf, PhaseOf;
    var entry := s.cq[s.host.cqHead];
    var choice: nat :| ExecutedWith(ctl, w, cmd, choice, entry, s.dev.world);
    assert Outcome(ctl, w, cmd, choice, s.dev.world, Answer(s));
  }

  /** The command had no effect yet, or was executed once. */
  ghost predicate Touched(ctl: Controller, w: World, cmd: Command, w': World) {
    w' == w || exists choice: nat :: w' == ctl(w, cmd, choice).world
  }

  lemma OnItsWayTouched(ctl: Controller, w: World, cmd: Command, n: nat, s: Link)
    requires OnItsWay(ctl, w, cmd, n, s)
    ensures Touched(ctl, w, cmd, s.dev.world)
  {
    hide Good, Faithful, CidOf, ScOf, SctOf;
    if |s.log.posted| == n + 1 {
      var choice: nat :| ExecutedWith(ctl, w, cmd, choice, s.log.posted[n].entry, s.dev.world);
    }
  }

  /** The world and the reply after the controller executed the command once. */
  ghost predicate Outcome(ctl: Controller, w: World, cmd: Command, choice: nat, w': World, r: Reply) {
    w' == ctl(w, cmd, choice).world && r == ReplyOf(ctl(w, cmd, choice))
  }

  /**
   A call on a quiet pair that does not time out: whatever the controller's timing, the command was executed
   exactly once, the reply is that execution's status, and the pair is quiet again. When a call times out,
   the command had no effect so far or was executed once.
   */
  lemma {:induction false} WaitSpec(ctl: Controller, w: World, cmd: Command, n: nat, s: Link, turns: seq<seq<Move>>)
    requires OnItsWay(ctl, w, cmd, n, s) && Answers(ctl) && turns != []
    ensures var (s', r) := Wait(ctl, s, turns);
            if r == CommandTimeout then Touched(ctl, w, cmd, s'.dev.world)
            else Quiet(s') && exists choice: nat :: Outcome(ctl, w, cmd, choice, s'.dev.world, r)
    decreases |turns|
  {
    hide OnItsWay, Outcome, Quiet, SeesEntry, Judge, Touched;
    var s1 := Turn(ctl, s, turns[0]);
    TurnOnItsWay(ctl, w, cmd, n, s, turns[0]);
    OnItsWayWaits(ctl, w, cmd, n, s1);
    OnItsWayTouched(ctl, w, cmd, n, s1);
    AnswerInTime(s1);
    if SeesEntry(s1) {
      PollEnds(ctl, w, cmd, n, s1);
    } else if |turns| > 1 {
      WaitSpec(ctl, w, cmd, n, s1, turns[1..]);
    }
  }

  lemma AnswerInTime(s: Link)
    requires Sized(s) && s.host.waiting
    ensures Answer(s) != CommandTimeout
  {
  }

  lemma OnItsWayWaits(ctl: Controller, w: World, cmd: Command, n: nat, s: Link)
    requires OnItsWay(ctl, w, cmd, n, s)
    ensures Sized(s) && s.host.waiting
  {
  }

  lemma SubmitOnItsWay(ctl: Controller, s: Link, b: seq<byte>)
    requires Quiet(s) && Enabled(s, Submit(b)) && Answers(ctl)
    ensures OnItsWay(ctl, s.dev.world, Decode(b), s.log.consumed, SubmitStep(s, b))
  {
    hide Lockstep, JobCids, Faithful, Decode, SeesEntry;
    LockstepStep(ctl, s, Submit(b));
    LockstepSized(s);
    FaithfulStep(ctl, s, Submit(b));
  }

  // ----- A controller that answers in time -----

  /** What the controller does in all the turns together. */
  function Moves(turns: seq<seq<Move>>): seq<Move> {
    if turns == [] then [] else turns[0] + Moves(turns[1..])
  }

  predicate NoFault(m: Move) { m.Post? ==> m.choice == 0 }

  predicate Completes(ms: seq<Move>) { exists i :: 0 <= i < |ms| && ms[i] == Post(0, 0) }

  predicate FetchesAndCompletes(ms: seq<Move>) {
    exists i, j :: 0 <= i < j < |ms| && ms[i] == Fetch && ms[j] == Post(0, 0)
  }

  /** The controller fetches, completes after that, perhaps before a later poll, and nothing it does is a fault. */
  predicate Prompt(turns: seq<seq<Move>>) {
    (forall m <- Moves(turns) :: NoFault(m)) && FetchesAndCompletes(Moves(turns))
  }

  lemma RoomToPost(s: Link)
    requires Counters(s) && |s.log.posted| == s.log.consumed
    ensures Inc(s.dev.cqTail, s.depth) != s.host.cqHead
  {
    hide PassPhase, Slot, Inc, Wrap16;
    Advance(s.log.consumed, s.depth);
    SlotsApart(s.log.consumed, s.log.consumed + 1, s.depth);
  }

  lemma WorkToFetch(s: Link)
    requires Lockstep(s) && Faithful(s) && s.log.fetched < |s.log.submitted|
    ensures Sized(s) && Enabled(s, Fetch)
  {
    hide Posted, PassPhase, Slot, Wrap16, SlotsKept, JobsOk, DoneOk;
    FetchableIff(s);
  }

  lemma PostReady(s: Link)
    requires Lockstep(s) && s.dev.jobs != [] && |s.log.posted| == s.log.consumed
    ensures Sized(s) && Enabled(s, Post(0, 0))
  {
    hide Posted, PassPhase, Slot, Inc, Wrap16;
    RoomToPost(s);
  }

  /** The command is on its way, and if it is completed it was executed without a fault. */
  ghost predicate OnTime(ctl: Controller, w: World, cmd: Command, n: nat, s: Link) {
    && OnItsWay(ctl, w, cmd, n, s)
    && (|s.log.posted| == n + 1 ==> ExecutedWith(ctl, w, cmd, 0, s.log.posted[n].entry, s.dev.world))
  }

  /** The remaining moves take the command through the stages that are left. */
  ghost predicate Enough(n: nat, s: Link, ms: seq<Move>) {
    && (s.log.fetched == n ==> FetchesAndCompletes(ms))
    && (s.log.fetched == n + 1 && |s.log.posted| == n ==> Completes(ms))
  }

  lemma OnTimeFetch(ctl: Controller, w: World, cmd: Command, n: nat, s: Link)
    requires OnTime(ctl, w, cmd, n, s) && Answers(ctl)
    ensures var s' := Try(ctl, s, Fetch);
            OnTime(ctl, w, cmd, n, s') && s'.log.fetched == n + 1 && |s'.log.posted| == |s.log.posted|
  {
    hide Lockstep, Faithful, JobCids, Enabled, ExecutedWith, Decode;
    TryOnItsWay(ctl, w, cmd, n, s, Fetch);
    if s.log.fetched == n {
      WorkToFetch(s);
    }
  }

  lemma OnTimePost(ctl: Controller, w: World, cmd: Command, n: nat, s: Link, j: nat)
    requires OnTime(ctl, w, cmd, n, s) && Answers(ctl)
    ensures var s' := Try(ctl, s, Post(j, 0));
            && OnTime(ctl, w, cmd, n, s') && s'.log.fetched == s.log.fetched && |s'.log.posted| >= |s.log.posted|
            && (s.log.fetched == n + 1 && j == 0 ==> |s'.log.posted| == n + 1)
  {
    hide Lockstep, Faithful, JobCids, ExecutedWith, PostedEntry;
    TryOnItsWay(ctl, w, cmd, n, s, Post(j, 0));
    OnItsWayWaits(ctl, w, cmd, n, s);
    if |s.dev.jobs| == 1 && j == 0 {
      PostReady(s);
      ExecutedByChoice(ctl, w, cmd, s, 0, 0);
    }
  }

  lemma OnTimeTry(ctl: Controller, w: World, cmd: Command, n: nat, s: Link, ms: seq<Move>)
    requires OnTime(ctl, w, cmd, n, s) && Answers(ctl) && ms != [] && NoFault(ms[0]) && Enough(n, s, ms)
    ensures OnTime(ctl, w, cmd, n, Try(ctl, s, ms[0])) && Enough(n, Try(ctl, s, ms[0]), ms[1..])
  {
    hide OnTime, Try;
    OnTimeStages(ctl, w, cmd, n, s);
    match ms[0]
    case Fetch => OnTimeFetch(ctl, w, cmd, n, s);
    case Post(j, _) => OnTimePost(ctl, w, cmd, n, s, j);
  }

  lemma OnTimeStages(ctl: Controller, w: World, cmd: Command, n: nat, s: Link)
    requires OnTime(ctl, w, cmd, n, s)
    ensures n <= s.log.fetched <= n + 1 && n <= |s.log.posted| <= n + 1
    ensures |s.log.posted| == n + 1 ==> s.log.fetched == n + 1
  {
  }

  lemma {:induction false} OnTimeTurn(ctl: Controller, w: World, cmd: Command, n: nat, s: Link, ms: seq<Move>,
                                      later: seq<Move>)
    requires OnTime(ctl, w, cmd, n, s) && Answers(ctl) && (forall m <- ms :: NoFault(m)) && Enough(n, s, ms + later)
    ensures OnTime(ctl, w, cmd, n, Turn(ctl, s, ms)) && Enough(n, Turn(ctl, s, ms), later)
    decreases |ms|
  {
    hide OnTime, Try, Enough;
    if ms == [] {
      assert ms + later == later;
    } else {
      OnTimeTry(ctl, w, cmd, n, s, ms + later);
      assert (ms + later)[1..] == ms[1..] + later;
      OnTimeTurn(ctl, w, cmd, n, Try(ctl, s, ms[0]), ms[1..], later);
    }
  }

  /** The poll of a command that is on time: an entry shows exactly when the moves so far have completed it. */
  lemma OnTimePoll(ctl: Controller, w: World, cmd: Command, n: nat, s: Link)
    requires OnTime(ctl, w, cmd, n, s)
    ensures Sized(s) && s.host.waiting && (SeesEntry(s) <==> |s.log.posted| == n + 1)
    ensures SeesEntry(s) ==> Outcome(ctl, w, cmd, 0, PollStep(s).dev.world, Answer(s)) && Answer(s) != CommandTimeout
  {
    hide Lockstep, Faithful, JobCids, Executed, CidOf, ScOf, SctOf, PhaseOf, SeesEntry;
    LockstepSized(s);
    SeesExactlyUnread(s);
  }

  lemma {:induction false} OnTimeWait(ctl: Controller, w: World, cmd: Command, n: nat, s: Link, turns: seq<seq<Move>>)
    requires OnTime(ctl, w, cmd, n, s) && Answers(ctl) && turns != []
    requires (forall m <- Moves(turns) :: NoFault(m)) && Enough(n, s, Moves(turns))
    ensures var (s', r) := Wait(ctl, s, turns); r != CommandTimeout && Outcome(ctl, w, cmd, 0, s'.dev.world, r)
    decreases |turns|
  {
    hide OnTime, Enough, Outcome, SeesEntry, Judge, Turn, PollStep, NoFault, Answer;
    var s1 := Turn(ctl, s, turns[0]);
    OnTimeTurn(ctl, w, cmd, n, s, turns[0], Moves(turns[1..]));
    OnTimePoll(ctl, w, cmd, n, s1);
    if |turns| == 1 {
      OnTimeDone(ctl, w, cmd, n, s1);
    } else if !SeesEntry(s1) {
      OnTimeWait(ctl, w, cmd, n, s1, turns[1..]);
    }
  }

  lemma OnTimeDone(ctl: Controller, w: World, cmd: Command, n: nat, s: Link)
    requires OnTime(ctl, w, cmd, n, s) && Enough(n, s, [])
    ensures |s.log.posted| == n + 1
  {
  }

  /** A prompt controller: the call does not time out, and the reply is that of the fault-free execution. */
  lemma PromptWait(ctl: Controller, w: World, cmd: Command, n: nat, s: Link, turns: seq<seq<Move>>)
    requires OnItsWay(ctl, w, cmd, n, s) && Answers(ctl) && s.log.fetched == n && Prompt(turns)
    ensures var (s', r) := Wait(ctl, s, turns); r != CommandTimeout && Outcome(ctl, w, cmd, 0, s'.dev.world, r)
  {
    hide Good, Faithful, Wait, Outcome;
    OnTimeWait(ctl, w, cmd, n, s, turns);
  }

  // ----- The queue pair as an object -----

  /** The namespace on the other side of the bus. */
  class Storage {
    var disk: Namespace

    constructor (disk: Namespace)
      ensures this.disk == disk
    {
      this.disk := disk;
    }
  }

  /** The driver's queue state with the rings it points to, and the controller's side of the same pair. */
  class QueuePair {
    const depth: nat
    const sq: array<seq<byte>>
    const cq: array<Completion>
    const store: Storage
    const mem: Memory
    var sqTail: nat
    var cqHead: nat
    var phase: bool
    var nextCid: nat
    var devHead: nat
    var devTail: nat
    var devPhase: bool
    var jobs: seq<Job>
    ghost var waiting: bool
    var log: Log // history only: nothing in the driver reads it

    function World(): World
      reads store, mem
    {
      NvmeDevice.World(store.disk, mem.frames)
    }

    ghost function Abs(): Link
      reads this, sq, cq, store, mem
    {
      Link(depth, sq[..], cq[..], Host(sqTail, cqHead, phase, nextCid, waiting),
           Device(devHead, devTail, devPhase, jobs, World()), log)
    }

    ghost predicate Valid()
      reads this, sq, cq, store, mem
    {
      Good(Abs()) && !waiting
    }

    constructor (depth: nat, store: Storage, mem: Memory)
      requires depth >= 2
      ensures this.depth == depth && this.store == store && this.mem == mem && fresh(sq) && fresh(cq)
      ensures Valid() && Quiet(Abs()) && Abs() == Start(depth, World())
    {
      this.depth, this.store, this.mem := depth, store, mem;
      this.sq := new seq<byte>[depth](_ => seq(COMMAND_BYTES, _ => 0));
      this.cq := new Completion[depth](_ => Completion(0, 0));
      sqTail, cqHead, phase, nextCid := 0, 0, true, 0;
      devHead, devTail, devPhase, jobs := 0, 0, true, [];
      waiting, log := false, Log([], 0, [], 0, 0);
      new;
      assert sq[..] == seq(depth, _ => seq(COMMAND_BYTES, _ => 0));
      assert cq[..] == seq(depth, _ => Completion(0, 0));
      assert Abs() == Start(depth, World());
      StartLockstep(depth, World());
      StartIdle(depth, World());
    }

    method ControllerFetch(ghost ctl: Controller)
      requires Good(Abs())
      modifies this`devHead, this`jobs, this`log
      ensures Abs() == Try(ctl, old(Abs()), Fetch)
    {
      hide Lockstep, JobCids, Decode;
      LockstepSized(Abs());
      if devHead != sqTail {
        jobs := jobs + [Job(log.fetched, Decode(sq[devHead]))];
        devHead := Inc(devHead, depth);
        log := log.(fetched := log.fetched + 1);
      }
    }

    method ControllerPost(ctl: Controller, j: nat, choice: nat)
      requires Good(Abs())
      modifies this`devTail, this`devPhase, this`jobs, this`log, cq, store, mem
      ensures Abs() == Try(ctl, old(Abs()), Post(j, choice))
    {
      hide Lockstep, JobCids, PostStep;
      LockstepSized(Abs());
      if j < |jobs| && Inc(devTail, depth) != cqHead {
        PostNow(ctl, j, choice);
      }
    }

    method PostNow(ctl: Controller, j: nat, choice: nat)
      requires depth > 0 && devTail < cq.Length && j < |jobs|
      modifies this`devTail, this`devPhase, this`jobs, this`log, cq, store, mem
      ensures Abs() == PostStep(ctl, old(Abs()), j, choice)
    {
      hide PostedEntry, Inc;
      var job := jobs[j];
      var e := ctl(World(), job.cmd, choice);
      var entry := PostedEntry(job.cmd.cid, devPhase, e.status, e.dw0);
      var tail := Inc(devTail, depth);
      cq[devTail] := entry;
      devTail, devPhase := tail, if tail == 0 then !devPhase else devPhase;
      jobs := jobs[..j] + jobs[j + 1..];
      store.disk, mem.frames := e.world.disk, e.world.ram;
      log := log.(posted := log.posted + [Done(job.idx, entry)]);
    }

    /** What the controller does between two polls: it reads and writes the rings, the namespace and host memory. */
    method ControllerTurn(ctl: Controller, moves: seq<Move>)
      requires Good(Abs()) && Answers(ctl)
      modifies this`devHead, this`devTail, this`devPhase, this`jobs, this`log, cq, store, mem
      ensures Abs() == Turn(ctl, old(Abs()), moves) && Good(Abs()) && log.submitted == old(log.submitted)
    {
      hide Good, Try;
      TurnGood(ctl, Abs(), moves);
      for i := 0 to |moves|
        invariant Good(Abs()) && Turn(ctl, Abs(), moves[i..]) == Turn(ctl, old(Abs()), moves)
      {
        assert moves[i..][1..] == moves[i + 1..];
        TryGood(ctl, Abs(), moves[i]);
        match moves[i]
        case Fetch => ControllerFetch(ctl);
        case Post(j, choice) => ControllerPost(ctl, j, choice);
      }
    }

    /** Writes the command into its slot and rings the doorbell. */
    method Enqueue(ghost ctl: Controller, b: seq<byte>) returns (cid: nat)
      requires Valid() && Answers(ctl) && |b| == COMMAND_BYTES && Decode(b).cid == nextCid
      modifies this`sqTail, this`nextCid, this`waiting, this`log, sq
      ensures Good(Abs()) && waiting && Abs() == SubmitStep(old(Abs()), b)
      ensures log.submitted != [] && cid == Last(log.submitted).cid
    {
      hide Lockstep, JobCids, Decode;
      LockstepSized(Abs());
      LockstepStep(ctl, Abs(), Submit(b));
      cid := nextCid;
      nextCid := Wrap16(nextCid + 1);
      sq[sqTail] := b;
      sqTail := Inc(sqTail, depth);
      waiting, log := true, log.(submitted := log.submitted + [Decode(b)]);
      assert Abs() == SubmitStep(old(Abs()), b);
    }

    /** Looks at the entry under the head once. */
    method PollOnce(ghost ctl: Controller, cid: nat) returns (r: Option<Reply>)
      requires Good(Abs()) && waiting && Answers(ctl) && Sized(Abs()) && cid == Last(log.submitted).cid
      modifies this`cqHead, this`phase, this`waiting, this`log
      ensures r.Some? <==> SeesEntry(old(Abs()))
      ensures r.Some? ==> r.value == Answer(old(Abs())) && Abs() == PollStep(old(Abs())) && Valid()
      ensures r.None? ==> Abs() == old(Abs())
    {
      hide Lockstep, JobCids, PhaseOf, Judge;
      var entry := cq[cqHead];
      if PhaseOf(entry) != phase {
        return None;
      }
      LockstepStep(ctl, Abs(), Poll);
      cqHead := Inc(cqHead, depth);
      if cqHead == 0 {
        phase := !phase;
      }
      waiting, log := false, log.(consumed := log.consumed + 1);
      r := Some(Judge(entry, cid));
    }

    /** `submit_admin_and_wait` and `submit_io_and_wait`. */
    method SubmitAndWait(b: seq<byte>, ctl: Controller, turns: seq<seq<Move>>) returns (r: Reply)
      requires Valid() && Answers(ctl) && turns != []
      requires |b| == COMMAND_BYTES && Decode(b).cid == nextCid
      modifies this, sq, cq, store, mem
      ensures Valid() && (Abs(), r) == Wait(ctl, SubmitStep(old(Abs()), b), turns)
    {
      hide Lockstep, JobCids, Decode, Answer, Turn, PollStep, SeesEntry, SubmitStep;
      LockstepSized(Abs());
      var cid := Enqueue(ctl, b);
      var i := 0;
      while true
        invariant 0 <= i < |turns| && Good(Abs()) && waiting
        invariant log.submitted != [] && cid == Last(log.submitted).cid
        invariant Wait(ctl, Abs(), turns[i..]) == Wait(ctl, SubmitStep(old(Abs()), b), turns)
        decreases |turns| - i
      {
        ControllerTurn(ctl, turns[i]);
        LockstepSized(Abs());
        var polled := PollOnce(ctl, cid);
        if polled.Some? {
          return polled.value;
        }
        if i + 1 == |turns| {
          LockstepStep(ctl, Abs(), GiveUp);
          waiting, log := false, log.(timeouts := log.timeouts + 1);
          return CommandTimeout;
        }
        i := i + 1;
      }
    }
  }

  // ----- What calls do to the world -----

  ghost predicate Keeps(ctl: Controller, p: World -> bool) {
    forall w, c, choice :: p(w) ==> p(ctl(w, c, choice).world)
  }

  lemma {:induction false} TurnKeeps(ctl: Controller, p: World -> bool, s: Link, moves: seq<Move>)
    requires Keeps(ctl, p) && p(s.dev.world)
    ensures p(Turn(ctl, s, moves).dev.world)
    decreases |moves|
  {
    if moves != [] {
      TurnKeeps(ctl, p, Try(ctl, s, moves[0]), moves[1..]);
    }
  }

  lemma {:induction false} WaitKeeps(ctl: Controller, p: World -> bool, s: Link, turns: seq<seq<Move>>)
    requires Keeps(ctl, p) && p(s.dev.world) && turns != []
    ensures p(Wait(ctl, s, turns).0.dev.world)
    decreases |turns|
  {
    hide Turn, Keeps, SeesEntry, Answer, Sized;
    TurnKeeps(ctl, p, s, turns[0]);
    if |turns| > 1 {
      WaitKeeps(ctl, p, Turn(ctl, s, turns[0]), turns[1..]);
    }
  }

  /** Queue creation and identification leave the namespace alone and end in any status. */
  function AdminController(): Controller {
    (w: World, c: Command, choice: nat) => Effect(w, Status(choice % 8, choice / 8 % 256, 0), choice / 2048 % U32)
  }

  function BlockController(): Controller {
    (w: World, c: Command, fault: nat) => Execute(w, c, fault)
  }

  predicate DiskLike(d: Namespace, d': Namespace) {
    NamespaceOk(d') && d'.nsid == d.nsid && d'.blockSize == d.blockSize && |d'.blocks| == |d.blocks|
  }

  function Only(w0: World): World -> bool { (w: World) => w == w0 }

  function Resembles(w0: World): World -> bool { (w: World) => DiskLike(w0.disk, w.disk) }

  lemma ControllersBehave(w0: World)
    ensures Answers(AdminController()) && Answers(BlockController())
    ensures Keeps(AdminController(), Only(w0)) && Keeps(BlockController(), Resembles(w0))
  {
    hide Cut, Join, Times;
    forall w, c, choice ensures StatusOk(BlockController()(w, c, choice).status) {
    }
    forall w: World, c, choice | DiskLike(w0.disk, w.disk)
      ensures DiskLike(w0.disk, BlockController()(w, c, choice).world.disk)
    {
      ExecuteFrame(w, c, choice);
    }
  }

  lemma WriteOutcome(w: World, cmd: Command, fault: nat, f: nat, w': World)
    requires NamespaceOk(w.disk) && cmd.opcode == WRITE && cmd.prp1 == f * FRAME_BYTES && IsData(w.ram, f)
    requires w' == BlockController()(w, cmd, fault).world
    ensures if BlockController()(w, cmd, fault).status == SUCCESS
            then var (lba, n) := (StartLba(cmd), BlockCount(cmd));
                 Addressed(w.disk, cmd.nsid, lba, n)
                 && w'.disk == DiskWrite(w.disk, lba, w.ram[f].bytes[..Times(n, w.disk.blockSize)], n)
            else w'.disk == w.disk
  {
    hide Cut, Times;
    assert cmd.prp1 / FRAME_BYTES == f;
  }

  lemma ReadOutcome(w: World, cmd: Command, fault: nat, f: nat, w': World)
    requires NamespaceOk(w.disk) && cmd.opcode == READ && cmd.prp1 == f * FRAME_BYTES && IsData(w.ram, f)
    requires w' == BlockController()(w, cmd, fault).world
    ensures w'.disk == w.disk
    ensures BlockController()(w, cmd, fault).status == SUCCESS ==>
              && Addressed(w.disk, cmd.nsid, StartLba(cmd), BlockCount(cmd)) && IsData(w'.ram, f)
              && var out := DiskRead(w.disk, StartLba(cmd), BlockCount(cmd));
                 && |out| == Times(BlockCount(cmd), w.disk.blockSize)
                 && w'.ram[f].bytes == out + w.ram[f].bytes[|out|..]
  {
    hide Cut, Times, Join;
    assert cmd.prp1 / FRAME_BYTES == f;
    ExecuteFrame(w, cmd, fault);
  }

  lemma SuccessIs(w: World, cmd: Command, fault: nat, w': World, r: Reply)
    requires Outcome(BlockController(), w, cmd, fault, w', r)
    ensures r.Success? <==> BlockController()(w, cmd, fault).status == SUCCESS
    ensures w' == BlockController()(w, cmd, fault).world && r != CommandTimeout
  {
  }

  lemma GoodIgnoresWorld(s: Link, w: World)
    ensures Good(s) ==> Good(s.(dev := s.dev.(world := w)))
    ensures Quiet(s) ==> Quiet(s.(dev := s.dev.(world := w)))
  {
    hide Posted, SlotsKept, JobsOk, DoneOk;
  }
}
