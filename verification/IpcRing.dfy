/**
 The single-producer single-consumer byte ring of kernel/src/ipc/mod.rs, twice: as a machine whose
 atomic steps are one index load, one byte access or one index store, under every interleaving of one
 producer and one consumer; and as a class whose calls run undisturbed.
 */
module IpcRing {
  import opened Prelude

  const RING_SIZE: nat := 4096
  const CAPACITY: nat := 4095

  // ----- Index arithmetic: usize wraps at 2^64 -----

  function WrappingAdd(a: nat, b: nat): nat { (a + b) % U64 }

  function WrappingSub(a: nat, b: nat): nat { (a - b) % U64 }

  /** `x & (RING_SIZE - 1)`. */
  function Mask(x: nat): (slot: nat)
    ensures slot < RING_SIZE
  {
    x % RING_SIZE
  }

  function Free(head: nat, tail: nat): nat { RING_SIZE - 1 - Mask(WrappingSub(head, tail)) }

  function Avail(head: nat, tail: nat): nat { Mask(WrappingSub(head, tail)) }

  /** Wrapped indices still give the true distance, as long as it is below the ring size. */
  lemma Distance(h: nat, t: nat)
    requires t <= h <= t + CAPACITY
    ensures Mask(WrappingSub(h % U64, t % U64)) == h - t
  {
    var a, b := h / U64, t / U64;
    assert h % U64 - t % U64 == (h - t) + U64 * (b - a);
  }

  const RINGS_PER_WORD: nat := 0x10_0000_0000_0000

  lemma WholeRings(x: int, m: int)
    ensures (x - RING_SIZE * m) % RING_SIZE == x % RING_SIZE
  {
  }

  lemma MaskOfWrapped(x: int)
    ensures Mask(x % U64) == x % RING_SIZE
  {
    var m := RINGS_PER_WORD * (x / U64);
    assert x % U64 == x - RING_SIZE * m;
    WholeRings(x, m);
  }

  lemma WrapsOnce(h: nat, i: nat)
    ensures WrappingAdd(h % U64, i) == (h + i) % U64
  {
    var q := h / U64;
    assert h + i == h % U64 + i + U64 * q;
  }

  lemma SlotOf(h: nat, i: nat)
    ensures Mask(WrappingAdd(h % U64, i)) == (h + i) % RING_SIZE
    ensures WrappingAdd(h % U64, i) == (h + i) % U64
  {
    hide Mask, WrappingAdd;
    WrapsOnce(h, i);
    MaskOfWrapped(h + i);
  }

  // ----- The machine -----

  /** Where a `push` stands: after loading `head`, or copying with its snapshot of `tail` taken. */
  datatype Producer =
    | NotPushing
    | HeadLoaded(data: seq<byte>, head: nat)
    | Writing(data: seq<byte>, head: nat, n: nat, i: nat)

  datatype Consumer =
    | NotPopping
    | TailLoaded(len: nat, tail: nat)
    | Reading(tail: nat, n: nat, got: seq<byte>)

  /** `pushed` and `popped` record every byte the completed calls reported. */
  datatype Ring = Ring(
    buf: seq<byte>, head: nat, tail: nat, prod: Producer, cons: Consumer, pushed: seq<byte>, popped: seq<byte>)

  predicate Initial(s: Ring) {
    && |s.buf| == RING_SIZE && s.head == 0 && s.tail == 0
    && s.prod == NotPushing && s.cons == NotPopping && s.pushed == [] && s.popped == []
  }

  datatype Action =
    | PushLoadHead(data: seq<byte>) | PushLoadTail | PushByte | PushStoreHead
    | PopLoadTail(len: nat) | PopLoadHead | PopByte | PopStoreTail

  predicate Enabled(s: Ring, a: Action) {
    match a
    case PushLoadHead(_) => s.prod.NotPushing?
    case PushLoadTail => s.prod.HeadLoaded?
    case PushByte => s.prod.Writing? && s.prod.i < s.prod.n
    case PushStoreHead => s.prod.Writing? && s.prod.i == s.prod.n
    case PopLoadTail(_) => s.cons.NotPopping?
    case PopLoadHead => s.cons.TailLoaded?
    case PopByte => s.cons.Reading? && |s.cons.got| < s.cons.n
    case PopStoreTail => s.cons.Reading? && |s.cons.got| == s.cons.n
  }

  /** The slot the producer's next byte goes to. */
  function WriteSlot(p: Producer): nat
    requires p.Writing?
  {
    Mask(WrappingAdd(p.head, p.i))
  }

  function ReadSlot(c: Consumer): nat
    requires c.Reading?
  {
    Mask(WrappingAdd(c.tail, |c.got|))
  }

  function Next(s: Ring, a: Action): Ring
    requires Enabled(s, a) && |s.buf| == RING_SIZE
    requires s.prod.Writing? ==> s.prod.n <= |s.prod.data|
  {
    match a
    case PushLoadHead(data) => s.(prod := HeadLoaded(data, s.head))
    case PushLoadTail => s.(prod := Writing(s.prod.data, s.prod.head, Min(|s.prod.data|, Free(s.prod.head, s.tail)), 0))
    case PushByte => s.(buf := s.buf[WriteSlot(s.prod) := s.prod.data[s.prod.i]], prod := s.prod.(i := s.prod.i + 1))
    case PushStoreHead =>
      s.(head := WrappingAdd(s.prod.head, s.prod.n), prod := NotPushing, pushed := s.pushed + s.prod.data[..s.prod.n])
    case PopLoadTail(len) => s.(cons := TailLoaded(len, s.tail))
    case PopLoadHead => s.(cons := Reading(s.cons.tail, Min(s.cons.len, Avail(s.head, s.cons.tail)), []))
    case PopByte => s.(cons := s.cons.(got := s.cons.got + [s.buf[ReadSlot(s.cons)]]))
    case PopStoreTail =>
      s.(tail := WrappingAdd(s.cons.tail, s.cons.n), cons := NotPopping, popped := s.popped + s.cons.got)
  }

  // ----- The invariant -----

  /** The shared words: wrapped counts of published and consumed bytes, at most 4095 apart. */
  ghost predicate Counts(s: Ring) {
    && |s.buf| == RING_SIZE
    && s.head == |s.pushed| % U64 && s.tail == |s.popped| % U64
    && |s.popped| <= |s.pushed| <= |s.popped| + CAPACITY
  }

  /** Every published byte not yet consumed is in its slot. */
  ghost predicate Unread(s: Ring)
    requires Counts(s)
  {
    forall k :: |s.popped| <= k < |s.pushed| ==> s.buf[k % RING_SIZE] == s.pushed[k]
  }

  /** A push in progress works on its own free slots. */
  ghost predicate ProducerOk(s: Ring)
    requires Counts(s)
  {
    match s.prod
    case NotPushing => true
    case HeadLoaded(_, head) => head == s.head
    case Writing(data, head, n, i) =>
      && head == s.head && i <= n <= |data| && |s.pushed| + n <= |s.popped| + CAPACITY
      && forall k :: 0 <= k < i ==> s.buf[(|s.pushed| + k) % RING_SIZE] == data[k]
  }

  /** A pop in progress has read a prefix of what was published when it looked. */
  ghost predicate ConsumerOk(s: Ring)
    requires Counts(s)
  {
    match s.cons
    case NotPopping => true
    case TailLoaded(_, tail) => tail == s.tail
    case Reading(tail, n, got) =>
      && tail == s.tail && |got| <= n && |s.popped| + n <= |s.pushed|
      && got == s.pushed[|s.popped|..|s.popped| + |got|]
  }

  ghost predicate Inv(s: Ring) {
    && Counts(s) && Unread(s) && ProducerOk(s) && ConsumerOk(s)
    && s.popped <= s.pushed
  }

  // ----- Steps -----

  lemma PushLoadTailInv(s: Ring)
    requires Inv(s) && s.prod.HeadLoaded?
    ensures Inv(Next(s, PushLoadTail))
    ensures Next(s, PushLoadTail).prod.n == Min(|s.prod.data|, CAPACITY - (|s.pushed| - |s.popped|))
  {
    Distance(|s.pushed|, |s.popped|);
  }

  lemma PushByteInv(s: Ring)
    requires Inv(s) && Enabled(s, PushByte)
    ensures Inv(Next(s, PushByte))
  {
    var p, s' := s.prod, Next(s, PushByte);
    var at := |s.pushed| + p.i;
    SlotOf(|s.pushed|, p.i);
    forall k | |s.popped| <= k < |s.pushed| ensures s'.buf[k % RING_SIZE] == s'.pushed[k] {
      RemaindersDiffer(k, at, RING_SIZE);
    }
    forall k | 0 <= k < p.i + 1 ensures s'.buf[(|s.pushed| + k) % RING_SIZE] == p.data[k] {
      if k < p.i {
        RemaindersDiffer(|s.pushed| + k, at, RING_SIZE);
      }
    }
  }

  lemma PushStoreHeadInv(s: Ring)
    requires Inv(s) && Enabled(s, PushStoreHead)
    ensures Inv(Next(s, PushStoreHead))
  {
    var p, s' := s.prod, Next(s, PushStoreHead);
    SlotOf(|s.pushed|, p.n);
    forall k | |s'.popped| <= k < |s'.pushed| ensures s'.buf[k % RING_SIZE] == s'.pushed[k] {
      if k >= |s.pushed| {
        assert s.buf[(|s.pushed| + (k - |s.pushed|)) % RING_SIZE] == p.data[k - |s.pushed|];
      }
    }
    if s.cons.Reading? {
      assert s'.pushed[|s.popped|..|s.popped| + |s.cons.got|] == s.pushed[|s.popped|..|s.popped| + |s.cons.got|];
    }
  }

  lemma PopLoadHeadInv(s: Ring)
    requires Inv(s) && s.cons.TailLoaded?
    ensures Inv(Next(s, PopLoadHead))
    ensures Next(s, PopLoadHead).cons.n == Min(s.cons.len, |s.pushed| - |s.popped|)
  {
    Distance(|s.pushed|, |s.popped|);
  }

  lemma PopByteInv(s: Ring)
    requires Inv(s) && Enabled(s, PopByte)
    ensures Inv(Next(s, PopByte))
  {
    var c := s.cons;
    SlotOf(|s.popped|, |c.got|);
    var k := |s.popped| + |c.got|;
    assert s.buf[k % RING_SIZE] == s.pushed[k];
    assert s.pushed[|s.popped|..k + 1] == s.pushed[|s.popped|..k] + [s.pushed[k]];
  }

  lemma PopStoreTailInv(s: Ring)
    requires Inv(s) && Enabled(s, PopStoreTail)
    ensures Inv(Next(s, PopStoreTail))
  {
    var c, s' := s.cons, Next(s, PopStoreTail);
    SlotOf(|s.popped|, c.n);
    assert s'.popped == s.pushed[..|s.popped|] + s.pushed[|s.popped|..|s.popped| + c.n] == s.pushed[..|s.popped| + c.n];
  }

  lemma StepInv(s: Ring, a: Action)
    requires Inv(s) && Enabled(s, a)
    ensures Inv(Next(s, a))
  {
    match a
    case PushLoadHead(_) =>
    case PushLoadTail => PushLoadTailInv(s);
    case PushByte => PushByteInv(s);
    case PushStoreHead => PushStoreHeadInv(s);
    case PopLoadTail(_) =>
    case PopLoadHead => PopLoadHeadInv(s);
    case PopByte => PopByteInv(s);
    case PopStoreTail => PopStoreTailInv(s);
  }

  // ----- Runs -----

  ghost predicate IsRun(ss: seq<Ring>, acts: seq<Action>) {
    && |ss| == |acts| + 1 && Initial(ss[0])
    && forall i :: 0 <= i < |acts| ==> StepOf(ss[i], acts[i], ss[i + 1])
  }

  ghost predicate StepOf(s: Ring, a: Action, s': Ring) {
    && Enabled(s, a) && |s.buf| == RING_SIZE && (s.prod.Writing? ==> s.prod.n <= |s.prod.data|)
    && s' == Next(s, a)
  }

  lemma {:induction false} RunInv(ss: seq<Ring>, acts: seq<Action>, i: nat)
    requires IsRun(ss, acts) && i <= |acts|
    ensures Inv(ss[i])
  {
    hide Inv, Next, Enabled;
    if i == 0 {
      InitialInv(ss[0]);
    } else {
      RunInv(ss, acts, i - 1);
      assert StepOf(ss[i - 1], acts[i - 1], ss[i - 1 + 1]);
      StepInv(ss[i - 1], acts[i - 1]);
    }
  }

  lemma InitialInv(s: Ring)
    requires Initial(s)
    ensures Inv(s)
  {
  }

  /** In every state of every interleaving, what was popped is a prefix of what was pushed, and at most 4095 behind. */
  lemma PoppedIsPrefix(ss: seq<Ring>, acts: seq<Action>, i: nat)
    requires IsRun(ss, acts) && i <= |acts|
    ensures ss[i].popped <= ss[i].pushed
    ensures |ss[i].pushed| - |ss[i].popped| <= CAPACITY
    ensures ss[i].cons.Reading? ==> ss[i].popped + ss[i].cons.got <= ss[i].pushed
  {
    RunInv(ss, acts, i);
  }

  /** Producer and consumer never touch the same slot at the same time, and a store never hits an unread byte. */
  lemma NoRace(ss: seq<Ring>, acts: seq<Action>, i: nat)
    requires IsRun(ss, acts) && i <= |acts| && Enabled(ss[i], PushByte)
    ensures Enabled(ss[i], PopByte) ==> WriteSlot(ss[i].prod) != ReadSlot(ss[i].cons)
    ensures forall k :: |ss[i].popped| <= k < |ss[i].pushed| ==> WriteSlot(ss[i].prod) != k % RING_SIZE
  {
    RunInv(ss, acts, i);
    var s := ss[i];
    SlotOf(|s.pushed|, s.prod.i);
    if s.cons.Reading? {
      SlotOf(|s.popped|, |s.cons.got|);
    }
    forall k | |s.popped| <= k < |s.pushed| ensures WriteSlot(s.prod) != k % RING_SIZE {
      RemaindersDiffer(k, |s.pushed| + s.prod.i, RING_SIZE);
    }
  }

  /** A push accepts exactly what fits when it reads `tail`; a pop takes exactly what is there when it reads `head`. */
  lemma CallsTakeAllTheyCan(ss: seq<Ring>, acts: seq<Action>, i: nat)
    requires IsRun(ss, acts) && i < |acts|
    ensures acts[i] == PushLoadTail ==>
              ss[i + 1].prod.n == Min(|ss[i].prod.data|, CAPACITY - (|ss[i].pushed| - |ss[i].popped|))
    ensures acts[i] == PopLoadHead ==> ss[i + 1].cons.n == Min(ss[i].cons.len, |ss[i].pushed| - |ss[i].popped|)
  {
    RunInv(ss, acts, i);
    assert StepOf(ss[i], acts[i], ss[i + 1]);
    if acts[i] == PushLoadTail {
      PushLoadTailInv(ss[i]);
    } else if acts[i] == PopLoadHead {
      PopLoadHeadInv(ss[i]);
    }
  }

  lemma DifferenceWraps(h: nat, t: nat)
    ensures WrappingSub(h % U64, t % U64) == (h - t) % U64
  {
    var a, b := h / U64, t / U64;
    assert h - t == (h % U64 - t % U64) + U64 * (a - b);
  }

  /**
   `available` loads `head` in state i and `tail` in a later state j. It always reports the distance modulo
   the ring size, and that is the distance exactly when the consumer has not overtaken the loaded head.
   */
  lemma AvailableSpec(ss: seq<Ring>, acts: seq<Action>, i: nat, j: nat)
    requires IsRun(ss, acts) && i <= j <= |acts|
    ensures Avail(ss[i].head, ss[j].tail) == (|ss[i].pushed| - |ss[j].popped|) % RING_SIZE
    ensures Avail(ss[i].head, ss[j].tail) == |ss[i].pushed| - |ss[j].popped| <==> |ss[j].popped| <= |ss[i].pushed|
  {
    hide Mask, WrappingSub;
    RunInv(ss, acts, i);
    RunInv(ss, acts, j);
    PoppedGrows(ss, acts, i, j);
    DifferenceWraps(|ss[i].pushed|, |ss[j].popped|);
    MaskOfWrapped(|ss[i].pushed| - |ss[j].popped|);
    if |ss[j].popped| <= |ss[i].pushed| {
      Distance(|ss[i].pushed|, |ss[j].popped|);
    }
  }

  /** While no push completes in between - the producer itself asks - the answer is exact for state j. */
  lemma AvailableForProducer(ss: seq<Ring>, acts: seq<Action>, i: nat, j: nat)
    requires IsRun(ss, acts) && i <= j <= |acts| && PushStoreHead !in acts[i..j]
    ensures Avail(ss[i].head, ss[j].tail) == |ss[j].pushed| - |ss[j].popped|
  {
    hide Inv, Avail;
    PushedKept(ss, acts, i, j);
    PoppedIsPrefix(ss, acts, j);
    AvailableSpec(ss, acts, i, j);
  }

  /** While no pop completes in between - the consumer itself asks - the answer is exact for state i. */
  lemma AvailableForConsumer(ss: seq<Ring>, acts: seq<Action>, i: nat, j: nat)
    requires IsRun(ss, acts) && i <= j <= |acts| && PopStoreTail !in acts[i..j]
    ensures Avail(ss[i].head, ss[j].tail) == |ss[i].pushed| - |ss[i].popped|
  {
    hide Inv, Avail;
    PoppedKept(ss, acts, i, j);
    PoppedIsPrefix(ss, acts, i);
    AvailableSpec(ss, acts, i, j);
  }

  lemma {:induction false} PushedKept(ss: seq<Ring>, acts: seq<Action>, i: nat, j: nat)
    requires IsRun(ss, acts) && i <= j <= |acts| && PushStoreHead !in acts[i..j]
    ensures ss[j].pushed == ss[i].pushed
    decreases j
  {
    if i < j {
      assert acts[i..j] == acts[i..j - 1] + [acts[j - 1]];
      PushedKept(ss, acts, i, j - 1);
      assert StepOf(ss[j - 1], acts[j - 1], ss[j - 1 + 1]);
    }
  }

  lemma {:induction false} PoppedKept(ss: seq<Ring>, acts: seq<Action>, i: nat, j: nat)
    requires IsRun(ss, acts) && i <= j <= |acts| && PopStoreTail !in acts[i..j]
    ensures ss[j].popped == ss[i].popped
    decreases j
  {
    if i < j {
      assert acts[i..j] == acts[i..j - 1] + [acts[j - 1]];
      PoppedKept(ss, acts, i, j - 1);
      assert StepOf(ss[j - 1], acts[j - 1], ss[j - 1 + 1]);
    }
  }

  lemma OnePush(s: Ring)
    requires Initial(s)
    ensures var a, b := s.(prod := HeadLoaded([7], 0)), s.(prod := Writing([7], 0, 1, 0));
            var c := s.(buf := s.buf[0 := 7], prod := Writing([7], 0, 1, 1));
            && StepOf(s, PushLoadHead([7]), a) && StepOf(a, PushLoadTail, b) && StepOf(b, PushByte, c)
            && StepOf(c, PushStoreHead, s.(buf := c.buf, head := 1, pushed := [7]))
  {
  }

  lemma OnePop(s: Ring)
    requires |s.buf| == RING_SIZE && s.buf[0] == 7 && s.head == 1 && s.tail == 0
    requires s.prod == NotPushing && s.cons == NotPopping && s.popped == []
    ensures var a, b, c := s.(cons := TailLoaded(1, 0)), s.(cons := Reading(0, 1, [])), s.(cons := Reading(0, 1, [7]));
            && StepOf(s, PopLoadTail(1), a) && StepOf(a, PopLoadHead, b) && StepOf(b, PopByte, c)
            && StepOf(c, PopStoreTail, s.(tail := 1, popped := [7]))
  {
    var b := s.(cons := Reading(0, 1, []));
    assert ReadSlot(b.cons) == 0;
    assert [] + [s.buf[0]] == [7] && s.popped + [7] == [7];
  }

  /** One byte pushed and popped while a third party stands between its two loads: it is told 4095 bytes wait. */
  lemma ThirdPartyMisled()
    ensures exists ss: seq<Ring>, acts: seq<Action> ::
              && IsRun(ss, acts) && |acts| == 8 && Avail(ss[0].head, ss[8].tail) == CAPACITY
              && forall k :: 0 <= k <= 8 ==> |ss[k].pushed| <= |ss[k].popped| + 1
  {
    hide StepOf;
    var s := Ring(seq(RING_SIZE, _ => 0), 0, 0, NotPushing, NotPopping, [], []);
    var t := s.(buf := s.buf[0 := 7], head := 1, pushed := [7]);
    OnePush(s);
    OnePop(t);
    var ss := [s, s.(prod := HeadLoaded([7], 0)), s.(prod := Writing([7], 0, 1, 0)),
               s.(buf := t.buf, prod := Writing([7], 0, 1, 1)),
               t, t.(cons := TailLoaded(1, 0)), t.(cons := Reading(0, 1, [])), t.(cons := Reading(0, 1, [7])),
               t.(tail := 1, popped := [7])];
    var acts := [PushLoadHead([7]), PushLoadTail, PushByte, PushStoreHead,
                 PopLoadTail(1), PopLoadHead, PopByte, PopStoreTail];
    assert IsRun(ss, acts);
  }

  lemma {:induction false} PoppedGrows(ss: seq<Ring>, acts: seq<Action>, i: nat, j: nat)
    requires IsRun(ss, acts) && i <= j <= |acts|
    ensures ss[i].popped <= ss[j].popped && ss[i].pushed <= ss[j].pushed
    decreases j
  {
    hide Inv;
    if i < j {
      PoppedGrows(ss, acts, i, j - 1);
      assert StepOf(ss[j - 1], acts[j - 1], ss[j - 1 + 1]);
    }
  }

  // ----- The calls, undisturbed -----

  lemma PopEnds(s: Ring)
    requires Inv(s) && Enabled(s, PopStoreTail)
    ensures Inv(Next(s, PopStoreTail))
    ensures s.pushed[|s.popped|..] == s.cons.got + s.pushed[|s.popped| + |s.cons.got|..]
  {
    StepInv(s, PopStoreTail);
    var a, b := |s.popped|, |s.popped| + |s.cons.got|;
    assert s.pushed[a..] == s.pushed[a..b] + s.pushed[b..];
  }

  /** The ring as an object. Each method takes the machine's steps in order. */
  class RingBuffer {
    const buf: array<byte>
    var head: nat
    var tail: nat
    ghost var pushed: seq<byte>
    ghost var popped: seq<byte>

    ghost function Abs(): Ring
      reads this, buf
    {
      Ring(buf[..], head, tail, NotPushing, NotPopping, pushed, popped)
    }

    ghost predicate Valid()
      reads this, buf
    {
      Inv(Abs())
    }

    /** The bytes waiting to be read, oldest first. */
    ghost function Contents(): seq<byte>
      requires Valid()
      reads this, buf
    {
      pushed[|popped|..]
    }

    constructor ()
      ensures Valid() && fresh(buf) && Contents() == []
    {
      buf := new byte[RING_SIZE](_ => 0);
      head, tail, pushed, popped := 0, 0, [], [];
    }

    method Push(data: seq<byte>) returns (n: nat)
      requires Valid()
      modifies this, buf
      ensures Valid()
      ensures n == Min(|data|, CAPACITY - |old(Contents())|)
      ensures Contents() == old(Contents()) + data[..n]
    {
      hide Unread, ProducerOk, ConsumerOk;
      ghost var s := Abs();
      StepInv(s, PushLoadHead(data));
      s := Next(s, PushLoadHead(data));
      PushLoadTailInv(s);
      s := Next(s, PushLoadTail);
      n := Min(|data|, Free(head, tail));
      for i := 0 to n
        modifies buf
        invariant Inv(s) && s == Abs().(prod := Writing(data, head, n, i))
      {
        StepInv(s, PushByte);
        s := Next(s, PushByte);
        buf[Mask(WrappingAdd(head, i))] := data[i];
      }
      StepInv(s, PushStoreHead);
      head, pushed := WrappingAdd(head, n), pushed + data[..n];
      assert Next(s, PushStoreHead) == Abs();
    }

    method Pop(len: nat) returns (got: seq<byte>)
      requires Valid()
      modifies this
      ensures Valid()
      ensures |got| == Min(len, |old(Contents())|)
      ensures old(Contents()) == got + Contents()
    {
      hide Unread, ProducerOk, ConsumerOk, Mask;
      ghost var s := Abs();
      StepInv(s, PopLoadTail(len));
      s := Next(s, PopLoadTail(len));
      PopLoadHeadInv(s);
      s := Next(s, PopLoadHead);
      var n := Min(len, Avail(head, tail));
      got := [];
      for i := 0 to n
        modifies {}
        invariant |got| == i && Inv(s) && s == Abs().(cons := Reading(tail, n, got))
      {
        StepInv(s, PopByte);
        s := Next(s, PopByte);
        got := got + [buf[Mask(WrappingAdd(tail, i))]];
      }
      PopEnds(s);
      tail, popped := WrappingAdd(tail, n), popped + got;
      assert Next(s, PopStoreTail) == Abs();
    }

    method Available() returns (n: nat)
      requires Valid()
      ensures n == |Contents()|
    {
      n := Avail(head, tail);
      Distance(|pushed|, |popped|);
    }
  }
}
