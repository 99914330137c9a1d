/** The priority run queue of kernel/src/scheduler/mod.rs: eight FIFO levels and a bitmask of the non-empty ones. */
module RunQueues {
  import opened Prelude

  type Pid = nat

  const LEVELS: nat := 8

  datatype Queue = Queue(levels: seq<seq<Pid>>, mask: bv8)

  function Flag(i: nat): bv8
    requires i < LEVELS
  {
    1 << i
  }

  predicate Marked(mask: bv8, i: nat)
    requires i < LEVELS
  {
    mask & Flag(i) != 0
  }

  /** `mask` bit i is set exactly when level i is non-empty. */
  ghost predicate Consistent(q: Queue) {
    && |q.levels| == LEVELS
    && forall i :: 0 <= i < LEVELS ==> (Marked(q.mask, i) <==> q.levels[i] != [])
  }

  function Level(prio: nat): nat { Min(prio, LEVELS - 1) }

  const EMPTY_QUEUE: Queue := Queue([[], [], [], [], [], [], [], []], 0)

  function Push(q: Queue, pid: Pid, prio: nat): Queue
    requires |q.levels| == LEVELS
  {
    var p := Level(prio);
    Queue(q.levels[p := q.levels[p] + [pid]], q.mask | Flag(p))
  }

  /** `trailing_zeros`, counting from bit `i`. */
  function TrailingZeros(mask: bv8, i: nat): nat
    requires i <= LEVELS
    decreases LEVELS - i
  {
    if i == LEVELS then LEVELS else if Marked(mask, i) then i else TrailingZeros(mask, i + 1)
  }

  function Pop(q: Queue): (Queue, Option<Pid>)
    requires |q.levels| == LEVELS
  {
    if q.mask == 0 then (q, None)
    else
      var p := TrailingZeros(q.mask, 0);
      if p >= LEVELS || q.levels[p] == [] then (q, None)
      else
        var rest := q.levels[p][1..];
        (Queue(q.levels[p := rest], if rest == [] then q.mask & !Flag(p) else q.mask), Some(q.levels[p][0]))
  }

  // ----- Bits -----

  lemma MaskHere(mask: bv8, p: nat)
    requires p < LEVELS
    ensures Marked(mask | Flag(p), p) && !Marked(mask & !Flag(p), p)
  {
    hide Flag;
    BitHere(mask, p);
  }

  lemma MaskElsewhere(mask: bv8, p: nat, i: nat)
    requires p < LEVELS && i < LEVELS && p != i
    ensures Marked(mask | Flag(p), i) == Marked(mask, i) && Marked(mask & !Flag(p), i) == Marked(mask, i)
  {
    FlagValues();
  }

  lemma MaskBits(mask: bv8, p: nat, i: nat)
    requires p < LEVELS && i < LEVELS
    ensures Marked(mask | Flag(p), i) <==> i == p || Marked(mask, i)
    ensures Marked(mask & !Flag(p), i) <==> i != p && Marked(mask, i)
  {
    hide Flag, Marked;
    if p == i {
      MaskHere(mask, p);
    } else {
      MaskElsewhere(mask, p, i);
    }
  }

  lemma BitHere(mask: bv8, i: nat)
    requires i < LEVELS
    ensures (mask | Flag(i)) & Flag(i) != 0 && (mask & !Flag(i)) & Flag(i) == 0
  {
    FlagNonZero(i);
    var b := Flag(i);
    assert (mask | b) & b == b && (mask & !b) & b == 0;
  }

  lemma FlagNonZero(i: nat)
    requires i < LEVELS
    ensures Flag(i) != 0
  {
    match i case 0 => case 1 => case 2 => case 3 => case 4 => case 5 => case 6 => case _ =>
  }

  lemma FlagValues()
    ensures Flag(0) == 1 && Flag(1) == 2 && Flag(2) == 4 && Flag(3) == 8
    ensures Flag(4) == 16 && Flag(5) == 32 && Flag(6) == 64 && Flag(7) == 128
  {
  }

  lemma NoBitsIsZero(mask: bv8)
    requires forall i: nat :: i < LEVELS ==> !Marked(mask, i)
    ensures mask == 0
  {
    FlagValues();
    assert !Marked(mask, 0) && !Marked(mask, 1) && !Marked(mask, 2) && !Marked(mask, 3);
    assert !Marked(mask, 4) && !Marked(mask, 5) && !Marked(mask, 6) && !Marked(mask, 7);
  }

  lemma ZeroUnmarked(i: nat)
    requires i < LEVELS
    ensures !Marked(0, i)
  {
  }

  lemma {:induction false} TrailingZerosSpec(mask: bv8, i: nat)
    requires i <= LEVELS
    ensures var p := TrailingZeros(mask, i);
            i <= p <= LEVELS && (p < LEVELS ==> Marked(mask, p)) && forall j: nat :: i <= j < p ==> !Marked(mask, j)
    decreases LEVELS - i
  {
    if i < LEVELS && !Marked(mask, i) {
      TrailingZerosSpec(mask, i + 1);
    }
  }

  // ----- The queue's law -----

  lemma PushSpec(q: Queue, pid: Pid, prio: nat)
    requires Consistent(q)
    ensures Consistent(Push(q, pid, prio))
    ensures Push(q, pid, prio).levels == q.levels[Level(prio) := q.levels[Level(prio)] + [pid]]
  {
    hide Marked, Flag;
    var q' := Push(q, pid, prio);
    forall i | 0 <= i < LEVELS ensures Marked(q'.mask, i) <==> q'.levels[i] != [] {
      MaskBits(q.mask, Level(prio), i);
    }
  }

  /** The oldest pid of the most urgent non-empty level; None exactly when nothing is queued. */
  lemma PopSpec(q: Queue)
    requires Consistent(q)
    ensures Consistent(Pop(q).0)
    ensures Pop(q).1.None? <==> forall i :: 0 <= i < LEVELS ==> q.levels[i] == []
    ensures Pop(q).1.None? ==> Pop(q).0 == q
    ensures Pop(q).1.Some? ==>
              exists p :: 0 <= p < LEVELS && q.levels[p] != [] && Pop(q).1.value == q.levels[p][0]
                && Pop(q).0.levels == q.levels[p := q.levels[p][1..]]
                && forall i :: 0 <= i < p ==> q.levels[i] == []
  {
    hide Marked, Flag, TrailingZeros;
    TrailingZerosSpec(q.mask, 0);
    var p := TrailingZeros(q.mask, 0);
    if q.mask == 0 {
      forall i | 0 <= i < LEVELS ensures q.levels[i] == [] {
        ZeroUnmarked(i);
      }
    } else if p == LEVELS {
      NoBitsIsZero(q.mask);
      assert false;
    } else {
      var q' := Pop(q).0;
      forall i | 0 <= i < LEVELS ensures Marked(q'.mask, i) <==> q'.levels[i] != [] {
        MaskBits(q.mask, p, i);
      }
    }
  }

  class RunQueue {
    var levels: seq<seq<Pid>>
    var mask: bv8

    function Abs(): Queue
      reads this
    {
      Queue(levels, mask)
    }

    constructor ()
      ensures Abs() == EMPTY_QUEUE
    {
      levels, mask := [[], [], [], [], [], [], [], []], 0;
    }

    method Enqueue(pid: Pid, prio: nat)
      requires |levels| == LEVELS
      modifies this
      ensures Abs() == Push(old(Abs()), pid, prio)
    {
      var p := Level(prio);
      levels := levels[p := levels[p] + [pid]];
      mask := mask | Flag(p);
    }

    method Dequeue() returns (pid: Option<Pid>)
      requires |levels| == LEVELS
      modifies this
      ensures (Abs(), pid) == Pop(old(Abs()))
    {
      if mask == 0 {
        return None;
      }
      var p := TrailingZeros(mask, 0);
      if p >= LEVELS || levels[p] == [] {
        return None;
      }
      pid := Some(levels[p][0]);
      levels := levels[p := levels[p][1..]];
      if levels[p] == [] {
        mask := mask & !Flag(p);
      }
    }
  }
}
