/** Small datatypes and sequence facts shared by the other modules. */
module Prelude {

  datatype Option<+T> = None | Some(value: T)

  datatype Result<+T, +E> = Ok(value: T) | Err(error: E)

  type byte = x: int | 0 <= x < 256

  const U16: nat := 0x1_0000
  const U32: nat := 0x1_0000_0000
  const U64: nat := 0x1_0000_0000_0000_0000

  // ----- Numbers in memory -----

  /** The little-endian number in the `n` bytes at `o`. */
  function Little(d: seq<byte>, o: nat, n: nat): nat
    requires o + n <= |d|
    decreases n
  {
    if n == 0 then 0 else d[o] + 256 * Little(d, o + 1, n - 1)
  }

  function Limit(n: nat): nat { if n == 0 then 1 else 256 * Limit(n - 1) }

  lemma Limits()
    ensures Limit(1) == 256 && Limit(2) == U16 && Limit(4) == U32 && Limit(8) == U64
  {
    assert Limit(4) == 256 * 256 * Limit(2);
    assert Limit(8) == 256 * 256 * Limit(6) && Limit(6) == 256 * 256 * Limit(4);
  }

  lemma {:induction false} LittleZero(a: seq<byte>, o: nat, n: nat)
    requires o + n <= |a| && forall k :: o <= k < o + n ==> a[k] == 0
    ensures Little(a, o, n) == 0
    decreases n
  {
    if n > 0 {
      LittleZero(a, o + 1, n - 1);
    }
  }

  lemma LittleFirst(a: seq<byte>, o: nat, n: nat)
    requires n > 0 && o + n <= |a| && forall k :: o < k < o + n ==> a[k] == 0
    ensures Little(a, o, n) == a[o]
  {
    LittleZero(a, o + 1, n - 1);
  }

  lemma {:induction false} LittleOnes(a: seq<byte>, o: nat, n: nat)
    requires o + n <= |a| && forall k :: o <= k < o + n ==> a[k] == 0xFF
    ensures Little(a, o, n) == Limit(n) - 1
    decreases n
  {
    if n > 0 {
      LittleOnes(a, o + 1, n - 1);
    }
  }

  /** Byte `i` of a little-endian number. */
  function ByteOf(v: nat, i: nat): byte
    decreases i
  {
    if i == 0 then v % 256 else ByteOf(v / 256, i - 1)
  }

  lemma {:induction false} LittleOf(a: seq<byte>, o: nat, n: nat, v: nat)
    requires o + n <= |a| && v < Limit(n) && forall k :: 0 <= k < n ==> a[o + k] == ByteOf(v, k)
    ensures Little(a, o, n) == v
    decreases n
  {
    if n > 0 {
      assert a[o + 0] == ByteOf(v, 0);
      forall k | 0 <= k < n - 1 ensures a[o + 1 + k] == ByteOf(v / 256, k) {
        assert a[o + (k + 1)] == ByteOf(v, k + 1);
      }
      LittleOf(a, o + 1, n - 1, v / 256);
    }
  }

  lemma {:induction false} LittleBound(d: seq<byte>, o: nat, n: nat)
    requires o + n <= |d|
    ensures Little(d, o, n) < Limit(n)
    decreases n
  {
    if n > 0 {
      LittleBound(d, o + 1, n - 1);
    }
  }

  // ----- Division -----

  lemma {:induction false} StepsUp(d: nat, a: nat, b: nat)
    requires a > b
    ensures d * a >= d * b + d
    decreases a
  {
    if a - 1 > b {
      StepsUp(d, a - 1, b);
    }
    assert d * a == d * (a - 1) + d;
  }

  lemma Division(x: nat, d: nat)
    requires d > 0
    ensures x == d * (x / d) + x % d && 0 <= x % d < d
  {
  }

  lemma DivUnique(x: nat, d: nat, q: nat, r: nat)
    requires r < d && x == d * q + r
    ensures x / d == q && x % d == r
  {
    var q', r' := x / d, x % d;
    Division(x, d);
    if q' < q {
      StepsUp(d, q, q');
    } else if q < q' {
      StepsUp(d, q', q);
    }
  }

  lemma RemaindersDiffer(a: nat, b: nat, d: nat)
    requires a < b < a + d
    ensures a % d != b % d
  {
    Division(a, d);
    Division(b, d);
    if b / d > a / d {
      StepsUp(d, b / d, a / d);
    } else if b / d < a / d {
      StepsUp(d, a / d, b / d);
    }
  }

  // ----- Sequences -----

  function Min(a: int, b: int): int { if a <= b then a else b }

  function Max(a: int, b: int): int { if a <= b then b else a }

  function Times(i: nat, size: nat): nat { i * size }

  function Elems<T(==)>(s: seq<T>): set<T> { set x | x in s }

  ghost predicate NoDup<T(!new)>(s: seq<T>) {
    forall i, j :: 0 <= i < j < |s| ==> s[i] != s[j]
  }

  function Last<T>(s: seq<T>): T
    requires s != []
  {
    s[|s| - 1]
  }

  function DropLast<T>(s: seq<T>): seq<T>
    requires s != []
  {
    s[..|s| - 1]
  }

  lemma NoDupAppend<T(!new)>(s: seq<T>, x: T)
    requires NoDup(s) && x !in s
    ensures NoDup(s + [x])
  {
  }

  lemma NoDupTail<T(!new)>(s: seq<T>)
    requires NoDup(s) && s != []
    ensures NoDup(s[1..]) && s[0] !in s[1..]
    ensures forall x :: x in s <==> x == s[0] || x in s[1..]
  {
  }

  lemma {:induction false} NoDupCount<T(!new)>(s: seq<T>)
    requires NoDup(s)
    ensures |Elems(s)| == |s|
  {
    if s != [] {
      NoDupTail(s);
      NoDupCount(s[1..]);
      assert Elems(s) == {s[0]} + Elems(s[1..]);
    }
  }
}
