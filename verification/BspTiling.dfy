/**
 Binary space partition tiling and the window list of compositor/src/main.rs. Rectangles are sets of
 points, as `Rect::contains` reads them. Window titles, opacity and the progress of animations are not
 part of the model; where an animation leads is.
 */
module BspTiling {
  import opened Prelude

  const I32_LIMIT: int := 0x8000_0000

  datatype Rect = Rect(x: int, y: int, w: nat, h: nat)

  /** `Rect::contains`. */
  predicate Has(r: Rect, px: int, py: int) { r.x <= px < r.x + r.w && r.y <= py < r.y + r.h }

  predicate Inside(r: Rect, area: Rect) {
    area.x <= r.x && r.x + r.w <= area.x + area.w && area.y <= r.y && r.y + r.h <= area.y + area.h
  }

  ghost predicate Disjoint(a: Rect, b: Rect) { forall px, py :: Has(a, px, py) ==> !Has(b, px, py) }

  /** The rectangle's edges are `i32` values, so no sum in the partition overflows. */
  predicate Representable(r: Rect) {
    -I32_LIMIT <= r.x && r.x + r.w < I32_LIMIT && -I32_LIMIT <= r.y && r.y + r.h < I32_LIMIT && r.w < U32 && r.h < U32
  }

  /** `gap as u32 / 2`: a negative gap becomes very large. */
  function HalfGap(gap: int): nat
    requires -I32_LIMIT <= gap < I32_LIMIT
  {
    (if gap < 0 then gap + U32 else gap) / 2
  }

  function SaturatingSub(a: nat, b: nat): nat { if a >= b then a - b else 0 }

  // ----- The partition -----

  function First(area: Rect, half: nat): Rect {
    if area.w >= area.h then Rect(area.x, area.y, SaturatingSub(area.w / 2, half), area.h)
    else Rect(area.x, area.y, area.w, SaturatingSub(area.h / 2, half))
  }

  function Second(area: Rect): Rect {
    if area.w >= area.h then Rect(area.x + area.w / 2, area.y, area.w - area.w / 2, area.h)
    else Rect(area.x, area.y + area.h / 2, area.w, area.h - area.h / 2)
  }

  function BspRects(area: Rect, n: nat, gap: int): (r: seq<Rect>)
    requires -I32_LIMIT <= gap < I32_LIMIT
    ensures |r| == n
    decreases n
  {
    if n == 0 then []
    else if n == 1 then [area]
    else BspRects(First(area, HalfGap(gap)), n / 2, gap) + BspRects(Second(area), n - n / 2, gap)
  }

  lemma HalvesFit(area: Rect, half: nat)
    ensures Inside(First(area, half), area) && Inside(Second(area), area)
    ensures Disjoint(First(area, half), Second(area))
    ensures Representable(area) ==> Representable(First(area, half)) && Representable(Second(area))
  {
  }

  lemma InsideApart(a: Rect, b: Rect, p: Rect, q: Rect)
    requires Inside(p, a) && Inside(q, b) && Disjoint(a, b)
    ensures Disjoint(p, q)
  {
    forall px, py | Has(p, px, py) ensures !Has(q, px, py) {
      assert Has(a, px, py);
    }
  }

  /** Every tile lies in the area, and no two tiles share a point. */
  lemma {:induction false} TilesApart(area: Rect, n: nat, gap: int)
    requires -I32_LIMIT <= gap < I32_LIMIT
    ensures forall i :: 0 <= i < n ==> Inside(BspRects(area, n, gap)[i], area)
    ensures Representable(area) ==> forall i :: 0 <= i < n ==> Representable(BspRects(area, n, gap)[i])
    ensures forall i, j :: 0 <= i < j < n ==> Disjoint(BspRects(area, n, gap)[i], BspRects(area, n, gap)[j])
    decreases n
  {
    hide Disjoint, First, Second;
    if n > 1 {
      var a, b, left := First(area, HalfGap(gap)), Second(area), n / 2;
      var ra, rb := BspRects(a, left, gap), BspRects(b, n - left, gap);
      HalvesFit(area, HalfGap(gap));
      TilesApart(a, left, gap);
      TilesApart(b, n - left, gap);
      var r := ra + rb;
      forall i, j | 0 <= i < j < n ensures Disjoint(r[i], r[j]) {
        if i < left <= j {
          InsideApart(a, b, ra[i], rb[j - left]);
        }
      }
    }
  }

  ghost predicate Covered(rs: seq<Rect>, px: int, py: int) { exists i :: 0 <= i < |rs| && Has(rs[i], px, py) }

  ghost predicate Covers(rs: seq<Rect>, area: Rect) { forall px, py :: Has(area, px, py) ==> Covered(rs, px, py) }

  lemma CoveredBy(a: seq<Rect>, b: seq<Rect>, px: int, py: int)
    ensures Covered(a + b, px, py) <==> Covered(a, px, py) || Covered(b, px, py)
  {
    if i :| 0 <= i < |a| && Has(a[i], px, py) {
      assert Has((a + b)[i], px, py);
    }
    if i :| 0 <= i < |b| && Has(b[i], px, py) {
      assert Has((a + b)[|a| + i], px, py);
    }
  }

  predicate Empty(r: Rect) { r.w == 0 || r.h == 0 }

  /** When the tiles leave no hole: no gap is cut, or there is nothing to cut it from. */
  predicate NoHole(area: Rect, n: nat, half: nat) {
    Empty(area) || (n > 0 && (half == 0 || n == 1 || (area.w == 1 && area.h == 1)))
  }

  lemma SplitCovers(area: Rect, px: int, py: int)
    requires Has(area, px, py)
    ensures Has(First(area, 0), px, py) || Has(Second(area), px, py)
    ensures area.w == 1 && area.h == 1 ==> Second(area) == area
  {
  }

  lemma {:induction false} FullCover(area: Rect, n: nat, gap: int, px: int, py: int)
    requires -I32_LIMIT <= gap < I32_LIMIT && NoHole(area, n, HalfGap(gap)) && Has(area, px, py)
    ensures Covered(BspRects(area, n, gap), px, py)
    decreases n
  {
    hide First, Second, HalfGap;
    var half := HalfGap(gap);
    if n == 1 {
      assert Has(BspRects(area, n, gap)[0], px, py);
    } else {
      var a, b := First(area, half), Second(area);
      SplitCovers(area, px, py);
      CoveredBy(BspRects(a, n / 2, gap), BspRects(b, n - n / 2, gap), px, py);
      if half == 0 && Has(a, px, py) {
        FullCover(a, n / 2, gap, px, py);
      } else {
        FullCover(b, n - n / 2, gap, px, py);
      }
    }
  }

  /** The last row or column before the cut, which a gap of at least two removes. */
  function HoleX(area: Rect): int { if area.w >= area.h then area.x + area.w / 2 - 1 else area.x }

  function HoleY(area: Rect): int { if area.w >= area.h then area.y else area.y + area.h / 2 - 1 }

  lemma CutLeavesHole(area: Rect, half: nat)
    requires half > 0 && !Empty(area) && !(area.w == 1 && area.h == 1)
    ensures Has(area, HoleX(area), HoleY(area))
    ensures !Has(First(area, half), HoleX(area), HoleY(area)) && !Has(Second(area), HoleX(area), HoleY(area))
  {
  }

  lemma OutsideUncovered(area: Rect, n: nat, gap: int, px: int, py: int)
    requires -I32_LIMIT <= gap < I32_LIMIT && !Has(area, px, py)
    ensures !Covered(BspRects(area, n, gap), px, py)
  {
    TilesApart(area, n, gap);
  }

  /** The tiles cover the whole area exactly when no gap is cut: gap 0 or 1, one window, or nothing to cut. */
  lemma CoversIff(area: Rect, n: nat, gap: int)
    requires -I32_LIMIT <= gap < I32_LIMIT
    ensures Covers(BspRects(area, n, gap), area) <==> NoHole(area, n, HalfGap(gap))
  {
    hide BspRects, HalfGap;
    var half := HalfGap(gap);
    if NoHole(area, n, half) {
      forall px, py | Has(area, px, py) ensures Covered(BspRects(area, n, gap), px, py) {
        FullCover(area, n, gap, px, py);
      }
    } else {
      HoleFound(area, n, gap);
    }
  }

  lemma HoleFound(area: Rect, n: nat, gap: int)
    requires -I32_LIMIT <= gap < I32_LIMIT && !NoHole(area, n, HalfGap(gap))
    ensures exists px, py :: Has(area, px, py) && !Covered(BspRects(area, n, gap), px, py)
  {
    if n == 0 {
      assert Has(area, area.x, area.y) && !Covered(BspRects(area, n, gap), area.x, area.y);
    } else {
      var half, px, py := HalfGap(gap), HoleX(area), HoleY(area);
      var a, b := First(area, half), Second(area);
      CutLeavesHole(area, half);
      OutsideUncovered(a, n / 2, gap, px, py);
      OutsideUncovered(b, n - n / 2, gap, px, py);
      CoveredBy(BspRects(a, n / 2, gap), BspRects(b, n - n / 2, gap), px, py);
      assert Has(area, px, py) && !Covered(BspRects(area, n, gap), px, py);
    }
  }

  /** With no hole, every point belongs to exactly one tile. */
  lemma ExactlyOneTile(area: Rect, n: nat, gap: int, px: int, py: int)
    requires -I32_LIMIT <= gap < I32_LIMIT && NoHole(area, n, HalfGap(gap)) && Has(area, px, py)
    ensures exists i :: 0 <= i < n && Has(BspRects(area, n, gap)[i], px, py)
                        && forall j :: 0 <= j < n && j != i ==> !Has(BspRects(area, n, gap)[j], px, py)
  {
    hide BspRects, HalfGap;
    TilesApart(area, n, gap);
    FullCover(area, n, gap, px, py);
    var r := BspRects(area, n, gap);
    var i :| 0 <= i < |r| && Has(r[i], px, py);
    forall j | 0 <= j < n && j != i ensures !Has(r[j], px, py) {
      assert Disjoint(r[if i < j then i else j], r[if i < j then j else i]);
    }
  }

  // ----- Where the cut goes -----

  function Longer(r: Rect): nat { Max(r.w, r.h) }

  function Shorter(r: Rect): nat { Min(r.w, r.h) }

  /** It is the longer side that is cut, into halves: neither part is longer than what that leaves. */
  lemma LongerSideIsCut(area: Rect, half: nat)
    ensures Longer(First(area, half)) <= Max(Shorter(area), Longer(area) / 2)
    ensures Longer(Second(area)) == Max(Shorter(area), Longer(area) - Longer(area) / 2)
  {
  }

  /**
   Between the parts lies a strip of half the gap, unless the first half has less than that; a negative gap
   counts as a very large one.
   */
  lemma StripBetween(area: Rect, gap: int, px: int, py: int)
    requires -I32_LIMIT <= gap < I32_LIMIT
    ensures var half := if gap >= 0 then gap / 2 else (gap + 0x1_0000_0000) / 2;
            Has(area, px, py) && !Has(First(area, HalfGap(gap)), px, py) && !Has(Second(area), px, py) <==>
              Has(area, px, py) &&
              if area.w >= area.h
              then area.x + area.w / 2 - Min(half, area.w / 2) <= px < area.x + area.w / 2
              else area.y + area.h / 2 - Min(half, area.h / 2) <= py < area.y + area.h / 2
  {
  }

  /** The first `n / 2` windows go to the first part of the cut, the others to the second. */
  lemma WindowsShared(area: Rect, n: nat, gap: int)
    requires -I32_LIMIT <= gap < I32_LIMIT && n > 1
    ensures forall i :: 0 <= i < n ==>
              Inside(BspRects(area, n, gap)[i], if i < n / 2 then First(area, HalfGap(gap)) else Second(area))
  {
    hide First, Second, HalfGap;
    TilesApart(First(area, HalfGap(gap)), n / 2, gap);
    TilesApart(Second(area), n - n / 2, gap);
  }

  // ----- When the slices are equal -----

  function Area(r: Rect): nat { r.w * r.h }

  ghost predicate AllOfArea(rs: seq<Rect>, size: nat) { forall i :: 0 <= i < |rs| ==> Area(rs[i]) == size }

  ghost predicate SameArea(rs: seq<Rect>) { exists size: nat :: AllOfArea(rs, size) }

  /** `x` is a multiple of 2^k. */
  predicate Halvable(x: nat, k: nat) { k == 0 || (x % 2 == 0 && Halvable(x / 2, k - 1)) }

  function Pow2(k: nat): nat { if k == 0 then 1 else 2 * Pow2(k - 1) }

  lemma Regroup(q: nat, p: nat)
    ensures q * (2 * p) == 2 * (q * p)
  {
  }

  lemma {:induction false} MultipleIsHalvable(q: nat, k: nat)
    ensures Halvable(q * Pow2(k), k)
    decreases k
  {
    if k > 0 {
      Regroup(q, Pow2(k - 1));
      MultipleIsHalvable(q, k - 1);
    }
  }

  lemma {:induction false} HalvableIsMultiple(x: nat, k: nat) returns (q: nat)
    requires Halvable(x, k)
    ensures x == q * Pow2(k)
    decreases k
  {
    if k == 0 {
      q := x;
    } else {
      q := HalvableIsMultiple(x / 2, k - 1);
      Regroup(q, Pow2(k - 1));
    }
  }

  lemma {:induction false} HalvableLess(x: nat, k: nat, j: nat)
    requires Halvable(x, k) && j <= k
    ensures Halvable(x, j)
  {
    if j > 0 {
      HalvableLess(x / 2, k - 1, j - 1);
    }
  }

  predicate PowerOfTwo(n: nat) { n == 1 || (n > 0 && n % 2 == 0 && PowerOfTwo(n / 2)) }

  lemma SplitProduct(a: nat, b: nat, h: nat)
    ensures (a + b) * h == a * h + b * h && h * (a + b) == h * a + h * b
  {
  }

  /** An ungapped cut loses no area, and halves it where the cut side is even. */
  lemma CutArea(area: Rect)
    ensures Area(First(area, 0)) + Area(Second(area)) == Area(area)
    ensures area.w % 2 == 0 && area.h % 2 == 0 ==> Area(First(area, 0)) == Area(Second(area))
  {
    SplitProduct(area.w / 2, area.w - area.w / 2, area.h);
    SplitProduct(area.h / 2, area.h - area.h / 2, area.w);
  }

  /** Ungapped tiles of equal area share the whole area. */
  lemma {:induction false} AreaShared(area: Rect, n: nat, gap: int, size: nat)
    requires -I32_LIMIT <= gap < I32_LIMIT && HalfGap(gap) == 0 && n >= 1 && AllOfArea(BspRects(area, n, gap), size)
    ensures n * size == Area(area)
    decreases n
  {
    hide HalfGap, Area, First, Second;
    if n == 1 {
      assert BspRects(area, n, gap)[0] == area;
    } else {
      var a, b, left := First(area, 0), Second(area), n / 2;
      TilesSplit(area, n, gap);
      PartsOfArea(BspRects(a, left, gap), BspRects(b, n - left, gap), size);
      AreaShared(a, left, gap, size);
      AreaShared(b, n - left, gap, size);
      CutArea(area);
      SplitProduct(left, n - left, size);
    }
  }

  lemma TilesSplit(area: Rect, n: nat, gap: int)
    requires -I32_LIMIT <= gap < I32_LIMIT && HalfGap(gap) == 0 && n > 1
    ensures BspRects(area, n, gap) == BspRects(First(area, 0), n / 2, gap) + BspRects(Second(area), n - n / 2, gap)
  {
    hide HalfGap, First, Second;
  }

  lemma PartsOfArea(a: seq<Rect>, b: seq<Rect>, size: nat)
    ensures AllOfArea(a + b, size) <==> AllOfArea(a, size) && AllOfArea(b, size)
  {
    hide Area;
    assert forall i :: 0 <= i < |a| ==> (a + b)[i] == a[i];
    assert forall i :: 0 <= i < |b| ==> (a + b)[|a| + i] == b[i];
  }

  lemma SameFactor(m: nat, n: nat, size: nat)
    requires size > 0 && m * size == n * size
    ensures m == n
  {
  }

  lemma SameShare(n: nat, x: nat, y: nat)
    requires n > 0 && n * x == n * y
    ensures x == y
  {
  }

  lemma PositiveShare(n: nat, size: nat)
    requires n * size > 0
    ensures size > 0
  {
  }

  lemma HalvesStayHalvable(area: Rect, d: nat)
    requires d > 0 && area.w > 0 && area.h > 0 && Halvable(area.w, d) && Halvable(area.h, d)
    ensures area.w % 2 == 0 && area.h % 2 == 0
    ensures var a := First(area, 0); a.w > 0 && a.h > 0 && Halvable(a.w, d - 1) && Halvable(a.h, d - 1)
    ensures var b := Second(area); b.w > 0 && b.h > 0 && Halvable(b.w, d - 1) && Halvable(b.h, d - 1)
  {
    HalvableLess(area.w, d, d - 1);
    HalvableLess(area.h, d, d - 1);
  }

  /** The half of the windows on either side of the cut: equal tiles need as many on the left as on the right. */
  lemma EqualTilesHalve(area: Rect, n: nat, gap: int, size: nat)
    requires -I32_LIMIT <= gap < I32_LIMIT && HalfGap(gap) == 0 && n > 1 && Area(area) > 0
    requires Area(First(area, 0)) == Area(Second(area)) && AllOfArea(BspRects(area, n, gap), size)
    ensures n % 2 == 0 && AllOfArea(BspRects(First(area, 0), n / 2, gap), size)
  {
    hide HalfGap, Area, First, Second, BspRects;
    var a, b, left := First(area, 0), Second(area), n / 2;
    TilesSplit(area, n, gap);
    PartsOfArea(BspRects(a, left, gap), BspRects(b, n - left, gap), size);
    AreaShared(area, n, gap, size);
    AreaShared(a, left, gap, size);
    AreaShared(b, n - left, gap, size);
    PositiveShare(n, size);
    SameFactor(left, n - left, size);
  }

  /** Two halves tiled evenly, with as many windows and the same area, are tiled evenly together. */
  lemma EvenHalvesJoin(area: Rect, n: nat, gap: int)
    requires -I32_LIMIT <= gap < I32_LIMIT && HalfGap(gap) == 0 && n > 1 && n % 2 == 0
    requires Area(First(area, 0)) == Area(Second(area))
    requires SameArea(BspRects(First(area, 0), n / 2, gap)) && SameArea(BspRects(Second(area), n / 2, gap))
    ensures SameArea(BspRects(area, n, gap))
  {
    hide HalfGap, Area, First, Second, BspRects, AllOfArea;
    var a, b := First(area, 0), Second(area);
    var x: nat :| AllOfArea(BspRects(a, n / 2, gap), x);
    var y: nat :| AllOfArea(BspRects(b, n / 2, gap), y);
    AreaShared(a, n / 2, gap, x);
    AreaShared(b, n / 2, gap, y);
    SameShare(n / 2, x, y);
    TilesSplit(area, n, gap);
    PartsOfArea(BspRects(a, n / 2, gap), BspRects(b, n / 2, gap), x);
  }

  /**
   Without a gap, for up to 2^d windows on an area with sides that are multiples of 2^d, the slices are
   equal exactly when the number of windows is a power of two.
   */
  lemma {:induction false} SlicesEqualIff(area: Rect, n: nat, gap: int, d: nat)
    requires -I32_LIMIT <= gap < I32_LIMIT && HalfGap(gap) == 0 && n >= 1 && area.w > 0 && area.h > 0
    requires n <= Pow2(d) && Halvable(area.w, d) && Halvable(area.h, d)
    ensures SameArea(BspRects(area, n, gap)) <==> PowerOfTwo(n)
    decreases n
  {
    hide HalfGap, First, Second, SameArea, AllOfArea;
    if n == 1 {
      OneTile(area, gap);
    } else {
      HalvesStayHalvable(area, d);
      CutArea(area);
      if PowerOfTwo(n) {
        SlicesEqualIff(First(area, 0), n / 2, gap, d - 1);
        SlicesEqualIff(Second(area), n / 2, gap, d - 1);
        EvenHalvesJoin(area, n, gap);
      }
      if SameArea(BspRects(area, n, gap)) {
        var size := TileSize(area, n, gap);
        EqualTilesHalve(area, n, gap, size);
        HalfIsSame(area, n, gap, size);
        SlicesEqualIff(First(area, 0), n / 2, gap, d - 1);
      }
    }
  }

  lemma OneTile(area: Rect, gap: int)
    requires -I32_LIMIT <= gap < I32_LIMIT
    ensures SameArea(BspRects(area, 1, gap))
  {
    assert AllOfArea(BspRects(area, 1, gap), Area(area));
  }

  lemma TileSize(area: Rect, n: nat, gap: int) returns (size: nat)
    requires -I32_LIMIT <= gap < I32_LIMIT && SameArea(BspRects(area, n, gap))
    ensures AllOfArea(BspRects(area, n, gap), size)
  {
    hide AllOfArea, BspRects;
    size :| AllOfArea(BspRects(area, n, gap), size);
  }

  lemma HalfIsSame(area: Rect, n: nat, gap: int, size: nat)
    requires -I32_LIMIT <= gap < I32_LIMIT && AllOfArea(BspRects(First(area, 0), n / 2, gap), size)
    ensures SameArea(BspRects(First(area, 0), n / 2, gap))
  {
  }

  // ----- The window list -----

  datatype Window = Window(
    id: nat, rect: Rect, visible: bool, focused: bool, floating: bool, desktop: nat,
    from: Option<Rect>, target: Option<Rect>)

  function Center(r: Rect): Rect { Rect(r.x + r.w / 2, r.y + r.h / 2, 0, 0) }

  /** `Window::new`. */
  function NewWindow(id: nat, rect: Rect, desktop: nat): Window {
    Window(id, rect, true, false, true, desktop, Some(Center(rect)), Some(rect))
  }

  predicate Active(w: Window, desk: nat) { w.visible && w.desktop == desk }

  /** The positions of the active windows, in order. */
  function Indices(ws: seq<Window>, desk: nat): (r: seq<nat>)
    ensures |r| <= |ws| && forall k :: 0 <= k < |r| ==> r[k] < |ws| && Active(ws[r[k]], desk)
  {
    if ws == [] then []
    else Indices(DropLast(ws), desk) + if Active(Last(ws), desk) then [|ws| - 1] else []
  }

  /** How many active windows come before position `i`. */
  function Rank(ws: seq<Window>, desk: nat, i: nat): nat
    requires i <= |ws|
  {
    |Indices(ws[..i], desk)|
  }

  lemma {:induction false} RankSpec(ws: seq<Window>, desk: nat, i: nat)
    requires i < |ws|
    ensures Active(ws[i], desk) ==> Rank(ws, desk, i) < |Indices(ws, desk)| && Indices(ws, desk)[Rank(ws, desk, i)] == i
  {
    if i == |ws| - 1 {
      assert ws[..i] == DropLast(ws);
    } else {
      assert ws[..i] == DropLast(ws)[..i] && DropLast(ws)[i] == ws[i];
      RankSpec(DropLast(ws), desk, i);
    }
  }

  lemma {:induction false} IndexRank(ws: seq<Window>, desk: nat, k: nat)
    requires k < |Indices(ws, desk)|
    ensures Rank(ws, desk, Indices(ws, desk)[k]) == k
  {
    var before := Indices(DropLast(ws), desk);
    if k < |before| {
      IndexRank(DropLast(ws), desk, k);
      assert ws[..before[k]] == DropLast(ws)[..before[k]];
    } else {
      assert ws[..|ws| - 1] == DropLast(ws);
    }
  }

  /** `animate_to`, and no longer floating. */
  function Tile(w: Window, r: Rect): Window { w.(from := Some(w.rect), target := Some(r), floating := false) }

  function Retiled(ws: seq<Window>, desk: nat, screen: Rect, gap: int): seq<Window>
    requires -I32_LIMIT <= gap < I32_LIMIT
  {
    seq(|ws|, i requires 0 <= i < |ws| => TiledAt(ws, desk, screen, gap, i))
  }

  /** Where window `i` goes: the tile of its rank, or nowhere when it is not on the active desktop. */
  function TiledAt(ws: seq<Window>, desk: nat, screen: Rect, gap: int, i: nat): Window
    requires -I32_LIMIT <= gap < I32_LIMIT && i < |ws|
  {
    RankSpec(ws, desk, i);
    if Active(ws[i], desk) then Tile(ws[i], BspRects(screen, |Indices(ws, desk)|, gap)[Rank(ws, desk, i)]) else ws[i]
  }

  /** The active windows head for tiles inside the screen that share no point. */
  ghost predicate Tiled(ws: seq<Window>, desk: nat, screen: Rect) {
    && (forall i :: 0 <= i < |ws| && Active(ws[i], desk) ==>
          ws[i].target.Some? && Inside(ws[i].target.value, screen) && !ws[i].floating)
    && forall i, j :: 0 <= i < j < |ws| && Active(ws[i], desk) && Active(ws[j], desk) ==>
         ws[i].target.Some? && ws[j].target.Some? && Disjoint(ws[i].target.value, ws[j].target.value)
  }

  lemma RetiledIsTiled(ws: seq<Window>, desk: nat, screen: Rect, gap: int)
    requires -I32_LIMIT <= gap < I32_LIMIT
    ensures Tiled(Retiled(ws, desk, screen, gap), desk, screen)
  {
    hide Disjoint, BspRects, Rank, Indices, Inside;
    var n := |Indices(ws, desk)|;
    var rects, ws' := BspRects(screen, n, gap), Retiled(ws, desk, screen, gap);
    TilesApart(screen, n, gap);
    forall i | 0 <= i < |ws| && Active(ws'[i], desk) ensures TileOf(ws, desk, screen, gap, i) {
      RankSpec(ws, desk, i);
    }
    forall i, j | 0 <= i < j < |ws'| && Active(ws'[i], desk) && Active(ws'[j], desk)
      ensures Disjoint(ws'[i].target.value, ws'[j].target.value)
    {
      assert TileOf(ws, desk, screen, gap, i) && TileOf(ws, desk, screen, gap, j);
      RankSpec(ws, desk, i);
      RankSpec(ws, desk, j);
      var a, b := Rank(ws, desk, i), Rank(ws, desk, j);
      assert Disjoint(rects[Min(a, b)], rects[Max(a, b)]);
      DisjointBoth(rects[a], rects[b]);
    }
  }

  /** The positions of the active windows, each once, in order. */
  lemma {:induction false} IndicesSpec(ws: seq<Window>, desk: nat)
    ensures forall i, j :: 0 <= i < j < |Indices(ws, desk)| ==> Indices(ws, desk)[i] < Indices(ws, desk)[j]
    ensures forall p: nat :: p < |ws| ==> (p in Indices(ws, desk) <==> Active(ws[p], desk))
  {
    if ws != [] {
      IndicesSpec(DropLast(ws), desk);
      forall p: nat | p < |ws| ensures p in Indices(ws, desk) <==> Active(ws[p], desk) {
        if p < |ws| - 1 {
          assert DropLast(ws)[p] == ws[p];
        }
      }
    }
  }

  /**
   The k-th active window is sent from where it is to the k-th tile of the screen cut for all of them, and
   is no longer floating; nothing else changes.
   */
  lemma RetiledInOrder(ws: seq<Window>, desk: nat, screen: Rect, gap: int)
    requires -I32_LIMIT <= gap < I32_LIMIT
    ensures var (before, after) := (Indices(ws, desk), Retiled(ws, desk, screen, gap));
            && |after| == |ws|
            && (forall k :: 0 <= k < |before| ==>
                  after[before[k]] == ws[before[k]].(from := Some(ws[before[k]].rect), floating := false,
                                                     target := Some(BspRects(screen, |before|, gap)[k])))
            && forall p: nat :: p < |ws| && p !in before ==> after[p] == ws[p]
  {
    hide BspRects, Rank, Indices;
    IndicesSpec(ws, desk);
    var before := Indices(ws, desk);
    forall k | 0 <= k < |before| ensures Rank(ws, desk, before[k]) == k {
      IndexRank(ws, desk, k);
    }
  }

  ghost predicate TileOf(ws: seq<Window>, desk: nat, screen: Rect, gap: int, i: nat)
    requires -I32_LIMIT <= gap < I32_LIMIT && i < |ws|
  {
    var rects := BspRects(screen, |Indices(ws, desk)|, gap);
    && Rank(ws, desk, i) < |rects|
    && TiledAt(ws, desk, screen, gap, i).target == Some(rects[Rank(ws, desk, i)])
    && !TiledAt(ws, desk, screen, gap, i).floating
  }

  lemma DisjointBoth(a: Rect, b: Rect)
    ensures Disjoint(a, b) <==> Disjoint(b, a)
  {
  }

  // ----- The compositor -----

  const DESKTOPS: nat := 4
  const GAP: int := 4

  ghost predicate DistinctIds(ws: seq<Window>) { forall i, j :: 0 <= i < j < |ws| ==> ws[i].id != ws[j].id }

  function SetFocus(ws: seq<Window>, id: nat): seq<Window> {
    seq(|ws|, i requires 0 <= i < |ws| => ws[i].(focused := ws[i].id == id))
  }

  /** The windows left after closing one, in their old order. */
  function Without(ws: seq<Window>, id: nat): (r: seq<Window>)
    ensures |r| <= |ws| && forall w :: w in r <==> w in ws && w.id != id
  {
    if ws == [] then []
    else
      assert ws == DropLast(ws) + [Last(ws)];
      Without(DropLast(ws), id) + if Last(ws).id == id then [] else [Last(ws)]
  }

  lemma WithoutLast(ws: seq<Window>, w: Window, id: nat)
    ensures Without(ws + [w], id) == Without(ws, id) + if w.id == id then [] else [w]
  {
    assert DropLast(ws + [w]) == ws;
  }

  /** The windows that stay keep their order. */
  lemma {:induction false} WithoutInOrder(a: seq<Window>, b: seq<Window>, id: nat)
    ensures Without(a + b, id) == Without(a, id) + Without(b, id)
    decreases |b|
  {
    hide Without;
    if b == [] {
      assert a + b == a;
      WithoutNothing(id);
    } else {
      var rest, w := DropLast(b), Last(b);
      assert b == rest + [w] && a + b == (a + rest) + [w];
      WithoutInOrder(a, rest, id);
      WithoutLast(rest, w, id);
      WithoutLast(a + rest, w, id);
    }
  }

  lemma WithoutNothing(id: nat)
    ensures Without([], id) == []
  {
  }

  lemma {:induction false} WithoutDistinct(ws: seq<Window>, id: nat)
    requires DistinctIds(ws)
    ensures DistinctIds(Without(ws, id))
  {
    if ws != [] {
      var rest := Without(DropLast(ws), id);
      WithoutDistinct(DropLast(ws), id);
      forall i | 0 <= i < |rest| ensures rest[i].id != Last(ws).id {
        assert rest[i] in DropLast(ws);
      }
    }
  }

  lemma PlaceOne(ws: seq<Window>, desk: nat, screen: Rect, k: nat)
    requires k < |Indices(ws, desk)|
    ensures TiledAt(ws, desk, screen, GAP, Indices(ws, desk)[k])
         == Tile(ws[Indices(ws, desk)[k]], BspRects(screen, |Indices(ws, desk)|, GAP)[k])
    ensures forall i: nat :: i < |ws| && i != Indices(ws, desk)[k] && Rank(ws, desk, i) == k ==>
              TiledAt(ws, desk, screen, GAP, i) == ws[i]
  {
    hide BspRects, Rank;
    IndexRank(ws, desk, k);
    forall i: nat | i < |ws| && i != Indices(ws, desk)[k] && Rank(ws, desk, i) == k
      ensures TiledAt(ws, desk, screen, GAP, i) == ws[i]
    {
      RankSpec(ws, desk, i);
    }
  }

  lemma RestStays(ws: seq<Window>, desk: nat, screen: Rect)
    ensures forall i: nat :: i < |ws| && Rank(ws, desk, i) >= |Indices(ws, desk)| ==>
              TiledAt(ws, desk, screen, GAP, i) == ws[i]
  {
    hide BspRects, Rank;
    forall i: nat | i < |ws| && Rank(ws, desk, i) >= |Indices(ws, desk)|
      ensures TiledAt(ws, desk, screen, GAP, i) == ws[i]
    {
      RankSpec(ws, desk, i);
    }
  }

  /** Retiling changes where windows go, not which windows there are. */
  lemma RetiledKeeps(ws: seq<Window>, desk: nat, screen: Rect)
    ensures var r := Retiled(ws, desk, screen, GAP);
            |r| == |ws| && forall i :: 0 <= i < |ws| ==>
              r[i].id == ws[i].id && r[i].visible == ws[i].visible && r[i].focused == ws[i].focused
              && r[i].desktop == ws[i].desktop && r[i].rect == ws[i].rect
  {
    hide BspRects, Rank, Indices;
  }

  class Compositor {
    var windows: seq<Window>
    var nextWid: nat
    var activeDesk: nat
    var focused: Option<nat>
    var tiling: bool
    const screen: Rect

    /** Ids are never reused, closed windows are gone, and at most the window named last has the focus. */
    ghost predicate Valid()
      reads this
    {
      && DistinctIds(windows) && activeDesk < DESKTOPS && nextWid > 0
      && (forall w :: w in windows ==> 0 < w.id < nextWid && w.visible)
      && (forall w :: w in windows ==> (w.focused <==> focused == Some(w.id)))
    }

    constructor (screen: Rect)
      ensures this.screen == screen && Valid() && windows == [] && !tiling
    {
      this.screen := screen;
      windows, nextWid, activeDesk, focused, tiling := [], 1, 0, None, false;
    }

    method ActiveIndices() returns (indices: seq<nat>)
      ensures indices == Indices(windows, activeDesk)
    {
      indices := [];
      for i := 0 to |windows|
        invariant indices == Indices(windows[..i], activeDesk)
      {
        assert DropLast(windows[..i + 1]) == windows[..i];
        if Active(windows[i], activeDesk) {
          indices := indices + [i];
        }
      }
      assert windows[..|windows|] == windows;
    }

    method Retile()
      modifies this`windows
      ensures windows == Retiled(old(windows), activeDesk, screen, GAP)
      ensures Tiled(windows, activeDesk, screen)
    {
      hide BspRects, Tiled, TiledAt, Indices, Rank;
      ghost var before := windows;
      var indices := ActiveIndices();
      RetiledIsTiled(before, activeDesk, screen, GAP);
      var rects := BspRects(screen, |indices|, GAP);
      for k := 0 to |indices|
        invariant |windows| == |before|
        invariant forall i: nat :: i < |before| ==>
          windows[i] ==
            if Rank(before, activeDesk, i) < k then TiledAt(before, activeDesk, screen, GAP, i) else before[i]
      {
        var idx := indices[k];
        IndexRank(before, activeDesk, k);
        PlaceOne(before, activeDesk, screen, k);
        windows := windows[idx := Tile(windows[idx], rects[k])];
      }
      RestStays(before, activeDesk, screen);
      assert windows == Retiled(before, activeDesk, screen, GAP);
    }

    /** When tiling is on, whatever a call did is followed by a retile. */
    method RetileIfOn()
      requires Valid()
      modifies this`windows
      ensures Valid() && (tiling ==> Tiled(windows, activeDesk, screen))
      ensures windows == if tiling then Retiled(old(windows), activeDesk, screen, GAP) else old(windows)
    {
      hide Retiled, Tiled;
      if tiling {
        RetiledKeeps(windows, activeDesk, screen);
        Retile();
        assert forall w :: w in windows ==> exists i :: 0 <= i < |windows| && windows[i] == w;
      }
    }

    method Focus(id: nat)
      requires DistinctIds(windows)
      modifies this`windows, this`focused
      ensures windows == SetFocus(old(windows), id) && focused == Some(id)
    {
      for i := 0 to |windows|
        invariant |windows| == |old(windows)|
        invariant forall j :: 0 <= j < |windows| ==>
          windows[j] == if j < i then old(windows)[j].(focused := false) else old(windows)[j]
      {
        windows := windows[i := windows[i].(focused := false)];
      }
      var i := 0;
      while i < |windows| && windows[i].id != id
        invariant i <= |windows| && forall j :: 0 <= j < i ==> windows[j].id != id
      {
        i := i + 1;
      }
      if i < |windows| {
        windows := windows[i := windows[i].(focused := true)];
      }
      focused := Some(id);
    }

    method CreateWindow(rect: Rect) returns (id: nat)
      requires Valid() && nextWid + 1 < U32
      modifies this`windows, this`nextWid, this`focused
      ensures Valid() && id == old(nextWid) && focused == Some(id) && nextWid == old(nextWid) + 1
      ensures var grown := SetFocus(old(windows) + [NewWindow(id, rect, activeDesk)], id);
              windows == if tiling then Retiled(grown, activeDesk, screen, GAP) else grown
      ensures tiling ==> Tiled(windows, activeDesk, screen)
      ensures |windows| == |old(windows)| + 1
      ensures var w := Last(windows);
              && w.id == id && w.rect == rect && w.visible && w.focused && w.desktop == activeDesk
              && (!tiling ==>
                    && w.floating && w.target == Some(rect)
                    && w.from == Some(Rect(rect.x + rect.w / 2, rect.y + rect.h / 2, 0, 0)))
    {
      hide Tiled, Retiled;
      id := nextWid;
      nextWid := nextWid + 1;
      windows := windows + [NewWindow(id, rect, activeDesk)];
      ghost var grown := windows;
      Focus(id);
      forall w | w in windows ensures 0 < w.id < nextWid && w.visible && (w.focused <==> w.id == id) {
        var i :| 0 <= i < |windows| && windows[i] == w;
        assert grown[i] in grown;
      }
      LastRetiled(windows, activeDesk, screen);
      RetileIfOn();
    }

    /** Removes exactly the window with this id; an unknown id removes nothing. */
    method CloseWindow(id: nat)
      requires Valid()
      modifies this`windows
      ensures Valid()
      ensures var left := Without(old(windows), id);
              windows == if tiling then Retiled(left, activeDesk, screen, GAP) else left
      ensures tiling ==> Tiled(windows, activeDesk, screen)
    {
      hide Retiled, Tiled, Visible, Without, DistinctIds;
      MarkInvisible(id);
      WithoutDistinct(old(windows), id);
      windows := Visible(windows);
      RetileIfOn();
    }

    /** The first half of `close_window`: the window with this id, if any, becomes invisible. */
    method MarkInvisible(id: nat)
      requires DistinctIds(windows) && forall w :: w in windows ==> w.visible
      modifies this`windows
      ensures Visible(windows) == Without(old(windows), id)
    {
      hide Visible, Without;
      var i := 0;
      while i < |windows| && windows[i].id != id
        invariant i <= |windows| && forall j :: 0 <= j < i ==> windows[j].id != id
      {
        i := i + 1;
      }
      if i < |windows| {
        windows := windows[i := windows[i].(visible := false)];
      }
      KeepVisible(old(windows), windows, id);
    }

    method ToggleTiling()
      requires Valid()
      modifies this`windows, this`tiling
      ensures Valid() && tiling != old(tiling) && (tiling ==> Tiled(windows, activeDesk, screen))
      ensures windows == if tiling then Retiled(old(windows), activeDesk, screen, GAP) else old(windows)
    {
      hide Retiled, Tiled;
      tiling := !tiling;
      RetileIfOn();
    }

    /** Does not retile: the new desktop's windows stay where they were sent last. */
    method SwitchDesktop(n: nat)
      requires Valid()
      modifies this`activeDesk
      ensures Valid() && activeDesk == if n < DESKTOPS then n else old(activeDesk)
    {
      if n < DESKTOPS {
        activeDesk := n;
      }
    }
  }

  /** A retile changes where a window goes and whether it floats, nothing else. */
  lemma LastRetiled(ws: seq<Window>, desk: nat, screen: Rect)
    requires ws != []
    ensures var (w, w') := (Last(ws), Last(Retiled(ws, desk, screen, GAP)));
            && |Retiled(ws, desk, screen, GAP)| == |ws|
            && w' == w.(from := w'.from, target := w'.target, floating := w'.floating)
  {
    hide Indices, BspRects, Rank;
  }

  /** `retain(|w| w.visible)`. */
  function Visible(ws: seq<Window>): seq<Window> {
    if ws == [] then [] else Visible(DropLast(ws)) + if Last(ws).visible then [Last(ws)] else []
  }

  lemma {:induction false} KeepVisible(ws: seq<Window>, marked: seq<Window>, id: nat)
    requires |marked| == |ws| && forall i :: 0 <= i < |ws| ==> ws[i].visible
    requires forall i :: 0 <= i < |ws| ==>
               if ws[i].id == id then !marked[i].visible else marked[i] == ws[i]
    ensures Visible(marked) == Without(ws, id)
  {
    if ws != [] {
      KeepVisible(DropLast(ws), DropLast(marked), id);
    }
  }
}
