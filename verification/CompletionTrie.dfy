/**
 The completion index of ai_engine/src/trie.rs: an arena of nodes holding, for every inserted text, its
 best score; `complete` ranks the texts that continue the token being typed. Scores are totally ordered
 numbers.
 */
module CompletionTrie {
  import opened Prelude

  datatype Category = Keyword | Builtin | Snippet | Stdlib | Identifier | Path

  datatype Entry = Entry(score: real, cat: Category)

  /** What the index stands for: each text with its best entry. */
  type Flat = map<string, Entry>

  datatype Item = Item(text: string, score: real)

  // ----- The flat list -----

  /** A better score replaces, an equal one does not. */
  function FlatInsert(flat: Flat, text: string, score: real, cat: Category): Flat {
    if text in flat && score <= flat[text].score then flat else flat[text := Entry(score, cat)]
  }

  datatype Insertion = Insertion(text: string, score: real, cat: Category)

  function FlatAll(ins: seq<Insertion>): Flat {
    if ins == [] then map[]
    else FlatInsert(FlatAll(DropLast(ins)), Last(ins).text, Last(ins).score, Last(ins).cat)
  }

  /** Each stored text carries its maximum inserted score, and the category of the first insertion with it. */
  lemma {:induction false} BestScoreKept(ins: seq<Insertion>, text: string)
    ensures text in FlatAll(ins) <==> exists i :: 0 <= i < |ins| && ins[i].text == text
    ensures forall i :: 0 <= i < |ins| && ins[i].text == text ==> ins[i].score <= FlatAll(ins)[text].score
    ensures text in FlatAll(ins) ==> exists i :: FirstBest(ins, text, i, FlatAll(ins)[text])
  {
    if ins != [] {
      var before := DropLast(ins);
      BestScoreKept(before, text);
      assert forall i :: 0 <= i < |before| ==> before[i] == ins[i];
      if text in FlatAll(ins) {
        if text in FlatAll(before) && FlatAll(ins)[text] == FlatAll(before)[text] {
          var i :| FirstBest(before, text, i, FlatAll(before)[text]);
          assert FirstBest(ins, text, i, FlatAll(ins)[text]);
        } else {
          assert FirstBest(ins, text, |ins| - 1, FlatAll(ins)[text]);
        }
      }
    }
  }

  ghost predicate FirstBest(ins: seq<Insertion>, text: string, i: int, e: Entry) {
    && 0 <= i < |ins| && ins[i].text == text && e == Entry(ins[i].score, ins[i].cat)
    && forall j :: 0 <= j < i && ins[j].text == text ==> ins[j].score < ins[i].score
  }

  // ----- Ranking -----

  predicate LexLess(a: string, b: string) {
    b != [] && (a == [] || a[0] < b[0] || (a[0] == b[0] && LexLess(a[1..], b[1..])))
  }

  lemma {:induction false} LexTotal(a: string, b: string)
    ensures LexLess(a, b) || LexLess(b, a) || a == b
    ensures !(LexLess(a, b) && LexLess(b, a)) && !LexLess(a, a)
  {
    if a != [] && b != [] {
      LexTotal(a[1..], b[1..]);
      if a[0] == b[0] && a[1..] == b[1..] {
        assert a == [a[0]] + a[1..] == b;
      }
    }
    if a != [] {
      LexTotal(a[1..], a[1..]);
    }
  }

  lemma {:induction false} LexTransitive(a: string, b: string, c: string)
    requires LexLess(a, b) && LexLess(b, c)
    ensures LexLess(a, c)
  {
    if a != [] && a[0] == b[0] && b[0] == c[0] {
      LexTransitive(a[1..], b[1..], c[1..]);
    }
  }

  /** Higher score first, then the smaller text. */
  predicate Before(x: Item, y: Item) {
    x.score > y.score || (x.score == y.score && LexLess(x.text, y.text))
  }

  lemma BeforeTransitive(x: Item, y: Item, z: Item)
    requires Before(x, y) && Before(y, z)
    ensures Before(x, z)
  {
    if x.score == y.score == z.score {
      LexTransitive(x.text, y.text, z.text);
    }
  }

  lemma BeforeTotal(x: Item, y: Item)
    ensures Before(x, y) || Before(y, x) || x == y
    ensures !(Before(x, y) && Before(y, x)) && !Before(x, x)
  {
    LexTotal(x.text, y.text);
  }

  ghost predicate Ranked(s: seq<Item>) {
    forall i, j :: 0 <= i < j < |s| ==> Before(s[i], s[j])
  }

  /** Where `x` goes in a ranked list that does not hold it. */
  function Place(s: seq<Item>, x: Item): (r: seq<Item>)
    ensures |r| == |s| + 1 && forall y :: y in r <==> y == x || y in s
  {
    if s == [] then [x]
    else if Before(x, s[0]) then [x] + s
    else
      assert s == [s[0]] + s[1..];
      [s[0]] + Place(s[1..], x)
  }

  lemma {:induction false} PlaceRanked(s: seq<Item>, x: Item)
    requires Ranked(s) && x !in s
    ensures Ranked(Place(s, x))
  {
    if s != [] {
      if Before(x, s[0]) {
        forall j | 0 < j < |s| ensures Before(x, s[j]) {
          BeforeTransitive(x, s[0], s[j]);
        }
      } else {
        PlaceRanked(s[1..], x);
        BeforeTotal(x, s[0]);
        assert s[0] in s;
        var r := Place(s[1..], x);
        forall j | 0 <= j < |r| ensures Before(s[0], r[j]) {
          assert r[j] in r;
        }
      }
    }
  }

  /** `sort_by` on distinct items. */
  function Rank(s: seq<Item>): (r: seq<Item>)
    ensures |r| == |s| && forall y :: y in r <==> y in s
  {
    if s == [] then []
    else
      assert s == DropLast(s) + [Last(s)];
      Place(Rank(DropLast(s)), Last(s))
  }

  lemma {:induction false} RankRanked(s: seq<Item>)
    requires NoDup(s)
    ensures Ranked(Rank(s))
  {
    if s != [] {
      RankRanked(DropLast(s));
      PlaceRanked(Rank(DropLast(s)), Last(s));
    }
  }

  // ----- What a query means -----

  ghost predicate Match(flat: Flat, token: string, it: Item) {
    it.text in flat && token <= it.text && flat[it.text].score == it.score
  }

  /** The texts continuing `token` that are shorter than `n`. */
  ghost function Shorter(flat: Flat, token: string, n: nat): set<string> {
    set t | t in flat && token <= t && |t| < n
  }

  /** `r` is the best `max` matches among those shorter than `cutoff`, best first. */
  ghost predicate TopUpTo(flat: Flat, token: string, max: nat, cutoff: nat, r: seq<Item>) {
    && Ranked(r) && |r| <= max
    && (forall it :: it in r ==> Match(flat, token, it) && |it.text| < cutoff)
    && forall it :: Match(flat, token, it) && |it.text| < cutoff && it !in r ==>
         |r| == max && forall x :: x in r ==> Before(x, it)
  }

  /** The search stops at the first level where 8 * max matches are collected, or when nothing is left. */
  ghost predicate StopsAt(flat: Flat, token: string, max: nat, cutoff: nat) {
    && (|Shorter(flat, token, cutoff)| >= 8 * max || forall t :: t in flat && token <= t ==> |t| < cutoff)
    && (cutoff > |token| ==> |Shorter(flat, token, cutoff - 1)| < 8 * max)
  }

  /** What a query returns: the best `max` matches up to the level where the search stops. */
  ghost predicate Answer(flat: Flat, token: string, max: nat, r: seq<Item>) {
    exists cutoff: nat :: StopsAt(flat, token, max, cutoff) && TopUpTo(flat, token, max, cutoff, r)
  }

  /** `r` is the best `max` of all matches. */
  ghost predicate TopOfAll(flat: Flat, token: string, max: nat, r: seq<Item>) {
    && Ranked(r) && |r| <= max
    && (forall it :: it in r ==> Match(flat, token, it))
    && forall it :: Match(flat, token, it) && it !in r ==> |r| == max && forall x :: x in r ==> Before(x, it)
  }

  /** Fewer than 8 * max matches: the answer is the best `max` of all of them. */
  lemma FewMatchesExact(flat: Flat, token: string, max: nat, r: seq<Item>)
    requires Answer(flat, token, max, r) && |set t | t in flat && token <= t| < 8 * max
    ensures TopOfAll(flat, token, max, r)
  {
    hide Before, Ranked;
    var all := set t | t in flat && token <= t;
    var cutoff: nat :| StopsAt(flat, token, max, cutoff) && TopUpTo(flat, token, max, cutoff, r);
    SubsetSize(Shorter(flat, token, cutoff), all);
  }

  lemma {:induction false} SubsetSize<T>(a: set<T>, b: set<T>)
    requires a <= b
    ensures |a| <= |b|
    decreases |b|
  {
    if x :| x in a {
      SubsetSize(a - {x}, b - {x});
    }
  }

  lemma {:induction false} RankedSame(a: seq<Item>, b: seq<Item>)
    requires Ranked(a) && Ranked(b) && forall x :: x in a <==> x in b
    ensures a == b
    decreases |a|
  {
    hide Before;
    HasSome(a);
    HasSome(b);
    if a != [] && b != [] {
      SameHead(a, b);
      forall x ensures x in a[1..] <==> x in b[1..] {
        TailHas(a, x);
        TailHas(b, x);
      }
      RankedSame(a[1..], b[1..]);
      assert a == [a[0]] + a[1..] && b == [b[0]] + b[1..];
    }
  }

  lemma HasSome(a: seq<Item>)
    ensures a != [] ==> exists x :: x in a
  {
    if a != [] {
      assert a[0] in a;
    }
  }

  lemma SameHead(a: seq<Item>, b: seq<Item>)
    requires Ranked(a) && Ranked(b) && a != [] && b != [] && forall x :: x in a <==> x in b
    ensures a[0] == b[0]
  {
    hide Before;
    BeforeTotal(a[0], b[0]);
    assert a[0] in b && b[0] in a;
    var i :| 0 <= i < |b| && b[i] == a[0];
    var j :| 0 <= j < |a| && a[j] == b[0];
    HeadFirst(b, i);
    HeadFirst(a, j);
  }

  lemma HeadFirst(a: seq<Item>, i: nat)
    requires Ranked(a) && i < |a|
    ensures i == 0 || Before(a[0], a[i])
  {
    hide Before;
  }

  lemma TailHas(a: seq<Item>, x: Item)
    requires Ranked(a) && a != []
    ensures x in a[1..] <==> x in a && x != a[0]
  {
    hide Before;
    BeforeTotal(a[0], a[0]);
    assert a == [a[0]] + a[1..];
    if x in a[1..] {
      var i :| 0 <= i < |a[1..]| && a[1..][i] == x;
      assert Before(a[0], a[i + 1]);
    }
  }

  lemma RankedNoDup(r: seq<Item>)
    requires Ranked(r)
    ensures NoDup(r)
  {
    hide Before;
    forall i, j | 0 <= i < j < |r| ensures r[i] != r[j] {
      BeforeTotal(r[i], r[j]);
    }
  }

  ghost predicate SameRange(flat: Flat, token: string, c: nat, d: nat) {
    forall it :: Match(flat, token, it) ==> (|it.text| < c <==> |it.text| < d)
  }

  lemma CutoffsAgree(flat: Flat, token: string, max: nat, c: nat, d: nat)
    requires StopsAt(flat, token, max, c) && StopsAt(flat, token, max, d) && c <= d && max > 0
    ensures SameRange(flat, token, c, d)
  {
    if c < d && d > |token| {
      SubsetSize(Shorter(flat, token, c), Shorter(flat, token, d - 1));
    }
  }

  /** With the same texts to choose from, one best list is contained in the other. */
  lemma TopContained(flat: Flat, token: string, max: nat, c: nat, d: nat, r: seq<Item>, q: seq<Item>, it: Item)
    requires TopUpTo(flat, token, max, c, r) && TopUpTo(flat, token, max, d, q) && SameRange(flat, token, c, d)
    requires it in r
    ensures it in q
  {
    hide Before, Match;
    if it !in q {
      RankedNoDup(r);
      RankedNoDup(q);
      NoDupCount(r);
      NoDupCount(q);
      forall y | y in q ensures y in r && y != it {
        BeforeTotal(y, it);
      }
      SubsetSize(Elems(q), Elems(r) - {it});
    }
  }

  /** The answer is determined by the list, the token and the limit, whatever order the children come in. */
  lemma AnswerUnique(flat: Flat, token: string, max: nat, r: seq<Item>, q: seq<Item>)
    requires Answer(flat, token, max, r) && Answer(flat, token, max, q)
    ensures r == q
  {
    hide StopsAt, Match, Before;
    var c: nat :| StopsAt(flat, token, max, c) && TopUpTo(flat, token, max, c, r);
    var d: nat :| StopsAt(flat, token, max, d) && TopUpTo(flat, token, max, d, q);
    if max > 0 {
      CutoffsAgree(flat, token, max, if c <= d then c else d, if c <= d then d else c);
      forall it ensures it in r <==> it in q {
        if it in r {
          TopContained(flat, token, max, c, d, r, q, it);
        }
        if it in q {
          TopContained(flat, token, max, d, c, q, r, it);
        }
      }
      RankedSame(r, q);
    }
  }

  // ----- When the answer is the best of all -----

  function Texts(r: seq<Item>): seq<string> { seq(|r|, i requires 0 <= i < |r| => r[i].text) }

  /** The matches shorter than `cutoff` that rank before `it`. */
  ghost function Better(flat: Flat, token: string, cutoff: nat, it: Item): set<string> {
    set t | t in flat && token <= t && |t| < cutoff && Before(Item(t, flat[t].score), it)
  }

  ghost predicate AllBefore(r: seq<Item>, it: Item) { forall x :: x in r ==> Before(x, it) }

  lemma TextsDistinct(flat: Flat, token: string, r: seq<Item>)
    requires Ranked(r) && forall x :: x in r ==> Match(flat, token, x)
    ensures |Elems(Texts(r))| == |r|
    ensures forall t :: t in Texts(r) <==> t in flat && Item(t, flat[t].score) in r
  {
    hide Before;
    RankedNoDup(r);
    assert forall i :: 0 <= i < |r| ==> r[i] in r;
    forall i, j | 0 <= i < j < |r| ensures Texts(r)[i] != Texts(r)[j] {
      assert r[i] != r[j] && Match(flat, token, r[i]) && Match(flat, token, r[j]);
    }
    NoDupCount(Texts(r));
    forall t ensures t in Texts(r) <==> t in flat && Item(t, flat[t].score) in r {
      if t in Texts(r) {
        var i :| 0 <= i < |r| && Texts(r)[i] == t;
        assert Match(flat, token, r[i]) && r[i] == Item(t, flat[t].score);
      }
      if t in flat && Item(t, flat[t].score) in r {
        var i :| 0 <= i < |r| && r[i] == Item(t, flat[t].score);
        assert Texts(r)[i] == t;
      }
    }
  }

  /** A full list that ranks before `it` consists of better matches. */
  lemma FullMeansBetter(flat: Flat, token: string, max: nat, cutoff: nat, r: seq<Item>, it: Item)
    requires TopUpTo(flat, token, max, cutoff, r) && |r| == max && AllBefore(r, it)
    ensures |Better(flat, token, cutoff, it)| >= max
  {
    hide Before;
    TextsDistinct(flat, token, r);
    forall t | t in Texts(r) ensures t in Better(flat, token, cutoff, it) {
      assert Match(flat, token, Item(t, flat[t].score));
    }
    SubsetSize(Elems(Texts(r)), Better(flat, token, cutoff, it));
  }

  /** A better match outside the list would put the whole list before `it`. */
  lemma BetterIsListed(flat: Flat, token: string, max: nat, cutoff: nat, r: seq<Item>, it: Item, t: string)
    requires TopUpTo(flat, token, max, cutoff, r) && !(|r| == max && AllBefore(r, it))
    requires t in Better(flat, token, cutoff, it)
    ensures t in Texts(r)
  {
    hide Before;
    TextsDistinct(flat, token, r);
    var b := Item(t, flat[t].score);
    assert Match(flat, token, b);
    if b !in r {
      forall x | x in r ensures Before(x, it) {
        BeforeTransitive(x, b, it);
      }
    }
  }

  lemma BetterMeansFull(flat: Flat, token: string, max: nat, cutoff: nat, r: seq<Item>, it: Item)
    requires TopUpTo(flat, token, max, cutoff, r) && |Better(flat, token, cutoff, it)| >= max
    ensures |r| == max && AllBefore(r, it)
  {
    hide Before, TopUpTo;
    TopIsRanked(flat, token, max, cutoff, r);
    TextsDistinct(flat, token, r);
    if !(|r| == max && AllBefore(r, it)) {
      forall t | t in Better(flat, token, cutoff, it) ensures t in Elems(Texts(r)) {
        BetterIsListed(flat, token, max, cutoff, r, it, t);
      }
      if AllBefore(r, it) {
        SubsetSize(Better(flat, token, cutoff, it), Elems(Texts(r)));
      } else {
        var x :| x in r && !Before(x, it);
        assert x.text in Elems(Texts(r)) && x == Item(x.text, flat[x.text].score);
        SubsetSize(Better(flat, token, cutoff, it), Elems(Texts(r)) - {x.text});
      }
    }
  }

  lemma TopIsRanked(flat: Flat, token: string, max: nat, cutoff: nat, r: seq<Item>)
    requires TopUpTo(flat, token, max, cutoff, r)
    ensures Ranked(r) && |r| <= max && forall x :: x in r ==> Match(flat, token, x)
    ensures forall x :: x in r ==> x.text in flat && x == Item(x.text, flat[x.text].score)
  {
    hide Before;
  }

  /**
   The answer is the best `max` of all matches exactly when every match at or past the cutoff has `max`
   better ones before the cutoff: a condition on the list alone.
   */
  lemma ExactIff(flat: Flat, token: string, max: nat, cutoff: nat, r: seq<Item>)
    requires TopUpTo(flat, token, max, cutoff, r)
    ensures TopOfAll(flat, token, max, r) <==>
              forall it :: Match(flat, token, it) && |it.text| >= cutoff ==> |Better(flat, token, cutoff, it)| >= max
  {
    hide Before, Ranked, Better;
    forall it | Match(flat, token, it)
      ensures |Better(flat, token, cutoff, it)| >= max <==> |r| == max && AllBefore(r, it)
    {
      if |Better(flat, token, cutoff, it)| >= max {
        BetterMeansFull(flat, token, max, cutoff, r, it);
      }
      if |r| == max && AllBefore(r, it) {
        FullMeansBetter(flat, token, max, cutoff, r, it);
      }
    }
  }

  // ----- A better text that is missed -----

  function ShortText(i: nat): string
    requires i < 8
  {
    ['x', ('a' as int + i) as char]
  }

  function ShortTexts(): (r: seq<string>)
    ensures |r| == 8
  {
    seq(8, i requires 0 <= i < 8 => ShortText(i))
  }

  /** Eight two-letter texts of score 0 and a three-letter one of score 1. */
  function MissedList(): Flat {
    map t | t in Elems(ShortTexts()) + {"xyz"} :: Entry(if t == "xyz" then 1.0 else 0.0, Path)
  }

  lemma MissedListHas()
    ensures forall t :: t in MissedList() <==> t == "xyz" || t in ShortTexts()
    ensures forall i :: 0 <= i < 8 ==>
              ShortTexts()[i] == ShortText(i) && |ShortText(i)| == 2 && ShortText(i) in MissedList()
    ensures Shorter(MissedList(), "x", 3) == Elems(ShortTexts()) && |Elems(ShortTexts())| == 8
    ensures Shorter(MissedList(), "x", 2) == {}
  {
    forall i, j | 0 <= i < j < 8 ensures ShortTexts()[i] != ShortTexts()[j] {
      assert ShortText(i)[1] != ShortText(j)[1];
    }
    NoDupCount(ShortTexts());
    assert |"xyz"| == 3;
    forall t | t in ShortTexts() ensures |t| == 2 && "x" <= t {
      var i :| 0 <= i < 8 && ShortTexts()[i] == t;
    }
  }

  lemma FirstShortText(i: nat)
    requires 0 < i < 8
    ensures LexLess(ShortText(0), ShortText(i))
  {
    assert ShortText(0)[1..] == ['a'] && ShortText(i)[1..] == [('a' as int + i) as char];
    assert LexLess(ShortText(0)[1..], ShortText(i)[1..]);
  }

  /** Asked for one completion of "x", the search stops at the two-letter texts and misses the better one. */
  lemma BetterMissed()
    ensures var r := [Item(ShortText(0), 0.0)];
            Answer(MissedList(), "x", 1, r) && !TopOfAll(MissedList(), "x", 1, r)
  {
    hide MissedList, ShortTexts, ShortText, LexLess;
    var flat, r, best := MissedList(), [Item(ShortText(0), 0.0)], Item("xyz", 1.0);
    MissedListHas();
    MissedScores();
    assert |"xyz"| == 3;
    forall it | Match(flat, "x", it) && |it.text| < 3 && it !in r ensures Before(r[0], it) {
      var i :| 0 <= i < 8 && ShortTexts()[i] == it.text;
      FirstShortText(i);
    }
    assert StopsAt(flat, "x", 1, 3) && TopUpTo(flat, "x", 1, 3, r);
    assert Match(flat, "x", best) && best !in r && !Before(r[0], best);
  }

  lemma MissedScores()
    ensures forall t :: t in MissedList() ==> MissedList()[t].score == if t == "xyz" then 1.0 else 0.0
    ensures "x" <= "xyz" && "xyz" in MissedList() && "x" <= ShortText(0)
    ensures forall i :: 0 <= i < 8 ==> ShortText(i) != "xyz"
  {
    assert |"xyz"| == 3;
  }

  // ----- The arena -----

  datatype Stored = Stored(text: string, score: real, cat: Category)

  datatype Node = Node(children: map<char, nat>, terminal: Option<Stored>)

  ghost predicate IsChild(nodes: seq<Node>, i: nat, c: char, j: nat) {
    i < |nodes| && c in nodes[i].children && nodes[i].children[c] == j
  }

  ghost predicate ChildrenOk(nodes: seq<Node>, paths: seq<string>)
    requires |nodes| == |paths|
  {
    forall i, c :: 0 <= i < |nodes| && c in nodes[i].children ==>
      i < nodes[i].children[c] < |nodes| && paths[nodes[i].children[c]] == paths[i] + [c]
  }

  ghost predicate ParentsOk(nodes: seq<Node>, paths: seq<string>)
    requires |nodes| == |paths|
  {
    forall j :: 0 < j < |nodes| ==> paths[j] != "" && exists i: nat :: i < j && IsChild(nodes, i, Last(paths[j]), j)
  }

  /** Every node spells a different text, and is the child of an earlier node that spells all but the last character. */
  ghost predicate Arena(nodes: seq<Node>, paths: seq<string>) {
    |nodes| == |paths| > 0 && paths[0] == "" && NoDup(paths) && ChildrenOk(nodes, paths) && ParentsOk(nodes, paths)
  }

  /** Terminals are the flat list. */
  ghost predicate Terminals(nodes: seq<Node>, paths: seq<string>, flat: Flat)
    requires |nodes| == |paths|
  {
    && (forall i :: 0 <= i < |nodes| && nodes[i].terminal.Some? ==>
          var t := nodes[i].terminal.value;
          t.text == paths[i] && t.text in flat && flat[t.text] == Entry(t.score, t.cat))
    && (forall t :: t in flat ==> exists i :: 0 <= i < |nodes| && paths[i] == t && nodes[i].terminal.Some?)
  }

  lemma ParentOf(nodes: seq<Node>, paths: seq<string>, j: nat) returns (i: nat)
    requires Arena(nodes, paths) && 0 < j < |nodes|
    ensures i < j && paths[j] != "" && IsChild(nodes, i, Last(paths[j]), j) && paths[i] == DropLast(paths[j])
  {
    i :| i < j && IsChild(nodes, i, Last(paths[j]), j);
    assert paths[j] == paths[i] + [Last(paths[j])];
  }

  /** A child lies behind its parent, so depth is bounded by the index. */
  lemma {:induction false} DepthBound(nodes: seq<Node>, paths: seq<string>, j: nat)
    requires Arena(nodes, paths) && j < |nodes|
    ensures |paths[j]| <= j
    decreases j
  {
    if j > 0 {
      var i := ParentOf(nodes, paths, j);
      DepthBound(nodes, paths, i);
    }
  }

  /** Prefixes of spelled texts are spelled. */
  lemma {:induction false} PrefixSpelled(nodes: seq<Node>, paths: seq<string>, j: nat, q: string) returns (i: nat)
    requires Arena(nodes, paths) && j < |nodes| && q <= paths[j]
    ensures i < |nodes| && paths[i] == q
    decreases j
  {
    if q == paths[j] {
      i := j;
    } else {
      var p := ParentOf(nodes, paths, j);
      i := PrefixSpelled(nodes, paths, p, q);
    }
  }

  lemma NoChildNoText(nodes: seq<Node>, paths: seq<string>, i: nat, c: char)
    requires Arena(nodes, paths) && i < |nodes| && c !in nodes[i].children
    ensures forall j :: 0 <= j < |nodes| ==> !(paths[i] + [c] <= paths[j])
  {
    forall j | 0 <= j < |nodes| ensures !(paths[i] + [c] <= paths[j]) {
      if paths[i] + [c] <= paths[j] {
        var k := PrefixSpelled(nodes, paths, j, paths[i] + [c]);
        var p := ParentOf(nodes, paths, k);
      }
    }
  }

  // ----- Insertion -----

  /** A new last node, child `c` of node `i`. */
  function Grown(nodes: seq<Node>, i: nat, c: char): seq<Node>
    requires i < |nodes|
  {
    nodes[i := nodes[i].(children := nodes[i].children[c := |nodes|])] + [Node(map[], None)]
  }

  lemma GrowChildren(nodes: seq<Node>, paths: seq<string>, i: nat, c: char)
    requires |nodes| == |paths| && ChildrenOk(nodes, paths) && i < |nodes|
    ensures ChildrenOk(Grown(nodes, i, c), paths + [paths[i] + [c]])
  {
  }

  lemma GrowParents(nodes: seq<Node>, paths: seq<string>, i: nat, c: char)
    requires |nodes| == |paths| && ParentsOk(nodes, paths) && i < |nodes| && c !in nodes[i].children
    ensures ParentsOk(Grown(nodes, i, c), paths + [paths[i] + [c]])
  {
    var grown, paths' := Grown(nodes, i, c), paths + [paths[i] + [c]];
    forall j | 0 < j < |grown|
      ensures paths'[j] != "" && exists k: nat :: k < j && IsChild(grown, k, Last(paths'[j]), j)
    {
      if j < |nodes| {
        var k: nat :| k < j && IsChild(nodes, k, Last(paths[j]), j);
        assert IsChild(grown, k, Last(paths'[j]), j);
      } else {
        assert Last(paths'[j]) == c && IsChild(grown, i, c, j);
      }
    }
  }

  lemma GrowArena(nodes: seq<Node>, paths: seq<string>, i: nat, c: char)
    requires Arena(nodes, paths) && i < |nodes| && c !in nodes[i].children
    ensures Arena(Grown(nodes, i, c), paths + [paths[i] + [c]])
  {
    hide ChildrenOk, ParentsOk;
    NoChildNoText(nodes, paths, i, c);
    GrowChildren(nodes, paths, i, c);
    GrowParents(nodes, paths, i, c);
    forall j | 0 <= j < |paths| ensures paths[j] != paths[i] + [c] {
    }
    NoDupAppend(paths, paths[i] + [c]);
  }

  lemma GrowTerminals(nodes: seq<Node>, paths: seq<string>, flat: Flat, i: nat, c: char)
    requires |nodes| == |paths| && Terminals(nodes, paths, flat) && i < |nodes|
    ensures Terminals(Grown(nodes, i, c), paths + [paths[i] + [c]], flat)
  {
    var grown, paths' := Grown(nodes, i, c), paths + [paths[i] + [c]];
    forall t | t in flat ensures exists k :: 0 <= k < |grown| && paths'[k] == t && grown[k].terminal.Some? {
      var k :| 0 <= k < |nodes| && paths[k] == t && nodes[k].terminal.Some?;
      assert paths'[k] == t && grown[k].terminal.Some?;
    }
  }

  function WithTerminal(nodes: seq<Node>, i: nat, x: Stored): (r: seq<Node>)
    requires i < |nodes|
    ensures |r| == |nodes| && r[i].terminal == Some(x)
    ensures forall k :: 0 <= k < |nodes| ==> r[k].children == nodes[k].children && (k != i ==> r[k] == nodes[k])
  {
    nodes[i := nodes[i].(terminal := Some(x))]
  }

  lemma SameChildren(nodes: seq<Node>, nodes': seq<Node>, paths: seq<string>)
    requires Arena(nodes, paths) && |nodes'| == |nodes|
    requires forall k :: 0 <= k < |nodes| ==> nodes'[k].children == nodes[k].children
    ensures Arena(nodes', paths)
  {
    forall j | 0 < j < |nodes'| ensures exists k: nat :: k < j && IsChild(nodes', k, Last(paths[j]), j) {
      var k: nat :| k < j && IsChild(nodes, k, Last(paths[j]), j);
      assert IsChild(nodes', k, Last(paths[j]), j);
    }
  }

  lemma SetTerminal(nodes: seq<Node>, paths: seq<string>, flat: Flat, i: nat, x: Stored)
    requires Arena(nodes, paths) && Terminals(nodes, paths, flat) && i < |nodes| && x.text == paths[i]
    ensures var nodes' := WithTerminal(nodes, i, x);
            Arena(nodes', paths) && Terminals(nodes', paths, flat[x.text := Entry(x.score, x.cat)])
  {
    hide WithTerminal, ChildrenOk, ParentsOk;
    var nodes' := WithTerminal(nodes, i, x);
    var flat' := flat[x.text := Entry(x.score, x.cat)];
    SameChildren(nodes, nodes', paths);
    forall t | t in flat' ensures exists k :: 0 <= k < |nodes'| && paths[k] == t && nodes'[k].terminal.Some? {
      if t == x.text {
        assert paths[i] == t && nodes'[i].terminal.Some?;
      } else {
        var k :| 0 <= k < |nodes| && paths[k] == t && nodes[k].terminal.Some?;
        assert nodes'[k].terminal.Some?;
      }
    }
  }

  lemma RootIs(nodes: seq<Node>, paths: seq<string>)
    requires Arena(nodes, paths)
    ensures 0 < |nodes| == |paths| && paths[0] == ""
  {
  }

  lemma ChildIs(nodes: seq<Node>, paths: seq<string>, i: nat, c: char)
    requires Arena(nodes, paths) && i < |nodes| == |paths| && c in nodes[i].children
    ensures i < nodes[i].children[c] < |nodes| && paths[nodes[i].children[c]] == paths[i] + [c]
  {
  }

  /** A node is terminal exactly when its text is in the list. */
  lemma TerminalIs(nodes: seq<Node>, paths: seq<string>, flat: Flat, i: nat)
    requires Arena(nodes, paths) && Terminals(nodes, paths, flat) && i < |nodes|
    ensures nodes[i].terminal.Some? <==> paths[i] in flat
    ensures nodes[i].terminal.Some? ==>
              var t := nodes[i].terminal.value; t.text == paths[i] && flat[paths[i]] == Entry(t.score, t.cat)
  {
    if paths[i] in flat {
      var k :| 0 <= k < |nodes| && paths[k] == paths[i] && nodes[k].terminal.Some?;
      assert k == i;
    }
  }

  // ----- The breadth-first search -----

  /** Some order of the children; a hash map promises none. */
  method Values(children: map<char, nat>) returns (vs: seq<nat>)
    ensures NoDup(vs) && Elems(vs) == children.Values
  {
    vs := [];
    var left := children.Values;
    while left != {}
      invariant NoDup(vs) && Elems(vs) + left == children.Values && Elems(vs) !! left
      decreases left
    {
      var v :| v in left;
      left := left - {v};
      vs := vs + [v];
    }
  }

  /** The nodes that spell a text of length `n` starting with `token`. */
  ghost predicate OnLevel(paths: seq<string>, token: string, n: nat, i: nat) {
    i < |paths| && |paths[i]| == n && token <= paths[i]
  }

  ghost predicate Level(paths: seq<string>, token: string, n: nat, queue: seq<nat>) {
    NoDup(queue) && forall i: nat :: i in queue <==> OnLevel(paths, token, n, i)
  }

  ghost predicate Within(queue: seq<nat>, n: nat) { forall q :: 0 <= q < |queue| ==> queue[q] < n }

  ghost predicate Kid(nodes: seq<Node>, queue: seq<nat>, q: nat, j: nat) {
    q < |queue| && queue[q] < |nodes| && j in nodes[queue[q]].children.Values
  }

  /** `next` lists the children of the queue's first `k` nodes. */
  ghost predicate ChildrenOf(nodes: seq<Node>, queue: seq<nat>, k: nat, next: seq<nat>) {
    NoDup(next) && forall j: nat :: j in next <==> exists q: nat :: q < k && Kid(nodes, queue, q, j)
  }

  ghost predicate Spells(paths: seq<string>, queue: seq<nat>, q: nat, t: string) {
    q < |queue| && queue[q] < |paths| && paths[queue[q]] == t
  }

  ghost predicate SpelledWithin(paths: seq<string>, queue: seq<nat>, k: nat, t: string) {
    exists q: nat :: q < k && Spells(paths, queue, q, t)
  }

  /** Collected so far: all matches shorter than `n`, once each, and those of the queue's first `k` nodes. */
  ghost predicate Collected(paths: seq<string>, flat: Flat, token: string, n: nat, queue: seq<nat>, k: nat,
                            r: seq<Item>)
  {
    && NoDup(r)
    && forall it :: it in r <==>
         Match(flat, token, it) && (|it.text| < n || SpelledWithin(paths, queue, k, it.text))
  }

  lemma SameChild(nodes: seq<Node>, paths: seq<string>, a: nat, b: nat, j: nat)
    requires Arena(nodes, paths) && a < |nodes| && b < |nodes|
    requires j in nodes[a].children.Values && j in nodes[b].children.Values
    ensures a == b
  {
    var c :| c in nodes[a].children && nodes[a].children[c] == j;
    var d :| d in nodes[b].children && nodes[b].children[d] == j;
    assert paths[j] == paths[a] + [c] == paths[b] + [d];
    assert paths[a] == DropLast(paths[j]) == paths[b];
  }

  lemma MoreChildren(nodes: seq<Node>, paths: seq<string>, queue: seq<nat>, k: nat, next: seq<nat>, vs: seq<nat>)
    requires Arena(nodes, paths) && NoDup(queue) && k < |queue| && Within(queue, |nodes|)
    requires ChildrenOf(nodes, queue, k, next) && NoDup(vs) && Elems(vs) == nodes[queue[k]].children.Values
    ensures ChildrenOf(nodes, queue, k + 1, next + vs)
  {
    hide Arena;
    forall j: nat ensures j in vs <==> Kid(nodes, queue, k, j) {
      assert j in vs <==> j in Elems(vs);
    }
    forall x, y | 0 <= x < |next| && 0 <= y < |vs| ensures next[x] != vs[y] {
      assert next[x] in next && vs[y] in vs;
      if next[x] == vs[y] {
        var q: nat :| q < k && Kid(nodes, queue, q, next[x]);
        SameChild(nodes, paths, queue[q], queue[k], next[x]);
      }
    }
    forall j: nat ensures j in next + vs <==> exists q: nat :: q < k + 1 && Kid(nodes, queue, q, j) {
      if j in next {
        var q: nat :| q < k && Kid(nodes, queue, q, j);
        assert q < k + 1;
      }
    }
  }

  lemma LevelDown(nodes: seq<Node>, paths: seq<string>, token: string, n: nat, queue: seq<nat>, next: seq<nat>)
    requires Arena(nodes, paths) && Level(paths, token, n, queue) && |token| <= n && Within(queue, |nodes|)
    requires ChildrenOf(nodes, queue, |queue|, next)
    ensures Level(paths, token, n + 1, next) && Within(next, |nodes|)
  {
    forall j: nat ensures j in next <==> OnLevel(paths, token, n + 1, j) {
      if j in next {
        var q: nat :| q < |queue| && Kid(nodes, queue, q, j);
        assert queue[q] in queue;
        var c :| c in nodes[queue[q]].children && nodes[queue[q]].children[c] == j;
        assert paths[j] == paths[queue[q]] + [c];
      }
      if OnLevel(paths, token, n + 1, j) {
        var i := ParentOf(nodes, paths, j);
        assert i in queue;
        var q: nat :| q < |queue| && queue[q] == i;
        assert Kid(nodes, queue, q, j);
      }
    }
    forall q | 0 <= q < |next| ensures next[q] < |nodes| {
      assert next[q] in next;
    }
  }

  lemma NoContinuation(nodes: seq<Node>, paths: seq<string>, flat: Flat, i: nat, token: string, k: nat)
    requires Arena(nodes, paths) && Terminals(nodes, paths, flat) && i < |nodes| && k < |token|
    requires paths[i] == token[..k] && token[k] !in nodes[i].children
    ensures forall t :: t in flat ==> !(token <= t)
  {
    hide Arena;
    RootIs(nodes, paths);
    NoChildNoText(nodes, paths, i, token[k]);
    assert paths[i] + [token[k]] == token[..k + 1];
    forall t | t in flat ensures !(token <= t) {
      var j :| 0 <= j < |nodes| && paths[j] == t && nodes[j].terminal.Some?;
      if token <= t {
        LongerPrefix(token, k + 1, t);
      }
    }
  }

  lemma LongerPrefix(token: string, k: nat, t: string)
    requires k <= |token| && token <= t
    ensures token[..k] <= t
  {
  }

  lemma NoChildrenYet(nodes: seq<Node>, queue: seq<nat>)
    ensures ChildrenOf(nodes, queue, 0, [])
  {
  }

  lemma LevelIs(paths: seq<string>, token: string, n: nat, queue: seq<nat>, bound: nat, k: nat)
    requires Level(paths, token, n, queue) && Within(queue, bound) && k < |queue|
    ensures queue[k] < bound && NoDup(queue) && queue[k] < |paths| && |paths[queue[k]]| == n && token <= paths[queue[k]]
  {
    assert queue[k] in queue;
  }

  lemma CollectNode(nodes: seq<Node>, paths: seq<string>, flat: Flat, token: string, n: nat, queue: seq<nat>, k: nat,
                    r: seq<Item>)
    requires Arena(nodes, paths) && Terminals(nodes, paths, flat) && Level(paths, token, n, queue) && k < |queue|
    requires Within(queue, |nodes|) && Collected(paths, flat, token, n, queue, k, r)
    ensures var t := nodes[queue[k]].terminal;
            Collected(paths, flat, token, n, queue, k + 1,
                      if t.Some? then r + [Item(t.value.text, t.value.score)] else r)
  {
    hide Arena, Terminals;
    LevelIs(paths, token, n, queue, |nodes|, k);
    TerminalIs(nodes, paths, flat, queue[k]);
    var text := paths[queue[k]];
    forall q: nat | q < k ensures !Spells(paths, queue, q, text) {
      if Spells(paths, queue, q, text) {
        SamePath(nodes, paths, queue[q], queue[k]);
      }
    }
    forall t ensures SpelledWithin(paths, queue, k + 1, t) <==> t == text || SpelledWithin(paths, queue, k, t) {
      if t == text {
        assert Spells(paths, queue, k, t);
      }
      if q: nat :| q < k && Spells(paths, queue, q, t) {
        assert q < k + 1;
      }
    }
  }

  lemma SamePath(nodes: seq<Node>, paths: seq<string>, a: nat, b: nat)
    requires Arena(nodes, paths) && a < |paths| && b < |paths| && paths[a] == paths[b]
    ensures a == b
  {
  }

  lemma CollectLevel(nodes: seq<Node>, paths: seq<string>, flat: Flat, token: string, n: nat, queue: seq<nat>,
                     next: seq<nat>, r: seq<Item>)
    requires Arena(nodes, paths) && Terminals(nodes, paths, flat) && Level(paths, token, n, queue)
    requires Collected(paths, flat, token, n, queue, |queue|, r)
    ensures Collected(paths, flat, token, n + 1, next, 0, r)
  {
    hide Arena;
    forall it | Match(flat, token, it)
      ensures |it.text| == n <==> SpelledWithin(paths, queue, |queue|, it.text)
    {
      if |it.text| == n {
        TextNode(nodes, paths, flat, it.text);
        var i: nat :| i < |paths| && paths[i] == it.text;
        assert OnLevel(paths, token, n, i);
        var q: nat :| q < |queue| && queue[q] == i;
        assert Spells(paths, queue, q, it.text);
      }
      if q: nat :| q < |queue| && Spells(paths, queue, q, it.text) {
        assert queue[q] in queue;
      }
    }
  }

  lemma TextNode(nodes: seq<Node>, paths: seq<string>, flat: Flat, t: string)
    requires Arena(nodes, paths) && Terminals(nodes, paths, flat) && t in flat
    ensures exists i: nat :: i < |paths| && paths[i] == t
  {
    var i :| 0 <= i < |nodes| && paths[i] == t && nodes[i].terminal.Some?;
  }

  lemma SearchStarts(nodes: seq<Node>, paths: seq<string>, flat: Flat, token: string, i: nat)
    requires Arena(nodes, paths) && i < |paths| && paths[i] == token
    ensures Level(paths, token, |token|, [i]) && Within([i], |nodes|)
    ensures Collected(paths, flat, token, |token|, [i], 0, [])
  {
    forall j: nat ensures j in [i] <==> OnLevel(paths, token, |token|, j) {
      if OnLevel(paths, token, |token|, j) {
        SamePath(nodes, paths, i, j);
      }
    }
  }

  lemma DepthLeft(nodes: seq<Node>, paths: seq<string>, token: string, n: nat, queue: seq<nat>)
    requires Arena(nodes, paths) && Level(paths, token, n, queue) && queue != []
    ensures n < |nodes|
  {
    hide Arena;
    RootIs(nodes, paths);
    assert queue[0] in queue;
    DepthBound(nodes, paths, queue[0]);
  }

  lemma CollectedCount(paths: seq<string>, flat: Flat, token: string, n: nat, queue: seq<nat>, r: seq<Item>)
    requires Collected(paths, flat, token, n, queue, 0, r)
    ensures |r| == |Shorter(flat, token, n)|
  {
    forall i, j | 0 <= i < j < |r| ensures Texts(r)[i] != Texts(r)[j] {
      assert r[i] in r && r[j] in r;
    }
    NoDupCount(Texts(r));
    forall t ensures t in Elems(Texts(r)) <==> t in Shorter(flat, token, n) {
      if t in Texts(r) {
        var i :| 0 <= i < |r| && Texts(r)[i] == t;
        assert r[i] in r;
      }
      if t in Shorter(flat, token, n) {
        var it := Item(t, flat[t].score);
        assert it in r;
        var i :| 0 <= i < |r| && r[i] == it;
        assert Texts(r)[i] == t;
      }
    }
    assert Elems(Texts(r)) == Shorter(flat, token, n);
  }

  lemma LongTextOnLevel(nodes: seq<Node>, paths: seq<string>, flat: Flat, token: string, n: nat, t: string)
    requires Arena(nodes, paths) && Terminals(nodes, paths, flat) && t in flat && token <= t && |token| <= n <= |t|
    ensures exists i: nat :: OnLevel(paths, token, n, i)
  {
    hide Arena, Terminals;
    RootIs(nodes, paths);
    TextNode(nodes, paths, flat, t);
    var j: nat :| j < |paths| && paths[j] == t;
    var i := PrefixSpelled(nodes, paths, j, t[..n]);
    assert OnLevel(paths, token, n, i);
  }

  lemma SearchStops(nodes: seq<Node>, paths: seq<string>, flat: Flat, token: string, max: nat, n: nat, queue: seq<nat>,
                    r: seq<Item>)
    requires Arena(nodes, paths) && Terminals(nodes, paths, flat) && Level(paths, token, n, queue) && |token| <= n
    requires Collected(paths, flat, token, n, queue, 0, r) && (queue == [] || |r| >= max * 8)
    requires n > |token| ==> |Shorter(flat, token, n - 1)| < 8 * max
    ensures StopsAt(flat, token, max, n)
  {
    hide Arena, Terminals, Collected;
    CollectedCount(paths, flat, token, n, queue, r);
    if queue == [] {
      forall t | t in flat && token <= t ensures |t| < n {
        if |t| >= n {
          LongTextOnLevel(nodes, paths, flat, token, n, t);
        }
      }
    }
  }

  lemma NothingFound(flat: Flat, token: string, max: nat)
    requires forall t :: t in flat ==> !(token <= t)
    ensures StopsAt(flat, token, max, |token|) && TopUpTo(flat, token, max, |token|, [])
  {
  }

  function Truncate(s: seq<Item>, max: nat): seq<Item> { if |s| <= max then s else s[..max] }

  lemma DroppedAreWorse(s: seq<Item>, max: nat, it: Item)
    requires Ranked(s) && it in s && it !in Truncate(s, max)
    ensures |Truncate(s, max)| == max && forall x :: x in Truncate(s, max) ==> Before(x, it)
  {
    hide Before;
    var j :| 0 <= j < |s| && s[j] == it;
    assert forall i :: 0 <= i < |Truncate(s, max)| ==> s[i] in Truncate(s, max);
    forall x | x in Truncate(s, max) ensures Before(x, it) {
      var i :| 0 <= i < |Truncate(s, max)| && Truncate(s, max)[i] == x;
      assert s[i] == x;
    }
  }

  lemma Truncated(paths: seq<string>, flat: Flat, token: string, max: nat, n: nat, queue: seq<nat>, r: seq<Item>)
    requires Collected(paths, flat, token, n, queue, 0, r)
    ensures TopUpTo(flat, token, max, n, Truncate(Rank(r), max))
  {
    hide Before, Match;
    RankRanked(r);
    var s := Rank(r);
    forall it | it in Truncate(s, max) ensures it in r {
      assert it in s;
    }
    forall it | Match(flat, token, it) && |it.text| < n && it !in Truncate(s, max)
      ensures |Truncate(s, max)| == max && forall x :: x in Truncate(s, max) ==> Before(x, it)
    {
      assert it in s;
      DroppedAreWorse(s, max, it);
    }
  }

  // ----- The token being typed -----

  /** Which characters outside ASCII Unicode counts as letters or digits. */
  type Letters = char -> bool

  predicate Alphanumeric(letters: Letters, c: char) {
    '0' <= c <= '9' || 'a' <= c <= 'z' || 'A' <= c <= 'Z' || (c as int >= 0x80 && letters(c))
  }

  predicate TokenChar(letters: Letters, c: char) { Alphanumeric(letters, c) || c in "_:./!(" }

  /** Bytes of a character in UTF-8. */
  function Utf8(c: char): (n: nat)
    ensures 1 <= n <= 4
  {
    if c as int < 0x80 then 1 else if c as int < 0x800 then 2 else if c as int < 0x1_0000 then 3 else 4
  }

  function Bytes(s: string): nat { if s == "" then 0 else Utf8(s[0]) + Bytes(s[1..]) }

  /** `&s[from..]` at a byte offset; None is the panic inside a character or past the end. */
  function Slice(s: string, from: nat): Option<string> {
    if from == 0 then Some(s)
    else if s == "" || from < Utf8(s[0]) then None
    else Slice(s[1..], from - Utf8(s[0]))
  }

  /** The byte behind the start of a character starts a character exactly if that one has a single byte. */
  lemma {:induction false} SliceBehind(s: string, p: nat)
    requires p < |s|
    ensures Slice(s, Bytes(s[..p]) + 1) == if Utf8(s[p]) == 1 then Some(s[p + 1..]) else None
    decreases p
  {
    if p > 0 {
      assert s[..p][0] == s[0] && s[..p][1..] == s[1..][..p - 1] && s[1..][p..] == s[p + 1..];
      SliceBehind(s[1..], p - 1);
    }
  }

  /** `p` is the last character of the line that does not belong to a token. */
  predicate LastSeparator(letters: Letters, line: string, p: nat) {
    p < |line| && !TokenChar(letters, line[p]) && forall i :: p < i < |line| ==> TokenChar(letters, line[i])
  }

  /** `rfind`. */
  function FindSeparator(letters: Letters, line: string): (p: Option<nat>)
    ensures p.None? ==> forall i :: 0 <= i < |line| ==> TokenChar(letters, line[i])
    ensures p.Some? ==> LastSeparator(letters, line, p.value)
  {
    if line == "" then None
    else if !TokenChar(letters, Last(line)) then Some(|line| - 1)
    else FindSeparator(letters, DropLast(line))
  }

  /** The longest suffix of token characters; None is the panic, exactly behind a separator of several bytes. */
  function CurrentToken(letters: Letters, line: string): (t: Option<string>)
    ensures t.None? <==> exists p: nat :: LastSeparator(letters, line, p) && line[p] as int >= 0x80
    ensures t.Some? ==>
              && |t.value| <= |line| && t.value == line[|line| - |t.value|..]
              && (forall i :: 0 <= i < |t.value| ==> TokenChar(letters, t.value[i]))
              && (|t.value| < |line| ==> !TokenChar(letters, line[|line| - |t.value| - 1]))
  {
    match FindSeparator(letters, line)
    case None => Slice(line, 0)
    case Some(p) => SliceBehind(line, p); Slice(line, Bytes(line[..p]) + 1)
  }

  /** Behind a blank, a text of letters, digits and `_ : . / ! (` is the token, whatever the line began with. */
  lemma TypedToken(letters: Letters, before: string, typed: string)
    requires forall i :: 0 <= i < |typed| ==>
               '0' <= typed[i] <= '9' || 'a' <= typed[i] <= 'z' || 'A' <= typed[i] <= 'Z'
               || typed[i] == '_' || typed[i] == ':' || typed[i] == '.' || typed[i] == '/' || typed[i] == '!'
               || typed[i] == '('
    ensures CurrentToken(letters, before + [' '] + typed) == Some(typed)
  {
    var line, p := before + [' '] + typed, |before|;
    assert line[p] == ' ' && line[p + 1..] == typed;
    assert forall i :: p < i < |line| ==> line[i] == typed[i - p - 1];
    assert LastSeparator(letters, line, p);
    OneSeparator(letters, line, p);
    SliceBehind(line, p);
  }

  /** Any other ASCII character ends it. */
  lemma TokenEnds(letters: Letters, before: string, c: char, typed: string)
    requires c as int < 0x80 && !('0' <= c <= '9' || 'a' <= c <= 'z' || 'A' <= c <= 'Z')
    requires c != '_' && c != ':' && c != '.' && c != '/' && c != '!' && c != '('
    requires forall i :: 0 <= i < |typed| ==> TokenChar(letters, typed[i])
    ensures CurrentToken(letters, before + [c] + typed) == Some(typed)
  {
    var line, p := before + [c] + typed, |before|;
    assert line[p] == c && line[p + 1..] == typed;
    assert forall i :: p < i < |line| ==> line[i] == typed[i - p - 1];
    assert LastSeparator(letters, line, p);
    OneSeparator(letters, line, p);
    SliceBehind(line, p);
  }

  lemma OneSeparator(letters: Letters, line: string, p: nat)
    requires LastSeparator(letters, line, p)
    ensures FindSeparator(letters, line) == Some(p)
  {
    hide TokenChar;
    assert !TokenChar(letters, line[p]);
  }

  /**
   A stored text over that alphabet is found by typing any non-empty prefix of it behind a blank, if it is
   among few enough: at most `max` texts continue the prefix.
   */
  lemma TypedPrefixFinds(letters: Letters, flat: Flat, before: string, text: string, k: nat, max: nat, r: seq<Item>)
    requires text in flat && 0 < k <= |text| && forall i :: 0 <= i < |text| ==>
               '0' <= text[i] <= '9' || 'a' <= text[i] <= 'z' || 'A' <= text[i] <= 'Z'
               || text[i] == '_' || text[i] == ':' || text[i] == '.' || text[i] == '/' || text[i] == '!'
               || text[i] == '('
    requires |set t | t in flat && text[..k] <= t| <= max && Answer(flat, text[..k], max, r)
    ensures CurrentToken(letters, before + [' '] + text[..k]) == Some(text[..k])
    ensures Item(text, flat[text].score) in r
  {
    hide Answer, TopOfAll, CurrentToken, Ranked, Before;
    TypedToken(letters, before, text[..k]);
    var all := set t | t in flat && text[..k] <= t;
    assert text in all;
    FewMatchesExact(flat, text[..k], max, r);
    AllListed(flat, text[..k], max, r, text);
  }

  lemma AllListed(flat: Flat, token: string, max: nat, r: seq<Item>, text: string)
    requires TopOfAll(flat, token, max, r) && |set t | t in flat && token <= t| <= max
    requires text in flat && token <= text
    ensures Item(text, flat[text].score) in r
  {
    hide Before;
    var all := set t | t in flat && token <= t;
    var it := Item(text, flat[text].score);
    TextsDistinct(flat, token, r);
    if it !in r {
      assert Match(flat, token, it) && |r| == max;
      forall t | t in Elems(Texts(r)) ensures t in all && t != text {
        assert Match(flat, token, Item(t, flat[t].score));
      }
      assert text in all;
      SubsetSize(Elems(Texts(r)), all - {text});
    }
  }

  /** What `learn` accepts: its length is counted in bytes. */
  predicate IsIdentifier(letters: Letters, ident: string) {
    Bytes(ident) >= 3 && forall i :: 0 <= i < |ident| ==> Alphanumeric(letters, ident[i]) || ident[i] == '_'
  }

  /** Two letters are enough outside ASCII, and three are needed within. */
  lemma ShortIdentifier(letters: Letters, a: char, b: char)
    requires Alphanumeric(letters, a) && Alphanumeric(letters, b)
    ensures IsIdentifier(letters, [a, b]) <==> a as int >= 0x80 || b as int >= 0x80
  {
    assert [a, b][1..] == [b] && [b][1..] == [];
    assert Bytes([b]) == Utf8(b);
  }

  /** Three are always enough. */
  lemma {:induction false} LongIdentifier(letters: Letters, ident: string)
    requires |ident| >= 3 && forall i :: 0 <= i < |ident| ==> Alphanumeric(letters, ident[i]) || ident[i] == '_'
    ensures IsIdentifier(letters, ident)
  {
    hide Alphanumeric;
    BytesAtLeast(ident);
  }

  lemma {:induction false} BytesAtLeast(s: string)
    ensures |s| <= Bytes(s) <= 4 * |s|
  {
    if s != "" {
      BytesAtLeast(s[1..]);
    }
  }

  /** A multiplication sign between two letters. */
  lemma TwoByteSeparator(letters: Letters)
    requires !letters('\U{00D7}')
    ensures CurrentToken(letters, "a\U{00D7}b") == None
  {
    assert LastSeparator(letters, "a\U{00D7}b", 1);
  }

  class Trie {
    const letters: Letters
    var nodes: seq<Node>
    ghost var paths: seq<string>
    ghost var flat: Flat

    ghost predicate Valid()
      reads this
    {
      Arena(nodes, paths) && Terminals(nodes, paths, flat)
    }

    constructor (letters: Letters)
      ensures this.letters == letters && Valid() && flat == FlatAll([])
    {
      this.letters := letters;
      nodes, paths, flat := [Node(map[], None)], [""], map[];
    }

    method Insert(text: string, score: real, cat: Category)
      requires Valid()
      modifies this
      ensures Valid() && flat == FlatInsert(old(flat), text, score, cat)
    {
      hide Arena, Terminals;
      var idx: nat := 0;
      RootIs(nodes, paths);
      for k := 0 to |text|
        invariant |nodes| == |paths| && idx < |nodes| && paths[idx] == text[..k]
        invariant Arena(nodes, paths) && Terminals(nodes, paths, flat) && flat == old(flat)
      {
        var ch := text[k];
        assert text[..k + 1] == text[..k] + [ch];
        if ch in nodes[idx].children {
          ChildIs(nodes, paths, idx, ch);
          idx := nodes[idx].children[ch];
        } else {
          GrowArena(nodes, paths, idx, ch);
          GrowTerminals(nodes, paths, flat, idx, ch);
          var next := |nodes|;
          paths := paths + [paths[idx] + [ch]];
          nodes := Grown(nodes, idx, ch);
          idx := next;
        }
      }
      assert text[..|text|] == text;
      TerminalIs(nodes, paths, flat, idx);
      if nodes[idx].terminal.None? || score > nodes[idx].terminal.value.score {
        SetTerminal(nodes, paths, flat, idx, Stored(text, score, cat));
        nodes := WithTerminal(nodes, idx, Stored(text, score, cat));
        flat := flat[text := Entry(score, cat)];
      }
    }

    /** `learn`: letters, digits and underscores of three or more bytes together; anything else is ignored. */
    method Learn(ident: string)
      requires Valid()
      modifies this
      ensures Valid()
      ensures flat == if IsIdentifier(letters, ident) then FlatInsert(old(flat), ident, 0.65, Identifier) else old(flat)
    {
      if IsIdentifier(letters, ident) {
        Insert(ident, 0.65, Identifier);
      }
    }

    /** The node that spells `token`, if any text continues it. */
    method Walk(token: string) returns (found: Option<nat>)
      requires Valid()
      ensures found.Some? ==> found.value < |paths| && paths[found.value] == token
      ensures found.None? ==> forall t :: t in flat ==> !(token <= t)
    {
      hide Arena, Terminals;
      var idx: nat := 0;
      RootIs(nodes, paths);
      for k := 0 to |token|
        invariant |nodes| == |paths| && idx < |nodes| && paths[idx] == token[..k]
      {
        assert token[..k + 1] == token[..k] + [token[k]];
        if token[k] !in nodes[idx].children {
          NoContinuation(nodes, paths, flat, idx, token, k);
          return None;
        }
        ChildIs(nodes, paths, idx, token[k]);
        idx := nodes[idx].children[token[k]];
      }
      assert token[..|token|] == token;
      found := Some(idx);
    }

    /** One level of the search: collects its terminals and lists the next level. */
    method Descend(queue: seq<nat>, results: seq<Item>, ghost token: string, ghost n: nat)
      returns (next: seq<nat>, collected: seq<Item>)
      requires Valid() && Level(paths, token, n, queue) && Within(queue, |nodes|) && |token| <= n
      requires Collected(paths, flat, token, n, queue, 0, results)
      ensures Level(paths, token, n + 1, next) && Within(next, |nodes|)
      ensures Collected(paths, flat, token, n + 1, next, 0, collected)
    {
      hide Arena, Terminals, Level, ChildrenOf, Collected, Within;
      next, collected := [], results;
      NoChildrenYet(nodes, queue);
      for k := 0 to |queue|
        invariant ChildrenOf(nodes, queue, k, next)
        invariant Collected(paths, flat, token, n, queue, k, collected)
      {
        LevelIs(paths, token, n, queue, |nodes|, k);
        var node := nodes[queue[k]];
        CollectNode(nodes, paths, flat, token, n, queue, k, collected);
        if node.terminal.Some? {
          collected := collected + [Item(node.terminal.value.text, node.terminal.value.score)];
        }
        var vs := Values(node.children);
        MoreChildren(nodes, paths, queue, k, next, vs);
        next := next + vs;
      }
      LevelDown(nodes, paths, token, n, queue, next);
      CollectLevel(nodes, paths, flat, token, n, queue, next, collected);
    }

    /** `complete`; None is the panic in `current_token`. */
    method Complete(line: string, max: nat) returns (r: Option<seq<Item>>)
      requires Valid()
      ensures r.None? <==> CurrentToken(letters, line).None?
      ensures r.Some? ==>
                var token := CurrentToken(letters, line).value;
                if token == "" then r.value == [] else Answer(flat, token, max, r.value)
    {
      hide Arena, Terminals, Level, Collected, Within, TopUpTo, StopsAt, Shorter, Rank, Truncate, CurrentToken;
      var current := CurrentToken(letters, line);
      if current.None? {
        return None;
      }
      var token := current.value;
      ghost var cutoff := |token|;
      if token == "" {
        return Some([]);
      }
      var found := Walk(token);
      if found.None? {
        NothingFound(flat, token, max);
        return Some([]);
      }
      var queue, results := [found.value], [];
      SearchStarts(nodes, paths, flat, token, found.value);
      var limit := max * 8;
      while queue != [] && |results| < limit
        invariant cutoff >= |token| && Level(paths, token, cutoff, queue) && Within(queue, |nodes|)
        invariant Collected(paths, flat, token, cutoff, queue, 0, results)
        invariant cutoff > |token| ==> |Shorter(flat, token, cutoff - 1)| < 8 * max
        decreases |nodes| - cutoff
      {
        DepthLeft(nodes, paths, token, cutoff, queue);
        CollectedCount(paths, flat, token, cutoff, queue, results);
        queue, results := Descend(queue, results, token, cutoff);
        cutoff := cutoff + 1;
      }
      SearchStops(nodes, paths, flat, token, max, cutoff, queue, results);
      var ranked := Rank(results);
      Truncated(paths, flat, token, max, cutoff, queue, results);
      r := Some(Truncate(ranked, max));
    }
  }
}
