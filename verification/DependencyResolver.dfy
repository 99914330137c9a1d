/**
 Dependency resolution in pkg_manager/main.go: depth-first from the requested names, each package listed
 after the dependencies it waited for. Fetched metadata is a fixed map from package name to the names it
 depends on; a name outside it is a fetch error.
 */
module DependencyResolver {
  import opened Prelude

  type Registry = map<string, seq<string>>

  ghost predicate Edge(reg: Registry, a: string, b: string) { a in reg && b in reg[a] }

  ghost predicate IsPath(reg: Registry, p: seq<string>, a: string, b: string) {
    && p != [] && p[0] == a && Last(p) == b
    && forall i :: 0 <= i < |p| - 1 ==> Edge(reg, p[i], p[i + 1])
  }

  /** `b` is `a` or a dependency of it, at any depth. */
  ghost predicate Reaches(reg: Registry, a: string, b: string) { exists p :: IsPath(reg, p, a, b) }

  lemma ReachesSelf(reg: Registry, a: string)
    ensures Reaches(reg, a, a)
  {
    assert IsPath(reg, [a], a, a);
  }

  lemma ReachesStep(reg: Registry, a: string, b: string, c: string)
    requires Reaches(reg, a, b) && Edge(reg, b, c)
    ensures Reaches(reg, a, c)
  {
    var p :| IsPath(reg, p, a, b);
    assert IsPath(reg, p + [c], a, c);
  }

  lemma ReachesFirst(reg: Registry, a: string, b: string, c: string)
    requires Edge(reg, a, b) && Reaches(reg, b, c)
    ensures Reaches(reg, a, c)
  {
    var p :| IsPath(reg, p, b, c);
    assert IsPath(reg, [a] + p, a, c);
  }

  ghost predicate ClosedUnder(reg: Registry, s: set<string>) {
    forall a, b :: a in s && Edge(reg, a, b) ==> b in s
  }

  /** A closed set keeps everything its members reach. */
  lemma {:induction false} ClosedKeeps(reg: Registry, s: set<string>, p: seq<string>, a: string, b: string)
    requires ClosedUnder(reg, s) && a in s && IsPath(reg, p, a, b)
    ensures b in s
    decreases |p|
  {
    if |p| > 1 {
      assert Edge(reg, p[0], p[0 + 1]);
      forall i | 0 <= i < |p[1..]| - 1 ensures Edge(reg, p[1..][i], p[1..][i + 1]) {
        assert Edge(reg, p[i + 1], p[i + 1 + 1]);
      }
      ClosedKeeps(reg, s, p[1..], p[1], b);
    }
  }

  // ----- The order of the result -----

  /** A dependency comes earlier, unless it depends back on the package. */
  ghost predicate Placed(reg: Registry, r: seq<string>, k: nat)
    requires k < |r|
  {
    r[k] in reg && forall d :: d in reg[r[k]] ==> d in r[..k] || Reaches(reg, d, r[k])
  }

  ghost predicate Ordered(reg: Registry, r: seq<string>) { forall k: nat :: k < |r| ==> Placed(reg, r, k) }

  ghost predicate Topological(reg: Registry, r: seq<string>) {
    forall k: nat, d :: k < |r| && Edge(reg, r[k], d) ==> d in r[..k]
  }

  /** No listed package depends on something that depends on it. */
  ghost predicate Acyclic(reg: Registry, r: seq<string>) {
    forall k: nat, d :: k < |r| && Edge(reg, r[k], d) ==> !Reaches(reg, d, r[k])
  }

  /** Along a path in a topologically ordered list, positions only go down. */
  lemma {:induction false} PathGoesDown(reg: Registry, r: seq<string>, p: seq<string>, i: nat, b: string)
    requires Topological(reg, r) && i < |r| && IsPath(reg, p, r[i], b)
    ensures b in r[..i + 1]
    decreases |p|
  {
    if |p| == 1 {
      assert r[..i + 1][i] == b;
    } else {
      assert Edge(reg, p[0], p[0 + 1]);
      var j: nat :| j < i && r[..i][j] == p[1];
      forall k | 0 <= k < |p[1..]| - 1 ensures Edge(reg, p[1..][k], p[1..][k + 1]) {
        assert Edge(reg, p[k + 1], p[k + 1 + 1]);
      }
      PathGoesDown(reg, r, p[1..], j, b);
      assert r[..j + 1] <= r[..i + 1];
    }
  }

  /** The resolver's list is a topological order exactly when its packages have no cycle. */
  lemma TopologicalIffAcyclic(reg: Registry, r: seq<string>)
    requires NoDup(r) && Ordered(reg, r)
    ensures Topological(reg, r) <==> Acyclic(reg, r)
  {
    hide Reaches, IsPath;
    if Topological(reg, r) {
      forall k: nat, d | k < |r| && Edge(reg, r[k], d) ensures !Reaches(reg, d, r[k]) {
        NoWayBack(reg, r, k, d);
      }
    }
    if Acyclic(reg, r) {
      forall k: nat, d | k < |r| && Edge(reg, r[k], d) ensures d in r[..k] {
        assert Placed(reg, r, k);
      }
    }
  }

  lemma NoWayBack(reg: Registry, r: seq<string>, k: nat, d: string)
    requires NoDup(r) && Topological(reg, r) && k < |r| && Edge(reg, r[k], d)
    ensures !Reaches(reg, d, r[k])
  {
    var j: nat :| j < k && r[..k][j] == d;
    forall p ensures !IsPath(reg, p, d, r[k]) {
      if IsPath(reg, p, d, r[k]) {
        PathGoesDown(reg, r, p, j, r[k]);
      }
    }
  }

  // ----- How much is fetched -----

  /** The dependencies listed by all of `fs` together; a name that cannot be fetched lists none. */
  function Listed(reg: Registry, fs: seq<string>): nat {
    if fs == [] then 0 else Listed(reg, DropLast(fs)) + if Last(fs) in reg then |reg[Last(fs)]| else 0
  }

  lemma ListedMore(reg: Registry, fs: seq<string>, f: string)
    ensures Listed(reg, fs + [f]) == Listed(reg, fs) + if f in reg then |reg[f]| else 0
  {
    assert DropLast(fs + [f]) == fs;
  }

  // ----- The search -----

  class Resolver {
    const reg: Registry
    var visited: set<string>
    var result: seq<string>
    ghost var open: set<string>
    ghost var fetched: seq<string> // every fetch, in order
    ghost var calls: nat           // calls of the search so far

    constructor (reg: Registry)
      ensures this.reg == reg && Valid() && open == {} && result == [] && fetched == [] && calls == 0
    {
      this.reg := reg;
      visited, result, open, fetched, calls := {}, [], {}, [], 0;
    }

    /** Each visited name was fetched once. */
    ghost predicate Logged()
      reads this
    {
      NoDup(fetched) && Elems(fetched) == visited
    }

    /** Visited names are listed, or still waiting for their dependencies. */
    ghost predicate Valid()
      reads this
    {
      && visited == open + Elems(result) && open !! Elems(result)
      && Logged() && NoDup(result) && Ordered(reg, result)
      && forall a, b :: a in result && Edge(reg, a, b) ==> b in visited
    }

    method Dfs(name: string) returns (ok: bool)
      requires Valid() && forall g :: g in open ==> Reaches(reg, g, name)
      modifies this
      ensures ok ==> Valid() && open == old(open) && old(visited) <= visited && name in visited
      ensures ok ==> old(result) <= result && forall m :: m in result ==> m in old(result) || Reaches(reg, name, m)
      ensures !ok ==> exists m :: Reaches(reg, name, m) && m !in reg
      ensures Logged() && forall m :: m in fetched ==> m in old(fetched) || Reaches(reg, name, m)
      ensures old(fetched) <= fetched
      ensures calls + Listed(reg, old(fetched)) <= old(calls) + 1 + Listed(reg, fetched)
      ensures ok ==> calls + Listed(reg, old(fetched)) == old(calls) + 1 + Listed(reg, fetched)
      decreases reg.Keys - visited
    {
      hide Reaches, Ordered, IsPath, Listed, NoDup;
      calls := calls + 1;
      if name in visited {
        return true;
      }
      ReachesSelf(reg, name);
      ListedMore(reg, fetched, name);
      NoDupAppend(fetched, name);
      visited, open, fetched := visited + {name}, open + {name}, fetched + [name];
      if name !in reg {
        return false;
      }
      ghost var before, visitedNow, openNow := result, visited, open;
      var deps := reg[name];
      for i := 0 to |deps|
        invariant Valid() && open == openNow && visitedNow <= visited && before <= result
        invariant forall j :: 0 <= j < i ==> deps[j] in visited
        invariant forall m :: m in result ==> m in before || Reaches(reg, name, m)
        invariant forall m :: m in fetched ==> m in old(fetched) || Reaches(reg, name, m)
        invariant old(fetched) <= fetched
        invariant calls + Listed(reg, old(fetched)) + |deps| - i == old(calls) + 1 + Listed(reg, fetched)
      {
        assert Edge(reg, name, deps[i]);
        forall g | g in open ensures Reaches(reg, g, deps[i]) {
          ReachesStep(reg, g, name, deps[i]);
        }
        ghost var soFar := result;
        ok := Dfs(deps[i]);
        forall m | Reaches(reg, deps[i], m) ensures Reaches(reg, name, m) {
          ReachesFirst(reg, name, deps[i], m);
        }
        if !ok {
          return;
        }
      }
      Append(reg, result, open, name);
      NoDupAppend(result, name);
      open := open - {name};
      result := result + [name];
      ok := true;
    }
  }

  lemma Append(reg: Registry, r: seq<string>, open: set<string>, name: string)
    requires Ordered(reg, r) && name in reg
    requires forall g :: g in open ==> Reaches(reg, g, name)
    requires forall d :: d in reg[name] ==> d in open || d in r
    ensures Ordered(reg, r + [name])
  {
    hide Reaches;
    forall k: nat | k < |r + [name]| ensures Placed(reg, r + [name], k) {
      assert (r + [name])[..k] == r[..k];
      if k < |r| {
        assert Placed(reg, r, k);
      } else {
        assert r[..k] == r;
      }
    }
  }

  /** `m` is a requested package or a dependency of one. */
  ghost predicate Wanted(reg: Registry, names: seq<string>, m: string) { exists n :: n in names && Reaches(reg, n, m) }

  /**
   `resolve`: None is the error of a name that cannot be fetched. No name is fetched twice, and the search is
   called once for each requested name and each dependency a fetched package lists.
   */
  method Resolve(reg: Registry, names: seq<string>)
    returns (r: Option<seq<string>>, ghost fetched: seq<string>, ghost calls: nat)
    ensures NoDup(fetched) && forall m :: m in fetched ==> Wanted(reg, names, m)
    ensures calls <= |names| + Listed(reg, fetched)
    ensures r.Some? ==> calls == |names| + Listed(reg, fetched) && Elems(fetched) == Elems(r.value)
    ensures r.Some? <==> forall m :: Wanted(reg, names, m) ==> m in reg
    ensures r.Some? ==>
              && NoDup(r.value)
              && (forall m :: m in r.value <==> Wanted(reg, names, m))
              && Ordered(reg, r.value)
              && (Topological(reg, r.value) <==> Acyclic(reg, r.value))
  {
    hide Reaches, Ordered, Topological, Acyclic, Wanted, Listed;
    var s := new Resolver(reg);
    NothingListed(reg);
    for i := 0 to |names|
      invariant s.reg == reg && s.Valid() && s.open == {}
      invariant forall j :: 0 <= j < i ==> names[j] in s.visited
      invariant forall m :: m in s.result ==> Wanted(reg, names, m)
      invariant forall m :: m in s.fetched ==> Wanted(reg, names, m)
      invariant s.calls == i + Listed(reg, s.fetched)
    {
      NameWants(reg, names, i);
      var ok := s.Dfs(names[i]);
      if !ok {
        return None, s.fetched, s.calls;
      }
    }
    Closure(reg, names, s.result);
    TopologicalIffAcyclic(reg, s.result);
    r, fetched, calls := Some(s.result), s.fetched, s.calls;
  }

  lemma NothingListed(reg: Registry)
    ensures Listed(reg, []) == 0
  {
  }

  lemma NameWants(reg: Registry, names: seq<string>, i: nat)
    requires i < |names|
    ensures forall m :: Reaches(reg, names[i], m) ==> Wanted(reg, names, m)
  {
    hide Reaches;
    assert names[i] in names;
  }

  lemma Closure(reg: Registry, names: seq<string>, r: seq<string>)
    requires Ordered(reg, r) && ClosedUnder(reg, Elems(r))
    requires forall n :: n in names ==> n in r
    ensures forall m :: Wanted(reg, names, m) ==> m in r && m in reg
  {
    forall m | Wanted(reg, names, m) ensures m in r && m in reg {
      var n :| n in names && Reaches(reg, n, m);
      var p :| IsPath(reg, p, n, m);
      ClosedKeeps(reg, Elems(r), p, n, m);
      var k: nat :| k < |r| && r[k] == m;
      assert Placed(reg, r, k);
    }
  }
}
