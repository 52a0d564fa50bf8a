/** The module loader: a depth-first walk over `After`, then one setup per module (core.go:138-201). */
module Loader {
  import opened Common

  /** A registered module: its name and the modules whose services it consumes. */
  datatype Info = Info(name: string, after: seq<string>)

  /** Candidate modules by name; a later registration of a name replaces an earlier one. */
  type Graph = map<string, seq<string>>

  datatype Dfs = Dfs(seen: set<string>, order: seq<string>)

  function Candidates(registry: seq<Info>): Graph {
    if registry == [] then map[]
    else
      var m := registry[|registry| - 1];
      Candidates(registry[..|registry| - 1])[m.name := m.after]
  }

  // ------------------------------------------------------------------ the walk

  function VisitFrom(g: Graph, n: string, st: Dfs): (r: Dfs)
    ensures st.seen <= r.seen
    decreases g.Keys - st.seen, 0
  {
    if n in st.seen || n !in g then st
    else
      var t := VisitAll(g, g[n], st.(seen := st.seen + {n}));
      t.(order := t.order + [n])
  }

  function VisitAll(g: Graph, ns: seq<string>, st: Dfs): (r: Dfs)
    ensures st.seen <= r.seen
    decreases g.Keys - st.seen, 1 + |ns|
  {
    if ns == [] then st else VisitFrom(g, ns[|ns| - 1], VisitAll(g, ns[..|ns| - 1], st))
  }

  // -------------------------------------------------------------- sorted names

  predicate StrictlySorted(xs: seq<string>) {
    forall i, j :: 0 <= i < j < |xs| ==> StrLess(xs[i], xs[j])
  }

  function Elements(xs: seq<string>): set<string> { set x | x in xs }

  /** sort.Strings, as an insertion sort. */
  function Insert(x: string, xs: seq<string>): seq<string> {
    if xs == [] || StrLess(x, xs[0]) then [x] + xs else [xs[0]] + Insert(x, xs[1..])
  }

  function Sort(xs: seq<string>): seq<string> {
    if xs == [] then [] else Insert(xs[|xs| - 1], Sort(xs[..|xs| - 1]))
  }

  lemma {:induction false} InsertSorted(x: string, xs: seq<string>)
    requires StrictlySorted(xs) && x !in xs
    ensures StrictlySorted(Insert(x, xs)) && Elements(Insert(x, xs)) == Elements(xs) + {x}
  {
    if xs != [] {
      var tail := xs[1..];
      assert xs == [xs[0]] + tail;
      StrLessTotal(x, xs[0]);
      if StrLess(x, xs[0]) {
        forall j | 0 <= j < |xs|
          ensures StrLess(x, xs[j])
        {
          if j > 0 { StrLessTrans(x, xs[0], xs[j]); }
        }
      } else {
        InsertSorted(x, tail);
        forall y | y in Insert(x, tail)
          ensures StrLess(xs[0], y)
        {
          assert y in Elements(Insert(x, tail));
          if y != x {
            var j :| 0 <= j < |tail| && tail[j] == y;
            assert xs[j + 1] == y;
          }
        }
      }
    }
  }

  lemma {:induction false} SortSorts(xs: seq<string>)
    requires NoDuplicates(xs)
    ensures StrictlySorted(Sort(xs)) && Elements(Sort(xs)) == Elements(xs)
  {
    if xs != [] {
      var front, x := xs[..|xs| - 1], xs[|xs| - 1];
      assert xs == front + [x];
      SortSorts(front);
      assert x !in Elements(Sort(front));
      InsertSorted(x, Sort(front));
    }
  }

  lemma NonEmptyElements(xs: seq<string>)
    ensures xs != [] ==> Elements(xs) != {}
  {
    if xs != [] { assert xs[0] in Elements(xs); }
  }

  /** There is only one way to list a set of names in order, so map iteration order cannot matter. */
  lemma {:induction false} SortedListingUnique(xs: seq<string>, ys: seq<string>)
    requires StrictlySorted(xs) && StrictlySorted(ys) && Elements(xs) == Elements(ys)
    ensures xs == ys
  {
    NonEmptyElements(ys);
    if xs != [] {
      assert xs[0] in Elements(ys) && (ys == [] || ys[0] in Elements(xs));
      var i :| 0 <= i < |ys| && ys[i] == xs[0];
      var j :| 0 <= j < |xs| && xs[j] == ys[0];
      StrLessTotal(xs[0], ys[0]);
      assert xs[0] == ys[0];
      forall x | x in xs[1..]
        ensures x != xs[0]
      {
        StrLessTotal(xs[0], xs[0]);
      }
      forall y | y in ys[1..]
        ensures y != xs[0]
      {
        StrLessTotal(xs[0], xs[0]);
      }
      assert xs == [xs[0]] + xs[1..] && ys == [ys[0]] + ys[1..];
      assert Elements(xs[1..]) == Elements(xs) - {xs[0]};
      assert Elements(ys[1..]) == Elements(ys) - {ys[0]};
      SortedListingUnique(xs[1..], ys[1..]);
    }
  }

  /** The order in which modules are loaded, for a given sorted listing of their names. */
  function LoadOrder(g: Graph, names: seq<string>): seq<string> {
    VisitAll(g, names, Dfs({}, [])).order
  }

  ghost predicate IsListing(g: Graph, names: seq<string>) {
    StrictlySorted(names) && Elements(names) == g.Keys
  }

  // -------------------------------------------------------------- the loader

  class Core {
    var cands: Graph
    var seen: set<string>
    var order: seq<string>
    var infos: set<string>
    var modules: set<string>
    var errors: set<string>
    /** The modules whose Setup ran, in order, and what was loaded at that moment. */
    ghost var setups: seq<(string, set<string>)>

    constructor ()
      ensures cands == map[] && infos == modules == errors == {}
    {
      cands, seen, order, infos, modules, errors, setups := map[], {}, [], {}, {}, {}, [];
    }

    method Visit(n: string)
      modifies this`seen, this`order
      ensures Dfs(seen, order) == VisitFrom(cands, n, old(Dfs(seen, order)))
      decreases cands.Keys - seen
    {
      if n in seen {
        return;
      }
      if n !in cands {
        return;
      }
      seen := seen + {n};
      ghost var st := Dfs(seen, order);
      var deps := cands[n];
      for i := 0 to |deps|
        invariant Dfs(seen, order) == VisitAll(cands, deps[..i], st)
      {
        assert deps[..i + 1][..i] == deps[..i];
        Visit(deps[i]);
      }
      assert deps[..|deps|] == deps;
      order := order + [n];
    }

    /** `enabled` and `fails` stand for the configuration and for what each Setup answers. */
    method LoadModules(registry: seq<Info>, enabled: set<string>, fails: set<string>) returns (ghost names: seq<string>)
      requires cands == map[] && infos == modules == errors == {}
      modifies this
      ensures cands == Candidates(registry) && IsListing(cands, names)
      ensures order == LoadOrder(cands, names)
      ensures infos == Elements(order)
      ensures modules == (Elements(order) * enabled) - fails
      ensures errors == Elements(order) * enabled * fails
      ensures SetupsFollow(setups, order, enabled, fails)
    {
      for i := 0 to |registry|
        invariant cands == Candidates(registry[..i])
        invariant infos == modules == errors == {}
      {
        assert registry[..i + 1][..i] == registry[..i];
        cands := cands[registry[i].name := registry[i].after];
      }
      assert registry[..|registry|] == registry;
      seen, order := {}, [];
      var sorted := ListNames();
      names := sorted;
      for i := 0 to |sorted|
        invariant Dfs(seen, order) == VisitAll(cands, sorted[..i], Dfs({}, []))
        invariant cands == Candidates(registry) && infos == modules == errors == {}
      {
        assert sorted[..i + 1][..i] == sorted[..i];
        Visit(sorted[i]);
      }
      assert sorted[..|sorted|] == sorted;
      SetUpAll(enabled, fails);
    }

    /** The registered names, sorted. */
    method ListNames() returns (names: seq<string>)
      ensures IsListing(cands, names)
    {
      var left, listed: seq<string> := cands.Keys, [];
      while left != {}
        invariant left <= cands.Keys && Elements(listed) == cands.Keys - left
        invariant NoDuplicates(listed)
        decreases left
      {
        var n :| n in left;
        assert n !in Elements(listed);
        assert Elements(listed + [n]) == Elements(listed) + {n};
        left := left - {n};
        listed := listed + [n];
      }
      SortSorts(listed);
      names := Sort(listed);
    }

    method SetUpAll(enabled: set<string>, fails: set<string>)
      requires infos == modules == errors == {}
      modifies this`infos, this`modules, this`errors, this`setups
      ensures infos == Elements(order)
      ensures modules == (Elements(order) * enabled) - fails
      ensures errors == Elements(order) * enabled * fails
      ensures SetupsFollow(setups, order, enabled, fails)
    {
      setups := [];
      assert order[..0] == [];
      for i := 0 to |order|
        invariant infos == Elements(order[..i])
        invariant modules == Elements(order[..i]) * enabled - fails
        invariant errors == Elements(order[..i]) * enabled * fails
        invariant SetupsFollow(setups, order[..i], enabled, fails)
      {
        var n := order[i];
        assert order[..i + 1] == order[..i] + [n];
        assert Elements(order[..i + 1]) == Elements(order[..i]) + {n};
        infos := infos + {n};
        if n !in enabled {
          continue;
        }
        setups := setups + [(n, modules)];
        if n in fails {
          errors := errors + {n};
          continue;
        }
        modules := modules + {n};
      }
      assert order[..|order|] == order;
    }
  }

  /** Setup runs once for each enabled module in load order, seeing the earlier ones that did not fail. */
  ghost predicate SetupsFollow(setups: seq<(string, set<string>)>, order: seq<string>,
                               enabled: set<string>, fails: set<string>)
  {
    if order == [] then setups == []
    else
      var front, n := order[..|order| - 1], order[|order| - 1];
      if n in enabled then
        && setups != []
        && setups[|setups| - 1] == (n, Elements(front) * enabled - fails)
        && SetupsFollow(setups[..|setups| - 1], front, enabled, fails)
      else SetupsFollow(setups, front, enabled, fails)
  }

  // ------------------------------------------------------------ paths and cycles

  predicate Edge(g: Graph, a: string, b: string) {
    a in g && b in g && b in g[a]
  }

  ghost predicate IsPath(g: Graph, p: seq<string>) {
    forall i :: 0 <= i < |p| - 1 ==> Edge(g, p[i], p[i + 1])
  }

  /** No module comes, directly or through others, after itself. */
  ghost predicate Acyclic(g: Graph) {
    forall p: seq<string> :: IsPath(g, p) && |p| >= 2 ==> p[0] != p[|p| - 1]
  }

  /** b is a, or comes after it directly or through others. */
  ghost predicate Reaches(g: Graph, a: string, b: string) {
    exists p: seq<string> :: IsPath(g, p) && p != [] && p[0] == a && p[|p| - 1] == b
  }

  /** A registered dependency of a loaded module is loaded before it, unless it depends on it in turn. */
  ghost predicate FirstUnlessMutual(g: Graph, order: seq<string>) {
    forall i, d :: 0 <= i < |order| && Edge(g, order[i], d) ==> d in order[..i] || Reaches(g, d, order[i])
  }

  /** Every registered dependency of a loaded module is loaded before it. */
  ghost predicate DependenciesFirst(g: Graph, order: seq<string>) {
    forall i, d :: 0 <= i < |order| && Edge(g, order[i], d) ==> d in order[..i]
  }

  ghost predicate NoDuplicates(xs: seq<string>) {
    forall i, j :: 0 <= i < j < |xs| ==> xs[i] != xs[j]
  }

  /** State of the walk below the stack `path` of modules whose dependencies are being visited. */
  ghost predicate Good(g: Graph, path: seq<string>, st: Dfs) {
    && st.seen <= g.Keys
    && IsPath(g, path)
    && NoDuplicates(st.order)
    && st.seen == Elements(st.order) + Elements(path)
    && Elements(st.order) !! Elements(path)
    && FirstUnlessMutual(g, st.order)
  }

  /** A module of the stack reaches every one above it. */
  lemma StackReaches(g: Graph, path: seq<string>, d: string)
    requires IsPath(g, path) && d in path
    ensures Reaches(g, d, path[|path| - 1])
  {
    var i :| 0 <= i < |path| && path[i] == d;
    var p := path[i..];
    forall k | 0 <= k < |p| - 1
      ensures Edge(g, p[k], p[k + 1])
    {
      assert Edge(g, path[i + k], path[i + k + 1]);
    }
    assert IsPath(g, p) && p[0] == d && p[|p| - 1] == path[|path| - 1];
  }

  lemma {:induction false} VisitGood(g: Graph, path: seq<string>, n: string, st: Dfs)
    requires Good(g, path, st) && (n in g ==> IsPath(g, path + [n]))
    ensures Good(g, path, VisitFrom(g, n, st))
    ensures n in g ==> n in VisitFrom(g, n, st).seen
    ensures st.order <= VisitFrom(g, n, st).order
    decreases g.Keys - st.seen, 0
  {
    if n !in st.seen && n in g {
      var st1, path1 := st.(seen := st.seen + {n}), path + [n];
      assert Elements(path1) == Elements(path) + {n};
      forall d | d in g[n] && d in g
        ensures IsPath(g, path1 + [d])
      {
        assert Edge(g, n, d);
      }
      VisitAllGood(g, path1, g[n], st1);
      var t := VisitAll(g, g[n], st1);
      var r := t.(order := t.order + [n]);
      assert Elements(r.order) == Elements(t.order) + {n};
      assert n in Elements(path1);
      forall i, d | 0 <= i < |r.order| && Edge(g, r.order[i], d)
        ensures d in r.order[..i] || Reaches(g, d, r.order[i])
      {
        assert i < |t.order| ==> r.order[..i] == t.order[..i];
        assert r.order[..|t.order|] == t.order;
        if i == |t.order| && d !in t.order {
          assert d in Elements(t.order) + Elements(path1);
          StackReaches(g, path1, d);
        }
      }
    }
  }

  lemma {:induction false} VisitAllGood(g: Graph, path: seq<string>, ns: seq<string>, st: Dfs)
    requires Good(g, path, st) && forall n :: n in ns && n in g ==> IsPath(g, path + [n])
    ensures Good(g, path, VisitAll(g, ns, st))
    ensures forall n :: n in ns && n in g ==> n in VisitAll(g, ns, st).seen
    ensures st.order <= VisitAll(g, ns, st).order
    decreases g.Keys - st.seen, 1 + |ns|
  {
    if ns != [] {
      var front, n := ns[..|ns| - 1], ns[|ns| - 1];
      assert ns == front + [n];
      VisitAllGood(g, path, front, st);
      VisitGood(g, path, n, VisitAll(g, front, st));
    }
  }

  // ------------------------------------------------------------- main theorems

  /** Even on a cyclic graph the walk ends with every registered module exactly once. */
  lemma LoadsEveryModuleOnce(g: Graph, names: seq<string>)
    requires IsListing(g, names)
    ensures NoDuplicates(LoadOrder(g, names)) && Elements(LoadOrder(g, names)) == g.Keys
  {
    VisitAllGood(g, [], names, Dfs({}, []));
    assert forall n :: n in g ==> n in Elements(names);
  }

  /** Along a path, positions in an order that has dependencies first go down. */
  lemma {:induction false} PathGoesDown(g: Graph, order: seq<string>, p: seq<string>, i: nat)
    requires DependenciesFirst(g, order) && IsPath(g, p) && |p| >= 2
    requires i < |order| && order[i] == p[0]
    ensures p[|p| - 1] in order[..i]
  {
    assert Edge(g, p[0], p[1]);
    var j :| 0 <= j < i && order[j] == p[1];
    if |p| > 2 {
      var q := p[1..];
      forall k | 0 <= k < |q| - 1
        ensures Edge(g, q[k], q[k + 1])
      {
        assert Edge(g, p[k + 1], p[k + 2]);
      }
      PathGoesDown(g, order, q, j);
      assert order[..j] <= order[..i];
    }
  }

  /** An edge back from where a path leads closes a cycle. */
  lemma EdgeAndWayBack(g: Graph, a: string, d: string)
    requires Edge(g, a, d) && Reaches(g, d, a)
    ensures !Acyclic(g)
  {
    var p: seq<string> :| IsPath(g, p) && p != [] && p[0] == d && p[|p| - 1] == a;
    var q := [a] + p;
    forall k | 0 <= k < |q| - 1
      ensures Edge(g, q[k], q[k + 1])
    {
      if k > 0 { assert Edge(g, p[k - 1], p[k]); }
    }
    assert IsPath(g, q) && |q| >= 2 && q[0] == q[|q| - 1];
  }

  /** LOAD ORDER, on every graph: a registered dependency is loaded before its dependent, unless it
      depends on it in turn. A cycle disturbs the order of its own modules only. */
  lemma DependencyFirstUnlessMutual(g: Graph, names: seq<string>, i: nat, d: string)
    requires IsListing(g, names) && i < |LoadOrder(g, names)| && Edge(g, LoadOrder(g, names)[i], d)
    ensures d in LoadOrder(g, names)[..i] || Reaches(g, d, LoadOrder(g, names)[i])
  {
    VisitAllGood(g, [], names, Dfs({}, []));
  }

  /** TOPOLOGICAL ORDER: every dependency is loaded before its dependents if and only if the graph of
      registered modules has no cycle. */
  lemma DependenciesFirstIffAcyclic(g: Graph, names: seq<string>)
    requires IsListing(g, names)
    ensures DependenciesFirst(g, LoadOrder(g, names)) <==> Acyclic(g)
  {
    var order := LoadOrder(g, names);
    LoadsEveryModuleOnce(g, names);
    if DependenciesFirst(g, order) {
      forall p: seq<string> | IsPath(g, p) && |p| >= 2
        ensures p[0] != p[|p| - 1]
      {
        assert Edge(g, p[0], p[1]);
        assert p[0] in Elements(order);
        var i :| 0 <= i < |order| && order[i] == p[0];
        PathGoesDown(g, order, p, i);
      }
    }
    if Acyclic(g) {
      forall i, d | 0 <= i < |order| && Edge(g, order[i], d)
        ensures d in order[..i]
      {
        DependencyFirstUnlessMutual(g, names, i, d);
        if Reaches(g, d, order[i]) { EdgeAndWayBack(g, order[i], d); }
      }
    }
  }

  // ------------------------------------------------------ the order of visits

  /** A path from a to b through registered modules that were not seen. */
  ghost predicate Open(g: Graph, seen: set<string>, p: seq<string>, a: string, b: string) {
    && p != [] && p[0] == a && p[|p| - 1] == b && IsPath(g, p)
    && forall i :: 0 <= i < |p| ==> p[i] in g && p[i] !in seen
  }

  ghost predicate Opens(g: Graph, seen: set<string>, a: string, b: string) {
    exists p :: Open(g, seen, p, a, b)
  }

  /** b is opened by one of the listed modules. */
  ghost predicate OpensAny(g: Graph, seen: set<string>, ns: seq<string>, b: string) {
    exists i :: 0 <= i < |ns| && Opens(g, seen, ns[i], b)
  }

  lemma OpenSelf(g: Graph, seen: set<string>, a: string)
    requires a in g && a !in seen
    ensures Opens(g, seen, a, a)
  {
    assert Open(g, seen, [a], a, a);
  }

  lemma PathSlice(g: Graph, p: seq<string>, i: nat, j: nat)
    requires IsPath(g, p) && i <= j <= |p|
    ensures IsPath(g, p[i..j])
  {
    forall k | 0 <= k < |p[i..j]| - 1
      ensures Edge(g, p[i..j][k], p[i..j][k + 1])
    {
      assert Edge(g, p[i + k], p[i + k + 1]);
    }
  }

  lemma PathJoin(g: Graph, p: seq<string>, q: seq<string>)
    requires IsPath(g, p) && IsPath(g, q) && (p != [] && q != [] ==> Edge(g, p[|p| - 1], q[0]))
    ensures IsPath(g, p + q)
  {
    forall k | 0 <= k < |p + q| - 1
      ensures Edge(g, (p + q)[k], (p + q)[k + 1])
    {
      if k < |p| - 1 {
        assert Edge(g, p[k], p[k + 1]);
      } else if k >= |p| {
        assert Edge(g, q[k - |p|], q[k - |p| + 1]);
      }
    }
  }

  lemma OpenSlice(g: Graph, seen: set<string>, p: seq<string>, a: string, b: string, i: nat, j: nat)
    requires Open(g, seen, p, a, b) && i < j <= |p|
    ensures Opens(g, seen, p[i], p[j - 1]) && Open(g, seen, p[i..j], p[i], p[j - 1])
  {
    var q := p[i..j];
    PathSlice(g, p, i, j);
    assert q[0] == p[i] && q[|q| - 1] == p[j - 1];
    assert forall k :: 0 <= k < |q| ==> q[k] == p[i + k];
    assert Open(g, seen, q, p[i], p[j - 1]);
  }

  lemma OpensStart(g: Graph, seen: set<string>, a: string, b: string)
    ensures Opens(g, seen, a, b) ==> a in g && a !in seen
  {
    if Opens(g, seen, a, b) {
      var p :| Open(g, seen, p, a, b);
      assert p[0] in g && p[0] !in seen;
    }
  }

  /** Two open paths that meet join. */
  lemma OpensJoin(g: Graph, seen: set<string>, a: string, b: string, c: string)
    requires Opens(g, seen, a, b) && Opens(g, seen, b, c)
    ensures Opens(g, seen, a, c)
  {
    var p :| Open(g, seen, p, a, b);
    var q :| Open(g, seen, q, b, c);
    if |q| > 1 {
      var tail := q[1..|q|];
      PathSlice(g, q, 1, |q|);
      assert Edge(g, q[0], q[1]);
      PathJoin(g, p, tail);
      assert Open(g, seen, p + tail, a, c);
    }
  }

  /** A path either stays outside `more` as well, or its end is opened by a module of `more`. */
  lemma OpenOrThrough(g: Graph, seen: set<string>, more: set<string>, a: string, b: string)
    requires seen <= more && Opens(g, seen, a, b)
    ensures Opens(g, more, a, b) || exists x :: x in more - seen && Opens(g, seen, a, x) && Opens(g, seen, x, b)
  {
    var p :| Open(g, seen, p, a, b);
    if forall i :: 0 <= i < |p| ==> p[i] !in more {
      assert Open(g, more, p, a, b);
    } else {
      var i :| 0 <= i < |p| && p[i] in more;
      OpenSlice(g, seen, p, a, b, 0, i + 1);
      OpenSlice(g, seen, p, a, b, i, |p|);
      assert p[i] in more - seen && Opens(g, seen, a, p[i]) && Opens(g, seen, p[i], b);
    }
  }

  lemma OpensMore(g: Graph, seen: set<string>, more: set<string>, a: string, b: string)
    requires seen <= more && Opens(g, more, a, b)
    ensures Opens(g, seen, a, b)
  {
    var p :| Open(g, more, p, a, b);
    assert Open(g, seen, p, a, b);
  }

  /** The last step away from n: what n opens is n or opened by one of its dependencies without n. */
  lemma {:induction false} OpensByDependency(g: Graph, seen: set<string>, n: string, p: seq<string>, b: string)
    requires n in g && Open(g, seen, p, n, b) && b != n
    ensures OpensAny(g, seen + {n}, g[n], b)
    decreases |p|
  {
    assert |p| > 1;
    assert Edge(g, p[0], p[1]);
    if exists i :: 1 <= i < |p| && p[i] == n {
      var i :| 1 <= i < |p| && p[i] == n;
      OpenSlice(g, seen, p, n, b, i, |p|);
      OpensByDependency(g, seen, n, p[i..|p|], b);
    } else {
      OpenSlice(g, seen, p, n, b, 1, |p|);
      var q := p[1..|p|];
      assert forall k :: 0 <= k < |q| ==> q[k] == p[k + 1];
      assert Open(g, seen + {n}, q, p[1], b);
      var i :| 0 <= i < |g[n]| && g[n][i] == p[1];
      assert Opens(g, seen + {n}, g[n][i], b);
    }
  }

  lemma DependencyOpens(g: Graph, seen: set<string>, n: string, b: string)
    requires n in g && n !in seen && OpensAny(g, seen + {n}, g[n], b)
    ensures Opens(g, seen, n, b)
  {
    var i :| 0 <= i < |g[n]| && Opens(g, seen + {n}, g[n][i], b);
    var p :| Open(g, seen + {n}, p, g[n][i], b);
    assert Edge(g, n, p[0]);
    PathJoin(g, [n], p);
    assert Open(g, seen, [n] + p, n, b);
  }

  /** A visit sees exactly what was seen and what it opens, and puts all of that into the order. */
  lemma {:induction false} VisitSees(g: Graph, n: string, st: Dfs, m: string)
    ensures m in VisitFrom(g, n, st).seen <==> m in st.seen || Opens(g, st.seen, n, m)
    ensures m in VisitFrom(g, n, st).order <==> m in st.order || Opens(g, st.seen, n, m)
    decreases g.Keys - st.seen, 0
  {
    if n in st.seen || n !in g {
      OpensStart(g, st.seen, n, m);
    } else {
      var st1 := st.(seen := st.seen + {n});
      VisitAllSees(g, g[n], st1, m);
      OpenSelf(g, st.seen, n);
      if Opens(g, st.seen, n, m) && m != n {
        var p :| Open(g, st.seen, p, n, m);
        OpensByDependency(g, st.seen, n, p, m);
      }
      if OpensAny(g, st1.seen, g[n], m) { DependencyOpens(g, st.seen, n, m); }
    }
  }

  lemma {:induction false} VisitAllSees(g: Graph, ns: seq<string>, st: Dfs, m: string)
    ensures m in VisitAll(g, ns, st).seen <==> m in st.seen || OpensAny(g, st.seen, ns, m)
    ensures m in VisitAll(g, ns, st).order <==> m in st.order || OpensAny(g, st.seen, ns, m)
    decreases g.Keys - st.seen, 1 + |ns|
  {
    if ns != [] {
      var front, n := ns[..|ns| - 1], ns[|ns| - 1];
      var t := VisitAll(g, front, st);
      assert ns == front + [n];
      VisitAllSees(g, front, st, m);
      VisitSees(g, n, t, m);
      if Opens(g, t.seen, n, m) { OpensMore(g, st.seen, t.seen, n, m); }
      if Opens(g, st.seen, n, m) {
        OpenOrThrough(g, st.seen, t.seen, n, m);
        if !Opens(g, t.seen, n, m) {
          var x :| x in t.seen - st.seen && Opens(g, st.seen, n, x) && Opens(g, st.seen, x, m);
          VisitAllSees(g, front, st, x);
          var i :| 0 <= i < |front| && Opens(g, st.seen, front[i], x);
          OpensJoin(g, st.seen, front[i], x, m);
          assert Opens(g, st.seen, front[i], m);
        }
      }
      SplitAny(g, st.seen, front, n, m);
    }
  }

  lemma SplitAny(g: Graph, seen: set<string>, front: seq<string>, n: string, m: string)
    ensures OpensAny(g, seen, front + [n], m) <==> OpensAny(g, seen, front, m) || Opens(g, seen, n, m)
  {
    var ns := front + [n];
    if OpensAny(g, seen, front, m) {
      var i :| 0 <= i < |front| && Opens(g, seen, front[i], m);
      assert ns[i] == front[i];
    }
    if Opens(g, seen, n, m) { assert ns[|front|] == n; }
    if OpensAny(g, seen, ns, m) {
      var i :| 0 <= i < |ns| && Opens(g, seen, ns[i], m);
      assert i < |front| ==> front[i] == ns[i];
    }
  }

  lemma {:induction false} VisitGrows(g: Graph, n: string, st: Dfs)
    ensures st.order <= VisitFrom(g, n, st).order
    decreases g.Keys - st.seen, 0
  {
    if n !in st.seen && n in g { VisitAllGrows(g, g[n], st.(seen := st.seen + {n})); }
  }

  lemma {:induction false} VisitAllGrows(g: Graph, ns: seq<string>, st: Dfs)
    ensures st.order <= VisitAll(g, ns, st).order
    decreases g.Keys - st.seen, 1 + |ns|
  {
    if ns != [] {
      VisitAllGrows(g, ns[..|ns| - 1], st);
      VisitGrows(g, ns[|ns| - 1], VisitAll(g, ns[..|ns| - 1], st));
    }
  }

  lemma {:induction false} VisitAllPrefix(g: Graph, ns: seq<string>, st: Dfs, k: nat)
    requires k <= |ns|
    ensures VisitAll(g, ns[..k], st).order <= VisitAll(g, ns, st).order
  {
    if k == |ns| {
      assert ns[..k] == ns;
    } else {
      var front := ns[..|ns| - 1];
      VisitAllPrefix(g, front, st, k);
      assert front[..k] == ns[..k];
      VisitGrows(g, ns[|ns| - 1], VisitAll(g, front, st));
    }
  }

  /** IN TURN: a list of modules, the sorted names or what one module comes after, is visited from the
      front. The order splits, for each k, into what was there and what the first k open, and then the
      rest. */
  lemma VisitsInTurn(g: Graph, ns: seq<string>, st: Dfs, k: nat) returns (n: nat)
    requires k <= |ns|
    ensures var order := VisitAll(g, ns, st).order;
      && n <= |order|
      && forall m :: m in order[..n] <==> m in st.order || OpensAny(g, st.seen, ns[..k], m)
  {
    var first := VisitAll(g, ns[..k], st);
    VisitAllPrefix(g, ns, st, k);
    n := |first.order|;
    assert VisitAll(g, ns, st).order[..n] == first.order;
    forall m
      ensures m in first.order <==> m in st.order || OpensAny(g, st.seen, ns[..k], m)
    {
      VisitAllSees(g, ns[..k], st, m);
    }
  }

  /** Modules are loaded in blocks by sorted name: the load order begins with exactly the modules that
      the first k names reach. */
  lemma LoadsInNameOrder(g: Graph, names: seq<string>, k: nat) returns (n: nat)
    requires IsListing(g, names) && k <= |names|
    ensures n <= |LoadOrder(g, names)|
    ensures forall m :: m in LoadOrder(g, names)[..n] <==>
              m in g && exists i :: 0 <= i < k && Reaches(g, names[i], m)
  {
    n := VisitsInTurn(g, names, Dfs({}, []), k);
    forall m
      ensures OpensAny(g, {}, names[..k], m) <==> m in g && exists i :: 0 <= i < k && Reaches(g, names[i], m)
    {
      if OpensAny(g, {}, names[..k], m) {
        var i :| 0 <= i < |names[..k]| && Opens(g, {}, names[..k][i], m);
        var p :| Open(g, {}, p, names[i], m);
        assert Reaches(g, names[i], m);
      }
      if m in g && exists i :: 0 <= i < k && Reaches(g, names[i], m) {
        var i :| 0 <= i < k && Reaches(g, names[i], m);
        var p: seq<string> :| IsPath(g, p) && p != [] && p[0] == names[i] && p[|p| - 1] == m;
        assert names[i] in Elements(names);
        forall j | 0 <= j < |p|
          ensures p[j] in g
        {
          if j > 0 { assert Edge(g, p[j - 1], p[j]); }
        }
        assert Open(g, {}, p, names[i], m);
        assert names[..k][i] == names[i];
      }
    }
  }

  /** The last registration of a name is the one that counts. */
  lemma {:induction false} LastRegistrationWins(registry: seq<Info>, i: nat)
    requires i < |registry| && forall j :: i < j < |registry| ==> registry[j].name != registry[i].name
    ensures registry[i].name in Candidates(registry) && Candidates(registry)[registry[i].name] == registry[i].after
  {
    if i < |registry| - 1 {
      LastRegistrationWins(registry[..|registry| - 1], i);
    }
  }

  lemma {:induction false} CandidatesAre(registry: seq<Info>)
    requires forall i, j :: 0 <= i < j < |registry| ==> registry[i].name != registry[j].name
    ensures forall m :: m in registry ==> m.name in Candidates(registry) && Candidates(registry)[m.name] == m.after
    ensures forall n :: n in Candidates(registry) ==> exists m :: m in registry && m.name == n
  {
    if registry != [] {
      var front, m := registry[..|registry| - 1], registry[|registry| - 1];
      assert registry == front + [m];
      CandidatesAre(front);
      forall x | x in front
        ensures x.name != m.name
      {
        var i :| 0 <= i < |front| && front[i] == x;
        assert registry[i] == x;
      }
    }
  }

  /** Registering the same modules in another order gives the same load order. */
  lemma RegistrationOrderIrrelevant(a: seq<Info>, b: seq<Info>, na: seq<string>, nb: seq<string>)
    requires forall i, j :: 0 <= i < j < |a| ==> a[i].name != a[j].name
    requires forall i, j :: 0 <= i < j < |b| ==> b[i].name != b[j].name
    requires forall m :: m in a <==> m in b
    requires IsListing(Candidates(a), na) && IsListing(Candidates(b), nb)
    ensures LoadOrder(Candidates(a), na) == LoadOrder(Candidates(b), nb)
  {
    CandidatesAre(a);
    CandidatesAre(b);
    assert Candidates(a) == Candidates(b);
    SortedListingUnique(na, nb);
  }

  /** Without a cycle, when a module is set up every enabled dependency that did not fail is loaded. */
  lemma {:induction false} DependenciesAreUp(g: Graph, setups: seq<(string, set<string>)>, order: seq<string>,
                                             enabled: set<string>, fails: set<string>)
    requires DependenciesFirst(g, order) && SetupsFollow(setups, order, enabled, fails)
    ensures forall s, d :: s in setups && Edge(g, s.0, d) && d in enabled && d !in fails ==> d in s.1
  {
    if order != [] {
      var front, n := order[..|order| - 1], order[|order| - 1];
      forall i, d | 0 <= i < |front| && Edge(g, front[i], d)
        ensures d in front[..i]
      {
        assert Edge(g, order[i], d) && front[..i] == order[..i];
      }
      assert DependenciesFirst(g, front);
      if n in enabled {
        assert setups == setups[..|setups| - 1] + [setups[|setups| - 1]];
        DependenciesAreUp(g, setups[..|setups| - 1], front, enabled, fails);
        assert order[..|order| - 1] == front;
      } else {
        DependenciesAreUp(g, setups, front, enabled, fails);
      }
    }
  }
}
