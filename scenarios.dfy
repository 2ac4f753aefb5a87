/**
 * Small chunk graphs resolved through `ImportResolver` and pinned down from
 * its contract alone: the two entries sharing an import that the plugin's
 * `inject to html` test bundles, and three illustrative graphs of our own
 * (a diamond, two independent imports, a three-chunk cycle).
 */
module Scenarios {
  import opened Graph
  import opened Resolver

  /** A resolved list holds only chunks of any closed set that contains its entry. */
  lemma ListWithin(b: Bundle, k: Key, s: seq<Key>, S: set<Key>)
    requires DependencyOrder(b, k, s) && k in S && ClosedUnder(b, S)
    ensures Elems(s) <= S
  {
    forall x | x in s ensures x in S {
      ClosedContainsReached(b, S, k, x);
    }
  }

  /**
   * When `S` is closed, holds `k` and everything in it is reachable from
   * `k`, the resolved list for `k` is `S` with each member once.
   */
  lemma ListIsReachableSet(b: Bundle, k: Key, s: seq<Key>, S: set<Key>)
    requires DependencyOrder(b, k, s) && k in S && ClosedUnder(b, S)
    requires forall x :: x in S ==> Reaches(b, k, x)
    ensures multiset(s) == multiset(S)
  {
    ListWithin(b, k, s, S);
    forall x ensures multiset(s)[x] == multiset(S)[x] {
      ExactlyOnce(b, k, s, x);
    }
  }

  /** An entry with one import `d` that imports nothing resolves to `[d, k]`. */
  lemma PairList(b: Bundle, k: Key, d: Key, s: seq<Key>)
    requires k != d && k in b && d in b && b[k].imports == [d] && b[d].imports == []
    requires DependencyOrder(b, k, s)
    ensures s == [d, k]
  {
    assert IsPath(b, [k, d]);
    assert d in s;
    var S := {k, d};
    ListWithin(b, k, s, S);
    assert Elems(s) == S;
    NoDupElems(s);
    assert |s| == 2;
    assert s[1] == k;
  }

  /** On an acyclic graph, the chain `k` imports `m` imports `d` resolves to `[d, m, k]`. */
  lemma ChainList(b: Bundle, k: Key, m: Key, d: Key, s: seq<Key>)
    requires k != m && m != d && k != d
    requires k in b && m in b && d in b
    requires b[k].imports == [m] && b[m].imports == [d] && b[d].imports == []
    requires Acyclic(b) && DependencyOrder(b, k, s)
    ensures s == [d, m, k]
  {
    assert IsPath(b, [k, m]) && IsPath(b, [k, m, d]);
    assert m in s && d in s;
    var S := {k, m, d};
    ListWithin(b, k, s, S);
    assert Elems(s) == S;
    NoDupElems(s);
    assert |s| == 3 && s[2] == k;
    AcyclicDependenciesFirst(b, k, s);
  }

  /** The cycle `x` imports `y` imports `z` imports `x`, resolved from `x`, lists each of the three once. */
  lemma CycleList(b: Bundle, x: Key, y: Key, z: Key, s: seq<Key>)
    requires x != y && y != z && x != z
    requires x in b && y in b && z in b
    requires b[x].imports == [y] && b[y].imports == [z] && b[z].imports == [x]
    requires DependencyOrder(b, x, s)
    ensures multiset(s) == multiset{x, y, z}
  {
    assert IsPath(b, [x, y]) && IsPath(b, [x, y, z]);
    ReachesRefl(b, x);
    ListIsReachableSet(b, x, s, {x, y, z});
    forall w ensures multiset({x, y, z})[w] == multiset{x, y, z}[w] {
    }
  }

  /** A chunk reaches another chunk only through one of its imports. */
  lemma ReachesOtherNeedsImport(b: Bundle, x: Key, y: Key)
    ensures Reaches(b, x, y) && x != y ==> |b[x].imports| > 0
  {
    if Reaches(b, x, y) && x != y {
      var p :| IsPath(b, p) && p[0] == x && p[|p| - 1] == y;
      assert |p| > 1;
      assert p[1] in b[p[0]].imports;
    }
  }

  /** A list of `x`, `y` and then `k` in which `x` precedes `y` is `[x, y, k]`. */
  lemma TwoInOrder(s: seq<Key>, k: Key, x: Key, y: Key)
    requires x != y && x != k && y != k && |s| == 3 && s[2] == k
    requires (s[0] == x && s[1] == y) || (s[0] == y && s[1] == x)
    requires Precedes(s, x, y)
    ensures s == [x, y, k]
  {
    var n :| 0 <= n <= |s| && x in s[..n] && y in s[n..];
    var i :| 0 <= i < n && s[..n][i] == x;
    var j :| 0 <= j < |s| - n && s[n..][j] == y;
    assert s[i] == x && s[n + j] == y && i < n + j;
    assert i != 2 && n + j != 2;
    assert i == 0 && n + j == 1;
    assert s == [s[0], s[1], s[2]];
  }

  /**
   * An entry importing the chunks `x` then `y`, neither of which imports
   * anything, resolves to `[x, y, k]`: declaration order decides.
   */
  lemma TwoImportsList(b: Bundle, k: Key, x: Key, y: Key, s: seq<Key>)
    requires k != x && x != y && k != y
    requires k in b && x in b && y in b
    requires b[k].imports == [x, y] && b[x].imports == [] && b[y].imports == []
    requires DependencyOrder(b, k, s) && DeclarationOrder(b, k, s)
    ensures s == [x, y, k]
  {
    assert IsPath(b, [k, x]) && IsPath(b, [k, y]);
    assert x in s && y in s;
    var S := {k, x, y};
    ListWithin(b, k, s, S);
    assert Elems(s) == S;
    NoDupElems(s);
    assert |s| == 3 && s[2] == k;
    assert s[0] in S && s[1] in S && s[0] != s[1] && s[0] != k && s[1] != k;
    ReachesOtherNeedsImport(b, x, y);
    assert UnreachedImport(b, k, {}, 1);
    assert Precedes(s, x, y);
    TwoInOrder(s, k, x, y);
  }

  /** `inject to html`: two entries sharing `foo.js`. */
  method SharedImportScenario() returns (index: seq<Key>, options: seq<Key>)
    ensures index == ["foo.js", "index.js"]
    ensures options == ["foo.js", "options.js"]
  {
    var b := map["index.js" := Chunk(["foo.js"]), "options.js" := Chunk(["foo.js"]), "foo.js" := Chunk([])];
    var resolver := new ImportResolver(b);
    index := resolver.Resolve("index.js");
    options := resolver.Resolve("options.js");
    PairList(b, "index.js", "foo.js", index);
    PairList(b, "options.js", "foo.js", options);
  }

  /**
   * A diamond: `index` and `index2` both import `pref`, which imports
   * `poly`. Each list ends with its own entry and has `poly` once, before
   * `pref`.
   */
  lemma DiamondLists(b: Bundle, first: seq<Key>, second: seq<Key>)
    requires b == map["index" := Chunk(["pref"]), "index2" := Chunk(["pref"]), "pref" := Chunk(["poly"]), "poly" := Chunk([])]
    requires DependencyOrder(b, "index", first) && DependencyOrder(b, "index2", second)
    ensures first == ["poly", "pref", "index"]
    ensures second == ["poly", "pref", "index2"]
  {
    var rank := (k: Key) => if k == "index" || k == "index2" then 2 else if k == "pref" then 1 else 0;
    RankedIsAcyclic(b, rank);
    ChainList(b, "index", "pref", "poly", first);
    ChainList(b, "index2", "pref", "poly", second);
  }

  /** The diamond resolved through one resolver; asking again returns the cached list. */
  method DiamondScenario() returns (first: seq<Key>, second: seq<Key>, again: seq<Key>)
    ensures first == ["poly", "pref", "index"]
    ensures second == ["poly", "pref", "index2"]
    ensures again == first
  {
    var b := map["index" := Chunk(["pref"]), "index2" := Chunk(["pref"]), "pref" := Chunk(["poly"]), "poly" := Chunk([])];
    var resolver := new ImportResolver(b);
    first := resolver.Resolve("index");
    second := resolver.Resolve("index2");
    again := resolver.Resolve("index");
    DiamondLists(b, first, second);
  }

  /** Two imports that import nothing, resolved in their declaration order. */
  method TwoImportsScenario() returns (r: seq<Key>)
    ensures r == ["a", "b", "k"]
  {
    var g := map["k" := Chunk(["a", "b"]), "a" := Chunk([]), "b" := Chunk([])];
    var resolver := new ImportResolver(g);
    r := resolver.Resolve("k");
    TwoImportsList(g, "k", "a", "b", r);
  }

  /** A cycle `a` imports `b` imports `c` imports `a`: the walk stops and lists each chunk once. */
  method CycleScenario() returns (r: seq<Key>)
    ensures multiset(r) == multiset{"a", "b", "c"}
    ensures r[|r| - 1] == "a"
  {
    var g := map["a" := Chunk(["b"]), "b" := Chunk(["c"]), "c" := Chunk(["a"])];
    var resolver := new ImportResolver(g);
    r := resolver.Resolve("a");
    CycleList(g, "a", "b", "c", r);
  }
}
