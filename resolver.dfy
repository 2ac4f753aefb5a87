/**
 * The dependency-ordered import resolver: a memoised depth-first post-order
 * walk over the chunk graph. One `ImportResolver` lives for one write event;
 * its `cache` maps an entry chunk to the list computed by its first query.
 */
module Resolver {
  import opened Graph

  /** Every import of a chunk listed in `s` is in `colored`. */
  ghost predicate ImportsIn(b: Bundle, s: seq<Key>, colored: set<Key>) {
    forall x :: x in s ==> x in b && forall y :: y in b[x].imports ==> y in colored
  }

  /**
   * An import listed after the chunk that imports it closes a cycle: the
   * import reaches its importer back. On an acyclic graph this rules out
   * every such import (see `AcyclicDependenciesFirst`).
   */
  ghost predicate OrderedUpToCycles(b: Bundle, s: seq<Key>) {
    forall i, j :: 0 <= i < j < |s| && s[i] in b && s[j] in b[s[i]].imports ==> Reaches(b, s[j], s[i])
  }

  /**
   * What a resolved list for `key` is: `key` last, no chunk twice, exactly
   * the chunks `key` reaches, every import of a listed chunk listed, and
   * imports ahead of their importers except where an import closes a cycle.
   */
  ghost predicate DependencyOrder(b: Bundle, key: Key, s: seq<Key>) {
    && |s| > 0 && s[|s| - 1] == key
    && NoDup(s)
    && (forall x :: x in s <==> Reaches(b, key, x))
    && ImportsIn(b, s, Elems(s))
    && OrderedUpToCycles(b, s)
  }

  /** Every import edge between two listed chunks points backwards. */
  ghost predicate DependenciesFirst(b: Bundle, s: seq<Key>) {
    forall i, j :: 0 <= i < |s| && 0 <= j < |s| && s[i] in b && s[j] in b[s[i]].imports ==> j < i
  }

  /** `x` occurs in `s` ahead of `y`: some cut of `s` has `x` on its left and `y` on its right. */
  ghost predicate Precedes(s: seq<Key>, x: Key, y: Key) {
    exists n :: 0 <= n <= |s| && x in s[..n] && y in s[n..]
  }

  /** No import of `key` declared before position `q` reaches the import declared at `q`. */
  ghost predicate FirstReachedAt(b: Bundle, key: Key, q: nat)
    requires key in b && q < |b[key].imports|
  {
    forall j :: 0 <= j < q ==> !Reaches(b, b[key].imports[j], b[key].imports[q])
  }

  /**
   * The import declared at `q` is new to a walk of `key` that started with
   * colour set `colored`: it is not the key, it was not coloured, and no
   * earlier import reaches it.
   */
  ghost predicate UnreachedImport(b: Bundle, key: Key, colored: set<Key>, q: nat)
    requires key in b && q < |b[key].imports|
  {
    b[key].imports[q] != key && b[key].imports[q] !in colored && FirstReachedAt(b, key, q)
  }

  /**
   * Searching the first `i` imports of `key` (the walk started with colour
   * set `colored` and output `out`) emitted them in declaration order: an
   * import new to the walk comes in `s` after every earlier import except
   * the key and the chunks whose search was already in progress.
   */
  ghost predicate ImportsInOrder(b: Bundle, key: Key, colored: set<Key>, out: seq<Key>, s: seq<Key>, i: nat)
    requires key in b && i <= |b[key].imports|
  {
    forall p, q :: 0 <= p < q < i && b[key].imports[p] != key && b[key].imports[p] !in colored - Elems(out)
      && UnreachedImport(b, key, colored, q)
      ==> Precedes(s, b[key].imports[p], b[key].imports[q])
  }

  /**
   * A resolved list for `key` follows the declaration order of `key`'s
   * imports: an import no earlier import reaches comes after every earlier
   * import other than `key` itself.
   */
  ghost predicate DeclarationOrder(b: Bundle, key: Key, s: seq<Key>) {
    key in b ==>
      forall p, q :: 0 <= p < q < |b[key].imports| && b[key].imports[p] != key && UnreachedImport(b, key, {}, q)
        ==> Precedes(s, b[key].imports[p], b[key].imports[q])
  }

  /** The elements of a cached sub-list that are not yet coloured, in order. */
  function Uncolored(s: seq<Key>, colored: set<Key>): (r: seq<Key>)
    ensures forall x :: x in r <==> x in s && x !in colored
    ensures NoDup(s) ==> NoDup(r)
  {
    if |s| == 0 then []
    else if s[0] in colored then Uncolored(s[1..], colored)
    else [s[0]] + Uncolored(s[1..], colored)
  }

  lemma OrderedTail(b: Bundle, s: seq<Key>)
    requires |s| > 0 && OrderedUpToCycles(b, s)
    ensures OrderedUpToCycles(b, s[1..])
  {
    var t := s[1..];
    forall i, j | 0 <= i < j < |t| && t[i] in b && t[j] in b[t[i]].imports
      ensures Reaches(b, t[j], t[i])
    {
      assert t[i] == s[i + 1] && t[j] == s[j + 1];
    }
  }

  /** Putting the head of `s` back in front of an ordered list drawn from its tail keeps the order. */
  lemma OrderedCons(b: Bundle, s: seq<Key>, u: seq<Key>)
    requires |s| > 0 && OrderedUpToCycles(b, s) && OrderedUpToCycles(b, u)
    requires forall x :: x in u ==> x in s[1..]
    ensures OrderedUpToCycles(b, [s[0]] + u)
  {
    var r := [s[0]] + u;
    forall i, j | 0 <= i < j < |r| && r[i] in b && r[j] in b[r[i]].imports
      ensures Reaches(b, r[j], r[i])
    {
      if i == 0 {
        assert r[j] in s[1..];
        var k :| 0 <= k < |s[1..]| && s[1..][k] == r[j];
        assert s[k + 1] == r[j];
      } else {
        assert r[i] == u[i - 1] && r[j] == u[j - 1];
      }
    }
  }

  /** Dropping coloured chunks from a list creates no forward import that does not close a cycle. */
  lemma {:induction false} UncoloredOrdered(b: Bundle, s: seq<Key>, colored: set<Key>)
    requires OrderedUpToCycles(b, s)
    ensures OrderedUpToCycles(b, Uncolored(s, colored))
  {
    if |s| > 0 {
      OrderedTail(b, s);
      UncoloredOrdered(b, s[1..], colored);
      if s[0] !in colored {
        OrderedCons(b, s, Uncolored(s[1..], colored));
      }
    }
  }

  lemma PrecedesInTail(s: seq<Key>, x: Key, y: Key)
    requires |s| > 0 && Precedes(s[1..], x, y)
    ensures Precedes(s, x, y)
  {
    var n :| 0 <= n <= |s[1..]| && x in s[1..][..n] && y in s[1..][n..];
    var k :| 0 <= k < n && s[1..][k] == x;
    assert s[k + 1] == x && x in s[..n + 1];
    assert s[n + 1..] == s[1..][n..];
  }

  /** Any two chunks of `r` occur in `s` in the same relative order. */
  ghost predicate KeepsOrder(s: seq<Key>, r: seq<Key>) {
    forall i, j :: 0 <= i < j < |r| ==> Precedes(s, r[i], r[j])
  }

  /** Dropping coloured chunks keeps the relative order of the chunks that remain. */
  lemma {:induction false} UncoloredKeepsOrder(s: seq<Key>, colored: set<Key>)
    ensures KeepsOrder(s, Uncolored(s, colored))
  {
    if |s| > 0 {
      UncoloredKeepsOrder(s[1..], colored);
      var u := Uncolored(s[1..], colored);
      assert KeepsOrder(s[1..], u);
      var r := Uncolored(s, colored);
      if s[0] in colored {
        assert r == u;
        forall i, j | 0 <= i < j < |r| ensures Precedes(s, r[i], r[j]) {
          PrecedesInTail(s, u[i], u[j]);
        }
      } else {
        assert r == [s[0]] + u;
        forall i, j | 0 <= i < j < |r| ensures Precedes(s, r[i], r[j]) {
          if i == 0 {
            assert r[j] == u[j - 1] && r[j] in s[1..];
            assert r[i] in s[..1];
          } else {
            assert Precedes(s[1..], u[i - 1], u[j - 1]);
            PrecedesInTail(s, u[i - 1], u[j - 1]);
          }
        }
      }
    }
  }

  /**
   * Appending chunks none of which is coloured after a prefix whose imports
   * are all coloured creates no new forward import.
   */
  lemma AppendOrdered(b: Bundle, s: seq<Key>, t: seq<Key>, colored: set<Key>)
    requires OrderedUpToCycles(b, s) && OrderedUpToCycles(b, t)
    requires ImportsIn(b, s, colored)
    requires forall x :: x in t ==> x !in colored
    ensures OrderedUpToCycles(b, s + t)
  {
    var r := s + t;
    forall i, j | 0 <= i < j < |r| && r[i] in b && r[j] in b[r[i]].imports
      ensures Reaches(b, r[j], r[i])
    {
      if j < |s| {
        assert r[i] == s[i] && r[j] == s[j];
      } else if i < |s| {
        assert false;
      } else {
        assert r[i] == t[i - |s|] && r[j] == t[j - |s|];
      }
    }
  }

  /** On an acyclic graph a resolved list puts every import before its importer. */
  lemma AcyclicDependenciesFirst(b: Bundle, key: Key, s: seq<Key>)
    requires Acyclic(b) && DependencyOrder(b, key, s)
    ensures DependenciesFirst(b, s)
  {
    forall i, j | 0 <= i < |s| && 0 <= j < |s| && s[i] in b && s[j] in b[s[i]].imports
      ensures j < i
    {
      NoCycleThroughImport(b, s[i], s[j]);
    }
  }

  /** Each chunk `key` reaches occurs exactly once in its resolved list, and no other chunk occurs. */
  lemma ExactlyOnce(b: Bundle, key: Key, s: seq<Key>, d: Key)
    requires DependencyOrder(b, key, s)
    ensures multiset(s)[d] == if Reaches(b, key, d) then 1 else 0
  {
    NoDupCount(s, d);
  }

  /** A dependency other than the entry itself comes before the entry. */
  lemma DependencyBeforeEntry(b: Bundle, key: Key, s: seq<Key>, d: Key)
    requires DependencyOrder(b, key, s) && Reaches(b, key, d) && d != key
    ensures exists i :: 0 <= i < |s| - 1 && s[i] == d
  {
    assert d in s;
    var i :| 0 <= i < |s| && s[i] == d;
    assert i != |s| - 1;
  }

  /** What the search of one import emits is reachable from the importer too. */
  lemma ImportSearched(b: Bundle, key: Key, imp: Key, out: seq<Key>, before: seq<Key>, after: seq<Key>)
    requires key in b && imp in b[key].imports
    requires |out| <= |before| <= |after| && after[..|before|] == before
    requires forall x :: x in before[|out|..] ==> Reaches(b, key, x)
    requires forall x :: x in after[|before|..] ==> Reaches(b, imp, x)
    ensures forall x :: x in after[|out|..] ==> Reaches(b, key, x)
  {
    forall x | x in after[|out|..] ensures Reaches(b, key, x) {
      var k :| |out| <= k < |after| && after[k] == x;
      if k < |before| {
        assert x == before[k] && x in before[|out|..];
      } else {
        assert x == after[|before|..][k - |before|];
        ReachesThroughImport(b, key, imp, x);
      }
    }
  }

  lemma ElemsOfLongerPrefix(s: seq<Key>, i: nat)
    requires i < |s|
    ensures Elems(s[..i + 1]) == Elems(s[..i]) + {s[i]}
  {
    assert s[..i + 1] == s[..i] + [s[i]];
  }

  /**
   * A state of one query's walk between two searches: `out` (what has been
   * emitted) holds no chunk twice, everything emitted is coloured, only
   * chunks are coloured, every import of an emitted chunk is coloured, and
   * an import emitted after its importer closes a cycle.
   */
  ghost predicate WalkState(b: Bundle, colored: set<Key>, out: seq<Key>) {
    && NoDup(out) && Elems(out) <= colored <= b.Keys
    && ImportsIn(b, out, colored)
    && OrderedUpToCycles(b, out)
  }

  /**
   * What a search for `key` keeps and adds between the walk state
   * `(colored, out)` and `(colored', out')`: the result is a walk state
   * again, colours only grow and include `key`, output only grows at its
   * end, the chunks in progress (coloured but not yet emitted) are the same,
   * and everything newly emitted or newly coloured is reachable from `key`.
   */
  ghost predicate Walked(b: Bundle, key: Key, colored: set<Key>, out: seq<Key>, colored': set<Key>, out': seq<Key>) {
    && WalkState(b, colored', out')
    && colored <= colored' && key in colored'
    && |out| <= |out'| && out'[..|out|] == out
    && colored' - Elems(out') == colored - Elems(out)
    && (forall x :: x in out'[|out|..] ==> Reaches(b, key, x))
    && (forall x :: x in colored' && x !in colored ==> Reaches(b, key, x))
  }

  /**
   * The cached branch of `search`: emitting the uncoloured part of a cached
   * list and colouring the whole list is a search for its key.
   */
  lemma CachedListAppended(b: Bundle, key: Key, subKeys: seq<Key>, colored: set<Key>, out: seq<Key>)
    requires DependencyOrder(b, key, subKeys)
    requires WalkState(b, colored, out)
    ensures Walked(b, key, colored, out, colored + Elems(subKeys), out + Uncolored(subKeys, colored))
  {
    var emitted := Uncolored(subKeys, colored);
    var out', colored' := out + emitted, colored + Elems(subKeys);
    assert Elems(subKeys) <= b.Keys by {
      forall x | x in subKeys ensures x in b {
        assert x in subKeys && ImportsIn(b, subKeys, Elems(subKeys));
      }
    }
    assert key in colored' by {
      assert subKeys[|subKeys| - 1] in subKeys;
    }
    assert out'[..|out|] == out && out'[|out|..] == emitted;
    assert NoDup(out') by {
      forall i, j | 0 <= i < j < |out'| ensures out'[i] != out'[j] {
        if j >= |out| && i < |out| {
          assert out'[i] in out && out'[j] in emitted;
        } else if j >= |out| {
          assert out'[i] == emitted[i - |out|] && out'[j] == emitted[j - |out|];
        } else {
          assert out'[i] == out[i] && out'[j] == out[j];
        }
      }
    }
    assert Elems(emitted) == Elems(subKeys) - colored;
    assert Elems(out') == Elems(out) + Elems(emitted);
    assert ImportsIn(b, out', colored') by {
      forall x | x in out' ensures x in b && forall y :: y in b[x].imports ==> y in colored' {
        if x !in out {
          assert x in emitted && x in subKeys;
        }
      }
    }
    UncoloredOrdered(b, subKeys, colored);
    AppendOrdered(b, out, emitted, colored);
  }

  /**
   * The end of `search` for an uncached, uncoloured `key`: once every import
   * has been searched, yielding `key` itself completes a search for `key`.
   */
  lemma ChunkAppended(b: Bundle, key: Key, colored: set<Key>, out: seq<Key>, colored': set<Key>, out': seq<Key>)
    requires key in b && key !in colored
    requires WalkState(b, colored, out)
    requires Walked(b, key, colored + {key}, out, colored', out')
    requires forall y :: y in b[key].imports ==> y in colored'
    ensures Walked(b, key, colored, out, colored', out' + [key])
  {
    assert key in colored' - Elems(out') by {
      assert key in (colored + {key}) - Elems(out);
    }
    assert key !in out';
    var r := out' + [key];
    forall i, j | 0 <= i < j < |r| && r[i] in b && r[j] in b[r[i]].imports
      ensures Reaches(b, r[j], r[i])
    {
      if j < |out'| {
        assert r[i] == out'[i] && r[j] == out'[j];
      } else if i < |out| {
        assert false;
      } else {
        assert r[i] == out'[i] && out'[i] in out'[|out|..];
      }
    }
    assert NoDup(r) by {
      forall i, j | 0 <= i < j < |r| ensures r[i] != r[j] {
        if j < |out'| {
          assert r[i] == out'[i] && r[j] == out'[j];
        } else {
          assert r[i] in out';
        }
      }
    }
    assert Elems(r) == Elems(out') + {key};
    calc {
      colored' - Elems(r);
      (colored' - Elems(out')) - {key};
      ((colored + {key}) - Elems(out)) - {key};
      colored - Elems(out);
    }
    ReachesRefl(b, key);
    assert r[..|out|] == out;
    assert r[|out|..] == out'[|out|..] + [key];
  }

  /** The search of the import at `i` completes, as part of the walk of `key`, a step of the loop over the imports. */
  lemma ImportVisited(b: Bundle, key: Key, colored: set<Key>, out: seq<Key>, i: nat,
                      colMid: set<Key>, outMid: seq<Key>, colNew: set<Key>, outNew: seq<Key>)
    requires key in b && i < |b[key].imports|
    requires Walked(b, key, colored + {key}, out, colMid, outMid)
    requires Elems(b[key].imports[..i]) <= colMid
    requires ImportLoopOrder(b, key, colored, out, colMid, outMid, i)
    requires Walked(b, b[key].imports[i], colMid, outMid, colNew, outNew)
    ensures Walked(b, key, colored + {key}, out, colNew, outNew)
    ensures Elems(b[key].imports[..i + 1]) <= colNew
    ensures ImportLoopOrder(b, key, colored, out, colNew, outNew, i + 1)
  {
    var imp := b[key].imports[i];
    ImportSearched(b, key, imp, out, outMid, outNew);
    assert outNew[..|out|] == out by {
      assert outNew[..|out|] == outNew[..|outMid|][..|out|];
    }
    forall x | x in colNew && x !in colored + {key} ensures Reaches(b, key, x) {
      if x !in colMid {
        ReachesThroughImport(b, key, imp, x);
      }
    }
    ElemsOfLongerPrefix(b[key].imports, i);
    ImportLoopStep(b, key, colored, out, i, colMid, outMid, colNew, outNew);
  }

  lemma PrecedesInLonger(s: seq<Key>, s': seq<Key>, x: Key, y: Key)
    requires Precedes(s, x, y)
    requires |s| <= |s'| && s'[..|s|] == s
    ensures Precedes(s', x, y)
  {
    var n :| 0 <= n <= |s| && x in s[..n] && y in s[n..];
    var k :| n <= k < |s| && s[k] == y;
    assert s'[..n] == s[..n];
    assert s'[k] == y;
    assert y == s'[n..][k - n];
  }

  lemma InOrderInLonger(b: Bundle, key: Key, colored: set<Key>, out: seq<Key>, s: seq<Key>, s': seq<Key>, i: nat)
    requires key in b && i <= |b[key].imports|
    requires ImportsInOrder(b, key, colored, out, s, i)
    requires |s| <= |s'| && s'[..|s|] == s
    ensures ImportsInOrder(b, key, colored, out, s', i)
  {
    var imports := b[key].imports;
    forall p, q | 0 <= p < q < i && imports[p] != key && imports[p] !in colored - Elems(out)
      && UnreachedImport(b, key, colored, q)
      ensures Precedes(s', imports[p], imports[q])
    {
      PrecedesInLonger(s, s', imports[p], imports[q]);
    }
  }

  /** The search of the import at `i` colours no later import that is new to the walk. */
  lemma LaterImportsUncolored(b: Bundle, key: Key, colored: set<Key>, i: nat, colMid: set<Key>, colNew: set<Key>)
    requires key in b && i < |b[key].imports|
    requires forall q :: i <= q < |b[key].imports| && UnreachedImport(b, key, colored, q) ==> b[key].imports[q] !in colMid
    requires forall x :: x in colNew && x !in colMid ==> Reaches(b, b[key].imports[i], x)
    ensures forall q :: i + 1 <= q < |b[key].imports| && UnreachedImport(b, key, colored, q) ==> b[key].imports[q] !in colNew
  {
    forall q | i + 1 <= q < |b[key].imports| && UnreachedImport(b, key, colored, q)
      ensures b[key].imports[q] !in colNew
    {
      assert !Reaches(b, b[key].imports[i], b[key].imports[q]);
    }
  }

  /**
   * After the search of the import at `i`, that import, when new to the
   * walk, is emitted after every earlier import that is not in progress.
   */
  lemma ImportEmittedInOrder(b: Bundle, key: Key, colored: set<Key>, out: seq<Key>, i: nat,
                             colMid: set<Key>, outMid: seq<Key>, colNew: set<Key>, outNew: seq<Key>)
    requires key in b && i < |b[key].imports|
    requires Elems(b[key].imports[..i]) <= colMid && Elems(outMid) <= colMid
    requires colMid - Elems(outMid) == (colored + {key}) - Elems(out)
    requires UnreachedImport(b, key, colored, i) ==> b[key].imports[i] !in colMid
    requires ImportsInOrder(b, key, colored, out, outMid, i)
    requires |outMid| <= |outNew| && outNew[..|outMid|] == outMid
    requires b[key].imports[i] in colNew
    requires colNew - Elems(outNew) == colMid - Elems(outMid)
    ensures ImportsInOrder(b, key, colored, out, outNew, i + 1)
  {
    var imports := b[key].imports;
    forall p, q | 0 <= p < q < i + 1 && imports[p] != key && imports[p] !in colored - Elems(out)
      && UnreachedImport(b, key, colored, q)
      ensures Precedes(outNew, imports[p], imports[q])
    {
      if q < i {
        PrecedesInLonger(outMid, outNew, imports[p], imports[q]);
      } else {
        assert imports[p] in Elems(imports[..i]);
        assert imports[p] !in (colored + {key}) - Elems(out);
        assert imports[p] in Elems(outMid);
        assert imports[q] !in Elems(outMid);
        assert imports[q] !in colNew - Elems(outNew);
        assert imports[q] in Elems(outNew);
        assert outNew == outMid + outNew[|outMid|..];
        assert imports[q] in outNew[|outMid|..];
        assert imports[p] in outNew[..|outMid|];
      }
    }
  }

  /**
   * The order-related invariant of the loop over `key`'s imports after `i`
   * of them: no later import new to the walk is coloured yet, and those
   * searched so far were emitted in declaration order.
   */
  ghost predicate ImportLoopOrder(b: Bundle, key: Key, colored: set<Key>, out: seq<Key>,
                                  colored': set<Key>, out': seq<Key>, i: nat)
    requires key in b && i <= |b[key].imports|
  {
    && (forall q :: i <= q < |b[key].imports| && UnreachedImport(b, key, colored, q) ==> b[key].imports[q] !in colored')
    && ImportsInOrder(b, key, colored, out, out', i)
  }

  /** One iteration of the loop over `key`'s imports keeps `ImportLoopOrder`. */
  lemma ImportLoopStep(b: Bundle, key: Key, colored: set<Key>, out: seq<Key>, i: nat,
                       colMid: set<Key>, outMid: seq<Key>, colNew: set<Key>, outNew: seq<Key>)
    requires key in b && i < |b[key].imports|
    requires ImportLoopOrder(b, key, colored, out, colMid, outMid, i)
    requires Elems(b[key].imports[..i]) <= colMid && Elems(outMid) <= colMid
    requires colMid - Elems(outMid) == (colored + {key}) - Elems(out)
    requires |outMid| <= |outNew| && outNew[..|outMid|] == outMid
    requires b[key].imports[i] in colNew
    requires colNew - Elems(outNew) == colMid - Elems(outMid)
    requires forall x :: x in colNew && x !in colMid ==> Reaches(b, b[key].imports[i], x)
    ensures ImportLoopOrder(b, key, colored, out, colNew, outNew, i + 1)
  {
    LaterImportsUncolored(b, key, colored, i, colMid, colNew);
    ImportEmittedInOrder(b, key, colored, out, i, colMid, outMid, colNew, outNew);
  }

  class ImportResolver {
    const bundle: Bundle
    var cache: map<Key, seq<Key>>

    ghost predicate Valid()
      reads this
    {
      && Closed(bundle)
      && forall k :: k in cache ==> DependencyOrder(bundle, k, cache[k]) && DeclarationOrder(bundle, k, cache[k])
    }

    /** `createImportResolver(bundle)`: an empty cache over a fixed graph. */
    constructor (bundle: Bundle)
      requires Closed(bundle)
      ensures Valid() && this.bundle == bundle && cache == map[]
    {
      this.bundle := bundle;
      cache := map[];
    }

    /**
     * The cached branch of `search`: yields the chunks of the cached list that
     * are not coloured, in list order, then colours the whole list.
     */
    method EmitCached(key: Key, colored: set<Key>, out: seq<Key>) returns (colored': set<Key>, out': seq<Key>)
      requires key in cache
      ensures out' == out + Uncolored(cache[key], colored)
      ensures colored' == colored + Elems(cache[key])
    {
      var subKeys := cache[key];
      out' := out + Uncolored(subKeys, colored);
      colored' := colored;
      for i := 0 to |subKeys|
        invariant colored' == colored + Elems(subKeys[..i])
      {
        ElemsOfLongerPrefix(subKeys, i);
        colored' := colored' + {subKeys[i]};
      }
      assert subKeys[..|subKeys|] == subKeys;
    }

    /**
     * The inner `search(key, colored)`: `out` is everything emitted so far in
     * this query and the result extends it. Chunks in `colored` but not in
     * `out` are the ones whose search is still in progress; that set is the
     * same before and after.
     */
    method Search(key: Key, colored: set<Key>, out: seq<Key>) returns (colored': set<Key>, out': seq<Key>)
      requires Valid() && key in bundle
      requires WalkState(bundle, colored, out)
      ensures Walked(bundle, key, colored, out, colored', out')
      ensures key in cache ==> out' == out + Uncolored(cache[key], colored) && colored' == colored + Elems(cache[key])
      ensures key !in cache && key in colored ==> out' == out && colored' == colored
      ensures key !in cache && key !in colored ==> |out'| > |out| && out'[|out'| - 1] == key
      ensures key !in cache && key !in colored ==> ImportsInOrder(bundle, key, colored, out, out', |bundle[key].imports|)
      decreases bundle.Keys - colored, 1
    {
      if key in cache {
        colored', out' := EmitCached(key, colored, out);
        CachedListAppended(bundle, key, cache[key], colored, out);
      } else if key in colored {
        colored', out' := colored, out;
        assert out[..|out|] == out && out[|out|..] == [];
      } else {
        colored', out' := Visit(key, colored, out);
      }
    }

    /**
     * The last branch of `search`, for a key neither cached nor coloured:
     * colours it, searches its imports in declaration order, then yields it.
     */
    method Visit(key: Key, colored: set<Key>, out: seq<Key>) returns (colored': set<Key>, out': seq<Key>)
      requires Valid() && key in bundle && key !in cache && key !in colored
      requires WalkState(bundle, colored, out)
      ensures Walked(bundle, key, colored, out, colored', out')
      ensures |out'| > |out| && out'[|out'| - 1] == key
      ensures ImportsInOrder(bundle, key, colored, out, out', |bundle[key].imports|)
      decreases bundle.Keys - colored, 0
    {
      colored' := colored + {key};
      out' := out;
      assert out[..|out|] == out && out[|out|..] == [];
      ReachesRefl(bundle, key);
      var imports := bundle[key].imports;
      for i := 0 to |imports|
        invariant Walked(bundle, key, colored + {key}, out, colored', out')
        invariant Elems(imports[..i]) <= colored'
        invariant ImportLoopOrder(bundle, key, colored, out, colored', out', i)
      {
        ghost var colMid, before := colored', out';
        colored', out' := Search(imports[i], colored', out');
        ImportVisited(bundle, key, colored, out, i, colMid, before, colored', out');
      }
      assert imports[..|imports|] == imports;
      ChunkAppended(bundle, key, colored, out, colored', out');
      InOrderInLonger(bundle, key, colored, out, out', out' + [key], |imports|);
      out' := out' + [key];
    }

    /**
     * The function `createImportResolver` returns: computes and caches the
     * list on the first query for `key`, returns the cached list afterwards.
     */
    method Resolve(key: Key) returns (r: seq<Key>)
      requires Valid() && key in bundle
      modifies this
      ensures Valid()
      ensures key in old(cache) ==> cache == old(cache) && r == old(cache)[key]
      ensures key !in old(cache) ==> cache == old(cache)[key := r]
      ensures DependencyOrder(bundle, key, r)
      ensures DeclarationOrder(bundle, key, r)
    {
      if key !in cache {
        assert Elems([]) == {};
        var colored, out := Search(key, {}, []);
        forall x | x in colored ensures x in Elems(out) {
          assert x !in colored - Elems(out);
        }
        assert colored == Elems(out);
        forall x | Reaches(bundle, key, x) ensures x in out {
          ClosedContainsReached(bundle, colored, key, x);
        }
        assert out[0..] == out;
        assert ImportsInOrder(bundle, key, {}, [], out, |bundle[key].imports|);
        cache := cache[key := out];
      }
      r := cache[key];
    }
  }
}
