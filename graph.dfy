/**
 * The chunk graph a bundling pass hands to the write phase: every chunk key
 * maps to a record whose only part that matters here is its ordered list of
 * direct imports. Reachability, cycles and the sequence helpers the resolver
 * is specified with are defined here.
 */
module Graph {
  type Key = string

  /** An output chunk; `imports` is in declaration order. */
  datatype Chunk = Chunk(imports: seq<Key>)

  type Bundle = map<Key, Chunk>

  /** Every import of every chunk is itself a chunk of the bundle. */
  ghost predicate Closed(b: Bundle) {
    forall k, j :: k in b && j in b[k].imports ==> j in b
  }

  ghost function Elems(s: seq<Key>): set<Key> {
    set x | x in s
  }

  ghost predicate NoDup(s: seq<Key>) {
    forall i, j :: 0 <= i < j < |s| ==> s[i] != s[j]
  }

  /** A non-empty walk along import edges. */
  ghost predicate IsPath(b: Bundle, p: seq<Key>) {
    && |p| > 0
    && (forall i :: 0 <= i < |p| ==> p[i] in b)
    && (forall i :: 0 <= i < |p| - 1 ==> p[i + 1] in b[p[i]].imports)
  }

  /** `y` is `x` or a direct or transitive import of `x`. */
  ghost predicate Reaches(b: Bundle, x: Key, y: Key) {
    exists p :: IsPath(b, p) && p[0] == x && p[|p| - 1] == y
  }

  /** No walk of one edge or more returns to where it started. */
  ghost predicate Acyclic(b: Bundle) {
    forall p :: IsPath(b, p) && |p| > 1 ==> p[0] != p[|p| - 1]
  }

  /** `S` holds every import of each of its chunks. */
  ghost predicate ClosedUnder(b: Bundle, S: set<Key>) {
    forall u :: u in S ==> u in b && forall v :: v in b[u].imports ==> v in S
  }

  lemma ReachesRefl(b: Bundle, x: Key)
    requires x in b
    ensures Reaches(b, x, x)
  {
    assert IsPath(b, [x]);
  }

  /** An import edge followed by a walk is a walk. */
  lemma PrependImport(b: Bundle, x: Key, p: seq<Key>)
    requires x in b && IsPath(b, p) && p[0] in b[x].imports
    ensures IsPath(b, [x] + p)
  {
    var q := [x] + p;
    forall i | 0 <= i < |q| - 1
      ensures q[i + 1] in b[q[i]].imports
    {
      if i > 0 {
        assert q[i] == p[i - 1] && q[i + 1] == p[i];
      }
    }
  }

  /** A chunk reaches whatever its direct imports reach. */
  lemma ReachesThroughImport(b: Bundle, x: Key, y: Key, z: Key)
    requires x in b && y in b[x].imports && Reaches(b, y, z)
    ensures Reaches(b, x, z)
  {
    var p :| IsPath(b, p) && p[0] == y && p[|p| - 1] == z;
    PrependImport(b, x, p);
    assert ([x] + p)[0] == x && ([x] + p)[|p|] == z;
  }

  /** A set that contains `x` and every import of its members contains all that `x` reaches. */
  lemma {:induction false} ClosedContainsReached(b: Bundle, S: set<Key>, x: Key, y: Key)
    requires x in S && ClosedUnder(b, S) && Reaches(b, x, y)
    ensures y in S
  {
    var p :| IsPath(b, p) && p[0] == x && p[|p| - 1] == y;
    var i := 0;
    while i < |p| - 1
      invariant 0 <= i < |p|
      invariant p[i] in S
    {
      i := i + 1;
    }
  }

  /** In an acyclic graph no import leads back to the chunk that imports it, itself included. */
  lemma NoCycleThroughImport(b: Bundle, x: Key, y: Key)
    requires Acyclic(b) && x in b && y in b[x].imports
    ensures x != y && !Reaches(b, y, x)
  {
    if y in b {
      assert IsPath(b, [x, y]);
      forall p | IsPath(b, p) && p[0] == y
        ensures p[|p| - 1] != x
      {
        PrependImport(b, x, p);
      }
    }
  }

  lemma {:induction false} RankFallsAlongPath(b: Bundle, rank: Key -> nat, p: seq<Key>, i: nat)
    requires forall x, y :: x in b && y in b[x].imports ==> rank(y) < rank(x)
    requires IsPath(b, p) && 0 < i < |p|
    ensures rank(p[i]) < rank(p[0])
  {
    assert rank(p[i]) < rank(p[i - 1]);
    if i > 1 {
      RankFallsAlongPath(b, rank, p, i - 1);
    }
  }

  /** A graph whose every import edge strictly lowers some rank has no cycle. */
  lemma RankedIsAcyclic(b: Bundle, rank: Key -> nat)
    requires forall x, y :: x in b && y in b[x].imports ==> rank(y) < rank(x)
    ensures Acyclic(b)
  {
    forall p | IsPath(b, p) && |p| > 1
      ensures p[0] != p[|p| - 1]
    {
      RankFallsAlongPath(b, rank, p, |p| - 1);
    }
  }

  lemma {:induction false} NoDupCount(s: seq<Key>, d: Key)
    requires NoDup(s)
    ensures multiset(s)[d] == if d in s then 1 else 0
  {
    if s != [] {
      assert s == [s[0]] + s[1..];
      NoDupCount(s[1..], d);
      assert s[0] !in s[1..];
    }
  }

  /** A list without repeats has as many elements as distinct members. */
  lemma {:induction false} NoDupElems(s: seq<Key>)
    requires NoDup(s)
    ensures |Elems(s)| == |s|
  {
    if s != [] {
      var t := s[1..];
      assert NoDup(t) by {
        forall i, j | 0 <= i < j < |t| ensures t[i] != t[j] {
          assert t[i] == s[i + 1] && t[j] == s[j + 1];
        }
      }
      NoDupElems(t);
      assert s == [s[0]] + t;
      assert Elems(s) == Elems(t) + {s[0]};
      assert s[0] !in Elems(t);
    }
  }
}
