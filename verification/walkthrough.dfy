/** The eight-statement graph of the discovery docstrings, worked through
    the `exhaustive` strategy of candidate generation by proof.

    Entities a, b, c, d, e, f are 1..6 and the relation y is 10, so the
    numeric order of the identifiers is the alphabetical order of the names. */
module Walkthrough {
  import opened Triples
  import opened Sequences
  import opened Candidates

  const Y := 10

  /** a-y-b, b-y-a, a-y-c, c-y-a, a-y-d, c-y-d, b-y-c, f-y-e */
  const G: seq<Triple> := [
    Triple(1, Y, 2), Triple(2, Y, 1), Triple(1, Y, 3), Triple(3, Y, 1),
    Triple(1, Y, 4), Triple(3, Y, 4), Triple(2, Y, 3), Triple(6, Y, 5)
  ]

  /** The subjects a, b, c, f and the objects a, b, c, d, e of G. */
  const SubjectPool: seq<int> := [1, 2, 3, 6]
  const ObjectPool: seq<int> := [1, 2, 3, 4, 5]

  /** `np.unique(X[:, 0])` is [a, b, c, f]; `np.unique(X[:, 2])` is [a, b, c, d, e]. */
  lemma PoolsOfG(x: seq<Triple>)
    requires x == G
    ensures EntityPools(x, false).0 == SubjectPool
    ensures EntityPools(x, false).1 == ObjectPool
  {
    var (es, eo) := EntityPools(x, false);
    forall e ensures e in es <==> e in [1, 2, 3, 6] {
      if e in [1, 2, 3, 6] {
        assert G[0].s == 1 && G[1].s == 2 && G[3].s == 3 && G[7].s == 6;
      }
      if IsSubject(G, e) {
        var i :| 0 <= i < |G| && G[i].s == e;
        assert i in {0, 1, 2, 3, 4, 5, 6, 7};
      }
    }
    forall e ensures e in eo <==> e in [1, 2, 3, 4, 5] {
      if e in [1, 2, 3, 4, 5] {
        assert G[1].o == 1 && G[0].o == 2 && G[2].o == 3 && G[4].o == 4 && G[7].o == 5;
      }
      if IsObject(G, e) {
        var i :| 0 <= i < |G| && G[i].o == e;
        assert i in {0, 1, 2, 3, 4, 5, 6, 7};
      }
    }
    StrictlyIncreasingUnique(es, [1, 2, 3, 6]);
    StrictlyIncreasingUnique(eo, [1, 2, 3, 4, 5]);
  }

  /** (s, y, o) is a fresh candidate of graph `x`: o is in the object pool,
      the statement is not reflexive and not already in `x`. */
  predicate Fresh(x: seq<Triple>, t: Triple, s: int) {
    t.s == s && t.p == Y && t.o in ObjectPool && t.s != t.o && t !in x
  }

  /** The k-th exhaustive batch of `x` over the pools of G, for subject
      `SubjectPool[k]`. The graph is a parameter (always G below) so that the
      batch is reasoned about through its contract rather than evaluated. */
  function Batch(x: seq<Triple>, k: nat): seq<Triple>
    requires k < |SubjectPool|
  {
    ExhaustiveBatches(x, Y, SubjectPool, ObjectPool)[k]
  }

  lemma BatchIsFresh(x: seq<Triple>, k: nat)
    requires k < |SubjectPool|
    ensures forall t :: t in Batch(x, k) <==> Fresh(x, t, SubjectPool[k])
  {
    ExhaustiveBatchContents(x, Y, SubjectPool, ObjectPool, k);
  }

  /** Subject a already links to b, c and d: only (a, y, e) is new. */
  lemma BatchOfA(x: seq<Triple>)
    requires x == G
    ensures forall t :: t in Batch(x, 0) <==> t == Triple(1, Y, 5)
  {
    BatchIsFresh(x, 0);
    assert forall t: Triple :: Fresh(x, t, 1) <==> t == Triple(1, Y, 5);
  }

  /** Subject b already links to a and c. */
  lemma BatchOfB(x: seq<Triple>)
    requires x == G
    ensures forall t :: t in Batch(x, 1) <==> t in [Triple(2, Y, 4), Triple(2, Y, 5)]
  {
    BatchIsFresh(x, 1);
    assert forall t: Triple :: Fresh(x, t, 2) <==> t in [Triple(2, Y, 4), Triple(2, Y, 5)];
  }

  /** Subject c already links to a and d. */
  lemma BatchOfC(x: seq<Triple>)
    requires x == G
    ensures forall t :: t in Batch(x, 2) <==> t in [Triple(3, Y, 2), Triple(3, Y, 5)]
  {
    BatchIsFresh(x, 2);
    assert forall t: Triple :: Fresh(x, t, 3) <==> t in [Triple(3, Y, 2), Triple(3, Y, 5)];
  }

  /** Subject f only links to e, so every other object is a candidate. */
  lemma BatchOfF(x: seq<Triple>)
    requires x == G
    ensures forall t :: t in Batch(x, 3) <==>
              t in [Triple(6, Y, 1), Triple(6, Y, 2), Triple(6, Y, 3), Triple(6, Y, 4)]
  {
    BatchIsFresh(x, 3);
    assert forall t: Triple :: Fresh(x, t, 6) <==>
             t in [Triple(6, Y, 1), Triple(6, Y, 2), Triple(6, Y, 3), Triple(6, Y, 4)];
  }

  /** Exhaustive generation on the docstring graph succeeds, reports the
      relation y as seen, and yields four batches, one per subject a, b, c, f
      in that order: `Batch(G, 0)` to `Batch(G, 3)`, whose contents the four
      lemmas above list. */
  lemma ExhaustiveOnDocstringGraph(x: seq<Triple>, mc: MaxCandidates, seed: int, rng: Rng, metric: MetricFn)
    requires x == G
    requires ValidRng(rng)
    requires ResolveCap(mc, |x|).Ok?
    ensures Generate(x, "exhaustive", Y, mc, false, seed, rng, metric).Ok?
    ensures Generate(x, "exhaustive", Y, mc, false, seed, rng, metric).value
              == Generation(ExhaustiveBatches(x, Y, SubjectPool, ObjectPool), false)
    ensures |ExhaustiveBatches(x, Y, SubjectPool, ObjectPool)| == 4
  {
    PoolsOfG(x);
    assert RelationOccurs(x, Y) by {
      assert x[0].p == Y;
    }
  }
}
