/** `generate_candidates`: strategy dispatch, validation of `max_candidates`,
    the subject and object pools, the shared post-filter, and the seven
    strategies. The lazy generator is modelled as the finite list of batches
    it yields, or the error its first pull raises. */
module Candidates {
  import opened Triples
  import opened Sequences
  import opened SetDiff

  // ---------------------------------------------------------------------------
  // Strategies

  /** The per-entity structural scores of the graph-metric strategies. */
  datatype Metric = Degree | ClusteringCoefficient | Triangles | SquareClustering

  datatype Strategy = Exhaustive | RandomUniform | EntityFrequency | GraphMetric(metric: Metric)

  function StrategyName(s: Strategy): string {
    match s
    case Exhaustive => "exhaustive"
    case RandomUniform => "random_uniform"
    case EntityFrequency => "entity_frequency"
    case GraphMetric(Degree) => "graph_degree"
    case GraphMetric(ClusteringCoefficient) => "cluster_coefficient"
    case GraphMetric(Triangles) => "cluster_triangles"
    case GraphMetric(SquareClustering) => "cluster_squares"
  }

  /** The strategy names `generate_candidates` accepts. */
  const GenerationStrategies: seq<string> :=
    ["random_uniform", "exhaustive", "entity_frequency", "graph_degree",
     "cluster_coefficient", "cluster_triangles", "cluster_squares"]

  /** The string dispatch of `generate_candidates`: an unknown name is an error. */
  function ParseStrategy(name: string): (r: Result<Strategy>)
    ensures r.Ok? <==> name in GenerationStrategies
    ensures r.Ok? ==> StrategyName(r.value) == name
    ensures r.Err? ==> r.error == InvalidStrategy(name)
  {
    if name == "exhaustive" then Ok(Exhaustive)
    else if name == "random_uniform" then Ok(RandomUniform)
    else if name == "entity_frequency" then Ok(EntityFrequency)
    else if name == "graph_degree" then Ok(GraphMetric(Degree))
    else if name == "cluster_coefficient" then Ok(GraphMetric(ClusteringCoefficient))
    else if name == "cluster_triangles" then Ok(GraphMetric(Triangles))
    else if name == "cluster_squares" then Ok(GraphMetric(SquareClustering))
    else Err(InvalidStrategy(name))
  }

  /** Every strategy is recognised under its own name. */
  lemma ParseStrategyName(s: Strategy)
    ensures ParseStrategy(StrategyName(s)) == Ok(s)
  {
  }

  // ---------------------------------------------------------------------------
  // max_candidates

  type Positive = n: int | n > 0 witness 1

  /** The Python value passed as `max_candidates`: an int, a float (written
      as an exact fraction num/den), or a value of any other type. */
  datatype MaxCandidates = Count(n: int) | Fraction(num: int, den: Positive) | NotANumber

  /** Validation and conversion of `max_candidates` into the integer cap
      `_max_candidates`; a float is a fraction of the number of triples. */
  function ResolveCap(mc: MaxCandidates, size: nat): (r: Result<nat>)
    ensures mc.NotANumber? ==> r == Err(InvalidMaxCandidatesType)
    ensures mc.Count? ==> (r.Ok? <==> mc.n > 0)
    ensures mc.Count? && r.Ok? ==> r.value == mc.n
    ensures mc.Fraction? ==> (r.Ok? <==> mc.num > 0)
    ensures mc.Fraction? && r.Ok? ==> r.value * mc.den <= mc.num * size < (r.value + 1) * mc.den
    ensures r.Err? && !mc.NotANumber? ==> r.error == NonPositiveMaxCandidates
  {
    match mc
    case NotANumber => Err(InvalidMaxCandidatesType)
    case Count(n) => if n <= 0 then Err(NonPositiveMaxCandidates) else Ok(n)
    case Fraction(p, q) =>
      if p <= 0 then Err(NonPositiveMaxCandidates)
      else
        assert p * size >= 0;
        Ok((p * size) / q)
  }

  /** `int(np.sqrt(n))`, searching upwards from `k`. */
  function ISqrtFrom(n: nat, k: nat): (r: nat)
    requires k * k <= n
    ensures r * r <= n < (r + 1) * (r + 1)
    decreases n - k
  {
    if (k + 1) * (k + 1) > n then k
    else
      assert k + 1 <= (k + 1) * (k + 1);
      ISqrtFrom(n, k + 1)
  }

  /** The sample size `int(np.sqrt(_max_candidates))`: the largest k with k * k <= n. */
  function ISqrt(n: nat): (k: nat)
    ensures k * k <= n < (k + 1) * (k + 1)
  {
    ISqrtFrom(n, 0)
  }

  // ---------------------------------------------------------------------------
  // Entity pools

  predicate IsSubject(x: seq<Triple>, e: int) {
    exists i :: 0 <= i < |x| && x[i].s == e
  }

  predicate IsObject(x: seq<Triple>, e: int) {
    exists i :: 0 <= i < |x| && x[i].o == e
  }

  /** `np.unique(np.concatenate((X[:, 0], X[:, 2])))`: every entity of the graph, ascending. */
  function Entities(x: seq<Triple>): (r: seq<int>)
    ensures StrictlyIncreasing(r)
    ensures forall e :: e in r <==> IsSubject(x, e) || IsObject(x, e)
  {
    var cols := Subjects(x) + Objects(x);
    assert forall e :: e in cols <==> IsSubject(x, e) || IsObject(x, e) by {
      forall e ensures e in cols <==> IsSubject(x, e) || IsObject(x, e) {
        if IsSubject(x, e) {
          var i :| 0 <= i < |x| && x[i].s == e;
          assert cols[i] == e;
        }
        if IsObject(x, e) {
          var i :| 0 <= i < |x| && x[i].o == e;
          assert cols[|x| + i] == e;
        }
      }
    }
    SortedUnique(cols)
  }

  /** The subject pool `e_s` and the object pool `e_o`. */
  function EntityPools(x: seq<Triple>, consolidate: bool): (pools: (seq<int>, seq<int>))
    ensures StrictlyIncreasing(pools.0) && StrictlyIncreasing(pools.1)
    ensures consolidate ==> pools.0 == pools.1
    ensures consolidate ==> forall e :: e in pools.0 <==> IsSubject(x, e) || IsObject(x, e)
    ensures !consolidate ==> forall e :: e in pools.0 <==> IsSubject(x, e)
    ensures !consolidate ==> forall e :: e in pools.1 <==> IsObject(x, e)
  {
    if consolidate then
      var es := Entities(x);
      (es, es)
    else
      var subj, obj := Subjects(x), Objects(x);
      assert forall e :: e in subj <==> IsSubject(x, e) by {
        forall e | IsSubject(x, e) ensures e in subj {
          var i :| 0 <= i < |x| && x[i].s == e;
          assert subj[i] == e;
        }
      }
      assert forall e :: e in obj <==> IsObject(x, e) by {
        forall e | IsObject(x, e) ensures e in obj {
          var i :| 0 <= i < |x| && x[i].o == e;
          assert obj[i] == e;
        }
      }
      (SortedUnique(subj), SortedUnique(obj))
  }

  // ---------------------------------------------------------------------------
  // Cross products and the shared post-filter

  function SubjectRow(ss: seq<int>, rel: int, o: int): (r: seq<Triple>)
    ensures |r| == |ss|
    ensures forall t :: t in r <==> t.s in ss && t.p == rel && t.o == o
    ensures Distinct(ss) ==> Distinct(r)
  {
    var r := seq(|ss|, i requires 0 <= i < |ss| => Triple(ss[i], rel, o));
    assert forall t: Triple | t.s in ss && t.p == rel && t.o == o :: t in r by {
      forall t: Triple | t.s in ss && t.p == rel && t.o == o ensures t in r {
        var i :| 0 <= i < |ss| && ss[i] == t.s;
        assert r[i] == t;
      }
    }
    r
  }

  /** `np.meshgrid(ss, rel, os).T.reshape(-1, 3)`: every (s, rel, o) with s
      from `ss` and o from `os`, object-major (all subjects for `os[0]` first). */
  function Grid(ss: seq<int>, rel: int, os: seq<int>): (r: seq<Triple>)
    ensures |r| == |ss| * |os|
    ensures forall t :: t in r <==> t.s in ss && t.p == rel && t.o in os
    ensures Distinct(ss) && Distinct(os) ==> Distinct(r)
    decreases |os|
  {
    if |os| == 0 then []
    else
      var row := SubjectRow(ss, rel, os[0]);
      var rest := Grid(ss, rel, os[1..]);
      assert |ss| * |os| == |ss| + |ss| * (|os| - 1);
      assert forall t :: t in row + rest <==> t.s in ss && t.p == rel && t.o in os by {
        assert os == [os[0]] + os[1..];
      }
      GridConcatDistinct(ss, rel, os, row, rest);
      row + rest
  }

  lemma GridConcatDistinct(ss: seq<int>, rel: int, os: seq<int>, row: seq<Triple>, rest: seq<Triple>)
    requires |os| > 0
    requires forall t | t in row :: t.o == os[0]
    requires forall t | t in rest :: t.o in os[1..]
    requires Distinct(ss) ==> Distinct(row)
    requires Distinct(ss) && Distinct(os[1..]) ==> Distinct(rest)
    ensures Distinct(ss) && Distinct(os) ==> Distinct(row + rest)
  {
    if Distinct(ss) && Distinct(os) {
      assert Distinct(os[1..]);
      assert os[0] !in os[1..];
      DistinctConcat(row, rest);
    }
  }

  /** The self-loop mask `X_candidates[:, 0] != X_candidates[:, 2]`. */
  function NotSelfLoop(c: seq<Triple>): (m: seq<bool>)
    ensures |m| == |c|
    ensures forall i | 0 <= i < |c| :: m[i] <==> c[i].s != c[i].o
  {
    seq(|c|, i requires 0 <= i < |c| => c[i].s != c[i].o)
  }

  /** Selecting with the self-loop mask keeps, in order, exactly the
      candidates whose subject differs from their object. */
  lemma NotSelfLoopSelects(c: seq<Triple>)
    ensures IsSubsequence(Mask(c, NotSelfLoop(c)), c)
    ensures forall t :: t in Mask(c, NotSelfLoop(c)) <==> t in c && t.s != t.o
  {
    var keep := NotSelfLoop(c);
    MaskIsSubsequence(c, keep);
    forall t ensures t in Mask(c, keep) <==> t in c && t.s != t.o {
      if t in c && t.s != t.o {
        var i :| 0 <= i < |c| && c[i] == t;
        assert keep[i];
      }
    }
  }

  /** `_filter_candidates`: drop rows present in X (via `_setdiff2d`), then
      self-loops. The result is a subsequence of the candidates with no
      self-loop; a row of X survives only when the candidates hold it twice. */
  function FilterCandidates(c: seq<Triple>, x: seq<Triple>): (r: seq<Triple>)
    ensures IsSubsequence(r, c)
    ensures forall t | t in r :: t.s != t.o
    ensures forall t | t in r && t in x :: exists i, j :: 0 <= i < j < |c| && c[i] == t && c[j] == t
  {
    var d := SetDiffRows(c, x);
    var keep := NotSelfLoop(d);
    MaskIsSubsequence(d, keep);
    SubsequenceTransitive(Mask(d, keep), d, c);
    SubsequenceMembers(Mask(d, keep), d);
    Mask(d, keep)
  }

  /** On duplicate-free candidates the filter keeps exactly the candidates
      that are neither in X nor self-loops, and stays duplicate-free. */
  lemma FilterCandidatesOfDistinct(c: seq<Triple>, x: seq<Triple>)
    requires Distinct(c)
    ensures Distinct(FilterCandidates(c, x))
    ensures forall t :: t in FilterCandidates(c, x) <==> t in c && t !in x && t.s != t.o
  {
    var r := FilterCandidates(c, x);
    SubsequenceOfDistinct(r, c);
    SubsequenceMembers(r, c);
    SetDiffOfDistinct(c, x);
    var d := SetDiffRows(c, x);
    forall t | t in c && t !in x && t.s != t.o ensures t in r {
      var i :| 0 <= i < |d| && d[i] == t;
      assert NotSelfLoop(d)[i];
    }
  }

  /** Filtering twice is filtering once on duplicate-free candidates, so the
      second filtering of `entity_frequency` changes nothing. */
  lemma FilterIdempotent(c: seq<Triple>, x: seq<Triple>)
    requires Distinct(c)
    ensures FilterCandidates(FilterCandidates(c, x), x) == FilterCandidates(c, x)
  {
    FilterCandidatesOfDistinct(c, x);
    FilterKeepsClean(FilterCandidates(c, x), x);
  }

  /** Candidates with no triple of X and no self-loop pass the filter unchanged. */
  lemma FilterKeepsClean(c: seq<Triple>, x: seq<Triple>)
    requires forall t | t in c :: t !in x && t.s != t.o
    ensures FilterCandidates(c, x) == c
  {
    SetDiffDisjoint(c, x);
    MaskAllKept(c, NotSelfLoop(c));
  }

  /** With a repeated candidate that is in X, a second filtering removes the
      copy the first one let through: idempotence needs duplicate-free input. */
  lemma FilterNotIdempotentOnRepeats(t: Triple)
    requires t.s != t.o
    ensures FilterCandidates([t, t], [t]) == [t]
    ensures FilterCandidates(FilterCandidates([t, t], [t]), [t]) == []
  {
    SetDiffKeepsSecondCopy(t);
    assert NotSelfLoop([t]) == [true];
    MaskAllKept([t], NotSelfLoop([t]));
    SetDiffCovered([t], [t]);
  }

  // ---------------------------------------------------------------------------
  // Sampling

  /** The process-wide numpy random source, made explicit: `seed` gives the
      state after `np.random.seed(seed)`; `choose(state, n, k)` is
      `np.random.choice` over a population of size n with `size=k,
      replace=False`, giving the chosen positions and the next state. */
  datatype Rng = Rng(seed: int -> nat, choose: (nat, nat, nat) -> (seq<nat>, nat))

  ghost predicate IsPositionSample(p: seq<nat>, n: nat, k: nat) {
    |p| == k && Distinct(p) && forall i | 0 <= i < |p| :: p[i] < n
  }

  /** Sampling without replacement picks k distinct positions of the population. */
  ghost predicate ValidRng(rng: Rng) {
    forall st, n, k | k <= n :: IsPositionSample(rng.choose(st, n, k).0, n, k)
  }

  /** `np.random.choice(pool, size=k, replace=False)` from state `st`: k
      distinct elements of the pool, or an error when k exceeds the pool. */
  function Draw(rng: Rng, st: nat, pool: seq<int>, k: nat): (r: Result<(seq<int>, nat)>)
    requires ValidRng(rng)
    ensures r.Ok? <==> k <= |pool|
    ensures r.Err? ==> r.error == SampleLargerThanPool
    ensures r.Ok? ==> |r.value.0| == k
    ensures r.Ok? ==> forall e | e in r.value.0 :: e in pool
    ensures r.Ok? && Distinct(pool) ==> Distinct(r.value.0)
  {
    if k > |pool| then Err(SampleLargerThanPool)
    else
      var (pos, next) := rng.choose(st, |pool|, k);
      assert IsPositionSample(pos, |pool|, k);
      var sample := seq(k, i requires 0 <= i < k => pool[pos[i]]);
      assert forall e | e in sample :: e in pool;
      Ok((sample, next))
  }

  /** The subject sample then the object sample, drawn after seeding. */
  function DrawPair(rng: Rng, seed: int, subjectPool: seq<int>, objectPool: seq<int>, k: nat)
    : (r: Result<(seq<int>, seq<int>)>)
    requires ValidRng(rng)
    ensures r.Ok? <==> k <= |subjectPool| && k <= |objectPool|
    ensures r.Err? ==> r.error == SampleLargerThanPool
    ensures r.Ok? ==> |r.value.0| == k && |r.value.1| == k
    ensures r.Ok? ==> (forall e | e in r.value.0 :: e in subjectPool) && (forall e | e in r.value.1 :: e in objectPool)
    ensures r.Ok? && Distinct(subjectPool) ==> Distinct(r.value.0)
    ensures r.Ok? && Distinct(objectPool) ==> Distinct(r.value.1)
  {
    var subjects :- Draw(rng, rng.seed(seed), subjectPool, k);
    var objects :- Draw(rng, subjects.1, objectPool, k);
    Ok((subjects.0, objects.0))
  }

  /** `t` is a row of the filtered cross product of the subject sample `ss`
      and the object sample `os` for relation `rel`: it crosses the samples,
      is not a self-loop and is not a triple of X. */
  predicate CrossCandidate(t: Triple, ss: seq<int>, rel: int, os: seq<int>, x: seq<Triple>) {
    t.s in ss && t.p == rel && t.o in os && t.s != t.o && t !in x
  }

  /** `batch` is exactly the filtered cross product of the subject and object
      samples of size k that the seeded generator draws from the two pools. */
  ghost predicate SampledFrom(batch: seq<Triple>, x: seq<Triple>, rel: int, rng: Rng, seed: int,
                              subjectPool: seq<int>, objectPool: seq<int>, k: nat)
    requires ValidRng(rng)
  {
    var d := DrawPair(rng, seed, subjectPool, objectPool, k);
    d.Ok? && forall t :: t in batch <==> CrossCandidate(t, d.value.0, rel, d.value.1, x)
  }

  /** One sampled batch: the filtered cross product of a subject sample and an
      object sample of size k, drawn in that order after seeding. It holds
      exactly the rows of that cross product that are neither self-loops nor
      triples of X, each once, so at most k * k rows. */
  function SampledBatch(x: seq<Triple>, rel: int, rng: Rng, seed: int,
                        subjectPool: seq<int>, objectPool: seq<int>, k: nat)
    : (r: Result<seq<Triple>>)
    requires ValidRng(rng)
    requires Distinct(subjectPool) && Distinct(objectPool)
    ensures r.Ok? <==> k <= |subjectPool| && k <= |objectPool|
    ensures r.Err? ==> r.error == SampleLargerThanPool
    ensures r.Ok? ==> |r.value| <= k * k && Distinct(r.value)
    ensures r.Ok? ==> forall t | t in r.value ::
                        t.s in subjectPool && t.o in objectPool && t.p == rel && t.s != t.o && t !in x
    ensures r.Ok? ==> SampledFrom(r.value, x, rel, rng, seed, subjectPool, objectPool, k)
  {
    var samples :- DrawPair(rng, seed, subjectPool, objectPool, k);
    var grid := Grid(samples.0, rel, samples.1);
    FilterCandidatesOfDistinct(grid, x);
    SubsequenceMembers(FilterCandidates(grid, x), grid);
    Ok(FilterCandidates(grid, x))
  }

  // ---------------------------------------------------------------------------
  // Score-restricted pools

  function Min(a: int, b: int): int {
    if a <= b then a else b
  }

  /** How often `e` occurs in `X[:, [0, 2]]`: its multiplicity in the subject
      column plus its multiplicity in the object column. */
  function Frequency(x: seq<Triple>, e: int): (r: nat)
    ensures r == multiset(Subjects(x))[e] + multiset(Objects(x))[e]
    decreases |x|
  {
    if |x| == 0 then 0
    else
      ColumnsCons(x);
      (if x[0].s == e then 1 else 0) + (if x[0].o == e then 1 else 0) + Frequency(x[1..], e)
  }

  /** The columns of a nonempty graph are its first row's entries followed by
      the columns of the rest. */
  lemma ColumnsCons(x: seq<Triple>)
    requires |x| > 0
    ensures multiset(Subjects(x)) == multiset{x[0].s} + multiset(Subjects(x[1..]))
    ensures multiset(Objects(x)) == multiset{x[0].o} + multiset(Objects(x[1..]))
  {
    assert Subjects(x) == [x[0].s] + Subjects(x[1..]);
    assert Objects(x) == [x[0].o] + Objects(x[1..]);
  }

  /** Every entity of the graph has a positive count and nothing else does. */
  lemma FrequencyPositive(x: seq<Triple>, e: int)
    ensures Frequency(x, e) > 0 <==> IsSubject(x, e) || IsObject(x, e)
  {
    var ss, os := Subjects(x), Objects(x);
    if IsSubject(x, e) {
      var i :| 0 <= i < |x| && x[i].s == e;
      assert ss[i] == e;
    }
    if IsObject(x, e) {
      var i :| 0 <= i < |x| && x[i].o == e;
      assert os[i] == e;
    }
    if e in ss {
      var i :| 0 <= i < |ss| && ss[i] == e;
      assert x[i].s == e;
    }
    if e in os {
      var i :| 0 <= i < |os| && os[i] == e;
      assert x[i].o == e;
    }
  }

  /** `C[C[:, 1].argsort()][0:cap, 0]`: the first `cap` entities in ascending
      order of score. Every entity left out scores at least as high as every
      entity kept. */
  function LowestScoring(entities: seq<int>, score: int -> real, cap: nat): (r: seq<int>)
    ensures |r| == Min(cap, |entities|)
    ensures forall e | e in r :: e in entities
    ensures forall i, j | 0 <= i < j < |r| :: score(r[i]) <= score(r[j])
    ensures forall e, f | e in r && f in entities && f !in r :: score(e) <= score(f)
  {
    var sorted := SortByScore(entities, score);
    var r := sorted[..Min(cap, |entities|)];
    forall e, f | e in r && f in entities && f !in r ensures score(e) <= score(f) {
      var i :| 0 <= i < |r| && r[i] == e;
      var j :| 0 <= j < |sorted| && sorted[j] == f;
      assert sorted[i] == e;
    }
    r
  }

  lemma LowestScoringDistinct(entities: seq<int>, score: int -> real, cap: nat)
    requires Distinct(entities)
    ensures Distinct(LowestScoring(entities, score, cap))
  {
    SortByScoreDistinct(entities, score);
  }

  // ---------------------------------------------------------------------------
  // The strategies

  /** `exhaustive`: one filtered batch per subject of the pool, in pool order,
      crossing that subject with the whole object pool. */
  function ExhaustiveBatches(x: seq<Triple>, rel: int, es: seq<int>, eo: seq<int>)
    : (bs: seq<seq<Triple>>)
    ensures |bs| == |es|
    ensures forall i, t | 0 <= i < |bs| && t in bs[i] ::
              t.s == es[i] && t.p == rel && t.o in eo && t.s != t.o
  {
    var bs := seq(|es|, i requires 0 <= i < |es| => FilterCandidates(Grid([es[i]], rel, eo), x));
    forall i, t | 0 <= i < |bs| && t in bs[i]
      ensures t.s == es[i] && t.p == rel && t.o in eo && t.s != t.o
    {
      SubsequenceMembers(bs[i], Grid([es[i]], rel, eo));
    }
    bs
  }

  /** With a duplicate-free object pool, the batch of subject `es[i]` is every
      novel, non-self-loop triple (es[i], rel, o) with o in the object pool. */
  lemma ExhaustiveBatchContents(x: seq<Triple>, rel: int, es: seq<int>, eo: seq<int>, i: nat)
    requires Distinct(eo)
    requires i < |es|
    ensures Distinct(ExhaustiveBatches(x, rel, es, eo)[i])
    ensures forall t :: t in ExhaustiveBatches(x, rel, es, eo)[i] <==>
              t.s == es[i] && t.p == rel && t.o in eo && t.s != t.o && t !in x
  {
    var g := Grid([es[i]], rel, eo);
    FilterCandidatesOfDistinct(g, x);
  }

  /** The batches of `exhaustive` together hold exactly the triples
      (s, rel, o) with s in the subject pool, o in the object pool, s != o,
      and the triple not in X. */
  lemma ExhaustiveCoverage(x: seq<Triple>, rel: int, es: seq<int>, eo: seq<int>)
    requires Distinct(eo)
    ensures forall t :: t in Flatten(ExhaustiveBatches(x, rel, es, eo)) <==>
              t.s in es && t.p == rel && t.o in eo && t.s != t.o && t !in x
  {
    var bs := ExhaustiveBatches(x, rel, es, eo);
    forall t: Triple ensures t in Flatten(bs) <==> t.s in es && t.p == rel && t.o in eo && t.s != t.o && t !in x {
      if t in Flatten(bs) {
        var i :| 0 <= i < |bs| && t in bs[i];
        ExhaustiveBatchContents(x, rel, es, eo, i);
      }
      if t.s in es && t.p == rel && t.o in eo && t.s != t.o && t !in x {
        var i :| 0 <= i < |es| && es[i] == t.s;
        ExhaustiveBatchContents(x, rel, es, eo, i);
      }
    }
  }

  /** Distinct subjects give batches that share no triple, so with duplicate-free
      pools the exhaustive batches join into a duplicate-free list. */
  lemma ExhaustiveBatchesDisjoint(x: seq<Triple>, rel: int, es: seq<int>, eo: seq<int>)
    requires Distinct(es) && Distinct(eo)
    ensures Distinct(Flatten(ExhaustiveBatches(x, rel, es, eo)))
  {
    var bs := ExhaustiveBatches(x, rel, es, eo);
    ExhaustiveBatchesNovel(x, rel, es, eo);
    forall i | 0 <= i < |bs| ensures Distinct(bs[i]) {
      assert bs[i] in bs;
    }
    forall i, j, t: Triple | 0 <= i < j < |bs| && t in bs[i] ensures t !in bs[j] {
      assert t.s == es[i] && es[i] != es[j];
    }
    FlattenDistinct(bs);
  }

  /** What `generate_candidates` yields: its batches, and whether it warned
      that the target relation does not occur in X. */
  datatype Generation = Generation(batches: seq<seq<Triple>>, relationUnseen: bool)

  /** Per-entity metric of the graph built from X (networkx, external). */
  type MetricFn = (Metric, seq<Triple>, int) -> real

  /** Every batch of `exhaustive` is duplicate-free and holds no triple of X. */
  lemma ExhaustiveBatchesNovel(x: seq<Triple>, rel: int, es: seq<int>, eo: seq<int>)
    requires Distinct(eo)
    ensures forall b | b in ExhaustiveBatches(x, rel, es, eo) :: Distinct(b)
    ensures forall b, t | b in ExhaustiveBatches(x, rel, es, eo) && t in b :: t !in x
  {
    var bs := ExhaustiveBatches(x, rel, es, eo);
    forall b | b in bs ensures Distinct(b) && forall t | t in b :: t !in x {
      var i :| 0 <= i < |bs| && bs[i] == b;
      ExhaustiveBatchContents(x, rel, es, eo, i);
    }
  }

  /** The `cap` least frequent entities, `ent_counts[0:max_candidates, 0]`. */
  function FrequencyPool(x: seq<Triple>, cap: nat): (pool: seq<int>)
    ensures Distinct(pool)
    ensures |pool| == Min(cap, |Entities(x)|)
  {
    var score := (e: int) => Frequency(x, e) as real;
    LowestScoringDistinct(Entities(x), score, cap);
    LowestScoring(Entities(x), score, cap)
  }

  /** The `cap` lowest-scoring entities of one metric, `C[0:max_candidates, 0]`. */
  function MetricPool(x: seq<Triple>, m: Metric, metric: MetricFn, cap: nat): (pool: seq<int>)
    ensures Distinct(pool)
    ensures |pool| == Min(cap, |Entities(x)|)
  {
    var score := (e: int) => metric(m, x, e);
    LowestScoringDistinct(Entities(x), score, cap);
    LowestScoring(Entities(x), score, cap)
  }

  /** `entity_frequency`: sample both sides from the `cap` least frequent
      entities, then filter the cross product (twice, as the source does). */
  function FrequencyBatch(x: seq<Triple>, rel: int, cap: nat, seed: int, rng: Rng)
    : (r: Result<seq<Triple>>)
    requires ValidRng(rng)
    ensures r.Ok? <==> ISqrt(cap) <= Min(cap, |Entities(x)|)
    ensures r.Err? ==> r.error == SampleLargerThanPool
    ensures r.Ok? ==> |r.value| <= cap && Distinct(r.value)
    ensures r.Ok? ==> forall t | t in r.value ::
              t.p == rel && t.s != t.o && t !in x && t.s in FrequencyPool(x, cap) && t.o in FrequencyPool(x, cap)
    ensures r.Ok? ==> |r.value| <= ISqrt(cap) * ISqrt(cap)
    ensures r.Ok? ==> SampledFrom(r.value, x, rel, rng, seed, FrequencyPool(x, cap), FrequencyPool(x, cap), ISqrt(cap))
  {
    var pool := FrequencyPool(x, cap);
    var batch :- SampledBatch(x, rel, rng, seed, pool, pool, ISqrt(cap));
    FilterKeepsClean(batch, x);
    Ok(FilterCandidates(batch, x))
  }

  /** The graph-metric strategies: sample both sides from the `cap`
      lowest-scoring entities, then filter the cross product. */
  function MetricBatch(x: seq<Triple>, rel: int, m: Metric, metric: MetricFn, cap: nat, seed: int, rng: Rng)
    : (r: Result<seq<Triple>>)
    requires ValidRng(rng)
    ensures r.Ok? <==> ISqrt(cap) <= Min(cap, |Entities(x)|)
    ensures r.Err? ==> r.error == SampleLargerThanPool
    ensures r.Ok? ==> |r.value| <= cap && Distinct(r.value)
    ensures r.Ok? ==> forall t | t in r.value ::
              t.p == rel && t.s != t.o && t !in x && t.s in MetricPool(x, m, metric, cap) && t.o in MetricPool(x, m, metric, cap)
    ensures r.Ok? ==> |r.value| <= ISqrt(cap) * ISqrt(cap)
    ensures r.Ok? ==> SampledFrom(r.value, x, rel, rng, seed, MetricPool(x, m, metric, cap), MetricPool(x, m, metric, cap), ISqrt(cap))
  {
    var pool := MetricPool(x, m, metric, cap);
    SampledBatch(x, rel, rng, seed, pool, pool, ISqrt(cap))
  }

  /** The pools of the score-based strategies are the lowest-scoring entities:
      every entity of the graph outside the pool scores at least as high as
      every entity inside it. */
  lemma ScorePoolsAreLowest(x: seq<Triple>, m: Metric, metric: MetricFn, cap: nat)
    ensures forall e, f | e in FrequencyPool(x, cap) && f in Entities(x) && f !in FrequencyPool(x, cap) ::
              Frequency(x, e) <= Frequency(x, f)
    ensures forall e, f | e in MetricPool(x, m, metric, cap) && f in Entities(x) && f !in MetricPool(x, m, metric, cap) ::
              metric(m, x, e) <= metric(m, x, f)
    ensures forall e | e in FrequencyPool(x, cap) :: e in Entities(x)
    ensures forall e | e in MetricPool(x, m, metric, cap) :: e in Entities(x)
  {
    var fs := (e: int) => Frequency(x, e) as real;
    var ms := (e: int) => metric(m, x, e);
    assert FrequencyPool(x, cap) == LowestScoring(Entities(x), fs, cap);
    assert MetricPool(x, m, metric, cap) == LowestScoring(Entities(x), ms, cap);
  }

  /** A single sound batch makes a sound list of batches, and its join is
      the batch itself. */
  lemma SingleBatchSound(batch: seq<Triple>, rel: int, x: seq<Triple>)
    requires Distinct(batch)
    requires forall t | t in batch :: t.p == rel && t.s != t.o && t !in x
    ensures forall b, t | b in [batch] && t in b :: t.p == rel && t.s != t.o && t !in x
    ensures forall b | b in [batch] :: Distinct(b)
    ensures Distinct(Flatten([batch]))
  {
    assert [batch][1..] == [];
    assert Flatten([batch]) == batch + Flatten([]);
  }

  /** The single batch of one recognised sampling strategy, after validation. */
  function SampledStrategyBatch(x: seq<Triple>, strategy: Strategy, rel: int, mc: MaxCandidates,
                                cap: nat, consolidate: bool, seed: int, rng: Rng, metric: MetricFn)
    : (r: Result<seq<Triple>>)
    requires ValidRng(rng) && !strategy.Exhaustive?
    ensures r.Ok? ==> forall t | t in r.value :: t.p == rel && t.s != t.o && t !in x
    ensures r.Ok? ==> Distinct(r.value) && |r.value| <= cap && |r.value| <= ISqrt(cap) * ISqrt(cap)
    ensures strategy.RandomUniform? ==>
              (r.Ok? <==> ISqrt(cap) <= |EntityPools(x, consolidate).0| && ISqrt(cap) <= |EntityPools(x, consolidate).1|)
    ensures strategy.RandomUniform? && r.Err? ==> r.error == SampleLargerThanPool
    ensures strategy.RandomUniform? && r.Ok? ==>
              SampledFrom(r.value, x, rel, rng, seed, EntityPools(x, consolidate).0, EntityPools(x, consolidate).1, ISqrt(cap))
    ensures strategy.EntityFrequency? && mc.Fraction? ==> r == Err(NonIntegerSlice)
    ensures strategy.EntityFrequency? && mc.Count? ==> (r.Ok? <==> ISqrt(cap) <= Min(cap, |Entities(x)|))
    ensures strategy.EntityFrequency? && mc.Count? && r.Err? ==> r.error == SampleLargerThanPool
    ensures strategy.EntityFrequency? && r.Ok? ==>
              SampledFrom(r.value, x, rel, rng, seed, FrequencyPool(x, cap), FrequencyPool(x, cap), ISqrt(cap))
    ensures strategy.GraphMetric? && |Entities(x)| == 0 ==> r == Err(EmptyMetricTable)
    ensures strategy.GraphMetric? && |Entities(x)| > 0 && mc.Fraction? ==> r == Err(NonIntegerSlice)
    ensures strategy.GraphMetric? && |Entities(x)| > 0 && mc.Count? ==> (r.Ok? <==> ISqrt(cap) <= Min(cap, |Entities(x)|))
    ensures strategy.GraphMetric? && |Entities(x)| > 0 && mc.Count? && r.Err? ==> r.error == SampleLargerThanPool
    ensures strategy.GraphMetric? && r.Ok? ==>
              SampledFrom(r.value, x, rel, rng, seed, MetricPool(x, strategy.metric, metric, cap),
                          MetricPool(x, strategy.metric, metric, cap), ISqrt(cap))
  {
    match strategy
    case RandomUniform =>
      var pools := EntityPools(x, consolidate);
      SampledBatch(x, rel, rng, seed, pools.0, pools.1, ISqrt(cap))
    case EntityFrequency =>
      // the slice bound is the raw max_candidates, which must be an int
      if mc.Fraction? then Err(NonIntegerSlice)
      else FrequencyBatch(x, rel, cap, seed, rng)
    case GraphMetric(m) =>
      if |Entities(x)| == 0 then Err(EmptyMetricTable)
      else if mc.Fraction? then Err(NonIntegerSlice)
      else MetricBatch(x, rel, m, metric, cap, seed, rng)
  }

  /** The batches of one recognised strategy, after validation. */
  function StrategyBatches(x: seq<Triple>, strategy: Strategy, rel: int, mc: MaxCandidates,
                           cap: nat, consolidate: bool, seed: int, rng: Rng, metric: MetricFn)
    : (r: Result<seq<seq<Triple>>>)
    requires ValidRng(rng)
    ensures r.Ok? ==> forall b, t | b in r.value && t in b :: t.p == rel && t.s != t.o && t !in x
    ensures r.Ok? ==> forall b | b in r.value :: Distinct(b)
    ensures strategy.Exhaustive? ==> r.Ok? && |r.value| == |EntityPools(x, consolidate).0|
    ensures r.Ok? && !strategy.Exhaustive? ==> |r.value| == 1 && |r.value[0]| <= cap
    ensures strategy.RandomUniform? ==>
              (r.Ok? <==> ISqrt(cap) <= |EntityPools(x, consolidate).0| && ISqrt(cap) <= |EntityPools(x, consolidate).1|)
    ensures strategy.EntityFrequency? && mc.Fraction? ==> r == Err(NonIntegerSlice)
    ensures strategy.GraphMetric? && |Entities(x)| > 0 && mc.Fraction? ==> r == Err(NonIntegerSlice)
    ensures strategy.GraphMetric? && |Entities(x)| == 0 ==> r == Err(EmptyMetricTable)
    ensures r.Ok? ==> Distinct(Flatten(r.value))
    ensures r.Ok? && !strategy.Exhaustive? ==> |r.value[0]| <= ISqrt(cap) * ISqrt(cap)
    ensures strategy.RandomUniform? && r.Err? ==> r.error == SampleLargerThanPool
    ensures strategy.RandomUniform? && r.Ok? ==>
              SampledFrom(r.value[0], x, rel, rng, seed, EntityPools(x, consolidate).0, EntityPools(x, consolidate).1, ISqrt(cap))
    ensures strategy.EntityFrequency? && mc.Count? ==> (r.Ok? <==> ISqrt(cap) <= Min(cap, |Entities(x)|))
    ensures strategy.EntityFrequency? && mc.Count? && r.Err? ==> r.error == SampleLargerThanPool
    ensures strategy.EntityFrequency? && r.Ok? ==>
              SampledFrom(r.value[0], x, rel, rng, seed, FrequencyPool(x, cap), FrequencyPool(x, cap), ISqrt(cap))
    ensures strategy.GraphMetric? && |Entities(x)| > 0 && mc.Count? ==> (r.Ok? <==> ISqrt(cap) <= Min(cap, |Entities(x)|))
    ensures strategy.GraphMetric? && |Entities(x)| > 0 && mc.Count? && r.Err? ==> r.error == SampleLargerThanPool
    ensures strategy.GraphMetric? && r.Ok? ==>
              SampledFrom(r.value[0], x, rel, rng, seed, MetricPool(x, strategy.metric, metric, cap),
                          MetricPool(x, strategy.metric, metric, cap), ISqrt(cap))
  {
    if strategy.Exhaustive? then
      var pools := EntityPools(x, consolidate);
      ExhaustiveBatchesNovel(x, rel, pools.0, pools.1);
      ExhaustiveBatchesDisjoint(x, rel, pools.0, pools.1);
      Ok(ExhaustiveBatches(x, rel, pools.0, pools.1))
    else
      var batch :- SampledStrategyBatch(x, strategy, rel, mc, cap, consolidate, seed, rng, metric);
      SingleBatchSound(batch, rel, x);
      Ok([batch])
  }

  /** The batches of one recognised strategy, with `max_candidates` resolved
      against the size of the graph first. */
  function CappedBatches(x: seq<Triple>, strategy: Strategy, rel: int, mc: MaxCandidates,
                         consolidate: bool, seed: int, rng: Rng, metric: MetricFn)
    : (r: Result<seq<seq<Triple>>>)
    requires ValidRng(rng)
    ensures ResolveCap(mc, |x|).Err? ==> r == Err(ResolveCap(mc, |x|).error)
    ensures r.Ok? ==> ResolveCap(mc, |x|).Ok?
    ensures r.Ok? ==> forall b, t | b in r.value && t in b :: t.p == rel && t.s != t.o && t !in x
    ensures r.Ok? ==> forall b | b in r.value :: Distinct(b)
    ensures r.Ok? ==> Distinct(Flatten(r.value))
    ensures strategy.Exhaustive? && ResolveCap(mc, |x|).Ok? ==>
              r == Ok(ExhaustiveBatches(x, rel, EntityPools(x, consolidate).0, EntityPools(x, consolidate).1))
    ensures r.Ok? && !strategy.Exhaustive? ==>
              var cap := ResolveCap(mc, |x|).value;
              |r.value| == 1 && |r.value[0]| <= cap && |r.value[0]| <= ISqrt(cap) * ISqrt(cap)
    ensures strategy.RandomUniform? && ResolveCap(mc, |x|).Ok? ==>
              var k := ISqrt(ResolveCap(mc, |x|).value);
              (r.Ok? <==> k <= |EntityPools(x, consolidate).0| && k <= |EntityPools(x, consolidate).1|) &&
              (r.Err? ==> r.error == SampleLargerThanPool) &&
              (r.Ok? ==> SampledFrom(r.value[0], x, rel, rng, seed,
                                     EntityPools(x, consolidate).0, EntityPools(x, consolidate).1, k))
    ensures strategy.EntityFrequency? && mc.Fraction? && mc.num > 0 ==> r == Err(NonIntegerSlice)
    ensures strategy.EntityFrequency? && mc.Count? && mc.n > 0 ==>
              (r.Ok? <==> ISqrt(mc.n) <= Min(mc.n, |Entities(x)|)) &&
              (r.Err? ==> r.error == SampleLargerThanPool) &&
              (r.Ok? ==> SampledFrom(r.value[0], x, rel, rng, seed,
                                     FrequencyPool(x, mc.n), FrequencyPool(x, mc.n), ISqrt(mc.n)))
    ensures strategy.GraphMetric? && ResolveCap(mc, |x|).Ok? && |Entities(x)| == 0 ==> r == Err(EmptyMetricTable)
    ensures strategy.GraphMetric? && |Entities(x)| > 0 && mc.Fraction? && mc.num > 0 ==> r == Err(NonIntegerSlice)
    ensures strategy.GraphMetric? && |Entities(x)| > 0 && mc.Count? && mc.n > 0 ==>
              (r.Ok? <==> ISqrt(mc.n) <= Min(mc.n, |Entities(x)|)) &&
              (r.Err? ==> r.error == SampleLargerThanPool) &&
              (r.Ok? ==> SampledFrom(r.value[0], x, rel, rng, seed,
                                     MetricPool(x, strategy.metric, metric, mc.n),
                                     MetricPool(x, strategy.metric, metric, mc.n), ISqrt(mc.n)))
  {
    var cap :- ResolveCap(mc, |x|);
    StrategyBatches(x, strategy, rel, mc, cap, consolidate, seed, rng, metric)
  }

  /** `generate_candidates(X, strategy, target_rel, max_candidates,
      consolidate_sides, seed)`. */
  function Generate(x: seq<Triple>, name: string, rel: int, mc: MaxCandidates,
                    consolidate: bool, seed: int, rng: Rng, metric: MetricFn)
    : (r: Result<Generation>)
    requires ValidRng(rng)
    ensures name !in GenerationStrategies ==> r == Err(InvalidStrategy(name))
    ensures name in GenerationStrategies && mc.NotANumber? ==> r == Err(InvalidMaxCandidatesType)
    ensures name in GenerationStrategies && ((mc.Count? && mc.n <= 0) || (mc.Fraction? && mc.num <= 0)) ==>
              r == Err(NonPositiveMaxCandidates)
    ensures r.Ok? ==> r.value.relationUnseen == !RelationOccurs(x, rel)
    ensures r.Ok? ==> forall b, t | b in r.value.batches && t in b :: t.p == rel && t.s != t.o && t !in x
    ensures r.Ok? ==> forall b | b in r.value.batches :: Distinct(b)
    ensures name == "exhaustive" && ResolveCap(mc, |x|).Ok? ==>
              r.Ok? && r.value.batches == ExhaustiveBatches(x, rel, EntityPools(x, consolidate).0, EntityPools(x, consolidate).1)
    ensures r.Ok? && name != "exhaustive" ==>
              |r.value.batches| == 1 && |r.value.batches[0]| <= ResolveCap(mc, |x|).value
    ensures r.Ok? ==> ResolveCap(mc, |x|).Ok? && Distinct(Flatten(r.value.batches))
    ensures r.Ok? && name != "exhaustive" ==>
              |r.value.batches[0]| <= ISqrt(ResolveCap(mc, |x|).value) * ISqrt(ResolveCap(mc, |x|).value)
    // random_uniform: one sample of each pool
    ensures name == "random_uniform" && ResolveCap(mc, |x|).Ok? ==>
              var k := ISqrt(ResolveCap(mc, |x|).value);
              (r.Ok? <==> k <= |EntityPools(x, consolidate).0| && k <= |EntityPools(x, consolidate).1|) &&
              (r.Err? ==> r.error == SampleLargerThanPool) &&
              (r.Ok? ==> SampledFrom(r.value.batches[0], x, rel, rng, seed,
                                     EntityPools(x, consolidate).0, EntityPools(x, consolidate).1, k))
    // entity_frequency: the slice bound is the raw max_candidates
    ensures name == "entity_frequency" && mc.Fraction? && mc.num > 0 ==> r == Err(NonIntegerSlice)
    ensures name == "entity_frequency" && mc.Count? && mc.n > 0 ==>
              (r.Ok? <==> ISqrt(mc.n) <= Min(mc.n, |Entities(x)|)) &&
              (r.Err? ==> r.error == SampleLargerThanPool) &&
              (r.Ok? ==> SampledFrom(r.value.batches[0], x, rel, rng, seed,
                                     FrequencyPool(x, mc.n), FrequencyPool(x, mc.n), ISqrt(mc.n)))
  {
    var strategy :- ParseStrategy(name);
    var batches :- CappedBatches(x, strategy, rel, mc, consolidate, seed, rng, metric);
    Ok(Generation(batches, !RelationOccurs(x, rel)))
  }

  /** The graph-metric strategies of `generate_candidates`: an empty graph has
      no metric table to slice, a float cap is refused by the slice, and
      otherwise one sample of each side is drawn from the `max_candidates`
      lowest-scoring entities. */
  lemma GenerateGraphMetric(x: seq<Triple>, name: string, rel: int, mc: MaxCandidates,
                            consolidate: bool, seed: int, rng: Rng, metric: MetricFn)
    requires ValidRng(rng)
    ensures var s := ParseStrategy(name);
            s.Ok? && s.value.GraphMetric? && ResolveCap(mc, |x|).Ok? && |Entities(x)| == 0 ==>
              Generate(x, name, rel, mc, consolidate, seed, rng, metric) == Err(EmptyMetricTable)
    ensures var s := ParseStrategy(name);
            s.Ok? && s.value.GraphMetric? && |Entities(x)| > 0 && mc.Fraction? && mc.num > 0 ==>
              Generate(x, name, rel, mc, consolidate, seed, rng, metric) == Err(NonIntegerSlice)
    ensures var s := ParseStrategy(name);
            s.Ok? && s.value.GraphMetric? && |Entities(x)| > 0 && mc.Count? && mc.n > 0 ==>
              var r := Generate(x, name, rel, mc, consolidate, seed, rng, metric);
              (r.Ok? <==> ISqrt(mc.n) <= Min(mc.n, |Entities(x)|)) &&
              (r.Err? ==> r.error == SampleLargerThanPool) &&
              (r.Ok? ==> SampledFrom(r.value.batches[0], x, rel, rng, seed,
                                     MetricPool(x, s.value.metric, metric, mc.n),
                                     MetricPool(x, s.value.metric, metric, mc.n), ISqrt(mc.n)))
  {
  }
}
