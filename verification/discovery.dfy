/** `discover_facts`: validation, the relation list, the per-batch rank
    acceptance rule, and the concatenation of accepted candidates. The model,
    the evaluator and the unseen-entity filter are external collaborators and
    enter as values and functions. */
module Discovery {
  import opened Triples
  import opened Sequences
  import opened Candidates

  /** What `discover_facts` asks of the embedding model: `is_fitted`,
      `is_fitted_on(X)`, and the keys of `rel_to_idx` in their order. */
  datatype ModelView = ModelView(isFitted: bool, fittedOnX: bool, relations: seq<int>)

  /** The strategy names `discover_facts` accepts. */
  const DiscoveryStrategies: seq<string> := ["exhaustive", "random_uniform"]

  /** `evaluate_performance(candidates, filter_triples=X, ...)`: the rank vector. */
  type Evaluator = (seq<Triple>, seq<Triple>) -> seq<int>

  /** `filter_unseen_entities(X, model)`. */
  type UnseenFilter = seq<Triple> -> seq<Triple>

  /** Neither accepted strategy consults a graph metric, so discovery passes
      a constant one. */
  const NoMetric: MetricFn := (m: Metric, x: seq<Triple>, e: int) => 0.0

  // ---------------------------------------------------------------------------
  // Acceptance of one batch

  /** The mean of the subject-side and object-side ranks is at least `top_n`. */
  predicate MeanRankAtLeast(sRank: int, oRank: int, topN: int) {
    (sRank as real + oRank as real) / 2.0 >= topN as real
  }

  /** The mean test is the integer test `s + o >= 2 * top_n`. */
  lemma MeanRankIsIntegerTest(sRank: int, oRank: int, topN: int)
    ensures MeanRankAtLeast(sRank, oRank, topN) <==> sRank + oRank >= 2 * topN
  {
  }

  /** Candidate i of a batch of n passes the rank test: the rank vector is
      two halves of length n, and the candidate's subject-side rank `ranks[i]`
      and object-side rank `ranks[n + i]` sum to at least `2 * top_n`. */
  predicate Passes(ranks: seq<int>, n: nat, i: nat, topN: int) {
    |ranks| == 2 * n && i < n && ranks[i] + ranks[n + i] >= 2 * topN
  }

  /** `avg_ranks >= top_n` over the two halves of the rank vector. */
  function AcceptMask(ranks: seq<int>, n: nat, topN: int): (m: seq<bool>)
    requires |ranks| == 2 * n
    ensures |m| == n
    ensures forall i | 0 <= i < n :: m[i] <==> Passes(ranks, n, i, topN)
  {
    var m := seq(n, i requires 0 <= i < n => MeanRankAtLeast(ranks[i], ranks[n + i], topN));
    assert forall i | 0 <= i < n :: m[i] <==> Passes(ranks, n, i, topN) by {
      forall i | 0 <= i < n ensures m[i] <==> Passes(ranks, n, i, topN) {
        MeanRankIsIntegerTest(ranks[i], ranks[n + i], topN);
      }
    }
    m
  }

  /** Candidate i is accepted iff its subject-corruption rank `ranks[i]` and
      object-corruption rank `ranks[n + i]` average at least `top_n`. A rank
      vector that is not two halves aligned with the batch is an error. */
  function AcceptCandidates(cands: seq<Triple>, ranks: seq<int>, topN: int): (r: Result<seq<Triple>>)
    ensures r.Ok? <==> |ranks| == 2 * |cands|
    ensures r.Err? ==> r.error == RankShapeMismatch
    ensures r.Ok? ==> IsSubsequence(r.value, cands)
    ensures r.Ok? ==> forall i | 0 <= i < |cands| && Passes(ranks, |cands|, i, topN) :: cands[i] in r.value
    ensures r.Ok? ==> forall t | t in r.value ::
                        exists i :: 0 <= i < |cands| && cands[i] == t && Passes(ranks, |cands|, i, topN)
  {
    var half := |ranks| / 2;
    if |ranks| - half != half || half != |cands| then Err(RankShapeMismatch)
    else
      var keep := AcceptMask(ranks, half, topN);
      MaskIsSubsequence(cands, keep);
      Ok(Mask(cands, keep))
  }

  /** On a duplicate-free batch, acceptance is exactly the rank test. */
  lemma AcceptExactly(cands: seq<Triple>, ranks: seq<int>, topN: int, i: nat)
    requires Distinct(cands)
    requires |ranks| == 2 * |cands|
    requires i < |cands|
    ensures cands[i] in AcceptCandidates(cands, ranks, topN).value <==>
              Passes(ranks, |cands|, i, topN)
  {
    var r := AcceptCandidates(cands, ranks, topN).value;
    var n := |cands|;
    if cands[i] in r {
      var j :| 0 <= j < n && cands[j] == cands[i] && Passes(ranks, n, j, topN);
      assert j == i;
    }
  }

  /** Averaged ranks of exactly `top_n - 1` accept nothing; of exactly
      `top_n`, everything. */
  lemma AcceptThreshold(cands: seq<Triple>, ranks: seq<int>, topN: int)
    requires |ranks| == 2 * |cands|
    ensures (forall i | 0 <= i < |cands| :: ranks[i] + ranks[|cands| + i] == 2 * (topN - 1)) ==>
              AcceptCandidates(cands, ranks, topN) == Ok([])
    ensures (forall i | 0 <= i < |cands| :: ranks[i] + ranks[|cands| + i] == 2 * topN) ==>
              AcceptCandidates(cands, ranks, topN) == Ok(cands)
  {
    var n := |cands|;
    var keep := AcceptMask(ranks, n, topN);
    if forall i | 0 <= i < n :: ranks[i] + ranks[n + i] == 2 * (topN - 1) {
      forall i | 0 <= i < n ensures !keep[i] {
        MeanRankIsIntegerTest(ranks[i], ranks[n + i], topN);
      }
      MaskNoneKept(cands, keep);
    }
    if forall i | 0 <= i < n :: ranks[i] + ranks[n + i] == 2 * topN {
      forall i | 0 <= i < n ensures keep[i] {
        MeanRankIsIntegerTest(ranks[i], ranks[n + i], topN);
      }
      MaskAllKept(cands, keep);
    }
  }

  // ---------------------------------------------------------------------------
  // Acceptance as documented: within the top `top_n` ranks

  /** The mean of the subject-side and object-side ranks is at most `top_n`:
      the candidate ranks within the top `top_n`. */
  predicate MeanRankAtMost(sRank: int, oRank: int, topN: int) {
    (sRank as real + oRank as real) / 2.0 <= topN as real
  }

  /** Candidate i of a batch of n ranks within the top `top_n`: its two ranks
      sum to at most `2 * top_n`. */
  predicate PassesWithin(ranks: seq<int>, n: nat, i: nat, topN: int) {
    |ranks| == 2 * n && i < n && ranks[i] + ranks[n + i] <= 2 * topN
  }

  /** `avg_ranks <= top_n` over the two halves of the rank vector. */
  function WithinMask(ranks: seq<int>, n: nat, topN: int): (m: seq<bool>)
    requires |ranks| == 2 * n
    ensures |m| == n
    ensures forall i | 0 <= i < n :: m[i] <==> PassesWithin(ranks, n, i, topN)
  {
    seq(n, i requires 0 <= i < n => MeanRankAtMost(ranks[i], ranks[n + i], topN))
  }

  /** Acceptance as the documentation of `discover_facts` describes it:
      candidate i is kept iff its averaged rank is within the top `top_n`.
      The rank-vector shape is checked as in `AcceptCandidates`. */
  function AcceptWithinTopN(cands: seq<Triple>, ranks: seq<int>, topN: int): (r: Result<seq<Triple>>)
    ensures r.Ok? <==> |ranks| == 2 * |cands|
    ensures r.Err? ==> r.error == RankShapeMismatch
    ensures r.Ok? ==> IsSubsequence(r.value, cands)
    ensures r.Ok? ==> forall i | 0 <= i < |cands| && PassesWithin(ranks, |cands|, i, topN) :: cands[i] in r.value
    ensures r.Ok? ==> forall t | t in r.value ::
                        exists i :: 0 <= i < |cands| && cands[i] == t && PassesWithin(ranks, |cands|, i, topN)
  {
    var half := |ranks| / 2;
    if |ranks| - half != half || half != |cands| then Err(RankShapeMismatch)
    else
      var keep := WithinMask(ranks, half, topN);
      MaskIsSubsequence(cands, keep);
      Ok(Mask(cands, keep))
  }

  /** On a duplicate-free batch, the documented acceptance is exactly the
      within-top-`top_n` test. */
  lemma AcceptWithinTopNExactly(cands: seq<Triple>, ranks: seq<int>, topN: int, i: nat)
    requires Distinct(cands)
    requires |ranks| == 2 * |cands|
    requires i < |cands|
    ensures cands[i] in AcceptWithinTopN(cands, ranks, topN).value <==>
              PassesWithin(ranks, |cands|, i, topN)
  {
    var r := AcceptWithinTopN(cands, ranks, topN).value;
    var n := |cands|;
    if cands[i] in r {
      var j :| 0 <= j < n && cands[j] == cands[i] && PassesWithin(ranks, n, j, topN);
      assert j == i;
    }
  }

  /** The two rules disagree on every candidate whose averaged rank is not
      `top_n` itself: a candidate ranked first on both sides (the strongest
      possible prediction) is dropped by the rule as written and kept by the
      documented one whenever `top_n > 1`, and a candidate ranked below
      `top_n` is kept by the first and dropped by the second. */
  lemma AcceptRuleInverted(cands: seq<Triple>, ranks: seq<int>, topN: int, i: nat)
    requires Distinct(cands)
    requires |ranks| == 2 * |cands|
    requires i < |cands|
    requires ranks[i] + ranks[|cands| + i] != 2 * topN
    ensures cands[i] in AcceptCandidates(cands, ranks, topN).value <==>
              cands[i] !in AcceptWithinTopN(cands, ranks, topN).value
    ensures ranks[i] == 1 && ranks[|cands| + i] == 1 && topN > 1 ==>
              cands[i] !in AcceptCandidates(cands, ranks, topN).value &&
              cands[i] in AcceptWithinTopN(cands, ranks, topN).value
  {
    AcceptExactly(cands, ranks, topN, i);
    AcceptWithinTopNExactly(cands, ranks, topN, i);
  }

  // ---------------------------------------------------------------------------
  // The discovery loop

  /** The relations to process: every model relation, or just the target. */
  function RelationList(model: ModelView, target: Option<int>): (rels: seq<int>)
    ensures target.None? ==> rels == model.relations
    ensures target.None? ==> forall rel :: rel in rels <==> rel in model.relations
    ensures target.Some? ==> rels == [target.value]
    ensures target.Some? || Distinct(model.relations) ==> Distinct(rels)
  {
    match target
    case None => model.relations
    case Some(rel) => [rel]
  }

  /** `t` is candidate j of the batch `cands` and passes the rank test on the
      batch's rank vector `ranks`. */
  ghost predicate PassesIn(t: Triple, cands: seq<Triple>, ranks: seq<int>, topN: int) {
    exists j :: 0 <= j < |cands| && cands[j] == t && Passes(ranks, |cands|, j, topN)
  }

  /** `t` passes the rank test in some batch of `batches`, each batch ranked
      by `evaluate` with X as the filter. */
  ghost predicate AcceptedIn(t: Triple, batches: seq<seq<Triple>>, x: seq<Triple>, topN: int, evaluate: Evaluator) {
    exists i :: 0 <= i < |batches| && PassesIn(t, batches[i], evaluate(batches[i], x), topN)
  }

  lemma AcceptedInCons(t: Triple, batches: seq<seq<Triple>>, x: seq<Triple>, topN: int, evaluate: Evaluator)
    requires |batches| > 0
    ensures AcceptedIn(t, batches, x, topN, evaluate) <==>
              PassesIn(t, batches[0], evaluate(batches[0], x), topN) || AcceptedIn(t, batches[1..], x, topN, evaluate)
  {
    if AcceptedIn(t, batches, x, topN, evaluate) {
      var i :| 0 <= i < |batches| && PassesIn(t, batches[i], evaluate(batches[i], x), topN);
      if i > 0 {
        assert batches[1..][i - 1] == batches[i];
      }
    }
    if AcceptedIn(t, batches[1..], x, topN, evaluate) {
      var i :| 0 <= i < |batches[1..]| && PassesIn(t, batches[1..][i], evaluate(batches[1..][i], x), topN);
      assert batches[1..][i] == batches[i + 1];
    }
  }

  /** Evaluate and filter every batch of one relation, in batch order. */
  function AcceptBatches(batches: seq<seq<Triple>>, x: seq<Triple>, topN: int, evaluate: Evaluator)
    : (r: Result<seq<seq<Triple>>>)
    ensures r.Ok? <==> forall i | 0 <= i < |batches| :: |evaluate(batches[i], x)| == 2 * |batches[i]|
    ensures r.Err? ==> r.error == RankShapeMismatch
    ensures r.Ok? ==> |r.value| == |batches|
    ensures r.Ok? ==> forall i | 0 <= i < |batches| :: IsSubsequence(r.value[i], batches[i])
    ensures r.Ok? ==> forall i | 0 <= i < |batches| ::
                        AcceptCandidates(batches[i], evaluate(batches[i], x), topN) == Ok(r.value[i])
    ensures r.Ok? ==> forall t :: t in Flatten(r.value) <==> AcceptedIn(t, batches, x, topN, evaluate)
    decreases |batches|
  {
    if |batches| == 0 then Ok([])
    else
      var first :- AcceptCandidates(batches[0], evaluate(batches[0], x), topN);
      var rest :- AcceptBatches(batches[1..], x, topN, evaluate);
      assert forall i | 1 <= i < |batches| :: batches[1..][i - 1] == batches[i];
      var all := [first] + rest;
      assert all[1..] == rest;
      assert Flatten(all) == first + Flatten(rest);
      assert forall t :: t in first <==> PassesIn(t, batches[0], evaluate(batches[0], x), topN);
      assert forall t :: t in Flatten(all) <==> AcceptedIn(t, batches, x, topN, evaluate) by {
        forall t ensures t in Flatten(all) <==> AcceptedIn(t, batches, x, topN, evaluate) {
          AcceptedInCons(t, batches, x, topN, evaluate);
        }
      }
      Ok(all)
  }

  /** Candidate generation for `rel` succeeds, and the evaluator returns a rank
      vector of two aligned halves for each of its batches. */
  ghost predicate RelationSucceeds(rel: int, xf: seq<Triple>, x: seq<Triple>, name: string,
                                   mc: MaxCandidates, seed: int, rng: Rng, evaluate: Evaluator)
    requires ValidRng(rng)
  {
    var gen := Generate(xf, name, rel, mc, false, seed, rng, NoMetric);
    gen.Ok? && forall i | 0 <= i < |gen.value.batches| ::
                 |evaluate(gen.value.batches[i], x)| == 2 * |gen.value.batches[i]|
  }

  /** `t` is a candidate generated for `rel` that passes the rank test. */
  ghost predicate DiscoveredFor(t: Triple, rel: int, xf: seq<Triple>, x: seq<Triple>, topN: int, name: string,
                                mc: MaxCandidates, seed: int, rng: Rng, evaluate: Evaluator)
    requires ValidRng(rng)
  {
    var gen := Generate(xf, name, rel, mc, false, seed, rng, NoMetric);
    gen.Ok? && AcceptedIn(t, gen.value.batches, x, topN, evaluate)
  }

  /** The exception a failing relation raises: generation's own error, or
      else the rank-shape error of a batch. */
  ghost function RelationError(rel: int, xf: seq<Triple>, name: string, mc: MaxCandidates, seed: int, rng: Rng)
    : Error
    requires ValidRng(rng)
  {
    var gen := Generate(xf, name, rel, mc, false, seed, rng, NoMetric);
    if gen.Err? then gen.error else RankShapeMismatch
  }

  /** Whether each relation of `rels` succeeds, in the order of `rels`. */
  ghost function Outcomes(rels: seq<int>, xf: seq<Triple>, x: seq<Triple>, name: string,
                          mc: MaxCandidates, seed: int, rng: Rng, evaluate: Evaluator): (oks: seq<bool>)
    requires ValidRng(rng)
    ensures |oks| == |rels|
    decreases |rels|
  {
    if |rels| == 0 then []
    else [RelationSucceeds(rels[0], xf, x, name, mc, seed, rng, evaluate)] +
         Outcomes(rels[1..], xf, x, name, mc, seed, rng, evaluate)
  }

  /** Outcome k is whether relation `rels[k]` succeeds. */
  lemma {:induction false} OutcomeOf(rels: seq<int>, k: nat, xf: seq<Triple>, x: seq<Triple>, name: string,
                                     mc: MaxCandidates, seed: int, rng: Rng, evaluate: Evaluator)
    requires ValidRng(rng)
    requires k < |rels|
    ensures Outcomes(rels, xf, x, name, mc, seed, rng, evaluate)[k] ==
            RelationSucceeds(rels[k], xf, x, name, mc, seed, rng, evaluate)
    decreases k
  {
    if k > 0 {
      OutcomeOf(rels[1..], k - 1, xf, x, name, mc, seed, rng, evaluate);
      assert rels[1..][k - 1] == rels[k];
    }
  }

  /** `rels[i]` is the first relation of `rels` that fails: every earlier one
      succeeds. */
  ghost predicate FirstFailureAt(i: int, rels: seq<int>, xf: seq<Triple>, x: seq<Triple>, name: string,
                                 mc: MaxCandidates, seed: int, rng: Rng, evaluate: Evaluator)
    requires ValidRng(rng)
  {
    FirstFalseAt(i, Outcomes(rels, xf, x, name, mc, seed, rng, evaluate))
  }

  /** The accepted batches of `rel`, in the order generation yields them
      (empty when generation or ranking fails for it). */
  ghost function AcceptedFor(rel: int, xf: seq<Triple>, x: seq<Triple>, topN: int, name: string,
                             mc: MaxCandidates, seed: int, rng: Rng, evaluate: Evaluator): seq<seq<Triple>>
    requires ValidRng(rng)
  {
    var gen := Generate(xf, name, rel, mc, false, seed, rng, NoMetric);
    if gen.Err? then []
    else
      var acc := AcceptBatches(gen.value.batches, x, topN, evaluate);
      if acc.Err? then [] else acc.value
  }

  /** The accepted batches of each relation of `rels`, one list per relation,
      in the order of `rels`. */
  ghost function AcceptedByRelation(rels: seq<int>, xf: seq<Triple>, x: seq<Triple>, topN: int, name: string,
                                    mc: MaxCandidates, seed: int, rng: Rng, evaluate: Evaluator)
    : (r: seq<seq<seq<Triple>>>)
    requires ValidRng(rng)
    ensures |r| == |rels|
    decreases |rels|
  {
    if |rels| == 0 then []
    else
      [AcceptedFor(rels[0], xf, x, topN, name, mc, seed, rng, evaluate)]
        + AcceptedByRelation(rels[1..], xf, x, topN, name, mc, seed, rng, evaluate)
  }

  /** One pass of the relation loop of `discover_facts`: generate the
      candidates of `rel`, rank them batch by batch and keep those that pass. */
  function DiscoverRelation(rel: int, xf: seq<Triple>, x: seq<Triple>, topN: int, name: string,
                            mc: MaxCandidates, seed: int, rng: Rng, evaluate: Evaluator)
    : (r: Result<seq<seq<Triple>>>)
    requires ValidRng(rng)
    ensures r.Ok? <==> RelationSucceeds(rel, xf, x, name, mc, seed, rng, evaluate)
    ensures r.Err? ==> r.error == RelationError(rel, xf, name, mc, seed, rng)
    ensures r.Ok? ==> r.value == AcceptedFor(rel, xf, x, topN, name, mc, seed, rng, evaluate)
    ensures r.Ok? ==> forall b, t | b in r.value && t in b :: t.p == rel && t.s != t.o && t !in xf
    ensures r.Ok? ==> forall t :: t in Flatten(r.value) <==> DiscoveredFor(t, rel, xf, x, topN, name, mc, seed, rng, evaluate)
    ensures r.Ok? ==> Distinct(Flatten(r.value))
  {
    var gen :- Generate(xf, name, rel, mc, false, seed, rng, NoMetric);
    var accepted :- AcceptBatches(gen.batches, x, topN, evaluate);
    AcceptedSound(gen.batches, accepted, rel, xf);
    AcceptedDistinct(gen.batches, accepted, x, topN, evaluate);
    Ok(accepted)
  }

  /** The accepted batches of every relation in `rels`, relation by relation. */
  function DiscoverRelations(rels: seq<int>, xf: seq<Triple>, x: seq<Triple>, topN: int, name: string,
                             mc: MaxCandidates, seed: int, rng: Rng, evaluate: Evaluator)
    : (r: Result<seq<seq<Triple>>>)
    requires ValidRng(rng)
    ensures r.Ok? <==> forall rel | rel in rels :: RelationSucceeds(rel, xf, x, name, mc, seed, rng, evaluate)
    ensures r.Ok? ==> forall b, t | b in r.value && t in b :: t.p in rels && t.s != t.o && t !in xf
    ensures r.Ok? ==> forall t :: t in Flatten(r.value) <==>
                        exists rel :: rel in rels && DiscoveredFor(t, rel, xf, x, topN, name, mc, seed, rng, evaluate)
    decreases |rels|
  {
    if |rels| == 0 then Ok([])
    else
      RelationsCons(rels, xf, x, name, mc, seed, rng, evaluate);
      var accepted :- DiscoverRelation(rels[0], xf, x, topN, name, mc, seed, rng, evaluate);
      var rest :- DiscoverRelations(rels[1..], xf, x, topN, name, mc, seed, rng, evaluate);
      FlattenAppend(accepted, rest);
      DiscoveredInCons(rels, xf, x, topN, name, mc, seed, rng, evaluate, Flatten(accepted), Flatten(rest));
      Ok(accepted + rest)
  }

  /** The discovered batches come relation by relation in the order of
      `rels`, and repeat no triple when `rels` repeats no relation. */
  lemma {:induction false} DiscoverRelationsInOrder(rels: seq<int>, xf: seq<Triple>, x: seq<Triple>, topN: int,
                                                    name: string, mc: MaxCandidates, seed: int, rng: Rng,
                                                    evaluate: Evaluator)
    requires ValidRng(rng)
    ensures var r := DiscoverRelations(rels, xf, x, topN, name, mc, seed, rng, evaluate);
            r.Ok? ==> r.value == Flatten(AcceptedByRelation(rels, xf, x, topN, name, mc, seed, rng, evaluate))
    ensures var r := DiscoverRelations(rels, xf, x, topN, name, mc, seed, rng, evaluate);
            r.Ok? && Distinct(rels) ==> Distinct(Flatten(r.value))
    decreases |rels|
  {
    if |rels| > 0 && DiscoverRelations(rels, xf, x, topN, name, mc, seed, rng, evaluate).Ok? {
      DiscoverRelationsInOrder(rels[1..], xf, x, topN, name, mc, seed, rng, evaluate);
      var accepted := DiscoverRelation(rels[0], xf, x, topN, name, mc, seed, rng, evaluate).value;
      var rest := DiscoverRelations(rels[1..], xf, x, topN, name, mc, seed, rng, evaluate).value;
      JoinDistinct(rels, accepted, rest);
      FlattenCons(accepted, AcceptedByRelation(rels[1..], xf, x, topN, name, mc, seed, rng, evaluate));
    }
  }

  /** A failing loop raises the error of the first relation that fails, in
      the order of `rels`. */
  lemma {:induction false} DiscoverRelationsFirstError(rels: seq<int>, xf: seq<Triple>, x: seq<Triple>, topN: int,
                                                       name: string, mc: MaxCandidates, seed: int, rng: Rng,
                                                       evaluate: Evaluator)
    requires ValidRng(rng)
    ensures var r := DiscoverRelations(rels, xf, x, topN, name, mc, seed, rng, evaluate);
            r.Err? ==> exists i :: FirstFailureAt(i, rels, xf, x, name, mc, seed, rng, evaluate) &&
                                   r.error == RelationError(rels[i], xf, name, mc, seed, rng)
    decreases |rels|
  {
    var r := DiscoverRelations(rels, xf, x, topN, name, mc, seed, rng, evaluate);
    if |rels| > 0 && r.Err? {
      var first := DiscoverRelation(rels[0], xf, x, topN, name, mc, seed, rng, evaluate);
      if first.Err? {
        assert FirstFailureAt(0, rels, xf, x, name, mc, seed, rng, evaluate);
      } else {
        var tail := rels[1..];
        var rest := DiscoverRelations(tail, xf, x, topN, name, mc, seed, rng, evaluate);
        assert rest.Err? && r.error == rest.error;
        DiscoverRelationsFirstError(tail, xf, x, topN, name, mc, seed, rng, evaluate);
        var i :| FirstFailureAt(i, tail, xf, x, name, mc, seed, rng, evaluate) &&
                 rest.error == RelationError(tail[i], xf, name, mc, seed, rng);
        var oks := Outcomes(rels, xf, x, name, mc, seed, rng, evaluate);
        assert oks[1..] == Outcomes(tail, xf, x, name, mc, seed, rng, evaluate);
        FirstFalseAfterTrue(i, oks);
        assert rels[i + 1] == tail[i];
      }
    }
  }

  /** Ranking keeps a subsequence of the generated candidates, in their
      order, so it repeats none of them when generation repeats none. */
  lemma AcceptedDistinct(batches: seq<seq<Triple>>, accepted: seq<seq<Triple>>, x: seq<Triple>, topN: int,
                         evaluate: Evaluator)
    requires AcceptBatches(batches, x, topN, evaluate) == Ok(accepted)
    ensures IsSubsequence(Flatten(accepted), Flatten(batches))
    ensures Distinct(Flatten(batches)) ==> Distinct(Flatten(accepted))
  {
    FlattenSubsequence(accepted, batches);
    if Distinct(Flatten(batches)) {
      SubsequenceOfDistinct(Flatten(accepted), Flatten(batches));
    }
  }

  /** The accepted batches of distinct relations share no triple, since each
      triple carries its relation. */
  lemma JoinDistinct(rels: seq<int>, accepted: seq<seq<Triple>>, rest: seq<seq<Triple>>)
    requires |rels| > 0
    requires Distinct(Flatten(accepted))
    requires Distinct(rels[1..]) ==> Distinct(Flatten(rest))
    requires forall b, t | b in accepted && t in b :: t.p == rels[0]
    requires forall b, t | b in rest && t in b :: t.p in rels[1..]
    ensures Distinct(rels) ==> Distinct(Flatten(accepted + rest))
  {
    if Distinct(rels) {
      var tail := rels[1..];
      assert forall i | 0 <= i < |tail| :: tail[i] == rels[i + 1];
      assert rels[0] !in tail;
      forall t | t in Flatten(accepted) ensures t.p == rels[0] {
        var i :| 0 <= i < |accepted| && t in accepted[i];
        assert accepted[i] in accepted;
      }
      forall t | t in Flatten(rest) ensures t.p in tail {
        var i :| 0 <= i < |rest| && t in rest[i];
        assert rest[i] in rest;
      }
      FlattenAppend(accepted, rest);
      DistinctConcat(Flatten(accepted), Flatten(rest));
    }
  }

  /** Every relation of a nonempty list succeeds iff the first does and every
      relation of the rest does. */
  lemma RelationsCons(rels: seq<int>, xf: seq<Triple>, x: seq<Triple>, name: string,
                      mc: MaxCandidates, seed: int, rng: Rng, evaluate: Evaluator)
    requires ValidRng(rng) && |rels| > 0
    ensures (forall rel | rel in rels :: RelationSucceeds(rel, xf, x, name, mc, seed, rng, evaluate)) <==>
              RelationSucceeds(rels[0], xf, x, name, mc, seed, rng, evaluate) &&
              forall rel | rel in rels[1..] :: RelationSucceeds(rel, xf, x, name, mc, seed, rng, evaluate)
  {
    assert rels[0] in rels && forall rel | rel in rels[1..] :: rel in rels;
    assert forall rel | rel in rels && rel != rels[0] :: rel in rels[1..];
  }

  /** Accepted batches that are subsequences of generated batches keep the
      generated batches' relation, freedom from self-loops, and novelty. */
  lemma AcceptedSound(batches: seq<seq<Triple>>, accepted: seq<seq<Triple>>, rel: int, xf: seq<Triple>)
    requires forall b, t | b in batches && t in b :: t.p == rel && t.s != t.o && t !in xf
    requires |accepted| == |batches|
    requires forall i | 0 <= i < |batches| :: IsSubsequence(accepted[i], batches[i])
    ensures forall b, t | b in accepted && t in b :: t.p == rel && t.s != t.o && t !in xf
  {
    forall b, t | b in accepted && t in b ensures t.p == rel && t.s != t.o && t !in xf {
      var i :| 0 <= i < |accepted| && accepted[i] == b;
      SubsequenceMembers(b, batches[i]);
      assert batches[i] in batches;
    }
  }

  /** The facts of the first relation and of the rest together are the facts
      discovered for some relation of `rels`. */
  lemma DiscoveredInCons(rels: seq<int>, xf: seq<Triple>, x: seq<Triple>, topN: int, name: string,
                         mc: MaxCandidates, seed: int, rng: Rng, evaluate: Evaluator,
                         first: seq<Triple>, rest: seq<Triple>)
    requires ValidRng(rng) && |rels| > 0
    requires forall t :: t in first <==> DiscoveredFor(t, rels[0], xf, x, topN, name, mc, seed, rng, evaluate)
    requires forall t :: t in rest <==>
               exists rel :: rel in rels[1..] && DiscoveredFor(t, rel, xf, x, topN, name, mc, seed, rng, evaluate)
    ensures forall t :: t in first + rest <==>
              exists rel :: rel in rels && DiscoveredFor(t, rel, xf, x, topN, name, mc, seed, rng, evaluate)
  {
    forall t ensures t in first + rest <==>
                       exists rel :: rel in rels && DiscoveredFor(t, rel, xf, x, topN, name, mc, seed, rng, evaluate) {
      if t in first {
        assert rels[0] in rels;
      } else if t in rest {
        var rel :| rel in rels[1..] && DiscoveredFor(t, rel, xf, x, topN, name, mc, seed, rng, evaluate);
        assert rel in rels;
      }
      if exists rel :: rel in rels && DiscoveredFor(t, rel, xf, x, topN, name, mc, seed, rng, evaluate) {
        var rel :| rel in rels && DiscoveredFor(t, rel, xf, x, topN, name, mc, seed, rng, evaluate);
        if rel != rels[0] {
          assert rel in rels[1..];
        }
      }
    }
  }

  /** The accepted candidates of every relation in `rels`, joined row-wise
      into one list of facts. */
  function JoinedFacts(rels: seq<int>, xf: seq<Triple>, x: seq<Triple>, topN: int, name: string,
                       mc: MaxCandidates, seed: int, rng: Rng, evaluate: Evaluator)
    : (r: Result<seq<Triple>>)
    requires ValidRng(rng)
    ensures r.Ok? <==> forall rel | rel in rels :: RelationSucceeds(rel, xf, x, name, mc, seed, rng, evaluate)
    ensures r.Ok? ==> forall t :: t in r.value <==>
                        exists rel :: rel in rels && DiscoveredFor(t, rel, xf, x, topN, name, mc, seed, rng, evaluate)
    ensures r.Ok? ==> forall t | t in r.value :: t.p in rels && t.s != t.o && t !in xf
    ensures r.Ok? ==> r.value == Flatten(Flatten(AcceptedByRelation(rels, xf, x, topN, name, mc, seed, rng, evaluate)))
    ensures r.Ok? && Distinct(rels) ==> Distinct(r.value)
    ensures r.Err? ==> exists i :: FirstFailureAt(i, rels, xf, x, name, mc, seed, rng, evaluate) &&
                                   r.error == RelationError(rels[i], xf, name, mc, seed, rng)
  {
    DiscoverRelationsFirstError(rels, xf, x, topN, name, mc, seed, rng, evaluate);
    var discoveries :- DiscoverRelations(rels, xf, x, topN, name, mc, seed, rng, evaluate);
    DiscoverRelationsInOrder(rels, xf, x, topN, name, mc, seed, rng, evaluate);
    JoinedFactsSound(discoveries, rels, xf);
    Ok(Flatten(discoveries))
  }

  /** What `discover_facts` returns: the discovered facts, and whether it
      warned that the model might not be fitted on X. */
  datatype Discovery = Discovery(facts: seq<Triple>, mightNotBeFittedOnX: bool)

  /** `discover_facts(X, model, top_n, strategy, max_candidates, target_rel,
      seed)`, with the accepted candidates of all relations joined row-wise. */
  function DiscoverFacts(x: seq<Triple>, model: ModelView, topN: int, name: string, mc: MaxCandidates,
                         target: Option<int>, seed: int, rng: Rng,
                         unseen: UnseenFilter, evaluate: Evaluator)
    : (r: Result<Discovery>)
    requires ValidRng(rng)
    ensures !model.isFitted ==> r == Err(ModelNotFitted)
    ensures model.isFitted && name !in DiscoveryStrategies ==> r == Err(InvalidStrategy(name))
    ensures model.isFitted && name in DiscoveryStrategies && target.Some? && target.value !in model.relations ==>
              r == Err(UnknownRelation(target.value))
    ensures r.Ok? <==> (model.isFitted && name in DiscoveryStrategies &&
                        (target.None? || target.value in model.relations) &&
                        forall rel | rel in RelationList(model, target) ::
                          RelationSucceeds(rel, unseen(x), x, name, mc, seed, rng, evaluate))
    ensures r.Ok? ==> r.value.mightNotBeFittedOnX == !model.fittedOnX
    ensures r.Ok? ==> forall t :: t in r.value.facts <==>
                        exists rel :: rel in RelationList(model, target) &&
                          DiscoveredFor(t, rel, unseen(x), x, topN, name, mc, seed, rng, evaluate)
    ensures r.Ok? ==> forall t | t in r.value.facts :: t.s != t.o && t !in unseen(x)
    ensures r.Ok? && target.None? ==> forall t | t in r.value.facts :: t.p in model.relations
    ensures r.Ok? && target.Some? ==> forall t | t in r.value.facts :: t.p == target.value
    ensures r.Ok? ==> r.value.facts == Flatten(Flatten(AcceptedByRelation(RelationList(model, target), unseen(x), x,
                                                                          topN, name, mc, seed, rng, evaluate)))
    ensures r.Ok? && (target.Some? || Distinct(model.relations)) ==> Distinct(r.value.facts)
    ensures model.isFitted && name in DiscoveryStrategies && (target.None? || target.value in model.relations) &&
            r.Err? ==>
              var rels := RelationList(model, target);
              exists i :: FirstFailureAt(i, rels, unseen(x), x, name, mc, seed, rng, evaluate) &&
                          r.error == RelationError(rels[i], unseen(x), name, mc, seed, rng)
  {
    if !model.isFitted then Err(ModelNotFitted)
    else if name !in DiscoveryStrategies then Err(InvalidStrategy(name))
    else if target.Some? && target.value !in model.relations then Err(UnknownRelation(target.value))
    else
      var facts :- JoinedFacts(RelationList(model, target), unseen(x), x, topN, name, mc, seed, rng, evaluate);
      Ok(Discovery(facts, !model.fittedOnX))
  }

  /** Exhaustive discovery on a fitted model with a known target (or none)
      succeeds whenever `max_candidates` resolves and the evaluator ranks
      every batch on both sides. */
  lemma ExhaustiveDiscoverySucceeds(x: seq<Triple>, model: ModelView, topN: int, mc: MaxCandidates,
                                    target: Option<int>, seed: int, rng: Rng,
                                    unseen: UnseenFilter, evaluate: Evaluator)
    requires ValidRng(rng)
    requires model.isFitted
    requires target.None? || target.value in model.relations
    requires ResolveCap(mc, |unseen(x)|).Ok?
    requires forall b :: |evaluate(b, x)| == 2 * |b|
    ensures DiscoverFacts(x, model, topN, "exhaustive", mc, target, seed, rng, unseen, evaluate).Ok?
  {
    forall rel | rel in RelationList(model, target)
      ensures RelationSucceeds(rel, unseen(x), x, "exhaustive", mc, seed, rng, evaluate)
    {
      var gen := Generate(unseen(x), "exhaustive", rel, mc, false, seed, rng, NoMetric);
      assert gen.Ok?;
    }
  }

  lemma JoinedFactsSound(discoveries: seq<seq<Triple>>, rels: seq<int>, xf: seq<Triple>)
    requires forall b, t | b in discoveries && t in b :: t.p in rels && t.s != t.o && t !in xf
    ensures forall t | t in Flatten(discoveries) :: t.p in rels && t.s != t.o && t !in xf
  {
    forall t | t in Flatten(discoveries) ensures t.p in rels && t.s != t.o && t !in xf {
      var i :| 0 <= i < |discoveries| && t in discoveries[i];
      assert discoveries[i] in discoveries;
    }
  }

  // ---------------------------------------------------------------------------
  // np.hstack at the end of discover_facts, as written

  /** The flattened row `[s, p, o]` of a triple. */
  function Row(t: Triple): seq<int> {
    [t.s, t.p, t.o]
  }

  /** Row k of `np.hstack` over batches: row k of every batch, side by side. */
  function RowAcross(bs: seq<seq<Triple>>, k: nat): (row: seq<int>)
    requires forall i | 0 <= i < |bs| :: k < |bs[i]|
    ensures |row| == 3 * |bs|
    decreases |bs|
  {
    if |bs| == 0 then [] else Row(bs[0][k]) + RowAcross(bs[1..], k)
  }

  /** `np.hstack(discoveries)` on a list of [k, 3] arrays: it joins them along
      columns, so it fails on an empty list or on batches of different
      lengths, and otherwise returns rows 3 * (number of batches) wide. */
  function HStack(bs: seq<seq<Triple>>): (r: Result<seq<seq<int>>>)
    ensures r.Err? <==> |bs| == 0 || exists i :: 0 <= i < |bs| && |bs[i]| != |bs[0]|
    ensures r.Ok? ==> |r.value| == |bs[0]|
    ensures r.Ok? ==> forall row | row in r.value :: |row| == 3 * |bs|
  {
    if |bs| == 0 then Err(NothingToStack)
    else if exists i :: 0 <= i < |bs| && |bs[i]| != |bs[0]| then Err(StackRowMismatch)
    else Ok(seq(|bs[0]|, k requires 0 <= k < |bs[0]| => RowAcross(bs, k)))
  }

  /** Two relations whose accepted batches hold one and two triples: `np.hstack`
      fails, where the row-wise join returns the three triples. Two batches of
      one triple each are glued into a single six-column row instead of two
      triples. */
  lemma HStackMisjoinsBatches(t1: Triple, t2: Triple, t3: Triple)
    ensures HStack([[t1], [t2, t3]]) == Err(StackRowMismatch)
    ensures Flatten([[t1], [t2, t3]]) == [t1, t2, t3]
    ensures HStack([[t1], [t2]]) == Ok([[t1.s, t1.p, t1.o, t2.s, t2.p, t2.o]])
    ensures Flatten([[t1], [t2]]) == [t1, t2]
  {
    var bs := [[t1], [t2, t3]];
    assert |bs[1]| != |bs[0]|;
    assert bs[1..] == [[t2, t3]] && bs[1..][1..] == [];
    assert Flatten(bs) == [t1] + Flatten(bs[1..]);
    assert Flatten(bs[1..]) == [t2, t3] + Flatten(bs[1..][1..]);
    var cs := [[t1], [t2]];
    assert cs[1..] == [[t2]] && cs[1..][1..] == [];
    assert Flatten(cs) == [t1] + Flatten(cs[1..]);
    assert Flatten(cs[1..]) == [t2] + Flatten(cs[1..][1..]);
    assert !(exists i :: 0 <= i < |cs| && |cs[i]| != |cs[0]|);
    assert RowAcross(cs, 0) == Row(t1) + RowAcross(cs[1..], 0);
    assert RowAcross(cs[1..], 0) == Row(t2) + RowAcross(cs[1..][1..], 0);
    assert HStack(cs).Ok?;
    var v := HStack(cs).value;
    assert |v| == 1 && v[0] == RowAcross(cs, 0);
    assert RowAcross(cs[1..][1..], 0) == [];
    assert RowAcross(cs, 0) == [t1.s, t1.p, t1.o, t2.s, t2.p, t2.o];
    assert v == [v[0]];
  }

  /** The row-wise join keeps every accepted triple, one row per accepted
      row, and adds nothing. */
  lemma FlattenKeepsDiscoveries(bs: seq<seq<Triple>>)
    ensures |Flatten(bs)| == TotalLength(bs)
    ensures forall t :: t in Flatten(bs) <==> exists i :: 0 <= i < |bs| && t in bs[i]
  {
  }
}
