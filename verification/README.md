# Fact discovery in AmpliGraph, modelled in Dafny

AmpliGraph's discovery module proposes new statements for a knowledge graph and keeps the ones a trained embedding model finds plausible. This project models its core, `ampligraph/discovery/discovery.py`, and proves properties of that model. The core has four parts:

- **`_setdiff2d`**: the row set-difference of two 2-D arrays. The source computes it with a broadcast comparison followed by a cumulative-sum trick.
- **`_filter_candidates`**: drops candidate statements already in the graph, then drops self-loops `(e, r, e)`.
- **`generate_candidates`**: checks the strategy name and `max_candidates`. It then builds the subject and object entity pools and yields batches of candidate statements for one target relation. There are seven strategies:
  - `exhaustive` gives one batch per subject entity.
  - `random_uniform` gives one sampled batch.
  - `entity_frequency` gives one batch sampled from the least frequent entities.
  - Four graph-metric strategies give one batch sampled from the lowest-scoring entities.
- **`discover_facts`**: checks the model, strategy and target relation. For each relation it generates candidates and has each batch ranked. It accepts a candidate when the mean of its subject-side and object-side ranks is at least `top_n`, then joins what was accepted.

## Modules

| file | module | contents |
|---|---|---|
| `triples.dfy` | `Triples` | `Triple`, the `Error` constructors for the source's exceptions, `Option`, `Result`, the subject and object columns |
| `sequences.dfy` | `Sequences` | duplicate-freedom, subsequences, boolean-mask selection (numpy boolean indexing), `np.unique` as a sorted duplicate-free sequence, an ascending sort by score, row-wise concatenation |
| `setdiff.dfy` | `SetDiff` | `_setdiff2d`, one function per numpy intermediate, and the proof of what the cumulative-sum mask computes |
| `candidates.dfy` | `Candidates` | `_filter_candidates` and `generate_candidates` with all seven strategies |
| `discovery.dfy` | `Discovery` | `discover_facts`: validation, the acceptance rule, the loop over relations, and the final join |
| `walkthrough.dfy` | `Walkthrough` | the eight-statement graph of the docstrings, worked through the `exhaustive` strategy by proof |

Modelling choices:

- **Identifiers** are integers. `np.unique` orders them numerically.
- **The lazy generator** is the finite list of batches it yields. If the first pull raises, the whole call is an `Err`.
- **Each exception** is one `Error` constructor. Every function that can raise returns a `Result`.
- **`max_candidates`** is `Count(n)` for a Python int, `Fraction(num, den)` for a float (an exact rational), or `NotANumber` for anything else.
- **External values** become parameters:
  - the graph-metric scores (a `MetricFn`);
  - the numpy random generator (an `Rng`, which maps a seed to a state and draws k distinct positions out of n);
  - the evaluator, which maps a batch and the graph to a rank vector;
  - `filter_unseen_entities`.
- **The final join:** `Discovery.DiscoverFacts` joins the accepted statements row-wise with `Sequences.Flatten`, not with `np.hstack` as the source does (see Findings). The contract of `Sequences.Flatten` says the join contains exactly the statements of the batches.

## Model

| member | source | states |
|---|---|---|
| `SetDiff.SetDiff2D` | ampligraph/discovery/discovery.py:350-371 | Fails with `NotTwoDimensional` exactly when either input is not 2-D. Otherwise the result is a subsequence of A's rows. A row of B survives only if A holds it at least twice. |
| `SetDiff.SetDiffRows` | ampligraph/discovery/discovery.py:370-371 | The mask selection keeps A's order (the result is a subsequence of A). A row equal to a row of B survives only when an earlier copy of it exists in A. |
| `SetDiff.Tmp` | ampligraph/discovery/discovery.py:370 | `tmp[i, j]` is 0 or 1, and is 1 iff row i of A equals row j of B. |
| `SetDiff.TmpIsColumnProduct` | ampligraph/discovery/discovery.py:370 | `tmp[i, j]` is the product, over the three columns, of the element-wise equalities between row i of A and row j of B. This is what `np.prod(swapaxes(A[:, :, None], 1, 2) == B, axis=2)` computes. |
| `SetDiff.ColumnProductIsEquality` | ampligraph/discovery/discovery.py:370 | For two rows of equal length, the product of their column-wise equalities is 1 if the rows are equal and 0 otherwise. |
| `SetDiff.CumSum` | ampligraph/discovery/discovery.py:371 | The cumulative column sum at row i counts matches among rows 0..i, so it lies in [0, i + 1] and is at least 1 when row i matches. |
| `SetDiff.FirstHits` | ampligraph/discovery/discovery.py:371 | The row sum of `cumsum * tmp == 1` is at most the number of columns, and 0 for a row of A that repeats an earlier row. |
| `SetDiff.KeepMask` | ampligraph/discovery/discovery.py:371 | The negated boolean row sum is a mask with one entry per row of A. |
| `SetDiff.KeepMaskMeaning` | ampligraph/discovery/discovery.py:370-371 | The `~sum(cumsum(tmp) * tmp == 1)` mask keeps row i iff row i is not in B, or an equal row occurs earlier in A. |
| `SetDiff.CumSumZero` | ampligraph/discovery/discovery.py:371 | The running column sum of `tmp` is zero iff no row of A up to i equals B[j]. |
| `SetDiff.FirstHitHere` | ampligraph/discovery/discovery.py:371 | An entry of `cumsum * tmp` equals 1 iff that row of A equals B[j] and is its first occurrence in A. |
| `SetDiff.SetDiffOfDistinct` | ampligraph/discovery/discovery.py:350-371 | On duplicate-free A, the result equals the independent filter `Without(A, B)`: A's rows not in B, in A's order. Both directions of membership hold. |
| `SetDiff.SetDiffDisjoint` | ampligraph/discovery/discovery.py:363-371 | If no row of A is in B, the result is A, duplicates included. |
| `SetDiff.SetDiffCovered` | ampligraph/discovery/discovery.py:363-371 | On duplicate-free A with every row in B (A == B in particular), the result is empty. |
| `SetDiff.SetDiffKeepsSecondCopy` | ampligraph/discovery/discovery.py:371 | `_setdiff2d([t, t], [t]) == [t]`: with duplicates in A, the later copy of a row of B survives. |
| `Candidates.NotSelfLoop` | ampligraph/discovery/discovery.py:267 | The mask has one entry per candidate, true iff that candidate's subject differs from its object. |
| `Candidates.NotSelfLoopSelects` | ampligraph/discovery/discovery.py:267 | Selecting with the mask gives a subsequence of the candidates (their order is kept). It holds t iff t is a candidate whose subject differs from its object. |
| `Candidates.FilterCandidates` | ampligraph/discovery/discovery.py:261-268 | The output is a subsequence of the candidates and contains no self-loop. A statement of X survives only if the candidates repeat it. |
| `Candidates.FilterCandidatesOfDistinct` | ampligraph/discovery/discovery.py:261-268 | On duplicate-free candidates, t is kept iff t is a candidate, t is not in X and t is not a self-loop. The output is duplicate-free. |
| `Candidates.FilterIdempotent` | ampligraph/discovery/discovery.py:309-312 | Filtering duplicate-free candidates twice gives the same result as filtering once. |
| `Candidates.FilterKeepsClean` | ampligraph/discovery/discovery.py:309-312 | Candidates with no statement of X and no self-loop pass through unchanged. |
| `Candidates.FilterNotIdempotentOnRepeats` | ampligraph/discovery/discovery.py:261-268 | With a repeated candidate that is in X, the first filtering keeps one copy and the second removes it. |
| `Candidates.ParseStrategy` | ampligraph/discovery/discovery.py:223-227 | A name is accepted iff it is one of the seven strategy names, and the parsed strategy has that name. Any other name is `InvalidStrategy(name)`. |
| `Candidates.ParseStrategyName` | ampligraph/discovery/discovery.py:223-227 | Every strategy parses back from its own name. |
| `Candidates.ResolveCap` | ampligraph/discovery/discovery.py:234-246 | Other types give `InvalidMaxCandidatesType`. A value <= 0 gives `NonPositiveMaxCandidates`. An int is the cap itself. A float num/den gives the cap k with k·den <= num·\|X\| < (k+1)·den, i.e. `int(max_candidates * len(X))`. |
| `Candidates.ISqrt` | ampligraph/discovery/discovery.py:287 | The sample size `int(np.sqrt(n))` is the k with k² <= n < (k+1)². |
| `Candidates.Entities` | ampligraph/discovery/discovery.py:253 | The consolidated pool is strictly increasing and holds e iff e is a subject or an object of X. |
| `Candidates.EntityPools` | ampligraph/discovery/discovery.py:252-257 | Both pools are strictly increasing. Unconsolidated: the subject pool is exactly the subjects of X and the object pool exactly the objects. Consolidated: both pools are exactly the entities on either side. |
| `Sequences.SortedUnique` | ampligraph/discovery/discovery.py:256-257 | `np.unique` is strictly increasing and has exactly the members of its input. |
| `Sequences.StrictlyIncreasingUnique` | ampligraph/discovery/discovery.py:256-257 | Two strictly increasing sequences with the same members are equal, so the pools are determined by their members. |
| `Candidates.Grid` | ampligraph/discovery/discovery.py:277 | The meshgrid reshape holds \|ss\|·\|os\| rows. It contains (s, rel, o) iff s is in ss and o is in os. It is duplicate-free when both inputs are. |
| `Candidates.ExhaustiveBatches` | ampligraph/discovery/discovery.py:270-281 | There is one batch per subject of the pool. Each batch's statements have that subject, the target relation, an object from the pool, and are not self-loops. |
| `Candidates.ExhaustiveBatchContents` | ampligraph/discovery/discovery.py:275-281 | A subject's batch contains t iff t has that subject, the target relation, an object from the pool, is not a self-loop and is not in X. The batch is duplicate-free. |
| `Candidates.ExhaustiveCoverage` | ampligraph/discovery/discovery.py:270-281 | All batches together contain t iff t has a subject from the subject pool, the target relation and an object from the object pool, is not a self-loop, and is not in X. |
| `Candidates.ExhaustiveBatchesNovel` | ampligraph/discovery/discovery.py:270-281 | Every exhaustive batch is duplicate-free and contains no statement of X. |
| `Candidates.ExhaustiveBatchesDisjoint` | ampligraph/discovery/discovery.py:270-281 | With duplicate-free pools, no statement occurs twice across all exhaustive batches together: batches of different subjects share nothing. |
| `Candidates.Draw` | ampligraph/discovery/discovery.py:289 | Sampling k without replacement fails with `SampleLargerThanPool` iff k exceeds the pool. Otherwise it gives k pool elements, distinct when the pool is. |
| `Candidates.DrawPair` | ampligraph/discovery/discovery.py:289-290 | The subject sample and the object sample are drawn in turn. The pair fails iff k exceeds either pool. |
| `Candidates.SampledBatch` | ampligraph/discovery/discovery.py:283-296 | Succeeds iff k fits both pools. The batch then has at most k² statements and is duplicate-free. It holds t iff t's subject is in the subject sample and its object in the object sample drawn from the seeded generator, t has the target relation, is not a self-loop and is not in X. |
| `Candidates.Frequency` | ampligraph/discovery/discovery.py:301 | An entity's count is its multiplicity in the subject column plus its multiplicity in the object column, the count `np.unique(X[:, [0, 2]], return_counts=True)` gives. |
| `Candidates.FrequencyPositive` | ampligraph/discovery/discovery.py:300-301 | An entity's count over the subject and object columns is positive iff it occurs in the graph. |
| `Candidates.LowestScoring` | ampligraph/discovery/discovery.py:334-339 | The sorted-then-sliced pool has min(cap, n) entities, all from the input, in ascending score order. Every entity left out scores at least as high as every entity kept. |
| `Sequences.SortByScoreKeepsTies` | ampligraph/discovery/discovery.py:302 | The two-entity case of tie order: two entities with equal scores keep their input order, as a stable sort keeps them. No lemma states tie order for longer inputs. |
| `Sequences.SortByScorePermutes` | ampligraph/discovery/discovery.py:302 | Sorting by score is a permutation (equal multisets). |
| `Candidates.FrequencyPool` | ampligraph/discovery/discovery.py:301-306 | The slice `ent_counts[0:max_candidates, 0]` holds min(cap, number of entities) distinct entities. |
| `Candidates.MetricPool` | ampligraph/discovery/discovery.py:317-340 | The slice `C[0:max_candidates, 0]` holds min(cap, number of entities) distinct entities. |
| `Candidates.ScorePoolsAreLowest` | ampligraph/discovery/discovery.py:298-340 | The `entity_frequency` pool holds the least frequent graph entities and the metric pools the lowest-scoring ones. Every graph entity outside a pool scores at least as high as every entity inside it. |
| `Candidates.FrequencyBatch` | ampligraph/discovery/discovery.py:298-312 | Succeeds iff the sample size fits the pool of least frequent entities. The batch then has at most `_max_candidates` statements, is duplicate-free, and holds t iff t crosses the subject and object samples drawn from that pool, has the target relation, is not a self-loop and is not in X. The second filtering changes nothing. |
| `Candidates.MetricBatch` | ampligraph/discovery/discovery.py:314-345 | As `FrequencyBatch`, with the pool of lowest-metric entities: the batch is exactly the filtered cross product of the two samples drawn from it, and has at most `int(sqrt(cap))²` statements. |
| `Candidates.SampledStrategyBatch` | ampligraph/discovery/discovery.py:283-345 | For each sampling strategy: the batch is duplicate-free, sound, of at most `cap` and `int(sqrt(cap))²` statements. `random_uniform` succeeds iff the sample size fits both pools and `entity_frequency` (int cap) or a metric strategy (non-empty graph, int cap) iff it fits min(cap, number of entities); every failure there is `SampleLargerThanPool`. A float cap fails as a slice bound, an empty graph has no metric table. On success the batch is exactly the filtered cross product of the two samples the seeded generator draws from that strategy's pools. |
| `Candidates.StrategyBatches` | ampligraph/discovery/discovery.py:270-345 | Every batch keeps the target relation, has no self-loops, has no statements of X and is duplicate-free, and no statement occurs in two batches. `exhaustive` always succeeds, with one batch per subject. Every other strategy gives one batch, with the success condition, error and sampled-cross-product contents stated for `SampledStrategyBatch`. |
| `Candidates.CappedBatches` | ampligraph/discovery/discovery.py:229-345 | An unresolvable `max_candidates` fails with that error before any batch is built. Otherwise the batch properties of `StrategyBatches` hold with the resolved cap; for `entity_frequency` and the metric strategies with an int cap, the sample size is `int(sqrt(max_candidates))`. |
| `Candidates.Generate` | ampligraph/discovery/discovery.py:162-347 | Errors come in source order: strategy, then type, then positivity. The unseen-relation warning is raised iff the relation is absent from X. Every batch is sound and duplicate-free and no statement occurs twice across batches. Under `exhaustive` with a valid cap, generation succeeds with the exhaustive batches of the pools. `random_uniform` succeeds iff `int(sqrt(cap))` fits both pools, fails otherwise with `SampleLargerThanPool`, and yields exactly the filtered cross product of the two seeded samples. `entity_frequency` refuses a float cap and, with an int cap n, succeeds iff `int(sqrt(n))` fits min(n, number of entities), yielding the filtered cross product of samples of the n least frequent entities. |
| `Candidates.GenerateGraphMetric` | ampligraph/discovery/discovery.py:314-345 | The four graph-metric strategies of `generate_candidates`: an empty graph has no metric table, a float cap fails as a slice bound, and with an int cap n generation succeeds iff `int(sqrt(n))` fits min(n, number of entities), yielding the filtered cross product of two seeded samples of the n lowest-scoring entities. |
| `Walkthrough.PoolsOfG` | ampligraph/discovery/discovery.py:256-257 | On the docstring graph, the subject pool is [a, b, c, f] and the object pool is [a, b, c, d, e]. |
| `Walkthrough.BatchIsFresh` | ampligraph/discovery/discovery.py:275-281 | On those pools, the batch of the k-th subject holds exactly the statements (subject, y, o) with o in the object pool, not a self-loop, and not in the graph. |
| `Walkthrough.BatchOfA` | ampligraph/discovery/discovery.py:275-281 | On the docstring graph, subject a's batch holds only (a, y, e). |
| `Walkthrough.BatchOfB` | ampligraph/discovery/discovery.py:275-281 | Subject b's batch holds (b, y, d) and (b, y, e). |
| `Walkthrough.BatchOfC` | ampligraph/discovery/discovery.py:275-281 | Subject c's batch holds (c, y, b) and (c, y, e). |
| `Walkthrough.BatchOfF` | ampligraph/discovery/discovery.py:275-281 | Subject f's batch holds (f, y, a) through (f, y, d). |
| `Walkthrough.ExhaustiveOnDocstringGraph` | ampligraph/discovery/discovery.py:229-281 | `exhaustive` on the docstring graph succeeds and reports the relation as seen. It yields four batches: those of the pools [a, b, c, f] and [a, b, c, d, e]. |
| `Discovery.MeanRankIsIntegerTest` | ampligraph/discovery/discovery.py:150-153 | The mean test `(s + o) / 2 >= top_n` is equivalent to `s + o >= 2 * top_n`. |
| `Discovery.AcceptMask` | ampligraph/discovery/discovery.py:150-153 | `preds` has one entry per candidate, true iff the two halves' ranks of that candidate average at least `top_n`. |
| `Discovery.AcceptCandidates` | ampligraph/discovery/discovery.py:146-155 | Succeeds iff the rank vector is two halves aligned with the batch. The accepted statements are a subsequence of the batch. Every candidate whose two ranks average at least `top_n` is accepted, and every accepted statement is such a candidate. |
| `Discovery.AcceptExactly` | ampligraph/discovery/discovery.py:146-155 | On a duplicate-free batch, candidate i is accepted iff `ranks[i] + ranks[n + i] >= 2 * top_n`. |
| `Discovery.AcceptThreshold` | ampligraph/discovery/discovery.py:150-155 | Averaged ranks all equal to `top_n - 1` accept nothing. Averaged ranks all equal to `top_n` accept the whole batch. |
| `Discovery.WithinMask` | ampligraph/discovery/discovery.py:29-30 | The documented rule's mask has one entry per candidate, true iff the two halves' ranks of that candidate sum to at most `2 * top_n` (averaged rank within the top `top_n`). |
| `Discovery.AcceptWithinTopN` | ampligraph/discovery/discovery.py:143-155 | The documented acceptance: it succeeds iff the rank vector is two halves aligned with the batch, and any failure is `RankShapeMismatch`. The accepted statements are a subsequence of the batch. Every candidate whose averaged rank is at most `top_n` is accepted, and every accepted statement is such a candidate. |
| `Discovery.AcceptWithinTopNExactly` | ampligraph/discovery/discovery.py:143-153 | On a duplicate-free batch, the documented rule accepts candidate i iff `ranks[i] + ranks[n + i] <= 2 * top_n`. |
| `Discovery.AcceptRuleInverted` | ampligraph/discovery/discovery.py:143-153 | On a duplicate-free batch, the rule as written and the documented rule disagree on every candidate whose averaged rank is not exactly `top_n`. A candidate ranked first on both sides is dropped by the rule as written and kept by the documented one whenever `top_n > 1`. |
| `Discovery.RelationList` | ampligraph/discovery/discovery.py:116-119 | With no target, the relations processed are the model's relations, in the model's order. With a target, just that one. The list is duplicate-free when the model's relations are, or when a target is given. |
| `Discovery.AcceptBatches` | ampligraph/discovery/discovery.py:131-155 | Succeeds iff every batch's rank vector is aligned with it, and any failure is `RankShapeMismatch`. Each accepted batch is then the acceptance of that batch under its own ranks, and the accepted statements together are exactly those candidates of some batch that pass the rank test. |
| `Discovery.AcceptedDistinct` | ampligraph/discovery/discovery.py:131-155 | The accepted statements of all batches, joined, are a subsequence of the joined candidates (generation order is kept), so they repeat nothing when the candidates repeat nothing. |
| `Discovery.DiscoverRelation` | ampligraph/discovery/discovery.py:124-155 | One pass of the relation loop succeeds iff generation succeeds and every batch gets an aligned rank vector. A failure raises generation's own error if generation fails, and `RankShapeMismatch` otherwise. Its batches then hold statements of that relation that are not self-loops and not in the filtered graph; a statement is among them iff it is a generated candidate passing its batch's rank test; and no statement occurs twice. |
| `Discovery.DiscoverRelations` | ampligraph/discovery/discovery.py:124-155 | Succeeds iff, for every processed relation, generation succeeds and every batch gets an aligned rank vector. Every accepted statement has a processed relation, is not a self-loop, and is not in the filtered graph. A statement is accepted iff it is a candidate generated for some processed relation and passes the rank test of its batch. |
| `Discovery.DiscoverRelationsInOrder` | ampligraph/discovery/discovery.py:124-155 | The accepted batches come relation by relation in the order of the relation list, each relation's in generation order, and no statement occurs twice when the relation list is duplicate-free. |
| `Discovery.JoinedFacts` | ampligraph/discovery/discovery.py:124-159 | The joined facts exist iff every relation succeeds. A failure raises the error of the first relation in list order that fails, every earlier relation succeeding. The facts are exactly the discovered statements, sound, grouped by relation in list order, and duplicate-free for a duplicate-free relation list. |
| `Discovery.DiscoverFacts` | ampligraph/discovery/discovery.py:12-159 | Errors come in source order: not fitted, then strategy, then unknown target. It succeeds iff those checks pass and every relation of the relation list succeeds as in `DiscoverRelations`. Once the three checks pass, a failure raises the error of the first relation of the list that fails. The warning is flagged iff the model is not fitted on X. The facts are exactly the candidates generated from the filtered graph, for a relation of the list, that pass the rank test. They are never self-loops or statements of the filtered graph, and have the target relation if one is given, a model relation otherwise. They are the accepted statements grouped by relation in the order of the relation list, and contain no statement twice when a target is given or the model's relations are duplicate-free. |
| `Discovery.ExhaustiveDiscoverySucceeds` | ampligraph/discovery/discovery.py:12-155 | With a fitted model, a known (or no) target, a `max_candidates` that resolves, and an evaluator that ranks both sides of every batch, `exhaustive` discovery returns facts rather than an error. |
| `Discovery.DiscoverRelationsFirstError` | ampligraph/discovery/discovery.py:124-155 | A failing relation loop raises the error of the first relation in list order that fails: every earlier relation succeeds, and the error is that relation's generation error, or `RankShapeMismatch` if generation succeeded. |
| `Discovery.OutcomeOf` | ampligraph/discovery/discovery.py:124-155 | The k-th entry of the per-relation outcome list, on which the first-failure statements rest, is whether relation k of the list generates and gets aligned rank vectors for every batch. |
| `Discovery.JoinedFactsSound` | ampligraph/discovery/discovery.py:155-159 | Per-batch soundness carries over to the joined facts. |
| `Discovery.HStack` | ampligraph/discovery/discovery.py:159 | `np.hstack` on [k, 3] arrays fails iff the list is empty or the arrays differ in row count. Otherwise it gives k rows, each 3·(number of arrays) wide. |
| `Discovery.HStackMisjoinsBatches` | ampligraph/discovery/discovery.py:159 | With batches of one and two statements, `np.hstack` fails where the row-wise join gives the three statements. Two one-statement batches become one six-column row. |
| `Sequences.Flatten` | ampligraph/discovery/discovery.py:155-159 | The corrected join has the total length of the batches and contains t iff some accepted batch contains t. |
| `Sequences.FlattenPlaces` | ampligraph/discovery/discovery.py:155-159 | The j-th statement of batch i sits at position (total length of batches 0..i-1) + j of the join, so the join keeps batch order and each batch's internal order. |
| `Sequences.FlattenDistinct` | ampligraph/discovery/discovery.py:155-159 | Joining duplicate-free batches that pairwise share no statement gives a duplicate-free join. |
| `Sequences.FlattenSubsequence` | ampligraph/discovery/discovery.py:146-159 | Taking a subsequence of each batch and joining gives a subsequence of the join. |
| `Discovery.FlattenKeepsDiscoveries` | ampligraph/discovery/discovery.py:155-159 | The row-wise join has the total length of the batches and contains exactly their statements. |

Four behaviours of the code that its own text does not describe, which the model follows:

- **A float `max_candidates` is always a fraction of \|X\|,** whatever its size. The docstring (ampligraph/discovery/discovery.py:183) speaks of a percentage in [0, 1] and the error message (ampligraph/discovery/discovery.py:240) of a float in (0, 1], but the code only rejects values <= 0 and scales any positive float by \|X\|.
- **The evaluator is called on every batch, empty ones included.** The loop at ampligraph/discovery/discovery.py:131-155 does not skip empty batches.
- **The pools are sorted ascending.** The comment at ampligraph/discovery/discovery.py:333 says "descending", but `argsort` sorts ascending, and the model follows `argsort`.
- **A candidate is accepted when its averaged rank is at least `top_n`** (ampligraph/discovery/discovery.py:153). The comment at line 143 and the docstring at lines 29-30 describe keeping candidates within the top `top_n` ranks, which is `<=`. The discovery loop (`Discovery.AcceptCandidates` through `Discovery.DiscoverFacts`) follows line 153, so its facts are the ones the code returns. The documented rule is `Discovery.AcceptWithinTopN` (see Findings).

## Left out

- **Graph metrics** (networkx degree, clustering coefficient, triangles, square clustering) are an abstract `MetricFn` parameter. Computing them is outside this module.
- **Random draws:** `np.random.seed` and `np.random.choice` are an abstract `Rng`. The model assumes only that a draw gives k distinct positions.
- **Re-seeding:** the model does not represent that the seed is set twice, once in `discover_facts` and once per `generate_candidates` call. Each `generate_candidates` call's first draw (the subjects) starts from the state `seed` gives, and its object draw continues from the state the subject draw leaves, which is what the two `np.random.seed` calls amount to.
- **`evaluate_performance` and `filter_unseen_entities`** are function parameters. The model is fitted elsewhere, and these belong to other modules of the repository, which are not part of this model.
- **`find_clusters`** (clustering of embeddings, line 374 onward) is not part of this model.
- **Logging** is not modelled. The two warnings that matter (the relation is absent from X; the model might not be fitted on X) are returned as booleans.
- **Float arithmetic:** floats are exact rationals. `int(max_candidates * len(X))` is exact floor division, with no float rounding.
- **`Candidates.ISqrt`:** the model computes `int(np.sqrt(n))` as the exact integer square root, so it does not model float rounding of `np.sqrt` for very large n.
- **Identifiers are integers.** The source's string identifiers and lexicographic `np.unique` order are not modelled. In the numpy string array of `entity_frequency` and the metric strategies, counts and scores are promoted to strings. The model compares them as numbers.
- `Candidates.LowestScoring`: the model's sort is stable, so entities with equal scores stay in their input order (`Sequences.SortByScoreKeepsTies` states the two-entity case). numpy's default `argsort` is not guaranteed to be stable. The contract of `LowestScoring` speaks only about scores. The pools built from it do fix which equal-scored entities are taken; see the next line.
- `Candidates.FrequencyPool` / `Candidates.MetricPool`: both pools sort the entities in ascending id order, breaking score ties stably. The source's `entity_frequency` table also starts in ascending id order (`np.unique`, ampligraph/discovery/discovery.py:300-301). Its metric table starts in networkx node-insertion order, which is the order of first occurrence in X (ampligraph/discovery/discovery.py:318-321, 334-335). Both are then sorted with an argsort that need not be stable. So when equal scores straddle the `max_candidates` cut, the source may slice different entities than the model. The `SampledFrom` clauses of `FrequencyBatch`, `MetricBatch`, `SampledStrategyBatch`, `Generate` and `GenerateGraphMetric` name the exact pool, so they hold for the model's tie-break only. Example: X = [(4, r, 3), (1, r, 2)] under `graph_degree` with `max_candidates` 2. Every entity has degree 1. The model's pool is [1, 2], while the source's table starts as [4, 3, 1, 2].
- **Array shapes:** the 3-column row shape is carried by the `Triple` type. The model has no error for arrays whose column counts differ.
- **`corruption_entities` and `max_negatives`** are accepted by `discover_facts` but never used. The model omits them.
- **Rank-shape errors:** numpy raises on a ragged mean (odd length) or on a boolean mask of the wrong length. The model has one error for both, `RankShapeMismatch`, and does not tell numpy's two exceptions apart.

## Findings

| source | as written | input that shows it | evidently intended | confidence | as-written member | corrected member |
|---|---|---|---|---|---|---|
| ampligraph/discovery/discovery.py:159 | `np.hstack(discoveries)` joins the accepted [k, 3] arrays along columns | two relations whose accepted batches hold 1 and 2 statements (fails); two batches of 1 statement each (one 6-column row instead of two statements) | join the accepted statements row-wise (`np.vstack` / concatenate along axis 0) | not executed | `Discovery.HStackMisjoinsBatches` | `Sequences.Flatten` |
| ampligraph/discovery/discovery.py:153 | `preds = np.array(avg_ranks) >= top_n` keeps candidates whose averaged rank is at least `top_n` | `top_n = 10` and a candidate ranked 1 on both sides (dropped); a candidate ranked 500 on both sides (kept) | keep candidates within the top `top_n` ranks, `avg_ranks <= top_n`, as the comment at line 143 and the docstring at lines 29-30 say | not executed | `Discovery.AcceptRuleInverted` | `Discovery.AcceptWithinTopNExactly` |

The hstack correction is used by the discovery loop. The acceptance correction is not: the loop keeps line 153's rule, so that `Discovery.DiscoverFacts` states what the code returns.
