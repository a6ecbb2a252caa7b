/** Knowledge-graph triples, the errors the discovery code raises, and a
    failure-compatible Result used to thread those errors through the model.

    Entity and relation identifiers are modelled as integers: they are opaque
    values compared for equality and, where the source calls `np.unique`,
    ordered ascending. */
module Triples {

  /** One (subject, relation, object) statement; identity is by value. */
  datatype Triple = Triple(s: int, p: int, o: int)

  /** The exceptions of ampligraph/discovery/discovery.py, one constructor each. */
  datatype Error =
    | ModelNotFitted                 // discover_facts: model.is_fitted is false
    | InvalidStrategy(name: string)  // unknown strategy name
    | UnknownRelation(rel: int)      // target_rel not among the model's relations
    | InvalidMaxCandidatesType       // max_candidates is neither int nor float
    | NonPositiveMaxCandidates       // max_candidates <= 0
    | NonIntegerSlice                // a float max_candidates used as a slice bound
    | EmptyMetricTable               // metric table of an empty graph has no column 1
    | SampleLargerThanPool           // np.random.choice without replacement, k > |pool|
    | NotTwoDimensional              // _setdiff2d on an array that is not 2-D
    | RankShapeMismatch              // rank vector is not two halves aligned with the batch
    | NothingToStack                 // np.hstack of an empty list
    | StackRowMismatch               // np.hstack of arrays with different row counts

  datatype Option<+T> = None | Some(value: T)

  datatype Result<+T> = Ok(value: T) | Err(error: Error) {

    predicate IsFailure() {
      Err?
    }

    function PropagateFailure<U>(): Result<U>
      requires Err?
    {
      Err(error)
    }

    function Extract(): T
      requires Ok?
    {
      value
    }
  }

  /** The subject column `X[:, 0]`. */
  function Subjects(x: seq<Triple>): (r: seq<int>)
    ensures |r| == |x|
    ensures forall i | 0 <= i < |x| :: r[i] == x[i].s
  {
    seq(|x|, i requires 0 <= i < |x| => x[i].s)
  }

  /** The object column `X[:, 2]`. */
  function Objects(x: seq<Triple>): (r: seq<int>)
    ensures |r| == |x|
    ensures forall i | 0 <= i < |x| :: r[i] == x[i].o
  {
    seq(|x|, i requires 0 <= i < |x| => x[i].o)
  }

  /** `target_rel in np.unique(X[:, 1])`. */
  predicate RelationOccurs(x: seq<Triple>, rel: int) {
    exists i :: 0 <= i < |x| && x[i].p == rel
  }
}
