/**
 * The fold partitioner: `CrossValidationType`, the number of folds each
 * scheme runs and the test predicate of fold i on index j, and the training
 * list a fold keeps.
 *
 * The source computes `j // (N / 5)` and `j // (N / OUTER_RANGE)` on floats;
 * this model uses the exact integer forms `(5 * j) / N` and
 * `(j * OUTER_RANGE) / N`, which are the floor of the same real quotient.
 */
module Folds {

  datatype Scheme = SimpleFifths | JackknifedBasePrompts | EveryFifth | Disabled

  /** OUTER_RANGE: the number of folds, fixed from the size n of the mutation corpus. */
  function OuterRange(s: Scheme, n: nat): nat
  {
    match s
    case SimpleFifths => 5
    case EveryFifth => 5
    case JackknifedBasePrompts => n / 5
    case Disabled => 1
  }

  /** DISABLED_FLAG: every non-ignored test row runs in the single fold. */
  predicate DisabledFlag(s: Scheme)
  {
    s == Disabled
  }

  /** The divisions the test predicate performs do not divide by zero. */
  predicate DivisorOk(s: Scheme, outer: nat, n: nat)
  {
    match s
    case SimpleFifths => n > 0
    case JackknifedBasePrompts => outer > 0 && n > 0
    case EveryFifth => true
    case Disabled => true
  }

  /** CONDITION_FOR_TESTING(i, j), reading the size n the lambda sees at the time of the call. */
  predicate Tested(s: Scheme, outer: nat, n: nat, i: nat, j: nat)
    requires DivisorOk(s, outer, n)
  {
    match s
    case SimpleFifths => (5 * j) / n == i
    case EveryFifth => j % 5 == i
    case JackknifedBasePrompts => (j * outer) / n == i
    case Disabled => false
  }

  lemma QuotientBelow(a: nat, n: nat, q: nat)
    requires n > 0 && a < q * n
    ensures a / n < q
  {
  }

  lemma QuotientAtLeast(a: nat, n: nat, q: nat)
    requires n > 0 && a >= q * n
    ensures a / n >= q
  {
    var d := a / n;
    assert a == d * n + a % n && a % n < n;
    assert a < (d + 1) * n;
    MulMonotone(q, d + 1, n);
  }

  /** Multiplying by a positive n preserves a strict order backwards. */
  lemma MulMonotone(x: nat, y: nat, n: nat)
    requires x * n < y * n
    ensures x < y
  {
  }

  lemma FifthBelow(n: nat, j: nat)
    requires j < n
    ensures (5 * j) / n < 5
  {
    QuotientBelow(5 * j, n, 5);
  }

  lemma ShareBelow(outer: nat, n: nat, j: nat)
    requires j < n && outer > 0
    ensures (j * outer) / n < outer
  {
    assert j * outer < n * outer;
    QuotientBelow(j * outer, n, outer);
  }

  /**
   * The one fold that tests index j of a collection of n items, for the
   * three partitioning schemes: j is tested in fold i exactly when i is this
   * fold, and the fold is one that runs.
   */
  function FoldOf(s: Scheme, outer: nat, n: nat, j: nat): (i: nat)
    requires s != Disabled && DivisorOk(s, outer, n) && j < n
    requires s == SimpleFifths || s == EveryFifth ==> outer == 5
    ensures i < outer
    ensures forall i' :: Tested(s, outer, n, i', j) <==> i' == i
  {
    match s
    case SimpleFifths => FifthBelow(n, j); (5 * j) / n
    case EveryFifth => j % 5
    case JackknifedBasePrompts => ShareBelow(outer, n, j); (j * outer) / n
  }

  /**
   * Indices at or past the size n are never tested: SimpleFifths and
   * JackknifedBasePrompts put them in a fold past the last one.
   */
  lemma {:induction false} IndicesPastSizeNeverTested(s: Scheme, outer: nat, n: nat, i: nat, j: nat)
    requires s == SimpleFifths || s == JackknifedBasePrompts
    requires DivisorOk(s, outer, n) && n <= j
    requires s == SimpleFifths ==> i < 5
    requires s == JackknifedBasePrompts ==> i < outer
    ensures !Tested(s, outer, n, i, j)
  {
    if s == SimpleFifths {
      QuotientAtLeast(5 * j, n, 5);
    } else {
      assert j * outer >= n * outer;
      QuotientAtLeast(j * outer, n, outer);
    }
  }

  /**
   * The training list of fold i: the documents, in order, whose index is not
   * tested when the predicate reads size n.
   */
  function TrainingSplit(s: Scheme, outer: nat, n: nat, i: nat, docs: seq<string>): seq<string>
    requires |docs| > 0 ==> DivisorOk(s, outer, n)
    decreases |docs|
  {
    if |docs| == 0 then []
    else
      var last := |docs| - 1;
      TrainingSplit(s, outer, n, i, docs[..last]) + (if Tested(s, outer, n, i, last) then [] else [docs[last]])
  }

  /** The indices below m that the training list keeps, in increasing order. */
  function KeptIndices(s: Scheme, outer: nat, n: nat, i: nat, m: nat): seq<nat>
    requires m > 0 ==> DivisorOk(s, outer, n)
  {
    if m == 0 then []
    else KeptIndices(s, outer, n, i, m - 1) + (if Tested(s, outer, n, i, m - 1) then [] else [m - 1])
  }

  /** KeptIndices is increasing and holds exactly the untested indices below m. */
  lemma {:induction false} KeptIndicesExact(s: Scheme, outer: nat, n: nat, i: nat, m: nat)
    requires m > 0 ==> DivisorOk(s, outer, n)
    ensures var ks := KeptIndices(s, outer, n, i, m);
      (forall a, b :: 0 <= a < b < |ks| ==> ks[a] < ks[b]) &&
      (forall k :: 0 <= k < |ks| ==> ks[k] < m) &&
      (forall j: nat :: j in ks <==> j < m && !Tested(s, outer, n, i, j))
  {
    if m > 0 {
      KeptIndicesExact(s, outer, n, i, m - 1);
    }
  }

  /** The training list is the documents at the kept indices, in their order. */
  lemma {:induction false} TrainingSplitSelects(s: Scheme, outer: nat, n: nat, i: nat, docs: seq<string>)
    requires |docs| > 0 ==> DivisorOk(s, outer, n)
    ensures var ks := KeptIndices(s, outer, n, i, |docs|);
      var tr := TrainingSplit(s, outer, n, i, docs);
      |tr| == |ks| && forall k :: 0 <= k < |ks| ==> ks[k] < |docs| && tr[k] == docs[ks[k]]
    decreases |docs|
  {
    if |docs| > 0 {
      var last := |docs| - 1;
      var prev := docs[..last];
      TrainingSplitSelects(s, outer, n, i, prev);
      var ks0, tr0 := KeptIndices(s, outer, n, i, last), TrainingSplit(s, outer, n, i, prev);
      var tested := Tested(s, outer, n, i, last);
      assert KeptIndices(s, outer, n, i, |docs|) == ks0 + (if tested then [] else [last]);
      assert TrainingSplit(s, outer, n, i, docs) == tr0 + (if tested then [] else [docs[last]]);
      assert forall k :: 0 <= k < |ks0| ==> tr0[k] == prev[ks0[k]] == docs[ks0[k]];
    }
  }

  /** Under Disabled nothing is held out: the training list is every document. */
  lemma {:induction false} TrainingSplitDisabled(outer: nat, n: nat, i: nat, docs: seq<string>)
    ensures TrainingSplit(Disabled, outer, n, i, docs) == docs
    decreases |docs|
  {
    if |docs| > 0 {
      TrainingSplitDisabled(outer, n, i, docs[..|docs| - 1]);
    }
  }
}
