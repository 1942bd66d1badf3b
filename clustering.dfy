/** The cluster-to-label step of `MNISTEvaluation.compute_metrics`: every
    sample of cluster i is predicted the label that occurs most often among
    cluster i's true labels (`np.argmax(np.bincount(...))`, ties to the
    smallest label), and the accuracy of that prediction is reported. The
    cluster assignment itself (spectral clustering) is an input. */
module Clustering {
  import opened Basics

  /** How many of the first n samples lie in cluster i and carry label l:
      entry l of `np.bincount(labels[ids])`. */
  function Count(clust: seq<int>, labels: seq<int>, i: int, l: int, n: nat): nat
    requires n <= |clust| == |labels|
  {
    if n == 0 then 0
    else Count(clust, labels, i, l, n - 1) + (if clust[n - 1] == i && labels[n - 1] == l then 1 else 0)
  }

  /** How many of the first n samples lie in cluster i (`len(ids)`). */
  function Size(clust: seq<int>, i: int, n: nat): nat
    requires n <= |clust|
  {
    if n == 0 then 0 else Size(clust, i, n - 1) + (if clust[n - 1] == i then 1 else 0)
  }

  /** Some of the first n samples of cluster i carries a negative label. */
  predicate NegativeIn(clust: seq<int>, labels: seq<int>, i: int, n: nat)
    requires n <= |clust| == |labels|
  {
    n > 0 && (NegativeIn(clust, labels, i, n - 1) || (clust[n - 1] == i && labels[n - 1] < 0))
  }

  /** The largest label among the first n samples of cluster i, at least 0
      (the last index of the bincount). */
  function MaxLabel(clust: seq<int>, labels: seq<int>, i: int, n: nat): (m: nat)
    requires n <= |clust| == |labels|
    ensures forall p :: 0 <= p < n && clust[p] == i ==> labels[p] <= m
  {
    if n == 0 then 0
    else
      var m := MaxLabel(clust, labels, i, n - 1);
      if clust[n - 1] == i && labels[n - 1] > m then labels[n - 1] else m
  }

  /** `np.argmax(np.bincount(labels[ids]))` raises: cluster i is empty (an
      empty bincount has no argmax) or holds a negative label. */
  predicate Fails(clust: seq<int>, labels: seq<int>, i: int)
    requires |clust| == |labels|
  {
    Size(clust, i, |clust|) == 0 || NegativeIn(clust, labels, i, |clust|)
  }

  /** The first label in 0..hi whose count is largest. */
  function BestLabel(clust: seq<int>, labels: seq<int>, i: int, hi: nat): (b: nat)
    requires |clust| == |labels|
    ensures b <= hi
    ensures forall l :: 0 <= l <= hi ==> Count(clust, labels, i, l, |clust|) <= Count(clust, labels, i, b, |clust|)
    ensures forall l :: 0 <= l < b ==> Count(clust, labels, i, l, |clust|) < Count(clust, labels, i, b, |clust|)
  {
    if hi == 0 then 0
    else
      var b := BestLabel(clust, labels, i, hi - 1);
      if Count(clust, labels, i, hi, |clust|) > Count(clust, labels, i, b, |clust|) then hi else b
  }

  /** The label every sample of cluster i is mapped to. */
  function Majority(clust: seq<int>, labels: seq<int>, i: int): nat
    requires |clust| == |labels|
  {
    BestLabel(clust, labels, i, MaxLabel(clust, labels, i, |clust|))
  }

  /** The prediction for one sample after all clusters 0..k-1 were mapped:
      its cluster's majority label, or the initial 0 outside 0..k-1. */
  function PredictedLabel(clust: seq<int>, labels: seq<int>, k: nat, p: nat): int
    requires |clust| == |labels| && p < |clust|
  {
    if 0 <= clust[p] < k then Majority(clust, labels, clust[p]) else 0
  }

  /** The whole prediction: it fails (ValueError) exactly when some cluster
      among 0..k-1 is empty or holds a negative label; otherwise sample p is
      predicted `PredictedLabel`, its cluster's majority label or 0. */
  function PredictionSpec(clust: seq<int>, labels: seq<int>, k: nat): Result<seq<int>, string>
    requires |clust| == |labels|
  {
    if exists i :: 0 <= i < k && Fails(clust, labels, i) then Err("ValueError")
    else Ok(seq(|clust|, p requires 0 <= p < |clust| => PredictedLabel(clust, labels, k, p)))
  }

  /** The loop of `MNISTEvaluation.compute_metrics` over the clusters: start
      from zeros and overwrite each cluster's samples with its majority
      label, cluster by cluster. */
  method MajorityPrediction(clust: seq<int>, labels: seq<int>, k: nat) returns (r: Result<seq<int>, string>)
    requires |clust| == |labels|
    ensures r == PredictionSpec(clust, labels, k)
  {
    var n := |clust|;
    var prediction := new int[n](_ => 0);
    var i := 0;
    while i < k
      invariant 0 <= i <= k
      invariant forall c :: 0 <= c < i ==> !Fails(clust, labels, c)
      invariant forall p :: 0 <= p < n ==> prediction[p] == PredictedLabel(clust, labels, i, p)
    {
      if Fails(clust, labels, i) {
        assert 0 <= i < k && Fails(clust, labels, i);
        r := Err("ValueError");
        return;
      }
      var majority := Majority(clust, labels, i);
      forall p | 0 <= p < n && clust[p] == i {
        prediction[p] := majority;
      }
      i := i + 1;
    }
    assert !exists c :: 0 <= c < k && Fails(clust, labels, c);
    assert prediction[..] == seq(n, p requires 0 <= p < n => PredictedLabel(clust, labels, k, p));
    r := Ok(prediction[..]);
  }

  // ---------------------------------------------------------------------------
  // What the mapping means
  // ---------------------------------------------------------------------------

  lemma {:induction false} CountBeyondMax(clust: seq<int>, labels: seq<int>, i: int, l: int, n: nat)
    requires n <= |clust| == |labels|
    requires l > MaxLabel(clust, labels, i, n) || (l < 0 && !NegativeIn(clust, labels, i, n))
    ensures Count(clust, labels, i, l, n) == 0
  {
    if n > 0 {
      CountBeyondMax(clust, labels, i, l, n - 1);
    }
  }

  lemma {:induction false} CountOfMember(clust: seq<int>, labels: seq<int>, i: int, p: nat, n: nat)
    requires p < n <= |clust| == |labels| && clust[p] == i
    ensures Count(clust, labels, i, labels[p], n) > 0
  {
    if p < n - 1 {
      CountOfMember(clust, labels, i, p, n - 1);
    }
  }

  lemma {:induction false} NonEmptyHasMember(clust: seq<int>, i: int, n: nat) returns (p: nat)
    requires n <= |clust| && Size(clust, i, n) > 0
    ensures p < n && clust[p] == i
  {
    if clust[n - 1] == i {
      p := n - 1;
    } else {
      p := NonEmptyHasMember(clust, i, n - 1);
    }
  }

  /** For a cluster that does not fail, the mapped label occurs in it, no
      label occurs in it more often, and every smaller label occurs less
      often (ties go to the smallest label). */
  lemma MajorityIsMostFrequent(clust: seq<int>, labels: seq<int>, i: int)
    requires |clust| == |labels| && !Fails(clust, labels, i)
    ensures Count(clust, labels, i, Majority(clust, labels, i), |clust|) > 0
    ensures forall l: int :: Count(clust, labels, i, l, |clust|) <= Count(clust, labels, i, Majority(clust, labels, i), |clust|)
    ensures forall l :: 0 <= l < Majority(clust, labels, i) ==>
      Count(clust, labels, i, l, |clust|) < Count(clust, labels, i, Majority(clust, labels, i), |clust|)
  {
    var n := |clust|;
    var best := Majority(clust, labels, i);
    var hi := MaxLabel(clust, labels, i, n);
    assert best == BestLabel(clust, labels, i, hi);
    forall l: int ensures Count(clust, labels, i, l, |clust|) <= Count(clust, labels, i, Majority(clust, labels, i), |clust|) {
      if l < 0 || l > hi {
        CountBeyondMax(clust, labels, i, l, n);
      }
    }
    var p := NonEmptyHasMember(clust, i, n);
    CountOfMember(clust, labels, i, p, n);
    NoNegatives(clust, labels, i, n, p);
    assert Count(clust, labels, i, labels[p], n) <= Count(clust, labels, i, best, n);
  }

  lemma {:induction false} NoNegatives(clust: seq<int>, labels: seq<int>, i: int, n: nat, p: nat)
    requires p < n <= |clust| == |labels| && clust[p] == i
    requires !NegativeIn(clust, labels, i, n)
    ensures labels[p] >= 0
  {
    if p < n - 1 {
      NoNegatives(clust, labels, i, n - 1, p);
    }
  }

  /** Every sample of a mapped cluster gets that cluster's majority label;
      samples outside clusters 0..k-1 keep the initial 0; and the mapping
      fails exactly when some cluster 0..k-1 is empty or holds a negative label. */
  /** An empty cluster among 0..k-1 is an error. */
  lemma EmptyClusterFails(clust: seq<int>, labels: seq<int>, k: nat, i: nat)
    requires |clust| == |labels| && i < k
    requires forall p :: 0 <= p < |clust| ==> clust[p] != i
    ensures PredictionSpec(clust, labels, k).Err?
  {
    SizeZero(clust, i, |clust|);
    assert Fails(clust, labels, i);
  }

  lemma {:induction false} SizeZero(clust: seq<int>, i: int, n: nat)
    requires n <= |clust| && forall p :: 0 <= p < n ==> clust[p] != i
    ensures Size(clust, i, n) == 0
  {
    if n > 0 { SizeZero(clust, i, n - 1); }
  }

  // ---------------------------------------------------------------------------
  // Accuracy (`MNISTEvaluation.compute_metrics`, the Keras accuracy step)
  // ---------------------------------------------------------------------------

  /** How many of the first n positions agree. */
  function Matches(pred: seq<int>, labels: seq<int>, n: nat): (m: nat)
    requires n <= |pred| == |labels|
    ensures m <= n
  {
    if n == 0 then 0 else Matches(pred, labels, n - 1) + (if pred[n - 1] == labels[n - 1] then 1 else 0)
  }

  /** `tf.keras.metrics.Accuracy` after one update: matches over samples,
      0 when there are no samples (the metric divides with div_no_nan). */
  function Accuracy(pred: seq<int>, labels: seq<int>): real
    requires |pred| == |labels|
  {
    if |pred| == 0 then 0.0 else (Matches(pred, labels, |pred|) as real) / (|pred| as real)
  }

  /** The accuracy is a fraction in [0, 1]. */
  lemma AccuracyBounds(pred: seq<int>, labels: seq<int>)
    requires |pred| == |labels|
    ensures 0.0 <= Accuracy(pred, labels) <= 1.0
  {
    if |pred| > 0 {
      var m, n := Matches(pred, labels, |pred|) as real, |pred| as real;
      assert m <= n;
      assert m / n <= 1.0 by { assert m / n <= n / n; }
    }
  }

  lemma {:induction false} AllMatch(pred: seq<int>, labels: seq<int>, n: nat)
    requires n <= |pred| == |labels|
    ensures Matches(pred, labels, n) == n <==> pred[..n] == labels[..n]
  {
    if n > 0 {
      AllMatch(pred, labels, n - 1);
      assert pred[..n] == pred[..n - 1] + [pred[n - 1]];
      assert labels[..n] == labels[..n - 1] + [labels[n - 1]];
      if pred[..n] == labels[..n] {
        assert pred[..n - 1] == pred[..n][..n - 1];
        assert labels[..n - 1] == labels[..n][..n - 1];
      }
    }
  }

  /** The accuracy is 1 exactly when every prediction is right. */
  lemma PerfectAccuracy(pred: seq<int>, labels: seq<int>)
    requires |pred| == |labels| > 0
    ensures Accuracy(pred, labels) == 1.0 <==> pred == labels
  {
    var n := |pred|;
    AllMatch(pred, labels, n);
    assert pred[..n] == pred && labels[..n] == labels;
    var m := Matches(pred, labels, n) as real;
    if m / (n as real) == 1.0 {
      assert m == n as real;
    }
  }
}
