/** The three evaluator variants, each given as the outcome `validate_all`
    sees for a run path: `SyntheticEvaluation.eval`, `MNISTEvaluation`
    (as written and as evidently intended) and `EEGEvaluation`. Loading a
    model, restoring weights, clustering, the SVM and the similarity
    measure are foreign calls; their results are inputs. */
module Evaluators {
  import opened Basics
  import opened Discovery
  import opened Tables
  import opened Clustering
  import opened Evaluation

  // ---------------------------------------------------------------------------
  // Synthetic data (`SyntheticEvaluation`)
  // ---------------------------------------------------------------------------

  /** The checkpoints `SyntheticEvaluation.eval` restores. */
  const Selectors: seq<string> := ["view0", "view1", "avg", "latest"]

  predicate IsSelector(s: string) {
    s in Selectors
  }

  /** What the forward passes of one restored model yield: the canonical
      correlations and the subspace similarity of each view to the ground
      truth, both over the true number of correlated components. */
  datatype Scores = Scores(ccor: seq<real>, simV0: seq<real>, simV1: seq<real>)

  type SyntheticScores = s: Scores | |s.simV0| == |s.simV1| witness Scores([], [], [])

  /** A loaded synthetic model: whether restoring the checkpoint at a path
      succeeds, and the scores it yields once that checkpoint is restored. */
  datatype SyntheticModel = SyntheticModel(restore: string -> bool, scores: string -> SyntheticScores)

  /** `sim_avg = (sim_v0 + sim_v1) / 2`, elementwise. */
  function SimAvg(v0: seq<real>, v1: seq<real>): (r: seq<real>)
    requires |v0| == |v1|
    ensures |r| == |v0|
  {
    seq(|v0|, i requires 0 <= i < |v0| => (v0[i] + v1[i]) / 2.0)
  }

  /** Each averaged similarity lies between the two per-view similarities. */
  lemma SimAvgBetween(v0: seq<real>, v1: seq<real>, i: nat)
    requires |v0| == |v1| && i < |v0|
    ensures v0[i] <= v1[i] ==> v0[i] <= SimAvg(v0, v1)[i] <= v1[i]
    ensures v1[i] <= v0[i] ==> v1[i] <= SimAvg(v0, v1)[i] <= v0[i]
  {
  }

  /** The average does not depend on which view comes first, and two equal
      similarity vectors average to themselves. */
  lemma SimAvgSymmetric(v0: seq<real>, v1: seq<real>)
    requires |v0| == |v1|
    ensures SimAvg(v0, v1) == SimAvg(v1, v0)
    ensures v0 == v1 ==> SimAvg(v0, v1) == v0
  {
  }

  /** Similarities in [0, 1] average to values in [0, 1]. */
  lemma SimAvgInUnitRange(v0: seq<real>, v1: seq<real>)
    requires |v0| == |v1|
    requires forall i :: 0 <= i < |v0| ==> 0.0 <= v0[i] <= 1.0 && 0.0 <= v1[i] <= 1.0
    ensures forall i :: 0 <= i < |v0| ==> 0.0 <= SimAvg(v0, v1)[i] <= 1.0
  {
  }

  /** The metrics dict of `compute_metrics`, in insertion order. */
  function SyntheticMetrics(s: SyntheticScores): Metrics {
    [Metric("ccor", Vector(s.ccor)), Metric("sim_v0", Vector(s.simV0)),
     Metric("sim_v1", Vector(s.simV1)), Metric("sim_avg", Vector(SimAvg(s.simV0, s.simV1)))]
  }

  /** `SyntheticEvaluation.eval` on a loaded model stored at `path`: an
      unknown selector raises ValueError, a failed restore fails the
      assertion, otherwise the scores of the restored checkpoint. */
  function SyntheticEval(model: SyntheticModel, path: string, selector: string): (o: RunOutcome)
    ensures !IsSelector(selector) ==> o == Raised(ValueError)
    ensures IsSelector(selector) && !model.restore(JoinPath(path, selector)) ==> o == Raised(AssertionError)
    ensures o.Scored? <==> IsSelector(selector) && model.restore(JoinPath(path, selector))
    ensures o.Scored? ==> o.metrics == SyntheticMetrics(model.scores(JoinPath(path, selector)))
  {
    if !IsSelector(selector) then Raised(ValueError)
    else
      var checkpoint := JoinPath(path, selector);
      if !model.restore(checkpoint) then Raised(AssertionError)
      else Scored(SyntheticMetrics(model.scores(checkpoint)))
  }

  /** The try-block of `validate_all` for the synthetic evaluator: loading
      raises OSError where `load` gives nothing, then `eval` runs. */
  function SyntheticOutcome(load: string -> Option<SyntheticModel>, selector: string): string -> RunOutcome {
    p => if load(p).None? then Raised(OSError) else SyntheticEval(load(p).value, p, selector)
  }

  /** A scored synthetic run has exactly the four metrics ccor, sim_v0,
      sim_v1 and sim_avg, all vectors, sim_avg of the similarities' length
      and between them entry by entry. */
  lemma SyntheticRunLayout(load: string -> Option<SyntheticModel>, selector: string, p: string)
    requires SyntheticOutcome(load, selector)(p).Scored?
    ensures var m := SyntheticOutcome(load, selector)(p).metrics;
      |m| == 4 && m[0].name == "ccor" && m[1].name == "sim_v0" && m[2].name == "sim_v1" && m[3].name == "sim_avg"
      && m[1].value.Vector? && m[2].value.Vector? && m[3].value.Vector?
      && |m[3].value.xs| == |m[1].value.xs| == |m[2].value.xs|
      && forall i :: 0 <= i < |m[3].value.xs| ==> m[3].value.xs[i] == (m[1].value.xs[i] + m[2].value.xs[i]) / 2.0
  {
    var model := load(p).value;
    assert SyntheticOutcome(load, selector)(p) == SyntheticEval(model, p, selector);
  }

  /** With a selector other than view0, view1, avg or latest, the first run
      that loads ends the session with ValueError, whatever the model would
      have computed; a session in which no run loads completes, empty. */
  lemma {:induction false} BogusSelector(comps: seq<Competitor>, load: string -> Option<SyntheticModel>, selector: string)
    requires !IsSelector(selector)
    ensures var r := ValidateSpec(comps, SyntheticOutcome(load, selector));
      && (r.Ok? <==> forall j, k :: 0 <= j < |comps| && 0 <= k < |comps[j].runs| ==> load(comps[j].runs[k]).None?)
      && (r.Ok? ==> r.value == [])
      && (r.Err? ==> r.error == ValueError)
  {
    var outcome := SyntheticOutcome(load, selector);
    ValidateOkIff(comps, outcome);
    forall p ensures !outcome(p).Scored? && (Aborts(outcome(p)) <==> load(p).Some?) && (Aborts(outcome(p)) ==> outcome(p).e == ValueError) {
      if load(p).Some? {
        assert outcome(p) == SyntheticEval(load(p).value, p, selector);
      }
    }
    if ValidateSpec(comps, outcome).Ok? {
      NothingScoredNothingKept(comps, outcome);
    } else {
      ValidateErrRaised(comps, outcome);
    }
  }

  // ---------------------------------------------------------------------------
  // MNIST (`MNISTEvaluation`)
  // ---------------------------------------------------------------------------

  /** The base `validate_all` as written with the MNIST evaluator: it calls
      `self.eval(model, weights_to_load=...)`, which `MNISTEvaluation.eval`
      (parameters `model, shared_dim`) does not accept, so every loaded run
      raises TypeError. */
  function MnistOutcomeAsWritten<M>(load: string -> Option<M>): string -> RunOutcome {
    p => if load(p).None? then Raised(OSError) else Raised(TypeError)
  }

  /** As written, an MNIST session never yields a result: it completes empty
      when no run loads and otherwise ends with TypeError. */
  lemma MnistSessionAsWritten<M>(comps: seq<Competitor>, load: string -> Option<M>)
    ensures var r := ValidateSpec(comps, MnistOutcomeAsWritten(load));
      && (r.Ok? <==> forall j, k :: 0 <= j < |comps| && 0 <= k < |comps[j].runs| ==> load(comps[j].runs[k]).None?)
      && (r.Ok? ==> r.value == [])
      && (r.Err? ==> r.error == TypeError)
  {
    var outcome := MnistOutcomeAsWritten(load);
    ValidateOkIff(comps, outcome);
    if ValidateSpec(comps, outcome).Ok? {
      NothingScoredNothingKept(comps, outcome);
    } else {
      ValidateErrRaised(comps, outcome);
    }
  }

  /** One loaded MNIST model over the test set: the cluster of every sample
      (from spectral clustering of its view-0 latent) and its true label. */
  datatype LabelledClusters = LabelledClusters(clusters: seq<int>, labels: seq<int>)

  type MnistRun = r: LabelledClusters | |r.clusters| == |r.labels| witness LabelledClusters([], [])

  /** `MNISTEvaluation.compute_metrics` with k classes: every cluster maps to
      its majority label, and the accuracy of that mapping is reported; an
      empty cluster or a negative label raises ValueError. */
  function MnistEval(run: MnistRun, k: nat): (o: RunOutcome)
    ensures o.Scored? <==> PredictionSpec(run.clusters, run.labels, k).Ok?
    ensures o.Raised? ==> o.e == ValueError
    ensures o.Scored? ==>
      o.metrics == [Metric("accuracy", Scalar(Accuracy(PredictionSpec(run.clusters, run.labels, k).value, run.labels)))]
  {
    match PredictionSpec(run.clusters, run.labels, k)
    case Err(_) => Raised(ValueError)
    case Ok(prediction) => Scored([Metric("accuracy", Scalar(Accuracy(prediction, run.labels)))])
  }

  /** The evidently intended MNIST session: `eval` receives the model and
      computes its metrics. */
  function MnistOutcome(load: string -> Option<MnistRun>, k: nat): string -> RunOutcome {
    p => if load(p).None? then Raised(OSError) else MnistEval(load(p).value, k)
  }

  predicate IsAccuracyRun(run: Metrics) {
    |run| == 1 && run[0].name == "accuracy" && run[0].value.Scalar? && 0.0 <= run[0].value.x <= 1.0
  }

  /** A scored MNIST run reports one accuracy, in [0, 1]. */
  lemma MnistAccuracyInUnitRange(load: string -> Option<MnistRun>, k: nat, p: string)
    requires MnistOutcome(load, k)(p).Scored?
    ensures IsAccuracyRun(MnistOutcome(load, k)(p).metrics)
  {
    var run := load(p).value;
    var prediction := PredictionSpec(run.clusters, run.labels, k).value;
    AccuracyBounds(prediction, run.labels);
  }

  /** A competitor whose runs each report one accuracy in [0, 1] gets a
      table row whose accuracy, the mean over its runs, is in [0, 1] too. */
  lemma AccuracyRowInUnitRange(runs: seq<Metrics>)
    requires |runs| > 0 && forall k :: 0 <= k < |runs| ==> IsAccuracyRun(runs[k])
    ensures RowSpec(runs).Ok? && "accuracy" in RowSpec(runs).value
    ensures 0.0 <= RowSpec(runs).value["accuracy"] <= 1.0
  {
    var ex := runs[0];
    forall k | 0 <= k < |runs| ensures Get(runs[k], "accuracy") == Some(runs[k][0].value) {
      assert runs[k][0].name == "accuracy";
    }
    var col := ScalarColumn(runs, "accuracy");
    assert col.Ok?;
    assert ex[..|ex| - 1] == [];
    assert RowOver([], runs) == Ok(map[]);
    assert RowSpec(runs) == AddMetric(map[], ex[0], runs);
    MeanBounds(col.value, 0.0, 1.0);
  }

  /** With the intended `eval`, a session in which every loaded run has
      non-empty clusters with non-negative labels completes, and every
      competitor it keeps gets a table row whose accuracy is in [0, 1]. */
  lemma MnistSessionIntended(comps: seq<Competitor>, load: string -> Option<MnistRun>, k: nat, i: nat)
    requires forall p :: load(p).Some? ==> PredictionSpec(load(p).value.clusters, load(p).value.labels, k).Ok?
    ensures ValidateSpec(comps, MnistOutcome(load, k)).Ok?
    ensures i < |ValidateSpec(comps, MnistOutcome(load, k)).value| ==>
      var runs := ValidateSpec(comps, MnistOutcome(load, k)).value[i].runs;
      |runs| > 0 && RowSpec(runs).Ok? && "accuracy" in RowSpec(runs).value
      && 0.0 <= RowSpec(runs).value["accuracy"] <= 1.0
  {
    var outcome := MnistOutcome(load, k);
    forall p ensures !Aborts(outcome(p)) {
      if load(p).Some? {
        assert outcome(p) == MnistEval(load(p).value, k);
      }
    }
    ValidateOkIff(comps, outcome);
    var results := ValidateSpec(comps, outcome).value;
    if i < |results| {
      var runs := results[i].runs;
      ResultsComeFromCompetitors(comps, outcome, i);
      var j :| 0 <= j < |comps| && results[i].name == comps[j].name && Successes(comps[j].runs, outcome) == Ok(runs);
      SuccessesMeaning(comps[j].runs, outcome);
      forall r | 0 <= r < |runs| ensures IsAccuracyRun(runs[r]) {
        assert runs[r] in runs;
        var q :| 0 <= q < |comps[j].runs| && outcome(comps[j].runs[q]) == Scored(runs[r]);
        MnistAccuracyInUnitRange(load, k, comps[j].runs[q]);
      }
      AccuracyRowInUnitRange(runs);
    }
  }

  // ---------------------------------------------------------------------------
  // EEG (`EEGEvaluation`: its `validate_all`, `eval` and `compute_metrics`)
  // ---------------------------------------------------------------------------

  /** `int(model_path[-4])`: the fold is the fourth character from the end;
      a shorter path raises IndexError and a non-digit ValueError. */
  function FoldIndex(path: string): (r: Result<nat, Exception>)
    ensures |path| < 4 ==> r == Err(IndexError)
    ensures r.Ok? ==> r.value < 10 && Digit(r.value) == path[|path| - 4]
    ensures |path| >= 4 && r.Err? ==> r == Err(ValueError) && !('0' <= path[|path| - 4] <= '9')
  {
    if |path| < 4 then Err(IndexError)
    else
      var c := path[|path| - 4];
      if '0' <= c <= '9' then Ok(c as int - '0' as int) else Err(ValueError)
  }

  /** A run directory whose name ends in a digit followed by three more
      characters has that digit as its fold. */
  lemma FoldIndexOfSuffix(prefix: string, d: nat, suffix: string)
    requires d < 10 && |suffix| == 3
    ensures FoldIndex(prefix + [Digit(d)] + suffix) == Ok(d)
  {
    var path := prefix + [Digit(d)] + suffix;
    assert path[|path| - 4] == Digit(d);
  }

  /** `EEGEvaluation.validate_all`'s try-block: load the model, read the fold
      from the path, and report the SVM accuracy on that fold's split. */
  function EegOutcome<M>(load: string -> Option<M>, accuracy: (M, nat) -> real): string -> RunOutcome {
    p =>
      if load(p).None? then Raised(OSError)
      else match FoldIndex(p)
        case Err(e) => Raised(e)
        case Ok(fold) => Scored([Metric("accuracy", Scalar(accuracy(load(p).value, fold)))])
  }

  /** An EEG run is scored exactly when it loads and its path names a fold,
      and then it reports the accuracy on that fold; a failed load is
      skipped, while a loaded run whose path names no fold ends the session. */
  lemma EegOutcomeMeaning<M>(load: string -> Option<M>, accuracy: (M, nat) -> real, p: string)
    ensures EegOutcome(load, accuracy)(p).Scored? <==> load(p).Some? && FoldIndex(p).Ok?
    ensures EegOutcome(load, accuracy)(p).Scored? ==>
      EegOutcome(load, accuracy)(p).metrics == [Metric("accuracy", Scalar(accuracy(load(p).value, FoldIndex(p).value)))]
    ensures load(p).None? ==> EegOutcome(load, accuracy)(p) == Raised(OSError)
    ensures Aborts(EegOutcome(load, accuracy)(p)) <==> load(p).Some? && FoldIndex(p).Err?
  {
  }

  /** An EEG session completes exactly when every run that loads names a
      fold in its path; runs that fail to load are skipped. When it ends,
      it ends with the IndexError or ValueError of such a path. */
  lemma {:induction false} EegSession<M>(comps: seq<Competitor>, load: string -> Option<M>, accuracy: (M, nat) -> real)
    ensures var r := ValidateSpec(comps, EegOutcome(load, accuracy));
      && (r.Ok? <==> forall j, k :: 0 <= j < |comps| && 0 <= k < |comps[j].runs| ==>
            load(comps[j].runs[k]).Some? ==> FoldIndex(comps[j].runs[k]).Ok?)
      && (r.Err? ==> r.error == IndexError || r.error == ValueError)
  {
    var outcome := EegOutcome(load, accuracy);
    ValidateOkIff(comps, outcome);
    forall p ensures Aborts(outcome(p)) <==> load(p).Some? && FoldIndex(p).Err? {
      EegOutcomeMeaning(load, accuracy, p);
    }
    if ValidateSpec(comps, outcome).Err? {
      ValidateErrRaised(comps, outcome);
    }
  }
}
