/** The evaluation session (`class Evaluation` and its EEG variant): the
    competitors found at construction, `validate_all` filling `results` with
    the metrics of every run that could be loaded, and the tables built from
    those results. Loading a run and scoring it are an input, `outcome`,
    that tells for each run path what the try-block ends with. */
module Evaluation {
  import opened Basics
  import opened Discovery
  import opened Tables

  /** The exceptions a run can end with; `validate_all` catches OSError only. */
  datatype Exception = OSError | ValueError | TypeError | AssertionError | IndexError

  /** How the try-block of one run ends: with its metrics, or raising. */
  datatype RunOutcome = Scored(metrics: Metrics) | Raised(e: Exception)

  /** The outcome makes `validate_all` itself raise. */
  predicate Aborts(o: RunOutcome) {
    o.Raised? && o.e != OSError
  }

  /** The metrics of one competitor's runs, in run order: a run whose load
      raised OSError is skipped, any other exception ends the session. */
  function Successes(paths: seq<string>, outcome: string -> RunOutcome): Result<seq<Metrics>, Exception> {
    if paths == [] then Ok([])
    else
      var prev :- Successes(paths[..|paths| - 1], outcome);
      match outcome(paths[|paths| - 1])
      case Scored(m) => Ok(prev + [m])
      case Raised(e) => if e == OSError then Ok(prev) else Err(e)
  }

  /** `results` after `validate_all`: each competitor with at least one
      scored run, with its scored runs, in competitor order. */
  function ValidateSpec(comps: seq<Competitor>, outcome: string -> RunOutcome): (r: Result<seq<CompetitorRuns>, Exception>)
    ensures r.Ok? ==> AllNonEmpty(r.value) && |r.value| <= |comps|
  {
    if comps == [] then Ok([])
    else
      var prev :- ValidateSpec(comps[..|comps| - 1], outcome);
      var last := comps[|comps| - 1];
      var runs :- Successes(last.runs, outcome);
      Ok(if runs == [] then prev else prev + [CompetitorRuns(last.name, runs)])
  }

  // ---------------------------------------------------------------------------
  // What validation means
  // ---------------------------------------------------------------------------

  /** A failed load never aborts: the runs of a competitor are collected
      unless one of them raises something other than OSError; the collected
      metrics are exactly those of the scored runs; and the exception that
      ends a session is one a run raised. */
  lemma {:induction false} SuccessesMeaning(paths: seq<string>, outcome: string -> RunOutcome)
    ensures Successes(paths, outcome).Ok? <==> forall k :: 0 <= k < |paths| ==> !Aborts(outcome(paths[k]))
    ensures Successes(paths, outcome).Ok? ==>
      forall m :: m in Successes(paths, outcome).value <==>
        exists k :: 0 <= k < |paths| && outcome(paths[k]) == Scored(m)
    ensures Successes(paths, outcome).Err? ==>
      exists k :: 0 <= k < |paths| && outcome(paths[k]) == Raised(Successes(paths, outcome).error)
        && Successes(paths, outcome).error != OSError
  {
    if paths != [] {
      var init := paths[..|paths| - 1];
      SuccessesMeaning(init, outcome);
      assert forall k :: 0 <= k < |init| ==> init[k] == paths[k];
      if Successes(init, outcome).Ok? && Successes(paths, outcome).Ok? {
        forall m ensures m in Successes(paths, outcome).value <==>
          exists k :: 0 <= k < |paths| && outcome(paths[k]) == Scored(m)
        {
          if exists k :: 0 <= k < |paths| && outcome(paths[k]) == Scored(m) {
            var k :| 0 <= k < |paths| && outcome(paths[k]) == Scored(m);
            if k < |init| { assert outcome(init[k]) == Scored(m); }
          }
        }
      }
      if Successes(init, outcome).Err? {
        var k :| 0 <= k < |init| && outcome(init[k]) == Raised(Successes(init, outcome).error);
        assert outcome(paths[k]) == outcome(init[k]);
      }
    }
  }

  /** A competitor all of whose loads fail contributes no runs. */
  lemma {:induction false} AllFailedIsEmpty(paths: seq<string>, outcome: string -> RunOutcome)
    requires forall k :: 0 <= k < |paths| ==> outcome(paths[k]) == Raised(OSError)
    ensures Successes(paths, outcome) == Ok([])
  {
    if paths != [] {
      var init := paths[..|paths| - 1];
      assert forall k :: 0 <= k < |init| ==> init[k] == paths[k];
      AllFailedIsEmpty(init, outcome);
    }
  }

  /** Every entry of `results` is a competitor with a non-empty list: exactly
      the metrics its runs produced. */
  lemma {:induction false} ResultsComeFromCompetitors(comps: seq<Competitor>, outcome: string -> RunOutcome, k: nat)
    requires ValidateSpec(comps, outcome).Ok? && k < |ValidateSpec(comps, outcome).value|
    ensures var entry := ValidateSpec(comps, outcome).value[k];
      |entry.runs| > 0 &&
      exists j :: 0 <= j < |comps| && entry.name == comps[j].name && Successes(comps[j].runs, outcome) == Ok(entry.runs)
  {
    var init := comps[..|comps| - 1];
    var prev := ValidateSpec(init, outcome).value;
    if k < |prev| {
      ResultsComeFromCompetitors(init, outcome, k);
      var j :| 0 <= j < |init| && prev[k].name == init[j].name && Successes(init[j].runs, outcome) == Ok(prev[k].runs);
      assert comps[j] == init[j];
    } else {
      assert comps[|comps| - 1] == comps[|comps| - 1];
    }
  }

  /** Every competitor with at least one scored run is kept, with its runs. */
  lemma {:induction false} ScoredCompetitorsKept(comps: seq<Competitor>, outcome: string -> RunOutcome, j: nat)
    requires ValidateSpec(comps, outcome).Ok? && j < |comps|
    ensures Successes(comps[j].runs, outcome).Ok?
    ensures Successes(comps[j].runs, outcome).value != [] ==>
      CompetitorRuns(comps[j].name, Successes(comps[j].runs, outcome).value) in ValidateSpec(comps, outcome).value
  {
    var init := comps[..|comps| - 1];
    if j < |init| {
      ScoredCompetitorsKept(init, outcome, j);
      assert init[j] == comps[j];
    }
  }

  /** Validation completes exactly when no run of any competitor raises
      anything other than OSError. */
  lemma {:induction false} ValidateOkIff(comps: seq<Competitor>, outcome: string -> RunOutcome)
    ensures ValidateSpec(comps, outcome).Ok? <==>
      forall j, k :: 0 <= j < |comps| && 0 <= k < |comps[j].runs| ==> !Aborts(outcome(comps[j].runs[k]))
  {
    if comps != [] {
      var init := comps[..|comps| - 1];
      ValidateOkIff(init, outcome);
      SuccessesMeaning(comps[|comps| - 1].runs, outcome);
      assert forall j :: 0 <= j < |init| ==> init[j] == comps[j];
    }
  }

  /** The exception a session ends with is one that some run raised. */
  lemma {:induction false} ValidateErrRaised(comps: seq<Competitor>, outcome: string -> RunOutcome)
    requires ValidateSpec(comps, outcome).Err?
    ensures var e := ValidateSpec(comps, outcome).error;
      e != OSError && exists j, k :: 0 <= j < |comps| && 0 <= k < |comps[j].runs| && outcome(comps[j].runs[k]) == Raised(e)
  {
    var init := comps[..|comps| - 1];
    var last := comps[|comps| - 1];
    if ValidateSpec(init, outcome).Err? {
      ValidateErrRaised(init, outcome);
      var j, k :| 0 <= j < |init| && 0 <= k < |init[j].runs| && outcome(init[j].runs[k]) == Raised(ValidateSpec(init, outcome).error);
      assert init[j] == comps[j];
    } else {
      SuccessesMeaning(last.runs, outcome);
      var k :| 0 <= k < |last.runs| && outcome(last.runs[k]) == Raised(Successes(last.runs, outcome).error);
      assert comps[|comps| - 1].runs[k] == last.runs[k];
    }
  }

  /** When no run is ever scored, a completed validation keeps no competitor. */
  lemma {:induction false} NothingScoredNothingKept(comps: seq<Competitor>, outcome: string -> RunOutcome)
    requires forall p :: !outcome(p).Scored?
    requires ValidateSpec(comps, outcome).Ok?
    ensures ValidateSpec(comps, outcome).value == []
  {
    if comps != [] {
      var runs := comps[|comps| - 1].runs;
      NothingScoredNothingKept(comps[..|comps| - 1], outcome);
      var v := Successes(runs, outcome).value;
      assert |v| > 0 ==> v[0] in v;
      SuccessesMeaning(runs, outcome);
    }
  }

  /** Competitors with distinct names give results with distinct names: each
      entry is one key of the `results` dictionary. */
  lemma {:induction false} ValidateNamesDistinct(comps: seq<Competitor>, outcome: string -> RunOutcome)
    requires Distinct(Names(comps)) && ValidateSpec(comps, outcome).Ok?
    ensures var r := ValidateSpec(comps, outcome).value;
      forall i, j :: 0 <= i < j < |r| ==> r[i].name != r[j].name
  {
    if comps != [] {
      var init := comps[..|comps| - 1];
      var last := comps[|comps| - 1];
      assert forall i :: 0 <= i < |init| ==> Names(init)[i] == Names(comps)[i];
      ValidateNamesDistinct(init, outcome);
      var prev := ValidateSpec(init, outcome).value;
      forall i | 0 <= i < |prev| ensures prev[i].name != last.name {
        ResultsComeFromCompetitors(init, outcome, i);
        var j :| 0 <= j < |init| && prev[i].name == init[j].name && Successes(init[j].runs, outcome) == Ok(prev[i].runs);
        assert Names(comps)[j] == prev[i].name && Names(comps)[|comps| - 1] == last.name;
      }
    }
  }

  // ---------------------------------------------------------------------------
  // The session object
  // ---------------------------------------------------------------------------

  class Evaluation {
    const expDir: string
    /** The competitors, in name order, each with its run paths. */
    var competitors: seq<Competitor>
    /** None until `validate_all` has run. */
    var results: Option<seq<CompetitorRuns>>

    ghost predicate Valid()
      reads this
    {
      results.Some? ==> AllNonEmpty(results.value)
    }

    /** `Evaluation.__init__`: discover the competitors; no results yet. */
    constructor (expDir: string, listing: seq<Entry>, pattern: Option<string>)
      ensures Valid()
      ensures this.expDir == expDir
      ensures competitors == Discover(expDir, listing, pattern)
      ensures UniqueNames(listing) ==> Distinct(Names(competitors))
      ensures results == None
    {
      var comps := GetCompetitors(expDir, listing, pattern);
      this.expDir := expDir;
      competitors := comps;
      results := None;
    }

    /** `validate_all` (and `EEGEvaluation.validate_all`, whose outcome also
        reads the fold from the path): run every competitor's runs, skip
        those whose load raised OSError, drop competitors left with no run,
        and store the results; any other exception leaves `results` as it was. */
    method ValidateAll(outcome: string -> RunOutcome) returns (r: Result<seq<CompetitorRuns>, Exception>)
      requires Valid()
      modifies this`results
      ensures Valid()
      ensures r == ValidateSpec(competitors, outcome)
      ensures r.Ok? ==> results == Some(r.value)
      ensures r.Err? ==> results == old(results)
    {
      var res: seq<CompetitorRuns> := [];
      var i := 0;
      while i < |competitors|
        invariant 0 <= i <= |competitors|
        invariant ValidateSpec(competitors[..i], outcome) == Ok(res)
      {
        assert competitors[..i + 1][..i] == competitors[..i];
        var comp := competitors[i];
        var runs: seq<Metrics> := [];
        var j := 0;
        while j < |comp.runs|
          invariant 0 <= j <= |comp.runs|
          invariant Successes(comp.runs[..j], outcome) == Ok(runs)
        {
          assert comp.runs[..j + 1][..j] == comp.runs[..j];
          match outcome(comp.runs[j]) {
            case Scored(m) =>
              runs := runs + [m];
            case Raised(e) =>
              if e != OSError {
                assert Successes(comp.runs[..j + 1], outcome) == Err(e);
                assert ValidateSpec(competitors, outcome) == Err(e) by {
                  SessionAbortsAt(competitors, outcome, i, j, e);
                }
                r := Err(e);
                return;
              }
          }
          j := j + 1;
        }
        assert comp.runs[..j] == comp.runs;
        if runs != [] {
          res := res + [CompetitorRuns(comp.name, runs)];
        }
        i := i + 1;
      }
      assert competitors[..i] == competitors;
      results := Some(res);
      r := Ok(res);
    }

    /** `generate_result_table`: one aggregated row per competitor of
        `results`; fails when `validate_all` has not stored results yet. */
    method GenerateResultTable() returns (t: Result<seq<Row>, TableError>)
      requires Valid()
      ensures results.None? ==> t == Err(NotValidated)
      ensures results.Some? ==> t == TableSpec(results.value)
    {
      if results.None? {
        return Err(NotValidated);
      }
      var res := results.value;
      var table: seq<Row> := [];
      var i := 0;
      while i < |res|
        invariant 0 <= i <= |res|
        invariant TableSpec(res[..i]) == Ok(table)
      {
        assert res[..i + 1][..i] == res[..i];
        var cells := BuildRow(res[i].runs);
        if cells.Err? {
          TablePrefixErr(res, i + 1);
          return Err(cells.error);
        }
        table := table + [Row(res[i].name, cells.value)];
        i := i + 1;
      }
      assert res[..i] == res;
      t := Ok(table);
    }

    /** The table-building loop of `generate_plots`: the per-run values of every
        competitor, keyed by its display name. */
    method GeneratePlotTable() returns (t: Result<map<string, map<string, seq<Value>>>, TableError>)
      requires Valid()
      ensures results.None? ==> t == Err(NotValidated)
      ensures results.Some? ==> t == PlotTableSpec(results.value)
    {
      if results.None? {
        return Err(NotValidated);
      }
      var res := results.value;
      var table: map<string, map<string, seq<Value>>> := map[];
      var i := 0;
      while i < |res|
        invariant 0 <= i <= |res|
        invariant PlotTableSpec(res[..i]) == Ok(table)
      {
        assert res[..i + 1][..i] == res[..i];
        var cells := BuildPlotRow(res[i].runs);
        if cells.Err? {
          PlotTablePrefixErr(res, i + 1);
          return Err(cells.error);
        }
        table := table[DisplayName(res[i].name) := cells.value];
        i := i + 1;
      }
      assert res[..i] == res;
      t := Ok(table);
    }

    /** `EEGEvaluation.generate_result_table`: the per-competitor rows,
        grouped by configuration and averaged again over each group. */
    method GenerateEegResultTable() returns (t: Result<map<string, map<string, real>>, TableError>)
      requires Valid()
      ensures results.None? ==> t == Err(NotValidated)
      ensures results.Some? ==> t == EegTableSpec(results.value)
    {
      var rowsOrError := GenerateResultTable();
      if rowsOrError.Err? {
        return Err(rowsOrError.error);
      }
      var rows := rowsOrError.value;
      var todo := Groups(rows);
      var out: map<string, map<string, real>> := map[];
      while todo != {}
        invariant todo <= Groups(rows)
        invariant out.Keys == Groups(rows) - todo
        invariant forall g :: g in out ==> GroupRow(Members(rows, g)) == Ok(out[g])
        decreases |todo|
      {
        var g :| g in todo;
        var groupRow := GroupMean(Members(rows, g));
        if groupRow.Err? {
          assert GroupMeans(rows) == Err(MissingMetric);
          return Err(MissingMetric);
        }
        out := out[g := groupRow.value];
        todo := todo - {g};
      }
      assert !exists g :: g in Groups(rows) && GroupRow(Members(rows, g)).Err?;
      assert out == map g | g in Groups(rows) :: GroupRow(Members(rows, g)).value;
      t := Ok(out);
    }
  }

  /** When run j of competitor i raises something other than OSError, the
      whole session ends with that exception. */
  lemma SessionAbortsAt(comps: seq<Competitor>, outcome: string -> RunOutcome, i: nat, j: nat, e: Exception)
    requires i < |comps| && j < |comps[i].runs|
    requires ValidateSpec(comps[..i], outcome).Ok?
    requires Successes(comps[i].runs[..j + 1], outcome) == Err(e)
    ensures ValidateSpec(comps, outcome) == Err(e)
  {
    SuccessesPrefixErr(comps[i].runs, outcome, j + 1);
    ValidatePrefixErr(comps, outcome, i + 1);
    assert comps[..i + 1][..i] == comps[..i];
  }

  lemma {:induction false} SuccessesPrefixErr(paths: seq<string>, outcome: string -> RunOutcome, n: nat)
    requires n <= |paths| && Successes(paths[..n], outcome).Err?
    ensures Successes(paths, outcome) == Successes(paths[..n], outcome)
    decreases |paths| - n
  {
    if n < |paths| {
      assert paths[..n + 1][..n] == paths[..n];
      SuccessesPrefixErr(paths, outcome, n + 1);
    } else {
      assert paths[..n] == paths;
    }
  }

  lemma {:induction false} ValidatePrefixErr(comps: seq<Competitor>, outcome: string -> RunOutcome, n: nat)
    requires n <= |comps| && ValidateSpec(comps[..n], outcome).Err?
    ensures ValidateSpec(comps, outcome) == ValidateSpec(comps[..n], outcome)
    decreases |comps| - n
  {
    if n < |comps| {
      assert comps[..n + 1][..n] == comps[..n];
      ValidatePrefixErr(comps, outcome, n + 1);
    } else {
      assert comps[..n] == comps;
    }
  }

  /** The metric loop of `generate_result_table` for one competitor: the
      aggregated row, metric by metric in the first run's order. */
  method BuildRow(runs: seq<Metrics>) returns (r: Result<map<string, real>, TableError>)
    requires |runs| > 0
    ensures r == RowSpec(runs)
  {
    var example := runs[0];
    var row: map<string, real> := map[];
    var j := 0;
    while j < |example|
      invariant 0 <= j <= |example|
      invariant RowOver(example[..j], runs) == Ok(row)
    {
      assert example[..j + 1][..j] == example[..j];
      var next := AddMetricStep(row, example[j], runs);
      if next.Err? {
        RowPrefixErr(example, runs, j + 1);
        return Err(next.error);
      }
      row := next.value;
      j := j + 1;
    }
    assert example[..j] == example;
    r := Ok(row);
  }

  /** The body of the metric loop: a scalar's mean, or the per-index means
      of a vector under `m_0`, `m_1`, ...; other shapes are skipped. */
  method AddMetricStep(row: map<string, real>, met: Metric, runs: seq<Metrics>) returns (r: Result<map<string, real>, TableError>)
    requires |runs| > 0
    ensures r == AddMetric(row, met, runs)
  {
    match met.value {
      case Scalar(_) =>
        var col := ScalarColumn(runs, met.name);
        if col.Err? {
          return Err(col.error);
        }
        r := Ok(row[met.name := Mean(col.value)]);
      case Vector(xs) =>
        var stack := VectorColumn(runs, met.name, |xs|);
        if stack.Err? {
          return Err(stack.error);
        }
        var next := AddIndexedMeans(row, met.name, stack.value, |xs|);
        r := Ok(next);
      case Higher =>
        r := Ok(row);
    }
  }

  /** `for i, layer in enumerate(stack): row[m + '_' + str(i)] = layer`. */
  method AddIndexedMeans(row: map<string, real>, m: string, vs: seq<seq<real>>, n: nat) returns (next: map<string, real>)
    requires |vs| > 0 && forall k :: 0 <= k < |vs| ==> n <= |vs[k]|
    ensures next == row + IndexedMeans(m, vs, n)
  {
    next := row;
    var i := 0;
    while i < n
      invariant 0 <= i <= n
      invariant next == row + IndexedMeans(m, vs, i)
    {
      var key, mean := IndexedKey(m, i), Mean(Component(vs, i));
      IndexedMeansStep(row, m, vs, i);
      next := next[key := mean];
      i := i + 1;
    }
  }

  /** Writing entry i onto a row that holds the first i entries gives the row
      with the first i + 1. */
  lemma IndexedMeansStep(row: map<string, real>, m: string, vs: seq<seq<real>>, i: nat)
    requires |vs| > 0 && forall k :: 0 <= k < |vs| ==> i < |vs[k]|
    ensures (row + IndexedMeans(m, vs, i))[IndexedKey(m, i) := Mean(Component(vs, i))]
         == row + IndexedMeans(m, vs, i + 1)
  {
    var key, mean := IndexedKey(m, i), Mean(Component(vs, i));
    assert IndexedMeans(m, vs, i + 1) == IndexedMeans(m, vs, i)[key := mean];
    assert (row + IndexedMeans(m, vs, i))[key := mean] == row + IndexedMeans(m, vs, i)[key := mean];
  }

  lemma {:induction false} RowPrefixErr(example: seq<Metric>, runs: seq<Metrics>, n: nat)
    requires |runs| > 0 && n <= |example| && RowOver(example[..n], runs).Err?
    ensures RowOver(example, runs) == RowOver(example[..n], runs)
    decreases |example| - n
  {
    if n < |example| {
      assert example[..n + 1][..n] == example[..n];
      RowPrefixErr(example, runs, n + 1);
    } else {
      assert example[..n] == example;
    }
  }

  lemma {:induction false} TablePrefixErr(results: seq<CompetitorRuns>, n: nat)
    requires AllNonEmpty(results) && n <= |results| && TableSpec(results[..n]).Err?
    ensures TableSpec(results) == TableSpec(results[..n])
    decreases |results| - n
  {
    if n < |results| {
      assert results[..n + 1][..n] == results[..n];
      TablePrefixErr(results, n + 1);
    } else {
      assert results[..n] == results;
    }
  }

  lemma {:induction false} PlotTablePrefixErr(results: seq<CompetitorRuns>, n: nat)
    requires AllNonEmpty(results) && n <= |results| && PlotTableSpec(results[..n]).Err?
    ensures PlotTableSpec(results) == PlotTableSpec(results[..n])
    decreases |results| - n
  {
    if n < |results| {
      assert results[..n + 1][..n] == results[..n];
      PlotTablePrefixErr(results, n + 1);
    } else {
      assert results[..n] == results;
    }
  }

  /** The metric loop of `generate_plots` for one competitor: the per-run lists. */
  method BuildPlotRow(runs: seq<Metrics>) returns (r: Result<map<string, seq<Value>>, TableError>)
    requires |runs| > 0
    ensures r == PlotRowOver(runs[0], runs)
  {
    var example := runs[0];
    var row: map<string, seq<Value>> := map[];
    var j := 0;
    while j < |example|
      invariant 0 <= j <= |example|
      invariant PlotRowOver(example[..j], runs) == Ok(row)
    {
      assert example[..j + 1][..j] == example[..j];
      var met := example[j];
      var next := AddColumns(row, met, runs);
      if next.Err? {
        PlotRowPrefixErr(example, runs, j + 1);
        return Err(next.error);
      }
      row := next.value;
      j := j + 1;
    }
    assert example[..j] == example;
    r := Ok(row);
  }

  lemma {:induction false} PlotRowPrefixErr(example: seq<Metric>, runs: seq<Metrics>, n: nat)
    requires n <= |example| && PlotRowOver(example[..n], runs).Err?
    ensures PlotRowOver(example, runs) == PlotRowOver(example[..n], runs)
    decreases |example| - n
  {
    if n < |example| {
      assert example[..n + 1][..n] == example[..n];
      PlotRowPrefixErr(example, runs, n + 1);
    } else {
      assert example[..n] == example;
    }
  }

  /** The inner loop of `EEGEvaluation.generate_result_table` for one configuration: for each metric of the first
      member, the mean over all members; a member without it raises KeyError. */
  method GroupMean(ms: seq<map<string, real>>) returns (r: Result<map<string, real>, TableError>)
    ensures r == GroupRow(ms)
  {
    if ms == [] {
      return Ok(map[]);
    }
    var todo := ms[0].Keys;
    var row: map<string, real> := map[];
    while todo != {}
      invariant todo <= ms[0].Keys
      invariant row.Keys == ms[0].Keys - todo
      invariant forall m :: m in row ==> (forall k :: 0 <= k < |ms| ==> m in ms[k]) && row[m] == Mean(Column(ms, m))
      decreases |todo|
    {
      var metric :| metric in todo;
      if exists k :: 0 <= k < |ms| && metric !in ms[k] {
        assert !HasAll(ms, ms[0].Keys);
        return Err(MissingMetric);
      }
      row := row[metric := Mean(Column(ms, metric))];
      todo := todo - {metric};
    }
    forall k | 0 <= k < |ms| ensures ms[0].Keys <= ms[k].Keys {
      forall m | m in ms[0].Keys ensures m in ms[k] {
        assert m in row;
      }
    }
    assert HasAll(ms, ms[0].Keys);
    assert row == map metric | metric in ms[0].Keys :: Mean(Column(ms, metric));
    r := Ok(row);
  }

  /** A run scoring perfect accuracy. */
  const PerfectRun: Metrics := [Metric("accuracy", Scalar(1.0))]

  /** Every run scores PerfectRun except one whose files are damaged. */
  function ScenarioOutcome(p: string): RunOutcome {
    if p == "exp/modelA_run/corrupt" then Raised(OSError) else Scored(PerfectRun)
  }

  lemma ScenarioDamagedCompetitor()
    ensures Successes(["exp/modelA_run/1", "exp/modelA_run/corrupt"], ScenarioOutcome) == Ok([PerfectRun])
  {
    var a := ["exp/modelA_run/1", "exp/modelA_run/corrupt"];
    assert |a[0]| != |a[1]|;
    assert a[..1][..0] == [] && a[..1][0] == a[0] && a[..|a| - 1] == a[..1];
    assert [] + [PerfectRun] == [PerfectRun];
    assert Successes(a[..1], ScenarioOutcome) == Ok([PerfectRun]);
  }

  lemma ScenarioIntactCompetitor()
    ensures Successes(["exp/modelB_run/1", "exp/modelB_run/2"], ScenarioOutcome) == Ok([PerfectRun, PerfectRun])
  {
    var b := ["exp/modelB_run/1", "exp/modelB_run/2"];
    assert |b[0]| != |"exp/modelA_run/corrupt"| && |b[1]| != |"exp/modelA_run/corrupt"|;
    assert b[..1][..0] == [] && b[..1][0] == b[0] && b[..|b| - 1] == b[..1];
    assert [] + [PerfectRun] == [PerfectRun] && [PerfectRun] + [PerfectRun] == [PerfectRun, PerfectRun];
    assert Successes(b[..1], ScenarioOutcome) == Ok([PerfectRun]);
  }

  /** Two competitors with two runs each, one of whose runs cannot be
      loaded: the session completes, the damaged competitor keeps one run,
      and the table has one row per competitor. */
  lemma EndToEndScenario()
    ensures
      var comps := [Competitor("modelA_run", ["exp/modelA_run/1", "exp/modelA_run/corrupt"]),
                    Competitor("modelB_run", ["exp/modelB_run/1", "exp/modelB_run/2"])];
      var results := [CompetitorRuns("modelA_run", [PerfectRun]), CompetitorRuns("modelB_run", [PerfectRun, PerfectRun])];
      ValidateSpec(comps, ScenarioOutcome) == Ok(results)
      && TableSpec(results).Ok? && |TableSpec(results).value| == 2
  {
    var comps := [Competitor("modelA_run", ["exp/modelA_run/1", "exp/modelA_run/corrupt"]),
                  Competitor("modelB_run", ["exp/modelB_run/1", "exp/modelB_run/2"])];
    var results := [CompetitorRuns("modelA_run", [PerfectRun]), CompetitorRuns("modelB_run", [PerfectRun, PerfectRun])];
    ScenarioDamagedCompetitor();
    ScenarioIntactCompetitor();
    assert comps[..1][..0] == [] && comps[..|comps| - 1] == comps[..1];
    assert [] + [results[0]] == [results[0]] && [results[0]] + [results[1]] == results;
    assert ValidateSpec(comps[..1], ScenarioOutcome) == Ok([results[0]]);
    TableRows(results);
    RowOkForUniform([PerfectRun]);
    RowOkForUniform([PerfectRun, PerfectRun]);
  }

  lemma RowOkForUniform(runs: seq<Metrics>)
    requires |runs| > 0 && forall k :: 0 <= k < |runs| ==> runs[k] == PerfectRun
    ensures RowSpec(runs).Ok?
  {
    var ex := runs[0];
    assert ex[..|ex| - 1] == [];
    assert RowOver([], runs) == Ok(map[]);
    assert RowSpec(runs) == AddMetric(map[], ex[0], runs);
    forall k | 0 <= k < |runs| ensures Get(runs[k], "accuracy") == Some(Scalar(1.0)) {
      assert runs[k][0].name == "accuracy";
    }
    assert ScalarColumn(runs, "accuracy").Ok?;
  }
}
