/** Metric values and the specifications of the tables built from them:
    the per-competitor result table (`generate_result_table`), the per-run
    table behind the plots (`generate_plots`) and the EEG
    table that averages again over the folds of one configuration. */
module Tables {
  import opened Basics

  /** A metric value as an evaluator returns it: a 0-d scalar, a 1-d vector
      (one entry per shared dimension), or an array of rank two or more,
      whose entries no table looks at. */
  datatype Value = Scalar(x: real) | Vector(xs: seq<real>) | Higher

  datatype Metric = Metric(name: string, value: Value)

  /** One run's metric dictionary, in insertion order; a key occurs once. */
  type Metrics = ms: seq<Metric> | Distinct(MetricNames(ms))

  /** The keys of a metric dictionary, in insertion order. */
  function MetricNames(ms: seq<Metric>): (names: seq<string>)
    ensures |names| == |ms| && forall k :: 0 <= k < |ms| ==> names[k] == ms[k].name
  {
    seq(|ms|, k requires 0 <= k < |ms| => ms[k].name)
  }

  /** The successful runs of one competitor (an entry of `results`). */
  datatype CompetitorRuns = CompetitorRuns(name: string, runs: seq<Metrics>)

  /** One column of the result table: a competitor and its aggregated metrics. */
  datatype Row = Row(name: string, cells: map<string, real>)

  /** Why building a table fails: no results yet (the `assert False == True`
      guard), a run without a metric of the first run (`run[metric]`), or a
      run whose value has another shape than the first run's (numpy cannot
      average or stack them). */
  datatype TableError = NotValidated | MissingMetric | ShapeMismatch

  /** `run[name]`, or None where it raises KeyError. */
  function Get(run: Metrics, name: string): (v: Option<Value>)
    ensures v.Some? <==> exists k :: 0 <= k < |run| && run[k].name == name
    ensures v.Some? ==> Metric(name, v.value) in run
  {
    if run == [] then None
    else if run[0].name == name then Some(run[0].value)
    else Get(run[1..], name)
  }

  /** The key `metric + '_' + str(i)` of the i-th entry of a vector metric. */
  function IndexedKey(m: string, i: nat): string {
    m + "_" + NatToString(i)
  }

  lemma IndexedKeyInjective(m: string, i: nat, j: nat)
    requires IndexedKey(m, i) == IndexedKey(m, j)
    ensures i == j
  {
    var p := |m| + 1;
    assert IndexedKey(m, i)[p..] == NatToString(i);
    assert IndexedKey(m, j)[p..] == NatToString(j);
    NatToStringInjective(i, j);
  }

  // ---------------------------------------------------------------------------
  // Columns: one metric across the runs of a competitor
  // ---------------------------------------------------------------------------

  predicate AllHave(runs: seq<Metrics>, m: string) {
    forall k :: 0 <= k < |runs| ==> Get(runs[k], m).Some?
  }

  /** `[run[m] for run in runs]` where every value must be a scalar. */
  function ScalarColumn(runs: seq<Metrics>, m: string): (r: Result<seq<real>, TableError>)
    ensures r.Ok? <==> forall k :: 0 <= k < |runs| ==> Get(runs[k], m).Some? && Get(runs[k], m).value.Scalar?
    ensures r.Ok? ==> |r.value| == |runs|
    ensures r.Ok? ==> forall k :: 0 <= k < |runs| ==> Get(runs[k], m) == Some(Scalar(r.value[k]))
    ensures r == Err(MissingMetric) <==> !AllHave(runs, m)
  {
    if !AllHave(runs, m) then Err(MissingMetric)
    else if exists k :: 0 <= k < |runs| && !Get(runs[k], m).value.Scalar? then Err(ShapeMismatch)
    else Ok(seq(|runs|, k requires 0 <= k < |runs| && AllHave(runs, m) => Get(runs[k], m).value.x))
  }

  /** `np.stack([run[m] for run in runs])` where every value must be a vector
      of the first run's length n. */
  function VectorColumn(runs: seq<Metrics>, m: string, n: nat): (r: Result<seq<seq<real>>, TableError>)
    ensures r.Ok? ==> |r.value| == |runs|
    ensures r.Ok? ==> forall k :: 0 <= k < |runs| ==> Get(runs[k], m) == Some(Vector(r.value[k])) && |r.value[k]| == n
    ensures r.Ok? <==> forall k :: 0 <= k < |runs| ==>
      Get(runs[k], m).Some? && Get(runs[k], m).value.Vector? && |Get(runs[k], m).value.xs| == n
    ensures r == Err(MissingMetric) <==> !AllHave(runs, m)
  {
    if !AllHave(runs, m) then Err(MissingMetric)
    else if exists k :: 0 <= k < |runs| && !(Get(runs[k], m).value.Vector? && |Get(runs[k], m).value.xs| == n)
    then Err(ShapeMismatch)
    else Ok(seq(|runs|, k requires 0 <= k < |runs| && AllHave(runs, m) => Get(runs[k], m).value.xs))
  }

  /** The i-th components of a stack of vectors (row i of `np.stack(..., axis=1)`). */
  function Component(vs: seq<seq<real>>, i: nat): (c: seq<real>)
    requires forall k :: 0 <= k < |vs| ==> i < |vs[k]|
    ensures |c| == |vs| && forall k :: 0 <= k < |vs| ==> c[k] == vs[k][i]
  {
    seq(|vs|, k requires 0 <= k < |vs| => vs[k][i])
  }

  // ---------------------------------------------------------------------------
  // The aggregated row of one competitor (`generate_result_table`, metric loop)
  // ---------------------------------------------------------------------------

  /** `for i, layer in enumerate(stack): row[m + '_' + str(i)] = layer`
      for the first n per-index means. */
  function IndexedMeans(m: string, vs: seq<seq<real>>, n: nat): (r: map<string, real>)
    requires |vs| > 0 && forall k :: 0 <= k < |vs| ==> n <= |vs[k]|
    ensures forall key :: key in r <==> exists i :: 0 <= i < n && key == IndexedKey(m, i)
    ensures forall i :: 0 <= i < n ==> r[IndexedKey(m, i)] == Mean(Component(vs, i))
  {
    if n == 0 then map[]
    else
      var prev := IndexedMeans(m, vs, n - 1);
      forall i | 0 <= i < n - 1 ensures IndexedKey(m, i) != IndexedKey(m, n - 1) {
        if IndexedKey(m, i) == IndexedKey(m, n - 1) { IndexedKeyInjective(m, i, n - 1); }
      }
      prev[IndexedKey(m, n - 1) := Mean(Component(vs, n - 1))]
  }

  /** The keys one metric of the first run writes into the row. */
  predicate Writes(met: Metric, key: string) {
    match met.value
    case Scalar(_) => key == met.name
    case Vector(xs) => exists i :: 0 <= i < |xs| && key == IndexedKey(met.name, i)
    case Higher => false
  }

  /** The body of `for metric in metrics:` for one metric. */
  function AddMetric(row: map<string, real>, met: Metric, runs: seq<Metrics>): Result<map<string, real>, TableError>
    requires |runs| > 0
  {
    match met.value
    case Scalar(_) =>
      var col :- ScalarColumn(runs, met.name);
      Ok(row[met.name := Mean(col)])
    case Vector(xs) =>
      var vs :- VectorColumn(runs, met.name, |xs|);
      Ok(row + IndexedMeans(met.name, vs, |xs|))
    case Higher => Ok(row)
  }

  /** The row built from the first run's metrics `example`, in their order. */
  function RowOver(example: seq<Metric>, runs: seq<Metrics>): Result<map<string, real>, TableError>
    requires |runs| > 0
  {
    if example == [] then Ok(map[])
    else
      var prev :- RowOver(example[..|example| - 1], runs);
      AddMetric(prev, example[|example| - 1], runs)
  }

  /** The aggregated row of a competitor with at least one run. */
  function RowSpec(runs: seq<Metrics>): Result<map<string, real>, TableError>
    requires |runs| > 0
  {
    RowOver(runs[0], runs)
  }

  lemma AddMetricKeys(row: map<string, real>, met: Metric, runs: seq<Metrics>, key: string)
    requires |runs| > 0 && AddMetric(row, met, runs).Ok?
    ensures key in AddMetric(row, met, runs).value <==> key in row || Writes(met, key)
    ensures !Writes(met, key) && key in row ==> AddMetric(row, met, runs).value[key] == row[key]
  {
  }

  /** The row has exactly the keys the first run's scalar and vector metrics
      write: a metric of rank two or more adds nothing. */
  lemma {:induction false} RowKeys(example: seq<Metric>, runs: seq<Metrics>, key: string)
    requires |runs| > 0 && RowOver(example, runs).Ok?
    ensures key in RowOver(example, runs).value <==> exists j :: 0 <= j < |example| && Writes(example[j], key)
  {
    if example != [] {
      var init := example[..|example| - 1];
      RowKeys(init, runs, key);
      AddMetricKeys(RowOver(init, runs).value, example[|example| - 1], runs, key);
      if exists j :: 0 <= j < |init| && Writes(init[j], key) {
        var j :| 0 <= j < |init| && Writes(init[j], key);
        assert example[j] == init[j];
      }
      if exists j :: 0 <= j < |example| && Writes(example[j], key) {
        var j :| 0 <= j < |example| && Writes(example[j], key);
        if j < |init| { assert init[j] == example[j]; }
      }
    }
  }

  /** A building row stays buildable on every prefix of the metrics. */
  lemma {:induction false} RowPrefixOk(example: seq<Metric>, runs: seq<Metrics>, j: nat)
    requires |runs| > 0 && j <= |example| && RowOver(example, runs).Ok?
    ensures RowOver(example[..j], runs).Ok?
    decreases |example|
  {
    if j < |example| {
      var init := example[..|example| - 1];
      assert init[..j] == example[..j];
      RowPrefixOk(init, runs, j);
    } else {
      assert example[..j] == example;
    }
  }

  /** The value of a key is the one its last writer put there. */
  lemma {:induction false} LastWriterWins(example: seq<Metric>, runs: seq<Metrics>, j: nat, key: string)
    requires |runs| > 0 && RowOver(example, runs).Ok?
    requires j < |example| && Writes(example[j], key)
    requires forall j' :: j < j' < |example| ==> !Writes(example[j'], key)
    ensures RowOver(example[..j], runs).Ok?
    ensures AddMetric(RowOver(example[..j], runs).value, example[j], runs).Ok?
    ensures key in RowOver(example, runs).value
    ensures RowOver(example, runs).value[key]
         == AddMetric(RowOver(example[..j], runs).value, example[j], runs).value[key]
    decreases |example|
  {
    var init := example[..|example| - 1];
    var last := example[|example| - 1];
    if j == |example| - 1 {
      assert init == example[..j];
      AddMetricKeys(RowOver(init, runs).value, last, runs, key);
    } else {
      assert forall j' :: j < j' < |init| ==> init[j'] == example[j'];
      LastWriterWins(init, runs, j, key);
      assert init[..j] == example[..j] && init[j] == example[j];
      AddMetricKeys(RowOver(init, runs).value, last, runs, key);
    }
  }

  /** A scalar metric m of the first run, not overwritten by a later key,
      ends up as the mean of `run[m]` over all runs. */
  lemma ScalarEntryIsMean(example: seq<Metric>, runs: seq<Metrics>, j: nat)
    requires |runs| > 0 && RowOver(example, runs).Ok?
    requires j < |example| && example[j].value.Scalar?
    requires forall j' :: j < j' < |example| ==> !Writes(example[j'], example[j].name)
    ensures ScalarColumn(runs, example[j].name).Ok?
    ensures example[j].name in RowOver(example, runs).value
    ensures RowOver(example, runs).value[example[j].name] == Mean(ScalarColumn(runs, example[j].name).value)
  {
    LastWriterWins(example, runs, j, example[j].name);
  }

  /** Entry i of a vector metric m of the first run, not overwritten by a
      later key, ends up under `m_i` as the mean of the runs' i-th components. */
  lemma VectorEntryIsMean(example: seq<Metric>, runs: seq<Metrics>, j: nat, i: nat)
    requires |runs| > 0 && RowOver(example, runs).Ok?
    requires j < |example| && example[j].value.Vector? && i < |example[j].value.xs|
    requires forall j' :: j < j' < |example| ==> !Writes(example[j'], IndexedKey(example[j].name, i))
    ensures VectorColumn(runs, example[j].name, |example[j].value.xs|).Ok?
    ensures IndexedKey(example[j].name, i) in RowOver(example, runs).value
    ensures RowOver(example, runs).value[IndexedKey(example[j].name, i)]
         == Mean(Component(VectorColumn(runs, example[j].name, |example[j].value.xs|).value, i))
  {
    assert Writes(example[j], IndexedKey(example[j].name, i));
    LastWriterWins(example, runs, j, IndexedKey(example[j].name, i));
  }

  /** Every run must carry each scalar or vector metric of the first run:
      one that lacks it makes the row fail. */
  lemma {:induction false} MissingMetricFails(example: seq<Metric>, runs: seq<Metrics>, j: nat, k: nat)
    requires |runs| > 0 && j < |example| && k < |runs|
    requires !example[j].value.Higher?
    requires Get(runs[k], example[j].name).None?
    ensures RowOver(example, runs).Err?
  {
    if RowOver(example, runs).Ok? {
      var pre := example[..j + 1];
      assert pre[..j] == example[..j] && pre[j] == example[j];
      RowPrefixOk(example, runs, j + 1);
    }
  }

  // ---------------------------------------------------------------------------
  // Order independence of a scalar entry
  // ---------------------------------------------------------------------------

  /** Proof helpers only: `ScalarColumn`'s values, read with a default of
      0.0 so that any reordering of the runs has a column to compare. */
  function ScalarOf(run: Metrics, m: string): real {
    match Get(run, m)
    case Some(Scalar(x)) => x
    case _ => 0.0
  }

  function Scalars(runs: seq<Metrics>, m: string): (xs: seq<real>)
    ensures |xs| == |runs|
  {
    if runs == [] then [] else [ScalarOf(runs[0], m)] + Scalars(runs[1..], m)
  }

  lemma {:induction false} ScalarsAt(runs: seq<Metrics>, m: string, k: nat)
    requires k < |runs|
    ensures Scalars(runs, m)[k] == ScalarOf(runs[k], m)
  {
    if k > 0 { ScalarsAt(runs[1..], m, k - 1); }
  }

  lemma {:induction false} ScalarsConcat(a: seq<Metrics>, b: seq<Metrics>, m: string)
    ensures Scalars(a + b, m) == Scalars(a, m) + Scalars(b, m)
  {
    if a == [] {
      assert a + b == b;
    } else {
      assert (a + b)[1..] == a[1..] + b;
      ScalarsConcat(a[1..], b, m);
    }
  }

  lemma ScalarsSplit(s: seq<Metrics>, k: nat, m: string)
    requires k < |s|
    ensures Scalars(s, m) == Scalars(s[..k], m) + [ScalarOf(s[k], m)] + Scalars(s[k + 1..], m)
    ensures Scalars(s[..k] + s[k + 1..], m) == Scalars(s[..k], m) + Scalars(s[k + 1..], m)
  {
    assert s == s[..k] + ([s[k]] + s[k + 1..]);
    ScalarsConcat(s[..k], [s[k]] + s[k + 1..], m);
    ScalarsConcat([s[k]], s[k + 1..], m);
    assert Scalars([s[k]], m) == [ScalarOf(s[k], m)];
    ScalarsConcat(s[..k], s[k + 1..], m);
  }

  lemma {:induction false} ScalarsPermutation(runs: seq<Metrics>, runs': seq<Metrics>, m: string)
    requires multiset(runs) == multiset(runs')
    ensures multiset(Scalars(runs, m)) == multiset(Scalars(runs', m))
    decreases |runs|
  {
    if runs != [] {
      assert runs[0] in multiset(runs');
      var k :| 0 <= k < |runs'| && runs'[k] == runs[0];
      var rest := runs'[..k] + runs'[k + 1..];
      WithoutOne(runs', k);
      assert multiset(runs) == multiset{runs[0]} + multiset(runs[1..]) by {
        assert runs == [runs[0]] + runs[1..];
      }
      assert multiset(runs[1..]) == multiset(rest);
      ScalarsPermutation(runs[1..], rest, m);
      ScalarsSplit(runs', k, m);
      var x := ScalarOf(runs[0], m);
      var l, r := Scalars(runs'[..k], m), Scalars(runs'[k + 1..], m);
      assert Scalars(runs, m) == [x] + Scalars(runs[1..], m);
      MovedToFront(l, x, r);
    }
  }

  lemma MovedToFront(l: seq<real>, x: real, r: seq<real>)
    ensures multiset(l + [x] + r) == multiset([x] + (l + r))
  {
  }

  /** Permuting the runs does not change a scalar metric's mean. */
  lemma ScalarMeanOrderIndependent(runs: seq<Metrics>, runs': seq<Metrics>, m: string)
    requires |runs| > 0 && multiset(runs) == multiset(runs')
    requires ScalarColumn(runs, m).Ok?
    ensures ScalarColumn(runs', m).Ok?
    ensures Mean(ScalarColumn(runs, m).value) == Mean(ScalarColumn(runs', m).value)
  {
    forall k | 0 <= k < |runs'| ensures Get(runs'[k], m).Some? && Get(runs'[k], m).value.Scalar? {
      assert runs'[k] in multiset(runs);
      var j :| 0 <= j < |runs| && runs[j] == runs'[k];
    }
    forall k | 0 <= k < |runs| ensures ScalarColumn(runs, m).value[k] == Scalars(runs, m)[k] {
      ScalarsAt(runs, m, k);
    }
    forall k | 0 <= k < |runs'| ensures ScalarColumn(runs', m).value[k] == Scalars(runs', m)[k] {
      ScalarsAt(runs', m, k);
    }
    assert ScalarColumn(runs, m).value == Scalars(runs, m);
    assert ScalarColumn(runs', m).value == Scalars(runs', m);
    ScalarsPermutation(runs, runs', m);
    MeanPermutation(Scalars(runs, m), Scalars(runs', m));
  }

  // ---------------------------------------------------------------------------
  // The whole table (`generate_result_table`)
  // ---------------------------------------------------------------------------

  predicate AllNonEmpty(results: seq<CompetitorRuns>) {
    forall k :: 0 <= k < |results| ==> |results[k].runs| > 0
  }

  /** One row per competitor, in the order of `results`. */
  function TableSpec(results: seq<CompetitorRuns>): Result<seq<Row>, TableError>
    requires AllNonEmpty(results)
  {
    if results == [] then Ok([])
    else
      var rows :- TableSpec(results[..|results| - 1]);
      var last := results[|results| - 1];
      var cells :- RowSpec(last.runs);
      Ok(rows + [Row(last.name, cells)])
  }

  /** The table succeeds exactly when every competitor's row does, and then
      row k is competitor k with its aggregated row. */
  lemma {:induction false} TableRows(results: seq<CompetitorRuns>)
    requires AllNonEmpty(results)
    ensures TableSpec(results).Ok? <==> forall k :: 0 <= k < |results| ==> RowSpec(results[k].runs).Ok?
    ensures TableSpec(results).Ok? ==>
      var t := TableSpec(results).value;
      |t| == |results| &&
      forall k :: 0 <= k < |results| ==>
        t[k].name == results[k].name && RowSpec(results[k].runs) == Ok(t[k].cells)
  {
    if results != [] {
      var init := results[..|results| - 1];
      TableRows(init);
      assert forall k :: 0 <= k < |init| ==> init[k] == results[k];
    }
  }

  // ---------------------------------------------------------------------------
  // The per-run table behind the plots (`generate_plots`)
  // ---------------------------------------------------------------------------

  /** `' '.join(competitor.split('_')[:3])` */
  function DisplayName(competitor: string): string {
    var parts := Split(competitor, '_');
    Join(' ', parts[..if |parts| < 3 then |parts| else 3])
  }

  /** A display name holds no underscore. */
  lemma DisplayNameHasNoUnderscore(competitor: string)
    ensures '_' !in DisplayName(competitor)
  {
    var parts := Split(competitor, '_');
    var kept := parts[..if |parts| < 3 then |parts| else 3];
    assert forall k :: 0 <= k < |kept| ==> kept[k] == parts[k];
    JoinAvoids(' ', kept, '_');
  }

  function ReplaceUnderscores(s: string): (r: string)
    ensures |r| == |s|
  {
    if s == [] then [] else [if s[0] == '_' then ' ' else s[0]] + ReplaceUnderscores(s[1..])
  }

  lemma {:induction false} JoinSplitReplaces(s: string)
    ensures Join(' ', Split(s, '_')) == ReplaceUnderscores(s)
    decreases |s|
  {
    if s != [] {
      var rest := Split(s[1..], '_');
      JoinSplitReplaces(s[1..]);
      if s[0] == '_' {
        assert Split(s, '_') == [[]] + rest;
      } else {
        var parts := Split(s, '_');
        assert parts == [[s[0]] + rest[0]] + rest[1..];
        if |rest| > 1 {
          assert parts[1..] == rest[1..];
        }
      }
    }
  }

  /** A name with at most two underscores is displayed whole, with spaces
      for underscores. */
  lemma DisplayNameOfShortName(competitor: string)
    requires |Split(competitor, '_')| <= 3
    ensures DisplayName(competitor) == ReplaceUnderscores(competitor)
  {
    var parts := Split(competitor, '_');
    assert parts[..|parts|] == parts;
    JoinSplitReplaces(competitor);
  }

  /** `[run[m] for run in runs]` as the plots keep it: each run's value of
      `m` whatever its shape; only a run without `m` fails. */
  function ValueColumn(runs: seq<Metrics>, m: string): (r: Result<seq<Value>, TableError>)
    ensures r.Ok? <==> AllHave(runs, m)
    ensures r.Ok? ==> |r.value| == |runs| && forall k :: 0 <= k < |runs| ==> Get(runs[k], m) == Some(r.value[k])
    ensures r.Err? ==> r.error == MissingMetric
  {
    if !AllHave(runs, m) then Err(MissingMetric)
    else Ok(seq(|runs|, k requires 0 <= k < |runs| && AllHave(runs, m) => Get(runs[k], m).value))
  }

  /** Row i of `np.stack(..., axis=1)`: the runs' i-th components, each a scalar. */
  function Layer(vs: seq<seq<real>>, i: nat): (c: seq<Value>)
    requires forall k :: 0 <= k < |vs| ==> i < |vs[k]|
    ensures |c| == |vs| && forall k :: 0 <= k < |vs| ==> c[k] == Scalar(vs[k][i])
  {
    seq(|vs|, k requires 0 <= k < |vs| => Scalar(vs[k][i]))
  }

  predicate AllScalar(xs: seq<Value>) {
    forall k :: 0 <= k < |xs| ==> xs[k].Scalar?
  }

  /** The numbers of a list of scalars. */
  function Reals(xs: seq<Value>): (r: seq<real>)
    requires AllScalar(xs)
    ensures |r| == |xs| && forall k :: 0 <= k < |xs| ==> xs[k] == Scalar(r[k])
  {
    seq(|xs|, k requires 0 <= k < |xs| && AllScalar(xs) => xs[k].x)
  }

  /** The body of the plots' `for metric in metrics:` for one metric: the
      per-run list of a scalar, or the layers of the stacked vectors under
      `m_i`. */
  function AddColumns(row: map<string, seq<Value>>, met: Metric, runs: seq<Metrics>): Result<map<string, seq<Value>>, TableError> {
    match met.value
    case Scalar(_) =>
      var col :- ValueColumn(runs, met.name);
      Ok(row[met.name := col])
    case Vector(xs) =>
      var vs :- VectorColumn(runs, met.name, |xs|);
      Ok(row + IndexedColumns(met.name, vs, |xs|))
    case Higher => Ok(row)
  }

  function IndexedColumns(m: string, vs: seq<seq<real>>, n: nat): (r: map<string, seq<Value>>)
    requires forall k :: 0 <= k < |vs| ==> n <= |vs[k]|
    ensures forall key :: key in r <==> exists i :: 0 <= i < n && key == IndexedKey(m, i)
  {
    if n == 0 then map[]
    else IndexedColumns(m, vs, n - 1)[IndexedKey(m, n - 1) := Layer(vs, n - 1)]
  }

  /** The per-run lists of one competitor, keyed like its aggregated row. */
  function PlotRowOver(example: seq<Metric>, runs: seq<Metrics>): Result<map<string, seq<Value>>, TableError> {
    if example == [] then Ok(map[])
    else
      var prev :- PlotRowOver(example[..|example| - 1], runs);
      AddColumns(prev, example[|example| - 1], runs)
  }

  /** The table of per-run values keyed by display name; a later competitor
      with the same display name replaces an earlier one. */
  function PlotTableSpec(results: seq<CompetitorRuns>): Result<map<string, map<string, seq<Value>>>, TableError>
    requires AllNonEmpty(results)
  {
    if results == [] then Ok(map[])
    else
      var t :- PlotTableSpec(results[..|results| - 1]);
      var last := results[|results| - 1];
      var cells :- PlotRowOver(last.runs[0], last.runs);
      Ok(t[DisplayName(last.name) := cells])
  }

  /** What one metric of the first run needs for the plots: every run carries
      a scalar's key, and a vector is the first run's length in every run. */
  predicate ColumnsOk(met: Metric, runs: seq<Metrics>) {
    match met.value
    case Scalar(_) => AllHave(runs, met.name)
    case Vector(xs) => VectorColumn(runs, met.name, |xs|).Ok?
    case Higher => true
  }

  /** The per-run table of a competitor fails exactly when some metric of its
      first run lacks what `ColumnsOk` asks for; the shape of a scalar's
      values is never checked. */
  lemma {:induction false} PlotRowOk(example: seq<Metric>, runs: seq<Metrics>)
    ensures PlotRowOver(example, runs).Ok? <==> forall j :: 0 <= j < |example| ==> ColumnsOk(example[j], runs)
  {
    if example != [] {
      var init := example[..|example| - 1];
      PlotRowOk(init, runs);
      assert forall j :: 0 <= j < |init| ==> init[j] == example[j];
    }
  }

  /** Every list of `m` has one scalar per run, and `m`'s table entry is their mean. */
  predicate MeansOf(row: map<string, real>, lists: map<string, seq<Value>>, n: nat) {
    && row.Keys == lists.Keys
    && forall key :: key in lists ==>
         |lists[key]| == n && n > 0 && AllScalar(lists[key]) && row[key] == Mean(Reals(lists[key]))
  }

  lemma IndexedMeansOfColumns(m: string, vs: seq<seq<real>>, n: nat)
    requires |vs| > 0 && forall k :: 0 <= k < |vs| ==> n <= |vs[k]|
    ensures MeansOf(IndexedMeans(m, vs, n), IndexedColumns(m, vs, n), |vs|)
  {
    var r, c := IndexedMeans(m, vs, n), IndexedColumns(m, vs, n);
    forall key | key in c ensures |c[key]| == |vs| && AllScalar(c[key]) && r[key] == Mean(Reals(c[key])) {
      var i :| 0 <= i < n && key == IndexedKey(m, i);
      IndexedColumnsAt(m, vs, n, i);
      assert Reals(Layer(vs, i)) == Component(vs, i);
    }
  }

  lemma {:induction false} IndexedColumnsAt(m: string, vs: seq<seq<real>>, n: nat, i: nat)
    requires forall k :: 0 <= k < |vs| ==> n <= |vs[k]|
    requires i < n
    ensures IndexedColumns(m, vs, n)[IndexedKey(m, i)] == Layer(vs, i)
  {
    if i < n - 1 {
      IndexedColumnsAt(m, vs, n - 1, i);
      if IndexedKey(m, i) == IndexedKey(m, n - 1) { IndexedKeyInjective(m, i, n - 1); }
    }
  }

  /** Where the aggregated row builds, the per-run table builds too, on the
      same keys, each aggregated value the mean of its per-run list. */
  lemma {:induction false} RowIsMeanOfPlotRow(example: seq<Metric>, runs: seq<Metrics>)
    requires |runs| > 0
    ensures RowOver(example, runs).Ok? ==> PlotRowOver(example, runs).Ok?
    ensures RowOver(example, runs).Ok? ==>
      MeansOf(RowOver(example, runs).value, PlotRowOver(example, runs).value, |runs|)
  {
    if example != [] && RowOver(example, runs).Ok? {
      var init := example[..|example| - 1];
      var met := example[|example| - 1];
      RowIsMeanOfPlotRow(init, runs);
      var row, lists := RowOver(init, runs).value, PlotRowOver(init, runs).value;
      match met.value
      case Scalar(_) =>
        var col := ScalarColumn(runs, met.name).value;
        var vals := ValueColumn(runs, met.name).value;
        assert Reals(vals) == col;
      case Vector(xs) =>
        IndexedMeansOfColumns(met.name, VectorColumn(runs, met.name, |xs|).value, |xs|);
      case Higher =>
    }
  }

  const MixedRuns: seq<Metrics> := [[Metric("acc", Scalar(0.5))], [Metric("acc", Vector([0.1]))]]

  /** The converse fails: a scalar metric that another run holds as a vector
      stops the aggregated row (numpy cannot average the ragged list) but the
      per-run table keeps the list as it is. */
  lemma PlotToleratesMixedShapes()
    ensures RowOver(MixedRuns[0], MixedRuns) == Err(ShapeMismatch)
    ensures PlotRowOver(MixedRuns[0], MixedRuns)
         == Ok(map["acc" := [Scalar(0.5), Vector([0.1])]])
  {
    var runs := MixedRuns;
    assert Get(runs[0], "acc") == Some(Scalar(0.5));
    assert Get(runs[1], "acc") == Some(Vector([0.1]));
    assert runs[0][..0] == [];
    assert AllHave(runs, "acc");
    var col := ValueColumn(runs, "acc").value;
    assert col[0] == Scalar(0.5) && col[1] == Vector([0.1]);
    assert col == [Scalar(0.5), Vector([0.1])];
  }

  // ---------------------------------------------------------------------------
  // The EEG table (`EEGEvaluation.generate_result_table`)
  // ---------------------------------------------------------------------------

  /** `competitor[:-3]`: the configuration a fold's competitor belongs to. */
  function Group(competitor: string): string {
    DropLast(competitor, 3)
  }

  function Groups(rows: seq<Row>): set<string> {
    set k | 0 <= k < |rows| :: Group(rows[k].name)
  }

  /** The aggregated rows of one configuration's competitors, in order. */
  function Members(rows: seq<Row>, g: string): (ms: seq<map<string, real>>)
    ensures |ms| <= |rows|
  {
    if rows == [] then []
    else Members(rows[..|rows| - 1], g)
         + (if Group(rows[|rows| - 1].name) == g then [rows[|rows| - 1].cells] else [])
  }

  /** `[split[metric] for split in ...]` where every member must have `metric`. */
  function Column(ms: seq<map<string, real>>, metric: string): (c: seq<real>)
    requires forall k :: 0 <= k < |ms| ==> metric in ms[k]
    ensures |c| == |ms| && forall k :: 0 <= k < |ms| ==> c[k] == ms[k][metric]
  {
    seq(|ms|, k requires 0 <= k < |ms| && metric in ms[k] => ms[k][metric])
  }

  predicate HasAll(ms: seq<map<string, real>>, keys: set<string>) {
    forall k :: 0 <= k < |ms| ==> keys <= ms[k].Keys
  }

  /** The row of one configuration: for each metric of its first member, the
      mean over its members. */
  function GroupRow(ms: seq<map<string, real>>): Result<map<string, real>, TableError> {
    if ms == [] then Ok(map[])
    else if !HasAll(ms, ms[0].Keys) then Err(MissingMetric)
    else Ok(map metric | metric in ms[0].Keys :: Mean(Column(ms, metric)))
  }

  function GroupMeans(rows: seq<Row>): Result<map<string, map<string, real>>, TableError> {
    if exists g :: g in Groups(rows) && GroupRow(Members(rows, g)).Err? then Err(MissingMetric)
    else Ok(map g | g in Groups(rows) :: GroupRow(Members(rows, g)).value)
  }

  /** `EEGEvaluation.generate_result_table` on validated results. */
  function EegTableSpec(results: seq<CompetitorRuns>): Result<map<string, map<string, real>>, TableError>
    requires AllNonEmpty(results)
  {
    var rows :- TableSpec(results);
    GroupMeans(rows)
  }

  lemma {:induction false} MembersAt(rows: seq<Row>, g: string, k: nat)
    requires k < |rows| && Group(rows[k].name) == g
    ensures rows[k].cells in Members(rows, g)
  {
    var init := rows[..|rows| - 1];
    if k < |init| {
      MembersAt(init, g, k);
      assert init[k] == rows[k];
    }
  }

  lemma {:induction false} MembersFrom(rows: seq<Row>, g: string, cells: map<string, real>)
    requires cells in Members(rows, g)
    ensures exists k :: 0 <= k < |rows| && Group(rows[k].name) == g && rows[k].cells == cells
  {
    var init := rows[..|rows| - 1];
    if cells in Members(init, g) {
      MembersFrom(init, g, cells);
      var k :| 0 <= k < |init| && Group(init[k].name) == g && init[k].cells == cells;
      assert rows[k] == init[k];
    }
  }

  /** The EEG table has one row per configuration (competitor name minus its
      last three characters); each metric of the configuration's first
      competitor is averaged over the per-competitor means of all its
      competitors, and every competitor in the configuration contributes. */
  lemma {:induction false} EegTableRows(results: seq<CompetitorRuns>, k: nat)
    requires AllNonEmpty(results) && EegTableSpec(results).Ok?
    requires k < |results|
    ensures Group(results[k].name) in EegTableSpec(results).value
    ensures
      var t := TableSpec(results).value;
      var ms := Members(t, Group(results[k].name));
      |ms| > 0 && HasAll(ms, ms[0].Keys) &&
      EegTableSpec(results).value[Group(results[k].name)]
        == map metric | metric in ms[0].Keys :: Mean(Column(ms, metric))
  {
    TableRows(results);
    var t := TableSpec(results).value;
    var g := Group(results[k].name);
    assert Group(t[k].name) == g;
    assert g in Groups(t);
    MembersAt(t, g, k);
  }

  /** Every row of the EEG table belongs to some competitor. */
  lemma EegTableKeys(results: seq<CompetitorRuns>, g: string)
    requires AllNonEmpty(results) && EegTableSpec(results).Ok?
    requires g in EegTableSpec(results).value
    ensures exists k :: 0 <= k < |results| && Group(results[k].name) == g
  {
    TableRows(results);
    var t := TableSpec(results).value;
    var k :| 0 <= k < |t| && Group(t[k].name) == g;
  }
}
