# Evaluation bookkeeping of GeodesicRelaxationDCCA, modelled in Dafny

GeodesicRelaxationDCCA trains multi-view encoders and compares trained
models, called *competitors*, across many training runs. This project
models the bookkeeping in `algorithms/evaluation.py`. That covers:

- **Discovery:** find the competitors and their run directories in an
  experiment directory, sort them by name and filter them by a substring.
- **Validation:** score every run. A run whose model cannot be loaded
  (OSError) is skipped, and a competitor with no scored run is dropped.
- **Result tables:** reduce per-run metric dictionaries to the result table
  of per-competitor means, the per-run table behind the plots, and the
  two-level EEG table grouped by configuration.
- **Evaluator variants:** the synthetic checkpoint selector and `sim_avg`;
  the MNIST cluster-to-majority-label mapping and its accuracy; the EEG
  fold read from the run path.

Modules:

- `Basics` (basics.dfy): Option/Result, Python string operations and means over reals.
- `Discovery` (discovery.dfy): `get_competitors` over a snapshot of the directory tree.
- `Tables` (tables.dfy): specification functions for every table.
- `Clustering` (clustering.dfy): the majority mapping as an in-place array loop, plus accuracy.
- `Evaluation` (evaluation.dfy): the session class `Evaluation`, whose methods are proved against those functions.
- `Evaluators` (evaluators.dfy): the three evaluator variants.

Loading a model and scoring it are inputs. `validate_all` receives a
function `outcome` from run path to `Scored(metrics)` or `Raised(exception)`.
Each evaluator variant builds that function from the data of its foreign
calls:

- a `load` function that gives a model, or nothing when loading raises OSError;
- restore status and similarity vectors for the synthetic variant;
- cluster and true labels for MNIST;
- SVM accuracy for EEG.

Metric dictionaries are sequences of `Metric(name, value)` in insertion
order, with no name repeated, as in a Python dictionary. A value is a
scalar, a vector, or a tensor of higher rank. Means are taken over `real`.

Two details of the code that the model keeps:

- The EEG fold is read from the fourth character from the end of the run
  path (`int(model_path[-4])`).
- The synthetic evaluator checks its checkpoint selector only after a
  run's model has loaded. An unknown selector therefore ends the session
  with ValueError at the first run that loads. A session in which no run
  loads completes, with empty results.

## Model

| member | source | states |
|---|---|---|
| Basics.DropLast | algorithms/evaluation.py:252 | `name[:-3]` has three characters fewer and is a prefix of the name; it is empty for a name shorter than three |
| Basics.NatToStringInjective | algorithms/evaluation.py:84 | distinct indices print differently, so the keys `m_0`, `m_1`, ... of one vector metric never collide |
| Basics.MeanPermutation | algorithms/evaluation.py:80 | the mean of a list does not depend on the order of its values |
| Basics.MeanBounds | algorithms/evaluation.py:80 | a mean lies between any common lower and upper bound of its values |
| Basics.LexLeTotal | algorithms/evaluation.py:26 | any two names are comparable in Python's string order |
| Basics.LexLeTransitive | algorithms/evaluation.py:26 | Python's string order is transitive |
| Basics.LexLeAntisymmetric | algorithms/evaluation.py:26 | two names each at most the other are equal |
| Basics.DistinctPermutation | algorithms/evaluation.py:26 | reordering a list of names without repeats, as sorting does, leaves it without repeats |
| Basics.JoinSplit | algorithms/evaluation.py:94 | joining the parts of a split on the same separator gives back the string |
| Discovery.JoinPath | algorithms/evaluation.py:40 | `os.path.join(dir, name)` ends with `name` |
| Discovery.DirNamesMembers | algorithms/evaluation.py:23 | a name is a candidate competitor iff some directory entry of the experiment directory has that name; files never are |
| Discovery.DirNamesDistinct | algorithms/evaluation.py:23 | a listing whose entries have distinct names, as `os.listdir` gives, yields distinct competitor names |
| Discovery.SortNames | algorithms/evaluation.py:26 | the sorted names are in ascending string order and are a permutation of the input |
| Discovery.SortedMembers | algorithms/evaluation.py:26 | sorting keeps exactly the same names |
| Discovery.RejectedMembers | algorithms/evaluation.py:30-33 | `keys_to_pop` holds exactly the names that do not contain the pattern |
| Discovery.WithoutRejected | algorithms/evaluation.py:35-36 | popping the rejected keys one by one leaves exactly the names containing the pattern, in their order |
| Discovery.MatchingMembers | algorithms/evaluation.py:29-36 | with a pattern, a competitor is kept iff its name contains the pattern as a substring |
| Discovery.MatchingSorted | algorithms/evaluation.py:26-36 | filtering keeps the survivors in sorted order |
| Discovery.MatchingDistinct | algorithms/evaluation.py:29-36 | filtering by the pattern never repeats a name |
| Discovery.FilterByPattern | algorithms/evaluation.py:29-36 | the two loops (collect `keys_to_pop`, then pop them) leave the pattern filter of the names; with no pattern the names are unchanged |
| Discovery.RunPathsInListingOrder | algorithms/evaluation.py:41-45 | the k-th run path is the k-th sub-directory of the competitor's listing joined to its path, so runs keep listing order and files are skipped |
| Discovery.RunsAreDirectories | algorithms/evaluation.py:44-45 | every run path is the join of the competitor path with the name of a directory entry |
| Discovery.ListRuns | algorithms/evaluation.py:41-45 | the loop over the listing appends exactly the run paths of the sub-directories, in order |
| Discovery.CollectRuns | algorithms/evaluation.py:39-45 | each competitor gets its own listing's run paths, in competitor order |
| Discovery.GetCompetitors | algorithms/evaluation.py:21-47 | the competitors are the directory entries that match the pattern, in ascending name order, each with its run paths; a name is present iff it is a directory entry containing the pattern; a listing of distinct names gives competitors of distinct names |
| Discovery.DiscoveredNamesDistinct | algorithms/evaluation.py:23-36 | a listing of distinct names gives discovered competitors of distinct names, one per key of the `competitors` dictionary |
| Tables.Get | algorithms/evaluation.py:80 | `run[m]` yields a value iff the run has a metric named `m`, and that value is the run's |
| Tables.ScalarColumn | algorithms/evaluation.py:80 | `[run[m] for run in runs]` succeeds iff every run has a scalar `m`, holding each run's value in run order; it fails with a missing-key error iff some run lacks `m` |
| Tables.VectorColumn | algorithms/evaluation.py:82 | `np.stack` of `m` succeeds iff every run has a vector `m` of the first run's length, holding each run's vector |
| Tables.IndexedMeans | algorithms/evaluation.py:82-84 | a vector metric of length n writes exactly the keys `m_0` ... `m_{n-1}`, entry i being the mean of the runs' i-th components |
| Tables.IndexedKeyInjective | algorithms/evaluation.py:84 | `m + '_' + str(i)` determines i |
| Tables.AddMetricKeys | algorithms/evaluation.py:78-84 | one metric adds exactly the keys it writes and leaves every other key unchanged |
| Tables.RowKeys | algorithms/evaluation.py:75-84 | the row has exactly the keys written by the first run's scalar and vector metrics; a metric of rank two or more contributes none |
| Tables.RowPrefixOk | algorithms/evaluation.py:78-84 | if the whole row builds, so does the row over every prefix of the metric list |
| Tables.LastWriterWins | algorithms/evaluation.py:78-84 | a key holds the value of the last metric that writes it |
| Tables.ScalarEntryIsMean | algorithms/evaluation.py:79-80 | a scalar metric m of the first run ends up as the mean of `run[m]` over all runs |
| Tables.VectorEntryIsMean | algorithms/evaluation.py:81-84 | entry i of a vector metric m ends up under `m_i` as the mean of the runs' i-th components |
| Tables.MissingMetricFails | algorithms/evaluation.py:80 | a run lacking a scalar or vector metric of the first run makes the row fail |
| Tables.ScalarsPermutation | algorithms/evaluation.py:80 | permuting the runs permutes the column of a scalar metric |
| Tables.ScalarMeanOrderIndependent | algorithms/evaluation.py:74-80 | permuting the runs leaves a scalar metric's column buildable and its mean unchanged |
| Tables.TableRows | algorithms/evaluation.py:71-86 | the table succeeds iff every competitor's row does; row k is then competitor k with its aggregated row |
| Tables.DisplayNameHasNoUnderscore | algorithms/evaluation.py:94 | a display name holds no underscore |
| Tables.DisplayNameOfShortName | algorithms/evaluation.py:94 | a name with at most two underscores is displayed whole, with spaces for its underscores |
| Tables.ValueColumn | algorithms/evaluation.py:102 | the plots' `[run[m] for run in runs]` succeeds iff every run has `m`, holding each run's value, whatever its shape, in run order |
| Tables.PlotRowOk | algorithms/evaluation.py:96-106 | the per-run lists of a competitor build iff every run has each scalar metric of the first run and each of its vector metrics with the first run's length; the shape of a scalar metric's values is not checked |
| Tables.IndexedMeansOfColumns | algorithms/evaluation.py:82-84 | each indexed per-run list holds one scalar per run, and the aggregated entry is their mean |
| Tables.RowIsMeanOfPlotRow | algorithms/evaluation.py:96-106 | where the aggregated row builds, the per-run lists build too, on the same keys, each aggregated value the mean of its per-run list of scalars |
| Tables.PlotToleratesMixedShapes | algorithms/evaluation.py:101-102 | the converse fails: a scalar metric that a later run holds as a vector fails the aggregated row with a shape error, while the plots keep the run's values as they are |
| Tables.MembersAt | algorithms/evaluation.py:255-259 | every competitor's row is filed under its configuration |
| Tables.MembersFrom | algorithms/evaluation.py:255-259 | a configuration holds only rows of competitors that belong to it |
| Tables.EegTableRows | algorithms/evaluation.py:252-276 | every competitor's configuration is a row of the EEG table; each metric of the configuration's first member maps to the mean, over all the configuration's members, of their per-competitor means |
| Tables.EegTableKeys | algorithms/evaluation.py:252-254 | every EEG row belongs to some competitor |
| Clustering.MaxLabel | algorithms/evaluation.py:202 | no label in a cluster exceeds the bound `np.bincount` counts up to |
| Clustering.BestLabel | algorithms/evaluation.py:202 | `np.argmax` over the counts: a label with the greatest count, the smallest such |
| Clustering.MajorityIsMostFrequent | algorithms/evaluation.py:202 | for a non-empty cluster with non-negative labels, the majority label occurs in the cluster, no label occurs more often, and every smaller label occurs strictly less often |
| Clustering.MajorityPrediction | algorithms/evaluation.py:199-202 | the loop over clusters fills the prediction array exactly as specified: each sample of a cluster below k gets the cluster's majority label, other samples keep 0; an empty cluster or a negative label raises ValueError |
| Clustering.EmptyClusterFails | algorithms/evaluation.py:201-202 | a cluster id below k that no sample has makes the mapping fail |
| Clustering.CountOfMember | algorithms/evaluation.py:202 | a sample's label is counted in its cluster |
| Clustering.CountBeyondMax | algorithms/evaluation.py:202 | labels outside the counted range have count 0 |
| Clustering.Matches | algorithms/evaluation.py:205 | the number of agreeing positions is at most the number of samples |
| Clustering.AccuracyBounds | algorithms/evaluation.py:204-206 | the accuracy lies in [0, 1] |
| Clustering.PerfectAccuracy | algorithms/evaluation.py:204-206 | on a non-empty set the accuracy is 1 iff every prediction equals its label |
| Clustering.AllMatch | algorithms/evaluation.py:205 | all positions agree iff the prediction equals the labels |
| Evaluation.ValidateSpec | algorithms/evaluation.py:49-65 | the results hold only competitors with a non-empty run list, and no more entries than there are competitors |
| Evaluation.ValidateNamesDistinct | algorithms/evaluation.py:51-63 | competitors with distinct names give results with distinct names, so each competitor has at most one entry |
| Evaluation.SuccessesMeaning | algorithms/evaluation.py:53-59 | a competitor's runs are collected iff none raises anything but OSError; the collected metrics are exactly those of the scored runs; an exception that escapes is one a run raised |
| Evaluation.AllFailedIsEmpty | algorithms/evaluation.py:53-61 | a competitor all of whose loads fail contributes no runs |
| Evaluation.ResultsComeFromCompetitors | algorithms/evaluation.py:51-61 | every results entry is a competitor, with a non-empty list that is exactly the metrics its runs produced |
| Evaluation.ScoredCompetitorsKept | algorithms/evaluation.py:51-61 | every competitor with at least one scored run is in the results, with its runs |
| Evaluation.ValidateOkIff | algorithms/evaluation.py:49-65 | validation completes iff no run raises anything but OSError; failed loads never abort |
| Evaluation.ValidateErrRaised | algorithms/evaluation.py:54-59 | the exception that ends a session is not OSError and was raised by one of its runs |
| Evaluation.NothingScoredNothingKept | algorithms/evaluation.py:60-61 | when no run is scored, a completed validation has empty results |
| Evaluation.Evaluation.constructor | algorithms/evaluation.py:14-19 | a new session holds the discovered competitors and no results; a listing of distinct names gives competitors of distinct names |
| Evaluation.Evaluation.ValidateAll | algorithms/evaluation.py:49-65 | the nested loops compute exactly the specified results and store them; an escaping exception leaves the stored results unchanged |
| Evaluation.Evaluation.GenerateResultTable | algorithms/evaluation.py:67-86 | before validation it fails; afterwards it builds exactly the specified table |
| Evaluation.Evaluation.GeneratePlotTable | algorithms/evaluation.py:88-106 | before validation it fails; afterwards it builds the per-run table keyed by display name, a later competitor replacing an earlier one with the same display name |
| Evaluation.Evaluation.GenerateEegResultTable | algorithms/evaluation.py:248-278 | before validation it fails; afterwards it builds exactly the specified two-level table |
| Evaluation.BuildRow | algorithms/evaluation.py:73-84 | the metric loop builds the specified aggregated row of one competitor |
| Evaluation.AddMetricStep | algorithms/evaluation.py:78-84 | one iteration of the metric loop writes the metric's mean or per-index means |
| Evaluation.AddIndexedMeans | algorithms/evaluation.py:83-84 | the enumerate loop adds the per-index means under `m_i` |
| Evaluation.BuildPlotRow | algorithms/evaluation.py:96-106 | the metric loop builds the specified per-run lists of one competitor |
| Evaluation.GroupMean | algorithms/evaluation.py:270-276 | one configuration's row is the mean per metric of its first member over all its members; a member lacking such a metric raises KeyError |
| Evaluation.SessionAbortsAt | algorithms/evaluation.py:54-59 | a run raising anything but OSError ends the whole session with that exception |
| Evaluation.EndToEndScenario | algorithms/evaluation.py:49-86 | two competitors with two runs each, one run damaged: validation completes, the damaged competitor keeps one run, the other keeps two, and the table has two rows |
| Evaluators.SimAvg | algorithms/evaluation.py:169 | `sim_avg` has the similarities' length |
| Evaluators.SimAvgBetween | algorithms/evaluation.py:169 | each averaged similarity lies between the two per-view similarities |
| Evaluators.SimAvgSymmetric | algorithms/evaluation.py:169 | the average does not depend on the order of the views, and equal similarities average to themselves |
| Evaluators.SimAvgInUnitRange | algorithms/evaluation.py:169 | similarities in [0, 1] average to values in [0, 1] |
| Evaluators.SyntheticEval | algorithms/evaluation.py:136-152 | an unknown selector raises ValueError; a failed restore raises AssertionError, which ends the session; the run is scored iff the selector is one of view0, view1, avg, latest and restoring `os.path.join(path, selector)` succeeds; the metrics are those of that checkpoint |
| Evaluators.SyntheticRunLayout | algorithms/evaluation.py:169-171 | a scored run has exactly ccor, sim_v0, sim_v1 and sim_avg, in that order, sim_avg being the elementwise mean of the two similarities |
| Evaluators.BogusSelector | algorithms/evaluation.py:137-141 | with an unknown selector, a session completes iff no run loads, and then with empty results; otherwise it ends with ValueError |
| Evaluators.MnistSessionAsWritten | algorithms/evaluation.py:57 | with the MNIST evaluator a session never yields a result: it completes empty iff no run loads, and otherwise ends with TypeError |
| Evaluators.MnistEval | algorithms/evaluation.py:189-208 | a run is scored iff the majority mapping succeeds; the single metric is the accuracy of that mapping; otherwise ValueError |
| Evaluators.MnistAccuracyInUnitRange | algorithms/evaluation.py:204-206 | a scored MNIST run reports one accuracy, in [0, 1] |
| Evaluators.AccuracyRowInUnitRange | algorithms/evaluation.py:79-80 | competitors whose runs report accuracies in [0, 1] get a table accuracy in [0, 1] |
| Evaluators.MnistSessionIntended | algorithms/evaluation.py:176-208 | when every loaded run clusters into non-empty clusters with non-negative labels, the session completes and every kept competitor's table accuracy is in [0, 1] |
| Evaluators.FoldIndex | algorithms/evaluation.py:218 | the fold is the digit four characters from the end of the path; a shorter path raises IndexError and a non-digit raises ValueError |
| Evaluators.FoldIndexOfSuffix | algorithms/evaluation.py:218 | a path ending in digit d followed by three characters has fold d |
| Evaluators.EegOutcomeMeaning | algorithms/evaluation.py:215-219 | an EEG run is scored iff it loads and its path names a fold, reporting the accuracy on that fold; a failed load raises OSError and is skipped; a run ends the session iff it loads and its path names no fold |
| Evaluators.EegSession | algorithms/evaluation.py:211-224 | an EEG session completes iff every run that loads names a fold in its path; otherwise it ends with that path's IndexError or ValueError |

## Left out

- `architecture/encoder.py` is not part of this model: TensorFlow layers, random initialisation and SVD-based algebra.
- Foreign calls are inputs of the model and are not modelled themselves:
  - `tf.keras.models.load_model`;
  - `model.load_weights`;
  - the forward passes and `MetricDict` accumulation;
  - `SpectralClustering` and `LinearSVC`/`accuracy_score`;
  - `get_similarity_metric_v1`;
  - the data provider and its `get_split`.
- The directory tree is a snapshot (`Entry` values). `os.listdir` order is whatever the snapshot lists.
- `print(e)` of a skipped run is not modelled. It only writes output.
- The pandas `DataFrame` is not modelled. The tables are sequences of rows and maps, and column order in the DataFrame is not modelled.
- Everything in `generate_plots` after line 106 is left out (figure layout, box plots, scatter). So is the IndexError those lines raise on empty results.
- Means are over `real`, not IEEE doubles. Rounding and NaN are not modelled.
- `Tables.ScalarMeanOrderIndependent`: order independence is proved for scalar metrics only. The per-index means of vector metrics are not covered.
- `Evaluators.MnistEval`: the clusters and labels of a run are taken to be equally long. The source takes its labels from the last test batch only, and a length mismatch (IndexError or a TensorFlow shape error) is not modelled.
- `Evaluators.FoldIndex`: Python's `int` also accepts non-ASCII decimal digits. The model accepts only `0`-`9`.
- `Evaluators.SyntheticEval`: `assert load_status` is modelled as a boolean restore result. The truthiness of TensorFlow's load-status object is not modelled.
- `Evaluation.Evaluation.ValidateAll`: this method serves both `Evaluation.validate_all` and `EEGEvaluation.validate_all`. The EEG variant differs only in its outcome (`Evaluators.EegOutcome`) and in returning nothing.
- The guard `assert False == True` before validation becomes the `NotValidated` error.
- `KeyError` from a metric missing in a run, and the shape errors of `np.stack`, are the table errors `MissingMetric` and `ShapeMismatch`.
- `Tables.ScalarColumn`: a scalar metric that another run holds with a different shape fails with `ShapeMismatch`, as NumPy 1.24 and later raise on the ragged list. Older NumPy averages an object array instead, and that behaviour is not modelled.

## Findings

| source | as written | input that shows it | evidently intended | confidence | as-written member | corrected member |
|---|---|---|---|---|---|---|
| algorithms/evaluation.py:57 | The base `validate_all` calls `self.eval(model, weights_to_load=...)`. `MNISTEvaluation.eval` takes `(model, shared_dim)`, so the call raises TypeError, which the `except OSError` does not catch. | Any experiment directory with at least one run whose model loads. The session ends with TypeError. With none, the results are empty. | Each loaded MNIST run is scored by `compute_metrics` (majority mapping and accuracy), and the session completes. | high; not executed | Evaluators.MnistSessionAsWritten | Evaluators.MnistSessionIntended |
