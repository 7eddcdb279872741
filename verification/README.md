# Verified model of the trial selection and sub-scoring of a decoding study

This project models, in Dafny, the core of the analysis scripts of an MEG
study of unseen (masked) stimuli. For each subject and each analysis, a
temporal-generalisation estimator ("GAT") is trained and scored on a chosen
set of trials. The stored single-trial predictions are then re-scored
within each visibility rating or target contrast, without refitting. The
per-trial prediction error is rank-correlated with visibility or contrast.
Diagonal-aligned score matrices are re-centred, and averaged over windows
of interest, to estimate how long a representation generalises.

The modules follow the scripts:

- `Trials` (trials.dfy) holds the shared vocabulary. `Value` is a cell that
  is a real or NaN. A `Table` is the trial metadata data frame. `Where` is
  `np.where`. Also here: fancy indexing (`Pick`), the numpy broadcast rule
  of an assignment (`Broadcast`), and "the first failing iteration raises"
  (`Collect`).
- `Subscore` (subscore.dfy) models `_subscore` and the per-visibility gating
  of `_subscore_pipeline` in scripts/run_plot_subscore_gat.py.
- `Regression` (regression.dfy) models `_subregress` in the same file. That
  covers the circular or linear single-trial error, the present-trial
  selection, and the "independent" mode, which correlates within each
  covariate level and then takes a NaN-ignoring mean.
- `Duration` (duration.dfy) models the time-of-interest window and the
  `np.roll` re-centring of the same file.
- `Decoding` (decoding.dfy) models `_run` in scripts/run_decoding.py. It
  covers the candidate trials, the NaN-label filter, the empty abort, the
  `IndexError` of `epochs[sel]` for a trial past the last epoch, fit
  and score on a `Gat` object, pruning of estimators and predictions, and
  the two saved bundles.
- `ContrastSelection` (contrast_selection.dfy) models the selection of the
  contrast-decoding script: the include and exclude masks, `np.where`, and
  the cap at 400 trials by an in-place Fisher-Yates shuffle and truncation.

Library calls the model cannot see are parameters of the operations that
use them: the analysis scorer, `repeated_spearman`, `jr.gat.subscore`, the
classifier's cross-validated fit and predict, and the random draws of
`random.shuffle`. Boolean columns hold 0.0 and 1.0.

The circular error of a trial is computed as
`|pi - ((pred - true) mod 2 pi)|`, which is pi minus the angular distance
between prediction and truth: an exact prediction gives pi and an opposite
one gives 0 (`Regression.CircularError`, `Regression.CircularErrorExtremes`).

The two gates of the visibility pipeline differ. `_subscore_pipeline`
checks the five-trial minimum on a level's own trials, before the absent
trials are appended. `_subscore` checks it after the append.
`Subscore.PipelineGatesBeforeUnion` shows a table where the two checks
disagree.

## Model

| member | source | states |
|---|---|---|
| Trials.Where | scripts/run_plot_subscore_gat.py:110 | `np.where(mask)[0]` is strictly increasing and every index is within the mask |
| Trials.WhereMembers | scripts/run_plot_subscore_gat.py:110 | `np.where(mask)[0]` holds `i` exactly when `mask[i]` |
| Trials.StrictlyIncreasingUnique | scripts/run_plot_subscore_gat.py:148-150 | two strictly increasing index lists with the same members are equal, so a sorted de-duplicated result such as `intersect1d`'s is fixed by its members |
| Trials.WhereRange | scripts/run_plot_subscore_gat.py:110 | a mask that holds exactly on `lo..hi` selects exactly the indices `lo, ..., hi - 1` |
| Trials.DistinctMultiplicity | scripts/run_plot_subscore_gat.py:110 | in a list without repetitions, such as a `np.where` result, every member occurs exactly once |
| Trials.Broadcast | scripts/run_plot_subscore_gat.py:122 | assigning into `n` cells succeeds exactly when the right-hand side has `n` or 1 values; the result has `n` cells, and a right-hand side of length `n` is copied unchanged |
| Trials.Collect | scripts/run_plot_subscore_gat.py:108-122 | a loop of assignments succeeds exactly when every iteration does, and then keeps every iteration's value in order |
| Trials.CollectFirstError | scripts/run_plot_subscore_gat.py:108-122 | the exception raised is that of the first failing iteration |
| Subscore.Levels | scripts/run_plot_subscore_gat.py:98-100 | visibility has four levels and contrast three |
| Subscore.LevelSelection | scripts/run_plot_subscore_gat.py:110-115 | every index of a level's selection, absent trials included, is a trial of the table |
| Subscore.SelectionMultiplicity | scripts/run_plot_subscore_gat.py:110-115 | a trial occurs once in a level's selection if it has the level, and once more if the analysis is target presence and the trial is absent |
| Subscore.LevelColumn | scripts/run_plot_subscore_gat.py:106-122 | a level's column, when it is not an error, is `n_times` long, and all NaN when the level is skipped |
| Subscore.ScoreLevel | scripts/run_plot_subscore_gat.py:106-122 | one pass of the loop raises exactly when the level's column is an error, writes that column when the level is scored, and leaves every other cell unchanged |
| Subscore.FillColumn | scripts/run_plot_subscore_gat.py:122 | `scores[:, ii] = column` writes column `ii` and leaves every other cell unchanged |
| Subscore.SubscoreLevels | scripts/run_plot_subscore_gat.py:89-123 | the score table is `n_times` by the number of levels; each column is NaN for a skipped level, otherwise the broadcast scorer output on that level's selection; the first out-of-range index or unbroadcastable output raises that error |
| Subscore.LevelColumnCells | scripts/run_plot_subscore_gat.py:106-122 | a level with fewer than five trials or fewer than two distinct labels leaves its whole column NaN; any other level's column is the scorer's output on exactly that level's selection, whose indices are all in range |
| Subscore.VisibilityPipeline | scripts/run_plot_subscore_gat.py:48-58 | four matrices, one per visibility in order; a rating with fewer than five own trials is an all-NaN train x test matrix, any other gets the sub-score of its own trials plus, for target presence, every absent trial |
| Subscore.PipelineGatesBeforeUnion | scripts/run_plot_subscore_gat.py:48-58 | on an eight-trial table, visibility 0 has four own trials, so the pipeline leaves it NaN, while `_subscore`'s check on the appended selection passes |
| Duration.TimeWindow | scripts/run_plot_subscore_gat.py:302 | the window holds exactly the samples with `lo <= times[i] <= hi`, strictly increasing |
| Duration.WindowStep | scripts/run_plot_subscore_gat.py:302 | on a sorted time axis, consecutive window samples are adjacent |
| Duration.WindowIsContiguous | scripts/run_plot_subscore_gat.py:302 | on a sorted time axis, the `k`-th window sample is the first one plus `k` |
| Duration.Roll | scripts/run_plot_subscore_gat.py:300 | `np.roll(s, k)` keeps the length and puts `s[(j - k) mod n]` at position `j` |
| Duration.RollRoundTrip | scripts/run_plot_subscore_gat.py:300 | rolling by `-k` undoes rolling by `k` |
| Duration.CentreScores | scripts/run_plot_subscore_gat.py:300 | re-centring keeps the number of subjects and of training times |
| Duration.CentreMovesDiagonalToMiddle | scripts/run_plot_subscore_gat.py:297-300 | after rolling by `len(times) // 2`, offset 0 sits in the middle column and the last offset just before it |
| Regression.ModTwoPi | scripts/run_plot_subscore_gat.py:142 | Python's `x % (2 pi)` lies in `[0, 2 pi)` |
| Regression.ModTwoPiPeriodic | scripts/run_plot_subscore_gat.py:142 | adding a full turn does not change the remainder |
| Regression.AngularDistance | scripts/run_plot_subscore_gat.py:141-143 | the angle between two directions lies in `[0, pi]` |
| Regression.CircularError | scripts/run_plot_subscore_gat.py:141-143 | the circular error is NaN exactly when the true angle is, lies in `[0, pi]`, and equals pi minus the angular distance between prediction and truth |
| Regression.CircularErrorExtremes | scripts/run_plot_subscore_gat.py:141-143 | an exact prediction has error pi, an opposite one 0, and a full turn changes nothing |
| Regression.LinearError | scripts/run_plot_subscore_gat.py:145 | the linear error is NaN exactly when the truth is, is never negative, and is 0 exactly for an exact prediction |
| Regression.TrialErrors | scripts/run_plot_subscore_gat.py:140-145 | one error per trial and time point, non-negative, and at most pi for a circular analysis |
| Regression.Intersect | scripts/run_plot_subscore_gat.py:148-150 | `np.intersect1d` is strictly increasing and holds exactly the common members |
| Regression.RegressionSelection | scripts/run_plot_subscore_gat.py:148-150 | the correlated trials are exactly the present ones whose factor is at least its lowest level, in increasing order |
| Regression.CountRealZero | scripts/run_plot_subscore_gat.py:165 | no non-NaN entry is counted exactly when every entry is NaN |
| Regression.NanMean | scripts/run_plot_subscore_gat.py:165 | the NaN-ignoring mean is NaN exactly when every entry is NaN |
| Regression.NanMeanWithin | scripts/run_plot_subscore_gat.py:165 | the NaN-ignoring mean lies within any bounds of the non-NaN entries |
| Regression.CovariateRow | scripts/run_plot_subscore_gat.py:159-164 | a level's row, when it is not an error, is `n_times` long, and a level of five trials or fewer gives an all-NaN row |
| Regression.CovariateRowCells | scripts/run_plot_subscore_gat.py:158-164 | after the loop, a level of five trials or fewer has an all-NaN row and any other level's row is the broadcast rank correlation within exactly that level's trials; every row is `n_times` long |
| Regression.FillRow | scripts/run_plot_subscore_gat.py:164 | `R[ii] = row` writes row `ii` and leaves every other cell unchanged |
| Regression.RegressOnLevels | scripts/run_plot_subscore_gat.py:158-165 | the loop over an all-NaN `R` with skips and row assignments, followed by the column-wise NaN-mean, gives the independent-mode result, the first unbroadcastable row raising |
| Regression.SubRegress | scripts/run_plot_subscore_gat.py:126-168 | a length mismatch between predictions and labels raises `ValueError`; otherwise the result is the correlation over all selected trials, or the NaN-mean of the per-level correlations over the levels iterated as written |
| Regression.SubRegressCorrected | scripts/run_plot_subscore_gat.py:126-168 | the same as `SubRegress`, iterating the covariate's own levels |
| Regression.IndependentBounded | scripts/run_plot_subscore_gat.py:158-165 | the independent result has one value per time point and lies in `[-1, 1]` when every rank correlation does |
| Regression.IndependentAllSkipped | scripts/run_plot_subscore_gat.py:158-165 | when every covariate level holds five trials or fewer, the independent result is NaN at every time point |
| Regression.IteratedLevelsMissCovariate | scripts/run_plot_subscore_gat.py:154-161 | as written, a trial of contrast 0.5 or 0.75 (visibility regression), or of rating 0, 2 or 3 (contrast regression), is in no level's subset |
| Regression.CorrectedLevelsPartition | scripts/run_plot_subscore_gat.py:154-161 | with the covariate's own levels, every selected trial that has one of them is in exactly one level's subset |
| Decoding.Candidates | scripts/run_decoding.py:21-22 | with no query, the candidates are every trial in order; otherwise they are the query's trials; all are in range |
| Decoding.ValidTrials | scripts/run_decoding.py:23 | every kept trial is in range and has a numeric label, and no more trials are kept than there are candidates |
| Decoding.ValidTrialsMembers | scripts/run_decoding.py:23 | the kept trials are exactly the candidates whose label is not NaN |
| Decoding.ValidTrialsAppend | scripts/run_decoding.py:23 | filtering a concatenation is concatenating the filtered parts, so order is kept |
| Decoding.ValidTrialsIdempotent | scripts/run_decoding.py:23 | filtering twice is filtering once |
| Decoding.ValidTrialsSorted | scripts/run_decoding.py:21-23 | sorted candidates stay sorted after filtering |
| Decoding.ValidTrialsEmpty | scripts/run_decoding.py:23-32 | nothing is kept exactly when every candidate's label is NaN, which is when the run aborts |
| Decoding.Labels | scripts/run_decoding.py:26 | `y[sel]` holds one real label per kept trial, the trial's own |
| Decoding.Gat.constructor | scripts/run_decoding.py:35-38 | a new estimator has neither estimators nor predictions |
| Decoding.Gat.Fit | scripts/run_decoding.py:40 | fitting stores the estimators trained on the given trials and labels |
| Decoding.Gat.Score | scripts/run_decoding.py:42 | scoring keeps the estimators, stores their predictions on the trials and returns the scorer's value on them |
| Decoding.Gat.Prune | scripts/run_decoding.py:46-54 | estimators survive only for `probe_phase` and `target_circAngle`, predictions only for `target_present`, `target_circAngle` and `probe_circAngle`; the rest becomes `None` |
| Decoding.Run | scripts/run_decoding.py:14-63 | nothing is saved exactly when no trial is left; `epochs[sel]` raises `IndexError` exactly when some kept trial is past the last epoch; otherwise the saved trials are the kept ones, the score comes from the unpruned predictions, and the saved estimator holds only what the analysis keeps |
| ContrastSelection.ValueMasks | python/results/run_decoding/0x1.544602439b246p+30/script.py:51-53 | the masks of one exclusion are one `col == value` mask per value, in the order of the values |
| ContrastSelection.ExcludeMasks | python/results/run_decoding/0x1.544602439b246p+30/script.py:51-53 | every mask of the nested comprehension has one entry per trial |
| ContrastSelection.AnyOf | python/results/run_decoding/0x1.544602439b246p+30/script.py:51-54 | `np.any(masks, axis=0)` holds at a trial exactly when some mask does, and nowhere when there are no masks |
| ContrastSelection.ValueMasksMatch | python/results/run_decoding/0x1.544602439b246p+30/script.py:51-53 | the masks of one exclusion hold at a trial exactly when the trial takes one of its values |
| ContrastSelection.ExcludeMasksMatch | python/results/run_decoding/0x1.544602439b246p+30/script.py:51-54 | some exclusion mask holds at a trial exactly when one of the exclusions' values is that trial's condition value |
| ContrastSelection.ExcludeMask | python/results/run_decoding/0x1.544602439b246p+30/script.py:51-54 | the exclude mask holds exactly at the excluded trials, and with no exclusions nothing is excluded |
| ContrastSelection.IncludeMasks | python/results/run_decoding/0x1.544602439b246p+30/script.py:57-61 | the loop builds one equality mask per included value, in order |
| ContrastSelection.Eligible | python/results/run_decoding/0x1.544602439b246p+30/script.py:62-63 | the trials before the cap are exactly those included and not excluded, in increasing order |
| ContrastSelection.Candidates | python/results/run_decoding/0x1.544602439b246p+30/script.py:51-63 | the masks and `np.where` compute exactly the eligible trials |
| ContrastSelection.Swap | python/results/run_decoding/0x1.544602439b246p+30/script.py:68 | a swap exchanges the two positions and leaves every other one unchanged |
| ContrastSelection.SwapPermutes | python/results/run_decoding/0x1.544602439b246p+30/script.py:68 | a swap is a permutation |
| ContrastSelection.SwapDistinct | python/results/run_decoding/0x1.544602439b246p+30/script.py:68 | a swap keeps a duplicate-free list duplicate-free |
| ContrastSelection.ShuffleFromPermutes | python/results/run_decoding/0x1.544602439b246p+30/script.py:68 | the remaining shuffle steps permute the list and keep a duplicate-free list duplicate-free |
| ContrastSelection.ShuffledPermutes | python/results/run_decoding/0x1.544602439b246p+30/script.py:68 | `random.shuffle` permutes the list and keeps a duplicate-free list duplicate-free |
| ContrastSelection.Shuffle | python/results/run_decoding/0x1.544602439b246p+30/script.py:68 | the in-place Fisher-Yates loop leaves the array equal to the shuffle of its old contents |
| ContrastSelection.CappedTrials | python/results/run_decoding/0x1.544602439b246p+30/script.py:66-69 | the cap keeps `min(n, 400)` distinct trials, all from the selection, and the selection itself when it holds at most 400 |
| ContrastSelection.CapTrials | python/results/run_decoding/0x1.544602439b246p+30/script.py:66-69 | shuffling a copy in place and keeping its first 400 computes the capped selection |
| ContrastSelection.SelectTrials | python/results/run_decoding/0x1.544602439b246p+30/script.py:51-71 | the decoded trials are at most 400 distinct eligible trials, the capped eligible list, and `y[sel]` holds their condition values |

## Left out

- Loading and saving files, caching, uploading, report figures, plotting and `print` are not modelled; they are I/O. `Decoding.Run` returns the two saved bundles as a value.
- The classifier, its cross-validation, the analysis scorer, `repeated_spearman` and `jr.gat.subscore` are foreign library calls. They are function parameters, and only their shapes and how they are wired are modelled.
- Python floats are modelled as exact reals, and `np.pi` as a 16-digit decimal. The float32 cast of the labels in scripts/run_decoding.py:26 is not modelled, because rounding is floating point.
- Decoding.Candidates: the data-frame query string is not evaluated. The model takes the index list it selects, and it assumes the data frame's labels are its row positions, as after `reset_index`.
- A missing column (pandas `KeyError`) is a precondition, because the code never handles it.
- `_average_ypred_toi` (scripts/run_plot_subscore_gat.py:72-86) is modelled only through its window selection (`Duration.TimeWindow`). The median, complex angle and radius weighting are floating-point trigonometry and are left out.
- The window means at scripts/run_plot_subscore_gat.py:303 and 555-562 are left out, and so is `align_on_diag` at line 298; statistics and tables are left out too.
- The number of distinct labels counts NaN once, as `np.unique` does in current numpy.
- Predictions of more than two dimensions are not modelled. `Predictions` is a vector or a rectangular matrix.
- ContrastSelection.Shuffle: the random draws are a function `draw` with `draw(k) <= k`, which the shuffle calls once per step `k`. The random generator and its seed are left out.
- The contrast script's lines 42-45 do not parse, and line 48 uses an undefined `contrasts`. The model takes one contrast as a parameter. The GAT fit, score and plots at lines 74-85 are left out, as in `Decoding`, and so is the unused file name at lines 87-88.
- Regression.IndependentBounded: the bound `[-1, 1]` is conditional on every rank correlation lying in `[-1, 1]`, because `repeated_spearman` is a parameter.

## Findings

| source | as written | input that shows it | evidently intended | confidence | as-written member | corrected member |
|---|---|---|---|---|---|---|
| scripts/run_plot_subscore_gat.py:156 | `cov_key, cov_values = factors[factor]` iterates the regressed factor's own levels over the covariate column | visibility regression with `independent=True`: a present trial with `target_contrast == 0.5` equals none of the iterated levels 0, 1, 2, 3, so it enters no covariate subset, and only contrast-1.0 trials are ever correlated | `factors[cov]`, the covariate's own levels, so every present trial with a valid covariate falls in exactly one subset | not executed | Regression.IteratedLevelsMissCovariate | Regression.CorrectedLevelsPartition |
