/** Single-trial prediction error and its rank correlation with a factor
    (`_subregress`): the length check, the circular or linear error, the
    present-trial selection, and the "independent" mode that correlates
    within each covariate level and averages the levels. */
module Regression {
  import opened Trials
  import opened Subscore

  /** `np.pi`, written as a decimal. */
  const Pi: real := 3.141592653589793

  function Abs(x: real): real {
    if x < 0.0 then -x else x
  }

  const TwoPi: real := 2.0 * Pi

  /** Python's float `x % (2 * np.pi)`: the remainder takes the sign of the
      divisor, so it lies in [0, 2 pi). */
  function ModTwoPi(x: real): (r: real)
    ensures 0.0 <= r < TwoPi
  {
    x - TwoPi * (x / TwoPi).Floor as real
  }

  /** The remainder does not change when a whole turn is added. */
  lemma ModTwoPiPeriodic(x: real)
    ensures ModTwoPi(x + TwoPi) == ModTwoPi(x)
  {
    var y := x / TwoPi;
    assert (x + TwoPi) / TwoPi == y + 1.0;
    var a, b := y.Floor, (y + 1.0).Floor;
    assert a as real <= y < a as real + 1.0;
    assert b as real <= y + 1.0 < b as real + 1.0;
    assert b == a + 1;
  }

  /** The angle between two directions that differ by `d`, in [0, pi]. */
  function AngularDistance(d: real): (a: real)
    ensures 0.0 <= a <= Pi
  {
    var w := ModTwoPi(d);
    if w <= Pi then w else TwoPi - w
  }

  /** The single-trial error of a circular analysis, as written:
      `|pi - ((pred - true) mod 2 pi)|`. It is pi minus the angular distance,
      so it lies in [0, pi] and is largest for an exact prediction. */
  function CircularError(pred: real, truth: Value): (e: Value)
    ensures e.NaN? <==> truth.NaN?
    ensures e.Real? ==> 0.0 <= e.r <= Pi
    ensures truth.Real? ==> e == Real(Pi - AngularDistance(pred - truth.r))
  {
    if truth.NaN? then NaN else Real(Abs(Pi - ModTwoPi(pred - truth.r)))
  }

  /** An exact prediction scores pi, an opposite one scores 0, and a full
      turn changes nothing. */
  lemma CircularErrorExtremes(t: real, pred: real)
    ensures CircularError(t, Real(t)) == Real(Pi)
    ensures CircularError(t + Pi, Real(t)) == Real(0.0)
    ensures CircularError(pred + TwoPi, Real(t)) == CircularError(pred, Real(t))
  {
    assert 0.0 / TwoPi == 0.0;
    assert Pi / TwoPi == 0.5;
    assert (t + Pi) - t == Pi;
    assert (pred + TwoPi) - t == (pred - t) + TwoPi;
    ModTwoPiPeriodic(pred - t);
  }

  /** The single-trial error of a linear analysis: `|pred - true|`. */
  function LinearError(pred: real, truth: Value): (e: Value)
    ensures e.NaN? <==> truth.NaN?
    ensures e.Real? ==> e.r >= 0.0 && (e.r == 0.0 <==> pred == truth.r)
  {
    if truth.NaN? then NaN else Real(Abs(pred - truth.r))
  }

  /** `sub in s` for strings. */
  predicate Contains(s: string, sub: string) {
    exists i :: 0 <= i <= |s| - |sub| && OccursAt(s, sub, i)
  }

  predicate OccursAt(s: string, sub: string, i: int)
    requires 0 <= i <= |s| - |sub|
  {
    s[i..i + |sub|] == sub
  }

  predicate IsCircular(name: string) {
    Contains(name, "circAngle")
  }

  /** The error of every trial at every time point. */
  function TrialErrors(name: string, rows: seq<seq<real>>, yTrue: seq<Value>): (errs: seq<seq<Value>>)
    requires |rows| == |yTrue|
    ensures |errs| == |rows|
    ensures forall k :: 0 <= k < |rows| ==> |errs[k]| == |rows[k]|
    ensures forall k, t :: 0 <= k < |rows| && 0 <= t < |rows[k]| && errs[k][t].Real? ==>
      0.0 <= errs[k][t].r && (IsCircular(name) ==> errs[k][t].r <= Pi)
  {
    seq(|rows|, k requires 0 <= k < |rows| =>
      seq(|rows[k]|, t requires 0 <= t < |rows[k]| =>
        if IsCircular(name) then CircularError(rows[k][t], yTrue[k]) else LinearError(rows[k][t], yTrue[k])))
  }

  /** `np.intersect1d(a, b)` of two index lists below `n`: their common
      members, sorted and de-duplicated. */
  function Intersect(a: seq<nat>, b: seq<nat>, n: nat): (c: seq<nat>)
    requires InBounds(a, n)
    ensures StrictlyIncreasing(c) && InBounds(c, n)
    ensures forall i: nat :: i in c <==> i in a && i in b
  {
    var mask := seq(n, i requires 0 <= i < n => i in a && i in b);
    WhereMembers(mask);
    Where(mask)
  }

  predicate HasRegressionColumns(events: Table, name: string, factor: Factor) {
    && events.WellFormed() && name in events.columns
    && TargetPresent in events.columns && Key(factor) in events.columns
  }

  /** The trials that are correlated: target present and at or above the
      factor's lowest level. */
  function RegressionSelection(events: Table, factor: Factor): (sel: seq<nat>)
    requires HasRegressionColumns(events, TargetPresent, factor)
    ensures StrictlyIncreasing(sel) && InBounds(sel, events.rows)
    ensures forall i: nat :: i in sel <==>
      && i < events.rows
      && events.columns[TargetPresent][i] == Real(1.0)
      && events.columns[Key(factor)][i].Real?
      && events.columns[Key(factor)][i].r >= Levels(factor)[0]
  {
    var present := Where(EqMask(events.columns[TargetPresent], 1.0));
    var above := Where(GeMask(events.columns[Key(factor)], Levels(factor)[0]));
    WhereMembers(EqMask(events.columns[TargetPresent], 1.0));
    WhereMembers(GeMask(events.columns[Key(factor)], Levels(factor)[0]));
    Intersect(present, above, events.rows)
  }

  /** The covariate of the independent mode: contrast when regressing on
      visibility, visibility otherwise. */
  function CovariateKey(f: Factor): string {
    if f == Visibility then TargetContrast else DetectButton
  }

  function Other(f: Factor): Factor {
    if f == Visibility then Contrast else Visibility
  }

  /** The covariate levels the loop iterates, as written: `factors[factor]`,
      the levels of the regressed factor itself. */
  function IteratedLevels(f: Factor): seq<real> {
    Levels(f)
  }

  /** The covariate's own levels, as evidently intended. */
  function CovariateLevels(f: Factor): (levels: seq<real>)
    ensures forall ii, jj :: 0 <= ii < jj < |levels| ==> levels[ii] != levels[jj]
  {
    Levels(Other(f))
  }

  /** `repeated_spearman(X, y)`: one rank correlation per column of `X`. */
  type Spearman = (seq<seq<Value>>, seq<Value>) -> seq<Value>

  predicate HasCovariate(events: Table, factor: Factor) {
    events.WellFormed() && CovariateKey(factor) in events.columns
  }

  /** The present, in-range trials whose covariate equals `level`. */
  function CovariateSelection(events: Table, factor: Factor, sel: seq<nat>, level: real): seq<nat>
    requires HasCovariate(events, factor) && InBounds(sel, events.rows)
  {
    Intersect(LevelTrials(events, CovariateKey(factor), level), sel, events.rows)
  }

  /** Row `ii` of `R`: NaN when the level holds five trials or fewer, else the
      correlation within the level. */
  function CovariateRow(errs: seq<seq<Value>>, events: Table, factor: Factor, sel: seq<nat>,
                        level: real, nTimes: nat, spearman: Spearman): (row: Result<seq<Value>>)
    requires HasCovariate(events, factor) && Key(factor) in events.columns
    requires InBounds(sel, events.rows) && |errs| == events.rows
    ensures row.Ok? ==> |row.value| == nTimes
    ensures |CovariateSelection(events, factor, sel, level)| <= MinTrials ==> row == Ok(Filled(NaN, nTimes))
  {
    var covSel := CovariateSelection(events, factor, sel, level);
    if |covSel| <= MinTrials then Ok(Filled(NaN, nTimes))
    else Broadcast(spearman(Pick(errs, covSel), Pick(events.columns[Key(factor)], covSel)), nTimes)
  }

  function CountReal(vs: seq<Value>): nat {
    if |vs| == 0 then 0
    else CountReal(vs[..|vs| - 1]) + (if vs[|vs| - 1].Real? then 1 else 0)
  }

  /** No entry is counted exactly when every entry is NaN. */
  lemma {:induction false} CountRealZero(vs: seq<Value>)
    ensures CountReal(vs) == 0 <==> forall k :: 0 <= k < |vs| ==> vs[k].NaN?
  {
    if |vs| > 0 {
      var front := vs[..|vs| - 1];
      CountRealZero(front);
      assert forall k :: 0 <= k < |front| ==> front[k] == vs[k];
    }
  }

  function SumReal(vs: seq<Value>): real {
    if |vs| == 0 then 0.0
    else SumReal(vs[..|vs| - 1]) + (if vs[|vs| - 1].Real? then vs[|vs| - 1].r else 0.0)
  }

  /** `np.nanmean` of one column: the mean of its non-NaN entries, NaN when
      there are none. */
  function NanMean(vs: seq<Value>): (m: Value)
    ensures m.NaN? <==> forall k :: 0 <= k < |vs| ==> vs[k].NaN?
  {
    CountRealZero(vs);
    var c := CountReal(vs);
    if c == 0 then NaN else Real(SumReal(vs) / c as real)
  }

  lemma MulStep(c: real, x: real)
    ensures (c + 1.0) * x == c * x + x
  {
  }

  lemma {:induction false} SumRealAbove(vs: seq<Value>, lo: real)
    requires forall k :: 0 <= k < |vs| && vs[k].Real? ==> lo <= vs[k].r
    ensures CountReal(vs) as real * lo <= SumReal(vs)
  {
    if |vs| > 0 {
      var front, last := vs[..|vs| - 1], vs[|vs| - 1];
      assert forall k :: 0 <= k < |front| ==> front[k] == vs[k];
      SumRealAbove(front, lo);
      var c := CountReal(front) as real;
      if last.Real? {
        assert CountReal(vs) as real == c + 1.0 && SumReal(vs) == SumReal(front) + last.r;
        MulStep(c, lo);
      } else {
        assert CountReal(vs) as real == c && SumReal(vs) == SumReal(front);
      }
    }
  }

  lemma {:induction false} SumRealBelow(vs: seq<Value>, hi: real)
    requires forall k :: 0 <= k < |vs| && vs[k].Real? ==> vs[k].r <= hi
    ensures SumReal(vs) <= CountReal(vs) as real * hi
  {
    if |vs| > 0 {
      var front, last := vs[..|vs| - 1], vs[|vs| - 1];
      assert forall k :: 0 <= k < |front| ==> front[k] == vs[k];
      SumRealBelow(front, hi);
      var c := CountReal(front) as real;
      if last.Real? {
        assert CountReal(vs) as real == c + 1.0 && SumReal(vs) == SumReal(front) + last.r;
        MulStep(c, hi);
      } else {
        assert CountReal(vs) as real == c && SumReal(vs) == SumReal(front);
      }
    }
  }

  /** The NaN-ignoring mean lies within any bounds of the non-NaN entries. */
  lemma NanMeanWithin(vs: seq<Value>, lo: real, hi: real)
    requires forall k :: 0 <= k < |vs| && vs[k].Real? ==> lo <= vs[k].r <= hi
    ensures NanMean(vs).Real? ==> lo <= NanMean(vs).r <= hi
  {
    var c := CountReal(vs);
    if c > 0 {
      SumRealAbove(vs, lo);
      SumRealBelow(vs, hi);
      QuotientWithin(SumReal(vs), c as real, lo, hi);
    }
  }

  lemma QuotientWithin(s: real, c: real, lo: real, hi: real)
    requires c > 0.0 && c * lo <= s <= c * hi
    ensures lo <= s / c <= hi
  {
    assert s == (s / c) * c;
  }

  /** Column `t` of a matrix given as rows. */
  function Column(rows: seq<seq<Value>>, t: nat): seq<Value>
    requires forall k :: 0 <= k < |rows| ==> t < |rows[k]|
  {
    seq(|rows|, k requires 0 <= k < |rows| => rows[k][t])
  }

  /** `np.nanmean(R, axis=0)`. */
  function NanMeanColumns(rows: seq<seq<Value>>, nTimes: nat): seq<Value>
    requires forall k :: 0 <= k < |rows| ==> |rows[k]| == nTimes
  {
    seq(nTimes, t requires 0 <= t < nTimes => NanMean(Column(rows, t)))
  }

  function CovariateRows(errs: seq<seq<Value>>, events: Table, factor: Factor, sel: seq<nat>,
                         levels: seq<real>, nTimes: nat, spearman: Spearman): seq<Result<seq<Value>>>
    requires HasCovariate(events, factor) && Key(factor) in events.columns
    requires InBounds(sel, events.rows) && |errs| == events.rows
  {
    seq(|levels|, ii requires 0 <= ii < |levels| =>
      CovariateRow(errs, events, factor, sel, levels[ii], nTimes, spearman))
  }

  /** The independent mode over the given covariate levels. */
  function Independent(errs: seq<seq<Value>>, events: Table, factor: Factor, sel: seq<nat>,
                       levels: seq<real>, nTimes: nat, spearman: Spearman): Result<seq<Value>>
    requires HasCovariate(events, factor) && Key(factor) in events.columns
    requires InBounds(sel, events.rows) && |errs| == events.rows
  {
    match Collect(CovariateRows(errs, events, factor, sel, levels, nTimes, spearman))
    case Err(e) => Err(e)
    case Ok(rows) => Ok(NanMeanColumns(rows, nTimes))
  }

  /** The whole of `_subregress`, with the iterated covariate levels as a
      parameter. */
  function SubRegressResult(p: Predictions, events: Table, name: string, factor: Factor, independent: bool,
                      levels: seq<real>, spearman: Spearman): Result<seq<Value>>
    requires HasRegressionColumns(events, name, factor)
    requires independent ==> HasCovariate(events, factor)
  {
    if |p.Rows()| != events.rows then Err(ValueError)
    else
      var errs := TrialErrors(name, p.Rows(), events.columns[name]);
      var sel := RegressionSelection(events, factor);
      if independent then Independent(errs, events, factor, sel, levels, p.Times(), spearman)
      else Ok(spearman(Pick(errs, sel), Pick(events.columns[Key(factor)], sel)))
  }

  /** `R[ii] = row`: writes row `ii` and no other cell. */
  method FillRow(R: array2<Value>, ii: nat, row: seq<Value>)
    requires ii < R.Length0 && |row| == R.Length1
    modifies R
    ensures forall jj, t :: 0 <= jj < R.Length0 && 0 <= t < R.Length1 ==>
      R[jj, t] == if jj == ii then row[t] else old(R[jj, t])
  {
    for t := 0 to R.Length1
      invariant forall jj, s :: 0 <= jj < R.Length0 && 0 <= s < R.Length1 ==>
        R[jj, s] == if jj == ii && s < t then row[s] else old(R[jj, s])
    {
      R[ii, t] := row[t];
    }
  }

  /** The loop of the independent mode: `R` starts all NaN, each level with
      more than five trials gets its correlation row, then the rows are
      averaged ignoring NaN. */
  method RegressOnLevels(errs: seq<seq<Value>>, events: Table, factor: Factor, sel: seq<nat>,
                         levels: seq<real>, nTimes: nat, spearman: Spearman)
    returns (r: Result<seq<Value>>)
    requires HasCovariate(events, factor) && Key(factor) in events.columns
    requires InBounds(sel, events.rows) && |errs| == events.rows
    ensures r == Independent(errs, events, factor, sel, levels, nTimes, spearman)
  {
    var R := new Value[|levels|, nTimes]((_, _) => NaN);
    ghost var rs := CovariateRows(errs, events, factor, sel, levels, nTimes, spearman);
    for ii := 0 to |levels|
      invariant forall jj :: 0 <= jj < ii ==> rs[jj].Ok? && |rs[jj].value| == nTimes
      invariant forall jj, t :: 0 <= jj < |levels| && 0 <= t < nTimes ==>
        R[jj, t] == if jj < ii then rs[jj].value[t] else NaN
    {
      var covSel := CovariateSelection(events, factor, sel, levels[ii]);
      assert rs[ii] == CovariateRow(errs, events, factor, sel, levels[ii], nTimes, spearman);
      if |covSel| <= MinTrials {
        continue;
      }
      var row := Broadcast(spearman(Pick(errs, covSel), Pick(events.columns[Key(factor)], covSel)), nTimes);
      if row.Err? {
        CollectFirstError(rs, ii);
        return Err(row.error);
      }
      FillRow(R, ii, row.value);
    }
    assert forall jj :: 0 <= jj < |levels| ==> rs[jj].Ok?;
    var rows := Collect(rs).value;
    var mean := seq(nTimes, t reads R requires 0 <= t < nTimes =>
      NanMean(seq(|levels|, k reads R requires 0 <= k < |levels| => R[k, t])));
    assert mean == NanMeanColumns(rows, nTimes) by {
      forall t | 0 <= t < nTimes ensures mean[t] == NanMeanColumns(rows, nTimes)[t] {
        assert seq(|levels|, k reads R requires 0 <= k < |levels| => R[k, t]) == Column(rows, t);
      }
    }
    return Ok(mean);
  }

  /** `_subregress` as written: a length mismatch raises before anything else
      is computed; otherwise the errors of the selected trials are
      correlated with the factor, over all of them or within each level of
      `IteratedLevels(factor)`. */
  method SubRegress(p: Predictions, events: Table, name: string, factor: Factor, independent: bool,
                    spearman: Spearman)
    returns (r: Result<seq<Value>>)
    requires p.WellFormed() && HasRegressionColumns(events, name, factor)
    requires independent ==> HasCovariate(events, factor)
    ensures |p.Rows()| != events.rows ==> r == Err(ValueError)
    ensures r == SubRegressResult(p, events, name, factor, independent, IteratedLevels(factor), spearman)
  {
    var yTrue := events.columns[name];
    if |p.Rows()| != |yTrue| {
      return Err(ValueError);
    }
    var errs := TrialErrors(name, p.Rows(), yTrue);
    var sel := RegressionSelection(events, factor);
    if independent {
      r := RegressOnLevels(errs, events, factor, sel, IteratedLevels(factor), p.Times(), spearman);
    } else {
      r := Ok(spearman(Pick(errs, sel), Pick(events.columns[Key(factor)], sel)));
    }
  }

  /** `_subregress` with the covariate's own levels in the independent mode. */
  method SubRegressCorrected(p: Predictions, events: Table, name: string, factor: Factor, independent: bool,
                             spearman: Spearman)
    returns (r: Result<seq<Value>>)
    requires p.WellFormed() && HasRegressionColumns(events, name, factor)
    requires independent ==> HasCovariate(events, factor)
    ensures |p.Rows()| != events.rows ==> r == Err(ValueError)
    ensures r == SubRegressResult(p, events, name, factor, independent, CovariateLevels(factor), spearman)
  {
    var yTrue := events.columns[name];
    if |p.Rows()| != |yTrue| {
      return Err(ValueError);
    }
    var errs := TrialErrors(name, p.Rows(), yTrue);
    var sel := RegressionSelection(events, factor);
    if independent {
      r := RegressOnLevels(errs, events, factor, sel, CovariateLevels(factor), p.Times(), spearman);
    } else {
      r := Ok(spearman(Pick(errs, sel), Pick(events.columns[Key(factor)], sel)));
    }
  }

  /** Every row of `R` once the loop has finished: NaN for a level of five
      trials or fewer, otherwise the rank correlation within exactly that
      level's trials; and every row is `n_times` long. */
  lemma CovariateRowCells(errs: seq<seq<Value>>, events: Table, factor: Factor, sel: seq<nat>,
                          levels: seq<real>, nTimes: nat, spearman: Spearman, ii: nat)
    requires HasCovariate(events, factor) && Key(factor) in events.columns
    requires InBounds(sel, events.rows) && |errs| == events.rows && ii < |levels|
    requires Collect(CovariateRows(errs, events, factor, sel, levels, nTimes, spearman)).Ok?
    ensures var rows := Collect(CovariateRows(errs, events, factor, sel, levels, nTimes, spearman)).value;
      var covSel := CovariateSelection(events, factor, sel, levels[ii]);
      && |rows| == |levels| && |rows[ii]| == nTimes
      && (|covSel| <= MinTrials ==> rows[ii] == Filled(NaN, nTimes))
      && (|covSel| > MinTrials ==>
            rows[ii] == Broadcast(spearman(Pick(errs, covSel), Pick(events.columns[Key(factor)], covSel)), nTimes).value)
  {
    var rs := CovariateRows(errs, events, factor, sel, levels, nTimes, spearman);
    assert rs[ii].Ok?;
  }

  /** When every rank correlation lies in [-1, 1], so does every value of
      the independent mode, which has one value per time point. */
  lemma IndependentBounded(errs: seq<seq<Value>>, events: Table, factor: Factor, sel: seq<nat>,
                           levels: seq<real>, nTimes: nat, spearman: Spearman)
    requires HasCovariate(events, factor) && Key(factor) in events.columns
    requires InBounds(sel, events.rows) && |errs| == events.rows
    requires forall x, y, k :: 0 <= k < |spearman(x, y)| && spearman(x, y)[k].Real? ==>
      -1.0 <= spearman(x, y)[k].r <= 1.0
    ensures var r := Independent(errs, events, factor, sel, levels, nTimes, spearman);
      r.Ok? ==> |r.value| == nTimes && forall t :: 0 <= t < nTimes && r.value[t].Real? ==> -1.0 <= r.value[t].r <= 1.0
  {
    var rs := CovariateRows(errs, events, factor, sel, levels, nTimes, spearman);
    var c := Collect(rs);
    if c.Ok? {
      var rows := c.value;
      forall t | 0 <= t < nTimes
        ensures NanMean(Column(rows, t)).Real? ==> -1.0 <= NanMean(Column(rows, t)).r <= 1.0
      {
        var col := Column(rows, t);
        forall k | 0 <= k < |col| && col[k].Real? ensures -1.0 <= col[k].r <= 1.0 {
          assert rs[k].Ok?;
        }
        NanMeanWithin(col, -1.0, 1.0);
      }
    }
  }

  /** When every level holds five trials or fewer, the independent mode is
      NaN at every time point. */
  lemma IndependentAllSkipped(errs: seq<seq<Value>>, events: Table, factor: Factor, sel: seq<nat>,
                              levels: seq<real>, nTimes: nat, spearman: Spearman)
    requires HasCovariate(events, factor) && Key(factor) in events.columns
    requires InBounds(sel, events.rows) && |errs| == events.rows
    requires forall ii :: 0 <= ii < |levels| ==> |CovariateSelection(events, factor, sel, levels[ii])| <= MinTrials
    ensures var r := Independent(errs, events, factor, sel, levels, nTimes, spearman);
      r.Ok? && |r.value| == nTimes && forall t :: 0 <= t < nTimes ==> r.value[t] == NaN
  {
    var rs := CovariateRows(errs, events, factor, sel, levels, nTimes, spearman);
    assert forall ii :: 0 <= ii < |levels| ==> rs[ii] == Ok(Filled(NaN, nTimes));
    var rows := Collect(rs).value;
    forall t | 0 <= t < nTimes ensures NanMean(Column(rows, t)) == NaN {
      var col := Column(rows, t);
      assert forall k :: 0 <= k < |col| ==> col[k].NaN?;
    }
  }

  /** As written, regressing on visibility iterates the levels 0..3 over the
      contrast column, so a present trial of contrast 0.5 or 0.75 falls in no
      level; regressing on contrast iterates 0.5, 0.75, 1 over the visibility
      column, so a trial rated 0, 2 or 3 falls in no level. */
  lemma IteratedLevelsMissCovariate(events: Table, factor: Factor, sel: seq<nat>, i: nat)
    requires HasCovariate(events, factor) && InBounds(sel, events.rows) && i < events.rows
    requires factor == Visibility ==> events.columns[CovariateKey(factor)][i] in {Real(0.5), Real(0.75)}
    requires factor == Contrast ==> events.columns[CovariateKey(factor)][i] in {Real(0.0), Real(2.0), Real(3.0)}
    ensures forall ii :: 0 <= ii < |IteratedLevels(factor)| ==>
      i !in CovariateSelection(events, factor, sel, IteratedLevels(factor)[ii])
  {
    var col := events.columns[CovariateKey(factor)];
    forall ii | 0 <= ii < |IteratedLevels(factor)|
      ensures i !in CovariateSelection(events, factor, sel, IteratedLevels(factor)[ii])
    {
      WhereMembers(EqMask(col, IteratedLevels(factor)[ii]));
      assert EqMask(col, IteratedLevels(factor)[ii])[i] == (col[i] == Real(IteratedLevels(factor)[ii]));
    }
  }

  /** With the covariate's own levels, every selected trial whose covariate
      value is one of those levels falls in exactly one level's subset. */
  lemma CorrectedLevelsPartition(events: Table, factor: Factor, sel: seq<nat>, i: nat, ii: nat)
    requires HasCovariate(events, factor) && InBounds(sel, events.rows)
    requires i in sel && ii < |CovariateLevels(factor)|
    requires events.columns[CovariateKey(factor)][i] == Real(CovariateLevels(factor)[ii])
    ensures forall jj :: 0 <= jj < |CovariateLevels(factor)| ==>
      (i in CovariateSelection(events, factor, sel, CovariateLevels(factor)[jj]) <==> jj == ii)
  {
    var col := events.columns[CovariateKey(factor)];
    var levels := CovariateLevels(factor);
    forall jj | 0 <= jj < |levels|
      ensures i in CovariateSelection(events, factor, sel, levels[jj]) <==> jj == ii
    {
      WhereMembers(EqMask(col, levels[jj]));
      assert EqMask(col, levels[jj])[i] == (col[i] == Real(levels[jj]));
      assert jj != ii ==> levels[jj] != levels[ii];
    }
  }
}
