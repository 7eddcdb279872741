/** One decoding analysis of one subject (`_run`): choose the trials, drop
    those whose label is missing, fit and score a temporal-generalisation
    estimator, then discard the parts that are not needed later before
    saving. */
module Decoding {
  import opened Trials

  /** An analysis: its name, the trial indices its data-frame query selects
      (`None` when it has no query) and the column holding the label. */
  datatype Analysis = Analysis(name: string, query: Option<seq<nat>>, condition: string)

  /** The candidate trials: every trial, or those the query selects. */
  function Candidates(rows: nat, query: Option<seq<nat>>): (c: seq<nat>)
    requires query.Some? ==> InBounds(query.value, rows)
    ensures InBounds(c, rows)
    ensures query.None? ==> |c| == rows && forall k :: 0 <= k < rows ==> c[k] == k
    ensures query.Some? ==> c == query.value
  {
    match query
    case None => seq(rows, k requires 0 <= k < rows => k)
    case Some(idx) => idx
  }

  /** The candidates whose label is not NaN, in their original order. */
  function ValidTrials(cand: seq<nat>, col: seq<Value>): (v: seq<nat>)
    requires InBounds(cand, |col|)
    ensures InBounds(v, |col|) && |v| <= |cand|
    ensures forall k :: 0 <= k < |v| ==> col[v[k]].Real?
  {
    if |cand| == 0 then []
    else
      var n := |cand| - 1;
      assert InBounds(cand[..n], |col|);
      assert cand == cand[..n] + [cand[n]];
      ValidTrials(cand[..n], col) + (if col[cand[n]].Real? then [cand[n]] else [])
  }

  /** The kept trials are exactly the candidates whose label is a number. */
  lemma {:induction false} ValidTrialsMembers(cand: seq<nat>, col: seq<Value>)
    requires InBounds(cand, |col|)
    ensures forall i :: i in ValidTrials(cand, col) <==> i in cand && col[i].Real?
  {
    if |cand| > 0 {
      var n := |cand| - 1;
      assert InBounds(cand[..n], |col|);
      assert cand == cand[..n] + [cand[n]];
      ValidTrialsMembers(cand[..n], col);
    }
  }

  /** Filtering commutes with concatenation: order is kept and nothing moves
      across the cut. */
  lemma {:induction false} ValidTrialsAppend(a: seq<nat>, b: seq<nat>, col: seq<Value>)
    requires InBounds(a, |col|) && InBounds(b, |col|)
    ensures InBounds(a + b, |col|)
    ensures ValidTrials(a + b, col) == ValidTrials(a, col) + ValidTrials(b, col)
  {
    assert InBounds(a + b, |col|);
    if |b| > 0 {
      var n := |b| - 1;
      var last := if col[b[n]].Real? then [b[n]] else [];
      assert InBounds(b[..n], |col|);
      assert (a + b)[..|a + b| - 1] == a + b[..n];
      assert ValidTrials(a + b, col) == ValidTrials(a + b[..n], col) + last;
      assert ValidTrials(b, col) == ValidTrials(b[..n], col) + last;
      ValidTrialsAppend(a, b[..n], col);
    } else {
      assert a + b == a;
    }
  }

  /** Filtering twice is filtering once. */
  lemma {:induction false} ValidTrialsIdempotent(cand: seq<nat>, col: seq<Value>)
    requires InBounds(cand, |col|)
    ensures ValidTrials(ValidTrials(cand, col), col) == ValidTrials(cand, col)
  {
    if |cand| > 0 {
      var n := |cand| - 1;
      var front := ValidTrials(cand[..n], col);
      ValidTrialsIdempotent(cand[..n], col);
      var tail := if col[cand[n]].Real? then [cand[n]] else [];
      ValidTrialsAppend(front, tail, col);
      if col[cand[n]].Real? {
        assert tail[..0] == [];
        assert ValidTrials(tail, col) == tail;
      }
    }
  }

  /** A sorted candidate list stays sorted, so with no query the kept trials
      are in increasing order. */
  lemma {:induction false} ValidTrialsSorted(cand: seq<nat>, col: seq<Value>)
    requires InBounds(cand, |col|) && StrictlyIncreasing(cand)
    ensures StrictlyIncreasing(ValidTrials(cand, col))
  {
    if |cand| > 0 {
      var n := |cand| - 1;
      var front := ValidTrials(cand[..n], col);
      ValidTrialsSorted(cand[..n], col);
      ValidTrialsMembers(cand[..n], col);
      forall k | 0 <= k < |front| ensures front[k] < cand[n] {
        assert front[k] in cand[..n];
      }
    }
  }

  /** `sel` is empty exactly when every candidate's label is NaN. */
  lemma ValidTrialsEmpty(cand: seq<nat>, col: seq<Value>)
    requires InBounds(cand, |col|)
    ensures ValidTrials(cand, col) == [] <==> forall k :: 0 <= k < |cand| ==> col[cand[k]].NaN?
  {
    ValidTrialsMembers(cand, col);
    if ValidTrials(cand, col) != [] {
      assert ValidTrials(cand, col)[0] in ValidTrials(cand, col);
    } else {
      forall k | 0 <= k < |cand| ensures col[cand[k]].NaN? {
        assert cand[k] in cand;
      }
    }
  }

  /** The trials of an analysis. */
  function Selection(events: Table, analysis: Analysis): seq<nat>
    requires events.WellFormed() && analysis.condition in events.columns
    requires analysis.query.Some? ==> InBounds(analysis.query.value, events.rows)
  {
    ValidTrials(Candidates(events.rows, analysis.query), events.columns[analysis.condition])
  }

  /** `y[sel]`: the labels of the kept trials, none of them NaN. */
  function Labels(col: seq<Value>, sel: seq<nat>): (y: seq<real>)
    requires InBounds(sel, |col|) && forall k :: 0 <= k < |sel| ==> col[sel[k]].Real?
    ensures |y| == |sel| && forall k :: 0 <= k < |sel| ==> col[sel[k]] == Real(y[k])
  {
    seq(|sel|, k requires 0 <= k < |sel| => col[sel[k]].r)
  }

  /** The estimators are kept only where they are generalised to another
      phase later. */
  predicate KeepsEstimators(name: string) {
    name in ["probe_phase", "target_circAngle"]
  }

  /** The single-trial predictions are kept only where later analyses
      correlate them with trial properties. */
  predicate KeepsPredictions(name: string) {
    name in ["target_present", "target_circAngle", "probe_circAngle"]
  }

  /** The temporal-generalisation estimator. `train` and `predict` stand for
      the classifier's cross-validated fit and prediction. */
  class Gat<X, E, P> {
    var estimators: Option<E>
    var yPred: Option<P>

    constructor ()
      ensures estimators == None && yPred == None
    {
      estimators := None;
      yPred := None;
    }

    /** `gat.fit(X, y)`: one estimator set trained on the given trials. */
    method Fit(xs: seq<X>, y: seq<real>, train: (seq<X>, seq<real>) -> E)
      modifies this
      ensures estimators == Some(train(xs, y)) && yPred == old(yPred)
    {
      estimators := Some(train(xs, y));
    }

    /** `gat.score(X, y)`: predicts the trials, keeps the predictions and
        scores them against the labels. */
    method Score<S>(xs: seq<X>, y: seq<real>, predict: (E, seq<X>) -> P, scorer: (seq<real>, P) -> S)
      returns (score: S)
      requires estimators.Some?
      modifies this
      ensures estimators == old(estimators)
      ensures yPred == Some(predict(estimators.value, xs))
      ensures score == scorer(y, predict(estimators.value, xs))
    {
      var p := predict(estimators.value, xs);
      yPred := Some(p);
      score := scorer(y, p);
    }

    /** Drops what analysis `name` does not keep. */
    method Prune(name: string)
      modifies this
      ensures estimators == if KeepsEstimators(name) then old(estimators) else None
      ensures yPred == if KeepsPredictions(name) then old(yPred) else None
    {
      if !KeepsEstimators(name) {
        estimators := None;
      }
      if !KeepsPredictions(name) {
        yPred := None;
      }
    }
  }

  /** The two files an analysis writes: the pruned estimator with the
      analysis, the trials and the metadata; and the score with the time
      axis. */
  datatype Saved<X, E, P, S> = Saved(gat: Gat<X, E, P>, analysis: Analysis, sel: seq<nat>, events: Table,
                                     score: S, times: seq<real>)

  /** `_run`: nothing is fitted or saved when no trial is left; a kept
      trial past the last epoch makes `epochs[sel]` raise; otherwise the
      score is computed from the full predictions before pruning, and the
      saved estimator holds only what the analysis keeps. */
  method Run<X, E, P, S>(epochs: seq<X>, times: seq<real>, events: Table, analysis: Analysis,
                         train: (seq<X>, seq<real>) -> E, predict: (E, seq<X>) -> P,
                         scorer: (seq<real>, P) -> S)
    returns (r: Result<Option<Saved<X, E, P, S>>>)
    requires events.WellFormed() && analysis.condition in events.columns
    requires analysis.query.Some? ==> InBounds(analysis.query.value, events.rows)
    ensures r == Ok(None) <==> Selection(events, analysis) == []
    ensures r.Err? <==> Selection(events, analysis) != [] && !InBounds(Selection(events, analysis), |epochs|)
    ensures r.Err? ==> r.error == IndexError
    ensures r.Ok? && r.value.Some? ==>
      var sel := Selection(events, analysis);
      var xs := Pick(epochs, sel);
      var y := Labels(events.columns[analysis.condition], sel);
      var fitted := train(xs, y);
      var saved := r.value.value;
      && saved.sel == sel && saved.analysis == analysis
      && saved.events == events && saved.times == times
      && saved.score == scorer(y, predict(fitted, xs))
      && saved.gat.estimators == (if KeepsEstimators(analysis.name) then Some(fitted) else None)
      && saved.gat.yPred == (if KeepsPredictions(analysis.name) then Some(predict(fitted, xs)) else None)
  {
    var col := events.columns[analysis.condition];
    var sel := ValidTrials(Candidates(events.rows, analysis.query), col);
    if |sel| == 0 {
      return Ok(None);
    }
    var y := Labels(col, sel);
    if !InBounds(sel, |epochs|) {
      return Err(IndexError);
    }
    var xs := Pick(epochs, sel);
    var gat := new Gat<X, E, P>();
    gat.Fit(xs, y, train);
    var score := gat.Score(xs, y, predict, scorer);
    gat.Prune(analysis.name);
    return Ok(Some(Saved(gat, analysis, sel, events, score, times)));
  }
}
