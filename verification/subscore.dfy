/** Re-scoring stored single-trial predictions on the trials of each level of
    a factor (visibility or contrast) without refitting: `_subscore` and the
    per-visibility gating of `_subscore_pipeline`. */
module Subscore {
  import opened Trials

  const DetectButton: string := "detect_button"
  const TargetContrast: string := "target_contrast"
  const TargetPresent: string := "target_present"

  /** A level with fewer selected trials than this is left NaN. */
  const MinTrials: nat := 5

  datatype Factor = Visibility | Contrast

  /** The column of a factor (`factors[factor][0]`). */
  function Key(f: Factor): string {
    match f
    case Visibility => DetectButton
    case Contrast => TargetContrast
  }

  /** The levels of a factor (`factors[factor][1]`): four visibility
      ratings, three target contrasts. */
  function Levels(f: Factor): (levels: seq<real>)
    ensures |levels| == (if f == Visibility then 4 else 3)
  {
    match f
    case Visibility => [0.0, 1.0, 2.0, 3.0]
    case Contrast => [0.5, 0.75, 1.0]
  }

  /** The scoring function of the analysis, applied to the labels and the
      prediction rows of the selected trials; one score per time point. */
  type Scorer = (seq<Value>, seq<seq<real>>) -> seq<Value>

  /** The trials whose `key` column equals `value`, in increasing order. */
  function LevelTrials(events: Table, key: string, value: real): seq<nat>
    requires key in events.columns
  {
    Where(EqMask(events.columns[key], value))
  }

  /** The absent-target trials (`target_present == False`). */
  function AbsentTrials(events: Table): seq<nat>
    requires TargetPresent in events.columns
  {
    Where(EqMask(events.columns[TargetPresent], 0.0))
  }

  /** The selection of one level: its own trials and, for the
      target-presence analysis, every absent trial appended after them
      (`np.r_`, neither sorted nor de-duplicated). */
  function LevelSelection(events: Table, name: string, key: string, value: real): (sel: seq<nat>)
    requires events.WellFormed() && key in events.columns
    requires name == TargetPresent ==> TargetPresent in events.columns
    ensures InBounds(sel, events.rows)
  {
    LevelTrials(events, key, value) + (if name == TargetPresent then AbsentTrials(events) else [])
  }

  /** The skip rule: fewer than five trials, or fewer than two distinct labels. */
  predicate TooFew(yTrue: seq<Value>, sel: seq<nat>)
    requires InBounds(sel, |yTrue|)
  {
    |sel| < MinTrials || DistinctCount(Pick(yTrue, sel)) < 2
  }

  /** What column `ii` of the score table becomes for one selection. */
  function LevelColumn(p: Predictions, yTrue: seq<Value>, sel: seq<nat>, scorer: Scorer): (c: Result<seq<Value>>)
    requires InBounds(sel, |yTrue|)
    ensures c.Ok? ==> |c.value| == p.Times()
    ensures c.Ok? && TooFew(yTrue, sel) ==> forall t :: 0 <= t < p.Times() ==> c.value[t] == NaN
  {
    if TooFew(yTrue, sel) then Ok(Filled(NaN, p.Times()))
    else if !InBounds(sel, |p.Rows()|) then Err(IndexError)
    else Broadcast(scorer(Pick(yTrue, sel), Pick(p.Rows(), sel)), p.Times())
  }

  predicate HasColumns(events: Table, name: string, factor: Factor) {
    events.WellFormed() && name in events.columns && Key(factor) in events.columns
  }

  /** The outcome for every level of the factor, in the order of `Levels`. */
  function LevelColumns(p: Predictions, events: Table, name: string, factor: Factor, scorer: Scorer)
    : seq<Result<seq<Value>>>
    requires HasColumns(events, name, factor)
  {
    var levels := Levels(factor);
    seq(|levels|, ii requires 0 <= ii < |levels| =>
      LevelColumn(p, events.columns[name], LevelSelection(events, name, Key(factor), levels[ii]), scorer))
  }

  /** `scores[:, ii] = column`: writes column `ii` and no other cell. */
  method FillColumn(scores: array2<Value>, ii: nat, column: seq<Value>)
    requires ii < scores.Length1 && |column| == scores.Length0
    modifies scores
    ensures forall t, jj :: 0 <= t < scores.Length0 && 0 <= jj < scores.Length1 ==>
      scores[t, jj] == if jj == ii then column[t] else old(scores[t, jj])
  {
    for t := 0 to scores.Length0
      invariant forall s, jj :: 0 <= s < scores.Length0 && 0 <= jj < scores.Length1 ==>
        scores[s, jj] == if jj == ii && s < t then column[s] else old(scores[s, jj])
    {
      scores[t, ii] := column[t];
    }
  }

  /** One pass of the loop of `_subscore`: a skipped level leaves its
      column as it was, a level whose trials are out of range or whose
      score does not broadcast raises, any other level has its score
      written into its column. */
  method ScoreLevel(scores: array2<Value>, ii: nat, p: Predictions, yTrue: seq<Value>, sel: seq<nat>, scorer: Scorer)
    returns (e: Option<Error>)
    requires ii < scores.Length1 && scores.Length0 == p.Times() && InBounds(sel, |yTrue|)
    modifies scores
    ensures var c := LevelColumn(p, yTrue, sel, scorer);
      (e.Some? <==> c.Err?) && (e.Some? ==> c == Err(e.value))
    ensures forall t, jj :: 0 <= t < scores.Length0 && 0 <= jj < scores.Length1 ==>
      scores[t, jj] == if jj == ii && !TooFew(yTrue, sel) && e.None?
        then LevelColumn(p, yTrue, sel, scorer).value[t] else old(scores[t, jj])
  {
    if TooFew(yTrue, sel) {
      return None;
    }
    if !InBounds(sel, |p.Rows()|) {
      return Some(IndexError);
    }
    var column := Broadcast(scorer(Pick(yTrue, sel), Pick(p.Rows(), sel)), p.Times());
    if column.Err? {
      return Some(column.error);
    }
    FillColumn(scores, ii, column.value);
    return None;
  }

  /** `_subscore`: an `n_times x len(values)` table that starts all NaN;
      each level whose selection passes the skip rule gets the scorer's
      output in its column. The first failing level raises. */
  method SubscoreLevels(p: Predictions, events: Table, name: string, factor: Factor, scorer: Scorer)
    returns (r: Result<array2<Value>>)
    requires p.WellFormed() && HasColumns(events, name, factor)
    ensures var cols := Collect(LevelColumns(p, events, name, factor, scorer));
      match r
      case Err(e) => cols == Err(e)
      case Ok(scores) =>
        && cols.Ok? && fresh(scores)
        && scores.Length0 == p.Times() && scores.Length1 == |Levels(factor)|
        && forall t, ii :: 0 <= t < scores.Length0 && 0 <= ii < scores.Length1 ==>
             scores[t, ii] == cols.value[ii][t]
  {
    var key, levels := Key(factor), Levels(factor);
    var yTrue := events.columns[name];
    var n := p.Times();
    var scores := new Value[n, |levels|]((_, _) => NaN);
    ghost var rs := LevelColumns(p, events, name, factor, scorer);
    for ii := 0 to |levels|
      invariant forall jj :: 0 <= jj < ii ==> rs[jj].Ok? && |rs[jj].value| == n
      invariant forall t, jj :: 0 <= t < n && 0 <= jj < |levels| ==>
        scores[t, jj] == if jj < ii then rs[jj].value[t] else NaN
    {
      var sel := LevelSelection(events, name, key, levels[ii]);
      assert rs[ii] == LevelColumn(p, yTrue, sel, scorer);
      var e := ScoreLevel(scores, ii, p, yTrue, sel, scorer);
      if e.Some? {
        CollectFirstError(rs, ii);
        return Err(e.value);
      }
    }
    assert forall jj :: 0 <= jj < |levels| ==> rs[jj].Ok?;
    return Ok(scores);
  }

  /** Every cell of a level's column: NaN when the level is skipped,
      otherwise the scorer's output on exactly that level's selection;
      and the table is `n_times` tall. */
  lemma LevelColumnCells(p: Predictions, events: Table, name: string, factor: Factor, scorer: Scorer, ii: nat)
    requires HasColumns(events, name, factor) && ii < |Levels(factor)|
    requires Collect(LevelColumns(p, events, name, factor, scorer)).Ok?
    ensures var cols := Collect(LevelColumns(p, events, name, factor, scorer)).value;
      var yTrue := events.columns[name];
      var sel := LevelSelection(events, name, Key(factor), Levels(factor)[ii]);
      && |cols| == |Levels(factor)| && |cols[ii]| == p.Times()
      && (TooFew(yTrue, sel) ==> forall t :: 0 <= t < p.Times() ==> cols[ii][t] == NaN)
      && (!TooFew(yTrue, sel) ==>
            && InBounds(sel, |p.Rows()|)
            && cols[ii] == Broadcast(scorer(Pick(yTrue, sel), Pick(p.Rows(), sel)), p.Times()).value)
  {
    var rs := LevelColumns(p, events, name, factor, scorer);
    assert rs[ii].Ok?;
  }

  /** How often trial `i` occurs in a level's selection: once if it has the
      level, and once more if the analysis is target presence and the trial
      is absent; so an absent trial that carries the level is scored twice. */
  lemma {:induction false} SelectionMultiplicity(events: Table, name: string, key: string, value: real, i: nat)
    requires events.WellFormed() && key in events.columns && TargetPresent in events.columns
    requires i < events.rows
    ensures multiset(LevelSelection(events, name, key, value))[i] ==
      (if events.columns[key][i] == Real(value) then 1 else 0)
      + (if name == TargetPresent && events.columns[TargetPresent][i] == Real(0.0) then 1 else 0)
  {
    var own := LevelTrials(events, key, value);
    var absent := AbsentTrials(events);
    DistinctMultiplicity(own, i);
    DistinctMultiplicity(absent, i);
    WhereMembers(EqMask(events.columns[key], value));
    WhereMembers(EqMask(events.columns[TargetPresent], 0.0));
    assert EqMask(events.columns[key], value)[i] == (events.columns[key][i] == Real(value));
    assert EqMask(events.columns[TargetPresent], 0.0)[i] == (events.columns[TargetPresent][i] == Real(0.0));
    if name == TargetPresent {
      assert multiset(own + absent) == multiset(own) + multiset(absent);
    } else {
      assert own + [] == own;
    }
  }

  /** An all-NaN matrix (`np.nan * np.empty(shape)`). */
  function NaNMatrix(rows: nat, cols: nat): seq<seq<Value>> {
    Filled(Filled(NaN, cols), rows)
  }

  /** `jr.gat.subscore(gat, sel)`: the train x test score matrix of the
      stored predictions restricted to `sel`. */
  type GatSubscore = seq<nat> -> seq<seq<Value>>

  /** The gating inside `_subscore_pipeline` for one subject: visibility
      levels 0..3 in order; a level whose own trials number fewer than five
      is an all-NaN matrix of the prediction array's first two dimensions,
      checked BEFORE the absent trials are appended. */
  method VisibilityPipeline(events: Table, name: string, nTrain: nat, nTest: nat, subscore: GatSubscore)
    returns (scores: seq<seq<seq<Value>>>)
    requires events.WellFormed() && DetectButton in events.columns
    requires name == TargetPresent ==> TargetPresent in events.columns
    ensures |scores| == 4
    ensures forall vis :: 0 <= vis < 4 ==>
      if |LevelTrials(events, DetectButton, vis as real)| < MinTrials
      then scores[vis] == NaNMatrix(nTrain, nTest)
      else scores[vis] == subscore(LevelSelection(events, name, DetectButton, vis as real))
  {
    scores := [];
    for vis := 0 to 4
      invariant |scores| == vis
      invariant forall v :: 0 <= v < vis ==>
        if |LevelTrials(events, DetectButton, v as real)| < MinTrials
        then scores[v] == NaNMatrix(nTrain, nTest)
        else scores[v] == subscore(LevelSelection(events, name, DetectButton, v as real))
    {
      var sel := LevelTrials(events, DetectButton, vis as real);
      if |sel| < MinTrials {
        scores := scores + [NaNMatrix(nTrain, nTest)];
        continue;
      }
      if name == TargetPresent {
        sel := sel + AbsentTrials(events);
      } else {
        assert sel + [] == sel;
      }
      assert sel == LevelSelection(events, name, DetectButton, vis as real);
      scores := scores + [subscore(sel)];
    }
  }

  /** Eight trials: four present ones rated 0 and four absent ones rated 1. */
  function GatingExample(): Table {
    var one, zero := Real(1.0), Real(0.0);
    Table(8, map[
      DetectButton := [zero, zero, zero, zero, one, one, one, one],
      TargetPresent := [one, one, one, one, zero, zero, zero, zero]])
  }

  /** The two gates differ: on `GatingExample`, visibility 0 of the
      target-presence analysis has only four trials of its own, so the
      pipeline leaves it NaN, while `_subscore` scores it because the four
      absent trials are appended before its size check. */
  lemma PipelineGatesBeforeUnion()
    ensures var e := GatingExample();
      && e.WellFormed()
      && |LevelTrials(e, DetectButton, 0.0)| < MinTrials
      && !TooFew(e.columns[TargetPresent], LevelSelection(e, TargetPresent, DetectButton, 0.0))
  {
    var e := GatingExample();
    WhereRange(EqMask(e.columns[DetectButton], 0.0), 0, 4);
    WhereRange(EqMask(e.columns[TargetPresent], 0.0), 4, 8);
    var sel := LevelSelection(e, TargetPresent, DetectButton, 0.0);
    assert sel == [0, 1, 2, 3, 4, 5, 6, 7];
    var labels := Pick(e.columns[TargetPresent], sel);
    assert labels[0] == Real(1.0) && labels[4] == Real(0.0);
    var seen := set x | x in labels;
    assert {Real(1.0), Real(0.0)} <= seen;
    var two := {Real(1.0), Real(0.0)};
    assert seen == two + (seen - two);
    assert |two| == 2;
    assert !TooFew(e.columns[TargetPresent], sel);
  }
}
