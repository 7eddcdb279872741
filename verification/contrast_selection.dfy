/** Trial selection of the contrast-decoding script: trials whose condition
    takes one of the included values and that match no exclusion, capped at
    400 by a random shuffle. */
module ContrastSelection {
  import opened Trials

  /** `{'cond': ..., 'values': [...]}`. */
  datatype CondValues = CondValues(cond: string, values: seq<real>)

  /** A contrast: the included condition and values, and the exclusions. */
  datatype Contrast = Contrast(includes: CondValues, excludes: seq<CondValues>)

  /** At most this many trials are decoded. */
  const MaxTrials: nat := 400

  predicate HasConditions(events: Table, contrast: Contrast) {
    && events.WellFormed() && contrast.includes.cond in events.columns
    && forall k :: 0 <= k < |contrast.excludes| ==> contrast.excludes[k].cond in events.columns
  }

  /** Trial `i` takes one of the values of exclusion `c`. */
  predicate ExcludedBy(events: Table, c: CondValues, i: nat)
    requires events.WellFormed() && i < events.rows && c.cond in events.columns
  {
    exists v :: 0 <= v < |c.values| && events.columns[c.cond][i] == Real(c.values[v])
  }

  /** Trial `i` matches one of the exclusions. */
  predicate Excluded(events: Table, excludes: seq<CondValues>, i: nat)
    requires events.WellFormed() && i < events.rows
    requires forall k :: 0 <= k < |excludes| ==> excludes[k].cond in events.columns
  {
    exists k :: 0 <= k < |excludes| && ExcludedBy(events, excludes[k], i)
  }

  /** The masks of one exclusion, one per value. */
  function ValueMasks(events: Table, c: CondValues): (masks: seq<seq<bool>>)
    requires events.WellFormed() && c.cond in events.columns
    ensures |masks| == |c.values|
    ensures forall v :: 0 <= v < |masks| ==> masks[v] == EqMask(events.columns[c.cond], c.values[v])
  {
    seq(|c.values|, v requires 0 <= v < |c.values| => EqMask(events.columns[c.cond], c.values[v]))
  }

  /** The masks of the nested comprehension, one per (exclusion, value) pair
      in order. */
  function ExcludeMasks(events: Table, excludes: seq<CondValues>): (masks: seq<seq<bool>>)
    requires events.WellFormed()
    requires forall k :: 0 <= k < |excludes| ==> excludes[k].cond in events.columns
    ensures forall m :: 0 <= m < |masks| ==> |masks[m]| == events.rows
  {
    if |excludes| == 0 then []
    else
      var n := |excludes| - 1;
      ExcludeMasks(events, excludes[..n]) + ValueMasks(events, excludes[n])
  }

  /** Some mask holds at position `i`. */
  predicate AnyAt(masks: seq<seq<bool>>, i: nat)
    requires forall m :: 0 <= m < |masks| ==> i < |masks[m]|
  {
    exists m :: 0 <= m < |masks| && masks[m][i]
  }

  /** `np.any(masks, axis=0)`; of no masks, false everywhere. */
  function AnyOf(masks: seq<seq<bool>>, n: nat): (any: seq<bool>)
    requires forall m :: 0 <= m < |masks| ==> |masks[m]| == n
    ensures |any| == n
    ensures forall i :: 0 <= i < n ==> (any[i] <==> AnyAt(masks, i))
  {
    seq(n, i requires 0 <= i < n => AnyAt(masks, i))
  }

  /** A mask of a concatenation holds where a mask of either part does. */
  lemma AnyAtAppend(a: seq<seq<bool>>, b: seq<seq<bool>>, i: nat)
    requires forall m :: 0 <= m < |a| ==> i < |a[m]|
    requires forall m :: 0 <= m < |b| ==> i < |b[m]|
    ensures forall m :: 0 <= m < |a + b| ==> i < |(a + b)[m]|
    ensures AnyAt(a + b, i) <==> AnyAt(a, i) || AnyAt(b, i)
  {
    if AnyAt(a + b, i) {
      var m :| 0 <= m < |a + b| && (a + b)[m][i];
      if m >= |a| {
        assert b[m - |a|][i];
      }
    }
    if AnyAt(a, i) {
      var m :| 0 <= m < |a| && a[m][i];
      assert (a + b)[m] == a[m];
    }
    if AnyAt(b, i) {
      var m :| 0 <= m < |b| && b[m][i];
      assert (a + b)[|a| + m] == b[m];
    }
  }

  /** The masks of one exclusion hold at trial `i` exactly when it takes one
      of its values. */
  lemma ValueMasksMatch(events: Table, c: CondValues, i: nat)
    requires events.WellFormed() && i < events.rows && c.cond in events.columns
    ensures AnyAt(ValueMasks(events, c), i) <==> ExcludedBy(events, c, i)
  {
    var masks := ValueMasks(events, c);
    if AnyAt(masks, i) {
      var v :| 0 <= v < |masks| && masks[v][i];
      assert events.columns[c.cond][i] == Real(c.values[v]);
    }
    if ExcludedBy(events, c, i) {
      var v :| 0 <= v < |c.values| && events.columns[c.cond][i] == Real(c.values[v]);
      assert masks[v][i];
    }
  }

  /** Matching some exclusion of a list is matching one of its front or its
      last exclusion. */
  lemma ExcludedSplit(events: Table, excludes: seq<CondValues>, i: nat)
    requires events.WellFormed() && i < events.rows && |excludes| > 0
    requires forall k :: 0 <= k < |excludes| ==> excludes[k].cond in events.columns
    ensures var n := |excludes| - 1;
      Excluded(events, excludes, i) <==> Excluded(events, excludes[..n], i) || ExcludedBy(events, excludes[n], i)
  {
    var n := |excludes| - 1;
    if Excluded(events, excludes, i) {
      var k :| 0 <= k < |excludes| && ExcludedBy(events, excludes[k], i);
      if k < n {
        assert excludes[..n][k] == excludes[k];
      }
    }
    if Excluded(events, excludes[..n], i) {
      var k :| 0 <= k < n && ExcludedBy(events, excludes[..n][k], i);
      assert excludes[..n][k] == excludes[k];
    }
  }

  /** Some mask of the exclusions holds at trial `i` exactly when the trial is
      excluded. */
  lemma {:induction false} ExcludeMasksMatch(events: Table, excludes: seq<CondValues>, i: nat)
    requires events.WellFormed() && i < events.rows
    requires forall k :: 0 <= k < |excludes| ==> excludes[k].cond in events.columns
    ensures AnyAt(ExcludeMasks(events, excludes), i) <==> Excluded(events, excludes, i)
  {
    if |excludes| > 0 {
      var n := |excludes| - 1;
      var front := excludes[..n];
      ExcludeMasksMatch(events, front, i);
      ValueMasksMatch(events, excludes[n], i);
      AnyAtAppend(ExcludeMasks(events, front), ValueMasks(events, excludes[n]), i);
      ExcludedSplit(events, excludes, i);
    }
  }

  /** The exclusion mask; with no exclusions nothing is excluded. */
  function ExcludeMask(events: Table, excludes: seq<CondValues>): (ex: seq<bool>)
    requires events.WellFormed()
    requires forall k :: 0 <= k < |excludes| ==> excludes[k].cond in events.columns
    ensures |ex| == events.rows
    ensures forall i :: 0 <= i < events.rows ==> (ex[i] <==> Excluded(events, excludes, i))
  {
    var masks := ExcludeMasks(events, excludes);
    assert forall i :: 0 <= i < events.rows ==>
      (AnyOf(masks, events.rows)[i] <==> Excluded(events, excludes, i)) by {
      forall i: nat | i < events.rows
        ensures AnyOf(masks, events.rows)[i] <==> Excluded(events, excludes, i)
      {
        ExcludeMasksMatch(events, excludes, i);
      }
    }
    AnyOf(masks, events.rows)
  }

  /** The includes loop: one mask per included value, in order. */
  method IncludeMasks(events: Table, includes: CondValues) returns (masks: seq<seq<bool>>)
    requires events.WellFormed() && includes.cond in events.columns
    ensures |masks| == |includes.values|
    ensures forall k :: 0 <= k < |masks| ==> masks[k] == EqMask(events.columns[includes.cond], includes.values[k])
  {
    masks := [];
    var col := events.columns[includes.cond];
    for k := 0 to |includes.values|
      invariant |masks| == k
      invariant forall j :: 0 <= j < k ==> masks[j] == EqMask(col, includes.values[j])
    {
      masks := masks + [EqMask(col, includes.values[k])];
    }
  }

  /** Trial `i` takes one of the included values. */
  predicate Included(events: Table, includes: CondValues, i: nat)
    requires events.WellFormed() && includes.cond in events.columns && i < events.rows
  {
    exists v :: 0 <= v < |includes.values| && events.columns[includes.cond][i] == Real(includes.values[v])
  }

  /** The trials before the cap: included and not excluded, in order. */
  function Eligible(events: Table, contrast: Contrast): (e: seq<nat>)
    requires HasConditions(events, contrast)
    ensures StrictlyIncreasing(e) && InBounds(e, events.rows)
    ensures forall i: nat :: i in e <==>
      i < events.rows && Included(events, contrast.includes, i) && !Excluded(events, contrast.excludes, i)
  {
    var mask := seq(events.rows, i requires 0 <= i < events.rows =>
      Included(events, contrast.includes, i) && !Excluded(events, contrast.excludes, i));
    WhereMembers(mask);
    Where(mask)
  }

  /** Lines 51-63: the include masks, the exclude mask and `np.where`. */
  method Candidates(events: Table, contrast: Contrast) returns (sel: seq<nat>)
    requires HasConditions(events, contrast)
    ensures sel == Eligible(events, contrast)
  {
    var includes := IncludeMasks(events, contrast.includes);
    var excludes := ExcludeMask(events, contrast.excludes);
    assert forall k :: 0 <= k < |includes| ==> |includes[k]| == events.rows;
    var any := AnyOf(includes, events.rows);
    var mask := seq(events.rows, i requires 0 <= i < events.rows => any[i] && !excludes[i]);
    sel := Where(mask);
    WhereMembers(mask);
    forall i: nat | i < events.rows
      ensures any[i] <==> Included(events, contrast.includes, i)
    {
      if any[i] {
        var m :| 0 <= m < |includes| && includes[m][i];
        assert events.columns[contrast.includes.cond][i] == Real(contrast.includes.values[m]);
      }
      if Included(events, contrast.includes, i) {
        var v :| 0 <= v < |contrast.includes.values| &&
          events.columns[contrast.includes.cond][i] == Real(contrast.includes.values[v]);
        assert includes[v][i];
      }
    }
    StrictlyIncreasingUnique(sel, Eligible(events, contrast));
  }

  function Swap<T>(s: seq<T>, i: nat, j: nat): (r: seq<T>)
    requires i < |s| && j < |s|
    ensures |r| == |s| && r[i] == s[j] && r[j] == s[i]
    ensures forall k :: 0 <= k < |s| && k != i && k != j ==> r[k] == s[k]
  {
    s[i := s[j]][j := s[i]]
  }

  /** A swap is a permutation. */
  lemma SwapPermutes<T>(s: seq<T>, i: nat, j: nat)
    requires i < |s| && j < |s|
    ensures multiset(Swap(s, i, j)) == multiset(s)
  {
    var t := s[i := s[j]];
    assert multiset(t) == multiset(s) - multiset{s[i]} + multiset{s[j]};
    assert multiset(t[j := s[i]]) == multiset(t) - multiset{t[j]} + multiset{s[i]};
  }

  /** A swap keeps a list without repetitions free of them. */
  lemma SwapDistinct<T>(s: seq<T>, i: nat, j: nat)
    requires i < |s| && j < |s| && Distinct(s)
    ensures Distinct(Swap(s, i, j))
  {
    var r := Swap(s, i, j);
    forall p, q | 0 <= p < q < |s| ensures r[p] != r[q] {
      var p' := if p == i then j else if p == j then i else p;
      var q' := if q == i then j else if q == j then i else q;
      assert r[p] == s[p'] && r[q] == s[q'] && p' != q';
    }
  }

  /** The steps `i, i - 1, ..., 1` of `random.shuffle`: position `k` is
      swapped with position `draw(k)`, a draw below `k + 1`. */
  function ShuffleFrom<T>(s: seq<T>, i: nat, draw: nat -> nat): (r: seq<T>)
    requires i < |s| && forall k: nat :: draw(k) <= k
    ensures |r| == |s|
    decreases i
  {
    if i == 0 then s else ShuffleFrom(Swap(s, i, draw(i)), i - 1, draw)
  }

  /** The remaining steps permute the list and keep it free of repetitions. */
  lemma {:induction false} ShuffleFromPermutes<T>(s: seq<T>, i: nat, draw: nat -> nat)
    requires i < |s| && forall k: nat :: draw(k) <= k
    ensures multiset(ShuffleFrom(s, i, draw)) == multiset(s)
    ensures Distinct(s) ==> Distinct(ShuffleFrom(s, i, draw))
    decreases i
  {
    if i > 0 {
      SwapPermutes(s, i, draw(i));
      if Distinct(s) {
        SwapDistinct(s, i, draw(i));
      }
      ShuffleFromPermutes(Swap(s, i, draw(i)), i - 1, draw);
    }
  }

  /** `random.shuffle(s)` with its draws given by `draw`. */
  function Shuffled<T>(s: seq<T>, draw: nat -> nat): (r: seq<T>)
    requires forall k: nat :: draw(k) <= k
    ensures |r| == |s|
  {
    if |s| == 0 then s else ShuffleFrom(s, |s| - 1, draw)
  }

  /** Shuffling permutes the list and keeps it free of repetitions. */
  lemma ShuffledPermutes<T>(s: seq<T>, draw: nat -> nat)
    requires forall k: nat :: draw(k) <= k
    ensures multiset(Shuffled(s, draw)) == multiset(s)
    ensures Distinct(s) ==> Distinct(Shuffled(s, draw))
  {
    if |s| > 0 {
      ShuffleFromPermutes(s, |s| - 1, draw);
    }
  }

  /** CPython's Fisher-Yates loop, in place. */
  method Shuffle(a: array<nat>, draw: nat -> nat)
    requires forall k: nat :: draw(k) <= k
    modifies a
    ensures a[..] == Shuffled(old(a[..]), draw)
  {
    if a.Length == 0 {
      return;
    }
    ghost var target := Shuffled(a[..], draw);
    var i := a.Length - 1;
    while i > 0
      invariant 0 <= i < a.Length
      invariant ShuffleFrom(a[..], i, draw) == target
      decreases i
    {
      ghost var before := a[..];
      var j := draw(i);
      a[i], a[j] := a[j], a[i];
      assert a[..] == Swap(before, i, j);
      i := i - 1;
    }
  }

  /** The first `MaxTrials` of a shuffle of the trials when there are more,
      the trials themselves otherwise. */
  function Capped(sel: seq<nat>, draw: nat -> nat): (c: seq<nat>)
    requires forall k: nat :: draw(k) <= k
  {
    if |sel| > MaxTrials then Shuffled(sel, draw)[..MaxTrials] else sel
  }

  /** The cap keeps at most `MaxTrials` distinct trials, all drawn from the
      selection, and keeps the selection whole when it is small enough. */
  lemma CappedTrials(sel: seq<nat>, draw: nat -> nat)
    requires forall k: nat :: draw(k) <= k
    requires Distinct(sel)
    ensures |Capped(sel, draw)| == if |sel| > MaxTrials then MaxTrials else |sel|
    ensures |sel| <= MaxTrials ==> Capped(sel, draw) == sel
    ensures Distinct(Capped(sel, draw))
    ensures forall x :: x in Capped(sel, draw) ==> x in sel
  {
    if |sel| > MaxTrials {
      var sh := Shuffled(sel, draw);
      ShuffledPermutes(sel, draw);
      forall x | x in sh[..MaxTrials] ensures x in sel {
        assert x in multiset(sh);
      }
    }
  }

  /** Lines 66-69: shuffle a copy of the trials in place and keep the first
      `MaxTrials`, when there are more. */
  method CapTrials(sel: seq<nat>, draw: nat -> nat) returns (c: seq<nat>)
    requires forall k: nat :: draw(k) <= k
    ensures c == Capped(sel, draw)
  {
    if |sel| > MaxTrials {
      var a := new nat[|sel|](k requires 0 <= k < |sel| => sel[k]);
      assert a[..] == sel;
      Shuffle(a, draw);
      c := a[..MaxTrials];
    } else {
      c := sel;
    }
  }

  /** The selection of lines 51-71: the trial indices and their labels
      `y[sel]`. */
  method SelectTrials(events: Table, contrast: Contrast, draw: nat -> nat)
    returns (sel: seq<nat>, y: seq<Value>)
    requires HasConditions(events, contrast)
    requires forall k: nat :: draw(k) <= k
    ensures sel == Capped(Eligible(events, contrast), draw)
    ensures InBounds(sel, events.rows) && Distinct(sel) && |sel| <= MaxTrials
    ensures forall i: nat :: i in sel ==>
      i < events.rows && Included(events, contrast.includes, i) && !Excluded(events, contrast.excludes, i)
    ensures |y| == |sel| && forall k :: 0 <= k < |sel| ==> y[k] == events.columns[contrast.includes.cond][sel[k]]
  {
    var cand := Candidates(events, contrast);
    assert Distinct(cand);
    CappedTrials(cand, draw);
    sel := CapTrials(cand, draw);
    assert forall k :: 0 <= k < |sel| ==> sel[k] in sel;
    y := Pick(events.columns[contrast.includes.cond], sel);
  }
}
