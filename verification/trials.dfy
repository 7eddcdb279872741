/** Shared primitives: NaN-able cells, the trial-metadata table, numpy-style
    index selection (`np.where`), fancy indexing and broadcasting. */
module Trials {

  /** One cell of a trial table or of a score array: a real number or NaN.
      numpy comparisons with NaN are false, which datatype equality gives:
      `NaN == Real(v)` never holds. */
  datatype Value = NaN | Real(r: real)

  /** The exceptions the modelled code can raise. */
  datatype Error =
    | ValueError      // an explicit `raise ValueError`
    | IndexError      // a fancy index past the end of an array
    | BroadcastError  // an assignment whose right-hand side does not broadcast

  datatype Result<T> = Ok(value: T) | Err(error: Error)

  datatype Option<T> = None | Some(value: T)

  /** Trial metadata: a data frame with `rows` rows and named columns. */
  datatype Table = Table(rows: nat, columns: map<string, seq<Value>>) {
    /** Every column has one entry per row, as in any data frame. */
    predicate WellFormed() {
      forall c :: c in columns ==> |columns[c]| == rows
    }
  }

  /** Single-trial predictions: one value per trial, or one row of `width`
      values (one per time point) per trial. */
  datatype Predictions = Vector(v: seq<real>) | Matrix(m: seq<seq<real>>, width: nat) {
    /** A numpy matrix is rectangular. */
    predicate WellFormed() {
      Matrix? ==> forall k :: 0 <= k < |m| ==> |m[k]| == width
    }

    /** The predictions as trial rows: `y_pred[:, np.newaxis]` for a vector. */
    function Rows(): seq<seq<real>> {
      match this
      case Vector(v) => seq(|v|, k requires 0 <= k < |v| => [v[k]])
      case Matrix(m, _) => m
    }

    /** `n_times`, the second dimension after the reshape. */
    function Times(): nat {
      match this
      case Vector(_) => 1
      case Matrix(_, w) => w
    }
  }

  predicate StrictlyIncreasing(s: seq<nat>) {
    forall j, k :: 0 <= j < k < |s| ==> s[j] < s[k]
  }

  predicate Distinct<T(==)>(s: seq<T>) {
    forall j, k :: 0 <= j < k < |s| ==> s[j] != s[k]
  }

  predicate InBounds(sel: seq<nat>, n: nat) {
    forall k :: 0 <= k < |sel| ==> sel[k] < n
  }

  /** `np.where(mask)[0]`: the indices where the mask holds, in increasing order. */
  function Where(mask: seq<bool>): (r: seq<nat>)
    ensures StrictlyIncreasing(r)
    ensures InBounds(r, |mask|)
  {
    if |mask| == 0 then []
    else
      var n := |mask| - 1;
      Where(mask[..n]) + (if mask[n] then [n] else [])
  }

  /** `np.where(mask)[0]` holds `i` exactly when `mask[i]` does. */
  lemma {:induction false} WhereMembers(mask: seq<bool>)
    ensures forall i: nat :: i in Where(mask) <==> i < |mask| && mask[i]
  {
    if |mask| > 0 {
      var n := |mask| - 1;
      assert forall i: nat :: i < n ==> mask[..n][i] == mask[i];
      WhereMembers(mask[..n]);
    }
  }

  /** In a strictly increasing sequence the last element is the largest,
      and the members before it are exactly the members below it. */
  lemma InFront(a: seq<nat>, i: nat)
    requires StrictlyIncreasing(a) && |a| > 0
    ensures i in a ==> i <= a[|a| - 1]
    ensures i in a[..|a| - 1] <==> i in a && i < a[|a| - 1]
  {
    var n := |a| - 1;
    assert a == a[..n] + [a[n]];
    if i in a {
      var k :| 0 <= k < |a| && a[k] == i;
      assert k < n ==> a[..n][k] == i;
    }
    if i in a[..n] {
      var k :| 0 <= k < n && a[..n][k] == i;
      assert a[k] < a[n];
    }
  }

  lemma FirstIn<T>(s: seq<T>)
    ensures |s| > 0 ==> s[0] in s
  {
  }

  /** Two strictly increasing sequences with the same members are equal:
      a sorted, de-duplicated index list is determined by its set. */
  lemma {:induction false} StrictlyIncreasingUnique(a: seq<nat>, b: seq<nat>)
    requires StrictlyIncreasing(a) && StrictlyIncreasing(b)
    requires forall i :: i in a <==> i in b
    ensures a == b
  {
    FirstIn(a);
    FirstIn(b);
    if a != [] && b != [] {
      var n, m := |a| - 1, |b| - 1;
      InFront(a, b[m]);
      InFront(b, a[n]);
      assert a[n] == b[m];
      forall i ensures i in a[..n] <==> i in b[..m] {
        InFront(a, i);
        InFront(b, i);
      }
      StrictlyIncreasingUnique(a[..n], b[..m]);
      assert a == a[..n] + [a[n]] && b == b[..m] + [b[m]];
    }
  }

  /** The indices `lo, lo + 1, ..., hi - 1`. */
  function Span(lo: nat, hi: nat): (r: seq<nat>)
    requires lo <= hi
    ensures |r| == hi - lo && forall k :: 0 <= k < |r| ==> r[k] == lo + k
    decreases hi
  {
    if lo == hi then [] else Span(lo, hi - 1) + [hi - 1]
  }

  /** A mask that holds exactly on `lo..hi` selects exactly that range. */
  lemma {:induction false} WhereRange(mask: seq<bool>, lo: nat, hi: nat)
    requires lo <= hi <= |mask|
    requires forall i :: 0 <= i < |mask| ==> (mask[i] <==> lo <= i < hi)
    ensures Where(mask) == Span(lo, hi)
  {
    if |mask| > 0 {
      var n := |mask| - 1;
      var front := mask[..n];
      assert forall i :: 0 <= i < n ==> front[i] == mask[i];
      assert Where(mask) == Where(front) + (if mask[n] then [n] else []);
      if hi <= n {
        WhereRange(front, lo, hi);
        assert !mask[n];
        assert Where(mask) == Where(front);
      } else if lo < hi {
        WhereRange(front, lo, n);
        assert mask[n];
        assert Where(mask) == Span(lo, n) + [n];
      } else {
        WhereRange(front, n, n);
        assert !mask[n];
        assert Where(mask) == Where(front) == [];
      }
    }
  }

  /** In a sequence without repetitions every member occurs exactly once. */
  lemma {:induction false} DistinctMultiplicity<T>(s: seq<T>, x: T)
    requires Distinct(s)
    ensures multiset(s)[x] == if x in s then 1 else 0
  {
    if s != [] {
      var n := |s| - 1;
      assert s == s[..n] + [s[n]];
      assert s[n] !in s[..n];
      DistinctMultiplicity(s[..n], x);
    }
  }

  /** Element-wise `col == v`. */
  function EqMask(col: seq<Value>, v: real): seq<bool> {
    seq(|col|, i requires 0 <= i < |col| => col[i] == Real(v))
  }

  /** Element-wise `col >= v`. */
  function GeMask(col: seq<Value>, v: real): seq<bool> {
    seq(|col|, i requires 0 <= i < |col| => col[i].Real? && col[i].r >= v)
  }

  /** `s[sel]` with an integer index array. */
  function Pick<T>(s: seq<T>, sel: seq<nat>): seq<T>
    requires InBounds(sel, |s|)
  {
    seq(|sel|, k requires 0 <= k < |sel| => s[sel[k]])
  }

  function Filled<T>(x: T, n: nat): seq<T> {
    seq(n, _ => x)
  }

  /** The number of distinct values, as `len(np.unique(s))`. */
  function DistinctCount(s: seq<Value>): nat {
    |set x | x in s|
  }

  /** The value written by `target[...] = r` into a slot of `n` cells:
      numpy broadcasts a length-1 right-hand side and refuses any other
      length than `n`. */
  function Broadcast(r: seq<Value>, n: nat): (b: Result<seq<Value>>)
    ensures b.Ok? <==> |r| == n || |r| == 1
    ensures b.Ok? ==> |b.value| == n
    ensures b.Ok? && |r| == n ==> b.value == r
  {
    if |r| == n then Ok(r)
    else if |r| == 1 then Ok(Filled(r[0], n))
    else Err(BroadcastError)
  }

  /** The outcome of filling a sequence of slots in order: the first error
      stops the loop, otherwise every value is kept. */
  function Collect<T>(rs: seq<Result<T>>): (c: Result<seq<T>>)
    ensures c.Ok? <==> forall k :: 0 <= k < |rs| ==> rs[k].Ok?
    ensures c.Ok? ==> |c.value| == |rs| && forall k :: 0 <= k < |rs| ==> c.value[k] == rs[k].value
  {
    if |rs| == 0 then Ok([])
    else
      var n := |rs| - 1;
      match Collect(rs[..n])
      case Err(e) => Err(e)
      case Ok(front) =>
        match rs[n]
        case Err(e) => Err(e)
        case Ok(x) => Ok(front + [x])
  }

  /** The error of `Collect` is the one of the first failing slot. */
  lemma {:induction false} CollectFirstError<T>(rs: seq<Result<T>>, i: nat)
    requires i < |rs| && rs[i].Err?
    requires forall k :: 0 <= k < i ==> rs[k].Ok?
    ensures Collect(rs) == Err(rs[i].error)
  {
    var n := |rs| - 1;
    if i < n {
      CollectFirstError(rs[..n], i);
    } else {
      assert forall k :: 0 <= k < n ==> rs[..n][k].Ok?;
    }
  }
}
