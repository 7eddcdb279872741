/** Time-of-interest windows and the re-centring of diagonal-aligned score
    matrices used to estimate how long a representation generalises. */
module Duration {
  import opened Trials

  predicate Sorted(times: seq<real>) {
    forall i, j :: 0 <= i <= j < |times| ==> times[i] <= times[j]
  }

  /** `np.where((times >= lo) & (times <= hi))[0]`: the time samples of a
      window, both bounds included. */
  function TimeWindow(times: seq<real>, lo: real, hi: real): (w: seq<nat>)
    ensures StrictlyIncreasing(w) && InBounds(w, |times|)
    ensures forall i: nat :: i in w <==> i < |times| && lo <= times[i] <= hi
  {
    var mask := seq(|times|, i requires 0 <= i < |times| => times[i] >= lo && times[i] <= hi);
    WhereMembers(mask);
    Where(mask)
  }

  /** Between two consecutive samples of a window over a sorted time axis
      there is no gap. */
  lemma WindowStep(times: seq<real>, lo: real, hi: real, k: nat)
    requires Sorted(times)
    requires k + 1 < |TimeWindow(times, lo, hi)|
    ensures TimeWindow(times, lo, hi)[k + 1] == TimeWindow(times, lo, hi)[k] + 1
  {
    var w := TimeWindow(times, lo, hi);
    var j := w[k] + 1;
    assert w[k] in w && w[k + 1] in w;
    assert j < w[k + 1] ==> j < |times| && lo <= times[j] <= hi;
    forall idx | 0 <= idx < |w| ensures j < w[k + 1] ==> w[idx] != j {
      if idx < k {
        assert w[idx] < w[k];
      } else if idx > k + 1 {
        assert w[idx] > w[k + 1];
      }
    }
  }

  /** Over a sorted time axis a window is a contiguous run of samples. */
  lemma {:induction false} WindowIsContiguous(times: seq<real>, lo: real, hi: real, k: nat)
    requires Sorted(times)
    requires k < |TimeWindow(times, lo, hi)|
    ensures TimeWindow(times, lo, hi)[k] == TimeWindow(times, lo, hi)[0] + k
  {
    if k > 0 {
      WindowIsContiguous(times, lo, hi, k - 1);
      WindowStep(times, lo, hi, k - 1);
    }
  }

  /** Euclidean remainders agree for numbers that differ by a multiple of `n`. */
  lemma ModUnique(a: int, n: int, q: int, r: int)
    requires n > 0 && 0 <= r < n && a == q * n + r
    ensures a % n == r
  {
    var q', r' := a / n, a % n;
    assert a == q' * n + r';
    var z := q - q';
    assert z * n == r' - r;
    assert z >= 1 ==> z * n >= n;
    assert z <= -1 ==> z * n <= -n;
  }

  lemma ModShift(a: int, b: int, n: int)
    requires n > 0
    ensures (a % n + b) % n == (a + b) % n
  {
    var q := a / n;
    assert a == q * n + a % n;
    var c := (a % n + b) % n;
    var d := (a % n + b) / n;
    assert a % n + b == d * n + c;
    ModUnique(a + b, n, q + d, c);
  }

  /** The element that lands at `j` when the last `k % n` elements move to the front. */
  lemma RollIndex<T>(s: seq<T>, k: int, j: int)
    requires 0 <= j < |s|
    ensures var n := |s|; var m := k % n; (s[n - m..] + s[..n - m])[j] == s[(j - k) % n]
  {
    var n := |s|;
    var m, q := k % n, k / n;
    assert k == q * n + m;
    if j < m {
      assert (-q - 1) * n == -(q * n) - n;
      ModUnique(j - k, n, -q - 1, n - m + j);
    } else {
      assert (-q) * n == -(q * n);
      ModUnique(j - k, n, -q, j - m);
    }
  }

  /** `np.roll(s, k)`: every element moves `k` places to the right, wrapping
      around the end. */
  function Roll<T>(s: seq<T>, k: int): (r: seq<T>)
    ensures |r| == |s|
    ensures forall j :: 0 <= j < |s| ==> r[j] == s[(j - k) % |s|]
  {
    if |s| == 0 then s
    else
      var n := |s|;
      var m := k % n;
      var r := s[n - m..] + s[..n - m];
      assert forall j :: 0 <= j < n ==> r[j] == s[(j - k) % n] by {
        forall j | 0 <= j < n ensures r[j] == s[(j - k) % n] {
          RollIndex(s, k, j);
        }
      }
      r
  }

  /** Rolling back undoes a roll. */
  lemma RollRoundTrip<T>(s: seq<T>, k: int)
    ensures Roll(Roll(s, k), -k) == s
  {
    var n := |s|;
    forall j | 0 <= j < n ensures Roll(Roll(s, k), -k)[j] == s[j] {
      ModShift(j + k, -k, n);
      ModUnique(j, n, 0, j);
    }
  }

  /** `np.roll(scores, len(times) // 2, axis=2)` on a (subject x train x
      offset) array: every row is rolled by half the number of samples. */
  function CentreScores(scores: seq<seq<seq<Value>>>, nTimes: nat): (c: seq<seq<seq<Value>>>)
    ensures |c| == |scores|
    ensures forall s :: 0 <= s < |scores| ==> |c[s]| == |scores[s]|
  {
    seq(|scores|, s requires 0 <= s < |scores| =>
      seq(|scores[s]|, t requires 0 <= t < |scores[s]| => Roll(scores[s][t], nTimes / 2)))
  }

  /** After re-centring, offset 0 of a row of `nTimes` samples (the
      training-time diagonal once aligned) sits in the middle column, and
      the column just before offset 0 wraps to the middle minus one. */
  lemma CentreMovesDiagonalToMiddle(scores: seq<seq<seq<Value>>>, nTimes: nat, s: nat, t: nat)
    requires s < |scores| && t < |scores[s]| && |scores[s][t]| == nTimes > 0
    ensures CentreScores(scores, nTimes)[s][t][nTimes / 2] == scores[s][t][0]
    ensures nTimes > 1 ==> CentreScores(scores, nTimes)[s][t][nTimes / 2 - 1] == scores[s][t][nTimes - 1]
  {
    ModUnique(0, nTimes, 0, 0);
    ModUnique(-1, nTimes, -1, nTimes - 1);
  }
}
