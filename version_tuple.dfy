/**
 * The audit's version parser `to_tuple` and Python's ordering of the tuples
 * it yields. Both script variants define the same `to_tuple`: the integer
 * value of every maximal run of digits in the string, left to right, or the
 * tuple (0, 0, 0) when the string has no digit.
 */
module VersionTuple {
  import opened Text

  /** End of the run of digits that starts at index `i` of `s`. */
  function RunEnd(s: string, i: nat): (j: nat)
    requires i <= |s|
    ensures i <= j <= |s|
    ensures forall k :: i <= k < j ==> IsDigit(s[k])
    ensures j < |s| ==> !IsDigit(s[j])
    decreases |s| - i
  {
    if i < |s| && IsDigit(s[i]) then RunEnd(s, i + 1) else i
  }

  /**
   * The list `re.findall(r'\d+', s[i:])`, scanning from index `i`: every
   * maximal run of digits, in order.
   */
  function RunsFrom(s: string, i: nat): (runs: seq<string>)
    requires i <= |s|
    ensures forall k :: 0 <= k < |runs| ==> |runs[k]| > 0 && AllDigits(runs[k])
    decreases |s| - i
  {
    if i == |s| then []
    else if !IsDigit(s[i]) then RunsFrom(s, i + 1)
    else
      var j := RunEnd(s, i);
      [s[i..j]] + RunsFrom(s, j)
  }

  /** `re.findall(r'\d+', s)`. */
  function DigitRuns(s: string): seq<string> {
    RunsFrom(s, 0)
  }

  /** The digits of `s[i..]`, in order, with everything else dropped. */
  function DigitsFrom(s: string, i: nat): string
    requires i <= |s|
    decreases |s| - i
  {
    if i == |s| then []
    else if IsDigit(s[i]) then [s[i]] + DigitsFrom(s, i + 1)
    else DigitsFrom(s, i + 1)
  }

  /** The runs laid end to end. */
  function Concat(runs: seq<string>): string {
    if |runs| == 0 then [] else runs[0] + Concat(runs[1..])
  }

  /** Python's `int(w)` on a string of ASCII digits (leading zeros allowed). */
  function DecimalValue(w: string): nat
    requires AllDigits(w)
    decreases |w|
  {
    if |w| == 0 then 0
    else 10 * DecimalValue(w[..|w| - 1]) + (w[|w| - 1] as int - '0' as int)
  }

  /** `to_tuple(v)`: the values of the digit runs of `v`, or (0, 0, 0) without any. */
  function ToTuple(v: string): (t: seq<nat>)
    ensures |t| > 0
    ensures NoDigits(v) ==> t == [0, 0, 0]
  {
    RunsEmptyIff(v, 0);
    var runs := DigitRuns(v);
    if |runs| == 0 then [0, 0, 0] else Values(runs)
  }

  /** `tuple(int(n) for n in runs)`. */
  function Values(runs: seq<string>): (t: seq<nat>)
    requires forall k :: 0 <= k < |runs| ==> AllDigits(runs[k])
    ensures |t| == |runs|
    ensures forall k :: 0 <= k < |runs| ==> t[k] == DecimalValue(runs[k])
  {
    if |runs| == 0 then [] else [DecimalValue(runs[0])] + Values(runs[1..])
  }

  /** No digit from index `i` on. */
  predicate NoDigitsFrom(s: string, i: nat)
    requires i <= |s|
  {
    forall k :: i <= k < |s| ==> !IsDigit(s[k])
  }

  /** The scan from `i` finds no run exactly when no digit follows `i`. */
  lemma {:induction false} RunsEmptyIff(s: string, i: nat)
    requires i <= |s|
    ensures |RunsFrom(s, i)| == 0 <==> NoDigitsFrom(s, i)
    decreases |s| - i
  {
    if i < |s| && !IsDigit(s[i]) {
      RunsEmptyIff(s, i + 1);
    }
  }

  /** The digit run starting at `i` ends at the first non-digit `j`. */
  lemma {:induction false} RunEndIs(s: string, i: nat, j: nat)
    requires i <= j <= |s|
    requires forall k :: i <= k < j ==> IsDigit(s[k])
    requires j < |s| ==> !IsDigit(s[j])
    ensures RunEnd(s, i) == j
    decreases j - i
  {
    if i < j {
      RunEndIs(s, i + 1, j);
    }
  }

  /** Where each run of `RunsFrom(s, i)` lies in `s`: its start and its end. */
  function RunBounds(s: string, i: nat): seq<(nat, nat)>
    requires i <= |s|
    decreases |s| - i
  {
    if i == |s| then []
    else if !IsDigit(s[i]) then RunBounds(s, i + 1)
    else
      var j := RunEnd(s, i);
      [(i, j)] + RunBounds(s, j)
  }

  /**
   * `s[a..b]` is a maximal block of digits of `s[i..]`: non-empty, all
   * digits, and neither extendable to the left (within `s[i..]`) nor to
   * the right.
   */
  predicate MaximalRun(s: string, i: nat, a: nat, b: nat) {
    && i <= a < b <= |s|
    && (forall k :: a <= k < b ==> IsDigit(s[k]))
    && (a == i || !IsDigit(s[a - 1]))
    && (b == |s| || !IsDigit(s[b]))
  }

  /** One bound per reported run, each locating its run in `s`. */
  lemma {:induction false} RunBoundsLocate(s: string, i: nat)
    requires i <= |s|
    ensures |RunBounds(s, i)| == |RunsFrom(s, i)|
    ensures forall k :: 0 <= k < |RunBounds(s, i)| ==>
              RunBounds(s, i)[k].0 <= RunBounds(s, i)[k].1 <= |s|
              && RunsFrom(s, i)[k] == s[RunBounds(s, i)[k].0..RunBounds(s, i)[k].1]
    decreases |s| - i
  {
    if i < |s| {
      if !IsDigit(s[i]) {
        RunBoundsLocate(s, i + 1);
      } else {
        var j := RunEnd(s, i);
        RunBoundsLocate(s, j);
        assert RunsFrom(s, i) == [s[i..j]] + RunsFrom(s, j);
        assert RunBounds(s, i) == [(i, j)] + RunBounds(s, j);
      }
    }
  }

  /** Every bound the scan from `i` yields is a maximal digit block of `s[i..]`. */
  lemma {:induction false} RunBoundsMaximal(s: string, i: nat)
    requires i <= |s|
    ensures forall k :: 0 <= k < |RunBounds(s, i)| ==>
              MaximalRun(s, i, RunBounds(s, i)[k].0, RunBounds(s, i)[k].1)
    decreases |s| - i
  {
    if i < |s| {
      if !IsDigit(s[i]) {
        RunBoundsMaximal(s, i + 1);
      } else {
        var j := RunEnd(s, i);
        RunBoundsMaximal(s, j);
        BoundsAfterEnd(s, i);
        assert RunBounds(s, i) == [(i, j)] + RunBounds(s, j);
      }
    }
  }

  /** The bounds found after a run start past its end, where a non-digit stands. */
  lemma BoundsAfterEnd(s: string, i: nat)
    requires i < |s| && IsDigit(s[i])
    requires forall k :: 0 <= k < |RunBounds(s, RunEnd(s, i))| ==>
               MaximalRun(s, RunEnd(s, i), RunBounds(s, RunEnd(s, i))[k].0, RunBounds(s, RunEnd(s, i))[k].1)
    ensures forall k :: 0 <= k < |RunBounds(s, RunEnd(s, i))| ==> RunEnd(s, i) < RunBounds(s, RunEnd(s, i))[k].0
  {
    var j := RunEnd(s, i);
    var rest := RunBounds(s, j);
    forall k | 0 <= k < |rest|
      ensures j < rest[k].0
    {
      assert MaximalRun(s, j, rest[k].0, rest[k].1);
      assert IsDigit(s[rest[k].0]);
    }
  }

  /** Consecutive bounds leave a gap: the positions strictly increase. */
  lemma {:induction false} RunBoundsIncrease(s: string, i: nat)
    requires i <= |s|
    ensures forall k, l :: 0 <= k < l < |RunBounds(s, i)| ==> RunBounds(s, i)[k].1 < RunBounds(s, i)[l].0
    decreases |s| - i
  {
    if i < |s| {
      if !IsDigit(s[i]) {
        RunBoundsIncrease(s, i + 1);
      } else {
        var j := RunEnd(s, i);
        RunBoundsIncrease(s, j);
        RunBoundsMaximal(s, j);
        BoundsAfterEnd(s, i);
        var bounds := RunBounds(s, i);
        assert bounds == [(i, j)] + RunBounds(s, j);
        assert bounds[1..] == RunBounds(s, j);
      }
    }
  }

  /**
   * The runs the scan reports are maximal digit blocks, one per bound, in
   * increasing positions with a gap between consecutive ones.
   */
  lemma RunsAreMaximal(s: string, i: nat)
    requires i <= |s|
    ensures |RunBounds(s, i)| == |RunsFrom(s, i)|
    ensures forall k :: 0 <= k < |RunBounds(s, i)| ==>
              && MaximalRun(s, i, RunBounds(s, i)[k].0, RunBounds(s, i)[k].1)
              && RunsFrom(s, i)[k] == s[RunBounds(s, i)[k].0..RunBounds(s, i)[k].1]
    ensures forall k, l :: 0 <= k < l < |RunBounds(s, i)| ==> RunBounds(s, i)[k].1 < RunBounds(s, i)[l].0
  {
    RunBoundsLocate(s, i);
    RunBoundsMaximal(s, i);
    RunBoundsIncrease(s, i);
  }

  /** Every maximal digit block of `s[i..]` is among the runs the scan reports. */
  lemma {:induction false} MaximalRunsReported(s: string, i: nat, a: nat, b: nat)
    requires i <= |s| && MaximalRun(s, i, a, b)
    ensures (a, b) in RunBounds(s, i)
    decreases |s| - i
  {
    if i == a {
      RunEndIs(s, a, b);
    } else if !IsDigit(s[i]) {
      MaximalRunsReported(s, i + 1, a, b);
    } else {
      var j := RunEnd(s, i);
      assert j < a;
      MaximalRunsReported(s, j, a, b);
    }
  }

  /** The runs, laid end to end, are exactly the digits of the string. */
  lemma {:induction false} RunsCoverDigits(s: string, i: nat)
    requires i <= |s|
    ensures Concat(RunsFrom(s, i)) == DigitsFrom(s, i)
    decreases |s| - i
  {
    if i == |s| {
    } else if !IsDigit(s[i]) {
      RunsCoverDigits(s, i + 1);
    } else {
      var j := RunEnd(s, i);
      RunsCoverDigits(s, j);
      DigitsOfRun(s, i, j);
      var runs := [s[i..j]] + RunsFrom(s, j);
      assert runs[1..] == RunsFrom(s, j);
    }
  }

  /** Over a block of digits `s[i..j]`, the digits are that block itself. */
  lemma {:induction false} DigitsOfRun(s: string, i: nat, j: nat)
    requires i <= j <= |s|
    requires forall k :: i <= k < j ==> IsDigit(s[k])
    ensures DigitsFrom(s, i) == s[i..j] + DigitsFrom(s, j)
    decreases j - i
  {
    if i < j {
      DigitsOfRun(s, i + 1, j);
      var rest := DigitsFrom(s, j);
      assert s[i..j] == [s[i]] + s[i + 1..j];
      assert DigitsFrom(s, i) == [s[i]] + (s[i + 1..j] + rest);
      assert [s[i]] + (s[i + 1..j] + rest) == ([s[i]] + s[i + 1..j]) + rest;
    }
  }

  /** There is a non-digit on at least one side of the seam between `a` and `b`. */
  predicate SeamBreaks(a: string, b: string) {
    |a| == 0 || !IsDigit(a[|a| - 1]) || |b| == 0 || !IsDigit(b[0])
  }

  /** A run inside `b` ends at the same place when `b` follows some `a`. */
  lemma {:induction false} RunEndShift(a: string, b: string, k: nat)
    requires k <= |b|
    ensures RunEnd(a + b, |a| + k) == |a| + RunEnd(b, k)
    decreases |b| - k
  {
    if k < |b| && IsDigit(b[k]) {
      assert (a + b)[|a| + k] == b[k];
      RunEndShift(a, b, k + 1);
    } else if k < |b| {
      assert (a + b)[|a| + k] == b[k];
    }
  }

  /** Scanning `a + b` from inside `b` is scanning `b`. */
  lemma {:induction false} RunsShift(a: string, b: string, k: nat)
    requires k <= |b|
    ensures RunsFrom(a + b, |a| + k) == RunsFrom(b, k)
    decreases |b| - k
  {
    if k < |b| {
      assert (a + b)[|a| + k] == b[k];
      if !IsDigit(b[k]) {
        RunsShift(a, b, k + 1);
      } else {
        var j := RunEnd(b, k);
        RunEndShift(a, b, k);
        assert RunsFrom(a + b, |a| + k) == [(a + b)[|a| + k..|a| + j]] + RunsFrom(a + b, |a| + j);
        SliceShift(a, b, k, j);
        RunsShift(a, b, j);
      }
    }
  }

  /** A slice of `b` is the same slice of `a + b`, shifted by `|a|`. */
  lemma SliceShift(a: string, b: string, k: nat, j: nat)
    requires k <= j <= |b|
    ensures (a + b)[|a| + k..|a| + j] == b[k..j]
  {
  }

  /** A run that ends inside `a` ends at the same place in `a + b`. */
  lemma {:induction false} RunEndPrefix(a: string, b: string, i: nat)
    requires i <= |a|
    requires RunEnd(a, i) < |a| || |b| == 0 || !IsDigit(b[0])
    ensures RunEnd(a + b, i) == RunEnd(a, i)
    decreases |a| - i
  {
    if i < |a| {
      assert (a + b)[i] == a[i];
      if IsDigit(a[i]) {
        RunEndPrefix(a, b, i + 1);
      }
    } else if |b| > 0 {
      assert (a + b)[i] == b[0];
    }
  }

  /** With a non-digit at the seam, the runs of `a + b` are those of `a`, then those of `b`. */
  lemma {:induction false} RunsAppend(a: string, b: string, i: nat)
    requires i <= |a| && SeamBreaks(a, b)
    ensures RunsFrom(a + b, i) == RunsFrom(a, i) + RunsFrom(b, 0)
    decreases |a| - i
  {
    if i == |a| {
      RunsShift(a, b, 0);
    } else {
      assert (a + b)[i] == a[i];
      if !IsDigit(a[i]) {
        RunsAppend(a, b, i + 1);
      } else {
        var j := RunEnd(a, i);
        RunEndPrefix(a, b, i);
        assert (a + b)[i..j] == a[i..j];
        RunsAppend(a, b, j);
      }
    }
  }

  /** The digit runs of `a + b` when a non-digit separates the two halves. */
  lemma DigitRunsAppend(a: string, b: string)
    requires SeamBreaks(a, b)
    ensures DigitRuns(a + b) == DigitRuns(a) + DigitRuns(b)
  {
    RunsAppend(a, b, 0);
  }

  /** When the string has digits, one tuple entry per run, holding that run's value. */
  lemma ToTupleOfRuns(v: string)
    requires !NoDigits(v)
    ensures |ToTuple(v)| == |DigitRuns(v)|
    ensures forall k :: 0 <= k < |DigitRuns(v)| ==> ToTuple(v)[k] == DecimalValue(DigitRuns(v)[k])
  {
    RunsEmptyIff(v, 0);
  }

  /** The runs of `v`, laid end to end, are the digits of `v`. */
  lemma DigitRunsCoverDigits(v: string)
    ensures Concat(DigitRuns(v)) == DigitsFrom(v, 0)
  {
    RunsCoverDigits(v, 0);
  }

  /** Non-digit decoration around a version string never changes its tuple. */
  lemma ToTupleIgnoresDecoration(v: string, before: string, after: string)
    requires NoDigits(before) && NoDigits(after)
    ensures ToTuple(before + v + after) == ToTuple(v)
  {
    RunsEmptyIff(before, 0);
    RunsEmptyIff(after, 0);
    DigitRunsAppend(before + v, after);
    DigitRunsAppend(before, v);
    assert DigitRuns(before + v + after) == DigitRuns(v);
  }

  // Python's ordering of tuples of integers.

  /** `a < b` on tuples: lexicographic, a proper prefix being the smaller. */
  predicate Less(a: seq<nat>, b: seq<nat>)
    decreases |a|
  {
    if |a| == 0 then |b| > 0
    else if |b| == 0 then false
    else a[0] < b[0] || (a[0] == b[0] && Less(a[1..], b[1..]))
  }

  /** `a <= b` on tuples. */
  predicate LessEq(a: seq<nat>, b: seq<nat>) {
    a == b || Less(a, b)
  }

  /** `t[:n]`: the first `n` entries, or all of `t` when it is shorter. */
  function Take(t: seq<nat>, n: nat): (p: seq<nat>)
    ensures p <= t && |p| == if |t| < n then |t| else n
  {
    if |t| <= n then t else t[..n]
  }

  /** `t[:2]`, the major.minor branch of a version tuple. */
  function Branch(t: seq<nat>): seq<nat> {
    Take(t, 2)
  }

  /** The two tuples agree on their first `k` entries and then `a` falls behind. */
  predicate LessAt(a: seq<nat>, b: seq<nat>, k: int) {
    0 <= k <= |a| && k <= |b| && a[..k] == b[..k]
    && ((k == |a| && k < |b|) || (k < |a| && k < |b| && a[k] < b[k]))
  }

  /** `Less` agrees with the textbook definition of lexicographic order. */
  lemma {:induction false} LessIff(a: seq<nat>, b: seq<nat>)
    ensures Less(a, b) <==> exists k :: LessAt(a, b, k)
    decreases |a|
  {
    if |a| == 0 || |b| == 0 {
      if |a| == 0 && |b| > 0 {
        assert LessAt(a, b, 0);
      }
    } else if a[0] < b[0] {
      assert LessAt(a, b, 0);
    } else if a[0] == b[0] {
      LessIff(a[1..], b[1..]);
      if Less(a[1..], b[1..]) {
        var k :| LessAt(a[1..], b[1..], k);
        assert a[..k + 1] == [a[0]] + a[1..][..k];
        assert b[..k + 1] == [b[0]] + b[1..][..k];
        assert LessAt(a, b, k + 1);
      }
      forall k | LessAt(a, b, k) ensures LessAt(a[1..], b[1..], k - 1) {
        assert a[..k][1..] == a[1..][..k - 1];
        assert b[..k][1..] == b[1..][..k - 1];
      }
    }
  }

  lemma {:induction false} LessIrreflexive(a: seq<nat>)
    ensures !Less(a, a)
    decreases |a|
  {
    if |a| > 0 {
      LessIrreflexive(a[1..]);
    }
  }

  lemma {:induction false} LessAsymmetric(a: seq<nat>, b: seq<nat>)
    ensures !(Less(a, b) && Less(b, a))
    decreases |a|
  {
    if |a| > 0 && |b| > 0 {
      LessAsymmetric(a[1..], b[1..]);
    }
  }

  lemma {:induction false} LessTransitive(a: seq<nat>, b: seq<nat>, c: seq<nat>)
    requires Less(a, b) && Less(b, c)
    ensures Less(a, c)
    decreases |a|
  {
    if |a| > 0 && a[0] == b[0] && b[0] == c[0] {
      LessTransitive(a[1..], b[1..], c[1..]);
    }
  }

  /** Any two distinct tuples are ordered one way or the other. */
  lemma {:induction false} LessTotal(a: seq<nat>, b: seq<nat>)
    ensures a == b || Less(a, b) || Less(b, a)
    decreases |a|
  {
    if |a| > 0 && |b| > 0 && a[0] == b[0] {
      LessTotal(a[1..], b[1..]);
      if a[1..] == b[1..] {
        assert a == [a[0]] + a[1..] && b == [b[0]] + b[1..];
      }
    }
  }

  /** Python's `a >= b` on tuples is exactly `not (a < b)`. */
  lemma AtLeastIffNotLess(a: seq<nat>, b: seq<nat>)
    ensures LessEq(b, a) <==> !Less(a, b)
  {
    LessTotal(a, b);
    LessAsymmetric(a, b);
    LessIrreflexive(a);
  }

  lemma LessEqTransitive(a: seq<nat>, b: seq<nat>, c: seq<nat>)
    requires LessEq(a, b) && LessEq(b, c)
    ensures LessEq(a, c)
  {
    if Less(a, b) && Less(b, c) {
      LessTransitive(a, b, c);
    }
  }

  /** Ordering by the first `n` entries: strictly smaller there means smaller. */
  lemma {:induction false} TakeLess(a: seq<nat>, b: seq<nat>, n: nat)
    requires Less(Take(a, n), Take(b, n))
    ensures Less(a, b)
    decreases n
  {
    if n > 0 && |a| > 0 && |b| > 0 && a[0] == b[0] {
      assert Take(a, n)[1..] == Take(a[1..], n - 1);
      assert Take(b, n)[1..] == Take(b[1..], n - 1);
      TakeLess(a[1..], b[1..], n - 1);
    }
  }
}
