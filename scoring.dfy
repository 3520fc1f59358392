/** The z-score test of `compare_regions`: `zscore(count_a - count_b)` and the `|z| > 2` mask.

    The z-score of a row is (d - mean) / sd, where d is its difference, mean the
    mean of all differences and sd the population standard deviation (sd * sd is
    the population variance). Instead of taking the square root, a row is tested
    with the equivalent squared form (d - mean)^2 > 4 * variance, over exact reals. */
module Scoring {
  import opened Types
  import opened Alignment

  /** The per-group difference `count_a - count_b`. */
  function Diff(r: FrameRow): int
  {
    r.countA - r.countB
  }

  /** Sum of the differences of `rows`. */
  function SumDiff(rows: seq<FrameRow>): real
  {
    if |rows| == 0 then 0.0 else Diff(rows[0]) as real + SumDiff(rows[1..])
  }

  /** Mean of the differences (0 for an empty frame, where no row is tested). */
  function MeanDiff(rows: seq<FrameRow>): real
  {
    if |rows| == 0 then 0.0 else SumDiff(rows) / (|rows| as real)
  }

  /** A row's deviation from `mean`: the numerator of its z-score. */
  function Dev(r: FrameRow, mean: real): real
  {
    Diff(r) as real - mean
  }

  /** Sum of the deviations of `rows` from `mean`. */
  function SumDev(rows: seq<FrameRow>, mean: real): real
  {
    if |rows| == 0 then 0.0 else Dev(rows[0], mean) + SumDev(rows[1..], mean)
  }

  /** A row's squared deviation from `mean`. */
  function SqDev(r: FrameRow, mean: real): (s: real)
    ensures s >= 0.0
  {
    Dev(r, mean) * Dev(r, mean)
  }

  /** Sum of the squared deviations of `rows` from `mean`. */
  function SumSqDev(rows: seq<FrameRow>, mean: real): (s: real)
    ensures s >= 0.0
  {
    if |rows| == 0 then 0.0
    else SqDev(rows[0], mean) + SumSqDev(rows[1..], mean)
  }

  /** Population variance of the differences (scipy's `zscore` uses ddof=0). */
  function PopVar(rows: seq<FrameRow>): (v: real)
    ensures v >= 0.0
    ensures v * (|rows| as real) == SumSqDev(rows, MeanDiff(rows))
  {
    if |rows| == 0 then 0.0 else SumSqDev(rows, MeanDiff(rows)) / (|rows| as real)
  }

  /** The `|z| > 2` test in squared form. */
  predicate IsSignificant(r: FrameRow, mean: real, variance: real)
  {
    SqDev(r, mean) > 4.0 * variance
  }

  /** The rows of `rows` that pass the test, in their original order. */
  function SignificantRows(rows: seq<FrameRow>, mean: real, variance: real): (sel: seq<FrameRow>)
    ensures |sel| <= |rows|
    ensures forall r :: r in sel <==> r in rows && IsSignificant(r, mean, variance)
  {
    if |rows| == 0 then []
    else
      (if IsSignificant(rows[0], mean, variance) then [rows[0]] else [])
      + SignificantRows(rows[1..], mean, variance)
  }

  /** Positions of the rows of `rows` that pass the test, counted from `base`. */
  function PassingIndices(rows: seq<FrameRow>, mean: real, variance: real, base: nat): seq<nat>
  {
    if |rows| == 0 then []
    else
      (if IsSignificant(rows[0], mean, variance) then [base] else [])
      + PassingIndices(rows[1..], mean, variance, base + 1)
  }

  /** `sel` is the subsequence of `whole` at the increasing positions `idx`, which
      are exactly the positions from `b` on whose rows pass the test. */
  ghost predicate PicksPassing(whole: seq<FrameRow>, mean: real, variance: real, b: nat,
                               idx: seq<nat>, sel: seq<FrameRow>)
  {
    && |idx| == |sel|
    && (forall i :: 0 <= i < |idx| ==> b <= idx[i] < |whole| && sel[i] == whole[idx[i]])
    && (forall i, j :: 0 <= i < j < |idx| ==> idx[i] < idx[j])
    && (forall p :: b <= p < |whole| ==> (p in idx <==> IsSignificant(whole[p], mean, variance)))
  }

  /** The selection from position `b` on picks the passing rows in order. */
  lemma {:induction false} SelectionFrom(whole: seq<FrameRow>, mean: real, variance: real, b: nat)
    requires b <= |whole|
    ensures PicksPassing(whole, mean, variance, b,
      PassingIndices(whole[b..], mean, variance, b), SignificantRows(whole[b..], mean, variance))
    decreases |whole| - b
  {
    if b < |whole| {
      var rows, tail := whole[b..], whole[b + 1..];
      assert rows[0] == whole[b] && rows[1..] == tail;
      SelectionFrom(whole, mean, variance, b + 1);
      PickOne(whole, mean, variance, b,
        PassingIndices(tail, mean, variance, b + 1), SignificantRows(tail, mean, variance));
    }
  }

  /** Putting position `b` in front of the picks from `b + 1` on, when its row
      passes, gives the picks from `b` on. */
  lemma PickOne(whole: seq<FrameRow>, mean: real, variance: real, b: nat, idx': seq<nat>, sel': seq<FrameRow>)
    requires b < |whole|
    requires PicksPassing(whole, mean, variance, b + 1, idx', sel')
    ensures var pass := IsSignificant(whole[b], mean, variance);
      PicksPassing(whole, mean, variance, b,
        (if pass then [b] else []) + idx', (if pass then [whole[b]] else []) + sel')
  {
    if IsSignificant(whole[b], mean, variance) {
      PickPassing(whole, mean, variance, b, idx', sel');
    } else {
      assert [] + idx' == idx' && [] + sel' == sel';
      SkipFailing(whole, mean, variance, b, idx', sel');
    }
  }

  lemma PickPassing(whole: seq<FrameRow>, mean: real, variance: real, b: nat, idx': seq<nat>, sel': seq<FrameRow>)
    requires b < |whole| && IsSignificant(whole[b], mean, variance)
    requires PicksPassing(whole, mean, variance, b + 1, idx', sel')
    ensures PicksPassing(whole, mean, variance, b, [b] + idx', [whole[b]] + sel')
  {
    var idx, sel := [b] + idx', [whole[b]] + sel';
    forall i | 0 <= i < |idx| ensures b <= idx[i] < |whole| && sel[i] == whole[idx[i]] {
      if i > 0 {
        assert idx[i] == idx'[i - 1] && sel[i] == sel'[i - 1];
      }
    }
    forall i, j | 0 <= i < j < |idx| ensures idx[i] < idx[j] {
      assert idx[j] == idx'[j - 1];
    }
    forall p | b <= p < |whole| ensures p in idx <==> IsSignificant(whole[p], mean, variance) {
      assert p in idx <==> p == b || p in idx';
    }
  }

  lemma SkipFailing(whole: seq<FrameRow>, mean: real, variance: real, b: nat, idx': seq<nat>, sel': seq<FrameRow>)
    requires b < |whole| && !IsSignificant(whole[b], mean, variance)
    requires PicksPassing(whole, mean, variance, b + 1, idx', sel')
    ensures PicksPassing(whole, mean, variance, b, idx', sel')
  {
    assert forall i :: 0 <= i < |idx'| ==> idx'[i] != b;
  }

  /** The selection keeps the frame's order and takes each passing row once:
      it is the frame's rows at the passing positions, in increasing order. */
  lemma SelectionInFrameOrder(rows: seq<FrameRow>, mean: real, variance: real)
    ensures var idx, sel := PassingIndices(rows, mean, variance, 0), SignificantRows(rows, mean, variance);
      && |idx| == |sel|
      && (forall i :: 0 <= i < |idx| ==> idx[i] < |rows| && sel[i] == rows[idx[i]])
      && (forall i, j :: 0 <= i < j < |idx| ==> idx[i] < idx[j])
      && (forall p :: 0 <= p < |rows| ==> (p in idx <==> IsSignificant(rows[p], mean, variance)))
  {
    assert rows[0..] == rows;
    SelectionFrom(rows, mean, variance, 0);
    assert PicksPassing(rows, mean, variance, 0,
      PassingIndices(rows, mean, variance, 0), SignificantRows(rows, mean, variance));
  }

  /** `combined[combined["z_score"].abs() > 2]`. */
  function Select(frame: seq<FrameRow>): (sel: seq<FrameRow>)
    ensures forall r :: r in sel <==> r in frame && IsSignificant(r, MeanDiff(frame), PopVar(frame))
  {
    SignificantRows(frame, MeanDiff(frame), PopVar(frame))
  }

  /** The deviations from any `mean` sum to the total minus `n * mean`. */
  lemma {:induction false} SumDevShift(rows: seq<FrameRow>, mean: real)
    ensures SumDev(rows, mean) == SumDiff(rows) - (|rows| as real) * mean
  {
    if |rows| > 0 {
      SumDevShift(rows[1..], mean);
    }
  }

  /** The z column has mean zero: the deviations from the mean sum to zero. */
  lemma DeviationsSumToZero(frame: seq<FrameRow>)
    ensures SumDev(frame, MeanDiff(frame)) == 0.0
  {
    SumDevShift(frame, MeanDiff(frame));
  }

  function Abs(x: real): real
  {
    if x < 0.0 then -x else x
  }

  /** The squared test agrees with `|z| > 2` whenever the standard deviation
      `sd` is positive. */
  lemma SquaredTestMatchesZ(r: FrameRow, mean: real, sd: real)
    requires sd > 0.0
    ensures IsSignificant(r, mean, sd * sd) <==> Abs(Dev(r, mean)) / sd > 2.0
  {
    var x, y := Abs(Dev(r, mean)), 2.0 * sd;
    assert SqDev(r, mean) == x * x;
    assert 4.0 * (sd * sd) == y * y;
    assert x / sd > 2.0 <==> x > y;
    SquaresOrder(x, y);
  }

  /** Squaring keeps the order of non-negative reals. */
  lemma SquaresOrder(x: real, y: real)
    requires x >= 0.0 && y >= 0.0
    ensures x > y <==> x * x > y * y
  {
    if x > y {
      SquaresDiffer(x, y);
    } else if x < y {
      SquaresDiffer(y, x);
    }
  }

  lemma SquaresDiffer(x: real, y: real)
    requires x > y >= 0.0
    ensures x * x > y * y
  {
    assert x * x - y * y == (x - y) * (x + y);
    MulPos(x - y, x + y);
  }

  lemma MulPos(a: real, b: real)
    requires a > 0.0 && b > 0.0
    ensures a * b > 0.0
  {
  }

  /** `t` added up `c` times. */
  function Times(c: nat, t: real): real
  {
    if c == 0 then 0.0 else t + Times(c - 1, t)
  }

  lemma {:induction false} TimesIsProduct(c: nat, t: real)
    ensures Times(c, t) == (c as real) * t
  {
    if c > 0 {
      TimesIsProduct(c - 1, t);
      assert ((c - 1) as real) * t + t == (c as real) * t;
    }
  }

  /** Each flagged row carries more than `t` of the squared deviations when `t`
      is the threshold 4 * variance, so the flagged rows carry more than `t`
      times their number. */
  lemma {:induction false} SignificantMass(rows: seq<FrameRow>, mean: real, variance: real)
    ensures Times(|SignificantRows(rows, mean, variance)|, 4.0 * variance) <= SumSqDev(rows, mean)
    ensures |SignificantRows(rows, mean, variance)| > 0 ==>
      Times(|SignificantRows(rows, mean, variance)|, 4.0 * variance) < SumSqDev(rows, mean)
  {
    if |rows| > 0 {
      SignificantMass(rows[1..], mean, variance);
      var c, c' := |SignificantRows(rows, mean, variance)|, |SignificantRows(rows[1..], mean, variance)|;
      assert c == c' + (if IsSignificant(rows[0], mean, variance) then 1 else 0);
      MassStep(c, c', 4.0 * variance, SqDev(rows[0], mean), SumSqDev(rows[1..], mean));
    }
  }

  /** One more row adds its square `sq` to the mass, and one more flag when `sq`
      exceeds the threshold `t`. */
  lemma MassStep(c: nat, c': nat, t: real, sq: real, rest: real)
    requires sq >= 0.0
    requires c == c' + (if sq > t then 1 else 0)
    requires Times(c', t) <= rest && (c' > 0 ==> Times(c', t) < rest)
    ensures Times(c, t) <= sq + rest && (c > 0 ==> Times(c, t) < sq + rest)
  {
    if sq > t {
      assert Times(c, t) == t + Times(c', t);
    }
  }

  /** A positive-variance step: `c` flags worth `4 * v` each fit in `n * v` only
      when `v > 0` and `4 * c < n`. */
  lemma ScaleDown(v: real, c: real, n: real)
    requires v >= 0.0 && c * (4.0 * v) < v * n
    ensures v > 0.0 && 4.0 * c < n
  {
  }

  /** With `variance` the mean squared deviation of `rows`, fewer than a quarter
      of the rows pass the test, and a pass needs a positive variance. */
  lemma SparseFor(rows: seq<FrameRow>, mean: real, variance: real)
    requires variance >= 0.0
    requires variance * (|rows| as real) == SumSqDev(rows, mean)
    ensures |SignificantRows(rows, mean, variance)| > 0 ==>
      variance > 0.0 && 4 * |SignificantRows(rows, mean, variance)| < |rows|
  {
    var c := |SignificantRows(rows, mean, variance)|;
    SignificantMass(rows, mean, variance);
    TimesIsProduct(c, 4.0 * variance);
    if c > 0 {
      calc {
        (c as real) * (4.0 * variance);
        Times(c, 4.0 * variance);
      <
        SumSqDev(rows, mean);
        variance * (|rows| as real);
      }
      ScaleDown(variance, c as real, |rows| as real);
    }
  }

  /** Fewer than a quarter of the groups can ever be flagged, and a flag needs
      a positive variance. */
  lemma SelectionIsSparse(frame: seq<FrameRow>)
    ensures |Select(frame)| > 0 ==> PopVar(frame) > 0.0 && 4 * |Select(frame)| < |frame|
  {
    SparseFor(frame, MeanDiff(frame), PopVar(frame));
  }

  /** When the variance is zero (scipy's NaN case) nothing is flagged. */
  lemma ZeroVarianceSelectsNothing(frame: seq<FrameRow>)
    ensures PopVar(frame) == 0.0 ==> Select(frame) == []
  {
    SelectionIsSparse(frame);
  }

  /** The squared deviations from their own common value vanish. */
  lemma {:induction false} ConstantRows(rows: seq<FrameRow>, d: int)
    requires forall r :: r in rows ==> Diff(r) == d
    ensures SumDiff(rows) == (|rows| as real) * (d as real)
    ensures SumSqDev(rows, d as real) == 0.0
  {
    if |rows| > 0 {
      assert rows[0] in rows;
      ConstantRows(rows[1..], d);
    }
  }

  /** If every group has the same difference, the variance is zero and no
      group is flagged. */
  lemma ConstantDifferencesSelectNothing(frame: seq<FrameRow>)
    requires forall i, j :: 0 <= i < |frame| && 0 <= j < |frame| ==> Diff(frame[i]) == Diff(frame[j])
    ensures PopVar(frame) == 0.0
    ensures Select(frame) == []
  {
    if |frame| > 0 {
      var d := Diff(frame[0]);
      ConstantRows(frame, d);
      assert MeanDiff(frame) == d as real;
    }
    ZeroVarianceSelectsNothing(frame);
  }

  /** Seen from the other region every difference changes sign, so the sum does. */
  lemma {:induction false} SwapNegatesSum(rows: seq<FrameRow>)
    ensures SumDiff(SwapRows(rows)) == -SumDiff(rows)
  {
    if |rows| > 0 {
      SwapNegatesSum(rows[1..]);
      assert SwapRows(rows)[1..] == SwapRows(rows[1..]);
    }
  }

  /** Squared deviations do not see the sign change. */
  lemma {:induction false} SwapKeepsSquares(rows: seq<FrameRow>, mean: real)
    ensures SumSqDev(SwapRows(rows), -mean) == SumSqDev(rows, mean)
  {
    if |rows| > 0 {
      SwapKeepsSquares(rows[1..], mean);
      assert SwapRows(rows)[1..] == SwapRows(rows[1..]);
      assert Dev(SwapRows(rows)[0], -mean) == -Dev(rows[0], mean);
    }
  }

  /** The same rows pass the test from either side. */
  lemma SwapRowSignificance(r: FrameRow, mean: real, variance: real)
    ensures IsSignificant(SwapRow(r), -mean, variance) == IsSignificant(r, mean, variance)
  {
    assert Dev(SwapRow(r), -mean) == -Dev(r, mean);
  }

  /** Testing a row in front of others keeps it exactly when it passes. */
  lemma SignificantRowsCons(head: FrameRow, tail: seq<FrameRow>, mean: real, variance: real)
    ensures SignificantRows([head] + tail, mean, variance) ==
      (if IsSignificant(head, mean, variance) then [head] else []) + SignificantRows(tail, mean, variance)
  {
    assert ([head] + tail)[0] == head && ([head] + tail)[1..] == tail;
  }

  lemma {:induction false} SwapKeepsFlags(rows: seq<FrameRow>, mean: real, variance: real)
    ensures SignificantRows(SwapRows(rows), -mean, variance) == SwapRows(SignificantRows(rows, mean, variance))
  {
    if |rows| > 0 {
      var head, tail := rows[0], rows[1..];
      assert rows == [head] + tail;
      SwapKeepsFlags(tail, mean, variance);
      var sr := SignificantRows(tail, mean, variance);
      SwapRowsCons(head, tail);
      assert SwapRows(rows) == [SwapRow(head)] + SwapRows(tail);
      SwapRowSignificance(head, mean, variance);
      SignificantRowsCons(head, tail, mean, variance);
      SignificantRowsCons(SwapRow(head), SwapRows(tail), -mean, variance);
      if IsSignificant(head, mean, variance) {
        SwapRowsCons(head, sr);
        calc {
          SignificantRows(SwapRows(rows), -mean, variance);
          [SwapRow(head)] + SignificantRows(SwapRows(tail), -mean, variance);
          [SwapRow(head)] + SwapRows(sr);
          SwapRows([head] + sr);
          SwapRows(SignificantRows(rows, mean, variance));
        }
      } else {
        calc {
          SignificantRows(SwapRows(rows), -mean, variance);
          [] + SignificantRows(SwapRows(tail), -mean, variance);
          { assert [] + SignificantRows(SwapRows(tail), -mean, variance) == SignificantRows(SwapRows(tail), -mean, variance); }
          SwapRows(sr);
          { assert [] + sr == sr;
            assert SignificantRows(rows, mean, variance) == SignificantRows([head] + tail, mean, variance) == [] + sr; }
          SwapRows(SignificantRows(rows, mean, variance));
        }
      }
    }
  }

  /** Comparing the regions the other way round flags the same groups, in the
      same order: the z column only changes sign. */
  lemma SelectionSymmetric(frame: seq<FrameRow>)
    ensures Select(SwapRows(frame)) == SwapRows(Select(frame))
  {
    var sw := SwapRows(frame);
    var mean := MeanDiff(frame);
    SwapNegatesSum(frame);
    SwapKeepsSquares(frame, mean);
    if |frame| > 0 {
      var n := |frame| as real;
      assert |sw| == |frame|;
      calc {
        MeanDiff(sw);
        SumDiff(sw) / n;
        (-SumDiff(frame)) / n;
        { NegateQuotient(SumDiff(frame), n); }
        -(SumDiff(frame) / n);
        -mean;
      }
      calc {
        PopVar(sw);
        SumSqDev(sw, MeanDiff(sw)) / n;
        SumSqDev(sw, -mean) / n;
        SumSqDev(frame, mean) / n;
        PopVar(frame);
      }
    }
    SwapKeepsFlags(frame, mean, PopVar(frame));
  }

  lemma NegateQuotient(x: real, n: real)
    requires n != 0.0
    ensures (-x) / n == -(x / n)
  {
  }

  /** The sum of `f` over the rows, front to back. */
  function Sum(rows: seq<FrameRow>, f: FrameRow -> real): real
  {
    if |rows| == 0 then 0.0 else f(rows[0]) + Sum(rows[1..], f)
  }

  /** Taking one row out of a sum leaves the sum of the others. */
  lemma {:induction false} SumRemove(rows: seq<FrameRow>, j: nat, f: FrameRow -> real)
    requires j < |rows|
    ensures Sum(rows, f) == f(rows[j]) + Sum(rows[..j] + rows[j + 1..], f)
  {
    if j == 0 {
      assert rows[..0] + rows[1..] == rows[1..];
    } else {
      var rest := rows[..j] + rows[j + 1..];
      SumRemove(rows[1..], j - 1, f);
      assert rows[1..][..j - 1] + rows[1..][j..] == rest[1..];
      assert rest[0] == rows[0];
    }
  }

  /** Without row `j`, a row list still holds no row twice, and holds every
      row but that one. */
  lemma RemoveAt(rows: seq<FrameRow>, j: nat)
    requires Distinct(rows) && j < |rows|
    ensures Distinct(rows[..j] + rows[j + 1..])
    ensures forall r :: r in rows[..j] + rows[j + 1..] <==> r in rows && r != rows[j]
  {
    var rest := rows[..j] + rows[j + 1..];
    assert |rest| == |rows| - 1;
    assert forall i :: 0 <= i < |rest| ==> rest[i] == rows[if i < j then i else i + 1];
    forall r: FrameRow | r in rows && r != rows[j] ensures r in rest {
      var i :| 0 <= i < |rows| && rows[i] == r;
      assert rest[if i < j then i else i - 1] == r;
    }
  }

  /** Two row lists without repeats and with the same rows have the same sum,
      whatever their order. */
  lemma {:induction false} SumRearranged(s: seq<FrameRow>, t: seq<FrameRow>, f: FrameRow -> real)
    requires Distinct(s) && Distinct(t)
    requires forall r :: r in s <==> r in t
    ensures Sum(s, f) == Sum(t, f)
    decreases |s|
  {
    if |s| == 0 {
      assert forall i :: 0 <= i < |t| ==> t[i] in s;
    } else {
      var x := s[0];
      assert x in t;
      var j :| 0 <= j < |t| && t[j] == x;
      SumRemove(t, j, f);
      RemoveAt(t, j);
      RemoveAt(s, 0);
      assert s[..0] + s[1..] == s[1..];
      var t' := t[..j] + t[j + 1..];
      forall r ensures r in s[1..] <==> r in t' {
        assert r in s[1..] <==> r in s && r != x;
        assert r in t' <==> r in t && r != x;
      }
      SumRearranged(s[1..], t', f);
    }
  }

  lemma {:induction false} SumOfOnes(rows: seq<FrameRow>, f: FrameRow -> real)
    requires forall r :: f(r) == 1.0
    ensures Sum(rows, f) == |rows| as real
  {
    if |rows| > 0 {
      SumOfOnes(rows[1..], f);
    }
  }

  lemma {:induction false} SumDiffAsSum(rows: seq<FrameRow>, f: FrameRow -> real)
    requires forall r :: f(r) == Diff(r) as real
    ensures SumDiff(rows) == Sum(rows, f)
  {
    if |rows| > 0 {
      SumDiffAsSum(rows[1..], f);
    }
  }

  lemma {:induction false} SumSqDevAsSum(rows: seq<FrameRow>, mean: real, f: FrameRow -> real)
    requires forall r :: f(r) == SqDev(r, mean)
    ensures SumSqDev(rows, mean) == Sum(rows, f)
  {
    if |rows| > 0 {
      SumSqDevAsSum(rows[1..], mean, f);
    }
  }

  /** The row order of the combined frame does not matter: any two
      enumerations of its groups give the same mean and variance, and flag
      the same rows. */
  lemma FrameOrderIrrelevant(c: map<GroupKey, Counts>, o1: seq<GroupKey>, o2: seq<GroupKey>)
    requires IsEnumeration(o1, c.Keys) && IsEnumeration(o2, c.Keys)
    ensures SumDiff(Frame(c, o1)) == SumDiff(Frame(c, o2))
    ensures MeanDiff(Frame(c, o1)) == MeanDiff(Frame(c, o2))
    ensures PopVar(Frame(c, o1)) == PopVar(Frame(c, o2))
    ensures forall r :: r in Select(Frame(c, o1)) <==> r in Select(Frame(c, o2))
  {
    var f1, f2 := Frame(c, o1), Frame(c, o2);
    FrameRowsOfEnumeration(c, o1);
    FrameRowsOfEnumeration(c, o2);
    assert forall r :: r in f1 <==> r in f2;
    var one := (r: FrameRow) => 1.0;
    SumOfOnes(f1, one);
    SumOfOnes(f2, one);
    SumRearranged(f1, f2, one);
    assert |f1| == |f2|;
    var diff := (r: FrameRow) => Diff(r) as real;
    SumDiffAsSum(f1, diff);
    SumDiffAsSum(f2, diff);
    SumRearranged(f1, f2, diff);
    var mean := MeanDiff(f1);
    assert MeanDiff(f2) == mean;
    var sq := (r: FrameRow) => SqDev(r, mean);
    SumSqDevAsSum(f1, mean, sq);
    SumSqDevAsSum(f2, mean, sq);
    SumRearranged(f1, f2, sq);
    assert PopVar(f1) == PopVar(f2);
  }
}
