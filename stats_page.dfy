/** The helpers of the statistics page: the chart's "MM/DD" axis labels and
    the total and average calories shown on the summary cards. The page's
    state, the fetch and the chart rendering are not modelled. */
module StatsPage {
  import opened JsRuntime

  /** The page's own view of one bucket of the stats response: the date is
      the ISO day string `YYYY-MM-DD`, quantities are in hundredths. */
  datatype DailyStat = DailyStat(date: string, calories: int, carbs: int, protein: int, fat: int)

  /** `{ ...d, label }`: a bucket with its axis label (`label` is a reserved word here). */
  datatype ChartPoint = ChartPoint(stat: DailyStat, dateLabel: string)

  // ---------------------------------------------------------------------
  // Date labels
  // ---------------------------------------------------------------------

  /** `formatDateLabel`: the second and third `-`-separated pieces joined
      by `/`; a missing piece prints as `undefined`, as a template literal
      prints an undefined value. An ISO day `YYYY-MM-DD` gets the
      five-character "MM/DD", the year dropped; a date without a `-` gets
      "undefined/undefined". */
  function FormatDateLabel(dateStr: string): (l: string)
    ensures IsIsoDay(dateStr) ==> l == dateStr[5..7] + "/" + dateStr[8..10] && |l| == 5
    ensures '-' !in dateStr ==> l == "undefined/undefined"
  {
    var parts := Split(dateStr, '-');
    assert IsIsoDay(dateStr) ==> parts == [dateStr[..4], dateStr[5..7], dateStr[8..10]] by {
      if IsIsoDay(dateStr) {
        SplitIsoDay(dateStr);
        assert dateStr[8..] == dateStr[8..10];
      }
    }
    assert '-' !in dateStr ==> parts == [dateStr] by {
      if '-' !in dateStr {
        SplitNoSeparator(dateStr, '-');
      }
    }
    var month := if |parts| > 1 then parts[1] else "undefined";
    var day := if |parts| > 2 then parts[2] else "undefined";
    month + "/" + day
  }

  /** The shape `YYYY-MM-DD`. */
  predicate IsIsoDay(s: string) {
    && |s| == 10 && s[4] == '-' && s[7] == '-'
    && (forall k :: 0 <= k < 4 ==> IsDigit(s[k]))
    && IsDigit(s[5]) && IsDigit(s[6]) && IsDigit(s[8]) && IsDigit(s[9])
  }

  /** An ISO day splits into its year, month and day. */
  lemma SplitIsoDay(s: string)
    requires IsIsoDay(s)
    ensures Split(s, '-') == [s[..4], s[5..7], s[8..]]
  {
    assert s == s[..4] + ['-'] + (s[5..7] + ['-'] + s[8..]);
    assert '-' !in s[..4] by {
      forall k | 0 <= k < 4 ensures s[..4][k] != '-' { assert IsDigit(s[k]); }
    }
    SplitPiece(s[..4], '-', s[5..7] + ['-'] + s[8..]);
    SplitPiece(s[5..7], '-', s[8..]);
    SplitNoSeparator(s[8..], '-');
  }

  /** Two ISO days get the same label exactly when they agree on month and
      day, whatever their years. */
  lemma SameLabelIffSameMonthDay(s: string, t: string)
    requires IsIsoDay(s) && IsIsoDay(t)
    ensures FormatDateLabel(s) == FormatDateLabel(t) <==> s[5..] == t[5..]
  {
    var ls, lt := FormatDateLabel(s), FormatDateLabel(t);
    if ls == lt {
      assert s[5..] == [ls[0], ls[1], '-', ls[3], ls[4]];
      assert t[5..] == [lt[0], lt[1], '-', lt[3], lt[4]];
    }
    if s[5..] == t[5..] {
      assert s[5..7] == s[5..][..2] == t[5..][..2] == t[5..7];
      assert s[8..10] == s[5..][3..] == t[5..][3..] == t[8..10];
    }
  }

  /** `chartData`: one point per bucket, in the same order, each bucket
      kept and labelled with its formatted date. */
  function ChartData(data: seq<DailyStat>): (points: seq<ChartPoint>)
    ensures |points| == |data|
    ensures forall i :: 0 <= i < |data| ==>
      points[i].stat == data[i] && points[i].dateLabel == FormatDateLabel(data[i].date)
    ensures forall i :: 0 <= i < |data| && IsIsoDay(data[i].date) ==>
      points[i].dateLabel == data[i].date[5..7] + "/" + data[i].date[8..10]
  {
    seq(|data|, i requires 0 <= i < |data| => ChartPoint(data[i], FormatDateLabel(data[i].date)))
  }

  // ---------------------------------------------------------------------
  // Total and average calories
  // ---------------------------------------------------------------------

  predicate NoNegativeDay(data: seq<DailyStat>) {
    forall i :: 0 <= i < |data| ==> data[i].calories >= 0
  }

  /** `data.reduce((sum, d) => sum + d.calories, 0)`, folded left to right.
      With no negative day, no day's calories exceed the total, which is then
      itself non-negative. */
  function TotalCalories(data: seq<DailyStat>): (total: int)
    ensures NoNegativeDay(data) ==> total >= 0
    ensures NoNegativeDay(data) ==> forall i :: 0 <= i < |data| ==> data[i].calories <= total
  {
    if data == [] then 0 else TotalCalories(data[..|data| - 1]) + data[|data| - 1].calories
  }

  /** The total of a concatenation is the sum of the totals. */
  lemma {:induction false} TotalCaloriesAppend(a: seq<DailyStat>, b: seq<DailyStat>)
    ensures TotalCalories(a + b) == TotalCalories(a) + TotalCalories(b)
  {
    if b == [] {
      assert a + b == a;
    } else {
      var b' := b[..|b| - 1];
      assert (a + b)[..|a + b| - 1] == a + b';
      TotalCaloriesAppend(a, b');
    }
  }

  /** When every bucket's calories lie in `[lo, hi]`, the total lies between
      `n * lo` and `n * hi`. */
  lemma {:induction false} TotalCaloriesBounds(data: seq<DailyStat>, lo: int, hi: int)
    requires forall i :: 0 <= i < |data| ==> lo <= data[i].calories <= hi
    ensures |data| * lo <= TotalCalories(data) <= |data| * hi
  {
    if data != [] {
      var n := |data| - 1;
      var init := data[..n];
      assert forall i :: 0 <= i < n ==> init[i] == data[i];
      TotalCaloriesBounds(init, lo, hi);
      assert TotalCalories(data) == TotalCalories(init) + data[n].calories;
      BoundsStep(n, lo, hi, TotalCalories(init), data[n].calories);
    }
  }

  /** One more day within `[lo, hi]` keeps the total within the bounds. */
  lemma BoundsStep(n: nat, lo: int, hi: int, total: int, c: int)
    requires n * lo <= total <= n * hi && lo <= c <= hi
    ensures (n + 1) * lo <= total + c <= (n + 1) * hi
  {
    assert (n + 1) * lo == n * lo + lo;
    assert (n + 1) * hi == n * hi + hi;
  }

  /** `avgCalories`: 0 for no buckets; otherwise the mean calories per
      bucket rounded to a whole kcal with halves rounded up (in hundredths, a
      multiple of 100 within half a kcal of the mean). */
  function AvgCalories(data: seq<DailyStat>): (avg: int)
    ensures |data| == 0 ==> avg == 0
    ensures |data| > 0 ==> avg % 100 == 0
    ensures |data| > 0 ==> |data| * (avg - 50) <= TotalCalories(data) < |data| * (avg + 50)
  {
    if |data| > 0 then
      var n := |data|;
      var total := TotalCalories(data);
      var a := MathRound(total, 100 * n);
      assert 100 * n * (2 * a - 1) == 2 * (n * (100 * a - 50));
      assert 100 * n * (2 * a + 1) == 2 * (n * (100 * a + 50));
      a * 100
    else 0
  }

  /** The average lies within half a kcal of the range of the daily
      calories. */
  lemma AvgWithinRange(data: seq<DailyStat>, lo: int, hi: int)
    requires |data| > 0
    requires forall i :: 0 <= i < |data| ==> lo <= data[i].calories <= hi
    ensures lo - 50 < AvgCalories(data) <= hi + 50
  {
    var n, avg, total := |data|, AvgCalories(data), TotalCalories(data);
    TotalCaloriesBounds(data, lo, hi);
    assert n * lo <= total <= n * hi;
    assert n * (avg - 50) <= total < n * (avg + 50);
    assert n * (hi + 1) == n * hi + n;
    CancelFactor(n, avg - 50, hi + 1);
    CancelFactor(n, lo, avg + 50);
  }
}
