/** `GET /api/stats?period=week|month`: one bucket per calendar day of the
    last 7 or 30 days ending today, each holding the summed calories, carbs,
    protein and fat of that day's meals, oldest first, with carbs, protein and
    fat rounded to tenths.

    The clock is a parameter (`today`), and the store query is replaced by
    the sequence `meals` of records it returned. */
module StatsRoute {
  import opened Options
  import opened JsRuntime
  import JsMap
  import opened MealStore

  /** One day of the result; quantities in hundredths. */
  datatype DailyStat = DailyStat(date: Day, calories: int, carbs: int, protein: int, fat: int)

  /** The response: status 400 with an error message, or status 200 with the
      ordered buckets. */
  datatype StatsResponse = BadPeriod(error: string) | Ok(stats: seq<DailyStat>)

  const PeriodError := "period must be 'week' or 'month'"

  /** The HTTP status: a client error (4xx) exactly for a rejected period, a
      success (2xx) exactly for the buckets. */
  function Status(r: StatsResponse): (code: int)
    ensures 400 <= code < 500 <==> r.BadPeriod?
    ensures 200 <= code < 300 <==> r.Ok?
  {
    if r.BadPeriod? then 400 else 200
  }

  // ---------------------------------------------------------------------
  // Period and window
  // ---------------------------------------------------------------------

  /** `searchParams.get("period") ?? "week"`. */
  function EffectivePeriod(param: Option<string>): (p: string)
    ensures param.None? ==> p == "week"
    ensures param.Some? ==> p == param.value
  {
    match param
    case None => "week"
    case Some(s) => s
  }

  /** The window length for an accepted period; `None` for every other
      period, which the endpoint answers with 400. */
  function WindowDays(period: string): (r: Option<nat>)
    ensures r == Some(7) <==> period == "week"
    ensures r == Some(30) <==> period == "month"
    ensures r.None? <==> period != "week" && period != "month"
  {
    if period != "week" && period != "month" then None
    else Some(if period == "week" then 7 else 30)
  }

  // ---------------------------------------------------------------------
  // The specification of a bucket
  // ---------------------------------------------------------------------

  function ZeroStat(d: Day): DailyStat {
    DailyStat(d, 0, 0, 0, 0)
  }

  /** The quantities of one meal as a bucket of its day. */
  function MealStat(meal: Meal): DailyStat {
    DailyStat(meal.day, meal.calories, meal.carbs, meal.protein, meal.fat)
  }

  /** The four `existing.x += meal.x` updates, for `t == MealStat(meal)`:
      adds the quantities of `t` to those of `s`, keeping `s`'s date. A zero
      bucket adds nothing. */
  function Plus(s: DailyStat, t: DailyStat): (r: DailyStat)
    ensures r.date == s.date
    ensures t == ZeroStat(t.date) ==> r == s
  {
    s.(calories := s.calories + t.calories,
       carbs := s.carbs + t.carbs,
       protein := s.protein + t.protein,
       fat := s.fat + t.fat)
  }

  /** The totals of day `d`: the sums of each quantity over the meals whose
      day key is `d`, taken in input order. */
  function DayTotals(meals: seq<Meal>, d: Day): (t: DailyStat)
    ensures t.date == d
  {
    if meals == [] then ZeroStat(d)
    else
      var prev := DayTotals(meals[..|meals| - 1], d);
      var last := meals[|meals| - 1];
      if last.day == d then Plus(prev, MealStat(last)) else prev
  }

  /** The totals of a concatenation are the sums of the totals of its parts. */
  lemma {:induction false} DayTotalsAppend(a: seq<Meal>, b: seq<Meal>, d: Day)
    ensures DayTotals(a + b, d) == Plus(DayTotals(a, d), DayTotals(b, d))
  {
    if b == [] {
      assert a + b == a;
    } else {
      var b' := b[..|b| - 1];
      assert (a + b)[..|a + b| - 1] == a + b';
      DayTotalsAppend(a, b', d);
    }
  }

  /** The order in which two meals are added does not matter: swapping two
      neighbouring meals leaves every day's totals unchanged. */
  lemma MealOrderIrrelevant(a: seq<Meal>, x: Meal, y: Meal, b: seq<Meal>, d: Day)
    ensures DayTotals(a + [x, y] + b, d) == DayTotals(a + [y, x] + b, d)
  {
    DayTotalsAppend(a + [x, y], b, d);
    DayTotalsAppend(a + [y, x], b, d);
    DayTotalsAppend(a, [x, y], d);
    DayTotalsAppend(a, [y, x], d);
    assert DayTotals([x, y], d) == DayTotals([y, x], d) by {
      assert [x, y][..1] == [x] && [y, x][..1] == [y];
      assert [x][..0] == [] && [y][..0] == [];
    }
  }

  /** Meals on other days contribute nothing to day `d`. */
  lemma {:induction false} DayTotalsOtherDays(meals: seq<Meal>, d: Day)
    requires forall i :: 0 <= i < |meals| ==> meals[i].day != d
    ensures DayTotals(meals, d) == ZeroStat(d)
  {
    if meals != [] {
      DayTotalsOtherDays(meals[..|meals| - 1], d);
    }
  }

  /** Meals whose day key falls outside the window `[start, start + days)`
      change no bucket of the window: every bucket reads as if they were
      absent. */
  lemma OutsideWindowIgnored(meals: seq<Meal>, outside: seq<Meal>, start: Day, days: nat, j: nat)
    requires forall i :: 0 <= i < |outside| ==> !(start <= outside[i].day < start + days)
    requires j < days
    ensures DayTotals(meals + outside, start + j) == DayTotals(meals, start + j)
    ensures DayTotals(outside, start + j) == ZeroStat(start + j)
  {
    DayTotalsAppend(meals, outside, start + j);
    DayTotalsOtherDays(outside, start + j);
  }

  // ---------------------------------------------------------------------
  // The two loops over the local `statsMap`
  // ---------------------------------------------------------------------

  /** The pre-fill loop: one zero bucket per day, keyed by its day, for the
      `days` consecutive days from `startDay`, in ascending order. */
  method PrefillBuckets(startDay: Day, days: nat) returns (statsMap: JsMap.Map<Day, DailyStat>)
    ensures |statsMap| == days
    ensures forall j :: 0 <= j < days ==> statsMap[j] == (startDay + j, ZeroStat(startDay + j))
    ensures JsMap.Valid(statsMap)
  {
    statsMap := [];
    var i := 0;
    while i < days
      invariant 0 <= i <= days
      invariant |statsMap| == i
      invariant forall j :: 0 <= j < i ==> statsMap[j] == (startDay + j, ZeroStat(startDay + j))
    {
      var key := startDay + i;
      statsMap := JsMap.Set(statsMap, key, ZeroStat(key));
      i := i + 1;
    }
  }

  /** The aggregation loop: each meal is added into the existing bucket of
      its day key, in place; a meal whose key has no bucket is dropped and no
      bucket is created. Every bucket ends up increased by its day's totals. */
  method AggregateMeals(statsMap0: JsMap.Map<Day, DailyStat>, meals: seq<Meal>)
    returns (statsMap: JsMap.Map<Day, DailyStat>)
    requires JsMap.Valid(statsMap0)
    ensures |statsMap| == |statsMap0|
    ensures forall j :: 0 <= j < |statsMap| ==>
      statsMap[j].0 == statsMap0[j].0 &&
      statsMap[j].1 == Plus(statsMap0[j].1, DayTotals(meals, statsMap0[j].0))
  {
    statsMap := statsMap0;
    for i := 0 to |meals|
      invariant |statsMap| == |statsMap0|
      invariant forall j :: 0 <= j < |statsMap| ==>
        statsMap[j].0 == statsMap0[j].0 &&
        statsMap[j].1 == Plus(statsMap0[j].1, DayTotals(meals[..i], statsMap0[j].0))
    {
      var meal := meals[i];
      assert meals[..i + 1][..i] == meals[..i];
      var key := meal.day;
      var existing := JsMap.Get(statsMap, key);
      if existing.Some? {
        // `existing` is the bucket object held by the map: adding into it
        // updates the map's entry in place.
        ghost var k := JsMap.IndexOf(statsMap, key).value;
        assert existing.value == statsMap[k].1;
        statsMap := JsMap.Set(statsMap, key, Plus(existing.value, MealStat(meal)));
        assert statsMap[k] == (key, Plus(existing.value, MealStat(meal)));
        forall j | 0 <= j < |statsMap| && j != k
          ensures statsMap0[j].0 != key
        {
          assert statsMap0[k].0 == key;
          assert JsMap.Keys(statsMap0)[j] == statsMap0[j].0;
          assert JsMap.Keys(statsMap0)[k] == statsMap0[k].0;
        }
      }
    }
    assert meals[..|meals|] == meals;
  }

  // ---------------------------------------------------------------------
  // Sort and rounding
  // ---------------------------------------------------------------------

  predicate SortedByDate(s: seq<DailyStat>) {
    forall i, j :: 0 <= i < j < |s| ==> s[i].date <= s[j].date
  }

  predicate StrictlyAscending(s: seq<DailyStat>) {
    forall i, j :: 0 <= i < j < |s| ==> s[i].date < s[j].date
  }

  /** Inserts `x` before the first element of the sorted `s` whose date is
      not earlier than its own. */
  function InsertByDate(x: DailyStat, s: seq<DailyStat>): (r: seq<DailyStat>)
    requires SortedByDate(s)
    ensures SortedByDate(r)
    ensures multiset(r) == multiset(s) + multiset{x}
  {
    if s == [] || x.date <= s[0].date then [x] + s
    else
      var rest := InsertByDate(x, s[1..]);
      InsertAfterHead(x, s, rest);
      [s[0]] + rest
  }

  /** The step of `InsertByDate` that keeps the head in front. */
  lemma InsertAfterHead(x: DailyStat, s: seq<DailyStat>, rest: seq<DailyStat>)
    requires s != [] && SortedByDate(s) && s[0].date < x.date
    requires SortedByDate(rest) && multiset(rest) == multiset(s[1..]) + multiset{x}
    ensures SortedByDate([s[0]] + rest)
    ensures multiset([s[0]] + rest) == multiset(s) + multiset{x}
  {
    assert s == [s[0]] + s[1..];
    forall k | 0 <= k < |rest| ensures s[0].date <= rest[k].date {
      assert rest[k] in multiset(rest);
      assert rest[k] == x || rest[k] in multiset(s[1..]);
    }
  }

  /** `.sort((a, b) => a.date.localeCompare(b.date))` with day numbers for
      ISO day keys: a sorted permutation of the input. */
  function SortByDate(s: seq<DailyStat>): (r: seq<DailyStat>)
    ensures SortedByDate(r)
    ensures multiset(r) == multiset(s)
  {
    if s == [] then []
    else
      assert s == [s[0]] + s[1..];
      InsertByDate(s[0], SortByDate(s[1..]))
  }

  /** Sorting input that is already in date order leaves it unchanged. */
  lemma {:induction false} SortKeepsSorted(s: seq<DailyStat>)
    requires SortedByDate(s)
    ensures SortByDate(s) == s
  {
    if s != [] {
      SortKeepsSorted(s[1..]);
      assert [s[0]] + s[1..] == s;
    }
  }

  /** `Math.round(x * 10) / 10` for a quantity `x` held as `h` hundredths: the
      nearest multiple of ten hundredths (one tenth), halves rounded up. */
  function RoundTenths(h: int): (r: int)
    ensures r % 10 == 0
    ensures h - 5 < r <= h + 5
  {
    MathRound(h, 10) * 10
  }

  /** The `.map` step: carbs, protein and fat rounded, calories kept. */
  function RoundStat(s: DailyStat): (r: DailyStat)
    ensures r.date == s.date && r.calories == s.calories
  {
    s.(carbs := RoundTenths(s.carbs), protein := RoundTenths(s.protein), fat := RoundTenths(s.fat))
  }

  /** `.map(RoundStat)`: each bucket rounded, in place. */
  function RoundAll(s: seq<DailyStat>): (r: seq<DailyStat>)
    ensures |r| == |s|
    ensures forall i :: 0 <= i < |s| ==> r[i] == RoundStat(s[i])
  {
    if s == [] then [] else [RoundStat(s[0])] + RoundAll(s[1..])
  }

  /** Rounding keeps the dates, so it keeps date order. */
  lemma RoundAllSorted(s: seq<DailyStat>)
    requires SortedByDate(s)
    ensures SortedByDate(RoundAll(s))
  {
    var r := RoundAll(s);
    forall i, j | 0 <= i < j < |r| ensures r[i].date <= r[j].date {
      assert r[i].date == s[i].date && r[j].date == s[j].date;
    }
  }

  /** Rounding commutes with inserting by date. */
  lemma {:induction false} RoundInsert(x: DailyStat, s: seq<DailyStat>)
    requires SortedByDate(s)
    ensures SortedByDate(RoundAll(s))
    ensures RoundAll(InsertByDate(x, s)) == InsertByDate(RoundStat(x), RoundAll(s))
  {
    RoundAllSorted(s);
    if s != [] && s[0].date < x.date {
      RoundInsert(x, s[1..]);
      RoundInsertBehind(x, s);
    } else {
      RoundInsertInFront(x, s);
    }
  }

  /** The case of `RoundInsert` where `x` goes in front. */
  lemma RoundInsertInFront(x: DailyStat, s: seq<DailyStat>)
    requires SortedByDate(s) && SortedByDate(RoundAll(s))
    requires s == [] || x.date <= s[0].date
    ensures RoundAll(InsertByDate(x, s)) == InsertByDate(RoundStat(x), RoundAll(s))
  {
    var rx, rs := RoundStat(x), RoundAll(s);
    assert InsertByDate(x, s) == [x] + s;
    assert RoundAll([x] + s) == [rx] + rs by {
      assert ([x] + s)[1..] == s;
    }
    assert rs == [] || rx.date <= rs[0].date;
    assert InsertByDate(rx, rs) == [rx] + rs;
  }

  /** The case of `RoundInsert` where `x` goes behind the head, given the
      commutation for the tail. */
  lemma RoundInsertBehind(x: DailyStat, s: seq<DailyStat>)
    requires SortedByDate(s) && SortedByDate(RoundAll(s))
    requires s != [] && s[0].date < x.date
    requires SortedByDate(RoundAll(s[1..]))
    requires RoundAll(InsertByDate(x, s[1..])) == InsertByDate(RoundStat(x), RoundAll(s[1..]))
    ensures RoundAll(InsertByDate(x, s)) == InsertByDate(RoundStat(x), RoundAll(s))
  {
    var rx, rs, tail := RoundStat(x), RoundAll(s), s[1..];
    var rest := InsertByDate(x, tail);
    assert InsertByDate(x, s) == [s[0]] + rest;
    assert RoundAll([s[0]] + rest) == [RoundStat(s[0])] + RoundAll(rest) by {
      assert ([s[0]] + rest)[1..] == rest;
    }
    assert rs[0].date < rx.date && rs[1..] == RoundAll(tail);
    assert InsertByDate(rx, rs) == [rs[0]] + InsertByDate(rx, RoundAll(tail));
  }

  /** Rounding commutes with sorting by date. */
  lemma {:induction false} RoundSort(s: seq<DailyStat>)
    ensures RoundAll(SortByDate(s)) == SortByDate(RoundAll(s))
  {
    if s != [] {
      RoundSort(s[1..]);
      RoundInsert(s[0], SortByDate(s[1..]));
      assert RoundAll(s)[1..] == RoundAll(s[1..]);
    }
  }

  /** `Array.from(statsMap.values()).sort(...).map(...)`: the rounded buckets
      in date order, a permutation of the rounded input; values already in
      date order come out in the same order. */
  function SortAndRound(values: seq<DailyStat>): (r: seq<DailyStat>)
    ensures SortedByDate(r)
    ensures multiset(r) == multiset(RoundAll(values))
    ensures |r| == |values|
    ensures SortedByDate(values) ==> r == RoundAll(values)
  {
    var sorted := SortByDate(values);
    assert SortedByDate(values) ==> sorted == values by {
      if SortedByDate(values) {
        SortKeepsSorted(values);
      }
    }
    RoundSort(values);
    assert |RoundAll(values)| == |multiset(RoundAll(values))| == |values|;
    RoundAll(sorted)
  }

  // ---------------------------------------------------------------------
  // The handler
  // ---------------------------------------------------------------------

  /** The buckets the two loops leave, once sorted and rounded, are the
      rounded day totals of the window in ascending day order. */
  lemma BucketsInWindow(values: seq<DailyStat>, meals: seq<Meal>, startDay: Day, days: nat)
    requires |values| == days
    requires forall j :: 0 <= j < days ==> values[j] == Plus(ZeroStat(startDay + j), DayTotals(meals, startDay + j))
    ensures |SortAndRound(values)| == days
    ensures StrictlyAscending(SortAndRound(values))
    ensures forall j :: 0 <= j < days ==> SortAndRound(values)[j] == RoundStat(DayTotals(meals, startDay + j))
    ensures meals == [] ==> forall j :: 0 <= j < days ==> SortAndRound(values)[j] == ZeroStat(SortAndRound(values)[j].date)
  {
    assert forall j :: 0 <= j < days ==> values[j] == DayTotals(meals, startDay + j);
    assert SortedByDate(values);
    if meals == [] {
      NoMealsZeroBuckets(SortAndRound(values), startDay, days);
    }
  }

  /** The bucket values after the two loops, in key order. */
  lemma AggregatedValues(prefilled: JsMap.Map<Day, DailyStat>, statsMap: JsMap.Map<Day, DailyStat>,
                         meals: seq<Meal>, startDay: Day, days: nat)
    requires |prefilled| == days
    requires forall j :: 0 <= j < days ==> prefilled[j] == (startDay + j, ZeroStat(startDay + j))
    requires |statsMap| == |prefilled|
    requires forall j :: 0 <= j < |statsMap| ==>
      statsMap[j].0 == prefilled[j].0 &&
      statsMap[j].1 == Plus(prefilled[j].1, DayTotals(meals, prefilled[j].0))
    ensures |JsMap.Values(statsMap)| == days
    ensures forall j :: 0 <= j < days ==>
      JsMap.Values(statsMap)[j] == Plus(ZeroStat(startDay + j), DayTotals(meals, startDay + j))
  {
  }

  /** The two loops, then `Array.from(statsMap.values())`: bucket `j` holds
      the totals of day `startDay + j`. */
  method FillBuckets(startDay: Day, days: nat, meals: seq<Meal>) returns (values: seq<DailyStat>)
    ensures |values| == days
    ensures forall j :: 0 <= j < days ==>
      values[j] == Plus(ZeroStat(startDay + j), DayTotals(meals, startDay + j))
  {
    var prefilled := PrefillBuckets(startDay, days);
    var statsMap := AggregateMeals(prefilled, meals);
    values := JsMap.Values(statsMap);
    AggregatedValues(prefilled, statsMap, meals, startDay, days);
  }

  /** `GET`: rejects a period other than "week" or "month" (absent means
      "week"); otherwise answers exactly `days` buckets for the consecutive
      days ending `today`, in strictly ascending date order, bucket `j` being
      the rounded totals of day `today - (days - 1) + j`. With no meals every
      bucket is zero; meals of other days are ignored. */
  method Get(periodParam: Option<string>, today: Day, meals: seq<Meal>) returns (r: StatsResponse)
    ensures r.BadPeriod? <==> WindowDays(EffectivePeriod(periodParam)).None?
    ensures r.BadPeriod? ==> r.error == PeriodError
    ensures Status(r) == 400 <==> WindowDays(EffectivePeriod(periodParam)).None?
    ensures Status(r) == 200 <==> WindowDays(EffectivePeriod(periodParam)).Some?
    ensures r.Ok? ==>
      var days := WindowDays(EffectivePeriod(periodParam)).value;
      && |r.stats| == days
      && StrictlyAscending(r.stats)
      && (forall j :: 0 <= j < days ==>
            r.stats[j] == RoundStat(DayTotals(meals, today - (days - 1) + j)))
    ensures r.Ok? && meals == [] ==> forall j :: 0 <= j < |r.stats| ==>
      r.stats[j] == ZeroStat(r.stats[j].date)
  {
    var period := EffectivePeriod(periodParam);
    var window := WindowDays(period);
    if window.None? {
      return BadPeriod(PeriodError);
    }
    var days := window.value;
    var startDay := today - (days - 1);
    var values := FillBuckets(startDay, days, meals);
    BucketsInWindow(values, meals, startDay, days);
    var stats := SortAndRound(values);
    assert StrictlyAscending(stats);
    r := Ok(stats);
  }

  /** With no meals, every bucket of the window reads zero. */
  lemma NoMealsZeroBuckets(stats: seq<DailyStat>, startDay: Day, days: nat)
    requires |stats| == days
    requires forall j :: 0 <= j < days ==> stats[j] == RoundStat(DayTotals([], startDay + j))
    ensures forall j :: 0 <= j < |stats| ==> stats[j] == ZeroStat(stats[j].date)
  {
    assert RoundTenths(0) == 0 by {
      MathRoundUnique(0, 10, 0);
    }
  }

  /** Two meals of the same day with 500 and 300 kcal and 50.25 g and
      10.05 g of carbs give a bucket of 800 kcal and 60.3 g of carbs. */
  lemma SameDaySums(first: Meal, second: Meal, d: Day)
    requires first.day == d && second.day == d
    requires first.calories == 50000 && second.calories == 30000
    requires first.carbs == 5025 && second.carbs == 1005
    requires first.protein == first.fat == second.protein == second.fat == 0
    ensures RoundStat(DayTotals([first, second], d)) == DailyStat(d, 80000, 6030, 0, 0)
  {
    var total := DayTotals([first, second], d);
    assert total == DailyStat(d, 80000, 6030, 0, 0) by {
      assert [first, second][..1] == [first];
      assert [first][..0] == [];
      assert DayTotals([], d) == ZeroStat(d);
      assert DayTotals([first], d) == Plus(ZeroStat(d), MealStat(first));
      assert DayTotals([first, second], d) == Plus(DayTotals([first], d), MealStat(second));
    }
    assert RoundTenths(6030) == 6030 by {
      MathRoundUnique(6030, 10, 603);
    }
    assert RoundTenths(0) == 0 by {
      MathRoundUnique(0, 10, 0);
    }
  }
}
