# Meal logger: a verified model of its logic

The meal logger records meals (date, meal type, food name, calories,
carbohydrates, protein, fat) and shows them as a list grouped by day and as
daily nutrition statistics over the last week or month. This project models,
in Dafny, the four pieces of that application that hold logic rather than
markup, and proves what they promise:

- **Statistics endpoint** (`GET /api/stats?period=week|month`,
  module `StatsRoute`): period defaulting and validation, the 7- or 30-day
  window, the zero-filled per-day buckets, the aggregation of meals into the
  bucket of their day, the sort by date and the rounding of carbs, protein and
  fat to tenths. The two loops over the local `statsMap` are methods with loop
  invariants; the final sort-and-round pipeline is a pure function.
- **Meal creation endpoint** (`POST /api/meals`, module `MealsRoute`): the
  three accumulated validation checks, the fixed set of four meal types, the
  trimming of the food name, the `Number(x) || 0` coercion of the quantities
  and the mapping of every outcome to 400, 201 or 500.
- **Meal list page** (module `MealsPage`): grouping the meals into one section
  per day in order of first occurrence, the empty state, and the meal-type
  badge lookup with its grey fallback.
- **Statistics page helpers** (module `StatsPage`): `formatDateLabel`
  ("YYYY-MM-DD" to "MM/DD"), the chart data, and the total and average
  calories.

Supporting modules: `JsRuntime` (the JavaScript built-ins the code relies on:
truthiness, `Number()`, `Math.round`, `trim`, `split`), `JsMap` (JavaScript's
insertion-ordered `Map`, as a sequence of key/value pairs), `MealStore` (the
stored meal record) and `Options`.

Modelling conventions:

- A calendar day is an integer day number; the ISO day key of a stored date is
  identified with that number, so ordering day keys as strings is ordering the
  numbers.
- Every quantity is an integer count of hundredths (`12.5` g is `1250`), so
  sums are exact. `Math.round(y)` is `floor(y + 1/2)` on exact rationals
  (`MathRound`).
- The clock (`today`), the store query's result (`meals`) and the outcome of
  the store's `create` call (`StoreOutcome`) are parameters.
- A request body is `Unparsable` (`request.json()` throws), `NullBody` (the
  destructuring throws) or its seven fields as JavaScript values.

Behaviour of the code worth knowing, which the model keeps:

- `Number(x) || 0` replaces only NaN and 0, so a negative quantity is stored
  unchanged (`MealsRoute.Coerce`, `MealsRoute.Post`).
- A truthy non-string `foodName` (a number, `true`, an object) passes the
  check at `src/app/api/meals/route.ts:25`, and `.trim()` then throws, giving
  a 500 with the generic message (`MealsRoute.Post`).
- The meal list is ordered by date, then `mealType`
  (`src/app/meals/page.tsx:24`). Only the day ordering matters to the
  grouping (`MealsPage.NewestFirstGivesNewestSectionsFirst`).
- `MEAL_TYPE_BADGE` is a plain object, so a meal type named like a property
  of `Object.prototype` ("toString", "constructor", "__proto__", ...) finds
  that inherited property instead of `undefined`, and the `??` fallback does
  not apply (`MealsPage.BadgeClass`).

## Model

| member | source | states |
|---|---|---|
| `StatsRoute.Status` | src/app/api/stats/route.ts:19-79 | the handler answers a client error (4xx) exactly for the period error and a success (2xx) exactly for the buckets |
| `StatsRoute.EffectivePeriod` | src/app/api/stats/route.ts:14 | an absent `period` is "week"; a present one is used as given |
| `StatsRoute.WindowDays` | src/app/api/stats/route.ts:16-23 | "week" gives 7 days, "month" gives 30, every other period gives none (the 400 path) |
| `StatsRoute.PrefillBuckets` | src/app/api/stats/route.ts:44-55 | after the pre-fill loop the map holds exactly `days` entries, keyed by the consecutive days from the start day in ascending order, each a zero bucket of its own day, with no key twice |
| `StatsRoute.AggregateMeals` | src/app/api/stats/route.ts:57-67 | the aggregation loop, looking each day up with `get` and adding into the bucket found, keeps the keys and their order, creates no bucket, and leaves every bucket increased by exactly the totals of the meals of its day; meals whose day has no bucket change nothing |
| `StatsRoute.Plus` | src/app/api/stats/route.ts:62-65 | adding a meal's quantities into a bucket keeps the bucket's date, and adding a zero bucket changes nothing |
| `StatsRoute.MealOrderIrrelevant` | src/app/api/stats/route.ts:58-67 | the order in which the loop adds meals does not matter: swapping two neighbouring meals leaves every day's totals unchanged |
| `StatsRoute.DayTotalsAppend` | src/app/api/stats/route.ts:58-67 | a day's totals over two runs of meals are the sums of the totals over each run |
| `StatsRoute.DayTotalsOtherDays` | src/app/api/stats/route.ts:59-61 | when no meal has day key `d`, the totals of `d` are all zero |
| `StatsRoute.OutsideWindowIgnored` | src/app/api/stats/route.ts:59-66 | meals outside the window change no bucket of the window, and alone they leave every bucket zero |
| `StatsRoute.InsertByDate` | src/app/api/stats/route.ts:71 | inserting into a date-sorted list keeps it sorted and adds exactly the one element |
| `StatsRoute.SortByDate` | src/app/api/stats/route.ts:71 | the sort by date returns a date-sorted permutation of its input |
| `StatsRoute.SortKeepsSorted` | src/app/api/stats/route.ts:70-71 | sorting buckets already in date order leaves them unchanged |
| `StatsRoute.RoundTenths` | src/app/api/stats/route.ts:74-76 | `Math.round(x * 10) / 10` gives the multiple of one tenth nearest to `x`, halves rounded up: a multiple of 10 hundredths in `(h - 5, h + 5]` |
| `StatsRoute.RoundStat` | src/app/api/stats/route.ts:72-77 | rounding a bucket keeps its date and its calories unrounded |
| `StatsRoute.RoundAll` | src/app/api/stats/route.ts:72-77 | the `.map` gives one rounded bucket per bucket, in the same order |
| `StatsRoute.RoundInsert` | src/app/api/stats/route.ts:70-77 | rounding commutes with inserting by date |
| `StatsRoute.RoundSort` | src/app/api/stats/route.ts:70-77 | rounding after sorting is sorting after rounding |
| `StatsRoute.SortAndRound` | src/app/api/stats/route.ts:70-77 | the sort-and-round pipeline returns the rounded buckets in date order, a permutation of the rounded input; buckets already in date order come out in the same order, each rounded |
| `StatsRoute.FillBuckets` | src/app/api/stats/route.ts:40-70 | after both loops, `Array.from(statsMap.values())` holds `days` buckets, bucket `j` holding the totals of day `startDay + j` |
| `StatsRoute.BucketsInWindow` | src/app/api/stats/route.ts:44-77 | the pre-filled, aggregated buckets, once sorted and rounded, are the rounded day totals of the window in strictly ascending date order |
| `StatsRoute.Get` | src/app/api/stats/route.ts:12-80 | status 400 with the period error exactly for a period other than week or month, status 200 exactly for week or month; otherwise exactly 7 or 30 buckets for the days ending today, strictly ascending by date, bucket `j` the rounded totals of day `today - (days - 1) + j`; no meals gives all-zero buckets |
| `StatsRoute.SameDaySums` | src/app/api/stats/route.ts:58-77 | two meals of one day with 500 and 300 kcal and 50.25 g and 10.05 g of carbs give 800 kcal and 60.3 g |
| `JsMap.IndexOf` | src/app/api/stats/route.ts:60 | a key is found at the first position holding it, and not found exactly when no entry holds it |
| `JsMap.IndexOfAppend` | src/app/meals/page.tsx:48 | appending an entry moves no key already present; the new key is found at the end |
| `JsMap.Has` | src/app/meals/page.tsx:47 | `has(k)` holds exactly when `k` is one of the keys |
| `JsMap.Get` | src/app/api/stats/route.ts:60 | `get(k)` finds a value exactly when `k` is present, a value stored under `k`, and in a duplicate-free map the one stored with `k` |
| `JsMap.Set` | src/app/api/stats/route.ts:48 | `set(k, v)` stores `(k, v)`, adds an entry only for a new key, and leaves every entry of another key where it was |
| `JsMap.SetKeys` | src/app/api/stats/route.ts:48 | `set` keeps the key order for a present key and appends a new key at the end, and the map keeps no key twice |
| `JsMap.GetSet` | src/app/meals/page.tsx:47-50 | after `set(k, v)`, `get(k)` is `v` and every other key reads as before |
| `JsRuntime.Truthy` | src/app/api/meals/route.ts:15-25 | `!x` is false exactly for the six falsy values `undefined`, `null`, `false`, `NaN`, `0` and `""` |
| `JsRuntime.TrimStart` | src/app/api/meals/route.ts:37 | the result is a suffix that does not start with whitespace, and everything dropped is whitespace |
| `JsRuntime.TrimEnd` | src/app/api/meals/route.ts:37 | the result is a prefix that does not end with whitespace, and everything dropped is whitespace |
| `JsRuntime.Trim` | src/app/api/meals/route.ts:37 | the trimmed name is a slice of the input with only whitespace cut away on either side, and neither starts nor ends with whitespace |
| `JsRuntime.TrimEmptyIff` | src/app/api/meals/route.ts:25 | `trim()` gives the empty string exactly when the input is all whitespace |
| `JsRuntime.TrimIdempotent` | src/app/api/meals/route.ts:37 | trimming a trimmed name changes nothing |
| `JsRuntime.StringToNumber` | src/app/api/meals/route.ts:38-41 | a blank string converts to 0, a run of digits to its decimal value, a sign and digits to that value signed, and every other string to NaN |
| `JsRuntime.Decimal` | src/app/api/meals/route.ts:38-41 | the numeral of a whole number is a non-empty run of digits |
| `JsRuntime.DigitsValueDecimal` | src/app/api/meals/route.ts:38-41 | reading back the numeral of `n` gives `n` |
| `JsRuntime.StringToNumberDecimal` | src/app/api/meals/route.ts:38-41 | `Number` of the numeral of `n` is `n` |
| `JsRuntime.StringToNumberSigned` | src/app/api/meals/route.ts:38-41 | `Number` of "+" or "-" before the numeral of `n` is `n` or `-n` |
| `JsRuntime.NumberOf` | src/app/api/meals/route.ts:38-41 | `Number()` keeps a number, gives NaN for `undefined` and objects, 0 for `null`, 1 and 0 for `true` and `false`, and converts a string as `StringToNumber` does |
| `JsRuntime.MathRound` | src/app/stats/page.tsx:53 | `Math.round(num / den)` lies within half a unit of the quotient, with halves rounded up |
| `JsRuntime.MathRoundUnique` | src/app/api/stats/route.ts:74-76 | the rounding bounds determine the rounded value uniquely |
| `JsRuntime.Split` | src/app/stats/page.tsx:25 | `split` gives at least one piece and no piece contains the separator |
| `JsRuntime.JoinSplit` | src/app/stats/page.tsx:25 | joining the pieces of a split gives back the string |
| `JsRuntime.SplitNoSeparator` | src/app/stats/page.tsx:25 | a string without the separator splits into itself alone |
| `JsRuntime.SplitPiece` | src/app/stats/page.tsx:25 | a separator-free piece followed by the separator splits off as the first piece |
| `JsRuntime.SplitJoin` | src/app/stats/page.tsx:25 | splitting a join of separator-free pieces gives back the pieces |
| `MealsRoute.IsValidMealType` | src/app/api/meals/route.ts:21 | `includes` holds exactly for a string equal to one of the four types, and such a value is truthy |
| `MealsRoute.FoodNameBlank` | src/app/api/meals/route.ts:25 | a string food name is blank exactly when it is all whitespace; any other value exactly when it is falsy |
| `MealsRoute.Violations` | src/app/api/meals/route.ts:13-27 | an error is reported exactly for each broken rule (falsy date; falsy meal type; truthy meal type outside the four; falsy or blank string food name), once each, in the order date, meal type, food name, never both meal-type errors, so at most three |
| `MealsRoute.Validate` | src/app/api/meals/route.ts:13-27 | the three checks pushing onto `errors` produce exactly `Violations` |
| `MealsRoute.Messages` | src/app/api/meals/route.ts:29-30 | the 400 body carries one message per error, in error order |
| `MealsRoute.Coerce` | src/app/api/meals/route.ts:38-41 | the `Number(x)`-or-0 coercion is the converted number, negatives and 0 included, except that NaN becomes 0 |
| `MealsRoute.Status` | src/app/api/meals/route.ts:30-50 | a client error (4xx) exactly for the validation errors, a success (2xx) exactly for the created meal, a server error (5xx) exactly for a caught exception |
| `MealsRoute.Post` | src/app/api/meals/route.ts:6-53 | status 400 with the messages exactly when the body parses and validation fails; status 201 exactly when validation passes, the food name is a string and the store succeeds, with the store's id, a valid meal type, the trimmed non-empty food name and coerced quantities; otherwise status 500 with the single generic message |
| `MealsPage.InheritedText` | src/app/meals/page.tsx:81 | an inherited property never prints as the grey fallback |
| `MealsPage.BadgeClass` | src/app/meals/page.tsx:6-81 | the lookup falls back to grey exactly for a name that is neither one of the four types nor an `Object.prototype` property; the four types get their own classes, inherited names their printed value |
| `MealsPage.BadgeForAcceptedTypes` | src/app/meals/page.tsx:6-11 | every meal type the create endpoint accepts gets a coloured badge, and the four types get four different badges |
| `MealsPage.DayKeys` | src/app/meals/page.tsx:44-51 | the section keys are distinct and are exactly the day keys that occur in the list |
| `MealsPage.MealsOn` | src/app/meals/page.tsx:50 | a section holds only meals of its day |
| `MealsPage.MealsOnAbsent` | src/app/meals/page.tsx:47-48 | a day with no meal has an empty section |
| `MealsPage.MealInItsGroup` | src/app/meals/page.tsx:45-50 | every meal is in the section of its own day |
| `MealsPage.FirstIndex` | src/app/meals/page.tsx:45-47 | the position found holds the first meal of the day, or is the end of the list when there is none |
| `MealsPage.FirstIndexAppend` | src/app/meals/page.tsx:45-47 | appending a meal moves no first occurrence; a new day first occurs at the appended meal |
| `MealsPage.KeysInFirstOccurrenceOrder` | src/app/meals/page.tsx:44-51 | sections appear in the order their days first occur in the list |
| `MealsPage.NewestFirstGivesNewestSectionsFirst` | src/app/meals/page.tsx:23-51 | a list ordered newest day first gives sections in strictly descending day order |
| `MealsPage.GroupSizesSum` | src/app/meals/page.tsx:44-51 | the sections together hold exactly as many meals as the list |
| `MealsPage.AddToGroup` | src/app/meals/page.tsx:46-50 | one turn of the loop (create the section if missing, `get` it and push the meal) turns the sections of a prefix into the sections of the prefix extended by the meal |
| `MealsPage.GroupByDate` | src/app/meals/page.tsx:43-51 | the grouping loop yields the distinct days in first-occurrence order, each with that day's meals in list order |
| `MealsPage.Render` | src/app/meals/page.tsx:22-51 | the empty state exactly for an empty list; otherwise the sections of `GroupByDate` |
| `StatsPage.SplitIsoDay` | src/app/stats/page.tsx:25 | a "YYYY-MM-DD" string splits into its year, month and day |
| `StatsPage.FormatDateLabel` | src/app/stats/page.tsx:24-27 | `formatDateLabel("YYYY-MM-DD")` is the five-character "MM/DD"; a date without a dash is labelled "undefined/undefined" |
| `StatsPage.SameLabelIffSameMonthDay` | src/app/stats/page.tsx:24-27 | two ISO days get the same label exactly when month and day agree, whatever the years |
| `StatsPage.ChartData` | src/app/stats/page.tsx:47-50 | one chart point per bucket in the same order, each keeping its bucket and labelled with its formatted date, which for an ISO day is its "MM/DD" |
| `StatsPage.TotalCalories` | src/app/stats/page.tsx:52 | with no negative day the total is non-negative and no day's calories exceed it |
| `StatsPage.TotalCaloriesAppend` | src/app/stats/page.tsx:52 | the calorie total of a concatenation is the sum of the totals |
| `StatsPage.TotalCaloriesBounds` | src/app/stats/page.tsx:52 | with every day's calories in `[lo, hi]` the total lies in `[n * lo, n * hi]` |
| `StatsPage.AvgCalories` | src/app/stats/page.tsx:53 | 0 for no buckets; otherwise a whole kcal within half a kcal of the mean, halves rounded up |
| `StatsPage.AvgWithinRange` | src/app/stats/page.tsx:52-53 | the average lies within half a kcal of the range of the daily calories |

## Left out

- Next.js request and response plumbing: a response is a datatype with a status function; the JSON body is the `Body` datatype.
- The store: `findMany` results are input sequences and `create` is a `StoreOutcome` parameter. The date-range filter of the stats query is not modelled; the model accepts any meals, and those outside the window are dropped.
- A store failure in the stats endpoint, which the code does not catch, is not modelled, because the query result is an input.
- `Date`, time zones, `toISOString` and `toLocaleDateString`: days are integers and a stored meal carries its day key. The local-time window against UTC day keys, and duplicate day keys around a daylight-saving change, are not modelled. The localized section heading of the meal list is not modelled.
- `MealsRoute.Post`: `new Date(date)` is not modelled; the record keeps the request's date value.
- Floating point: quantities are exact hundredths, so sums and rounding are exact. Infinity and `-0` are not represented.
- `JsRuntime.StringToNumber`: only blank strings and optionally signed decimal integers are converted; fractions, exponents, hexadecimal and "Infinity" become NaN, where JavaScript converts them.
- `JsRuntime.NumberOf`: arrays and objects always become NaN, where JavaScript gives 0 for an empty array and converts a one-element array through its element.
- `MealsPage.InheritedText`: the printed form of a built-in function is engine-defined; the model uses the common `function name() { [native code] }`.
- `StatsRoute.SortByDate`: stability is not stated; the day keys it sorts are distinct.
- The statistics page's React state, fetch, the stale-response race on a period switch and the chart and table rendering.
- The new-meal form, the layout, the home page and the DELETE endpoint, which hold no logic of the modelled core.
