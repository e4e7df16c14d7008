/** The meal list page: all stored meals grouped into one section per day
    key, sections in the order their day first occurs in the list, meals
    within a section in list order, each meal shown with a colour badge for
    its meal type. An empty list shows the empty state instead.

    The store query is replaced by the sequence of meals it returned; its
    ordering (date descending) only matters for
    `NewestFirstGivesNewestSectionsFirst`. */
module MealsPage {
  import opened MealStore
  import JsMap
  import MealsRoute

  // ---------------------------------------------------------------------
  // Badges
  // ---------------------------------------------------------------------

  /** `MEAL_TYPE_BADGE`. */
  const MealTypeBadge: map<string, string> := map[
    "아침" := "bg-blue-100 text-blue-800",
    "점심" := "bg-green-100 text-green-800",
    "저녁" := "bg-orange-100 text-orange-800",
    "간식" := "bg-purple-100 text-purple-800"]

  const FallbackBadge := "bg-gray-100 text-gray-800"

  /** The properties every plain object inherits from `Object.prototype`;
      `MEAL_TYPE_BADGE[name]` finds them through the prototype chain. */
  const InheritedNames: set<string> := {
    "constructor", "hasOwnProperty", "isPrototypeOf", "propertyIsEnumerable",
    "toLocaleString", "toString", "valueOf", "__defineGetter__", "__defineSetter__",
    "__lookupGetter__", "__lookupSetter__", "__proto__"}

  /** How the template literal prints an inherited property: `__proto__` is
      `Object.prototype` itself, printed as "[object Object]"; the others are
      built-in functions, printed as their source text (`constructor` is the
      function `Object`). */
  function InheritedText(name: string): (text: string)
    ensures text != FallbackBadge
  {
    if name == "__proto__" then "[object Object]"
    else
      var text := "function " + (if name == "constructor" then "Object" else name) + "() { [native code] }";
      assert text[0] != FallbackBadge[0];
      text
  }

  /** `MEAL_TYPE_BADGE[mealType] ?? "bg-gray-100 text-gray-800"`: the `??`
      falls back only when the lookup is `undefined`, i.e. for a name that is
      neither an accepted meal type nor inherited from `Object.prototype`. */
  function BadgeClass(mealType: string): (c: string)
    ensures c == FallbackBadge <==> mealType !in MealsRoute.ValidMealTypes && mealType !in InheritedNames
    ensures mealType in MealsRoute.ValidMealTypes ==> c == MealTypeBadge[mealType]
    ensures mealType in InheritedNames ==> c == InheritedText(mealType)
  {
    assert MealsRoute.ValidMealTypes == ["아침", "점심", "저녁", "간식"];
    assert forall t :: t in MealTypeBadge ==> t !in InheritedNames;
    if mealType in MealTypeBadge then MealTypeBadge[mealType]
    else if mealType in InheritedNames then InheritedText(mealType)
    else FallbackBadge
  }

  /** Every meal type the create endpoint accepts gets its own coloured
      badge: never the grey fallback, and different types get different
      badges. */
  lemma BadgeForAcceptedTypes(t: string, u: string)
    requires t in MealsRoute.ValidMealTypes && u in MealsRoute.ValidMealTypes
    ensures BadgeClass(t) != FallbackBadge
    ensures t != u ==> BadgeClass(t) != BadgeClass(u)
  {
    assert MealsRoute.ValidMealTypes == ["아침", "점심", "저녁", "간식"];
  }

  // ---------------------------------------------------------------------
  // Grouping by day key
  // ---------------------------------------------------------------------

  /** The distinct day keys of `meals`, in the order of first occurrence. */
  function DayKeys(meals: seq<Meal>): (keys: seq<Day>)
    ensures JsMap.Distinct(keys)
    ensures forall d :: d in keys <==> exists i :: 0 <= i < |meals| && meals[i].day == d
  {
    if meals == [] then []
    else
      var prev := DayKeys(meals[..|meals| - 1]);
      var d := meals[|meals| - 1].day;
      assert forall i :: 0 <= i < |meals| - 1 ==> meals[..|meals| - 1][i] == meals[i];
      if d in prev then prev else prev + [d]
  }

  /** The meals of day `d`, in list order. */
  function MealsOn(meals: seq<Meal>, d: Day): (r: seq<Meal>)
    ensures |r| <= |meals|
    ensures forall k :: 0 <= k < |r| ==> r[k].day == d
  {
    if meals == [] then []
    else
      var prev := MealsOn(meals[..|meals| - 1], d);
      var last := meals[|meals| - 1];
      if last.day == d then prev + [last] else prev
  }

  /** A day with no meal has an empty section. */
  lemma {:induction false} MealsOnAbsent(meals: seq<Meal>, d: Day)
    requires forall i :: 0 <= i < |meals| ==> meals[i].day != d
    ensures MealsOn(meals, d) == []
  {
    if meals != [] {
      MealsOnAbsent(meals[..|meals| - 1], d);
    }
  }

  /** Every meal is in the section of its own day. */
  lemma {:induction false} MealInItsGroup(meals: seq<Meal>, i: nat)
    requires i < |meals|
    ensures meals[i] in MealsOn(meals, meals[i].day)
  {
    var n := |meals| - 1;
    if i < n {
      MealInItsGroup(meals[..n], i);
    }
  }

  /** The position of the first meal of day `d`, or `|meals|` if none. */
  function FirstIndex(meals: seq<Meal>, d: Day): (p: nat)
    ensures p <= |meals|
    ensures p < |meals| ==> meals[p].day == d
    ensures forall q :: 0 <= q < p ==> meals[q].day != d
  {
    if meals == [] then 0
    else if meals[0].day == d then 0
    else 1 + FirstIndex(meals[1..], d)
  }

  lemma {:induction false} FirstIndexAppend(meals: seq<Meal>, m: Meal, d: Day)
    ensures FirstIndex(meals + [m], d) ==
      if FirstIndex(meals, d) < |meals| then FirstIndex(meals, d)
      else if m.day == d then |meals| else |meals| + 1
  {
    if meals != [] {
      assert (meals + [m])[1..] == meals[1..] + [m];
      FirstIndexAppend(meals[1..], m, d);
    }
  }

  /** Sections come in the order in which their days first occur. */
  lemma {:induction false} KeysInFirstOccurrenceOrder(meals: seq<Meal>)
    ensures forall a, b :: 0 <= a < b < |DayKeys(meals)| ==>
      FirstIndex(meals, DayKeys(meals)[a]) < FirstIndex(meals, DayKeys(meals)[b])
  {
    if meals != [] {
      var n := |meals| - 1;
      var p, m := meals[..n], meals[n];
      assert meals == p + [m];
      KeysInFirstOccurrenceOrder(p);
      var keys := DayKeys(p);
      DayKeysSnoc(p, m);
      var keys' := DayKeys(meals);
      forall a, b | 0 <= a < b < |keys'|
        ensures FirstIndex(meals, keys'[a]) < FirstIndex(meals, keys'[b])
      {
        FirstIndexOfSeen(p, m, keys[a]);
        if b < |keys| {
          FirstIndexOfSeen(p, m, keys[b]);
        } else {
          FirstIndexOfNew(p, m);
        }
      }
    }
  }

  /** A day already seen keeps its first position when a meal is appended. */
  lemma FirstIndexOfSeen(p: seq<Meal>, m: Meal, d: Day)
    requires d in DayKeys(p)
    ensures FirstIndex(p + [m], d) == FirstIndex(p, d) < |p|
  {
    FirstIndexAppend(p, m, d);
    var i :| 0 <= i < |p| && p[i].day == d;
  }

  /** A day not seen before first occurs at the appended meal. */
  lemma FirstIndexOfNew(p: seq<Meal>, m: Meal)
    requires m.day !in DayKeys(p)
    ensures FirstIndex(p + [m], m.day) == |p|
  {
    FirstIndexAppend(p, m, m.day);
    assert forall i :: 0 <= i < |p| ==> p[i].day != m.day;
  }

  /** A list sorted newest day first gives sections newest day first. */
  lemma {:induction false} NewestFirstGivesNewestSectionsFirst(meals: seq<Meal>)
    requires forall i, j :: 0 <= i < j < |meals| ==> meals[i].day >= meals[j].day
    ensures forall a, b :: 0 <= a < b < |DayKeys(meals)| ==> DayKeys(meals)[a] > DayKeys(meals)[b]
  {
    if meals != [] {
      var n := |meals| - 1;
      var p := meals[..n];
      NewestFirstGivesNewestSectionsFirst(p);
      var keys := DayKeys(p);
      if meals[n].day !in keys {
        forall a | 0 <= a < |keys| ensures keys[a] > meals[n].day {
          assert keys[a] in keys;
          var i :| 0 <= i < |p| && p[i].day == keys[a];
        }
      }
    }
  }

  /** The number of meals over the sections of `keys`. */
  function TotalSize(keys: seq<Day>, meals: seq<Meal>): nat {
    if keys == [] then 0 else |MealsOn(meals, keys[0])| + TotalSize(keys[1..], meals)
  }

  lemma {:induction false} TotalSizeAppendMeal(keys: seq<Day>, meals: seq<Meal>, m: Meal)
    requires JsMap.Distinct(keys)
    ensures TotalSize(keys, meals + [m]) == TotalSize(keys, meals) + (if m.day in keys then 1 else 0)
  {
    if keys != [] {
      assert (meals + [m])[..|meals|] == meals;
      TotalSizeAppendMeal(keys[1..], meals, m);
      assert m.day in keys <==> m.day == keys[0] || m.day in keys[1..];
    }
  }

  lemma {:induction false} TotalSizeAppendKey(keys: seq<Day>, meals: seq<Meal>, d: Day)
    ensures TotalSize(keys + [d], meals) == TotalSize(keys, meals) + |MealsOn(meals, d)|
  {
    if keys != [] {
      assert (keys + [d])[1..] == keys[1..] + [d];
      TotalSizeAppendKey(keys[1..], meals, d);
    }
  }

  /** The sections hold as many meals as the list: none is lost and none
      is shown twice. */
  lemma {:induction false} GroupSizesSum(meals: seq<Meal>)
    ensures TotalSize(DayKeys(meals), meals) == |meals|
  {
    if meals != [] {
      var n := |meals| - 1;
      var p, m := meals[..n], meals[n];
      assert meals == p + [m];
      GroupSizesSum(p);
      var keys := DayKeys(p);
      TotalSizeAppendMeal(keys, p, m);
      if m.day !in keys {
        TotalSizeAppendKey(keys, meals, m.day);
        TotalSizeAppendMeal(keys, p, m);
        MealsOnAbsent(p, m.day);
      }
    }
  }

  lemma DayKeysSnoc(seen: seq<Meal>, meal: Meal)
    ensures DayKeys(seen + [meal]) ==
      if meal.day in DayKeys(seen) then DayKeys(seen) else DayKeys(seen) + [meal.day]
  {
    assert (seen + [meal])[..|seen|] == seen;
  }

  lemma MealsOnSnoc(seen: seq<Meal>, meal: Meal, d: Day)
    ensures MealsOn(seen + [meal], d) ==
      if meal.day == d then MealsOn(seen, d) + [meal] else MealsOn(seen, d)
  {
    assert (seen + [meal])[..|seen|] == seen;
  }

  /** Creating the missing section of `meal`'s day: an empty section at the
      end, which is what `seen` holds for that day. */
  lemma CreateSection(grouped: JsMap.Map<Day, seq<Meal>>, seen: seq<Meal>, meal: Meal)
    requires JsMap.Keys(grouped) == DayKeys(seen)
    requires forall j :: 0 <= j < |grouped| ==> grouped[j].1 == MealsOn(seen, grouped[j].0)
    requires !JsMap.Has(grouped, meal.day)
    ensures JsMap.Keys(JsMap.Set(grouped, meal.day, [])) == DayKeys(seen + [meal])
    ensures forall j :: 0 <= j < |JsMap.Set(grouped, meal.day, [])| ==>
      JsMap.Set(grouped, meal.day, [])[j].1 == MealsOn(seen, JsMap.Set(grouped, meal.day, [])[j].0)
    ensures JsMap.Has(JsMap.Set(grouped, meal.day, []), meal.day)
  {
    var key := meal.day;
    var r := grouped + [(key, [])];
    assert JsMap.IndexOf(grouped, key).None?;
    assert JsMap.Set(grouped, key, []) == r;
    assert JsMap.Keys(r) == JsMap.Keys(grouped) + [key];
    assert key !in DayKeys(seen);
    DayKeysSnoc(seen, meal);
    MealsOnAbsent(seen, key);
    forall j | 0 <= j < |r| ensures r[j].1 == MealsOn(seen, r[j].0) {
      if j < |grouped| {
        assert r[j] == grouped[j];
      }
    }
    JsMap.IndexOfAppend(grouped, key, [], key);
  }

  /** Pushing `meal` onto its existing section at position `k`: the other
      sections already hold what `seen + [meal]` gives them. */
  lemma PushOntoSection(before: JsMap.Map<Day, seq<Meal>>, seen: seq<Meal>, meal: Meal, k: nat,
                        after: JsMap.Map<Day, seq<Meal>>)
    requires JsMap.Distinct(JsMap.Keys(before))
    requires k < |before| && before[k].0 == meal.day
    requires forall j :: 0 <= j < |before| ==> before[j].1 == MealsOn(seen, before[j].0)
    requires after == before[k := (meal.day, before[k].1 + [meal])]
    ensures JsMap.Keys(after) == JsMap.Keys(before)
    ensures forall j :: 0 <= j < |after| ==> after[j].1 == MealsOn(seen + [meal], after[j].0)
  {
    forall j | 0 <= j < |after|
      ensures after[j].1 == MealsOn(seen + [meal], after[j].0)
    {
      MealsOnSnoc(seen, meal, after[j].0);
      if j != k {
        assert JsMap.Keys(before)[j] == before[j].0;
        assert JsMap.Keys(before)[k] == before[k].0;
      }
    }
    assert JsMap.Keys(after) == JsMap.Keys(before);
  }

  /** One turn of the grouping loop: create the meal's section if it is
      missing, then push the meal onto it. The sections built from `seen`
      become the sections built from `seen` followed by `meal`. */
  method AddToGroup(grouped: JsMap.Map<Day, seq<Meal>>, ghost seen: seq<Meal>, meal: Meal)
    returns (grouped': JsMap.Map<Day, seq<Meal>>)
    requires JsMap.Keys(grouped) == DayKeys(seen)
    requires forall j :: 0 <= j < |grouped| ==> grouped[j].1 == MealsOn(seen, grouped[j].0)
    ensures JsMap.Keys(grouped') == DayKeys(seen + [meal])
    ensures forall j :: 0 <= j < |grouped'| ==> grouped'[j].1 == MealsOn(seen + [meal], grouped'[j].0)
  {
    var key := meal.day;
    grouped' := grouped;
    if !JsMap.Has(grouped', key) {
      CreateSection(grouped', seen, meal);
      grouped' := JsMap.Set(grouped', key, []);
    } else {
      DayKeysSnoc(seen, meal);
      assert key in DayKeys(seen) by {
        var i := JsMap.IndexOf(grouped, key).value;
        assert JsMap.Keys(grouped)[i] == key;
      }
    }
    // `grouped.get(key)!.push(meal)`: the section array held by the map
    // grows in place.
    var section := JsMap.Get(grouped', key).value;
    ghost var k := JsMap.IndexOf(grouped', key).value;
    ghost var before := grouped';
    grouped' := JsMap.Set(grouped', key, section + [meal]);
    assert grouped' == before[k := (key, before[k].1 + [meal])];
    PushOntoSection(before, seen, meal, k, grouped');
  }

  /** The grouping loop over the whole list. */
  method GroupByDate(meals: seq<Meal>) returns (grouped: JsMap.Map<Day, seq<Meal>>)
    ensures JsMap.Keys(grouped) == DayKeys(meals)
    ensures forall j :: 0 <= j < |grouped| ==> grouped[j].1 == MealsOn(meals, grouped[j].0)
  {
    grouped := [];
    for i := 0 to |meals|
      invariant JsMap.Keys(grouped) == DayKeys(meals[..i])
      invariant forall j :: 0 <= j < |grouped| ==> grouped[j].1 == MealsOn(meals[..i], grouped[j].0)
    {
      assert meals[..i + 1] == meals[..i] + [meals[i]];
      grouped := AddToGroup(grouped, meals[..i], meals[i]);
    }
    assert meals[..|meals|] == meals;
  }

  /** What the page renders. */
  datatype MealsView = EmptyState | Sections(groups: JsMap.Map<Day, seq<Meal>>)

  /** The page: the empty state for no meals, otherwise one section per day
      key in order of first occurrence, each holding that day's meals in list
      order. */
  method Render(meals: seq<Meal>) returns (v: MealsView)
    ensures v.EmptyState? <==> meals == []
    ensures v.Sections? ==> JsMap.Keys(v.groups) == DayKeys(meals)
    ensures v.Sections? ==> forall j :: 0 <= j < |v.groups| ==> v.groups[j].1 == MealsOn(meals, v.groups[j].0)
  {
    if |meals| == 0 {
      return EmptyState;
    }
    var grouped := GroupByDate(meals);
    v := Sections(grouped);
  }
}
