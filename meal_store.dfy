/** The persisted meal record as the two read paths (the stats endpoint and
    the meal list page) see it. The store itself is not modelled: a query's
    result is passed in as a sequence. */
module MealStore {

  /** A calendar day as a day number; the ISO day key `YYYY-MM-DD` of a
      stored date is identified with it, so later days have larger numbers. */
  type Day = int

  /** A stored meal. `day` is the day key of its `date`; the four nutrient
      quantities are in hundredths of a unit (kcal or grams). */
  datatype Meal = Meal(
    id: int,
    day: Day,
    mealType: string,
    foodName: string,
    calories: int,
    carbs: int,
    protein: int,
    fat: int)
}
