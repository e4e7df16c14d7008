/** `POST /api/meals`: validates a new meal, collecting every problem rather
    than stopping at the first, and on success stores the meal with a trimmed
    food name and coerced numbers. Any exception (an unreadable or `null`
    body, `.trim()` on a non-string food name, a store failure) becomes a 500
    with one generic message.

    The store is replaced by the outcome of its `create` call, given as a
    parameter. */
module MealsRoute {
  import opened JsRuntime

  /** `VALID_MEAL_TYPES`: breakfast, lunch, dinner and snack. */
  const ValidMealTypes: seq<string> := ["아침", "점심", "저녁", "간식"]

  /** The validation rules, in the order they are checked. */
  datatype ValidationError = DateRequired | MealTypeRequired | MealTypeInvalid | FoodNameRequired

  /** The position of a rule in checking order. */
  function Rank(e: ValidationError): nat {
    match e
    case DateRequired => 0
    case MealTypeRequired => 1
    case MealTypeInvalid => 2
    case FoodNameRequired => 3
  }

  /** The message reported for a broken rule. */
  function Message(e: ValidationError): string {
    match e
    case DateRequired => "날짜를 입력해주세요."
    case MealTypeRequired => "끼니를 선택해주세요."
    case MealTypeInvalid => "올바른 끼니를 선택해주세요. (아침/점심/저녁/간식)"
    case FoodNameRequired => "음식 이름을 입력해주세요."
  }

  const ServerErrorMessage := "서버 오류가 발생했습니다."

  /** `VALID_MEAL_TYPES.includes(mealType)`: only a string equal to one of
      the four types matches, and such a value is never falsy, so the
      "invalid" check and the "required" check never both fire. */
  predicate IsValidMealType(v: Value): (b: bool)
    ensures b <==> exists i :: 0 <= i < |ValidMealTypes| && v == Str(ValidMealTypes[i])
    ensures b ==> Truthy(v)
  {
    v.Str? && v.s in ValidMealTypes
  }

  /** `!foodName || (typeof foodName === "string" && foodName.trim() === "")`:
      a string is blank exactly when it is all whitespace (the empty string
      included); any other value is blank exactly when it is falsy. */
  predicate FoodNameBlank(v: Value): (b: bool)
    ensures v.Str? ==> (b <==> forall k :: 0 <= k < |v.s| ==> IsWhiteSpace(v.s[k]))
    ensures !v.Str? ==> (b <==> !Truthy(v))
  {
    assert v.Str? ==> (Trim(v.s) == "" <==> forall k :: 0 <= k < |v.s| ==> IsWhiteSpace(v.s[k])) by {
      if v.Str? {
        TrimEmptyIff(v.s);
      }
    }
    !Truthy(v) || (v.Str? && Trim(v.s) == "")
  }

  /** Whether the request fields break rule `e`. */
  predicate Breaks(e: ValidationError, date: Value, mealType: Value, foodName: Value) {
    match e
    case DateRequired => !Truthy(date)
    case MealTypeRequired => !Truthy(mealType)
    case MealTypeInvalid => Truthy(mealType) && !IsValidMealType(mealType)
    case FoodNameRequired => FoodNameBlank(foodName)
  }

  /** The broken rules in rule order: exactly the rules broken, each once,
      in the order date, meal type, food name, and never both meal-type
      errors, so at most three. */
  function Violations(date: Value, mealType: Value, foodName: Value): (errs: seq<ValidationError>)
    ensures forall e :: e in errs <==> Breaks(e, date, mealType, foodName)
    ensures forall i, j :: 0 <= i < j < |errs| ==> Rank(errs[i]) < Rank(errs[j])
    ensures !(MealTypeRequired in errs && MealTypeInvalid in errs)
    ensures |errs| <= 3
  {
    (if !Truthy(date) then [DateRequired] else [])
    + (if !Truthy(mealType) then [MealTypeRequired]
       else if !IsValidMealType(mealType) then [MealTypeInvalid] else [])
    + (if FoodNameBlank(foodName) then [FoodNameRequired] else [])
  }

  /** The three checks of the handler, pushing one error per broken rule. */
  method Validate(date: Value, mealType: Value, foodName: Value) returns (errors: seq<ValidationError>)
    ensures errors == Violations(date, mealType, foodName)
  {
    var dateMissing := !Truthy(date);
    var typeMissing := !Truthy(mealType);
    var typeInvalid := !IsValidMealType(mealType);
    var nameBlank := FoodNameBlank(foodName);
    ViolationsOf(date, mealType, foodName, dateMissing, typeMissing, typeInvalid, nameBlank);
    ghost var dateErrs := if dateMissing then [DateRequired] else [];
    ghost var typeErrs := if typeMissing then [MealTypeRequired] else if typeInvalid then [MealTypeInvalid] else [];
    ghost var nameErrs := if nameBlank then [FoodNameRequired] else [];
    errors := [];
    if dateMissing {
      errors := errors + [DateRequired];
    }
    assert errors == dateErrs;
    if typeMissing {
      errors := errors + [MealTypeRequired];
    } else if typeInvalid {
      errors := errors + [MealTypeInvalid];
    }
    assert errors == dateErrs + typeErrs;
    if nameBlank {
      errors := errors + [FoodNameRequired];
    }
    assert errors == dateErrs + typeErrs + nameErrs;
  }

  /** `Violations` in terms of the outcomes of the three checks. */
  lemma ViolationsOf(date: Value, mealType: Value, foodName: Value,
                     dateMissing: bool, typeMissing: bool, typeInvalid: bool, nameBlank: bool)
    requires dateMissing == !Truthy(date) && typeMissing == !Truthy(mealType)
    requires typeInvalid == !IsValidMealType(mealType) && nameBlank == FoodNameBlank(foodName)
    ensures Violations(date, mealType, foodName) ==
      (if dateMissing then [DateRequired] else [])
      + (if typeMissing then [MealTypeRequired] else if typeInvalid then [MealTypeInvalid] else [])
      + (if nameBlank then [FoodNameRequired] else [])
  {
  }

  function Messages(errs: seq<ValidationError>): (msgs: seq<string>)
    ensures |msgs| == |errs|
    ensures forall i :: 0 <= i < |errs| ==> msgs[i] == Message(errs[i])
  {
    seq(|errs|, i requires 0 <= i < |errs| => Message(errs[i]))
  }

  /** `Number(x) || 0`: the number `x` converts to, except that NaN becomes
      0. A finite number, negative or zero, is kept as it is. */
  function Coerce(v: Value): (h: int)
    ensures NumberOf(v).Finite? ==> h == NumberOf(v).hundredths
    ensures NumberOf(v).NaN? ==> h == 0
  {
    var n := NumberOf(v);
    if Truthy(Num(n)) then n.hundredths else 0
  }

  // ---------------------------------------------------------------------
  // The handler
  // ---------------------------------------------------------------------

  /** The parsed request body. A body that is not JSON makes
      `request.json()` throw; a `null` body makes the destructuring throw; any
      other body is read field by field (a field that is not there is
      `Undefined`, as are all fields of a primitive body). */
  datatype Body =
    | Unparsable
    | NullBody
    | Fields(date: Value, mealType: Value, foodName: Value,
             calories: Value, carbs: Value, protein: Value, fat: Value)

  /** What the store's `create` does: assigns an id and creation time, or
      throws. */
  datatype StoreOutcome = Stored(id: int, createdAt: int) | StoreFailed

  /** The record the store returns. `date` is the request's date value; its
      conversion to a timestamp is not modelled. Quantities in hundredths. */
  datatype CreatedMeal = CreatedMeal(
    id: int, createdAt: int, date: Value, mealType: string, foodName: string,
    calories: int, carbs: int, protein: int, fat: int)

  datatype PostResponse =
    | BadRequest(errors: seq<string>)
    | Created(meal: CreatedMeal)
    | ServerError(errors: seq<string>)

  /** The HTTP status: a client error (4xx) exactly for a rejected body, a
      success (2xx) exactly for a stored meal, a server error (5xx) exactly
      for a caught exception. */
  function Status(r: PostResponse): (code: int)
    ensures 400 <= code < 500 <==> r.BadRequest?
    ensures 200 <= code < 300 <==> r.Created?
    ensures 500 <= code < 600 <==> r.ServerError?
  {
    match r
    case BadRequest(_) => 400
    case Created(_) => 201
    case ServerError(_) => 500
  }

  /** The body reads and passes all three checks. */
  predicate Acceptable(body: Body) {
    body.Fields? && Violations(body.date, body.mealType, body.foodName) == []
  }

  /** `POST`: 400 with one message per broken rule when validation fails and
      nothing is stored; otherwise the store's record with the trimmed,
      non-blank food name, an allowed meal type and coerced numbers, with
      status 201; 500 with the single generic message on any exception. */
  method Post(body: Body, store: StoreOutcome) returns (r: PostResponse)
    ensures r.BadRequest? <==> body.Fields? && Violations(body.date, body.mealType, body.foodName) != []
    ensures r.BadRequest? ==> r.errors == Messages(Violations(body.date, body.mealType, body.foodName))
    ensures r.Created? <==> Acceptable(body) && body.foodName.Str? && store.Stored?
    ensures r.ServerError? ==> r.errors == [ServerErrorMessage]
    ensures Status(r) == 400 <==> body.Fields? && Violations(body.date, body.mealType, body.foodName) != []
    ensures Status(r) == 201 <==> Acceptable(body) && body.foodName.Str? && store.Stored?
    ensures Status(r) == 500 <==> !body.Fields? || (Acceptable(body) && !(body.foodName.Str? && store.Stored?))
    ensures r.Created? ==>
      && r.meal.id == store.id && r.meal.createdAt == store.createdAt
      && r.meal.date == body.date
      && body.mealType == Str(r.meal.mealType) && r.meal.mealType in ValidMealTypes
      && r.meal.foodName == Trim(body.foodName.s)
      && r.meal.foodName != ""
      && r.meal.calories == Coerce(body.calories)
      && r.meal.carbs == Coerce(body.carbs)
      && r.meal.protein == Coerce(body.protein)
      && r.meal.fat == Coerce(body.fat)
  {
    if !body.Fields? {
      return ServerError([ServerErrorMessage]);
    }
    var errors := Validate(body.date, body.mealType, body.foodName);
    if |errors| > 0 {
      return BadRequest(Messages(errors));
    }
    if !body.foodName.Str? {
      // `.trim` is not a function on a non-string value: a TypeError.
      return ServerError([ServerErrorMessage]);
    }
    var foodName := Trim(body.foodName.s);
    var calories := Coerce(body.calories);
    var carbs := Coerce(body.carbs);
    var protein := Coerce(body.protein);
    var fat := Coerce(body.fat);
    match store
    case StoreFailed =>
      r := ServerError([ServerErrorMessage]);
    case Stored(id, createdAt) =>
      assert !Breaks(MealTypeRequired, body.date, body.mealType, body.foodName);
      assert !Breaks(MealTypeInvalid, body.date, body.mealType, body.foodName);
      assert !Breaks(FoodNameRequired, body.date, body.mealType, body.foodName);
      r := Created(CreatedMeal(id, createdAt, body.date, body.mealType.s, foodName,
                               calories, carbs, protein, fat));
  }
}
