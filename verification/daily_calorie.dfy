/**
  The daily energy balance (`GetDailyCalorie`): the day's weight gives a BMR,
  BMR times the activity factor plus the day's exercise gives the TDEE, the
  day's meal portions give per-slot intake, and what remains is TDEE minus
  intake, floored at 0 once any meal is logged.
*/
module DailyCalorie {

  import opened Wrappers
  import opened DateTimes
  import opened Seqs
  import opened Records
  import opened Metrics
  import opened WeightLogs

  /** The figures reported for a day (before display rounding). */
  datatype Summary = Summary(remain: real, breakfast: real, lunch: real, dinner: real, snack: real)

  /** The kcal the four reported slots add up to. */
  function Eaten(s: Summary): real {
    s.breakfast + s.lunch + s.dinner + s.snack
  }

  /** The log is the user's and falls on that day. */
  function ExerciseOn(userId: int, day: Ticks): ExerciseLog -> bool {
    (e: ExerciseLog) => e.userId == userId && SameDay(e.date, day)
  }

  /** The user's exercise logs on that day. */
  function DayExercises(exercises: seq<ExerciseLog>, userId: int, day: Ticks): seq<ExerciseLog> {
    Filter(exercises, ExerciseOn(userId, day))
  }

  /** `(double?)e.TotalCalories ?? 0`. */
  function ExerciseCalories(e: ExerciseLog): real {
    e.totalCalories.GetOr(0.0)
  }

  /** The kcal burned by exercise that day. */
  function ExerciseKcal(exercises: seq<ExerciseLog>, userId: int, day: Ticks): real {
    SumOf(DayExercises(exercises, userId, day), ExerciseCalories)
  }

  /** Total daily energy expenditure. */
  function Tdee(bmr: real, exerciseKcal: real): real {
    bmr * ActivityFactor + exerciseKcal
  }

  /** A TDEE anchor: a BMR of 1673.75 kcal and 300 kcal of exercise allow 2308.5 kcal. */
  lemma TdeeExample()
    ensures Tdee(1673.75, 300.0) == 2308.5
  {
  }

  /** The user's BMR for the day: from the day's weight, with height 0 and age 25 when absent. */
  function DailyBmr(user: User, weightLogs: seq<WeightLog>, day: Ticks): real {
    Bmr(DayWeight(user, weightLogs, day), user.height.GetOr(0.0), AgeOrDefault(user.age), user.gender)
  }

  function DailyTdee(user: User, weightLogs: seq<WeightLog>, exercises: seq<ExerciseLog>, day: Ticks): real {
    Tdee(DailyBmr(user, weightLogs, day), ExerciseKcal(exercises, user.userId, day))
  }

  /** The user's meal logs on that day. */
  function DayMealLogs(mealLogs: seq<MealLog>, userId: int, day: Ticks): seq<MealLog> {
    Filter(mealLogs, (m: MealLog) => m.userId == userId && SameDay(m.date, day))
  }

  /** The ids of the given meal logs. */
  function MealIds(logs: seq<MealLog>): set<int> {
    set m | m in logs :: m.mealId
  }

  /** The ids of the given meal logs of one slot. */
  function SlotIds(logs: seq<MealLog>, slot: Slot): set<int> {
    set m | m in logs && m.mealType == slot :: m.mealId
  }

  /** The ids of the given meal logs outside the "other" slot. */
  function ReportedIds(logs: seq<MealLog>): set<int> {
    set m | m in logs && m.mealType != Other :: m.mealId
  }

  /** The portion belongs to one of the meals `ids`. */
  function InMeals(ids: set<int>): MealFood -> bool {
    (p: MealFood) => p.mealId in ids
  }

  /** The portions whose meal id is in `ids`, in store order. */
  function PortionsIn(portions: seq<MealFood>, ids: set<int>): seq<MealFood> {
    Filter(portions, InMeals(ids))
  }

  /**
    One portion's share of the inner join with the food table: `calories * amount / 100`
    for every food row with the portion's food id.
  */
  function JoinedKcal(p: MealFood, foods: seq<Food>): real {
    SumOf(Filter(foods, (f: Food) => f.foodId == p.foodId), (f: Food) => f.calories * p.amount / 100.0)
  }

  /** A portion's joined kcal, as a function of the portion. */
  function JoinedKcalOver(foods: seq<Food>): MealFood -> real {
    (p: MealFood) => JoinedKcal(p, foods)
  }

  /** The kcal of the portions whose meal id is in `ids`. */
  function SlotKcal(portions: seq<MealFood>, foods: seq<Food>, ids: set<int>): real {
    SumOf(PortionsIn(portions, ids), JoinedKcalOver(foods))
  }

  /** The four slot totals and the floored remainder, for a day that has meal logs. */
  function MealSummary(tdee: real, dayLogs: seq<MealLog>, mealFoods: seq<MealFood>, foods: seq<Food>): (r: Summary)
    ensures r.remain >= 0.0
    ensures r.remain >= tdee - Eaten(r)
    ensures r.remain == 0.0 || r.remain == tdee - Eaten(r)
  {
    var portions := PortionsIn(mealFoods, MealIds(dayLogs));
    var breakfast := SlotKcal(portions, foods, SlotIds(dayLogs, Breakfast));
    var lunch := SlotKcal(portions, foods, SlotIds(dayLogs, Lunch));
    var dinner := SlotKcal(portions, foods, SlotIds(dayLogs, Dinner));
    var snack := SlotKcal(portions, foods, SlotIds(dayLogs, Snack));
    var remain := tdee - (breakfast + lunch + dinner + snack);
    Summary(if remain < 0.0 then 0.0 else remain, breakfast, lunch, dinner, snack)
  }

  /**
    `GetDailyCalorie`: BadRequest for an unparsable date (`date` is `None`),
    NotFound for an unknown user; with no meal log that day every slot is 0 and
    the remainder is the TDEE itself, which may be negative; otherwise the
    remainder is TDEE minus the slots' total, floored at 0.
  */
  function GetDailyCalorie(users: seq<User>, weightLogs: seq<WeightLog>, exercises: seq<ExerciseLog>,
                           mealLogs: seq<MealLog>, mealFoods: seq<MealFood>, foods: seq<Food>,
                           userId: int, date: Option<Ticks>): (r: Response<Summary>)
    ensures r.BadRequest? <==> date.None?
    ensures r.NotFound? <==> date.Some? && FindUser(users, userId).None?
    ensures r.Ok? && DayMealLogs(mealLogs, userId, date.value) == [] ==>
              r.value == Summary(DailyTdee(FindUser(users, userId).value, weightLogs, exercises, date.value),
                                 0.0, 0.0, 0.0, 0.0)
    ensures r.Ok? && DayMealLogs(mealLogs, userId, date.value) != [] ==>
              var tdee := DailyTdee(FindUser(users, userId).value, weightLogs, exercises, date.value);
              var dayLogs := DayMealLogs(mealLogs, userId, date.value);
              var portions := PortionsIn(mealFoods, MealIds(dayLogs));
              && r.value.breakfast == SlotKcal(portions, foods, SlotIds(dayLogs, Breakfast))
              && r.value.lunch == SlotKcal(portions, foods, SlotIds(dayLogs, Lunch))
              && r.value.dinner == SlotKcal(portions, foods, SlotIds(dayLogs, Dinner))
              && r.value.snack == SlotKcal(portions, foods, SlotIds(dayLogs, Snack))
              && r.value.remain >= 0.0
              && (tdee >= Eaten(r.value) ==> r.value.remain == tdee - Eaten(r.value))
              && (tdee <= Eaten(r.value) ==> r.value.remain == 0.0)
  {
    match date
    case None => BadRequest
    case Some(day) =>
      match FindUser(users, userId)
      case None => NotFound
      case Some(user) =>
        var tdee := DailyTdee(user, weightLogs, exercises, day);
        var dayLogs := DayMealLogs(mealLogs, userId, day);
        if dayLogs == [] then Ok(Summary(tdee, 0.0, 0.0, 0.0, 0.0))
        else Ok(MealSummary(tdee, dayLogs, mealFoods, foods))
  }

  /** Adding an exercise log adds its calories when it is the user's on that day, a null entry adding 0. */
  lemma ExerciseKcalAppend(exercises: seq<ExerciseLog>, e: ExerciseLog, userId: int, day: Ticks)
    ensures ExerciseKcal(exercises + [e], userId, day)
         == ExerciseKcal(exercises, userId, day)
            + (if e.userId == userId && SameDay(e.date, day) then e.totalCalories.GetOr(0.0) else 0.0)
  {
    FilterAppend(exercises, e, ExerciseOn(userId, day));
    if ExerciseOn(userId, day)(e) {
      assert DayExercises(exercises + [e], userId, day) == DayExercises(exercises, userId, day) + [e];
      SumOfAppend(DayExercises(exercises, userId, day), e, ExerciseCalories);
    } else {
      assert DayExercises(exercises + [e], userId, day) == DayExercises(exercises, userId, day);
    }
  }

  /** Adding a portion adds its joined kcal to a slot exactly when its meal is in the slot. */
  lemma SlotKcalAppend(portions: seq<MealFood>, p: MealFood, foods: seq<Food>, ids: set<int>)
    ensures SlotKcal(portions + [p], foods, ids)
         == SlotKcal(portions, foods, ids) + (if p.mealId in ids then JoinedKcal(p, foods) else 0.0)
  {
    FilterAppend(portions, p, InMeals(ids));
    if p.mealId in ids {
      assert PortionsIn(portions + [p], ids) == PortionsIn(portions, ids) + [p];
      SumOfAppend(PortionsIn(portions, ids), p, JoinedKcalOver(foods));
    } else {
      assert PortionsIn(portions + [p], ids) == PortionsIn(portions, ids);
    }
  }

  /** The kcal of two disjoint sets of meals add up. */
  lemma {:induction false} SlotKcalDisjointUnion(portions: seq<MealFood>, foods: seq<Food>, a: set<int>, b: set<int>)
    requires a !! b
    ensures SlotKcal(portions, foods, a + b) == SlotKcal(portions, foods, a) + SlotKcal(portions, foods, b)
    decreases |portions|
  {
    if portions != [] {
      SlotKcalDisjointUnion(portions[1..], foods, a, b);
      assert PortionsIn(portions, a) == (if portions[0].mealId in a then [portions[0]] else []) + PortionsIn(portions[1..], a);
      assert PortionsIn(portions, b) == (if portions[0].mealId in b then [portions[0]] else []) + PortionsIn(portions[1..], b);
      assert PortionsIn(portions, a + b) == (if portions[0].mealId in a + b then [portions[0]] else []) + PortionsIn(portions[1..], a + b);
    }
  }

  /** Meal ids are the store's primary key. */
  predicate UniqueMealIds(mealLogs: seq<MealLog>) {
    forall i, j :: 0 <= i < j < |mealLogs| ==> mealLogs[i].mealId != mealLogs[j].mealId
  }

  /**
    The day's intake counts every portion of a breakfast, lunch, dinner or snack
    meal and none of an "other" meal.
  */
  lemma EatenExcludesOther(users: seq<User>, weightLogs: seq<WeightLog>, exercises: seq<ExerciseLog>,
                           mealLogs: seq<MealLog>, mealFoods: seq<MealFood>, foods: seq<Food>,
                           userId: int, day: Ticks)
    requires UniqueMealIds(mealLogs)
    requires FindUser(users, userId).Some?
    requires DayMealLogs(mealLogs, userId, day) != []
    ensures var dayLogs := DayMealLogs(mealLogs, userId, day);
            var r := GetDailyCalorie(users, weightLogs, exercises, mealLogs, mealFoods, foods, userId, Some(day));
            Eaten(r.value) == SlotKcal(PortionsIn(mealFoods, MealIds(dayLogs)), foods, ReportedIds(dayLogs))
  {
    var dayLogs := DayMealLogs(mealLogs, userId, day);
    var portions := PortionsIn(mealFoods, MealIds(dayLogs));
    var b, l, d, s := SlotIds(dayLogs, Breakfast), SlotIds(dayLogs, Lunch), SlotIds(dayLogs, Dinner), SlotIds(dayLogs, Snack);
    forall m1, m2 | m1 in dayLogs && m2 in dayLogs && m1.mealType != m2.mealType
      ensures m1.mealId != m2.mealId
    {
      var i :| 0 <= i < |mealLogs| && mealLogs[i] == m1;
      var j :| 0 <= j < |mealLogs| && mealLogs[j] == m2;
      assert i != j;
    }
    SlotKcalDisjointUnion(portions, foods, b, l);
    SlotKcalDisjointUnion(portions, foods, b + l, d);
    SlotKcalDisjointUnion(portions, foods, b + l + d, s);
    assert b + l + d + s == ReportedIds(dayLogs);
  }

  /**
    Over a food table keyed by id, a portion's joined kcal is the per-item
    calorie the meal listing shows: `calories * amount / 100`, or 0 when the food
    is missing.
  */
  lemma {:induction false} JoinedKcalIsItemKcal(p: MealFood, foods: seq<Food>)
    requires UniqueFoodIds(foods)
    ensures JoinedKcal(p, foods) == ItemKcal(FindFood(foods, p.foodId), p.amount)
    decreases |foods|
  {
    if foods != [] {
      var rest := foods[1..];
      assert UniqueFoodIds(rest) by {
        forall i, j | 0 <= i < j < |rest| ensures rest[i].foodId != rest[j].foodId {
          assert rest[i] == foods[i + 1] && rest[j] == foods[j + 1];
        }
      }
      var matches := (f: Food) => f.foodId == p.foodId;
      var kcal := (f: Food) => f.calories * p.amount / 100.0;
      if foods[0].foodId == p.foodId {
        forall f | f in rest ensures !matches(f) {
          var j :| 0 <= j < |rest| && rest[j] == f;
          assert foods[j + 1] == f;
        }
        SumOfEmptyFilter(rest, kcal, matches);
        assert Filter(foods, matches) == [foods[0]] + Filter(rest, matches);
      } else {
        JoinedKcalIsItemKcal(p, rest);
        assert Filter(foods, matches) == Filter(rest, matches);
        assert FindFood(foods, p.foodId) == FindFood(rest, p.foodId);
      }
    }
  }

  /** Without a meal log the remainder is the raw TDEE: a frail 100-year-old with no measurements gets a negative one. */
  lemma RemainCanBeNegativeWithoutMeals()
    ensures var user := User(1, "F", Some(100), None, None);
            var r := GetDailyCalorie([user], [], [], [], [], [], 1, Some(0));
            r.Ok? && r.value.remain < 0.0
  {
    var user := User(1, "F", Some(100), None, None);
    assert FindUser([user], 1) == Some(user);
    assert DayWeight(user, [], 0) == 0.0;
    assert ExerciseKcal([], 1, 0) == 0.0;
  }

  /**
    The body summary and the daily balance agree: for the same user and day,
    the BMR the summary reports is the one the balance starts from.
  */
  lemma BodyInfoAgreesWithDailyBmr(users: seq<User>, weightLogs: seq<WeightLog>, userId: int, day: Ticks)
    requires FindUser(users, userId).Some?
    ensures GetBodyInfo(users, weightLogs, userId, day).Ok?
    ensures GetBodyInfo(users, weightLogs, userId, day).value.bmr == DailyBmr(FindUser(users, userId).value, weightLogs, day)
  {
  }
}
