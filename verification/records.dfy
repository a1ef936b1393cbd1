/**
  The entity records the controllers read and write, as immutable values, and
  the store lookups shared between controllers.
*/
module Records {

  import opened Wrappers
  import opened DateTimes
  import opened Seqs

  /** A registered user's profile; every body measurement is optional. */
  datatype User = User(
    userId: int,
    gender: string,          // "M" selects the male formulas; anything else the female ones
    age: Option<int>,
    height: Option<real>,    // centimetres
    initialWeight: Option<real>)

  datatype WeightLog = WeightLog(
    logId: int,
    userId: int,
    date: Ticks,
    timeOfDay: Option<string>,
    weight: real,            // kilograms
    bodyFat: Option<real>)   // percent

  datatype ExerciseLog = ExerciseLog(userId: int, date: Ticks, totalCalories: Option<real>)

  /** The five meal-type tags a meal log is stored with. */
  datatype Slot = Breakfast | Lunch | Dinner | Snack | Other

  datatype MealLog = MealLog(mealId: int, userId: int, date: Ticks, mealType: Slot)

  /** One portion of a meal: `amount` grams of the food `foodId`. */
  datatype MealFood = MealFood(mealFoodId: int, mealId: int, foodId: int, amount: real)

  /** A reference food; `calories`, `carbs`, `protein` and `fat` are per 100 g. */
  datatype Food = Food(
    foodId: int,
    name: string,
    category: string,
    calories: real,
    carbs: real,
    protein: real,
    fat: real)

  datatype WaterLog = WaterLog(
    waterId: int,
    userId: int,
    date: Ticks,
    time: Option<int>,       // a TimeSpan, in ticks
    waterType: string,
    amount: real)            // millilitres

  /** `Users.FirstOrDefault(u => u.UserId == id)`. */
  function FindUser(users: seq<User>, id: int): (r: Option<User>)
    ensures r.Some? ==> r.value in users && r.value.userId == id
    ensures r.None? <==> forall u :: u in users ==> u.userId != id
  {
    First(users, (u: User) => u.userId == id)
  }

  /** `Foods.FirstOrDefault(x => x.FoodId == id)`. */
  function FindFood(foods: seq<Food>, id: int): (r: Option<Food>)
    ensures r.Some? ==> r.value in foods && r.value.foodId == id
    ensures r.None? <==> forall f :: f in foods ==> f.foodId != id
  {
    First(foods, (f: Food) => f.foodId == id)
  }

  /** Food ids are the food table's primary key. */
  predicate UniqueFoodIds(foods: seq<Food>) {
    forall i, j :: 0 <= i < j < |foods| ==> foods[i].foodId != foods[j].foodId
  }

  /** A `Where` over a table keyed by food id keeps the ids distinct. */
  lemma {:induction false} FilterKeepsUniqueFoodIds(foods: seq<Food>, p: Food -> bool)
    requires UniqueFoodIds(foods)
    ensures UniqueFoodIds(Filter(foods, p))
    decreases |foods|
  {
    if foods != [] {
      var rest := foods[1..];
      assert foods == [foods[0]] + rest;
      assert UniqueFoodIds(rest) by {
        forall i, j | 0 <= i < j < |rest| ensures rest[i].foodId != rest[j].foodId {
          assert rest[i] == foods[i + 1] && rest[j] == foods[j + 1];
        }
      }
      FilterKeepsUniqueFoodIds(rest, p);
      if p(foods[0]) {
        var kept := Filter(rest, p);
        var r := [foods[0]] + kept;
        assert Filter(foods, p) == r;
        forall j | 0 <= j < |kept| ensures kept[j].foodId != foods[0].foodId {
          assert kept[j] in rest;
          var k :| 0 <= k < |rest| && rest[k] == kept[j];
          assert foods[k + 1] == kept[j];
        }
        forall i, j | 0 <= i < j < |r| ensures r[i].foodId != r[j].foodId {
          if i > 0 {
            assert r[i] == kept[i - 1] && r[j] == kept[j - 1];
          } else {
            assert r[j] == kept[j - 1];
          }
        }
      } else {
        assert Filter(foods, p) == Filter(rest, p);
      }
    }
  }

  /** The energy of `amount` grams of a food given per 100 g; a missing food gives 0. */
  function ItemKcal(food: Option<Food>, amount: real): (r: real)
    ensures food.None? ==> r == 0.0
    ensures food.Some? ==> r * 100.0 == food.value.calories * amount
  {
    match food
    case None => 0.0
    case Some(f) => f.calories * amount / 100.0
  }

  /**
    The range filter of the meal and water listings: it applies only for mode
    "week" or "month" with both bounds given, and then keeps dates inside the
    inclusive range; in every other case every date passes.
  */
  predicate InModeRange(date: Ticks, mode: string, start: Option<Ticks>, end: Option<Ticks>) {
    if (mode == "week" || mode == "month") && start.Some? && end.Some? then start.value <= date <= end.value
    else true
  }
}
