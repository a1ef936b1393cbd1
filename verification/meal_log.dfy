/**
  The meal-log actions: recording a meal with its portions, the "today" view by
  slot, the date-grouped listing, and deleting a portion with its meal log when
  it was the last one.
*/
module MealLogs {

  import opened Wrappers
  import opened DateTimes
  import opened Seqs
  import opened Sorting
  import opened Grouping
  import opened Records

  /** The meal logs and their portions. */
  datatype MealStore = MealStore(mealLogs: seq<MealLog>, mealFoods: seq<MealFood>)

  /** One requested portion: `grams` of the food `foodId`. */
  datatype MealItem = MealItem(foodId: int, grams: real)

  /** A request to record a meal: the slot comes as a Chinese label. */
  datatype MealRequest = MealRequest(userId: int, date: Ticks, mealType: string, items: seq<MealItem>)

  /** A portion as listed: its id, the food's name, the grams and their kcal. */
  datatype FoodItem = FoodItem(id: int, name: string, amount: real, calorie: real)

  /** The "today" view: the items of the day's first breakfast, lunch, dinner and snack. */
  datatype TodayRecords = TodayRecords(breakfast: seq<FoodItem>, lunch: seq<FoodItem>,
                                       dinner: seq<FoodItem>, snack: seq<FoodItem>)

  datatype MealView = MealView(mealType: Slot, items: seq<FoodItem>)

  /** All meals of one date. */
  datatype DayMeals = DayMeals(date: int, meals: seq<MealView>)

  datatype MealRecords = TodayMeals(records: TodayRecords) | MealDays(days: seq<DayMeals>)

  /** The meal-type tag stored for a slot. */
  function SlotTag(slot: Slot): string {
    match slot
    case Breakfast => "breakfast"
    case Lunch => "lunch"
    case Dinner => "dinner"
    case Snack => "snack"
    case Other => "other"
  }

  /** The slot a request's label selects: 早餐, 午餐, 晚餐 and 加餐 name the four meals; any other label is "other". */
  function SlotOfLabel(text: string): (r: Slot)
    ensures r == Breakfast <==> text == "早餐"
    ensures r == Lunch <==> text == "午餐"
    ensures r == Dinner <==> text == "晚餐"
    ensures r == Snack <==> text == "加餐"
    ensures r == Other <==> text !in {"早餐", "午餐", "晚餐", "加餐"}
  {
    if text == "早餐" then Breakfast
    else if text == "午餐" then Lunch
    else if text == "晚餐" then Dinner
    else if text == "加餐" then Snack
    else Other
  }

  /** Distinct slots are stored with distinct tags, so the stored tag identifies the slot. */
  lemma SlotTagInjective(a: Slot, b: Slot)
    ensures SlotTag(a) == SlotTag(b) <==> a == b
  {
  }

  /**
    The portions an `AddMealRecord` request would stage, numbered from `firstId`;
    none as soon as one item names a food that does not exist.
  */
  function StagePortions(items: seq<MealItem>, foods: seq<Food>, mealId: int, firstId: int): (r: Option<seq<MealFood>>)
    ensures r.None? <==> exists i :: 0 <= i < |items| && FindFood(foods, items[i].foodId).None?
    ensures r.Some? ==> |r.value| == |items|
    ensures r.Some? ==> forall i :: 0 <= i < |items| ==>
              r.value[i] == MealFood(firstId + i, mealId, items[i].foodId, items[i].grams)
    decreases |items|
  {
    if items == [] then Some([])
    else if FindFood(foods, items[0].foodId).None? then None
    else
      var rest := StagePortions(items[1..], foods, mealId, firstId + 1);
      assert forall i :: 1 <= i < |items| ==> items[1..][i - 1] == items[i];
      if rest.None? then None
      else Some([MealFood(firstId, mealId, items[0].foodId, items[0].grams)] + rest.value)
  }

  /**
    `AddMealRecord`: NotFound for an unknown user. Otherwise the meal log (date
    truncated to the day, slot from the label) is saved first; then an item with
    an unknown food gives BadRequest with the log kept and none of the portions,
    and otherwise every portion is saved under the new meal.
  */
  function AddMealRecord(users: seq<User>, foods: seq<Food>, store: MealStore, req: MealRequest,
                         newMealId: int, firstPortionId: int): (r: (Response<()>, MealStore))
    ensures FindUser(users, req.userId).None? <==> r.0.NotFound?
    ensures r.0.NotFound? ==> r.1 == store
    ensures !r.0.NotFound? ==>
              && |r.1.mealLogs| == |store.mealLogs| + 1
              && r.1.mealLogs[..|store.mealLogs|] == store.mealLogs
              && var created := r.1.mealLogs[|store.mealLogs|];
              && created.mealId == newMealId
              && created.userId == req.userId
              && IsDateOnly(created.date) && SameDay(created.date, req.date)
              && created.mealType == SlotOfLabel(req.mealType)
    ensures r.0.BadRequest? <==>
              FindUser(users, req.userId).Some?
              && exists i :: 0 <= i < |req.items| && FindFood(foods, req.items[i].foodId).None?
    ensures r.0.BadRequest? ==> r.1.mealFoods == store.mealFoods
    ensures r.0.Ok? ==>
              && |r.1.mealFoods| == |store.mealFoods| + |req.items|
              && r.1.mealFoods[..|store.mealFoods|] == store.mealFoods
              && forall i :: 0 <= i < |req.items| ==>
                   r.1.mealFoods[|store.mealFoods| + i]
                     == MealFood(firstPortionId + i, newMealId, req.items[i].foodId, req.items[i].grams)
  {
    if FindUser(users, req.userId).None? then (NotFound, store)
    else
      var created := MealLog(newMealId, req.userId, Midnight(req.date), SlotOfLabel(req.mealType));
      var logs := store.mealLogs + [created];
      assert logs[..|store.mealLogs|] == store.mealLogs;
      match StagePortions(req.items, foods, newMealId, firstPortionId)
      case None => (BadRequest, MealStore(logs, store.mealFoods))
      case Some(portions) =>
        assert (store.mealFoods + portions)[..|store.mealFoods|] == store.mealFoods;
        (Ok(()), MealStore(logs, store.mealFoods + portions))
  }

  /**
    A portion as listed: the food's name and `calories * amount / 100`, or an
    empty name and 0 kcal when the food is missing.
  */
  function ItemOf(p: MealFood, foods: seq<Food>): (r: FoodItem)
    ensures r.id == p.mealFoodId && r.amount == p.amount
    ensures FindFood(foods, p.foodId).None? ==> r.name == "" && r.calorie == 0.0
    ensures FindFood(foods, p.foodId).Some? ==>
              && r.name == FindFood(foods, p.foodId).value.name
              && r.calorie * 100.0 == FindFood(foods, p.foodId).value.calories * p.amount
  {
    var food := FindFood(foods, p.foodId);
    FoodItem(p.mealFoodId, if food.Some? then food.value.name else "", p.amount, ItemKcal(food, p.amount))
  }

  function ItemOver(foods: seq<Food>): MealFood -> FoodItem {
    (p: MealFood) => ItemOf(p, foods)
  }

  function OfMeal(mealId: int): MealFood -> bool {
    (p: MealFood) => p.mealId == mealId
  }

  /** `m.MealFoods`: the portions of a meal, in store order. */
  function PortionsOf(mealFoods: seq<MealFood>, mealId: int): seq<MealFood> {
    Filter(mealFoods, OfMeal(mealId))
  }

  /** The listed items of a meal. */
  function ItemsOf(m: MealLog, mealFoods: seq<MealFood>, foods: seq<Food>): (r: seq<FoodItem>)
    ensures |r| == |PortionsOf(mealFoods, m.mealId)|
    ensures forall i :: 0 <= i < |r| ==> r[i] == ItemOf(PortionsOf(mealFoods, m.mealId)[i], foods)
  {
    Map(PortionsOf(mealFoods, m.mealId), ItemOver(foods))
  }

  function LoggedAt(userId: int, day: Ticks): MealLog -> bool {
    (m: MealLog) => m.userId == userId && m.date == day
  }

  /** The user's meal logs whose date is exactly `date.Date`. */
  function TodayLogs(mealLogs: seq<MealLog>, userId: int, date: Ticks): seq<MealLog> {
    Filter(mealLogs, LoggedAt(userId, Midnight(date)))
  }

  function InSlot(slot: Slot): MealLog -> bool {
    (m: MealLog) => m.mealType == slot
  }

  /** `FirstOrDefault(x => x.MealType == slot)`: the first log of the slot, if any. */
  function FirstOfSlot(logs: seq<MealLog>, slot: Slot): (r: Option<MealLog>)
    ensures r.None? <==> forall m :: m in logs ==> m.mealType != slot
    ensures r.Some? ==> exists i :: 0 <= i < |logs| && logs[i] == r.value && r.value.mealType == slot
                                    && forall j :: 0 <= j < i ==> logs[j].mealType != slot
  {
    var k := FirstIndex(logs, InSlot(slot));
    if k == -1 then None else Some(logs[k])
  }

  /** The items of the first log of the slot, or none. */
  function SlotItems(logs: seq<MealLog>, slot: Slot, mealFoods: seq<MealFood>, foods: seq<Food>): seq<FoodItem> {
    match FirstOfSlot(logs, slot)
    case None => []
    case Some(m) => ItemsOf(m, mealFoods, foods)
  }

  /** The "today" view: for each of the four slots, the items of that slot's first log of the day. */
  function TodayView(mealLogs: seq<MealLog>, mealFoods: seq<MealFood>, foods: seq<Food>, userId: int, date: Ticks)
    : (r: TodayRecords)
  {
    var logs := TodayLogs(mealLogs, userId, date);
    TodayRecords(SlotItems(logs, Breakfast, mealFoods, foods), SlotItems(logs, Lunch, mealFoods, foods),
                 SlotItems(logs, Dinner, mealFoods, foods), SlotItems(logs, Snack, mealFoods, foods))
  }

  /**
    A slot of the "today" view is empty when the user logged no meal of that slot
    dated exactly that day; otherwise it shows the items of the first such log in
    store order.
  */
  lemma TodaySlotIsFirstLogOfDay(mealLogs: seq<MealLog>, mealFoods: seq<MealFood>, foods: seq<Food>,
                                 userId: int, date: Ticks, slot: Slot)
    requires slot != Other
    ensures forall m :: m in TodayLogs(mealLogs, userId, date) <==>
              m in mealLogs && m.userId == userId && m.date == Midnight(date)
    ensures (forall m :: m in TodayLogs(mealLogs, userId, date) ==> m.mealType != slot)
              ==> Shown(TodayView(mealLogs, mealFoods, foods, userId, date), slot) == []
    ensures var logs := TodayLogs(mealLogs, userId, date);
            (exists m :: m in logs && m.mealType == slot) ==>
              exists i :: && 0 <= i < |logs| && logs[i].mealType == slot
                          && (forall j :: 0 <= j < i ==> logs[j].mealType != slot)
                          && Shown(TodayView(mealLogs, mealFoods, foods, userId, date), slot)
                               == ItemsOf(logs[i], mealFoods, foods)
  {
    var logs := TodayLogs(mealLogs, userId, date);
    assert Shown(TodayView(mealLogs, mealFoods, foods, userId, date), slot) == SlotItems(logs, slot, mealFoods, foods);
  }

  /** The items a "today" view shows for a slot; "other" has no bucket. */
  function Shown(r: TodayRecords, slot: Slot): seq<FoodItem> {
    match slot
    case Breakfast => r.breakfast
    case Lunch => r.lunch
    case Dinner => r.dinner
    case Snack => r.snack
    case Other => []
  }

  /** An "other" meal never shows up in the "today" view, whatever its date. */
  lemma OtherMealsNeverShownToday(mealLogs: seq<MealLog>, o: MealLog, mealFoods: seq<MealFood>, foods: seq<Food>,
                                  userId: int, date: Ticks)
    requires o.mealType == Other
    ensures TodayView(mealLogs + [o], mealFoods, foods, userId, date) == TodayView(mealLogs, mealFoods, foods, userId, date)
  {
    var p := LoggedAt(userId, Midnight(date));
    FilterAppend(mealLogs, o, p);
    var before := TodayLogs(mealLogs, userId, date);
    if p(o) {
      assert TodayLogs(mealLogs + [o], userId, date) == before + [o];
      forall slot | slot != Other ensures FirstOfSlot(before + [o], slot) == FirstOfSlot(before, slot) {
        FirstIndexAppend(before, o, InSlot(slot));
      }
    } else {
      assert TodayLogs(mealLogs + [o], userId, date) == before;
    }
  }

  function MealSelected(userId: int, mode: string, start: Option<Ticks>, end: Option<Ticks>): MealLog -> bool {
    (m: MealLog) => m.userId == userId && InModeRange(m.date, mode, start, end)
  }

  /** The user's meal logs the listing covers, in store order. */
  function SelectedMeals(mealLogs: seq<MealLog>, userId: int, mode: string, start: Option<Ticks>, end: Option<Ticks>)
    : seq<MealLog>
  {
    Filter(mealLogs, MealSelected(userId, mode, start, end))
  }

  /** Outside "week"/"month" with both bounds, the listing covers every meal log of the user. */
  lemma UnboundedModesListAll(mealLogs: seq<MealLog>, userId: int, mode: string, start: Option<Ticks>, end: Option<Ticks>)
    requires !((mode == "week" || mode == "month") && start.Some? && end.Some?)
    ensures forall m :: m in SelectedMeals(mealLogs, userId, mode, start, end) <==> m in mealLogs && m.userId == userId
  {
  }

  function MealDate(m: MealLog): int {
    m.date
  }

  function NewestFirst(m: MealLog): Rank {
    Rank(-(m.date as int), 0)
  }

  /**
    Sorting newest date first keeps each date's meal logs in store order, which
    is `MealId` order: the key the query's `Include` adds to its ordering.
  */
  lemma NewestFirstKeepsStoreOrder(selected: seq<MealLog>)
    ensures forall k :: WithKey(SortBy(selected, NewestFirst), MealDate, k) == WithKey(selected, MealDate, k)
  {
    forall k ensures WithKey(SortBy(selected, NewestFirst), MealDate, k) == WithKey(selected, MealDate, k) {
      SortKeepsKeyOrder(selected, MealDate, NewestFirst, k);
    }
  }

  /**
    The listing's meal logs grouped by date: newest date first, no group empty,
    each group holding that date's selected logs in store order, and together
    exactly the selected logs.
  */
  function GroupedMeals(mealLogs: seq<MealLog>, userId: int, mode: string, start: Option<Ticks>, end: Option<Ticks>)
    : (r: seq<Group<MealLog>>)
    ensures KeysDescending(r)
    ensures forall i :: 0 <= i < |r| ==> |r[i].items| > 0
    ensures forall i :: 0 <= i < |r| ==>
              r[i].items == WithKey(SelectedMeals(mealLogs, userId, mode, start, end), MealDate, r[i].key)
    ensures multiset(Flatten(r)) == multiset(SelectedMeals(mealLogs, userId, mode, start, end))
  {
    var selected := SelectedMeals(mealLogs, userId, mode, start, end);
    var sorted := SortBy(selected, NewestFirst);
    GroupKeysDescending(sorted, MealDate, NewestFirst);
    GroupingIsLossless(sorted, MealDate);
    NewestFirstKeepsStoreOrder(selected);
    GroupBy(sorted, MealDate)
  }

  /** Each date group holds only the user's covered logs of that date. */
  lemma GroupedMealsShareDate(mealLogs: seq<MealLog>, userId: int, mode: string, start: Option<Ticks>, end: Option<Ticks>)
    ensures var r := GroupedMeals(mealLogs, userId, mode, start, end);
            forall i, m :: 0 <= i < |r| && m in r[i].items ==>
              m.date == r[i].key && m.userId == userId && InModeRange(m.date, mode, start, end)
  {
    var selected := SelectedMeals(mealLogs, userId, mode, start, end);
    var sorted := SortBy(selected, NewestFirst);
    var r := GroupedMeals(mealLogs, userId, mode, start, end);
    assert r == GroupBy(sorted, MealDate);
    GroupItemsHaveKey(sorted, MealDate);
    forall i, m | 0 <= i < |r| && m in r[i].items
      ensures m.date == r[i].key && m.userId == userId && InModeRange(m.date, mode, start, end)
    {
      assert m in sorted;
      assert m in multiset(selected);
      assert m in selected;
    }
  }

  /** Every covered log's date has a group. */
  lemma GroupedMealsCoverDates(mealLogs: seq<MealLog>, userId: int, mode: string, start: Option<Ticks>, end: Option<Ticks>)
    ensures var r := GroupedMeals(mealLogs, userId, mode, start, end);
            forall m :: m in mealLogs && m.userId == userId && InModeRange(m.date, mode, start, end) ==> HasGroup(r, m.date)
  {
    var selected := SelectedMeals(mealLogs, userId, mode, start, end);
    var sorted := SortBy(selected, NewestFirst);
    var r := GroupedMeals(mealLogs, userId, mode, start, end);
    assert r == GroupBy(sorted, MealDate);
    GroupsCoverKeys(sorted, MealDate);
    forall m | m in mealLogs && m.userId == userId && InModeRange(m.date, mode, start, end)
      ensures HasGroup(r, m.date)
    {
      assert m in selected;
      assert m in multiset(sorted);
      assert MealDate(m) == m.date;
    }
  }

  function ViewOf(mealFoods: seq<MealFood>, foods: seq<Food>): MealLog -> MealView {
    (m: MealLog) => MealView(m.mealType, ItemsOf(m, mealFoods, foods))
  }

  function DayView(mealFoods: seq<MealFood>, foods: seq<Food>): Group<MealLog> -> DayMeals {
    (g: Group<MealLog>) => DayMeals(g.key, Map(g.items, ViewOf(mealFoods, foods)))
  }

  /**
    `GetMealRecords`: the "today" view when the mode is "today" and a date is
    given, and otherwise the date groups of the covered logs, each meal shown
    with its slot and items.
  */
  function GetMealRecords(mealLogs: seq<MealLog>, mealFoods: seq<MealFood>, foods: seq<Food>, userId: int,
                          mode: string, start: Option<Ticks>, end: Option<Ticks>, date: Option<Ticks>)
    : (r: MealRecords)
    ensures r.TodayMeals? <==> mode == "today" && date.Some?
    ensures r.TodayMeals? ==> r.records == TodayView(mealLogs, mealFoods, foods, userId, date.value)
    ensures r.MealDays? ==>
              var groups := GroupedMeals(mealLogs, userId, mode, start, end);
              && |r.days| == |groups|
              && forall i :: 0 <= i < |groups| ==>
                   && r.days[i].date == groups[i].key
                   && |r.days[i].meals| == |groups[i].items|
                   && forall j :: 0 <= j < |groups[i].items| ==>
                        r.days[i].meals[j] == MealView(groups[i].items[j].mealType,
                                                       ItemsOf(groups[i].items[j], mealFoods, foods))
  {
    if mode == "today" && date.Some? then TodayMeals(TodayView(mealLogs, mealFoods, foods, userId, date.value))
    else MealDays(Map(GroupedMeals(mealLogs, userId, mode, start, end), DayView(mealFoods, foods)))
  }

  function HasMealId(mealId: int): MealLog -> bool {
    (m: MealLog) => m.mealId == mealId
  }

  /** Where `f.MealLog` sits: the index of the meal log with the portion's meal id, or -1. */
  function OwnerIndex(mealLogs: seq<MealLog>, mealId: int): (r: int)
    ensures -1 <= r < |mealLogs|
    ensures r == -1 <==> forall m :: m in mealLogs ==> m.mealId != mealId
    ensures 0 <= r ==> mealLogs[r].mealId == mealId
  {
    FirstIndex(mealLogs, HasMealId(mealId))
  }

  /** The portion's meal log exists and belongs to the user. */
  predicate OwnedBy(mealLogs: seq<MealLog>, userId: int, p: MealFood) {
    var k := OwnerIndex(mealLogs, p.mealId);
    k >= 0 && mealLogs[k].userId == userId
  }

  function Target(mealLogs: seq<MealLog>, userId: int, portionId: int): MealFood -> bool {
    (p: MealFood) => p.mealFoodId == portionId && OwnedBy(mealLogs, userId, p)
  }

  /** Some portion still belongs to the meal. */
  predicate HasPortions(mealFoods: seq<MealFood>, mealId: int) {
    Any(mealFoods, OfMeal(mealId))
  }

  /**
    `DeleteMealRecord`: NotFound, with nothing changed, unless a portion with
    that id belongs to one of the user's meals; otherwise exactly that portion
    is removed, and its meal log too when no portion is left under it.
  */
  function DeleteMealRecord(store: MealStore, userId: int, portionId: int): (r: (Response<()>, MealStore))
    ensures r.0.NotFound? <==> forall p :: p in store.mealFoods ==> !(p.mealFoodId == portionId && OwnedBy(store.mealLogs, userId, p))
    ensures r.0.NotFound? ==> r.1 == store
    ensures !r.0.NotFound? ==> r.0.Ok?
    ensures r.0.Ok? ==>
              exists i :: 0 <= i < |store.mealFoods|
                && store.mealFoods[i].mealFoodId == portionId
                && OwnedBy(store.mealLogs, userId, store.mealFoods[i])
                && r.1.mealFoods == store.mealFoods[..i] + store.mealFoods[i + 1..]
                && MealCascade(store.mealLogs, r.1.mealLogs, r.1.mealFoods, store.mealFoods[i].mealId)
  {
    var k := FirstIndex(store.mealFoods, Target(store.mealLogs, userId, portionId));
    if k == -1 then (NotFound, store)
    else
      var portion := store.mealFoods[k];
      var mealFoods' := store.mealFoods[..k] + store.mealFoods[k + 1..];
      var owner := OwnerIndex(store.mealLogs, portion.mealId);
      var logs' := if HasPortions(mealFoods', portion.mealId) then store.mealLogs
                   else store.mealLogs[..owner] + store.mealLogs[owner + 1..];
      assert MealCascade(store.mealLogs, logs', mealFoods', portion.mealId);
      assert portion.mealFoodId == portionId && OwnedBy(store.mealLogs, userId, portion);
      (Ok(()), MealStore(logs', mealFoods'))
  }

  /**
    The meal logs after a portion of meal `mealId` is removed: unchanged while
    the meal still has a portion, and otherwise without exactly that meal's log.
  */
  predicate MealCascade(before: seq<MealLog>, after: seq<MealLog>, remaining: seq<MealFood>, mealId: int) {
    && (HasPortions(remaining, mealId) ==> after == before)
    && (!HasPortions(remaining, mealId) ==>
          exists j :: 0 <= j < |before| && before[j].mealId == mealId && after == before[..j] + before[j + 1..])
  }
}
