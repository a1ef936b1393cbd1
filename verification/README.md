# HealthyApi — a Dafny model of the tracking controllers

HealthyApi is an ASP.NET Core backend for a diet and fitness tracker. Users log
weights, meals (portions of catalogue foods), drinks and exercise. The API reports
a body summary (BMI, BMR, body fat) and a daily energy balance.

This project models the logic inside four controllers. Each store (users, weight
logs, exercise logs, meal logs, meal portions, foods, water logs) is an immutable
sequence of records. Each action is a pure function from the stores and the
request to a response tag and, for writes, the new store. The modules are:

- `Wrappers`: `Option`, as used for nullable values and `??`; the `Ok`/`NotFound`/`BadRequest` response tags, with `Response<()>` for the actions that change the store.
- `DateTimes`: a `DateTime` as its .NET tick count.
  - `Midnight` is `DateTime.Date`.
  - `SameDay` is equality of the `"yyyy-MM-dd"` renderings.
  - The controllers use both comparisons, and the lemmas relate them.
- `Seqs`, `Sorting`, `Grouping`: the LINQ operators the controllers rely on.
  - `Where` and `Select`.
  - `FirstOrDefault` and `Sum`.
  - A stable `OrderBy`/`ThenBy` by a two-part rank.
  - `GroupBy`, whose groups appear in the order their keys first occur.
- `Records`: the entity records and the id lookups. It also holds the range filter that the meal and water listings share.
- `Metrics`: the BMI, body-fat and BMR formulas.
- `WeightLogs`: adding a weight with its body-fat estimate, listing weights through a date window, deleting a weight, and the body summary.
- `DailyCalorie`: `GetDailyCalorie`, the daily energy balance.
  - BMR from the day's weight.
  - TDEE is 1.2 × BMR plus the day's exercise.
  - Intake per meal slot, through the portion–food join.
  - The remaining allowance.
- `MealLogs`: recording a meal with its portions, the "today" four-slot view, the date-grouped listing, and deleting a portion (which cascades to its meal log).
- `WaterLogs`: the "today" listing in time order, the date-grouped listing, and deletion.
- `Foods`: listing a category and searching by keyword. Both start with a `string.IsNullOrWhiteSpace` short-circuit, and the search trims its keyword with .NET semantics.

Inputs that come from outside the controllers are passed in as parameters:

- The current time (`DateTime.Now`). The listing's `AddMonths(-1)` is passed as `monthAgo`.
- The ids the database assigns on insert.
- Request values already parsed into ticks. An unparsable `GetDailyCalorie` date arrives as `None`.

## Model

| member | source | states |
|---|---|---|
| DateTimes.Midnight | HealthyApi-main/Controllers/MealLogController.cs:34 | `Date` truncation gives a midnight no later than the moment, less than a day before it, on the same calendar day |
| DateTimes.MidnightEqualIffSameDay | HealthyApi-main/Controllers/WeightLogController.cs:134 | two moments truncate to the same midnight exactly when they render to the same `yyyy-MM-dd` day |
| DateTimes.DateOnlyEqualsMidnightIffSameDay | HealthyApi-main/Controllers/MealLogController.cs:89 | for a stored date with no time part, `Date == date.Value.Date` holds exactly when both are the same day |
| Records.FindUser | HealthyApi-main/Controllers/WeightLogController.cs:29-31 | the user found has the requested id and is in the store; none is found exactly when no user has that id |
| Records.FindFood | HealthyApi-main/Controllers/MealLogController.cs:98 | the food found has the requested id; none is found exactly when no food has it |
| Records.ItemKcal | HealthyApi-main/Controllers/MealLogController.cs:104 | a missing food contributes 0 kcal; otherwise the kcal times 100 equals calories per 100 g times grams |
| Records.InModeRange | HealthyApi-main/Controllers/MealLogController.cs:122-125 | no contract of its own, being the range filter shared by the meal and water listings: only week or month with both bounds restricts dates, to the inclusive range. MealLogs.UnboundedModesListAll, MealLogs.GroupedMealsShareDate and WaterLogs.GroupedWaterShareDate state it |
| Records.FilterKeepsUniqueFoodIds | HealthyApi-main/Controllers/FoodController.cs:27 | a `Where` over a food table keyed by id yields foods whose ids are still pairwise distinct |
| Metrics.Bmi | HealthyApi-main/Controllers/WeightLogController.cs:145-146 | BMI is exactly 0 when the height is not positive, and otherwise BMI × (h/100)² equals the weight |
| Metrics.BodyFat | HealthyApi-main/Controllers/WeightLogController.cs:40-44 | no contract of its own, being a closed formula. Metrics.BodyFatExample anchors its value, and Metrics.BodyFatSexOffset, Metrics.BodyFatAgeDefault and Metrics.BodyFatSlopes fix its shape |
| Metrics.BodyFatExample | HealthyApi-main/Controllers/WeightLogController.cs:41-44 | at BMI 22.86 and age 30 the estimate is 28.932 for a woman and 18.132 for a man |
| Metrics.BodyFatSexOffset | HealthyApi-main/Controllers/WeightLogController.cs:41-44 | at equal BMI and age, a man's body-fat estimate is a woman's minus 10.8 |
| Metrics.BodyFatAgeDefault | HealthyApi-main/Controllers/WeightLogController.cs:42-44 | a missing age gives the same estimate as age 25 |
| Metrics.BodyFatSlopes | HealthyApi-main/Controllers/WeightLogController.cs:42-44 | the estimate rises 1.2 per BMI point and 0.23 per year of age |
| Metrics.BmrSexOffset | HealthyApi-main/Controllers/WeightLogController.cs:149-153 | for identical weight, height and age, male BMR minus female BMR is 166 |
| Metrics.BmrSlopes | HealthyApi-main/Controllers/WeightLogController.cs:198-202 | BMR rises 10 per kg and 6.25 per cm, and falls 5 per year for ages whose `5 * age` fits in an `int` |
| Metrics.Bmr | HealthyApi-main/Controllers/WeightLogController.cs:148-153 | no contract of its own, being a closed formula whose `5 * age` term is a wrapping 32-bit `int` product. Metrics.BmrExample anchors its value, Metrics.BmrSexOffset and Metrics.BmrSlopes fix its shape, and Metrics.BmrAgeTermWraps shows the wrap |
| Metrics.WrapInt32 | HealthyApi-main/Controllers/WeightLogController.cs:184 | the result lies in the 32-bit `int` range, differs from the exact value by a multiple of 2^32, and equals it when it already fits |
| Metrics.BmrAgeTermWraps | HealthyApi-main/Controllers/WeightLogController.cs:151 | at age 500,000,000 the age term wraps to -1,794,967,296, so a man of 0 kg and 0 cm gets a BMR of 1,794,967,301 |
| Metrics.BmrExample | HealthyApi-main/Controllers/WeightLogController.cs:150-151 | a 25-year-old man of 70 kg and 175 cm has a BMR of 1673.75 |
| WeightLogs.WithBodyFat | HealthyApi-main/Controllers/WeightLogController.cs:34-47 | only the body fat may change. When the height is present and positive it becomes the estimate for the user's BMI, age and sex; otherwise the log is left exactly as supplied |
| WeightLogs.AddWeightLog | HealthyApi-main/Controllers/WeightLogController.cs:20-53 | NotFound exactly for an unknown user, with the store unchanged. Otherwise the store grows by one log at the end, with the new id, the supplied weight and time, the default date replaced by now, and the body-fat rule applied |
| WeightLogs.LatestOnDay | HealthyApi-main/Controllers/WeightLogController.cs:133-136 | none exactly when the user has no log rendering to that day; otherwise a log of that day whose id is not below any other log of the day |
| WeightLogs.DayWeight | HealthyApi-main/Controllers/WeightLogController.cs:126-142 | with no log that day, the weight is the initial weight (0 if absent); otherwise it is the weight of a same-day log with the greatest id |
| WeightLogs.GetBodyInfo | HealthyApi-main/Controllers/WeightLogController.cs:119-164 | NotFound exactly for an unknown user and never BadRequest. Otherwise: the height is the profile's (0 if absent); the weight is the day's weight; BMI and BMR are computed from them with age 25 by default; when the day has logs, weight and body fat both come from one same-day log whose id is the greatest of that day's; with no log that day the weight is the initial weight (0 if absent) and the body fat is absent |
| WeightLogs.GetWeightLogs | HealthyApi-main/Controllers/WeightLogController.cs:82-92 | the rows run from newest to oldest date and are, as a multiset, the rows of the user's logs inside the window |
| WeightLogs.InWindow | HealthyApi-main/Controllers/WeightLogController.cs:66-80 | no contract of its own, being the listing's date window. WeightLogs.RangeOverridesMode, WeightLogs.OtherModesDoNotFilter and WeightLogs.RollingWindowsHaveNoUpperBound state its cases |
| WeightLogs.ListingMembership | HealthyApi-main/Controllers/WeightLogController.cs:63-80 | a row is listed exactly when it is the row of one of the user's logs inside the window |
| WeightLogs.RangeOverridesMode | HealthyApi-main/Controllers/WeightLogController.cs:66-71 | when both bounds are given, the listing does not depend on the mode |
| WeightLogs.OtherModesDoNotFilter | HealthyApi-main/Controllers/WeightLogController.cs:72-80 | without both bounds, any mode other than week or month selects every log of the user |
| WeightLogs.RollingWindowsHaveNoUpperBound | HealthyApi-main/Controllers/WeightLogController.cs:72-79 | without both bounds, week and month set only a lower bound, so any later date also passes |
| WeightLogs.DeleteWeightLog | HealthyApi-main/Controllers/WeightLogController.cs:100-112 | NotFound, with the store unchanged, exactly when no log matches both id and user; otherwise exactly one matching log is removed and the rest keep their order |
| WeightLogs.AddThenDeleteWeightLog | HealthyApi-main/Controllers/WeightLogController.cs:100-112 | deleting a freshly added log by its new, unused id restores the store |
| DailyCalorie.MealSummary | HealthyApi-main/Controllers/WeightLogController.cs:265-269 | the remainder is never negative, is at least TDEE minus the eaten total, and is either 0 or exactly that difference |
| DailyCalorie.GetDailyCalorie | HealthyApi-main/Controllers/WeightLogController.cs:168-279 | BadRequest exactly for an unparsable date, and NotFound exactly for a parsed date with an unknown user. With no meal that day all slots are 0 and the remainder is the unclamped TDEE. With meals, each slot is the kcal of the portions of that slot's meals, and the remainder is TDEE minus their total, floored at 0 |
| DailyCalorie.ExerciseKcalAppend | HealthyApi-main/Controllers/WeightLogController.cs:205-208 | one more exercise log adds its calories (0 when null) exactly when it is the user's and on that day |
| DailyCalorie.ExerciseKcal | HealthyApi-main/Controllers/WeightLogController.cs:205-208 | no contract of its own, being a sum. DailyCalorie.ExerciseKcalAppend states what each exercise log adds |
| DailyCalorie.Tdee | HealthyApi-main/Controllers/WeightLogController.cs:211 | no contract of its own, being a closed formula. DailyCalorie.TdeeExample anchors it |
| DailyCalorie.TdeeExample | HealthyApi-main/Controllers/WeightLogController.cs:211 | a BMR of 1673.75 with 300 kcal of exercise gives a TDEE of 2308.5 |
| DailyCalorie.SlotKcal | HealthyApi-main/Controllers/WeightLogController.cs:248-257 | no contract of its own, being a sum. DailyCalorie.SlotKcalAppend and DailyCalorie.SlotKcalDisjointUnion state how it adds up |
| DailyCalorie.SlotKcalAppend | HealthyApi-main/Controllers/WeightLogController.cs:248-257 | one more portion adds its joined kcal to a slot exactly when its meal belongs to the slot |
| DailyCalorie.SlotKcalDisjointUnion | HealthyApi-main/Controllers/WeightLogController.cs:250-257 | the kcal of two disjoint sets of meals add up |
| DailyCalorie.EatenExcludesOther | HealthyApi-main/Controllers/WeightLogController.cs:260-265 | with unique meal ids, the eaten total is the kcal of every portion of a breakfast, lunch, dinner or snack meal that day, and of no "other" meal |
| DailyCalorie.JoinedKcalIsItemKcal | HealthyApi-main/Controllers/WeightLogController.cs:234-245 | over a food table keyed by id, a portion's share of the join is the per-item kcal the meal listing shows (0 for a missing food) |
| DailyCalorie.RemainCanBeNegativeWithoutMeals | HealthyApi-main/Controllers/WeightLogController.cs:219-229 | on a day without meals the remainder is not floored: a 100-year-old woman with no measurements gets a negative one |
| DailyCalorie.BodyInfoAgreesWithDailyBmr | HealthyApi-main/Controllers/WeightLogController.cs:198-202 | for the same user and day, the body summary reports the BMR the daily balance starts from |
| MealLogs.SlotOfLabel | HealthyApi-main/Controllers/MealLogController.cs:35-42 | 早餐, 午餐, 晚餐 and 加餐 map to breakfast, lunch, dinner and snack, each exactly; every other label maps to other |
| MealLogs.SlotTagInjective | HealthyApi-main/Controllers/MealLogController.cs:35-42 | distinct slots are stored with distinct tags |
| MealLogs.StagePortions | HealthyApi-main/Controllers/MealLogController.cs:49-63 | nothing is staged exactly when some item names a missing food; otherwise there is one portion per item, in order, under the meal, with consecutive ids |
| MealLogs.AddMealRecord | HealthyApi-main/Controllers/MealLogController.cs:20-68 | NotFound exactly for an unknown user, with nothing stored. Otherwise one meal log is appended (dated at midnight of the request day, slot from the label), even when an item is invalid. BadRequest exactly when some food is missing, and then no portion is stored; otherwise every item's portion is appended |
| MealLogs.ItemOf | HealthyApi-main/Controllers/MealLogController.cs:98-104 | the item keeps the portion's id and grams. It has the food's name and calories × grams / 100, or an empty name and 0 kcal when the food is missing |
| MealLogs.ItemsOf | HealthyApi-main/Controllers/MealLogController.cs:140-150 | one item per portion of the meal, in store order |
| MealLogs.FirstOfSlot | HealthyApi-main/Controllers/MealLogController.cs:111-114 | none exactly when no log has the slot; otherwise a log of the slot with no earlier log of that slot |
| MealLogs.TodaySlotIsFirstLogOfDay | HealthyApi-main/Controllers/MealLogController.cs:86-117 | the day's logs are exactly the user's logs dated at that midnight. A slot is empty when none of them has the slot; otherwise it shows the items of the first of them, in store order, with that slot |
| MealLogs.TodayView | HealthyApi-main/Controllers/MealLogController.cs:86-117 | no contract of its own. MealLogs.TodaySlotIsFirstLogOfDay states each slot it shows, and MealLogs.OtherMealsNeverShownToday states that meals outside the four slots never change it |
| MealLogs.OtherMealsNeverShownToday | HealthyApi-main/Controllers/MealLogController.cs:109-115 | adding an "other" meal never changes the today view |
| MealLogs.UnboundedModesListAll | HealthyApi-main/Controllers/MealLogController.cs:122-125 | unless the mode is week or month with both bounds, every meal log of the user is listed |
| MealLogs.GroupedMeals | HealthyApi-main/Controllers/MealLogController.cs:128-133 | date groups in strictly descending date order, none empty, each holding exactly its date's selected logs in store order, and together exactly the selected logs as a multiset |
| MealLogs.NewestFirstKeepsStoreOrder | HealthyApi-main/Controllers/MealLogController.cs:80-81 | sorting newest date first leaves each date's meal logs in store order, the `MealId` order the query's `Include` adds |
| MealLogs.GroupedMealsShareDate | HealthyApi-main/Controllers/MealLogController.cs:132-133 | every log in a group has the group's date, belongs to the user and lies in the range |
| MealLogs.GroupedMealsCoverDates | HealthyApi-main/Controllers/MealLogController.cs:122-133 | every covered log's date has a group |
| MealLogs.GetMealRecords | HealthyApi-main/Controllers/MealLogController.cs:73-156 | the today view exactly when the mode is today and a date is given; otherwise one entry per date group, each meal shown with its slot and items |
| MealLogs.OwnerIndex | HealthyApi-main/Controllers/MealLogController.cs:163-167 | the index of a meal log with the portion's meal id, or -1 exactly when there is none |
| MealLogs.DeleteMealRecord | HealthyApi-main/Controllers/MealLogController.cs:161-187 | NotFound, with nothing changed, exactly when no portion with that id belongs to one of the user's meals. Otherwise exactly that portion is removed. Its meal log stays while the meal has a portion left, and is otherwise the one log removed |
| WaterLogs.RecordOf | HealthyApi-main/Controllers/WaterLogController.cs:97-103 | a listed drink copies the id, time, drink name and amount |
| WaterLogs.TodayWaterLogs | HealthyApi-main/Controllers/WaterLogController.cs:53-62 | the day's drinks in non-decreasing time (absent time as 0), exactly the user's logs dated at that midnight as a multiset |
| WaterLogs.TodayWaterMembership | HealthyApi-main/Controllers/WaterLogController.cs:55-57 | a log is listed for the day exactly when it is the user's and its date equals the day's midnight |
| WaterLogs.TodayNeedsMidnightDate | HealthyApi-main/Controllers/WaterLogController.cs:56 | a log whose date is not that midnight is never listed for the day |
| WaterLogs.SortedWater | HealthyApi-main/Controllers/WaterLogController.cs:89-92 | the covered drinks sorted by date descending and then time ascending, same multiset |
| WaterLogs.GroupedWater | HealthyApi-main/Controllers/WaterLogController.cs:89-105 | date groups in strictly descending date order, none empty, together holding exactly the covered drinks as a multiset |
| WaterLogs.GroupedWaterShareDate | HealthyApi-main/Controllers/WaterLogController.cs:93 | every drink in a group has the group's date, belongs to the user and lies in the range |
| WaterLogs.GroupedWaterCoverDates | HealthyApi-main/Controllers/WaterLogController.cs:79-93 | every covered drink's date has a group |
| WaterLogs.GroupedWaterInTimeOrder | HealthyApi-main/Controllers/WaterLogController.cs:91-93 | inside each group, drinks are in non-decreasing time order |
| WaterLogs.GetWaterLogs | HealthyApi-main/Controllers/WaterLogController.cs:41-109 | the day's listing exactly when the mode is today and a date is given (same rendered day, records in time order); otherwise one entry per date group with its drinks |
| WaterLogs.DeleteWaterLog | HealthyApi-main/Controllers/WaterLogController.cs:115-127 | NotFound, with the store unchanged, exactly when no log matches both id and user; otherwise exactly one matching log is removed |
| WaterLogs.DeletedWaterIsGone | HealthyApi-main/Controllers/WaterLogController.cs:117-124 | with unique ids, a successful delete leaves no log with that id and keeps every other log |
| Foods.RowOf | HealthyApi-main/Controllers/FoodController.cs:28-36 | a listed row copies id, name, calories, carbs, protein and fat unchanged |
| Foods.Trim | HealthyApi-main/Controllers/FoodController.cs:50 | the result is the infix left after removing only white space from both ends, and it neither starts nor ends with white space |
| Foods.TrimEmptyIffBlank | HealthyApi-main/Controllers/FoodController.cs:47-50 | a string trims to empty exactly when it is all white space |
| Foods.TrimRecoversCore | HealthyApi-main/Controllers/FoodController.cs:50 | trimming any white-space padding around a string without edge white space gives back exactly that string |
| Foods.TrimIdempotent | HealthyApi-main/Controllers/FoodController.cs:50 | trimming twice equals trimming once |
| Foods.TrimIgnoresPadding | HealthyApi-main/Controllers/FoodController.cs:50 | adding white space around a keyword does not change its trimmed form |
| Foods.ContainsIffOccurs | HealthyApi-main/Controllers/FoodController.cs:53 | the substring test holds exactly when the keyword occurs at some index of the name |
| Foods.GetFoodByCategory | HealthyApi-main/Controllers/FoodController.cs:21-39 | an empty list for a null or white-space category; otherwise exactly the rows of foods whose category equals it |
| Foods.SearchFood | HealthyApi-main/Controllers/FoodController.cs:45-66 | an empty list for a null or white-space keyword; otherwise exactly the rows of foods whose name contains the trimmed keyword |
| Foods.CategoryRowsDistinct | HealthyApi-main/Controllers/FoodController.cs:27-37 | over a table keyed by food id, no two rows of a category listing share an id, so no row is listed twice |
| Foods.SearchRowsDistinct | HealthyApi-main/Controllers/FoodController.cs:53-63 | over a table keyed by food id, no two rows of a search share an id, so no row is listed twice |
| Foods.SearchKeywordNonEmpty | HealthyApi-main/Controllers/FoodController.cs:47-50 | a keyword that passes the blank check is non-empty after trimming |
| Foods.SearchIgnoresSurroundingSpace | HealthyApi-main/Controllers/FoodController.cs:47-53 | searching for a keyword and for its trimmed form gives the same rows |
| Foods.SearchFindsExactName | HealthyApi-main/Controllers/FoodController.cs:50-53 | a food whose name is the trimmed keyword is always found |
| Foods.CategoryIsNotTrimmed | HealthyApi-main/Controllers/FoodController.cs:23-27 | the category is compared untrimmed: a listed food's category lists it, but the same category with white space in front lists nothing when no food carries that padded category |
| Grouping.GroupBy | HealthyApi-main/Controllers/MealLogController.cs:133 | each group holds exactly the input's elements with its key, in input order, and is non-empty |
| Grouping.GroupKeysDistinct | HealthyApi-main/Controllers/WaterLogController.cs:93 | no two groups share a key |
| Grouping.GroupingIsLossless | HealthyApi-main/Controllers/WaterLogController.cs:93 | the groups' items together are the input as a multiset |
| Grouping.GroupKeysDescending | HealthyApi-main/Controllers/MealLogController.cs:129-133 | grouping an input sorted by descending key gives strictly descending group keys |
| Grouping.GroupItemsSorted | HealthyApi-main/Controllers/WaterLogController.cs:91-93 | each group of a sorted input is sorted |
| Sorting.SortBy | HealthyApi-main/Controllers/WeightLogController.cs:83 | the output is ordered by the rank and is a permutation of the input |
| Sorting.SortIsStable | HealthyApi-main/Controllers/MealLogController.cs:128-130 | the elements of any one rank come out in their input order |
| Grouping.SortKeepsKeyOrder | HealthyApi-main/Controllers/MealLogController.cs:128-133 | sorting by a rank that tells keys apart and nothing else leaves every key's elements in input order |

## Left out

- `Math.Round` is not modelled. Every figure is the exact real value before display rounding. That covers body fat, BMI, BMR, item kcal, the slot totals and the remainder. .NET's default banker's rounding is not stated.
- Floating point: `double` is modelled as `real`, so there is no IEEE-754 rounding, infinity or NaN.
- Parsing is not modelled: `DateTime.Parse`/`TryParse`, `TimeSpan.Parse` and the `"yyyy-MM-dd"`/`"MM.dd"` output formats. Dates arrive as ticks.
  - A failed parse in `GetDailyCalorie` is the `None` date.
  - The weight listing takes an empty or missing bound as absent. Its unhandled parse exception is not modelled.
- `AddWaterLog` is not modelled. It only parses its DTO and appends one row.
- Clock, database ids and database semantics are not modelled:
  - `DateTime.Now` and `AddMonths(-1)` are parameters; calendar-month arithmetic is not modelled.
  - Database-assigned ids are parameters.
  - The stores are sequences in primary-key order.
  - EF Core's SQL translation, `SaveChangesAsync`, `Include` and async execution are not modelled.
- `ModelState` validation is not modelled. Its `BadRequest` depends on request binding outside the controllers.
- `UserController.cs`, `Program.cs` and the DTO files are not part of this model.
- MealLogs.TodayView: the source sorts the day's meals by `MealType` before taking each slot's first meal. Among meals of one slot the database order decides; with `Include(MealFoods)` Entity Framework Core adds the key `MealId` to the ordering, so the first meal of a slot is the one with the smallest id. The model takes the first in store order, which is the same when ids grow with insertion. `TodaySlotIsFirstLogOfDay` states that first-in-store-order choice.
- Sorting.SortBy: its own contract leaves stability out; `SortIsStable` states it. The meal listing orders a date's meals by `MealId`, because its `Include` makes Entity Framework Core add the key to the ordering, and `GroupedMeals` states that order as store order, which is the same when ids grow with insertion. The weight and water listings have no such key ordering, so ties there (equal dates, or equal times within a date) stay open, as they are in SQL.
- WeightLogs.GetWeightLogs: it returns ticks, not the `"MM.dd"` string.
- WaterLogs.GetWaterLogs: it returns ticks, not the `"yyyy-MM-dd"` string.
- MealLogs.GetMealRecords: it returns ticks, not the `"yyyy-MM-dd"` string.
- Meal slots: a meal log's type is the five-valued slot. `AddMealRecord` is the only writer and stores nothing else.
- DailyCalorie.GetDailyCalorie: the database inner join between portions and foods is a sum over the matching food rows. `JoinedKcalIsItemKcal` shows this equals the per-item kcal when food ids are unique.
- Foods.SearchFood: the name match is an ordinal, case-sensitive substring test, as SQLite's `instr` gives. A provider that translates to case-insensitive `LIKE` would differ.
