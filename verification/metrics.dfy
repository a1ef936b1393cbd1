/**
  The body-metric formulas shared by the weight-log actions: BMI, the
  Deurenberg-style body-fat estimate and the Mifflin-St Jeor basal metabolic rate.
*/
module Metrics {

  import opened Wrappers

  /** The age assumed when a profile has none. */
  const DefaultAge: int := 25

  /** The fixed activity multiplier turning BMR into daily expenditure. */
  const ActivityFactor: real := 1.2

  /** `user.Age ?? 25`. */
  function AgeOrDefault(age: Option<int>): int {
    age.GetOr(DefaultAge)
  }

  /**
    Body-mass index from kilograms and centimetres; 0 stands for "unavailable"
    when the height is not positive.
  */
  function Bmi(weight: real, heightCm: real): (r: real)
    ensures heightCm <= 0.0 ==> r == 0.0
    ensures heightCm > 0.0 ==> r * (heightCm / 100.0) * (heightCm / 100.0) == weight
  {
    var heightM := heightCm / 100.0;
    if heightM > 0.0 then weight / (heightM * heightM) else 0.0
  }

  /** The body-fat percentage estimated from BMI, age (default 25) and sex. */
  function BodyFat(bmi: real, age: Option<int>, gender: string): real {
    var a := AgeOrDefault(age) as real;
    if gender == "M" then 1.2 * bmi + 0.23 * a - 5.4 - 10.8 * 1.0
    else 1.2 * bmi + 0.23 * a - 5.4
  }

  /** The smallest and one past the largest 32-bit `int`. */
  const Int32Min: int := -0x8000_0000
  const Int32Bound: int := 0x8000_0000

  /** Unchecked 32-bit `int` arithmetic: the value wrapped into the `int` range. */
  function WrapInt32(x: int): (r: int)
    ensures Int32Min <= r < Int32Bound
    ensures (r - x) % 0x1_0000_0000 == 0
    ensures Int32Min <= x < Int32Bound ==> r == x
  {
    (x - Int32Min) % 0x1_0000_0000 + Int32Min
  }

  /**
    The basal metabolic rate in kcal/day from kilograms, centimetres and years.
    The age term `5 * age` is an `int` product, so it wraps before it is
    converted to `double`.
  */
  function Bmr(weight: real, heightCm: real, age: int, gender: string): real {
    var ageTerm := WrapInt32(5 * age) as real;
    if gender == "M" then 10.0 * weight + 6.25 * heightCm - ageTerm + 5.0
    else 10.0 * weight + 6.25 * heightCm - ageTerm - 161.0
  }

  /** For equal BMI and age a man's estimate is a woman's minus 10.8 points. */
  lemma BodyFatSexOffset(bmi: real, age: Option<int>, other: string)
    requires other != "M"
    ensures BodyFat(bmi, age, "M") == BodyFat(bmi, age, other) - 10.8
  {
  }

  /** A missing age is estimated exactly as age 25. */
  lemma BodyFatAgeDefault(bmi: real, gender: string)
    ensures BodyFat(bmi, None, gender) == BodyFat(bmi, Some(25), gender)
  {
  }

  /** The estimate rises by 1.2 points per BMI point and 0.23 per year. */
  lemma BodyFatSlopes(bmi: real, db: real, age: int, gender: string)
    ensures BodyFat(bmi + db, Some(age + 1), gender) == BodyFat(bmi, Some(age), gender) + 1.2 * db + 0.23
  {
  }

  /**
    A body-fat anchor: BMI 22.86 at age 30 gives 1.2 * 22.86 + 0.23 * 30 - 5.4 = 28.932
    points for a woman and 10.8 fewer, 18.132, for a man.
  */
  lemma BodyFatExample()
    ensures BodyFat(22.86, Some(30), "F") == 28.932
    ensures BodyFat(22.86, Some(30), "M") == 18.132
  {
  }

  /** For identical measurements a man's BMR exceeds a woman's by 166 kcal. */
  lemma BmrSexOffset(weight: real, heightCm: real, age: int, other: string)
    requires other != "M"
    ensures Bmr(weight, heightCm, age, "M") - Bmr(weight, heightCm, age, other) == 166.0
  {
  }

  /** The ages whose `5 * age` fits in an `int`. */
  predicate AgeTermFits(age: int) {
    -429_496_729 <= age <= 429_496_729
  }

  /**
    BMR is linear: 10 kcal per kg, 6.25 per cm, minus 5 per year, as long as
    both ages keep `5 * age` inside the `int` range.
  */
  lemma BmrSlopes(weight: real, dw: real, heightCm: real, dh: real, age: int, da: int, gender: string)
    requires AgeTermFits(age) && AgeTermFits(age + da)
    ensures Bmr(weight + dw, heightCm + dh, age + da, gender)
         == Bmr(weight, heightCm, age, gender) + 10.0 * dw + 6.25 * dh - 5.0 * da as real
  {
  }

  /** The Mifflin-St Jeor anchor: a 25-year-old man of 70 kg and 175 cm burns 1673.75 kcal. */
  lemma BmrExample()
    ensures Bmr(70.0, 175.0, 25, "M") == 1673.75
  {
  }

  /**
    Past the `int` range the age term wraps: at age 500,000,000 the product
    `5 * age` is -1,794,967,296, so a man of 0 kg and 0 cm gets a BMR of
    1,794,967,301 instead of the unwrapped -2,499,999,995.
  */
  lemma BmrAgeTermWraps()
    ensures !AgeTermFits(500_000_000)
    ensures Bmr(0.0, 0.0, 500_000_000, "M") == 1_794_967_301.0
  {
  }
}
