/**
  The food catalogue queries: listing a category and searching names for a
  keyword, both answering an empty list for a blank query.
*/
module Foods {

  import opened Wrappers
  import opened Seqs
  import opened Records

  /** A food as listed: everything but its category. */
  datatype FoodRow = FoodRow(foodId: int, name: string, calories: real, carbs: real, protein: real, fat: real)

  function RowOf(f: Food): (r: FoodRow)
    ensures r.foodId == f.foodId && r.name == f.name && r.calories == f.calories
    ensures r.carbs == f.carbs && r.protein == f.protein && r.fat == f.fat
  {
    FoodRow(f.foodId, f.name, f.calories, f.carbs, f.protein, f.fat)
  }

  /**
    .NET's `char.IsWhiteSpace`: the ASCII controls TAB through CR, SPACE, NEL,
    NO-BREAK SPACE, and the Unicode space, line and paragraph separators.
  */
  predicate IsWhiteSpace(c: char) {
    || '\U{9}' <= c <= '\U{D}'
    || c == ' '
    || c == '\U{85}'
    || c == '\U{A0}'
    || c == '\U{1680}'
    || '\U{2000}' <= c <= '\U{200A}'
    || c == '\U{2028}'
    || c == '\U{2029}'
    || c == '\U{202F}'
    || c == '\U{205F}'
    || c == '\U{3000}'
  }

  predicate AllWhiteSpace(s: string) {
    forall i :: 0 <= i < |s| ==> IsWhiteSpace(s[i])
  }

  /** `string.IsNullOrWhiteSpace`: an absent query parameter, or one of white space only. */
  predicate IsNullOrWhiteSpace(s: Option<string>) {
    s.None? || AllWhiteSpace(s.value)
  }

  lemma AllWhiteSpaceConcat(x: string, y: string)
    requires AllWhiteSpace(x) && AllWhiteSpace(y)
    ensures AllWhiteSpace(x + y)
  {
    forall i | 0 <= i < |x + y| ensures IsWhiteSpace((x + y)[i]) {
      if i < |x| { assert (x + y)[i] == x[i]; } else { assert (x + y)[i] == y[i - |x|]; }
    }
  }

  /** The number of leading white-space characters. */
  function LeadingSpace(s: string): (k: nat)
    ensures k <= |s|
    ensures AllWhiteSpace(s[..k])
    ensures k < |s| ==> !IsWhiteSpace(s[k])
    decreases |s|
  {
    if s != [] && IsWhiteSpace(s[0]) then
      var k := 1 + LeadingSpace(s[1..]);
      assert forall i :: 1 <= i < k ==> s[..k][i] == s[1..][..k - 1][i - 1];
      k
    else 0
  }

  /** The length of `s` without its trailing white space. */
  function TrailingStart(s: string): (e: nat)
    ensures e <= |s|
    ensures AllWhiteSpace(s[e..])
    ensures e > 0 ==> !IsWhiteSpace(s[e - 1])
    decreases |s|
  {
    if s != [] && IsWhiteSpace(s[|s| - 1]) then
      var e := TrailingStart(s[..|s| - 1]);
      assert s[e..] == s[..|s| - 1][e..] + [s[|s| - 1]];
      AllWhiteSpaceConcat(s[..|s| - 1][e..], [s[|s| - 1]]);
      e
    else |s|
  }

  /**
    `string.Trim()`: the part of `s` between its leading and trailing white
    space, which neither starts nor ends with white space.
  */
  function Trim(s: string): (r: string)
    ensures r == [] || (!IsWhiteSpace(r[0]) && !IsWhiteSpace(r[|r| - 1]))
    ensures exists a, b :: 0 <= a <= b <= |s| && r == s[a..b] && AllWhiteSpace(s[..a]) && AllWhiteSpace(s[b..])
  {
    var a := LeadingSpace(s);
    var t := s[a..];
    var e := TrailingStart(t);
    assert t[..e] == s[a..a + e];
    assert s[a + e..] == t[e..];
    t[..e]
  }

  /** A string trims to nothing exactly when it is all white space. */
  lemma TrimEmptyIffBlank(s: string)
    ensures Trim(s) == [] <==> AllWhiteSpace(s)
  {
    var t := Trim(s);
    var a, b :| 0 <= a <= b <= |s| && t == s[a..b] && AllWhiteSpace(s[..a]) && AllWhiteSpace(s[b..]);
    if t == [] {
      assert a == b;
      forall i | 0 <= i < |s| ensures IsWhiteSpace(s[i]) {
        if i < a {
          assert s[..a][i] == s[i];
        } else {
          assert s[b..][i - b] == s[i];
        }
      }
    } else {
      assert s[a] == t[0] && !IsWhiteSpace(t[0]);
    }
  }

  /**
    The trimmed core is unique: whatever white space surrounds a string that
    neither starts nor ends with white space, trimming recovers exactly it.
  */
  lemma {:induction false} TrimRecoversCore(pre: string, core: string, post: string)
    requires AllWhiteSpace(pre) && AllWhiteSpace(post)
    requires core == [] || (!IsWhiteSpace(core[0]) && !IsWhiteSpace(core[|core| - 1]))
    ensures Trim(pre + core + post) == core
  {
    var s := pre + core + post;
    if core == [] {
      assert s == pre + post;
      assert AllWhiteSpace(s) by {
        forall i | 0 <= i < |s| ensures IsWhiteSpace(s[i]) {
          if i < |pre| { assert s[i] == pre[i]; } else { assert s[i] == post[i - |pre|]; }
        }
      }
      TrimEmptyIffBlank(s);
    } else {
      var a := LeadingSpace(s);
      assert s[|pre|] == core[0];
      assert a == |pre|;
      var t := s[a..];
      assert t == core + post;
      var e := TrailingStart(t);
      assert t[|core| - 1] == core[|core| - 1];
      assert e == |core|;
      assert t[..e] == core;
    }
  }

  /** Trimming twice is trimming once. */
  lemma TrimIdempotent(s: string)
    ensures Trim(Trim(s)) == Trim(s)
  {
    var r := Trim(s);
    assert [] + r + [] == r;
    TrimRecoversCore([], r, []);
  }

  /** White space added around a query does not change its trimmed form. */
  lemma TrimIgnoresPadding(pre: string, s: string, post: string)
    requires AllWhiteSpace(pre) && AllWhiteSpace(post)
    ensures Trim(pre + s + post) == Trim(s)
  {
    var a, b :| 0 <= a <= b <= |s| && Trim(s) == s[a..b] && AllWhiteSpace(s[..a]) && AllWhiteSpace(s[b..]);
    var p := pre + s[..a];
    var q := s[b..] + post;
    calc {
      pre + s + post;
      { assert s == s[..a] + s[a..b] + s[b..]; }
      pre + (s[..a] + s[a..b] + s[b..]) + post;
      p + s[a..b] + q;
    }
    AllWhiteSpaceConcat(pre, s[..a]);
    AllWhiteSpaceConcat(s[b..], post);
    TrimRecoversCore(p, Trim(s), q);
  }

  /** `pat` occurs in `text` starting at index `i`. */
  predicate OccursAt(text: string, pat: string, i: int) {
    0 <= i && i + |pat| <= |text| && text[i..i + |pat|] == pat
  }

  /** A slice of the tail is the slice of the whole shifted by one. */
  lemma SliceOfTail(s: string, a: int, b: int)
    requires 1 <= a <= b <= |s|
    ensures s[1..][a - 1..b - 1] == s[a..b]
  {
    var x, y := s[1..][a - 1..b - 1], s[a..b];
    assert |x| == |y|;
    forall k | 0 <= k < |x| ensures x[k] == y[k] {
      assert x[k] == s[a + k];
    }
  }

  /** `string.Contains` (ordinal): `pat` is a prefix of `text` or occurs in its tail. */
  function Contains(text: string, pat: string): bool
    decreases |text|
  {
    if |pat| > |text| then false
    else if text[..|pat|] == pat then true
    else if text == [] then false
    else Contains(text[1..], pat)
  }

  /** `Contains` holds exactly when `pat` occurs at some index of `text`. */
  lemma {:induction false} ContainsIffOccurs(text: string, pat: string)
    ensures Contains(text, pat) <==> exists i :: OccursAt(text, pat, i)
    decreases |text|
  {
    if |pat| > |text| {
    } else if text[..|pat|] == pat {
      assert OccursAt(text, pat, 0);
    } else if text == [] {
    } else {
      ContainsIffOccurs(text[1..], pat);
      if Contains(text[1..], pat) {
        var i :| OccursAt(text[1..], pat, i);
        SliceOfTail(text, i + 1, i + 1 + |pat|);
        assert OccursAt(text, pat, i + 1);
      } else {
        assert !OccursAt(text, pat, 0) by {
          assert text[0..|pat|] == text[..|pat|];
        }
        forall i | 0 < i && OccursAt(text, pat, i) ensures OccursAt(text[1..], pat, i - 1) {
          SliceOfTail(text, i, i + |pat|);
        }
      }
    }
  }

  function InCategory(category: string): Food -> bool {
    (f: Food) => f.category == category
  }

  function NameHas(keyword: string): Food -> bool {
    (f: Food) => Contains(f.name, keyword)
  }

  /**
    `GetFoodByCategory`: nothing for a blank category; otherwise the rows of the
    foods whose category equals it exactly, in catalogue order.
  */
  function GetFoodByCategory(foods: seq<Food>, category: Option<string>): (r: seq<FoodRow>)
    ensures IsNullOrWhiteSpace(category) ==> r == []
    ensures !IsNullOrWhiteSpace(category) ==>
              forall row :: row in r <==> exists f :: f in foods && f.category == category.value && RowOf(f) == row
  {
    if IsNullOrWhiteSpace(category) then []
    else
      var hits := Filter(foods, InCategory(category.value));
      var r := Map(hits, RowOf);
      assert forall row :: row in r <==> exists f :: f in hits && RowOf(f) == row by {
        forall row ensures row in r <==> exists f :: f in hits && RowOf(f) == row {
          if row in r {
            var k :| 0 <= k < |r| && r[k] == row;
            assert hits[k] in hits;
          }
          if exists f :: f in hits && RowOf(f) == row {
            var f :| f in hits && RowOf(f) == row;
            var k :| 0 <= k < |hits| && hits[k] == f;
            assert r[k] == row;
          }
        }
      }
      r
  }

  /**
    `SearchFood`: nothing for a blank keyword; otherwise the rows of the foods
    whose name contains the trimmed keyword, in catalogue order.
  */
  function SearchFood(foods: seq<Food>, keyword: Option<string>): (r: seq<FoodRow>)
    ensures IsNullOrWhiteSpace(keyword) ==> r == []
    ensures !IsNullOrWhiteSpace(keyword) ==>
              forall row :: row in r <==>
                exists f :: f in foods && Contains(f.name, Trim(keyword.value)) && RowOf(f) == row
  {
    if IsNullOrWhiteSpace(keyword) then []
    else
      var hits := Filter(foods, NameHas(Trim(keyword.value)));
      var r := Map(hits, RowOf);
      assert forall row :: row in r <==> exists f :: f in hits && RowOf(f) == row by {
        forall row ensures row in r <==> exists f :: f in hits && RowOf(f) == row {
          if row in r {
            var k :| 0 <= k < |r| && r[k] == row;
            assert hits[k] in hits;
          }
          if exists f :: f in hits && RowOf(f) == row {
            var f :| f in hits && RowOf(f) == row;
            var k :| 0 <= k < |hits| && hits[k] == f;
            assert r[k] == row;
          }
        }
      }
      r
  }

  /** Over a table keyed by food id, a category lists each food once: no two rows share an id. */
  lemma CategoryRowsDistinct(foods: seq<Food>, category: Option<string>)
    requires UniqueFoodIds(foods)
    ensures var r := GetFoodByCategory(foods, category);
            forall i, j :: 0 <= i < j < |r| ==> r[i].foodId != r[j].foodId && r[i] != r[j]
  {
    if !IsNullOrWhiteSpace(category) {
      FilterKeepsUniqueFoodIds(foods, InCategory(category.value));
    }
  }

  /** Over a table keyed by food id, a search lists each food once: no two rows share an id. */
  lemma SearchRowsDistinct(foods: seq<Food>, keyword: Option<string>)
    requires UniqueFoodIds(foods)
    ensures var r := SearchFood(foods, keyword);
            forall i, j :: 0 <= i < j < |r| ==> r[i].foodId != r[j].foodId && r[i] != r[j]
  {
    if !IsNullOrWhiteSpace(keyword) {
      FilterKeepsUniqueFoodIds(foods, NameHas(Trim(keyword.value)));
    }
  }

  /** The keyword that reaches the name match is never empty, so a search never lists the whole catalogue by accident. */
  lemma SearchKeywordNonEmpty(keyword: Option<string>)
    requires !IsNullOrWhiteSpace(keyword)
    ensures Trim(keyword.value) != []
  {
    TrimEmptyIffBlank(keyword.value);
  }

  /** Searching for a keyword and for its trimmed form gives the same rows. */
  lemma SearchIgnoresSurroundingSpace(foods: seq<Food>, keyword: string)
    ensures SearchFood(foods, Some(keyword)) == SearchFood(foods, Some(Trim(keyword)))
  {
    TrimEmptyIffBlank(keyword);
    TrimEmptyIffBlank(Trim(keyword));
    TrimIdempotent(keyword);
  }

  /** A food whose name is the trimmed keyword is always found. */
  lemma SearchFindsExactName(foods: seq<Food>, keyword: string, f: Food)
    requires f in foods && f.name == Trim(keyword)
    requires !AllWhiteSpace(keyword)
    ensures RowOf(f) in SearchFood(foods, Some(keyword))
  {
    assert OccursAt(f.name, Trim(keyword), 0);
    ContainsIffOccurs(f.name, Trim(keyword));
  }

  /**
    The category is matched untrimmed: padding a listed food's category with
    white space lists nothing (when no food carries the padded category),
    while the bare category lists that food.
  */
  lemma CategoryIsNotTrimmed(foods: seq<Food>, f: Food, pad: string)
    requires f in foods && !AllWhiteSpace(f.category)
    requires pad != [] && AllWhiteSpace(pad)
    requires forall g :: g in foods ==> g.category != pad + f.category
    ensures RowOf(f) in GetFoodByCategory(foods, Some(f.category))
    ensures GetFoodByCategory(foods, Some(pad + f.category)) == []
  {
    var padded := pad + f.category;
    assert !AllWhiteSpace(padded) by {
      var k :| 0 <= k < |f.category| && !IsWhiteSpace(f.category[k]);
      assert padded[|pad| + k] == f.category[k];
    }
  }
}
