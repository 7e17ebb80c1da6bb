/**
 * The search and meal state of the two browser front ends.
 *
 * app.js keeps the catalogue together with a `Map` index and an object trie built
 * from it, the list of foods last offered for adding, and the meal.  web/js/app.js
 * keeps only the catalogue, which it scans linearly with a cap of 50 (viewing) or
 * 30 (adding), the last list offered, and the meal.  A meal entry is the chosen
 * food with every nutrient multiplied by grams / 100, plus the grams.
 *
 * The fetched text, the typed values (`input.value`, run through `parseFloat`) and
 * the answer to `confirm` are parameters; alerts and the DOM are left out.
 */
module Browser {
  import opened Wrappers
  import opened Text
  import opened Nutrition
  import opened Selection
  import opened Meal
  import JsIndex
  import Csv

  // ---------------------------------------------------------------------------
  // Meal entries

  /** A meal entry: the food scaled to the serving, and the serving in grams
      (`servingSize`), which the totals ignore. */
  datatype MealItem = MealItem(food: Food, servingSize: real)

  /** The foods of the entries, in order. */
  function Foods(items: seq<MealItem>): (r: seq<Food>)
    ensures |r| == |items|
    ensures forall i :: 0 <= i < |items| ==> r[i] == items[i].food
  {
    if items == [] then [] else Foods(items[..|items| - 1]) + [items[|items| - 1].food]
  }

  /** app.js `parseFloat(value) || 100`: any typed number other than 0 is taken as it
      is, negative ones included; 0 and NaN become 100. */
  function AppServing(typed: JsNumber): (g: real)
    ensures g != 0.0
    ensures g == 100.0 || typed == Num(g)
    ensures typed.Num? && typed.v != 0.0 ==> g == typed.v
  {
    if OrZero(typed) == 0.0 then 100.0 else OrZero(typed)
  }

  /** web/js/app.js `Math.max(1, parseFloat(value) || 100)`: the same reading, but
      never less than one gram. */
  function LiteGrams(typed: JsNumber): (g: real)
    ensures g >= 1.0
    ensures AppServing(typed) >= 1.0 ==> g == AppServing(typed)
    ensures AppServing(typed) < 1.0 ==> g == 1.0
  {
    var g := AppServing(typed);
    if g < 1.0 then 1.0 else g
  }

  /** The entry `addFoodToMeal` pushes for `grams` of `food`. */
  function Added(food: Food, grams: real): (item: MealItem)
    ensures item.servingSize == grams && item.food.name == food.name
    ensures item.food == Scale(food, grams / 100.0)
  {
    MealItem(Scale(food, grams / 100.0), grams)
  }

  /** For a positive serving the browser entry holds exactly the console programs' item. */
  lemma AddedIsPortion(food: Food, grams: real)
    requires grams > 0.0
    ensures Added(food, grams).food == Portion(food, grams)
  {
    assert ServingOr100(grams) == grams;
  }

  /** app.js lets a negative serving through: typing -50 adds half the food with every
      value negated. */
  lemma AppNegativeServing(food: Food)
    ensures AppServing(Num(-50.0)) == -50.0
    ensures Added(food, AppServing(Num(-50.0))).food.kcal == -(food.kcal / 2.0)
  {
  }

  /** web/js/app.js never produces negative values from a non-negative food. */
  lemma LiteEntryNonNegative(food: Food, typed: JsNumber)
    requires NonNegative(food)
    ensures NonNegative(Added(food, LiteGrams(typed)).food)
  {
  }

  /** The start of `splice(index, 1)`: a negative index counts from the end and is
      clamped at 0. */
  function SpliceStart(len: nat, index: int): (k: nat)
    ensures index >= 0 ==> k == index
    ensures index < 0 && len + index >= 0 ==> k == len + index
    ensures len + index < 0 ==> k == 0
  {
    if index >= 0 then index else if len + index < 0 then 0 else len + index
  }

  /** `mealItems.splice(index, 1)`: removes the entry at the start position, if there is
      one there. */
  function SpliceOne(s: seq<MealItem>, index: int): (r: seq<MealItem>)
    ensures SpliceStart(|s|, index) < |s| ==> |r| == |s| - 1
    ensures SpliceStart(|s|, index) >= |s| ==> r == s
  {
    var k := SpliceStart(|s|, index);
    if k < |s| then s[..k] + s[k + 1..] else s
  }

  /** A splice that removes something removes the entry at its start position. */
  lemma SpliceAt(s: seq<MealItem>, index: int)
    requires SpliceStart(|s|, index) < |s|
    ensures SpliceOne(s, index) == s[..SpliceStart(|s|, index)] + s[SpliceStart(|s|, index) + 1..]
  {
  }

  /** The entries before the removed one keep their places, the ones after it move up
      by one. */
  lemma SpliceKeepsOrder(s: seq<MealItem>, index: int)
    requires SpliceStart(|s|, index) < |s|
    ensures forall j :: 0 <= j < SpliceStart(|s|, index) ==> SpliceOne(s, index)[j] == s[j]
    ensures forall j :: SpliceStart(|s|, index) <= j < |s| - 1 ==> SpliceOne(s, index)[j] == s[j + 1]
  {
  }

  /** The foods of a splice are the splice of the foods. */
  lemma FoodsSplice(s: seq<MealItem>, k: nat)
    requires k < |s|
    ensures Foods(s[..k] + s[k + 1..]) == Foods(s)[..k] + Foods(s)[k + 1..]
  {
    var l := Foods(s[..k] + s[k + 1..]);
    var r := Foods(s)[..k] + Foods(s)[k + 1..];
    assert |l| == |r|;
    forall j | 0 <= j < |l| ensures l[j] == r[j] {
      if j < k {
        assert (s[..k] + s[k + 1..])[j] == s[j];
      } else {
        assert (s[..k] + s[k + 1..])[j] == s[j + 1];
      }
    }
  }

  /** Adding an entry adds its food to the meal total. */
  lemma AddedTotal(items: seq<MealItem>, item: MealItem)
    ensures Total(Foods(items + [item])) == Plus(Total(Foods(items)), item.food)
  {
    assert (items + [item])[..|items|] == items;
    assert Foods(items + [item]) == Foods(items) + [item.food];
    assert (Foods(items) + [item.food])[..|items|] == Foods(items);
  }

  /** A sequence is what comes before, at and after any of its positions. */
  lemma Around(s: seq<Food>, k: nat)
    requires k < |s|
    ensures s[..k] + [s[k]] + s[k + 1..] == s
  {
  }

  /** Taking the entry at `k` out of a meal takes its food out of the total. */
  lemma RemovedTotal(items: seq<MealItem>, k: nat)
    requires k < |items|
    ensures Plus(Total(Foods(items[..k] + items[k + 1..])), items[k].food) == Total(Foods(items))
  {
    var fs := Foods(items);
    var l, x, r := fs[..k], fs[k], fs[k + 1..];
    FoodsSplice(items, k);
    assert l + r == Foods(items[..k] + items[k + 1..]);
    Around(fs, k);
    assert x == items[k].food;
    TotalRemove(l, x, r);
  }

  /** Removing an entry with `splice` takes exactly its food out of the meal total. */
  lemma SpliceTotal(items: seq<MealItem>, index: int)
    requires SpliceStart(|items|, index) < |items|
    ensures Plus(Total(Foods(SpliceOne(items, index))), items[SpliceStart(|items|, index)].food)
            == Total(Foods(items))
  {
    SpliceAt(items, index);
    RemovedTotal(items, SpliceStart(|items|, index));
  }

  /** The totalling loops of both `calculateMealScore`s: every nutrient key summed over
      the entries, starting from zero. */
  method SumMeal(items: seq<MealItem>) returns (total: Food)
    ensures total == Total(Foods(items))
  {
    total := EmptyFood;
    var k := 0;
    while k < |items|
      invariant 0 <= k <= |items|
      invariant total == Total(Foods(items[..k]))
    {
      var food := items[k].food;
      AddedTotal(items[..k], items[k]);
      assert items[..k + 1] == items[..k] + [items[k]];
      total := total.(kcal := total.kcal + food.kcal, protein := total.protein + food.protein,
                      fat := total.fat + food.fat, carbs := total.carbs + food.carbs,
                      sugar := total.sugar + food.sugar, fiber := total.fiber + food.fiber,
                      satfat := total.satfat + food.satfat, sodium := total.sodium + food.sodium);
      k := k + 1;
    }
    assert items[..k] == items;
  }

  /** What the score screen shows: the total, its score and the feedback. */
  datatype MealScore = MealScore(total: Food, score: int, feedback: string)

  /** app.js: `calculateScore(total)` and `getFeedback(score)`. */
  function AppVerdict(total: Food): (r: MealScore)
    ensures r.total == total && r.score == Score(total) && 1 <= r.score <= 10
    ensures r.feedback == AppText(VerdictOf(r.score))
  {
    var s := Score(total);
    MealScore(total, s, AppText(VerdictOf(s)))
  }

  /** web/js/app.js: `scoreOf(total)` and `feedbackOf(score)`; on a numeric total the
      browser score is the native one. */
  function LiteVerdict(total: Food): (r: MealScore)
    ensures r.total == total && r.score == Score(total) && 1 <= r.score <= 10
    ensures r.feedback == WebText(VerdictOf(r.score))
  {
    WebScoreAgrees(total);
    var s := WebScore(Lift(total));
    MealScore(total, s, WebText(VerdictOf(s)))
  }

  /** Reordering the entries of a meal changes neither the total nor the score. */
  lemma VerdictOrderFree(a: seq<MealItem>, b: seq<MealItem>)
    requires multiset(Foods(a)) == multiset(Foods(b))
    ensures AppVerdict(Total(Foods(a))) == AppVerdict(Total(Foods(b)))
    ensures LiteVerdict(Total(Foods(a))) == LiteVerdict(Total(Foods(b)))
  {
    TotalPermutation(Foods(a), Foods(b));
  }

  // ---------------------------------------------------------------------------
  // Queries and the linear scans of web/js/app.js

  /** `input.value.trim().toLowerCase()`. */
  function Query(input: string): string
  {
    ToLower(Trim(input))
  }

  /** The catalogue foods whose lower-cased name contains `q`, in catalogue order. */
  function Matching(foods: seq<Food>, q: string): seq<Food>
  {
    Select(foods, JsIndex.KeyHolds(JsIndex.Matches(JsIndex.Substring, q)))
  }

  /** The results listed for viewing and for adding in web/js/app.js. */
  const ViewCap: nat := 50
  const AddCap: nat := 30

  /** The matches among a prefix of the catalogue are a prefix of all the matches. */
  lemma MatchingPrefix(foods: seq<Food>, n: nat, q: string)
    requires n <= |foods|
    ensures Matching(foods[..n], q) <= Matching(foods, q)
  {
    SelectAppend(foods[..n], foods[n..], JsIndex.KeyHolds(JsIndex.Matches(JsIndex.Substring, q)));
    assert foods[..n] + foods[n..] == foods;
  }

  /** The scan of `searchFood` and `searchForAdd`: push each food whose lower-cased name
      includes `q`, and stop as soon as `cap` have been pushed. */
  method FirstMatches(foods: seq<Food>, q: string, cap: nat) returns (r: seq<Food>)
    requires cap >= 1
    ensures r == JsIndex.Take(Matching(foods, q), cap)
  {
    r := [];
    var k := 0;
    while k < |foods|
      invariant 0 <= k <= |foods|
      invariant r == Matching(foods[..k], q) && |r| < cap
    {
      var f := foods[k];
      assert foods[..k + 1][..k] == foods[..k];
      if Contains(ToLower(f.name), q) {
        r := r + [f];
        if |r| >= cap {
          MatchingPrefix(foods, k + 1, q);
          return;
        }
      }
      k := k + 1;
    }
    assert foods[..k] == foods;
  }

  /** A capped scan lists only matching catalogue foods, at most `cap` of them, the
      earliest first; when there are no more than `cap` matches it lists them all. */
  lemma {:induction false} ScanFacts(foods: seq<Food>, q: string, cap: nat)
    ensures |JsIndex.Take(Matching(foods, q), cap)| <= cap
    ensures forall f :: f in JsIndex.Take(Matching(foods, q), cap) ==> f in foods && Contains(ToLower(f.name), q)
    ensures |Matching(foods, q)| <= cap ==> JsIndex.Take(Matching(foods, q), cap) == Matching(foods, q)
    ensures |Matching(foods, q)| > cap ==> |JsIndex.Take(Matching(foods, q), cap)| == cap
  {
    SelectMembers(foods, JsIndex.KeyHolds(JsIndex.Matches(JsIndex.Substring, q)));
  }

  /** Taking `m` of the first `n` is taking the first `m` when `m <= n`. */
  lemma TakeTake(s: seq<Food>, n: nat, m: nat)
    requires m <= n
    ensures JsIndex.Take(JsIndex.Take(s, n), m) == JsIndex.Take(s, m)
  {
  }

  /** The foods offered for adding are the first 30 of those listed for viewing, and the
      first 20 listed for viewing are what app.js's trie "contains" search returns. */
  lemma ScansAgree(foods: seq<Food>, q: string)
    ensures JsIndex.Take(JsIndex.Take(Matching(foods, q), ViewCap), AddCap)
            == JsIndex.Take(Matching(foods, q), AddCap)
    ensures JsIndex.Take(JsIndex.Take(Matching(foods, q), ViewCap), JsIndex.ResultCap)
            == JsIndex.TrieResult(JsIndex.TrieOf(foods), foods, q, JsIndex.Substring)
  {
    TakeTake(Matching(foods, q), ViewCap, AddCap);
    TakeTake(Matching(foods, q), ViewCap, JsIndex.ResultCap);
  }

  // ---------------------------------------------------------------------------
  // app.js

  /** Which index `searchFood` runs on (the `dataStructure` select). */
  datatype Structure = Both | HashOnly | TrieOnly

  /** The two result lists of `searchFood`; a list not asked for stays empty. */
  datatype Listing = Listing(hash: seq<Food>, trie: seq<Food>)

  /** The results of the Map index for a catalogue. */
  function HashListing(foods: seq<Food>, q: string, mode: JsIndex.SearchType): seq<Food>
  {
    JsIndex.Take(JsIndex.HashHits(JsIndex.MapOf(foods), q, mode), JsIndex.ResultCap)
  }

  /** The results of the trie for a catalogue. */
  function TrieListing(foods: seq<Food>, q: string, mode: JsIndex.SearchType): seq<Food>
  {
    JsIndex.TrieResult(JsIndex.TrieOf(foods), foods, q, mode)
  }

  class AppSession {
    var foodData: seq<Food>
    var hashMap: seq<JsIndex.Entry>
    var trie: JsIndex.JsNode
    var isDataLoaded: bool
    var mealItems: seq<MealItem>
    /** `window.currentSearchResults`: undefined until a search for adding finds something. */
    var currentSearchResults: Option<seq<Food>>

    /** Both indexes are built from the catalogue. */
    ghost predicate Valid()
      reads this
    {
      hashMap == JsIndex.MapOf(foodData) && trie == JsIndex.TrieOf(foodData)
    }

    /** The global state before `DOMContentLoaded`. */
    constructor ()
      ensures Valid() && foodData == [] && !isDataLoaded
      ensures mealItems == [] && currentSearchResults == None
    {
      foodData := [];
      hashMap := [];
      trie := JsIndex.EmptyNode;
      isDataLoaded := false;
      mealItems := [];
      currentSearchResults := None;
    }

    /** `loadFoodData` with the fetched text (`None` when no path answered), then
        `isDataLoaded = true`, which is set even when loading failed.  The indexes are
        built only from a catalogue with at least one food. */
    method FinishLoading(csvText: Option<string>, parseFloat: string -> Option<real>)
      requires Valid() && foodData == []
      modifies this`foodData, this`hashMap, this`trie, this`isDataLoaded
      ensures Valid() && isDataLoaded
      ensures csvText.None? ==> foodData == []
      ensures csvText.Some? ==> foodData == Csv.JsRows(Split(csvText.value, '\n')[1..], parseFloat)
    {
      if csvText.Some? {
        foodData := Csv.ParseCsvApp(csvText.value, parseFloat);
        if foodData != [] {
          hashMap := JsIndex.BuildHashMap(foodData);
          trie := JsIndex.BuildTrie(foodData);
        }
      }
      isDataLoaded := true;
    }

    /** `searchFood`: nothing before loading, on an empty catalogue or for a blank query;
        otherwise the trimmed, lower-cased query runs on the index(es) chosen. */
    method SearchFood(input: string, mode: JsIndex.SearchType, structure: Structure)
      returns (r: Option<Listing>)
      requires Valid()
      ensures r.None? <==> !isDataLoaded || foodData == [] || Query(input) == []
      ensures r.Some? ==> r.value.hash == (if structure == TrieOnly then [] else HashListing(foodData, Query(input), mode))
      ensures r.Some? ==> r.value.trie == (if structure == HashOnly then [] else TrieListing(foodData, Query(input), mode))
    {
      if !isDataLoaded || |foodData| == 0 {
        return None;
      }
      var query := ToLower(Trim(input));
      if query == [] {
        return None;
      }
      var hashMapResults: seq<Food> := [];
      var trieResults: seq<Food> := [];
      if structure == Both || structure == HashOnly {
        hashMapResults := JsIndex.SearchInHashMap(hashMap, query, mode);
      }
      if structure == Both || structure == TrieOnly {
        trieResults := JsIndex.SearchInTrie(trie, foodData, query, mode);
      }
      r := Some(Listing(hashMapResults, trieResults));
    }

    /** `searchForAdd`: a substring search on the Map index; the list offered for adding
        is replaced only when the search finds something. */
    method SearchForAdd(input: string)
      requires Valid()
      modifies this`currentSearchResults
      ensures var q := Query(input);
        if isDataLoaded && foodData != [] && q != [] && HashListing(foodData, q, JsIndex.Substring) != []
        then currentSearchResults == Some(HashListing(foodData, q, JsIndex.Substring))
        else currentSearchResults == old(currentSearchResults)
    {
      if !isDataLoaded || |foodData| == 0 {
        return;
      }
      var query := ToLower(Trim(input));
      if query == [] {
        return;
      }
      var results := JsIndex.SearchInHashMap(hashMap, query, JsIndex.Substring);
      if |results| == 0 {
        return;
      }
      currentSearchResults := Some(results);
    }

    /** `addFoodToMeal(index)`: push the offered food at `index`, scaled to the typed
        serving.  Reading an entry that is not there throws before anything is pushed. */
    method AddFoodToMeal(index: int, typed: JsNumber)
      modifies this`mealItems
      ensures if currentSearchResults.Some? && 0 <= index < |currentSearchResults.value|
              then mealItems == old(mealItems) + [Added(currentSearchResults.value[index], AppServing(typed))]
              else mealItems == old(mealItems)
    {
      if currentSearchResults.None? || index < 0 || index >= |currentSearchResults.value| {
        return;
      }
      var food := currentSearchResults.value[index];
      var servingSize := AppServing(typed);
      var multiplier := servingSize / 100.0;
      mealItems := mealItems + [MealItem(Scale(food, multiplier), servingSize)];
    }

    /** `clearMeal`: empties a non-empty meal when the user confirms. */
    method ClearMeal(confirmed: bool)
      modifies this`mealItems
      ensures mealItems == if confirmed then [] else old(mealItems)
    {
      if |mealItems| == 0 {
        return;
      }
      if confirmed {
        mealItems := [];
      }
    }

    /** `calculateMealScore`: nothing for an empty meal; otherwise the total of the
        entries, its score and the feedback. */
    method CalculateMealScore() returns (r: Option<MealScore>)
      ensures mealItems == [] ==> r.None?
      ensures mealItems != [] ==> r == Some(AppVerdict(Total(Foods(mealItems))))
    {
      if |mealItems| == 0 {
        return None;
      }
      var total := SumMeal(mealItems);
      var score := Score(total);
      r := Some(MealScore(total, score, AppText(VerdictOf(score))));
    }

    /** `removeMealItem(index)`: the splice, with JavaScript's treatment of an index that
        is negative or past the end. */
    method RemoveMealItem(index: int)
      modifies this`mealItems
      ensures mealItems == SpliceOne(old(mealItems), index)
    {
      var start := if index >= 0 then index else if |mealItems| + index < 0 then 0 else |mealItems| + index;
      if start < |mealItems| {
        mealItems := mealItems[..start] + mealItems[start + 1..];
      }
    }
  }

  // ---------------------------------------------------------------------------
  // web/js/app.js

  class LiteSession {
    var foodData: seq<Food>
    var isDataLoaded: bool
    var mealItems: seq<MealItem>
    var currentSearchResults: seq<Food>

    /** Every entry stands for at least one gram. */
    ghost predicate Valid()
      reads this
    {
      forall i :: 0 <= i < |mealItems| ==> mealItems[i].servingSize >= 1.0
    }

    /** The global state before `DOMContentLoaded`. */
    constructor ()
      ensures Valid() && foodData == [] && !isDataLoaded
      ensures mealItems == [] && currentSearchResults == []
    {
      foodData := [];
      isDataLoaded := false;
      mealItems := [];
      currentSearchResults := [];
    }

    /** `loadFoodData` with the fetched text (`None` when the fetch failed), then
        `isDataLoaded = true`, which is set even when loading failed. */
    method FinishLoading(csvText: Option<string>, plus: string -> Option<real>)
      modifies this`foodData, this`isDataLoaded
      ensures isDataLoaded
      ensures csvText.None? ==> foodData == old(foodData)
      ensures csvText.Some? ==>
        foodData == (var ls := Csv.NonBlankLines(Split(csvText.value, '\n'));
                     if ls == [] then [] else Csv.JsRows(ls[1..], plus))
    {
      if csvText.Some? {
        foodData := Csv.ParseCsvWeb(csvText.value, plus);
      }
      isDataLoaded := true;
    }

    /** `searchFood`: the first 50 catalogue foods whose lower-cased name contains the
        trimmed, lower-cased query; nothing before loading or for a blank query. */
    method SearchFood(input: string) returns (r: Option<seq<Food>>)
      ensures r.None? <==> !isDataLoaded || Query(input) == []
      ensures r.Some? ==> r.value == JsIndex.Take(Matching(foodData, Query(input)), ViewCap)
    {
      if !isDataLoaded {
        return None;
      }
      var q := ToLower(Trim(input));
      if q == [] {
        return None;
      }
      var results := FirstMatches(foodData, q, ViewCap);
      r := Some(results);
    }

    /** `searchForAdd`: the same scan capped at 30; its result, empty or not, replaces the
        list offered for adding. */
    method SearchForAdd(input: string)
      modifies this`currentSearchResults
      ensures if isDataLoaded && Query(input) != []
              then currentSearchResults == JsIndex.Take(Matching(foodData, Query(input)), AddCap)
              else currentSearchResults == old(currentSearchResults)
    {
      if !isDataLoaded {
        return;
      }
      var q := ToLower(Trim(input));
      if q == [] {
        return;
      }
      currentSearchResults := FirstMatches(foodData, q, AddCap);
    }

    /** `addFoodToMeal(index)`: an index outside the offered list changes nothing;
        otherwise the offered food is pushed, scaled to at least one gram. */
    method AddFoodToMeal(index: int, typed: JsNumber)
      requires Valid()
      modifies this`mealItems
      ensures Valid()
      ensures if 0 <= index < |currentSearchResults|
              then mealItems == old(mealItems) + [Added(currentSearchResults[index], LiteGrams(typed))]
              else mealItems == old(mealItems)
    {
      if index < 0 || index >= |currentSearchResults| {
        return;
      }
      var food := currentSearchResults[index];
      var grams := LiteGrams(typed);
      var m := grams / 100.0;
      mealItems := mealItems + [MealItem(Scale(food, m), grams)];
    }

    /** `calculateMealScore`: nothing for an empty meal; otherwise the total of the
        entries, `scoreOf(total)` and the feedback. */
    method CalculateMealScore() returns (r: Option<MealScore>)
      ensures mealItems == [] ==> r.None?
      ensures mealItems != [] ==> r == Some(LiteVerdict(Total(Foods(mealItems))))
    {
      if |mealItems| == 0 {
        return None;
      }
      var total := SumMeal(mealItems);
      WebScoreAgrees(total);
      var score := WebScore(Lift(total));
      r := Some(MealScore(total, score, WebText(VerdictOf(score))));
    }

    /** `removeMealItem(index)`: an index outside the meal changes nothing; otherwise
        exactly the entry at `index` goes, the others keep their order. */
    method RemoveMealItem(index: int)
      requires Valid()
      modifies this`mealItems
      ensures Valid()
      ensures if 0 <= index < |old(mealItems)|
              then mealItems == old(mealItems)[..index] + old(mealItems)[index + 1..]
              else mealItems == old(mealItems)
    {
      if index < 0 || index >= |mealItems| {
        return;
      }
      mealItems := mealItems[..index] + mealItems[index + 1..];
    }

    /** `clearMeal`: empties a non-empty meal when the user confirms. */
    method ClearMeal(confirmed: bool)
      requires Valid()
      modifies this`mealItems
      ensures Valid()
      ensures mealItems == if confirmed then [] else old(mealItems)
    {
      if |mealItems| == 0 {
        return;
      }
      if confirmed {
        mealItems := [];
      }
    }
  }
}
