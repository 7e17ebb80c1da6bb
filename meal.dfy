/**
 * Meal arithmetic and the meal state of the two console programs.
 *
 * An added item is the selected food with all eight nutrient values multiplied by
 * `servingSize / 100`; the meal total is the field-wise sum of the items.
 * cpp/src/main.cpp keeps a current meal, its last computed total (an empty name
 * marks it stale) and a history of saved meals; main.cpp keeps only the items.
 * Console reads (`cin`) are parameters; the clock value used as a saved meal's id
 * is a parameter too; the search that lists the foods to choose from is the hash
 * table's substring search, on an index passed in.
 */
module Meal {
  import opened Wrappers
  import opened Nutrition
  import opened Selection
  import ChainedHash

  // ---------------------------------------------------------------------------
  // Serving sizes and totals

  /** Every nutrient value multiplied by `m`; the name is kept. */
  function Scale(f: Food, m: real): (r: Food)
    ensures r.name == f.name && r.kcal == f.kcal * m && r.protein == f.protein * m
    ensures r.fat == f.fat * m && r.carbs == f.carbs * m && r.sugar == f.sugar * m
    ensures r.fiber == f.fiber * m && r.satfat == f.satfat * m && r.sodium == f.sodium * m
  {
    Food(f.name, f.kcal * m, f.protein * m, f.fat * m, f.carbs * m,
         f.sugar * m, f.fiber * m, f.satfat * m, f.sodium * m)
  }

  /** `if (servingSize <= 0) servingSize = 100;` */
  function ServingOr100(servingSize: real): (g: real)
    ensures g > 0.0
    ensures servingSize > 0.0 ==> g == servingSize
  {
    if servingSize <= 0.0 then 100.0 else servingSize
  }

  /** The item the console programs add for a serving size typed by the user. */
  function Portion(f: Food, servingSize: real): Food
  {
    Scale(f, ServingOr100(servingSize) / 100.0)
  }

  /** 100 g, and any serving size the programs replace by 100 g, adds the food unchanged. */
  lemma PortionDefault(f: Food, servingSize: real)
    requires servingSize <= 0.0 || servingSize == 100.0
    ensures Portion(f, servingSize) == f
  {
  }

  /** A positive serving of a food with non-negative values has non-negative values. */
  lemma PortionNonNegative(f: Food, servingSize: real)
    requires NonNegative(f)
    ensures NonNegative(Portion(f, servingSize))
  {
  }

  /** Field-wise sum; the name of the first operand is kept. */
  function Plus(a: Food, b: Food): Food
  {
    Food(a.name, a.kcal + b.kcal, a.protein + b.protein, a.fat + b.fat, a.carbs + b.carbs,
         a.sugar + b.sugar, a.fiber + b.fiber, a.satfat + b.satfat, a.sodium + b.sodium)
  }

  /** The field-wise sum of the items, starting from `Food()`. */
  function Total(items: seq<Food>): (t: Food)
    ensures t.name == ""
  {
    if items == [] then EmptyFood else Plus(Total(items[..|items| - 1]), items[|items| - 1])
  }

  /** The name the console programs give a computed total. */
  const MealName := "Your Complete Meal"

  /** The total `calculateMealScore` computes for a meal. */
  function MealTotal(items: seq<Food>): Food
  {
    Total(items).(name := MealName)
  }

  /** The total of a concatenation is the sum of the totals. */
  lemma {:induction false} TotalAppend(a: seq<Food>, b: seq<Food>)
    ensures Total(a + b) == Plus(Total(a), Total(b))
  {
    if b == [] {
      assert a + b == a;
    } else {
      var b', x := b[..|b| - 1], b[|b| - 1];
      TotalAppend(a, b');
      assert (a + b)[..|a + b| - 1] == a + b';
      assert Total(a + b) == Plus(Total(a + b'), x);
      PlusAssoc(Total(a), Total(b'), x);
    }
  }

  lemma PlusAssoc(p: Food, q: Food, r: Food)
    ensures Plus(Plus(p, q), r) == Plus(p, Plus(q, r))
  {
  }

  lemma PlusCommutes(a: Food, b: Food)
    requires a.name == b.name
    ensures Plus(a, b) == Plus(b, a)
  {
  }

  /** Taking one item out of the sum and adding it back last gives the same total. */
  lemma TotalRemove(l: seq<Food>, x: Food, r: seq<Food>)
    ensures Total(l + [x] + r) == Plus(Total(l + r), x)
  {
    TotalAppend(l + [x], r);
    TotalLast(l, x);
    TotalAppend(l, r);
    PlusSwap(Total(l), Total(r), x);
  }

  lemma TotalLast(l: seq<Food>, x: Food)
    ensures Total(l + [x]) == Plus(Total(l), x)
  {
    assert (l + [x])[..|l|] == l;
  }

  lemma PlusSwap(p: Food, q: Food, x: Food)
    ensures Plus(Plus(p, x), q) == Plus(Plus(p, q), x)
  {
  }

  /** The total does not depend on the order of the items: any rearrangement of a meal
      has the same total, hence the same score. */
  lemma {:induction false} TotalPermutation(a: seq<Food>, b: seq<Food>)
    requires multiset(a) == multiset(b)
    ensures Total(a) == Total(b)
    decreases |a|
  {
    if a != [] {
      var x := a[|a| - 1];
      var a' := a[..|a| - 1];
      assert a == a' + [x];
      assert x in multiset(b);
      var j :| 0 <= j < |b| && b[j] == x;
      var b' := b[..j] + b[j + 1..];
      assert b == b[..j] + [x] + b[j + 1..];
      assert multiset(b) == multiset(b') + multiset{x};
      MultisetCancel(multiset(a'), multiset(b'), multiset{x});
      TotalPermutation(a', b');
      TotalRemove(b[..j], x, b[j + 1..]);
    } else {
      assert |b| == |multiset(b)| == 0;
    }
  }

  /** A meal of non-negative items has a non-negative total. */
  lemma {:induction false} TotalNonNegative(items: seq<Food>)
    requires forall k :: 0 <= k < |items| ==> NonNegative(items[k])
    ensures NonNegative(Total(items))
  {
    if items != [] {
      TotalNonNegative(items[..|items| - 1]);
    }
  }

  /** The summing loop of `calculateMealScore`: start from `Food()` named
      "Your Complete Meal" and add each item's eight values. */
  method SumItems(items: seq<Food>) returns (total: Food)
    ensures total == MealTotal(items)
  {
    total := EmptyFood.(name := MealName);
    var k := 0;
    while k < |items|
      invariant 0 <= k <= |items|
      invariant total == MealTotal(items[..k])
    {
      assert items[..k + 1][..k] == items[..k];
      var food := items[k];
      total := total.(kcal := total.kcal + food.kcal, protein := total.protein + food.protein,
                      fat := total.fat + food.fat, carbs := total.carbs + food.carbs,
                      sugar := total.sugar + food.sugar, fiber := total.fiber + food.fiber,
                      satfat := total.satfat + food.satfat, sodium := total.sodium + food.sodium);
      k := k + 1;
    }
    assert items[..k] == items;
  }

  // ---------------------------------------------------------------------------
  // Choosing a food

  /** At most the first 20 search results are listed for choosing. */
  const ListedResults: nat := 20

  /** The food picked by typing `choice` under the numbered list of results (1-based), or
      `None` when the number is not on the list (cancel). */
  function Choice(results: seq<Food>, choice: int): (r: Option<Food>)
    ensures r.Some? <==> 1 <= choice <= |results| && choice <= ListedResults
    ensures r.Some? ==> r.value == results[choice - 1]
  {
    if 1 <= choice <= |results| && choice <= ListedResults then Some(results[choice - 1]) else None
  }

  /** The item `addToMeal` appends, if any: the chosen food at the serving size. */
  function Picked(results: seq<Food>, choice: int, servingSize: real): Option<Food>
  {
    match Choice(results, choice)
    case None => None
    case Some(f) => Some(Portion(f, servingSize))
  }

  /** The choosing part of `addToMeal`: cancel on an empty list or a number not listed,
      otherwise scale the chosen food, 100 g standing in for a serving size that is not
      positive. */
  method PickPortion(results: seq<Food>, choice: int, servingSize: real) returns (item: Option<Food>)
    ensures item == Picked(results, choice, servingSize)
  {
    if |results| == 0 {
      return None;
    }
    var maxDisplay := if |results| < 20 then |results| else 20;
    if choice < 1 || choice > maxDisplay {
      return None;
    }
    var selectedFood := results[choice - 1];
    var serving := servingSize;
    if serving <= 0.0 {
      serving := 100.0;
    }
    var multiplier := serving / 100.0;
    item := Some(Scale(selectedFood, multiplier));
  }

  /** What `calculateMealScore` prints after the total. */
  datatype Report = Report(score: int, feedback: string)

  function ReportOf(total: Food): (r: Report)
    ensures 1 <= r.score <= 10
  {
    Report(Score(total), Feedback(total))
  }

  // ---------------------------------------------------------------------------
  // cpp/src/main.cpp

  /** A saved meal: an id, the name the user typed, the score and feedback at saving
      time, a copy of the items and of the total. */
  datatype SavedMeal = SavedMeal(id: int, name: string, score: int, feedback: string,
                                 items: seq<Food>, total: Food)

  /** What `saveCurrentMeal` stores: a non-empty meal, its up-to-date total, and that
      total's score and feedback. */
  predicate Snapshot(s: SavedMeal)
  {
    s.items != [] && s.total == MealTotal(s.items) && s.score == Score(s.total) && s.feedback == Feedback(s.total)
  }

  class ConsoleScorer {
    var mealItems: seq<Food>
    var mealHistory: seq<SavedMeal>
    /** The last computed total; an empty name means it is out of date. */
    var mealTotal: Food

    /** A named total is the total of the current items, and every history entry is a
        faithful snapshot. */
    ghost predicate Valid()
      reads this
    {
      (mealTotal.name != "" ==> mealItems != [] && mealTotal == MealTotal(mealItems))
      && forall k :: 0 <= k < |mealHistory| ==> Snapshot(mealHistory[k])
    }

    constructor()
      ensures Valid()
      ensures mealItems == [] && mealHistory == [] && mealTotal == EmptyFood
    {
      mealItems := [];
      mealHistory := [];
      mealTotal := EmptyFood;
    }

    /** `addToMeal`: list the substring matches of the hash table, take the chosen one
        scaled to the serving size, append it and mark the total out of date. */
    method AddToMeal(index: ChainedHash.HashMap, searchTerm: string, choice: int, servingSize: real)
      requires Valid() && index.Valid()
      modifies this
      ensures Valid()
      ensures mealHistory == old(mealHistory)
      ensures var item := Picked(Select(ChainedHash.Flatten(index.table), NameContains(searchTerm)), choice, servingSize);
              && (item.None? ==> mealItems == old(mealItems) && mealTotal == old(mealTotal))
              && (item.Some? ==> mealItems == old(mealItems) + [item.value] && mealTotal == old(mealTotal).(name := ""))
    {
      var results := index.SearchContains(searchTerm);
      var item := PickPortion(results, choice, servingSize);
      if item.None? {
        return;
      }
      mealItems := mealItems + [item.value];
      mealTotal := mealTotal.(name := "");
    }

    /** `calculateMealScore`: nothing on an empty meal; otherwise recompute the total,
        named "Your Complete Meal", and report its score and feedback. */
    method CalculateMealScore() returns (report: Option<Report>)
      requires Valid()
      modifies this
      ensures Valid()
      ensures mealItems == old(mealItems) && mealHistory == old(mealHistory)
      ensures old(mealItems) == [] ==> mealTotal == old(mealTotal) && report == None
      ensures old(mealItems) != [] ==> mealTotal == MealTotal(mealItems) && report == Some(ReportOf(mealTotal))
    {
      if |mealItems| == 0 {
        return None;
      }
      mealTotal := SumItems(mealItems);
      report := Some(Report(Score(mealTotal), Feedback(mealTotal)));
    }

    /** `clearMeal`: no items, and the total back to `Food()`. */
    method ClearMeal()
      requires Valid()
      modifies this
      ensures Valid()
      ensures mealItems == [] && mealTotal == EmptyFood && mealHistory == old(mealHistory)
    {
      mealItems := [];
      mealTotal := EmptyFood;
    }

    /** `saveCurrentMeal`: nothing on an empty meal; otherwise bring the total up to date
        if it is stale, then append one snapshot.  The saved total is always the total
        of the saved items, whether or not it had to be recomputed. */
    method SaveCurrentMeal(mealName: string, id: int)
      requires Valid()
      modifies this
      ensures Valid()
      ensures mealItems == old(mealItems)
      ensures old(mealItems) == [] ==> mealHistory == old(mealHistory) && mealTotal == old(mealTotal)
      ensures old(mealItems) != [] ==>
                mealTotal == MealTotal(mealItems)
                && mealHistory == old(mealHistory) + [SavedMeal(id, mealName, Score(mealTotal),
                                                                Feedback(mealTotal), mealItems, mealTotal)]
    {
      if |mealItems| == 0 {
        return;
      }
      if mealTotal.name == "" {
        var _ := CalculateMealScore();
      }
      var newMeal := SavedMeal(id, mealName, Score(mealTotal), Feedback(mealTotal), mealItems, mealTotal);
      mealHistory := mealHistory + [newMeal];
    }

    /** `loadMealFromHistory`: an index outside the history changes nothing; otherwise the
        snapshot's items and total become the current ones. */
    method LoadMealFromHistory(index: int)
      requires Valid()
      modifies this
      ensures Valid()
      ensures mealHistory == old(mealHistory)
      ensures !(0 <= index < |mealHistory|) ==> mealItems == old(mealItems) && mealTotal == old(mealTotal)
      ensures 0 <= index < |mealHistory| ==>
                mealItems == mealHistory[index].items && mealTotal == mealHistory[index].total
                && mealTotal == MealTotal(mealItems)
    {
      if index < 0 || index >= |mealHistory| {
        return;
      }
      mealItems := mealHistory[index].items;
      mealTotal := mealHistory[index].total;
    }

    /** `deleteMealFromHistory`: an index outside the history changes nothing; otherwise
        exactly that entry goes and the others keep their order. */
    method DeleteMealFromHistory(index: int)
      requires Valid()
      modifies this
      ensures Valid()
      ensures mealItems == old(mealItems) && mealTotal == old(mealTotal)
      ensures !(0 <= index < |old(mealHistory)|) ==> mealHistory == old(mealHistory)
      ensures 0 <= index < |old(mealHistory)| ==>
                mealHistory == old(mealHistory)[..index] + old(mealHistory)[index + 1..]
    {
      if index < 0 || index >= |mealHistory| {
        return;
      }
      mealHistory := mealHistory[..index] + mealHistory[index + 1..];
      assert forall k :: 0 <= k < |mealHistory| ==>
        mealHistory[k] == old(mealHistory)[if k < index then k else k + 1];
    }

    /** The load/delete actions of `viewMealHistory`: the user types 1-based meal numbers. */
    method HistoryAction(action: int, mealNumber: int)
      requires Valid()
      modifies this
      ensures Valid()
      ensures action == 1 && 1 <= mealNumber <= |old(mealHistory)| ==>
                mealHistory == old(mealHistory)
                && mealItems == old(mealHistory)[mealNumber - 1].items
                && mealTotal == old(mealHistory)[mealNumber - 1].total
                && mealTotal == MealTotal(mealItems)
      ensures action == 2 && 1 <= mealNumber <= |old(mealHistory)| ==>
                mealItems == old(mealItems) && mealTotal == old(mealTotal)
                && mealHistory == old(mealHistory)[..mealNumber - 1] + old(mealHistory)[mealNumber..]
      ensures !(action in {1, 2} && 1 <= mealNumber <= |old(mealHistory)|) ==>
                mealItems == old(mealItems) && mealHistory == old(mealHistory)
                && mealTotal == old(mealTotal)
    {
      if action == 1 {
        LoadMealFromHistory(mealNumber - 1);
      } else if action == 2 {
        DeleteMealFromHistory(mealNumber - 1);
      }
    }
  }

  // ---------------------------------------------------------------------------
  // main.cpp

  class BasicScorer {
    var mealItems: seq<Food>

    constructor()
      ensures mealItems == []
    {
      mealItems := [];
    }

    /** `addToMeal`: the same choice and scaling as in cpp/src/main.cpp, without a stored total. */
    method AddToMeal(index: ChainedHash.HashMap, searchTerm: string, choice: int, servingSize: real)
      requires index.Valid()
      modifies this
      ensures var item := Picked(Select(ChainedHash.Flatten(index.table), NameContains(searchTerm)), choice, servingSize);
              && (item.None? ==> mealItems == old(mealItems))
              && (item.Some? ==> mealItems == old(mealItems) + [item.value])
    {
      var results := index.SearchContains(searchTerm);
      var item := PickPortion(results, choice, servingSize);
      if item.None? {
        return;
      }
      mealItems := mealItems + [item.value];
    }

    /** `calculateMealScore`: nothing on an empty meal; otherwise the total of the items,
        named "Your Complete Meal", with its score (in 1..10) and feedback.  The meal is
        not changed. */
    method CalculateMealScore() returns (total: Option<Food>, report: Option<Report>)
      ensures mealItems == [] ==> total == None && report == None
      ensures mealItems != [] ==> total == Some(MealTotal(mealItems)) && report == Some(ReportOf(MealTotal(mealItems)))
    {
      if |mealItems| == 0 {
        return None, None;
      }
      var mealTotal := SumItems(mealItems);
      total := Some(mealTotal);
      report := Some(Report(Score(mealTotal), Feedback(mealTotal)));
    }

    /** `clearMeal`. */
    method ClearMeal()
      modifies this
      ensures mealItems == []
    {
      mealItems := [];
    }
  }
}
