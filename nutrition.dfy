/**
 * The food record and the nutrient score (Food.h; the same ladders appear in
 * app.js and web/js/app.js).  A score is 10 minus (negative points minus
 * positive points), clamped to 1..10.  Four "negative" ladders (energy in kJ,
 * saturated fat, sugar, sodium) give 0..10 points each and two "positive"
 * ladders (protein, fiber) give 0..5 each.  Every ladder is a first-match chain
 * of inclusive "value <= threshold" tests; the chains below keep the source's
 * thresholds verbatim, and `Rank` over the threshold tables is the reference
 * reading of such a chain that the lemmas are proved against.
 */
module Nutrition {

  /** One food: a name and eight nutrient values per 100 g (`kcal` really is kilocalories). */
  datatype Food = Food(
    name: string,
    kcal: real,
    protein: real,
    fat: real,
    carbs: real,
    sugar: real,
    fiber: real,
    satfat: real,
    sodium: real)

  /** `Food()`: the default-constructed food, empty name and every field 0. */
  const EmptyFood: Food := Food("", 0.0, 0.0, 0.0, 0.0, 0.0, 0.0, 0.0, 0.0)

  /** All eight nutrient values are non-negative (the domain the ladders are designed for). */
  predicate NonNegative(f: Food)
  {
    f.kcal >= 0.0 && f.protein >= 0.0 && f.fat >= 0.0 && f.carbs >= 0.0
    && f.sugar >= 0.0 && f.fiber >= 0.0 && f.satfat >= 0.0 && f.sodium >= 0.0
  }

  /** `getEnergyKJ`: 1 kcal = 4.184 kJ. */
  function EnergyKJ(f: Food): real
  {
    f.kcal * 4.184
  }

  // ---------------------------------------------------------------------------
  // Reference reading of a ladder

  /** The bucket a first-match chain of "x <= t" tests gives `x`: the index of the first
      threshold `x` does not exceed, or the table's length when it exceeds them all. */
  function Rank(x: real, ladder: seq<real>): nat
  {
    if ladder == [] then 0
    else if x <= ladder[0] then 0
    else 1 + Rank(x, ladder[1..])
  }

  predicate StrictlyAscending(ladder: seq<real>)
  {
    forall i, j :: 0 <= i < j < |ladder| ==> ladder[i] < ladder[j]
  }

  const EnergyLadder: seq<real> :=
    [335.0, 670.0, 1005.0, 1340.0, 1675.0, 2010.0, 2345.0, 2680.0, 3015.0, 3350.0]
  const SatFatLadder: seq<real> := [1.0, 2.0, 3.0, 4.0, 5.0, 6.0, 7.0, 8.0, 9.0, 10.0]
  const SugarLadder: seq<real> := [4.5, 9.0, 13.5, 18.0, 22.5, 27.0, 31.0, 36.0, 40.0, 45.0]
  const SodiumLadder: seq<real> :=
    [90.0, 180.0, 270.0, 360.0, 450.0, 540.0, 630.0, 720.0, 810.0, 900.0]
  const ProteinLadder: seq<real> := [1.6, 3.2, 4.8, 6.4, 8.0]
  const FiberLadder: seq<real> := [0.9, 1.9, 2.8, 3.7, 4.7]

  /** A ladder never gives more points than it has thresholds. */
  lemma {:induction false} RankBound(x: real, ladder: seq<real>)
    ensures Rank(x, ladder) <= |ladder|
  {
    if ladder != [] && x > ladder[0] {
      RankBound(x, ladder[1..]);
    }
  }

  /** A ladder is monotone: more of a nutrient never gives fewer points. */
  lemma {:induction false} RankMonotone(x: real, y: real, ladder: seq<real>)
    requires x <= y
    ensures Rank(x, ladder) <= Rank(y, ladder)
  {
    if ladder != [] && x > ladder[0] {
      RankMonotone(x, y, ladder[1..]);
    }
  }

  /** On a strictly ascending table the bucket is `k` exactly when `x` lies in the
      half-open interval (ladder[k-1], ladder[k]]: thresholds are inclusive. */
  lemma {:induction false} RankInterval(x: real, ladder: seq<real>, k: nat)
    requires StrictlyAscending(ladder) && k <= |ladder|
    ensures Rank(x, ladder) == k <==>
              (k == 0 || ladder[k - 1] < x) && (k == |ladder| || x <= ladder[k])
  {
    if ladder != [] {
      var rest := ladder[1..];
      assert StrictlyAscending(rest) by {
        forall i, j | 0 <= i < j < |rest| ensures rest[i] < rest[j] {
          assert rest[i] == ladder[i + 1] && rest[j] == ladder[j + 1];
        }
      }
      if k == 0 {
      } else {
        RankInterval(x, rest, k - 1);
        if x <= ladder[0] {
          assert ladder[0] <= ladder[k - 1];
        }
        assert k - 1 > 0 ==> rest[k - 2] == ladder[k - 1];
        assert k - 1 < |rest| ==> rest[k - 1] == ladder[k];
      }
    }
  }

  /** A value exactly on a threshold falls in the lower bucket. */
  lemma OnThreshold(ladder: seq<real>, k: nat)
    requires StrictlyAscending(ladder) && k < |ladder|
    ensures Rank(ladder[k], ladder) == k
  {
    RankInterval(ladder[k], ladder, k);
    if k > 0 {
      assert ladder[k - 1] < ladder[k];
    }
  }

  // ---------------------------------------------------------------------------
  // The six ladders, as the source writes them (Food.h:50-60, 63-73, 76-86, 89-99,
  // 109-114, 117-122)

  function EnergyPoints(kj: real): nat
  {
    if kj <= 335.0 then 0
    else if kj <= 670.0 then 1
    else if kj <= 1005.0 then 2
    else if kj <= 1340.0 then 3
    else if kj <= 1675.0 then 4
    else if kj <= 2010.0 then 5
    else if kj <= 2345.0 then 6
    else if kj <= 2680.0 then 7
    else if kj <= 3015.0 then 8
    else if kj <= 3350.0 then 9
    else 10
  }

  function SatFatPoints(g: real): nat
  {
    if g <= 1.0 then 0
    else if g <= 2.0 then 1
    else if g <= 3.0 then 2
    else if g <= 4.0 then 3
    else if g <= 5.0 then 4
    else if g <= 6.0 then 5
    else if g <= 7.0 then 6
    else if g <= 8.0 then 7
    else if g <= 9.0 then 8
    else if g <= 10.0 then 9
    else 10
  }

  function SugarPoints(g: real): nat
  {
    if g <= 4.5 then 0
    else if g <= 9.0 then 1
    else if g <= 13.5 then 2
    else if g <= 18.0 then 3
    else if g <= 22.5 then 4
    else if g <= 27.0 then 5
    else if g <= 31.0 then 6
    else if g <= 36.0 then 7
    else if g <= 40.0 then 8
    else if g <= 45.0 then 9
    else 10
  }

  function SodiumPoints(mg: real): nat
  {
    if mg <= 90.0 then 0
    else if mg <= 180.0 then 1
    else if mg <= 270.0 then 2
    else if mg <= 360.0 then 3
    else if mg <= 450.0 then 4
    else if mg <= 540.0 then 5
    else if mg <= 630.0 then 6
    else if mg <= 720.0 then 7
    else if mg <= 810.0 then 8
    else if mg <= 900.0 then 9
    else 10
  }

  function ProteinPoints(g: real): nat
  {
    if g <= 1.6 then 0
    else if g <= 3.2 then 1
    else if g <= 4.8 then 2
    else if g <= 6.4 then 3
    else if g <= 8.0 then 4
    else 5
  }

  function FiberPoints(g: real): nat
  {
    if g <= 0.9 then 0
    else if g <= 1.9 then 1
    else if g <= 2.8 then 2
    else if g <= 3.7 then 3
    else if g <= 4.7 then 4
    else 5
  }

  /** Every threshold table is strictly ascending. */
  lemma LaddersAscending()
    ensures StrictlyAscending(EnergyLadder) && StrictlyAscending(SatFatLadder)
    ensures StrictlyAscending(SugarLadder) && StrictlyAscending(SodiumLadder)
    ensures StrictlyAscending(ProteinLadder) && StrictlyAscending(FiberLadder)
  {
  }

  // Each written-out chain is the first-match reading of its threshold table.

  lemma EnergyIsRank(x: real)
    ensures EnergyPoints(x) == Rank(x, EnergyLadder)
  {
    LaddersAscending();
    RankInterval(x, EnergyLadder, EnergyPoints(x));
  }

  lemma SatFatIsRank(x: real)
    ensures SatFatPoints(x) == Rank(x, SatFatLadder)
  {
    LaddersAscending();
    RankInterval(x, SatFatLadder, SatFatPoints(x));
  }

  lemma SugarIsRank(x: real)
    ensures SugarPoints(x) == Rank(x, SugarLadder)
  {
    LaddersAscending();
    RankInterval(x, SugarLadder, SugarPoints(x));
  }

  lemma SodiumIsRank(x: real)
    ensures SodiumPoints(x) == Rank(x, SodiumLadder)
  {
    LaddersAscending();
    RankInterval(x, SodiumLadder, SodiumPoints(x));
  }

  lemma ProteinIsRank(x: real)
    ensures ProteinPoints(x) == Rank(x, ProteinLadder)
  {
    LaddersAscending();
    RankInterval(x, ProteinLadder, ProteinPoints(x));
  }

  lemma FiberIsRank(x: real)
    ensures FiberPoints(x) == Rank(x, FiberLadder)
  {
    LaddersAscending();
    RankInterval(x, FiberLadder, FiberPoints(x));
  }

  /** A value exactly on a threshold gets the lower bucket, on every ladder
      (for example sugar 4.5 g gives 0 points and sodium 90 mg gives 0 points). */
  lemma ThresholdsInclusive(k: nat)
    ensures k < 10 ==> EnergyPoints(EnergyLadder[k]) == k && SatFatPoints(SatFatLadder[k]) == k
    ensures k < 10 ==> SugarPoints(SugarLadder[k]) == k && SodiumPoints(SodiumLadder[k]) == k
    ensures k < 5 ==> ProteinPoints(ProteinLadder[k]) == k && FiberPoints(FiberLadder[k]) == k
  {
    LaddersAscending();
    if k < 10 {
      OnThreshold(EnergyLadder, k);
      EnergyIsRank(EnergyLadder[k]);
      OnThreshold(SatFatLadder, k);
      SatFatIsRank(SatFatLadder[k]);
      OnThreshold(SugarLadder, k);
      SugarIsRank(SugarLadder[k]);
      OnThreshold(SodiumLadder, k);
      SodiumIsRank(SodiumLadder[k]);
    }
    if k < 5 {
      OnThreshold(ProteinLadder, k);
      ProteinIsRank(ProteinLadder[k]);
      OnThreshold(FiberLadder, k);
      FiberIsRank(FiberLadder[k]);
    }
  }

  // ---------------------------------------------------------------------------
  // The score (Food.h:32-42, 45-102, 105-125)

  /** `calculateNegativePoints`: energy, saturated fat, sugar and sodium points summed. */
  function NegativePoints(f: Food): (p: nat)
    ensures p <= 40
  {
    EnergyPoints(EnergyKJ(f)) + SatFatPoints(f.satfat) + SugarPoints(f.sugar) + SodiumPoints(f.sodium)
  }

  /** `calculatePositivePoints`: protein and fiber points summed. */
  function PositivePoints(f: Food): (p: nat)
    ensures p <= 10
  {
    ProteinPoints(f.protein) + FiberPoints(f.fiber)
  }

  /** `calculateScore`: 10 - (negative - positive), clamped to 1..10.  Total: defined and in
      range for every food, whatever the signs of its fields. */
  function Score(f: Food): (s: int)
    ensures 1 <= s <= 10
    ensures var raw := 10 - (NegativePoints(f) - PositivePoints(f));
            (1 <= raw <= 10 ==> s == raw) && (raw < 1 ==> s == 1) && (raw > 10 ==> s == 10)
  {
    var raw := 10 - (NegativePoints(f) - PositivePoints(f));
    if raw < 1 then 1 else if raw > 10 then 10 else raw
  }

  /** More protein or fiber never lowers the score; more energy, saturated fat, sugar or
      sodium never raises it (fat and carbohydrate do not take part). */
  lemma ScoreMonotone(worse: Food, better: Food)
    requires better.kcal <= worse.kcal && better.satfat <= worse.satfat
    requires better.sugar <= worse.sugar && better.sodium <= worse.sodium
    requires better.protein >= worse.protein && better.fiber >= worse.fiber
    ensures Score(worse) <= Score(better)
  {
    EnergyIsRank(EnergyKJ(better));
    EnergyIsRank(EnergyKJ(worse));
    RankMonotone(EnergyKJ(better), EnergyKJ(worse), EnergyLadder);
    SatFatIsRank(better.satfat);
    SatFatIsRank(worse.satfat);
    RankMonotone(better.satfat, worse.satfat, SatFatLadder);
    SugarIsRank(better.sugar);
    SugarIsRank(worse.sugar);
    RankMonotone(better.sugar, worse.sugar, SugarLadder);
    SodiumIsRank(better.sodium);
    SodiumIsRank(worse.sodium);
    RankMonotone(better.sodium, worse.sodium, SodiumLadder);
    ProteinIsRank(worse.protein);
    ProteinIsRank(better.protein);
    RankMonotone(worse.protein, better.protein, ProteinLadder);
    FiberIsRank(worse.fiber);
    FiberIsRank(better.fiber);
    RankMonotone(worse.fiber, better.fiber, FiberLadder);
  }

  /** Energy is classified in kJ, not kcal: 80 kcal is 334.72 kJ (0 points) while
      81 kcal is 338.904 kJ (1 point). */
  lemma EnergyClassifiedInKilojoules(f: Food)
    ensures f.kcal == 80.0 ==> EnergyPoints(EnergyKJ(f)) == 0
    ensures f.kcal == 81.0 ==> EnergyPoints(EnergyKJ(f)) == 1
  {
  }

  /** The default-constructed food scores the maximum. */
  lemma EmptyFoodScoresTen()
    ensures NegativePoints(EmptyFood) == 0 && PositivePoints(EmptyFood) == 0
    ensures Score(EmptyFood) == 10
  {
  }

  // ---------------------------------------------------------------------------
  // Feedback (Food.h:128-135, app.js:606-612, web/js/app.js:350-356)

  /** The five feedback buckets. */
  datatype Verdict = Excellent | Good | Moderate | BelowAverage | Poor

  /** The bucket a score falls in: >= 9, >= 7, >= 5, >= 3, below 3. */
  function VerdictOf(score: int): (v: Verdict)
    ensures v == Excellent <==> score >= 9
    ensures v == Good <==> 7 <= score < 9
    ensures v == Moderate <==> 5 <= score < 7
    ensures v == BelowAverage <==> 3 <= score < 5
    ensures v == Poor <==> score < 3
  {
    if score >= 9 then Excellent
    else if score >= 7 then Good
    else if score >= 5 then Moderate
    else if score >= 3 then BelowAverage
    else Poor
  }

  /** The console front ends' wording (Food.h). */
  function ConsoleText(v: Verdict): string
  {
    match v
    case Excellent => "Excellent! Very nutritious choice."
    case Good => "Good! This is a healthy option."
    case Moderate => "Moderate. Could be balanced with healthier foods."
    case BelowAverage => "Below average. Consider healthier alternatives."
    case Poor => "Poor nutritional value. Try to limit consumption."
  }

  /** The first browser front end's wording (app.js `getFeedback`). */
  function AppText(v: Verdict): string
  {
    match v
    case Excellent =>
      "Excellent! Very nutritious choice. Your meal is well-balanced with great nutritional value."
    case Good => "Good! This is a healthy option. Your meal has good nutritional balance."
    case Moderate =>
      "Moderate. Could be balanced with healthier foods. Consider adding more vegetables or reducing processed foods."
    case BelowAverage =>
      "Below average. Consider healthier alternatives. Try to reduce sugar, saturated fat, and sodium."
    case Poor =>
      "Poor nutritional value. Try to limit consumption. This meal is high in negative nutrients and low in beneficial ones."
  }

  /** The second browser front end's wording (web/js/app.js `feedbackOf`). */
  function WebText(v: Verdict): string
  {
    match v
    case Excellent => "Excellent! Very nutritious choice. Your meal is well-balanced."
    case Good => "Good! Healthy overall with decent balance."
    case Moderate => "Moderate. Improve with more fiber/protein and less sugar/sat fat/sodium."
    case BelowAverage => "Below average. Consider healthier alternatives."
    case Poor => "Poor nutritional value. Try to rebalance with whole foods."
  }

  /** `Food::getFeedback`: the console wording of the food's own score. */
  function Feedback(f: Food): string
  {
    ConsoleText(VerdictOf(Score(f)))
  }

  // ---------------------------------------------------------------------------
  // web/js/app.js scoring: a missing or falsy field counts as 0 (web/js/app.js:330-349)

  /** A JavaScript number-valued property as the score functions see it. */
  datatype JsNumber = Undefined | NaN | Num(v: real)

  /** `x || 0`: undefined, NaN and 0 all become 0; any other number is kept. */
  function OrZero(x: JsNumber): (r: real)
    ensures x.Num? ==> r == x.v
    ensures !x.Num? ==> r == 0.0
  {
    match x
    case Num(v) => if v == 0.0 then 0.0 else v
    case _ => 0.0
  }

  /** A record whose nutrient properties may be missing or NaN. */
  datatype JsFood = JsFood(
    name: string,
    kcal: JsNumber,
    protein: JsNumber,
    fat: JsNumber,
    carbs: JsNumber,
    sugar: JsNumber,
    fiber: JsNumber,
    satfat: JsNumber,
    sodium: JsNumber)

  /** The food the score functions effectively see. */
  function Normalize(f: JsFood): Food
  {
    Food(f.name, OrZero(f.kcal), OrZero(f.protein), OrZero(f.fat), OrZero(f.carbs),
         OrZero(f.sugar), OrZero(f.fiber), OrZero(f.satfat), OrZero(f.sodium))
  }

  /** A fully numeric record, as parseCSV and the meal code produce. */
  function Lift(f: Food): JsFood
  {
    JsFood(f.name, Num(f.kcal), Num(f.protein), Num(f.fat), Num(f.carbs),
           Num(f.sugar), Num(f.fiber), Num(f.satfat), Num(f.sodium))
  }

  /** `negPoints`: the same four ladders, applied to `field || 0`. */
  function WebNegPoints(f: JsFood): (p: nat)
    ensures p <= 40 && p == NegativePoints(Normalize(f))
  {
    var kJ := OrZero(f.kcal) * 4.184;
    EnergyPoints(kJ) + SatFatPoints(OrZero(f.satfat)) + SugarPoints(OrZero(f.sugar))
    + SodiumPoints(OrZero(f.sodium))
  }

  /** `posPoints`: the same two ladders, applied to `field || 0`. */
  function WebPosPoints(f: JsFood): (p: nat)
    ensures p <= 10 && p == PositivePoints(Normalize(f))
  {
    ProteinPoints(OrZero(f.protein)) + FiberPoints(OrZero(f.fiber))
  }

  /** `scoreOf`: `Math.max(1, Math.min(10, 10 - (neg - pos)))`. */
  function WebScore(f: JsFood): (s: int)
    ensures 1 <= s <= 10
    ensures s == Score(Normalize(f))
  {
    var raw := 10 - (WebNegPoints(f) - WebPosPoints(f));
    if raw > 10 then 10 else if raw < 1 then 1 else raw
  }

  /** On a fully numeric record the browser score equals the native one. */
  lemma WebScoreAgrees(f: Food)
    ensures WebScore(Lift(f)) == Score(f)
  {
    assert Normalize(Lift(f)) == f;
  }

  /** A record with every property missing scores like the empty food: 10. */
  lemma WebScoreOfMissing(name: string)
    ensures WebScore(JsFood(name, Undefined, Undefined, Undefined, Undefined,
                            Undefined, Undefined, Undefined, Undefined)) == 10
  {
    assert Normalize(JsFood(name, Undefined, Undefined, Undefined, Undefined,
                            Undefined, Undefined, Undefined, Undefined)) == EmptyFood.(name := name);
  }
}
