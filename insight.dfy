/**
 * The insights screen (`InsightViewModel.kt`): per-category scores, the progress bar drawn for
 * each, and the explanation shown when a category is opened.
 * Kotlin `Float` arithmetic is modelled on `real`.
 */
module Insight {
  import opened Wrappers
  import opened Records

  /** The categories scored out of 5; every other category is scored out of 10. */
  const FivePointLabels: seq<string> :=
    ["Grains & Cereal", "Whole Grains", "Alcohol", "Water", "Saturated Fat", "Unsaturated Fat"]

  /** The maximum score of the category named `category`. */
  function Cap(category: string): (cap: real)
    ensures cap == 5.0 <==> category in FivePointLabels
    ensures cap == 5.0 || cap == 10.0
  {
    if category in FivePointLabels then 5.0 else 10.0
  }

  /** The colour of a progress bar. */
  datatype Band = Green | Amber | Red

  /** Red < Amber < Green. */
  function Rank(b: Band): nat {
    match b
    case Red => 0
    case Amber => 1
    case Green => 2
  }

  datatype ProgressInfo = ProgressInfo(ratio: real, cap: real, band: Band)

  /** `getProgressInfo`: the share of the maximum reached, the maximum, and the bar colour. */
  function GetProgressInfo(category: string, score: real): (r: ProgressInfo)
    ensures r.cap == Cap(category) && r.ratio * r.cap == score
    ensures r.band == Green <==> score >= 0.8 * r.cap
    ensures r.band == Amber <==> 0.5 * r.cap <= score < 0.8 * r.cap
    ensures r.band == Red <==> score < 0.5 * r.cap
  {
    var cap := Cap(category);
    var ratio := score / cap;
    var band := if ratio >= 0.8 then Green else if ratio >= 0.5 then Amber else Red;
    ProgressInfo(ratio, cap, band)
  }

  /** For a fixed category a higher score never gets a worse colour. */
  lemma BandNeverWorsens(category: string, lower: real, higher: real)
    requires lower <= higher
    ensures Rank(GetProgressInfo(category, lower).band) <= Rank(GetProgressInfo(category, higher).band)
  {
    var a, b := GetProgressInfo(category, lower), GetProgressInfo(category, higher);
    assert a.cap == b.cap;
  }

  /** The labels of the score list, in the order the screen lists them. */
  const ScoreLabels: seq<string> := [
    "Vegetables", "Fruits", "Grains & Cereal", "Whole Grains", "Meat & Alternatives", "Dairy", "Water",
    "Saturated Fat", "Unsaturated Fat", "Sodium", "Sugar", "Alcohol", "Discretionary"]

  /** The score behind the `i`-th category. */
  function ScoreField(p: Patient, i: nat): real
    requires i < |ScoreLabels|
  {
    [p.vegetableScore, p.fruitsScore, p.grainsScore, p.wholeGrainsScore, p.meatAlternativesScore,
     p.dairyScore, p.waterScore, p.saturatedFatScore, p.unsaturatedFatScore, p.sodiumScore,
     p.sugarScore, p.alcoholScore, p.discretionaryScore][i]
  }

  /** `getPatientTotalScore`: the total, or 0 with no patient loaded. */
  function GetPatientTotalScore(patient: Option<Patient>): (r: real)
    ensures patient.None? ==> r == 0.0
    ensures patient.Some? ==> r == patient.value.totalScore
  {
    match patient
    case None => 0.0
    case Some(p) => p.totalScore
  }

  /** `getPatientScore`: the thirteen labelled category scores, all 0 with no patient loaded. */
  function GetPatientScore(patient: Option<Patient>): (r: seq<(string, real)>)
    ensures |r| == |ScoreLabels| == 13
    ensures forall i | 0 <= i < |r| :: r[i].0 == ScoreLabels[i]
    ensures patient.None? ==> forall i | 0 <= i < |r| :: r[i].1 == 0.0
    ensures patient.Some? ==> forall i | 0 <= i < |r| :: r[i].1 == ScoreField(patient.value, i)
  {
    seq(|ScoreLabels|, i requires 0 <= i < |ScoreLabels| =>
      (ScoreLabels[i], match patient case None => 0.0 case Some(p) => ScoreField(p, i)))
  }

  const CategoryKey: string := "Category"

  /** The measurement `field` of the loaded patient, as `patient?.field.toString()` shows it. */
  function M(patient: Option<Patient>, field: Patient -> real): Cell {
    Measure(if patient.Some? then Some(field(patient.value)) else None)
  }

  /** The category names the explanations start with, by index. */
  const CategoryNames: seq<string> := [
    "Vegetables", "Fruits", "Grains & Cereal", "Whole Grains", "Meat & Alternatives", "Dairy", "Water",
    "Saturated fat", "Unsaturated fat", "Sodium", "Sugar", "Alcohol", "Discretionary"]

  /** `getCategoryInfo`: the explanation table of category `index`, headed by the category's name. */
  function GetCategoryInfo(patient: Option<Patient>, index: int): (r: seq<(string, Cell)>)
    ensures 0 <= index < |CategoryNames| <==> r != []
    ensures r != [] ==> r[0] == (CategoryKey, Fixed(CategoryNames[index]))
  {
    if 0 <= index < |CategoryNames| then [(CategoryKey, Fixed(CategoryNames[index]))] + Details(patient, index)
    else []
  }

  /** The rows of category `index`'s explanation after its name. */
  function Details(patient: Option<Patient>, index: int): seq<(string, Cell)> {
    if index == 0 then [
      ("Serve size", M(patient, (p: Patient) => p.vegetableServeSize)),
      ("Max Score (5)", Fixed("Males: \U{2265} 6 serves\nFemales \U{2265} 5 serves")),
      ("Zero Score", Fixed("No vegetables")),
      ("Variation Score", M(patient, (p: Patient) => p.vegetableVarietyScore)),
      ("Max Score (5)", Fixed("At least one variety of vegetables")),
      ("Zero score", Fixed("Variety score: 0")),
      ("Terminology", Fixed("Vegetable variety:\n - Consuming different types of vegetables (leafy, cruciferous, root, etc.)\n"
        + "Serve size:\n - 75g is approximately 1/2 cup cooked vegetables or 1 cup of leafy salad vegetables."))]
    else if index == 1 then [
      ("Serve size", M(patient, (p: Patient) => p.fruitServeSize)),
      ("Max Score (5)", Fixed("\U{2265} 2 serves")),
      ("Zero Score", Fixed("No fruit")),
      ("Variation Score", M(patient, (p: Patient) => p.fruitVarietyScore)),
      ("Max Score (5)", Fixed("\U{2265} 2 varieties of fruit consumed")),
      ("Zero score", Fixed("Variety score: 0")),
      ("Terminology", Fixed("Fruit serve:\n - Approximately 150g (1 medium piece or 2 small pieces) or 350kJ.\n"
        + "Fruit variety:\n - Consuming different types of fruits across categories (e.g., berries, citrus, stone fruits)."))]
    else if index == 2 then [
      ("Serve size", M(patient, (p: Patient) => p.grainsServeSize)),
      ("Max Score (5)", Fixed("\U{2265} 6 serves")),
      ("Zero Score", Fixed("No grains and/or cereals")),
      ("Terminology", Fixed("Refined grains:\n - Grains that have had the bran and germ removed."))]
    else if index == 3 then [
      ("Serve size", M(patient, (p: Patient) => p.wholeGrainsServeSize)),
      ("Max Score (5)", Fixed("\U{2265} 50% wholegrains or \U{2265} 3 serves")),
      ("Zero Score", Fixed("No wholegrains")),
      ("Terminology", Fixed("Wholegrains:\n - Grains that retain all parts of the grain (bran, germ, endosperm)."))]
    else if index == 4 then [
      ("Serve size", M(patient, (p: Patient) => p.meatAlternativesServeSize)),
      ("Max Score (10)", Fixed("Males: \U{2265} 3 serves\nFemales: \U{2265} 2.5 serves")),
      ("Zero Score", Fixed("Males: \U{2264} 0.5 serves\nFemales: 0 serves")),
      ("Terminology", Fixed("Meat alternatives:\n - Include eggs, nuts, seeds, legumes, tofu.\n"
        + "Serve size:\n - ~65-100g cooked meat, 2 eggs, 170g tofu, 30g nuts/seeds."))]
    else if index == 5 then [
      ("Serve size", M(patient, (p: Patient) => p.dairyServeSize)),
      ("Max Score (10)", Fixed("\U{2265} 2.5 serves")),
      ("Zero Score", Fixed("No dairy and/or alternatives")),
      ("Terminology", Fixed("Dairy alternatives:\n - Plant-based milk and products fortified with calcium.\n"
        + "Serve size:\n - 250ml milk, 200g yogurt, 40g cheese"))]
    else if index == 6 then [
      ("Water Consumption (ml)", M(patient, (p: Patient) => p.waterTotalML)),
      ("Total Beverage Consumption (ml)", M(patient, (p: Patient) => p.beverageTotalML)),
      ("Percentage of Water Consumption (%)", M(patient, (p: Patient) => p.water)),
      ("Max Score (5)", Fixed("\U{2265} 50% water consumed relative to total beverages")),
      ("Zero Score", Fixed("Did not meet 1.5L of non-alcoholic beverages")),
      ("Terminology", Fixed("Total beverages:\n - Includes all fluids consumed.\n"
        + "Recommended intake:\n - 8-10 cups (2-2.5L) of fluid daily, primarily from water."))]
    else if index == 7 then [
      ("Intake (%)", M(patient, (p: Patient) => p.saturatedFat)),
      ("Max Score (5)", Fixed("Saturated fat \U{2264} 10% of total energy intake")),
      ("Zero Score", Fixed("Saturated fat  \U{2265} 12% of total energy intake")),
      ("Terminology", Fixed("Saturated fat:\n - Type of fat found in animal products and some plant oils."))]
    else if index == 8 then [
      ("Serve Size", M(patient, (p: Patient) => p.unsaturatedFatServeSize)),
      ("Max Score (5)", Fixed("MUFA & PUFA Males: 4 serves\nMUFA & PUFA Females: 2 serves")),
      ("Zero Score", Fixed(" MUFA & PUFA Males: < 1 serve\nMUFA & PUFA Females: < 0.5 serves")),
      ("Terminology", Fixed("MUFA:\n - Monounsaturated Fatty Acids (olive oil, avocados).\n"
        + "PUFA:\n - Polyunsaturated Fatty Acids (fish, nuts, seeds).\n"
        + "Serve size:\n - 10g or approximately 2 teaspoons."))]
    else if index == 9 then [
      ("Intake (mg)", M(patient, (p: Patient) => p.sodiumMG)),
      ("Max Score", Fixed("\U{2264} 70 mmol (920 mg)")),
      ("Zero Score", Fixed("> 100 mmol (3200 mg)")),
      ("Terminology", Fixed("Sodium:\n - Main component of salt (NaCl).\n"
        + "mmol:\n - Millimole, a unit of measurement (1 mmol sodium = 23mg).\n"
        + "Recommended intake:\n - Less than 2000mg per day"))]
    else if index == 10 then [
      ("Intake (%)", M(patient, (p: Patient) => p.sugar)),
      ("Max Score", Fixed("< 15% of total energy intake")),
      ("Zero Score", Fixed("> 20% of total energy intake")),
      ("Terminology", Fixed("Added sugars:\n - Sugars added during food processing or preparation, not naturally occurring in foods.\n"
        + "WHO recommendation:\n - Less than 10% of total energy from added sugars."))]
    else if index == 11 then [
      ("Intake (%)", M(patient, (p: Patient) => p.alcoholServeSize)),
      ("Max Score", Fixed("\U{2264} 1.4 standard drinks per day")),
      ("Zero Score", Fixed("> 1.4 standard drinks per day")),
      ("Terminology", Fixed("Standard drink:\n - Contains 10g of pure alcohol.\n"
        + "Examples:\n - 100ml wine (13% alcohol), 285ml beer (4.9% alcohol).\n"
        + "Guidelines:\n - For health reasons, consuming no alcohol is safest.\n"))]
    else if index == 12 then [
      ("Serve size", M(patient, (p: Patient) => p.discretionaryServeSize)),
      ("Max Score", Fixed("Males: < 3 serves\nFemales < 2.5 serves")),
      ("Zero Score", Fixed("Males: \U{2265} 6 serves\nFemales \U{2265} 5.5 serves")),
      ("Terminology", Fixed("Foods high in saturated fat, added sugar, salt and/or alcohol that are not necessary for a healthy diet (e.g., chips, sweets, soft drinks)."))]
    else []
  }

  /** One "is this category's explanation open" flag per category. */
  const ModalCount: nat := 13

  /**
   * Every row of the score list has an open flag and an explanation, and the explanation is of
   * the same category: the names agree except for the letter case of "fat" in the two fat rows.
   */
  lemma ScoreRowsHaveExplanations(patient: Option<Patient>, i: nat)
    requires i < |GetPatientScore(patient)|
    ensures i < ModalCount && GetCategoryInfo(patient, i) != []
    ensures i != 7 && i != 8 ==> GetCategoryInfo(patient, i)[0].1.text == GetPatientScore(patient)[i].0
    ensures i == 7 ==> GetCategoryInfo(patient, i)[0].1.text == "Saturated fat" && GetPatientScore(patient)[i].0 == "Saturated Fat"
    ensures i == 8 ==> GetCategoryInfo(patient, i)[0].1.text == "Unsaturated fat" && GetPatientScore(patient)[i].0 == "Unsaturated Fat"
  {
  }
}
