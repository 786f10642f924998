/**
 * The persisted records of the application (the `data/database` package and `data/model/Fruit.kt`)
 * and the UI-state type shared by the view-models (`data/util/UiState.kt`).
 * Kotlin `Float` columns are `real`: only comparisons on them are modelled.
 */
module Records {
  import opened Wrappers

  /** A row of the `patients` table; `id` is the auto-generated primary key. */
  datatype Patient = Patient(
    id: int,
    patientId: string,
    patientPassword: string,
    name: string,
    phoneNumber: string,
    sex: string,
    totalScore: real,
    discretionaryScore: real,
    discretionaryServeSize: real,
    vegetableScore: real,
    vegetableServeSize: real,
    vegetableVarietyScore: real,
    fruitsScore: real,
    fruitServeSize: real,
    fruitVarietyScore: real,
    grainsScore: real,
    grainsServeSize: real,
    wholeGrainsScore: real,
    wholeGrainsServeSize: real,
    meatAlternativesScore: real,
    meatAlternativesServeSize: real,
    dairyScore: real,
    dairyServeSize: real,
    sodiumScore: real,
    sodiumMG: real,
    alcoholScore: real,
    alcoholServeSize: real,
    waterScore: real,
    water: real,
    waterTotalML: real,
    beverageTotalML: real,
    sugarScore: real,
    sugar: real,
    saturatedFatScore: real,
    saturatedFat: real,
    unsaturatedFatScore: real,
    unsaturatedFatServeSize: real)

  /** A row of the `food_intake` table: one patient's questionnaire answers. */
  datatype FoodIntake = FoodIntake(
    id: int,
    patientId: string,
    checkboxes: seq<bool>,
    persona: string,
    sleepTime: string,
    eatTime: string,
    wakeUpTime: string)

  /** Number of food-category checkboxes in a questionnaire. */
  const CheckboxCount: nat := 9

  /** An empty questionnaire: nothing ticked and every answer the empty string. */
  predicate IsBlankQuestionnaire(f: FoodIntake) {
    && |f.checkboxes| == CheckboxCount
    && (forall i | 0 <= i < |f.checkboxes| :: !f.checkboxes[i])
    && f.persona == "" && f.sleepTime == "" && f.eatTime == "" && f.wakeUpTime == ""
  }

  /** `FoodIntake(patientId = p)`: the Kotlin defaults, nine unticked boxes and empty answers. */
  function NewFoodIntake(patientId: string): (r: FoodIntake)
    ensures r.patientId == patientId && r.id == 0
    ensures IsBlankQuestionnaire(r)
  {
    FoodIntake(0, patientId, seq(CheckboxCount, _ => false), "", "", "", "")
  }

  /** A row of the `NutriCoachTips` table. */
  datatype NutriCoachTip = NutriCoachTip(id: int, patientId: string, tip: string, timeAdded: string)

  datatype Nutrition = Nutrition(calories: real, fat: real, sugar: real, carbohydrates: real, protein: real)

  /** A fruit as returned by the fruit-nutrition web service. */
  datatype Fruit = Fruit(id: int, name: string, family: string, order: string, genus: string, nutritions: Nutrition)

  /** The progress of an asynchronous load, as shown by the screens. */
  datatype UiState = Initial | Loading | Success(outputText: string) | Error(errorMessage: string)

  /** A value shown on screen: fixed text, or a `Float` printed with `toString` (`null` when absent). */
  datatype Cell = Fixed(text: string) | Measure(value: Option<real>)
}
