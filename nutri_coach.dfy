/**
 * The coaching screen's data (`NutriCoachTipViewModel.kt`): the patient's scores and ticked
 * food categories that go into the tip request, and the patient's saved tips.
 */
module NutriCoach {
  import opened Wrappers
  import opened Records
  import Tables
  import Auth
  import Insight
  import Questionnaire
  import PatientRepo
  import FoodIntakeRepo

  /** `getPatientScore`: the total followed by the thirteen category scores of the insights screen. */
  function GetPatientScore(patient: Option<Patient>): (r: seq<(string, real)>)
    ensures |r| == 14
    ensures r[0] == ("Total Score", Insight.GetPatientTotalScore(patient))
    ensures r[1..] == Insight.GetPatientScore(patient)
    ensures patient.None? ==> forall i | 0 <= i < |r| :: r[i].1 == 0.0
  {
    [("Total Score", Insight.GetPatientTotalScore(patient))] + Insight.GetPatientScore(patient)
  }

  /**
   * `getPatientFoodIntake`: each questionnaire category paired with its checkbox, all unticked
   * with no questionnaire loaded. Reading box `i` requires the stored list to have it.
   */
  function GetPatientFoodIntake(intake: Option<FoodIntake>): (r: seq<(string, bool)>)
    requires intake.Some? ==> |intake.value.checkboxes| >= CheckboxCount
    ensures |r| == CheckboxCount
    ensures forall i | 0 <= i < |r| :: r[i].0 == Questionnaire.FoodCategories()[i]
    ensures forall i | 0 <= i < |r| :: r[i].1 <==> intake.Some? && intake.value.checkboxes[i]
  {
    var labels := Questionnaire.FoodCategories();
    seq(CheckboxCount, i requires 0 <= i < CheckboxCount =>
      (labels[i], intake.Some? && intake.value.checkboxes[i]))
  }

  /**
   * `ateFruits` in `generatePrompt`: the "Fruits" entry of the category map, false when missing.
   * It is the first checkbox, false with no questionnaire.
   */
  function AteFruits(intake: Option<FoodIntake>): (r: bool)
    requires intake.Some? ==> |intake.value.checkboxes| >= CheckboxCount
    ensures r <==> intake.Some? && intake.value.checkboxes[0]
  {
    FruitsEntryIsFirstBox(intake);
    var m := Tables.ToMap(GetPatientFoodIntake(intake));
    if "Fruits" in m then m["Fruits"] else false
  }

  /** The sentence of the tip request that reports fruit eating; it depends on the first checkbox only. */
  function FruitSentence(intake: Option<FoodIntake>): (r: string)
    requires intake.Some? ==> |intake.value.checkboxes| >= CheckboxCount
    ensures r == if intake.Some? && intake.value.checkboxes[0]
      then "reported eating fruits recently" else "did not report eating fruits recently"
  {
    if AteFruits(intake) then "reported eating fruits recently" else "did not report eating fruits recently"
  }

  lemma FoodCategoriesDistinct()
    ensures Tables.KeysDistinct(GetPatientFoodIntake(None))
  {
    var r := GetPatientFoodIntake(None);
    var labels := Questionnaire.FoodCategories();
    forall a, b | 0 <= a < b < |r| ensures r[a].0 != r[b].0 {
      assert r[a].0 == labels[a] && r[b].0 == labels[b];
    }
  }

  /** The "Fruits" entry of the category map is the first checkbox. */
  lemma FruitsEntryIsFirstBox(intake: Option<FoodIntake>)
    requires intake.Some? ==> |intake.value.checkboxes| >= CheckboxCount
    ensures var m := Tables.ToMap(GetPatientFoodIntake(intake));
      "Fruits" in m && (m["Fruits"] <==> intake.Some? && intake.value.checkboxes[0])
  {
    var r := GetPatientFoodIntake(intake);
    FoodCategoriesDistinct();
    assert Tables.KeysDistinct(r) by {
      var n := GetPatientFoodIntake(None);
      forall a, b | 0 <= a < b < |r| ensures r[a].0 != r[b].0 {
        assert r[a].0 == n[a].0 && r[b].0 == n[b].0;
      }
    }
    Tables.ToMapFinds(r, 0);
    assert r[0].0 == "Fruits";
  }

  /** A list of tips: the `NutriCoachTips` table, with Room's replace-on-conflict insert. */
  class TipStore {
    var rows: seq<NutriCoachTip>
    var nextId: int

    ghost predicate Valid()
      reads this
    {
      && (forall i, j | 0 <= i < j < |rows| :: rows[i].id != rows[j].id)
      && (forall i | 0 <= i < |rows| :: rows[i].id != 0 && rows[i].id < nextId)
      && nextId >= 1
    }

    constructor ()
      ensures Valid() && rows == []
    {
      rows := [];
      nextId := 1;
    }

    /** `insertTip`: a new tip gets the next id; a tip with a stored id replaces that row. */
    method InsertTip(tip: NutriCoachTip)
      requires Valid()
      modifies this
      ensures Valid()
      ensures tip.id == 0 ==> rows == old(rows) + [tip.(id := old(nextId))] && nextId == old(nextId) + 1
      ensures tip.id != 0 && (forall i | 0 <= i < |old(rows)| :: old(rows)[i].id != tip.id) ==>
        rows == old(rows) + [tip] && nextId == if tip.id >= old(nextId) then tip.id + 1 else old(nextId)
      ensures forall i | 0 <= i < |old(rows)| && old(rows)[i].id == tip.id ::
        rows == old(rows)[i := tip] && nextId == old(nextId)
    {
      if tip.id == 0 {
        rows := rows + [tip.(id := nextId)];
        nextId := nextId + 1;
      } else {
        var k := 0;
        while k < |rows| && rows[k].id != tip.id
          invariant 0 <= k <= |rows|
          invariant forall i | 0 <= i < k :: rows[i].id != tip.id
        {
          k := k + 1;
        }
        if k < |rows| {
          rows := rows[k := tip];
        } else {
          rows := rows + [tip];
          if tip.id >= nextId {
            nextId := tip.id + 1;
          }
        }
      }
    }

    /** `getTipsByPatientId`: the patient's tips. */
    function GetTipsByPatientId(patientId: string): (r: seq<NutriCoachTip>)
      reads this
      ensures forall i | 0 <= i < |r| :: r[i].patientId == patientId && r[i] in rows
      ensures forall i | 0 <= i < |rows| && rows[i].patientId == patientId :: rows[i] in r
    {
      Tables.Filter(rows, (t: NutriCoachTip) => t.patientId == patientId)
    }
  }

  class NutriCoachTipViewModel {
    const patientId: string
    var thePatient: Option<Patient>
    var foodIntake: Option<FoodIntake>
    var allTips: seq<NutriCoachTip>
    var allTipsUiState: UiState
    /** Every state the tip list has shown, oldest first. */
    ghost var tipStates: seq<UiState>

    /**
     * A new screen loads the session's patient, questionnaire and tips; `failure` is the message of
     * an exception thrown while reading the tips, if any.
     */
    constructor (auth: Auth.AuthManager, patients: PatientRepo.PatientRepository,
                 intakes: FoodIntakeRepo.FoodIntakeRepository, tips: TipStore, failure: Option<string>)
      ensures patientId == auth.PatientId().GetOr("")
      ensures thePatient == patients.GetPatientById(patientId)
      ensures foodIntake == intakes.GetAllIntakesByPatientId(patientId)
      ensures failure.None? ==> allTips == tips.GetTipsByPatientId(patientId)
      ensures failure.None? ==> allTipsUiState == Success("Tips successfully fetched")
      ensures failure.Some? ==> allTips == [] && allTipsUiState == Error("Error: " + failure.value)
      ensures tipStates == [Initial, Loading, allTipsUiState]
    {
      patientId := auth.PatientId().GetOr("");
      thePatient := patients.GetPatientById(auth.PatientId().GetOr(""));
      foodIntake := intakes.GetAllIntakesByPatientId(auth.PatientId().GetOr(""));
      allTips := [];
      allTipsUiState := Initial;
      tipStates := [Initial];
      new;
      LoadAllTips(tips, failure);
    }

    /** `loadAllTips`: loading, then the patient's tips and success, or an error that keeps the old list. */
    method LoadAllTips(tips: TipStore, failure: Option<string>)
      modifies this
      ensures failure.None? ==> allTips == tips.GetTipsByPatientId(patientId)
      ensures failure.None? ==> allTipsUiState == Success("Tips successfully fetched")
      ensures failure.Some? ==> allTips == old(allTips) && allTipsUiState == Error("Error: " + failure.value)
      ensures tipStates == old(tipStates) + [Loading, allTipsUiState]
      ensures thePatient == old(thePatient) && foodIntake == old(foodIntake)
    {
      allTipsUiState := Loading;
      tipStates := tipStates + [Loading];
      match failure {
        case None =>
          allTips := tips.GetTipsByPatientId(patientId);
          allTipsUiState := Success("Tips successfully fetched");
        case Some(message) =>
          allTipsUiState := Error("Error: " + message);
      }
      tipStates := tipStates + [allTipsUiState];
    }

    /** `insertTip`: the tip is stored, then the list is reloaded, so a new tip of this patient shows up. */
    method InsertTip(tips: TipStore, tip: NutriCoachTip, failure: Option<string>)
      requires tips.Valid()
      modifies this, tips
      ensures tips.Valid()
      ensures tip.id == 0 ==> tips.rows == old(tips.rows) + [tip.(id := old(tips.nextId))] && tips.nextId == old(tips.nextId) + 1
      ensures tip.id != 0 && (forall i | 0 <= i < |old(tips.rows)| :: old(tips.rows)[i].id != tip.id) ==>
        tips.rows == old(tips.rows) + [tip]
      ensures forall i | 0 <= i < |old(tips.rows)| && old(tips.rows)[i].id == tip.id ::
        tips.rows == old(tips.rows)[i := tip] && tips.nextId == old(tips.nextId)
      ensures failure.None? ==> allTips == tips.GetTipsByPatientId(patientId)
      ensures failure.None? ==> allTipsUiState == Success("Tips successfully fetched")
      ensures failure.None? && tip.patientId == patientId && tip.id == 0 ==> tip.(id := old(tips.nextId)) in allTips
      ensures failure.Some? ==> allTips == old(allTips) && allTipsUiState == Error("Error: " + failure.value)
      ensures tipStates == old(tipStates) + [Loading, allTipsUiState]
      ensures thePatient == old(thePatient) && foodIntake == old(foodIntake)
    {
      tips.InsertTip(tip);
      LoadAllTips(tips, failure);
      if failure.None? && tip.patientId == patientId && tip.id == 0 {
        assert tips.rows[|tips.rows| - 1] == tip.(id := old(tips.nextId));
      }
    }
  }
}
