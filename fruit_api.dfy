/**
 * The fruit look-up of the coaching screen (`FruitApiViewModel.kt`): the patient's fruit scores
 * decide whether a look-up is offered, and a look-up moves its state from loading to found or
 * not found.
 */
module FruitApi {
  import opened Wrappers
  import opened Records
  import Auth
  import PatientRepo

  /** What the fruit service call produced: a fruit (with an empty name when unknown), or an exception's message. */
  datatype FetchResult = Fetched(fruit: Fruit) | Failed(message: string)

  /** `isFruitScoreOptimal`: at least one serve and a variety score of at least 2.5; false with no patient. */
  function IsFruitScoreOptimal(patient: Option<Patient>): (r: bool)
    ensures r <==> patient.Some? && patient.value.fruitServeSize >= 1.0 && patient.value.fruitVarietyScore >= 2.5
  {
    var serve := if patient.Some? then patient.value.fruitServeSize else 0.0;
    var variety := if patient.Some? then patient.value.fruitVarietyScore else 0.0;
    serve >= 1.0 && variety >= 2.5
  }

  /** The labels of `getFruitDetailsMap`, in order. */
  const DetailLabels: seq<string> :=
    ["Name", "Family", "Genus", "Order", "Calories", "Sugar", "Carbohydrates", "Protein", "Fat"]

  /**
   * `getFruitDetailsMap`: the fruit's names (empty with no fruit) and its nutrition figures
   * (`null` with no fruit).
   */
  function GetFruitDetailsMap(fruit: Option<Fruit>): (r: seq<(string, Cell)>)
    ensures |r| == |DetailLabels| == 9
    ensures forall i | 0 <= i < |r| :: r[i].0 == DetailLabels[i]
    ensures forall i | 0 <= i < 4 :: r[i].1.Fixed?
    ensures forall i | 4 <= i < |r| :: r[i].1.Measure? && (r[i].1.value.Some? <==> fruit.Some?)
    ensures fruit.None? ==> forall i | 0 <= i < 4 :: r[i].1 == Fixed("")
  {
    match fruit
    case None => [
      ("Name", Fixed("")), ("Family", Fixed("")), ("Genus", Fixed("")), ("Order", Fixed("")),
      ("Calories", Measure(None)), ("Sugar", Measure(None)), ("Carbohydrates", Measure(None)),
      ("Protein", Measure(None)), ("Fat", Measure(None))]
    case Some(f) => [
      ("Name", Fixed(f.name)), ("Family", Fixed(f.family)), ("Genus", Fixed(f.genus)), ("Order", Fixed(f.order)),
      ("Calories", Measure(Some(f.nutritions.calories))), ("Sugar", Measure(Some(f.nutritions.sugar))),
      ("Carbohydrates", Measure(Some(f.nutritions.carbohydrates))), ("Protein", Measure(Some(f.nutritions.protein))),
      ("Fat", Measure(Some(f.nutritions.fat)))]
  }

  /** The state a look-up ends in, for what the service returned. */
  function FetchOutcome(result: FetchResult): (s: UiState)
    ensures s.Success? <==> result.Fetched? && result.fruit.name != ""
    ensures s.Success? ==> s.outputText == "Fruit found"
    ensures result.Fetched? && result.fruit.name == "" ==> s == Error("Fruit not found")
    ensures result.Failed? ==> s == Error("Error finding fruit: " + result.message)
  {
    match result
    case Fetched(fruit) => if fruit.name != "" then Success("Fruit found") else Error("Fruit not found")
    case Failed(message) => Error("Error finding fruit: " + message)
  }

  class FruitApiViewModel {
    const patientId: string
    var thePatient: Option<Patient>
    var patientUiState: UiState
    var apiFruit: Option<Fruit>
    var uiState: UiState
    var fruitName: string
    /** Every state the look-up has shown, oldest first. */
    ghost var uiStates: seq<UiState>

    /** A new screen loads the session's patient. */
    constructor (auth: Auth.AuthManager, repo: PatientRepo.PatientRepository)
      ensures patientId == auth.PatientId().GetOr("")
      ensures thePatient == repo.GetPatientById(patientId)
      ensures patientUiState == Success("Fetch successfully")
      ensures apiFruit.None? && uiState == Initial && fruitName == "" && uiStates == [Initial]
    {
      patientId := auth.PatientId().GetOr("");
      patientUiState := Initial;
      apiFruit := None;
      uiState := Initial;
      fruitName := "";
      uiStates := [Initial];
      new;
      LoadPatient(repo);
    }

    /** `loadPatient`: loading, then the patient read for the session's id and success. */
    method LoadPatient(repo: PatientRepo.PatientRepository)
      modifies this
      ensures thePatient == repo.GetPatientById(patientId)
      ensures patientUiState == Success("Fetch successfully")
      ensures apiFruit == old(apiFruit) && uiState == old(uiState) && fruitName == old(fruitName) && uiStates == old(uiStates)
    {
      patientUiState := Loading;
      thePatient := repo.GetPatientById(patientId);
      patientUiState := Success("Fetch successfully");
    }

    /** `buttonEnable`: a name is typed and no look-up is running. */
    predicate ButtonEnable()
      reads this
      ensures ButtonEnable() ==> fruitName != ""
    {
      fruitName != "" && !uiState.Loading?
    }

    /** The first half of `getFruitDetailByName`: the look-up starts and the button is disabled. */
    method StartFetch()
      modifies this
      ensures uiState == Loading && uiStates == old(uiStates) + [Loading]
      ensures !ButtonEnable()
      ensures apiFruit == old(apiFruit) && fruitName == old(fruitName)
      ensures thePatient == old(thePatient) && patientUiState == old(patientUiState)
    {
      uiState := Loading;
      uiStates := uiStates + [Loading];
    }

    /** The second half: the fruit is kept only when one was found. */
    method CompleteFetch(result: FetchResult)
      modifies this
      ensures uiState == FetchOutcome(result) && uiStates == old(uiStates) + [uiState]
      ensures apiFruit == if uiState.Success? then Some(result.fruit) else old(apiFruit)
      ensures ButtonEnable() <==> fruitName != ""
      ensures fruitName == old(fruitName) && thePatient == old(thePatient) && patientUiState == old(patientUiState)
    {
      match result {
        case Fetched(fruit) =>
          if fruit.name != "" {
            apiFruit := Some(fruit);
          }
        case Failed(_) =>
      }
      uiState := FetchOutcome(result);
      uiStates := uiStates + [uiState];
    }

    /** `getFruitDetailByName`, with `result` standing for the service's answer for `fruitName`. */
    method GetFruitDetailByName(result: FetchResult)
      modifies this
      ensures uiStates == old(uiStates) + [Loading, FetchOutcome(result)]
      ensures uiState == FetchOutcome(result)
      ensures apiFruit == if uiState.Success? then Some(result.fruit) else old(apiFruit)
      ensures uiState.Success? ==> GetFruitDetailsMap(apiFruit)[0].1 == Fixed(result.fruit.name) && result.fruit.name != ""
      ensures ButtonEnable() <==> fruitName != ""
      ensures fruitName == old(fruitName) && thePatient == old(thePatient) && patientUiState == old(patientUiState)
    {
      StartFetch();
      CompleteFetch(result);
    }
  }
}
