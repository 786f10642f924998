/**
 * Patient login (`PatientLoginViewModel.kt`): a registered patient picks their id and types
 * their password, which is hashed and compared with the stored hash.
 */
module PatientLogin {
  import opened Wrappers
  import opened Records
  import opened Preferences
  import Auth
  import PatientLists
  import PatientRepo
  import Navigation

  datatype LoginResult =
    | NoPatientIdSelected
    | PatientNotInDatabase
    | NoPassword
    | PasswordIncorrect
    | LoginSuccessful

  function Message(r: LoginResult): string {
    match r
    case NoPatientIdSelected => "No Patient ID selected"
    case PatientNotInDatabase => "Patient not in database"
    case NoPassword => "Patient does not have a password"
    case PasswordIncorrect => "Password is incorrect"
    case LoginSuccessful => "Login Successful"
  }

  /**
   * `isAuthorized`: the checks in order, for the id picked and the patient loaded for it;
   * `hash` stands for SHA-256 written as lower-case hex.
   */
  function Authorize(patientId: string, loaded: Option<Patient>, password: string, hash: string -> string): (r: LoginResult)
    ensures r == NoPatientIdSelected <==> patientId == ""
    ensures r == PatientNotInDatabase <==> patientId != "" && loaded.None?
    ensures r == NoPassword <==> patientId != "" && loaded.Some? && loaded.value.patientPassword == ""
    ensures r == LoginSuccessful <==>
      patientId != "" && loaded.Some? && loaded.value.patientPassword != "" && hash(password) == loaded.value.patientPassword
  {
    if patientId == "" then NoPatientIdSelected
    else if loaded.None? then PatientNotInDatabase
    else if loaded.value.patientPassword == "" then NoPassword
    else if hash(password) != loaded.value.patientPassword then PasswordIncorrect
    else LoginSuccessful
  }

  /** After registering with a password, the same password logs the patient in. */
  lemma RegisteredPasswordLogsIn(patientId: string, p: Patient, password: string, hash: string -> string)
    requires patientId != "" && hash(password) != ""
    ensures Authorize(patientId, Some(p.(patientPassword := hash(password))), password, hash) == LoginSuccessful
  {
  }

  /** A patient who has not registered cannot log in, whatever is typed. */
  lemma UnregisteredNeverLogsIn(patientId: string, p: Patient, password: string, hash: string -> string)
    requires p.patientPassword == ""
    ensures Authorize(patientId, Some(p), password, hash) != LoginSuccessful
  {
  }

  class PatientLoginViewModel {
    var allPatients: seq<Patient>
    var thePatient: Option<Patient>

    constructor (repo: PatientRepo.PatientRepository)
      ensures allPatients == repo.GetAllPatients() && thePatient.None?
    {
      allPatients := repo.GetAllPatients();
      thePatient := None;
    }

    method LoadPatients(repo: PatientRepo.PatientRepository)
      modifies this
      ensures allPatients == repo.GetAllPatients() && thePatient == old(thePatient)
    {
      allPatients := repo.GetAllPatients();
    }

    method GetPatientById(repo: PatientRepo.PatientRepository, patientId: string)
      modifies this
      ensures thePatient == repo.GetPatientById(patientId) && allPatients == old(allPatients)
    {
      thePatient := repo.GetPatientById(patientId);
    }

    /**
     * `getAllRegisteredPatient`: the patients who already have a name. The login and reset screens
     * each declare this picker; both are `PatientLists.RegisteredPatients` of their loaded list.
     */
    function GetAllRegisteredPatient(): (r: seq<Patient>)
      reads this
      ensures forall i | 0 <= i < |r| :: r[i].name != [] && r[i] in allPatients
      ensures forall i | 0 <= i < |allPatients| :: allPatients[i].name != [] ==> allPatients[i] in r
    {
      PatientLists.RegisteredPatients(allPatients)
    }

    /**
     * `isAuthorized` and the action it returns: on success the session starts and the app opens
     * the home screen when the questionnaire was filled and the questionnaire otherwise.
     */
    method IsAuthorized(auth: Auth.AuthManager, prefs: Store, hash: string -> string, patientId: string, password: string)
      returns (result: LoginResult, destination: Option<Navigation.Screen>)
      modifies auth, prefs
      ensures result == Authorize(patientId, thePatient, password, hash)
      ensures result != LoginSuccessful ==>
        destination.None? && prefs.entries == old(prefs.entries) && auth.PatientId() == old(auth.PatientId())
      ensures result == LoginSuccessful ==> auth.PatientId() == Some(patientId)
      ensures result == LoginSuccessful ==> prefs.entries == WithString(old(prefs.entries), SessionKey, Some(patientId))
      ensures result == LoginSuccessful ==> destination == Some(Navigation.AfterLogin(old(prefs.entries), patientId))
    {
      result := Authorize(patientId, thePatient, password, hash);
      if result != LoginSuccessful {
        return result, None;
      }
      auth.Login(patientId, prefs);
      var answered := FlagAt(prefs.entries, FilledKey(patientId), false);
      SessionKeyIsNoFilledKey(patientId);
      OtherKeysUnchanged(old(prefs.entries), SessionKey, Some(patientId), FilledKey(patientId), false);
      destination := Some(if answered then Navigation.Home else Navigation.Questionnaire);
    }
  }
}
