/**
 * The settings screen (`SettingsViewModel.kt`): shows the logged-in patient, renames them,
 * logs out and stores the dark-mode choice.
 */
module Settings {
  import opened Wrappers
  import opened Records
  import opened Credentials
  import opened Preferences
  import Text
  import Auth
  import PatientRepo
  import Navigation

  /** The key under which the dark-mode choice is kept. */
  const DarkModeKey: string := "darkMode"

  /** The dark-mode key is neither the session key nor any questionnaire flag key. */
  lemma DarkModeKeyIsSeparate(patientId: string)
    ensures DarkModeKey != SessionKey && DarkModeKey != FilledKey(patientId)
  {
    assert DarkModeKey[0] == 'd';
    assert FilledKey(patientId)[0] == 'f';
  }

  datatype Outcome =
    | NameChanged
    | Refused(problem: Problem)
    /** The name passed but no patient was loaded: `_thePatient.value!!` throws. */
    | NoPatientLoaded

  function Toast(o: Outcome): (r: Option<string>)
    ensures o.Refused? ==> r == Some(Message(o.problem))
    ensures o.NameChanged? ==> r == Some("Name successfully changed")
    ensures r.None? <==> o.NoPatientLoaded?
  {
    match o
    case NameChanged => Some("Name successfully changed")
    case Refused(p) => Some(Message(p))
    case NoPatientLoaded => None
  }

  /** The patient record once the new name, formatted, is written into it. */
  function Renamed(p: Patient, name: string): (r: Patient)
    ensures r.id == p.id && r.patientId == p.patientId && r.patientPassword == p.patientPassword
    ensures Text.IsFormattedName(r.name)
  {
    p.(name := Text.FormatName(name))
  }

  class SettingsViewModel {
    /** The session's patient id when the screen was opened, or "" with no session. */
    const patientId: string
    var thePatient: Option<Patient>
    var showModal: bool
    var newName: string

    constructor (auth: Auth.AuthManager, repo: PatientRepo.PatientRepository)
      ensures patientId == auth.PatientId().GetOr("")
      ensures thePatient == repo.GetPatientById(patientId)
      ensures !showModal && newName == ""
    {
      patientId := auth.PatientId().GetOr("");
      thePatient := repo.GetPatientById(auth.PatientId().GetOr(""));
      showModal := false;
      newName := "";
    }

    method LoadPatient(repo: PatientRepo.PatientRepository)
      modifies this
      ensures thePatient == repo.GetPatientById(patientId)
      ensures showModal == old(showModal) && newName == old(newName)
    {
      thePatient := repo.GetPatientById(patientId);
    }

    /** `logout`: the session ends and the login screen opens. */
    method Logout(auth: Auth.AuthManager, prefs: Store) returns (destination: Navigation.Screen)
      modifies auth, prefs
      ensures auth.PatientId() == None
      ensures prefs.entries == WithString(old(prefs.entries), SessionKey, None)
      ensures Navigation.Route(destination) == "Patient Login"
      ensures Navigation.InitialScreen(prefs.entries) == Navigation.Welcome
    {
      auth.Logout(prefs);
      Navigation.LaunchAfterLogout(old(prefs.entries));
      destination := Navigation.PatientLogin;
    }

    /** `toggleDarkMode`: only the dark-mode flag is written. */
    method ToggleDarkMode(prefs: Store, isDark: bool)
      modifies prefs
      ensures prefs.entries == old(prefs.entries)[DarkModeKey := Flag(isDark)]
      ensures FlagAt(prefs.entries, DarkModeKey, !isDark) == isDark
      ensures StringAt(prefs.entries, SessionKey) == StringAt(old(prefs.entries), SessionKey)
    {
      prefs.PutBoolean(DarkModeKey, isDark);
      DarkModeKeyIsSeparate("");
    }

    /** `updatePatientName`: the loaded patient's row gets the formatted name and the patient is reloaded. */
    method UpdatePatientName(repo: PatientRepo.PatientRepository, name: string) returns (ok: bool)
      requires repo.Valid()
      modifies this, repo
      ensures repo.Valid()
      ensures ok <==> old(thePatient).Some?
      ensures !ok ==> repo.rows == old(repo.rows) && thePatient == old(thePatient)
      ensures ok ==> repo.rows == PatientRepo.WithStored(old(repo.rows), Renamed(old(thePatient).value, name))
      ensures ok ==> forall i | 0 <= i < |old(repo.rows)| && old(repo.rows)[i] == old(thePatient).value ::
        repo.rows == old(repo.rows)[i := Renamed(old(thePatient).value, name)]
      ensures ok ==> thePatient == repo.GetPatientById(patientId)
      ensures showModal == old(showModal) && newName == old(newName)
      ensures repo.nextId == old(repo.nextId)
    {
      ok := StoreName(repo, Text.FormatName(name));
    }

    /** Writes `formattedName` into the loaded patient's row and reloads the patient. */
    method StoreName(repo: PatientRepo.PatientRepository, formattedName: string) returns (ok: bool)
      requires repo.Valid()
      modifies this, repo
      ensures repo.Valid()
      ensures ok <==> old(thePatient).Some?
      ensures !ok ==> repo.rows == old(repo.rows) && thePatient == old(thePatient)
      ensures ok ==> repo.rows == PatientRepo.WithStored(old(repo.rows), old(thePatient).value.(name := formattedName))
      ensures ok ==> forall i | 0 <= i < |old(repo.rows)| && old(repo.rows)[i] == old(thePatient).value ::
        repo.rows == old(repo.rows)[i := old(thePatient).value.(name := formattedName)]
      ensures ok ==> thePatient == repo.GetPatientById(patientId)
      ensures showModal == old(showModal) && newName == old(newName)
      ensures repo.nextId == old(repo.nextId)
    {
      if thePatient.None? {
        return false;
      }
      var _ := repo.UpdatePatientName(thePatient.value, formattedName);
      LoadPatient(repo);
      ok := true;
    }

    /** `validateName`: the typed name is checked in order; when it passes it is stored and the dialog closes. */
    method ValidateName(repo: PatientRepo.PatientRepository) returns (outcome: Outcome, destination: Option<Navigation.Screen>)
      requires repo.Valid()
      modifies this, repo
      ensures repo.Valid()
      ensures outcome.Refused? <==> CheckName(old(newName)).Some?
      ensures outcome.Refused? ==> outcome.problem == CheckName(old(newName)).value
      ensures outcome.Refused? ==> repo.rows == old(repo.rows) && showModal == old(showModal) && destination.None?
      ensures outcome.NoPatientLoaded? ==> old(thePatient).None? && repo.rows == old(repo.rows)
      ensures !outcome.Refused? ==> !showModal
      ensures outcome.NameChanged? ==> old(thePatient).Some?
      ensures outcome.NameChanged? ==> repo.rows == PatientRepo.WithStored(old(repo.rows), Renamed(old(thePatient).value, old(newName)))
      ensures outcome.NameChanged? ==> destination == Some(Navigation.Settings)
      ensures outcome.NameChanged? ==> thePatient == repo.GetPatientById(patientId)
      ensures !outcome.NameChanged? ==> thePatient == old(thePatient)
      ensures newName == old(newName)
      ensures repo.nextId == old(repo.nextId)
    {
      var name := newName;
      var problem := CheckName(name);
      if problem.Some? {
        return Refused(problem.value), None;
      }
      var ok := UpdatePatientName(repo, name);
      showModal := false;
      if ok {
        outcome, destination := NameChanged, Some(Navigation.Settings);
      } else {
        outcome, destination := NoPatientLoaded, None;
      }
    }
  }

  /** A stored new name is an acceptable name and already in its formatted form. */
  lemma ChangedNameIsFormatted(name: string)
    requires CheckName(name).None?
    ensures Text.IsFormattedName(Text.FormatName(name))
    ensures Text.FormatName(Text.FormatName(name)) == Text.FormatName(name)
    ensures !Text.IsBlank(name) && |name| >= 2 && NameCharsAllowed(name)
  {
    Text.FormatNameIdempotent(name);
  }
}
