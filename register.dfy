/**
 * Registration (`RegisterViewModel.kt`): pick an unregistered patient, verify the phone number,
 * then choose a name and password; the name is stored formatted and the password hashed.
 */
module Register {
  import opened Wrappers
  import opened Records
  import opened Credentials
  import Text
  import PatientLists
  import PatientRepo
  import Tables
  import Navigation

  datatype Verification = Verified | NoPatientSelected | AlreadyRegistered | IncorrectPhone

  function VerificationMessage(v: Verification): string {
    match v
    case Verified => "Successfully verified"
    case NoPatientSelected => "Please select a valid Patient ID"
    case AlreadyRegistered => "Patient is already registered"
    case IncorrectPhone => "Incorrect Phone Number"
  }

  /** `verifyPatient`: a patient must be loaded, have no password yet, and have the phone number typed. */
  function VerifyPatient(loaded: Option<Patient>, phoneNumber: string): (r: Verification)
    ensures r == Verified <==> loaded.Some? && loaded.value.patientPassword == "" && loaded.value.phoneNumber == phoneNumber
    ensures r == NoPatientSelected <==> loaded.None?
    ensures r == AlreadyRegistered <==> loaded.Some? && loaded.value.patientPassword != ""
  {
    if loaded.None? then NoPatientSelected
    else if loaded.value.patientPassword != "" then AlreadyRegistered
    else if loaded.value.phoneNumber != phoneNumber then IncorrectPhone
    else Verified
  }

  /** What pressing the register button leads to. */
  datatype Outcome =
    | Registered
    | Refused(problem: Problem)
    /** The form passed but no patient was loaded: `_thePatient.value!!` throws. */
    | NoPatientLoaded

  /** The toast shown and the screen navigated to once the button is pressed. */
  function Toast(o: Outcome): (r: Option<string>)
    ensures o.Refused? ==> r == Some(Message(o.problem))
    ensures o.Registered? ==> r == Some("Patient successfully registered")
    ensures r.None? <==> o.NoPatientLoaded?
  {
    match o
    case Registered => Some("Patient successfully registered")
    case Refused(p) => Some(Message(p))
    case NoPatientLoaded => None
  }

  function Destination(o: Outcome): (r: Option<Navigation.Screen>)
    ensures r.Some? <==> o.Registered?
    ensures r.Some? ==> Navigation.Route(r.value) == "Patient Login"
  {
    if o.Registered? then Some(Navigation.PatientLogin) else None
  }

  class RegisterViewModel {
    var allPatients: seq<Patient>
    var thePatient: Option<Patient>

    constructor (repo: PatientRepo.PatientRepository)
      ensures allPatients == repo.GetAllPatients() && thePatient.None?
    {
      allPatients := repo.GetAllPatients();
      thePatient := None;
    }

    method LoadPatients(repo: PatientRepo.PatientRepository)
      modifies this
      ensures allPatients == repo.GetAllPatients() && thePatient == old(thePatient)
    {
      allPatients := repo.GetAllPatients();
    }

    method GetPatientById(repo: PatientRepo.PatientRepository, patientId: string)
      modifies this
      ensures thePatient == repo.GetPatientById(patientId) && allPatients == old(allPatients)
    {
      thePatient := repo.GetPatientById(patientId);
    }

    /** `getAllUnregisteredPatient`. */
    function GetAllUnregisteredPatient(): (r: seq<Patient>)
      reads this
      ensures forall i | 0 <= i < |r| :: r[i].name == [] && r[i] in allPatients
      ensures forall i | 0 <= i < |allPatients| :: allPatients[i].name == [] ==> allPatients[i] in r
    {
      PatientLists.UnregisteredPatients(allPatients)
    }

    /**
     * `updatePatientDetails`: the loaded patient gets the name and then the password, both written
     * to the same record, and the list is reloaded.
     */
    method UpdatePatientDetails(repo: PatientRepo.PatientRepository, name: string, password: string)
      returns (ok: bool)
      requires repo.Valid()
      modifies this, repo
      ensures repo.Valid()
      ensures ok <==> old(thePatient).Some?
      ensures !ok ==> repo.rows == old(repo.rows) && thePatient == old(thePatient) && allPatients == old(allPatients)
      ensures ok ==> thePatient == Some(old(thePatient).value.(name := name, patientPassword := password))
      ensures ok ==> repo.rows == PatientRepo.WithStored(old(repo.rows), thePatient.value)
      ensures ok ==> forall i | 0 <= i < |old(repo.rows)| && old(repo.rows)[i] == old(thePatient).value ::
        repo.rows == old(repo.rows)[i := thePatient.value]
      ensures ok ==> allPatients == repo.GetAllPatients()
      ensures repo.nextId == old(repo.nextId)
    {
      if thePatient.None? {
        return false;
      }
      ghost var rows0 := repo.rows;
      var p0 := thePatient.value;
      var p1 := repo.UpdatePatientName(p0, name);
      var p2 := repo.UpdatePatientPassword(p1, password);
      Tables.ReplaceTwice(rows0, PatientRepo.RowId, p1, p2);
      thePatient := Some(p2);
      LoadPatients(repo);
      ok := true;
    }

    /**
     * `validatePatient`: the form is checked in order; when it passes, the formatted name and the
     * hash of the password are stored for the loaded patient.
     */
    method ValidatePatient(repo: PatientRepo.PatientRepository, hash: string -> string,
                           patientName: string, password: string, confirmPassword: string)
      returns (outcome: Outcome)
      requires repo.Valid()
      modifies this, repo
      ensures repo.Valid()
      ensures outcome.Refused? <==> RegisterCheck(Form(patientName, password, confirmPassword)).Rejected?
      ensures outcome.Refused? ==> outcome.problem == RegisterCheck(Form(patientName, password, confirmPassword)).problem
      ensures outcome.Refused? || outcome.NoPatientLoaded? ==> repo.rows == old(repo.rows)
      ensures outcome.Refused? || outcome.NoPatientLoaded? ==> thePatient == old(thePatient) && allPatients == old(allPatients)
      ensures outcome.NoPatientLoaded? ==> old(thePatient).None?
      ensures outcome == Registered ==> old(thePatient).Some?
      ensures outcome == Registered ==>
        thePatient == Some(old(thePatient).value.(name := Text.FormatName(patientName), patientPassword := hash(password)))
      ensures outcome == Registered ==> repo.rows == PatientRepo.WithStored(old(repo.rows), thePatient.value)
      ensures outcome == Registered ==>
        forall i | 0 <= i < |old(repo.rows)| && old(repo.rows)[i] == old(thePatient).value ::
          repo.rows == old(repo.rows)[i := thePatient.value]
      ensures outcome == Registered ==> allPatients == repo.GetAllPatients()
      ensures repo.nextId == old(repo.nextId)
    {
      var verdict := RegisterCheck(Form(patientName, password, confirmPassword));
      if verdict.Rejected? {
        return Refused(verdict.problem);
      }
      var hashedPassword := hash(password);
      var formattedName := Text.FormatName(patientName);
      var ok := UpdatePatientDetails(repo, formattedName, hashedPassword);
      outcome := if ok then Registered else NoPatientLoaded;
    }
  }

  /** A registration stores a well-formed name and a password that met all six requirements. */
  lemma RegisteredNameAndPassword(f: Form)
    requires RegisterCheck(f) == Accepted
    ensures Text.IsFormattedName(Text.FormatName(f.name))
    ensures MeetsAllRequirements(f.password) && f.password == f.confirm
    ensures !Text.IsBlank(f.name) && |f.name| >= 2 && NameCharsAllowed(f.name)
  {
  }
}
