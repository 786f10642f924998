/**
 * Password reset (`ResetPasswordViewModel.kt`): a registered patient proves who they are with
 * their phone number and sets a new password, stored hashed.
 */
module ResetPassword {
  import opened Wrappers
  import opened Records
  import opened Credentials
  import PatientLists
  import PatientRepo
  import Navigation

  /** `verifyPatient`: only the phone number is compared; with no patient loaded it fails. */
  function VerifyPatient(loaded: Option<Patient>, phoneNumber: string): (r: bool)
    ensures r <==> loaded.Some? && loaded.value.phoneNumber == phoneNumber
  {
    match loaded
    case None => false
    case Some(p) => p.phoneNumber == phoneNumber
  }

  function VerificationMessage(verified: bool): string {
    if verified then "Successfully verified" else "Incorrect Phone Number"
  }

  datatype Outcome =
    | PasswordChanged
    | Refused(problem: Problem)
    /** The form passed but no patient was loaded: `_thePatient.value!!` throws. */
    | NoPatientLoaded

  function Toast(o: Outcome): (r: Option<string>)
    ensures o.Refused? ==> r == Some(Message(o.problem))
    ensures o.PasswordChanged? ==> r == Some("Password changed successfully")
    ensures r.None? <==> o.NoPatientLoaded?
  {
    match o
    case PasswordChanged => Some("Password changed successfully")
    case Refused(p) => Some(Message(p))
    case NoPatientLoaded => None
  }

  function Destination(o: Outcome): (r: Option<Navigation.Screen>)
    ensures r.Some? <==> o.PasswordChanged?
    ensures r.Some? ==> Navigation.Route(r.value) == "Patient Login"
  {
    if o.PasswordChanged? then Some(Navigation.PatientLogin) else None
  }

  class ResetPasswordViewModel {
    var allPatients: seq<Patient>
    var thePatient: Option<Patient>

    constructor (repo: PatientRepo.PatientRepository)
      ensures allPatients == repo.GetAllPatients() && thePatient.None?
    {
      allPatients := repo.GetAllPatients();
      thePatient := None;
    }

    method LoadPatients(repo: PatientRepo.PatientRepository)
      modifies this
      ensures allPatients == repo.GetAllPatients() && thePatient == old(thePatient)
    {
      allPatients := repo.GetAllPatients();
    }

    method GetPatientById(repo: PatientRepo.PatientRepository, patientId: string)
      modifies this
      ensures thePatient == repo.GetPatientById(patientId) && allPatients == old(allPatients)
    {
      thePatient := repo.GetPatientById(patientId);
    }

    /**
     * `getAllRegisteredPatient`: the patients who already have a name. The login and reset screens
     * each declare this picker; both are `PatientLists.RegisteredPatients` of their loaded list.
     */
    function GetAllRegisteredPatient(): (r: seq<Patient>)
      reads this
      ensures forall i | 0 <= i < |r| :: r[i].name != [] && r[i] in allPatients
      ensures forall i | 0 <= i < |allPatients| :: allPatients[i].name != [] ==> allPatients[i] in r
    {
      PatientLists.RegisteredPatients(allPatients)
    }

    /** `updatePatientPassword`: the loaded patient's row gets the new password and the list is reloaded. */
    method UpdatePatientPassword(repo: PatientRepo.PatientRepository, password: string) returns (ok: bool)
      requires repo.Valid()
      modifies this, repo
      ensures repo.Valid()
      ensures ok <==> old(thePatient).Some?
      ensures !ok ==> repo.rows == old(repo.rows) && thePatient == old(thePatient) && allPatients == old(allPatients)
      ensures ok ==> thePatient == Some(old(thePatient).value.(patientPassword := password))
      ensures ok ==> repo.rows == PatientRepo.WithStored(old(repo.rows), thePatient.value)
      ensures ok ==> forall i | 0 <= i < |old(repo.rows)| && old(repo.rows)[i] == old(thePatient).value ::
        repo.rows == old(repo.rows)[i := thePatient.value]
      ensures ok ==> allPatients == repo.GetAllPatients()
      ensures repo.nextId == old(repo.nextId)
    {
      if thePatient.None? {
        return false;
      }
      var p := repo.UpdatePatientPassword(thePatient.value, password);
      thePatient := Some(p);
      LoadPatients(repo);
      ok := true;
    }

    /** `resetPassword`: the new password is checked in order and, when it passes, stored hashed. */
    method ResetPassword(repo: PatientRepo.PatientRepository, hash: string -> string,
                         newPassword: string, newConfirmPassword: string)
      returns (outcome: Outcome)
      requires repo.Valid()
      modifies this, repo
      ensures repo.Valid()
      ensures outcome.Refused? <==> ResetCheck(Form("", newPassword, newConfirmPassword)).Rejected?
      ensures outcome.Refused? ==> outcome.problem == ResetCheck(Form("", newPassword, newConfirmPassword)).problem
      ensures outcome.Refused? || outcome.NoPatientLoaded? ==> repo.rows == old(repo.rows)
      ensures outcome.Refused? || outcome.NoPatientLoaded? ==> thePatient == old(thePatient) && allPatients == old(allPatients)
      ensures outcome.NoPatientLoaded? ==> old(thePatient).None?
      ensures outcome == PasswordChanged ==> old(thePatient).Some?
      ensures outcome == PasswordChanged ==> thePatient == Some(old(thePatient).value.(patientPassword := hash(newPassword)))
      ensures outcome == PasswordChanged ==> repo.rows == PatientRepo.WithStored(old(repo.rows), thePatient.value)
      ensures outcome == PasswordChanged ==> allPatients == repo.GetAllPatients()
      ensures repo.nextId == old(repo.nextId)
      ensures outcome == PasswordChanged ==>
        forall i | 0 <= i < |old(repo.rows)| && old(repo.rows)[i] == old(thePatient).value ::
          repo.rows == old(repo.rows)[i := thePatient.value]
    {
      var verdict := ResetCheck(Form("", newPassword, newConfirmPassword));
      if verdict.Rejected? {
        return Refused(verdict.problem);
      }
      var ok := UpdatePatientPassword(repo, hash(newPassword));
      outcome := if ok then PasswordChanged else NoPatientLoaded;
    }
  }

  /** A changed password is the confirmed one and is long enough and has every character class. */
  lemma ChangedPasswordMeetsClasses(newPassword: string, newConfirmPassword: string)
    requires ResetCheck(Form("", newPassword, newConfirmPassword)) == Accepted
    ensures newPassword == newConfirmPassword && newPassword != []
    ensures IsLongEnough(newPassword) && HasUppercase(newPassword) && HasLowercase(newPassword)
    ensures HasDigit(newPassword) && HasSpecialChar(newPassword)
  {
  }
}
