/**
 * The session singleton (`data/util/AuthManager.kt`): the logged-in patient's id in memory,
 * mirrored under the `currentSession` key of the preferences file.
 */
module Auth {
  import opened Wrappers
  import opened Preferences

  class AuthManager {
    var userId: Option<string>

    /** Nobody is logged in until the session is restored or a patient logs in. */
    constructor ()
      ensures userId == None
    {
      userId := None;
    }

    /** `getPatientId`. */
    function PatientId(): Option<string>
      reads this
    {
      userId
    }

    /** Restores the session saved in the preferences file, if any. */
    method InitializeUserId(prefs: Store)
      modifies this
      ensures PatientId() == StringAt(prefs.entries, SessionKey)
    {
      userId := StringAt(prefs.entries, SessionKey);
    }

    /** Starts a session for `u` and saves it; only the session key is written. */
    method Login(u: string, prefs: Store)
      modifies this, prefs
      ensures PatientId() == Some(u)
      ensures prefs.entries == WithString(old(prefs.entries), SessionKey, Some(u))
      ensures StringAt(prefs.entries, SessionKey) == Some(u)
    {
      userId := Some(u);
      prefs.PutString(SessionKey, userId);
      ReadBackString(old(prefs.entries), SessionKey, Some(u));
    }

    /** Ends the session and removes it from the preferences file; only the session key is written. */
    method Logout(prefs: Store)
      modifies this, prefs
      ensures PatientId() == None
      ensures prefs.entries == WithString(old(prefs.entries), SessionKey, None)
      ensures StringAt(prefs.entries, SessionKey) == None
    {
      userId := None;
      prefs.PutString(SessionKey, None);
    }
  }

  /** A login followed by a restart restores the same patient, and a logout restores nobody. */
  method RestartAfter(loginAs: Option<string>, prefs: Store) returns (restored: Option<string>)
    modifies prefs
    ensures restored == loginAs
  {
    var before := new AuthManager();
    match loginAs {
      case Some(u) => before.Login(u, prefs);
      case None => before.Logout(prefs);
    }
    var after := new AuthManager();
    after.InitializeUserId(prefs);
    restored := after.PatientId();
  }
}
