/**
 * Navigation in `MainActivity.kt`: the twelve screens and their route strings, which routes show
 * the bottom bar, the top bar and the clinician button, and where the app goes at launch.
 */
module Navigation {
  import opened Wrappers
  import opened Preferences

  datatype Screen =
    | Launch | Welcome | PatientLogin | Register | ResetPassword | Questionnaire
    | Home | Insight | NutriCoach | Settings | ClinicianLogin | ClinicianDashboard

  /** `AppDashboardScreen.route`. */
  function Route(s: Screen): (r: string)
    ensures r != []
  {
    match s
    case Launch => "Launch"
    case Welcome => "Welcome"
    case PatientLogin => "Patient Login"
    case Register => "Register"
    case ResetPassword => "Reset Password"
    case Questionnaire => "Questionnaire"
    case Home => "Home"
    case Insight => "Insight"
    case NutriCoach => "NutriCoach"
    case Settings => "Settings"
    case ClinicianLogin => "Clinician Login"
    case ClinicianDashboard => "Clinician Dashboard"
  }

  /** No two screens share a route, so a route string names one screen. */
  lemma RoutesDistinct(a: Screen, b: Screen)
    ensures Route(a) == Route(b) <==> a == b
  {
  }

  /** The routes whose screens carry the bottom navigation bar. */
  const BottomBarRoutes: seq<string> :=
    [Route(Home), Route(Insight), Route(NutriCoach), Route(Settings), Route(ClinicianLogin), Route(ClinicianDashboard)]

  /** Whether the bottom bar is drawn for the current destination (none while navigation starts). */
  predicate ShowsBottomBar(current: Option<string>)
    ensures ShowsBottomBar(current) ==> !ShowsTopBar(current)
  {
    current.Some? && current.value in BottomBarRoutes
  }

  /** The questionnaire's top bar; that screen has no bottom bar. */
  predicate ShowsTopBar(current: Option<string>)
    ensures ShowsTopBar(current) ==> current.Some? && current.value !in BottomBarRoutes
  {
    current == Some(Route(Questionnaire))
  }

  /** The clinician button, drawn only where the bottom bar is. */
  predicate ShowsClinicianButton(current: Option<string>)
    ensures ShowsClinicianButton(current) ==> ShowsBottomBar(current)
  {
    current == Some(Route(ClinicianDashboard))
  }

  /** The bottom bar is drawn on exactly the six dashboard screens. */
  lemma BottomBarScreens(s: Screen)
    ensures ShowsBottomBar(Some(Route(s))) <==> s in {Home, Insight, NutriCoach, Settings, ClinicianLogin, ClinicianDashboard}
  {
    forall t: Screen ensures Route(s) == Route(t) <==> s == t {
      RoutesDistinct(s, t);
    }
  }

  /** The top bar is drawn only on the questionnaire and the clinician button only on the dashboard. */
  lemma BarScreens(s: Screen)
    ensures ShowsTopBar(Some(Route(s))) <==> s == Questionnaire
    ensures ShowsClinicianButton(Some(Route(s))) <==> s == ClinicianDashboard
  {
    RoutesDistinct(s, Questionnaire);
    RoutesDistinct(s, ClinicianDashboard);
  }

  /** Where a patient goes once logged in: home when the questionnaire is filled, else the questionnaire. */
  function AfterLogin(entries: map<string, Value>, patientId: string): (s: Screen)
    ensures s == Home <==> FlagAt(entries, FilledKey(patientId), false)
    ensures s != Home ==> s == Questionnaire
  {
    if FlagAt(entries, FilledKey(patientId), false) then Home else Questionnaire
  }

  /** `InitialLaunchScreen`: the welcome screen without a saved session, otherwise as after a login. */
  function InitialScreen(entries: map<string, Value>): (s: Screen)
    ensures StringAt(entries, SessionKey) == None <==> s == Welcome
    ensures s in {Welcome, Home, Questionnaire}
  {
    match StringAt(entries, SessionKey)
    case None => Welcome
    case Some(u) => AfterLogin(entries, u)
  }

  /** Restarting after a login opens the screen that the login itself opened. */
  lemma LaunchAfterLogin(entries: map<string, Value>, u: string)
    ensures InitialScreen(WithString(entries, SessionKey, Some(u))) == AfterLogin(entries, u)
  {
    ReadBackString(entries, SessionKey, Some(u));
    SessionKeyIsNoFilledKey(u);
    OtherKeysUnchanged(entries, SessionKey, Some(u), FilledKey(u), false);
  }

  /** Restarting after a logout opens the welcome screen. */
  lemma LaunchAfterLogout(entries: map<string, Value>)
    ensures InitialScreen(WithString(entries, SessionKey, None)) == Welcome
  {
    ReadBackString(entries, SessionKey, None);
  }
}
