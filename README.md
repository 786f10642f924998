# NutriTrack, modelled in Dafny

NutriTrack is an Android app (Kotlin, Jetpack Compose, Room) that records patients' diet scores,
runs a food-intake questionnaire, and offers insights and coaching. This project models the logic
under its screens, file by file:

- the questionnaire's placeholders, its five ordered checks and the eat-time rule on the 24-hour clock;
- the account forms: registration, password reset and renaming, with their ordered rule chains, `formatName`, phone verification and the two patient pickers;
- the login decision with the password hash as a parameter;
- the session singleton over the `AppMemo` preferences file, and the launch routing and bar visibility of `MainActivity`;
- the score presentation of the insights screen;
- the fruit look-up state machine;
- the coaching screen's score and food lists, its fruit sentence and its tip list;
- the CSV import and the two repositories over tables keyed by id.

The questionnaire view-model applies the eat-time rule as the program writes it; the rule its
message states is modelled beside it and compared under "Findings". Records that the source updates in place, such as the repositories, the view-models, the session
and the preferences file, are classes whose methods state the whole new state. The rules are
functions, and the properties are lemmas about them. `Patient` and `FoodIntake` are datatypes. An
update that the source makes to the caller's record is modelled by returning the updated record.

Modules: `Wrappers`, `Records`, `Tables` (the query shapes), `Text`, `Credentials`, `Clock`,
`Preferences`, `Auth`, `Navigation`, `PatientRepo`, `FoodIntakeRepo`, `PatientLists`,
`Questionnaire`, `Register`, `ResetPassword`, `Settings`, `PatientLogin`, `Insight`, `FruitApi`,
`NutriCoach`, `CsvImport`.

## Model

| member | source | states |
|---|---|---|
| Clock.ParseTime | app/src/main/java/com/fit2081/bryan_34309861_a3_app/ui/screens/QuestionnaireScreen/QuestionnaireViewModel.kt:249-252 | a time that parses is a minute of the day and has the `HH:mm` shape; anything else is the parse exception |
| Clock.ParseFormattedTime | app/src/main/java/com/fit2081/bryan_34309861_a3_app/ui/screens/QuestionnaireScreen/QuestionnaireViewModel.kt:249-252 | every `%02d:%02d` string the time picker writes parses back to its own minute |
| Clock.FormatParsedTime | app/src/main/java/com/fit2081/bryan_34309861_a3_app/ui/screens/QuestionnaireScreen/QuestionnaireViewModel.kt:249-252 | every accepted string other than `24:00` is exactly the picker's text for its minute, so parsing loses nothing |
| Clock.MidnightAlias | app/src/main/java/com/fit2081/bryan_34309861_a3_app/ui/screens/QuestionnaireScreen/QuestionnaireViewModel.kt:249-252 | the lenient resolver reads `24:00` as the same midnight as `00:00` |
| Clock.MinusHours | app/src/main/java/com/fit2081/bryan_34309861_a3_app/ui/screens/QuestionnaireScreen/QuestionnaireViewModel.kt:254 | `minusHours` turns the clock back and wraps past midnight into the previous day's minutes |
| Clock.Gap | app/src/main/java/com/fit2081/bryan_34309861_a3_app/ui/screens/QuestionnaireScreen/QuestionnaireViewModel.kt:256-263 | the forward distance on the clock face: zero exactly for equal times, wrapping past midnight otherwise |
| Clock.GapExceeds | app/src/main/java/com/fit2081/bryan_34309861_a3_app/ui/screens/QuestionnaireScreen/QuestionnaireViewModel.kt:254-263 | the gap from one time to another exceeds `d` exactly when stepping forward up to `d` minutes never reaches it |
| Questionnaire.FoodCategories | app/src/main/java/com/fit2081/bryan_34309861_a3_app/ui/screens/QuestionnaireScreen/QuestionnaireViewModel.kt:120-125 | nine labels, one per checkbox of the placeholder |
| Questionnaire.Personas | app/src/main/java/com/fit2081/bryan_34309861_a3_app/ui/screens/QuestionnaireScreen/QuestionnaireViewModel.kt:132-137 | six personas |
| Questionnaire.GetPersonaInfo | app/src/main/java/com/fit2081/bryan_34309861_a3_app/ui/screens/QuestionnaireScreen/QuestionnaireViewModel.kt:200-208 | defined exactly for indices 0..5, with title `getPersonaList()[i]` and picture `persona_(i+1)`; any other index is the error |
| Questionnaire.DuringSleep | app/src/main/java/com/fit2081/bryan_34309861_a3_app/ui/screens/QuestionnaireScreen/QuestionnaireViewModel.kt:257-261 | the sleep window as the source tests it, in two branches by whether sleep crosses midnight; the sleep and wake times are never in it |
| Questionnaire.EatTimeOptimalAsWritten | app/src/main/java/com/fit2081/bryan_34309861_a3_app/ui/screens/QuestionnaireScreen/QuestionnaireViewModel.kt:254-263 | the program's rule: eat before `sleep.minusHours(2)` compared on the clock face and not during sleep; it implies not during sleep, and more than two clear hours when sleep is 02:00 or later |
| Questionnaire.EatTimeOptimal | app/src/main/java/com/fit2081/bryan_34309861_a3_app/ui/screens/QuestionnaireScreen/QuestionnaireViewModel.kt:283-289 | the rule the refusal message states: more than two hours from eating forward to sleeping, and not during sleep; it implies eating and sleeping differ |
| Questionnaire.Validate | app/src/main/java/com/fit2081/bryan_34309861_a3_app/ui/screens/QuestionnaireScreen/QuestionnaireViewModel.kt:231-289 | a reported problem is one of the five checks that the answers really fail, and acceptance means no check fails |
| Questionnaire.DuringSleepIsArc | app/src/main/java/com/fit2081/bryan_34309861_a3_app/ui/screens/QuestionnaireScreen/QuestionnaireViewModel.kt:257-261 | the two-branch sleep window is the clock arc strictly between sleep and waking, whether or not it crosses midnight |
| Questionnaire.SleepWindowExcludesEnds | app/src/main/java/com/fit2081/bryan_34309861_a3_app/ui/screens/QuestionnaireScreen/QuestionnaireViewModel.kt:257-261 | neither the sleep time nor the wake time counts as during sleep |
| Questionnaire.EatTimeOptimalMeansTwoClearHours | app/src/main/java/com/fit2081/bryan_34309861_a3_app/ui/screens/QuestionnaireScreen/QuestionnaireViewModel.kt:254-263 | the corrected rule holds exactly when sleep does not come within two hours after the meal and the meal is not during sleep |
| Questionnaire.AsWrittenAgreesWithoutWrap | app/src/main/java/com/fit2081/bryan_34309861_a3_app/ui/screens/QuestionnaireScreen/QuestionnaireViewModel.kt:254-263 | for sleep at 02:00 or later the rule as written equals the corrected rule restricted to meals earlier on the clock than sleep |
| Questionnaire.AsWrittenRefusesEveningMealBeforeMorningSleep | app/src/main/java/com/fit2081/bryan_34309861_a3_app/ui/screens/QuestionnaireScreen/QuestionnaireViewModel.kt:254-263 | sleep 08:00, wake 16:00, eat 18:00 is refused as written but fourteen clear hours pass before sleep |
| Questionnaire.AsWrittenAcceptsMealJustBeforeSleep | app/src/main/java/com/fit2081/bryan_34309861_a3_app/ui/screens/QuestionnaireScreen/QuestionnaireViewModel.kt:254-263 | sleep 01:00, wake 07:00, eat 00:30 is accepted as written though sleep follows after thirty minutes |
| Questionnaire.ValidateReportsFirstFailure | app/src/main/java/com/fit2081/bryan_34309861_a3_app/ui/screens/QuestionnaireScreen/QuestionnaireViewModel.kt:283-289 | the reported problem is the first failing check in the order checkbox, persona, times filled, times different, eat time |
| Questionnaire.ValidateAcceptsExactly | app/src/main/java/com/fit2081/bryan_34309861_a3_app/ui/screens/QuestionnaireScreen/QuestionnaireViewModel.kt:233-272 | for either rule, a submission goes through exactly when some box is ticked, a persona is chosen, the three times are filled, pairwise different and readable, and the rule holds; under the rule as written that is `eat < sleep.minusHours(2)` on the clock face and eat outside the sleep window |
| Questionnaire.UnreadableTimeIsNotOptimal | app/src/main/java/com/fit2081/bryan_34309861_a3_app/ui/screens/QuestionnaireScreen/QuestionnaireViewModel.kt:247-270 | a time that does not parse as `HH:mm` makes the eat-time check fail |
| Questionnaire.AsWrittenSubmitsLateMeal | app/src/main/java/com/fit2081/bryan_34309861_a3_app/ui/screens/QuestionnaireScreen/QuestionnaireViewModel.kt:231-289 | a complete form with a meal half an hour before sleep is submitted as written and refused by the corrected rule |
| Questionnaire.QuestionnaireViewModel.constructor | app/src/main/java/com/fit2081/bryan_34309861_a3_app/ui/screens/QuestionnaireScreen/QuestionnaireViewModel.kt:90-92 | the view-model is bound to the session's patient id (empty without one) and loads that patient's record into the placeholders |
| Questionnaire.QuestionnaireViewModel.LoadFoodIntake | app/src/main/java/com/fit2081/bryan_34309861_a3_app/ui/screens/QuestionnaireScreen/QuestionnaireViewModel.kt:99-113 | the placeholders take the stored answers when a record exists and keep their values otherwise |
| Questionnaire.QuestionnaireViewModel.SetCheckbox | app/src/main/java/com/fit2081/bryan_34309861_a3_app/ui/screens/QuestionnaireScreen/QuestionnaireViewModel.kt:65 | ticking one category changes that box and nothing else |
| Questionnaire.QuestionnaireViewModel.ValidateQuestionnaire | app/src/main/java/com/fit2081/bryan_34309861_a3_app/ui/screens/QuestionnaireScreen/QuestionnaireViewModel.kt:231-292 | with the rule as written, submits exactly when the checks pass; on success the loaded record with the five answers is written over the row with its id, the record is reloaded and `filled_<patientId>` is set; on failure the first problem is reported and nothing changes; the id counter never moves |
| Questionnaire.Toast | app/src/main/java/com/fit2081/bryan_34309861_a3_app/ui/screens/QuestionnaireScreen/QuestionnaireViewModel.kt:272-289 | a submission shows "Questionnaire submitted" and nothing else does; a refusal shows the message of its problem |
| Questionnaire.Destination | app/src/main/java/com/fit2081/bryan_34309861_a3_app/ui/screens/QuestionnaireScreen/QuestionnaireViewModel.kt:277 | only a submission navigates, to the route `Home` |
| Questionnaire.WithAnswers | app/src/main/java/com/fit2081/bryan_34309861_a3_app/ui/screens/QuestionnaireScreen/QuestionnaireViewModel.kt:146-185 | the record written by the three updates keeps its id and patient and holds exactly the placeholder answers |
| Text.LeadingWhitespace | app/src/main/java/com/fit2081/bryan_34309861_a3_app/ui/screens/RegisterScreen/RegisterViewModel.kt:174-176 | the length of the maximal run of whitespace that `s` starts with |
| Text.Trim | app/src/main/java/com/fit2081/bryan_34309861_a3_app/ui/screens/RegisterScreen/RegisterViewModel.kt:174-176 | `trim()` is exactly the slice of the name between its leading and its trailing whitespace: everything cut is whitespace and the result has no whitespace at either end |
| Text.FormatName | app/src/main/java/com/fit2081/bryan_34309861_a3_app/ui/screens/RegisterScreen/RegisterViewModel.kt:174-176 | `formatName` output has no whitespace at either end and words separated by exactly one space, and splitting it gives back the words of the trimmed name in order: only extra whitespace is removed |
| Text.JoinThenSplitWords | app/src/main/java/com/fit2081/bryan_34309861_a3_app/ui/screens/RegisterScreen/RegisterViewModel.kt:174-176 | words without whitespace, all but the first non-empty, are recovered by splitting their single-space join |
| Text.FormattedNameIsFixpoint | app/src/main/java/com/fit2081/bryan_34309861_a3_app/ui/screens/SettingsScreen/SettingsViewModel.kt:143-145 | a name already in that form is returned unchanged |
| Text.FormatNameIdempotent | app/src/main/java/com/fit2081/bryan_34309861_a3_app/ui/screens/RegisterScreen/RegisterViewModel.kt:174-176 | `formatName(formatName(s)) == formatName(s)` |
| Credentials.CheckNameIsFirstBrokenRule | app/src/main/java/com/fit2081/bryan_34309861_a3_app/ui/screens/RegisterScreen/RegisterViewModel.kt:206-223 | the name checks report the first of blank, shorter than 2, disallowed character that the name breaks |
| Credentials.CheckClassesIsFirstBrokenRule | app/src/main/java/com/fit2081/bryan_34309861_a3_app/ui/screens/RegisterScreen/RegisterViewModel.kt:236-250 | the class checks report the first missing class in the order uppercase, lowercase, digit, special |
| Credentials.RegisterPasswordCheckIsFirstBrokenRule | app/src/main/java/com/fit2081/bryan_34309861_a3_app/ui/screens/RegisterScreen/RegisterViewModel.kt:224-254 | the password checks of registration report the first broken rule in source order |
| Credentials.RegisterCheckIsFirstBrokenRule | app/src/main/java/com/fit2081/bryan_34309861_a3_app/ui/screens/RegisterScreen/RegisterViewModel.kt:206-255 | `validatePatient` reports the first broken rule of its eleven, name rules before password rules |
| Credentials.ResetCheckIsFirstBrokenRule | app/src/main/java/com/fit2081/bryan_34309861_a3_app/ui/screens/ResetPasswordScreen/ResetPasswordViewModel.kt:166-193 | `resetPassword` reports the first broken rule of: a field empty, mismatch, shorter than 8, then the four classes |
| Credentials.RejectionIsFirstBrokenRule | app/src/main/java/com/fit2081/bryan_34309861_a3_app/ui/screens/RegisterScreen/RegisterViewModel.kt:206-255 | a reported problem is really broken and every rule checked before it holds |
| Credentials.AcceptedIffNoRuleBroken | app/src/main/java/com/fit2081/bryan_34309861_a3_app/ui/screens/RegisterScreen/RegisterViewModel.kt:206-256 | a rule chain accepts exactly the forms that break none of its rules |
| Credentials.CheckName | app/src/main/java/com/fit2081/bryan_34309861_a3_app/ui/screens/SettingsScreen/SettingsViewModel.kt:169-186 | a name is accepted exactly when it is not blank, has at least two characters and only letters, space, `-` and `'` |
| Credentials.RegisterCheck | app/src/main/java/com/fit2081/bryan_34309861_a3_app/ui/screens/RegisterScreen/RegisterViewModel.kt:206-255 | registration accepts exactly an acceptable name with a password meeting all six requirement indicators of lines 50-55, typed twice |
| Credentials.ResetCheck | app/src/main/java/com/fit2081/bryan_34309861_a3_app/ui/screens/ResetPasswordScreen/ResetPasswordViewModel.kt:166-193 | reset accepts exactly a password that is long enough, has all four classes and equals its confirmation |
| Credentials.ResetAcceptsWhatRegisterRefuses | app/src/main/java/com/fit2081/bryan_34309861_a3_app/ui/screens/ResetPasswordScreen/ResetPasswordViewModel.kt:166-193 | a password with a space that meets every other rule is accepted by reset and refused by registration |
| Register.VerifyPatient | app/src/main/java/com/fit2081/bryan_34309861_a3_app/ui/screens/RegisterScreen/RegisterViewModel.kt:144-165 | verified exactly when a patient is loaded, has no password yet and has the typed phone number, the checks in that order |
| Register.Toast | app/src/main/java/com/fit2081/bryan_34309861_a3_app/ui/screens/RegisterScreen/RegisterViewModel.kt:206-263 | a refusal shows its rule's message, a registration the success message |
| Register.Destination | app/src/main/java/com/fit2081/bryan_34309861_a3_app/ui/screens/RegisterScreen/RegisterViewModel.kt:262 | only a registration navigates, to the route `Patient Login` |
| Register.RegisterViewModel.constructor | app/src/main/java/com/fit2081/bryan_34309861_a3_app/ui/screens/RegisterScreen/RegisterViewModel.kt:77-79 | a new view-model holds the full patient list and no selected patient |
| Register.RegisterViewModel.LoadPatients | app/src/main/java/com/fit2081/bryan_34309861_a3_app/ui/screens/RegisterScreen/RegisterViewModel.kt:87-91 | the list becomes `getAllPatients` |
| Register.RegisterViewModel.GetPatientById | app/src/main/java/com/fit2081/bryan_34309861_a3_app/ui/screens/RegisterScreen/RegisterViewModel.kt:99-104 | the selected patient becomes the row with that id, or none |
| PatientLists.UnregisteredPatients | app/src/main/java/com/fit2081/bryan_34309861_a3_app/ui/screens/RegisterScreen/RegisterViewModel.kt:111-113 | exactly the listed patients with an empty name, each kept |
| Register.RegisterViewModel.GetAllUnregisteredPatient | app/src/main/java/com/fit2081/bryan_34309861_a3_app/ui/screens/RegisterScreen/RegisterViewModel.kt:111-113 | the loaded patients without a name, every one of them |
| Register.RegisterViewModel.UpdatePatientDetails | app/src/main/java/com/fit2081/bryan_34309861_a3_app/ui/screens/RegisterScreen/RegisterViewModel.kt:121-127 | the loaded record with the new name and password is written over the row with its id; the list is reloaded; the id counter does not move |
| Register.RegisterViewModel.ValidatePatient | app/src/main/java/com/fit2081/bryan_34309861_a3_app/ui/screens/RegisterScreen/RegisterViewModel.kt:198-266 | a refused form reports the first broken rule and changes nothing; an accepted one writes the loaded record with `formatName(name)` and `hash(password)` over the row with its id and reloads the list; the id counter does not move |
| Register.RegisteredNameAndPassword | app/src/main/java/com/fit2081/bryan_34309861_a3_app/ui/screens/RegisterScreen/RegisterViewModel.kt:256-260 | a registration stores a formatted name checked on the raw input and a password meeting all six requirements |
| ResetPassword.VerifyPatient | app/src/main/java/com/fit2081/bryan_34309861_a3_app/ui/screens/ResetPasswordScreen/ResetPasswordViewModel.kt:132-140 | verified exactly when a patient is loaded and has the typed phone number |
| ResetPassword.Toast | app/src/main/java/com/fit2081/bryan_34309861_a3_app/ui/screens/ResetPasswordScreen/ResetPasswordViewModel.kt:166-200 | a refusal shows its rule's message, a change the success message |
| ResetPassword.Destination | app/src/main/java/com/fit2081/bryan_34309861_a3_app/ui/screens/ResetPasswordScreen/ResetPasswordViewModel.kt:199 | only a change navigates, to the route `Patient Login` |
| ResetPassword.ResetPasswordViewModel.constructor | app/src/main/java/com/fit2081/bryan_34309861_a3_app/ui/screens/ResetPasswordScreen/ResetPasswordViewModel.kt:76-78 | a new view-model holds the full patient list and no selected patient |
| ResetPassword.ResetPasswordViewModel.LoadPatients | app/src/main/java/com/fit2081/bryan_34309861_a3_app/ui/screens/ResetPasswordScreen/ResetPasswordViewModel.kt:86-90 | the list becomes `getAllPatients` |
| ResetPassword.ResetPasswordViewModel.GetPatientById | app/src/main/java/com/fit2081/bryan_34309861_a3_app/ui/screens/ResetPasswordScreen/ResetPasswordViewModel.kt:98-103 | the selected patient becomes the row with that id, or none |
| PatientLists.RegisteredPatients | app/src/main/java/com/fit2081/bryan_34309861_a3_app/ui/screens/ResetPasswordScreen/ResetPasswordViewModel.kt:110-112 | exactly the listed patients with a name, each kept |
| ResetPassword.ResetPasswordViewModel.GetAllRegisteredPatient | app/src/main/java/com/fit2081/bryan_34309861_a3_app/ui/screens/ResetPasswordScreen/ResetPasswordViewModel.kt:110-112 | the loaded patients with a name, every one of them |
| PatientLists.PickersPartitionPatients | app/src/main/java/com/fit2081/bryan_34309861_a3_app/ui/screens/ResetPasswordScreen/ResetPasswordViewModel.kt:110-112 | the registered and unregistered pickers split the patient list between them, with multiplicity |
| PatientLists.PickersKeepOrder | app/src/main/java/com/fit2081/bryan_34309861_a3_app/ui/screens/RegisterScreen/RegisterViewModel.kt:111-113 | both pickers keep list order: filtering a concatenation concatenates the filtered parts |
| ResetPassword.ResetPasswordViewModel.UpdatePatientPassword | app/src/main/java/com/fit2081/bryan_34309861_a3_app/ui/screens/ResetPasswordScreen/ResetPasswordViewModel.kt:119-124 | the loaded record with the new password is written over the row with its id; the list is reloaded; the id counter does not move |
| ResetPassword.ResetPasswordViewModel.ResetPassword | app/src/main/java/com/fit2081/bryan_34309861_a3_app/ui/screens/ResetPasswordScreen/ResetPasswordViewModel.kt:159-203 | a refused password reports the first broken rule and changes nothing; an accepted one writes the loaded record with `hash(newPassword)` over the row with its id and reloads the list; the id counter does not move |
| ResetPassword.ChangedPasswordMeetsClasses | app/src/main/java/com/fit2081/bryan_34309861_a3_app/ui/screens/ResetPasswordScreen/ResetPasswordViewModel.kt:166-197 | a stored new password was confirmed, is long enough and has every character class |
| Settings.DarkModeKeyIsSeparate | app/src/main/java/com/fit2081/bryan_34309861_a3_app/ui/screens/SettingsScreen/SettingsViewModel.kt:118-123 | the dark-mode key is neither the session key nor a questionnaire flag key |
| Settings.Toast | app/src/main/java/com/fit2081/bryan_34309861_a3_app/ui/screens/SettingsScreen/SettingsViewModel.kt:164-195 | a refusal shows its rule's message, a change the success message |
| Settings.Renamed | app/src/main/java/com/fit2081/bryan_34309861_a3_app/ui/screens/SettingsScreen/SettingsViewModel.kt:128-134 | a renamed patient keeps id, patient id and password and has a formatted name |
| Settings.SettingsViewModel.constructor | app/src/main/java/com/fit2081/bryan_34309861_a3_app/ui/screens/SettingsScreen/SettingsViewModel.kt:28 | the view-model is bound to the session's patient id and loads that patient |
| Settings.SettingsViewModel.LoadPatient | app/src/main/java/com/fit2081/bryan_34309861_a3_app/ui/screens/SettingsScreen/SettingsViewModel.kt:69-74 | the shown patient becomes the row with the session's id |
| Settings.SettingsViewModel.Logout | app/src/main/java/com/fit2081/bryan_34309861_a3_app/ui/screens/SettingsScreen/SettingsViewModel.kt:89-94 | the session is cleared before the login screen opens, and a later launch opens the welcome screen |
| Settings.SettingsViewModel.ToggleDarkMode | app/src/main/java/com/fit2081/bryan_34309861_a3_app/ui/screens/SettingsScreen/SettingsViewModel.kt:118-123 | only the dark-mode flag is written, so the session survives |
| Settings.SettingsViewModel.UpdatePatientName | app/src/main/java/com/fit2081/bryan_34309861_a3_app/ui/screens/SettingsScreen/SettingsViewModel.kt:128-134 | the loaded record with `formatName(name)` is written over the row with its id and no other field changes; the patient is reloaded; the id counter does not move |
| Settings.SettingsViewModel.StoreName | app/src/main/java/com/fit2081/bryan_34309861_a3_app/ui/screens/SettingsScreen/SettingsViewModel.kt:128-134 | the already formatted name is written into the loaded record's row and the patient is reloaded; the id counter does not move |
| Settings.SettingsViewModel.ValidateName | app/src/main/java/com/fit2081/bryan_34309861_a3_app/ui/screens/SettingsScreen/SettingsViewModel.kt:164-195 | a refused name reports the first broken name rule and changes neither the table nor the loaded patient; an accepted one is written formatted over the row with its id, the patient is reloaded and the dialog closes; the typed name and the id counter are kept |
| Settings.ChangedNameIsFormatted | app/src/main/java/com/fit2081/bryan_34309861_a3_app/ui/screens/SettingsScreen/SettingsViewModel.kt:187-192 | a stored new name passed the name rules and is in formatted form, so formatting it again changes nothing |
| PatientLogin.Authorize | app/src/main/java/com/fit2081/bryan_34309861_a3_app/ui/screens/PatientLoginScreen/PatientLoginViewModel.kt:117-148 | the first matching case in order: no id, no patient, no stored password, hash mismatch; success exactly when the hash of the input equals a non-empty stored hash |
| PatientLogin.RegisteredPasswordLogsIn | app/src/main/java/com/fit2081/bryan_34309861_a3_app/ui/screens/PatientLoginScreen/PatientLoginViewModel.kt:126-139 | a patient whose stored password is the hash of a password logs in with that password |
| PatientLogin.UnregisteredNeverLogsIn | app/src/main/java/com/fit2081/bryan_34309861_a3_app/ui/screens/PatientLoginScreen/PatientLoginViewModel.kt:129-131 | a patient with an empty stored password never logs in |
| PatientLogin.PatientLoginViewModel.constructor | app/src/main/java/com/fit2081/bryan_34309861_a3_app/ui/screens/PatientLoginScreen/PatientLoginViewModel.kt:58-60 | a new view-model holds the full patient list and no selected patient |
| PatientLogin.PatientLoginViewModel.LoadPatients | app/src/main/java/com/fit2081/bryan_34309861_a3_app/ui/screens/PatientLoginScreen/PatientLoginViewModel.kt:68-72 | the list becomes `getAllPatients` |
| PatientLogin.PatientLoginViewModel.GetPatientById | app/src/main/java/com/fit2081/bryan_34309861_a3_app/ui/screens/PatientLoginScreen/PatientLoginViewModel.kt:80-85 | the selected patient becomes the row with that id, or none |
| PatientLogin.PatientLoginViewModel.GetAllRegisteredPatient | app/src/main/java/com/fit2081/bryan_34309861_a3_app/ui/screens/PatientLoginScreen/PatientLoginViewModel.kt:92-94 | the loaded patients with a name, every one of them |
| PatientLogin.PatientLoginViewModel.IsAuthorized | app/src/main/java/com/fit2081/bryan_34309861_a3_app/ui/screens/PatientLoginScreen/PatientLoginViewModel.kt:111-149 | the decision is taken on the state at the call; on success the session is set to the id and the app opens Home when `filled_<id>` is set and the questionnaire otherwise; on failure nothing changes |
| Auth.AuthManager.constructor | app/src/main/java/com/fit2081/bryan_34309861_a3_app/data/util/AuthManager.kt:14 | nobody is logged in at first |
| Auth.AuthManager.InitializeUserId | app/src/main/java/com/fit2081/bryan_34309861_a3_app/data/util/AuthManager.kt:22-26 | the session becomes what is stored under `currentSession` |
| Auth.AuthManager.Login | app/src/main/java/com/fit2081/bryan_34309861_a3_app/data/util/AuthManager.kt:34-42 | the session becomes `u` and only `currentSession` is written, with `u` |
| Auth.AuthManager.Logout | app/src/main/java/com/fit2081/bryan_34309861_a3_app/data/util/AuthManager.kt:50-56 | the session ends and only `currentSession` is written, removed |
| Auth.RestartAfter | app/src/main/java/com/fit2081/bryan_34309861_a3_app/data/util/AuthManager.kt:22-56 | after a login a fresh start restores that patient; after a logout it restores nobody |
| Preferences.StringAt | app/src/main/java/com/fit2081/bryan_34309861_a3_app/data/util/AuthManager.kt:24 | `getString(key, null)` is the stored string, or null when the key holds none |
| Preferences.FlagAt | app/src/main/java/com/fit2081/bryan_34309861_a3_app/MainActivity.kt:200 | `getBoolean(key, default)` is the stored flag, or the default when the key is missing |
| Preferences.WithString | app/src/main/java/com/fit2081/bryan_34309861_a3_app/data/util/AuthManager.kt:54 | writing one key leaves every other key as it was; writing null removes the key |
| Preferences.ReadBackString | app/src/main/java/com/fit2081/bryan_34309861_a3_app/data/util/AuthManager.kt:36-41 | a string written under a key is what is read back |
| Preferences.OtherKeysUnchanged | app/src/main/java/com/fit2081/bryan_34309861_a3_app/data/util/AuthManager.kt:34-56 | writing the session key changes no other key's string or flag |
| Preferences.SessionKeyIsNoFilledKey | app/src/main/java/com/fit2081/bryan_34309861_a3_app/MainActivity.kt:198-200 | no questionnaire flag key is the session key |
| Preferences.FilledKey | app/src/main/java/com/fit2081/bryan_34309861_a3_app/ui/screens/QuestionnaireScreen/QuestionnaireViewModel.kt:280 | the flag key is `filled_` followed by the patient id |
| Navigation.Route | app/src/main/java/com/fit2081/bryan_34309861_a3_app/MainActivity.kt:48-61 | every screen has a non-empty route string |
| Navigation.ShowsBottomBar | app/src/main/java/com/fit2081/bryan_34309861_a3_app/MainActivity.kt:90-97 | the bottom bar is drawn for the six dashboard routes, never together with the top bar |
| Navigation.ShowsTopBar | app/src/main/java/com/fit2081/bryan_34309861_a3_app/MainActivity.kt:102-105 | the top bar is drawn on the questionnaire, a route outside the bottom bar's |
| Navigation.ShowsClinicianButton | app/src/main/java/com/fit2081/bryan_34309861_a3_app/MainActivity.kt:107-110 | the clinician button is drawn on the dashboard only, which has the bottom bar |
| Navigation.RoutesDistinct | app/src/main/java/com/fit2081/bryan_34309861_a3_app/MainActivity.kt:48-61 | the twelve route strings are pairwise distinct |
| Navigation.BottomBarScreens | app/src/main/java/com/fit2081/bryan_34309861_a3_app/MainActivity.kt:90-97 | the bottom bar shows exactly on Home, Insight, NutriCoach, Settings, Clinician Login and Clinician Dashboard |
| Navigation.BarScreens | app/src/main/java/com/fit2081/bryan_34309861_a3_app/MainActivity.kt:102-110 | the top bar shows only on the questionnaire and the button only on the clinician dashboard |
| Navigation.AfterLogin | app/src/main/java/com/fit2081/bryan_34309861_a3_app/ui/screens/PatientLoginScreen/PatientLoginViewModel.kt:143-146 | Home exactly when the patient's filled flag is set, the questionnaire otherwise |
| Navigation.InitialScreen | app/src/main/java/com/fit2081/bryan_34309861_a3_app/MainActivity.kt:196-219 | Welcome exactly when no session is stored; otherwise Home or the questionnaire by the filled flag |
| Navigation.LaunchAfterLogin | app/src/main/java/com/fit2081/bryan_34309861_a3_app/MainActivity.kt:196-219 | launching after a login opens the same screen as the login did |
| Navigation.LaunchAfterLogout | app/src/main/java/com/fit2081/bryan_34309861_a3_app/MainActivity.kt:203-206 | launching after a logout opens the welcome screen |
| Insight.Cap | app/src/main/java/com/fit2081/bryan_34309861_a3_app/ui/screens/InsightScreen/InsightViewModel.kt:119-122 | the cap is 5 exactly for the six five-point categories and 10 for every other label |
| Insight.GetProgressInfo | app/src/main/java/com/fit2081/bryan_34309861_a3_app/ui/screens/InsightScreen/InsightViewModel.kt:118-131 | the ratio times the cap is the score, and the band is Green, Amber or Red by the 0.8 and 0.5 thresholds, exactly one of them |
| Insight.BandNeverWorsens | app/src/main/java/com/fit2081/bryan_34309861_a3_app/ui/screens/InsightScreen/InsightViewModel.kt:124-128 | for a fixed category a higher score never gets a worse band |
| Insight.GetPatientTotalScore | app/src/main/java/com/fit2081/bryan_34309861_a3_app/ui/screens/InsightScreen/InsightViewModel.kt:83-85 | the total score, 0 with no patient |
| Insight.GetPatientScore | app/src/main/java/com/fit2081/bryan_34309861_a3_app/ui/screens/InsightScreen/InsightViewModel.kt:93-109 | thirteen pairs with the fixed labels in order, each the matching score, all 0 with no patient |
| Insight.GetCategoryInfo | app/src/main/java/com/fit2081/bryan_34309861_a3_app/ui/screens/InsightScreen/InsightViewModel.kt:145-262 | non-empty exactly for indices 0..12, headed by a `Category` pair naming the category |
| Insight.ScoreRowsHaveExplanations | app/src/main/java/com/fit2081/bryan_34309861_a3_app/ui/screens/InsightScreen/InsightViewModel.kt:49 | each of the thirteen score rows has an open flag and an explanation of the same category |
| FruitApi.IsFruitScoreOptimal | app/src/main/java/com/fit2081/bryan_34309861_a3_app/data/viewModel/FruitApiViewModel.kt:100-108 | true exactly when a patient is loaded with fruit serve size at least 1 and variety score at least 2.5 |
| FruitApi.GetFruitDetailsMap | app/src/main/java/com/fit2081/bryan_34309861_a3_app/data/viewModel/FruitApiViewModel.kt:139-151 | nine pairs labelled Name, Family, Genus, Order, Calories, Sugar, Carbohydrates, Protein, Fat; empty names and `null` figures with no fruit |
| FruitApi.FetchOutcome | app/src/main/java/com/fit2081/bryan_34309861_a3_app/data/viewModel/FruitApiViewModel.kt:115-132 | success exactly when the fetched name is non-empty; `Fruit not found` for an empty name; the exception's message otherwise |
| FruitApi.FruitApiViewModel.constructor | app/src/main/java/com/fit2081/bryan_34309861_a3_app/data/viewModel/FruitApiViewModel.kt:74-76 | a new view-model loads the session's patient and starts with no fruit and the initial state |
| FruitApi.FruitApiViewModel.LoadPatient | app/src/main/java/com/fit2081/bryan_34309861_a3_app/data/viewModel/FruitApiViewModel.kt:84-93 | the patient state passes through loading to success with the session's patient |
| FruitApi.FruitApiViewModel.ButtonEnable | app/src/main/java/com/fit2081/bryan_34309861_a3_app/data/viewModel/FruitApiViewModel.kt:158-160 | the button is never enabled without a fruit name |
| FruitApi.FruitApiViewModel.StartFetch | app/src/main/java/com/fit2081/bryan_34309861_a3_app/data/viewModel/FruitApiViewModel.kt:116 | the look-up state becomes Loading and the button is disabled |
| FruitApi.FruitApiViewModel.CompleteFetch | app/src/main/java/com/fit2081/bryan_34309861_a3_app/data/viewModel/FruitApiViewModel.kt:117-131 | the state becomes the fetch outcome and the stored fruit is replaced only on success |
| FruitApi.FruitApiViewModel.GetFruitDetailByName | app/src/main/java/com/fit2081/bryan_34309861_a3_app/data/viewModel/FruitApiViewModel.kt:115-132 | the states shown are Loading then the outcome; the stored fruit becomes the fetched one exactly on success and is kept otherwise; afterwards the button is enabled exactly when a name is typed; the patient and its state are untouched |
| NutriCoach.GetPatientScore | app/src/main/java/com/fit2081/bryan_34309861_a3_app/data/viewModel/NutriCoachTipViewModel.kt:133-150 | fourteen pairs: `Total Score` first, then the insights screen's thirteen; all 0 with no patient |
| NutriCoach.GetPatientFoodIntake | app/src/main/java/com/fit2081/bryan_34309861_a3_app/data/viewModel/NutriCoachTipViewModel.kt:158-171 | nine pairs in questionnaire category order, box i with label i, all false with no questionnaire |
| NutriCoach.FoodCategoriesDistinct | app/src/main/java/com/fit2081/bryan_34309861_a3_app/ui/screens/QuestionnaireScreen/QuestionnaireViewModel.kt:120-125 | the nine category labels are distinct, so the `toMap` keeps every box |
| NutriCoach.AteFruits | app/src/main/java/com/fit2081/bryan_34309861_a3_app/data/viewModel/NutriCoachTipViewModel.kt:180-182 | the `Fruits` entry of the category map is the first checkbox, false with no questionnaire |
| NutriCoach.FruitSentence | app/src/main/java/com/fit2081/bryan_34309861_a3_app/data/viewModel/NutriCoachTipViewModel.kt:201 | the prompt's fruit sentence depends only on box 0: reported when ticked, not reported otherwise |
| NutriCoach.TipStore.constructor | app/src/main/java/com/fit2081/bryan_34309861_a3_app/data/dao/NutriCoachTipDao.kt:17-18 | the tip table starts empty |
| NutriCoach.TipStore.InsertTip | app/src/main/java/com/fit2081/bryan_34309861_a3_app/data/dao/NutriCoachTipDao.kt:17-18 | a new tip is appended under the next id and the counter steps by one; a tip with a new id is appended and the counter moves past it; a tip with a stored id replaces that row without moving the counter; the ids stay unique |
| NutriCoach.TipStore.GetTipsByPatientId | app/src/main/java/com/fit2081/bryan_34309861_a3_app/data/dao/NutriCoachTipDao.kt:27-29 | exactly the stored tips of that patient |
| NutriCoach.NutriCoachTipViewModel.constructor | app/src/main/java/com/fit2081/bryan_34309861_a3_app/data/viewModel/NutriCoachTipViewModel.kt:78-82 | a new view-model loads the session's patient, questionnaire and tips |
| NutriCoach.NutriCoachTipViewModel.LoadAllTips | app/src/main/java/com/fit2081/bryan_34309861_a3_app/data/viewModel/NutriCoachTipViewModel.kt:114-125 | Loading, then Success with the patient's tips, or Error with the exception's message keeping the old list |
| NutriCoach.NutriCoachTipViewModel.InsertTip | app/src/main/java/com/fit2081/bryan_34309861_a3_app/data/viewModel/NutriCoachTipViewModel.kt:212-217 | the tip is appended or replaces the row with its id, then the list is reloaded: Loading, then the patient's tips and `Success` or the old list and `Error: <message>`, so a new tip of this patient is listed; the patient and questionnaire are untouched |
| Tables.FirstWhereFinds | app/src/main/java/com/fit2081/bryan_34309861_a3_app/data/dao/PatientDao.kt:43-44 | a single-row query returns nothing exactly when no row matches, and otherwise the first match |
| Tables.FirstWhereAppend | app/src/main/java/com/fit2081/bryan_34309861_a3_app/data/dao/PatientDao.kt:43-44 | searching a concatenation searches the first part, then the second |
| Tables.Filter | app/src/main/java/com/fit2081/bryan_34309861_a3_app/data/dao/NutriCoachTipDao.kt:27-29 | the kept rows are exactly those satisfying the condition |
| Tables.FilterPartition | app/src/main/java/com/fit2081/bryan_34309861_a3_app/ui/screens/ResetPasswordScreen/ResetPasswordViewModel.kt:110-112 | filtering by a condition and by its negation splits a list, with multiplicity |
| Tables.FilterAppend | app/src/main/java/com/fit2081/bryan_34309861_a3_app/ui/screens/ResetPasswordScreen/ResetPasswordViewModel.kt:110-112 | filtering keeps order |
| Tables.ReplaceByKey | app/src/main/java/com/fit2081/bryan_34309861_a3_app/data/dao/PatientDao.kt:25-26 | an update keeps the table's length and keys |
| Tables.ReplaceStoredRow | app/src/main/java/com/fit2081/bryan_34309861_a3_app/data/dao/PatientDao.kt:25-26 | with unique keys, an update rewrites exactly the row with that key |
| Tables.ReplaceMissingRow | app/src/main/java/com/fit2081/bryan_34309861_a3_app/data/dao/PatientDao.kt:25-26 | an update of a key not in the table changes nothing |
| Tables.ReplaceTwice | app/src/main/java/com/fit2081/bryan_34309861_a3_app/data/dao/PatientDao.kt:25-26 | two updates of the same key in turn leave the later record in the row's place |
| Tables.SortBy | app/src/main/java/com/fit2081/bryan_34309861_a3_app/data/dao/PatientDao.kt:34-35 | `ORDER BY` returns a sorted permutation of the rows |
| Tables.ToMapFinds | app/src/main/java/com/fit2081/bryan_34309861_a3_app/data/viewModel/NutriCoachTipViewModel.kt:180-182 | with distinct keys `toMap` sends each key to its own value |
| PatientRepo.DigitRun | app/src/main/java/com/fit2081/bryan_34309861_a3_app/data/dao/PatientDao.kt:34 | the longest prefix of digits |
| PatientRepo.SqlCastInteger | app/src/main/java/com/fit2081/bryan_34309861_a3_app/data/dao/PatientDao.kt:34 | `CAST(patientId AS INTEGER)`; text without any digit casts to 0 |
| PatientRepo.CastReadsDigits | app/src/main/java/com/fit2081/bryan_34309861_a3_app/data/dao/PatientDao.kt:34 | `CAST(patientId AS INTEGER)` of a decimal id is the number it writes, trailing text ignored |
| PatientRepo.CastReadsNegative | app/src/main/java/com/fit2081/bryan_34309861_a3_app/data/dao/PatientDao.kt:34 | a leading minus sign negates the cast |
| PatientRepo.PatientRepository.constructor | app/src/main/java/com/fit2081/bryan_34309861_a3_app/data/dao/PatientDao.kt:17-18 | the table starts empty |
| PatientRepo.PatientRepository.InsertPatient | app/src/main/java/com/fit2081/bryan_34309861_a3_app/data/repository/PatientRepository.kt:18-20 | a record with id 0 is appended under the next generated id, which then steps by one; one with a new id is appended as is and the counter moves past it; a duplicate id is refused |
| PatientRepo.PatientRepository.UpdatePatientPassword | app/src/main/java/com/fit2081/bryan_34309861_a3_app/data/repository/PatientRepository.kt:28-31 | the record gets the new password and is written over its row; only the password of that row changes; the id counter does not move |
| PatientRepo.PatientRepository.UpdatePatientName | app/src/main/java/com/fit2081/bryan_34309861_a3_app/data/repository/PatientRepository.kt:39-42 | the record gets the new name and is written over its row; only the name of that row changes; the id counter does not move |
| PatientRepo.PatientRepository.Write | app/src/main/java/com/fit2081/bryan_34309861_a3_app/data/dao/PatientDao.kt:25-26 | the row with the record's id is rewritten, every other row is kept and the id counter does not move |
| PatientRepo.PatientRepository.GetPatientById | app/src/main/java/com/fit2081/bryan_34309861_a3_app/data/repository/PatientRepository.kt:50-51 | the row with that `patientId`, or none exactly when no row has it |
| PatientRepo.PatientRepository.GetAllPatients | app/src/main/java/com/fit2081/bryan_34309861_a3_app/data/repository/PatientRepository.kt:58-60 | every row, sorted ascending by the numeric `patientId` |
| FoodIntakeRepo.FoodIntakeRepository.constructor | app/src/main/java/com/fit2081/bryan_34309861_a3_app/data/dao/FoodIntakeDao.kt:9-17 | the table starts empty |
| FoodIntakeRepo.FoodIntakeRepository.Insert | app/src/main/java/com/fit2081/bryan_34309861_a3_app/data/repository/FoodIntakeRepository.kt:18-20 | a record with id 0 is appended under the next generated id, which then steps by one; one with a new id is appended as is and the counter moves past it; a duplicate id is refused |
| FoodIntakeRepo.FoodIntakeRepository.UpdateFoodIntakeCheckbox | app/src/main/java/com/fit2081/bryan_34309861_a3_app/data/repository/FoodIntakeRepository.kt:29-32 | only `checkboxes` changes and the record is written back; the id counter does not move |
| FoodIntakeRepo.FoodIntakeRepository.UpdateFoodIntakePersona | app/src/main/java/com/fit2081/bryan_34309861_a3_app/data/repository/FoodIntakeRepository.kt:41-44 | only `persona` changes and the record is written back; the id counter does not move |
| FoodIntakeRepo.FoodIntakeRepository.UpdateFoodIntakeTime | app/src/main/java/com/fit2081/bryan_34309861_a3_app/data/repository/FoodIntakeRepository.kt:53-63 | each of the three times goes to the field of the same name and nothing else changes; the id counter does not move |
| FoodIntakeRepo.FoodIntakeRepository.Write | app/src/main/java/com/fit2081/bryan_34309861_a3_app/data/repository/FoodIntakeRepository.kt:31 | the row with the record's id is rewritten, every other row is kept and the id counter does not move |
| FoodIntakeRepo.FoodIntakeRepository.GetAllIntakesByPatientId | app/src/main/java/com/fit2081/bryan_34309861_a3_app/data/repository/FoodIntakeRepository.kt:73-75 | the record with that `patientId`, or none exactly when no row has it |
| Records.NewFoodIntake | app/src/main/java/com/fit2081/bryan_34309861_a3_app/data/database/FoodIntake.kt:10-19 | a new questionnaire for a patient has nine unticked boxes and empty answers |
| CsvImport.SplitOn | app/src/main/java/com/fit2081/bryan_34309861_a3_app/data/util/readCSV.kt:28 | `split(",")`: at least one piece, none containing a comma |
| CsvImport.JoinWith | app/src/main/java/com/fit2081/bryan_34309861_a3_app/data/util/readCSV.kt:28 | the inverse of the split: n comma-free pieces are joined by exactly n - 1 commas |
| CsvImport.SplitThenJoin | app/src/main/java/com/fit2081/bryan_34309861_a3_app/data/util/readCSV.kt:28 | joining the pieces of `split(",")` rebuilds the line |
| CsvImport.JoinThenSplit | app/src/main/java/com/fit2081/bryan_34309861_a3_app/data/util/readCSV.kt:28 | splitting fields joined with commas gives back the fields when none contains a comma |
| CsvImport.Offset | app/src/main/java/com/fit2081/bryan_34309861_a3_app/data/util/readCSV.kt:29-30 | the offset is 0 exactly when the sex field is `Male`, 1 otherwise |
| CsvImport.Columns | app/src/main/java/com/fit2081/bryan_34309861_a3_app/data/util/readCSV.kt:35-65 | thirty-one columns, each within the 63 a row must have |
| CsvImport.ColumnsBySex | app/src/main/java/com/fit2081/bryan_34309861_a3_app/data/util/readCSV.kt:35-65 | every score column moves one to the right when the sex is not `Male`; every other column is fixed |
| CsvImport.ParseColumns | app/src/main/java/com/fit2081/bryan_34309861_a3_app/data/util/readCSV.kt:35-65 | the numbers are read exactly when every column parses, each from its own column |
| CsvImport.RowToPatient | app/src/main/java/com/fit2081/bryan_34309861_a3_app/data/util/readCSV.kt:28-66 | a row yields a patient exactly when it has 63 fields and every read column parses; phone, patient id and sex are fields 0, 1, 2, there is no name or password, and each measurement comes from its column |
| CsvImport.ParseLines | app/src/main/java/com/fit2081/bryan_34309861_a3_app/data/util/readCSV.kt:27-74 | the records of the lines up to the first that fails, and whether none failed |
| CsvImport.ParseLinesSnoc | app/src/main/java/com/fit2081/bryan_34309861_a3_app/data/util/readCSV.kt:27-74 | one more line after a run of good lines adds its record, or stops the import |
| CsvImport.ParseLinesStops | app/src/main/java/com/fit2081/bryan_34309861_a3_app/data/util/readCSV.kt:27-74 | lines after a failing line are not imported |
| CsvImport.ImportedFromLine | app/src/main/java/com/fit2081/bryan_34309861_a3_app/data/util/readCSV.kt:27-66 | the k-th imported patient comes from the line after the header at position k, with its first three fields and its sex-dependent columns |
| CsvImport.DataLines | app/src/main/java/com/fit2081/bryan_34309861_a3_app/data/util/readCSV.kt:27 | the lines after the header; none when the file is empty |
| CsvImport.ImportRow | app/src/main/java/com/fit2081/bryan_34309861_a3_app/data/util/readCSV.kt:68-72 | one patient and one empty questionnaire with the same patient id are appended, each under its generated id |
| CsvImport.ImportedSnoc | app/src/main/java/com/fit2081/bryan_34309861_a3_app/data/util/readCSV.kt:71-72 | importing one more patient extends both tables by one row each |
| CsvImport.LineParser | app/src/main/java/com/fit2081/bryan_34309861_a3_app/data/util/readCSV.kt:28-66 | a line is split on commas and read as a row; every patient it yields has id 0, so the table assigns it a fresh id |
| CsvImport.ImportLines | app/src/main/java/com/fit2081/bryan_34309861_a3_app/data/util/readCSV.kt:27-74 | each good line appends its patient and an empty questionnaire for the same patient, in order; the first bad line stops the loop |
| CsvImport.ReadCsv | app/src/main/java/com/fit2081/bryan_34309861_a3_app/data/util/readCSV.kt:19-83 | nothing happens when `isRead` is set or the file cannot be opened; otherwise the data lines are imported and `isRead` is set only when every line went in |

## Left out

- Compose UI, Toasts and navigation calls are not modelled as calls. Toast texts and destination screens are values: a function of each form's outcome (`Toast`, `Message`, `Destination`), or a destination returned by the operation itself (login, logout, name change).
- Coroutine and LiveData ordering is not modelled. Every `viewModelScope.launch` runs to completion in program order. The questionnaire's three update coroutines are threaded through one record.
- SHA-256 and its hex formatting are not modelled. The hash is a parameter `hash: string -> string`.
- Float parsing (`toFloat`) is not modelled. It is a parameter `parseFloat: string -> Option<real>`, where `None` is the exception.
- Float arithmetic and `Float.toString` are not modelled. Scores are `real`, and only comparisons and the ratio are stated.
- Character classes (`isLetter`, `isUpperCase`, `isLowerCase`, `isDigit`, `isWhitespace`) are taken on ASCII. Unicode letters and digits outside ASCII are not modelled.
- The asset file is given as its lines, or `None` when it cannot be opened. Reading the stream is not modelled.
- The preferences file is a map from keys to strings and flags. The type of a missing or mistyped entry is read as the default.
- A `!!` on a patient that was never loaded throws in the source. It is modelled as the outcome `NoPatientLoaded` with nothing stored.
- NutriCoach.TipStore.GetTipsByPatientId: returns the patient's tips in storage order. The `ORDER BY timeAdded DESC` of the query is not modelled, because `timeAdded` is free text.
- NutriCoach.GetPatientFoodIntake: requires a stored questionnaire to have its nine boxes. The source would throw on a shorter list, and every path that writes one keeps the nine.
- The text of `generatePrompt` beyond the fruit sentence is not modelled. It is fixed prose around `Float.toString` of the scores, and the AI call that consumes it is out of scope.
- `clinicianLogin` is not modelled. It is a single navigation call.
- The Insight view-model's own `loadPatient` is not modelled. The screen functions take the loaded patient as a parameter.
- `modalState` is not modelled as state. It is represented by its size, `ModalCount`.
- Clinician, Home, Picsum and Gemini view-models, the Retrofit services, Gson converters and Room's SQL text are not part of this model.
- PatientRepo.SqlCastInteger: reads an optional sign and a run of decimal digits. SQLite's handling of overflow, hexadecimal and real-valued text is not modelled.
- A fruit fetch is the value `FetchResult`, either the fruit or an exception's message. The network call is not modelled.

## Findings

| source | as written | input that shows it | evidently intended | confidence | as-written member | corrected member |
|---|---|---|---|---|---|---|
| app/src/main/java/com/fit2081/bryan_34309861_a3_app/ui/screens/QuestionnaireScreen/QuestionnaireViewModel.kt:254-263 | eating must come before `sleep.minusHours(2)` compared on the clock face, which ignores midnight | sleep 01:00, wake 07:00, eat 00:30 is accepted; sleep 08:00, wake 16:00, eat 18:00 is refused | at least two hours pass from eating to sleeping, going forward on the clock, and eating is not during sleep | not executed | Questionnaire.AsWrittenAcceptsMealJustBeforeSleep | Questionnaire.EatTimeOptimalMeansTwoClearHours |
