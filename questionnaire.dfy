/**
 * The food-intake questionnaire (`QuestionnaireViewModel.kt`): the answer placeholders, the
 * five ordered checks of `validateQuestionnaire`, the eat-time rule, and the write-back of the
 * answers on a successful submission.
 */
module Questionnaire {
  import opened Wrappers
  import opened Records
  import opened Clock
  import Tables
  import Preferences
  import FoodIntakeRepo
  import Navigation

  /** `getFoodCategories`: one label per checkbox. */
  function FoodCategories(): (r: seq<string>)
    ensures |r| == CheckboxCount
  {
    ["Fruits", "Vegetables", "Grains", "Red Meat", "Seafood", "Poultry", "Fish", "Eggs", "Nuts/Seeds"]
  }

  /** `getPersonaList`. */
  function Personas(): (r: seq<string>)
    ensures |r| == 6
  {
    ["Health Devotee", "Mindful Eater", "Wellness Striver", "Balance Seeker", "Health Procrastinator", "Food Carefree"]
  }

  /** A persona card: the number `n` of its `persona_n` picture, its description resource and its title. */
  datatype PersonaInfo = PersonaInfo(picture: nat, description: string, title: string)

  /** `getPersonaInfo`; `None` is the `error("No image found")` raised for any other index. */
  function GetPersonaInfo(index: int): (r: Option<PersonaInfo>)
    ensures r.Some? <==> 0 <= index < |Personas()|
    ensures r.Some? ==> r.value.title == Personas()[index] && r.value.picture == index + 1
  {
    match index
    case 0 => Some(PersonaInfo(1, "healthDevoteeDesc", "Health Devotee"))
    case 1 => Some(PersonaInfo(2, "mindfulEaterDesc", "Mindful Eater"))
    case 2 => Some(PersonaInfo(3, "wellnessStriverDesc", "Wellness Striver"))
    case 3 => Some(PersonaInfo(4, "balanceSeekerDesc", "Balance Seeker"))
    case 4 => Some(PersonaInfo(5, "healthProcrastinatorDesc", "Health Procrastinator"))
    case 5 => Some(PersonaInfo(6, "foodCarefreeDesc", "Food Carefree"))
    case _ => None
  }

  /** Eating falls strictly inside the sleep window, which crosses midnight when sleep is later than waking. */
  predicate DuringSleep(eat: int, sleep: int, wake: int)
    requires IsClockMinute(eat) && IsClockMinute(sleep) && IsClockMinute(wake)
    ensures DuringSleep(eat, sleep, wake) ==> eat != sleep && eat != wake
  {
    if sleep > wake then eat > sleep || eat < wake else eat > sleep && eat < wake
  }

  /** The two-case window is the clock arc from sleep forward to waking, both ends excluded. */
  lemma DuringSleepIsArc(eat: int, sleep: int, wake: int)
    requires IsClockMinute(eat) && IsClockMinute(sleep) && IsClockMinute(wake)
    ensures DuringSleep(eat, sleep, wake) <==> 0 < Gap(sleep, eat) < Gap(sleep, wake)
  {
  }

  /** Falling asleep and waking up are never during sleep. */
  lemma SleepWindowExcludesEnds(sleep: int, wake: int)
    requires IsClockMinute(sleep) && IsClockMinute(wake)
    ensures !DuringSleep(sleep, sleep, wake) && !DuringSleep(wake, sleep, wake)
  {
  }

  /** The rule as written: eat before `sleep.minusHours(2)` on the clock face, and not during sleep. */
  predicate EatTimeOptimalAsWritten(eat: int, sleep: int, wake: int)
    requires IsClockMinute(eat) && IsClockMinute(sleep) && IsClockMinute(wake)
    ensures EatTimeOptimalAsWritten(eat, sleep, wake) ==> !DuringSleep(eat, sleep, wake)
    ensures EatTimeOptimalAsWritten(eat, sleep, wake) && sleep >= 120 ==> Gap(eat, sleep) > 120
  {
    eat < MinusHours(sleep, 2) && !DuringSleep(eat, sleep, wake)
  }

  /** The rule the message states: more than two hours pass from eating to sleeping, and eating is not during sleep. */
  predicate EatTimeOptimal(eat: int, sleep: int, wake: int)
    requires IsClockMinute(eat) && IsClockMinute(sleep) && IsClockMinute(wake)
    ensures EatTimeOptimal(eat, sleep, wake) ==> eat != sleep && !DuringSleep(eat, sleep, wake)
  {
    Gap(eat, sleep) > 120 && !DuringSleep(eat, sleep, wake)
  }

  /** The corrected rule holds exactly when sleep does not begin within two hours of eating. */
  lemma EatTimeOptimalMeansTwoClearHours(eat: int, sleep: int, wake: int)
    requires IsClockMinute(eat) && IsClockMinute(sleep) && IsClockMinute(wake)
    ensures EatTimeOptimal(eat, sleep, wake) <==>
      (forall k | 0 <= k <= 120 :: Advance(eat, k) != sleep) && !DuringSleep(eat, sleep, wake)
  {
    GapExceeds(eat, sleep, 120);
  }

  /** From 02:00 on, where `minusHours(2)` does not wrap, the written rule is the corrected one for meals earlier in the day than sleep. */
  lemma AsWrittenAgreesWithoutWrap(eat: int, sleep: int, wake: int)
    requires IsClockMinute(eat) && IsClockMinute(sleep) && IsClockMinute(wake)
    requires sleep >= 120
    ensures EatTimeOptimalAsWritten(eat, sleep, wake) <==> EatTimeOptimal(eat, sleep, wake) && eat < sleep
  {
  }

  /** Sleep 08:00, wake 16:00, eat 18:00: fourteen hours before sleep, outside it, yet refused as written. */
  lemma AsWrittenRefusesEveningMealBeforeMorningSleep()
    ensures !EatTimeOptimalAsWritten(1080, 480, 960) && EatTimeOptimal(1080, 480, 960)
  {
  }

  /** Sleep 01:00, wake 07:00, eat 00:30: thirty minutes before sleep, yet accepted as written. */
  lemma AsWrittenAcceptsMealJustBeforeSleep()
    ensures EatTimeOptimalAsWritten(30, 60, 420) && !EatTimeOptimal(30, 60, 420)
  {
  }

  /** Which eat-time rule a validation applies. */
  datatype EatRule = AsWritten | Corrected

  predicate Optimal(rule: EatRule, eat: int, sleep: int, wake: int)
    requires IsClockMinute(eat) && IsClockMinute(sleep) && IsClockMinute(wake)
  {
    match rule
    case AsWritten => EatTimeOptimalAsWritten(eat, sleep, wake)
    case Corrected => EatTimeOptimal(eat, sleep, wake)
  }

  /** The answers held by the placeholders when the questionnaire is submitted. */
  datatype Answers = Answers(checkboxes: seq<bool>, persona: string, eatTime: string, sleepTime: string, wakeUpTime: string)

  predicate TimesFilled(a: Answers) {
    a.sleepTime != [] && a.eatTime != [] && a.wakeUpTime != []
  }

  predicate TimesDifferent(a: Answers) {
    a.sleepTime != a.eatTime && a.sleepTime != a.wakeUpTime && a.eatTime != a.wakeUpTime
  }

  /** `eatTimeOptimal`: false when a time is missing or does not parse (the exception is caught). */
  predicate EatTimeOk(a: Answers, rule: EatRule) {
    && TimesFilled(a)
    && ParseTime(a.eatTime).Some? && ParseTime(a.sleepTime).Some? && ParseTime(a.wakeUpTime).Some?
    && Optimal(rule, ParseTime(a.eatTime).value, ParseTime(a.sleepTime).value, ParseTime(a.wakeUpTime).value)
  }

  datatype Problem = NoFoodChosen | NoPersona | TimeMissing | TimesNotDifferent | EatTimeNotOptimal

  function Message(p: Problem): string {
    match p
    case NoFoodChosen => "Choose at least one food"
    case NoPersona => "Choose one persona"
    case TimeMissing => "Please fill in the time"
    case TimesNotDifferent => "Eat, Sleep and Wake Up time cannot be the same"
    case EatTimeNotOptimal => "Eat at least 2 hours before sleep and not during sleep"
  }

  /** `validateQuestionnaire`'s decision: submit when every check holds, otherwise report the first that fails. */
  function Validate(a: Answers, rule: EatRule): (r: Option<Problem>)
    ensures r.Some? ==> Fails(r.value, a, rule)
    ensures r.None? ==> forall p: Problem :: !Fails(p, a, rule)
  {
    var checkboxesValid := true in a.checkboxes;
    var personaValid := a.persona != [];
    var eatTimeOptimal := EatTimeOk(a, rule);
    if checkboxesValid && personaValid && TimesFilled(a) && TimesDifferent(a) && eatTimeOptimal then None
    else if !checkboxesValid then Some(NoFoodChosen)
    else if !personaValid then Some(NoPersona)
    else if !TimesFilled(a) then Some(TimeMissing)
    else if !TimesDifferent(a) then Some(TimesNotDifferent)
    else Some(EatTimeNotOptimal)
  }

  /** The rule table of the questionnaire. */
  predicate Fails(p: Problem, a: Answers, rule: EatRule) {
    match p
    case NoFoodChosen => true !in a.checkboxes
    case NoPersona => a.persona == []
    case TimeMissing => !TimesFilled(a)
    case TimesNotDifferent => !TimesDifferent(a)
    case EatTimeNotOptimal => !EatTimeOk(a, rule)
  }

  const CheckOrder: seq<Problem> := [NoFoodChosen, NoPersona, TimeMissing, TimesNotDifferent, EatTimeNotOptimal]

  function FailsFor(a: Answers, rule: EatRule): Problem -> bool {
    p => Fails(p, a, rule)
  }

  /** The reported problem is the first check, in the order of the `when`, that the answers fail. */
  lemma ValidateReportsFirstFailure(a: Answers, rule: EatRule)
    ensures Validate(a, rule) == Tables.FirstWhere(CheckOrder, FailsFor(a, rule))
  {
    var b := FailsFor(a, rule);
    Tables.FirstWhereStep(CheckOrder, 0, b);
    Tables.FirstWhereStep(CheckOrder, 1, b);
    Tables.FirstWhereStep(CheckOrder, 2, b);
    Tables.FirstWhereStep(CheckOrder, 3, b);
    Tables.FirstWhereStep(CheckOrder, 4, b);
    assert CheckOrder[5..] == [];
  }

  /**
   * A submission goes through exactly when all five checks hold; under the rule as written the
   * eat-time check is `eat < sleep.minusHours(2)` on the clock face and outside the sleep window.
   */
  lemma ValidateAcceptsExactly(a: Answers, rule: EatRule)
    ensures Validate(a, rule) == None <==>
      && (exists i | 0 <= i < |a.checkboxes| :: a.checkboxes[i])
      && a.persona != []
      && a.sleepTime != [] && a.eatTime != [] && a.wakeUpTime != []
      && a.sleepTime != a.eatTime && a.sleepTime != a.wakeUpTime && a.eatTime != a.wakeUpTime
      && ParseTime(a.eatTime).Some? && ParseTime(a.sleepTime).Some? && ParseTime(a.wakeUpTime).Some?
      && Optimal(rule, ParseTime(a.eatTime).value, ParseTime(a.sleepTime).value, ParseTime(a.wakeUpTime).value)
    ensures rule == AsWritten ==> (Validate(a, rule) == None ==>
      var eat, sleep := ParseTime(a.eatTime).value, ParseTime(a.sleepTime).value;
      eat < MinusHours(sleep, 2) && !DuringSleep(eat, sleep, ParseTime(a.wakeUpTime).value))
    ensures rule == Corrected ==> (Validate(a, rule) == None ==>
      EatTimeOptimal(ParseTime(a.eatTime).value, ParseTime(a.sleepTime).value, ParseTime(a.wakeUpTime).value))
  {
    if exists i | 0 <= i < |a.checkboxes| :: a.checkboxes[i] {
      var i :| 0 <= i < |a.checkboxes| && a.checkboxes[i];
      assert true in a.checkboxes;
    }
  }

  /** A time that does not read as `HH:mm` fails the eat-time check, whichever rule applies. */
  lemma UnreadableTimeIsNotOptimal(a: Answers, rule: EatRule)
    requires ParseTime(a.eatTime).None? || ParseTime(a.sleepTime).None? || ParseTime(a.wakeUpTime).None?
    ensures !EatTimeOk(a, rule)
  {
  }

  /** Answers the written rule submits although the meal is half an hour before sleep; the corrected rule refuses them. */
  lemma AsWrittenSubmitsLateMeal()
    ensures var a := Answers([true, false, false, false, false, false, false, false, false], "Health Devotee", "00:30", "01:00", "07:00");
      Validate(a, AsWritten) == None && Validate(a, Corrected) == Some(EatTimeNotOptimal)
  {
    var a := Answers([true, false, false, false, false, false, false, false, false], "Health Devotee", "00:30", "01:00", "07:00");
    assert ParseTime(a.eatTime) == Some(30);
    assert ParseTime(a.sleepTime) == Some(60);
    assert ParseTime(a.wakeUpTime) == Some(420);
    assert a.checkboxes[0];
  }

  /** What a press of the submit button leads to. */
  datatype Submission = Submitted | Refused(problem: Problem)

  /** The toast shown after a press: the confirmation, or the message of the problem found. */
  function Toast(result: Submission): (r: string)
    ensures r == "Questionnaire submitted" <==> result.Submitted?
    ensures result.Refused? ==> r == Message(result.problem)
  {
    match result
    case Submitted => "Questionnaire submitted"
    case Refused(p) => Message(p)
  }

  /** Only a submitted questionnaire navigates, to `Home`. */
  function Destination(result: Submission): (r: Option<Navigation.Screen>)
    ensures r.Some? <==> result.Submitted?
    ensures r.Some? ==> Navigation.Route(r.value) == "Home"
  {
    if result.Submitted? then Some(Navigation.Home) else None
  }

  /** The view-model: the patient's stored record and the placeholders the screen edits. */
  class QuestionnaireViewModel {
    const patientId: string
    var foodIntake: Option<FoodIntake>
    var checkboxes: seq<bool>
    var persona: string
    var eatTime: string
    var sleepTime: string
    var wakeUpTime: string

    function CurrentAnswers(): Answers
      reads this
    {
      Answers(checkboxes, persona, eatTime, sleepTime, wakeUpTime)
    }

    /** Created for the session's patient (the empty id without one), with blank placeholders, then loaded. */
    constructor (session: Option<string>, repo: FoodIntakeRepo.FoodIntakeRepository)
      ensures patientId == session.GetOr("")
      ensures foodIntake == repo.GetAllIntakesByPatientId(patientId)
      ensures foodIntake.None? ==> CurrentAnswers() == Answers(seq(CheckboxCount, _ => false), "", "", "", "")
      ensures foodIntake.Some? ==> CurrentAnswers() == AnswersOf(foodIntake.value)
    {
      patientId := session.GetOr("");
      foodIntake := None;
      checkboxes := seq(CheckboxCount, _ => false);
      persona := "";
      eatTime := "";
      sleepTime := "";
      wakeUpTime := "";
      new;
      LoadFoodIntake(repo);
    }

    /**
     * `loadFoodIntake`: the patient's record is fetched; when there is one the placeholders take its
     * answers, and when there is none the placeholders keep their values.
     */
    method LoadFoodIntake(repo: FoodIntakeRepo.FoodIntakeRepository)
      modifies this
      ensures foodIntake == repo.GetAllIntakesByPatientId(patientId)
      ensures foodIntake.Some? ==> CurrentAnswers() == AnswersOf(foodIntake.value)
      ensures foodIntake.None? ==> CurrentAnswers() == old(CurrentAnswers())
    {
      foodIntake := repo.GetAllIntakesByPatientId(patientId);
      if foodIntake.Some? {
        var f := foodIntake.value;
        checkboxes := f.checkboxes;
        persona := f.persona;
        eatTime := f.eatTime;
        sleepTime := f.sleepTime;
        wakeUpTime := f.wakeUpTime;
      }
    }

    /** The screen ticks or unticks one food category. */
    method SetCheckbox(index: int, ticked: bool)
      requires 0 <= index < |checkboxes|
      modifies this
      ensures checkboxes == old(checkboxes)[index := ticked]
      ensures foodIntake == old(foodIntake) && persona == old(persona)
      ensures eatTime == old(eatTime) && sleepTime == old(sleepTime) && wakeUpTime == old(wakeUpTime)
    {
      checkboxes := checkboxes[index := ticked];
    }

    /**
     * `validateQuestionnaire`, with the eat-time rule as written. On success the checkbox, persona
     * and time updates run on the loaded record (when there is one), each written back by its id,
     * the record is reloaded and `filled_<patientId>` is set; otherwise the first failing check is
     * reported and nothing changes. The screen then shows `Toast(result)` and goes to
     * `Destination(result)`.
     */
    method ValidateQuestionnaire(repo: FoodIntakeRepo.FoodIntakeRepository, prefs: Preferences.Store)
      returns (result: Submission)
      requires repo.Valid()
      modifies this, repo, prefs
      ensures repo.Valid()
      ensures result == Submitted <==> Validate(old(CurrentAnswers()), AsWritten) == None
      ensures result.Refused? ==> result.problem == Validate(old(CurrentAnswers()), AsWritten).value
      ensures result.Refused? ==>
        && repo.rows == old(repo.rows) && prefs.entries == old(prefs.entries)
        && CurrentAnswers() == old(CurrentAnswers()) && foodIntake == old(foodIntake)
      ensures result == Submitted ==>
        prefs.entries == old(prefs.entries)[Preferences.FilledKey(patientId) := Preferences.Flag(true)]
      ensures result == Submitted ==> foodIntake == repo.GetAllIntakesByPatientId(patientId)
      ensures result == Submitted && old(foodIntake).None? ==> repo.rows == old(repo.rows)
      ensures result == Submitted && old(foodIntake).Some? ==>
        repo.rows == Tables.ReplaceByKey(old(repo.rows), FoodIntakeRepo.RowId, WithAnswers(old(foodIntake).value, old(CurrentAnswers())))
      ensures repo.nextId == old(repo.nextId)
    {
      var verdict := Validate(CurrentAnswers(), AsWritten);
      if verdict.Some? {
        return Refused(verdict.value);
      }
      ghost var rows0 := repo.rows;
      ghost var answers := CurrentAnswers();
      if foodIntake.Some? {
        var f0 := foodIntake.value;
        var f1 := repo.UpdateFoodIntakeCheckbox(f0, checkboxes);
        var f2 := repo.UpdateFoodIntakePersona(f1, persona);
        var f3 := repo.UpdateFoodIntakeTime(f2, eatTime, sleepTime, wakeUpTime);
        assert f3 == WithAnswers(f0, answers);
        Tables.ReplaceTwice(rows0, FoodIntakeRepo.RowId, f1, f2);
        Tables.ReplaceTwice(rows0, FoodIntakeRepo.RowId, f2, f3);
      }
      LoadFoodIntake(repo);
      prefs.PutBoolean(Preferences.FilledKey(patientId), true);
      result := Submitted;
    }
  }

  /** The answers a stored record holds. */
  function AnswersOf(f: FoodIntake): Answers {
    Answers(f.checkboxes, f.persona, f.eatTime, f.sleepTime, f.wakeUpTime)
  }

  /** A record carrying the given answers, its id and patient unchanged. */
  function WithAnswers(f: FoodIntake, a: Answers): (r: FoodIntake)
    ensures r.id == f.id && r.patientId == f.patientId && AnswersOf(r) == a
  {
    f.(checkboxes := a.checkboxes, persona := a.persona, eatTime := a.eatTime, sleepTime := a.sleepTime, wakeUpTime := a.wakeUpTime)
  }
}
