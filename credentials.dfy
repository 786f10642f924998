/**
 * The account-form rules shared by registration, password reset and the settings screen
 * (RegisterViewModel.kt, ResetPasswordViewModel.kt, SettingsViewModel.kt): the six live
 * password requirements, the name rules, and the ordered `when` chains that report the first
 * rule a form breaks.
 */
module Credentials {
  import opened Wrappers
  import opened Text
  import Tables

  /** The characters that count as "special" in a password. */
  const SpecialChars: string := "!@#$%^&*()-_=+[]{};:'\",.<>?/\\|`~"

  predicate IsLongEnough(pw: string) { |pw| >= 8 }
  predicate HasUppercase(pw: string) { exists i | 0 <= i < |pw| :: IsUpper(pw[i]) }
  predicate HasLowercase(pw: string) { exists i | 0 <= i < |pw| :: IsLower(pw[i]) }
  predicate HasDigit(pw: string) { exists i | 0 <= i < |pw| :: IsDigit(pw[i]) }
  predicate NoSpaces(pw: string) { ' ' !in pw }
  predicate HasSpecialChar(pw: string) { exists i | 0 <= i < |pw| :: pw[i] in SpecialChars }

  /** All six requirement indicators shown under the password field are ticked. */
  predicate MeetsAllRequirements(pw: string) {
    IsLongEnough(pw) && HasUppercase(pw) && HasLowercase(pw) && HasDigit(pw) && NoSpaces(pw) && HasSpecialChar(pw)
  }

  predicate NameCharAllowed(c: char) { IsLetter(c) || c == ' ' || c == '-' || c == '\'' }
  predicate NameCharsAllowed(name: string) { forall i | 0 <= i < |name| :: NameCharAllowed(name[i]) }

  /** The reasons a form is refused; each is one toast of the source. */
  datatype Problem =
    | NameBlank | NameTooShort | NameInvalidChars
    | PasswordEmpty | PasswordHasSpace | PasswordTooShort
    | NoUppercase | NoLowercase | NoDigit | NoSpecialChar
    | PasswordMismatch | PasswordFieldsEmpty

  function Message(p: Problem): string {
    match p
    case NameBlank => "Name cannot be blank"
    case NameTooShort => "Name must be at least length 2"
    case NameInvalidChars => "Name can only consist of letters, space, hyphens and apostrophes"
    case PasswordEmpty => "Password field cannot be empty"
    case PasswordHasSpace => "Password cannot contain any spaces"
    case PasswordTooShort => "Password must be at least 8 characters long"
    case NoUppercase => "Password must include at least one uppercase letter"
    case NoLowercase => "Password must include at least one lowercase letter"
    case NoDigit => "Password must include at least one number"
    case NoSpecialChar => "Password must include at least one special character"
    case PasswordMismatch => "Password does not match"
    case PasswordFieldsEmpty => "Please fill in your new password"
  }

  /** What the user typed into an account form. */
  datatype Form = Form(name: string, password: string, confirm: string)

  /** The rule table: whether the rule named by `p` is broken by `f`. */
  predicate Breaks(p: Problem, f: Form) {
    match p
    case NameBlank => IsBlank(f.name)
    case NameTooShort => |f.name| < 2
    case NameInvalidChars => !NameCharsAllowed(f.name)
    case PasswordEmpty => f.password == []
    case PasswordHasSpace => !NoSpaces(f.password)
    case PasswordTooShort => !IsLongEnough(f.password)
    case NoUppercase => !HasUppercase(f.password)
    case NoLowercase => !HasLowercase(f.password)
    case NoDigit => !HasDigit(f.password)
    case NoSpecialChar => !HasSpecialChar(f.password)
    case PasswordMismatch => f.password != f.confirm
    case PasswordFieldsEmpty => f.password == [] || f.confirm == []
  }

  /** The order in which each screen checks its rules. */
  const NameOrder: seq<Problem> := [NameBlank, NameTooShort, NameInvalidChars]
  const ClassOrder: seq<Problem> := [NoUppercase, NoLowercase, NoDigit, NoSpecialChar]
  const RegisterPasswordOrder: seq<Problem> :=
    [PasswordEmpty, PasswordHasSpace, PasswordTooShort] + ClassOrder + [PasswordMismatch]
  const RegisterOrder: seq<Problem> := NameOrder + RegisterPasswordOrder
  const ResetOrder: seq<Problem> := [PasswordFieldsEmpty, PasswordMismatch, PasswordTooShort] + ClassOrder

  datatype Verdict = Accepted | Rejected(problem: Problem)

  function VerdictOf(first: Option<Problem>): Verdict {
    match first
    case None => Accepted
    case Some(p) => Rejected(p)
  }

  /** `Breaks` as a predicate on rules, for one fixed form. */
  function BrokenBy(f: Form): Problem -> bool {
    p => Breaks(p, f)
  }

  /** The verdict of a rule list: the first broken rule, or acceptance when none is broken. */
  function FirstBroken(order: seq<Problem>, f: Form): Verdict {
    VerdictOf(Tables.FirstWhere(order, BrokenBy(f)))
  }

  /**
   * The name checks that open the `when` chains of registration and of the settings screen. A name
   * passes exactly when it is not blank, has two characters or more and only allowed characters.
   */
  function CheckName(name: string): (r: Option<Problem>)
    ensures r == None <==> !IsBlank(name) && |name| >= 2 && NameCharsAllowed(name)
  {
    if IsBlank(name) then Some(NameBlank)
    else if |name| < 2 then Some(NameTooShort)
    else if !NameCharsAllowed(name) then Some(NameInvalidChars)
    else None
  }

  /** The character-class checks shared by registration and password reset, in the order both use. */
  function CheckClasses(pw: string): Option<Problem> {
    if !HasUppercase(pw) then Some(NoUppercase)
    else if !HasLowercase(pw) then Some(NoLowercase)
    else if !HasDigit(pw) then Some(NoDigit)
    else if !HasSpecialChar(pw) then Some(NoSpecialChar)
    else None
  }

  /** The password checks of registration, which follow the name checks. */
  function RegisterPasswordCheck(f: Form): Verdict {
    if f.password == [] then Rejected(PasswordEmpty)
    else if ' ' in f.password then Rejected(PasswordHasSpace)
    else if |f.password| < 8 then Rejected(PasswordTooShort)
    else if CheckClasses(f.password).Some? then Rejected(CheckClasses(f.password).value)
    else if f.password != f.confirm then Rejected(PasswordMismatch)
    else Accepted
  }

  /**
   * The `when` chain of `validatePatient`: name checks, then password checks. It accepts exactly an
   * acceptable name with a password meeting all six requirements, typed twice.
   */
  function RegisterCheck(f: Form): (r: Verdict)
    ensures r == Accepted <==> CheckName(f.name) == None && MeetsAllRequirements(f.password) && f.password == f.confirm
  {
    if CheckName(f.name).Some? then Rejected(CheckName(f.name).value)
    else RegisterPasswordCheck(f)
  }

  /**
   * The `when` chain of `resetPassword`; it has no rule about spaces. It accepts exactly a password
   * meeting the other requirements, typed twice.
   */
  function ResetCheck(f: Form): (r: Verdict)
    ensures r == Accepted <==>
      IsLongEnough(f.password) && HasUppercase(f.password) && HasLowercase(f.password) && HasDigit(f.password)
      && HasSpecialChar(f.password) && f.password == f.confirm
  {
    if f.password == [] || f.confirm == [] then Rejected(PasswordFieldsEmpty)
    else if f.password != f.confirm then Rejected(PasswordMismatch)
    else if |f.password| < 8 then Rejected(PasswordTooShort)
    else if CheckClasses(f.password).Some? then Rejected(CheckClasses(f.password).value)
    else Accepted
  }

  lemma CheckNameIsFirstBrokenRule(f: Form)
    ensures CheckName(f.name) == Tables.FirstWhere(NameOrder, BrokenBy(f))
  {
    var b := BrokenBy(f);
    var o := NameOrder;
    Tables.FirstWhereStep(o, 0, b);
    if Breaks(NameBlank, f) { return; }
    Tables.FirstWhereStep(o, 1, b);
    if Breaks(NameTooShort, f) { return; }
    Tables.FirstWhereStep(o, 2, b);
    if Breaks(NameInvalidChars, f) { return; }
    assert o[3..] == [];
  }

  lemma CheckClassesIsFirstBrokenRule(f: Form)
    ensures CheckClasses(f.password) == Tables.FirstWhere(ClassOrder, BrokenBy(f))
  {
    var b := BrokenBy(f);
    var o := ClassOrder;
    Tables.FirstWhereStep(o, 0, b);
    if Breaks(NoUppercase, f) { return; }
    Tables.FirstWhereStep(o, 1, b);
    if Breaks(NoLowercase, f) { return; }
    Tables.FirstWhereStep(o, 2, b);
    if Breaks(NoDigit, f) { return; }
    Tables.FirstWhereStep(o, 3, b);
    if Breaks(NoSpecialChar, f) { return; }
    assert o[4..] == [];
  }

  lemma RegisterPasswordCheckIsFirstBrokenRule(f: Form)
    ensures RegisterPasswordCheck(f) == FirstBroken(RegisterPasswordOrder, f)
  {
    var b := BrokenBy(f);
    var front: seq<Problem> := [PasswordEmpty, PasswordHasSpace, PasswordTooShort];
    var back: seq<Problem> := [PasswordMismatch];
    Tables.FirstWhereStep(front, 0, b);
    Tables.FirstWhereStep(front, 1, b);
    Tables.FirstWhereStep(front, 2, b);
    assert front[3..] == [];
    Tables.FirstWhereStep(back, 0, b);
    assert back[1..] == [];
    CheckClassesIsFirstBrokenRule(f);
    Tables.FirstWhereAppend(front, ClassOrder, b);
    Tables.FirstWhereAppend(front + ClassOrder, back, b);
  }

  /** Registration reports the first rule of `RegisterOrder` that the form breaks. */
  lemma RegisterCheckIsFirstBrokenRule(f: Form)
    ensures RegisterCheck(f) == FirstBroken(RegisterOrder, f)
  {
    CheckNameIsFirstBrokenRule(f);
    RegisterPasswordCheckIsFirstBrokenRule(f);
    Tables.FirstWhereAppend(NameOrder, RegisterPasswordOrder, BrokenBy(f));
  }

  /** Password reset reports the first rule of `ResetOrder` that the form breaks. */
  lemma ResetCheckIsFirstBrokenRule(f: Form)
    ensures ResetCheck(f) == FirstBroken(ResetOrder, f)
  {
    var b := BrokenBy(f);
    var front: seq<Problem> := [PasswordFieldsEmpty, PasswordMismatch, PasswordTooShort];
    Tables.FirstWhereStep(front, 0, b);
    Tables.FirstWhereStep(front, 1, b);
    Tables.FirstWhereStep(front, 2, b);
    assert front[3..] == [];
    CheckClassesIsFirstBrokenRule(f);
    Tables.FirstWhereAppend(front, ClassOrder, b);
  }
  /** A reported problem is a rule the form really breaks, and every rule checked before it holds. */
  lemma RejectionIsFirstBrokenRule(order: seq<Problem>, f: Form, p: Problem)
    requires FirstBroken(order, f) == Rejected(p)
    ensures Breaks(p, f)
    ensures exists i | 0 <= i < |order| :: order[i] == p && forall j | 0 <= j < i :: !Breaks(order[j], f)
  {
    Tables.FirstWhereFinds(order, BrokenBy(f));
  }

  /** A rule list accepts exactly the forms that break none of its rules. */
  lemma AcceptedIffNoRuleBroken(order: seq<Problem>, f: Form)
    ensures FirstBroken(order, f) == Accepted <==> forall i | 0 <= i < |order| :: !Breaks(order[i], f)
  {
    Tables.FirstWhereFinds(order, BrokenBy(f));
  }

  /** A password containing a space is refused at registration but can be set through password reset. */
  lemma ResetAcceptsWhatRegisterRefuses()
    ensures var f := Form("Ann", "Abcdef1! ", "Abcdef1! ");
      ResetCheck(f) == Accepted && RegisterCheck(f) == Rejected(PasswordHasSpace)
  {
    var f := Form("Ann", "Abcdef1! ", "Abcdef1! ");
    assert IsUpper(f.password[0]) && IsLower(f.password[1]) && IsDigit(f.password[6]);
    assert f.password[7] in SpecialChars;
    assert f.password[8] == ' ';
    assert NameCharAllowed(f.name[0]) && NameCharAllowed(f.name[1]) && NameCharAllowed(f.name[2]);
    assert !IsWhitespace(f.name[0]);
  }
}
