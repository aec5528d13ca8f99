/**
 * The sign-up form: five password requirements, a strength score counting
 * how many are met, the label and colour shown for the score, and the
 * checks made before the account is requested.
 */
module Signup {
  import opened Common
  import opened Text

  // ---------------------------------------------------------------- requirements

  datatype Requirement = Length | Uppercase | Lowercase | Number | Special

  /** `passwordRequirements`, in the order the form lists them. */
  const Requirements: seq<Requirement> := [Length, Uppercase, Lowercase, Number, Special]

  /** Eight characters from `i` on, none of which ends a line: where `.{8,}` can match. */
  predicate LongRunAt(pw: string, i: int)
  {
    0 <= i && i + 8 <= |pw| && forall t :: i <= t < i + 8 ==> !IsLineTerminator(pw[t])
  }

  /** `req.regex.test(password)` for each requirement. */
  predicate Satisfies(pw: string, r: Requirement)
  {
    match r
    case Length => exists i :: 0 <= i <= |pw| - 8 && LongRunAt(pw, i)
    case Uppercase => exists i :: 0 <= i < |pw| && IsUpper(pw[i])
    case Lowercase => exists i :: 0 <= i < |pw| && IsLower(pw[i])
    case Number => exists i :: 0 <= i < |pw| && IsDigit(pw[i])
    case Special => exists i :: 0 <= i < |pw| && !IsAlphanumeric(pw[i])
  }

  /** How many of `reqs` the password meets. */
  function CountSatisfied(pw: string, reqs: seq<Requirement>): (n: nat)
    ensures n <= |reqs|
  {
    if reqs == [] then 0
    else CountSatisfied(pw, reqs[..|reqs| - 1]) + (if Satisfies(pw, reqs[|reqs| - 1]) then 1 else 0)
  }

  /** The strength score: the number of requirements met, from 0 to 5. */
  function Strength(pw: string): (n: nat)
    ensures n <= 5
  {
    CountSatisfied(pw, Requirements)
  }

  function Bit(pw: string, r: Requirement): nat
  {
    if Satisfies(pw, r) then 1 else 0
  }

  /** The score is the sum over the five requirements. */
  lemma StrengthIsSum(pw: string)
    ensures Strength(pw) == Bit(pw, Length) + Bit(pw, Uppercase) + Bit(pw, Lowercase) + Bit(pw, Number) + Bit(pw, Special)
  {
    var r4 := [Length, Uppercase, Lowercase, Number];
    var r3 := [Length, Uppercase, Lowercase];
    var r2 := [Length, Uppercase];
    var r1 := [Length];
    assert Requirements[..4] == r4;
    assert CountSatisfied(pw, Requirements) == CountSatisfied(pw, r4) + Bit(pw, Special);
    assert r4[..3] == r3;
    assert CountSatisfied(pw, r4) == CountSatisfied(pw, r3) + Bit(pw, Number);
    assert r3[..2] == r2;
    assert CountSatisfied(pw, r3) == CountSatisfied(pw, r2) + Bit(pw, Lowercase);
    assert r2[..1] == r1;
    assert CountSatisfied(pw, r2) == CountSatisfied(pw, r1) + Bit(pw, Uppercase);
    assert r1[..0] == [];
    assert CountSatisfied(pw, r1) == Bit(pw, Length);
  }

  /** The score is 5 exactly when every requirement is met, and 0 exactly when none is. */
  lemma StrengthExtremes(pw: string)
    ensures Strength(pw) == 5 <==> forall r :: Satisfies(pw, r)
    ensures Strength(pw) == 0 <==> forall r :: !Satisfies(pw, r)
  {
    StrengthIsSum(pw);
  }

  /** Typing more characters never unmeets a requirement. */
  lemma SatisfiesAppend(pw: string, more: string, r: Requirement)
    requires Satisfies(pw, r)
    ensures Satisfies(pw + more, r)
  {
    var s := pw + more;
    match r
    case Length =>
      var i :| 0 <= i <= |pw| - 8 && LongRunAt(pw, i);
      assert forall t :: i <= t < i + 8 ==> s[t] == pw[t];
      assert LongRunAt(s, i);
    case Uppercase =>
      var i :| 0 <= i < |pw| && IsUpper(pw[i]);
      assert s[i] == pw[i];
    case Lowercase =>
      var i :| 0 <= i < |pw| && IsLower(pw[i]);
      assert s[i] == pw[i];
    case Number =>
      var i :| 0 <= i < |pw| && IsDigit(pw[i]);
      assert s[i] == pw[i];
    case Special =>
      var i :| 0 <= i < |pw| && !IsAlphanumeric(pw[i]);
      assert s[i] == pw[i];
  }

  lemma {:induction false} CountMonotone(pw: string, more: string, reqs: seq<Requirement>)
    ensures CountSatisfied(pw, reqs) <= CountSatisfied(pw + more, reqs)
  {
    if reqs != [] {
      CountMonotone(pw, more, reqs[..|reqs| - 1]);
      if Satisfies(pw, reqs[|reqs| - 1]) {
        SatisfiesAppend(pw, more, reqs[|reqs| - 1]);
      }
    }
  }

  /** Hence the score never falls as characters are typed at the end. */
  lemma StrengthMonotone(pw: string, more: string)
    ensures Strength(pw) <= Strength(pw + more)
  {
    CountMonotone(pw, more, Requirements);
  }

  /** The empty password meets nothing; the form starts at 0. */
  lemma EmptyPasswordStrength()
    ensures Strength([]) == 0
  {
    StrengthExtremes([]);
  }

  /**
   * Submission asks for a score of 3, not for the length requirement: three
   * characters, one of each of upper case, lower case and digit, are enough.
   */
  lemma ShortPasswordAccepted(pw: string)
    requires |pw| == 3 && IsUpper(pw[0]) && IsLower(pw[1]) && IsDigit(pw[2])
    ensures Strength(pw) == 3 && !Satisfies(pw, Length)
  {
    assert Satisfies(pw, Uppercase) && Satisfies(pw, Lowercase) && Satisfies(pw, Number);
    StrengthIsSum(pw);
  }

  /** `checkPasswordStrength`: one pass over the requirements, counting those the password meets. */
  method CheckPasswordStrength(pw: string) returns (strength: nat)
    ensures strength == Strength(pw)
  {
    strength := 0;
    for i := 0 to |Requirements|
      invariant strength == CountSatisfied(pw, Requirements[..i])
    {
      assert Requirements[..i + 1][..i] == Requirements[..i];
      if Satisfies(pw, Requirements[i]) {
        strength := strength + 1;
      }
    }
    assert Requirements[..|Requirements|] == Requirements;
  }

  // ---------------------------------------------------------------- the strength meter

  datatype Level = Weak | Fair | Good | Strong

  /** The meter's reading (`getStrengthText`): up to 2 Weak, 3 Fair, 4 Good, 5 Strong. */
  function LevelOf(strength: nat): (l: Level)
    ensures l == Weak <==> strength <= 2
    ensures l == Fair <==> strength == 3
    ensures l == Good <==> strength == 4
    ensures l == Strong <==> strength >= 5
  {
    if strength <= 2 then Weak else if strength <= 3 then Fair else if strength <= 4 then Good else Strong
  }

  function LevelText(l: Level): string
  {
    match l
    case Weak => "Weak"
    case Fair => "Fair"
    case Good => "Good"
    case Strong => "Strong"
  }

  /** `getStrengthColor`: its thresholds are those of the text, so each level has one colour. */
  function StrengthColor(strength: nat): (c: string)
    ensures c == LevelColor(LevelOf(strength))
  {
    if strength <= 2 then "bg-red-500"
    else if strength <= 3 then "bg-yellow-500"
    else if strength <= 4 then "bg-blue-500"
    else "bg-green-500"
  }

  function LevelColor(l: Level): string
  {
    match l
    case Weak => "bg-red-500"
    case Fair => "bg-yellow-500"
    case Good => "bg-blue-500"
    case Strong => "bg-green-500"
  }

  function LevelRank(l: Level): nat
  {
    match l
    case Weak => 0
    case Fair => 1
    case Good => 2
    case Strong => 3
  }

  /** A higher score never reads as a lower level. */
  lemma LevelMonotone(a: nat, b: nat)
    requires a <= b
    ensures LevelRank(LevelOf(a)) <= LevelRank(LevelOf(b))
  {
  }

  /** The meter's width in percent, `(strength / 5) * 100`: a whole number, full exactly at 5. */
  function MeterPercent(strength: nat): (p: nat)
    requires strength <= 5
    ensures p <= 100 && (p == 100 <==> strength == 5) && (p == 0 <==> strength == 0)
    ensures p * 5 == strength * 100
  {
    strength * 20
  }

  /** A password the form accepts is exactly one the meter does not call Weak. */
  lemma AcceptedIffNotWeak(strength: nat)
    ensures strength >= 3 <==> LevelOf(strength) != Weak
  {
  }

  // ---------------------------------------------------------------- the form

  datatype Field = Name | Email | Password | ConfirmPassword

  datatype PasswordField = PasswordInput | ConfirmInput

  datatype SignupError = NoError | Mismatch | WeakPassword | SignupFailed(serverError: string)

  function ErrorText(e: SignupError): string
  {
    match e
    case NoError => ""
    case Mismatch => "Passwords do not match"
    case WeakPassword => "Please use a stronger password"
    case SignupFailed(s) => OrElse(s, "Signup failed. Please try again.")
  }

  /** What a successful sign-up returns: the session token and the user's e-mail and name. */
  datatype Session = Session(token: string, email: string, name: string)

  datatype SignupRequest = SignupRequest(name: string, email: string, password: string)

  class Form {
    var name: string
    var email: string
    var password: string
    var confirmPassword: string
    var showPassword: bool
    var showConfirm: bool
    var isLoading: bool
    var error: SignupError
    var strength: nat

    /** The score shown is always that of the password typed. */
    predicate Valid()
      reads this
    {
      strength == Strength(password)
    }

    constructor ()
      ensures Valid()
      ensures name == [] && email == [] && password == [] && confirmPassword == []
      ensures !showPassword && !showConfirm && !isLoading && error == NoError && strength == 0
    {
      name, email, password, confirmPassword := [], [], [], [];
      showPassword, showConfirm, isLoading, error := false, false, false, NoError;
      strength := 0;
      EmptyPasswordStrength();
    }

    /**
     * `handleChange`: the named field takes the value and the others keep
     * theirs; the score is recomputed only for the password; any error is
     * cleared.
     */
    method HandleChange(field: Field, value: string)
      requires Valid()
      modifies this
      ensures Valid()
      ensures name == (if field == Name then value else old(name))
      ensures email == (if field == Email then value else old(email))
      ensures password == (if field == Password then value else old(password))
      ensures confirmPassword == (if field == ConfirmPassword then value else old(confirmPassword))
      ensures field != Password ==> strength == old(strength)
      ensures error == NoError
      ensures showPassword == old(showPassword) && showConfirm == old(showConfirm) && isLoading == old(isLoading)
    {
      match field {
        case Name => name := value;
        case Email => email := value;
        case Password =>
          password := value;
          strength := CheckPasswordStrength(value);
        case ConfirmPassword => confirmPassword := value;
      }
      error := NoError;
    }

    /** `togglePassword`: flips the visibility of the named field only. */
    method TogglePassword(field: PasswordField)
      modifies this
      ensures showPassword == (if field == PasswordInput then !old(showPassword) else old(showPassword))
      ensures showConfirm == (if field == ConfirmInput then !old(showConfirm) else old(showConfirm))
      ensures name == old(name) && email == old(email) && password == old(password) && confirmPassword == old(confirmPassword)
      ensures isLoading == old(isLoading) && error == old(error) && strength == old(strength)
    {
      if field == PasswordInput {
        showPassword := !showPassword;
      } else {
        showConfirm := !showConfirm;
      }
    }

    /**
     * `handleSubmit`: first the two passwords must agree, then the score must
     * reach 3; only then is the account requested. On success the session is
     * stored and the page goes to "/".
     */
    method Submit(response: ApiResult<Session>)
      returns (requests: seq<SignupRequest>, stored: Option<Session>, navigated: bool)
      requires Valid()
      modifies this
      ensures Valid()
      ensures old(password) != old(confirmPassword) ==>
        requests == [] && stored == None && !navigated && error == Mismatch && isLoading == old(isLoading)
      ensures old(password) == old(confirmPassword) && Strength(old(password)) < 3 ==>
        requests == [] && stored == None && !navigated && error == WeakPassword && isLoading == old(isLoading)
      ensures old(password) == old(confirmPassword) && Strength(old(password)) >= 3 ==>
        && requests == [SignupRequest(old(name), old(email), old(password))] && !isLoading
        && (response.Ok? ==> stored == Some(response.value) && navigated && error == NoError)
        && (response.Fail? ==> stored == None && !navigated && error == SignupFailed(response.error.dataError))
      ensures name == old(name) && email == old(email) && password == old(password) && confirmPassword == old(confirmPassword)
      ensures showPassword == old(showPassword) && showConfirm == old(showConfirm)
    {
      if password != confirmPassword {
        error := Mismatch;
        return [], None, false;
      }
      if strength < 3 {
        error := WeakPassword;
        return [], None, false;
      }
      isLoading := true;
      error := NoError;
      requests := [SignupRequest(name, email, password)];
      if response.Ok? {
        stored, navigated := Some(response.value), true;
      } else {
        stored, navigated := None, false;
        error := SignupFailed(response.error.dataError);
      }
      isLoading := false;
    }
  }
}
