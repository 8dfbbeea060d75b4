/** The login/registration form of frontend/pages/LoginPage.tsx as a state
    machine: the component's seven state variables form one immutable record,
    and each event handler maps the state before the event to the state after
    it, together with whether the `onLogin` callback was invoked. */
module LoginPage {
  import opened Wrappers
  import opened JsStrings
  import opened Validators

  /** The component state; the registered pair is a single slot. */
  datatype FormState = FormState(
    isRegistering: bool,
    email: string,
    password: string,
    registeredEmail: string,
    registeredPassword: string,
    error: string,
    message: string)

  /** Every state variable starts out false or empty: sign-in mode, nobody registered. */
  const Init := FormState(false, "", "", "", "", "", "")

  /** The user actions the page reacts to: typing into either input, submitting
      the form, the forgot-password button and the two mode-switch buttons. */
  datatype Event =
    | EditEmail(value: string)
    | EditPassword(value: string)
    | Submit
    | ForgotPassword
    | ToggleToRegister
    | ToggleToSignIn

  /** The state after a handler and whether it called `onLogin`. */
  datatype Transition = Transition(next: FormState, onLogin: bool)

  const MissingFieldsError := "Please fill in both fields."
  const InvalidEmailError := "Please enter a valid email address."
  const WeakPasswordError := "Password must be at least 6 characters long and include a special symbol."
  const RegisteredMessage := "Registration successful! You can now sign in."
  const LoginMessage := "Login successful!"
  const BadCredentialsError := "Your credentials are incorrect. Please try again or register."
  const NoUserError := "No user registered yet. Please sign up first."
  const ResetMessage := "Password reset link sent to your email (simulation)."
  const UnknownEmailError := "Please enter your registered email address to reset password."

  /** Why a submission is refused before the mode-specific action. */
  datatype Rejection = MissingField | InvalidEmail | WeakPassword

  function ErrorText(r: Rejection): string
  {
    match r
    case MissingField => MissingFieldsError
    case InvalidEmail => InvalidEmailError
    case WeakPassword => WeakPasswordError
  }

  /** The submit handler's three checks in order; the first that fails is reported. */
  function FirstRejection(email: string, password: string): (r: Option<Rejection>)
    ensures r == Some(MissingField) <==> email == "" || password == ""
    ensures r == Some(InvalidEmail) <==> email != "" && password != "" && !ValidateEmail(email)
    ensures r == Some(WeakPassword) <==>
              email != "" && password != "" && ValidateEmail(email) && !ValidatePassword(password)
    ensures r == None <==> ValidateEmail(email) && ValidatePassword(password)
  {
    if email == "" || password == "" then Some(MissingField)
    else if !ValidateEmail(email) then Some(InvalidEmail)
    else if !ValidatePassword(password) then Some(WeakPassword)
    else None
  }

  /** Both fields pass the checks, so the mode-specific action runs. */
  predicate Accepted(s: FormState)
  {
    FirstRejection(s.email, s.password).None?
  }

  /** `handleSubmit`. */
  function OnSubmit(s: FormState): (t: Transition)
    // a refused submission reports its reason and changes nothing else
    ensures !Accepted(s) ==>
              !t.onLogin && t.next == s.(error := ErrorText(FirstRejection(s.email, s.password).value), message := "")
    // registration fills the single slot, empties the inputs and returns to sign-in mode
    ensures Accepted(s) && s.isRegistering ==>
              && !t.onLogin
              && t.next.registeredEmail == s.email && t.next.registeredPassword == s.password
              && !t.next.isRegistering && t.next.email == "" && t.next.password == ""
              && t.next.message == RegisteredMessage && t.next.error == ""
    // signing in never changes the mode, the inputs or the registered pair
    ensures Accepted(s) && !s.isRegistering ==>
              t.next == s.(error := t.next.error, message := t.next.message)
    ensures t.onLogin <==>
              !s.isRegistering && Accepted(s)
              && s.email == s.registeredEmail && s.password == s.registeredPassword
    ensures Accepted(s) && !s.isRegistering && t.onLogin ==>
              t.next.message == LoginMessage && t.next.error == ""
    ensures Accepted(s) && !s.isRegistering && !t.onLogin ==>
              t.next.error == BadCredentialsError && t.next.message == ""
    // an error and a message are never shown together after a submission
    ensures t.next.error == "" || t.next.message == ""
  {
    var cleared := s.(error := "", message := "");
    match FirstRejection(s.email, s.password)
    case Some(r) => Transition(cleared.(error := ErrorText(r)), false)
    case None =>
      if s.isRegistering then
        Transition(cleared.(registeredEmail := s.email, registeredPassword := s.password,
                            message := RegisteredMessage, isRegistering := false,
                            email := "", password := ""), false)
      else if s.email == s.registeredEmail && s.password == s.registeredPassword then
        Transition(cleared.(message := LoginMessage), true)
      else
        Transition(cleared.(error := BadCredentialsError), false)
  }

  /** `handleForgotPassword`. It does not clear the other banner first. */
  function OnForgotPassword(s: FormState): (r: FormState)
    ensures r.isRegistering == s.isRegistering
    ensures r.email == s.email && r.password == s.password
    ensures r.registeredEmail == s.registeredEmail && r.registeredPassword == s.registeredPassword
    ensures s.registeredEmail == "" ==> r.error == NoUserError && r.message == s.message
    ensures s.registeredEmail != "" && s.email == s.registeredEmail ==>
              r.error == "" && r.message == ResetMessage
    ensures s.registeredEmail != "" && s.email != s.registeredEmail ==>
              r.error == UnknownEmailError && r.message == s.message
  {
    if s.registeredEmail == "" then s.(error := NoUserError)
    else if s.email == s.registeredEmail then s.(message := ResetMessage, error := "")
    else s.(error := UnknownEmailError)
  }

  /** The two inline mode-switch handlers; `registering` is the mode each sets. */
  function OnToggle(s: FormState, registering: bool): (r: FormState)
    ensures r.isRegistering == registering
    ensures r.error == "" && r.message == ""
    ensures r.email == s.email && r.password == s.password
    ensures r.registeredEmail == s.registeredEmail && r.registeredPassword == s.registeredPassword
  {
    s.(isRegistering := registering, error := "", message := "")
  }

  /** Dispatches one event to its handler. */
  function Step(s: FormState, ev: Event): Transition
  {
    match ev
    case EditEmail(v) => Transition(s.(email := v), false)
    case EditPassword(v) => Transition(s.(password := v), false)
    case Submit => OnSubmit(s)
    case ForgotPassword => Transition(OnForgotPassword(s), false)
    case ToggleToRegister => Transition(OnToggle(s, true), false)
    case ToggleToSignIn => Transition(OnToggle(s, false), false)
  }

  /** The event fills the registered slot: an accepted submission in register mode. */
  predicate Registers(s: FormState, ev: Event)
  {
    ev.Submit? && s.isRegistering && Accepted(s)
  }

  /** The state after a sequence of events, with how often `onLogin` was
      called and how many registrations succeeded along the way. */
  datatype RunResult = RunResult(final: FormState, logins: nat, registrations: nat)

  function Run(s: FormState, evs: seq<Event>): RunResult
    decreases |evs|
  {
    if |evs| == 0 then RunResult(s, 0, 0)
    else
      var t := Step(s, evs[0]);
      var rest := Run(t.next, evs[1..]);
      RunResult(rest.final,
                rest.logins + (if t.onLogin then 1 else 0),
                rest.registrations + (if Registers(s, evs[0]) then 1 else 0))
  }

  /** Running two event sequences one after the other is running their concatenation. */
  lemma {:induction false} RunAppend(s: FormState, a: seq<Event>, b: seq<Event>)
    ensures var first := Run(s, a);
            var second := Run(first.final, b);
            Run(s, a + b) == RunResult(second.final, first.logins + second.logins,
                                       first.registrations + second.registrations)
    decreases |a|
  {
    if |a| == 0 {
      assert a + b == b;
    } else {
      assert (a + b)[0] == a[0];
      assert (a + b)[1..] == a[1..] + b;
      RunAppend(Step(s, a[0]).next, a[1..], b);
    }
  }

  /** The registered slot is either empty or holds a pair that passed both validators. */
  predicate SlotInvariant(s: FormState)
  {
    || (s.registeredEmail == "" && s.registeredPassword == "")
    || (ValidateEmail(s.registeredEmail) && ValidatePassword(s.registeredPassword))
  }

  /** Only a registration changes the registered slot, and `onLogin` needs a filled slot. */
  lemma StepFacts(s: FormState, ev: Event)
    ensures !Registers(s, ev) ==>
              Step(s, ev).next.registeredEmail == s.registeredEmail
              && Step(s, ev).next.registeredPassword == s.registeredPassword
    ensures Step(s, ev).onLogin ==> s.registeredEmail != "" && s.registeredPassword != ""
    ensures SlotInvariant(s) ==> SlotInvariant(Step(s, ev).next)
  {
  }

  /** Every state reachable from `s` keeps the slot invariant. */
  lemma {:induction false} RunKeepsSlotInvariant(s: FormState, evs: seq<Event>)
    requires SlotInvariant(s)
    ensures SlotInvariant(Run(s, evs).final)
    decreases |evs|
  {
    if |evs| > 0 {
      StepFacts(s, evs[0]);
      RunKeepsSlotInvariant(Step(s, evs[0]).next, evs[1..]);
    }
  }

  /** From a state with an empty slot, `onLogin` is not called by any run
      without a successful registration. */
  lemma {:induction false} NoLoginWithoutRegistration(s: FormState, evs: seq<Event>)
    requires s.registeredEmail == ""
    ensures Run(s, evs).registrations == 0 ==> Run(s, evs).logins == 0
    decreases |evs|
  {
    if |evs| > 0 && Run(s, evs).registrations == 0 {
      assert !Registers(s, evs[0]);
      StepFacts(s, evs[0]);
      NoLoginWithoutRegistration(Step(s, evs[0]).next, evs[1..]);
    }
  }

  /** From the initial page, for every event sequence (and so for each of its
      prefixes), `onLogin` is called only after a registration succeeded. */
  lemma NoLoginBeforeRegistration(evs: seq<Event>)
    ensures Run(Init, evs).registrations == 0 ==> Run(Init, evs).logins == 0
    ensures SlotInvariant(Run(Init, evs).final)
  {
    NoLoginWithoutRegistration(Init, evs);
    RunKeepsSlotInvariant(Init, evs);
  }

  /** Lower-case letters and dots, the characters of the sample addresses. */
  predicate LowerOrDot(t: string)
  {
    forall k :: 0 <= k < |t| ==> 'a' <= t[k] <= 'z' || t[k] == '.'
  }

  lemma LowerOrDotIsPlain(t: string)
    requires LowerOrDot(t)
    ensures AllPlain(t)
  {
  }

  /** The verdicts of the validators on the sample inputs used below. */
  lemma SampleEmails()
    ensures ValidateEmail("a@b.com") && ValidateEmail("user@test.com")
  {
    SampleEmail("a@b.com", 1, 1);
    SampleEmail("user@test.com", 4, 4);
  }

  lemma SampleEmail(s: string, at: nat, dot: nat)
    requires at < |s| && s[at] == '@' && 0 < at && LowerOrDot(s[..at])
    requires LowerOrDot(s[at + 1..]) && 0 < dot < |s[at + 1..]| - 1 && s[at + 1..][dot] == '.'
    ensures ValidateEmail(s)
  {
    LowerOrDotIsPlain(s[..at]);
    LowerOrDotIsPlain(s[at + 1..]);
    IndexOfFirst(s, '@', at);
  }

  lemma SampleWeakPassword()
    ensures !ValidatePassword("abc123")
  {
  }

  lemma SampleStrongPasswords()
    ensures ValidatePassword("Pass!1") && ValidatePassword("Wrong!1")
  {
    assert "Pass!1"[4] == '!';
    assert "Wrong!1"[5] == '!';
  }

  /** A well-formed address with a six-character password lacking a special
      symbol is refused with the password error, and nothing else changes. */
  lemma WeakPasswordScenario()
    ensures var s := Init.(email := "a@b.com", password := "abc123");
            Step(s, Submit) == Transition(s.(error := WeakPasswordError), false)
  {
    SampleEmails();
    SampleWeakPassword();
  }

  /** The page right after `email`/`password` was registered. */
  function SignedUp(email: string, password: string): FormState
  {
    FormState(false, "", "", email, password, "", RegisteredMessage)
  }

  /** Switching to register mode and submitting a valid pair registers it,
      empties the inputs and returns to sign-in mode. */
  lemma SignUpScenario(email: string, password: string)
    requires ValidateEmail(email) && ValidatePassword(password)
    ensures Run(Init, [ToggleToRegister, EditEmail(email), EditPassword(password), Submit])
            == RunResult(SignedUp(email, password), 0, 1)
  {
    var s0 := OnToggle(Init, true);
    var s1 := s0.(email := email);
    var s2 := s1.(password := password);
    assert Step(s2, Submit) == Transition(SignedUp(email, password), false);
    assert Run(s2, [Submit]) == RunResult(SignedUp(email, password), 0, 1);
    assert Run(s1, [EditPassword(password), Submit]) == RunResult(SignedUp(email, password), 0, 1);
    assert Run(s0, [EditEmail(email), EditPassword(password), Submit]) == RunResult(SignedUp(email, password), 0, 1);
  }

  /** After signing up, entering the same pair calls `onLogin`; entering a
      different valid password is refused. */
  lemma SignInScenario(email: string, password: string, attempt: string)
    requires ValidateEmail(email) && ValidatePassword(password) && ValidatePassword(attempt)
    ensures var r := Run(SignedUp(email, password), [EditEmail(email), EditPassword(attempt), Submit]);
            && r.registrations == 0
            && (attempt == password ==> r.logins == 1 && r.final.message == LoginMessage)
            && (attempt != password ==> r.logins == 0 && r.final.error == BadCredentialsError)
  {
    var s1 := SignedUp(email, password).(email := email);
    var s2 := s1.(password := attempt);
    assert Accepted(s2);
    var t := Step(s2, Submit);
    assert Run(s2, [Submit]) == RunResult(t.next, if t.onLogin then 1 else 0, 0);
    assert Run(s1, [EditPassword(attempt), Submit]) == Run(s2, [Submit]);
  }

  /** Signing up and then signing in, run back to back from the initial page. */
  lemma RegisterThenSignIn(email: string, password: string, attempt: string)
    requires ValidateEmail(email) && ValidatePassword(password) && ValidatePassword(attempt)
    ensures var r := Run(Init, [ToggleToRegister, EditEmail(email), EditPassword(password), Submit]
                               + [EditEmail(email), EditPassword(attempt), Submit]);
            && r.registrations == 1
            && (attempt == password ==> r.logins == 1 && r.final.message == LoginMessage)
            && (attempt != password ==> r.logins == 0 && r.final.error == BadCredentialsError)
  {
    SignUpScenario(email, password);
    SignInScenario(email, password, attempt);
    RunAppend(Init, [ToggleToRegister, EditEmail(email), EditPassword(password), Submit],
              [EditEmail(email), EditPassword(attempt), Submit]);
  }

  /** Sign up as user@test.com with Pass!1, then sign in with Pass!1 (accepted)
      or with Wrong!1 (refused). */
  lemma SampleSession(attempt: string)
    requires attempt == "Pass!1" || attempt == "Wrong!1"
    ensures var r := Run(Init, [ToggleToRegister, EditEmail("user@test.com"), EditPassword("Pass!1"), Submit]
                               + [EditEmail("user@test.com"), EditPassword(attempt), Submit]);
            && r.registrations == 1
            && (attempt == "Pass!1" ==> r.logins == 1)
            && (attempt == "Wrong!1" ==> r.logins == 0 && r.final.error == BadCredentialsError)
  {
    SampleEmails();
    SampleStrongPasswords();
    RegisterThenSignIn("user@test.com", "Pass!1", attempt);
  }
}
