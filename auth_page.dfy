/**
 * The sign-in and sign-up page (src/pages/Auth.tsx): the AIMS-ID check,
 * the `isLoading` flag around the two requests, and the notices shown.
 */
module AuthPage {
  import opened Wrappers
  import opened Strings
  import opened Events

  // ---------------------------------------------------------------------
  // The AIMS ID
  // ---------------------------------------------------------------------

  /**
   * The anchored pattern `^\d{n}$` read left to right: exactly `n` more
   * characters, each an ASCII digit (without the `u` flag `\d` is `[0-9]`,
   * and without the `m` flag `$` matches only at the end).
   */
  predicate MatchesDigitRun(s: string, n: nat)
    decreases n
  {
    if n == 0 then s == []
    else |s| > 0 && IsDigit(s[0]) && MatchesDigitRun(s[1..], n - 1)
  }

  /** The pattern matches exactly the strings of `n` digits. */
  lemma {:induction false} MatchesDigitRunIff(s: string, n: nat)
    ensures MatchesDigitRun(s, n) <==> |s| == n && AllDigits(s)
    decreases n
  {
    if n > 0 && |s| > 0 {
      MatchesDigitRunIff(s[1..], n - 1);
      if AllDigits(s) {
        assert forall i :: 0 <= i < |s[1..]| ==> s[1..][i] == s[i + 1];
      }
      if IsDigit(s[0]) && AllDigits(s[1..]) {
        assert forall i :: 1 <= i < |s| ==> s[i] == s[1..][i - 1];
      }
    }
  }

  /** `!(aimsId && !/^\d{5}$/.test(aimsId))`: no ID, or an ID the pattern matches. */
  predicate AimsIdAccepted(aimsId: Option<string>) {
    !Truthy(aimsId) || MatchesDigitRun(aimsId.value, 5)
  }

  /** An AIMS ID is accepted iff it is absent, empty, or exactly five decimal digits. */
  lemma AimsIdAcceptedIff(aimsId: Option<string>)
    ensures AimsIdAccepted(aimsId) <==>
      aimsId.None? || aimsId.value == "" || (|aimsId.value| == 5 && AllDigits(aimsId.value))
  {
    if aimsId.Some? {
      MatchesDigitRunIff(aimsId.value, 5);
    }
  }

  /** Four digits, six digits and a letter are refused; five digits pass. */
  lemma AimsIdExamples()
    ensures AimsIdAccepted(Some("12345"))
    ensures !AimsIdAccepted(Some("1234"))
    ensures !AimsIdAccepted(Some("123456"))
    ensures !AimsIdAccepted(Some("12a45"))
  {
    MatchesDigitRunIff("12345", 5);
    MatchesDigitRunIff("1234", 5);
    MatchesDigitRunIff("123456", 5);
    MatchesDigitRunIff("12a45", 5);
    assert !IsDigit("12a45"[2]);
  }

  // ---------------------------------------------------------------------
  // The page
  // ---------------------------------------------------------------------

  /** What the page renders. */
  datatype AuthScreen = RedirectToAdmin | Spinner | Forms

  /** A signed-in user is sent to /admin before the loading state is even looked at. */
  function Screen(hasUser: bool, loading: bool): (r: AuthScreen)
    ensures r == RedirectToAdmin <==> hasUser
    ensures r == Spinner <==> !hasUser && loading
    ensures r == Forms <==> !hasUser && !loading
  {
    if hasUser then RedirectToAdmin
    else if loading then Spinner
    else Forms
  }

  /** A notice: title, description, and whether it is shown as an error. */
  datatype Toast = Toast(title: string, description: string, destructive: bool)

  const InvalidAimsIdToast := Toast("Invalid AIMS ID", "AIMS ID must be exactly 5 digits.", true)

  /** The notice after sign-in: the error's own message, or the welcome. */
  function SignInToast(error: Option<string>): (t: Toast)
    ensures t.destructive <==> error.Some?
    ensures error.Some? ==> t == Toast("Sign In Failed", error.value, true)
  {
    match error
    case Some(m) => Toast("Sign In Failed", m, true)
    case None => Toast("Welcome back!", "You have been signed in successfully.", false)
  }

  /** The notice after sign-up: the error's own message, or the wait-for-approval note. */
  function SignUpToast(error: Option<string>): (t: Toast)
    ensures t.destructive <==> error.Some?
    ensures error.Some? ==> t == Toast("Sign Up Failed", error.value, true)
  {
    match error
    case Some(m) => Toast("Sign Up Failed", m, true)
    case None => Toast("Account Created!", "Your admin account has been created. Please wait for approval.", false)
  }

  /** The sign-up form as `FormData.get` reads it. */
  datatype SignUpForm = SignUpForm(
    email: Option<string>,
    password: Option<string>,
    fullName: Option<string>,
    adminRole: Option<string>,
    qiadat: Option<string>,
    aimsId: Option<string>)

  /** The arguments of `signIn`, in order. */
  datatype SignInRequest = SignInRequest(email: Option<string>, password: Option<string>)

  /** The arguments of `signUp`, in order. */
  datatype SignUpRequest = SignUpRequest(
    email: Option<string>,
    password: Option<string>,
    fullName: Option<string>,
    adminRole: Option<string>,
    qiadat: Option<string>,
    aimsId: Option<string>)

  /** The page's own state: the busy flag of the submit buttons and the notices shown so far. */
  class AuthForms {
    var isLoading: bool
    var toasts: seq<Toast>

    constructor()
      ensures !isLoading && toasts == []
    {
      isLoading := false;
      toasts := [];
    }

    /**
     * `handleSignIn`. The two fields go out to `signIn` as read; `error` is
     * what it reports. The flag is up while the request is awaited and down
     * at the end; one notice is added.
     */
    method HandleSignIn(email: Option<string>, password: Option<string>, error: Option<string>)
      returns (request: SignInRequest, busyWhileWaiting: bool)
      modifies this
      ensures request == SignInRequest(email, password)
      ensures busyWhileWaiting
      ensures !isLoading
      ensures toasts == old(toasts) + [SignInToast(error)]
    {
      isLoading := true;
      busyWhileWaiting := isLoading;
      request := SignInRequest(email, password);
      toasts := toasts + [SignInToast(error)];
      isLoading := false;
    }

    /**
     * `handleSignUp`. A refused AIMS ID adds its notice and returns before
     * `signUp` is called; otherwise the form goes out as given, with the
     * flag up while it is awaited. Either way the flag ends down.
     */
    method HandleSignUp(fd: SignUpForm, error: Option<string>)
      returns (request: Option<SignUpRequest>, busyWhileWaiting: bool)
      modifies this
      ensures request.Some? <==> AimsIdAccepted(fd.aimsId)
      ensures request.Some? ==>
        request.value == SignUpRequest(fd.email, fd.password, fd.fullName, fd.adminRole, fd.qiadat, fd.aimsId)
      ensures request.Some? ==> busyWhileWaiting
      ensures !isLoading
      ensures request.None? ==> toasts == old(toasts) + [InvalidAimsIdToast]
      ensures request.Some? ==> toasts == old(toasts) + [SignUpToast(error)]
    {
      isLoading := true;
      if !AimsIdAccepted(fd.aimsId) {
        toasts := toasts + [InvalidAimsIdToast];
        isLoading := false;
        return None, false;
      }
      busyWhileWaiting := isLoading;
      request := Some(SignUpRequest(fd.email, fd.password, fd.fullName, fd.adminRole, fd.qiadat, fd.aimsId));
      toasts := toasts + [SignUpToast(error)];
      isLoading := false;
    }
  }
}
