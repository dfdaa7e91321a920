/** The login page: the guard before the login call and the message derived from its outcome. */
module LoginPage {
  import opened Wrappers
  import opened Strings
  import opened Notices

  const EMPTY_FIELDS_MESSAGE := "Por favor, preencha todos os campos."
  const ERROR_MESSAGE := "Ocorreu um erro durante o login. Tente novamente mais tarde."

  /** The guard: e-mail and password must be non-blank after `trim`. */
  function LoginGuard(email: string, password: string): (r: Option<string>)
    ensures r.Some? ==> r.value == EMPTY_FIELDS_MESSAGE
  {
    if Trim(email) == "" || Trim(password) == "" then Some(EMPTY_FIELDS_MESSAGE) else None
  }

  /** The guard passes iff neither field is empty or made only of white space. */
  lemma LoginGuardPasses(email: string, password: string)
    ensures LoginGuard(email, password).None? <==> !AllWhitespace(email) && !AllWhitespace(password)
  {
    TrimEmptyIff(email);
    TrimEmptyIff(password);
  }

  /** The page's guard is stronger than the context's empty-field check, so a call that passes
    * it always reaches the accepting branch of the development login. */
  lemma GuardPassesContextCheck(email: string, password: string)
    requires LoginGuard(email, password).None?
    ensures email != "" && password != ""
  {
  }

  class LoginForm {
    var email: string
    var password: string
    var message: PageMessage
    var isSubmitting: bool

    constructor ()
      ensures email == "" && password == "" && message == NO_MESSAGE && !isSubmitting
    {
      email, password := "", "";
      message := NO_MESSAGE;
      isSubmitting := false;
    }

    /**
     * The synchronous part of `handleSubmit`: blank fields show the message and the login call is
     * not made; otherwise `isSubmitting` is set and the message cleared before the call.
     */
    method SubmitBegin() returns (callLogin: bool)
      modifies this
      ensures callLogin <==> LoginGuard(email, password).None?
      ensures !callLogin ==> message == Danger(EMPTY_FIELDS_MESSAGE) && isSubmitting == old(isSubmitting)
      ensures callLogin ==> message == NO_MESSAGE && isSubmitting
      ensures email == old(email) && password == old(password)
    {
      var guard := LoginGuard(email, password);
      if guard.Some? {
        message := Danger(guard.value);
        return false;
      }
      isSubmitting := true;
      message := NO_MESSAGE;
      return true;
    }

    /**
     * After the awaited call: a failure shows the call's message, an exception the generic text,
     * success leaves the message as it was; `isSubmitting` is false in every case.
     */
    method Finish(outcome: CallOutcome)
      modifies this
      ensures outcome.Resolved? && outcome.success ==> message == old(message)
      ensures outcome.Resolved? && !outcome.success ==> message == Danger(outcome.message)
      ensures outcome.Threw? ==> message == Danger(ERROR_MESSAGE)
      ensures !isSubmitting && email == old(email) && password == old(password)
    {
      if outcome.Threw? {
        message := Danger(ERROR_MESSAGE);
      } else if !outcome.success {
        message := Danger(outcome.message);
      }
      isSubmitting := false;
    }

    /** A whole attempt that gets past the guard ends with `isSubmitting` false and, on success,
      * no message. */
    method Submit(outcome: CallOutcome) returns (called: bool)
      modifies this
      ensures called <==> LoginGuard(email, password).None?
      ensures called ==> !isSubmitting
      ensures called && outcome.Resolved? && outcome.success ==> message == NO_MESSAGE
      ensures !called ==> message == Danger(EMPTY_FIELDS_MESSAGE)
      ensures email == old(email) && password == old(password)
    {
      called := SubmitBegin();
      if called {
        Finish(outcome);
      }
    }
  }
}
