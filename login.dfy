/**
 * The ref-based `Login` form: on submit the entered email is checked for an
 * '@'; the invalid-email flag is set or cleared and, when valid, the request
 * step is reached.
 */
module Login {

  /** `s.includes(c)` for a one-character search string. */
  function Includes(s: string, c: char): (r: bool)
    ensures r <==> exists i :: 0 <= i < |s| && s[i] == c
    decreases |s|
  {
    if s == [] then false
    else if s[0] == c then true
    else
      var rest := Includes(s[1..], c);
      assert forall i :: 0 < i < |s| ==> s[i] == s[1..][i - 1];
      rest
  }

  /** `emailIsValid`: the entered email contains an '@'. */
  predicate EmailIsValid(enteredEmail: string)
    ensures EmailIsValid(enteredEmail) <==> '@' in enteredEmail
  {
    Includes(enteredEmail, '@')
  }

  class LoginForm {
    /** The `emailIsInvalid` state. */
    var emailIsInvalid: bool
    /** How many submissions reached the request step. */
    var requestsSent: nat

    /** `useState(false)`. */
    constructor ()
      ensures !emailIsInvalid && requestsSent == 0
    {
      emailIsInvalid := false;
      requestsSent := 0;
    }

    /**
     * `handleSubmit`: only the email is examined. Without an '@' the flag is
     * set and the handler returns early; with one the flag is cleared and the
     * request step is reached. The new flag depends on the email alone, so
     * submitting the same email again leaves it where it is.
     */
    method HandleSubmit(enteredEmail: string, enteredPassword: string) returns (emailIsValid: bool)
      modifies this
      ensures emailIsValid <==> exists i :: 0 <= i < |enteredEmail| && enteredEmail[i] == '@'
      ensures emailIsInvalid == !emailIsValid
      ensures requestsSent == old(requestsSent) + (if emailIsValid then 1 else 0)
    {
      emailIsValid := Includes(enteredEmail, '@');
      if !emailIsValid {
        emailIsInvalid := true;
        return;
      }
      emailIsInvalid := false;
      requestsSent := requestsSent + 1;
    }
  }

  /** Two submissions of the same email leave the flag as one does, whatever the passwords. */
  method SubmitTwice(form: LoginForm, email: string, password1: string, password2: string)
    modifies form
    ensures form.emailIsInvalid == !EmailIsValid(email)
    ensures form.requestsSent == old(form.requestsSent) + (if EmailIsValid(email) then 2 else 0)
  {
    var first := form.HandleSubmit(email, password1);
    var flagOnce := form.emailIsInvalid;
    var second := form.HandleSubmit(email, password2);
    assert form.emailIsInvalid == flagOnce;
  }
}
