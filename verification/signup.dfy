/**
 * The input checks of `signup_view` in `core/views.py`: who is turned
 * away, in which order the posted fields are checked, and when an account
 * is created. The user table is the set of existing usernames.
 */
module Signup {
  import opened Wrappers

  /** The posted form; a field the form did not send is `None`. */
  datatype SignupForm = SignupForm(
    email: Option<string>,
    password: Option<string>,
    passwordConfirm: Option<string>)

  datatype SignupOutcome =
    | RedirectToAccount   // already signed in
    | ShowForm            // a GET: the empty form
    | MissingCredentials  // 'Email and password are required.'
    | PasswordMismatch    // 'Passwords do not match.'
    | EmailTaken          // 'An account with this email already exists.'
    | AccountCreated      // redirect to the login page

  /** Python truthiness of an optional string: present and non-empty. */
  predicate Given(field: Option<string>) {
    field.Some? && field.value != ""
  }

  /** `signup_view(request)`; `form` is `None` for a GET and `existing` holds
      the usernames already taken. The email is the new username. */
  function SignupView(signedIn: bool, form: Option<SignupForm>, existing: set<string>): (r: SignupOutcome)
    ensures r == RedirectToAccount <==> signedIn
    ensures r == ShowForm <==> !signedIn && form.None?
    ensures r == MissingCredentials <==>
              !signedIn && form.Some? && !(Given(form.value.email) && Given(form.value.password))
    ensures r == PasswordMismatch <==>
              && !signedIn && form.Some?
              && Given(form.value.email) && Given(form.value.password)
              && form.value.password != form.value.passwordConfirm
    ensures r == EmailTaken <==>
              && !signedIn && form.Some?
              && Given(form.value.email) && Given(form.value.password)
              && form.value.passwordConfirm == form.value.password
              && form.value.email.value in existing
    ensures r == AccountCreated <==>
              && !signedIn && form.Some?
              && Given(form.value.email) && Given(form.value.password)
              && form.value.passwordConfirm == form.value.password
              && form.value.email.value !in existing
  {
    if signedIn then RedirectToAccount
    else match form
      case None => ShowForm
      case Some(f) =>
        if !Given(f.email) || !Given(f.password) then MissingCredentials
        else if f.password != f.passwordConfirm then PasswordMismatch
        else if f.email.value in existing then EmailTaken
        else AccountCreated
  }

  /** The missing-field check comes first: without an email or a password
      the confirmation is never compared, nor the user table consulted. */
  lemma MissingBeforeMismatch(form: SignupForm, confirm: Option<string>, existing: set<string>, others: set<string>)
    requires !Given(form.email) || !Given(form.password)
    ensures SignupView(false, Some(form.(passwordConfirm := confirm)), existing)
         == SignupView(false, Some(form), others)
         == MissingCredentials
  {
  }

  /** An account is only created for a password typed twice alike, and never
      twice for one email. */
  lemma CreatedOnlyOnce(form: SignupForm, existing: set<string>)
    requires SignupView(false, Some(form), existing) == AccountCreated
    ensures form.passwordConfirm == form.password
    ensures SignupView(false, Some(form), existing + {form.email.value}) == EmailTaken
  {
  }
}
