/**
 * frontend/src/pages/Register.jsx: the registration form. `handleChange`
 * builds a new form with one field replaced; `handleSubmit` runs four checks
 * in order, reports only the first failure, and calls the register API only
 * when all pass. The API's answer is a parameter.
 */
module RegisterPage {
  import opened Common
  import opened Validation

  datatype Form = Form(firstName: string, lastName: string, email: string, password: string, confirmPassword: string)

  /** The `name` attributes of the form's inputs. */
  datatype Field = FirstName | LastName | Email | Password | ConfirmPassword

  function Get(f: Form, field: Field): string
  {
    match field
    case FirstName => f.firstName
    case LastName => f.lastName
    case Email => f.email
    case Password => f.password
    case ConfirmPassword => f.confirmPassword
  }

  /** `{ ...formData, [name]: value }`. */
  function WithField(f: Form, field: Field, value: string): (g: Form)
    ensures Get(g, field) == value
    ensures forall other :: other != field ==> Get(g, other) == Get(f, other)
  {
    match field
    case FirstName => f.(firstName := value)
    case LastName => f.(lastName := value)
    case Email => f.(email := value)
    case Password => f.(password := value)
    case ConfirmPassword => f.(confirmPassword := value)
  }

  const ShortFirstName := "firstName length must be at least 2 characters long"
  const ShortLastName := "lastName length must be at least 2 characters long"
  const Mismatch := "Passwords do not match"
  const ShortPassword := "Password must be at least 8 characters"
  const Registered := "Registration successful! Your account is pending admin approval. You will receive an email when approved."
  const Fallback := "Registration failed. Please try again."

  /** The first failing check, in the page's order, or None when all pass. */
  function FirstProblem(f: Form): (p: Option<string>)
    ensures p.None? <==> |f.firstName| >= 2 && |f.lastName| >= 2 && f.password == f.confirmPassword && |f.password| >= 8
    ensures p == Some(ShortFirstName) <==> |f.firstName| < 2
    ensures p == Some(ShortLastName) <==> |f.firstName| >= 2 && |f.lastName| < 2
    ensures p == Some(Mismatch) <==> |f.firstName| >= 2 && |f.lastName| >= 2 && f.password != f.confirmPassword
  {
    if |f.firstName| < 2 then Some(ShortFirstName)
    else if |f.lastName| < 2 then Some(ShortLastName)
    else if f.password != f.confirmPassword then Some(Mismatch)
    else if |f.password| < 8 then Some(ShortPassword)
    else None
  }

  /** The outcome of `authAPI.register`: success, or an error whose response body may carry an `error` string. */
  datatype ApiReply = Created | Failed(serverError: Option<string>)

  /** The message shown for a failed call: the server's error when truthy, else the fallback. */
  function FailureMessage(serverError: Option<string>): (m: string)
    ensures m != ""
    ensures serverError.Some? && serverError.value != "" ==> m == serverError.value
  {
    if serverError.Some? && serverError.value != "" then serverError.value else Fallback
  }

  class Page {
    var form: Form
    var error: string
    var success: string
    var loading: bool

    constructor ()
      ensures form == Form("", "", "", "", "") && error == "" && success == "" && !loading
    {
      form := Form("", "", "", "", "");
      error, success, loading := "", "", false;
    }

    /** handleChange: the named field takes the new value, the others keep theirs. */
    method HandleChange(field: Field, value: string)
      modifies this
      ensures form == WithField(old(form), field, value)
      ensures error == old(error) && success == old(success) && loading == old(loading)
    {
      form := WithField(form, field, value);
    }

    /**
     * handleSubmit: clears both messages and sets loading, then reports the
     * first failing check, or calls the API and shows its success message or
     * its failure. Loading is false again on every path.
     */
    method HandleSubmit(reply: ApiReply) returns (apiCalled: bool)
      modifies this
      ensures form == old(form) && !loading
      ensures apiCalled <==> FirstProblem(form).None?
      ensures FirstProblem(form).Some? ==> error == FirstProblem(form).value && success == ""
      ensures apiCalled && reply == Created ==> error == "" && success == Registered
      ensures apiCalled && reply.Failed? ==> error == FailureMessage(reply.serverError) && success == ""
    {
      error, success, loading := "", "", true;
      if |form.firstName| < 2 {
        error, loading := ShortFirstName, false;
        return false;
      }
      if |form.lastName| < 2 {
        error, loading := ShortLastName, false;
        return false;
      }
      if form.password != form.confirmPassword {
        error, loading := Mismatch, false;
        return false;
      }
      if |form.password| < 8 {
        error, loading := ShortPassword, false;
        return false;
      }
      apiCalled := true;
      match reply {
        case Created =>
          success := Registered;
        case Failed(serverError) =>
          error := FailureMessage(serverError);
      }
      loading := false;
    }
  }

  /**
   * The page's checks are weaker than the server's: names that are not
   * alphanumeric, or longer than 50 characters, pass the page and reach the
   * server, which refuses them.
   */
  lemma PageChecksWeakerThanServer(email: string, password: string, isEmail: string -> bool)
    requires email != "" && isEmail(email) && |password| >= 8
    ensures var f := Form("Jo-Ann", "Lee", email, password, password);
            FirstProblem(f).None?
            && ValidateRegistration([("firstName", Str(f.firstName)), ("lastName", Str(f.lastName)),
                                     ("email", Str(f.email)), ("password", Str(f.password))], isEmail).Failure?
  {
    var body: JsonObject := [("firstName", Str("Jo-Ann")), ("lastName", Str("Lee")), ("email", Str(email)), ("password", Str(password))];
    assert Lookup(body, "firstName") == Some(Str("Jo-Ann"));
    assert !IsAlphanumChar("Jo-Ann"[2]);
  }

  /** A form the page lets through has the password length the server's schema demands. */
  lemma PageEnforcesServerPasswordMinimum(f: Form)
    requires FirstProblem(f).None?
    ensures |f.password| >= 8 && |f.firstName| >= 2 && |f.lastName| >= 2
  {
  }
}
