/**
 * The login-form classifier `check_login_form`. The HTML parser is not part
 * of the model: a page is given as the list of its `<input>` elements, in
 * document order, each with its `type` and `name` attributes when present.
 */
module LoginForm {
  import opened Wrappers
  import opened Strings

  datatype InputField = InputField(inputType: Option<string>, name: Option<string>)

  /** The `type` values that mark a login field; matched exactly. */
  const LoginTypes: seq<string> := ["text", "password"]

  /** The marker searched for, case-insensitively, in an input's `name`. */
  const AdminMarker := "admin"

  /**
   * One `<input>` is a login signal: its `type` is one of `LoginTypes`, or its
   * lower-cased `name` (the empty string when absent) contains `"admin"`. So
   * exactly two `type` values are accepted, compared without case folding, and
   * an input without a `name` can only be accepted by its `type`.
   */
  predicate IsLoginField(f: InputField)
    ensures IsLoginField(f) <==>
              || f.inputType == Some("text")
              || f.inputType == Some("password")
              || (f.name.Some? && Contains(Lower(f.name.value), AdminMarker))
  {
    || (f.inputType.Some? && f.inputType.value in LoginTypes)
    || Contains(Lower(f.name.GetOr("")), AdminMarker)
  }

  /**
   * The loop of `check_login_form`: the inputs are examined in order, the first
   * signal answers. The page is accepted exactly when some input on it is a
   * login signal.
   */
  function CheckLoginForm(inputs: seq<InputField>): (found: bool)
    ensures found <==> exists k :: 0 <= k < |inputs| && IsLoginField(inputs[k])
  {
    if inputs == [] then false
    else if IsLoginField(inputs[0]) then true
    else CheckLoginForm(inputs[1..])
  }

  /** A page without any `<input>` element is never a login form. */
  lemma NoInputsNoLoginForm()
    ensures !CheckLoginForm([])
  {
  }

  /** Whatever else the page contains, one password or text input makes it a login form. */
  lemma PasswordOrTextInputSuffices(inputs: seq<InputField>, k: nat, t: string)
    requires k < |inputs| && t in LoginTypes && inputs[k].inputType == Some(t)
    ensures CheckLoginForm(inputs)
  {
  }

  /** The `name` test ignores ASCII case: a name and its lower-cased form classify alike. */
  lemma NameTestIgnoresCase(t: Option<string>, n: string)
    ensures IsLoginField(InputField(t, Some(n))) == IsLoginField(InputField(t, Some(Lower(n))))
  {
    LowerIdempotent(n);
  }

  /** A field named `Admin_User` is a login signal, whatever its type. */
  lemma AdminUserNameIsSignal(t: Option<string>)
    ensures IsLoginField(InputField(t, Some("Admin_User")))
  {
    assert Lower("Admin_User") == "admin_user";
    assert OccursAt(Lower("Admin_User"), AdminMarker, 0);
  }

  /** Fields like `<input name="username">` with no type are not a login form. */
  lemma UsernameOnlyIsNotLoginForm(n: nat)
    ensures !CheckLoginForm(seq(n, _ => InputField(None, Some("username"))))
  {
    var inputs := seq(n, _ => InputField(None, Some("username")));
    var f := InputField(None, Some("username"));
    assert Lower("username") == "username";
    // "username" has no 'd', the marker's second letter.
    forall i: nat | i <= |Lower("username")|
      ensures !OccursAt(Lower("username"), AdminMarker, i)
    {
      assert i + 1 < 8 ==> "username"[i + 1] != 'd';
    }
    assert !IsLoginField(f);
  }

  /** A missing `name` reads as empty, which never contains the marker. */
  lemma MissingNameIsEmptyName(t: Option<string>)
    ensures IsLoginField(InputField(t, None)) == IsLoginField(InputField(t, Some("")))
    ensures IsLoginField(InputField(t, None)) <==> t.Some? && t.value in LoginTypes
  {
    assert !OccursAt(Lower(""), AdminMarker, 0);
  }
}
