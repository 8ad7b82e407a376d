/** `validateAuth` and `validateRegister`: the login and registration form rules. */
module AuthValidation {
  import opened Options
  import opened Strings
  import opened Validation

  const UsernameMin := 3
  const PasswordMin := 6
  const PasswordsDoNotMatch := "Passwords do not match"

  /** The message `validateLength(field, value, min)` (no upper bound) writes, if any. */
  function MinLengthError(field: string, value: string, min: int): (r: Option<string>)
    ensures r.Some? <==> IsBlank(Some(value)) || Utf16Length(value) < min
    ensures r.Some? ==> r.value != ""
  {
    if IsBlank(Some(value)) then Some(RequiredMessage(field, min))
    else if Utf16Length(value) < min then Some(AtLeastMessage(field, min))
    else None
  }

  /** `e` holds an entry under `key` exactly when `err` is a message, and then holds that message. */
  ghost predicate EntryIs(e: map<string, string>, key: string, err: Option<string>) {
    (key in e <==> err.Some?) && (key in e ==> e[key] == err.value)
  }

  /**
   * What a correct result of `validateAuth` looks like: only the keys `username` and
   * `password`, each carrying the message `validateLength` produced for that field.
   */
  ghost predicate IsAuthErrors(username: string, password: string, e: map<string, string>) {
    e.Keys <= {"username", "password"} &&
    EntryIs(e, "username", MinLengthError("username", username, UsernameMin)) &&
    EntryIs(e, "password", MinLengthError("password", password, PasswordMin))
  }

  /**
   * A username is rejected exactly when it is blank or shorter than three characters
   * counted before trimming; a password exactly when it is blank (whitespace only
   * counts as blank) or shorter than six characters.
   */
  lemma AuthErrorConditions(username: string, password: string, e: map<string, string>)
    requires IsAuthErrors(username, password, e)
    ensures "username" in e <==> AllWhitespace(username) || Utf16Length(username) < 3
    ensures "password" in e <==> AllWhitespace(password) || Utf16Length(password) < 6
  {
  }

  /** Two maps over the keys `username` and `password` that agree on both entries are equal. */
  lemma {:induction false} EntriesDetermined(e1: map<string, string>, e2: map<string, string>, u: Option<string>, p: Option<string>)
    requires e1.Keys <= {"username", "password"} && e2.Keys <= {"username", "password"}
    requires EntryIs(e1, "username", u) && EntryIs(e2, "username", u)
    requires EntryIs(e1, "password", p) && EntryIs(e2, "password", p)
    ensures e1 == e2
  {
    forall k | k in e1 ensures k in e2 && e1[k] == e2[k] {
      assert k == "username" || k == "password";
    }
    forall k | k in e2 ensures k in e1 {
      assert k == "username" || k == "password";
    }
  }

  /** The description above fixes the map completely. */
  lemma AuthErrorsDetermined(username: string, password: string, e1: map<string, string>, e2: map<string, string>)
    requires IsAuthErrors(username, password, e1) && IsAuthErrors(username, password, e2)
    ensures e1 == e2
  {
    EntriesDetermined(e1, e2, MinLengthError("username", username, UsernameMin), MinLengthError("password", password, PasswordMin));
  }

  /** The username entry depends on the username only, the password entry on the password only. */
  lemma FieldsIndependent(u1: string, p1: string, e1: map<string, string>, u2: string, p2: string, e2: map<string, string>)
    requires IsAuthErrors(u1, p1, e1) && IsAuthErrors(u2, p2, e2)
    ensures u1 == u2 ==> ("username" in e1 <==> "username" in e2) && ("username" in e1 ==> e1["username"] == e2["username"])
    ensures p1 == p2 ==> ("password" in e1 <==> "password" in e2) && ("password" in e1 ==> e1["password"] == e2["password"])
  {
  }

  lemma RemoveAbsentKey(m: map<string, string>, k: string)
    requires k !in m
    ensures m - {k} == m
  {
  }

  /** `validateAuth(values)`. */
  method ValidateAuth(username: string, password: string) returns (errors: map<string, string>)
    ensures IsAuthErrors(username, password, errors)
    ensures "confirmPassword" !in errors
  {
    errors := map[];
    var fresh1 := new ErrorRecord();
    var usernameErrors := ValidateLength("username", username, UsernameMin, None, fresh1);
    var fresh2 := new ErrorRecord();
    var passwordErrors := ValidateLength("password", password, PasswordMin, None, fresh2);
    if "username" in usernameErrors.entries && usernameErrors.entries["username"] != "" {
      errors := errors["username" := usernameErrors.entries["username"]];
    }
    if "password" in passwordErrors.entries && passwordErrors.entries["password"] != "" {
      errors := errors["password" := passwordErrors.entries["password"]];
    }
  }

  /** `validateRegister(values)`: `validateAuth`'s errors plus the confirmation check. */
  method ValidateRegister(username: string, password: string, confirmPassword: string)
    returns (errors: map<string, string>)
    ensures IsAuthErrors(username, password, errors - {"confirmPassword"})
    ensures "confirmPassword" in errors <==> password != confirmPassword
    ensures "confirmPassword" in errors ==> errors["confirmPassword"] == PasswordsDoNotMatch
  {
    errors := ValidateAuth(username, password);
    if password != confirmPassword {
      errors := errors["confirmPassword" := PasswordsDoNotMatch];
    }
    assert errors - {"confirmPassword"} == if password != confirmPassword then errors - {"confirmPassword"} else errors;
  }

  /**
   * Registration adds exactly one rule to login validation: with matching passwords
   * `validateRegister` reports the very map `validateAuth` reports.
   */
  method RegisterExtendsAuth(username: string, password: string, confirmPassword: string)
    returns (authErrors: map<string, string>, registerErrors: map<string, string>)
    ensures registerErrors - {"confirmPassword"} == authErrors
    ensures password == confirmPassword ==> registerErrors == authErrors
  {
    authErrors := ValidateAuth(username, password);
    registerErrors := ValidateRegister(username, password, confirmPassword);
    AuthErrorsDetermined(username, password, registerErrors - {"confirmPassword"}, authErrors);
    if password == confirmPassword {
      RemoveAbsentKey(registerErrors, "confirmPassword");
    }
  }
}
