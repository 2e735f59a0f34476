/**
 * `RegisterActivity`: the email and name are trimmed, the password is taken as typed; when
 * any of the three is empty nothing is stored, otherwise the three values overwrite any
 * earlier registration in `user_data`.
 */
module Register {
  import opened JavaText
  import opened Prefs
  import opened UserData
  import Login

  /** The required-fields check. */
  function FieldsValid(emailInput: string, passwordInput: string, nameInput: string): (r: bool)
    ensures r ==> passwordInput != [] && Trim(emailInput) != [] && Trim(nameInput) != []
    ensures !r ==> passwordInput == [] || Trim(emailInput) == [] || Trim(nameInput) == []
  {
    !(Trim(emailInput) == [] || passwordInput == [] || Trim(nameInput) == [])
  }

  /** The file after a successful registration. */
  function Registered(s: Store, emailInput: string, passwordInput: string, nameInput: string): (r: Store)
    ensures r.Keys == s.Keys + {EMAIL, PASSWORD, NAME}
    ensures r[EMAIL] == StrPref(Trim(emailInput))
    ensures r[PASSWORD] == StrPref(passwordInput)
    ensures r[NAME] == StrPref(Trim(nameInput))
    ensures forall k :: k in s && k != EMAIL && k != PASSWORD && k != NAME ==> r[k] == s[k]
  {
    var email, name := Trim(emailInput), Trim(nameInput);
    PutAccount(s, email, passwordInput, name);
    s[EMAIL := StrPref(email)][PASSWORD := StrPref(passwordInput)][NAME := StrPref(name)]
  }

  lemma PutAccount(s: Store, email: string, password: string, name: string)
    ensures var r := s[EMAIL := StrPref(email)][PASSWORD := StrPref(password)][NAME := StrPref(name)];
            && r.Keys == s.Keys + {EMAIL, PASSWORD, NAME}
            && r[EMAIL] == StrPref(email) && r[PASSWORD] == StrPref(password) && r[NAME] == StrPref(name)
            && forall k :: k in s && k != EMAIL && k != PASSWORD && k != NAME ==> r[k] == s[k]
  {
    KeysDistinct();
  }

  /** The register click: store the three values when all are present, otherwise change nothing. */
  method OnRegisterClick(prefs: SharedPrefs, emailInput: string, passwordInput: string, nameInput: string)
    returns (registered: bool)
    modifies prefs
    ensures registered == FieldsValid(emailInput, passwordInput, nameInput)
    ensures registered ==> prefs.values == Registered(old(prefs.values), emailInput, passwordInput, nameInput)
    ensures !registered ==> prefs.values == old(prefs.values)
  {
    var email := Trim(emailInput);
    var password := passwordInput;
    var name := Trim(nameInput);
    if email == [] || password == [] || name == [] {
      return false;
    }
    prefs.PutString(EMAIL, email);
    prefs.PutString(PASSWORD, password);
    prefs.PutString(NAME, name);
    registered := true;
  }

  /** Registration keeps the file well-typed and does not touch the login flag. */
  lemma RegisterKeepsLoginState(s: Store, emailInput: string, passwordInput: string, nameInput: string)
    requires UserDataOk(s)
    ensures UserDataOk(Registered(s, emailInput, passwordInput, nameInput))
    ensures Login.AlreadyLoggedIn(Registered(s, emailInput, passwordInput, nameInput)) == Login.AlreadyLoggedIn(s)
  {
    var r := Registered(s, emailInput, passwordInput, nameInput);
    KeysDistinct();
    assert LOGGED_IN in r <==> LOGGED_IN in s;
    assert LOGGED_IN in s ==> r[LOGGED_IN] == s[LOGGED_IN];
    assert StrOrAbsent(r, EMAIL) && StrOrAbsent(r, PASSWORD) && StrOrAbsent(r, NAME);
  }

  /**
   * Registering and then logging in with the same email and a password without blanks at
   * its ends succeeds, whatever was registered before.
   */
  lemma RegisterThenLogin(s: Store, emailInput: string, passwordInput: string, nameInput: string)
    requires UserDataOk(s)
    requires FieldsValid(emailInput, passwordInput, nameInput)
    requires !IsTrimmable(passwordInput[0]) && !IsTrimmable(passwordInput[|passwordInput| - 1])
    ensures var r := Registered(s, emailInput, passwordInput, nameInput);
            UserDataOk(r) && Login.CredentialsMatch(r, emailInput, passwordInput)
  {
    RegisterKeepsLoginState(s, emailInput, passwordInput, nameInput);
    TrimOfTrimmed(passwordInput);
    TrimIdempotent(emailInput);
  }

  /**
   * A password of spaces only passes the check (it is not trimmed), and then no login can
   * ever match it.
   */
  lemma BlankPasswordAcceptedButUnusable(s: Store, emailInput: string, nameInput: string, k: nat,
                                         loginEmail: string, loginPassword: string)
    requires UserDataOk(s) && Trim(emailInput) != [] && Trim(nameInput) != [] && k > 0
    ensures var blank := seq(k, i => ' ');
            var r := Registered(s, emailInput, blank, nameInput);
            && FieldsValid(emailInput, blank, nameInput)
            && UserDataOk(r)
            && !Login.CredentialsMatch(r, loginEmail, loginPassword)
  {
    var blank := seq(k, i => ' ');
    var r := Registered(s, emailInput, blank, nameInput);
    RegisterKeepsLoginState(s, emailInput, blank, nameInput);
    assert r[PASSWORD].s == blank && IsTrimmable(blank[0]);
    Login.UntrimmedPasswordNeverMatches(r, loginEmail, loginPassword);
  }
}
