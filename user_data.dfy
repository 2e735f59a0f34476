/**
 * The `user_data` preferences file shared by the account screens: the registered email,
 * password and name, and the `logged_in` flag.
 */
module UserData {
  import opened Prefs

  const EMAIL: string := "email"
  const PASSWORD: string := "password"
  const NAME: string := "name"
  const LOGGED_IN: string := "logged_in"

  /** The four keys are different strings, so writing one leaves the others as they were. */
  lemma KeysDistinct()
    ensures EMAIL != PASSWORD && EMAIL != NAME && EMAIL != LOGGED_IN
    ensures PASSWORD != NAME && PASSWORD != LOGGED_IN && NAME != LOGGED_IN
  {
    assert |EMAIL| == 5 && |PASSWORD| == 8 && |NAME| == 4 && |LOGGED_IN| == 9;
  }

  /** Every key holds the type the screens read it as (a string, or the boolean flag). */
  predicate UserDataOk(s: Store) {
    StrOrAbsent(s, EMAIL) && StrOrAbsent(s, PASSWORD) && StrOrAbsent(s, NAME) && BoolOrAbsent(s, LOGGED_IN)
  }
}
