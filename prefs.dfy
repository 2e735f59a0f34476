/**
 * Android SharedPreferences, reduced to what the app uses: a named key-value file
 * whose values are ints, strings or booleans. Writes go through an editor and
 * `apply()`, which updates the in-memory map at once; the asynchronous flush to
 * disk is not modelled.
 */
module Prefs {
  import opened Wrappers

  datatype PrefValue = IntPref(i: int) | StrPref(s: string) | BoolPref(b: bool)

  type Store = map<string, PrefValue>

  predicate IntOrAbsent(s: Store, key: string) {
    key in s ==> s[key].IntPref?
  }

  predicate StrOrAbsent(s: Store, key: string) {
    key in s ==> s[key].StrPref?
  }

  predicate BoolOrAbsent(s: Store, key: string) {
    key in s ==> s[key].BoolPref?
  }

  /**
   * `getInt(key, def)`. A stored value of another type makes Android throw
   * `ClassCastException`; callers that never store one rule that out by the requires.
   */
  function GetInt(s: Store, key: string, def: int): (r: int)
    requires IntOrAbsent(s, key)
    ensures key in s ==> s[key] == IntPref(r)
    ensures key !in s ==> r == def
  {
    if key in s then s[key].i else def
  }

  /** `getString(key, null)`: `None` stands for `null`. */
  function GetString(s: Store, key: string): (r: Option<string>)
    requires StrOrAbsent(s, key)
    ensures r.Some? <==> key in s
    ensures r.Some? ==> s[key] == StrPref(r.value)
  {
    if key in s then Some(s[key].s) else None
  }

  /** `getBoolean(key, def)`. */
  function GetBool(s: Store, key: string, def: bool): (r: bool)
    requires BoolOrAbsent(s, key)
    ensures key in s ==> s[key] == BoolPref(r)
    ensures key !in s ==> r == def
  {
    if key in s then s[key].b else def
  }

  /** One preferences file. Each `Put` is an `edit().putX(key, v).apply()`. */
  class SharedPrefs {
    var values: Store

    constructor (initial: Store)
      ensures values == initial
    {
      values := initial;
    }

    method PutInt(key: string, v: int)
      modifies this
      ensures values == old(values)[key := IntPref(v)]
    {
      values := values[key := IntPref(v)];
    }

    method PutString(key: string, v: string)
      modifies this
      ensures values == old(values)[key := StrPref(v)]
    {
      values := values[key := StrPref(v)];
    }

    method PutBoolean(key: string, v: bool)
      modifies this
      ensures values == old(values)[key := BoolPref(v)]
    {
      values := values[key := BoolPref(v)];
    }
  }
}
