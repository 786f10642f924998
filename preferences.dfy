/**
 * The `AppMemo` shared-preferences file: a key-value store holding the session key, the
 * per-patient `filled_<id>` questionnaire flags and the dark-mode flag.
 */
module Preferences {
  import opened Wrappers

  datatype Value = Str(text: string) | Flag(on: bool)

  /** The key under which the logged-in patient's id is kept. */
  const SessionKey: string := "currentSession"

  /** The key recording that a patient has submitted the questionnaire. */
  function FilledKey(patientId: string): (k: string)
    ensures |k| == 7 + |patientId| && k[..7] == "filled_" && k[7..] == patientId
  {
    "filled_" + patientId
  }

  /** `getString(key, null)`. */
  function StringAt(entries: map<string, Value>, key: string): (r: Option<string>)
    ensures r.Some? <==> key in entries && entries[key].Str?
    ensures r.Some? ==> entries[key] == Str(r.value)
  {
    if key in entries && entries[key].Str? then Some(entries[key].text) else None
  }

  /** `getBoolean(key, default)`. */
  function FlagAt(entries: map<string, Value>, key: string, default: bool): (r: bool)
    ensures key in entries && entries[key].Flag? ==> r == entries[key].on
    ensures key !in entries ==> r == default
  {
    if key in entries && entries[key].Flag? then entries[key].on else default
  }

  /** The store after `putString(key, value)`; putting null removes the key. */
  function WithString(entries: map<string, Value>, key: string, value: Option<string>): (r: map<string, Value>)
    ensures forall k | k != key :: (k in r <==> k in entries) && (k in entries ==> r[k] == entries[k])
  {
    match value
    case Some(s) => entries[key := Str(s)]
    case None => entries - {key}
  }

  /** A string written under a key is what is read back from it. */
  lemma ReadBackString(entries: map<string, Value>, key: string, value: Option<string>)
    ensures StringAt(WithString(entries, key, value), key) == value
  {
  }

  /** Writing one key leaves every other key's string and flag as they were. */
  lemma OtherKeysUnchanged(entries: map<string, Value>, key: string, value: Option<string>, other: string, default: bool)
    requires other != key
    ensures StringAt(WithString(entries, key, value), other) == StringAt(entries, other)
    ensures FlagAt(WithString(entries, key, value), other, default) == FlagAt(entries, other, default)
  {
  }

  /** The session key is never a questionnaire flag key, so the two never overwrite each other. */
  lemma SessionKeyIsNoFilledKey(patientId: string)
    ensures FilledKey(patientId) != SessionKey
  {
    assert FilledKey(patientId)[0] == 'f' != SessionKey[0];
  }

  /** The preferences file, edited in place by the screens. */
  class Store {
    var entries: map<string, Value>

    constructor (initial: map<string, Value>)
      ensures entries == initial
    {
      entries := initial;
    }

    method PutString(key: string, value: Option<string>)
      modifies this
      ensures entries == WithString(old(entries), key, value)
    {
      entries := WithString(entries, key, value);
    }

    method PutBoolean(key: string, value: bool)
      modifies this
      ensures entries == old(entries)[key := Flag(value)]
    {
      entries := entries[key := Flag(value)];
    }
  }
}
