/**
 * The schema guard of js/validators.js: an import file is accepted only when
 * it is a plain JSON object tagged as a SelfTrack save with the four data
 * fields in the right shapes. The checks run in a fixed order and the first
 * failing one names the problem.
 */
module Validators {
  import opened Wrappers
  import opened JsonValues

  const SaveType := "selftrack.save"

  const NotAnObject := "File is not a JSON object."
  const NotASave := "Not a SelfTrack save file."
  const MissingKeys := "Missing required keys (user, habits, days, meta)."
  const HabitsNotArray := "habits must be an array."
  const DaysNotObject := "days must be an object map."
  const UserNotObject := "user must be an object."
  const MetaNotObject := "meta must be an object."

  /** `v != null && typeof v === "object" && !Array.isArray(v)`. */
  function IsPlainObject(v: Json): (b: bool)
    ensures b <==> v.JObj?
  {
    v != JNull && TypeOf(v) == "object" && !v.JArr?
  }

  /** `o[k]` of an object, None when the key is absent (`undefined`). */
  function Get(o: map<string, Json>, k: string): Option<Json> {
    if k in o then Some(o[k]) else None
  }

  /** The value is present and a plain object. */
  predicate IsObjectField(o: map<string, Json>, k: string) {
    Get(o, k).Some? && Get(o, k).value.JObj?
  }

  /** What an acceptable save file is, stated independently of the order of the checks. */
  predicate WellShaped(obj: Json) {
    && obj.JObj?
    && Get(obj.fields, "__type") == Some(JStr(SaveType))
    && IsObjectField(obj.fields, "user")
    && IsObjectField(obj.fields, "days")
    && IsObjectField(obj.fields, "meta")
    && Get(obj.fields, "habits").Some? && Get(obj.fields, "habits").value.JArr?
  }

  /** The messages the validator can return. */
  predicate IsValidatorMessage(m: string) {
    m in {NotAnObject, NotASave, MissingKeys, HabitsNotArray, DaysNotObject, UserNotObject, MetaNotObject}
  }

  /**
   * `validateSnapshot(obj)`: None (`null`) for an acceptable file, otherwise
   * the message of the first check that fails.
   */
  function ValidateSnapshot(obj: Json): (r: Option<string>)
    ensures r.None? <==> WellShaped(obj)
    ensures r.Some? ==> IsValidatorMessage(r.value)
    ensures !obj.JObj? ==> r == Some(NotAnObject)
    ensures obj.JObj? && Get(obj.fields, "__type") != Some(JStr(SaveType)) ==> r == Some(NotASave)
  {
    if !IsPlainObject(obj) then Some(NotAnObject)
    else
      var o := obj.fields;
      if Get(o, "__type") != Some(JStr(SaveType)) then Some(NotASave)
      else if !("user" in o) || !("habits" in o) || !("days" in o) || !("meta" in o) then Some(MissingKeys)
      else if !o["habits"].JArr? then Some(HabitsNotArray)
      else if !IsPlainObject(o["days"]) then Some(DaysNotObject)
      else if !IsPlainObject(o["user"]) then Some(UserNotObject)
      else if !IsPlainObject(o["meta"]) then Some(MetaNotObject)
      else None
  }

  /** A correctly tagged object missing any one of the four fields is reported as missing keys. */
  lemma MissingKeyReported(o: map<string, Json>, k: string)
    requires Get(o, "__type") == Some(JStr(SaveType))
    requires k in {"user", "habits", "days", "meta"} && k !in o
    ensures ValidateSnapshot(JObj(o)) == Some(MissingKeys)
  {
  }

  /** `habits` given as an object map is rejected before the other shapes are looked at. */
  lemma HabitsMapRejected(o: map<string, Json>)
    requires Get(o, "__type") == Some(JStr(SaveType))
    requires "user" in o && "days" in o && "meta" in o
    requires "habits" in o && o["habits"].JObj?
    ensures ValidateSnapshot(JObj(o)) == Some(HabitsNotArray)
  {
  }

  /** `days` given as an array is reported as such even when `user` and `meta` are malformed too. */
  lemma DaysArrayRejected(o: map<string, Json>)
    requires Get(o, "__type") == Some(JStr(SaveType))
    requires "user" in o && "meta" in o
    requires "habits" in o && o["habits"].JArr?
    requires "days" in o && o["days"].JArr?
    ensures ValidateSnapshot(JObj(o)) == Some(DaysNotObject)
  {
  }
}
