/**
 * The single-slot state store of js/storage.js. The browser's storage slot
 * is the field `stored` of a StateStore; `JSON.parse` and `JSON.stringify`
 * are the functions `parse` (None for text it rejects) and `serialize`; the
 * date `defaultState` stamps on its one day record is the parameter `todayIso`.
 */
module Storage {
  import opened Wrappers
  import opened JsonValues

  /** A loaded state: the top-level fields of the stored object. */
  type State = map<string, Json>

  const CurrentVersion := "0.1"

  /** The day record `defaultState` creates for today. */
  const EmptyDay := JObj(map["habits" := JObj(map[]), "journal" := JStr("")])

  /** `defaultState()`. */
  function DefaultState(todayIso: string): (s: State)
    ensures s.Keys == {"version", "theme", "startOfWeek", "habits", "days"}
    ensures s["version"] == JStr(CurrentVersion) && s["theme"] == JStr("auto")
    ensures s["startOfWeek"] == JNum(0) && s["habits"] == JObj(map[])
    ensures s["days"].JObj? && s["days"].fields.Keys == {todayIso} && s["days"].fields[todayIso] == EmptyDay
  {
    map["version" := JStr(CurrentVersion), "theme" := JStr("auto"), "startOfWeek" := JNum(0),
        "habits" := JObj(map[]), "days" := JObj(map[todayIso := EmptyDay])]
  }

  /**
   * `migrate(state)`: give an object a version when it has none. Setting a
   * property of `null` or of a primitive throws a TypeError, the None result.
   */
  function Migrate(v: Json): (r: Option<State>)
    ensures r.Some? <==> v.JObj?
    ensures r.Some? ==> "version" in r.value && Truthy(r.value["version"])
    ensures r.Some? ==> forall k :: k != "version" ==>
              (k in r.value <==> k in v.fields) && (k in v.fields ==> r.value[k] == v.fields[k])
    ensures r.Some? && "version" in v.fields && Truthy(v.fields["version"]) ==> r.value == v.fields
    ensures r.Some? && !("version" in v.fields && Truthy(v.fields["version"])) ==>
              r.value["version"] == JStr(CurrentVersion)
  {
    match v
    case JObj(m) =>
      if "version" in m && Truthy(m["version"]) then Some(m) else Some(m["version" := JStr(CurrentVersion)])
    case _ => None
  }

  /** Migrating a migrated state changes nothing. */
  lemma MigrateIdempotent(v: Json)
    requires v.JObj?
    ensures Migrate(JObj(Migrate(v).value)) == Migrate(v)
  {
  }

  /**
   * `loadState()` over the slot's content: the default state when nothing
   * (or "") is stored, when the text does not parse, or when `migrate` throws.
   */
  function Load(stored: Option<string>, parse: string -> Option<Json>, todayIso: string): (s: State)
    ensures "version" in s && Truthy(s["version"])
    ensures stored.None? ==> s == DefaultState(todayIso)
    ensures stored.Some? && stored.value != "" && parse(stored.value).Some? && parse(stored.value).value.JObj? ==>
              s == Migrate(parse(stored.value).value).value
    ensures stored.Some? && (stored.value == "" || parse(stored.value).None? || !parse(stored.value).value.JObj?) ==>
              s == DefaultState(todayIso)
  {
    if stored.None? || stored.value == "" then DefaultState(todayIso)
    else
      match parse(stored.value)
      case None => DefaultState(todayIso)
      case Some(v) =>
        match Migrate(v)
        case None => DefaultState(todayIso)
        case Some(s) => s
  }

  /** Loading what was just saved gives the state back, when the text round-trips through parsing. */
  lemma SaveThenLoad(state: State, parse: string -> Option<Json>, serialize: Json -> string, todayIso: string)
    requires serialize(JObj(state)) != ""
    requires parse(serialize(JObj(state))) == Some(JObj(state))
    requires "version" in state && Truthy(state["version"])
    ensures Load(Some(serialize(JObj(state))), parse, todayIso) == state
  {
  }

  /** `{ ...current, ...patch }`. */
  function Merge(current: State, patch: State): (r: State)
    ensures forall k :: k in r <==> k in current || k in patch
    ensures forall k :: k in patch ==> r[k] == patch[k]
    ensures forall k :: k in current && k !in patch ==> r[k] == current[k]
  {
    current + patch
  }

  /** Applying the same patch again changes nothing. */
  lemma MergeIdempotent(current: State, patch: State)
    ensures Merge(Merge(current, patch), patch) == Merge(current, patch)
  {
    var once := Merge(current, patch);
    assert forall k :: k in Merge(once, patch) ==> Merge(once, patch)[k] == once[k];
  }

  /** The storage slot together with the parsing and serializing it goes through. */
  class StateStore {
    var stored: Option<string>
    const parse: string -> Option<Json>
    const serialize: Json -> string

    constructor (initial: Option<string>, parse: string -> Option<Json>, serialize: Json -> string)
      ensures stored == initial && this.parse == parse && this.serialize == serialize
    {
      stored := initial;
      this.parse := parse;
      this.serialize := serialize;
    }

    /** `loadState()`. */
    function LoadState(todayIso: string): (s: State)
      reads this
      ensures "version" in s && Truthy(s["version"])
    {
      Load(stored, parse, todayIso)
    }

    /**
     * `saveState(state)`: the write may fail (quota), which the nondeterministic
     * `failed` stands for; a failed write leaves the slot as it was.
     */
    method SaveState(state: State) returns (ok: bool)
      modifies this
      ensures ok ==> stored == Some(serialize(JObj(state)))
      ensures !ok ==> stored == old(stored)
    {
      var failed: bool :| true;
      if failed {
        ok := false;
      } else {
        stored := Some(serialize(JObj(state)));
        ok := true;
      }
    }

    /** `updateState(patch)`: load, merge, save, and return the merged state whatever the save did. */
    method UpdateState(patch: State, todayIso: string) returns (next: State)
      modifies this
      ensures next == Merge(old(LoadState(todayIso)), patch)
      ensures stored == old(stored) || stored == Some(serialize(JObj(next)))
    {
      var current := LoadState(todayIso);
      next := Merge(current, patch);
      var saved := SaveState(next);
    }
  }
}
