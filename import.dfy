/**
 * Replace-All import (js/import.js): read and validate a save file, then
 * write its data fields to storage through the app's setter callbacks.
 * Reading the file is left out; `JSON.parse` is the parameter `parse`, with
 * None for text it rejects.
 */
module Import {
  import opened Wrappers
  import opened JsonValues
  import opened Validators

  /** Why reading a save file throws: `JSON.parse` failed, or the validator's message. */
  datatype ImportError = ParseError | Invalid(message: string)

  /** `readSnapshotFile` after the text has been read. */
  function ReadSnapshotFile(text: string, parse: string -> Option<Json>): (r: Result<Json, ImportError>)
    ensures parse(text).None? ==> r == Err(ParseError)
    ensures r.Ok? <==> parse(text).Some? && ValidateSnapshot(parse(text).value).None?
    ensures r.Ok? ==> r.value == parse(text).value && WellShaped(r.value)
    ensures parse(text).Some? && ValidateSnapshot(parse(text).value).Some? ==>
              r == Err(Invalid(ValidateSnapshot(parse(text).value).value))
  {
    match parse(text)
    case None => Err(ParseError)
    case Some(obj) =>
      var err := ValidateSnapshot(obj);
      if err.Some? then Err(Invalid(err.value)) else Ok(obj)
  }

  /** The storage slots the setters write; `Other` stands for every key no setter touches. */
  datatype Key = UserKey | HabitsKey | DaysKey | MetaKey | VersionKey | Other(name: string)

  /** The five slots Replace-All may write. */
  predicate Written(k: Key) {
    !k.Other?
  }

  /** The per-key store behind `saveFns`, with the keys written so far, in order. */
  class KeyStore {
    var slots: map<Key, Json>
    ghost var writes: seq<Key>

    constructor (initial: map<Key, Json>)
      ensures slots == initial && writes == []
    {
      slots := initial;
      writes := [];
    }

    /** One setter call, `storage.set(KEYS.k, v)`. */
    method Set(k: Key, v: Json)
      modifies this
      ensures slots == old(slots)[k := v]
      ensures writes == old(writes) + [k]
    {
      slots := slots[k := v];
      writes := writes + [k];
    }
  }

  /** The store Replace-All leaves behind: snapshot values in the four data slots, and the version when truthy. */
  function ReplaceAll(slots: map<Key, Json>, snap: map<string, Json>): (r: map<Key, Json>)
    requires "user" in snap && "habits" in snap && "days" in snap && "meta" in snap
    ensures forall k :: k in r <==> k in slots || (Written(k) && (k != VersionKey || ("version" in snap && Truthy(snap["version"]))))
  {
    var s := slots[UserKey := snap["user"]][HabitsKey := snap["habits"]][DaysKey := snap["days"]][MetaKey := snap["meta"]];
    if "version" in snap && Truthy(snap["version"]) then s[VersionKey := snap["version"]] else s
  }

  /** The slots in the order `applySnapshotReplaceAll` writes them. */
  function WriteOrder(snap: map<string, Json>): seq<Key> {
    [UserKey, HabitsKey, DaysKey, MetaKey] + (if "version" in snap && Truthy(snap["version"]) then [VersionKey] else [])
  }

  /**
   * `applySnapshotReplaceAll`: `user`, `habits`, `days`, `meta` verbatim, in
   * that order, then `version` only when it is truthy.
   */
  method ApplySnapshotReplaceAll(snapshot: Json, store: KeyStore)
    requires snapshot.JObj?
    requires "user" in snapshot.fields && "habits" in snapshot.fields
    requires "days" in snapshot.fields && "meta" in snapshot.fields
    modifies store
    ensures store.slots == ReplaceAll(old(store.slots), snapshot.fields)
    ensures store.writes == old(store.writes) + WriteOrder(snapshot.fields)
  {
    var snap := snapshot.fields;
    store.Set(UserKey, snap["user"]);
    store.Set(HabitsKey, snap["habits"]);
    store.Set(DaysKey, snap["days"]);
    store.Set(MetaKey, snap["meta"]);
    if "version" in snap && Truthy(snap["version"]) {
      store.Set(VersionKey, snap["version"]);
    }
  }

  /** The snapshot's four data fields land verbatim. */
  lemma ReplaceAllWrites(slots: map<Key, Json>, snap: map<string, Json>)
    requires "user" in snap && "habits" in snap && "days" in snap && "meta" in snap
    ensures var r := ReplaceAll(slots, snap);
      r[UserKey] == snap["user"] && r[HabitsKey] == snap["habits"]
      && r[DaysKey] == snap["days"] && r[MetaKey] == snap["meta"]
  {
  }

  /** A falsy or absent `version` leaves the stored version as it was; a truthy one replaces it. */
  lemma ReplaceAllVersion(slots: map<Key, Json>, snap: map<string, Json>)
    requires "user" in snap && "habits" in snap && "days" in snap && "meta" in snap
    ensures var r := ReplaceAll(slots, snap);
      if "version" in snap && Truthy(snap["version"]) then r[VersionKey] == snap["version"]
      else (VersionKey in r <==> VersionKey in slots) && (VersionKey in slots ==> r[VersionKey] == slots[VersionKey])
  {
  }

  /** No slot outside the five is touched. */
  lemma ReplaceAllFrame(slots: map<Key, Json>, snap: map<string, Json>, k: Key)
    requires "user" in snap && "habits" in snap && "days" in snap && "meta" in snap
    requires !Written(k)
    ensures k in ReplaceAll(slots, snap) <==> k in slots
    ensures k in slots ==> ReplaceAll(slots, snap)[k] == slots[k]
  {
  }

  /** Importing the same snapshot twice leaves the store as importing it once. */
  lemma ReplaceAllIdempotent(slots: map<Key, Json>, snap: map<string, Json>)
    requires "user" in snap && "habits" in snap && "days" in snap && "meta" in snap
    ensures ReplaceAll(ReplaceAll(slots, snap), snap) == ReplaceAll(slots, snap)
  {
    var once := ReplaceAll(slots, snap);
    var twice := ReplaceAll(once, snap);
    assert forall k :: k in twice ==> twice[k] == once[k];
  }

  /** A file that reads back as well shaped has the four fields the write step needs. */
  lemma AcceptedHasFields(text: string, parse: string -> Option<Json>)
    requires ReadSnapshotFile(text, parse).Ok?
    ensures var obj := ReadSnapshotFile(text, parse).value;
      obj.JObj? && "user" in obj.fields && "habits" in obj.fields && "days" in obj.fields && "meta" in obj.fields
  {
  }
}
