/**
 * The data side of js/export.js: the snapshot object written to a save file
 * and the `YYYYMMDD-HHmm` stamp of its file name. The clock reading and the
 * local date and time components are parameters.
 */
module Export {
  import opened Wrappers
  import opened JsonValues
  import opened Text
  import opened Dates
  import opened Validators
  import opened Import

  const DefaultVersion := "0.1.0"

  /** `state.version || "0.1.0"`. */
  function ExportVersion(state: map<string, Json>): (v: Json)
    ensures Truthy(v)
    ensures "version" in state && Truthy(state["version"]) ==> v == state["version"]
    ensures !("version" in state && Truthy(state["version"])) ==> v == JStr(DefaultVersion)
  {
    if "version" in state && Truthy(state["version"]) then state["version"] else JStr(DefaultVersion)
  }

  /** The state fields a snapshot carries; an absent one (`undefined`) is left out of the saved text. */
  const DataFields := {"user", "habits", "days", "meta"}

  /**
   * `buildSnapshot(state)` at clock reading `now`: the save tag, the version,
   * the export time and the four data fields as they are in the state.
   */
  function BuildSnapshot(state: map<string, Json>, now: int): (snap: Json)
    ensures snap.JObj?
    ensures "__type" in snap.fields && snap.fields["__type"] == JStr(SaveType)
    ensures "version" in snap.fields && snap.fields["version"] == ExportVersion(state)
    ensures "exportedAt" in snap.fields && snap.fields["exportedAt"] == JNum(now)
    ensures forall k :: k in DataFields ==>
              (k in snap.fields <==> k in state) && (k in state ==> snap.fields[k] == state[k])
    ensures snap.fields.Keys <= {"__type", "version", "exportedAt", "user", "habits", "days", "meta"}
  {
    var base := map["__type" := JStr(SaveType), "version" := ExportVersion(state), "exportedAt" := JNum(now)];
    JObj(base + map k | k in state && k in DataFields :: state[k])
  }

  /** The shapes the validator demands of the state's own fields. */
  predicate ExportableState(state: map<string, Json>) {
    && "user" in state && state["user"].JObj?
    && "habits" in state && state["habits"].JArr?
    && "days" in state && state["days"].JObj?
    && "meta" in state && state["meta"].JObj?
  }

  /** A state with well-shaped fields exports to a file the validator accepts. */
  lemma ExportIsValid(state: map<string, Json>, now: int)
    requires ExportableState(state)
    ensures ValidateSnapshot(BuildSnapshot(state, now)) == None
  {
    var o := BuildSnapshot(state, now).fields;
    assert Get(o, "__type") == Some(JStr(SaveType));
    assert "user" in o && "habits" in o && "days" in o && "meta" in o;
  }

  /**
   * Exporting and then importing with Replace-All writes the state's own four
   * fields back, and its version (or the default one).
   */
  lemma ExportImportRoundTrip(state: map<string, Json>, now: int, text: string,
                              parse: string -> Option<Json>, slots: map<Key, Json>)
    requires ExportableState(state)
    requires parse(text) == Some(BuildSnapshot(state, now))
    ensures ReadSnapshotFile(text, parse) == Ok(BuildSnapshot(state, now))
    ensures ReplaceAll(slots, BuildSnapshot(state, now).fields)
         == slots[UserKey := state["user"]][HabitsKey := state["habits"]][DaysKey := state["days"]]
                 [MetaKey := state["meta"]][VersionKey := ExportVersion(state)]
  {
    ExportIsValid(state, now);
  }

  /** `pad(n)` is Dates.Pad2: two digits for 0..99, with a leading "0" below 10. */
  lemma PadShape(n: nat)
    requires n < 100
    ensures |Pad2(n)| == 2 && AllDigits(Pad2(n)) && Value(Pad2(n)) == n
    ensures n < 10 ==> Pad2(n)[0] == '0'
  {
    Pad2Facts(n);
  }

  /** `timestamp()` from the local year, month index (0..11), day, hour and minute. */
  function Timestamp(year: nat, monthIndex: nat, date: nat, hours: nat, minutes: nat): (s: string)
    ensures |s| > |NatToString(year)| && s[..|NatToString(year)|] == NatToString(year)
    ensures monthIndex < 99 && date < 100 && hours < 100 && minutes < 100 ==>
              |s| == |NatToString(year)| + 9 && s[|s| - 5] == '-'
  {
    var y := NatToString(year);
    var s := y + Pad2(monthIndex + 1) + Pad2(date) + "-" + Pad2(hours) + Pad2(minutes);
    assert s[..|y|] == y;
    if monthIndex < 99 && date < 100 && hours < 100 && minutes < 100 then
      Pad2Facts(monthIndex + 1);
      Pad2Facts(date);
      Pad2Facts(hours);
      Pad2Facts(minutes);
      s
    else s
  }

  /** For a four-digit year the stamp is the 13 characters YYYYMMDD-HHmm of the given components. */
  lemma TimestampShape(year: nat, monthIndex: nat, date: nat, hours: nat, minutes: nat)
    requires 1000 <= year <= 9999 && monthIndex < 12 && 1 <= date <= 31 && hours < 24 && minutes < 60
    ensures var s := Timestamp(year, monthIndex, date, hours, minutes);
      |s| == 13 && s[8] == '-'
      && AllDigits(s[..4]) && AllDigits(s[4..6]) && AllDigits(s[6..8])
      && AllDigits(s[9..11]) && AllDigits(s[11..])
      && Value(s[..4]) == year && Value(s[4..6]) == monthIndex + 1 && Value(s[6..8]) == date
      && Value(s[9..11]) == hours && Value(s[11..]) == minutes
  {
    hide NatToString, PadStart, Pad2;
    YearStringFacts(year);
    PadShape(monthIndex + 1);
    PadShape(date);
    PadShape(hours);
    PadShape(minutes);
    var y, mo, d, h, mi := NatToString(year), Pad2(monthIndex + 1), Pad2(date), Pad2(hours), Pad2(minutes);
    var s := Timestamp(year, monthIndex, date, hours, minutes);
    assert s == y + mo + d + "-" + h + mi;
    assert s[..4] == y;
    assert s[4..6] == mo;
    assert s[6..8] == d;
    assert s[9..11] == h;
    assert s[11..] == mi;
  }
}
