/**
 * The first-run check and the starter habit names of js/onboarding.js,
 * over a loaded state given as its top-level JSON fields.
 */
module Onboarding {
  import opened Wrappers
  import opened JsonValues

  /** `state.meta?.lastOpenDate` is truthy; only an object `meta` can have the property. */
  predicate HasLastOpen(state: map<string, Json>) {
    "meta" in state && state["meta"].JObj? && "lastOpenDate" in state["meta"].fields
    && Truthy(state["meta"].fields["lastOpenDate"])
  }

  /**
   * `state.habits?.length ?? 0`: arrays and strings have a length, an object
   * may carry one, anything else gives 0. A string's length counts its
   * Unicode scalar values.
   */
  function HabitsLength(state: map<string, Json>): (n: Json)
    ensures "habits" !in state || state["habits"] == JNull ==> n == JNum(0)
    ensures "habits" in state && state["habits"].JArr? ==> n == JNum(|state["habits"].items|)
  {
    if "habits" !in state then JNum(0)
    else
      match state["habits"]
      case JArr(items) => JNum(|items|)
      case JStr(s) => JNum(|s|)
      case JObj(fields) => if "length" in fields && fields["length"] != JNull then fields["length"] else JNum(0)
      case _ => JNum(0)
  }

  /** `!state.meta?.lastOpenDate && (state.habits?.length ?? 0) === 0`. */
  function IsFirstRun(state: map<string, Json>): (b: bool)
    ensures HasLastOpen(state) ==> !b
    ensures "habits" in state && state["habits"].JArr? && |state["habits"].items| > 0 ==> !b
    ensures "meta" !in state && ("habits" !in state || state["habits"] == JArr([])) ==> b
  {
    !HasLastOpen(state) && HabitsLength(state) == JNum(0)
  }

  /** For the shapes the app stores (an array of habits, an object `meta`), a first run is an empty list and no last open date. */
  lemma FirstRunOnStoredShapes(state: map<string, Json>)
    requires "habits" in state && state["habits"].JArr?
    requires "meta" in state && state["meta"].JObj?
    ensures IsFirstRun(state) <==>
      (|state["habits"].items| == 0 && ("lastOpenDate" !in state["meta"].fields || !Truthy(state["meta"].fields["lastOpenDate"])))
  {
  }

  /** `sampleHabits()`. */
  function SampleHabits(): (r: seq<string>)
    ensures |r| == 3
    ensures forall i :: 0 <= i < |r| ==> |r[i]| > 0
    ensures forall i, j :: 0 <= i < j < |r| ==> r[i] != r[j]
  {
    var names := ["Read 10 minutes", "Walk 15 minutes", "Write 3 sentences"];
    assert names[0][0] != names[1][0] && names[1][1] != names[2][1] && names[0][0] != names[2][0];
    names
  }
}
