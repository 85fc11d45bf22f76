/** Edge-triggered alerting: a run is loud only about problems the previous run did not have, and
    what it reported is what the next one compares with. */
module Edge {
  import opened Facts
  import opened Outcomes

  /** Invariant, instance, conflict, outcome. */
  datatype AlertKey = AlertKey(invariantId: string, instance: string, conflict: string, outcome: string)

  function ConflictName(conflict: Conflict): string {
    match conflict
    case NoConflict => ""
    case Starvation => "no-slot-for-a-first-download"
    case Seeding => "seeders-absorb-every-slot"
    case OverrideBoth => "indexer-overrides-both-share-limits"
    case OverrideRatio => "indexer-overrides-the-ratio-limit"
    case OverrideSeedTime => "indexer-overrides-the-seed-time-limit"
    case Action => "share-limit-action-frees-no-slot"
  }

  function OutcomeName(outcome: Outcome): string {
    match outcome
    case PASS => "PASS"
    case FAIL => "FAIL"
    case SKIP => "SKIP"
    case ERROR => "ERROR"
    case NotApplicable => "N/A"
  }

  function KeyOf(f: Finding): AlertKey {
    AlertKey(f.invariantId, f.instance, ConflictName(f.conflict), OutcomeName(f.outcome))
  }

  lemma NamesAreDistinct(c: Conflict, d: Conflict, o: Outcome, p: Outcome)
    ensures ConflictName(c) == ConflictName(d) ==> c == d
    ensures OutcomeName(o) == OutcomeName(p) ==> o == p
  {
    assert forall x: Conflict :: |ConflictName(x)| == match x
      case NoConflict => 0 case Starvation => 28 case Seeding => 25 case OverrideBoth => 35
      case OverrideRatio => 33 case OverrideSeedTime => 37 case Action => 32;
    assert forall x: Outcome :: OutcomeName(x)[0] == match x
      case PASS => 'P' case FAIL => 'F' case SKIP => 'S' case ERROR => 'E' case NotApplicable => 'N';
  }

  /** A problem is new when any of the four changes, and only then. */
  lemma KeyIdentifiesTheProblem(f: Finding, g: Finding)
    ensures KeyOf(f) == KeyOf(g) <==>
      f.invariantId == g.invariantId && f.instance == g.instance && f.conflict == g.conflict && f.outcome == g.outcome
  {
    NamesAreDistinct(f.conflict, g.conflict, f.outcome, g.outcome);
  }

  function AlertKeys(findings: seq<Finding>, strict: bool): set<AlertKey> {
    set f | f in findings && f.outcome in AlertingOutcomes(strict) :: KeyOf(f)
  }

  function NewAlerts(findings: seq<Finding>, previous: set<AlertKey>, strict: bool): seq<Finding> {
    if findings == [] then []
    else
      (if findings[0].outcome in AlertingOutcomes(strict) && KeyOf(findings[0]) !in previous then [findings[0]] else [])
      + NewAlerts(findings[1..], previous, strict)
  }

  function EdgeExitCode(findings: seq<Finding>, previous: set<AlertKey>, strict: bool): int {
    ExitCode(OutcomesOf(NewAlerts(findings, previous, strict)), strict)
  }

  lemma {:induction false} NewAlertsAreExact(findings: seq<Finding>, previous: set<AlertKey>, strict: bool)
    ensures forall f :: f in NewAlerts(findings, previous, strict) <==>
      f in findings && f.outcome in AlertingOutcomes(strict) && KeyOf(f) !in previous
  {
    if findings != [] {
      NewAlertsAreExact(findings[1..], previous, strict);
      assert findings == [findings[0]] + findings[1..];
    }
  }

  lemma NewAlertsCons(f: Finding, rest: seq<Finding>, previous: set<AlertKey>, strict: bool)
    ensures NewAlerts([f] + rest, previous, strict) ==
      (if f.outcome in AlertingOutcomes(strict) && KeyOf(f) !in previous then [f] else [])
      + NewAlerts(rest, previous, strict)
  {
    hide KeyOf;
    assert ([f] + rest)[1..] == rest;
  }

  lemma NothingNew(previous: set<AlertKey>, strict: bool)
    ensures NewAlerts([], previous, strict) == []
  {}

  /** The new alerts keep the order of the findings. */
  lemma {:induction false} NewAlertsInOrder(a: seq<Finding>, b: seq<Finding>, previous: set<AlertKey>, strict: bool)
    ensures NewAlerts(a + b, previous, strict) == NewAlerts(a, previous, strict) + NewAlerts(b, previous, strict)
  {
    hide NewAlerts, KeyOf;
    if a == [] {
      assert a + b == b;
      NothingNew(previous, strict);
    } else {
      NewAlertsInOrder(a[1..], b, previous, strict);
      NewAlertsCons(a[0], a[1..], previous, strict);
      NewAlertsCons(a[0], a[1..] + b, previous, strict);
      assert a == [a[0]] + a[1..] && a + b == [a[0]] + (a[1..] + b);
    }
  }

  // ------------------------------------------------------------------ what an edge-triggered code says

  /** Some finding of this outcome has a key that was not remembered. */
  ghost predicate SomeNew(findings: seq<Finding>, outcome: Outcome, previous: set<AlertKey>) {
    exists f :: f in findings && f.outcome == outcome && KeyOf(f) !in previous
  }

  /** The codes keep their meaning over the new problems only: 2 for a new error, 1 for a new conflict and no
      new error, 3 on a strict run for something new that could not be decided, and 0 when nothing is new. */
  ghost predicate ReportsNew(code: int, findings: seq<Finding>, previous: set<AlertKey>, strict: bool) {
    var undecided := SomeNew(findings, SKIP, previous) || SomeNew(findings, NotApplicable, previous);
    && (code == 2 <==> SomeNew(findings, ERROR, previous))
    && (code == 1 <==> SomeNew(findings, FAIL, previous) && !SomeNew(findings, ERROR, previous))
    && (code == 3 <==> strict && undecided && !SomeNew(findings, FAIL, previous) && !SomeNew(findings, ERROR, previous))
    && code in {0, 1, 2, 3}
  }

  lemma EdgeExitCodeReportsNew(findings: seq<Finding>, previous: set<AlertKey>, strict: bool)
    ensures ReportsNew(EdgeExitCode(findings, previous, strict), findings, previous, strict)
  {
    var alerts := NewAlerts(findings, previous, strict);
    NewAlertsAreExact(findings, previous, strict);
    ExitCodeReports(alerts, strict);
    forall o: Outcome | o in AlertingOutcomes(strict)
      ensures Some(alerts, o) <==> SomeNew(findings, o, previous)
    {
      if SomeNew(findings, o, previous) {
        var f :| f in findings && f.outcome == o && KeyOf(f) !in previous;
        assert f in alerts;
      }
    }
    assert Some(alerts, SKIP) || Some(alerts, NotApplicable) ==> strict;
  }

  /** A run is loud exactly when some current problem was not in the previous state. */
  lemma LoudIffSomethingIsNew(code: int, findings: seq<Finding>, previous: set<AlertKey>, strict: bool)
    requires ReportsNew(code, findings, previous, strict)
    ensures code != 0 <==> !(AlertKeys(findings, strict) <= previous)
  {
    if k: AlertKey :| k in AlertKeys(findings, strict) && k !in previous {
      var f :| f in findings && f.outcome in AlertingOutcomes(strict) && KeyOf(f) == k;
      assert SomeNew(findings, f.outcome, previous);
    } else {
      forall o: Outcome | o in AlertingOutcomes(strict)
        ensures !SomeNew(findings, o, previous)
      {
        assert forall f :: f in findings && f.outcome == o ==> KeyOf(f) in AlertKeys(findings, strict);
      }
    }
  }

  /** With nothing remembered, the edge-triggered code reports what the level-triggered one does. */
  lemma FirstRunIsAsLoud(code: int, findings: seq<Finding>, strict: bool)
    ensures ReportsNew(code, findings, {}, strict) <==> Reports(code, findings, strict)
    ensures EdgeExitCode(findings, {}, strict) == ExitCode(OutcomesOf(findings), strict)
  {
    forall o: Outcome
      ensures SomeNew(findings, o, {}) <==> Some(findings, o)
    {
      if Some(findings, o) {
        var f :| f in findings && f.outcome == o;
        assert KeyOf(f) !in {};
      }
    }
    ExitCodeReports(findings, strict);
    EdgeExitCodeReportsNew(findings, {}, strict);
  }

  // ------------------------------------------------------------------ the state file

  const STATE_SCHEMA := 1

  /** What a read of the file finds: no file, an operating-system error, bytes that are not text,
      text that is not JSON, or a decoded document. */
  datatype Content = Missing | Unreadable | Undecodable | NotJson | Json(document: Value)

  /** The keys, a StateError the command warns about, or an exception it does not catch. */
  datatype Loaded = Previous(keys: set<AlertKey>) | StateError | Uncaught

  /** Python's `!= 1` on a decoded value, negated. */
  predicate IsSchemaOne(v: Value) {
    v == Int(STATE_SCHEMA) || v == Float(Finite(1.0)) || v == Bool(true)
  }

  predicate IsAlertEntry(v: Value) {
    v.Dict? && "invariant" in v.entries && "instance" in v.entries && "conflict" in v.entries && "outcome" in v.entries
  }

  function KeyFrom(v: Value, str: Value -> string): AlertKey
    requires IsAlertEntry(v)
  {
    AlertKey(str(v.entries["invariant"]), str(v.entries["instance"]),
             str(v.entries["conflict"]), str(v.entries["outcome"]))
  }

  /** What iterating a decoded value yields; a value that cannot be iterated is a type error. */
  predicate IteratesToNothing(v: Value) {
    v == List([]) || v == Str("") || v == Dict(map[])
  }

  /** Only a document of the schema whose entries all carry the four fields is trusted; `str` is
      Python's str() on a decoded value. */
  function ParseState(document: Value, str: Value -> string): Loaded {
    if !document.Dict? || "schema" !in document.entries || !IsSchemaOne(document.entries["schema"])
       || "alerting" !in document.entries then StateError
    else
      var alerting := document.entries["alerting"];
      if IteratesToNothing(alerting) then Previous({})
      else if alerting.List? && forall v | v in alerting.items :: IsAlertEntry(v) then
        Previous(set v | v in alerting.items :: KeyFrom(v, str))
      else StateError
  }

  /** Exactly which documents are trusted, and what they say: a schema equal to 1, and a list every entry of
      which carries the four fields - one that does not spoils the whole - or something empty. */
  lemma TrustedExactlyWhen(document: Value, str: Value -> string)
    ensures ParseState(document, str).Previous? <==>
      && document.Dict? && "schema" in document.entries && "alerting" in document.entries
      && document.entries["schema"] in {Int(1), Float(Finite(1.0)), Bool(true)}
      && (document.entries["alerting"] in {List([]), Str(""), Dict(map[])}
          || (document.entries["alerting"].List? && forall v :: v in document.entries["alerting"].items ==>
                v.Dict? && {"invariant", "instance", "conflict", "outcome"} <= v.entries.Keys))
    ensures !ParseState(document, str).Previous? ==> ParseState(document, str) == StateError
    ensures ParseState(document, str).Previous? && document.entries["alerting"].List? ==>
      forall k :: k in ParseState(document, str).keys <==>
        exists v :: v in document.entries["alerting"].items && v.Dict?
          && {"invariant", "instance", "conflict", "outcome"} <= v.entries.Keys
          && k == AlertKey(str(v.entries["invariant"]), str(v.entries["instance"]),
                           str(v.entries["conflict"]), str(v.entries["outcome"]))
  {
    assert forall v: Value :: v.Dict? ==>
      (IsAlertEntry(v) <==> {"invariant", "instance", "conflict", "outcome"} <= v.entries.Keys);
  }

  /** What the four fields of a key are called on disk, and how a conflict and an outcome are written. */
  lemma WrittenAs(k: AlertKey)
    ensures EntryFor(k) == Dict(map["invariant" := Str(k.invariantId), "instance" := Str(k.instance),
                                    "conflict" := Str(k.conflict), "outcome" := Str(k.outcome)])
    ensures ConflictName(Starvation) == "no-slot-for-a-first-download"
    ensures ConflictName(Seeding) == "seeders-absorb-every-slot"
    ensures ConflictName(OverrideBoth) == "indexer-overrides-both-share-limits"
    ensures ConflictName(OverrideRatio) == "indexer-overrides-the-ratio-limit"
    ensures ConflictName(OverrideSeedTime) == "indexer-overrides-the-seed-time-limit"
    ensures ConflictName(Action) == "share-limit-action-frees-no-slot" && ConflictName(NoConflict) == ""
    ensures OutcomeName(FAIL) == "FAIL" && OutcomeName(ERROR) == "ERROR" && OutcomeName(SKIP) == "SKIP"
    ensures OutcomeName(NotApplicable) == "N/A" && OutcomeName(PASS) == "PASS"
  {}

  /** A missing file means nothing yet. An unreadable or untrusted one is a StateError. Bytes that
      do not decode raise past the handler, which catches operating-system errors only. */
  function Load(content: Content, str: Value -> string): Loaded {
    match content
    case Missing => Previous({})
    case Unreadable => StateError
    case Undecodable => Uncaught
    case NotJson => StateError
    case Json(document) => ParseState(document, str)
  }

  /** A StateError warns and counts as nothing remembered. */
  function PreviousOrNothing(loaded: Loaded): set<AlertKey> {
    if loaded.Previous? then loaded.keys else {}
  }

  function EntryFor(k: AlertKey): Value {
    Dict(map["invariant" := Str(k.invariantId), "instance" := Str(k.instance),
             "conflict" := Str(k.conflict), "outcome" := Str(k.outcome)])
  }

  function Document(listing: seq<AlertKey>): Value {
    Dict(map["schema" := Int(STATE_SCHEMA),
             "alerting" := List(seq(|listing|, i requires 0 <= i < |listing| => EntryFor(listing[i])))])
  }

  ghost predicate StrKeepsStrings(str: Value -> string) {
    forall s :: str(Str(s)) == s
  }

  lemma EntryRoundTrip(k: AlertKey, str: Value -> string)
    requires StrKeepsStrings(str)
    ensures IsAlertEntry(EntryFor(k)) && KeyFrom(EntryFor(k), str) == k
  {
    assert |"invariant"| == 9 && |"instance"| == 8 && "conflict"[0] == 'c' && |"outcome"| == 7;
  }

  /** Whatever order the keys are written in, the next run reads back exactly the keys that were
      saved. */
  lemma SavedStateReadsBack(listing: seq<AlertKey>, str: Value -> string)
    requires StrKeepsStrings(str)
    ensures ParseState(Document(listing), str) == Previous(set k | k in listing)
  {
    assert |"schema"| == 6 && |"alerting"| == 8;
    var alerting := Document(listing).entries["alerting"];
    forall i | 0 <= i < |listing|
      ensures IsAlertEntry(alerting.items[i]) && KeyFrom(alerting.items[i], str) == listing[i]
    {
      EntryRoundTrip(listing[i], str);
    }
    if listing == [] {
      assert alerting == List([]);
    } else {
      assert !IteratesToNothing(alerting);
      var read := set v | v in alerting.items :: KeyFrom(v, str);
      forall k
        ensures k in read <==> k in listing
      {
        if k in listing {
          var i :| 0 <= i < |listing| && listing[i] == k;
          assert alerting.items[i] in alerting.items;
        }
      }
    }
  }

  // ------------------------------------------------------------------ one run

  /** What a run leaves behind and returns, given what it found in the file. */
  ghost predicate RunStep(before: Content, findings: seq<Finding>, strict: bool, writable: bool,
                          str: Value -> string, after: Content, code: int)
  {
    var loaded := Load(before, str);
    if loaded.Uncaught? then code == 1 && after == before
    else if !writable then code == 2 && after == before
    else
      && ReportsNew(code, findings, PreviousOrNothing(loaded), strict)
      && Load(after, str) == Previous(AlertKeys(findings, strict))
  }

  class StateFile {
    var content: Content

    /** Written whole to a temporary file and moved into place: on failure nothing has changed. */
    method SaveCurrent(keys: set<AlertKey>, writable: bool, ghost str: Value -> string) returns (ok: bool)
      requires StrKeepsStrings(str)
      modifies this
      ensures ok == writable
      ensures ok ==> Load(content, str) == Previous(keys)
      ensures ok ==> content.Json? && content.document.Dict? && content.document.entries.Keys == {"schema", "alerting"}
      ensures ok ==> content.document.entries["schema"] == Int(1)
      ensures !ok ==> content == old(content)
    {
      if !writable {
        return false;
      }
      var rest, listing := keys, [];
      while rest != {}
        invariant keys == rest + set k | k in listing
        decreases rest
      {
        var k :| k in rest;
        rest, listing := rest - {k}, listing + [k];
      }
      SavedStateReadsBack(listing, str);
      content := Json(Document(listing));
      ok := true;
    }
  }

  /** The check command after its findings are in. Without a state file the code is level-triggered;
      with one, the file is read, compared, and rewritten. */
  method CheckCommand(state: StateFile?, findings: seq<Finding>, strict: bool, writable: bool, str: Value -> string)
    returns (code: int)
    requires StrKeepsStrings(str)
    modifies if state == null then {} else {state}
    ensures state == null ==> Reports(code, findings, strict)
    ensures state != null ==> RunStep(old(state.content), findings, strict, writable, str, state.content, code)
  {
    if state == null {
      ExitCodeReports(findings, strict);
      return ExitCode(OutcomesOf(findings), strict);
    }
    var loaded := Load(state.content, str);
    if loaded.Uncaught? {
      return 1;
    }
    code := EdgeExitCode(findings, PreviousOrNothing(loaded), strict);
    EdgeExitCodeReportsNew(findings, PreviousOrNothing(loaded), strict);
    var saved := state.SaveCurrent(AlertKeys(findings, strict), writable, str);
    if !saved {
      code := 2;
    }
  }
}
