/** Outcomes, findings, and the arithmetic that collapses many findings into one exit code. */
module Outcomes {

  datatype Outcome = PASS | FAIL | SKIP | ERROR | NotApplicable

  /** A premise's state: True, False, or "could not be read". */
  datatype Truth = Holds | Fails | Undecided

  datatype Label =
    | QueueingEnabled
    | NoSlotForAFirstDownload
    | MaxActiveTorrentsBinds
    | SlowExemptOff
    | NoGlobalInactiveSeedTime
    | NoGlobalRatio
    | NoGlobalSeedTime
    | NoCategoryLimits
    | IndexerWithoutSeedCriteria
    | IndexerOverridesBothShareLimits
    | IndexerOverridesTheRatioLimit
    | IndexerOverridesTheSeedTimeLimit
    | ShareLimitActionFreesNoSlot

  datatype Premise = Premise(name: Label, state: Truth)

  datatype Conflict =
    | NoConflict
    | Starvation
    | Seeding
    | OverrideBoth
    | OverrideRatio
    | OverrideSeedTime
    | Action

  /** One sentence of a finding's detail; the empty sequence is the empty string. */
  datatype Note =
    | RequiredInputsUnread
    | AnsweredWithNoIndexers(arrs: seq<string>)
    | UnreadableSeedCriteria(indexers: seq<string>)
    | NoArrConfigured
    | NeverCollected(service: string)
    | CouldNotRead(kind: string, reason: string)

  datatype Finding = Finding(
    invariantId: string,
    instance: string,
    outcome: Outcome,
    premises: seq<Premise>,
    detail: seq<Note>,
    conflict: Conflict)

  /** Worst first: "could not look" outranks "looked and found a conflict". */
  const RUN_PRECEDENCE: seq<Outcome> := [ERROR, NotApplicable, SKIP, FAIL, PASS]

  /** The first outcome of `precedence` that was seen; PASS when none was. */
  function WorstAmong(seen: set<Outcome>, precedence: seq<Outcome>): Outcome {
    if precedence == [] then PASS
    else if precedence[0] in seen then precedence[0]
    else WorstAmong(seen, precedence[1..])
  }

  function Worst(seen: set<Outcome>): Outcome {
    WorstAmong(seen, RUN_PRECEDENCE)
  }

  function ExitCode(seen: set<Outcome>, strict: bool): int {
    if ERROR in seen then 2
    else if FAIL in seen then 1
    else if strict && (SKIP in seen || NotApplicable in seen) then 3
    else 0
  }

  function OutcomesOf(findings: seq<Finding>): set<Outcome> {
    set f | f in findings :: f.outcome
  }

  /** Outcomes that make a level-triggered run exit non-zero. */
  function AlertingOutcomes(strict: bool): set<Outcome> {
    {FAIL, ERROR} + if strict then {SKIP, NotApplicable} else {}
  }

  /** The exit code is zero exactly when nothing alerting was seen: the two definitions of "loud",
      one in the exit code and one in the alert keys, never drift apart. */
  lemma ExitCodeIsZeroIffQuiet(seen: set<Outcome>, strict: bool)
    ensures ExitCode(seen, strict) == 0 <==> seen !! AlertingOutcomes(strict)
  {
    assert forall o :: o in seen && o in AlertingOutcomes(strict) ==>
      o == FAIL || o == ERROR || o == SKIP || o == NotApplicable;
  }

  // ------------------------------------------------------------------ the exit code of findings

  ghost predicate Some(findings: seq<Finding>, outcome: Outcome) {
    exists f :: f in findings && f.outcome == outcome
  }

  /** A process exit code says these three things of the findings it reports, and no other: could not look,
      found a conflict, could not decide. */
  ghost predicate Reports(code: int, findings: seq<Finding>, strict: bool) {
    && (code == 2 <==> Some(findings, ERROR))
    && (code == 1 <==> Some(findings, FAIL) && !Some(findings, ERROR))
    && (code == 3 <==> strict && (Some(findings, SKIP) || Some(findings, NotApplicable))
                       && !Some(findings, FAIL) && !Some(findings, ERROR))
    && code in {0, 1, 2, 3}
  }

  /** The level-triggered code reports the findings. */
  lemma ExitCodeReports(findings: seq<Finding>, strict: bool)
    ensures Reports(ExitCode(OutcomesOf(findings), strict), findings, strict)
  {
    forall o: Outcome
      ensures o in OutcomesOf(findings) <==> Some(findings, o)
    {
      if Some(findings, o) {
        var f :| f in findings && f.outcome == o;
        assert f.outcome in OutcomesOf(findings);
      }
    }
  }

  // ------------------------------------------------------------------ the run's outcome

  /** How bad an outcome is for a run as a whole. */
  function Badness(o: Outcome): nat {
    match o
    case PASS => 0
    case FAIL => 1
    case SKIP => 2
    case NotApplicable => 3
    case ERROR => 4
  }

  /** The run's outcome is the worst that was seen; nothing seen is a PASS. */
  lemma WorstIsTheWorstSeen(seen: set<Outcome>)
    ensures seen == {} ==> Worst(seen) == PASS
    ensures seen != {} ==> Worst(seen) in seen && forall o :: o in seen ==> Badness(o) <= Badness(Worst(seen))
  {
    var p := RUN_PRECEDENCE;
    assert p[0] == ERROR && p[1] == NotApplicable && p[2] == SKIP && p[3] == FAIL && p[4] == PASS;
    assert WorstAmong(seen, p) == if p[0] in seen then p[0] else WorstAmong(seen, p[1..]);
    assert WorstAmong(seen, p[1..]) == if p[1] in seen then p[1] else WorstAmong(seen, p[1..][1..]);
    assert p[1..][1..] == p[2..] && p[2..][1..] == p[3..] && p[3..][1..] == p[4..] && p[4..][1..] == [];
    assert WorstAmong(seen, p[2..]) == if p[2] in seen then p[2] else WorstAmong(seen, p[3..]);
    assert WorstAmong(seen, p[3..]) == if p[3] in seen then p[3] else WorstAmong(seen, p[4..]);
    assert WorstAmong(seen, p[4..]) == PASS;
    if seen != {} {
      var o :| o in seen;
      assert o == ERROR || o == NotApplicable || o == SKIP || o == FAIL || o == PASS;
    }
  }

  /** The published outcome and the strict exit code rank findings differently, and still agree on
      what is clean: the run's outcome is PASS exactly when a strict run exits zero. */
  lemma PassExactlyWhenStrictZero(seen: set<Outcome>)
    ensures Worst(seen) == PASS <==> ExitCode(seen, true) == 0
  {
    WorstIsTheWorstSeen(seen);
    if ERROR in seen || FAIL in seen || SKIP in seen || NotApplicable in seen {
      assert Badness(Worst(seen)) > 0;
    }
  }
}
