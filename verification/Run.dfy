/** Every finding a snapshot supports, and the guarantee that an unread service never looks clean. */
module Run {
  import opened Outcomes
  import opened Combinator
  import opened QueueLiveness
  import opened Verdicts
  import opened Stack
  import opened StringOrder

  const ARR_KINDS: set<string> := {"sonarr", "radarr"}
  const QBITTORRENT := "qbittorrent"

  /** `label.split("[")[0]`. */
  function KindOf(name: string): string {
    if name == "" || name[0] == '[' then "" else [name[0]] + KindOf(name[1..])
  }

  /** The services that actually produced usable facts. */
  function CollectedKinds(facts: StackFacts): set<string> {
    (if facts.qbits != [] then {QBITTORRENT} else {}) + set a | a in facts.arrs :: a.kind
  }

  /** The services a collection was tried against and failed on. */
  function Attempted(facts: StackFacts): set<string> {
    set row | row in facts.errors :: KindOf(row.name)
  }

  function AbsentServices(facts: StackFacts, declared: set<string>): set<string> {
    declared - CollectedKinds(facts) - Attempted(facts)
  }

  function AbsentFinding(service: string): Finding {
    Finding("collect", service, SKIP, [], [NeverCollected(service)], NoConflict)
  }

  function ErrorFinding(row: ErrorRow): Finding {
    Finding("collect", row.name, ERROR, [], [CouldNotRead(row.kind, row.detail)], NoConflict)
  }

  function NamesOf(premises: seq<Premise>): set<Label> {
    set p | p in premises :: p.name
  }

  /** Only a SKIP whose every unknown is the arr premise, with no arr declared and none collected, is
      a question this stack cannot ask. */
  function ResolveMissingArrs(finding: Finding, facts: StackFacts, declared: set<string>): Finding {
    if finding.outcome != SKIP then finding
    else if NamesOf(finding.premises) != {IndexerWithoutSeedCriteria} then finding
    else if declared * ARR_KINDS != {} || facts.arrs != [] then finding
    else finding.(outcome := NotApplicable, detail := [NoArrConfigured])
  }

  function QbtFindings(facts: StackFacts, declared: set<string>): (findings: seq<Finding>)
    ensures |findings| == |facts.qbits|
  {
    seq(|facts.qbits|, i requires 0 <= i < |facts.qbits| =>
      ResolveMissingArrs(Check(facts.qbits[i], facts.arrs), facts, declared))
  }

  function ErrorFindings(errors: seq<ErrorRow>): (findings: seq<Finding>)
    ensures |findings| == |errors| && forall i :: 0 <= i < |errors| ==> findings[i] == ErrorFinding(errors[i])
  {
    seq(|errors|, i requires 0 <= i < |errors| => ErrorFinding(errors[i]))
  }

  function AbsentFindings(services: seq<string>): (findings: seq<Finding>)
    ensures |findings| == |services| && forall i :: 0 <= i < |services| ==> findings[i] == AbsentFinding(services[i])
  {
    seq(|services|, i requires 0 <= i < |services| => AbsentFinding(services[i]))
  }

  /** The run's findings, one by one: the check of each download client, in order, put against the arrs that
      were collected; one SKIP per absent service, in alphabetical order; one ERROR per error row; no others. */
  ghost predicate IsRunOf(findings: seq<Finding>, facts: StackFacts, declared: set<string>) {
    exists absent: seq<string> ::
      && Lists(absent, AbsentServices(facts, declared)) && Sorted(absent)
      && IsRunWith(findings, facts, declared, absent)
  }

  ghost predicate IsRunWith(findings: seq<Finding>, facts: StackFacts, declared: set<string>, absent: seq<string>) {
    var clients, skips := |facts.qbits|, |absent|;
    && |findings| == clients + skips + |facts.errors|
    && (forall i :: 0 <= i < clients ==>
          findings[i] == ResolveMissingArrs(Check(facts.qbits[i], facts.arrs), facts, declared))
    && (forall i :: 0 <= i < skips ==>
          findings[clients + i] == Finding("collect", absent[i], SKIP, [], [NeverCollected(absent[i])], NoConflict))
    && (forall i :: 0 <= i < |facts.errors| ==>
          findings[clients + skips + i] == Finding(
            "collect", facts.errors[i].name, ERROR, [],
            [CouldNotRead(facts.errors[i].kind, facts.errors[i].detail)], NoConflict))
  }

  /** The run's findings, extended block by block. */
  method RunChecks(facts: StackFacts, declared: set<string>) returns (findings: seq<Finding>)
    ensures IsRunOf(findings, facts, declared)
  {
    hide Check, ResolveMissingArrs, AbsentServices, Lists, Sorted;
    findings := QbtFindings(facts, declared);
    var absent := SortedListing(AbsentServices(facts, declared));
    findings := findings + AbsentFindings(absent);
    findings := findings + ErrorFindings(facts.errors);
    assert IsRunWith(findings, facts, declared, absent);
  }

  // ------------------------------------------------------------------ labels

  /** The kind comes back out of every label, whatever the instance is called. */
  lemma {:induction false} KindOfLabel(kind: string, name: string)
    requires '[' !in kind
    ensures KindOf(InstanceLabel(kind, name)) == kind
  {
    if kind == "" {
      assert InstanceLabel(kind, name)[0] == '[';
    } else {
      assert InstanceLabel(kind, name)[0] == kind[0];
      assert InstanceLabel(kind, name)[1..] == InstanceLabel(kind[1..], name);
      KindOfLabel(kind[1..], name);
    }
  }

  // ------------------------------------------------------------------ no silent green

  /** The configured kinds carry no bracket, and an adapter answers for the instance it was asked about. */
  ghost predicate WellConfigured(cfg: Config, read: Adapters) {
    && (forall i :: 0 <= i < |cfg.arrs| ==> '[' !in cfg.arrs[i].kind)
    && (forall a :: read.arr(a).Read? ==> read.arr(a).value.kind == a.kind)
  }

  ghost predicate IsStackOf(facts: StackFacts, cfg: Config, read: Adapters) {
    && facts.qbits == Successes(QbtAnswers(cfg, read))
    && facts.arrs == Successes(ArrAnswers(cfg, read))
    && facts.errors == Failures(QbtLabels(cfg), QbtAnswers(cfg, read)) + Failures(ArrLabels(cfg), ArrAnswers(cfg, read))
  }

  ghost predicate SomeInstanceFailed(cfg: Config, read: Adapters) {
    || (exists i :: 0 <= i < |cfg.qbits| && QbtAnswers(cfg, read)[i].Failed?)
    || (exists i :: 0 <= i < |cfg.arrs| && ArrAnswers(cfg, read)[i].Failed?)
  }

  lemma FailedInstanceHasARow(facts: StackFacts, cfg: Config, read: Adapters)
    requires IsStackOf(facts, cfg, read) && SomeInstanceFailed(cfg, read)
    ensures facts.errors != []
  {
    if i :| 0 <= i < |cfg.qbits| && QbtAnswers(cfg, read)[i].Failed? {
      AnswerIsRecorded(QbtLabels(cfg), QbtAnswers(cfg, read), i);
    } else {
      var i :| 0 <= i < |cfg.arrs| && ArrAnswers(cfg, read)[i].Failed?;
      AnswerIsRecorded(ArrLabels(cfg), ArrAnswers(cfg, read), i);
    }
  }

  /** Some configured instance of the service answered; some failed. */
  ghost predicate SomeAnswered(cfg: Config, read: Adapters, service: string) {
    || (service == QBITTORRENT && exists i :: 0 <= i < |cfg.qbits| && QbtAnswers(cfg, read)[i].Read?)
    || (exists i :: 0 <= i < |cfg.arrs| && cfg.arrs[i].kind == service && ArrAnswers(cfg, read)[i].Read?)
  }

  ghost predicate SomeFailed(cfg: Config, read: Adapters, service: string) {
    || (service == QBITTORRENT && exists i :: 0 <= i < |cfg.qbits| && QbtAnswers(cfg, read)[i].Failed?)
    || (exists i :: 0 <= i < |cfg.arrs| && cfg.arrs[i].kind == service && ArrAnswers(cfg, read)[i].Failed?)
  }

  ghost predicate SomeConfigured(cfg: Config, service: string) {
    (service == QBITTORRENT && cfg.qbits != []) || exists i :: 0 <= i < |cfg.arrs| && cfg.arrs[i].kind == service
  }

  /** A service is collected exactly when one of its instances answered. */
  lemma CollectedIffAnswered(facts: StackFacts, cfg: Config, read: Adapters, service: string)
    requires IsStackOf(facts, cfg, read) && WellConfigured(cfg, read)
    ensures service in CollectedKinds(facts) <==> SomeAnswered(cfg, read, service)
  {
    if service in CollectedKinds(facts) {
      if a :| a in facts.arrs && a.kind == service {
        var i := EntryHasAnAnswer(ArrAnswers(cfg, read), a);
        assert ArrAnswers(cfg, read)[i] == read.arr(cfg.arrs[i]);
      } else {
        assert facts.qbits[0] in facts.qbits;
        var i := EntryHasAnAnswer(QbtAnswers(cfg, read), facts.qbits[0]);
      }
    }
    forall i | 0 <= i < |cfg.qbits| && QbtAnswers(cfg, read)[i].Read?
      ensures QBITTORRENT in CollectedKinds(facts)
    {
      AnswerIsRecorded(QbtLabels(cfg), QbtAnswers(cfg, read), i);
    }
    forall i | 0 <= i < |cfg.arrs| && ArrAnswers(cfg, read)[i].Read?
      ensures cfg.arrs[i].kind in CollectedKinds(facts)
    {
      AnswerIsRecorded(ArrLabels(cfg), ArrAnswers(cfg, read), i);
      assert ArrAnswers(cfg, read)[i] == read.arr(cfg.arrs[i]);
    }
  }

  lemma RowOfAFailure(facts: StackFacts, cfg: Config, read: Adapters, row: ErrorRow)
    requires IsStackOf(facts, cfg, read) && WellConfigured(cfg, read) && row in facts.errors
    ensures SomeFailed(cfg, read, KindOf(row.name))
  {
    if row in Failures(QbtLabels(cfg), QbtAnswers(cfg, read)) {
      var i := RowHasAnAnswer(QbtLabels(cfg), QbtAnswers(cfg, read), row);
      KindOfLabel(QBITTORRENT, cfg.qbits[i]);
    } else {
      var i := RowHasAnAnswer(ArrLabels(cfg), ArrAnswers(cfg, read), row);
      KindOfLabel(cfg.arrs[i].kind, cfg.arrs[i].name);
    }
  }

  /** A service counts as attempted exactly when one of its instances failed: labels lose nothing. */
  lemma AttemptedIffFailed(facts: StackFacts, cfg: Config, read: Adapters, service: string)
    requires IsStackOf(facts, cfg, read) && WellConfigured(cfg, read)
    ensures service in Attempted(facts) <==> SomeFailed(cfg, read, service)
  {
    if service in Attempted(facts) {
      var row :| row in facts.errors && KindOf(row.name) == service;
      RowOfAFailure(facts, cfg, read, row);
    }
    forall i | 0 <= i < |cfg.qbits| && QbtAnswers(cfg, read)[i].Failed?
      ensures QBITTORRENT in Attempted(facts)
    {
      AnswerIsRecorded(QbtLabels(cfg), QbtAnswers(cfg, read), i);
      KindOfLabel(QBITTORRENT, cfg.qbits[i]);
    }
    forall i | 0 <= i < |cfg.arrs| && ArrAnswers(cfg, read)[i].Failed?
      ensures cfg.arrs[i].kind in Attempted(facts)
    {
      AnswerIsRecorded(ArrLabels(cfg), ArrAnswers(cfg, read), i);
      KindOfLabel(cfg.arrs[i].kind, cfg.arrs[i].name);
    }
  }

  /** A declared service is reported absent exactly when no instance of it was ever configured. One that
      is configured was collected or has failed, so an absent finding is about the configuration and
      never about an instance. */
  lemma AbsentIffNeverConfigured(facts: StackFacts, cfg: Config, read: Adapters, service: string)
    requires IsStackOf(facts, cfg, read) && WellConfigured(cfg, read) && service in cfg.declared
    ensures service in AbsentServices(facts, cfg.declared) <==> !SomeConfigured(cfg, service)
    ensures SomeConfigured(cfg, service) <==> SomeAnswered(cfg, read, service) || SomeFailed(cfg, read, service)
  {
    CollectedIffAnswered(facts, cfg, read, service);
    AttemptedIffFailed(facts, cfg, read, service);
    if service == QBITTORRENT && cfg.qbits != [] {
      assert QbtAnswers(cfg, read)[0].Read? || QbtAnswers(cfg, read)[0].Failed?;
    }
    if i :| 0 <= i < |cfg.arrs| && cfg.arrs[i].kind == service {
      assert ArrAnswers(cfg, read)[i].Read? || ArrAnswers(cfg, read)[i].Failed?;
    }
  }

  /** A declared service that produced nothing is seen: it failed, and has an error row, or it was
      never attempted, and has an absent finding. */
  lemma UncollectedIsReported(findings: seq<Finding>, facts: StackFacts, declared: set<string>, service: string)
    requires IsRunOf(findings, facts, declared) && service in declared && service !in CollectedKinds(facts)
    ensures if service in Attempted(facts)
            then exists f :: f in findings && f.outcome == ERROR && KindOf(f.instance) == service
            else exists f :: f in findings && f.outcome == SKIP && f.instance == service
  {
    assert service !in Attempted(facts) ==> service in AbsentServices(facts, declared);
    hide AbsentServices, Check, ResolveMissingArrs, Sorted;
    var absent: seq<string> :|
      && Lists(absent, AbsentServices(facts, declared)) && Sorted(absent)
      && IsRunWith(findings, facts, declared, absent);
    if service in Attempted(facts) {
      var row :| row in facts.errors && KindOf(row.name) == service;
      var i :| 0 <= i < |facts.errors| && facts.errors[i] == row;
      assert findings[|facts.qbits| + |absent| + i] in findings;
    } else {
      var i :| 0 <= i < |absent| && absent[i] == service;
      assert findings[|facts.qbits| + i] in findings;
    }
  }

  /** Where a finding of a run comes from. */
  lemma FindingsComeFrom(findings: seq<Finding>, facts: StackFacts, declared: set<string>, f: Finding)
    requires IsRunOf(findings, facts, declared) && f in findings
    ensures (exists i :: 0 <= i < |facts.qbits| &&
               f == ResolveMissingArrs(Check(facts.qbits[i], facts.arrs), facts, declared))
         || (f.outcome == SKIP && f.instance in AbsentServices(facts, declared))
         || (f.outcome == ERROR && facts.errors != [])
  {
    hide AbsentServices, Check, ResolveMissingArrs, Sorted;
    var absent: seq<string> :|
      && Lists(absent, AbsentServices(facts, declared)) && Sorted(absent)
      && IsRunWith(findings, facts, declared, absent);
    var j :| 0 <= j < |findings| && findings[j] == f;
    var clients, skips := |facts.qbits|, |absent|;
    if clients <= j < clients + skips {
      assert absent[j - clients] in absent && f == findings[clients + (j - clients)];
    } else if clients + skips <= j {
      var row := facts.errors[j - clients - skips];
      assert f.outcome == ERROR;
    }
  }

  /** And what each of those puts in it. */
  lemma FindingsInclude(findings: seq<Finding>, facts: StackFacts, declared: set<string>)
    requires IsRunOf(findings, facts, declared)
    ensures forall i :: 0 <= i < |facts.qbits| ==>
      ResolveMissingArrs(Check(facts.qbits[i], facts.arrs), facts, declared) in findings
    ensures AbsentServices(facts, declared) != {} ==> Some(findings, SKIP)
    ensures facts.errors != [] ==> Some(findings, ERROR)
  {
    hide AbsentServices, Check, ResolveMissingArrs, Sorted;
    var absent: seq<string> :|
      && Lists(absent, AbsentServices(facts, declared)) && Sorted(absent)
      && IsRunWith(findings, facts, declared, absent);
    assert forall i :: 0 <= i < |facts.qbits| ==> findings[i] in findings;
    if s :| s in AbsentServices(facts, declared) {
      assert s in absent;
      assert findings[|facts.qbits|] in findings;
    }
    if facts.errors != [] {
      var row := facts.errors[0];
      assert findings[|facts.qbits| + |absent| + 0].outcome == ERROR;
      assert findings[|facts.qbits| + |absent|] in findings;
    }
  }

  /** The verdict on every collected client reaches the exit code. A run exits 1 exactly when some client's
      check FAILs and every configured instance that was tried could be read; 2 exactly when one could not
      be; and a strict run exits 0 exactly when every client PASSes, nothing declared is absent and nothing
      failed. */
  lemma VerdictsReachTheExitCode(findings: seq<Finding>, facts: StackFacts, declared: set<string>, strict: bool)
    requires IsRunOf(findings, facts, declared)
    ensures var code := ExitCode(OutcomesOf(findings), strict);
      && (code == 2 <==> facts.errors != [])
      && (code == 1 <==>
            && facts.errors == []
            && exists i :: 0 <= i < |facts.qbits| && Check(facts.qbits[i], facts.arrs).outcome == FAIL)
      && (strict ==> (code == 0 <==>
            && facts.errors == [] && AbsentServices(facts, declared) == {}
            && forall i :: 0 <= i < |facts.qbits| ==> Check(facts.qbits[i], facts.arrs).outcome == PASS))
      && (!strict ==> code != 3)
  {
    hide Check, AbsentServices;
    ExitCodeReports(findings, strict);
    FindingsInclude(findings, facts, declared);
    forall f | f in findings
      ensures (exists i :: 0 <= i < |facts.qbits| &&
                 f == ResolveMissingArrs(Check(facts.qbits[i], facts.arrs), facts, declared))
           || (f.outcome == SKIP && f.instance in AbsentServices(facts, declared))
           || (f.outcome == ERROR && facts.errors != [])
    {
      FindingsComeFrom(findings, facts, declared, f);
    }
    forall i | 0 <= i < |facts.qbits|
      ensures Check(facts.qbits[i], facts.arrs).outcome in {PASS, FAIL, SKIP}
    {
      CheckByRoutes(facts.qbits[i], facts.arrs);
    }
  }

  /** No silent green. From collection to exit code: when any declared service was not collected, or
      any configured instance failed, the strict run exits non-zero. */
  lemma NoSilentGreen(findings: seq<Finding>, facts: StackFacts, cfg: Config, read: Adapters)
    requires IsStackOf(facts, cfg, read) && IsRunOf(findings, facts, cfg.declared)
    requires !(cfg.declared <= CollectedKinds(facts)) || SomeInstanceFailed(cfg, read)
    ensures ExitCode(OutcomesOf(findings), true) != 0
    ensures SomeInstanceFailed(cfg, read) ==> ExitCode(OutcomesOf(findings), true) == 2
  {
    VerdictsReachTheExitCode(findings, facts, cfg.declared, true);
    if SomeInstanceFailed(cfg, read) {
      FailedInstanceHasARow(facts, cfg, read);
    } else {
      ExitCodeReports(findings, true);
      var service :| service in cfg.declared && service !in CollectedKinds(facts);
      UncollectedIsReported(findings, facts, cfg.declared, service);
    }
  }

  /** One service, one report: no absent finding names the kind of an instance that failed, so a
      service is never both a SKIP for being absent and an ERROR. */
  lemma AbsentAndErrorExclude(facts: StackFacts, cfg: Config, read: Adapters, i: nat)
    requires IsStackOf(facts, cfg, read) && WellConfigured(cfg, read)
    ensures i < |cfg.arrs| && ArrAnswers(cfg, read)[i].Failed? ==>
      cfg.arrs[i].kind !in AbsentServices(facts, cfg.declared)
    ensures i < |cfg.qbits| && QbtAnswers(cfg, read)[i].Failed? ==>
      QBITTORRENT !in AbsentServices(facts, cfg.declared)
  {
    if i < |cfg.arrs| && ArrAnswers(cfg, read)[i].Failed? {
      AnswerIsRecorded(ArrLabels(cfg), ArrAnswers(cfg, read), i);
      KindOfLabel(cfg.arrs[i].kind, cfg.arrs[i].name);
    }
    if i < |cfg.qbits| && QbtAnswers(cfg, read)[i].Failed? {
      AnswerIsRecorded(QbtLabels(cfg), QbtAnswers(cfg, read), i);
      KindOfLabel(QBITTORRENT, cfg.qbits[i]);
    }
  }

  // ------------------------------------------------------------------ not applicable

  const OVERRIDE_PREMISES: set<Label> :=
    {IndexerOverridesBothShareLimits, IndexerOverridesTheRatioLimit, IndexerOverridesTheSeedTimeLimit}

  lemma SeedingIsUndecidedWithoutArrs(qbt: QbtInstance)
    ensures RouteState(Seeding, TableOf(qbt, [])).Undecided?
  {
    assert AnyTorrentIndexer([], Lacks) == Undecided;
    hide Strict, AnyTorrentIndexer;
  }

  lemma FirstRoutesReadNoOverride(conflict: Route, qbt: QbtInstance, p: Premise)
    requires conflict in {Starvation, Seeding} && p in RoutePremises(conflict, qbt, [])
    ensures p.name !in OVERRIDE_PREMISES
  {}

  /** With no arr collected, the SKIP that surfaces never rests on an override premise: the seeding
      route is undecided, and it comes first. */
  lemma NoArrSkipIsNotAnOverride(qbt: QbtInstance)
    requires Check(qbt, []).outcome == SKIP
    ensures Check(qbt, []).conflict in {Starvation, Seeding}
    ensures forall p :: p in Check(qbt, []).premises ==> p.name !in OVERRIDE_PREMISES
  {
    hide Check, RouteState, TableOf, RoutePremises, OVERRIDE_PREMISES;
    var k := SkipNamesWhatWasUnread(qbt, []);
    SeedingIsUndecidedWithoutArrs(qbt);
    assert ROUTES[1] == Seeding && ROUTES[0] == Starvation;
    assert k <= 1;
    forall p | p in Check(qbt, []).premises
      ensures p.name !in OVERRIDE_PREMISES
    {
      FirstRoutesReadNoOverride(ROUTES[k], qbt, p);
    }
  }

  lemma ArrPremiseIsSeedings(conflict: Route, qbt: QbtInstance, arrs: seq<ArrInstance>, p: Premise)
    requires p in RoutePremises(conflict, qbt, arrs) && p.name == IndexerWithoutSeedCriteria
    ensures conflict == Seeding
  {}

  /** Whether the arr premise is the only one a SKIP names, and what that says about its route. */
  lemma OnlyTheArrPremise(qbt: QbtInstance, arrs: seq<ArrInstance>)
    requires Check(qbt, arrs).outcome == SKIP
    ensures var f := Check(qbt, arrs);
      NamesOf(f.premises) == {IndexerWithoutSeedCriteria} <==>
      f.conflict == Seeding && forall p :: p in f.premises ==> p.name == IndexerWithoutSeedCriteria
  {
    hide Check, RoutePremises, RouteState;
    var f := Check(qbt, arrs);
    var k := SkipNamesWhatWasUnread(qbt, arrs);
    var first := f.premises[0];
    assert first in f.premises && first in RoutePremises(ROUTES[k], qbt, arrs);
    if first.name == IndexerWithoutSeedCriteria {
      ArrPremiseIsSeedings(ROUTES[k], qbt, arrs, first);
    }
    var names := NamesOf(f.premises);
    assert first.name in names;
    assert forall p :: p in f.premises ==> p.name in names;
  }

  /** The N/A relabel is fenced. A finding becomes N/A exactly when it is a SKIP of the seeding
      conflict, the arr premise is the only one it names, no sonarr or radarr is declared, and no arr
      was collected. */
  lemma NotApplicableExactlyWhen(qbt: QbtInstance, facts: StackFacts, declared: set<string>)
    ensures ResolveMissingArrs(Check(qbt, facts.arrs), facts, declared).outcome == NotApplicable <==>
      var f := Check(qbt, facts.arrs);
      && f.outcome == SKIP && f.conflict == Seeding
      && (forall p :: p in f.premises ==> p.name == IndexerWithoutSeedCriteria)
      && "sonarr" !in declared && "radarr" !in declared && facts.arrs == []
  {
    assert declared * ARR_KINDS == {} <==> "sonarr" !in declared && "radarr" !in declared by {
      assert forall s :: s in declared * ARR_KINDS <==> s in declared && (s == "sonarr" || s == "radarr");
    }
    hide Check, RouteState, TableOf, NamesOf, ARR_KINDS;
    CheckByRoutes(qbt, facts.arrs);
    if Check(qbt, facts.arrs).outcome == SKIP {
      OnlyTheArrPremise(qbt, facts.arrs);
    }
  }

  /** The relabel changes the outcome and the detail, and nothing else; a finding that is not relabelled is
      left as it is; and either way a strict run stays as loud as it was. */
  lemma RelabelStaysLoud(finding: Finding, facts: StackFacts, declared: set<string>)
    ensures var f := ResolveMissingArrs(finding, facts, declared);
      && (f == finding || f == finding.(outcome := NotApplicable, detail := [NoArrConfigured]))
      && (f.outcome in AlertingOutcomes(true) <==> finding.outcome in AlertingOutcomes(true))
      && (facts.arrs != [] ==> f == finding)
  {}
}
