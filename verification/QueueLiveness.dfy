/** Can any queued download ever start? The closed form: six routes, each a conjunction of
    three-valued premises, combined so that one proved route settles the verdict. */
module QueueLiveness {
  import opened Facts
  import opened Outcomes
  import opened Combinator

  datatype QbtInstance = QbtInstance(
    name: string,
    queueingEnabled: Fact,
    maxActiveDownloads: Fact,
    maxActiveUploads: Fact,
    maxActiveTorrents: Fact,
    dontCountSlowTorrents: Fact,
    maxRatioEnabled: Fact,
    maxRatio: Fact,
    maxRatioAct: Fact,
    maxSeedingTimeEnabled: Fact,
    maxSeedingTime: Fact,
    maxInactiveSeedingTimeEnabled: Fact,
    categories: Fact)

  datatype IndexerFacts = IndexerFacts(
    name: string,
    protocol: Fact,
    enableRss: Fact,
    enableAutomaticSearch: Fact,
    enableInteractiveSearch: Fact,
    seedRatio: Fact,
    seedTime: Fact,
    seasonPackSeedTime: Fact)

  datatype ArrInstance = ArrInstance(name: string, kind: string, indexers: seq<IndexerFacts>)

  const INVARIANT_ID := "queue-liveness"

  /** The only value of a slot limit that means "no limit". */
  const UNLIMITED := -1

  /** The only share limit that hands the question to the category, and from there to the global. */
  const USE_GLOBAL := -2

  /** (double)INT64_MAX, which is exactly two to the sixty-third. */
  const MAX_REACHABLE_SEED_RATIO: real := 9223372036854775808.0

  // ------------------------------------------------------------------ premises about qBittorrent

  predicate Binds(limit: int) {
    limit != UNLIMITED
  }

  predicate CanBeReached(limit: Number) {
    AtMost(Finite(0.0), limit) && AtMost(limit, Finite(MAX_REACHABLE_SEED_RATIO))
  }

  /** True when no global inactive-seeding-time limit is armed. A client that omits the key has no
      such gate, so field-absent is an answer here. */
  function NotInactiveGate(qbt: QbtInstance): Truth {
    if qbt.maxInactiveSeedingTimeEnabled == Unknown(FieldAbsent) then Holds
    else Not(TruthOf(qbt.maxInactiveSeedingTimeEnabled))
  }

  /** True when the global ratio limit can never release a slot. The value is read only when the
      flag is on. */
  function NoGlobalRatioState(qbt: QbtInstance): Truth {
    match TruthOf(qbt.maxRatioEnabled)
    case Undecided => Undecided
    case Fails => Holds
    case Holds =>
      if qbt.maxRatio.Known? && IsNumber(qbt.maxRatio.value)
      then Decided(!CanBeReached(NumberOf(qbt.maxRatio.value)))
      else Undecided
  }

  predicate ReadAsInt(fact: Fact) {
    fact.Known? && fact.value.Int?
  }

  /** Stop, Remove, RemoveWithContent. */
  const RELEASING_ACTIONS: set<int> := {0, 1, 3}

  function ActionFreesNoSlot(qbt: QbtInstance): Truth {
    if ReadAsInt(qbt.maxRatioAct) then Decided(qbt.maxRatioAct.value.i !in RELEASING_ACTIONS) else Undecided
  }

  function BlocksAFirstStart(limit: Fact): Truth {
    if ReadAsInt(limit) then Decided(Binds(limit.value.i) && limit.value.i <= 0) else Undecided
  }

  function NoSlotForAFirstDownloadState(qbt: QbtInstance): Truth {
    AnyOf([BlocksAFirstStart(qbt.maxActiveTorrents), BlocksAFirstStart(qbt.maxActiveDownloads)])
  }

  function MaxActiveTorrentsBindsState(qbt: QbtInstance): Truth {
    if ReadAsInt(qbt.maxActiveTorrents) then Decided(Binds(qbt.maxActiveTorrents.value.i)) else Undecided
  }

  // ------------------------------------------------------------------ premises about indexers

  function IsATorrentSource(indexer: IndexerFacts): Truth {
    if !indexer.protocol.Known? || !indexer.protocol.value.Str? then Undecided
    else if indexer.protocol.value.s != "torrent" then Fails
    else AnyOf([TruthOf(indexer.enableRss),
                TruthOf(indexer.enableAutomaticSearch),
                TruthOf(indexer.enableInteractiveSearch)])
  }

  /** The criteria that can release a seeder's slot; the season-pack time is not among them. */
  function SeedCriteria(indexer: IndexerFacts): seq<Fact> {
    [indexer.seedRatio, indexer.seedTime]
  }

  predicate IsAReadableSeedCriterion(fact: Fact) {
    fact.Known? && IsNumber(fact.value)
  }

  predicate IsASeedGoal(fact: Fact) {
    IsAReadableSeedCriterion(fact) && CanBeReached(NumberOf(fact.value))
  }

  /** Present, not null, and not a number. */
  predicate IsAnUnusableSeedCriterion(fact: Fact) {
    fact.Known? && !fact.value.Null? && !IsAReadableSeedCriterion(fact)
  }

  predicate LacksSeedCriteria(indexer: IndexerFacts) {
    forall fact | fact in SeedCriteria(indexer) :: !IsASeedGoal(fact)
  }

  function OverridesTheShareLimit(fact: Fact): Truth {
    if IsAnUnusableSeedCriterion(fact) then Undecided
    else if !IsAReadableSeedCriterion(fact) then Fails
    else if SameNumber(NumberOf(fact.value), Finite(USE_GLOBAL as real)) then Fails
    else Decided(!CanBeReached(NumberOf(fact.value)))
  }

  function OverridesBothShareLimits(indexer: IndexerFacts): Truth {
    AllOf([OverridesTheShareLimit(indexer.seedRatio), OverridesTheShareLimit(indexer.seedTime)])
  }

  function OverridesTheRatioLimit(indexer: IndexerFacts): Truth {
    AllOf([OverridesTheShareLimit(indexer.seedRatio), Decided(!IsASeedGoal(indexer.seedTime))])
  }

  function OverridesTheSeedTimeLimit(indexer: IndexerFacts): Truth {
    AllOf([OverridesTheShareLimit(indexer.seedTime), Decided(!IsASeedGoal(indexer.seedRatio))])
  }

  /** Every indexer of every arr, in order. */
  function Indexers(arrs: seq<ArrInstance>): seq<IndexerFacts> {
    if arrs == [] then [] else arrs[0].indexers + Indexers(arrs[1..])
  }

  /** One state per indexer: does it match, and does it grab torrents? */
  function Contributions(indexers: seq<IndexerFacts>, matches: IndexerFacts -> Truth): (states: seq<Truth>)
    ensures |states| == |indexers|
    ensures forall i :: 0 <= i < |indexers| ==>
      states[i] == AllOf([matches(indexers[i]), IsATorrentSource(indexers[i])])
  {
    seq(|indexers|, i requires 0 <= i < |indexers| => AllOf([matches(indexers[i]), IsATorrentSource(indexers[i])]))
  }

  /** Any one enabled torrent indexer of the shape is enough; with no arr to look at, undecided. */
  function AnyTorrentIndexer(arrs: seq<ArrInstance>, matches: IndexerFacts -> Truth): Truth {
    if arrs == [] then Undecided else AnyOf(Contributions(Indexers(arrs), matches))
  }

  function Lacks(indexer: IndexerFacts): Truth {
    Decided(LacksSeedCriteria(indexer))
  }

  // ------------------------------------------------------------------ premises about categories

  /** Is `key` this category's own, releasing limit? An absent key is an answer: it inherits. */
  function OwnShareLimit(category: map<string, Value>, key: string): Truth {
    if key !in category then Fails
    else if !IsNumber(category[key]) then Undecided
    else if NumberOf(category[key]) == Finite(USE_GLOBAL as real)
         || NumberOf(category[key]) == Finite(UNLIMITED as real) then Fails
    else Decided(CanBeReached(NumberOf(category[key])))
  }

  const RATIO_LIMIT := "ratio_limit"
  const SEEDING_TIME_LIMIT := "seeding_time_limit"

  function CategorySetsItsOwnLimit(category: Value): Truth {
    if !category.Dict? then Undecided
    else AnyOf([OwnShareLimit(category.entries, RATIO_LIMIT), OwnShareLimit(category.entries, SEEDING_TIME_LIMIT)])
  }

  function NoCategorySetsItsOwnLimit(qbt: QbtInstance): Truth {
    if qbt.categories.Unknown? then Undecided
    else match qbt.categories.value
      case Null => Holds
      case Dict(entries) => Not(AnyOfSet(set name | name in entries :: CategorySetsItsOwnLimit(entries[name])))
      case _ => Undecided
  }

  /** AnyOf over a collection whose order is not observed. */
  function AnyOfSet(states: set<Truth>): Truth {
    if Holds in states then Holds else if Undecided in states then Undecided else Fails
  }

  // ------------------------------------------------------------------ the six routes

  function Queueing(qbt: QbtInstance): Premise {
    Premise(QueueingEnabled, TruthOf(qbt.queueingEnabled))
  }

  function StarvationPremises(qbt: QbtInstance): seq<Premise> {
    [Queueing(qbt), Premise(NoSlotForAFirstDownload, NoSlotForAFirstDownloadState(qbt))]
  }

  /** What every route past starvation needs before share limits matter at all. */
  function SlotPremises(qbt: QbtInstance): seq<Premise> {
    [Queueing(qbt),
     Premise(MaxActiveTorrentsBinds, MaxActiveTorrentsBindsState(qbt)),
     Premise(SlowExemptOff, Not(TruthOf(qbt.dontCountSlowTorrents)))]
  }

  /** The slot premises and the one release gate no indexer can override. */
  function DeferringSlotPremises(qbt: QbtInstance): seq<Premise> {
    SlotPremises(qbt) + [Premise(NoGlobalInactiveSeedTime, NotInactiveGate(qbt))]
  }

  function RatioPremise(qbt: QbtInstance): Premise {
    Premise(NoGlobalRatio, NoGlobalRatioState(qbt))
  }

  function SeedTimePremise(qbt: QbtInstance): Premise {
    Premise(NoGlobalSeedTime, Not(TruthOf(qbt.maxSeedingTimeEnabled)))
  }

  function CategoryPremise(qbt: QbtInstance): Premise {
    Premise(NoCategoryLimits, NoCategorySetsItsOwnLimit(qbt))
  }

  function SeedingPremises(qbt: QbtInstance, arrs: seq<ArrInstance>): seq<Premise> {
    DeferringSlotPremises(qbt) +
    [RatioPremise(qbt), SeedTimePremise(qbt), CategoryPremise(qbt),
     Premise(IndexerWithoutSeedCriteria, AnyTorrentIndexer(arrs, Lacks))]
  }

  function OverrideBothPremises(qbt: QbtInstance, arrs: seq<ArrInstance>): seq<Premise> {
    DeferringSlotPremises(qbt) +
    [Premise(IndexerOverridesBothShareLimits, AnyTorrentIndexer(arrs, OverridesBothShareLimits))]
  }

  function OverrideRatioPremises(qbt: QbtInstance, arrs: seq<ArrInstance>): seq<Premise> {
    DeferringSlotPremises(qbt) +
    [SeedTimePremise(qbt), CategoryPremise(qbt),
     Premise(IndexerOverridesTheRatioLimit, AnyTorrentIndexer(arrs, OverridesTheRatioLimit))]
  }

  function OverrideSeedTimePremises(qbt: QbtInstance, arrs: seq<ArrInstance>): seq<Premise> {
    DeferringSlotPremises(qbt) +
    [RatioPremise(qbt), CategoryPremise(qbt),
     Premise(IndexerOverridesTheSeedTimeLimit, AnyTorrentIndexer(arrs, OverridesTheSeedTimeLimit))]
  }

  function ActionPremises(qbt: QbtInstance): seq<Premise> {
    SlotPremises(qbt) + [Premise(ShareLimitActionFreesNoSlot, ActionFreesNoSlot(qbt))]
  }

  /** A conflict some route can report. */
  type Route = c: Conflict | c != NoConflict witness Starvation

  /** The routes in the order that breaks ties. */
  const ROUTES: seq<Route> := [Starvation, Seeding, OverrideBoth, OverrideRatio, OverrideSeedTime, Action]

  /** No two premises of a route share a label, whatever was read. */
  function RoutePremises(conflict: Route, qbt: QbtInstance, arrs: seq<ArrInstance>): (premises: seq<Premise>)
    ensures premises != [] && DistinctLabels(premises)
  {
    match conflict
    case Starvation => StarvationPremises(qbt)
    case Seeding => SeedingPremises(qbt, arrs)
    case OverrideBoth => OverrideBothPremises(qbt, arrs)
    case OverrideRatio => OverrideRatioPremises(qbt, arrs)
    case OverrideSeedTime => OverrideSeedTimePremises(qbt, arrs)
    case Action => ActionPremises(qbt)
  }

  function Instance(qbt: QbtInstance): string {
    "qbittorrent[" + qbt.name + "]"
  }

  /** One route's finding. That a value comes out at all is the proof that no route can ever
      raise the duplicate-label error. */
  function RouteFinding(conflict: Route, qbt: QbtInstance, arrs: seq<ArrInstance>): Finding
  {
    ConflictIf(INVARIANT_ID, Instance(qbt), RoutePremises(conflict, qbt, arrs), conflict).value
  }

  // ------------------------------------------------------------------ notes and the verdict

  const SEED_CRITERIA_CONFLICTS: set<Conflict> := {Seeding, OverrideBoth, OverrideRatio, OverrideSeedTime}

  function ArrLabel(arr: ArrInstance): string {
    arr.kind + "[" + arr.name + "]"
  }

  function EmptyArrs(arrs: seq<ArrInstance>): seq<string> {
    if arrs == [] then []
    else
      (if arrs[0].indexers == [] then [ArrLabel(arrs[0])] else []) + EmptyArrs(arrs[1..])
  }

  function NoteArrsThatReportedNoIndexers(finding: Finding, arrs: seq<ArrInstance>): Finding {
    if EmptyArrs(arrs) == [] then finding else finding.(detail := [AnsweredWithNoIndexers(EmptyArrs(arrs))])
  }

  predicate FedThePremiseAnUnreadableCriterion(indexer: IndexerFacts) {
    && (exists fact | fact in SeedCriteria(indexer) :: IsAnUnusableSeedCriterion(fact))
    && LacksSeedCriteria(indexer)
    && IsATorrentSource(indexer) != Fails
  }

  function UnreadableOf(owner: string, indexers: seq<IndexerFacts>): seq<string> {
    if indexers == [] then []
    else
      (if FedThePremiseAnUnreadableCriterion(indexers[0]) then [owner + "/" + indexers[0].name] else [])
      + UnreadableOf(owner, indexers[1..])
  }

  function IndexersWithUnreadableSeedCriteria(arrs: seq<ArrInstance>): seq<string> {
    if arrs == [] then []
    else UnreadableOf(ArrLabel(arrs[0]), arrs[0].indexers) + IndexersWithUnreadableSeedCriteria(arrs[1..])
  }

  function NoteUnreadableSeedCriteria(finding: Finding, arrs: seq<ArrInstance>): Finding {
    if finding.conflict !in SEED_CRITERIA_CONFLICTS || IndexersWithUnreadableSeedCriteria(arrs) == [] then finding
    else finding.(detail := finding.detail + [UnreadableSeedCriteria(IndexersWithUnreadableSeedCriteria(arrs))])
  }

  function FindingsOf(routes: seq<Route>, qbt: QbtInstance, arrs: seq<ArrInstance>): (findings: seq<Finding>)
    ensures |findings| == |routes|
  {
    if routes == [] then [] else [RouteFinding(routes[0], qbt, arrs)] + FindingsOf(routes[1..], qbt, arrs)
  }

  /** Every route is always evaluated: none is a precondition of another. */
  function Routes(qbt: QbtInstance, arrs: seq<ArrInstance>): (findings: seq<Finding>)
    ensures |findings| == |ROUTES|
  {
    FindingsOf(ROUTES, qbt, arrs)
  }

  /** The position of the first finding with this outcome, or the length when there is none. */
  function FirstWith(outcome: Outcome, findings: seq<Finding>): (i: nat)
    ensures i <= |findings|
    ensures i < |findings| ==> findings[i].outcome == outcome
    ensures forall j :: 0 <= j < i ==> findings[j].outcome != outcome
  {
    if findings == [] || findings[0].outcome == outcome then 0 else 1 + FirstWith(outcome, findings[1..])
  }

  /** Outcome-major, then the earliest route; a clean run is the first finding, annotated. */
  function WorstOf(findings: seq<Finding>, arrs: seq<ArrInstance>): Finding
    requires findings != []
  {
    var failing := FirstWith(FAIL, findings);
    var skipping := FirstWith(SKIP, findings);
    if failing < |findings| then findings[failing]
    else if skipping < |findings| then findings[skipping]
    else NoteArrsThatReportedNoIndexers(findings[0], arrs)
  }

  function Check(qbt: QbtInstance, arrs: seq<ArrInstance>): Finding {
    NoteUnreadableSeedCriteria(WorstOf(Routes(qbt, arrs), arrs), arrs)
  }
}
