/** What a verdict means: the premises as a table of truth values, the verdict as a three-valued
    disjunction over the routes, and what a FAIL, a PASS and a SKIP each entitle a reader to. */
module Verdicts {
  import opened Facts
  import opened Outcomes
  import opened Combinator
  import opened QueueLiveness

  datatype Table = Table(
    queueing: Truth, noSlot: Truth, binds: Truth, slowOff: Truth, noInactive: Truth,
    noRatio: Truth, noSeedTime: Truth, noCategory: Truth,
    lacks: Truth, both: Truth, ratio: Truth, seedTime: Truth, action: Truth)

  function TableOf(qbt: QbtInstance, arrs: seq<ArrInstance>): Table {
    Table(
      TruthOf(qbt.queueingEnabled),
      NoSlotForAFirstDownloadState(qbt),
      MaxActiveTorrentsBindsState(qbt),
      Not(TruthOf(qbt.dontCountSlowTorrents)),
      NotInactiveGate(qbt),
      NoGlobalRatioState(qbt),
      Not(TruthOf(qbt.maxSeedingTimeEnabled)),
      NoCategorySetsItsOwnLimit(qbt),
      AnyTorrentIndexer(arrs, Lacks),
      AnyTorrentIndexer(arrs, OverridesBothShareLimits),
      AnyTorrentIndexer(arrs, OverridesTheRatioLimit),
      AnyTorrentIndexer(arrs, OverridesTheSeedTimeLimit),
      ActionFreesNoSlot(qbt))
  }

  function Slots(t: Table): Truth {
    Strict(t.queueing, Strict(t.binds, t.slowOff))
  }

  /** The state each route decides, as a strict conjunction of table entries. */
  function RouteState(conflict: Route, t: Table): Truth
  {
    match conflict
    case Starvation => Strict(t.queueing, t.noSlot)
    case Seeding =>
      Strict(Slots(t), Strict(t.noInactive, Strict(t.noRatio, Strict(t.noSeedTime, Strict(t.noCategory, t.lacks)))))
    case OverrideBoth => Strict(Slots(t), Strict(t.noInactive, t.both))
    case OverrideRatio => Strict(Slots(t), Strict(t.noInactive, Strict(t.noSeedTime, Strict(t.noCategory, t.ratio))))
    case OverrideSeedTime => Strict(Slots(t), Strict(t.noInactive, Strict(t.noRatio, Strict(t.noCategory, t.seedTime))))
    case Action => Strict(Slots(t), t.action)
  }

  function RouteVector(t: Table): (states: seq<Truth>)
    ensures |states| == |ROUTES|
    ensures forall k :: 0 <= k < |ROUTES| ==> states[k] == RouteState(ROUTES[k], t)
  {
    seq(|ROUTES|, k requires 0 <= k < |ROUTES| => RouteState(ROUTES[k], t))
  }

  lemma StrictAllAppend(a: seq<Premise>, b: seq<Premise>)
    ensures StrictAll(a + b) == Strict(StrictAll(a), StrictAll(b))
  {
    StrictAllMeans(a);
    StrictAllMeans(b);
    StrictAllMeans(a + b);
  }

  lemma StrictAllCons(p: Premise, rest: seq<Premise>)
    ensures StrictAll([p] + rest) == Strict(p.state, StrictAll(rest))
  {
    assert ([p] + rest)[1..] == rest;
  }

  lemma StrictAllOfFour(p: Premise, q: Premise, r: Premise, s: Premise)
    ensures StrictAll([p]) == p.state
    ensures StrictAll([p, q]) == Strict(p.state, q.state)
    ensures StrictAll([p, q, r]) == Strict(p.state, Strict(q.state, r.state))
    ensures StrictAll([p, q, r, s]) == Strict(p.state, Strict(q.state, Strict(r.state, s.state)))
  {
    StrictAllCons(p, []);
    StrictAllCons(q, []);
    StrictAllCons(r, []);
    StrictAllCons(s, []);
    StrictAllCons(p, [q]);
    StrictAllCons(p, [q, r]);
    StrictAllCons(p, [q, r, s]);
    StrictAllCons(q, [r]);
    StrictAllCons(q, [r, s]);
    StrictAllCons(r, [s]);
    assert [p] == [p] + [] && [q] == [q] + [] && [r] == [r] + [] && [s] == [s] + [];
    assert [p, q] == [p] + [q] && [q, r] == [q] + [r] && [r, s] == [r] + [s];
    assert [p, q, r] == [p] + [q, r] && [q, r, s] == [q] + [r, s] && [p, q, r, s] == [p] + [q, r, s];
  }

  lemma SlotStates(qbt: QbtInstance, arrs: seq<ArrInstance>)
    ensures var t := TableOf(qbt, arrs);
      && StrictAll(SlotPremises(qbt)) == Slots(t)
      && StrictAll(DeferringSlotPremises(qbt)) == Strict(Slots(t), t.noInactive)
  {
    var gate := Premise(NoGlobalInactiveSeedTime, NotInactiveGate(qbt));
    StrictAllOfFour(SlotPremises(qbt)[0], SlotPremises(qbt)[1], SlotPremises(qbt)[2], gate);
    StrictAllOfFour(gate, gate, gate, gate);
    StrictAllAppend(SlotPremises(qbt), [gate]);
  }

  lemma RouteStates(conflict: Route, qbt: QbtInstance, arrs: seq<ArrInstance>)
    ensures StrictAll(RoutePremises(conflict, qbt, arrs)) == RouteState(conflict, TableOf(qbt, arrs))
  {
    SlotStates(qbt, arrs);
    var front := DeferringSlotPremises(qbt);
    match conflict {
      case Starvation =>
        StrictAllOfFour(Queueing(qbt), StarvationPremises(qbt)[1], Queueing(qbt), Queueing(qbt));
      case Seeding =>
        var last := Premise(IndexerWithoutSeedCriteria, AnyTorrentIndexer(arrs, Lacks));
        StrictAllOfFour(RatioPremise(qbt), SeedTimePremise(qbt), CategoryPremise(qbt), last);
        StrictAllAppend(front, [RatioPremise(qbt), SeedTimePremise(qbt), CategoryPremise(qbt), last]);
      case OverrideBoth =>
        var last := Premise(IndexerOverridesBothShareLimits, AnyTorrentIndexer(arrs, OverridesBothShareLimits));
        StrictAllOfFour(last, last, last, last);
        StrictAllAppend(front, [last]);
      case OverrideRatio =>
        var last := Premise(IndexerOverridesTheRatioLimit, AnyTorrentIndexer(arrs, OverridesTheRatioLimit));
        StrictAllOfFour(SeedTimePremise(qbt), CategoryPremise(qbt), last, last);
        StrictAllAppend(front, [SeedTimePremise(qbt), CategoryPremise(qbt), last]);
      case OverrideSeedTime =>
        var last := Premise(IndexerOverridesTheSeedTimeLimit, AnyTorrentIndexer(arrs, OverridesTheSeedTimeLimit));
        StrictAllOfFour(RatioPremise(qbt), CategoryPremise(qbt), last, last);
        StrictAllAppend(front, [RatioPremise(qbt), CategoryPremise(qbt), last]);
      case Action =>
        var last := Premise(ShareLimitActionFreesNoSlot, ActionFreesNoSlot(qbt));
        StrictAllOfFour(last, last, last, last);
        StrictAllAppend(SlotPremises(qbt), [last]);
    }
  }

  /** Everything a route's finding says, in terms of the route's premises. */
  lemma RouteMeans(conflict: Route, qbt: QbtInstance, arrs: seq<ArrInstance>)
    ensures var f := RouteFinding(conflict, qbt, arrs);
      && f.outcome == Verdict(RouteState(conflict, TableOf(qbt, arrs)))
      && f.invariantId == INVARIANT_ID && f.instance == Instance(qbt) && f.conflict == conflict
      && Explains(f, RoutePremises(conflict, qbt, arrs))
  {
    hide RoutePremises;
    RouteStates(conflict, qbt, arrs);
    ConflictIfMeans(INVARIANT_ID, Instance(qbt), RoutePremises(conflict, qbt, arrs), conflict);
  }

  lemma {:induction false} FindingOfRoute(routes: seq<Route>, qbt: QbtInstance, arrs: seq<ArrInstance>, k: nat)
    requires k < |routes|
    ensures FindingsOf(routes, qbt, arrs)[k] == RouteFinding(routes[k], qbt, arrs)
  {
    hide RouteFinding;
    if k > 0 {
      FindingOfRoute(routes[1..], qbt, arrs, k - 1);
    }
  }

  /** The three-valued disjunction over findings: FAIL if any proves it, SKIP only if none does and
      something is undecided, PASS otherwise. */
  lemma WorstOfIsAnyOf(findings: seq<Finding>, states: seq<Truth>, arrs: seq<ArrInstance>)
    requires |findings| == |states| != 0
    requires forall k :: 0 <= k < |states| ==> findings[k].outcome == Verdict(states[k])
    ensures WorstOf(findings, arrs).outcome == Verdict(AnyOf(states))
  {
    assert forall k :: 0 <= k < |findings| ==> findings[k].outcome in {PASS, FAIL, SKIP};
    var failing, skipping := FirstWith(FAIL, findings), FirstWith(SKIP, findings);
    if failing < |findings| {
      assert states[failing] == Holds;
    } else {
      assert forall k :: 0 <= k < |states| ==> states[k] != Holds;
      if skipping < |findings| {
        assert states[skipping] == Undecided;
      }
    }
  }

  /** The verdict is the three-valued OR of the six routes, published. */
  lemma CheckOutcome(qbt: QbtInstance, arrs: seq<ArrInstance>)
    ensures Check(qbt, arrs).outcome == Verdict(AnyOf(RouteVector(TableOf(qbt, arrs))))
  {
    forall k | 0 <= k < |ROUTES|
      ensures Routes(qbt, arrs)[k].outcome == Verdict(RouteVector(TableOf(qbt, arrs))[k])
    {
      FindingOfRoute(ROUTES, qbt, arrs, k);
      RouteMeans(ROUTES[k], qbt, arrs);
    }
    WorstOfIsAnyOf(Routes(qbt, arrs), RouteVector(TableOf(qbt, arrs)), arrs);
  }

  /** FAIL when some route holds; PASS when every route has been decided and fails; SKIP otherwise. */
  lemma CheckByRoutes(qbt: QbtInstance, arrs: seq<ArrInstance>)
    ensures var t := TableOf(qbt, arrs);
      && (Check(qbt, arrs).outcome == FAIL <==> exists c: Route :: RouteState(c, t) == Holds)
      && (Check(qbt, arrs).outcome == PASS <==> forall c: Route :: RouteState(c, t) == Fails)
      && Check(qbt, arrs).outcome in {PASS, FAIL, SKIP}
  {
    hide Check, RouteState, TableOf;
    CheckOutcome(qbt, arrs);
    var t := TableOf(qbt, arrs);
    var states := RouteVector(t);
    assert ROUTES[0] == Starvation && ROUTES[1] == Seeding && ROUTES[2] == OverrideBoth;
    assert ROUTES[3] == OverrideRatio && ROUTES[4] == OverrideSeedTime && ROUTES[5] == Action;
    forall c: Route
      ensures RouteState(c, t) in states
    {
      var k := match c case Starvation => 0 case Seeding => 1 case OverrideBoth => 2
        case OverrideRatio => 3 case OverrideSeedTime => 4 case _ => 5;
      assert states[k] == RouteState(c, t);
    }
    assert forall s :: s in states ==> exists k :: 0 <= k < |ROUTES| && s == states[k];
  }

  // ------------------------------------------------------------------ explanations

  /** The entry a premise of this name is about. */
  function EntryOf(name: Label, t: Table): Truth {
    match name
    case QueueingEnabled => t.queueing
    case NoSlotForAFirstDownload => t.noSlot
    case MaxActiveTorrentsBinds => t.binds
    case SlowExemptOff => t.slowOff
    case NoGlobalInactiveSeedTime => t.noInactive
    case NoGlobalRatio => t.noRatio
    case NoGlobalSeedTime => t.noSeedTime
    case NoCategoryLimits => t.noCategory
    case IndexerWithoutSeedCriteria => t.lacks
    case IndexerOverridesBothShareLimits => t.both
    case IndexerOverridesTheRatioLimit => t.ratio
    case IndexerOverridesTheSeedTimeLimit => t.seedTime
    case ShareLimitActionFreesNoSlot => t.action
  }

  /** The names a route's premises carry, in the order a finding reports them. */
  function NamesInOrder(conflict: Route): seq<Label> {
    match conflict
    case Starvation => [QueueingEnabled, NoSlotForAFirstDownload]
    case Seeding =>
      [QueueingEnabled, MaxActiveTorrentsBinds, SlowExemptOff, NoGlobalInactiveSeedTime,
       NoGlobalRatio, NoGlobalSeedTime, NoCategoryLimits, IndexerWithoutSeedCriteria]
    case OverrideBoth =>
      [QueueingEnabled, MaxActiveTorrentsBinds, SlowExemptOff, NoGlobalInactiveSeedTime,
       IndexerOverridesBothShareLimits]
    case OverrideRatio =>
      [QueueingEnabled, MaxActiveTorrentsBinds, SlowExemptOff, NoGlobalInactiveSeedTime,
       NoGlobalSeedTime, NoCategoryLimits, IndexerOverridesTheRatioLimit]
    case OverrideSeedTime =>
      [QueueingEnabled, MaxActiveTorrentsBinds, SlowExemptOff, NoGlobalInactiveSeedTime,
       NoGlobalRatio, NoCategoryLimits, IndexerOverridesTheSeedTimeLimit]
    case Action => [QueueingEnabled, MaxActiveTorrentsBinds, SlowExemptOff, ShareLimitActionFreesNoSlot]
  }

  /** Every premise a finding can report carries the state of the thing it names. */
  lemma PremisesSayWhatTheyName(conflict: Route, qbt: QbtInstance, arrs: seq<ArrInstance>)
    ensures var ps, t := RoutePremises(conflict, qbt, arrs), TableOf(qbt, arrs);
      && |ps| == |NamesInOrder(conflict)|
      && forall i :: 0 <= i < |ps| ==>
           ps[i].name == NamesInOrder(conflict)[i] && ps[i].state == EntryOf(ps[i].name, t)
  {
    hide AnyTorrentIndexer, NoCategorySetsItsOwnLimit, NoSlotForAFirstDownloadState, NotInactiveGate,
      NoGlobalRatioState, ActionFreesNoSlot, MaxActiveTorrentsBindsState, TruthOf, Not;
  }

  /** A FAIL is explained by the earliest route whose premises all hold: its premises are reported
      whole, no earlier route's premises all hold, and so no later route can displace it. */
  lemma FailNamesTheEarliestProvedRoute(qbt: QbtInstance, arrs: seq<ArrInstance>) returns (k: nat)
    requires Check(qbt, arrs).outcome == FAIL
    ensures k < |ROUTES|
    ensures Check(qbt, arrs).conflict == ROUTES[k]
    ensures Check(qbt, arrs).premises == RoutePremises(ROUTES[k], qbt, arrs)
    ensures forall p :: p in RoutePremises(ROUTES[k], qbt, arrs) ==> p.state == Holds
    ensures forall j :: 0 <= j < k ==> exists p :: p in RoutePremises(ROUTES[j], qbt, arrs) && p.state != Holds
  {
    hide RoutePremises, RouteFinding, RouteState;
    var findings := Routes(qbt, arrs);
    forall j | 0 <= j < |ROUTES|
      ensures Explains(findings[j], RoutePremises(ROUTES[j], qbt, arrs)) && findings[j].conflict == ROUTES[j]
    {
      FindingOfRoute(ROUTES, qbt, arrs, j);
      RouteMeans(ROUTES[j], qbt, arrs);
      StrictAllMeans(RoutePremises(ROUTES[j], qbt, arrs));
    }
    k := FirstWith(FAIL, findings);
    StrictAllMeans(RoutePremises(ROUTES[k], qbt, arrs));
    forall j | 0 <= j < k
      ensures exists p :: p in RoutePremises(ROUTES[j], qbt, arrs) && p.state != Holds
    {
      StrictAllMeans(RoutePremises(ROUTES[j], qbt, arrs));
    }
  }

  /** The finding that surfaces as a SKIP: the first one, with no FAIL anywhere. */
  lemma SurfacedSkip(findings: seq<Finding>, arrs: seq<ArrInstance>) returns (k: nat)
    requires findings != [] && forall f :: f in findings ==> f.outcome in {PASS, FAIL, SKIP}
    requires NoteUnreadableSeedCriteria(WorstOf(findings, arrs), arrs).outcome == SKIP
    ensures k < |findings| && findings[k].outcome == SKIP
    ensures NoteUnreadableSeedCriteria(WorstOf(findings, arrs), arrs).premises == findings[k].premises
    ensures NoteUnreadableSeedCriteria(WorstOf(findings, arrs), arrs).conflict == findings[k].conflict
    ensures forall j :: 0 <= j < k ==> findings[j].outcome == PASS
    ensures forall j :: 0 <= j < |findings| ==> findings[j].outcome != FAIL
  {
    k := FirstWith(SKIP, findings);
    assert FirstWith(FAIL, findings) == |findings|;
  }

  /** A SKIP is explained by the premises that could not be read, and nothing else; it belongs to
      the earliest undecided route, and every route before that one has been cleared. */
  lemma SkipNamesWhatWasUnread(qbt: QbtInstance, arrs: seq<ArrInstance>) returns (k: nat)
    requires Check(qbt, arrs).outcome == SKIP
    ensures k < |ROUTES|
    ensures Check(qbt, arrs).conflict == ROUTES[k]
    ensures NamesTheUnread(Check(qbt, arrs).premises, RoutePremises(ROUTES[k], qbt, arrs))
    ensures forall j :: 0 <= j < k ==> RouteState(ROUTES[j], TableOf(qbt, arrs)) == Fails
  {
    hide RoutePremises, RouteFinding, RouteState, NoteUnreadableSeedCriteria, WorstOf, NamesTheUnread;
    forall j | 0 <= j < |ROUTES|
      ensures Routes(qbt, arrs)[j].outcome == Verdict(RouteState(ROUTES[j], TableOf(qbt, arrs)))
    {
      FindingOfRoute(ROUTES, qbt, arrs, j);
      RouteMeans(ROUTES[j], qbt, arrs);
    }
    k := SurfacedSkip(Routes(qbt, arrs), arrs);
    FindingOfRoute(ROUTES, qbt, arrs, k);
    RouteMeans(ROUTES[k], qbt, arrs);
  }

  /** The earliest route in this state, in the order that breaks ties. */
  function Earliest(t: Table, state: Truth): Conflict {
    if RouteState(Starvation, t) == state then Starvation
    else if RouteState(Seeding, t) == state then Seeding
    else if RouteState(OverrideBoth, t) == state then OverrideBoth
    else if RouteState(OverrideRatio, t) == state then OverrideRatio
    else if RouteState(OverrideSeedTime, t) == state then OverrideSeedTime
    else if RouteState(Action, t) == state then Action
    else NoConflict
  }

  lemma EarliestIs(t: Table, state: Truth, k: nat)
    requires k < |ROUTES| && RouteState(ROUTES[k], t) == state
    requires forall j :: 0 <= j < k ==> RouteState(ROUTES[j], t) != state
    ensures Earliest(t, state) == ROUTES[k]
  {
    hide RouteState;
    assert ROUTES[0] == Starvation && ROUTES[1] == Seeding && ROUTES[2] == OverrideBoth;
    assert ROUTES[3] == OverrideRatio && ROUTES[4] == OverrideSeedTime && ROUTES[5] == Action;
  }

  /** The note a finding on seed criteria carries about the indexers it could not read. */
  function NoteFor(conflict: Conflict, arrs: seq<ArrInstance>): seq<Note> {
    var names := IndexersWithUnreadableSeedCriteria(arrs);
    if conflict in {Seeding, OverrideBoth, OverrideRatio, OverrideSeedTime} && names != []
    then [UnreadableSeedCriteria(names)]
    else []
  }

  /** Everything else a finding says of itself: whose it is, the route it reports, and its detail, word for
      word. A note about unreadable criteria is there exactly when the route rests on seed criteria and some
      indexer fed it one nobody could read. */
  lemma FindingSaysExactly(qbt: QbtInstance, arrs: seq<ArrInstance>)
    ensures var f, t := Check(qbt, arrs), TableOf(qbt, arrs);
      && f.invariantId == "queue-liveness" && f.instance == "qbittorrent[" + qbt.name + "]"
      && (f.outcome == FAIL ==> f.conflict == Earliest(t, Holds) && f.detail == NoteFor(f.conflict, arrs))
      && (f.outcome == SKIP ==>
            f.conflict == Earliest(t, Undecided) && f.detail == [RequiredInputsUnread] + NoteFor(f.conflict, arrs))
      && (f.outcome == PASS ==> f.conflict == Starvation)
  {
    hide RoutePremises, RouteFinding, RouteState, TableOf, WorstOf, NoteUnreadableSeedCriteria, Earliest, Explains;
    var findings, t := Routes(qbt, arrs), TableOf(qbt, arrs);
    forall j | 0 <= j < |ROUTES|
      ensures RouteFindingSays(findings[j], ROUTES[j], qbt, t)
    {
      FindingOfRoute(ROUTES, qbt, arrs, j);
      RouteMeans(ROUTES[j], qbt, arrs);
      RouteSays(findings[j], ROUTES[j], qbt, arrs);
    }
    SurfacedFinding(findings, qbt, arrs, t);
  }

  /** What one route's finding says of itself. */
  ghost predicate RouteFindingSays(f: Finding, conflict: Route, qbt: QbtInstance, t: Table) {
    && f.invariantId == INVARIANT_ID && f.instance == Instance(qbt) && f.conflict == conflict
    && f.outcome == Verdict(RouteState(conflict, t))
    && (f.outcome == FAIL ==> f.detail == []) && (f.outcome == SKIP ==> f.detail == [RequiredInputsUnread])
  }

  lemma RouteSays(f: Finding, conflict: Route, qbt: QbtInstance, arrs: seq<ArrInstance>)
    requires f.outcome == Verdict(RouteState(conflict, TableOf(qbt, arrs)))
    requires f.invariantId == INVARIANT_ID && f.instance == Instance(qbt) && f.conflict == conflict
    requires Explains(f, RoutePremises(conflict, qbt, arrs))
    ensures RouteFindingSays(f, conflict, qbt, TableOf(qbt, arrs))
  {
    hide RoutePremises, RouteState, TableOf;
  }

  lemma SurfacedFinding(findings: seq<Finding>, qbt: QbtInstance, arrs: seq<ArrInstance>, t: Table)
    requires |findings| == |ROUTES|
    requires forall j :: 0 <= j < |ROUTES| ==> RouteFindingSays(findings[j], ROUTES[j], qbt, t)
    ensures var f := NoteUnreadableSeedCriteria(WorstOf(findings, arrs), arrs);
      && f.invariantId == INVARIANT_ID && f.instance == Instance(qbt)
      && (f.outcome == FAIL ==> f.conflict == Earliest(t, Holds) && f.detail == NoteFor(f.conflict, arrs))
      && (f.outcome == SKIP ==>
            f.conflict == Earliest(t, Undecided) && f.detail == [RequiredInputsUnread] + NoteFor(f.conflict, arrs))
      && (f.outcome == PASS ==> f.conflict == Starvation)
  {
    hide RouteState, EmptyArrs, IndexersWithUnreadableSeedCriteria, Earliest;
    assert ROUTES[0] == Starvation;
    var failing, skipping := FirstWith(FAIL, findings), FirstWith(SKIP, findings);
    if failing < |findings| {
      EarliestIs(t, Holds, failing);
    } else if skipping < |findings| {
      EarliestIs(t, Undecided, skipping);
    }
  }

  /** A slot limit at or below zero, other than -1, settles starvation on its own, whatever else could not be
      read - the other limit included. */
  lemma StarvationIsConclusive(qbt: QbtInstance, arrs: seq<ArrInstance>, limit: int)
    requires qbt.queueingEnabled.Known? && !qbt.queueingEnabled.value.Null? && Truthy(qbt.queueingEnabled.value)
    requires qbt.maxActiveTorrents == Known(Int(limit)) || qbt.maxActiveDownloads == Known(Int(limit))
    requires limit <= 0 && limit != -1
    ensures Check(qbt, arrs).outcome == FAIL && Check(qbt, arrs).conflict == Starvation
  {
    var torrents, downloads := BlocksAFirstStart(qbt.maxActiveTorrents), BlocksAFirstStart(qbt.maxActiveDownloads);
    assert [torrents, downloads][0] == torrents && [torrents, downloads][1] == downloads;
    assert RouteState(Starvation, TableOf(qbt, arrs)) == Holds;
    hide Check, TableOf, RouteState;
    CheckByRoutes(qbt, arrs);
    FindingSaysExactly(qbt, arrs);
  }

  /** Turning any one of a route's premises False stops that route from failing the stack. */
  lemma OneFalsePremiseDisarmsTheRoute(conflict: Route, qbt: QbtInstance, arrs: seq<ArrInstance>, p: Premise)
    requires p in RoutePremises(conflict, qbt, arrs) && p.state == Fails
    ensures RouteFinding(conflict, qbt, arrs).outcome != FAIL
  {
    hide RoutePremises, RouteFinding, RouteState;
    StrictAllMeans(RoutePremises(conflict, qbt, arrs));
    RouteMeans(conflict, qbt, arrs);
  }

  lemma {:induction false} EmptyArrsAreExact(arrs: seq<ArrInstance>)
    ensures forall s :: s in EmptyArrs(arrs) <==> exists a :: a in arrs && a.indexers == [] && s == ArrLabel(a)
  {
    if arrs != [] {
      EmptyArrsAreExact(arrs[1..]);
      assert arrs == [arrs[0]] + arrs[1..];
    }
  }

  lemma SomeArrIsEmpty(arrs: seq<ArrInstance>)
    ensures EmptyArrs(arrs) != [] <==> exists a :: a in arrs && a.indexers == []
  {
    EmptyArrsAreExact(arrs);
    assert forall a :: a in arrs && a.indexers == [] ==> ArrLabel(a) in EmptyArrs(arrs);
    if EmptyArrs(arrs) != [] {
      assert EmptyArrs(arrs)[0] in EmptyArrs(arrs);
    }
  }

  /** The finding that surfaces as a PASS: the first one, annotated. */
  lemma SurfacedPass(findings: seq<Finding>, arrs: seq<ArrInstance>)
    requires findings != [] && findings[0].conflict == Starvation
    requires NoteUnreadableSeedCriteria(WorstOf(findings, arrs), arrs).outcome == PASS
    ensures findings[0].outcome == PASS || (findings[0].outcome != FAIL && findings[0].outcome != SKIP)
    ensures NoteUnreadableSeedCriteria(WorstOf(findings, arrs), arrs) ==
      NoteArrsThatReportedNoIndexers(findings[0], arrs)
  {}

  /** A clean run says what it did not get to examine: its detail names every arr that answered with
      no indexers, and is empty when there is none. */
  lemma PassNamesEmptyArrs(qbt: QbtInstance, arrs: seq<ArrInstance>)
    requires Check(qbt, arrs).outcome == PASS
    ensures Check(qbt, arrs).conflict == Starvation && Check(qbt, arrs).premises == []
    ensures if exists a :: a in arrs && a.indexers == []
            then Check(qbt, arrs).detail == [AnsweredWithNoIndexers(EmptyArrs(arrs))]
            else Check(qbt, arrs).detail == []
  {
    hide RoutePremises, RouteFinding, RouteState, WorstOf, NoteUnreadableSeedCriteria, EmptyArrs;
    SomeArrIsEmpty(arrs);
    assert ROUTES[0] == Starvation;
    FindingOfRoute(ROUTES, qbt, arrs, 0);
    RouteMeans(ROUTES[0], qbt, arrs);
    SurfacedPass(Routes(qbt, arrs), arrs);
  }

  // ------------------------------------------------------------------ no vacuous PASS

  predicate ReadAsBool(fact: Fact) {
    fact.Known? && !fact.value.Null?
  }

  /** Every premise of the routes that read the client is decided on a PASS, and the first download
      has a slot or the queue is not managed. */
  lemma PassDecidesEverything(qbt: QbtInstance, arrs: seq<ArrInstance>)
    requires Check(qbt, arrs).outcome == PASS
    ensures var t := TableOf(qbt, arrs);
      && !t.queueing.Undecided? && !t.noSlot.Undecided? && !t.binds.Undecided? && !t.slowOff.Undecided?
      && !t.noInactive.Undecided? && !t.noRatio.Undecided? && !t.noSeedTime.Undecided?
      && !t.noCategory.Undecided? && !t.lacks.Undecided? && !t.action.Undecided?
      && (t.queueing.Fails? || t.noSlot.Fails?)
  {
    hide Check, TableOf, Strict;
    CheckByRoutes(qbt, arrs);
    var t := TableOf(qbt, arrs);
    assert RouteState(Starvation, t) == Fails && RouteState(Seeding, t) == Fails && RouteState(Action, t) == Fails;
  }

  /** A PASS has read everything a verdict could turn on. The one input it may leave unread is
      max_active_downloads, and only when queueing is off and max_active_torrents alone already
      settles that nothing could start. The ratio value counts only while its flag is on. */
  lemma PassReadEverything(qbt: QbtInstance, arrs: seq<ArrInstance>)
    requires Check(qbt, arrs).outcome == PASS
    ensures arrs != []
    ensures ReadAsBool(qbt.queueingEnabled) && ReadAsBool(qbt.dontCountSlowTorrents)
    ensures ReadAsBool(qbt.maxRatioEnabled) && ReadAsBool(qbt.maxSeedingTimeEnabled)
    ensures Truthy(qbt.maxRatioEnabled.value) ==> qbt.maxRatio.Known? && IsNumber(qbt.maxRatio.value)
    ensures ReadAsInt(qbt.maxActiveTorrents) && ReadAsInt(qbt.maxRatioAct)
    ensures qbt.categories.Known? && (qbt.categories.value.Null? || qbt.categories.value.Dict?)
    ensures ReadAsBool(qbt.maxInactiveSeedingTimeEnabled) || qbt.maxInactiveSeedingTimeEnabled == Unknown(FieldAbsent)
    ensures ReadAsInt(qbt.maxActiveDownloads) ||
      (!Truthy(qbt.queueingEnabled.value) && Binds(qbt.maxActiveTorrents.value.i) && qbt.maxActiveTorrents.value.i <= 0)
  {
    PassDecidesEverything(qbt, arrs);
    hide Check;
  }

  /** Each unread input, on its own, is enough to keep a run from reporting PASS. */
  lemma NeverReadNeverPasses(qbt: QbtInstance, arrs: seq<ArrInstance>)
    requires
      || arrs == []
      || qbt.queueingEnabled.Unknown?
      || qbt.maxActiveTorrents.Unknown?
      || qbt.dontCountSlowTorrents.Unknown?
      || qbt.maxRatioEnabled.Unknown?
      || qbt.maxSeedingTimeEnabled.Unknown?
      || qbt.maxRatioAct.Unknown?
      || qbt.categories.Unknown?
      || (TruthOf(qbt.maxRatioEnabled) == Holds && qbt.maxRatio.Unknown?)
      || (qbt.maxActiveDownloads.Unknown? && TruthOf(qbt.queueingEnabled) != Fails)
      || (qbt.maxActiveDownloads.Unknown? && BlocksAFirstStart(qbt.maxActiveTorrents) != Holds)
    ensures Check(qbt, arrs).outcome in {FAIL, SKIP}
  {
    CheckByRoutes(qbt, arrs);
    if Check(qbt, arrs).outcome == PASS {
      PassReadEverything(qbt, arrs);
      assert false;
    }
  }
}
