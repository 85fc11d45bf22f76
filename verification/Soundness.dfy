/** The closed form against the step semantics: what a FAIL and a PASS say about every client the
    snapshot could have been read from. */
module Soundness {
  import opened Facts
  import opened Outcomes
  import opened Combinator
  import opened QueueLiveness
  import opened Verdicts
  import opened Quantifier
  import opened SeedRatio
  import Trace = QueueTrace
  import opened WedgeTheorem

  // ------------------------------------------------------------------ a snapshot describes a world

  ghost predicate BoolRead(fact: Fact, b: bool) {
    fact.Known? && !fact.value.Null? ==> Truthy(fact.value) == b
  }

  ghost predicate IntRead(fact: Fact, n: int) {
    ReadAsInt(fact) ==> fact.value.i == n
  }

  /** A seed criterion left unset arrives at the client as -2; a number arrives verbatim; a value
      that is not a number says nothing about what arrived. */
  ghost predicate CriterionRead(fact: Fact, limit: Number) {
    && (fact.Unknown? || fact.value.Null? ==> limit == Trace.DEFAULT_LIMIT)
    && (IsAReadableSeedCriterion(fact) ==> limit == NumberOf(fact.value))
  }

  ghost predicate IndexerRead(x: IndexerFacts, source: Trace.Source) {
    && (x.protocol.Known? && x.protocol.value.Str? ==> source.torrents == (x.protocol.value.s == "torrent"))
    && BoolRead(x.enableRss, source.rss)
    && BoolRead(x.enableAutomaticSearch, source.automatic)
    && BoolRead(x.enableInteractiveSearch, source.interactive)
    && CriterionRead(x.seedRatio, source.ratio)
    && CriterionRead(x.seedTime, source.minutes)
  }

  /** A category key that is absent is a limit the client cannot express, so it stores the default. */
  ghost predicate LimitRead(category: map<string, Value>, key: string, limit: Number) {
    && (key !in category ==> limit == Trace.DEFAULT_LIMIT)
    && (key in category && IsNumber(category[key]) ==> limit == NumberOf(category[key]))
  }

  ghost predicate CategoriesRead(fact: Fact, categories: map<string, Trace.CategoryOptions>) {
    fact.Known? ==>
      && (fact.value.Null? ==> categories == map[])
      && (fact.value.Dict? ==>
            && fact.value.entries.Keys == categories.Keys
            && (forall c :: c in categories && fact.value.entries[c].Dict? ==>
                  && LimitRead(fact.value.entries[c].entries, RATIO_LIMIT, categories[c].ratio)
                  && LimitRead(fact.value.entries[c].entries, SEEDING_TIME_LIMIT,
                               Finite(categories[c].minutes as real))))
  }

  /** The snapshot could have been read from this client. The three "enabled" flags are derived by
      the client from the limits themselves; whatever was not read is left open, and so is what the
      checker never reads: the category an indexer's torrents are filed under, and a category's own
      inactive limit and action. Every indexer is taken to feed this client. */
  ghost predicate Describes(qbt: QbtInstance, arrs: seq<ArrInstance>, w: Trace.World) {
    && BoolRead(qbt.queueingEnabled, w.queueing)
    && IntRead(qbt.maxActiveDownloads, w.maxActiveDownloads)
    && IntRead(qbt.maxActiveTorrents, w.maxActiveTorrents)
    && BoolRead(qbt.dontCountSlowTorrents, w.slowExempt)
    && BoolRead(qbt.maxRatioEnabled, AtMost(Finite(0.0), w.globalRatio))
    && (TruthOf(qbt.maxRatioEnabled) == Holds && qbt.maxRatio.Known? && IsNumber(qbt.maxRatio.value) ==>
          w.globalRatio == NumberOf(qbt.maxRatio.value))
    && IntRead(qbt.maxRatioAct, w.action)
    && BoolRead(qbt.maxSeedingTimeEnabled, w.globalMinutes >= 0)
    && BoolRead(qbt.maxInactiveSeedingTimeEnabled, w.globalInactiveMinutes >= 0)
    && (qbt.maxInactiveSeedingTimeEnabled == Unknown(FieldAbsent) ==> w.globalInactiveMinutes < 0)
    && CategoriesRead(qbt.categories, w.categories)
    && |w.sources| == |Indexers(arrs)|
    && forall k :: 0 <= k < |w.sources| ==> IndexerRead(Indexers(arrs)[k], w.sources[k])
  }

  // ------------------------------------------------------------------ documented hypotheses

  /** Sonarr's seed time is an int? of minutes, so it never exceeds the ceiling meant for ratios. */
  ghost predicate SeedTimesFit(w: Trace.World) {
    forall k :: 0 <= k < |w.sources| && w.sources[k].minutes.Finite? ==>
      w.sources[k].minutes.r <= MAX_REACHABLE_SEED_RATIO
  }

  // ------------------------------------------------------------------ limits

  /** Climbing from any category ends at a limit that cannot be reached, when no category of its own
      and not the global one can be: the flat map the checker walks settles the whole chain. */
  lemma {:induction false} CategoryChain(w: Trace.World, axis: Trace.Axis, category: string)
    requires Trace.WellFormed(w)
    requires forall c :: c in w.categories ==> !CanBeReached(Trace.StoredLimit(w, axis, c))
    requires !CanBeReached(Trace.GlobalLimit(w, axis))
    ensures !CanBeReached(Trace.CategoryLimit(w, axis, category))
    decreases w.depth(category)
  {
    if category != "" && Trace.StoredLimit(w, axis, category) == Trace.DEFAULT_LIMIT {
      CategoryChain(w, axis, w.parent(category));
    }
  }

  /** An unreachable limit never fires, for a torrent of any size. */
  lemma UnreachableIsUnattainable(axis: Trace.Axis, limit: Number, download: int)
    requires 1 <= download <= INT64_MAX && !CanBeReached(limit)
    requires !axis.Ratio? && limit.Finite? ==> limit.r <= MAX_REACHABLE_SEED_RATIO
    ensures !Trace.Attainable(axis, limit, download)
  {
    if axis.Ratio? {
      CeilingIsExact(limit);
    }
  }

  /** The category premise, read into the world: no category can release its own torrents. */
  lemma NoCategoryLimitIsReached(qbt: QbtInstance, arrs: seq<ArrInstance>, w: Trace.World, c: string)
    requires Trace.WellFormed(w) && Describes(qbt, arrs, w) && c in w.categories
    requires NoCategorySetsItsOwnLimit(qbt) == Holds
    ensures !CanBeReached(w.categories[c].ratio) && !CanBeReached(Finite(w.categories[c].minutes as real))
  {
    if qbt.categories.value.Dict? {
      NoCategoryMeans(qbt);
      var entry := qbt.categories.value.entries[c];
      assert CategorySetsItsOwnLimit(entry) == Fails;
      assert OwnShareLimit(entry.entries, RATIO_LIMIT) == Fails by {
        assert [OwnShareLimit(entry.entries, RATIO_LIMIT), OwnShareLimit(entry.entries, SEEDING_TIME_LIMIT)][0]
          == OwnShareLimit(entry.entries, RATIO_LIMIT);
      }
      assert OwnShareLimit(entry.entries, SEEDING_TIME_LIMIT) == Fails by {
        assert [OwnShareLimit(entry.entries, RATIO_LIMIT), OwnShareLimit(entry.entries, SEEDING_TIME_LIMIT)][1]
          == OwnShareLimit(entry.entries, SEEDING_TIME_LIMIT);
      }
    }
  }

  // ------------------------------------------------------------------ what a category changes

  /** The global limit of this axis would release the category's torrents, but what they resolve to,
      through the category or a parent of it, never does. */
  ghost predicate Shielded(w: Trace.World, axis: Trace.Axis, category: string)
    requires Trace.WellFormed(w)
  {
    CanBeReached(Trace.GlobalLimit(w, axis)) && !CanBeReached(Trace.CategoryLimit(w, axis, category))
  }

  /** The global limit would not, but what they resolve to does. */
  ghost predicate Rescued(w: Trace.World, axis: Trace.Axis, category: string)
    requires Trace.WellFormed(w)
  {
    !CanBeReached(Trace.GlobalLimit(w, axis)) && CanBeReached(Trace.CategoryLimit(w, axis, category))
  }

  /** The global action would free the slot, but what the category resolves to does not. */
  ghost predicate ActionShielded(w: Trace.World, category: string)
    requires Trace.WellFormed(w)
  {
    Trace.Releases(w.action) && !Trace.Releases(Trace.CategoryAction(w, category))
  }

  ghost predicate ActionRescued(w: Trace.World, category: string)
    requires Trace.WellFormed(w)
  {
    !Trace.Releases(w.action) && Trace.Releases(Trace.CategoryAction(w, category))
  }

  /** Categories that all defer, on every axis and about the action, change nothing. */
  lemma {:induction false} DeferringChangesNothing(w: Trace.World, category: string)
    requires Trace.WellFormed(w)
    requires forall c, axis: Trace.Axis :: c in w.categories ==> Trace.StoredLimit(w, axis, c) == Trace.DEFAULT_LIMIT
    requires forall c :: c in w.categories ==> w.categories[c].action == Trace.DEFAULT_ACTION
    ensures forall axis: Trace.Axis :: Trace.CategoryLimit(w, axis, category) == Trace.GlobalLimit(w, axis)
    ensures Trace.CategoryAction(w, category) == w.action
    decreases w.depth(category)
  {
    if category != "" {
      DeferringChangesNothing(w, w.parent(category));
    }
  }

  // ------------------------------------------------------------------ FAIL

  /** The globals and the categories can never stop a torrent that defers on this axis. */
  ghost predicate ChainReleasesNothing(w: Trace.World, axis: Trace.Axis) {
    && !CanBeReached(Trace.GlobalLimit(w, axis))
    && forall c :: c in w.categories ==> !CanBeReached(Trace.StoredLimit(w, axis, c))
  }

  /** However much they download, no limit ever stops a torrent of this source. */
  ghost predicate NeverDrains(w: Trace.World, source: Trace.Source)
    requires Trace.WellFormed(w)
  {
    forall download: int :: 1 <= download <= w.largest ==> Trace.NeverStops(w, source, download)
  }

  /** One axis that cannot stop the torrent: its criterion is no goal, and it either overrides the
      limit out of reach or defers to a chain that ends out of reach. */
  lemma AxisIsOut(w: Trace.World, source: Trace.Source, axis: Trace.Axis, fact: Fact)
    requires Trace.WellFormed(w) && !axis.Inactive? && CriterionRead(fact, Trace.OwnLimit(source, axis))
    requires !IsASeedGoal(fact) && !IsAnUnusableSeedCriterion(fact)
    requires OverridesTheShareLimit(fact) == Holds || !CanBeReached(Trace.CategoryLimit(w, axis, source.category))
    ensures !CanBeReached(Trace.EffectiveLimit(w, source, axis))
  {}

  lemma {:induction false} CategoryMinutesAreSmall(w: Trace.World, axis: Trace.Axis, category: string)
    requires Trace.WellFormed(w) && !axis.Ratio?
    ensures var limit := Trace.CategoryLimit(w, axis, category); limit.Finite? && limit.r <= MAX_REACHABLE_SEED_RATIO
    decreases w.depth(category)
  {
    if category != "" && Trace.StoredLimit(w, axis, category) == Trace.DEFAULT_LIMIT {
      CategoryMinutesAreSmall(w, axis, w.parent(category));
    }
  }

  predicate BothCriteriaUsable(x: IndexerFacts) {
    !IsAnUnusableSeedCriterion(x.seedRatio) && !IsAnUnusableSeedCriterion(x.seedTime)
  }

  /** Nothing in this category releases a torrent of this indexer: it has no goal of its own, the
      inactive limit the category resolves to is out of reach, and so is each other limit unless the
      criterion overrides it. */
  ghost predicate Unreleased(w: Trace.World, x: IndexerFacts, category: string)
    requires Trace.WellFormed(w)
  {
    && LacksSeedCriteria(x)
    && !CanBeReached(Trace.CategoryLimit(w, Trace.Inactive, category))
    && (OverridesTheShareLimit(x.seedRatio) == Holds || !CanBeReached(Trace.CategoryLimit(w, Trace.Ratio, category)))
    && (OverridesTheShareLimit(x.seedTime) == Holds || !CanBeReached(Trace.CategoryLimit(w, Trace.Minutes, category)))
  }

  lemma UnreleasedNeverStops(w: Trace.World, k: nat, x: IndexerFacts, download: int)
    requires Trace.WellFormed(w) && SeedTimesFit(w) && k < |w.sources| && IndexerRead(x, w.sources[k])
    requires BothCriteriaUsable(x) && Unreleased(w, x, w.sources[k].category) && 1 <= download <= w.largest
    ensures Trace.NeverStops(w, w.sources[k], download)
  {
    var source := w.sources[k];
    assert SeedCriteria(x)[0] == x.seedRatio && SeedCriteria(x)[1] == x.seedTime;
    forall axis: Trace.Axis
      ensures !Trace.Attainable(axis, Trace.EffectiveLimit(w, source, axis), download)
    {
      if !axis.Inactive? {
        AxisIsOut(w, source, axis, if axis.Ratio? then x.seedRatio else x.seedTime);
      }
      if !axis.Ratio? {
        CategoryMinutesAreSmall(w, axis, source.category);
      }
      UnreachableIsUnattainable(axis, Trace.EffectiveLimit(w, source, axis), download);
    }
  }

  /** The table of goals, deferring and overriding criteria, against the globals and the categories:
      what a seeder-absorption route has read, and the one thing it has not. */
  lemma TableLeavesUnreleased(w: Trace.World, x: IndexerFacts, category: string)
    requires Trace.WellFormed(w) && LacksSeedCriteria(x)
    requires OverridesTheShareLimit(x.seedRatio) == Holds || ChainReleasesNothing(w, Trace.Ratio)
    requires OverridesTheShareLimit(x.seedTime) == Holds || ChainReleasesNothing(w, Trace.Minutes)
    ensures Unreleased(w, x, category) <==> !CanBeReached(Trace.CategoryLimit(w, Trace.Inactive, category))
  {
    if OverridesTheShareLimit(x.seedRatio) != Holds {
      CategoryChain(w, Trace.Ratio, category);
    }
    if OverridesTheShareLimit(x.seedTime) != Holds {
      CategoryChain(w, Trace.Minutes, category);
    }
  }

  /** The shape each seeder-absorption route looks for. */
  function Shape(conflict: Route): IndexerFacts -> Truth {
    match conflict
    case OverrideBoth => OverridesBothShareLimits
    case OverrideRatio => OverridesTheRatioLimit
    case OverrideSeedTime => OverridesTheSeedTimeLimit
    case _ => Lacks
  }

  lemma ShapeMeans(conflict: Route, x: IndexerFacts)
    requires conflict in SEED_CRITERIA_CONFLICTS && Shape(conflict)(x) == Holds
    ensures LacksSeedCriteria(x)
    ensures conflict in {OverrideBoth, OverrideRatio} ==> OverridesTheShareLimit(x.seedRatio) == Holds
    ensures conflict in {OverrideBoth, OverrideSeedTime} ==> OverridesTheShareLimit(x.seedTime) == Holds
  {
    var r, m := OverridesTheShareLimit(x.seedRatio), OverridesTheShareLimit(x.seedTime);
    var goalM, goalR := Decided(!IsASeedGoal(x.seedTime)), Decided(!IsASeedGoal(x.seedRatio));
    assert [r, m][0] == r && [r, m][1] == m && [r, goalM][0] == r && [r, goalM][1] == goalM;
    assert [m, goalR][0] == m && [m, goalR][1] == goalR;
  }

  /** Category-chain soundness. When the category premise holds and the global limit of an axis cannot
      be reached, neither can the limit that any category resolves to, however deep it is nested:
      walking the flat map settles the recursion through parents. */
  lemma CategoryChainIsSound(qbt: QbtInstance, arrs: seq<ArrInstance>, w: Trace.World, axis: Trace.Axis,
                             category: string)
    requires Trace.WellFormed(w) && Describes(qbt, arrs, w) && !axis.Inactive?
    requires NoCategorySetsItsOwnLimit(qbt) == Holds && !CanBeReached(Trace.GlobalLimit(w, axis))
    ensures !CanBeReached(Trace.CategoryLimit(w, axis, category))
  {
    forall c | c in w.categories
      ensures !CanBeReached(Trace.StoredLimit(w, axis, c))
    {
      NoCategoryLimitIsReached(qbt, arrs, w, c);
    }
    CategoryChain(w, axis, category);
  }

  /** The premises about globals and categories, read into the world. */
  lemma ChainFromPremises(qbt: QbtInstance, arrs: seq<ArrInstance>, w: Trace.World)
    requires Trace.WellFormed(w) && Describes(qbt, arrs, w)
    ensures NoCategorySetsItsOwnLimit(qbt) == Holds && NoGlobalRatioState(qbt) == Holds ==>
      ChainReleasesNothing(w, Trace.Ratio)
    ensures NoCategorySetsItsOwnLimit(qbt) == Holds && Not(TruthOf(qbt.maxSeedingTimeEnabled)) == Holds ==>
      ChainReleasesNothing(w, Trace.Minutes)
    ensures NotInactiveGate(qbt) == Holds ==> !CanBeReached(Trace.GlobalLimit(w, Trace.Inactive))
  {
    if NoCategorySetsItsOwnLimit(qbt) == Holds {
      forall c | c in w.categories
        ensures !CanBeReached(w.categories[c].ratio) && !CanBeReached(Finite(w.categories[c].minutes as real))
      {
        NoCategoryLimitIsReached(qbt, arrs, w, c);
      }
    }
  }

  /** A route holds on what was read: a seeder-absorption route has found an indexer of its shape
      whose criteria, both of them, could be read. Criteria of other indexers may be unreadable. */
  ghost predicate Firm(conflict: Route, qbt: QbtInstance, arrs: seq<ArrInstance>) {
    && RouteState(conflict, TableOf(qbt, arrs)) == Holds
    && (conflict in SEED_CRITERIA_CONFLICTS ==>
          exists k :: FirmIndexer(conflict, arrs, k))
  }

  /** With no criterion left unread, an indexer that fed a seeder-absorption route could be read. */
  lemma NothingUnreadToFeedIt(conflict: Route, arrs: seq<ArrInstance>, k: nat)
    requires conflict in SEED_CRITERIA_CONFLICTS && IndexersWithUnreadableSeedCriteria(arrs) == []
    requires k < |Indexers(arrs)| && Matches(Indexers(arrs)[k], Shape(conflict))
    ensures BothCriteriaUsable(Indexers(arrs)[k])
  {
    var x := Indexers(arrs)[k];
    ShapeMeans(conflict, x);
    assert SeedCriteria(x)[0] == x.seedRatio && SeedCriteria(x)[1] == x.seedTime;
    if FedThePremiseAnUnreadableCriterion(x) {
      UnreadableIsNamed(arrs, x);
    }
  }

  lemma HoldingSeederRoute(conflict: Route, qbt: QbtInstance, arrs: seq<ArrInstance>)
    requires conflict in SEED_CRITERIA_CONFLICTS && RouteState(conflict, TableOf(qbt, arrs)) == Holds
    ensures AnyTorrentIndexer(arrs, Shape(conflict)) == Holds
  {
    hide AnyTorrentIndexer, NoCategorySetsItsOwnLimit, NoGlobalRatioState;
  }

  /** Then every route that holds is firm. */
  lemma FirmWithoutANote(conflict: Route, qbt: QbtInstance, arrs: seq<ArrInstance>)
    requires RouteState(conflict, TableOf(qbt, arrs)) == Holds
    requires conflict in SEED_CRITERIA_CONFLICTS ==> IndexersWithUnreadableSeedCriteria(arrs) == []
    ensures Firm(conflict, qbt, arrs)
  {
    hide RouteState, TableOf, AnyTorrentIndexer, Matches, BothCriteriaUsable, Shape;
    if conflict in SEED_CRITERIA_CONFLICTS {
      HoldingSeederRoute(conflict, qbt, arrs);
      AnyTorrentIndexerMeans(arrs, Shape(conflict));
      var k :| 0 <= k < |Indexers(arrs)| && Matches(Indexers(arrs)[k], Shape(conflict));
      NothingUnreadToFeedIt(conflict, arrs, k);
      assert FirmIndexer(conflict, arrs, k);
    }
  }

  /** An indexer a seeder-absorption route was right about: of its shape, grabbing, and readable. */
  ghost predicate FirmIndexer(conflict: Route, arrs: seq<ArrInstance>, k: int) {
    0 <= k < |Indexers(arrs)| && Matches(Indexers(arrs)[k], Shape(conflict)) && BothCriteriaUsable(Indexers(arrs)[k])
  }

  /** What a seeder-absorption route has shown of such an indexer: it grabs, and nothing releases its
      torrents unless the category they are filed under arms an inactive limit of its own. */
  lemma FirmIndexerIsUnreleased(conflict: Route, qbt: QbtInstance, arrs: seq<ArrInstance>, w: Trace.World, k: nat)
    requires Trace.WellFormed(w) && Describes(qbt, arrs, w)
    requires conflict in SEED_CRITERIA_CONFLICTS && RouteState(conflict, TableOf(qbt, arrs)) == Holds
    requires FirmIndexer(conflict, arrs, k)
    ensures k < |w.sources| && w.sources[k].Grabs() && IndexerRead(Indexers(arrs)[k], w.sources[k])
    ensures !CanBeReached(Trace.GlobalLimit(w, Trace.Inactive))
    ensures Unreleased(w, Indexers(arrs)[k], w.sources[k].category) <==>
      !Rescued(w, Trace.Inactive, w.sources[k].category)
  {
    hide AnyTorrentIndexer, NoCategorySetsItsOwnLimit, NoGlobalRatioState, NotInactiveGate, ChainReleasesNothing,
      Shape, BothCriteriaUsable, OverridesTheShareLimit, CanBeReached, Unreleased;
    ShapeMeans(conflict, Indexers(arrs)[k]);
    ChainFromPremises(qbt, arrs, w);
    TableLeavesUnreleased(w, Indexers(arrs)[k], w.sources[k].category);
  }

  /** So, however much they download, its torrents never stop. */
  lemma FirmIndexerNeverDrains(conflict: Route, qbt: QbtInstance, arrs: seq<ArrInstance>, w: Trace.World, k: nat)
    requires Trace.WellFormed(w) && Describes(qbt, arrs, w) && SeedTimesFit(w)
    requires conflict in SEED_CRITERIA_CONFLICTS && RouteState(conflict, TableOf(qbt, arrs)) == Holds
    requires FirmIndexer(conflict, arrs, k)
    requires k < |w.sources| && !Rescued(w, Trace.Inactive, w.sources[k].category)
    ensures w.sources[k].Grabs() && NeverDrains(w, w.sources[k])
  {
    hide Describes, RouteState, TableOf, Unreleased, SeedTimesFit, IndexerRead, Trace.NeverStops;
    FirmIndexerIsUnreleased(conflict, qbt, arrs, w, k);
    forall download: int | 1 <= download <= w.largest
      ensures Trace.NeverStops(w, w.sources[k], download)
    {
      UnreleasedNeverStops(w, k, Indexers(arrs)[k], download);
    }
  }

  /** The route a FAIL names holds, and only a finding on seed criteria can carry the note. */
  lemma FailedRouteHolds(qbt: QbtInstance, arrs: seq<ArrInstance>)
    requires Check(qbt, arrs).outcome == FAIL
    ensures Check(qbt, arrs).conflict != NoConflict
    ensures RouteState(Check(qbt, arrs).conflict, TableOf(qbt, arrs)) == Holds
    ensures Check(qbt, arrs).conflict in SEED_CRITERIA_CONFLICTS && Check(qbt, arrs).detail == [] ==>
      IndexersWithUnreadableSeedCriteria(arrs) == []
  {
    hide RoutePremises, RouteFinding, RouteState, TableOf;
    var k := FailNamesTheEarliestProvedRoute(qbt, arrs);
    StrictAllMeans(RoutePremises(ROUTES[k], qbt, arrs));
    RouteStates(ROUTES[k], qbt, arrs);
  }

  /** A seeder slot is counted and can be filled, when any route past starvation holds. */
  lemma HoldingRouteMeans(conflict: Route, qbt: QbtInstance, arrs: seq<ArrInstance>, w: Trace.World)
    requires Describes(qbt, arrs, w) && RouteState(conflict, TableOf(qbt, arrs)) == Holds
    ensures conflict == Starvation ==> Trace.NoFirstSlot(w)
    ensures conflict != Starvation ==> Trace.Binding(w)
    ensures conflict == Action ==> !Trace.Releases(w.action)
  {
    hide AnyTorrentIndexer, NoCategorySetsItsOwnLimit;
    if conflict == Starvation {
      var torrents, downloads := BlocksAFirstStart(qbt.maxActiveTorrents), BlocksAFirstStart(qbt.maxActiveDownloads);
      assert Holds in [torrents, downloads];
    }
  }

  /** A firm FAIL over a client that reaches no dead state, although it grabs something, is owed to what
      the checker does not read of its categories, and to nothing else: under a seeder-absorption route
      each indexer that fed it files its torrents where an inactive limit is armed that the global gate
      leaves off; under the action route every indexer files them where the action frees the slot. */
  lemma WaysOutOfAFail(conflict: Route, qbt: QbtInstance, arrs: seq<ArrInstance>, w: Trace.World)
    requires Trace.WellFormed(w) && Describes(qbt, arrs, w)
    requires Firm(conflict, qbt, arrs) && (conflict in SEED_CRITERIA_CONFLICTS ==> SeedTimesFit(w))
    requires Trace.HasSource(w) && !Trace.WedgeReachable(w)
    ensures conflict != Starvation
    ensures conflict in SEED_CRITERIA_CONFLICTS ==>
      forall k :: 0 <= k < |w.sources| && FirmIndexer(conflict, arrs, k) ==>
        Rescued(w, Trace.Inactive, w.sources[k].category)
    ensures conflict == Action ==>
      forall k :: 0 <= k < |w.sources| && w.sources[k].Grabs() ==> ActionRescued(w, w.sources[k].category)
  {
    HoldingRouteMeans(conflict, qbt, arrs, w);
    hide Describes, RouteState, TableOf, Trace.WedgeReachable, Trace.NoFirstSlot, Rescued, FirmIndexer, SeedTimesFit,
      Trace.NeverStops;
    WedgeReachableIff(w);
    if conflict in SEED_CRITERIA_CONFLICTS {
      forall k | 0 <= k < |w.sources| && FirmIndexer(conflict, arrs, k)
        ensures Rescued(w, Trace.Inactive, w.sources[k].category)
      {
        if !Rescued(w, Trace.Inactive, w.sources[k].category) {
          FirmIndexerNeverDrains(conflict, qbt, arrs, w, k);
          assert false;
        }
      }
    }
  }

  /** No indexer files its torrents where an inactive limit is armed that the global gate leaves off. */
  ghost predicate InactiveStaysOff(w: Trace.World)
    requires Trace.WellFormed(w)
  {
    forall k :: 0 <= k < |w.sources| && w.sources[k].Grabs() ==> !Rescued(w, Trace.Inactive, w.sources[k].category)
  }

  /** No indexer files its torrents where the action frees a slot that the global one does not. */
  ghost predicate ActionStaysOff(w: Trace.World)
    requires Trace.WellFormed(w)
  {
    forall k :: 0 <= k < |w.sources| && w.sources[k].Grabs() ==> !ActionRescued(w, w.sources[k].category)
  }

  lemma FirmSeederRouteHolds(conflict: Route, qbt: QbtInstance, arrs: seq<ArrInstance>, w: Trace.World)
    returns (k: nat)
    requires Trace.WellFormed(w) && Describes(qbt, arrs, w) && Firm(conflict, qbt, arrs)
    requires conflict in SEED_CRITERIA_CONFLICTS && SeedTimesFit(w) && InactiveStaysOff(w)
    ensures k < |w.sources| && w.sources[k].Grabs() && NeverDrains(w, w.sources[k])
    ensures Trace.NeverStops(w, w.sources[k], w.largest)
  {
    hide Describes, RouteState, TableOf, SeedTimesFit, Rescued, Trace.NeverStops, Unreleased, Matches, Shape,
      BothCriteriaUsable, IndexerRead;
    k :| FirmIndexer(conflict, arrs, k);
    FirmIndexerIsUnreleased(conflict, qbt, arrs, w, k);
    FirmIndexerNeverDrains(conflict, qbt, arrs, w, k);
  }

  /** FAIL is sound. For every client the snapshot could have been read from, a firm route means that
      a dead state is reachable exactly when the stack grabs anything at all; and a firm route on seed
      criteria already proves that it does. Other indexers' criteria may be unreadable. What the checker
      does not read of a category is a hypothesis: its inactive limit, for the routes on seed criteria,
      and its action, for the action route. */
  lemma FailIsSound(conflict: Route, qbt: QbtInstance, arrs: seq<ArrInstance>, w: Trace.World)
    requires Trace.WellFormed(w) && Describes(qbt, arrs, w) && Firm(conflict, qbt, arrs)
    requires conflict in SEED_CRITERIA_CONFLICTS ==> SeedTimesFit(w) && InactiveStaysOff(w)
    requires conflict == Action ==> ActionStaysOff(w)
    ensures Check(qbt, arrs).outcome == FAIL
    ensures Trace.WedgeReachable(w) <==> Trace.HasSource(w)
    ensures conflict in SEED_CRITERIA_CONFLICTS ==> Trace.WedgeReachable(w)
    ensures conflict in SEED_CRITERIA_CONFLICTS ==>
      exists k :: 0 <= k < |w.sources| && w.sources[k].Grabs() && NeverDrains(w, w.sources[k])
  {
    hide Check, Describes, RouteState, TableOf, Trace.WedgeReachable, Trace.WellFormed, Trace.NoFirstSlot, SeedTimesFit,
      InactiveStaysOff, Trace.NeverStops, FirmIndexer, NeverDrains;
    CheckByRoutes(qbt, arrs);
    HoldingRouteMeans(conflict, qbt, arrs, w);
    WedgeReachableIff(w);
    if conflict in SEED_CRITERIA_CONFLICTS {
      var k := FirmSeederRouteHolds(conflict, qbt, arrs, w);
      assert Trace.HoldsForever(w, w.sources[k]);
    } else if conflict == Action && Trace.HasSource(w) {
      var k :| 0 <= k < |w.sources| && w.sources[k].Grabs();
      assert Trace.HoldsForever(w, w.sources[k]);
    }
  }

  /** A FAIL that carries no unreadable-criterion note is firm. */
  lemma FailWithoutANoteIsSound(qbt: QbtInstance, arrs: seq<ArrInstance>, w: Trace.World)
    requires Trace.WellFormed(w) && Describes(qbt, arrs, w)
    requires Check(qbt, arrs).outcome == FAIL
    requires Check(qbt, arrs).conflict in SEED_CRITERIA_CONFLICTS ==>
      SeedTimesFit(w) && InactiveStaysOff(w) && Check(qbt, arrs).detail == []
    requires Check(qbt, arrs).conflict == Action ==> ActionStaysOff(w)
    ensures Trace.WedgeReachable(w) <==> Trace.HasSource(w)
    ensures Check(qbt, arrs).conflict in SEED_CRITERIA_CONFLICTS ==> Trace.WedgeReachable(w)
    ensures Check(qbt, arrs).conflict in SEED_CRITERIA_CONFLICTS ==>
      exists k :: 0 <= k < |w.sources| && w.sources[k].Grabs() && NeverDrains(w, w.sources[k])
  {
    hide Check, Describes, RouteState, TableOf, Trace.WedgeReachable, Firm;
    FailedRouteHolds(qbt, arrs);
    FirmWithoutANote(Check(qbt, arrs).conflict, qbt, arrs);
    FailIsSound(Check(qbt, arrs).conflict, qbt, arrs, w);
  }
}
