/** The other half: what a PASS says about every client the snapshot could have been read from, and
    where the verdict is exact. */
module Completeness {
  import opened Facts
  import opened Outcomes
  import opened Combinator
  import opened QueueLiveness
  import opened Verdicts
  import opened Quantifier
  import opened SeedRatio
  import opened WedgeTheorem
  import Trace = QueueTrace
  import opened Soundness

  // ------------------------------------------------------------------ goals and categories

  /** A torrent that downloaded the most can still be seeded up to this ratio within the counters. */
  ghost predicate InReach(w: Trace.World, limit: Number)
    requires Trace.WellFormed(w)
  {
    CanBeReached(limit) ==> AtMost(limit, RealRatio(INT64_MAX, w.largest))
  }

  ghost predicate RatioGoalsInReach(w: Trace.World)
    requires Trace.WellFormed(w)
  {
    && InReach(w, w.globalRatio)
    && (forall k :: 0 <= k < |w.sources| ==> InReach(w, w.sources[k].ratio))
    && (forall c :: c in w.categories ==> InReach(w, w.categories[c].ratio))
  }

  lemma GoalsOfSource(w: Trace.World, k: nat)
    requires Trace.WellFormed(w) && RatioGoalsInReach(w) && k < |w.sources|
    ensures InReach(w, w.sources[k].ratio)
  {}

  /** Whatever a category resolves to is in reach when every goal is. */
  lemma {:induction false} CategoryGoalInReach(w: Trace.World, category: string)
    requires Trace.WellFormed(w) && RatioGoalsInReach(w)
    ensures InReach(w, Trace.CategoryLimit(w, Trace.Ratio, category))
    decreases w.depth(category)
  {
    if category != "" && Trace.StoredLimit(w, Trace.Ratio, category) == Trace.DEFAULT_LIMIT {
      CategoryGoalInReach(w, w.parent(category));
    }
  }

  /** The same client with its categories struck out. */
  function Uncategorised(w: Trace.World): Trace.World {
    w.(categories := map[])
  }

  /** The same snapshot with its categories struck out. */
  function WithoutCategories(qbt: QbtInstance): QbtInstance {
    qbt.(categories := Known(Dict(map[])))
  }

  lemma DescribedWithoutCategories(qbt: QbtInstance, arrs: seq<ArrInstance>, w: Trace.World)
    requires Describes(qbt, arrs, w)
    ensures Describes(WithoutCategories(qbt), arrs, Uncategorised(w))
    ensures Trace.WellFormed(w) ==> Trace.WellFormed(Uncategorised(w))
  {}

  lemma TableWithoutCategories(qbt: QbtInstance, arrs: seq<ArrInstance>)
    ensures TableOf(WithoutCategories(qbt), arrs) == TableOf(qbt, arrs).(noCategory := Holds)
  {
    NoCategoryMeans(WithoutCategories(qbt));
  }

  // ------------------------------------------------------------------ PASS

  /** On a stack where seeders can fill the slots, a PASS decided every share-limit premise, and
      each seeder route is missing at least one. */
  lemma PassOnBindingSlots(qbt: QbtInstance, arrs: seq<ArrInstance>, w: Trace.World)
    requires Describes(qbt, arrs, w) && Check(qbt, arrs).outcome == PASS
    requires Trace.Binding(w)
    ensures var t := TableOf(qbt, arrs);
      && t.action == Fails
      && Strict(t.noInactive, Strict(t.noRatio, Strict(t.noSeedTime, Strict(t.noCategory, t.lacks)))) == Fails
      && Strict(t.noInactive, t.both) == Fails
      && Strict(t.noInactive, Strict(t.noSeedTime, Strict(t.noCategory, t.ratio))) == Fails
      && Strict(t.noInactive, Strict(t.noRatio, Strict(t.noCategory, t.seedTime))) == Fails
  {
    hide Check, AnyTorrentIndexer, NoCategorySetsItsOwnLimit, NoGlobalRatioState, NotInactiveGate, ActionFreesNoSlot;
    var t := TableOf(qbt, arrs);
    CheckByRoutes(qbt, arrs);
    PassReadEverything(qbt, arrs);
    assert Slots(t) == Holds;
    assert RouteState(Seeding, t) == Fails && RouteState(OverrideBoth, t) == Fails;
    assert RouteState(OverrideRatio, t) == Fails && RouteState(OverrideSeedTime, t) == Fails;
    assert RouteState(Action, t) == Fails;
  }

  /** A criterion that is a goal stops its torrents by itself. */
  lemma GoalStops(w: Trace.World, source: Trace.Source, axis: Trace.Axis, fact: Fact)
    requires Trace.WellFormed(w) && !axis.Inactive? && CriterionRead(fact, Trace.OwnLimit(source, axis))
    requires IsASeedGoal(fact) && InReach(w, source.ratio)
    ensures !Trace.NeverStops(w, source, w.largest)
  {
    assert Trace.Attainable(axis, Trace.EffectiveLimit(w, source, axis), w.largest);
  }

  /** A criterion that defers is stopped by the limit its category resolves to, when it can be reached. */
  lemma CategoryStops(w: Trace.World, source: Trace.Source, axis: Trace.Axis)
    requires Trace.WellFormed(w) && RatioGoalsInReach(w)
    requires Trace.OwnLimit(source, axis) == Trace.DEFAULT_LIMIT
    requires CanBeReached(Trace.CategoryLimit(w, axis, source.category))
    ensures !Trace.NeverStops(w, source, w.largest)
  {
    CategoryGoalInReach(w, source.category);
    assert Trace.Attainable(axis, Trace.EffectiveLimit(w, source, axis), w.largest);
  }

  /** A criterion that defers is stopped by a global limit its category does not shield it from. */
  lemma GlobalStops(w: Trace.World, source: Trace.Source, axis: Trace.Axis)
    requires Trace.WellFormed(w) && RatioGoalsInReach(w) && !Shielded(w, axis, source.category)
    requires Trace.OwnLimit(source, axis) == Trace.DEFAULT_LIMIT && CanBeReached(Trace.GlobalLimit(w, axis))
    ensures !Trace.NeverStops(w, source, w.largest)
  {
    CategoryStops(w, source, axis);
  }

  /** A readable criterion that does not override, and is no goal, defers. */
  lemma NotOverridingDefers(fact: Fact, limit: Number)
    requires CriterionRead(fact, limit) && OverridesTheShareLimit(fact) == Fails && !IsASeedGoal(fact)
    ensures limit == Trace.DEFAULT_LIMIT
  {}

  lemma ShapesOfAnIndexer(x: IndexerFacts)
    requires LacksSeedCriteria(x)
    ensures Lacks(x) == Holds
    ensures OverridesBothShareLimits(x) == Fails ==>
      OverridesTheShareLimit(x.seedRatio) == Fails || OverridesTheShareLimit(x.seedTime) == Fails
    ensures OverridesTheRatioLimit(x) == Fails <==> OverridesTheShareLimit(x.seedRatio) == Fails
    ensures OverridesTheSeedTimeLimit(x) == Fails <==> OverridesTheShareLimit(x.seedTime) == Fails
  {
    assert SeedCriteria(x)[0] == x.seedRatio && SeedCriteria(x)[1] == x.seedTime;
    var r, m := OverridesTheShareLimit(x.seedRatio), OverridesTheShareLimit(x.seedTime);
    assert [r, Holds][0] == r && [m, Holds][0] == m;
  }

  lemma PremisesOfOne(arrs: seq<ArrInstance>, k: nat, matches: IndexerFacts -> Truth)
    requires k < |Indexers(arrs)| && IsATorrentSource(Indexers(arrs)[k]) != Fails
    requires AnyTorrentIndexer(arrs, matches) == Fails
    ensures matches(Indexers(arrs)[k]) == Fails
  {
    AnyTorrentIndexerMeans(arrs, matches);
    assert Excluded(Indexers(arrs)[k], matches);
  }

  /** A premise about a global limit that fails, read into the world. */
  lemma GlobalsFromPremises(qbt: QbtInstance, arrs: seq<ArrInstance>, w: Trace.World)
    requires Trace.WellFormed(w) && Describes(qbt, arrs, w)
    ensures NotInactiveGate(qbt) == Fails ==> CanBeReached(Trace.GlobalLimit(w, Trace.Inactive))
    ensures NoGlobalRatioState(qbt) == Fails ==> CanBeReached(Trace.GlobalLimit(w, Trace.Ratio))
    ensures Not(TruthOf(qbt.maxSeedingTimeEnabled)) == Fails ==> CanBeReached(Trace.GlobalLimit(w, Trace.Minutes))
  {}

  /** An indexer that grabs was never excluded as a torrent source. */
  lemma GrabbingIsNotExcluded(x: IndexerFacts, source: Trace.Source)
    requires IndexerRead(x, source) && source.Grabs()
    ensures IsATorrentSource(x) != Fails
  {
    var states := [TruthOf(x.enableRss), TruthOf(x.enableAutomaticSearch), TruthOf(x.enableInteractiveSearch)];
    assert states[0] == TruthOf(x.enableRss) && states[1] == TruthOf(x.enableAutomaticSearch)
      && states[2] == TruthOf(x.enableInteractiveSearch);
  }

  /** On a binding stack whose verdict rests on no category, PASS means that every torrent an indexer
      files under a category that shields it from no global limit is stopped by some arm. */
  lemma PassStopsEverySource(qbt: QbtInstance, arrs: seq<ArrInstance>, w: Trace.World, k: nat)
    requires Trace.WellFormed(w) && Describes(qbt, arrs, w) && RatioGoalsInReach(w)
    requires Check(WithoutCategories(qbt), arrs).outcome == PASS && Trace.Binding(w)
    requires k < |w.sources| && w.sources[k].Grabs()
    requires forall axis: Trace.Axis :: !Shielded(w, axis, w.sources[k].category)
    ensures !Trace.NeverStops(w, w.sources[k], w.largest)
  {
    DescribedWithoutCategories(qbt, arrs, w);
    TableWithoutCategories(qbt, arrs);
    GoalsOfSource(w, k);
    GlobalsFromPremises(qbt, arrs, w);
    var t, x, source := TableOf(WithoutCategories(qbt), arrs), Indexers(arrs)[k], w.sources[k];
    PassOnBindingSlots(WithoutCategories(qbt), arrs, Uncategorised(w));
    assert IndexerRead(x, source);
    GrabbingIsNotExcluded(x, source);
    hide AnyTorrentIndexer, NoCategorySetsItsOwnLimit, NotInactiveGate, NoGlobalRatioState, IsATorrentSource, Check,
      Describes, Trace.NeverStops, Trace.GlobalLimit, Trace.WellFormed, CanBeReached, Shielded, RatioGoalsInReach,
      InReach;
    if t.noInactive == Fails {
      GlobalStops(w, source, Trace.Inactive);
    } else if IsASeedGoal(x.seedRatio) {
      GoalStops(w, source, Trace.Ratio, x.seedRatio);
    } else if IsASeedGoal(x.seedTime) {
      GoalStops(w, source, Trace.Minutes, x.seedTime);
    } else {
      ShapesOfAnIndexer(x);
      if t.lacks == Fails { PremisesOfOne(arrs, k, Lacks); }
      PremisesOfOne(arrs, k, OverridesBothShareLimits);
      if OverridesTheShareLimit(x.seedRatio) == Fails {
        NotOverridingDefers(x.seedRatio, source.ratio);
        if t.noRatio == Fails {
          GlobalStops(w, source, Trace.Ratio);
        } else {
          if t.seedTime == Fails { PremisesOfOne(arrs, k, OverridesTheSeedTimeLimit); }
          NotOverridingDefers(x.seedTime, source.minutes);
          GlobalStops(w, source, Trace.Minutes);
        }
      } else {
        NotOverridingDefers(x.seedTime, source.minutes);
        if t.ratio == Fails { PremisesOfOne(arrs, k, OverridesTheRatioLimit); }
        GlobalStops(w, source, Trace.Minutes);
      }
    }
  }

  lemma PassHasAFirstSlot(qbt: QbtInstance, arrs: seq<ArrInstance>, w: Trace.World)
    requires Describes(qbt, arrs, w) && Check(qbt, arrs).outcome == PASS
    ensures !Trace.NoFirstSlot(w)
  {
    PassReadEverything(qbt, arrs);
    CheckByRoutes(qbt, arrs);
    var t := TableOf(qbt, arrs);
    assert RouteState(Starvation, t) == Fails;
    var torrents, downloads := BlocksAFirstStart(qbt.maxActiveTorrents), BlocksAFirstStart(qbt.maxActiveDownloads);
    assert [torrents, downloads][0] == torrents && [torrents, downloads][1] == downloads;
  }

  lemma PassActionReleases(qbt: QbtInstance, arrs: seq<ArrInstance>, w: Trace.World)
    requires Describes(qbt, arrs, w) && Check(qbt, arrs).outcome == PASS
    requires Trace.Binding(w)
    ensures Trace.Releases(w.action)
  {
    PassOnBindingSlots(qbt, arrs, w);
  }

  // ------------------------------------------------------------------ when a verdict is right

  ghost predicate CriteriaUsable(arrs: seq<ArrInstance>) {
    forall k :: 0 <= k < |Indexers(arrs)| ==> BothCriteriaUsable(Indexers(arrs)[k])
  }

  /** A readable criterion that hands the question to the category. */
  predicate Defers(fact: Fact) {
    OverridesTheShareLimit(fact) == Fails && !IsASeedGoal(fact)
  }

  /** The limit a torrent carries on an axis, as read: the criterion's own number, or what the category
      it is filed under resolves to. */
  ghost function LimitAsRead(w: Trace.World, axis: Trace.Axis, x: IndexerFacts, category: string): Number
    requires Trace.WellFormed(w) && BothCriteriaUsable(x)
  {
    match axis
    case Ratio => if Defers(x.seedRatio) then Trace.CategoryLimit(w, axis, category) else NumberOf(x.seedRatio.value)
    case Minutes => if Defers(x.seedTime) then Trace.CategoryLimit(w, axis, category) else NumberOf(x.seedTime.value)
    case Inactive => Trace.CategoryLimit(w, axis, category)
  }

  /** None of the three limits a torrent carries can be met by one that downloaded the most. */
  ghost predicate NothingReleases(w: Trace.World, x: IndexerFacts, category: string)
    requires Trace.WellFormed(w) && BothCriteriaUsable(x)
  {
    forall axis: Trace.Axis :: !Trace.Attainable(axis, LimitAsRead(w, axis, x, category), w.largest)
  }

  lemma NeverStopsExactlyWhen(w: Trace.World, k: nat, x: IndexerFacts)
    requires Trace.WellFormed(w) && k < |w.sources| && IndexerRead(x, w.sources[k]) && BothCriteriaUsable(x)
    ensures Trace.NeverStops(w, w.sources[k], w.largest) <==> NothingReleases(w, x, w.sources[k].category)
  {
    hide Trace.Attainable, Trace.CategoryLimit;
    assert forall axis: Trace.Axis ::
      Trace.EffectiveLimit(w, w.sources[k], axis) == LimitAsRead(w, axis, x, w.sources[k].category);
  }

  /** The checker's table for one indexer is exact where goals are in reach and seed times fit: nothing
      releases its torrents if and only if it has no goal, the inactive limit its category resolves to is
      out of reach, and so is each other one it does not override. */
  lemma CheckersTableIsExact(w: Trace.World, k: nat, x: IndexerFacts)
    requires Trace.WellFormed(w) && RatioGoalsInReach(w) && SeedTimesFit(w)
    requires k < |w.sources| && IndexerRead(x, w.sources[k]) && BothCriteriaUsable(x)
    ensures NothingReleases(w, x, w.sources[k].category) <==> Unreleased(w, x, w.sources[k].category)
  {
    NeverStopsExactlyWhen(w, k, x);
    hide Trace.NeverStops, Trace.CategoryLimit, RatioGoalsInReach, NothingReleases;
    var source := w.sources[k];
    assert SeedCriteria(x)[0] == x.seedRatio && SeedCriteria(x)[1] == x.seedTime;
    GoalsOfSource(w, k);
    if Unreleased(w, x, source.category) {
      UnreleasedNeverStops(w, k, x, w.largest);
    } else if IsASeedGoal(x.seedRatio) {
      GoalStops(w, source, Trace.Ratio, x.seedRatio);
    } else if IsASeedGoal(x.seedTime) {
      GoalStops(w, source, Trace.Minutes, x.seedTime);
    } else if CanBeReached(Trace.CategoryLimit(w, Trace.Inactive, source.category)) {
      CategoryStops(w, source, Trace.Inactive);
    } else if CanBeReached(Trace.CategoryLimit(w, Trace.Ratio, source.category))
           && OverridesTheShareLimit(x.seedRatio) != Holds {
      CategoryStops(w, source, Trace.Ratio);
    } else {
      CategoryStops(w, source, Trace.Minutes);
    }
  }

  /** Indexer k grabs, and where its torrents are filed either reaching a limit frees nothing or no limit
      is ever reached. */
  ghost predicate Absorbs(arrs: seq<ArrInstance>, w: Trace.World, k: int)
    requires Trace.WellFormed(w) && CriteriaUsable(arrs) && |w.sources| == |Indexers(arrs)|
  {
    && 0 <= k < |w.sources| && w.sources[k].Grabs()
    && (!Trace.Releases(Trace.EffectiveAction(w, w.sources[k]))
        || NothingReleases(w, Indexers(arrs)[k], w.sources[k].category))
  }

  /** Exactly when a client wedges, in terms of what was read of it and of what the category each indexer
      files under resolves to. No verdict is assumed, and nothing about goals or seed times. */
  lemma WedgeExactlyWhen(qbt: QbtInstance, arrs: seq<ArrInstance>, w: Trace.World)
    requires Trace.WellFormed(w) && Describes(qbt, arrs, w) && CriteriaUsable(arrs)
    ensures Trace.WedgeReachable(w) <==>
      Trace.HasSource(w) && (Trace.NoFirstSlot(w) || (Trace.Binding(w) && exists k :: Absorbs(arrs, w, k)))
  {
    WedgeReachableIff(w);
    assert |w.sources| == |Indexers(arrs)|;
    assert forall k :: 0 <= k < |w.sources| ==> IndexerRead(Indexers(arrs)[k], w.sources[k]);
    hide Describes, Trace.NeverStops, Trace.WedgeReachable, Trace.NoFirstSlot, Trace.Binding, NothingReleases,
      BothCriteriaUsable, IndexerRead;
    forall k | 0 <= k < |w.sources| && w.sources[k].Grabs()
      ensures Trace.HoldsForever(w, w.sources[k]) <==> Absorbs(arrs, w, k)
    {
      NeverStopsExactlyWhen(w, k, Indexers(arrs)[k]);
    }
  }

  /** Exactly when a PASS is right: it has settled starvation and the global action, so the stack wedges
      if and only if its slots bind and some indexer absorbs them - its category takes the action away,
      or no limit its torrents carry can be met. */
  lemma PassIsRightExactlyWhen(qbt: QbtInstance, arrs: seq<ArrInstance>, w: Trace.World)
    requires Trace.WellFormed(w) && Describes(qbt, arrs, w) && CriteriaUsable(arrs)
    requires Check(qbt, arrs).outcome == PASS
    ensures Trace.WedgeReachable(w) <==> Trace.Binding(w) && exists k ::
      && 0 <= k < |w.sources| && w.sources[k].Grabs()
      && (ActionShielded(w, w.sources[k].category) || NothingReleases(w, Indexers(arrs)[k], w.sources[k].category))
  {
    PassHasAFirstSlot(qbt, arrs, w);
    WedgeExactlyWhen(qbt, arrs, w);
    assert |w.sources| == |Indexers(arrs)|;
    if Trace.Binding(w) {
      PassActionReleases(qbt, arrs, w);
    }
    hide Check, Describes, Trace.WedgeReachable, Trace.NoFirstSlot, NothingReleases, CriteriaUsable;
    assert Trace.Binding(w) ==> forall k :: Absorbs(arrs, w, k) <==>
      0 <= k < |w.sources| && w.sources[k].Grabs() &&
      (ActionShielded(w, w.sources[k].category) || NothingReleases(w, Indexers(arrs)[k], w.sources[k].category));
  }

  /** Exactly when a FAIL is right: either nothing can start at all, or some indexer absorbs the slots. */
  lemma FailIsRightExactlyWhen(qbt: QbtInstance, arrs: seq<ArrInstance>, w: Trace.World)
    requires Trace.WellFormed(w) && Describes(qbt, arrs, w) && CriteriaUsable(arrs)
    requires Check(qbt, arrs).outcome == FAIL
    ensures Trace.WedgeReachable(w) <==>
      Trace.HasSource(w) && (Trace.NoFirstSlot(w) || exists k :: Absorbs(arrs, w, k))
  {
    hide Check, Describes, RouteState, TableOf, Trace.WedgeReachable, Trace.NoFirstSlot, Absorbs;
    FailedRouteHolds(qbt, arrs);
    HoldingRouteMeans(Check(qbt, arrs).conflict, qbt, arrs, w);
    WedgeExactlyWhen(qbt, arrs, w);
  }

  /** There are four ways out, and no other. Where a binding stack PASSes although an indexer absorbs its
      slots, either the category it files under shields its torrents - from the action, from the global
      inactive limit, or from a global limit the indexer defers to - or some category's own limit cleared
      the routes for the whole client, and the indexer defers to something. Two overriding criteria leave
      the action and the inactive gate as the only ways out. */
  lemma WaysOutOfAPass(qbt: QbtInstance, arrs: seq<ArrInstance>, w: Trace.World, k: nat)
    requires Trace.WellFormed(w) && Describes(qbt, arrs, w) && RatioGoalsInReach(w) && SeedTimesFit(w)
    requires Check(qbt, arrs).outcome == PASS && Trace.Binding(w)
    requires k < |w.sources| && w.sources[k].Grabs() && BothCriteriaUsable(Indexers(arrs)[k])
    requires Trace.HoldsForever(w, w.sources[k])
    ensures var x, category := Indexers(arrs)[k], w.sources[k].category;
      || ActionShielded(w, category)
      || Shielded(w, Trace.Inactive, category)
      || (Defers(x.seedRatio) && Shielded(w, Trace.Ratio, category))
      || (Defers(x.seedTime) && Shielded(w, Trace.Minutes, category))
      || ((Defers(x.seedRatio) || Defers(x.seedTime)) && NoCategorySetsItsOwnLimit(qbt) == Fails)
  {
    PassActionReleases(qbt, arrs, w);
    if !ActionShielded(w, w.sources[k].category) {
      NeverStopsExactlyWhen(w, k, Indexers(arrs)[k]);
      CheckersTableIsExact(w, k, Indexers(arrs)[k]);
      WaysOutByLimits(qbt, arrs, w, k);
    }
  }

  lemma WaysOutByLimits(qbt: QbtInstance, arrs: seq<ArrInstance>, w: Trace.World, k: nat)
    requires Trace.WellFormed(w) && Describes(qbt, arrs, w)
    requires Check(qbt, arrs).outcome == PASS && Trace.Binding(w)
    requires k < |w.sources| && w.sources[k].Grabs() && BothCriteriaUsable(Indexers(arrs)[k])
    requires Unreleased(w, Indexers(arrs)[k], w.sources[k].category)
    ensures var x, category := Indexers(arrs)[k], w.sources[k].category;
      || Shielded(w, Trace.Inactive, category)
      || (Defers(x.seedRatio) && Shielded(w, Trace.Ratio, category))
      || (Defers(x.seedTime) && Shielded(w, Trace.Minutes, category))
      || ((Defers(x.seedRatio) || Defers(x.seedTime)) && NoCategorySetsItsOwnLimit(qbt) == Fails)
  {
    hide AnyTorrentIndexer, NoCategorySetsItsOwnLimit, Check, Trace.CategoryLimit;
    var t, x := TableOf(qbt, arrs), Indexers(arrs)[k];
    assert SeedCriteria(x)[0] == x.seedRatio && SeedCriteria(x)[1] == x.seedTime;
    PassOnBindingSlots(qbt, arrs, w);
    ShapesOfAnIndexer(x);
    if t.lacks == Fails { PremisesOfOne(arrs, k, Lacks); }
    if t.both == Fails { PremisesOfOne(arrs, k, OverridesBothShareLimits); }
    if t.ratio == Fails { PremisesOfOne(arrs, k, OverridesTheRatioLimit); }
    if t.seedTime == Fails { PremisesOfOne(arrs, k, OverridesTheSeedTimeLimit); }
  }

  // ------------------------------------------------------------------ PASS without the ways out

  /** Striking the categories out leaves the verdict as it is. */
  predicate StandsWithoutCategories(qbt: QbtInstance, arrs: seq<ArrInstance>) {
    Check(WithoutCategories(qbt), arrs).outcome == Check(qbt, arrs).outcome
  }

  /** Every verdict does, on a client none of whose categories releases its own torrents; and then a
      FAIL always does. */
  lemma StandsUnlessACategoryReleases(qbt: QbtInstance, arrs: seq<ArrInstance>)
    ensures NoCategorySetsItsOwnLimit(qbt) == Holds ==> StandsWithoutCategories(qbt, arrs)
    ensures Check(qbt, arrs).outcome == FAIL ==> StandsWithoutCategories(qbt, arrs)
  {
    var t, t' := TableOf(qbt, arrs), TableOf(WithoutCategories(qbt), arrs);
    TableWithoutCategories(qbt, arrs);
    assert t.noCategory == NoCategorySetsItsOwnLimit(qbt);
    hide Check, TableOf, RouteState;
    CheckByRoutes(qbt, arrs);
    CheckByRoutes(WithoutCategories(qbt), arrs);
    forall c: Route
      ensures RouteState(c, t) == Holds ==> RouteState(c, t') == Holds
    {
      HoldingRouteIgnoresCategories(c, t);
    }
  }

  lemma HoldingRouteIgnoresCategories(c: Route, t: Table)
    ensures RouteState(c, t).Holds? ==> RouteState(c, t.(noCategory := Holds)).Holds?
  {}

  /** No indexer files its torrents where anything shields them from a global limit or the action. */
  ghost predicate NoSourceShielded(w: Trace.World)
    requires Trace.WellFormed(w)
  {
    forall k :: 0 <= k < |w.sources| && w.sources[k].Grabs() ==>
      && !ActionShielded(w, w.sources[k].category)
      && forall axis: Trace.Axis :: !Shielded(w, axis, w.sources[k].category)
  }

  /** No indexer files its torrents where a limit or an action rescues them that is not the global one. */
  ghost predicate NoSourceRescued(w: Trace.World)
    requires Trace.WellFormed(w)
  {
    forall k :: 0 <= k < |w.sources| && w.sources[k].Grabs() ==>
      && !ActionRescued(w, w.sources[k].category)
      && forall axis: Trace.Axis :: !Rescued(w, axis, w.sources[k].category)
  }

  /** On a client whose categories all defer, every indexer is in neither position. */
  lemma InheritedChangesNothing(w: Trace.World)
    requires Trace.WellFormed(w)
    requires forall c, axis: Trace.Axis :: c in w.categories ==> Trace.StoredLimit(w, axis, c) == Trace.DEFAULT_LIMIT
    requires forall c :: c in w.categories ==> w.categories[c].action == Trace.DEFAULT_ACTION
    ensures NoSourceShielded(w) && NoSourceRescued(w)
  {
    forall k | 0 <= k < |w.sources|
      ensures Trace.CategoryAction(w, w.sources[k].category) == w.action
      ensures forall axis: Trace.Axis ::
        Trace.CategoryLimit(w, axis, w.sources[k].category) == Trace.GlobalLimit(w, axis)
    {
      DeferringChangesNothing(w, w.sources[k].category);
    }
  }

  /** When no indexer's category shields its torrents and every goal is in reach, a check that PASSes
      with the categories struck out means no dead state is reachable. Nothing is asked about the seed
      criteria: a PASS holds however an unreadable one is read. */
  lemma PassNeverWedges(qbt: QbtInstance, arrs: seq<ArrInstance>, w: Trace.World)
    requires Trace.WellFormed(w) && Describes(qbt, arrs, w) && NoSourceShielded(w) && RatioGoalsInReach(w)
    requires Check(WithoutCategories(qbt), arrs).outcome == PASS
    ensures !Trace.WedgeReachable(w)
  {
    DescribedWithoutCategories(qbt, arrs, w);
    hide Check, Describes, RatioGoalsInReach, Trace.NeverStops, Trace.WedgeReachable, Shielded;
    WedgeReachableIff(w);
    PassHasAFirstSlot(WithoutCategories(qbt), arrs, Uncategorised(w));
    if Trace.Binding(w) {
      PassActionReleases(WithoutCategories(qbt), arrs, Uncategorised(w));
      if Trace.SomeHoldForever(w) {
        var k :| 0 <= k < |w.sources| && w.sources[k].Grabs() && Trace.HoldsForever(w, w.sources[k]);
        PassStopsEverySource(qbt, arrs, w, k);
      }
    }
  }

  /** A torrent of this indexer is released by the indexer's own goal, or by a limit it defers to and the
      category it is filed under resolves to. */
  ghost predicate ReleasedWhereFiled(w: Trace.World, x: IndexerFacts, category: string)
    requires Trace.WellFormed(w)
  {
    || !LacksSeedCriteria(x)
    || (Defers(x.seedRatio) && CanBeReached(Trace.CategoryLimit(w, Trace.Ratio, category)))
    || (Defers(x.seedTime) && CanBeReached(Trace.CategoryLimit(w, Trace.Minutes, category)))
  }

  lemma ReleasedWhereFiledStops(w: Trace.World, k: nat, x: IndexerFacts)
    requires Trace.WellFormed(w) && RatioGoalsInReach(w) && k < |w.sources| && IndexerRead(x, w.sources[k])
    requires ReleasedWhereFiled(w, x, w.sources[k].category)
    ensures !Trace.NeverStops(w, w.sources[k], w.largest)
  {
    GoalsOfSource(w, k);
    assert SeedCriteria(x)[0] == x.seedRatio && SeedCriteria(x)[1] == x.seedTime;
    hide Trace.NeverStops, Trace.CategoryLimit, RatioGoalsInReach;
    if IsASeedGoal(x.seedRatio) {
      GoalStops(w, w.sources[k], Trace.Ratio, x.seedRatio);
    } else if IsASeedGoal(x.seedTime) {
      GoalStops(w, w.sources[k], Trace.Minutes, x.seedTime);
    } else if Defers(x.seedRatio) && CanBeReached(Trace.CategoryLimit(w, Trace.Ratio, w.sources[k].category)) {
      CategoryStops(w, w.sources[k], Trace.Ratio);
    } else {
      CategoryStops(w, w.sources[k], Trace.Minutes);
    }
  }

  /** A PASS owed to a category's own limit is right where it should be: when every indexer without a
      goal files under a category that has a limit in reach the indexer defers to, and no category takes
      the action away. */
  lemma PassOwedToItsCategoryIsRight(qbt: QbtInstance, arrs: seq<ArrInstance>, w: Trace.World)
    requires Trace.WellFormed(w) && Describes(qbt, arrs, w) && RatioGoalsInReach(w)
    requires Check(qbt, arrs).outcome == PASS
    requires forall k :: 0 <= k < |w.sources| && w.sources[k].Grabs() ==>
      !ActionShielded(w, w.sources[k].category) && ReleasedWhereFiled(w, Indexers(arrs)[k], w.sources[k].category)
    ensures !Trace.WedgeReachable(w)
  {
    PassHasAFirstSlot(qbt, arrs, w);
    assert forall k :: 0 <= k < |w.sources| ==> IndexerRead(Indexers(arrs)[k], w.sources[k]);
    if Trace.Binding(w) {
      PassActionReleases(qbt, arrs, w);
    }
    hide Check, Describes, RatioGoalsInReach, Trace.NeverStops, Trace.WedgeReachable, Trace.NoFirstSlot,
      ReleasedWhereFiled, IndexerRead;
    WedgeReachableIff(w);
    if Trace.Binding(w) && Trace.SomeHoldForever(w) {
      var k :| 0 <= k < |w.sources| && w.sources[k].Grabs() && Trace.HoldsForever(w, w.sources[k]);
      ReleasedWhereFiledStops(w, k, Indexers(arrs)[k]);
    }
  }

  /** A queue either reaches a dead state or is live; there is nothing between. */
  lemma LiveUnlessWedged(w: Trace.World)
    requires Trace.WellFormed(w)
    ensures Trace.Live(w) <==> !Trace.WedgeReachable(w)
  {
    if !Trace.WedgeReachable(w) {
      forall run | Trace.Legal(w, [], run) && Trace.HasQueued(Trace.After(w, [], run))
        ensures exists more :: Trace.Legal(w, Trace.After(w, [], run), more) && Trace.StartsSomething(more)
      {
        assert !Trace.Dead(w, Trace.After(w, [], run));
      }
    } else {
      var run :| Trace.Legal(w, [], run) && Trace.Dead(w, Trace.After(w, [], run));
      assert !Trace.Live(w);
    }
  }

  /** PASS is live: on the same terms, from every reachable state with something queued some
      continuation starts a download. */
  lemma PassIsLive(qbt: QbtInstance, arrs: seq<ArrInstance>, w: Trace.World)
    requires Trace.WellFormed(w) && Describes(qbt, arrs, w) && NoSourceShielded(w) && RatioGoalsInReach(w)
    requires Check(WithoutCategories(qbt), arrs).outcome == PASS
    ensures Trace.Live(w)
  {
    hide Trace.Live, Trace.WedgeReachable, Check, Describes, NoSourceShielded, RatioGoalsInReach;
    PassNeverWedges(qbt, arrs, w);
    LiveUnlessWedged(w);
  }

  // ------------------------------------------------------------------ the exact characterisation

  predicate IsRead(fact: Fact) {
    fact.Known? && !fact.value.Null?
  }

  predicate IndexerIsRead(x: IndexerFacts) {
    && x.protocol.Known? && x.protocol.value.Str?
    && IsRead(x.enableRss) && IsRead(x.enableAutomaticSearch) && IsRead(x.enableInteractiveSearch)
    && !IsAnUnusableSeedCriterion(x.seedRatio) && !IsAnUnusableSeedCriterion(x.seedTime)
  }

  predicate LimitIsRead(category: map<string, Value>, key: string) {
    key in category ==> IsNumber(category[key])
  }

  predicate CategoryIsRead(category: Value) {
    category.Dict? && LimitIsRead(category.entries, RATIO_LIMIT) && LimitIsRead(category.entries, SEEDING_TIME_LIMIT)
  }

  /** Everything the checker consults came back as a value of its type; an absent inactive gate and
      an unset criterion are values too, and the ratio limit is consulted only where its flag is on. */
  ghost predicate FullyRead(qbt: QbtInstance, arrs: seq<ArrInstance>) {
    && IsRead(qbt.queueingEnabled) && IsRead(qbt.dontCountSlowTorrents)
    && ReadAsInt(qbt.maxActiveTorrents) && ReadAsInt(qbt.maxActiveDownloads) && ReadAsInt(qbt.maxRatioAct)
    && IsRead(qbt.maxRatioEnabled)
    && (Truthy(qbt.maxRatioEnabled.value) ==> qbt.maxRatio.Known? && IsNumber(qbt.maxRatio.value))
    && IsRead(qbt.maxSeedingTimeEnabled)
    && (IsRead(qbt.maxInactiveSeedingTimeEnabled) || qbt.maxInactiveSeedingTimeEnabled == Unknown(FieldAbsent))
    && qbt.categories.Known? && qbt.categories.value.Dict?
    && (forall c :: c in qbt.categories.value.entries ==> CategoryIsRead(qbt.categories.value.entries[c]))
    && arrs != []
    && forall k :: 0 <= k < |Indexers(arrs)| ==> IndexerIsRead(Indexers(arrs)[k])
  }

  /** Where nothing but an indexer's own goal could clear the seeding route, a PASS has read every
      indexer: each is known to grab no torrents, or was read to have a goal. An indexer whose protocol,
      toggles or criteria were never read is enough to keep such a stack from passing. */
  lemma PassReadEveryIndexer(qbt: QbtInstance, arrs: seq<ArrInstance>)
    requires Check(qbt, arrs).outcome == PASS
    requires var t := TableOf(qbt, arrs);
      t.noInactive == Holds && t.noRatio == Holds && t.noSeedTime == Holds && t.noCategory == Holds && Slots(t) == Holds
    ensures forall k :: 0 <= k < |Indexers(arrs)| ==>
      IsATorrentSource(Indexers(arrs)[k]) == Fails || !LacksSeedCriteria(Indexers(arrs)[k])
  {
    hide Check, TableOf, AnyTorrentIndexer;
    CheckByRoutes(qbt, arrs);
    AnyTorrentIndexerMeans(arrs, Lacks);
    var t := TableOf(qbt, arrs);
    assert t.lacks == AnyTorrentIndexer(arrs, Lacks) by { TableEntries(qbt, arrs); }
    assert RouteState(Seeding, t) == Fails;
    forall k | 0 <= k < |Indexers(arrs)|
      ensures IsATorrentSource(Indexers(arrs)[k]) == Fails || !LacksSeedCriteria(Indexers(arrs)[k])
    {
      assert Excluded(Indexers(arrs)[k], Lacks);
    }
  }

  lemma TableEntries(qbt: QbtInstance, arrs: seq<ArrInstance>)
    ensures TableOf(qbt, arrs).lacks == AnyTorrentIndexer(arrs, Lacks)
  {}

  lemma ReadShapesAreDecided(x: IndexerFacts)
    requires IndexerIsRead(x)
    ensures IsATorrentSource(x) != Undecided && Lacks(x) != Undecided && OverridesBothShareLimits(x) != Undecided
    ensures OverridesTheRatioLimit(x) != Undecided && OverridesTheSeedTimeLimit(x) != Undecided
  {}

  lemma ReadIndexersAreDecided(arrs: seq<ArrInstance>, matches: IndexerFacts -> Truth)
    requires arrs != [] && forall k :: 0 <= k < |Indexers(arrs)| ==>
      matches(Indexers(arrs)[k]) != Undecided && IsATorrentSource(Indexers(arrs)[k]) != Undecided
    ensures AnyTorrentIndexer(arrs, matches) != Undecided
  {
    AnyTorrentIndexerMeans(arrs, matches);
    if !AllExcluded(Indexers(arrs), matches) {
      var k :| 0 <= k < |Indexers(arrs)| && !Excluded(Indexers(arrs)[k], matches);
      assert Matches(Indexers(arrs)[k], matches);
    }
  }

  lemma FullyReadIndexersAreDecided(qbt: QbtInstance, arrs: seq<ArrInstance>)
    requires FullyRead(qbt, arrs)
    ensures var t := TableOf(qbt, arrs);
      t.lacks != Undecided && t.both != Undecided && t.ratio != Undecided && t.seedTime != Undecided
  {
    hide AnyTorrentIndexer;
    forall k | 0 <= k < |Indexers(arrs)|
      ensures IsATorrentSource(Indexers(arrs)[k]) != Undecided && Lacks(Indexers(arrs)[k]) != Undecided
        && OverridesBothShareLimits(Indexers(arrs)[k]) != Undecided
        && OverridesTheRatioLimit(Indexers(arrs)[k]) != Undecided
        && OverridesTheSeedTimeLimit(Indexers(arrs)[k]) != Undecided
    {
      ReadShapesAreDecided(Indexers(arrs)[k]);
    }
    ReadIndexersAreDecided(arrs, Lacks);
    ReadIndexersAreDecided(arrs, OverridesBothShareLimits);
    ReadIndexersAreDecided(arrs, OverridesTheRatioLimit);
    ReadIndexersAreDecided(arrs, OverridesTheSeedTimeLimit);
  }

  lemma FullyReadClientIsDecided(qbt: QbtInstance, arrs: seq<ArrInstance>)
    requires FullyRead(qbt, arrs)
    ensures var t := TableOf(qbt, arrs);
      && t.queueing != Undecided && t.noSlot != Undecided && t.binds != Undecided && t.slowOff != Undecided
      && t.noInactive != Undecided && t.noRatio != Undecided && t.noSeedTime != Undecided
      && t.noCategory != Undecided && t.action != Undecided
  {
    hide AnyTorrentIndexer, NoCategorySetsItsOwnLimit;
    NoCategoryMeans(qbt);
  }

  lemma DecidedRoute(c: Route, t: Table)
    requires !t.queueing.Undecided? && !t.noSlot.Undecided? && !t.binds.Undecided? && !t.slowOff.Undecided?
    requires !t.noInactive.Undecided? && !t.noRatio.Undecided? && !t.noSeedTime.Undecided?
    requires !t.noCategory.Undecided? && !t.action.Undecided?
    requires !t.lacks.Undecided? && !t.both.Undecided? && !t.ratio.Undecided? && !t.seedTime.Undecided?
    ensures !RouteState(c, t).Undecided?
  {
    hide Strict;
  }

  /** A fully read snapshot is always decided. */
  lemma FullyReadIsDecided(qbt: QbtInstance, arrs: seq<ArrInstance>)
    requires FullyRead(qbt, arrs)
    ensures Check(qbt, arrs).outcome in {PASS, FAIL}
  {
    hide FullyRead, Check, TableOf, RouteState;
    FullyReadIndexersAreDecided(qbt, arrs);
    FullyReadClientIsDecided(qbt, arrs);
    CheckByRoutes(qbt, arrs);
    forall c: Route
      ensures RouteState(c, TableOf(qbt, arrs)) != Undecided
    {
      DecidedRoute(c, TableOf(qbt, arrs));
    }
  }

  lemma NothingUnreadableToNote(arrs: seq<ArrInstance>)
    requires forall k :: 0 <= k < |Indexers(arrs)| ==> IndexerIsRead(Indexers(arrs)[k])
    ensures IndexersWithUnreadableSeedCriteria(arrs) == []
  {
    hide FedThePremiseAnUnreadableCriterion, IndexerIsRead;
    NoteNamesExactly(arrs);
    if IndexersWithUnreadableSeedCriteria(arrs) != [] {
      assert IndexersWithUnreadableSeedCriteria(arrs)[0] in IndexersWithUnreadableSeedCriteria(arrs);
      var a, x :| a in arrs && x in a.indexers && FedThePremiseAnUnreadableCriterion(x);
      IndexersAreOfArrs(arrs, x);
      var k :| 0 <= k < |Indexers(arrs)| && Indexers(arrs)[k] == x;
      ReadCriteriaAreUsable(x);
    }
  }

  lemma ReadCriteriaAreUsable(x: IndexerFacts)
    requires IndexerIsRead(x)
    ensures !FedThePremiseAnUnreadableCriterion(x)
  {}

  lemma SameWithoutCategories(w: Trace.World)
    requires Trace.WellFormed(w)
    ensures Trace.WellFormed(Uncategorised(w)) && (SeedTimesFit(Uncategorised(w)) <==> SeedTimesFit(w))
    ensures NoSourceShielded(Uncategorised(w)) && NoSourceRescued(Uncategorised(w))
  {
    InheritedChangesNothing(Uncategorised(w));
  }

  /** An indexer nothing releases, had the client no categories, is one nothing releases where it files
      its torrents, unless that category rescues them. */
  lemma UnrescuedStaysUnreleased(w: Trace.World, x: IndexerFacts, category: string)
    requires Trace.WellFormed(w) && Unreleased(Uncategorised(w), x, category)
    requires forall axis: Trace.Axis :: !Rescued(w, axis, category)
    ensures Unreleased(w, x, category)
  {
    DeferringChangesNothing(Uncategorised(w), category);
    assert forall axis: Trace.Axis :: Trace.GlobalLimit(Uncategorised(w), axis) == Trace.GlobalLimit(w, axis);
    assert !Rescued(w, Trace.Ratio, category) && !Rescued(w, Trace.Minutes, category);
    assert !Rescued(w, Trace.Inactive, category);
  }

  /** What a firm seeder route of the snapshot without its categories has shown of the client as it is. */
  lemma FirmWithoutCategories(qbt: QbtInstance, arrs: seq<ArrInstance>, w: Trace.World, conflict: Route, k: nat)
    requires Trace.WellFormed(w) && Describes(qbt, arrs, w) && SeedTimesFit(w) && NoSourceRescued(w)
    requires conflict in SEED_CRITERIA_CONFLICTS && FirmIndexer(conflict, arrs, k)
    requires RouteState(conflict, TableOf(WithoutCategories(qbt), arrs)) == Holds
    ensures k < |w.sources| && w.sources[k].Grabs() && Trace.NeverStops(w, w.sources[k], w.largest)
  {
    var bare, u := WithoutCategories(qbt), Uncategorised(w);
    DescribedWithoutCategories(qbt, arrs, w);
    SameWithoutCategories(w);
    assert k < |w.sources| && IndexerRead(Indexers(arrs)[k], w.sources[k]);
    hide Describes, RouteState, TableOf, SeedTimesFit, Trace.NeverStops, Unreleased, Rescued, IndexerRead, Shape,
      BothCriteriaUsable;
    FirmIndexerIsUnreleased(conflict, bare, arrs, u, k);
    hide FirmIndexer;
    UnrescuedStaysUnreleased(w, Indexers(arrs)[k], w.sources[k].category);
    assert BothCriteriaUsable(Indexers(arrs)[k]) by { FirmIndexerIsUsable(conflict, arrs, k); }
    UnreleasedNeverStops(w, k, Indexers(arrs)[k], w.largest);
  }

  lemma FirmIndexerIsUsable(conflict: Route, arrs: seq<ArrInstance>, k: int)
    requires FirmIndexer(conflict, arrs, k)
    ensures 0 <= k < |Indexers(arrs)| && BothCriteriaUsable(Indexers(arrs)[k])
  {}

  /** A firm route of the snapshot without its categories is right about the client as it is, when no
      indexer files its torrents where a category rescues them. */
  lemma FailWithoutCategoriesIsSound(qbt: QbtInstance, arrs: seq<ArrInstance>, w: Trace.World, conflict: Route)
    requires Trace.WellFormed(w) && Describes(qbt, arrs, w) && Trace.HasSource(w)
    requires SeedTimesFit(w) && NoSourceRescued(w)
    requires Firm(conflict, WithoutCategories(qbt), arrs)
    ensures Trace.WedgeReachable(w)
  {
    DescribedWithoutCategories(qbt, arrs, w);
    HoldingRouteMeans(conflict, WithoutCategories(qbt), arrs, Uncategorised(w));
    hide Describes, RouteState, TableOf, Trace.WedgeReachable, SeedTimesFit, Trace.NeverStops, Rescued, FirmIndexer,
      Trace.WellFormed;
    WedgeReachableIff(w);
    if conflict in SEED_CRITERIA_CONFLICTS {
      var k :| FirmIndexer(conflict, arrs, k);
      assert k >= 0 by { FirmIndexerIsUsable(conflict, arrs, k); }
      FirmWithoutCategories(qbt, arrs, w, conflict, k);
      assert Trace.HoldsForever(w, w.sources[k]);
    } else if conflict == Action {
      var k :| 0 <= k < |w.sources| && w.sources[k].Grabs();
      assert Trace.HoldsForever(w, w.sources[k]);
    }
  }

  /** The verdict is exact up to the categories. On a fully read snapshot of a stack that grabs
      torrents, whose goals are in reach and whose indexers file under categories that neither shield
      nor rescue their torrents, the verdict with the categories struck out is FAIL if a dead state is
      reachable and PASS if none is. */
  lemma VerdictWithoutCategoriesIsExact(qbt: QbtInstance, arrs: seq<ArrInstance>, w: Trace.World)
    requires FullyRead(qbt, arrs)
    requires Trace.WellFormed(w) && Describes(qbt, arrs, w) && Trace.HasSource(w)
    requires NoSourceShielded(w) && NoSourceRescued(w) && RatioGoalsInReach(w) && SeedTimesFit(w)
    ensures Check(WithoutCategories(qbt), arrs).outcome == if Trace.WedgeReachable(w) then FAIL else PASS
  {
    var bare := WithoutCategories(qbt);
    assert FullyRead(bare, arrs);
    hide FullyRead, Describes, Check, Trace.WedgeReachable, Trace.WellFormed, NoSourceShielded, NoSourceRescued,
      RatioGoalsInReach, Firm;
    FullyReadIsDecided(bare, arrs);
    if Check(bare, arrs).outcome == PASS {
      PassNeverWedges(qbt, arrs, w);
    } else {
      FailWithNothingUnreadable(bare, arrs);
      FailedRouteHolds(bare, arrs);
      FirmWithoutANote(Check(bare, arrs).conflict, bare, arrs);
      FailWithoutCategoriesIsSound(qbt, arrs, w, Check(bare, arrs).conflict);
    }
  }

  /** So for such a client the verdict itself is exact if and only if it stands without the categories;
      where it does not, it is a PASS owed to a category no indexer is helped by, over a reachable dead
      state. */
  lemma VerdictIsExact(qbt: QbtInstance, arrs: seq<ArrInstance>, w: Trace.World)
    requires FullyRead(qbt, arrs)
    requires Trace.WellFormed(w) && Describes(qbt, arrs, w) && Trace.HasSource(w)
    requires NoSourceShielded(w) && NoSourceRescued(w) && RatioGoalsInReach(w) && SeedTimesFit(w)
    ensures StandsWithoutCategories(qbt, arrs) <==>
      Check(qbt, arrs).outcome == if Trace.WedgeReachable(w) then FAIL else PASS
    ensures !StandsWithoutCategories(qbt, arrs) ==> Check(qbt, arrs).outcome == PASS && Trace.WedgeReachable(w)
  {
    hide FullyRead, Describes, Check, Trace.WedgeReachable, Trace.WellFormed, NoSourceShielded, NoSourceRescued,
      RatioGoalsInReach;
    VerdictWithoutCategoriesIsExact(qbt, arrs, w);
    FullyReadIsDecided(qbt, arrs);
    StandsUnlessACategoryReleases(qbt, arrs);
  }

  lemma FailWithNothingUnreadable(qbt: QbtInstance, arrs: seq<ArrInstance>)
    requires FullyRead(qbt, arrs) && Check(qbt, arrs).outcome == FAIL
    ensures Check(qbt, arrs).detail == []
  {
    NothingUnreadableToNote(arrs);
    hide RoutePremises, RouteFinding, RouteState;
    forall j | 0 <= j < |ROUTES|
      ensures Explains(Routes(qbt, arrs)[j], RoutePremises(ROUTES[j], qbt, arrs))
    {
      FindingOfRoute(ROUTES, qbt, arrs, j);
      RouteMeans(ROUTES[j], qbt, arrs);
    }
  }
}
