/** Concrete clients on which a verdict is wrong, each with the way out it takes. Five PASS and can still
    wedge: a category shields its torrents from a global limit, from the inactive gate or from the action;
    or a category's own limit clears the routes for torrents filed elsewhere, or for torrents filed under
    it that never consult it. A sixth is the price of one ratio ceiling for every torrent. Three FAIL and
    cannot wedge: a category arms an inactive limit, or frees the slot, where the global setting does not,
    or a criterion could not be read. One PASSes, rightly, because of the category it files under. And three
    SKIP though the reading they ask for could decide nothing, one for each of WaysToSkipForNothing. */
module KnownMisses {
  import opened Facts
  import opened Outcomes
  import opened Combinator
  import opened QueueLiveness
  import opened Verdicts
  import opened Quantifier
  import opened OneIndexer
  import opened SeedRatio
  import opened Ieee
  import Trace = QueueTrace
  import opened Soundness
  import opened Completeness
  import opened WedgeTheorem
  import opened Earned

  // ------------------------------------------------------------------ one client

  /** How a client is set up: whether the global ratio limit, 2.0, and the global inactive gate, ten
      minutes, are on, and the global action. It manages its queue, its slots bind, and the global seed
      time is off. */
  datatype Settings = Settings(ratioOn: bool, inactiveOn: bool, action: int)

  function Client(g: Settings, categories: map<string, Value>): QbtInstance {
    QbtInstance(
      "main", Known(Bool(true)), Known(Int(6)), Known(Int(3)), Known(Int(5)), Known(Bool(false)),
      Known(Bool(g.ratioOn)), Known(Float(Finite(2.0))), Known(Int(g.action)), Known(Bool(false)), Known(Int(-1)),
      Known(Bool(g.inactiveOn)), Known(Dict(categories)))
  }

  /** One indexer, whose torrents carry this ratio and are filed under this category; every category sits
      directly under the root. */
  function ClientWorld(g: Settings, categories: map<string, Trace.CategoryOptions>, ratio: Number,
                       category: string, largest: int): Trace.World
  {
    Trace.World(
      true, 6, 5, false, if g.ratioOn then Finite(2.0) else Finite(-1.0), -1, if g.inactiveOn then 10 else -1,
      g.action, categories, c => "", c => |c|,
      [Trace.Source(true, true, true, true, ratio, Trace.DEFAULT_LIMIT, category)], largest)
  }

  /** Such a client is described by its own snapshot, when its categories and criterion are. */
  lemma ClientIsDescribed(g: Settings, entries: map<string, Value>, seedRatio: Fact, w: Trace.World,
                          categories: map<string, Trace.CategoryOptions>, ratio: Number, category: string, largest: int)
    requires w == ClientWorld(g, categories, ratio, category, largest) && 1 <= largest <= INT64_MAX
    requires CategoriesRead(Known(Dict(entries)), categories) && CriterionRead(seedRatio, ratio)
    requires forall c :: c in categories ==>
      Trace.Int32(categories[c].minutes) && Trace.Int32(categories[c].inactiveMinutes)
    ensures Trace.WellFormed(w) && Describes(Client(g, entries), Stack(seedRatio), w)
    ensures Trace.HasSource(w) && Trace.Binding(w) && !Trace.NoFirstSlot(w) && SeedTimesFit(w)
  {
    StackIndexers(seedRatio);
    assert w.sources[0].Grabs();
  }

  ghost predicate SomeCategoryReleases(entries: map<string, Value>) {
    exists c :: c in entries && CategorySetsItsOwnLimit(entries[c]) == Holds
  }

  lemma ClientTable(g: Settings, entries: map<string, Value>, arrs: seq<ArrInstance>)
    requires forall c :: c in entries ==> CategorySetsItsOwnLimit(entries[c]) != Undecided
    ensures var t := TableOf(Client(g, entries), arrs);
      && t.queueing == Holds && t.noSlot == Fails && t.binds == Holds && t.slowOff == Holds
      && t.action == Decided(!Trace.Releases(g.action))
      && t.noInactive == Decided(!g.inactiveOn) && t.noRatio == Decided(!g.ratioOn)
      && t.noSeedTime == Holds && t.noCategory == Decided(!SomeCategoryReleases(entries))
  {
    var qbt := Client(g, entries);
    NoCategoryMeans(qbt);
    assert BlocksAFirstStart(qbt.maxActiveTorrents) == Fails && BlocksAFirstStart(qbt.maxActiveDownloads) == Fails;
    hide AnyTorrentIndexer, NoCategorySetsItsOwnLimit;
  }

  lemma Passes(qbt: QbtInstance, arrs: seq<ArrInstance>)
    requires var t := TableOf(qbt, arrs);
      && t.noSlot == Fails && t.action == Fails && t.both == Fails && t.seedTime == Fails
      && (t.ratio == Fails || t.noCategory == Fails)
      && (t.noInactive == Fails || t.noRatio == Fails || t.noCategory == Fails || t.lacks == Fails)
      && t.queueing != Undecided && t.binds != Undecided && t.slowOff != Undecided && t.noInactive != Undecided
      && t.noRatio != Undecided && t.noSeedTime != Undecided && t.noCategory != Undecided && t.lacks != Undecided
      && t.ratio != Undecided
    ensures Check(qbt, arrs).outcome == PASS
  {
    hide Check, TableOf;
    CheckByRoutes(qbt, arrs);
    var t := TableOf(qbt, arrs);
    forall c: Route
      ensures RouteState(c, t) == Fails
    {
      DecidedRoute(c, t);
    }
  }

  /** Such a client passes when a global limit, the inactive gate, a category or the indexer's own goal
      clears the seeding route and nothing overrides. */
  lemma ClientPasses(g: Settings, entries: map<string, Value>, seedRatio: Fact)
    requires Trace.Releases(g.action) && OverridesTheShareLimit(seedRatio) == Fails
    requires g.ratioOn || g.inactiveOn || SomeCategoryReleases(entries) || IsASeedGoal(seedRatio)
    requires forall c :: c in entries ==> CategorySetsItsOwnLimit(entries[c]) != Undecided
    ensures Check(Client(g, entries), Stack(seedRatio)).outcome == PASS
  {
    ClientTable(g, entries, Stack(seedRatio));
    LacksTable(seedRatio);
    NoOverride(seedRatio);
    hide Client, Stack, AnyTorrentIndexer, OverridesTheShareLimit, IsASeedGoal, Check;
    Passes(Client(g, entries), Stack(seedRatio));
  }

  lemma SeedingOrAction(t: Table)
    requires t.queueing == Holds && t.binds == Holds && t.slowOff == Holds
    requires t.action == Holds
          || (t.noInactive == Holds && t.noRatio == Holds && t.noSeedTime == Holds && t.noCategory == Holds
              && t.lacks == Holds)
    ensures RouteState(Seeding, t) == Holds || RouteState(Action, t) == Holds
  {}

  /** It fails when nothing clears the seeding route, or when the action frees nothing. */
  lemma ClientFails(g: Settings, entries: map<string, Value>, seedRatio: Fact)
    requires forall c :: c in entries ==> CategorySetsItsOwnLimit(entries[c]) == Fails
    requires (!g.ratioOn && !g.inactiveOn && !IsASeedGoal(seedRatio)) || !Trace.Releases(g.action)
    ensures Check(Client(g, entries), Stack(seedRatio)).outcome == FAIL
  {
    var qbt, arrs := Client(g, entries), Stack(seedRatio);
    ClientTable(g, entries, arrs);
    LacksTable(seedRatio);
    assert TableOf(qbt, arrs).lacks == AnyTorrentIndexer(arrs, Lacks);
    hide Check, Client, Stack, AnyTorrentIndexer, TableOf, IsASeedGoal;
    CheckByRoutes(qbt, arrs);
    SeedingOrAction(TableOf(qbt, arrs));
  }

  lemma ClientIsFullyRead(g: Settings, entries: map<string, Value>, seedRatio: Fact)
    requires forall c :: c in entries ==> CategoryIsRead(entries[c])
    requires !IsAnUnusableSeedCriterion(seedRatio)
    ensures FullyRead(Client(g, entries), Stack(seedRatio))
  {
    StackIndexers(seedRatio);
  }

  /** What a category directly under the root resolves to. */
  lemma ResolvesTo(w: Trace.World, axis: Trace.Axis, category: string)
    requires Trace.WellFormed(w) && category != "" && w.parent(category) == ""
    ensures Trace.CategoryLimit(w, axis, category) ==
      if Trace.StoredLimit(w, axis, category) == Trace.DEFAULT_LIMIT then Trace.GlobalLimit(w, axis)
      else Trace.StoredLimit(w, axis, category)
    ensures Trace.CategoryAction(w, category) ==
      if category in w.categories && w.categories[category].action != Trace.DEFAULT_ACTION
      then w.categories[category].action else w.action
  {
    assert Trace.CategoryAction(w, "") == w.action && Trace.CategoryLimit(w, axis, "") == Trace.GlobalLimit(w, axis);
  }

  lemma ResolvesOnEveryAxis(w: Trace.World, category: string)
    requires Trace.WellFormed(w) && category != "" && w.parent(category) == ""
    ensures forall axis: Trace.Axis ::
      Trace.CategoryLimit(w, axis, category) ==
        if Trace.StoredLimit(w, axis, category) == Trace.DEFAULT_LIMIT then Trace.GlobalLimit(w, axis)
        else Trace.StoredLimit(w, axis, category)
    ensures Trace.CategoryAction(w, category) ==
      if category in w.categories && w.categories[category].action != Trace.DEFAULT_ACTION
      then w.categories[category].action else w.action
  {
    ResolvesTo(w, Trace.Ratio, category);
    ResolvesTo(w, Trace.Minutes, category);
    ResolvesTo(w, Trace.Inactive, category);
  }

  /** Two negative limits and a ratio out of reach: no arm can fire. */
  lemma NeverStopsFor(w: Trace.World, source: Trace.Source)
    requires Trace.WellFormed(w)
    requires !AtMost(Finite(0.0), Trace.EffectiveLimit(w, source, Trace.Minutes))
    requires !AtMost(Finite(0.0), Trace.EffectiveLimit(w, source, Trace.Inactive))
    requires !Trace.Attainable(Trace.Ratio, Trace.EffectiveLimit(w, source, Trace.Ratio), w.largest)
    ensures Trace.NeverStops(w, source, w.largest)
  {
    hide Trace.EffectiveLimit, RealRatio;
  }

  lemma HoldingWedges(w: Trace.World)
    requires Trace.WellFormed(w) && Trace.Binding(w) && |w.sources| == 1 && w.sources[0].Grabs()
    requires Trace.HoldsForever(w, w.sources[0])
    ensures Trace.WedgeReachable(w)
  {
    hide Trace.WellFormed, Trace.HoldsForever, Trace.WedgeReachable;
    WedgeReachableIff(w);
  }

  lemma ReleasingNeverWedges(w: Trace.World, axis: Trace.Axis)
    requires Trace.WellFormed(w) && !Trace.NoFirstSlot(w) && |w.sources| == 1
    requires Trace.Releases(Trace.EffectiveAction(w, w.sources[0]))
    requires Trace.Attainable(axis, Trace.EffectiveLimit(w, w.sources[0], axis), w.largest)
    ensures !Trace.WedgeReachable(w)
  {
    hide Trace.WellFormed, Trace.WedgeReachable, Trace.EffectiveLimit, Trace.EffectiveAction, Trace.Attainable,
      Trace.NoFirstSlot;
    WedgeReachableIff(w);
  }

  // ------------------------------------------------------------------ categories as they are stored

  const INHERITS: Value := Dict(map[])
  const UNLIMITED_RATIO: Value := Dict(map[RATIO_LIMIT := Int(-1)])
  const RATIO_OF_ONE: Value := Dict(map[RATIO_LIMIT := Int(1)])

  lemma CategoryStates()
    ensures RATIO_LIMIT != SEEDING_TIME_LIMIT
    ensures CategorySetsItsOwnLimit(INHERITS) == Fails && CategorySetsItsOwnLimit(UNLIMITED_RATIO) == Fails
    ensures CategorySetsItsOwnLimit(RATIO_OF_ONE) == Holds
  {
    assert |RATIO_LIMIT| == 11 && |SEEDING_TIME_LIMIT| == 18;
    var limits := RATIO_OF_ONE.entries;
    var states := [OwnShareLimit(limits, RATIO_LIMIT), OwnShareLimit(limits, SEEDING_TIME_LIMIT)];
    assert states[0] == Holds;
  }

  const NOTHING_ON: Settings := Settings(false, false, 3)
  const DEFERS_ALL: Trace.CategoryOptions :=
    Trace.CategoryOptions(Trace.DEFAULT_LIMIT, -2, -2, Trace.DEFAULT_ACTION)

  // ------------------------------------------------------------------ wrong PASSes

  /** A category set to "unlimited" beside a global ratio limit: the global is never consulted for its
      torrents, and the check reports PASS. */
  lemma UnlimitedCategoryIsMissed() returns (qbt: QbtInstance, arrs: seq<ArrInstance>, w: Trace.World)
    ensures Trace.WellFormed(w) && Describes(qbt, arrs, w)
    ensures qbt.categories == Known(Dict(map["tv" := UNLIMITED_RATIO])) && Shielded(w, Trace.Ratio, "tv")
    ensures Check(qbt, arrs).outcome == PASS && Trace.WedgeReachable(w)
  {
    hide Check, Describes, Trace.WedgeReachable, AnyTorrentIndexer;
    var g, seedRatio, entries := Settings(true, false, 3), Unknown(FieldAbsent), map["tv" := UNLIMITED_RATIO];
    var categories := map["tv" := DEFERS_ALL.(ratio := Finite(-1.0))];
    CategoryStates();
    qbt, arrs, w := Client(g, entries), Stack(seedRatio), ClientWorld(g, categories, Trace.DEFAULT_LIMIT, "tv", 1);
    ClientIsDescribed(g, entries, seedRatio, w, categories, Trace.DEFAULT_LIMIT, "tv", 1);
    ClientPasses(g, entries, seedRatio);
    hide Client, Stack, RealRatio, Trace.CategoryLimit, Trace.NeverStops;
    ResolvesOnEveryAxis(w, "tv");
    NeverStopsFor(w, w.sources[0]);
    HoldingWedges(w);
  }

  /** A category that turns its own inactive limit off beside a global one: the checker does not read
      the key, and reports PASS. */
  lemma CategoryInactiveLimitIsMissed() returns (qbt: QbtInstance, arrs: seq<ArrInstance>, w: Trace.World)
    ensures Trace.WellFormed(w) && Describes(qbt, arrs, w)
    ensures w.categories == map["tv" := DEFERS_ALL.(inactiveMinutes := -1)] && Shielded(w, Trace.Inactive, "tv")
    ensures Check(qbt, arrs).outcome == PASS && Trace.WedgeReachable(w)
  {
    hide Check, Describes, Trace.WedgeReachable, AnyTorrentIndexer;
    var g, seedRatio, entries := Settings(false, true, 3), Unknown(FieldAbsent), map["tv" := INHERITS];
    var categories := map["tv" := DEFERS_ALL.(inactiveMinutes := -1)];
    CategoryStates();
    qbt, arrs, w := Client(g, entries), Stack(seedRatio), ClientWorld(g, categories, Trace.DEFAULT_LIMIT, "tv", 1);
    ClientIsDescribed(g, entries, seedRatio, w, categories, Trace.DEFAULT_LIMIT, "tv", 1);
    ClientPasses(g, entries, seedRatio);
    hide Client, Stack, RealRatio, Trace.CategoryLimit, Trace.NeverStops;
    ResolvesOnEveryAxis(w, "tv");
    NeverStopsFor(w, w.sources[0]);
    HoldingWedges(w);
  }

  /** A category whose action is super seeding, beside a global limit and a global action that frees the
      slot: every limit is reached, and nothing is released. The checker reads the global action only,
      and reports PASS, with or without the categories. */
  lemma CategoryActionIsMissed() returns (qbt: QbtInstance, arrs: seq<ArrInstance>, w: Trace.World)
    ensures Trace.WellFormed(w) && Describes(qbt, arrs, w) && FullyRead(qbt, arrs) && SeedTimesFit(w)
    ensures w.categories == map["tv" := DEFERS_ALL.(action := 2)] && ActionShielded(w, "tv")
    ensures Check(qbt, arrs).outcome == PASS && StandsWithoutCategories(qbt, arrs) && Trace.WedgeReachable(w)
  {
    hide Check, Describes, Trace.WedgeReachable, AnyTorrentIndexer, FullyRead;
    var g, seedRatio, entries := Settings(true, false, 3), Unknown(FieldAbsent), map["tv" := INHERITS];
    var categories := map["tv" := DEFERS_ALL.(action := 2)];
    CategoryStates();
    qbt, arrs, w := Client(g, entries), Stack(seedRatio), ClientWorld(g, categories, Trace.DEFAULT_LIMIT, "tv", 1);
    ClientIsDescribed(g, entries, seedRatio, w, categories, Trace.DEFAULT_LIMIT, "tv", 1);
    ClientIsFullyRead(g, entries, seedRatio);
    ClientPasses(g, entries, seedRatio);
    ClientPasses(g, map[], seedRatio);
    assert WithoutCategories(qbt) == Client(g, map[]);
    hide Client, Stack, Trace.CategoryLimit, Trace.NeverStops;
    ResolvesOnEveryAxis(w, "tv");
    HoldingWedges(w);
  }

  /** One category with a limit of its own clears the seeding route for the whole client. On a stack
      with no goal and no global limit, torrents filed under any other category never stop; the check,
      having read everything, reports PASS. Nothing is shielded: the verdict rests on that category. */
  lemma OneReleasingCategoryHidesTheRest() returns (qbt: QbtInstance, arrs: seq<ArrInstance>, w: Trace.World)
    ensures Trace.WellFormed(w) && Describes(qbt, arrs, w) && FullyRead(qbt, arrs)
    ensures qbt.categories == Known(Dict(map["movies" := RATIO_OF_ONE])) && |w.sources| == 1
    ensures w.sources[0].category == "tv"
    ensures NoSourceShielded(w) && NoSourceRescued(w)
    ensures Check(qbt, arrs).outcome == PASS && Trace.WedgeReachable(w)
  {
    hide Check, Describes, Trace.WedgeReachable, AnyTorrentIndexer, FullyRead;
    var g, seedRatio, entries := NOTHING_ON, Unknown(FieldAbsent), map["movies" := RATIO_OF_ONE];
    var categories := map["movies" := DEFERS_ALL.(ratio := Finite(1.0))];
    CategoryStates();
    assert "movies" in entries && |"movies"| == 6 && |"tv"| == 2;
    qbt, arrs, w := Client(g, entries), Stack(seedRatio), ClientWorld(g, categories, Trace.DEFAULT_LIMIT, "tv", 1);
    ClientIsDescribed(g, entries, seedRatio, w, categories, Trace.DEFAULT_LIMIT, "tv", 1);
    ClientIsFullyRead(g, entries, seedRatio);
    ClientPasses(g, entries, seedRatio);
    hide Client, Stack, RealRatio, Trace.CategoryLimit, Trace.NeverStops;
    ResolvesOnEveryAxis(w, "tv");
    NeverStopsFor(w, w.sources[0]);
    HoldingWedges(w);
  }

  /** An indexer that overrides the ratio never consults its category's ratio limit, but the category
      premise counts that limit all the same: torrents filed under that very category never stop, and the
      check reports PASS. This one is documented. */
  lemma UnconsultedLimitHidesAnOverride() returns (qbt: QbtInstance, arrs: seq<ArrInstance>, w: Trace.World)
    ensures Trace.WellFormed(w) && Describes(qbt, arrs, w)
    ensures qbt.categories == Known(Dict(map["tv" := RATIO_OF_ONE])) && |w.sources| == 1
    ensures w.sources[0].category == "tv"
    ensures Check(qbt, arrs).outcome == PASS && Trace.WedgeReachable(w)
  {
    hide Check, Describes, Trace.WedgeReachable, AnyTorrentIndexer;
    var g, seedRatio, entries := NOTHING_ON, Known(Int(-1)), map["tv" := RATIO_OF_ONE];
    var categories := map["tv" := DEFERS_ALL.(ratio := Finite(1.0))];
    CategoryStates();
    assert "tv" in entries;
    qbt, arrs, w := Client(g, entries), Stack(seedRatio), ClientWorld(g, categories, Finite(-1.0), "tv", 1);
    ClientIsDescribed(g, entries, seedRatio, w, categories, Finite(-1.0), "tv", 1);
    ClientTable(g, entries, arrs);
    LacksTable(seedRatio);
    OverriddenRatioTable(seedRatio);
    hide Client, Stack, RealRatio, Trace.CategoryLimit, Trace.NeverStops;
    Passes(qbt, arrs);
    ResolvesOnEveryAxis(w, "tv");
    NeverStopsFor(w, w.sources[0]);
    HoldingWedges(w);
  }

  /** A ratio goal at the ceiling is reached by a torrent that downloaded one byte, and by no other. */
  lemma TwoBytesHalveTheRatio()
    ensures RealRatio(INT64_MAX, 2).r < MAX_REACHABLE_SEED_RATIO
  {
    hide Round;
    RoundOfInt64Max();
    Pow2Of63();
    RoundPow2(1);
    RoundPow2(62);
    Pow2Doubles(62);
    Pow2Doubles(0);
    Pow2Zero();
    assert Round(2.0) == 2.0;
    assert MAX_REACHABLE_SEED_RATIO / 2.0 == Pow2(62);
  }

  /** The largest seed ratio CanBeReached accepts. */
  const CEILING: Number := Finite(MAX_REACHABLE_SEED_RATIO)

  lemma CeilingIsAGoalOutOfReach()
    ensures IsASeedGoal(Known(Float(CEILING))) && OverridesTheShareLimit(Known(Float(CEILING))) == Fails
    ensures CEILING != Trace.DEFAULT_LIMIT && !Trace.Attainable(Trace.Ratio, CEILING, 2)
  {
    TwoBytesHalveTheRatio();
  }

  /** The ceiling is one number for every torrent, but the ratio a torrent can reach shrinks with what
      it downloaded: a goal at the ceiling, on a client that downloads two bytes, passes and wedges. */
  lemma GoalBeyondTheDownloadIsMissed() returns (qbt: QbtInstance, arrs: seq<ArrInstance>, w: Trace.World)
    ensures Trace.WellFormed(w) && Describes(qbt, arrs, w) && w.categories == map[] && w.largest == 2
    ensures Check(qbt, arrs).outcome == PASS && Trace.WedgeReachable(w)
  {
    hide Check, Describes, Trace.WedgeReachable, AnyTorrentIndexer;
    var g, seedRatio := NOTHING_ON, Known(Float(CEILING));
    qbt, arrs, w := Client(g, map[]), Stack(seedRatio), ClientWorld(g, map[], CEILING, "tv", 2);
    CeilingIsAGoalOutOfReach();
    hide Trace.CategoryLimit, Trace.NeverStops, Trace.Attainable, OverridesTheShareLimit, IsASeedGoal, CEILING;
    ClientIsDescribed(g, map[], seedRatio, w, map[], CEILING, "tv", 2);
    ClientPasses(g, map[], seedRatio);
    ResolvesOnEveryAxis(w, "tv");
    NeverStopsFor(w, w.sources[0]);
    HoldingWedges(w);
  }

  // ------------------------------------------------------------------ a right PASS

  /** The same category limit that hides the rest is what makes the PASS right for torrents filed under
      it, though the verdict does not stand without it. */
  lemma ReleasingCategoryFiledUnderIsRight() returns (qbt: QbtInstance, arrs: seq<ArrInstance>, w: Trace.World)
    ensures Trace.WellFormed(w) && Describes(qbt, arrs, w) && Trace.HasSource(w)
    ensures qbt.categories == Known(Dict(map["movies" := RATIO_OF_ONE])) && |w.sources| == 1
    ensures w.sources[0].category == "movies"
    ensures Check(qbt, arrs).outcome == PASS && !Trace.WedgeReachable(w) && !StandsWithoutCategories(qbt, arrs)
  {
    hide Check, Describes, Trace.WedgeReachable, AnyTorrentIndexer;
    var g, seedRatio, entries := NOTHING_ON, Unknown(FieldAbsent), map["movies" := RATIO_OF_ONE];
    var categories := map["movies" := DEFERS_ALL.(ratio := Finite(1.0))];
    CategoryStates();
    assert "movies" in entries;
    qbt, arrs, w := Client(g, entries), Stack(seedRatio), ClientWorld(g, categories, Trace.DEFAULT_LIMIT, "movies", 1);
    ClientIsDescribed(g, entries, seedRatio, w, categories, Trace.DEFAULT_LIMIT, "movies", 1);
    ClientPasses(g, entries, seedRatio);
    ClientFails(g, map[], seedRatio);
    assert WithoutCategories(qbt) == Client(g, map[]);
    LargestRatio();
    hide Client, Stack, Trace.CategoryLimit, RealRatio;
    ResolvesOnEveryAxis(w, "movies");
    ReleasingNeverWedges(w, Trace.Ratio);
  }

  // ------------------------------------------------------------------ wrong FAILs

  /** A category that arms its own inactive limit where the global gate is off: its torrents are released
      after ten idle minutes, nothing ever wedges, and the check, which does not read the key, FAILs. */
  lemma CategoryInactiveLimitCanFailWrongly() returns (qbt: QbtInstance, arrs: seq<ArrInstance>, w: Trace.World)
    ensures Trace.WellFormed(w) && Describes(qbt, arrs, w) && FullyRead(qbt, arrs) && Trace.HasSource(w)
    ensures w.categories == map["tv" := DEFERS_ALL.(inactiveMinutes := 10)] && Rescued(w, Trace.Inactive, "tv")
    ensures Check(qbt, arrs).outcome == FAIL && !Trace.WedgeReachable(w)
  {
    hide Check, Describes, Trace.WedgeReachable, AnyTorrentIndexer, FullyRead;
    var g, seedRatio, entries := NOTHING_ON, Unknown(FieldAbsent), map["tv" := INHERITS];
    var categories := map["tv" := DEFERS_ALL.(inactiveMinutes := 10)];
    CategoryStates();
    qbt, arrs, w := Client(g, entries), Stack(seedRatio), ClientWorld(g, categories, Trace.DEFAULT_LIMIT, "tv", 1);
    ClientIsDescribed(g, entries, seedRatio, w, categories, Trace.DEFAULT_LIMIT, "tv", 1);
    ClientIsFullyRead(g, entries, seedRatio);
    ClientFails(g, entries, seedRatio);
    hide Client, Stack, Trace.CategoryLimit, RealRatio;
    ResolvesOnEveryAxis(w, "tv");
    ReleasingNeverWedges(w, Trace.Inactive);
  }

  /** A category whose action stops the torrent where the global action is super seeding: the limit it
      inherits is reached and frees the slot, and the check FAILs. */
  lemma CategoryActionCanFailWrongly() returns (qbt: QbtInstance, arrs: seq<ArrInstance>, w: Trace.World)
    ensures Trace.WellFormed(w) && Describes(qbt, arrs, w) && FullyRead(qbt, arrs) && Trace.HasSource(w)
    ensures w.categories == map["tv" := DEFERS_ALL.(action := 0)] && ActionRescued(w, "tv")
    ensures Check(qbt, arrs).outcome == FAIL && !Trace.WedgeReachable(w)
  {
    hide Check, Describes, Trace.WedgeReachable, AnyTorrentIndexer, FullyRead;
    var g, seedRatio, entries := Settings(true, false, 2), Unknown(FieldAbsent), map["tv" := INHERITS];
    var categories := map["tv" := DEFERS_ALL.(action := 0)];
    CategoryStates();
    qbt, arrs, w := Client(g, entries), Stack(seedRatio), ClientWorld(g, categories, Trace.DEFAULT_LIMIT, "tv", 1);
    ClientIsDescribed(g, entries, seedRatio, w, categories, Trace.DEFAULT_LIMIT, "tv", 1);
    ClientIsFullyRead(g, entries, seedRatio);
    ClientFails(g, entries, seedRatio);
    LargestRatio();
    hide Client, Stack, Trace.CategoryLimit, RealRatio;
    ResolvesOnEveryAxis(w, "tv");
    ReleasingNeverWedges(w, Trace.Ratio);
  }

  /** Documented too: a seed ratio that arrives as the string "2.0" reads as no goal, so the stack FAILs;
      had the indexer meant the number, nothing would ever wedge. The note on the finding says so. */
  lemma UnreadableCriterionCanFailWrongly() returns (qbt: QbtInstance, arrs: seq<ArrInstance>, w: Trace.World)
    ensures Trace.WellFormed(w) && Describes(qbt, arrs, w) && Trace.HasSource(w) && SeedTimesFit(w)
    ensures w.categories == map[]
    ensures Check(qbt, arrs).outcome == FAIL && !Trace.WedgeReachable(w)
    ensures Check(qbt, arrs).conflict in SEED_CRITERIA_CONFLICTS && Check(qbt, arrs).detail != []
  {
    hide Check, Describes, Trace.WedgeReachable, AnyTorrentIndexer;
    var g, seedRatio, ratio := NOTHING_ON, Known(Str("2.0")), Finite(2.0);
    qbt, arrs, w := Client(g, map[]), Stack(seedRatio), ClientWorld(g, map[], ratio, "tv", 1);
    ClientIsDescribed(g, map[], seedRatio, w, map[], ratio, "tv", 1);
    ClientFails(g, map[], seedRatio);
    LargestRatio();
    hide Client, Stack, Trace.CategoryLimit, RealRatio;
    ResolvesOnEveryAxis(w, "tv");
    ReleasingNeverWedges(w, Trace.Ratio);
    InheritedChangesNothing(w);
    if Check(qbt, arrs).conflict !in SEED_CRITERIA_CONFLICTS || Check(qbt, arrs).detail == [] {
      FailWithoutANoteIsSound(qbt, arrs, w);
    }
  }

  // ------------------------------------------------------------------ SKIPs that nothing could have decided

  /** The categories could not be read, beside a global ratio limit that releases everything anyway: every
      route has a premise known to be false, so no reading of the categories can FAIL, and the check SKIPs. */
  lemma SkipThatCannotFail() returns (qbt: QbtInstance, arrs: seq<ArrInstance>)
    ensures qbt.categories == Unknown(InsufficientPermission)
    ensures Check(qbt, arrs).outcome == SKIP && !CanBecome(qbt, arrs, FAIL)
    ensures forall conflict: Route :: !StillOpen(conflict, qbt, arrs)
  {
    hide Check, CanBecome, StillOpen, AnyTorrentIndexer;
    var g := Settings(true, false, 3);
    qbt, arrs := Client(g, map[]).(categories := Unknown(InsufficientPermission)), Stack(Unknown(FieldAbsent));
    ClientTable(g, map[], arrs);
    LacksTable(Unknown(FieldAbsent));
    NoOverride(Unknown(FieldAbsent));
    assert TableOf(qbt, arrs) == TableOf(Client(g, map[]), arrs).(noCategory := Undecided);
    var t := TableOf(qbt, arrs);
    hide Client, Stack, TableOf;
    forall conflict: Route
      ensures !StillOpen(conflict, qbt, arrs) && RouteState(conflict, t) != Holds
    {
      StillOpenByTable(conflict, qbt, arrs);
    }
    assert RouteState(Seeding, t) == Undecided;
    CheckByRoutes(qbt, arrs);
    CouldFailExactlyWhen(qbt, arrs);
  }

  lemma NothingToFill(moving: bool)
    ensures FillArrs(Stack(Unknown(FieldAbsent)), moving) == Stack(Unknown(FieldAbsent))
  {
    var arrs := Stack(Unknown(FieldAbsent));
    assert FillIndexers(arrs[0].indexers, moving) == arrs[0].indexers;
    assert FillEach(arrs, moving) == [arrs[0]] + FillEach(arrs[1..], moving);
  }

  lemma NothingOnFails(qbt: QbtInstance)
    requires TableOf(qbt, Stack(Unknown(FieldAbsent))) ==
      TableOf(Client(NOTHING_ON, map[]), Stack(Unknown(FieldAbsent)))
    ensures Check(qbt, Stack(Unknown(FieldAbsent))).outcome == FAIL
  {
    ClientTable(NOTHING_ON, map[], Stack(Unknown(FieldAbsent)));
    LacksTable(Unknown(FieldAbsent));
    hide Check, Client, Stack;
    CheckByRoutes(qbt, Stack(Unknown(FieldAbsent)));
    assert RouteState(Seeding, TableOf(qbt, Stack(Unknown(FieldAbsent)))) == Holds;
  }

  /** Whether the ratio limit is on could not be read, but the limit itself is -1: on or off, it releases
      nothing, every completion FAILs, and the check SKIPs. */
  lemma SkipThatCannotPass() returns (qbt: QbtInstance, arrs: seq<ArrInstance>)
    ensures qbt.maxRatioEnabled == Unknown(InsufficientPermission) && qbt.maxRatio == Known(Int(-1))
    ensures Check(qbt, arrs).outcome == SKIP && RatioOutEitherWay(qbt)
    ensures CanBecome(qbt, arrs, FAIL) && !CanBecome(qbt, arrs, PASS)
  {
    hide Check, CanBecome, AnyTorrentIndexer;
    var base := Client(NOTHING_ON, map[]);
    arrs := Stack(Unknown(FieldAbsent));
    qbt := base.(maxRatioEnabled := Unknown(InsufficientPermission), maxRatio := Known(Int(-1)));
    ClientTable(NOTHING_ON, map[], arrs);
    LacksTable(Unknown(FieldAbsent));
    NoOverride(Unknown(FieldAbsent));
    assert TableOf(qbt, arrs) == TableOf(base, arrs).(noRatio := Undecided);
    forall moving: bool
      ensures Check(FillClient(qbt, moving), FillArrs(arrs, moving)).outcome == FAIL
    {
      NothingToFill(moving);
      assert FillClient(qbt, moving) == qbt.(maxRatioEnabled := Known(Bool(moving)));
      assert TableOf(FillClient(qbt, moving), arrs) == TableOf(base, arrs);
      NothingOnFails(FillClient(qbt, moving));
    }
    var t := TableOf(qbt, arrs);
    hide TableOf, FillClient, FillArrs, Client, Stack;
    assert RouteState(Seeding, t) == Undecided && forall conflict: Route :: RouteState(conflict, t) != Holds;
    CheckByRoutes(qbt, arrs);
    ExtremesDecide(qbt, arrs);
  }

  /** One indexer, its three toggles read off, and its protocol not read. */
  const SWITCHED_OFF: IndexerFacts := IndexerFacts(
    "x", Unknown(InsufficientPermission), Known(Bool(false)), Known(Bool(false)), Known(Bool(false)),
    Unknown(FieldAbsent), Unknown(FieldAbsent), Unknown(FieldAbsent))

  lemma SwitchedOffTable(arrs: seq<ArrInstance>, protocol: Fact)
    requires arrs == [ArrInstance("main", "sonarr", [SWITCHED_OFF.(protocol := protocol)])]
    ensures var absent := if protocol.Known? && protocol.value.Str? then Fails else Undecided;
      AnyTorrentIndexer(arrs, Lacks) == absent
    ensures AnyTorrentIndexer(arrs, OverridesBothShareLimits) == Fails
    ensures AnyTorrentIndexer(arrs, OverridesTheRatioLimit) == Fails
    ensures AnyTorrentIndexer(arrs, OverridesTheSeedTimeLimit) == Fails
  {
    var x := SWITCHED_OFF.(protocol := protocol);
    assert arrs[1..] == [];
    assert Indexers(arrs) == [x];
    AnyOfThree(TruthOf(x.enableRss), TruthOf(x.enableAutomaticSearch), TruthOf(x.enableInteractiveSearch));
    ShapesByCriteria(x);
    AllOfTwo(Decided(!IsASeedGoal(x.seedRatio)), Decided(!IsASeedGoal(x.seedTime)));
    AllOfTwo(OverridesTheShareLimit(x.seedRatio), OverridesTheShareLimit(x.seedTime));
    AllOfTwo(OverridesTheShareLimit(x.seedRatio), Decided(!IsASeedGoal(x.seedTime)));
    AllOfTwo(OverridesTheShareLimit(x.seedTime), Decided(!IsASeedGoal(x.seedRatio)));
    AnyTorrentIndexerMeans(arrs, Lacks);
    AnyTorrentIndexerMeans(arrs, OverridesBothShareLimits);
    AnyTorrentIndexerMeans(arrs, OverridesTheRatioLimit);
    AnyTorrentIndexerMeans(arrs, OverridesTheSeedTimeLimit);
    hide AnyTorrentIndexer, AnyOf, AllOf, OverridesTheShareLimit, IsASeedGoal;
    assert Indexers(arrs)[0] == x;
  }

  /** An indexer that is read to be switched off, but whose protocol could not be: it can never grab anything,
      whatever its protocol, so no completion FAILs, and the check SKIPs. */
  lemma SkipOverASwitchedOffIndexer() returns (qbt: QbtInstance, arrs: seq<ArrInstance>)
    ensures arrs == [ArrInstance("main", "sonarr", [SWITCHED_OFF])] && SomeSwitchedOff(arrs)
    ensures Check(qbt, arrs).outcome == SKIP && StillOpen(Seeding, qbt, arrs)
    ensures !CanBecome(qbt, arrs, FAIL)
  {
    hide Check, CanBecome, AnyTorrentIndexer;
    qbt, arrs := Client(NOTHING_ON, map[]), [ArrInstance("main", "sonarr", [SWITCHED_OFF])];
    var filled := FillArrs(arrs, false);
    assert arrs[1..] == [] && FillEach(arrs[1..], false) == [];
    assert FillIndexers(arrs[0].indexers, false) == [SWITCHED_OFF.(protocol := Known(Str("torrent")))];
    assert filled == [arrs[0].(indexers := FillIndexers(arrs[0].indexers, false))] + FillEach(arrs[1..], false);
    assert filled == [ArrInstance("main", "sonarr", [SWITCHED_OFF.(protocol := Known(Str("torrent")))])];
    assert FillClient(qbt, false) == qbt;
    ClientTable(NOTHING_ON, map[], arrs);
    ClientTable(NOTHING_ON, map[], filled);
    SwitchedOffTable(arrs, Unknown(InsufficientPermission));
    SwitchedOffTable(filled, Known(Str("torrent")));
    assert arrs[1..] == [] && Indexers(arrs) == [SWITCHED_OFF];
    assert SwitchedOff(Indexers(arrs)[0]);
    hide Client, SwitchedOff, Indexers;
    Passes(qbt, filled);
    StillOpenByTable(Seeding, qbt, arrs);
    ExtremesDecide(qbt, arrs);
    CheckByRoutes(qbt, arrs);
    var t := TableOf(qbt, arrs);
    hide TableOf;
    assert RouteState(Seeding, t) == Undecided && forall conflict: Route :: RouteState(conflict, t) != Holds;
  }
}
