/** Which SKIPs are earned: a snapshot that left something unread could have been read in full in many
    ways, and a SKIP says that the reading would have decided. */
module Earned {
  import opened Facts
  import opened Outcomes
  import opened Combinator
  import opened QueueLiveness
  import opened Verdicts
  import opened Quantifier
  import opened Monotone

  // ------------------------------------------------------------------ completions

  /** x' is x with whatever it left undecided filled in, an unreadable criterion by any number. */
  predicate IndexerFilled(x: IndexerFacts, x': IndexerFacts) {
    && (x.protocol.Known? && x.protocol.value.Str? ==> x'.protocol == x.protocol)
    && BoolMore(x.enableRss, x'.enableRss)
    && BoolMore(x.enableAutomaticSearch, x'.enableAutomaticSearch)
    && BoolMore(x.enableInteractiveSearch, x'.enableInteractiveSearch)
    && ReadingOf(x.seedRatio, x'.seedRatio) && ReadingOf(x.seedTime, x'.seedTime)
  }

  ghost predicate IndexersFilled(a: seq<IndexerFacts>, b: seq<IndexerFacts>) {
    |a| == |b| && forall k :: 0 <= k < |a| ==> IndexerFilled(a[k], b[k])
  }

  /** The second snapshot is a way to complete the first: what the first decided is the same, what it left
      undecided may be anything, and an unreadable seed criterion may be any number. */
  ghost predicate Completes(qbt: QbtInstance, arrs: seq<ArrInstance>, qbt': QbtInstance, arrs': seq<ArrInstance>) {
    && ClientMore(qbt, qbt')
    && (arrs == [] || (arrs' != [] && IndexersFilled(Indexers(arrs), Indexers(arrs'))))
  }

  ghost predicate CanBecome(qbt: QbtInstance, arrs: seq<ArrInstance>, outcome: Outcome) {
    exists qbt', arrs' :: Completes(qbt, arrs, qbt', arrs') && Check(qbt', arrs').outcome == outcome
  }

  // ------------------------------------------------------------------ the two extreme completions

  function FillBool(fact: Fact, b: bool): Fact {
    if fact.Unknown? || fact.value.Null? then Known(Bool(b)) else fact
  }

  function FillInt(fact: Fact, n: int): Fact {
    if ReadAsInt(fact) then fact else Known(Int(n))
  }

  function FillNumber(fact: Fact, n: int): Fact {
    if fact.Known? && IsNumber(fact.value) then fact else Known(Int(n))
  }

  function FillLimits(category: Value, n: int): Value {
    if !category.Dict? then Dict(map[RATIO_LIMIT := Int(n)])
    else
      Dict(map key | key in category.entries ::
        if key in {RATIO_LIMIT, SEEDING_TIME_LIMIT} && !IsNumber(category.entries[key]) then Int(n)
        else category.entries[key])
  }

  function FillCategories(fact: Fact, n: int): Fact {
    if fact.Known? && fact.value.Null? then fact
    else if fact.Known? && fact.value.Dict? then
      Known(Dict(map c | c in fact.value.entries :: FillLimits(fact.value.entries[c], n)))
    else Known(Dict(map["filled" := FillLimits(Null, n)]))
  }

  /** Everything undecided read as what keeps a queue moving, or as what stops it. */
  function FillClient(qbt: QbtInstance, moving: bool): QbtInstance {
    qbt.(
      queueingEnabled := FillBool(qbt.queueingEnabled, !moving),
      maxActiveTorrents := FillInt(qbt.maxActiveTorrents, if moving then -1 else 0),
      maxActiveDownloads := FillInt(qbt.maxActiveDownloads, if moving then -1 else 0),
      dontCountSlowTorrents := FillBool(qbt.dontCountSlowTorrents, moving),
      maxRatioEnabled := FillBool(qbt.maxRatioEnabled, moving),
      maxRatio := FillNumber(qbt.maxRatio, if moving then 0 else -1),
      maxRatioAct := FillInt(qbt.maxRatioAct, if moving then 0 else 2),
      maxSeedingTimeEnabled := FillBool(qbt.maxSeedingTimeEnabled, moving),
      maxInactiveSeedingTimeEnabled :=
        if qbt.maxInactiveSeedingTimeEnabled == Unknown(FieldAbsent) then Unknown(FieldAbsent)
        else FillBool(qbt.maxInactiveSeedingTimeEnabled, moving),
      categories := FillCategories(qbt.categories, if moving then 0 else -1))
  }

  function FillCriterion(fact: Fact, n: int): Fact {
    if IsAnUnusableSeedCriterion(fact) then Known(Int(n)) else fact
  }

  function FillIndexer(x: IndexerFacts, moving: bool): IndexerFacts {
    x.(protocol := if x.protocol.Known? && x.protocol.value.Str? then x.protocol
                   else Known(Str(if moving then "usenet" else "torrent")),
       enableRss := FillBool(x.enableRss, !moving),
       enableAutomaticSearch := FillBool(x.enableAutomaticSearch, !moving),
       enableInteractiveSearch := FillBool(x.enableInteractiveSearch, !moving),
       seedRatio := FillCriterion(x.seedRatio, if moving then 0 else -1),
       seedTime := FillCriterion(x.seedTime, if moving then 0 else -1))
  }

  function FillIndexers(indexers: seq<IndexerFacts>, moving: bool): (filled: seq<IndexerFacts>)
    ensures |filled| == |indexers|
    ensures forall k :: 0 <= k < |filled| ==> filled[k] == FillIndexer(indexers[k], moving)
  {
    seq(|indexers|, k requires 0 <= k < |indexers| => FillIndexer(indexers[k], moving))
  }

  function FillEach(arrs: seq<ArrInstance>, moving: bool): seq<ArrInstance> {
    if arrs == [] then []
    else [arrs[0].(indexers := FillIndexers(arrs[0].indexers, moving))] + FillEach(arrs[1..], moving)
  }

  const OVERRIDING: IndexerFacts := IndexerFacts(
    "filled", Known(Str("torrent")), Known(Bool(true)), Known(Bool(true)), Known(Bool(true)),
    Known(Int(-1)), Known(Int(-1)), Unknown(FieldAbsent))

  /** With no arr to look at, one without indexers, or one whose indexer overrides both limits. */
  function FillArrs(arrs: seq<ArrInstance>, moving: bool): seq<ArrInstance> {
    if arrs == [] then [ArrInstance("filled", "sonarr", if moving then [] else [OVERRIDING])]
    else FillEach(arrs, moving)
  }

  lemma {:induction false} IndexersOfEach(arrs: seq<ArrInstance>, moving: bool)
    ensures Indexers(FillEach(arrs, moving)) == FillIndexers(Indexers(arrs), moving)
  {
    if arrs != [] {
      IndexersOfEach(arrs[1..], moving);
      assert FillEach(arrs, moving)[1..] == FillEach(arrs[1..], moving);
    }
  }

  lemma IndexersOfFilled(arrs: seq<ArrInstance>, moving: bool)
    ensures FillArrs(arrs, moving) != []
    ensures arrs != [] ==> Indexers(FillArrs(arrs, moving)) == FillIndexers(Indexers(arrs), moving)
    ensures arrs == [] ==> Indexers(FillArrs(arrs, moving)) == if moving then [] else [OVERRIDING]
  {
    IndexersOfEach(arrs, moving);
    if arrs == [] {
      assert FillArrs(arrs, moving)[1..] == [];
    }
  }

  lemma FillIsACompletion(qbt: QbtInstance, arrs: seq<ArrInstance>, moving: bool)
    ensures Completes(qbt, arrs, FillClient(qbt, moving), FillArrs(arrs, moving))
  {
    IndexersOfFilled(arrs, moving);
  }

  // ------------------------------------------------------------------ every completion lies between them

  /** b holds if a does, and c fails if a does; c is decided. */
  predicate Between(c: Truth, a: Truth, b: Truth) {
    (a == Holds ==> b == Holds) && (a == Fails ==> c == Fails) && c != Undecided && b != Undecided
  }

  predicate TableBetween(c: Table, a: Table, b: Table) {
    && Between(c.queueing, a.queueing, b.queueing) && Between(c.noSlot, a.noSlot, b.noSlot)
    && Between(c.binds, a.binds, b.binds) && Between(c.slowOff, a.slowOff, b.slowOff)
    && Between(c.noInactive, a.noInactive, b.noInactive) && Between(c.noRatio, a.noRatio, b.noRatio)
    && Between(c.noSeedTime, a.noSeedTime, b.noSeedTime) && Between(c.noCategory, a.noCategory, b.noCategory)
    && Between(c.lacks, a.lacks, b.lacks) && Between(c.both, a.both, b.both) && Between(c.ratio, a.ratio, b.ratio)
    && Between(c.seedTime, a.seedTime, b.seedTime) && Between(c.action, a.action, b.action)
  }

  lemma ClientBetween(qbt: QbtInstance, qbt': QbtInstance)
    requires ClientMore(qbt, qbt')
    ensures var c, b := FillClient(qbt, true), FillClient(qbt, false);
      && Between(TruthOf(c.queueingEnabled), TruthOf(qbt'.queueingEnabled), TruthOf(b.queueingEnabled))
      && Between(MaxActiveTorrentsBindsState(c), MaxActiveTorrentsBindsState(qbt'), MaxActiveTorrentsBindsState(b))
      && Between(Not(TruthOf(c.dontCountSlowTorrents)), Not(TruthOf(qbt'.dontCountSlowTorrents)),
                 Not(TruthOf(b.dontCountSlowTorrents)))
      && Between(NotInactiveGate(c), NotInactiveGate(qbt'), NotInactiveGate(b))
      && Between(NoGlobalRatioState(c), NoGlobalRatioState(qbt'), NoGlobalRatioState(b))
      && Between(Not(TruthOf(c.maxSeedingTimeEnabled)), Not(TruthOf(qbt'.maxSeedingTimeEnabled)),
                 Not(TruthOf(b.maxSeedingTimeEnabled)))
      && Between(ActionFreesNoSlot(c), ActionFreesNoSlot(qbt'), ActionFreesNoSlot(b))
  {
    hide CategoriesMore, FillCategories;
  }

  lemma SlotsBetween(qbt: QbtInstance, qbt': QbtInstance)
    requires ClientMore(qbt, qbt')
    ensures Between(NoSlotForAFirstDownloadState(FillClient(qbt, true)), NoSlotForAFirstDownloadState(qbt'),
                    NoSlotForAFirstDownloadState(FillClient(qbt, false)))
  {
    var c, b := FillClient(qbt, true), FillClient(qbt, false);
    var ct, at, bt :=
      BlocksAFirstStart(c.maxActiveTorrents), BlocksAFirstStart(qbt'.maxActiveTorrents),
      BlocksAFirstStart(b.maxActiveTorrents);
    var cd, ad, bd :=
      BlocksAFirstStart(c.maxActiveDownloads), BlocksAFirstStart(qbt'.maxActiveDownloads),
      BlocksAFirstStart(b.maxActiveDownloads);
    assert Between(ct, at, bt) && Between(cd, ad, bd);
    assert [ct, cd][0] == ct && [ct, cd][1] == cd && [at, ad][0] == at && [at, ad][1] == ad;
    assert [bt, bd][0] == bt && [bt, bd][1] == bd;
  }

  lemma LimitBetween(category: map<string, Value>, category': map<string, Value>, key: string)
    requires key in {RATIO_LIMIT, SEEDING_TIME_LIMIT} && LimitMore(category, category', key)
    ensures Between(OwnShareLimit(FillLimits(Dict(category), -1).entries, key), OwnShareLimit(category', key),
                    OwnShareLimit(FillLimits(Dict(category), 0).entries, key))
  {}

  lemma UnreadCategory(n: int)
    requires n == 0 || n == -1
    ensures CategorySetsItsOwnLimit(FillLimits(Null, n)) == Decided(n == 0)
  {
    assert |RATIO_LIMIT| == 11 && |SEEDING_TIME_LIMIT| == 18;
    var entries := FillLimits(Null, n).entries;
    var states := [OwnShareLimit(entries, RATIO_LIMIT), OwnShareLimit(entries, SEEDING_TIME_LIMIT)];
    assert states[0] == Decided(n == 0) && states[1] == Fails;
  }

  /** A category filled to stop the queue sets no limit if any completion of it sets none, and so on. */
  lemma CategoryBetween(category: Value, category': Value)
    requires CategoryMore(category, category')
    ensures Between(CategorySetsItsOwnLimit(FillLimits(category, -1)), CategorySetsItsOwnLimit(category'),
                    CategorySetsItsOwnLimit(FillLimits(category, 0)))
  {
    if category.Dict? {
      LimitBetween(category.entries, category'.entries, RATIO_LIMIT);
      LimitBetween(category.entries, category'.entries, SEEDING_TIME_LIMIT);
      var c, a, b := FillLimits(category, -1).entries, category'.entries, FillLimits(category, 0).entries;
      assert forall e: map<string, Value> ::
        var s := [OwnShareLimit(e, RATIO_LIMIT), OwnShareLimit(e, SEEDING_TIME_LIMIT)];
        s[0] == OwnShareLimit(e, RATIO_LIMIT) && s[1] == OwnShareLimit(e, SEEDING_TIME_LIMIT);
      hide OwnShareLimit, FillLimits, LimitMore;
    } else {
      UnreadCategory(0);
      UnreadCategory(-1);
      assert FillLimits(category, 0) == FillLimits(Null, 0) && FillLimits(category, -1) == FillLimits(Null, -1);
    }
  }

  lemma CategoriesBetween(qbt: QbtInstance, qbt': QbtInstance)
    requires ClientMore(qbt, qbt')
    ensures Between(NoCategorySetsItsOwnLimit(FillClient(qbt, true)), NoCategorySetsItsOwnLimit(qbt'),
                    NoCategorySetsItsOwnLimit(FillClient(qbt, false)))
  {
    var c, b := FillClient(qbt, true), FillClient(qbt, false);
    hide CategorySetsItsOwnLimit, FillLimits, CategoryMore;
    if qbt.categories.Known? && qbt.categories.value.Dict? {
      NoCategoryMeans(c);
      NoCategoryMeans(b);
      NoCategoryMeans(qbt');
      var m, m' := qbt.categories.value.entries, qbt'.categories.value.entries;
      var mc, mb := c.categories.value.entries, b.categories.value.entries;
      assert m'.Keys == m.Keys && mc.Keys == m.Keys && mb.Keys == m.Keys;
      forall k | k in m
        ensures Between(CategorySetsItsOwnLimit(mb[k]), CategorySetsItsOwnLimit(m'[k]), CategorySetsItsOwnLimit(mc[k]))
      {
        assert mc[k] == FillLimits(m[k], 0) && mb[k] == FillLimits(m[k], -1);
        SelfMore(m[k]);
        CategoryBetween(m[k], m'[k]);
      }
      hide FillClient, FillCategories, NoCategorySetsItsOwnLimit, CategoriesMore;
    } else if !(qbt.categories.Known? && qbt.categories.value.Null?) {
      NoCategoryMeans(c);
      NoCategoryMeans(b);
      UnreadCategory(0);
      UnreadCategory(-1);
      assert "filled" in c.categories.value.entries && "filled" in b.categories.value.entries;
    }
  }

  lemma SelfMore(category: Value)
    ensures CategoryMore(category, category)
  {}

  lemma SourceBetween(x: IndexerFacts, x': IndexerFacts)
    requires IndexerFilled(x, x')
    ensures Between(IsATorrentSource(FillIndexer(x, true)), IsATorrentSource(x'),
                    IsATorrentSource(FillIndexer(x, false)))
  {
    forall y: IndexerFacts
      ensures var s := [TruthOf(y.enableRss), TruthOf(y.enableAutomaticSearch), TruthOf(y.enableInteractiveSearch)];
        && (AnyOf(s) == Holds <==>
              TruthOf(y.enableRss) == Holds || TruthOf(y.enableAutomaticSearch) == Holds
              || TruthOf(y.enableInteractiveSearch) == Holds)
        && (AnyOf(s) == Fails <==>
              TruthOf(y.enableRss) == Fails && TruthOf(y.enableAutomaticSearch) == Fails
              && TruthOf(y.enableInteractiveSearch) == Fails)
    {
      var s := [TruthOf(y.enableRss), TruthOf(y.enableAutomaticSearch), TruthOf(y.enableInteractiveSearch)];
      assert s[0] == TruthOf(y.enableRss) && s[1] == TruthOf(y.enableAutomaticSearch)
        && s[2] == TruthOf(y.enableInteractiveSearch);
    }
    hide AnyOf;
  }

  /** What a shape makes of an indexer, in terms of the two criteria alone. */
  lemma ShapesByCriteria(x: IndexerFacts)
    ensures var r, m := OverridesTheShareLimit(x.seedRatio), OverridesTheShareLimit(x.seedTime);
      var noR, noM := Decided(!IsASeedGoal(x.seedRatio)), Decided(!IsASeedGoal(x.seedTime));
      && Lacks(x) == AllOf([noR, noM]) && OverridesBothShareLimits(x) == AllOf([r, m])
      && OverridesTheRatioLimit(x) == AllOf([r, noM]) && OverridesTheSeedTimeLimit(x) == AllOf([m, noR])
  {
    assert SeedCriteria(x)[0] == x.seedRatio && SeedCriteria(x)[1] == x.seedTime;
    var noR, noM := Decided(!IsASeedGoal(x.seedRatio)), Decided(!IsASeedGoal(x.seedTime));
    assert [noR, noM][0] == noR && [noR, noM][1] == noM;
  }

  lemma AllOfTwo(a: Truth, b: Truth)
    ensures AllOf([a, b]) == Holds <==> a == Holds && b == Holds
    ensures AllOf([a, b]) == Fails <==> a == Fails || b == Fails
  {
    assert [a, b][0] == a && [a, b][1] == b;
  }

  lemma AllOfBetween(c: Truth, a: Truth, b: Truth, c': Truth, a': Truth, b': Truth)
    requires Between(c, a, b) && Between(c', a', b')
    ensures Between(AllOf([c, c']), AllOf([a, a']), AllOf([b, b']))
  {
    AllOfTwo(c, c');
    AllOfTwo(a, a');
    AllOfTwo(b, b');
  }

  /** One criterion: read as a goal it overrides nothing, read as -1 it is no goal. */
  lemma CriterionBetween(fact: Fact, fact': Fact)
    requires ReadingOf(fact, fact')
    ensures Between(OverridesTheShareLimit(FillCriterion(fact, 0)), OverridesTheShareLimit(fact'),
                    OverridesTheShareLimit(FillCriterion(fact, -1)))
    ensures Between(Decided(!IsASeedGoal(FillCriterion(fact, 0))), Decided(!IsASeedGoal(fact')),
                    Decided(!IsASeedGoal(FillCriterion(fact, -1))))
  {}

  lemma ShapesBetween(x: IndexerFacts, x': IndexerFacts)
    requires IndexerFilled(x, x')
    ensures var c, b := FillIndexer(x, true), FillIndexer(x, false);
      && Between(Lacks(c), Lacks(x'), Lacks(b))
      && Between(OverridesBothShareLimits(c), OverridesBothShareLimits(x'), OverridesBothShareLimits(b))
      && Between(OverridesTheRatioLimit(c), OverridesTheRatioLimit(x'), OverridesTheRatioLimit(b))
      && Between(OverridesTheSeedTimeLimit(c), OverridesTheSeedTimeLimit(x'), OverridesTheSeedTimeLimit(b))
  {
    var c, b := FillIndexer(x, true), FillIndexer(x, false);
    CriterionBetween(x.seedRatio, x'.seedRatio);
    CriterionBetween(x.seedTime, x'.seedTime);
    ShapesByCriteria(c);
    ShapesByCriteria(x');
    ShapesByCriteria(b);
    hide Lacks, OverridesBothShareLimits, OverridesTheRatioLimit, OverridesTheSeedTimeLimit, AllOf,
      OverridesTheShareLimit,
      IsASeedGoal;
    var r, r', r'' :=
      OverridesTheShareLimit(c.seedRatio), OverridesTheShareLimit(x'.seedRatio), OverridesTheShareLimit(b.seedRatio);
    var m, m', m'' :=
      OverridesTheShareLimit(c.seedTime), OverridesTheShareLimit(x'.seedTime), OverridesTheShareLimit(b.seedTime);
    var g, g', g'' :=
      Decided(!IsASeedGoal(c.seedRatio)), Decided(!IsASeedGoal(x'.seedRatio)), Decided(!IsASeedGoal(b.seedRatio));
    var h, h', h'' :=
      Decided(!IsASeedGoal(c.seedTime)), Decided(!IsASeedGoal(x'.seedTime)), Decided(!IsASeedGoal(b.seedTime));
    AllOfBetween(g, g', g'', h, h', h'');
    AllOfBetween(r, r', r'', m, m', m'');
    AllOfBetween(r, r', r'', h, h', h'');
    AllOfBetween(m, m', m'', g, g', g'');
  }

  /** A shape that lies between on every completion of an indexer, and that an indexer overriding both has. */
  ghost predicate Graded(matches: IndexerFacts -> Truth) {
    && matches(OVERRIDING) == Holds
    && forall x, x' :: IndexerFilled(x, x') ==>
         Between(matches(FillIndexer(x, true)), matches(x'), matches(FillIndexer(x, false)))
  }

  lemma ShapesAreGraded()
    ensures Graded(Lacks) && Graded(OverridesBothShareLimits)
    ensures Graded(OverridesTheRatioLimit) && Graded(OverridesTheSeedTimeLimit)
  {
    ShapesByCriteria(OVERRIDING);
    AllOfTwo(Holds, Holds);
    forall x, x' | IndexerFilled(x, x')
      ensures var c, b := FillIndexer(x, true), FillIndexer(x, false);
        && Between(Lacks(c), Lacks(x'), Lacks(b))
        && Between(OverridesBothShareLimits(c), OverridesBothShareLimits(x'), OverridesBothShareLimits(b))
        && Between(OverridesTheRatioLimit(c), OverridesTheRatioLimit(x'), OverridesTheRatioLimit(b))
        && Between(OverridesTheSeedTimeLimit(c), OverridesTheSeedTimeLimit(x'), OverridesTheSeedTimeLimit(b))
    {
      ShapesBetween(x, x');
    }
    hide Lacks, OverridesBothShareLimits, OverridesTheRatioLimit, OverridesTheSeedTimeLimit, IndexerFilled, FillIndexer;
  }

  lemma PremiseBetween(arrs: seq<ArrInstance>, arrs': seq<ArrInstance>, matches: IndexerFacts -> Truth)
    requires Graded(matches)
    requires arrs == [] || (arrs' != [] && IndexersFilled(Indexers(arrs), Indexers(arrs')))
    ensures Between(AnyTorrentIndexer(FillArrs(arrs, true), matches), AnyTorrentIndexer(arrs', matches),
                    AnyTorrentIndexer(FillArrs(arrs, false), matches))
  {
    hide IsATorrentSource, AnyTorrentIndexer, FillArrs, FillIndexers, FillIndexer, IndexerFilled, OVERRIDING, Indexers;
    IndexersOfFilled(arrs, true);
    IndexersOfFilled(arrs, false);
    AnyTorrentIndexerMeans(FillArrs(arrs, true), matches);
    AnyTorrentIndexerMeans(FillArrs(arrs, false), matches);
    AnyTorrentIndexerMeans(arrs', matches);
    var c, b := Indexers(FillArrs(arrs, true)), Indexers(FillArrs(arrs, false));
    if arrs == [] {
      OverridingIsASource();
      assert Matches(b[0], matches);
    } else {
      var a, a' := Indexers(arrs), Indexers(arrs');
      forall k | 0 <= k < |a|
        ensures Between(matches(c[k]), matches(a'[k]), matches(b[k]))
        ensures Between(IsATorrentSource(c[k]), IsATorrentSource(a'[k]), IsATorrentSource(b[k]))
      {
        assert IndexerFilled(a[k], a'[k]);
        SourceBetween(a[k], a'[k]);
      }
      IndexersBetween(c, a', b, matches);
    }
  }

  lemma IndexersBetween(c: seq<IndexerFacts>, a: seq<IndexerFacts>, b: seq<IndexerFacts>,
                        matches: IndexerFacts -> Truth)
    requires |c| == |a| == |b|
    requires forall k :: 0 <= k < |a| ==> Between(matches(c[k]), matches(a[k]), matches(b[k]))
    requires forall k :: 0 <= k < |a| ==>
      Between(IsATorrentSource(c[k]), IsATorrentSource(a[k]), IsATorrentSource(b[k]))
    ensures SomeMatches(a, matches) ==> SomeMatches(b, matches)
    ensures AllExcluded(a, matches) ==> AllExcluded(c, matches)
    ensures SomeMatches(c, matches) || AllExcluded(c, matches)
    ensures SomeMatches(b, matches) || AllExcluded(b, matches)
  {
    hide IsATorrentSource;
    if k :| 0 <= k < |a| && Matches(a[k], matches) {
      assert Matches(b[k], matches);
    }
    if AllExcluded(a, matches) {
      assert forall k :: 0 <= k < |a| ==> Excluded(a[k], matches);
    }
    assert forall k :: 0 <= k < |a| ==> Matches(c[k], matches) || Excluded(c[k], matches);
    assert forall k :: 0 <= k < |a| ==> Matches(b[k], matches) || Excluded(b[k], matches);
  }

  lemma OverridingIsASource()
    ensures IsATorrentSource(OVERRIDING) == Holds
  {
    var x := OVERRIDING;
    assert [TruthOf(x.enableRss), TruthOf(x.enableAutomaticSearch), TruthOf(x.enableInteractiveSearch)][0] == Holds;
  }

  lemma EveryCompletionIsBetween(qbt: QbtInstance, arrs: seq<ArrInstance>, qbt': QbtInstance, arrs': seq<ArrInstance>)
    requires Completes(qbt, arrs, qbt', arrs')
    ensures TableBetween(TableOf(FillClient(qbt, true), FillArrs(arrs, true)), TableOf(qbt', arrs'),
                         TableOf(FillClient(qbt, false), FillArrs(arrs, false)))
  {
    ClientBetween(qbt, qbt');
    SlotsBetween(qbt, qbt');
    CategoriesBetween(qbt, qbt');
    ShapesAreGraded();
    PremiseBetween(arrs, arrs', Lacks);
    PremiseBetween(arrs, arrs', OverridesBothShareLimits);
    PremiseBetween(arrs, arrs', OverridesTheRatioLimit);
    PremiseBetween(arrs, arrs', OverridesTheSeedTimeLimit);
    hide Completes, ClientMore, FillClient, FillArrs, Graded, AnyTorrentIndexer, NoCategorySetsItsOwnLimit, Between,
      NoSlotForAFirstDownloadState, NotInactiveGate, NoGlobalRatioState, ActionFreesNoSlot, MaxActiveTorrentsBindsState,
      TruthOf, Not, Indexers, IndexersFilled;
  }

  lemma RouteBetween(conflict: Route, c: Table, a: Table, b: Table)
    requires TableBetween(c, a, b)
    ensures Between(RouteState(conflict, c), RouteState(conflict, a), RouteState(conflict, b))
  {
    hide Strict;
  }

  /** Some completion FAILs exactly when the one that stops the queue does, and some completion PASSes
      exactly when the one that keeps it moving does. */
  lemma ExtremesDecide(qbt: QbtInstance, arrs: seq<ArrInstance>)
    ensures CanBecome(qbt, arrs, FAIL) <==> Check(FillClient(qbt, false), FillArrs(arrs, false)).outcome == FAIL
    ensures CanBecome(qbt, arrs, PASS) <==> Check(FillClient(qbt, true), FillArrs(arrs, true)).outcome == PASS
  {
    hide Check, RouteState, TableOf, Completes, FillClient, FillArrs, TableBetween;
    FillIsACompletion(qbt, arrs, true);
    FillIsACompletion(qbt, arrs, false);
    CheckByRoutes(FillClient(qbt, true), FillArrs(arrs, true));
    CheckByRoutes(FillClient(qbt, false), FillArrs(arrs, false));
    forall qbt', arrs' | Completes(qbt, arrs, qbt', arrs')
      ensures Check(qbt', arrs').outcome == FAIL ==>
        Check(FillClient(qbt, false), FillArrs(arrs, false)).outcome == FAIL
      ensures Check(qbt', arrs').outcome == PASS ==> Check(FillClient(qbt, true), FillArrs(arrs, true)).outcome == PASS
    {
      CheckByRoutes(qbt', arrs');
      EveryCompletionIsBetween(qbt, arrs, qbt', arrs');
      forall conflict: Route
        ensures Between(RouteState(conflict, TableOf(FillClient(qbt, true), FillArrs(arrs, true))),
                        RouteState(conflict, TableOf(qbt', arrs')),
                        RouteState(conflict, TableOf(FillClient(qbt, false), FillArrs(arrs, false))))
      {
        RouteBetween(conflict, TableOf(FillClient(qbt, true), FillArrs(arrs, true)), TableOf(qbt', arrs'),
                     TableOf(FillClient(qbt, false), FillArrs(arrs, false)));
      }
    }
  }

  // ------------------------------------------------------------------ what a settled premise is worth

  /** The one place where two unread answers agree: the flag could not be read, and the limit beside it is
      out of reach whichever it was. */
  predicate RatioOutEitherWay(qbt: QbtInstance) {
    && TruthOf(qbt.maxRatioEnabled) == Undecided
    && qbt.maxRatio.Known? && IsNumber(qbt.maxRatio.value) && !CanBeReached(NumberOf(qbt.maxRatio.value))
  }

  /** An indexer whose protocol could not be read, and which is known to be switched off: it grabs nothing,
      but it is not counted out. */
  predicate SwitchedOff(x: IndexerFacts) {
    && !(x.protocol.Known? && x.protocol.value.Str?)
    && TruthOf(x.enableRss) == Fails && TruthOf(x.enableAutomaticSearch) == Fails
    && TruthOf(x.enableInteractiveSearch) == Fails
  }

  predicate SomeSwitchedOff(arrs: seq<ArrInstance>) {
    exists k :: 0 <= k < |Indexers(arrs)| && SwitchedOff(Indexers(arrs)[k])
  }

  /** c fails unless t holds, and b fails if t does; where it is exact, b holds unless t fails. */
  predicate Pivots(c: Truth, t: Truth, b: Truth, exact: bool) {
    (c == Holds ==> t == Holds) && (t == Fails ==> b == Fails) && (exact && b == Fails ==> t == Fails)
  }

  predicate TablePivots(c: Table, t: Table, b: Table, exact: bool) {
    && Pivots(c.queueing, t.queueing, b.queueing, exact) && Pivots(c.noSlot, t.noSlot, b.noSlot, exact)
    && Pivots(c.binds, t.binds, b.binds, exact) && Pivots(c.slowOff, t.slowOff, b.slowOff, exact)
    && Pivots(c.noInactive, t.noInactive, b.noInactive, exact) && (b.noRatio == Fails <==> t.noRatio == Fails)
    && Pivots(c.noSeedTime, t.noSeedTime, b.noSeedTime, exact)
    && Pivots(c.noCategory, t.noCategory, b.noCategory, exact)
    && Pivots(c.lacks, t.lacks, b.lacks, exact) && Pivots(c.both, t.both, b.both, exact)
    && Pivots(c.ratio, t.ratio, b.ratio, exact)
    && Pivots(c.seedTime, t.seedTime, b.seedTime, exact) && Pivots(c.action, t.action, b.action, exact)
  }

  lemma ClientPivots(qbt: QbtInstance, exact: bool)
    ensures var c, b := FillClient(qbt, true), FillClient(qbt, false);
      && Pivots(TruthOf(c.queueingEnabled), TruthOf(qbt.queueingEnabled), TruthOf(b.queueingEnabled), exact)
      && Pivots(MaxActiveTorrentsBindsState(c), MaxActiveTorrentsBindsState(qbt), MaxActiveTorrentsBindsState(b), exact)
      && Pivots(Not(TruthOf(c.dontCountSlowTorrents)), Not(TruthOf(qbt.dontCountSlowTorrents)),
                Not(TruthOf(b.dontCountSlowTorrents)), exact)
      && Pivots(NotInactiveGate(c), NotInactiveGate(qbt), NotInactiveGate(b), exact)
      && (NoGlobalRatioState(b) == Fails <==> NoGlobalRatioState(qbt) == Fails)
      && (!RatioOutEitherWay(qbt) ==> (NoGlobalRatioState(c) == Holds ==> NoGlobalRatioState(qbt) == Holds))
      && Pivots(Not(TruthOf(c.maxSeedingTimeEnabled)), Not(TruthOf(qbt.maxSeedingTimeEnabled)),
                Not(TruthOf(b.maxSeedingTimeEnabled)), exact)
      && Pivots(ActionFreesNoSlot(c), ActionFreesNoSlot(qbt), ActionFreesNoSlot(b), exact)
  {
    hide FillCategories;
  }

  lemma SlotsPivot(qbt: QbtInstance, exact: bool)
    ensures Pivots(NoSlotForAFirstDownloadState(FillClient(qbt, true)), NoSlotForAFirstDownloadState(qbt),
                   NoSlotForAFirstDownloadState(FillClient(qbt, false)), exact)
  {
    var c, b := FillClient(qbt, true), FillClient(qbt, false);
    AnyOfTwo(BlocksAFirstStart(c.maxActiveTorrents), BlocksAFirstStart(c.maxActiveDownloads));
    AnyOfTwo(BlocksAFirstStart(qbt.maxActiveTorrents), BlocksAFirstStart(qbt.maxActiveDownloads));
    AnyOfTwo(BlocksAFirstStart(b.maxActiveTorrents), BlocksAFirstStart(b.maxActiveDownloads));
    hide AnyOf, FillCategories;
  }

  lemma AnyOfTwo(a: Truth, b: Truth)
    ensures AnyOf([a, b]) == Holds <==> a == Holds || b == Holds
    ensures AnyOf([a, b]) == Fails <==> a == Fails && b == Fails
  {
    assert [a, b][0] == a && [a, b][1] == b;
  }

  lemma LimitPivots(category: map<string, Value>, key: string)
    requires key in {RATIO_LIMIT, SEEDING_TIME_LIMIT}
    ensures Pivots(OwnShareLimit(FillLimits(Dict(category), -1).entries, key), OwnShareLimit(category, key),
                   OwnShareLimit(FillLimits(Dict(category), 0).entries, key), true)
    ensures OwnShareLimit(category, key) == Holds ==>
      OwnShareLimit(FillLimits(Dict(category), -1).entries, key) == Holds
  {}

  lemma CategoryPivots(category: Value)
    ensures Pivots(CategorySetsItsOwnLimit(FillLimits(category, -1)), CategorySetsItsOwnLimit(category),
                   CategorySetsItsOwnLimit(FillLimits(category, 0)), true)
    ensures CategorySetsItsOwnLimit(category) == Holds ==> CategorySetsItsOwnLimit(FillLimits(category, -1)) == Holds
  {
    if category.Dict? {
      var c, t, b := FillLimits(category, -1).entries, category.entries, FillLimits(category, 0).entries;
      LimitPivots(t, RATIO_LIMIT);
      LimitPivots(t, SEEDING_TIME_LIMIT);
      AnyOfTwo(OwnShareLimit(c, RATIO_LIMIT), OwnShareLimit(c, SEEDING_TIME_LIMIT));
      AnyOfTwo(OwnShareLimit(t, RATIO_LIMIT), OwnShareLimit(t, SEEDING_TIME_LIMIT));
      AnyOfTwo(OwnShareLimit(b, RATIO_LIMIT), OwnShareLimit(b, SEEDING_TIME_LIMIT));
      hide OwnShareLimit, AnyOf;
    } else {
      UnreadCategory(0);
      UnreadCategory(-1);
      assert FillLimits(category, 0) == FillLimits(Null, 0) && FillLimits(category, -1) == FillLimits(Null, -1);
    }
  }

  lemma CategoriesPivot(qbt: QbtInstance, exact: bool)
    ensures Pivots(NoCategorySetsItsOwnLimit(FillClient(qbt, true)), NoCategorySetsItsOwnLimit(qbt),
                   NoCategorySetsItsOwnLimit(FillClient(qbt, false)), exact)
  {
    var c, b := FillClient(qbt, true), FillClient(qbt, false);
    hide CategorySetsItsOwnLimit, FillLimits;
    if qbt.categories.Known? && qbt.categories.value.Dict? {
      NoCategoryMeans(c);
      NoCategoryMeans(b);
      NoCategoryMeans(qbt);
      var m, mc, mb := qbt.categories.value.entries, c.categories.value.entries, b.categories.value.entries;
      assert mc.Keys == m.Keys && mb.Keys == m.Keys;
      forall k | k in m
        ensures Pivots(CategorySetsItsOwnLimit(mb[k]), CategorySetsItsOwnLimit(m[k]), CategorySetsItsOwnLimit(mc[k]),
                       true)
        ensures CategorySetsItsOwnLimit(m[k]) == Holds ==> CategorySetsItsOwnLimit(mb[k]) == Holds
        ensures Between(CategorySetsItsOwnLimit(mb[k]), CategorySetsItsOwnLimit(m[k]), CategorySetsItsOwnLimit(mc[k]))
      {
        assert mc[k] == FillLimits(m[k], 0) && mb[k] == FillLimits(m[k], -1);
        CategoryPivots(m[k]);
        SelfMore(m[k]);
        CategoryBetween(m[k], m[k]);
      }
      hide FillClient, FillCategories, NoCategorySetsItsOwnLimit;
    } else if !(qbt.categories.Known? && qbt.categories.value.Null?) {
      NoCategoryMeans(c);
      NoCategoryMeans(b);
      UnreadCategory(0);
      UnreadCategory(-1);
      assert "filled" in c.categories.value.entries && "filled" in b.categories.value.entries;
    }
  }

  lemma AnyOfThree(a: Truth, b: Truth, c: Truth)
    ensures AnyOf([a, b, c]) == Holds <==> a == Holds || b == Holds || c == Holds
    ensures AnyOf([a, b, c]) == Fails <==> a == Fails && b == Fails && c == Fails
  {
    assert [a, b, c][0] == a && [a, b, c][1] == b && [a, b, c][2] == c;
  }

  lemma SourcePivots(x: IndexerFacts, exact: bool)
    requires exact ==> !SwitchedOff(x)
    ensures Pivots(IsATorrentSource(FillIndexer(x, true)), IsATorrentSource(x),
                   IsATorrentSource(FillIndexer(x, false)), exact)
  {
    var c, b := FillIndexer(x, true), FillIndexer(x, false);
    AnyOfThree(TruthOf(c.enableRss), TruthOf(c.enableAutomaticSearch), TruthOf(c.enableInteractiveSearch));
    AnyOfThree(TruthOf(x.enableRss), TruthOf(x.enableAutomaticSearch), TruthOf(x.enableInteractiveSearch));
    AnyOfThree(TruthOf(b.enableRss), TruthOf(b.enableAutomaticSearch), TruthOf(b.enableInteractiveSearch));
    hide AnyOf, FillCriterion;
  }

  lemma AllOfPivots(c: Truth, t: Truth, b: Truth, c': Truth, t': Truth, b': Truth, exact: bool)
    requires Pivots(c, t, b, exact) && Pivots(c', t', b', exact)
    ensures Pivots(AllOf([c, c']), AllOf([t, t']), AllOf([b, b']), exact)
  {
    AllOfTwo(c, c');
    AllOfTwo(t, t');
    AllOfTwo(b, b');
  }

  lemma CriterionPivots(fact: Fact, exact: bool)
    ensures Pivots(OverridesTheShareLimit(FillCriterion(fact, 0)), OverridesTheShareLimit(fact),
                   OverridesTheShareLimit(FillCriterion(fact, -1)), exact)
    ensures Pivots(Decided(!IsASeedGoal(FillCriterion(fact, 0))), Decided(!IsASeedGoal(fact)),
                   Decided(!IsASeedGoal(FillCriterion(fact, -1))), exact)
  {}

  ghost predicate Turns(matches: IndexerFacts -> Truth) {
    && matches(OVERRIDING) == Holds
    && forall x :: Pivots(matches(FillIndexer(x, true)), matches(x), matches(FillIndexer(x, false)), true)
  }

  lemma ShapesPivot(x: IndexerFacts, exact: bool)
    ensures var c, b := FillIndexer(x, true), FillIndexer(x, false);
      && Pivots(Lacks(c), Lacks(x), Lacks(b), exact)
      && Pivots(OverridesBothShareLimits(c), OverridesBothShareLimits(x), OverridesBothShareLimits(b), exact)
      && Pivots(OverridesTheRatioLimit(c), OverridesTheRatioLimit(x), OverridesTheRatioLimit(b), exact)
      && Pivots(OverridesTheSeedTimeLimit(c), OverridesTheSeedTimeLimit(x), OverridesTheSeedTimeLimit(b), exact)
  {
    var c, b := FillIndexer(x, true), FillIndexer(x, false);
    CriterionPivots(x.seedRatio, exact);
    CriterionPivots(x.seedTime, exact);
    ShapesByCriteria(c);
    ShapesByCriteria(x);
    ShapesByCriteria(b);
    hide Lacks, OverridesBothShareLimits, OverridesTheRatioLimit, OverridesTheSeedTimeLimit, AllOf,
      OverridesTheShareLimit,
      IsASeedGoal;
    var r, r', r'' :=
      OverridesTheShareLimit(c.seedRatio), OverridesTheShareLimit(x.seedRatio), OverridesTheShareLimit(b.seedRatio);
    var m, m', m'' :=
      OverridesTheShareLimit(c.seedTime), OverridesTheShareLimit(x.seedTime), OverridesTheShareLimit(b.seedTime);
    var g, g', g'' :=
      Decided(!IsASeedGoal(c.seedRatio)), Decided(!IsASeedGoal(x.seedRatio)), Decided(!IsASeedGoal(b.seedRatio));
    var h, h', h'' :=
      Decided(!IsASeedGoal(c.seedTime)), Decided(!IsASeedGoal(x.seedTime)), Decided(!IsASeedGoal(b.seedTime));
    AllOfPivots(g, g', g'', h, h', h'', exact);
    AllOfPivots(r, r', r'', m, m', m'', exact);
    AllOfPivots(r, r', r'', h, h', h'', exact);
    AllOfPivots(m, m', m'', g, g', g'', exact);
  }

  lemma ShapesTurn()
    ensures Turns(Lacks) && Turns(OverridesBothShareLimits)
    ensures Turns(OverridesTheRatioLimit) && Turns(OverridesTheSeedTimeLimit)
  {
    ShapesAreGraded();
    forall x
      ensures var c, b := FillIndexer(x, true), FillIndexer(x, false);
        && Pivots(Lacks(c), Lacks(x), Lacks(b), true)
        && Pivots(OverridesBothShareLimits(c), OverridesBothShareLimits(x), OverridesBothShareLimits(b), true)
        && Pivots(OverridesTheRatioLimit(c), OverridesTheRatioLimit(x), OverridesTheRatioLimit(b), true)
        && Pivots(OverridesTheSeedTimeLimit(c), OverridesTheSeedTimeLimit(x), OverridesTheSeedTimeLimit(b), true)
    {
      ShapesPivot(x, true);
    }
    hide Lacks, OverridesBothShareLimits, OverridesTheRatioLimit, OverridesTheSeedTimeLimit, IndexerFilled, FillIndexer;
  }

  lemma PremisePivots(arrs: seq<ArrInstance>, matches: IndexerFacts -> Truth, exact: bool)
    requires exact ==> !SomeSwitchedOff(arrs)
    requires Turns(matches) && Graded(matches)
    ensures Pivots(AnyTorrentIndexer(FillArrs(arrs, true), matches), AnyTorrentIndexer(arrs, matches),
                   AnyTorrentIndexer(FillArrs(arrs, false), matches), exact)
  {
    hide IsATorrentSource, AnyTorrentIndexer, FillArrs, FillIndexers, FillIndexer, IndexerFilled, OVERRIDING, Indexers;
    IndexersOfFilled(arrs, true);
    IndexersOfFilled(arrs, false);
    AnyTorrentIndexerMeans(FillArrs(arrs, true), matches);
    AnyTorrentIndexerMeans(FillArrs(arrs, false), matches);
    AnyTorrentIndexerMeans(arrs, matches);
    var c, b := Indexers(FillArrs(arrs, true)), Indexers(FillArrs(arrs, false));
    if arrs == [] {
      OverridingIsASource();
      assert Matches(b[0], matches);
    } else {
      var a := Indexers(arrs);
      forall k | 0 <= k < |a|
        ensures Pivots(matches(c[k]), matches(a[k]), matches(b[k]), exact)
        ensures Pivots(IsATorrentSource(c[k]), IsATorrentSource(a[k]), IsATorrentSource(b[k]), exact)
        ensures Between(matches(c[k]), matches(a[k]), matches(b[k]))
        ensures Between(IsATorrentSource(c[k]), IsATorrentSource(a[k]), IsATorrentSource(b[k]))
      {
        SourcePivots(a[k], exact);
        SelfFilled(a[k]);
        SourceBetween(a[k], a[k]);
      }
      IndexersBetween(c, a, b, matches);
      IndexersPivot(c, a, b, matches, exact);
    }
  }

  lemma SelfFilled(x: IndexerFacts)
    ensures IndexerFilled(x, x)
  {}

  lemma IndexersPivot(c: seq<IndexerFacts>, a: seq<IndexerFacts>, b: seq<IndexerFacts>,
                      matches: IndexerFacts -> Truth, exact: bool)
    requires |c| == |a| == |b|
    requires forall k :: 0 <= k < |a| ==> Pivots(matches(c[k]), matches(a[k]), matches(b[k]), exact)
    requires forall k :: 0 <= k < |a| ==>
      Pivots(IsATorrentSource(c[k]), IsATorrentSource(a[k]), IsATorrentSource(b[k]), exact)
    ensures SomeMatches(c, matches) ==> SomeMatches(a, matches)
    ensures AllExcluded(a, matches) ==> AllExcluded(b, matches)
    ensures exact && AllExcluded(b, matches) ==> AllExcluded(a, matches)
  {
    hide IsATorrentSource;
    if k :| 0 <= k < |c| && Matches(c[k], matches) {
      assert Matches(a[k], matches);
    }
    assert forall k :: 0 <= k < |a| ==> (Excluded(a[k], matches) ==> Excluded(b[k], matches));
    assert exact ==> forall k :: 0 <= k < |a| ==> (Excluded(b[k], matches) ==> Excluded(a[k], matches));
  }

  lemma EverythingPivots(qbt: QbtInstance, arrs: seq<ArrInstance>)
    ensures var c, t := TableOf(FillClient(qbt, true), FillArrs(arrs, true)), TableOf(qbt, arrs);
      && TablePivots(c, t, TableOf(FillClient(qbt, false), FillArrs(arrs, false)), !SomeSwitchedOff(arrs))
      && (!RatioOutEitherWay(qbt) ==> (c.noRatio == Holds ==> t.noRatio == Holds))
  {
    var exact := !SomeSwitchedOff(arrs);
    ClientPivots(qbt, exact);
    SlotsPivot(qbt, exact);
    CategoriesPivot(qbt, exact);
    ShapesAreGraded();
    ShapesTurn();
    PremisePivots(arrs, Lacks, exact);
    PremisePivots(arrs, OverridesBothShareLimits, exact);
    PremisePivots(arrs, OverridesTheRatioLimit, exact);
    PremisePivots(arrs, OverridesTheSeedTimeLimit, exact);
    hide Pivots, FillClient, FillArrs, Graded, Turns, AnyTorrentIndexer, NoCategorySetsItsOwnLimit, SomeSwitchedOff,
      RatioOutEitherWay,
      NoSlotForAFirstDownloadState, NotInactiveGate, NoGlobalRatioState, ActionFreesNoSlot, MaxActiveTorrentsBindsState,
      TruthOf, Not, Indexers;
  }

  // ------------------------------------------------------------------ the conditions

  /** No premise of the route is known to be false. */
  predicate StillOpen(conflict: Route, qbt: QbtInstance, arrs: seq<ArrInstance>) {
    NoFalsePremise(RoutePremises(conflict, qbt, arrs))
  }

  predicate NoFalsePremise(premises: seq<Premise>) {
    forall p | p in premises :: p.state != Fails
  }

  lemma NoFalseAppend(a: seq<Premise>, b: seq<Premise>)
    ensures NoFalsePremise(a + b) <==> NoFalsePremise(a) && NoFalsePremise(b)
  {
    assert forall p :: p in a + b <==> p in a || p in b;
  }

  lemma NoFalseOfFour(p: Premise, q: Premise, r: Premise, s: Premise)
    ensures NoFalsePremise([p]) <==> p.state != Fails
    ensures NoFalsePremise([p, q]) <==> p.state != Fails && q.state != Fails
    ensures NoFalsePremise([p, q, r]) <==> p.state != Fails && q.state != Fails && r.state != Fails
    ensures NoFalsePremise([p, q, r, s]) <==>
      p.state != Fails && q.state != Fails && r.state != Fails && s.state != Fails
  {
    assert p in [p] && p in [p, q] && q in [p, q] && p in [p, q, r] && q in [p, q, r] && r in [p, q, r];
    assert p in [p, q, r, s] && q in [p, q, r, s] && r in [p, q, r, s] && s in [p, q, r, s];
  }

  lemma NoFalseSlots(qbt: QbtInstance, arrs: seq<ArrInstance>)
    ensures var t := TableOf(qbt, arrs);
      && (NoFalsePremise(SlotPremises(qbt)) <==> t.queueing != Fails && t.binds != Fails && t.slowOff != Fails)
      && (NoFalsePremise(DeferringSlotPremises(qbt)) <==>
            t.queueing != Fails && t.binds != Fails && t.slowOff != Fails && t.noInactive != Fails)
  {
    hide NoFalsePremise;
    var gate := Premise(NoGlobalInactiveSeedTime, NotInactiveGate(qbt));
    NoFalseOfFour(SlotPremises(qbt)[0], SlotPremises(qbt)[1], SlotPremises(qbt)[2], gate);
    NoFalseOfFour(gate, gate, gate, gate);
    NoFalseAppend(SlotPremises(qbt), [gate]);
  }

  predicate NoneFails(conflict: Route, t: Table) {
    match conflict
    case Starvation => t.queueing != Fails && t.noSlot != Fails
    case Seeding =>
      && t.queueing != Fails && t.binds != Fails && t.slowOff != Fails && t.noInactive != Fails
      && t.noRatio != Fails && t.noSeedTime != Fails && t.noCategory != Fails && t.lacks != Fails
    case OverrideBoth =>
      t.queueing != Fails && t.binds != Fails && t.slowOff != Fails && t.noInactive != Fails && t.both != Fails
    case OverrideRatio =>
      && t.queueing != Fails && t.binds != Fails && t.slowOff != Fails && t.noInactive != Fails
      && t.noSeedTime != Fails && t.noCategory != Fails && t.ratio != Fails
    case OverrideSeedTime =>
      && t.queueing != Fails && t.binds != Fails && t.slowOff != Fails && t.noInactive != Fails
      && t.noRatio != Fails && t.noCategory != Fails && t.seedTime != Fails
    case Action => t.queueing != Fails && t.binds != Fails && t.slowOff != Fails && t.action != Fails
  }

  lemma StillOpenByTable(conflict: Route, qbt: QbtInstance, arrs: seq<ArrInstance>)
    ensures StillOpen(conflict, qbt, arrs) <==> NoneFails(conflict, TableOf(qbt, arrs))
  {
    hide NoFalsePremise;
    NoFalseSlots(qbt, arrs);
    var front := DeferringSlotPremises(qbt);
    match conflict {
      case Starvation =>
        NoFalseOfFour(Queueing(qbt), StarvationPremises(qbt)[1], Queueing(qbt), Queueing(qbt));
      case Seeding =>
        var last := Premise(IndexerWithoutSeedCriteria, AnyTorrentIndexer(arrs, Lacks));
        NoFalseOfFour(RatioPremise(qbt), SeedTimePremise(qbt), CategoryPremise(qbt), last);
        NoFalseAppend(front, [RatioPremise(qbt), SeedTimePremise(qbt), CategoryPremise(qbt), last]);
      case OverrideBoth =>
        var last := Premise(IndexerOverridesBothShareLimits, AnyTorrentIndexer(arrs, OverridesBothShareLimits));
        NoFalseOfFour(last, last, last, last);
        NoFalseAppend(front, [last]);
      case OverrideRatio =>
        var last := Premise(IndexerOverridesTheRatioLimit, AnyTorrentIndexer(arrs, OverridesTheRatioLimit));
        NoFalseOfFour(SeedTimePremise(qbt), CategoryPremise(qbt), last, last);
        NoFalseAppend(front, [SeedTimePremise(qbt), CategoryPremise(qbt), last]);
      case OverrideSeedTime =>
        var last := Premise(IndexerOverridesTheSeedTimeLimit, AnyTorrentIndexer(arrs, OverridesTheSeedTimeLimit));
        NoFalseOfFour(RatioPremise(qbt), CategoryPremise(qbt), last, last);
        NoFalseAppend(front, [RatioPremise(qbt), CategoryPremise(qbt), last]);
      case Action =>
        var last := Premise(ShareLimitActionFreesNoSlot, ActionFreesNoSlot(qbt));
        NoFalseOfFour(last, last, last, last);
        NoFalseAppend(SlotPremises(qbt), [last]);
    }
  }

  lemma OpenRoute(conflict: Route, c: Table, t: Table, b: Table, exact: bool)
    requires TablePivots(c, t, b, exact) && TableBetween(c, t, b)
    ensures RouteState(conflict, b) == Holds ==> NoneFails(conflict, t)
    ensures exact && NoneFails(conflict, t) ==> RouteState(conflict, b) == Holds
    ensures (c.noRatio == Holds ==> t.noRatio == Holds) && RouteState(conflict, c) == Holds ==>
      RouteState(conflict, t) == Holds
  {
    hide Strict;
  }

  lemma SelfCompletes(qbt: QbtInstance, arrs: seq<ArrInstance>)
    ensures Completes(qbt, arrs, qbt, arrs)
  {}

  /** A snapshot can turn out to FAIL only when some route has no premise known to be false; and then it can,
      unless it is an unread protocol of a switched-off indexer that keeps the route open. */
  lemma CouldFailExactlyWhen(qbt: QbtInstance, arrs: seq<ArrInstance>)
    ensures CanBecome(qbt, arrs, FAIL) ==> exists conflict: Route :: StillOpen(conflict, qbt, arrs)
    ensures !SomeSwitchedOff(arrs) && (exists conflict: Route :: StillOpen(conflict, qbt, arrs)) ==>
      CanBecome(qbt, arrs, FAIL)
  {
    hide Check, RouteState, TableOf, FillClient, FillArrs, StillOpen, CanBecome, SomeSwitchedOff;
    ExtremesDecide(qbt, arrs);
    CheckByRoutes(FillClient(qbt, false), FillArrs(arrs, false));
    forall conflict: Route
      ensures var stopped := RouteState(conflict, TableOf(FillClient(qbt, false), FillArrs(arrs, false)));
        && (stopped == Holds ==> StillOpen(conflict, qbt, arrs))
        && (!SomeSwitchedOff(arrs) && StillOpen(conflict, qbt, arrs) ==> stopped == Holds)
    {
      StoppedRouteIsOpen(conflict, qbt, arrs);
    }
  }

  lemma StoppedRouteIsOpen(conflict: Route, qbt: QbtInstance, arrs: seq<ArrInstance>)
    ensures var stopped := RouteState(conflict, TableOf(FillClient(qbt, false), FillArrs(arrs, false)));
      && (stopped == Holds ==> StillOpen(conflict, qbt, arrs))
      && (!SomeSwitchedOff(arrs) && StillOpen(conflict, qbt, arrs) ==> stopped == Holds)
  {
    hide RouteState, TableOf, Completes, FillClient, FillArrs, TableBetween, TablePivots, StillOpen, NoneFails,
      SomeSwitchedOff;
    var c, t, b := TableOf(FillClient(qbt, true), FillArrs(arrs, true)), TableOf(qbt, arrs),
      TableOf(FillClient(qbt, false), FillArrs(arrs, false));
    SelfCompletes(qbt, arrs);
    EveryCompletionIsBetween(qbt, arrs, qbt, arrs);
    EverythingPivots(qbt, arrs);
    OpenRoute(conflict, c, t, b, !SomeSwitchedOff(arrs));
    StillOpenByTable(conflict, qbt, arrs);
  }

  /** A snapshot that does not FAIL could still turn out to PASS, unless the ratio flag is the unread thing
      and the limit beside it out of reach. So no FAIL that is settled is ever lost to an unread input. */
  lemma SettledFailIsReported(qbt: QbtInstance, arrs: seq<ArrInstance>)
    requires Check(qbt, arrs).outcome != FAIL && !RatioOutEitherWay(qbt)
    ensures CanBecome(qbt, arrs, PASS)
  {
    hide Check, RouteState, TableOf, FillClient, FillArrs, CanBecome, RatioOutEitherWay;
    ExtremesDecide(qbt, arrs);
    CheckByRoutes(qbt, arrs);
    CheckByRoutes(FillClient(qbt, true), FillArrs(arrs, true));
    forall conflict: Route
      ensures RouteState(conflict, TableOf(FillClient(qbt, true), FillArrs(arrs, true))) == Fails
    {
      MovingRouteFails(conflict, qbt, arrs);
    }
  }

  lemma MovingRouteFails(conflict: Route, qbt: QbtInstance, arrs: seq<ArrInstance>)
    requires RouteState(conflict, TableOf(qbt, arrs)) != Holds && !RatioOutEitherWay(qbt)
    ensures RouteState(conflict, TableOf(FillClient(qbt, true), FillArrs(arrs, true))) == Fails
  {
    hide RouteState, TableOf, Completes, FillClient, FillArrs, TableBetween, TablePivots, RatioOutEitherWay;
    var c, t, b := TableOf(FillClient(qbt, true), FillArrs(arrs, true)), TableOf(qbt, arrs),
      TableOf(FillClient(qbt, false), FillArrs(arrs, false));
    SelfCompletes(qbt, arrs);
    EveryCompletionIsBetween(qbt, arrs, qbt, arrs);
    EverythingPivots(qbt, arrs);
    OpenRoute(conflict, c, t, b, !SomeSwitchedOff(arrs));
    RouteBetween(conflict, c, t, b);
  }

  /** A SKIP is earned when reading the rest could have gone either way. */
  ghost predicate IsEarned(qbt: QbtInstance, arrs: seq<ArrInstance>) {
    CanBecome(qbt, arrs, FAIL) && CanBecome(qbt, arrs, PASS)
  }

  /** Exactly when a SKIP is earned: when the snapshot FAILs with everything undecided read as what stops the
      queue, and PASSes with it read as what keeps the queue moving. */
  lemma SkipIsEarnedExactlyWhen(qbt: QbtInstance, arrs: seq<ArrInstance>)
    ensures IsEarned(qbt, arrs) <==>
      && Check(FillClient(qbt, false), FillArrs(arrs, false)).outcome == FAIL
      && Check(FillClient(qbt, true), FillArrs(arrs, true)).outcome == PASS
  {
    hide Check, CanBecome;
    ExtremesDecide(qbt, arrs);
  }

  /** There are just three ways for a SKIP not to be earned: every route has a premise known to be false, and
      an unread one that outranks it; the ratio flag is unread beside a limit out of reach; or the protocol of
      a switched-off indexer is unread. With the last two ruled out the first is exact. */
  lemma WaysToSkipForNothing(qbt: QbtInstance, arrs: seq<ArrInstance>)
    requires Check(qbt, arrs).outcome == SKIP
    ensures IsEarned(qbt, arrs) ==> exists conflict: Route :: StillOpen(conflict, qbt, arrs)
    ensures !IsEarned(qbt, arrs) ==>
      || (forall conflict: Route :: !StillOpen(conflict, qbt, arrs))
      || RatioOutEitherWay(qbt)
      || SomeSwitchedOff(arrs)
  {
    hide Check, StillOpen, CanBecome, RatioOutEitherWay, SomeSwitchedOff;
    CouldFailExactlyWhen(qbt, arrs);
    if !RatioOutEitherWay(qbt) {
      SettledFailIsReported(qbt, arrs);
    }
  }
}
