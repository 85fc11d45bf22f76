/** Reading more never takes a verdict back. */
module Monotone {
  import opened Facts
  import opened Outcomes
  import opened Combinator
  import opened QueueLiveness
  import opened Verdicts
  import opened Quantifier

  // ------------------------------------------------------------------ one snapshot knows more than another

  predicate BoolMore(f: Fact, f': Fact) {
    f.Unknown? || f.value.Null? || f' == f
  }

  predicate IntMore(f: Fact, f': Fact) {
    ReadAsInt(f) ==> f' == f
  }

  predicate NumberMore(f: Fact, f': Fact) {
    f.Known? && IsNumber(f.value) ==> f' == f
  }

  /** A client that omits the gate has answered; any other missing read has not. */
  predicate GateMore(f: Fact, f': Fact) {
    f' == f || (f != Unknown(FieldAbsent) && BoolMore(f, f'))
  }

  predicate LimitMore(c: map<string, Value>, c': map<string, Value>, key: string) {
    && (key in c <==> key in c')
    && (key in c && IsNumber(c[key]) ==> c'[key] == c[key])
  }

  predicate CategoryMore(c: Value, c': Value) {
    c.Dict? ==> c'.Dict? && LimitMore(c.entries, c'.entries, RATIO_LIMIT)
                         && LimitMore(c.entries, c'.entries, SEEDING_TIME_LIMIT)
  }

  predicate CategoriesMore(f: Fact, f': Fact) {
    || f' == f
    || f.Unknown?
    || (!f.value.Null? && !f.value.Dict?)
    || (f.value.Dict? && f'.Known? && f'.value.Dict? && f'.value.entries.Keys == f.value.entries.Keys
        && forall c | c in f.value.entries :: CategoryMore(f.value.entries[c], f'.value.entries[c]))
  }

  /** Protocol and toggles may be settled; the seed criteria are the same. */
  predicate IndexerMore(x: IndexerFacts, x': IndexerFacts) {
    && (x.protocol.Known? && x.protocol.value.Str? ==> x'.protocol == x.protocol)
    && BoolMore(x.enableRss, x'.enableRss)
    && BoolMore(x.enableAutomaticSearch, x'.enableAutomaticSearch)
    && BoolMore(x.enableInteractiveSearch, x'.enableInteractiveSearch)
    && x'.seedRatio == x.seedRatio && x'.seedTime == x.seedTime
  }

  predicate IndexersMore(a: seq<IndexerFacts>, b: seq<IndexerFacts>) {
    |a| == |b| && forall k | 0 <= k < |a| :: IndexerMore(a[k], b[k])
  }

  /** Every input the first snapshot left undecided - never read, null or of the wrong type, or no arr
      at all - may be anything in the second; every input it decided is the same. */
  predicate KnowsMore(qbt: QbtInstance, arrs: seq<ArrInstance>, qbt': QbtInstance, arrs': seq<ArrInstance>) {
    && ClientMore(qbt, qbt')
    && (arrs == [] || (arrs' != [] && IndexersMore(Indexers(arrs), Indexers(arrs'))))
  }

  predicate ClientMore(qbt: QbtInstance, qbt': QbtInstance) {
    && BoolMore(qbt.queueingEnabled, qbt'.queueingEnabled)
    && IntMore(qbt.maxActiveDownloads, qbt'.maxActiveDownloads)
    && IntMore(qbt.maxActiveTorrents, qbt'.maxActiveTorrents)
    && BoolMore(qbt.dontCountSlowTorrents, qbt'.dontCountSlowTorrents)
    && BoolMore(qbt.maxRatioEnabled, qbt'.maxRatioEnabled)
    && NumberMore(qbt.maxRatio, qbt'.maxRatio)
    && IntMore(qbt.maxRatioAct, qbt'.maxRatioAct)
    && BoolMore(qbt.maxSeedingTimeEnabled, qbt'.maxSeedingTimeEnabled)
    && GateMore(qbt.maxInactiveSeedingTimeEnabled, qbt'.maxInactiveSeedingTimeEnabled)
    && CategoriesMore(qbt.categories, qbt'.categories)
  }

  // ------------------------------------------------------------------ the premises are monotone

  /** t' is t, or whatever t left undecided. */
  predicate Settles(t: Truth, t': Truth) {
    t.Undecided? || t' == t
  }

  lemma SourceMore(x: IndexerFacts, x': IndexerFacts)
    requires IndexerMore(x, x')
    ensures Settles(IsATorrentSource(x), IsATorrentSource(x'))
  {
    var a, a' := TruthOf(x.enableRss), TruthOf(x'.enableRss);
    var b, b' := TruthOf(x.enableAutomaticSearch), TruthOf(x'.enableAutomaticSearch);
    var c, c' := TruthOf(x.enableInteractiveSearch), TruthOf(x'.enableInteractiveSearch);
    assert Settles(a, a') && Settles(b, b') && Settles(c, c');
    assert [a', b', c'][0] == a' && [a', b', c'][1] == b' && [a', b', c'][2] == c';
    assert [a, b, c][0] == a && [a, b, c][1] == b && [a, b, c][2] == c;
  }

  /** What a shape reads of an indexer is its seed criteria alone. */
  ghost predicate ReadsCriteriaOnly(matches: IndexerFacts -> Truth) {
    forall x: IndexerFacts, x': IndexerFacts ::
      x.seedRatio == x'.seedRatio && x.seedTime == x'.seedTime ==> matches(x) == matches(x')
  }

  lemma AnyTorrentIndexerMore(arrs: seq<ArrInstance>, arrs': seq<ArrInstance>, matches: IndexerFacts -> Truth)
    requires arrs == [] || (arrs' != [] && IndexersMore(Indexers(arrs), Indexers(arrs')))
    requires ReadsCriteriaOnly(matches)
    ensures Settles(AnyTorrentIndexer(arrs, matches), AnyTorrentIndexer(arrs', matches))
  {
    AnyTorrentIndexerMeans(arrs, matches);
    AnyTorrentIndexerMeans(arrs', matches);
    if arrs != [] {
      var a, b := Indexers(arrs), Indexers(arrs');
      forall k | 0 <= k < |a|
        ensures Matches(a[k], matches) ==> Matches(b[k], matches)
        ensures Excluded(a[k], matches) ==> Excluded(b[k], matches)
      {
        SourceMore(a[k], b[k]);
        assert matches(a[k]) == matches(b[k]);
      }
      if SomeMatches(a, matches) {
        var k :| 0 <= k < |a| && Matches(a[k], matches);
        assert Matches(b[k], matches);
      }
    }
  }

  lemma CategoryStateMore(c: Value, c': Value)
    requires CategoryMore(c, c')
    ensures Settles(CategorySetsItsOwnLimit(c), CategorySetsItsOwnLimit(c'))
  {
    if c.Dict? {
      var r, r' := OwnShareLimit(c.entries, RATIO_LIMIT), OwnShareLimit(c'.entries, RATIO_LIMIT);
      var m, m' := OwnShareLimit(c.entries, SEEDING_TIME_LIMIT), OwnShareLimit(c'.entries, SEEDING_TIME_LIMIT);
      assert Settles(r, r') && Settles(m, m');
      assert [r, m][0] == r && [r, m][1] == m && [r', m'][0] == r' && [r', m'][1] == m';
    }
  }

  lemma CategoriesStateMore(qbt: QbtInstance, qbt': QbtInstance)
    requires CategoriesMore(qbt.categories, qbt'.categories)
    ensures Settles(NoCategorySetsItsOwnLimit(qbt), NoCategorySetsItsOwnLimit(qbt'))
  {
    if qbt.categories.Known? && qbt.categories.value.Dict? && qbt'.categories != qbt.categories {
      NoCategoryMeans(qbt);
      NoCategoryMeans(qbt');
      var a, b := qbt.categories.value.entries, qbt'.categories.value.entries;
      forall c | c in a
        ensures Settles(CategorySetsItsOwnLimit(a[c]), CategorySetsItsOwnLimit(b[c]))
      {
        CategoryStateMore(a[c], b[c]);
      }
    }
  }

  lemma NoSlotMore(qbt: QbtInstance, qbt': QbtInstance)
    requires IntMore(qbt.maxActiveDownloads, qbt'.maxActiveDownloads)
    requires IntMore(qbt.maxActiveTorrents, qbt'.maxActiveTorrents)
    ensures Settles(NoSlotForAFirstDownloadState(qbt), NoSlotForAFirstDownloadState(qbt'))
  {
    var a, a' := BlocksAFirstStart(qbt.maxActiveTorrents), BlocksAFirstStart(qbt'.maxActiveTorrents);
    var b, b' := BlocksAFirstStart(qbt.maxActiveDownloads), BlocksAFirstStart(qbt'.maxActiveDownloads);
    assert [a, b][0] == a && [a, b][1] == b && [a', b'][0] == a' && [a', b'][1] == b';
  }

  predicate TableMore(t: Table, t': Table) {
    && Settles(t.queueing, t'.queueing) && Settles(t.noSlot, t'.noSlot) && Settles(t.binds, t'.binds)
    && Settles(t.slowOff, t'.slowOff) && Settles(t.noInactive, t'.noInactive) && Settles(t.noRatio, t'.noRatio)
    && Settles(t.noSeedTime, t'.noSeedTime) && Settles(t.noCategory, t'.noCategory) && Settles(t.lacks, t'.lacks)
    && Settles(t.both, t'.both) && Settles(t.ratio, t'.ratio) && Settles(t.seedTime, t'.seedTime)
    && Settles(t.action, t'.action)
  }

  lemma ClientStatesMore(qbt: QbtInstance, arrs: seq<ArrInstance>, qbt': QbtInstance, arrs': seq<ArrInstance>)
    requires KnowsMore(qbt, arrs, qbt', arrs')
    ensures Settles(TruthOf(qbt.queueingEnabled), TruthOf(qbt'.queueingEnabled))
    ensures Settles(MaxActiveTorrentsBindsState(qbt), MaxActiveTorrentsBindsState(qbt'))
    ensures Settles(Not(TruthOf(qbt.dontCountSlowTorrents)), Not(TruthOf(qbt'.dontCountSlowTorrents)))
    ensures Settles(NotInactiveGate(qbt), NotInactiveGate(qbt'))
    ensures Settles(NoGlobalRatioState(qbt), NoGlobalRatioState(qbt'))
    ensures Settles(Not(TruthOf(qbt.maxSeedingTimeEnabled)), Not(TruthOf(qbt'.maxSeedingTimeEnabled)))
    ensures Settles(ActionFreesNoSlot(qbt), ActionFreesNoSlot(qbt'))
  {
    hide CategoriesMore, IndexersMore, Indexers, CanBeReached;
  }

  lemma TableKnowsMore(qbt: QbtInstance, arrs: seq<ArrInstance>, qbt': QbtInstance, arrs': seq<ArrInstance>)
    requires KnowsMore(qbt, arrs, qbt', arrs')
    ensures TableMore(TableOf(qbt, arrs), TableOf(qbt', arrs'))
  {
    ClientStatesMore(qbt, arrs, qbt', arrs');
    NoSlotMore(qbt, qbt');
    CategoriesStateMore(qbt, qbt');
    AnyTorrentIndexerMore(arrs, arrs', Lacks);
    AnyTorrentIndexerMore(arrs, arrs', OverridesBothShareLimits);
    AnyTorrentIndexerMore(arrs, arrs', OverridesTheRatioLimit);
    AnyTorrentIndexerMore(arrs, arrs', OverridesTheSeedTimeLimit);
    hide AnyTorrentIndexer, NoCategorySetsItsOwnLimit, NoSlotForAFirstDownloadState, Indexers, KnowsMore, Settles,
      NotInactiveGate, NoGlobalRatioState, ActionFreesNoSlot, MaxActiveTorrentsBindsState, TruthOf, Not;
  }

  lemma RouteMore(c: Route, t: Table, t': Table)
    requires TableMore(t, t')
    ensures Settles(RouteState(c, t), RouteState(c, t'))
  {
    hide Strict;
  }

  /** Information monotonicity. Whatever is filled in for the inputs a snapshot left undecided, a FAIL
      stays a FAIL and a PASS stays a PASS; only a SKIP may move. */
  lemma VerdictsNeverRetract(qbt: QbtInstance, arrs: seq<ArrInstance>, qbt': QbtInstance, arrs': seq<ArrInstance>)
    requires KnowsMore(qbt, arrs, qbt', arrs')
    ensures Check(qbt, arrs).outcome == FAIL ==> Check(qbt', arrs').outcome == FAIL
    ensures Check(qbt, arrs).outcome == PASS ==> Check(qbt', arrs').outcome == PASS
  {
    hide Check, TableOf, RouteState, KnowsMore;
    CheckByRoutes(qbt, arrs);
    CheckByRoutes(qbt', arrs');
    TableKnowsMore(qbt, arrs, qbt', arrs');
    forall c: Route
      ensures Settles(RouteState(c, TableOf(qbt, arrs)), RouteState(c, TableOf(qbt', arrs')))
    {
      RouteMore(c, TableOf(qbt, arrs), TableOf(qbt', arrs'));
    }
  }

  // ------------------------------------------------------------------ unreadable seed criteria

  /** f' is f, or a number that an unreadable f might have meant. */
  predicate ReadingOf(f: Fact, f': Fact) {
    f' == f || (IsAnUnusableSeedCriterion(f) && IsAReadableSeedCriterion(f'))
  }

  predicate IndexerReading(x: IndexerFacts, x': IndexerFacts) {
    && x'.protocol == x.protocol && x'.enableRss == x.enableRss
    && x'.enableAutomaticSearch == x.enableAutomaticSearch && x'.enableInteractiveSearch == x.enableInteractiveSearch
    && ReadingOf(x.seedRatio, x'.seedRatio) && ReadingOf(x.seedTime, x'.seedTime)
  }

  predicate Readings(arrs: seq<ArrInstance>, arrs': seq<ArrInstance>) {
    && (arrs == [] <==> arrs' == [])
    && |Indexers(arrs)| == |Indexers(arrs')|
    && forall k | 0 <= k < |Indexers(arrs)| :: IndexerReading(Indexers(arrs)[k], Indexers(arrs')[k])
  }

  /** A shape an indexer is shown not to have is not acquired by any reading of its criteria. */
  ghost predicate StaysExcluded(matches: IndexerFacts -> Truth) {
    forall x, x' :: IndexerReading(x, x') && matches(x) == Fails ==> matches(x') == Fails
  }

  lemma ShapesStayExcluded()
    ensures StaysExcluded(Lacks) && StaysExcluded(OverridesBothShareLimits)
    ensures StaysExcluded(OverridesTheRatioLimit) && StaysExcluded(OverridesTheSeedTimeLimit)
  {
    forall x, x' | IndexerReading(x, x')
      ensures Lacks(x) == Fails ==> Lacks(x') == Fails
      ensures OverridesBothShareLimits(x) == Fails ==> OverridesBothShareLimits(x') == Fails
      ensures OverridesTheRatioLimit(x) == Fails ==> OverridesTheRatioLimit(x') == Fails
      ensures OverridesTheSeedTimeLimit(x) == Fails ==> OverridesTheSeedTimeLimit(x') == Fails
    {
      ShapeStaysExcluded(x, x');
    }
  }

  lemma ShapeStaysExcluded(x: IndexerFacts, x': IndexerFacts)
    requires IndexerReading(x, x')
    ensures Lacks(x) == Fails ==> Lacks(x') == Fails
    ensures OverridesBothShareLimits(x) == Fails ==> OverridesBothShareLimits(x') == Fails
    ensures OverridesTheRatioLimit(x) == Fails ==> OverridesTheRatioLimit(x') == Fails
    ensures OverridesTheSeedTimeLimit(x) == Fails ==> OverridesTheSeedTimeLimit(x') == Fails
  {
    assert SeedCriteria(x')[0] == x'.seedRatio && SeedCriteria(x')[1] == x'.seedTime;
    var r, r' := OverridesTheShareLimit(x.seedRatio), OverridesTheShareLimit(x'.seedRatio);
    var m, m' := OverridesTheShareLimit(x.seedTime), OverridesTheShareLimit(x'.seedTime);
    var g, g' := Decided(!IsASeedGoal(x.seedTime)), Decided(!IsASeedGoal(x'.seedTime));
    var h, h' := Decided(!IsASeedGoal(x.seedRatio)), Decided(!IsASeedGoal(x'.seedRatio));
    assert (r == Fails ==> r' == Fails) && (m == Fails ==> m' == Fails);
    assert (g == Fails ==> g' == Fails) && (h == Fails ==> h' == Fails);
    assert [r', m'][0] == r' && [r', m'][1] == m' && [r', g'][0] == r' && [r', g'][1] == g';
    assert [m', h'][0] == m' && [m', h'][1] == h';
  }

  lemma ExcludedStays(arrs: seq<ArrInstance>, arrs': seq<ArrInstance>, matches: IndexerFacts -> Truth)
    requires Readings(arrs, arrs') && StaysExcluded(matches)
    ensures AnyTorrentIndexer(arrs, matches) == Fails ==> AnyTorrentIndexer(arrs', matches) == Fails
  {
    AnyTorrentIndexerMeans(arrs, matches);
    AnyTorrentIndexerMeans(arrs', matches);
    var a, b := Indexers(arrs), Indexers(arrs');
    if arrs != [] && AllExcluded(a, matches) {
      forall k | 0 <= k < |b|
        ensures Excluded(b[k], matches)
      {
        assert IndexerReading(a[k], b[k]) && Excluded(a[k], matches);
      }
    }
  }

  /** The arr's premises aside, the table is the same; and no arr premise that failed can hold. */
  predicate TableReading(t: Table, t': Table) {
    && t' == t.(lacks := t'.lacks, both := t'.both, ratio := t'.ratio, seedTime := t'.seedTime)
    && (t.lacks.Fails? ==> t'.lacks.Fails?) && (t.both.Fails? ==> t'.both.Fails?)
    && (t.ratio.Fails? ==> t'.ratio.Fails?) && (t.seedTime.Fails? ==> t'.seedTime.Fails?)
  }

  lemma RouteReading(c: Route, t: Table, t': Table)
    requires TableReading(t, t') && RouteState(c, t).Fails?
    ensures !RouteState(c, t').Holds?
  {
    hide Strict;
  }

  /** A PASS survives every reading of every unreadable seed criterion: whatever numbers they turn out
      to be, the stack never turns out to FAIL. */
  lemma PassSurvivesEveryReading(qbt: QbtInstance, arrs: seq<ArrInstance>, arrs': seq<ArrInstance>)
    requires Readings(arrs, arrs') && Check(qbt, arrs).outcome == PASS
    ensures Check(qbt, arrs').outcome != FAIL
  {
    ShapesStayExcluded();
    ExcludedStays(arrs, arrs', Lacks);
    ExcludedStays(arrs, arrs', OverridesBothShareLimits);
    ExcludedStays(arrs, arrs', OverridesTheRatioLimit);
    ExcludedStays(arrs, arrs', OverridesTheSeedTimeLimit);
    assert TableReading(TableOf(qbt, arrs), TableOf(qbt, arrs'));
    hide Check, TableOf, RouteState, Readings, StaysExcluded;
    CheckByRoutes(qbt, arrs);
    CheckByRoutes(qbt, arrs');
    forall c: Route
      ensures RouteState(c, TableOf(qbt, arrs')) != Holds
    {
      RouteReading(c, TableOf(qbt, arrs), TableOf(qbt, arrs'));
    }
  }
}
