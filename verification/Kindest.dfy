/** When a FAIL over unreadable seed criteria is right: exactly when it would still be a FAIL had every
    one of them been a goal. */
module Kindest {
  import opened Facts
  import opened Outcomes
  import opened QueueLiveness
  import opened Verdicts
  import opened Quantifier
  import opened SeedRatio
  import Trace = QueueTrace
  import opened Soundness
  import opened Completeness

  // ------------------------------------------------------------------ the kindest reading

  /** The reading of an unusable criterion that releases soonest: a goal met at once. */
  function KindestFact(fact: Fact): Fact {
    if IsAnUnusableSeedCriterion(fact) then Known(Int(0)) else fact
  }

  function KindestIndexer(x: IndexerFacts): IndexerFacts {
    x.(seedRatio := KindestFact(x.seedRatio), seedTime := KindestFact(x.seedTime))
  }

  function KindestIndexers(indexers: seq<IndexerFacts>): (kind: seq<IndexerFacts>)
    ensures |kind| == |indexers| && forall k :: 0 <= k < |kind| ==> kind[k] == KindestIndexer(indexers[k])
  {
    seq(|indexers|, k requires 0 <= k < |indexers| => KindestIndexer(indexers[k]))
  }

  function KindestArrs(arrs: seq<ArrInstance>): seq<ArrInstance> {
    if arrs == [] then []
    else [arrs[0].(indexers := KindestIndexers(arrs[0].indexers))] + KindestArrs(arrs[1..])
  }

  lemma {:induction false} IndexersOfKindest(arrs: seq<ArrInstance>)
    ensures Indexers(KindestArrs(arrs)) == KindestIndexers(Indexers(arrs))
  {
    if arrs != [] {
      IndexersOfKindest(arrs[1..]);
      assert KindestArrs(arrs)[1..] == KindestArrs(arrs[1..]);
    }
  }

  // ------------------------------------------------------------------ what it leaves of a FAIL

  /** Read kindly, an indexer has a route's shape exactly when it had it and could be read. */
  lemma KindestShape(conflict: Route, x: IndexerFacts)
    requires conflict in SEED_CRITERIA_CONFLICTS
    ensures Shape(conflict)(KindestIndexer(x)) == Holds <==> Shape(conflict)(x) == Holds && BothCriteriaUsable(x)
  {
    if BothCriteriaUsable(x) {
      assert KindestIndexer(x) == x;
    } else {
      assert IsASeedGoal(Known(Int(0)));
      assert SeedCriteria(KindestIndexer(x))[0] == KindestFact(x.seedRatio);
      assert SeedCriteria(KindestIndexer(x))[1] == KindestFact(x.seedTime);
      if Shape(conflict)(KindestIndexer(x)) == Holds {
        ShapeMeans(conflict, KindestIndexer(x));
        assert false;
      }
    }
  }

  lemma RouteHolds(conflict: Route, t: Table)
    ensures conflict in SEED_CRITERIA_CONFLICTS ==>
      (RouteState(conflict, t) == Holds <==>
        (match conflict case OverrideBoth => t.both case OverrideRatio => t.ratio
                        case OverrideSeedTime => t.seedTime case _ => t.lacks) == Holds
        && RouteState(conflict, t.(lacks := Holds, both := Holds, ratio := Holds, seedTime := Holds)) == Holds)
    ensures conflict !in SEED_CRITERIA_CONFLICTS ==>
      RouteState(conflict, t) ==
        RouteState(conflict, t.(lacks := Holds, both := Holds, ratio := Holds, seedTime := Holds))
  {}

  /** A route holds on the kindest reading exactly when it is firm. */
  lemma HoldsOnTheKindestIffFirm(conflict: Route, qbt: QbtInstance, arrs: seq<ArrInstance>)
    ensures RouteState(conflict, TableOf(qbt, KindestArrs(arrs))) == Holds <==> Firm(conflict, qbt, arrs)
  {
    var t, t' := TableOf(qbt, arrs), TableOf(qbt, KindestArrs(arrs));
    assert t' == t.(lacks := t'.lacks, both := t'.both, ratio := t'.ratio, seedTime := t'.seedTime);
    RouteHolds(conflict, t);
    RouteHolds(conflict, t');
    if conflict in SEED_CRITERIA_CONFLICTS {
      SeederPremise(conflict, arrs);
      AnyTorrentIndexerMeans(arrs, Shape(conflict));
    }
    hide RouteState, Shape, AnyTorrentIndexer, FirmIndexer;
  }

  /** The premise of a seeder route holds on the kindest reading exactly when an indexer of its shape
      could be read. */
  lemma SeederPremise(conflict: Route, arrs: seq<ArrInstance>)
    requires conflict in SEED_CRITERIA_CONFLICTS
    ensures AnyTorrentIndexer(KindestArrs(arrs), Shape(conflict)) == Holds <==>
      exists k :: FirmIndexer(conflict, arrs, k)
  {
    hide BothCriteriaUsable, Shape;
    AnyTorrentIndexerMeans(KindestArrs(arrs), Shape(conflict));
    IndexersOfKindest(arrs);
    var a, b := Indexers(arrs), Indexers(KindestArrs(arrs));
    forall k | 0 <= k < |a|
      ensures Matches(b[k], Shape(conflict)) <==> Matches(a[k], Shape(conflict)) && BothCriteriaUsable(a[k])
    {
      KindestShape(conflict, a[k]);
      assert IsATorrentSource(b[k]) == IsATorrentSource(a[k]);
    }
    assert forall k :: FirmIndexer(conflict, arrs, k) <==> 0 <= k < |b| && Matches(b[k], Shape(conflict));
  }

  /** The kindest reading FAILs exactly when some route is firm; and then so does the snapshot. */
  lemma KindestFailsIffFirm(qbt: QbtInstance, arrs: seq<ArrInstance>)
    ensures Check(qbt, KindestArrs(arrs)).outcome == FAIL <==> exists conflict: Route :: Firm(conflict, qbt, arrs)
    ensures Check(qbt, KindestArrs(arrs)).outcome == FAIL ==> Check(qbt, arrs).outcome == FAIL
  {
    CheckByRoutes(qbt, arrs);
    CheckByRoutes(qbt, KindestArrs(arrs));
    assert forall c: Route :: Firm(c, qbt, arrs) ==> RouteState(c, TableOf(qbt, arrs)) == Holds;
    hide Check, RouteState, TableOf, Firm;
    forall c: Route
      ensures RouteState(c, TableOf(qbt, KindestArrs(arrs))) == Holds <==> Firm(c, qbt, arrs)
    {
      HoldsOnTheKindestIffFirm(c, qbt, arrs);
    }
  }

  // ------------------------------------------------------------------ the client that means it kindly

  function KindestSource(x: IndexerFacts, source: Trace.Source): Trace.Source {
    source.(ratio := if IsAnUnusableSeedCriterion(x.seedRatio) then Finite(0.0) else source.ratio,
            minutes := if IsAnUnusableSeedCriterion(x.seedTime) then Finite(0.0) else source.minutes)
  }

  /** The same client, its indexers meaning 0 by whatever could not be read. */
  function KindestWorld(arrs: seq<ArrInstance>, w: Trace.World): (kind: Trace.World)
    requires |w.sources| == |Indexers(arrs)|
    ensures |kind.sources| == |w.sources|
    ensures forall k :: 0 <= k < |w.sources| ==> kind.sources[k] == KindestSource(Indexers(arrs)[k], w.sources[k])
    ensures kind == w.(sources := kind.sources)
  {
    w.(sources := seq(|w.sources|, k requires 0 <= k < |w.sources| => KindestSource(Indexers(arrs)[k], w.sources[k])))
  }

  /** The clients a FAIL on this snapshot has to be right about. Where their torrents are filed is open, as
      is what the checker never reads of the categories, so long as that rescues no torrents. */
  ghost predicate Terms(qbt: QbtInstance, arrs: seq<ArrInstance>, w: Trace.World) {
    && Trace.WellFormed(w) && Describes(qbt, arrs, w) && Trace.HasSource(w)
    && SeedTimesFit(w) && NoSourceRescued(w)
  }

  lemma ZeroIsInReach(w: Trace.World)
    requires Trace.WellFormed(w)
    ensures InReach(w, Finite(0.0))
  {
    QuotientIsDefined(INT64_MAX, w.largest);
    RatioMonotone(0, INT64_MAX, w.largest, w.largest);
  }

  lemma KindestIsDescribed(qbt: QbtInstance, arrs: seq<ArrInstance>, w: Trace.World)
    requires Describes(qbt, arrs, w) && |w.sources| == |Indexers(arrs)|
    ensures Describes(qbt, arrs, KindestWorld(arrs, w)) && Describes(qbt, KindestArrs(arrs), KindestWorld(arrs, w))
  {
    IndexersOfKindest(arrs);
    var kind := KindestWorld(arrs, w);
    forall k | 0 <= k < |w.sources|
      ensures IndexerRead(Indexers(arrs)[k], kind.sources[k])
      ensures IndexerRead(Indexers(KindestArrs(arrs))[k], kind.sources[k])
    {
      assert IndexerRead(Indexers(arrs)[k], w.sources[k]);
    }
    hide IndexerRead, KindestWorld, KindestArrs;
  }

  lemma KindestGoalsFit(arrs: seq<ArrInstance>, w: Trace.World)
    requires |w.sources| == |Indexers(arrs)| && Trace.WellFormed(w) && Trace.HasSource(w)
    requires RatioGoalsInReach(w) && SeedTimesFit(w)
    ensures Trace.WellFormed(KindestWorld(arrs, w)) && Trace.HasSource(KindestWorld(arrs, w))
    ensures RatioGoalsInReach(KindestWorld(arrs, w)) && SeedTimesFit(KindestWorld(arrs, w))
  {
    hide IsAnUnusableSeedCriterion, CanBeReached, RealRatio, AtMost, Indexers;
    ZeroIsInReach(w);
    var kind := KindestWorld(arrs, w);
    var k :| 0 <= k < |w.sources| && w.sources[k].Grabs();
    assert kind.sources[k].Grabs();
  }

  /** What a category resolves to does not depend on who files under it. */
  lemma {:induction false} SourcesDoNotMatter(w: Trace.World, u: Trace.World, category: string)
    requires Trace.WellFormed(w) && Trace.WellFormed(u) && u == w.(sources := u.sources)
    ensures forall axis: Trace.Axis :: Trace.CategoryLimit(u, axis, category) == Trace.CategoryLimit(w, axis, category)
    ensures Trace.CategoryAction(u, category) == Trace.CategoryAction(w, category)
    decreases w.depth(category)
  {
    if category != "" {
      SourcesDoNotMatter(w, u, w.parent(category));
    }
  }

  lemma KindestFiles(arrs: seq<ArrInstance>, w: Trace.World)
    requires |w.sources| == |Indexers(arrs)| && Trace.WellFormed(w) && Trace.WellFormed(KindestWorld(arrs, w))
    ensures NoSourceShielded(w) ==> NoSourceShielded(KindestWorld(arrs, w))
    ensures NoSourceRescued(w) ==> NoSourceRescued(KindestWorld(arrs, w))
  {
    var kind := KindestWorld(arrs, w);
    assert forall axis: Trace.Axis :: Trace.GlobalLimit(kind, axis) == Trace.GlobalLimit(w, axis);
    hide Trace.GlobalLimit, CanBeReached, Trace.WellFormed, Trace.Releases, IsAnUnusableSeedCriterion, Indexers;
    forall k | 0 <= k < |w.sources|
      ensures kind.sources[k].category == w.sources[k].category && kind.sources[k].Grabs() == w.sources[k].Grabs()
      ensures ActionShielded(kind, kind.sources[k].category) == ActionShielded(w, w.sources[k].category)
      ensures ActionRescued(kind, kind.sources[k].category) == ActionRescued(w, w.sources[k].category)
      ensures forall axis: Trace.Axis ::
        Shielded(kind, axis, kind.sources[k].category) == Shielded(w, axis, w.sources[k].category)
      ensures forall axis: Trace.Axis ::
        Rescued(kind, axis, kind.sources[k].category) == Rescued(w, axis, w.sources[k].category)
    {
      SourcesDoNotMatter(w, kind, w.sources[k].category);
    }
  }

  lemma KindestMeetsTheTerms(qbt: QbtInstance, arrs: seq<ArrInstance>, w: Trace.World)
    requires Terms(qbt, arrs, w) && NoSourceShielded(w) && RatioGoalsInReach(w)
    ensures |w.sources| == |Indexers(arrs)|
    ensures Terms(qbt, arrs, KindestWorld(arrs, w))
    ensures NoSourceShielded(KindestWorld(arrs, w)) && RatioGoalsInReach(KindestWorld(arrs, w))
  {
    assert |w.sources| == |Indexers(arrs)|;
    hide Describes, Trace.WellFormed, Trace.HasSource, NoSourceShielded, NoSourceRescued, RatioGoalsInReach,
      SeedTimesFit, KindestWorld;
    KindestIsDescribed(qbt, arrs, w);
    KindestGoalsFit(arrs, w);
    KindestFiles(arrs, w);
  }

  // ------------------------------------------------------------------ the condition

  /** The verdict FAIL would be right whichever of its clients the snapshot was read from. */
  ghost predicate FailIsRight(qbt: QbtInstance, arrs: seq<ArrInstance>) {
    forall w :: Terms(qbt, arrs, w) ==> Trace.WedgeReachable(w)
  }

  lemma ReadButForItsCriteriaIsDecided(qbt: QbtInstance, arrs: seq<ArrInstance>)
    requires FullyRead(qbt, KindestArrs(arrs))
    ensures Check(WithoutCategories(qbt), KindestArrs(arrs)).outcome in {PASS, FAIL}
  {
    assert FullyRead(WithoutCategories(qbt), KindestArrs(arrs));
    hide Check, FullyRead, WithoutCategories, KindestArrs;
    FullyReadIsDecided(WithoutCategories(qbt), KindestArrs(arrs));
  }

  /** Some client having been read at all, every client the snapshot could have been read from reaches a
      dead state if and only if the check, its unreadable criteria read as goals and its categories struck
      out, FAILs. A snapshot read in full but for its criteria meets the one condition, that this check is
      decided. */
  lemma EveryClientWedgesExactlyWhen(qbt: QbtInstance, arrs: seq<ArrInstance>, someClient: Trace.World)
    requires Terms(qbt, arrs, someClient) && NoSourceShielded(someClient) && RatioGoalsInReach(someClient)
    requires Check(WithoutCategories(qbt), KindestArrs(arrs)).outcome != SKIP
    ensures FailIsRight(qbt, arrs) <==> Check(WithoutCategories(qbt), KindestArrs(arrs)).outcome == FAIL
  {
    var bare := WithoutCategories(qbt);
    hide Check, Firm, Describes, Trace.WedgeReachable, NoSourceShielded, NoSourceRescued, RatioGoalsInReach;
    CheckByRoutes(bare, KindestArrs(arrs));
    KindestFailsIffFirm(bare, arrs);
    if conflict: Route :| Firm(conflict, bare, arrs) {
      forall w | Terms(qbt, arrs, w)
        ensures Trace.WedgeReachable(w)
      {
        FailWithoutCategoriesIsSound(qbt, arrs, w, conflict);
      }
    } else {
      KindestMeetsTheTerms(qbt, arrs, someClient);
      KindestIsDescribed(qbt, arrs, someClient);
      PassNeverWedges(qbt, KindestArrs(arrs), KindestWorld(arrs, someClient));
    }
  }

  /** A holding route that reads no category is firm, and any other has read that none releases. */
  lemma HoldingRouteIsFirmOrReadsCategories(conflict: Route, qbt: QbtInstance, arrs: seq<ArrInstance>)
    requires RouteState(conflict, TableOf(qbt, arrs)) == Holds
    ensures Firm(conflict, qbt, arrs) || NoCategorySetsItsOwnLimit(qbt) == Holds
  {
    hide AnyTorrentIndexer, NoCategorySetsItsOwnLimit, NoGlobalRatioState, NotInactiveGate;
    if conflict == OverrideBoth {
      HoldingSeederRoute(conflict, qbt, arrs);
      AnyTorrentIndexerMeans(arrs, Shape(conflict));
      var k :| 0 <= k < |Indexers(arrs)| && Matches(Indexers(arrs)[k], Shape(conflict));
      ShapeMeans(conflict, Indexers(arrs)[k]);
      assert FirmIndexer(conflict, arrs, k);
    }
  }

  /** Given a FAIL, its kindest reading needs no categories struck out. */
  lemma FailStandsOnTheKindest(qbt: QbtInstance, arrs: seq<ArrInstance>)
    requires Check(qbt, arrs).outcome == FAIL
    ensures StandsWithoutCategories(qbt, KindestArrs(arrs))
  {
    hide Check, RouteState, TableOf, Firm;
    CheckByRoutes(qbt, arrs);
    var conflict: Route :| RouteState(conflict, TableOf(qbt, arrs)) == Holds;
    HoldingRouteIsFirmOrReadsCategories(conflict, qbt, arrs);
    KindestFailsIffFirm(qbt, arrs);
    StandsUnlessACategoryReleases(qbt, KindestArrs(arrs));
  }

  /** Exactly when a FAIL over unreadable criteria is right for every client the snapshot could have been
      read from: if and only if it is still a FAIL with every one of them read as a goal. */
  lemma FailIsRightForEveryClient(qbt: QbtInstance, arrs: seq<ArrInstance>, someClient: Trace.World)
    requires Terms(qbt, arrs, someClient) && NoSourceShielded(someClient) && RatioGoalsInReach(someClient)
    requires Check(qbt, arrs).outcome == FAIL && Check(qbt, KindestArrs(arrs)).outcome != SKIP
    ensures FailIsRight(qbt, arrs) <==> Check(qbt, KindestArrs(arrs)).outcome == FAIL
  {
    hide Check, Terms, FailIsRight, NoSourceShielded, RatioGoalsInReach;
    FailStandsOnTheKindest(qbt, arrs);
    EveryClientWedgesExactlyWhen(qbt, arrs, someClient);
  }
}
