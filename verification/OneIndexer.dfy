/** One arr with one enabled torrent indexer, and what the premises make of it. */
module OneIndexer {
  import opened Facts
  import opened Outcomes
  import opened Combinator
  import opened QueueLiveness
  import opened Quantifier

  /** One sonarr with one enabled torrent indexer. */
  function Stack(seedRatio: Fact): seq<ArrInstance> {
    [ArrInstance("main", "sonarr",
      [IndexerFacts("x", Known(Str("torrent")), Known(Bool(true)), Known(Bool(true)), Known(Bool(true)),
                    seedRatio, Unknown(FieldAbsent), Unknown(FieldAbsent))])]
  }

  lemma StackIndexers(seedRatio: Fact)
    ensures Indexers(Stack(seedRatio)) == Stack(seedRatio)[0].indexers
  {
    assert Stack(seedRatio)[1..] == [];
  }

  lemma OnlyIndexer(seedRatio: Fact, matches: IndexerFacts -> Truth)
    ensures matches(Stack(seedRatio)[0].indexers[0]) == Fails ==> AnyTorrentIndexer(Stack(seedRatio), matches) == Fails
    ensures matches(Stack(seedRatio)[0].indexers[0]) == Holds ==> AnyTorrentIndexer(Stack(seedRatio), matches) == Holds
  {
    StackIndexers(seedRatio);
    AnyTorrentIndexerMeans(Stack(seedRatio), matches);
    var x := Stack(seedRatio)[0].indexers[0];
    assert [TruthOf(x.enableRss), TruthOf(x.enableAutomaticSearch), TruthOf(x.enableInteractiveSearch)][0] == Holds;
    assert Indexers(Stack(seedRatio))[0] == x;
    if matches(x) == Holds {
      assert Matches(Indexers(Stack(seedRatio))[0], matches);
    }
  }

  /** Nothing in the stack's shape lets an override route fire when the one criterion does not override. */
  lemma NoOverride(seedRatio: Fact)
    requires OverridesTheShareLimit(seedRatio) == Fails
    ensures AnyTorrentIndexer(Stack(seedRatio), OverridesBothShareLimits) == Fails
    ensures AnyTorrentIndexer(Stack(seedRatio), OverridesTheRatioLimit) == Fails
    ensures AnyTorrentIndexer(Stack(seedRatio), OverridesTheSeedTimeLimit) == Fails
  {
    var x := Stack(seedRatio)[0].indexers[0];
    var r, m := OverridesTheShareLimit(x.seedRatio), OverridesTheShareLimit(x.seedTime);
    assert [r, m][0] == Fails;
    assert [r, Decided(!IsASeedGoal(x.seedTime))][0] == Fails && [m, Decided(!IsASeedGoal(x.seedRatio))][0] == Fails;
    OnlyIndexer(seedRatio, OverridesBothShareLimits);
    OnlyIndexer(seedRatio, OverridesTheRatioLimit);
    OnlyIndexer(seedRatio, OverridesTheSeedTimeLimit);
  }

  /** A ratio out of reach beside a seed time that defers overrides the ratio and nothing else. */
  lemma OverriddenRatioTable(seedRatio: Fact)
    requires OverridesTheShareLimit(seedRatio) == Holds
    ensures AnyTorrentIndexer(Stack(seedRatio), OverridesBothShareLimits) == Fails
    ensures AnyTorrentIndexer(Stack(seedRatio), OverridesTheRatioLimit) == Holds
    ensures AnyTorrentIndexer(Stack(seedRatio), OverridesTheSeedTimeLimit) == Fails
  {
    var x := Stack(seedRatio)[0].indexers[0];
    var r, m := OverridesTheShareLimit(x.seedRatio), OverridesTheShareLimit(x.seedTime);
    assert [r, m][1] == Fails && [m, Decided(!IsASeedGoal(x.seedRatio))][0] == Fails;
    OnlyIndexer(seedRatio, OverridesBothShareLimits);
    OnlyIndexer(seedRatio, OverridesTheRatioLimit);
    OnlyIndexer(seedRatio, OverridesTheSeedTimeLimit);
  }

  lemma LacksTable(seedRatio: Fact)
    ensures AnyTorrentIndexer(Stack(seedRatio), Lacks) == Decided(!IsASeedGoal(seedRatio))
  {
    var x := Stack(seedRatio)[0].indexers[0];
    assert SeedCriteria(x)[0] == seedRatio && SeedCriteria(x)[1] == Unknown(FieldAbsent);
    assert forall f :: f in SeedCriteria(x) ==> f == seedRatio || f == Unknown(FieldAbsent);
    OnlyIndexer(seedRatio, Lacks);
  }
}
