/** What the premises quantified over indexers and categories say about single ones. */
module Quantifier {
  import opened Outcomes
  import opened Combinator
  import opened QueueLiveness

  predicate Matches(indexer: IndexerFacts, matches: IndexerFacts -> Truth) {
    matches(indexer) == Holds && IsATorrentSource(indexer) == Holds
  }

  predicate Excluded(indexer: IndexerFacts, matches: IndexerFacts -> Truth) {
    matches(indexer) == Fails || IsATorrentSource(indexer) == Fails
  }

  ghost predicate SomeMatches(indexers: seq<IndexerFacts>, matches: IndexerFacts -> Truth) {
    exists k :: 0 <= k < |indexers| && Matches(indexers[k], matches)
  }

  ghost predicate AllExcluded(indexers: seq<IndexerFacts>, matches: IndexerFacts -> Truth) {
    forall k :: 0 <= k < |indexers| ==> Excluded(indexers[k], matches)
  }

  lemma ContributionsMean(indexers: seq<IndexerFacts>, matches: IndexerFacts -> Truth)
    ensures AnyOf(Contributions(indexers, matches)) == Holds <==> SomeMatches(indexers, matches)
    ensures AnyOf(Contributions(indexers, matches)) == Fails <==> AllExcluded(indexers, matches)
  {
    var states := Contributions(indexers, matches);
    assert forall k :: 0 <= k < |indexers| ==> (states[k] == Holds <==> Matches(indexers[k], matches));
    assert forall k :: 0 <= k < |indexers| ==> (states[k] == Fails <==> Excluded(indexers[k], matches));
    assert forall k :: 0 <= k < |indexers| ==> states[k] in states;
    assert Holds in states <==> exists k :: 0 <= k < |indexers| && states[k] == Holds;
  }

  /** The existential over indexers: one proved contributor settles it, every indexer excluded
      clears it, and with no arr at all neither claim can be made. */
  lemma AnyTorrentIndexerMeans(arrs: seq<ArrInstance>, matches: IndexerFacts -> Truth)
    ensures AnyTorrentIndexer(arrs, matches) == Holds <==> arrs != [] && SomeMatches(Indexers(arrs), matches)
    ensures AnyTorrentIndexer(arrs, matches) == Fails <==> arrs != [] && AllExcluded(Indexers(arrs), matches)
  {
    ContributionsMean(Indexers(arrs), matches);
  }

  /** The conflicting names in the unreadable-criterion note are exactly those of the indexers that
      fed the premise one: unusable, without a goal, and not excluded as a torrent source. */
  lemma {:induction false} UnreadableOfIsExact(owner: string, indexers: seq<IndexerFacts>)
    ensures forall s :: s in UnreadableOf(owner, indexers) <==>
      exists x :: x in indexers && FedThePremiseAnUnreadableCriterion(x) && s == owner + "/" + x.name
  {
    if indexers != [] {
      UnreadableOfIsExact(owner, indexers[1..]);
      assert indexers == [indexers[0]] + indexers[1..];
    }
  }

  lemma {:induction false} NoteNamesExactly(arrs: seq<ArrInstance>)
    ensures forall s :: s in IndexersWithUnreadableSeedCriteria(arrs) <==>
      exists a, x :: a in arrs && x in a.indexers && FedThePremiseAnUnreadableCriterion(x)
        && s == ArrLabel(a) + "/" + x.name
  {
    if arrs != [] {
      NoteNamesExactly(arrs[1..]);
      UnreadableOfIsExact(ArrLabel(arrs[0]), arrs[0].indexers);
      assert arrs == [arrs[0]] + arrs[1..];
    }
  }

  /** What feeding the premise an unreadable criterion is: a criterion that is present, not null and not a
      number, on an indexer without a goal that is not known to grab no torrents. */
  lemma FeedingMeans(x: IndexerFacts)
    ensures FedThePremiseAnUnreadableCriterion(x) <==>
      && (IsAnUnusableSeedCriterion(x.seedRatio) || IsAnUnusableSeedCriterion(x.seedTime))
      && !IsASeedGoal(x.seedRatio) && !IsASeedGoal(x.seedTime) && IsATorrentSource(x) != Fails
  {
    assert SeedCriteria(x)[0] == x.seedRatio && SeedCriteria(x)[1] == x.seedTime;
    hide IsAnUnusableSeedCriterion, IsASeedGoal, IsATorrentSource;
  }

  lemma UnreadableOfCons(owner: string, x: IndexerFacts, rest: seq<IndexerFacts>)
    ensures UnreadableOf(owner, [x] + rest) ==
      (if FedThePremiseAnUnreadableCriterion(x) then [owner + "/" + x.name] else []) + UnreadableOf(owner, rest)
  {
    hide FedThePremiseAnUnreadableCriterion;
    assert ([x] + rest)[1..] == rest;
  }

  lemma {:induction false} UnreadableOfAppend(owner: string, a: seq<IndexerFacts>, b: seq<IndexerFacts>)
    ensures UnreadableOf(owner, a + b) == UnreadableOf(owner, a) + UnreadableOf(owner, b)
  {
    hide UnreadableOf, FedThePremiseAnUnreadableCriterion;
    if a == [] {
      assert a + b == b;
      assert UnreadableOf(owner, []) == [] by { NothingUnreadable(owner); }
    } else {
      UnreadableOfAppend(owner, a[1..], b);
      UnreadableOfCons(owner, a[0], a[1..]);
      UnreadableOfCons(owner, a[0], a[1..] + b);
      assert a == [a[0]] + a[1..] && a + b == [a[0]] + (a[1..] + b);
    }
  }

  lemma NothingUnreadable(owner: string)
    ensures UnreadableOf(owner, []) == []
  {}

  lemma UnreadableCons(arr: ArrInstance, rest: seq<ArrInstance>)
    ensures IndexersWithUnreadableSeedCriteria([arr] + rest) ==
      UnreadableOf(ArrLabel(arr), arr.indexers) + IndexersWithUnreadableSeedCriteria(rest)
    ensures IndexersWithUnreadableSeedCriteria([]) == []
  {
    assert ([arr] + rest)[1..] == rest;
  }

  lemma {:induction false} UnreadableAppend(a: seq<ArrInstance>, b: seq<ArrInstance>)
    ensures IndexersWithUnreadableSeedCriteria(a + b) ==
      IndexersWithUnreadableSeedCriteria(a) + IndexersWithUnreadableSeedCriteria(b)
  {
    hide IndexersWithUnreadableSeedCriteria;
    if a == [] {
      assert a + b == b;
      UnreadableCons(ArrInstance("", "", []), []);
    } else {
      UnreadableAppend(a[1..], b);
      UnreadableCons(a[0], a[1..]);
      UnreadableCons(a[0], a[1..] + b);
      assert a == [a[0]] + a[1..] && a + b == [a[0]] + (a[1..] + b);
    }
  }

  lemma EmptyArrsCons(arr: ArrInstance, rest: seq<ArrInstance>)
    ensures EmptyArrs([arr] + rest) == (if arr.indexers == [] then [ArrLabel(arr)] else []) + EmptyArrs(rest)
    ensures EmptyArrs([]) == []
  {
    assert ([arr] + rest)[1..] == rest;
  }

  lemma {:induction false} EmptyArrsAppend(a: seq<ArrInstance>, b: seq<ArrInstance>)
    ensures EmptyArrs(a + b) == EmptyArrs(a) + EmptyArrs(b)
  {
    hide EmptyArrs;
    if a == [] {
      assert a + b == b;
      EmptyArrsCons(ArrInstance("", "", []), []);
    } else {
      EmptyArrsAppend(a[1..], b);
      EmptyArrsCons(a[0], a[1..]);
      EmptyArrsCons(a[0], a[1..] + b);
      assert a == [a[0]] + a[1..] && a + b == [a[0]] + (a[1..] + b);
    }
  }

  lemma IndexersCons(arr: ArrInstance, rest: seq<ArrInstance>)
    ensures Indexers([arr] + rest) == arr.indexers + Indexers(rest) && Indexers([]) == []
  {
    assert ([arr] + rest)[1..] == rest;
  }

  lemma {:induction false} IndexersAppend(a: seq<ArrInstance>, b: seq<ArrInstance>)
    ensures Indexers(a + b) == Indexers(a) + Indexers(b)
  {
    hide Indexers;
    if a == [] {
      assert a + b == b;
      IndexersCons(ArrInstance("", "", []), []);
    } else {
      IndexersAppend(a[1..], b);
      IndexersCons(a[0], a[1..]);
      IndexersCons(a[0], a[1..] + b);
      assert a == [a[0]] + a[1..] && a + b == [a[0]] + (a[1..] + b);
    }
  }

  /** The notes follow the arrs in the order they were collected. */
  lemma NotesAreInOrder(a: seq<ArrInstance>, b: seq<ArrInstance>)
    ensures IndexersWithUnreadableSeedCriteria(a + b) ==
      IndexersWithUnreadableSeedCriteria(a) + IndexersWithUnreadableSeedCriteria(b)
    ensures EmptyArrs(a + b) == EmptyArrs(a) + EmptyArrs(b)
    ensures Indexers(a + b) == Indexers(a) + Indexers(b)
  {
    UnreadableAppend(a, b);
    EmptyArrsAppend(a, b);
    IndexersAppend(a, b);
  }

  /** And name each indexer, and each arr, once. */
  lemma NoteOfOne(arr: ArrInstance, owner: string, x: IndexerFacts)
    ensures IndexersWithUnreadableSeedCriteria([arr]) == UnreadableOf(arr.kind + "[" + arr.name + "]", arr.indexers)
    ensures UnreadableOf(owner, [x]) == if FedThePremiseAnUnreadableCriterion(x) then [owner + "/" + x.name] else []
    ensures EmptyArrs([arr]) == if arr.indexers == [] then [arr.kind + "[" + arr.name + "]"] else []
    ensures Indexers([arr]) == arr.indexers
  {
    hide FedThePremiseAnUnreadableCriterion;
    assert [arr][1..] == [] && [x][1..] == [];
  }

  lemma {:induction false} IndexersAreOfArrs(arrs: seq<ArrInstance>, x: IndexerFacts)
    ensures x in Indexers(arrs) <==> exists a :: a in arrs && x in a.indexers
  {
    if arrs != [] {
      IndexersAreOfArrs(arrs[1..], x);
      assert arrs == [arrs[0]] + arrs[1..];
    }
  }

  /** An indexer that fed the premise a criterion nobody could read is always named. */
  lemma UnreadableIsNamed(arrs: seq<ArrInstance>, x: IndexerFacts)
    requires x in Indexers(arrs) && FedThePremiseAnUnreadableCriterion(x)
    ensures IndexersWithUnreadableSeedCriteria(arrs) != []
  {
    NoteNamesExactly(arrs);
    IndexersAreOfArrs(arrs, x);
    var a :| a in arrs && x in a.indexers;
    assert ArrLabel(a) + "/" + x.name in IndexersWithUnreadableSeedCriteria(arrs);
  }

  /** The category premise: proved when every category was read and none releases its own torrents. */
  lemma NoCategoryMeans(qbt: QbtInstance)
    requires qbt.categories.Known? && qbt.categories.value.Dict?
    ensures var entries := qbt.categories.value.entries;
      && (NoCategorySetsItsOwnLimit(qbt) == Holds <==>
            forall c :: c in entries ==> CategorySetsItsOwnLimit(entries[c]) == Fails)
      && (NoCategorySetsItsOwnLimit(qbt) == Fails <==>
            exists c :: c in entries && CategorySetsItsOwnLimit(entries[c]) == Holds)
  {
    var entries := qbt.categories.value.entries;
    var states := set c | c in entries :: CategorySetsItsOwnLimit(entries[c]);
    assert forall c :: c in entries ==> CategorySetsItsOwnLimit(entries[c]) in states;
  }
}
