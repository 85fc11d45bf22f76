/** The order of an indexer's `fields` list decides nothing, from the payload to the finding. */
module FieldOrder {
  import opened Facts
  import opened Outcomes
  import opened Combinator
  import opened QueueLiveness
  import opened Verdicts
  import opened Arr

  // ------------------------------------------------------------------ permuted lists

  function Without(b: seq<Entry>, i: nat): seq<Entry>
    requires i < |b|
  {
    b[..i] + b[i + 1..]
  }

  lemma RemoveOne(a: seq<Entry>, b: seq<Entry>, i: nat)
    requires a != [] && i < |b| && b[i] == a[0] && multiset(a) == multiset(b)
    ensures multiset(a[1..]) == multiset(Without(b, i))
  {
    assert a == [a[0]] + a[1..];
    assert b == b[..i] + [b[i]] + b[i + 1..];
    assert multiset(a) == multiset{a[0]} + multiset(a[1..]);
    assert multiset(b) == multiset(b[..i]) + multiset{b[i]} + multiset(b[i + 1..]);
    assert multiset(Without(b, i)) == multiset(b[..i]) + multiset(b[i + 1..]);
    assert multiset(a[1..]) == multiset(a) - multiset{a[0]};
    assert multiset(Without(b, i)) == multiset(b) - multiset{a[0]};
  }

  lemma ValuesWithout(b: seq<Entry>, i: nat, name: string)
    requires i < |b|
    ensures multiset(ValuesOf(b, name)) == multiset(ValuesOf([b[i]], name)) + multiset(ValuesOf(Without(b, i), name))
  {
    assert b == b[..i] + ([b[i]] + b[i + 1..]);
    ValuesOfAppend(b[..i], [b[i]] + b[i + 1..], name);
    ValuesOfAppend([b[i]], b[i + 1..], name);
    ValuesOfAppend(b[..i], b[i + 1..], name);
  }

  lemma {:induction false} PermutedValues(a: seq<Entry>, b: seq<Entry>, name: string)
    requires multiset(a) == multiset(b)
    ensures multiset(ValuesOf(a, name)) == multiset(ValuesOf(b, name))
  {
    if a == [] {
      assert |multiset(b)| == 0;
    } else {
      assert a[0] in multiset(b);
      var i :| 0 <= i < |b| && b[i] == a[0];
      RemoveOne(a, b, i);
      PermutedValues(a[1..], Without(b, i), name);
      ValuesWithout(b, i, name);
      ValuesWithout(a, 0, name);
      assert Without(a, 0) == a[1..];
    }
  }

  lemma TwoOccurrences(values: seq<Value>, v: Value) returns (i: nat, j: nat)
    requires multiset(values)[v] >= 2
    ensures i < j < |values| && values[i] == v == values[j]
  {
    FirstOccurrence(values, v);
    i :| 0 <= i < |values| && values[i] == v && v !in values[..i];
    assert values == values[..i] + [v] + values[i + 1..];
    assert v in values[i + 1..];
    j :| i + 1 <= j < |values| && values[j] == v;
  }

  lemma {:induction false} FirstOccurrence(values: seq<Value>, v: Value)
    requires v in values
    ensures exists i :: 0 <= i < |values| && values[i] == v && v !in values[..i]
  {
    if values[0] == v {
      assert v !in values[..0];
    } else {
      assert v in values[1..];
      FirstOccurrence(values[1..], v);
      var i :| 0 <= i < |values[1..]| && values[1..][i] == v && v !in values[1..][..i];
      assert values[..i + 1] == [values[0]] + values[1..][..i];
      assert values[i + 1] == v && v !in values[..i + 1];
    }
  }

  lemma CountTwo(values: seq<Value>, i: nat, j: nat)
    requires i < j < |values| && values[i] == values[j]
    ensures multiset(values)[values[i]] >= 2
  {
    assert values == values[..j] + values[j..];
    assert values[..j][i] in values[..j] && values[j..][0] in values[j..];
  }

  /** Pairwise agreement is a property of the multiset of values. */
  lemma AgreePermuted(a: seq<Value>, b: seq<Value>)
    requires multiset(a) == multiset(b) && Agree(a)
    ensures Agree(b)
  {
    forall i, j | 0 <= i < j < |b|
      ensures Interchangeable(b[i], b[j])
    {
      assert b[i] in multiset(b) && b[j] in multiset(b);
      if b[i] == b[j] {
        CountTwo(b, i, j);
        var p, q := TwoOccurrences(a, b[i]);
      } else {
        var p :| 0 <= p < |a| && a[p] == b[i];
        var q :| 0 <= q < |a| && a[q] == b[j];
        if q < p {
          SameValueSymmetric(a[q], a[p]);
        }
      }
    }
  }

  /** The same fact: the same reason for not knowing, or values that are equal or interchangeable. */
  ghost predicate SameFact(f: Fact, f': Fact) {
    f == f' || (f.Known? && f'.Known? && Interchangeable(f.value, f'.value))
  }

  ghost predicate SimilarResult(m: Result<Entry>, m': Result<Entry>) {
    && (m.Ok? <==> m'.Ok?)
    && (m.Ok? ==> forall n :: n in READ_FIELD_NAMES ==> SameFact(Read(m.value, n), Read(m'.value, n)))
  }

  lemma MappingValue(entries: seq<Entry>, n: string)
    requires MappingOf(entries).Ok? && n in READ_FIELD_NAMES
    ensures Read(MappingOf(entries).value, n) ==
      if ValuesOf(entries, n) == [] then Unknown(FieldAbsent) else Known(ValuesOf(entries, n)[0])
  {
    ValuedIffSomeEntry(entries, n);
  }

  lemma FirstValuePermuted(a: seq<Entry>, b: seq<Entry>, n: string)
    requires MappingOf(a).Ok? && MappingOf(b).Ok? && n in READ_FIELD_NAMES
    requires multiset(ValuesOf(a, n)) == multiset(ValuesOf(b, n)) && Agree(ValuesOf(a, n))
    ensures SameFact(Read(MappingOf(a).value, n), Read(MappingOf(b).value, n))
  {
    MappingValue(a, n);
    MappingValue(b, n);
    hide MappingOf, ValuesOf, READ_FIELD_NAMES;
    var v, v' := ValuesOf(a, n), ValuesOf(b, n);
    assert |v| == |multiset(v)| && |v'| == |multiset(v')|;
    if v != [] {
      assert v'[0] in multiset(v');
      var p :| 0 <= p < |v| && v[p] == v'[0];
      assert v[0] == v[p] || Interchangeable(v[0], v[p]);
    }
  }

  lemma NamePermuted(a: seq<Entry>, b: seq<Entry>, n: string)
    requires multiset(a) == multiset(b)
    ensures multiset(ValuesOf(a, n)) == multiset(ValuesOf(b, n))
    ensures Agree(ValuesOf(a, n)) <==> Agree(ValuesOf(b, n))
  {
    PermutedValues(a, b, n);
    if Agree(ValuesOf(a, n)) {
      AgreePermuted(ValuesOf(a, n), ValuesOf(b, n));
    }
    if Agree(ValuesOf(b, n)) {
      AgreePermuted(ValuesOf(b, n), ValuesOf(a, n));
    }
  }

  /** Permuting the entries keeps failure a failure, and keeps every fact that is read. */
  lemma MappingPermuted(a: seq<Entry>, b: seq<Entry>)
    requires multiset(a) == multiset(b)
    ensures SimilarResult(MappingOf(a), MappingOf(b))
  {
    hide Agree, ValuesOf, ValueFor, ValuedNames, HasName, READ_FIELD_NAMES, SameFact;
    assert forall e :: e in a <==> e in multiset(a);
    assert forall e :: e in b <==> e in multiset(b);
    forall n
      ensures Agree(ValuesOf(a, n)) <==> Agree(ValuesOf(b, n))
    {
      NamePermuted(a, b, n);
    }
    if MappingOf(a).Ok? {
      forall n | n in READ_FIELD_NAMES
        ensures SameFact(Read(MappingOf(a).value, n), Read(MappingOf(b).value, n))
      {
        NamePermuted(a, b, n);
        FirstValuePermuted(a, b, n);
      }
    }
  }

  // ------------------------------------------------------------------ from the payload to the finding

  /** The same indexer payload, its `fields` list in another order. */
  ghost predicate FieldsPermuted(raw: Entry, raw': Entry) {
    raw' == raw ||
    (&& "fields" in raw && "fields" in raw' && raw["fields"].List? && raw'["fields"].List?
     && multiset(raw["fields"].items) == multiset(raw'["fields"].items)
     && raw' == raw["fields" := raw'["fields"]])
  }

  /** The same indexer, each seed criterion the same fact. */
  ghost predicate SimilarIndexer(x: IndexerFacts, x': IndexerFacts) {
    && x' == x.(seedRatio := x'.seedRatio, seedTime := x'.seedTime, seasonPackSeedTime := x'.seasonPackSeedTime)
    && SameFact(x.seedRatio, x'.seedRatio) && SameFact(x.seedTime, x'.seedTime)
  }

  lemma ObjectsPermuted(items: seq<Value>, items': seq<Value>)
    requires multiset(items) == multiset(items')
    ensures AllObjects(items) <==> AllObjects(items')
    ensures AllObjects(items) ==> multiset(Objects(items)) == multiset(Objects(items'))
  {
    assert forall v :: v in items <==> v in multiset(items);
    assert forall v :: v in items' <==> v in multiset(items');
    if AllObjects(items) {
      ObjectsMultiset(items, items');
    }
  }

  lemma {:induction false} ObjectsMultiset(items: seq<Value>, items': seq<Value>)
    requires multiset(items) == multiset(items') && AllObjects(items) && AllObjects(items')
    ensures multiset(Objects(items)) == multiset(Objects(items'))
  {
    forall e: Entry
      ensures multiset(Objects(items))[e] == multiset(items)[Dict(e)]
      ensures multiset(Objects(items'))[e] == multiset(items')[Dict(e)]
    {
      ObjectCount(items, e);
      ObjectCount(items', e);
    }
  }

  lemma ObjectsCons(items: seq<Value>)
    requires AllObjects(items) && items != []
    ensures items[0].Dict? && AllObjects(items[1..]) && Objects(items) == [items[0].entries] + Objects(items[1..])
  {
    assert items[0] in items;
    assert forall v :: v in items[1..] ==> v in items;
  }

  lemma CountCons<T>(s: seq<T>, v: T)
    requires s != []
    ensures multiset(s)[v] == (if s[0] == v then 1 else 0) + multiset(s[1..])[v]
  {
    assert s == [s[0]] + s[1..];
  }

  lemma {:induction false} ObjectCount(items: seq<Value>, e: Entry)
    requires AllObjects(items)
    ensures multiset(Objects(items))[e] == multiset(items)[Dict(e)]
  {
    if items != [] {
      ObjectsCons(items);
      hide AllObjects, Objects;
      ObjectCount(items[1..], e);
      CountCons(items, Dict(e));
      CountCons(Objects(items), e);
      assert Objects(items)[1..] == Objects(items[1..]);
    }
  }

  lemma IndexerPermuted(raw: Entry, raw': Entry)
    requires FieldsPermuted(raw, raw')
    ensures IndexerOf(raw).Ok? <==> IndexerOf(raw').Ok?
    ensures IndexerOf(raw).Ok? ==> SimilarIndexer(IndexerOf(raw).value, IndexerOf(raw').value)
  {
    if raw' != raw {
      KeysDiffer();
      ObjectsPermuted(raw["fields"].items, raw'["fields"].items);
      if AllObjects(raw["fields"].items) {
        MappingPermuted(Objects(raw["fields"].items), Objects(raw'["fields"].items));
      }
    }
  }

  lemma KeysDiffer()
    ensures "fields" != "name" && "fields" != "protocol" && "fields" != "enableRss"
    ensures "fields" != "enableAutomaticSearch" && "fields" != "enableInteractiveSearch"
  {
    assert |"fields"| == 6 && |"name"| == 4 && |"protocol"| == 8 && |"enableRss"| == 9;
    assert |"enableAutomaticSearch"| == 21 && |"enableInteractiveSearch"| == 23;
  }

  /** 2 and 2.0 are one fact and 0 and False are two: interchangeable values are classified alike. */
  lemma SameFactSameMeaning(f: Fact, f': Fact)
    requires SameFact(f, f')
    ensures IsASeedGoal(f) == IsASeedGoal(f')
    ensures OverridesTheShareLimit(f) == OverridesTheShareLimit(f')
    ensures IsAnUnusableSeedCriterion(f) == IsAnUnusableSeedCriterion(f')
  {
    if f != f' && IsNumeric(f.value) && !f.value.Bool? {
      assert NumberOf(f.value) == NumberOf(f'.value);
    }
  }

  lemma SimilarMatch(x: IndexerFacts, x': IndexerFacts)
    requires SimilarIndexer(x, x')
    ensures Lacks(x) == Lacks(x') && OverridesBothShareLimits(x) == OverridesBothShareLimits(x')
    ensures OverridesTheRatioLimit(x) == OverridesTheRatioLimit(x')
    ensures OverridesTheSeedTimeLimit(x) == OverridesTheSeedTimeLimit(x')
    ensures IsATorrentSource(x) == IsATorrentSource(x')
    ensures FedThePremiseAnUnreadableCriterion(x) == FedThePremiseAnUnreadableCriterion(x')
  {
    SameFactSameMeaning(x.seedRatio, x'.seedRatio);
    SameFactSameMeaning(x.seedTime, x'.seedTime);
    assert SeedCriteria(x)[0] == x.seedRatio && SeedCriteria(x)[1] == x.seedTime;
    assert SeedCriteria(x')[0] == x'.seedRatio && SeedCriteria(x')[1] == x'.seedTime;
    hide IsASeedGoal, OverridesTheShareLimit, IsAnUnusableSeedCriterion, SameFact;
  }

  ghost predicate SimilarIndexers(a: seq<IndexerFacts>, b: seq<IndexerFacts>) {
    |a| == |b| && forall k :: 0 <= k < |a| ==> SimilarIndexer(a[k], b[k])
  }

  ghost predicate SimilarArr(a: ArrInstance, b: ArrInstance) {
    a.name == b.name && a.kind == b.kind && SimilarIndexers(a.indexers, b.indexers)
  }

  ghost predicate SimilarArrs(arrs: seq<ArrInstance>, arrs': seq<ArrInstance>) {
    |arrs| == |arrs'| && forall k :: 0 <= k < |arrs| ==> SimilarArr(arrs[k], arrs'[k])
  }

  lemma {:induction false} SimilarFlatten(arrs: seq<ArrInstance>, arrs': seq<ArrInstance>)
    requires SimilarArrs(arrs, arrs')
    ensures SimilarIndexers(Indexers(arrs), Indexers(arrs'))
    ensures EmptyArrs(arrs) == EmptyArrs(arrs')
  {
    if arrs != [] {
      hide SimilarIndexer;
      assert SimilarArr(arrs[0], arrs'[0]);
      assert SimilarArrs(arrs[1..], arrs'[1..]);
      SimilarFlatten(arrs[1..], arrs'[1..]);
    }
  }

  lemma {:induction false} SimilarUnreadableOf(owner: string, a: seq<IndexerFacts>, b: seq<IndexerFacts>)
    requires SimilarIndexers(a, b)
    ensures UnreadableOf(owner, a) == UnreadableOf(owner, b)
  {
    if a != [] {
      assert SimilarIndexer(a[0], b[0]);
      SimilarMatch(a[0], b[0]);
      hide SimilarIndexer, FedThePremiseAnUnreadableCriterion;
      SimilarUnreadableOf(owner, a[1..], b[1..]);
      assert a[0].name == b[0].name by { SimilarNames(a[0], b[0]); }
    }
  }

  lemma SimilarNames(x: IndexerFacts, x': IndexerFacts)
    requires SimilarIndexer(x, x')
    ensures x.name == x'.name
  {}

  lemma {:induction false} SimilarUnreadable(arrs: seq<ArrInstance>, arrs': seq<ArrInstance>)
    requires SimilarArrs(arrs, arrs')
    ensures IndexersWithUnreadableSeedCriteria(arrs) == IndexersWithUnreadableSeedCriteria(arrs')
  {
    if arrs != [] {
      assert SimilarArr(arrs[0], arrs'[0]);
      SimilarUnreadableOf(ArrLabel(arrs[0]), arrs[0].indexers, arrs'[0].indexers);
      assert SimilarArrs(arrs[1..], arrs'[1..]);
      SimilarUnreadable(arrs[1..], arrs'[1..]);
    }
  }

  lemma SimilarPremise(arrs: seq<ArrInstance>, arrs': seq<ArrInstance>, matches: IndexerFacts -> Truth)
    requires SimilarArrs(arrs, arrs')
    requires forall x, x' :: SimilarIndexer(x, x') ==> matches(x) == matches(x')
    ensures AnyTorrentIndexer(arrs, matches) == AnyTorrentIndexer(arrs', matches)
  {
    SimilarFlatten(arrs, arrs');
    var a, b := Indexers(arrs), Indexers(arrs');
    forall k | 0 <= k < |a|
      ensures Contributions(a, matches)[k] == Contributions(b, matches)[k]
    {
      SimilarMatch(a[k], b[k]);
    }
    assert Contributions(a, matches) == Contributions(b, matches);
  }

  /** Indexers that differ only in interchangeable criteria give the same finding, word for word. */
  lemma SimilarArrsSameFinding(qbt: QbtInstance, arrs: seq<ArrInstance>, arrs': seq<ArrInstance>)
    requires SimilarArrs(arrs, arrs')
    ensures Check(qbt, arrs) == Check(qbt, arrs')
  {
    forall x, x' | SimilarIndexer(x, x')
      ensures Lacks(x) == Lacks(x') && OverridesBothShareLimits(x) == OverridesBothShareLimits(x')
        && OverridesTheRatioLimit(x) == OverridesTheRatioLimit(x')
        && OverridesTheSeedTimeLimit(x) == OverridesTheSeedTimeLimit(x')
    {
      SimilarMatch(x, x');
    }
    SimilarPremise(arrs, arrs', Lacks);
    SimilarPremise(arrs, arrs', OverridesBothShareLimits);
    SimilarPremise(arrs, arrs', OverridesTheRatioLimit);
    SimilarPremise(arrs, arrs', OverridesTheSeedTimeLimit);
    SimilarFlatten(arrs, arrs');
    SimilarUnreadable(arrs, arrs');
    SameRoutes(qbt, arrs, arrs');
  }

  lemma SameRoutes(qbt: QbtInstance, arrs: seq<ArrInstance>, arrs': seq<ArrInstance>)
    requires AnyTorrentIndexer(arrs, Lacks) == AnyTorrentIndexer(arrs', Lacks)
    requires AnyTorrentIndexer(arrs, OverridesBothShareLimits) == AnyTorrentIndexer(arrs', OverridesBothShareLimits)
    requires AnyTorrentIndexer(arrs, OverridesTheRatioLimit) == AnyTorrentIndexer(arrs', OverridesTheRatioLimit)
    requires AnyTorrentIndexer(arrs, OverridesTheSeedTimeLimit) == AnyTorrentIndexer(arrs', OverridesTheSeedTimeLimit)
    ensures Routes(qbt, arrs) == Routes(qbt, arrs')
  {
    hide AnyTorrentIndexer, ConflictIf;
    assert forall c: Route :: RoutePremises(c, qbt, arrs) == RoutePremises(c, qbt, arrs');
    forall k | 0 <= k < |ROUTES|
      ensures Routes(qbt, arrs)[k] == Routes(qbt, arrs')[k]
    {
      FindingOfRoute(ROUTES, qbt, arrs, k);
      FindingOfRoute(ROUTES, qbt, arrs', k);
    }
    assert Routes(qbt, arrs) == Routes(qbt, arrs');
  }

  /** One arr as it answered: its name, its kind, and the decoded indexer list. */
  datatype Answer = Answer(name: string, kind: string, raws: seq<Entry>)

  /** The arrs that could be read; an answer that could not be is an error row elsewhere. */
  ghost function Collected(answers: seq<Answer>): seq<ArrInstance> {
    if answers == [] then []
    else
      var indexers := IndexersOf(answers[0].raws);
      (if indexers.Ok? then [ArrInstance(answers[0].name, answers[0].kind, indexers.value)] else [])
      + Collected(answers[1..])
  }

  ghost predicate AnswerPermuted(a: Answer, b: Answer) {
    && a.name == b.name && a.kind == b.kind && |a.raws| == |b.raws|
    && forall k :: 0 <= k < |a.raws| ==> FieldsPermuted(a.raws[k], b.raws[k])
  }

  ghost predicate AnswersPermuted(a: seq<Answer>, b: seq<Answer>) {
    |a| == |b| && forall k :: 0 <= k < |a| ==> AnswerPermuted(a[k], b[k])
  }

  lemma {:induction false} IndexersPermuted(a: seq<Entry>, b: seq<Entry>)
    requires |a| == |b| && forall k :: 0 <= k < |a| ==> FieldsPermuted(a[k], b[k])
    ensures IndexersOf(a).Ok? <==> IndexersOf(b).Ok?
    ensures IndexersOf(a).Ok? ==> SimilarIndexers(IndexersOf(a).value, IndexersOf(b).value)
  {
    if a != [] {
      IndexerPermuted(a[0], b[0]);
      IndexersPermuted(a[1..], b[1..]);
    }
  }

  lemma AnswerPermutedMeans(a: Answer, b: Answer)
    requires AnswerPermuted(a, b)
    ensures a.name == b.name && a.kind == b.kind
    ensures IndexersOf(a.raws).Ok? <==> IndexersOf(b.raws).Ok?
    ensures IndexersOf(a.raws).Ok? ==> SimilarIndexers(IndexersOf(a.raws).value, IndexersOf(b.raws).value)
  {
    IndexersPermuted(a.raws, b.raws);
  }

  lemma {:induction false} CollectedPermuted(a: seq<Answer>, b: seq<Answer>)
    requires AnswersPermuted(a, b)
    ensures SimilarArrs(Collected(a), Collected(b))
  {
    hide IndexersOf, AnswerPermuted, SimilarIndexers;
    if a != [] {
      AnswerPermutedMeans(a[0], b[0]);
      CollectedPermuted(a[1..], b[1..]);
    }
  }

  /** End to end: shuffling the `fields` lists of any number of indexers, of any number of arrs,
      changes neither which arrs can be collected nor anything in any finding. */
  lemma FieldOrderNeverMatters(qbt: QbtInstance, a: seq<Answer>, b: seq<Answer>)
    requires AnswersPermuted(a, b)
    ensures forall k :: 0 <= k < |a| ==> (IndexersOf(a[k].raws).Ok? <==> IndexersOf(b[k].raws).Ok?)
    ensures Check(qbt, Collected(a)) == Check(qbt, Collected(b))
  {
    hide IndexersOf, AnswerPermuted, SimilarArrs, Check;
    forall k | 0 <= k < |a|
      ensures IndexersOf(a[k].raws).Ok? <==> IndexersOf(b[k].raws).Ok?
    {
      AnswerPermutedMeans(a[k], b[k]);
    }
    CollectedPermuted(a, b);
    SimilarArrsSameFinding(qbt, Collected(a), Collected(b));
  }

  lemma SameValuesSameName(x: seq<Entry>, y: seq<Entry>, n: string)
    requires ValuesOf(x, n) == ValuesOf(y, n)
    ensures n in ValuedNames(x) <==> n in ValuedNames(y)
    ensures ValueFor(x, n) == ValueFor(y, n)
  {
    hide ValuedNames, Agree;
    ValuedIffSomeEntry(x, n);
    ValuedIffSomeEntry(y, n);
  }

  /** The mapping depends on the names being usable and on each name's values, and on nothing else. */
  lemma SameValuesSameMapping(x: seq<Entry>, y: seq<Entry>)
    requires (exists e :: e in x && !HasName(e)) <==> (exists e :: e in y && !HasName(e))
    requires forall n :: ValuesOf(x, n) == ValuesOf(y, n)
    ensures MappingOf(x) == MappingOf(y)
  {
    hide ValuesOf, ValuedNames, Agree, ValueFor, HasName, READ_FIELD_NAMES;
    forall n
      ensures n in ValuedNames(x) <==> n in ValuedNames(y)
      ensures ValueFor(x, n) == ValueFor(y, n)
    {
      SameValuesSameName(x, y, n);
    }
    assert ValuedNames(x) == ValuedNames(y);
    assert forall n :: Agree(ValuesOf(x, n)) <==> Agree(ValuesOf(y, n));
    if MappingOf(x).Ok? {
      assert MappingOf(x).value == MappingOf(y).value;
    }
  }

  lemma ValuelessAt(a: seq<Entry>, e: Entry, b: seq<Entry>, n: string)
    requires HasName(e) && "value" !in e
    ensures ValuesOf(a + [e] + b, n) == ValuesOf(a + b, n)
  {
    ValuesOfOne(e, n);
    hide ValuesOf, HasName;
    ValuesOfAppend(a + [e], b, n);
    ValuesOfAppend(a, [e], n);
    ValuesOfAppend(a, b, n);
  }

  /** An entry that carries no value says nothing: dropping it changes no mapping and no conflict. */
  lemma ValuelessEntriesSayNothing(a: seq<Entry>, e: Entry, b: seq<Entry>)
    requires HasName(e) && "value" !in e
    ensures MappingOf(a + [e] + b) == MappingOf(a + b)
  {
    forall n
      ensures ValuesOf(a + [e] + b, n) == ValuesOf(a + b, n)
    {
      ValuelessAt(a, e, b, n);
    }
    hide ValuesOf, HasName, MappingOf;
    assert forall x :: x in a + [e] + b <==> x in a + b || x == e;
    SameValuesSameMapping(a + [e] + b, a + b);
  }
}
