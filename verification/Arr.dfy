/** The Sonarr/Radarr adapter: indexer facts out of a decoded payload, with the `fields` list grouped
    by name and conflicting duplicates refused. */
module Arr {
  import opened Facts
  import opened QueueLiveness

  datatype BadResponse =
    | FieldsNotAnArrayOfObjects
    | FieldWithoutName
    | ConflictingField
    | IndexerWithoutName
    | NotAnArrayOfObjects

  datatype Result<+T> = Ok(value: T) | Err(error: BadResponse)

  // ------------------------------------------------------------------ Python equality

  /** The number a bool, int or float compares as. */
  function Numeric(v: Value): Number
    requires v.Bool? || IsNumber(v)
  {
    if v.Bool? then Finite(if v.b then 1.0 else 0.0) else NumberOf(v)
  }

  predicate IsNumeric(v: Value) {
    v.Bool? || IsNumber(v)
  }

  /** Python's `==` between two decoded JSON values. Inside a container the decoder's one NaN object
      compares by identity first, so there NaN equals NaN; on its own it does not. */
  predicate SameValue(a: Value, b: Value) {
    if IsNumeric(a) && IsNumeric(b) then SameNumber(Numeric(a), Numeric(b))
    else match (a, b)
      case (Null, Null) => true
      case (Str(s), Str(t)) => s == t
      case (List(xs), List(ys)) =>
        |xs| == |ys| && forall i | 0 <= i < |xs| ::
          (xs[i] == Float(NaN) && ys[i] == Float(NaN)) || SameValue(xs[i], ys[i])
      case (Dict(m), Dict(n)) =>
        m.Keys == n.Keys && forall k | k in m :: (m[k] == Float(NaN) && n[k] == Float(NaN)) || SameValue(m[k], n[k])
      case _ => false
  }

  /** The same fact, not merely `==`: a bool never stands in for a number. */
  predicate Interchangeable(a: Value, b: Value) {
    a.Bool? == b.Bool? && SameValue(a, b)
  }

  lemma {:induction false} SameValueSymmetric(a: Value, b: Value)
    requires SameValue(a, b)
    ensures SameValue(b, a)
    decreases a
  {
    match (a, b) {
      case (List(xs), List(ys)) =>
        forall i | 0 <= i < |xs| && SameValue(xs[i], ys[i])
          ensures SameValue(ys[i], xs[i])
        {
          SameValueSymmetric(xs[i], ys[i]);
        }
      case (Dict(m), Dict(n)) =>
        forall k | k in m && SameValue(m[k], n[k])
          ensures SameValue(n[k], m[k])
        {
          SameValueSymmetric(m[k], n[k]);
        }
      case _ =>
    }
  }

  lemma {:induction false} SameValueTransitive(a: Value, b: Value, c: Value)
    requires SameValue(a, b) && SameValue(b, c)
    ensures SameValue(a, c)
    decreases a
  {
    match (a, b, c) {
      case (List(xs), List(ys), List(zs)) =>
        forall i | 0 <= i < |xs|
          ensures (xs[i] == Float(NaN) && zs[i] == Float(NaN)) || SameValue(xs[i], zs[i])
        {
          if SameValue(xs[i], ys[i]) && SameValue(ys[i], zs[i]) {
            SameValueTransitive(xs[i], ys[i], zs[i]);
          }
        }
      case (Dict(m), Dict(n), Dict(o)) =>
        forall k | k in m
          ensures (m[k] == Float(NaN) && o[k] == Float(NaN)) || SameValue(m[k], o[k])
        {
          if SameValue(m[k], n[k]) && SameValue(n[k], o[k]) {
            SameValueTransitive(m[k], n[k], o[k]);
          }
        }
      case _ =>
    }
  }

  /** Every number, and every bool, as the float it compares equal to. */
  function Canonical(v: Value): Value {
    match v
    case Null => Null
    case Bool(_) => Float(Numeric(v))
    case Int(_) => Float(Numeric(v))
    case Float(_) => v
    case Str(_) => v
    case List(items) => List(seq(|items|, i requires 0 <= i < |items| => Canonical(items[i])))
    case Dict(entries) => Dict(map k | k in entries :: Canonical(entries[k]))
  }

  /** Inside a container the one NaN is itself. */
  predicate SameElement(a: Value, b: Value) {
    (a == Float(NaN) && b == Float(NaN)) || SameValue(a, b)
  }

  /** Python's `==` is equality up to how a number is written, but for a NaN that stands on its own. */
  lemma {:induction false} SameValueIsEquality(a: Value, b: Value)
    ensures SameElement(a, b) <==> Canonical(a) == Canonical(b)
    ensures SameValue(a, b) <==> Canonical(a) == Canonical(b) && Canonical(a) != Float(NaN)
    decreases a
  {
    match (a, b) {
      case (List(xs), List(ys)) =>
        if |xs| == |ys| {
          ListsCompare(xs, ys, a);
        } else {
          assert |Canonical(a).items| != |Canonical(b).items|;
        }
      case (Dict(m), Dict(n)) =>
        if m.Keys == n.Keys {
          DictsCompare(m, n, a);
        } else {
          assert Canonical(a).entries.Keys == m.Keys && Canonical(b).entries.Keys == n.Keys;
        }
      case _ =>
    }
  }

  lemma {:induction false} ListsCompare(xs: seq<Value>, ys: seq<Value>, a: Value)
    requires a == List(xs) && |xs| == |ys|
    ensures (forall i :: 0 <= i < |xs| ==> SameElement(xs[i], ys[i])) <==> Canonical(a) == Canonical(List(ys))
    decreases a, 0
  {
    forall i | 0 <= i < |xs|
      ensures SameElement(xs[i], ys[i]) <==> Canonical(xs[i]) == Canonical(ys[i])
    {
      SameValueIsEquality(xs[i], ys[i]);
    }
    var c, d := Canonical(a).items, Canonical(List(ys)).items;
    assert forall i :: 0 <= i < |xs| ==> c[i] == Canonical(xs[i]) && d[i] == Canonical(ys[i]);
  }

  lemma CanonicalDict(m: map<string, Value>)
    ensures Canonical(Dict(m)).Dict? && Canonical(Dict(m)).entries.Keys == m.Keys
    ensures forall k :: k in m ==> Canonical(Dict(m)).entries[k] == Canonical(m[k])
  {}

  lemma {:induction false} DictsCompare(m: map<string, Value>, n: map<string, Value>, a: Value)
    requires a == Dict(m) && m.Keys == n.Keys
    ensures (forall k :: k in m ==> SameElement(m[k], n[k])) <==> Canonical(a) == Canonical(Dict(n))
    decreases a, 0
  {
    hide Canonical, SameElement;
    forall k | k in m
      ensures SameElement(m[k], n[k]) <==> Canonical(m[k]) == Canonical(n[k])
    {
      SameValueIsEquality(m[k], n[k]);
    }
    CanonicalDict(m);
    CanonicalDict(n);
    var c, d := Canonical(a).entries, Canonical(Dict(n)).entries;
    assert c == d <==> forall k :: k in m ==> c[k] == d[k];
  }

  // ------------------------------------------------------------------ the fields list

  type Entry = map<string, Value>

  const SEED_RATIO := "seedCriteria.seedRatio"
  const SEED_TIME := "seedCriteria.seedTime"
  const SEASON_PACK_SEED_TIME := "seedCriteria.seasonPackSeedTime"

  /** The names the collector reads out of the list, and so the ones whose duplicates must agree. */
  const READ_FIELD_NAMES: set<string> := {SEED_RATIO, SEED_TIME, SEASON_PACK_SEED_TIME}

  predicate AllObjects(items: seq<Value>) {
    forall v | v in items :: v.Dict?
  }

  function Objects(items: seq<Value>): (entries: seq<Entry>)
    requires AllObjects(items)
    ensures |entries| == |items|
    ensures forall i :: 0 <= i < |items| ==> items[i].Dict? && entries[i] == items[i].entries
  {
    seq(|items|, i requires 0 <= i < |items| => assert items[i] in items; items[i].entries)
  }

  /** A missing list is an old version with no fields; any other shape that is not a list of objects
      is a bad response, null included. */
  function FieldEntries(indexer: Entry): Result<seq<Entry>> {
    if "fields" !in indexer then Ok([])
    else if indexer["fields"].List? && AllObjects(indexer["fields"].items) then Ok(Objects(indexer["fields"].items))
    else Err(FieldsNotAnArrayOfObjects)
  }

  /** The characters Python's str.strip() removes. */
  predicate IsSpace(c: char) {
    var n := c as int;
    || 0x09 <= n <= 0x0D || 0x1C <= n <= 0x20 || n == 0x85 || n == 0xA0 || n == 0x1680
    || 0x2000 <= n <= 0x200A || n == 0x2028 || n == 0x2029 || n == 0x202F || n == 0x205F || n == 0x3000
  }

  function Strip(s: string): string
    decreases |s|
  {
    if s != "" && IsSpace(s[0]) then Strip(s[1..])
    else if s != "" && IsSpace(s[|s| - 1]) then Strip(s[..|s| - 1])
    else s
  }

  ghost predicate AllSpace(s: string) {
    forall c :: c in s ==> IsSpace(c)
  }

  lemma StripOnce(s: string)
    requires s != ""
    ensures Strip(s) ==
      if IsSpace(s[0]) then Strip(s[1..]) else if IsSpace(s[|s| - 1]) then Strip(s[..|s| - 1]) else s
    ensures Strip("") == ""
  {}

  /** Stripping takes away all the white space at either end, and nothing else. */
  lemma {:induction false} StripIsExact(s: string) returns (front: string, back: string)
    ensures s == front + Strip(s) + back && AllSpace(front) && AllSpace(back)
    ensures Strip(s) != "" ==> !IsSpace(Strip(s)[0]) && !IsSpace(Strip(s)[|Strip(s)| - 1])
    decreases |s|
  {
    hide IsSpace, Strip;
    front, back := "", "";
    if s == "" {
      StripOnce(" ");
    } else {
      StripOnce(s);
      if IsSpace(s[0]) {
        front, back := StripIsExact(s[1..]);
        front := [s[0]] + front;
        assert s == [s[0]] + s[1..];
      } else if IsSpace(s[|s| - 1]) {
        front, back := StripIsExact(s[..|s| - 1]);
        back := back + [s[|s| - 1]];
        assert s == s[..|s| - 1] + [s[|s| - 1]];
      }
    }
  }

  predicate HasName(entry: Entry) {
    "name" in entry && entry["name"].Str? && Strip(entry["name"].s) != ""
  }

  /** The stripped name: it is a lookup key, not a label. */
  function FieldName(entry: Entry): string
    requires HasName(entry)
  {
    Strip(entry["name"].s)
  }

  /** The value, if any, one entry gives a name. */
  function ValueIn(entry: Entry, name: string): seq<Value> {
    if HasName(entry) && FieldName(entry) == name && "value" in entry then [entry["value"]] else []
  }

  /** The values an entry list gives a name, in list order; an entry without `value` gives none. */
  function ValuesOf(entries: seq<Entry>, name: string): seq<Value> {
    if entries == [] then []
    else ValueIn(entries[0], name) + ValuesOf(entries[1..], name)
  }

  /** The first value, if every other one is interchangeable with it. */
  function SingleValue(values: seq<Value>): Result<Value>
    requires values != []
  {
    if forall i | 0 < i < |values| :: Interchangeable(values[i], values[0]) then Ok(values[0])
    else Err(ConflictingField)
  }

  /** Any two of the values are the same fact. */
  ghost predicate Agree(values: seq<Value>) {
    forall i, j :: 0 <= i < j < |values| ==> Interchangeable(values[i], values[j])
  }

  /** Comparing with the first value is enough: it accepts exactly the lists that agree pairwise,
      although NaN is not even interchangeable with itself. */
  lemma CompareWithFirstIsPairwise(values: seq<Value>)
    requires values != []
    ensures SingleValue(values).Ok? <==> Agree(values)
  {
    if SingleValue(values).Ok? {
      forall i, j | 0 <= i < j < |values|
        ensures Interchangeable(values[i], values[j])
      {
        SameValueSymmetric(values[j], values[0]);
        if i > 0 {
          SameValueTransitive(values[i], values[0], values[j]);
        }
      }
    } else if Agree(values) {
      forall i | 0 < i < |values|
        ensures Interchangeable(values[i], values[0])
      {
        SameValueSymmetric(values[0], values[i]);
      }
    }
  }

  /** What a field list means, entry by entry and with no grouping: every name must be usable, the
      values of a name that is read must agree, and a name that is not read takes its last value. */
  ghost function MappingOf(entries: seq<Entry>): Result<Entry> {
    if exists e :: e in entries && !HasName(e) then Err(FieldWithoutName)
    else if exists n :: n in READ_FIELD_NAMES && !Agree(ValuesOf(entries, n)) then Err(ConflictingField)
    else Ok(map n | n in ValuedNames(entries) :: ValueFor(entries, n))
  }

  function ValuedNames(entries: seq<Entry>): set<string> {
    set e | e in entries && HasName(e) && "value" in e :: FieldName(e)
  }

  function ValueFor(entries: seq<Entry>, name: string): Value {
    var values := ValuesOf(entries, name);
    if values == [] then Null else if name in READ_FIELD_NAMES then values[0] else values[|values| - 1]
  }

  lemma ValuesOfCons(entry: Entry, rest: seq<Entry>, name: string)
    ensures ValuesOf([entry] + rest, name) == ValueIn(entry, name) + ValuesOf(rest, name)
  {
    assert ([entry] + rest)[1..] == rest;
  }

  lemma ValuesOfNone(name: string)
    ensures ValuesOf([], name) == []
  {}

  lemma ValuesOfOne(entry: Entry, name: string)
    ensures ValuesOf([entry], name) == ValueIn(entry, name)
  {
    ValuesOfCons(entry, [], name);
    assert [entry] + [] == [entry];
  }

  lemma {:induction false} ValuesOfAppend(a: seq<Entry>, b: seq<Entry>, name: string)
    ensures ValuesOf(a + b, name) == ValuesOf(a, name) + ValuesOf(b, name)
  {
    hide ValuesOf, ValueIn;
    if a == [] {
      ValuesOfNone(name);
      assert a + b == b;
    } else {
      ValuesOfAppend(a[1..], b, name);
      ValuesOfCons(a[0], a[1..] + b, name);
      ValuesOfCons(a[0], a[1..], name);
      assert a == [a[0]] + a[1..];
      assert a + b == [a[0]] + (a[1..] + b);
    }
  }

  /** A name has a value exactly when some entry of that name carries one. */
  lemma {:induction false} ValuedIffSomeEntry(entries: seq<Entry>, name: string)
    ensures name in ValuedNames(entries) <==> ValuesOf(entries, name) != []
  {
    if entries != [] {
      ValuedIffSomeEntry(entries[1..], name);
      assert entries == [entries[0]] + entries[1..];
      assert forall e :: e in entries <==> e == entries[0] || e in entries[1..];
    }
  }

  type Grouped = map<string, seq<Value>>

  /** The dictionary holds, for each name, exactly the values the entries give it. */
  ghost predicate Groups(grouped: Grouped, entries: seq<Entry>) {
    && (forall n :: n in grouped ==> grouped[n] == ValuesOf(entries, n) && grouped[n] != [])
    && (forall n :: n !in grouped ==> ValuesOf(entries, n) == [])
  }

  /** setdefault(name, []).append(value), when the entry carries a value. */
  function AddEntry(grouped: Grouped, entry: Entry): Grouped
    requires HasName(entry)
  {
    if "value" !in entry then grouped
    else
      var name := FieldName(entry);
      grouped[name := (if name in grouped then grouped[name] else []) + [entry["value"]]]
  }

  lemma ValuesOfOneMore(entries: seq<Entry>, entry: Entry, n: string)
    requires HasName(entry)
    ensures ValuesOf(entries + [entry], n) ==
      if "value" in entry && FieldName(entry) == n then ValuesOf(entries, n) + [entry["value"]]
      else ValuesOf(entries, n)
  {
    ValuesOfAppend(entries, [entry], n);
    ValuesOfOne(entry, n);
  }

  lemma AddEntryGroups(grouped: Grouped, entries: seq<Entry>, entry: Entry)
    requires Groups(grouped, entries) && HasName(entry)
    ensures Groups(AddEntry(grouped, entry), entries + [entry])
  {
    hide ValuesOf, FieldName, HasName;
    forall n
      ensures ValuesOf(entries + [entry], n) ==
        if "value" in entry && FieldName(entry) == n then ValuesOf(entries, n) + [entry["value"]]
        else ValuesOf(entries, n)
    {
      ValuesOfOneMore(entries, entry, n);
    }
  }

  /** The second comprehension: names that are read must agree, the others take their last value. */
  function Resolve(grouped: Grouped): Result<Entry>
    requires forall n :: n in grouped ==> grouped[n] != []
  {
    if exists n :: n in grouped && n in READ_FIELD_NAMES && SingleValue(grouped[n]).Err? then Err(ConflictingField)
    else Ok(map n | n in grouped :: if n in READ_FIELD_NAMES then grouped[n][0] else grouped[n][|grouped[n]| - 1])
  }

  lemma GroupedName(grouped: Grouped, entries: seq<Entry>, n: string)
    requires Groups(grouped, entries)
    ensures n in grouped <==> n in ValuedNames(entries)
    ensures n !in grouped ==> Agree(ValuesOf(entries, n))
    ensures n in grouped ==> (SingleValue(grouped[n]).Ok? <==> Agree(ValuesOf(entries, n)))
    ensures n in grouped ==>
      ValueFor(entries, n) == if n in READ_FIELD_NAMES then grouped[n][0] else grouped[n][|grouped[n]| - 1]
  {
    ValuedIffSomeEntry(entries, n);
    if n in grouped {
      CompareWithFirstIsPairwise(grouped[n]);
    }
  }

  lemma ResolveIsTheMapping(grouped: Grouped, entries: seq<Entry>)
    requires Groups(grouped, entries) && forall e :: e in entries ==> HasName(e)
    ensures Resolve(grouped) == MappingOf(entries)
  {
    hide SingleValue, Agree, ValuesOf, ValueFor, ValuedNames, READ_FIELD_NAMES, HasName;
    forall n
      ensures n in grouped <==> n in ValuedNames(entries)
      ensures n !in grouped ==> Agree(ValuesOf(entries, n))
      ensures n in grouped ==> (SingleValue(grouped[n]).Ok? <==> Agree(ValuesOf(entries, n)))
      ensures n in grouped ==>
        ValueFor(entries, n) == if n in READ_FIELD_NAMES then grouped[n][0] else grouped[n][|grouped[n]| - 1]
    {
      GroupedName(grouped, entries, n);
    }
    if Resolve(grouped).Ok? {
      assert Resolve(grouped).value == map n | n in ValuedNames(entries) :: ValueFor(entries, n);
    }
  }

  lemma NothingGrouped()
    ensures Groups(map[], [])
  {}

  lemma NamelessFails(entries: seq<Entry>, i: nat)
    requires i < |entries| && !HasName(entries[i])
    ensures MappingOf(entries) == Err(FieldWithoutName)
  {
    assert entries[i] in entries;
  }

  /** The collector's loop: group the values by name, then let each name's values decide. */
  method FieldsAsMapping(indexer: Entry) returns (r: Result<Entry>)
    ensures FieldEntries(indexer).Err? ==> r == Err(FieldEntries(indexer).error)
    ensures FieldEntries(indexer).Ok? ==> r == MappingOf(FieldEntries(indexer).value)
  {
    hide MappingOf, Resolve, HasName, AddEntry, ValuesOf;
    var shaped := FieldEntries(indexer);
    if shaped.Err? {
      return Err(shaped.error);
    }
    var entries := shaped.value;
    var grouped: Grouped := map[];
    NothingGrouped();
    for i := 0 to |entries|
      invariant forall j :: 0 <= j < i ==> HasName(entries[j])
      invariant Groups(grouped, entries[..i])
    {
      if !HasName(entries[i]) {
        NamelessFails(entries, i);
        return Err(FieldWithoutName);
      }
      AddEntryGroups(grouped, entries[..i], entries[i]);
      assert entries[..i + 1] == entries[..i] + [entries[i]];
      grouped := AddEntry(grouped, entries[i]);
    }
    assert entries[..|entries|] == entries;
    ResolveIsTheMapping(grouped, entries);
    r := Resolve(grouped);
  }

  // ------------------------------------------------------------------ one indexer, one arr

  /** `_indexer_facts`, given what the field list means. */
  ghost function IndexerOf(raw: Entry): Result<IndexerFacts> {
    if !("name" in raw && raw["name"].Str? && Strip(raw["name"].s) != "") then Err(IndexerWithoutName)
    else
      var shaped := FieldEntries(raw);
      if shaped.Err? then Err(shaped.error)
      else
        var mapping := MappingOf(shaped.value);
        if mapping.Err? then Err(mapping.error) else Ok(FactsFrom(raw["name"].s, raw, mapping.value))
  }

  function FactsFrom(name: string, raw: Entry, mapping: Entry): IndexerFacts {
    IndexerFacts(
      name, Read(raw, "protocol"),
      Read(raw, "enableRss"), Read(raw, "enableAutomaticSearch"), Read(raw, "enableInteractiveSearch"),
      Read(mapping, SEED_RATIO), Read(mapping, SEED_TIME), Read(mapping, SEASON_PACK_SEED_TIME))
  }

  // ------------------------------------------------------------------ what a payload says of an indexer

  /** One item of the `fields` list gives this name, white space around it aside, this value. */
  predicate Gives(item: Value, name: string, value: Value) {
    && item.Dict? && "name" in item.entries && item.entries["name"].Str? && Strip(item.entries["name"].s) == name
    && "value" in item.entries && item.entries["value"] == value
  }

  predicate Nameless(item: Value) {
    item.Dict? && !("name" in item.entries && item.entries["name"].Str? && Strip(item.entries["name"].s) != "")
  }

  function Items(raw: Entry): seq<Value> {
    if "fields" in raw && raw["fields"].List? then raw["fields"].items else []
  }

  /** Items i and j, in that order, give the name values that are not one fact. */
  ghost predicate Clash(items: seq<Value>, name: string, i: int, j: int) {
    && 0 <= i < j < |items|
    && exists v, w :: Gives(items[i], name, v) && Gives(items[j], name, w) && !Interchangeable(v, w)
  }

  ghost predicate Disagree(items: seq<Value>, name: string) {
    exists i, j :: Clash(items, name, i, j)
  }

  /** A fact read off the list: absent when no item gives the name a value, and otherwise a value some item
      gives it, which every other item agrees with. */
  ghost predicate FieldRead(fact: Fact, items: seq<Value>, name: string) {
    if forall item, v :: item in items ==> !Gives(item, name, v) then fact == Unknown(FieldAbsent)
    else
      && fact.Known?
      && (exists item :: item in items && Gives(item, name, fact.value))
      && forall item, v :: item in items && Gives(item, name, v) ==> v == fact.value || Interchangeable(fact.value, v)
  }

  /** A fact read off the indexer's own key: its value, null included, or absent. */
  ghost predicate KeyRead(fact: Fact, raw: Entry, key: string) {
    fact == if key in raw then Known(raw[key]) else Unknown(FieldAbsent)
  }

  ghost predicate Says(raw: Entry, x: IndexerFacts) {
    && "name" in raw && raw["name"] == Str(x.name)
    && KeyRead(x.protocol, raw, "protocol")
    && KeyRead(x.enableRss, raw, "enableRss")
    && KeyRead(x.enableAutomaticSearch, raw, "enableAutomaticSearch")
    && KeyRead(x.enableInteractiveSearch, raw, "enableInteractiveSearch")
    && FieldRead(x.seedRatio, Items(raw), "seedCriteria.seedRatio")
    && FieldRead(x.seedTime, Items(raw), "seedCriteria.seedTime")
    && FieldRead(x.seasonPackSeedTime, Items(raw), "seedCriteria.seasonPackSeedTime")
  }

  /** What reading one indexer answers: the first thing wrong with the payload, or what it says. */
  ghost predicate AnswersFor(raw: Entry, r: Result<IndexerFacts>) {
    if !("name" in raw && raw["name"].Str? && Strip(raw["name"].s) != "") then r == Err(IndexerWithoutName)
    else if "fields" in raw && (!raw["fields"].List? || exists v :: v in raw["fields"].items && !v.Dict?) then
      r == Err(FieldsNotAnArrayOfObjects)
    else if exists item :: item in Items(raw) && Nameless(item) then r == Err(FieldWithoutName)
    else if Disagree(Items(raw), "seedCriteria.seedRatio") || Disagree(Items(raw), "seedCriteria.seedTime")
         || Disagree(Items(raw), "seedCriteria.seasonPackSeedTime") then r == Err(ConflictingField)
    else r.Ok? && Says(raw, r.value)
  }

  /** The values a name is given are the values some item gives it. */
  lemma {:induction false} ValuesAreGiven(items: seq<Value>, entries: seq<Entry>, name: string, v: Value)
    requires name != "" && |items| == |entries|
    requires forall i :: 0 <= i < |items| ==> items[i] == Dict(entries[i])
    ensures v in ValuesOf(entries, name) <==> exists item :: item in items && Gives(item, name, v)
  {
    if items != [] {
      ValuesAreGiven(items[1..], entries[1..], name, v);
      assert items == [items[0]] + items[1..];
      assert v in ValueIn(entries[0], name) <==> Gives(items[0], name, v);
    }
  }

  lemma AgreeCons(values: seq<Value>, v: Value)
    ensures Agree([v] + values) <==> Agree(values) && forall w :: w in values ==> Interchangeable(v, w)
  {
    var all := [v] + values;
    if Agree(all) {
      forall i, j | 0 <= i < j < |values|
        ensures Interchangeable(values[i], values[j])
      {
        assert all[i + 1] == values[i] && all[j + 1] == values[j];
      }
      forall w | w in values
        ensures Interchangeable(v, w)
      {
        var j :| 0 <= j < |values| && values[j] == w;
        assert all[0] == v && all[j + 1] == w;
      }
    }
  }

  /** Agreeing value by value is agreeing item by item. */
  lemma {:induction false} AgreeIsNoDisagreement(items: seq<Value>, entries: seq<Entry>, name: string)
    requires name != "" && |items| == |entries|
    requires forall i :: 0 <= i < |items| ==> items[i] == Dict(entries[i])
    ensures Agree(ValuesOf(entries, name)) <==> !Disagree(items, name)
  {
    if items != [] {
      var rest, values := items[1..], ValuesOf(entries[1..], name);
      AgreeIsNoDisagreement(rest, entries[1..], name);
      forall w
        ensures w in values <==> exists item :: item in rest && Gives(item, name, w)
      {
        ValuesAreGiven(rest, entries[1..], name, w);
      }
      DisagreeCons(items, name);
      if ValueIn(entries[0], name) != [] {
        AgreeCons(values, entries[0]["value"]);
        assert forall v :: Gives(items[0], name, v) <==> v == entries[0]["value"];
      } else {
        assert forall v :: !Gives(items[0], name, v);
        assert ValuesOf(entries, name) == values;
      }
    }
  }

  ghost predicate ClashesWithFirst(items: seq<Value>, name: string)
    requires items != []
  {
    exists v, item, w ::
      Gives(items[0], name, v) && item in items[1..] && Gives(item, name, w) && !Interchangeable(v, w)
  }

  lemma DisagreeCons(items: seq<Value>, name: string)
    requires items != []
    ensures Disagree(items, name) <==> Disagree(items[1..], name) || ClashesWithFirst(items, name)
  {
    hide Gives, Interchangeable;
    var rest := items[1..];
    assert forall i, j :: 0 < i < j < |items| ==> (Clash(items, name, i, j) <==> Clash(rest, name, i - 1, j - 1));
    assert forall i, j :: Clash(rest, name, i, j) ==> Clash(items, name, i + 1, j + 1);
    if j :| Clash(items, name, 0, j) {
      assert items[j] in rest;
    }
    if ClashesWithFirst(items, name) {
      var v, item, w :| Gives(items[0], name, v) && item in rest && Gives(item, name, w) && !Interchangeable(v, w);
      var j :| 0 <= j < |rest| && rest[j] == item;
      assert Clash(items, name, 0, j + 1);
    }
  }

  /** A name the collector reads comes out of the mapping as the list has it. */
  lemma MappedFieldIsRead(items: seq<Value>, entries: seq<Entry>, name: string)
    requires name in READ_FIELD_NAMES && name != "" && |items| == |entries|
    requires forall i :: 0 <= i < |items| ==> items[i] == Dict(entries[i])
    requires MappingOf(entries).Ok?
    ensures FieldRead(Read(MappingOf(entries).value, name), items, name)
  {
    ValuedIffSomeEntry(entries, name);
    forall v
      ensures v in ValuesOf(entries, name) <==> exists item :: item in items && Gives(item, name, v)
    {
      ValuesAreGiven(items, entries, name, v);
    }
    var values := ValuesOf(entries, name);
    assert Agree(values);
    hide ValuesOf, Gives, Interchangeable;
    if values == [] {
      assert forall item, v :: item in items ==> !Gives(item, name, v) by {
        forall item, v | item in items
          ensures !Gives(item, name, v)
        {
          assert v !in values;
        }
      }
    } else {
      assert Read(MappingOf(entries).value, name) == Known(values[0]);
      assert values[0] in values;
      forall item, v | item in items && Gives(item, name, v)
        ensures v == values[0] || Interchangeable(values[0], v)
      {
        assert v in values;
        var j :| 0 <= j < |values| && values[j] == v;
      }
    }
  }

  lemma FieldNamesAreNotEmpty()
    ensures READ_FIELD_NAMES ==
      {"seedCriteria.seedRatio", "seedCriteria.seedTime", "seedCriteria.seasonPackSeedTime"}
    ensures "" !in READ_FIELD_NAMES
  {
    assert |SEED_RATIO| == 22 && |SEED_TIME| == 21 && |SEASON_PACK_SEED_TIME| == 31;
  }

  lemma MappingMeans(items: seq<Value>, entries: seq<Entry>)
    requires |items| == |entries| && forall i :: 0 <= i < |items| ==> items[i] == Dict(entries[i])
    ensures (exists e :: e in entries && !HasName(e)) <==> exists item :: item in items && Nameless(item)
    ensures forall n :: n in READ_FIELD_NAMES ==> (Agree(ValuesOf(entries, n)) <==> !Disagree(items, n))
    ensures MappingOf(entries).Ok? ==>
      forall n :: n in READ_FIELD_NAMES ==> FieldRead(Read(MappingOf(entries).value, n), items, n)
  {
    FieldNamesAreNotEmpty();
    hide READ_FIELD_NAMES, MappingOf, Agree, ValuesOf, Disagree, FieldRead;
    if e :| e in entries && !HasName(e) {
      var i :| 0 <= i < |entries| && entries[i] == e;
      assert Nameless(items[i]);
    }
    if item :| item in items && Nameless(item) {
      var i :| 0 <= i < |items| && items[i] == item;
      assert !HasName(entries[i]);
    }
    forall n | n in READ_FIELD_NAMES
      ensures Agree(ValuesOf(entries, n)) <==> !Disagree(items, n)
      ensures MappingOf(entries).Ok? ==> FieldRead(Read(MappingOf(entries).value, n), items, n)
    {
      AgreeIsNoDisagreement(items, entries, n);
      if MappingOf(entries).Ok? {
        MappedFieldIsRead(items, entries, n);
      }
    }
  }

  /** The shape check, item by item. */
  lemma ShapeMeans(raw: Entry)
    ensures FieldEntries(raw).Err? <==>
      "fields" in raw && (!raw["fields"].List? || exists v :: v in raw["fields"].items && !v.Dict?)
    ensures FieldEntries(raw).Err? ==> FieldEntries(raw).error == FieldsNotAnArrayOfObjects
    ensures FieldEntries(raw).Ok? ==> |FieldEntries(raw).value| == |Items(raw)|
    ensures FieldEntries(raw).Ok? ==>
      forall i :: 0 <= i < |Items(raw)| ==> Items(raw)[i] == Dict(FieldEntries(raw).value[i])
  {}

  lemma FactsSay(raw: Entry, mapping: Entry)
    requires "name" in raw && raw["name"].Str?
    requires forall n :: n in READ_FIELD_NAMES ==> FieldRead(Read(mapping, n), Items(raw), n)
    ensures Says(raw, FactsFrom(raw["name"].s, raw, mapping))
  {
    FieldNamesAreNotEmpty();
    hide FieldRead, READ_FIELD_NAMES, Items;
  }

  /** Key by key and item by item, the specification of one indexer says what the payload does. */
  lemma IndexerOfAnswers(raw: Entry)
    ensures AnswersFor(raw, IndexerOf(raw))
  {
    hide Disagree, FieldRead, Agree, ValuesOf, ValuedNames, ValueFor, Nameless, HasName, READ_FIELD_NAMES, Strip,
      FieldEntries, Items, Says, FactsFrom, Read;
    ShapeMeans(raw);
    FieldNamesAreNotEmpty();
    if FieldEntries(raw).Ok? {
      MappingMeans(Items(raw), FieldEntries(raw).value);
      if MappingOf(FieldEntries(raw).value).Ok? && "name" in raw && raw["name"].Str? {
        FactsSay(raw, MappingOf(FieldEntries(raw).value).value);
      }
    }
  }

  method ReadIndexer(raw: Entry) returns (r: Result<IndexerFacts>)
    ensures r == IndexerOf(raw) && AnswersFor(raw, r)
  {
    IndexerOfAnswers(raw);
    if "name" !in raw || !raw["name"].Str? || Strip(raw["name"].s) == "" {
      return Err(IndexerWithoutName);
    }
    var mapping := FieldsAsMapping(raw);
    if mapping.Err? {
      return Err(mapping.error);
    }
    r := Ok(FactsFrom(raw["name"].s, raw, mapping.value));
  }

  /** Every indexer of the payload, or the first error. */
  ghost function IndexersOf(raws: seq<Entry>): Result<seq<IndexerFacts>> {
    if raws == [] then Ok([])
    else
      var first := IndexerOf(raws[0]);
      if first.Err? then Err(first.error)
      else
        var rest := IndexersOf(raws[1..]);
        if rest.Err? then rest else Ok([first.value] + rest.value)
  }

  /** The indexer payload of one arr; an answer that is not a list of objects is a bad response. */
  ghost function ArrOf(name: string, kind: string, payload: Value): Result<ArrInstance> {
    if !payload.List? || !AllObjects(payload.items) then Err(NotAnArrayOfObjects)
    else
      var indexers := IndexersOf(Objects(payload.items));
      if indexers.Err? then Err(indexers.error) else Ok(ArrInstance(name, kind, indexers.value))
  }

  /** Two results in sequence: the first error, or both lists. */
  function Both(a: Result<seq<IndexerFacts>>, b: Result<seq<IndexerFacts>>): Result<seq<IndexerFacts>> {
    if a.Err? then a else if b.Err? then b else Ok(a.value + b.value)
  }

  lemma BothAssociates(a: Result<seq<IndexerFacts>>, b: Result<seq<IndexerFacts>>, c: Result<seq<IndexerFacts>>)
    ensures Both(Both(a, b), c) == Both(a, Both(b, c)) && Both(Ok([]), a) == a
  {
    if a.Ok? {
      assert [] + a.value == a.value;
      if b.Ok? && c.Ok? {
        assert a.value + b.value + c.value == a.value + (b.value + c.value);
      }
    }
  }

  ghost function One(raw: Entry): Result<seq<IndexerFacts>> {
    if IndexerOf(raw).Err? then Err(IndexerOf(raw).error) else Ok([IndexerOf(raw).value])
  }

  lemma IndexersOfCons(raw: Entry, rest: seq<Entry>)
    ensures IndexersOf([raw] + rest) == Both(One(raw), IndexersOf(rest))
  {
    hide IndexerOf;
    assert ([raw] + rest)[1..] == rest;
  }

  lemma IndexersOfNone()
    ensures IndexersOf([]) == Ok([])
  {}

  lemma {:induction false} IndexersOfAppend(a: seq<Entry>, b: seq<Entry>)
    ensures IndexersOf(a + b) == Both(IndexersOf(a), IndexersOf(b))
  {
    hide IndexersOf, One, Both;
    BothAssociates(IndexersOf(b), IndexersOf(b), IndexersOf(b));
    if a == [] {
      IndexersOfNone();
      assert a + b == b;
    } else {
      IndexersOfAppend(a[1..], b);
      IndexersOfCons(a[0], a[1..] + b);
      IndexersOfCons(a[0], a[1..]);
      BothAssociates(One(a[0]), IndexersOf(a[1..]), IndexersOf(b));
      assert a == [a[0]] + a[1..] && a + b == [a[0]] + (a[1..] + b);
    }
  }

  lemma IndexersOfOne(raw: Entry)
    ensures IndexersOf([raw]) == One(raw)
  {
    IndexersOfNone();
    IndexersOfCons(raw, []);
    hide IndexersOf, IndexerOf;
    assert [raw] + [] == [raw];
    if One(raw).Ok? {
      assert One(raw).value + [] == One(raw).value;
    }
  }

  lemma OneMoreIndexer(raws: seq<Entry>, i: nat)
    requires i < |raws| && IndexersOf(raws[..i]).Ok?
    ensures IndexersOf(raws[..i + 1]) == Both(IndexersOf(raws[..i]), One(raws[i]))
    ensures IndexerOf(raws[i]).Err? ==> IndexersOf(raws) == Err(IndexerOf(raws[i]).error)
  {
    hide IndexersOf, IndexerOf;
    IndexersOfOne(raws[i]);
    IndexersOfAppend(raws[..i], [raws[i]]);
    assert raws[..i + 1] == raws[..i] + [raws[i]];
    IndexersOfAppend(raws[..i + 1], raws[i + 1..]);
    assert raws == raws[..i + 1] + raws[i + 1..];
  }

  /** Every indexer in order, or the answer for the first that cannot be read. */
  ghost predicate AnswersForAll(raws: seq<Entry>, r: Result<seq<IndexerFacts>>) {
    if r.Ok? then
      |r.value| == |raws| && forall i :: 0 <= i < |raws| ==> AnswersFor(raws[i], Ok(r.value[i]))
    else
      exists i :: 0 <= i < |raws| && AnswersFor(raws[i], Err(r.error)) && AllReadable(raws[..i])
  }

  ghost predicate Readable(raw: Entry) {
    exists x :: AnswersFor(raw, Ok(x))
  }

  ghost predicate AllReadable(raws: seq<Entry>) {
    forall j :: 0 <= j < |raws| ==> Readable(raws[j])
  }

  lemma {:induction false} IndexersOfAnswers(raws: seq<Entry>)
    ensures AnswersForAll(raws, IndexersOf(raws))
  {
    hide AnswersFor, IndexerOf;
    if raws != [] {
      IndexerOfAnswers(raws[0]);
      IndexersOfAnswers(raws[1..]);
      var first, rest := IndexerOf(raws[0]), IndexersOf(raws[1..]);
      if first.Err? {
        assert AllReadable(raws[..0]);
      } else if rest.Err? {
        var i :| 0 <= i < |raws[1..]| && AnswersFor(raws[1..][i], Err(rest.error)) && AllReadable(raws[1..][..i]);
        assert Readable(raws[0]);
        assert raws[..i + 1] == [raws[0]] + raws[1..][..i];
        assert raws[i + 1] == raws[1..][i];
      }
    }
  }

  /** What collecting one arr answers. */
  ghost predicate AnswersForArr(name: string, kind: string, payload: Value, r: Result<ArrInstance>) {
    if !payload.List? || exists v :: v in payload.items && !v.Dict? then r == Err(NotAnArrayOfObjects)
    else
      exists raws: seq<Entry>, indexers ::
        && |raws| == |payload.items| && (forall i :: 0 <= i < |raws| ==> payload.items[i] == Dict(raws[i]))
        && AnswersForAll(raws, indexers)
        && r == if indexers.Err? then Err(indexers.error) else Ok(ArrInstance(name, kind, indexers.value))
  }

  lemma ArrOfAnswers(name: string, kind: string, payload: Value)
    ensures AnswersForArr(name, kind, payload, ArrOf(name, kind, payload))
  {
    hide AnswersForAll, IndexersOf;
    if payload.List? && AllObjects(payload.items) {
      IndexersOfAnswers(Objects(payload.items));
    }
  }

  method CollectArr(name: string, kind: string, payload: Value) returns (r: Result<ArrInstance>)
    ensures r == ArrOf(name, kind, payload) && AnswersForArr(name, kind, payload, r)
  {
    hide IndexersOf, IndexerOf, AnswersForArr;
    ArrOfAnswers(name, kind, payload);
    if !payload.List? || !AllObjects(payload.items) {
      return Err(NotAnArrayOfObjects);
    }
    var raws := Objects(payload.items);
    var indexers: seq<IndexerFacts> := [];
    IndexersOfNone();
    for i := 0 to |raws|
      invariant IndexersOf(raws[..i]) == Ok(indexers)
    {
      var indexer := ReadIndexer(raws[i]);
      OneMoreIndexer(raws, i);
      if indexer.Err? {
        return Err(indexer.error);
      }
      indexers := indexers + [indexer.value];
    }
    assert raws[..|raws|] == raws;
    r := Ok(ArrInstance(name, kind, indexers));
  }
}
