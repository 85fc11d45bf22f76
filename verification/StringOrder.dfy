/** Sorting a set of strings, as Python's sorted() does: by code point. */
module StringOrder {
  /** Python's `<=` on strings. */
  predicate LexAtMost(a: string, b: string) {
    a == "" || (b != "" && (a[0] < b[0] || (a[0] == b[0] && LexAtMost(a[1..], b[1..]))))
  }

  lemma {:induction false} LexTotal(a: string, b: string)
    ensures LexAtMost(a, a) && (LexAtMost(a, b) || LexAtMost(b, a))
  {
    if a != "" {
      LexTotal(a[1..], if b == "" then "" else b[1..]);
    }
  }

  lemma {:induction false} LexTransitive(a: string, b: string, c: string)
    requires LexAtMost(a, b) && LexAtMost(b, c)
    ensures LexAtMost(a, c)
  {
    if a != "" && a[0] == b[0] == c[0] {
      LexTransitive(a[1..], b[1..], c[1..]);
    }
  }

  /** The order is decided by the first character that differs, a string coming before its extensions. */
  lemma {:induction false} LexIsFirstDifference(a: string, b: string)
    ensures LexAtMost(a, b) <==>
      a <= b || exists i :: 0 <= i < |a| && i < |b| && a[..i] == b[..i] && a[i] < b[i]
  {
    if a != "" && b != "" && a[0] == b[0] {
      LexIsFirstDifference(a[1..], b[1..]);
      assert a <= b <==> a[1..] <= b[1..] by { assert a == [a[0]] + a[1..] && b == [b[0]] + b[1..]; }
      if i :| 0 <= i < |a| && i < |b| && a[..i] == b[..i] && a[i] < b[i] {
        assert i > 0 && a[1..][..i - 1] == a[..i][1..] && b[1..][..i - 1] == b[..i][1..];
        assert a[1..][i - 1] < b[1..][i - 1];
      }
      if i :| 0 <= i < |a[1..]| && i < |b[1..]| && a[1..][..i] == b[1..][..i] && a[1..][i] < b[1..][i] {
        assert a[..i + 1] == [a[0]] + a[1..][..i] && b[..i + 1] == [b[0]] + b[1..][..i];
        assert a[i + 1] < b[i + 1];
      }
    } else if a != "" && b != "" && a[0] < b[0] {
      assert a[..0] == b[..0];
    }
  }

  predicate IsLeast(least: string, strings: set<string>) {
    least in strings && forall s | s in strings :: LexAtMost(least, s)
  }

  lemma LeastExists(strings: set<string>) returns (least: string)
    requires strings != {}
    ensures least in strings && IsLeast(least, strings)
    decreases strings
  {
    var one :| one in strings;
    var rest := strings - {one};
    assert strings == rest + {one};
    LexTotal(one, one);
    if rest == {} {
      least := one;
    } else {
      var other := LeastExists(rest);
      LexTotal(one, other);
      if LexAtMost(one, other) {
        forall s | s in rest
          ensures LexAtMost(one, s)
        {
          LexTransitive(one, other, s);
        }
        least := one;
      } else {
        least := other;
      }
    }
  }

  predicate Sorted(listing: seq<string>) {
    forall i, j :: 0 <= i < j < |listing| ==> LexAtMost(listing[i], listing[j])
  }

  /** Every string once. */
  ghost predicate Lists(listing: seq<string>, strings: set<string>) {
    (forall s :: s in listing <==> s in strings) && |listing| == |strings|
  }

  /** Everything listed comes before everything left. */
  ghost predicate Before(listing: seq<string>, rest: set<string>) {
    forall a, s :: a in listing && s in rest ==> LexAtMost(a, s)
  }

  lemma ListTheLeast(listing: seq<string>, listed: set<string>, rest: set<string>, s: string)
    requires Lists(listing, listed) && Sorted(listing) && Before(listing, rest)
    requires s !in listed && IsLeast(s, rest)
    ensures Lists(listing + [s], listed + {s}) && Sorted(listing + [s]) && Before(listing + [s], rest - {s})
  {
    hide LexAtMost;
  }

  /** sorted(strings). */
  method SortedListing(strings: set<string>) returns (listing: seq<string>)
    ensures Lists(listing, strings) && Sorted(listing)
  {
    hide LexAtMost, Lists, Sorted, Before, IsLeast;
    var rest := strings;
    listing := [];
    NothingListed(strings);
    while rest != {}
      invariant rest <= strings && Lists(listing, strings - rest) && Sorted(listing) && Before(listing, rest)
      decreases rest
    {
      ghost var least := LeastExists(rest);
      var s :| s in rest && IsLeast(s, rest);
      ListTheLeast(listing, strings - rest, rest, s);
      assert strings - (rest - {s}) == strings - rest + {s};
      rest, listing := rest - {s}, listing + [s];
    }
    assert strings - {} == strings;
  }

  lemma NothingListed(strings: set<string>)
    ensures Lists([], strings - strings) && Sorted([]) && Before([], strings)
  {}
}
