/** How large a seed ratio a torrent can ever reach: the arithmetic behind the ceiling that
    CanBeReached carries. */
module SeedRatio {
  import opened Facts
  import opened Ieee
  import opened QueueLiveness

  const INT64_MAX: int := 9223372036854775807

  /** qBittorrent's realRatio(): both counters converted to double, then divided. A finished
      torrent that holds data has download >= 1, so only the last branch is ever taken for it. */
  function RealRatio(upload: int, download: int): Number
    requires 0 <= upload <= INT64_MAX && 0 <= download <= INT64_MAX
  {
    if download == 0 then (if upload == 0 then Finite(0.0) else PosInf)
    else
      QuotientIsDefined(upload, download);
      Finite(Round(Round(upload as real) / Round(download as real)))
  }

  /** The ratio is infinite exactly when something was uploaded and nothing downloaded. */
  lemma RatioIsInfiniteExactlyWhen(upload: int, download: int)
    requires 0 <= upload <= INT64_MAX && 0 <= download <= INT64_MAX
    ensures RealRatio(upload, download) == PosInf <==> upload > 0 && download == 0
    ensures RealRatio(0, 0) == Finite(0.0)
  {}

  lemma RoundOfPositive(n: int)
    requires 1 <= n
    ensures Round(n as real) >= 1.0
  {
    RoundPow2(0);
    RoundMonotone(1.0, n as real);
  }

  lemma QuotientIsDefined(u: int, d: int)
    requires 0 <= u && 1 <= d
    ensures Round(u as real) >= 0.0 && Round(d as real) >= 1.0
    ensures Round(u as real) / Round(d as real) >= 0.0
  {
    RoundOfPositive(d);
    RoundMonotone(0.0, u as real);
    DivMonotone(0.0, Round(u as real), Round(d as real));
  }

  /** The ratio is the double nearest to the quotient of the doubles nearest to the two counters. */
  lemma RatioIsTheNearestDouble(u: int, d: int, y: real)
    requires 0 <= u <= INT64_MAX && 1 <= d <= INT64_MAX && IsDouble(y)
    ensures IsDouble(Round(u as real)) && IsDouble(Round(d as real)) && Round(d as real) > 0.0
    ensures RealRatio(u, d).Finite? && IsDouble(RealRatio(u, d).r)
    ensures Distance(Round(u as real) / Round(d as real), RealRatio(u, d).r) <=
      Distance(Round(u as real) / Round(d as real), y)
  {
    hide Round, IsDouble, Distance;
    QuotientIsDefined(u, d);
    RoundIsADouble(u as real);
    RoundIsADouble(d as real);
    RoundIsADouble(Round(u as real) / Round(d as real));
    RoundIsNearestEven(Round(u as real) / Round(d as real), y);
  }

  lemma Pow2Of63()
    ensures Pow2(63) == MAX_REACHABLE_SEED_RATIO
  {
    Pow2Of52();
    Pow2Adds(52, 11);
    assert Pow2(11) == 2048.0;
  }

  /** INT64_MAX is not a double; it rounds up to two to the sixty-third. */
  lemma RoundOfInt64Max()
    ensures Round(INT64_MAX as real) == MAX_REACHABLE_SEED_RATIO
  {
    Pow2Of63();
    Pow2Of52();
    Pow2Adds(52, 10);
    assert Pow2(10) == 1024.0;
    Pow2Doubles(62);
    RoundIs(INT64_MAX as real, 62);
    assert INT64_MAX as real / 1024.0 == 9007199254740991.0 + 1023.0 / 1024.0;
    assert (INT64_MAX as real / 1024.0).Floor == 9007199254740991;
  }

  lemma QuotientMonotone(a: real, b: real, c: real, d: real)
    requires 0.0 <= a <= b && 0.0 < c <= d
    ensures a / d <= b / c
  {
    DivMonotone(a, b, d);
    var q := b / d;
    assert q >= 0.0 by { DivMonotone(0.0, b, d); }
    assert q * d == b;
    MulMonotone(c, d, q);
    DivMonotone(q * c, b, c);
    assert q * c / c == q;
  }

  /** More uploaded, or less downloaded, never lowers the ratio. */
  lemma RatioMonotone(u: int, u': int, d: int, d': int)
    requires 0 <= u <= u' <= INT64_MAX && 1 <= d' <= d <= INT64_MAX
    ensures RealRatio(u, d).r <= RealRatio(u', d').r
  {
    QuotientIsDefined(u, d);
    QuotientIsDefined(u', d');
    RoundMonotone(u as real, u' as real);
    RoundMonotone(d' as real, d as real);
    QuotientMonotone(Round(u as real), Round(u' as real), Round(d' as real), Round(d as real));
    RoundMonotone(Round(u as real) / Round(d as real), Round(u' as real) / Round(d' as real));
  }

  /** The supremum is attained: INT64_MAX bytes uploaded against one byte downloaded. */
  lemma LargestRatio()
    ensures RealRatio(INT64_MAX, 1) == Finite(MAX_REACHABLE_SEED_RATIO)
  {
    hide Round;
    RoundOfInt64Max();
    RoundPow2(0);
    RoundPow2(63);
    Pow2Of63();
  }

  /** The ceiling is exact. A limit is non-negative and met by the ratio of some torrent that holds
      data if and only if CanBeReached accepts it; the bound itself is met, while NaN, both
      infinities, every negative and everything above the bound are not. */
  lemma CeilingIsExact(limit: Number)
    ensures CanBeReached(limit) <==>
      AtMost(Finite(0.0), limit) &&
      exists u, d :: 0 <= u <= INT64_MAX && 1 <= d <= INT64_MAX && AtMost(limit, RealRatio(u, d))
  {
    LargestRatio();
    if CanBeReached(limit) {
      assert AtMost(limit, RealRatio(INT64_MAX, 1));
    }
    forall u, d | 0 <= u <= INT64_MAX && 1 <= d <= INT64_MAX && AtMost(limit, RealRatio(u, d))
      ensures AtMost(limit, Finite(MAX_REACHABLE_SEED_RATIO))
    {
      RatioMonotone(u, INT64_MAX, d, 1);
    }
  }
}
