/** The closed form of a world is exact: a dead state is reachable if and only if CanWedge says so
    and something is ever grabbed. */
module WedgeTheorem {
  import opened Facts
  import opened SeedRatio
  import opened QueueTrace

  // ------------------------------------------------------------------ runs

  lemma {:induction false} LegalConcat(w: World, s: State, a: seq<Step>, b: seq<Step>)
    requires WellFormed(w) && Sane(w, s) && Legal(w, s, a) && Legal(w, After(w, s, a), b)
    ensures Legal(w, s, a + b) && After(w, s, a + b) == After(w, After(w, s, a), b)
    decreases |a|
  {
    hide Apply, Enabled, Sane, WellFormed;
    if a == [] {
      assert a + b == b;
    } else {
      LegalConcat(w, Apply(w, s, a[0]), a[1..], b);
      assert (a + b)[0] == a[0] && (a + b)[1..] == a[1..] + b;
    }
  }

  lemma NoStep(w: World, s: State)
    requires WellFormed(w) && Sane(w, s)
    ensures Legal(w, s, []) && After(w, s, []) == s
  {}

  lemma OneStep(w: World, s: State, step: Step)
    requires WellFormed(w) && Sane(w, s) && Enabled(w, s, step)
    ensures Legal(w, s, [step]) && After(w, s, [step]) == Apply(w, s, step)
  {
    assert [step][1..] == [];
  }

  // ------------------------------------------------------------------ counting slots

  lemma {:induction false} OccupiedPrefix(w: World, s: State, downloadsOnly: bool, n: nat)
    requires n <= |s|
    requires forall j :: 0 <= j < |s| ==> (Occupies(w, s[j], downloadsOnly) <==> j < n)
    ensures Occupied(w, s, downloadsOnly) == n
  {
    if s != [] {
      OccupiedPrefix(w, s[1..], downloadsOnly, if n == 0 then 0 else n - 1);
    }
  }

  lemma {:induction false} OccupiedAtLeast(w: World, s: State, downloadsOnly: bool, n: nat)
    requires n <= |s|
    requires forall j :: 0 <= j < n ==> Occupies(w, s[j], downloadsOnly)
    ensures Occupied(w, s, downloadsOnly) >= n
  {
    if n > 0 {
      OccupiedAtLeast(w, s[1..], downloadsOnly, n - 1);
    }
  }

  // ------------------------------------------------------------------ a dead state stays dead

  /** This torrent will hold its slot whatever happens: the action frees nothing, or no arm fires. */
  ghost predicate HoldsItsSlot(w: World, t: Torrent)
    requires WellFormed(w)
  {
    && t.phase.Seeding? && t.source < |w.sources|
    && (Releases(EffectiveAction(w, w.sources[t.source])) ==> NeverStops(w, w.sources[t.source], RatioDownload(t)))
  }

  /** Seeders that never stop fill every slot. */
  ghost predicate Absorbed(w: World, s: State, n: nat)
    requires WellFormed(w)
  {
    && w.queueing && !w.slowExempt && w.maxActiveTorrents == n && n <= |s|
    && forall j :: 0 <= j < n ==> HoldsItsSlot(w, s[j])
  }

  lemma NeverReached(w: World, t: Torrent)
    requires WellFormed(w) && t.source < |w.sources|
    requires NeverStops(w, w.sources[t.source], RatioDownload(t))
    ensures !Reached(w, t)
  {
    RatioMonotone(t.uploaded, INT64_MAX, RatioDownload(t), RatioDownload(t));
    var source := w.sources[t.source];
    assert !Attainable(Ratio, EffectiveLimit(w, source, Ratio), RatioDownload(t));
    assert !Attainable(Minutes, EffectiveLimit(w, source, Minutes), RatioDownload(t));
    assert !Attainable(Inactive, EffectiveLimit(w, source, Inactive), RatioDownload(t));
  }

  lemma AbsorbedStep(w: World, s: State, step: Step, n: nat)
    requires WellFormed(w) && Sane(w, s) && Enabled(w, s, step) && Absorbed(w, s, n)
    ensures !step.Start? && Absorbed(w, Apply(w, s, step), n)
  {
    OccupiedAtLeast(w, s, false, n);
    var s' := Apply(w, s, step);
    forall j | 0 <= j < n
      ensures HoldsItsSlot(w, s'[j])
    {
      assert HoldsItsSlot(w, s[j]);
      if Releases(EffectiveAction(w, w.sources[s[j].source])) {
        NeverReached(w, s[j]);
      }
      assert s'[j].source == s[j].source && s'[j].size == s[j].size && s'[j].downloaded == s[j].downloaded;
    }
  }

  lemma {:induction false} AbsorbedForever(w: World, s: State, run: seq<Step>, n: nat)
    requires WellFormed(w) && Sane(w, s) && Legal(w, s, run) && Absorbed(w, s, n)
    ensures !StartsSomething(run)
    decreases |run|
  {
    if run != [] {
      AbsorbedStep(w, s, run[0], n);
      AbsorbedForever(w, Apply(w, s, run[0]), run[1..], n);
      forall k | 0 <= k < |run|
        ensures !run[k].Start?
      {
        if k > 0 {
          assert run[k] == run[1..][k - 1];
        }
      }
    }
  }

  lemma {:induction false} StarvedForever(w: World, s: State, run: seq<Step>)
    requires WellFormed(w) && Sane(w, s) && Legal(w, s, run) && NoFirstSlot(w)
    ensures !StartsSomething(run)
    decreases |run|
  {
    if run != [] {
      StarvedForever(w, Apply(w, s, run[0]), run[1..]);
      forall k | 0 <= k < |run|
        ensures !run[k].Start?
      {
        if k > 0 {
          assert run[k] == run[1..][k - 1];
        }
      }
    }
  }

  // ------------------------------------------------------------------ reaching a dead state

  function Fresh(w: World, k: nat, phase: Phase): Torrent
    requires 1 <= w.largest <= INT64_MAX
  {
    TorrentData(k, w.largest, phase, if phase.Seeding? then w.largest else 0, 0, 0, 0, false)
  }

  /** n seeders in front, queued torrents behind, all from one indexer. */
  function Line(w: World, k: nat, seeders: nat, queued: nat): (s: State)
    requires 1 <= w.largest <= INT64_MAX
    ensures |s| == seeders + queued
    ensures forall j :: 0 <= j < |s| ==> s[j] == Fresh(w, k, if j < seeders then Seeding else Queued)
  {
    seq<Torrent>(seeders + queued, j => Fresh(w, k, if j < seeders then Seeding else Queued))
  }

  lemma {:induction false} GrabMany(w: World, k: nat, n: nat) returns (run: seq<Step>)
    requires WellFormed(w) && k < |w.sources| && w.sources[k].Grabs()
    ensures Legal(w, [], run) && After(w, [], run) == Line(w, k, 0, n)
  {
    if n == 0 {
      run := [];
    } else {
      var front := GrabMany(w, k, n - 1);
      var step := Grab(k, w.largest);
      OneStep(w, Line(w, k, 0, n - 1), step);
      LegalConcat(w, [], front, [step]);
      run := front + [step];
    }
  }

  /** Start and complete the next torrent of the line. */
  lemma StartOne(w: World, k: nat, seeders: nat, queued: nat) returns (run: seq<Step>)
    requires WellFormed(w) && k < |w.sources| && w.sources[k].Grabs()
    requires !NoFirstSlot(w) && queued > 0
    requires w.maxActiveTorrents == -1 || seeders < w.maxActiveTorrents
    ensures Sane(w, Line(w, k, seeders, queued))
    ensures Legal(w, Line(w, k, seeders, queued), run)
    ensures After(w, Line(w, k, seeders, queued), run) == Line(w, k, seeders + 1, queued - 1)
  {
    var s: State := Line(w, k, seeders, queued);
    OccupiedPrefix(w, s, false, seeders);
    OccupiedPrefix(w, s, true, 0);
    OneStep(w, s, Start(seeders));
    var s1 := Apply(w, s, Start(seeders));
    OneStep(w, s1, Complete(seeders, w.largest));
    LegalConcat(w, s, [Start(seeders)], [Complete(seeders, w.largest)]);
    run := [Start(seeders)] + [Complete(seeders, w.largest)];
    assert Apply(w, s1, Complete(seeders, w.largest)) == Line(w, k, seeders + 1, queued - 1);
  }

  lemma {:induction false} FillSlots(w: World, k: nat, n: nat, queued: nat) returns (run: seq<Step>)
    requires WellFormed(w) && k < |w.sources| && w.sources[k].Grabs()
    requires !NoFirstSlot(w) && (w.maxActiveTorrents == -1 || n <= w.maxActiveTorrents)
    ensures Legal(w, [], run) && After(w, [], run) == Line(w, k, n, queued)
    decreases n
  {
    hide Legal, After, Apply, Enabled, Grabbed, NoFirstSlot;
    if n == 0 {
      run := GrabMany(w, k, queued);
    } else {
      var front := FillSlots(w, k, n - 1, queued + 1);
      var step := StartOne(w, k, n - 1, queued + 1);
      LegalConcat(w, [], front, step);
      run := front + step;
    }
  }

  /** From an empty queue: fill every slot with seeders that never stop, with one torrent waiting. */
  lemma WedgeIsReached(w: World)
    requires WellFormed(w) && HasSource(w) && CanWedge(w)
    ensures WedgeReachable(w)
  {
    if NoFirstSlot(w) {
      var k :| 0 <= k < |w.sources| && w.sources[k].Grabs();
      var run := GrabMany(w, k, 1);
      var s := After(w, [], run);
      assert s[0].phase.Queued?;
      forall more | Legal(w, s, more)
        ensures !StartsSomething(more)
      {
        StarvedForever(w, s, more);
      }
      assert Dead(w, s);
    } else {
      var k: nat :| k < |w.sources| && w.sources[k].Grabs() && HoldsForever(w, w.sources[k]);
      var n: nat := w.maxActiveTorrents;
      var run := FillSlots(w, k, n, 1);
      var s := After(w, [], run);
      assert s[n].phase.Queued?;
      assert Absorbed(w, s, n);
      forall more | Legal(w, s, more)
        ensures !StartsSomething(more)
      {
        AbsorbedForever(w, s, more, n);
      }
      assert Dead(w, s);
    }
  }

  // ------------------------------------------------------------------ draining a live queue

  /** This torrent no longer counts against a limit that matters. */
  predicate OutOfTheWay(w: World, t: Torrent) {
    && !t.phase.Downloading?
    && (w.maxActiveTorrents == -1 || (w.slowExempt && t.slow) || !t.phase.Seeding?)
  }

  /** s' keeps everything queued in s as it was, and everything cleared in s cleared. */
  ghost predicate Clears(w: World, s: State, s': State) {
    && |s'| == |s|
    && (forall j :: 0 <= j < |s| && s[j].phase.Queued? ==> s'[j] == s[j])
    && (forall j :: 0 <= j < |s| && OutOfTheWay(w, s[j]) ==> OutOfTheWay(w, s'[j]))
  }

  lemma LargerDownloadsAreHarder(w: World, source: Source, download: int)
    requires WellFormed(w) && 1 <= download <= w.largest && NeverStops(w, source, download)
    ensures NeverStops(w, source, w.largest)
  {
    RatioMonotone(INT64_MAX, INT64_MAX, w.largest, download);
    forall axis: Axis
      ensures !Attainable(axis, EffectiveLimit(w, source, axis), w.largest)
    {
      assert !Attainable(axis, EffectiveLimit(w, source, axis), download);
    }
  }

  /** Enough minutes for any finite limit. */
  function Enough(limit: Number): nat {
    if limit.Finite? && limit.r >= 0.0 then limit.r.Floor + 1 else 0
  }

  /** Uploaded to the full and old enough, a torrent whose limit can be met has met it. */
  lemma FullCountersReach(w: World, t: Torrent, axis: Axis)
    requires WellFormed(w) && t.source < |w.sources|
    requires Attainable(axis, EffectiveLimit(w, w.sources[t.source], axis), RatioDownload(t))
    requires var enough := Enough(EffectiveLimit(w, w.sources[t.source], axis));
      t.uploaded == INT64_MAX && t.seedMinutes >= enough && t.idleMinutes >= enough
    ensures Reached(w, t)
  {
    hide EffectiveLimit;
    assert ArmFires(EffectiveLimit(w, w.sources[t.source], axis), Counter(t, axis));
  }

  /** A finished torrent that can stop is uploaded to the full and left to age; then its limits are
      processed, and its slot is free. */
  lemma ReleaseOne(w: World, s: State, i: nat) returns (run: seq<Step>)
    requires WellFormed(w) && Sane(w, s) && i < |s| && s[i].phase.Seeding?
    requires Releases(EffectiveAction(w, w.sources[s[i].source]))
    requires !NeverStops(w, w.sources[s[i].source], RatioDownload(s[i]))
    ensures Legal(w, s, run) && Clears(w, s, After(w, s, run)) && OutOfTheWay(w, After(w, s, run)[i])
  {
    hide EffectiveLimit, Reached, Attainable, Enough;
    var source := w.sources[s[i].source];
    var axis: Axis :| Attainable(axis, EffectiveLimit(w, source, axis), RatioDownload(s[i]));
    var upload := Upload(i, INT64_MAX - s[i].uploaded);
    var s1 := Apply(w, s, upload);
    var tick := Tick(Enough(EffectiveLimit(w, source, axis)));
    var s2 := Apply(w, s1, tick);
    var process := ProcessShareLimits(i);
    FullCountersReach(w, s2[i], axis);
    OneStep(w, s, upload);
    OneStep(w, s1, tick);
    OneStep(w, s2, process);
    LegalConcat(w, s1, [tick], [process]);
    LegalConcat(w, s, [upload], [tick] + [process]);
    run := [upload] + ([tick] + [process]);
    assert After(w, s, run)[i].phase.Released?;
  }

  lemma ClearSeeder(w: World, s: State, i: nat) returns (run: seq<Step>)
    requires WellFormed(w) && Sane(w, s) && i < |s| && s[i].phase.Seeding?
    requires !CanWedge(w) && w.queueing
    ensures Legal(w, s, run) && Clears(w, s, After(w, s, run)) && OutOfTheWay(w, After(w, s, run)[i])
  {
    if w.maxActiveTorrents == -1 {
      run := [];
    } else if w.slowExempt {
      run := [SetSlow(i, true)];
      OneStep(w, s, SetSlow(i, true));
    } else {
      assert !HoldsForever(w, w.sources[s[i].source]);
      if NeverStops(w, w.sources[s[i].source], RatioDownload(s[i])) {
        LargerDownloadsAreHarder(w, w.sources[s[i].source], RatioDownload(s[i]));
      }
      run := ReleaseOne(w, s, i);
    }
  }

  /** Whatever torrent i is doing, some run puts it out of the way. */
  lemma ClearOne(w: World, s: State, i: nat) returns (run: seq<Step>)
    requires WellFormed(w) && Sane(w, s) && i < |s|
    requires !CanWedge(w) && w.queueing
    ensures Legal(w, s, run) && Clears(w, s, After(w, s, run)) && OutOfTheWay(w, After(w, s, run)[i])
  {
    match s[i].phase {
      case Seeding => run := ClearSeeder(w, s, i);
      case Downloading =>
        OneStep(w, s, Complete(i, s[i].size));
        var s1 := Apply(w, s, Complete(i, s[i].size));
        var rest := ClearSeeder(w, s1, i);
        LegalConcat(w, s, [Complete(i, s[i].size)], rest);
        run := [Complete(i, s[i].size)] + rest;
      case _ => run := [];
    }
  }

  lemma {:induction false} ClearFirst(w: World, s: State, n: nat) returns (run: seq<Step>)
    requires WellFormed(w) && Sane(w, s) && n <= |s|
    requires !CanWedge(w) && w.queueing
    ensures Legal(w, s, run) && Clears(w, s, After(w, s, run))
    ensures forall j :: 0 <= j < n ==> OutOfTheWay(w, After(w, s, run)[j])
  {
    hide Legal, After, Apply, Enabled, CanWedge, OutOfTheWay;
    if n == 0 {
      run := [];
      NoStep(w, s);
    } else {
      var front := ClearFirst(w, s, n - 1);
      var back := ClearOne(w, After(w, s, front), n - 1);
      LegalConcat(w, s, front, back);
      run := front + back;
    }
  }

  /** A world that cannot wedge is live: from any state with something queued, some run starts it. */
  lemma LiveQueue(w: World, s: State, i: nat) returns (run: seq<Step>)
    requires WellFormed(w) && Sane(w, s) && i < |s| && s[i].phase.Queued?
    requires !CanWedge(w)
    ensures Legal(w, s, run) && StartsSomething(run)
  {
    if !w.queueing {
      run := [Start(i)];
      OneStep(w, s, Start(i));
      assert run[0].Start?;
    } else {
      var front := ClearFirst(w, s, |s|);
      var s' := After(w, s, front);
      OccupiedPrefix(w, s', true, 0);
      if w.maxActiveTorrents != -1 {
        OccupiedPrefix(w, s', false, 0);
      }
      OneStep(w, s', Start(i));
      LegalConcat(w, s, front, [Start(i)]);
      run := front + [Start(i)];
      assert run[|front|].Start?;
    }
  }

  // ------------------------------------------------------------------ the theorem

  /** Nothing is ever queued that no indexer grabbed. */
  lemma QueueHasASource(w: World, s: State)
    requires Sane(w, s) && s != []
    ensures HasSource(w)
  {
    assert w.sources[s[0].source].Grabs();
  }

  /** For every client whatsoever: a state with something queued that no run can ever start is
      reachable from an empty queue exactly when something is grabbed and the closed form holds. */
  lemma WedgeReachableIff(w: World)
    requires WellFormed(w)
    ensures WedgeReachable(w) <==> HasSource(w) && CanWedge(w)
  {
    if HasSource(w) && CanWedge(w) {
      WedgeIsReached(w);
    }
    if WedgeReachable(w) {
      var run :| Legal(w, [], run) && Dead(w, After(w, [], run));
      var s := After(w, [], run);
      var i: nat :| i < |s| && s[i].phase.Queued?;
      QueueHasASource(w, s);
      if !CanWedge(w) {
        var more := LiveQueue(w, s, i);
        assert false;
      }
    }
  }
}
