/** What every step of the queue keeps: which torrents there are, what they are, and how far each can move. */
module TraceLaws {
  import opened QueueTrace

  function Stage(phase: Phase): nat {
    match phase
    case Queued => 0
    case Downloading => 1
    case Seeding => 2
    case Released => 3
  }

  /** A torrent is never lost, never becomes another one, and moves through its stages one at a time and
      forwards only: it is released from seeding and from nothing else, and only once it has met a limit and
      its category's action frees the slot. */
  lemma StepKeeps(w: World, s: State, step: Step, i: nat)
    requires WellFormed(w) && Sane(w, s) && Enabled(w, s, step) && i < |s|
    ensures |Apply(w, s, step)| >= |s|
    ensures var t, t' := s[i], Apply(w, s, step)[i];
      && t'.source == t.source && t'.size == t.size && t'.uploaded >= t.uploaded
      && (Stage(t'.phase) == Stage(t.phase) || Stage(t'.phase) == Stage(t.phase) + 1)
      && (t.phase == Queued && t'.phase != Queued ==> step == Start(i) && SlotFree(w, s))
      && (t'.phase == Released && t.phase != Released ==>
            t.phase == Seeding && Reached(w, t) && Releases(EffectiveAction(w, w.sources[t.source])))
      && (t.phase != Downloading ==> t'.downloaded == t.downloaded)
  {
    hide Reached, EffectiveAction, SlotFree;
  }

  /** The minutes since torrent i last uploaded, when it had been idle so long before the run. */
  function SinceUpload(run: seq<Step>, i: nat, idle: nat): nat {
    if run == [] then idle
    else match run[0]
      case Upload(j, _) => SinceUpload(run[1..], i, if j == i then 0 else idle)
      case Tick(minutes) => SinceUpload(run[1..], i, idle + minutes)
      case _ => SinceUpload(run[1..], i, idle)
  }

  lemma {:induction false} SinceUploadIsMonotone(run: seq<Step>, i: nat, idle: nat, idle': nat)
    requires idle <= idle'
    ensures SinceUpload(run, i, idle) <= SinceUpload(run, i, idle')
  {
    if run != [] {
      match run[0]
      case Upload(j, _) => SinceUploadIsMonotone(run[1..], i, if j == i then 0 else idle, if j == i then 0 else idle');
      case Tick(minutes) => SinceUploadIsMonotone(run[1..], i, idle + minutes, idle' + minutes);
      case _ => SinceUploadIsMonotone(run[1..], i, idle, idle');
    }
  }

  lemma IdleAfterStep(w: World, s: State, step: Step, i: nat)
    requires WellFormed(w) && Sane(w, s) && Enabled(w, s, step) && i < |s|
    ensures Apply(w, s, step)[i].idleMinutes <=
      (match step case Upload(j, _) => if j == i then 0 else s[i].idleMinutes
                  case Tick(minutes) => s[i].idleMinutes + minutes
                  case _ => s[i].idleMinutes)
    ensures Apply(w, s, step)[i].seedMinutes <=
      (if step.Tick? then s[i].seedMinutes + step.minutes else s[i].seedMinutes)
    ensures step.Tick? && s[i].phase.Seeding? ==>
      && Apply(w, s, step)[i].idleMinutes == s[i].idleMinutes + step.minutes
      && Apply(w, s, step)[i].seedMinutes == s[i].seedMinutes + step.minutes
  {
    hide Reached, EffectiveAction, SlotFree;
  }

  /** A torrent that keeps uploading is never idle longer than since its last upload, whatever the run: the
      inactive gate cannot take it while that stays short of the limit. */
  lemma {:induction false} IdleIsSinceTheLastUpload(w: World, s: State, run: seq<Step>, i: nat)
    requires WellFormed(w) && Sane(w, s) && Legal(w, s, run) && i < |s|
    ensures i < |After(w, s, run)|
    ensures After(w, s, run)[i].idleMinutes <= SinceUpload(run, i, s[i].idleMinutes)
    decreases |run|
  {
    hide Apply, Enabled, Sane, WellFormed;
    if run != [] {
      var s' := Apply(w, s, run[0]);
      IdleAfterStep(w, s, run[0], i);
      IdleIsSinceTheLastUpload(w, s', run[1..], i);
      var bound := match run[0]
        case Upload(j, _) => if j == i then 0 else s[i].idleMinutes
        case Tick(minutes) => s[i].idleMinutes + minutes
        case _ => s[i].idleMinutes;
      SinceUploadIsMonotone(run[1..], i, s'[i].idleMinutes, bound);
    }
  }

  /** What a ratio divides by: never less than a hundredth of the torrent, and what was really downloaded
      whenever that is at least so much. */
  lemma RatioDownloadIsBounded(t: Torrent)
    ensures 100 * RatioDownload(t) >= t.size
    ensures 100 * t.downloaded >= t.size ==> RatioDownload(t) == t.downloaded
    ensures 100 * t.downloaded < t.size ==> RatioDownload(t) == t.size
  {}
}
