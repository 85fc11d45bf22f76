/** A step semantics of the download queue: torrents are grabbed, start when a slot is free,
    complete, upload, age, and are processed against their share limits. The limits follow
    qBittorrent's own chain: the torrent's value, then the category's, then its parent's, then the
    global one, with -2 the only value that defers. What reaching a limit does follows the same chain,
    from the category on, with -1 the only action that defers. */
module QueueTrace {
  import opened Facts
  import opened SeedRatio

  /** The three arms of the share-limit gate. */
  datatype Axis = Ratio | Minutes | Inactive

  datatype CategoryOptions = CategoryOptions(ratio: Number, minutes: int, inactiveMinutes: int, action: int)

  /** What an indexer really does: what it grabs, the limits its torrents carry, and the category its
      arr files them under - the empty name when it files them under none. */
  datatype Source = Source(
    torrents: bool, rss: bool, automatic: bool, interactive: bool, ratio: Number, minutes: Number, category: string)
  {
    predicate Grabs() {
      torrents && (rss || automatic || interactive)
    }
  }

  /** A client as it is configured, whatever a snapshot of it managed to read. */
  datatype World = World(
    queueing: bool,
    maxActiveDownloads: int,
    maxActiveTorrents: int,
    slowExempt: bool,
    globalRatio: Number,
    globalMinutes: int,
    globalInactiveMinutes: int,
    action: int,
    categories: map<string, CategoryOptions>,
    parent: string -> string,
    depth: string -> nat,
    sources: seq<Source>,
    largest: int)

  predicate Int32(n: int) {
    -0x8000_0000 <= n < 0x8000_0000
  }

  /** Minutes are C++ ints, no torrent is larger or downloads more than `largest` bytes, and climbing
      from a category to its parent always ends at the root, which is the empty name. */
  ghost predicate WellFormed(w: World) {
    && 1 <= w.largest <= INT64_MAX
    && Int32(w.globalMinutes) && Int32(w.globalInactiveMinutes)
    && (forall c :: c in w.categories ==> Int32(w.categories[c].minutes) && Int32(w.categories[c].inactiveMinutes))
    && (forall c :: c != "" ==> w.depth(w.parent(c)) < w.depth(c))
  }

  datatype Phase = Queued | Downloading | Seeding | Released

  datatype TorrentData = TorrentData(
    source: nat, size: int, phase: Phase, downloaded: int,
    uploaded: int, seedMinutes: nat, idleMinutes: nat, slow: bool)

  type Torrent = t: TorrentData |
    0 <= t.uploaded <= INT64_MAX && 0 <= t.downloaded <= INT64_MAX && 1 <= t.size <= INT64_MAX
    witness TorrentData(0, 1, Queued, 0, 0, 0, 0, false)

  type State = seq<Torrent>

  predicate Grabbed(w: World, t: Torrent) {
    t.source < |w.sources| && w.sources[t.source].Grabs() && t.size <= w.largest && t.downloaded <= w.largest
  }

  /** Every torrent came from an indexer that grabs torrents. */
  ghost predicate Sane(w: World, s: State) {
    forall i :: 0 <= i < |s| ==> Grabbed(w, s[i])
  }

  // ------------------------------------------------------------------ share limits

  const DEFAULT_LIMIT: Number := Finite(-2.0)

  function GlobalLimit(w: World, axis: Axis): Number {
    match axis
    case Ratio => w.globalRatio
    case Minutes => Finite(w.globalMinutes as real)
    case Inactive => Finite(w.globalInactiveMinutes as real)
  }

  /** What a category stores; a category the client does not list stores the default. */
  function StoredLimit(w: World, axis: Axis, category: string): Number {
    if category !in w.categories then DEFAULT_LIMIT
    else match axis
      case Ratio => w.categories[category].ratio
      case Minutes => Finite(w.categories[category].minutes as real)
      case Inactive => Finite(w.categories[category].inactiveMinutes as real)
  }

  /** categoryRatioLimit() and its two siblings: climb until a category does not say -2. */
  ghost function CategoryLimit(w: World, axis: Axis, category: string): Number
    requires WellFormed(w)
    decreases w.depth(category)
  {
    if category == "" then GlobalLimit(w, axis)
    else if StoredLimit(w, axis, category) != DEFAULT_LIMIT then StoredLimit(w, axis, category)
    else CategoryLimit(w, axis, w.parent(category))
  }

  /** The limit the torrent itself carries. Sonarr never sets an inactive limit. */
  function OwnLimit(source: Source, axis: Axis): Number {
    match axis
    case Ratio => source.ratio
    case Minutes => source.minutes
    case Inactive => DEFAULT_LIMIT
  }

  ghost function EffectiveLimit(w: World, source: Source, axis: Axis): Number
    requires WellFormed(w)
  {
    if OwnLimit(source, axis) == DEFAULT_LIMIT then CategoryLimit(w, axis, source.category) else OwnLimit(source, axis)
  }

  /** What a finished torrent's ratio divides by: its all-time download, which re-downloaded data can
      push past its size, unless that is below one percent of what it holds - an import, or a seeder
      that lost its statistics. */
  function RatioDownload(t: Torrent): (n: int)
    ensures 1 <= n <= INT64_MAX
    ensures n == t.size || n == t.downloaded
  {
    if 100 * t.downloaded < t.size then t.size else t.downloaded
  }

  function Counter(t: Torrent, axis: Axis): Number {
    match axis
    case Ratio => RealRatio(t.uploaded, RatioDownload(t))
    case Minutes => Finite(t.seedMinutes as real)
    case Inactive => Finite(t.idleMinutes as real)
  }

  predicate ArmFires(limit: Number, counter: Number) {
    AtMost(Finite(0.0), limit) && AtMost(limit, counter)
  }

  /** The three arms are tried in turn; whichever fires, the torrent has reached its limit. */
  ghost predicate Reached(w: World, t: Torrent)
    requires WellFormed(w) && t.source < |w.sources|
  {
    var source := w.sources[t.source];
    if ArmFires(EffectiveLimit(w, source, Ratio), Counter(t, Ratio)) then true
    else if ArmFires(EffectiveLimit(w, source, Minutes), Counter(t, Minutes)) then true
    else ArmFires(EffectiveLimit(w, source, Inactive), Counter(t, Inactive))
  }

  /** Stop, Remove and RemoveWithContent free the slot; super seeding and Default do not. */
  predicate Releases(action: int) {
    action == 0 || action == 1 || action == 3
  }

  const DEFAULT_ACTION := -1

  /** categoryShareLimitAction(): climb until a category does not say Default. */
  ghost function CategoryAction(w: World, category: string): int
    requires WellFormed(w)
    decreases w.depth(category)
  {
    if category == "" then w.action
    else if category in w.categories && w.categories[category].action != DEFAULT_ACTION then
      w.categories[category].action
    else CategoryAction(w, w.parent(category))
  }

  /** effectiveShareLimitAction(). Sonarr never sets a torrent's own action. */
  ghost function EffectiveAction(w: World, source: Source): int
    requires WellFormed(w)
  {
    CategoryAction(w, source.category)
  }

  // ------------------------------------------------------------------ slots

  predicate Occupies(w: World, t: Torrent, downloadsOnly: bool) {
    && (t.phase.Downloading? || (t.phase.Seeding? && !downloadsOnly))
    && !(w.slowExempt && t.slow)
  }

  function Occupied(w: World, s: State, downloadsOnly: bool): nat {
    if s == [] then 0
    else (if Occupies(w, s[0], downloadsOnly) then 1 else 0) + Occupied(w, s[1..], downloadsOnly)
  }

  predicate Below(count: nat, limit: int) {
    limit == -1 || count < limit
  }

  predicate SlotFree(w: World, s: State) {
    !w.queueing ||
    (Below(Occupied(w, s, false), w.maxActiveTorrents) && Below(Occupied(w, s, true), w.maxActiveDownloads))
  }

  // ------------------------------------------------------------------ steps

  datatype Step =
    | Grab(source: nat, size: int)
    | Start(i: nat)
    | Complete(i: nat, downloaded: nat)
    | Upload(i: nat, n: nat)
    | SetSlow(i: nat, slow: bool)
    | Tick(minutes: nat)
    | ProcessShareLimits(i: nat)

  predicate Running(s: State, i: nat) {
    i < |s| && (s[i].phase.Downloading? || s[i].phase.Seeding?)
  }

  ghost predicate Enabled(w: World, s: State, step: Step) {
    match step
    case Grab(source, size) => source < |w.sources| && w.sources[source].Grabs() && 1 <= size <= w.largest
    case Start(i) => i < |s| && s[i].phase.Queued? && SlotFree(w, s)
    case Complete(i, downloaded) => i < |s| && s[i].phase.Downloading? && downloaded <= w.largest
    case Upload(i, n) => Running(s, i) && s[i].uploaded + n <= INT64_MAX
    case SetSlow(i, _) => Running(s, i)
    case Tick(_) => true
    case ProcessShareLimits(i) => i < |s| && s[i].phase.Seeding?
  }

  function Aged(t: Torrent, minutes: nat): Torrent {
    if t.phase.Seeding?
    then t.(seedMinutes := t.seedMinutes + minutes, idleMinutes := t.idleMinutes + minutes)
    else t
  }

  /** Torrent i becomes t. */
  ghost function With(w: World, s: State, i: nat, t: Torrent): (s': State)
    requires Sane(w, s) && i < |s| && Grabbed(w, t)
    ensures Sane(w, s') && |s'| == |s|
  {
    s[i := t]
  }

  ghost function Apply(w: World, s: State, step: Step): (s': State)
    requires WellFormed(w) && Sane(w, s) && Enabled(w, s, step)
    ensures Sane(w, s')
    ensures |s'| == if step.Grab? then |s| + 1 else |s|
  {
    match step
    case Grab(source, size) => s + [TorrentData(source, size, Queued, 0, 0, 0, 0, false)]
    case Start(i) => With(w, s, i, s[i].(phase := Downloading))
    case Complete(i, downloaded) => With(w, s, i, s[i].(phase := Seeding, downloaded := downloaded))
    case Upload(i, n) => With(w, s, i, s[i].(uploaded := s[i].uploaded + n, idleMinutes := 0, slow := false))
    case SetSlow(i, slow) => With(w, s, i, s[i].(slow := slow))
    case Tick(minutes) => seq(|s|, i requires 0 <= i < |s| => Aged(s[i], minutes))
    case ProcessShareLimits(i) =>
      if Reached(w, s[i]) && Releases(EffectiveAction(w, w.sources[s[i].source]))
      then With(w, s, i, s[i].(phase := Released))
      else s
  }

  ghost predicate Legal(w: World, s: State, run: seq<Step>)
    requires WellFormed(w) && Sane(w, s)
    decreases |run|
  {
    run == [] || (Enabled(w, s, run[0]) && Legal(w, Apply(w, s, run[0]), run[1..]))
  }

  ghost function After(w: World, s: State, run: seq<Step>): (s': State)
    requires WellFormed(w) && Sane(w, s) && Legal(w, s, run)
    ensures Sane(w, s')
    decreases |run|
  {
    if run == [] then s else After(w, Apply(w, s, run[0]), run[1..])
  }

  ghost predicate StartsSomething(run: seq<Step>) {
    exists k :: 0 <= k < |run| && run[k].Start?
  }

  ghost predicate HasQueued(s: State) {
    exists i :: 0 <= i < |s| && s[i].phase.Queued?
  }

  /** Something is queued and no continuation, of any length, ever starts a download. */
  ghost predicate Dead(w: World, s: State)
    requires WellFormed(w) && Sane(w, s)
  {
    HasQueued(s) && forall run :: Legal(w, s, run) ==> !StartsSomething(run)
  }

  /** The claim the checker publishes: some run from an empty queue ends in a dead state. */
  ghost predicate WedgeReachable(w: World)
    requires WellFormed(w)
  {
    exists run :: Legal(w, [], run) && Dead(w, After(w, [], run))
  }

  /** From every state a run can reach with something queued, some continuation starts a download. */
  ghost predicate Live(w: World)
    requires WellFormed(w)
  {
    forall run :: Legal(w, [], run) && HasQueued(After(w, [], run)) ==>
      exists more :: Legal(w, After(w, [], run), more) && StartsSomething(more)
  }

  // ------------------------------------------------------------------ the closed form of a world

  ghost predicate HasSource(w: World) {
    exists k :: 0 <= k < |w.sources| && w.sources[k].Grabs()
  }

  predicate NoFirstSlot(w: World) {
    w.queueing && ((w.maxActiveTorrents != -1 && w.maxActiveTorrents <= 0)
                || (w.maxActiveDownloads != -1 && w.maxActiveDownloads <= 0))
  }

  /** Can the counter of a torrent that downloaded this many bytes ever meet the limit? */
  predicate Attainable(axis: Axis, limit: Number, download: int)
    requires 1 <= download <= INT64_MAX
  {
    AtMost(Finite(0.0), limit) &&
    if axis.Ratio? then AtMost(limit, RealRatio(INT64_MAX, download)) else limit.Finite?
  }

  /** No arm can ever fire for a torrent of this indexer that downloaded so much. */
  ghost predicate NeverStops(w: World, source: Source, download: int)
    requires WellFormed(w) && 1 <= download <= INT64_MAX
  {
    forall axis: Axis :: !Attainable(axis, EffectiveLimit(w, source, axis), download)
  }

  /** The largest torrents of this indexer keep their slots: no limit is ever reached, or reaching one
      frees nothing. */
  ghost predicate HoldsForever(w: World, source: Source)
    requires WellFormed(w)
  {
    Releases(EffectiveAction(w, source)) ==> NeverStops(w, source, w.largest)
  }

  ghost predicate SomeHoldForever(w: World)
    requires WellFormed(w)
  {
    exists k :: 0 <= k < |w.sources| && w.sources[k].Grabs() && HoldsForever(w, w.sources[k])
  }

  /** Seeders count, and can fill every slot. */
  predicate Binding(w: World) {
    w.queueing && w.maxActiveTorrents != -1 && !w.slowExempt
  }

  ghost predicate CanWedge(w: World)
    requires WellFormed(w)
  {
    NoFirstSlot(w) || (Binding(w) && SomeHoldForever(w))
  }
}
