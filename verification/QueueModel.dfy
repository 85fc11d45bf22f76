/** The executable model of the queue the closed form is swept against, and its exact answer. */
module QueueModel {

  datatype QueueConfig = QueueConfig(
    queueingEnabled: bool,
    maxActiveDownloads: int,
    maxActiveUploads: int,
    maxActiveTorrents: int,
    dontCountSlowTorrents: bool,
    shareLimitEnabled: bool)

  const UNLIMITED := -1

  predicate Binds(limit: int) {
    limit != UNLIMITED
  }

  predicate SlotsFree(cfg: QueueConfig, downloading: int, seeding: int) {
    && !(Binds(cfg.maxActiveTorrents) && downloading + seeding >= cfg.maxActiveTorrents)
    && !(Binds(cfg.maxActiveDownloads) && downloading >= cfg.maxActiveDownloads)
  }

  /** The simulator's answer without the simulation. */
  predicate Wedged(cfg: QueueConfig, n: int) {
    && cfg.queueingEnabled
    && n > 0
    && (!SlotsFree(cfg, 0, 0)
        || (!cfg.dontCountSlowTorrents && !cfg.shareLimitEnabled
            && Binds(cfg.maxActiveTorrents) && n > cfg.maxActiveTorrents))
  }

  /** Step the queue to a fixpoint: start what the slots allow, let what is downloading complete, and
      repeat. It always terminates, and reports a wedge exactly when one is there. */
  method Simulate(cfg: QueueConfig, n: int) returns (wedged: bool)
    ensures wedged <==> Wedged(cfg, n)
  {
    if !cfg.queueingEnabled {
      return false;
    }
    if n <= 0 {
      return false;
    }
    var downloading, seeding, queued := 0, 0, n;
    if !SlotsFree(cfg, downloading, seeding) {
      return true;
    }
    if cfg.dontCountSlowTorrents {
      return false;
    }
    while true
      invariant downloading == 0 <= seeding && 0 < queued <= n
      // No torrent is lost: with no share limit, whatever is not queued is seeding.
      invariant if cfg.shareLimitEnabled then seeding == 0 else queued + seeding == n
      invariant Binds(cfg.maxActiveTorrents) ==> seeding <= cfg.maxActiveTorrents
      decreases queued
    {
      var started := 0;
      ghost var waiting := queued;
      while queued > 0 && SlotsFree(cfg, downloading, seeding)
        invariant 0 <= queued && started == downloading >= 0
        invariant if cfg.shareLimitEnabled then seeding == 0 else queued + downloading + seeding == n
        invariant Binds(cfg.maxActiveTorrents) ==> downloading + seeding <= cfg.maxActiveTorrents
        invariant queued + downloading == waiting
        decreases queued
      {
        queued, downloading, started := queued - 1, downloading + 1, started + 1;
      }
      if queued == 0 {
        return false;
      }
      if started == 0 {
        return true;
      }
      if !cfg.shareLimitEnabled {
        seeding := seeding + downloading;
      }
      downloading := 0;
    }
  }

  /** More torrents never unwedge a queue, and the upload limit never matters. */
  lemma WedgedIsMonotone(cfg: QueueConfig, n: int, m: int, uploads: int)
    requires n <= m && Wedged(cfg, n)
    ensures Wedged(cfg.(maxActiveUploads := uploads), m)
  {}

  /** Wedging at every size reduces to one size past the limit. */
  lemma OneSizeSettlesAll(cfg: QueueConfig, n: int)
    requires n > 0 && n > cfg.maxActiveTorrents
    ensures Wedged(cfg, n) <==> exists m :: Wedged(cfg, m)
  {
    if exists m :: Wedged(cfg, m) {
      var m :| Wedged(cfg, m);
    }
  }
}
