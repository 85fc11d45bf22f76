/** The three levels agree: the closed form, the simulator it is swept against, and the step
    semantics - over all integers, not over the swept box. */
module SimulatorRefinement {
  import opened Facts
  import opened Outcomes
  import opened Combinator
  import opened QueueLiveness
  import opened Verdicts
  import opened Quantifier
  import Trace = QueueTrace
  import opened Soundness
  import opened Completeness
  import Model = QueueModel
  import opened OneIndexer
  import opened SeedRatio

  /** The sweep's client: the repaired preferences with the swept ones overridden; the share limit of
      the model is the global ratio limit. */
  function Embedded(cfg: Model.QueueConfig): QbtInstance {
    QbtInstance(
      "main", Known(Bool(cfg.queueingEnabled)), Known(Int(cfg.maxActiveDownloads)), Known(Int(cfg.maxActiveUploads)),
      Known(Int(cfg.maxActiveTorrents)), Known(Bool(cfg.dontCountSlowTorrents)),
      Known(Bool(cfg.shareLimitEnabled)), Known(Float(Finite(1.5))), Known(Int(3)), Known(Bool(false)),
      Known(Int(20160)), Known(Bool(false)), Known(Dict(map[])))
  }

  /** One enabled torrent indexer without seed goals. */
  function NoGoals(): seq<ArrInstance> {
    Stack(Unknown(FieldAbsent))
  }

  lemma EmbeddedTable(cfg: Model.QueueConfig)
    ensures var t := TableOf(Embedded(cfg), NoGoals());
      && t.queueing == Decided(cfg.queueingEnabled)
      && t.noSlot == Decided(!Model.SlotsFree(cfg, 0, 0))
      && t.binds == Decided(Model.Binds(cfg.maxActiveTorrents))
      && t.slowOff == Decided(!cfg.dontCountSlowTorrents) && t.noInactive == Holds
      && t.noRatio == Decided(!cfg.shareLimitEnabled) && t.noSeedTime == Holds && t.noCategory == Holds
      && t.lacks == Holds && t.both == Fails && t.ratio == Fails && t.seedTime == Fails && t.action == Fails
  {
    var qbt := Embedded(cfg);
    NoCategoryMeans(qbt);
    LacksTable(Unknown(FieldAbsent));
    NoOverride(Unknown(FieldAbsent));
    var torrents, downloads := BlocksAFirstStart(qbt.maxActiveTorrents), BlocksAFirstStart(qbt.maxActiveDownloads);
    assert [torrents, downloads][0] == torrents && [torrents, downloads][1] == downloads;
    hide AnyTorrentIndexer, NoCategorySetsItsOwnLimit, Stack;
  }

  /** The closed form refines the simulator: at any size past max_active_torrents, the check FAILs
      exactly when the simulation ends wedged. */
  lemma ClosedFormIsTheSimulator(cfg: Model.QueueConfig, n: int)
    requires n > 0 && n > cfg.maxActiveTorrents
    ensures Check(Embedded(cfg), NoGoals()).outcome == FAIL <==> Model.Wedged(cfg, n)
    ensures Check(Embedded(cfg), NoGoals()).outcome == PASS <==> !Model.Wedged(cfg, n)
  {
    EmbeddedTable(cfg);
    hide Check, TableOf, RouteState;
    CheckByRoutes(Embedded(cfg), NoGoals());
    var t := TableOf(Embedded(cfg), NoGoals());
    forall c: Route
      ensures !RouteState(c, t).Undecided? && (c != Starvation && c != Seeding ==> RouteState(c, t).Fails?)
    {
      EmbeddedRoute(c, t);
    }
    StarvationAndSeeding(t);
  }

  lemma EmbeddedRoute(c: Route, t: Table)
    requires t.noInactive == Holds && t.noSeedTime == Holds && t.noCategory == Holds && t.lacks == Holds
    requires t.both == Fails && t.ratio == Fails && t.seedTime == Fails && t.action == Fails
    requires t.queueing != Undecided && t.noSlot != Undecided && t.binds != Undecided
    requires t.slowOff != Undecided && t.noRatio != Undecided
    ensures !RouteState(c, t).Undecided?
    ensures c != Starvation && c != Seeding ==> RouteState(c, t).Fails?
  {
    hide Strict;
  }

  lemma StarvationAndSeeding(t: Table)
    requires t.noInactive == Holds && t.noSeedTime == Holds && t.noCategory == Holds && t.lacks == Holds
    ensures RouteState(Starvation, t).Holds? <==> t.queueing.Holds? && t.noSlot.Holds?
    ensures RouteState(Seeding, t).Holds? <==>
      t.queueing.Holds? && t.binds.Holds? && t.slowOff.Holds? && t.noRatio.Holds?
  {
    hide Strict;
  }

  /** The client behind the embedding. */
  function EmbeddedWorld(cfg: Model.QueueConfig): Trace.World {
    Trace.World(
      cfg.queueingEnabled, cfg.maxActiveDownloads, cfg.maxActiveTorrents, cfg.dontCountSlowTorrents,
      if cfg.shareLimitEnabled then Finite(1.5) else Finite(-1.0), -1, -1, 3, map[], c => "", c => |c|,
      [Trace.Source(true, true, true, true, Trace.DEFAULT_LIMIT, Trace.DEFAULT_LIMIT, "")], 1)
  }

  lemma EmbeddingIsDescribed(cfg: Model.QueueConfig)
    ensures Describes(Embedded(cfg), NoGoals(), EmbeddedWorld(cfg)) && FullyRead(Embedded(cfg), NoGoals())
    ensures WithoutCategories(Embedded(cfg)) == Embedded(cfg)
  {
    StackIndexers(Unknown(FieldAbsent));
  }

  lemma EmbeddingMeetsTheTerms(cfg: Model.QueueConfig)
    ensures var w := EmbeddedWorld(cfg);
      && Trace.WellFormed(w) && Trace.HasSource(w) && NoSourceShielded(w) && NoSourceRescued(w)
      && RatioGoalsInReach(w) && SeedTimesFit(w)
  {
    var w := EmbeddedWorld(cfg);
    LargestRatio();
    assert w.sources[0].Grabs();
    InheritedChangesNothing(w);
    hide RealRatio;
  }

  /** The check is exact on the embedding. */
  lemma EmbeddedVerdictIsExact(cfg: Model.QueueConfig)
    ensures Trace.WellFormed(EmbeddedWorld(cfg))
    ensures Check(Embedded(cfg), NoGoals()).outcome == if Trace.WedgeReachable(EmbeddedWorld(cfg)) then FAIL else PASS
  {
    hide Embedded, EmbeddedWorld, NoGoals, Check, FullyRead, Describes, Trace.WellFormed, Trace.WedgeReachable,
      NoSourceShielded, NoSourceRescued, RatioGoalsInReach, SeedTimesFit, Trace.HasSource;
    EmbeddingIsDescribed(cfg);
    EmbeddingMeetsTheTerms(cfg);
    VerdictWithoutCategoriesIsExact(Embedded(cfg), NoGoals(), EmbeddedWorld(cfg));
  }

  /** The simulator is right about the step semantics: a configuration wedges for some number of
      torrents exactly when a dead state is reachable from an empty queue. */
  lemma SimulatorIsTheTrace(cfg: Model.QueueConfig)
    ensures Trace.WellFormed(EmbeddedWorld(cfg))
    ensures (exists n :: Model.Wedged(cfg, n)) <==> Trace.WedgeReachable(EmbeddedWorld(cfg))
  {
    hide Check, EmbeddedWorld, Embedded, NoGoals, Trace.WedgeReachable, Trace.WellFormed;
    EmbeddedVerdictIsExact(cfg);
    var n := if cfg.maxActiveTorrents > 0 then cfg.maxActiveTorrents + 1 else 1;
    ClosedFormIsTheSimulator(cfg, n);
    Model.OneSizeSettlesAll(cfg, n);
  }
}
