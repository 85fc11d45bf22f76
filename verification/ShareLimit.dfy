/** The independent model of what one seed criterion means to qBittorrent, and its agreement with the
    checker's predicates and with the limits of the step semantics. */
module ShareLimit {
  import opened Facts
  import opened Outcomes
  import opened QueueLiveness
  import opened SeedRatio
  import Trace = QueueTrace
  import opened Soundness

  datatype CriterionState = Goal | Deferring | Overriding | Unreadable

  const MAX_REACHABLE_RATIO: Number := Finite(9223372036854775808.0)

  predicate IsALimitValue(v: Value) {
    v.Int? || v.Float?
  }

  predicate RedirectsToTheCategory(n: Number) {
    SameNumber(n, Finite(-2.0))
  }

  predicate GateCanFire(n: Number) {
    AtMost(Finite(0.0), n) && AtMost(n, MAX_REACHABLE_RATIO)
  }

  /** A chain of early returns: total, and one state per value. */
  function Classify(v: Value, wasRead: bool): CriterionState {
    if !wasRead || v.Null? then Deferring
    else if !IsALimitValue(v) then Unreadable
    else if RedirectsToTheCategory(NumberOf(v)) then Deferring
    else if GateCanFire(NumberOf(v)) then Goal
    else Overriding
  }

  function StateOf(fact: Fact): CriterionState {
    if fact.Known? then Classify(fact.value, true) else Classify(Null, false)
  }

  /** The model's four states are what happens to the torrent, on either axis. A goal is met by some
      torrent; a deferring limit is the one the client redirects; an overriding one is neither
      redirected nor ever met; and only an unreadable criterion leaves the limit open. A seed time is an
      int? of minutes, so it never exceeds the ceiling meant for ratios. */
  lemma StatesMeanWhatHappens(axis: Trace.Axis, fact: Fact, limit: Number)
    requires !axis.Inactive? && CriterionRead(fact, limit)
    requires axis.Minutes? && limit.Finite? ==> limit.r <= MAX_REACHABLE_SEED_RATIO
    ensures StateOf(fact) == Goal ==> limit != Trace.DEFAULT_LIMIT && Trace.Attainable(axis, limit, 1)
    ensures StateOf(fact) == Deferring ==> limit == Trace.DEFAULT_LIMIT
    ensures StateOf(fact) == Overriding ==> limit != Trace.DEFAULT_LIMIT
    ensures StateOf(fact) == Overriding ==>
      forall download :: 1 <= download <= INT64_MAX ==> !Trace.Attainable(axis, limit, download)
  {
    LargestRatio();
    if StateOf(fact) == Overriding {
      forall download | 1 <= download <= INT64_MAX
        ensures !Trace.Attainable(axis, limit, download)
      {
        UnreachableIsUnattainable(axis, limit, download);
      }
    }
  }

  /** The one overriding seed time a clock could still meet is a finite one beyond the ceiling, which is
      what the bound above excludes. */
  lemma SeedTimeIsOutExactlyWhen(fact: Fact, limit: Number, download: int)
    requires CriterionRead(fact, limit) && StateOf(fact) == Overriding && 1 <= download <= INT64_MAX
    ensures Trace.Attainable(Trace.Minutes, limit, download) <==> limit.Finite? && limit.r > MAX_REACHABLE_SEED_RATIO
  {}

  /** And they are what the checker's predicates decide: the goal test, the three-valued override
      test and the unreadable note each select exactly one state. */
  lemma PredicatesAgreeWithTheModel(fact: Fact)
    ensures IsASeedGoal(fact) <==> StateOf(fact) == Goal
    ensures OverridesTheShareLimit(fact) == Holds <==> StateOf(fact) == Overriding
    ensures OverridesTheShareLimit(fact) == Undecided <==> StateOf(fact) == Unreadable
    ensures IsAnUnusableSeedCriterion(fact) <==> StateOf(fact) == Unreadable
  {}
}
