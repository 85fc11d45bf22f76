/** Findings built from labelled premises: the premise set that fired is the explanation. */
module Combinator {
  import opened Facts
  import opened Outcomes

  datatype Built<+T> = Built(value: T) | DuplicatePremiseLabel

  function Decided(b: bool): Truth {
    if b then Holds else Fails
  }

  /** A boolean fact as a three-valued state; a null read back is as undecided as no read. */
  function TruthOf(fact: Fact): Truth {
    if fact.Unknown? || fact.value.Null? then Undecided else Decided(Truthy(fact.value))
  }

  function Not(t: Truth): Truth {
    match t
    case Holds => Fails
    case Fails => Holds
    case Undecided => Undecided
  }

  /** Three-valued OR: one Holds settles it however much else is unknown. */
  function AnyOf(states: seq<Truth>): Truth {
    if Holds in states then Holds else if Undecided in states then Undecided else Fails
  }

  /** Three-valued AND: one Fails settles it however much else is unknown. */
  function AllOf(states: seq<Truth>): Truth {
    if Fails in states then Fails else if Undecided in states then Undecided else Holds
  }

  ghost predicate DistinctLabels(premises: seq<Premise>) {
    forall i, j :: 0 <= i < j < |premises| ==> premises[i].name != premises[j].name
  }

  function Unread(premises: seq<Premise>): seq<Premise> {
    if premises == [] then []
    else (if premises[0].state.Undecided? then [premises[0]] else []) + Unread(premises[1..])
  }

  /** `labels.count(label) > 1` for some label. */
  predicate HasDuplicates(premises: seq<Premise>) {
    exists i, j :: 0 <= i < j < |premises| && premises[i].name == premises[j].name
  }

  /** FAIL when every premise holds; SKIP when any input was unknown, which dominates; an error
      when two premises share a label. */
  function ConflictIf(invariantId: string, instance: string, premises: seq<Premise>, conflict: Conflict):
    (r: Built<Finding>)
    ensures r.Built? <==> DistinctLabels(premises)
  {
    if HasDuplicates(premises) then DuplicatePremiseLabel
    else if Unread(premises) != [] then
      Built(Finding(invariantId, instance, SKIP, Unread(premises), [RequiredInputsUnread], conflict))
    else if premises != [] && forall p | p in premises :: p.state.Holds? then
      Built(Finding(invariantId, instance, FAIL, premises, [], conflict))
    else
      Built(Finding(invariantId, instance, PASS, [], [], conflict))
  }

  /** What the unread premises are: exactly the premises whose state is undecided. */
  lemma {:induction false} UnreadIsExact(premises: seq<Premise>)
    ensures forall p :: p in Unread(premises) <==> p in premises && p.state.Undecided?
  {
    if premises != [] {
      UnreadIsExact(premises[1..]);
      assert premises == [premises[0]] + premises[1..];
    }
  }

  /** The states of a premise list, combined the way ConflictIf publishes them: an unknown
      dominates a False, the opposite of AllOf. */
  function Strict(a: Truth, b: Truth): (t: Truth)
    ensures t.Undecided? <==> a.Undecided? || b.Undecided?
    ensures t.Holds? <==> a.Holds? && b.Holds?
  {
    if a.Undecided? || b.Undecided? then Undecided
    else if a.Holds? && b.Holds? then Holds
    else Fails
  }

  function StrictAll(premises: seq<Premise>): Truth {
    if premises == [] then Holds else Strict(premises[0].state, StrictAll(premises[1..]))
  }

  function Verdict(t: Truth): Outcome {
    match t
    case Holds => FAIL
    case Fails => PASS
    case Undecided => SKIP
  }

  lemma {:induction false} StrictAllMeans(premises: seq<Premise>)
    ensures StrictAll(premises).Undecided? <==> exists p :: p in premises && p.state.Undecided?
    ensures StrictAll(premises).Holds? <==> forall p :: p in premises ==> p.state.Holds?
  {
    if premises != [] {
      StrictAllMeans(premises[1..]);
      assert premises == [premises[0]] + premises[1..];
    }
  }

  /** Exactly the premises that could not be read, and at least one of them. */
  ghost predicate NamesTheUnread(named: seq<Premise>, premises: seq<Premise>) {
    named != [] && forall p :: p in named <==> p in premises && p.state.Undecided?
  }

  /** What a finding says about its premises: the outcome publishes their strict conjunction, a FAIL
      carries all of them, and a SKIP carries exactly the ones that could not be read. */
  ghost predicate Explains(f: Finding, premises: seq<Premise>) {
    && f.outcome == Verdict(StrictAll(premises))
    && (f.outcome == FAIL ==> f.premises == premises && f.detail == [])
    && (f.outcome == SKIP ==> NamesTheUnread(f.premises, premises) && f.detail == [RequiredInputsUnread])
    && (f.outcome == PASS ==> f.premises == [] && f.detail == [])
  }

  lemma ConflictIfMeans(invariantId: string, instance: string, premises: seq<Premise>, conflict: Conflict)
    requires DistinctLabels(premises) && premises != []
    ensures var f := ConflictIf(invariantId, instance, premises, conflict).value;
      && f.invariantId == invariantId && f.instance == instance && f.conflict == conflict
      && Explains(f, premises)
  {
    UnreadIsExact(premises);
    StrictAllMeans(premises);
    if Unread(premises) != [] {
      assert Unread(premises)[0] in Unread(premises);
    } else {
      assert forall p :: p in premises && p.state.Undecided? ==> p in Unread(premises);
    }
  }
}
