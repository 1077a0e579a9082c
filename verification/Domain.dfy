/** The domain vocabulary and the status state machine. */
module Domain {
  datatype Category = Water | Electricity | Sanitation | Roads | Streetlights | Other
  datatype Priority = High | Normal | Low
  datatype Status = Open | InProgress | Resolved | Rejected

  const STATUSES := [Open, InProgress, Resolved, Rejected]

  /** The whole state machine; anything not listed is a conflict. */
  function Transitions(current: Status): set<Status> {
    match current
    case Open => {InProgress, Rejected}
    case InProgress => {Resolved, Rejected}
    case Resolved => {}
    case Rejected => {}
  }

  const TEXT_MIN := 10
  const TEXT_MAX := 2000
  const LOCATION_MIN := 3
  const LOCATION_MAX := 200
  const CONTACT_MAX := 200
  const SUMMARY_MAX := 140

  predicate CanTransition(current: Status, target: Status) {
    target in Transitions(current)
  }

  /** `sorted(Transitions(current), key=order.index)`. */
  function AllowedTransitions(current: Status): seq<Status> {
    Keep(STATUSES, Transitions(current))
  }

  function Keep(order: seq<Status>, wanted: set<Status>): seq<Status> {
    if order == [] then []
    else (if order[0] in wanted then [order[0]] else []) + Keep(order[1..], wanted)
  }

  /** The place of a status in the order of declaration. */
  function Position(s: Status): nat {
    match s case Open => 0 case InProgress => 1 case Resolved => 2 case Rejected => 3
  }

  lemma StatusesInOrder()
    ensures forall s: Status :: STATUSES[Position(s)] == s
    ensures forall i | 0 <= i < |STATUSES| :: Position(STATUSES[i]) == i
  {
  }

  /** What the life of a complaint allows, in words: one that is not resolved or rejected can be rejected, or go
      on to the next status, in progress after open and resolved after in progress. */
  predicate Advances(current: Status, target: Status) {
    current !in {Resolved, Rejected} && (target == Rejected || Position(target) == Position(current) + 1)
  }

  /** The table allows exactly that. */
  lemma AllowedIffAdvances(current: Status, target: Status)
    ensures CanTransition(current, target) <==> Advances(current, target)
  {
  }

  /** A path through the table: each status is one the previous may move to. */
  predicate IsPath(path: seq<Status>) {
    forall i | 0 < i < |path| :: CanTransition(path[i - 1], path[i])
  }

  function Stage(s: Status): nat {
    match s case Open => 0 case InProgress => 1 case Resolved => 2 case Rejected => 2
  }

  /** Every transition climbs, so a path makes at most two moves and meets no status twice. */
  lemma {:induction false} PathsAreShort(path: seq<Status>)
    requires IsPath(path) && path != []
    ensures |path| <= 3
    ensures forall i, j | 0 <= i < j < |path| :: Stage(path[i]) < Stage(path[j])
    ensures |path| > 0 && path[0] == Open && |path| == 3 ==> path[1] == InProgress
  {
    forall i, j | 0 <= i < j < |path| ensures Stage(path[i]) + (j - i) <= Stage(path[j]) {
      PathClimbs(path, i, j);
    }
    assert |path| > 3 ==> Stage(path[0]) + 3 <= Stage(path[3]);
    assert |path| == 3 ==> CanTransition(path[0], path[1]) && CanTransition(path[1], path[2]);
  }

  lemma {:induction false} PathClimbs(path: seq<Status>, i: nat, j: nat)
    requires IsPath(path) && i <= j < |path|
    ensures Stage(path[i]) + (j - i) <= Stage(path[j])
    decreases j - i
  {
    if i < j {
      PathClimbs(path, i, j - 1);
      assert CanTransition(path[j - 1], path[j]);
    }
  }

  /** What an operator is offered is exactly what the table allows, each status once, in the order of
      declaration. */
  lemma OfferedIffAllowed(current: Status, target: Status)
    ensures target in AllowedTransitions(current) <==> CanTransition(current, target)
    ensures target in AllowedTransitions(current) <==> Advances(current, target)
    ensures AllowedTransitions(current) == [] <==> current in {Resolved, Rejected}
    ensures var offered := AllowedTransitions(current);
      forall i, j | 0 <= i < j < |offered| :: Position(offered[i]) < Position(offered[j])
  {
    StatusesInOrder();
    KeepKeepsOrder(STATUSES, Transitions(current));
    assert STATUSES[Position(target)] == target;
    assert STATUSES[Position(Rejected)] == Rejected;
  }

  lemma {:induction false} KeepKeepsOrder(order: seq<Status>, wanted: set<Status>)
    requires forall i, j | 0 <= i < j < |order| :: Position(order[i]) < Position(order[j])
    ensures var kept := Keep(order, wanted);
      && (forall s :: s in kept <==> s in order && s in wanted)
      && (forall i, j | 0 <= i < j < |kept| :: Position(kept[i]) < Position(kept[j]))
  {
    if order != [] {
      KeepKeepsOrder(order[1..], wanted);
      assert forall s :: s in order <==> s == order[0] || s in order[1..];
      forall s | s in order[1..] ensures Position(order[0]) < Position(s) {
        var i :| 0 <= i < |order| - 1 && order[1..][i] == s;
        assert order[i + 1] == s;
      }
    }
  }
}
