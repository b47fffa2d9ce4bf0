/** Reachability in any number of steps. The steps of a history are looked at one at a time, on demand. */
module Histories {

  ghost predicate Linked<S(!new)>(next: (S, S) -> bool, h: seq<S>, i: int)
    requires 0 < i < |h|
  {
    next(h[i - 1], h[i])
  }

  ghost predicate Leads<S(!new)>(next: (S, S) -> bool, start: S, h: seq<S>, end: S) {
    && |h| > 0 && h[0] == start && h[|h| - 1] == end
    && forall i :: 0 < i < |h| ==> Linked(next, h, i)
  }

  ghost predicate ReachableIn<S(!new)>(next: (S, S) -> bool, start: S, end: S, steps: nat) {
    exists h: seq<S> :: Leads(next, start, h, end) && |h| == steps + 1
  }

  ghost predicate Reachable<S(!new)>(next: (S, S) -> bool, start: S, end: S) {
    exists steps: nat :: ReachableIn(next, start, end, steps)
  }

  lemma Stay<S(!new)>(next: (S, S) -> bool, start: S)
    ensures ReachableIn(next, start, start, 0)
  {
    assert Leads(next, start, [start], start);
  }

  lemma OneMore<S(!new)>(next: (S, S) -> bool, start: S, end: S, more: S)
    requires Reachable(next, start, end) && next(end, more)
    ensures Reachable(next, start, more)
  {
    var steps: nat :| ReachableIn(next, start, end, steps);
    var h :| Leads(next, start, h, end) && |h| == steps + 1;
    var g := h + [more];
    forall i | 0 < i < |g| ensures Linked(next, g, i) {
      if i < |h| { assert Linked(next, h, i); }
    }
    assert Leads(next, start, g, more);
    assert ReachableIn(next, start, more, steps + 1);
  }

  lemma LastStep<S(!new)>(next: (S, S) -> bool, start: S, end: S, steps: nat) returns (prev: S)
    requires ReachableIn(next, start, end, steps) && steps > 0
    ensures ReachableIn(next, start, prev, steps - 1) && next(prev, end)
  {
    var h :| Leads(next, start, h, end) && |h| == steps + 1;
    var g := h[..steps];
    prev := g[steps - 1];
    assert Linked(next, h, steps);
    forall i | 0 < i < |g| ensures Linked(next, g, i) {
      assert Linked(next, h, i);
    }
    assert Leads(next, start, g, prev);
  }
}
