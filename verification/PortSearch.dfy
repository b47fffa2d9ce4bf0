/**
  * The search for a port to talk to a client from (`CreateCommUDPSocket`): at most
  * a hundred attempts, the preferred port first if there is one, then a cyclic walk
  * whose position outlives the session. Sockets are oracles asked anew at every
  * attempt: whether one can be created, and whether binding and connecting it works.
  */
module PortSearch {
  import opened Wire

  type Port = p: int | 0 <= p < 0x1_0000

  const MAX_RETRY: nat := 100

  datatype Outcome = Ready(port: Port) | NoSocket | NoPort

  // ---------------------------------------------------------------- the walk

  /** C's remainder of a non-negative dividend, which ignores the sign of the divisor. */
  function Remainder(n: nat, d: int): nat
    requires d != 0
  {
    n % (if d < 0 then -d else d)
  }

  function Advance(start: int, end: int, p: Port): Port
    requires end != 0
  {
    var next := Word(Remainder(p + 1, end));
    if next < start then Word(start) else next
  }

  /** The port the walk is at after `k` steps from `p`. */
  function After(start: int, end: int, p: Port, k: nat): Port
    requires end != 0
  {
    if k == 0 then p else Advance(start, end, After(start, end, p, k - 1))
  }

  /** The port of attempt `k` of one search. */
  function Tried(start: int, end: int, preferred: Port, p: Port, k: nat): Port
    requires end != 0
  {
    if preferred == 0 then After(start, end, p, k)
    else if k == 0 then preferred
    else After(start, end, p, k - 1)
  }

  /** The configured bounds leave a port to try. */
  predicate PortRange(start: int, end: int) {
    start < end && 0 < end && start <= 0xFFFF
  }

  /** The lowest port of the range that there is. */
  function Low(start: int): int {
    if start < 0 then 0 else start
  }

  /** One above the highest port of the range that there is. */
  function High(end: int): int {
    if end > 0x1_0000 then 0x1_0000 else end
  }

  predicate InRange(start: int, end: int, p: int) {
    Low(start) <= p < High(end)
  }

  function Width(start: int, end: int): int {
    High(end) - Low(start)
  }

  lemma BelowDivisor(n: nat, d: nat)
    requires n < d
    ensures Remainder(n, d) == n
  {
  }

  lemma AtDivisor(d: nat)
    requires d > 0
    ensures Remainder(d, d) == 0
  {
    assert d == 1 * d;
  }

  /** From any position, one step is enough to be in range; the configured maximum is outside it. */
  lemma AdvanceInRange(start: int, end: int, p: Port)
    requires PortRange(start, end)
    ensures InRange(start, end, Advance(start, end, p))
  {
    assert 0 <= Remainder(p + 1, end) < end;
    if p + 1 < end { BelowDivisor(p + 1, end); }
  }

  lemma AdvanceInside(start: int, end: int, p: Port)
    requires PortRange(start, end) && InRange(start, end, p)
    ensures Advance(start, end, p) == if p + 1 < High(end) then p + 1 else Low(start)
  {
    if p + 1 < end {
      BelowDivisor(p + 1, end);
    } else {
      AtDivisor(end);
    }
  }

  lemma {:induction false} StaysInRange(start: int, end: int, p: Port, k: nat)
    requires PortRange(start, end) && (InRange(start, end, p) || k > 0)
    ensures InRange(start, end, After(start, end, p, k))
  {
    if k > 0 {
      AdvanceInRange(start, end, After(start, end, p, k - 1));
    }
  }

  /** In range, the walk is a rotation: `k` steps on, and back by the width past the end. */
  lemma {:induction false} Rotation(start: int, end: int, p: Port, k: nat)
    requires PortRange(start, end) && InRange(start, end, p) && k <= Width(start, end)
    ensures After(start, end, p, k) == if p + k < High(end) then p + k else p + k - Width(start, end)
  {
    if k > 0 {
      Rotation(start, end, p, k - 1);
      AdvanceInside(start, end, After(start, end, p, k - 1));
    }
  }

  lemma {:induction false} AfterSum(start: int, end: int, p: Port, i: nat, k: nat)
    requires end != 0
    ensures After(start, end, p, i + k) == After(start, end, After(start, end, p, i), k)
  {
    if k > 0 {
      AfterSum(start, end, p, i, k - 1);
    }
  }

  /** No port comes twice in as many successive attempts as there are ports. */
  lemma AttemptsDiffer(start: int, end: int, p: Port, i: nat, j: nat)
    requires PortRange(start, end) && InRange(start, end, p)
    requires i < j < i + Width(start, end)
    ensures After(start, end, p, i) != After(start, end, p, j)
  {
    var k := j - i;
    StaysInRange(start, end, p, i);
    AfterSum(start, end, p, i, k);
    Rotation(start, end, After(start, end, p, i), k);
  }

  /** Where the walk meets port `q`. */
  function Distance(start: int, end: int, p: Port, q: Port): nat
    requires InRange(start, end, p) && InRange(start, end, q)
  {
    if p <= q then q - p else q - p + Width(start, end)
  }

  lemma EveryPortComes(start: int, end: int, p: Port, q: Port)
    requires PortRange(start, end) && InRange(start, end, p) && InRange(start, end, q)
    ensures Distance(start, end, p, q) < Width(start, end)
    ensures After(start, end, p, Distance(start, end, p, q)) == q
  {
    Rotation(start, end, p, Distance(start, end, p, q));
  }

  /** Every attempt of a search fails, the set of usable ports staying as it is. */
  ghost predicate Exhausted(start: int, end: int, preferred: Port, p: Port, usable: iset<Port>)
    requires end != 0
  {
    forall k :: 0 <= k < MAX_RETRY ==> Tried(start, end, preferred, p, k) !in usable
  }

  /** No port of the range was left untried by a failed search. */
  ghost predicate Conclusive(start: int, end: int, preferred: Port, p: Port)
    requires end != 0
  {
    forall usable, q: Port :: Exhausted(start, end, preferred, p, usable) && InRange(start, end, q) ==> q !in usable
  }

  lemma EveryPortTried(start: int, end: int, preferred: Port, p: Port, q: Port)
    requires PortRange(start, end) && InRange(start, end, p) && InRange(start, end, q)
    requires Width(start, end) < MAX_RETRY ||
      (Width(start, end) == MAX_RETRY && (preferred == 0 || preferred == After(start, end, p, MAX_RETRY - 1)))
    ensures exists k :: 0 <= k < MAX_RETRY && Tried(start, end, preferred, p, k) == q
  {
    var k := Distance(start, end, p, q);
    EveryPortComes(start, end, p, q);
    var attempt := if preferred == 0 then k else if k == MAX_RETRY - 1 then 0 else k + 1;
    assert Tried(start, end, preferred, p, attempt) == q;
  }

  /** Port `q`, which the walk meets only at step `m`, is not tried when the search is over before. */
  lemma LeftUntried(start: int, end: int, preferred: Port, p: Port, m: nat)
    requires PortRange(start, end) && InRange(start, end, p) && MAX_RETRY - 1 <= m < Width(start, end)
    requires if preferred == 0 then m == MAX_RETRY else preferred != After(start, end, p, m)
    requires m <= MAX_RETRY
    ensures !Conclusive(start, end, preferred, p)
  {
    var q := After(start, end, p, m);
    StaysInRange(start, end, p, m);
    forall k | 0 <= k < MAX_RETRY
      ensures Tried(start, end, preferred, p, k) != q
    {
      var step := if preferred == 0 then k else k - 1;
      if step >= 0 {
        AttemptsDiffer(start, end, p, step, m);
      }
    }
    assert Exhausted(start, end, preferred, p, iset{q});
  }

  /**
    * A failed search means that no port of the range was usable just when its attempts
    * go round the whole range; the attempt spent on a preferred port may be one too few.
    */
  lemma FailureIsConclusiveIff(start: int, end: int, preferred: Port, p: Port)
    requires PortRange(start, end) && InRange(start, end, p)
    ensures Conclusive(start, end, preferred, p) <==>
      Width(start, end) < 100 || (Width(start, end) == 100 && (preferred == 0 || preferred == After(start, end, p, 99)))
  {
    var last := After(start, end, p, MAX_RETRY - 1);
    if Width(start, end) < MAX_RETRY || (Width(start, end) == MAX_RETRY && (preferred == 0 || preferred == last)) {
      forall usable, q: Port | Exhausted(start, end, preferred, p, usable) && InRange(start, end, q)
        ensures q !in usable
      {
        EveryPortTried(start, end, preferred, p, q);
      }
    } else if preferred != 0 && preferred != last {
      LeftUntried(start, end, preferred, p, MAX_RETRY - 1);
    } else {
      AttemptsDiffer(start, end, p, MAX_RETRY - 1, MAX_RETRY);
      LeftUntried(start, end, preferred, p, MAX_RETRY);
    }
  }

  // ---------------------------------------------------------------- the loop

  class PortWalk {
    const start: int
    const end: int
    var nextPortToUse: Port
    var portPrefered: Port

    /** The walk begins wherever the default of the configuration was when the program started. */
    constructor (start: int, end: int, initial: Port, preferred: Port)
      ensures this.start == start && this.end == end
      ensures nextPortToUse == initial && portPrefered == preferred
    {
      this.start, this.end := start, end;
      nextPortToUse, portPrefered := initial, preferred;
    }

    /** The earlier attempts of a search each had a socket that could not be used. */
    ghost predicate AllFailed(created: nat -> bool, usable: (nat, Port) -> bool, preferred: Port, p: Port, n: nat)
      requires end != 0
    {
      forall k :: 0 <= k < n ==> created(k) && !usable(k, Tried(start, end, preferred, p, k))
    }

    method CreateCommSocket(created: nat -> bool, usable: (nat, Port) -> bool)
        returns (outcome: Outcome, attempts: nat)
      requires end != 0
      modifies this
      ensures attempts <= MAX_RETRY
      ensures outcome.Ready? ==>
        && attempts > 0 && AllFailed(created, usable, old(portPrefered), old(nextPortToUse), attempts - 1)
        && outcome.port == Tried(start, end, old(portPrefered), old(nextPortToUse), attempts - 1)
        && created(attempts - 1) && usable(attempts - 1, outcome.port)
      ensures outcome.NoSocket? ==>
        && AllFailed(created, usable, old(portPrefered), old(nextPortToUse), attempts)
        && attempts < MAX_RETRY && !created(attempts)
      ensures outcome.NoPort? ==>
        && AllFailed(created, usable, old(portPrefered), old(nextPortToUse), attempts)
        && attempts == 100
      ensures nextPortToUse ==
        After(start, end, old(nextPortToUse),
          if old(portPrefered) != 0 && attempts > 0 then attempts - 1 else attempts)
      ensures portPrefered ==
        if attempts == 0 || (attempts == 1 && outcome.Ready?) then old(portPrefered) else 0
    {
      ghost var preferred, p := portPrefered, nextPortToUse;
      var ok := false;
      var port: Port := 0;
      attempts := 0;
      while !ok && attempts < MAX_RETRY
        invariant attempts <= MAX_RETRY
        invariant ok ==> attempts > 0
        invariant AllFailed(created, usable, preferred, p, if ok then attempts - 1 else attempts)
        invariant ok ==>
          && port == Tried(start, end, preferred, p, attempts - 1)
          && created(attempts - 1) && usable(attempts - 1, port)
        invariant nextPortToUse ==
          After(start, end, p, if preferred != 0 && attempts > 0 then attempts - 1 else attempts)
        invariant portPrefered == if attempts == 0 || (attempts == 1 && ok) then preferred else 0
        decreases MAX_RETRY - attempts
      {
        if !created(attempts) {
          return NoSocket, attempts;
        }
        port := if portPrefered != 0 then portPrefered else nextPortToUse;
        ok := usable(attempts, port);
        if portPrefered != 0 {
          if !ok {
            portPrefered := 0;
          }
        } else {
          nextPortToUse := Word(Remainder(nextPortToUse + 1, end));
          if nextPortToUse < start {
            nextPortToUse := Word(start);
          }
        }
        attempts := attempts + 1;
      }
      outcome := if ok then Ready(port) else NoPort;
    }
  }
}
