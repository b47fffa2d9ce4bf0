/** How an upload gets anywhere: both ends agree on ever more of the acknowledgement, and no packet is sent in
    vain. The client needs one block of every row of its window for that. When 16-bit numbers come round, old
    acknowledgements carry the client past the server. */
module UploadClimb {
  import opened Wire
  import opened Settings
  import opened Blocks
  import opened Protocol
  import opened UploadLaws
  import opened Network
  import opened UploadSystem
  import opened UploadLockStep

  /** A working socket, at any time. */
  function Quiet(): Env {
    Env(0, 1, true, None)
  }

  lemma FullBlockGoesOn(c: Setup, s: State, d: Datagram)
    requires c.Ok() && Clean(s) && StoresData(c.cfg, s, d) && |d| == s.blockSize + HEADER_SIZE
    ensures var r := PacketRound(c.cfg, s, d, Quiet());
            && r.alive && r.s.first == s.first + Advance(s, d) && r.sent == [Ack(r.s.first)]
            && r.s.bytesHandled == s.bytesHandled + |d|
  {
    StoredEffect(c.cfg, s, d, Quiet());
  }

  /** A block whose number is behind the base is stored, under that number. */
  lemma NumberedBlockIsStored(c: Setup, s: State, n: nat, ev: Event)
    requires c.Ok() && Clean(s) && s.blockSize == c.blockSize && s.windowSize == c.windowSize
    requires 1 <= n <= c.Last() && s.first < Word(n) && ev == Event(BlockDatagram(c, n), Quiet())
    requires !c.cfg.OverLimit(s.bytesHandled + HEADER_SIZE + |Block(c.file, c.blockSize, n)|)
    ensures var d := Cut(s, ev.bytes);
            d == ev.bytes && d != [] && StoresData(c.cfg, s, d) && BlockNr(d) == Word(n)
            && (|d| < s.blockSize + HEADER_SIZE <==> n == c.Last())
            && |d| >= HEADER_SIZE && Payload(d) == Block(c.file, c.blockSize, n)
  {
    EncodedFields(Data(Word(n), Block(c.file, c.blockSize, n)));
    BlockLengths(c.file, c.blockSize, n);
    NeverDuplicate(c.cfg, s, ev.bytes);
  }

  lemma BlockIsStored(c: Setup, s: State, n: nat, ev: Event)
    requires c.Ok() && Clean(s) && s.blockSize == c.blockSize && s.windowSize == c.windowSize
    requires s.first < n <= c.Last() && n <= 65535 && ev == Event(BlockDatagram(c, n), Quiet())
    requires !c.cfg.OverLimit(s.bytesHandled + HEADER_SIZE + |Block(c.file, c.blockSize, n)|)
    ensures var d := Cut(s, ev.bytes);
            d == ev.bytes && d != [] && StoresData(c.cfg, s, d) && BlockNr(d) == n
            && (|d| < s.blockSize + HEADER_SIZE <==> n == c.Last())
            && |d| - HEADER_SIZE == |Block(c.file, c.blockSize, n)|
  {
    NumberedBlockIsStored(c, s, n, ev);
  }

  lemma Multiple(w: nat, x: nat, q: nat)
    requires w >= 1 && x == q * w
    ensures x % w == 0
  {
    var d, r := x / w, x % w;
    assert x == d * w + r && 0 <= r < w;
    assert (d + 1) * w == d * w + w && (q + 1) * w == q * w + w;
    if d < q {
      MulMono(d + 1, q, w);
    } else if d > q {
      MulMono(q + 1, d, w);
    }
  }

  lemma RowStart(w: nat, q: nat)
    requires w >= 1
    ensures (q * w) % w == 0
  {
    Multiple(w, q * w, q);
  }

  /** Behind this base the first acknowledgement stands for the next round of numbers. */
  function Turn(c: Setup): int {
    0x1_0000 - c.windowSize
  }

  /** The highest 16-bit number that is first of a row: no acknowledgement gets further. */
  function Crest(c: Setup): int {
    if c.windowSize == 0 then 0 else 65535 - 65534 % c.windowSize
  }

  lemma RowsApart(w: nat, a: nat, b: nat)
    requires w > 0 && a % w == 0 && b % w == 0 && a < b
    ensures a + w <= b
  {
    var p, q := a / w, b / w;
    assert a == p * w && b == q * w;
    assert (q - p) * w == q * w - p * w;
    if q - p >= 1 { MulMono(1, q - p, w); } else { MulMono(q - p, 0, w); }
  }

  lemma CrestIs(c: Setup)
    requires c.Ok()
    ensures Turn(c) <= Crest(c) <= 65535 && (Crest(c) - 1) % c.windowSize == 0
  {
    var w, q := c.windowSize, 65534 / c.windowSize;
    assert 65534 == q * w + 65534 % w;
    RowStart(w, q);
  }

  lemma RowBelowCrest(c: Setup, r: nat)
    requires c.Ok() && 1 <= r <= 65535 && (r - 1) % c.windowSize == 0
    ensures r <= Crest(c)
  {
    CrestIs(c);
    if r > Crest(c) { RowsApart(c.windowSize, Crest(c) - 1, r - 1); }
  }

  /** The one block in every window whose arrival moves the acknowledgement. */
  lemma FirstOfRow(w: nat, k: nat, row: nat) returns (j: nat)
    requires w >= 1
    ensures k < j <= k + w && (j - 1) % w == 0
    ensures k < row && (row - 1) % w == 0 ==> j <= row
  {
    var q, r := k / w, k % w;
    assert k == q * w + r;
    if r == 0 {
      j := k + 1;
    } else {
      j := k - r + w + 1;
      assert j - 1 == (q + 1) * w by { assert (q + 1) * w == q * w + w; }
      RowStart(w, q + 1);
    }
    if k < row < j && (row - 1) % w == 0 { RowsApart(w, row - 1, j - 1); }
  }

  lemma ServerAdvances(c: Setup, s: State, j: nat, ev: Event, k: nat)
    requires c.Ok() && Clean(s) && s.blockSize == c.blockSize && s.windowSize == c.windowSize
    requires k == s.first && k < j < c.Last() && j <= 65535 && ev == Event(BlockDatagram(c, j), Quiet())
    requires (j - 1) % c.windowSize == 0 && !c.cfg.OverLimit(s.bytesHandled + c.blockSize + HEADER_SIZE)
    ensures StoresData(c.cfg, s, Cut(s, ev.bytes)) && BlockNr(Cut(s, ev.bytes)) == j
    ensures var r := Step(c.cfg, s, ev);
            && r.alive && r.s.first == k + 1 && r.sent == [Ack(k + 1)]
            && r.s.bytesHandled == s.bytesHandled + c.blockSize + HEADER_SIZE
  {
    BlockLengths(c.file, c.blockSize, j);
    BlockIsStored(c, s, j, ev);
    FullBlockGoesOn(c, s, ev.bytes);
  }

  lemma WireOfOne(p: Packet)
    ensures Encode(p) in OnTheWire([p])
  {
    assert [p][0] == p;
  }

  lemma SendAndServe(c: Setup, start: System, sys: System, n: nat, ev: Event) returns (next: System)
    requires Reachable(c, start, sys) && Inv(c, sys) && sys.alive && sys.started && Enabled(c, sys, ClientSends(n))
    requires ev == Event(BlockDatagram(c, n), Quiet())
    ensures Reachable(c, start, next) && Inv(c, next) && next.started && next.acked == sys.acked
    ensures var r := Step(c.cfg, sys.srv, ev);
            next.srv == r.s && next.alive == r.alive && next.toClient == sys.toClient + OnTheWire(r.sent)
    ensures StoresData(c.cfg, sys.srv, Cut(sys.srv, ev.bytes)) ==>
              next.stored == sys.stored + {BlockNr(Cut(sys.srv, ev.bytes))}
  {
    ReachStep(c, start, sys, ClientSends(n));
    ClientSendsInv(c, sys, n);
    var sent := Apply(c, sys, ClientSends(n));
    ReachStep(c, start, sent, ServerHears(ev));
    ServerHearsInv(c, sent, ev);
    next := Apply(c, sent, ServerHears(ev));
  }

  lemma HearNext(c: Setup, start: System, sys: System, k: nat, n: nat) returns (next: System)
    requires Reachable(c, start, sys) && Inv(c, sys) && sys.started
    requires sys.acked == k && n == k + 1 <= c.Last() && n <= 65535
    requires Encode(Ack(n)) in sys.toClient
    ensures Reachable(c, start, next) && Inv(c, next) && next.started && next.acked == n
    ensures next == sys.(acked := n)
  {
    var a := ClientHears(Encode(Ack(n)));
    EncodedFields(Ack(n));
    ReachStep(c, start, sys, a);
    ClientHearsInv(c, sys, Encode(Ack(n)));
    next := Apply(c, sys, a);
  }

  ghost predicate AcksUnderWay(ds: set<Datagram>, top: int) {
    forall m: nat :: m <= top ==> Encode(Ack(m)) in ds
  }

  /** Only first blocks of rows were stored. */
  ghost predicate RowsOnly(c: Setup, blocks: set<nat>)
    requires c.windowSize > 0
  {
    forall n :: n in blocks ==> (n - 1) % c.windowSize == 0
  }

  /** Both ends agree on base `k`, and all acknowledgements up to there are still under way. */
  ghost predicate Agree(c: Setup, start: System, sys: System, k: nat) {
    && Reachable(c, start, sys) && Inv(c, sys) && sys.alive && sys.started
    && sys.acked == k == sys.srv.first < c.Last() && sys.srv.bytesHandled == Packets(c, k)
    && AcksUnderWay(sys.toClient, k)
    && RowsOnly(c, sys.stored) && (k == 0 ==> sys.stored == {})
  }

  lemma RowAdded(c: Setup, blocks: set<nat>, j: nat)
    requires c.windowSize > 0 && RowsOnly(c, blocks) && (j - 1) % c.windowSize == 0
    ensures RowsOnly(c, blocks + {j})
  {
  }

  lemma AcksGrow(ds: set<Datagram>, k: nat, n: nat)
    requires AcksUnderWay(ds, k) && n == k + 1
    ensures AcksUnderWay(ds + OnTheWire([Ack(n)]), n)
  {
    WireOfOne(Ack(n));
  }

  /** The client sends the first block of a row, and the server moves its acknowledgement. */
  lemma RowServed(c: Setup, start: System, sys: System, k: nat, n: nat, j: nat) returns (served: System)
    requires Reachable(c, start, sys) && Inv(c, sys) && sys.alive && sys.started && n == k + 1
    requires sys.acked == k == sys.srv.first && k < j <= k + c.windowSize && j < c.Last() && j <= 65535
    requires (j - 1) % c.windowSize == 0 && !c.cfg.OverLimit(sys.srv.bytesHandled + c.blockSize + HEADER_SIZE)
    ensures Reachable(c, start, served) && Inv(c, served) && served.alive && served.started && served.acked == k
    ensures served.srv.first == n && served.srv.bytesHandled == sys.srv.bytesHandled + c.blockSize + HEADER_SIZE
    ensures served.toClient == sys.toClient + OnTheWire([Ack(n)]) && served.stored == sys.stored + {j}
  {
    var ev := Event(BlockDatagram(c, j), Quiet());
    ServerAdvances(c, sys.srv, j, ev, k);
    served := SendAndServe(c, start, sys, j, ev);
  }

  lemma AgreeMoves(c: Setup, start: System, sys: System, k: nat, n: nat, j: nat) returns (next: System)
    requires Agree(c, start, sys, k) && n == k + 1 && !c.cfg.OverLimit(Packets(c, n))
    requires k < j <= k + c.windowSize && (j - 1) % c.windowSize == 0 && j <= 65535 && j < c.Last()
    ensures Agree(c, start, next, n)
  {
    ChargeOne(c, k, n);
    var served := RowServed(c, start, sys, k, n, j);
    AcksGrow(sys.toClient, k, n);
    RowAdded(c, sys.stored, j);
    next := HearNext(c, start, served, k, n);
  }

  /** The rows up to this base begin before the last block, and before 16-bit numbers are used up. */
  predicate Climbable(c: Setup, top: nat) {
    || top == 0
    || (top + c.windowSize <= 0x1_0000 && top + c.windowSize <= c.Last())
    || (top <= Crest(c) && c.Last() > 65535)
  }

  lemma {:induction false} Climb(c: Setup, start: System, sys: System, k: nat, top: nat) returns (end: System)
    requires Agree(c, start, sys, k) && k <= top && !c.cfg.OverLimit(Packets(c, top)) && Climbable(c, top)
    ensures Agree(c, start, end, top)
    decreases top - k
  {
    if k == top {
      end := sys;
    } else {
      var n := k + 1;
      CrestIs(c);
      var j := FirstOfRow(c.windowSize, k, Crest(c));
      RoomBelow(c, n, top);
      var next := AgreeMoves(c, start, sys, k, n, j);
      end := Climb(c, start, next, n, top);
    }
  }

  lemma StartAgrees(c: Setup, start: System) returns (sys: System)
    requires Init(c, start)
    ensures Agree(c, start, sys, 0)
  {
    ReachStart(c, start);
    InitInv(c, start);
    EncodedFields(Ack(0));
    ReachStep(c, start, start, ClientHears(Encode(Ack(0))));
    ClientHearsInv(c, start, Encode(Ack(0)));
    sys := Apply(c, start, ClientHears(Encode(Ack(0))));
  }

  /** From the start to base `top`, at the cost of as many full packets. */
  lemma ClimbTo(c: Setup, start: System, top: nat) returns (end: System)
    requires Init(c, start) && !c.cfg.OverLimit(Packets(c, top)) && Climbable(c, top)
    ensures Agree(c, start, end, top)
  {
    var sys := StartAgrees(c, start);
    end := Climb(c, start, sys, 0, top);
  }

  // ---- the client runs ahead

  /** How far an old acknowledgement carries the client, if all up to `turn` are under way: one further, or from
      there to the next round of numbers. */
  function Stride(turn: nat, acked: nat): nat
    requires turn <= 65535
  {
    if Word(acked) == turn then 0x1_0000 - turn else 1
  }

  /** The number on that acknowledgement. */
  lemma StaleNumber(turn: nat, acked: nat, j: nat) returns (m: nat)
    requires 0 < turn <= 65535 && Word(acked) <= turn && j == Stride(turn, acked)
    ensures m <= turn && m == Word(acked + j) && Word(m - acked) == j
  {
    m := Word(acked + j);
  }

  lemma StaleAckMoves(c: Setup, acked: nat, m: nat, j: nat)
    requires c.Ok() && m <= 65535 && Word(m - acked) == j && 1 <= j <= c.windowSize && acked + j <= c.Last()
    ensures IsAck(Encode(Ack(m))) && Moved(c, acked, Encode(Ack(m))) == j
  {
    EncodedFields(Ack(m));
  }

  lemma BeforeNextRound(turn: nat, acked: nat, goal: nat)
    requires turn <= 65535 && acked < goal && Word(goal) <= turn
    ensures acked + Stride(turn, acked) <= goal
  {
  }

  lemma HearStale(c: Setup, start: System, sys: System, m: nat, j: nat) returns (next: System)
    requires c.Ok() && Reachable(c, start, sys) && WellFormed(sys.srv) && sys.started
    requires m <= 65535 && Word(m - sys.acked) == j && 1 <= j <= c.windowSize && sys.acked + j <= c.Last()
    requires Encode(Ack(m)) in sys.toClient
    ensures Reachable(c, start, next) && next == sys.(acked := sys.acked + j)
  {
    var a := ClientHears(Encode(Ack(m)));
    StaleAckMoves(c, sys.acked, m, j);
    ReachStep(c, start, sys, a);
    next := Apply(c, sys, a);
  }

  lemma DriftOn(c: Setup, start: System, sys: System, turn: nat, j: nat) returns (next: System)
    requires c.Ok() && Reachable(c, start, sys) && WellFormed(sys.srv) && sys.started
    requires Turn(c) <= turn <= 65535 && AcksUnderWay(sys.toClient, turn)
    requires Word(sys.acked) <= turn && j == Stride(turn, sys.acked) && sys.acked + j <= c.Last()
    ensures Reachable(c, start, next) && next == sys.(acked := sys.acked + j) && Word(next.acked) <= turn
  {
    var m := StaleNumber(turn, sys.acked, j);
    next := HearStale(c, start, sys, m, j);
  }

  /** Old acknowledgements carry the client to any block whose number is not behind `turn`, while the server
      stands still. */
  lemma {:induction false} Drift(c: Setup, start: System, sys: System, turn: nat, goal: nat) returns (end: System)
    requires c.Ok() && Reachable(c, start, sys) && WellFormed(sys.srv) && sys.started
    requires Turn(c) <= turn <= 65535 && AcksUnderWay(sys.toClient, turn)
    requires sys.acked <= goal <= c.Last() && Word(sys.acked) <= turn && Word(goal) <= turn
    ensures Reachable(c, start, end) && end == sys.(acked := goal)
    decreases goal - sys.acked
  {
    if sys.acked == goal {
      end := sys;
    } else {
      BeforeNextRound(turn, sys.acked, goal);
      end := DriftOn(c, start, sys, turn, Stride(turn, sys.acked));
      end := Drift(c, start, end, turn, goal);
    }
  }

  /** The client at `goal`, the server still at `turn`. */
  lemma RunAhead(c: Setup, start: System, turn: nat, goal: nat) returns (end: System)
    requires Init(c, start) && Turn(c) <= turn <= Crest(c) && !c.cfg.OverLimit(Packets(c, turn))
    requires 65535 < goal <= c.Last() && Word(goal) <= turn
    ensures Reachable(c, start, end) && end.acked == goal && end.alive && end.started && Inv(c, end)
    ensures end.srv.first == turn && end.srv.bytesHandled == Packets(c, turn)
  {
    CrestIs(c);
    var sys := ClimbTo(c, start, turn);
    end := Drift(c, start, sys, turn, goal);
    var steps := InSteps(c, start, end);
    ReachableInv(c, start, end, steps);
  }

  /** A client that has run ahead just far enough to send block `n`, of a later round of numbers, which the server
      stores under its 16-bit number. */
  lemma AheadFor(c: Setup, start: System, n: nat, ev: Event) returns (sys: System)
    requires Init(c, start) && 65535 < n <= c.Last() && Word(n) > Turn(c) && ev == Event(BlockDatagram(c, n), Quiet())
    requires !c.cfg.OverLimit(Packets(c, Turn(c)) + HEADER_SIZE + |Block(c.file, c.blockSize, n)|)
    ensures Reachable(c, start, sys) && Inv(c, sys) && sys.alive && sys.started && Enabled(c, sys, ClientSends(n))
    ensures sys.srv.first == Turn(c) && sys.srv.bytesHandled == Packets(c, Turn(c))
    ensures Cut(sys.srv, ev.bytes) == ev.bytes && StoresData(c.cfg, sys.srv, ev.bytes) && BlockNr(ev.bytes) == Word(n)
    ensures |ev.bytes| >= HEADER_SIZE && Payload(ev.bytes) == Block(c.file, c.blockSize, n)
    ensures |ev.bytes| < c.blockSize + HEADER_SIZE <==> n == c.Last()
  {
    var goal := n - (Word(n) - Turn(c));
    LimitMonotone(c.cfg, Packets(c, Turn(c)), Packets(c, Turn(c)) + HEADER_SIZE + |Block(c.file, c.blockSize, n)|);
    CrestIs(c);
    sys := RunAhead(c, start, Turn(c), goal);
    NumberedBlockIsStored(c, sys.srv, n, ev);
  }
}
