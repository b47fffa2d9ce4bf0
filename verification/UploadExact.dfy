/** When an upload with a window of more than one block is complete, and what its client learns: an
    acknowledgement is not cumulative, and a short block ends the session whatever is missing. */
module UploadExact {
  import opened Wire
  import opened Blocks
  import opened Protocol
  import opened UploadLaws
  import opened Network
  import opened UploadSystem
  import opened UploadLockStep
  import opened UploadPlacement
  import opened UploadClimb
  import opened UploadLedger

  // ---- no client with a window of more than one block hears of its last block

  /** The acknowledgement is behind the last block, and at the least paid for. */
  predicate Slow(c: Setup, s: State, alive: bool)
    requires c.Ok()
  {
    && 0 <= s.first < c.Last()
    && (alive ==> Packets(c, s.first) <= s.bytesHandled)
    && (alive && (c.Last() - 1) % c.windowSize == 0 ==> s.first < c.Last() - 1)
  }

  ghost predicate Behind(c: Setup, sys: System) {
    && Tracked(c, sys) && c.windowSize >= 2 && 2 <= c.Last() <= 65535 && Slow(c, sys.srv, sys.alive)
  }

  lemma PredecessorInRow(x: nat, w: nat)
    requires w >= 2 && x >= 1 && x % w == 0
    ensures (x - 1) % w != 0
  {
    if (x - 1) % w == 0 {
      var q, p := x / w, (x - 1) / w;
      assert x == q * w && x - 1 == p * w;
      assert (q - p) * w == q * w - p * w;
      if q - p >= 1 { MulMono(1, q - p, w); } else { MulMono(q - p, 0, w); }
    }
  }

  /** A full block never brings the acknowledgement to the end. */
  lemma FullStaysBehind(c: Setup, s: State, d: Datagram, n: nat)
    requires c.Ok() && c.windowSize >= 2 && 2 <= n + 1 <= c.Last() <= 65535 && Clean(s) && s.windowSize == c.windowSize
    requires JudgeData(c.cfg, s, d) == Stored && BlockNr(d) == n
    requires s.first < c.Last() && ((c.Last() - 1) % c.windowSize == 0 ==> s.first < c.Last() - 1)
    ensures s.first + Advance(s, d) < c.Last()
    ensures (c.Last() - 1) % c.windowSize == 0 ==> s.first + Advance(s, d) < c.Last() - 1
  {
    StoredEffect(c.cfg, s, d, Quiet());
    if (c.Last() - 1) % c.windowSize == 0 { PredecessorInRow(c.Last() - 1, c.windowSize); }
  }

  /** The last block moves it only onto itself, and not if another would have been needed. */
  lemma LastStaysBehind(c: Setup, s: State, d: Datagram)
    requires c.Ok() && c.windowSize >= 2 && 2 <= c.Last() <= 65535 && Clean(s) && s.windowSize == c.windowSize
    requires JudgeData(c.cfg, s, d) == Stored && BlockNr(d) == c.Last()
    requires s.first < c.Last() && ((c.Last() - 1) % c.windowSize == 0 ==> s.first < c.Last() - 1)
    ensures s.first + Advance(s, d) < c.Last()
  {
  }

  lemma StoredSlow(c: Setup, s: State, d: Datagram, env: Env, n: nat)
    requires c.Ok() && c.windowSize >= 2 && 2 <= c.Last() <= 65535 && Clean(s) && Slow(c, s, true)
    requires s.blockSize == c.blockSize && s.windowSize == c.windowSize && StoresData(c.cfg, s, d)
    requires 1 <= n == BlockNr(d) && n <= c.Last() && |d| == HEADER_SIZE + |Block(c.file, c.blockSize, n)|
    ensures var r := PacketRound(c.cfg, s, d, env); Slow(c, r.s, r.alive)
  {
    StoredRound(c.cfg, s, d, env);
    BlockLengths(c.file, c.blockSize, n);
    if n == c.Last() {
      LastStaysBehind(c, s, d);
    } else {
      FullStaysBehind(c, s, d, n);
      ChargeOne(c, s.first, s.first + 1);
    }
  }

  lemma StoreBehind(c: Setup, sys: System, ev: Event)
    requires Behind(c, sys) && Enabled(c, sys, ServerHears(ev)) && StoresData(c.cfg, sys.srv, Cut(sys.srv, ev.bytes))
    ensures Behind(c, Apply(c, sys, ServerHears(ev)))
  {
    var d := Cut(sys.srv, ev.bytes);
    var n := StoredNumber(c, sys, ev, d);
    ServerTracked(c, sys, ev);
    StoredSlow(c, sys.srv, d, ev.env, n);
  }

  lemma OtherBehind(c: Setup, sys: System, ev: Event)
    requires Behind(c, sys) && Enabled(c, sys, ServerHears(ev)) && !StoresData(c.cfg, sys.srv, Cut(sys.srv, ev.bytes))
    ensures Behind(c, Apply(c, sys, ServerHears(ev)))
  {
    ServerHearsInv(c, sys, ev);
    UploadRound(c.cfg, sys.srv, ev);
  }

  lemma ClientBehind(c: Setup, sys: System, d: Datagram)
    requires Behind(c, sys) && d in sys.toClient
    ensures Behind(c, Apply(c, sys, ClientHears(d)))
  {
    ClientTracked(c, sys, d);
  }

  lemma MoveBehind(c: Setup, prev: System, a: Action, sys: System)
    requires Behind(c, prev) && Moves(c, prev, a, sys)
    ensures Behind(c, sys)
  {
    match a
    case ServerHears(ev) =>
      if StoresData(c.cfg, prev.srv, Cut(prev.srv, ev.bytes)) {
        StoreBehind(c, prev, ev);
      } else {
        OtherBehind(c, prev, ev);
      }
    case ClientHears(d) => ClientBehind(c, prev, d);
    case ClientSends(n) => ClientSendsInv(c, prev, n);
  }

  lemma InitBehind(c: Setup, sys: System)
    requires Init(c, sys) && c.windowSize >= 2 && 2 <= c.Last() <= 65535
    ensures Behind(c, sys)
  {
    InitInv(c, sys);
    if c.Last() == 2 && 1 % c.windowSize == 0 { PredecessorInRow(1, c.windowSize); }
  }

  lemma {:induction false} ReachableBehind(c: Setup, start: System, sys: System, steps: nat)
    requires Init(c, start) && ReachableIn(c, start, sys, steps) && c.windowSize >= 2 && 2 <= c.Last() <= 65535
    ensures Behind(c, sys)
    decreases steps
  {
    if steps == 0 {
      InitBehind(c, sys);
    } else {
      var fewer := steps - 1;
      var prev, a := LastMove(c, start, sys, steps, fewer);
      ReachableBehind(c, start, prev, fewer);
      MoveBehind(c, prev, a, sys);
    }
  }

  /** A client with a window of more than one block and a file of more than one never hears that its last
      block arrived, whatever it sends and however often. */
  lemma NeverFullyAcknowledged(c: Setup, start: System, sys: System)
    requires Init(c, start) && c.windowSize >= 2 && 2 <= c.Last() <= 65535 && Reachable(c, start, sys)
    ensures sys.acked < c.Last()
  {
    var steps := InSteps(c, start, sys);
    ReachableBehind(c, start, sys, steps);
  }

  // ---- an upload that ends with a hole

  /** A block of the file no acknowledgement ever needs. */
  function Hole(c: Setup): nat {
    if c.Last() == 2 then 1 else 2
  }

  lemma ShortEnds(c: Setup, s: State, ev: Event)
    requires c.Ok() && Clean(s) && Cut(s, ev.bytes) == ev.bytes && StoresData(c.cfg, s, ev.bytes)
    requires HEADER_SIZE <= |ev.bytes| < s.blockSize + HEADER_SIZE
    ensures Step(c.cfg, s, ev).s.transferDone
  {
    StoredRound(c.cfg, s, ev.bytes, ev.env);
  }

  /** With the last block in the window, its arrival ends the transfer. */
  lemma EndNow(c: Setup, start: System, sys: System, k: nat, n: nat) returns (bad: System)
    requires Agree(c, start, sys, k) && n == c.Last() <= 65535 && k + c.windowSize >= n
    requires !c.cfg.OverLimit(sys.srv.bytesHandled + HEADER_SIZE + |Block(c.file, c.blockSize, n)|)
    ensures Reachable(c, start, bad) && bad.srv.transferDone && bad.stored == sys.stored + {n}
  {
    var ev := Event(BlockDatagram(c, n), Quiet());
    BlockIsStored(c, sys.srv, n, ev);
    ShortEnds(c, sys.srv, ev);
    bad := SendAndServe(c, start, sys, n, ev);
  }

  /** The cheapest way to the end stores nothing but the first blocks of rows, and the last block. */
  lemma EndsCheaply(c: Setup, start: System) returns (end: System, rows: set<nat>)
    requires Init(c, start) && c.Last() <= 65535 && !c.cfg.OverLimit(EndCost(c))
    ensures Reachable(c, start, end) && end.srv.transferDone && end.stored == rows + {c.Last()}
    ensures RowsOnly(c, rows) && (c.Last() <= c.windowSize ==> rows == {})
  {
    var top := if c.Last() > c.windowSize then c.Last() - c.windowSize else 0;
    LimitMonotone(c.cfg, Packets(c, top), EndCost(c));
    var sys := ClimbTo(c, start, top);
    rows := sys.stored;
    end := EndNow(c, start, sys, top, c.Last());
  }

  /** With a larger window that leaves a hole. */
  lemma EndsWithHole(c: Setup, start: System) returns (bad: System)
    requires Init(c, start) && c.windowSize >= 2 && 2 <= c.Last() <= 65535 && !c.cfg.OverLimit(EndCost(c))
    ensures Reachable(c, start, bad) && bad.srv.transferDone && Hole(c) !in bad.stored
  {
    var rows;
    bad, rows := EndsCheaply(c, start);
  }

  /** Past 65535 blocks, a client that has run ahead can have its last block stored under a number behind the turn. */
  lemma EndsAhead(c: Setup, start: System) returns (bad: System)
    requires Init(c, start) && c.Last() > 65535 && Word(c.Last()) > Turn(c) && !c.cfg.OverLimit(WithLast(c, Turn(c)))
    ensures Reachable(c, start, bad) && bad.srv.transferDone
  {
    var last := c.Last();
    var ev := Event(BlockDatagram(c, last), Quiet());
    var sys := AheadFor(c, start, last, ev);
    ShortEnds(c, sys.srv, ev);
    bad := SendAndServe(c, start, sys, last, ev);
  }

  lemma DoneStoresLast(c: Setup, start: System, sys: System)
    requires Init(c, start) && Reachable(c, start, sys) && sys.srv.transferDone
    ensures Word(c.Last()) in sys.stored && !NeverDone(c)
  {
    var steps := InSteps(c, start, sys);
    ReachableTold(c, start, sys, steps);
  }

  /** For every configuration and every file: an upload can be done at the server exactly if the limit has room for the
      cheapest way there and the last block, and the last block's number is not one the server is already past. */
  lemma UploadDoneIff(c: Setup, start: System)
    requires Init(c, start)
    ensures (exists sys :: Reachable(c, start, sys) && sys.srv.transferDone) <==> !NeverDone(c)
  {
    if !NeverDone(c) && c.Last() <= 65535 {
      var end, rows := EndsCheaply(c, start);
    } else if !NeverDone(c) {
      var end := EndsAhead(c, start);
    } else {
      forall sys | Reachable(c, start, sys) ensures !sys.srv.transferDone {
        if sys.srv.transferDone { DoneStoresLast(c, start, sys); }
      }
    }
  }

  lemma {:induction false} NumbersOnly(c: Setup, start: System, sys: System, steps: nat)
    requires Init(c, start) && ReachableIn(c, start, sys, steps)
    ensures forall n :: n in sys.stored ==> n <= 65535
    decreases steps
  {
    if steps > 0 {
      var fewer := steps - 1;
      var prev, a := LastMove(c, start, sys, steps, fewer);
      NumbersOnly(c, start, prev, fewer);
    }
  }

  /** For every configuration and every file: that "transfer done" always means every block was stored holds exactly
      for windows of one block, for files of one block, and where no session ever gets its last block stored. */
  lemma UploadCompleteIff(c: Setup, start: System)
    requires Init(c, start)
    ensures (forall sys :: Reachable(c, start, sys) && sys.srv.transferDone ==> AllStored(c, sys.stored))
            <==> c.windowSize == 1 || c.Last() == 1 || NeverDone(c)
  {
    if c.windowSize == 1 {
      forall sys | Reachable(c, start, sys) && sys.srv.transferDone ensures AllStored(c, sys.stored) {
        UploadComplete(c, start, sys);
      }
    } else if c.Last() == 1 || NeverDone(c) {
      forall sys | Reachable(c, start, sys) && sys.srv.transferDone ensures AllStored(c, sys.stored) {
        DoneStoresLast(c, start, sys);
      }
    } else if c.Last() <= 65535 {
      var bad := EndsWithHole(c, start);
    } else {
      var bad := EndsAhead(c, start);
      var steps := InSteps(c, start, bad);
      NumbersOnly(c, start, bad, steps);
      assert c.Last() !in bad.stored;
    }
  }
}
