/** What an upload has cost by the time it gets somewhere, against a client that may have run ahead. */
module UploadLedger {
  import opened Wire
  import opened Blocks
  import opened Protocol
  import opened UploadLaws
  import opened Network
  import opened UploadSystem
  import opened UploadLockStep
  import opened UploadClimb

  function LastSize(c: Setup): nat
    requires c.Ok()
  {
    |Block(c.file, c.blockSize, c.Last())|
  }

  /** Bytes of `k` full packets and the last block's. */
  function WithLast(c: Setup, k: nat): nat
    requires c.Ok()
  {
    Packets(c, k) + HEADER_SIZE + LastSize(c)
  }

  /** What a session has counted at the least when block `n` is stored: a full packet for every step of the
      acknowledgement up to a window before it, and the block. */
  function StoreCost(c: Setup, n: nat): nat
    requires c.Ok() && n >= 1
  {
    Packets(c, if n > c.windowSize then n - c.windowSize else 0) + HEADER_SIZE + |Block(c.file, c.blockSize, n)|
  }

  function EndCost(c: Setup): nat
    requires c.Ok()
  {
    StoreCost(c, c.Last())
  }

  // ---- blocks too far to seek

  /** Block `n` can be stored, though the product to seek it does not fit an `int`. */
  predicate FarStore(c: Setup, n: nat)
    requires c.Ok()
  {
    && c.windowSize >= 2 && 1 <= n <= c.Last() && n <= 65535
    && !SeekFits(c.blockSize, n) && !c.cfg.OverLimit(StoreCost(c, n))
  }

  /** A condition on configuration and file: one of two blocks can be stored though it is too far to seek. */
  predicate CanOverseek(c: Setup)
    requires c.Ok()
  {
    FarStore(c, FirstFar(c)) || FarStore(c, c.Last())
  }

  /** And these two are enough to look at. */
  lemma FarStoreDecides(c: Setup, n: nat)
    requires c.Ok() && FarStore(c, n)
    ensures CanOverseek(c)
  {
    var first := FirstFar(c);
    FarFromFirst(c, n);
    FarFromFirst(c, first);
    if n < c.Last() {
      BlockLengths(c.file, c.blockSize, n);
      BlockLengths(c.file, c.blockSize, first);
      MulMono(if first > c.windowSize then first - c.windowSize else 0,
              if n > c.windowSize then n - c.windowSize else 0, c.blockSize + HEADER_SIZE);
      LimitMonotone(c.cfg, StoreCost(c, first), StoreCost(c, n));
    }
  }

  /** A condition on configuration and file: the limit ends every session before the last block is stored, or
      16-bit numbers do. */
  predicate NeverDone(c: Setup)
    requires c.Ok()
  {
    if c.Last() <= 65535 then c.cfg.OverLimit(EndCost(c))
    else Word(c.Last()) <= Turn(c) || c.cfg.OverLimit(WithLast(c, Turn(c)))
  }

  /** A condition on configuration and file: a block of a later round of numbers can be stored under its 16-bit
      number. That takes a number behind the turn, and room for the way there and the block. */
  predicate CanMisfile(c: Setup)
    requires c.Ok()
  {
    && c.windowSize >= 2
    && (|| (c.Last() + c.windowSize > 0x2_0001 && !c.cfg.OverLimit(Packets(c, Turn(c) + 1)))
        || (c.Last() > 65535 && Word(c.Last()) > Turn(c) && !c.cfg.OverLimit(WithLast(c, Turn(c)))))
  }

  /** The last block is not empty, and the limit has room for it behind full packets for all others. */
  predicate LastCounts(c: Setup)
    requires c.Ok()
  {
    LastSize(c) > 0 && !c.cfg.OverLimit(WithLast(c, c.Last() - 1))
  }

  /** What it takes to have the last block's number acknowledged in a file of more than 65535 blocks: the way to
      the turn, and on to that number, the last step possibly by the last block itself. */
  function LearnCost(c: Setup): nat
    requires c.Ok()
  {
    var number := Word(c.Last());
    if number <= Turn(c) then Packets(c, Turn(c))
    else if (number - 1) % c.windowSize == 0 && LastSize(c) > 0 then WithLast(c, number - 1)
    else Packets(c, number)
  }

  /** What the server's state says. */
  predicate PaidUp(c: Setup, s: State, alive: bool)
    requires c.Ok()
  {
    && 0 <= s.first <= c.Last() && s.first <= Crest(c)
    && (alive ==> s.first < c.Last() && Packets(c, s.first) <= s.bytesHandled)
    && (s.first == c.Last() ==> LastCounts(c))
    && (c.Last() > 65535 && s.first >= Word(c.Last()) > Turn(c) ==> !c.cfg.OverLimit(LearnCost(c)))
  }

  /** As long as the client is not ahead in a file of more than 65535 blocks, all it was acknowledged was full
      packets; once it is ahead, so was the way to the turn. */
  predicate Toll(c: Setup, first: int, acked: nat)
    requires c.Ok() && first >= 0
  {
    && Word(acked) <= first
    && (c.Last() > 65535 && acked <= first ==> !c.cfg.OverLimit(Packets(c, first)))
    && (acked > first ==> !c.cfg.OverLimit(Packets(c, Turn(c))))
  }

  /** A transfer is done when the last block is stored. */
  ghost predicate DoneWith(c: Setup, done: bool, stored: set<nat>)
    requires c.Ok()
  {
    done ==> Word(c.Last()) in stored && !NeverDone(c)
  }

  ghost predicate Told(c: Setup, sys: System) {
    && Tracked(c, sys) && PaidUp(c, sys.srv, sys.alive) && Toll(c, sys.srv.first, sys.acked)
    && DoneWith(c, sys.srv.transferDone, sys.stored)
  }

  /** A step of the acknowledgement is a block that is first of its row. */
  lemma AdvanceOnRow(c: Setup, s: State, d: Datagram)
    requires c.Ok() && Clean(s) && s.windowSize == c.windowSize && s.first <= Crest(c)
    requires JudgeData(c.cfg, s, d) == Stored
    ensures s.first + Advance(s, d) <= BlockNr(d) && s.first + Advance(s, d) <= Crest(c)
  {
    StoredEffect(c.cfg, s, d, Quiet());
    if Advance(s, d) == 1 { RowBelowCrest(c, BlockNr(d)); }
  }

  lemma NumberPaid(c: Setup, number: nat)
    requires c.Ok() && number == Word(c.Last()) > Turn(c) && !c.cfg.OverLimit(Packets(c, number))
    ensures !c.cfg.OverLimit(LearnCost(c))
  {
    var before := number - 1;
    ChargeOne(c, before, number);
    BlockLengths(c.file, c.blockSize, c.Last());
    LimitMonotone(c.cfg, WithLast(c, before), Packets(c, number));
  }

  lemma FullPaid(c: Setup, s: State, d: Datagram, env: Env, n: nat)
    requires c.Ok() && Clean(s) && PaidUp(c, s, true) && s.blockSize == c.blockSize && s.windowSize == c.windowSize
    requires StoresData(c.cfg, s, d) && 1 <= n < c.Last() && BlockNr(d) == Word(n)
    requires |d| == HEADER_SIZE + |Block(c.file, c.blockSize, n)|
    ensures var r := PacketRound(c.cfg, s, d, env);
            && PaidUp(c, r.s, r.alive) && !r.s.transferDone
            && (!c.cfg.OverLimit(Packets(c, s.first)) ==> !c.cfg.OverLimit(Packets(c, r.s.first)))
  {
    var next := s.first + 1;
    StoredRound(c.cfg, s, d, env);
    BlockLengths(c.file, c.blockSize, n);
    AdvanceOnRow(c, s, d);
    ChargeOne(c, s.first, next);
    LimitMonotone(c.cfg, Packets(c, next), s.bytesHandled + |d|);
    if c.Last() > 65535 && next == Word(c.Last()) > Turn(c) { NumberPaid(c, next); }
  }

  lemma LastPaid(c: Setup, s: State, d: Datagram, env: Env)
    requires c.Ok() && Clean(s) && PaidUp(c, s, true) && s.blockSize == c.blockSize && s.windowSize == c.windowSize
    requires StoresData(c.cfg, s, d) && BlockNr(d) == Word(c.Last()) && |d| == HEADER_SIZE + LastSize(c)
    ensures var r := PacketRound(c.cfg, s, d, env);
            PaidUp(c, r.s, r.alive) && !r.alive && s.first < Word(c.Last())
    ensures !c.cfg.OverLimit(WithLast(c, s.first))
  {
    StoredRound(c.cfg, s, d, env);
    BlockLengths(c.file, c.blockSize, c.Last());
    AdvanceOnRow(c, s, d);
    LimitMonotone(c.cfg, WithLast(c, s.first), s.bytesHandled + |d|);
  }

  lemma PaidBefore(c: Setup, least: nat, first: nat)
    requires c.Ok() && first >= least && !c.cfg.OverLimit(WithLast(c, first))
    ensures !c.cfg.OverLimit(WithLast(c, least))
  {
    MulMono(least, first, c.blockSize + HEADER_SIZE);
    LimitMonotone(c.cfg, WithLast(c, least), WithLast(c, first));
  }

  /** The client sends its last block from inside the window, or, past 65535 blocks, only when it is ahead. */
  predicate SendsLast(c: Setup, first: int) {
    if c.Last() <= 65535 then c.Last() <= first + c.windowSize else first >= Turn(c)
  }

  lemma LastDone(c: Setup, s: State, d: Datagram, env: Env)
    requires c.Ok() && Clean(s) && PaidUp(c, s, true) && s.blockSize == c.blockSize && s.windowSize == c.windowSize
    requires StoresData(c.cfg, s, d) && BlockNr(d) == Word(c.Last()) && |d| == HEADER_SIZE + LastSize(c)
    requires SendsLast(c, s.first)
    ensures var r := PacketRound(c.cfg, s, d, env);
            PaidUp(c, r.s, r.alive) && DoneWith(c, true, {BlockNr(d)})
  {
    LastPaid(c, s, d, env);
    if c.Last() > 65535 {
      PaidBefore(c, Turn(c), s.first);
    } else {
      PaidBefore(c, if c.Last() > c.windowSize then c.Last() - c.windowSize else 0, s.first);
    }
  }

  lemma LastTold(c: Setup, sys: System, ev: Event, d: Datagram)
    requires Told(c, sys) && Enabled(c, sys, ServerHears(ev)) && StoresData(c.cfg, sys.srv, d)
    requires d == Cut(sys.srv, ev.bytes) && BlockNr(d) == Word(c.Last()) && |d| == HEADER_SIZE + LastSize(c)
    requires SendsLast(c, sys.srv.first) && (c.Last() > 65535 ==> sys.acked > sys.srv.first)
    ensures Told(c, Apply(c, sys, ServerHears(ev)))
  {
    ServerTracked(c, sys, ev);
    LastDone(c, sys.srv, d, ev.env);
  }

  lemma FullTold(c: Setup, sys: System, ev: Event, d: Datagram, n: nat)
    requires Told(c, sys) && Enabled(c, sys, ServerHears(ev)) && StoresData(c.cfg, sys.srv, d)
    requires d == Cut(sys.srv, ev.bytes) && 1 <= n < c.Last() && BlockNr(d) == Word(n)
    requires |d| == HEADER_SIZE + |Block(c.file, c.blockSize, n)|
    ensures Told(c, Apply(c, sys, ServerHears(ev)))
  {
    ServerTracked(c, sys, ev);
    FullPaid(c, sys.srv, d, ev.env, n);
  }

  lemma StoreTold(c: Setup, sys: System, ev: Event)
    requires Told(c, sys) && Enabled(c, sys, ServerHears(ev)) && StoresData(c.cfg, sys.srv, Cut(sys.srv, ev.bytes))
    ensures Told(c, Apply(c, sys, ServerHears(ev)))
  {
    var d := Cut(sys.srv, ev.bytes);
    var n := StoredIsBlock(c, sys, ev, d);
    if sys.acked <= sys.srv.first { n := StoredNumber(c, sys, ev, d); }
    if n == c.Last() {
      LastTold(c, sys, ev, d);
    } else {
      FullTold(c, sys, ev, d, n);
    }
  }

  lemma PaidBlock(c: Setup, first: nat, bytes: nat, size: nat)
    requires c.Ok() && Turn(c) <= first && Packets(c, first) <= bytes && !c.cfg.OverLimit(bytes + size)
    ensures !c.cfg.OverLimit(Packets(c, Turn(c)) + size)
  {
    MulMono(Turn(c), first, c.blockSize + HEADER_SIZE);
    LimitMonotone(c.cfg, Packets(c, Turn(c)) + size, bytes + size);
  }

  /** Only a client that is ahead sends a block of a later round of numbers the server would store. */
  lemma AheadOnly(c: Setup, sys: System, n: nat)
    requires Told(c, sys) && 65535 < n <= sys.acked + c.windowSize && sys.srv.first < Word(n)
    ensures sys.acked > sys.srv.first >= Turn(c)
  {
  }

  lemma LaterBlock(c: Setup, n: nat, size: nat)
    requires c.Ok() && 65535 < n <= c.Last() && Word(n) > Turn(c)
    requires size == HEADER_SIZE + |Block(c.file, c.blockSize, n)| && !c.cfg.OverLimit(Packets(c, Turn(c)) + size)
    ensures CanMisfile(c)
  {
    BlockLengths(c.file, c.blockSize, n);
    if n < c.Last() { ChargeOne(c, Turn(c), Turn(c) + 1); }
  }

  /** Nothing else stores a block under another block's number. */
  lemma MisfilingNeeds(c: Setup, sys: System, n: nat, d: Datagram)
    requires Told(c, sys) && sys.alive && StoresData(c.cfg, sys.srv, d)
    requires 65535 < n <= sys.acked + c.windowSize && n <= c.Last()
    requires BlockNr(d) == Word(n) && |d| == HEADER_SIZE + |Block(c.file, c.blockSize, n)|
    ensures CanMisfile(c)
  {
    AheadOnly(c, sys, n);
    PaidBlock(c, sys.srv.first, sys.srv.bytesHandled, |d|);
    LaterBlock(c, n, |d|);
  }

  /** So elsewhere every block is stored under its own number. */
  lemma StoredAsItself(c: Setup, sys: System, ev: Event, d: Datagram) returns (n: nat)
    requires Told(c, sys) && Enabled(c, sys, ServerHears(ev)) && !CanMisfile(c)
    requires d == Cut(sys.srv, ev.bytes) && StoresData(c.cfg, sys.srv, d)
    ensures 1 <= n == BlockNr(d) <= 65535 && n <= c.Last() && n <= sys.acked + c.windowSize
    ensures Payload(d) == Block(c.file, c.blockSize, n) && |d| == HEADER_SIZE + |Payload(d)|
  {
    n := StoredIsBlock(c, sys, ev, d);
    if n > 65535 { MisfilingNeeds(c, sys, n, d); }
  }

  lemma PaidForFar(c: Setup, k: nat, first: nat, bytes: nat, total: nat, size: nat)
    requires c.Ok() && k <= first && Packets(c, first) <= bytes <= total && !c.cfg.OverLimit(total)
    requires bytes + size <= total || (k < first && size <= c.blockSize + HEADER_SIZE)
    ensures !c.cfg.OverLimit(Packets(c, k) + size)
  {
    MulMono(k, first, c.blockSize + HEADER_SIZE);
    if k < first {
      ChargeOne(c, k, k + 1);
      MulMono(k + 1, first, c.blockSize + HEADER_SIZE);
    }
    LimitMonotone(c.cfg, Packets(c, k) + size, total);
  }

  /** Whatever is stored and is too far to seek could be stored at the least cost too. */
  lemma OverseekNeeds(c: Setup, sys: System, n: nat, d: Datagram)
    requires Told(c, sys) && sys.alive && c.windowSize >= 2 && StoresData(c.cfg, sys.srv, d)
    requires 1 <= n <= sys.acked + c.windowSize && n <= c.Last()
    requires BlockNr(d) == Word(n) && |d| == HEADER_SIZE + |Block(c.file, c.blockSize, n)|
    requires !SeekFits(c.blockSize, BlockNr(d))
    ensures CanOverseek(c)
  {
    var m, s := Word(n), sys.srv;
    var k := if m > c.windowSize then m - c.windowSize else 0;
    BlockLengths(c.file, c.blockSize, m);
    PaidForFar(c, k, s.first, s.bytesHandled, s.bytesHandled + |d|, HEADER_SIZE + |Block(c.file, c.blockSize, m)|);
    FarStoreDecides(c, m);
  }

  lemma OtherTold(c: Setup, sys: System, ev: Event)
    requires Told(c, sys) && Enabled(c, sys, ServerHears(ev)) && !StoresData(c.cfg, sys.srv, Cut(sys.srv, ev.bytes))
    ensures Told(c, Apply(c, sys, ServerHears(ev)))
  {
    ServerTracked(c, sys, ev);
    UploadRound(c.cfg, sys.srv, ev);
  }

  lemma WordAhead(acked: nat, m: nat, j: nat)
    requires m <= 65535 && j == Word(m - acked)
    ensures Word(acked + j) == m
  {
  }

  lemma WordOfMoved(c: Setup, acked: nat, m: nat, d: Datagram)
    requires m <= 65535 && d == Encode(Ack(m)) && IsAck(d) && Moved(c, acked, d) > 0
    ensures Word(acked + Moved(c, acked, d)) == m
  {
    EncodedFields(Ack(m));
    WordAhead(acked, m, Moved(c, acked, d));
  }

  lemma ClientTold(c: Setup, sys: System, d: Datagram)
    requires Told(c, sys) && d in sys.toClient
    ensures Told(c, Apply(c, sys, ClientHears(d)))
  {
    ClientTracked(c, sys, d);
    var next := Apply(c, sys, ClientHears(d));
    if next.acked > sys.acked {
      assert Honest(d, sys.srv.first);
      var m :| 0 <= m <= sys.srv.first && d == Encode(Ack(m));
      WordOfMoved(c, sys.acked, m, d);
      if next.acked > sys.srv.first >= sys.acked { RoomBelow(c, Turn(c), sys.srv.first); }
    }
  }

  lemma MoveTold(c: Setup, prev: System, a: Action, sys: System)
    requires Told(c, prev) && Moves(c, prev, a, sys)
    ensures Told(c, sys)
  {
    match a
    case ServerHears(ev) =>
      if StoresData(c.cfg, prev.srv, Cut(prev.srv, ev.bytes)) {
        StoreTold(c, prev, ev);
      } else {
        OtherTold(c, prev, ev);
      }
    case ClientHears(d) => ClientTold(c, prev, d);
    case ClientSends(n) => ClientSendsInv(c, prev, n);
  }

  lemma InitTold(c: Setup, sys: System)
    requires Init(c, sys)
    ensures Told(c, sys)
  {
    InitInv(c, sys);
    CrestIs(c);
    assert Packets(c, 0) == 0;
  }

  lemma {:induction false} ReachableTold(c: Setup, start: System, sys: System, steps: nat)
    requires Init(c, start) && ReachableIn(c, start, sys, steps)
    ensures Told(c, sys)
    decreases steps
  {
    if steps == 0 {
      InitTold(c, sys);
    } else {
      var fewer := steps - 1;
      var prev, a := LastMove(c, start, sys, steps, fewer);
      ReachableTold(c, start, prev, fewer);
      MoveTold(c, prev, a, sys);
    }
  }
}
