/** How far a download is safe: 16-bit numbers come round again behind block 65536, if the byte limit lets the
    session get that far. */
module DownloadReach {
  import opened Wire
  import opened Settings
  import opened Blocks
  import opened Protocol
  import opened DownloadLaws
  import opened DownloadTotals
  import opened Network
  import opened DownloadSystem
  import opened DownloadExact

  /** The first block whose number comes round again is the one behind this. */
  const ROUND: nat := 0x1_0000

  // ---- a block that was sent was within the limit

  lemma {:induction false} TransmitReaches(cfg: Config, plan: seq<seq<Byte>>, bytes: nat, sendsOk: nat, i: nat)
    requires i < |plan| && !cfg.OverLimit(bytes)
    ensures i < Transmit(cfg, plan, bytes, sendsOk).count <==>
            i < sendsOk && !cfg.OverLimit(bytes + TotalSize(plan[..i]))
    decreases |plan|
  {
    if sendsOk > 0 {
      var total, sends := bytes + |plan[0]|, sendsOk - 1;
      if i > 0 {
        var j := i - 1;
        assert plan[..i] == [plan[0]] + plan[1..][..j];
        TotalSizeCons(plan[0], plan[1..][..j]);
        LimitMonotone(cfg, total, bytes + TotalSize(plan[..i]));
        if !cfg.OverLimit(total) { TransmitReaches(cfg, plan[1..], total, sends, j); }
      }
    }
  }

  lemma {:induction false} FullBlocksBefore(c: Setup, first: nat, ps: seq<seq<Byte>>, i: nat, n: nat)
    requires c.Ok() && AreBlocks(c.file, c.blockSize, first, ps) && i <= |ps| && n == first + i <= c.Last()
    ensures Offset(c.blockSize, n) == Offset(c.blockSize, first) + TotalSize(ps[..i])
    decreases i
  {
    if i > 0 {
      var j, m := i - 1, n - 1;
      FullBlocksBefore(c, first, ps, j, m);
      assert ps[..i][..j] == ps[..j];
      assert ps[j] == Block(c.file, c.blockSize, first + j);
      BlockLengths(c.file, c.blockSize, m);
    }
  }

  lemma SentCount(cfg: Config, s: State, env: Env, plan: seq<seq<Byte>>, i: nat, before: nat)
    requires s.file.Some? && plan == Plan(Rewind(s)) && i < |plan| && !cfg.OverLimit(s.bytesHandled)
    requires before == s.bytesHandled + TotalSize(plan[..i])
    ensures i < |SendWindow(cfg, s, env).1| <==> i < env.sendsOk && !cfg.OverLimit(before)
  {
    TransmitReaches(cfg, plan, s.bytesHandled, env.sendsOk, i);
  }

  /** Of a window, a block goes out exactly if its `send` works and the bytes before it are within the limit. */
  lemma BlockGoesOut(c: Setup, s: State, env: Env, i: nat, n: nat, before: nat)
    requires c.Ok() && Serves(c.file, s) && s.blockSize == c.blockSize && s.windowSize == c.windowSize
    requires 1 <= s.first && n == s.first + i <= c.Last() && i < c.windowSize && !c.cfg.OverLimit(s.bytesHandled)
    requires SeekFits(c.blockSize, s.first)
    requires before == s.bytesHandled + Offset(c.blockSize, n) - Offset(c.blockSize, s.first)
    ensures i < |SendWindow(c.cfg, s, env).1| <==> i < env.sendsOk && !c.cfg.OverLimit(before)
  {
    var plan := Plan(Rewind(s));
    PlanIsBlocks(c.file, s, plan);
    FullBlocksBefore(c, s.first, plan, i, n);
    SentCount(c.cfg, s, env, plan, i, before);
  }

  /** A datagram that carries data carries a block with only bytes within the limit before it. */
  ghost predicate Affordable(c: Setup, d: Datagram) {
    HasOp(d, OP_DATA) ==>
      exists n :: 1 <= n <= c.Last() && d == BlockDatagram(c, n) && !c.cfg.OverLimit(Offset(c.blockSize, n))
  }

  lemma SentAffordable(c: Setup, s: State, env: Env, i: nat, n: nat)
    requires c.Ok() && Serves(c.file, s) && s.blockSize == c.blockSize && s.windowSize == c.windowSize
    requires 1 <= s.first && n == s.first + i <= c.Last() && i < c.windowSize && !c.cfg.OverLimit(s.bytesHandled)
    requires SeekFits(c.blockSize, s.first)
    requires s.bytesHandled >= Offset(c.blockSize, s.first) && i < |SendWindow(c.cfg, s, env).1|
    ensures !c.cfg.OverLimit(Offset(c.blockSize, n))
  {
    OffsetGrows(c.blockSize, s.first, n);
    var before := s.bytesHandled + Offset(c.blockSize, n) - Offset(c.blockSize, s.first);
    BlockGoesOut(c, s, env, i, n, before);
    LimitMonotone(c.cfg, Offset(c.blockSize, n), before);
  }

  /** A packet with data that a round sends is in the window. */
  lemma RoundSends(cfg: Config, s: State, env: Env, i: nat)
    requires i < |WindowRound(cfg, s, env).sent| && WindowRound(cfg, s, env).sent[i].Data?
    ensures i < |SendWindow(cfg, s, env).1| && WindowRound(cfg, s, env).sent[i] == SendWindow(cfg, s, env).1[i]
  {
  }

  lemma PacketAffordable(c: Setup, s: State, env: Env, i: nat, n: nat, p: Packet)
    requires c.Ok() && Serves(c.file, s) && s.blockSize == c.blockSize && s.windowSize == c.windowSize
    requires 1 <= s.first <= c.Last() && s.error == ERR_NO_ERROR && !c.cfg.OverLimit(s.bytesHandled)
    requires SeekFits(c.blockSize, s.first)
    requires s.bytesHandled >= Offset(c.blockSize, s.first) && n == s.first + i
    requires i < |WindowRound(c.cfg, s, env).sent| && p == WindowRound(c.cfg, s, env).sent[i] && p.Data?
    ensures n <= c.Last() && !c.cfg.OverLimit(Offset(c.blockSize, n)) && Encode(p) == BlockDatagram(c, n)
  {
    RoundSends(c.cfg, s, env, i);
    WindowSent(c.cfg, c.file, s, env);
    assert Carries(c.file, c.blockSize, p, n);
    SentAffordable(c, s, env, i, n);
  }

  lemma WindowAffordable(c: Setup, s: State, env: Env)
    requires c.Ok() && Serves(c.file, s) && s.blockSize == c.blockSize && s.windowSize == c.windowSize
    requires 1 <= s.first <= c.Last() && s.error == ERR_NO_ERROR && !c.cfg.OverLimit(s.bytesHandled)
    requires SeekFits(c.blockSize, s.first)
    requires s.bytesHandled >= Offset(c.blockSize, s.first)
    ensures forall d :: d in OnTheWire(WindowRound(c.cfg, s, env).sent) ==> Affordable(c, d)
  {
    var sent := WindowRound(c.cfg, s, env).sent;
    forall d | d in OnTheWire(sent) ensures Affordable(c, d) {
      var i :| 0 <= i < |sent| && d == Encode(sent[i]);
      EncodedFields(sent[i]);
      if sent[i].Data? { PacketAffordable(c, s, env, i, s.first + i, sent[i]); }
    }
  }

  /** By the time a session sends from a base it has paid for all blocks before it. */
  lemma BasePaid(c: Setup, s: State, next: nat)
    requires Charged(c, s) && s.first <= next <= c.Last()
    requires next > s.first ==> !s.readDone && next <= s.first + c.windowSize
    ensures s.bytesHandled >= Offset(c.blockSize, next)
  {
    var up := RoundUp(c.windowSize, s.first - 1);
    RoundUpBounds(c.windowSize, s.first - 1);
    SpanIs(c, s.first);
    OffsetIsProduct(c.blockSize, next);
    if next > s.first {
      MulMono(next - 1, up + c.windowSize, c.blockSize);
      Spread(up, c.windowSize, c.blockSize);
    } else {
      MulMono(next - 1, up, c.blockSize);
    }
  }

  lemma {:induction false} NoData(sent: seq<Packet>)
    requires DataCount(sent) == 0
    ensures forall i :: 0 <= i < |sent| ==> !sent[i].Data?
    decreases |sent|
  {
    if sent != [] {
      var n := |sent| - 1;
      NoData(sent[..n]);
    }
  }

  lemma QuietAffordable(c: Setup, sent: seq<Packet>)
    requires DataCount(sent) == 0
    ensures forall d :: d in OnTheWire(sent) ==> Affordable(c, d)
  {
    NoData(sent);
    forall d | d in OnTheWire(sent) ensures Affordable(c, d) {
      var i :| 0 <= i < |sent| && d == Encode(sent[i]);
      EncodedFields(sent[i]);
    }
  }

  /** An accepted acknowledgement before the end of the file leads to a base in it that is near enough. */
  lemma NextBase(c: Setup, s: State, ev: Event, next: int)
    requires Charged(c, s) && Acked(s, ev) && !s.readDone && next == BlockNr(Cut(s, ev.bytes)) + 1
    ensures s.first < next <= s.first + c.windowSize && next <= c.Last() && SeekFits(c.blockSize, next)
  {
    NextSeekFits(c.cfg, c.file, s, ev);
    AckNamesSentBlock(c.file, s, ev);
  }

  lemma NextAffordable(c: Setup, s: State, ev: Event, next: int, s1: State)
    requires Charged(c, s) && Acked(s, ev) && !s.readDone && next == BlockNr(Cut(s, ev.bytes)) + 1
    requires s1 == s.(first := next)
    ensures forall d :: d in OnTheWire(Step(c.cfg, s, ev).sent) ==> Affordable(c, d)
  {
    NextBase(c, s, ev, next);
    BasePaid(c, s, next);
    AckSends(c.cfg, s, ev, s1);
    WindowAffordable(c, s1, ev.env);
  }

  lemma AckAffordable(c: Setup, s: State, ev: Event)
    requires Charged(c, s) && Acked(s, ev)
    ensures forall d :: d in OnTheWire(Step(c.cfg, s, ev).sent) ==> Affordable(c, d)
  {
    if s.readDone {
      assert Step(c.cfg, s, ev).sent == [];
    } else {
      var next := BlockNr(Cut(s, ev.bytes)) + 1;
      NextAffordable(c, s, ev, next, s.(first := next));
    }
  }

  lemma ResendAffordable(c: Setup, s: State, ev: Event)
    requires Charged(c, s) && Resends(c.cfg, s, ev)
    ensures forall d :: d in OnTheWire(Step(c.cfg, s, ev).sent) ==> Affordable(c, d)
  {
    var s1 := s.(retry := s.retry + 1);
    BasePaid(c, s, s.first);
    RetryResends(c.cfg, s, s1, ev.env);
    assert Step(c.cfg, s, ev) == WindowRound(c.cfg, s1, ev.env);
    WindowAffordable(c, s1, ev.env);
  }

  lemma StepAffordable(c: Setup, s: State, ev: Event)
    requires Charged(c, s)
    ensures forall d :: d in OnTheWire(Step(c.cfg, s, ev).sent) ==> Affordable(c, d)
  {
    if Acked(s, ev) {
      AckAffordable(c, s, ev);
    } else if Resends(c.cfg, s, ev) {
      ResendAffordable(c, s, ev);
    } else {
      QuietRound(c.cfg, c.file, s, ev);
      QuietAffordable(c, Step(c.cfg, s, ev).sent);
    }
  }

  // ---- a limit below one round of numbers

  /** The byte limit ends every session before block 65536. */
  predicate Short(c: Setup) {
    c.cfg.OverLimit(65535 * c.blockSize)
  }

  ghost predicate Kept(c: Setup, sys: System) {
    && Inv(c, sys) && Tolled(c, sys) && sys.blocks < ROUND
    && forall d :: d in sys.toClient ==> Affordable(c, d)
  }

  lemma LateIsOver(c: Setup, n: nat)
    requires c.Ok() && Short(c) && n >= ROUND
    ensures c.cfg.OverLimit(Offset(c.blockSize, n))
  {
    OffsetIsProduct(c.blockSize, ROUND);
    OffsetGrows(c.blockSize, ROUND, n);
    LimitMonotone(c.cfg, Offset(c.blockSize, ROUND), Offset(c.blockSize, n));
  }

  lemma AffordableBlock(c: Setup, d: Datagram) returns (n: nat)
    requires c.Ok() && Affordable(c, d) && HasOp(d, OP_DATA) && |d| >= HEADER_SIZE
    ensures n >= 1 && BlockNr(d) == Word(n) && !c.cfg.OverLimit(Offset(c.blockSize, n))
  {
    n :| 1 <= n <= c.Last() && d == BlockDatagram(c, n) && !c.cfg.OverLimit(Offset(c.blockSize, n));
    EncodedFields(Data(Word(n), Block(c.file, c.blockSize, n)));
  }

  lemma NumberBelow(n: nat, k: nat)
    requires 1 <= n < ROUND && 1 <= k <= ROUND && Word(n) == Word(k)
    ensures k < ROUND
  {
  }

  lemma NumbersSuffice(c: Setup, sys: System, d: Datagram)
    requires Kept(c, sys) && Short(c) && d in sys.toClient && Takes(sys, d)
    ensures sys.blocks + 1 < ROUND
  {
    var n := AffordableBlock(c, d);
    if n >= ROUND { LateIsOver(c, n); }
    NumberBelow(n, sys.blocks + 1);
  }

  lemma MoveKept(c: Setup, prev: System, a: Action, sys: System)
    requires Kept(c, prev) && Short(c) && Moves(c, prev, a, sys)
    ensures Kept(c, sys)
  {
    match a
    case ServerHears(ev) =>
      StepCharged(c, prev.srv, ev);
      StepAffordable(c, prev.srv, ev);
      MoveInv(c, prev, a, sys);
    case ClientHears(d) =>
      if Takes(prev, d) { NumbersSuffice(c, prev, d); }
      MoveInv(c, prev, a, sys);
    case ClientAcks =>
      MoveInv(c, prev, a, sys);
  }

  lemma InitKept(c: Setup, start: System)
    requires Init(c, start)
    ensures Kept(c, start)
  {
    InitInv(c, start);
    ReachStart(c, start);
    ReachableTolled(c, start, start, 0);
    var end := 1 + c.windowSize;
    WindowTotal(c.file, c.blockSize, 1, c.windowSize, end);
    forall d | d in start.toClient ensures Affordable(c, d) {
      var n :| 1 <= n <= Min(c.windowSize, c.Last()) && d == BlockDatagram(c, n);
      OffsetGrows(c.blockSize, n, end);
      CountIff(|c.file|, c.blockSize, n);
      LimitMonotone(c.cfg, Offset(c.blockSize, n), start.srv.bytesHandled);
    }
  }

  lemma {:induction false} ReachableKept(c: Setup, start: System, sys: System, steps: nat)
    requires Init(c, start) && ReachableIn(c, start, sys, steps) && Short(c)
    ensures Kept(c, sys)
    decreases steps
  {
    if steps == 0 {
      InitKept(c, sys);
    } else {
      var prev, a := LastMove(c, start, sys, steps, steps - 1);
      ReachableKept(c, start, prev, steps - 1);
      MoveKept(c, prev, a, sys);
    }
  }

  // ---- up to block 65536

  ghost predicate AllUnderWay(c: Setup, ds: set<Datagram>, top: nat) {
    forall n :: 1 <= n <= top ==> BlockDatagram(c, n) in ds
  }

  /** Whole windows up to base `first`, every block sent once, all of them still deliverable. */
  ghost predicate Ladder(c: Setup, start: System, sys: System, first: nat, next: nat) {
    && c.Ok() && SeekFits(c.blockSize, ROUND) && Reachable(c, start, sys) && sys.alive && InWindow(c.file, sys.srv)
    && sys.srv.blockSize == c.blockSize && sys.srv.windowSize == c.windowSize
    && 1 <= first == sys.srv.first && next == first + c.windowSize <= ROUND < c.Last()
    && sys.blocks == first - 1 && !sys.done
    && sys.srv.bytesHandled == (next - 1) * c.blockSize && AllUnderWay(c, sys.toClient, next - 1)
  }

  /** The next window from there, as far as block 65536. */
  lemma NextRung(c: Setup, s: State, env: Env, first: nat, n: nat)
    requires c.Ok() && Serves(c.file, s) && s.blockSize == c.blockSize && s.windowSize == c.windowSize
    requires 1 <= s.first == first <= n <= ROUND < c.Last() && n <= first - 1 + c.windowSize
    requires env.sendsOk >= c.windowSize && SeekFits(c.blockSize, first)
    requires s.bytesHandled == (first - 1) * c.blockSize && s.error == ERR_NO_ERROR && !Short(c)
    ensures BlockDatagram(c, n) in OnTheWire(WindowRound(c.cfg, s, env).sent)
  {
    var i := n - first;
    OffsetIsProduct(c.blockSize, first);
    OffsetIsProduct(c.blockSize, n);
    OffsetIsProduct(c.blockSize, ROUND);
    OffsetGrows(c.blockSize, first, n);
    OffsetGrows(c.blockSize, n, ROUND);
    LimitMonotone(c.cfg, s.bytesHandled, 65535 * c.blockSize);
    LimitMonotone(c.cfg, Offset(c.blockSize, n), 65535 * c.blockSize);
    BlockGoesOut(c, s, env, i, n, Offset(c.blockSize, n));
    WindowSent(c.cfg, c.file, s, env);
    var sent := WindowRound(c.cfg, s, env).sent;
    assert Carries(c.file, c.blockSize, sent[i], first + i);
  }

  /** Within the first round of numbers the session goes on. */
  lemma RungHolds(c: Setup, s: State, env: Env, first: nat, next: nat)
    requires c.Ok() && Serves(c.file, s) && s.blockSize == c.blockSize && s.windowSize == c.windowSize
    requires 1 <= s.first == first && next == first + c.windowSize <= ROUND < c.Last() && env.sendsOk >= c.windowSize
    requires SeekFits(c.blockSize, first)
    requires s.bytesHandled == (first - 1) * c.blockSize && s.error == ERR_NO_ERROR && !s.transferDone && !Short(c)
    ensures var r := WindowRound(c.cfg, s, env);
            r.alive && r.s.bytesHandled == (next - 1) * c.blockSize
  {
    SpanIs(c, first);
    Spread(first - 1, c.windowSize, c.blockSize);
    MulMono(next - 1, 65535, c.blockSize);
    MulMono(first - 1, 65535, c.blockSize);
    var after := (next - 1) * c.blockSize;
    LimitMonotone(c.cfg, after, 65535 * c.blockSize);
    LimitMonotone(c.cfg, s.bytesHandled, 65535 * c.blockSize);
    WindowGoesOut(c, s, env, first);
  }

  /** The server's side of a rung: all of the window up to block 65536 goes out. */
  lemma RungStep(c: Setup, s: State, first: nat, next: nat, ev: Event, r: Outcome)
    requires c.Ok() && SeekFits(c.blockSize, ROUND) && InWindow(c.file, s) && !s.readDone && !Short(c)
    requires s.blockSize == c.blockSize && s.windowSize == c.windowSize && first == s.first + c.windowSize
    requires next == first + c.windowSize && first <= ROUND < c.Last() && s.bytesHandled == (first - 1) * c.blockSize
    requires ev == Event(Encode(Ack(Word(first - 1))), Quiet(c.windowSize)) && r == Step(c.cfg, s, ev)
    ensures WellFormed(r.s) && r.s.first == first && r.s.blockSize == c.blockSize && r.s.windowSize == c.windowSize
    ensures forall n :: first <= n < next && n <= ROUND ==> BlockDatagram(c, n) in OnTheWire(r.sent)
    ensures next <= ROUND ==> r.alive && InWindow(c.file, r.s) && r.s.bytesHandled == (next - 1) * c.blockSize
  {
    var s1 := s.(first := first);
    AckIsAccepted(c, s, first - 1, ev);
    NearerFits(c.blockSize, s.first, ROUND);
    NearerFits(c.blockSize, first, ROUND);
    StepEffect(c.cfg, c.file, s, ev);
    AckSends(c.cfg, s, ev, s1);
    forall n | first <= n < next && n <= ROUND
      ensures BlockDatagram(c, n) in OnTheWire(r.sent)
    {
      NextRung(c, s1, ev.env, first, n);
    }
    if next <= ROUND { RungHolds(c, s1, ev.env, first, next); }
  }

  lemma MoreUnderWay(c: Setup, a: set<Datagram>, b: set<Datagram>, low: nat, top: nat)
    requires AllUnderWay(c, a, low) && forall n :: low < n <= top ==> BlockDatagram(c, n) in b
    ensures AllUnderWay(c, a + b, top)
  {
  }

  /** It sends the next window, as far as block 65536. */
  lemma AckedRung(c: Setup, start: System, mid: System, first: nat, next: nat, top: nat, ev: Event) returns (up: System)
    requires c.Ok() && SeekFits(c.blockSize, ROUND) && Reachable(c, start, mid) && mid.alive && !mid.done
    requires InWindow(c.file, mid.srv) && mid.srv.blockSize == c.blockSize && mid.srv.windowSize == c.windowSize
    requires first == mid.srv.first + c.windowSize && next == first + c.windowSize && first <= ROUND < c.Last()
    requires mid.blocks == first - 1 && mid.srv.bytesHandled == (first - 1) * c.blockSize && !Short(c)
    requires AllUnderWay(c, mid.toClient, first - 1) && top == if next <= ROUND then next - 1 else ROUND
    requires ev == Event(Encode(Ack(Word(first - 1))), Quiet(c.windowSize)) && ev.bytes in mid.toServer
    ensures Reachable(c, start, up) && WellFormed(up.srv) && !up.done && up.blocks == first - 1
    ensures AllUnderWay(c, up.toClient, top) && (next <= ROUND ==> Ladder(c, start, up, first, next))
  {
    var r := Step(c.cfg, mid.srv, ev);
    RungStep(c, mid.srv, first, next, ev, r);
    up := Hear(c, start, mid, ev, r);
    MoreUnderWay(c, mid.toClient, OnTheWire(r.sent), first - 1, top);
  }

  lemma FullWindowGoesOn(c: Setup, start: System, sys: System, before: nat, first: nat, next: nat, top: nat)
      returns (up: System)
    requires Ladder(c, start, sys, before, first) && !Short(c)
    requires next == first + c.windowSize && top == if next <= ROUND then next - 1 else ROUND
    ensures Reachable(c, start, up) && WellFormed(up.srv) && !up.done && up.blocks == first - 1
    ensures AllUnderWay(c, up.toClient, top) && (next <= ROUND ==> Ladder(c, start, up, first, next))
  {
    var mid := TakeAndAck(c, start, sys, first - 1);
    up := AckedRung(c, start, mid, first, next, top, Event(Encode(Ack(Word(first - 1))), Quiet(c.windowSize)));
  }

  lemma {:induction false} ClimbLadder(c: Setup, start: System, sys: System, before: nat, first: nat)
      returns (top: System)
    requires Ladder(c, start, sys, before, first) && !Short(c)
    ensures Reachable(c, start, top) && WellFormed(top.srv) && !top.done && top.blocks < ROUND
    ensures AllUnderWay(c, top.toClient, ROUND)
    decreases ROUND - first
  {
    var next := first + c.windowSize;
    top := FullWindowGoesOn(c, start, sys, before, first, next, if next <= ROUND then next - 1 else ROUND);
    if next <= ROUND { top := ClimbLadder(c, start, top, first, next); }
  }

  lemma StartIsLadder(c: Setup, start: System)
    requires Init(c, start) && c.Last() > ROUND && !Short(c)
    ensures Ladder(c, start, start, 1, 1 + c.windowSize)
  {
    ReachStart(c, start);
    SpanIs(c, 1);
  }

  // ---- and behind it

  lemma Continues<T>(head: seq<T>, one: seq<T>, f: seq<T>)
    requires head + one <= f
    ensures |head| + |one| <= |f| && f[|head|..|head| + |one|] == one
  {
    assert (head + one)[|head|..] == one;
  }

  /** A full block that continues the file is the next one, and not the last. */
  lemma NextIfPrefix(c: Setup, k: nat, n: nat, one: seq<Byte>)
    requires c.Ok() && n == k + 1 <= c.Last() && |one| == c.blockSize
    requires UpTo(c.file, c.blockSize, k) + one <= c.file
    ensures n < c.Last() && UpTo(c.file, c.blockSize, k) + one == UpTo(c.file, c.blockSize, n)
  {
    Continues(UpTo(c.file, c.blockSize, k), one, c.file);
    UpToNext(c.file, c.blockSize, k);
    BlockLengths(c.file, c.blockSize, n);
  }

  /** The block of the first round with the number of block `n`. */
  function Earlier(n: nat): (m: nat)
    requires n >= 1
    ensures 1 <= m <= ROUND && Word(m) == Word(n)
  {
    (n - 1) % 0x1_0000 + 1
  }

  lemma OldCopyFits(c: Setup, sys: System, n: nat, m: nat, d: Datagram)
    requires c.Ok() && !sys.done && sys.blocks == n - 1 && ROUND < n <= c.Last()
    requires m == Earlier(n) && d == BlockDatagram(c, m)
    ensures Takes(sys, d) && Payload(d) == Block(c.file, c.blockSize, m) && |Payload(d)| == c.blockSize
  {
    EncodedFields(Data(Word(m), Block(c.file, c.blockSize, m)));
    BlockLengths(c.file, c.blockSize, m);
  }

  /** Behind block 65536 the client takes an old copy of the block with the number it waits for. */
  lemma TakeOldCopy(c: Setup, start: System, sys: System, n: nat, m: nat) returns (next: System)
    requires c.Ok() && Reachable(c, start, sys) && WellFormed(sys.srv) && !sys.done && sys.blocks == n - 1
    requires ROUND < n <= c.Last() && m == Earlier(n) && AllUnderWay(c, sys.toClient, ROUND)
    ensures |Block(c.file, c.blockSize, m)| == c.blockSize
    ensures Reachable(c, start, next) && next == sys.(got := sys.got + Block(c.file, c.blockSize, m), blocks := n)
  {
    var d := BlockDatagram(c, m);
    OldCopyFits(c, sys, n, m, d);
    ReachStep(c, start, sys, ClientHears(d));
    next := Apply(c, sys, ClientHears(d));
  }

  /** That goes wrong at the short last block at the latest. */
  lemma {:induction false} OldCopies(c: Setup, start: System, sys: System, n: nat) returns (bad: System)
    requires c.Ok() && Reachable(c, start, sys) && WellFormed(sys.srv) && !sys.done && sys.blocks == n - 1
    requires ROUND < n <= c.Last() && sys.got == UpTo(c.file, c.blockSize, n - 1)
    requires AllUnderWay(c, sys.toClient, ROUND)
    ensures Reachable(c, start, bad) && !(bad.got <= c.file)
    decreases c.Last() - n
  {
    bad := TakeOldCopy(c, start, sys, n, Earlier(n));
    if bad.got <= c.file {
      NextIfPrefix(c, n - 1, n, Block(c.file, c.blockSize, Earlier(n)));
      bad := OldCopies(c, start, bad, n + 1);
    }
  }

  lemma HeldIsFile(c: Setup, start: System, sys: System)
    requires Init(c, start) && Reachable(c, start, sys) && sys.blocks == ROUND
    ensures sys.got == UpTo(c.file, c.blockSize, ROUND)
  {
    DownloadSafety(c, start, sys);
  }

  /** In a file of more than 65536 blocks the client can be given data that is not in the file. */
  lemma WrapAround(c: Setup, start: System) returns (bad: System)
    requires Init(c, start) && c.Last() > ROUND && !Short(c)
    ensures Reachable(c, start, bad) && !(bad.got <= c.file)
  {
    StartIsLadder(c, start);
    var top := ClimbLadder(c, start, start, 1, 1 + c.windowSize);
    var held := TakeUpTo(c, start, top, ROUND);
    HeldIsFile(c, start, held);
    bad := OldCopies(c, start, held, ROUND + 1);
  }

  /** For every configuration and every file that can be seeked: the client's data is always a prefix of the
      file exactly for files up to 65536 blocks, and under limits no session outlives as far as that. */
  lemma DownloadSafetyIff(c: Setup, start: System)
    requires Init(c, start)
    ensures (forall sys :: Reachable(c, start, sys) ==> sys.got <= c.file) <==> c.Last() <= ROUND || Short(c)
  {
    if c.Last() <= ROUND || Short(c) {
      forall sys | Reachable(c, start, sys) ensures sys.got <= c.file {
        if c.Last() > ROUND {
          var steps := InSteps(c, start, sys);
          ReachableKept(c, start, sys, steps);
        }
        DownloadSafety(c, start, sys);
      }
    } else {
      var bad := WrapAround(c, start);
    }
  }
}
