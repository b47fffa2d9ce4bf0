/** What the client of an upload learns: whether it can ever hear that its last block arrived, what that is
    worth, and how old acknowledgements carry it past the server when 16-bit numbers come round. */
module UploadHeard {
  import opened Wire
  import opened Blocks
  import opened Protocol
  import opened UploadLaws
  import opened Network
  import opened UploadSystem
  import opened UploadLockStep
  import opened UploadPlacement
  import opened UploadClimb
  import opened UploadLedger
  import opened UploadExact

  // ---- how the last block is acknowledged

  /** The last block, not empty and first of its row, is acknowledged under its own number. */
  lemma LastStored(c: Setup, s: State, last: nat, ev: Event)
    requires c.Ok() && Clean(s) && s.blockSize == c.blockSize && s.windowSize == c.windowSize
    requires s.first + 1 == last == c.Last() <= 65535 && (last - 1) % c.windowSize == 0
    requires ev == Event(BlockDatagram(c, last), Quiet()) && |Block(c.file, c.blockSize, last)| > 0
    requires !c.cfg.OverLimit(s.bytesHandled + HEADER_SIZE + |Block(c.file, c.blockSize, last)|)
    ensures var r := Step(c.cfg, s, ev); r.s.transferDone && r.sent == [Ack(last)]
  {
    BlockIsStored(c, s, last, ev);
    StoredRound(c.cfg, s, ev.bytes, Quiet());
    StoredEffect(c.cfg, s, ev.bytes, Quiet());
  }

  lemma RowOfLast(c: Setup)
    requires c.Ok() && (c.windowSize == 1 || c.Last() == 1)
    ensures (c.Last() - 1) % c.windowSize == 0
  {
  }

  /** An upload that arrives: done at the server, and its client has heard so. */
  lemma FullUpload(c: Setup, start: System) returns (end: System)
    requires Init(c, start) && c.Last() <= 65535 && (c.windowSize == 1 || c.Last() == 1) && LastCounts(c)
    ensures Reachable(c, start, end) && end.acked == c.Last() && end.srv.transferDone
  {
    var last, k := c.Last(), c.Last() - 1;
    var ev := Event(BlockDatagram(c, last), Quiet());
    LimitMonotone(c.cfg, Packets(c, k), WithLast(c, k));
    RowOfLast(c);
    var sys := ClimbTo(c, start, k);
    LastStored(c, sys.srv, last, ev);
    var served := SendAndServe(c, start, sys, last, ev);
    WireOfOne(Ack(last));
    end := HearNext(c, start, served, k, last);
  }

  /** In longer files: the server acknowledges the last block's number, and old copies carry the client there. */
  lemma NumberHeard(c: Setup, start: System, turn: nat) returns (end: System)
    requires Init(c, start) && c.Last() > 65535 && Turn(c) <= turn <= Crest(c) && Word(c.Last()) <= turn
    requires !c.cfg.OverLimit(Packets(c, turn))
    ensures Reachable(c, start, end) && end.acked == c.Last()
  {
    end := RunAhead(c, start, turn, c.Last());
  }

  lemma LastMovesOn(c: Setup, s: State, number: nat, ev: Event)
    requires c.Ok() && Clean(s) && s.blockSize == c.blockSize && s.windowSize == c.windowSize
    requires s.first + 1 == number == Word(c.Last()) && (number - 1) % c.windowSize == 0
    requires ev == Event(BlockDatagram(c, c.Last()), Quiet()) && LastSize(c) > 0
    requires !c.cfg.OverLimit(s.bytesHandled + HEADER_SIZE + LastSize(c))
    ensures Step(c.cfg, s, ev).sent == [Ack(number)]
  {
    NumberedBlockIsStored(c, s, c.Last(), ev);
    StoredRound(c.cfg, s, ev.bytes, Quiet());
    StoredEffect(c.cfg, s, ev.bytes, Quiet());
  }

  lemma NumberBefore(last: nat, before: nat, number: nat)
    requires last == before + 1 && number == Word(last) >= 1
    ensures Word(before) == number - 1 && Word(number - before) == 1
  {
  }

  /** The client, having run ahead to the block before, sends the last one. */
  lemma LastAhead(c: Setup, start: System, k: nat, number: nat) returns (served: System)
    requires Init(c, start) && c.Last() > 65535 && k + 1 == number == Word(c.Last()) > Turn(c)
    requires (number - 1) % c.windowSize == 0 && LastSize(c) > 0 && !c.cfg.OverLimit(WithLast(c, k))
    ensures Reachable(c, start, served) && Inv(c, served) && served.started && served.acked == c.Last() - 1
    ensures Encode(Ack(number)) in served.toClient
  {
    var last := c.Last();
    var ev := Event(BlockDatagram(c, last), Quiet());
    NumberBefore(last, last - 1, number);
    RowBelowCrest(c, number);
    LimitMonotone(c.cfg, Packets(c, k), WithLast(c, k));
    var sys := RunAhead(c, start, k, last - 1);
    LastMovesOn(c, sys.srv, number, ev);
    served := SendAndServe(c, start, sys, last, ev);
    WireOfOne(Ack(number));
  }

  /** Or it is the last block itself that makes the server acknowledge its number. */
  lemma LastHeard(c: Setup, start: System, number: nat) returns (end: System)
    requires Init(c, start) && c.Last() > 65535 && number == Word(c.Last()) > Turn(c)
    requires (number - 1) % c.windowSize == 0 && LastSize(c) > 0 && !c.cfg.OverLimit(WithLast(c, number - 1))
    ensures Reachable(c, start, end) && end.acked == c.Last()
  {
    var served := LastAhead(c, start, number - 1, number);
    NumberBefore(c.Last(), served.acked, number);
    end := HearStale(c, start, served, number, 1);
  }

  // ---- the theorems

  /** The client of an upload can hear that its last block arrived. */
  predicate CanHear(c: Setup)
    requires c.Ok()
  {
    if c.Last() <= 65535 then (c.windowSize == 1 || c.Last() == 1) && LastCounts(c)
    else Word(c.Last()) <= Crest(c) && !c.cfg.OverLimit(LearnCost(c))
  }

  lemma HeardOnlyIf(c: Setup, start: System, sys: System)
    requires Init(c, start) && Reachable(c, start, sys) && sys.acked == c.Last()
    ensures CanHear(c)
  {
    var steps := InSteps(c, start, sys);
    ReachableTold(c, start, sys, steps);
    if c.Last() <= 65535 && c.windowSize != 1 && c.Last() != 1 { NeverFullyAcknowledged(c, start, sys); }
  }

  lemma HeardIf(c: Setup, start: System) returns (end: System)
    requires Init(c, start) && CanHear(c)
    ensures Reachable(c, start, end) && end.acked == c.Last()
  {
    var number := Word(c.Last());
    CrestIs(c);
    if c.Last() <= 65535 {
      end := FullUpload(c, start);
    } else if number <= Turn(c) {
      end := NumberHeard(c, start, Turn(c));
    } else if (number - 1) % c.windowSize == 0 && LastSize(c) > 0 {
      end := LastHeard(c, start, number);
    } else {
      end := NumberHeard(c, start, number);
    }
  }

  /** Whether a client can ever hear that its last block arrived, for every configuration and every file. Up to 65535
      blocks: exactly with a window of one block or a file of one, if the last block is not empty, and within the
      limit. In longer files it is old acknowledgements that tell it so, exactly if a row begins at the last block's
      number or behind it, and the limit lets the session acknowledge that number. */
  lemma FullyAcknowledgedIff(c: Setup, start: System)
    requires Init(c, start)
    ensures (exists sys :: Reachable(c, start, sys) && sys.acked == c.Last()) <==> CanHear(c)
  {
    forall sys | Reachable(c, start, sys) && sys.acked == c.Last() ensures CanHear(c) {
      HeardOnlyIf(c, start, sys);
    }
    if CanHear(c) { var end := HeardIf(c, start); }
  }

  lemma BeyondReach(c: Setup)
    requires c.Ok() && |c.file| > 65535 * c.blockSize
    ensures c.Last() > 65535 && UpTo(c.file, c.blockSize, 65535) != c.file
  {
    OffsetIsProduct(c.blockSize, 0x1_0000);
    CountIff(|c.file|, c.blockSize, 0x1_0000);
  }

  /** For every configuration and every file: that an acknowledged last block means a complete upload holds
      exactly for files up to 65535 full blocks, and under limits below as many packets. Beyond that the server
      stands still, and duplicates of old acknowledgements satisfy the client. */
  lemma UploadAcknowledgedIff(c: Setup, start: System)
    requires Init(c, start) && c.windowSize == 1
    ensures (forall sys :: Reachable(c, start, sys) && sys.acked == c.Last() ==> Content(sys) == c.file)
            <==> |c.file| <= 65535 * c.blockSize || c.cfg.OverLimit(65535 * (c.blockSize + HEADER_SIZE))
  {
    assert Packets(c, 65535) == 65535 * (c.blockSize + HEADER_SIZE);
    if |c.file| <= 65535 * c.blockSize || c.cfg.OverLimit(Packets(c, 65535)) {
      forall sys | Reachable(c, start, sys) && sys.acked == c.Last() ensures Content(sys) == c.file {
        UploadAcknowledged(c, start, sys);
      }
    } else {
      BeyondReach(c);
      CrestIs(c);
      var end := RunAhead(c, start, 65535, c.Last());
      var steps := InSteps(c, start, end);
      var k := ReachableHolds(c, start, end, steps);
      assert Content(end) == UpTo(c.file, c.blockSize, 65535);
    }
  }

  lemma AckedStoredMoves(c: Setup, prev: System, a: Action, sys: System)
    requires Told(c, prev) && Moves(c, prev, a, sys) && (prev.srv.first >= 1 ==> prev.stored != {})
    ensures sys.srv.first >= 1 ==> sys.stored != {}
  {
    if a.ServerHears? {
      var d := Cut(prev.srv, a.ev.bytes);
      UploadRound(c.cfg, prev.srv, a.ev);
      if StoresData(c.cfg, prev.srv, d) { assert BlockNr(d) in sys.stored; }
    }
  }

  /** No acknowledgement moves without a stored block. */
  lemma {:induction false} AckedStored(c: Setup, start: System, sys: System, steps: nat)
    requires Init(c, start) && ReachableIn(c, start, sys, steps)
    ensures Told(c, sys) && (sys.srv.first >= 1 ==> sys.stored != {})
    decreases steps
  {
    ReachableTold(c, start, sys, steps);
    if steps > 0 {
      var fewer := steps - 1;
      var prev, a := LastMove(c, start, sys, steps, fewer);
      AckedStored(c, start, prev, fewer);
      AckedStoredMoves(c, prev, a, sys);
    }
  }

  lemma OneBlockHeard(c: Setup, start: System, sys: System)
    requires Init(c, start) && Reachable(c, start, sys) && c.windowSize >= 2 && sys.acked == c.Last() == 1
    ensures AllStored(c, sys.stored)
  {
    var steps := InSteps(c, start, sys);
    AckedStored(c, start, sys, steps);
    OneBlockPlaceable(c);
    UploadPlaced(c, start, sys);
    var n :| n in sys.stored;
    assert n == 1;
  }

  lemma LockStepHeard(c: Setup, start: System, sys: System)
    requires Init(c, start) && Reachable(c, start, sys) && c.windowSize == 1 && sys.acked == c.Last() <= 65535
    ensures AllStored(c, sys.stored)
  {
    var steps := InSteps(c, start, sys);
    var k := ReachableHolds(c, start, sys, steps);
    forall n | 1 <= n <= c.Last() ensures n in sys.stored { FirstBlocksAre(k, n); }
  }

  lemma HeardIsStored(c: Setup, start: System, sys: System)
    requires Init(c, start) && Reachable(c, start, sys) && sys.acked == c.Last() <= 65535
    ensures AllStored(c, sys.stored)
  {
    if c.windowSize == 1 {
      LockStepHeard(c, start, sys);
    } else if c.Last() == 1 {
      OneBlockHeard(c, start, sys);
    } else {
      NeverFullyAcknowledged(c, start, sys);
    }
  }

  /** For every window, every configuration and every file: that an acknowledged last block means every block was
      stored holds exactly for files up to 65535 blocks, and for those whose last block is never acknowledged. */
  lemma AcknowledgedStoredIff(c: Setup, start: System)
    requires Init(c, start)
    ensures (forall sys :: Reachable(c, start, sys) && sys.acked == c.Last() ==> AllStored(c, sys.stored))
            <==> c.Last() <= 65535 || !CanHear(c)
  {
    if c.Last() <= 65535 {
      forall sys | Reachable(c, start, sys) && sys.acked == c.Last() ensures AllStored(c, sys.stored) {
        HeardIsStored(c, start, sys);
      }
    } else if CanHear(c) {
      var end := HeardIf(c, start);
      var steps := InSteps(c, start, end);
      NumbersOnly(c, start, end, steps);
      assert c.Last() !in end.stored;
    } else {
      forall sys | Reachable(c, start, sys) ensures sys.acked != c.Last() {
        if sys.acked == c.Last() { HeardOnlyIf(c, start, sys); }
      }
    }
  }

  lemma WrittenThere(content: seq<Byte>, at: nat, data: seq<Byte>)
    requires data != []
    ensures Slice(WriteAt(content, at, data), at, |data|) == data
  {
  }

  lemma WrittenAt(c: Setup, s: State, d: Datagram, m: nat, data: seq<Byte>)
    requires c.Ok() && SeekFits(c.blockSize, m) && c.windowSize >= 2
    requires WellFormed(s) && s.op == ClientToServer && s.file.Some?
    requires s.blockSize == c.blockSize && s.windowSize == c.windowSize && 1 <= m <= c.Last()
    requires |d| >= HEADER_SIZE && BlockNr(d) == m && Payload(d) == data
    ensures var f := StoreData(s, d).file;
            f.Some? && Slice(f.value.content, Offset(c.blockSize, m), |data|) == data
  {
    CountIff(|c.file|, c.blockSize, m);
    OffsetIsProduct(c.blockSize, m);
    if data != [] { WrittenThere(s.file.value.content, Offset(c.blockSize, m), data); }
  }

  /** Storing a full block where another belongs breaks the layout. */
  lemma NotLayout(c: Setup, content: seq<Byte>, blocks: set<nat>, n: nat, m: nat)
    requires c.Ok() && m in blocks && 1 <= m < n < c.Last()
    requires Slice(content, Offset(c.blockSize, m), c.blockSize) == Block(c.file, c.blockSize, n)
    requires Block(c.file, c.blockSize, n) != Block(c.file, c.blockSize, m)
    ensures !IsLayout(content, c.file, c.blockSize, blocks)
  {
    var at, data, own := Offset(c.blockSize, m), Block(c.file, c.blockSize, n), Block(c.file, c.blockSize, m);
    BlockLengths(c.file, c.blockSize, n);
    BlockLengths(c.file, c.blockSize, m);
    var i :| 0 <= i < c.blockSize && data[i] != own[i];
    var k := at + i;
    assert InBlock(c.blockSize, m, k);
    assert Covered(c.blockSize, blocks, k) && content[k] == data[i];
  }

  /** In files that are not `Placeable`, a client that has run ahead sends a block of a later round of numbers, and
      the server writes it where the block with its 16-bit number belongs. */
  lemma BlockMisplaced(c: Setup, start: System, n: nat, m: nat) returns (bad: System)
    requires Init(c, start) && 65535 < n <= c.Last() && m == Word(n) > Turn(c) && SeekFits(c.blockSize, m)
    requires !c.cfg.OverLimit(Packets(c, Turn(c)) + HEADER_SIZE + |Block(c.file, c.blockSize, n)|)
    ensures Reachable(c, start, bad) && m in bad.stored
    ensures var data := Block(c.file, c.blockSize, n); Slice(Content(bad), Offset(c.blockSize, m), |data|) == data
    ensures n < c.Last() && Block(c.file, c.blockSize, n) != Block(c.file, c.blockSize, m) ==>
              !IsLayout(Content(bad), c.file, c.blockSize, bad.stored)
  {
    var ev := Event(BlockDatagram(c, n), Quiet());
    var sys := AheadFor(c, start, n, ev);
    StoredRound(c.cfg, sys.srv, ev.bytes, Quiet());
    WrittenAt(c, sys.srv, ev.bytes, m, Block(c.file, c.blockSize, n));
    bad := SendAndServe(c, start, sys, n, ev);
    BlockLengths(c.file, c.blockSize, n);
    if n < c.Last() && Block(c.file, c.blockSize, n) != Block(c.file, c.blockSize, m) {
      NotLayout(c, Content(bad), bad.stored, n, m);
    }
  }

  /** The client can send block `n`, whose number does not fit 16 bits, and the server would store it. */
  ghost predicate Misfiled(c: Setup, start: System, sys: System, n: nat) {
    && Reachable(c, start, sys) && c.Ok() && WellFormed(sys.srv) && sys.alive && Enabled(c, sys, ClientSends(n))
    && n > 65535 && StoresData(c.cfg, sys.srv, Cut(sys.srv, BlockDatagram(c, n)))
  }

  lemma MisfiledOnlyIf(c: Setup, start: System, sys: System, n: nat)
    requires Init(c, start) && Misfiled(c, start, sys, n)
    ensures CanMisfile(c)
  {
    var data := Block(c.file, c.blockSize, n);
    var steps := InSteps(c, start, sys);
    ReachableTold(c, start, sys, steps);
    BlockLengths(c.file, c.blockSize, n);
    EncodedFields(Data(Word(n), data));
    MisfilingNeeds(c, sys, n, BlockDatagram(c, n));
  }

  lemma MisfiledIf(c: Setup, start: System) returns (sys: System, n: nat)
    requires Init(c, start) && CanMisfile(c)
    ensures Misfiled(c, start, sys, n)
  {
    if c.Last() + c.windowSize > 0x2_0001 && !c.cfg.OverLimit(Packets(c, Turn(c) + 1)) {
      n := 0x1_0000 + Turn(c) + 1;
      ChargeOne(c, Turn(c), Turn(c) + 1);
      BlockLengths(c.file, c.blockSize, n);
    } else {
      n := c.Last();
    }
    sys := AheadFor(c, start, n, Event(BlockDatagram(c, n), Quiet()));
  }

  /** For every configuration and every file: that the server stores only blocks whose number is the one they carry
      holds exactly with windows of one block, for files of up to 131072 - window blocks, and under limits that leave
      no room for the way to a later one. */
  lemma MisfiledIff(c: Setup, start: System)
    requires Init(c, start)
    ensures (exists sys, n :: Misfiled(c, start, sys, n)) <==> CanMisfile(c)
  {
    forall sys, n | Misfiled(c, start, sys, n) ensures CanMisfile(c) { MisfiledOnlyIf(c, start, sys, n); }
    if CanMisfile(c) { var sys, n := MisfiledIf(c, start); }
  }

  /** A block is on its way that the server would store, though the product to seek it does not fit an `int`: the
      seek is refused, and the block is written wherever the file's position is. */
  ghost predicate Overseeks(c: Setup, start: System, sys: System, ev: Event) {
    && Reachable(c, start, sys) && c.Ok() && WellFormed(sys.srv) && Enabled(c, sys, ServerHears(ev))
    && c.windowSize >= 2 && StoresData(c.cfg, sys.srv, Cut(sys.srv, ev.bytes))
    && !SeekFits(c.blockSize, BlockNr(Cut(sys.srv, ev.bytes)))
  }

  lemma OverseeksOnlyIf(c: Setup, start: System, sys: System, ev: Event)
    requires Init(c, start) && Overseeks(c, start, sys, ev)
    ensures CanOverseek(c)
  {
    var d := Cut(sys.srv, ev.bytes);
    var steps := InSteps(c, start, sys);
    ReachableTold(c, start, sys, steps);
    var n := StoredIsBlock(c, sys, ev, d);
    OverseekNeeds(c, sys, n, d);
  }

  lemma OverseeksIf(c: Setup, start: System, n: nat) returns (sys: System, ev: Event)
    requires Init(c, start) && FarStore(c, n)
    ensures Overseeks(c, start, sys, ev)
  {
    var k := if n > c.windowSize then n - c.windowSize else 0;
    LimitMonotone(c.cfg, Packets(c, k), StoreCost(c, n));
    var at := ClimbTo(c, start, k);
    ev := Event(BlockDatagram(c, n), Quiet());
    BlockIsStored(c, at.srv, n, ev);
    ReachStep(c, start, at, ClientSends(n));
    sys := Apply(c, at, ClientSends(n));
  }

  /** For every configuration and every file: that every seek of an upload fits an `int` holds exactly unless one of
      two blocks is too far and can be stored, which the limit decides. */
  lemma OverseekIff(c: Setup, start: System)
    requires Init(c, start)
    ensures (exists sys, ev :: Overseeks(c, start, sys, ev)) <==> CanOverseek(c)
  {
    forall sys, ev | Overseeks(c, start, sys, ev) ensures CanOverseek(c) { OverseeksOnlyIf(c, start, sys, ev); }
    if CanOverseek(c) {
      var sys, ev := OverseeksIf(c, start, if FarStore(c, FirstFar(c)) then FirstFar(c) else c.Last());
    }
  }
}
