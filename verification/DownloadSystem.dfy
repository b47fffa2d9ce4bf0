/** A download end to end: the server, an in-order client (section 4 of RFC 7440), and a network that loses,
    duplicates and reorders. Whatever was ever sent stays deliverable, any number of times, or never is. */
module DownloadSystem {
  import opened Wire
  import opened Blocks
  import opened Protocol
  import opened DownloadLaws
  import opened Network
  import Histories

  /** The server's session, the datagrams under way, and the client: the bytes it holds, the blocks they
      consist of, and whether it has seen a short block. */
  datatype System = System(srv: State, alive: bool, toServer: set<Datagram>, toClient: set<Datagram>,
                           got: seq<Byte>, blocks: nat, done: bool)

  /** Besides the client's acknowledgements any stray packet of another kind may reach the server. */
  datatype Action = ServerHears(ev: Event) | ClientHears(d: Datagram) | ClientAcks

  predicate Enabled(sys: System, a: Action) {
    match a
    case ServerHears(ev) => sys.alive && (ev.bytes in sys.toServer || !HasOp(ev.bytes, OP_ACK))
    case ClientHears(d) => d in sys.toClient
    case ClientAcks => true
  }

  /** The client takes exactly the next block in order, until it has taken a short one. */
  predicate Takes(sys: System, d: Datagram) {
    !sys.done && HasOp(d, OP_DATA) && |d| >= HEADER_SIZE && BlockNr(d) == Word(sys.blocks + 1)
  }

  function Apply(c: Setup, sys: System, a: Action): System
    requires c.Ok() && WellFormed(sys.srv)
  {
    match a
    case ServerHears(ev) =>
      var r := Step(c.cfg, sys.srv, ev);
      sys.(srv := r.s, alive := r.alive, toClient := sys.toClient + OnTheWire(r.sent))
    case ClientHears(d) =>
      if Takes(sys, d) then
        sys.(got := sys.got + Payload(d), blocks := sys.blocks + 1, done := |Payload(d)| < c.blockSize)
      else sys
    case ClientAcks =>
      sys.(toServer := sys.toServer + {Encode(Ack(Word(sys.blocks)))})
  }

  /** The server has just answered the request with its first window. */
  predicate Begins(c: Setup, sys: System) {
    && c.Ok()
    && InWindow(c.file, sys.srv) && sys.srv.first == 1 && sys.alive
    && sys.srv.bytesHandled == WindowBytes(c.file, sys.srv) && !c.cfg.OverLimit(sys.srv.bytesHandled)
    && sys.srv.blockSize == c.blockSize && sys.srv.windowSize == c.windowSize
    && sys.toServer == {} && sys.got == [] && sys.blocks == 0 && !sys.done
    && sys.toClient == set n | 1 <= n <= Min(c.windowSize, c.Last()) :: BlockDatagram(c, n)
  }

  /** And no seek to come is refused. */
  predicate Init(c: Setup, sys: System) {
    Begins(c, sys) && c.Seekable()
  }

  ghost predicate Moves(c: Setup, prev: System, a: Action, sys: System) {
    c.Ok() && WellFormed(prev.srv) && Enabled(prev, a) && sys == Apply(c, prev, a)
  }

  ghost function Next(c: Setup): (System, System) -> bool {
    (prev, sys) => exists a :: Moves(c, prev, a, sys)
  }

  ghost predicate ReachableIn(c: Setup, start: System, sys: System, steps: nat) {
    Histories.ReachableIn(Next(c), start, sys, steps)
  }

  ghost predicate Reachable(c: Setup, start: System, sys: System) {
    Histories.Reachable(Next(c), start, sys)
  }

  lemma ReachStart(c: Setup, start: System)
    ensures ReachableIn(c, start, start, 0) && Reachable(c, start, start)
  {
    Histories.Stay(Next(c), start);
  }

  lemma ReachStep(c: Setup, start: System, prev: System, a: Action)
    requires c.Ok() && Reachable(c, start, prev) && WellFormed(prev.srv) && Enabled(prev, a)
    ensures Reachable(c, start, Apply(c, prev, a))
  {
    var next := Apply(c, prev, a);
    assert Moves(c, prev, a, next);
    Histories.OneMore(Next(c), start, prev, next);
  }

  lemma LastMove(c: Setup, start: System, sys: System, steps: nat, fewer: nat) returns (prev: System, a: Action)
    requires ReachableIn(c, start, sys, steps) && steps == fewer + 1
    ensures ReachableIn(c, start, prev, fewer) && Moves(c, prev, a, sys)
  {
    prev := Histories.LastStep(Next(c), start, sys, steps);
    a :| Moves(c, prev, a, sys);
  }

  lemma InSteps(c: Setup, start: System, sys: System) returns (steps: nat)
    requires Reachable(c, start, sys)
    ensures ReachableIn(c, start, sys, steps)
  {
    steps :| Histories.ReachableIn(Next(c), start, sys, steps);
  }

  // ---- the invariant

  /** A datagram to the client carries a block the server's window has reached, or no data. */
  ghost predicate Genuine(c: Setup, d: Datagram, top: int) {
    HasOp(d, OP_DATA) ==> exists n :: 1 <= n <= top && n <= c.Last() && d == BlockDatagram(c, n)
  }

  /** A datagram to the server acknowledges a block count the client has had. */
  ghost predicate Honest(d: Datagram, blocks: nat) {
    exists m :: 0 <= m <= blocks && d == Encode(Ack(Word(m)))
  }

  predicate ClientInv(c: Setup, sys: System)
    requires c.Ok()
  {
    && sys.got == UpTo(c.file, c.blockSize, sys.blocks)
    && sys.blocks <= c.Last() && (sys.done <==> sys.blocks == c.Last())
    && sys.srv.first - 1 <= sys.blocks <= sys.srv.first - 1 + c.windowSize
  }

  predicate DoneInv(c: Setup, sys: System)
    requires c.Ok()
  {
    sys.srv.transferDone ==>
      && !sys.alive && sys.srv.first >= 2
      && (c.windowSize == 1 ==> sys.blocks == c.Last())
  }

  ghost predicate Inv(c: Setup, sys: System) {
    && c.Ok()
    && Serves(c.file, sys.srv) && sys.srv.blockSize == c.blockSize && sys.srv.windowSize == c.windowSize
    && (sys.alive ==> InWindow(c.file, sys.srv) && SeeksFit(c.cfg, c.file, sys.srv))
    && (forall d :: d in sys.toClient ==> Genuine(c, d, sys.srv.first - 1 + c.windowSize))
    && (forall d :: d in sys.toServer ==> Honest(d, sys.blocks))
    && ClientInv(c, sys)
    && DoneInv(c, sys)
  }

  lemma InitInv(c: Setup, sys: System)
    requires Init(c, sys)
    ensures Inv(c, sys)
  {
    forall d | d in sys.toClient ensures Genuine(c, d, sys.srv.first - 1 + c.windowSize) {
      var n :| 1 <= n <= Min(c.windowSize, c.Last()) && d == BlockDatagram(c, n);
    }
  }

  /** Among the blocks that can be under way, a number up to block 65536 determines its block. */
  lemma WordInjective(m: int, n: int)
    requires 1 <= m <= n + 65535 && 1 <= n <= 0x1_0000 && Word(m) == Word(n)
    ensures m == n
  {
  }

  /** What the client takes is the block it waits for. */
  lemma TakenIsNext(c: Setup, sys: System, d: Datagram)
    requires Inv(c, sys) && sys.blocks < 0x1_0000 && d in sys.toClient && Takes(sys, d)
    ensures Payload(d) == Block(c.file, c.blockSize, sys.blocks + 1)
    ensures sys.blocks + 1 <= c.Last() && sys.blocks + 1 <= sys.srv.first - 1 + c.windowSize
  {
    assert Genuine(c, d, sys.srv.first - 1 + c.windowSize);
    var n :| 1 <= n <= sys.srv.first - 1 + c.windowSize && n <= c.Last() && d == BlockDatagram(c, n);
    EncodedFields(Data(Word(n), Block(c.file, c.blockSize, n)));
    WordInjective(n, sys.blocks + 1);
  }

  lemma HonestGrows(ds: set<Datagram>, blocks: nat, more: nat)
    requires blocks <= more && forall d :: d in ds ==> Honest(d, blocks)
    ensures forall d :: d in ds ==> Honest(d, more)
  {
    forall d | d in ds ensures Honest(d, more) {
      assert Honest(d, blocks);
    }
  }

  lemma ClientHearsInv(c: Setup, sys: System, d: Datagram)
    requires Inv(c, sys) && (sys.blocks < 0x1_0000 || !Takes(sys, d)) && d in sys.toClient
    ensures Inv(c, Apply(c, sys, ClientHears(d)))
  {
    if Takes(sys, d) {
      var n := sys.blocks + 1;
      TakenIsNext(c, sys, d);
      UpToNext(c.file, c.blockSize, sys.blocks);
      BlockLengths(c.file, c.blockSize, n);
      HonestGrows(sys.toServer, sys.blocks, n);
    }
  }

  lemma ClientAcksInv(c: Setup, sys: System)
    requires Inv(c, sys)
    ensures Inv(c, Apply(c, sys, ClientAcks))
  {
    assert Honest(Encode(Ack(Word(sys.blocks))), sys.blocks);
  }

  lemma GenuineGrows(c: Setup, ds: set<Datagram>, top: int, more: int)
    requires c.Ok() && top <= more && forall d :: d in ds ==> Genuine(c, d, top)
    ensures forall d :: d in ds ==> Genuine(c, d, more)
  {
    forall d | d in ds ensures Genuine(c, d, more) {
      assert Genuine(c, d, top);
    }
  }

  lemma SentIsGenuine(c: Setup, s: State, sent: seq<Packet>, top: int)
    requires c.Ok() && Serves(c.file, s) && s.blockSize == c.blockSize && s.windowSize == c.windowSize
    requires OnlyBlocks(c.file, s, sent) && s.first - 1 + c.windowSize <= top
    ensures forall d :: d in OnTheWire(sent) ==> Genuine(c, d, top)
  {
    forall d | d in OnTheWire(sent) ensures Genuine(c, d, top) {
      var i :| 0 <= i < |sent| && d == Encode(sent[i]);
      EncodedFields(sent[i]);
      if sent[i].Data? {
        var n := s.first + i;
        assert d == BlockDatagram(c, n);
      }
    }
  }

  /** An acknowledgement the server accepts was sent by the client, so the client has those blocks. */
  lemma AcceptedIsHeld(c: Setup, sys: System, ev: Event)
    requires Inv(c, sys) && Enabled(sys, ServerHears(ev)) && Acked(sys.srv, ev)
    ensures BlockNr(Cut(sys.srv, ev.bytes)) <= sys.blocks
  {
    CutKeepsHeader(sys.srv, ev.bytes);
    assert Honest(ev.bytes, sys.blocks);
    var m :| 0 <= m <= sys.blocks && ev.bytes == Encode(Ack(Word(m)));
    EncodedFields(Ack(Word(m)));
  }

  lemma ServerHearsInv(c: Setup, sys: System, ev: Event)
    requires Inv(c, sys) && Enabled(sys, ServerHears(ev))
    ensures Inv(c, Apply(c, sys, ServerHears(ev)))
  {
    var s := sys.srv;
    var r := Step(c.cfg, s, ev);
    StepKeeps(c.cfg, c.file, s, ev);
    if Acked(s, ev) { AcceptedIsHeld(c, sys, ev); }
    var top := r.s.first - 1 + c.windowSize;
    GenuineGrows(c, sys.toClient, s.first - 1 + c.windowSize, top);
    SentIsGenuine(c, r.s, r.sent, top);
  }

  /** The client's position can be told from its 16-bit number: always for files up to 65536 blocks. */
  predicate WithinReach(c: Setup, sys: System) {
    c.Last() <= 0x1_0000 || sys.blocks <= 0x1_0000
  }

  lemma BlocksGrow(c: Setup, prev: System, a: Action, sys: System)
    requires Moves(c, prev, a, sys)
    ensures prev.blocks <= sys.blocks
  {
  }

  lemma MoveInv(c: Setup, prev: System, a: Action, sys: System)
    requires Inv(c, prev) && Moves(c, prev, a, sys) && WithinReach(c, sys)
    ensures Inv(c, sys)
  {
    match a
    case ServerHears(ev) => ServerHearsInv(c, prev, ev);
    case ClientHears(d) => ClientHearsInv(c, prev, d);
    case ClientAcks => ClientAcksInv(c, prev);
  }

  lemma {:induction false} ReachableInv(c: Setup, start: System, sys: System, steps: nat)
    requires Init(c, start) && ReachableIn(c, start, sys, steps) && WithinReach(c, sys)
    ensures Inv(c, sys)
    decreases steps
  {
    if steps == 0 {
      InitInv(c, sys);
    } else {
      var prev, a := LastMove(c, start, sys, steps, steps - 1);
      BlocksGrow(c, prev, a, sys);
      ReachableInv(c, start, prev, steps - 1);
      MoveInv(c, prev, a, sys);
    }
  }

  // ---- the theorems

  /** Safety for any window size, for files up to 65536 blocks and, in longer ones, up to that block: in every
      reachable state the client holds a prefix of the file in whole blocks, every DATA datagram under way is
      a true block, the window contains the client's position, and a client that is done holds the file. */
  lemma DownloadSafety(c: Setup, start: System, sys: System)
    requires Init(c, start) && Reachable(c, start, sys) && WithinReach(c, sys)
    ensures sys.got == UpTo(c.file, c.blockSize, sys.blocks) <= c.file
    ensures sys.done ==> sys.got == c.file
    ensures sys.srv.first - 1 <= sys.blocks <= sys.srv.first - 1 + c.windowSize
    ensures forall d :: d in sys.toClient && HasOp(d, OP_DATA) ==>
              exists n :: 1 <= n <= c.Last() && d == BlockDatagram(c, n)
  {
    var steps := InSteps(c, start, sys);
    ReachableInv(c, start, sys, steps);
    if sys.done { UpToAll(c.file, c.blockSize, sys.blocks); }
    forall d | d in sys.toClient && HasOp(d, OP_DATA)
      ensures exists n :: 1 <= n <= c.Last() && d == BlockDatagram(c, n)
    {
      assert Genuine(c, d, sys.srv.first - 1 + c.windowSize);
    }
  }

  /** When the server considers the transfer done, the client holds the whole file: always with a window of
      one block or a file of one block, and for any window if the acknowledgement named the last block. */
  lemma DownloadComplete(c: Setup, start: System, sys: System)
    requires Init(c, start) && c.Last() <= 0x1_0000 && Reachable(c, start, sys) && sys.srv.transferDone
    requires c.windowSize == 1 || c.Last() == 1 || sys.srv.first == c.Last() + 1
    ensures sys.done && sys.got == c.file
  {
    var steps := InSteps(c, start, sys);
    ReachableInv(c, start, sys, steps);
    UpToAll(c.file, c.blockSize, sys.blocks);
  }
}
