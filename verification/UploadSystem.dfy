/** An upload end to end: a client that sends whole blocks of its file within a window behind the last
    acknowledgement (RFC 1350 with a window of one block, section 4 of RFC 7440 otherwise), the server, and
    a network that loses, duplicates and reorders. */
module UploadSystem {
  import opened Wire
  import opened Settings
  import opened Blocks
  import opened Protocol
  import opened UploadLaws
  import opened Network
  import Histories

  /** The server's session, the datagrams under way, and the client: whether its request was answered and
      how many blocks it takes to be acknowledged. `stored` is history: the numbers the server stored. */
  datatype System = System(srv: State, alive: bool, toServer: set<Datagram>, toClient: set<Datagram>,
                           started: bool, acked: nat, stored: set<nat>)

  /** Besides the client's blocks any stray packet of another kind may reach the server. */
  datatype Action = ServerHears(ev: Event) | ClientHears(d: Datagram) | ClientSends(n: nat)

  predicate Enabled(c: Setup, sys: System, a: Action) {
    match a
    case ServerHears(ev) => sys.alive && (ev.bytes in sys.toServer || !HasOp(ev.bytes, OP_DATA))
    case ClientHears(d) => d in sys.toClient
    case ClientSends(n) => sys.started && sys.acked < n <= sys.acked + c.windowSize && n <= c.Last()
  }

  predicate IsAck(d: Datagram) {
    HasOp(d, OP_ACK) && |d| >= HEADER_SIZE
  }

  /** By how many blocks an acknowledgement moves the client, given only 16 bits of its number. */
  function Moved(c: Setup, acked: nat, d: Datagram): nat
    requires |d| >= HEADER_SIZE
  {
    var j := Word(BlockNr(d) - acked);
    if 1 <= j <= c.windowSize && acked + j <= c.Last() then j else 0
  }

  function Apply(c: Setup, sys: System, a: Action): System
    requires c.Ok() && WellFormed(sys.srv)
  {
    match a
    case ServerHears(ev) =>
      var r, d := Step(c.cfg, sys.srv, ev), Cut(sys.srv, ev.bytes);
      sys.(srv := r.s, alive := r.alive, toClient := sys.toClient + OnTheWire(r.sent),
           stored := if StoresData(c.cfg, sys.srv, d) then sys.stored + {BlockNr(d)} else sys.stored)
    case ClientHears(d) =>
      if !IsAck(d) then sys
      else if !sys.started then sys.(started := BlockNr(d) == 0)
      else sys.(acked := sys.acked + Moved(c, sys.acked, d))
    case ClientSends(n) =>
      sys.(toServer := sys.toServer + {BlockDatagram(c, n)})
  }

  /** The server has just answered the request with acknowledgement 0 and opened an empty file. */
  predicate Init(c: Setup, sys: System) {
    && c.Ok()
    && Clean(sys.srv) && sys.srv.first == 0 && sys.srv.bytesHandled == 0 && sys.alive
    && sys.srv.blockSize == c.blockSize && sys.srv.windowSize == c.windowSize
    && sys.srv.file == Some(OpenFile([], 0))
    && sys.toServer == {} && sys.toClient == {Encode(Ack(0))}
    && !sys.started && sys.acked == 0 && sys.stored == {}
  }

  ghost predicate Moves(c: Setup, prev: System, a: Action, sys: System) {
    c.Ok() && WellFormed(prev.srv) && Enabled(c, prev, a) && sys == Apply(c, prev, a)
  }

  ghost function Next(c: Setup): (System, System) -> bool {
    (prev, sys) => exists a :: Moves(c, prev, a, sys)
  }

  ghost predicate ReachableIn(c: Setup, start: System, sys: System, steps: nat) {
    Histories.ReachableIn(Next(c), start, sys, steps)
  }

  ghost predicate Reachable(c: Setup, start: System, sys: System) {
    Histories.Reachable(Next(c), start, sys)
  }

  lemma ReachStart(c: Setup, start: System)
    ensures ReachableIn(c, start, start, 0) && Reachable(c, start, start)
  {
    Histories.Stay(Next(c), start);
  }

  lemma ReachStep(c: Setup, start: System, prev: System, a: Action)
    requires c.Ok() && Reachable(c, start, prev) && WellFormed(prev.srv) && Enabled(c, prev, a)
    ensures Reachable(c, start, Apply(c, prev, a))
  {
    var next := Apply(c, prev, a);
    assert Moves(c, prev, a, next);
    Histories.OneMore(Next(c), start, prev, next);
  }

  lemma LastMove(c: Setup, start: System, sys: System, steps: nat, fewer: nat) returns (prev: System, a: Action)
    requires ReachableIn(c, start, sys, steps) && steps == fewer + 1
    ensures ReachableIn(c, start, prev, fewer) && Moves(c, prev, a, sys)
  {
    prev := Histories.LastStep(Next(c), start, sys, steps);
    a :| Moves(c, prev, a, sys);
  }

  lemma InSteps(c: Setup, start: System, sys: System) returns (steps: nat)
    requires Reachable(c, start, sys)
    ensures ReachableIn(c, start, sys, steps)
  {
    steps :| Histories.ReachableIn(Next(c), start, sys, steps);
  }

  // ---- what holds for every window size

  /** A datagram to the server is a block the client may have sent. */
  ghost predicate Genuine(c: Setup, d: Datagram, top: int) {
    exists n :: 1 <= n <= top && n <= c.Last() && d == BlockDatagram(c, n)
  }

  /** A datagram to the client acknowledges no more than the server's base. */
  ghost predicate Honest(d: Datagram, first: int) {
    HasOp(d, OP_ACK) ==> exists m :: 0 <= m <= first && d == Encode(Ack(m))
  }

  ghost predicate Inv(c: Setup, sys: System) {
    && c.Ok() && WellFormed(sys.srv) && sys.srv.op == ClientToServer
    && sys.srv.blockSize == c.blockSize && sys.srv.windowSize == c.windowSize && sys.srv.file.Some?
    && 0 <= sys.srv.first <= 65535
    && (sys.alive ==> Clean(sys.srv)) && (sys.srv.transferDone ==> !sys.alive)
    && sys.acked <= c.Last()
    && (forall d :: d in sys.toServer ==> Genuine(c, d, sys.acked + c.windowSize))
    && (forall d :: d in sys.toClient ==> Honest(d, sys.srv.first))
  }

  lemma GenuineGrows(c: Setup, ds: set<Datagram>, top: int, more: int)
    requires top <= more && forall d :: d in ds ==> Genuine(c, d, top)
    ensures forall d :: d in ds ==> Genuine(c, d, more)
  {
    forall d | d in ds ensures Genuine(c, d, more) {
      assert Genuine(c, d, top);
    }
  }

  lemma HonestGrows(ds: set<Datagram>, first: int, more: int)
    requires first <= more && forall d :: d in ds ==> Honest(d, first)
    ensures forall d :: d in ds ==> Honest(d, more)
  {
    forall d | d in ds ensures Honest(d, more) {
      assert Honest(d, first);
    }
  }

  lemma SentIsHonest(sent: seq<Packet>, first: int)
    requires 0 <= first && OnlyAcks(sent, first)
    ensures forall d :: d in OnTheWire(sent) ==> Honest(d, first)
  {
    forall d | d in OnTheWire(sent) ensures Honest(d, first) {
      var i :| 0 <= i < |sent| && d == Encode(sent[i]);
      EncodedFields(sent[i]);
    }
  }

  /** An open file stays open; a stored block leaves it as `StoreData` says. */
  lemma FileStays(cfg: Config, s: State, ev: Event)
    requires cfg.Consistent() && Clean(s) && s.file.Some?
    ensures Step(cfg, s, ev).s.file.Some?
    ensures var r := Step(cfg, s, ev); r.s.transferDone ==> !r.alive
  {
    var d := Cut(s, ev.bytes);
    UploadRound(cfg, s, ev);
    if d != [] && StoresData(cfg, s, d) { StoredRound(cfg, s, d, ev.env); }
  }

  lemma ServerHearsInv(c: Setup, sys: System, ev: Event)
    requires Inv(c, sys) && sys.alive
    ensures Inv(c, Apply(c, sys, ServerHears(ev)))
  {
    var r := Step(c.cfg, sys.srv, ev);
    UploadRound(c.cfg, sys.srv, ev);
    FileStays(c.cfg, sys.srv, ev);
    HonestGrows(sys.toClient, sys.srv.first, r.s.first);
    SentIsHonest(r.sent, r.s.first);
  }

  lemma ClientHearsInv(c: Setup, sys: System, d: Datagram)
    requires Inv(c, sys)
    ensures Inv(c, Apply(c, sys, ClientHears(d)))
  {
    var next := Apply(c, sys, ClientHears(d));
    GenuineGrows(c, sys.toServer, sys.acked + c.windowSize, next.acked + c.windowSize);
  }

  lemma ClientSendsInv(c: Setup, sys: System, n: nat)
    requires Inv(c, sys) && Enabled(c, sys, ClientSends(n))
    ensures Inv(c, Apply(c, sys, ClientSends(n)))
  {
    assert Genuine(c, BlockDatagram(c, n), sys.acked + c.windowSize);
  }

  lemma MoveInv(c: Setup, prev: System, a: Action, sys: System)
    requires Inv(c, prev) && Moves(c, prev, a, sys)
    ensures Inv(c, sys)
  {
    match a
    case ServerHears(ev) => ServerHearsInv(c, prev, ev);
    case ClientHears(d) => ClientHearsInv(c, prev, d);
    case ClientSends(n) => ClientSendsInv(c, prev, n);
  }

  lemma InitInv(c: Setup, sys: System)
    requires Init(c, sys)
    ensures Inv(c, sys)
  {
    assert Honest(Encode(Ack(0)), 0);
  }

  lemma {:induction false} ReachableInv(c: Setup, start: System, sys: System, steps: nat)
    requires Init(c, start) && ReachableIn(c, start, sys, steps)
    ensures Inv(c, sys)
    decreases steps
  {
    if steps == 0 {
      InitInv(c, sys);
    } else {
      var fewer := steps - 1;
      var prev, a := LastMove(c, start, sys, steps, fewer);
      ReachableInv(c, start, prev, fewer);
      MoveInv(c, prev, a, sys);
    }
  }

  /** What the server stores is a true block of the client's file. */
  lemma StoredIsBlock(c: Setup, sys: System, ev: Event, d: Datagram) returns (n: nat)
    requires Inv(c, sys) && Enabled(c, sys, ServerHears(ev))
    requires d == Cut(sys.srv, ev.bytes) && StoresData(c.cfg, sys.srv, d)
    ensures 1 <= n <= sys.acked + c.windowSize && n <= c.Last()
    ensures Payload(d) == Block(c.file, c.blockSize, n) && BlockNr(d) == Word(n) && |d| == HEADER_SIZE + |Payload(d)|
  {
    CutKeepsHeader(sys.srv, ev.bytes);
    assert Genuine(c, ev.bytes, sys.acked + c.windowSize);
    n :| 1 <= n <= sys.acked + c.windowSize && n <= c.Last() && ev.bytes == BlockDatagram(c, n);
    EncodedFields(Data(Word(n), Block(c.file, c.blockSize, n)));
  }

  // ---- how far the client can run ahead

  /** The client is not ahead of the server, or 16-bit numbers have come round for it: then the server was
      already within a window of that. */
  ghost predicate Tracked(c: Setup, sys: System) {
    && Inv(c, sys)
    && (sys.acked <= sys.srv.first || (sys.acked >= 0x1_0000 && sys.srv.first >= 0x1_0000 - c.windowSize))
  }

  lemma AckTracked(c: Setup, acked: nat, m: nat, first: int, d: Datagram)
    requires acked <= first <= 65535 && m <= first && d == Encode(Ack(m)) && c.windowSize <= 65535
    ensures IsAck(d)
    ensures var next := acked + Moved(c, acked, d);
            next <= first || (next >= 0x1_0000 && first >= 0x1_0000 - c.windowSize)
  {
    EncodedFields(Ack(m));
  }

  lemma ClientTracked(c: Setup, sys: System, d: Datagram)
    requires Tracked(c, sys) && d in sys.toClient
    ensures Tracked(c, Apply(c, sys, ClientHears(d)))
  {
    ClientHearsInv(c, sys, d);
    if IsAck(d) && sys.acked <= sys.srv.first {
      assert Honest(d, sys.srv.first);
      var m :| 0 <= m <= sys.srv.first && d == Encode(Ack(m));
      AckTracked(c, sys.acked, m, sys.srv.first, d);
    }
  }

  lemma ServerTracked(c: Setup, sys: System, ev: Event)
    requires Tracked(c, sys) && Enabled(c, sys, ServerHears(ev))
    ensures Tracked(c, Apply(c, sys, ServerHears(ev))) && Apply(c, sys, ServerHears(ev)).srv.first >= sys.srv.first
  {
    ServerHearsInv(c, sys, ev);
    UploadRound(c.cfg, sys.srv, ev);
  }

  lemma MoveTracked(c: Setup, prev: System, a: Action, sys: System)
    requires Tracked(c, prev) && Moves(c, prev, a, sys)
    ensures Tracked(c, sys)
  {
    match a
    case ServerHears(ev) => ServerTracked(c, prev, ev);
    case ClientHears(d) => ClientTracked(c, prev, d);
    case ClientSends(n) => ClientSendsInv(c, prev, n);
  }

  /** So while the client is not ahead, what the server stores has the number it is stored under. */
  lemma StoredNumber(c: Setup, sys: System, ev: Event, d: Datagram) returns (n: nat)
    requires Tracked(c, sys) && Enabled(c, sys, ServerHears(ev)) && sys.acked <= sys.srv.first
    requires d == Cut(sys.srv, ev.bytes) && StoresData(c.cfg, sys.srv, d)
    ensures 1 <= n == BlockNr(d) <= 65535 && n <= c.Last() && n <= sys.acked + c.windowSize
    ensures Payload(d) == Block(c.file, c.blockSize, n) && |d| == HEADER_SIZE + |Payload(d)|
  {
    n := StoredIsBlock(c, sys, ev, d);
  }
}
