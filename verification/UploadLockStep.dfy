/** Uploads with a window of one block: the server's file is always a prefix of the client's, a transfer
    that is done is complete, and what an acknowledged last block means. */
module UploadLockStep {
  import opened Wire
  import opened Settings
  import opened Blocks
  import opened Protocol
  import opened UploadLaws
  import opened Network
  import opened UploadSystem

  function Content(sys: System): seq<Byte> {
    if sys.srv.file.Some? then sys.srv.file.value.content else []
  }

  function FirstBlocks(k: nat): set<nat> {
    if k == 0 then {} else FirstBlocks(k - 1) + {k}
  }

  /** Bytes of `k` full DATA packets. */
  function Packets(c: Setup, k: nat): nat {
    k * (c.blockSize + HEADER_SIZE)
  }

  /** The full blocks among the first `k`. */
  function Full(c: Setup, k: nat): nat {
    if 0 < k == c.Last() then k - 1 else k
  }

  /** The session has counted what it stored, and its limit had room for that. */
  predicate Charged(c: Setup, s: State, k: nat) {
    Packets(c, Full(c, k)) <= s.bytesHandled && !c.cfg.OverLimit(Packets(c, Full(c, k)))
  }

  lemma RoomBelow(c: Setup, k: nat, n: nat)
    requires k <= n && !c.cfg.OverLimit(Packets(c, n))
    ensures !c.cfg.OverLimit(Packets(c, k))
  {
    MulMono(k, n, c.blockSize + HEADER_SIZE);
    LimitMonotone(c.cfg, Packets(c, k), Packets(c, n));
  }

  lemma ChargeOne(c: Setup, k: nat, j: nat)
    requires j == k + 1
    ensures Packets(c, j) == Packets(c, k) + c.blockSize + HEADER_SIZE
  {
    assert j * (c.blockSize + HEADER_SIZE) == k * (c.blockSize + HEADER_SIZE) + c.blockSize + HEADER_SIZE;
  }

  lemma ChargeStored(c: Setup, s: State, d: Datagram, r: State, k: nat, j: nat)
    requires c.Ok() && Charged(c, s, k) && j == k + 1 <= c.Last() && r.bytesHandled == s.bytesHandled + |d|
    requires s.op == ClientToServer && JudgeData(c.cfg, s, d) == Stored
    requires |d| == HEADER_SIZE + |Block(c.file, c.blockSize, j)|
    ensures Charged(c, r, j)
  {
    BlockLengths(c.file, c.blockSize, j);
    ChargeOne(c, k, j);
    LimitMonotone(c.cfg, Packets(c, Full(c, j)), r.bytesHandled);
  }

  /** The server has stored exactly blocks 1..k, in order, and the client waits for no later acknowledgement
      than the next, unless the 16-bit numbers are used up. */
  ghost predicate Holds(c: Setup, sys: System, k: nat) {
    && Inv(c, sys) && c.windowSize == 1
    && k <= c.Last() && k <= 65535 && sys.srv.first <= k <= sys.srv.first + 1
    && sys.srv.file.value == OpenFile(UpTo(c.file, c.blockSize, k), |UpTo(c.file, c.blockSize, k)|)
    && sys.stored == FirstBlocks(k) && Charged(c, sys.srv, k)
    && (sys.alive ==> k == sys.srv.first < c.Last())
    && (sys.srv.transferDone <==> k == c.Last())
    && (sys.acked <= sys.srv.first || sys.srv.first == 65535)
  }

  /** Only the block behind the base can be stored: older ones are turned away, later ones were not sent. */
  lemma StoredIsNext(c: Setup, sys: System, k: nat, ev: Event, d: Datagram)
    requires Holds(c, sys, k) && Enabled(c, sys, ServerHears(ev))
    requires d == Cut(sys.srv, ev.bytes) && StoresData(c.cfg, sys.srv, d)
    ensures k + 1 <= 65535 && k + 1 <= c.Last() && BlockNr(d) == k + 1
    ensures Payload(d) == Block(c.file, c.blockSize, k + 1) && |d| == HEADER_SIZE + |Payload(d)|
  {
    var n := StoredIsBlock(c, sys, ev, d);
    assert n == k + 1;
  }

  lemma AppendBlock(c: Setup, s: State, d: Datagram, k: nat, j: nat)
    requires c.Ok() && WellFormed(s) && s.op == ClientToServer && s.windowSize == 1 && j == k + 1 <= c.Last()
    requires s.file == Some(OpenFile(UpTo(c.file, c.blockSize, k), |UpTo(c.file, c.blockSize, k)|))
    requires |d| >= HEADER_SIZE && Payload(d) == Block(c.file, c.blockSize, j)
    ensures StoreData(s, d).file == Some(OpenFile(UpTo(c.file, c.blockSize, j), |UpTo(c.file, c.blockSize, j)|))
  {
    var content, payload := UpTo(c.file, c.blockSize, k), Payload(d);
    UpToNext(c.file, c.blockSize, k);
    if payload == [] {
      assert content + payload == content;
    } else {
      assert WriteAt(content, |content|, payload) == content + payload;
    }
  }

  /** What the server's session looks like after it stored block `j`. */
  lemma StoreAdvances(c: Setup, sys: System, k: nat, j: nat, ev: Event)
    requires Holds(c, sys, k) && Enabled(c, sys, ServerHears(ev)) && j == k + 1
    requires StoresData(c.cfg, sys.srv, Cut(sys.srv, ev.bytes))
    ensures BlockNr(Cut(sys.srv, ev.bytes)) == j <= 65535 && j <= c.Last()
    ensures var r := Step(c.cfg, sys.srv, ev);
            && r.s.file == Some(OpenFile(UpTo(c.file, c.blockSize, j), |UpTo(c.file, c.blockSize, j)|))
            && (r.s.transferDone <==> j == c.Last()) && k <= r.s.first <= j && (r.alive ==> r.s.first == j)
  {
    var d := Cut(sys.srv, ev.bytes);
    StoredIsNext(c, sys, k, ev, d);
    StoredRound(c.cfg, sys.srv, d, ev.env);
    StoredEffect(c.cfg, sys.srv, d, ev.env);
    AppendBlock(c, sys.srv, d, k, j);
    BlockLengths(c.file, c.blockSize, j);
  }

  lemma StoreHolds(c: Setup, sys: System, k: nat, j: nat, ev: Event)
    requires Holds(c, sys, k) && Enabled(c, sys, ServerHears(ev)) && j == k + 1
    requires StoresData(c.cfg, sys.srv, Cut(sys.srv, ev.bytes))
    ensures Holds(c, Apply(c, sys, ServerHears(ev)), j)
  {
    var d := Cut(sys.srv, ev.bytes);
    ServerHearsInv(c, sys, ev);
    StoreAdvances(c, sys, k, j, ev);
    StoredIsNext(c, sys, k, ev, d);
    UploadRound(c.cfg, sys.srv, ev);
    ChargeStored(c, sys.srv, d, Step(c.cfg, sys.srv, ev).s, k, j);
  }

  lemma OtherHolds(c: Setup, sys: System, k: nat, ev: Event)
    requires Holds(c, sys, k) && Enabled(c, sys, ServerHears(ev))
    requires !StoresData(c.cfg, sys.srv, Cut(sys.srv, ev.bytes))
    ensures Holds(c, Apply(c, sys, ServerHears(ev)), k)
  {
    ServerHearsInv(c, sys, ev);
    UploadRound(c.cfg, sys.srv, ev);
  }

  lemma OneAhead(m: nat, acked: nat)
    requires m <= 65534 && acked <= 65534 && Word(m - acked) == 1
    ensures m == acked + 1
  {
  }

  lemma ClientStaysBehind(c: Setup, sys: System, d: Datagram)
    requires Inv(c, sys) && c.windowSize == 1 && d in sys.toClient && IsAck(d)
    requires sys.acked <= sys.srv.first < 65535
    ensures sys.acked + Moved(c, sys.acked, d) <= sys.srv.first
  {
    assert Honest(d, sys.srv.first);
    var m :| 0 <= m <= sys.srv.first && d == Encode(Ack(m));
    EncodedFields(Ack(m));
    if Moved(c, sys.acked, d) == 1 { OneAhead(m, sys.acked); }
  }

  lemma ClientHolds(c: Setup, sys: System, k: nat, d: Datagram)
    requires Holds(c, sys, k) && d in sys.toClient
    ensures Holds(c, Apply(c, sys, ClientHears(d)), k)
  {
    ClientHearsInv(c, sys, d);
    if IsAck(d) && sys.acked <= sys.srv.first < 65535 { ClientStaysBehind(c, sys, d); }
  }

  lemma MoveHolds(c: Setup, prev: System, k: nat, a: Action, sys: System) returns (j: nat)
    requires Holds(c, prev, k) && Moves(c, prev, a, sys)
    ensures Holds(c, sys, j)
  {
    j := k;
    match a
    case ServerHears(ev) =>
      if StoresData(c.cfg, prev.srv, Cut(prev.srv, ev.bytes)) {
        j := k + 1;
        StoreHolds(c, prev, k, j, ev);
      } else {
        OtherHolds(c, prev, k, ev);
      }
    case ClientHears(d) => ClientHolds(c, prev, k, d);
    case ClientSends(n) => ClientSendsInv(c, prev, n);
  }

  lemma InitHolds(c: Setup, sys: System)
    requires Init(c, sys) && c.windowSize == 1
    ensures Holds(c, sys, 0)
  {
    InitInv(c, sys);
    assert UpTo(c.file, c.blockSize, 0) == [];
  }

  lemma {:induction false} ReachableHolds(c: Setup, start: System, sys: System, steps: nat) returns (k: nat)
    requires Init(c, start) && ReachableIn(c, start, sys, steps) && c.windowSize == 1
    ensures Holds(c, sys, k)
    decreases steps
  {
    if steps == 0 {
      k := 0;
      InitHolds(c, sys);
    } else {
      var fewer := steps - 1;
      var prev, a := LastMove(c, start, sys, steps, fewer);
      var j := ReachableHolds(c, start, prev, fewer);
      k := MoveHolds(c, prev, j, a, sys);
    }
  }

  // ---- the theorems

  /** Safety, for files of every size: in every reachable state the server's file is a prefix of the
      client's, in whole blocks; a transfer that is done is complete, and its file is shorter than 65535 blocks. */
  lemma UploadSafety(c: Setup, start: System, sys: System)
    requires Init(c, start) && c.windowSize == 1 && Reachable(c, start, sys)
    ensures Content(sys) <= c.file
    ensures exists k: nat :: Content(sys) == UpTo(c.file, c.blockSize, k)
    ensures sys.srv.transferDone ==> Content(sys) == c.file && |c.file| < 65535 * c.blockSize
  {
    var steps := InSteps(c, start, sys);
    var k := ReachableHolds(c, start, sys, steps);
    if sys.srv.transferDone {
      UpToAll(c.file, c.blockSize, k);
      CountIff(|c.file|, c.blockSize, 0x1_0000);
      OffsetIsProduct(c.blockSize, 0x1_0000);
    }
  }

  lemma WithinReach(c: Setup)
    requires c.Ok() && |c.file| <= 65535 * c.blockSize
    ensures UpTo(c.file, c.blockSize, 65535) == c.file
  {
    OffsetIsProduct(c.blockSize, 0x1_0000);
  }

  /** A client whose last block was acknowledged can rely on the upload for files up to 65535 full blocks, and
      for all files under a limit below as many packets. */
  lemma UploadAcknowledged(c: Setup, start: System, sys: System)
    requires Init(c, start) && c.windowSize == 1 && Reachable(c, start, sys)
    requires sys.acked == c.Last() && (|c.file| <= 65535 * c.blockSize || c.cfg.OverLimit(Packets(c, 65535)))
    ensures Content(sys) == c.file
  {
    var steps := InSteps(c, start, sys);
    var k := ReachableHolds(c, start, sys, steps);
    if k == c.Last() {
      UpToAll(c.file, c.blockSize, k);
    } else {
      assert k == 65535;
      if |c.file| <= 65535 * c.blockSize { WithinReach(c); }
    }
  }
}
