/** From the request to the first state of a transfer: what an accepted request establishes. */
module SessionStart {
  import opened Wire
  import opened Settings
  import opened Blocks
  import opened Request
  import opened Protocol
  import opened DownloadLaws
  import opened DownloadTotals
  import opened UploadLaws
  import opened Network
  import Down = DownloadSystem
  import DownExact = DownloadExact
  import Up = UploadSystem
  import UpPlaced = UploadPlacement
  import UpExact = UploadExact
  import UpLedger = UploadLedger

  /** The terms a session has before negotiation. */
  function Defaults(cfg: Config): Terms {
    Terms(512, 1, cfg.timeoutMin)
  }

  /** The terms the options in a request lead to. */
  function Agreed(cfg: Config, request: Datagram): Terms
    requires cfg.Consistent() && ScanHeader(request).Header?
  {
    Negotiate(cfg, Defaults(cfg), ScanOptions(request, ScanHeader(request).optionsAt).opts)
  }

  lemma AgreedWithinBounds(cfg: Config, request: Datagram)
    requires cfg.Consistent() && ScanHeader(request).Header?
    ensures WithinBounds(cfg, Agreed(cfg, request))
  {
    NegotiatedWithinBounds(cfg, Defaults(cfg), ScanOptions(request, ScanHeader(request).optionsAt).opts);
  }

  // ---- downloads

  predicate AcceptsRrq(cfg: Config, request: Datagram, env: Env) {
    && HasOp(request, OP_RRQ)
    && var h := ScanHeader(request);
    && h.Header? && Downloadable(cfg, h.fileName) && env.opens.Some?
    && ScanOptions(request, h.optionsAt).ok && env.socketOk
  }

  /** A download begins only with a read request for a listed file that can be opened, whose options are
      well-formed; it then consists of sending the first window under the agreed terms. */
  lemma RrqBegins(cfg: Config, request: Datagram, env: Env, o: Outcome, s: State)
    requires cfg.Consistent() && o == Begin(cfg, request, env) && o.alive && o.s.op == ServerToClient
    requires s == Fresh(cfg, env.now).(comm := env.socketOk)
    ensures AcceptsRrq(cfg, request, env)
    ensures var h := ScanHeader(request);
            o == WindowRound(cfg, StartDownload(cfg, s, request, h.optionsAt, env.opens.value), env)
  {
  }

  lemma DownloadTerms(cfg: Config, request: Datagram, env: Env, s: State, t: State)
    requires cfg.Consistent() && AcceptsRrq(cfg, request, env)
    requires s == Fresh(cfg, env.now).(comm := env.socketOk)
    requires t == StartDownload(cfg, s, request, ScanHeader(request).optionsAt, env.opens.value)
    ensures TermsOf(t) == Agreed(cfg, request)
    ensures Serves(env.opens.value, t) && t.first == 1 && t.error == ERR_NO_ERROR && t.bytesHandled == 0
    ensures !t.readDone && !t.transferDone && t.retry == 0
  {
    AgreedWithinBounds(cfg, request);
  }

  /** The sends of the first window work, and the limit has room for its bytes. */
  predicate FirstWindowFits(cfg: Config, t: Terms, length: nat, sendsOk: nat)
    requires t.blockSize > 0
  {
    && sendsOk >= Min(t.windowSize, BlockCount(length, t.blockSize))
    && !cfg.OverLimit(Min(t.windowSize * t.blockSize, length))
  }

  lemma FirstWindow(cfg: Config, f: seq<Byte>, s: State, env: Env)
    requires Serves(f, s) && s.first == 1 && s.error == ERR_NO_ERROR && s.bytesHandled == 0
    ensures SendWindow(cfg, s, env).0.error == ERR_NO_ERROR <==> FirstWindowFits(cfg, TermsOf(s), |f|, env.sendsOk)
    ensures SendWindow(cfg, s, env).0.error == ERR_NO_ERROR ==>
            SendWindow(cfg, s, env).0.bytesHandled == WindowBytes(f, s)
  {
    var plan, end := Plan(Rewind(s)), 1 + s.windowSize;
    assert plan == Window(f, Offset(s.blockSize, 1), s.blockSize, s.windowSize);
    BlocksFrom(f, s.blockSize, 1, s.windowSize, plan);
    WindowTotal(f, s.blockSize, 1, s.windowSize, end);
    OffsetIsProduct(s.blockSize, end);
    PlanGoesOut(cfg, s, env, plan, WindowBytes(f, s));
  }

  /** A request leads to a running download exactly if it is a well-formed read request for a listed file that
      can be opened, a socket can be had, and the first window can be sent within the limit. */
  lemma RrqBeginsIff(cfg: Config, request: Datagram, env: Env, o: Outcome)
    requires cfg.Consistent() && o == Begin(cfg, request, env)
    ensures o.alive && o.s.op == ServerToClient <==>
            && AcceptsRrq(cfg, request, env)
            && FirstWindowFits(cfg, Agreed(cfg, request), |env.opens.value|, env.sendsOk)
  {
    var s := Fresh(cfg, env.now).(comm := env.socketOk);
    if o.alive && o.s.op == ServerToClient { RrqBegins(cfg, request, env, o, s); }
    if AcceptsRrq(cfg, request, env) {
      var t := StartDownload(cfg, s, request, ScanHeader(request).optionsAt, env.opens.value);
      DownloadTerms(cfg, request, env, s, t);
      FirstWindow(cfg, env.opens.value, t, env);
      assert o == WindowRound(cfg, t, env);
    }
  }

  /** What a first window that went out leaves. */
  ghost predicate StartsDownload(cfg: Config, f: seq<Byte>, o: Outcome) {
    && InWindow(f, o.s) && o.s.first == 1 && o.s.retry == 0 && Accounted(cfg, o)
    && o.s.bytesHandled == WindowBytes(f, o.s)
    && |o.sent| == Min(o.s.windowSize, LastBlock(f, o.s))
    && forall i :: 0 <= i < |o.sent| ==> Carries(f, o.s.blockSize, o.sent[i], 1 + i)
  }

  lemma FirstRound(cfg: Config, f: seq<Byte>, t: State, env: Env, o: Outcome)
    requires Serves(f, t) && t.first == 1 && t.error == ERR_NO_ERROR && t.bytesHandled == 0
    requires !t.readDone && !t.transferDone && o == WindowRound(cfg, t, env) && o.alive
    ensures StartsDownload(cfg, f, o)
  {
    SendEffect(cfg, f, t, env);
    WindowSent(cfg, f, t, env);
    WindowAccounted(cfg, t, env);
    FirstWindow(cfg, f, t, env);
  }

  /** Whether the seeks of a session will fit can be told at its start. */
  lemma SeekableFromStart(cfg: Config, f: seq<Byte>, o: Outcome)
    requires StartsDownload(cfg, f, o) && o.alive
    ensures Setup(cfg, f, o.s.blockSize, o.s.windowSize).Seekable() <==> Sound(cfg, f, o)
  {
  }

  /** Every download starts in a window at block 1, under terms within their bounds, with its bytes accounted: the
      state all download theorems start from. Whether its seeks will fit can be told from the agreed terms. */
  lemma RrqEstablishes(cfg: Config, request: Datagram, env: Env, o: Outcome)
    requires cfg.Consistent() && o == Begin(cfg, request, env) && o.alive && o.s.op == ServerToClient
    ensures AcceptsRrq(cfg, request, env) && TermsOf(o.s) == Agreed(cfg, request) && WithinBounds(cfg, TermsOf(o.s))
    ensures var f := env.opens.value;
            && StartsDownload(cfg, f, o)
            && (Setup(cfg, f, o.s.blockSize, o.s.windowSize).Seekable() <==> Sound(cfg, f, o))
  {
    var s := Fresh(cfg, env.now).(comm := env.socketOk);
    RrqBegins(cfg, request, env, o, s);
    var f := env.opens.value;
    var t := StartDownload(cfg, s, request, ScanHeader(request).optionsAt, f);
    DownloadTerms(cfg, request, env, s, t);
    AgreedWithinBounds(cfg, request);
    FirstRound(cfg, f, t, env, o);
    SeekableFromStart(cfg, f, o);
  }

  lemma FirstWindowWire(c: Setup, sent: seq<Packet>)
    requires c.Ok() && |sent| == Min(c.windowSize, c.Last())
    requires forall i :: 0 <= i < |sent| ==> Carries(c.file, c.blockSize, sent[i], 1 + i)
    ensures OnTheWire(sent) == set n | 1 <= n <= Min(c.windowSize, c.Last()) :: BlockDatagram(c, n)
  {
    forall d | d in OnTheWire(sent)
      ensures exists n :: 1 <= n <= Min(c.windowSize, c.Last()) && d == BlockDatagram(c, n)
    {
      var i :| 0 <= i < |sent| && d == Encode(sent[i]);
      var n := 1 + i;
      assert d == BlockDatagram(c, n);
    }
    forall n | 1 <= n <= Min(c.windowSize, c.Last()) ensures BlockDatagram(c, n) in OnTheWire(sent) {
      var i := n - 1;
      assert Carries(c.file, c.blockSize, sent[i], 1 + i);
    }
  }

  /** The end-to-end model of downloads starts where an accepted request leads. */
  lemma RrqReachesInit(cfg: Config, request: Datagram, env: Env, o: Outcome) returns (c: Setup, sys: Down.System)
    requires cfg.Consistent() && o == Begin(cfg, request, env) && o.alive && o.s.op == ServerToClient
    ensures env.opens.Some? && c == Setup(cfg, env.opens.value, o.s.blockSize, o.s.windowSize)
    ensures sys.srv == o.s && sys.toClient == OnTheWire(o.sent) && Down.Begins(c, sys)
  {
    RrqEstablishes(cfg, request, env, o);
    c := Setup(cfg, env.opens.value, o.s.blockSize, o.s.windowSize);
    sys := Down.System(o.s, true, {}, OnTheWire(o.sent), [], 0, false);
    FirstWindowWire(c, o.sent);
  }

  // ---- uploads

  predicate AcceptsWrq(cfg: Config, request: Datagram, env: Env) {
    && HasOp(request, OP_WRQ)
    && var h := ScanHeader(request);
    && h.Header? && Uploadable(cfg, h.fileName) && (cfg.noFileWrite || env.opens.Some?)
    && ScanOptions(request, h.optionsAt).ok && env.socketOk
  }

  lemma WrqBegins(cfg: Config, request: Datagram, env: Env, o: Outcome, s: State)
    requires cfg.Consistent() && o == Begin(cfg, request, env) && o.alive && o.s.op == ClientToServer
    requires s == Fresh(cfg, env.now).(comm := env.socketOk)
    ensures AcceptsWrq(cfg, request, env) && env.sendsOk > 0
    ensures var r := AckBlock(StartUpload(cfg, s, request, ScanHeader(request).optionsAt), env);
            o == Outcome(r.0, r.1, true)
  {
  }

  /** A request leads to a running upload exactly if it is a well-formed write request for a listed file that
      can be opened, where files are written at all, a socket can be had, and the acknowledgement can be sent. */
  lemma WrqBeginsIff(cfg: Config, request: Datagram, env: Env, o: Outcome)
    requires cfg.Consistent() && o == Begin(cfg, request, env)
    ensures o.alive && o.s.op == ClientToServer <==> AcceptsWrq(cfg, request, env) && env.sendsOk > 0
  {
    var s := Fresh(cfg, env.now).(comm := env.socketOk);
    if o.alive && o.s.op == ClientToServer { WrqBegins(cfg, request, env, o, s); }
  }

  /** Every upload starts clean at base 0 with acknowledgement 0 sent, under terms within their bounds and
      with its whole byte budget: the state all upload theorems start from. */
  lemma WrqEstablishes(cfg: Config, request: Datagram, env: Env, o: Outcome)
    requires cfg.Consistent() && o == Begin(cfg, request, env) && o.alive && o.s.op == ClientToServer
    ensures AcceptsWrq(cfg, request, env) && TermsOf(o.s) == Agreed(cfg, request) && WithinBounds(cfg, TermsOf(o.s))
    ensures Clean(o.s) && o.s.first == 0 && o.sent == [Ack(0)] && o.s.bytesHandled == 0
    ensures o.s.file == if cfg.noFileWrite then None else Some(OpenFile([], 0))
    ensures Patient(cfg, o.s, env.now) && (cfg.limit != 0 ==> Budgeted(cfg, o.s, env.now))
  {
    var s := Fresh(cfg, env.now).(comm := env.socketOk);
    WrqBegins(cfg, request, env, o, s);
    AgreedWithinBounds(cfg, request);
    LeadingOfNone(Agreed(cfg, request).windowSize);
  }

  /** The end-to-end model of uploads starts where an accepted request leads. */
  lemma WrqReachesInit(cfg: Config, request: Datagram, env: Env, o: Outcome, file: seq<Byte>)
      returns (c: Setup, sys: Up.System)
    requires cfg.Consistent() && o == Begin(cfg, request, env) && o.alive && o.s.op == ClientToServer
    requires !cfg.noFileWrite
    ensures c == Setup(cfg, file, o.s.blockSize, o.s.windowSize)
    ensures sys.srv == o.s && sys.toClient == OnTheWire(o.sent) && Up.Init(c, sys)
  {
    WrqEstablishes(cfg, request, env, o);
    c := Setup(cfg, file, o.s.blockSize, o.s.windowSize);
    sys := Up.System(o.s, true, {}, OnTheWire(o.sent), false, 0, {});
    assert OnTheWire([Ack(0)]) == {Encode(Ack(0))} by { assert [Ack(0)][0] == Ack(0); }
  }

  // ---- from what a client prints to what the session uses

  lemma DecimalIsNulFree(n: nat)
    ensures NulFree(Decimal(n))
  {
    assert !IsDigit(0);
  }

  lemma ProposalsDecide(cfg: Config, opts: seq<Opt>, b: nat, w: nat)
    requires cfg.Consistent() && 8 <= b <= 65464 && 1 <= w <= 65535 && cfg.windowMin <= w
    requires opts == [Opt(BLKSIZE, Decimal(b)), Opt(WINDOWSIZE, Decimal(w))]
    ensures Negotiate(cfg, Defaults(cfg), opts) ==
            Terms(b, if w > cfg.windowMax then cfg.windowMax else w, cfg.timeoutMin)
  {
    AtoiDecimal(b);
    AtoiDecimal(w);
    assert EqualIgnoreCase(Keyword(BlkSize), opts[0].name) && EqualIgnoreCase(Keyword(WindowSize), opts[1].name);
    forall kind: Kind | EqualIgnoreCase(Keyword(kind), opts[0].name) ensures kind == BlkSize {
      KeywordsDiffer(kind, BlkSize, opts[0].name);
    }
    forall kind: Kind | EqualIgnoreCase(Keyword(kind), opts[1].name) ensures kind == WindowSize {
      KeywordsDiffer(kind, WindowSize, opts[1].name);
    }
    LastProposalWins(cfg, Defaults(cfg), opts, BlkSize, 0);
    LastProposalWins(cfg, Defaults(cfg), opts, WindowSize, 1);
    NoProposalKeeps(cfg, Defaults(cfg), opts, Timeout);
  }

  /** A client that prints a request proposing block size `b` and window size `w`, both acceptable, gets
      exactly these, the window capped by the configuration. */
  lemma PrintedProposals(cfg: Config, request: Datagram, op: nat, fileName: Text, mode: Text, b: nat, w: nat)
    requires cfg.Consistent() && op < 256 && NulFree(fileName) && NulFree(mode)
    requires 8 <= b <= 65464 && 1 <= w <= 65535 && cfg.windowMin <= w
    requires request == PrintRequest(op, fileName, mode, [Opt(BLKSIZE, Decimal(b)), Opt(WINDOWSIZE, Decimal(w))])
    ensures HasOp(request, op) && ScanHeader(request).Header? && ScanHeader(request).fileName == fileName
    ensures ScanOptions(request, ScanHeader(request).optionsAt).ok
    ensures Agreed(cfg, request) == Terms(b, if w > cfg.windowMax then cfg.windowMax else w, cfg.timeoutMin)
  {
    var opts := [Opt(BLKSIZE, Decimal(b)), Opt(WINDOWSIZE, Decimal(w))];
    DecimalIsNulFree(b);
    DecimalIsNulFree(w);
    assert opts[1..] == [Opt(WINDOWSIZE, Decimal(w))] && opts[1..][1..] == [];
    RequestRoundTrip(request, op, fileName, mode, opts, 4 + |fileName| + |mode|);
    ProposalsDecide(cfg, opts, b, w);
  }

  /** A listed file, requested with block size `b` and window size `w`, is served in just these: the initial
      state of the end-to-end download is one a client can bring about, whatever its terms are. */
  lemma ProposedDownload(cfg: Config, request: Datagram, fileName: Text, mode: Text, b: nat, w: nat, env: Env)
      returns (c: Setup, sys: Down.System)
    requires cfg.Consistent() && NulFree(fileName) && NulFree(mode) && Downloadable(cfg, fileName)
    requires 8 <= b <= 65464 && 1 <= w <= 65535 && cfg.windowMin <= w <= cfg.windowMax
    requires request == PrintRequest(OP_RRQ, fileName, mode, [Opt(BLKSIZE, Decimal(b)), Opt(WINDOWSIZE, Decimal(w))])
    requires env.socketOk && env.opens.Some?
    requires FirstWindowFits(cfg, Terms(b, w, cfg.timeoutMin), |env.opens.value|, env.sendsOk)
    ensures c == Setup(cfg, env.opens.value, b, w) && Down.Begins(c, sys)
    ensures sys.srv == Begin(cfg, request, env).s
  {
    var o := Begin(cfg, request, env);
    PrintedProposals(cfg, request, OP_RRQ, fileName, mode, b, w);
    RrqBeginsIff(cfg, request, env, o);
    RrqEstablishes(cfg, request, env, o);
    c, sys := RrqReachesInit(cfg, request, env, o);
  }

  lemma ProposedUpload(cfg: Config, request: Datagram, fileName: Text, mode: Text, b: nat, w: nat, env: Env,
                       file: seq<Byte>)
      returns (c: Setup, sys: Up.System)
    requires cfg.Consistent() && NulFree(fileName) && NulFree(mode) && Uploadable(cfg, fileName) && !cfg.noFileWrite
    requires 8 <= b <= 65464 && 1 <= w <= 65535 && cfg.windowMin <= w <= cfg.windowMax
    requires request == PrintRequest(OP_WRQ, fileName, mode, [Opt(BLKSIZE, Decimal(b)), Opt(WINDOWSIZE, Decimal(w))])
    requires env.socketOk && env.opens.Some? && env.sendsOk > 0
    ensures c == Setup(cfg, file, b, w) && Up.Init(c, sys)
    ensures sys.srv == Begin(cfg, request, env).s
  {
    var o := Begin(cfg, request, env);
    PrintedProposals(cfg, request, OP_WRQ, fileName, mode, b, w);
    WrqBeginsIff(cfg, request, env, o);
    WrqEstablishes(cfg, request, env, o);
    c, sys := WrqReachesInit(cfg, request, env, o, file);
  }

  lemma TwoBlocksAtLeast(length: nat, b: nat, most: nat, end: nat)
    requires b > 0 && b <= length < most * b && end == most + 1
    ensures 2 <= BlockCount(length, b) <= most
  {
    CountIff(length, b, 2);
    CountIff(length, b, end);
    OffsetIsProduct(b, 2);
    OffsetIsProduct(b, end);
  }

  /** A client that asks for a window of two blocks can leave the server convinced of a transfer it does not have:
      for any file of at least two blocks that 16-bit numbers and the limit can carry. */
  lemma WindowOfTwoMisleads(cfg: Config, request: Datagram, fileName: Text, mode: Text, b: nat, env: Env)
      returns (c: Setup, start: Down.System, bad: Down.System)
    requires cfg.Consistent() && NulFree(fileName) && NulFree(mode) && Downloadable(cfg, fileName)
    requires 8 <= b <= 65464 && cfg.windowMin <= 2 <= cfg.windowMax
    requires request == PrintRequest(OP_RRQ, fileName, mode, [Opt(BLKSIZE, Decimal(b)), Opt(WINDOWSIZE, Decimal(2))])
    requires env.socketOk && env.sendsOk >= 2 && env.opens.Some?
    requires b <= |env.opens.value| < 0x1_0000 * b && Setup(cfg, env.opens.value, b, 2).Seekable()
    requires !cfg.OverLimit(|env.opens.value| + 2 * b)
    ensures c == Setup(cfg, env.opens.value, b, 2) && start.srv == Begin(cfg, request, env).s
    ensures Down.Reachable(c, start, bad) && bad.srv.transferDone && !bad.done
  {
    var length := |env.opens.value|;
    LimitMonotone(cfg, Min(2 * b, length), length + 2 * b);
    TwoBlocksAtLeast(length, b, 0x1_0000, 0x1_0001);
    c, start := ProposedDownload(cfg, request, fileName, mode, b, 2, env);
    DownExact.EndsEarlyWithRoom(c);
    DownExact.DownloadCompleteIff(c, start);
    bad :| Down.Reachable(c, start, bad) && bad.srv.transferDone && !bad.done;
  }

  /** And one that uploads so can leave a file with a block missing that the server considers done: any file of at
      least two blocks for which a session can be done at all. */
  lemma WindowOfTwoLeavesHole(cfg: Config, request: Datagram, fileName: Text, mode: Text, b: nat, env: Env,
                              file: seq<Byte>)
      returns (c: Setup, start: Up.System, bad: Up.System)
    requires cfg.Consistent() && NulFree(fileName) && NulFree(mode) && Uploadable(cfg, fileName) && !cfg.noFileWrite
    requires 8 <= b <= 65464 && cfg.windowMin <= 2 <= cfg.windowMax
    requires request == PrintRequest(OP_WRQ, fileName, mode, [Opt(BLKSIZE, Decimal(b)), Opt(WINDOWSIZE, Decimal(2))])
    requires env.socketOk && env.sendsOk > 0 && env.opens.Some?
    requires b <= |file|
    ensures c == Setup(cfg, file, b, 2) && start.srv == Begin(cfg, request, env).s && c.Ok()
    ensures !UpLedger.NeverDone(c) ==>
              Up.Reachable(c, start, bad) && bad.srv.transferDone && !UpPlaced.AllStored(c, bad.stored)
  {
    CountIff(|file|, b, 2);
    OffsetIsProduct(b, 2);
    c, start := ProposedUpload(cfg, request, fileName, mode, b, 2, env, file);
    UpExact.UploadCompleteIff(c, start);
    if UpLedger.NeverDone(c) {
      bad := start;
    } else {
      bad :| Up.Reachable(c, start, bad) && bad.srv.transferDone && !UpPlaced.AllStored(c, bad.stored);
    }
  }
}
