/** When a download seeks further than an `int` goes, and what its client is given then. */
module DownloadSeeks {
  import opened Sequences
  import opened Wire
  import opened Settings
  import opened Blocks
  import opened Protocol
  import opened DownloadLaws
  import opened Network
  import opened DownloadSystem
  import opened DownloadExact

  /** The server is about to handle an event in whose round the product of a seek does not fit an `int`. */
  ghost predicate Overseeks(c: Setup, start: System, sys: System, ev: Event) {
    Reachable(c, start, sys) && WellFormed(sys.srv) && Enabled(sys, ServerHears(ev)) && !SeekFitsIn(sys.srv, ev)
  }

  lemma OverseeksOnlyIf(c: Setup, start: System, sys: System, ev: Event)
    requires Begins(c, start) && Overseeks(c, start, sys, ev)
    ensures !c.Seekable()
  {
    if c.Seekable() {
      var steps := InSteps(c, start, sys);
      ReachableTolled(c, start, sys, steps);
      NextSeekFits(c.cfg, c.file, sys.srv, ev);
    }
  }

  /** A limit that admits any far seek is none at all for what it takes to get there. */
  lemma NoLimit(c: Setup, first: nat)
    requires c.Ok() && c.cfg.limit <= 0 && c.blockSize <= 65464 && 1 <= first <= c.Last() && first <= 0x1_0000
    ensures !c.cfg.OverLimit(Cost(c, first)) && Cost(c, first) < 0x100_0000_0000
  {
    var up := RoundUp(c.windowSize, first - 1);
    RoundUpBounds(c.windowSize, first - 1);
    SpanIs(c, first);
    MulMono(up, 0x2_0000, c.blockSize);
    MulMono(c.windowSize, 0x1_0000, c.blockSize);
  }

  /** A session just before the first base too far, with the acknowledgement under way that leads there. */
  ghost predicate AtEdge(c: Setup, start: System, sys: System, far: nat) {
    && c.Ok() && Reachable(c, start, sys) && sys.alive && InWindow(c.file, sys.srv) && !sys.srv.readDone
    && sys.srv.blockSize == c.blockSize && sys.srv.windowSize == c.windowSize
    && sys.srv.first < far <= sys.srv.first + c.windowSize && far <= 0x1_0000 && !SeekFits(c.blockSize, far)
    && sys.srv.bytesHandled < 0x100_0000_0000
    && !sys.done && sys.blocks == far - 1 && Holds(c, sys) && Encode(Ack(Word(far - 1))) in sys.toServer
  }

  lemma AtTheEdge(c: Setup, start: System, far: nat) returns (sys: System)
    requires Begins(c, start) && !c.Seekable() && c.blockSize <= 65464 && far == FirstFar(c)
    ensures AtEdge(c, start, sys, far) && 2 <= far <= c.Last() && c.cfg.limit <= 0
  {
    FarFromFirst(c, Min(c.Last(), 0x1_0000));
    FarFromFirst(c, far);
    var prev := Before(c.windowSize, far);
    FarFromFirst(c, prev);
    NoLimit(c, prev);
    var at;
    sys, at := ReachBase(c, start, prev);
    sys := TakeAndAck(c, start, sys, far - 1);
  }

  lemma OverseeksIf(c: Setup, start: System) returns (sys: System, ev: Event)
    requires Begins(c, start) && !c.Seekable() && c.blockSize <= 65464
    ensures Overseeks(c, start, sys, ev)
  {
    var far := FirstFar(c);
    sys := AtTheEdge(c, start, far);
    ev := Event(Encode(Ack(Word(far - 1))), Quiet(c.windowSize));
    AckIsAccepted(c, sys.srv, far - 1, ev);
  }

  /** For every configuration, every file and every block size there is: that the product of every seek fits an `int`
      holds exactly for the downloads called seekable. */
  lemma OverseekIff(c: Setup, start: System)
    requires Begins(c, start) && c.blockSize <= 65464
    ensures (exists sys, ev :: Overseeks(c, start, sys, ev)) <==> !c.Seekable()
  {
    forall sys, ev | Overseeks(c, start, sys, ev) ensures !c.Seekable() { OverseeksOnlyIf(c, start, sys, ev); }
    if !c.Seekable() { var sys, ev := OverseeksIf(c, start); }
  }

  // ---- behind a refused seek

  /** The seek is refused, and the file's position stays. */
  lemma SeekIsRefused(s: State)
    requires s.file.Some? && !SeekFits(s.blockSize, s.first) && (s.first - 1) * s.blockSize < 0x1_0000_0000
    ensures Rewind(s) == s
  {
  }

  /** Bytes from `pos` to the end of the file. */
  function Rest(f: seq<Byte>, pos: nat): nat {
    if pos < |f| then |f| - pos else 0
  }

  /** The first read of a window. */
  lemma WindowBegins(f: seq<Byte>, pos: nat, blockSize: nat, p: seq<Byte>, after: seq<seq<Byte>>)
    requires blockSize > 0 && p == Slice(f, pos, blockSize)
    requires |p| == blockSize ==> TotalSize(after) <= Rest(f, pos + blockSize)
    requires |p| < blockSize ==> after == []
    ensures TotalSize([p] + after) <= Rest(f, pos)
    ensures if pos < |f| then TotalSize([p] + after) > 0 else [p] + after == [[]]
  {
    TotalSizeCons(p, after);
  }

  lemma {:induction false} WindowReads(f: seq<Byte>, pos: nat, blockSize: nat, w: nat)
    requires blockSize > 0
    ensures var plan := Window(f, pos, blockSize, w);
            && |plan| <= w && TotalSize(plan) <= Rest(f, pos)
            && (w > 0 ==> if pos < |f| then TotalSize(plan) > 0 else plan == [[]])
    decreases w
  {
    if w > 0 {
      var p, next, fewer := Slice(f, pos, blockSize), pos + blockSize, w - 1;
      var after := if |p| == blockSize then Window(f, next, blockSize, fewer) else [];
      WindowOpens(f, pos, next, blockSize, w, fewer);
      if |p| == blockSize { WindowReads(f, next, blockSize, fewer); }
      WindowBegins(f, pos, blockSize, p, after);
      EmptyUnits([p]);
      assert Window(f, pos, blockSize, w) == [p] + after;
    }
  }

  /** A session behind a refused seek, about to send, with room under the limit for the rest of the file. */
  predicate Stranded(cfg: Config, f: seq<Byte>, s: State, n: nat) {
    && Serves(f, s) && s.error == ERR_NO_ERROR && !s.transferDone
    && s.first == n >= 1 && !SeekFits(s.blockSize, n) && (n - 1) * s.blockSize < 0x1_0000_0000
    && !cfg.OverLimit(s.bytesHandled + Rest(f, s.file.value.cursor))
  }

  lemma AllGoesOut(cfg: Config, plan: seq<seq<Byte>>, bytes: nat, total: nat, sends: nat)
    requires |plan| <= sends && total == bytes + TotalSize(plan) && !cfg.OverLimit(total)
    ensures var p := Transmit(cfg, plan, bytes, sends);
            p.error == ERR_NO_ERROR && p.count == |plan| && p.bytes == total
  {
    LimitMonotone(cfg, bytes, total);
    TransmitAll(cfg, plan, bytes, sends);
  }

  lemma RestGoesOut(cfg: Config, f: seq<Byte>, s: State, sends: nat, n: nat, plan: seq<seq<Byte>>, total: nat)
    requires Stranded(cfg, f, s, n) && sends >= s.windowSize && total == s.bytesHandled + TotalSize(plan)
    requires plan == Window(f, s.file.value.cursor, s.blockSize, s.windowSize)
    ensures var p := Transmit(cfg, plan, s.bytesHandled, sends);
            p.error == ERR_NO_ERROR && p.count == |plan| && p.bytes == total
    ensures plan[..|plan|] == plan
  {
    WindowReads(f, s.file.value.cursor, s.blockSize, s.windowSize);
    LimitMonotone(cfg, total, s.bytesHandled + Rest(f, s.file.value.cursor));
    AllGoesOut(cfg, plan, s.bytesHandled, total, sends);
  }

  lemma SendsOn(cfg: Config, f: seq<Byte>, s: State, env: Env, n: nat, plan: seq<seq<Byte>>)
    requires Stranded(cfg, f, s, n) && env.sendsOk >= s.windowSize
    requires plan == Window(f, s.file.value.cursor, s.blockSize, s.windowSize)
    ensures var (t, out) := SendWindow(cfg, s, env);
            && out == Numbered(n, plan) && t.first == n && t.error == ERR_NO_ERROR && !t.transferDone && t.retry == 0
            && t.file == Some(OpenFile(f, s.file.value.cursor + TotalSize(plan)))
            && t.bytesHandled == s.bytesHandled + TotalSize(plan)
  {
    SeekIsRefused(s);
    RestGoesOut(cfg, f, s, env.sendsOk, n, plan, s.bytesHandled + TotalSize(plan));
  }

  /** The window is what stands at the file's position, under the numbers of the base. */
  lemma ReadsOn(cfg: Config, f: seq<Byte>, s: State, env: Env, n: nat, plan: seq<seq<Byte>>)
    requires Stranded(cfg, f, s, n) && env.sendsOk >= s.windowSize
    requires plan == Window(f, s.file.value.cursor, s.blockSize, s.windowSize)
    ensures var r := WindowRound(cfg, s, env);
            && r.alive && Stranded(cfg, f, r.s, n) && r.s.retry == 0 && r.sent == Numbered(n, plan)
            && r.s.file.value.cursor == s.file.value.cursor + TotalSize(plan)
  {
    SendsOn(cfg, f, s, env, n, plan);
    WindowReads(f, s.file.value.cursor, s.blockSize, s.windowSize);
  }

  lemma EmptyPacket(n: nat, plan: seq<seq<Byte>>)
    requires plan == [[]]
    ensures Encode(Data(Word(n), [])) in OnTheWire(Numbered(n, plan))
  {
    NumberedAt(n, plan, 0);
    assert Numbered(n, plan)[0] == Data(Word(n), []);
  }

  /** A timeout resends from the file's position on. */
  lemma ResendsOn(c: Setup, start: System, sys: System, n: nat) returns (next: System)
    requires c.Ok() && Reachable(c, start, sys) && sys.alive && Stranded(c.cfg, c.file, sys.srv, n)
    requires sys.srv.retry == 0 && c.cfg.retryMax >= 2
    ensures Reachable(c, start, next) && next.alive && Stranded(c.cfg, c.file, next.srv, n) && next.srv.retry == 0
    ensures next == sys.(srv := next.srv, toClient := next.toClient) && SameShape(sys.srv, next.srv)
    ensures var pos, after := sys.srv.file.value.cursor, next.srv.file.value.cursor;
            if pos < |c.file| then after > pos else Encode(Data(Word(n), [])) in next.toClient
  {
    var s := sys.srv;
    var ev := Event([], Env(s.stamp + s.packetTimeout * 1000, s.windowSize, true, None));
    var s1 := s.(retry := 1);
    var plan := Window(c.file, s.file.value.cursor, s.blockSize, s.windowSize);
    RetryResends(c.cfg, s, s1, ev.env);
    ReadsOn(c.cfg, c.file, s1, ev.env, n, plan);
    WindowReads(c.file, s.file.value.cursor, s.blockSize, s.windowSize);
    assert Step(c.cfg, s, ev) == WindowRound(c.cfg, s1, ev.env);
    if plan == [[]] { EmptyPacket(n, plan); }
    ReachStep(c, start, sys, ServerHears(ev));
    next := Apply(c, sys, ServerHears(ev));
  }

  /** So at last an empty block goes out under the number of the base. */
  lemma {:induction false} ResendsToTheEnd(c: Setup, start: System, sys: System, n: nat) returns (end: System)
    requires c.Ok() && Reachable(c, start, sys) && sys.alive && Stranded(c.cfg, c.file, sys.srv, n)
    requires sys.srv.retry == 0 && c.cfg.retryMax >= 2
    ensures Reachable(c, start, end) && WellFormed(end.srv) && Encode(Data(Word(n), [])) in end.toClient
    ensures end == sys.(srv := end.srv, toClient := end.toClient)
    decreases Rest(c.file, sys.srv.file.value.cursor)
  {
    end := ResendsOn(c, start, sys, n);
    if sys.srv.file.value.cursor < |c.file| { end := ResendsToTheEnd(c, start, end, n); }
  }

  lemma EdgeStranded(c: Setup, s: State, s1: State, far: nat)
    requires c.Ok() && InWindow(c.file, s) && s.blockSize == c.blockSize <= 65464 && s1 == s.(first := far)
    requires 1 <= far <= 0x1_0000 && !SeekFits(c.blockSize, far)
    requires s.bytesHandled < 0x100_0000_0000 && c.cfg.limit <= 0 && |c.file| < 0x8000_0000_0000_0000
    ensures Stranded(c.cfg, c.file, s1, far)
  {
    MulMono(far - 1, 65535, c.blockSize);
  }

  lemma EdgeStep(c: Setup, s: State, far: nat, ev: Event, r: Outcome)
    requires c.Ok() && InWindow(c.file, s) && !s.readDone
    requires s.blockSize == c.blockSize <= 65464 && s.windowSize == c.windowSize
    requires s.first < far <= s.first + c.windowSize && far <= 0x1_0000 && !SeekFits(c.blockSize, far)
    requires s.bytesHandled < 0x100_0000_0000 && c.cfg.limit <= 0 && |c.file| < 0x8000_0000_0000_0000
    requires ev == Event(Encode(Ack(Word(far - 1))), Quiet(c.windowSize)) && r == Step(c.cfg, s, ev)
    ensures r.alive && Stranded(c.cfg, c.file, r.s, far) && r.s.retry == 0
  {
    var s1 := s.(first := far);
    EdgeStranded(c, s, s1, far);
    AckIsAccepted(c, s, far - 1, ev);
    AckSends(c.cfg, s, ev, s1);
    ReadsOn(c.cfg, c.file, s1, ev.env, far, Window(c.file, s1.file.value.cursor, s1.blockSize, s1.windowSize));
  }

  /** The server hears the acknowledgement that leads to the base. */
  lemma OverTheEdge(c: Setup, start: System, at: System, far: nat, ev: Event) returns (sys: System)
    requires AtEdge(c, start, at, far) && c.blockSize <= 65464 && c.cfg.limit <= 0
    requires |c.file| < 0x8000_0000_0000_0000
    requires ev == Event(Encode(Ack(Word(far - 1))), Quiet(c.windowSize))
    ensures Reachable(c, start, sys) && sys.alive && Stranded(c.cfg, c.file, sys.srv, far) && sys.srv.retry == 0
    ensures sys == at.(srv := sys.srv, alive := true, toClient := sys.toClient)
  {
    var r := Step(c.cfg, at.srv, ev);
    EdgeStep(c, at.srv, far, ev, r);
    sys := Hear(c, start, at, ev, r);
  }

  /** And a client that takes it is done, with a file that ends before the base. */
  lemma CutShort(c: Setup, start: System, far: nat) returns (bad: System)
    requires Begins(c, start) && !c.Seekable() && c.blockSize <= 65464 && far == FirstFar(c)
    requires |c.file| < 0x8000_0000_0000_0000 && c.cfg.retryMax >= 2
    ensures Reachable(c, start, bad) && bad.done && bad.got == UpTo(c.file, c.blockSize, far - 1)
    ensures far <= c.Last() && (|c.file| > (far - 1) * c.blockSize ==> bad.got != c.file)
  {
    var at := AtTheEdge(c, start, far);
    var over := OverTheEdge(c, start, at, far, Event(Encode(Ack(Word(far - 1))), Quiet(c.windowSize)));
    var end := ResendsToTheEnd(c, start, over, far);
    var d := Encode(Data(Word(far), []));
    EncodedFields(Data(Word(far), []));
    ReachStep(c, start, end, ClientHears(d));
    bad := Apply(c, end, ClientHears(d));
    OffsetIsProduct(c.blockSize, far);
    EmptyUnits(end.got);
  }

  /** Within 65536 blocks, and with a resend configured, a client that is done always holds the file exactly if the
      download is seekable; left aside is the file that ends right before the first base too far, whose last block
      is empty anyway. Files are at most as long as a signed 64-bit size says. */
  lemma DoneHoldsFileIff(c: Setup, start: System)
    requires Begins(c, start) && c.blockSize <= 65464 && c.Last() <= 0x1_0000 && |c.file| < 0x8000_0000_0000_0000
    requires c.cfg.retryMax >= 2 && |c.file| != (FirstFar(c) - 1) * c.blockSize
    ensures (forall sys :: Reachable(c, start, sys) && sys.done ==> sys.got == c.file) <==> c.Seekable()
  {
    if c.Seekable() {
      forall sys | Reachable(c, start, sys) && sys.done ensures sys.got == c.file { DownloadSafety(c, start, sys); }
    } else {
      var far := FirstFar(c);
      var bad := CutShort(c, start, far);
      CountIff(|c.file|, c.blockSize, far);
      OffsetIsProduct(c.blockSize, far);
    }
  }
}
