/** Downloads against any client whatsoever: what every round keeps, and what whole runs add up to. */
module DownloadLaws {
  import opened Wire
  import opened Settings
  import opened Blocks
  import opened Protocol

  /** A session that serves file `f`. */
  predicate Serves(f: seq<Byte>, s: State) {
    && WellFormed(s) && s.op == ServerToClient && s.comm
    && s.file.Some? && s.file.value.content == f
  }

  function LastBlock(f: seq<Byte>, s: State): nat
    requires s.blockSize > 0
  {
    BlockCount(|f|, s.blockSize)
  }

  /** An error-free, unfinished download: the window starts at or before the last block, and the
      end of the file was read exactly if the window reaches the last block. */
  predicate InWindow(f: seq<Byte>, s: State) {
    && Serves(f, s) && s.error == ERR_NO_ERROR && !s.transferDone
    && 1 <= s.first <= 0x1_0000 && s.first <= LastBlock(f, s)
    && (s.readDone <==> LastBlock(f, s) <= s.first - 1 + s.windowSize)
  }

  /** Packet `p` carries block `n` under the number `n`, modulo 2^16. */
  predicate Carries(f: seq<Byte>, blockSize: nat, p: Packet, n: int) {
    n >= 1 && p == Data(Word(n), Block(f, blockSize, n))
  }

  // ---- one window

  lemma {:induction false} ShortIsLast(c: seq<Byte>, blockSize: nat, first: nat, ps: seq<seq<Byte>>)
    requires blockSize > 0 && first >= 1 && first + |ps| - 1 <= BlockCount(|c|, blockSize)
    requires AreBlocks(c, blockSize, first, ps)
    ensures HasShort(ps, blockSize) <==> ps != [] && first + |ps| - 1 == BlockCount(|c|, blockSize)
    decreases |ps|
  {
    if ps != [] {
      var n := |ps| - 1;
      var last := first + n;
      BlockLengths(c, blockSize, last);
      ShortIsLast(c, blockSize, first, ps[..n]);
    }
  }

  /** A seek whose product fits in 31 bits is exact. */
  lemma SeekIsExact(f: seq<Byte>, s: State)
    requires Serves(f, s) && 1 <= s.first <= LastBlock(f, s) && SeekFits(s.blockSize, s.first)
    ensures Rewind(s).file == Some(OpenFile(f, Offset(s.blockSize, s.first)))
  {
    CountIff(|f|, s.blockSize, s.first);
    OffsetIsProduct(s.blockSize, s.first);
  }

  lemma BlocksFrom(f: seq<Byte>, blockSize: nat, first: nat, w: nat, plan: seq<seq<Byte>>)
    requires blockSize > 0 && 1 <= first <= BlockCount(|f|, blockSize)
    requires plan == Window(f, Offset(blockSize, first), blockSize, w)
    ensures |plan| == Min(w, BlockCount(|f|, blockSize) - first + 1)
    ensures AreBlocks(f, blockSize, first, plan)
    ensures HasShort(plan, blockSize) <==> w > 0 && BlockCount(|f|, blockSize) <= first - 1 + w
  {
    WindowIsBlocks(f, blockSize, first, w);
    ShortIsLast(f, blockSize, first, plan);
  }

  /** The window planned at base `first` is exactly the blocks from there on. */
  lemma PlanIsBlocks(f: seq<Byte>, s: State, plan: seq<seq<Byte>>)
    requires Serves(f, s) && 1 <= s.first <= LastBlock(f, s) && SeekFits(s.blockSize, s.first)
    requires plan == Plan(Rewind(s))
    ensures |plan| == Min(s.windowSize, LastBlock(f, s) - s.first + 1)
    ensures AreBlocks(f, s.blockSize, s.first, plan)
    ensures HasShort(plan, s.blockSize) <==> LastBlock(f, s) <= s.first - 1 + s.windowSize
  {
    SeekIsExact(f, s);
    BlocksFrom(f, s.blockSize, s.first, s.windowSize, plan);
  }

  /** Sending a window sends a run of blocks from the base on, in order; without an error it is the whole
      window, and the end of the file counts as read exactly if the last block is in it. */
  lemma WindowSent(cfg: Config, f: seq<Byte>, s: State, env: Env)
    requires Serves(f, s) && 1 <= s.first <= LastBlock(f, s) && SeekFits(s.blockSize, s.first)
    requires s.error == ERR_NO_ERROR
    ensures var (t, out) := SendWindow(cfg, s, env);
            && Serves(f, t) && t.first == s.first && t.transferDone == s.transferDone
            && |out| <= Min(s.windowSize, LastBlock(f, s) - s.first + 1)
            && (forall i :: 0 <= i < |out| ==> Carries(f, s.blockSize, out[i], s.first + i))
            && (t.error == ERR_NO_ERROR ==>
                  && |out| == Min(s.windowSize, LastBlock(f, s) - s.first + 1)
                  && t.retry == 0 && t.stamp == env.now
                  && t.readDone == (s.readDone || LastBlock(f, s) <= s.first - 1 + s.windowSize))
  {
    var r := Rewind(s);
    var plan := Plan(r);
    var p := Transmit(cfg, plan, r.bytesHandled, env.sendsOk);
    PlanIsBlocks(f, s, plan);
    var out := SendWindow(cfg, s, env).1;
    forall i | 0 <= i < |out| ensures Carries(f, s.blockSize, out[i], s.first + i) {
      NumberedAt(s.first, plan[..p.count], i);
    }
    if p.error == ERR_NO_ERROR {
      assert ReadFrom(plan, p) == plan;
    }
  }

  /** Bytes of one window at the session's base. */
  function WindowBytes(f: seq<Byte>, s: State): nat
    requires s.first >= 1
  {
    TotalSize(Window(f, Offset(s.blockSize, s.first), s.blockSize, s.windowSize))
  }

  lemma {:induction false} TotalSizeCons(p: seq<Byte>, ps: seq<seq<Byte>>)
    ensures TotalSize([p] + ps) == |p| + TotalSize(ps)
    decreases |ps|
  {
    var all := [p] + ps;
    if ps == [] {
      assert all[..0] == [];
    } else {
      var n := |ps| - 1;
      assert all[..n + 1] == [p] + ps[..n];
      TotalSizeCons(p, ps[..n]);
    }
  }

  /** The bytes of a window, however many blocks it has. */
  lemma {:induction false} WindowTotal(f: seq<Byte>, blockSize: nat, first: nat, w: nat, end: nat)
    requires blockSize > 0 && 1 <= first <= BlockCount(|f|, blockSize) && end == first + w
    ensures TotalSize(Window(f, Offset(blockSize, first), blockSize, w)) ==
            Min(Offset(blockSize, end), |f|) - Offset(blockSize, first)
    decreases w
  {
    CountIff(|f|, blockSize, first);
    if w > 0 {
      var next, w1 := first + 1, w - 1;
      var p, pos, after := Block(f, blockSize, first), Offset(blockSize, first), Offset(blockSize, next);
      BlockLengths(f, blockSize, first);
      WindowOpens(f, pos, after, blockSize, w, w1);
      if |p| == blockSize {
        WindowTotal(f, blockSize, next, w1, end);
        TotalSizeCons(p, Window(f, after, blockSize, w1));
      } else {
        TotalSizeCons(p, []);
        assert [p] + [] == [p];
        OffsetGrows(blockSize, next, end);
      }
    }
  }

  /** A plan goes out whole exactly if every send works and the limit has room for all of it. */
  lemma {:induction false} TransmitAll(cfg: Config, plan: seq<seq<Byte>>, bytes: nat, sendsOk: nat)
    requires !cfg.OverLimit(bytes)
    ensures var p := Transmit(cfg, plan, bytes, sendsOk);
            && (p.error == ERR_NO_ERROR <==> sendsOk >= |plan| && !cfg.OverLimit(bytes + TotalSize(plan)))
            && (p.error == ERR_NO_ERROR ==> p.bytes == bytes + TotalSize(plan))
    decreases |plan|
  {
    if plan != [] && sendsOk > 0 {
      var total, sends := bytes + |plan[0]|, sendsOk - 1;
      assert plan == [plan[0]] + plan[1..];
      TotalSizeCons(plan[0], plan[1..]);
      LimitMonotone(cfg, total, bytes + TotalSize(plan));
      if !cfg.OverLimit(total) {
        TransmitAll(cfg, plan[1..], total, sends);
      }
    }
  }

  lemma PlanBytes(f: seq<Byte>, s: State, plan: seq<seq<Byte>>)
    requires Serves(f, s) && 1 <= s.first <= LastBlock(f, s) && SeekFits(s.blockSize, s.first)
    requires plan == Plan(Rewind(s))
    ensures TotalSize(plan) == WindowBytes(f, s)
  {
    SeekIsExact(f, s);
  }

  lemma PlanGoesOut(cfg: Config, s: State, env: Env, plan: seq<seq<Byte>>, total: nat)
    requires s.file.Some? && plan == Plan(Rewind(s)) && total == s.bytesHandled + TotalSize(plan)
    requires s.error == ERR_NO_ERROR && !cfg.OverLimit(s.bytesHandled)
    ensures var t := SendWindow(cfg, s, env).0;
            && (t.error == ERR_NO_ERROR <==> env.sendsOk >= |plan| && !cfg.OverLimit(total))
            && (t.error == ERR_NO_ERROR ==> t.bytesHandled == total)
  {
    TransmitAll(cfg, plan, s.bytesHandled, env.sendsOk);
  }

  /** A window is sent without an error exactly if every send works and the limit has room for its bytes. */
  lemma WholeWindow(cfg: Config, f: seq<Byte>, s: State, env: Env)
    requires Serves(f, s) && 1 <= s.first <= LastBlock(f, s) && SeekFits(s.blockSize, s.first)
    requires s.error == ERR_NO_ERROR && !cfg.OverLimit(s.bytesHandled)
    ensures SendWindow(cfg, s, env).0.error == ERR_NO_ERROR <==>
            && env.sendsOk >= Min(s.windowSize, LastBlock(f, s) - s.first + 1)
            && !cfg.OverLimit(s.bytesHandled + WindowBytes(f, s))
    ensures SendWindow(cfg, s, env).0.error == ERR_NO_ERROR ==>
            SendWindow(cfg, s, env).0.bytesHandled == s.bytesHandled + WindowBytes(f, s)
  {
    var plan := Plan(Rewind(s));
    PlanIsBlocks(f, s, plan);
    PlanBytes(f, s, plan);
    PlanGoesOut(cfg, s, env, plan, s.bytesHandled + WindowBytes(f, s));
  }

  // ---- one round

  /** The packet of this round is an acknowledgement the window accepts. */
  predicate Acked(s: State, ev: Event) {
    var d := Cut(s, ev.bytes);
    HasOp(d, OP_ACK) && AcceptsAck(s, d)
  }

  /** This round is an expired timeout that leads to a resend. */
  predicate Resends(cfg: Config, s: State, ev: Event) {
    ev.bytes == [] && Expired(s, ev.env.now) && s.retry + 1 < cfg.retryMax
  }

  /** Before the end of the file an accepted acknowledgement makes the session send from behind it. */
  lemma AckSends(cfg: Config, s: State, ev: Event, s1: State)
    requires cfg.Consistent() && WellFormed(s) && Acked(s, ev) && !s.readDone
    requires s1 == s.(first := BlockNr(Cut(s, ev.bytes)) + 1)
    ensures Step(cfg, s, ev) == WindowRound(cfg, s1, ev.env)
  {
  }

  /** Whatever this round seeks, the product fits. */
  predicate SeekFitsIn(s: State, ev: Event) {
    && SeekFits(s.blockSize, s.first)
    && (Acked(s, ev) && !s.readDone ==> SeekFits(s.blockSize, BlockNr(Cut(s, ev.bytes)) + 1))
  }

  predicate OnlyBlocks(f: seq<Byte>, s: State, out: seq<Packet>) {
    s.blockSize > 0 &&
    forall i :: 0 <= i < |out| && out[i].Data? ==>
      i < s.windowSize && s.first + i <= LastBlock(f, s) && Carries(f, s.blockSize, out[i], s.first + i)
  }

  /** A round's end: still the same file, only blocks of the window were sent, the base is `first`, and a
      session that goes on is in a window. */
  predicate EndsRound(f: seq<Byte>, r: Outcome, first: int, done: bool) {
    && Serves(f, r.s) && OnlyBlocks(f, r.s, r.sent)
    && (r.alive ==> InWindow(f, r.s))
    && r.s.first == first && r.s.transferDone == done
  }

  lemma QuietEffect(f: seq<Byte>, s: State, env: Env)
    requires Serves(f, s)
    requires s.error == ERR_NO_ERROR && !s.transferDone ==> InWindow(f, s)
    ensures EndsRound(f, Settle(s, [], env), s.first, s.transferDone)
  {
  }

  /** The checks behind a window that sent blocks of it. */
  lemma SentSettles(f: seq<Byte>, s: State, t: State, out: seq<Packet>, env: Env)
    requires Serves(f, t) && SameShape(s, t) && s.blockSize > 0 && t.first == s.first && !t.transferDone
    requires |out| <= Min(s.windowSize, LastBlock(f, s) - s.first + 1)
    requires forall i :: 0 <= i < |out| ==> Carries(f, s.blockSize, out[i], s.first + i)
    requires t.error == ERR_NO_ERROR ==> InWindow(f, t)
    ensures EndsRound(f, Settle(t, out, env), s.first, false)
  {
  }

  lemma SendEffect(cfg: Config, f: seq<Byte>, s: State, env: Env)
    requires Serves(f, s) && 1 <= s.first <= 0x1_0000 && s.first <= LastBlock(f, s)
    requires SeekFits(s.blockSize, s.first)
    requires s.error == ERR_NO_ERROR && !s.transferDone
    requires s.readDone ==> LastBlock(f, s) <= s.first - 1 + s.windowSize
    ensures EndsRound(f, WindowRound(cfg, s, env), s.first, false)
  {
    WindowSent(cfg, f, s, env);
    SentSettles(f, s, SendWindow(cfg, s, env).0, SendWindow(cfg, s, env).1, env);
  }

  lemma TimeoutEffect(cfg: Config, f: seq<Byte>, s: State, env: Env)
    requires InWindow(f, s) && SeekFits(s.blockSize, s.first)
    ensures EndsRound(f, TimeoutRound(cfg, s, env), s.first, false)
  {
    if Expired(s, env.now) && s.retry + 1 < cfg.retryMax {
      RetryResends(cfg, s, s.(retry := s.retry + 1), env);
      SendEffect(cfg, f, s.(retry := s.retry + 1), env);
    } else {
      QuietEffect(f, s, env);
    }
  }

  /** Anything but an accepted acknowledgement at most sets the error. */
  lemma RejectedEffect(cfg: Config, f: seq<Byte>, s: State, d: Datagram, env: Env)
    requires cfg.Consistent() && InWindow(f, s) && d != []
    requires !(HasOp(d, OP_ACK) && AcceptsAck(s, d))
    ensures var (t, out) := OnPacket(cfg, s, d, env);
            out == [] && t == s.(error := t.error, bytesHandled := t.bytesHandled) && t.bytesHandled == s.bytesHandled
    ensures EndsRound(f, PacketRound(cfg, s, d, env), s.first, false)
  {
    QuietEffect(f, OnPacket(cfg, s, d, env).0, env);
  }

  lemma AckedEffect(cfg: Config, f: seq<Byte>, s: State, d: Datagram, env: Env)
    requires cfg.Consistent() && InWindow(f, s) && HasOp(d, OP_ACK) && AcceptsAck(s, d)
    requires s.readDone || SeekFits(s.blockSize, BlockNr(d) + 1)
    ensures EndsRound(f, PacketRound(cfg, s, d, env), BlockNr(d) + 1, s.readDone)
  {
    var s1 := s.(first := BlockNr(d) + 1);
    if s.readDone {
      QuietEffect(f, s1.(transferDone := true), env);
    } else {
      SendEffect(cfg, f, s1, env);
    }
  }

  /** What one round of a download does, whatever the packet: the base moves only to just behind an
      accepted acknowledgement, the transfer is done exactly when that happens after the end of the file
      was read, every DATA packet sent is a block of the new window, and a session that goes on is
      still in a window. */
  lemma StepEffect(cfg: Config, f: seq<Byte>, s: State, ev: Event)
    requires cfg.Consistent() && InWindow(f, s) && SeekFitsIn(s, ev)
    ensures EndsRound(f, Step(cfg, s, ev),
                      if Acked(s, ev) then BlockNr(Cut(s, ev.bytes)) + 1 else s.first,
                      Acked(s, ev) && s.readDone)
    ensures Acked(s, ev) ==> BlockNr(Cut(s, ev.bytes)) + 1 > s.first
  {
    var d := Cut(s, ev.bytes);
    if d == [] {
      TimeoutEffect(cfg, f, s, ev.env);
    } else if Acked(s, ev) {
      AckedEffect(cfg, f, s, d, ev.env);
    } else {
      RejectedEffect(cfg, f, s, d, ev.env);
    }
  }

  // ---- seeks to come

  /** The blocks up to the end of the window are within the byte limit. */
  predicate WindowPaid(cfg: Config, f: seq<Byte>, s: State)
    requires s.first >= 1
  {
    !cfg.OverLimit(s.bytesHandled) && s.bytesHandled >= Offset(s.blockSize, s.first) + WindowBytes(f, s)
  }

  /** The seeks of a session fit, now and later: the base is near enough, and so is every base to come, if there
      is any: 16-bit numbers reach no further, or a limit, an `int` itself, ends the session before. */
  predicate SeeksFit(cfg: Config, f: seq<Byte>, s: State) {
    && s.blockSize > 0 && s.first >= 1 && SeekFits(s.blockSize, s.first)
    && (s.readDone || SeekFits(s.blockSize, Min(LastBlock(f, s), 0x1_0000)) || (cfg.limit > 0 && WindowPaid(cfg, f, s)))
  }

  lemma NearerFits(blockSize: nat, base: nat, far: nat)
    requires base <= far && SeekFits(blockSize, far)
    ensures SeekFits(blockSize, base)
  {
    if base >= 1 { MulMono(base - 1, far - 1, blockSize); }
  }

  /** What a limit has room for is near enough. */
  lemma PaidFits(cfg: Config, f: seq<Byte>, s: State, next: nat)
    requires InWindow(f, s) && !s.readDone && cfg.limit > 0 && WindowPaid(cfg, f, s)
    requires s.first <= next <= s.first + s.windowSize
    ensures s.bytesHandled >= Offset(s.blockSize, next) && SeekFits(s.blockSize, next)
  {
    var end := s.first + s.windowSize;
    WindowTotal(f, s.blockSize, s.first, s.windowSize, end);
    CountIff(|f|, s.blockSize, end);
    OffsetGrows(s.blockSize, next, end);
    OffsetIsProduct(s.blockSize, next);
  }

  lemma NextSeekFits(cfg: Config, f: seq<Byte>, s: State, ev: Event)
    requires InWindow(f, s) && SeeksFit(cfg, f, s)
    ensures SeekFitsIn(s, ev)
  {
    if Acked(s, ev) && !s.readDone {
      var next := BlockNr(Cut(s, ev.bytes)) + 1;
      if SeekFits(s.blockSize, Min(LastBlock(f, s), 0x1_0000)) {
        NearerFits(s.blockSize, next, Min(LastBlock(f, s), 0x1_0000));
      } else {
        PaidFits(cfg, f, s, next);
      }
    }
  }

  /** A window sent within the limit is paid for, if the way to its base is. */
  lemma WindowStaysPaid(cfg: Config, f: seq<Byte>, s: State, env: Env)
    requires Serves(f, s) && 1 <= s.first <= LastBlock(f, s) && SeekFits(s.blockSize, s.first)
    requires s.error == ERR_NO_ERROR && !s.transferDone
    requires !cfg.OverLimit(s.bytesHandled) && s.bytesHandled >= Offset(s.blockSize, s.first)
    ensures var r := WindowRound(cfg, s, env); r.alive ==> r.s.first == s.first && WindowPaid(cfg, f, r.s)
  {
    WholeWindow(cfg, f, s, env);
    WindowSent(cfg, f, s, env);
  }

  lemma AckedSeeks(cfg: Config, f: seq<Byte>, s: State, ev: Event)
    requires cfg.Consistent() && InWindow(f, s) && SeeksFit(cfg, f, s) && Acked(s, ev)
    ensures var r := Step(cfg, s, ev); r.alive ==> SeeksFit(cfg, f, r.s)
  {
    NextSeekFits(cfg, f, s, ev);
    StepEffect(cfg, f, s, ev);
    var next := BlockNr(Cut(s, ev.bytes)) + 1;
    if !s.readDone && !SeekFits(s.blockSize, Min(LastBlock(f, s), 0x1_0000)) {
      var s1 := s.(first := next);
      AckSends(cfg, s, ev, s1);
      PaidFits(cfg, f, s, next);
      WindowStaysPaid(cfg, f, s1, ev.env);
    }
  }

  lemma TimeoutSeeks(cfg: Config, f: seq<Byte>, s: State, env: Env)
    requires InWindow(f, s) && SeeksFit(cfg, f, s)
    ensures var r := TimeoutRound(cfg, s, env); r.alive ==> SeeksFit(cfg, f, r.s)
  {
    TimeoutEffect(cfg, f, s, env);
    if Expired(s, env.now) && s.retry + 1 < cfg.retryMax {
      var s1 := s.(retry := s.retry + 1);
      RetryResends(cfg, s, s1, env);
      if cfg.limit > 0 && WindowPaid(cfg, f, s) { WindowStaysPaid(cfg, f, s1, env); }
    }
  }

  /** One round of a session whose seeks fit, and they still do behind it. */
  lemma StepKeeps(cfg: Config, f: seq<Byte>, s: State, ev: Event)
    requires cfg.Consistent() && InWindow(f, s) && SeeksFit(cfg, f, s)
    ensures SeekFitsIn(s, ev)
    ensures EndsRound(f, Step(cfg, s, ev),
                      if Acked(s, ev) then BlockNr(Cut(s, ev.bytes)) + 1 else s.first,
                      Acked(s, ev) && s.readDone)
    ensures Acked(s, ev) ==> BlockNr(Cut(s, ev.bytes)) + 1 > s.first
    ensures Step(cfg, s, ev).alive ==> SeeksFit(cfg, f, Step(cfg, s, ev).s)
  {
    var d := Cut(s, ev.bytes);
    NextSeekFits(cfg, f, s, ev);
    StepEffect(cfg, f, s, ev);
    if d == [] {
      TimeoutSeeks(cfg, f, s, ev.env);
    } else if Acked(s, ev) {
      AckedSeeks(cfg, f, s, ev);
    } else {
      RejectedEffect(cfg, f, s, d, ev.env);
    }
  }

  // ---- whole runs

  /** The invariant of a download from its first window to its end. */
  predicate Sound(cfg: Config, f: seq<Byte>, o: Outcome) {
    Serves(f, o.s) && (o.alive ==> InWindow(f, o.s) && SeeksFit(cfg, f, o.s))
  }

  lemma {:induction false} RunSound(cfg: Config, f: seq<Byte>, o: Outcome, events: seq<Event>)
    requires cfg.Consistent() && Sound(cfg, f, o)
    ensures Sound(cfg, f, Run(cfg, o, events))
    decreases |events|
  {
    if events != [] {
      var n := |events| - 1;
      RunSound(cfg, f, o, events[..n]);
      var r := Run(cfg, o, events[..n]);
      if r.alive { StepKeeps(cfg, f, r.s, events[n]); }
    }
  }

  lemma {:induction false} RunShape(cfg: Config, f: seq<Byte>, o: Outcome, events: seq<Event>)
    requires cfg.Consistent() && Sound(cfg, f, o)
    ensures SameShape(o.s, Run(cfg, o, events).s)
    decreases |events|
  {
    if events != [] {
      var n := |events| - 1;
      RunSound(cfg, f, o, events[..n]);
      RunShape(cfg, f, o, events[..n]);
    }
  }

  /** The window base lies within the file, and until the end was read so does the whole window. */
  predicate BaseWithin(f: seq<Byte>, s: State) {
    && 1 <= s.first <= 0x1_0000
    && (s.first - 1) * s.blockSize <= |f|
    && (!s.readDone ==> (s.first - 1 + s.windowSize) * s.blockSize <= |f|)
  }

  lemma BaseInFile(f: seq<Byte>, s: State)
    requires InWindow(f, s)
    ensures BaseWithin(f, s)
  {
    CountIff(|f|, s.blockSize, s.first);
    OffsetIsProduct(s.blockSize, s.first);
    if !s.readDone {
      var next := s.first + s.windowSize;
      CountIff(|f|, s.blockSize, next);
      OffsetIsProduct(s.blockSize, next);
    }
  }

  /** So it is in every reachable state of an error-free, unfinished download, over all acknowledgements,
      duplicates and timeouts; and the product of every seek fits in 31 bits. */
  lemma WindowBase(cfg: Config, f: seq<Byte>, o: Outcome, events: seq<Event>, s: State)
    requires cfg.Consistent() && Sound(cfg, f, o)
    requires Run(cfg, o, events).alive && s == Run(cfg, o, events).s
    ensures BaseWithin(f, s) && SeekFits(s.blockSize, s.first)
  {
    RunSound(cfg, f, o, events);
    BaseInFile(f, s);
  }

  /** While the end of the file was not read, an accepted acknowledgement names a block that was sent,
      and not the last one. */
  lemma AckNamesSentBlock(f: seq<Byte>, s: State, ev: Event)
    requires InWindow(f, s) && !s.readDone && Acked(s, ev)
    ensures s.first <= BlockNr(Cut(s, ev.bytes)) < LastBlock(f, s)
  {
  }

  /** Behind block 65535 no acknowledgement is accepted any more: the transfer never completes. */
  lemma {:induction false} DeadEnd(cfg: Config, f: seq<Byte>, o: Outcome, events: seq<Event>)
    requires cfg.Consistent() && Sound(cfg, f, o) && o.s.first == 0x1_0000 && !o.s.transferDone
    ensures var r := Run(cfg, o, events);
            r.s.first == 0x1_0000 && !r.s.transferDone
    decreases |events|
  {
    if events != [] {
      var n := |events| - 1;
      DeadEnd(cfg, f, o, events[..n]);
      RunSound(cfg, f, o, events[..n]);
      var r := Run(cfg, o, events[..n]);
      if r.alive { StepKeeps(cfg, f, r.s, events[n]); }
    }
  }

  lemma LastReach(f: seq<Byte>, s: State)
    requires InWindow(f, s) && s.readDone && s.first <= 65535
    ensures |f| < (65534 + s.windowSize) * s.blockSize
  {
    var reached := 65535 + s.windowSize;
    CountIff(|f|, s.blockSize, reached);
    OffsetIsProduct(s.blockSize, reached);
  }

  lemma ReachRound(cfg: Config, f: seq<Byte>, s: State, ev: Event, w: nat, b: nat)
    requires cfg.Consistent() && InWindow(f, s) && SeeksFit(cfg, f, s) && s.windowSize == w && s.blockSize == b
    ensures Step(cfg, s, ev).s.transferDone ==> |f| < (65534 + w) * b
  {
    StepKeeps(cfg, f, s, ev);
    if Acked(s, ev) && s.readDone { LastReach(f, s); }
  }

  /** A completed download moved a file that the 16-bit numbers can reach: with a window of one block,
      shorter than 65535 blocks. */
  lemma {:induction false} Reach(cfg: Config, f: seq<Byte>, o: Outcome, events: seq<Event>)
    requires cfg.Consistent() && Sound(cfg, f, o) && !o.s.transferDone
    ensures Run(cfg, o, events).s.transferDone ==> |f| < (65534 + o.s.windowSize) * o.s.blockSize
    decreases |events|
  {
    if events != [] {
      var n, w, b := |events| - 1, o.s.windowSize, o.s.blockSize;
      var r := Run(cfg, o, events[..n]);
      Reach(cfg, f, o, events[..n]);
      RunSound(cfg, f, o, events[..n]);
      RunShape(cfg, f, o, events[..n]);
      if r.alive { ReachRound(cfg, f, r.s, events[n], w, b); }
    }
  }
}
