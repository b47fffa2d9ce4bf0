/** When "transfer done" can be trusted: an acknowledgement inside the last window ends a download too, if
    the session can get that far on its byte limit and on 16-bit numbers. */
module DownloadExact {
  import opened Wire
  import opened Settings
  import opened Blocks
  import opened Protocol
  import opened DownloadLaws
  import opened DownloadTotals
  import opened Network
  import opened DownloadSystem

  // ---- what it costs to reach a base

  /** The smallest multiple of `w` that is at least `n`. */
  function RoundUp(w: nat, n: nat): nat
    requires w > 0
  {
    if n == 0 then 0 else if n <= w then w else w + RoundUp(w, n - w)
  }

  /** The largest multiple of `w` that is at most `n`. */
  function RoundDown(w: nat, n: nat): nat
    requires w > 0
  {
    if n < w then 0 else w + RoundDown(w, n - w)
  }

  lemma {:induction false} RoundUpBounds(w: nat, n: nat)
    requires w > 0
    ensures n <= RoundUp(w, n) < n + w
  {
    if n > w { RoundUpBounds(w, n - w); }
  }

  lemma {:induction false} RoundUpGrows(w: nat, m: nat, n: nat)
    requires w > 0 && m <= n <= m + w
    ensures RoundUp(w, m) <= RoundUp(w, n) <= RoundUp(w, m) + w
  {
    if m > w {
      RoundUpGrows(w, m - w, n - w);
    } else if n > w {
      assert RoundUp(w, n - w) <= w;
    }
  }

  lemma {:induction false} RoundDownBounds(w: nat, n: nat)
    requires w > 0
    ensures RoundDown(w, n) <= n < RoundDown(w, n) + w
    ensures RoundUp(w, RoundDown(w, n)) == RoundDown(w, n)
  {
    if n >= w {
      RoundDownBounds(w, n - w);
      assert n == w ==> RoundDown(w, n - w) == 0;
    }
  }

  /** Between two multiples all numbers round up alike. */
  lemma {:induction false} RoundUpAlike(w: nat, n: nat, m: nat)
    requires w > 0 && RoundDown(w, n) < m <= n
    ensures RoundUp(w, m) == RoundDown(w, n) + w
  {
    if n >= w { RoundUpAlike(w, n - w, m - w); }
  }

  /** Bytes of the window at base `first`. */
  function Span(c: Setup, first: nat): nat
    requires first >= 1
  {
    TotalSize(Window(c.file, Offset(c.blockSize, first), c.blockSize, c.windowSize))
  }

  /** What any session has sent by the time its window stands at base `first`, and the cheapest has just sent:
      whole windows up to there, and this one. */
  function Cost(c: Setup, first: nat): nat
    requires c.Ok() && first >= 1
  {
    RoundUp(c.windowSize, first - 1) * c.blockSize + Span(c, first)
  }

  lemma OffsetsApart(c: Setup, first: nat, end: nat)
    requires c.Ok() && 1 <= first && end == first + c.windowSize
    ensures Offset(c.blockSize, end) == Offset(c.blockSize, first) + c.windowSize * c.blockSize
    ensures Offset(c.blockSize, first) == (first - 1) * c.blockSize
  {
    OffsetIsProduct(c.blockSize, first);
    OffsetIsProduct(c.blockSize, end);
    Spread(first - 1, c.windowSize, c.blockSize);
  }

  lemma SpanIs(c: Setup, first: nat)
    requires c.Ok() && 1 <= first <= c.Last()
    ensures Span(c, first) <= c.windowSize * c.blockSize
    ensures first - 1 + c.windowSize < c.Last() ==> Span(c, first) == c.windowSize * c.blockSize
    ensures c.Last() <= first - 1 + c.windowSize ==> Span(c, first) == |c.file| - (first - 1) * c.blockSize
  {
    var end := first + c.windowSize;
    WindowTotal(c.file, c.blockSize, first, c.windowSize, end);
    CountIff(|c.file|, c.blockSize, end);
    OffsetsApart(c, first, end);
  }

  /** Moving the base out of a full window costs what the new window does, or more. */
  lemma CostGrows(c: Setup, first: nat, next: nat, bytes: nat)
    requires c.Ok() && 1 <= first < next <= c.Last() && next <= first + c.windowSize
    requires first - 1 + c.windowSize < c.Last() && bytes >= Cost(c, first)
    ensures bytes + Span(c, next) >= Cost(c, next)
  {
    var before, after := RoundUp(c.windowSize, first - 1), RoundUp(c.windowSize, next - 1);
    SpanIs(c, first);
    RoundUpGrows(c.windowSize, first - 1, next - 1);
    MulMono(after, before + c.windowSize, c.blockSize);
    Spread(before, c.windowSize, c.blockSize);
  }

  // ---- no session gets anywhere cheaper

  ghost predicate Charged(c: Setup, s: State) {
    && c.Ok() && SeeksFit(c.cfg, c.file, s)
    && InWindow(c.file, s) && s.blockSize == c.blockSize && s.windowSize == c.windowSize
    && !c.cfg.OverLimit(s.bytesHandled) && s.bytesHandled >= Cost(c, s.first)
  }

  /** The session ended by an acknowledgement while its last window stood at base `first`. */
  predicate EndedFrom(c: Setup, s: State, first: nat) {
    && c.Ok() && 1 <= first < s.first <= 0x1_0000
    && first <= c.Last() <= first - 1 + c.windowSize && !c.cfg.OverLimit(Cost(c, first))
  }

  lemma ResentCharged(c: Setup, s: State, ev: Event)
    requires Charged(c, s) && Resends(c.cfg, s, ev)
    ensures var r := Step(c.cfg, s, ev); r.alive ==> Charged(c, r.s)
  {
    StepKeeps(c.cfg, c.file, s, ev);
    ResendingRound(c.cfg, c.file, s, ev.env);
  }

  lemma AckedCharged(c: Setup, s: State, ev: Event)
    requires Charged(c, s) && Acked(s, ev) && !s.readDone
    ensures var r := Step(c.cfg, s, ev); r.alive ==> Charged(c, r.s)
  {
    var d := Cut(s, ev.bytes);
    var next := BlockNr(d) + 1;
    var s1 := s.(first := next);
    StepKeeps(c.cfg, c.file, s, ev);
    AckSends(c.cfg, s, ev, s1);
    ResendSettles(c.cfg, c.file, s1, ev.env);
    CostGrows(c, s.first, next, s.bytesHandled);
  }

  lemma StepCharged(c: Setup, s: State, ev: Event)
    requires Charged(c, s)
    ensures var r := Step(c.cfg, s, ev);
            && (r.alive ==> Charged(c, r.s))
            && (r.s.transferDone ==> !r.alive && EndedFrom(c, r.s, s.first))
  {
    StepKeeps(c.cfg, c.file, s, ev);
    if Acked(s, ev) {
      if s.readDone {
        LimitMonotone(c.cfg, Cost(c, s.first), s.bytesHandled);
      } else {
        AckedCharged(c, s, ev);
      }
    } else if Resends(c.cfg, s, ev) {
      ResentCharged(c, s, ev);
    } else {
      QuietRound(c.cfg, c.file, s, ev);
    }
  }

  ghost predicate Tolled(c: Setup, sys: System) {
    && (sys.alive ==> Charged(c, sys.srv))
    && (sys.srv.transferDone ==> !sys.alive && exists first :: EndedFrom(c, sys.srv, first))
  }

  lemma {:induction false} ReachableTolled(c: Setup, start: System, sys: System, steps: nat)
    requires Init(c, start) && ReachableIn(c, start, sys, steps)
    ensures Tolled(c, sys)
    decreases steps
  {
    if steps > 0 {
      var prev, a := LastMove(c, start, sys, steps, steps - 1);
      ReachableTolled(c, start, prev, steps - 1);
      if a.ServerHears? { StepCharged(c, prev.srv, a.ev); }
    } else {
      assert RoundUp(c.windowSize, 0) * c.blockSize == 0;
    }
  }

  /** A base from which an acknowledgement short of the last block ends the session. */
  predicate EarlyEnd(c: Setup, first: nat) {
    && c.Ok() && 1 <= first <= 65535 && first < c.Last() <= first - 1 + c.windowSize
    && !c.cfg.OverLimit(Cost(c, first))
  }

  lemma DoneWithoutEarlyEnd(c: Setup, start: System, sys: System)
    requires Init(c, start) && Reachable(c, start, sys) && sys.srv.transferDone
    requires forall first :: !EarlyEnd(c, first)
    ensures sys.done
  {
    var steps := InSteps(c, start, sys);
    ReachableTolled(c, start, sys, steps);
    var first :| EndedFrom(c, sys.srv, first);
    assert !EarlyEnd(c, first);
    ReachableInv(c, start, sys, steps);
  }

  // ---- two bases are enough to look at

  /** The highest base with an acknowledgement short of the last block. */
  function Top(c: Setup): int {
    if c.Last() > 0x1_0000 then 65535 else c.Last() - 1
  }

  /** The highest such base behind whole windows. */
  function Aligned(c: Setup): int
    requires c.Ok()
  {
    if Top(c) < 1 then 1 else RoundDown(c.windowSize, Top(c) - 1) + 1
  }

  predicate EndsEarly(c: Setup)
    requires c.Ok()
  {
    c.Last() >= 2 && (EarlyEnd(c, Top(c)) || EarlyEnd(c, Aligned(c)))
  }

  /** The cost of a base whose window reaches the end: the file, and the blocks before the base sent twice. */
  lemma CostIs(c: Setup, first: nat, twice: nat)
    requires c.Ok() && 1 <= first <= c.Last() <= first - 1 + c.windowSize
    requires RoundUp(c.windowSize, first - 1) == first - 1 + twice
    ensures Cost(c, first) == |c.file| + twice * c.blockSize
  {
    SpanIs(c, first);
    Spread(first - 1, twice, c.blockSize);
  }

  lemma TwoBasesEnough(c: Setup, first: nat)
    requires EarlyEnd(c, first)
    ensures EndsEarly(c)
  {
    var w, top, low := c.windowSize, Top(c), Aligned(c);
    RoundDownBounds(w, top - 1);
    RoundUpBounds(w, first - 1);
    var twice := RoundUp(w, first - 1) - (first - 1);
    CostIs(c, first, twice);
    if c.Last() <= low - 1 + w {
      CostIs(c, low, 0);
      MulMono(0, twice, c.blockSize);
      LimitMonotone(c.cfg, Cost(c, low), Cost(c, first));
    } else {
      RoundUpAlike(w, top - 1, first - 1);
      RoundUpAlike(w, top - 1, top - 1);
      CostIs(c, top, low - 1 + w - (top - 1));
      MulMono(low - 1 + w - (top - 1), twice, c.blockSize);
      LimitMonotone(c.cfg, Cost(c, top), Cost(c, first));
    }
  }

  // ---- how to get there

  ghost predicate WindowUnderWay(c: Setup, ds: set<Datagram>, first: int) {
    forall n :: first <= n <= c.Last() && n <= first - 1 + c.windowSize ==> BlockDatagram(c, n) in ds
  }

  /** What the client has taken are the blocks of the file. */
  predicate Holds(c: Setup, sys: System) {
    sys.got == UpTo(c.file, c.blockSize, sys.blocks)
  }

  /** A reachable state in which client and server agree on the blocks before base `first`, the window there is
      under way, and no byte more than necessary was sent. */
  ghost predicate Stage(c: Setup, start: System, sys: System, first: nat) {
    && c.Ok() && SeekFits(c.blockSize, first) && Reachable(c, start, sys) && sys.alive
    && InWindow(c.file, sys.srv) && sys.srv.blockSize == c.blockSize && sys.srv.windowSize == c.windowSize
    && 1 <= first == sys.srv.first <= c.Last() && sys.blocks == first - 1 && !sys.done
    && Holds(c, sys) && WindowUnderWay(c, sys.toClient, first)
    && sys.srv.bytesHandled == Cost(c, first) && !c.cfg.OverLimit(sys.srv.bytesHandled)
  }

  lemma TakeOne(c: Setup, sys: System, n: nat, d: Datagram)
    requires c.Ok() && WellFormed(sys.srv) && !sys.done && n == sys.blocks + 1 <= c.Last() && d == BlockDatagram(c, n)
    ensures var next := Apply(c, sys, ClientHears(d));
            && next == sys.(blocks := n, got := next.got, done := n == c.Last())
            && (Holds(c, sys) ==> Holds(c, next))
  {
    EncodedFields(Data(Word(n), Block(c.file, c.blockSize, n)));
    BlockLengths(c.file, c.blockSize, n);
    UpToNext(c.file, c.blockSize, sys.blocks);
  }

  /** The client takes the blocks that are under way one after the other, up to block `m`. */
  lemma {:induction false} TakeUpTo(c: Setup, start: System, sys: System, m: nat) returns (next: System)
    requires c.Ok() && Reachable(c, start, sys) && WellFormed(sys.srv) && !sys.done && sys.blocks <= m < c.Last()
    requires forall n :: sys.blocks < n <= m ==> BlockDatagram(c, n) in sys.toClient
    ensures Reachable(c, start, next) && next == sys.(blocks := m, got := next.got)
    ensures Holds(c, sys) ==> Holds(c, next)
    decreases m - sys.blocks
  {
    if sys.blocks == m {
      next := sys;
    } else {
      var n := sys.blocks + 1;
      var d := BlockDatagram(c, n);
      TakeOne(c, sys, n, d);
      ReachStep(c, start, sys, ClientHears(d));
      next := TakeUpTo(c, start, Apply(c, sys, ClientHears(d)), m);
    }
  }

  /** It does so and acknowledges. */
  lemma TakeAndAck(c: Setup, start: System, sys: System, m: nat) returns (next: System)
    requires c.Ok() && Reachable(c, start, sys) && WellFormed(sys.srv) && !sys.done && sys.blocks <= m < c.Last()
    requires forall n :: sys.blocks < n <= m ==> BlockDatagram(c, n) in sys.toClient
    ensures Reachable(c, start, next)
    ensures next == sys.(blocks := m, got := next.got, toServer := sys.toServer + {Encode(Ack(Word(m)))})
    ensures Holds(c, sys) ==> Holds(c, next)
  {
    var mid := TakeUpTo(c, start, sys, m);
    ReachStep(c, start, mid, ClientAcks);
    next := Apply(c, mid, ClientAcks);
  }

  /** The server hears what is under way. */
  lemma Hear(c: Setup, start: System, sys: System, ev: Event, r: Outcome) returns (next: System)
    requires c.Ok() && Reachable(c, start, sys) && sys.alive && WellFormed(sys.srv)
    requires ev.bytes in sys.toServer && r == Step(c.cfg, sys.srv, ev)
    ensures Reachable(c, start, next)
    ensures next == sys.(srv := r.s, alive := r.alive, toClient := sys.toClient + OnTheWire(r.sent))
  {
    ReachStep(c, start, sys, ServerHears(ev));
    next := Apply(c, sys, ServerHears(ev));
  }

  /** A working socket, at any time. */
  function Quiet(w: nat): Env {
    Env(0, w, true, None)
  }

  lemma AckIsAccepted(c: Setup, s: State, n: nat, ev: Event)
    requires InWindow(c.file, s) && s.blockSize == c.blockSize && s.windowSize == c.windowSize
    requires s.first <= n <= 65535 && n <= s.first - 1 + c.windowSize
    requires ev == Event(Encode(Ack(Word(n))), Quiet(c.windowSize))
    ensures Acked(s, ev) && Cut(s, ev.bytes) == ev.bytes && BlockNr(ev.bytes) == n
  {
    EncodedFields(Ack(Word(n)));
  }

  /** With room for its bytes the next window goes out in full. */
  lemma WindowGoesOut(c: Setup, s: State, env: Env, first: nat)
    requires c.Ok() && SeekFits(c.blockSize, first) && Serves(c.file, s) && env.sendsOk >= c.windowSize
    requires s.blockSize == c.blockSize && s.windowSize == c.windowSize
    requires 1 <= s.first == first <= c.Last() && s.error == ERR_NO_ERROR && !s.transferDone
    requires !c.cfg.OverLimit(s.bytesHandled) && !c.cfg.OverLimit(s.bytesHandled + Span(c, first))
    ensures var r := WindowRound(c.cfg, s, env);
            && r.alive && r.s.bytesHandled == s.bytesHandled + Span(c, first)
            && WindowUnderWay(c, OnTheWire(r.sent), first)
  {
    WholeWindow(c.cfg, c.file, s, env);
    WindowSent(c.cfg, c.file, s, env);
    var r := WindowRound(c.cfg, s, env);
    forall n | first <= n <= c.Last() && n <= first - 1 + c.windowSize
      ensures BlockDatagram(c, n) in OnTheWire(r.sent)
    {
      var i := n - first;
      assert Carries(c.file, c.blockSize, r.sent[i], first + i);
    }
  }

  /** The server, hearing an acknowledgement before the end was read, moves its window there. */
  lemma ServerMovesOn(c: Setup, s: State, next: nat, ev: Event, r: Outcome)
    requires c.Ok() && InWindow(c.file, s) && !s.readDone
    requires SeekFits(c.blockSize, s.first) && SeekFits(c.blockSize, next)
    requires s.blockSize == c.blockSize && s.windowSize == c.windowSize
    requires s.first < next <= 0x1_0000 && next <= s.first + c.windowSize
    requires !c.cfg.OverLimit(s.bytesHandled) && !c.cfg.OverLimit(s.bytesHandled + Span(c, next))
    requires ev == Event(Encode(Ack(Word(next - 1))), Quiet(c.windowSize)) && r == Step(c.cfg, s, ev)
    ensures r.alive && InWindow(c.file, r.s) && r.s.first == next
    ensures r.s.blockSize == c.blockSize && r.s.windowSize == c.windowSize
    ensures r.s.bytesHandled == s.bytesHandled + Span(c, next) && WindowUnderWay(c, OnTheWire(r.sent), next)
  {
    AckIsAccepted(c, s, next - 1, ev);
    StepEffect(c.cfg, c.file, s, ev);
    var s1 := s.(first := next);
    AckSends(c.cfg, s, ev, s1);
    WindowGoesOut(c, s1, ev.env, next);
  }

  /** The base before `first` on the cheapest way there. */
  function Before(w: nat, first: nat): nat
    requires w > 0 && first > 1
  {
    if first - 1 <= w then 1 else first - w
  }

  lemma CostOnTheWay(c: Setup, prev: nat, first: nat)
    requires c.Ok() && 1 < first <= c.Last() && prev == Before(c.windowSize, first)
    ensures 1 <= prev < first <= prev + c.windowSize
    ensures RoundUp(c.windowSize, first - 1) == RoundUp(c.windowSize, prev - 1) + c.windowSize
    ensures Cost(c, prev) <= Cost(c, first)
    ensures prev - 1 + c.windowSize < c.Last() ==> Cost(c, first) == Cost(c, prev) + Span(c, first)
  {
    var w := c.windowSize;
    SpanIs(c, prev);
    Spread(RoundUp(w, prev - 1), w, c.blockSize);
  }

  /** The client has acknowledged the blocks before base `first`, from the window at `prev`. */
  ghost predicate Acknowledged(c: Setup, start: System, mid: System, prev: nat, first: nat) {
    && c.Ok() && SeekFits(c.blockSize, first) && Reachable(c, start, mid) && mid.alive
    && InWindow(c.file, mid.srv) && mid.srv.blockSize == c.blockSize && mid.srv.windowSize == c.windowSize
    && !mid.srv.readDone && 1 <= prev == mid.srv.first < first <= prev + c.windowSize && first <= c.Last()
    && mid.blocks == first - 1 && !mid.done && Holds(c, mid) && Encode(Ack(Word(first - 1))) in mid.toServer
    && !c.cfg.OverLimit(mid.srv.bytesHandled)
  }

  lemma StageFrom(c: Setup, start: System, mid: System, prev: nat, first: nat, r: Outcome, next: System)
    requires Acknowledged(c, start, mid, prev, first) && Reachable(c, start, next)
    requires Cost(c, first) == mid.srv.bytesHandled + Span(c, first) && !c.cfg.OverLimit(Cost(c, first))
    requires r.alive && InWindow(c.file, r.s) && r.s.first == first
    requires r.s.blockSize == c.blockSize && r.s.windowSize == c.windowSize
    requires r.s.bytesHandled == mid.srv.bytesHandled + Span(c, first) && WindowUnderWay(c, OnTheWire(r.sent), first)
    requires next == mid.(srv := r.s, alive := r.alive, toClient := mid.toClient + OnTheWire(r.sent))
    ensures Stage(c, start, next, first)
  {
  }

  lemma StageHears(c: Setup, start: System, mid: System, prev: nat, first: nat, ev: Event) returns (next: System)
    requires Acknowledged(c, start, mid, prev, first) && first <= 65535
    requires Cost(c, first) == mid.srv.bytesHandled + Span(c, first) && !c.cfg.OverLimit(Cost(c, first))
    requires ev == Event(Encode(Ack(Word(first - 1))), Quiet(c.windowSize))
    ensures Stage(c, start, next, first)
  {
    var r := Step(c.cfg, mid.srv, ev);
    NearerFits(c.blockSize, prev, first);
    ServerMovesOn(c, mid.srv, first, ev, r);
    next := Hear(c, start, mid, ev, r);
    StageFrom(c, start, mid, prev, first, r, next);
  }

  lemma StageMoves(c: Setup, start: System, sys: System, prev: nat, first: nat) returns (next: System)
    requires 1 < first <= c.Last() && first <= 65535 && SeekFits(c.blockSize, first)
    requires Stage(c, start, sys, prev) && prev == Before(c.windowSize, first)
    requires prev - 1 + c.windowSize < c.Last() && !c.cfg.OverLimit(Cost(c, first))
    ensures Stage(c, start, next, first)
  {
    CostOnTheWay(c, prev, first);
    var mid := TakeAndAck(c, start, sys, first - 1);
    next := StageHears(c, start, mid, prev, first, Event(Encode(Ack(Word(first - 1))), Quiet(c.windowSize)));
  }

  /** What the limit has room for is near enough to seek. */
  lemma BaseFits(c: Setup, first: nat)
    requires c.Ok() && c.Seekable() && 1 <= first <= c.Last() && first <= 0x1_0000 && !c.cfg.OverLimit(Cost(c, first))
    ensures c.Last() <= c.windowSize || SeekFits(c.blockSize, first)
  {
    if SeekFits(c.blockSize, Min(c.Last(), 0x1_0000)) {
      NearerFits(c.blockSize, first, Min(c.Last(), 0x1_0000));
    } else if c.cfg.limit > 0 {
      RoundUpBounds(c.windowSize, first - 1);
      MulMono(first - 1, RoundUp(c.windowSize, first - 1), c.blockSize);
    }
  }

  /** A base that the limit has room for can be reached, or one before it whose window already reaches the end. */
  lemma {:induction false} ReachBase(c: Setup, start: System, first: nat) returns (sys: System, at: nat)
    requires Begins(c, start) && 1 <= first <= c.Last() && first <= 65535 && !c.cfg.OverLimit(Cost(c, first))
    requires c.Last() <= c.windowSize || SeekFits(c.blockSize, first)
    ensures Stage(c, start, sys, at) && at <= first && (at == first || c.Last() <= at - 1 + c.windowSize)
    decreases first
  {
    if first == 1 {
      sys, at := start, 1;
      assert RoundUp(c.windowSize, 0) * c.blockSize == 0;
      ReachStart(c, start);
    } else {
      var prev := Before(c.windowSize, first);
      CostOnTheWay(c, prev, first);
      LimitMonotone(c.cfg, Cost(c, prev), Cost(c, first));
      if c.Last() > c.windowSize { NearerFits(c.blockSize, prev, first); }
      sys, at := ReachBase(c, start, prev);
      if at - 1 + c.windowSize < c.Last() {
        sys := StageMoves(c, start, sys, prev, first);
        at := first;
      }
    }
  }

  // ---- downloads that are completed

  /** The last block is taken like any other, and is the short one. */
  lemma TakeLast(c: Setup, start: System, sys: System) returns (next: System)
    requires c.Ok() && Reachable(c, start, sys) && WellFormed(sys.srv) && !sys.done && sys.blocks < c.Last()
    requires Holds(c, sys) && forall n :: sys.blocks < n <= c.Last() ==> BlockDatagram(c, n) in sys.toClient
    ensures Reachable(c, start, next) && next == sys.(blocks := c.Last(), got := c.file, done := true)
  {
    var last := c.Last();
    var d := BlockDatagram(c, last);
    var mid := TakeUpTo(c, start, sys, last - 1);
    TakeOne(c, mid, last, d);
    ReachStep(c, start, mid, ClientHears(d));
    next := Apply(c, mid, ClientHears(d));
    UpToAll(c.file, c.blockSize, last);
  }

  /** A server whose window reaches the end hears an acknowledgement out of it. */
  lemma EndHere(c: Setup, start: System, sys: System, first: nat, n: nat) returns (end: System)
    requires c.Ok() && SeekFits(c.blockSize, first) && Reachable(c, start, sys) && sys.alive
    requires InWindow(c.file, sys.srv)
    requires sys.srv.blockSize == c.blockSize && sys.srv.windowSize == c.windowSize && sys.srv.first == first
    requires first <= n <= c.Last() <= first - 1 + c.windowSize && n <= 65535 && Encode(Ack(n)) in sys.toServer
    ensures Reachable(c, start, end) && end.srv.transferDone && WellFormed(end.srv)
    ensures end == sys.(srv := end.srv, alive := end.alive, toClient := end.toClient)
    ensures sys.toClient <= end.toClient
  {
    var ev := Event(Encode(Ack(n)), Quiet(c.windowSize));
    AckIsAccepted(c, sys.srv, n, ev);
    StepEffect(c.cfg, c.file, sys.srv, ev);
    end := Hear(c, start, sys, ev, Step(c.cfg, sys.srv, ev));
  }

  /** The client takes the whole window, acknowledges its last block, and the server hears of it. */
  lemma FinishFrom(c: Setup, start: System, sys: System, at: nat) returns (end: System)
    requires Stage(c, start, sys, at) && c.Last() <= at - 1 + c.windowSize && c.Last() <= 65535
    ensures Reachable(c, start, end) && end.srv.transferDone && end.done && end.got == c.file
  {
    var taken := TakeLast(c, start, sys);
    ReachStep(c, start, taken, ClientAcks);
    end := EndHere(c, start, Apply(c, taken, ClientAcks), at, c.Last());
  }

  lemma FullDownload(c: Setup, start: System) returns (end: System)
    requires Init(c, start) && c.Last() <= 65535 && !c.cfg.OverLimit(|c.file|)
    ensures Reachable(c, start, end) && end.srv.transferDone && end.done && end.got == c.file
  {
    var last, w := c.Last(), c.windowSize;
    var base := RoundDown(w, last - 1) + 1;
    RoundDownBounds(w, last - 1);
    CostIs(c, base, 0);
    BaseFits(c, base);
    var sys, at := ReachBase(c, start, base);
    end := FinishFrom(c, start, sys, at);
  }

  /** From an early end the server is brought to believe in a completed transfer the client does not have, */
  lemma FalseCompletion(c: Setup, start: System, first: nat) returns (bad: System)
    requires Init(c, start) && EarlyEnd(c, first)
    ensures Reachable(c, start, bad) && bad.srv.transferDone && !bad.done
    ensures WellFormed(bad.srv) && Holds(c, bad) && bad.blocks < c.Last()
    ensures forall n :: bad.blocks < n <= c.Last() ==> BlockDatagram(c, n) in bad.toClient
  {
    BaseFits(c, first);
    var sys, at := ReachBase(c, start, first);
    var mid := TakeAndAck(c, start, sys, at);
    bad := EndHere(c, start, mid, at, at);
  }

  /** though the client can still take the rest of the window. */
  lemma LateDownload(c: Setup, start: System, first: nat) returns (end: System)
    requires Init(c, start) && EarlyEnd(c, first)
    ensures Reachable(c, start, end) && end.srv.transferDone && end.done && end.got == c.file
  {
    var bad := FalseCompletion(c, start, first);
    end := TakeLast(c, start, bad);
  }

  // ---- the theorems

  /** For every configuration and every file that can be seeked: the server's "transfer done" always means a
      complete download exactly if neither of two bases lets an acknowledgement end the session early. */
  lemma DownloadCompleteIff(c: Setup, start: System)
    requires Init(c, start)
    ensures (forall sys :: Reachable(c, start, sys) && sys.srv.transferDone ==> sys.done) <==> !EndsEarly(c)
  {
    if EndsEarly(c) {
      var bad := FalseCompletion(c, start, if EarlyEnd(c, Top(c)) then Top(c) else Aligned(c));
    } else {
      forall first: nat ensures !EarlyEnd(c, first) {
        if EarlyEnd(c, first) { TwoBasesEnough(c, first); }
      }
      forall sys | Reachable(c, start, sys) && sys.srv.transferDone ensures sys.done {
        DoneWithoutEarlyEnd(c, start, sys);
      }
    }
  }

  /** A condition on configuration and file: the server can be brought to the end of the transfer. */
  predicate CanComplete(c: Setup)
    requires c.Ok()
  {
    if c.Last() <= 65535 then !c.cfg.OverLimit(|c.file|) else EndsEarly(c)
  }

  lemma EndNeeds(c: Setup, s: State, first: nat)
    requires EndedFrom(c, s, first)
    ensures CanComplete(c)
  {
    if c.Last() <= 65535 {
      RoundUpBounds(c.windowSize, first - 1);
      var twice := RoundUp(c.windowSize, first - 1) - (first - 1);
      CostIs(c, first, twice);
      MulMono(0, twice, c.blockSize);
      LimitMonotone(c.cfg, |c.file|, Cost(c, first));
    } else {
      TwoBasesEnough(c, first);
    }
  }

  lemma DoneNeeds(c: Setup, start: System, sys: System)
    requires Init(c, start) && Reachable(c, start, sys) && sys.srv.transferDone
    ensures CanComplete(c)
  {
    var steps := InSteps(c, start, sys);
    ReachableTolled(c, start, sys, steps);
    var first :| EndedFrom(c, sys.srv, first);
    EndNeeds(c, sys.srv, first);
  }

  /** For every configuration and every file that can be seeked: a transfer can end with the server done and the
      whole file at the client exactly if the limit has room for the file; past 65535 blocks, exactly if one of the
      two bases ends it early. */
  lemma CompletionIff(c: Setup, start: System)
    requires Init(c, start)
    ensures (exists sys :: Reachable(c, start, sys) && sys.srv.transferDone && sys.done && sys.got == c.file)
            <==> CanComplete(c)
  {
    if c.Last() <= 65535 && CanComplete(c) {
      var end := FullDownload(c, start);
    } else if CanComplete(c) {
      var end := LateDownload(c, start, if EarlyEnd(c, Top(c)) then Top(c) else Aligned(c));
    } else {
      forall sys | Reachable(c, start, sys) ensures !sys.srv.transferDone {
        if sys.srv.transferDone { DoneNeeds(c, start, sys); }
      }
    }
  }

  /** If the limit has room for the file and one more window, that is: windows of one block, files of one block,
      and files too long to be completed at all. */
  lemma EndsEarlyWithRoom(c: Setup)
    requires c.Ok() && !c.cfg.OverLimit(|c.file| + c.windowSize * c.blockSize)
    ensures EndsEarly(c) <==> c.windowSize >= 2 && 2 <= c.Last() <= 65534 + c.windowSize
  {
    var w, top := c.windowSize, Top(c);
    if w >= 2 && 2 <= c.Last() <= 65534 + w {
      RoundUpBounds(w, top - 1);
      var twice := RoundUp(w, top - 1) - (top - 1);
      CostIs(c, top, twice);
      MulMono(twice, w, c.blockSize);
      MulMono(0, w, c.blockSize);
      var room := |c.file| + w * c.blockSize;
      LimitMonotone(c.cfg, Cost(c, top), room);
    }
  }
}
