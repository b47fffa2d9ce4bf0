/** What keeps a download alive: the exact causes of its end, and that no late, repeated or reordered
    acknowledgement is among them. */
module DownloadLife {
  import opened Wire
  import opened Settings
  import opened Blocks
  import opened Protocol
  import opened DownloadLaws
  import opened Network
  import opened DownloadSystem
  import opened DownloadExact
  import opened Answers
  import opened Timing
  import Histories

  // ---- one round

  /** The window at base `n` can be sent: every send works, and the limit has room for its bytes. */
  predicate WindowFits(cfg: Config, f: seq<Byte>, s: State, env: Env, n: int)
    requires s.blockSize > 0
  {
    && env.sendsOk >= Min(s.windowSize, LastBlock(f, s) - n + 1)
    && var bytes := s.bytesHandled + Min((n - 1 + s.windowSize) * s.blockSize, |f|) - (n - 1) * s.blockSize;
       bytes >= 0 && Fits(cfg.limit, bytes)
  }

  /** What a download survives: silence, as long as it waits or can send again; packets that are ignored; and
      acknowledgements before the end of the file, if the next window can be sent. */
  predicate Survives(cfg: Config, f: seq<Byte>, s: State, ev: Event)
    requires s.blockSize > 0
  {
    var d := Cut(s, ev.bytes);
    if d == [] then
      || ev.env.now - s.stamp < s.packetTimeout * 1000
      || (s.retry + 1 < cfg.retryMax && WindowFits(cfg, f, s, ev.env, s.first))
    else
      match AnswerTo(cfg.limit, s, d)
      case Ignored => true
      case Counted => true
      case Refused(_) => false
      case Served => !s.readDone && WindowFits(cfg, f, s, ev.env, NumberAt(d, 2) + 1)
  }

  /** How it ends otherwise: done, given up on, or with an error packet behind the DATA that still went out. */
  predicate Ends(s: State, r: Outcome) {
    && !r.alive
    && (|| (r.s.transferDone && r.sent == [])
        || (r.s.retry == s.retry + 1 && r.sent == [])
        || (r.sent != [] && r.sent[|r.sent| - 1].Error? && !r.s.transferDone
            && forall i :: 0 <= i < |r.sent| - 1 ==> r.sent[i].Data?))
  }

  lemma WindowFitsIff(cfg: Config, f: seq<Byte>, s: State, env: Env)
    requires Serves(f, s) && 1 <= s.first <= LastBlock(f, s)
    ensures WindowFits(cfg, f, s, env, s.first) <==>
            && env.sendsOk >= Min(s.windowSize, LastBlock(f, s) - s.first + 1)
            && !cfg.OverLimit(s.bytesHandled + WindowBytes(f, s))
  {
    var end := s.first + s.windowSize;
    WindowTotal(f, s.blockSize, s.first, s.windowSize, end);
    OffsetIsProduct(s.blockSize, s.first);
    OffsetIsProduct(s.blockSize, end);
    LimitInNumbers(cfg, s.bytesHandled + WindowBytes(f, s));
  }

  lemma FailureCode(cfg: Config, s: State, env: Env)
    requires s.error == ERR_NO_ERROR
    ensures SendWindow(cfg, s, env).0.error in {ERR_NO_ERROR, ERR_UNDEFINED, ERR_DISK_FULL}
  {
  }

  /** A window goes out or ends the session with code 0, behind what still went out. */
  lemma WindowLivesIff(cfg: Config, f: seq<Byte>, s: State, env: Env)
    requires Serves(f, s) && 1 <= s.first <= LastBlock(f, s) && SeekFits(s.blockSize, s.first)
    requires s.error == ERR_NO_ERROR && !s.transferDone && Fits(cfg.limit, s.bytesHandled)
    ensures var r := WindowRound(cfg, s, env);
            && (r.alive <==> WindowFits(cfg, f, s, env, s.first))
            && (!r.alive ==> Ends(s, r) && r.sent != [] && r.sent[|r.sent| - 1] == Error(0))
  {
    LimitInNumbers(cfg, s.bytesHandled);
    WindowFitsIff(cfg, f, s, env);
    WholeWindow(cfg, f, s, env);
    WindowSent(cfg, f, s, env);
    FailureCode(cfg, s, env);
  }

  lemma SilenceLivesIff(cfg: Config, f: seq<Byte>, s: State, s1: State, env: Env)
    requires InWindow(f, s) && SeekFits(s.blockSize, s.first) && Fits(cfg.limit, s.bytesHandled)
    requires s1 == s.(retry := s.retry + 1)
    ensures var r := TimeoutRound(cfg, s, env);
            && (r.alive <==> || env.now - s.stamp < s.packetTimeout * 1000
                             || (s1.retry < cfg.retryMax && WindowFits(cfg, f, s1, env, s.first)))
            && (!r.alive ==> Ends(s, r))
  {
    if env.now - s.stamp < s.packetTimeout * 1000 {
      TooEarly(cfg, s, env);
    } else {
      TimeUp(cfg, s, s1, env);
      WindowLivesIff(cfg, f, s1, env);
    }
  }

  lemma NextWindowLivesIff(cfg: Config, f: seq<Byte>, s: State, s1: State, env: Env, n: int)
    requires InWindow(f, s) && Fits(cfg.limit, s.bytesHandled) && s1 == s.(first := n)
    requires 1 <= n <= LastBlock(f, s) && SeekFits(s.blockSize, n)
    ensures var r := WindowRound(cfg, s1, env);
            && (r.alive <==> WindowFits(cfg, f, s1, env, n)) && (!r.alive ==> Ends(s, r))
  {
    WindowLivesIff(cfg, f, s1, env);
  }

  lemma AckLivesIff(cfg: Config, f: seq<Byte>, s: State, ev: Event, s1: State)
    requires cfg.Consistent() && InWindow(f, s) && SeekFitsIn(s, ev) && Fits(cfg.limit, s.bytesHandled)
    requires Acked(s, ev) && !s.readDone && s1 == s.(first := BlockNr(Cut(s, ev.bytes)) + 1)
    ensures var r := Step(cfg, s, ev);
            && (r.alive <==> WindowFits(cfg, f, s1, ev.env, s1.first)) && (!r.alive ==> Ends(s, r))
  {
    AckNamesSentBlock(f, s, ev);
    NextWindowLivesIff(cfg, f, s, s1, ev.env, s1.first);
    AckSends(cfg, s, ev, s1);
  }

  lemma LastAckEnds(cfg: Config, f: seq<Byte>, s: State, ev: Event)
    requires cfg.Consistent() && InWindow(f, s) && Acked(s, ev) && s.readDone
    ensures var r := Step(cfg, s, ev); !r.alive && Ends(s, r)
  {
  }

  lemma OtherLivesIff(cfg: Config, f: seq<Byte>, s: State, ev: Event, d: Datagram)
    requires cfg.Consistent() && InWindow(f, s) && d == Cut(s, ev.bytes) != [] && !Acked(s, ev)
    ensures var r, answer := PacketRound(cfg, s, d, ev.env), AnswerTo(cfg.limit, s, d);
            && !answer.Served? && (r.alive <==> !answer.Refused?) && (!r.alive ==> Ends(s, r))
  {
    EveryPacketAnswered(cfg, s, d, ev.env);
  }

  lemma AckedIsServed(cfg: Config, f: seq<Byte>, s: State, ev: Event, d: Datagram)
    requires cfg.Consistent() && InWindow(f, s) && d == Cut(s, ev.bytes) && Acked(s, ev)
    ensures AnswerTo(cfg.limit, s, d).Served? && NumberAt(d, 2) == BlockNr(d)
  {
  }

  lemma SameFit(cfg: Config, f: seq<Byte>, s: State, s1: State, env: Env, n: int)
    requires s.blockSize > 0 && s1 == s.(first := s1.first)
    ensures WindowFits(cfg, f, s1, env, n) <==> WindowFits(cfg, f, s, env, n)
  {
  }

  lemma AckedLivesIff(cfg: Config, f: seq<Byte>, s: State, ev: Event, d: Datagram, n: int)
    requires cfg.Consistent() && InWindow(f, s) && SeekFitsIn(s, ev) && Fits(cfg.limit, s.bytesHandled)
    requires d == Cut(s, ev.bytes) && Acked(s, ev) && n == BlockNr(d) + 1
    ensures var r := Step(cfg, s, ev);
            && (r.alive <==> !s.readDone && WindowFits(cfg, f, s, ev.env, n)) && (!r.alive ==> Ends(s, r))
  {
    if s.readDone {
      LastAckEnds(cfg, f, s, ev);
    } else {
      AckLivesIff(cfg, f, s, ev, s.(first := n));
      SameFit(cfg, f, s, s.(first := n), ev.env, n);
    }
  }

  lemma PacketLivesIff(cfg: Config, f: seq<Byte>, s: State, ev: Event)
    requires cfg.Consistent() && InWindow(f, s) && SeekFitsIn(s, ev) && Fits(cfg.limit, s.bytesHandled)
    requires Cut(s, ev.bytes) != []
    ensures Step(cfg, s, ev).alive <==> Survives(cfg, f, s, ev)
    ensures !Step(cfg, s, ev).alive ==> Ends(s, Step(cfg, s, ev))
  {
    var d := Cut(s, ev.bytes);
    if Acked(s, ev) {
      AckedIsServed(cfg, f, s, ev, d);
      AckedLivesIff(cfg, f, s, ev, d, BlockNr(d) + 1);
    } else {
      OtherLivesIff(cfg, f, s, ev, d);
    }
  }

  /** Exactly what ends a download. */
  lemma DownloadLivesIff(cfg: Config, f: seq<Byte>, s: State, ev: Event)
    requires cfg.Consistent() && InWindow(f, s) && SeekFitsIn(s, ev) && Fits(cfg.limit, s.bytesHandled)
    ensures Step(cfg, s, ev).alive <==> Survives(cfg, f, s, ev)
    ensures !Step(cfg, s, ev).alive ==> Ends(s, Step(cfg, s, ev))
  {
    if Cut(s, ev.bytes) == [] {
      SilenceLivesIff(cfg, f, s, s.(retry := s.retry + 1), ev.env);
    } else {
      PacketLivesIff(cfg, f, s, ev);
    }
  }

  // ---- against a conforming client

  /** Room for another window, wherever it stands. */
  predicate Roomy(c: Setup, s: State, env: Env) {
    env.sendsOk >= c.windowSize && Fits(c.cfg.limit, s.bytesHandled + c.windowSize * c.blockSize)
  }

  /** Nothing but the client's acknowledgements arrives, in any order and any number of copies, or nothing does and
      the session may still send again; sends work, and the limit has room for another window. */
  predicate Calm(c: Setup, sys: System, ev: Event) {
    var s := sys.srv;
    && (|| ev.bytes in sys.toServer
        || (ev.bytes == [] && (ev.env.now - s.stamp < s.packetTimeout * 1000 || s.retry + 1 < c.cfg.retryMax)))
    && Roomy(c, s, ev.env)
  }

  ghost predicate CalmMoves(c: Setup, prev: System, a: Action, sys: System) {
    Moves(c, prev, a, sys) && (a.ServerHears? ==> Calm(c, prev, a.ev))
  }

  ghost function CalmNext(c: Setup): (System, System) -> bool {
    (prev, sys) => exists a :: CalmMoves(c, prev, a, sys)
  }

  lemma LastCalmMove(c: Setup, start: System, sys: System, steps: nat, fewer: nat) returns (prev: System, a: Action)
    requires Histories.ReachableIn(CalmNext(c), start, sys, steps) && steps == fewer + 1
    ensures Histories.ReachableIn(CalmNext(c), start, prev, fewer) && CalmMoves(c, prev, a, sys)
  {
    prev := Histories.LastStep(CalmNext(c), start, sys, steps);
    a :| CalmMoves(c, prev, a, sys);
  }

  /** The server's part: accounts kept, and what is under way to it are acknowledgements. */
  ghost predicate Steady(c: Setup, sys: System) {
    && c.Ok()
    && (sys.alive ==> Charged(c, sys.srv)) && (sys.alive || sys.srv.transferDone)
    && forall d :: d in sys.toServer ==> exists m: nat :: d == Encode(Ack(Word(m)))
  }

  lemma WindowInNumbers(c: Setup, s: State, env: Env, n: nat)
    requires c.Ok() && s.blockSize == c.blockSize && s.windowSize == c.windowSize && 1 <= n <= c.Last()
    requires Roomy(c, s, env)
    ensures WindowFits(c.cfg, c.file, s, env, n)
  {
    CountIff(|c.file|, c.blockSize, n);
    OffsetIsProduct(c.blockSize, n);
    Spread(n - 1, c.windowSize, c.blockSize);
    MulMono(n - 1, n - 1 + c.windowSize, c.blockSize);
  }

  lemma NextAckLives(c: Setup, s: State, ev: Event, s1: State)
    requires Charged(c, s) && Roomy(c, s, ev.env) && Acked(s, ev) && !s.readDone
    requires s1 == s.(first := BlockNr(Cut(s, ev.bytes)) + 1)
    ensures Step(c.cfg, s, ev).alive
  {
    AckNamesSentBlock(c.file, s, ev);
    LimitInNumbers(c.cfg, s.bytesHandled);
    NextSeekFits(c.cfg, c.file, s, ev);
    WindowInNumbers(c, s1, ev.env, s1.first);
    AckLivesIff(c.cfg, c.file, s, ev, s1);
  }

  lemma CalmAck(c: Setup, s: State, ev: Event)
    requires Charged(c, s) && Roomy(c, s, ev.env) && Acked(s, ev)
    ensures Step(c.cfg, s, ev).alive || Step(c.cfg, s, ev).s.transferDone
  {
    if s.readDone {
      StepKeeps(c.cfg, c.file, s, ev);
    } else {
      NextAckLives(c, s, ev, s.(first := BlockNr(Cut(s, ev.bytes)) + 1));
    }
  }

  lemma CalmSilence(c: Setup, s: State, sys: System, ev: Event)
    requires Charged(c, s) && sys.srv == s && Calm(c, sys, ev) && ev.bytes == [] && ev.bytes !in sys.toServer
    ensures Step(c.cfg, s, ev).alive
  {
    var s1 := s.(retry := s.retry + 1);
    LimitInNumbers(c.cfg, s.bytesHandled);
    WindowInNumbers(c, s1, ev.env, s.first);
    SilenceLivesIff(c.cfg, c.file, s, s1, ev.env);
  }

  lemma CalmLateAck(c: Setup, s: State, ev: Event, m: nat)
    requires Charged(c, s) && !Acked(s, ev) && ev.bytes == Encode(Ack(Word(m)))
    ensures Step(c.cfg, s, ev) == Outcome(s, [], true)
  {
    EncodedFields(Ack(Word(m)));
    LateAck(c.cfg, s, ev.bytes, ev.env);
  }

  /** No such event ends the session before the transfer is done. */
  lemma CalmStep(c: Setup, sys: System, ev: Event)
    requires Steady(c, sys) && sys.alive && Calm(c, sys, ev)
    ensures Step(c.cfg, sys.srv, ev).alive || Step(c.cfg, sys.srv, ev).s.transferDone
  {
    if Acked(sys.srv, ev) {
      CalmAck(c, sys.srv, ev);
    } else if ev.bytes in sys.toServer {
      var m: nat :| ev.bytes == Encode(Ack(Word(m)));
      CalmLateAck(c, sys.srv, ev, m);
    } else {
      CalmSilence(c, sys.srv, sys, ev);
    }
  }

  lemma SteadyMove(c: Setup, prev: System, a: Action, sys: System)
    requires Steady(c, prev) && CalmMoves(c, prev, a, sys)
    ensures Steady(c, sys)
  {
    match a
    case ServerHears(ev) =>
      CalmStep(c, prev, ev);
      StepCharged(c, prev.srv, ev);
    case ClientHears(d) =>
    case ClientAcks =>
      var ack := Encode(Ack(Word(prev.blocks)));
      forall d | d in sys.toServer ensures exists m: nat :: d == Encode(Ack(Word(m))) {
        if d == ack { assert d == Encode(Ack(Word(prev.blocks))); }
      }
  }

  /** For every configuration and every seekable file: while sends work, the limit has room for another window and
      nobody but the client is heard, no loss, delay, repetition or reordering of its acknowledgements, and no
      silence that leaves a retry, ends a download before it is done. */
  lemma {:induction false} NeverCutOff(c: Setup, start: System, sys: System, steps: nat)
    requires Init(c, start) && Histories.ReachableIn(CalmNext(c), start, sys, steps)
    ensures Steady(c, sys) && (sys.alive || sys.srv.transferDone)
    decreases steps
  {
    if steps == 0 {
      ReachStart(c, start);
      ReachableTolled(c, start, start, 0);
    } else {
      var prev, a := LastCalmMove(c, start, sys, steps, steps - 1);
      NeverCutOff(c, start, prev, steps - 1);
      SteadyMove(c, prev, a, sys);
    }
  }
}
