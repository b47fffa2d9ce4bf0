/** Whatever the network did to a download, it can still be completed. */
module DownloadRecovery {
  import opened Wire
  import opened Blocks
  import opened Protocol
  import opened DownloadLaws
  import opened Network
  import opened DownloadSystem
  import opened DownloadExact
  import opened Timing

  /** A reachable state from which the server goes on, with a retry left. */
  ghost predicate Going(c: Setup, start: System, sys: System, first: nat) {
    && c.Ok() && Reachable(c, start, sys) && Inv(c, sys) && sys.alive && first == sys.srv.first
    && sys.srv.retry + 1 < c.cfg.retryMax
  }

  /** One more timeout, and its event. */
  function Wait(c: Setup, s: State): Event {
    Event([], Quiet(c.windowSize).(now := s.stamp + s.packetTimeout * 1000))
  }

  lemma ResentStep(c: Setup, s: State, s1: State, ev: Event, r: Outcome)
    requires c.Ok() && c.cfg.limit == 0 && InWindow(c.file, s) && SeekFits(s.blockSize, s.first)
    requires s.blockSize == c.blockSize && s.windowSize == c.windowSize && s.retry + 1 < c.cfg.retryMax
    requires s1 == s.(retry := s.retry + 1) && ev == Wait(c, s) && r == Step(c.cfg, s, ev)
    ensures r.alive && r.s.first == s.first && r.s.retry == 0 && WindowUnderWay(c, OnTheWire(r.sent), s.first)
  {
    TimeUp(c.cfg, s, s1, ev.env);
    WholeWindow(c.cfg, c.file, s1, ev.env);
    WindowSent(c.cfg, c.file, s1, ev.env);
    WindowGoesOut(c, s1, ev.env, s.first);
  }

  /** Silence is heard like anything else. */
  lemma HearNothing(c: Setup, start: System, sys: System, ev: Event, r: Outcome) returns (next: System)
    requires c.Ok() && Reachable(c, start, sys) && Inv(c, sys) && sys.alive && ev.bytes == []
    requires r == Step(c.cfg, sys.srv, ev)
    ensures Reachable(c, start, next) && Inv(c, next)
    ensures next == sys.(srv := r.s, alive := r.alive, toClient := sys.toClient + OnTheWire(r.sent))
  {
    ServerHearsInv(c, sys, ev);
    ReachStep(c, start, sys, ServerHears(ev));
    next := Apply(c, sys, ServerHears(ev));
  }

  lemma StillUnderWay(c: Setup, a: set<Datagram>, b: set<Datagram>, first: nat)
    requires WindowUnderWay(c, b, first)
    ensures WindowUnderWay(c, a + b, first)
  {
  }

  lemma ResentHeard(c: Setup, start: System, sys: System, first: nat, ev: Event, r: Outcome) returns (next: System)
    requires Going(c, start, sys, first) && ev.bytes == [] && r == Step(c.cfg, sys.srv, ev)
    requires r.alive && r.s.first == first && r.s.retry == 0 && 1 < c.cfg.retryMax
    requires WindowUnderWay(c, OnTheWire(r.sent), first)
    ensures Going(c, start, next, first) && WindowUnderWay(c, next.toClient, first)
    ensures next.blocks == sys.blocks && next.done == sys.done
  {
    StillUnderWay(c, sys.toClient, OnTheWire(r.sent), first);
    next := HearNothing(c, start, sys, ev, r);
  }

  /** The server sends its window again. */
  lemma Resent(c: Setup, start: System, sys: System, first: nat, ev: Event) returns (next: System)
    requires Going(c, start, sys, first) && c.cfg.limit == 0 && 1 < c.cfg.retryMax && ev == Wait(c, sys.srv)
    ensures Going(c, start, next, first) && WindowUnderWay(c, next.toClient, first)
    ensures next.blocks == sys.blocks && next.done == sys.done
  {
    var r := Step(c.cfg, sys.srv, ev);
    ResentStep(c, sys.srv, sys.srv.(retry := sys.srv.retry + 1), ev, r);
    next := ResentHeard(c, start, sys, first, ev, r);
  }

  /** A client that has not taken the last block takes what it lacks of a window inside the file, and acknowledges. */
  lemma Acknowledges(c: Setup, start: System, sys: System, first: nat, m: nat) returns (next: System)
    requires Init(c, start) && Going(c, start, sys, first) && WindowUnderWay(c, sys.toClient, first) && !sys.done
    requires m == first - 1 + c.windowSize < c.Last() <= 65535
    ensures Going(c, start, next, first) && Encode(Ack(Word(m))) in next.toServer
  {
    next := TakeAndAck(c, start, sys, m);
    var steps := InSteps(c, start, next);
    ReachableInv(c, start, next, steps);
  }

  lemma MovedStep(c: Setup, s: State, m: nat, ev: Event, r: Outcome)
    requires c.Ok() && c.cfg.limit == 0 && InWindow(c.file, s) && SeeksFit(c.cfg, c.file, s)
    requires s.blockSize == c.blockSize && s.windowSize == c.windowSize
    requires m == s.first - 1 + c.windowSize < c.Last() && m <= 65535
    requires ev == Event(Encode(Ack(Word(m))), Quiet(c.windowSize)) && r == Step(c.cfg, s, ev)
    ensures r.alive && r.s.first == m + 1 && r.s.retry == 0
  {
    AckIsAccepted(c, s, m, ev);
    NextSeekFits(c.cfg, c.file, s, ev);
    AckSends(c.cfg, s, ev, s.(first := m + 1));
    WholeWindow(c.cfg, c.file, s.(first := m + 1), ev.env);
    WindowSent(c.cfg, c.file, s.(first := m + 1), ev.env);
  }

  lemma MovedHeard(c: Setup, start: System, sys: System, first: nat, next: nat, ev: Event, r: Outcome)
      returns (after: System)
    requires Going(c, start, sys, first) && ev.bytes in sys.toServer && r == Step(c.cfg, sys.srv, ev)
    requires r.alive && r.s.first == next && r.s.retry == 0 && 1 < c.cfg.retryMax
    ensures Going(c, start, after, next)
  {
    ServerHearsInv(c, sys, ev);
    after := Hear(c, start, sys, ev, r);
  }

  lemma MovesOn(c: Setup, start: System, sys: System, first: nat, m: nat, ev: Event) returns (next: System)
    requires Going(c, start, sys, first) && m == first - 1 + c.windowSize < c.Last() <= 65535 && c.cfg.limit == 0
    requires Encode(Ack(Word(m))) in sys.toServer && ev == Event(Encode(Ack(Word(m))), Quiet(c.windowSize))
    requires 1 < c.cfg.retryMax
    ensures Going(c, start, next, m + 1)
  {
    var r := Step(c.cfg, sys.srv, ev);
    MovedStep(c, sys.srv, m, ev, r);
    next := MovedHeard(c, start, sys, first, m + 1, ev, r);
  }

  /** In the last window the client takes the rest, acknowledges the last block, and the server hears of it. */
  lemma Finishes(c: Setup, start: System, sys: System, first: nat) returns (end: System)
    requires Going(c, start, sys, first) && WindowUnderWay(c, sys.toClient, first)
    requires c.Last() <= first - 1 + c.windowSize && c.Last() <= 65535
    ensures Reachable(c, start, end) && end.srv.transferDone && end.done && end.got == c.file
  {
    var taken := sys;
    if sys.done {
      UpToAll(c.file, c.blockSize, sys.blocks);
    } else {
      taken := TakeLast(c, start, sys);
    }
    ReachStep(c, start, taken, ClientAcks);
    end := EndHere(c, start, Apply(c, taken, ClientAcks), first, c.Last());
  }

  lemma {:induction false} Completes(c: Setup, start: System, sys: System, first: nat) returns (end: System)
    requires Init(c, start) && Going(c, start, sys, first) && c.cfg.limit == 0 && c.Last() <= 65535
    requires 1 < c.cfg.retryMax
    ensures Reachable(c, start, end) && end.srv.transferDone && end.done && end.got == c.file
    decreases c.Last() + c.windowSize - first
  {
    var m := first - 1 + c.windowSize;
    var here := Resent(c, start, sys, first, Wait(c, sys.srv));
    if c.Last() <= m {
      end := Finishes(c, start, here, first);
    } else {
      here := Acknowledges(c, start, here, first, m);
      here := MovesOn(c, start, here, first, m, Event(Encode(Ack(Word(m))), Quiet(c.windowSize)));
      end := Completes(c, start, here, m + 1);
    }
  }

  /** From every state a download can be in with its session alive and a resend left, whatever was lost, delayed,
      repeated or reordered before, the transfer can still be completed: without a limit, and within 65535 blocks. */
  lemma CanStillComplete(c: Setup, start: System, sys: System) returns (end: System)
    requires Init(c, start) && Reachable(c, start, sys) && sys.alive && c.cfg.limit == 0 && c.Last() <= 65535
    requires 0 <= sys.srv.retry && sys.srv.retry + 1 < c.cfg.retryMax
    ensures Reachable(c, start, end) && end.srv.transferDone && end.done && end.got == c.file
  {
    var steps := InSteps(c, start, sys);
    ReachableInv(c, start, sys, steps);
    end := Completes(c, start, sys, sys.srv.first);
  }
}
