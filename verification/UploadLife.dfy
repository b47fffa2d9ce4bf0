/** What keeps an upload alive: the exact causes of its end, and that no late, repeated or reordered block is among
    them. */
module UploadLife {
  import opened Wire
  import opened Settings
  import opened Blocks
  import opened Protocol
  import opened UploadLaws
  import opened Network
  import opened UploadSystem
  import opened Answers
  import opened Timing
  import Histories

  // ---- one round

  /** What an upload survives: silence, as long as it waits or may acknowledge again; packets that are ignored or
      only counted; and full blocks, if they can be acknowledged. */
  predicate Survives(cfg: Config, s: State, ev: Event) {
    var d := Cut(s, ev.bytes);
    if d == [] then
      || ev.env.now - s.stamp < s.packetTimeout * 1000
      || (s.retry + 1 < cfg.retryMax && ev.env.sendsOk > 0)
    else
      match AnswerTo(cfg.limit, s, d)
      case Ignored => true
      case Counted => true
      case Refused(_) => false
      case Served => ev.env.sendsOk > 0 && |d| >= s.blockSize + 4
  }

  /** How it ends otherwise: done, with the last block acknowledged; given up on without a word; or with one
      error packet. */
  predicate Ends(s: State, r: Outcome) {
    && !r.alive
    && (|| (r.s.transferDone && |r.sent| == 1 && r.sent[0].Ack? && r.sent[0].nr == r.s.first && r.s.error == 255)
        || (r.s.retry == s.retry + 1 && r.sent == [] && !r.s.transferDone)
        || (|r.sent| == 1 && r.sent[0].Error? && r.s.error != 255))
  }

  lemma StoredLivesIff(cfg: Config, s: State, d: Datagram, env: Env)
    requires cfg.Consistent() && Clean(s) && StoresData(cfg, s, d)
    ensures var r := PacketRound(cfg, s, d, env);
            && (r.alive <==> env.sendsOk > 0 && |d| >= s.blockSize + 4)
            && (!r.alive ==> Ends(s, r))
            && (env.sendsOk > 0 ==>
                  OnlyAcks(r.sent, r.s.first) && |r.sent| == 1 && (r.s.transferDone <==> |d| < s.blockSize + 4))
            && (env.sendsOk == 0 ==> r.sent == [Error(0)])
  {
    StoredEffect(cfg, s, d, env);
  }

  lemma SilenceLivesIff(cfg: Config, s: State, ev: Event)
    requires cfg.Consistent() && Clean(s) && ev.bytes == []
    ensures var r := TimeoutRound(cfg, s, ev.env);
            && (r.alive <==> Survives(cfg, s, ev)) && (!r.alive ==> Ends(s, r))
  {
    if ev.env.now - s.stamp < s.packetTimeout * 1000 {
      TooEarly(cfg, s, ev.env);
    } else {
      TimeUp(cfg, s, s.(retry := s.retry + 1), ev.env);
      SilentUploadRound(cfg, s, ev.env);
    }
  }

  /** Exactly what ends an upload. */
  lemma UploadLivesIff(cfg: Config, s: State, ev: Event)
    requires cfg.Consistent() && Clean(s)
    ensures Step(cfg, s, ev).alive <==> Survives(cfg, s, ev)
    ensures !Step(cfg, s, ev).alive ==> Ends(s, Step(cfg, s, ev))
  {
    var d := Cut(s, ev.bytes);
    if d == [] {
      SilenceLivesIff(cfg, s, ev);
    } else {
      EveryPacketAnswered(cfg, s, d, ev.env);
      if StoresData(cfg, s, d) { StoredLivesIff(cfg, s, d, ev.env); }
    }
  }

  // ---- against a conforming client

  /** Nothing but the client's blocks arrives, in any order and any number of copies, or nothing does and a retry is
      left; the acknowledgement can be sent, and the limit has room for the packet. */
  predicate Calm(c: Setup, sys: System, ev: Event) {
    var s := sys.srv;
    && (|| ev.bytes in sys.toServer
        || (ev.bytes == [] && (ev.env.now - s.stamp < s.packetTimeout * 1000 || s.retry + 1 < c.cfg.retryMax)))
    && ev.env.sendsOk > 0 && Fits(c.cfg.limit, s.bytesHandled + |ev.bytes|)
  }

  ghost predicate CalmMoves(c: Setup, prev: System, a: Action, sys: System) {
    Moves(c, prev, a, sys) && (a.ServerHears? ==> Calm(c, prev, a.ev))
  }

  ghost function CalmNext(c: Setup): (System, System) -> bool {
    (prev, sys) => exists a :: CalmMoves(c, prev, a, sys)
  }

  lemma LastCalmMove(c: Setup, start: System, sys: System, steps: nat, fewer: nat) returns (prev: System, a: Action)
    requires Histories.ReachableIn(CalmNext(c), start, sys, steps) && steps == fewer + 1
    ensures Histories.ReachableIn(CalmNext(c), start, prev, fewer) && CalmMoves(c, prev, a, sys)
  {
    prev := Histories.LastStep(CalmNext(c), start, sys, steps);
    a :| CalmMoves(c, prev, a, sys);
  }

  ghost predicate Steady(c: Setup, sys: System) {
    Inv(c, sys) && (sys.alive || sys.srv.transferDone)
  }

  lemma CalmBlock(c: Setup, sys: System, ev: Event)
    requires Steady(c, sys) && sys.alive && Calm(c, sys, ev) && ev.bytes in sys.toServer
    ensures Step(c.cfg, sys.srv, ev).alive || Step(c.cfg, sys.srv, ev).s.transferDone
  {
    assert Genuine(c, ev.bytes, sys.acked + c.windowSize);
    var n :| 1 <= n <= sys.acked + c.windowSize && n <= c.Last() && ev.bytes == BlockDatagram(c, n);
    EncodedFields(Data(Word(n), Block(c.file, c.blockSize, n)));
    EveryPacketAnswered(c.cfg, sys.srv, ev.bytes, ev.env);
    if StoresData(c.cfg, sys.srv, ev.bytes) { StoredLivesIff(c.cfg, sys.srv, ev.bytes, ev.env); }
  }

  /** No such event ends the session before the transfer is done. */
  lemma CalmStep(c: Setup, sys: System, ev: Event)
    requires Steady(c, sys) && sys.alive && Calm(c, sys, ev)
    ensures Step(c.cfg, sys.srv, ev).alive || Step(c.cfg, sys.srv, ev).s.transferDone
  {
    if ev.bytes in sys.toServer {
      CalmBlock(c, sys, ev);
    } else {
      SilenceLivesIff(c.cfg, sys.srv, ev);
    }
  }

  /** For every configuration and every file: while sends work, the limit has room for the packets that arrive and
      nobody but the client is heard, no loss, delay, repetition or reordering of its blocks, and no silence that
      leaves a retry, ends an upload before it is done. */
  lemma {:induction false} NeverCutOff(c: Setup, start: System, sys: System, steps: nat)
    requires Init(c, start) && Histories.ReachableIn(CalmNext(c), start, sys, steps)
    ensures Steady(c, sys) && (sys.alive || sys.srv.transferDone)
    decreases steps
  {
    if steps == 0 {
      InitInv(c, sys);
    } else {
      var prev, a := LastCalmMove(c, start, sys, steps, steps - 1);
      NeverCutOff(c, start, prev, steps - 1);
      MoveInv(c, prev, a, sys);
      if a.ServerHears? { CalmStep(c, prev, a.ev); }
    }
  }
}
