/** How a session that is transferring answers whatever arrives, told from the bytes and in the numbers of RFC 1350:
    what it ignores, what ends it and with which error code, and what takes the transfer on. */
module Answers {
  import opened Wire
  import opened Settings
  import opened Protocol
  import opened UploadLaws

  /** A session in the middle of a transfer, between two rounds. */
  predicate Transferring(s: State) {
    && WellFormed(s) && s.comm && s.error == 255 && !s.transferDone
    && (s.op == ServerToClient || Clean(s))
  }

  /** A count of bytes within the limit: 0 is none, and a negative one counts from the top of 64 bits. */
  predicate Fits(limit: int, bytes: nat) {
    limit == 0 || bytes <= if limit > 0 then limit else 0x1_0000_0000_0000_0000 + limit
  }

  lemma LimitInNumbers(cfg: Config, bytes: nat)
    ensures cfg.OverLimit(bytes) <==> !Fits(cfg.limit, bytes)
    ensures cfg.limit > 0 ==> !cfg.OverLimit(cfg.limit) && cfg.OverLimit(cfg.limit + 1)
  {
  }

  datatype Answer = Ignored | Counted | Refused(code: nat) | Served

  /** The 16-bit number in two bytes, the high one first. */
  function NumberAt(d: Datagram, at: nat): nat
    requires at + 1 < |d|
  {
    (d[at] as int) * 256 + d[at + 1]
  }

  /** Requests are ignored once a transfer runs. Acknowledgements are for downloads, and those outside the window
      are late copies; DATA is for uploads, and what is not behind the base is a late copy too, though it counts.
      A client's error is repeated to it, except that code 3 comes back as 0 and code 255 means nothing. */
  function AnswerTo(limit: int, s: State, d: Datagram): Answer {
    if |d| < 2 then Refused(4)
    else
      match NumberAt(d, 0)
      case 1 => Ignored
      case 2 => Ignored
      case 3 =>
        if s.op != ClientToServer || |d| < 4 then Refused(4)
        else if !Fits(limit, s.bytesHandled + |d|) then Refused(0)
        else if NumberAt(d, 2) <= s.first then Counted
        else Served
      case 4 =>
        if s.op != ServerToClient || |d| < 4 then Refused(4)
        else if s.first <= NumberAt(d, 2) < s.first + s.windowSize then Served
        else Ignored
      case 5 =>
        if |d| < 5 then Refused(4)
        else if NumberAt(d, 2) == 255 then Ignored
        else Refused(if NumberAt(d, 2) == 3 then 0 else NumberAt(d, 2))
      case _ => Refused(0)
  }

  /** An ending with an error: one packet says so, at once, and nothing of the transfer has moved. */
  predicate EndsWith(s: State, r: Outcome, code: nat, now: int) {
    && !r.alive && r.sent == [Error(code)] && r.s.stamp == now
    && r.s.file == s.file && r.s.first == s.first && !r.s.transferDone && r.s.bytesHandled >= s.bytesHandled
  }

  lemma Settled(s: State, t: State, env: Env, error: int)
    requires s.comm && !s.transferDone && t == s.(error := error, bytesHandled := t.bytesHandled)
    requires t.bytesHandled >= s.bytesHandled && 0 <= error < 0x1_0000
    ensures error == 255 ==> Settle(t, [], env) == Outcome(t, [], true)
    ensures error != 255 ==> EndsWith(s, Settle(t, [], env), if error == 3 then 0 else error, env.now)
  {
  }

  /** The round does what the answer says; what is served is an accepted acknowledgement or a block to store. */
  predicate Answered(cfg: Config, s: State, d: Datagram, env: Env)
    requires cfg.Consistent() && WellFormed(s)
  {
    var r := PacketRound(cfg, s, d, env);
    match AnswerTo(cfg.limit, s, d)
    case Ignored => r == Outcome(s, [], true)
    case Counted => r == Outcome(s.(bytesHandled := s.bytesHandled + |d|), [], true)
    case Refused(code) => EndsWith(s, r, code, env.now)
    case Served => StoresData(cfg, s, d) || (HasOp(d, OP_ACK) && AcceptsAck(s, d))
  }

  lemma DataAnswered(cfg: Config, s: State, d: Datagram, env: Env)
    requires cfg.Consistent() && Transferring(s) && |d| >= 2 && NumberAt(d, 0) == 3
    ensures Answered(cfg, s, d, env)
  {
    LimitInNumbers(cfg, s.bytesHandled + |d|);
    if Clean(s) { NeverDuplicate(cfg, s, d); }
    var t := OnPacket(cfg, s, d, env).0;
    if !AnswerTo(cfg.limit, s, d).Served? { Settled(s, t, env, t.error); }
  }

  lemma AckAnswered(cfg: Config, s: State, d: Datagram, env: Env)
    requires cfg.Consistent() && Transferring(s) && |d| >= 2 && NumberAt(d, 0) == 4
    ensures Answered(cfg, s, d, env)
  {
    var t := OnPacket(cfg, s, d, env).0;
    if !AnswerTo(cfg.limit, s, d).Served? { Settled(s, t, env, t.error); }
  }

  /** Every packet is answered so. */
  lemma EveryPacketAnswered(cfg: Config, s: State, d: Datagram, env: Env)
    requires cfg.Consistent() && Transferring(s)
    ensures Answered(cfg, s, d, env)
    ensures AnswerTo(cfg.limit, s, d).Served? <==> StoresData(cfg, s, d) || (HasOp(d, OP_ACK) && AcceptsAck(s, d))
  {
    LimitInNumbers(cfg, s.bytesHandled + |d|);
    if |d| >= 2 && NumberAt(d, 0) == 3 {
      DataAnswered(cfg, s, d, env);
    } else if |d| >= 2 && NumberAt(d, 0) == 4 {
      AckAnswered(cfg, s, d, env);
    } else {
      var t := OnPacket(cfg, s, d, env).0;
      Settled(s, t, env, t.error);
    }
  }

  // ---- what that means

  /** A datagram longer than a block with its header is handled as if it ended there. */
  lemma LongerThanBlock(cfg: Config, s: State, ev: Event)
    requires cfg.Consistent() && WellFormed(s) && |ev.bytes| > s.blockSize + 4
    ensures Step(cfg, s, ev) == PacketRound(cfg, s, ev.bytes[..s.blockSize + 4], ev.env)
  {
  }

  /** A late copy of an acknowledgement changes nothing at all. */
  lemma LateAck(cfg: Config, s: State, d: Datagram, env: Env)
    requires cfg.Consistent() && Transferring(s) && s.op == ServerToClient && |d| >= 4 && NumberAt(d, 0) == 4
    requires !(s.first <= NumberAt(d, 2) < s.first + s.windowSize)
    ensures PacketRound(cfg, s, d, env) == Outcome(s, [], true)
  {
    EveryPacketAnswered(cfg, s, d, env);
  }

  /** A late copy of a block counts, and changes nothing else. */
  lemma LateBlock(cfg: Config, s: State, d: Datagram, env: Env)
    requires cfg.Consistent() && Clean(s) && |d| >= 4 && NumberAt(d, 0) == 3 && NumberAt(d, 2) <= s.first
    requires Fits(cfg.limit, s.bytesHandled + |d|)
    ensures PacketRound(cfg, s, d, env) == Outcome(s.(bytesHandled := s.bytesHandled + |d|), [], true)
  {
    EveryPacketAnswered(cfg, s, d, env);
  }

  /** A client's ERROR packet ends the session, unless its code is 255, and is answered with the code. */
  lemma ClientAbortsIff(cfg: Config, s: State, d: Datagram, env: Env)
    requires cfg.Consistent() && Transferring(s) && |d| > 4 && NumberAt(d, 0) == 5
    ensures PacketRound(cfg, s, d, env).alive <==> NumberAt(d, 2) == 255
    ensures PacketRound(cfg, s, d, env).sent ==
            if NumberAt(d, 2) == 255 then [] else [Error(if NumberAt(d, 2) == 3 then 0 else NumberAt(d, 2))]
  {
    EveryPacketAnswered(cfg, s, d, env);
  }

  /** A packet for the other direction, too short for its kind, or of no kind at all ends the session. */
  lemma MisfitEnds(cfg: Config, s: State, d: Datagram, env: Env)
    requires cfg.Consistent() && Transferring(s)
    requires || |d| < 2 || !(1 <= NumberAt(d, 0) <= 5) || (|d| < 4 && NumberAt(d, 0) >= 3)
             || (s.op == ServerToClient && NumberAt(d, 0) == 3) || (s.op == ClientToServer && NumberAt(d, 0) == 4)
    ensures !PacketRound(cfg, s, d, env).alive
    ensures PacketRound(cfg, s, d, env).sent == [Error(if |d| >= 2 && !(1 <= NumberAt(d, 0) <= 5) then 0 else 4)]
  {
    EveryPacketAnswered(cfg, s, d, env);
  }

  /** Under a positive limit an upload takes exactly as many bytes as it says: one more ends the session. */
  lemma LimitReachedIff(cfg: Config, s: State, d: Datagram, env: Env)
    requires cfg.Consistent() && Clean(s) && cfg.limit > 0 && |d| >= 4 && NumberAt(d, 0) == 3 && env.sendsOk > 0
    ensures var r := PacketRound(cfg, s, d, env);
            s.bytesHandled + |d| <= cfg.limit <==> r.alive || r.s.transferDone
    ensures s.bytesHandled + |d| > cfg.limit ==> EndsWith(s, PacketRound(cfg, s, d, env), 0, env.now)
  {
    EveryPacketAnswered(cfg, s, d, env);
    if StoresData(cfg, s, d) { StoredEffect(cfg, s, d, env); }
  }
}
