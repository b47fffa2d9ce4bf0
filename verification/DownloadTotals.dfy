/** What whole downloads add up to: bytes accounted, packets caused, and the client that stays silent. */
module DownloadTotals {
  import opened Wire
  import opened Settings
  import opened Blocks
  import opened Protocol
  import opened DownloadLaws
  import opened Sequences

  // ---- byte accounting

  function PayloadSum(sent: seq<Packet>): nat {
    if sent == [] then 0
    else
      var n := |sent| - 1;
      PayloadSum(sent[..n]) + if sent[n].Data? then |sent[n].payload| else 0
  }

  lemma {:induction false} PayloadSumAdds(a: seq<Packet>, b: seq<Packet>)
    ensures PayloadSum(a + b) == PayloadSum(a) + PayloadSum(b)
    decreases |b|
  {
    if b == [] {
      assert a + b == a;
    } else {
      var n := |b| - 1;
      assert (a + b)[..|a| + n] == a + b[..n];
      PayloadSumAdds(a, b[..n]);
    }
  }

  lemma {:induction false} NumberedSum(first: int, ps: seq<seq<Byte>>)
    ensures PayloadSum(Numbered(first, ps)) == TotalSize(ps)
    decreases |ps|
  {
    if ps != [] {
      var n := |ps| - 1;
      NumberedSum(first, ps[..n]);
      assert Numbered(first, ps)[..n] == Numbered(first, ps[..n]);
    }
  }

  predicate AtMost(plan: seq<seq<Byte>>, size: nat) {
    plan == [] || (|plan[0]| <= size && AtMost(plan[1..], size))
  }

  lemma {:induction false} WindowAtMost(c: seq<Byte>, pos: nat, blockSize: nat, w: nat)
    ensures AtMost(Window(c, pos, blockSize, w), blockSize)
    decreases w
  {
    if w > 0 {
      var p, next, w1 := Slice(c, pos, blockSize), pos + blockSize, w - 1;
      if |p| == blockSize {
        WindowAtMost(c, next, blockSize, w1);
        assert Window(c, pos, blockSize, w)[1..] == Window(c, next, blockSize, w1);
      }
    }
  }

  /** A window counts the payloads it sent; only its last packet can pass the limit. */
  lemma {:induction false} TransmitCounts(cfg: Config, plan: seq<seq<Byte>>, bytes: nat, sendsOk: nat, size: nat)
    requires AtMost(plan, size) && !cfg.OverLimit(bytes)
    ensures var p := Transmit(cfg, plan, bytes, sendsOk);
            && p.bytes == bytes + TotalSize(plan[..p.count])
            && (cfg.OverLimit(p.bytes) <==> p.error == ERR_DISK_FULL)
            && (cfg.limit != 0 ==> p.bytes <= cfg.Ceiling() + size)
    decreases |plan|
  {
    if plan != [] && sendsOk > 0 {
      var total, sends := bytes + |plan[0]|, sendsOk - 1;
      var p := Transmit(cfg, plan, bytes, sendsOk);
      TotalSizeCons(plan[0], []);
      assert [plan[0]] + [] == plan[..1];
      if !cfg.OverLimit(total) {
        TransmitCounts(cfg, plan[1..], total, sends, size);
        var n := Transmit(cfg, plan[1..], total, sends).count;
        assert plan[..p.count] == [plan[0]] + plan[1..][..n];
        TotalSizeCons(plan[0], plan[1..][..n]);
      }
    }
  }

  /** The byte counter is the sum of all payloads sent, resends included, and passes a limit by less than
      one more block; a session that goes on has not passed it. */
  predicate Accounted(cfg: Config, o: Outcome) {
    && o.s.bytesHandled == PayloadSum(o.sent)
    && (o.alive ==> !cfg.OverLimit(o.s.bytesHandled))
    && (cfg.limit != 0 ==> o.s.bytesHandled <= cfg.Ceiling() + o.s.blockSize)
  }

  lemma WindowAccounted(cfg: Config, s: State, env: Env)
    requires s.file.Some? && !cfg.OverLimit(s.bytesHandled) && s.error == ERR_NO_ERROR
    ensures var (t, out) := SendWindow(cfg, s, env);
            && t.file.Some? && t.file.value.content == s.file.value.content
            && t.bytesHandled == s.bytesHandled + PayloadSum(out)
            && (t.error == ERR_NO_ERROR ==> !cfg.OverLimit(t.bytesHandled))
            && (cfg.limit != 0 ==> t.bytesHandled <= cfg.Ceiling() + s.blockSize)
  {
    var r := Rewind(s);
    var plan := Plan(r);
    var p := Transmit(cfg, plan, r.bytesHandled, env.sendsOk);
    WindowAtMost(r.file.value.content, r.file.value.cursor, r.blockSize, r.windowSize);
    TransmitCounts(cfg, plan, r.bytesHandled, env.sendsOk, s.blockSize);
    NumberedSum(s.first, plan[..p.count]);
  }

  /** The session and packets of one handler, before the checks. */
  predicate AccountedStep(cfg: Config, f: seq<Byte>, s: State, t: State, out: seq<Packet>) {
    && Serves(f, t)
    && t.bytesHandled == s.bytesHandled + PayloadSum(out)
    && (t.error == ERR_NO_ERROR ==> !cfg.OverLimit(t.bytesHandled))
    && (cfg.limit != 0 ==> t.bytesHandled <= cfg.Ceiling() + t.blockSize)
  }

  lemma PacketAccounted(cfg: Config, f: seq<Byte>, s: State, d: Datagram, env: Env)
    requires cfg.Consistent() && Serves(f, s) && !cfg.OverLimit(s.bytesHandled) && s.error == ERR_NO_ERROR
    ensures var (t, out) := OnPacket(cfg, s, d, env); AccountedStep(cfg, f, s, t, out)
  {
    if HasOp(d, OP_ACK) && AcceptsAck(s, d) && !s.readDone {
      WindowAccounted(cfg, s.(first := BlockNr(d) + 1), env);
    }
  }

  lemma ResendAccounted(cfg: Config, f: seq<Byte>, s: State, s1: State, env: Env)
    requires Serves(f, s) && !cfg.OverLimit(s.bytesHandled) && s.error == ERR_NO_ERROR
    requires s1 == s.(retry := s.retry + 1)
    ensures var (t, out) := SendWindow(cfg, s1, env); AccountedStep(cfg, f, s, t, out)
  {
    WindowAccounted(cfg, s1, env);
  }

  lemma TimeoutAccounted(cfg: Config, f: seq<Byte>, s: State, env: Env)
    requires Serves(f, s) && !cfg.OverLimit(s.bytesHandled) && s.error == ERR_NO_ERROR
    ensures AccountedStep(cfg, f, s, OnTimeout(cfg, s, env).0, OnTimeout(cfg, s, env).1)
  {
    if Expired(s, env.now) && s.retry + 1 < cfg.retryMax {
      RetryResends(cfg, s, s.(retry := s.retry + 1), env);
      ResendAccounted(cfg, f, s, s.(retry := s.retry + 1), env);
    } else {
      assert OnTimeout(cfg, s, env).1 == [];
    }
  }

  lemma SettleAccounted(cfg: Config, f: seq<Byte>, s: State, t: State, out: seq<Packet>, env: Env, before: seq<Packet>)
    requires AccountedStep(cfg, f, s, t, out) && s.bytesHandled == PayloadSum(before)
    ensures var r := Settle(t, out, env);
            && Serves(f, r.s) && (r.alive ==> r.s.error == ERR_NO_ERROR)
            && Accounted(cfg, Outcome(r.s, before + r.sent, r.alive))
  {
    PayloadSumAdds(before, out);
    if t.error != ERR_NO_ERROR {
      var last := CloseWithError(t, env).1;
      assert PayloadSum(last) == PayloadSum(last[..0]);
      PayloadSumAdds(before + out, last);
      assert before + (out + last) == before + out + last;
    }
  }

  lemma StepAccounted(cfg: Config, f: seq<Byte>, r: Outcome, ev: Event)
    requires cfg.Consistent() && r.alive && Serves(f, r.s) && r.s.error == ERR_NO_ERROR && Accounted(cfg, r)
    ensures var n := Step(cfg, r.s, ev);
            Serves(f, n.s) && (n.alive ==> n.s.error == ERR_NO_ERROR)
            && Accounted(cfg, Outcome(n.s, r.sent + n.sent, n.alive))
  {
    var d := Cut(r.s, ev.bytes);
    if d == [] {
      var (t, out, gaveUp) := OnTimeout(cfg, r.s, ev.env);
      TimeoutAccounted(cfg, f, r.s, ev.env);
      SettleAccounted(cfg, f, r.s, t, out, ev.env, r.sent);
      PayloadSumAdds(r.sent, out);
    } else {
      var (t, out) := OnPacket(cfg, r.s, d, ev.env);
      PacketAccounted(cfg, f, r.s, d, ev.env);
      SettleAccounted(cfg, f, r.s, t, out, ev.env, r.sent);
    }
  }

  /** Conservation: for any file, any client and any run, the counter is what was sent. */
  lemma {:induction false} Conservation(cfg: Config, f: seq<Byte>, o: Outcome, events: seq<Event>)
    requires cfg.Consistent() && Serves(f, o.s) && (o.alive ==> o.s.error == ERR_NO_ERROR) && Accounted(cfg, o)
    ensures var r := Run(cfg, o, events);
            Serves(f, r.s) && (r.alive ==> r.s.error == ERR_NO_ERROR) && Accounted(cfg, r)
    decreases |events|
  {
    if events != [] {
      var n := |events| - 1;
      Conservation(cfg, f, o, events[..n]);
      var r, ev := Run(cfg, o, events[..n]), events[n];
      if r.alive {
        StepAccounted(cfg, f, r, ev);
      }
    }
  }

  // ---- how many packets a client can cause

  function DataCount(sent: seq<Packet>): nat {
    if sent == [] then 0
    else
      var n := |sent| - 1;
      DataCount(sent[..n]) + if sent[n].Data? then 1 else 0
  }

  lemma {:induction false} DataCountAdds(a: seq<Packet>, b: seq<Packet>)
    ensures DataCount(a + b) == DataCount(a) + DataCount(b)
    decreases |b|
  {
    if b == [] {
      assert a + b == a;
    } else {
      var n := |b| - 1;
      assert (a + b)[..|a| + n] == a + b[..n];
      DataCountAdds(a, b[..n]);
    }
  }

  lemma {:induction false} DataCountBelow(sent: seq<Packet>, w: nat)
    requires forall i :: 0 <= i < |sent| && sent[i].Data? ==> i < w
    ensures DataCount(sent) <= w
    ensures DataCount(sent) <= |sent|
    decreases |sent|
  {
    if sent != [] {
      var n := |sent| - 1;
      DataCountBelow(sent[..n], w);
    }
  }

  /** Resends along a run. */
  ghost function ResendCount(cfg: Config, o: Outcome, events: seq<Event>): nat
    requires cfg.Consistent() && WellFormed(o.s)
    decreases |events|
  {
    if events == [] then 0
    else
      var n := |events| - 1;
      var r := Run(cfg, o, events[..n]);
      ResendCount(cfg, o, events[..n]) + if r.alive && Resends(cfg, r.s, events[n]) then 1 else 0
  }

  /** A round without an accepted acknowledgement and without a resend sends no DATA and leaves a session
      that goes on where it was. */
  lemma QuietRound(cfg: Config, f: seq<Byte>, s: State, ev: Event)
    requires cfg.Consistent() && InWindow(f, s) && !Acked(s, ev) && !Resends(cfg, s, ev)
    ensures var r := Step(cfg, s, ev);
            DataCount(r.sent) == 0 && (r.alive ==> r.s == s && r.sent == [])
  {
    var d := Cut(s, ev.bytes);
    if d != [] {
      RejectedEffect(cfg, f, s, d, ev.env);
    }
    var r := Step(cfg, s, ev);
    if r.sent != [] {
      assert r.sent[..0] == [];
    }
  }

  /** Accepted acknowledgements along a run. */
  ghost function AckCount(cfg: Config, o: Outcome, events: seq<Event>): nat
    requires cfg.Consistent() && WellFormed(o.s)
    decreases |events|
  {
    if events == [] then 0
    else
      var n := |events| - 1;
      var r := Run(cfg, o, events[..n]);
      AckCount(cfg, o, events[..n]) + if r.alive && Acked(r.s, events[n]) then 1 else 0
  }

  /** A round sends DATA only for an accepted acknowledgement, which raises the base, or for an expired timeout,
      and then at most one window. */
  lemma StepCauses(cfg: Config, f: seq<Byte>, s: State, ev: Event)
    requires cfg.Consistent() && InWindow(f, s) && SeekFitsIn(s, ev)
    ensures var r := Step(cfg, s, ev);
            && r.s.first >= s.first + (if Acked(s, ev) then 1 else 0)
            && DataCount(r.sent) <= if Acked(s, ev) || Resends(cfg, s, ev) then s.windowSize else 0
  {
    StepEffect(cfg, f, s, ev);
    var r := Step(cfg, s, ev);
    if Acked(s, ev) || Resends(cfg, s, ev) {
      DataCountBelow(r.sent, s.windowSize);
    } else {
      QuietRound(cfg, f, s, ev);
    }
  }

  /** Every DATA packet so far was caused: a window at most for each accepted acknowledgement and each resend;
      and every accepted acknowledgement raised the base. */
  predicate PaidFor(o: Outcome, r: Outcome, acks: nat, resends: nat) {
    && r.s.windowSize == o.s.windowSize && r.s.first >= o.s.first + acks
    && DataCount(r.sent) <= DataCount(o.sent) + o.s.windowSize * (acks + resends)
  }

  lemma Paid(w: nat, before: nat, after: nat)
    requires before <= after
    ensures w * before <= w * after
    ensures before < after ==> w * before + w <= w * after
  {
    if before < after {
      assert w * (before + 1) == w * before + w;
      MulMono(before + 1, after, w);
    }
  }

  lemma AddRound(o: Outcome, r: Outcome, acks: nat, resends: nat, t: Outcome, acks1: nat, resends1: nat)
    requires PaidFor(o, r, acks, resends) && acks <= acks1 && resends <= resends1
    requires t.s.first >= r.s.first + acks1 - acks && t.s.windowSize == r.s.windowSize
    requires DataCount(t.sent) <= if acks1 + resends1 > acks + resends then o.s.windowSize else 0
    ensures PaidFor(o, Outcome(t.s, r.sent + t.sent, t.alive), acks1, resends1)
  {
    DataCountAdds(r.sent, t.sent);
    Paid(o.s.windowSize, acks + resends, acks1 + resends1);
  }

  lemma AmplificationRound(cfg: Config, f: seq<Byte>, o: Outcome, r: Outcome, ev: Event,
                           acks: nat, resends: nat, acks1: nat, resends1: nat)
    requires cfg.Consistent() && Sound(cfg, f, r) && r.alive && PaidFor(o, r, acks, resends)
    requires acks1 == acks + if Acked(r.s, ev) then 1 else 0
    requires resends1 == resends + if Resends(cfg, r.s, ev) then 1 else 0
    ensures var t := Step(cfg, r.s, ev); PaidFor(o, Outcome(t.s, r.sent + t.sent, t.alive), acks1, resends1)
  {
    NextSeekFits(cfg, f, r.s, ev);
    StepCauses(cfg, f, r.s, ev);
    AddRound(o, r, acks, resends, Step(cfg, r.s, ev), acks1, resends1);
  }

  /** No Sorcerer's Apprentice (section 4.2.3.1 of RFC 1123): over any run, however acknowledgements are
      duplicated or delayed, each accepted acknowledgement and each resend causes at most one window. */
  lemma {:induction false} Amplification(cfg: Config, f: seq<Byte>, o: Outcome, events: seq<Event>)
    requires cfg.Consistent() && Sound(cfg, f, o)
    ensures PaidFor(o, Run(cfg, o, events), AckCount(cfg, o, events), ResendCount(cfg, o, events))
    decreases |events|
  {
    if events != [] {
      var n := |events| - 1;
      var r, ev := Run(cfg, o, events[..n]), events[n];
      var acks, resends := AckCount(cfg, o, events[..n]), ResendCount(cfg, o, events[..n]);
      Amplification(cfg, f, o, events[..n]);
      RunSound(cfg, f, o, events[..n]);
      if r.alive {
        AmplificationRound(cfg, f, o, r, ev, acks, resends, AckCount(cfg, o, events), ResendCount(cfg, o, events));
      }
    }
  }

  /** The DATA packets of blocks 1..n, each once, in order. */
  function Trace(f: seq<Byte>, blockSize: nat, n: nat): seq<Packet> {
    if n == 0 then [] else Trace(f, blockSize, n - 1) + [Data(Word(n), Block(f, blockSize, n))]
  }

  lemma AckedRound(cfg: Config, f: seq<Byte>, s: State, d: Datagram, env: Env)
    requires cfg.Consistent() && InWindow(f, s) && s.windowSize == 1 && HasOp(d, OP_ACK) && AcceptsAck(s, d)
    requires s.readDone || SeekFits(s.blockSize, BlockNr(d) + 1)
    ensures var r := PacketRound(cfg, s, d, env);
            && (s.readDone ==> r.sent == [] && s.first == LastBlock(f, s))
            && (r.alive ==> r.sent == [Data(Word(r.s.first), Block(f, s.blockSize, r.s.first))])
  {
    AckedEffect(cfg, f, s, d, env);
    if !s.readDone {
      WindowSent(cfg, f, s.(first := s.first + 1), env);
    }
  }

  /** A round of a download with a window of one block. */
  lemma TracedRound(cfg: Config, f: seq<Byte>, s: State, ev: Event)
    requires cfg.Consistent() && InWindow(f, s) && SeeksFit(cfg, f, s) && s.windowSize == 1 && !Resends(cfg, s, ev)
    ensures var t := Step(cfg, s, ev);
            var acked := Acked(s, ev);
            && Sound(cfg, f, t) && t.s.first == s.first + (if acked then 1 else 0)
            && (t.s.transferDone ==> acked && t.sent == [] && s.first == LastBlock(f, s))
            && (t.alive ==> t.sent == if acked then [Data(Word(t.s.first), Block(f, s.blockSize, t.s.first))] else [])
  {
    StepKeeps(cfg, f, s, ev);
    if Acked(s, ev) {
      AckedRound(cfg, f, s, Cut(s, ev.bytes), ev.env);
    } else {
      QuietRound(cfg, f, s, ev);
    }
  }

  /** What a download with a window of one block has sent when nothing had to be resent. */
  predicate Traced(cfg: Config, f: seq<Byte>, r: Outcome) {
    && Sound(cfg, f, r) && r.s.windowSize == 1
    && (r.alive ==> r.sent == Trace(f, r.s.blockSize, r.s.first))
    && (r.s.transferDone ==> r.sent == Trace(f, r.s.blockSize, LastBlock(f, r.s)))
  }

  lemma TraceOn(cfg: Config, f: seq<Byte>, r: Outcome, t: Outcome, acked: bool)
    requires Traced(cfg, f, r) && r.alive && Sound(cfg, f, t) && SameShape(r.s, t.s)
    requires t.s.first == r.s.first + (if acked then 1 else 0)
    requires t.s.transferDone ==> acked && t.sent == [] && r.s.first == LastBlock(f, r.s)
    requires t.alive ==> t.sent == if acked then [Data(Word(t.s.first), Block(f, t.s.blockSize, t.s.first))] else []
    ensures Traced(cfg, f, Outcome(t.s, r.sent + t.sent, t.alive))
  {
    EmptyUnits(r.sent);
  }

  /** With a window of one block and no resends, the packets sent are blocks 1, 2, 3, ... without repeats, and a
      completed download sent each block of the file exactly once. */
  lemma {:induction false} NoRepeats(cfg: Config, f: seq<Byte>, o: Outcome, events: seq<Event>)
    requires cfg.Consistent() && Traced(cfg, f, o) && ResendCount(cfg, o, events) == 0
    ensures Traced(cfg, f, Run(cfg, o, events))
    decreases |events|
  {
    if events != [] {
      var n := |events| - 1;
      NoRepeats(cfg, f, o, events[..n]);
      var r := Run(cfg, o, events[..n]);
      if r.alive {
        TracedRound(cfg, f, r.s, events[n]);
        TraceOn(cfg, f, r, Step(cfg, r.s, events[n]), Acked(r.s, events[n]));
      }
    }
  }

  // ---- the client that stays silent

  /** A silent client's session: nothing but the byte counter, the position and the clock has moved. Of all seeks
      only the one to its base matters. */
  predicate Waiting(f: seq<Byte>, o: State, s: State) {
    && InWindow(f, s) && SeekFits(s.blockSize, s.first) && s.retry == 0
    && s.first == o.first && s.blockSize == o.blockSize && s.windowSize == o.windowSize
  }

  lemma ResendSettles(cfg: Config, f: seq<Byte>, s: State, env: Env)
    requires Serves(f, s) && 1 <= s.first <= LastBlock(f, s) && SeekFits(s.blockSize, s.first)
    requires s.error == ERR_NO_ERROR && !s.transferDone && !cfg.OverLimit(s.bytesHandled)
    ensures var r := WindowRound(cfg, s, env);
            if r.alive then
              && r.s.retry == 0 && r.s.bytesHandled == s.bytesHandled + WindowBytes(f, s)
              && !cfg.OverLimit(r.s.bytesHandled)
            else r.s.error != ERR_NO_ERROR
  {
    WholeWindow(cfg, f, s, env);
    WindowSent(cfg, f, s, env);
  }

  lemma ResendingRound(cfg: Config, f: seq<Byte>, s: State, env: Env)
    requires InWindow(f, s) && SeekFits(s.blockSize, s.first) && !cfg.OverLimit(s.bytesHandled)
    requires Expired(s, env.now) && s.retry + 1 < cfg.retryMax
    ensures var r := TimeoutRound(cfg, s, env);
            if r.alive then
              && InWindow(f, r.s) && r.s.retry == 0 && r.s.first == s.first && !cfg.OverLimit(r.s.bytesHandled)
              && r.s.bytesHandled == s.bytesHandled + WindowBytes(f, s)
            else r.s.error != ERR_NO_ERROR
  {
    var s1 := s.(retry := s.retry + 1);
    TimeoutEffect(cfg, f, s, env);
    RetryResends(cfg, s, s1, env);
    ResendSettles(cfg, f, s1, env);
  }

  /** Because a resend clears the retry counter, silence ends a session by giving up only when a single
      expired timeout is already one retry too many. */
  lemma SilentRound(cfg: Config, f: seq<Byte>, o: State, s: State, ev: Event)
    requires cfg.Consistent() && Waiting(f, o, s) && ev.bytes == []
    requires !cfg.OverLimit(s.bytesHandled)
    ensures var r := Step(cfg, s, ev);
            && (r.alive ==> Waiting(f, o, r.s) && !cfg.OverLimit(r.s.bytesHandled))
            && (r.alive ==> r.s.bytesHandled == s.bytesHandled + if Resends(cfg, s, ev) then WindowBytes(f, s) else 0)
            && (!r.alive && r.s.error == ERR_NO_ERROR <==> Expired(s, ev.env.now) && cfg.retryMax <= 1)
  {
    if Resends(cfg, s, ev) {
      ResendingRound(cfg, f, s, ev.env);
    } else {
      QuietRound(cfg, f, s, ev);
    }
  }

  /** The account of a silent client: each resend costs a window's bytes, and none of it counts as a retry. */
  predicate SilentAccount(cfg: Config, f: seq<Byte>, o: Outcome, r: Outcome, resends: nat) {
    && Serves(f, r.s) && o.s.first >= 1
    && (r.alive ==> Waiting(f, o.s, r.s) && !cfg.OverLimit(r.s.bytesHandled) &&
                    r.s.bytesHandled == o.s.bytesHandled + resends * WindowBytes(f, o.s))
    && (!r.alive && cfg.retryMax >= 2 ==> r.s.error != ERR_NO_ERROR)
    && (cfg.limit != 0 && resends > 0 ==> (resends - 1) * WindowBytes(f, o.s) <= cfg.Ceiling())
  }

  lemma SilentStep(cfg: Config, f: seq<Byte>, o: Outcome, r: Outcome, resends: nat, ev: Event, after: nat)
    requires cfg.Consistent() && o.s.first >= 1
    requires SilentAccount(cfg, f, o, r, resends) && r.alive && ev.bytes == []
    requires after == resends + if Resends(cfg, r.s, ev) then 1 else 0
    ensures var t := Step(cfg, r.s, ev); SilentAccount(cfg, f, o, Outcome(t.s, r.sent + t.sent, t.alive), after)
  {
    var p := WindowBytes(f, o.s);
    SilentRound(cfg, f, o.s, r.s, ev);
    TimeoutEffect(cfg, f, r.s, ev.env);
    Spread(resends, after - resends, p);
    Spread(after, -1, p);
    Spread(resends, -1, p);
  }

  /** With at least two retries configured, silence never ends a download by itself, contrary to what the
      setting promises; with a byte limit and a window that is not empty, the limit bounds the resends. */
  lemma {:induction false} SilentClient(cfg: Config, f: seq<Byte>, o: Outcome, events: seq<Event>)
    requires cfg.Consistent()
    requires o.alive && Waiting(f, o.s, o.s) && !cfg.OverLimit(o.s.bytesHandled)
    requires Silent(events)
    ensures SilentAccount(cfg, f, o, Run(cfg, o, events), ResendCount(cfg, o, events))
    decreases |events|
  {
    if events == [] {
    } else {
      var n := |events| - 1;
      var r, before := Run(cfg, o, events[..n]), ResendCount(cfg, o, events[..n]);
      SilentClient(cfg, f, o, events[..n]);
      if r.alive { SilentStep(cfg, f, o, r, before, events[n], ResendCount(cfg, o, events)); }
    }
  }

  lemma QuotientBound(k: nat, p: nat, c: nat)
    requires p > 0 && (k > 0 ==> (k - 1) * p <= c)
    ensures k <= c / p + 1
  {
    var q := c / p;
    assert c < (q + 1) * p;
    if k > 0 { MulStrict(k - 1, q + 1, p); }
  }

  /** So a non-empty window is resent at most limit / window + 1 times. */
  lemma ResendBound(cfg: Config, f: seq<Byte>, o: Outcome, events: seq<Event>)
    requires cfg.Consistent()
    requires o.alive && Waiting(f, o.s, o.s) && !cfg.OverLimit(o.s.bytesHandled)
    requires Silent(events) && cfg.limit != 0 && WindowBytes(f, o.s) > 0
    ensures ResendCount(cfg, o, events) <= cfg.Ceiling() / WindowBytes(f, o.s) + 1
  {
    SilentClient(cfg, f, o, events);
    QuotientBound(ResendCount(cfg, o, events), WindowBytes(f, o.s), cfg.Ceiling());
  }

  lemma SendsSucceed(cfg: Config, f: seq<Byte>, s: State, ev: Event)
    requires cfg.Consistent() && InWindow(f, s) && SeekFits(s.blockSize, s.first) && ev.bytes == [] && s.retry == 0
    requires !cfg.OverLimit(s.bytesHandled) && (cfg.limit == 0 || WindowBytes(f, s) == 0)
    requires cfg.retryMax >= 2 && ev.env.sendsOk >= s.windowSize
    ensures Step(cfg, s, ev).alive
  {
    if Expired(s, ev.env.now) {
      WholeWindow(cfg, f, s.(retry := 1), ev.env);
    }
  }

  /** Without a limit, or whatever the limit if the window is empty, the session outlives any silence while sending
      works: an empty block is sent again and again and costs nothing. */
  lemma {:induction false} SilentForever(cfg: Config, f: seq<Byte>, o: Outcome, events: seq<Event>)
    requires cfg.Consistent()
    requires o.alive && Waiting(f, o.s, o.s) && !cfg.OverLimit(o.s.bytesHandled)
    requires (cfg.limit == 0 || WindowBytes(f, o.s) == 0) && cfg.retryMax >= 2
    requires Silent(events) && SendsWork(events, o.s.windowSize)
    ensures var r := Run(cfg, o, events);
            && r.alive && Waiting(f, o.s, r.s) && !cfg.OverLimit(r.s.bytesHandled)
            && (WindowBytes(f, o.s) == 0 ==> r.s.bytesHandled == o.s.bytesHandled)
    decreases |events|
  {
    if events != [] {
      var n := |events| - 1;
      SilentForever(cfg, f, o, events[..n]);
      var r := Run(cfg, o, events[..n]);
      SilentRound(cfg, f, o.s, r.s, events[n]);
      SendsSucceed(cfg, f, r.s, events[n]);
    }
  }

  lemma OneMoreEvent(cfg: Config, o: Outcome, events: seq<Event>, ev: Event)
    requires cfg.Consistent() && WellFormed(o.s)
    ensures var r := Run(cfg, o, events);
            ResendCount(cfg, o, events + [ev]) ==
            ResendCount(cfg, o, events) + if r.alive && Resends(cfg, r.s, ev) then 1 else 0
  {
    assert (events + [ev])[..|events|] == events;
  }

  /** Such a session resends as often as one likes. */
  lemma {:induction false} ManyResends(cfg: Config, f: seq<Byte>, o: Outcome, k: nat) returns (events: seq<Event>)
    requires cfg.Consistent()
    requires o.alive && Waiting(f, o.s, o.s) && !cfg.OverLimit(o.s.bytesHandled)
    requires (cfg.limit == 0 || WindowBytes(f, o.s) == 0) && cfg.retryMax >= 2
    ensures Silent(events) && SendsWork(events, o.s.windowSize) && ResendCount(cfg, o, events) == k
    decreases k
  {
    events := [];
    if k > 0 {
      events := ManyResends(cfg, f, o, k - 1);
      SilentForever(cfg, f, o, events);
      var s := Run(cfg, o, events).s;
      var ev := Event([], Env(s.stamp + s.packetTimeout * 1000, o.s.windowSize, true, None));
      OneMoreEvent(cfg, o, events, ev);
      events := events + [ev];
    }
  }

  lemma {:induction false} NoResends(cfg: Config, f: seq<Byte>, o: Outcome, events: seq<Event>)
    requires cfg.Consistent() && cfg.retryMax <= 1 && Silent(events)
    requires o.alive && Waiting(f, o.s, o.s) && !cfg.OverLimit(o.s.bytesHandled)
    ensures ResendCount(cfg, o, events) == 0
    decreases |events|
  {
    if events != [] {
      var n := |events| - 1;
      NoResends(cfg, f, o, events[..n]);
      SilentClient(cfg, f, o, events[..n]);
    }
  }

  ghost predicate ResendsAtMost(cfg: Config, o: Outcome, bound: nat)
    requires cfg.Consistent() && WellFormed(o.s)
  {
    forall events :: Silent(events) ==> ResendCount(cfg, o, events) <= bound
  }

  /** Whether anything bounds what a silent client makes the server send again: only a retry setting that allows no
      resend, or a byte limit over a window that is not empty. */
  lemma ResendsBoundedIff(cfg: Config, f: seq<Byte>, o: Outcome)
    requires cfg.Consistent()
    requires o.alive && Waiting(f, o.s, o.s) && !cfg.OverLimit(o.s.bytesHandled)
    ensures (exists bound :: ResendsAtMost(cfg, o, bound))
            <==> cfg.retryMax <= 1 || (cfg.limit != 0 && WindowBytes(f, o.s) > 0)
  {
    if cfg.retryMax <= 1 {
      forall events | Silent(events) ensures ResendCount(cfg, o, events) <= 0 { NoResends(cfg, f, o, events); }
      assert ResendsAtMost(cfg, o, 0);
    } else if cfg.limit != 0 && WindowBytes(f, o.s) > 0 {
      var bound := cfg.Ceiling() / WindowBytes(f, o.s) + 1;
      forall events | Silent(events) ensures ResendCount(cfg, o, events) <= bound { ResendBound(cfg, f, o, events); }
      assert ResendsAtMost(cfg, o, bound);
    } else {
      forall bound: nat ensures !ResendsAtMost(cfg, o, bound) {
        var events := ManyResends(cfg, f, o, bound + 1);
      }
    }
  }
}
