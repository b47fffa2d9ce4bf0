/** Uploads against any client whatsoever: acknowledgement arithmetic, byte accounting and termination. */
module UploadLaws {
  import opened Wire
  import opened Settings
  import opened Blocks
  import opened Protocol

  /** An error-free, unfinished upload between two packets: the window array is all zero. */
  predicate Clean(s: State) {
    && WellFormed(s) && s.op == ClientToServer && s.comm
    && s.error == ERR_NO_ERROR && !s.transferDone
    && s.received == Zeros(s.windowSize)
    && 0 <= s.first <= 65535
  }

  /** By how much a stored block moves the acknowledgement: one if it is the first of its window slot row
      and not empty, else nothing. */
  function Advance(s: State, d: Datagram): nat
    requires |d| >= HEADER_SIZE && s.windowSize > 0
  {
    if Slot(s, BlockNr(d)) == 0 && |d| > HEADER_SIZE then 1 else 0
  }

  predicate StoresData(cfg: Config, s: State, d: Datagram) {
    HasOp(d, OP_DATA) && JudgeData(cfg, s, d) == Stored
  }

  /** After one store into a zero array the leading run has length one or none. */
  lemma LeadingOfOne(w: nat, slot: nat, size: nat)
    requires slot < w
    ensures LeadingCount(Zeros(w)[slot := size]) == if slot == 0 && size > 0 then 1 else 0
  {
    var r := Zeros(w)[slot := size];
    var n := LeadingCount(r);
    if slot == 0 && size > 0 {
      assert r[0] > 0;
      if w > 1 { assert r[1] == 0; }
    } else {
      assert r[0] <= 0;
    }
  }

  /** Storing a block and acknowledging it: the acknowledgement advances by at most one, fits in 16 bits
      and never passes the block's own number, and the array is zero again. */
  lemma StoredEffect(cfg: Config, s: State, d: Datagram, env: Env)
    requires Clean(s) && JudgeData(cfg, s, d) == Stored
    ensures var (t, out) := OnData(cfg, s, d, env);
            var nr := s.first + Advance(s, d);
            && nr <= BlockNr(d)
            && t.transferDone == (|d| < s.blockSize + HEADER_SIZE)
            && t.bytesHandled == s.bytesHandled + |d|
            && t.file == StoreData(s, d).file
            && t.retry == (if |d| > HEADER_SIZE then 0 else s.retry)
            && (if env.sendsOk == 0 then t.error == ERR_UNDEFINED && out == [] && t.first == s.first
                else t.error == ERR_NO_ERROR && out == [Ack(nr)] && t.first == nr && t.stamp == env.now
                     && t.received == Zeros(s.windowSize))
  {
    LeadingOfOne(s.windowSize, Slot(s, BlockNr(d)), |d| - HEADER_SIZE);
  }

  /** The "already stored" branch cannot be reached. */
  lemma NeverDuplicate(cfg: Config, s: State, d: Datagram)
    requires Clean(s)
    ensures JudgeData(cfg, s, d) != Duplicate
  {
  }

  // ---- one round

  /** Bytes this packet adds to the counter. */
  function Counts(d: Datagram): nat {
    if HasOp(d, OP_DATA) && |d| >= HEADER_SIZE then |d| else 0
  }

  /** The acknowledgements in `sent` all carry number `nr`. */
  predicate OnlyAcks(sent: seq<Packet>, nr: int) {
    |sent| <= 2 && forall i :: 0 <= i < |sent| ==> (sent[i].Ack? && sent[i].nr == nr) || sent[i].Error?
  }

  predicate EndsUpload(s: State, r: Outcome, first: int) {
    && r.s.op == ClientToServer && SameShape(s, r.s)
    && r.s.first == first && OnlyAcks(r.sent, first)
    && (r.alive ==> Clean(r.s))
  }

  lemma StoredRound(cfg: Config, s: State, d: Datagram, env: Env)
    requires cfg.Consistent() && Clean(s) && StoresData(cfg, s, d)
    ensures var r := PacketRound(cfg, s, d, env);
            && EndsUpload(s, r, if env.sendsOk == 0 then s.first else s.first + Advance(s, d))
            && r.s.file == StoreData(s, d).file
            && r.s.transferDone == (|d| < s.blockSize + HEADER_SIZE)
            && r.s.bytesHandled == s.bytesHandled + |d|
            && (r.alive ==> r.s.retry == (if |d| > HEADER_SIZE then 0 else s.retry) && r.s.stamp == env.now)
  {
    StoredEffect(cfg, s, d, env);
  }

  /** Any packet that is not stored changes at most the byte counter and the error. */
  lemma IgnoredRound(cfg: Config, s: State, d: Datagram, env: Env)
    requires cfg.Consistent() && Clean(s) && !StoresData(cfg, s, d)
    ensures var (t, out) := OnPacket(cfg, s, d, env);
            && out == [] && t == s.(error := t.error, bytesHandled := s.bytesHandled + Counts(d))
            && (t.error == ERR_NO_ERROR && HasOp(d, OP_DATA) ==> |d| >= HEADER_SIZE && !cfg.OverLimit(t.bytesHandled))
    ensures EndsUpload(s, PacketRound(cfg, s, d, env), s.first)
    ensures PacketRound(cfg, s, d, env).alive ==> PacketRound(cfg, s, d, env).s == OnPacket(cfg, s, d, env).0
    ensures !PacketRound(cfg, s, d, env).s.transferDone && PacketRound(cfg, s, d, env).s.file == s.file
    ensures PacketRound(cfg, s, d, env).s.bytesHandled == s.bytesHandled + Counts(d)
  {
    NeverDuplicate(cfg, s, d);
  }

  lemma LeadingOfNone(w: nat)
    ensures LeadingCount(Zeros(w)) == 0
  {
    if w > 0 { assert Zeros(w)[0] == 0; }
  }

  /** An expired timeout repeats the last acknowledgement. */
  lemma SilentUploadRound(cfg: Config, s: State, env: Env)
    requires Clean(s)
    ensures var r := TimeoutRound(cfg, s, env);
            && EndsUpload(s, r, s.first)
            && r.s.file == s.file && !r.s.transferDone && r.s.bytesHandled == s.bytesHandled
            && (r.alive <==> !Expired(s, env.now) || (s.retry + 1 < cfg.retryMax && env.sendsOk > 0))
            && (r.alive && !Expired(s, env.now) ==> r.s == s)
            && (r.alive && Expired(s, env.now) ==>
                  && r.s == s.(retry := s.retry + 1, stamp := env.now) && r.s.retry < cfg.retryMax
                  && r.sent == [Ack(s.first)])
  {
    LeadingOfNone(s.windowSize);
    assert Word(s.first) == s.first;
  }

  /** What one round does to an upload, for any client and any window size: the acknowledgement advances by
      at most one, never passes the number of the block that moved it, and the array is clean again. */
  lemma UploadRound(cfg: Config, s: State, ev: Event)
    requires cfg.Consistent() && Clean(s)
    ensures var r, d := Step(cfg, s, ev), Cut(s, ev.bytes);
            && EndsUpload(s, r, r.s.first)
            && s.first <= r.s.first <= s.first + 1
            && (r.s.first > s.first ==> StoresData(cfg, s, d) && r.s.first <= BlockNr(d))
            && r.s.bytesHandled == s.bytesHandled + Counts(d)
            && (!StoresData(cfg, s, d) ==> r.s.file == s.file && !r.s.transferDone)
  {
    var d := Cut(s, ev.bytes);
    if d == [] {
      SilentUploadRound(cfg, s, ev.env);
    } else if StoresData(cfg, s, d) {
      StoredEffect(cfg, s, d, ev.env);
      StoredRound(cfg, s, d, ev.env);
    } else {
      IgnoredRound(cfg, s, d, ev.env);
    }
  }

  // ---- whole runs

  /** The numbers acknowledged so far never decrease, and the last is the session's base. */
  predicate AcksInOrder(sent: seq<Packet>, top: int) {
    && (forall i :: 0 <= i < |sent| && sent[i].Ack? ==> sent[i].nr <= top)
    && (forall i, j :: 0 <= i < j < |sent| && sent[i].Ack? && sent[j].Ack? ==> sent[i].nr <= sent[j].nr)
  }

  lemma AcksExtend(a: seq<Packet>, low: int, b: seq<Packet>, high: int)
    requires AcksInOrder(a, low) && low <= high && OnlyAcks(b, high)
    ensures AcksInOrder(a + b, high)
  {
  }

  /** The highest block number among the DATA packets handed to the session. */
  function Highest(events: seq<Event>): int {
    if events == [] then 0
    else
      var n := |events| - 1;
      var d, h := events[n].bytes, Highest(events[..n]);
      if HasOp(d, OP_DATA) && |d| >= HEADER_SIZE && BlockNr(d) > h then BlockNr(d) else h
  }

  predicate Orderly(o: Outcome, r: Outcome, events: seq<Event>) {
    && (r.alive ==> Clean(r.s))
    && o.s.first <= r.s.first <= 65535
    && (r.s.first <= o.s.first || r.s.first <= Highest(events))
    && AcksInOrder(r.sent, r.s.first)
  }

  /** Over any run of an upload, acknowledgements never decrease, never wrap and never exceed the highest
      block number received. */
  lemma {:induction false} AckArithmetic(cfg: Config, o: Outcome, events: seq<Event>)
    requires cfg.Consistent() && WellFormed(o.s) && (o.alive ==> Clean(o.s))
    requires 0 <= o.s.first <= 65535 && AcksInOrder(o.sent, o.s.first)
    ensures Orderly(o, Run(cfg, o, events), events)
    decreases |events|
  {
    if events != [] {
      var n := |events| - 1;
      AckArithmetic(cfg, o, events[..n]);
      var r := Run(cfg, o, events[..n]);
      if r.alive {
        UploadRound(cfg, r.s, events[n]);
        var t := Step(cfg, r.s, events[n]);
        AcksExtend(r.sent, r.s.first, t.sent, t.s.first);
        CutKeepsHeader(r.s, events[n].bytes);
      }
    }
  }

  /** Payload bytes of all packets stored along a run, plus a header for each. */
  ghost function StoredBytes(cfg: Config, o: Outcome, events: seq<Event>): nat
    requires cfg.Consistent() && WellFormed(o.s)
    decreases |events|
  {
    if events == [] then 0
    else
      var n := |events| - 1;
      var r := Run(cfg, o, events[..n]);
      var d := Cut(r.s, events[n].bytes);
      StoredBytes(cfg, o, events[..n]) + if r.alive && StoresData(cfg, r.s, d) then |Payload(d)| + HEADER_SIZE else 0
  }

  lemma WithinLimitRound(cfg: Config, s: State, ev: Event)
    requires cfg.Consistent() && Clean(s) && !cfg.OverLimit(s.bytesHandled)
    ensures var r, d := Step(cfg, s, ev), Cut(s, ev.bytes);
            && (r.alive ==> !cfg.OverLimit(r.s.bytesHandled))
            && (StoresData(cfg, s, d) ==> !cfg.OverLimit(r.s.bytesHandled) && r.s.bytesHandled == s.bytesHandled + |d|)
  {
    var d := Cut(s, ev.bytes);
    if d == [] {
      SilentUploadRound(cfg, s, ev.env);
    } else if StoresData(cfg, s, d) {
      StoredRound(cfg, s, d, ev.env);
    } else {
      IgnoredRound(cfg, s, d, ev.env);
    }
  }

  /** Whatever a client sends, the payload bytes passed to the file, plus four per stored packet, never
      exceed the byte limit. */
  lemma {:induction false} UploadWithinLimit(cfg: Config, o: Outcome, events: seq<Event>)
    requires cfg.Consistent() && WellFormed(o.s) && (o.alive ==> Clean(o.s)) && !cfg.OverLimit(o.s.bytesHandled)
    ensures var r, stored := Run(cfg, o, events), StoredBytes(cfg, o, events);
            && (r.alive ==> Clean(r.s) && !cfg.OverLimit(r.s.bytesHandled))
            && o.s.bytesHandled + stored <= r.s.bytesHandled
            && (cfg.limit != 0 ==> o.s.bytesHandled + stored <= cfg.Ceiling())
    decreases |events|
  {
    if events != [] {
      var n := |events| - 1;
      UploadWithinLimit(cfg, o, events[..n]);
      var r := Run(cfg, o, events[..n]);
      if r.alive {
        UploadRound(cfg, r.s, events[n]);
        WithinLimitRound(cfg, r.s, events[n]);
      }
    }
  }

  // ---- termination

  function Clock(events: seq<Event>, start: int): int {
    if events == [] then start else events[|events| - 1].env.now
  }

  /** The events of this theorem: DATA packets and receive timeouts, on a clock that does not run
      backwards and advances at least one second per timeout. */
  predicate Timely(events: seq<Event>, start: int) {
    events == [] ||
    var n := |events| - 1;
    Timely(events[..n], start) &&
    var last, ev := Clock(events[..n], start), events[n];
    if ev.bytes == [] then ev.env.now >= last + 1000 else HasOp(ev.bytes, OP_DATA) && ev.env.now >= last
  }

  /** Retries that still can happen without giving up. */
  function RetriesLeft(cfg: Config, s: State): int {
    (if cfg.retryMax < 1 then 1 else cfg.retryMax) - s.retry
  }

  /** Receive timeouts that still can pass before one counts as expired, one second each. */
  function SecondsLeft(s: State, now: int): int {
    if Expired(s, now) then 0 else (s.packetTimeout * 1000 - (now - s.stamp) + 999) / 1000
  }

  /** A live upload that still waits for its client. */
  predicate Patient(cfg: Config, s: State, now: int) {
    Clean(s) && s.stamp <= now && s.packetTimeout >= 0 && 0 <= s.retry && RetriesLeft(cfg, s) >= 1
  }

  /** How long it waits, in seconds: retries first, then time. */
  function Patience(cfg: Config, s: State, now: int): int {
    RetriesLeft(cfg, s) * (s.packetTimeout + 1) + SecondsLeft(s, now)
  }

  /** What a live upload still has to spend. */
  predicate Budgeted(cfg: Config, s: State, now: int) {
    Patient(cfg, s, now) && cfg.limit != 0 && s.bytesHandled <= cfg.Ceiling()
  }

  /** Byte budget first, then patience: each unit is worth all a round can restore of the ones below. */
  function Fuel(cfg: Config, s: State, now: int): int {
    var perByte := (if cfg.retryMax < 1 then 1 else cfg.retryMax) * (s.packetTimeout + 1);
    (cfg.Ceiling() - s.bytesHandled) * perByte + Patience(cfg, s, now)
  }

  lemma SecondsBound(s: State, now: int)
    requires s.stamp <= now && s.packetTimeout >= 0
    ensures 0 <= SecondsLeft(s, now) <= s.packetTimeout
  {
  }

  /** Waiting one more second without expiry uses up one second. */
  lemma SecondsPass(s: State, before: int, now: int)
    requires s.stamp <= before && before + 1000 <= now && !Expired(s, now)
    ensures SecondsLeft(s, now) <= SecondsLeft(s, before) - 1
  {
  }

  /** Four bytes pay for all retries and all seconds a stored packet restores. */
  lemma BytesPay(left: int, used: int, r0: int, r1: int, most: int, perRetry: int, t0: int, t1: int)
    requires used >= 4 && most >= 1 && perRetry >= 1
    requires 1 <= r0 && r1 <= most && 0 <= t0 && t1 <= perRetry - 1
    ensures (left - used) * (most * perRetry) + r1 * perRetry + t1 < left * (most * perRetry) + r0 * perRetry + t0
  {
    var p := most * perRetry;
    assert (left - used) * p == left * p - used * p;
    MulMono(4, used, p);
    MulMono(r1, most, perRetry);
    MulMono(1, most, perRetry);
    MulMono(1, r0, perRetry);
  }

  lemma PatienceOnTimeout(cfg: Config, s: State, before: int, env: Env)
    requires Patient(cfg, s, before) && env.now >= before + 1000
    ensures var r := TimeoutRound(cfg, s, env);
            r.alive ==> Patient(cfg, r.s, env.now) && Patience(cfg, r.s, env.now) < Patience(cfg, s, before)
  {
    SilentUploadRound(cfg, s, env);
    var r := TimeoutRound(cfg, s, env);
    if r.alive {
      SecondsBound(s, before);
      if Expired(s, env.now) {
        SecondsBound(r.s, env.now);
        var p := s.packetTimeout + 1;
        assert (RetriesLeft(cfg, s) - 1) * p == RetriesLeft(cfg, s) * p - p;
      } else {
        SecondsPass(s, before, env.now);
      }
    }
  }

  lemma FuelOnTimeout(cfg: Config, s: State, before: int, env: Env)
    requires Budgeted(cfg, s, before) && env.now >= before + 1000
    ensures var r := TimeoutRound(cfg, s, env);
            r.alive ==> Budgeted(cfg, r.s, env.now) && Fuel(cfg, r.s, env.now) < Fuel(cfg, s, before)
  {
    SilentUploadRound(cfg, s, env);
    PatienceOnTimeout(cfg, s, before, env);
  }

  lemma FuelOnData(cfg: Config, s: State, before: int, d: Datagram, env: Env)
    requires cfg.Consistent() && Budgeted(cfg, s, before) && env.now >= before && HasOp(d, OP_DATA)
    ensures var r := PacketRound(cfg, s, d, env);
            r.alive ==>
              && Budgeted(cfg, r.s, env.now) && Fuel(cfg, r.s, env.now) < Fuel(cfg, s, before)
              && r.s.bytesHandled >= s.bytesHandled + 4
  {
    var r := PacketRound(cfg, s, d, env);
    if StoresData(cfg, s, d) {
      StoredRound(cfg, s, d, env);
    } else {
      IgnoredRound(cfg, s, d, env);
    }
    if r.alive {
      SecondsBound(s, before);
      SecondsBound(r.s, env.now);
      var most := if cfg.retryMax < 1 then 1 else cfg.retryMax;
      BytesPay(cfg.Ceiling() - s.bytesHandled, |d|, RetriesLeft(cfg, s), RetriesLeft(cfg, r.s), most,
               s.packetTimeout + 1, SecondsLeft(s, before), SecondsLeft(r.s, env.now));
    }
  }

  function DataEvents(events: seq<Event>): nat {
    if events == [] then 0
    else
      var n := |events| - 1;
      DataEvents(events[..n]) + if events[n].bytes == [] then 0 else 1
  }

  /** What a live run has spent. */
  predicate Spent(cfg: Config, o: Outcome, r: Outcome, events: seq<Event>, start: int) {
    r.alive ==>
      && Budgeted(cfg, r.s, Clock(events, start))
      && Fuel(cfg, r.s, Clock(events, start)) + |events| <= Fuel(cfg, o.s, start)
      && r.s.bytesHandled >= o.s.bytesHandled + 4 * DataEvents(events)
  }

  lemma {:induction false} RunSpends(cfg: Config, o: Outcome, events: seq<Event>, start: int)
    requires cfg.Consistent() && o.alive && Budgeted(cfg, o.s, start) && Timely(events, start)
    ensures Spent(cfg, o, Run(cfg, o, events), events, start)
    decreases |events|
  {
    if events != [] {
      var n := |events| - 1;
      var r, ev, before := Run(cfg, o, events[..n]), events[n], Clock(events[..n], start);
      RunSpends(cfg, o, events[..n], start);
      if r.alive {
        CutKeepsHeader(r.s, ev.bytes);
        if ev.bytes == [] {
          FuelOnTimeout(cfg, r.s, before, ev.env);
        } else {
          FuelOnData(cfg, r.s, before, Cut(r.s, ev.bytes), ev.env);
        }
      }
    }
  }

  lemma FuelNotNegative(cfg: Config, s: State, now: int)
    requires Budgeted(cfg, s, now)
    ensures Fuel(cfg, s, now) >= 0
  {
    SecondsBound(s, now);
    var most, perRetry := if cfg.retryMax < 1 then 1 else cfg.retryMax, s.packetTimeout + 1;
    MulMono(0, most, perRetry);
    MulMono(0, cfg.Ceiling() - s.bytesHandled, most * perRetry);
    MulMono(0, RetriesLeft(cfg, s), perRetry);
  }

  /** Termination: with a byte limit, an upload fed only DATA packets and timeouts ends. A session still
      alive has seen at most limit / 4 DATA packets and a bounded number of events in all. */
  lemma UploadEnds(cfg: Config, o: Outcome, events: seq<Event>, start: int)
    requires cfg.Consistent() && o.alive && Budgeted(cfg, o.s, start) && Timely(events, start)
    requires Run(cfg, o, events).alive
    ensures 4 * DataEvents(events) <= cfg.Ceiling()
    ensures |events| <= Fuel(cfg, o.s, start)
  {
    RunSpends(cfg, o, events, start);
    var s, now := Run(cfg, o, events).s, Clock(events, start);
    SecondsBound(s, now);
    FuelNotNegative(cfg, s, now);
  }

  // ---- the client that stays silent

  /** Expired timeouts a session lived to see. */
  ghost function Expirations(cfg: Config, o: Outcome, events: seq<Event>): nat
    requires cfg.Consistent() && WellFormed(o.s)
    decreases |events|
  {
    if events == [] then 0
    else
      var n := |events| - 1;
      var r := Run(cfg, o, events[..n]);
      Expirations(cfg, o, events[..n]) + if r.alive && Expired(r.s, events[n].env.now) then 1 else 0
  }

  /** The account of an upload whose client is silent: every expired timeout counts as a retry, the file stays, and
      with working sends the session lives exactly as long as retries are left. */
  predicate Forsaken(cfg: Config, o: Outcome, r: Outcome, expired: nat, sends: bool) {
    && expired <= RetriesLeft(cfg, o.s) && r.s.file == o.s.file && !r.s.transferDone
    && (r.alive ==> Clean(r.s) && r.s.retry == o.s.retry + expired)
    && (r.alive ==> expired == 0 || o.s.retry + expired < cfg.retryMax)
    && (sends && !r.alive ==> expired > 0 && o.s.retry + expired >= cfg.retryMax)
  }

  /** Unlike a download, an upload is given up on, whatever the limit: a repeated acknowledgement leaves the retry
      counter alone. */
  lemma {:induction false} SilentUpload(cfg: Config, o: Outcome, events: seq<Event>)
    requires cfg.Consistent() && o.alive && Clean(o.s) && RetriesLeft(cfg, o.s) >= 1 && Silent(events)
    ensures Forsaken(cfg, o, Run(cfg, o, events), Expirations(cfg, o, events), SendsWork(events, 1))
    decreases |events|
  {
    if events != [] {
      var n := |events| - 1;
      SilentUpload(cfg, o, events[..n]);
      var r := Run(cfg, o, events[..n]);
      if r.alive { SilentUploadRound(cfg, r.s, events[n].env); }
    }
  }

  /** So on a clock that advances a second per timeout the session ends within its patience. */
  lemma {:induction false} SilentUploadEnds(cfg: Config, o: Outcome, events: seq<Event>, start: int)
    requires cfg.Consistent() && o.alive && Patient(cfg, o.s, start) && Timely(events, start) && Silent(events)
    ensures var r, now := Run(cfg, o, events), Clock(events, start);
            r.alive ==> Patient(cfg, r.s, now) && |events| + Patience(cfg, r.s, now) <= Patience(cfg, o.s, start)
    decreases |events|
  {
    if events != [] {
      var n := |events| - 1;
      SilentUploadEnds(cfg, o, events[..n], start);
      var r := Run(cfg, o, events[..n]);
      if r.alive { PatienceOnTimeout(cfg, r.s, Clock(events[..n], start), events[n].env); }
    }
  }
}
