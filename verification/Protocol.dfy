/** The session engine as functions on values: what each packet, each receive timeout and each
    round of the communication loop does to a session, and which datagrams it sends. */
module Protocol {
  import opened Wire
  import opened Settings
  import opened Blocks
  import opened Request

  datatype Operation = NotInitialized | ClientToServer | ServerToClient

  /** A `FILE*`: its bytes and the position of the next read or write. */
  datatype OpenFile = OpenFile(content: seq<Byte>, cursor: nat)

  const ERR_UNDEFINED := 0
  const ERR_FILE_NOT_FOUND := 1
  const ERR_DISK_FULL := 3
  const ERR_ILLEGAL_OPERATION := 4
  const ERR_NO_ERROR := 0xFF

  /** The fields of a session. `received` is empty until a write request allocates it. */
  datatype State = State(
    file: Option<OpenFile>,
    op: Operation,
    bytesHandled: nat,
    stamp: int,
    retry: int,
    error: int,
    comm: bool,
    readDone: bool,
    transferDone: bool,
    blockSize: nat,
    packetTimeout: int,
    windowSize: nat,
    first: int,
    received: seq<int>)

  /** What the outside world answers while one event is handled: the clock, how many `send` calls
      succeed before one fails, whether a socket is available, and what opening the file yields. */
  datatype Env = Env(now: int, sendsOk: nat, socketOk: bool, opens: Option<seq<Byte>>)

  /** One return of `recv`; no bytes stand for a timeout, for a failure, and for an empty datagram. */
  datatype Event = Event(bytes: Datagram, env: Env)

  /** A session after some rounds of its loop: everything it sent, and whether the loop goes on. */
  datatype Outcome = Outcome(s: State, sent: seq<Packet>, alive: bool)

  function Fresh(cfg: Config, now: int): State {
    State(None, NotInitialized, 0, now, 0, ERR_NO_ERROR, false, false, false, 512, cfg.timeoutMin, 1, 0, [])
  }

  /** What no packet of a running session changes. */
  predicate SameShape(s: State, t: State) {
    && t.op == s.op && t.comm == s.comm
    && t.blockSize == s.blockSize && t.windowSize == s.windowSize && t.packetTimeout == s.packetTimeout
    && |t.received| == |s.received|
  }

  // ---- sending a window

  /** `fseek` to a computed offset: a negative one is refused and leaves the position alone. */
  function Seek(cursor: nat, offset: int): nat {
    if offset < 0 then cursor else offset
  }

  lemma LimitMonotone(cfg: Config, low: nat, high: nat)
    requires low <= high
    ensures cfg.OverLimit(low) ==> cfg.OverLimit(high)
  {
  }

  /** How far a planned window gets: payloads sent, the byte count afterwards, and the error if it stops early. */
  datatype Progress = Progress(count: nat, bytes: nat, error: int)

  function Transmit(cfg: Config, plan: seq<seq<Byte>>, bytes: nat, sendsOk: nat): (p: Progress)
    ensures p.count <= |plan|
    ensures p.error == ERR_UNDEFINED ==> p.count < |plan|
    ensures p.error == ERR_NO_ERROR ==> p.count == |plan|
    ensures p.error in {ERR_NO_ERROR, ERR_UNDEFINED, ERR_DISK_FULL}
    decreases |plan|
  {
    if plan == [] then Progress(0, bytes, ERR_NO_ERROR)
    else if sendsOk == 0 then Progress(0, bytes, ERR_UNDEFINED)
    else
      var total := bytes + |plan[0]|;
      if cfg.OverLimit(total) then Progress(1, total, ERR_DISK_FULL)
      else
        var p := Transmit(cfg, plan[1..], total, sendsOk - 1);
        Progress(p.count + 1, p.bytes, p.error)
  }

  /** Payloads as DATA packets with consecutive numbers, cut to 16 bits. */
  function Numbered(first: int, payloads: seq<seq<Byte>>): (ds: seq<Packet>)
    ensures |ds| == |payloads|
  {
    if payloads == [] then []
    else
      var n := |payloads| - 1;
      Numbered(first, payloads[..n]) + [Data(Word(first + n), payloads[n])]
  }

  lemma {:induction false} NumberedAt(first: int, payloads: seq<seq<Byte>>, i: nat)
    requires i < |payloads|
    ensures Numbered(first, payloads)[i] == Data(Word(first + i), payloads[i])
    decreases |payloads|
  {
    var n := |payloads| - 1;
    if i < n { NumberedAt(first, payloads[..n], i); }
  }

  function TotalSize(payloads: seq<seq<Byte>>): nat {
    if payloads == [] then 0
    else
      var n := |payloads| - 1;
      TotalSize(payloads[..n]) + |payloads[n]|
  }

  predicate HasShort(payloads: seq<seq<Byte>>, blockSize: nat) {
    payloads != [] &&
    var n := |payloads| - 1;
    |payloads[n]| < blockSize || HasShort(payloads[..n], blockSize)
  }

  /** The payloads of the window at the current file position. */
  function Plan(s: State): seq<seq<Byte>>
    requires s.file.Some?
  {
    Window(s.file.value.content, s.file.value.cursor, s.blockSize, s.windowSize)
  }

  /** The payloads taken from the file: a payload whose `send` fails has already been read. */
  function ReadFrom(plan: seq<seq<Byte>>, p: Progress): seq<seq<Byte>>
    requires p.count <= |plan| && (p.error == ERR_UNDEFINED ==> p.count < |plan|)
  {
    plan[..if p.error == ERR_UNDEFINED then p.count + 1 else p.count]
  }

  /** The session after a window that got as far as `p` says. */
  function AfterWindow(s: State, plan: seq<seq<Byte>>, p: Progress, env: Env): (r: State)
    requires s.file.Some? && p.count <= |plan| && (p.error == ERR_UNDEFINED ==> p.count < |plan|)
    ensures SameShape(s, r)
  {
    var read := ReadFrom(plan, p);
    var s1 := s.(file := Some(OpenFile(s.file.value.content, s.file.value.cursor + TotalSize(read))),
                 readDone := s.readDone || HasShort(read, s.blockSize),
                 bytesHandled := p.bytes);
    if p.error != ERR_NO_ERROR then s1.(error := p.error) else s1.(retry := 0, stamp := env.now)
  }

  function Rewind(s: State): (r: State)
    requires s.file.Some?
    ensures SameShape(s, r) && r.file.Some?
  {
    s.(file := Some(OpenFile(s.file.value.content, Seek(s.file.value.cursor, Wrap32((s.first - 1) * s.blockSize)))))
  }

  /** `SMSG_DATA` from the current file position. */
  function SendHere(cfg: Config, s: State, env: Env): (r: (State, seq<Packet>))
    requires s.file.Some?
    ensures SameShape(s, r.0)
  {
    var plan := Plan(s);
    var p := Transmit(cfg, plan, s.bytesHandled, env.sendsOk);
    (AfterWindow(s, plan, p, env), Numbered(s.first, plan[..p.count]))
  }

  /** `SMSG_DATA` */
  function SendWindow(cfg: Config, s: State, env: Env): (r: (State, seq<Packet>))
    ensures SameShape(s, r.0)
  {
    if s.file.None? then (s, []) else SendHere(cfg, Rewind(s), env)
  }

  // ---- acknowledging

  /** Length of the leading run of received blocks in the window array. */
  function LeadingCount(received: seq<int>): (n: nat)
    ensures n <= |received|
    ensures forall i :: 0 <= i < n ==> received[i] > 0
    ensures n < |received| ==> received[n] <= 0
  {
    if received == [] || received[0] <= 0 then 0 else 1 + LeadingCount(received[1..])
  }

  function Zeros(n: nat): (z: seq<int>)
    ensures |z| == n && forall i :: 0 <= i < n ==> z[i] == 0
  {
    seq(n, _ => 0)
  }

  /** `SMSG_ACK_Block` */
  function AckBlock(s: State, env: Env): (r: (State, seq<Packet>))
    ensures SameShape(s, r.0)
  {
    var nr := Word(s.first + LeadingCount(s.received));
    if env.sendsOk == 0 then (s.(error := ERR_UNDEFINED), [])
    else (s.(first := nr, received := Zeros(|s.received|), stamp := env.now), [Ack(nr)])
  }

  // ---- packets of a running session

  /** Why a DATA packet is turned away, or that it is stored. */
  datatype Verdict = WrongOperation | TooShort | TooMuch | Old | Duplicate | Stored

  function Slot(s: State, nr: int): int
    requires s.windowSize > 0
  {
    (nr - 1) % s.windowSize
  }

  predicate SlotTaken(s: State, nr: int) {
    s.windowSize == |s.received| && s.windowSize > 0 && s.received[Slot(s, nr)] != 0
  }

  function JudgeData(cfg: Config, s: State, d: Datagram): Verdict {
    if s.op != ClientToServer then WrongOperation
    else if |d| < HEADER_SIZE then TooShort
    else if cfg.OverLimit(s.bytesHandled + |d|) then TooMuch
    else if BlockNr(d) <= s.first then Old
    else if SlotTaken(s, BlockNr(d)) then Duplicate
    else Stored
  }

  /** The file after block `nr` was written; a window of one block writes at the cursor without seeking. */
  function Write(s: State, f: OpenFile, nr: nat, payload: seq<Byte>): OpenFile
    requires payload != []
  {
    var at := if s.windowSize != 1 then Seek(f.cursor, Wrap32((nr - 1) * s.blockSize)) else f.cursor;
    OpenFile(WriteAt(f.content, at, payload), at + |payload|)
  }

  /** Every DATA packet counts, with its header, stored or not. */
  function Counted(s: State, d: Datagram): (r: State)
    ensures SameShape(s, r)
  {
    s.(bytesHandled := s.bytesHandled + |d|)
  }

  /** The session after a DATA packet was stored, before it is acknowledged. */
  function StoreData(s: State, d: Datagram): State
    requires |d| >= HEADER_SIZE && s.windowSize == |s.received| > 0
  {
    var payload := Payload(d);
    s.(received := s.received[Slot(s, BlockNr(d)) := |payload|],
       file := if payload != [] && s.file.Some? then Some(Write(s, s.file.value, BlockNr(d), payload)) else s.file,
       retry := if payload != [] then 0 else s.retry,
       transferDone := s.transferDone || |d| < s.blockSize + HEADER_SIZE)
  }

  /** Both sizes are positive, and an upload has its window array. */
  predicate WellFormed(s: State) {
    s.blockSize > 0 && s.windowSize > 0 && (s.op == ClientToServer ==> s.windowSize == |s.received|)
  }

  /** `CMSG__DATA` */
  function OnData(cfg: Config, s: State, d: Datagram, env: Env): (r: (State, seq<Packet>))
    requires WellFormed(s)
    ensures SameShape(s, r.0)
  {
    match JudgeData(cfg, s, d)
    case WrongOperation => (s.(error := ERR_ILLEGAL_OPERATION), [])
    case TooShort => (s.(error := ERR_ILLEGAL_OPERATION), [])
    case TooMuch => (Counted(s, d).(error := ERR_DISK_FULL), [])
    case Old => (Counted(s, d), [])
    case Duplicate => (Counted(s, d), [])
    case Stored => AckBlock(StoreData(Counted(s, d), d), env)
  }

  predicate AcceptsAck(s: State, d: Datagram) {
    && s.op == ServerToClient
    && |d| >= HEADER_SIZE
    && s.first <= BlockNr(d) <= s.first + s.windowSize - 1
  }

  /** `CMSG_ACK` */
  function OnAck(cfg: Config, s: State, d: Datagram, env: Env): (r: (State, seq<Packet>))
    ensures SameShape(s, r.0)
  {
    if s.op != ServerToClient || |d| < HEADER_SIZE then (s.(error := ERR_ILLEGAL_OPERATION), [])
    else if !AcceptsAck(s, d) then (s, [])
    else
      var s1 := s.(first := BlockNr(d) + 1);
      if s1.readDone then (s1.(transferDone := true), []) else SendWindow(cfg, s1, env)
  }

  /** `CMSG_ERROR` */
  function OnError(s: State, d: Datagram): State {
    if |d| < HEADER_SIZE + 1 then s.(error := ERR_ILLEGAL_OPERATION) else s.(error := BlockNr(d))
  }

  // ---- requests

  function TermsOf(s: State): Terms {
    Terms(s.blockSize, s.windowSize, s.packetTimeout)
  }

  /** `ParseOptions`: the terms of every complete pair apply, even when the last name has no value. */
  function AcceptOptions(cfg: Config, s: State, d: Datagram, pos: nat): State
    requires cfg.Consistent() && pos <= |d| + 1
  {
    var scan := ScanOptions(d, pos);
    var t := Negotiate(cfg, TermsOf(s), scan.opts);
    s.(blockSize := t.blockSize, windowSize := t.windowSize, packetTimeout := t.packetTimeout,
       error := if scan.ok then s.error else ERR_ILLEGAL_OPERATION)
  }

  predicate Downloadable(cfg: Config, fileName: Text) {
    exists i :: 0 <= i < |cfg.downloadable| && EqualIgnoreCase(fileName, cfg.downloadable[i])
  }

  predicate Uploadable(cfg: Config, fileName: Text) {
    exists i :: 0 <= i < |cfg.uploadable| && fileName == cfg.uploadable[i]
  }

  function StartDownload(cfg: Config, s: State, d: Datagram, optionsAt: nat, content: seq<Byte>): (r: State)
    requires cfg.Consistent() && optionsAt <= |d| + 1
    ensures WellFormed(s) ==> WellFormed(r)
  {
    var s1 := AcceptOptions(cfg, s.(file := Some(OpenFile(content, 0))), d, optionsAt);
    s1.(op := ServerToClient, first := 1)
  }

  /** `CMSG_RRQ` */
  function OnRrq(cfg: Config, s: State, d: Datagram, env: Env): (r: (State, seq<Packet>))
    requires cfg.Consistent()
    ensures WellFormed(s) ==> WellFormed(r.0)
    ensures s.op != NotInitialized ==> r == (s, [])
  {
    if s.op != NotInitialized then (s, [])
    else
      match ScanHeader(d)
      case Malformed => (s.(error := ERR_ILLEGAL_OPERATION), [])
      case Header(fileName, _, optionsAt) =>
        var s1 := s.(comm := env.socketOk);
        if !Downloadable(cfg, fileName) || env.opens.None? then (s1.(error := ERR_FILE_NOT_FOUND), [])
        else SendWindow(cfg, StartDownload(cfg, s1, d, optionsAt, env.opens.value), env)
  }

  function StartUpload(cfg: Config, s: State, d: Datagram, optionsAt: nat): (r: State)
    requires cfg.Consistent() && optionsAt <= |d| + 1
    ensures WellFormed(s) ==> WellFormed(r)
  {
    var s1 := if cfg.noFileWrite then s else s.(file := Some(OpenFile([], 0)));
    var s2 := AcceptOptions(cfg, s1, d, optionsAt);
    s2.(op := ClientToServer, first := 0, received := Zeros(s2.windowSize))
  }

  /** `CMSG_WRQ` */
  function OnWrq(cfg: Config, s: State, d: Datagram, env: Env): (r: (State, seq<Packet>))
    requires cfg.Consistent()
    ensures WellFormed(s) ==> WellFormed(r.0)
    ensures s.op != NotInitialized ==> r == (s, [])
  {
    if s.op != NotInitialized then (s, [])
    else
      match ScanHeader(d)
      case Malformed => (s.(error := ERR_ILLEGAL_OPERATION), [])
      case Header(fileName, _, optionsAt) =>
        var s1 := s.(comm := env.socketOk);
        if !Uploadable(cfg, fileName) || (!cfg.noFileWrite && env.opens.None?) then
          (s1.(error := ERR_FILE_NOT_FOUND), [])
        else AckBlock(StartUpload(cfg, s1, d, optionsAt), env)
  }

  /** `ParsePacket` */
  function OnPacket(cfg: Config, s: State, d: Datagram, env: Env): (r: (State, seq<Packet>))
    requires cfg.Consistent() && WellFormed(s)
    ensures WellFormed(r.0)
    ensures s.op != NotInitialized ==> SameShape(s, r.0)
  {
    if |d| < 2 then (s.(error := ERR_ILLEGAL_OPERATION), [])
    else if OpCode(d) == OP_RRQ then OnRrq(cfg, s, d, env)
    else if OpCode(d) == OP_WRQ then OnWrq(cfg, s, d, env)
    else if OpCode(d) == OP_ACK then OnAck(cfg, s, d, env)
    else if OpCode(d) == OP_DATA then OnData(cfg, s, d, env)
    else if OpCode(d) == OP_ERROR then (OnError(s, d), [])
    else (s.(error := ERR_UNDEFINED), [])
  }

  // ---- the communication loop

  /** `SMSG_Error`: the datagram without its text; "disk full" goes out as code 0. */
  function CloseWithError(s: State, env: Env): (State, seq<Packet>) {
    var s1 := if s.error == ERR_DISK_FULL then s.(error := ERR_UNDEFINED) else s;
    (s1.(stamp := env.now), [Error(Word(s1.error))])
  }

  /** The checks between handling one packet and waiting for the next. */
  function Settle(s: State, sent: seq<Packet>, env: Env): (r: Outcome)
    ensures SameShape(s, r.s)
  {
    if !s.comm then Outcome(s, sent, false)
    else if s.error != ERR_NO_ERROR then
      var (s1, last) := CloseWithError(s, env);
      Outcome(s1, sent + last, false)
    else Outcome(s, sent, !s.transferDone)
  }

  /** `recv` cuts a datagram to a full block plus header. */
  function Cut(s: State, bytes: Datagram): (d: Datagram)
    ensures |d| <= s.blockSize + HEADER_SIZE && d <= bytes
    ensures |bytes| <= s.blockSize + HEADER_SIZE ==> d == bytes
  {
    if |bytes| > s.blockSize + HEADER_SIZE then bytes[..s.blockSize + HEADER_SIZE] else bytes
  }

  /** What `recv` cuts off is never the header. */
  lemma CutKeepsHeader(s: State, bytes: Datagram)
    requires s.blockSize > 0
    ensures var d := Cut(s, bytes);
            && (|d| >= HEADER_SIZE <==> |bytes| >= HEADER_SIZE)
            && (|d| >= 2 <==> |bytes| >= 2) && (d == [] <==> bytes == [])
            && (|d| >= 2 ==> OpCode(d) == OpCode(bytes))
            && (|d| >= HEADER_SIZE ==> BlockNr(d) == BlockNr(bytes))
  {
  }

  predicate Expired(s: State, now: int) {
    now - s.stamp >= s.packetTimeout * 1000
  }

  /** What is sent again after an expired timeout. */
  function ResendOf(cfg: Config, s: State, env: Env): (r: (State, seq<Packet>))
    ensures SameShape(s, r.0)
  {
    match s.op
    case ServerToClient => SendWindow(cfg, s, env)
    case ClientToServer => AckBlock(s, env)
    case NotInitialized => (s, [])
  }

  /** The reaction to a receive timeout: the session, what it resends, and whether it gives up. */
  function OnTimeout(cfg: Config, s: State, env: Env): (r: (State, seq<Packet>, bool))
    ensures SameShape(s, r.0)
  {
    if !Expired(s, env.now) then (s, [], false)
    else
      var s1 := s.(retry := s.retry + 1);
      if s1.retry >= cfg.retryMax then (s1, [], true)
      else
        var (s2, out) := ResendOf(cfg, s1, env);
        (s2, out, false)
  }

  /** With retries left, an expired timeout counts one and resends. */
  lemma RetryResends(cfg: Config, s: State, s1: State, env: Env)
    requires s1 == s.(retry := s.retry + 1) && Expired(s, env.now) && s1.retry < cfg.retryMax
    ensures OnTimeout(cfg, s, env) == (ResendOf(cfg, s1, env).0, ResendOf(cfg, s1, env).1, false)
  {
  }

  /** Sending a window, and the checks behind it. */
  function WindowRound(cfg: Config, s: State, env: Env): (r: Outcome)
    ensures SameShape(s, r.s)
  {
    var (s1, out) := SendWindow(cfg, s, env);
    Settle(s1, out, env)
  }

  /** A round in which nothing arrives. */
  function TimeoutRound(cfg: Config, s: State, env: Env): (r: Outcome)
    ensures SameShape(s, r.s)
  {
    var (s1, out, gaveUp) := OnTimeout(cfg, s, env);
    if gaveUp then Outcome(s1, out, false) else Settle(s1, out, env)
  }

  /** A round in which a packet arrives. */
  function PacketRound(cfg: Config, s: State, d: Datagram, env: Env): (r: Outcome)
    requires cfg.Consistent() && WellFormed(s)
    ensures WellFormed(r.s)
    ensures s.op != NotInitialized ==> SameShape(s, r.s)
  {
    var (s1, out) := OnPacket(cfg, s, d, env);
    Settle(s1, out, env)
  }

  /** One round: wait for the client, react to silence or to the packet, and check whether to go on. */
  function Step(cfg: Config, s: State, ev: Event): (r: Outcome)
    requires cfg.Consistent() && WellFormed(s)
    ensures WellFormed(r.s)
    ensures s.op != NotInitialized ==> SameShape(s, r.s)
  {
    var d := Cut(s, ev.bytes);
    if d == [] then TimeoutRound(cfg, s, ev.env) else PacketRound(cfg, s, d, ev.env)
  }

  /** The round in which a new session handles the request it was created for. */
  function Begin(cfg: Config, request: Datagram, env: Env): (r: Outcome)
    requires cfg.Consistent()
    ensures WellFormed(r.s)
  {
    var s := Fresh(cfg, env.now);
    if request == [] then Settle(s, [], env) else PacketRound(cfg, s, request, env)
  }

  /** A session's life under a sequence of events; events that come after its end are not handled. */
  function Run(cfg: Config, o: Outcome, events: seq<Event>): (r: Outcome)
    requires cfg.Consistent() && WellFormed(o.s)
    ensures WellFormed(r.s)
    decreases |events|
  {
    if events == [] then o
    else
      var r := Run(cfg, o, events[..|events| - 1]);
      if !r.alive then r
      else
        var n := Step(cfg, r.s, events[|events| - 1]);
        Outcome(n.s, r.sent + n.sent, n.alive)
  }

  // ---- runs

  /** Nothing is heard from the client. */
  predicate Silent(events: seq<Event>) {
    forall i :: 0 <= i < |events| ==> events[i].bytes == []
  }

  /** In every round the first `sends` sends work. */
  predicate SendsWork(events: seq<Event>, sends: nat) {
    forall i :: 0 <= i < |events| ==> events[i].env.sendsOk >= sends
  }

  lemma SettleAppends(s: State, before: seq<Packet>, sent: seq<Packet>, env: Env)
    ensures var r := Settle(s, sent, env);
            Settle(s, before + sent, env) == Outcome(r.s, before + r.sent, r.alive)
  {
    if s.comm && s.error != ERR_NO_ERROR {
      var last := CloseWithError(s, env).1;
      assert before + sent + last == before + (sent + last);
    }
  }

  /** A round of a live run continues it. */
  lemma RunOn(cfg: Config, o: Outcome, events: seq<Event>, k: nat, j: nat)
    requires cfg.Consistent() && WellFormed(o.s) && j == k + 1 <= |events|
    ensures var r := Run(cfg, o, events[..k]);
            Run(cfg, o, events[..j]) ==
            if r.alive then var n := Step(cfg, r.s, events[k]); Outcome(n.s, r.sent + n.sent, n.alive) else r
  {
    assert events[..j][..k] == events[..k];
  }

  /** A run that has ended stays as it is. */
  lemma {:induction false} RunStopped(cfg: Config, o: Outcome, events: seq<Event>, k: nat)
    requires cfg.Consistent() && WellFormed(o.s) && k <= |events|
    requires !Run(cfg, o, events[..k]).alive
    ensures Run(cfg, o, events) == Run(cfg, o, events[..k])
    decreases |events|
  {
    if k == |events| {
      assert events[..k] == events;
    } else {
      var n := |events| - 1;
      assert events[..n][..k] == events[..k];
      RunStopped(cfg, o, events[..n], k);
    }
  }
}
