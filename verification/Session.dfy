/** The session object and its packet handlers, updated in place. Every method is tied to the function
    of the same step in `Protocol`: the new fields, and exactly the datagrams that were sent. */
module TftpSession {
  import opened Wire
  import opened Settings
  import opened Blocks
  import opened Request
  import opened Protocol
  import opened WindowLoop
  import opened Sequences

  /** The terms the rest of the options leads to, whether the options are well-formed, and where they end. */
  ghost function Ahead(cfg: Config, packet: Datagram, pos: nat, t: Terms): (Terms, bool, nat)
    requires cfg.Consistent() && pos <= |packet| + 1
  {
    var scan := ScanOptions(packet, pos);
    (Negotiate(cfg, t, scan.opts), scan.ok, scan.end)
  }

  lemma ScanStep(cfg: Config, packet: Datagram, pos: nat, t: Terms, pair: Reading)
    requires cfg.Consistent() && pos < |packet| && pair == ReadPair(packet, pos)
    ensures Ahead(cfg, packet, pos, t) ==
            match pair
            case NoValue(at) => (t, false, at)
            case Pair(o, next) => Ahead(cfg, packet, next, ApplyOption(cfg, t, o))
  {
    if pair.Pair? {
      var scan, rest := ScanOptions(packet, pos), ScanOptions(packet, pair.next);
      assert scan.opts[0] == pair.o && scan.opts[1..] == rest.opts;
    }
  }

  /** What the top of the loop makes of a packet, on top of what was sent before. */
  ghost function Handled(cfg: Config, s: State, sent: seq<Packet>, packet: Datagram, env: Env): Outcome
    requires cfg.Consistent() && WellFormed(s)
  {
    if packet == [] then Settle(s, sent, env)
    else
      var (s1, out) := OnPacket(cfg, s, packet, env);
      Settle(s1, sent + out, env)
  }

  /** One round is the bottom of the loop followed by its top. */
  lemma StepParts(cfg: Config, s: State, before: seq<Packet>, event: Event)
    requires cfg.Consistent() && WellFormed(s)
    ensures var n := Step(cfg, s, event);
            var packet := Cut(s, event.bytes);
            Outcome(n.s, before + n.sent, n.alive) ==
            if packet == [] then
              var (s1, out, gaveUp) := OnTimeout(cfg, s, event.env);
              if gaveUp then Outcome(s1, before + out, false) else Handled(cfg, s1, before + out, [], event.env)
            else Handled(cfg, s, before, packet, event.env)
  {
    var packet := Cut(s, event.bytes);
    if packet == [] {
      var (s1, out, gaveUp) := OnTimeout(cfg, s, event.env);
      SettleAppends(s1, before, out, event.env);
    } else {
      var (s1, out) := OnPacket(cfg, s, packet, event.env);
      SettleAppends(s1, before, out, event.env);
    }
  }

  lemma LeadingCountIs(received: seq<int>, n: nat)
    requires n <= |received|
    requires forall i :: 0 <= i < n ==> received[i] > 0
    requires n < |received| ==> received[n] <= 0
    ensures LeadingCount(received) == n
  {
  }

  class Session {
    const cfg: Config
    var file: Option<OpenFile>
    var op: Operation
    var bytesHandled: nat
    var stamp: int
    var retry: int
    var error: int
    var comm: bool
    var readDone: bool
    var transferDone: bool
    var blockSize: nat
    var packetTimeout: int
    var windowSize: nat
    var first: int
    var received: array?<int>
    /** Everything handed to the communication socket so far. */
    ghost var sent: seq<Packet>

    ghost function Received(): seq<int>
      reads this, received
    {
      if received == null then [] else received[..]
    }

    ghost function View(): State
      reads this, received
    {
      State(file, op, bytesHandled, stamp, retry, error, comm, readDone, transferDone,
            blockSize, packetTimeout, windowSize, first, Received())
    }

    ghost predicate Valid()
      reads this
    {
      && cfg.Consistent()
      && blockSize > 0 && windowSize > 0
      && (op == ClientToServer <==> received != null)
      && (received != null ==> received.Length == windowSize)
    }

    constructor (cfg: Config, now: int)
      requires cfg.Consistent()
      ensures Valid() && this.cfg == cfg && View() == Fresh(cfg, now) && sent == []
      ensures received == null
    {
      this.cfg := cfg;
      file, op, bytesHandled, stamp, retry := None, NotInitialized, 0, now, 0;
      error, comm, readDone, transferDone := ERR_NO_ERROR, false, false, false;
      blockSize, packetTimeout, windowSize, first, received := 512, cfg.timeoutMin, 1, 0, null;
      sent := [];
    }

    // ---- server messages

    method CountReceived() returns (n: nat)
      requires Valid() && op == ClientToServer
      ensures n == LeadingCount(Received())
    {
      n := 0;
      while n < windowSize && received[n] > 0
        invariant n <= windowSize
        invariant forall i :: 0 <= i < n ==> received[i] > 0
      {
        n := n + 1;
      }
      LeadingCountIs(received[..], n);
    }

    method ClearReceived()
      requires received != null && received.Length == windowSize
      modifies received
      ensures Received() == Zeros(windowSize)
    {
      var i := 0;
      while i < windowSize
        invariant 0 <= i <= windowSize
        invariant forall j :: 0 <= j < i ==> received[j] == 0
      {
        received[i] := 0;
        i := i + 1;
      }
    }

    method SmsgAckBlock(env: Env)
      requires Valid() && op == ClientToServer
      modifies `first, `stamp, `error, `sent, received
      ensures Valid()
      ensures View() == AckBlock(old(View()), env).0
      ensures sent == old(sent) + AckBlock(old(View()), env).1
    {
      var blocksReceived := CountReceived();
      var blockNrToAck := Word(first + blocksReceived);
      if env.sendsOk == 0 {
        error := ERR_UNDEFINED;
        EmptyUnits(sent);
        return;
      }
      sent := sent + [Ack(blockNrToAck)];
      first := blockNrToAck;
      ClearReceived();
      stamp := env.now;
    }

    /** The fields the loop of `SMSG_DATA` works on. */
    ghost function Sender(): Sending
      requires file.Some?
      reads this
    {
      Sending(file.value.cursor, readDone, bytesHandled, error)
    }

    /** One pass of that loop: read a block, send it, count it. */
    method SendBlock(i: nat, env: Env) returns (pass: Pass)
      requires file.Some?
      modifies `file, `readDone, `bytesHandled, `error, `sent
      ensures file.Some? && file.value.content == old(file.value.content)
      ensures var payload := Slice(file.value.content, old(file.value.cursor), blockSize);
              && pass == PassKind(cfg, old(Sender()), payload, blockSize, i < env.sendsOk)
              && Sender() == AfterPass(old(Sender()), payload, blockSize, pass)
              && sent == if pass == Unsent then old(sent) else old(sent) + [Data(Word(first + i), payload)]
    {
      var payload := Slice(file.value.content, file.value.cursor, blockSize);
      file := Some(OpenFile(file.value.content, file.value.cursor + |payload|));
      if |payload| < blockSize {
        readDone := true;
      }
      if i >= env.sendsOk {
        error := ERR_UNDEFINED;
        return Unsent;
      }
      sent := sent + [Data(Word(first + i), payload)];
      bytesHandled := bytesHandled + |payload|;
      if cfg.OverLimit(bytesHandled) {
        error := ERR_DISK_FULL;
        return OverLimit;
      }
      pass := if |payload| < blockSize then Last else More;
    }

    /** The loop of `SMSG_DATA`, from the current file position. */
    method SendBlocks(env: Env) returns (pass: Pass)
      requires file.Some?
      modifies `file, `readDone, `bytesHandled, `error, `sent
      ensures file.Some? && file.value.content == old(file.value.content)
      ensures var l := LoopFrom(cfg, file.value.content, blockSize, old(Sender()), first, 0, windowSize, env.sendsOk);
              Sender() == l.s && pass == l.pass && sent == old(sent) + l.out
    {
      ghost var c := file.value.content;
      ghost var whole := LoopFrom(cfg, c, blockSize, Sender(), first, 0, windowSize, env.sendsOk);
      ghost var done: seq<Packet>, w: nat := [], windowSize;
      EmptyUnits(whole.out);
      var i := 0;
      pass := More;
      while i < windowSize && pass == More
        invariant i + w == windowSize
        invariant file.Some? && file.value.content == c && sent == old(sent) + done
        invariant whole ==
          if pass == More then Prepend(done, LoopFrom(cfg, c, blockSize, Sender(), first, i, w, env.sendsOk))
          else Loop(Sender(), pass, done)
        decreases windowSize - i, pass == More
      {
        ghost var j, w1 := i + 1, w - 1;
        LoopStep(cfg, c, blockSize, Sender(), first, i, j, w, w1, env.sendsOk, done);
        ghost var packet := Data(Word(first + i), Slice(c, file.value.cursor, blockSize));
        pass := SendBlock(i, env);
        if pass != Unsent {
          AppendOne(old(sent), done, packet);
          done := done + [packet];
        }
        if pass == More {
          i, w := i + 1, w1;
        }
      }
      EmptyUnits(done);
    }

    /** `SMSG_DATA` behind its `fseek`. */
    method SendFromHere(env: Env)
      requires Valid() && file.Some?
      modifies `file, `readDone, `bytesHandled, `error, `retry, `stamp, `sent
      ensures Valid()
      ensures View() == SendHere(cfg, old(View()), env).0
      ensures sent == old(sent) + SendHere(cfg, old(View()), env).1
    {
      ghost var begun := View();
      LoopIsSendHere(cfg, begun, env);
      var pass := SendBlocks(env);
      ghost var ended := AfterLoop(begun, Sender());
      assert View() == ended;
      if pass != Unsent && pass != OverLimit {
        retry := 0;
        stamp := env.now;
        assert View() == ended.(retry := 0, stamp := env.now);
      }
    }

    method SmsgData(env: Env)
      requires Valid()
      modifies `file, `readDone, `bytesHandled, `error, `retry, `stamp, `sent
      ensures Valid()
      ensures View() == SendWindow(cfg, old(View()), env).0
      ensures sent == old(sent) + SendWindow(cfg, old(View()), env).1
    {
      if file.None? {
        EmptyUnits(sent);
        return;
      }
      file := Some(OpenFile(file.value.content, Seek(file.value.cursor, Wrap32((first - 1) * blockSize))));
      assert View() == Rewind(old(View()));
      SendFromHere(env);
    }

    // ---- packets of a running session

    method CmsgAck(packet: Datagram, env: Env)
      requires Valid()
      modifies `first, `transferDone, `file, `readDone, `bytesHandled, `error, `retry, `stamp, `sent
      ensures Valid()
      ensures View() == OnAck(cfg, old(View()), packet, env).0
      ensures sent == old(sent) + OnAck(cfg, old(View()), packet, env).1
    {
      EmptyUnits(sent);
      if op != ServerToClient || |packet| < HEADER_SIZE {
        error := ERR_ILLEGAL_OPERATION;
        return;
      }
      var ackBlockNr := BlockNr(packet);
      var expectedAckBlockNr := first + windowSize - 1;
      if ackBlockNr < first || ackBlockNr > expectedAckBlockNr {
        return;
      }
      first := ackBlockNr + 1;
      if readDone {
        transferDone := true;
      } else {
        SmsgData(env);
      }
    }

    /** The guards of `CMSG__DATA`; every packet that gets past the first two is counted. */
    method CheckData(packet: Datagram) returns (verdict: Verdict)
      requires Valid()
      modifies `bytesHandled, `error
      ensures Valid()
      ensures verdict == JudgeData(cfg, old(View()), packet)
      ensures View() == match verdict
                        case WrongOperation => old(View()).(error := ERR_ILLEGAL_OPERATION)
                        case TooShort => old(View()).(error := ERR_ILLEGAL_OPERATION)
                        case TooMuch => Counted(old(View()), packet).(error := ERR_DISK_FULL)
                        case Old => Counted(old(View()), packet)
                        case Duplicate => Counted(old(View()), packet)
                        case Stored => Counted(old(View()), packet)
    {
      if op != ClientToServer {
        error := ERR_ILLEGAL_OPERATION;
        return WrongOperation;
      }
      if |packet| < HEADER_SIZE {
        error := ERR_ILLEGAL_OPERATION;
        return TooShort;
      }
      bytesHandled := bytesHandled + |packet|;
      if cfg.OverLimit(bytesHandled) {
        error := ERR_DISK_FULL;
        return TooMuch;
      }
      var blockNr := BlockNr(packet);
      if blockNr <= first {
        return Old;
      }
      var blockIndexInWindow := (blockNr - 1) % windowSize;
      if received[blockIndexInWindow] != 0 {
        return Duplicate;
      }
      return Stored;
    }

    /** The part of `CMSG__DATA` that records a block and writes it. */
    method Store(packet: Datagram)
      requires Valid() && op == ClientToServer && |packet| >= HEADER_SIZE
      modifies `file, `retry, `transferDone, received
      ensures Valid()
      ensures View() == StoreData(old(View()), packet)
    {
      var blockNr := BlockNr(packet);
      received[(blockNr - 1) % windowSize] := |packet| - HEADER_SIZE;
      if |packet| > HEADER_SIZE {
        if file.Some? {
          var f := file.value;
          if windowSize != 1 {
            f := f.(cursor := Seek(f.cursor, Wrap32((blockNr - 1) * blockSize)));
          }
          file := Some(OpenFile(WriteAt(f.content, f.cursor, Payload(packet)), f.cursor + |packet| - HEADER_SIZE));
        }
        retry := 0;
      }
      if |packet| < blockSize + HEADER_SIZE {
        transferDone := true;
      }
    }

    method CmsgData(packet: Datagram, env: Env)
      requires Valid()
      modifies `bytesHandled, `file, `retry, `transferDone, `first, `stamp, `error, `sent, received
      ensures Valid()
      ensures View() == OnData(cfg, old(View()), packet, env).0
      ensures sent == old(sent) + OnData(cfg, old(View()), packet, env).1
    {
      EmptyUnits(sent);
      var verdict := CheckData(packet);
      if verdict == Stored {
        Store(packet);
        SmsgAckBlock(env);
      }
    }

    method CmsgError(packet: Datagram)
      requires Valid()
      modifies `error
      ensures Valid()
      ensures View() == OnError(old(View()), packet)
    {
      if |packet| < HEADER_SIZE || |packet| < HEADER_SIZE + 1 {
        error := ERR_ILLEGAL_OPERATION;
      } else {
        error := BlockNr(packet);
      }
    }

    // ---- requests

    ghost function Agreed(): Terms
      reads this
    {
      Terms(blockSize, windowSize, packetTimeout)
    }

    /** The keyword branches of `ParseOptions`; those that only add to the reply are not modelled. */
    method ApplyNamedOption(optionName: Text, optionValue: Text)
      requires cfg.Consistent() && blockSize > 0 && windowSize > 0
      modifies `blockSize, `windowSize, `packetTimeout
      ensures blockSize > 0 && windowSize > 0
      ensures Agreed() == ApplyOption(cfg, old(Agreed()), Opt(optionName, optionValue))
    {
      var proposedSize := Atoi(optionValue);
      if EqualIgnoreCase(TIMEOUT, optionName) {
        if proposedSize >= 1 && proposedSize <= 255 {
          if proposedSize < cfg.timeoutMin {
            proposedSize := cfg.timeoutMin;
          }
          if proposedSize > cfg.timeoutMax {
            proposedSize := cfg.timeoutMax;
          }
          packetTimeout := proposedSize;
        }
      } else if EqualIgnoreCase(BLKSIZE, optionName) {
        if proposedSize >= 8 && proposedSize <= 65464 {
          blockSize := proposedSize;
        }
      } else if EqualIgnoreCase(WINDOWSIZE, optionName) {
        if proposedSize >= 1 && proposedSize <= 65535 && proposedSize >= cfg.windowMin {
          if proposedSize > cfg.windowMax {
            proposedSize := cfg.windowMax;
          }
          windowSize := proposedSize;
        }
      }
    }

    /** Returns how much of the packet was consumed. */
    method ParseOptions(packet: Datagram, optionsAt: nat) returns (bytesRead: nat)
      requires Valid() && op == NotInitialized && optionsAt <= |packet| + 1
      modifies `blockSize, `windowSize, `packetTimeout, `error
      ensures Valid()
      ensures View() == AcceptOptions(cfg, old(View()), packet, optionsAt)
      ensures bytesRead == ScanOptions(packet, optionsAt).end
    {
      bytesRead := optionsAt;
      ghost var target := Negotiate(cfg, TermsOf(View()), ScanOptions(packet, optionsAt).opts);
      ghost var scan := ScanOptions(packet, optionsAt);
      while bytesRead < |packet|
        invariant bytesRead <= |packet| + 1 && blockSize > 0 && windowSize > 0 && error == old(error)
        invariant Ahead(cfg, packet, bytesRead, Agreed()) == (target, scan.ok, scan.end)
        decreases |packet| + 1 - bytesRead
      {
        ghost var pair := ReadPair(packet, bytesRead);
        ScanStep(cfg, packet, bytesRead, Agreed(), pair);
        var optionName := CStr(packet, bytesRead);
        var valueAt := bytesRead + |optionName| + 1;
        if |packet| < valueAt + 1 {
          bytesRead := valueAt;
          error := ERR_ILLEGAL_OPERATION;
          return;
        }
        var optionValue := CStr(packet, valueAt);
        bytesRead := valueAt + |optionValue| + 1;
        assert pair == Pair(Opt(optionName, optionValue), bytesRead);
        ApplyNamedOption(optionName, optionValue);
      }
    }

    method IsDownloadable(fileName: Text) returns (allowed: bool)
      ensures allowed == Downloadable(cfg, fileName)
    {
      for i := 0 to |cfg.downloadable|
        invariant forall j :: 0 <= j < i ==> !EqualIgnoreCase(fileName, cfg.downloadable[j])
      {
        if EqualIgnoreCase(fileName, cfg.downloadable[i]) {
          return true;
        }
      }
      return false;
    }

    method IsUploadable(fileName: Text) returns (allowed: bool)
      ensures allowed == Uploadable(cfg, fileName)
    {
      for i := 0 to |cfg.uploadable|
        invariant forall j :: 0 <= j < i ==> fileName != cfg.uploadable[j]
      {
        if fileName == cfg.uploadable[i] {
          return true;
        }
      }
      return false;
    }

    /** The file name and mode of a request, or an error. */
    method ReadHeader(packet: Datagram) returns (header: Header)
      modifies `error
      ensures header == ScanHeader(packet)
      ensures error == if header.Malformed? then ERR_ILLEGAL_OPERATION else old(error)
    {
      var bytesRead := 2;
      if |packet| < bytesRead + 1 {
        error := ERR_ILLEGAL_OPERATION;
        return Malformed;
      }
      var fileName := CStr(packet, bytesRead);
      bytesRead := bytesRead + |fileName| + 1;
      if |packet| < bytesRead + 1 {
        error := ERR_ILLEGAL_OPERATION;
        return Malformed;
      }
      var mode := CStr(packet, bytesRead);
      bytesRead := bytesRead + |mode| + 1;
      return Header(fileName, mode, bytesRead);
    }

    /** `CMSG_RRQ` from the opened file to the first window. */
    method PrepareDownload(packet: Datagram, optionsAt: nat, content: seq<Byte>)
      requires Valid() && op == NotInitialized && optionsAt <= |packet| + 1
      modifies `file, `blockSize, `windowSize, `packetTimeout, `error, `op, `first
      ensures Valid()
      ensures View() == StartDownload(cfg, old(View()), packet, optionsAt, content)
    {
      file := Some(OpenFile(content, 0));
      var bytesRead := ParseOptions(packet, optionsAt);
      op := ServerToClient;
      first := 1;
    }

    method CmsgRrq(packet: Datagram, env: Env)
      requires Valid()
      modifies this
      ensures Valid() && received == old(received)
      ensures View() == OnRrq(cfg, old(View()), packet, env).0
      ensures sent == old(sent) + OnRrq(cfg, old(View()), packet, env).1
    {
      EmptyUnits(sent);
      if op != NotInitialized {
        return;
      }
      var header := ReadHeader(packet);
      if header.Malformed? {
        return;
      }
      comm := env.socketOk;
      var allowed := IsDownloadable(header.fileName);
      if !allowed || env.opens.None? {
        error := ERR_FILE_NOT_FOUND;
        return;
      }
      PrepareDownload(packet, header.optionsAt, env.opens.value);
      SmsgData(env);
    }

    /** `CMSG_WRQ` from the opened file to the first acknowledgement. */
    method PrepareUpload(packet: Datagram, optionsAt: nat)
      requires Valid() && op == NotInitialized && optionsAt <= |packet| + 1
      modifies `file, `blockSize, `windowSize, `packetTimeout, `error, `op, `first, `received
      ensures Valid() && fresh(received)
      ensures View() == StartUpload(cfg, old(View()), packet, optionsAt)
    {
      if !cfg.noFileWrite {
        file := Some(OpenFile([], 0));
      }
      var bytesRead := ParseOptions(packet, optionsAt);
      op := ClientToServer;
      received := new int[windowSize](_ => 0);
      first := 0;
      assert received[..] == Zeros(windowSize);
    }

    method CmsgWrq(packet: Datagram, env: Env)
      requires Valid()
      modifies this
      ensures Valid() && (received == old(received) || fresh(received))
      ensures View() == OnWrq(cfg, old(View()), packet, env).0
      ensures sent == old(sent) + OnWrq(cfg, old(View()), packet, env).1
    {
      EmptyUnits(sent);
      if op != NotInitialized {
        return;
      }
      var header := ReadHeader(packet);
      if header.Malformed? {
        return;
      }
      comm := env.socketOk;
      var allowed := IsUploadable(header.fileName);
      if !allowed || (!cfg.noFileWrite && env.opens.None?) {
        error := ERR_FILE_NOT_FOUND;
        return;
      }
      PrepareUpload(packet, header.optionsAt);
      SmsgAckBlock(env);
    }

    // ---- dispatch and the communication loop

    method ParsePacket(packet: Datagram, env: Env)
      requires Valid()
      modifies this, received
      ensures Valid() && (received == old(received) || fresh(received))
      ensures View() == OnPacket(cfg, old(View()), packet, env).0
      ensures sent == old(sent) + OnPacket(cfg, old(View()), packet, env).1
    {
      EmptyUnits(sent);
      if |packet| < 2 {
        error := ERR_ILLEGAL_OPERATION;
        return;
      }
      var opCode := OpCode(packet);
      if opCode == OP_RRQ {
        CmsgRrq(packet, env);
      } else if opCode == OP_WRQ {
        CmsgWrq(packet, env);
      } else if opCode == OP_ACK {
        CmsgAck(packet, env);
      } else if opCode == OP_DATA {
        CmsgData(packet, env);
      } else if opCode == OP_ERROR {
        CmsgError(packet);
      } else {
        error := ERR_UNDEFINED;
      }
    }

    method SmsgError(env: Env)
      requires Valid()
      modifies `error, `stamp, `sent
      ensures Valid()
      ensures View() == CloseWithError(old(View()), env).0
      ensures sent == old(sent) + CloseWithError(old(View()), env).1
    {
      if error == ERR_DISK_FULL {
        error := ERR_UNDEFINED;
      }
      sent := sent + [Error(Word(error))];
      stamp := env.now;
    }

    /** The top of the loop: handle the packet, if there is one, and decide whether to wait for another. */
    method HandleAndCheck(packet: Datagram, env: Env) returns (alive: bool)
      requires Valid()
      modifies this, received
      ensures Valid() && (received == old(received) || fresh(received))
      ensures Outcome(View(), sent, alive) == Handled(cfg, old(View()), old(sent), packet, env)
    {
      if |packet| > 0 {
        ParsePacket(packet, env);
      }
      if !comm {
        return false;
      }
      if error != ERR_NO_ERROR {
        SmsgError(env);
        return false;
      }
      alive := !transferDone;
    }

    /** `recv`, into a buffer for one full block and its header. */
    method Receive(bytes: Datagram) returns (packet: Datagram)
      ensures packet == Cut(View(), bytes)
    {
      packet := if |bytes| > blockSize + HEADER_SIZE then bytes[..blockSize + HEADER_SIZE] else bytes;
    }

    method Resend(env: Env)
      requires Valid()
      modifies `file, `readDone, `bytesHandled, `error, `retry, `stamp, `first, `sent, received
      ensures Valid()
      ensures View() == ResendOf(cfg, old(View()), env).0
      ensures sent == old(sent) + ResendOf(cfg, old(View()), env).1
    {
      if op == ServerToClient {
        SmsgData(env);
      } else if op == ClientToServer {
        SmsgAckBlock(env);
      } else {
        EmptyUnits(sent);
      }
    }

    /** The reaction to a receive timeout. */
    method Retry(env: Env) returns (gaveUp: bool)
      requires Valid()
      modifies `file, `readDone, `bytesHandled, `error, `retry, `stamp, `first, `sent, received
      ensures Valid()
      ensures View() == OnTimeout(cfg, old(View()), env).0
      ensures sent == old(sent) + OnTimeout(cfg, old(View()), env).1
      ensures gaveUp == OnTimeout(cfg, old(View()), env).2
    {
      EmptyUnits(sent);
      var timePassed := env.now - stamp;
      if timePassed < packetTimeout * 1000 {
        return false;
      }
      ghost var before, counted := View(), View().(retry := retry + 1);
      retry := retry + 1;
      if retry >= cfg.retryMax {
        return true;
      }
      RetryResends(cfg, before, counted, env);
      assert View() == counted;
      Resend(env);
      return false;
    }

    /** Waiting for the client once, and what comes of it. */
    method NextRound(event: Event) returns (alive: bool)
      requires Valid()
      modifies this, received
      ensures Valid() && (received == old(received) || fresh(received))
      ensures var n := Step(cfg, old(View()), event);
              Outcome(View(), sent, alive) == Outcome(n.s, old(sent) + n.sent, n.alive)
    {
      StepParts(cfg, View(), sent, event);
      var packet := Receive(event.bytes);
      if packet == [] {
        var gaveUp := Retry(event.env);
        if gaveUp {
          return false;
        }
      }
      alive := HandleAndCheck(packet, event.env);
    }

    /** The session from its request on; when the events run out, the server is stopped. */
    method ThreadDirectComm(request: Datagram, env: Env, events: seq<Event>) returns (alive: bool)
      requires Valid() && View() == Fresh(cfg, stamp) && sent == []
      modifies this, received
      ensures Valid()
      ensures Outcome(View(), sent, alive) == Run(cfg, Begin(cfg, request, env), events)
    {
      stamp := env.now;
      ghost var begin := Begin(cfg, request, env);
      alive := HandleAndCheck(request, env);
      var k := 0;
      while alive && k < |events|
        invariant k <= |events| && Valid() && (received == null || fresh(received))
        invariant Outcome(View(), sent, alive) == Run(cfg, begin, events[..k])
      {
        RunOn(cfg, begin, events, k, k + 1);
        alive := NextRound(events[k]);
        k := k + 1;
      }
      if alive {
        assert events[..k] == events;
      } else {
        RunStopped(cfg, begin, events, k);
      }
    }
  }
}
