/** How a request is received: which error answers it, or that nothing does, told from its bytes. */
module Reception {
  import opened Wire
  import opened Settings
  import opened Request
  import opened Protocol
  import opened UploadLaws
  import opened Answers
  import opened Timing
  import opened SessionStart

  /** Some listed name is the file's, the case of letters aside for downloads. */
  predicate MayRead(cfg: Config, name: Text) {
    exists i :: 0 <= i < |cfg.downloadable| && |name| == |cfg.downloadable[i]| &&
                forall k :: 0 <= k < |name| ==> SameLetter(name[k], cfg.downloadable[i][k])
  }

  predicate MayWrite(cfg: Config, name: Text) {
    exists i :: 0 <= i < |cfg.uploadable| && name == cfg.uploadable[i]
  }

  /** Requests without two strings, and packets that are none, are dropped before a socket is had. Then the file must
      be listed and, unless the server keeps no files, open; and the options must come in pairs. */
  predicate WellFormedRequest(d: Datagram) {
    |d| >= 2 && 1 <= NumberAt(d, 0) <= 2 && exists i :: 2 <= i < |d| - 1 && d[i] == 0
  }

  function FileName(d: Datagram): Text {
    CStr(d, 2)
  }

  predicate FileReady(cfg: Config, d: Datagram, env: Env) {
    if |d| >= 2 && NumberAt(d, 0) == 1 then MayRead(cfg, FileName(d)) && env.opens.Some?
    else MayWrite(cfg, FileName(d)) && (cfg.noFileWrite || env.opens.Some?)
  }

  lemma MayReadIff(cfg: Config, name: Text)
    ensures MayRead(cfg, name) <==> Downloadable(cfg, name)
  {
    forall i | 0 <= i < |cfg.downloadable|
      ensures EqualIgnoreCase(name, cfg.downloadable[i]) <==>
              |name| == |cfg.downloadable[i]| &&
              forall k :: 0 <= k < |name| ==> SameLetter(name[k], cfg.downloadable[i][k])
    {
      EqualIgnoreCaseMeaning(name, cfg.downloadable[i]);
    }
  }

  lemma WellFormedIff(d: Datagram)
    ensures WellFormedRequest(d) <==> (HasOp(d, OP_RRQ) || HasOp(d, OP_WRQ)) && ScanHeader(d).Header?
    ensures WellFormedRequest(d) ==> ScanHeader(d).fileName == FileName(d)
  {
    HeaderMeaning(d);
  }

  /** What is not a well-formed request is dropped without an answer: no socket was made to send one. */
  lemma Dropped(cfg: Config, request: Datagram, env: Env)
    requires cfg.Consistent() && !WellFormedRequest(request)
    ensures var o := Begin(cfg, request, env); !o.alive && o.sent == [] && o.s.file.None?
  {
    WellFormedIff(request);
  }

  /** A request for a file that is not listed, or does not open, is answered with code 1, and that is all. */
  lemma FileNotFound(cfg: Config, request: Datagram, env: Env)
    requires cfg.Consistent() && WellFormedRequest(request) && env.socketOk && !FileReady(cfg, request, env)
    ensures var o := Begin(cfg, request, env); !o.alive && o.sent == [Error(1)] && o.s.file.None?
  {
    WellFormedIff(request);
    MayReadIff(cfg, FileName(request));
  }

  /** A window sends nothing but DATA, and what the error was before does not matter to it. */
  lemma WindowSendsData(cfg: Config, s: State, s0: State, env: Env)
    requires s.file.Some? && s0 == s.(error := ERR_NO_ERROR)
    ensures var (t, out), (t0, out0) := SendWindow(cfg, s, env), SendWindow(cfg, s0, env);
            && out == out0 && (forall i :: 0 <= i < |out| ==> out[i].Data?)
            && t.error == (if t0.error == ERR_NO_ERROR then s.error else t0.error)
            && t0.error in {ERR_NO_ERROR, ERR_UNDEFINED, ERR_DISK_FULL}
  {
    var plan := Plan(Rewind(s));
    var p := Transmit(cfg, plan, s.bytesHandled, env.sendsOk);
    forall i | 0 <= i < p.count ensures Numbered(s.first, plan[..p.count])[i].Data? {
      NumberedAt(s.first, plan[..p.count], i);
    }
  }

  /** Without a socket nothing of an answer is sent. */
  lemma NoSocket(cfg: Config, request: Datagram, env: Env)
    requires cfg.Consistent() && WellFormedRequest(request) && !env.socketOk
    ensures var o := Begin(cfg, request, env);
            !o.alive && forall i :: 0 <= i < |o.sent| ==> !o.sent[i].Error?
  {
    WellFormedIff(request);
    MayReadIff(cfg, FileName(request));
    if HasOp(request, OP_RRQ) && FileReady(cfg, request, env) {
      var s := Fresh(cfg, env.now).(comm := env.socketOk);
      var t := StartDownload(cfg, s, request, ScanHeader(request).optionsAt, env.opens.value);
      WindowSendsData(cfg, t, t.(error := ERR_NO_ERROR), env);
    }
  }

  /** An error packet stands at the end, behind DATA only. */
  predicate EndsWithError(sent: seq<Packet>, code: nat) {
    && sent != [] && sent[|sent| - 1] == Error(code)
    && forall i :: 0 <= i < |sent| - 1 ==> sent[i].Data?
  }

  /** Every option has a value. */
  predicate OptionsPaired(d: Datagram) {
    var h := ScanHeader(d);
    h.Header? && ScanOptions(d, h.optionsAt).ok
  }

  /** The first window can be sent, under the terms of all complete options. */
  predicate WindowReady(cfg: Config, d: Datagram, env: Env)
    requires cfg.Consistent()
  {
    ScanHeader(d).Header? && env.opens.Some? &&
    FirstWindowFits(cfg, Agreed(cfg, d), |env.opens.value|, env.sendsOk)
  }

  /** A read request for a file that is ready: its first window goes out, under the terms of all complete options; it
      ends with code 4 if an option has no value, and with code 0 if the window cannot be sent. */
  lemma ReadReceived(cfg: Config, request: Datagram, env: Env)
    requires cfg.Consistent() && WellFormedRequest(request) && NumberAt(request, 0) == 1
    requires env.socketOk && FileReady(cfg, request, env)
    ensures var o := Begin(cfg, request, env);
            var fits := WindowReady(cfg, request, env);
            && (o.alive <==> OptionsPaired(request) && fits)
            && (!o.alive ==> EndsWithError(o.sent, if fits then 4 else 0))
  {
    WellFormedIff(request);
    MayReadIff(cfg, FileName(request));
    var f := env.opens.value;
    var s := Fresh(cfg, env.now).(comm := env.socketOk);
    var t := StartDownload(cfg, s, request, ScanHeader(request).optionsAt, f);
    var t0 := t.(error := ERR_NO_ERROR);
    AgreedWithinBounds(cfg, request);
    WindowSendsData(cfg, t, t0, env);
    FirstWindow(cfg, f, t0, env);
    assert Begin(cfg, request, env) == WindowRound(cfg, t, env);
  }

  /** A write request for a file that is ready is acknowledged; it ends with code 4 if an option has no value, and
      with code 0 if the acknowledgement cannot be sent. */
  lemma WriteReceived(cfg: Config, request: Datagram, env: Env)
    requires cfg.Consistent() && WellFormedRequest(request) && NumberAt(request, 0) == 2
    requires env.socketOk && FileReady(cfg, request, env)
    ensures var o := Begin(cfg, request, env);
            var ok := OptionsPaired(request);
            && (o.alive <==> ok && env.sendsOk > 0)
            && o.sent == if env.sendsOk == 0 then [Error(0)] else if ok then [Ack(0)] else [Ack(0), Error(4)]
  {
    WellFormedIff(request);
    var s := Fresh(cfg, env.now).(comm := env.socketOk);
    var t := StartUpload(cfg, s, request, ScanHeader(request).optionsAt);
    LeadingOfNone(t.windowSize);
  }

  /** So a session lives on behind its request exactly if all went well, and it is transferring then. */
  lemma BegunIff(cfg: Config, request: Datagram, env: Env)
    requires cfg.Consistent()
    ensures var o := Begin(cfg, request, env);
            o.alive <==>
              && WellFormedRequest(request) && env.socketOk && FileReady(cfg, request, env)
              && OptionsPaired(request)
              && if NumberAt(request, 0) == 1 then WindowReady(cfg, request, env) else env.sendsOk > 0
    ensures Begin(cfg, request, env).alive ==> Transferring(Begin(cfg, request, env).s)
  {
    if !WellFormedRequest(request) {
      Dropped(cfg, request, env);
    } else if !env.socketOk {
      NoSocket(cfg, request, env);
    } else if !FileReady(cfg, request, env) {
      FileNotFound(cfg, request, env);
    } else if NumberAt(request, 0) == 1 {
      ReadReceived(cfg, request, env);
    } else {
      WriteReceived(cfg, request, env);
    }
  }

  // ---- the agreed seconds

  lemma ReadStamped(cfg: Config, request: Datagram, env: Env, o: Outcome)
    requires cfg.Consistent() && o == Begin(cfg, request, env) && o.alive && o.s.op == ServerToClient
    ensures ScanHeader(request).Header?
    ensures o.s.stamp == env.now && o.s.retry == 0 && o.s.packetTimeout == Agreed(cfg, request).packetTimeout
  {
    var s := Fresh(cfg, env.now).(comm := env.socketOk);
    RrqBegins(cfg, request, env, o, s);
    var t := StartDownload(cfg, s, request, ScanHeader(request).optionsAt, env.opens.value);
    DownloadTerms(cfg, request, env, s, t);
    assert o == WindowRound(cfg, t, env);
  }

  lemma WriteStamped(cfg: Config, request: Datagram, env: Env, o: Outcome)
    requires cfg.Consistent() && o == Begin(cfg, request, env) && o.alive && o.s.op == ClientToServer
    ensures ScanHeader(request).Header?
    ensures o.s.stamp == env.now && o.s.retry == 0 && o.s.packetTimeout == Agreed(cfg, request).packetTimeout
  {
    var s := Fresh(cfg, env.now).(comm := env.socketOk);
    WrqBegins(cfg, request, env, o, s);
    WrqEstablishes(cfg, request, env, o);
    var t := StartUpload(cfg, s, request, ScanHeader(request).optionsAt);
    assert o.s == AckBlock(t, env).0;
  }

  /** After its request a client is left alone for the seconds agreed on with it: whatever it asked for, nothing is
      sent again and nothing is given up before. */
  lemma AgreedSecondsPass(cfg: Config, request: Datagram, env: Env, o: Outcome, events: seq<Event>)
    requires cfg.Consistent() && o == Begin(cfg, request, env) && o.alive && ScanHeader(request).Header?
    requires Silent(events) && Until(events, env.now + Agreed(cfg, request).packetTimeout * 1000)
    ensures Run(cfg, o, events) == o
  {
    BegunIff(cfg, request, env);
    if o.s.op == ServerToClient {
      ReadStamped(cfg, request, env, o);
    } else {
      WriteStamped(cfg, request, env, o);
    }
    LeftAlone(cfg, o, events);
  }

  /** A client that asks for `t` seconds, acceptably, gets as many, within the server's bounds. */
  lemma AskedSeconds(cfg: Config, request: Datagram, op: nat, fileName: Text, mode: Text, t: nat)
    requires cfg.Consistent() && op < 256 && NulFree(fileName) && NulFree(mode) && 1 <= t <= 255
    requires request == PrintRequest(op, fileName, mode, [Opt(TIMEOUT, Decimal(t))])
    ensures ScanHeader(request).Header?
    ensures Agreed(cfg, request).packetTimeout ==
            if t < cfg.timeoutMin then cfg.timeoutMin else if t > cfg.timeoutMax then cfg.timeoutMax else t
  {
    var opts := [Opt(TIMEOUT, Decimal(t))];
    DecimalIsNulFree(t);
    AtoiDecimal(t);
    assert opts[1..] == [];
    assert EqualIgnoreCase(Keyword(Timeout), opts[0].name);
    RequestRoundTrip(request, op, fileName, mode, opts, 4 + |fileName| + |mode|);
    LastProposalWins(cfg, Defaults(cfg), opts, Timeout, 0);
  }
}
