/** The loop of `SMSG_DATA` as a function of the few fields it works on, and the proof that whatever sends
    fail and wherever the byte limit lies, it sends and counts exactly the planned window up to that point. */
module WindowLoop {
  import opened Wire
  import opened Settings
  import opened Blocks
  import opened Protocol
  import opened Sequences

  datatype Sending = Sending(cursor: nat, readDone: bool, bytes: nat, error: int)

  /** How one pass ends: nothing sent, limit passed, last block sent, or a full block sent. */
  datatype Pass = Unsent | OverLimit | Last | More

  ghost function PassKind(cfg: Config, s: Sending, payload: seq<Byte>, blockSize: nat, canSend: bool): Pass {
    if !canSend then Unsent
    else if cfg.OverLimit(s.bytes + |payload|) then OverLimit
    else if |payload| < blockSize then Last
    else More
  }

  ghost function AfterPass(s: Sending, payload: seq<Byte>, blockSize: nat, pass: Pass): Sending {
    Sending(s.cursor + |payload|,
            s.readDone || |payload| < blockSize,
            if pass == Unsent then s.bytes else s.bytes + |payload|,
            if pass == Unsent then ERR_UNDEFINED else if pass == OverLimit then ERR_DISK_FULL else s.error)
  }

  /** Where the loop ends: the fields it works on, how its last pass went, and the packets sent. */
  datatype Loop = Loop(s: Sending, pass: Pass, out: seq<Packet>)

  ghost function Prepend(done: seq<Packet>, rest: Loop): Loop {
    Loop(rest.s, rest.pass, done + rest.out)
  }

  /** The loop with `i` passes behind it and `w` left, for a window starting at number `first`. */
  ghost function LoopFrom(cfg: Config, c: seq<Byte>, blockSize: nat, s: Sending, first: int, i: nat, w: nat,
                          sendsOk: nat): Loop
    decreases w
  {
    if w == 0 then Loop(s, More, [])
    else
      var payload := Slice(c, s.cursor, blockSize);
      var pass := PassKind(cfg, s, payload, blockSize, i < sendsOk);
      var after, packet := AfterPass(s, payload, blockSize, pass), Data(Word(first + i), payload);
      if pass == Unsent then Loop(after, pass, [])
      else if pass != More then Loop(after, pass, [packet])
      else Prepend([packet], LoopFrom(cfg, c, blockSize, after, first, i + 1, w - 1, sendsOk))
  }

  lemma LoopStep(cfg: Config, c: seq<Byte>, blockSize: nat, s: Sending, first: int, i: nat, j: nat, w: nat, w1: nat,
                 sendsOk: nat, done: seq<Packet>)
    requires w == w1 + 1 && j == i + 1
    ensures var payload := Slice(c, s.cursor, blockSize);
            var pass := PassKind(cfg, s, payload, blockSize, i < sendsOk);
            var after, packet := AfterPass(s, payload, blockSize, pass), Data(Word(first + i), payload);
            Prepend(done, LoopFrom(cfg, c, blockSize, s, first, i, w, sendsOk)) ==
            if pass == Unsent then Loop(after, pass, done)
            else if pass != More then Loop(after, pass, done + [packet])
            else Prepend(done + [packet], LoopFrom(cfg, c, blockSize, after, first, j, w1, sendsOk))
  {
    var payload := Slice(c, s.cursor, blockSize);
    var pass := PassKind(cfg, s, payload, blockSize, i < sendsOk);
    if pass == Unsent {
      assert done + [] == done;
    } else if pass == More {
      var packet := Data(Word(first + i), payload);
      var rest := LoopFrom(cfg, c, blockSize, AfterPass(s, payload, blockSize, pass), first, j, w1, sendsOk);
      assert done + ([packet] + rest.out) == done + [packet] + rest.out;
    }
  }

  ghost function Later(i: nat, p: Progress): Progress {
    Progress(i + p.count, p.bytes, p.error)
  }

  /** The payloads before `i` were read, all full, and the rest of the plan lies at the cursor. */
  ghost predicate Reads(c: seq<Byte>, blockSize: nat, start: nat, cursor: nat, i: nat, w: nat, plan: seq<seq<Byte>>) {
    && i <= |plan|
    && plan[i..] == Window(c, cursor, blockSize, w)
    && cursor == start + TotalSize(plan[..i])
    && !HasShort(plan[..i], blockSize)
  }

  /** The payloads before `i` were sent and counted without passing the limit. */
  ghost predicate Pays(cfg: Config, bytes: nat, i: nat, sends: nat, plan: seq<seq<Byte>>, p: Progress) {
    i <= |plan| && p == Later(i, Transmit(cfg, plan[i..], bytes, sends))
  }

  /** The loop is behind `i` full payloads, with `w` passes and `sends` successful sends left. */
  ghost predicate OnCourse(cfg: Config, c: seq<Byte>, blockSize: nat, begin: Sending, s: Sending,
                           i: nat, w: nat, sends: nat, plan: seq<seq<Byte>>, p: Progress) {
    && Reads(c, blockSize, begin.cursor, s.cursor, i, w, plan)
    && Pays(cfg, s.bytes, i, sends, plan, p)
    && s.readDone == begin.readDone && s.error == begin.error
  }

  /** What the plan says about the fields the loop works on. */
  ghost function Planned(begin: Sending, blockSize: nat, plan: seq<seq<Byte>>, p: Progress): Sending
    requires p.count <= |plan| && (p.error == ERR_UNDEFINED ==> p.count < |plan|)
  {
    var read := ReadFrom(plan, p);
    Sending(begin.cursor + TotalSize(read), begin.readDone || HasShort(read, blockSize), p.bytes,
            if p.error == ERR_NO_ERROR then begin.error else p.error)
  }

  lemma PlanStep(c: seq<Byte>, pos: nat, blockSize: nat, w: nat, w1: nat)
    requires w == w1 + 1 && blockSize > 0
    ensures var plan := Window(c, pos, blockSize, w);
            var payload := Slice(c, pos, blockSize);
            && plan != [] && plan[0] == payload
            && plan[1..] == if |payload| < blockSize then [] else Window(c, pos + |payload|, blockSize, w1)
  {
  }

  lemma PlanSums(plan: seq<seq<Byte>>, i: nat, j: nat, blockSize: nat)
    requires j == i + 1 <= |plan|
    ensures TotalSize(plan[..j]) == TotalSize(plan[..i]) + |plan[i]|
    ensures HasShort(plan[..j], blockSize) <==> HasShort(plan[..i], blockSize) || |plan[i]| < blockSize
  {
    assert plan[..j][..i] == plan[..i];
  }

  lemma NumberedSnoc(first: int, plan: seq<seq<Byte>>, i: nat, j: nat)
    requires j == i + 1 <= |plan|
    ensures Numbered(first, plan[..i]) + [Data(Word(first + i), plan[i])] == Numbered(first, plan[..j])
  {
    assert plan[..j][..i] == plan[..i];
  }

  lemma TransmitStep(cfg: Config, plan: seq<seq<Byte>>, i: nat, j: nat, bytes: nat, total: nat, sends: nat, sends1: nat)
    requires sends > 0 ==> sends1 == sends - 1
    requires j == i + 1 <= |plan| && total == bytes + |plan[i]|
    ensures var q := Transmit(cfg, plan[i..], bytes, sends);
            if sends == 0 then q == Progress(0, bytes, ERR_UNDEFINED)
            else if cfg.OverLimit(total) then q == Progress(1, total, ERR_DISK_FULL)
            else q == Later(1, Transmit(cfg, plan[j..], total, sends1))
  {
    assert plan[i..][0] == plan[i] && plan[i..][1..] == plan[j..];
  }

  lemma ReadsMore(c: seq<Byte>, blockSize: nat, start: nat, cursor: nat, next: nat, i: nat, j: nat, w: nat, w1: nat,
                  plan: seq<seq<Byte>>)
    requires Reads(c, blockSize, start, cursor, i, w, plan)
    requires j == i + 1 && w == w1 + 1 && blockSize > 0
    requires |Slice(c, cursor, blockSize)| == blockSize && next == cursor + blockSize
    ensures Reads(c, blockSize, start, next, j, w1, plan)
  {
    PlanStep(c, cursor, blockSize, w, w1);
    assert plan[i..][0] == plan[i] && plan[i..][1..] == plan[j..];
    PlanSums(plan, i, j, blockSize);
  }

  lemma PaysMore(cfg: Config, bytes: nat, total: nat, i: nat, j: nat, sends: nat, sends1: nat,
                 plan: seq<seq<Byte>>, p: Progress)
    requires Pays(cfg, bytes, i, sends, plan, p)
    requires j == i + 1 <= |plan| && sends == sends1 + 1 && total == bytes + |plan[i]| && !cfg.OverLimit(total)
    ensures Pays(cfg, total, j, sends1, plan, p)
  {
    TransmitStep(cfg, plan, i, j, bytes, total, sends, sends1);
  }

  /** The payload read in a pass is the next one of the plan. */
  lemma NextIsPlanned(c: seq<Byte>, blockSize: nat, start: nat, cursor: nat, i: nat, w: nat, w1: nat,
                      plan: seq<seq<Byte>>)
    requires Reads(c, blockSize, start, cursor, i, w, plan) && w == w1 + 1 && blockSize > 0
    ensures i < |plan| && plan[i] == Slice(c, cursor, blockSize)
    ensures |plan[i]| < blockSize ==> |plan| == i + 1
  {
    PlanStep(c, cursor, blockSize, w, w1);
    assert plan[i..][0] == plan[i];
    assert |plan[i..][1..]| == |plan| - i - 1;
  }

  lemma PassGoesOn(cfg: Config, c: seq<Byte>, blockSize: nat, begin: Sending, s: Sending, i: nat, j: nat,
                   w: nat, w1: nat, sends: nat, sends1: nat, plan: seq<seq<Byte>>, p: Progress)
    requires OnCourse(cfg, c, blockSize, begin, s, i, w, sends, plan, p)
    requires j == i + 1 && w == w1 + 1 && sends == sends1 + 1 && blockSize > 0
    requires PassKind(cfg, s, Slice(c, s.cursor, blockSize), blockSize, true) == More
    ensures OnCourse(cfg, c, blockSize, begin, AfterPass(s, Slice(c, s.cursor, blockSize), blockSize, More),
                     j, w1, sends1, plan, p)
  {
    var next, total := s.cursor + blockSize, s.bytes + blockSize;
    NextIsPlanned(c, blockSize, begin.cursor, s.cursor, i, w, w1, plan);
    ReadsMore(c, blockSize, begin.cursor, s.cursor, next, i, j, w, w1, plan);
    PaysMore(cfg, s.bytes, total, i, j, sends, sends1, plan, p);
  }

  ghost predicate Failed(p: Progress, pass: Pass) {
    p.error != ERR_NO_ERROR <==> pass == Unsent || pass == OverLimit
  }

  lemma PassEnds(cfg: Config, blockSize: nat, begin: Sending, s: Sending, i: nat, j: nat,
                 sends: nat, sends1: nat, plan: seq<seq<Byte>>, p: Progress, pass: Pass)
    requires Pays(cfg, s.bytes, i, sends, plan, p) && s.readDone == begin.readDone && s.error == begin.error
    requires s.cursor == begin.cursor + TotalSize(plan[..i]) && !HasShort(plan[..i], blockSize)
    requires j == i + 1 <= |plan| && (sends > 0 ==> sends == sends1 + 1)
    requires |plan[i]| < blockSize ==> |plan| == j
    requires pass == PassKind(cfg, s, plan[i], blockSize, sends > 0) != More
    requires p.count <= |plan| && (p.error == ERR_UNDEFINED ==> p.count < |plan|)
    ensures AfterPass(s, plan[i], blockSize, pass) == Planned(begin, blockSize, plan, p)
    ensures p.count == (if pass == Unsent then i else j) && Failed(p, pass)
  {
    var total := s.bytes + |plan[i]|;
    TransmitStep(cfg, plan, i, j, s.bytes, total, sends, sends1);
    PlanSums(plan, i, j, blockSize);
    assert ReadFrom(plan, p) == plan[..j];
  }

  /** From any point of the loop on, what it still sends and where it ends is what the plan says. */
  lemma {:induction false} LoopIsPlanned(cfg: Config, c: seq<Byte>, blockSize: nat, begin: Sending, s: Sending,
                                         first: int, i: nat, w: nat, sends: nat, sendsOk: nat,
                                         plan: seq<seq<Byte>>, p: Progress)
    requires OnCourse(cfg, c, blockSize, begin, s, i, w, sends, plan, p) && blockSize > 0 && i + sends == sendsOk
    requires p.count <= |plan| && (p.error == ERR_UNDEFINED ==> p.count < |plan|)
    ensures var l := LoopFrom(cfg, c, blockSize, s, first, i, w, sendsOk);
            && l.s == Planned(begin, blockSize, plan, p) && Failed(p, l.pass)
            && Prepend(Numbered(first, plan[..i]), l).out == Numbered(first, plan[..p.count])
    decreases w
  {
    var done := Numbered(first, plan[..i]);
    if w == 0 {
      assert plan[..i] == plan && done + [] == done;
    } else {
      var j, w1, sends1 := i + 1, w - 1, if sends == 0 then 0 else sends - 1;
      NextIsPlanned(c, blockSize, begin.cursor, s.cursor, i, w, w1, plan);
      LoopStep(cfg, c, blockSize, s, first, i, j, w, w1, sendsOk, done);
      NumberedSnoc(first, plan, i, j);
      var pass := PassKind(cfg, s, plan[i], blockSize, i < sendsOk);
      if pass == More {
        PassGoesOn(cfg, c, blockSize, begin, s, i, j, w, w1, sends, sends1, plan, p);
        LoopIsPlanned(cfg, c, blockSize, begin, AfterPass(s, plan[i], blockSize, pass), first,
                      j, w1, sends1, sendsOk, plan, p);
      } else {
        PassEnds(cfg, blockSize, begin, s, i, j, sends, sends1, plan, p, pass);
      }
    }
  }

  ghost function AfterLoop(s: State, l: Sending): State
    requires s.file.Some?
  {
    s.(file := Some(OpenFile(s.file.value.content, l.cursor)), readDone := l.readDone,
       bytesHandled := l.bytes, error := l.error)
  }

  lemma PlannedState(s: State, plan: seq<seq<Byte>>, p: Progress, env: Env, begin: Sending, l: Sending, pass: Pass)
    requires s.file.Some? && p.count <= |plan| && (p.error == ERR_UNDEFINED ==> p.count < |plan|)
    requires begin == Sending(s.file.value.cursor, s.readDone, s.bytesHandled, s.error)
    requires l == Planned(begin, s.blockSize, plan, p) && Failed(p, pass)
    ensures AfterWindow(s, plan, p, env) ==
            if pass == Unsent || pass == OverLimit then AfterLoop(s, l)
            else AfterLoop(s, l).(retry := 0, stamp := env.now)
  {
  }

  /** The loop and the two assignments behind it are the planned window. */
  lemma LoopIsSendHere(cfg: Config, s: State, env: Env)
    requires s.file.Some? && s.blockSize > 0
    ensures var f := s.file.value;
            var begin := Sending(f.cursor, s.readDone, s.bytesHandled, s.error);
            var l := LoopFrom(cfg, f.content, s.blockSize, begin, s.first, 0, s.windowSize, env.sendsOk);
            var s1 := AfterLoop(s, l.s);
            SendHere(cfg, s, env) ==
            (if l.pass == Unsent || l.pass == OverLimit then s1 else s1.(retry := 0, stamp := env.now), l.out)
  {
    var f, plan := s.file.value, Plan(s);
    var begin := Sending(f.cursor, s.readDone, s.bytesHandled, s.error);
    var p := Transmit(cfg, plan, s.bytesHandled, env.sendsOk);
    Whole(plan);
    LoopIsPlanned(cfg, f.content, s.blockSize, begin, begin, s.first,
                  0, s.windowSize, env.sendsOk, env.sendsOk, plan, p);
    var l := LoopFrom(cfg, f.content, s.blockSize, begin, s.first, 0, s.windowSize, env.sendsOk);
    EmptyUnits(l.out);
    PlannedState(s, plan, p, env, begin, l.s, l.pass);
  }
}
