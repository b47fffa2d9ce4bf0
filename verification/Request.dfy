/** RRQ and WRQ packets: NUL-terminated strings after the opcode, then option name/value pairs
    (RFC 1350, section 5; RFC 2347), and the negotiation of the three options that change a session. */
module Request {
  import opened Wire
  import opened Settings

  /** "timeout" */
  const TIMEOUT: Text := [116, 105, 109, 101, 111, 117, 116]
  /** "blksize" */
  const BLKSIZE: Text := [98, 108, 107, 115, 105, 122, 101]
  /** "windowsize" */
  const WINDOWSIZE: Text := [119, 105, 110, 100, 111, 119, 115, 105, 122, 101]

  function Ascii(s: string): Text {
    seq(|s|, i requires 0 <= i < |s| => s[i] as int % 256)
  }

  /** How the option names are spelled (RFC 2348, RFC 2349, RFC 7440). */
  lemma KeywordsSpelled()
    ensures TIMEOUT == Ascii("timeout") && BLKSIZE == Ascii("blksize") && WINDOWSIZE == Ascii("windowsize")
  {
  }

  predicate NulFree(t: Text) {
    0 !in t
  }

  /** The C string at `pos`. The handlers store a NUL just behind the packet, so it ends there at the latest. */
  function CStr(d: Datagram, pos: nat): (t: Text)
    ensures pos <= |d| ==> pos + |t| <= |d|
    decreases |d| - pos
  {
    if pos >= |d| || d[pos] == 0 then [] else [d[pos]] + CStr(d, pos + 1)
  }

  lemma {:induction false} CStrIs(d: Datagram, pos: nat, t: Text)
    requires NulFree(t) && pos + |t| < |d|
    requires d[pos..pos + |t|] == t && d[pos + |t|] == 0
    ensures CStr(d, pos) == t
    decreases |t|
  {
    if t != [] {
      assert d[pos] == t[0] && t[0] in t;
      assert d[pos + 1..pos + 1 + |t[1..]|] == d[pos..pos + |t|][1..];
      CStrIs(d, pos + 1, t[1..]);
    }
  }

  /** The string is the run of non-NUL bytes from `pos` to the next NUL, or to the end of the packet. */
  lemma {:induction false} CStrMeaning(d: Datagram, pos: nat)
    requires pos <= |d|
    ensures var t := CStr(d, pos);
            && NulFree(t)
            && d[pos..pos + |t|] == t
            && (pos + |t| < |d| ==> d[pos + |t|] == 0)
    decreases |d| - pos
  {
    if pos < |d| && d[pos] != 0 {
      CStrMeaning(d, pos + 1);
      var t := CStr(d, pos);
      assert d[pos..pos + |t|] == [d[pos]] + d[pos + 1..pos + 1 + |t[1..]|];
    }
  }

  // ---- strings and numbers

  function Lower(b: Byte): Byte {
    if 65 <= b <= 90 then b + 32 else b
  }

  /** `strcasecmp(a, b) == 0` */
  predicate EqualIgnoreCase(a: Text, b: Text) {
    |a| == |b| && forall i :: 0 <= i < |a| ==> Lower(a[i]) == Lower(b[i])
  }

  /** One letter is the other, or its upper case form. */
  predicate SameLetter(a: Byte, b: Byte) {
    a == b || (65 <= a <= 90 && b == a + 32) || (65 <= b <= 90 && a == b + 32)
  }

  /** Texts match exactly if they are the same, the case of their letters aside. */
  lemma EqualIgnoreCaseMeaning(a: Text, b: Text)
    ensures EqualIgnoreCase(a, b) <==> |a| == |b| && forall i :: 0 <= i < |a| ==> SameLetter(a[i], b[i])
  {
    forall i | 0 <= i < |a| && |a| == |b|
      ensures Lower(a[i]) == Lower(b[i]) <==> SameLetter(a[i], b[i])
    {
    }
  }

  predicate IsSpace(b: Byte) {
    b == 32 || 9 <= b <= 13
  }

  predicate IsDigit(b: Byte) {
    48 <= b <= 57
  }

  function SkipSpace(t: Text): Text {
    if t != [] && IsSpace(t[0]) then SkipSpace(t[1..]) else t
  }

  function Magnitude(t: Text, acc: nat): nat {
    if t != [] && IsDigit(t[0]) then Magnitude(t[1..], 10 * acc + t[0] - 48) else acc
  }

  /** `atoi`: the saturating `strtol` of the C library, cut to a 32-bit `int`. */
  function Atoi(t: Text): (n: int)
    ensures -0x8000_0000 <= n < 0x8000_0000
  {
    var u := SkipSpace(t);
    if u != [] && u[0] == 45 then
      var m := Magnitude(u[1..], 0);
      Wrap32(-(if m > 0x8000_0000_0000_0000 then 0x8000_0000_0000_0000 else m))
    else
      var m := Magnitude(if u != [] && u[0] == 43 then u[1..] else u, 0);
      Wrap32(if m > 0x7FFF_FFFF_FFFF_FFFF then 0x7FFF_FFFF_FFFF_FFFF else m)
  }

  /** A number as a client prints it. */
  function Decimal(n: nat): (t: Text)
    ensures t != [] && forall b :: b in t ==> IsDigit(b)
  {
    if n < 10 then [48 + n] else Decimal(n / 10) + [48 + n % 10]
  }

  lemma {:induction false} MagnitudeSnoc(t: Text, b: Byte, acc: nat)
    requires IsDigit(b) && forall c :: c in t ==> IsDigit(c)
    ensures Magnitude(t + [b], acc) == 10 * Magnitude(t, acc) + b - 48
    decreases t
  {
    if t == [] {
      assert Magnitude([b], acc) == Magnitude([b][1..], 10 * acc + b - 48);
    } else {
      assert t[0] in t;
      assert (t + [b])[1..] == t[1..] + [b];
      MagnitudeSnoc(t[1..], b, 10 * acc + t[0] - 48);
    }
  }

  lemma {:induction false} DecimalMagnitude(n: nat)
    ensures Magnitude(Decimal(n), 0) == n
  {
    if n < 10 {
      assert Magnitude([48 + n], 0) == Magnitude([48 + n][1..], n);
    } else {
      DecimalMagnitude(n / 10);
      MagnitudeSnoc(Decimal(n / 10), 48 + n % 10, 0);
    }
  }

  /** A proposal printed in decimal is the proposal the server reads. */
  lemma AtoiDecimal(n: nat)
    requires n < 0x8000_0000
    ensures Atoi(Decimal(n)) == n
  {
    DecimalMagnitude(n);
    var t := Decimal(n);
    assert IsDigit(t[0]) by { assert t[0] in t; }
    assert SkipSpace(t) == t;
  }

  function Saturated(n: int): int {
    if n > 0x7FFF_FFFF_FFFF_FFFF then 0x7FFF_FFFF_FFFF_FFFF
    else if n < -0x8000_0000_0000_0000 then -0x8000_0000_0000_0000
    else n
  }

  lemma {:induction false} SkipSpaces(spaces: Text, t: Text)
    requires (forall b :: b in spaces ==> IsSpace(b)) && (t == [] || !IsSpace(t[0]))
    ensures SkipSpace(spaces + t) == t
    decreases |spaces|
  {
    if spaces == [] {
      assert spaces + t == t;
    } else {
      assert spaces[0] in spaces;
      assert (spaces + t)[1..] == spaces[1..] + t;
      SkipSpaces(spaces[1..], t);
    }
  }

  lemma {:induction false} MagnitudeStops(digits: Text, tail: Text, acc: nat)
    requires (forall b :: b in digits ==> IsDigit(b)) && (tail == [] || !IsDigit(tail[0]))
    ensures Magnitude(digits + tail, acc) == Magnitude(digits, acc)
    decreases |digits|
  {
    if digits == [] {
      assert digits + tail == tail;
    } else {
      assert digits[0] in digits;
      assert (digits + tail)[1..] == digits[1..] + tail;
      MagnitudeStops(digits[1..], tail, 10 * acc + digits[0] - 48);
    }
  }

  datatype Sign = Unsigned | Plus | Minus

  function PrintSign(sign: Sign): Text {
    match sign
    case Unsigned => []
    case Plus => [43]
    case Minus => [45]
  }

  /** What `atoi` reads: white space, a sign, digits as far as they go, whatever follows; saturated at 64 bits and cut
      to 32. */
  lemma AtoiPrinted(spaces: Text, sign: Sign, n: nat, tail: Text)
    requires (forall b :: b in spaces ==> b == 32 || 9 <= b <= 13) && (tail == [] || !(48 <= tail[0] <= 57))
    ensures Atoi(spaces + (PrintSign(sign) + (Decimal(n) + tail))) ==
            Wrap32(Saturated(if sign.Minus? then -(n as int) else n as int))
  {
    var digits := Decimal(n);
    var body := digits + tail;
    var t := PrintSign(sign) + body;
    assert digits[0] in digits && body[0] == digits[0];
    SkipSpaces(spaces, t);
    MagnitudeStops(digits, tail, 0);
    DecimalMagnitude(n);
    assert sign.Unsigned? ==> t == body;
    assert !sign.Unsigned? ==> t[1..] == body;
  }

  /** And without a digit it reads 0. */
  lemma AtoiOfNone(spaces: Text, sign: Sign, tail: Text)
    requires (forall b :: b in spaces ==> b == 32 || 9 <= b <= 13)
    requires tail == [] || !(48 <= tail[0] <= 57 || 9 <= tail[0] <= 13 || tail[0] in {32, 43, 45})
    ensures Atoi(spaces + (PrintSign(sign) + tail)) == 0
  {
    var t := PrintSign(sign) + tail;
    SkipSpaces(spaces, t);
    assert sign.Unsigned? ==> t == tail;
    assert !sign.Unsigned? ==> t[1..] == tail;
  }

  // ---- scanning

  datatype Opt = Opt(name: Text, value: Text)

  datatype Header = Malformed | Header(fileName: Text, mode: Text, optionsAt: nat)

  /** The two strings every request starts with. */
  function ScanHeader(d: Datagram): (h: Header)
    ensures h.Header? ==> h.optionsAt <= |d| + 1
  {
    if |d| < 3 then Malformed
    else
      var fileName := CStr(d, 2);
      var modeAt := 2 + |fileName| + 1;
      if |d| < modeAt + 1 then Malformed
      else
        var mode := CStr(d, modeAt);
        Header(fileName, mode, modeAt + |mode| + 1)
  }

  /** A request is well-formed exactly if a NUL ends its first string before the last byte. */
  lemma HeaderMeaning(d: Datagram)
    ensures ScanHeader(d).Malformed? <==> forall i :: 2 <= i < |d| - 1 ==> d[i] != 0
  {
    if |d| >= 3 {
      CStrMeaning(d, 2);
      var t := CStr(d, 2);
      var end := 2 + |t|;
      forall i | 2 <= i < end ensures d[i] != 0 {
        assert d[i] == d[2..end][i - 2] == t[i - 2];
        assert t[i - 2] in t;
      }
    }
  }

  datatype Reading = NoValue(at: nat) | Pair(o: Opt, next: nat)

  /** One option name and its value. */
  function ReadPair(d: Datagram, pos: nat): (r: Reading)
    requires pos < |d|
    ensures r.NoValue? ==> pos < r.at <= |d| + 1
    ensures r.Pair? ==> pos + 2 <= r.next <= |d| + 1
  {
    var name := CStr(d, pos);
    var valueAt := pos + |name| + 1;
    if |d| < valueAt + 1 then NoValue(valueAt)
    else
      var value := CStr(d, valueAt);
      Pair(Opt(name, value), valueAt + |value| + 1)
  }

  datatype Scan = Scan(opts: seq<Opt>, end: nat, ok: bool)

  /** The option pairs from `pos` on; not `ok` when a name is not followed by a value. */
  function ScanOptions(d: Datagram, pos: nat): (r: Scan)
    requires pos <= |d| + 1
    ensures pos <= r.end <= |d| + 1
    decreases |d| + 1 - pos
  {
    if pos >= |d| then Scan([], pos, true)
    else
      match ReadPair(d, pos)
      case NoValue(at) => Scan([], at, false)
      case Pair(o, next) =>
        var r := ScanOptions(d, next);
        Scan([o] + r.opts, r.end, r.ok)
  }

  // ---- printing, as a client does it

  predicate Printable(opts: seq<Opt>) {
    opts == [] || (NulFree(opts[0].name) && NulFree(opts[0].value) && Printable(opts[1..]))
  }

  function PrintString(t: Text): Datagram {
    t + [0]
  }

  function PrintPair(o: Opt): Datagram {
    PrintString(o.name) + PrintString(o.value)
  }

  function PrintOptions(opts: seq<Opt>): Datagram {
    if opts == [] then [] else PrintPair(opts[0]) + PrintOptions(opts[1..])
  }

  function PrintRequest(op: nat, fileName: Text, mode: Text, opts: seq<Opt>): Datagram
    requires op < 256
  {
    [0, op] + PrintPair(Opt(fileName, mode)) + PrintOptions(opts)
  }

  /** Two printed strings that stand at `pos` are scanned back, one after the other. */
  lemma OnePair(d: Datagram, pos: nat, o: Opt)
    requires NulFree(o.name) && NulFree(o.value)
    requires pos + |PrintPair(o)| <= |d| && d[pos..pos + |PrintPair(o)|] == PrintPair(o)
    ensures CStr(d, pos) == o.name
    ensures CStr(d, pos + |o.name| + 1) == o.value
  {
    var p := PrintPair(o);
    var k := |o.name| + 1;
    forall i | 0 <= i < |p| ensures d[pos + i] == p[i] {
      assert d[pos..pos + |p|][i] == p[i];
    }
    forall i | 0 <= i < |o.name| ensures d[pos + i] == o.name[i] {
      assert d[pos + i] == p[i] == PrintString(o.name)[i];
    }
    assert d[pos..pos + |o.name|] == o.name;
    assert d[pos + |o.name|] == p[|o.name|] == 0;
    CStrIs(d, pos, o.name);
    forall i | 0 <= i < |o.value| ensures d[pos + k + i] == o.value[i] {
      assert d[pos + (k + i)] == p[k + i] == PrintString(o.value)[i];
    }
    assert d[pos + k..pos + k + |o.value|] == o.value;
    assert d[pos + (k + |o.value|)] == p[k + |o.value|] == 0;
    CStrIs(d, pos + k, o.value);
  }

  lemma ReadPrintedPair(d: Datagram, pos: nat, o: Opt)
    requires NulFree(o.name) && NulFree(o.value)
    requires pos + |PrintPair(o)| <= |d| && d[pos..pos + |PrintPair(o)|] == PrintPair(o)
    ensures ReadPair(d, pos) == Pair(o, pos + |PrintPair(o)|)
  {
    OnePair(d, pos, o);
  }

  lemma SplitAt<T>(d: seq<T>, pos: nat, a: seq<T>, b: seq<T>)
    requires pos <= |d| && d[pos..] == a + b
    ensures pos + |a| <= |d| && d[pos..pos + |a|] == a && d[pos + |a|..] == b
  {
    var tail := d[pos..];
    assert |tail| == |a| + |b|;
    assert tail[..|a|] == a && tail[|a|..] == b;
    assert d[pos..pos + |a|] == tail[..|a|];
    assert d[pos + |a|..] == tail[|a|..];
  }

  /** The printed options stand at `pos`, pair by pair, up to the end. */
  ghost predicate PrintedAt(d: Datagram, pos: nat, opts: seq<Opt>)
    decreases |opts|
  {
    if opts == [] then pos == |d|
    else
      var n := |PrintPair(opts[0])|;
      pos + n <= |d| && d[pos..pos + n] == PrintPair(opts[0]) && PrintedAt(d, pos + n, opts[1..])
  }

  lemma {:induction false} PrintedOptions(d: Datagram, pos: nat, opts: seq<Opt>)
    requires pos <= |d| && d[pos..] == PrintOptions(opts)
    ensures PrintedAt(d, pos, opts)
    decreases |opts|
  {
    if opts != [] {
      SplitAt(d, pos, PrintPair(opts[0]), PrintOptions(opts[1..]));
      PrintedOptions(d, pos + |PrintPair(opts[0])|, opts[1..]);
    }
  }

  lemma {:induction false} ScanPrinted(d: Datagram, pos: nat, opts: seq<Opt>)
    requires Printable(opts) && pos <= |d| && PrintedAt(d, pos, opts)
    ensures ScanOptions(d, pos) == Scan(opts, |d|, true)
    decreases |opts|
  {
    if opts != [] {
      var next := pos + |PrintPair(opts[0])|;
      ReadPrintedPair(d, pos, opts[0]);
      ScanPrinted(d, next, opts[1..]);
      assert opts == [opts[0]] + opts[1..];
    }
  }

  lemma OptionsRoundTrip(d: Datagram, pos: nat, opts: seq<Opt>)
    requires Printable(opts) && pos <= |d| && d[pos..] == PrintOptions(opts)
    ensures ScanOptions(d, pos) == Scan(opts, |d|, true)
  {
    PrintedOptions(d, pos, opts);
    ScanPrinted(d, pos, opts);
  }

  lemma {:induction false} CStrToEnd(d: Datagram, pos: nat, t: Text)
    requires NulFree(t) && pos <= |d| && d[pos..] == t
    ensures CStr(d, pos) == t
    decreases |t|
  {
    if t != [] {
      assert d[pos] == t[0] && t[0] in t;
      assert d[pos + 1..] == d[pos..][1..];
      CStrToEnd(d, pos + 1, t[1..]);
    }
  }

  /** A name as it stands at the end of a packet, with its NUL or without. */
  function LastName(name: Text, ended: bool): Datagram {
    if ended then PrintString(name) else name
  }

  lemma DanglesAlone(d: Datagram, pos: nat, name: Text, ended: bool)
    requires NulFree(name) && pos <= |d| && (ended || name != []) && d[pos..] == LastName(name, ended)
    ensures ScanOptions(d, pos).opts == [] && !ScanOptions(d, pos).ok
  {
    if ended {
      assert d[pos..pos + |name|] == d[pos..][..|name|] && d[pos + |name|] == d[pos..][|name|];
      CStrIs(d, pos, name);
    } else {
      CStrToEnd(d, pos, name);
    }
  }

  lemma PairThenRest(d: Datagram, pos: nat, next: nat, o: Opt, rest: Datagram)
    requires NulFree(o.name) && NulFree(o.value) && pos <= |d|
    requires d[pos..] == PrintPair(o) + rest && next == pos + |PrintPair(o)|
    ensures next <= |d| && d[next..] == rest
    ensures ScanOptions(d, pos).opts == [o] + ScanOptions(d, next).opts
    ensures ScanOptions(d, pos).ok == ScanOptions(d, next).ok
  {
    SplitAt(d, pos, PrintPair(o), rest);
    ReadPrintedPair(d, pos, o);
  }

  /** A name with no value behind it, ended by a NUL or by the packet, is an error; the pairs before it are read. */
  lemma {:induction false} DanglingName(d: Datagram, pos: nat, opts: seq<Opt>, name: Text, ended: bool)
    requires Printable(opts) && NulFree(name) && pos <= |d| && (ended || name != [])
    requires d[pos..] == PrintOptions(opts) + LastName(name, ended)
    ensures ScanOptions(d, pos).opts == opts && !ScanOptions(d, pos).ok
    decreases |opts|
  {
    var last := LastName(name, ended);
    if opts == [] {
      assert PrintOptions(opts) + last == last;
      DanglesAlone(d, pos, name, ended);
    } else {
      var o, next, rest := opts[0], pos + |PrintPair(opts[0])|, PrintOptions(opts[1..]) + last;
      assert PrintOptions(opts) + last == PrintPair(o) + rest;
      PairThenRest(d, pos, next, o, rest);
      DanglingName(d, next, opts[1..], name, ended);
      assert opts == [o] + opts[1..];
    }
  }

  lemma NameThenRest(d: Datagram, pos: nat, valueAt: nat, name: Text, rest: Datagram)
    requires NulFree(name) && pos <= |d| && d[pos..] == PrintString(name) + rest && valueAt == pos + |name| + 1
    ensures valueAt <= |d| && CStr(d, pos) == name && d[valueAt..] == rest
  {
    SplitAt(d, pos, PrintString(name), rest);
    assert d[pos..pos + |name|] == d[pos..valueAt][..|name|];
    assert d[pos + |name|] == d[pos..valueAt][|name|];
    CStrIs(d, pos, name);
  }

  lemma LastValue(d: Datagram, pos: nat, valueAt: nat, o: Opt)
    requires NulFree(o.name) && NulFree(o.value) && o.value != [] && pos <= |d|
    requires d[pos..] == PrintString(o.name) + o.value && valueAt == pos + |o.name| + 1
    ensures ScanOptions(d, pos) == Scan([o], |d| + 1, true)
  {
    NameThenRest(d, pos, valueAt, o.name, o.value);
    CStrToEnd(d, valueAt, o.value);
    assert |d| == valueAt + |o.value|;
    assert ReadPair(d, pos) == Pair(o, |d| + 1);
  }

  /** A last value that the packet ends in place of a NUL is read all the same. */
  lemma {:induction false} OpenEnd(d: Datagram, pos: nat, opts: seq<Opt>, last: Opt)
    requires Printable(opts) && NulFree(last.name) && NulFree(last.value) && last.value != [] && pos <= |d|
    requires d[pos..] == PrintOptions(opts) + (PrintString(last.name) + last.value)
    ensures ScanOptions(d, pos).opts == opts + [last] && ScanOptions(d, pos).ok
    decreases |opts|
  {
    var end := PrintString(last.name) + last.value;
    if opts == [] {
      assert PrintOptions(opts) + end == end;
      LastValue(d, pos, pos + |last.name| + 1, last);
    } else {
      var o, next, rest := opts[0], pos + |PrintPair(opts[0])|, PrintOptions(opts[1..]) + end;
      assert PrintOptions(opts) + end == PrintPair(o) + rest;
      PairThenRest(d, pos, next, o, rest);
      OpenEnd(d, next, opts[1..], last);
      assert opts + [last] == [o] + (opts[1..] + [last]);
    }
  }

  lemma PrintedParts(d: Datagram, op: nat, o: Opt, rest: Datagram)
    requires op < 256 && NulFree(o.name) && NulFree(o.value)
    requires d == [0, op] + PrintPair(o) + rest
    ensures OpCode(d) == op
    ensures ScanHeader(d) == Header(o.name, o.value, 4 + |o.name| + |o.value|)
    ensures 4 + |o.name| + |o.value| <= |d| && d[4 + |o.name| + |o.value|..] == rest
  {
    assert d[2..] == PrintPair(o) + rest;
    SplitAt(d, 2, PrintPair(o), rest);
    OnePair(d, 2, o);
  }

  /** Scanning a printed request gives back its strings in order and ends exactly at the packet's end. */
  lemma RequestRoundTrip(d: Datagram, op: nat, fileName: Text, mode: Text, opts: seq<Opt>, optionsAt: nat)
    requires op < 256 && NulFree(fileName) && NulFree(mode) && Printable(opts)
    requires d == PrintRequest(op, fileName, mode, opts)
    requires optionsAt == 4 + |fileName| + |mode|
    ensures OpCode(d) == op
    ensures ScanHeader(d) == Header(fileName, mode, optionsAt)
    ensures optionsAt <= |d| && ScanOptions(d, optionsAt) == Scan(opts, |d|, true)
  {
    PrintedParts(d, op, Opt(fileName, mode), PrintOptions(opts));
    OptionsRoundTrip(d, optionsAt, opts);
  }

  // ---- negotiation

  datatype Terms = Terms(blockSize: nat, windowSize: nat, packetTimeout: int) {
    predicate Positive() {
      blockSize > 0 && windowSize > 0
    }
  }

  function Clamp(n: int, lo: int, hi: int): (r: int)
    ensures lo <= hi ==> lo <= r <= hi
    ensures lo <= hi ==> if n < lo then r == lo else if n > hi then r == hi else r == n
  {
    var raised := if n < lo then lo else n;
    if raised > hi then hi else raised
  }

  /** The effect of one option pair on the session, in the order in which the keywords are tried. */
  function ApplyOption(cfg: Config, t: Terms, o: Opt): (r: Terms)
    requires cfg.Consistent()
    ensures t.Positive() ==> r.Positive()
  {
    var n := Atoi(o.value);
    if EqualIgnoreCase(TIMEOUT, o.name) then
      if 1 <= n <= 255 then t.(packetTimeout := Clamp(n, cfg.timeoutMin, cfg.timeoutMax)) else t
    else if EqualIgnoreCase(BLKSIZE, o.name) then
      if 8 <= n <= 65464 then t.(blockSize := n) else t
    else if EqualIgnoreCase(WINDOWSIZE, o.name) then
      if 1 <= n <= 65535 && n >= cfg.windowMin then
        t.(windowSize := if n > cfg.windowMax then cfg.windowMax else n)
      else t
    else t
  }

  function Negotiate(cfg: Config, t: Terms, opts: seq<Opt>): (r: Terms)
    requires cfg.Consistent()
    ensures t.Positive() ==> r.Positive()
    decreases |opts|
  {
    if opts == [] then t else Negotiate(cfg, ApplyOption(cfg, t, opts[0]), opts[1..])
  }

  // The reference: what each keyword accepts, what is granted, and which proposal counts.

  datatype Kind = Timeout | BlkSize | WindowSize

  function Keyword(kind: Kind): Text {
    match kind
    case Timeout => TIMEOUT
    case BlkSize => BLKSIZE
    case WindowSize => WINDOWSIZE
  }

  predicate Acceptable(cfg: Config, kind: Kind, n: int) {
    match kind
    case Timeout => 1 <= n <= 255
    case BlkSize => 8 <= n <= 65464
    case WindowSize => 1 <= n <= 65535 && cfg.windowMin <= n
  }

  function Granted(cfg: Config, kind: Kind, n: int): int {
    match kind
    case Timeout => Clamp(n, cfg.timeoutMin, cfg.timeoutMax)
    case BlkSize => n
    case WindowSize => if n > cfg.windowMax then cfg.windowMax else n
  }

  function Field(kind: Kind, t: Terms): int {
    match kind
    case Timeout => t.packetTimeout
    case BlkSize => t.blockSize
    case WindowSize => t.windowSize
  }

  predicate Proposes(cfg: Config, kind: Kind, o: Opt) {
    EqualIgnoreCase(Keyword(kind), o.name) && Acceptable(cfg, kind, Atoi(o.value))
  }

  lemma KeywordsDiffer(a: Kind, b: Kind, name: Text)
    requires EqualIgnoreCase(Keyword(a), name) && EqualIgnoreCase(Keyword(b), name)
    ensures a == b
  {
    if a != b {
      assert |Keyword(a)| == |Keyword(b)|;
      assert Keyword(a)[0] == Keyword(b)[0] by {
        assert Lower(Keyword(a)[0]) == Lower(name[0]) == Lower(Keyword(b)[0]);
      }
      assert false;
    }
  }

  lemma ApplyOneOption(cfg: Config, t: Terms, o: Opt, kind: Kind)
    requires cfg.Consistent()
    ensures Field(kind, ApplyOption(cfg, t, o)) ==
            if Proposes(cfg, kind, o) then Granted(cfg, kind, Atoi(o.value)) else Field(kind, t)
  {
    forall a: Kind, b: Kind |
      EqualIgnoreCase(Keyword(a), o.name) && EqualIgnoreCase(Keyword(b), o.name)
      ensures a == b
    {
      KeywordsDiffer(a, b, o.name);
    }
    assert EqualIgnoreCase(Keyword(Timeout), o.name) == EqualIgnoreCase(TIMEOUT, o.name);
    assert EqualIgnoreCase(Keyword(BlkSize), o.name) == EqualIgnoreCase(BLKSIZE, o.name);
    assert EqualIgnoreCase(Keyword(WindowSize), o.name) == EqualIgnoreCase(WINDOWSIZE, o.name);
  }

  lemma {:induction false} NoProposalKeeps(cfg: Config, t: Terms, opts: seq<Opt>, kind: Kind)
    requires cfg.Consistent()
    requires forall i :: 0 <= i < |opts| ==> !Proposes(cfg, kind, opts[i])
    ensures Field(kind, Negotiate(cfg, t, opts)) == Field(kind, t)
    decreases |opts|
  {
    if opts != [] {
      ApplyOneOption(cfg, t, opts[0], kind);
      NoProposalKeeps(cfg, ApplyOption(cfg, t, opts[0]), opts[1..], kind);
    }
  }

  /** The last acceptable proposal for a keyword decides its term, whatever stands around it. */
  lemma {:induction false} LastProposalWins(cfg: Config, t: Terms, opts: seq<Opt>, kind: Kind, last: nat)
    requires cfg.Consistent()
    requires last < |opts| && Proposes(cfg, kind, opts[last])
    requires forall i :: last < i < |opts| ==> !Proposes(cfg, kind, opts[i])
    ensures Field(kind, Negotiate(cfg, t, opts)) == Granted(cfg, kind, Atoi(opts[last].value))
    decreases |opts|
  {
    var t1 := ApplyOption(cfg, t, opts[0]);
    if last == 0 {
      ApplyOneOption(cfg, t, opts[0], kind);
      NoProposalKeeps(cfg, t1, opts[1..], kind);
    } else {
      LastProposalWins(cfg, t1, opts[1..], kind, last - 1);
    }
  }

  predicate WithinBounds(cfg: Config, t: Terms) {
    && 8 <= t.blockSize <= 65464
    && 1 <= t.windowSize <= 65535
    && (t.windowSize == 1 || t.windowSize <= cfg.windowMax)
    && cfg.timeoutMin <= t.packetTimeout <= cfg.timeoutMax
  }

  /** Whatever bytes follow the mode string, the agreed terms stay within their bounds. */
  lemma {:induction false} NegotiatedWithinBounds(cfg: Config, t: Terms, opts: seq<Opt>)
    requires cfg.Consistent() && WithinBounds(cfg, t)
    ensures WithinBounds(cfg, Negotiate(cfg, t, opts))
    decreases opts
  {
    if opts != [] {
      NegotiatedWithinBounds(cfg, ApplyOption(cfg, t, opts[0]), opts[1..]);
    }
  }
}
