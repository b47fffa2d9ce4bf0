/**
  * The loaders of src/config.cpp: a text file is read with `fgets` into a buffer of
  * 1500 bytes, a key is matched against the start of what was read, and what follows
  * the first `=` is the value. C strings live in arrays and end at the first NUL.
  */
module ConfigFile {
  import opened Wire
  import opened Settings
  import opened Request
  import opened Sequences

  const BUFFER: nat := 1500

  const NUL: Byte := 0
  const LF: Byte := 10
  const CR: Byte := 13
  const EQUALS: Byte := 61

  predicate IsEol(b: Byte) {
    b == LF || b == CR
  }

  predicate IsEquals(b: Byte) {
    b == EQUALS
  }

  // ---------------------------------------------------------------- what the file means

  /** What `fgets` takes from the front of `f` when it has room for `room` bytes. */
  function FirstLine(f: Text, room: nat): (l: Text)
    ensures l <= f && |l| <= room
    ensures f != [] && room > 0 ==> l != []
  {
    if f == [] || room == 0 then []
    else if f[0] == LF then [LF]
    else [f[0]] + FirstLine(f[1..], room - 1)
  }

  function Lines(f: Text): seq<Text> {
    if f == [] then []
    else
      var l := FirstLine(f, BUFFER - 1);
      [l] + Lines(f[|l|..])
  }

  function UpTo(s: Text, stop: Byte -> bool): (r: Text)
    ensures r <= s
    ensures forall b :: b in r ==> !stop(b)
    ensures |r| < |s| ==> stop(s[|r|])
  {
    if s == [] || stop(s[0]) then [] else [s[0]] + UpTo(s[1..], stop)
  }

  /** What a line holds behind its first `=`, if `key` is where it starts. */
  function TailIn(line: Text, key: Text): Option<Text> {
    var s := CStr(line, 0);
    var name := UpTo(s, IsEquals);
    if key <= s && 0 < |name| < |s| then Some(s[|name| + 1..]) else None
  }

  /** The value a line holds for `key`, whose name only has to start the line. */
  function ValueIn(line: Text, key: Text): Option<Text> {
    var tail := TailIn(line, key);
    if tail.Some? then Some(UpTo(tail.value, IsEol)) else None
  }

  /** The first such tail, line end and all. */
  function FirstTail(lines: seq<Text>, key: Text): Option<Text> {
    if lines == [] then None
    else if TailIn(lines[0], key).Some? then TailIn(lines[0], key)
    else FirstTail(lines[1..], key)
  }

  function Values(lines: seq<Text>, key: Text): seq<Text> {
    if lines == [] then []
    else
      var v := ValueIn(lines[0], key);
      (if v.Some? then [v.value] else []) + Values(lines[1..], key)
  }

  // ---------------------------------------------------------------- C strings in buffers

  predicate Terminated(s: seq<Byte>, from: nat) {
    from + |CStr(s, from)| < |s|
  }

  /** The byte of a string constant, its terminator included. */
  function CharAt(t: Text, i: nat): Byte {
    if i < |t| then t[i] else NUL
  }

  lemma CharAtEnd(t: Text, i: nat)
    requires NulFree(t) && i <= |t|
    ensures CharAt(t, i) == NUL <==> i == |t|
  {
    assert i < |t| ==> t[i] in t;
  }

  lemma CStrAt(s: seq<Byte>, from: nat, i: nat)
    requires from <= |s| && i <= |CStr(s, from)|
    ensures i < |CStr(s, from)| ==> s[from + i] == CStr(s, from)[i] != NUL
    ensures i == |CStr(s, from)| && from + i < |s| ==> s[from + i] == NUL
  {
    CStrMeaning(s, from);
    var t := CStr(s, from);
    if i < |t| {
      assert t[i] == s[from..from + |t|][i];
      assert t[i] in t;
    }
  }

  function First(s: Text, n: nat): Text {
    if n < |s| then s[..n] else s
  }

  method ChrPos(str: array<Byte>, c: Byte, maxLen: nat) returns (r: int)
    requires c != NUL && Terminated(str[..], 0)
    ensures var s := First(CStr(str[..], 0), maxLen);
            if r < 0 then r == -1 && c !in s else r < |s| && s[r] == c && c !in s[..r]
  {
    ghost var s := CStr(str[..], 0);
    var i := 0;
    CStrAt(str[..], 0, i);
    while str[i] != NUL && i < maxLen
      invariant i <= |s| && i <= maxLen
      invariant str[i] == if i < |s| then s[i] else NUL
      invariant c !in s[..i]
      decreases |s| - i
    {
      CStrAt(str[..], 0, i);
      if str[i] == c {
        return i;
      }
      i := i + 1;
      CStrAt(str[..], 0, i);
    }
    CStrAt(str[..], 0, i);
    return -1;
  }

  lemma {:induction false} UpToIs(s: Text, stop: Byte -> bool, n: nat)
    requires n <= |s| && (n < |s| ==> stop(s[n]))
    requires forall b :: b in s[..n] ==> !stop(b)
    ensures UpTo(s, stop) == s[..n]
  {
    if n > 0 {
      assert s[0] in s[..n];
      assert forall b :: b in s[1..][..n - 1] ==> b in s[..n];
      UpToIs(s[1..], stop, n - 1);
      assert s[..n] == [s[0]] + s[1..][..n - 1];
    }
  }

  method StrCmp2(s1: array<Byte>, s2: Text, maxLen: nat) returns (r: int)
    requires Terminated(s1[..], 0) && NulFree(s2)
    ensures r == if |s2| <= maxLen && s2 <= CStr(s1[..], 0) then 0 else 1
  {
    ghost var s := CStr(s1[..], 0);
    var i := 0;
    CStrAt(s1[..], 0, i);
    while s1[i] == CharAt(s2, i) && CharAt(s2, i) != NUL && s1[i] != NUL && i < maxLen
      invariant i <= |s| && i <= |s2| && i <= maxLen
      invariant s[..i] == s2[..i]
      invariant s1[i] == if i < |s| then s[i] else NUL
      decreases |s| - i
    {
      i := i + 1;
      CStrAt(s1[..], 0, i);
    }
    CStrAt(s1[..], 0, i);
    CharAtEnd(s2, i);
    if CharAt(s2, i) == NUL {
      return 0;
    }
    return 1;
  }

  /** The string up to its first line end among the first `n` bytes; all of it if there is none. */
  function CutLine(t: Text, n: nat): Text {
    var line := UpTo(First(t, n), IsEol);
    if |line| < |First(t, n)| then line else t
  }

  lemma WholeLine(t: Text, n: nat)
    requires |t| <= n
    ensures CutLine(t, n) == UpTo(t, IsEol)
  {
  }

  lemma CutAtEol(before: seq<Byte>, after: seq<Byte>, from: nat, n: nat)
    requires from <= |before| == |after| && Terminated(before, from)
    requires forall k :: 0 <= k < |CStr(before, from)| ==>
      after[from + k] == if k < n && IsEol(CStr(before, from)[k]) then NUL else CStr(before, from)[k]
    requires after[from + |CStr(before, from)|] == NUL
    ensures CStr(after, from) == CutLine(CStr(before, from), n) && Terminated(after, from)
  {
    var t := CStr(before, from);
    var head, cut := First(t, n), CutLine(t, n);
    CStrMeaning(before, from);
    forall k | 0 <= k < |cut|
      ensures after[from + k] == cut[k] != NUL
    {
      var line := UpTo(head, IsEol);
      assert cut[k] == t[k] && t[k] in t;
      assert k < n ==> k < |line| && line[k] in line;
    }
    assert after[from..from + |cut|] == cut;
    CStrIs(after, from, cut);
  }

  lemma Unscanned(before: seq<Byte>, after: seq<Byte>, from: nat, i: nat, n: nat)
    requires from <= |before| == |after| && Terminated(before, from) && i <= |CStr(before, from)| && i <= n
    requires i == |CStr(before, from)| || i == n
    requires forall k :: from + i <= k < |before| ==> after[k] == before[k]
    ensures forall k :: i <= k < |CStr(before, from)| ==> after[from + k] == CStr(before, from)[k]
    ensures after[from + |CStr(before, from)|] == NUL
  {
    var t := CStr(before, from);
    forall k | i <= k <= |t|
      ensures k < |t| ==> after[from + k] == t[k]
      ensures k == |t| ==> after[from + k] == NUL
    {
      CStrAt(before, from, k);
    }
    CStrAt(before, from, |t|);
    assert after[from + |t|] == before[from + |t|];
  }

  /** The string begins `from` places into the array. */
  method RemoveEol(s: array<Byte>, from: nat, maxLen: nat)
    requires from <= s.Length && Terminated(s[..], from)
    modifies s
    ensures CStr(s[..], from) == CutLine(old(CStr(s[..], from)), maxLen)
    ensures Terminated(s[..], from)
    ensures s[..from] == old(s[..from])
  {
    ghost var t := CStr(s[..], from);
    var i := 0;
    CStrAt(s[..], from, 0);
    while s[from + i] != NUL && i < maxLen
      invariant i <= |t| && i <= maxLen
      invariant forall k :: 0 <= k < s.Length && !(from <= k < from + i) ==> s[k] == old(s[k])
      invariant forall k :: 0 <= k < i ==> s[from + k] == if IsEol(t[k]) then NUL else t[k]
      decreases |t| - i
    {
      CStrAt(old(s[..]), from, i);
      if s[from + i] == LF || s[from + i] == CR {
        s[from + i] := NUL;
      }
      i := i + 1;
      CStrAt(old(s[..]), from, i);
    }
    CStrAt(old(s[..]), from, i);
    Unscanned(old(s[..]), s[..], from, i, maxLen);
    CutAtEol(old(s[..]), s[..], from, maxLen);
  }

  // ---------------------------------------------------------------- the loaders

  /** The buffer begins with `line` and a NUL. */
  predicate Holds(buffer: seq<Byte>, line: Text) {
    |line| < |buffer| && buffer[..|line|] == line && buffer[|line|] == NUL
  }

  /** An open text file. */
  class TextFile {
    const text: Text
    var pos: nat
    var atEnd: bool

    predicate Valid()
      reads this
    {
      pos <= |text| && (atEnd ==> pos == |text|)
    }

    constructor (text: Text)
      ensures Valid() && this.text == text && pos == 0
    {
      this.text, pos, atEnd := text, 0, false;
    }

    /** `fgets` of the C library; `ok` is false for a null result. */
    method Gets(buffer: array<Byte>) returns (ok: bool)
      requires Valid() && buffer.Length == BUFFER
      modifies this, buffer
      ensures Valid()
      ensures ok <==> old(pos) < |text|
      ensures pos == old(pos) + |FirstLine(text[old(pos)..], BUFFER - 1)|
      ensures pos == old(pos) ==> atEnd
      ensures ok ==> Holds(buffer[..], FirstLine(text[old(pos)..], BUFFER - 1))
    {
      var line := FirstLine(text[pos..], BUFFER - 1);
      var n := |line|;
      forall k | 0 <= k < n {
        buffer[k] := line[k];
      }
      buffer[n] := NUL;
      pos := pos + n;
      atEnd := pos == |text| && n < BUFFER - 1 && (n == 0 || line[n - 1] != LF);
      ok := n > 0;
    }
  }

  lemma HoldsString(buffer: seq<Byte>, line: Text)
    requires Holds(buffer, line)
    ensures CStr(buffer, 0) == CStr(line, 0) && Terminated(buffer, 0)
  {
    CStrMeaning(line, 0);
    var t := CStr(line, 0);
    assert buffer[0..|t|] == line[0..|t|];
    assert |t| < |line| ==> buffer[|t|] == line[|t|];
    CStrIs(buffer, 0, t);
  }

  /** The string behind the first `=` of a buffer. */
  lemma SuffixString(buffer: seq<Byte>, from: nat)
    requires Terminated(buffer, 0) && from <= |CStr(buffer, 0)|
    ensures CStr(buffer, from) == CStr(buffer, 0)[from..] && Terminated(buffer, from)
  {
    CStrMeaning(buffer, 0);
    var t := CStr(buffer, 0);
    assert buffer[from..from + |t[from..]|] == buffer[0..|t|][from..];
    CStrIs(buffer, from, t[from..]);
  }

  class ValueList {
    var items: seq<Text>

    constructor ()
      ensures items == []
    {
      items := [];
    }
  }

  /** `at` is where the string `tail` begins. */
  predicate Found(buffer: seq<Byte>, at: Option<nat>, tail: Option<Text>) {
    && (at.Some? <==> tail.Some?)
    && (at.Some? ==>
      at.value <= |buffer| && Terminated(buffer, at.value) && CStr(buffer, at.value) == tail.value)
  }

  /** Where the value of a matching line starts in the buffer. */
  method FindValue(buffer: array<Byte>, key: Text, ghost line: Text) returns (at: Option<nat>)
    requires NulFree(key) && buffer.Length == BUFFER && Holds(buffer[..], line)
    ensures Found(buffer[..], at, TailIn(line, key))
  {
    HoldsString(buffer[..], line);
    var differs := StrCmp2(buffer, key, BUFFER);
    if differs != 0 {
      return None;
    }
    var strposI := ChrPos(buffer, EQUALS, BUFFER);
    ghost var t := CStr(line, 0);
    UpToIs(t, IsEquals, if strposI < 0 then |t| else strposI);
    if strposI > 0 {
      SuffixString(buffer[..], strposI + 1);
      return Some(strposI + 1);
    }
    return None;
  }

  function Listed(v: Option<Text>): seq<Text> {
    if v.Some? then [v.value] else []
  }

  /** The values in the file from `pos` on. */
  function Ahead(f: Text, pos: nat, key: Text): seq<Text>
    requires pos <= |f|
  {
    Values(Lines(f[pos..]), key)
  }

  lemma LinesFront(line: Text, rest: seq<Text>, key: Text)
    ensures Values([line] + rest, key) == Listed(ValueIn(line, key)) + Values(rest, key)
    ensures FirstTail([line] + rest, key) == if TailIn(line, key).Some? then TailIn(line, key) else FirstTail(rest, key)
  {
    assert ([line] + rest)[1..] == rest;
  }

  lemma LinesStep(f: Text, pos: nat, next: nat, key: Text, line: Text)
    requires pos < |f| && line == FirstLine(f[pos..], BUFFER - 1) && next == pos + |line|
    ensures pos < next <= |f|
    ensures Ahead(f, pos, key) == Listed(ValueIn(line, key)) + Ahead(f, next, key)
    ensures FirstTail(Lines(f[pos..]), key) ==
            if TailIn(line, key).Some? then TailIn(line, key) else FirstTail(Lines(f[next..]), key)
  {
    assert f[pos..][|line|..] == f[next..];
    LinesFront(line, Lines(f[next..]), key);
  }

  /** One round of a loader's loop, up to the place of the value in the buffer. */
  method NextMatch(f: TextFile, buffer: array<Byte>, key: Text) returns (at: Option<nat>)
    requires f.Valid() && buffer.Length == BUFFER && NulFree(key)
    modifies f, buffer
    ensures f.Valid()
    ensures f.pos == old(f.pos) + |FirstLine(f.text[old(f.pos)..], BUFFER - 1)|
    ensures f.pos == old(f.pos) ==> f.atEnd && at.None?
    ensures f.pos > old(f.pos) ==>
      Found(buffer[..], at, TailIn(FirstLine(f.text[old(f.pos)..], BUFFER - 1), key))
  {
    ghost var line := FirstLine(f.text[f.pos..], BUFFER - 1);
    var ret := f.Gets(buffer);
    if !ret {
      return None;
    }
    at := FindValue(buffer, key, line);
  }

  method NextValue(f: TextFile, buffer: array<Byte>, key: Text) returns (value: Option<Text>)
    requires f.Valid() && buffer.Length == BUFFER && NulFree(key)
    modifies f, buffer
    ensures f.Valid()
    ensures f.pos == old(f.pos) + |FirstLine(f.text[old(f.pos)..], BUFFER - 1)|
    ensures f.pos == old(f.pos) ==> f.atEnd && value.None?
    ensures f.pos > old(f.pos) ==> value == ValueIn(FirstLine(f.text[old(f.pos)..], BUFFER - 1), key)
  {
    var at := NextMatch(f, buffer, key);
    if at.None? {
      return None;
    }
    WholeLine(CStr(buffer[..], at.value), BUFFER);
    RemoveEol(buffer, at.value, BUFFER);
    return Some(CStr(buffer[..], at.value));
  }

  method LoadLine(f: TextFile, buffer: array<Byte>, key: Text, store: ValueList)
    requires f.Valid() && buffer.Length == BUFFER && NulFree(key)
    modifies f, buffer, store
    ensures f.Valid() && (f.pos == old(f.pos) ==> f.atEnd) && f.pos >= old(f.pos)
    ensures store.items + Ahead(f.text, f.pos, key) == old(store.items) + Ahead(f.text, old(f.pos), key)
  {
    ghost var pos, before, line := f.pos, store.items, FirstLine(f.text[f.pos..], BUFFER - 1);
    var value := NextValue(f, buffer, key);
    if value.Some? {
      store.items := store.items + [value.value];
    }
    EmptyUnits(before);
    if f.pos > pos {
      LinesStep(f.text, pos, f.pos, key, line);
      Regroup(before, Listed(value), Ahead(f.text, f.pos, key));
    }
  }

  /** `file` is None when the file cannot be opened. */
  method LoadMultiLineValue(file: Option<Text>, key: Text, store: ValueList) returns (r: int)
    requires NulFree(key)
    modifies store
    ensures r == if file.None? then 1 else -1
    ensures store.items == old(store.items) + (if file.None? then [] else Values(Lines(file.value), key))
  {
    EmptyUnits(store.items);
    if file.None? {
      return 1;
    }
    var f := new TextFile(file.value);
    var buffer := new Byte[BUFFER](_ => NUL);
    assert f.text[f.pos..] == f.text;
    ghost var before := store.items;
    while !f.atEnd
      invariant f.Valid() && fresh(f) && fresh(buffer) && f.text == file.value
      invariant store.items + Ahead(f.text, f.pos, key) == before + Values(Lines(f.text), key)
      decreases |f.text| - f.pos, if f.atEnd then 0 else 1
    {
      LoadLine(f, buffer, key, store);
    }
    assert f.text[f.pos..] == [];
    EmptyUnits(store.items);
    return -1;
  }

  /** `strncpy` of the string at `from`, which fits. */
  method StrCpy(store: array<Byte>, buffer: array<Byte>, from: nat)
    requires store != buffer && buffer.Length == BUFFER
    requires from <= BUFFER && Terminated(buffer[..], from) && |CStr(buffer[..], from)| < store.Length
    modifies store
    ensures CStr(store[..], 0) == CStr(buffer[..], from) && Terminated(store[..], 0)
  {
    var s := CStr(buffer[..], from);
    CStrMeaning(buffer[..], from);
    forall k | 0 <= k < store.Length {
      store[k] := CharAt(s, k);
    }
    assert buffer[..] == old(buffer[..]);
    assert store[..][0..|s|] == s;
    CStrIs(store[..], 0, s);
  }

  /** The tail that is going to be copied leaves room for a NUL. */
  predicate Fitting(lines: seq<Text>, key: Text, room: nat) {
    var tail := FirstTail(lines, key);
    tail.Some? ==> |tail.value| < room
  }

  method StoreValue(f: TextFile, buffer: array<Byte>, key: Text, store: array<Byte>) returns (found: bool)
    requires f.Valid() && store != buffer && buffer.Length == BUFFER && NulFree(key)
    requires Fitting(Lines(f.text[f.pos..]), key, store.Length)
    modifies f, buffer, store
    ensures f.Valid() && (f.pos == old(f.pos) ==> f.atEnd) && f.pos >= old(f.pos)
    ensures var values := Ahead(f.text, old(f.pos), key);
            if found then values != [] && CStr(store[..], 0) == values[0]
            else values == Ahead(f.text, f.pos, key)
    ensures found || Fitting(Lines(f.text[f.pos..]), key, store.Length)
  {
    ghost var pos, line := f.pos, FirstLine(f.text[f.pos..], BUFFER - 1);
    var at := NextMatch(f, buffer, key);
    if f.pos > pos {
      LinesStep(f.text, pos, f.pos, key, line);
    }
    found := at.Some?;
    if found {
      StrCpy(store, buffer, at.value);
      WholeLine(CStr(store[..], 0), BUFFER);
      RemoveEol(store, 0, BUFFER);
    }
  }

  method GenericStrLoader(file: Option<Text>, key: Text, store: array<Byte>) returns (r: int)
    requires NulFree(key) && store.Length > 0
    requires file.Some? ==> Fitting(Lines(file.value), key, store.Length)
    modifies store
    ensures file.None? ==> r == 1 && store[..] == old(store[..])
    ensures file.Some? ==>
      var values := Values(Lines(file.value), key);
      if values == [] then r == -1 && store[0] == NUL else r == 0 && CStr(store[..], 0) == values[0]
  {
    if file.None? {
      return 1;
    }
    var f := new TextFile(file.value);
    var buffer := new Byte[BUFFER](_ => NUL);
    assert f.text[f.pos..] == f.text;
    while !f.atEnd
      invariant f.Valid() && fresh(f) && fresh(buffer) && f.text == file.value
      invariant Ahead(f.text, f.pos, key) == Values(Lines(f.text), key)
      invariant Fitting(Lines(f.text[f.pos..]), key, store.Length)
      decreases |f.text| - f.pos, if f.atEnd then 0 else 1
    {
      var found := StoreValue(f, buffer, key, store);
      if found {
        return 0;
      }
    }
    assert f.text[f.pos..] == [];
    store[0] := NUL;
    return -1;
  }

  /** A tail is shorter than the buffer its line was read into. */
  lemma {:induction false} TailsFit(f: Text, key: Text)
    ensures Fitting(Lines(f), key, BUFFER)
  {
    if f != [] {
      var line := FirstLine(f, BUFFER - 1);
      TailsFit(f[|line|..], key);
      assert Lines(f)[1..] == Lines(f[|line|..]);
    }
  }

  /** `stored` is the default the caller's variable holds. */
  method GetIntConfig(file: Option<Text>, key: Text, stored: int) returns (r: int, value: int)
    requires NulFree(key)
    ensures r == if file.None? then 1 else if Values(Lines(file.value), key) == [] then -1 else 0
    ensures value == if r == 0 then Atoi(Values(Lines(file.value), key)[0]) else stored
  {
    var configFileValue := new Byte[BUFFER](_ => NUL);
    if file.Some? { TailsFit(file.value, key); }
    r := GenericStrLoader(file, key, configFileValue);
    value := if r == 0 then Atoi(CStr(configFileValue[..], 0)) else stored;
  }

  // ---------------------------------------------------------------- what a printed file gives back

  function Joined(lines: seq<Text>): Text {
    if lines == [] then [] else lines[0] + Joined(lines[1..])
  }

  /** Reading a file in lines loses nothing and adds nothing. */
  lemma {:induction false} LinesCover(f: Text)
    ensures Joined(Lines(f)) == f
  {
    if f != [] {
      LinesCover(f[|FirstLine(f, BUFFER - 1)|..]);
    }
  }

  lemma {:induction false} FirstLineCut(s: Text, rest: Text, room: nat)
    requires LF !in s && |s| >= room
    ensures FirstLine(s + rest, room) == s[..room]
    decreases room
  {
    if room > 0 {
      assert (s + rest)[1..] == s[1..] + rest;
      FirstLineCut(s[1..], rest, room - 1);
      assert s[..room] == [s[0]] + s[1..][..room - 1];
    }
  }

  lemma {:induction false} FirstLineIs(s: Text, rest: Text, room: nat)
    requires LF !in s && |s| < room
    ensures FirstLine(s + [LF] + rest, room) == s + [LF]
  {
    var f := s + [LF] + rest;
    if s != [] {
      assert f[1..] == s[1..] + [LF] + rest;
      FirstLineIs(s[1..], rest, room - 1);
    }
  }

  /** A line is read whole up to 1498 bytes and its line end; what is longer is cut behind byte 1499. */
  lemma LineLength(s: Text, rest: Text)
    requires 10 !in s
    ensures |s| <= 1498 ==> FirstLine(s + [10] + rest, BUFFER - 1) == s + [10]
    ensures |s| >= 1499 ==> FirstLine(s + rest, BUFFER - 1) == s[..1499]
  {
    if |s| <= 1498 {
      FirstLineIs(s, rest, 1499);
    } else {
      FirstLineCut(s, rest, 1499);
    }
  }

  /** A line has a value for a key exactly if its string starts with the key and holds a `=`, though not in front. The
      value is what stands between the first `=` and the next line end. */
  lemma ValueMeaning(line: Text, key: Text)
    ensures var s, v := CStr(line, 0), ValueIn(line, key);
            && (v.Some? <==> key <= s && s != [] && s[0] != 61 && 61 in s)
            && (v.Some? ==>
                  exists at :: 0 < at < |s| && s[at] == 61 && 61 !in s[..at] && v.value <= s[at + 1..]
                               && 10 !in v.value && 13 !in v.value
                               && (at + 1 + |v.value| < |s| ==> s[at + 1 + |v.value|] in {10, 13}))
  {
    var s, v := CStr(line, 0), ValueIn(line, key);
    var at := |UpTo(s, IsEquals)|;
    assert UpTo(s, IsEquals) == s[..at];
    if at < |s| { assert s[at] == 61; } else { assert s[..at] == s; }
    if v.Some? {
      var tail := s[at + 1..];
      assert |v.value| < |tail| ==> tail[|v.value|] == s[at + 1 + |v.value|];
      assert 61 !in s[..at];
    }
  }

  datatype Entry = Entry(key: Text, value: Text)

  predicate LineFree(t: Text) {
    forall b :: b in t ==> b != NUL && !IsEol(b)
  }

  predicate IsLineEnd(eol: Text) {
    eol == [LF] || eol == [CR, LF]
  }

  predicate IsKey(key: Text) {
    key != [] && LineFree(key) && EQUALS !in key
  }

  function PrintEntry(e: Entry, eol: Text): Text {
    e.key + [EQUALS] + e.value + eol
  }

  predicate Fits(e: Entry, eol: Text) {
    IsLineEnd(eol) && IsKey(e.key) && LineFree(e.value) && |PrintEntry(e, eol)| < BUFFER
  }

  function PrintAll(es: seq<Entry>, eol: Text): Text {
    if es == [] then [] else PrintEntry(es[0], eol) + PrintAll(es[1..], eol)
  }

  /** The values of the entries whose key begins with `key`. */
  function Under(es: seq<Entry>, key: Text): seq<Text> {
    if es == [] then []
    else (if key <= es[0].key then [es[0].value] else []) + Under(es[1..], key)
  }

  /** The values of the entries with this very key. */
  function Own(es: seq<Entry>, key: Text): seq<Text> {
    if es == [] then []
    else (if key == es[0].key then [es[0].value] else []) + Own(es[1..], key)
  }

  lemma PrintedByte(e: Entry, eol: Text, i: nat)
    requires Fits(e, eol) && i < |PrintEntry(e, eol)|
    ensures var b := PrintEntry(e, eol)[i];
            && b != NUL
            && (b == LF ==> i == |PrintEntry(e, eol)| - 1)
            && (i < |e.key| ==> b == e.key[i] && b != EQUALS)
            && (i == |e.key| ==> b == EQUALS)
  {
    if i < |e.key| {
      assert e.key[i] in e.key;
    } else if |e.key| < i < |e.key| + 1 + |e.value| {
      assert e.value[i - |e.key| - 1] in e.value;
    }
  }

  lemma PrintedLine(e: Entry, eol: Text, rest: Text)
    requires Fits(e, eol)
    ensures FirstLine(PrintEntry(e, eol) + rest, BUFFER - 1) == PrintEntry(e, eol)
  {
    var line := PrintEntry(e, eol);
    var s := line[..|line| - 1];
    assert line == s + [LF];
    forall i | 0 <= i < |s|
      ensures s[i] != LF
    {
      PrintedByte(e, eol, i);
    }
    FirstLineIs(s, rest, BUFFER - 1);
  }

  lemma {:induction false} WholeString(s: Text, pos: nat)
    requires NulFree(s) && pos <= |s|
    ensures CStr(s, pos) == s[pos..]
    decreases |s| - pos
  {
    if pos < |s| {
      assert s[pos] in s;
      WholeString(s, pos + 1);
    }
  }

  lemma PrefixOfKey(s: Text, name: Text, key: Text)
    requires |name| < |s| && s[..|name|] == name && s[|name|] == EQUALS && EQUALS !in key
    ensures key <= s <==> key <= name
  {
    if |key| > |name| {
      assert key[|name|] in key;
    } else {
      assert s[..|key|] == name[..|key|];
    }
  }

  lemma PrintedName(e: Entry, eol: Text)
    requires Fits(e, eol)
    ensures var s := PrintEntry(e, eol);
            && CStr(s, 0) == s
            && UpTo(s, IsEquals) == e.key == s[..|e.key|]
            && s[|e.key|] == EQUALS
            && s[|e.key| + 1..] == e.value + eol
  {
    var s := PrintEntry(e, eol);
    forall i | 0 <= i < |s|
      ensures s[i] != NUL
    {
      PrintedByte(e, eol, i);
    }
    WholeString(s, 0);
    UpToIs(s, IsEquals, |e.key|);
  }

  lemma PrintedTail(value: Text, eol: Text)
    requires LineFree(value) && IsLineEnd(eol)
    ensures UpTo(value + eol, IsEol) == value
  {
    var tail := value + eol;
    assert tail[..|value|] == value;
    UpToIs(tail, IsEol, |value|);
  }

  /** A printed entry gives its value to every key its own key begins with, and to no other. */
  lemma PrintedValue(e: Entry, eol: Text, key: Text)
    requires Fits(e, eol) && IsKey(key)
    ensures ValueIn(PrintEntry(e, eol), key) == if key <= e.key then Some(e.value) else None
  {
    PrintedName(e, eol);
    PrintedTail(e.value, eol);
    PrefixOfKey(PrintEntry(e, eol), e.key, key);
  }

  predicate AllFit(es: seq<Entry>, eol: Text) {
    forall e :: e in es ==> Fits(e, eol)
  }

  /** Loading a key from a printed file gives the values of the entries whose key begins with it, in order. */
  lemma {:induction false} PrintedValues(es: seq<Entry>, eol: Text, key: Text)
    requires AllFit(es, eol) && IsKey(key)
    ensures Values(Lines(PrintAll(es, eol)), key) == Under(es, key)
  {
    if es != [] {
      var line, rest := PrintEntry(es[0], eol), PrintAll(es[1..], eol);
      PrintedLine(es[0], eol, rest);
      PrintedValue(es[0], eol, key);
      PrintedValues(es[1..], eol, key);
      assert (line + rest)[|line|..] == rest;
      assert Lines(line + rest)[1..] == Lines(rest);
    }
  }

  predicate Shadowed(es: seq<Entry>, key: Text) {
    exists e :: e in es && key < e.key
  }

  lemma {:induction false} OwnAmongUnder(es: seq<Entry>, key: Text)
    ensures |Own(es, key)| <= |Under(es, key)|
    ensures Shadowed(es, key) ==> |Own(es, key)| < |Under(es, key)|
    ensures !Shadowed(es, key) ==> Own(es, key) == Under(es, key)
  {
    if es != [] {
      OwnAmongUnder(es[1..], key);
      assert es == [es[0]] + es[1..];
      if Shadowed(es, key) && !(key < es[0].key) {
        assert Shadowed(es[1..], key);
      }
      if !Shadowed(es, key) {
        assert !(key < es[0].key);
        assert forall e :: e in es[1..] ==> e in es;
      }
    }
  }

  /** A key gets exactly its own values just when no other key of the file begins with it. */
  lemma OwnValuesIff(es: seq<Entry>, eol: Text, key: Text)
    requires AllFit(es, eol) && IsKey(key)
    ensures Values(Lines(PrintAll(es, eol)), key) == Own(es, key) <==> !Shadowed(es, key)
  {
    PrintedValues(es, eol, key);
    OwnAmongUnder(es, key);
  }
}
