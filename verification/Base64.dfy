/**
  * The base64 encoder of src/pthread_win.cpp. Its loop walks the input and the
  * output with two indices, reading zeros past the end, and a second loop writes
  * the padding over the tail. `Encoded` is section 4 of RFC 4648, stated a group at
  * a time; `Decoded` is a strict decoder, and each undoes the other.
  */
module Base64 {
  import opened Settings
  import opened Sequences

  type Octet = bv8

  type Sextet = bv6

  const LARGEST_INPUT: nat := 15 * 1024 * 1024

  const TABLE: string :=
    "ABCDEFGH" + "IJKLMNOP" + "QRSTUVWX" + "YZabcdef" + "ghijklmn" + "opqrstuv" + "wxyz0123" + "456789+/"

  const MOD_TABLE: seq<nat> := [0, 2, 1]

  // ---------------------------------------------------------------- the alphabet

  /** Table 1 of RFC 4648, by ranges. */
  function LetterAt(n: int): char
    requires 0 <= n < 64
  {
    if n < 26 then 'A' + n as char
    else if n < 52 then 'a' + (n - 26) as char
    else if n < 62 then '0' + (n - 52) as char
    else if n == 62 then '+'
    else '/'
  }

  function IndexOf(c: char): int {
    if 'A' <= c <= 'Z' then c as int - 65
    else if 'a' <= c <= 'z' then c as int - 71
    else if '0' <= c <= '9' then c as int + 4
    else if c == '+' then 62
    else if c == '/' then 63
    else -1
  }

  lemma TableIsLetters(n: int)
    requires 0 <= n < 64
    ensures |TABLE| == 64 && TABLE[n] == LetterAt(n)
  {
  }

  function Letter(x: Sextet): char {
    LetterAt(x as int)
  }

  predicate IsLetter(c: char) {
    IndexOf(c) != -1
  }

  function Value(c: char): Sextet
    requires IsLetter(c)
  {
    IndexOf(c) as Sextet
  }

  lemma LetterValue(x: Sextet)
    ensures IsLetter(Letter(x)) && Value(Letter(x)) == x && Letter(x) != '='
  {
    var n := x as int;
    assert IndexOf(LetterAt(n)) == n;
  }

  lemma ValueLetter(c: char)
    requires IsLetter(c)
    ensures Letter(Value(c)) == c
  {
    var n := IndexOf(c);
    assert (n as Sextet) as int == n;
  }

  // ---------------------------------------------------------------- one group

  function First(a: Octet): Sextet { (a >> 2) as Sextet }

  function Second(a: Octet, b: Octet): Sextet { (((a & 0x03) << 4) | (b >> 4)) as Sextet }

  function Third(b: Octet, c: Octet): Sextet { (((b & 0x0F) << 2) | (c >> 6)) as Sextet }

  function Fourth(c: Octet): Sextet { (c & 0x3F) as Sextet }

  function OctetA(w: Sextet, x: Sextet): Octet { ((w as Octet) << 2) | ((x as Octet) >> 4) }

  function OctetB(x: Sextet, y: Sextet): Octet { ((x as Octet) << 4) | ((y as Octet) >> 2) }

  function OctetC(y: Sextet, z: Sextet): Octet { ((y as Octet) << 6) | (z as Octet) }

  function Triple(a: Octet, b: Octet, c: Octet): bv32 {
    ((a as bv32) << 16) + ((b as bv32) << 8) + (c as bv32)
  }

  /** The four shifts of the 24-bit group cut it into the four sextets, most significant first. */
  lemma TripleSextets(a: Octet, b: Octet, c: Octet)
    ensures (Triple(a, b, c) >> 18) & 0x3F == First(a) as bv32
    ensures (Triple(a, b, c) >> 12) & 0x3F == Second(a, b) as bv32
    ensures (Triple(a, b, c) >> 6) & 0x3F == Third(b, c) as bv32
    ensures Triple(a, b, c) & 0x3F == Fourth(c) as bv32
  {
  }

  lemma OctetsBack(a: Octet, b: Octet, c: Octet)
    ensures OctetA(First(a), Second(a, b)) == a
    ensures OctetB(Second(a, b), Third(b, c)) == b
    ensures OctetC(Third(b, c), Fourth(c)) == c
    ensures Second(a, 0) & 0x0F == 0 && Third(b, 0) & 0x03 == 0
  {
  }

  lemma SextetsBack(w: Sextet, x: Sextet, y: Sextet, z: Sextet)
    ensures First(OctetA(w, x)) == w
    ensures Second(OctetA(w, x), OctetB(x, y)) == x
    ensures Third(OctetB(x, y), OctetC(y, z)) == y
    ensures Fourth(OctetC(y, z)) == z
    ensures x & 0x0F == 0 ==> Second(OctetA(w, x), 0) == x
    ensures y & 0x03 == 0 ==> Third(OctetB(x, y), 0) == y
  {
  }

  function At(s: seq<Octet>, k: nat): Octet {
    if k < |s| then s[k] else 0
  }

  /** The four letters the first loop writes for a group, zeros standing for missing octets. */
  function UnpaddedGroup(g: seq<Octet>): (r: string)
    ensures |r| == 4
  {
    var a, b, c := At(g, 0), At(g, 1), At(g, 2);
    [Letter(First(a)), Letter(Second(a, b)), Letter(Third(b, c)), Letter(Fourth(c))]
  }

  /** A quantum of one, two or three octets; only the last of a text is short. */
  function EncodedGroup(g: seq<Octet>): (r: string)
    ensures |r| == 4
  {
    if |g| == 1 then [Letter(First(g[0])), Letter(Second(g[0], 0)), '=', '=']
    else if |g| == 2 then [Letter(First(g[0])), Letter(Second(g[0], g[1])), Letter(Third(g[1], 0)), '=']
    else UnpaddedGroup(g)
  }

  predicate IsGroup(g: seq<Octet>) {
    1 <= |g| <= 3
  }

  function DecodedGroup(u: string): (r: Option<seq<Octet>>)
    ensures r.Some? ==> |u| == 4 && IsGroup(r.value)
  {
    if |u| != 4 || !IsLetter(u[0]) || !IsLetter(u[1]) then None
    else
      var w, x := Value(u[0]), Value(u[1]);
      if u[2] == '=' && u[3] == '=' then
        if x & 0x0F == 0 then Some([OctetA(w, x)]) else None
      else if !IsLetter(u[2]) then None
      else
        var y := Value(u[2]);
        if u[3] == '=' then
          if y & 0x03 == 0 then Some([OctetA(w, x), OctetB(x, y)]) else None
        else if !IsLetter(u[3]) then None
        else Some([OctetA(w, x), OctetB(x, y), OctetC(y, Value(u[3]))])
  }

  lemma GroupDecodesBack(g: seq<Octet>)
    requires IsGroup(g)
    ensures DecodedGroup(EncodedGroup(g)) == Some(g)
  {
    var a, b, c := At(g, 0), At(g, 1), At(g, 2);
    LetterValue(First(a));
    LetterValue(Second(a, b));
    LetterValue(Third(b, c));
    LetterValue(Fourth(c));
    OctetsBack(a, b, c);
    assert g == if |g| == 1 then [a] else if |g| == 2 then [a, b] else [a, b, c];
  }

  lemma OnlyQuadDecodes(u: string, g: seq<Octet>)
    requires |u| == 4 && forall k :: 0 <= k < 4 ==> IsLetter(u[k])
    requires g == [OctetA(Value(u[0]), Value(u[1])), OctetB(Value(u[1]), Value(u[2])), OctetC(Value(u[2]), Value(u[3]))]
    ensures u == EncodedGroup(g)
  {
    SextetsBack(Value(u[0]), Value(u[1]), Value(u[2]), Value(u[3]));
    ValueLetter(u[0]);
    ValueLetter(u[1]);
    ValueLetter(u[2]);
    ValueLetter(u[3]);
  }

  lemma OnlyTripletDecodes(u: string, g: seq<Octet>)
    requires |u| == 4 && IsLetter(u[0]) && IsLetter(u[1]) && IsLetter(u[2]) && u[3] == '=' && Value(u[2]) & 0x03 == 0
    requires g == [OctetA(Value(u[0]), Value(u[1])), OctetB(Value(u[1]), Value(u[2]))]
    ensures u == EncodedGroup(g)
  {
    SextetsBack(Value(u[0]), Value(u[1]), Value(u[2]), 0);
    ValueLetter(u[0]);
    ValueLetter(u[1]);
    ValueLetter(u[2]);
  }

  lemma OnlyPairDecodes(u: string, g: seq<Octet>)
    requires |u| == 4 && IsLetter(u[0]) && IsLetter(u[1]) && u[2] == '=' && u[3] == '=' && Value(u[1]) & 0x0F == 0
    requires g == [OctetA(Value(u[0]), Value(u[1]))]
    ensures u == EncodedGroup(g)
  {
    SextetsBack(Value(u[0]), Value(u[1]), 0, 0);
    ValueLetter(u[0]);
    ValueLetter(u[1]);
  }

  lemma OnlyGroupDecodes(u: string, g: seq<Octet>)
    requires DecodedGroup(u) == Some(g)
    ensures u == EncodedGroup(g)
  {
    if u[3] != '=' {
      OnlyQuadDecodes(u, g);
    } else if u[2] != '=' {
      OnlyTripletDecodes(u, g);
    } else {
      OnlyPairDecodes(u, g);
    }
  }

  /** The padding written over a full quad gives the padded quad, and only padding is `=`. */
  lemma GroupPadding(g: seq<Octet>)
    requires IsGroup(g)
    ensures forall k :: 0 <= k < 4 ==> UnpaddedGroup(g)[k] != '='
    ensures forall k :: 0 <= k < 4 ==> EncodedGroup(g)[k] == if k <= |g| then UnpaddedGroup(g)[k] else '='
  {
    var a, b, c := At(g, 0), At(g, 1), At(g, 2);
    LetterValue(First(a));
    LetterValue(Second(a, b));
    LetterValue(Third(b, c));
    LetterValue(Fourth(c));
  }

  // ---------------------------------------------------------------- group by group

  function Chunked(f: seq<Octet> -> string, s: seq<Octet>): string {
    if |s| == 0 then ""
    else if |s| <= 3 then f(s)
    else f(s[..3]) + Chunked(f, s[3..])
  }

  function Unchunked(d: string -> Option<seq<Octet>>, t: string): Option<seq<Octet>> {
    if |t| == 0 then Some([])
    else if |t| <= 4 then d(t)
    else
      var group, rest := d(t[..4]), Unchunked(d, t[4..]);
      if group.Some? && |group.value| == 3 && rest.Some? then Some(group.value + rest.value) else None
  }

  lemma {:induction false} ChunkedLength(f: seq<Octet> -> string, s: seq<Octet>)
    requires forall g :: IsGroup(g) ==> |f(g)| == 4
    ensures |Chunked(f, s)| == 4 * ((|s| + 2) / 3)
  {
    if |s| > 3 {
      ChunkedLength(f, s[3..]);
    }
  }

  lemma {:induction false} ChunkedDistributes(f: seq<Octet> -> string, s: seq<Octet>, t: seq<Octet>)
    requires |s| % 3 == 0
    ensures Chunked(f, s + t) == Chunked(f, s) + Chunked(f, t)
  {
    if |s| == 0 {
      assert s + t == t;
    } else if |t| == 0 {
      assert s + t == s;
    } else {
      ChunkedDistributes(f, s[3..], t);
      assert (s + t)[3..] == s[3..] + t && (s + t)[..3] == s[..3];
      assert |s| == 3 ==> s[..3] == s;
    }
  }

  lemma {:induction false} UnchunkedBack(f: seq<Octet> -> string, d: string -> Option<seq<Octet>>, s: seq<Octet>)
    requires forall g :: IsGroup(g) ==> |f(g)| == 4 && d(f(g)) == Some(g)
    ensures Unchunked(d, Chunked(f, s)) == Some(s)
  {
    if |s| > 3 {
      var head, tail := f(s[..3]), Chunked(f, s[3..]);
      UnchunkedBack(f, d, s[3..]);
      ChunkedLength(f, s[3..]);
      assert (head + tail)[..4] == head && (head + tail)[4..] == tail;
      assert s[..3] + s[3..] == s;
    }
  }

  lemma {:induction false} OnlyChunkedUnchunks(
    f: seq<Octet> -> string, d: string -> Option<seq<Octet>>, t: string, s: seq<Octet>)
    requires forall u :: d(u).Some? ==> |u| == 4 && IsGroup(d(u).value) && f(d(u).value) == u
    requires Unchunked(d, t) == Some(s)
    ensures t == Chunked(f, s)
  {
    if |t| > 4 {
      var group, rest := d(t[..4]).value, Unchunked(d, t[4..]).value;
      OnlyChunkedUnchunks(f, d, t[4..], rest);
      assert s[..3] == group && s[3..] == rest;
      assert t == t[..4] + t[4..];
    }
  }

  function Padding(n: nat): nat {
    if n % 3 == 0 then 0 else 3 - n % 3
  }

  predicate Overwritten(t: string, u: string, p: nat) {
    |t| == |u| && forall k :: 0 <= k < |t| ==> u[k] != '=' && t[k] == if k < |t| - p then u[k] else '='
  }

  lemma OverwrittenJoin(t: string, u: string, t': string, u': string, p: nat)
    requires Overwritten(t, u, 0) && Overwritten(t', u', p) && p <= |t'|
    ensures Overwritten(t + t', u + u', p)
  {
  }

  lemma SamePadding(n: nat, m: nat)
    requires n == m + 3
    ensures Padding(n) == Padding(m)
  {
  }

  lemma {:induction false} ChunkedOverwritten(e: seq<Octet> -> string, f: seq<Octet> -> string, s: seq<Octet>)
    requires forall g :: IsGroup(g) ==> |e(g)| == 4 && Overwritten(e(g), f(g), 3 - |g|)
    ensures Overwritten(Chunked(e, s), Chunked(f, s), Padding(|s|))
  {
    if |s| > 3 {
      var group, rest := s[..3], s[3..];
      assert IsGroup(group) && Overwritten(e(group), f(group), 0);
      ChunkedLength(e, rest);
      ChunkedOverwritten(e, f, rest);
      SamePadding(|s|, |rest|);
      OverwrittenJoin(e(group), f(group), Chunked(e, rest), Chunked(f, rest), Padding(|rest|));
    } else if |s| > 0 {
      assert IsGroup(s);
    }
  }

  // ---------------------------------------------------------------- the encoding

  function Encoded(s: seq<Octet>): string {
    Chunked(EncodedGroup, s)
  }

  function Decoded(t: string): Option<seq<Octet>> {
    Unchunked(DecodedGroup, t)
  }

  /** A text decodes to `s` exactly when it is the encoding of `s`. */
  lemma RoundTrip(t: string, s: seq<Octet>)
    ensures Decoded(t) == Some(s) <==> t == Encoded(s)
  {
    forall g | IsGroup(g)
      ensures |EncodedGroup(g)| == 4 && DecodedGroup(EncodedGroup(g)) == Some(g)
    {
      GroupDecodesBack(g);
    }
    UnchunkedBack(EncodedGroup, DecodedGroup, s);
    if Decoded(t) == Some(s) {
      forall u | DecodedGroup(u).Some?
        ensures EncodedGroup(DecodedGroup(u).value) == u
      {
        OnlyGroupDecodes(u, DecodedGroup(u).value);
      }
      OnlyChunkedUnchunks(EncodedGroup, DecodedGroup, t, s);
    }
  }

  lemma Distributes(s: seq<Octet>, t: seq<Octet>)
    requires |s| % 3 == 0
    ensures Encoded(s + t) == Encoded(s) + Encoded(t)
  {
    ChunkedDistributes(EncodedGroup, s, t);
  }

  /** What the first loop writes. */
  function Unpadded(s: seq<Octet>): string {
    Chunked(UnpaddedGroup, s)
  }

  /** Four characters a group, and `=` exactly in the last places, one for each octet the last group lacks. */
  lemma PaddingCompletes(s: seq<Octet>)
    ensures |Encoded(s)| == 4 * ((|s| + 2) / 3)
    ensures Overwritten(Encoded(s), Unpadded(s), Padding(|s|))
  {
    forall g | IsGroup(g)
      ensures Overwritten(EncodedGroup(g), UnpaddedGroup(g), 3 - |g|)
    {
      GroupPadding(g);
    }
    ChunkedLength(EncodedGroup, s);
    ChunkedOverwritten(EncodedGroup, UnpaddedGroup, s);
  }

  lemma UnpaddedStep(data: seq<Octet>, i: nat, next: nat)
    requires i < |data| && next == if i + 3 <= |data| then i + 3 else |data|
    ensures Unpadded(data[i..]) ==
      UnpaddedGroup([At(data, i), At(data, i + 1), At(data, i + 2)]) + Unpadded(data[next..])
  {
    var s := data[i..];
    if |s| <= 3 {
      assert data[i..next] == s;
      assert UnpaddedGroup(s) + "" == UnpaddedGroup(s);
    } else {
      assert s[..3] == data[i..next] && s[3..] == data[next..];
    }
  }

  // ---------------------------------------------------------------- the two loops

  method NextOctet(data: seq<Octet>, i: nat) returns (octet: Octet, next: nat)
    requires i <= |data|
    ensures octet == At(data, i)
    ensures next == if i < |data| then i + 1 else i
  {
    if i < |data| {
      return data[i], i + 1;
    }
    return 0, i;
  }

  /** The table look-up of the six bits `shift` places up. */
  method Look(triple: bv32, shift: bv6) returns (letter: char)
    requires shift <= 18
    ensures letter == Letter(((triple >> shift) & 0x3F) as Sextet)
  {
    var k := ((triple >> shift) & 0x3F) as Sextet;
    TableIsLetters(k as int);
    letter := TABLE[k as int];
  }

  method PutGroup(encoded: array<char>, j: nat, a: Octet, b: Octet, c: Octet)
    requires j + 4 <= encoded.Length
    modifies encoded
    ensures encoded[..j + 4] == old(encoded[..j]) + UnpaddedGroup([a, b, c])
  {
    var triple := Triple(a, b, c);
    TripleSextets(a, b, c);
    encoded[j] := Look(triple, 18);
    encoded[j + 1] := Look(triple, 12);
    encoded[j + 2] := Look(triple, 6);
    encoded[j + 3] := Look(triple, 0);
  }

  method WriteGroups(data: seq<Octet>, encoded: array<char>, length: nat)
    requires length == |Unpadded(data)| < encoded.Length
    modifies encoded
    ensures encoded[..length] == Unpadded(data)
  {
    var i, j := 0, 0;
    assert encoded[..j] + Unpadded(data[i..]) == Unpadded(data);
    while i < |data|
      invariant i <= |data| && j <= length
      invariant encoded[..j] + Unpadded(data[i..]) == Unpadded(data)
    {
      var a, b, c, next: nat;
      a, next := NextOctet(data, i);
      b, next := NextOctet(data, next);
      c, next := NextOctet(data, next);
      UnpaddedStep(data, i, next);
      Regroup(encoded[..j], UnpaddedGroup([a, b, c]), Unpadded(data[next..]));
      PutGroup(encoded, j, a, b, c);
      i, j := next, j + 4;
    }
    assert encoded[..length] + "" == encoded[..length];
  }

  /** `memory` says whether the allocation succeeds. */
  method Base64Encode(data: seq<Octet>, memory: bool) returns (encoded: array?<char>, length: nat)
    ensures encoded == null <==> |data| > 15_728_640 || !memory
    ensures length == if |data| > 15_728_640 then 0 else |Encoded(data)|
    ensures encoded != null ==>
      fresh(encoded) && encoded.Length == length + 1 && encoded[..length] == Encoded(data) && encoded[length] == '\0'
  {
    if |data| > LARGEST_INPUT {
      return null, 0;
    }
    length := 4 * ((|data| + 2) / 3);
    PaddingCompletes(data);
    if !memory {
      return null, length;
    }
    encoded := new char[length + 1];
    WriteGroups(data, encoded, length);
    var i := 0;
    while i < MOD_TABLE[|data| % 3]
      invariant 0 <= i <= Padding(|data|)
      invariant forall k :: 0 <= k < length ==> encoded[k] == if k < length - i then Unpadded(data)[k] else '='
    {
      encoded[length - 1 - i] := '=';
      i := i + 1;
    }
    encoded[length] := '\0';
    assert encoded[..length] == Encoded(data);
  }
}
