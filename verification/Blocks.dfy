/** A file cut into numbered blocks, counted from 1, as both ends of a transfer see it. */
module Blocks {
  import opened Wire
  import opened Sequences

  function Min(a: int, b: int): int {
    if a < b then a else b
  }

  /** What `fread` of `n` bytes at offset `pos` returns. */
  function Slice(c: seq<Byte>, pos: nat, n: nat): (s: seq<Byte>)
    ensures |s| <= n
    ensures |s| < n ==> pos + |s| >= |c|
  {
    if pos >= |c| then [] else c[pos..Min(pos + n, |c|)]
  }

  /** What `fwrite` of `data` at offset `pos` leaves in the file: a gap before `pos` reads as zeros. */
  function WriteAt(c: seq<Byte>, pos: nat, data: seq<Byte>): (r: seq<Byte>)
    requires data != []
    ensures |r| == if pos + |data| > |c| then pos + |data| else |c|
    ensures forall i :: 0 <= i < |r| ==>
              r[i] == if pos <= i < pos + |data| then data[i - pos] else if i < |c| then c[i] else 0
  {
    var zeros: seq<Byte> := seq(if pos > |c| then pos - |c| else 0, _ => 0);
    var padded := c + zeros;
    padded[..pos] + data + (if pos + |data| < |c| then c[pos + |data|..] else [])
  }

  /** Offset of block `n`: the blocks before it, added up. */
  function Offset(blockSize: nat, n: nat): nat
    requires n >= 1
  {
    if n == 1 then 0 else Offset(blockSize, n - 1) + blockSize
  }

  lemma {:induction false} OffsetIsProduct(blockSize: nat, n: nat)
    requires n >= 1
    ensures Offset(blockSize, n) == (n - 1) * blockSize
  {
    if n > 1 {
      OffsetIsProduct(blockSize, n - 1);
      assert (n - 1) * blockSize == (n - 2) * blockSize + blockSize;
    }
  }

  /** The product the server computes to seek block `n` fits an `int`. */
  predicate SeekFits(blockSize: nat, n: int) {
    (n - 1) * blockSize < 0x8000_0000
  }

  lemma {:induction false} OffsetGrows(blockSize: nat, m: nat, n: nat)
    requires 1 <= m <= n
    ensures Offset(blockSize, m) <= Offset(blockSize, n)
    decreases n - m
  {
    if m < n { OffsetGrows(blockSize, m, n - 1); }
  }

  function Block(c: seq<Byte>, blockSize: nat, n: nat): seq<Byte>
    requires n >= 1
  {
    Slice(c, Offset(blockSize, n), blockSize)
  }

  /** Number of blocks of a transfer: the last one is always short, possibly empty (RFC 1350, section 6). */
  function BlockCount(length: nat, blockSize: nat): (n: nat)
    requires blockSize > 0
    ensures n >= 1
  {
    length / blockSize + 1
  }

  /** The bytes of blocks 1..n. */
  function UpTo(c: seq<Byte>, blockSize: nat, n: nat): seq<Byte> {
    c[..Min(Offset(blockSize, n + 1), |c|)]
  }

  function Concat(parts: seq<seq<Byte>>): seq<Byte> {
    if parts == [] then [] else Concat(parts[..|parts| - 1]) + parts[|parts| - 1]
  }

  /** The payloads read by at most `w` successive reads that stop after the first short one. */
  function Window(c: seq<Byte>, pos: nat, blockSize: nat, w: nat): seq<seq<Byte>>
    decreases w
  {
    if w == 0 then []
    else
      var p := Slice(c, pos, blockSize);
      if |p| < blockSize then [p] else [p] + Window(c, pos + blockSize, blockSize, w - 1)
  }

  /** `ps` are the blocks from `first` on. */
  ghost predicate AreBlocks(c: seq<Byte>, blockSize: nat, first: int, ps: seq<seq<Byte>>) {
    first >= 1 && forall i :: 0 <= i < |ps| ==> ps[i] == Block(c, blockSize, first + i)
  }

  lemma MulMono(a: int, b: int, k: int)
    requires a <= b && k >= 0
    ensures a * k <= b * k
  {
  }

  lemma Spread(a: int, b: int, k: int)
    ensures (a + b) * k == a * k + b * k
  {
  }

  lemma MulStrict(a: nat, b: nat, k: nat)
    requires a * k < b * k
    ensures a < b
  {
    if a >= b { MulMono(b, a, k); }
  }

  /** `n` is at most the block count exactly when block `n` starts within the file, or at its end. */
  lemma CountIff(length: nat, blockSize: nat, n: nat)
    requires blockSize > 0 && n >= 1
    ensures n <= BlockCount(length, blockSize) <==> Offset(blockSize, n) <= length
  {
    var q := length / blockSize;
    assert q * blockSize <= length < (q + 1) * blockSize;
    OffsetIsProduct(blockSize, n);
    if n - 1 <= q {
      MulMono(n - 1, q, blockSize);
    } else {
      MulMono(q + 1, n - 1, blockSize);
    }
  }

  /** Blocks before the last are full; the last one is short. */
  lemma BlockLengths(c: seq<Byte>, blockSize: nat, n: nat)
    requires blockSize > 0 && 1 <= n <= BlockCount(|c|, blockSize)
    ensures Offset(blockSize, n) <= |c|
    ensures n < BlockCount(|c|, blockSize) ==> |Block(c, blockSize, n)| == blockSize
    ensures n == BlockCount(|c|, blockSize) ==> |Block(c, blockSize, n)| < blockSize
    ensures |Block(c, blockSize, n)| == Min(Offset(blockSize, n + 1), |c|) - Offset(blockSize, n)
  {
    CountIff(|c|, blockSize, n);
    CountIff(|c|, blockSize, n + 1);
  }

  lemma BlockIs(c: seq<Byte>, blockSize: nat, n: nat, next: nat)
    requires blockSize > 0 && 1 <= n <= BlockCount(|c|, blockSize) && next == n + 1
    ensures var at, to := Offset(blockSize, n), Min(Offset(blockSize, next), |c|);
            at <= to && Block(c, blockSize, n) == c[at..to]
  {
    CountIff(|c|, blockSize, n);
    assert Offset(blockSize, next) == Offset(blockSize, n) + blockSize;
  }

  lemma UpToNext(c: seq<Byte>, blockSize: nat, n: nat)
    requires blockSize > 0 && n < BlockCount(|c|, blockSize)
    ensures UpTo(c, blockSize, n) + Block(c, blockSize, n + 1) == UpTo(c, blockSize, n + 1)
    ensures |UpTo(c, blockSize, n)| == Offset(blockSize, n + 1)
  {
    var first, next := n + 1, n + 2;
    CountIff(|c|, blockSize, first);
    BlockIs(c, blockSize, first, next);
    TakeMore(c, Offset(blockSize, first), Min(Offset(blockSize, next), |c|));
  }

  lemma UpToAll(c: seq<Byte>, blockSize: nat, n: nat)
    requires blockSize > 0 && n >= BlockCount(|c|, blockSize)
    ensures UpTo(c, blockSize, n) == c
  {
    CountIff(|c|, blockSize, n + 1);
  }

  lemma PrependBlock(c: seq<Byte>, blockSize: nat, first: nat, next: nat, p: seq<Byte>, rest: seq<seq<Byte>>)
    requires 1 <= first && next == first + 1
    requires p == Block(c, blockSize, first) && AreBlocks(c, blockSize, next, rest)
    ensures AreBlocks(c, blockSize, first, [p] + rest)
  {
    forall i | 0 <= i < |[p] + rest|
      ensures ([p] + rest)[i] == Block(c, blockSize, first + i)
    {
      if i > 0 {
        var j := i - 1;
        assert rest[j] == Block(c, blockSize, next + j);
      }
    }
  }

  lemma WindowOpens(c: seq<Byte>, pos: nat, next: nat, blockSize: nat, w: nat, w1: nat)
    requires w == w1 + 1 && next == pos + blockSize
    ensures var p := Slice(c, pos, blockSize);
            Window(c, pos, blockSize, w) == if |p| < blockSize then [p] else [p] + Window(c, next, blockSize, w1)
  {
  }

  /** A window opened at block `first` is blocks first, first+1, ..., up to `w` of them or through the last. */
  lemma {:induction false} WindowIsBlocks(c: seq<Byte>, blockSize: nat, first: nat, w: nat)
    requires blockSize > 0 && 1 <= first <= BlockCount(|c|, blockSize)
    ensures var ps := Window(c, Offset(blockSize, first), blockSize, w);
            && |ps| == Min(w, BlockCount(|c|, blockSize) - first + 1)
            && AreBlocks(c, blockSize, first, ps)
    decreases w
  {
    if w > 0 {
      var next, w1 := first + 1, w - 1;
      var p, pos, after := Block(c, blockSize, first), Offset(blockSize, first), Offset(blockSize, next);
      BlockLengths(c, blockSize, first);
      WindowOpens(c, pos, after, blockSize, w, w1);
      if |p| == blockSize {
        WindowIsBlocks(c, blockSize, next, w1);
        PrependBlock(c, blockSize, first, next, p, Window(c, after, blockSize, w1));
      }
    }
  }

  /** The first `n` blocks, concatenated, are the bytes below the end of block `n`. */
  lemma {:induction false} ConcatBlocks(c: seq<Byte>, blockSize: nat, parts: seq<seq<Byte>>)
    requires blockSize > 0 && |parts| <= BlockCount(|c|, blockSize)
    requires AreBlocks(c, blockSize, 1, parts)
    ensures Concat(parts) == UpTo(c, blockSize, |parts|)
  {
    if parts != [] {
      var n := |parts| - 1;
      ConcatBlocks(c, blockSize, parts[..n]);
      UpToNext(c, blockSize, n);
    }
  }

  /** Sending everything in one window gives the file back: multiples of the block size and the
      empty file included. */
  lemma Reassembly(c: seq<Byte>, blockSize: nat, w: nat)
    requires blockSize > 0 && w >= BlockCount(|c|, blockSize)
    ensures var ps := Window(c, 0, blockSize, w);
            && |ps| == BlockCount(|c|, blockSize)
            && Concat(ps) == c
            && |ps[|ps| - 1]| < blockSize
            && (forall i :: 0 <= i < |ps| - 1 ==> |ps[i]| == blockSize)
  {
    CountIff(|c|, blockSize, 1);
    WindowIsBlocks(c, blockSize, 1, w);
    var ps := Window(c, Offset(blockSize, 1), blockSize, w);
    ConcatBlocks(c, blockSize, ps);
    UpToAll(c, blockSize, |ps|);
    forall i | 0 <= i < |ps|
      ensures i < |ps| - 1 ==> |ps[i]| == blockSize
      ensures i == |ps| - 1 ==> |ps[i]| < blockSize
    {
      BlockLengths(c, blockSize, i + 1);
    }
  }
}
