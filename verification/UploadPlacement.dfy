/** Uploads with any window: where each stored block ends up, and when a transfer that is done is complete. */
module UploadPlacement {
  import opened Wire
  import opened Blocks
  import opened Protocol
  import opened UploadLaws
  import opened Network
  import opened UploadSystem
  import opened UploadLockStep
  import opened UploadLedger

  // ---- the layout a set of blocks determines

  predicate InBlock(blockSize: nat, n: nat, i: nat) {
    n >= 1 && Offset(blockSize, n) <= i < Offset(blockSize, n + 1)
  }

  /** Offset `i` belongs to one of the blocks. */
  ghost predicate Covered(blockSize: nat, blocks: set<nat>, i: nat) {
    exists n :: n in blocks && InBlock(blockSize, n, i)
  }

  /** Where block `n` ends in the file, if it is not empty. */
  predicate EndsAt(f: seq<Byte>, blockSize: nat, n: nat, length: nat) {
    n >= 1 && Block(f, blockSize, n) != [] && length == Offset(blockSize, n) + |Block(f, blockSize, n)|
  }

  /** Stored blocks stand at their offsets, every other position is a zero hole, and the file ends where
      the highest stored block does. */
  ghost predicate IsLayout(content: seq<Byte>, f: seq<Byte>, blockSize: nat, blocks: set<nat>) {
    && |content| <= |f|
    && (forall i :: 0 <= i < |content| ==> content[i] == if Covered(blockSize, blocks, i) then f[i] else 0)
    && (forall n, length: nat :: n in blocks && EndsAt(f, blockSize, n, length) ==> length <= |content|)
    && (content == [] || exists n :: n in blocks && EndsAt(f, blockSize, n, |content|))
  }

  /** The stored blocks determine the file: so storing a block again changes nothing. */
  lemma LayoutUnique(a: seq<Byte>, b: seq<Byte>, f: seq<Byte>, blockSize: nat, blocks: set<nat>)
    requires IsLayout(a, f, blockSize, blocks) && IsLayout(b, f, blockSize, blocks)
    ensures a == b
  {
    assert |a| == |b|;
  }

  /** A position within the file belongs to a block exactly if it lies in that block's bytes. */
  lemma InBlockEnds(f: seq<Byte>, blockSize: nat, n: nat, i: nat)
    requires blockSize > 0 && n >= 1 && i < |f|
    ensures InBlock(blockSize, n, i) <==>
            Block(f, blockSize, n) != [] && Offset(blockSize, n) <= i < Offset(blockSize, n) + |Block(f, blockSize, n)|
  {
    CountIff(|f|, blockSize, n);
    if n <= BlockCount(|f|, blockSize) { BlockLengths(f, blockSize, n); }
  }

  lemma PlaceByte(f: seq<Byte>, blockSize: nat, blocks: set<nat>, n: nat, content: seq<Byte>, i: nat)
    requires blockSize > 0 && n >= 1 && i < |f| && IsLayout(content, f, blockSize, blocks)
    requires forall m :: m in blocks ==> m >= 1
    ensures Covered(blockSize, blocks + {n}, i) <==> Covered(blockSize, blocks, i) || InBlock(blockSize, n, i)
    ensures i >= |content| ==> !Covered(blockSize, blocks, i)
  {
    if Covered(blockSize, blocks, i) {
      var m :| m in blocks && InBlock(blockSize, m, i);
      assert m in blocks + {n};
      InBlockEnds(f, blockSize, m, i);
      assert EndsAt(f, blockSize, m, Offset(blockSize, m) + |Block(f, blockSize, m)|);
    }
    if InBlock(blockSize, n, i) { assert n in blocks + {n}; }
  }

  /** One byte after block `n` was written: of the block, as before, or a hole. */
  lemma PlacedByte(content: seq<Byte>, f: seq<Byte>, blockSize: nat, n: nat, i: nat, b: Byte, was: bool, now: bool)
    requires blockSize > 0 && 1 <= n <= BlockCount(|f|, blockSize) && i < |f|
    requires var at, data := Offset(blockSize, n), Block(f, blockSize, n);
             && data != []
             && b == if at <= i < at + |data| then data[i - at] else if i < |content| then content[i] else 0
    requires now <==> was || InBlock(blockSize, n, i)
    requires if i < |content| then content[i] == (if was then f[i] else 0) else !was
    ensures b == if now then f[i] else 0
  {
    BlockIs(f, blockSize, n, n + 1);
    InBlockEnds(f, blockSize, n, i);
  }

  lemma PlacedEnd(content: seq<Byte>, f: seq<Byte>, blockSize: nat, blocks: set<nat>, n: nat, length: nat)
    requires IsLayout(content, f, blockSize, blocks) && n >= 1 && Block(f, blockSize, n) != []
    requires length == var e := Offset(blockSize, n) + |Block(f, blockSize, n)|; if e > |content| then e else |content|
    ensures forall m, e: nat :: m in blocks + {n} && EndsAt(f, blockSize, m, e) ==> e <= length
    ensures exists m :: m in blocks + {n} && EndsAt(f, blockSize, m, length)
  {
    var e := Offset(blockSize, n) + |Block(f, blockSize, n)|;
    assert EndsAt(f, blockSize, n, e) && n in blocks + {n};
    if length != e {
      var m :| m in blocks && EndsAt(f, blockSize, m, |content|);
      assert m in blocks + {n};
    }
  }

  /** Writing block `n` at its offset extends the layout by block `n`. */
  lemma PlaceBlock(content: seq<Byte>, f: seq<Byte>, blockSize: nat, blocks: set<nat>, n: nat, r: seq<Byte>)
    requires blockSize > 0 && 1 <= n <= BlockCount(|f|, blockSize) && IsLayout(content, f, blockSize, blocks)
    requires forall m :: m in blocks ==> m >= 1
    requires Block(f, blockSize, n) != []
    requires r == WriteAt(content, Offset(blockSize, n), Block(f, blockSize, n))
    ensures IsLayout(r, f, blockSize, blocks + {n})
  {
    BlockLengths(f, blockSize, n);
    PlacedEnd(content, f, blockSize, blocks, n, |r|);
    forall i | 0 <= i < |r|
      ensures r[i] == if Covered(blockSize, blocks + {n}, i) then f[i] else 0
    {
      PlaceByte(f, blockSize, blocks, n, content, i);
      PlacedByte(content, f, blockSize, n, i, r[i], Covered(blockSize, blocks, i), Covered(blockSize, blocks + {n}, i));
    }
  }

  /** An empty last block adds nothing. */
  lemma PlaceNothing(content: seq<Byte>, f: seq<Byte>, blockSize: nat, blocks: set<nat>, n: nat)
    requires blockSize > 0 && 1 <= n <= BlockCount(|f|, blockSize) && IsLayout(content, f, blockSize, blocks)
    requires forall m :: m in blocks ==> m >= 1
    requires Block(f, blockSize, n) == []
    ensures IsLayout(content, f, blockSize, blocks + {n})
  {
    forall i | 0 <= i < |content|
      ensures content[i] == if Covered(blockSize, blocks + {n}, i) then f[i] else 0
    {
      PlaceByte(f, blockSize, blocks, n, content, i);
      InBlockEnds(f, blockSize, n, i);
    }
    if content != [] {
      var m :| m in blocks && EndsAt(f, blockSize, m, |content|);
      assert m in blocks + {n};
    }
  }

  ghost predicate AllStored(c: Setup, blocks: set<nat>) {
    forall n :: 1 <= n <= c.Last() ==> n in blocks
  }

  lemma PositionInBlock(blockSize: nat, i: nat) returns (n: nat)
    requires blockSize > 0
    ensures n == i / blockSize + 1 && InBlock(blockSize, n, i)
  {
    n := i / blockSize + 1;
    OffsetIsProduct(blockSize, n);
    OffsetIsProduct(blockSize, n + 1);
  }

  lemma StoredByte(c: Setup, content: seq<Byte>, blocks: set<nat>, i: nat)
    requires c.Ok() && IsLayout(content, c.file, c.blockSize, blocks) && AllStored(c, blocks) && i < |c.file|
    ensures i < |content| && content[i] == c.file[i]
  {
    var n := PositionInBlock(c.blockSize, i);
    CountIff(|c.file|, c.blockSize, n);
    InBlockEnds(c.file, c.blockSize, n, i);
    assert EndsAt(c.file, c.blockSize, n, Offset(c.blockSize, n) + |Block(c.file, c.blockSize, n)|);
    assert Covered(c.blockSize, blocks, i);
  }

  /** All blocks stored: the file is the client's. */
  lemma CompleteLayout(c: Setup, content: seq<Byte>, blocks: set<nat>)
    requires c.Ok() && IsLayout(content, c.file, c.blockSize, blocks) && AllStored(c, blocks)
    ensures content == c.file
  {
    if c.file != [] { StoredByte(c, content, blocks, |c.file| - 1); }
    forall i | 0 <= i < |content| ensures content[i] == c.file[i] {
      StoredByte(c, content, blocks, i);
    }
  }

  // ---- the invariant

  /** No block can be stored under another's number, and none that is too far to seek. */
  predicate Placeable(c: Setup)
    requires c.Ok()
  {
    c.windowSize != 1 && !CanMisfile(c) && !CanOverseek(c)
  }

  ghost predicate Placed(c: Setup, sys: System) {
    && Inv(c, sys) && Placeable(c)
    && (forall n :: n in sys.stored ==> 1 <= n <= c.Last() && n <= 65535)
    && IsLayout(sys.srv.file.value.content, c.file, c.blockSize, sys.stored)
  }

  lemma StoredAtOffset(c: Setup, s: State, d: Datagram, n: nat, blocks: set<nat>)
    requires c.Ok() && Placeable(c) && 1 <= n <= c.Last() && n <= 65535 && SeekFits(c.blockSize, n)
    requires WellFormed(s) && s.op == ClientToServer
    requires s.blockSize == c.blockSize && s.windowSize == c.windowSize && s.file.Some?
    requires IsLayout(s.file.value.content, c.file, c.blockSize, blocks) && forall m :: m in blocks ==> m >= 1
    requires |d| >= HEADER_SIZE && Payload(d) == Block(c.file, c.blockSize, n) && BlockNr(d) == n
    ensures var f := StoreData(s, d).file;
            f.Some? && IsLayout(f.value.content, c.file, c.blockSize, blocks + {n})
  {
    var content := s.file.value.content;
    CountIff(|c.file|, c.blockSize, n);
    OffsetIsProduct(c.blockSize, n);
    if Payload(d) == [] {
      PlaceNothing(content, c.file, c.blockSize, blocks, n);
    } else {
      PlaceBlock(content, c.file, c.blockSize, blocks, n, WriteAt(content, Offset(c.blockSize, n), Payload(d)));
    }
  }

  lemma StorePlaced(c: Setup, sys: System, ev: Event)
    requires Told(c, sys) && Placed(c, sys) && Enabled(c, sys, ServerHears(ev))
    requires StoresData(c.cfg, sys.srv, Cut(sys.srv, ev.bytes))
    ensures Placed(c, Apply(c, sys, ServerHears(ev)))
  {
    var d := Cut(sys.srv, ev.bytes);
    var n := StoredAsItself(c, sys, ev, d);
    if !SeekFits(c.blockSize, n) { OverseekNeeds(c, sys, n, d); }
    ServerHearsInv(c, sys, ev);
    StoredRound(c.cfg, sys.srv, d, ev.env);
    StoredAtOffset(c, sys.srv, d, n, sys.stored);
  }

  lemma MovePlaced(c: Setup, prev: System, a: Action, sys: System)
    requires Told(c, prev) && Placed(c, prev) && Moves(c, prev, a, sys)
    ensures Placed(c, sys)
  {
    MoveInv(c, prev, a, sys);
    if a.ServerHears? {
      if StoresData(c.cfg, prev.srv, Cut(prev.srv, a.ev.bytes)) {
        StorePlaced(c, prev, a.ev);
      } else {
        UploadRound(c.cfg, prev.srv, a.ev);
      }
    }
  }

  lemma InitPlaced(c: Setup, sys: System)
    requires Init(c, sys) && Placeable(c)
    ensures Placed(c, sys)
  {
    InitInv(c, sys);
  }

  lemma {:induction false} ReachablePlaced(c: Setup, start: System, sys: System, steps: nat)
    requires Init(c, start) && Placeable(c) && ReachableIn(c, start, sys, steps)
    ensures Placed(c, sys)
    decreases steps
  {
    if steps == 0 {
      InitPlaced(c, sys);
    } else {
      var fewer := steps - 1;
      var prev, a := LastMove(c, start, sys, steps, fewer);
      ReachablePlaced(c, start, prev, fewer);
      ReachableTold(c, start, prev, fewer);
      MovePlaced(c, prev, a, sys);
    }
  }

  // ---- the theorems

  /** Placement for windows of more than one block: after any sequence of duplicated, reordered or missing
      blocks, the server's file is the layout of exactly the blocks it stored. */
  lemma UploadPlaced(c: Setup, start: System, sys: System)
    requires Init(c, start) && Placeable(c) && Reachable(c, start, sys)
    ensures IsLayout(Content(sys), c.file, c.blockSize, sys.stored)
    ensures forall n :: n in sys.stored ==> 1 <= n <= c.Last() && n <= 65535
    ensures sys.srv.transferDone ==> c.Last() in sys.stored
    ensures AllStored(c, sys.stored) ==> Content(sys) == c.file
  {
    var steps := InSteps(c, start, sys);
    ReachablePlaced(c, start, sys, steps);
    ReachableTold(c, start, sys, steps);
    if AllStored(c, sys.stored) { CompleteLayout(c, Content(sys), sys.stored); }
  }

  lemma {:induction false} FirstBlocksAre(k: nat, n: nat)
    ensures n in FirstBlocks(k) <==> 1 <= n <= k
    decreases k
  {
    if k > 0 { FirstBlocksAre(k - 1, n); }
  }

  lemma LockStepComplete(c: Setup, start: System, sys: System)
    requires Init(c, start) && Reachable(c, start, sys) && sys.srv.transferDone && c.windowSize == 1
    ensures AllStored(c, sys.stored) && Content(sys) == c.file
  {
    var steps := InSteps(c, start, sys);
    var k := ReachableHolds(c, start, sys, steps);
    forall n | 1 <= n <= c.Last() ensures n in sys.stored { FirstBlocksAre(k, n); }
    UploadSafety(c, start, sys);
  }

  /** A file of one block needs no seek but to 0. */
  lemma OneBlockPlaceable(c: Setup)
    requires c.Ok() && c.windowSize >= 2 && c.Last() == 1
    ensures Placeable(c)
  {
  }

  lemma OneBlockComplete(c: Setup, start: System, sys: System)
    requires Init(c, start) && Reachable(c, start, sys) && sys.srv.transferDone
    requires c.windowSize >= 2 && c.Last() == 1
    ensures AllStored(c, sys.stored) && Content(sys) == c.file
  {
    OneBlockPlaceable(c);
    UploadPlaced(c, start, sys);
  }

  /** A transfer that is done has stored every block, with a window of one block or a file of one block. */
  lemma UploadComplete(c: Setup, start: System, sys: System)
    requires Init(c, start) && Reachable(c, start, sys) && sys.srv.transferDone
    requires c.windowSize == 1 || c.Last() == 1
    ensures AllStored(c, sys.stored) && Content(sys) == c.file
  {
    if c.windowSize == 1 {
      LockStepComplete(c, start, sys);
    } else {
      OneBlockComplete(c, start, sys);
    }
  }
}
