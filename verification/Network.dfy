/** What the end-to-end models share: the transfer both ends agreed on, and the datagrams that can be under way. */
module Network {
  import opened Wire
  import opened Settings
  import opened Blocks

  /** What both ends agreed on. */
  datatype Setup = Setup(cfg: Config, file: seq<Byte>, blockSize: nat, windowSize: nat) {
    predicate Ok() {
      cfg.Consistent() && blockSize > 0 && 1 <= windowSize <= 65535
    }

    /** Number of the last block. */
    function Last(): nat {
      if blockSize == 0 then 0 else BlockCount(|file|, blockSize)
    }

    /** No download seeks further than an `int` goes: because the first window is the only one, because the last
        base that 16-bit numbers reach is near enough, or because a limit, an `int` itself, ends the session before. */
    predicate Seekable() {
      Last() <= windowSize || SeekFits(blockSize, Min(Last(), 0x1_0000)) || cfg.limit > 0
    }
  }

  /** The first block that is too far for a seek with an `int`. */
  function FirstFar(c: Setup): nat
    requires c.Ok()
  {
    0x7FFF_FFFF / c.blockSize + 2
  }

  lemma FarFromFirst(c: Setup, n: nat)
    requires c.Ok()
    ensures SeekFits(c.blockSize, n) <==> n < FirstFar(c)
  {
    var q := 0x7FFF_FFFF / c.blockSize;
    assert q * c.blockSize <= 0x7FFF_FFFF < (q + 1) * c.blockSize;
    if n < FirstFar(c) {
      MulMono(n - 1, q, c.blockSize);
    } else {
      MulMono(q + 1, n - 1, c.blockSize);
    }
  }

  /** The bytes of the packets one round sent. */
  function OnTheWire(sent: seq<Packet>): set<Datagram> {
    set i | 0 <= i < |sent| :: Encode(sent[i])
  }

  /** The DATA datagram of block `n`. */
  function BlockDatagram(c: Setup, n: int): Datagram {
    if n < 1 then [] else Encode(Data(Word(n), Block(c.file, c.blockSize, n)))
  }
}
