/** Datagrams as byte sequences: the big-endian opcode and number fields that every
    handler reads and writes, and the truncation to `unsigned short` that happens there. */
module Wire {

  type Byte = b: int | 0 <= b < 256

  type Datagram = seq<Byte>

  const OP_RRQ := 1
  const OP_WRQ := 2
  const OP_DATA := 3
  const OP_ACK := 4
  const OP_ERROR := 5

  const HEADER_SIZE := 4

  /** Conversion of an `int` to `unsigned short`. */
  function Word(n: int): (w: nat)
    ensures w < 0x1_0000
    ensures 0 <= n < 0x1_0000 ==> w == n
  {
    n % 0x1_0000
  }

  /** Conversion of an `int` product to a 32-bit `int`. */
  function Wrap32(n: int): (r: int)
    ensures -0x8000_0000 <= r < 0x8000_0000
    ensures -0x8000_0000 <= n < 0x8000_0000 ==> r == n
  {
    (n + 0x8000_0000) % 0x1_0000_0000 - 0x8000_0000
  }

  /** The 32-bit number that differs by a multiple of 2^32. */
  lemma Wrap32Meaning(n: int, r: int)
    ensures r == Wrap32(n) <==> -0x8000_0000 <= r < 0x8000_0000 && (n - r) % 0x1_0000_0000 == 0
  {
    var k := (n + 0x8000_0000) / 0x1_0000_0000;
    assert n - Wrap32(n) == k * 0x1_0000_0000;
  }

  function High(w: nat): Byte
    requires w < 0x1_0000
  {
    w / 256
  }

  function Low(w: nat): Byte {
    w % 256
  }

  function Header(op: nat, nr: int): Datagram
    requires op < 256
  {
    [0, op, High(Word(nr)), Low(Word(nr))]
  }

  /** The packets the server sends, with their 16-bit fields; an ERROR packet without its text. */
  datatype Packet = Data(nr: nat, payload: seq<Byte>) | Ack(nr: nat) | Error(code: nat)

  /** The bytes of a packet. */
  function Encode(p: Packet): Datagram {
    match p
    case Data(nr, payload) => Header(OP_DATA, nr) + payload
    case Ack(nr) => Header(OP_ACK, nr)
    case Error(code) => Header(OP_ERROR, code)
  }

  function OpCode(d: Datagram): nat
    requires |d| >= 2
  {
    (d[0] as int) * 256 + d[1]
  }

  /** The 16-bit field at offset 2: a block number, or an error code. */
  function BlockNr(d: Datagram): (nr: nat)
    requires |d| >= 4
    ensures nr < 0x1_0000
  {
    (d[2] as int) * 256 + d[3]
  }

  function Payload(d: Datagram): seq<Byte>
    requires |d| >= HEADER_SIZE
  {
    d[HEADER_SIZE..]
  }

  predicate HasOp(d: Datagram, op: nat) {
    |d| >= 2 && OpCode(d) == op
  }

  /** The handlers' field accesses read back the bytes of a packet, its number modulo 2^16. */
  lemma EncodedFields(p: Packet)
    ensures var d := Encode(p);
            match p
            case Data(nr, payload) =>
              |d| == HEADER_SIZE + |payload| && OpCode(d) == OP_DATA && BlockNr(d) == Word(nr) && Payload(d) == payload
            case Ack(nr) => |d| == HEADER_SIZE && OpCode(d) == OP_ACK && BlockNr(d) == Word(nr)
            case Error(code) => |d| == HEADER_SIZE && OpCode(d) == OP_ERROR && BlockNr(d) == Word(code)
  {
    var d := Encode(p);
    var w := match p case Data(nr, _) => Word(nr) case Ack(nr) => Word(nr) case Error(code) => Word(code);
    assert d[2] == w / 256 && d[3] == w % 256;
    if p.Data? {
      assert Payload(d) == p.payload;
    }
  }

  /** Different packets with 16-bit fields have different bytes. */
  lemma EncodeInjective(p: Packet, q: Packet)
    requires Encode(p) == Encode(q)
    requires forall x :: x in [p, q] ==> (x.Data? || x.Ack? ==> x.nr < 0x1_0000) && (x.Error? ==> x.code < 0x1_0000)
    ensures p == q
  {
    assert p in [p, q] && q in [p, q];
    EncodedFields(p);
    EncodedFields(q);
  }
}
