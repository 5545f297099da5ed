/** Words, bytes and the two kinds of header of an IPbus 2.0 packet, in both byte orders (ipbus.go).
  *
  * Shifting left or right by k bits is multiplying or dividing by 2^k; masking the low k bits is
  * taking the remainder by 2^k; `|` of fields that share no bit is their sum. */
module Wire {
  type Byte = b: int | 0 <= b < 0x100
  type Nibble = b: int | 0 <= b < 0x10
  type Half = h: int | 0 <= h < 0x1_0000
  type Word = w: int | 0 <= w < 0x1_0000_0000

  const PROTOCOL_VERSION: Nibble := 2

  const CONTROL: Nibble := 0
  const STATUS: Nibble := 1
  const RESEND: Nibble := 2

  const READ: Nibble := 0
  const WRITE: Nibble := 1
  const READ_NON_INC: Nibble := 2
  const WRITE_NON_INC: Nibble := 3
  const RMW_BITS: Nibble := 4
  const RMW_SUM: Nibble := 5

  const SUCCESS: Nibble := 0
  const REQUEST: Nibble := 15

  datatype Option<+T> = None | Some(value: T)
  {
    function UnwrapOr(default: T): T {
      if None? then default else value
    }
  }

  datatype Order = BigEndian | LittleEndian

  // ----- words -----

  /** Two fields side by side, the lower one `size` values wide. */
  function Join(high: int, size: int, low: int): int {
    high * size + low
  }

  function Reverse4(bs: seq<Byte>): (r: seq<Byte>)
    requires |bs| == 4
    ensures |r| == 4
  {
    [bs[3], bs[2], bs[1], bs[0]]
  }

  /** Four bytes written most significant first or last. */
  function Ordered(order: Order, bs: seq<Byte>): (r: seq<Byte>)
    requires |bs| == 4
    ensures |r| == 4
  {
    if order.BigEndian? then bs else Reverse4(bs)
  }

  function PutWord(order: Order, w: Word): (bs: seq<Byte>)
    ensures |bs| == 4
  {
    Ordered(order, [w / 0x100_0000, w / 0x1_0000 % 0x100, w / 0x100 % 0x100, w % 0x100])
  }

  function GetWord(order: Order, bs: seq<Byte>): Word
    requires |bs| >= 4
  {
    var b := Ordered(order, bs[..4]);
    Join(Join(b[0], 0x100, b[1]), 0x1_0000, Join(b[2], 0x100, b[3]))
  }

  lemma GetPutWord(order: Order, w: Word, rest: seq<Byte>)
    ensures GetWord(order, PutWord(order, w) + rest) == w
  {
    assert (PutWord(order, w) + rest)[..4] == PutWord(order, w);
    WordBytes(w);
  }

  lemma NextByte(w: nat, size: nat)
    requires size == 0x100 || size == 0x1_0000
    ensures w / size / 0x100 == w / (size * 0x100)
    ensures w / size == 0x100 * (w / (size * 0x100)) + w / size % 0x100
  {
    var q := w / size / 0x100;
    assert w == size * (0x100 * q + w / size % 0x100) + w % size;
    if size == 0x100 {
      assert w / 0x100 / 0x100 == w / 0x1_0000;
    } else {
      assert w / 0x1_0000 / 0x100 == w / 0x100_0000;
    }
  }

  lemma WordBytes(w: nat)
    ensures Join(Join(w / 0x100_0000, 0x100, w / 0x1_0000 % 0x100),
                 0x1_0000, Join(w / 0x100 % 0x100, 0x100, w % 0x100)) == w
  {
    NextByte(w, 0x100);
    NextByte(w, 0x1_0000);
    assert w == 0x100 * (w / 0x100) + w % 0x100;
  }

  lemma FourBytes(a: int, b: int, c: int, d: int)
    requires 0 <= a < 0x100 && 0 <= b < 0x100 && 0 <= c < 0x100 && 0 <= d < 0x100
    ensures var w := Join(Join(a, 0x100, b), 0x1_0000, Join(c, 0x100, d));
            w / 0x100_0000 == a && w / 0x1_0000 % 0x100 == b && w / 0x100 % 0x100 == c && w % 0x100 == d
  {
    var w := Join(Join(a, 0x100, b), 0x1_0000, Join(c, 0x100, d));
    LastByte(0x1_0000 * a + 0x100 * b + c, d);
    LastByte(0x100 * a + b, c);
    LastByte(a, b);
    NextByte(w, 0x100);
    NextByte(w, 0x1_0000);
  }

  lemma LastByte(high: int, low: int)
    requires high >= 0 && 0 <= low < 0x100
    ensures (0x100 * high + low) / 0x100 == high && (0x100 * high + low) % 0x100 == low
  {
  }

  lemma PutGetWord(order: Order, bs: seq<Byte>)
    requires |bs| >= 4
    ensures PutWord(order, GetWord(order, bs)) == bs[..4]
  {
    var b := Ordered(order, bs[..4]);
    FourBytes(b[0], b[1], b[2], b[3]);
    assert Ordered(order, b) == bs[..4];
  }

  function PutWords(order: Order, ws: seq<Word>): (bs: seq<Byte>)
    ensures |bs| == 4 * |ws|
  {
    if ws == [] then [] else PutWord(order, ws[0]) + PutWords(order, ws[1..])
  }

  function GetWords(order: Order, bs: seq<Byte>): (ws: seq<Word>)
    ensures |ws| == |bs| / 4
  {
    if |bs| < 4 then [] else [GetWord(order, bs)] + GetWords(order, bs[4..])
  }

  lemma {:induction false} GetPutWords(order: Order, ws: seq<Word>)
    ensures GetWords(order, PutWords(order, ws)) == ws
  {
    if ws != [] {
      GetPutWord(order, ws[0], PutWords(order, ws[1..]));
      GetPutWords(order, ws[1..]);
      assert PutWords(order, ws)[4..] == PutWords(order, ws[1..]);
    }
  }

  lemma PutGetWords(order: Order, bs: seq<Byte>)
    requires |bs| % 4 == 0
    ensures PutWords(order, GetWords(order, bs)) == bs
  {
    PutGetMany(order, bs, |bs| / 4);
  }

  lemma {:induction false} PutGetMany(order: Order, bs: seq<Byte>, n: nat)
    requires |bs| == 4 * n
    ensures PutWords(order, GetWords(order, bs)) == bs
    decreases n
  {
    if n > 0 {
      PutGetWord(order, bs);
      PutGetMany(order, bs[4..], n - 1);
      PutWordsCons(order, GetWord(order, bs), GetWords(order, bs[4..]));
      assert bs == bs[..4] + bs[4..];
    }
  }

  lemma PutWordsCons(order: Order, w: Word, ws: seq<Word>)
    ensures PutWords(order, [w] + ws) == PutWord(order, w) + PutWords(order, ws)
  {
    assert ([w] + ws)[1..] == ws;
  }

  lemma {:induction false} PutWordsAppend(order: Order, xs: seq<Word>, ys: seq<Word>)
    ensures PutWords(order, xs + ys) == PutWords(order, xs) + PutWords(order, ys)
  {
    if xs == [] {
      assert xs + ys == ys;
    } else {
      PutWordsAppend(order, xs[1..], ys);
      assert (xs + ys)[1..] == xs[1..] + ys && (xs + ys)[0] == xs[0];
      JoinBytes(PutWord(order, xs[0]), PutWords(order, xs[1..]), PutWords(order, ys));
    }
  }

  lemma JoinBytes(a: seq<Byte>, b: seq<Byte>, c: seq<Byte>)
    ensures a + b + c == a + (b + c)
  {
  }

  lemma PutWordsNext(order: Order, ws: seq<Word>, i: nat)
    requires i < |ws|
    ensures PutWords(order, ws[..i + 1]) == PutWords(order, ws[..i]) + PutWord(order, ws[i])
  {
    assert ws[..i + 1] == ws[..i] + [ws[i]];
    PutWordsAppend(order, ws[..i], [ws[i]]);
    assert [ws[i]][1..] == [];
  }

  /** bytes2uint32s: the loop that reads a byte slice word by word. */
  method BytesToWords(bs: seq<Byte>, order: Order) returns (us: seq<Word>)
    ensures us == GetWords(order, bs)
  {
    var size := |bs| / 4;
    us := [];
    var rest := bs;
    ghost var goal := GetWords(order, bs);
    for i := 0 to size
      invariant |rest| == |bs| - 4 * i
      invariant us + GetWords(order, rest) == goal
    {
      var w := GetWord(order, rest);
      assert GetWords(order, rest) == [w] + GetWords(order, rest[4..]);
      AppendNext(us, w, GetWords(order, rest[4..]));
      us := us + [w];
      rest := rest[4..];
    }
  }

  lemma AppendNext(xs: seq<Word>, w: Word, ys: seq<Word>)
    ensures xs + ([w] + ys) == xs + [w] + ys
  {
  }

  // ----- packet headers -----

  datatype PacketHeader = PacketHeader(version: Nibble, pid: Half, ptype: Nibble, order: Order)

  function EncodePacketHeader(h: PacketHeader): (bs: seq<Byte>)
    ensures |bs| == 4
  {
    Ordered(h.order, [h.version * 0x10, h.pid / 0x100, h.pid % 0x100, 0xf0 + h.ptype])
  }

  function DecodePacketHeader(data: seq<Byte>): Option<PacketHeader> {
    if |data| < 4 then None
    else if data[0] == PROTOCOL_VERSION * 0x10 && data[3] >= 0xf0 then
      Some(PacketHeader(PROTOCOL_VERSION, Join(data[1], 0x100, data[2]), data[3] % 0x10, BigEndian))
    else if data[3] == PROTOCOL_VERSION * 0x10 && data[0] >= 0xf0 then
      Some(PacketHeader(PROTOCOL_VERSION, Join(data[2], 0x100, data[1]), data[0] % 0x10, LittleEndian))
    else None
  }

  /** Decoding returns the header, byte order included, exactly when the bytes start with it. */
  lemma PacketHeaderInverse(data: seq<Byte>, h: PacketHeader)
    requires h.version == PROTOCOL_VERSION
    ensures DecodePacketHeader(data) == Some(h) <==> |data| >= 4 && data[..4] == EncodePacketHeader(h)
  {
    if |data| >= 4 {
      var e := EncodePacketHeader(h);
      assert data[..4] == e <==> data[0] == e[0] && data[1] == e[1] && data[2] == e[2] && data[3] == e[3];
    }
  }

  // ----- transaction headers -----

  datatype TransactionHeader = TransactionHeader(version: Nibble, id: Half, words: Byte, tid: Nibble, code: Nibble)

  function EncodeTransactionHeader(h: TransactionHeader, order: Order): (bs: seq<Byte>)
    ensures |bs| == 4
  {
    Ordered(order, [h.version * 0x10 + h.id / 0x100 % 0x10, h.id % 0x100, h.words, h.tid * 0x10 + h.code])
  }

  function DecodeTransactionHeader(data: seq<Byte>, order: Order): Option<TransactionHeader> {
    if |data| < 4 then None
    else
      var b := Ordered(order, data[..4]);
      Some(TransactionHeader(b[0] / 0x10, Join(b[0] % 0x10, 0x100, b[1]), b[2], b[3] / 0x10, b[3] % 0x10))
  }

  /** Transaction headers survive exactly when their id fits in 12 bits. */
  lemma TransactionHeaderInverse(data: seq<Byte>, h: TransactionHeader, order: Order)
    ensures DecodeTransactionHeader(data, order) == Some(h) <==>
            |data| >= 4 && h.id < 0x1000 && data[..4] == EncodeTransactionHeader(h, order)
  {
    if |data| >= 4 {
      var b, e := Ordered(order, data[..4]), Ordered(order, EncodeTransactionHeader(h, order));
      assert data[..4] == EncodeTransactionHeader(h, order) <==> b == e;
      assert b == e <==> b[0] == e[0] && b[1] == e[1] && b[2] == e[2] && b[3] == e[3];
      IdBytes(b[0], b[1], h.version, h.id);
      Nibbles(b[3], h.tid, h.code);
    }
  }

  lemma Nibbles(b: Byte, high: Nibble, low: Nibble)
    ensures b == high * 0x10 + low <==> b / 0x10 == high && b % 0x10 == low
  {
  }

  lemma IdBytes(b0: Byte, b1: Byte, version: Nibble, id: Half)
    ensures (b0 / 0x10 == version && Join(b0 % 0x10, 0x100, b1) == id) <==>
            (id < 0x1000 && b0 == version * 0x10 + id / 0x100 % 0x10 && b1 == id % 0x100)
  {
    Nibbles(b0, version, id / 0x100 % 0x10);
    assert id == 0x100 * (id / 0x100) + id % 0x100;
  }
}
