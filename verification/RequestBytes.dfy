/** The bytes themselves, in plain numbers: what stands on the wire for requests, replies, status queries
  * and re-send requests, and what is read from a status reply. Packet header, control packet and
  * transaction types, status packet and re-send request packet of the IPbus protocol. */
module RequestBytes {
  import opened Wire
  import opened Packets
  import opened PacketProofs
  import opened Packer
  import opened StatusPackets

  /** Four bytes, the first one first in big-endian order and last in little-endian order. */
  function Quad(order: Order, a: Byte, b: Byte, c: Byte, d: Byte): (bs: seq<Byte>)
    ensures |bs| == 4
  {
    match order
    case BigEndian => [a, b, c, d]
    case LittleEndian => [d, c, b, a]
  }

  function WordQuad(order: Order, w: Word): seq<Byte> {
    Quad(order, w / 0x100_0000, w / 0x1_0000 % 0x100, w / 0x100 % 0x100, w % 0x100)
  }

  function WordQuads(order: Order, ws: seq<Word>): seq<Byte> {
    if ws == [] then [] else WordQuad(order, ws[0]) + WordQuads(order, ws[1..])
  }

  // ----- words -----

  lemma WordBytesAre(order: Order, w: Word)
    ensures PutWord(order, w) == WordQuad(order, w)
  {
  }

  lemma {:induction false} WordsBytesAre(order: Order, ws: seq<Word>)
    ensures PutWords(order, ws) == WordQuads(order, ws)
    decreases |ws|
  {
    if ws != [] {
      WordBytesAre(order, ws[0]);
      WordsBytesAre(order, ws[1..]);
    }
  }

  /** Two and four bytes as a number, the first one highest. */
  function Two(a: int, b: int): int {
    0x100 * a + b
  }

  function Four(a: int, b: int, c: int, d: int): int {
    0x100_0000 * a + 0x1_0000 * b + 0x100 * c + d
  }

  /** The word four bytes stand for. */
  lemma WordRead(order: Order, bs: seq<Byte>)
    requires |bs| >= 4
    ensures order == BigEndian ==> GetWord(order, bs) == Four(bs[0], bs[1], bs[2], bs[3])
    ensures order == LittleEndian ==> GetWord(order, bs) == Four(bs[3], bs[2], bs[1], bs[0])
  {
  }

  // ----- headers -----

  /** The header of a control packet. */
  lemma PacketHeaderBytes(id: Half, order: Order)
    ensures EncodePacketHeader(EmptyPacket(CONTROL, order).header.(pid := id)) ==
            Quad(order, 0x20, id / 0x100, id % 0x100, 0xf0)
  {
  }

  /** What is read from four bytes: version 2 in the first byte and 15 in the upper half of the last one,
      counted from the front or from the back; everything else is no header. */
  lemma PacketHeaderRead(data: seq<Byte>)
    requires |data| >= 4
    ensures DecodePacketHeader(data) ==
              if data[0] == 0x20 && data[3] >= 0xf0
              then Some(PacketHeader(2, Two(data[1], data[2]), data[3] - 0xf0, BigEndian))
              else if data[3] == 0x20 && data[0] >= 0xf0
              then Some(PacketHeader(2, Two(data[2], data[1]), data[0] - 0xf0, LittleEndian))
              else None
  {
  }

  /** The header of a transaction: version, 12 bits of id, words, type and info code. */
  lemma TransactionHeaderBytes(h: TransactionHeader, order: Order)
    requires h.version == 2 && h.id < 0x1000
    ensures EncodeTransactionHeader(h, order) ==
            Quad(order, 0x20 + h.id / 0x100, h.id % 0x100, h.words, 0x10 * h.tid + h.code)
  {
  }

  lemma TransactionHeaderRead(order: Order, a: Byte, b: Byte, c: Byte, d: Byte, rest: seq<Byte>)
    ensures DecodeTransactionHeader(Quad(order, a, b, c, d) + rest, order) ==
            Some(TransactionHeader(a / 0x10, Two(a % 0x10, b), c, d / 0x10, d % 0x10))
  {
    assert (Quad(order, a, b, c, d) + rest)[..4] == Quad(order, a, b, c, d);
  }

  // ----- requests -----

  /** A transaction of type `c` at position `i`: header, address and data. 15 marks a request. */
  function ItemBytes(order: Order, i: Half, c: Nibble, n: Byte, addr: Word, input: seq<Word>): seq<Byte>
    requires i < 0x1000
  {
    Quad(order, 0x20 + i / 0x100, i % 0x100, n, 0x10 * c + 0x0f) + WordQuad(order, addr) + WordQuads(order, input)
  }

  lemma EncodedBytes(order: Order, t: Transaction)
    requires Shaped(t) && t.outheader.id < 0x1000
    ensures var h := t.outheader; EncodeTransaction(order, t) == ItemBytes(order, h.id, h.tid, h.words, t.addr, t.input)
  {
    TransactionHeaderBytes(t.outheader, order);
    WordBytesAre(order, t.addr);
    WordsBytesAre(order, t.input);
  }

  /** The bytes of a new request of one of the types, placed at position `i`. */
  function NewBytes(order: Order, i: Half, tid: Nibble, n: Byte, addr: Word, input: seq<Word>): seq<Byte>
    requires i < 0x1000
  {
    var t := NewRequestTransaction(tid, n, addr, input, 0, false, false);
    EncodeTransaction(order, t.(outheader := t.outheader.(id := i)))
  }

  lemma NewBytesAre(order: Order, i: Half, tid: Nibble, n: Byte, addr: Word, input: seq<Word>)
    requires i < 0x1000
    ensures NewBytes(order, i, tid, n, addr, input) == ItemBytes(order, i, tid, n, addr, input)
  {
    var t := NewRequestTransaction(tid, n, addr, input, 0, false, false);
    TransactionHeaderBytes(t.outheader.(id := i), order);
    WordBytesAre(order, addr);
    WordsBytesAre(order, input);
  }

  /** The six types: 0 read, 1 write, 2 and 3 the same without incrementing the address, 4 RMWbits, 5 RMWsum. */
  lemma TypeBytes(order: Order, i: Half, n: Byte, addr: Word, input: seq<Word>)
    requires i < 0x1000
    ensures NewBytes(order, i, READ, n, addr, input) == ItemBytes(order, i, 0, n, addr, input)
    ensures NewBytes(order, i, WRITE, n, addr, input) == ItemBytes(order, i, 1, n, addr, input)
    ensures NewBytes(order, i, READ_NON_INC, n, addr, input) == ItemBytes(order, i, 2, n, addr, input)
    ensures NewBytes(order, i, WRITE_NON_INC, n, addr, input) == ItemBytes(order, i, 3, n, addr, input)
    ensures NewBytes(order, i, RMW_BITS, n, addr, input) == ItemBytes(order, i, 4, n, addr, input)
    ensures NewBytes(order, i, RMW_SUM, n, addr, input) == ItemBytes(order, i, 5, n, addr, input)
  {
    NewBytesAre(order, i, 0, n, addr, input);
    NewBytesAre(order, i, 1, n, addr, input);
    NewBytesAre(order, i, 2, n, addr, input);
    NewBytesAre(order, i, 3, n, addr, input);
    NewBytesAre(order, i, 4, n, addr, input);
    NewBytesAre(order, i, 5, n, addr, input);
  }

  /** The transactions of a packet from position `i` on. */
  function ItemsFrom(order: Order, ts: seq<Transaction>, i: nat): seq<Byte>
    requires i <= |ts| <= 0x1000
    decreases |ts| - i
  {
    if i == |ts| then []
    else
      var t := ts[i];
      ItemBytes(order, i, t.outheader.tid, t.outheader.words, t.addr, t.input) + ItemsFrom(order, ts, i + 1)
  }

  lemma {:induction false} EncodedFrom(order: Order, ts: seq<Transaction>, i: nat)
    requires i <= |ts| <= 0x1000 && Numbered(ts)
    ensures EncodeTransactions(order, ts[i..]) == ItemsFrom(order, ts, i)
    decreases |ts| - i
  {
    if i < |ts| {
      assert Shaped(ts[i]) && ts[i].outheader.id == i;
      EncodedBytes(order, ts[i]);
      EncodedFrom(order, ts, i + 1);
      assert ts[i..][1..] == ts[i + 1..] && ts[i..][0] == ts[i];
    }
  }

  /** Every byte of a prepared packet, once its id is known. */
  lemma PacketBytes(p: Packet, id: Half)
    requires Ready(p)
    ensures WriteHeader(p, id).request ==
            Quad(p.header.order, 0x20, id / 0x100, id % 0x100, 0xf0) + ItemsFrom(p.header.order, p.transactions, 0)
  {
    var order := p.header.order;
    EncodedFrom(order, p.transactions, 0);
    assert p.transactions[0..] == p.transactions;
  }

  // ----- replies -----

  /** A reply: the same packet header, and for each item its header with the info code in place of 15. */
  function ReplyBytes(order: Order, items: seq<ReplyItem>): seq<Byte>
    requires forall i :: 0 <= i < |items| ==> items[i].header.id < 0x1000 && items[i].header.version == 2
  {
    if items == [] then []
    else
      var h := items[0].header;
      Quad(order, 0x20 + h.id / 0x100, h.id % 0x100, h.words, 0x10 * h.tid + h.code)
      + WordQuads(order, items[0].payload) + ReplyBytes(order, items[1..])
  }

  lemma {:induction false} ReplyItemsBytes(order: Order, items: seq<ReplyItem>)
    requires forall i :: 0 <= i < |items| ==> items[i].header.id < 0x1000 && items[i].header.version == 2
    ensures EncodeReplyItems(order, items) == ReplyBytes(order, items)
    decreases |items|
  {
    if items != [] {
      TransactionHeaderBytes(items[0].header, order);
      WordsBytesAre(order, items[0].payload);
      ReplyItemsBytes(order, items[1..]);
    }
  }

  lemma ReplyPacketBytes(pid: Half, order: Order, items: seq<ReplyItem>)
    requires forall i :: 0 <= i < |items| ==> items[i].header.id < 0x1000 && items[i].header.version == 2
    ensures EncodeReply(pid, order, items) ==
            Quad(order, 0x20, pid / 0x100, pid % 0x100, 0xf0) + ReplyBytes(order, items)
  {
    ReplyItemsBytes(order, items);
  }

  // ----- status and re-send requests -----

  /** The two queries, byte by byte. */
  lemma QueryBytes(id: Half)
    ensures NewStatusPacket() == [0x20, 0, 0, 0xf1] + seq(60, _ => 0)
    ensures NewResendPacket(id) == [0x20, id / 0x100, id % 0x100, 0xf2]
  {
  }

  /** The header in a slot of a packet history. */
  function Slot(data: seq<Byte>, i: nat): seq<PacketHeader>
    requires i + 4 <= |data|
  {
    if data[i] == 0x20 && data[i + 3] >= 0xf0
    then [PacketHeader(2, Two(data[i + 1], data[i + 2]), data[i + 3] - 0xf0, BigEndian)]
    else if data[i + 3] == 0x20 && data[i] >= 0xf0
    then [PacketHeader(2, Two(data[i + 2], data[i + 1]), data[i] - 0xf0, LittleEndian)]
    else []
  }

  lemma SlotRead(slots: seq<Byte>, n: nat)
    requires 4 * n + 4 <= |slots|
    ensures ValidHeaders(slots, n + 1) == ValidHeaders(slots, n) + Slot(slots, 4 * n)
  {
    var four := slots[4 * n..4 * (n + 1)];
    PacketHeaderRead(four);
    assert four[0] == slots[4 * n] && four[1] == slots[4 * n + 1];
    assert four[2] == slots[4 * n + 2] && four[3] == slots[4 * n + 3];
  }

  lemma SlotWithin(data: seq<Byte>, start: nat, i: nat)
    requires i + 4 <= 16 && start + 16 <= |data|
    ensures Slot(data[start..start + 16], i) == Slot(data, start + i)
  {
    var slots := data[start..start + 16];
    assert slots[i] == data[start + i] && slots[i + 1] == data[start + i + 1];
    assert slots[i + 2] == data[start + i + 2] && slots[i + 3] == data[start + i + 3];
  }

  /** Where the fields of a status reply stand: MTU, number of buffers, next id, and the histories of
      received and sent packets. */
  lemma StatusFields(data: seq<Byte>)
    requires |data| >= 64
    ensures var st := StatusOf(data);
            && st.mtu == Four(data[4], data[5], data[6], data[7])
            && st.nresponsebuffer == Four(data[8], data[9], data[10], data[11])
            && st.nextid == Two(data[13], data[14])
            && st.received == Slot(data, 32) + Slot(data, 36) + Slot(data, 40) + Slot(data, 44)
            && st.sent == Slot(data, 48) + Slot(data, 52) + Slot(data, 56) + Slot(data, 60)
  {
    StatusNumbers(data);
    FourSlots(data, 32);
    FourSlots(data, 48);
  }

  lemma StatusNumbers(data: seq<Byte>)
    requires |data| >= 64
    ensures var st := StatusOf(data);
            && st.mtu == Four(data[4], data[5], data[6], data[7])
            && st.nresponsebuffer == Four(data[8], data[9], data[10], data[11])
            && st.nextid == Two(data[13], data[14])
  {
    WordAt(data, 4);
    WordAt(data, 8);
    WordAt(data, 12);
    MiddleBytes(data[12], data[13], data[14], data[15]);
  }

  lemma WordAt(data: seq<Byte>, i: nat)
    requires i + 4 <= |data|
    ensures GetWord(BigEndian, data[i..i + 4]) == Four(data[i], data[i + 1], data[i + 2], data[i + 3])
  {
    WordRead(BigEndian, data[i..i + 4]);
  }

  lemma FourSlots(data: seq<Byte>, start: nat)
    requires start + 16 <= |data|
    ensures ValidHeaders(data[start..start + 16], 4) ==
            Slot(data, start) + Slot(data, start + 4) + Slot(data, start + 8) + Slot(data, start + 12)
  {
    var slots := data[start..start + 16];
    SlotRead(slots, 0);
    SlotRead(slots, 1);
    SlotRead(slots, 2);
    SlotRead(slots, 3);
    SlotWithin(data, start, 0);
    SlotWithin(data, start, 4);
    SlotWithin(data, start, 8);
    SlotWithin(data, start, 12);
    assert ValidHeaders(slots, 0) == [];
    assert [] + Slot(slots, 0) == Slot(slots, 0);
  }

  lemma MiddleBytes(a: Byte, b: Byte, c: Byte, d: Byte)
    ensures Four(a, b, c, d) / 0x100 % 0x1_0000 == Two(b, c)
  {
    var w := Four(a, b, c, d);
    LastByte(0x1_0000 * a + 0x100 * b + c, d);
    assert w / 0x100 == 0x1_0000 * a + Two(b, c);
  }
}
