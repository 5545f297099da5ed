/** Packets of transactions (transaction.go): size accounting, the request serialiser, the reply
  * parser and the routing of replies, as functions on packet values. Class Packet (Packet.dfy)
  * updates a packet in place and refines them. */
module Packets {
  import opened Wire

  const MAX_PACKET_SIZE := 1500

  /** Words of IPbus data in a normal UDP packet, for requests and for responses. */
  const CAP := (MAX_PACKET_SIZE - 28) / 4

  datatype Error =
    | NoError
    | BadPacketHeader
    | IPbusError(code: Nibble)
    | InsufficientBytes

  datatype Response = Response(err: Error, code: Nibble, data: seq<Word>, dataB: seq<Byte>)

  /** A transaction and where its response goes: `resp` names the requester's channel. */
  datatype Transaction = Transaction(outheader: TransactionHeader, addr: Word, input: seq<Word>,
                                     resp: nat, byteslice: bool, closechan: bool)

  datatype Packet = Packet(header: PacketHeader, id: Half, transactions: seq<Transaction>,
                           replies: seq<Response>, reqlen: nat, resplen: nat, request: seq<Byte>)

  function NewRequestTransaction(tid: Nibble, words: Byte, addr: Word, input: seq<Word>,
                                 resp: nat, byteslice: bool, final: bool): Transaction
  {
    Transaction(TransactionHeader(PROTOCOL_VERSION, 0, words, tid, REQUEST), addr, input, resp, byteslice, final)
  }

  /** A new packet; `order` is the package's default byte order. */
  function EmptyPacket(ptype: Nibble, order: Order): Packet {
    Packet(PacketHeader(PROTOCOL_VERSION, 0, ptype, order), 0, [], [], 1, 1, [0, 0, 0, 0])
  }

  // ----- adding transactions -----

  /** Subtraction of unsigned 64-bit integers (no packet is 2^64 words long). */
  function USub(a: nat, b: nat): nat {
    if a >= b then a - b
    else if b - a <= 0x1_0000_0000_0000_0000 then 0x1_0000_0000_0000_0000 - (b - a)
    else 0
  }

  function ReqSpace(p: Packet): nat {
    USub(CAP, p.reqlen)
  }

  function RespSpace(p: Packet): nat {
    USub(CAP, p.resplen)
  }

  predicate IsRead(tid: Nibble) {
    tid == READ || tid == READ_NON_INC
  }

  predicate IsWrite(tid: Nibble) {
    tid == WRITE || tid == WRITE_NON_INC
  }

  predicate Known(tid: Nibble) {
    tid <= RMW_SUM
  }

  /** The checks of add. The response check of a read is done on 8 bits: 255 + 1 wraps to 0. */
  predicate Accepts(p: Packet, t: Transaction) {
    var tid, words := t.outheader.tid, t.outheader.words as int;
    if IsRead(tid) then |t.input| == 0 && ReqSpace(p) >= 2 && RespSpace(p) >= (words + 1) % 0x100
    else if IsWrite(tid) then |t.input| == words && ReqSpace(p) >= words + 2 && RespSpace(p) >= 1
    else if tid == RMW_BITS then |t.input| == 2 && ReqSpace(p) >= 4 && RespSpace(p) >= 2
    else if tid == RMW_SUM then |t.input| == 1 && ReqSpace(p) >= 3 && RespSpace(p) >= 2
    else true
  }

  /** Words a successful response carries besides its header. */
  function PayloadWords(tid: Nibble, words: Byte): nat {
    if IsRead(tid) then words else if tid == RMW_BITS || tid == RMW_SUM then 1 else 0
  }

  /** Words of data in a request besides header and address. */
  function InputWords(tid: Nibble, words: Byte): nat {
    if IsWrite(tid) then words else if tid == RMW_BITS then 2 else if tid == RMW_SUM then 1 else 0
  }

  function ReqWords(t: Transaction): nat {
    2 + |t.input|
  }

  function RespWords(t: Transaction): nat {
    1 + PayloadWords(t.outheader.tid, t.outheader.words)
  }

  function EncodeTransaction(order: Order, t: Transaction): seq<Byte> {
    EncodeTransactionHeader(t.outheader, order) + PutWord(order, t.addr) + PutWords(order, t.input)
  }

  /** The transaction as the packet keeps it: its id is its position. */
  function Placed(p: Packet, t: Transaction): Transaction {
    t.(outheader := t.outheader.(id := |p.transactions| % 0x1_0000))
  }

  /** The packet after add accepted `t`. */
  function Added(p: Packet, t: Transaction): Packet {
    p.(transactions := p.transactions + [Placed(p, t)],
       reqlen := p.reqlen + (if Known(t.outheader.tid) then ReqWords(t) else 0),
       resplen := p.resplen + (if Known(t.outheader.tid) then RespWords(t) else 0),
       request := p.request + EncodeTransaction(p.header.order, Placed(p, t)))
  }

  function Add(p: Packet, t: Transaction): Packet {
    if Accepts(p, t) then Added(p, t) else p
  }

  function WriteHeader(p: Packet, id: Half): Packet {
    var h := p.header.(pid := id);
    p.(header := h, id := id,
       request := if |p.request| < 4 then p.request else EncodePacketHeader(h) + p.request[4..])
  }

  // ----- parsing replies -----

  datatype ParseOutcome =
    | Parsed(replies: seq<Response>)
    | Panics
    | Spins  // the loop never ends: a tail of one to three bytes is not consumed

  function Payload(h: TransactionHeader): nat {
    if h.code == SUCCESS then PayloadWords(h.tid, h.words) else 0
  }

  function ResponseTo(t: Transaction, order: Order, h: TransactionHeader, payload: seq<Byte>): Response {
    if h.code != SUCCESS then Response(IPbusError(h.code), h.code, [], [])
    else if t.byteslice then Response(NoError, h.code, [], payload)
    else Response(NoError, h.code, GetWords(order, payload), [])
  }

  function Prepend(replies: seq<Response>, o: ParseOutcome): ParseOutcome {
    match o
    case Parsed(rs) => Parsed(replies + rs)
    case _ => o
  }

  lemma PrependTwice(xs: seq<Response>, ys: seq<Response>, o: ParseOutcome)
    ensures Prepend(xs, Prepend(ys, o)) == Prepend(xs + ys, o)
  {
    if o.Parsed? {
      assert xs + (ys + o.replies) == xs + ys + o.replies;
    }
  }

  /** The loop of parse over the bytes behind the packet header. */
  function ParseItems(ts: seq<Transaction>, order: Order, data: seq<Byte>): ParseOutcome
    decreases |data|
  {
    if |data| == 0 then Parsed([])
    else
      match DecodeTransactionHeader(data, order)
      case None => if |ts| == 0 then Panics else Spins
      case Some(h) =>
        var n := 4 + 4 * Payload(h);
        if h.id >= |ts| || |data| < n then Panics
        else Prepend([ResponseTo(ts[h.id], order, h, data[4..n])], ParseItems(ts, order, data[n..]))
  }

  const UNREADABLE := Response(BadPacketHeader, 0xe, [], [])
  const MISSING := Response(InsufficientBytes, 0xe, [], [])

  function Repeat(r: Response, n: nat): (s: seq<Response>)
    ensures |s| == n && forall i :: 0 <= i < n ==> s[i] == r
  {
    seq(n, _ => r)
  }

  function Padded(replies: seq<Response>, n: nat): seq<Response> {
    replies + Repeat(MISSING, if |replies| < n then n - |replies| else 0)
  }

  function Parse(p: Packet, data: seq<Byte>): ParseOutcome {
    match DecodePacketHeader(data)
    case None => Parsed(p.replies + Repeat(UNREADABLE, |p.transactions|))
    case Some(h) =>
      if h.ptype != CONTROL then Parsed(p.replies)
      else
        match ParseItems(p.transactions, h.order, data[4..])
        case Parsed(rs) => Parsed(Padded(p.replies + rs, |p.transactions|))
        case bad => bad
  }

  // ----- sending replies to the requesters -----

  datatype ChanEvent = Put(chan: nat, response: Response) | Close(chan: nat)

  function SendOne(t: Transaction, r: Response): seq<ChanEvent> {
    [Put(t.resp, r)] + (if t.closechan then [Close(t.resp)] else [])
  }

  function SendAll(ts: seq<Transaction>, replies: seq<Response>): seq<ChanEvent>
    requires |ts| <= |replies|
  {
    if ts == [] then [] else SendOne(ts[0], replies[0]) + SendAll(ts[1..], replies[1..])
  }

  /** The words of responses, one after the other. */
  function Data(responses: seq<Response>): seq<Word> {
    if responses == [] then [] else responses[0].data + Data(responses[1..])
  }

  function DataB(responses: seq<Response>): seq<Byte> {
    if responses == [] then [] else responses[0].dataB + DataB(responses[1..])
  }

  lemma DataOne(r: Response)
    ensures Data([r]) == r.data && DataB([r]) == r.dataB
  {
    assert [r][1..] == [];
  }

  lemma DataCons(r: Response, rs: seq<Response>)
    ensures Data([r] + rs) == r.data + Data(rs) && DataB([r] + rs) == r.dataB + DataB(rs)
  {
    assert ([r] + rs)[1..] == rs;
  }
}
