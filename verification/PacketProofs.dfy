/** What packets built by add hold, what parse makes of replies, and what send does with them. */
module PacketProofs {
  import opened Wire
  import opened Packets

  // ----- a reference decoder for requests -----

  /** A request item as the device sees it. */
  datatype RequestItem = RequestItem(header: TransactionHeader, addr: Word, input: seq<Word>)

  function DecodeRequestItems(order: Order, bs: seq<Byte>): Option<seq<RequestItem>>
    decreases |bs|
  {
    if bs == [] then Some([])
    else
      match DecodeTransactionHeader(bs, order)
      case None => None
      case Some(h) =>
        var n := 8 + 4 * InputWords(h.tid, h.words);
        if !Known(h.tid) || |bs| < n then None
        else
          match DecodeRequestItems(order, bs[n..])
          case None => None
          case Some(items) => Some([RequestItem(h, GetWord(order, bs[4..]), GetWords(order, bs[8..n]))] + items)
  }

  function DecodeRequest(bs: seq<Byte>): Option<(PacketHeader, seq<RequestItem>)> {
    match DecodePacketHeader(bs)
    case None => None
    case Some(h) =>
      match DecodeRequestItems(h.order, bs[4..])
      case None => None
      case Some(items) => Some((h, items))
  }

  // ----- packets built by add -----

  function EncodeTransactions(order: Order, ts: seq<Transaction>): seq<Byte> {
    if ts == [] then [] else EncodeTransaction(order, ts[0]) + EncodeTransactions(order, ts[1..])
  }

  lemma {:induction false} EncodeAppend(order: Order, xs: seq<Transaction>, t: Transaction)
    ensures EncodeTransactions(order, xs + [t]) == EncodeTransactions(order, xs) + EncodeTransaction(order, t)
  {
    if xs == [] {
      assert [t][1..] == [];
    } else {
      EncodeAppend(order, xs[1..], t);
      assert (xs + [t])[1..] == xs[1..] + [t];
      Assoc(EncodeTransaction(order, xs[0]), EncodeTransactions(order, xs[1..]), EncodeTransaction(order, t));
    }
  }

  lemma Assoc(a: seq<Byte>, b: seq<Byte>, c: seq<Byte>)
    ensures a + (b + c) == a + b + c
  {
  }

  /** The words of a successful reply to `ts` behind its packet header, with every word zero. */
  function BlankReply(ts: seq<Transaction>): seq<Word> {
    if ts == [] then [] else seq(RespWords(ts[0]), _ => 0) + BlankReply(ts[1..])
  }

  lemma {:induction false} BlankAppend(xs: seq<Transaction>, t: Transaction)
    ensures |BlankReply(xs + [t])| == |BlankReply(xs)| + RespWords(t)
  {
    if xs == [] {
      assert [t][1..] == [];
    } else {
      BlankAppend(xs[1..], t);
      assert (xs + [t])[1..] == xs[1..] + [t];
    }
  }

  /** A transaction of one of the six types, with the input words its type calls for. */
  predicate Shaped(t: Transaction) {
    var h := t.outheader;
    && Known(h.tid) && h.version == PROTOCOL_VERSION && h.code == REQUEST
    && |t.input| == InputWords(h.tid, h.words)
  }

  ghost predicate Numbered(ts: seq<Transaction>) {
    forall i :: 0 <= i < |ts| ==> Shaped(ts[i]) && ts[i].outheader.id == i
  }

  /** What every sequence of adds to an empty packet keeps. */
  ghost predicate WellBuilt(p: Packet) {
    && p.header.version == PROTOCOL_VERSION
    && |p.transactions| <= 183 && Numbered(p.transactions)
    && |p.request| == 4 * p.reqlen >= 4
    && p.request[4..] == EncodeTransactions(p.header.order, p.transactions)
    && 1 + 2 * |p.transactions| <= p.reqlen <= CAP && 1 + |p.transactions| <= p.resplen
    && p.resplen == 1 + |BlankReply(p.transactions)|
  }

  lemma EmptyWellBuilt(ptype: Nibble, order: Order)
    ensures WellBuilt(EmptyPacket(ptype, order))
  {
  }

  lemma AddNumbered(p: Packet, t: Transaction)
    requires Numbered(p.transactions) && |p.transactions| < 0x1_0000 && Shaped(t)
    ensures Numbered(Added(p, t).transactions)
    ensures |BlankReply(Added(p, t).transactions)| == |BlankReply(p.transactions)| + RespWords(t)
  {
    BlankAppend(p.transactions, Placed(p, t));
  }

  lemma AddRequest(p: Packet, t: Transaction)
    requires |p.request| >= 4 && p.request[4..] == EncodeTransactions(p.header.order, p.transactions)
    ensures var q := Added(p, t);
            && p.request <= q.request
            && q.request[4..] == EncodeTransactions(q.header.order, q.transactions)
            && |q.request| == |p.request| + 4 * ReqWords(t)
  {
    var e := EncodeTransaction(p.header.order, Placed(p, t));
    EncodeAppend(p.header.order, p.transactions, Placed(p, t));
    assert (p.request + e)[4..] == p.request[4..] + e;
    assert |e| == 4 * ReqWords(t);
  }

  lemma AddWellBuilt(p: Packet, t: Transaction)
    requires WellBuilt(p) && Known(t.outheader.tid)
    requires t.outheader.version == PROTOCOL_VERSION && t.outheader.code == REQUEST
    ensures WellBuilt(Add(p, t))
    ensures p.request <= Add(p, t).request
  {
    if Accepts(p, t) {
      assert Shaped(t);
      AddNumbered(p, t);
      AddRequest(p, t);
    }
  }

  lemma HeaderWellBuilt(p: Packet, id: Half)
    requires WellBuilt(p)
    ensures WellBuilt(WriteHeader(p, id))
    ensures WriteHeader(p, id).request[4..] == p.request[4..]
  {
  }

  // ----- the response budget -----

  /** The request budget is always kept. The response budget is kept by an accepted add exactly when
      the response fits; add lets a response that does not fit through for 255-word reads only. */
  lemma BudgetExact(p: Packet, t: Transaction)
    requires WellBuilt(p) && p.resplen <= CAP && Known(t.outheader.tid) && Accepts(p, t)
    ensures Added(p, t).reqlen <= CAP
    ensures Added(p, t).resplen <= CAP <==>
            !(IsRead(t.outheader.tid) && t.outheader.words == 255 && CAP - p.resplen < 256)
  {
  }

  /** The check that wraps does let a packet overrun: two 255-word reads in one packet. */
  lemma BudgetOverrun(addr: Word, order: Order)
    ensures var t := NewRequestTransaction(READ, 255, addr, [], 0, false, true);
            var p := Added(EmptyPacket(CONTROL, order), t);
            Accepts(EmptyPacket(CONTROL, order), t) && Accepts(p, t) && Added(p, t).resplen > CAP
  {
  }

  // ----- requests round trip -----

  function Item(t: Transaction): RequestItem {
    RequestItem(t.outheader, t.addr, t.input)
  }

  function Items(ts: seq<Transaction>): (items: seq<RequestItem>)
    ensures |items| == |ts|
    ensures forall i :: 0 <= i < |ts| ==> items[i] == Item(ts[i])
  {
    if ts == [] then [] else [Item(ts[0])] + Items(ts[1..])
  }

  lemma {:induction false} DecodeEncoded(order: Order, ts: seq<Transaction>)
    requires forall i :: 0 <= i < |ts| ==> Shaped(ts[i]) && ts[i].outheader.id < 0x1000
    ensures DecodeRequestItems(order, EncodeTransactions(order, ts)) == Some(Items(ts))
  {
    if ts != [] {
      var t, rest, bs := ts[0], EncodeTransactions(order, ts[1..]), EncodeTransactions(order, ts);
      DecodeEncoded(order, ts[1..]);
      EncodedItem(order, t, rest);
    }
  }

  lemma EncodedItem(order: Order, t: Transaction, rest: seq<Byte>)
    requires Shaped(t) && t.outheader.id < 0x1000
    ensures var bs, n := EncodeTransaction(order, t) + rest, 8 + 4 * |t.input|;
            && |bs| >= n
            && DecodeTransactionHeader(bs, order) == Some(t.outheader)
            && GetWord(order, bs[4..]) == t.addr
            && GetWords(order, bs[8..n]) == t.input
            && bs[n..] == rest
  {
    var bs, n := EncodeTransaction(order, t) + rest, 8 + 4 * |t.input|;
    var h, w, ws := EncodeTransactionHeader(t.outheader, order), PutWord(order, t.addr), PutWords(order, t.input);
    assert bs == h + (w + (ws + rest));
    assert bs[..4] == h && bs[4..] == w + (ws + rest) && bs[8..n] == ws && bs[n..] == rest;
    TransactionHeaderInverse(bs, t.outheader, order);
    GetPutWord(order, t.addr, ws + rest);
    GetPutWords(order, t.input);
  }

  /** Decoding the bytes of a packet with its header written gives back the id and the added
      transactions, each with its position as id. */
  lemma RequestRoundTrip(p: Packet, id: Half)
    requires WellBuilt(p) && p.header.ptype == CONTROL
    ensures var q := WriteHeader(p, id);
            DecodeRequest(q.request) == Some((p.header.(pid := id), Items(p.transactions)))
  {
    var q := WriteHeader(p, id);
    PacketHeaderInverse(q.request, q.header);
    assert q.request[..4] == EncodePacketHeader(q.header);
    assert q.request[4..] == p.request[4..];
    DecodeEncoded(p.header.order, p.transactions);
  }

  /** Adding a list of transactions one by one; a refused one leaves the packet as it is. */
  function AddAll(p: Packet, ts: seq<Transaction>): Packet
    decreases |ts|
  {
    if ts == [] then p else AddAll(Add(p, ts[0]), ts[1..])
  }

  predicate Fresh(t: Transaction) {
    Known(t.outheader.tid) && t.outheader.version == PROTOCOL_VERSION && t.outheader.code == REQUEST
  }

  /** For any list of transactions offered to a new packet: later adds never alter earlier bytes, the
      request stays within 368 words and 183 transactions, and it can be decoded again. */
  lemma {:induction false} AddAllRoundTrip(p: Packet, ts: seq<Transaction>, id: Half)
    requires WellBuilt(p) && p.header.ptype == CONTROL
    requires forall i :: 0 <= i < |ts| ==> Fresh(ts[i])
    ensures var q := AddAll(p, ts);
            && WellBuilt(q)
            && p.request <= q.request
            && |WriteHeader(q, id).request| == 4 * q.reqlen <= MAX_PACKET_SIZE - 28
            && |q.transactions| <= 183
            && DecodeRequest(WriteHeader(q, id).request) == Some((p.header.(pid := id), Items(q.transactions)))
    decreases |ts|
  {
    if ts == [] {
      HeaderWellBuilt(p, id);
      RequestRoundTrip(p, id);
    } else {
      AddWellBuilt(p, ts[0]);
      AddAllRoundTrip(Add(p, ts[0]), ts[1..], id);
    }
  }

  // ----- replies -----

  /** One item of a reply as the device writes it. */
  datatype ReplyItem = ReplyItem(header: TransactionHeader, payload: seq<Word>)

  /** The item answers one of `n` transactions and carries the words its header announces. */
  predicate ValidItem(it: ReplyItem, n: nat) {
    it.header.id < n && it.header.id < 0x1000 && |it.payload| == Payload(it.header)
  }

  ghost predicate ValidItems(items: seq<ReplyItem>, n: nat) {
    forall i :: 0 <= i < |items| ==> ValidItem(items[i], n)
  }

  function EncodeReplyItem(order: Order, it: ReplyItem): seq<Byte> {
    EncodeTransactionHeader(it.header, order) + PutWords(order, it.payload)
  }

  function EncodeReplyItems(order: Order, items: seq<ReplyItem>): seq<Byte> {
    if items == [] then [] else EncodeReplyItem(order, items[0]) + EncodeReplyItems(order, items[1..])
  }

  /** The response a requester should see: the code, and the words in the form asked for. */
  function ResponseFor(t: Transaction, order: Order, code: Nibble, words: seq<Word>): Response {
    if code != SUCCESS then Response(IPbusError(code), code, [], [])
    else if t.byteslice then Response(NoError, code, [], PutWords(order, words))
    else Response(NoError, code, words, [])
  }

  function Responses(ts: seq<Transaction>, order: Order, items: seq<ReplyItem>): (rs: seq<Response>)
    requires forall i :: 0 <= i < |items| ==> items[i].header.id < |ts|
    ensures |rs| == |items|
    ensures forall i :: 0 <= i < |items| ==>
              rs[i] == ResponseFor(ts[items[i].header.id], order, items[i].header.code, items[i].payload)
  {
    if items == [] then []
    else
      [ResponseFor(ts[items[0].header.id], order, items[0].header.code, items[0].payload)]
      + Responses(ts, order, items[1..])
  }

  lemma EncodedReplyItem(order: Order, it: ReplyItem, rest: seq<Byte>, t: Transaction, n: nat)
    requires ValidItem(it, n)
    ensures var bs, size := EncodeReplyItem(order, it) + rest, 4 + 4 * |it.payload|;
            && |bs| >= size && bs[size..] == rest
            && DecodeTransactionHeader(bs, order) == Some(it.header)
            && ResponseTo(t, order, it.header, bs[4..size]) == ResponseFor(t, order, it.header.code, it.payload)
  {
    var bs, size := EncodeReplyItem(order, it) + rest, 4 + 4 * |it.payload|;
    var h, ws := EncodeTransactionHeader(it.header, order), PutWords(order, it.payload);
    assert bs == h + (ws + rest);
    assert bs[..4] == h && bs[4..size] == ws && bs[size..] == rest;
    TransactionHeaderInverse(bs, it.header, order);
    GetPutWords(order, it.payload);
  }

  /** parse recovers every code and every word, in the order of the reply. */
  lemma {:induction false} ParseEncoded(ts: seq<Transaction>, order: Order, items: seq<ReplyItem>)
    requires ValidItems(items, |ts|)
    ensures ParseItems(ts, order, EncodeReplyItems(order, items)) == Parsed(Responses(ts, order, items))
    decreases |items|
  {
    if items != [] {
      var it, rest := items[0], EncodeReplyItems(order, items[1..]);
      assert ValidItem(it, |ts|);
      ParseEncoded(ts, order, items[1..]);
      EncodedReplyItem(order, it, rest, ts[it.header.id], |ts|);
    }
  }

  /** The items a reply holds, read by their own headers. */
  function ReplyItemsOf(order: Order, data: seq<Byte>): seq<ReplyItem>
    decreases |data|
  {
    match DecodeTransactionHeader(data, order)
    case None => []
    case Some(h) =>
      var n := 4 + 4 * Payload(h);
      if |data| < n then [] else [ReplyItem(h, GetWords(order, data[4..n]))] + ReplyItemsOf(order, data[n..])
  }

  lemma ReplyItemAt(order: Order, data: seq<Byte>, h: TransactionHeader)
    requires DecodeTransactionHeader(data, order) == Some(h) && |data| >= 4 + 4 * Payload(h)
    ensures var n, it := 4 + 4 * Payload(h), ReplyItem(h, GetWords(order, data[4..4 + 4 * Payload(h)]));
            data == EncodeReplyItem(order, it) + data[n..] && |it.payload| == Payload(h) && h.id < 0x1000
  {
    var n := 4 + 4 * Payload(h);
    TransactionHeaderInverse(data, h, order);
    PutGetWords(order, data[4..n]);
    assert data == data[..4] + data[4..n] + data[n..];
  }

  /** One round of a parse loop that ends well. */
  lemma ParsedRound(ts: seq<Transaction>, order: Order, data: seq<Byte>) returns (h: TransactionHeader)
    requires data != [] && ParseItems(ts, order, data).Parsed?
    ensures DecodeTransactionHeader(data, order) == Some(h)
    ensures h.id < |ts| && |data| >= 4 + 4 * Payload(h) && ParseItems(ts, order, data[4 + 4 * Payload(h)..]).Parsed?
  {
    h := DecodeTransactionHeader(data, order).value;
  }

  lemma {:induction false} ParsedIsReply(ts: seq<Transaction>, order: Order, data: seq<Byte>)
    requires ParseItems(ts, order, data).Parsed?
    ensures ValidItems(ReplyItemsOf(order, data), |ts|)
    ensures data == EncodeReplyItems(order, ReplyItemsOf(order, data))
    decreases |data|
  {
    if data != [] {
      var h := ParsedRound(ts, order, data);
      var n := 4 + 4 * Payload(h);
      ReplyItemAt(order, data, h);
      ParsedIsReply(ts, order, data[n..]);
      var it, rest := ReplyItem(h, GetWords(order, data[4..n])), ReplyItemsOf(order, data[n..]);
      assert ReplyItemsOf(order, data) == [it] + rest;
      assert ([it] + rest)[1..] == rest;
    }
  }

  /** The parse loop ends well exactly when the bytes are a list of items that answer transactions of
      the packet, and then gives each item's code and words; otherwise the program panics or never
      returns. */
  lemma ParseExact(ts: seq<Transaction>, order: Order, data: seq<Byte>)
    ensures ParseItems(ts, order, data).Parsed? <==>
            exists items :: ValidItems(items, |ts|) && data == EncodeReplyItems(order, items)
    ensures forall items :: ValidItems(items, |ts|) && data == EncodeReplyItems(order, items) ==>
              ParseItems(ts, order, data) == Parsed(Responses(ts, order, items))
  {
    if ParseItems(ts, order, data).Parsed? {
      ParsedIsReply(ts, order, data);
    }
    forall items | ValidItems(items, |ts|) && data == EncodeReplyItems(order, items)
      ensures ParseItems(ts, order, data) == Parsed(Responses(ts, order, items))
    {
      ParseEncoded(ts, order, items);
    }
  }

  /** The items before the tail that a spinning loop never gets past. */
  lemma {:induction false} SpinsTail(ts: seq<Transaction>, order: Order, data: seq<Byte>)
    returns (items: seq<ReplyItem>, tail: seq<Byte>)
    requires ParseItems(ts, order, data) == Spins
    ensures ts != [] && ValidItems(items, |ts|) && 1 <= |tail| <= 3
    ensures data == EncodeReplyItems(order, items) + tail
    decreases |data|
  {
    if |data| < 4 {
      items, tail := [], data;
      assert [] + tail == tail;
    } else {
      var h := DecodeTransactionHeader(data, order).value;
      var n := 4 + 4 * Payload(h);
      ReplyItemAt(order, data, h);
      var it := ReplyItem(h, GetWords(order, data[4..n]));
      var rest;
      rest, tail := SpinsTail(ts, order, data[n..]);
      items := [it] + rest;
      assert items[1..] == rest;
      Assoc(EncodeReplyItem(order, it), EncodeReplyItems(order, rest), tail);
    }
  }

  lemma {:induction false} TailSpins(ts: seq<Transaction>, order: Order, items: seq<ReplyItem>, tail: seq<Byte>)
    requires ts != [] && ValidItems(items, |ts|) && 1 <= |tail| <= 3
    ensures ParseItems(ts, order, EncodeReplyItems(order, items) + tail) == Spins
    decreases |items|
  {
    if items == [] {
      assert [] + tail == tail;
    } else {
      var it, rest := items[0], EncodeReplyItems(order, items[1..]);
      assert ValidItem(it, |ts|);
      TailSpins(ts, order, items[1..], tail);
      EncodedReplyItem(order, it, rest + tail, ts[it.header.id], |ts|);
      Assoc(EncodeReplyItem(order, it), rest, tail);
    }
  }

  /** The parse loop never ends exactly when the packet has transactions and the bytes are valid items
      with one to three bytes behind them. */
  lemma SpinsExact(ts: seq<Transaction>, order: Order, data: seq<Byte>)
    ensures ParseItems(ts, order, data) == Spins <==>
            exists items, tail :: ts != [] && ValidItems(items, |ts|) && 1 <= |tail| <= 3 &&
                                  data == EncodeReplyItems(order, items) + tail
  {
    if ParseItems(ts, order, data) == Spins {
      var items, tail := SpinsTail(ts, order, data);
    }
    forall items, tail | ts != [] && ValidItems(items, |ts|) && 1 <= |tail| <= 3 &&
                         data == EncodeReplyItems(order, items) + tail
      ensures ParseItems(ts, order, data) == Spins
    {
      TailSpins(ts, order, items, tail);
    }
  }

  /** The reply of a device that answers the first transactions of a request in order. */
  function EncodeReply(pid: Half, order: Order, items: seq<ReplyItem>): seq<Byte> {
    EncodePacketHeader(PacketHeader(PROTOCOL_VERSION, pid, CONTROL, order)) + EncodeReplyItems(order, items)
  }

  /** Whatever prefix of the transactions the reply answers, in either byte order, parse gives each
      answered one its exact response and the others an error, so send finds a reply for each. */
  lemma ReplyRoundTrip(p: Packet, pid: Half, order: Order, items: seq<ReplyItem>)
    requires p.replies == [] && |items| <= |p.transactions| <= 0x1000
    requires forall i :: 0 <= i < |items| ==> items[i].header.id == i && |items[i].payload| == Payload(items[i].header)
    ensures var o := Parse(p, EncodeReply(pid, order, items));
            && o.Parsed? && |o.replies| == |p.transactions|
            && (forall i :: 0 <= i < |items| ==>
                  o.replies[i] == ResponseFor(p.transactions[i], order, items[i].header.code, items[i].payload))
            && (forall i :: |items| <= i < |o.replies| ==> o.replies[i] == MISSING)
  {
    var h := PacketHeader(PROTOCOL_VERSION, pid, CONTROL, order);
    var data := EncodeReply(pid, order, items);
    assert data[..4] == EncodePacketHeader(h) && data[4..] == EncodeReplyItems(order, items);
    PacketHeaderInverse(data, h);
    assert ValidItems(items, |p.transactions|);
    ParseEncoded(p.transactions, order, items);
  }
}
