/** The rules of packets in plain numbers: what add accepts, how long replies get, and what parse makes of
  * replies it cannot use. */
module PacketRules {
  import opened Wire
  import opened Packets
  import opened PacketProofs
  import opened Packer
  import opened Devices

  /** Words of data behind address or header: types 0 and 2 read, 1 and 3 write, 4 RMWbits, 5 RMWsum. */
  lemma TypeSizes(tid: Nibble, n: Byte)
    ensures InputWords(tid, n) ==
            (if tid == 1 || tid == 3 then n else if tid == 4 then 2 else if tid == 5 then 1 else 0)
    ensures PayloadWords(tid, n) == (if tid == 0 || tid == 2 then n else if tid == 4 || tid == 5 then 1 else 0)
  {
  }

  /** There is room for `n` more words. A length beyond the budget leaves room for anything, since the
      difference is unsigned. */
  predicate Room(len: nat, n: nat) {
    len > 368 || len + n <= 368
  }

  /** What add accepts. A request of a type that does not exist is not checked at all. */
  lemma AcceptsExact(p: Packet, t: Transaction)
    requires p.reqlen < 0x1000 && p.resplen < 0x1000
    ensures var c, n := t.outheader.tid, t.outheader.words as int;
            Accepts(p, t) <==>
            (c == 0 || c == 2 ==>
               t.input == [] && Room(p.reqlen, 2) && Room(p.resplen, if n == 255 then 0 else n + 1)) &&
            (c == 1 || c == 3 ==> |t.input| == n && Room(p.reqlen, n + 2) && Room(p.resplen, 1)) &&
            (c == 4 ==> |t.input| == 2 && Room(p.reqlen, 4) && Room(p.resplen, 2)) &&
            (c == 5 ==> |t.input| == 1 && Room(p.reqlen, 3) && Room(p.resplen, 2))
  {
  }

  // ----- how long a reply gets -----

  lemma {:induction false} ReplyLength(ts: seq<Transaction>, answers: seq<Answer>, order: Order)
    requires |ts| == |answers| && forall i :: 0 <= i < |ts| ==> Fits(OpOf(ts[i]), answers[i])
    ensures var n := |EncodeReplyItems(order, ReplyItems(ts, answers))|;
            && n <= 4 * |BlankReply(ts)|
            && ((forall i :: 0 <= i < |answers| ==> answers[i].code == 0) ==> n == 4 * |BlankReply(ts)|)
    decreases |ts|
  {
    if ts != [] {
      var items := ReplyItems(ts, answers);
      assert Fits(OpOf(ts[0]), answers[0]);
      assert items[1..] == ReplyItems(ts[1..], answers[1..]);
      ReplyLength(ts[1..], answers[1..], order);
    }
  }

  /** The reply to a prepared packet never has more bytes than the packet accounts for, and exactly as many
      if every transaction succeeds: at most 1472. */
  lemma ReplyFits(p: Packet, id: Half, order: Order, answers: seq<Answer>)
    requires Ready(p) && Within(p) && |answers| == |p.transactions|
    requires forall i :: 0 <= i < |answers| ==> Fits(OpOf(p.transactions[i]), answers[i])
    ensures var n := |EncodeReply(id, order, ReplyItems(p.transactions, answers))|;
            && n <= 4 * p.resplen <= 1472
            && ((forall i :: 0 <= i < |answers| ==> answers[i].code == 0) ==> n == 4 * p.resplen)
  {
    ReplyLength(p.transactions, answers, order);
  }

  // ----- what parse makes of a reply -----

  /** A response is without error exactly if the info code is 0; only then it carries words, as words or as
      bytes. */
  lemma ResponseMeans(t: Transaction, order: Order, code: Nibble, ws: seq<Word>)
    ensures var r := ResponseFor(t, order, code, ws);
            && r.code == code && (r.err == NoError <==> code == 0)
            && r.data == (if code == 0 && !t.byteslice then ws else [])
            && r.dataB == (if code == 0 && t.byteslice then PutWords(order, ws) else [])
  {
  }

  /** A reply without a packet header gives every transaction an error with code 14; one of another type
      than 0 gives no response at all. */
  lemma ParseRefuses(p: Packet, data: seq<Byte>)
    ensures DecodePacketHeader(data) == None ==>
              var o := Parse(p, data);
              && o.Parsed? && |o.replies| == |p.replies| + |p.transactions| && p.replies <= o.replies
              && forall i :: |p.replies| <= i < |o.replies| ==> o.replies[i] == Response(BadPacketHeader, 14, [], [])
    ensures DecodePacketHeader(data).Some? && DecodePacketHeader(data).value.ptype != 0 ==>
              Parse(p, data) == Parsed(p.replies)
  {
  }

  /** Transactions that the reply leaves out get an error with code 14. */
  lemma ParsePads(p: Packet, data: seq<Byte>)
    requires DecodePacketHeader(data).Some? && DecodePacketHeader(data).value.ptype == 0
    ensures var h := DecodePacketHeader(data).value;
            match ParseItems(p.transactions, h.order, data[4..])
            case Parsed(rs) =>
              var o := Parse(p, data);
              && o.Parsed? && p.replies + rs <= o.replies
              && (|o.replies| == if |p.replies| + |rs| < |p.transactions| then |p.transactions| else |p.replies| + |rs|)
              && (forall i :: |p.replies| + |rs| <= i < |o.replies| ==>
                    o.replies[i] == Response(InsufficientBytes, 14, [], []))
            case bad => Parse(p, data) == bad
  {
  }
}
