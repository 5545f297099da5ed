/** The packet structure of transaction.go, updated in place. */
module PacketObject {
  import opened Wire
  import P = Packets

  method PutWordAt(data: array<Byte>, off: nat, order: Order, w: Word)
    requires off + 4 <= data.Length
    modifies data
    ensures data[..] == old(data[..off]) + PutWord(order, w) + old(data[off + 4..])
    ensures data[..off + 4] == old(data[..off]) + PutWord(order, w)
  {
    var bs := PutWord(order, w);
    data[off], data[off + 1], data[off + 2], data[off + 3] := bs[0], bs[1], bs[2], bs[3];
  }

  class Packet {
    var header: PacketHeader
    var id: Half
    var transactions: seq<P.Transaction>
    var replies: seq<P.Response>
    var reqlen: nat
    var resplen: nat
    var request: seq<Byte>

    ghost function Value(): P.Packet
      reads this
    {
      P.Packet(header, id, transactions, replies, reqlen, resplen, request)
    }

    constructor (ptype: Nibble, order: Order)
      ensures Value() == P.EmptyPacket(ptype, order)
    {
      header := PacketHeader(PROTOCOL_VERSION, 0, ptype, order);
      id, transactions, replies, reqlen, resplen, request := 0, [], [], 1, 1, [0, 0, 0, 0];
    }

    method Space() returns (reqspace: nat, respspace: nat)
      ensures reqspace == P.ReqSpace(Value()) && respspace == P.RespSpace(Value())
    {
      reqspace, respspace := P.USub(P.CAP, reqlen), P.USub(P.CAP, resplen);
    }

    /** Address and input words as bytes. */
    method DataBytes(trans: P.Transaction) returns (bytes: seq<Byte>)
      ensures bytes == PutWord(header.order, trans.addr) + PutWords(header.order, trans.input)
    {
      var data := new Byte[4 * |trans.input| + 4](_ => 0);
      PutWordAt(data, 0, header.order, trans.addr);
      ghost var done := PutWord(header.order, trans.addr);
      assert trans.input[..0] == [] && done + [] == done;
      for i := 0 to |trans.input|
        invariant data[..4 * i + 4] == done
        invariant done == PutWord(header.order, trans.addr) + PutWords(header.order, trans.input[..i])
      {
        var val := trans.input[i];
        PutWordAt(data, 4 * i + 4, header.order, val);
        PutWordsNext(header.order, trans.input, i);
        JoinBytes(PutWord(header.order, trans.addr), PutWords(header.order, trans.input[..i]),
                  PutWord(header.order, val));
        done := done + PutWord(header.order, val);
      }
      assert trans.input[..|trans.input|] == trans.input;
      bytes := data[..];
    }

    /** The checks of add, and the space the transaction takes up. */
    method Reserve(trans: P.Transaction) returns (ok: bool)
      modifies this`reqlen, this`resplen
      ensures ok <==> P.Accepts(old(Value()), trans)
      ensures Value() == if ok then
                           var p := P.Added(old(Value()), trans);
                           old(Value()).(reqlen := p.reqlen, resplen := p.resplen)
                         else old(Value())
    {
      var reqspace, respspace := Space();
      var tid, words := trans.outheader.tid, trans.outheader.words as int;
      if tid == READ || tid == READ_NON_INC {
        if |trans.input| > 0 {
          return false;
        }
        if reqspace < 2 || respspace < (words + 1) % 0x100 {
          return false;
        }
        reqlen := reqlen + 2;
        resplen := resplen + words + 1;
      } else if tid == WRITE || tid == WRITE_NON_INC {
        if |trans.input| != words {
          return false;
        }
        if reqspace < words + 2 || respspace < 1 {
          return false;
        }
        reqlen := reqlen + words + 2;
        resplen := resplen + 1;
      } else if tid == RMW_BITS {
        if |trans.input| != 2 {
          return false;
        }
        if reqspace < 4 || respspace < 2 {
          return false;
        }
        reqlen := reqlen + 4;
        resplen := resplen + 2;
      } else if tid == RMW_SUM {
        if |trans.input| != 1 {
          return false;
        }
        if reqspace < 3 || respspace < 2 {
          return false;
        }
        reqlen := reqlen + 3;
        resplen := resplen + 2;
      }
      ok := true;
    }

    method Add(trans: P.Transaction) returns (ok: bool)
      modifies this`reqlen, this`resplen, this`request, this`transactions
      ensures ok <==> P.Accepts(old(Value()), trans)
      ensures Value() == P.Add(old(Value()), trans)
    {
      ok := Reserve(trans);
      if !ok {
        return;
      }
      var placed := trans.(outheader := trans.outheader.(id := |transactions| % 0x1_0000));
      var transhead := EncodeTransactionHeader(placed.outheader, header.order);
      var data := DataBytes(placed);
      ghost var before := request;
      request := request + transhead;
      request := request + data;
      Joined(before, transhead, PutWord(header.order, placed.addr), PutWords(header.order, placed.input));
      transactions := transactions + [placed];
    }

    method WriteHeader(pid: Half) returns (ok: bool)
      modifies this`header, this`id, this`request
      ensures ok <==> |old(request)| >= 4
      ensures Value() == P.WriteHeader(old(Value()), pid)
    {
      header := header.(pid := pid);
      id := pid;
      if |request| < 4 {
        return false;
      }
      request := EncodePacketHeader(header) + request[4..];
      ok := true;
    }

    /** One round of the loop of parse: the response and the bytes behind it, unless they are too few. */
    method ParseItem(trans: P.Transaction, h: TransactionHeader, bytes: seq<Byte>, order: Order)
      returns (ok: bool, resp: P.Response, data: seq<Byte>)
      requires |bytes| >= 4
      ensures var n := 4 + 4 * P.Payload(h);
              && (ok <==> n <= |bytes|)
              && (ok ==> data == bytes[n..] && resp == P.ResponseTo(trans, order, h, bytes[4..n]))
    {
      resp := P.Response(P.NoError, h.code, [], []);
      data := bytes[4..];
      if h.code == SUCCESS {
        if P.IsRead(h.tid) {
          var size := h.words as int * 4;
          if |data| < size {
            return false, resp, data;
          }
          assert bytes[4..4 + size] == data[..size] && bytes[4 + size..] == data[size..];
          if trans.byteslice {
            resp := resp.(dataB := data[..size]);
          } else {
            var ws := BytesToWords(data[..size], order);
            resp := resp.(data := ws);
          }
          data := data[size..];
        } else if h.tid == RMW_BITS || h.tid == RMW_SUM {
          if |data| < 4 {
            return false, resp, data;
          }
          assert bytes[4..8] == data[..4] && bytes[8..] == data[4..];
          if trans.byteslice {
            resp := resp.(dataB := data[..4]);
          } else {
            var ws := BytesToWords(data[..4], order);
            resp := resp.(data := ws);
          }
          data := data[4..];
        }
      } else {
        resp := resp.(err := P.IPbusError(h.code));
      }
      ok := true;
    }

    /** One round of the loop of parse, from header to response. */
    method ParseRound(data: seq<Byte>, order: Order) returns (round: P.ParseOutcome, rest: seq<Byte>)
      requires data != []
      ensures round.Parsed? ==> |rest| < |data| && |round.replies| == 1
      ensures P.ParseItems(transactions, order, data) ==
              if round.Parsed? then P.Prepend(round.replies, P.ParseItems(transactions, order, rest)) else round
    {
      rest := data;
      var transheader := DecodeTransactionHeader(data, order);
      var tid := if transheader.Some? then transheader.value.id as int else 0;
      if tid >= |transactions| {
        return P.Panics, rest;
      }
      if transheader.None? {
        return P.Spins, rest;
      }
      var ok, resp;
      ok, resp, rest := ParseItem(transactions[tid], transheader.value, data, order);
      round := if ok then P.Parsed([resp]) else P.Panics;
    }

    /** The loop over the items of a control reply; stops where the program panics or spins. */
    method ParseItems(bytes: seq<Byte>, order: Order) returns (outcome: P.ParseOutcome)
      modifies this`replies
      ensures outcome == P.ParseItems(transactions, order, bytes)
      ensures outcome.Parsed? ==> replies == old(replies) + outcome.replies
    {
      var data, before := bytes, |replies|;
      ghost var got := [];
      ghost var goal := P.ParseItems(transactions, order, bytes);
      while |data| > 0
        invariant replies == old(replies) + got
        invariant goal == P.Prepend(got, P.ParseItems(transactions, order, data))
        decreases |data|
      {
        var round, rest := ParseRound(data, order);
        if !round.Parsed? {
          return round;
        }
        P.PrependTwice(got, round.replies, P.ParseItems(transactions, order, rest));
        data := rest;
        replies := replies + round.replies;
        got := got + round.replies;
      }
      assert P.ParseItems(transactions, order, data) == P.Parsed([]);
      assert got + [] == got == replies[before..];
      outcome := P.Parsed(replies[before..]);
    }

    /** The loops that append one error reply after another. */
    method Fill(resp: P.Response, count: nat)
      modifies this`replies
      ensures replies == old(replies) + P.Repeat(resp, count)
    {
      for i := 0 to count
        invariant replies == old(replies) + P.Repeat(resp, i)
      {
        replies := replies + [resp];
        assert P.Repeat(resp, i + 1) == P.Repeat(resp, i) + [resp];
      }
    }

    /** Parse a reply; the outcome says whether the program panics or never returns. */
    method Parse(data: seq<Byte>) returns (outcome: P.ParseOutcome)
      modifies this`replies
      ensures outcome == P.Parse(old(Value()), data)
      ensures outcome.Parsed? ==> Value() == old(Value()).(replies := outcome.replies)
    {
      var packheader := DecodePacketHeader(data);
      if packheader.None? {
        Fill(P.UNREADABLE, |transactions|);
        return P.Parsed(replies);
      }
      if packheader.value.ptype == CONTROL {
        var items := ParseItems(data[4..], packheader.value.order);
        if !items.Parsed? {
          return items;
        }
        if |replies| < |transactions| {
          Fill(P.MISSING, |transactions| - |replies|);
        }
      }
      outcome := P.Parsed(replies);
    }

    /** Send the replies to their channels; false stands for the panic on a missing reply. */
    method Send() returns (ok: bool, events: seq<P.ChanEvent>)
      ensures ok <==> |transactions| <= |replies|
      ensures ok ==> events == P.SendAll(transactions, replies)
    {
      events := [];
      for i := 0 to |transactions|
        invariant i <= |replies|
        invariant |transactions| <= |replies| ==>
                    events + P.SendAll(transactions[i..], replies[i..]) == P.SendAll(transactions, replies)
      {
        if i >= |replies| {
          return false, events;
        }
        var tr := transactions[i];
        ghost var before := events;
        events := events + [P.Put(tr.resp, replies[i])];
        if tr.closechan {
          events := events + [P.Close(tr.resp)];
        }
        assert events == before + P.SendOne(tr, replies[i]);
        if |transactions| <= |replies| {
          SendNextOne(transactions, replies, i, before);
        }
      }
      ok := true;
    }
  }

  lemma SendNextOne(ts: seq<P.Transaction>, replies: seq<P.Response>, i: nat, before: seq<P.ChanEvent>)
    requires i < |ts| <= |replies|
    ensures before + P.SendAll(ts[i..], replies[i..]) ==
            before + P.SendOne(ts[i], replies[i]) + P.SendAll(ts[i + 1..], replies[i + 1..])
  {
    assert ts[i..][1..] == ts[i + 1..] && replies[i..][1..] == replies[i + 1..];
    assert ts[i..][0] == ts[i] && replies[i..][0] == replies[i];
  }

  lemma Joined(a: seq<Byte>, b: seq<Byte>, c: seq<Byte>, d: seq<Byte>)
    ensures a + b + (c + d) == a + (b + c + d)
  {
  }
}
