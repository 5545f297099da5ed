/** How tightly requests are packed: a new packet only when the last one is full for the next piece, and
  * pieces as large as the packet and the 255-word limit allow. */
module PackerGreedy {
  import opened Wire
  import opened Packets
  import opened PacketProofs
  import opened Packer

  // ----- when a new packet is started -----

  /** Packet `p` has too little space for a transaction of type `c`: 0 and 2 are reads, 1 and 3 writes,
      4 RMWbits, 5 RMWsum. A read may be cut to one word, a write too. */
  predicate Short(p: Packet, c: Nibble) {
    var req, resp := 368 - p.reqlen, 368 - p.resplen;
    if c == 0 || c == 2 then req < 2 || resp < 2
    else if c == 1 || c == 3 then req < 3 || resp < 1
    else if c == 4 then req < 4 || resp < 2
    else req < 3 || resp < 2
  }

  /** Every packet but the first begins with a transaction for which the one before has too little space. */
  ghost predicate Tight(packs: seq<Packet>) {
    forall i :: 0 < i < |packs| ==>
      packs[i].transactions != [] && Short(packs[i - 1], packs[i].transactions[0].outheader.tid)
  }

  /** A non-closing piece has 255 words, or it is the last of its packet and fills its reply (read) or
      the packet itself (write). */
  predicate Full(p: Packet, j: nat)
    requires j < |p.transactions|
  {
    var t := p.transactions[j];
    || t.closechan || t.outheader.words == 255
    || (j == |p.transactions| - 1 &&
        if t.outheader.tid == 0 || t.outheader.tid == 2 then p.resplen == 368 else p.reqlen == 368)
  }

  ghost predicate Greedy(p: Packet) {
    forall j :: 0 <= j < |p.transactions| ==> Full(p, j)
  }

  ghost predicate AllGreedy(packs: seq<Packet>) {
    forall i :: 0 <= i < |packs| ==> Greedy(packs[i])
  }

  ghost predicate Ordered(packs: seq<Packet>, order: Order) {
    forall i :: 0 <= i < |packs| ==> packs[i].header.order == order
  }

  /** What all the packets being filled keep. */
  ghost predicate Packed(packs: seq<Packet>, order: Order) {
    Tight(packs) && AllGreedy(packs) && Ordered(packs, order) && AllWithin(packs)
  }

  /** `ps` is `packs` with room made for type `c`: unchanged if there is space, one packet longer if not. */
  ghost predicate Roomed(packs: seq<Packet>, ps: seq<Packet>, c: Nibble, order: Order) {
    || (ps == packs && packs != [] && !Short(Last(packs), c))
    || (packs != [] && ps == packs + [EmptyPacket(CONTROL, order)] && Short(Last(packs), c))
  }

  /** MakeRoom in plain numbers. */
  lemma RoomNumbers(packs: seq<Packet>, order: Order)
    requires packs != [] && AllWithin(packs)
    ensures Roomed(packs, MakeRoom(packs, 2, 2, order), 0, order)
    ensures Roomed(packs, MakeRoom(packs, 2, 2, order), 2, order)
    ensures Roomed(packs, MakeRoom(packs, 3, 1, order), 1, order)
    ensures Roomed(packs, MakeRoom(packs, 3, 1, order), 3, order)
    ensures Roomed(packs, MakeRoom(packs, 4, 2, order), 4, order)
    ensures Roomed(packs, MakeRoom(packs, 3, 2, order), 5, order)
  {
    assert Within(Last(packs));
  }

  /** A transaction that is as large as it can be joins the last packet. */
  lemma JoinPacked(packs: seq<Packet>, ps: seq<Packet>, t: Transaction, order: Order)
    requires Packed(packs, order) && Roomed(packs, ps, t.outheader.tid, order)
    requires Accepts(Last(ps), t) && AllWithin(AddLast(ps, t)) && Known(t.outheader.tid)
    requires var q := Added(Last(ps), t);
             || t.closechan || t.outheader.words == 255
             || (if t.outheader.tid == 0 || t.outheader.tid == 2 then q.resplen == 368 else q.reqlen == 368)
    ensures Packed(AddLast(ps, t), order)
  {
    JoinTight(packs, ps, t, order);
    JoinGreedy(packs, ps, t, order);
  }

  lemma JoinTight(packs: seq<Packet>, ps: seq<Packet>, t: Transaction, order: Order)
    requires Tight(packs) && Ordered(packs, order) && Roomed(packs, ps, t.outheader.tid, order) && Accepts(Last(ps), t)
    ensures Tight(AddLast(ps, t)) && Ordered(AddLast(ps, t), order)
  {
    var r, n := AddLast(ps, t), |ps| - 1;
    forall i | 0 < i < |r|
      ensures r[i].transactions != [] && Short(r[i - 1], r[i].transactions[0].outheader.tid)
    {
      assert r[i - 1] == ps[i - 1];
      if i < n {
        assert r[i] == packs[i];
      } else if ps != packs {
        assert r[i].transactions == [Placed(Last(ps), t)];
      }
    }
  }

  /** A packet whose last piece fills it has no room for anything more. */
  lemma FullIsShort(p: Packet, c: Nibble)
    requires p.resplen == 368 || p.reqlen == 368
    ensures Short(p, c)
  {
  }

  lemma JoinGreedy(packs: seq<Packet>, ps: seq<Packet>, t: Transaction, order: Order)
    requires AllGreedy(packs) && Roomed(packs, ps, t.outheader.tid, order) && Accepts(Last(ps), t)
    requires var q := Added(Last(ps), t);
             || t.closechan || t.outheader.words == 255
             || (if t.outheader.tid == 0 || t.outheader.tid == 2 then q.resplen == 368 else q.reqlen == 368)
    ensures AllGreedy(AddLast(ps, t))
  {
    var p, q := Last(ps), Added(Last(ps), t);
    forall j | 0 <= j < |q.transactions|
      ensures Full(q, j)
    {
      if j < |p.transactions| {
        assert ps == packs && Full(p, j);
      }
    }
    assert forall i :: 0 <= i < |ps| - 1 ==> AddLast(ps, t)[i] == packs[i];
  }

  // ----- requests -----

  /** A piece of a read that does not close its channel has 255 words or fills the reply. */
  lemma ReadFills(p: Packet, req: UserRequest, n: Byte)
    requires Within(p) && IsRead(req.typeid) && req.input == []
    requires 1 <= n <= req.nwords && n as int == ReadSize(p, req) && RespSpace(p) == 368 - p.resplen
    ensures var t := Chunk(req, n); t.closechan || t.outheader.words == 255 || Added(p, t).resplen == 368
  {
  }

  lemma WriteFills(p: Packet, req: UserRequest, n: Byte)
    requires Within(p) && IsWrite(req.typeid)
    requires 1 <= n <= |req.input| && n as int == WriteSize(p, req) && ReqSpace(p) == 368 - p.reqlen
    ensures var t := Chunk(req, n); t.closechan || t.outheader.words == 255 || Added(p, t).reqlen == 368
  {
  }

  lemma ReadPacked(packs: seq<Packet>, req: UserRequest, order: Order)
    requires packs != [] && Packed(packs, order) && IsRead(req.typeid) && req.input == [] && req.nwords > 0
    ensures var ps := MakeRoom(packs, 2, 2, order);
            var n := ReadSize(Last(ps), req);
            1 <= n <= 255 && n <= req.nwords && Packed(AddLast(ps, Chunk(req, n)), order)
  {
    var ps := MakeRoom(packs, 2, 2, order);
    MakeRoomWithin(packs, 2, 2, order);
    ReadRound(packs, req, order);
    RoomNumbers(packs, order);
    SpacesLeft(ps);
    var n := ReadSize(Last(ps), req);
    ReadFills(Last(ps), req, n);
    JoinPacked(packs, ps, Chunk(req, n), order);
  }

  lemma WritePacked(packs: seq<Packet>, req: UserRequest, order: Order)
    requires packs != [] && Packed(packs, order) && IsWrite(req.typeid) && req.input != []
    ensures var ps := MakeRoom(packs, 3, 1, order);
            var n := WriteSize(Last(ps), req);
            1 <= n <= 255 && n <= |req.input| && Packed(AddLast(ps, Chunk(req, n)), order)
  {
    var ps := MakeRoom(packs, 3, 1, order);
    MakeRoomWithin(packs, 3, 1, order);
    WriteRound(packs, req, order);
    RoomNumbers(packs, order);
    SpacesLeft(ps);
    var n := WriteSize(Last(ps), req);
    WriteFills(Last(ps), req, n);
    JoinPacked(packs, ps, Chunk(req, n), order);
  }

  lemma {:induction false} ReadsPacked(packs: seq<Packet>, req: UserRequest, order: Order)
    requires packs != [] && Packed(packs, order) && IsRead(req.typeid) && req.input == []
    ensures Packed(PrepareRead(packs, req, order), order)
    decreases req.nwords
  {
    if req.nwords > 0 {
      ReadPacked(packs, req, order);
      var ps := MakeRoom(packs, 2, 2, order);
      var n := ReadSize(Last(ps), req);
      ReadsPacked(AddLast(ps, Chunk(req, n)), After(req, n), order);
    }
  }

  lemma {:induction false} WritesPacked(packs: seq<Packet>, req: UserRequest, order: Order)
    requires packs != [] && Packed(packs, order) && IsWrite(req.typeid)
    ensures Packed(PrepareWrite(packs, req, order), order)
    decreases |req.input|
  {
    if req.input != [] {
      WritePacked(packs, req, order);
      var ps := MakeRoom(packs, 3, 1, order);
      var n := WriteSize(Last(ps), req);
      WritesPacked(AddLast(ps, Chunk(req, n)), After(req, n), order);
    }
  }

  lemma SinglePacked(packs: seq<Packet>, req: UserRequest, room: nat, order: Order)
    requires packs != [] && Packed(packs, order)
    requires (req.typeid == RMW_BITS && |req.input| == 2 && room == 4)
          || (req.typeid == RMW_SUM && |req.input| == 1 && room == 3)
    ensures Packed(AddLast(MakeRoom(packs, room, 2, order), Single(req)), order)
  {
    var ps := MakeRoom(packs, room, 2, order);
    MakeRoomWithin(packs, room, 2, order);
    AddLastWithin(ps, Single(req));
    RoomNumbers(packs, order);
    JoinPacked(packs, ps, Single(req), order);
  }

  lemma RequestPacked(packs: seq<Packet>, req: UserRequest, order: Order)
    requires Packed(packs, order) && Proper(req) && !req.dispatch
    ensures Packed(PrepareRequest(packs, req, order), order)
  {
    var ps := if packs == [] then [EmptyPacket(CONTROL, order)] else packs;
    assert Packed(ps, order);
    if IsRead(req.typeid) {
      ReadsPacked(ps, req, order);
    } else if IsWrite(req.typeid) {
      WritesPacked(ps, req, order);
    } else {
      SinglePacked(ps, req, if req.typeid == RMW_BITS then 4 else 3, order);
    }
  }

  /** Over any sequence of requests and dispatches: the packets being filled, which are the ones the next
      dispatch hands over, are packed tightly and in the given byte order. */
  lemma {:induction false} PrepareAllPacked(s: Prepared, reqs: seq<UserRequest>, order: Order)
    requires Packed(s.packs, order) && forall i :: 0 <= i < |reqs| ==> Proper(reqs[i])
    ensures Packed(PrepareAll(s, reqs, order).packs, order)
    decreases |reqs|
  {
    if reqs != [] {
      if !reqs[0].dispatch {
        RequestPacked(s.packs, reqs[0], order);
      }
      PrepareAllPacked(Prepare(s, reqs[0], order), reqs[1..], order);
    }
  }

  // ----- dispatches -----

  lemma {:induction false} PrepareLast(s: Prepared, reqs: seq<UserRequest>, req: UserRequest, order: Order)
    ensures PrepareAll(s, reqs + [req], order) == Prepare(PrepareAll(s, reqs, order), req, order)
    decreases |reqs|
  {
    if reqs == [] {
      assert (reqs + [req])[1..] == [];
    } else {
      assert (reqs + [req])[1..] == reqs[1..] + [req] && (reqs + [req])[0] == reqs[0];
      PrepareLast(Prepare(s, reqs[0], order), reqs[1..], req, order);
    }
  }

  /** A dispatch hands over every packet being filled, in order, and leaves none; any other request hands
      over nothing. */
  lemma DispatchExact(s: Prepared, reqs: seq<UserRequest>, req: UserRequest, order: Order)
    ensures var before, after := PrepareAll(s, reqs, order), PrepareAll(s, reqs + [req], order);
            if req.dispatch then after.outgoing == before.outgoing + before.packs && after.packs == []
            else after.outgoing == before.outgoing
  {
    PrepareLast(s, reqs, req, order);
  }

  // ----- read-modify-writes -----

  /** A read-modify-write is one transaction of one word that closes its channel. */
  lemma SingleCovers(req: UserRequest, ts: seq<Transaction>)
    requires IsSplit(req, ts) && (req.typeid == 4 || req.typeid == 5)
    ensures |ts| == 1
    ensures var t := ts[0];
            && t.outheader.tid == req.typeid && t.outheader.words == 1
            && t.outheader.version == 2 && t.outheader.code == 15
            && t.addr == req.addr && t.input == req.input
            && t.closechan && t.resp == req.resp && t.byteslice == req.byteslice
  {
  }
}
