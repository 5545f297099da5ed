/** The packing goroutine and the blocking calls of target.go, updating packets in place. */
module Targets {
  import opened Wire
  import P = Packets
  import opened PacketObject
  import opened Packer

  class Target {
    var packs: seq<Packet>
    const order: Order  // the package's default byte order
    ghost var repr: set<Packet>  // the packets this target may still change
    ghost var vals: seq<P.Packet>  // their values, in order

    ghost predicate Valid()
      reads this, repr
    {
      && (forall i :: 0 <= i < |packs| ==> packs[i] in repr)
      && (forall i, j :: 0 <= i < j < |packs| ==> packs[i] != packs[j])
      && |vals| == |packs| && (forall i :: 0 <= i < |packs| ==> packs[i].Value() == vals[i])
      && AllWithin(vals)
    }

    constructor (order: Order)
      ensures packs == [] && vals == [] && repr == {} && this.order == order && Valid()
    {
      packs, repr, vals := [], {}, [];
      this.order := order;
    }

    /** Append a new packet when the last one has too little space. */
    method Room(req: nat, resp: nat) returns (reqspace: nat, respspace: nat)
      requires Valid() && packs != [] && req <= 367 && resp <= 367
      modifies this`packs, this`repr, this`vals
      ensures Valid() && packs != []
      ensures vals == MakeRoom(old(vals), req, resp, order)
      ensures var last := Last(old(vals));
              if 368 - last.reqlen < req || 368 - last.resplen < resp
              then |packs| == |old(packs)| + 1 && packs[..|old(packs)|] == old(packs)
              else packs == old(packs)
      ensures reqspace == P.ReqSpace(Last(vals)) && respspace == P.RespSpace(Last(vals))
      ensures fresh(repr - old(repr))
    {
      MakeRoomWithin(vals, req, resp, order);
      SpacesLeft(vals);
      var p := packs[|packs| - 1];
      assert p.Value() == Last(vals);
      reqspace, respspace := p.Space();
      if reqspace < req || respspace < resp {
        p := new Packet(CONTROL, order);
        packs, repr := packs + [p], repr + {p};
        vals := vals + [P.EmptyPacket(CONTROL, order)];
        reqspace, respspace := p.Space();
      }
    }

    /** Add a transaction to the last packet. */
    method Put(t: P.Transaction) returns (ok: bool)
      requires Valid() && packs != []
      requires AllWithin(AddLast(vals, t))
      modifies packs[|packs| - 1], this`vals
      ensures Valid()
      ensures packs == old(packs) && repr == old(repr)
      ensures ok <==> P.Accepts(Last(old(vals)), t)
      ensures vals == AddLast(old(vals), t)
    {
      ok := packs[|packs| - 1].Add(t);
      vals := AddLast(vals, t);
    }

    /** One round of the loop that splits a read: as many words as fit, at most 255. */
    method PutRead(rest: UserRequest) returns (ntoread: nat)
      requires Valid() && packs != [] && P.IsRead(rest.typeid) && rest.input == [] && rest.nwords > 0
      modifies this`packs, this`repr, this`vals, repr
      ensures var ps := MakeRoom(old(vals), 2, 2, order);
              && ntoread == ReadSize(Last(ps), rest) && P.Accepts(Last(ps), Chunk(rest, ntoread))
              && 1 <= ntoread <= 255 && ntoread <= rest.nwords
              && vals == AddLast(ps, Chunk(rest, ntoread))
      ensures Valid() && packs != []
      ensures fresh(repr - old(repr))
    {
      ghost var before := vals;
      RoomEnough(vals, 2, 2, order);
      var reqspace, respspace := Room(2, 2);
      ntoread := respspace - 1;
      if ntoread > rest.nwords {
        ntoread := rest.nwords;
      }
      if ntoread > 255 {
        ntoread := 255;
      }
      var final := rest.nwords - ntoread == 0;
      var t := P.NewRequestTransaction(rest.typeid, ntoread, rest.addr, rest.input, rest.resp, rest.byteslice, final);
      ReadPiece(before, rest, order, respspace, ntoread);
      var added := Put(t);
    }

    /** The round with its bookkeeping: what is left prepares to the same packets as before. */
    method NextRead(rest: UserRequest) returns (left: UserRequest)
      requires Valid() && packs != [] && P.IsRead(rest.typeid) && rest.input == [] && rest.nwords > 0
      modifies this`packs, this`repr, this`vals, repr
      ensures left.nwords < rest.nwords && left.typeid == rest.typeid && left.input == []
      ensures Valid() && packs != []
      ensures PrepareRead(vals, left, order) == PrepareRead(old(vals), rest, order)
      ensures fresh(repr - old(repr))
    {
      ghost var before := vals;
      var ntoread := PutRead(rest);
      left := rest.(nwords := rest.nwords - ntoread,
                    addr := if rest.typeid == READ then (rest.addr + ntoread) % 0x1_0000_0000 else rest.addr);
      ReadStep(before, rest, order, ntoread, left);
    }

    /** The loop that splits a read. */
    method AddRead(req: UserRequest)
      requires Valid() && packs != [] && P.IsRead(req.typeid) && req.input == []
      modifies this`packs, this`repr, this`vals, repr
      ensures Valid() && packs != []
      ensures vals == PrepareRead(old(vals), req, order)
      ensures fresh(repr - old(repr))
    {
      var rest := req;
      ghost var goal := PrepareRead(vals, req, order);
      while rest.nwords > 0
        invariant Valid() && packs != []
        invariant fresh(repr - old(repr))
        invariant P.IsRead(rest.typeid) && rest.input == []
        invariant goal == PrepareRead(vals, rest, order)
        decreases rest.nwords
      {
        rest := NextRead(rest);
      }
    }

    /** One round of the loop that splits a write; the panic on a refused piece cannot happen. */
    method PutWrite(rest: UserRequest) returns (ok: bool, ntowrite: nat)
      requires Valid() && packs != [] && P.IsWrite(rest.typeid) && rest.input != []
      modifies this`packs, this`repr, this`vals, repr
      ensures var ps := MakeRoom(old(vals), 3, 1, order);
              && ok && ntowrite == WriteSize(Last(ps), rest)
              && 1 <= ntowrite <= 255 && ntowrite <= |rest.input|
              && vals == AddLast(ps, Chunk(rest, ntowrite))
      ensures Valid() && packs != []
      ensures fresh(repr - old(repr))
    {
      ghost var before := vals;
      RoomEnough(vals, 3, 1, order);
      var reqspace, respspace := Room(3, 1);
      ntowrite := reqspace - 2;
      if ntowrite > |rest.input| {
        ntowrite := |rest.input|;
      }
      if ntowrite > 255 {
        ntowrite := 255;
      }
      var final := |rest.input| - ntowrite == 0;
      var t := P.NewRequestTransaction(rest.typeid, ntowrite, rest.addr, rest.input[..ntowrite],
                                       rest.resp, rest.byteslice, final);
      WritePiece(before, rest, order, reqspace, ntowrite);
      ok := Put(t);
    }

    method NextWrite(rest: UserRequest) returns (left: UserRequest)
      requires Valid() && packs != [] && P.IsWrite(rest.typeid) && rest.input != []
      modifies this`packs, this`repr, this`vals, repr
      ensures |left.input| < |rest.input| && left.typeid == rest.typeid
      ensures Valid() && packs != []
      ensures PrepareWrite(vals, left, order) == PrepareWrite(old(vals), rest, order)
      ensures fresh(repr - old(repr))
    {
      ghost var before := vals;
      var accepted, ntowrite := PutWrite(rest);
      left := rest.(input := rest.input[ntowrite..],
                    addr := if rest.typeid == WRITE then (rest.addr + ntowrite) % 0x1_0000_0000 else rest.addr);
      WriteStep(before, rest, order, ntowrite, left);
    }

    /** The loop that splits a write. */
    method AddWrite(req: UserRequest)
      requires Valid() && packs != [] && P.IsWrite(req.typeid)
      modifies this`packs, this`repr, this`vals, repr
      ensures Valid() && packs != []
      ensures vals == PrepareWrite(old(vals), req, order)
      ensures fresh(repr - old(repr))
    {
      var rest := req;
      ghost var goal := PrepareWrite(vals, req, order);
      while |rest.input| > 0
        invariant Valid() && packs != []
        invariant fresh(repr - old(repr))
        invariant P.IsWrite(rest.typeid)
        invariant goal == PrepareWrite(vals, rest, order)
        decreases |rest.input|
      {
        rest := NextWrite(rest);
      }
    }

    /** A read-modify-write goes into one packet as a whole. */
    method AddSingle(req: UserRequest, reqspace: nat)
      requires Valid() && packs != []
      requires (req.typeid == RMW_BITS && |req.input| == 2 && reqspace == 4)
            || (req.typeid == RMW_SUM && |req.input| == 1 && reqspace == 3)
      modifies this`packs, this`repr, this`vals, repr
      ensures Valid() && packs != []
      ensures vals == AddLast(MakeRoom(old(vals), reqspace, 2, order), Single(req))
      ensures fresh(repr - old(repr))
    {
      SingleWithin(vals, req, reqspace, order);
      var free, respfree := Room(reqspace, 2);
      var t := P.NewRequestTransaction(req.typeid, 1, req.addr, req.input, req.resp, req.byteslice, true);
      var added := Put(t);
    }

    /** One request of the packing goroutine; on a dispatch the packets are handed to the window engine. */
    method HandleRequest(req: UserRequest) returns (handed: seq<Packet>)
      requires Valid() && Proper(req)
      modifies this`packs, this`repr, this`vals, repr
      ensures Valid()
      ensures req.dispatch ==> handed == old(packs) && forall p :: p in handed ==> p.Value() == old(p.Value())
      ensures Prepared(vals, if req.dispatch then old(vals) else []) == Prepare(Prepared(old(vals), []), req, order)
    {
      handed := [];
      if req.dispatch {
        for i := 0 to |packs|
          invariant handed == packs[..i]
        {
          handed := handed + [packs[i]];
        }
        assert [] + vals == vals;
        packs, repr, vals := [], {}, [];
        return;
      }
      ghost var before := vals;
      if |packs| == 0 {
        var p := new Packet(CONTROL, order);
        packs, repr, vals := [p], repr + {p}, [P.EmptyPacket(CONTROL, order)];
      }
      ghost var start := if before == [] then [P.EmptyPacket(CONTROL, order)] else before;
      assert vals == start;
      if req.typeid == READ || req.typeid == READ_NON_INC {
        AddRead(req);
      } else if req.typeid == WRITE || req.typeid == WRITE_NON_INC {
        AddWrite(req);
      } else if req.typeid == RMW_BITS {
        AddSingle(req, 4);
      } else {
        AddSingle(req, 3);
      }
    }
  }

  lemma RoomEnough(packs: seq<P.Packet>, req: nat, resp: nat, order: Order)
    requires packs != [] && req <= 367 && resp <= 367
    ensures var p := Last(MakeRoom(packs, req, resp, order)); P.ReqSpace(p) >= req && P.RespSpace(p) >= resp
  {
  }

  lemma ReadFits(p: P.Packet, rest: UserRequest, n: nat)
    requires P.IsRead(rest.typeid) && rest.input == [] && 1 <= n <= 255 && n <= rest.nwords
    requires P.ReqSpace(p) >= 2 && P.RespSpace(p) >= n + 1
    ensures P.Accepts(p, Chunk(rest, n))
  {
  }

  lemma WriteFits(p: P.Packet, rest: UserRequest, n: nat)
    requires P.IsWrite(rest.typeid) && 1 <= n <= 255 && n <= |rest.input|
    requires P.ReqSpace(p) >= n + 2 && P.RespSpace(p) >= 1
    ensures P.Accepts(p, Chunk(rest, n))
  {
  }

  /** The piece of a read that fits into `respspace` words is accepted and keeps the budgets. */
  lemma ReadPiece(packs: seq<P.Packet>, rest: UserRequest, order: Order, respspace: nat, n: nat)
    requires packs != [] && AllWithin(packs) && P.IsRead(rest.typeid) && rest.input == [] && rest.nwords > 0
    requires respspace == P.RespSpace(Last(MakeRoom(packs, 2, 2, order))) && n == Least(respspace - 1, rest.nwords, 255)
    ensures var ps := MakeRoom(packs, 2, 2, order);
            && n == ReadSize(Last(ps), rest) && 1 <= n <= 255 && n <= rest.nwords
            && P.Accepts(Last(ps), Chunk(rest, n)) && AllWithin(AddLast(ps, Chunk(rest, n)))
    ensures Chunk(rest, n) == P.NewRequestTransaction(rest.typeid, n, rest.addr, rest.input, rest.resp, rest.byteslice,
                                                      rest.nwords - n == 0)
  {
    ReadRound(packs, rest, order);
    RoomEnough(packs, 2, 2, order);
    ReadFits(Last(MakeRoom(packs, 2, 2, order)), rest, n);
  }

  lemma WritePiece(packs: seq<P.Packet>, rest: UserRequest, order: Order, reqspace: nat, n: nat)
    requires packs != [] && AllWithin(packs) && P.IsWrite(rest.typeid) && rest.input != []
    requires reqspace == P.ReqSpace(Last(MakeRoom(packs, 3, 1, order))) && n == Least(reqspace - 2, |rest.input|, 255)
    ensures var ps := MakeRoom(packs, 3, 1, order);
            && n == WriteSize(Last(ps), rest) && 1 <= n <= 255 && n <= |rest.input|
            && P.Accepts(Last(ps), Chunk(rest, n)) && AllWithin(AddLast(ps, Chunk(rest, n)))
    ensures Chunk(rest, n) == P.NewRequestTransaction(rest.typeid, n, rest.addr, rest.input[..n], rest.resp,
                                                      rest.byteslice, |rest.input| - n == 0)
  {
    WriteRound(packs, rest, order);
    RoomEnough(packs, 3, 1, order);
    WriteFits(Last(MakeRoom(packs, 3, 1, order)), rest, n);
  }

  lemma ReadStep(ps: seq<P.Packet>, rest: UserRequest, order: Order, n: nat, left: UserRequest)
    requires ps != [] && P.IsRead(rest.typeid) && rest.nwords > 0
    requires n == ReadSize(Last(MakeRoom(ps, 2, 2, order)), rest) && n <= rest.nwords && left.input == []
    requires left == rest.(nwords := rest.nwords - n,
                           addr := if rest.typeid == READ then (rest.addr + n) % 0x1_0000_0000 else rest.addr)
    ensures PrepareRead(AddLast(MakeRoom(ps, 2, 2, order), Chunk(rest, n)), left, order) == PrepareRead(ps, rest, order)
  {
    assert left == After(rest, n);
  }

  lemma WriteStep(ps: seq<P.Packet>, rest: UserRequest, order: Order, n: nat, left: UserRequest)
    requires ps != [] && P.IsWrite(rest.typeid) && rest.input != []
    requires n == WriteSize(Last(MakeRoom(ps, 3, 1, order)), rest) && n <= |rest.input|
    requires left == rest.(input := rest.input[n..],
                           addr := if rest.typeid == WRITE then (rest.addr + n) % 0x1_0000_0000 else rest.addr)
    ensures PrepareWrite(AddLast(MakeRoom(ps, 3, 1, order), Chunk(rest, n)), left, order) ==
            PrepareWrite(ps, rest, order)
  {
    assert left == After(rest, n);
  }

  lemma SingleWithin(ps: seq<P.Packet>, req: UserRequest, reqspace: nat, order: Order)
    requires ps != [] && AllWithin(ps)
    requires (req.typeid == RMW_BITS && |req.input| == 2 && reqspace == 4)
          || (req.typeid == RMW_SUM && |req.input| == 1 && reqspace == 3)
    ensures AllWithin(AddLast(MakeRoom(ps, reqspace, 2, order), Single(req)))
  {
    MakeRoomWithin(ps, reqspace, 2, order);
    AddLastWithin(MakeRoom(ps, reqspace, 2, order), Single(req));
  }
}
