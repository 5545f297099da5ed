/** Splitting user requests into transactions and packing them (preparepackets in target.go). */
module Packer {
  import opened Wire
  import opened Packets
  import opened PacketProofs

  datatype UserRequest = UserRequest(typeid: Nibble, nwords: nat, addr: Word, input: seq<Word>,
                                     resp: nat, byteslice: bool, dispatch: bool)

  /** Packets being filled, and packets already handed to the window engine. */
  datatype Prepared = Prepared(packs: seq<Packet>, outgoing: seq<Packet>)

  const MODULUS := 0x1_0000_0000

  /** The words a request asks to transfer. */
  function Words(req: UserRequest): nat {
    if IsRead(req.typeid) then req.nwords else if IsWrite(req.typeid) then |req.input| else 1
  }

  predicate Increments(tid: Nibble) {
    tid == READ || tid == WRITE
  }

  /** What is left of a read or write after its first `n` words. */
  function After(req: UserRequest, n: nat): UserRequest
    requires n <= Words(req) && (IsRead(req.typeid) || IsWrite(req.typeid))
  {
    req.(nwords := if IsRead(req.typeid) then req.nwords - n else req.nwords,
         input := if IsWrite(req.typeid) then req.input[n..] else req.input,
         addr := if Increments(req.typeid) then (req.addr + n) % MODULUS else req.addr)
  }

  /** The transaction for the first `n` words of a read or write. */
  function Chunk(req: UserRequest, n: nat): Transaction
    requires n <= Words(req) && n <= 255 && (IsRead(req.typeid) || IsWrite(req.typeid))
  {
    NewRequestTransaction(req.typeid, n, req.addr, if IsWrite(req.typeid) then req.input[..n] else req.input,
                          req.resp, req.byteslice, n == Words(req))
  }

  function Single(req: UserRequest): Transaction {
    NewRequestTransaction(req.typeid, 1, req.addr, req.input, req.resp, req.byteslice, true)
  }

  // ----- the packets being filled -----

  function Last(packs: seq<Packet>): Packet
    requires packs != []
  {
    packs[|packs| - 1]
  }

  /** A new packet if the last one has less than the given space. */
  function MakeRoom(packs: seq<Packet>, req: nat, resp: nat, order: Order): (r: seq<Packet>)
    requires packs != []
    ensures r != []
  {
    if ReqSpace(Last(packs)) < req || RespSpace(Last(packs)) < resp then packs + [EmptyPacket(CONTROL, order)]
    else packs
  }

  function AddLast(packs: seq<Packet>, t: Transaction): (r: seq<Packet>)
    requires packs != []
    ensures |r| == |packs|
  {
    packs[..|packs| - 1] + [Add(Last(packs), t)]
  }

  function Least(a: int, b: int, c: int): int {
    if a <= b && a <= c then a else if b <= c then b else c
  }

  function ReadSize(p: Packet, req: UserRequest): int {
    Least(RespSpace(p) - 1, req.nwords, 255)
  }

  function WriteSize(p: Packet, req: UserRequest): int {
    Least(ReqSpace(p) - 2, |req.input|, 255)
  }

  function PrepareRead(packs: seq<Packet>, req: UserRequest, order: Order): (r: seq<Packet>)
    requires packs != [] && IsRead(req.typeid)
    ensures r != []
    decreases req.nwords
  {
    if req.nwords == 0 then packs
    else
      var ps := MakeRoom(packs, 2, 2, order);
      var n := ReadSize(Last(ps), req);
      PrepareRead(AddLast(ps, Chunk(req, n)), After(req, n), order)
  }

  function PrepareWrite(packs: seq<Packet>, req: UserRequest, order: Order): (r: seq<Packet>)
    requires packs != [] && IsWrite(req.typeid)
    ensures r != []
    decreases |req.input|
  {
    if req.input == [] then packs
    else
      var ps := MakeRoom(packs, 3, 1, order);
      var n := WriteSize(Last(ps), req);
      PrepareWrite(AddLast(ps, Chunk(req, n)), After(req, n), order)
  }

  function PrepareRequest(packs: seq<Packet>, req: UserRequest, order: Order): seq<Packet> {
    var ps := if packs == [] then [EmptyPacket(CONTROL, order)] else packs;
    if IsRead(req.typeid) then PrepareRead(ps, req, order)
    else if IsWrite(req.typeid) then PrepareWrite(ps, req, order)
    else if req.typeid == RMW_BITS then AddLast(MakeRoom(ps, 4, 2, order), Single(req))
    else if req.typeid == RMW_SUM then AddLast(MakeRoom(ps, 3, 2, order), Single(req))
    else ps
  }

  function Prepare(s: Prepared, req: UserRequest, order: Order): Prepared {
    if req.dispatch then Prepared([], s.outgoing + s.packs)
    else s.(packs := PrepareRequest(s.packs, req, order))
  }

  function PrepareAll(s: Prepared, reqs: seq<UserRequest>, order: Order): Prepared
    decreases |reqs|
  {
    if reqs == [] then s else PrepareAll(Prepare(s, reqs[0], order), reqs[1..], order)
  }

  // ----- what splitting means -----

  /** `ts` carries out `req` piece by piece: each piece has 1 to 255 words, starts where the piece
      before ended, goes to the same channel, and only the last one closes it. */
  predicate IsSplit(req: UserRequest, ts: seq<Transaction>)
    decreases |ts|
  {
    if !IsRead(req.typeid) && !IsWrite(req.typeid) then ts == [Single(req)]
    else if Words(req) == 0 then ts == []
    else
      && ts != []
      && var n := ts[0].outheader.words as int;
      && 1 <= n <= Words(req)
      && ts[0] == Chunk(req, n)
      && IsSplit(After(req, n), ts[1..])
  }

  /** A transaction without the position it has in its packet. */
  function Bare(t: Transaction): Transaction {
    t.(outheader := t.outheader.(id := 0))
  }

  function BareAll(ts: seq<Transaction>): (r: seq<Transaction>)
    ensures |r| == |ts|
    ensures forall i :: 0 <= i < |ts| ==> r[i] == Bare(ts[i])
  {
    if ts == [] then [] else [Bare(ts[0])] + BareAll(ts[1..])
  }

  /** All transactions of a list of packets, in order. */
  function Flat(packs: seq<Packet>): seq<Transaction> {
    if packs == [] then [] else BareAll(packs[0].transactions) + Flat(packs[1..])
  }

  lemma {:induction false} FlatAppend(xs: seq<Packet>, ys: seq<Packet>)
    ensures Flat(xs + ys) == Flat(xs) + Flat(ys)
  {
    if xs == [] {
      assert xs + ys == ys;
    } else {
      FlatAppend(xs[1..], ys);
      assert (xs + ys)[1..] == xs[1..] + ys;
      JoinAssoc(BareAll(xs[0].transactions), Flat(xs[1..]), Flat(ys));
    }
  }

  lemma JoinAssoc<T>(a: seq<T>, b: seq<T>, c: seq<T>)
    ensures a + (b + c) == a + b + c
  {
  }

  lemma FlatLast(packs: seq<Packet>)
    requires packs != []
    ensures Flat(packs) == Flat(packs[..|packs| - 1]) + BareAll(Last(packs).transactions)
  {
    var n := |packs| - 1;
    assert packs == packs[..n] + [packs[n]];
    FlatAppend(packs[..n], [packs[n]]);
    FlatOne(packs[n]);
  }

  lemma FlatOne(p: Packet)
    ensures Flat([p]) == BareAll(p.transactions)
  {
    assert [p][1..] == [];
    assert Flat([p][1..]) == [];
  }

  /** A packet within both budgets. */
  predicate Within(p: Packet) {
    1 <= p.reqlen <= CAP && 1 <= p.resplen <= CAP
  }

  predicate AllWithin(packs: seq<Packet>) {
    forall i :: 0 <= i < |packs| ==> Within(packs[i])
  }

  lemma MakeRoomFlat(packs: seq<Packet>, req: nat, resp: nat, order: Order)
    requires packs != []
    ensures Flat(MakeRoom(packs, req, resp, order)) == Flat(packs)
  {
    var empty := EmptyPacket(CONTROL, order);
    FlatAppend(packs, [empty]);
    assert [empty][1..] == [];
    assert Flat([empty]) == [];
  }

  lemma SpacesLeft(packs: seq<Packet>)
    requires packs != [] && AllWithin(packs)
    ensures RespSpace(Last(packs)) == 368 - Last(packs).resplen && ReqSpace(Last(packs)) == 368 - Last(packs).reqlen
  {
    assert Within(Last(packs));
  }

  lemma MakeRoomWithin(packs: seq<Packet>, req: nat, resp: nat, order: Order)
    requires packs != [] && AllWithin(packs) && req <= 367 && resp <= 367
    ensures var r := MakeRoom(packs, req, resp, order);
            && AllWithin(r)
            && ReqSpace(Last(r)) == CAP - Last(r).reqlen >= req
            && RespSpace(Last(r)) == CAP - Last(r).resplen >= resp
  {
    assert Within(Last(packs));
  }

  lemma {:induction false} BareAppend(xs: seq<Transaction>, ys: seq<Transaction>)
    ensures BareAll(xs + ys) == BareAll(xs) + BareAll(ys)
  {
  }

  lemma AddLastFlat(packs: seq<Packet>, t: Transaction)
    requires packs != [] && t == Bare(t) && Accepts(Last(packs), t)
    ensures Flat(AddLast(packs, t)) == Flat(packs) + [t]
  {
    var n, r := |packs| - 1, AddLast(packs, t);
    assert r[..n] == packs[..n];
    FlatLast(packs);
    FlatLast(r);
    BareAppend(packs[n].transactions, [Placed(packs[n], t)]);
    assert BareAll([Placed(packs[n], t)]) == [t];
  }

  /** A transaction that fits joins the last packet, which stays within both budgets. */
  lemma AddLastWithin(packs: seq<Packet>, t: Transaction)
    requires packs != [] && AllWithin(packs) && Shaped(t)
    requires ReqWords(t) <= CAP - Last(packs).reqlen && RespWords(t) <= CAP - Last(packs).resplen
    ensures Accepts(Last(packs), t) && AllWithin(AddLast(packs, t))
  {
    assert Within(Last(packs));
  }

  // ----- the splitting theorem -----

  lemma SplitCons(req: UserRequest, n: nat, rest: seq<Transaction>)
    requires IsRead(req.typeid) || IsWrite(req.typeid)
    requires 1 <= n <= 255 && n <= Words(req) && IsSplit(After(req, n), rest)
    ensures IsSplit(req, [Chunk(req, n)] + rest)
  {
    assert ([Chunk(req, n)] + rest)[1..] == rest;
  }

  lemma ReadRound(packs: seq<Packet>, req: UserRequest, order: Order)
    requires packs != [] && AllWithin(packs) && IsRead(req.typeid) && req.input == [] && req.nwords > 0
    ensures var ps := MakeRoom(packs, 2, 2, order);
            var n := ReadSize(Last(ps), req);
            && 1 <= n <= 255 && n <= req.nwords
            && Accepts(Last(ps), Chunk(req, n))
            && AllWithin(AddLast(ps, Chunk(req, n)))
            && Flat(AddLast(ps, Chunk(req, n))) == Flat(packs) + [Chunk(req, n)]
  {
    var ps := MakeRoom(packs, 2, 2, order);
    MakeRoomWithin(packs, 2, 2, order);
    var n := ReadSize(Last(ps), req);
    AddLastWithin(ps, Chunk(req, n));
    MakeRoomFlat(packs, 2, 2, order);
    AddLastFlat(ps, Chunk(req, n));
  }

  lemma WriteRound(packs: seq<Packet>, req: UserRequest, order: Order)
    requires packs != [] && AllWithin(packs) && IsWrite(req.typeid) && req.input != []
    ensures var ps := MakeRoom(packs, 3, 1, order);
            var n := WriteSize(Last(ps), req);
            && 1 <= n <= 255 && n <= |req.input|
            && Accepts(Last(ps), Chunk(req, n))
            && AllWithin(AddLast(ps, Chunk(req, n)))
            && Flat(AddLast(ps, Chunk(req, n))) == Flat(packs) + [Chunk(req, n)]
  {
    var ps := MakeRoom(packs, 3, 1, order);
    MakeRoomWithin(packs, 3, 1, order);
    var n := WriteSize(Last(ps), req);
    AddLastWithin(ps, Chunk(req, n));
    MakeRoomFlat(packs, 3, 1, order);
    AddLastFlat(ps, Chunk(req, n));
  }

  lemma {:induction false} ReadSplit(packs: seq<Packet>, req: UserRequest, order: Order) returns (ts: seq<Transaction>)
    requires packs != [] && AllWithin(packs) && IsRead(req.typeid) && req.input == []
    ensures AllWithin(PrepareRead(packs, req, order))
    ensures Flat(PrepareRead(packs, req, order)) == Flat(packs) + ts
    ensures IsSplit(req, ts)
    decreases req.nwords
  {
    if req.nwords == 0 {
      ts := [];
    } else {
      var ps := MakeRoom(packs, 2, 2, order);
      var n := ReadSize(Last(ps), req);
      ReadRound(packs, req, order);
      var rest := ReadSplit(AddLast(ps, Chunk(req, n)), After(req, n), order);
      ts := [Chunk(req, n)] + rest;
      SplitCons(req, n, rest);
      JoinAssoc(Flat(packs), [Chunk(req, n)], rest);
    }
  }

  lemma {:induction false} WriteSplit(packs: seq<Packet>, req: UserRequest, order: Order) returns (ts: seq<Transaction>)
    requires packs != [] && AllWithin(packs) && IsWrite(req.typeid)
    ensures AllWithin(PrepareWrite(packs, req, order))
    ensures Flat(PrepareWrite(packs, req, order)) == Flat(packs) + ts
    ensures IsSplit(req, ts)
    decreases |req.input|
  {
    if req.input == [] {
      ts := [];
    } else {
      var ps := MakeRoom(packs, 3, 1, order);
      var n := WriteSize(Last(ps), req);
      WriteRound(packs, req, order);
      var rest := WriteSplit(AddLast(ps, Chunk(req, n)), After(req, n), order);
      ts := [Chunk(req, n)] + rest;
      SplitCons(req, n, rest);
      JoinAssoc(Flat(packs), [Chunk(req, n)], rest);
    }
  }

  /** A request as Read, Write, RMWbits, RMWsum, ReadB and Dispatch build it. */
  predicate Proper(req: UserRequest) {
    || req.dispatch
    || (IsRead(req.typeid) && req.input == [])
    || IsWrite(req.typeid)
    || (req.typeid == RMW_BITS && |req.input| == 2)
    || (req.typeid == RMW_SUM && |req.input| == 1)
  }

  /** One request adds exactly its pieces to the stream of transactions, whatever the fill level of
      the current packet, and no packet leaves its budgets. */
  lemma PrepareSplits(packs: seq<Packet>, req: UserRequest, order: Order) returns (ts: seq<Transaction>)
    requires AllWithin(packs) && Proper(req) && !req.dispatch
    ensures AllWithin(PrepareRequest(packs, req, order))
    ensures Flat(PrepareRequest(packs, req, order)) == Flat(packs) + ts
    ensures IsSplit(req, ts)
  {
    var ps := if packs == [] then [EmptyPacket(CONTROL, order)] else packs;
    assert Flat(ps) == Flat(packs) by { assert [EmptyPacket(CONTROL, order)][1..] == []; }
    if IsRead(req.typeid) {
      ts := ReadSplit(ps, req, order);
    } else if IsWrite(req.typeid) {
      ts := WriteSplit(ps, req, order);
    } else {
      var room := if req.typeid == RMW_BITS then 4 else 3;
      MakeRoomWithin(ps, room, 2, order);
      AddLastWithin(MakeRoom(ps, room, 2, order), Single(req));
      MakeRoomFlat(ps, room, 2, order);
      AddLastFlat(MakeRoom(ps, room, 2, order), Single(req));
      ts := [Single(req)];
    }
  }

  // ----- every packet is well built -----

  ghost predicate Closed(q: Packet -> bool, order: Order) {
    && q(EmptyPacket(CONTROL, order))
    && forall p, t :: q(p) && Fresh(t) ==> q(Add(p, t))
  }

  ghost predicate AllHold(q: Packet -> bool, packs: seq<Packet>) {
    forall i :: 0 <= i < |packs| ==> q(packs[i])
  }

  lemma AddLastKeeps(q: Packet -> bool, packs: seq<Packet>, t: Transaction, order: Order)
    requires packs != [] && Closed(q, order) && AllHold(q, packs) && Fresh(t)
    ensures AllHold(q, AddLast(packs, t))
  {
    assert q(Last(packs));
  }

  lemma {:induction false} ReadKeeps(q: Packet -> bool, packs: seq<Packet>, req: UserRequest, order: Order)
    requires packs != [] && IsRead(req.typeid) && Closed(q, order) && AllHold(q, packs)
    ensures AllHold(q, PrepareRead(packs, req, order))
    decreases req.nwords
  {
    if req.nwords != 0 {
      var ps := MakeRoom(packs, 2, 2, order);
      var n := ReadSize(Last(ps), req);
      AddLastKeeps(q, ps, Chunk(req, n), order);
      ReadKeeps(q, AddLast(ps, Chunk(req, n)), After(req, n), order);
    }
  }

  lemma {:induction false} WriteKeeps(q: Packet -> bool, packs: seq<Packet>, req: UserRequest, order: Order)
    requires packs != [] && IsWrite(req.typeid) && Closed(q, order) && AllHold(q, packs)
    ensures AllHold(q, PrepareWrite(packs, req, order))
    decreases |req.input|
  {
    if req.input != [] {
      var ps := MakeRoom(packs, 3, 1, order);
      var n := WriteSize(Last(ps), req);
      AddLastKeeps(q, ps, Chunk(req, n), order);
      WriteKeeps(q, AddLast(ps, Chunk(req, n)), After(req, n), order);
    }
  }

  /** A property of new packets that adding transactions keeps holds of every packet ever packed. */
  lemma PrepareKeeps(q: Packet -> bool, packs: seq<Packet>, req: UserRequest, order: Order)
    requires Closed(q, order) && AllHold(q, packs)
    ensures AllHold(q, PrepareRequest(packs, req, order))
  {
    var ps := if packs == [] then [EmptyPacket(CONTROL, order)] else packs;
    if IsRead(req.typeid) {
      ReadKeeps(q, ps, req, order);
    } else if IsWrite(req.typeid) {
      WriteKeeps(q, ps, req, order);
    } else if req.typeid == RMW_BITS {
      AddLastKeeps(q, MakeRoom(ps, 4, 2, order), Single(req), order);
    } else if req.typeid == RMW_SUM {
      AddLastKeeps(q, MakeRoom(ps, 3, 2, order), Single(req), order);
    }
  }

  /** What the packer hands on: well-built control packets without replies, within both budgets. */
  ghost predicate Ready(p: Packet) {
    WellBuilt(p) && p.header.ptype == CONTROL && p.replies == []
  }

  lemma ReadyClosed(order: Order)
    ensures Closed(p => Ready(p), order)
  {
    EmptyWellBuilt(CONTROL, order);
    forall p, t | Ready(p) && Fresh(t)
      ensures Ready(Add(p, t))
    {
      AddWellBuilt(p, t);
    }
  }

  ghost predicate AllReady(packs: seq<Packet>) {
    forall i :: 0 <= i < |packs| ==> Ready(packs[i])
  }

  lemma PrepareReady(packs: seq<Packet>, req: UserRequest, order: Order)
    requires AllReady(packs)
    ensures AllReady(PrepareRequest(packs, req, order))
  {
    ReadyClosed(order);
    PrepareKeeps(p => Ready(p), packs, req, order);
  }

  // ----- whole sequences of requests -----

  function All(s: Prepared): seq<Packet> {
    s.outgoing + s.packs
  }

  /** The requests that are not calls of Dispatch. */
  function Calls(reqs: seq<UserRequest>): seq<UserRequest> {
    if reqs == [] then [] else (if reqs[0].dispatch then [] else [reqs[0]]) + Calls(reqs[1..])
  }

  function Concat<T>(xs: seq<seq<T>>): seq<T> {
    if xs == [] then [] else xs[0] + Concat(xs[1..])
  }

  /** `pieces` splits each of the requests, one list of transactions per request. */
  predicate SplitAll(reqs: seq<UserRequest>, pieces: seq<seq<Transaction>>) {
    |pieces| == |reqs| && forall i :: 0 <= i < |reqs| ==> IsSplit(reqs[i], pieces[i])
  }

  ghost predicate PreparedOk(s: Prepared) {
    AllReady(s.outgoing) && AllReady(s.packs) && AllWithin(s.outgoing) && AllWithin(s.packs)
  }

  lemma DispatchOk(s: Prepared, req: UserRequest, order: Order)
    requires PreparedOk(s) && req.dispatch
    ensures PreparedOk(Prepare(s, req, order)) && All(Prepare(s, req, order)) == All(s)
  {
  }

  lemma RequestFlat(s: Prepared, req: UserRequest, order: Order) returns (ts: seq<Transaction>)
    requires AllWithin(s.packs) && Proper(req) && !req.dispatch
    ensures AllWithin(Prepare(s, req, order).packs) && IsSplit(req, ts)
    ensures Flat(All(Prepare(s, req, order))) == Flat(All(s)) + ts
  {
    ts := PrepareSplits(s.packs, req, order);
    FlatAppend(s.outgoing, s.packs);
    FlatAppend(s.outgoing, PrepareRequest(s.packs, req, order));
    JoinAssoc(Flat(s.outgoing), Flat(s.packs), ts);
  }

  lemma RequestOk(s: Prepared, req: UserRequest, order: Order) returns (ts: seq<Transaction>)
    requires PreparedOk(s) && Proper(req) && !req.dispatch
    ensures PreparedOk(Prepare(s, req, order)) && IsSplit(req, ts)
    ensures Flat(All(Prepare(s, req, order))) == Flat(All(s)) + ts
  {
    ts := RequestFlat(s, req, order);
    PrepareReady(s.packs, req, order);
  }

  lemma SplitAllCons(reqs: seq<UserRequest>, ts: seq<Transaction>, rest: seq<seq<Transaction>>)
    requires reqs != [] && !reqs[0].dispatch && IsSplit(reqs[0], ts) && SplitAll(Calls(reqs[1..]), rest)
    ensures SplitAll(Calls(reqs), [ts] + rest) && Concat([ts] + rest) == ts + Concat(rest)
  {
    assert ([ts] + rest)[1..] == rest;
  }

  /** Over any sequence of requests and dispatches: the transactions in all packets, in order, are
      the pieces of the requests, in order; every packet is well built and within its budgets. */
  lemma {:induction false} PrepareAllSplits(s: Prepared, reqs: seq<UserRequest>, order: Order)
    returns (pieces: seq<seq<Transaction>>)
    requires PreparedOk(s) && forall i :: 0 <= i < |reqs| ==> Proper(reqs[i])
    ensures PreparedOk(PrepareAll(s, reqs, order))
    ensures SplitAll(Calls(reqs), pieces)
    ensures Flat(All(PrepareAll(s, reqs, order))) == Flat(All(s)) + Concat(pieces)
    decreases |reqs|
  {
    if reqs == [] {
      pieces := [];
    } else {
      var t := Prepare(s, reqs[0], order);
      if reqs[0].dispatch {
        DispatchOk(s, reqs[0], order);
        pieces := PrepareAllSplits(t, reqs[1..], order);
      } else {
        var ts := RequestOk(s, reqs[0], order);
        var rest := PrepareAllSplits(t, reqs[1..], order);
        pieces := [ts] + rest;
        SplitAllCons(reqs, ts, rest);
        assert PrepareAll(s, reqs, order) == PrepareAll(t, reqs[1..], order);
        JoinAssoc(Flat(All(s)), ts, Concat(rest));
      }
    }
  }

  // ----- what a split covers, piece by piece -----

  /** Words transferred by the first `i` pieces. */
  function Offset(ts: seq<Transaction>, i: nat): nat
    requires i <= |ts|
  {
    if i == 0 then 0 else Offset(ts, i - 1) + ts[i - 1].outheader.words
  }

  lemma {:induction false} OffsetTail(ts: seq<Transaction>, i: nat)
    requires 1 <= i <= |ts|
    ensures Offset(ts, i) == ts[0].outheader.words as int + Offset(ts[1..], i - 1)
  {
    if i > 1 {
      OffsetTail(ts, i - 1);
    }
  }

  /** The piece that begins at word `k` of the request: its size, address and data; only the last one
      closes the channel. Types 0 and 1 count addresses on, modulo 2^32. */
  predicate Tile(req: UserRequest, t: Transaction, k: nat, last: bool) {
    var n := t.outheader.words as int;
    && 1 <= n <= 255 && k + n <= Words(req)
    && t.addr == (if req.typeid <= 1 then (req.addr + k) % 0x1_0000_0000 else req.addr)
    && t.input == (if IsWrite(req.typeid) then req.input[k..k + n] else req.input)
    && t.outheader.version == 2 && t.outheader.code == 15
    && t.closechan == last
    && t.resp == req.resp && t.byteslice == req.byteslice && t.outheader.tid == req.typeid
  }

  /** The i-th piece is what its place in the request makes it. */
  predicate Tiles(req: UserRequest, ts: seq<Transaction>, i: nat)
    requires i < |ts|
  {
    Tile(req, ts[i], Offset(ts, i), i == |ts| - 1)
  }

  lemma TilesTail(req: UserRequest, ts: seq<Transaction>, i: nat)
    requires IsRead(req.typeid) || IsWrite(req.typeid)
    requires 1 <= i < |ts| && ts[0].outheader.words as int <= Words(req)
    requires Tiles(After(req, ts[0].outheader.words), ts[1..], i - 1)
    ensures Tiles(req, ts, i)
  {
    OffsetTail(ts, i);
    assert ts[i] == ts[1..][i - 1];
    TileTail(req, ts[i], ts[0].outheader.words, Offset(ts[1..], i - 1), Offset(ts, i), i == |ts| - 1);
  }

  lemma TileTail(req: UserRequest, t: Transaction, n: nat, k: nat, m: nat, last: bool)
    requires (IsRead(req.typeid) || IsWrite(req.typeid)) && n <= Words(req) && m == n + k
    requires Tile(After(req, n), t, k, last)
    ensures Tile(req, t, m, last)
  {
    ModAdd(req.addr, n, k);
    if IsWrite(req.typeid) {
      TailSlice(req.input, n, k, t.outheader.words);
    }
  }

  lemma TailSlice(ws: seq<Word>, n: nat, k: nat, m: nat)
    requires n + k + m <= |ws|
    ensures ws[n..][k..k + m] == ws[n + k..n + k + m]
  {
  }

  /** The pieces of a read or write tile it exactly. */
  lemma {:induction false} SplitCovers(req: UserRequest, ts: seq<Transaction>)
    requires IsSplit(req, ts) && (IsRead(req.typeid) || IsWrite(req.typeid))
    ensures Offset(ts, |ts|) == Words(req) && (Words(req) > 0 <==> ts != [])
    ensures forall i :: 0 <= i < |ts| ==> Tiles(req, ts, i)
    decreases |ts|
  {
    if Words(req) > 0 {
      SplitCovers(After(req, ts[0].outheader.words), ts[1..]);
      OffsetTail(ts, |ts|);
      forall i | 0 <= i < |ts|
        ensures Tiles(req, ts, i)
      {
        if i > 0 {
          TilesTail(req, ts, i);
        }
      }
    }
  }

  lemma ModAdd(a: nat, n: nat, k: nat)
    ensures ((a + n) % MODULUS + k) % MODULUS == (a + n + k) % MODULUS
  {
    var q := (a + n) / MODULUS;
    assert a + n + k == MODULUS * q + ((a + n) % MODULUS + k);
    ModDrop(q, (a + n) % MODULUS + k);
  }

  lemma ModDrop(q: nat, x: nat)
    ensures (MODULUS * q + x) % MODULUS == x % MODULUS
  {
    var p := x / MODULUS;
    assert MODULUS * q + x == MODULUS * (q + p) + x % MODULUS;
  }
}
