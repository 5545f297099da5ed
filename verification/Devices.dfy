/** From user request to user result: splitting, packing, encoding, executing on a device, parsing
  * and routing together do what one unsplit operation per request would do. */
module Devices {
  import opened Wire
  import opened Bits
  import opened Packets
  import opened PacketProofs
  import opened Packer

  /** Any device with readable and writable words. Reads may have side effects, as on a FIFO port. */
  datatype Device<!D> = Device(read: (D, Word) -> (D, Word), write: (D, Word, Word) -> D)

  // ----- operations on the device -----

  /** The address `n` words on; a non-incrementing operation stays where it is. */
  function Move(addr: Word, inc: bool, n: nat): Word {
    if inc then (addr + n) % MODULUS else addr
  }

  function ReadRun<D>(dev: Device<D>, d: D, addr: Word, inc: bool, n: nat): (r: (D, seq<Word>))
    ensures |r.1| == n
    decreases n
  {
    if n == 0 then (d, [])
    else
      var (d1, w) := dev.read(d, addr);
      var (d2, ws) := ReadRun(dev, d1, Move(addr, inc, 1), inc, n - 1);
      (d2, [w] + ws)
  }

  function WriteRun<D>(dev: Device<D>, d: D, addr: Word, inc: bool, ws: seq<Word>): D
    decreases |ws|
  {
    if ws == [] then d
    else WriteRun(dev, dev.write(d, addr, ws[0]), Move(addr, inc, 1), inc, ws[1..])
  }

  /** x = (x & and) | or, on 32-bit words. */
  function RmwBits(x: Word, andterm: Word, orterm: Word): Word {
    FromBits(Or(And(ToBits(x), ToBits(andterm)), ToBits(orterm)))
  }

  /** One operation of `n` words, split or not: the new device state and the words it returns. */
  function Operate<D>(dev: Device<D>, d: D, tid: Nibble, n: nat, addr: Word, input: seq<Word>): (D, seq<Word>) {
    if IsRead(tid) then ReadRun(dev, d, addr, Increments(tid), n)
    else if IsWrite(tid) then (WriteRun(dev, d, addr, Increments(tid), input), [])
    else if tid == RMW_BITS && |input| == 2 then
      var (d1, x) := dev.read(d, addr);
      (dev.write(d1, addr, RmwBits(x, input[0], input[1])), [x])
    else if tid == RMW_SUM && |input| == 1 then
      var (d1, x) := dev.read(d, addr);
      (dev.write(d1, addr, (x + input[0]) % MODULUS), [x])
    else (d, [])
  }

  function OperateOn<D>(dev: Device<D>, d: D, t: Transaction): (D, seq<Word>) {
    Operate(dev, d, t.outheader.tid, t.outheader.words, t.addr, t.input)
  }

  /** A user request as one operation, however long. */
  function Unsplit<D>(dev: Device<D>, d: D, req: UserRequest): (D, seq<Word>) {
    Operate(dev, d, req.typeid, Words(req), req.addr, req.input)
  }

  function OperateAll<D>(dev: Device<D>, d: D, ts: seq<Transaction>): (r: (D, seq<seq<Word>>))
    ensures |r.1| == |ts|
    decreases |ts|
  {
    if ts == [] then (d, [])
    else
      var (d1, out) := OperateOn(dev, d, ts[0]);
      var (d2, outs) := OperateAll(dev, d1, ts[1..]);
      (d2, [out] + outs)
  }

  function UnsplitAll<D>(dev: Device<D>, d: D, reqs: seq<UserRequest>): (r: (D, seq<seq<Word>>))
    ensures |r.1| == |reqs|
    decreases |reqs|
  {
    if reqs == [] then (d, [])
    else
      var (d1, out) := Unsplit(dev, d, reqs[0]);
      var (d2, outs) := UnsplitAll(dev, d1, reqs[1..]);
      (d2, [out] + outs)
  }

  // ----- splitting does not change the operation -----

  lemma MoveOn(addr: Word, inc: bool, n: nat)
    requires n > 0
    ensures Move(Move(addr, inc, 1), inc, n - 1) == Move(addr, inc, n)
  {
    ModAdd(addr, 1, n - 1);
  }

  lemma {:induction false} ReadRunSplit<D>(dev: Device<D>, d: D, addr: Word, inc: bool, n: nat, m: nat)
    ensures var (d1, xs) := ReadRun(dev, d, addr, inc, n);
            var (d2, ys) := ReadRun(dev, d1, Move(addr, inc, n), inc, m);
            ReadRun(dev, d, addr, inc, n + m) == (d2, xs + ys)
    decreases n
  {
    if n == 0 {
      var ys := ReadRun(dev, d, addr, inc, m).1;
      assert [] + ys == ys;
    } else {
      var (d1, w) := dev.read(d, addr);
      var next := Move(addr, inc, 1);
      ReadRunSplit(dev, d1, next, inc, n - 1, m);
      MoveOn(addr, inc, n);
      var (d2, xs) := ReadRun(dev, d1, next, inc, n - 1);
      var (d3, ys) := ReadRun(dev, d2, Move(next, inc, n - 1), inc, m);
      assert ReadRun(dev, d1, next, inc, n + m - 1) == (d3, xs + ys);
      JoinAssoc([w], xs, ys);
    }
  }

  lemma {:induction false} WriteRunSplit<D>(dev: Device<D>, d: D, addr: Word, inc: bool, xs: seq<Word>, ys: seq<Word>)
    ensures WriteRun(dev, WriteRun(dev, d, addr, inc, xs), Move(addr, inc, |xs|), inc, ys) ==
            WriteRun(dev, d, addr, inc, xs + ys)
    decreases |xs|
  {
    if xs == [] {
      assert xs + ys == ys;
    } else {
      var next := Move(addr, inc, 1);
      WriteRunSplit(dev, dev.write(d, addr, xs[0]), next, inc, xs[1..], ys);
      MoveOn(addr, inc, |xs|);
      assert (xs + ys)[1..] == xs[1..] + ys && (xs + ys)[0] == xs[0];
    }
  }

  lemma AfterAddr(req: UserRequest, n: nat)
    requires (IsRead(req.typeid) || IsWrite(req.typeid)) && n <= Words(req)
    ensures After(req, n).addr == Move(req.addr, Increments(req.typeid), n)
  {
  }

  lemma ReadChunk<D>(dev: Device<D>, d: D, req: UserRequest, n: nat)
    requires IsRead(req.typeid) && 1 <= n <= 255 && n <= req.nwords
    ensures var (d1, out) := OperateOn(dev, d, Chunk(req, n));
            var (d2, rest) := Unsplit(dev, d1, After(req, n));
            Unsplit(dev, d, req) == (d2, out + rest)
  {
    AfterAddr(req, n);
    ReadRunSplit(dev, d, req.addr, Increments(req.typeid), n, req.nwords - n);
  }

  lemma WriteChunk<D>(dev: Device<D>, d: D, req: UserRequest, n: nat)
    requires IsWrite(req.typeid) && 1 <= n <= 255 && n <= |req.input|
    ensures var (d1, out) := OperateOn(dev, d, Chunk(req, n));
            var (d2, rest) := Unsplit(dev, d1, After(req, n));
            Unsplit(dev, d, req) == (d2, out + rest)
  {
    AfterAddr(req, n);
    WriteRunSplit(dev, d, req.addr, Increments(req.typeid), req.input[..n], req.input[n..]);
    assert req.input[..n] + req.input[n..] == req.input;
    var none: seq<Word> := [];
    assert none + none == none;
  }

  /** Executing the pieces of a request in order is executing the request unsplit. */
  lemma {:induction false} SplitOperates<D>(dev: Device<D>, d: D, req: UserRequest, ts: seq<Transaction>)
    requires IsSplit(req, ts)
    ensures var (d1, outs) := OperateAll(dev, d, ts);
            Unsplit(dev, d, req) == (d1, Concat(outs))
    decreases |ts|
  {
    if !IsRead(req.typeid) && !IsWrite(req.typeid) {
      var (d1, out) := OperateOn(dev, d, ts[0]);
      assert Unsplit(dev, d, req) == (d1, out);
      assert ts[1..] == [];
      var outs := OperateAll(dev, d1, ts[1..]).1;
      assert [out] + outs == [out];
      assert out + Concat([]) == out;
      assert [out][1..] == [];
    } else if Words(req) > 0 {
      var n := ts[0].outheader.words as int;
      if IsRead(req.typeid) {
        ReadChunk(dev, d, req, n);
      } else {
        WriteChunk(dev, d, req, n);
      }
      var (d1, out) := OperateOn(dev, d, ts[0]);
      SplitOperates(dev, d1, After(req, n), ts[1..]);
      var (d2, outs) := OperateAll(dev, d1, ts[1..]);
      assert OperateAll(dev, d, ts) == (d2, [out] + outs);
      assert ([out] + outs)[1..] == outs;
    }
  }

  // ----- anything that answers requests -----

  /** An operation as a device sees it; its place in a packet does not matter. */
  datatype Op = Op(tid: Nibble, words: Byte, addr: Word, input: seq<Word>)

  /** Its answer: the info code of the reply, and words if the code is success. */
  datatype Answer = Answer(code: Nibble, words: seq<Word>)

  /** A device that may fail: each operation is answered with a code of its own. */
  datatype Server<!D> = Server(act: (D, Op) -> (D, Answer))

  predicate Fits(op: Op, a: Answer) {
    |a.words| == if a.code == SUCCESS then PayloadWords(op.tid, op.words) else 0
  }

  /** Successful answers carry the words asked for, others none. */
  ghost predicate Honest<D(!new)>(server: Server<D>) {
    forall d, op :: Fits(op, server.act(d, op).1)
  }

  function OpOf(t: Transaction): Op {
    Op(t.outheader.tid, t.outheader.words, t.addr, t.input)
  }

  predicate WellFormed(op: Op) {
    Known(op.tid) && |op.input| == InputWords(op.tid, op.words)
  }

  const BAD_HEADER: Nibble := 1

  /** The device that carries out every well-formed operation and answers success. */
  function OfDevice<D>(dev: Device<D>): Server<D> {
    Server((d, op: Op) =>
      if WellFormed(op) then
        var (d1, ws) := Operate(dev, d, op.tid, op.words, op.addr, op.input);
        (d1, Answer(SUCCESS, ws))
      else (d, Answer(BAD_HEADER, [])))
  }

  lemma DeviceHonest<D(!new)>(dev: Device<D>)
    ensures Honest(OfDevice(dev))
  {
  }

  function ActAll<D>(server: Server<D>, d: D, ts: seq<Transaction>): (r: (D, seq<Answer>))
    ensures |r.1| == |ts|
    decreases |ts|
  {
    if ts == [] then (d, [])
    else
      var (d1, a) := server.act(d, OpOf(ts[0]));
      var (d2, rest) := ActAll(server, d1, ts[1..]);
      (d2, [a] + rest)
  }

  function Successes(outs: seq<seq<Word>>): (answers: seq<Answer>)
    ensures |answers| == |outs|
  {
    seq(|outs|, i requires 0 <= i < |outs| => Answer(SUCCESS, outs[i]))
  }

  lemma {:induction false} ActOnDevice<D>(dev: Device<D>, d: D, ts: seq<Transaction>)
    requires forall i :: 0 <= i < |ts| ==> Shaped(ts[i])
    ensures var (d1, outs) := OperateAll(dev, d, ts);
            ActAll(OfDevice(dev), d, ts) == (d1, Successes(outs))
    decreases |ts|
  {
    if ts != [] {
      assert Shaped(ts[0]);
      var (d1, out) := OperateOn(dev, d, ts[0]);
      ActOnDevice(dev, d1, ts[1..]);
      var outs := OperateAll(dev, d1, ts[1..]).1;
      assert Successes([out] + outs) == [Answer(SUCCESS, out)] + Successes(outs);
    }
  }

  function ServeItems<D>(server: Server<D>, d: D, items: seq<RequestItem>): (D, seq<ReplyItem>)
    decreases |items|
  {
    if items == [] then (d, [])
    else
      var h := items[0].header;
      var (d1, a) := server.act(d, Op(h.tid, h.words, items[0].addr, items[0].input));
      var (d2, rest) := ServeItems(server, d1, items[1..]);
      (d2, [ReplyItem(h.(code := a.code), a.words)] + rest)
  }

  /** The device decodes a control packet, carries it out and answers in its own byte order. */
  function Serve<D>(server: Server<D>, d: D, request: seq<Byte>, order: Order): Option<(D, seq<Byte>)> {
    match DecodeRequest(request)
    case None => None
    case Some((h, items)) =>
      if h.ptype != CONTROL then None
      else
        var (d1, replies) := ServeItems(server, d, items);
        Some((d1, EncodeReply(h.pid, order, replies)))
  }

  function ReplyItems(ts: seq<Transaction>, answers: seq<Answer>): (items: seq<ReplyItem>)
    requires |ts| == |answers|
    ensures |items| == |ts|
    ensures forall i :: 0 <= i < |ts| ==>
              items[i] == ReplyItem(ts[i].outheader.(code := answers[i].code), answers[i].words)
  {
    if ts == [] then []
    else [ReplyItem(ts[0].outheader.(code := answers[0].code), answers[0].words)] + ReplyItems(ts[1..], answers[1..])
  }

  lemma {:induction false} ServeTransactions<D>(server: Server<D>, d: D, ts: seq<Transaction>)
    ensures var (d1, answers) := ActAll(server, d, ts);
            ServeItems(server, d, Items(ts)) == (d1, ReplyItems(ts, answers))
    decreases |ts|
  {
    if ts != [] {
      var (d1, a) := server.act(d, OpOf(ts[0]));
      ServeTransactions(server, d1, ts[1..]);
      var answers := ActAll(server, d1, ts[1..]).1;
      assert Items(ts)[1..] == Items(ts[1..]);
      assert ([a] + answers)[1..] == answers;
    }
  }

  lemma {:induction false} AnswersFit<D(!new)>(server: Server<D>, d: D, ts: seq<Transaction>)
    requires Honest(server)
    ensures forall i :: 0 <= i < |ts| ==> Fits(OpOf(ts[i]), ActAll(server, d, ts).1[i])
    decreases |ts|
  {
    if ts != [] {
      var (d1, a) := server.act(d, OpOf(ts[0]));
      AnswersFit(server, d1, ts[1..]);
      assert ActAll(server, d, ts).1 == [a] + ActAll(server, d1, ts[1..]).1;
      assert Fits(OpOf(ts[0]), a);
    }
  }

  // ----- what the requesters receive -----

  /** The channel operations that hand the answers to the transactions `ts` back. */
  function Deliver(order: Order, ts: seq<Transaction>, answers: seq<Answer>): seq<ChanEvent>
    requires |ts| == |answers|
  {
    if ts == [] then []
    else
      SendOne(ts[0], ResponseFor(ts[0], order, answers[0].code, answers[0].words))
      + Deliver(order, ts[1..], answers[1..])
  }

  lemma {:induction false} SendDelivers(order: Order, ts: seq<Transaction>, replies: seq<Response>,
                                        answers: seq<Answer>)
    requires |ts| == |replies| == |answers|
    requires forall i :: 0 <= i < |ts| ==> replies[i] == ResponseFor(ts[i], order, answers[i].code, answers[i].words)
    ensures SendAll(ts, replies) == Deliver(order, ts, answers)
    decreases |ts|
  {
    if ts != [] {
      SendDelivers(order, ts[1..], replies[1..], answers[1..]);
    }
  }

  /** One packet: header written, bytes served, reply parsed, responses sent. */
  function Exchange<D>(server: Server<D>, d: D, p: Packet, id: Half, order: Order): Option<(D, seq<ChanEvent>)> {
    match Serve(server, d, WriteHeader(p, id).request, order)
    case None => None
    case Some((d1, bytes)) =>
      var o := Parse(WriteHeader(p, id), bytes);
      if o.Parsed? && |p.transactions| <= |o.replies| then Some((d1, SendAll(p.transactions, o.replies))) else None
  }

  /** The device sees the packet's transactions and answers each of them. */
  lemma ServeReady<D>(server: Server<D>, d: D, p: Packet, id: Half, order: Order)
    requires Ready(p)
    ensures var (d1, answers) := ActAll(server, d, p.transactions);
            Serve(server, d, WriteHeader(p, id).request, order) ==
              Some((d1, EncodeReply(id, order, ReplyItems(p.transactions, answers))))
  {
    RequestRoundTrip(p, id);
    ServeTransactions(server, d, p.transactions);
  }

  /** The reply to a packet is parsed into one response per transaction, with its code and words. */
  lemma ParseReady(p: Packet, id: Half, order: Order, answers: seq<Answer>)
    requires Ready(p) && |answers| == |p.transactions|
    requires forall i :: 0 <= i < |answers| ==> Fits(OpOf(p.transactions[i]), answers[i])
    ensures var ts := p.transactions;
            var o := Parse(WriteHeader(p, id), EncodeReply(id, order, ReplyItems(ts, answers)));
            && o.Parsed? && |o.replies| == |ts|
            && forall i :: 0 <= i < |ts| ==>
                 o.replies[i] == ResponseFor(ts[i], order, answers[i].code, answers[i].words)
  {
    var ts := p.transactions;
    var items := ReplyItems(ts, answers);
    forall i | 0 <= i < |items|
      ensures items[i].header.id == i && |items[i].payload| == Payload(items[i].header)
    {
      assert ts[i].outheader.id == i;
    }
    ReplyRoundTrip(WriteHeader(p, id), id, order, items);
  }

  /** One packet from bytes to responses: the requesters receive what the device answers. */
  lemma ExchangeDelivers<D(!new)>(server: Server<D>, d: D, p: Packet, id: Half, order: Order)
    requires Ready(p) && Honest(server)
    ensures var (d1, answers) := ActAll(server, d, p.transactions);
            Exchange(server, d, p, id, order) == Some((d1, Deliver(order, p.transactions, answers)))
  {
    var ts, answers := p.transactions, ActAll(server, d, p.transactions).1;
    AnswersFit(server, d, ts);
    ServeReady(server, d, p, id, order);
    ParseReady(p, id, order, answers);
    var o := Parse(WriteHeader(p, id), EncodeReply(id, order, ReplyItems(ts, answers)));
    SendDelivers(order, ts, o.replies, answers);
  }
}
