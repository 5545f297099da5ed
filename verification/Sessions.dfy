/** Whole sessions: what every requester receives over any sequence of requests and dispatches. */
module Sessions {
  import opened Wire
  import opened Packets
  import opened PacketProofs
  import opened Packer
  import opened Devices

  /** Packet after packet, each with the id it was given. */
  function Session<D>(server: Server<D>, d: D, packs: seq<Packet>, ids: seq<Half>, order: Order)
    : Option<(D, seq<ChanEvent>)>
    requires |packs| <= |ids|
    decreases |packs|
  {
    if packs == [] then Some((d, []))
    else
      match Exchange(server, d, packs[0], ids[0], order)
      case None => None
      case Some((d1, events)) =>
        match Session(server, d1, packs[1..], ids[1..], order)
        case None => None
        case Some((d2, rest)) => Some((d2, events + rest))
  }

  // ----- a session is the stream of its transactions -----

  lemma {:induction false} ActAppend<D>(server: Server<D>, d: D, xs: seq<Transaction>, ys: seq<Transaction>)
    ensures var (d1, a1) := ActAll(server, d, xs);
            var (d2, a2) := ActAll(server, d1, ys);
            ActAll(server, d, xs + ys) == (d2, a1 + a2)
    decreases |xs|
  {
    if xs == [] {
      assert xs + ys == ys;
      var a2 := ActAll(server, d, ys).1;
      assert [] + a2 == a2;
    } else {
      var (d1, a) := server.act(d, OpOf(xs[0]));
      ActAppend(server, d1, xs[1..], ys);
      assert (xs + ys)[1..] == xs[1..] + ys && (xs + ys)[0] == xs[0];
      var (d2, a1) := ActAll(server, d1, xs[1..]);
      JoinAssoc([a], a1, ActAll(server, d2, ys).1);
    }
  }

  lemma {:induction false} OperateAppend<D>(dev: Device<D>, d: D, xs: seq<Transaction>, ys: seq<Transaction>)
    ensures var (d1, o1) := OperateAll(dev, d, xs);
            var (d2, o2) := OperateAll(dev, d1, ys);
            OperateAll(dev, d, xs + ys) == (d2, o1 + o2)
    decreases |xs|
  {
    if xs == [] {
      assert xs + ys == ys;
      var o2 := OperateAll(dev, d, ys).1;
      assert [] + o2 == o2;
    } else {
      var (d1, out) := OperateOn(dev, d, xs[0]);
      OperateAppend(dev, d1, xs[1..], ys);
      assert (xs + ys)[1..] == xs[1..] + ys && (xs + ys)[0] == xs[0];
      var (d2, o1) := OperateAll(dev, d1, xs[1..]);
      JoinAssoc([out], o1, OperateAll(dev, d2, ys).1);
    }
  }

  lemma {:induction false} DeliverAppend(order: Order, xs: seq<Transaction>, ys: seq<Transaction>,
                                         a1: seq<Answer>, a2: seq<Answer>)
    requires |xs| == |a1| && |ys| == |a2|
    ensures Deliver(order, xs + ys, a1 + a2) == Deliver(order, xs, a1) + Deliver(order, ys, a2)
    decreases |xs|
  {
    if xs == [] {
      assert xs + ys == ys && a1 + a2 == a2;
    } else {
      DeliverAppend(order, xs[1..], ys, a1[1..], a2);
      assert (xs + ys)[1..] == xs[1..] + ys && (xs + ys)[0] == xs[0];
      assert (a1 + a2)[1..] == a1[1..] + a2 && (a1 + a2)[0] == a1[0];
      JoinAssoc(SendOne(xs[0], ResponseFor(xs[0], order, a1[0].code, a1[0].words)),
                Deliver(order, xs[1..], a1[1..]), Deliver(order, ys, a2));
    }
  }

  lemma SuccessAppend(o1: seq<seq<Word>>, o2: seq<seq<Word>>)
    ensures Successes(o1 + o2) == Successes(o1) + Successes(o2)
  {
  }

  /** The position of a transaction in its packet does not matter to device and requester. */
  lemma {:induction false} BareSame<D>(server: Server<D>, d: D, ts: seq<Transaction>, order: Order)
    ensures ActAll(server, d, BareAll(ts)) == ActAll(server, d, ts)
    ensures Deliver(order, BareAll(ts), ActAll(server, d, ts).1) == Deliver(order, ts, ActAll(server, d, ts).1)
    decreases |ts|
  {
    if ts != [] {
      var (d1, a) := server.act(d, OpOf(ts[0]));
      assert OpOf(Bare(ts[0])) == OpOf(ts[0]);
      BareSame(server, d1, ts[1..], order);
      assert BareAll(ts)[1..] == BareAll(ts[1..]);
      var rest := ActAll(server, d1, ts[1..]).1;
      assert ([a] + rest)[1..] == rest;
    }
  }

  lemma {:induction false} SessionStream<D(!new)>(server: Server<D>, d: D, packs: seq<Packet>, ids: seq<Half>,
                                                  order: Order)
    requires AllReady(packs) && |packs| <= |ids| && Honest(server)
    ensures var (d1, answers) := ActAll(server, d, Flat(packs));
            Session(server, d, packs, ids, order) == Some((d1, Deliver(order, Flat(packs), answers)))
    decreases |packs|
  {
    if packs != [] {
      var ts := packs[0].transactions;
      ExchangeDelivers(server, d, packs[0], ids[0], order);
      BareSame(server, d, ts, order);
      var (d1, answers) := ActAll(server, d, ts);
      SessionStream(server, d1, packs[1..], ids[1..], order);
      ActAppend(server, d, BareAll(ts), Flat(packs[1..]));
      DeliverAppend(order, BareAll(ts), Flat(packs[1..]), answers, ActAll(server, d1, Flat(packs[1..])).1);
    }
  }

  lemma {:induction false} FlatShaped(packs: seq<Packet>)
    requires AllReady(packs)
    ensures forall i :: 0 <= i < |Flat(packs)| ==> Shaped(Flat(packs)[i])
    decreases |packs|
  {
    if packs != [] {
      var ts, rest := packs[0].transactions, Flat(packs[1..]);
      FlatShaped(packs[1..]);
      forall i | 0 <= i < |BareAll(ts) + rest|
        ensures Shaped((BareAll(ts) + rest)[i])
      {
        if i < |ts| {
          assert BareAll(ts)[i] == Bare(ts[i]) && Shaped(ts[i]);
        } else {
          assert (BareAll(ts) + rest)[i] == rest[i - |ts|];
        }
      }
    }
  }

  // ----- one channel's view -----

  function On(events: seq<ChanEvent>, c: nat): seq<ChanEvent> {
    if events == [] then []
    else (if events[0].chan == c then [events[0]] else []) + On(events[1..], c)
  }

  lemma {:induction false} OnAppend(xs: seq<ChanEvent>, ys: seq<ChanEvent>, c: nat)
    ensures On(xs + ys, c) == On(xs, c) + On(ys, c)
  {
    if xs == [] {
      assert xs + ys == ys;
    } else {
      OnAppend(xs[1..], ys, c);
      assert (xs + ys)[1..] == xs[1..] + ys && (xs + ys)[0] == xs[0];
      JoinAssoc(if xs[0].chan == c then [xs[0]] else [], On(xs[1..], c), On(ys, c));
    }
  }

  lemma {:induction false} OnOwn(events: seq<ChanEvent>, c: nat)
    requires forall i :: 0 <= i < |events| ==> events[i].chan == c
    ensures On(events, c) == events
  {
    if events != [] {
      OnOwn(events[1..], c);
    }
  }

  lemma {:induction false} OnOther(events: seq<ChanEvent>, c: nat)
    requires forall i :: 0 <= i < |events| ==> events[i].chan != c
    ensures On(events, c) == []
  {
    if events != [] {
      OnOther(events[1..], c);
    }
  }

  /** The responses on a channel, as a loop over it sees them. */
  function ResponsesOn(events: seq<ChanEvent>): seq<Response> {
    if events == [] then []
    else (if events[0].Put? then [events[0].response] else []) + ResponsesOn(events[1..])
  }

  /** A channel's life: responses without error, then closed once, and nothing after that. */
  predicate Orderly(events: seq<ChanEvent>, c: nat) {
    && events != [] && events[|events| - 1] == Close(c)
    && forall i :: 0 <= i < |events| - 1 ==>
         && events[i].Put? && events[i].chan == c
         && events[i].response.err == NoError && events[i].response.code == SUCCESS
  }

  /** The requester of `req` receives exactly the words `ws`, in the form asked for. A request for
      no words gets no response, and its channel is never closed. */
  predicate Served(events: seq<ChanEvent>, req: UserRequest, order: Order, ws: seq<Word>) {
    if Words(req) == 0 then events == []
    else
      && |events| >= 2 && Orderly(events, req.resp)
      && (if req.byteslice then Data(ResponsesOn(events)) == [] && DataB(ResponsesOn(events)) == PutWords(order, ws)
          else Data(ResponsesOn(events)) == ws && DataB(ResponsesOn(events)) == [])
  }

  lemma {:induction false} ResponsesAppend(xs: seq<ChanEvent>, ys: seq<ChanEvent>)
    ensures ResponsesOn(xs + ys) == ResponsesOn(xs) + ResponsesOn(ys)
  {
    if xs == [] {
      assert xs + ys == ys;
    } else {
      ResponsesAppend(xs[1..], ys);
      assert (xs + ys)[1..] == xs[1..] + ys && (xs + ys)[0] == xs[0];
      JoinAssoc(if xs[0].Put? then [xs[0].response] else [], ResponsesOn(xs[1..]), ResponsesOn(ys));
    }
  }

  lemma SendOneResponse(t: Transaction, order: Order, out: seq<Word>)
    ensures var r := ResponseFor(t, order, SUCCESS, out); ResponsesOn(SendOne(t, r)) == [r]
  {
    var es := SendOne(t, ResponseFor(t, order, SUCCESS, out));
    var tail := es[1..];
    assert tail == if t.closechan then [Close(t.resp)] else [];
    assert tail != [] ==> tail[1..] == [];
    assert ResponsesOn(tail) == [];
  }

  lemma LastPiece(req: UserRequest, ts: seq<Transaction>)
    requires IsSplit(req, ts) && ts != []
    ensures ts[0].resp == req.resp && ts[0].byteslice == req.byteslice && Words(req) > 0
    ensures ts[0].closechan <==> ts[1..] == []
    ensures !ts[0].closechan ==>
              && (IsRead(req.typeid) || IsWrite(req.typeid))
              && ts[0].outheader.words as int < Words(req)
              && IsSplit(After(req, ts[0].outheader.words), ts[1..])
  {
  }

  /** A closing piece followed by nothing. */
  lemma ServeLast(req: UserRequest, t: Transaction, order: Order, out: seq<Word>)
    requires t.resp == req.resp && t.byteslice == req.byteslice && t.closechan && Words(req) > 0
    ensures Served(SendOne(t, ResponseFor(t, order, SUCCESS, out)), req, order, out)
  {
    SendOneResponse(t, order, out);
    DataOne(ResponseFor(t, order, SUCCESS, out));
  }

  lemma MoreOrderly(es: seq<ChanEvent>, events: seq<ChanEvent>, c: nat)
    requires Orderly(events, c) && |es| == 1
    requires es[0].Put? && es[0].chan == c && es[0].response.err == NoError && es[0].response.code == SUCCESS
    ensures Orderly(es + events, c)
  {
  }

  /** A piece that leaves the channel open, before pieces that serve the rest. */
  lemma ServeMore(req: UserRequest, rest: UserRequest, t: Transaction, order: Order, out: seq<Word>,
                  events: seq<ChanEvent>, ws: seq<Word>)
    requires t.resp == req.resp == rest.resp && t.byteslice == req.byteslice == rest.byteslice && !t.closechan
    requires Words(req) > 0 && Words(rest) > 0 && Served(events, rest, order, ws)
    ensures Served(SendOne(t, ResponseFor(t, order, SUCCESS, out)) + events, req, order, out + ws)
  {
    var r := ResponseFor(t, order, SUCCESS, out);
    var es := SendOne(t, r);
    assert |es| == 1;
    SendOneResponse(t, order, out);
    MoreOrderly(es, events, req.resp);
    ResponsesAppend(es, events);
    DataCons(r, ResponsesOn(events));
    PutWordsAppend(order, out, ws);
  }

  /** Pieces are served in order on one channel; the last one, and only it, closes the channel. */
  lemma {:induction false} PiecesServe(req: UserRequest, ts: seq<Transaction>, outs: seq<seq<Word>>, order: Order)
    requires IsSplit(req, ts) && |ts| == |outs|
    ensures Served(Deliver(order, ts, Successes(outs)), req, order, Concat(outs))
    decreases |ts|
  {
    if ts != [] {
      LastPiece(req, ts);
      assert Successes(outs)[1..] == Successes(outs[1..]);
      var es := SendOne(ts[0], ResponseFor(ts[0], order, SUCCESS, outs[0]));
      var rest := Deliver(order, ts[1..], Successes(outs[1..]));
      if ts[0].closechan {
        assert rest == [] && es + rest == es;
        assert Concat(outs[1..]) == [] && outs[0] + [] == outs[0];
        ServeLast(req, ts[0], order, outs[0]);
      } else {
        var req' := After(req, ts[0].outheader.words);
        PiecesServe(req', ts[1..], outs[1..], order);
        ServeMore(req, req', ts[0], order, outs[0], rest, Concat(outs[1..]));
      }
    }
  }

  lemma {:induction false} OrderlyResponses(events: seq<ChanEvent>, c: nat)
    requires Orderly(events, c)
    ensures forall i :: 0 <= i < |ResponsesOn(events)| ==> ResponsesOn(events)[i].err == NoError
    decreases |events|
  {
    if |events| > 1 {
      OrderlyResponses(events[1..], c);
    } else {
      assert ResponsesOn(events[1..]) == [];
    }
  }

  lemma ServedOwn(events: seq<ChanEvent>, req: UserRequest, order: Order, ws: seq<Word>)
    requires Served(events, req, order, ws)
    ensures forall i :: 0 <= i < |events| ==> events[i].chan == req.resp
  {
    if events != [] {
      forall i | 0 <= i < |events|
        ensures events[i].chan == req.resp
      {
        if i == |events| - 1 {
          assert events[|events| - 1] == Close(req.resp);
        }
      }
    }
  }

  // ----- all requests together -----

  ghost predicate OwnChannels(reqs: seq<UserRequest>) {
    forall i, j :: 0 <= i < j < |reqs| ==> reqs[i].resp != reqs[j].resp
  }

  ghost predicate Owned(c: nat, reqs: seq<UserRequest>) {
    exists i :: 0 <= i < |reqs| && reqs[i].resp == c
  }

  ghost predicate AllOwned(events: seq<ChanEvent>, reqs: seq<UserRequest>) {
    forall k :: 0 <= k < |events| ==> Owned(events[k].chan, reqs)
  }

  ghost predicate ServedAll(events: seq<ChanEvent>, reqs: seq<UserRequest>, order: Order, results: seq<seq<Word>>)
    requires |results| == |reqs|
  {
    forall i :: 0 <= i < |reqs| ==> Served(On(events, reqs[i].resp), reqs[i], order, results[i])
  }

  /** The stream of a list of requests: the final device state, and each channel's share. */
  lemma {:induction false} StreamServes<D>(dev: Device<D>, d: D, reqs: seq<UserRequest>,
                                           pieces: seq<seq<Transaction>>, order: Order)
    requires SplitAll(reqs, pieces) && OwnChannels(reqs)
    ensures var (d1, outs) := OperateAll(dev, d, Concat(pieces));
            var (e1, results) := UnsplitAll(dev, d, reqs);
            var events := Deliver(order, Concat(pieces), Successes(outs));
            && d1 == e1
            && ServedAll(events, reqs, order, results)
            && AllOwned(events, reqs)
    decreases |reqs|
  {
    if reqs != [] {
      var req, ts, more := reqs[0], pieces[0], Concat(pieces[1..]);
      SplitOperates(dev, d, req, ts);
      var (d1, o1) := OperateAll(dev, d, ts);
      StreamServes(dev, d1, reqs[1..], pieces[1..], order);
      OperateAppend(dev, d, ts, more);
      var (d2, o2) := OperateAll(dev, d1, more);
      SuccessAppend(o1, o2);
      DeliverAppend(order, ts, more, Successes(o1), Successes(o2));
      PiecesServe(req, ts, o1, order);
      var mine, others := Deliver(order, ts, Successes(o1)), Deliver(order, more, Successes(o2));
      ServedOwn(mine, req, order, Concat(o1));
      MergeServes(reqs, mine, others, order, Concat(o1), UnsplitAll(dev, d1, reqs[1..]).1);
    }
  }

  lemma OwnedTail(reqs: seq<UserRequest>, c: nat)
    requires reqs != [] && Owned(c, reqs[1..])
    ensures Owned(c, reqs)
    ensures OwnChannels(reqs) ==> c != reqs[0].resp
  {
    var i :| 0 <= i < |reqs| - 1 && reqs[1..][i].resp == c;
    assert reqs[i + 1].resp == c;
  }

  lemma MergeOwned(reqs: seq<UserRequest>, mine: seq<ChanEvent>, others: seq<ChanEvent>)
    requires reqs != [] && AllOwned(others, reqs[1..])
    requires forall k :: 0 <= k < |mine| ==> mine[k].chan == reqs[0].resp
    ensures AllOwned(mine + others, reqs)
    ensures OwnChannels(reqs) ==> forall k :: 0 <= k < |others| ==> others[k].chan != reqs[0].resp
  {
    forall k | 0 <= k < |others|
      ensures Owned(others[k].chan, reqs)
      ensures OwnChannels(reqs) ==> others[k].chan != reqs[0].resp
    {
      OwnedTail(reqs, others[k].chan);
    }
    forall k | 0 <= k < |mine|
      ensures Owned(mine[k].chan, reqs)
    {
      assert reqs[0].resp == mine[k].chan;
    }
  }

  lemma MergeServes(reqs: seq<UserRequest>, mine: seq<ChanEvent>, others: seq<ChanEvent>,
                    order: Order, ws: seq<Word>, results: seq<seq<Word>>)
    requires reqs != [] && OwnChannels(reqs) && |results| == |reqs| - 1
    requires Served(mine, reqs[0], order, ws) && forall k :: 0 <= k < |mine| ==> mine[k].chan == reqs[0].resp
    requires ServedAll(others, reqs[1..], order, results) && AllOwned(others, reqs[1..])
    ensures ServedAll(mine + others, reqs, order, [ws] + results) && AllOwned(mine + others, reqs)
  {
    MergeOwned(reqs, mine, others);
    forall i | 0 <= i < |reqs|
      ensures Served(On(mine + others, reqs[i].resp), reqs[i], order, ([ws] + results)[i])
    {
      MergeOn(mine, others, reqs[0].resp, reqs[i].resp);
      if i > 0 {
        ServedTail(reqs, others, order, results, i);
        assert ([ws] + results)[i] == results[i - 1];
      }
    }
  }

  lemma ServedTail(reqs: seq<UserRequest>, others: seq<ChanEvent>, order: Order, results: seq<seq<Word>>, i: nat)
    requires 1 <= i < |reqs| && |results| == |reqs| - 1 && ServedAll(others, reqs[1..], order, results)
    ensures Served(On(others, reqs[i].resp), reqs[i], order, results[i - 1])
  {
    assert reqs[1..][i - 1] == reqs[i];
  }

  lemma MergeOn(mine: seq<ChanEvent>, others: seq<ChanEvent>, own: nat, c: nat)
    requires forall k :: 0 <= k < |mine| ==> mine[k].chan == own
    requires forall k :: 0 <= k < |others| ==> others[k].chan != own
    ensures On(mine + others, c) == if c == own then mine else On(others, c)
  {
    OnAppend(mine, others, c);
    if c == own {
      OnOwn(mine, c);
      OnOther(others, c);
      assert mine + [] == mine;
    } else {
      OnOther(mine, c);
      assert [] + On(others, c) == On(others, c);
    }
  }

  /** The main result. Take any sequence of reads, writes, read-modify-writes and dispatches, each call
      with a channel of its own, any device, any byte order on either side and any packet ids. Split,
      packed, encoded, executed, parsed and routed, every requester receives what its request returns
      as one unsplit operation, no other channel is used, and the device ends in the same state. */
  lemma SessionRefines<D(!new)>(dev: Device<D>, d: D, reqs: seq<UserRequest>, ids: seq<Half>,
                                reqOrder: Order, devOrder: Order)
    requires forall i :: 0 <= i < |reqs| ==> Proper(reqs[i])
    requires OwnChannels(Calls(reqs))
    requires |ids| >= |All(PrepareAll(Prepared([], []), reqs, reqOrder))|
    ensures var packs := All(PrepareAll(Prepared([], []), reqs, reqOrder));
            var (d1, results) := UnsplitAll(dev, d, Calls(reqs));
            var o := Session(OfDevice(dev), d, packs, ids, devOrder);
            && o.Some? && o.value.0 == d1
            && ServedAll(o.value.1, Calls(reqs), devOrder, results) && AllOwned(o.value.1, Calls(reqs))
  {
    var s := PrepareAll(Prepared([], []), reqs, reqOrder);
    var pieces := PrepareAllSplits(Prepared([], []), reqs, reqOrder);
    assert Flat([]) + Concat(pieces) == Concat(pieces);
    AllIsReady(s);
    SessionOnDevice(dev, d, All(s), ids, devOrder);
    StreamServes(dev, d, Calls(reqs), pieces, devOrder);
  }

  lemma SessionOnDevice<D(!new)>(dev: Device<D>, d: D, packs: seq<Packet>, ids: seq<Half>, order: Order)
    requires AllReady(packs) && |packs| <= |ids|
    ensures var (d1, outs) := OperateAll(dev, d, Flat(packs));
            Session(OfDevice(dev), d, packs, ids, order) == Some((d1, Deliver(order, Flat(packs), Successes(outs))))
  {
    DeviceHonest(dev);
    SessionStream(OfDevice(dev), d, packs, ids, order);
    FlatShaped(packs);
    ActOnDevice(dev, d, Flat(packs));
  }

  lemma AllIsReady(s: Prepared)
    requires PreparedOk(s)
    ensures AllReady(All(s))
  {
  }

  // ----- devices that may fail -----

  /** The channel of a request whose pieces are `ts`: one response for each, with the code and words of
      its answer and an error for every code but success, then closed once, and nothing after that. */
  predicate Responded(events: seq<ChanEvent>, req: UserRequest, ts: seq<Transaction>, answers: seq<Answer>,
                      order: Order)
    requires |ts| == |answers|
  {
    if ts == [] then events == []
    else
      && |events| == |ts| + 1 && events[|ts|] == Close(req.resp)
      && forall i :: 0 <= i < |ts| ==>
           events[i] == Put(req.resp, ResponseFor(ts[i], order, answers[i].code, answers[i].words))
  }

  lemma {:induction false} PiecesAnswered(req: UserRequest, ts: seq<Transaction>, answers: seq<Answer>, order: Order)
    requires IsSplit(req, ts) && |ts| == |answers|
    ensures Responded(Deliver(order, ts, answers), req, ts, answers, order)
    decreases |ts|
  {
    if ts != [] {
      LastPiece(req, ts);
      var es := SendOne(ts[0], ResponseFor(ts[0], order, answers[0].code, answers[0].words));
      var rest := Deliver(order, ts[1..], answers[1..]);
      if ts[0].closechan {
        assert rest == [] && es + rest == es;
      } else {
        PiecesAnswered(After(req, ts[0].outheader.words), ts[1..], answers[1..], order);
        assert |es| == 1 && ts[1..] != [];
        forall i | 1 <= i < |ts|
          ensures (es + rest)[i] == Put(req.resp, ResponseFor(ts[i], order, answers[i].code, answers[i].words))
        {
          assert (es + rest)[i] == rest[i - 1] && ts[1..][i - 1] == ts[i] && answers[1..][i - 1] == answers[i];
        }
      }
    }
  }

  ghost predicate RespondedAll(events: seq<ChanEvent>, reqs: seq<UserRequest>, pieces: seq<seq<Transaction>>,
                              answers: seq<seq<Answer>>, order: Order)
    requires |pieces| == |answers| == |reqs|
  {
    forall i :: 0 <= i < |reqs| ==>
      && |pieces[i]| == |answers[i]|
      && Responded(On(events, reqs[i].resp), reqs[i], pieces[i], answers[i], order)
  }

  lemma RespondedOwn(events: seq<ChanEvent>, req: UserRequest, ts: seq<Transaction>, answers: seq<Answer>, order: Order)
    requires |ts| == |answers| && Responded(events, req, ts, answers, order)
    ensures forall i :: 0 <= i < |events| ==> events[i].chan == req.resp
  {
  }

  lemma MergeAnswers(reqs: seq<UserRequest>, mine: seq<ChanEvent>, others: seq<ChanEvent>, order: Order,
                     pieces: seq<seq<Transaction>>, answers: seq<seq<Answer>>)
    requires reqs != [] && OwnChannels(reqs) && |pieces| == |answers| == |reqs| && |pieces[0]| == |answers[0]|
    requires Responded(mine, reqs[0], pieces[0], answers[0], order)
    requires RespondedAll(others, reqs[1..], pieces[1..], answers[1..], order) && AllOwned(others, reqs[1..])
    ensures RespondedAll(mine + others, reqs, pieces, answers, order) && AllOwned(mine + others, reqs)
  {
    RespondedOwn(mine, reqs[0], pieces[0], answers[0], order);
    MergeOwned(reqs, mine, others);
    forall i | 0 <= i < |reqs|
      ensures |pieces[i]| == |answers[i]|
      ensures Responded(On(mine + others, reqs[i].resp), reqs[i], pieces[i], answers[i], order)
    {
      MergeOn(mine, others, reqs[0].resp, reqs[i].resp);
      if i > 0 {
        assert reqs[1..][i - 1] == reqs[i] && pieces[1..][i - 1] == pieces[i] && answers[1..][i - 1] == answers[i];
      }
    }
  }

  /** On the stream of all requests, each channel gets exactly the answers to its own request. */
  lemma {:induction false} StreamAnswers<D>(server: Server<D>, d: D, reqs: seq<UserRequest>,
                                            pieces: seq<seq<Transaction>>, order: Order)
    returns (answers: seq<seq<Answer>>)
    requires SplitAll(reqs, pieces) && OwnChannels(reqs)
    ensures |answers| == |reqs|
    ensures var (d1, flat) := ActAll(server, d, Concat(pieces));
            var events := Deliver(order, Concat(pieces), flat);
            flat == Concat(answers) && RespondedAll(events, reqs, pieces, answers, order) && AllOwned(events, reqs)
    decreases |reqs|
  {
    if reqs == [] {
      answers := [];
    } else {
      var ts, more := pieces[0], Concat(pieces[1..]);
      var (d1, mine) := ActAll(server, d, ts);
      var rest := StreamAnswers(server, d1, reqs[1..], pieces[1..], order);
      answers := [mine] + rest;
      assert answers[1..] == rest;
      ActAppend(server, d, ts, more);
      DeliverAppend(order, ts, more, mine, ActAll(server, d1, more).1);
      PiecesAnswered(reqs[0], ts, mine, order);
      var others := Deliver(order, more, ActAll(server, d1, more).1);
      MergeAnswers(reqs, Deliver(order, ts, mine), others, order, pieces, answers);
    }
  }

  /** With any device, failing or not: each request's channel gets one response per piece, with the
      code and words the device answered to that piece when it carried out all pieces in order, and is
      closed once behind the last; no other channel is used. */
  lemma SessionAnswers<D(!new)>(server: Server<D>, d: D, reqs: seq<UserRequest>, ids: seq<Half>,
                                reqOrder: Order, devOrder: Order)
    returns (pieces: seq<seq<Transaction>>, answers: seq<seq<Answer>>)
    requires forall i :: 0 <= i < |reqs| ==> Proper(reqs[i])
    requires OwnChannels(Calls(reqs)) && Honest(server)
    requires |ids| >= |All(PrepareAll(Prepared([], []), reqs, reqOrder))|
    ensures SplitAll(Calls(reqs), pieces) && |answers| == |pieces|
    ensures var packs := All(PrepareAll(Prepared([], []), reqs, reqOrder));
            var o := Session(server, d, packs, ids, devOrder);
            && o.Some? && ActAll(server, d, Concat(pieces)) == (o.value.0, Concat(answers))
            && RespondedAll(o.value.1, Calls(reqs), pieces, answers, devOrder) && AllOwned(o.value.1, Calls(reqs))
  {
    var s := PrepareAll(Prepared([], []), reqs, reqOrder);
    pieces := PrepareAllSplits(Prepared([], []), reqs, reqOrder);
    assert Flat([]) + Concat(pieces) == Concat(pieces);
    AllIsReady(s);
    SessionStream(server, d, All(s), ids, devOrder);
    answers := StreamAnswers(server, d, Calls(reqs), pieces, devOrder);
  }
}
