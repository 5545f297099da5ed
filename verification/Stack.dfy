/** The whole stack: user requests through the packer, the window engine, the wire, a device, the
  * reply parser and back, over any run of the engine with losses, retransmissions and reordering. */
module Stack {
  import opened Wire
  import opened Packets
  import opened Packer
  import opened Devices
  import opened Sessions
  import opened Window
  import opened WindowInvariant
  import opened WindowRuns
  import opened WindowReplies

  type Engine = State<Packet, seq<Byte>>

  // ----- the device at the other end of the wire -----

  /** One input after the other: the final state and the output to each. */
  function Fold<D, X, Y>(f: (D, X) -> (D, Y), d: D, xs: seq<X>): (r: (D, seq<Y>))
    ensures |r.1| == |xs|
    decreases |xs|
  {
    if xs == [] then (d, [])
    else
      var (d1, y) := f(d, xs[0]);
      var (d2, ys) := Fold(f, d1, xs[1..]);
      (d2, [y] + ys)
  }

  lemma {:induction false} FoldPrefix<D, X, Y>(f: (D, X) -> (D, Y), d: D, xs: seq<X>, n: nat)
    requires n <= |xs|
    ensures Fold(f, d, xs[..n]).1 == Fold(f, d, xs).1[..n]
    decreases |xs|
  {
    if n > 0 {
      assert xs[..n][0] == xs[0] && xs[..n][1..] == xs[1..][..n - 1];
      FoldPrefix(f, f(d, xs[0]).0, xs[1..], n - 1);
    }
  }

  /** What the device does with one packet. What it cannot decode changes nothing. */
  function React<D>(server: Server<D>, order: Order): (D, Stamped<Packet>) -> (D, seq<Byte>) {
    (d, p: Stamped<Packet>) =>
      match Serve(server, d, WriteHeader(p.pack, p.id).request, order)
      case None => (d, [])
      case Some(answer) => answer
  }

  /** A device that carries out the packets of `sent` one after the other: its final state and the
      bytes it answers to each. */
  function Answers<D>(server: Server<D>, d: D, sent: seq<Stamped<Packet>>, order: Order): (r: (D, seq<seq<Byte>>))
    ensures |r.1| == |sent|
  {
    Fold(React(server, order), d, sent)
  }

  /** A reply to a packet in flight carries what the device answers to that packet after the ones
      transmitted before it. When the reply comes, and in what order, is left open. */
  ghost predicate FaithfulEvent<D>(s: Engine, e: Event<Packet, seq<Byte>>, server: Server<D>, d: D, order: Order) {
    e.Reply? && e.id in s.flying ==>
      forall k :: |s.delivered| <= k < |Firsts(s.wire)| && Firsts(s.wire)[k].id == e.id ==>
        e.reply == Answers(server, d, Firsts(s.wire), order).1[k]
  }

  ghost predicate FaithfulRun<D>(s: Engine, es: seq<Event<Packet, seq<Byte>>>, server: Server<D>, d: D, order: Order)
    decreases |es|
  {
    es != [] ==>
      && FaithfulEvent(s, es[0], server, d, order)
      && (Step(s, es[0]).Next? ==> FaithfulRun(Step(s, es[0]).state, es[1..], server, d, order))
  }

  /** The device's answer to the k-th packet of `plan`. */
  function RightFor<D>(server: Server<D>, d: D, plan: seq<Stamped<Packet>>, order: Order): nat -> seq<Byte> {
    var replies := Answers(server, d, plan, order).1;
    (k: nat) => if k < |replies| then replies[k] else []
  }

  lemma RightForPrefix<D>(server: Server<D>, d: D, plan: seq<Stamped<Packet>>, n: nat, order: Order)
    requires n <= |plan|
    ensures forall k :: 0 <= k < n ==> RightFor(server, d, plan, order)(k) == Answers(server, d, plan[..n], order).1[k]
  {
    FoldPrefix(React(server, order), d, plan, n);
  }

  lemma FirstsAccepted(s: Engine)
    requires Inv(s)
    ensures var n := |s.delivered| + |s.flyingids|; n <= |s.accepted| && Firsts(s.wire) == s.accepted[..n]
  {
  }

  lemma FaithfulRight<D>(s: Engine, e: Event<Packet, seq<Byte>>, server: Server<D>, d: D, order: Order,
                         plan: seq<Stamped<Packet>>)
    requires var n := |s.delivered| + |s.flyingids|; n <= |s.accepted| && Firsts(s.wire) == s.accepted[..n]
    requires s.accepted <= plan && FaithfulEvent(s, e, server, d, order)
    ensures RightEvent(s, e, RightFor(server, d, plan, order))
  {
    var n := |s.delivered| + |s.flyingids|;
    assert Firsts(s.wire) == plan[..n];
    RightForPrefix(server, d, plan, n, order);
    if e.Reply? && e.id in s.flying {
      forall k | |s.delivered| <= k < n && s.accepted[k].id == e.id
        ensures e.reply == RightFor(server, d, plan, order)(k)
      {
        assert Firsts(s.wire)[k] == s.accepted[k];
      }
    }
  }

  lemma {:induction false} RunExtends(s: Engine, es: seq<Event<Packet, seq<Byte>>>)
    requires Run(s, es).Next?
    ensures s.accepted <= Run(s, es).state.accepted
    decreases |es|
  {
    if es != [] {
      StepAccepted(s, es[0]);
      RunExtends(Step(s, es[0]).state, es[1..]);
    }
  }

  lemma {:induction false} FaithfulRunRight<D>(s: Engine, es: seq<Event<Packet, seq<Byte>>>, server: Server<D>, d: D,
                                               order: Order, plan: seq<Stamped<Packet>>)
    requires Inv(s) && NeverOverflows(s, es) && Run(s, es).Next? && FaithfulRun(s, es, server, d, order)
    requires Run(s, es).state.accepted <= plan
    ensures RightRun(s, es, RightFor(server, d, plan, order))
    decreases |es|
  {
    if es != [] {
      StepExact(s, es[0]);
      RunExtends(s, es);
      FirstsAccepted(s);
      FaithfulRight(s, es[0], server, d, order, plan);
      FaithfulRunRight(Step(s, es[0]).state, es[1..], server, d, order, plan);
    }
  }

  // ----- what the delivered replies put on the channels -----

  /** Parsing and routing one reply, as the reply branch and returnreply do. None if it cannot be
      parsed into a response for every transaction. */
  function HandOne(a: Answered<Packet, seq<Byte>>): Option<seq<ChanEvent>> {
    var o := Parse(WriteHeader(a.pack, a.id), a.reply);
    if o.Parsed? && |a.pack.transactions| <= |o.replies| then Some(SendAll(a.pack.transactions, o.replies)) else None
  }

  /** The delivered replies in turn. */
  function Handed(delivered: seq<Answered<Packet, seq<Byte>>>): Option<seq<ChanEvent>> {
    if delivered == [] then Some([])
    else
      match HandOne(delivered[0])
      case None => None
      case Some(events) =>
        match Handed(delivered[1..])
        case None => None
        case Some(rest) => Some(events + rest)
  }

  function PacketsOf(ps: seq<Stamped<Packet>>): seq<Packet> {
    seq(|ps|, i requires 0 <= i < |ps| => ps[i].pack)
  }

  function IdsOf(ps: seq<Stamped<Packet>>): seq<Half> {
    seq(|ps|, i requires 0 <= i < |ps| => ps[i].id)
  }

  /** One packet's answer, parsed and routed, is the packet's exchange. */
  lemma ReactHands<D(!new)>(server: Server<D>, d: D, p: Stamped<Packet>, order: Order)
    requires Ready(p.pack) && Honest(server)
    ensures var (d1, bytes) := React(server, order)(d, p);
            var o := Exchange(server, d, p.pack, p.id, order);
            o.Some? && o.value.0 == d1 && HandOne(Answered(p.id, p.pack, bytes)) == Some(o.value.1)
  {
    ExchangeDelivers(server, d, p.pack, p.id, order);
  }

  lemma SessionCons<D>(server: Server<D>, d: D, packs: seq<Packet>, ids: seq<Half>, order: Order)
    requires packs != [] && |packs| <= |ids| && Exchange(server, d, packs[0], ids[0], order).Some?
    requires var d1 := Exchange(server, d, packs[0], ids[0], order).value.0;
             Session(server, d1, packs[1..], ids[1..], order).Some?
    ensures var (d1, events) := Exchange(server, d, packs[0], ids[0], order).value;
            var (d2, rest) := Session(server, d1, packs[1..], ids[1..], order).value;
            Session(server, d, packs, ids, order) == Some((d2, events + rest))
  {
  }

  lemma HandedCons(delivered: seq<Answered<Packet, seq<Byte>>>)
    requires delivered != [] && HandOne(delivered[0]).Some? && Handed(delivered[1..]).Some?
    ensures Handed(delivered) == Some(HandOne(delivered[0]).value + Handed(delivered[1..]).value)
  {
  }

  /** `delivered` answers the packets of `sent` with `replies`. */
  ghost predicate Answering(sent: seq<Stamped<Packet>>, delivered: seq<Answered<Packet, seq<Byte>>>,
                            replies: seq<seq<Byte>>)
  {
    && |sent| == |delivered| == |replies|
    && forall k :: 0 <= k < |sent| ==> delivered[k] == Answered(sent[k].id, sent[k].pack, replies[k])
  }

  lemma AnsweringTail(sent: seq<Stamped<Packet>>, delivered: seq<Answered<Packet, seq<Byte>>>,
                      y: seq<Byte>, ys: seq<seq<Byte>>)
    requires sent != [] && Answering(sent, delivered, [y] + ys)
    ensures delivered[0] == Answered(sent[0].id, sent[0].pack, y)
    ensures Answering(sent[1..], delivered[1..], ys)
  {
    assert ([y] + ys)[0] == y && ([y] + ys)[1..] == ys;
    forall k | 0 <= k < |sent| - 1
      ensures delivered[1..][k] == Answered(sent[1..][k].id, sent[1..][k].pack, ys[k])
    {
      assert delivered[1..][k] == delivered[k + 1] && ([y] + ys)[k + 1] == ys[k];
    }
  }

  lemma StampedTail(sent: seq<Stamped<Packet>>)
    requires sent != []
    ensures PacketsOf(sent)[1..] == PacketsOf(sent[1..]) && IdsOf(sent)[1..] == IdsOf(sent[1..])
    ensures PacketsOf(sent)[0] == sent[0].pack && IdsOf(sent)[0] == sent[0].id
    ensures AllReady(PacketsOf(sent)) ==> Ready(sent[0].pack) && AllReady(PacketsOf(sent[1..]))
  {
  }

  /** The answers, parsed and routed, are the session of the packets. */
  lemma {:induction false} HandedIsSession<D(!new)>(server: Server<D>, d: D, sent: seq<Stamped<Packet>>,
                                              delivered: seq<Answered<Packet, seq<Byte>>>, order: Order)
    requires Honest(server) && AllReady(PacketsOf(sent))
    requires Answering(sent, delivered, Fold(React(server, order), d, sent).1)
    ensures var o := Session(server, d, PacketsOf(sent), IdsOf(sent), order);
            o.Some? && o.value.0 == Fold(React(server, order), d, sent).0 && Handed(delivered) == Some(o.value.1)
    decreases |sent|
  {
    if sent != [] {
      var (d1, y) := React(server, order)(d, sent[0]);
      var (d2, ys) := Fold(React(server, order), d1, sent[1..]);
      assert Fold(React(server, order), d, sent) == (d2, [y] + ys);
      StampedTail(sent);
      AnsweringTail(sent, delivered, y, ys);
      ReactHands(server, d, sent[0], order);
      HandedIsSession(server, d1, sent[1..], delivered[1..], order);
      SessionCons(server, d, PacketsOf(sent), IdsOf(sent), order);
      HandedCons(delivered);
    }
  }

  /** A session's channel operations begin with those of its first packets. */
  lemma SessionPrefix<D(!new)>(server: Server<D>, d: D, packs: seq<Packet>, ids: seq<Half>, n: nat, order: Order)
    requires n <= |packs| == |ids| && AllReady(packs) && Honest(server)
    ensures Session(server, d, packs, ids, order).Some? && Session(server, d, packs[..n], ids[..n], order).Some?
    ensures Session(server, d, packs[..n], ids[..n], order).value.1 <= Session(server, d, packs, ids, order).value.1
  {
    SessionStream(server, d, packs, ids, order);
    SessionStream(server, d, packs[..n], ids[..n], order);
    assert packs[..n] + packs[n..] == packs;
    FlatAppend(packs[..n], packs[n..]);
    DeliverPrefix(server, d, Flat(packs[..n]), Flat(packs[n..]), order);
  }

  lemma DeliverPrefix<D>(server: Server<D>, d: D, xs: seq<Transaction>, ys: seq<Transaction>, order: Order)
    ensures Deliver(order, xs, ActAll(server, d, xs).1) <= Deliver(order, xs + ys, ActAll(server, d, xs + ys).1)
  {
    ActAppend(server, d, xs, ys);
    var (d1, o1) := ActAll(server, d, xs);
    DeliverAppend(order, xs, ys, o1, ActAll(server, d1, ys).1);
  }

  // ----- the composition -----

  function Prepared0(reqs: seq<UserRequest>, order: Order): seq<Packet> {
    All(PrepareAll(Prepared([], []), reqs, order))
  }

  function IdsFrom(start: Id, n: nat): seq<Half> {
    seq(n, i requires 0 <= i < n => IdAt(start, i))
  }

  /** Every delivered packet carries the device's answer to it. */
  lemma RunAnswers<D>(start: Id, es: seq<Event<Packet, seq<Byte>>>, server: Server<D>, d: D, order: Order)
    requires start != 0
    requires var s0: Engine := Init(start);
             NeverOverflows(s0, es) && Run(s0, es).Next? && FaithfulRun(s0, es, server, d, order)
    ensures var s := Run(Init(start), es).state;
            && Inv(s) && |s.delivered| <= |s.accepted|
            && var sent := s.accepted[..|s.delivered|];
            && Answering(sent, s.delivered, Answers(server, d, sent, order).1)
  {
    var s0: Engine := Init(start);
    InitInv<Packet, seq<Byte>>(start);
    var s := Run(s0, es).state;
    var right := RightFor(server, d, s.accepted, order);
    FaithfulRunRight(s0, es, server, d, order, s.accepted);
    RunRight(s0, es, right);
    RightAnswers(s, server, d, order);
  }

  lemma RightAnswers<D>(s: Engine, server: Server<D>, d: D, order: Order)
    requires Conserved(s) && RightReplies(s, RightFor(server, d, s.accepted, order))
    ensures var sent := s.accepted[..|s.delivered|]; Answering(sent, s.delivered, Answers(server, d, sent, order).1)
  {
    FoldPrefix(React(server, order), d, s.accepted, |s.delivered|);
    forall k | 0 <= k < |s.delivered|
      ensures s.delivered[k] ==
                Answered(s.accepted[k].id, s.accepted[k].pack, Answers(server, d, s.accepted, order).1[k])
    {
      assert Stamped(s.delivered[k].id, s.delivered[k].pack) == s.accepted[k];
    }
  }

  /** The channel operations of a run are a session of the packets delivered so far. */
  lemma RunIsSession<D(!new)>(start: Id, es: seq<Event<Packet, seq<Byte>>>, server: Server<D>, d: D, order: Order)
    requires start != 0 && AllReady(Submitted(es)) && Honest(server)
    requires var s0: Engine := Init(start);
             NeverOverflows(s0, es) && Run(s0, es).Next? && FaithfulRun(s0, es, server, d, order)
    ensures var s := Run(Init(start), es).state;
            var n := |s.delivered|;
            && n <= |Submitted(es)| && n <= |Firsts(s.wire)|
            && var o := Session(server, d, Submitted(es)[..n], IdsFrom(start, n), order);
            && o.Some? && Handed(s.delivered) == Some(o.value.1)
            && o.value.0 == Answers(server, d, Firsts(s.wire)[..n], order).0
  {
    var s0: Engine := Init(start);
    RunAnswers(start, es, server, d, order);
    RunAccepted(s0, es);
    var s := Run(s0, es).state;
    var n := |s.delivered|;
    var sent := s.accepted[..n];
    assert Firsts(s.wire)[..n] == sent;
    assert Packs(s.accepted) == Submitted(es);
    assert PacketsOf(sent) == Submitted(es)[..n];
    assert IdsOf(sent) == IdsFrom(start, n);
    HandedIsSession(server, d, sent, s.delivered, order);
  }

  /** The whole stack. Take any sequence of user calls, any device, any byte orders, and any run of the
      window engine that submits the prepared packets: replies in any order, timeouts, status replies
      and retransmissions as they come. At every moment the channel operations performed so far begin
      a sequence that serves every requester as one unsplit operation per request would, and use no
      other channel; and when the engine is quiet with everything submitted, every requester has been
      served and the device, having carried out what was transmitted, is in the state the unsplit
      operations lead to. */
  lemma FullStack<D(!new)>(start: Id, es: seq<Event<Packet, seq<Byte>>>, reqs: seq<UserRequest>,
                           dev: Device<D>, d: D, reqOrder: Order, devOrder: Order)
    requires start != 0
    requires forall i :: 0 <= i < |reqs| ==> Proper(reqs[i])
    requires OwnChannels(Calls(reqs)) && Submitted(es) <= Prepared0(reqs, reqOrder)
    requires var s0: Engine := Init(start);
             NeverOverflows(s0, es) && Run(s0, es).Next? && FaithfulRun(s0, es, OfDevice(dev), d, devOrder)
    ensures var s := Run(Init(start), es).state;
            var (d1, results) := UnsplitAll(dev, d, Calls(reqs));
            && Handed(s.delivered).Some? && AllOwned(Handed(s.delivered).value, Calls(reqs))
            && (exists whole :: ServedAll(whole, Calls(reqs), devOrder, results) && Handed(s.delivered).value <= whole)
            && (Submitted(es) == Prepared0(reqs, reqOrder) && s.inflight == 0 && !s.handlinglost ==>
                  && ServedAll(Handed(s.delivered).value, Calls(reqs), devOrder, results)
                  && Answers(OfDevice(dev), d, Firsts(s.wire), devOrder).0 == d1)
  {
    var packs := Prepared0(reqs, reqOrder);
    PacketsReady(reqs, reqOrder);
    DeviceHonest(dev);
    RunIsSession(start, es, OfDevice(dev), d, devOrder);
    var s := Run(Init(start), es).state;
    var n := |s.delivered|;
    assert Submitted(es)[..n] == packs[..n];
    SessionRefines(dev, d, reqs, IdsFrom(start, |packs|), reqOrder, devOrder);
    WholeSession(OfDevice(dev), start, n, packs, d, devOrder);
    OwnedPrefix(Handed(s.delivered).value, Whole(OfDevice(dev), start, packs, d, devOrder).1, Calls(reqs));
    if Submitted(es) == packs && s.inflight == 0 && !s.handlinglost {
      RunDone(start, es);
      assert Firsts(s.wire)[..n] == Firsts(s.wire);
    }
  }

  /** The same with a device that may answer any operation with any code: at every moment the channel
      operations performed begin a sequence in which each request's channel gets exactly the responses
      to its pieces, errors included, and is closed once; when the engine is quiet, they are that
      sequence. The answers are those of the device carrying out all pieces in order. */
  lemma FullStackAnswers<D(!new)>(start: Id, es: seq<Event<Packet, seq<Byte>>>, reqs: seq<UserRequest>,
                                  server: Server<D>, d: D, reqOrder: Order, devOrder: Order)
    returns (pieces: seq<seq<Transaction>>, answers: seq<seq<Answer>>)
    requires start != 0 && Honest(server)
    requires forall i :: 0 <= i < |reqs| ==> Proper(reqs[i])
    requires OwnChannels(Calls(reqs)) && Submitted(es) <= Prepared0(reqs, reqOrder)
    requires var s0: Engine := Init(start);
             NeverOverflows(s0, es) && Run(s0, es).Next? && FaithfulRun(s0, es, server, d, devOrder)
    ensures SplitAll(Calls(reqs), pieces) && |answers| == |pieces|
    ensures ActAll(server, d, Concat(pieces)).1 == Concat(answers)
    ensures var s := Run(Init(start), es).state;
            && Handed(s.delivered).Some? && AllOwned(Handed(s.delivered).value, Calls(reqs))
            && (exists whole :: RespondedAll(whole, Calls(reqs), pieces, answers, devOrder) &&
                                Handed(s.delivered).value <= whole)
            && (Submitted(es) == Prepared0(reqs, reqOrder) && s.inflight == 0 && !s.handlinglost ==>
                  && RespondedAll(Handed(s.delivered).value, Calls(reqs), pieces, answers, devOrder)
                  && Answers(server, d, Firsts(s.wire), devOrder).0 == ActAll(server, d, Concat(pieces)).0)
  {
    var packs := Prepared0(reqs, reqOrder);
    PacketsReady(reqs, reqOrder);
    RunIsSession(start, es, server, d, devOrder);
    var s := Run(Init(start), es).state;
    var n := |s.delivered|;
    assert Submitted(es)[..n] == packs[..n];
    pieces, answers := SessionAnswers(server, d, reqs, IdsFrom(start, |packs|), reqOrder, devOrder);
    WholeSession(server, start, n, packs, d, devOrder);
    OwnedPrefix(Handed(s.delivered).value, Whole(server, start, packs, d, devOrder).1, Calls(reqs));
    if Submitted(es) == packs && s.inflight == 0 && !s.handlinglost {
      RunDone(start, es);
      assert Firsts(s.wire)[..n] == Firsts(s.wire);
    }
  }

  lemma PacketsReady(reqs: seq<UserRequest>, order: Order)
    requires forall i :: 0 <= i < |reqs| ==> Proper(reqs[i])
    ensures AllReady(Prepared0(reqs, order))
  {
    var pieces := PrepareAllSplits(Prepared([], []), reqs, order);
    AllIsReady(PrepareAll(Prepared([], []), reqs, order));
  }

  /** What the session of all packets comes to. */
  function Whole<D>(server: Server<D>, start: Id, packs: seq<Packet>, d: D, order: Order): (D, seq<ChanEvent>) {
    Session(server, d, packs, IdsFrom(start, |packs|), order).UnwrapOr((d, []))
  }

  /** The session of the first `n` packets begins the session of all. */
  lemma WholeSession<D(!new)>(server: Server<D>, start: Id, n: nat, packs: seq<Packet>, d: D, order: Order)
    requires AllReady(packs) && Honest(server) && n <= |packs|
    ensures var o := Session(server, d, packs[..n], IdsFrom(start, n), order);
            var whole := Whole(server, start, packs, d, order);
            && Session(server, d, packs, IdsFrom(start, |packs|), order) == Some(whole)
            && o.Some? && o.value.1 <= whole.1 && (n == |packs| ==> o.value == whole)
  {
    var ids := IdsFrom(start, |packs|);
    assert ids[..n] == IdsFrom(start, n);
    SessionPrefix(server, d, packs, ids, n, order);
    if n == |packs| {
      assert packs[..n] == packs;
    }
  }

  lemma OwnedPrefix(events: seq<ChanEvent>, whole: seq<ChanEvent>, reqs: seq<UserRequest>)
    requires events <= whole && AllOwned(whole, reqs)
    ensures AllOwned(events, reqs)
  {
    forall k | 0 <= k < |events|
      ensures Owned(events[k].chan, reqs)
    {
      assert events[k] == whole[k];
    }
  }

  lemma RunDone(start: Id, es: seq<Event<Packet, seq<Byte>>>)
    requires start != 0
    requires var s0: Engine := Init(start); NeverOverflows(s0, es) && Run(s0, es).Next?
    requires var s := Run(Init(start), es).state; s.inflight == 0 && !s.handlinglost
    ensures var s := Run(Init(start), es).state; |s.delivered| == |Submitted(es)| == |Firsts(s.wire)|
  {
    var s0: Engine := Init(start);
    InitInv<Packet, seq<Byte>>(start);
    RunInv(s0, es);
    QuietMeansDone(Run(s0, es).state);
    RunAccepted(s0, es);
    assert |Packs(Run(s0, es).state.accepted)| == |Submitted(es)|;
  }
}
