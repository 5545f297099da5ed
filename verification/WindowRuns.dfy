/** What the invariant means for whole runs of the window engine. */
module WindowRuns {
  import opened Window
  import opened WindowInvariant

  // ----- exactly when a step keeps the invariant -----

  function Total<P, R>(s: State<P, R>): nat {
    |s.delivered| + |s.flyingids| + |s.queuedids|
  }

  lemma {:induction false} SendLoopTotal<P, R>(s: State<P, R>)
    requires |s.flyingids| <= FLYING_CAP && SendLoop(s).Next?
    ensures var t := SendLoop(s).state;
            && t.accepted == s.accepted
            && Total(t) <= Total(s)
            && (|s.flyingids| + Min(MAX_FLIGHT - s.inflight, |s.queuedids|) > FLYING_CAP ==> Total(t) < Total(s))
    decreases |s.queuedids|
  {
    if s.inflight < MAX_FLIGHT && s.queuedids != [] {
      SendLoopTotal(SendOne(s));
    }
  }

  lemma {:induction false} ReturnLoopTotal<P, R>(s: State<P, R>)
    ensures ReturnLoop(s).accepted == s.accepted && ReturnLoop(s).start == s.start && Total(ReturnLoop(s)) == Total(s)
    decreases |s.flyingids|
  {
    if s.flyingids != [] && s.flyingids[0] in s.replied {
      ReturnLoopTotal(ReturnOne(s));
    }
  }

  /** No packet is missing from the packet log when the queue names it. */
  lemma {:induction false} SendLoopFinds<P, R>(s: State<P, R>)
    requires forall id :: id in s.queuedids ==> id in s.tosend
    requires forall i, j :: 0 <= i < j < |s.queuedids| ==> s.queuedids[i] != s.queuedids[j]
    ensures SendLoop(s).Next?
    decreases |s.queuedids|
  {
    if s.inflight < MAX_FLIGHT && s.queuedids != [] {
      var t := SendOne(s);
      forall id | id in t.queuedids
        ensures id in t.tosend
      {
        var i :| 0 <= i < |t.queuedids| && t.queuedids[i] == id;
        assert id == s.queuedids[i + 1];
      }
      SendLoopFinds(t);
    }
  }

  lemma SendNextFinds<P, R>(s: State<P, R>)
    requires Core(s)
    ensures SendNext(s).Next?
  {
    LiveDistinct(s);
    forall id | id in s.queuedids
      ensures id in s.tosend
    {
      var i :| 0 <= i < |s.queuedids| && s.queuedids[i] == id;
      assert QueuedSlot(s, |s.delivered| + |s.flyingids| + i);
    }
    SendLoopFinds(s);
  }

  /** Sending into a full flying log loses a packet from the logs. */
  lemma SendNextLoses<P, R>(s: State<P, R>)
    requires Core(s) && |s.flyingids| + Sends(s) > FLYING_CAP
    ensures SendNext(s).Next?
    ensures Total(SendNext(s).state) < |SendNext(s).state.accepted|
  {
    NoneToSend(s);
    SendNextFinds(s);
    SendLoopTotal(s);
  }

  lemma AcceptLoses<P, R>(s: State<P, R>, pack: P)
    requires Inv(s) && Overflows(s, Accept(pack)) && |s.queuedids| < QUEUE_CAP
    ensures var o := HandleAccept(s, pack); o.Next? && Total(o.state) < |o.state.accepted|
  {
    EnqueueCore(s, pack);
    SendNextLoses(Enqueue(s, pack));
  }

  lemma ReplyLoses<P, R>(s: State<P, R>, id: Id, reply: R)
    requires Inv(s) && Overflows(s, Reply(id, reply))
    ensures var o := HandleReply(s, id, reply); o.Next? && Total(o.state) < |o.state.accepted|
  {
    AnswerCore(s, id, reply);
    HandleReplyAnswer(s, id, reply);
    SendNextLoses(Answer(s, id, reply));
    ReturnLoopTotal(SendNext(Answer(s, id, reply)).state);
  }

  /** Sending into a full flying log: some accepted packet is neither delivered nor in any id log. */
  lemma OverflowLoses<P, R>(s: State<P, R>, e: Event<P, R>)
    requires Inv(s) && Overflows(s, e) && !Panics(s, e)
    ensures Step(s, e).Next? && Total(Step(s, e).state) < |Step(s, e).state.accepted|
  {
    match e
    case Accept(pack) => AcceptLoses(s, pack);
    case Reply(id, reply) => ReplyLoses(s, id, reply);
    case StatusReply(received, sent) =>
      RepairCore(s, received, sent);
      SendNextLoses(Resume(Repair(s, received, sent).state));
  }

  /** From a good state, a step ends the program exactly when Panics says so, and otherwise
      leads to a good state exactly when it does not send into a full flying log. */
  lemma StepExact<P, R>(s: State<P, R>, e: Event<P, R>)
    requires Inv(s)
    ensures Step(s, e).Panic? <==> Panics(s, e)
    ensures Step(s, e).Next? ==> (Inv(Step(s, e).state) <==> !Overflows(s, e))
  {
    if !Panics(s, e) {
      if Overflows(s, e) {
        OverflowLoses(s, e);
      } else {
        StepInv(s, e);
      }
    }
  }

  // ----- runs -----

  ghost predicate NeverOverflows<P, R>(s: State<P, R>, es: seq<Event<P, R>>)
    decreases |es|
  {
    es != [] ==> !Overflows(s, es[0]) && (Step(s, es[0]).Next? ==> NeverOverflows(Step(s, es[0]).state, es[1..]))
  }

  lemma {:induction false} RunInv<P, R>(s: State<P, R>, es: seq<Event<P, R>>)
    requires Inv(s) && NeverOverflows(s, es) && Run(s, es).Next?
    ensures Inv(Run(s, es).state)
    decreases |es|
  {
    if es != [] {
      StepExact(s, es[0]);
      RunInv(Step(s, es[0]).state, es[1..]);
    }
  }

  /** The packets of the Accept events, in order. */
  function Submitted<P, R>(es: seq<Event<P, R>>): seq<P>
    decreases |es|
  {
    if es == [] then [] else (if es[0].Accept? then [es[0].pack] else []) + Submitted(es[1..])
  }

  function Packs<P>(ps: seq<Stamped<P>>): seq<P> {
    seq(|ps|, i requires 0 <= i < |ps| => ps[i].pack)
  }

  lemma {:induction false} SendLoopSame<P, R>(s: State<P, R>)
    ensures SendLoop(s).Next? ==> SameRest(s, SendLoop(s).state)
    decreases |s.queuedids|
  {
    if s.inflight < MAX_FLIGHT && s.queuedids != [] && s.queuedids[0] in s.tosend {
      SendLoopSame(SendOne(s));
    }
  }

  /** What has been handed back is never taken back or changed. */
  lemma {:induction false} ReturnLoopExtends<P, R>(s: State<P, R>)
    ensures s.delivered <= ReturnLoop(s).delivered
    decreases |s.flyingids|
  {
    if s.flyingids != [] && s.flyingids[0] in s.replied {
      ReturnLoopExtends(ReturnOne(s));
    }
  }

  lemma ReplyAccepted<P, R>(s: State<P, R>, id: Id, reply: R)
    requires id in s.flying && HandleReply(s, id, reply).Next?
    ensures var t := HandleReply(s, id, reply).state;
            t.start == s.start && t.accepted == s.accepted && s.delivered <= t.delivered
  {
    var u := Unflown(s, id);
    SendLoopSame(u);
    var t := SendNext(u).state;
    var r := t.(replied := t.replied[id := Answered(id, s.flying[id], reply)]);
    ReturnLoopExtends(r);
    ReturnLoopTotal(r);
  }

  lemma StatusAccepted<P, R>(s: State<P, R>, received: seq<Id>, sent: seq<Id>)
    requires HandleStatus(s, received, sent).Next?
    ensures var t := HandleStatus(s, received, sent).state;
            t.start == s.start && t.accepted == s.accepted && t.delivered == s.delivered
  {
    if s.handlers > 0 {
      RepairFrame(s, received, sent);
      ResumeAccepted(Repair(s, received, sent).state);
    }
  }

  lemma ResumeAccepted<P, R>(s: State<P, R>)
    requires s.handlers > 0
    ensures SendNext(Resume(s)).Next? ==>
              var t := SendNext(Resume(s)).state;
              t.start == s.start && t.accepted == s.accepted && t.delivered == s.delivered
  {
    SendLoopSame(Resume(s));
  }

  /** Only an Accept step accepts, and what has been handed back is never taken back. */
  lemma StepAccepted<P, R>(s: State<P, R>, e: Event<P, R>)
    requires Step(s, e).Next?
    ensures Step(s, e).state.start == s.start
    ensures s.delivered <= Step(s, e).state.delivered
    ensures Step(s, e).state.accepted == if e.Accept? then s.accepted + [Stamped(s.nextID, e.pack)] else s.accepted
  {
    match e
    case Accept(pack) => SendLoopSame(Enqueue(s, pack));
    case Reply(id, reply) =>
      if id in s.flying {
        ReplyAccepted(s, id, reply);
      }
    case Timeout =>
    case StatusReply(received, sent) => StatusAccepted(s, received, sent);
  }

  lemma {:induction false} RunAccepted<P, R>(s: State<P, R>, es: seq<Event<P, R>>)
    requires Run(s, es).Next?
    ensures Run(s, es).state.start == s.start
    ensures s.delivered <= Run(s, es).state.delivered
    ensures Packs(Run(s, es).state.accepted) == Packs(s.accepted) + Submitted(es)
    decreases |es|
  {
    if es != [] {
      var t := Step(s, es[0]).state;
      StepAccepted(s, es[0]);
      RunAccepted(t, es[1..]);
      PacksNext(s.accepted, s.nextID, es, t.accepted);
    }
  }

  lemma PacksNext<P, R>(ps: seq<Stamped<P>>, id: Id, es: seq<Event<P, R>>, ps': seq<Stamped<P>>)
    requires es != [] && ps' == if es[0].Accept? then ps + [Stamped(id, es[0].pack)] else ps
    ensures Packs(ps') + Submitted(es[1..]) == Packs(ps) + Submitted(es)
  {
    if es[0].Accept? {
      assert Packs(ps') == Packs(ps) + [es[0].pack];
    }
  }

  function DeliveredPacks<P, R>(s: State<P, R>): seq<P> {
    seq(|s.delivered|, i requires 0 <= i < |s.delivered| => s.delivered[i].pack)
  }

  /** Replies are handed back strictly in the order the packets were submitted, whatever order
      they arrived in, and first transmissions leave in that order with ids counting from `start`. */
  lemma RunFifo<P, R>(start: Id, es: seq<Event<P, R>>)
    requires start != 0
    requires NeverOverflows(Init<P, R>(start), es) && Run(Init<P, R>(start), es).Next?
    ensures var s := Run(Init<P, R>(start), es).state;
            && |s.delivered| + |s.flyingids| + |s.queuedids| == |Submitted(es)|
            && DeliveredPacks(s) == Submitted(es)[..|s.delivered|]
            && Packs(Firsts(s.wire)) == Submitted(es)[..|s.delivered| + |s.flyingids|]
            && (forall k :: 0 <= k < |Firsts(s.wire)| ==> Firsts(s.wire)[k].id == 1 + (start - 1 + k) % 65535)
  {
    InitInv<P, R>(start);
    RunInv(Init<P, R>(start), es);
    RunAccepted(Init<P, R>(start), es);
    var s := Run(Init<P, R>(start), es).state;
    assert Packs(s.accepted) == Submitted(es);
    forall k | 0 <= k < |s.delivered|
      ensures DeliveredPacks(s)[k] == Submitted(es)[k]
    {
      assert Packs(s.accepted)[k] == s.accepted[k].pack;
      assert Stamped(s.delivered[k].id, s.delivered[k].pack) == s.accepted[k];
    }
    forall k | 0 <= k < |Firsts(s.wire)|
      ensures Packs(Firsts(s.wire))[k] == Submitted(es)[k]
      ensures Firsts(s.wire)[k].id == 1 + (start - 1 + k) % 65535
    {
      assert Firsts(s.wire)[k] == s.accepted[k];
      assert Packs(s.accepted)[k] == s.accepted[k].pack;
      IdAtClosed(start, k);
    }
  }

  // ----- how many replies are held back -----

  function Ids(xs: seq<Id>): set<Id> {
    set id | id in xs
  }

  lemma {:induction false} DistinctCard(xs: seq<Id>)
    requires forall i, j :: 0 <= i < j < |xs| ==> xs[i] != xs[j]
    ensures |Ids(xs)| == |xs|
  {
    if xs != [] {
      var n := |xs| - 1;
      DistinctCard(xs[..n]);
      assert Ids(xs) == Ids(xs[..n]) + {xs[n]};
    }
  }

  lemma UnionCard(xs: set<Id>, a: set<Id>, b: set<Id>)
    requires xs == a + b && a !! b
    ensures |xs| == |a| + |b|
  {
  }

  lemma FlyingKeys<P, R>(s: State<P, R>, id: Id)
    requires Conserved(s) && Logged(s) && id in s.flying
    ensures id !in s.replied
  {
    var i :| 0 <= i < |s.flyingids| && s.flyingids[i] == id;
    assert FlyingSlot(s, |s.delivered| + i);
  }

  lemma FlyingSlotAt<P, R>(s: State<P, R>, id: Id)
    requires Conserved(s) && Logged(s) && id in s.flyingids
    ensures id in s.flying || id in s.replied
  {
    var i :| 0 <= i < |s.flyingids| && s.flyingids[i] == id;
    assert FlyingSlot(s, |s.delivered| + i);
  }

  lemma FlyingPartition<P, R>(s: State<P, R>)
    requires Conserved(s) && Logged(s)
    ensures Ids(s.flyingids) == s.flying.Keys + s.replied.Keys
    ensures s.flying.Keys !! s.replied.Keys
  {
    forall id | id in s.flyingids
      ensures id in s.flying.Keys + s.replied.Keys
    {
      FlyingSlotAt(s, id);
    }
    forall id | id in s.flying.Keys
      ensures id !in s.replied.Keys
    {
      FlyingKeys(s, id);
    }
  }

  /** Every entry of the flying log is in flight or held back, and none is both. */
  lemma FlyingCount<P, R>(s: State<P, R>)
    requires Core(s)
    ensures |s.flyingids| == s.inflight + |s.replied|
  {
    FlyingPartition(s);
    LiveDistinct(s);
    DistinctCard(s.flyingids);
    UnionCard(Ids(s.flyingids), s.flying.Keys, s.replied.Keys);
  }

  /** With at most 27 replies held back no step can overflow the flying log. */
  lemma HeldBound<P, R>(s: State<P, R>, e: Event<P, R>)
    requires Inv(s) && |s.replied| <= 27
    ensures !Overflows(s, e)
  {
    FlyingCount(s);
  }

  /** 27 is the best bound: with 28 held back, a full window and a queue, any reply overflows. */
  lemma HeldBoundTight<P, R>(s: State<P, R>, id: Id, reply: R)
    requires Inv(s) && |s.replied| == 28 && !s.handlinglost && s.queuedids != [] && id in s.flying
    ensures Overflows(s, Reply(id, reply))
  {
    FlyingCount(s);
  }

  ghost predicate HoldsFew<P, R>(s: State<P, R>, es: seq<Event<P, R>>)
    decreases |es|
  {
    es != [] ==> |s.replied| <= 27 && (Step(s, es[0]).Next? ==> HoldsFew(Step(s, es[0]).state, es[1..]))
  }

  lemma {:induction false} FewNeverOverflows<P, R>(s: State<P, R>, es: seq<Event<P, R>>)
    requires Inv(s) && HoldsFew(s, es)
    ensures NeverOverflows(s, es)
    decreases |es|
  {
    if es != [] {
      HeldBound(s, es[0]);
      StepExact(s, es[0]);
      if Step(s, es[0]).Next? {
        FewNeverOverflows(Step(s, es[0]).state, es[1..]);
      }
    }
  }

  // ----- nothing gets stuck -----

  /** With nothing in flight and no loss being handled, everything accepted has been delivered. */
  lemma QuietMeansDone<P, R>(s: State<P, R>)
    requires Inv(s) && !s.handlinglost && s.inflight == 0
    ensures |s.delivered| == |s.accepted| && s.replied == map[]
  {
    FlyingCount(s);
    if s.flyingids != [] {
      FlyingSlotAt(s, s.flyingids[0]);
      assert false;
    }
  }

  /** Each reply to a packet in flight is counted once: it is delivered or held back. */
  lemma ReplyCounts<P, R>(s: State<P, R>, id: Id, reply: R)
    requires Inv(s) && id in s.flying && !Overflows(s, Reply(id, reply))
    ensures var o := HandleReply(s, id, reply);
            o.Next? && |o.state.delivered| + |o.state.replied| == |s.delivered| + |s.replied| + 1
  {
    AnswerCore(s, id, reply);
    SendNextFinds(Answer(s, id, reply));
    FlyingKeys(s, id);
    ReplyAdds(s, id, reply);
  }

  lemma ReplyAdds<P, R>(s: State<P, R>, id: Id, reply: R)
    requires id in s.flying && id !in s.replied && SendNext(Answer(s, id, reply)).Next?
    ensures var o := HandleReply(s, id, reply);
            o.Next? && |o.state.delivered| + |o.state.replied| == |s.delivered| + |s.replied| + 1
  {
    HandleReplyAnswer(s, id, reply);
    SendLoopSame(Answer(s, id, reply));
    ReturnLoopHeld(SendNext(Answer(s, id, reply)).state);
  }

  /** When every accepted packet has been answered, in whatever order, all are delivered. */
  lemma AllAnswered<P, R>(s: State<P, R>)
    requires Inv(s) && !s.handlinglost && |s.delivered| + |s.replied| == |s.accepted|
    ensures |s.delivered| == |s.accepted|
  {
    FlyingCount(s);
    QuietMeansDone(s);
  }

  lemma {:induction false} ReturnLoopHeld<P, R>(s: State<P, R>)
    ensures var t := ReturnLoop(s);
            && |t.delivered| + |t.replied| == |s.delivered| + |s.replied|
            && |t.delivered| + |t.flyingids| == |s.delivered| + |s.flyingids|
            && t.flying == s.flying && t.queuedids == s.queuedids && t.inflight == s.inflight
            && t.timeoutid == s.timeoutid && t.handlinglost == s.handlinglost && t.wire == s.wire
    decreases |s.flyingids|
  {
    if s.flyingids != [] && s.flyingids[0] in s.replied {
      ReturnLoopHeld(ReturnOne(s));
    }
  }

  /** While a loss is being handled no packet is transmitted for the first time. */
  lemma Gated<P, R>(s: State<P, R>, e: Event<P, R>)
    requires s.handlinglost && !e.StatusReply? && Step(s, e).Next?
    ensures Firsts(Step(s, e).state.wire) == Firsts(s.wire) && Step(s, e).state.handlinglost
  {
    if e.Reply? && e.id in s.flying {
      var t := Unflown(s, e.id);
      ReturnLoopHeld(t.(replied := t.replied[e.id := Answered(e.id, s.flying[e.id], e.reply)]));
    }
    FirstsAgain(s.wire, [StatusQuery]);
  }
}
