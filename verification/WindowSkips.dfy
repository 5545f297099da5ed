/** A timer that has left the oldest packet never comes back to it: the oldest packet, if lost again,
  * is not transmitted any more, and nothing is handed back until its reply turns up by itself. */
module WindowSkips {
  import opened Window
  import opened WindowInvariant
  import opened WindowRuns
  import opened WindowReplies
  import opened WindowTimer
  import opened WindowRecovery

  /** The oldest flying packet is `h`, and the timer watches one behind it. */
  ghost predicate Away<P, R>(s: State<P, R>, h: Id) {
    |s.flyingids| >= 2 && s.flyingids[0] == h && s.timeoutid in s.flyingids[1..]
  }

  /** From `w` to `w'` the wire only grew, and `h` was neither written again nor asked for again. */
  ghost predicate Unrepeated<P>(w: seq<WireEvent<P>>, w': seq<WireEvent<P>>, h: Id) {
    w <= w' && forall i :: |w| <= i < |w'| ==> w'[i] != ResendQuery(h) && (w'[i].Again? ==> w'[i].packet.id != h)
  }

  // ----- sending -----

  lemma {:induction false} SendLoopWire<P, R>(s: State<P, R>)
    ensures SendLoop(s).Next? ==>
              var w := SendLoop(s).state.wire; s.wire <= w && forall i :: |s.wire| <= i < |w| ==> w[i].First?
    decreases |s.queuedids|
  {
    if s.inflight < MAX_FLIGHT && s.queuedids != [] && s.queuedids[0] in s.tosend {
      SendLoopWire(SendOne(s));
    }
  }

  lemma {:induction false} SendLoopTimeout<P, R>(s: State<P, R>)
    requires s.inflight > 0
    ensures SendLoop(s).Next? ==> SendLoop(s).state.timeoutid == s.timeoutid
    decreases |s.queuedids|
  {
    if s.inflight < MAX_FLIGHT && s.queuedids != [] && s.queuedids[0] in s.tosend {
      SendLoopTimeout(SendOne(s));
    }
  }

  lemma InFirst<T>(x: T, xs: seq<T>, ys: seq<T>)
    requires xs <= ys && x in xs
    ensures x in ys
  {
    var i :| 0 <= i < |xs| && xs[i] == x;
    assert ys[i] == x;
  }

  /** Sending with something in flight leaves timer, oldest packet and earlier wire alone. */
  lemma SendAway<P, R>(s: State<P, R>, h: Id)
    requires Away(s, h) && s.inflight > 0 && SendNext(s).Next?
    ensures var t := SendNext(s).state;
            && Away(t, h) && Unrepeated(s.wire, t.wire, h) && t.delivered == s.delivered && t.replied == s.replied
  {
    SendLoopWire(s);
    SendLoopTimeout(s);
    SentExtends(s);
    var t := SendNext(s).state;
    assert s.flyingids[1..] <= t.flyingids[1..];
    InFirst(s.timeoutid, s.flyingids[1..], t.flyingids[1..]);
  }

  // ----- the steps -----

  /** In a good state the oldest flying packet is unanswered. */
  lemma HeadFlies<P, R>(s: State<P, R>)
    requires Inv(s) && s.flyingids != []
    ensures s.flyingids[0] in s.flying && s.flyingids[0] !in s.replied && s.inflight > 0
  {
    FlyingSlotAt(s, s.flyingids[0]);
    assert s.flying.Keys != {};
  }

  lemma SecondFlies<P, R>(s: State<P, R>, id: Id)
    requires Inv(s) && s.flyingids != [] && id in s.flying && id != s.flyingids[0]
    ensures s.inflight >= 2
  {
    HeadFlies(s);
    SubsetCard({s.flyingids[0], id}, s.flying.Keys);
  }

  lemma AcceptAway<P, R>(s: State<P, R>, pack: P, h: Id)
    requires Inv(s) && Away(s, h) && HandleAccept(s, pack).Next?
    ensures var t := HandleAccept(s, pack).state;
            Away(t, h) && Unrepeated(s.wire, t.wire, h) && t.delivered == s.delivered
  {
    HeadFlies(s);
    SendAway(Enqueue(s, pack), h);
  }

  lemma ReplyAway<P, R>(s: State<P, R>, id: Id, reply: R, h: Id)
    requires Inv(s) && Away(s, h) && id != h && HandleReply(s, id, reply).Next?
    ensures var t := HandleReply(s, id, reply).state;
            Away(t, h) && Unrepeated(s.wire, t.wire, h) && t.delivered == s.delivered
  {
    if id in s.flying {
      HeadFlies(s);
      SecondFlies(s, id);
      HandleReplyAnswer(s, id, reply);
      var a := Answer(s, id, reply);
      SendAway(a, h);
      assert h !in a.replied;
    }
  }

  /** A recovery that starts behind the oldest packet does not write it again. */
  lemma RecoveryBehind<P, R>(s: State<P, R>, k: nat)
    requires Core(s) && 1 <= k < |s.flyingids|
    ensures var run := Resends(s.flying, s.flyingids[k]);
            forall i :: 0 <= i < |run| ==> run[i].id != s.flyingids[0]
  {
    LogRun(s, k);
    LiveDistinct(s);
  }

  lemma RunUnrepeated<P>(w: seq<WireEvent<P>>, run: seq<Stamped<P>>, h: Id)
    requires forall i :: 0 <= i < |run| ==> run[i].id != h
    ensures Unrepeated(w, w + AgainEvents(run), h)
  {
  }

  lemma AwayAt<P, R>(s: State<P, R>, h: Id) returns (k: nat)
    requires Away(s, h)
    ensures 1 <= k < |s.flyingids| && s.flyingids[k] == s.timeoutid
  {
    var j :| 0 <= j < |s.flyingids| - 1 && s.flyingids[1..][j] == s.timeoutid;
    k := j + 1;
  }

  lemma RepairAway<P, R>(s: State<P, R>, received: seq<Id>, sent: seq<Id>, h: Id)
    requires Away(s, h) && s.timeoutid != h && s.inflight > 0 && s.handlers > 0 && Repair(s, received, sent).Next?
    requires var run := Resends(s.flying, s.timeoutid); forall i :: 0 <= i < |run| ==> run[i].id != h
    ensures var t := Resume(Repair(s, received, sent).state);
            && Away(t, h) && Unrepeated(s.wire, t.wire, h) && t.inflight == s.inflight && t.delivered == s.delivered
  {
    assert s.flyingids[1] in s.flyingids[1..];
    RunUnrepeated(s.wire, Resends(s.flying, s.timeoutid), h);
  }

  lemma StatusAway<P, R>(s: State<P, R>, received: seq<Id>, sent: seq<Id>, h: Id)
    requires Inv(s) && Away(s, h) && HandleStatus(s, received, sent).Next?
    ensures var t := HandleStatus(s, received, sent).state;
            Away(t, h) && Unrepeated(s.wire, t.wire, h) && t.delivered == s.delivered
  {
    if s.handlers > 0 {
      HeadFlies(s);
      LiveDistinct(s);
      var k := AwayAt(s, h);
      RecoveryBehind(s, k);
      RepairAway(s, received, sent, h);
      SendAway(Resume(Repair(s, received, sent).state), h);
    }
  }

  lemma StepAway<P, R>(s: State<P, R>, e: Event<P, R>, h: Id)
    requires Inv(s) && Away(s, h) && Step(s, e).Next? && (e.Reply? ==> e.id != h)
    ensures var t := Step(s, e).state;
            Away(t, h) && Unrepeated(s.wire, t.wire, h) && t.delivered == s.delivered
  {
    match e
    case Accept(pack) => AcceptAway(s, pack, h);
    case Reply(id, reply) => ReplyAway(s, id, reply, h);
    case Timeout =>
    case StatusReply(received, sent) => StatusAway(s, received, sent, h);
  }

  // ----- runs -----

  /** No reply to the packet with id `h`. */
  predicate Unanswered<P, R>(es: seq<Event<P, R>>, h: Id) {
    forall i :: 0 <= i < |es| && es[i].Reply? ==> es[i].id != h
  }

  lemma UnrepeatedOn<P>(w: seq<WireEvent<P>>, w1: seq<WireEvent<P>>, w2: seq<WireEvent<P>>, h: Id)
    requires Unrepeated(w, w1, h) && Unrepeated(w1, w2, h)
    ensures Unrepeated(w, w2, h)
  {
  }

  /** Once the timer watches a packet behind the oldest, then over every run without a reply to the
      oldest - however many timeouts and recoveries it holds - the timer stays behind it, the oldest
      is neither written again nor asked for again, and nothing at all is handed back. */
  lemma {:induction false} RunAway<P, R>(s: State<P, R>, es: seq<Event<P, R>>, h: Id)
    requires Inv(s) && Away(s, h) && Unanswered(es, h) && NeverOverflows(s, es) && Run(s, es).Next?
    ensures var t := Run(s, es).state;
            && Inv(t) && Away(t, h) && h in t.flying
            && Unrepeated(s.wire, t.wire, h) && t.delivered == s.delivered
    decreases |es|
  {
    if es == [] {
      HeadFlies(s);
    } else {
      var u := Step(s, es[0]).state;
      StepExact(s, es[0]);
      StepAway(s, es[0], h);
      RunAway(u, es[1..], h);
      UnrepeatedOn(s.wire, u.wire, Run(u, es[1..]).state.wire, h);
    }
  }

  /** A recovery takes the timer off the oldest packet, whether the device had answered it or not. */
  lemma RecoveryLeaves<P, R>(s: State<P, R>, received: seq<Id>, sent: seq<Id>)
    requires Inv(s) && TimerOnOldest(s) && s.handlers > 0 && |s.flyingids| >= 2
    requires !Overflows(s, StatusReply(received, sent)) && !Panics(s, StatusReply(received, sent))
    ensures HandleStatus(s, received, sent).Next?
    ensures Inv(HandleStatus(s, received, sent).state) && Away(HandleStatus(s, received, sent).state, s.flyingids[0])
  {
    StepExact(s, StatusReply(received, sent));
    HeadFlies(s);
    var r := Resume(Repair(s, received, sent).state);
    assert s.flyingids[1] in s.flyingids[1..];
    SendAway(r, s.flyingids[0]);
  }

  /** A second loss of the same packet is never repaired: after one recovery that began with the
      oldest packet, no run without a reply to it writes it again, asks the device for its reply again
      or hands anything back. */
  lemma SecondLossIsFinal<P, R>(s: State<P, R>, received: seq<Id>, sent: seq<Id>, es: seq<Event<P, R>>)
    requires Inv(s) && TimerOnOldest(s) && s.handlers > 0 && |s.flyingids| >= 2
    requires !Overflows(s, StatusReply(received, sent)) && !Panics(s, StatusReply(received, sent))
    requires var u := HandleStatus(s, received, sent);
             u.Next? && NeverOverflows(u.state, es) && Run(u.state, es).Next? && Unanswered(es, s.flyingids[0])
    ensures var u := HandleStatus(s, received, sent).state;
            var t := Run(u, es).state;
            && Unrepeated(u.wire, t.wire, s.flyingids[0]) && t.delivered == s.delivered
            && s.flyingids[0] in t.flying && t.timeoutid != s.flyingids[0]
  {
    var u := HandleStatus(s, received, sent).state;
    RecoveryLeaves(s, received, sent);
    StatusAccepted(s, received, sent);
    RunAway(u, es, s.flyingids[0]);
    LiveDistinct(Run(u, es).state);
  }

  /** A recovery of a packet the device does not report writes the oldest packet again exactly if the
      timer is on it. */
  lemma RecoveryExact<P, R>(s: State<P, R>, received: seq<Id>, sent: seq<Id>)
    requires Inv(s) && s.flyingids != [] && s.timeoutid !in sent && s.timeoutid !in received
    ensures var run := Resends(s.flying, s.timeoutid);
            && Repair(s, received, sent).Next?
            && Repair(s, received, sent).state.wire == s.wire + AgainEvents(run)
            && ((exists i :: 0 <= i < |run| && run[i].id == s.flyingids[0]) <==> s.timeoutid == s.flyingids[0])
  {
    HeadFlies(s);
    var run := Resends(s.flying, s.timeoutid);
    if s.timeoutid == s.flyingids[0] {
      assert run[0].id == s.flyingids[0];
    } else if s.timeoutid in s.flying {
      assert s.timeoutid in s.flyingids;
      var k :| 0 <= k < |s.flyingids| && s.flyingids[k] == s.timeoutid;
      RecoveryBehind(s, k);
    }
  }
}
