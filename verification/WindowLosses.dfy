/** What a timeout and the device's status put on the wire, and what they do to the window, over runs. */
module WindowLosses {
  import opened Window
  import opened WindowInvariant
  import opened WindowRuns
  import opened WindowReplies
  import opened WindowTimer
  import opened WindowRecovery
  import opened WindowSkips

  // ----- one step on the wire -----

  /** From `i` on there are first transmissions only. */
  ghost predicate FirstsFrom<P>(w: seq<WireEvent<P>>, i: nat) {
    forall j :: i <= j < |w| ==> w[j].First?
  }

  /** From `i` on the packets `ps` were written again, one after the other. */
  ghost predicate Repeats<P>(w: seq<WireEvent<P>>, i: nat, ps: seq<Stamped<P>>) {
    i + |ps| <= |w| && forall k :: 0 <= k < |ps| ==> w[i + k] == Again(ps[k])
  }

  lemma SendWire<P, R>(s: State<P, R>)
    requires SendNext(s).Next?
    ensures var t := SendNext(s).state;
            s.wire <= t.wire && FirstsFrom(t.wire, |s.wire|) && (s.handlinglost ==> t.wire == s.wire)
  {
    SendLoopWire(s);
  }

  lemma ReplyWire<P, R>(s: State<P, R>, id: Id, reply: R)
    requires HandleReply(s, id, reply).Next?
    ensures var w := HandleReply(s, id, reply).state.wire; s.wire <= w && FirstsFrom(w, |s.wire|)
  {
    if id in s.flying {
      HandleReplyAnswer(s, id, reply);
      SendWire(Answer(s, id, reply));
      ReturnLoopHeld(SendNext(Answer(s, id, reply)).state);
    }
  }

  /** A status that says the lost packet was answered asks for that answer again. */
  lemma SentWire<P, R>(s: State<P, R>, received: seq<Id>, sent: seq<Id>)
    requires s.handlers > 0 && s.timeoutid in sent && HandleStatus(s, received, sent).Next?
    ensures var t := HandleStatus(s, received, sent).state;
            && s.wire + [ResendQuery(s.timeoutid)] <= t.wire && FirstsFrom(t.wire, |s.wire| + 1)
            && t.resent == s.timeoutid
  {
    var r := Resume(Repair(s, received, sent).state);
    SendWire(r);
    SendLoopSame(r);
  }

  /** A status that does not know the lost packet writes again what ResendRun says, one packet after the
      other, and asks for nothing. */
  lemma UnknownWire<P, R>(s: State<P, R>, received: seq<Id>, sent: seq<Id>)
    requires s.handlers > 0 && s.timeoutid !in sent && s.timeoutid !in received
    requires HandleStatus(s, received, sent).Next?
    ensures var t, run := HandleStatus(s, received, sent).state, Resends(s.flying, s.timeoutid);
            && s.wire <= t.wire && Repeats(t.wire, |s.wire|, run) && FirstsFrom(t.wire, |s.wire| + |run|)
            && t.resent == s.resent
  {
    var r := Resume(Repair(s, received, sent).state);
    SendWire(r);
    SendLoopSame(r);
    var run := Resends(s.flying, s.timeoutid);
    forall i | 0 <= i < |run|
      ensures SendNext(r).state.wire[|s.wire| + i] == Again(run[i])
    {
      assert r.wire[|s.wire| + i] == AgainEvents(run)[i];
    }
  }

  /** A packet that is no longer in flight when the status comes, and not reported, changes nothing. */
  lemma NothingToRepair<P, R>(s: State<P, R>, received: seq<Id>, sent: seq<Id>)
    requires s.timeoutid !in sent && s.timeoutid !in received && s.timeoutid !in s.flying
    ensures Repair(s, received, sent) == Next(s)
  {
    assert s.wire + [] == s.wire;
  }

  // ----- status queries are timeouts -----

  function Queries<P>(wire: seq<WireEvent<P>>): nat {
    if wire == [] then 0
    else Queries(wire[..|wire| - 1]) + if wire[|wire| - 1] == StatusQuery then 1 else 0
  }

  function Timeouts<P, R>(es: seq<Event<P, R>>): nat {
    if es == [] then 0 else (if es[0] == Timeout then 1 else 0) + Timeouts(es[1..])
  }

  lemma {:induction false} QueriesSame<P>(w: seq<WireEvent<P>>, w': seq<WireEvent<P>>)
    requires w <= w' && forall j :: |w| <= j < |w'| ==> w'[j] != StatusQuery
    ensures Queries(w') == Queries(w)
    decreases |w'|
  {
    if |w'| > |w| {
      QueriesSame(w, w'[..|w'| - 1]);
    } else {
      assert w == w';
    }
  }

  lemma StatusQueries<P, R>(s: State<P, R>, received: seq<Id>, sent: seq<Id>)
    requires HandleStatus(s, received, sent).Next?
    ensures Queries(HandleStatus(s, received, sent).state.wire) == Queries(s.wire)
  {
    if s.handlers > 0 {
      var t := HandleStatus(s, received, sent).state;
      if s.timeoutid in sent {
        SentWire(s, received, sent);
        assert t.wire[|s.wire|] == ResendQuery(s.timeoutid);
      } else {
        UnknownWire(s, received, sent);
        var run := Resends(s.flying, s.timeoutid);
        forall j | |s.wire| <= j < |t.wire|
          ensures t.wire[j] != StatusQuery
        {
          if j < |s.wire| + |run| {
            assert t.wire[|s.wire| + (j - |s.wire|)] == Again(run[j - |s.wire|]);
          }
        }
      }
      QueriesSame(s.wire, t.wire);
    }
  }

  lemma StepQueries<P, R>(s: State<P, R>, e: Event<P, R>)
    requires Step(s, e).Next?
    ensures Queries(Step(s, e).state.wire) == Queries(s.wire) + if e == Timeout then 1 else 0
  {
    match e
    case Accept(pack) =>
      SendWire(Enqueue(s, pack));
      QueriesSame(s.wire, Step(s, e).state.wire);
    case Reply(id, reply) =>
      ReplyWire(s, id, reply);
      QueriesSame(s.wire, Step(s, e).state.wire);
    case Timeout =>
      assert (s.wire + [StatusQuery])[..|s.wire|] == s.wire;
    case StatusReply(received, sent) => StatusQueries(s, received, sent);
  }

  /** Every timeout asks the device for its status once, and nothing else does. */
  lemma {:induction false} RunQueries<P, R>(s: State<P, R>, es: seq<Event<P, R>>)
    requires Run(s, es).Next?
    ensures Queries(Run(s, es).state.wire) == Queries(s.wire) + Timeouts(es)
    decreases |es|
  {
    if es != [] {
      StepQueries(s, es[0]);
      RunQueries(Step(s, es[0]).state, es[1..]);
    }
  }

  // ----- the gate -----

  /** How many handlers wait, and whether a loss is being handled, from the events alone. */
  function Gate<P, R>(es: seq<Event<P, R>>, waiting: nat, lost: bool): (nat, bool) {
    if es == [] then (waiting, lost)
    else if es[0].Timeout? then Gate(es[1..], waiting + 1, true)
    else if es[0].StatusReply? && waiting > 0 then Gate(es[1..], waiting - 1, false)
    else Gate(es[1..], waiting, lost)
  }

  lemma {:induction false} ReturnLoopRest<P, R>(s: State<P, R>)
    ensures ReturnLoop(s).handlers == s.handlers && ReturnLoop(s).resent == s.resent
    ensures ReturnLoop(s).handlinglost == s.handlinglost
    decreases |s.flyingids|
  {
    if s.flyingids != [] && s.flyingids[0] in s.replied {
      ReturnLoopRest(ReturnOne(s));
    }
  }

  lemma ReplyGate<P, R>(s: State<P, R>, id: Id, reply: R)
    requires HandleReply(s, id, reply).Next?
    ensures var t := HandleReply(s, id, reply).state;
            t.handlers == s.handlers && t.handlinglost == s.handlinglost && t.resent == s.resent
  {
    if id in s.flying {
      HandleReplyAnswer(s, id, reply);
      SendLoopSame(Answer(s, id, reply));
      ReturnLoopRest(SendNext(Answer(s, id, reply)).state);
    }
  }

  lemma StepGate<P, R>(s: State<P, R>, e: Event<P, R>)
    requires Step(s, e).Next?
    ensures var t := Step(s, e).state;
            && t.handlers == (if e.Timeout? then s.handlers + 1
                              else if e.StatusReply? && s.handlers > 0 then s.handlers - 1 else s.handlers)
            && t.handlinglost == (if e.Timeout? then true
                                  else if e.StatusReply? && s.handlers > 0 then false else s.handlinglost)
  {
    match e
    case Accept(pack) => SendLoopSame(Enqueue(s, pack));
    case Reply(id, reply) => ReplyGate(s, id, reply);
    case Timeout =>
    case StatusReply(received, sent) =>
      if s.handlers > 0 {
        RepairFrame(s, received, sent);
        SendLoopSame(Resume(Repair(s, received, sent).state));
      }
  }

  /** A timeout starts a handler and closes the gate; the status it waits for ends one handler and opens
      the gate; no other event does either. */
  lemma {:induction false} RunGate<P, R>(s: State<P, R>, es: seq<Event<P, R>>)
    requires Run(s, es).Next?
    ensures var t := Run(s, es).state; (t.handlers, t.handlinglost) == Gate(es, s.handlers, s.handlinglost)
    decreases |es|
  {
    if es != [] {
      StepGate(s, es[0]);
      RunGate(Step(s, es[0]).state, es[1..]);
    }
  }

  lemma {:induction false} RunClosed<P, R>(s: State<P, R>, es: seq<Event<P, R>>)
    requires s.handlinglost && Run(s, es).Next? && forall i :: 0 <= i < |es| ==> !es[i].StatusReply?
    ensures Firsts(Run(s, es).state.wire) == Firsts(s.wire)
    decreases |es|
  {
    if es != [] {
      Gated(s, es[0]);
      RunClosed(Step(s, es[0]).state, es[1..]);
    }
  }

  lemma RunTwo<P, R>(s: State<P, R>, e: Event<P, R>, es: seq<Event<P, R>>)
    ensures Run(s, [e] + es) == match Step(s, e) case Panic => Panic case Next(t) => Run(t, es)
  {
    assert ([e] + es)[1..] == es;
  }

  /** From a timeout until the device's status comes, no packet leaves for the first time. */
  lemma TimeoutCloses<P, R>(s: State<P, R>, es: seq<Event<P, R>>)
    requires Run(s, [Timeout] + es).Next? && forall i :: 0 <= i < |es| ==> !es[i].StatusReply?
    ensures Firsts(Run(s, [Timeout] + es).state.wire) == Firsts(s.wire)
  {
    var t := HandleTimeout(s);
    StepGate(s, Timeout);
    RunTwo(s, Timeout, es);
    FirstsAgain(s.wire, [StatusQuery]);
    TimeoutWire(s);
    RunClosed(t, es);
  }

  /** The timeout itself: the query is all that is written, and the window stays as it is. */
  lemma TimeoutWire<P, R>(s: State<P, R>)
    ensures var t := Step(s, Timeout);
            && t.Next? && t.state.wire == s.wire + [StatusQuery]
            && t.state == s.(wire := t.state.wire, handlers := s.handlers + 1, handlinglost := true)
  {
  }

  // ----- recovery -----

  lemma StatusStep<P, R>(s: State<P, R>, received: seq<Id>, sent: seq<Id>)
    requires Inv(s) && s.handlers > 0 && !(s.timeoutid !in sent && s.timeoutid in received)
    ensures HandleStatus(s, received, sent).Next?
  {
    StepExact(s, StatusReply(received, sent));
  }

  lemma TimeoutInv<P, R>(s: State<P, R>)
    requires Inv(s)
    ensures Inv(HandleTimeout(s))
  {
    StepInv(s, Timeout);
  }

  /** The packet that timed out, and the device never saw it: with the timer on the oldest packet and
      nothing held back, the query is followed by every packet in flight, once and in the original order,
      and then by first transmissions only. */
  lemma LostRequest<P, R>(s: State<P, R>, received: seq<Id>, sent: seq<Id>)
    requires Inv(s) && TimerOnOldest(s) && s.replied == map[] && s.inflight > 0
    requires s.timeoutid !in sent && s.timeoutid !in received
    ensures Run(s, [Timeout] + [StatusReply(received, sent)]).Next?
    ensures var w := Run(s, [Timeout] + [StatusReply(received, sent)]).state.wire;
            var n, d, f := |s.wire|, |s.delivered|, |s.flyingids|;
            && s.wire + [StatusQuery] <= w && d + f <= |s.accepted|
            && Repeats(w, n + 1, s.accepted[d..d + f]) && FirstsFrom(w, n + 1 + f)
            && forall id :: id in s.flying <==> id in s.flyingids
  {
    var t, e := HandleTimeout(s), Event<P, R>.StatusReply(received, sent);
    TimeoutInv(s);
    StatusStep(t, received, sent);
    RunTwo(s, Timeout, [e]);
    RunTwo(t, e, []);
    assert [e] + [] == [e];
    AllFlying(s);
    LostRun(s);
    UnknownWire(t, received, sent);
  }

  lemma LostRun<P, R>(s: State<P, R>)
    requires Inv(s) && TimerOnOldest(s) && s.replied == map[] && s.inflight > 0
    ensures var d, f := |s.delivered|, |s.flyingids|;
            d + f <= |s.accepted| && Resends(s.flying, s.timeoutid) == s.accepted[d..d + f]
  {
    ResendIsRun(s, 0);
  }

  lemma AllFlying<P, R>(s: State<P, R>)
    requires Inv(s) && s.replied == map[]
    ensures forall id :: id in s.flying <==> id in s.flyingids
  {
    forall id | id in s.flyingids
      ensures id in s.flying
    {
      FlyingSlotAt(s, id);
    }
  }

  /** The device has answered the packet that timed out: the query is followed by one request for that
      answer, before any first transmission. */
  lemma LostReply<P, R>(s: State<P, R>, received: seq<Id>, sent: seq<Id>)
    requires Inv(s) && s.timeoutid in sent
    ensures Run(s, [Timeout] + [StatusReply(received, sent)]).Next?
    ensures var t := Run(s, [Timeout] + [StatusReply(received, sent)]).state;
            && s.wire + [StatusQuery] + [ResendQuery(s.timeoutid)] <= t.wire
            && FirstsFrom(t.wire, |s.wire| + 2) && t.resent == s.timeoutid
  {
    var t, e := HandleTimeout(s), Event<P, R>.StatusReply(received, sent);
    TimeoutInv(s);
    StatusStep(t, received, sent);
    RunTwo(s, Timeout, [e]);
    RunTwo(t, e, []);
    assert [e] + [] == [e];
    SentWire(t, received, sent);
  }

  lemma {:induction false} SendLoopFlying<P, R>(s: State<P, R>, id: Id)
    ensures SendLoop(s).Next? ==>
              var t := SendLoop(s).state;
              (id in s.flying ==> id in t.flying) && (id in t.flying ==> id in s.flying || id in s.queuedids)
    decreases |s.queuedids|
  {
    if s.inflight < MAX_FLIGHT && s.queuedids != [] && s.queuedids[0] in s.tosend {
      SendLoopFlying(SendOne(s), id);
    }
  }

  lemma StatusFlying<P, R>(s: State<P, R>, received: seq<Id>, sent: seq<Id>, id: Id)
    requires HandleStatus(s, received, sent).Next? && id in s.flying
    ensures id in HandleStatus(s, received, sent).state.flying
  {
    if s.handlers > 0 {
      RepairFrame(s, received, sent);
      SendLoopFlying(Resume(Repair(s, received, sent).state), id);
    }
  }

  /** An answered packet is not in flight any more. */
  lemma ReplyLands<P, R>(s: State<P, R>, id: Id, reply: R)
    requires Inv(s) && id in s.flying && HandleReply(s, id, reply).Next?
    ensures id !in HandleReply(s, id, reply).state.flying
  {
    LiveDistinct(s);
    assert id in s.flyingids;
    Lands(s, id, reply);
  }

  lemma Lands<P, R>(s: State<P, R>, id: Id, reply: R)
    requires id in s.flying && id !in s.queuedids && HandleReply(s, id, reply).Next?
    ensures id !in HandleReply(s, id, reply).state.flying
  {
    HandleReplyAnswer(s, id, reply);
    SendLoopFlying(Answer(s, id, reply), id);
    ReturnLoopHeld(SendNext(Answer(s, id, reply)).state);
  }

  /** The answer that was asked for again may come twice: the first one is taken, and the second one, at
      any time before another packet is asked for, changes nothing at all. */
  lemma AnsweredTwice<P, R>(s: State<P, R>, received: seq<Id>, sent: seq<Id>, x: R, y: R)
    requires Inv(s) && s.timeoutid in sent && s.timeoutid in s.flying
    requires var es := [Timeout] + [StatusReply(received, sent)];
             NeverOverflows(s, es) && Run(s, es).Next? && !Overflows(Run(s, es).state, Reply(s.timeoutid, x))
    ensures var u := Run(s, [Timeout] + [StatusReply(received, sent)]).state;
            var o := Step(u, Reply(s.timeoutid, x));
            && o.Next? && s.timeoutid !in o.state.flying
            && |o.state.delivered| + |o.state.replied| == |u.delivered| + |u.replied| + 1
            && Step(o.state, Reply(s.timeoutid, y)) == Next(o.state)
  {
    var t, e, id := HandleTimeout(s), Event<P, R>.StatusReply(received, sent), s.timeoutid;
    var es := [Timeout] + [e];
    RunInv(s, es);
    RunTwo(s, Timeout, [e]);
    RunTwo(t, e, []);
    assert [e] + [] == [e];
    var u := Run(s, es).state;
    TimeoutInv(s);
    StatusFlying(t, received, sent, id);
    SentWire(t, received, sent);
    ReplyCounts(u, id, x);
    ReplyLands(u, id, x);
    ReplyGate(u, id, x);
  }

  // ----- how many packets can be submitted -----

  function Submissions<P, R>(n: nat, pack: P): seq<Event<P, R>> {
    seq(n, i => Accept(pack))
  }

  /** `n` packets have been accepted and none answered. */
  ghost predicate Untouched<P, R>(s: State<P, R>, n: nat) {
    Inv(s) && !s.handlinglost && s.replied == map[] && s.delivered == [] && |s.accepted| == n
  }

  lemma AcceptFits<P, R>(s: State<P, R>, n: nat, n1: nat, pack: P)
    requires Untouched(s, n) && n1 == n + 1
    ensures n <= 260 && (Step(s, Accept(pack)).Next? <==> n < 260)
    ensures n < 260 ==> Untouched(Step(s, Accept(pack)).state, n1)
  {
    FlyingCount(s);
    HeldBound(s, Accept(pack));
    StepExact(s, Accept(pack));
    if Step(s, Accept(pack)).Next? {
      StepAccepted(s, Accept(pack));
      SendLoopSame(Enqueue(s, pack));
    }
  }

  /** The first of `m` submissions. */
  lemma SubmitOne<P, R>(s: State<P, R>, n: nat, n1: nat, m: nat, m1: nat, pack: P) returns (t: State<P, R>)
    requires Untouched(s, n) && n1 == n + 1 && m == m1 + 1
    ensures n <= 260
    ensures n == 260 ==> Run(s, Submissions<P, R>(m, pack)) == Panic
    ensures n < 260 ==> Untouched(t, n1) && Run(s, Submissions<P, R>(m, pack)) == Run(t, Submissions<P, R>(m1, pack))
  {
    var rest := Submissions<P, R>(m1, pack);
    assert Submissions<P, R>(m, pack) == [Accept(pack)] + rest;
    RunTwo(s, Accept(pack), rest);
    AcceptFits(s, n, n1, pack);
    t := if n < 260 then Step(s, Accept(pack)).state else s;
  }

  lemma {:induction false} SubmissionsFit<P, R>(s: State<P, R>, n: nat, m: nat, pack: P)
    requires Untouched(s, n)
    ensures Run(s, Submissions<P, R>(m, pack)).Next? <==> n + m <= 260
    decreases m
  {
    if m == 0 {
      AcceptFits(s, n, n + 1, pack);
      assert Submissions<P, R>(0, pack) == [];
    } else {
      var t := SubmitOne(s, n, n + 1, m, m - 1, pack);
      if n < 260 {
        SubmissionsFit(t, n + 1, m - 1, pack);
      }
    }
  }

  /** Without a reply 260 packets can be submitted, 4 in flight and 256 waiting; one more ends the program. */
  lemma QueueExact<P, R>(start: Id, n: nat, pack: P)
    requires start != 0
    ensures Run(Init<P, R>(start), Submissions<P, R>(n, pack)).Next? <==> n <= 260
  {
    InitInv<P, R>(start);
    SubmissionsFit(Init<P, R>(start), 0, n, pack);
  }
}
