/** Nothing gets stuck: answering the oldest packet again and again delivers everything. */
module WindowProgress {
  import opened Window
  import opened WindowInvariant
  import opened WindowRuns
  import opened WindowReplies
  import opened WindowSkips

  /** Outside loss handling, while anything accepted is undelivered, the oldest flying packet is in flight. */
  lemma HeadInFlight<P, R>(s: State<P, R>)
    requires Inv(s) && !s.handlinglost && |s.delivered| < |s.accepted|
    ensures s.flyingids != [] && s.flyingids[0] in s.flying
  {
    if s.flyingids == [] {
      FlyingCount(s);
    } else {
      HeadFlies(s);
    }
  }

  /** No loss is being handled, and the flying log has room or nothing waits in the queue. */
  ghost predicate Roomy<P, R>(s: State<P, R>) {
    !s.handlinglost && (s.queuedids == [] || |s.flyingids| < FLYING_CAP)
  }

  lemma {:induction false} ReturnLoopShrinks<P, R>(s: State<P, R>)
    ensures |ReturnLoop(s).flyingids| <= |s.flyingids|
    ensures s.flyingids != [] && s.flyingids[0] in s.replied ==> |s.delivered| < |ReturnLoop(s).delivered|
    decreases |s.flyingids|
  {
    if s.flyingids != [] && s.flyingids[0] in s.replied {
      ReturnLoopShrinks(ReturnOne(s));
      ReturnLoopExtends(ReturnOne(s));
    }
  }

  /** An answer to the oldest packet is handed back at once. */
  lemma HeadDelivers<P, R>(s: State<P, R>, reply: R)
    requires Inv(s) && s.flyingids != [] && !Overflows(s, Reply(s.flyingids[0], reply))
    ensures var o := Step(s, Reply(s.flyingids[0], reply));
            o.Next? && Inv(o.state) && o.state.accepted == s.accepted && |s.delivered| < |o.state.delivered|
  {
    var h := s.flyingids[0];
    HeadFlies(s);
    StepExact(s, Reply(h, reply));
    StepAccepted(s, Reply(h, reply));
    HandleReplyAnswer(s, h, reply);
    HeadAnswered(s, h, reply);
  }

  lemma HeadAnswered<P, R>(s: State<P, R>, h: Id, reply: R)
    requires h in s.flying && s.flyingids != [] && h == s.flyingids[0] && SendNext(Answer(s, h, reply)).Next?
    ensures |s.delivered| < |ReturnLoop(SendNext(Answer(s, h, reply)).state).delivered|
  {
    SentExtends(Answer(s, h, reply));
    ReturnLoopShrinks(SendNext(Answer(s, h, reply)).state);
  }

  /** From a good state outside loss handling the answer to the oldest packet fits exactly in a roomy
      state, and the state stays roomy. */
  lemma RoomyExact<P, R>(s: State<P, R>, reply: R)
    requires Inv(s) && !s.handlinglost && s.flyingids != []
    ensures !Overflows(s, Reply(s.flyingids[0], reply)) <==> Roomy(s)
    ensures Roomy(s) ==>
              var o := Step(s, Reply(s.flyingids[0], reply)); o.Next? && Roomy(o.state)
  {
    var h := s.flyingids[0];
    HeadFlies(s);
    if Roomy(s) {
      HeadDelivers(s, reply);
      StaysRoomy(s, reply);
    }
  }

  /** The head leaves the log with its answer, so there is room for the next packet. */
  lemma StaysRoomy<P, R>(s: State<P, R>, reply: R)
    requires Inv(s) && Roomy(s) && s.flyingids != []
    requires var o := Step(s, Reply(s.flyingids[0], reply));
             o.Next? && Inv(o.state) && |s.delivered| < |o.state.delivered|
    ensures Roomy(Step(s, Reply(s.flyingids[0], reply)).state)
  {
    var h := s.flyingids[0];
    HeadFlies(s);
    var t := Step(s, Reply(h, reply)).state;
    ReplyCounts(s, h, reply);
    FlyingCount(s);
    FlyingCount(t);
    SameHandling(s, h, reply);
  }

  lemma SameHandling<P, R>(s: State<P, R>, id: Id, reply: R)
    requires id in s.flying && HandleReply(s, id, reply).Next?
    ensures HandleReply(s, id, reply).state.handlinglost == s.handlinglost
    ensures s.queuedids == [] ==> HandleReply(s, id, reply).state.queuedids == []
  {
    HandleReplyAnswer(s, id, reply);
    var a := Answer(s, id, reply);
    SendLoopSame(a);
    ReturnLoopHeld(SendNext(a).state);
  }

  /** Every event of the run answers the packet that is the oldest flying one at that moment. */
  ghost predicate AnswersHeads<P, R>(s: State<P, R>, es: seq<Event<P, R>>)
    decreases |es|
  {
    es != [] ==>
      && es[0].Reply? && s.flyingids != [] && es[0].id == s.flyingids[0]
      && (Step(s, es[0]).Next? ==> AnswersHeads(Step(s, es[0]).state, es[1..]))
  }

  /** However many oldest packets are answered one after the other: no overflow, no panic, and each
      answer hands back at least one reply. */
  lemma {:induction false} HeadsDeliver<P, R>(s: State<P, R>, es: seq<Event<P, R>>)
    requires Inv(s) && Roomy(s) && AnswersHeads(s, es)
    ensures NeverOverflows(s, es) && Run(s, es).Next?
    ensures var t := Run(s, es).state;
            Inv(t) && Roomy(t) && t.accepted == s.accepted && |s.delivered| + |es| <= |t.delivered| <= |t.accepted|
    decreases |es|
  {
    if es != [] {
      RoomyExact(s, es[0].reply);
      HeadDelivers(s, es[0].reply);
      HeadsDeliver(Step(s, es[0]).state, es[1..]);
    }
  }

  lemma HeadsOn<P, R>(s: State<P, R>, e: Event<P, R>, es: seq<Event<P, R>>)
    requires e.Reply? && s.flyingids != [] && e.id == s.flyingids[0] && Step(s, e).Next?
    requires AnswersHeads(Step(s, e).state, es)
    ensures AnswersHeads(s, [e] + es) && Run(s, [e] + es) == Run(Step(s, e).state, es)
  {
    assert ([e] + es)[1..] == es;
  }

  /** From every good, roomy state some run of answers to the oldest packets delivers everything that
      was accepted. `answer` is whatever the device replies. */
  lemma {:induction false} AllDelivered<P, R>(s: State<P, R>, answer: Id -> R) returns (es: seq<Event<P, R>>)
    requires Inv(s) && Roomy(s)
    ensures AnswersHeads(s, es) && NeverOverflows(s, es) && Run(s, es).Next?
    ensures var t := Run(s, es).state; t.accepted == s.accepted && |t.delivered| == |s.accepted|
    decreases |s.accepted| - |s.delivered|
  {
    if |s.delivered| == |s.accepted| {
      es := [];
    } else {
      HeadInFlight(s);
      var e := Event<P, R>.Reply(s.flyingids[0], answer(s.flyingids[0]));
      RoomyExact(s, e.reply);
      HeadDelivers(s, e.reply);
      var rest := AllDelivered(Step(s, e).state, answer);
      HeadsOn(s, e, rest);
      es := [e] + rest;
      HeadsDeliver(s, es);
    }
  }
}
