/** Replies stay with their packets: if every reply that arrives is the right one for the packet it
  * names, every packet is delivered with the right reply. */
module WindowReplies {
  import opened Window
  import opened WindowInvariant
  import opened WindowRuns

  /** `right(k)` is the right reply to the k-th accepted packet. */
  ghost predicate RightReplies<P, R>(s: State<P, R>, right: nat -> R)
    requires |s.delivered| + |s.flyingids| <= |s.accepted|
  {
    var d := |s.delivered|;
    && (forall k :: 0 <= k < d ==> s.delivered[k].reply == right(k))
    && (forall k :: d <= k < d + |s.flyingids| && s.accepted[k].id in s.replied ==>
          s.replied[s.accepted[k].id].reply == right(k))
  }

  /** A reply to a packet in flight is the right one for that packet. */
  ghost predicate RightEvent<P, R>(s: State<P, R>, e: Event<P, R>, right: nat -> R)
    requires |s.delivered| + |s.flyingids| <= |s.accepted|
  {
    e.Reply? && e.id in s.flying ==>
      forall k :: |s.delivered| <= k < |s.delivered| + |s.flyingids| && s.accepted[k].id == e.id ==> e.reply == right(k)
  }

  lemma SendRight<P, R>(s: State<P, R>, right: nat -> R)
    requires Core(s) && |s.flyingids| + Sends(s) <= FLYING_CAP && RightReplies(s, right)
    ensures SendNext(s).Next? && Core(SendNext(s).state) && RightReplies(SendNext(s).state, right)
  {
    SendNextCore(s);
    SentExtends(s);
    var t := SendNext(s).state;
    LiveDistinct(t);
    var d, f := |s.delivered|, |s.flyingids|;
    forall k | d <= k < d + |t.flyingids| && t.accepted[k].id in t.replied
      ensures t.replied[t.accepted[k].id].reply == right(k)
    {
      if k >= d + f {
        NewNotHeld(s, t, k);
      }
    }
  }

  lemma {:induction false} SendLoopExtends<P, R>(s: State<P, R>)
    ensures SendLoop(s).Next? ==> s.flyingids <= SendLoop(s).state.flyingids
    decreases |s.queuedids|
  {
    if s.inflight < MAX_FLIGHT && s.queuedids != [] && s.queuedids[0] in s.tosend {
      SendLoopExtends(SendOne(s));
    }
  }

  lemma SentExtends<P, R>(s: State<P, R>)
    requires SendNext(s).Next?
    ensures s.flyingids <= SendNext(s).state.flyingids && SameRest(s, SendNext(s).state)
  {
    SendLoopExtends(s);
    SendLoopSame(s);
  }

  lemma NewNotHeld<P, R>(s: State<P, R>, t: State<P, R>, k: nat)
    requires Conserved(t) && Distinct(t) && s.flyingids <= t.flyingids && SameRest(s, t)
    requires forall id :: id in s.replied ==> id in s.flyingids
    requires |s.delivered| + |s.flyingids| <= k < |s.delivered| + |t.flyingids|
    ensures t.accepted[k].id !in t.replied
  {
    NotBefore(s.flyingids, t.flyingids, k - |s.delivered|);
  }

  lemma NotBefore(xs: seq<Id>, ys: seq<Id>, i: nat)
    requires xs <= ys && |xs| <= i < |ys|
    requires forall j, k :: 0 <= j < k < |ys| ==> ys[j] != ys[k]
    ensures ys[i] !in xs
  {
    forall j | 0 <= j < |xs|
      ensures xs[j] != ys[i]
    {
      assert xs[j] == ys[j];
    }
  }

  lemma AnswerRight<P, R>(s: State<P, R>, id: Id, reply: R, right: nat -> R)
    requires Core(s) && id in s.flying && RightReplies(s, right) && RightEvent(s, Reply(id, reply), right)
    ensures RightReplies(Answer(s, id, reply), right)
  {
  }

  lemma ReturnOneRight<P, R>(s: State<P, R>, right: nat -> R)
    requires |s.delivered| + |s.flyingids| <= |s.accepted| && s.flyingids != [] && s.flyingids[0] in s.replied
    requires RightReplies(s, right) && s.accepted[|s.delivered|].id == s.flyingids[0]
    ensures RightReplies(ReturnOne(s), right)
  {
  }

  lemma {:induction false} ReturnRight<P, R>(s: State<P, R>, right: nat -> R)
    requires Core(s) && RightReplies(s, right)
    ensures Core(ReturnLoop(s)) && RightReplies(ReturnLoop(s), right)
    decreases |s.flyingids|
  {
    if s.flyingids != [] && s.flyingids[0] in s.replied {
      ReturnOneCore(s);
      ReturnOneRight(s, right);
      ReturnRight(ReturnOne(s), right);
    }
  }

  lemma ReplyRight<P, R>(s: State<P, R>, id: Id, reply: R, right: nat -> R)
    requires Inv(s) && id in s.flying && !Overflows(s, Reply(id, reply))
    requires RightReplies(s, right) && RightEvent(s, Reply(id, reply), right)
    ensures var o := HandleReply(s, id, reply); o.Next? && Core(o.state) && RightReplies(o.state, right)
  {
    AnswerCore(s, id, reply);
    AnswerRight(s, id, reply, right);
    HandleReplyAnswer(s, id, reply);
    SendReturnRight(Answer(s, id, reply), right);
  }

  lemma SendReturnRight<P, R>(s: State<P, R>, right: nat -> R)
    requires Core(s) && |s.flyingids| + Sends(s) <= FLYING_CAP && RightReplies(s, right)
    ensures SendNext(s).Next?
    ensures var t := ReturnLoop(SendNext(s).state); Core(t) && RightReplies(t, right)
  {
    SendRight(s, right);
    ReturnRight(SendNext(s).state, right);
  }

  lemma AcceptRight<P, R>(s: State<P, R>, pack: P, right: nat -> R)
    requires Inv(s) && !Overflows(s, Accept(pack)) && |s.queuedids| < QUEUE_CAP && RightReplies(s, right)
    ensures var o := HandleAccept(s, pack); o.Next? && Core(o.state) && RightReplies(o.state, right)
  {
    EnqueueCore(s, pack);
    assert RightReplies(Enqueue(s, pack), right);
    SendRight(Enqueue(s, pack), right);
  }

  lemma StatusRight<P, R>(s: State<P, R>, received: seq<Id>, sent: seq<Id>, right: nat -> R)
    requires Inv(s) && s.handlers > 0 && RightReplies(s, right)
    requires !Overflows(s, StatusReply(received, sent)) && !Panics(s, StatusReply(received, sent))
    ensures var o := HandleStatus(s, received, sent); o.Next? && Core(o.state) && RightReplies(o.state, right)
  {
    RepairCore(s, received, sent);
    SendRight(Resume(Repair(s, received, sent).state), right);
  }

  lemma StepRight<P, R>(s: State<P, R>, e: Event<P, R>, right: nat -> R)
    requires Inv(s) && !Overflows(s, e) && !Panics(s, e) && RightReplies(s, right) && RightEvent(s, e, right)
    ensures Step(s, e).Next? && Core(Step(s, e).state) && RightReplies(Step(s, e).state, right)
  {
    match e
    case Accept(pack) => AcceptRight(s, pack, right);
    case Reply(id, reply) =>
      if id in s.flying {
        ReplyRight(s, id, reply, right);
      }
    case Timeout => StepInv(s, e);
    case StatusReply(received, sent) =>
      if s.handlers > 0 {
        StatusRight(s, received, sent, right);
      }
  }

  /** Every reply in a run that never overflows is the right one for the packet it answers. */
  ghost predicate RightRun<P, R>(s: State<P, R>, es: seq<Event<P, R>>, right: nat -> R)
    requires Inv(s) && NeverOverflows(s, es)
    decreases |es|
  {
    es != [] ==>
      && RightEvent(s, es[0], right)
      && (StepExact(s, es[0]); Step(s, es[0]).Next? ==> RightRun(Step(s, es[0]).state, es[1..], right))
  }

  lemma {:induction false} RunRight<P, R>(s: State<P, R>, es: seq<Event<P, R>>, right: nat -> R)
    requires Inv(s) && NeverOverflows(s, es) && Run(s, es).Next?
    requires RightReplies(s, right) && RightRun(s, es, right)
    ensures Inv(Run(s, es).state) && RightReplies(Run(s, es).state, right)
    decreases |es|
  {
    if es != [] {
      StepExact(s, es[0]);
      StepRight(s, es[0], right);
      RunRight(Step(s, es[0]).state, es[1..], right);
    }
  }
}
