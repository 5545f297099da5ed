/** Which packet the loss timer watches, and runs whose replies arrive in order. */
module WindowTimer {
  import opened Window
  import opened WindowInvariant
  import opened WindowRuns

  /** The timer watches the oldest packet that is still unanswered. */
  ghost predicate TimerOnOldest<P, R>(s: State<P, R>) {
    s.inflight > 0 ==> s.flyingids != [] && s.timeoutid == s.flyingids[0]
  }

  /** The two situations that move the timer off the oldest packet: the second oldest had been
      answered early, or a loss was handled while more than one packet was in the flying log. */
  ghost predicate Derails<P, R>(s: State<P, R>, e: Event<P, R>) {
    match e
    case Accept(_) => false
    case Reply(id, _) =>
      && id in s.flying && s.inflight >= 2 && |s.flyingids| >= 2
      && id == s.flyingids[0] && s.flyingids[1] in s.replied
    case Timeout => false
    case StatusReply(_, _) => s.handlers > 0 && |s.flyingids| >= 2
  }

  lemma {:induction false} SendLoopTimer<P, R>(s: State<P, R>)
    requires SendLoop(s).Next? && s.inflight >= 0
    requires 0 !in s.queuedids && |s.flyingids| + Min(MAX_FLIGHT - s.inflight, |s.queuedids|) <= FLYING_CAP
    ensures var t := SendLoop(s).state;
            && s.flyingids <= t.flyingids && t.inflight - s.inflight == |t.flyingids| - |s.flyingids|
            && (s.inflight > 0 || t.inflight == 0 ==> t.timeoutid == s.timeoutid)
            && (s.inflight == 0 < t.inflight ==> t.timeoutid == t.flyingids[|s.flyingids|])
    decreases |s.queuedids|
  {
    if s.inflight < MAX_FLIGHT && s.queuedids != [] {
      SendLoopTimer(SendOne(s));
    }
  }

  lemma SendNextTimer<P, R>(s: State<P, R>)
    requires Core(s) && |s.flyingids| + Sends(s) <= FLYING_CAP
    ensures SendNext(s).Next?
    ensures var t := SendNext(s).state;
            && s.flyingids <= t.flyingids && t.inflight - s.inflight == |t.flyingids| - |s.flyingids|
            && (s.inflight > 0 || t.inflight == 0 ==> t.timeoutid == s.timeoutid)
            && (s.inflight == 0 < t.inflight ==> t.timeoutid == t.flyingids[|s.flyingids|])
            && t.replied == s.replied
  {
    SendNextCore(s);
    NoneToSend(s);
    LiveDistinct(s);
    if !s.handlinglost && s.queuedids != [] {
      SendLoopTimer(s);
    }
  }

  /** How many entries at the head of the flying log the return loop hands back. */
  function HeldPrefix(ids: seq<Id>, held: set<Id>): nat {
    if ids == [] || ids[0] !in held then 0 else 1 + HeldPrefix(ids[1..], held - {ids[0]})
  }

  lemma {:induction false} HeldPrefixIs(ids: seq<Id>, held: set<Id>, k: nat)
    requires forall i, j :: 0 <= i < j < |ids| ==> ids[i] != ids[j]
    requires k <= |ids| && (forall i :: 0 <= i < k ==> ids[i] in held)
    requires k < |ids| ==> ids[k] !in held
    ensures HeldPrefix(ids, held) == k
    decreases k
  {
    if k != 0 {
      HeldPrefixIs(ids[1..], held - {ids[0]}, k - 1);
    }
  }

  lemma {:induction false} HeldPrefixBound(ids: seq<Id>, held: set<Id>)
    ensures HeldPrefix(ids, held) <= |ids|
    ensures |ids| >= 2 && ids[0] in held && ids[1] in held - {ids[0]} ==> HeldPrefix(ids, held) >= 2
  {
    if ids != [] && ids[0] in held {
      HeldPrefixBound(ids[1..], held - {ids[0]});
    }
  }

  lemma {:induction false} ReturnLoopDrops<P, R>(s: State<P, R>)
    ensures HeldPrefix(s.flyingids, s.replied.Keys) <= |s.flyingids|
    ensures ReturnLoop(s).flyingids == s.flyingids[HeldPrefix(s.flyingids, s.replied.Keys)..]
    decreases |s.flyingids|
  {
    if s.flyingids != [] && s.flyingids[0] in s.replied {
      var t := ReturnOne(s);
      ReturnLoopDrops(t);
      assert t.replied.Keys == s.replied.Keys - {s.flyingids[0]};
    }
  }

  // ----- the ids of a state, seen alone -----

  datatype View = View(ids: seq<Id>, held: set<Id>, inflight: int, timeoutid: Id)

  function ViewOf<P, R>(s: State<P, R>): View {
    View(s.flyingids, s.replied.Keys, s.inflight, s.timeoutid)
  }

  ghost predicate DistinctIds(ids: seq<Id>) {
    forall i, j :: 0 <= i < j < |ids| ==> ids[i] != ids[j]
  }

  ghost predicate GoodView(v: View) {
    && DistinctIds(v.ids)
    && v.held <= Ids(v.ids)
    && |v.ids| == v.inflight + |v.held|
    && (v.ids != [] ==> v.ids[0] !in v.held)
  }

  lemma InvView<P, R>(s: State<P, R>)
    requires Inv(s)
    ensures GoodView(ViewOf(s))
  {
    LiveDistinct(s);
    FlyingCount(s);
  }

  ghost predicate Watched(v: View) {
    v.inflight > 0 ==> v.ids != [] && v.timeoutid == v.ids[0]
  }

  /** Where updatetimeout puts the timer when `id` is answered. */
  function Rearmed(v: View, id: Id): Id {
    if v.ids != [] && id == v.ids[0] && v.inflight > 1 && |v.ids| > 1 then v.ids[1] else v.timeoutid
  }

  /** The view after `id` was answered and the packets `more` were sent. */
  function Replied(v: View, id: Id, more: seq<Id>): View {
    var ids := v.ids + more;
    var n := HeldPrefix(ids, v.held + {id});
    HeldPrefixBound(ids, v.held + {id});
    View(ids[n..], v.held + {id} - Ids(ids[..n]), v.inflight - 1 + |more|,
         if v.inflight == 1 && more != [] then more[0] else Rearmed(v, id))
  }

  lemma SendNextDistinct<P, R>(s: State<P, R>)
    requires Core(s) && |s.flyingids| + Sends(s) <= FLYING_CAP
    ensures SendNext(s).Next? && DistinctIds(SendNext(s).state.flyingids)
  {
    SendNextCore(s);
    LiveDistinct(SendNext(s).state);
  }

  lemma SendNextBounded<P, R>(s: State<P, R>)
    requires Core(s) && |s.flyingids| + Sends(s) <= FLYING_CAP
    ensures SendNext(s).Next? && SendNext(s).state.inflight <= MAX_FLIGHT
  {
    SendNextCore(s);
  }

  /** What a call of sendnext adds to the flying log. */
  lemma SendNextMore<P, R>(s: State<P, R>) returns (more: seq<Id>)
    requires Core(s) && |s.flyingids| + Sends(s) <= FLYING_CAP
    ensures SendNext(s).Next?
    ensures var t := SendNext(s).state;
            && t.flyingids == s.flyingids + more
            && t.inflight == s.inflight + |more| <= MAX_FLIGHT
            && t.replied == s.replied
            && t.timeoutid == (if s.inflight == 0 && more != [] then more[0] else s.timeoutid)
            && DistinctIds(t.flyingids)
  {
    SendNextTimer(s);
    SendNextDistinct(s);
    SendNextBounded(s);
    more := SendNext(s).state.flyingids[|s.flyingids|..];
    MoreOf(s.flyingids, SendNext(s).state.flyingids);
  }

  lemma MoreOf(xs: seq<Id>, ys: seq<Id>)
    requires xs <= ys
    ensures ys == xs + ys[|xs|..]
  {
  }

  lemma AnswerSends<P, R>(s: State<P, R>, id: Id, reply: R) returns (more: seq<Id>)
    requires Inv(s) && id in s.flying && !Overflows(s, Reply(id, reply))
    ensures SendNext(Answer(s, id, reply)).Next?
    ensures var a, t := Answer(s, id, reply), SendNext(Answer(s, id, reply)).state;
            && t.flyingids == s.flyingids + more
            && t.inflight == a.inflight + |more| <= MAX_FLIGHT
            && t.replied == a.replied
            && t.timeoutid == (if a.inflight == 0 && more != [] then more[0] else a.timeoutid)
            && DistinctIds(t.flyingids)
  {
    AnswerCore(s, id, reply);
    more := SendNextMore(Answer(s, id, reply));
  }

  lemma AnswerView<P, R>(s: State<P, R>, id: Id, reply: R)
    requires id in s.flying
    ensures var v, a := ViewOf(s), Answer(s, id, reply);
            ViewOf(a) == View(v.ids, v.held + {id}, v.inflight - 1, Rearmed(v, id))
  {
    assert Answer(s, id, reply).replied.Keys == s.replied.Keys + {id};
  }

  lemma ReturnView<P, R>(t: State<P, R>)
    ensures var n, u := HeldPrefix(t.flyingids, t.replied.Keys), ReturnLoop(t);
            && n <= |t.flyingids|
            && ViewOf(u) == View(t.flyingids[n..], u.replied.Keys, t.inflight, t.timeoutid)
  {
    ReturnLoopHeld(t);
    ReturnLoopDrops(t);
  }

  lemma ReplyView<P, R>(s: State<P, R>, id: Id, reply: R) returns (more: seq<Id>)
    requires Inv(s) && id in s.flying && !Overflows(s, Reply(id, reply))
    ensures HandleReply(s, id, reply).Next?
    ensures var v, u := ViewOf(s), ViewOf(HandleReply(s, id, reply).state);
            && DistinctIds(v.ids + more)
            && u == Replied(v, id, more).(held := u.held)
  {
    more := AnswerSends(s, id, reply);
    AnswerView(s, id, reply);
    HandleReplyAnswer(s, id, reply);
    ReturnView(SendNext(Answer(s, id, reply)).state);
  }

  // ----- the timer after a reply -----

  lemma SubsetCard(a: set<Id>, b: set<Id>)
    requires a <= b
    ensures |a| <= |b|
    ensures |a| == |b| ==> a == b
  {
    assert b == a + (b - a);
  }

  /** Another packet than the oldest was answered: nothing is handed back, the timer stays. */
  lemma TimerOther(v: View, id: Id, more: seq<Id>)
    requires GoodView(v) && Watched(v) && DistinctIds(v.ids + more)
    requires id in v.ids && id !in v.held && id != v.ids[0]
    ensures Watched(Replied(v, id, more))
  {
    SubsetCard(v.held + {id}, Ids(v.ids) - {v.ids[0]});
    DistinctCard(v.ids);
  }

  /** The oldest was the only one unanswered: the timer restarts on the next packet sent. */
  lemma TimerLast(v: View, id: Id, more: seq<Id>)
    requires GoodView(v) && DistinctIds(v.ids + more)
    requires v.ids != [] && id == v.ids[0] && v.inflight == 1
    ensures Watched(Replied(v, id, more))
  {
    DistinctCard(v.ids);
    SubsetCard(v.held + {id}, Ids(v.ids));
    var ids := v.ids + more;
    forall i | 0 <= i < |v.ids|
      ensures ids[i] in v.held + {id}
    {
      assert ids[i] in Ids(v.ids);
    }
    if more != [] {
      assert forall i :: 0 <= i < |v.ids| ==> v.ids[i] == ids[i];
      assert ids[|v.ids|] !in Ids(v.ids);
      HeldPrefixIs(ids, v.held + {id}, |v.ids|);
    }
  }

  /** The oldest was answered and others are in flight: the timer goes to the second oldest. */
  lemma TimerNext(v: View, id: Id, more: seq<Id>)
    requires GoodView(v) && DistinctIds(v.ids + more)
    requires v.ids != [] && id == v.ids[0] && v.inflight >= 2
    ensures |v.ids| >= 2
    ensures Watched(Replied(v, id, more)) <==> v.ids[1] !in v.held
  {
    var ids := v.ids + more;
    HeldPrefixBound(ids, v.held + {id});
    var n := HeldPrefix(ids, v.held + {id});
    if v.ids[1] in v.held {
      assert n >= 2;
      assert n < |ids| ==> ids[n] != ids[1];
    } else {
      HeldPrefixIs(ids, v.held + {id}, 1);
    }
  }

  lemma TimerReply<P, R>(s: State<P, R>, id: Id, reply: R)
    requires Inv(s) && TimerOnOldest(s) && id in s.flying && !Overflows(s, Reply(id, reply))
    ensures HandleReply(s, id, reply).Next?
    ensures TimerOnOldest(HandleReply(s, id, reply).state) <==> !Derails(s, Reply(id, reply))
  {
    var more := ReplyView(s, id, reply);
    InvView(s);
    FlyingKeys(s, id);
    var v := ViewOf(s);
    if id != v.ids[0] {
      TimerOther(v, id, more);
    } else if v.inflight == 1 {
      TimerLast(v, id, more);
    } else {
      SubsetCard({id}, s.flying.Keys);
      TimerNext(v, id, more);
    }
  }

  // ----- the theorem -----

  lemma StatusSends<P, R>(s: State<P, R>, received: seq<Id>, sent: seq<Id>)
    requires Core(s) && s.handlers > 0
    requires !Overflows(s, StatusReply(received, sent)) && !Panics(s, StatusReply(received, sent))
    ensures HandleStatus(s, received, sent).Next?
    ensures var r, t := Repair(s, received, sent).state, HandleStatus(s, received, sent).state;
            && s.flyingids <= t.flyingids && t.inflight - s.inflight == |t.flyingids| - |s.flyingids|
            && (s.inflight > 0 || t.inflight == 0 ==> t.timeoutid == r.timeoutid)
            && (s.inflight == 0 < t.inflight ==> t.timeoutid == t.flyingids[|s.flyingids|])
  {
    RepairCore(s, received, sent);
    SendNextTimer(Resume(Repair(s, received, sent).state));
  }

  lemma TimerStatus<P, R>(s: State<P, R>, received: seq<Id>, sent: seq<Id>)
    requires Inv(s) && TimerOnOldest(s) && s.handlers > 0
    requires !Overflows(s, StatusReply(received, sent)) && !Panics(s, StatusReply(received, sent))
    ensures HandleStatus(s, received, sent).Next?
    ensures TimerOnOldest(HandleStatus(s, received, sent).state) <==> |s.flyingids| < 2
  {
    StatusSends(s, received, sent);
    InvView(s);
    if s.flyingids != [] {
      FlyingSlotAt(s, s.flyingids[0]);
    } else {
      assert s.inflight == 0;
    }
  }

  lemma QuietHead<P, R>(s: State<P, R>)
    requires Inv(s) && s.inflight == 0
    ensures s.flyingids == []
  {
    if s.flyingids != [] {
      FlyingSlotAt(s, s.flyingids[0]);
      assert false;
    }
  }

  lemma TimerAccept<P, R>(s: State<P, R>, pack: P)
    requires Inv(s) && TimerOnOldest(s) && !Overflows(s, Accept(pack)) && |s.queuedids| < QUEUE_CAP
    ensures HandleAccept(s, pack).Next? && TimerOnOldest(HandleAccept(s, pack).state)
  {
    EnqueueCore(s, pack);
    SendNextTimer(Enqueue(s, pack));
    if s.inflight == 0 {
      QuietHead(s);
    }
  }

  /** For every step from a good state whose timer watches the oldest unanswered packet, the
      timer still does so afterwards exactly when the step is not one of the two derailing ones. */
  lemma TimerExact<P, R>(s: State<P, R>, e: Event<P, R>)
    requires Inv(s) && TimerOnOldest(s) && !Overflows(s, e) && !Panics(s, e)
    ensures Step(s, e).Next?
    ensures TimerOnOldest(Step(s, e).state) <==> !Derails(s, e)
  {
    match e
    case Accept(pack) => TimerAccept(s, pack);
    case Reply(id, reply) =>
      if id in s.flying {
        TimerReply(s, id, reply);
      }
    case Timeout =>
    case StatusReply(received, sent) =>
      if s.handlers > 0 {
        TimerStatus(s, received, sent);
      }
  }

  // ----- runs whose replies arrive in order -----

  /** No loss is handled, and a reply always answers the oldest packet in flight. */
  ghost predicate InOrder<P, R>(s: State<P, R>, es: seq<Event<P, R>>)
    decreases |es|
  {
    es != [] ==>
      && (es[0].Accept? || (es[0].Reply? && (es[0].id in s.flying ==> s.flyingids != [] && es[0].id == s.flyingids[0])))
      && (Step(s, es[0]).Next? ==> InOrder(Step(s, es[0]).state, es[1..]))
  }

  lemma InOrderView(v: View, u: View, id: Id, more: seq<Id>)
    requires GoodView(v) && GoodView(u) && v.held == {} && v.ids != [] && id == v.ids[0]
    requires DistinctIds(v.ids + more) && u == Replied(v, id, more).(held := u.held)
    ensures u.held == {}
  {
    HeldPrefixIs(v.ids + more, {id}, 1);
  }

  /** The reply to the oldest packet, with nothing held back: handed back at once, and even while
      the step sends the next packet the flying log has at most five entries. */
  lemma InOrderReply<P, R>(s: State<P, R>, id: Id, reply: R)
    requires Inv(s) && s.replied == map[] && s.flyingids != [] && id == s.flyingids[0] && id in s.flying
    ensures SendNext(Answer(s, id, reply)).Next? && |SendNext(Answer(s, id, reply)).state.flyingids| <= MAX_FLIGHT + 1
    ensures HandleReply(s, id, reply).Next? && HandleReply(s, id, reply).state.replied.Keys == {}
  {
    InvView(s);
    assert |s.flyingids| == s.inflight <= MAX_FLIGHT;
    var more := AnswerSends(s, id, reply);
    var again := ReplyView(s, id, reply);
    InOrderInv(s, id, reply);
    InOrderView(ViewOf(s), ViewOf(HandleReply(s, id, reply).state), id, again);
  }

  lemma InOrderInv<P, R>(s: State<P, R>, id: Id, reply: R)
    requires Inv(s) && id in s.flying && |s.flyingids| <= MAX_FLIGHT
    ensures HandleReply(s, id, reply).Next? && GoodView(ViewOf(HandleReply(s, id, reply).state))
  {
    ReplyInv(s, id, reply);
    InvView(HandleReply(s, id, reply).state);
  }

  lemma AcceptReplied<P, R>(s: State<P, R>, pack: P)
    requires HandleAccept(s, pack).Next?
    ensures HandleAccept(s, pack).state.replied == s.replied
  {
    SendLoopSame(Enqueue(s, pack));
  }

  /** In such runs the flying log never overflows, nothing is ever held back, and the timer
      always watches the oldest unanswered packet. */
  lemma {:induction false} RunInOrder<P, R>(s: State<P, R>, es: seq<Event<P, R>>)
    requires Inv(s) && s.replied == map[] && TimerOnOldest(s)
    requires InOrder(s, es) && Run(s, es).Next?
    ensures NeverOverflows(s, es)
    ensures var t := Run(s, es).state;
            Inv(t) && t.replied == map[] && TimerOnOldest(t) && |t.flyingids| <= MAX_FLIGHT
    decreases |es|
  {
    FlyingCount(s);
    if es != [] {
      var e := es[0];
      StepExact(s, e);
      TimerExact(s, e);
      match e {
        case Accept(pack) => AcceptReplied(s, pack);
        case Reply(id, reply) =>
          if id in s.flying {
            InOrderReply(s, id, reply);
            assert Step(s, e).state.replied == map[];
          }
      }
      RunInOrder(Step(s, e).state, es[1..]);
    }
  }
}
