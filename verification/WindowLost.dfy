/** What becomes of a packet that was sent into a full flying log. */
module WindowLost {
  import opened Window
  import opened WindowInvariant
  import opened WindowRuns
  import opened WindowReplies

  /** What still holds of every state after an overflow. */
  ghost predicate Loose<P, R>(s: State<P, R>) {
    && Numbered(s) && |s.flyingids| <= FLYING_CAP
    && forall id :: id in s.replied ==> s.replied[id].id == id
  }

  /** No id log names `x`. */
  predicate Gone<P, R>(s: State<P, R>, x: Id) {
    x !in s.flyingids && x !in s.queuedids
  }

  /** Nothing handed back from `d` to `d'` has the id `x`. */
  ghost predicate Withheld<P, R>(d: seq<Answered<P, R>>, d': seq<Answered<P, R>>, x: Id) {
    d <= d' && forall j :: |d| <= j < |d'| ==> d'[j].id != x
  }

  // ----- sending in general -----

  /** The flying log `f` and the queue `q` after `free` places in the window have been filled. */
  function Moves(free: nat, f: seq<Id>, q: seq<Id>): (seq<Id>, seq<Id>)
    decreases free
  {
    if free == 0 || q == [] then (f, q) else Moves(free - 1, LogAdd(f, FLYING_CAP, q[0]), q[1..])
  }

  lemma {:induction false} SendLoopMoves<P, R>(s: State<P, R>, free: nat)
    requires free == MAX_FLIGHT - s.inflight && SendLoop(s).Next?
    ensures var t := SendLoop(s).state; Moves(free, s.flyingids, s.queuedids) == (t.flyingids, t.queuedids)
    decreases free
  {
    if free > 0 && s.queuedids != [] {
      SendLoopMoves(SendOne(s), free - 1);
    }
  }

  lemma DropNext(q: seq<Id>, m: nat)
    requires m < |q|
    ensures q[1..][m..] == q[m + 1..]
  {
  }

  lemma TakeNext(f: seq<Id>, q: seq<Id>, j: nat)
    requires j < |q|
    ensures f + [q[0]] + q[1..][..j] == f + q[..j + 1]
  {
    assert q[..j + 1] == [q[0]] + q[1..][..j];
  }

  lemma TakeNone(f: seq<Id>, q: seq<Id>)
    ensures f + q[..0] == f && q[0..] == q
  {
  }

  lemma {:induction false} FullMoves(free: nat, f: seq<Id>, q: seq<Id>)
    requires |f| == FLYING_CAP
    ensures Moves(free, f, q) == (f, q[Min(free, |q|)..])
    decreases free
  {
    if free > 0 && q != [] {
      FullMoves(free - 1, f, q[1..]);
      DropNext(q, Min(free - 1, |q| - 1));
    } else {
      TakeNone(f, q);
    }
  }

  lemma {:induction false} MovesAre(free: nat, f: seq<Id>, q: seq<Id>, m: nat, k: nat)
    requires |f| <= FLYING_CAP && 0 !in q && m == Min(free, |q|) && k == Min(m, FLYING_CAP - |f|)
    ensures Moves(free, f, q) == (f + q[..k], q[m..])
    decreases free
  {
    if |f| == FLYING_CAP {
      FullMoves(free, f, q);
      TakeNone(f, q);
    } else if m == 0 {
      TakeNone(f, q);
    } else {
      var less, room := m - 1, k - 1;
      MovesAre(free - 1, f + [q[0]], q[1..], less, room);
      DropNext(q, less);
      TakeNext(f, q, room);
    }
  }

  /** Exactly what the sending loop does to the two id logs, room or not. */
  lemma SendLoopIds<P, R>(s: State<P, R>)
    requires |s.flyingids| <= FLYING_CAP && 0 !in s.queuedids && SendLoop(s).Next? && s.inflight <= MAX_FLIGHT
    ensures var t, m := SendLoop(s).state, Min(MAX_FLIGHT - s.inflight, |s.queuedids|);
            && t.queuedids == s.queuedids[m..]
            && t.flyingids == s.flyingids + s.queuedids[..Min(m, FLYING_CAP - |s.flyingids|)]
  {
    var free := MAX_FLIGHT - s.inflight;
    var m := Min(free, |s.queuedids|);
    SendLoopMoves(s, free);
    MovesAre(free, s.flyingids, s.queuedids, m, Min(m, FLYING_CAP - |s.flyingids|));
  }

  lemma {:induction false} SendLoopLoose<P, R>(s: State<P, R>, x: Id)
    requires |s.flyingids| <= FLYING_CAP && Gone(s, x)
    ensures SendLoop(s).Next? ==> |SendLoop(s).state.flyingids| <= FLYING_CAP && Gone(SendLoop(s).state, x)
    decreases |s.queuedids|
  {
    if s.inflight < MAX_FLIGHT && s.queuedids != [] && s.queuedids[0] in s.tosend {
      SendLoopLoose(SendOne(s), x);
    }
  }

  lemma SendLoose<P, R>(s: State<P, R>, x: Id)
    requires Loose(s) && Gone(s, x) && SendNext(s).Next?
    ensures Loose(SendNext(s).state) && Gone(SendNext(s).state, x) && SameRest(s, SendNext(s).state)
  {
    SendLoopLoose(s, x);
    SendLoopSame(s);
  }

  /** The return loop hands back only what the flying log names. */
  lemma {:induction false} ReturnLoose<P, R>(s: State<P, R>, x: Id)
    requires Loose(s) && Gone(s, x)
    ensures var t := ReturnLoop(s);
            && Loose(t) && Gone(t, x) && Withheld(s.delivered, t.delivered, x)
            && t.accepted == s.accepted && t.nextID == s.nextID
    decreases |s.flyingids|
  {
    if s.flyingids != [] && s.flyingids[0] in s.replied {
      ReturnLoose(ReturnOne(s), x);
    }
  }

  // ----- steps from any state -----

  lemma AcceptLoose<P, R>(s: State<P, R>, pack: P, x: Id)
    requires Loose(s) && Gone(s, x) && s.nextID != x && HandleAccept(s, pack).Next?
    ensures var t := HandleAccept(s, pack).state; Loose(t) && Gone(t, x) && t.delivered == s.delivered
  {
    SendLoose(Enqueue(s, pack), x);
  }

  lemma ReplyLoose<P, R>(s: State<P, R>, id: Id, reply: R, x: Id)
    requires Loose(s) && Gone(s, x) && HandleReply(s, id, reply).Next?
    ensures var t := HandleReply(s, id, reply).state;
            Loose(t) && Gone(t, x) && Withheld(s.delivered, t.delivered, x)
  {
    if id in s.flying {
      HandleReplyAnswer(s, id, reply);
      SendLoose(Answer(s, id, reply), x);
      ReturnLoose(SendNext(Answer(s, id, reply)).state, x);
    }
  }

  lemma StatusLoose<P, R>(s: State<P, R>, received: seq<Id>, sent: seq<Id>, x: Id)
    requires Loose(s) && Gone(s, x) && HandleStatus(s, received, sent).Next?
    ensures var t := HandleStatus(s, received, sent).state; Loose(t) && Gone(t, x) && t.delivered == s.delivered
  {
    if s.handlers > 0 {
      RepairFrame(s, received, sent);
      SendLoose(Resume(Repair(s, received, sent).state), x);
    }
  }

  /** An id that no log names comes back only by being given out again. */
  lemma StepLoose<P, R>(s: State<P, R>, e: Event<P, R>, x: Id)
    requires Loose(s) && Gone(s, x) && Step(s, e).Next? && (e.Accept? ==> s.nextID != x)
    ensures var t := Step(s, e).state; Loose(t) && Gone(t, x) && Withheld(s.delivered, t.delivered, x)
  {
    match e
    case Accept(pack) => AcceptLoose(s, pack, x);
    case Reply(id, reply) => ReplyLoose(s, id, reply, x);
    case Timeout =>
    case StatusReply(received, sent) => StatusLoose(s, received, sent, x);
  }

  // ----- how many packets are lost -----

  function Missing<P, R>(s: State<P, R>): int {
    |s.accepted| - Total(s)
  }

  lemma {:induction false} SendLoopMissing<P, R>(s: State<P, R>)
    requires |s.flyingids| <= FLYING_CAP
    ensures SendLoop(s).Next? ==>
              var t := SendLoop(s).state; Missing(s) <= Missing(t) && |t.flyingids| <= FLYING_CAP
    decreases |s.queuedids|
  {
    if s.inflight < MAX_FLIGHT && s.queuedids != [] && s.queuedids[0] in s.tosend {
      SendLoopMissing(SendOne(s));
    }
  }

  lemma {:induction false} ReturnLoopShort<P, R>(s: State<P, R>)
    ensures |ReturnLoop(s).flyingids| <= |s.flyingids|
    decreases |s.flyingids|
  {
    if s.flyingids != [] && s.flyingids[0] in s.replied {
      ReturnLoopShort(ReturnOne(s));
    }
  }

  lemma ReplyMissing<P, R>(s: State<P, R>, id: Id, reply: R)
    requires |s.flyingids| <= FLYING_CAP && id in s.flying && HandleReply(s, id, reply).Next?
    ensures var t := HandleReply(s, id, reply).state; Missing(s) <= Missing(t) && |t.flyingids| <= FLYING_CAP
  {
    HandleReplyAnswer(s, id, reply);
    var a := Answer(s, id, reply);
    SendLoopMissing(a);
    ReturnLoopTotal(SendNext(a).state);
    ReturnLoopShort(SendNext(a).state);
  }

  /** No step finds a lost packet again. */
  lemma StepMissing<P, R>(s: State<P, R>, e: Event<P, R>)
    requires |s.flyingids| <= FLYING_CAP && Step(s, e).Next?
    ensures var t := Step(s, e).state; Missing(s) <= Missing(t) && |t.flyingids| <= FLYING_CAP
  {
    match e
    case Accept(pack) => SendLoopMissing(Enqueue(s, pack));
    case Reply(id, reply) =>
      if id in s.flying {
        ReplyMissing(s, id, reply);
      }
    case Timeout =>
    case StatusReply(received, sent) =>
      if s.handlers > 0 {
        RepairFrame(s, received, sent);
        SendLoopMissing(Resume(Repair(s, received, sent).state));
      }
  }

  // ----- the overflowing step -----

  /** The packet that finds no room is the one 32 places behind the last delivered one. */
  lemma SendDrops<P, R>(s: State<P, R>)
    requires Core(s) && |s.flyingids| + Sends(s) > FLYING_CAP && SendNext(s).Next?
    ensures var k := |s.delivered| + FLYING_CAP; k < |s.accepted| && Gone(SendNext(s).state, s.accepted[k].id)
  {
    NoneToSend(s);
    LiveDistinct(s);
    SendLoopIds(s);
    var k, j := |s.delivered| + FLYING_CAP, FLYING_CAP - |s.flyingids|;
    assert s.queuedids[j] == s.accepted[k].id;
    assert s.queuedids[j] in s.queuedids;
  }

  lemma CoreLoose<P, R>(s: State<P, R>)
    requires Core(s)
    ensures Loose(s)
  {
    forall id | id in s.replied
      ensures s.replied[id].id == id
    {
      HeldUnder(s, id);
    }
  }

  lemma HeldUnder<P, R>(s: State<P, R>, id: Id)
    requires Conserved(s) && Logged(s) && id in s.replied
    ensures s.replied[id].id == id
  {
    assert id in s.flyingids;
    var i :| 0 <= i < |s.flyingids| && s.flyingids[i] == id;
    assert FlyingSlot(s, |s.delivered| + i);
  }

  lemma SendLooseOnly<P, R>(s: State<P, R>)
    requires Loose(s) && SendNext(s).Next?
    ensures Loose(SendNext(s).state) && SameRest(s, SendNext(s).state)
  {
    SendLoopMissing(s);
    SendLoopSame(s);
  }

  lemma SendLost<P, R>(s: State<P, R>)
    requires Core(s) && |s.flyingids| + Sends(s) > FLYING_CAP && SendNext(s).Next?
    ensures var t, k := SendNext(s).state, |s.delivered| + FLYING_CAP;
            && Loose(t) && SameRest(s, t) && k < |s.accepted| && Gone(t, s.accepted[k].id)
  {
    SendDrops(s);
    CoreLoose(s);
    SendLooseOnly(s);
  }

  lemma AcceptDrops<P, R>(s: State<P, R>, pack: P)
    requires Inv(s) && Overflows(s, Accept(pack)) && HandleAccept(s, pack).Next?
    ensures Dropped(s, HandleAccept(s, pack).state)
  {
    EnqueueCore(s, pack);
    SendLost(Enqueue(s, pack));
  }

  lemma AnswerLost<P, R>(s: State<P, R>, id: Id, reply: R)
    requires Inv(s) && Overflows(s, Reply(id, reply)) && SendNext(Answer(s, id, reply)).Next?
    ensures var t := SendNext(Answer(s, id, reply)).state; Dropped(s, t) && t.delivered == s.delivered
  {
    AnswerCore(s, id, reply);
    SendLost(Answer(s, id, reply));
  }

  lemma ReturnDropped<P, R>(s: State<P, R>, t: State<P, R>)
    requires Dropped(s, t) && t.delivered == s.delivered
    ensures Dropped(s, ReturnLoop(t))
  {
    ReturnLoose(t, t.accepted[|s.delivered| + FLYING_CAP].id);
  }

  lemma ReplyDrops<P, R>(s: State<P, R>, id: Id, reply: R)
    requires Inv(s) && Overflows(s, Reply(id, reply)) && HandleReply(s, id, reply).Next?
    ensures Dropped(s, HandleReply(s, id, reply).state)
  {
    HandleReplyAnswer(s, id, reply);
    AnswerLost(s, id, reply);
    ReturnDropped(s, SendNext(Answer(s, id, reply)).state);
  }

  lemma StatusDrops<P, R>(s: State<P, R>, received: seq<Id>, sent: seq<Id>)
    requires Inv(s) && Overflows(s, StatusReply(received, sent)) && HandleStatus(s, received, sent).Next?
    ensures Dropped(s, HandleStatus(s, received, sent).state)
  {
    RepairCore(s, received, sent);
    SendLost(Resume(Repair(s, received, sent).state));
  }

  /** From `s` to `t` the packet 32 places behind the last delivered one was lost. */
  ghost predicate Dropped<P, R>(s: State<P, R>, t: State<P, R>) {
    var k := |s.delivered| + FLYING_CAP;
    && Loose(t) && k < |t.accepted|
    && Gone(t, t.accepted[k].id) && Withheld(s.delivered, t.delivered, t.accepted[k].id)
  }

  /** The step that overflows drops that packet: no id log names it, and the step does not hand it back. */
  lemma OverflowDrops<P, R>(s: State<P, R>, e: Event<P, R>)
    requires Inv(s) && Overflows(s, e) && Step(s, e).Next?
    ensures Dropped(s, Step(s, e).state)
  {
    match e
    case Accept(pack) => AcceptDrops(s, pack);
    case Reply(id, reply) => ReplyDrops(s, id, reply);
    case StatusReply(received, sent) => StatusDrops(s, received, sent);
  }

  // ----- every continuation -----

  lemma {:induction false} RunMissing<P, R>(s: State<P, R>, es: seq<Event<P, R>>)
    requires |s.flyingids| <= FLYING_CAP && Run(s, es).Next?
    ensures Missing(s) <= Missing(Run(s, es).state)
    decreases |es|
  {
    if es != [] {
      StepMissing(s, es[0]);
      RunMissing(Step(s, es[0]).state, es[1..]);
    }
  }

  lemma {:induction false} RunGrows<P, R>(s: State<P, R>, es: seq<Event<P, R>>)
    requires Run(s, es).Next?
    ensures s.accepted <= Run(s, es).state.accepted && s.delivered <= Run(s, es).state.delivered
    decreases |es|
  {
    if es != [] {
      StepAccepted(s, es[0]);
      RunGrows(Step(s, es[0]).state, es[1..]);
    }
  }

  lemma WithheldOn<P, R>(d: seq<Answered<P, R>>, d1: seq<Answered<P, R>>, d2: seq<Answered<P, R>>, x: Id)
    requires Withheld(d, d1, x) && Withheld(d1, d2, x)
    ensures Withheld(d, d2, x)
  {
  }

  /** While fewer than 65535 ids have been given out since the k-th packet's, its id is not given again. */
  lemma NotAgain<P, R>(s: State<P, R>, k: nat)
    requires Numbered(s) && k < |s.accepted| < k + 65535
    ensures s.nextID != s.accepted[k].id
  {
    IdAtDistinct(s.start, k, |s.accepted|);
  }

  lemma {:induction false} RunWithheld<P, R>(s: State<P, R>, es: seq<Event<P, R>>, k: nat)
    requires Loose(s) && k < |s.accepted| && Gone(s, s.accepted[k].id) && Run(s, es).Next?
    requires |Run(s, es).state.accepted| <= k + 65535
    ensures Withheld(s.delivered, Run(s, es).state.delivered, s.accepted[k].id)
    decreases |es|
  {
    if es != [] {
      var u, x := Step(s, es[0]).state, s.accepted[k].id;
      StepAccepted(s, es[0]);
      RunGrows(u, es[1..]);
      if es[0].Accept? {
        NotAgain(s, k);
      }
      StepLoose(s, es[0], x);
      RunWithheld(u, es[1..], k);
      WithheldOn(s.delivered, u.delivered, Run(u, es[1..]).state.delivered, x);
    }
  }

  /** An overflow is final. In every continuation, whatever happens in it, some accepted packet is
      neither delivered nor in any id log; and the reply to the packet that found no room is not handed
      back while fewer than 65535 ids have been given out since its own. */
  lemma OverflowIsFinal<P, R>(s: State<P, R>, e: Event<P, R>, es: seq<Event<P, R>>)
    requires Inv(s) && Overflows(s, e) && Step(s, e).Next? && Run(Step(s, e).state, es).Next?
    ensures var t, k := Run(Step(s, e).state, es).state, |s.delivered| + FLYING_CAP;
            && Total(t) < |t.accepted|
            && k < |t.accepted|
            && (|t.accepted| <= k + 65535 ==> Withheld(s.delivered, t.delivered, t.accepted[k].id))
  {
    var u, k := Step(s, e).state, |s.delivered| + FLYING_CAP;
    StepExact(s, e);
    OverflowLoses(s, e);
    OverflowDrops(s, e);
    RunMissing(u, es);
    RunGrows(u, es);
    var t := Run(u, es).state;
    assert t.accepted[k] == u.accepted[k];
    if |t.accepted| <= k + 65535 {
      RunWithheld(u, es, k);
      WithheldOn(s.delivered, u.delivered, t.delivered, u.accepted[k].id);
    }
  }

  // ----- old answers -----

  /** The return loop hands back what is stored under each id, one after the other. */
  lemma {:induction false} ReturnHands<P, R>(s: State<P, R>)
    ensures var t := ReturnLoop(s);
            && s.delivered <= t.delivered && |t.delivered| - |s.delivered| <= |s.flyingids|
            && forall i :: 0 <= i < |t.delivered| - |s.delivered| ==>
                 s.flyingids[i] in s.replied && t.delivered[|s.delivered| + i] == s.replied[s.flyingids[i]]
    decreases |s.flyingids|
  {
    if s.flyingids != [] && s.flyingids[0] in s.replied {
      var u, t := ReturnOne(s), ReturnLoop(s);
      ReturnHands(u);
      forall i | 0 <= i < |t.delivered| - |s.delivered|
        ensures s.flyingids[i] in s.replied && t.delivered[|s.delivered| + i] == s.replied[s.flyingids[i]]
      {
        if i == 0 {
          assert t.delivered[|s.delivered|] == u.delivered[|s.delivered|];
        } else {
          assert s.flyingids[i] == u.flyingids[i - 1];
        }
      }
    }
  }

  /** From any state: under the id it names a reply step hands back the reply that came, and under every
      other id whatever answer was stored there before, old or not. `f` is the flying log when the step
      starts to hand back. */
  lemma HandsBack<P, R>(s: State<P, R>, id: Id, reply: R) returns (f: seq<Id>)
    requires id in s.flying && HandleReply(s, id, reply).Next?
    ensures s.flyingids <= f
    ensures var d, n := HandleReply(s, id, reply).state.delivered, |s.delivered|;
            && s.delivered <= d && |d| - n <= |f|
            && forall i :: 0 <= i < |d| - n ==>
                 && (f[i] == id || f[i] in s.replied)
                 && d[n + i] == if f[i] == id then Answered(id, s.flying[id], reply) else s.replied[f[i]]
  {
    HandleReplyAnswer(s, id, reply);
    var a := Answer(s, id, reply);
    SentExtends(a);
    f := SendNext(a).state.flyingids;
    ReturnHands(SendNext(a).state);
  }

  /** With an old answer stored under the id of the oldest packet, which is in flight again: a reply to a
      packet in flight hands the old answer back for it exactly if the reply is to another packet. */
  lemma StaleAnswer<P, R>(s: State<P, R>, id: Id, reply: R)
    requires s.flyingids != [] && s.flyingids[0] in s.flying && s.flyingids[0] in s.replied
    requires id in s.flying && HandleReply(s, id, reply).Next?
    ensures var d, h := HandleReply(s, id, reply).state.delivered, s.flyingids[0];
            && |s.delivered| < |d|
            && d[|s.delivered|] == (if id == h then Answered(h, s.flying[h], reply) else s.replied[h])
            && (s.replied[h] != Answered(h, s.flying[h], reply) ==> (d[|s.delivered|] == s.replied[h] <==> id != h))
  {
    HandleReplyAnswer(s, id, reply);
    var a := Answer(s, id, reply);
    SentExtends(a);
    var t := SendNext(a).state;
    assert ReturnLoop(t) == ReturnLoop(ReturnOne(t));
    ReturnLoopExtends(ReturnOne(t));
    var f := HandsBack(s, id, reply);
  }
}
