/** What every step of the window engine keeps, and what follows over whole runs. */
module WindowInvariant {
  import opened Window

  /** The k-th id handed out when `start` is the first. */
  function IdAt(start: Id, k: nat): Id {
    if k == 0 then start else NextId(IdAt(start, k - 1))
  }

  /** Ids count 1, 2, ..., 65535, 1, ... and never reach 0. */
  lemma {:induction false} IdAtClosed(start: Id, k: nat)
    requires start != 0
    ensures IdAt(start, k) == 1 + (start - 1 + k) % 65535
  {
    if k != 0 {
      IdAtClosed(start, k - 1);
      CycleStep(start - 1 + k - 1);
    }
  }

  lemma CycleStep(n: nat)
    ensures (n + 1) % 65535 == if n % 65535 == 65534 then 0 else n % 65535 + 1
  {
    var q, r := n / 65535, n % 65535;
    assert n + 1 == 65535 * q + (r + 1);
    if r == 65534 {
      assert n + 1 == 65535 * (q + 1);
    }
  }

  lemma IdAtDistinct(start: Id, i: nat, j: nat)
    requires start != 0
    requires i < j < i + 65535
    ensures IdAt(start, i) != IdAt(start, j)
  {
    IdAtClosed(start, i);
    IdAtClosed(start, j);
  }

  /** The first transmissions in a wire history. */
  function Firsts<P>(wire: seq<WireEvent<P>>): seq<Stamped<P>> {
    if wire == [] then []
    else Firsts(wire[..|wire| - 1]) + (if wire[|wire| - 1].First? then [wire[|wire| - 1].packet] else [])
  }

  lemma FirstsAppend<P>(wire: seq<WireEvent<P>>, e: WireEvent<P>)
    ensures Firsts(wire + [e]) == Firsts(wire) + (if e.First? then [e.packet] else [])
  {
    assert (wire + [e])[..|wire|] == wire;
  }

  // ----- the invariant -----

  ghost predicate Numbered<P, R>(s: State<P, R>) {
    && s.start != 0
    && s.nextID == IdAt(s.start, |s.accepted|)
    && forall k :: 0 <= k < |s.accepted| ==> s.accepted[k].id == IdAt(s.start, k)
  }

  /** delivered ++ flying ++ queued is exactly what was accepted, in order. */
  ghost predicate Conserved<P, R>(s: State<P, R>) {
    var d, f, q := |s.delivered|, |s.flyingids|, |s.queuedids|;
    && d + f + q == |s.accepted|
    && (forall k :: 0 <= k < d ==> Stamped(s.delivered[k].id, s.delivered[k].pack) == s.accepted[k])
    && (forall i :: 0 <= i < f ==> s.flyingids[i] == s.accepted[d + i].id)
    && (forall i :: 0 <= i < q ==> s.queuedids[i] == s.accepted[d + f + i].id)
  }

  /** The k-th accepted packet is waiting in the queue. */
  ghost predicate QueuedSlot<P, R>(s: State<P, R>, k: nat)
    requires k < |s.accepted|
  {
    var p := s.accepted[k];
    p.id in s.tosend && s.tosend[p.id] == p.pack
  }

  /** The k-th accepted packet was sent and is either unanswered or holds its answer back. */
  ghost predicate FlyingSlot<P, R>(s: State<P, R>, k: nat)
    requires k < |s.accepted|
  {
    var p := s.accepted[k];
    || (p.id in s.flying && p.id !in s.replied && s.flying[p.id] == p.pack)
    || (p.id !in s.flying && p.id in s.replied && Stamped(s.replied[p.id].id, s.replied[p.id].pack) == p)
  }

  /** The packet logs hold exactly the packets their id logs name. */
  ghost predicate Logged<P, R>(s: State<P, R>)
    requires |s.delivered| + |s.flyingids| + |s.queuedids| == |s.accepted|
  {
    var d, f := |s.delivered|, |s.flyingids|;
    && (forall k :: d + f <= k < |s.accepted| ==> QueuedSlot(s, k))
    && (forall k :: d <= k < d + f ==> FlyingSlot(s, k))
    && (forall id :: id in s.tosend ==> id in s.queuedids)
    && (forall id :: id in s.flying || id in s.replied ==> id in s.flyingids)
  }

  ghost predicate Bounded<P, R>(s: State<P, R>) {
    && s.inflight == |s.flying| <= MAX_FLIGHT
    && |s.flyingids| <= FLYING_CAP
    && |s.queuedids| <= QUEUE_CAP
  }

  /** No id is in use twice, and the next id is not in use. */
  ghost predicate Distinct<P, R>(s: State<P, R>) {
    && (forall i, j :: 0 <= i < j < |s.flyingids| ==> s.flyingids[i] != s.flyingids[j])
    && (forall i, j :: 0 <= i < j < |s.queuedids| ==> s.queuedids[i] != s.queuedids[j])
    && (forall id :: id in s.flyingids ==> id !in s.queuedids)
    && s.nextID !in s.flyingids && s.nextID !in s.queuedids
    && 0 !in s.queuedids
  }

  /** The part of the invariant that holds inside a step as well. */
  ghost predicate Core<P, R>(s: State<P, R>) {
    && Numbered(s)
    && Conserved(s)
    && Logged(s)
    && Bounded(s)
    && Firsts(s.wire) == s.accepted[..|s.delivered| + |s.flyingids|]
  }

  ghost predicate HeadUnanswered<P, R>(s: State<P, R>) {
    s.flyingids != [] ==> s.flyingids[0] !in s.replied
  }

  /** Outside loss handling a packet waits only for a full window. */
  ghost predicate Busy<P, R>(s: State<P, R>) {
    !s.handlinglost && s.queuedids != [] ==> s.inflight == MAX_FLIGHT
  }

  ghost predicate Inv<P, R>(s: State<P, R>) {
    Core(s) && HeadUnanswered(s) && Busy(s)
  }

  lemma InitInv<P, R>(start: Id)
    requires start != 0
    ensures Inv<P, R>(Init(start))
  {
  }

  lemma LiveDistinct<P, R>(s: State<P, R>)
    requires Numbered(s) && Conserved(s) && Bounded(s)
    ensures Distinct(s)
  {
    var d, f := |s.delivered|, |s.flyingids|;
    forall i, j | d <= i < j <= |s.accepted|
      ensures IdAt(s.start, i) != IdAt(s.start, j)
    {
      IdAtDistinct(s.start, i, j);
    }
    forall k | 0 <= k <= |s.accepted|
      ensures IdAt(s.start, k) != 0
    {
      IdAtClosed(s.start, k);
    }
  }

  // ----- one transmission -----

  ghost predicate CanSend<P, R>(s: State<P, R>) {
    && s.queuedids != [] && s.queuedids[0] in s.tosend
    && s.queuedids[0] != 0 && s.queuedids[0] !in s.flyingids && s.queuedids[0] !in s.queuedids[1..]
    && s.inflight < MAX_FLIGHT && |s.flyingids| < FLYING_CAP
  }

  lemma WhenCanSend<P, R>(s: State<P, R>)
    requires Numbered(s) && Conserved(s) && Logged(s) && Bounded(s)
    requires s.queuedids != [] && s.inflight < MAX_FLIGHT && |s.flyingids| < FLYING_CAP
    ensures CanSend(s) && QueuedSlot(s, |s.delivered| + |s.flyingids|)
  {
    LiveDistinct(s);
    assert s.queuedids[0] in s.queuedids;
    assert QueuedSlot(s, |s.delivered| + |s.flyingids|);
  }

  lemma SendOneConserved<P, R>(s: State<P, R>)
    requires Conserved(s) && CanSend(s)
    ensures SendOne(s).flyingids == s.flyingids + [s.queuedids[0]]
    ensures Conserved(SendOne(s))
  {
  }

  lemma SendOneFirsts<P, R>(s: State<P, R>)
    requires Conserved(s) && CanSend(s)
    requires QueuedSlot(s, |s.delivered| + |s.flyingids|)
    requires Firsts(s.wire) == s.accepted[..|s.delivered| + |s.flyingids|]
    ensures Firsts(SendOne(s).wire) == s.accepted[..|s.delivered| + |s.flyingids| + 1]
  {
    FirstsAppend(s.wire, First(Stamped(s.queuedids[0], s.tosend[s.queuedids[0]])));
  }

  lemma SendOneQueued<P, R>(s: State<P, R>, k: nat)
    requires Conserved(s) && Logged(s) && CanSend(s)
    requires |s.delivered| + |s.flyingids| + 1 <= k < |s.accepted|
    ensures QueuedSlot(SendOne(s), k)
  {
    assert QueuedSlot(s, k);
    var i := k - |s.delivered| - |s.flyingids|;
    assert s.accepted[k].id == s.queuedids[i] == s.queuedids[1..][i - 1];
  }

  lemma SendOneFlying<P, R>(s: State<P, R>, k: nat)
    requires Conserved(s) && Logged(s) && CanSend(s)
    requires |s.delivered| <= k <= |s.delivered| + |s.flyingids|
    ensures FlyingSlot(SendOne(s), k)
  {
    var d, f := |s.delivered|, |s.flyingids|;
    if k == d + f {
      assert QueuedSlot(s, k);
    } else {
      assert FlyingSlot(s, k);
      assert s.accepted[k].id == s.flyingids[k - d];
    }
  }

  lemma SendOneLogged<P, R>(s: State<P, R>)
    requires Conserved(s) && Logged(s) && CanSend(s)
    requires SendOne(s).flyingids == s.flyingids + [s.queuedids[0]]
    ensures s.queuedids[0] !in s.flying
    ensures Logged(SendOne(s))
  {
    var t := SendOne(s);
    var d, f := |t.delivered|, |t.flyingids|;
    forall k | d + f <= k < |s.accepted|
      ensures QueuedSlot(t, k)
    {
      SendOneQueued(s, k);
    }
    forall k | d <= k < d + f
      ensures FlyingSlot(t, k)
    {
      SendOneFlying(s, k);
    }
  }

  lemma SendOneRest<P, R>(s: State<P, R>)
    requires Numbered(s) && Bounded(s) && s.queuedids != [] && s.queuedids[0] in s.tosend
    requires s.queuedids[0] !in s.flying && s.inflight < MAX_FLIGHT && |s.flyingids| < FLYING_CAP
    ensures Numbered(SendOne(s)) && Bounded(SendOne(s))
  {
  }

  lemma SendOneHead<P, R>(s: State<P, R>)
    requires CanSend(s) && HeadUnanswered(s) && SendOne(s).flyingids == s.flyingids + [s.queuedids[0]]
    requires forall id :: id in s.replied ==> id in s.flyingids
    ensures HeadUnanswered(SendOne(s))
  {
  }

  lemma SendOneCore<P, R>(s: State<P, R>)
    requires Core(s) && s.queuedids != [] && s.inflight < MAX_FLIGHT && |s.flyingids| < FLYING_CAP
    ensures s.queuedids[0] in s.tosend && Core(SendOne(s))
    ensures HeadUnanswered(s) ==> HeadUnanswered(SendOne(s))
  {
    WhenCanSend(s);
    SendOneConserved(s);
    SendOneFirsts(s);
    SendOneLogged(s);
    SendOneRest(s);
    if HeadUnanswered(s) {
      SendOneHead(s);
    }
  }

  // ----- the sendnext loop -----

  function Min(a: int, b: int): int {
    if a <= b then a else b
  }

  /** How many packets the sendnext loop transmits. */
  function Sends<P, R>(s: State<P, R>): int {
    if s.handlinglost then 0 else Min(MAX_FLIGHT - s.inflight, |s.queuedids|)
  }

  /** The fields a transmission leaves alone. */
  ghost predicate SameRest<P, R>(s: State<P, R>, t: State<P, R>) {
    && t.delivered == s.delivered && t.replied == s.replied && t.accepted == s.accepted
    && t.start == s.start && t.nextID == s.nextID && t.resent == s.resent
    && t.handlinglost == s.handlinglost && t.handlers == s.handlers
  }

  lemma {:induction false} SendLoopCore<P, R>(s: State<P, R>)
    requires Core(s) && |s.flyingids| + Min(MAX_FLIGHT - s.inflight, |s.queuedids|) <= FLYING_CAP
    ensures SendLoop(s).Next? && Core(SendLoop(s).state)
    ensures SameRest(s, SendLoop(s).state)
    ensures HeadUnanswered(s) ==> HeadUnanswered(SendLoop(s).state)
    ensures SendLoop(s).state.queuedids != [] ==> SendLoop(s).state.inflight == MAX_FLIGHT
    decreases |s.queuedids|
  {
    if s.inflight < MAX_FLIGHT && s.queuedids != [] {
      SendOneCore(s);
      SendLoopCore(SendOne(s));
    }
  }

  lemma NoneToSend<P, R>(s: State<P, R>)
    requires Core(s)
    ensures s.tosend.Keys == {} <==> s.queuedids == []
  {
    if s.queuedids != [] {
      assert QueuedSlot(s, |s.delivered| + |s.flyingids|);
      assert s.accepted[|s.delivered| + |s.flyingids|].id in s.tosend.Keys;
    }
    if s.tosend.Keys != {} {
      var id :| id in s.tosend.Keys;
      assert id in s.queuedids;
    }
  }

  lemma SendNextCore<P, R>(s: State<P, R>)
    requires Core(s) && |s.flyingids| + Sends(s) <= FLYING_CAP
    ensures SendNext(s).Next? && Core(SendNext(s).state)
    ensures SameRest(s, SendNext(s).state)
    ensures HeadUnanswered(s) ==> HeadUnanswered(SendNext(s).state)
    ensures Busy(SendNext(s).state)
  {
    NoneToSend(s);
    if !s.handlinglost {
      SendLoopCore(s);
    }
  }

  /** The loop adds to the end of the flying log only, and never touches the replies. */
  lemma {:induction false} SendLoopReplied<P, R>(s: State<P, R>, r: map<Id, Answered<P, R>>)
    ensures SendLoop(s.(replied := r)) ==
            match SendLoop(s) case Panic => Panic case Next(t) => Next(t.(replied := r))
    decreases |s.queuedids|
  {
    if s.inflight < MAX_FLIGHT && s.queuedids != [] && s.queuedids[0] in s.tosend {
      SendLoopReplied(SendOne(s), r);
      assert SendOne(s.(replied := r)) == SendOne(s).(replied := r);
    }
  }

  // ----- the returnreply loop -----

  /** One round of the loop. */
  function ReturnOne<P, R>(s: State<P, R>): State<P, R>
    requires s.flyingids != [] && s.flyingids[0] in s.replied
  {
    var first := s.flyingids[0];
    s.(flyingids := s.flyingids[1..],
       replied := s.replied - {first},
       delivered := s.delivered + [s.replied[first]])
  }

  lemma ReturnOneSlot<P, R>(s: State<P, R>, k: nat)
    requires Conserved(s) && Logged(s) && s.flyingids != [] && s.flyingids[0] in s.replied
    requires |s.delivered| < k < |s.delivered| + |s.flyingids|
    requires s.flyingids[0] !in s.flyingids[1..]
    ensures FlyingSlot(ReturnOne(s), k)
  {
    var i := k - |s.delivered|;
    assert FlyingSlot(s, k);
    assert s.accepted[k].id == s.flyingids[i] == s.flyingids[1..][i - 1];
  }

  lemma ReturnOneLogged<P, R>(s: State<P, R>)
    requires Conserved(s) && Logged(s) && s.flyingids != [] && s.flyingids[0] in s.replied
    requires s.flyingids[0] !in s.flyingids[1..]
    ensures Logged(ReturnOne(s))
  {
    var t := ReturnOne(s);
    var d, f := |s.delivered|, |s.flyingids|;
    assert FlyingSlot(s, d);
    forall k | d + f <= k < |s.accepted|
      ensures QueuedSlot(t, k)
    {
      assert QueuedSlot(s, k);
    }
    forall k | d + 1 <= k < d + f
      ensures FlyingSlot(t, k)
    {
      ReturnOneSlot(s, k);
    }
  }

  lemma ReturnOneConserved<P, R>(s: State<P, R>)
    requires Conserved(s) && s.flyingids != [] && s.flyingids[0] in s.replied
    requires FlyingSlot(s, |s.delivered|)
    ensures Conserved(ReturnOne(s))
  {
  }

  lemma ReturnOneCore<P, R>(s: State<P, R>)
    requires Core(s) && s.flyingids != [] && s.flyingids[0] in s.replied
    ensures Core(ReturnOne(s))
  {
    HeadAlone(s);
    ReturnOneConserved(s);
    ReturnOneLogged(s);
    ReturnOneRest(s);
  }

  lemma HeadAlone<P, R>(s: State<P, R>)
    requires Core(s) && s.flyingids != []
    ensures s.flyingids[0] !in s.flyingids[1..] && FlyingSlot(s, |s.delivered|)
  {
    LiveDistinct(s);
  }

  lemma ReturnOneRest<P, R>(s: State<P, R>)
    requires Numbered(s) && Bounded(s) && s.flyingids != [] && s.flyingids[0] in s.replied
    ensures Numbered(ReturnOne(s)) && Bounded(ReturnOne(s))
  {
  }

  lemma {:induction false} ReturnLoopCore<P, R>(s: State<P, R>)
    requires Core(s)
    ensures Core(ReturnLoop(s)) && HeadUnanswered(ReturnLoop(s))
    ensures Busy(s) ==> Busy(ReturnLoop(s))
    decreases |s.flyingids|
  {
    if s.flyingids != [] && s.flyingids[0] in s.replied {
      ReturnOneCore(s);
      ReturnLoopCore(ReturnOne(s));
    }
  }

  // ----- the steps -----

  lemma EnqueueLogged<P, R>(s: State<P, R>, pack: P)
    requires Conserved(s) && Logged(s) && |s.queuedids| < QUEUE_CAP
    requires s.nextID != 0 && s.nextID !in s.queuedids
    ensures Conserved(Enqueue(s, pack)) && Logged(Enqueue(s, pack))
  {
    var t := Enqueue(s, pack);
    var d, f := |s.delivered|, |s.flyingids|;
    assert t.queuedids == s.queuedids + [s.nextID];
    forall k | d + f <= k < |t.accepted|
      ensures QueuedSlot(t, k)
    {
      if k < |s.accepted| {
        assert QueuedSlot(s, k);
        assert s.accepted[k].id == s.queuedids[k - d - f];
      }
    }
    forall k | d <= k < d + f
      ensures FlyingSlot(t, k)
    {
      assert FlyingSlot(s, k);
    }
  }

  lemma EnqueueCore<P, R>(s: State<P, R>, pack: P)
    requires Core(s) && |s.queuedids| < QUEUE_CAP
    ensures s.nextID != 0 && Core(Enqueue(s, pack))
  {
    NextFree(s);
    EnqueueLogged(s, pack);
    EnqueueRest(s, pack);
  }

  /** The next id is not 0 and not in the queue. */
  lemma NextFree<P, R>(s: State<P, R>)
    requires Core(s)
    ensures s.nextID != 0 && s.nextID !in s.queuedids
  {
    LiveDistinct(s);
    IdAtClosed(s.start, |s.accepted|);
  }

  lemma EnqueueRest<P, R>(s: State<P, R>, pack: P)
    requires Numbered(s) && Bounded(s) && |s.queuedids| < QUEUE_CAP
    requires |s.delivered| + |s.flyingids| <= |s.accepted|
    requires Firsts(s.wire) == s.accepted[..|s.delivered| + |s.flyingids|]
    ensures var t := Enqueue(s, pack);
            && Numbered(t) && Bounded(t)
            && Firsts(t.wire) == t.accepted[..|t.delivered| + |t.flyingids|]
  {
    var n := |s.delivered| + |s.flyingids|;
    assert Enqueue(s, pack).accepted[..n] == s.accepted[..n];
  }

  /** The state of a reply step with the answer already logged; the code logs it after sending. */
  function Answer<P, R>(s: State<P, R>, id: Id, reply: R): State<P, R>
    requires id in s.flying
  {
    Unflown(s, id).(replied := s.replied[id := Answered(id, s.flying[id], reply)])
  }

  lemma AnswerLogged<P, R>(s: State<P, R>, id: Id, reply: R)
    requires Conserved(s) && Logged(s) && id in s.flying
    ensures Conserved(Answer(s, id, reply)) && Logged(Answer(s, id, reply))
  {
    var t := Answer(s, id, reply);
    var d, f := |s.delivered|, |s.flyingids|;
    assert id in s.flyingids;
    forall k | d + f <= k < |t.accepted|
      ensures QueuedSlot(t, k)
    {
      assert QueuedSlot(s, k);
    }
    forall k | d <= k < d + f
      ensures FlyingSlot(t, k)
    {
      assert FlyingSlot(s, k);
    }
  }

  lemma AnswerRest<P, R>(s: State<P, R>, id: Id, reply: R)
    requires Numbered(s) && Bounded(s) && id in s.flying
    ensures Numbered(Answer(s, id, reply)) && Bounded(Answer(s, id, reply))
  {
  }

  lemma AnswerCore<P, R>(s: State<P, R>, id: Id, reply: R)
    requires Core(s) && id in s.flying
    ensures Core(Answer(s, id, reply))
  {
    AnswerRest(s, id, reply);
    AnswerLogged(s, id, reply);
  }

  lemma HandleReplyAnswer<P, R>(s: State<P, R>, id: Id, reply: R)
    requires id in s.flying
    ensures HandleReply(s, id, reply) ==
            match SendNext(Answer(s, id, reply)) case Panic => Panic case Next(t) => Next(ReturnLoop(t))
  {
    var u := Unflown(s, id);
    SendLoopReplied(u, u.replied);
    SendLoopReplied(u, s.replied[id := Answered(id, s.flying[id], reply)]);
    assert u.(replied := u.replied) == u;
  }

  /** Fields outside the window may change freely as long as no first transmission is added. */
  lemma CoreFrame<P, R>(s: State<P, R>, t: State<P, R>)
    requires Core(s)
    requires t == s.(timeoutid := t.timeoutid, resent := t.resent, wire := t.wire,
                     handlers := t.handlers, handlinglost := t.handlinglost)
    requires Firsts(t.wire) == Firsts(s.wire)
    ensures Core(t)
  {
    LoggedFrame(s, t);
  }

  lemma LoggedFrame<P, R>(s: State<P, R>, t: State<P, R>)
    requires Conserved(s) && Logged(s)
    requires t == s.(timeoutid := t.timeoutid, resent := t.resent, wire := t.wire,
                     handlers := t.handlers, handlinglost := t.handlinglost)
    ensures Conserved(t) && Logged(t)
  {
    var d, f := |s.delivered|, |s.flyingids|;
    forall k | d + f <= k < |t.accepted|
      ensures QueuedSlot(t, k)
    {
      assert QueuedSlot(s, k);
    }
    forall k | d <= k < d + f
      ensures FlyingSlot(t, k)
    {
      assert FlyingSlot(s, k);
    }
  }

  lemma {:induction false} FirstsAgain<P>(wire: seq<WireEvent<P>>, more: seq<WireEvent<P>>)
    requires forall i :: 0 <= i < |more| ==> !more[i].First?
    ensures Firsts(wire + more) == Firsts(wire)
  {
    if more == [] {
      assert wire + more == wire;
    } else {
      var n := |more| - 1;
      assert (wire + more)[..|wire| + n] == wire + more[..n];
      FirstsAgain(wire, more[..n]);
    }
  }

  lemma RepairFrame<P, R>(s: State<P, R>, received: seq<Id>, sent: seq<Id>)
    requires Repair(s, received, sent).Next?
    ensures var t := Repair(s, received, sent).state;
            t == s.(timeoutid := t.timeoutid, resent := t.resent, wire := t.wire)
  {
  }

  lemma RepairCore<P, R>(s: State<P, R>, received: seq<Id>, sent: seq<Id>)
    requires Core(s) && s.handlers > 0 && Repair(s, received, sent).Next?
    ensures var t := Repair(s, received, sent).state;
            && t == s.(timeoutid := t.timeoutid, resent := t.resent, wire := t.wire)
            && Core(Resume(t))
  {
    var t := Repair(s, received, sent).state;
    FirstsAgain(s.wire, [ResendQuery(s.timeoutid)]);
    FirstsAgain(s.wire, AgainEvents(Resends(s.flying, s.timeoutid)));
    CoreFrame(s, Resume(t));
  }

  // ----- the main theorem -----

  /** The step transmits into a flying log that has no room left. */
  ghost predicate Overflows<P, R>(s: State<P, R>, e: Event<P, R>) {
    match e
    case Accept(_) => !s.handlinglost && s.inflight < MAX_FLIGHT && |s.flyingids| == FLYING_CAP
    case Reply(id, _) => id in s.flying && !s.handlinglost && s.queuedids != [] && |s.flyingids| == FLYING_CAP
    case Timeout => false
    case StatusReply(_, _) =>
      s.handlers > 0 && |s.flyingids| + Min(MAX_FLIGHT - s.inflight, |s.queuedids|) > FLYING_CAP
  }

  /** The step ends the program: queue full, unknown reply, or a request executed but not answered. */
  ghost predicate Panics<P, R>(s: State<P, R>, e: Event<P, R>) {
    match e
    case Accept(_) => |s.queuedids| == QUEUE_CAP
    case Reply(id, _) => id !in s.flying && id != s.resent
    case Timeout => false
    case StatusReply(received, sent) => s.handlers > 0 && s.timeoutid !in sent && s.timeoutid in received
  }

  lemma AcceptInv<P, R>(s: State<P, R>, pack: P)
    requires Inv(s) && !Overflows(s, Accept(pack)) && |s.queuedids| < QUEUE_CAP
    ensures HandleAccept(s, pack).Next? && Inv(HandleAccept(s, pack).state)
  {
    EnqueueCore(s, pack);
    SendNextCore(Enqueue(s, pack));
  }

  lemma ReplyInv<P, R>(s: State<P, R>, id: Id, reply: R)
    requires Inv(s) && id in s.flying && !Overflows(s, Reply(id, reply))
    ensures HandleReply(s, id, reply).Next? && Inv(HandleReply(s, id, reply).state)
  {
    AnswerFits(s, id, reply);
    ReplyFrom(s, id, reply);
  }

  lemma AnswerFits<P, R>(s: State<P, R>, id: Id, reply: R)
    requires Core(s) && Busy(s) && id in s.flying && !Overflows(s, Reply(id, reply))
    ensures var a := Answer(s, id, reply); Core(a) && |a.flyingids| + Sends(a) <= FLYING_CAP
  {
    AnswerCore(s, id, reply);
    OneFree(s, id, reply);
  }

  /** One place in the window is free, unless the queue is empty or a loss is being handled. */
  lemma OneFree<P, R>(s: State<P, R>, id: Id, reply: R)
    requires Bounded(s) && Busy(s) && id in s.flying && !Overflows(s, Reply(id, reply))
    ensures var a := Answer(s, id, reply); |a.flyingids| + Sends(a) <= FLYING_CAP
  {
  }

  lemma ReplyFrom<P, R>(s: State<P, R>, id: Id, reply: R)
    requires id in s.flying
    requires var a := Answer(s, id, reply); Core(a) && |a.flyingids| + Sends(a) <= FLYING_CAP
    ensures HandleReply(s, id, reply).Next? && Inv(HandleReply(s, id, reply).state)
  {
    HandleReplyAnswer(s, id, reply);
    SendReturnInv(Answer(s, id, reply));
  }

  lemma SendReturnInv<P, R>(s: State<P, R>)
    requires Core(s) && |s.flyingids| + Sends(s) <= FLYING_CAP
    ensures SendNext(s).Next? && Inv(ReturnLoop(SendNext(s).state))
  {
    SendNextCore(s);
    ReturnLoopCore(SendNext(s).state);
  }

  lemma StatusInv<P, R>(s: State<P, R>, received: seq<Id>, sent: seq<Id>)
    requires Inv(s) && s.handlers > 0
    requires !Overflows(s, StatusReply(received, sent)) && !Panics(s, StatusReply(received, sent))
    ensures HandleStatus(s, received, sent).Next? && Inv(HandleStatus(s, received, sent).state)
  {
    RepairCore(s, received, sent);
    SendNextCore(Resume(Repair(s, received, sent).state));
  }

  lemma StepInv<P, R>(s: State<P, R>, e: Event<P, R>)
    requires Inv(s) && !Overflows(s, e) && !Panics(s, e)
    ensures Step(s, e).Next? && Inv(Step(s, e).state)
  {
    match e
    case Accept(pack) => AcceptInv(s, pack);
    case Reply(id, reply) =>
      if id in s.flying {
        ReplyInv(s, id, reply);
      }
    case Timeout =>
      FirstsAppend(s.wire, StatusQuery);
      CoreFrame(s, HandleTimeout(s));
    case StatusReply(received, sent) =>
      if s.handlers > 0 {
        StatusInv(s, received, sent);
      }
  }
}
