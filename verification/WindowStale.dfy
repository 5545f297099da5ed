/** An old answer can be handed back for a new packet: a run from the start that does it. */
module WindowStale {
  import opened Window
  import opened WindowInvariant
  import opened WindowRuns
  import opened WindowReplies
  import opened WindowOverflow
  import opened WindowLost

  // ----- pieces of runs -----

  ghost predicate Leads<P, R>(s: State<P, R>, es: seq<Event<P, R>>, t: State<P, R>) {
    Run(s, es) == Next(t)
  }

  lemma {:induction false} LeadsOn<P, R>(s: State<P, R>, xs: seq<Event<P, R>>, t: State<P, R>,
                                         ys: seq<Event<P, R>>, u: State<P, R>)
    requires Leads(s, xs, t) && Leads(t, ys, u)
    ensures Leads(s, xs + ys, u)
    decreases |xs|
  {
    if xs == [] {
      assert xs + ys == ys;
    } else {
      assert (xs + ys)[1..] == xs[1..] + ys && (xs + ys)[0] == xs[0];
      LeadsOn(Step(s, xs[0]).state, xs[1..], t, ys, u);
    }
  }

  lemma LeadsOne<P, R>(s: State<P, R>, e: Event<P, R>, t: State<P, R>)
    requires Step(s, e) == Next(t)
    ensures Leads(s, [e], t)
  {
    assert [e][1..] == [];
    assert Run(t, []) == Next(t);
  }

  // ----- replies with an empty queue -----

  /** A reply that is held back changes nothing else. */
  lemma HeldReply<P, R>(s: State<P, R>, id: Id, reply: R)
    requires s.queuedids == [] && id in s.flying
    requires s.flyingids != [] && s.flyingids[0] != id && s.flyingids[0] !in s.replied
    ensures Step(s, Reply(id, reply)) ==
              Next(s.(inflight := s.inflight - 1, flying := s.flying - {id},
                      replied := s.replied[id := Answered(id, s.flying[id], reply)]))
  {
    HandleReplyAnswer(s, id, reply);
    assert SendNext(Answer(s, id, reply)) == Next(Answer(s, id, reply));
  }

  lemma {:induction false} ReturnAll<P, R>(s: State<P, R>, x: Id)
    requires forall i, j :: 0 <= i < j < |s.flyingids| ==> s.flyingids[i] != s.flyingids[j]
    requires forall i :: 0 <= i < |s.flyingids| ==> s.flyingids[i] in s.replied
    requires x in s.replied && x !in s.flyingids
    ensures var t := ReturnLoop(s);
            && t == s.(flyingids := [], replied := t.replied, delivered := t.delivered)
            && x in t.replied && t.replied[x] == s.replied[x]
    decreases |s.flyingids|
  {
    if s.flyingids != [] {
      var u := ReturnOne(s);
      forall i | 0 <= i < |u.flyingids|
        ensures u.flyingids[i] in u.replied
      {
        assert u.flyingids[i] == s.flyingids[i + 1];
      }
      ReturnAll(u, x);
    }
  }

  /** Nothing is queued or in flight, but an answer is stored under `x`. */
  ghost predicate Calm<P, R>(s: State<P, R>, x: Id) {
    && s.queuedids == [] && s.flyingids == [] && s.flying == map[] && s.tosend == map[]
    && s.inflight == 0 && !s.handlinglost && x in s.replied
  }

  /** The reply to the only packet in flight, the oldest one, empties the flying log. */
  lemma LastReply<P, R>(s: State<P, R>, h: Id, reply: R, x: Id)
    requires s.queuedids == [] && s.tosend == map[] && s.inflight == 1 && !s.handlinglost
    requires s.flying.Keys == {h} && s.flyingids != [] && s.flyingids[0] == h
    requires forall i, j :: 0 <= i < j < |s.flyingids| ==> s.flyingids[i] != s.flyingids[j]
    requires forall i :: 1 <= i < |s.flyingids| ==> s.flyingids[i] in s.replied
    requires x in s.replied && x !in s.flyingids
    ensures var o := Step(s, Reply(h, reply));
            o.Next? && Calm(o.state, x) && o.state.replied[x] == s.replied[x] && o.state.nextID == s.nextID
  {
    HandleReplyAnswer(s, h, reply);
    var a := Answer(s, h, reply);
    assert SendNext(a) == Next(a);
    ReturnAll(a, x);
  }

  // ----- a packet and its reply, again and again -----

  /** A packet submitted in a calm state is sent at once. */
  lemma CalmAccept<P, R>(s: State<P, R>, x: Id, pack: P)
    requires Calm(s, x) && s.nextID != 0
    ensures Step(s, Accept(pack)) ==
              Next(s.(nextID := NextId(s.nextID), flying := map[s.nextID := pack], flyingids := [s.nextID],
                      inflight := 1, timeoutid := s.nextID, wire := s.wire + [First(Stamped(s.nextID, pack))],
                      accepted := s.accepted + [Stamped(s.nextID, pack)]))
  {
    var u := Enqueue(s, pack);
    assert u.queuedids == [s.nextID] && s.nextID in u.tosend;
    assert u.tosend - {s.nextID} == map[];
    assert u.queuedids[1..] == [];
    assert SendLoop(SendOne(u)) == Next(SendOne(u));
    assert [] + [s.nextID] == [s.nextID];
  }

  lemma Round<P, R>(s: State<P, R>, x: Id, pack: P, reply: R) returns (t: State<P, R>)
    requires Calm(s, x) && s.nextID != 0 && s.nextID != x
    ensures Leads(s, [Accept(pack)] + [Reply(s.nextID, reply)], t)
    ensures Calm(t, x) && t.replied[x] == s.replied[x] && t.nextID == NextId(s.nextID)
  {
    CalmAccept(s, x, pack);
    var u := Step(s, Accept(pack)).state;
    LastReply(u, s.nextID, reply, x);
    t := Step(u, Reply(s.nextID, reply)).state;
    LeadsOne(s, Accept(pack), u);
    LeadsOne(u, Reply(s.nextID, reply), t);
    LeadsOn(s, [Accept(pack)], u, [Reply(s.nextID, reply)], t);
  }

  lemma {:induction false} Rounds<P, R>(s: State<P, R>, x: Id, n: nat, pack: P, reply: R)
    returns (es: seq<Event<P, R>>, t: State<P, R>)
    requires Calm(s, x) && forall j :: 0 <= j < n ==> IdAt(s.nextID, j) != 0 && IdAt(s.nextID, j) != x
    ensures Leads(s, es, t) && Calm(t, x) && t.replied[x] == s.replied[x] && t.nextID == IdAt(s.nextID, n)
    decreases n
  {
    if n == 0 {
      es, t := [], s;
    } else {
      var xs, u := Rounds(s, x, n - 1, pack, reply);
      t := Round(u, x, pack, reply);
      es := xs + ([Accept(pack)] + [Reply(u.nextID, reply)]);
      LeadsOn(s, xs, u, [Accept(pack)] + [Reply(u.nextID, reply)], t);
    }
  }

  /** From one id to the one before it is a whole cycle but one. */
  lemma CycleIds(i: Id, x: Id, n: nat)
    requires i == 34 && x == 33 && n == 65534
    ensures forall j :: 0 <= j < n ==> IdAt(i, j) != 0 && IdAt(i, j) != x
    ensures IdAt(i, n) == x
  {
    forall j | 0 <= j <= n
      ensures IdAt(i, j) == 1 + (33 + j) % 65535
    {
      IdAtClosed(i, j);
    }
  }

  // ----- from the overflow to a calm state -----

  /** The flying log is full, its first `n` packets count 1, 2, ... */
  ghost predicate Counted(ids: seq<Id>) {
    |ids| == FLYING_CAP && forall k :: 0 <= k < FLYING_CAP ==> ids[k] == k + 1
  }

  /** The oldest 32 packets are in the flying log, all but four of them answered; the 33rd is queued. */
  ghost predicate Brimful<P, R>(s: State<P, R>) {
    && Counted(s.flyingids) && s.inflight == 4 && s.nextID == 34 && !s.handlinglost
    && s.queuedids == [33] && s.tosend.Keys == {33}
    && s.flying.Keys == {1, 30, 31, 32}
    && 1 !in s.replied && forall id :: 2 <= id < 30 ==> id in s.replied
  }

  lemma StuckIds<P, R>(s: State<P, R>, m: nat)
    requires Stuck(s, m) && m == 28
    ensures Counted(s.flyingids) && s.inflight == 4
  {
    StuckWindow(s, m);
    forall k | 0 <= k < FLYING_CAP
      ensures s.flyingids[k] == k + 1
    {
      FlyingIdAt(s, k);
    }
  }

  lemma FlyingSet(ids: seq<Id>, flying: set<Id>, held: set<Id>)
    requires Counted(ids) && Ids(ids) == flying + held && flying !! held
    requires forall id :: id in held <==> 2 <= id < 30
    ensures flying == {1, 30, 31, 32}
  {
    forall id | 1 <= id <= 32
      ensures id in Ids(ids)
    {
      assert ids[id - 1] == id;
    }
  }

  lemma StuckNext<P, R>(s: State<P, R>)
    requires Numbered(s) && s.start == 1 && |s.accepted| == 33
    ensures s.nextID == 34 && s.accepted[32].id == 33
  {
    IdAtClosed(s.start, 32);
    IdAtClosed(s.start, 33);
  }

  lemma StuckQueue<P, R>(s: State<P, R>)
    requires Conserved(s) && Logged(s) && s.delivered == [] && |s.accepted| == 33 && |s.flyingids| == 32
    requires s.accepted[32].id == 33
    ensures s.queuedids == [33] && s.tosend.Keys == {33} && s.tosend[33] == s.accepted[32].pack
  {
    assert s.queuedids[0] == 33;
    assert QueuedSlot(s, 32);
  }

  lemma StuckBrimful<P, R>(s: State<P, R>, m: nat)
    requires Stuck(s, m) && m == 28
    ensures Brimful(s) && s.tosend[33] == s.accepted[32].pack
  {
    StuckIds(s, m);
    FlyingPartition(s);
    FlyingSet(s.flyingids, s.flying.Keys, s.replied.Keys);
    StuckNext(s);
    StuckQueue(s);
  }

  /** `x` is in flight without an entry in the flying log. */
  ghost predicate Unlogged<P, R>(s: State<P, R>, x: Id) {
    && s.queuedids == [] && s.tosend == map[] && !s.handlinglost && s.nextID == 34
    && Counted(s.flyingids)
    && x == 33 && s.flying.Keys == {1, 31, 32, x} && s.inflight == 4
    && 1 !in s.replied && forall id :: 2 <= id <= 30 ==> id in s.replied
  }

  /** The overflowing step, exactly. */
  lemma LastFlood<P, R>(s: State<P, R>, reply: R, x: Id) returns (t: State<P, R>)
    requires Brimful(s) && x == 33
    ensures Step(s, Reply(30, reply)) == Next(t) && Unlogged(t, x)
    ensures t.accepted == s.accepted && t.flying[x] == s.tosend[33]
  {
    HandleReplyAnswer(s, 30, reply);
    var a := Answer(s, 30, reply);
    t := SendOne(a);
    assert a.queuedids == [33] && t.queuedids == [];
    assert SendLoop(a) == SendLoop(t) == Next(t);
    assert t.tosend.Keys == {};
    assert t.flying.Keys == {1, 31, 32, 33};
    assert t.flyingids[0] == 1 && 1 !in t.replied;
  }

  /** The answers to the other three packets in flight arrive, then the one to the oldest. */
  lemma Unlog<P, R>(s: State<P, R>, x: Id, reply: R, late: R) returns (t: State<P, R>)
    requires Unlogged(s, x)
    ensures Leads(s, [Reply(31, reply)] + ([Reply(32, reply)] + ([Reply(x, late)] + [Reply(1, reply)])), t)
    ensures Calm(t, x) && t.replied[x] == Answered(x, s.flying[x], late) && t.nextID == 34
  {
    HeldReply(s, 31, reply);
    var s1 := Step(s, Reply(31, reply)).state;
    HeldReply(s1, 32, reply);
    var s2 := Step(s1, Reply(32, reply)).state;
    HeldReply(s2, x, late);
    var s3 := Step(s2, Reply(x, late)).state;
    assert s3.flying.Keys == {1};
    assert x !in s3.flyingids;
    LastReply(s3, 1, reply, x);
    t := Step(s3, Reply(1, reply)).state;
    LeadsFour(s, Reply(31, reply), s1, Reply(32, reply), s2, Reply(x, late), s3, Reply(1, reply), t);
  }

  lemma LeadsFour<P, R>(s: State<P, R>, e: Event<P, R>, s1: State<P, R>, e1: Event<P, R>, s2: State<P, R>,
                        e2: Event<P, R>, s3: State<P, R>, e3: Event<P, R>, t: State<P, R>)
    requires Step(s, e) == Next(s1) && Step(s1, e1) == Next(s2) && Step(s2, e2) == Next(s3) && Step(s3, e3) == Next(t)
    ensures Leads(s, [e] + ([e1] + ([e2] + [e3])), t)
  {
    LeadsOne(s, e, s1);
    LeadsOne(s1, e1, s2);
    LeadsOne(s2, e2, s3);
    LeadsOne(s3, e3, t);
    LeadsOn(s2, [e2], s3, [e3], t);
    LeadsOn(s1, [e1], s2, [e2] + [e3], t);
    LeadsOn(s, [e], s1, [e1] + ([e2] + [e3]), t);
  }

  // ----- the old answer comes out -----

  /** Two packets in a calm state: both are in flight, and the old answer is still stored under the first. */
  lemma TwoMore<P, R>(s: State<P, R>, x: Id, young: P) returns (t: State<P, R>)
    requires Calm(s, x) && s.nextID == x && x == 33
    ensures Leads(s, [Accept(young)] + [Accept(young)], t)
    ensures Waiting(t, x, young) && t.replied[x] == s.replied[x]
  {
    CalmAccept(s, x, young);
    var u := Step(s, Accept(young)).state;
    t := Second(u, young);
    LeadsOne(s, Accept(young), u);
    LeadsOne(u, Accept(young), t);
    LeadsOn(s, [Accept(young)], u, [Accept(young)], t);
  }

  /** The new packet `young` is the oldest in flight, under an id with an old answer. */
  ghost predicate Waiting<P, R>(s: State<P, R>, x: Id, young: P) {
    && s.flyingids == [x] + [34] && x != 34 && s.queuedids == [] && s.tosend == map[]
    && x in s.flying && s.flying[x] == young && 34 in s.flying && x in s.replied
  }

  lemma Second<P, R>(s: State<P, R>, pack: P) returns (t: State<P, R>)
    requires s.queuedids == [] && s.tosend == map[] && s.inflight == 1 && !s.handlinglost
    requires |s.flyingids| == 1 && s.nextID == 34
    ensures Step(s, Accept(pack)) == Next(t)
    ensures t.flyingids == s.flyingids + [34] && t.flying == s.flying[34 := pack] && t.inflight == 2
    ensures t.queuedids == [] && t.tosend == map[] && !t.handlinglost
    ensures t.replied == s.replied && t.delivered == s.delivered
  {
    var u := Enqueue(s, pack);
    t := SendOne(u);
    assert u.queuedids == [34] && 34 in u.tosend;
    assert u.tosend - {34} == map[];
    assert SendLoop(u) == SendLoop(t) == Next(t);
  }

  lemma Stale<P, R>(s: State<P, R>, x: Id, id: Id, reply: R) returns (t: State<P, R>)
    requires s.flyingids == [x] + [id] && x != id && x in s.flying && id in s.flying && x in s.replied
    requires s.queuedids == [] && s.tosend == map[]
    ensures Step(s, Reply(id, reply)) == Next(t)
    ensures x in t.flying && t.flying[x] == s.flying[x]
    ensures |s.delivered| < |t.delivered| && t.delivered[|s.delivered|] == s.replied[x]
  {
    HandleReplyAnswer(s, id, reply);
    var a := Answer(s, id, reply);
    assert SendNext(a) == Next(a);
    t := ReturnLoop(a);
    StaleAnswer(s, id, reply);
    ReturnLoopHeld(a);
  }

  /** From the dropped packet to the new one under its id. */
  lemma StaleTail<P, R>(t: State<P, R>, x: Id, young: P, reply: R, late: R)
    returns (es: seq<Event<P, R>>, s: State<P, R>)
    requires Unlogged(t, x) && |t.accepted| > 32 && t.flying[x] == t.accepted[32].pack
    ensures Leads(t, es, s) && Waiting(s, x, young)
    ensures |s.accepted| > 32 && s.replied[x] == Answered(x, s.accepted[32].pack, late)
  {
    var first := [Reply(31, reply)] + ([Reply(32, reply)] + ([Reply(x, late)] + [Reply(1, reply)]));
    var u := Unlog(t, x, reply, late);
    CycleIds(u.nextID, x, 65534);
    var rounds, v := Rounds(u, x, 65534, young, reply);
    s := TwoMore(v, x, young);
    LeadsOn(t, first, u, rounds, v);
    LeadsOn(t, first + rounds, v, [Accept(young)] + [Accept(young)], s);
    es := first + rounds + ([Accept(young)] + [Accept(young)]);
    RunGrows(t, es);
  }

  /** The run up to the overflow. */
  lemma StaleHead<P(!new), R(!new)>(pack: P, reply: R, x: Id) returns (t: State<P, R>)
    requires x == 33
    ensures Run(Init<P, R>(1), Flood(29, pack, reply)) == Next(t)
    ensures Unlogged(t, x) && |t.accepted| > 32 && t.flying[x] == t.accepted[32].pack
  {
    var s := FloodState(pack, reply);
    StuckBrimful(s, 28);
    t := LastFlood(s, reply, x);
    FloodLast(Init(1), s, 28, pack, reply, t);
  }

  /** A run from the start that begins with the overflow of the flying log. In the state `s` it leads to,
      the new packet `young` is the oldest in flight under the id of the lost 33rd packet, and the answer
      that came for the lost one is still stored under that id. The next reply, to the packet behind it,
      hands that old answer back while the new packet stays in flight. */
  lemma StaleReachable<P(!new), R(!new)>(pack: P, young: P, reply: R, late: R)
    returns (es: seq<Event<P, R>>, s: State<P, R>)
    ensures Flood(29, pack, reply) <= es
    ensures Run(Init<P, R>(1), es) == Next(s)
    ensures s.flyingids == [33] + [34] && 33 in s.flying && s.flying[33] == young && 34 in s.flying
    ensures |s.accepted| > 32 && 33 in s.replied && s.replied[33] == Answered(33, s.accepted[32].pack, late)
    ensures var o := Step(s, Reply(34, reply));
            && o.Next? && 33 in o.state.flying && o.state.flying[33] == young
            && |s.delivered| < |o.state.delivered| && o.state.delivered[|s.delivered|] == s.replied[33]
  {
    var x: Id := 33;
    var t := StaleHead(pack, reply, x);
    var more;
    more, s := StaleTail(t, x, young, reply, late);
    es := Flood(29, pack, reply) + more;
    LeadsOn(Init(1), Flood(29, pack, reply), t, more, s);
    var after := Stale(s, x, 34, reply);
  }
}
