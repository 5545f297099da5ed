/** What handlelost writes again when the device never saw the packet that timed out. */
module WindowRecovery {
  import opened Window
  import opened WindowInvariant
  import opened WindowRuns
  import opened WindowTimer

  /** A log of fewer than 65535 packets cannot hold a run of consecutive ids longer than itself. */
  lemma RunFits<P>(flying: map<Id, P>, id: Id, n: nat)
    requires id != 0 && n <= 65535
    requires forall i :: 0 <= i < n ==> IdAt(id, i) in flying
    ensures n <= |flying|
  {
    var ids := seq(n, i requires 0 <= i < n => IdAt(id, i));
    forall i, j | 0 <= i < j < n
      ensures ids[i] != ids[j]
    {
      IdAtDistinct(id, i, j);
    }
    DistinctCard(ids);
    SubsetCard(Ids(ids), flying.Keys);
  }

  ghost predicate Rewrites<P>(flying: map<Id, P>, run: seq<Stamped<P>>) {
    forall i :: 0 <= i < |run| ==> run[i].id in flying && run[i].pack == flying[run[i].id]
  }

  lemma {:induction false} ResendFrom<P>(flying: map<Id, P>, base: Id, k: nat, limit: nat)
    ensures var run := ResendRun(flying, IdAt(base, k), limit);
            && Rewrites(flying, run)
            && (forall i :: 0 <= i < |run| ==> run[i].id == IdAt(base, k + i))
            && (|run| < limit ==> IdAt(base, k + |run|) !in flying)
    decreases limit
  {
    var id := IdAt(base, k);
    if limit != 0 && id in flying {
      ResendFrom(flying, base, k + 1, limit - 1);
      var rest := ResendRun(flying, IdAt(base, k + 1), limit - 1);
      var run := ResendRun(flying, id, limit);
      assert run == [Stamped(id, flying[id])] + rest;
      forall i | 0 <= i < |run|
        ensures run[i].id == IdAt(base, k + i)
      {
        if i != 0 {
          assert run[i] == rest[i - 1];
          assert IdAt(base, k + i) == IdAt(base, k + 1 + (i - 1));
        }
      }
    }
  }

  /** The resend loop stops, and rewrites exactly the longest run of consecutive ids in flight
      that begins at the timed-out one. */
  lemma ResendExact<P>(flying: map<Id, P>, id: Id)
    requires id != 0 && |flying| + FLYING_CAP <= 65535
    ensures var run := Resends(flying, id);
            && |run| <= |flying|
            && Rewrites(flying, run)
            && (forall i :: 0 <= i < |run| ==> run[i].id == IdAt(id, i))
            && IdAt(id, |run|) !in flying
  {
    ResendFrom(flying, id, 0, |flying| + FLYING_CAP);
    var run := Resends(flying, id);
    forall i | 0 <= i < |run|
      ensures IdAt(id, i) in flying
    {
      assert run[i].id == IdAt(id, i);
    }
    RunFits(flying, id, |run|);
  }

  /** Each id is the successor of the one before, and `end` that of the last. */
  ghost predicate Stretch(ids: seq<Id>, end: Id) {
    && (forall i :: 0 < i < |ids| ==> ids[i] == NextId(ids[i - 1]))
    && (ids != [] ==> end == NextId(ids[|ids| - 1]))
  }

  /** The same, for a log whose ids are a stretch of the id cycle. */
  lemma {:induction false} ResendInLog<P>(flying: map<Id, P>, ids: seq<Id>, end: Id, limit: nat)
    requires Stretch(ids, end) && end !in flying && ids != [] && |ids| <= limit
    ensures var run := ResendRun(flying, ids[0], limit);
            && |run| <= |ids|
            && Rewrites(flying, run)
            && (forall i :: 0 <= i < |run| ==> run[i].id == ids[i])
            && (|run| < |ids| ==> ids[|run|] !in flying)
    decreases |ids|
  {
    if |ids| > 1 && ids[0] in flying {
      ResendInLog(flying, ids[1..], end, limit - 1);
    }
  }

  lemma LogStretch<P, R>(s: State<P, R>, k: nat)
    requires Numbered(s) && Conserved(s) && k < |s.flyingids|
    ensures Stretch(s.flyingids[k..], IdAt(s.start, |s.delivered| + |s.flyingids|))
  {
    var ids, d := s.flyingids[k..], |s.delivered|;
    forall i | 0 < i < |ids|
      ensures ids[i] == NextId(ids[i - 1])
    {
      assert s.flyingids[k + i] == s.accepted[d + (k + i)].id == IdAt(s.start, d + k + i);
      assert s.flyingids[k + i - 1] == s.accepted[d + (k + i - 1)].id == IdAt(s.start, d + k + i - 1);
    }
  }

  lemma RunPacket<P, R>(s: State<P, R>, j: nat)
    requires Conserved(s) && Logged(s) && j < |s.flyingids|
    ensures s.flyingids[j] in s.flying ==>
              Stamped(s.flyingids[j], s.flying[s.flyingids[j]]) == s.accepted[|s.delivered| + j]
    ensures s.flyingids[j] !in s.flying ==> s.flyingids[j] in s.replied
  {
    assert FlyingSlot(s, |s.delivered| + j);
  }

  ghost predicate RunFrom<P, R>(s: State<P, R>, k: nat, run: seq<Stamped<P>>) {
    && k + |run| <= |s.flyingids|
    && Rewrites(s.flying, run)
    && (forall i :: 0 <= i < |run| ==> run[i].id == s.flyingids[k + i])
    && (k + |run| < |s.flyingids| ==> s.flyingids[k + |run|] !in s.flying)
  }

  lemma LogRun<P, R>(s: State<P, R>, k: nat)
    requires Core(s) && k < |s.flyingids|
    ensures RunFrom(s, k, Resends(s.flying, s.flyingids[k]))
  {
    LogStretch(s, k);
    EndNotFlying(s);
    ResendInLog(s.flying, s.flyingids[k..], IdAt(s.start, |s.delivered| + |s.flyingids|), |s.flying| + FLYING_CAP);
  }

  lemma RunAccepted<P, R>(s: State<P, R>, k: nat, run: seq<Stamped<P>>)
    requires Conserved(s) && Logged(s) && RunFrom(s, k, run)
    ensures var d := |s.delivered|;
            && run == s.accepted[d + k..d + k + |run|]
            && (k + |run| < |s.flyingids| ==> s.flyingids[k + |run|] in s.replied)
  {
    forall i | 0 <= i < |run|
      ensures run[i] == s.accepted[|s.delivered| + k + i]
    {
      RunPacket(s, k + i);
    }
    if k + |run| < |s.flyingids| {
      RunPacket(s, k + |run|);
    }
  }

  /** In a good state, a recovery that starts at the k-th entry of the flying log rewrites the
      packets originally sent from there on, up to the first answer held back. */
  lemma ResendIsRun<P, R>(s: State<P, R>, k: nat)
    requires Core(s) && k < |s.flyingids|
    ensures var d, run := |s.delivered|, Resends(s.flying, s.flyingids[k]);
            && k + |run| <= |s.flyingids|
            && run == s.accepted[d + k..d + k + |run|]
            && (k + |run| < |s.flyingids| ==> s.flyingids[k + |run|] in s.replied)
  {
    LogRun(s, k);
    RunAccepted(s, k, Resends(s.flying, s.flyingids[k]));
  }

  /** The id after the newest flying one is queued or still to be given out. */
  lemma EndNotFlying<P, R>(s: State<P, R>)
    requires Core(s)
    ensures IdAt(s.start, |s.delivered| + |s.flyingids|) !in s.flying
  {
    LiveDistinct(s);
    var id := IdAt(s.start, |s.delivered| + |s.flyingids|);
    if s.queuedids != [] {
      assert s.queuedids[0] == id;
      assert s.queuedids[0] in s.queuedids;
    }
  }

  /** With the timer on the oldest packet and nothing held back, a loss the device never saw
      rewrites everything in flight, in the original order, and leaves the window as it was. */
  lemma RecoversAll<P, R>(s: State<P, R>, received: seq<Id>, sent: seq<Id>)
    requires Inv(s) && TimerOnOldest(s) && s.replied == map[] && s.inflight > 0
    requires s.timeoutid !in sent && s.timeoutid !in received
    ensures Repair(s, received, sent).Next?
    ensures var d, t := |s.delivered|, Repair(s, received, sent).state;
            && t.wire == s.wire + AgainEvents(s.accepted[d..d + |s.flyingids|])
            && t == s.(wire := t.wire, timeoutid := t.timeoutid)
  {
    ResendIsRun(s, 0);
  }

  lemma RunSkips<P, R>(s: State<P, R>)
    requires Core(s) && |s.flyingids| >= 2
    ensures var run := Resends(s.flying, s.flyingids[1]);
            forall i :: 0 <= i < |run| ==> run[i].id != s.flyingids[0]
  {
    LogRun(s, 1);
    LiveDistinct(s);
  }

  lemma StatusTimer<P, R>(s: State<P, R>, received: seq<Id>, sent: seq<Id>)
    requires Inv(s) && TimerOnOldest(s) && s.handlers > 0 && |s.flyingids| >= 2
    requires s.timeoutid !in sent && s.timeoutid !in received
    requires !Overflows(s, StatusReply(received, sent))
    ensures HandleStatus(s, received, sent).Next?
    ensures var u := HandleStatus(s, received, sent).state;
            s.flyingids <= u.flyingids && u.timeoutid == s.flyingids[1]
  {
    StatusSends(s, received, sent);
    InvView(s);
    FlyingSlotAt(s, s.flyingids[0]);
  }

  lemma StatusCore<P, R>(s: State<P, R>, received: seq<Id>, sent: seq<Id>)
    requires Inv(s) && s.handlers > 0
    requires !Overflows(s, StatusReply(received, sent)) && !Panics(s, StatusReply(received, sent))
    ensures HandleStatus(s, received, sent).Next? && Core(HandleTimeout(HandleStatus(s, received, sent).state))
  {
    StatusInv(s, received, sent);
    StepInv(HandleStatus(s, received, sent).state, Timeout);
  }

  /** Loss handling leaves the timer on the second oldest packet. If the oldest is lost again,
      the next recovery starts behind it and never rewrites it. */
  lemma SecondLossSkipsOldest<P, R>(s: State<P, R>, received: seq<Id>, sent: seq<Id>,
                                    received': seq<Id>, sent': seq<Id>)
    requires Inv(s) && TimerOnOldest(s) && s.handlers > 0 && |s.flyingids| >= 2
    requires s.timeoutid !in sent && s.timeoutid !in received
    requires !Overflows(s, StatusReply(received, sent))
    ensures HandleStatus(s, received, sent).Next?
    ensures var t := HandleTimeout(HandleStatus(s, received, sent).state);
            && t.timeoutid == s.flyingids[1]
            && (s.flyingids[1] !in sent' && s.flyingids[1] !in received' ==>
                  var run := Resends(t.flying, t.timeoutid);
                  && Repair(t, received', sent').Next?
                  && Repair(t, received', sent').state.wire == t.wire + AgainEvents(run)
                  && forall i :: 0 <= i < |run| ==> run[i].id != s.flyingids[0])
  {
    StatusTimer(s, received, sent);
    StatusCore(s, received, sent);
    RunSkips(HandleTimeout(HandleStatus(s, received, sent).state));
  }
}
