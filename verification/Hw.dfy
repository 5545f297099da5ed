/** The hw structure of hw.go: its methods update the window in place, each refining the step
  * of the same name in module Window. Histories are ghost. */
module Hardware {
  import W = Window
  import opened IdLogs
  import opened WindowInvariant
  import opened WindowRecovery
  import Runs = WindowRuns

  type Id = W.Id

  class Hw<P, R> {
    var nextID: Id
    var timeoutid: Id
    var resent: Id
    var inflight: int
    var tosend: map<Id, P>
    var flying: map<Id, P>
    var replied: map<Id, W.Answered<P, R>>
    const queuedids: IdLog
    const flyingids: IdLog
    var handlinglost: bool

    /** How many calls of handlelost wait for a status. */
    var handlers: nat

    ghost const start: Id
    ghost var accepted: seq<W.Stamped<P>>
    ghost var wire: seq<W.WireEvent<P>>
    ghost var delivered: seq<W.Answered<P, R>>

    ghost predicate Valid()
      reads this, queuedids, queuedids.ids, flyingids, flyingids.ids
    {
      && queuedids.Valid() && queuedids.ids.Length == W.QUEUE_CAP
      && flyingids.Valid() && flyingids.ids.Length == W.FLYING_CAP
      && queuedids != flyingids && queuedids.ids != flyingids.ids
    }

    ghost function Model(): W.State<P, R>
      reads this, queuedids, flyingids
    {
      W.State(start, nextID, timeoutid, resent, inflight, tosend, flying, replied,
              queuedids.contents, flyingids.contents, handlinglost, handlers, accepted, wire, delivered)
    }

    constructor (start: Id)
      ensures Valid() && Model() == W.Init(start)
      ensures fresh(queuedids) && fresh(queuedids.ids) && fresh(flyingids) && fresh(flyingids.ids)
    {
      this.start, nextID, timeoutid, resent, inflight := start, start, 0, 0, 0;
      tosend, flying, replied := map[], map[], map[];
      queuedids := new IdLog(W.QUEUE_CAP);
      flyingids := new IdLog(W.FLYING_CAP);
      handlinglost, handlers := false, 0;
      accepted, wire, delivered := [], [], [];
    }

    method GiveId() returns (id: Id)
      requires Valid()
      modifies this`nextID
      ensures id == old(nextID) && Model() == old(Model()).(nextID := W.NextId(id))
    {
      id := nextID;
      if nextID == 65535 {
        nextID := 1;
      } else {
        nextID := nextID + 1;
      }
    }

    method UpdateTimeout()
      requires Valid()
      modifies this`timeoutid
      ensures Model() == W.UpdateTimeout(old(Model()))
    {
      if inflight > 0 {
        var first, ok := flyingids.SecondOldest();
        if ok {
          timeoutid := first;
        }
      }
    }

    /** The first half of a round of the sendnext loop: the oldest queued packet is transmitted. */
    method Transmit(first: Id) returns (pack: P)
      requires Valid()
      requires queuedids.contents != [] && first == queuedids.contents[0] && first in tosend
      modifies this`tosend, this`wire, queuedids`first, queuedids`n, queuedids`contents
      ensures Valid() && pack == old(tosend)[first]
      ensures Model() == old(Model()).(queuedids := old(queuedids.contents)[1..], tosend := old(tosend) - {first},
                                       wire := old(wire) + [W.First(W.Stamped(first, pack))])
    {
      var removed := queuedids.Remove();
      pack := tosend[first];
      tosend := tosend - {first};
      wire := wire + [W.First(W.Stamped(first, pack))];
    }

    /** One round of the sendnext loop, with `first` the oldest queued id. */
    method SendFirst(first: Id)
      requires Valid()
      requires queuedids.contents != [] && first == queuedids.contents[0] && first in tosend
      modifies this`tosend, this`flying, this`inflight, this`timeoutid, this`wire
      modifies queuedids`first, queuedids`n, queuedids`contents, flyingids`n, flyingids`contents, flyingids.ids
      ensures Valid() && Model() == W.SendOne(old(Model()))
    {
      var pack := Transmit(first);
      Launch(first, pack);
    }

    /** The second half: the packet enters the flying log. */
    method Launch(first: Id, pack: P)
      requires Valid()
      modifies this`flying, this`inflight, this`timeoutid, flyingids`n, flyingids`contents, flyingids.ids
      ensures Valid()
      ensures Model() == old(Model()).(flying := old(flying)[first := pack], inflight := old(inflight) + 1,
                                       flyingids := W.LogAdd(old(flyingids.contents), W.FLYING_CAP, first),
                                       timeoutid := if old(inflight) == 0 then first else old(timeoutid))
    {
      flying := flying[first := pack];
      var logged := flyingids.Add(first);
      inflight := inflight + 1;
      if inflight == 1 {
        timeoutid := first;
      }
    }

    method SendNext() returns (ok: bool)
      requires Valid() && W.SendNext(Model()).Next?
      modifies this, queuedids, queuedids.ids, flyingids, flyingids.ids
      ensures Valid() && W.Next(Model()) == W.SendNext(old(Model()))
    {
      if handlinglost {
        return true;
      }
      var waiting := tosend;
      ghost var goal := W.SendNext(Model());
      assert |waiting| > 0 <==> Model().tosend.Keys != {};
      while inflight < W.MAX_FLIGHT && |waiting| > 0
        invariant Valid()
        invariant goal == if |waiting| > 0 then W.SendLoop(Model()) else W.Next(Model())
        decreases |queuedids.contents|
      {
        var first, some := queuedids.Oldest();
        if !some {
          return false;
        }
        SendFirst(first);
      }
      ok := true;
    }

    /** One round of the returnreply loop. */
    method ReturnFirst(first: Id)
      requires Valid()
      requires flyingids.contents != [] && first == flyingids.contents[0] && first in replied
      modifies this`replied, this`delivered, flyingids`first, flyingids`n, flyingids`contents
      ensures Valid() && Model() == ReturnOne(old(Model()))
    {
      var p := replied[first];
      var removed := flyingids.Remove();
      replied := replied - {first};
      delivered := delivered + [p];
    }

    method ReturnReply()
      requires Valid()
      modifies this`replied, this`delivered, flyingids`first, flyingids`n, flyingids`contents
      ensures Valid() && Model() == W.ReturnLoop(old(Model()))
    {
      var sentrep := true;
      ghost var goal := W.ReturnLoop(Model());
      while sentrep
        invariant Valid()
        invariant goal == if sentrep then W.ReturnLoop(Model()) else Model()
        decreases |flyingids.contents|, sentrep
      {
        sentrep := false;
        var first, ok := flyingids.Oldest();
        if !ok {
          break;
        }
        if first in replied {
          ReturnFirst(first);
          sentrep := true;
        }
      }
    }

    /** The incoming branch of Run; false stands for the panic on a full queue. */
    method Accept(pack: P) returns (ok: bool)
      requires Valid()
      requires |queuedids.contents| < W.QUEUE_CAP && nextID != 0 ==> W.HandleAccept(Model(), pack).Next?
      modifies this, queuedids, queuedids.ids, flyingids, flyingids.ids
      ensures Valid()
      ensures ok ==> W.HandleAccept(old(Model()), pack) == W.Next(Model())
      ensures !ok ==> W.HandleAccept(old(Model()), pack).Panic?
    {
      ghost var s := Model();
      var id := GiveId();
      accepted := accepted + [W.Stamped(id, pack)];
      tosend := tosend[id := pack];
      ok := queuedids.Add(id);
      if !ok {
        return;
      }
      assert Model() == W.Enqueue(s, pack);
      var sent := SendNext();
    }

    /** The start of a reply step: the packet leaves the flying log and the timer moves on. */
    method TakeDown(id: Id)
      requires Valid()
      modifies this`inflight, this`timeoutid, this`flying
      ensures Valid() && Model() == W.Unflown(old(Model()), id)
    {
      inflight := inflight - 1;
      var oldest, _ := flyingids.Oldest();
      if id == oldest {
        UpdateTimeout();
      }
      flying := flying - {id};
    }

    /** The reply branch of Run; false stands for the panic on a reply nobody waits for. */
    method HandleReply(id: Id, reply: R) returns (ok: bool)
      requires Valid()
      requires id in flying ==> W.HandleReply(Model(), id, reply).Next?
      modifies this, queuedids, queuedids.ids, flyingids, flyingids.ids
      ensures Valid()
      ensures ok ==> W.HandleReply(old(Model()), id, reply) == W.Next(Model())
      ensures !ok ==> W.HandleReply(old(Model()), id, reply).Panic?
    {
      if id in flying {
        var req := flying[id];
        TakeDown(id);
        SameReplied(Model());
        var sent := SendNext();
        replied := replied[id := W.Answered(id, req, reply)];
        ReturnReply();
        ok := true;
      } else {
        ok := id == resent;
      }
    }

    /** handlelost up to the wait for the device's status. */
    method HandleTimeout()
      requires Valid()
      modifies this`handlinglost, this`handlers, this`wire
      ensures Valid() && Model() == W.HandleTimeout(old(Model()))
      ensures handlinglost && handlers == old(handlers) + 1 && wire == old(wire) + [W.StatusQuery]
    {
      handlinglost := true;
      handlers := handlers + 1;
      wire := wire + [W.StatusQuery];
    }

    /** The resend loop of handlelost. */
    method Resend() returns (resentpack: bool)
      requires Valid() && 0 !in flying && |flying| + W.FLYING_CAP <= 65535
      modifies this`wire, this`flying
      ensures Valid()
      ensures var run := W.Resends(old(flying), timeoutid);
              && resentpack == (run != [])
              && Model() == old(Model()).(wire := old(wire) + W.AgainEvents(run))
    {
      var resendid, flies := timeoutid, true;
      resentpack := false;
      ghost var run := [];
      while flies
        invariant Valid() && flying == old(flying)
        invariant Resent(flying, timeoutid, run, resendid)
        invariant !flies ==> resendid !in flying
        invariant resentpack == (run != [])
        invariant wire == old(wire) + W.AgainEvents(run)
        decreases |flying| - |run|, flies
      {
        flies := resendid in flying;
        if flies {
          var pack := flying[resendid];
          ResentMore(flying, timeoutid, run, resendid);
          wire := wire + [W.Again(W.Stamped(resendid, pack))];
          run := run + [W.Stamped(resendid, pack)];
          flying := flying[resendid := pack];
          resendid := if resendid == 65535 then 0 else resendid + 1;
          if resendid == 0 {
            resendid := 1;
          }
          resentpack := true;
        }
      }
    }

    /** The loops over the headers of the status reply. */
    method Listed(headers: seq<Id>) returns (found: bool)
      ensures found <==> timeoutid in headers
    {
      found := false;
      for i := 0 to |headers|
        invariant found <==> timeoutid in headers[..i]
      {
        if headers[i] == timeoutid {
          found := true;
        }
      }
    }

    /** What handlelost does about the lost packet; false stands for the panic on a request that
        was received but never answered. */
    method Repair(received: seq<Id>, sent: seq<Id>) returns (ok: bool)
      requires Valid() && 0 !in flying && |flying| + W.FLYING_CAP <= 65535
      modifies this`wire, this`flying, this`resent, this`timeoutid
      ensures Valid()
      ensures ok ==> W.Repair(old(Model()), received, sent) == W.Next(Model())
      ensures !ok ==> W.Repair(old(Model()), received, sent).Panic?
      ensures ok <==> old(timeoutid) in sent || old(timeoutid) !in received
      ensures old(timeoutid) in sent ==> wire == old(wire) + [W.ResendQuery(old(timeoutid))] && resent == old(timeoutid)
    {
      var packetreceived := Listed(received);
      var packetsent := Listed(sent);
      if packetsent {
        wire := wire + [W.ResendQuery(timeoutid)];
        resent := timeoutid;
        UpdateTimeout();
      } else if !packetreceived {
        var resentpack := Resend();
        if resentpack {
          UpdateTimeout();
        }
      } else {
        return false;
      }
      ok := true;
    }

    /** The handler is done, and packets may leave again. */
    method Release()
      requires Valid() && handlers > 0
      modifies this`handlinglost, this`handlers
      ensures Valid() && Model() == W.Resume(old(Model()))
      ensures !handlinglost && handlers == old(handlers) - 1
    {
      handlinglost := false;
      handlers := handlers - 1;
    }

    /** The rest of handlelost, once the device's status is there. */
    method HandleStatus(received: seq<Id>, sent: seq<Id>) returns (ok: bool)
      requires Valid() && handlers > 0
      requires 0 !in flying && |flying| + W.FLYING_CAP <= 65535
      requires W.Repair(Model(), received, sent).Next? ==> W.HandleStatus(Model(), received, sent).Next?
      modifies this, queuedids, queuedids.ids, flyingids, flyingids.ids
      ensures Valid()
      ensures ok ==> W.HandleStatus(old(Model()), received, sent) == W.Next(Model())
      ensures !ok ==> W.HandleStatus(old(Model()), received, sent).Panic?
    {
      RepairHandlers(Model(), received, sent);
      ok := Repair(received, sent);
      if !ok {
        return;
      }
      Release();
      var flushed := SendNext();
    }

    /** One event in any good state: the step of the model, false for its panic. What the other
        methods ask for holds in every good state, and the state stays good unless the log overflows. */
    method Handle(e: W.Event<P, R>) returns (ok: bool)
      requires Valid() && Inv(Model())
      modifies this, queuedids, queuedids.ids, flyingids, flyingids.ids
      ensures Valid()
      ensures ok ==> W.Step(old(Model()), e) == W.Next(Model())
      ensures !ok ==> W.Step(old(Model()), e).Panic?
      ensures ok && !Overflows(old(Model()), e) ==> Inv(Model())
    {
      Runs.StepExact(Model(), e);
      match e
      case Accept(pack) => ok := Accept(pack);
      case Reply(id, reply) => ok := HandleReply(id, reply);
      case Timeout =>
        HandleTimeout();
        ok := true;
      case StatusReply(received, sent) =>
        FlyingFits(Model());
        ok := true;
        if handlers > 0 {
          ok := HandleStatus(received, sent);
        }
    }
  }

  /** What the resend loop relies on holds in every good state. */
  lemma FlyingFits<P, R>(s: W.State<P, R>)
    requires Inv(s)
    ensures 0 !in s.flying && |s.flying| + W.FLYING_CAP <= 65535
  {
    forall i | 0 <= i < |s.flyingids|
      ensures s.flyingids[i] != 0
    {
      IdAtClosed(s.start, |s.delivered| + i);
    }
    assert 0 !in s.flyingids;
  }

  lemma RepairHandlers<P, R>(s: W.State<P, R>, received: seq<Id>, sent: seq<Id>)
    ensures W.Repair(s, received, sent).Next? ==> W.Repair(s, received, sent).state.handlers == s.handlers
  {
  }

  /** Sending leaves the held replies alone. */
  lemma SameReplied<P, R>(s: W.State<P, R>)
    ensures W.SendNext(s).Next? ==> W.SendNext(s).state.replied == s.replied
  {
    SendLoopReplied(s, s.replied);
  }

  /** `run` is what the resend loop has rewritten when it comes to `resendid`. */
  ghost predicate Resent<P>(flying: map<Id, P>, id: Id, run: seq<W.Stamped<P>>, resendid: Id) {
    && |run| <= |flying| && resendid == IdAt(id, |run|)
    && (forall i :: 0 <= i < |run| ==> IdAt(id, i) in flying)
    && run + W.ResendRun(flying, resendid, |flying| + W.FLYING_CAP - |run|) == W.Resends(flying, id)
  }

  lemma ResentMore<P>(flying: map<Id, P>, id: Id, run: seq<W.Stamped<P>>, resendid: Id)
    requires Resent(flying, id, run, resendid) && resendid in flying
    requires 0 !in flying && |flying| + W.FLYING_CAP <= 65535
    ensures var p := W.Stamped(resendid, flying[resendid]);
            && Resent(flying, id, run + [p], W.NextId(resendid))
            && W.AgainEvents(run + [p]) == W.AgainEvents(run) + [W.Again(p)]
  {
    var n := |run|;
    assert IdAt(id, 0) in flying;
    forall i | 0 <= i < n + 1
      ensures IdAt(id, i) in flying
    {
    }
    RunFits(flying, id, n + 1);
    ResentSplit(flying, run, resendid, |flying| + W.FLYING_CAP - n);
  }

  lemma ResentSplit<P>(flying: map<Id, P>, run: seq<W.Stamped<P>>, resendid: Id, limit: nat)
    requires limit > 0 && resendid in flying
    ensures var p := W.Stamped(resendid, flying[resendid]);
            run + W.ResendRun(flying, resendid, limit) == run + [p] + W.ResendRun(flying, W.NextId(resendid), limit - 1)
  {
  }
}
