/** The flying log can overflow: a run from the start, with every reply genuine, that loses a packet
  * because the oldest reply stays away while the ones behind it keep arriving. */
module WindowOverflow {
  import opened Window
  import opened WindowInvariant
  import opened WindowRuns
  import opened WindowReplies

  const SUBMITTED := 33

  // The induction below is about a run and a step given as function values instead of Run and Step.
  // With the definitions of both in sight next to the invariant, the solver unfolds whole steps at
  // every stage of the induction; as variables they stay closed, and OverflowReachable puts Run and
  // Step in at the end, where RunOn shows that they fit.
  type Runner<!P, !R> = seq<Event<P, R>> -> Outcome<P, R>

  type Stepper<!P, !R> = (State<P, R>, Event<P, R>) -> Outcome<P, R>

  /** `m` replies, to packets 2, 3, ..., are held back behind the unanswered packet 1. */
  ghost predicate Stuck<P, R>(s: State<P, R>, m: nat) {
    && Inv(s) && s.start == 1 && s.delivered == [] && !s.handlinglost
    && |s.accepted| == SUBMITTED && |s.replied| == m
    && forall id :: id in s.replied <==> 2 <= id < m + 2
  }

  ghost predicate Filling<P, R>(s: State<P, R>, n: nat) {
    Inv(s) && s.start == 1 && s.delivered == [] && !s.handlinglost && |s.accepted| == n && s.replied == map[]
  }

  /** The k-th flying id is k + 1 while nothing has been delivered. */
  lemma FlyingIdAt<P, R>(s: State<P, R>, k: nat)
    requires Numbered(s) && Conserved(s) && Logged(s) && s.start == 1 && s.delivered == []
    requires k < |s.flyingids| <= FLYING_CAP
    ensures s.flyingids[k] == k + 1 && (k + 1 in s.flying || k + 1 in s.replied)
  {
    IdAtClosed(s.start, k);
    assert s.flyingids[k] == s.accepted[|s.delivered| + k].id == IdAt(s.start, k);
    FlyingSlotAt(s, s.flyingids[k]);
  }

  lemma StuckWindow<P, R>(s: State<P, R>, m: nat)
    requires Stuck(s, m) && m <= 28
    ensures s.inflight == MAX_FLIGHT && |s.flyingids| == m + 4 && s.queuedids != []
    ensures s.flyingids[0] == 1 && m + 2 in s.flying
  {
    FlyingCount(s);
    FlyingIdAt(s, 0);
    FlyingIdAt(s, m + 1);
  }

  lemma FillStep<P, R>(s: State<P, R>, m: nat, n: nat, pack: P) returns (t: State<P, R>)
    requires Filling(s, m) && m < SUBMITTED && n == m + 1
    ensures Step(s, Accept(pack)) == Next(t) && Filling(t, n)
  {
    HeldBound(s, Accept(pack));
    StepExact(s, Accept(pack));
    StepAccepted(s, Accept(pack));
    SendLoopSame(Enqueue(s, pack));
    t := Step(s, Accept(pack)).state;
  }

  /** The window of the answered state moves on, but nothing is handed back. */
  lemma HeldAnswer<P, R>(s: State<P, R>, id: Id, reply: R)
    requires s.flyingids != [] && s.flyingids[0] !in s.replied && s.flyingids[0] != id && id in s.flying
    requires HandleReply(s, id, reply).Next?
    ensures var t := HandleReply(s, id, reply).state;
            && t.accepted == s.accepted && t.start == s.start && t.delivered == s.delivered
            && t.handlinglost == s.handlinglost && t.replied == s.replied[id := Answered(id, s.flying[id], reply)]
  {
    HandleReplyAnswer(s, id, reply);
    SentExtends(Answer(s, id, reply));
  }

  lemma HeldGood<P, R>(s: State<P, R>, m: nat, reply: R)
    requires Stuck(s, m) && m <= 27
    ensures Step(s, Reply(m + 2, reply)).Next? && Inv(Step(s, Reply(m + 2, reply)).state)
  {
    StuckWindow(s, m);
    HeldBound(s, Reply(m + 2, reply));
    StepExact(s, Reply(m + 2, reply));
  }

  lemma HeldStep<P, R>(s: State<P, R>, m: nat, n: nat, reply: R) returns (t: State<P, R>)
    requires Stuck(s, m) && m <= 27 && n == m + 1
    ensures Step(s, Reply(m + 2, reply)) == Next(t) && Stuck(t, n)
  {
    StuckWindow(s, m);
    HeldGood(s, m, reply);
    HeldAnswer(s, m + 2, reply);
    HeldMore(s.replied, m, Answered(m + 2, s.flying[m + 2], reply));
    t := Step(s, Reply(m + 2, reply)).state;
  }

  lemma HeldMore<V>(held: map<Id, V>, m: nat, v: V)
    requires m <= 28 && |held| == m && forall id :: id in held <==> 2 <= id < m + 2
    ensures var more := held[m + 2 := v];
            |more| == m + 1 && forall id :: id in more <==> 2 <= id < m + 3
  {
  }

  lemma LastStep<P, R>(s: State<P, R>, m: nat, reply: R) returns (t: State<P, R>)
    requires Stuck(s, m) && m == 28
    ensures Step(s, Reply(m + 2, reply)) == Next(t) && Total(t) < |t.accepted|
  {
    StuckWindow(s, m);
    HeldBoundTight(s, m + 2, reply);
    OverflowLoses(s, Reply(m + 2, reply));
    t := Step(s, Reply(m + 2, reply)).state;
  }

  // ----- the run -----

  lemma {:induction false} RunOn<P, R>(s: State<P, R>, es: seq<Event<P, R>>, e: Event<P, R>)
    requires Run(s, es).Next?
    ensures Run(s, es + [e]) == Step(Run(s, es).state, e)
    decreases |es|
  {
    if es == [] {
      assert (es + [e])[1..] == [];
    } else {
      assert (es + [e])[1..] == es[1..] + [e];
      RunOn(Step(s, es[0]).state, es[1..], e);
    }
  }

  /** `run` continues one `step` at a time. */
  ghost predicate Stepwise<P(!new), R(!new)>(run: Runner<P, R>, step: Stepper<P, R>) {
    forall es, e :: run(es).Next? ==> run(es + [e]) == step(run(es).state, e)
  }

  ghost predicate IsStep<P(!new), R(!new)>(step: Stepper<P, R>) {
    forall s, e :: step(s, e) == Step(s, e)
  }

  /** `n` packets are submitted. */
  function Accepts<P, R>(n: nat, pack: P): seq<Event<P, R>> {
    seq(n, i => Accept(pack))
  }

  /** 33 packets are submitted, then the replies to packets 2 to m + 1 arrive in order. */
  function Flood<P, R>(m: nat, pack: P, reply: R): seq<Event<P, R>>
    requires m <= 29
  {
    Accepts(SUBMITTED, pack) + seq(m, i requires 0 <= i < m => Reply(i + 2, reply))
  }

  lemma AcceptsNext<P(!new), R(!new)>(run: Runner<P, R>, step: Stepper<P, R>,
      s: State<P, R>, m: nat, n: nat, pack: P)
    requires Stepwise(run, step) && n == m + 1 && run(Accepts(m, pack)) == Next(s)
    ensures run(Accepts(n, pack)) == step(s, Accept(pack))
  {
    assert Accepts<P, R>(n, pack) == Accepts(m, pack) + [Accept(pack)];
  }

  lemma FloodNext<P(!new), R(!new)>(run: Runner<P, R>, step: Stepper<P, R>,
      s: State<P, R>, m: nat, n: nat, pack: P, reply: R)
    requires Stepwise(run, step) && m <= 28 && n == m + 1 && run(Flood(m, pack, reply)) == Next(s)
    ensures run(Flood(n, pack, reply)) == step(s, Reply(m + 2, reply))
  {
    assert Flood<P, R>(n, pack, reply) == Flood(m, pack, reply) + [Reply(m + 2, reply)];
  }

  lemma FilledStuck<P, R>(s: State<P, R>, m: nat)
    requires Filling(s, SUBMITTED) && m == 0
    ensures Stuck(s, m)
  {
  }

  lemma FillOn<P(!new), R(!new)>(run: Runner<P, R>, step: Stepper<P, R>,
      s: State<P, R>, m: nat, n: nat, pack: P)
    returns (t: State<P, R>)
    requires Stepwise(run, step) && IsStep(step) && m < SUBMITTED && n == m + 1
    requires Filling(s, m) && run(Accepts(m, pack)) == Next(s)
    ensures Filling(t, n) && run(Accepts(n, pack)) == Next(t)
  {
    t := FillStep(s, m, n, pack);
    AcceptsNext(run, step, s, m, n, pack);
  }

  lemma HoldOn<P(!new), R(!new)>(run: Runner<P, R>, step: Stepper<P, R>,
      s: State<P, R>, m: nat, n: nat, pack: P, reply: R)
    returns (t: State<P, R>)
    requires Stepwise(run, step) && IsStep(step) && m <= 27 && n == m + 1
    requires Stuck(s, m) && run(Flood(m, pack, reply)) == Next(s)
    ensures Stuck(t, n) && run(Flood(n, pack, reply)) == Next(t)
  {
    t := HeldStep(s, m, n, reply);
    FloodNext(run, step, s, m, n, pack, reply);
  }

  lemma {:induction false} FillReaches<P(!new), R(!new)>(run: Runner<P, R>, step: Stepper<P, R>,
      s0: State<P, R>, n: nat, pack: P)
    returns (t: State<P, R>)
    requires Stepwise(run, step) && IsStep(step) && n <= SUBMITTED
    requires Filling(s0, 0) && run(Accepts(0, pack)) == Next(s0)
    ensures Filling(t, n) && run(Accepts(n, pack)) == Next(t)
    decreases n
  {
    if n == 0 {
      t := s0;
    } else {
      var s := FillReaches(run, step, s0, n - 1, pack);
      t := FillOn(run, step, s, n - 1, n, pack);
    }
  }

  lemma {:induction false} FloodReaches<P(!new), R(!new)>(run: Runner<P, R>, step: Stepper<P, R>,
      s0: State<P, R>, m: nat, pack: P, reply: R)
    returns (t: State<P, R>)
    requires Stepwise(run, step) && IsStep(step) && m <= 28
    requires Filling(s0, 0) && run(Accepts(0, pack)) == Next(s0)
    ensures Stuck(t, m) && run(Flood(m, pack, reply)) == Next(t)
    decreases m
  {
    if m == 0 {
      t := FillReaches(run, step, s0, SUBMITTED, pack);
      FilledStuck(t, m);
      assert Flood<P, R>(m, pack, reply) == Accepts(SUBMITTED, pack);
    } else {
      var s := FloodReaches(run, step, s0, m - 1, pack, reply);
      t := HoldOn(run, step, s, m - 1, m, pack, reply);
    }
  }

  /** The run up to the last step that fits. */
  lemma FloodState<P(!new), R(!new)>(pack: P, reply: R) returns (s: State<P, R>)
    ensures Stuck(s, 28) && Run(Init<P, R>(1), Flood(28, pack, reply)) == Next(s)
  {
    var s0 := Init<P, R>(1);
    InitInv<P, R>(1);
    var run := (es: seq<Event<P, R>>) => Run(s0, es);
    var step := (s: State<P, R>, e: Event<P, R>) => Step(s, e);
    forall es, e | run(es).Next?
      ensures run(es + [e]) == step(run(es).state, e)
    {
      RunOn(s0, es, e);
    }
    assert run(Accepts(0, pack)) == Next(s0);
    s := FloodReaches(run, step, s0, 28, pack, reply);
  }

  /** Conservation fails without the bound on held-back replies: after this run some accepted packet is
      neither delivered nor in any id log. WindowLost says what that means for every continuation. */
  lemma OverflowReachable<P(!new), R(!new)>(pack: P, reply: R)
    ensures var o := Run(Init<P, R>(1), Flood(29, pack, reply));
            o.Next? && |o.state.delivered| + |o.state.flyingids| + |o.state.queuedids| < |o.state.accepted|
  {
    var s := FloodState(pack, reply);
    var t := LastStep(s, 28, reply);
    FloodLast(Init(1), s, 28, pack, reply, t);
  }

  lemma FloodLast<P, R>(s0: State<P, R>, s: State<P, R>, m: nat, pack: P, reply: R, t: State<P, R>)
    requires m == 28 && Run(s0, Flood(m, pack, reply)) == Next(s) && Step(s, Reply(m + 2, reply)) == Next(t)
    ensures Run(s0, Flood(m + 1, pack, reply)) == Next(t)
  {
    RunOn(s0, Flood(m, pack, reply), Reply(m + 2, reply));
    assert Flood<P, R>(m + 1, pack, reply) == Flood(m, pack, reply) + [Reply(m + 2, reply)];
  }
}
