/** The sliding-window engine of hw.go as a state machine over its steps.
  *
  * A state holds the fields of the hw structure that decide what is sent, in
  * what order, and what is handed back: the packet logs as maps, the id logs as
  * sequences (IdLogs.IdLog is the ring buffer behind them) and the counters.
  * Three histories are added: `accepted` (packets read from the incoming
  * channel, each with the id written into its header), `wire` (what was written
  * to the connection) and `delivered` (replies handed to the requesters).
  *
  * Every step is total: where the program panics, the outcome is Panic.
  */
module Window {
  const MAX_FLIGHT := 4
  const QUEUE_CAP := 256
  const FLYING_CAP := 32

  type Id = i: int | 0 <= i < 0x1_0000

  datatype Stamped<P> = Stamped(id: Id, pack: P)

  datatype Answered<P, R> = Answered(id: Id, pack: P, reply: R)

  datatype WireEvent<P> =
    | First(packet: Stamped<P>)
    | Again(packet: Stamped<P>)
    | StatusQuery
    | ResendQuery(lost: Id)

  datatype State<P, R> = State(
    start: Id,
    nextID: Id,
    timeoutid: Id,
    resent: Id,
    inflight: int,
    tosend: map<Id, P>,
    flying: map<Id, P>,
    replied: map<Id, Answered<P, R>>,
    queuedids: seq<Id>,
    flyingids: seq<Id>,
    handlinglost: bool,
    handlers: nat,
    accepted: seq<Stamped<P>>,
    wire: seq<WireEvent<P>>,
    delivered: seq<Answered<P, R>>)

  datatype Outcome<P, R> = Next(state: State<P, R>) | Panic

  datatype Event<P, R> =
    | Accept(pack: P)
    | Reply(id: Id, reply: R)
    | Timeout
    | StatusReply(received: seq<Id>, sent: seq<Id>)

  function NextId(id: Id): Id {
    if id == 65535 then 1 else id + 1
  }

  /** The state after configuration: the device reported `start` as its next id. */
  function Init<P, R>(start: Id): State<P, R> {
    State(start, start, 0, 0, 0, map[], map[], map[], [], [], false, 0, [], [], [])
  }

  /** An id log as a sequence: the zero id and an id beyond capacity are refused. */
  function LogAdd(log: seq<Id>, cap: nat, id: Id): seq<Id> {
    if id == 0 || |log| == cap then log else log + [id]
  }

  // ----- sending -----

  /** One round of the sendnext loop; the packet log must know the oldest queued id. */
  function SendOne<P, R>(s: State<P, R>): State<P, R>
    requires s.queuedids != [] && s.queuedids[0] in s.tosend
  {
    var first := s.queuedids[0];
    var pack := s.tosend[first];
    s.(queuedids := s.queuedids[1..],
       tosend := s.tosend - {first},
       wire := s.wire + [First(Stamped(first, pack))],
       flying := s.flying[first := pack],
       flyingids := LogAdd(s.flyingids, FLYING_CAP, first),
       inflight := s.inflight + 1,
       timeoutid := if s.inflight + 1 == 1 then first else s.timeoutid)
  }

  function SendLoop<P, R>(s: State<P, R>): Outcome<P, R>
    decreases |s.queuedids|
  {
    if s.inflight >= MAX_FLIGHT || s.queuedids == [] then Next(s)
    else if s.queuedids[0] !in s.tosend then Panic
    else SendLoop(SendOne(s))
  }

  function SendNext<P, R>(s: State<P, R>): Outcome<P, R> {
    if s.handlinglost || s.tosend.Keys == {} then Next(s) else SendLoop(s)
  }

  // ----- replies -----

  /** The timer moves to the second oldest flying id, if there is one. */
  function UpdateTimeout<P, R>(s: State<P, R>): State<P, R> {
    s.(timeoutid := if s.inflight > 0 && |s.flyingids| > 1 then s.flyingids[1] else s.timeoutid)
  }

  function ReturnLoop<P, R>(s: State<P, R>): State<P, R>
    decreases |s.flyingids|
  {
    if s.flyingids == [] || s.flyingids[0] !in s.replied then s
    else
      var first := s.flyingids[0];
      ReturnLoop(s.(flyingids := s.flyingids[1..],
                    replied := s.replied - {first},
                    delivered := s.delivered + [s.replied[first]]))
  }

  /** A reply to a flying packet, up to and including the removal from `flying`. */
  function Unflown<P, R>(s: State<P, R>, id: Id): State<P, R> {
    var s1 := s.(inflight := s.inflight - 1);
    var timeoutid := if s.flyingids != [] && id == s.flyingids[0] then UpdateTimeout(s1).timeoutid else s1.timeoutid;
    s1.(timeoutid := timeoutid, flying := s1.flying - {id})
  }

  function HandleReply<P, R>(s: State<P, R>, id: Id, reply: R): Outcome<P, R> {
    if id in s.flying then
      match SendNext(Unflown(s, id))
      case Panic => Panic
      case Next(s') => Next(ReturnLoop(s'.(replied := s'.replied[id := Answered(id, s.flying[id], reply)])))
    else if id == s.resent then Next(s)
    else Panic
  }

  // ----- new packets -----

  function Enqueue<P, R>(s: State<P, R>, pack: P): State<P, R> {
    s.(nextID := NextId(s.nextID),
       tosend := s.tosend[s.nextID := pack],
       queuedids := LogAdd(s.queuedids, QUEUE_CAP, s.nextID),
       accepted := s.accepted + [Stamped(s.nextID, pack)])
  }

  function HandleAccept<P, R>(s: State<P, R>, pack: P): Outcome<P, R> {
    if s.nextID == 0 || |s.queuedids| == QUEUE_CAP then Panic
    else SendNext(Enqueue(s, pack))
  }

  // ----- loss handling -----

  /** handlelost up to the point where it waits for the device's status. */
  function HandleTimeout<P, R>(s: State<P, R>): State<P, R> {
    s.(handlinglost := true, handlers := s.handlers + 1, wire := s.wire + [StatusQuery])
  }

  /** Consecutive flying packets from `id` on, at most `limit` of them. */
  function ResendRun<P>(flying: map<Id, P>, id: Id, limit: nat): (run: seq<Stamped<P>>)
    ensures |run| <= limit
    decreases limit
  {
    if limit == 0 || id !in flying then []
    else [Stamped(id, flying[id])] + ResendRun(flying, NextId(id), limit - 1)
  }

  /** What the resend loop rewrites. The limit is never what ends it (WindowRecovery.ResendExact). */
  function Resends<P>(flying: map<Id, P>, id: Id): seq<Stamped<P>> {
    ResendRun(flying, id, |flying| + FLYING_CAP)
  }

  function AgainEvents<P>(run: seq<Stamped<P>>): seq<WireEvent<P>> {
    seq(|run|, i requires 0 <= i < |run| => Again(run[i]))
  }

  /** The decision handlelost takes on the device's status, before it lets packets out again. */
  function Repair<P, R>(s: State<P, R>, received: seq<Id>, sent: seq<Id>): Outcome<P, R> {
    if s.timeoutid in sent then
      Next(UpdateTimeout(s.(wire := s.wire + [ResendQuery(s.timeoutid)], resent := s.timeoutid)))
    else if s.timeoutid !in received then
      var run := Resends(s.flying, s.timeoutid);
      var s' := s.(wire := s.wire + AgainEvents(run));
      Next(if run != [] then UpdateTimeout(s') else s')
    else Panic
  }

  function Resume<P, R>(s: State<P, R>): State<P, R>
    requires s.handlers > 0
  {
    s.(handlers := s.handlers - 1, handlinglost := false)
  }

  /** The rest of handlelost. Without a waiting handler a status reply changes nothing here. */
  function HandleStatus<P, R>(s: State<P, R>, received: seq<Id>, sent: seq<Id>): Outcome<P, R> {
    if s.handlers == 0 then Next(s)
    else
      match Repair(s, received, sent)
      case Panic => Panic
      case Next(s') => SendNext(Resume(s'))
  }

  function Step<P, R>(s: State<P, R>, e: Event<P, R>): Outcome<P, R> {
    match e
    case Accept(pack) => HandleAccept(s, pack)
    case Reply(id, reply) => HandleReply(s, id, reply)
    case Timeout => Next(HandleTimeout(s))
    case StatusReply(received, sent) => HandleStatus(s, received, sent)
  }

  function Run<P, R>(s: State<P, R>, es: seq<Event<P, R>>): Outcome<P, R>
    decreases |es|
  {
    if es == [] then Next(s)
    else
      match Step(s, es[0])
      case Panic => Panic
      case Next(s') => Run(s', es[1..])
  }
}
