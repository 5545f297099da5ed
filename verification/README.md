# IPbus client: model and proofs

This project models the client side of the IPbus 2.0 protocol as implemented by the Go package `ipbus`, and
proves what the package is for: however a request is split, packed, numbered, transmitted, lost, retransmitted
and answered, each requester receives what one single operation on the device would have given it, in order.
Names of sections refer to "The IPbus Protocol, version 2.0".

## The model

Code that updates structures in place is modelled by classes (`Hw`, `IdLog`, `Packet`, `Target`, `Table`) whose
methods follow the source branch by branch. Each method's contract ties the new state to a function of the old
one, and the properties are proved about those functions, over all runs.

| file | what it holds | source |
|---|---|---|
| `Window.dfy` | the window engine as a state machine: accept, reply, timeout, status reply; total, with panics as outcomes | hw.go |
| `WindowInvariant.dfy`, `WindowRuns.dfy` | the invariant, exactly when a step keeps it, and delivery in order over all runs | hw.go |
| `WindowOverflow.dfy`, `WindowLost.dfy`, `WindowStale.dfy` | a concrete run that overflows the log of flying ids, what an overflow means for every run behind it, and a run in which an old answer comes out | hw.go |
| `WindowProgress.dfy` | nothing gets stuck outside loss handling | hw.go |
| `WindowReplies.dfy` | delivered packets carry their own replies | hw.go |
| `WindowTimer.dfy` | which packet the loss timer watches (UDP reliability mechanism) | hw.go |
| `WindowRecovery.dfy`, `WindowLosses.dfy`, `WindowSkips.dfy` | what a timeout and the status after it put on the wire, what is written again, and what never is | hw.go |
| `Hw.dfy`, `IdLogs.dfy` | the structure and its ring-buffer id logs, updated in place, refining the state machine | hw.go, hw_stuff.go |
| `Wire.dfy` | words and headers in both byte orders (packet header, transaction header) | ipbus.go |
| `Packets.dfy`, `Packet.dfy`, `PacketProofs.dfy` | packets as values, the class refining them, and the round trips (control packet and transaction types) | transaction.go |
| `RequestBytes.dfy`, `PacketRules.dfy` | every byte of requests, queries, replies and status, and the rules of packets, in plain numbers | ipbus.go, transaction.go, hw_stuff.go |
| `Packer.dfy`, `PackerGreedy.dfy`, `Target.dfy` | splitting and packing as functions, how tightly packets are filled, and the packing loops on packet objects | target.go |
| `Devices.dfy`, `Sessions.dfy` | any device, failing or not, unsplit operations, and the refinement for a packet and for a whole session | target.go, transaction.go |
| `UserCalls.dfy`, `Immediate.dfy` | the calls, what they mean on a plain memory, and those that wait for their responses | target.go |
| `Stack.dfy` | the composition of everything above over runs of the window engine | all of these |
| `StatusPackets.dfy` | status packet and re-send request packet | hw_stuff.go |
| `Bits.dfy`, `Masks.dfy` | 32-bit words as bits, and register masks | register.go, target.go |
| `AddressTable.dfy`, `TableMeaning.dfy`, `TableExact.dfy`, `TableSample.dfy`, `TableTrouble.dfy` | the streaming address-table walk, its recursive meaning, exactly when the two agree, a table in plain names and numbers, and what ends the walk early | parser.go |

`dafny verify dfyconfig.toml` checks the whole project.

## Hypotheses

The source relies on the following without enforcing it. Each is a visible precondition of the theorem that
needs it, or part of how the steps are modelled.

- Room in the log of flying ids. `sendnext` ignores the error of `flyingids.add` (hw.go:288). `NeverOverflows`
  is the exact condition (`StepExact`); holding back at most 27 replies implies it (`FewNeverOverflows`), and so
  do replies in order (`RunInOrder`).
- Writes to the connection succeed. `sendnext` drops the packet otherwise (hw.go:281-285).
- Configuration is finished and the device's next id is not 0 before the first packet is accepted.
- Each step is atomic: a branch of `Run`, the first half of `handlelost`, and its second half from the status
  reply on. `handlelost` runs in a goroutine of its own beside `Run`; interleavings inside these steps are not
  modelled.
- `sendnext` tests a snapshot of `tosend` that never shrinks; `Hw.SendNext` keeps the snapshot, and its loop
  ends through the empty queue as the original's does.
- `Hw`'s methods for single steps ask that the packet log knows every queued id and that the resend loop can
  stop. Both hold in every state a run reaches: `Hw.Handle` asks for the invariant only.
- Replies. `FullStack` assumes of a reply that it carries what the device answers to that packet after the
  packets first transmitted before it (`FaithfulRun`), which is what the UDP reliability mechanism requires of a
  device; when it arrives, in which order, and how often packets are written again is left open.
- A request for at least one word: the loops at target.go:117 and target.go:144 create no transaction for none,
  so such a request gets no response and its channel is never closed (`Served` says so; nothing is excluded).
- Each call has a channel of its own, as target.go:221-272 makes one per call.

## What the code does otherwise than one would expect

- The response check of `add` is computed on 8 bits: 255 + 1 wraps to 0, so `add` alone lets a packet's response
  overrun its budget (`BudgetOverrun`; `BudgetExact` gives the exact condition). `preparepackets` never asks for
  that, so its packets do keep both budgets (`PrepareAllSplits`).
- The loss timer leaves the oldest packet in exactly two situations (`TimerExact`). Any recovery is one of them
  if two or more packets are in the flying log (`RecoveryLeaves`). If the oldest packet is then lost again, no
  later recovery writes it again or asks the device for its reply, and nothing is handed back until that reply
  turns up by itself (`SecondLossIsFinal`).
- The flying log can overflow although at most 4 packets are in flight (`OverflowReachable`). From then on some
  accepted packet is neither delivered nor in any id log, in every continuation, and the reply to the packet that
  found no room is not handed back while fewer than 65535 ids have been given out since (`OverflowIsFinal`).
  Beyond that its id comes round again. If an old answer is still stored under it then, a reply to another packet
  hands that answer back for the new packet, while a reply to the new packet itself replaces it (`StaleAnswer`,
  and `HandsBack` for every place in the return loop). `StaleReachable` is a run that gets there.
- Even outside loss handling the oldest packet's answer can be the one that overflows the flying log: exactly if
  the log is full and packets are queued (`RoomyExact`). Otherwise answering the oldest packets delivers everything
  (`AllDelivered`).
- With 256 packets queued the next one ends the program: without a reply, the 261st (`QueueExact`).
- `parse` never returns on a reply whose last item is cut to one to three bytes (outcome `Spins`), and appends
  replies in the order they arrive, not by transaction id. `ParseExact` says exactly which inputs end well,
  and `SpinsExact` on which it never returns.
- `MaskedWrite` does not cut its or-term to the mask, unlike `WriteMask` (`MaskedWriteAgrees`,
  `MaskedWriteKeepsOthers`).
- In an address table, a register directly below a file's root but behind a block counts from that block
  (`LateRegister`). A module file whose root has no fwinfo turns its root into a register at the root's own
  address, 0 if it has none, and the registers directly below it lose the module's address (`NestedPlainRoot`).
  Blocks and modules never count an address of their file's root. `TableIff` gives the exact condition under which
  a table means what its tree says.
- The address tables testdata/xml/dummy_*.xml have roots without an id. The walk takes the id of the first
  node below for the root's: a register there gets the name of its file, and the dotted name loses its last part
  (`FirstRegister`).
- A mask tag before the first register of its file writes to a map that does not exist yet and panics
  (`MaskFirst`).
- A status reply that comes while no handler waits stays in the buffered `statuses` channel, and the next loss
  handler takes that old status instead of the answer to its own query. The window model drops such a reply.
- `idlog.newest` reads one slot past the newest entry and nothing uses it; it has no counterpart here.

## Model

| member | source | states |
|---|---|---|
| `WindowRuns.StepExact` | hw.go:261-525 | From any good state, each of the four steps (new packet, reply, timeout, status reply) ends in a panic exactly in the listed cases, and otherwise leads to a good state exactly when it does not send into a full flying log. A good state: delivered, flying and queued packets are the accepted packets in order; the packet logs hold exactly what their id logs name; the flying log splits disjointly into unanswered and held-back packets; inflight is the number of unanswered ones and at most 4; the oldest flying packet is unanswered; a packet is queued outside loss handling only if the window is full; first transmissions on the wire are the accepted packets in order |
| `WindowRuns.RunFifo` | hw.go:260-370 | Over every run, whatever order replies arrive in: replies are delivered in the order packets were submitted, first transmissions leave in that order, none is lost or duplicated, and their ids count up from the first id with 65535 followed by 1 |
| `WindowReplies.RunRight` | hw.go:350-370 | Replies stay with their packets: if each reply that arrives for a packet in flight is the right one for it, every delivered packet carries its own right reply, however replies are reordered and packets retransmitted |
| `Stack.FullStack` | target.go:88-201 | End to end: for any calls, device, byte orders and any run of the engine with reordering, losses and retransmissions, the channel operations performed at any moment use the requests' channels only and begin a sequence that serves every requester as one unsplit operation per request would; when the engine is quiet, all are served and the device is in the state the unsplit operations lead to |
| `Stack.FullStackAnswers` | transaction.go:64-168 | The same with a device that may answer any operation with any code: each request's channel gets exactly the responses to its pieces, errors included, in order, and is closed once; no other channel is used |
| `Stack.RunIsSession` | hw.go:404-525 | At any moment of a run the channel operations performed are those of exchanging the delivered packets one after the other, and the device state is the one its received prefix leads to |
| `Stack.HandedIsSession` | transaction.go:64-168 | Parsing and routing the device's answers, packet by packet, performs the channel operations of the packets' exchanges |
| `Stack.FaithfulRunRight` | hw.go:463-521 | If every reply carries what a device answers to that packet after the ones first transmitted before it, then every reply is the right one for its place in the sequence of accepted packets |
| `Sessions.SessionRefines` | target.go:88-310 | Split, packed, encoded, executed, parsed and routed, any sequence of reads, writes, read-modify-writes and dispatches gives every requester what its request returns as one operation, and the device the same final state |
| `Sessions.SessionAnswers` | target.go:88-201 | With a device that may fail: one response per piece, with the code and words the device answered when it carried out all pieces in order, then one close |
| `Sessions.StreamAnswers` | transaction.go:161-168 | On the stream of all requests, each channel gets exactly the answers to its own request |
| `Sessions.PiecesAnswered` | transaction.go:161-168 | The pieces of one request put one response each on its channel and close it behind the last, whatever the codes |
| `Sessions.PiecesServe` | transaction.go:161-168 | The pieces of one request answer on its channel in order; the words collected are the concatenation, and the channel is closed once, behind the last response |
| `Sessions.StreamServes` | transaction.go:161-168 | On the stream of all requests, each channel sees exactly the responses of its own request |
| `Devices.SplitOperates` | target.go:115-173 | Executing the pieces of a request one after the other on any device, also one whose reads have side effects, is the unsplit operation |
| `Devices.ExchangeDelivers` | transaction.go:64-168 | One packet from request bytes to routed responses: what the device does and the requesters see is the packet's transactions carried out in order |
| `Devices.ServeReady` | transaction.go:190-277 | The bytes of a prepared packet make a device act on exactly the packet's transactions |
| `Devices.ParseReady` | transaction.go:64-133 | The device's answer to a prepared packet is parsed into one response per transaction, with the code and words of its answer |
| `WindowInvariant.StepInv` | hw.go:404-525 | A step that neither panics nor overflows the flying log keeps every part of the good-state invariant |
| `WindowInvariant.IdAtClosed` | hw.go:546-554 | The k-th id is 1 + (start - 1 + k) mod 65535; 0 is never given out |
| `WindowInvariant.LiveDistinct` | hw.go:87-88 | Queued and flying ids (at most 288) and the next id are pairwise different, in runs of any length |
| `WindowInvariant.SendLoopCore` | hw.go:274-295 | The sendnext loop keeps conservation and the logs, and stops with an empty queue or a full window |
| `WindowInvariant.ReturnLoopCore` | hw.go:350-370 | The returnreply loop keeps conservation and leaves the oldest flying packet unanswered |
| `WindowInvariant.HandleReplyAnswer` | hw.go:489-513 | Sending between taking a packet out of flight and storing its reply has the same effect as sending after it |
| `WindowInvariant.RepairCore` | hw.go:148-243 | What handlelost does about a lost packet changes nothing but the wire, the timer and the resent id |
| `WindowRuns.OverflowLoses` | hw.go:287-290 | A step that sends into a full flying log does lose a packet: right after it some accepted packet is neither delivered nor in any id log |
| `WindowLost.OverflowIsFinal` | hw.go:287-290 | An overflow is final: in every continuation, whatever happens, some accepted packet is neither delivered nor in any id log; and the reply to the packet that found no room, 32 places behind the last delivered one, is not handed back while fewer than 65535 ids have been given out since its own |
| `WindowLost.StepMissing` | hw.go:404-525 | From any state whose flying log is within its capacity, no step finds a lost packet again: the number of accepted packets that are neither delivered nor logged never falls |
| `WindowLost.StepLoose` | hw.go:350-370 | Whatever the packet logs hold, an id that no id log names comes back only by being given out again, and until then nothing is handed back under it |
| `WindowLost.OverflowDrops` | hw.go:274-293 | Which packet the overflowing step drops, in each of the three branches that send |
| `WindowLost.SendLoopIds` | hw.go:274-293 | Exactly what the sendnext loop moves from the queue to the flying log, room or not |
| `WindowLost.HandsBack` | hw.go:350-370 | From any state, anywhere in the return loop: under the id it names a reply step hands back the reply that came, under every other id whatever answer was stored there, old or not |
| `WindowLost.StaleAnswer` | hw.go:489-513 | With an old answer stored under the id of the oldest packet, which is in flight again, a reply to a packet in flight hands the old answer back for it exactly if the reply is to another packet; a reply to that packet itself hands back the right answer |
| `WindowStale.StaleReachable` | hw.go:350-370 | A run from the start that gets there: it begins with the overflow; in the state it leads to the new packet is the oldest in flight under the lost 33rd packet's id, whose answer is still stored there; and the next reply, to the packet behind it, hands that old answer back while the new packet stays in flight |
| `WindowRuns.StepAccepted` | hw.go:443-458 | Only an accept step accepts, with the next id; what was delivered is never taken back |
| `WindowRuns.RunAccepted` | hw.go:443-458 | The accepted packets of a run are the submitted ones in order |
| `WindowRuns.FlyingCount` | hw.go:489-513 | The flying log holds exactly the packets in flight and those held back |
| `WindowRuns.HeldBound` | hw_stuff.go:102-113 | With at most 27 replies held back no step overflows the flying log |
| `WindowRuns.HeldBoundTight` | hw.go:489-498 | 27 is the best bound: with 28 held back and a queue, any reply overflows it |
| `WindowRuns.FewNeverOverflows` | hw.go:274-290 | A run that never holds back more than 27 replies at a step boundary never overflows the flying log |
| `WindowOverflow.OverflowReachable` | hw.go:287-290 | A concrete run from the start, with genuine replies only, that overflows the log: 33 packets, then the replies to packets 2 to 30 |
| `WindowProgress.AllDelivered` | hw.go:489-513 | From every good state outside loss handling whose flying log has room, or with nothing queued, some run of answers to the oldest packets delivers everything accepted, without panic or overflow |
| `WindowProgress.HeadsDeliver` | hw.go:489-513 | In every run of such answers, however long: no panic, no overflow, and each answer hands back at least one reply |
| `WindowProgress.RoomyExact` | hw.go:489-498 | Outside loss handling an answer to the oldest packet fits exactly if the flying log has room or nothing is queued, and then the same holds after it |
| `WindowProgress.HeadInFlight` | hw.go:350-370 | Outside loss handling, while anything accepted is undelivered, the oldest flying packet is in flight |
| `WindowRuns.QuietMeansDone` | hw.go:350-370 | With nothing in flight and no loss being handled, every accepted packet has been delivered |
| `WindowRuns.ReplyCounts` | hw.go:489-513 | Each reply to a packet in flight is counted exactly once, as delivered or held back |
| `WindowRuns.AllAnswered` | hw.go:350-370 | When every accepted packet has been answered, in whatever order, all are delivered |
| `WindowRuns.Gated` | hw.go:261-269 | While a loss is being handled nothing is transmitted for the first time |
| `WindowTimer.TimerExact` | hw.go:115-146 | If the timer watches the oldest unanswered packet, it does so after the step exactly if the step is none of two kinds: a reply to the oldest while the second oldest had been answered early, or loss handling with two or more packets in the flying log |
| `WindowTimer.RunInOrder` | hw.go:115-135 | In runs whose replies arrive in order and without loss handling: the flying log never overflows, nothing stays held back, and the timer always watches the oldest packet |
| `WindowTimer.InOrderReply` | hw.go:489-513 | A reply in order is delivered at once, and even in the middle of the step the flying log has at most 5 entries |
| `WindowRecovery.ResendExact` | hw.go:205-230 | The resend loop stops, and rewrites exactly the longest run of flying packets with consecutive ids from the timed-out one, across the wrap from 65535 to 1 |
| `WindowRecovery.ResendIsRun` | hw.go:205-230 | In a good state these are the originally accepted packets from there on, up to the first one whose answer is held back |
| `WindowRecovery.RecoversAll` | hw.go:199-230 | With the timer on the oldest packet and nothing held back, everything in flight is rewritten in the original order and the window is unchanged |
| `WindowRecovery.SecondLossSkipsOldest` | hw.go:199-242 | After one recovery the timer watches the second oldest packet, and a recovery directly behind it does not rewrite the oldest |
| `WindowSkips.SecondLossIsFinal` | hw.go:148-243 | After one recovery that began with the timer on the oldest packet, over every run without a reply to that packet - however many timeouts and recoveries it holds - the packet is neither written again nor asked for with a re-send request, nothing at all is handed back, and the timer stays off it |
| `WindowSkips.RunAway` | hw.go:115-243 | The same from any good state whose timer watches a packet behind the oldest one |
| `WindowSkips.RecoveryLeaves` | hw.go:189-235 | A recovery takes the timer off the oldest packet, whether the device had answered it or never seen it |
| `WindowSkips.RecoveryExact` | hw.go:199-230 | A recovery of a packet the device does not report rewrites the oldest packet exactly if the timer is on it |
| `WindowLosses.RunQueries` | hw.go:148-165 | Over every run: the device is asked for its status once for each timeout, and never otherwise |
| `WindowLosses.TimeoutCloses` | hw.go:261-269 | After a timeout nothing is transmitted for the first time until a status reply comes, whatever else happens |
| `WindowLosses.TimeoutWire` | hw.go:148-165 | The timeout itself writes the query, starts a handler and closes the gate; the window stays as it is |
| `WindowLosses.RunGate` | hw.go:151-242 | Over every run, from the events alone: how many handlers wait, and whether the gate is closed; each timeout adds a handler and closes it, each status reply ends one handler and opens it |
| `WindowLosses.LostRequest` | hw.go:199-235 | A timeout with the timer on the oldest packet and nothing held back, and a status that does not know the packet: on the wire follow the query, every packet in flight once in its original order, then first transmissions only |
| `WindowLosses.LostReply` | hw.go:189-198 | A timeout and a status that says the packet was answered: on the wire follow the query, one re-send request with that packet's id, then first transmissions only |
| `WindowLosses.AnsweredTwice` | hw.go:489-520 | After that the first answer to the packet is taken, and a second one changes nothing and does not end the program |
| `WindowLosses.NothingToRepair` | hw.go:199-235 | A status that does not know a packet that is no longer in flight changes neither wire nor timer |
| `WindowLosses.QueueExact` | hw.go:81-98 | From the start, without a reply, exactly 260 packets can be submitted: 4 in flight and 256 queued; one more ends the program |
| `Hardware.Hw.constructor` | hw.go:81-98 | The new structure is the initial state of the window model |
| `Hardware.Hw.SendNext` | hw.go:261-296 | The in-place loop with its snapshot of tosend is the sending loop of the model |
| `Hardware.Hw.ReturnReply` | hw.go:350-370 | The in-place loop is the model's return loop |
| `Hardware.Hw.UpdateTimeout` | hw.go:115-146 | The timer moves to the second oldest flying id if there is one |
| `Hardware.Hw.Accept` | hw.go:404-462 | The accept branch is the model's step, panics included |
| `Hardware.Hw.HandleReply` | hw.go:463-521 | The reply branch is the model's step, panics included |
| `Hardware.Hw.HandleTimeout` | hw.go:148-166 | The first half of loss handling is the model's step: gate closed, one handler more, one query on the wire; `TimeoutWire`, `RunQueries` and `TimeoutCloses` say what it means over runs |
| `Hardware.Hw.Resend` | hw.go:205-230 | The in-place resend loop stops and writes exactly the model's run |
| `Hardware.Hw.Handle` | hw.go:404-525 | In every good state each event's method is the model's step, panics included, and leaves a good state unless the flying log overflows; a status reply that no handler waits for changes nothing |
| `Hardware.FlyingFits` | hw.go:205-230 | What the resend loop relies on to stop holds in every good state |
| `Hardware.Hw.Release` | hw.go:239-242 | The handler ends and lets packets out again |
| `Hardware.Hw.HandleStatus` | hw.go:166-243 | The second half of loss handling is the model's step, panics included |
| `Hardware.Hw.GiveId` | hw.go:546-554 | Ids are handed out in the model's order |
| `IdLogs.IdLog.constructor` | hw_stuff.go:151-154 | A new id log is empty |
| `IdLogs.IdLog.Add` | hw_stuff.go:102-113 | Over any wraparound, add appends to the queue and refuses exactly id 0 and a full log |
| `IdLogs.IdLog.Remove` | hw_stuff.go:115-122 | Remove drops the oldest id and fails exactly on an empty log |
| `IdLogs.IdLog.Oldest` | hw_stuff.go:124-126 | The oldest id, if there is one |
| `IdLogs.IdLog.SecondOldest` | hw_stuff.go:128-131 | The second oldest id, if there are two |
| `IdLogs.IdLog.Sorted` | hw_stuff.go:138-145 | The loop returns the whole queue, oldest first |
| `Packer.PrepareAllSplits` | target.go:88-201 | Over any sequence of requests and dispatches the transactions of all packets, in order, are the pieces of the requests, in order; every packet stays within its budgets and is well built |
| `Packer.PrepareSplits` | target.go:106-191 | One request adds exactly its pieces behind what was there, whatever the fill level of the last packet |
| `Packer.SplitCovers` | target.go:115-173 | The pieces of a read or write tile it: sizes 1 to 255 adding up, addresses modulo 2^32 or fixed, write data in place, only the last piece closes the channel |
| `Packer.PrepareKeeps` | target.go:88-201 | Whatever holds of new packets and survives every accepted add holds of all prepared packets |
| `Targets.Target.HandleRequest` | target.go:93-192 | The packing goroutine's step on its packet objects is the model's step; a dispatch hands the packets over unchanged |
| `Targets.Target.AddRead` | target.go:115-140 | The loop that splits a read, in place |
| `Targets.Target.AddWrite` | target.go:141-173 | The loop that splits a write, in place; its panic cannot happen |
| `Targets.Target.PutRead` | target.go:118-139 | One piece of a read: as many words as fit, 1 to 255, and add accepts it |
| `Targets.Target.PutWrite` | target.go:145-172 | One piece of a write: as many words as fit, 1 to 255, and add accepts it |
| `PackerGreedy.PrepareAllPacked` | target.go:88-201 | Over any sequence of requests and dispatches: of neighbouring packets, the first has too little space for the first transaction of the second (request/response words 2/2 for reads, 3/1 for writes, 4/2 for RMWbits, 3/2 for RMWsum), and a piece that does not close its request has 255 words or fills its packet |
| `PackerGreedy.RoomNumbers` | target.go:118-123 | Room is made by one new packet exactly if the last one has less than those numbers of words left of 368; otherwise nothing changes |
| `PackerGreedy.DispatchExact` | target.go:94-103 | At any point of the sequence a dispatch hands over all packets being filled, in order, and leaves none; no other request hands over any |
| `PackerGreedy.SingleCovers` | target.go:174-191 | A read-modify-write is one piece of one word with the request's type, address and input, and closes the channel |
| `UserCalls.CallTypes` | target.go:221-272 | The calls ask for types 0 to 5, by the register's noninc flag, and are what the packer expects |
| `UserCalls.ReadMeans` | target.go:221-272 | As one operation on a plain memory, Read and ReadB return the words from the register's address on, modulo 2^32, or the same word each time for a port, and change nothing |
| `UserCalls.WriteMeans` | target.go:233-242 | Write stores the words from the address on and leaves every other word alone; at a port the last word stays |
| `UserCalls.RMWbitsMeans` | target.go:244-251 | RMWbits returns the old word, and bit by bit stores it and andterm, or orterm; no other word changes |
| `UserCalls.RMWsumMeans` | target.go:253-260 | RMWsum returns the old word and stores the sum modulo 2^32; no other word changes |
| `Immediate.WriteNow` | target.go:287-296 | The first error of the responses, if there is one |
| `Immediate.ReadNow` | target.go:299-310 | The words of all responses up to and including the first error, and that error |
| `Immediate.ReadServed` | target.go:299-310 | On the channel that a session fills for a read, ReadNow returns the words of the unsplit read and no error |
| `Immediate.WriteServed` | target.go:287-296 | On the channel that a session fills for a write, WriteNow returns no error |
| `PacketProofs.AddWellBuilt` | transaction.go:190-266 | Every accepted or refused add keeps the packet well built and never alters earlier bytes |
| `PacketProofs.BudgetExact` | transaction.go:194-201 | An accepted add keeps the request budget always, and the response budget except for a 255-word read that does not fit |
| `PacketProofs.BudgetOverrun` | transaction.go:200-200 | The 8-bit check accepts two 255-word reads in one packet, which overruns the response budget |
| `PacketProofs.RequestRoundTrip` | transaction.go:234-277 | Decoding the bytes of a packet whose header was written gives its id and exactly its transactions, numbered by position |
| `PacketProofs.AddAllRoundTrip` | transaction.go:170-277 | For any list of transactions offered: at most 183 fit, the request has 4 bytes for each reserved word and at most 1472, and it decodes to what was added |
| `PacketProofs.HeaderWellBuilt` | transaction.go:272-277 | Writing the header changes nothing behind it |
| `PacketProofs.ParseExact` | transaction.go:64-133 | The reply loop ends well exactly when the bytes are a list of items that answer transactions of the packet, and then gives each its code and words; all other inputs panic or spin |
| `PacketProofs.SpinsExact` | transaction.go:77-124 | The reply loop never ends exactly when the packet has transactions and the bytes are valid items with one to three bytes behind them |
| `PacketProofs.ReplyRoundTrip` | transaction.go:64-133 | For a reply to any prefix of the transactions, in either byte order: one response each with its exact code and words, and errors for the rest |
| `PacketProofs.ParseEncoded` | transaction.go:77-124 | parse recovers every code and every word of any valid list of reply items |
| `RequestBytes.PacketBytes` | transaction.go:170-277 | Every byte of a prepared packet: the packet header, then for the i-th transaction its header, address and data |
| `RequestBytes.TypeBytes` | transaction.go:32-36 | The bytes of the six request types, for every position, length, address and data: header [0x20 + i / 0x100, i % 0x100, n, 0x10 * c + 15] with c = 0 read, 1 write, 2 and 3 non-incrementing, 4 RMWbits, 5 RMWsum, reversed in little-endian order |
| `RequestBytes.PacketHeaderBytes` | ipbus.go:108-126 | The packet header is [0x20, id / 0x100, id % 0x100, 0xf0], or its reverse |
| `RequestBytes.PacketHeaderRead` | ipbus.go:83-106 | What is read from any four bytes, and which are refused |
| `RequestBytes.TransactionHeaderBytes` | ipbus.go:167-185 | The bytes of a transaction header |
| `RequestBytes.TransactionHeaderRead` | ipbus.go:142-165 | What is read from any four bytes |
| `RequestBytes.WordRead` | ipbus.go:49-61 | The number that four bytes stand for |
| `RequestBytes.WordBytesAre` | transaction.go:250-256 | The four bytes of a word |
| `RequestBytes.ReplyPacketBytes` | transaction.go:64-133 | Every byte of the replies that the device theorems speak of: as the requests, with the info code in place of 15 and the words read as data |
| `RequestBytes.QueryBytes` | hw_stuff.go:13-29 | The status query and the re-send request, byte by byte |
| `RequestBytes.StatusFields` | hw_stuff.go:44-67 | At which bytes of a status reply the MTU, the buffers, the next id and the two histories stand, and which slots are dropped |
| `PacketRules.TypeSizes` | transaction.go:195-231 | How many words each type sends and how many it gets back |
| `PacketRules.AcceptsExact` | transaction.go:190-233 | What add accepts, in numbers: sizes of input, space in request and response, the 8-bit wrap at 255 words and the unsigned difference |
| `PacketRules.ReplyFits` | transaction.go:190-233 | The reply to a prepared packet has at most the bytes the packet accounts for, at most 1472, and exactly as many if every transaction succeeds |
| `PacketRules.ResponseMeans` | transaction.go:85-122 | A response is without error exactly if the code is 0, and only then carries words, in the form asked for |
| `PacketRules.ParseRefuses` | transaction.go:64-143 | A reply without a packet header: one error with code 14 for each transaction; one of another type: no response |
| `PacketRules.ParsePads` | transaction.go:126-133 | Transactions without a reply get errors with code 14 behind the replies that came |
| `PacketObject.Packet.Add` | transaction.go:190-266 | The in-place add is the model's, refusals included |
| `PacketObject.Packet.WriteHeader` | transaction.go:272-277 | The in-place header write is the model's |
| `PacketObject.Packet.Parse` | transaction.go:64-143 | The in-place parse is the model's; the outcome says where the program panics or never returns |
| `PacketObject.Packet.ParseItems` | transaction.go:77-124 | The loop consuming data and appending replies is the model's |
| `PacketObject.Packet.Send` | transaction.go:161-168 | One response per transaction, in order, and a close behind each final one; the index stays in range exactly when there are enough replies |
| `PacketObject.Packet.Space` | transaction.go:268-270 | The space left in request and response |
| `PacketObject.PutWordAt` | ipbus.go:167-185 | Four bytes are overwritten at an offset and nothing else |
| `Wire.PacketHeaderInverse` | ipbus.go:83-126 | Decoding four bytes gives a header exactly when encoding that header gives the bytes, version 2 and the two byte orders included |
| `Wire.TransactionHeaderInverse` | ipbus.go:142-185 | The same for transaction headers: exactly the ids below 4096 survive; `TransactionHeaderBytes` and `TypeBytes` say which bytes they are |
| `Wire.GetPutWords` | ipbus.go:53-61 | Reading written words gives the words back, in both byte orders |
| `Wire.PutGetWords` | ipbus.go:53-61 | Writing read words gives the bytes back |
| `Wire.BytesToWords` | ipbus.go:53-61 | The loop reads a byte slice word by word |
| `StatusPackets.QueriesDecode` | hw_stuff.go:13-29 | The status query and the re-send request decode to their type, and the latter to the lost id |
| `StatusPackets.ParseStatus` | hw_stuff.go:44-67 | The loops read the fields of a 64-byte status reply |
| `StatusPackets.StatusRoundTrip` | hw_stuff.go:44-67 | Every status a device reports is read back: MTU, buffers, next id and both packet histories without the unused slots |
| `Masks.NewMask` | register.go:11-21 | The loop finds the lowest set bit, or 0 for an empty mask |
| `Masks.WriteThenRead` | register.go:61-81 | Whatever the register held, a masked write keeps the bits outside the mask, and the field reads back as the value written, as far as the mask has bits |
| `Masks.FieldReadsBack` | register.go:61-81 | A contiguous field of a given width reads back as the value modulo 2^width |
| `Masks.MaskedWriteAgrees` | target.go:275-284 | On a given register content MaskedWrite and WriteMask differ exactly when the shifted value has a bit outside the mask that the register has not |
| `Masks.MaskedWriteKeepsOthers` | target.go:275-284 | MaskedWrite leaves the other bits alone on every register content exactly when the shifted value lies inside the mask |
| `Masks.MaskedWriteOnDevice` | target.go:275-284 | One RMWbits operation with the masked terms returns the old word and leaves the register as the terms say |
| `AddressTable.Table.ParseRegFile` | parser.go:104-223 | The token loop, updating its fields in place and nesting files, is the walk of the model |
| `AddressTable.Table.ReadTag` | parser.go:136-173 | The attribute loop |
| `TableMeaning.ReadTidy` | parser.go:136-173 | The attribute loop collects the same from a tag in whatever order its attributes stand, with any number of attributes it does not know: at most one each of id, address, mode, and of mask, module or fwinfo |
| `TableMeaning.FileWalk` | parser.go:104-223 | For every file, nested or not, block root or not: it is read to its end and adds exactly the registers Found lists, with names, addresses and masks |
| `TableMeaning.RegWalk` | parser.go:186-212 | A register with its masks: the dotted name is restored behind it, and the pending register is the one its tag says |
| `TableMeaning.BlockWalk` | parser.go:178-212 | A block with its registers, likewise: its own register has the tag's address, size and port flag, and addresses count from the block |
| `TableMeaning.PopPush` | parser.go:148-211 | Leaving a node restores the dotted name |
| `TableExact.TableIff` | parser.go:104-223 | For every top-level file whose walk meets different names: it is read without error, the map holds exactly what Found lists, and that is the tree's table exactly if every nested root is a block, every register behind a block has that block at its root's offset, and no root with blocks or modules below it has an address of its own |
| `TableExact.DocFound` | parser.go:104-223 | The same for one file at the top or nested anywhere: what the walk finds is the tree's list of registers exactly if the file meets that condition |
| `TableExact.TableIsTree` | parser.go:104-223 | Name by name: a file that meets the condition gives exactly the registers of its tree |
| `TableExact.NestedPlainRoot` | parser.go:186-205 | A module file whose root is no block: the root becomes a register at address 0, and a register below it counts from 0 instead of the module's address |
| `TableExact.LateRegister` | parser.go:186-193 | A register behind a block counts from that block: it gets the tree's address exactly if the block is at offset 0 |
| `TableSample.SampleTable` | parser.go:104-223 | A file with a module, a block, a register and a mask, for all ids, addresses, sizes and mode: the table holds exactly the three registers with the names joined by dots, the sums of the addresses, the block's port flag and size, and the mask |
| `TableTrouble.ReadsExact` | parser.go:104-223 | How reading a file ends - to its end, unreadable or in a panic - is what its tags and the files they name say; a missing file is unreadable and adds nothing |
| `TableTrouble.ReadsComplete` | parser.go:104-223 | It is read to its end exactly if it is there, every file it names is read to its end, and no mask tag stands before the first register tag |
| `TableTrouble.MaskFirst` | parser.go:104-223 | For a whole file of tidy tags: reading it panics exactly if a mask tag stands before the first register tag, or a nested file panics, with no tag before it that the walk does not get past |
| `TableTrouble.FileAlike` | parser.go:199-205 | How a file is read - to its end, not at all, or into a panic - depends on the file alone, not on its name, base address or what was found before |
| `TableTrouble.FirstRegister` | parser.go:123-212 | In a file that begins with a root and a register: the register has the tree's name exactly if the root has an id, and the file's name otherwise; the dotted name behind it is the file's again exactly if the root has an id or the file has no name, and has lost its last part otherwise |
| `Hardware.Hw.SendFirst` | hw.go:275-293 | One round of the sendnext loop is the model's round: queue, packet logs, wire, flying log, inflight and timer |
| `Hardware.Hw.ReturnFirst` | hw.go:350-370 | One round of the returnreply loop hands back the oldest reply and forgets it |
| `Hardware.Hw.TakeDown` | hw.go:491-497 | Taking a packet out of flight moves the timer before the flying log changes |
| `Hardware.Hw.Listed` | hw.go:172-188 | The loops find out whether the timed-out id is among the reported headers |
| `Hardware.Hw.Repair` | hw.go:170-238 | The three-way decision on a lost packet is the model's: a re-send request for an answered packet, the packets again for an unknown one, a panic exactly for one received but not answered; `LostReply` and `LostRequest` say what it puts on the wire |
| `Targets.Target.Room` | target.go:118-123 | A new packet is started exactly if the last one has too little of its 368 words left; the others stay |
| `Targets.Target.Put` | transaction.go:190-266 | Adding to the last packet leaves the other packets alone |
| `Targets.Target.NextRead` | target.go:117-140 | What is left after one piece of a read prepares to the same packets as before |
| `Targets.Target.NextWrite` | target.go:144-173 | What is left after one piece of a write prepares to the same packets as before |
| `Targets.Target.AddSingle` | target.go:174-191 | A read-modify-write goes into one packet as a whole, within its budgets |
| `PacketObject.Packet.constructor` | transaction.go:170-188 | A new packet is empty but for the space of its header |
| `PacketObject.Packet.Reserve` | transaction.go:190-233 | The checks of add, the 8-bit one included, and the space taken |
| `PacketObject.Packet.DataBytes` | transaction.go:234-266 | Address and input words become bytes in the packet's order |
| `PacketObject.Packet.ParseItem` | transaction.go:86-124 | One reply item: code, words in the form asked for, and the bytes consumed |
| `PacketObject.Packet.ParseRound` | transaction.go:77-124 | One round of the reply loop consumes at least one byte, panics or spins |
| `StatusPackets.ReadHeaders` | hw_stuff.go:44-67 | The loop over a packet history keeps the valid headers in order |

## Left out

- Sockets, goroutines, blocking channels and `select`: steps are atomic, channels are sequences of operations.
- Durations, tickers and rate reports: a timeout is an event that may happen at any time, also when no packet is
  in flight.
- Failing writes to the connection.
- `ConfigDevice` and its start-up concurrency: runs begin with the device's next id known.
- Replies with packet id 0: they reach the model as status replies carrying the two id histories. Status replies
  shorter than 64 bytes are left out, since reading one panics.
- The goroutine behind `packetlog`: the log is a map.
- `tracker`, the list of returned ids and the other diagnostics: nothing depends on them.
- XML tokenising, number syntax, file paths and file access: a file is its list of tags with values already read,
  a module tag carries the file it names, and a file that cannot be opened is `Unreadable`.
- TableMeaning.FileWalk: every node has one id, since the tree's names are made of them; `FirstRegister` says what
  a root without one does to the names.
- TableExact.DocFound: every node has one id, as above.
- TableExact.TableIff: every node has one id, as above.
- TableExact.TableIsTree: every node has one id, as above.
- Other address-table nodes outside the tree: registers, blocks or modules without an address, blocks below
  blocks, registers below registers, and masks outside a register. The walk itself (`ParseRegFile`) covers them;
  the tree gives them no meaning.
- Status replies kept in the `statuses` channel for a later handler, as said above; with ten of them waiting the
  next one blocks `Run`.
- Devices that stop answering in the middle of a packet: in `FullStackAnswers` every transaction is answered, with
  any code. `ReplyRoundTrip` covers replies to a prefix of the transactions.
- A reply that makes `parse` panic or spin inside a reply step: the window engine carries replies unopened, and
  `ParseExact` says which replies those are.
- Changes of `MaxPacketSize` at run time: it is 1500.
- The difference between a nil and an empty slice.
- connectionmanager.go, dummy.go, license.go, printing, and the parser's unused types.
- The decoding of a reply's packet header in `Run` (hw.go:469-474): a reply event carries the id already read; an
  undecodable header keeps the id of the previous decode there.
