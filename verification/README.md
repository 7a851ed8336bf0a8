# Verified model of vilan-peer

vilan-peer is a virtual-LAN client. Its Go code carries its own copy of a netty-style network stack
(a handler pipeline, codecs, channels, a worker pool) and, on top of it, a service that punches direct
peer-to-peer connections through NATs. This project models the parts of that code where most of the
state, branching and arithmetic is, and proves what they do on every input, in every run and in every
reachable state.

`dafny verify dfyconfig.toml` checks the whole project.

| module | what it models |
|---|---|
| `Bits` | machine words as naturals, bitwise operators defined bit by bit |
| `Varint` | the base-128 integers of frame headers |
| `FrameReassembly`, `FrameDecoder` | cutting a TCP byte stream into frames: the meaning of a read and all runs of reads; the codec object with its loop |
| `WorkerPool`, `WorkerPoolSafety`, `WorkerPoolOrder`, `WorkerPoolShutdown` | dispatcher, workers, ticker and callers as interleaved steps over channel contents; what every schedule keeps; the order of its channels; when a shutdown can still finish and when a caller can still panic |
| `P2pModel`, `P2pRuns`, `P2pRetry`, `P2pEviction`, `P2pHandshake`, `P2pTraffic`, `P2pMaps`, `P2pService` | the hole-punching service: operations, runs, retry budget, eviction, the two-peer handshake, every message it sends, what becomes of every map entry, and the service object |
| `Pipeline` | the doubly linked handler list, its lookups and event walks |
| `CloseCascade` | the re-entrant closing of a channel by any number of goroutines |
| `WriteBatching` | merging queued packets and cutting them apart again |
| `LengthField` | the length-field codec under wrapping 64-bit arithmetic |
| `Icmp` | ICMP echo messages and their checksum |
| `BlockPadding` | padding and block loops around an abstract block cipher |
| `LinkPaging` | the paged link-list answer and its reassembly |

How the Go code is read:

- A panic is a result (`Recovered`, `Panic`, `false`, `crashed`), and a deferred `recover` is what follows it.
- Goroutines become steps: one step is one channel operation or one compare-and-swap, and any enabled
  step of any goroutine may come next. A run is a list of steps.
- Dialling, the clock, the order in which a `sync.Map` range presents its keys, socket errors and the
  outcome of unmarshalling are parameters, so every statement holds for all of them.
- Fixed-width integers are naturals or integers with the wrap-around written out.
- Where a method changes state step by step it is a Dafny method with loops on fields or arrays, tied by
  its contract to a function whose laws are proved beside it.

## Where the code departs from what it promises

Each of these is stated for all inputs, with the exact condition under which the promise holds.

- The comment of `Uvarint32` promises an error for values above 32 bits. Some five- and six-byte headers are
  accepted and cut to 32 bits instead: `Varint.SilentTruncationIff`.
- The frame decoder loses an empty payload, a one-byte payload equal to the first type mark, and whatever
  follows them in their read; and a header above 2 MiB blocks it for good: `FrameReassembly.ReassemblyExact`,
  `FrameReassembly.FirstBadPayload`, `FrameReassembly.OversizeHeaderWedges`. For other byte streams the cuts
  between reads do matter when a header is padded to six bytes: `FrameReassembly.CutsDoNotMatterIff`.
- A stopped pool may never close `closedSignal`: if it has a buffered queue and no worker, and a task is
  queued or still on its way when the dispatcher turns to its drain, the drain waits for a worker for ever.
  From which states some schedule gets there, and so from which states every schedule that runs until
  nothing moves does close it: `WorkerPoolShutdown.CanStrandIff`, `WorkerPoolShutdown.AlwaysClosesIff`. In
  which states it can close at all: `WorkerPoolShutdown.CanCloseIff`. A caller of `AddTask` that passed its
  check before the stop may send on the closed queue and panic: `WorkerPoolShutdown.CanCrashIff`.
- `postCloseEvent` may use the pipeline after `Close` has set it to nil, exactly if one goroutine reports a
  failure first of all and another closes: `CloseCascade.NilPipelineIff`. A reported failure closes the channel exactly
  if no handler can let it come to nothing: `CloseCascade.AlwaysClosesIff`.
- Ten failures block a MAC only as long as the 32-bit count has not wrapped: `P2pRetry.BlockedIff`.
- A try frame whose source is neither being tried nor the connection's own peer is filed under a foreign
  MAC: `P2pRuns.TryKeepsLiveFiledIff`, `P2pHandshake.ForeignTryExample`.
- AES keys above 16 bytes cannot encrypt at all, because the key doubles as the initial vector:
  `BlockPadding.AesRoundTrip`.
- Link pages that reuse the remembered cookie without a clearing step are appended to the old list:
  `LinkPaging.RebuiltIff`.

## Model

| member | source | states |
|---|---|---|
| Varint.PutUvarint32 | netty/utils/binary.go:5-14 | the loop writes exactly the canonical encoding into the front of the buffer and leaves the rest of the buffer alone |
| Varint.Uvarint32 | netty/utils/binary.go:23-37 | for every byte string: count 0 iff no terminator, negative iff the first terminator is past index 5 or above 1 at index 5, otherwise the base-128 value modulo 2^32 and the bytes read |
| Varint.RoundTrip | netty/utils/binary.go:5-37 | an encoding decodes to its number and its own length whatever bytes follow |
| Varint.PrefixIncomplete | netty/utils/binary.go:16-37 | every proper prefix of an encoding is reported incomplete |
| Varint.EncodedLength | netty/utils/binary.go:5-14 | n bytes suffice for exactly the numbers below 128^n |
| Varint.Minimal | netty/utils/binary.go:5-37 | no shorter byte string, padded or truncated ones included, decodes to the same number |
| Varint.DecodedStable | netty/utils/binary.go:23-37 | more input never changes the reading of a header that had its terminator |
| Varint.SilentTruncationIff | netty/utils/binary.go:16-32 | exactly which terminated strings are accepted although their value needs more than 32 bits |
| Varint.SilentTruncationExample | netty/utils/binary.go:16-32 | a six-byte string for 2^35 that decodes to 0 without error |
| FrameReassembly.AnyBytesRest | serial/protocol/protobuf.go:76-160 | after any reads of any bytes the decoder is in one of the listed resting states and has handed on only frames its type test and handlers survive |
| FrameReassembly.OversizeHeaderWedges | serial/protocol/protobuf.go:85-90 | once a header announces more than 2 MiB nothing is ever handed on again and every byte is kept |
| FrameReassembly.DealMerges | serial/protocol/protobuf.go:76-160 | reading two chunks at once equals reading one and then the other, unless the first read panics |
| FrameReassembly.CutsDoNotMatterIff | netty/codec/format/protobuf.go:94-215 | bytes that one read survives give the same result under every way of cutting them into reads if and only if none of the headers in them takes more than five bytes |
| FrameReassembly.CutsMatterExample | netty/codec/format/protobuf.go:113-120 | with a padded header the cut does matter: one read succeeds, a shorter one panics |
| FrameReassembly.ReassemblyExact | serial/protocol/protobuf.go:38-160 | for every list of payloads and every way of cutting their framed stream into reads, the decoder hands on exactly those payloads in order and ends empty if and only if every payload is deliverable |
| FrameReassembly.OrdinaryPayloadsArrive | serial/protocol/protobuf.go:38-160 | so payloads of up to 2 MiB that no handler faults on arrive under every cutting, if none is empty or the first type mark alone; two bytes and more always suffice |
| FrameReassembly.OtherPayloadsFail | serial/protocol/protobuf.go:85-113 | an empty payload, the first type mark alone and one a handler faults on reset the decoder and lose what follows; one above 2 MiB is kept with all that follows |
| FrameReassembly.FirstBadPayload | serial/protocol/protobuf.go:85-138 | one read of a stream hands on exactly the payloads in front of the first undeliverable one, and then drops the rest of the read, or keeps it for ever behind a header above the limit |
| FrameReassembly.EmptyPayloadLosesNeighbours | serial/protocol/protobuf.go:99-130 | so an empty payload resets the decoder and takes a valid payload behind it in the same read with it |
| FrameReassembly.DealTurn | serial/protocol/protobuf.go:115-138 | one turn of the loop moves one surviving frame from buffer to output, or resets |
| FrameDecoder.Codec.constructor | serial/protocol/protobuf.go:15-32 | a new codec holds no bytes and awaits no frame |
| FrameDecoder.Codec.HandOn | serial/protocol/protobuf.go:103-113 | the short-circuit type test panics exactly on an empty frame and on the first mark alone; the frame goes to the typed branch exactly if it starts with both marks |
| FrameDecoder.Codec.HandleRead | serial/protocol/protobuf.go:65-72 | one read changes buffer and frame length and hands on frames as the reference reading says, and leaves a resting state |
| FrameDecoder.Codec.ReadAndDeal | netty/codec/format/protobuf.go:104-215 | the whole branch structure, panics and recovery included, computes the one-frame-at-a-time reference |
| FrameDecoder.Codec.DealMany | netty/codec/format/protobuf.go:152-212 | the loop over several frames in one buffer computes the same reference, terminating on any bytes |
| FrameDecoder.Codec.TakeLast | netty/codec/format/protobuf.go:127-151 | a buffer that is exactly one frame empties the codec and hands the frame on, or resets |
| FrameDecoder.Codec.Recover | netty/codec/format/protobuf.go:105-110 | recovery leaves an empty codec |
| FrameDecoder.Codec.HandleWrite | serial/protocol/protobuf.go:205-217 | header and payload, with the length cut to 32 bits, as two buffers |
| WorkerPool.Configure | netty/utils/worker_pool.go:37-45 | at least one idle worker and no fewer workers in all than idle ones |
| WorkerPoolSafety.StepKeepsInv | netty/utils/worker_pool.go:105-233 | every step of every goroutine keeps channels, counts and the dispatcher's stage in order, and only a late AddTask can panic |
| WorkerPoolSafety.RunKeepsGood | netty/utils/worker_pool.go:105-233 | so does every schedule, together with the ledger of every task |
| WorkerPoolSafety.EveryTaskInOnePlace | netty/utils/worker_pool.go:105-233 | under every schedule an accepted task is in exactly one of queue, dispatcher's hand, worker channel, running and done, and no task is begun twice |
| WorkerPoolSafety.ChannelSafety | netty/utils/worker_pool.go:127-233 | each worker channel is offered at most once and is empty and open when taken, the dispatcher's sends never block or panic, workerCount counts the workers not told to exit within its maximum, and trimming stops at idleWorkers |
| WorkerPoolSafety.HandIsEmpty | netty/utils/worker_pool.go:141-169 | the worker in the dispatcher's hand is waiting at an open, empty channel |
| WorkerPoolSafety.ClosedMeansFinished | netty/utils/worker_pool.go:180-203 | once closedSignal closes every worker has its exit order, every task begun has finished, and what was accepted is done or still in the queue |
| WorkerPoolOrder.FirstInFirstOut | netty/utils/worker_pool.go:135-169 | under every schedule the queue holds the most recently accepted tasks in order and within its capacity, and the dispatcher holds the one accepted just before them; the same of offered workers |
| WorkerPoolOrder.EarlierLeavesFirst | netty/utils/worker_pool.go:135-189 | of two accepted tasks the earlier is never in the queue when the later has left it |
| WorkerPoolOrder.TrimsTheSurplus | netty/utils/worker_pool.go:159-179 | a trimming pass ends with the idle number of workers, or with none on offer |
| WorkerPoolOrder.TrimPass | netty/utils/worker_pool.go:159-179 | a tick with a surplus lets the dispatcher dismiss every offered worker down to the idle number |
| WorkerPoolOrder.StartedOnlyWhenNeeded | netty/utils/worker_pool.go:141-155 | a worker is started only for a task in hand, with none on offer and below the maximum |
| WorkerPoolShutdown.LetOffer | netty/utils/worker_pool.go:208-233 | with no worker on offer any live worker reaches readyWorkers by its own steps, disturbing nothing else |
| WorkerPoolShutdown.MoveProgresses | netty/utils/worker_pool.go:127-206 | the dispatcher always has a move that brings a cancelled pool closer to closing |
| WorkerPoolShutdown.ClosingRun | netty/utils/worker_pool.go:180-203 | from every cancelled, unstranded state some schedule closes closedSignal while every caller stands still |
| WorkerPoolShutdown.StrandedForever | netty/utils/worker_pool.go:183-189 | a drain with a task in hand and no worker never closes closedSignal under any schedule |
| WorkerPoolShutdown.CanStrandIff | netty/utils/worker_pool.go:180-189 | from a reachable state some schedule strands the drain without a worker if and only if the queue is buffered, there is no worker, and a task is or may still come before a dispatcher that is or may still come to its drain |
| WorkerPoolShutdown.AlwaysClosesIff | netty/utils/worker_pool.go:85-103 | from a reachable state every schedule that runs until nothing moves has closed closedSignal, or let a late caller panic, if and only if that is not so |
| WorkerPoolShutdown.CanCloseIff | netty/utils/worker_pool.go:85-103 | and some schedule closes it if and only if the pool is not already draining a task with no worker |
| WorkerPoolShutdown.CanCrashIff | netty/utils/worker_pool.go:105-114 | in every reachable state without a panic some schedule makes a caller of AddTask send on the closed queue if and only if the pool is not stopped yet, or a caller is past its check and the pool is not stranded |
| WorkerPoolShutdown.LateCallerExample | netty/utils/worker_pool.go:105-114 | the eight-step schedule that does so, for every configuration |
| WorkerPoolShutdown.ShutdownTerminates | netty/utils/worker_pool.go:180-204 | once the dispatcher has seen the shutdown every schedule, however unfair, has no more steps than the effort left |
| WorkerPoolShutdown.StepWinds | netty/utils/worker_pool.go:180-233 | because every step of any goroutine, late callers included, lowers that effort or panics |
| WorkerPoolShutdown.SomethingMoves | netty/utils/worker_pool.go:127-233 | and at every stage until closedSignal is closed some goroutine of the pool can move, unless the drain waits for a worker and there is none |
| WorkerPoolShutdown.StrandedExample | netty/utils/worker_pool.go:180-189 | four steps lead to a stranded pool for every configuration with a buffered queue |
| P2pRuns.StepKeepsFiled | service/p2p_service.go:223-451 | every operation keeps punch sockets and attempts filed under their own MAC, everything filed connected, and every context's MAC and handler |
| P2pRuns.OnlyAcksCreate | service/p2p_service.go:314-350 | only an ack creates a context, one at a time, and a connected one only if it was valid and found a punch socket of known address |
| P2pRuns.EveryContextWasAcked | service/p2p_service.go:314-350 | in every reachable state each context filed as attempting and each filed as established, also when a MAC has both, goes back to such an accepted ack in the run |
| P2pRuns.Origin | service/p2p_service.go:314-350 | finds that ack for any connected context |
| P2pRuns.PunchNeverOverwritten | service/p2p_service.go:223-271 | no operation of any kind replaces a punch entry: one that is on file before and after is the same |
| P2pRuns.PunchSameUntilDropped | service/p2p_service.go:223-271 | so over every run a punch entry is the same one until it is dropped |
| P2pRuns.TryKeepsLiveFiledIff | service/p2p_service.go:370-390 | a try frame keeps the established map keyed by peer MAC exactly when its source is being tried or is the connection's peer |
| P2pRuns.HonestRunsStayFiled | service/data_handler.go:53-67 | while sources are honest the established map stays keyed by peer MAC over every run |
| P2pHandshake.ForeignTryExample | service/data_handler.go:63-67 | a run from cold start whose last event, a try that names another source, breaks the keying |
| P2pRuns.LiveOnlyShrinks | service/p2p_service.go:370-390 | only a try frame adds or replaces an established entry |
| P2pRuns.ExhaustDrops | service/p2p_service.go:126-131 | giving attempts up removes exactly them and their punch sockets and records failures for exactly them |
| P2pRetry.TickOnAttempt | service/p2p_service.go:109-131 | a tick tries an attempt below the limit once more, and drops one at the limit with its punch socket at the price of exactly one failure; other MACs are untouched, in whatever order the range runs |
| P2pRetry.StepWithinLimit | service/p2p_service.go:109-131 | no operation lets a context be tried more than P2pTryCount times |
| P2pRetry.AttemptsEnd | service/p2p_service.go:109-131 | without a new ack for its MAC an attempt is gone after at most P2pTryCount + 1 running ticks, whatever else happens |
| P2pRetry.StepCounts | service/p2p_service.go:439-451 | an operation that does not pardon a MAC raises its failure count exactly if it is an invalid ack, a refused dial of a new punch socket, or a tick on a used-up attempt of that MAC |
| P2pRetry.FailuresCounted | service/p2p_service.go:439-451 | over every run the failure count is the number of failures since the last state change, deletion, reset or restart, modulo 2^32 |
| P2pRetry.BlockedIff | service/p2p_service.go:174-221 | at the end of every run forwarded packets for a peer that is neither established nor being tried start nothing, whatever the time, if and only if that number modulo 2^32 is at least ten |
| P2pRetry.WrappedCountExample | service/p2p_service.go:200-221 | a run of 2^32 failures after which a forwarded packet punches again |
| P2pEviction.TickOnEstablished | service/p2p_service.go:81-107 | a tick keeps an established peer exactly when it is not given up, and counts its ping if it was quiet, in whatever order the range runs |
| P2pEviction.HeardPeersStay | service/p2p_service.go:81-107 | over every run of honest senders, a peer whose connection was heard within Heartbeat + 2 seconds before every tick stays established, when Offline is at least that and nothing takes the connection away outright |
| P2pEviction.QuietTickIff | service/p2p_service.go:85-94 | a quiet tick spares a peer exactly if fewer than three pings are unanswered |
| P2pEviction.SilentPeersGo | service/p2p_service.go:81-107 | a silent peer is no longer established after four running ticks, whatever idle events and other traffic interleave |
| P2pHandshake.StepSpeaks | service/p2p_service.go:353-390 | every operation keeps a context's timed tries equal to its try count and its replies at most one, none while it is an attempt |
| P2pHandshake.TryTrafficBounded | service/p2p_service.go:353-390 | in every run a context sends at most P2pTryCount timed tries and one reply |
| P2pHandshake.RepliesOnlyOnPromotion | service/p2p_service.go:370-383 | a reply is sent only by the event that moves its context from attempt to established |
| P2pHandshake.EstablishedMeansAcked | service/data_handler.go:63-67 | over a lossy, duplicating network, a side that holds the other as established has a counterpart whose history contains an accepted ack for it |
| P2pHandshake.OneTryAndOneReplySuffice | service/p2p_service.go:370-390 | wherever a joint run has got to, if each side is trying the other and one has sent a try, delivering that try and the reply to it leaves each side holding the other as established on the context it was trying |
| P2pHandshake.HandshakeExample | service/p2p_service.go:294-390 | for every pair of configurations with a punch life and a try limit there is a joint run from cold start in which each side ends up holding the other as established |
| P2pTraffic.TrafficExact | service/p2p_service.go:80-390 | over every run each message was sent exactly as often as the events ask for: data per forwarded packet of an established peer, pong per ping, reply per promotion, try per tick on an attempt below its limit, ping per idle event, accepted ack and quiet tick, trigger per punch |
| P2pTraffic.StepSays | service/data_handler.go:35-99 | one event sends each message as often as it should |
| P2pTraffic.ContextRemembers | service/data_handler.go:35-44 | over every run a context holds when it was last heard, the pings sent since, and the number of its tries |
| P2pTraffic.StepRemembers | service/p2p_service.go:81-131 | what one event does to a context, its connected flag included |
| P2pTraffic.TickEnds | service/p2p_service.go:81-107 | a tick ends exactly the connections under the MAC of a context it gives up, under whatever keys that is filed |
| P2pMaps.EstablishedChanges | service/p2p_service.go:370-437 | apart from ticks a connection comes exactly with a try frame that names the MAC and goes exactly with a stop, reset, restart or state change |
| P2pMaps.AttemptChanges | service/p2p_service.go:314-437 | apart from ticks an attempt comes exactly with an accepted ack, on its new context, and goes exactly with a refused one, a promotion, a stop, reset, restart or state change |
| P2pMaps.PunchChanges | service/p2p_service.go:223-292 | a punch socket comes exactly when punching finds none and dials, and goes exactly with a reset, a restart, a failure or punching after its life |
| P2pMaps.PunchOrigin | service/p2p_service.go:245-271 | every punch socket holds the time and address of the event that dialled for it |
| P2pMaps.FailureTimes | service/p2p_service.go:439-451 | a recorded failure holds the time of its event, and only a pardon touches the record otherwise |
| P2pMaps.ForwardActsIff | service/p2p_service.go:200-243 | exactly when a forwarded packet for a peer that is not established changes anything |
| P2pMaps.StepRuns | service/p2p_service.go:46-64 | the service runs from a start to a stop |
| P2pService.Service.constructor | service/p2p_service.go:42-45 | a new service holds nothing, does not run and is in order |
| P2pService.Service.Start | service/p2p_service.go:46-59 | starting clears the four maps unless already running |
| P2pService.Service.TryForwardMessage | service/p2p_service.go:174-197 | new state as specified; true exactly if the peer is established, and then the packet and nothing else went out on its connection; otherwise at most a trigger did |
| P2pService.Service.IsNeedP2P | service/p2p_service.go:200-221 | true exactly for a known unicast MAC that is not being tried and whose failures allow it |
| P2pService.Service.StartPunch | service/p2p_service.go:223-243 | keeps a fresh punch socket, re-triggering on request, drops a stale one, and dials only when there is none |
| P2pService.Service.NewPunchSock | service/p2p_service.go:245-271 | a refused dial leaves a failure and no socket, an accepted one a triggered socket whose address may be unknown |
| P2pService.Service.SendP2PTrigger | service/p2p_service.go:273-292 | triggers on a fresh punch socket, drops a stale one |
| P2pService.Service.ProcessP2PTrigger | service/p2p_service.go:294-311 | punches back for a unicast MAC that is neither tried nor established, and otherwise changes nothing |
| P2pService.Service.ProcessP2PAck | service/p2p_service.go:314-350 | an invalid ack costs a failure, one without a usable punch socket does nothing, a refused dial ends the attempt, an accepted one files a connected attempt |
| P2pService.Service.SendP2PTry | service/p2p_service.go:353-367 | counts a try of the MAC's attempt and sends it, or drops an attempt without a handler |
| P2pService.Service.P2PSuccess | service/p2p_service.go:370-390 | promotes the attempt of that MAC and replies, or files the connection itself |
| P2pService.Service.PeerStateChanged | service/p2p_service.go:391-407 | forgets failures, attempt and connection of the MAC |
| P2pService.Service.DeleteFailedP2P | service/p2p_service.go:416-418 | forgets the failures of the MAC and nothing else |
| P2pService.Service.Stop | service/p2p_service.go:61-172 | stops running and drops attempts and connections, keeping punch sockets and failures |
| P2pService.Service.ResetP2PSocks | service/p2p_service.go:420-437 | empties the four maps |
| P2pService.Service.SaveFailPunchInfo | service/p2p_service.go:439-451 | one more failure modulo 2^32, and no punch socket |
| P2pService.Service.HandleRead | service/data_handler.go:35-75 | a frame refreshes its context and dispatches on its type |
| P2pService.Service.HandleIdle | service/data_handler.go:93-99 | an idle event counts and sends a ping on a connected context |
| P2pService.Service.StateCheck | service/p2p_service.go:80-132 | the two ranges and the two removal loops compute the specified tick and keep the filing |
| P2pService.Service.CheckEstablished | service/p2p_service.go:83-101 | the range over established contexts computes its specification |
| P2pService.Service.CheckAttempts | service/p2p_service.go:109-125 | the range over attempts computes its specification |
| P2pService.Service.DropAttempts | service/p2p_service.go:126-131 | the removal loop computes its specification |
| Pipeline.Pipe.constructor | netty/pipeline.go:70-90 | a new pipeline is head and tail |
| Pipeline.Pipe.Splice | netty/pipeline.go:134-146 | one new context between two neighbours: links stay mutual inverses, size and sequence follow |
| Pipeline.Pipe.AddFirst | netty/pipeline.go:101-106 | the accepted handlers go in behind the head in reverse order; a rejected handler stops it there |
| Pipeline.Pipe.AddLast | netty/pipeline.go:109-114 | the accepted handlers go in before the tail in order |
| Pipeline.Pipe.AddHandler | netty/pipeline.go:117-149 | for every position, negative ones included: inserts in order after it, before the tail for -1 and the last position; a rejected call changes nothing |
| Pipeline.Pipe.InsertFrom | netty/pipeline.go:134-146 | the insertion loop puts the handlers in order at the slot |
| Pipeline.Pipe.IndexOf | netty/pipeline.go:152-166 | the first position whose handler satisfies the test, or -1 if none does |
| Pipeline.Pipe.LastIndexOf | netty/pipeline.go:169-183 | the last such position, or -1 |
| Pipeline.Pipe.ContextAt | netty/pipeline.go:186-198 | the context at the position of the sequence, null for -1 and beyond the end |
| Pipeline.Pipe.WalkForward | netty/context.go:168-181 | a forward event visits the handlers of its kind behind a context in ascending order, each once, up to the first that does not forward |
| Pipeline.Pipe.WalkBackward | netty/context.go:183-226 | a backward event visits those before it in descending order |
| Pipeline.Pipe.FireRead | netty/pipeline.go:268-270 | a read visits the inbound handlers between the sentinels in ascending order, up to the first that stops, and never the tail |
| Pipeline.Pipe.FireWrite | netty/pipeline.go:273-275 | a write visits the outbound handlers in descending order, the head last |
| Pipeline.Pipe.FireInactive | netty/pipeline.go:283-285 | an inactive event visits its handlers in descending order, the head last |
| Pipeline.Pipe.FireException | netty/pipeline.go:278-280 | an exception visits its handlers in ascending order, the tail last |
| Pipeline.SelectAscending | netty/context.go:168-181 | the handlers visited stand at ascending positions and are all those of the kind |
| Pipeline.SelectReversed | netty/context.go:168-196 | writes meet the handlers of a kind in exactly the opposite order of reads |
| CloseCascade.CascadeTerminates | netty/channel.go:137-148 | however each handler reacts each time, and however goroutines interleave, a closing cascade has no more steps than its initial budget |
| CloseCascade.StepSpends | netty/context.go:101-119 | every call weighs more than the calls it leads to |
| CloseCascade.AtMostOnce | netty/channel.go:137-148 | however many callers race, the transport is closed and the inactive and the exception event fired at most once, and when all is quiet the first two exactly once iff the channel is closed |
| CloseCascade.ClosingIsHeard | netty/context.go:213-226 | whoever called and whatever else happened, once all is quiet after a Close every handler that listens to the inactive event has met it if those between it and the tail pass it on |
| CloseCascade.ReportIsHeard | netty/context.go:198-211 | the same of a fired exception, towards the tail |
| CloseCascade.CloseFollowsScript | netty/channel.go:137-148 | when every handler forwards once, any number of Close calls end with transport, event, every listening handler from the last down to the head, and pipeline, each once and in this order |
| CloseCascade.ChainIs | netty/context.go:213-226 | those handlers are exactly the listening ones, in descending order, the head last |
| CloseCascade.AlwaysClosesIff | netty/channel.go:263-271 | callers, each with any calls of Close and postCloseEvent to make, can count on the channel being closed once all calls have run out if and only if one of them closes, or the exception walk leads to Close however the handlers react |
| CloseCascade.EveryReportCloses | netty/channel.go:263-271 | and then the transport was closed and the inactive event fired exactly once |
| CloseCascade.ResponsiveCloses | netty/handler.go:189-203 | handlers that never swallow an event are enough for that |
| CloseCascade.LeadsOn | netty/handler.go:189-203 | each call under way to Channel.Close leads to another one or closes |
| CloseCascade.SwallowedExceptionExample | netty/context.go:198-211 | a handler that sometimes swallows the exception may leave the channel open |
| CloseCascade.NilPipelineIff | netty/channel.go:137-148 | whatever the pipeline and its handlers, some schedule of the callers uses the nil pipeline if and only if one goroutine reports a failure before it does anything else and another one closes |
| CloseCascade.Race | netty/channel.go:263-271 | the schedule that does so |
| WriteBatching.Writer.Merge | netty/channel.go:221-246 | the loop merges the first packet with as many queued ones as there are and the bound allows, recording the buffer count after each |
| WriteBatching.Writev | netty/transport/udp/transport.go:35-54 | one datagram per recorded slice in order, stopping at the first error, counting the bytes taken |
| WriteBatching.CutUndoesMerge | netty/channel.go:221-246 | cutting the merged buffers at the recorded indexes gives back the packets one for one, empty ones included |
| WriteBatching.SentIsPrefix | netty/channel.go:112-260 | over every run what was sent is the prefix of what was accepted that the transport reported, nothing is lost while no send fails, and no batch exceeds max(2, capacity) |
| WriteBatching.BatchesAreFull | netty/channel.go:221-246 | a batch goes out only when the queue is empty or the batch full |
| LengthField.AcceptedMeans | netty/codec/frame/length_field.go:40-46 | the constructor's checks put the header inside the frame limit without wrap-around |
| LengthField.FieldRoundTrip | netty/codec/frame/length_field.go:121-152 | a packed length reads back modulo the field's range, for both byte orders and widths 1, 2, 4 and 8 |
| LengthField.PackByte | netty/codec/frame/length_field.go:134-152 | most significant byte first in big-endian order, least significant first in little-endian order |
| LengthField.HandleRead | netty/codec/frame/length_field.go:75-119 | consumes and hands on what the reference decoding says, and panics exactly when it does |
| LengthField.AcceptedLengthIsExact | netty/codec/frame/length_field.go:90-103 | under wrapping arithmetic the checks accept exactly the lengths whose mathematical value lies between header end and maximum, and then the length is that value |
| LengthField.DecodeBehindField | netty/codec/frame/length_field.go:75-119 | decoding behind a bare, stripped field takes the adjusted number of bytes or what the stream has left |
| LengthField.DecodeAnywhere | netty/codec/frame/length_field.go:75-119 | for every offset and strip a frame whose field announces its body decodes to the frame without the stripped bytes, or panics if it is above the limit or shorter than what is stripped |
| LengthField.DecodeOne | netty/codec/frame/length_field_prepender.go:51-65 | a prepended body decodes to itself and leaves what follows if and only if it fits, or is the last on the stream and its negative announced length still reads as a length within the limit |
| LengthField.StreamRoundTrip | netty/codec/frame/length_field_prepender.go:51-65 | a whole stream of prepended bodies decodes back to them with nothing left over if and only if every body fits so, for all adjustments that cancel |
| Icmp.Accumulate | common/ping.go:44-51 | the loop, odd last byte included, computes the sum of little-endian words modulo 2^32 |
| Icmp.Marshal | common/ping.go:31-59 | header, body and the folded, inverted sum in its place; none for the IPv6 kinds |
| Icmp.OnesSumIs | common/ping.go:44-53 | end-around carry is the sum modulo 65535, with 65535 for nonzero multiples |
| Icmp.ChecksumValidIff | common/ping.go:31-59 | the network-order ones'-complement sum of the marshalled bytes is 0xFFFF if and only if the accumulator's wraps are a multiple of 65535 |
| Icmp.ChecksumValid | common/ping.go:31-59 | up to 131,074 bytes the accumulator cannot wrap and the sum is always 0xFFFF |
| Icmp.EchoRoundTrip | common/ping.go:62-114 | parsing a marshalled echo gives back kind, code, data and the low 16 bits of id and sequence, hence everything exactly when code, id and sequence fit |
| Icmp.ParsedMarshals | common/ping.go:62-114 | for all bytes: which are too short, which panic, and that the others marshal back to the same bytes but for the checksum, which is read from its place |
| Icmp.MarshalledShape | common/ping.go:31-79 | kind, code, identifier, sequence number and data at their places in network order |
| Icmp.NoChecksumForV6 | common/ping.go:40-43 | the IPv6 kinds are sent with an empty checksum field |
| BlockPadding.PaddedIs | common/security.go:102-107 | the message followed by bytes that each hold the number of bytes added |
| BlockPadding.PaddedLength | common/security.go:102-107 | the ciphertext length is the least multiple of the block size strictly above the message length |
| BlockPadding.BlockByBlock | common/security.go:111-116 | every output block is the cipher applied to the input block at the same place |
| BlockPadding.DesEncode | common/security.go:102-118 | the loop writes the padded message block by block and leaves the rest of the buffer alone |
| BlockPadding.DesDecode | common/security.go:120-133 | rejects partial blocks and panics on an empty input, both leaving the buffer alone; otherwise writes the decrypted blocks and returns the length without padding |
| BlockPadding.DesRoundTrip | common/security.go:102-133 | decoding an encoded message gives back the message and its length for every invertible cipher |
| BlockPadding.CbcRoundTrip | common/security.go:54-76 | chained decryption undoes chained encryption under any initial vector |
| BlockPadding.CbcBlock | common/security.go:54-66 | every output block encrypts the input block exclusive-ored with the output block before it, or the initial vector |
| BlockPadding.AesKey | common/security.go:28-47 | the key bytes followed by zeros, 16 of them for keys up to 16 bytes and 32 otherwise |
| BlockPadding.AesRoundTrip | common/security.go:28-76 | too small a buffer is refused; with room a message can be encoded exactly under keys of at most 16 bytes, as its chained encryption, and then decodes to itself and its length |
| LinkPaging.Pages | service/runtime_service.go:798-815 | ceil(n/50) pages, none empty, none above 50, all but the last full, that join to the list |
| LinkPaging.Receiver.constructor | service/runtime_service.go:827-838 | a new receiver holds nothing |
| LinkPaging.Receiver.ProcessPeerLinksResponse | service/runtime_service.go:819-840 | a new cookie starts the MAC's list over, the remembered one continues it; a page without links is an error and changes nothing |
| LinkPaging.Receiver.ClearLinks | service/runtime_service.go:868-871 | forgets the links of the MAC and keeps its cookie |
| LinkPaging.OthersDoNotMatter | service/runtime_service.go:827-838 | what is held for a MAC depends only on the events about it |
| LinkPaging.RebuiltIff | service/runtime_service.go:827-838 | the pages of an answer of any length, none included, leave exactly its list, under any interleaving, if and only if nothing was left over for them to be added to |
| LinkPaging.ClearedRequestRebuilds | service/runtime_service.go:868-871 | after the clearing step they always do, whatever cookie was remembered |

## Left out

- Protobuf marshalling and unmarshalling, and what handlers do with a frame: frames are byte strings, and whether processing one panics is a parameter of the dialect.
- The UDP branches of both protobuf codecs: they decode one datagram without keeping state.
- FrameDecoder.Codec.HandleRead: buffers are values, so the sharing of the pooled read buffer between slices is not modelled; a read may be longer than 2048 bytes, which only adds runs.
- Worker pool: tasks terminate when a schedule lets them, `RunTask` and the timeout of `StopWait` are thin wrappers, and nothing is claimed about when a step happens.
- WorkerPoolShutdown.AlwaysClosesIff: speaks of schedules that run until nothing moves; from the moment the dispatcher has seen the shutdown `ShutdownTerminates` says that every schedule does, but before that moment Go's select may go on choosing other cases.
- P2P: `ProcessP2PAck` and `newPunchSock` are single steps including their dialling; seconds are integers; PingTryCount is unbounded, so its wrap-around after 2^64 idle events is not modelled; stopping a bootstrap has no effect on the maps and is not modelled; `Stop` and the clean-up by the state-check goroutine are one step; a tick is one step too, although in the source frames may arrive between the turns of its two ranges.
- P2pHandshake.EstablishedMeansAcked: third parties are assumed not to forge the other side's MAC in a try frame.
- CloseCascade.CascadeTerminates: at every event a handler may choose anew among finitely many reactions, each a list of any number of forwards and closes through its context or channel; handlers that start goroutines of their own, and the state by which a handler makes its choice, are not modelled.
- Pipeline.Pipe.WalkForward: handlers do not change the pipeline while an event passes through it.
- WriteBatching.SentIsPrefix: a full queue blocking its writers is not modelled, which only adds runs; TCP transports, which send the merged buffers as one stream, are left out.
- LengthField.HandleRead: the next handler drains the frame it is given.
- BlockPadding.DesEncode: appending the padding may write into spare capacity of the caller's slice; values have none.
- BlockPadding.AesRoundTrip: AES decoding is stated on whole blocks produced by the encoder; the recovery of malformed input is left out.
- Block ciphers, RSA and key files; the CBC mode itself is taken from section 6.2 of NIST SP 800-38A.
- Sockets, TUN/TAP devices, routes, ARP, the user interface, logging, configuration files and traffic statistics: operating-system calls and bookkeeping.
- Fixed-length, packet, text, JSON and HTTP codecs, idle timers, peer-list handling and serial sessions: they would only add easy members.
