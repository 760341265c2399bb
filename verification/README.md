# A verified model of the redpill data plane and session control

This project models, in Dafny, the parts of the redpill VPN server and client whose guarantees span
several functions and several threads, and proves those guarantees for every input, every run and
every interleaving.

| part | files | what is modelled |
|---|---|---|
| traffic shaper | `Arithmetic`, `TokenBucket`, `BucketWindow`, `AdaptiveShaper`, `ShaperSteps`, `ShaperRaces` | the token bucket, the drop-counting limiter and the RTT controller, once with atomic methods and once as a step relation over any number of threads in which every load, store, fetch-add and compare-exchange is one step and a weak compare-exchange may fail spuriously |
| priority queue | `Priority`, `WakeUp` | classification, two bounded lanes, stale dropping, and the one-permit wake-up protocol between producers and the consumer |
| datagram path | `Bytes`, `Datagram`, `Headers`, `Padding`, `Batch`, `Pipeline`, `Upload` | padding, batching, the send and receive loops, loss and reordering, the upload filter |
| sessions | `IpPool`, `Demux`, `Sessions` | address pool, router, connection and session guards, with QUIC, h3, Reality and WebSocket handlers interleaving at the grain of their shared operations |
| streams and stores | `Framing`, `Control`, `Hex`, `Users`, `Stats` | length framing over chunked streams, the control stream, the user store and its key directory, the datagram statistics |

Code that updates fields in place is a class whose methods are proved equal to a function of the old
state; what is promised is then proved about that function over whole runs. Code whose point is
interleaving is a total function `Apply(state, action)` folded over an arbitrary list of actions, so
a statement about `Exec(init, actions)` is a statement about every reachable state. An action that is
not enabled leaves the state as it is.

Assumptions: interleavings are sequentially consistent, the clock is monotone, `tokio::sync::Notify`
stores at most one permit as its documentation says, QUIC datagrams may be lost or reordered but not
altered or duplicated (section 5 of RFC 9221), TLS streams deliver bytes in order, and HMAC is an
arbitrary function. Clock readings, random bytes, directory listing order, shaper verdicts and
spurious failures are parameters over which every statement quantifies.

## What turned out not to hold as one might expect

- Releasing an address and dropping the client's router handle are two steps. Between them the
  address can be given to another session, whose route the old handle then removes.
  `Sessions.ShadowedRun` is such a run, and `Sessions.CompleteIff` says exactly when routing is complete
  throughout a run. What does hold at the source's own grain is that a registered session's address
  never leads to another session's queue.
- With padding on at the server, a packet whose padded size is below 300 bytes reaches the client's TUN
  still padded, because the transport strips before the batch is decoded; with padding off at the client
  (`crates/redpill-quic/src/config.rs:262`) every padded packet does. `Pipeline.ArrivesExactlyIff` says
  exactly which packets arrive unchanged under each pair of settings, and `Pipeline.PingArrivesPadded` and
  `Pipeline.LargeArrivesPadded` follow two packets that do not.
- A window of length t can carry up to 100 microseconds' worth more than burst plus rate times t
  (`BucketWindow.GranularityIsNeeded`). `BucketWindow.SlackFreeIff` says exactly when it cannot, by what the
  bucket holds when the window opens.
- The lock-free bucket bounds a window less tightly than the atomic one: a thread that has won the refill
  clock can add its tokens after another thread has emptied the bucket. After an idle tenth of a second two
  threads can be granted two bursts at one instant (`ShaperRaces.TwoBurstsAtOnce`). `ShaperRaces.OneBurstIff`
  says exactly when one burst is the most, by what the bucket holds and has earned when the window opens,
  and `ShaperSteps.WindowGrantBound` bounds every other window.
- `add_user` keeps memory and disk in step exactly when the random key is fresh and the name is not
  empty (`Users.AddStaysSyncedIff`).
- The comment at `crates/redpill-quic/src/batch.rs:70` says that `add` turns away large packets, and
  the one at `crates/redpill-quic/src/server.rs:985` that small packets are always realtime; the code
  does neither, and the model follows the code.

## Model

| member | source | states |
|---|---|---|
| TokenBucket.TokenBucket.constructor | crates/redpill-quic/src/shaper.rs:20-29 | a new bucket is full and last refilled at its epoch |
| TokenBucket.TokenBucket.RefillTokens | crates/redpill-quic/src/shaper.rs:57-95 | the four cells change as the refill function says: nothing under 100 microseconds, otherwise earned tokens clamped to the burst |
| TokenBucket.TokenBucket.TryConsume | crates/redpill-quic/src/shaper.rs:32-55 | verdict and new cells are those of the atomic check, whose promises are the two run theorems below |
| TokenBucket.TokenBucket.ChangeRate | crates/redpill-quic/src/shaper.rs:98-120 | rate and burst replaced, tokens clamped to the new burst |
| TokenBucket.SetRateMeans | crates/redpill-quic/src/shaper.rs:98-120 | after a change of rate the burst is a tenth of a second at it, rounded down, and the bucket keeps what it holds up to that |
| BucketWindow.WindowBound | crates/redpill-quic/src/shaper.rs:32-120 | in every run and every window [t0, t1], through idle periods and rate changes with rates up to R and bursts up to B, 10^6 times the bytes granted is at most 10^6 B + R (t1 - t0 + 100) |
| BucketWindow.SlackFreeBound | crates/redpill-quic/src/shaper.rs:57-95 | in every run with rate changes, a window that opens on a slack-free bucket (idle for 100 microseconds, or too recently refilled for a refill in the window, or holding no more whole bytes than burst and window account for) keeps the bound without the 100 microseconds |
| BucketWindow.OtherwiseExceeded | crates/redpill-quic/src/shaper.rs:32-95 | any other window can be made to exceed it, by packets of at most 1200 bytes checked by an ascending clock |
| BucketWindow.SlackFreeIff | crates/redpill-quic/src/shaper.rs:62-64 | so all runs through a window keep the bound without the 100 microseconds if and only if the bucket on which it opens is slack-free |
| BucketWindow.GranularityIsNeeded | crates/redpill-quic/src/shaper.rs:62-64 | a new bucket at 10 Mbit/s is not: packets of at most 1200 bytes exceed the bound between 99 and 100 microseconds after its epoch |
| BucketWindow.RejectionIsJustified | crates/redpill-quic/src/shaper.rs:32-95 | the other direction, for every run of checks and rate changes from a full bucket with rates of at least r and bursts of at least m: if a check is rejected then since some moment at which the bucket was full the grants plus the rejected packet exceed m plus r times elapsed time, up to 100 microseconds and rounding |
| AdaptiveShaper.AdaptiveShaper.constructor | crates/redpill-quic/src/shaper.rs:132-197 | initial rate is the cap, burst a tenth of it, base RTT unset |
| AdaptiveShaper.CapInMegabits | crates/redpill-quic/src/shaper.rs:132-197 | a cap of m Mbit/s is m times 10^6 / 8 bytes per second, with a full burst of a tenth of a second of it |
| AdaptiveShaper.NoCapAdmitsAll | crates/redpill-quic/src/shaper.rs:32-36 | under a cap of 0 every packet passes whatever was sent and measured before, nothing is counted as dropped and the rate stays 0 |
| AdaptiveShaper.AdaptiveShaper.CheckPacket | crates/redpill-quic/src/shaper.rs:143-152 | the bucket's verdict; a rejected packet and its bytes are counted |
| AdaptiveShaper.AdaptiveShaper.ObserveRtt | crates/redpill-quic/src/shaper.rs:204-243 | base RTT, current rate and bucket change as the atomic update says |
| AdaptiveShaper.RunIsConsistent | crates/redpill-quic/src/shaper.rs:178-243 | in every run of packets and RTT samples under a cap of m > 0 Mbit/s the rate stays between 125000 and m times 10^6 / 8, equals the bucket's rate, burst is a tenth of it, tokens are at most one burst, and base RTT is the least sample seen |
| AdaptiveShaper.AdjustDirection | crates/redpill-quic/src/shaper.rs:228-237 | the rate rises exactly under low delay with room above and falls exactly under high delay with room below; 5% up and 10% down up to rounding and clamping |
| AdaptiveShaper.LowDelayConverges | crates/redpill-quic/src/shaper.rs:228-242 | sustained delay under 5 ms reaches the cap within (cap - current)/6250 samples rounded up and stays there |
| AdaptiveShaper.HighDelayConverges | crates/redpill-quic/src/shaper.rs:228-242 | sustained delay over 25 ms reaches 125000 within (current - 125000)/12500 samples rounded up and stays there |
| ShaperSteps.StepMakesNoCredit | crates/redpill-quic/src/shaper.rs:32-120 | no single access of any thread creates credit: 1000 tokens + 10^6 granted + R owed - R last_refill never rises, even if 64-bit arithmetic wraps |
| ShaperSteps.BucketGrantBound | crates/redpill-quic/src/shaper.rs:32-120 | in every interleaving of any number of check and set_rate calls with rates in (0, R] and bursts up to B: 1000 tokens + 10^6 granted + R times credit won but not yet added is at most 10^6 B + R last_refill, tokens are at most 1000 B, and 10^6 granted is at most 10^6 B + R times the uptime |
| ShaperSteps.ShaperGrantBound | crates/redpill-quic/src/shaper.rs:32-243 | the same for the server's shaper with racing RTT updates and no condition on the controller: the rates it stores stay in [125000, cap] under races, and all traffic the shaper admits, of all sessions that use it and in both directions, is at most a tenth of a second at the cap plus the cap over the uptime: 8 times the bytes is at most m times (microseconds + 100000) under a cap of m Mbit/s |
| ShaperSteps.GrantsSinceRefill | crates/redpill-quic/src/shaper.rs:32-120 | from any reachable state on, in every interleaving, grants are at most one burst plus R over the time since the last refill and over the credit threads still owe |
| ShaperSteps.WindowGrantBound | crates/redpill-quic/src/shaper.rs:32-120 | every window of every interleaving, however long the bucket was idle: grants are at most R over the window, plus what the bucket holds when it opens, what it has earned since its last refill up to one burst, and one burst for each refill under way |
| ShaperSteps.ShaperWindowBound | crates/redpill-quic/src/shaper.rs:32-243 | that, for every window of every run of the server's shaper |
| ShaperRaces.AtomicIsARun | crates/redpill-quic/src/shaper.rs:32-95 | every atomic run of checks by an ascending clock is one of the interleavings, with the same bucket and the same grants, while nothing wraps |
| ShaperRaces.CallsAreRuns | crates/redpill-quic/src/shaper.rs:98-243 | a call of set_rate or update_rtt by an idle thread that is then left alone does exactly what the atomic one does |
| ShaperRaces.Race | crates/redpill-quic/src/shaper.rs:66-95 | one thread wins the refill clock, another empties the bucket, the first adds what it won and the bucket is emptied again: exactly that many bytes are granted while the clock stands still |
| ShaperRaces.OneBurstIff | crates/redpill-quic/src/shaper.rs:32-95 | with two threads free and no refill under way, every interleaving over every stretch of time grants not a whole byte beyond one burst plus the rate over that time, if and only if what the bucket holds and has earned since its last refill (up to one burst) makes no more whole bytes than one burst |
| ShaperRaces.ShaperOneBurstIff | crates/redpill-quic/src/shaper.rs:32-243 | that, for every reachable state of the server's shaper at its cap, racing RTT updates included |
| ShaperRaces.TwoBurstsAtOnce | crates/redpill-quic/src/shaper.rs:66-95 | under every cap for which 100000 times the rate fits 64 bits, after an idle tenth of a second two threads are granted exactly two bursts, in packets of at most 1200 bytes, while the clock stands still |
| ShaperRaces.RetryMeansProgress | crates/redpill-quic/src/shaper.rs:41-120 | in every interleaving, a compare-exchange loop on tokens or base RTT that goes round again other than spuriously has been overtaken by another thread's successful exchange since its last reading |
| ShaperSteps.NothingOverflows | crates/redpill-quic/src/shaper.rs:39-112 | in a reachable state no addition or multiplication of any thread's next step exceeds 64 bits while 1000 B + R times the uptime fits |
| ShaperSteps.ShaperNeverOverflows | crates/redpill-quic/src/shaper.rs:39-232 | that, for every run of the server's shaper, and the products computed at its construction fit too |
| ShaperSteps.ShaperConserves | crates/redpill-quic/src/shaper.rs:143-152 | in every interleaving, packets and bytes offered are granted, counted as dropped or still being checked; once all calls return the counters balance exactly |
| ShaperSteps.NoCapDropsNothing | crates/redpill-quic/src/shaper.rs:32-36 | under a cap of 0, in every interleaving, nothing is dropped and once all calls return everything offered was granted |
| ShaperSteps.SoloIsARun | crates/redpill-quic/src/shaper.rs:41-93 | a thread that runs alone finishes its call: the compare-exchange loops are obstruction-free |
| ShaperSteps.SoloCheck | crates/redpill-quic/src/shaper.rs:32-95 | run alone, the lock-free check grants, drops and updates exactly as the atomic one |
| ShaperSteps.SoloSetRate | crates/redpill-quic/src/shaper.rs:98-120 | run alone, the lock-free set_rate is the atomic one |
| ShaperSteps.SoloUpdateRtt | crates/redpill-quic/src/shaper.rs:204-243 | run alone, the lock-free update_rtt is the atomic one |
| Headers.Ipv4IsUnderstood | crates/redpill-quic/src/datagram.rs:10-55 | a packet laid out by RFC 791, with or without options, is routed by its destination, accepted only from its own source address, and truthful about its length |
| Headers.Ipv6IsUnderstood | crates/redpill-quic/src/datagram.rs:24-55 | a packet laid out by RFC 8200 is truthful about its length, accepted, and never routed |
| Headers.PriorityOfUdp | crates/redpill-quic/src/priority.rs:27-62 | a UDP packet, whatever its header length and congestion bits, is realtime exactly if it is expedited, goes to port 53 or is under 300 bytes |
| Headers.PriorityOfOthers | crates/redpill-quic/src/priority.rs:37-45 | any other IPv4 packet, and UDP too short for ports, is realtime exactly if it is expedited |
| Headers.OthersAreNotUnderstood | crates/redpill-quic/src/datagram.rs:10-55 | on arbitrary bytes: what is not IPv4 or too short is neither routed nor realtime, and the source check passes exactly IPv6 and whole IPv4 headers with the client's own address |
| Padding.TargetSize | crates/redpill-quic/src/padding.rs:7-18 | the least standard size that fits, or the length itself if none does |
| Padding.PadToStandard | crates/redpill-quic/src/padding.rs:13-24 | the data followed by zeros up to that size |
| Padding.PadShape | crates/redpill-quic/src/padding.rs:7-24 | the padded packet is the packet followed by zeros, of the target size: one of the six standard sizes, or unchanged over 1400 bytes |
| Padding.StripUndoesPad | crates/redpill-quic/src/padding.rs:31-48 | stripping undoes padding for every truthful packet, IPv4 and IPv6, and changes no unpadded one |
| Padding.StripUndoesPadIff | crates/redpill-quic/src/padding.rs:31-48 | for any bytes, exactly when stripping undoes padding, in terms of the length declared, if any |
| Padding.StripIsPrefix | crates/redpill-quic/src/padding.rs:31-48 | on arbitrary bytes stripping only shortens, to the length the IPv4 or IPv6 header declares if it is there |
| Padding.DummyShape | crates/redpill-quic/src/padding.rs:73-81 | a dummy is as long as asked for and random but for its first nibble, which is 0 |
| Batch.BatchEncode | crates/redpill-quic/src/batch.rs:20-28 | the loop computes the encoding whose laws follow |
| Batch.BatchDecode | crates/redpill-quic/src/batch.rs:33-46 | the loop terminates on arbitrary bytes and computes the decoding whose laws follow |
| Batch.DecodeEncode | crates/redpill-quic/src/batch.rs:20-46 | decoding an encoding followed by anything gives the packets and then the decoding of the rest: uniquely decodable |
| Batch.DecodeIsSound | crates/redpill-quic/src/batch.rs:33-46 | on arbitrary bytes the decoded packets re-encode to a prefix of the input |
| Batch.DecodeIsLongest | crates/redpill-quic/src/batch.rs:33-46 | any packets that encode to a prefix of the input are a prefix of what is decoded |
| Batch.RoundTripIff | crates/redpill-quic/src/batch.rs:20-46 | decode after encode is the identity exactly for packets shorter than 65536 bytes |
| Batch.DatagramBatcher.Add | crates/redpill-quic/src/batch.rs:71-84 | pending packets and emitted batch as the batching function says; pending_size stays the encoded size of pending |
| Batch.DatagramBatcher.Flush | crates/redpill-quic/src/batch.rs:87-95 | the encoding of what was pending, and nothing pending afterwards |
| Batch.AddFits | crates/redpill-quic/src/batch.rs:71-84 | small packets always leave a batch within 1100 bytes pending, and a batch is emitted exactly when the new packet would make it longer |
| Batch.BatcherDelivers | crates/redpill-quic/src/batch.rs:60-95 | over every run of adds and flushes of small packets every batch is at most 1100 bytes and starts with nibble 0, and emitted batches decoded, followed by pending, are everything added in order |
| Pipeline.SendLoop | crates/redpill-quic/src/server.rs:935-992 | the send loop, over any packets and flush timeouts, offers to QUIC the datagrams of the send function |
| Pipeline.ReceiveLoop | crates/redpill-quic/src/client.rs:693-722 | the receive loop writes to TUN what the receive function says |
| Pipeline.DownloadDelivers | crates/redpill-quic/src/server.rs:935-992 | for every sequence of routable packets, every placement of flush timeouts and every padding setting, what the client writes followed by what is pending is exactly the packets popped, in order, in their arriving form |
| Pipeline.UnpaddedDelivers | crates/redpill-quic/src/server.rs:935-992 | without padding: the packets themselves |
| Pipeline.FlushCompletes | crates/redpill-quic/src/server.rs:939-964 | after a flush timeout or a large packet nothing is left behind |
| Pipeline.ReceiveBatch | crates/redpill-quic/src/client.rs:799-806 | the first-nibble heuristic is sound: a batch is recognised, survives the strip and decodes to what went into it |
| Pipeline.ReceiveRaw | crates/redpill-quic/src/client.rs:799-806 | a datagram that starts like IPv4 or IPv6 is written as one packet |
| Pipeline.NothingEmptyIsWritten | crates/redpill-quic/src/client.rs:693-722 | whatever a datagram holds, no empty packet is written |
| Pipeline.SendsWhenDue | crates/redpill-quic/src/server.rs:935-992 | a datagram is offered exactly on a timeout with something pending, for a packet of 300 bytes or more on the wire, or when the batch would exceed 1100 bytes; otherwise the packet waits |
| Pipeline.DatagramSizes | crates/redpill-quic/src/server.rs:953-991 | over every run each datagram is a batch of at most 1100 bytes or a packet of at least 300, of a standard size or above them all if the server pads |
| Pipeline.LossyDelivery | crates/redpill-quic/src/client.rs:693-722 | whatever subset of datagrams is lost, the client writes a subsequence: nothing corrupted, duplicated or reordered |
| Pipeline.ReorderedDelivery | crates/redpill-quic/src/client.rs:693-722 | under loss and reordering every packet is written at most as often as it was popped |
| Pipeline.PaddedDelivers | crates/redpill-quic/src/server.rs:953-991 | with server padding, truthful packets arrive in order in forms that strip_padding maps back to them, and with client padding those of padded size 300 or more arrive equal |
| Pipeline.ArrivesExactlyIff | crates/redpill-quic/src/transport/quic_camouflaged.rs:48-56 | for each setting of server and client padding, a truthful packet arrives unchanged exactly if the server does not pad, its length is a standard size or beyond them, or the client strips and it is over 256 bytes |
| Pipeline.PingArrivesPadded | crates/redpill-quic/src/client.rs:700-722 | an 84-byte ping sent by a padding server is written as 128 bytes, whatever the client's setting |
| Pipeline.LargeArrivesPadded | crates/redpill-quic/src/client.rs:700-722 | a 320-byte packet is written as 512 bytes if padding is off at the client, and unchanged if it is on |
| Upload.RealIsRestored | crates/redpill-quic/src/server.rs:1013-1030 | the server's strip undoes the client's pad, IPv4 and IPv6, and the source check alone decides; the same without padding on either side |
| Upload.AcceptedIffOwnSource | crates/redpill-quic/src/server.rs:1013-1036 | on padded and plain sessions an RFC 791 packet is accepted, unchanged, if and only if its source is the client's address |
| Upload.DummyIsRefused | crates/redpill-quic/src/padding.rs:73-81 | no idle dummy is accepted, whatever the padding settings |
| Upload.UploadDelivers | crates/redpill-quic/src/server.rs:1004-1030 | for every mix of packets and dummies, with and without padding, and every sequence of shaper verdicts, the server writes exactly the genuine admitted packets, unpadded and in order |
| Priority.PriorityQueue.constructor | crates/redpill-quic/src/priority.rs:75-82 | both lanes empty |
| Priority.PriorityQueue.Enqueue | crates/redpill-quic/src/priority.rs:86-105 | the packet joins its lane with its time stamp unless the lane is full |
| Priority.PriorityQueue.Dequeue | crates/redpill-quic/src/priority.rs:108-120 | stale realtime packets dropped from the front, then the first fresh one, else the first bulk packet |
| Priority.RunIsLawful | crates/redpill-quic/src/priority.rs:74-120 | over every run with a monotone clock: realtime lane sorted, lanes within capacity/4 and capacity, every accepted packet exactly once delivered, discarded or queued in lane order, realtime delivered exactly if at most 10 ms old, bulk only when no unexpired realtime packet is queued, nothing returned only if nothing deliverable, refusals only by full lanes |
| WakeUp.NoLostWakeUp | crates/redpill-quic/src/priority.rs:86-130 | in every interleaving, if the consumer waits and a packet is queued some producer has yet to notify; once all pushes have returned a waiting consumer means empty lanes |
| WakeUp.PopsConserve | crates/redpill-quic/src/priority.rs:86-130 | in every interleaving, cancelled pops included: bulk taken followed by bulk queued is bulk accepted, realtime delivered or discarded followed by realtime queued is realtime accepted, delivered exactly if at most 10 ms old, and callers get exactly what was taken, in order |
| WakeUp.ChecksAreTryPop | crates/redpill-quic/src/priority.rs:108-130 | with no step in between, checking one lane after the other has the queue and the packet of try_pop |
| WakeUp.InsertIsPush | crates/redpill-quic/src/priority.rs:86-105 | a push changes the queue as push does and owes a notification exactly if it was accepted |
| WakeUp.PushedIsPopped | crates/redpill-quic/src/priority.rs:86-130 | a packet pushed while the consumer waits at empty lanes is what that pop returns |
| WakeUp.WakeUpDelivers | crates/redpill-quic/src/priority.rs:103-130 | from every reachable state with a bulk packet, or a realtime packet that stays fresh, queued, in every continuation that does not cancel the pop: once the producers that had yet to notify have, three steps of the consumer's own are enough for it to return a packet |
| IpPool.FirstFree | crates/redpill-quic/src/ip_pool.rs:25-38 | the least free host, or none only if all are taken |
| IpPool.PoolCapacity | crates/redpill-quic/src/ip_pool.rs:25-38 | at most 253 addresses are out and allocation fails exactly when 253 are |
| IpPool.IpPool.AllocateIp | crates/redpill-quic/src/ip_pool.rs:25-38 | the search loop takes the least free host and no other |
| IpPool.IpPool.Release | crates/redpill-quic/src/ip_pool.rs:41-46 | frees that host, and ignores other networks |
| IpPool.IpPool.IsAllocated | crates/redpill-quic/src/ip_pool.rs:49-56 | true exactly for hosts of this network that are out |
| Demux.ClientRouter.Register | crates/redpill-quic/src/demux.rs:35-47 | the address leads to a fresh empty queue, replacing any route it had; no queue serves two addresses |
| Demux.ClientRouter.Route | crates/redpill-quic/src/demux.rs:52-59 | the packet is pushed, classified, to the destination's queue and every other queue is unchanged |
| Demux.ClientRouter.Unregister | crates/redpill-quic/src/demux.rs:70-91 | removes the address's route, whoever put it there |
| Sessions.EveryRunIsSound | crates/redpill-quic/src/server.rs:574-777 | in every interleaving of sessions of all four kinds with every early exit: the pool is exactly the addresses held, none twice, at most 253; every route leads to a live handle of that address and never past its registered holder; the counters count the guards |
| Sessions.AllocationIff | crates/redpill-quic/src/server.rs:635-642 | an authenticated session gets the lowest free address, and is turned away exactly when all 253 are held |
| Sessions.NothingLeaks | crates/redpill-quic/src/server.rs:1064-1089 | when all sessions that started have ended pool and router are empty and both counters zero |
| Sessions.SessionEnds | crates/redpill-quic/src/server.rs:574-777 | every started session can end by at most eight steps of its own, whatever its phase, and then exactly its address, its route and its guards are gone |
| Sessions.EverythingEnds | crates/redpill-quic/src/server.rs:1064-1089 | every run can be continued to one after which pool and router are empty and both counters zero |
| Sessions.SessionOpens | crates/redpill-quic/src/server.rs:1312-1323 | every kind of session opens while an address is free: QUIC, h3 and Reality registered under the lowest, WebSocket holding it without a route, each counted once |
| Sessions.CompleteIff | crates/redpill-quic/src/server.rs:645-675 | every registered session is reachable in every state of a run exactly if no handle is dropped while another session is registered under its address |
| Sessions.PromptRoutingIsExact | crates/redpill-quic/src/demux.rs:87-91 | with release and handle drop as one step, router keys are exactly the registered addresses, each leading to its holder's own queue |
| Sessions.EveryDeliveryIsSound | crates/redpill-quic/src/server.rs:461-521 | over every run, a packet read from TUN is handed only to the queue of a session whose handle is alive under its destination, never past the registered holder |
| Sessions.PromptDeliveryIsExact | crates/redpill-quic/src/demux.rs:52-59 | with release and handle drop as one step, every packet is handed to the queue of the registered holder of its destination, and to none exactly if there is no holder |
| Sessions.ShadowedRun | crates/redpill-quic/src/server.rs:673-675 | a concrete run in which a released session's handle removes the route of the next holder |
| Sessions.PoolDelta | crates/redpill-quic/src/reality.rs:120-147 | every handler step keeps the held address, takes a free one or gives back the one it holds |
| Sessions.GuardDelta | crates/redpill-quic/src/server.rs:1312-1333 | every handler step changes the counters by exactly the guards it takes or drops |
| Framing.SendFrames | crates/redpill-quic/src/transport/tcp_reality.rs:62-78 | the stream is the encoding of the packets of at most 65535 bytes; longer ones are refused |
| Framing.SendableKeeps | crates/redpill-quic/src/transport/tcp_reality.rs:62-78 | the sender drops packets over 65535 bytes and keeps all others in order |
| Framing.SentIsRead | crates/redpill-quic/src/transport/tcp_reality.rs:62-106 | packets of 1 to 65535 bytes handed to the sender come out of the reader exactly, however the stream is cut |
| Framing.FrameReader.Consume | crates/redpill-quic/src/transport/tcp_reality.rs:80-106 | reading one chunk with the reused, growing buffer yields exactly what the byte-level reader yields, so nothing left over from earlier packets shows |
| Framing.FrameReader.TakeBody | crates/redpill-quic/src/server.rs:1235-1238 | copying the bytes at hand into the buffer, in place |
| Framing.ChunkingIsIrrelevant | crates/redpill-quic/src/transport/tcp_reality.rs:80-106 | on arbitrary bytes, how the stream is cut does not matter |
| Framing.FramingDelivers | crates/redpill-quic/src/server.rs:1204-1245 | packets of 1 to 65535 bytes, in whatever chunks, are read back exactly and the reader ends at a packet boundary |
| Framing.PartialStreamIsPrefix | crates/redpill-quic/src/server.rs:1223-1249 | while the stream is arriving the packets read are a prefix of those sent |
| Framing.FramingExactIff | crates/redpill-quic/src/server.rs:1231-1234 | framing is exact precisely for packets of 1 to 65535 bytes |
| Control.AuthRoundTrip | crates/redpill-quic/src/control.rs:33-63 | decode undoes encode, and a message decodes to exactly the value whose encoding it starts with |
| Control.ConfigRoundTrip | crates/redpill-quic/src/control.rs:77-118 | the same for the session config; its first 16 bytes decode with no flags |
| Control.UpdateRoundTrip | crates/redpill-quic/src/control.rs:128-146 | the same for MTU updates |
| Control.AuthLayout | crates/redpill-quic/src/control.rs:33-63 | type 1, nonce, MAC and version at their offsets |
| Control.ConfigLayout | crates/redpill-quic/src/control.rs:77-118 | type 2, the three addresses, MTU high byte first, keepalive and flags at their offsets |
| Control.UpdateLayout | crates/redpill-quic/src/control.rs:128-146 | type 3 and the MTU, high byte first |
| Control.UpdatesAreSignificant | crates/redpill-quic/src/server.rs:795-808 | an update is sent only for a change of more than 50 since the last value sent |
| Control.OtherMessagesAreSkipped | crates/redpill-quic/src/client.rs:752-791 | three bytes of another type are skipped and an incomplete message is not read |
| Control.RunPmtuMonitor | crates/redpill-quic/src/server.rs:781-809 | the monitor's loop writes the encoded updates, and its last value is within 50 of the latest sample |
| Control.ControlStreamDelivers | crates/redpill-quic/src/client.rs:752-791 | the client decodes the config and then exactly the MTUs the monitor sent, and the last one (or the initial MTU) is within 50 of the latest sample |
| Hex.ParseHex | crates/redpill-quic/src/users.rs:154-165 | the loop parses trimmed text of 64 characters pair by pair, plus signs included |
| Hex.KeyRoundTrip | crates/redpill-quic/src/users.rs:118-165 | parsing a printed key gives the key |
| Hex.SpaceIsIgnored | crates/redpill-quic/src/users.rs:154-165 | white space around a key does not matter |
| Hex.NewlineIsIgnored | crates/redpill-quic/src/users.rs:55-56 | in particular a newline at the end of a key file |
| Hex.CaseIsIgnored | crates/redpill-quic/src/users.rs:154-165 | upper-case digits give the same key |
| Hex.OnlyHexParses | crates/redpill-quic/src/users.rs:154-165 | whatever parses is 64 hex digits, but for plus signs in first place of a pair |
| Hex.HighDigitFirst | crates/redpill-quic/src/users.rs:118-165 | digits are printed lower case and read high digit first |
| Users.Load | crates/redpill-quic/src/users.rs:35-69 | the loop over one directory listing computes the load function |
| Users.KeyFilesAreNamed | crates/redpill-quic/src/users.rs:42-52 | key files are exactly the names that end in .key with something before it |
| Users.LoadFailsIff | crates/redpill-quic/src/users.rs:35-69 | loading fails exactly if some key file does not parse |
| Users.FirstFileWins | crates/redpill-quic/src/users.rs:57-61 | of several files with the same key the first one listed names the user |
| Users.LoadIsSyncedIff | crates/redpill-quic/src/users.rs:35-69 | loading in any order succeeds and agrees with the directory exactly if every key file parses and no two hold the same key |
| Users.LoadRebuilds | crates/redpill-quic/src/users.rs:35-76 | if memory and disk agree, loading in any order rebuilds exactly the memory |
| Users.UserStore.AddUser | crates/redpill-quic/src/users.rs:111-126 | a taken name changes nothing; otherwise key file and memory entry are written and the hex key returned |
| Users.UserStore.RemoveUser | crates/redpill-quic/src/users.rs:129-145 | an unknown name changes nothing; otherwise one key of that name and its file go |
| Users.UserStore.Verify | crates/redpill-quic/src/users.rs:80-91 | accepts exactly when some stored key produces the MAC, and names a user whose key does |
| Users.UsernamesAreUnique | crates/redpill-quic/src/users.rs:111-145 | no two keys in memory carry the same name while memory and disk agree |
| Users.AddStaysSyncedIff | crates/redpill-quic/src/users.rs:111-126 | adding a new name keeps memory and disk in step exactly if the key is fresh and the name not empty |
| Users.AddedUserIsThere | crates/redpill-quic/src/users.rs:80-126 | after adding a free name with a fresh key its MAC is accepted, the directory loads with it, and nobody else has changed |
| Users.RemovedUserIsGone | crates/redpill-quic/src/users.rs:80-145 | after removing a user no key of that name is left in memory or on disk, its MAC is accepted only if another key produces it, and nobody else has changed |
| Users.MemoryMatchesDisk | crates/redpill-quic/src/users.rs:35-145 | from a directory of distinct keys, after any adds and removes the memory is what loading the directory again would rebuild |
| Stats.FinalStatsAreExact | crates/redpill-quic/src/stats.rs:47-101 | in every interleaving, once all recorders have returned, minimum, maximum, sum, bytes and count are those of the sizes recorded |
| Stats.RecordAlone | crates/redpill-quic/src/stats.rs:47-101 | an undisturbed call is over after seven accesses and has recorded its size in every counter |
| Stats.FailureMeansProgress | crates/redpill-quic/src/stats.rs:77-100 | a compare-exchange that fails other than spuriously has seen another thread's improvement |

## Left out

- Stats.FinalStatsAreExact: 64-bit wrap-around of the sums is not modelled; counters are unbounded.
- ShaperSteps.ShaperConserves: 64-bit wrap-around of the drop counters is not modelled.
- ShaperSteps.ShaperGrantBound: traffic that never reaches the shaper is not counted; WebSocket tunnels
  (`crates/redpill-quic/src/transport/websocket_cdn.rs:213-245`) do not call it.
- ShaperSteps.SoloUpdateRtt: 64-bit wrap-around of the initial rate and burst and of the 5% rise is not
  modelled; ShaperSteps.ShaperNeverOverflows says when there is none.
- ShaperRaces.OneBurstIff: only for a bucket that runs at the highest rate allowed from there on and whose
  burst outlasts 2 ms, as that of a bucket set to 125000 bytes per second or more does; below that rate
  ShaperSteps.WindowGrantBound is a bound and not exact.
- Upload.UploadDelivers: a client that pads on a session whose server does not strip is not covered; h3
  sessions, which camouflaged clients use, always strip.
- Relaxed memory ordering: interleavings are sequentially consistent.
- Stats, session handlers and the wake-up protocol appear only as step relations over values, because
  interleaving is their point; update in place is modelled where one object is updated by one caller at
  a time.
- What QUIC does with an offered datagram (too large, blocked, waiting with a timeout): any of these is
  a lost datagram here.
- Which realtime and bulk packets the send loop waits for or drops under congestion; a dropped one is a
  lost datagram.
- Clients without the batching flag: the QUIC and h3 handlers always set it.
- The bound of active connections by the configured maximum: check and increment are separate in the
  source and two listeners do not check, so it is not an invariant.
- File system and write errors of the user store, names containing a path separator, and non-UTF-8
  file names; only successful operations are modelled.
- A failed write of a path-MTU update ends the monitor; this is the run with fewer samples.
- WebSocket sessions in routing: they read TUN directly and never register; they take part in the
  pool and counter statements.
- TUN devices, routes, NAT, kill switch, XDP, TLS, QUIC, HTTP/3 decoy, ACME, certificates, browser
  fingerprints, daemon, IPC, metrics, CLI and configuration: system calls or thin wrappers.
- Transport probing, health monitoring and reconnect backoff: simple, and partly floating point.
