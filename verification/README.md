# WatermarkBuffer in Dafny

A model of Rapid's `WatermarkBuffer`, the multi-node cut detector. It counts
link-update messages per destination node. A node whose counter reaches the
low watermark L is *in progress*. A node whose counter reaches the high
watermark H joins the *ready list*, and its in-progress period ends. The ready
list is released as one batch, a *cut*, only when no other node is still in
progress. The counters of the released nodes are then reset to 0.

Each Java call runs under one lock, so the model treats it as one pure step:
`WatermarkBuffer.Receive` maps a buffer state and a message to the next state
plus the list the call returns. `WatermarkBuffer.Run` folds it over a sequence
of messages. The state is an immutable record with these parts:
- the parameters K, H and L;
- a map from endpoint to counter;
- the in-progress count;
- the ready list, as a sequence;
- the delivery count returned by `getNumDelivers`.

The Java exceptions are the `Failure` cases of a `Result`:
- `IllegalArgument` comes from the constructor;
- `NotInUpdateCounters` comes from the delivery loop.

Files:
- `Wrappers.dfy`: the `Result` type.
- `Messages.dfy`: endpoints, link status and the message record.
- `WatermarkBuffer.dfy`: the constructor, `receiveLinkUpdateMessage`, `getNumDelivers`, and runs of calls.
- `WatermarkInvariants.dfy`: what one call preserves and decides.
- `WatermarkRuns.dfy`: properties of whole runs, and general lemmas for composing runs.
- `CutDetectionScenarios.dfy`: the cut-detection tests replayed with K = 10, H = 8, L = 2.

## Model

| member | source | states |
|---|---|---|
| WatermarkBuffer.Create | src/main/java/com/vrg/WatermarkBuffer.java:38-47 | The constructor rejects the parameters exactly when H > K, L > H or K < 3, with an IllegalArgument error that carries them. Otherwise it keeps K, H and L, with no counters, an empty ready list, nothing in progress and no deliveries. |
| WatermarkBuffer.CreateChecked | src/main/java/com/vrg/WatermarkBuffer.java:39-41 | The corrected constructor accepts exactly K >= 3 and K > H >= L >= 0, as the error message states. Whenever it accepts, it builds the same buffer as the constructor as written. |
| WatermarkBuffer.GuardGap | src/main/java/com/vrg/WatermarkBuffer.java:39-41 | The guard as written accepts parameters that its own message rules out exactly when K >= 3, L <= H <= K, and either H == K or L < 0. Both directions are proved. |
| WatermarkBuffer.GuardGapWitnesses | src/main/java/com/vrg/WatermarkBuffer.java:39-41 | (K, H, L) = (3, 3, 1) and (10, 8, -1) are accepted by the guard and rejected by the corrected constructor. |
| WatermarkBuffer.ResetCounters | src/main/java/com/vrg/WatermarkBuffer.java:73-81 | The delivery loop succeeds exactly when every ready node has a counter. Otherwise it fails with NotInUpdateCounters, naming a ready node that has no counter. On success the set of keys is unchanged, every ready node's counter is 0, and every other counter is as before. |
| WatermarkBuffer.NumDelivers | src/main/java/com/vrg/WatermarkBuffer.java:49-51 | getNumDelivers reads the delivery count. It carries no contract of its own; `WatermarkRuns.DeliversCountsBatches` states what the count means. |
| WatermarkBuffer.Receive | src/main/java/com/vrg/WatermarkBuffer.java:53-90 | receiveLinkUpdateMessage as one atomic step. Its own contract says that the only exception it can raise is the delivery loop's NotInUpdateCounters. `WatermarkBuffer.ReceiveContract` and the lemmas of `WatermarkInvariants` state the rest. |
| WatermarkBuffer.ReceiveContract | src/main/java/com/vrg/WatermarkBuffer.java:53-90 | The exception names a ready node that has no counter. K, H and L never change, and dst gains a counter. getNumDelivers rises by one exactly when the result is non-empty. A non-empty result is the old ready list followed by dst, and it leaves the ready list empty with nothing in progress. An empty result leaves the ready list as it was, or with dst appended. |
| WatermarkBuffer.Run | src/main/java/com/vrg/WatermarkBuffer.java:49-90 | A successful run of n calls returns n results. It never lowers getNumDelivers and never changes K, H or L. |
| WatermarkInvariants.FreshInv | src/main/java/com/vrg/WatermarkBuffer.java:43-46 | A new buffer with 1 <= L <= H satisfies the invariant, and every node on its ready list has a counter. |
| WatermarkInvariants.FreshReady | src/main/java/com/vrg/WatermarkBuffer.java:43-46 | A new buffer with H >= 1 satisfies the ready-list invariant, whatever L is. |
| WatermarkInvariants.ReadyTracked | src/main/java/com/vrg/WatermarkBuffer.java:73-79 | Under the ready-list invariant every ready node has a counter. |
| WatermarkInvariants.ReceiveReadsOnlyDst | src/main/java/com/vrg/WatermarkBuffer.java:56-58 | Two messages with the same destination have the same effect, whatever their source, status, configuration id and ring number. |
| WatermarkInvariants.ReceiveCounters | src/main/java/com/vrg/WatermarkBuffer.java:56-81 | After a call, a delivered node's counter is 0. Otherwise dst's counter is one higher than before, and every other counter is unchanged. |
| WatermarkInvariants.ReceiveTracked | src/main/java/com/vrg/WatermarkBuffer.java:73-79 | If every ready node has a counter, the call cannot throw, and afterwards every ready node still has a counter. |
| WatermarkInvariants.ReceivePreservesInv | src/main/java/com/vrg/WatermarkBuffer.java:53-90 | For 1 <= L <= H every call succeeds and keeps the invariant. The invariant has three parts: the in-progress count equals the number of nodes whose counter lies in [L, H); the ready list has no node twice; the ready list holds exactly the nodes whose counter is at least H. |
| WatermarkInvariants.ReceivePreservesReady | src/main/java/com/vrg/WatermarkBuffer.java:56-85 | For any L, as long as H >= 1, every call succeeds and keeps the ready-list invariant: the ready list has no node twice and holds exactly the nodes whose counter is at least H. |
| WatermarkInvariants.ReadyDelivers | src/main/java/com/vrg/WatermarkBuffer.java:64-85 | For any L, as long as H >= 1, a non-empty result means that dst has just reached H. The result then holds no node twice, and it holds exactly the nodes that were already at or past H, plus dst. |
| WatermarkInvariants.ZeroHighLeavesReadyBehind | src/main/java/com/vrg/WatermarkBuffer.java:39-67 | Both constructors accept (K, H, L) = (3, 0, 0). After one message, dst is past H but the ready list is empty, so the ready-list invariant needs H >= 1. |
| WatermarkInvariants.DeliversIffNoOtherInProgress | src/main/java/com/vrg/WatermarkBuffer.java:64-88 | Under the invariant, a call returns a non-empty list exactly when it brings dst to H and no other node is in progress. The list is then the ready list followed by dst, with no duplicates. It is exactly the set of nodes at or past H, and afterwards no node is at or past H. |
| WatermarkInvariants.ReceivePastH | src/main/java/com/vrg/WatermarkBuffer.java:64-88 | A message about a node already at or past H only raises that node's counter and returns nothing. |
| WatermarkRuns.RunAppend | src/main/java/com/vrg/WatermarkBuffer.java:53-90 | Running two sequences one after the other gives the same final state and results as running their concatenation. |
| WatermarkRuns.RunTracked | src/main/java/com/vrg/WatermarkBuffer.java:73-79 | From a buffer whose ready nodes all have counters, no run throws, whatever K, H and L are. |
| WatermarkRuns.GuardUnreachable | src/main/java/com/vrg/WatermarkBuffer.java:74-79 | For every buffer the constructor accepts, every sequence of calls succeeds. The "not in UpdateCounters map" exception is unreachable. |
| WatermarkRuns.RunPreservesInv | src/main/java/com/vrg/WatermarkBuffer.java:60-85 | For 1 <= L <= H the invariant holds after every sequence of calls. |
| WatermarkRuns.RunPreservesReady | src/main/java/com/vrg/WatermarkBuffer.java:56-85 | For any L, as long as H >= 1, the ready-list invariant holds after every sequence of calls. |
| WatermarkRuns.ReadyForAllL | src/main/java/com/vrg/WatermarkBuffer.java:38-85 | For every buffer the constructor accepts with H >= 1, whatever its L, after any run the ready list has no node twice and holds exactly the nodes whose counter is at least H. |
| WatermarkRuns.InProgressNonNegative | src/main/java/com/vrg/WatermarkBuffer.java:60-68 | For every accepted buffer with L >= 1, after any run the in-progress count equals the number of nodes in [L, H), so it is never negative. |
| WatermarkRuns.DeliversCountsBatches | src/main/java/com/vrg/WatermarkBuffer.java:49-72 | Over any run, getNumDelivers rises by exactly the number of calls that returned a non-empty list. |
| WatermarkRuns.DeliveredOnlyAfterH | src/main/java/com/vrg/WatermarkBuffer.java:64-70 | Under the ready-list invariant, so for any L, a node is delivered in a run only if its starting counter plus the number of messages about it in the run reaches H. |
| WatermarkRuns.RedeliveryNeedsHMessages | src/main/java/com/vrg/WatermarkBuffer.java:80 | Under the ready-list invariant, after a node is delivered, it is delivered again only after at least H further messages about it. |
| WatermarkRuns.LowWatermarkNeverDelivers | src/main/java/com/vrg/WatermarkBuffer.java:58-70 | With L <= 0 and nothing in progress, every run succeeds, returns only empty lists, leaves getNumDelivers unchanged and keeps the in-progress count at or below 0. |
| WatermarkRuns.LowWatermarkGoesNegative | src/main/java/com/vrg/WatermarkBuffer.java:58-70 | With L <= 0, a node reaching H drives the in-progress count one lower, below 0, and nothing is delivered. |
| WatermarkRuns.NonPositiveLowNeverDelivers | src/main/java/com/vrg/WatermarkBuffer.java:39-70 | Every buffer the constructor accepts with L <= 0, including the negative L it should reject, never delivers a node and getNumDelivers stays 0. |
| WatermarkRuns.FeedBelowH | src/main/java/com/vrg/WatermarkBuffer.java:56-62 | Messages that keep a node below H return nothing. They raise its counter by their number and add one to the in-progress count if they carry it across L. Nothing else changes. |
| WatermarkRuns.FeedPastH | src/main/java/com/vrg/WatermarkBuffer.java:64-88 | Messages about a node at or past H return nothing and only raise its counter. |
| WatermarkRuns.QueueStep | src/main/java/com/vrg/WatermarkBuffer.java:64-70 | The H-th message about a node, while another node is in progress, appends it to the ready list, lowers the in-progress count and returns nothing. |
| WatermarkRuns.DeliverStep | src/main/java/com/vrg/WatermarkBuffer.java:64-85 | The H-th message about the last node in progress returns the ready list followed by that node, and it raises getNumDelivers by one. |
| WatermarkRuns.FlushTogether | src/main/java/com/vrg/WatermarkBuffer.java:64-85 | Distinct nodes that are exactly the ones in progress, each one message short of H, are released together. Their H-th messages return nothing until the last one, which returns the ready list followed by all of them in the order they reached H, and getNumDelivers rises by one. |
| CutDetectionScenarios.CutDetection | rapid/src/test/java/com/vrg/rapid/CutDetectionTest.java:45-61 | H - 1 reports about one node return nothing and leave getNumDelivers at 0. The H-th report returns exactly that node and getNumDelivers becomes 1. |
| CutDetectionScenarios.OneBlocker | rapid/src/test/java/com/vrg/rapid/CutDetectionTest.java:64-92 | With two nodes in progress, the first one's H-th report returns nothing. The second one's H-th report returns both, in one batch. |
| CutDetectionScenarios.ThreeBlockers | rapid/src/test/java/com/vrg/rapid/CutDetectionTest.java:96-138 | With three nodes in progress, the H-th reports about the first and the third return nothing. The second one's H-th report returns all three, and getNumDelivers becomes 1. |
| CutDetectionScenarios.MultipleBlockersPastH | rapid/src/test/java/com/vrg/rapid/CutDetectionTest.java:141-189 | Two reports each carry the first and the third node to and past H, and nothing is returned. The second node's H-th report then returns all three, and getNumDelivers becomes 1. |
| CutDetectionScenarios.BelowL | rapid/src/test/java/com/vrg/rapid/CutDetectionTest.java:192-231 | A node with only L - 1 reports does not block. The H-th reports about the other two return them, and only them, in one batch. |
| CutDetectionScenarios.Batch | rapid/src/test/java/com/vrg/rapid/CutDetectionTest.java:235-252 | Against this buffer, K reports about each of three nodes, node after node, deliver only the first node. getNumDelivers ends at 1, the other two nodes wait on the ready list, and one node is in progress. |

A new buffer that passes the corrected constructor gives the starting state
of every scenario. The test's destinations are concrete addresses; here they
are any distinct endpoints, and the sources and ring numbers follow the test's
loops.

`CutDetectionScenarios.Batch` differs from the Java test, which expects three
delivered nodes. That test drives the newer `MultiNodeCutDetector`, which is
not shown. Against `WatermarkBuffer` itself the outcome follows from
`receiveLinkUpdateMessage` (src/main/java/com/vrg/WatermarkBuffer.java:56-62),
which counts raw messages:
1. The first node's 9th and 10th reports come after its reset.
2. They bring its counter back to L, so it is in progress again.
3. It then blocks the other two nodes for good.

## Left out

- Locking: the lock and the atomic fields only make each call atomic. Each call is one sequential step.
- WatermarkBuffer.Receive: the counters are unbounded integers, so the 32-bit wrap-around of `AtomicInteger` after 2^31 increments is not modelled. No realistic run comes close to it.
- WatermarkBuffer.Receive: when the delivery loop throws, the Java object keeps its partial updates: the delivery count, the decremented in-progress count, the appended ready node and the counters already reset. The model drops that state and returns the error. `WatermarkRuns.GuardUnreachable` proves that this path never runs.
- Messages: the message's UUID, derived with MD5, and the string constructor that parses host and port strings are foreign library code and are left out. `HostAndPort` and the `Node` wrapper are a host/port record compared by equality.
- Messages: the getters of the message class are not modelled; the buffer reads only `getDst`.
- Ring-number deduplication, configuration-id filtering, sealing and epoch resets are not modelled. They belong to the newer cut detector, and this buffer has none of them.
- The link-invalidation test depends on random ring placement and on membership-view code that is not part of this model.
- The messaging test covers the network layer: servers, clients, broadcast and shutdown. It is not part of this model.
- WatermarkInvariants.ReceivePreservesReady: it requires H >= 1, which both constructors allow to be false. With H <= 0 every counter is at least 1 after its first message, so no counter ever equals H. No node joins the ready list and nothing is delivered, yet every counted node is past H. `WatermarkInvariants.ZeroHighLeavesReadyBehind` exhibits this for (3, 0, 0).
- WatermarkBuffer.CreateChecked: it follows the error message and still accepts L == 0. With L == 0 the buffer never delivers (`WatermarkRuns.NonPositiveLowNeverDelivers`), so a stricter bound of L >= 1 may have been meant. The model keeps the bound the message states.

## Findings

| source | as written | input that shows it | evidently intended | confidence | as-written member | corrected member |
|---|---|---|---|---|---|---|
| src/main/java/com/vrg/WatermarkBuffer.java:39-41 | The guard rejects only when H > K, L > H or K < 3. | (K, H, L) = (3, 3, 1), where H == K, or (10, 8, -1), where L < 0. The guard accepts both, against its message "K > H >= L >= 0". With L < 0 the buffer never delivers anything. | Reject unless K >= 3 and K > H >= L >= 0. | not executed | WatermarkBuffer.GuardGapWitnesses | WatermarkBuffer.CreateChecked |
