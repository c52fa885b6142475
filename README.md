# couchbase-ha-service decision core, in Dafny

This project models the decision pipeline of the couchbase high-availability
service. Each node probes the configured keys with a verification script.
The failure detector keeps a ring of recent probe outcomes per key and
classifies them. The bridge stamps each verdict with a strictly increasing
local timestamp and merges it into the gossip consensus store. That store
keeps, per key, one slot per observing node and merges last-writer-wins.
Peers' observations arrive through the gossip delegate and are merged the
same way. On the raft leader, the quorum checker counts the fresh
observations of every key. It decides whether a status change is real (an
event), provisional (pending), an empty verdict or a recovery from one. It
writes the matching commands to the replicated log and requests the
notification script. The replicated state machine applies those commands
to the key-value store and to the consensus store's watermarks. The
scavenger drops keys that are no longer configured and slots of nodes that
are no longer gossip members. The node itself keeps the gossip cluster
joined to the raft members, and opens or closes the write gate as raft
leadership changes.

One module per Go file:

| module | file | what it holds |
|---|---|---|
| `Base` | base.go | constants, `Max`, `SliceEqual` |
| `Strconv` | (Go library) | `FormatInt`/`ParseInt`/`FormatBool`/`ParseBool` as the log entries use them |
| `GossipStatus` | gossipCache.go | the status strings |
| `Delegate` | delegate.go | broadcast envelope, invalidation, delegate buffers, member counter |
| `GossipCache` | gossipCache.go | the consensus store and `GossipCacheManager` |
| `Cache` | cache.go | the key-value store `CacheManager` |
| `CommonDetector` | commonDetector.go | `Windowed` ring over an array, `Detector`, the classifier |
| `Fsm` | fsm.go | command dispatch `Step`, the `FSM` class |
| `Quorum` | quorum.go | counting, `hasEvent`, `emptyRecover`, the checks and what they emit |
| `Bridge` | bridge.go | timestamp issue, recording, merging gossip, input fan-out |
| `Scavenger` | scavenger.go | pruning of the consensus store and the detector |
| `StCached` | stCached.go, http.go | host extraction, rejoin set, leadership and the write gate |

The clock is modelled as a parameter `now`, in nanoseconds. Leadership is a
boolean input `leader`. The replicated log and the notification queue are
sequences the quorum checker appends to. The gossip layer's broadcast
queue is the sequence `broadcasts` of the store manager. Go map iteration
order is left unspecified: loops over maps pick any remaining key with
`:|`, and every contract holds whatever order is picked.

## Model

| member | source | states |
|---|---|---|
| Base.Max | src/couchbase-ha-service/base.go:43-48 | the result is at least each argument and equal to one of them |
| Base.SliceEqual | src/couchbase-ha-service/base.go:50-67 | false when exactly one slice is nil; false when the lengths differ; true exactly when nil-ness matches and the elements are equal in order (so it is reflexive and symmetric, `SliceEqualReflexiveSymmetric`) |
| Strconv.ParseInt | src/couchbase-ha-service/fsm.go:40 | a successful base-10 parse yields a 64-bit value; the empty string fails |
| Strconv.ParseFormatInt | src/couchbase-ha-service/quorum.go:49-50 | parsing back a formatted 64-bit timestamp gives the same timestamp |
| Strconv.ParseFormatBool | src/couchbase-ha-service/quorum.go:143 | parsing back a formatted flag gives the same flag |
| Delegate.InvalidatesIsStrict | src/couchbase-ha-service/delegate.go:118-127 | invalidation needs the same node and key and a strictly older timestamp: irreflexive, asymmetric, transitive, and never true of a foreign broadcast |
| Delegate.MyDelegate.SetMeta | src/couchbase-ha-service/delegate.go:26-30 | the metadata becomes the given bytes, which `NodeMeta` then reads back when they fit (`StoredBlobsReadBack`) |
| Delegate.MyDelegate.NodeMeta | src/couchbase-ha-service/delegate.go:32-42 | the result is a prefix of the metadata of at most `limit` bytes, all of it when it fits, exactly `limit` bytes otherwise |
| Delegate.MyDelegate.SetState | src/couchbase-ha-service/delegate.go:45-49 | the state becomes the given bytes, which `LocalState` then reads back |
| Delegate.MyDelegate.MergeRemoteState | src/couchbase-ha-service/delegate.go:81-86 | the remote state becomes the given bytes, which `getRemoteState` then reads back |
| Delegate.MyDelegate.GetMessages | src/couchbase-ha-service/delegate.go:89-96 | returns every buffered message in arrival order and leaves the buffer empty |
| Delegate.MyDelegate.NotifyMsg | src/couchbase-ha-service/delegate.go:98-107 | exactly one message is appended when parsing succeeds, none otherwise |
| Delegate.MyEventDelegate.constructor | src/couchbase-ha-service/delegate.go:162-164 | the member count starts at zero |
| Delegate.MyEventDelegate.NotifyJoin | src/couchbase-ha-service/delegate.go:165-167 | the member count goes up by one |
| Delegate.MyEventDelegate.NotifyLeave | src/couchbase-ha-service/delegate.go:168-170 | the member count goes down by one |
| Delegate.MyEventDelegate.NotifyUpdate | src/couchbase-ha-service/delegate.go:171-173 | the member count is unchanged |
| GossipCache.SetObservation | src/couchbase-ha-service/gossipCache.go:72-91 | a missing key gets an entry holding only this observation, with zero watermarks; a slot is overwritten only by a strictly newer timestamp; other keys, other nodes' slots and the key's watermarks never change; `written` is true exactly when something changed |
| GossipCache.LastWriterWinsInEitherOrder | src/couchbase-ha-service/gossipCache.go:72-91 | two observations of one (key, node) with t1 < t2, applied in either order, leave the same store, and that store holds the t2 observation |
| GossipCache.GossipCacheManager.Set | src/couchbase-ha-service/gossipCache.go:72-91 | for a key that is settable (absent, or with a non-nil node map), the store becomes the last-writer-wins merge, and one broadcast is queued exactly when it writes |
| GossipCache.WithPrevConsensus | src/couchbase-ha-service/gossipCache.go:93-102 | overwrites the previous consensus only, creating a zero entry with a nil node map when the key is missing |
| GossipCache.WithPrevEventTime | src/couchbase-ha-service/gossipCache.go:113-122 | overwrites the event watermark only, creating a zero entry when the key is missing |
| GossipCache.WithEmpty | src/couchbase-ha-service/gossipCache.go:132-141 | overwrites the empty flag only, creating a zero entry when the key is missing |
| GossipCache.WithEmptyTime | src/couchbase-ha-service/gossipCache.go:143-152 | overwrites the empty watermark only, creating a zero entry when the key is missing |
| GossipCache.LazyEntryBlocksSet | src/couchbase-ha-service/gossipCache.go:93-152 | an entry first created by any watermark setter has a nil node map, so a later `Set` on that key would write into it |
| GossipCache.GossipCacheManager.SetPreviousConsensus | src/couchbase-ha-service/gossipCache.go:93-102 | the store becomes `WithPrevConsensus` of the old store |
| GossipCache.GossipCacheManager.SetPreviousEventTime | src/couchbase-ha-service/gossipCache.go:113-122 | the store becomes `WithPrevEventTime` of the old store |
| GossipCache.GossipCacheManager.SetEmpty | src/couchbase-ha-service/gossipCache.go:132-141 | the store becomes `WithEmpty` of the old store |
| GossipCache.GossipCacheManager.SetEmptyTime | src/couchbase-ha-service/gossipCache.go:143-152 | the store becomes `WithEmptyTime` of the old store |
| GossipCache.GossipCacheManager.GetPreviousConsensus | src/couchbase-ha-service/gossipCache.go:104-111 | (previous consensus, true) for a present key, (KEY_NODE_NOT_EXISTS, false) otherwise |
| GossipCache.GossipCacheManager.GetEmpty | src/couchbase-ha-service/gossipCache.go:124-130 | (empty flag, true) for a present key, (false, false) otherwise |
| GossipCache.WithoutNode | src/couchbase-ha-service/gossipCache.go:154-161 | removes that node's slot only; a missing key, or a nil node map, is left alone |
| GossipCache.GossipCacheManager.DelNodeAddr | src/couchbase-ha-service/gossipCache.go:154-161 | the store becomes `WithoutNode` of the old store |
| GossipCache.GossipCacheManager.DelKey | src/couchbase-ha-service/gossipCache.go:163-168 | removes the whole entry of the key and nothing else |
| GossipCache.GossipCacheManager.Clone | src/couchbase-ha-service/gossipCache.go:171-187 | same keys, watermarks and slots, every node map non-nil; equal to the store when no entry has a nil map |
| GossipCache.CopyNodes | src/couchbase-ha-service/gossipCache.go:178-182 | the copied node map equals the original |
| GossipCache.GossipCacheManager.GetKeyNode | src/couchbase-ha-service/gossipCache.go:60-70 | as written: always KEY_NODE_NOT_EXISTS |
| GossipCache.LookupKeyNode | src/couchbase-ha-service/gossipCache.go:60-70 | the stored status of (key, node) when there is one, KEY_NODE_NOT_EXISTS otherwise |
| GossipCache.GetKeyNodeHidesStoredStatus | src/couchbase-ha-service/gossipCache.go:63-68 | wherever a status is stored, `GetKeyNode` disagrees with the lookup |
| GossipCache.GetKeyNodeCounterexample | src/couchbase-ha-service/gossipCache.go:63-68 | a concrete store where the lookup finds UP |
| Cache.CacheManager.Get | src/couchbase-ha-service/cache.go:22-27 | the stored value, or "" for a missing key |
| Cache.CacheManager.GetKey | src/couchbase-ha-service/cache.go:29-36 | success exactly for a present key, with its value; otherwise the not-found error |
| Cache.CacheManager.Set | src/couchbase-ha-service/cache.go:38-43 | after `Set(k, v)`, `Get(k) == v` and every other key reads as before |
| Cache.CacheManager.Del | src/couchbase-ha-service/cache.go:45-50 | removes that key only; a missing key leaves the map unchanged |
| Cache.CacheManager.UnMarshal | src/couchbase-ha-service/cache.go:71-82 | a successful decode replaces the whole map; a failed one changes nothing and reports failure |
| Cache.CacheManager.Clone | src/couchbase-ha-service/cache.go:85-93 | the copy equals the map |
| Cache.CacheManager.Len | src/couchbase-ha-service/cache.go:95-97 | the number of keys |
| CommonDetector.NormalizeOutput | src/couchbase-ha-service/commonDetector.go:78-81 | the output minus one trailing newline, or EMPTY when nothing is left; never the empty string |
| CommonDetector.StatusesAt | src/couchbase-ha-service/commonDetector.go:99-101 | the statuses counted are those of the samples, one each, in order |
| CommonDetector.CountFacts | src/couchbase-ha-service/commonDetector.go:98-101 | the count is at most the number of samples; it is zero exactly when the status is absent, and the full length exactly when every sample shows it |
| CommonDetector.VerdictUnanimous | src/couchbase-ha-service/commonDetector.go:103-107 | when every one of the last samples shows the same status, that status is the answer |
| CommonDetector.VerdictMixed | src/couchbase-ha-service/commonDetector.go:109-113 | when the samples disagree: NO_EMPTY_IN_SAMPLES if none is EMPTY, NOT_FILL_SAMPLES if one is |
| CommonDetector.VerdictIsCounting | src/couchbase-ha-service/commonDetector.go:98-107 | "some status's count equals the sample count" is the same as "all samples equal the first" |
| CommonDetector.Windowed.Len | src/couchbase-ha-service/commonDetector.go:148-154 | min(number pushed, capacity) |
| CommonDetector.Windowed.constructor | src/couchbase-ha-service/commonDetector.go:129-133 | an empty ring of the given capacity, head at 0 |
| CommonDetector.RingPush | src/couchbase-ha-service/commonDetector.go:135-146 | writing at `head` and advancing it, wrapping to 0 at the capacity, keeps the ring holding the newest samples, now including the pushed one |
| CommonDetector.Windowed.Push | src/couchbase-ha-service/commonDetector.go:135-146 | writes the sample at `head`, returns the sample it overwrote, advances `head` modulo the capacity, counts one more push, and keeps the ring holding the newest samples |
| CommonDetector.Windowed.LastNSamples | src/couchbase-ha-service/commonDetector.go:156-164 | for n <= Len, the n most recently pushed samples, oldest first |
| CommonDetector.Windowed.Set | src/couchbase-ha-service/commonDetector.go:166-176 | the ring becomes the given samples, `head` 0 and `length` their number |
| CommonDetector.WindowAfterPushes | src/couchbase-ha-service/commonDetector.go:135-164 | after any number of pushes the ring holds exactly the last min(pushes, capacity) samples |
| CommonDetector.ClassifyLast | src/couchbase-ha-service/commonDetector.go:94-99 | once at least `minSamples` samples are held, the answer is decided on the newest `minSamples` of them only |
| CommonDetector.Classify | src/couchbase-ha-service/commonDetector.go:94-96 | LESS_THAN_MINSAMPLE while fewer than `minSamples` samples are held |
| CommonDetector.ClassifyDefaults | src/couchbase-ha-service/commonDetector.go:94-113 | with minSamples 3: two samples give LESS_THAN_MINSAMPLE; three equal give that status; [UP, UP, DOWN] gives NO_EMPTY_IN_SAMPLES; [UP, EMPTY, UP] gives NOT_FILL_SAMPLES |
| CommonDetector.Detector.constructor | src/couchbase-ha-service/commonDetector.go:28-37 | no rings yet, with the given window size and minimum |
| CommonDetector.Detector.Ping | src/couchbase-ha-service/commonDetector.go:78-87 | the key's ring is created on first use and receives exactly one sample, the normalised output at `now`; no other key's ring changes |
| CommonDetector.Detector.AddRing | src/couchbase-ha-service/commonDetector.go:84-86 | a key without a ring gets a new empty one; every other key keeps its ring |
| CommonDetector.Detector.PushTo | src/couchbase-ha-service/commonDetector.go:87 | the key's ring receives exactly the sample; the set of rings is unchanged |
| CommonDetector.PhiOf | src/couchbase-ha-service/commonDetector.go:94-113 | on one ring: LESS_THAN_MINSAMPLE while too few samples are held, otherwise the verdict on the newest `minSamples` |
| CommonDetector.Detector.Phi | src/couchbase-ha-service/commonDetector.go:91-114 | the classification of the key's ring |
| CommonDetector.Detector.DelKey | src/couchbase-ha-service/commonDetector.go:58-63 | removes that key's ring only |
| CommonDetector.Detector.Get | src/couchbase-ha-service/commonDetector.go:49-56 | the ring's storage for a present key, the not-found error otherwise |
| CommonDetector.Detector.Clone | src/couchbase-ha-service/commonDetector.go:39-47 | one ring per key, each of the window size |
| Fsm.StepByKind | src/couchbase-ha-service/fsm.go:32-61 | SET and DELETE change only the key-value map; the NOTIFY kinds change only the consensus store; NOTIFY_STATUS sets the previous consensus; a value that does not parse, and an unknown kind, change nothing |
| Fsm.ReplayPair | src/couchbase-ha-service/fsm.go:26-64 | replaying two entries applies them in order |
| Fsm.NotifyTimeReadsBack | src/couchbase-ha-service/fsm.go:39-45 | a NOTIFY_TIME or NOTIFY_EMPTY_TIME entry with a formatted timestamp sets that watermark to exactly that timestamp |
| Fsm.NotifyEmptyReadsBack | src/couchbase-ha-service/fsm.go:46-52 | a NOTIFY_EMPTY entry with a formatted flag sets the empty flag to it |
| Fsm.FSM.Apply | src/couchbase-ha-service/fsm.go:26-64 | the two stores take exactly the step for the entry's kind |
| Fsm.FSM.Restore | src/couchbase-ha-service/fsm.go:72-74 | a successful decode replaces the whole key-value map; a failed one changes nothing |
| Quorum.Tally | src/couchbase-ha-service/quorum.go:214-223 | per status, the number of nodes whose observation is strictly newer than the watermark and at most 300 s old, and the number of those that are conclusive and not EMPTY |
| Quorum.TallyOne | src/couchbase-ha-service/quorum.go:253-266 | counting one more node keeps the counts equal to the fresh observations counted so far |
| Quorum.TallySkip | src/couchbase-ha-service/quorum.go:254-259 | a node whose observation is not newer than the watermark, or is stale, changes no count |
| Quorum.TallyCount | src/couchbase-ha-service/quorum.go:260-265 | a node with a fresh observation adds one to its status's count, and one to the recovery count when conclusive and not EMPTY |
| Quorum.PickQuorum | src/couchbase-ha-service/quorum.go:224-230 | some status whose count reaches the quorum, or the empty status when none does |
| Quorum.EventVerdict | src/couchbase-ha-service/quorum.go:231-247 | never both event and pending; an event exactly for a flip between UP and DOWN; pending exactly for UP or DOWN after anything else |
| Quorum.HasEvent | src/couchbase-ha-service/quorum.go:213-248 | the picked status reaches the quorum among fresh observations (none when none does), read against the previous consensus |
| Quorum.EmptyRecover | src/couchbase-ha-service/quorum.go:250-281 | the picked status as in `hasEvent`; recovered exactly when the pick is not EMPTY and at least `quorum` fresh observations are conclusive and not EMPTY |
| Quorum.MajorityQuorumPicksOne | src/couchbase-ha-service/quorum.go:224-230 | with a quorum above half the nodes, at most one status reaches it |
| Quorum.MajorityPickIsDeterministic | src/couchbase-ha-service/quorum.go:224-230 | with a majority quorum the map-order pick is always the same status |
| Quorum.MajorityEmptyExcludesRecovery | src/couchbase-ha-service/quorum.go:250-281 | with a majority quorum, an EMPTY quorum and a recovery quorum cannot both exist |
| Quorum.StaleObservationIgnored | src/couchbase-ha-service/quorum.go:215-221 | an observation not newer than the watermark, or older than 300 s, changes no count |
| Quorum.EventEmissions | src/couchbase-ha-service/quorum.go:47-75 | pending writes NOTIFY_TIME then NOTIFY_STATUS and requests nothing; an event writes NOTIFY_TIME only and requests one notification, for UP or DOWN; otherwise nothing |
| Quorum.EmptyEmissions | src/couchbase-ha-service/quorum.go:83-111 | EMPTY is requested exactly when the key is not marked empty, EMPTY_RECOVER exactly when it is and recovered, never both, each with one NOTIFY_EMPTY_TIME entry |
| Quorum.PassEmissionsFit | src/couchbase-ha-service/quorum.go:42-112 | everything one key's two checks emit is a watermark or status entry, or a notification, of that tracked key |
| Quorum.ResultEntry | src/couchbase-ha-service/quorum.go:141-160 | EMPTY gives NOTIFY_EMPTY "true", EMPTY_RECOVER gives NOTIFY_EMPTY "false", any other status NOTIFY_STATUS with that status |
| Quorum.ResultEntryApplied | src/couchbase-ha-service/quorum.go:141-160 | applied, a result entry sets the empty flag, clears it, or records the status as previous consensus |
| Quorum.EventSettles | src/couchbase-ha-service/quorum.go:62-75 | once an event's entries are applied, the same status is neither an event nor pending again |
| Quorum.PendingSettles | src/couchbase-ha-service/quorum.go:47-61 | once a pending verdict's entries are applied, the same status is neither an event nor pending again |
| Quorum.EmptySettles | src/couchbase-ha-service/quorum.go:83-96 | once an EMPTY verdict's entries are applied, EMPTY is not requested again and a later recovery requests EMPTY_RECOVER |
| Quorum.QuorumChecker.NotifyFollower | src/couchbase-ha-service/quorum.go:169-184 | only the leader writes, exactly one entry; a follower gets an error and nothing is written |
| Quorum.QuorumChecker.CheckEvent | src/couchbase-ha-service/quorum.go:42-76 | nothing while the event watermark is within the interval; otherwise the `hasEvent` verdict, its entries (leader only) and its requests |
| Quorum.QuorumChecker.CheckEmpty | src/couchbase-ha-service/quorum.go:78-112 | nothing while the empty watermark is within the interval; otherwise the `emptyRecover` verdict, its entries (leader only) and its requests |
| Quorum.QuorumChecker.QuorumCheck1 | src/couchbase-ha-service/quorum.go:114-129 | off the leader, or when the barrier fails, nothing; otherwise only appends, each a permitted entry or request of a tracked key |
| Quorum.QuorumChecker.CheckKey | src/couchbase-ha-service/quorum.go:125-128 | one key's two checks append only permitted entries and requests of that tracked key |
| Quorum.QuorumChecker.QuorumCheck2 | src/couchbase-ha-service/quorum.go:131-167 | each finished request, in order, becomes its `ResultEntry`, written only by a leader |
| Bridge.NextTimeStamp | src/couchbase-ha-service/bridge.go:40-42 | one past the larger of the clock and the previous timestamp, so greater than both |
| Bridge.MayEventIsQuorumEvent | src/couchbase-ha-service/bridge.go:43-52 | the "may event" diagnostic fires exactly when the quorum check, picking that status, would report an event |
| Bridge.MayEmptyChangeIsQuorumChange | src/couchbase-ha-service/bridge.go:53-63 | the "may empty" diagnostic fires exactly when a unanimous empty check on that status would write |
| Bridge.MergeAll | src/couchbase-ha-service/bridge.go:72-76 | when every message's key is settable, merging keeps every settable key settable, and so keeps a store without nil node maps free of them |
| Bridge.MergeCovers | src/couchbase-ha-service/bridge.go:72-76 | after a merge every merged message's slot is held at its timestamp or later |
| Bridge.MergeKeepsHolds | src/couchbase-ha-service/gossipCache.go:76-84 | merging never drops a slot and never makes one older |
| Bridge.MergeHeldIsNoop | src/couchbase-ha-service/gossipCache.go:76-84 | messages already held change nothing and are not forwarded |
| Bridge.RedeliveryIsHarmless | src/couchbase-ha-service/bridge.go:72-76 | merging the same messages a second time changes nothing and forwards nothing |
| Bridge.Stamped | src/couchbase-ha-service/bridge.go:34-40 | one envelope per verdict, with this node, the verdict's key, value and status, and its timestamp |
| Bridge.TimestampsIncrease | src/couchbase-ha-service/bridge.go:40-42 | the issued timestamps are strictly increasing, each later than its clock reading and than the starting timestamp |
| Bridge.Bridge.constructor | src/couchbase-ha-service/bridge.go:9-19 | no timestamp issued yet |
| Bridge.Bridge.Record | src/couchbase-ha-service/bridge.go:33-65 | for a settable key, the issued timestamp becomes the last one; the diagnostics read the consensus before the write; then the `Set` of this node's observation |
| Bridge.Bridge.MakeGossip2 | src/couchbase-ha-service/bridge.go:30-70 | when every verdict's key is settable, the timestamps are `Timestamps` of the clock readings, the last one is kept, and the store is the merge of the stamped envelopes |
| Bridge.Bridge.ConsumeGossip | src/couchbase-ha-service/bridge.go:72-76 | when every buffered message's key is settable, the buffer is emptied and every message in it is merged, in order, with its own node and timestamp |
| Bridge.MakeGossip1 | src/couchbase-ha-service/bridge.go:21-28 | exactly one input per configured key, carrying its value |
| Scavenger.Exists | src/couchbase-ha-service/scavenger.go:40-47 | true exactly when the element occurs in the slice |
| Scavenger.Prune | src/couchbase-ha-service/scavenger.go:23-28 | only the slots of members remain, unchanged, with the entry's watermarks and flags |
| Scavenger.Scavenged | src/couchbase-ha-service/scavenger.go:18-29 | only configured keys remain, each pruned to its members' slots |
| Scavenger.ScavengeIdempotent | src/couchbase-ha-service/scavenger.go:10-38 | a second scavenge with the same configuration and members changes nothing |
| Scavenger.ScavengeKeepsMembers | src/couchbase-ha-service/scavenger.go:18-29 | a configured key stays with its watermarks, and a member's slot keeps its observation |
| Scavenger.ScavengeKeepsNoNilMaps | src/couchbase-ha-service/scavenger.go:18-29 | scavenging keeps every entry writable by `Set` |
| Scavenger.PruneVisit | src/couchbase-ha-service/scavenger.go:23-28 | visiting one node deletes a non-member's slot, as `DelNodeAddr` does, and keeps a member's |
| Scavenger.Scavenger.Scavenge | src/couchbase-ha-service/scavenger.go:10-38 | the gossip store becomes `Scavenged`; the detector keeps exactly the rings of configured keys; the key-value store is not touched |
| Scavenger.Scavenger.PruneGossip | src/couchbase-ha-service/scavenger.go:18-29 | the gossip store becomes `Scavenged` of the old store |
| Scavenger.Scavenger.PruneDetector | src/couchbase-ha-service/scavenger.go:31-37 | the detector keeps exactly the rings of configured keys |
| StCached.Split | src/couchbase-ha-service/stCached.go:134 | one piece more than separators, no piece holding the separator |
| StCached.JoinSplit | src/couchbase-ha-service/stCached.go:134 | joining the pieces with the separator gives back the address |
| StCached.HostOf | src/couchbase-ha-service/stCached.go:134-139 | at most one host, given exactly when the address has one ':', and holding no ':' |
| StCached.HostOfAddress | src/couchbase-ha-service/stCached.go:134-139 | "host:port" with no ':' in either part yields the host |
| StCached.HostsOf | src/couchbase-ha-service/stCached.go:131-141 | no longer than the input, and no host holds ':' |
| StCached.GetIP | src/couchbase-ha-service/stCached.go:131-141 | the hosts of the addresses that split into two parts, in input order, skipping the others |
| StCached.Missing | src/couchbase-ha-service/stCached.go:112-117 | a host is in the result exactly when it is a raft host and not a gossip host; order kept |
| StCached.NeedToJoin | src/couchbase-ha-service/stCached.go:112-117 | the raft hosts not among the gossip hosts, in raft order |
| StCached.Members | src/couchbase-ha-service/stCached.go:84-96 | the servers' addresses, or none when the configuration cannot be read |
| StCached.ReJoinGossipNodes | src/couchbase-ha-service/stCached.go:98-129 | one join per missing raft host, in raft order; afterwards every raft host is a gossip host or was joined; no gossip host is joined again and none is removed |
| StCached.HttpServer.constructor | src/couchbase-ha-service/http.go:46-51 | the write gate starts closed |
| StCached.HttpServer.CheckWritePermission | src/couchbase-ha-service/http.go:85-87 | true exactly when the flag holds ENABLE_WRITE_TRUE |
| StCached.HttpServer.SetWriteFlag | src/couchbase-ha-service/http.go:89-95 | afterwards writes are permitted exactly when the flag argument is true |
| StCached.MonitorLeadership | src/couchbase-ha-service/stCached.go:69-82 | after the notifications, writes are permitted exactly when the last one said leader; with none the gate is unchanged |

## Left out

- JSON encoding and decoding are not modelled. Decoding is an input of type `Option`: `UnMarshal`, `Restore` and `NotifyMsg` take the decoded value or `None`. This covers `Marshal`, `MarshalForKey`, `GetKey` of the gossip store, `Message` and `ParseMyBroadcastMessage`.
- Fsm.FSM.Apply: an entry that does not decode panics in Go, so `Apply` takes a decoded entry. Go's nil-vs-error return value is not modelled.
- Locks, channels and goroutines are not modelled: every operation is one atomic sequential step. `makeGossip1` returns its inputs instead of sending them on a channel. `makeGossip2` and `consumeGossip` take their verdicts and messages as sequences.
- GossipCache.GossipCacheManager.Set: writing a node's observation into an entry whose node map is nil panics in Go. Such an entry is made when a watermark setter (fsm.go `NOTIFY_*`) runs on a key the store lacks. The panic is not modelled: `Set`, `Bridge.Bridge.Record` and the merge lemmas require `CanSet` of every key they write, and `MakeGossip2` and `ConsumeGossip` require it of every verdict's or message's key.
- Bridge.Bridge.MakeGossip2: the clock reading for each verdict is an input sequence. The two diagnostics are only logged in Go; they are returned as booleans by `Record`.
- Logging of every kind, the notification and verification processes, and their stdout and stderr are not modelled (shellCmd.go). A finished request is represented by its key and status only.
- Raft is not modelled: `Apply` failures, `Barrier` (a boolean input `barrierOk`), leader election, snapshots and `Snapshot`, and `AddVoter`. `notifyFollower` is modelled as appending to the log when the node is the leader.
- Quorum.QuorumChecker.CheckEvent: one `now` is used for the gate, for freshness and for the written timestamp. Go reads the clock separately for each.
- Scavenger.Scavenger.Scavenge: the verifier is taken to be the common verifier. For any other verifier Go skips the detector pass.
- int64 overflow of timestamps is not modelled (`Max(now, last) + 1` cannot wrap in practice). The zero `time.Time` watermark is its Go nanosecond value.
- CommonDetector.Windowed.Set: the new ring is a fresh array. In Go it may reuse the old backing array.
- CommonDetector.Detector.Get: the result's length is stated, not its contents; they are the ring's storage order.
- CommonDetector.Detector.Clone: the result's lengths are stated, not its contents; they are the ring's storage order.
- Delegate.MyDelegate.SetMeta: `setMeta` and `setState` convert a Go string to bytes; the model takes the bytes.
- `setBroadcasts` and `GetBroadcasts` are not modelled: they wrap memberlist's transmit queue. Its invalidation rule is modelled by `Invalidates`.
- `GoRoutineInSleep` and `GoRoutineInTimeScale` are not modelled: they are sleep loops with floating-point scaling.
- lru.go is not modelled: it is never constructed by the service.
- http.go handlers, options, main.go and gossip.go are not modelled beyond the write gate.
- StCached.ReJoinGossipNodes: a join is modelled as the host it is issued for. memberlist's `Join` and its result are not modelled.
- The service's default window of 5 and minimum of 3 come from commonVerifier.go, which is not part of this model; `ClassifyDefaults` uses the minimum of 3.
- A mixed window with no EMPTY classifies as NO_EMPTY_IN_SAMPLES, as commonDetector.go:109-110 returns. Prose descriptions of the service that give NOT_FILL_SAMPLES for [UP, UP, DOWN] disagree with the code; the model follows the code.

## Findings

| source | as written | input that shows it | evidently intended | confidence | as-written member | corrected member |
|---|---|---|---|---|---|---|
| src/couchbase-ha-service/gossipCache.go:60-70 | the stored status is assigned to `ret`, then overwritten unconditionally by KEY_NODE_NOT_EXISTS | a store where key "k" has node "n1" with status UP: `GetKeyNode("k", "n1")` answers KEY_NODE_NOT_EXISTS | the stored status when (key, node) is present, KEY_NODE_NOT_EXISTS otherwise | high, not executed | GossipCache.GossipCacheManager.GetKeyNode | GossipCache.LookupKeyNode |
