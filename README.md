# Pileus-style SLA client, modelled in Dafny

This project models the core of a Pileus-style key-value system. The client
scores every read against an SLA. An SLA is an ordered list of
(consistency, latency, utility) sub-SLAs. Keys are decimal strings, routed to
shards by inclusive key ranges. Each shard has a primary and secondaries that
pull updates from it.

The model covers these parts of the system:

- **SLA vocabulary and loading** (`consistency.dfy`, `client_util.dfy`). The
  five consistency levels and the sub-SLA record. Case-insensitive parsing of
  level names, loading an SLA file, and ordering its sub-SLAs by rank. Also
  the client session record.
- **The monitor** (`monitor.dfy`). Per-node RTT windows and the utility
  window are 100-slot ring buffers, as classes over arrays with an `index`
  and a `full` flag. The getters read the windows back oldest first. They
  compute integer averages, the node with the lowest average, the share of
  samples under a threshold, and the average utility of a report.
- **The client API** (`api.dfy`, `topology.dfy`):
  - sub-SLA hit detection with its status trace;
  - shard routing and secondary-address population;
  - the artificial-lag table and the retry bound of node reads;
  - the cold-start RTT counter;
  - the session bookkeeping of `Put` and of the four read policies.
- **Workload replay** (`replay.dfy`). Blank-line filtering, sessions of 400
  operations, parsing of operation lines, session and overall averages, and
  the latency-injection schedule.
- **The configuration coordinator** (`coordinator.dfy`):
  - report cooldown per client and region;
  - the histogram argmax and the candidate filter;
  - choice of the closest non-primary node;
  - replication-frequency halving with its floor and its cooldown.
- **The storage node** (`kv_util.dfy`, `redis_store.dfy`, `kv_client.dfy`):
  - key and value checks, and key parsing from the leftmost digit run;
  - the Redis client over a map: `Set` with its shard-range check,
    `SetVersioned`, `Get`, `Delete`, `ScanUpdatedKeys` and option defaulting;
  - the storage test client: routing, `sendPut` and the stop-on-error put
    loop.
- **Workload generators** (`workload_gen.dfy`). The YCSB, read-modify-write
  and monotonic-read generators fill their slot arrays in place. They take
  their random draws and uuids from a supplied stream.
- **Two log-extraction scripts** (`rtt_analyzer.dfy`, `subsla_extract.dfy`).
  The RTT analyser normalises RTTs to microseconds and averages them. The
  second script filters sub-SLA lines and extracts the utilities they hold.
  Both take the log as a sequence of lines.

Shared helpers live in their own modules:

- `wrappers.dfy`: `Option` and `Result`.
- `text.dfy`: Go and Python whitespace, `strings.Fields`, decimal digits,
  `strconv.Atoi`, `%04d`, Python `float()` on digit runs, and `str.strip`.
- `sorting.dfy`: a stable insertion sort by key, as a function.
- `first_match.dfy`: a first-index search.

Network replies, Redis replies, clock readings, random draws and uuids are
parameters of the operations that use them.

## Model

| member | source | states |
|---|---|---|
| ClientUtil.Lower | client/util/util.go:119 | the text folded rune by rune, as strings.ToLower folds it when the result is compared with lower-case ASCII names |
| ClientUtil.ParseConsistency | client/util/util.go:118-133 | succeeds exactly when the lower-cased text is one of eventual, monotonicreads, readmywrites, bounded, strong, giving that name's level 0..4; otherwise it fails with "unknown consistency level: " and the text |
| ClientUtil.ParseConsistencyIgnoresCase | client/util/util.go:119-129 | any mix of capital and small letters spelling a level name parses to that level |
| ClientUtil.LowerMatchesName | client/util/util.go:119 | lower-casing a capitalised spelling of a lower-case name gives the name |
| ClientUtil.FileOrder | client/util/util.go:89-105 | one converted sub-SLA per file entry |
| ClientUtil.FileOrderRanks | client/util/util.go:90-104 | each converted entry carries the rank of the file entry at the same position |
| ClientUtil.LoadSla | client/util/util.go:78-116 | fails exactly when some entry names an unknown consistency level; otherwise it returns the SLA with the given id and the converted entries sorted stably by their own rank |
| ClientUtil.LoadedSlaOrder | client/util/util.go:89-110 | a loaded SLA has one sub-SLA per file entry, is sorted by rank, is a permutation of the file's entries, and keeps equal-rank entries in file order; when the file's ranks are already non-decreasing it is exactly the file order |
| ClientUtil.RankSortAsWritten | client/util/util.go:108-110 | the as-written sort, whose comparator reads the file's ranks by slot index, keeps the number of sub-SLAs |
| ClientUtil.RankSortAsWrittenKeepsSorted | client/util/util.go:108-110 | with non-decreasing file ranks, the as-written sort swaps nothing and keeps file order |
| ClientUtil.RankSortAsWrittenMisorders | client/util/util.go:108-110 | file ranks 3, 1, 2 come out as ranks 1, 3, 2, which is not sorted, where a sort by each entry's own rank gives 1, 2, 3 |
| ClientUtil.Session.Begin | client/api/api.go:41-49 | a new session holds the given SLA and policy, no read or written objects and no utilities |
| ClientUtil.Session.RecordWrite | client/api/api.go:143 | the written object's timestamp is set; every other session field is unchanged |
| Monitor.Recent | client/monitor/monitor.go:111-118 | the history a window holds after n samples has min(n, 100) of them |
| Monitor.AverageNonNegative | client/monitor/monitor.go:177-180 | non-negative samples have a non-negative truncated average |
| Monitor.RingWrite | client/monitor/monitor.go:64-68 | one write at the index into a ring that held a history from the index (full) or up to it (not full) holds that history plus the new sample, truncated to the last 100 |
| Monitor.RttWindow.constructor | client/monitor/monitor.go:56-58 | a new RTT window has index 0, is not full and holds no samples |
| Monitor.RttWindow.Record | client/monitor/monitor.go:64-68 | the window then holds the last 100 of its samples plus the new one, the index advances modulo 100, and full is set exactly when the index wraps to 0 and never reverts |
| Monitor.RttWindow.Snapshot | client/monitor/monitor.go:111-118 | the copy is the held samples, oldest first |
| Monitor.UtilityWindow.constructor | client/monitor/monitor.go:43 | the utility window starts at index 0, not full, holding nothing |
| Monitor.UtilityWindow.Record | client/monitor/monitor.go:88-92 | the same ring update as the RTT window, for utilities |
| Monitor.UtilityWindow.Snapshot | client/monitor/monitor.go:141-148 | the copy is the held utilities, oldest first |
| Monitor.SumWindow | client/monitor/monitor.go:162-175 | the loop's total and count are the sum and number of the held samples |
| Monitor.CountWindow | client/monitor/monitor.go:243-257 | the loop counts the held samples at or under the threshold, and all held samples |
| Monitor.LowestAverage | client/monitor/monitor.go:187-221 | ("", -1) when no window holds samples; whenever some window holds samples, a node holding samples and its average; with non-negative averages, that node's average is least, up to ties |
| Monitor.Monitor.constructor | client/monitor/monitor.go:40-44 | the monitor starts with no node windows, no high timestamps and an empty utility window |
| Monitor.Monitor.AddWindow | client/monitor/monitor.go:53-59 | a node seen for the first time gets an empty window; other windows are untouched |
| Monitor.Monitor.AppendRtt | client/monitor/monitor.go:61-68 | only the node's own window takes the sample |
| Monitor.Monitor.RecordRtt | client/monitor/monitor.go:47-69 | a known node's window takes the sample; an unknown node gets a window holding just this sample; other nodes, timestamps and utilities are untouched |
| Monitor.Monitor.RecordHts | client/monitor/monitor.go:71-76 | the node's high timestamp is overwritten and reads back; nothing else changes |
| Monitor.Monitor.GetHts | client/monitor/monitor.go:121-130 | 0 for a node never recorded |
| Monitor.Monitor.RecordUtility | client/monitor/monitor.go:79-93 | the utility window takes the sample; RTT windows and timestamps are untouched |
| Monitor.Monitor.GetRtts | client/monitor/monitor.go:100-119 | nil exactly for a node without a window, otherwise its samples oldest first |
| Monitor.Monitor.GetUtilities | client/monitor/monitor.go:132-149 | the last min(n, 100) utilities, oldest first |
| Monitor.Monitor.GetAvgRtt | client/monitor/monitor.go:151-181 | the truncated mean of the node's samples; 0 for an unknown node or an empty window |
| Monitor.Monitor.GetLowestAvgRttNode | client/monitor/monitor.go:183-222 | ("", -1) when no node has data; whenever some node has data, a node with data and its average, least among nodes with data when averages are non-negative, up to ties |
| Monitor.Monitor.ProbabilityOfRttBelow | client/monitor/monitor.go:225-269 | the share of the node's samples at or under the threshold, in [0, 1]; with no window or no samples, 1 if optimistic, else 0 |
| Monitor.Monitor.UtilityReportAverage | client/monitor/monitor.go:288-299 | the mean of the non-zero utilities held, 0 when there are none |
| Topology.AddressBookLookup | client/api/api.go:413-416 | an id is in the address book exactly when some node carries it, and it maps to the address of the last such node |
| Topology.BuildAddressBook | client/api/api.go:413-416 | the loop builds exactly that address book |
| Api.ShardFromMeans | client/api/api.go:449-455 | the scan from shard i finds the first shard whose inclusive range holds the key, and finds none only when no such shard exists |
| Api.ShardForKeyMeans | client/api/api.go:442-457 | a non-integer key routes to -1; an integer key routes to the first covering shard, or is the panic (error) when none covers it |
| Api.DetermineShardForKey | client/api/api.go:442-457 | the loop computes that routing |
| Api.PopulateSecondaries | client/api/api.go:412-429 | succeeds exactly when every secondary id is a known node id; each shard's secondaries are then its ids mapped to addresses in order, with nodes and shard count unchanged |
| Api.Verdict | client/api/api.go:517-594 | one sub-SLA's status: for cart SLAs latency is checked before freshness (Lat_Not_Met, Consistency_Not_Met, Met); for psw_sla, Strong targets need latency only, Eventual targets consider only Eventual sub-SLAs, other targets leave NA |
| Api.Trace | client/api/api.go:554-567 | the status list of the first n sub-SLAs, one entry per sub-SLA in order |
| Api.Detection | client/api/api.go:514-598 | the hit is the first Met sub-SLA and the list ends with it; no hit means no entry is Met and every sub-SLA was examined; an unrecognised id gives no hit and no statuses |
| Api.DetectSubSlaHit | client/api/api.go:514-598 | the loops compute exactly that detection |
| Api.CartHit | client/api/api.go:549-594 | for cart_sla, dynamic_cart_sla and new_sla the hit is the first sub-SLA within latency whose minimum read timestamp the node has reached |
| Api.PasswordStrongHit | client/api/api.go:517-529 | psw_sla with a Strong target hits the first sub-SLA within latency |
| Api.PasswordEventualHit | client/api/api.go:530-547 | psw_sla with an Eventual target hits the first Eventual sub-SLA within latency; the others stay NA |
| Api.PasswordOtherTargetMisses | client/api/api.go:517-547 | psw_sla with any other target never hits and every status is NA |
| Api.SelectSub | client/api/api.go:288-319 | the per-policy loop returns the first sub-SLA its rule accepts |
| Api.FreshEnoughMatchesDetection | client/api/api.go:285-298 | the cart rule of the random and closest reads picks the same sub-SLA as hit detection |
| Api.PrimaryOrEventualMatchesDetection | client/api/api.go:306-319 | the password rule picks what hit detection picks for a Strong target at the primary, or for an Eventual target elsewhere |
| Api.Scored | client/api/api.go:285-325 | with no rule, the zero sub-SLA; otherwise the accepted sub-SLA, or the zero sub-SLA when none is accepted |
| Api.ReadOutcome | client/api/api.go:460-509 | succeeds exactly when one of the first three attempts replies; then it is the first reply, with the node's lag added to the RTT; otherwise ("", -1, -1, 0) and the third attempt's error |
| Api.MeanBounds | client/api/api.go:56-64 | utilities in [0, hi] average to a value in [0, hi] |
| Api.EndSession | client/api/api.go:51-76 | reports the mean utility and the numbers of keys read and written, then empties the session |
| Api.ScoreRead | client/api/api.go:277-325 | appends exactly one utility, the scored sub-SLA's (0 when none), and returns an error when no sub-SLA is hit; read and write timestamps are untouched |
| Api.ScoreDetection | client/api/api.go:196-212 | appends the hit's utility or 0; records the read timestamp only on a hit; returns an error without a hit |
| Api.Client.constructor | client/api/api.go:85-88 | no configuration, no lags and a cold-start counter of 0 |
| Api.Client.Lag | client/api/api.go:673-677 | 0 for an address never set, otherwise the lag set for it |
| Api.Client.SetArtificialLat | client/api/api.go:656-671 | the lag goes to the address of the first node with the id; an unknown id changes nothing |
| Api.Client.LoadReplicationConfig | client/api/api.go:401-440 | installs the configuration exactly when every secondary id resolves, with secondaries populated; on error the old configuration stays |
| Api.Client.CountRtt | client/api/api.go:134-138 | the cold-start counter goes up by one, and the RTT is recorded only once the counter exceeds 5 |
| Api.Client.ReadFromNode | client/api/api.go:460-510 | the result is the read outcome; only a success counts towards the cold start, records its RTT past the cold start and records the node's high timestamp |
| Api.Client.CompletePut | client/api/api.go:134-143 | the RTT plus the primary's lag is counted, then the write timestamp recorded; nothing else changes |
| Api.Client.Put | client/api/api.go:93-146 | errs exactly when the request fails, and then changes nothing; a success counts the RTT at the key's primary and records the write timestamp |
| Api.Client.PileusGet | client/api/api.go:169-213 | reads the optimizer's node, appends exactly one utility (the hit's or 0) to the session and the monitor, and records the read timestamp only on a hit |
| Api.Client.PrimaryOnlyGet | client/api/api.go:220-257 | reads the key's primary; without an SLA nothing is scored; otherwise the first sub-SLA within latency is gained and one utility (it or 0) appended |
| Api.Client.RandomGet | client/api/api.go:260-326 | reads the drawn node; cart_sla and psw_sla are scored by their rules, other SLAs gain nothing; one utility is appended to the session |
| Api.Client.ClosestNode | client/api/api.go:335 | "" exactly when no node has samples; whenever some node has samples, a node with samples whose average is least among the nodes with samples when averages are non-negative, up to ties |
| Api.Client.ClosestGet | client/api/api.go:328-394 | reads from the node ClosestNode picks: "" when no node has samples, otherwise a node with samples whose average RTT is least (averages non-negative, up to ties); the read is then the one ReadClosest states |
| Api.Client.ReadClosest | client/api/api.go:336-394 | reads the given node; cart_sla, new_sla and psw_sla are scored by their rules, other SLAs gain nothing; exactly one utility is appended to the session; the monitor's utilities are unchanged; configuration and lags are unchanged |
| Api.Client.Get | client/api/api.go:150-167 | dispatches on the policy, with Pileus the default: the result and the new session and monitor are exactly what the random, primary-only, closest or Pileus read leaves, the closest read being from a node of least average RTT as ClosestGet states; configuration, lags, policy and default SLA are unchanged; every read except an unscored primary-only read appends exactly one utility to the session, and only the Pileus read also records it in the monitor |
| Replay.NonBlankAppend | client/client.go:118-123 | filtering distributes over concatenation, so kept lines stay in order |
| Replay.NonBlankMembers | client/client.go:118-123 | a line is kept exactly when it is in the log and is not whitespace only |
| Replay.ReadOps | client/client.go:115-123 | the scanner loop keeps exactly the non-blank lines, in order |
| Replay.SessionOps | client/client.go:133-137 | every session holds between 1 and 400 operations |
| Replay.SessionsPartition | client/client.go:133-137 | there are ceil(n/400) sessions; operation j is at position j mod 400 of session j div 400; every session but the last is full |
| Replay.ParseOp | client/client.go:143-170 | malformed exactly when the line has fewer than 2 fields; READ and WRITE actions come from those verbs; any other verb is unknown |
| Replay.ParseReadLine | client/client.go:150-153 | a READ line reads its second field, ignoring extra fields |
| Replay.ParseWriteLine | client/client.go:159-167 | a WRITE line writes its third field under its second, ignoring extra fields |
| Replay.ParseShortWrite | client/client.go:160-163 | a WRITE line without a value is skipped |
| Replay.ParseSession | client/client.go:142-171 | each line of the session becomes its action |
| Replay.Average | client/client.go:174-181 | sum/len of the session's utilities, 0 when empty |
| Replay.Overall | client/client.go:189-196 | an overall average is reported exactly when there was at least one session |
| Replay.RunSession | client/client.go:133-185 | runs session i/400 and returns its average |
| Replay.ReplayWorkload | client/client.go:104-199 | one average per session of the non-blank lines, and the overall average of them |
| Replay.LagTimeline | client/client.go:238-262 | clem is 60ms slow from session 4 through 15 and utah from 8 through 11; both are 0 from session 16; nothing changes before session 4 |
| Replay.LagsSettle | client/client.go:241-262 | after session 16 the lag table no longer changes |
| Replay.ReplayWithArtificialLatency | client/client.go:201-323 | the same replay, with the lag table following the schedule for the number of sessions run |
| Replay.ClientConfigByRegion | client/client.go:403-408 | the region's entry, or an error exactly when the region is absent |
| Coordinator.Trunc | configuration_coordinator/coordinator.go:200 | the float-to-duration conversion truncates toward zero: n <= x < n + 1 for x >= 0, and n - 1 < x <= n for x < 0 |
| Coordinator.PopulateShard | configuration_coordinator/coordinator.go:259-274 | succeeds exactly when every secondary id is known; the secondaries are the addresses in order, each starting at the default frequency |
| Coordinator.Populate | configuration_coordinator/coordinator.go:252-276 | succeeds exactly when every shard's secondary ids are known, populating every shard |
| Coordinator.IsPrimaryForShard | configuration_coordinator/coordinator.go:285-287 | true exactly when the node is shard 0's primary; no answer (the panic) without a configuration or shard |
| Coordinator.AdmittedStaysRecorded | configuration_coordinator/coordinator.go:121-128 | after an accepted report, its key stays recorded with a time no earlier than it |
| Coordinator.AcceptedReportsSpaced | configuration_coordinator/coordinator.go:121-128 | two accepted reports for one key are at least 2s apart |
| Coordinator.MostFrequent | configuration_coordinator/coordinator.go:141-153 | a key with the largest positive count, or "" with count 0 when no count is positive |
| Coordinator.Closest | configuration_coordinator/coordinator.go:177-189 | the node other than the primary with the least RTT below 1e9, or "" when there is none |
| Coordinator.WithFreq | configuration_coordinator/coordinator.go:226 | only shard 0's frequency for the node changes |
| Coordinator.Coordinator.constructor | configuration_coordinator/coordinator.go:86-97 | no report times, no update times, no configuration |
| Coordinator.Coordinator.LoadReplicationConfig | configuration_coordinator/coordinator.go:241-282 | installs the populated configuration exactly when every secondary id is known; otherwise the old one stays |
| Coordinator.Coordinator.HandleReport | configuration_coordinator/coordinator.go:108-136 | 400 for an undecodable body; 429 when an accepted report for the key is under 2s old, leaving the times alone; otherwise 200 with the time recorded |
| Coordinator.Coordinator.Adjust | configuration_coordinator/coordinator.go:177-232 | picks the other node with the least RTT below 1e9, none ("") exactly when every other RTT is at least 1e9; each outcome holds exactly when its guard does: no node, within the node's cooldown, out of cooldown at frequency 5 or below, or (when due) no reply, a non-OK reply or an OK reply; only the OK reply halves shard 0's frequency for the node and records the update time, every other outcome changes nothing |
| Coordinator.Coordinator.HandleReportAnalysis | configuration_coordinator/coordinator.go:139-239 | analyses the most frequent pattern; acts only on a Lat_Not_Met entry at consistency 1, 2 or 3 whose node is the shard-0 primary; at most one adjustment per analysis, whose outcome and new state are exactly what Adjust states for the analysed entry's node and the report's RTTs |
| KvUtil.CheckKey | redis_kv_store/util/util.go:50-55 | an error exactly for the empty key |
| KvUtil.CheckVal | redis_kv_store/util/util.go:58-63 | an error exactly for a nil value |
| KvUtil.CheckKeyAndValue | redis_kv_store/util/util.go:42-47 | an error exactly when either is bad, the key's error first |
| KvUtil.FindDigits | redis_kv_store/util/util.go:39 | the leftmost maximal digit run, "" exactly when the key has no digit |
| KvUtil.KeyToInt | redis_kv_store/util/util.go:65-71 | the value of the leftmost digit run; an error when there is none or it exceeds the int64 range |
| KvUtil.KeyToIntOfPadded | redis_kv_store/util/util.go:65-71 | a "%04d" key after a digit-free prefix parses back to its number |
| KvUtil.KeyToIntOfItoa | redis_kv_store/util/util.go:65-71 | the decimal spelling of a key parses back to the key |
| KvUtil.FindDigitsOfItoa | redis_kv_store/util/util.go:65-71 | the digit run of an integer's decimal spelling is the spelling of its absolute value |
| KvUtil.Contains | redis_kv_store/util/util.go:87-94 | true exactly when the element occurs in the slice |
| RedisStore.WithDefaults | redis_kv_store/redis/redis.go:189-204 | an empty address, a nil timeout and a nil codec get their defaults; everything else, the shard range included, is kept |
| RedisStore.SetRefusal | redis_kv_store/redis/redis.go:32-46 | Set refuses exactly an empty key, a nil value, or a key without digits or outside the inclusive shard range, key and value errors first |
| RedisStore.Client.constructor | redis_kv_store/redis/redis.go:220-224 | the client holds the options' address, timeout, codec and range |
| RedisStore.Client.Set | redis_kv_store/redis/redis.go:32-66 | on success the key maps to the value with the time in milliseconds; on any refusal or Redis error the store is unchanged |
| RedisStore.Client.SetVersioned | redis_kv_store/redis/redis.go:70-84 | only the key is checked, with no range check; the version is stored as given |
| RedisStore.Client.Get | redis_kv_store/redis/redis.go:92-109 | a bad key or destination is refused; an absent key is (false, no error); a present key is found, with a decode error when its data is not a versioned value |
| RedisStore.Client.Delete | redis_kv_store/redis/redis.go:114-124 | only an empty key or a Redis error fails; deleting an absent key succeeds |
| RedisStore.Client.ScanUpdatedKeys | redis_kv_store/redis/redis.go:126-154 | each key at most once; every record is a key whose value decodes with a timestamp after since and whose Get did not fail, with its stored value and timestamp; a key whose Get fails is not reported; when the scan iterator fails after n keys at most n records are returned, and when it does not fail before the end every such key is reported |
| RedisStore.NewClient | redis_kv_store/redis/redis.go:186-227 | an error exactly when the ping fails; otherwise a client with the defaulted options |
| KvClient.AsWrittenRefusesShardKeys | redis_kv_store/client.go:46-56 | with the options as written (range [0, 0]) every key other than 0 is refused |
| KvClient.ShardOptionsAcceptShardKeys | redis_kv_store/client.go:46-56 | with the shard's own range every key of the shard is accepted |
| KvClient.LoadConfig | redis_kv_store/client.go:34-60 | fails exactly when some connection fails; otherwise one distinct client per shard with the shard's address and range |
| KvClient.DetermineShardForKey | redis_kv_store/client.go:115-126 | the first shard whose inclusive range holds the key, or the panic when none does |
| KvClient.SendPut | redis_kv_store/client.go:100-113 | Set on the chosen shard's primary under the key's decimal spelling; no covering shard is the panic and changes no store |
| KvClient.SetAcceptsItoa | redis_kv_store/redis/redis.go:32-46 | Set accepts the decimal spelling of an integer key exactly when the key's absolute value is in the int64 range and in the shard's range (the '-' is not part of the digit run) |
| KvClient.PutsAppliedUntouched | redis_kv_store/client.go:77-98 | a primary that none of the first k keys routes to keeps its store |
| KvClient.PutsAppliedLastWins | redis_kv_store/client.go:77-113 | after the first k puts, a primary holds under a key the value and millisecond stamp of the last successful put of that key that landed on it |
| KvClient.NthPut | redis_kv_store/client.go:82-95 | the j-th put uses the j-th draw modulo 6000 and the j-th uuid; it succeeds exactly when that put does; each primary's store changes exactly by that put, when it lands there |
| KvClient.PutStep | redis_kv_store/client.go:82-95 | one iteration of the loop: the primaries' stores go from the first k puts to the first k + 1, and the put fails exactly when the k-th does |
| KvClient.PutWorkload | redis_kv_store/client.go:77-98 | errs exactly when some of the count puts fails, stopping at the first; a key no shard covers, where Go panics, is reported as the error "No shard found for key"; the primaries' stores end as their old stores after the puts made |
| WorkloadGen.OpLineParses | client/ycsb/workload_gen.go:43-55 | every generated line parses back, in the replay client, to the operation it came from, and its key converts back to the number |
| WorkloadGen.YcsbOp | client/ycsb/workload_gen.go:43-56 | the key is below the key space, and the operation is a READ exactly when the float draw is below the read proportion |
| WorkloadGen.YcsbLines | client/ycsb/workload_gen.go:42-57 | exactly size lines |
| WorkloadGen.YcsbWorkloadGen | client/ycsb/workload_gen.go:31-61 | nothing and the error when the file cannot be created; otherwise the lines up to the first failed write |
| WorkloadGen.YcsbLineShape | client/ycsb/workload_gen.go:42-57 | every line is a READ or WRITE of a "%04d" key below the key space, a READ exactly when its float draw is below the proportion |
| WorkloadGen.Randomness.constructor | client/ycsb/workload_gen.go:40 | a fresh stream of draws and uuids, nothing used |
| WorkloadGen.Randomness.Intn | client/ycsb/workload_gen.go:43 | the next draw modulo n, or none once the draws are exhausted |
| WorkloadGen.Randomness.NewUuid | client/ycsb/workload_gen.go:51 | the next uuid of the stream |
| WorkloadGen.FreeSlot | client/ycsb/workload_gen.go:90-96 | a slot that is not occupied, drawn until one is found |
| WorkloadGen.FillReads | client/ycsb/workload_gen.go:132-140 | taken slots keep their operations, every free slot gets a READ, and every slot is then filled |
| WorkloadGen.PlaceWrites | client/ycsb/workload_gen.go:88-107 | count WRITEs at distinct, previously free slots, with their keys and uuids; other slots are unchanged |
| WorkloadGen.PlaceRmwReads | client/ycsb/workload_gen.go:109-130 | each placed read is a READ of its write's key, 1 to 6 slots after it, inside the session, on a previously free slot; no two share a slot; nothing else changes |
| WorkloadGen.RmwSession | client/ycsb/workload_gen.go:76-145 | 400 operations; WRITEs exactly at the 200 distinct write slots, each with its key; a placed read of one of the first 120 writes is a READ of its key 1 to 6 slots later, no two on one slot; every key in the key space |
| WorkloadGen.RmwSessionShaped | client/ycsb/workload_gen.go:80-107 | such a session has exactly 200 WRITEs |
| WorkloadGen.GenerateRmwWorkload | client/ycsb/workload_gen.go:63-149 | 5 sessions of 400 lines, each with exactly 200 WRITEs; fewer only when the draws run out; nothing when the file cannot be created |
| WorkloadGen.ChooseIndicesAsWritten | client/ycsb/workload_gen.go:177-188 | as written, every draw is taken as it comes, since nothing marks a chosen slot |
| WorkloadGen.ChooseIndices | client/ycsb/workload_gen.go:177-188 | 120 distinct slots, exactly the ones marked occupied |
| WorkloadGen.Alternated | client/ycsb/workload_gen.go:190-201 | assigning the alternating operations keeps the number of slots |
| WorkloadGen.AlternatedAt | client/ycsb/workload_gen.go:190-201 | with distinct slots, the j-th sorted slot holds a READ for even j and a WRITE for odd j of the key; no other slot changes |
| WorkloadGen.AssignAlternating | client/ycsb/workload_gen.go:191-201 | the loop computes the alternated slots and marks each sorted slot occupied, leaving the other slots' marks alone; no draw is used |
| WorkloadGen.SortSlots | client/ycsb/workload_gen.go:190 | sort.Ints gives a sorted permutation |
| WorkloadGen.SortedChoice | client/ycsb/workload_gen.go:189-190 | distinct chosen slots sort into strictly increasing positions |
| WorkloadGen.StressedSlots | client/ycsb/workload_gen.go:190-201 | on an empty session exactly the chosen slots are taken, each by its alternating operation |
| WorkloadGen.StressKey | client/ycsb/workload_gen.go:172-201 | the stressed key below 1000 with 120 increasing slots alternating READ/WRITE of it, starting with a READ |
| WorkloadGen.MonotonicSession | client/ycsb/workload_gen.go:165-233 | a full session whose stressed slots alternate READ/WRITE of one key, starting with a READ; every key below 1000 |
| WorkloadGen.GenerateMonotonicWorkload | client/ycsb/workload_gen.go:151-236 | 5 sessions of 400 lines of that shape; fewer only when the draws run out |
| WorkloadGen.MonotonicAsWrittenCollides | client/ycsb/workload_gen.go:179-201 | as written, 120 draws of 7 choose slot 7 each time, and the last of the 120 alternating assignments leaves a WRITE there, so the stressed key occupies one slot and its sequence does not start with a READ |
| Sorting.SortBySortedPermutation | client/util/util.go:108-110 | the stable sort's result is ordered by key and a permutation of its input |
| Sorting.SortByStable | client/util/util.go:108-110 | elements with equal keys keep their relative order |
| Sorting.SortByKeepsSorted | client/util/util.go:108-110 | an input already in key order comes back unchanged |
| Text.FieldsAreWords | client/client.go:143 | every field of strings.Fields is non-empty and has no whitespace |
| Text.FieldsOfWord | client/client.go:143 | a word followed by whitespace (or nothing) is split off as one field |
| Text.FieldsOfUnwords | client/client.go:143 | strings.Fields splits a space-joined line back into its words |
| Text.Decimal | redis_kv_store/client.go:106 | the shortest decimal spelling, read back as the number |
| Text.Pad4 | client/ycsb/workload_gen.go:43 | "%04d": at least four digits, read back as the number, the plain spelling from four digits on |
| Text.Atoi | client/api/api.go:443 | strconv.Atoi accepts exactly an optional sign followed by one or more decimal digits whose signed value is in the int64 range, and returns that value |
| Text.AtoiOfDecimal | client/api/api.go:443 | the decimal and "%04d" spellings of a number in the int64 range convert back to it |
| Text.Itoa | redis_kv_store/client.go:106 | strconv.Itoa: the decimal digits, with a minus sign for negatives |
| Text.ParseFloatAccepts | eval/fig-11-12/rtt-analyzer.py:13 | float() of a run of digits and dots succeeds exactly when it holds a digit and at most one dot |
| Text.ParseFloatOfDecimal | eval/fig-11-12/rtt-analyzer.py:13 | an integer spelling reads back as the number |
| Text.ParseFloatOfFraction | eval/fig-11-12/rtt-analyzer.py:13 | digits, a dot and digits read back as the whole part plus the scaled fraction |
| Text.TwoDotsRejected | eval/fig-11-12/rtt-analyzer.py:13 | two dots anywhere make float() raise |
| Text.StripIsSlice | eval/fig13/plot.py:8 | strip keeps the slice between the whitespace runs of a line that holds a non-space |
| Text.PyStripTrims | eval/fig13/plot.py:8 | strip empties an all-whitespace line, otherwise starts and ends with a non-space, and is idempotent |
| RttAnalyzer.MatchAt | eval/fig-11-12/rtt-analyzer.py:6 | a match at p is "rtt is", a non-empty run of digits and dots, and one of µs, us, ms |
| RttAnalyzer.MatchAtComplete | eval/fig-11-12/rtt-analyzer.py:6 | any number and unit the pattern could match at p are exactly what the greedy match finds |
| RttAnalyzer.SearchFrom | eval/fig-11-12/rtt-analyzer.py:11 | re.search finds the leftmost matching position, or none when no position matches |
| RttAnalyzer.SearchIs | eval/fig-11-12/rtt-analyzer.py:11 | the search returns p when the pattern matches there and nowhere before |
| RttAnalyzer.Outcomes | eval/fig-11-12/rtt-analyzer.py:9-25 | one outcome per line, in file order |
| RttAnalyzer.ParseLine | eval/fig-11-12/rtt-analyzer.py:10-25 | one loop pass: lines without "and rtt is" or without a match give nothing; ms values are scaled by 1000, µs and us values kept |
| RttAnalyzer.LineRttAt | eval/fig-11-12/rtt-analyzer.py:10-25 | a qualifying line whose first match is at p yields that match's value |
| RttAnalyzer.ParseLogAndComputeAvgRtt | eval/fig-11-12/rtt-analyzer.py:3-31 | the report is what the loop over the lines gathers, then the average or "No RTT values found." |
| RttAnalyzer.ScanStops | eval/fig-11-12/rtt-analyzer.py:13 | once float() raises, later lines change nothing |
| RttAnalyzer.ScanMeaning | eval/fig-11-12/rtt-analyzer.py:9-25 | the run completes exactly when no line holds a rejected number, and then holds every line's sample in order; otherwise it stops at the first such line |
| RttAnalyzer.ReportMeaning | eval/fig-11-12/rtt-analyzer.py:27-31 | the report is the first rejected number, "No RTT values found." for no samples, or sum/len of the samples |
| RttAnalyzer.SamplesAppend | eval/fig-11-12/rtt-analyzer.py:25 | samples come out in line order |
| RttAnalyzer.SamplesFromLines | eval/fig-11-12/rtt-analyzer.py:11-25 | every sample is some line's own value; there are no more samples than lines |
| RttAnalyzer.LogLineOutcome | eval/fig-11-12/rtt-analyzer.py:10-25 | a client line "node_hts is h and rtt is <num><unit>" yields the value in microseconds, or the float() error |
| RttAnalyzer.SecondsSkipped | eval/fig-11-12/rtt-analyzer.py:6 | an RTT printed in seconds matches no unit and contributes nothing |
| RttAnalyzer.TwoDotsCrash | eval/fig-11-12/rtt-analyzer.py:13 | "1.2.3ms" makes float() raise |
| SubslaExtract.ExtractMatchingLines | eval/fig13/plot.py:4-10 | the loop writes exactly the filter's output |
| SubslaExtract.MatchingLinesAppend | eval/fig13/plot.py:6-10 | the filter keeps line order |
| SubslaExtract.MatchingLinesSound | eval/fig13/plot.py:7-10 | every written line is a selected line of the log, stripped; no more lines than the log |
| SubslaExtract.MatchingLinesComplete | eval/fig13/plot.py:7-10 | every line containing "chosen subsla is" or "subSLAGained" is written, stripped |
| SubslaExtract.StripKeepsInfix | eval/fig13/plot.py:7-8 | stripping cannot cut into a pattern that starts and ends with a non-space |
| SubslaExtract.WrittenLinesSelected | eval/fig13/plot.py:7-8 | a written line is still selected, so filtering twice keeps everything |
| SubslaExtract.TailComplete | eval/fig13/plot.py:14-15 | a space, digits and dots, and a brace form the tail, capturing exactly those digits |
| SubslaExtract.LazyFrom | eval/fig13/plot.py:14 | the lazy `.*?` reaches the nearest tail without crossing a newline |
| SubslaExtract.SearchFrom | eval/fig13/plot.py:19-20 | re.search finds the leftmost start from p on, or none |
| SubslaExtract.Group | eval/fig13/plot.py:19-22 | a captured group is a non-empty run of digits and dots |
| SubslaExtract.GroupFound | eval/fig13/plot.py:14-20 | the group is the number of the nearest tail after the first occurrence of the literal |
| SubslaExtract.GroupAbsent | eval/fig13/plot.py:19-20 | no occurrence of the literal means no group |
| SubslaExtract.LineUtilitiesShape | eval/fig13/plot.py:21-24 | each pattern adds at most one value; a line matching both adds two, the "=" one first; a line matching neither adds nothing |
| SubslaExtract.AppendFound | eval/fig13/plot.py:21-22 | one append: the value of a found group, nothing without a match, or the float() error |
| SubslaExtract.AppendLineUtilities | eval/fig13/plot.py:19-24 | one pass of the loop body appends the line's values in order |
| SubslaExtract.ExtractSubslaUtilities | eval/fig13/plot.py:12-26 | the loop gathers every line's values in order, or stops with the first float() error |
| SubslaExtract.UtilitiesStop | eval/fig13/plot.py:22 | once float() raises, later lines change nothing |
| SubslaExtract.UtilitiesAppend | eval/fig13/plot.py:17-24 | without an error, values come out in line order |
| SubslaExtract.GainedLineUtility | eval/fig13/plot.py:14-24 | a client line with one gained sub-SLA after either label yields that sub-SLA's utility |
| SubslaExtract.SingleGroupUtility | eval/fig13/plot.py:19-24 | a line where only one pattern matches yields that value alone |
| SubslaExtract.TwoDotsUtilityCrash | eval/fig13/plot.py:22 | a "1.2.3" utility makes float() raise |

## Left out

- Network I/O is left out. HTTP requests in Put, readFromNode, MeasureProbeRTT, SendProbes and WaitForSecondaries, the utility report's POST, and the coordinator's HTTP server become reply parameters. SendProbes, MeasureProbeRTT, WaitForSecondaries, GetPrimaryLatestKey and PrintRTTs (client/api/api.go:606-748) are not part of this model, because they only probe, wait or print.
- Concurrency is left out. The mutexes, the reporting goroutine of client/client.go and `go handleReportAnalysis` are not modelled, and everything runs single-threaded.
- The optimizer (client/optimizer/optimizer.go) is not part of this model. Its FindNodeToRead result is an input: the node, the target sub-SLA and the minimum read timestamps.
- monitor.RecordReadStatus is not part of this model, because client/monitor/monitor.go does not define it. The status trace it would store is modelled.
- Floating point is left out. Utilities, averages, probabilities and frequencies are exact reals, and Python float() gives the exact decimal value.
- Regular-expression `\d` and Python float() are modelled over ASCII digits only.
- Encodings are left out: JSON (un)marshalling, the Redis codec and its gob option. A stored value either decodes to a versioned value or does not. KvUtil.KeyToInt's errors keep only the tail of strconv.Atoi's messages ("value out of range"), without the function name and the input that Go's *NumError prints.
- File handling and printing are left out. Files become sequences of lines, and printing and `%.2f` formatting are not modelled. The reported average is the exact mean.
- Randomness comes from a supplied finite stream. Drawing stops with a failure when the draws run out, where Go would keep drawing.
- WorkloadGen.YcsbWorkloadGen: its key draws and float draws are separate sequences, not one interleaved generator.
- The Go int64 range is modelled only where the source checks it (strconv.Atoi). Sums of durations and counters are unbounded integers.
- Go map iteration order is not modelled. Results of the lowest-average node and of the coordinator's argmax and argmin loops are stated up to ties.
- The main functions, password_checking_putWorkload and loadStaticSLAs (client/client.go:31-102, 326-387) are not modelled. They only wire files and fixed SLA names together. The plotting half of eval/fig13/plot.py is left out as well.
- A Go panic is mostly a precondition: an index out of range, and a key that no shard covers in Api.Client.Put, Api.Client.PrimaryOnlyGet, Api.Client.RandomGet, Api.Client.ClosestGet and Api.Client.Get (the `Routes` precondition). The no-shard panic is an explicit outcome only in Api.DetermineShardForKey, Api.ShardForKeyMeans, KvClient.DetermineShardForKey and KvClient.SendPut.
- KvClient.PutWorkload: where Go panics on a key that no shard covers, the model returns the panic's message as an error and stops.
- Api.Client.SetArtificialLat: the configuration before loading is modelled as an empty one, so a call then changes nothing where Go panics on the nil configuration.
- ClientUtil.LoadSla: models the corrected behaviour of the Findings row for client/util/util.go:108-110, sorting the converted entries by their own rank. ClientUtil.RankSortAsWritten shows the as-written order.
- Replay: the Get and Put calls a session makes are the parameter `execute`, which gives the utilities a session gathers. The client calls themselves are modelled in Api.
- KvClient.LoadConfig: models the corrected behaviour of the Findings row for redis_kv_store/client.go:46-51. Each client gets its own shard's range, where the code as written keeps DefaultOptions' range [0, 0]. KvClient.AsWrittenRefusesShardKeys shows the as-written behaviour.
- WorkloadGen.StressKey: models the corrected behaviour of the Findings row for client/ycsb/workload_gen.go:179-188. Its slots come from WorkloadGen.ChooseIndices, which marks each chosen slot occupied. WorkloadGen.ChooseIndicesAsWritten and WorkloadGen.MonotonicAsWrittenCollides show the as-written behaviour.
- WorkloadGen.GenerateMonotonicWorkload: built on WorkloadGen.StressKey, so it too models the corrected step 1 of that Findings row.
- Api.Client.Put routes through the shard function that Api.DetermineShardForKey is proved to compute, rather than calling the loop itself.
- Api.Client.Put: a failed request creation, a failed request and an undecodable reply are one error outcome that changes nothing.
- Api.Client.PileusGet: the optimizer's choice is an input, and a session without a default SLA and without a given SLA is a precondition. In Go it is a nil dereference.
- WorkloadGen.PlaceRmwReads: the contract states where a placed read lands and that no two share a slot. It does not say which of the ten offset draws decides whether a read is placed.
- WorkloadGen.MonotonicSession: the contract states the stressed key's alternating slots and the key range. It does not count the random WRITEs of step 2. It models the corrected step 1 of the Findings row for client/ycsb/workload_gen.go:179-188, through WorkloadGen.StressKey.
- ClientUtil.RankSortAsWritten: it follows the insertion sort that sort.SliceStable uses for up to 20 elements. The merge steps for longer lists are not modelled.
- RttAnalyzer: lines whose RTT Go prints in seconds or with a compound unit ("1m2s") give no sample. The model shows this for the seconds form only.
- The unknown-unit branch of rtt-analyzer.py (lines 21-23) has no model, because the pattern admits only µs, us and ms. RttAnalyzer.MatchAt's contract states that restriction.

## Findings

| source | as written | input that shows it | evidently intended | confidence | as-written member | corrected member |
|---|---|---|---|---|---|---|
| client/util/util.go:108-110 | the comparator reads ranks from the file's entries by slot index while the sort moves the converted sub-SLAs | file ranks 3, 1, 2 give the order ranks 1, 3, 2 | sub-SLAs sorted stably by their own rank | not executed | ClientUtil.RankSortAsWrittenMisorders | ClientUtil.LoadedSlaOrder |
| client/ycsb/workload_gen.go:179-188 | step 1's retry loop tests `occupied` but nothing marks a chosen slot, so a slot can be chosen again | 120 draws that are all 7 modulo 400 choose slot 7 each time; the last assignment leaves a WRITE there | 120 distinct slots alternating READ/WRITE of the key, starting with a READ | not executed | WorkloadGen.MonotonicAsWrittenCollides | WorkloadGen.ChooseIndices |
| redis_kv_store/client.go:46-51 | every shard's client is made from DefaultOptions, whose range is [0, 0], with only the address replaced | a put of key 1 to a shard covering [0, 5999] is refused as out of range | each client checks its own shard's range | not executed | KvClient.AsWrittenRefusesShardKeys | KvClient.ShardOptionsAcceptShardKeys |
