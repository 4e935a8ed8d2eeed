# Verification of the storage, consensus, trading, queue and resilience cores

A Dafny 4.11 model of five parts of the repository, with proofs. `dafny verify dfyconfig.toml` checks
all of it; there are no assumptions beside Dafny's own.

**The segment log** (`Crc32`, `KnownChecksum`, `Words`, `Records`, `Segments`, `SegmentManager`, `Compaction`,
`Reservation`, `ConcurrentAppend`, `Rollover`, `ManagerRuns`, `ManagerScans`). A record is framed as
magic, little-endian length, CRC-32, timestamp and data. The CRC is modelled bit by bit as section 8 of
RFC 1952 defines it, with its check value, and the errors it must detect are proved of that register. `RecordSegment` is a class over a byte array; its
bytes, its index and its iterator are tied to one abstract log of appended records. The manager adds
rollover, compaction and merging copy logs. The lock-free append is modelled a second time as separate
atomic steps (reserve, test, roll back, report, copy) of any number of threads, and the double-checked
rollover as steps of any number of appenders that go through those of the segments' appends.

**Raft elections** (`Raft`). Each handler is a method of `RaftNode` and one step of a cluster in which
any message may be delivered to any node at any time. Election Safety is stated over granted votes,
because no handler receives vote responses.

**Order books** (`Queues`, `OrderBook`, `Ledger`, `MatchingEngine`, `EngineAgreement`,
`EngineConservation`). One declarative
account of greedy matching against a stably sorted queue serves both engines: the sorted queues of the
trading competition, and the trading server's price levels, which are shown to be such a queue. The
ledgers follow the trades of whole market runs.

**The queue facade** (`PersistQ`, `Routes`). Appenders interleave over partitions, segments, the global counter
and the offset map; reads go to the first segment.

**Circuit breaker and retry** (`Resilience`). The breaker is a state machine over timed events, the
retry loop a capped geometric backoff over real-valued durations.

The main results, hardest first:

- `Reservation.SizesSafeIff`, `ConcurrentAppend.QuiescentSegmentScans` and
  `ManagerRuns.ScanIsWhatSucceeded`: for exactly which record sizes the lock-free append keeps its ranges
  disjoint and its records intact under every interleaving, and what scans of one segment and of a whole
  manager then find; `ConcurrentAppend.ScannableIff` and `ManagerScans.ScannableIff`: that for exactly
  these sizes the scans come to an end; `Reservation.ReportsSafeIff` for when the report of a failed append
  overflows, `ManagerRuns.AbandonmentsGenuineIff` for when a segment is left with room to spare, and
  `Reservation.AnySizes` and `Reservation.TiledIffClean` for what holds of any sizes.
- `Crc32.WindowDetected` and `Records.PayloadDamage`: every change within 32 consecutive bits of a
  payload of any length is reported, and 33 would be too many (`Crc32.WindowOf33CanBeMissed`).
- `Raft.ElectionSafety`, with the exact condition on the configured node list
  (`Raft.SafeConfigurations`) and a split vote for every list that fails it
  (`Raft.UnsafeConfigurationsSplit`), when a leader still holds its own vote
  (`Raft.LeaderHoldsVoteIff`), and, over any run, who is a candidate and who is taken for the leader
  (`Raft.CandidateIff`, `Raft.KnownLeaderIff`).
- `EngineAgreement.BuysAgree`, `EngineAgreement.SellsAgreeIff`, `EngineAgreement.SellUncrossedIff`,
  `EngineAgreement.SellBooksAgreeIff`,
  `EngineConservation.RunConserves` and `EngineConservation.FillOrKill`: where the two engines agree, and
  exactly where the trading server departs from price priority, an uncrossed book and conservation.
- `Records.DecodeExactly`, `Records.RoundTrip`, `Records.UniqueParse` and
  `Segments.ScanEndsIffWellFormed`: parser and printer are inverse, and a scan ends exactly on
  well-formed bytes.
- `PersistQs.RangesDisjoint`, `PersistQs.OffsetsCount`, `PersistQs.ReadForever`,
  `PersistQs.ReadAfterAppends` and `PersistQs.ReadsItselfIff`: what concurrent appends keep and what reads return.
- `Routes.EveryRoute`: the checksum is a bijection on four bytes, so every partition is reached.
- `Ledger.OrderSettles`, `Ledger.MarketConserves`, `Resilience.StateFromHistory`, `Resilience.RefusedIff` and
  `Resilience.ClosedFormIff`: whole runs of the market, of the breaker and of the backoff.

Where code and comments differ, the model follows the code:

- `examples/hft_trading_server.rs:287` calls the buy book descending, but it is swept in ascending order
  (lines 414 and 485), so sells meet the lowest bids first.
- `src/raft.rs:399` speaks of a single-node cluster, but a node that lists only itself needs two votes
  and never wins; only a node that lists nobody does.
- `src/raft.rs:516` demotes only candidates, so a heartbeat of a later term leaves a leader leading
  (`Raft.LeaderHoldsVoteIff`, `Raft.LeadsOnWithoutVote`).
- `src/compaction.rs:150` sets a flag that `?` at lines 159 and 171 leaves set, so one failed compaction
  is a manager's last.
- `src/storage.rs:269` yields an error without moving on, so a scan of damaged bytes does not end, and
  the branches of compaction and merging that skip a corrupted record would repeat for ever.
- `src/storage.rs:125` subtracts an offset that can lie beyond the end from the size, both unsigned
  (`Reservation.ReportsSafeIff`).
- `src/resilience.rs:221-239` waits the initial backoff uncapped, whatever the maximum says.

## Model

| member | source | states |
|---|---|---|
| `Crc32.Hasher.constructor` | src/record.rs:161-166 | a new hasher holds the all-ones register |
| `Crc32.Hasher.Update` | src/record.rs:161-166 | the loop over the bytes leaves the register after those bytes, in order |
| `Crc32.Hasher.Finalize` | src/record.rs:161-166 | the result is the complemented register read as a 32-bit number |
| `Crc32.UpdateByteIsStandard` | src/record.rs:161-166 | feeding a byte bit by bit is the byte-wise update of section 8 of RFC 1952: exclusive or into the low end, then eight shift steps with the generator polynomial |
| `Crc32.PolynomialIsStandard` | src/record.rs:161-166 | that polynomial, read as a number, is 0xedb88320 |
| `Crc32.AfterConcat` | src/record.rs:161-166 | two updates equal one update of the concatenation |
| `Crc32.StepLinear` | src/record.rs:161-166 | one register step is linear over exclusive or |
| `Crc32.StepOfZero` | src/record.rs:161-166 | one register step maps only zero to zero, so the step is injective |
| `Crc32.FeedDifference` | src/record.rs:161-166 | the difference of two registers depends only on the difference of the messages fed to them |
| `Crc32.BurstDetected` | src/record.rs:161-166 | at most 32 bits fed to a clear register leave it clear only if they are all clear |
| `Crc32.WindowDetected` | src/record.rs:161-166 | for messages of any length that differ only within 32 consecutive bits, the checksums are equal if and only if the messages are |
| `Crc32.FourBytesAreAWindow` | src/record.rs:161-166 | a change of four consecutive bytes is such a change |
| `Crc32.WindowOf33CanBeMissed` | src/record.rs:161-166 | the bound is tight: two different messages that differ within 33 bits have the same checksum |
| `KnownChecksum.CheckValue` | src/record.rs:161-166 | the checksum of the nine bytes "123456789" is 0xcbf43926, the check value of this CRC |
| `Records.WithTimestamp` | src/record.rs:80-85 | construction succeeds exactly for data of at most 100 MiB, with the given timestamp and data; otherwise the error carries the size |
| `Records.CalculateChecksum` | src/record.rs:161-166 | hashing the timestamp and then the data is the checksum of the two concatenated |
| `Records.Serialize` | src/record.rs:88-108 | the buffer filled step by step is magic, length, checksum, timestamp and data in this order, with the length cut to 32 bits as the cast does |
| `Records.WireFields` | src/record.rs:88-108 | what is written: the magic 0xd01dac0d, the length cut to 32 bits, the checksum of all that follows it, the timestamp, the data, at offsets 0, 4, 8, 12 and 20; and the size limit is 104857600 |
| `Records.WireNumbers` | src/record.rs:94-105 | numbers are written lowest byte first |
| `Records.DecodeFrame` | src/record.rs:111-158 | what parsing makes of a frame whose length field is right, whatever its checksum field says: too large, checksum mismatch with both values, or the record and its size |
| `Records.DecodedFields` | src/record.rs:111-158 | a successful parse consumes its 20 bytes of header and its data, which were there, and its record is acceptable |
| `Records.DecodeExactly` | src/record.rs:88-158 | parsing succeeds with a record and a size if and only if the record is acceptable and the bytes begin with exactly its serialization: everything that parses re-serializes to the bytes it consumed |
| `Records.RoundTrip` | src/record.rs:88-158 | a serialized record followed by any bytes parses back to itself and its exact size if and only if its data is within the size limit |
| `Records.DecodeExtends` | src/record.rs:111-158 | bytes behind a record never change how it parses |
| `Records.StrictPrefix` | src/record.rs:111-135 | every strict prefix of a record is IncompleteRecord, asking for the header or, once it has that, for the whole frame |
| `Records.PayloadDamage` | src/record.rs:139-151 | at any length, any change of timestamp and data confined to 32 consecutive bits is reported as ChecksumMismatch |
| `Records.FourByteDamage` | src/record.rs:139-151 | so is any change confined to four consecutive bytes, and in particular to one |
| `Records.MagicDamage` | src/record.rs:111-121 | any change of the magic is reported as InvalidMagic with the value found |
| `Records.DecodeFirst` | src/record.rs:111-158 | parsing a serialized sequence yields its first record and leaves exactly the others |
| `Records.UniqueParse` | src/record.rs:88-158 | a byte stream has at most one parse into records |
| `Records.OffsetsIncrease` | src/record.rs:169-171 | records lie back to back: offsets increase strictly and stay within the bytes |
| `Records.DecodeAt` | src/record.rs:111-158 | record k of a serialized sequence parses from its offset, and still does after any later records |
| `Segments.ReadBack` | src/storage.rs:162-183 | a read at an offset that an append returned gives that record after any later appends |
| `Segments.ReadIsCanonical` | src/storage.rs:162-183 | whatever a read at any offset returns is acceptable and lies there serialized in full, inside the used bytes |
| `Segments.ReadFails` | src/storage.rs:162-183 | a read fails with OffsetOutOfBounds and the offset if and only if the offset is not below the write position, and otherwise with just the reason for which nothing can be parsed there |
| `Segments.AdvanceAt` | src/storage.rs:251-272 | over a log, the iterator standing at record k yields record k with its offset and size and moves to record k + 1 |
| `Segments.StuckOnError` | src/storage.rs:261-270 | after an unreadable position the iterator never moves again and yields the same error for ever |
| `Segments.ScanOfLog` | src/storage.rs:251-272 | after n calls over a log the iterator stands behind n records |
| `Segments.PassedIsLog` | src/storage.rs:251-272 | what the iterator has passed, over any bytes, is a log of acceptable records |
| `Segments.ScanEndsIffWellFormed` | src/storage.rs:251-272 | for any used bytes, a scan ends if and only if they are the serialization of some acceptable records |
| `Segments.IndexGrows` | src/storage.rs:137-149 | adding the entry of a new record keeps the index one-to-one with the records, in order |
| `Segments.IndexDescribes` | src/storage.rs:137-149 | every entry of the index has the number, offset, size and timestamp of the record that a read at its offset gives |
| `Segments.RecordSegment.constructor` | src/storage.rs:83-106 | a new segment is empty and valid |
| `Segments.RecordSegment.AppendRecord` | src/storage.rs:109-159 | for any record, acceptable or not: succeeds exactly if it fits behind the used bytes; then the log grows by it and its offset and size are returned; otherwise nothing changes and SegmentFull carries both sizes |
| `Segments.RecordSegment.ReadRecord` | src/storage.rs:162-183 | parses the used bytes at the offset, or reports the offset out of bounds |
| `Segments.RecordSegment.ReadRecordByNum` | src/storage.rs:186-198 | with the index on: for every k below the count, what a read at the offset of the k-th appended record gives, which is that record if it is acceptable; OffsetOutOfBounds for every other k; with it off: InvalidState |
| `Segments.RecordSegment.IterRecords` | src/storage.rs:201-208 | the iterator starts at zero and ends at the current write position |
| `Segments.RecordIterator.constructor` | src/storage.rs:201-208 | the iterator remembers its segment and its end |
| `Segments.RecordIterator.Next` | src/storage.rs:254-271 | yields and moves as one step of the abstract scan, staying put on an error |
| `Segments.CollectAll` | src/storage.rs:251-272 | the loop over a segment of acceptable records ends without error and yields every appended record in order, each with its offset and size |
| `SegmentManagers.AppendReturnsIff` | src/storage.rs:328-373 | the append loop returns if and only if the record fits an empty segment, and then within two rounds |
| `SegmentManagers.OversizedNeverReturns` | src/storage.rs:328-373 | for a larger record no number of rounds is enough, and every round opens one more segment |
| `SegmentManagers.AppendedIsTight` | src/storage.rs:328-373 | an append keeps it so that no segment overflows and none was left while the record that opened the next still fitted |
| `SegmentManagers.AppendedHistory` | src/storage.rs:328-373 | scanning all segments in order gives the old history and the new record |
| `SegmentManagers.RunKeepsHistory` | src/storage.rs:328-373 | over any run of appends: the scan of all segments is exactly the append history, and no segment is wasted |
| `SegmentManagers.TotalsOfHistory` | src/storage.rs:376-396 | the totals over the segments are the record and byte counts of the history |
| `SegmentManagers.SegmentManager.constructor` | src/storage.rs:303-325 | a new manager has one empty segment |
| `SegmentManagers.SegmentManager.AppendRecord` | src/storage.rs:328-373 | the loop with its fast path, second look and rollover leaves exactly the abstract append and returns the record's offset and size in the segment that took it |
| `SegmentManagers.SegmentManager.AppendToCurrent` | src/storage.rs:335-349 | the fast path: the record joins the current segment if it fits |
| `SegmentManagers.SegmentManager.CreateNewSegment` | src/storage.rs:408-426 | one empty segment is pushed and becomes current; the others are untouched |
| `SegmentManagers.SegmentManager.Stats` | src/storage.rs:376-396 | segment count, record total and byte total of the whole history |
| `Compaction.KeepAll` | src/compaction.rs:214-222 | a policy that keeps every record of a log, as the shipped one does, keeps the log, byte for byte |
| `Compaction.KeptMembers` | src/compaction.rs:166-183 | a record is kept as often as it is there if the policy wants it, and not at all otherwise |
| `Compaction.SucceedsIffNoneFailedYet` | src/compaction.rs:144-151 | a run of compactions of one manager: the i-th succeeds if and only if it and all before it fitted, because the flag stays set after a failure |
| `Compaction.CopyKept` | src/compaction.rs:166-183 | the copy loop succeeds exactly if the kept records fit the target, which then has them appended in order; it counts what it skipped and saved |
| `Compaction.CompactionManager.constructor` | src/compaction.rs:116-122 | a new manager is idle with zero statistics |
| `Compaction.CompactionManager.CompactSegment` | src/compaction.rs:136-211 | refused while the flag is set; otherwise succeeds exactly if the kept records fit the target size, with the filtered log, the statistics updated and the flag cleared; with every record kept the used bytes are the source's; on failure the statistics are untouched and the flag stays set |
| `Compaction.MergeSegments` | src/compaction.rs:288-326 | succeeds exactly if all records fit the target size, and then holds them in argument order |
| `Reservation.NextStepEnabled` | src/storage.rs:116-135 | every thread has a next step, and its memory accesses are in bounds; the subtraction of a report is the subject of `Reservation.ReportsSafeIff` |
| `Reservation.AccountedStep` | src/storage.rs:116-127 | every step keeps the accounts between write position, accepted sizes and outstanding reservations |
| `Reservation.TiledStep` | src/storage.rs:116-135 | a step keeps the ranges back to back if and only if it does not reserve inside the segment while a failed reservation is outstanding |
| `Reservation.TiledIffClean` | src/storage.rs:116-135 | for any interleaving and any sizes, the granted ranges are back to back if and only if no such reservation was made |
| `Reservation.IntactStep` | src/storage.rs:129-135 | in a tiled state a copy writes only its own range, so no written record is damaged |
| `Reservation.CleanRun` | src/storage.rs:116-135 | over a clean run every written range keeps its place and its bytes for ever |
| `Reservation.QuiescentContents` | src/storage.rs:116-135 | with no append under way after a clean run the used bytes are the accepted ranges one after another |
| `Reservation.WithinStep` | src/storage.rs:116-135 | with record sizes from lo to hi, every step keeps it so that a segment with a failed reservation outstanding has no room for a record of size hi |
| `Reservation.WithinIsClean` | src/storage.rs:116-135 | if hi is at most twice lo, a reservation made while a failed one is outstanding fails too |
| `Reservation.GoodRun` | src/storage.rs:116-135 | so every interleaving of such sizes is clean, and stays accounted, tiled and intact |
| `Reservation.AnySizes` | src/storage.rs:117-127 | any threads, any interleaving, any mix of sizes: the write position is the accepted sizes plus the reservations not yet decided or rolled back, every accepted range lies inside the segment, the accepted sizes never exceed it; a report's free space is below zero only if a failed reservation was outstanding when it reserved; and the ranges are back to back if and only if the run was clean |
| `Reservation.SizesSafeIff` | src/storage.rs:116-135 | for any set of record sizes: in every segment and under every interleaving ranges are disjoint, written records intact, and the used bytes tiled once no reservation is outstanding, if and only if the largest size is at most twice the smallest |
| `Reservation.OneSize` | src/storage.rs:116-135 | so it is for one size; and then a failed append's free space, size minus offset at line 125, is below zero exactly when another failed reservation was outstanding as it reserved, which explains the overflow but is not visible to a caller |
| `Reservation.MixedSizesCanOverlap` | src/storage.rs:116-135 | for any two sizes of which one is more than twice the other, a run in a segment of their sum and once more the smaller in which two accepted records share a range |
| `Reservation.ReportsSafeIff` | src/storage.rs:116-127 | for n threads and any non-empty set of positive record sizes: the unsigned subtraction of a failed append's report never overflows, in any segment and any interleaving, if and only if n is at most one |
| `Reservation.ReportCanOverflow` | src/storage.rs:116-127 | with any one size and two or more threads, a run on a segment with room for one record in which two threads reserve behind it at once and the report of the second overflows |
| `Reservation.AloneNeverAmid` | src/storage.rs:116-127 | over any run of a single thread, no reservation is made while a failed one is outstanding |
| `Reservation.MixedSizesLeaveHole` | src/storage.rs:116-135 | if one size is more than twice another, a run that comes to rest with bytes below the write position that nobody ever wrote |
| `Reservation.ExplainedRun` | src/storage.rs:117-127 | over any run, a reservation starts beyond the end only if a failed one was outstanding, and with one size exactly then |
| `ConcurrentAppend.GrantsAreFrames` | src/storage.rs:109-135 | if all threads append serialized records, all granted ranges hold serialized records |
| `ConcurrentAppend.FramesAreALog` | src/storage.rs:109-135 | such ranges back to back are the log of the records they hold, in order |
| `ConcurrentAppend.QuiescentSegmentScans` | src/storage.rs:109-135 | after any interleaving of appends whose largest serialized size is at most twice the smallest, once no reservation is outstanding, the segment's bytes are the log of exactly the granted records in the order of their ranges, and a scan yields them one by one and ends |
| `ConcurrentAppend.ScannableIff` | src/storage.rs:109-135 | for any set of serialized sizes: on a new segment, after every interleaving of appends that leaves no reservation outstanding, a scan comes to an end, if and only if the largest size is at most twice the smallest |
| `ConcurrentAppend.HoleStopsScan` | src/storage.rs:251-272 | a scan stops for ever at zeros in place of a header |
| `Rollover.OrderlyNext` | src/storage.rs:354-371 | every step of every appender keeps the order of files, lock and current segment |
| `Rollover.ConsistentNext` | src/storage.rs:328-373 | and keeps each segment's reservations accounted for and in line with the records their appenders carry |
| `Rollover.SucceededNext` | src/storage.rs:344-346 | and keeps it so that the appends that have returned successfully are, as a multiset, those whose records have been written |
| `Rollover.InsideEnabled` | src/storage.rs:109-135 | every appender inside a segment can take its next step |
| `Rollover.InvariantNext` | src/storage.rs:328-426 | all of these together |
| `Rollover.InvariantRun` | src/storage.rs:328-426 | and so they hold in every reachable state |
| `Rollover.RolloverSafe` | src/storage.rs:354-426 | in every interleaving the files are numbered 0, 1, 2, ... without collision, the current segment is the newest except while the holder of the lock publishes a newer one, and each segment was left because its write position, granted bytes plus failed reservations outstanding at that moment, left no room for a record |
| `Rollover.SlowPathExclusive` | src/storage.rs:354-371 | no two appenders are in the slow path at once |
| `Rollover.LookStaysCurrent` | src/storage.rs:357-371 | between its second look and its push, the segment a creator found full stays the newest and the current one |
| `ManagerRuns.AbandonedFor` | src/storage.rs:358-370 | a segment is left for want of room taken up by granted bytes if no failed reservation was outstanding or the record is of the largest size; it is left with room to spare exactly if failed reservations hid that room |
| `ManagerRuns.AbandonmentsGenuineIff` | src/storage.rs:358-370 | no run ever leaves a segment that has room for the record at hand, if and only if all records are of one size |
| `ManagerRuns.AbandonedForNothing` | src/storage.rs:358-370 | for any two sizes, a run that leaves a segment which the record would have fitted |
| `ManagerRuns.ScanIsWhatSucceeded` | src/storage.rs:328-426 | however appends interleave, rollover included: if the largest serialized size is at most twice the smallest, then once no appender is inside the append of a segment every segment scans, and the scan of all segments yields exactly the records whose append succeeded |
| `ManagerRuns.NeverDropped` | src/storage.rs:328-373 | no step takes an appender's record away: its append goes on with it, or ends with the record written, or with the failure to create a file |
| `ManagerRuns.AloneNeverRefused` | src/storage.rs:328-373 | a single appender looks before it reserves: over any run none of its reservations fails |
| `ManagerScans.Follow` | src/storage.rs:328-349 | any run of one segment's append in which each thread appends one record is a run of the manager |
| `ManagerScans.ScannableIff` | src/storage.rs:328-426 | for any set of serialized sizes: in every run of the manager that ends with all appenders idle a scan of every segment comes to an end, if and only if the largest size is at most twice the smallest |
| `Raft.RaftNode.constructor` | src/raft.rs:261-271 | a new node is a follower in term 0 that has voted for nobody |
| `Raft.RaftNode.StartElection` | src/raft.rs:378-406 | candidate in the next term, own vote recorded, leader at once if that one vote is enough |
| `Raft.RaftNode.BecomeLeader` | src/raft.rs:409-421 | the node becomes leader and records itself as leader |
| `Raft.RaftNode.HandleVoteRequest` | src/raft.rs:440-495 | the node and the response after a vote request: refused for an old term, otherwise granted exactly if the node has not voted for another in that term; a newer term makes it a follower that has voted for nobody |
| `Raft.RaftNode.HandleHeartbeat` | src/raft.rs:498-528 | the node and the response after a heartbeat: success exactly if its term is not below the node's, and then the node is no candidate and has its sender recorded as leader |
| `Raft.VotesBindStep` | src/raft.rs:378-528 | every handler keeps it so that each granted vote, self-votes included, binds its voter for the term: no voter grants two candidates one term |
| `Raft.VotesBindRun` | src/raft.rs:378-528 | and so it holds after every run of elections, vote requests and heartbeats, delivered in any order and any number of times |
| `Raft.ElectionSafety` | src/raft.rs:378-528 | Election Safety, section 5.2 of the Raft paper: in every run at most one candidate per term holds the votes it needs, for any two candidates whose needs together exceed the number of nodes, however each is configured |
| `Raft.SafeConfigurations` | src/raft.rs:400 | exactly which node lists satisfy that: all nodes, all peers, or one fewer in a cluster of odd size |
| `Raft.UnsafeConfigurationsSplit` | src/raft.rs:400 | for any other two lengths of list there is a run that elects two nodes with these lists in one term |
| `Raft.WinsIffListsNobody` | src/raft.rs:399-403 | starting an election makes a leader if and only if the node list is empty |
| `Raft.LeadersListNobody` | src/raft.rs:378-528 | no other event makes a leader in any run, and terms never fall |
| `Raft.HeartbeatAnswered` | src/raft.rs:498-528 | success, with the sender recorded as leader of its term, if and only if the heartbeat's term is not below the node's; otherwise the node is unchanged and the answer has its term |
| `Raft.VoteAnswered` | src/raft.rs:440-495 | a vote is granted if and only if the request's term is later, or is the node's and the node has not voted for another; a refusal leaves the node unchanged and has its term |
| `Raft.CandidateIff` | src/raft.rs:378-528 | over any run: a node is a candidate if and only if its list is not empty, it has stood for election, and since its last election it has handled no heartbeat of its term or later and no vote request of a later term |
| `Raft.KnownLeaderIff` | src/raft.rs:409-528 | over any run: a node takes x for its leader if and only if x sent the last heartbeat that was not of an earlier term, or is itself and won its last election, and nothing since named another or came as a vote request of a later term |
| `Raft.LeaderHoldsVoteIff` | src/raft.rs:378-528 | over any run: a node that leads holds its own granted vote for its current term if and only if it has handled no heartbeat of a later term since it last stood for election; the one exception is a leader that was asked, in its own name, to vote in its current term |
| `Raft.LeadsOnWithoutVote` | src/raft.rs:495-528 | a node that lists nobody stands for election and hears a heartbeat of any later term: it leads on in that term, in which nobody has voted for it |
| `Raft.RegainsVote` | src/raft.rs:437-528 | asked in its own name, such a leader grants itself that vote |
| `Queues.InsertIsStable` | examples/two_traders_competition.rs:147-148 | inserting behind one's equals keeps the entries of every price in order of arrival |
| `Queues.StableSortedIsStableSort` | examples/two_traders_competition.rs:148 | the sort used for the queues sorts, and keeps the order among equal prices |
| `Queues.StableSortUnique` | examples/two_traders_competition.rs:148 | there is only one stable sort of a queue |
| `Queues.PushThenSortIsInsertion` | examples/two_traders_competition.rs:146-153 | pushing at the back of a sorted queue and sorting stably is exactly insertion behind one's equals |
| `Queues.FilledTotal` | examples/two_traders_competition.rs:161-229 | matching trades exactly the smaller of the order's quantity and the whole queue's quantity at acceptable prices |
| `Queues.MatchingCuts` | examples/two_traders_competition.rs:161-229 | the fills are a prefix of the queue and what is left is the exact suffix, with only its head reduced |
| `Queues.CutUnique` | examples/two_traders_competition.rs:161-229 | there is only one way to trade a given quantity in price-time order |
| `Queues.FillsAcceptable` | examples/two_traders_competition.rs:165-167 | every fill has a positive quantity at a price within the limit |
| `Queues.RestOrdered` | examples/two_traders_competition.rs:186-190 | what is left keeps order, prices and owners, with positive quantities |
| `Queues.FillsOrdered` | examples/two_traders_competition.rs:161-194 | the i-th fill is with the i-th entry of the queue, at its price |
| `Queues.ReachedIff` | examples/two_traders_competition.rs:161-229 | an entry of the queue is traded with if and only if its price is acceptable and less than the quantity of the order rests before it |
| `Queues.PricePriority` | examples/two_traders_competition.rs:161-229 | nothing that is left would have been served before anything that traded |
| `Queues.RemainderMeansExhausted` | examples/two_traders_competition.rs:161-233 | quantity remains only if nothing acceptable is left |
| `Queues.TraderConserved` | examples/two_traders_competition.rs:161-229 | each trader's resting quantity is what was traded with that trader and what is left |
| `Queues.QuantityConserved` | examples/two_traders_competition.rs:161-229 | the same for the whole queue |
| `Queues.FillsConcat` | examples/hft_trading_server.rs:414-459 | matching against one queue behind another is matching against the first and then, with what remains, against the second |
| `Queues.LimitCutsOff` | examples/hft_trading_server.rs:485-496 | a limit only says where the queue ends |
| `Queues.MatchRound` | examples/two_traders_competition.rs:162-190 | one round of the loop takes one fill off the specification and leaves the rest of it |
| `OrderBooks.MatchedKeepsOrder` | examples/two_traders_competition.rs:156-247 | an order leaves both queues sorted with positive quantities |
| `OrderBooks.QuotedKeepsOrder` | examples/two_traders_competition.rs:140-154 | so does a quote |
| `OrderBooks.MatchedStaysUncrossed` | examples/two_traders_competition.rs:156-247 | no order of any kind turns an uncrossed book into a crossed one, even when a limit remainder rests |
| `OrderBooks.MatchedOpen` | examples/two_traders_competition.rs:156-247 | what an order asked for and the opposite queue did not give rests for its trader if it is a limit order and is dropped otherwise; nobody else's quantity on its side changes |
| `OrderBooks.QuotedOpen` | examples/two_traders_competition.rs:140-154 | after a quote its trader offers just the quoted sizes on each side, and everybody else what they did |
| `OrderBooks.TradesDescribed` | examples/two_traders_competition.rs:165-229 | trades are numbered on, carry the order's symbol and time and the resting entry's price, and have the order's trader on the order's side |
| `OrderBooks.QuotedUncrossedIff` | examples/two_traders_competition.rs:140-154 | a quote is never matched: it leaves an uncrossed book uncrossed if and only if it asks for more than it bids and stays clear of everybody else's prices |
| `OrderBooks.WithoutKeepsOrder` | examples/two_traders_competition.rs:142-143 | removing a trader's old quotes keeps the queue in order and removes exactly that trader's entries |
| `OrderBooks.OrderBook.constructor` | examples/two_traders_competition.rs:129-138 | a new book is empty |
| `OrderBooks.OrderBook.UpdateQuote` | examples/two_traders_competition.rs:140-154 | the trader's old entries are gone and the new ones are queued behind their equals |
| `OrderBooks.OrderBook.MatchOrder` | examples/two_traders_competition.rs:156-247 | terminates, returns one numbered trade per fill with buyer and seller on the right sides, leaves exactly the specified book, keeps it sorted and uncrossed |
| `OrderBooks.OrderBook.TakeAsks` | examples/two_traders_competition.rs:161-195 | the loop of a buy order |
| `OrderBooks.OrderBook.TakeBids` | examples/two_traders_competition.rs:196-229 | the loop of a sell order |
| `Ledger.Trader.constructor` | examples/two_traders_competition.rs:287-297 | a new trader has its cash and no positions |
| `Ledger.Trader.ProcessTrade` | examples/two_traders_competition.rs:406-421 | books the buyer's leg, else the seller's leg, else nothing, and keeps the last hundred trades; the two other traders' methods (lines 588-603 and 732-752) are the same |
| `Ledger.DeliverShifts` | examples/two_traders_competition.rs:406-421 | one trade delivered to all shifts the total cash and positions by the legs that somebody books |
| `Ledger.CashKeptIff` | examples/two_traders_competition.rs:406-415 | a trade keeps the total cash if and only if it is for nothing, or both of its sides are booked, or neither is; a self-trade books only one |
| `Ledger.RunConserves` | examples/two_traders_competition.rs:871-905 | over any run of delivered trades the cash lost and the quantity invented are exactly those traded with oneself |
| `Ledger.OrderConserves` | examples/two_traders_competition.rs:868-905 | an order through the book keeps the positions in its symbol summing to what they did, and (prices being positive) the total cash, if and only if no entry of its own trader is in its reach: acceptable in price, with less than the order's quantity resting before it; other symbols keep theirs in any case |
| `Ledger.OrderSettles` | examples/two_traders_competition.rs:156-247 | an order that reaches no entry of its own trader, delivered to all: its trader's position in the symbol rises (buy) or falls (sell) by exactly what the opposite queue lost, every other trader's moves the other way by what that trader's own entries lost, and each account's cash moves against its position by what those quantities were worth at their prices |
| `Ledger.WorthConserved` | examples/two_traders_competition.rs:161-229 | what a queue loses in money, of one trader or of all, is what is paid in the fills |
| `Ledger.ReachesOwnIff` | examples/two_traders_competition.rs:156-229 | this condition on the book before the order is exactly when the order trades with its own trader |
| `Ledger.MarketKeeps` | examples/two_traders_competition.rs:868-905 | over any run of quotes and orders among the traders, the book stays in order and only they ever trade |
| `Ledger.MarketConserves` | examples/two_traders_competition.rs:868-905 | over any such run, total cash plus the cash traded with oneself is constant, and the positions per symbol sum to the quantity traded with oneself |
| `Ledger.SelfTradeHappens` | examples/two_traders_competition.rs:156-195 | a short market run in which a trader trades with itself |
| `Ledger.SelfTradeLoses` | examples/two_traders_competition.rs:406-415 | after it the trader has lost the cash and gained the position out of nothing |
| `MatchingEngines.Reach` | examples/hft_trading_server.rs:485-496 | a sweep visits the longest prefix of the keys whose prices are acceptable |
| `MatchingEngines.AscendingIncreases` | examples/hft_trading_server.rs:414 | the levels are visited from the lowest price up |
| `MatchingEngines.AscendingMembers` | examples/hft_trading_server.rs:414 | and all of them are in the snapshot of the keys |
| `MatchingEngines.LevelRestEntries` | examples/hft_trading_server.rs:423-458 | what a level keeps is what greedy matching leaves of its orders as a queue |
| `MatchingEngines.SweptIsRest` | examples/hft_trading_server.rs:416-460 | sweeping several levels leaves what matching against all of them as one queue leaves, keeps every level's key and no filled order |
| `MatchingEngines.LevelServesFront` | examples/hft_trading_server.rs:416-460 | a level gives up whole orders from its front, the one that then heads it may be reduced and is then partially filled, and the others are as they were |
| `MatchingEngines.NearestCent` | examples/hft_trading_server.rs:304-310 | a positive price goes to the nearest cent, upwards from halfway, and whole cents stay as they are |
| `MatchingEngines.ExecutionsNumbered` | examples/hft_trading_server.rs:422-450 | executions are numbered on from the counter, name their order, its symbol and side, and have the price and quantity of their fill |
| `MatchingEngines.StopOutcome` | examples/hft_trading_server.rs:338-358 | a stop or stop limit order is returned unchanged, without fills and with both sides of the book as they were, until the market has a price and it is at or above (buy) or at or below (sell) the stop price, a missing one being zero; then the outcome is that of the same order sent as a market or limit order |
| `MatchingEngines.OthersIgnoreMarket` | examples/hft_trading_server.rs:335-400 | the outcome of the four other types does not depend on the market price |
| `MatchingEngines.OutcomeStatus` | examples/hft_trading_server.rs:360-400 | what comes back is the order with its filled quantity and a status that says whether all, some or nothing is filled, or the rest of an immediate-or-cancel order is cancelled |
| `MatchingEngines.OutcomeRests` | examples/hft_trading_server.rs:465-560 | only the remainder of a limit order with a price rests, behind the orders of its level and with the status that it came with; all else of its side is untouched |
| `MatchingEngines.MatchingEngine.constructor` | examples/hft_trading_server.rs:295-303 | a new engine has empty books |
| `MatchingEngines.MatchingEngine.UpdateMarketPrice` | examples/hft_trading_server.rs:325-328 | sets the symbol's market price |
| `MatchingEngines.MatchingEngine.TakeLevel` | examples/hft_trading_server.rs:422-458 | the inner loop: orders filled completely are removed, the next is partially filled, one numbered execution per fill |
| `MatchingEngines.MatchingEngine.Sweep` | examples/hft_trading_server.rs:413-461 | the outer loop over the price levels |
| `MatchingEngines.MatchingEngine.SweepOpposite` | examples/hft_trading_server.rs:406-461 | the sweep of the opposite book of the order's symbol, all other books untouched |
| `MatchingEngines.MatchingEngine.MatchMarketOrder` | examples/hft_trading_server.rs:402-469 | the exact outcome of a market order on order, executions, counter and books |
| `MatchingEngines.MatchingEngine.MatchLimitOrder` | examples/hft_trading_server.rs:471-558 | the same for a limit order: nothing without a price; a remainder rests at its level with the status it came with |
| `MatchingEngines.MatchingEngine.MatchOrder` | examples/hft_trading_server.rs:335-400 | stop orders are converted once the market has reached their stop price, or returned unchanged; then the outcome is that of the order's type |
| `MatchingEngines.MatchingEngine.MatchByType` | examples/hft_trading_server.rs:362-397 | market, limit, immediate-or-cancel and fill-or-kill orders, as the four arms have it |
| `EngineAgreement.FlattenSorted` | examples/hft_trading_server.rs:414-459 | the levels one after another are a queue sorted by price |
| `EngineAgreement.QueueAtPrice` | examples/hft_trading_server.rs:543-547 | the entries of that queue at a price are the orders of the level, in order of arrival |
| `EngineAgreement.PushedIsInsert` | examples/hft_trading_server.rs:536-548 | resting an order at its level is inserting it into the sorted queue behind its equals |
| `EngineAgreement.SweepOfQueue` | examples/hft_trading_server.rs:406-461 | a sweep trades with the reached part of the ascending queue and leaves its rest in front of what was not reached |
| `EngineAgreement.BuySweep` | examples/hft_trading_server.rs:484-531 | for buys, and for any order without a limit, that is matching against the queue of asks under the limit |
| `EngineAgreement.BuysAgree` | examples/hft_trading_server.rs:402-558 | both engines give a market, limit or immediate-or-cancel buy the same fills in the same order and leave matching books on both sides |
| `EngineAgreement.SellSweep` | examples/hft_trading_server.rs:487-496 | a sell with a limit trades nothing if any level key, even of an emptied level, is below its limit; otherwise it takes the lowest bids first |
| `EngineAgreement.SellFillsIff` | examples/hft_trading_server.rs:484-531 | when the fills of a sell sweep are those of the price-priority queue |
| `EngineAgreement.SellsAgreeIff` | examples/hft_trading_server.rs:402-558 | a sell gets the fills of the order book if and only if there is nothing to trade, or it is not blocked and all open bids are at one price; and then both books it leaves agree too |
| `EngineAgreement.SellBooksAgreeIff` | examples/hft_trading_server.rs:402-558 | a sell leaves the books of the order book if and only if it gets its fills, or is not blocked and takes all bids there are |
| `EngineAgreement.BlockedSellExample` | examples/hft_trading_server.rs:485-496 | bids at 99 and 101 and a sell at 100: the lower bid blocks the sell, the higher would trade with it, and the book is uncrossed |
| `EngineAgreement.BlockedSell` | examples/hft_trading_server.rs:471-558 | a limit sell in such a case does not trade where the order book would, rests at or below an open bid and leaves the book crossed |
| `EngineAgreement.SellUncrossedIff` | examples/hft_trading_server.rs:402-558 | a sell leaves an uncrossed book uncrossed if and only if it does not come to rest, blocked, at or below an open bid |
| `EngineConservation.SweepConserves` | examples/hft_trading_server.rs:406-461 | a sweep takes from the book, in total and from each strategy, exactly what it trades |
| `EngineConservation.OutcomeConserves` | examples/hft_trading_server.rs:362-397 | for every type but fill-or-kill: the executions sum to the order's filled increase and to the fall in opposite open quantity, strategy by strategy, and a priced limit order's remainder rests on its own side |
| `EngineConservation.OrderConserves` | examples/hft_trading_server.rs:335-400 | so it is with stop orders, triggered or not, whatever the market price |
| `EngineConservation.OutcomeOpen` | examples/hft_trading_server.rs:450-456 | no order of any type leaves a completely filled order resting |
| `EngineConservation.RunConserves` | examples/hft_trading_server.rs:335-558 | over any run of orders of one symbol: every share a limit order ever offered still rests, or was taken by the order when it came, or was executed against it later, or was lost to a killed fill-or-kill order |
| `EngineConservation.FillOrKill` | examples/hft_trading_server.rs:384-393 | filled if and only if enough can be reached, else cancelled without executions, and then the book has lost exactly what could be reached; so the executions account for the book if and only if enough, or nothing, could be reached |
| `EngineConservation.KillLoses` | examples/hft_trading_server.rs:384-393 | a fill-or-kill order takes from the book what it executes and what it loses, and never rests |
| `PersistQs.InvariantNext` | src/persistq.rs:274-510 | every step of every appender keeps the invariant of the queue |
| `PersistQs.InvariantRun` | src/persistq.rs:274-510 | and so it holds in every reachable state |
| `PersistQs.RangesDisjoint` | src/persistq.rs:442-449 | under any interleaving of appends of any sizes, records of one segment never overlap, none is damaged and none reaches past the end |
| `PersistQs.OffsetsCount` | src/persistq.rs:291-303 | global offsets are 0, 1, 2, ... and no record gets two; once no append is between storing and recording, every stored record has exactly one and every offset below the counter can be looked up |
| `PersistQs.GrowsRun` | src/persistq.rs:274-321 | nothing is ever taken back: segments, history and offset map only grow |
| `PersistQs.RecordedOffsets` | src/persistq.rs:299-303 | every offset in the map leads to the partition and local offset where its record was stored |
| `PersistQs.ReadFirstSegment` | src/persistq.rs:474-483 | a record of its partition's first segment reads as itself with everything stored there after it, and is out of bounds only if all of that is empty |
| `PersistQs.ReadExactIff` | src/persistq.rs:563-578 | so it reads as exactly itself if and only if it is not empty and nothing but empty records followed it |
| `PersistQs.ReadForever` | src/persistq.rs:324-363 | a non-empty record of a first segment is for ever a prefix of what its offset reads as, and that only gets longer |
| `PersistQs.ReadStartsWithRecordIff` | src/persistq.rs:474-483 | in any interleaving, in terms of where the record was stored: a read starts with it if it lies in the first segment and it or something after it is not empty, or if the first segment happens to hold the same bytes there, and in no other case |
| `PersistQs.FirstSegmentIff` | src/persistq.rs:425-471 | for sequential appends, known before the call: a record goes to the first segment of its partition if and only if the bytes routed there, its own included, do not exceed the size of a segment |
| `PersistQs.LastSegments` | src/persistq.rs:324-348 | the last segment of a partition is filled as greedy packing of the lengths routed to it has it |
| `PersistQs.OffsetAt` | src/persistq.rs:291-303 | the g-th record appended has global offset g, mapped to its partition and to the place that greedy packing of the lengths routed there gives it |
| `PersistQs.UnknownIff` | src/persistq.rs:324-363 | after any sequence of appends an offset is unknown if and only if no append has returned it |
| `PersistQs.ReadAfterAppends` | src/persistq.rs:324-363 | after any sequence of appends, told from the records alone: a record that came while its partition had been sent no more than a segment reads as itself with what fitted behind it, every other one as the first segment from its own local offset on |
| `PersistQs.ReadsItselfIff` | src/persistq.rs:324-363 | so a non-empty record is what its read starts with if its partition had been sent no more than a segment with it, and otherwise only if the first segment happens to hold the same bytes |
| `PersistQs.LaterSegmentMisread` | src/persistq.rs:475-483 | a record that rolled over to the second segment reads as the record before it |
| `PersistQs.OversizedNeverStored` | src/persistq.rs:545-551 | no record larger than a segment is ever stored |
| `PersistQs.OversizedRound` | src/persistq.rs:425-471 | appending one goes round for ever, opening an empty segment each time |
| `PersistQs.AppendIsRun` | src/persistq.rs:274-321 | one call of append on the quiet queue, from any reachable state, is a run of the interleaving, so that everything proved of runs holds of sequences of calls |
| `Routes.EveryRoute` | src/persistq.rs:280-282 | each partition of up to 2^32 is the route of some record of four bytes |
| `Routes.EveryChecksum` | src/persistq.rs:280-282 | because every 32-bit number is the checksum of some four bytes |
| `Routes.SameRouteIff` | src/persistq.rs:280-282 | two records go to one partition if and only if their checksums differ by a multiple of the number of partitions |
| `Routes.KnownRoute` | src/persistq.rs:280-282 | the record "123456789" goes to partition 0xcbf43926 modulo the number of partitions, which is the last of three |
| `PersistQs.Segment.constructor` | src/persistq.rs:515-540 | a new segment is empty |
| `PersistQs.Segment.HasSpace` | src/persistq.rs:581-584 | whether the bytes fit behind the used ones |
| `PersistQs.Segment.Append` | src/persistq.rs:543-560 | succeeds exactly if the data fits, at the old write position, with the data behind the old bytes; otherwise nothing changes |
| `PersistQs.Segment.Read` | src/persistq.rs:563-578 | everything from the offset to the write position, or out of bounds |
| `PersistQs.PersistQ.constructor` | src/persistq.rs:188-224 | a new queue has one empty segment per partition and hands out offset 0 first |
| `PersistQs.PersistQ.AppendToPartition` | src/persistq.rs:425-471 | the loop stores a record that fits a segment within two rounds, in the last segment or in a new one |
| `PersistQs.PersistQ.Append` | src/persistq.rs:274-321 | the record goes to its partition, the next global offset is returned and mapped to where it went |
| `PersistQs.PersistQ.Read` | src/persistq.rs:324-363 | looks the offset up and reads the first segment of its partition from the local offset |
| `Resilience.CircuitBreaker.constructor` | src/resilience.rs:107-115 | a new breaker is closed with zero counters, and has no history |
| `Resilience.CircuitBreaker.CanProceed` | src/resilience.rs:118-135 | refuses exactly if an event in its history opened the breaker less than the timeout ago and it has been open ever since; otherwise admits, going half-open if it was open |
| `Resilience.CircuitBreaker.RecordSuccess` | src/resilience.rs:138-156 | the transition of one success |
| `Resilience.CircuitBreaker.RecordFailure` | src/resilience.rs:159-177 | the transition of one failure |
| `Resilience.CircuitBreaker.TransitionToOpen` | src/resilience.rs:184-190 | open since now; the failure counter is kept |
| `Resilience.CircuitBreaker.TransitionToHalfOpen` | src/resilience.rs:192-199 | half-open since now with clean counters |
| `Resilience.CircuitBreaker.TransitionToClosed` | src/resilience.rs:201-208 | closed since now with clean counters |
| `Resilience.CircuitBreaker.WithCircuitBreaker` | src/resilience.rs:254-276 | the operation is called in every other case, and in that case only; its outcome is returned and recorded |
| `Resilience.StateFromHistory` | src/resilience.rs:118-208 | the state is a function of the event history: since the last event that changed it the breaker has been in the state that event left it in, and its counters are the failures in a row, or the successes, since then |
| `Resilience.StaysClosedIff` | src/resilience.rs:138-177 | a closed breaker stays closed if and only if there have not been failure_threshold failures in a row, zero acting as one |
| `Resilience.TripsIff` | src/resilience.rs:159-167 | it opens exactly with the failure that completes the row, which it has counted |
| `Resilience.StaysHalfOpenIff` | src/resilience.rs:138-173 | a half-open breaker stays so if and only if nothing failed and fewer than success_threshold operations succeeded |
| `Resilience.HalfOpenEnds` | src/resilience.rs:146-173 | it opens with the first failure and closes, clean, exactly with the success that completes the number |
| `Resilience.StaysOpen` | src/resilience.rs:125-133 | before the timeout has passed an open breaker does not move, whatever it is told |
| `Resilience.StaysOpenIff` | src/resilience.rs:118-177 | an open breaker stays open, unchanged, if and only if nobody asks after the timeout; reports of operations still under way change nothing |
| `Resilience.OpenEnds` | src/resilience.rs:118-135 | it leaves the open state exactly with the first request after the timeout, which it admits, and is then half-open as if new |
| `Resilience.NothingAdmittedTooSoon` | src/resilience.rs:118-135 | over any history of a monotone clock nothing is admitted sooner than the timeout after any earlier opening |
| `Resilience.RefusedIff` | src/resilience.rs:118-135 | after any history of a new breaker a request is refused if and only if some event opened the breaker, it has been open ever since, and that was less than the timeout ago |
| `Resilience.RetryWithBackoff` | src/resilience.rs:212-251 | at most max_retries + 1 calls, the first success or MaxRetriesExceeded, and the waits in between as the backoff recurrence has them |
| `Resilience.GrowingWaits` | src/resilience.rs:241-247 | for a multiplier of at least one, the k-th wait (k at least 1) is min(initial * m^k, max) |
| `Resilience.ClosedFormIff` | src/resilience.rs:221-247 | that closed form holds for all k if and only if the multiplier is at least one, or the second wait is below the cap, or the cap is zero |
| `Resilience.CapIff` | src/resilience.rs:221-247 | the first wait is not capped: all waits keep to the maximum if and only if there are none or the initial one does |

## Left out

- Files, memory mapping, flushing, paths, metrics, tracing and latencies: a segment is its bytes; failures to open a file are the step `FailToCreate` of `Rollover` and `Fail` of `PersistQs`, and are absent from the sequential classes.
- Clocks: timestamps are parameters; the breaker takes the time of each event.
- 64-bit wrap-around of write positions, counters and terms: they are unbounded. The one cast that can cut a value, the length field of a record, is modelled (`src/record.rs:89`).
- Damage to the length field, and bursts that straddle the checksum field and the payload: no such guarantee is stated.
- Reads that race with an unfinished copy in a segment: the code gives no guarantee there.
- The record counter and the index under concurrent appends. The counter gives every accepted append a number of its own, but numbers need not follow offsets, and the index is filled one entry at a time; `Reservation` follows the write position and the bytes only.
- What the overflowing subtraction at `src/storage.rs:125` does: `Reservation` keeps the exact difference, and a thread that stops there has already rolled back.
- SegmentManagers.SegmentManager.AppendRecord: states what one caller at a time sees, where the fast path's check and append cannot disagree; interleavings are the subject of `Reservation`, `Rollover` and `ManagerRuns`. A record larger than a segment is excluded because the call would not return (`SegmentManagers.OversizedNeverReturns`).
- Compaction.CopyKept: asks for acceptable records in the source, because the scan of a log with a record beyond the size limit, which the constructors refuse, need not end.
- Compaction.CompactionManager.CompactSegment: asks for acceptable records for the same reason.
- Compaction.MergeSegments: asks for acceptable records in all inputs for the same reason.
- PersistQs.PersistQ.Append: keeps segments as byte sequences; the class `Segment` has the array, and objects shared between the list and the current slot are not modelled. Data larger than a segment is excluded because the call would not return (`PersistQs.OversizedRound`).
- PersistQs.PersistQ.AppendToPartition: excludes data larger than a segment for the same reason.
- The lock around opening a segment in the queue facade: the interleaving allows more runs than the code, and the theorems hold of all of them.
- Queue configuration checks, the unused replication settings and the partition key hashes other than the CRC route of `append`.
- Raft: timers and randomised timeouts, log replication and the log-up-to-date rule (not implemented), sending of messages, and restarts; terms and votes are kept in memory.
- Floating point: prices, cash, thresholds and durations are real numbers, so rounding and NaN (on which the sort would panic) are not modelled. Cents are rounded half up from real prices.
- Trade identifiers are numbers instead of formatted strings; executions carry no timestamp; order identifiers and the locks of the asynchronous engine are left out, so its orders are matched one at a time.
- EngineAgreement.BuysAgree: compares fills by price, quantity and owner with the order at its price in whole cents; execution prices are those of the levels.
- Concurrent use of the breaker between reading its state and changing it, `with_timeout` and `with_fallback`.
- The compaction worker, `needs_compaction` and market data, trader strategies and reports.
- `src/network.rs`, `src/mailbox_network.rs`, `src/node.rs`, `src/mailbox.rs`, `src/mailbox_processor.rs`, `src/datafusion_layer.rs` and the modules that the library does not declare: transport, task wiring, wrappers over other libraries and placeholders; the 20-byte message header follows the pattern of the record format.
