# Redis 3.2.8, modelled and proved

This project models the parts of the Redis server in `redis-stable/src` that are hardest to get right, and proves
what they are for. Each part is a group of modules.

- **Hash table** (`Words`, `Tables`, `Dict`, `DictOps`, `DictPace`): two tables that are live at once while entries move
  from one to the other, as an object whose operations refine a finite map, and runs of these operations.
- **SCAN** (`Cursor`, `DictScan`, `ScanCall`, `ScanRuns`, `ScanShrink`): the bit-reversed cursor over runs of calls interleaved with changes of the table.
- **Safe iteration** (`DictIter`): what `dictNext` returns over a table that changes meanwhile.
- **Cluster** (`Cluster`, `Elections`, `StaleElections`, `Collision`): nodes, packets in flight and a history of votes, with a step relation.
- **Slots** (`SlotClaims`, `SlotTable`): rebinding of slots by config epoch, and the slot table with its bitmaps as objects.
- **Append-only file** (`Resp`, `RespRoundTrip`): printer and loader, byte by byte.
- **Append-only file, life of** (`AofBuffer`, `AofDataset`, `AofTime`, `AofSnapshot`, `AofWriter`, `AofRewrite`, `AofDrift`,
  `AofProtocol`, `AofSafety`, `AofSteady`): flushing, the rewrite by a child process, the switch of files, crash and restart.
  The main results are `FileLoads` and `FileReplaysToLive`: in every reachable state with the file enabled, what is on disk
  and in the buffer loads, and replays to the live dataset unless a relative expiry was logged as it is.
- **Integer set** (`Packed`, `Intset`): the packed array with its three widths, on bytes.
- **Bit operations** (`Octets`, `Popcount`, `Bitpos`, `Bitop`, `Bitfield`): the fast loops against bit-by-bit definitions.
- **Keyspace** (`SlotIndex`, `Keyspace`): dictionary, expiry times and slot index kept in agreement.

`Options` and `Powers` hold what several groups share. `dafny verify dfyconfig.toml` checks the whole project.

## Hypotheses

- *Scan.* The inner increment at dict.c:905 counts upward, not in bit-reversed order, although the comment above
  `dictScan` argues with bit-reversed increments throughout. Full coverage is proved for runs whose smaller table never
  shrinks, and for any run whose calls are safe; `SafeCallIsExact` says exactly which calls are, and `ShrinkingMissesKey` is
  a run with an unsafe one that loses a key.
- *Elections.* All nodes use one agreed set of voters (the code uses each node's own view of the cluster size), nodes do
  not restart with older state (votes are sent before they are saved), and for `ElectionSafety` no vote is counted between
  clearing the count and raising the epoch. `TwoWinsNeedStaleVotes` says what holds without the last one, and
  `StaleVotesElectTwo` that no more can be said.
- *Replay.* `EXPIRE`, `PEXPIRE`, `EXPIREAT`, `SETEX` and `PSETEX` are logged with an absolute time (aof.c:526-540). `SET` with
  `EX` or `PX` and `RESTORE` with a time to live are logged as they are, and run again by the clock of the load (aof.c:699), so
  that the key lives on for as long again as the file has lain (`SetEx100Moves`, `RelativeExpiryMoves`). `LoadTimeIff` and
  `StoreAlikeIff` say exactly when replay does what execution did. `SteadyFileReplays` is for runs in which no write that is
  logged as it is carries a relative expiry, `FileReplaysToLive` for runs in which each that does is loaded within the drift.
- *Clock.* The clock that dates an expiry for the log is read after the command was executed: it may have moved on by up to a
  drift, which is a parameter. Commands that are not modelled get the time of their execution. If the drift is not zero, they
  have to respect the relation "same keys and values, expiries later by at most the drift".
- *Rewrite.* No key is past its expiry time at the fork (`SnapshotReplays` shows that this is exactly what is needed); the
  last read of the child empties the pipe.
- *Signed bitfields.* Widths are 1 to 63 where a field is read or a sum is wrapped: for 64 bits bitops.c:254 and 352 shift by
  the width of the type, which section 6.5.7 of ISO C99 leaves undefined. Where a signed subtraction can overflow
  (bitops.c:325) the model takes the wrapped difference, which the standard does not promise.
- *Sizes.* Inserts are into dictionaries with at most 2^30 entries, integer sets have fewer than 2^29 members, arguments
  fewer than 2^63 bytes.

## Choices

- Chains of the hash table are sequences, with insertion at the front. Words are sequences of 64 bits where only their bits
  matter, and numbers with explicit wrap-around where arithmetic does. The key hash, the hash slot, the values that RESTORE unpacks
  and all commands other than SELECT, SET, RPUSH, PEXPIREAT, DEL and RESTORE are arbitrary functions. In `StaleElections` slots
  are numbered by the names of their owners.
- A pipe or file write takes its result as a parameter: every pattern of failures and short writes is covered. `WriteDiff`,
  `Append` and `Flush` are proved on blocks and buffers, and `AofProtocol` uses the effect that their contracts state.
- The loader calls a command's procedure directly (aof.c:699), so commands between MULTI and EXEC run as they are read; the
  model has no queue, but it has the flag of an open transaction, which decides how the load ends.
- The names of the commands that the loader knows are an arbitrary set that has those the server prints.
- Node names are numbers in the order of the names, epochs are unbounded. The cluster's environment may change roles and slot
  owners in a node's view at any time, so that the results on votes hold for every behaviour of the parts left out.
- The table `bitsinbyte` is represented by the count that it tabulates.

## Where code and comments disagree

- aof.c:539-541 says that all other commands need no translation; SET with EX or PX and RESTORE with a time to live do
  (`LoadTimeIff`).
- The loader truncates a file that ends inside MULTI to `valid_up_to`, which is behind the MULTI, and calls it loaded; the
  next load ends unexpectedly again (`OpenTransactionStays`).
- `clusterDelNodeSlots` is documented to return the number of slots deleted; it always returns 16384.
- `checkUnsignedBitfieldOverflow` is documented to return -1 for an underflow; with wrapping it returns 1.
- `checkSignedBitfieldOverflow` is documented to use its differences only when they cannot overflow; for a value far below
  the range it does not, and saturates to the wrong bound (`SaturatesTheWrongWay`).

## Model

| member | source | states |
|---|---|---|
| Words.Rev | redis-stable/src/dict.c:758-766 | the shift-and-mask loop reverses the order of all 64 bits, for every word |
| Dicts.NextPower | redis-stable/src/dict.c:948-958 | for every size: the least power of two, from 4 on, that is not below it, or LONG_MAX from LONG_MAX on |
| Dicts.Dict.Expand | redis-stable/src/dict.c:204-234 | accepted exactly when no rehash is on, the size holds the entries and the table would change; the new table is blank and the map is the same |
| Dicts.Dict.Resize | redis-stable/src/dict.c:192-201 | the table that is started is the least one that holds the entries, and none is started when resizing is off, a rehash is on or the size would not change |
| Dicts.MoveChain | redis-stable/src/dict.c:261-272 | the loop moves every entry of a chain to the front of its new chain; afterwards every key is found where the chain or the new table had it |
| Dicts.Dict.MoveBucket | redis-stable/src/dict.c:259-274 | moving every entry of one bucket to the other table keeps the map, both `used` counts and every bucket rule; nothing is left below `rehashidx` |
| Dicts.Dict.SkipEmpty | redis-stable/src/dict.c:255-258 | passes only empty buckets, one per visit, and stops at a bucket with entries or when the visits are used up, never off the table |
| Dicts.Dict.Rehash | redis-stable/src/dict.c:245-288 | any number of steps keeps the map; at most n buckets with entries move and at most 10 n empty ones are passed; `rehashidx` strictly advances until the new table has replaced the old one, which is when no bucket with entries is left, and the result tells which |
| Dicts.Dict.RehashStep | redis-stable/src/dict.c:317-319 | no bucket moves while a safe iterator runs; otherwise one effective step |
| Dicts.Dict.ExpandIfNeeded | redis-stable/src/dict.c:926-945 | a table that is full, and may be resized or is five times full, starts growing to at least twice its entries; nothing else changes |
| Dicts.Dict.KeyIndex | redis-stable/src/dict.c:966-988 | -1 exactly for keys of the map; else the bucket hash & mask of the table that inserts go to |
| Dicts.Dict.Add | redis-stable/src/dict.c:322-372 | implements adding a new key to a finite map, refused exactly if the key is there, through a rehash step, a growth and a push to the front of one chain |
| Dicts.Dict.Replace | redis-stable/src/dict.c:378-397 | implements map update; the result tells whether the key was new; and the states it passes through: an effective rehash step if a rehash runs without iterators, a growth, then a push, or the rehash step of a second search and a new value in place |
| Dicts.Dict.Delete | redis-stable/src/dict.c:412-447 | implements map removal from whichever table holds the key, after exactly one effective rehash step if a rehash runs without iterators, and reports whether the key was there |
| Dicts.Dict.Find | redis-stable/src/dict.c:492-511 | returns the value that the map has, in the middle of a rehash too, after exactly one effective rehash step unless the dictionary is empty, no rehash runs or an iterator does |
| DictOps.PerformAdd | redis-stable/src/dict.c:322-372 | without safe iterators, the contract of an add makes it one step of an operation run |
| DictOps.PerformReplace | redis-stable/src/dict.c:378-397 | so does that of a replace |
| DictOps.PerformDelete | redis-stable/src/dict.c:412-447 | so does that of a delete |
| DictOps.PerformFind | redis-stable/src/dict.c:492-511 | so does that of a find |
| DictOps.OperationNeverShrinks | redis-stable/src/dict.c:245-288 | no operation makes the smaller live table smaller |
| DictPace.RehashKeepsPace | redis-stable/src/dict.c:245-288 | in every run of adds, replaces, deletes and finds without safe iterators, from the insert that starts a rehash up to the operation that ends it: no more rehash steps are made, the two of a replace that finds its key counted as two, than the old table has buckets, fewer while the rehash goes on, and when it is over the table has no more entries than buckets |
| DictPace.GrowthIsPaced | redis-stable/src/dict.c:926-945 | the insert that starts a rehash puts it in the state from which it keeps pace |
| DictPace.OperationKeepsPace | redis-stable/src/dict.c:412-447 | every operation during a paced rehash ends it with a table that is not over-full, or leaves it paced and further on by at least the rehash steps it makes |
| DictPace.StartIsPaced | redis-stable/src/dict.c:322-397 | the whole insert that starts a rehash, a replace that finds its key included, leaves it paced or ends it with a table that is not over-full |
| Cursor.NextCursor | redis-stable/src/dict.c:911-918 | the reverse-increment-reverse of the masked cursor is the next prefix in the bit-reversed order, and zero exactly after the last one |
| Cursor.SmallerIsBefore | redis-stable/src/dict.c:905 | counting the expansion bits upward visits them in an order that agrees with the bit-reversed one exactly when they are ones followed by zeros |
| DictScan.ScanExpansions | redis-stable/src/dict.c:895-908 | the expansion loop emits exactly the keys whose bucket agrees with the cursor below the smaller mask and whose other bits are not below the cursor's, and terminates |
| ScanCall.Scan | redis-stable/src/dict.c:852-921 | one call emits exactly the keys of the cursor's buckets in both tables and returns the next cursor |
| DictScan.SafeCallIsExact | redis-stable/src/dict.c:895-908 | a call with two tables visits every bucket that is not behind the cursor if and only if the cursor's expansion bits are ones followed by zeros |
| ScanRuns.ScanCoverage | redis-stable/src/dict.c:852-921 | over every run of calls interleaved with inserts, deletes, growth and rehash steps in which each call is safe, a key that is there from cursor 0 until the cursor is 0 again is emitted |
| ScanRuns.ScanCoverageWhileGrowing | redis-stable/src/dict.c:852-921 | the same for every run in which the smaller table never shrinks: all such calls are safe |
| ScanRuns.ScanCoverageDuringOperations | redis-stable/src/dict.c:852-921 | so, whatever sequences of adds, replaces, deletes and finds come between the calls, every key that is there at each call is emitted |
| ScanRuns.NoShrinkIsSafe | redis-stable/src/dict.c:852-921 | in a run without shrinking every cursor has no bits beyond the smaller mask, so every call is safe |
| ScanRuns.NeighbouringSizesAreSafe | redis-stable/src/dict.c:874-908 | a call on two tables whose sizes differ by a factor of two is safe for every cursor |
| ScanRuns.CursorMovesOn | redis-stable/src/dict.c:911-918 | from every cursor, each call moves strictly forward in the bit-reversed order, unless it ends the scan |
| ScanRuns.ScanEnds | redis-stable/src/dict.c:852-921 | if the sizes stay within 2^b, whether tables shrink or not, fewer than 2^b calls return a cursor other than 0 |
| ScanShrink.ShrinkingMissesKey | redis-stable/src/dict.c:874-918 | a run in which 32 buckets shrink to 4 ends without having emitted a key that was there all the time |
| ScanShrink.ShrinkingTablesExist | redis-stable/src/dict.c:874-918 | the tables of that run exist |
| ScanShrink.ResizeShrinks | redis-stable/src/dict.c:192-234 | dictResize takes a dictionary with such a table from the first state of that run to the second |
| ScanShrink.ScanMissesKey | redis-stable/src/dict.c:852-921 | so five calls of dictScan, with a dictResize after the first, come back to cursor 0 without having emitted a key that is in the dictionary all the time |
| DictIter.Walk | redis-stable/src/dict.c:578-622 | dictNext returns a key that is still ahead, and then only that one is not ahead any more; it returns NULL only when nothing is ahead |
| DictIter.SafeIterator.Next | redis-stable/src/dict.c:571-622 | the same for the iterator object over a live dictionary, which it keeps from rehashing |
| DictIter.GrownKeepsAhead | redis-stable/src/dict.c:926-945 | an expansion that starts during the iteration leaves what is ahead as it is |
| DictIter.PushedKeepsAhead | redis-stable/src/dict.c:346-372 | an insert during the iteration changes what is ahead for no other key |
| DictIter.RemovedKeepsAhead | redis-stable/src/dict.c:412-447 | deleting the entry just returned changes nothing of what is ahead |
| DictIter.AddDuring | redis-stable/src/dict.c:322-372 | with a safe iterator running, the contract of an add makes it an event of an iteration |
| DictIter.FindDuring | redis-stable/src/dict.c:492-511 | so does that of a find, which changes nothing then |
| DictIter.DeleteDuring | redis-stable/src/dict.c:412-447 | so does that of a delete of the entry returned last |
| DictIter.NextDuring | redis-stable/src/dict.c:571-622 | so does that of dictNext |
| DictIter.NoneTwice | redis-stable/src/dict.c:571-622 | in every iteration, between two returns of a key it was added again |
| DictIter.ReturnedExactlyOnce | redis-stable/src/dict.c:571-622 | in every iteration that runs to NULL, a key that is there throughout is returned exactly once |
| Cluster.MergeKeepsBound | redis-stable/src/cluster.c:1601-1612 | taking over a packet's epochs keeps every known config epoch at most the current epoch |
| Cluster.CollisionKeepsBound | redis-stable/src/cluster.c:1035-1050 | the epoch taken to repair a collision is covered by the current epoch |
| Cluster.VotingKeepsBound | redis-stable/src/cluster.c:2466-2566 | a vote is given for the request's epoch only if that is later than the last vote, raises the last vote to it and is sent to the candidate |
| Cluster.EpochStep | redis-stable/src/cluster.c:926-987 | every step, of a node, of the network or of an election, keeps all config epochs, in nodes and packets, at most the current epoch there |
| Cluster.EpochBound | redis-stable/src/cluster.c:2145-2147 | so they are in every state of every run from fresh nodes |
| Cluster.SelfAssignedEpochIsFresh | redis-stable/src/cluster.c:2836-2838 | an epoch that a node gives itself is greater than every config epoch it knows |
| Elections.VoteSafety | redis-stable/src/cluster.c:2466-2566 | in every reachable state a master has given at most one vote per epoch, and no two replicas hold a majority of the votes of one epoch |
| Elections.ElectionSafety | redis-stable/src/cluster.c:2835-2865 | in every run without a stale start, no two replicas win the same epoch |
| Elections.CountIsExact | redis-stable/src/cluster.c:2773-2778 | in every run the count of a running election is exactly the count at its start plus the votes for the replica in that epoch that it has taken, each voter once |
| Elections.WinsHaveVoters | redis-stable/src/cluster.c:2842-2865 | in every run, for any set of voters, each win has at least a quorum of voters less the count at the start of that election |
| Elections.TwoWinsNeedStaleVotes | redis-stable/src/cluster.c:2773-2865 | in every run, two replicas win the same epoch only if the counts at the starts of their elections add up to at least 1, or 2 if the number of voters is even |
| Elections.MajorityIsUnique | redis-stable/src/cluster.c:2707 | two majorities of one voter set have a common voter |
| Elections.AckIsNewVote | redis-stable/src/cluster.c:1928-1940 | an accepted ACK is a vote of the running election that was not counted before |
| StaleElections.StaleWin | redis-stable/src/cluster.c:2773-2842 | votes that arrive between clearing the count and raising the epoch win an epoch with as many votes of it less than a quorum |
| StaleElections.StaleVotesElectTwo | redis-stable/src/cluster.c:2773-2842 | for every set of voters a whole run in which two replicas win the same epoch, with counts at the starts of their elections that add up to exactly the least that TwoWinsNeedStaleVotes admits |
| Collision.FewChanges | redis-stable/src/cluster.c:1026-1050 | if every epoch that a node has left was had by a greater name, the node has changed at most as often as there are greater names |
| Collision.CollisionsEnd | redis-stable/src/cluster.c:1026-1050 | in every run of packet exchange and collision handling among masters, the node with k greater names changes its config epoch at most k times |
| Collision.StirsIff | redis-stable/src/cluster.c:1872-1879 | a packet makes its receiver change exactly when its sender has a greater name and the same epoch |
| Collision.DistinctStays | redis-stable/src/cluster.c:1026-1050 | when all config epochs differ, no packet changes any, not even a stale one that was in flight: an epoch that was ever held is still held by that or a greater name |
| Collision.DistinctIsFinal | redis-stable/src/cluster.c:1026-1050 | so no continuation of the run changes any |
| Collision.QuiescentIffDistinct | redis-stable/src/cluster.c:1872-1879 | among masters that know each other, no continuation, stale packets included, changes a config epoch if and only if all config epochs differ |
| SlotClaims.ClaimsConverge | redis-stable/src/cluster.c:1442-1502 | from an unbound table, claims of distinct epochs processed in any order with any repetitions leave each slot with its greatest-epoch claimant among those heard |
| SlotClaims.OrderDoesNotMatter | redis-stable/src/cluster.c:1811-1826 | two nodes that have heard the same masters, in whatever orders, have the same owners |
| SlotTable.BitmapSpec | redis-stable/src/cluster.c:3339-3357 | testing, setting and clearing a bit of the packed bitmap are membership, insertion and removal in a set of slots |
| SlotTable.Table.AddSlot | redis-stable/src/cluster.c:3418-3423 | binds an unbound slot, in the table and in the owner's bitmap and count, and refuses a bound one |
| SlotTable.Table.DelSlot | redis-stable/src/cluster.c:3428-3435 | unbinds a slot on both sides; the bit that is asserted to be set is set |
| SlotTable.Table.DelNodeSlots | redis-stable/src/cluster.c:3439-3447 | unbinds exactly the slots of one node; the value returned is always the number of all slots |
| SlotTable.Table.TakeOver | redis-stable/src/cluster.c:2666-2682 | a failover moves exactly the old master's slots |
| SlotTable.Table.CheckSlots | redis-stable/src/cluster.c:3932-3956 | accepts exactly the lists of distinct valid slots that are all unbound, or all bound |
| SlotTable.Table.AddOrDelSlots | redis-stable/src/cluster.c:3926-3975 | all or nothing: the slots of an accepted list change, the importing marks of them are cleared, nothing else changes |
| SlotTable.Table.RebindSlots | redis-stable/src/cluster.c:1460-1502 | the loop gives the sender exactly the slots its claim wins, and reports the lost slots that have keys and whether the own shard lost one |
| SlotTable.Table.UpdateSlotsConfigWith | redis-stable/src/cluster.c:1442-1530 | the owners become those of the pure rebinding; a replica without a known master dereferences NULL exactly when the claim wins an unbound slot; reconfiguration exactly when the shard lost its last slot |
| Resp.CatCommand | redis-stable/src/aof.c:449-472 | the loop appends the text of the command to what was there |
| Resp.ReadArgv | redis-stable/src/aof.c:668-689 | the loop over the arguments reads what the grammar says, with the same end for every malformed or short input |
| Resp.LoadAppendOnlyFile | redis-stable/src/aof.c:639-714 | the parse loop gives the commands, `valid_up_to` and reason to stop of the recursive definition, for every file and every set of known commands, the unexpected end inside MULTI included |
| RespRoundTrip.ReadCommandWhole | redis-stable/src/aof.c:653-689 | the text of a command followed by anything reads back as that command |
| RespRoundTrip.ReadCommandCut | redis-stable/src/aof.c:653-689 | a proper non-empty prefix of it is a short read, never a command and never a format error |
| RespRoundTrip.LoadCut | redis-stable/src/aof.c:639-714 | for every list of commands and every byte at which their text is cut, the loader runs exactly the commands wholly before the cut, `valid_up_to` is the end of the last, and it ends cleanly exactly if the cut is between two and no transaction is open there |
| RespRoundTrip.LoadWhole | redis-stable/src/aof.c:639-714 | a text that was not cut loads as it was printed, and cleanly exactly if it does not end inside a transaction |
| RespRoundTrip.InMultiIff | redis-stable/src/multi.c:86-101 | a transaction is open exactly if some MULTI is not followed by an EXEC or DISCARD |
| RespRoundTrip.UnknownStops | redis-stable/src/aof.c:691-696 | a command that is not known stops the loader, after exactly the commands before it |
| RespRoundTrip.WholeIsMaximal | redis-stable/src/aof.c:709 | the commands counted as whole fit before the cut and one more does not |
| RespRoundTrip.TruncationRepairs | redis-stable/src/aof.c:725-737 | the file truncated to `valid_up_to` loads to the same commands, and cleanly if and only if no transaction is open after them |
| RespRoundTrip.OpenTransactionStays | redis-stable/src/aof.c:714-737 | MULTI and SET, cut anywhere after the MULTI: the truncated file ends unexpectedly again |
| AofBuffer.RewriteBuffer.Append | redis-stable/src/aof.c:124-168 | the blocks then hold what they held followed by the new bytes, and none is over-full, although sent bytes give no room back |
| AofBuffer.RewriteBuffer.WriteDiff | redis-stable/src/aof.c:95-121 | what was sent followed by what is left is what was there, for every pattern of partial writes; nothing is sent after the stop; the handler goes only then or when all is sent, and gives up only at a write that fails |
| AofBuffer.RewriteBuffer.Write | redis-stable/src/aof.c:173-193 | succeeds exactly if every block is written whole, and has then written everything; else a prefix |
| AofBuffer.Log.Feed | redis-stable/src/aof.c:548-549 | file followed by buffer is everything fed |
| AofBuffer.Log.Flush | redis-stable/src/aof.c:287-425 | under failed, short and full writes, truncations that work or not, postponement and every fsync policy, file followed by buffer stays everything fed and the size stays the file's; the server exits only if it promised to sync always, and even then the file is a prefix of what was fed |
| AofDataset.ExecObeys | redis-stable/src/aof.c:1049-1093 | SELECT, SET, RPUSH, PEXPIREAT and DEL as they are printed do to a dataset what their names say at every time, whatever other commands do |
| AofTime.StoreAlikeIff | redis-stable/src/t_string.c:68-139 | a SET or RESTORE does the same at two times, to every dataset, if and only if these are the same or its argument vector carries no relative expiry |
| AofTime.SteadyIff | redis-stable/src/aof.c:699 | any command does the same whenever it is replayed if and only if it carries no relative expiry and, if it is not modelled, does not look at the clock |
| AofTime.SetEx100Moves | redis-stable/src/t_string.c:86-88 | SET k v EX 100 expires the key 100 seconds after it is executed, and after it is loaded again; the two agree only at the same time |
| AofTime.SteadyReplays | redis-stable/src/aof.c:639-710 | a file of steady commands gives the same at whatever time it is loaded |
| AofSnapshot.ListReplays | redis-stable/src/aof.c:787-817 | for every list and every chunk size of at least 1, replaying the chunked RPUSH commands rebuilds the list |
| AofSnapshot.SnapshotReplays | redis-stable/src/aof.c:1039-1103 | replaying the rewrite of any dataset, its keys in any iteration order, gives the dataset without the keys that were expired (or empty lists), so the dataset itself if and only if there were none |
| AofWriter.RewriteList | redis-stable/src/aof.c:787-817 | the loop that counts items writes exactly the text of those commands: each header counts the items that follow it |
| AofWriter.WriteDataset | redis-stable/src/aof.c:1039-1103 | the nested loops write exactly the text of the snapshot's commands |
| AofRewrite.FeedText | redis-stable/src/aof.c:511-546 | what is fed is the text of a SELECT, if the file has another database selected, and of the translated command |
| AofRewrite.FeedReplays | redis-stable/src/aof.c:474-546 | replaying at any time what is fed for a write does to the replaying client's dataset what the write does, with the expiries that were dated for the log and, for a command logged as it is, the clock of the replay |
| AofRewrite.ClockDrift | redis-stable/src/aof.c:482-500 | if the clock is read again for the log, the logged expiry equals the live one if and only if it has not moved, or the time was absolute or in the past, or the key is not there |
| AofRewrite.LoadTimeIff | redis-stable/src/aof.c:538-543 | for a SET or RESTORE, logged as it is: replay at t gives what execution at now did if and only if t is now, or the argument vector carries no relative expiry, or the command is refused |
| AofDrift.NearIsSame | redis-stable/src/aof.c:482-500 | without drift of the clock, near datasets are the same |
| AofDrift.LiveNear | redis-stable/src/aof.c:474-546 | a write executed at one time, logged as of a later one and replayed at a third keeps two near datasets near (same keys, same values, each expiry at most the drift later), if it is dated, or steady, or replayed within the drift |
| AofSafety.FaithfulFeed | redis-stable/src/aof.c:511-559 | a log that replays at the time t to the live dataset, up to the drift, still does after such a write is executed and later fed to it |
| AofSafety.ForkIsFaithful | redis-stable/src/aof.c:1304-1310 | at the fork the child's snapshot replays at whatever time to the live dataset, whatever database is selected by it |
| AofSafety.SendConserves | redis-stable/src/aof.c:95-121 | sending part of the diff loses, repeats and reorders nothing |
| AofSafety.ReadConserves | redis-stable/src/aof.c:996-1006 | neither does reading part of it |
| AofSafety.FinishConserves | redis-stable/src/aof.c:1129-1148 | after the handshake the child's last read takes all that was sent, since the parent has stopped before it acknowledges |
| AofSafety.SwitchIsExact | redis-stable/src/aof.c:1358-1474 | the new file is the fork-time snapshot followed by every byte fed since |
| AofSafety.RestartKeepsText | redis-stable/src/aof.c:639-737 | after a crash that leaves any prefix of the file, the reloaded server's log is a prefix of the old one, and the truncated file its text |
| AofSafety.RestartIsFaithful | redis-stable/src/aof.c:639-737 | and replays at t to what was loaded, up to the drift, if the restart was within the drift of t or the log is steady |
| AofSafety.StepKeepsText | redis-stable/src/aof.c:1180-1201 | every step of parent, child and pipes keeps what the file, the buffers and the pipes hold |
| AofSafety.StepKeepsFaith | redis-stable/src/aof.c:1180-1201 | every step that is not too early for a load at t keeps that log and rewrite replay at t to the live dataset |
| AofSafety.FileLoads | redis-stable/src/aof.c:511-559 | in every state reachable with the file enabled, through rewrites, failed rewrites, crashes and restarts, file and buffer load to the end, to exactly the commands of the log, and cleanly exactly if these do not end inside a transaction |
| AofSafety.FileReplaysToLive | redis-stable/src/aof.c:511-559 | and if no step came too early for a load at t, they replay at t to the live dataset: the same keys and values, each expiry later by at most the drift, and exactly the live dataset without drift |
| AofSteady.SteadyFileReplays | redis-stable/src/aof.c:511-559 | so they do at whatever time, in every run in which no write that is logged as it is carries a relative expiry |
| AofSteady.SteadyRewriteReplays | redis-stable/src/aof.c:1358-1474 | and so does the file of a child that has finished |
| AofSteady.RelativeExpiryMoves | redis-stable/src/aof.c:538-543 | after one SET k v EX 100 at now, file and buffer loaded at t are off by no more than a given drift if and only if t is |
| AofSteady.SetEx100Runs | redis-stable/src/aof.c:538-543 | that state is reached by a run |
| AofSteady.SnapshotSteady | redis-stable/src/aof.c:1039-1103 | the rewrite of any dataset is steady |
| AofSafety.RewriteReplaysToLive | redis-stable/src/aof.c:1358-1474 | in every reachable state in which a child has finished, its file with the residual diff loads to the fork-time snapshot and everything fed since, and replays at t to the live dataset in the same sense |
| AofSafety.CrashLosesOnlyATail | redis-stable/src/aof.c:639-737 | whatever prefix of the file survives, the loader never reports a bad format and recovers exactly the commands that lie wholly within it; cleanly exactly if they fill it and do not end inside a transaction |
| Packed.DecodeOfEncode | redis-stable/src/intset.c:55-95 | every integer that fits a width reads back from its little-endian two's complement bytes |
| Packed.ValueWidthIsLeast | redis-stable/src/intset.c:45-52 | the encoding of a value is the least that holds it |
| Packed.PutBehind | redis-stable/src/intset.c:170-171 | a value written in a wider slot leaves the narrower slots that end before it alone |
| Intsets.UpgradeStep | redis-stable/src/intset.c:167-171 | each write of the back-to-front upgrade leaves every integer that is still to be read intact |
| Intsets.UpgradeEnd | redis-stable/src/intset.c:173-180 | the value added fills the one free slot, in front or behind, and all integers are there in the new width |
| Intsets.OutOfRange | redis-stable/src/intset.c:209-212 | a value that needs a greater width lies below the whole set if it is negative and above it if not |
| Intsets.Intset.Search | redis-stable/src/intset.c:115-154 | the binary search finds the value exactly if it is there, and else the position where it belongs |
| Intsets.Intset.UpgradeAndAdd | redis-stable/src/intset.c:157-180 | the bytes hold the same integers in the new width with the value in front or at the end |
| Intsets.Intset.Add | redis-stable/src/intset.c:204-231 | implements insertion into a set of 64-bit integers over a strictly sorted array; the width grows exactly if the value needs it |
| Intsets.Intset.Remove | redis-stable/src/intset.c:234-251 | implements removal, and reports whether the value was there |
| Intsets.Intset.Find | redis-stable/src/intset.c:254-257 | implements membership |
| Popcount.FoldedIsOnes | redis-stable/src/bitops.c:66-86 | the three masked folds of a 32-bit word leave the number of ones of each byte in its byte |
| Popcount.Multiply | redis-stable/src/bitops.c:80-86 | the multiplication by 0x01010101 adds up four byte lanes, without carry, in the top one |
| Popcount.RoundIsTotal | redis-stable/src/bitops.c:54-87 | one round of the loop gives the number of ones of its 28 bytes |
| Popcount.CountAll | redis-stable/src/bitops.c:46-91 | the three loops add up the bytes and the rounds of 28 bytes of the whole string, for every alignment |
| Popcount.Popcount | redis-stable/src/bitops.c:40-92 | for every string at every alignment the result is the number of bits set |
| Bitpos.BigEndianBit | redis-stable/src/bitops.c:144-152 | the bits of the padded word are the bits of the string in order |
| Bitpos.Bitpos | redis-stable/src/bitops.c:101-179 | for every string at every alignment the result is the first bit of the kind, the string being followed by zeros, or -1 exactly if a one is looked for and there is none |
| Bitpos.ScanWord | redis-stable/src/bitops.c:165-178 | the scan of the last word finds the bit before it runs off the word, so the panic is unreachable |
| Bitop.BitwiseIsBytes | redis-stable/src/bitops.c:668-717 | an operation on words is the operation on each of their bytes |
| Bitop.FastPath | redis-stable/src/bitops.c:658-718 | as far as the fast path gets, its bytes are those of the byte loop |
| Bitop.CombinedIsBitwise | redis-stable/src/bitops.c:720-733 | the byte loop applies the gate to the bits of the sources, each followed by zeros |
| Bitop.BitopString | redis-stable/src/bitops.c:616-734 | for every list of sources, missing keys among them, the result is as long as the longest and each of its bits is the gate of the sources' bits, each followed by zeros |
| Bitfield.SetUnsigned | redis-stable/src/bitops.c:202-215 | the field holds the value's bits, the most significant first, and no other bit of the string changes |
| Bitfield.GetUnsigned | redis-stable/src/bitops.c:222-234 | reads the number whose bits the field holds |
| Bitfield.FieldRoundTrip | redis-stable/src/bitops.c:202-234 | a field set to a value reads back as the value modulo 2^bits |
| Bitfield.SetGetUnsigned | redis-stable/src/bitops.c:202-234 | setting a field and reading it back gives the value modulo 2^bits, and no other bit of the string changes |
| Bitfield.SetGetSigned | redis-stable/src/bitops.c:217-256 | a signed field set and read back gives the value wrapped to the width, so any value that fits comes back |
| Bitfield.UnsignedCheckExact | redis-stable/src/bitops.c:281-316 | for all values and increments and fields of up to 63 bits: no overflow is reported exactly if value and sum are in range, wrapping gives the sum modulo 2^bits, saturation of a value in range the clamped sum |
| Bitfield.Unsigned64Exact | redis-stable/src/bitops.c:281-316 | for 64 bits, which the command refuses, the check is right if and only if there is no increment or the room on its side of the value fits a signed integer |
| Bitfield.WrapSignedExact | redis-stable/src/bitops.c:350-367 | the wrapped signed sum is the number of that width congruent to the sum |
| Bitfield.SignedCheckExact | redis-stable/src/bitops.c:318-368 | the same for signed fields and every increment of a value in range, in fields of 64 bits too unless the sum is wrapped |
| Bitfield.SignedSetSaturates | redis-stable/src/bitops.c:318-348 | for fields of every width, a 64-bit value that is set saturates to the bound nearer to it if and only if its distance to the greatest value of the field fits 64 bits |
| Bitfield.SaturatesTheWrongWay | redis-stable/src/bitops.c:318-348 | the least 64-bit integer set in an 8-bit field saturates to 127 |
| SlotIndex.InsertIndexes | redis-stable/src/db.c:1240-1245 | inserting the entry of a new key keeps the index sorted and exact |
| SlotIndex.DeleteIndexes | redis-stable/src/db.c:1247-1251 | deleting the entry of a key does too |
| SlotIndex.SlotRange | redis-stable/src/db.c:1258-1323 | the entries of a slot are one stretch of the index, as long as the slot has keys |
| Keyspaces.Keyspace.Add | redis-stable/src/db.c:157-164 | a new key is in the dictionary and in the index, and has no expiry time |
| Keyspaces.Keyspace.SetKey | redis-stable/src/db.c:184-193 | the value is set whatever was there, and no expiry time is left |
| Keyspaces.Keyspace.Delete | redis-stable/src/db.c:226-236 | the key is gone from dictionary, expiry times and index alike |
| Keyspaces.Keyspace.SetExpire | redis-stable/src/db.c:847-855 | only the expiry time of that key changes |
| Keyspaces.Keyspace.RemoveExpire | redis-stable/src/db.c:840-845 | the key stays, without expiry time |
| Keyspaces.Keyspace.ExpireIfNeeded | redis-stable/src/db.c:896-930 | deletes exactly the keys that are due, and none on a replica or while loading |
| Keyspaces.Keyspace.Empty | redis-stable/src/db.c:276-287 | everything is empty |
| Keyspaces.Keyspace.Rename | redis-stable/src/db.c:731-771 | value and expiry time move to the new name, nothing of what had that name is left, and every refusal leaves the keyspace as it was but for a source that was due |
| Keyspaces.Keyspace.CountKeysInSlot | redis-stable/src/db.c:1296-1323 | the arithmetic on ranks is the number of keys of the slot |
| Keyspaces.Keyspace.GetKeysInSlot | redis-stable/src/db.c:1258-1272 | distinct keys of the slot, as many as asked for or as there are |
| Keyspaces.Keyspace.DelKeysInSlot | redis-stable/src/db.c:1276-1294 | deletes exactly the keys of the slot, from all three places, and counts them |

## Left out

- The Rails application: glue over libraries that are not part of this repository's own logic.
- Event loop, socket wrappers, background threads, option parsing, logging, crash reports and geo commands.
- MIGRATE, handshakes, ping timing, replica migration and nodes.conf: network and clock behaviour.
- Reference counts, allocation failure, LRU clocks and keyspace notifications.
- Skiplist internals: the slot index is a sequence sorted by slot and key, with the results of range and rank searches.
- Sets, hashes and sorted sets in the rewrite of a dataset: they are chunked like lists and would add easy members.
- Write errors of the child while it writes the snapshot: they end the rewrite like any other failure of the child.
- dictRehashMilliseconds, dictGetRandomKey and fingerprints of unsafe iterators.
- BITPOS, BITCOUNT and BITFIELD argument parsing around the functions modelled, and BITOP on keys that are not strings.
- Elections.ElectionSafety: says nothing about runs with a stale start, since StaleVotesElectTwo shows it false of them; TwoWinsNeedStaleVotes does.
- ScanRuns.ScanCoverageWhileGrowing: says nothing about runs in which the table shrinks, since ShrinkingMissesKey shows it false of them.
- Bitfield.SignedCheckExact: is about values in the field's range; SignedSetSaturates says what happens to the others.
- Bitfield.GetSigned: does not model fields of 64 bits, where the C code shifts by the width of the type.
- Bitfield.SetGetSigned: does not model fields of 64 bits, for the same reason.
- Bitfield.WrapSignedExact: does not model fields of 64 bits, for the same reason (bitops.c:352).
- Bitfield.UnsignedCheckExact: is about fields of up to 63 bits; Unsigned64Exact says what happens to wider ones, which bitops.c:435 rules out.
- Dicts.Dict.Expand: is about sizes below LONG_MAX; from there on the size is no power of two and its allocation overflows.
- Dicts.Dict.Resize: is about at most INT_MAX entries, since dict.c:194 keeps their number in an int.
- Dicts.Dict.ExpandIfNeeded: is about fewer than LONG_MAX / 2 entries, since dict.c:942 doubles their number.
- Dicts.Dict.KeyIndex: is about at most 2^30 entries, so that tables stay within 2^31 buckets and an index is an int (dict.c:966).
- Dicts.Dict.Add: is about at most 2^30 entries, since it uses KeyIndex.
- Dicts.Dict.Replace: is about at most 2^30 entries, since it uses KeyIndex.
- Intsets.Intset.Add: is about fewer than 2^29 - 1 members, since intset.c:107 computes the size in bytes in 32 bits.
- AofDataset.ExecObeys: is about the model's own semantics of the commands that are printed, for strings and lists.
- AofSnapshot.SnapshotReplays: is about strings and lists; sets, hashes and sorted sets are printed in chunks like lists.
- AofWriter.WriteDataset: is about strings and lists, and writes that succeed.
- AofSafety.FileReplaysToLive: needs that no key is past its expiry time at a fork (the rewrite leaves such keys out), and that a relative expiry that is logged as it is is loaded within the drift; RelativeExpiryMoves shows the latter needed.
- AofSafety.RewriteReplaysToLive: needs the same.
- AofSteady.SteadyFileReplays: says nothing about runs with a relative expiry that is logged as it is, since RelativeExpiryMoves shows it false of them.
- AofRewrite.FeedReplays: is about writes that succeed; an EXPIRE of a key that is not there is not logged.
- RespRoundTrip.LoadCut: is about commands that the loader knows; UnknownStops is about the others.
- DictOps.PerformAdd: is about at most 2^30 entries, since it uses KeyIndex.
- DictOps.PerformReplace: is about at most 2^30 entries, since it uses KeyIndex.
- DictIter.AddDuring: is about at most 2^30 entries, since it uses KeyIndex.
