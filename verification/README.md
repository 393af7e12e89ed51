# NomDB in Dafny

NomDB is a Redis-like store written in Python. This project models its hand-written structures and protocols and proves
what they are for. `dafny verify dfyconfig.toml` checks all of it. Code that works by changing objects step by step is
modelled by classes and loops; each is proved against a function of the old state, and the larger results are lemmas
about those functions.

| file | of NomDB | main results |
|---|---|---|
| Basics, Bytes, Resp | values, numbers, lines | reading a number inverts printing it; what the order of byte strings decides; splitting a line inverts spelling it |
| SkipList, SortedSetStore | sorted sets | insert and delete keep every link, span and back pointer exact; ranks are exact, with one named exception; ranges return the positions that their indices name; dictionary and list always agree |
| Parser, Encoder | wire protocol | chunk independence; parsing inverts encoding exactly for the sendable values; pipelining |
| Keyspace, Scan, Databases | keyspaces | every change raises the key's version; a full SCAN returns every key exactly when no call before the last meets a due entry |
| Commands, Handlers, Effects | data commands | run step by step on the keyspace object, each leaves the entry and gives the reply that it is for, and touches no other key |
| Transactions, Dispatcher, Observer, Answers | transactions | over all interleavings EXEC runs what was queued exactly when every watched key has the version it was watched with; then nothing that was watched changed |
| Aof, Recovery, CrashConsistency | append-only log | a log cut at any byte recovers the state after exactly the writes that are whole in it |
| Rewrite, InPlaceRewrite | log rewrite | recovery from a rewritten log, at any time, rebuilds the entries alive then; exactly when a log rewritten in place can go on |
| Json, SnapshotFormat, Snapshot | snapshots | loading inverts saving |
| Backlog, Primary | replication | the ring buffer is the end of the write history; CONTINUE is answered exactly to this primary's id and an offset kept; partial resync leaves no gap and no repeat |
| Crc16, Slots, Cluster | cluster | the table computes the polynomial division; owners and slot sets agree; ranges are maximal |
| Expiration, Eviction | expiry, memory limit | sweeping is invisible; the eviction loop ends, and only as allowed |

How the model reads the source:

- Byte strings are sequences of bytes. Command names are compared after upper-casing ASCII letters.
- Scores are integers and print with ".0", as integral floats below 10^16 do. The order of a sorted set is (score, member).
- Every operation reads the clock once; the time is a parameter. Random choices (levels, sampled keys, which of two
  equal expiries comes off the heap first) are arbitrary.
- The insertion order of a keyspace's dictionary is explicit, because SCAN, the sweep and the files follow it. The order
  in which a hash, a set or the replica table is walked is arbitrary.
- The Python exceptions are results: a Boolean, an Option or an error value, as the comment at the member says.

Where the code does not do what its comments promise, the code is modelled, and the exact condition is proved:

- The rank of an empty member can be reported as missing, because the header node carries an empty member too
  (`SkipLists.SkipList.GetRank`, `SkipLists.EmptyMemberIsMissed`).
- RENAME of a key onto itself deletes the key (`Keyspaces.RenameMoves`).
- ZADD XX on a missing key leaves an empty sorted set (`Commands.ZAddOnMissingKey`), which a log rewrite does not rebuild.
- SCAN passes over living keys exactly when a call before the last deletes due entries (`Scans.FullScanExactly`,
  `Scans.DueHidesLiving`).
- Recovery refuses a log in which a record, with what its last chunk holds behind it, overfills the parser, though a
  client connection with the same limit may have accepted it (`Recovery.ReplayOfCutLog`).
- A log rewritten in place loses empty containers, repeats the commands that were in the buffer, and lets later commands
  run on the database that it selects last (`InPlaceRewrites.ContinuedLog`, `InPlaceRewrites.EmptyBufferContinues`).
- A write of at least the backlog's size is stored at index 0 and counted as that size; the backlog survives it exactly
  under the condition of `ReplicationBacklogs.ReplicationBacklog.Feed`.
- A cluster node with the empty id is taken for no owner and keeps slots that were given away
  (`Cluster.ClusterManager.AssignSlots`); adding a node over one that owns slots empties its set
  (`Cluster.ClusterManager.AddNode`).
- The encoding of some error responses reads back as a different error (`Encoders.ErrorLine`).
- Snapshot records that the file cuts short inside a key or value are taken as they are; only a checksum that matches
  such a file would let that happen.

## Model

| member | source | states |
|---|---|---|
| SkipLists.SortedIsUnique | src/nomdb/storage/datatypes/sorted_set_store.py:45-61 | The members and scores of a sorted set determine one sequence: two strictly sorted sequences with the same pairs are equal, so the order the list keeps is not a choice |
| Bytes.LessDecides | src/nomdb/storage/datatypes/sorted_set_store.py:45-61 | The order of members: a proper prefix comes first, and otherwise the first byte that differs decides, as Python compares byte strings |
| SkipLists.SortedMeans | src/nomdb/storage/datatypes/sorted_set_store.py:45-61 | What a sorted set's sequence is: scores ascend, and among equal scores the members do, by their first differing byte; nothing else is sorted |
| SkipLists.PositionIsCount | src/nomdb/storage/datatypes/sorted_set_store.py:129-145 | Where the smaller pairs are exactly those before it, a pair's position is the number of smaller pairs |
| SkipLists.IndexIsCount | src/nomdb/storage/datatypes/sorted_set_store.py:129-145 | In a sorted sequence the k-th pair has exactly k smaller ones |
| SkipLists.PredecessorsBracket | src/nomdb/storage/datatypes/sorted_set_store.py:49-61 | A node that is the last one before the new pair on level 0, and one before it on a higher level, bracket the same position: no node of that level lies between |
| SkipLists.SearchCrosses | src/nomdb/storage/datatypes/sorted_set_store.py:49-61 | The predecessors found by the search, level by level, are exactly the links that cross the insertion point |
| SkipLists.InsertedLinked | src/nomdb/storage/datatypes/sorted_set_store.py:63-81 | Splicing a node of any height into links whose spans are index distances (to the end for a null link) gives such links again, on every level |
| SkipLists.RaisedLinked | src/nomdb/storage/datatypes/sorted_set_store.py:64-69 | Opening levels with the header's null link spanning the whole length keeps every link and span right |
| SkipLists.RemovedLinked | src/nomdb/storage/datatypes/sorted_set_store.py:92-98 | Bridging a node on its levels and shortening the spans above it gives correct links for the remaining nodes |
| SkipLists.TopUnused | src/nomdb/storage/datatypes/sorted_set_store.py:105-106 | A top level whose header link is null reaches no node, so the level counter may drop |
| SkipLists.SkipList.Ascends | src/nomdb/storage/datatypes/sorted_set_store.py:45-61 | A valid list holds its pairs by ascending score, and by member among equal scores |
| SkipLists.SkipList.FindPredecessors | src/nomdb/storage/datatypes/sorted_set_store.py:49-61 | Terminates and returns, for each level, the last node before the pair, with its index as accumulated span |
| SkipLists.SkipList.Insert | src/nomdb/storage/datatypes/sorted_set_store.py:45-90 | For every level in 1..32: the whole invariant holds again (order, each level's nodes, every span, backward links and tail, length, level counter) and the sequence gains exactly the pair, at its place; what the order is says SkipLists.SkipList.Ascends |
| SkipLists.SkipList.DeleteNode | src/nomdb/storage/datatypes/sorted_set_store.py:92-107 | The whole invariant holds again and the sequence loses exactly the given node |
| SkipLists.SkipList.Delete | src/nomdb/storage/datatypes/sorted_set_store.py:109-127 | True exactly when the pair is stored; then the sequence loses exactly it, otherwise nothing changes; the invariant is kept |
| SkipLists.SkipList.GetRank | src/nomdb/storage/datatypes/sorted_set_store.py:129-145 | For a stored pair the rank is one plus the number of smaller pairs, except that an empty member is reported missing exactly when the top level does not reach it: the header carries an empty member too |
| SkipLists.EmptyMemberIsMissed | src/nomdb/storage/datatypes/sorted_set_store.py:129-145 | A concrete list whose stored empty member has rank 0: the exception is real |
| SkipLists.SkipList.GetElementByRank | src/nomdb/storage/datatypes/sorted_set_store.py:147-157 | The r-th pair for 1 <= r <= length, the header for r = 0, nothing beyond; terminates on level and nodes left |
| SortedSetStores.RandomLevel | src/nomdb/storage/datatypes/sorted_set_store.py:38-43 | Whatever the coin does, the level is in 1..32 |
| SortedSetStores.AddedMembers | src/nomdb/storage/datatypes/sorted_set_store.py:177-207 | The members after zadd: with xx exactly the old ones, otherwise the old ones and those named |
| SortedSetStores.AddedScores | src/nomdb/storage/datatypes/sorted_set_store.py:177-207 | The scores after zadd: with nx, or unnamed, an old member keeps its own; otherwise the last pair naming a member decides, and for a new member under nx the first |
| SortedSetStores.RemovedAllMeans | src/nomdb/storage/datatypes/sorted_set_store.py:218-225 | zrem takes out exactly the members named, whatever their order and repetitions |
| SortedSetStores.AgreeDetermines | src/nomdb/storage/datatypes/sorted_set_store.py:160-166 | The dictionary alone determines the skip list's sequence |
| SortedSetStores.AgreeCount | src/nomdb/storage/datatypes/sorted_set_store.py:171-172 | Dictionary and sequence that hold the same pairs have the same size |
| SortedSetStores.SortedSetStore.ZAdd | src/nomdb/storage/datatypes/sorted_set_store.py:177-207 | Dictionary and skip list hold the same pairs afterwards, the dictionary is the one the flags call for, and the result is the growth in cardinality, or with ch the number of changes |
| SortedSetStores.SortedSetStore.ZIncrBy | src/nomdb/storage/datatypes/sorted_set_store.py:209-216 | The member's score grows by delta (from 0 if it is new), in dictionary and list alike |
| SortedSetStores.SortedSetStore.ZRem | src/nomdb/storage/datatypes/sorted_set_store.py:218-225 | Exactly the named members go, in dictionary and list alike, and the result is how many that were |
| SortedSetStores.SortedSetStore.ZRank | src/nomdb/storage/datatypes/sorted_set_store.py:227-233 | None for a missing member; otherwise the number of smaller pairs, with the empty-member exception of the rank search |
| SortedSetStores.SortedSetStore.ZRevRank | src/nomdb/storage/datatypes/sorted_set_store.py:235-242 | The mirror image of the rank: cardinality minus one minus it |
| SortedSetStores.SortedSetStore.ZRange | src/nomdb/storage/datatypes/sorted_set_store.py:244-268 | The pairs whose positions lie between the two indices, both included, smallest first and nothing else: an index from 0 on counts from the front, a negative one from the end, and what lies in front of the first pair stands for it; 0 and -1 give the whole set |
| SortedSetStores.SortedSetStore.ZRevRange | src/nomdb/storage/datatypes/sorted_set_store.py:270-295 | The same of the sequence read from its end: greatest first |
| SortedSetStores.WindowReads | src/nomdb/storage/datatypes/sorted_set_store.py:246-257 | Such a window of n pairs, at a glance: start..stop inside, n+start..n+stop for negative indices that exist, everything from -n or below up to -1, n or above, nothing from n on |
| Resp.ParseIntInvertsDecimal | src/nomdb/protocol/parser.py:126-130 | Reading a number inverts printing it, for every integer |
| Resp.NextDigit | src/nomdb/protocol/parser.py:126-130 | A digit behind a number is its next decimal place, with or without one underscore between |
| Resp.NumberReads | src/nomdb/protocol/parser.py:126-130 | White space around a number and a sign in front are read as Python's int does |
| Resp.MisplacedUnderscore | src/nomdb/protocol/parser.py:126-130 | Underscores in front, at the end or side by side make no number |
| Resp.NumbersAreDigits | src/nomdb/protocol/parser.py:126-130 | A text with a byte that is no digit, sign, underscore or white space is no number |
| Resp.WordsInvertSpelling | src/nomdb/protocol/parser.py:191-194 | Splitting an inline line gives back the words it was spelled with, in order, for any white space between, in front and behind |
| Resp.LineIsSpelled | src/nomdb/protocol/parser.py:191-194 | Every line is spelled with exactly the words it is split into |
| Parsers.LineMeans | src/nomdb/protocol/parser.py:101-130 | What a line after +, - or : is read as, whatever follows |
| Parsers.BulkLineMeans | src/nomdb/protocol/parser.py:132-159 | A byte string is read exactly when its length is a number from 0 on and that many bytes and a CRLF follow; -1 is null, and every other line is the error for it |
| Parsers.ArrayLineMeans | src/nomdb/protocol/parser.py:161-183 | The same for the count of an array |
| Parsers.InlineMeans | src/nomdb/protocol/parser.py:185-194 | A line that begins otherwise is an array of its words |
| Parsers.ParseOneExtended | src/nomdb/protocol/parser.py:90-194 | More bytes behind the buffer never change an object that was complete, or an error |
| Parsers.ParseOneShifted | src/nomdb/protocol/parser.py:90-194 | Bytes in front of the current position never matter: rollback and compaction cannot be seen |
| Parsers.ParseAllSplit | src/nomdb/protocol/parser.py:46-74 | Parsing what is there, then the rest with more bytes behind it, gives what parsing everything gives |
| Parsers.ChunkIndependence | src/nomdb/protocol/parser.py:36-74 | For every stream without a protocol error and within the size limit, every split into feeds gives the objects and the unconsumed tail of one single feed |
| Parsers.RESPParser.Feed | src/nomdb/protocol/parser.py:36-44 | Refused exactly when the unconsumed bytes would exceed the limit; otherwise the unconsumed bytes gain exactly the data, compacted or not |
| Parsers.RESPParser.ReadLine | src/nomdb/protocol/parser.py:76-88 | The bytes up to the first CRLF at the position, and the position behind it, or nothing |
| Parsers.RESPParser.ParseOneObject | src/nomdb/protocol/parser.py:90-194 | One object, incompleteness or an error exactly as the recursive definition says, and the position behind a complete object |
| Parsers.RESPParser.ReadArray | src/nomdb/protocol/parser.py:161-183 | The element loop reads exactly the counted objects |
| Parsers.RESPParser.GetParsedCommands | src/nomdb/protocol/parser.py:46-74 | All complete objects at the front of the unconsumed bytes, and exactly the rest stays; terminates because every object consumes bytes |
| Parsers.ReadChunks | src/nomdb/protocol/parser.py:36-74 | The parser object fed piece by piece yields what the one-feed definition yields |
| Encoders.EncodeSequence | src/nomdb/protocol/encoder.py:92-97 | The loop builds the encoding of the array |
| Encoders.EncodeCommand | src/nomdb/protocol/encoder.py:99-115 | The loop builds the encoding of the array of bulk strings |
| Encoders.OnTheWire | src/nomdb/protocol/encoder.py:24-90 | The bytes of null, strings, integers, byte strings and errors, written out; the prefix of an error is put in front exactly when the message does not begin with it |
| Encoders.ArrayOnTheWire | src/nomdb/protocol/encoder.py:92-97 | An array is its count and the items, one after the other |
| Encoders.RoundTrip | src/nomdb/protocol/encoder.py:24-97 | Parsing inverts encoding for every nested value of nulls, integers, byte strings, CRLF-free simple strings, plain errors and arrays, whatever follows |
| Encoders.ErrorLine | src/nomdb/protocol/parser.py:108-118 | An error line is read back as the same error exactly when its prefix or message has no space that moves the border between them |
| Encoders.SendableIsExact | src/nomdb/protocol/encoder.py:24-97 | For every value, arrays with errors inside included: it is read back as itself, in front of any bytes, exactly when it is sendable |
| Encoders.Pipelining | src/nomdb/protocol/encoder.py:99-115 | Any concatenation of encoded sendable values parses as their sequence, followed by what follows |
| Encoders.ProperPrefixIsIncomplete | src/nomdb/protocol/parser.py:90-183 | Every proper prefix of an encoded sendable value is incomplete, never an error |
| Keyspaces.TrackedSees | src/nomdb/storage/keyspace.py:31-38 | Versions never fall, and an equal version means an identical stored entry |
| Keyspaces.StepDeleteAll | src/nomdb/storage/keyspace.py:86-94 | delete, for any list of keys, keeps versions below the counter and raises the version of every key it changes |
| Keyspaces.StepExpireAt | src/nomdb/storage/keyspace.py:96-106 | So does expire_at, which deletes when the time is past |
| Keyspaces.StepPersist | src/nomdb/storage/keyspace.py:108-115 | So does persist |
| Keyspaces.StepRename | src/nomdb/storage/keyspace.py:138-146 | So does rename, for both names |
| Keyspaces.StepFlush | src/nomdb/storage/keyspace.py:194-198 | So does flush, for every key |
| Keyspaces.StepSwept | src/nomdb/storage/keyspace.py:44-54 | So does lazy expiry |
| Keyspaces.RenameMoves | src/nomdb/storage/keyspace.py:138-146 | rename moves the entry exactly when the names differ: onto itself it deletes the key; no third key changes |
| Keyspaces.RenamedOrder | src/nomdb/storage/keyspace.py:138-146 | A name that is new comes last in the insertion order, one that was there keeps its place, and so do all others |
| Keyspaces.SweptKeepsLive | src/nomdb/storage/keyspace.py:44-58 | A lazy deletion takes away nothing that is alive |
| Keyspaces.Keyspace.FetchEntry | src/nomdb/storage/keyspace.py:44-58 | The live entry, or None after deleting an expired one |
| Keyspaces.Keyspace.SetEntry | src/nomdb/storage/keyspace.py:69-84 | The keyspace afterwards is the specified one, and the invariant holds |
| Keyspaces.Keyspace.DeleteKeys | src/nomdb/storage/keyspace.py:86-94 | All keys deleted in order; the count is the drop in size |
| Keyspaces.Keyspace.ExpireEntryAt | src/nomdb/storage/keyspace.py:96-106 | The specified keyspace; true exactly for a live key |
| Keyspaces.Keyspace.PersistEntry | src/nomdb/storage/keyspace.py:108-115 | The specified keyspace; true exactly for a live key with an expiry |
| Keyspaces.Keyspace.RenameKey | src/nomdb/storage/keyspace.py:138-146 | The specified keyspace; not found exactly for a key that is not alive |
| Keyspaces.Keyspace.FlushKeys | src/nomdb/storage/keyspace.py:194-198 | Empty, with every key's version raised by the loop |
| Keyspaces.Keyspace.Scan | src/nomdb/storage/keyspace.py:166-184 | The next cursor, and the live matching keys of the batch in order; expired keys of the batch are deleted |
| Keyspaces.ScanBatchReads | src/nomdb/storage/keyspace.py:166-176 | A call looks at the next count keys from the cursor on and hands back where it stopped, 0 at the end |
| Keyspaces.MatchingReads | src/nomdb/storage/keyspace.py:178-184 | It returns exactly those of them that are alive and match |
| Scans.ScanIsComplete | src/nomdb/storage/keyspace.py:166-184 | Over calls of scan on a keyspace in which entries are stored and altered in between, and no call before the last meets a due entry: the results of an iteration from a cursor back to 0 are the matching keys of the final key order from that cursor on |
| Scans.FullScan | src/nomdb/storage/keyspace.py:166-184 | From cursor 0, under the same condition: the results are exactly the matching keys of the final keyspace, each once, and no matching key that was there from the start and is alive at the last call is missing |
| Scans.FullScanExactly | src/nomdb/storage/keyspace.py:166-184 | The condition is exact: for the pattern that matches everything, every key of the final keyspace is returned if and only if no call before the last meets a due entry |
| Scans.DueHidesLiving | src/nomdb/storage/keyspace.py:166-184 | A concrete keyspace in which a due entry makes the iteration pass over a living key |
| Scans.ExpirySkips | src/nomdb/storage/keyspace.py:166-184 | A call that deletes due entries lets the next one miss as many keys, which no call has looked at; none exactly when nothing in the batch was due |
| Keyspaces.Keyspace.RandomKey | src/nomdb/storage/keyspace.py:186-192 | Terminates because each retry deletes an entry; the key returned is alive, None only when nothing is; nothing alive is lost |
| Commands.StepExecute | src/nomdb/storage/keyspace.py:31-38 | Every modelled data command keeps the version invariant: what it changes gets a new version |
| Commands.OnlyWritesChange | src/nomdb/server/dispatcher.py:103-119 | A read, or a write that fails, changes no stored entry of an expiry-free keyspace, nor anything else in it |
| Commands.ClockDoesNotMatter | src/nomdb/server/dispatcher.py:125-165 | Without expiries a command that sets none does the same at any time, and leaves no expiry behind: what replay relies on |
| Commands.ParseScoreInvertsScoreText | src/nomdb/persistence/aof.py:139-141 | A score printed for the log reads back as itself |
| Commands.ParseScoreReads | src/nomdb/commands/sorted_sets.py:49-52 | A score may be written without a fraction |
| Commands.ZAddOnMissingKey | src/nomdb/commands/sorted_sets.py:21-65 | On a missing key a ZADD that is carried out leaves an empty sorted set exactly when XX is given |
| Commands.NamesOfFive | src/nomdb/server/dispatcher.py:67-70 | Each name is looked up as its own command, as are the names of the other lengths |
| Commands.OtherNames | src/nomdb/server/dispatcher.py:67-70 | Any other name is unknown |
| CommandEffects.ArityTable | src/nomdb/server/dispatcher.py:72-74 | How many words each command takes |
| CommandEffects.LiveUntilExpiry | src/nomdb/storage/keyspace.py:44-54 | An entry is found until the clock reaches its expiry, and not from then on |
| CommandEffects.GetEffect | src/nomdb/commands/strings.py:114-122 | GET answers the stored text, null for a missing or expired key, or that it is no string; only an expired entry goes |
| CommandEffects.OptionsGoOn | src/nomdb/commands/strings.py:34-68 | The options of SET are read from left to right: what was read stays read when more follow |
| CommandEffects.OptionRead | src/nomdb/commands/strings.py:34-68 | What each option of SET does behind options in order, in any case: four flags, EX and PX with the positive number behind them; the first fault decides the error |
| CommandEffects.SetEffect | src/nomdb/commands/strings.py:70-104 | SET stores its text with expiry now + 1000 EX, now + PX, the old one under KEEPTTL, or none; NX, XX and GET decide whether, and what is answered; no other key changes, entry or version |
| CommandEffects.AppendEffect | src/nomdb/commands/strings.py:355-363 | APPEND puts its text behind the old one, keeps the expiry, and answers the length |
| CommandEffects.IncrByEffect | src/nomdb/commands/strings.py:272-284 | INCRBY stores a text that reads as the sum and answers it; what is no number, or no string, stays |
| CommandEffects.LPushEffect | src/nomdb/commands/lists.py:21-34 | LPUSH keeps the old list as the end of the new one; value i of n stands at n - i; the answer is the new length |
| CommandEffects.RPushEffect | src/nomdb/commands/lists.py:44-57 | RPUSH keeps the old list as the beginning, and the values follow in order |
| CommandEffects.LPopEffect | src/nomdb/commands/lists.py:67-93 | LPOP answers the first elements, as many as asked for and there, and keeps the rest; an emptied list is deleted |
| CommandEffects.SAddEffect | src/nomdb/commands/sets.py:21-34 | SADD adds exactly the members named and answers how many were new |
| CommandEffects.SRemEffect | src/nomdb/commands/sets.py:44-57 | SREM takes away exactly the members named and answers how many were there; an emptied set is deleted |
| CommandEffects.WithFieldsMeans | src/nomdb/storage/datatypes/hash_store.py:21-28 | The fields after HSET are the old ones and those named; of the pairs that name a field the last decides |
| CommandEffects.HSetEffect | src/nomdb/commands/hashes.py:21-38 | HSET stores the pairs and answers how many fields are new; an argument left over is an error |
| CommandEffects.HDelEffect | src/nomdb/commands/hashes.py:88-100 | HDEL takes away exactly the fields named and answers how many were there; an emptied hash is deleted |
| CommandEffects.FlagsRead | src/nomdb/commands/sorted_sets.py:21-45 | The flags of ZADD are the arguments up to the first that is none of the three, in any case; each is set exactly if it is among them |
| CommandEffects.PairsRead | src/nomdb/commands/sorted_sets.py:46-56 | ZADD goes on exactly if every other argument is a number, and pairs each with the member behind it |
| CommandEffects.ChangesAreCounted | src/nomdb/storage/datatypes/sorted_set_store.py:177-207 | The count under CH is the number of pairs that change the dictionary when they are reached |
| CommandEffects.ZAddEffect | src/nomdb/commands/sorted_sets.py:21-65 | ZADD stores the pairs as its flags say (AddedMembers and AddedScores) and answers how many members are new, or with CH how often a pair changed something |
| CommandEffects.ZRemEffect | src/nomdb/commands/sorted_sets.py:75-88 | ZREM takes away exactly the members named and answers how many were there; an emptied sorted set is deleted |
| CommandEffects.DelEffect | src/nomdb/storage/keyspace.py:86-94 | DEL takes away exactly the keys named and answers how many were stored; no other entry or version changes |
| CommandEffects.PExpireAtEffect | src/nomdb/storage/keyspace.py:96-106 | PEXPIREAT sets the expiry of a living entry, or deletes it when that time is not to come, and says whether there was one |
| CommandEffects.PersistEffect | src/nomdb/storage/keyspace.py:108-115 | PERSIST takes the expiry off a living entry that has one, and says whether it did |
| CommandEffects.RenameEffect | src/nomdb/commands/keys.py:191-199 | RENAME moves a living entry with its expiry; a missing source is an error; onto itself it deletes |
| CommandEffects.FlushDbEffect | src/nomdb/storage/keyspace.py:194-198 | FLUSHDB leaves nothing and touches the version of no key that was not stored |
| CommandAnswers.NotRun | src/nomdb/server/dispatcher.py:38-74 | No words, an unknown name or a wrong number of words: the answer says so, and nothing changes |
| CommandAnswers.DataCommandRuns | src/nomdb/server/dispatcher.py:94-119 | Outside a transaction a data command runs on the connection's database and no other, and is logged exactly if it is a write that succeeds |
| CommandAnswers.SelectMoves | src/nomdb/commands/keys.py:321-330 | SELECT n moves the connection to database n exactly if there is one |
| CommandAnswers.FlushAllEmpties | src/nomdb/commands/keys.py:309-311 | FLUSHALL empties every database |
| CommandAnswers.PlainCommandWaits | src/nomdb/server/dispatcher.py:76-81 | Inside a transaction a command that is no transaction control is answered QUEUED, joins the queue, and does nothing else |
| CommandAnswers.MultiOpens | src/nomdb/commands/transactions.py:19-23 | After an answered MULTI the next plain command is answered QUEUED, whatever others did in between |
| CommandAnswers.QueueInOrder | src/nomdb/commands/transactions.py:47-53 | EXEC runs its queue one after the other: the i-th answer is that of the i-th command in the state after those before it |
| CommandAnswers.DiscardAndUnwatch | src/nomdb/commands/transactions.py:56-97 | DISCARD forgets the queue and what is watched, UNWATCH only that; neither touches a database |
| CommandAnswers.WaitsExactlyInTransaction | src/nomdb/server/dispatcher.py:76-81 | After any run a plain command waits exactly if the connection was answered MULTI and since then neither EXEC nor DISCARD |
| Observers.ExecAnswers | src/nomdb/commands/transactions.py:33-53 | After any run: EXEC is refused exactly outside a transaction; inside it answers one result for each command that was answered QUEUED if every watched key has the version it had at its last WATCH, and aborts without change if one has not |
| CommandAnswers.DataCommandSpares | src/nomdb/storage/keyspace.py:31-38 | A data command changes neither entry nor version of a key that it does not name |
| CommandAnswers.WhatIsQuiet | src/nomdb/storage/keyspace.py:31-38 | What touches no watched key, for the next row: commands that wait or do not name it, SELECT, transaction control but EXEC, expiry and eviction of others |
| CommandAnswers.UndisturbedExec | src/nomdb/commands/transactions.py:33-53 | Over any run in which nobody touched a key while the connection watched it, its EXEC inside a transaction goes through |
| Transactions.RunAdvances | src/nomdb/server/dispatcher.py:94-119 | Every executed command keeps all keyspaces well versioned and the connection in order |
| Transactions.DispatchAdvances | src/nomdb/server/dispatcher.py:33-119 | So does every dispatched command, queued or executed, EXEC included; EXEC terminates because queued commands are never EXEC |
| Transactions.NextAdvances | src/nomdb/server/dispatcher.py:33-119 | So does every event of the server: commands of any connection, connections coming and going, expiry, eviction |
| Transactions.AfterAdvances | src/nomdb/server/dispatcher.py:33-119 | And hence every run |
| Transactions.WatchAllMembers | src/nomdb/commands/transactions.py:78-85 | What is watched after a WATCH is exactly what was watched before and the keys it names, these at their current versions, the others at their old ones |
| Observers.WatchedAfter | src/nomdb/commands/transactions.py:26-97 | After any command of a connection, EXEC with its whole queue included: what it watches is what an answered WATCH makes of it, nothing after an answered EXEC, DISCARD or UNWATCH, and otherwise unchanged |
| Observers.NextWatchOk | src/nomdb/transaction/manager.py:31-54 | After every event each connection watches exactly the keys an observer of commands and answers has noted for it, and each one whose version still matches holds the entry noted |
| Observers.QueueAfter | src/nomdb/transaction/manager.py:22-39 | What a connection has queued grows by exactly the commands answered QUEUED, and an answered MULTI, EXEC or DISCARD empties it |
| Observers.ExecSeesWhatWasWatched | src/nomdb/commands/transactions.py:33-53 | Over every interleaving from the start: an EXEC that is carried out finds, under every key named by a WATCH since the connection's last EXEC, DISCARD or UNWATCH, the entry of the key's last such WATCH, and then runs exactly the commands answered QUEUED since its MULTI, in order, one answer each |
| Observers.ExecSawNoChange | src/nomdb/commands/transactions.py:33-53 | Such an EXEC was preceded by no change of a watched key, not even one that was undone: in every state since the key's last WATCH it held the entry noted then |
| Transactions.ChangedMeansAborted | src/nomdb/commands/transactions.py:37-41 | When a watched version moved, EXEC changes no keyspace and only resets the connection's transaction |
| Dispatchers.TransactionState.Multi | src/nomdb/transaction/manager.py:22-24 | Starts an empty queue |
| Dispatchers.TransactionState.Discard | src/nomdb/transaction/manager.py:26-29 | Ends the transaction and empties the queue; what is watched stays |
| Dispatchers.TransactionState.Watch | src/nomdb/transaction/manager.py:31-32 | Records the version, overwriting an earlier one |
| Dispatchers.TransactionState.CheckWatchedKeys | src/nomdb/transaction/manager.py:41-54 | The loop answers true exactly when not dirty and every watched key has the recorded version |
| Dispatchers.CommandDispatcher.DispatchCommand | src/nomdb/server/dispatcher.py:33-119 | The objects after a dispatched command (keyspaces, log, connection) are exactly the outcome of the specification, and so is the answer |
| Dispatchers.CommandDispatcher.RunExec | src/nomdb/commands/transactions.py:33-53 | EXEC on the objects is EXEC of the specification; inside a transaction it answers one result for each queued command if every watched version stands, and aborts otherwise |
| Dispatchers.CommandDispatcher.RunQueued | src/nomdb/commands/transactions.py:47-53 | The loop over the queue is the recursive run of the queue |
| Dispatchers.CommandDispatcher.WatchKeys | src/nomdb/commands/transactions.py:82-84 | The loop records every key's current version |
| Dispatchers.CommandDispatcher.FlushEveryDatabase | src/nomdb/storage/database.py:33-36 | Every database is flushed, and nothing else changes |
| Handlers.RunCommand | src/nomdb/server/dispatcher.py:94-119 | Every data command, run step by step on the keyspace object (look-up with lazy deletion, the value's own loop, storing or marking or deletion of an emptied value), ends in the keyspace and the reply whose effects CommandEffects states, command by command; of a sorted set it is the dictionary that the loops work on |
| Handlers.RunSetCommand | src/nomdb/commands/strings.py:15-105 | SET with its options on the keyspace object has the keyspace and the reply of CommandEffects.SetEffect |
| Handlers.PushLeft | src/nomdb/storage/datatypes/list_store.py:22-26 | Pushing one value after the other puts them in front in reverse |
| Handlers.AddMembers | src/nomdb/storage/datatypes/set_store.py:22-29 | The set gains exactly the values named, and the count is its growth, whatever repeats |
| Handlers.RemoveMembers | src/nomdb/storage/datatypes/set_store.py:31-38 | The set loses exactly the values named, and the count is its loss |
| Handlers.SetFields | src/nomdb/storage/datatypes/hash_store.py:21-28 | The pairs are stored from left to right, and the count is the growth in fields |
| Handlers.DeleteFields | src/nomdb/storage/datatypes/hash_store.py:36-42 | Exactly the fields named go, and the count is how many that were |
| Handlers.AddPairs | src/nomdb/storage/datatypes/sorted_set_store.py:177-207 | On the dictionary of a sorted set, the loop of zadd leaves the scores that the flags call for, and counts the new members, or with ch the changes |
| Handlers.RemovePairs | src/nomdb/storage/datatypes/sorted_set_store.py:218-225 | So does the loop of zrem, with the count of members that went |
| AppendOnlyLog.LogBytesAppend | src/nomdb/persistence/aof.py:61-69 | The log's bytes grow by exactly the encoded command |
| AppendOnlyLog.AOFManager.AppendCommand | src/nomdb/persistence/aof.py:61-74 | File and buffer together are always the logged commands in order; with fsync "always" all of them are in the file |
| AppendOnlyLog.AOFManager.Flush | src/nomdb/persistence/aof.py:76-89 | The whole buffer moves to the end of the file |
| Recovery.PrefixOfLog | src/nomdb/persistence/recovery.py:66-81 | A log cut at any byte parses as its whole records, and the rest is inside the next one |
| Recovery.ReplayReads | src/nomdb/persistence/recovery.py:83-103 | One record: SELECT moves to the database it names, a data command runs on the database selected (opened if new), what is unknown or transaction control does nothing |
| Recovery.BrokenEndsReplay | src/nomdb/persistence/recovery.py:72-81 | A protocol error ends the replay with what was replayed before its chunk, and is no exception |
| Recovery.ReplayFrom | src/nomdb/persistence/recovery.py:70-105 | From any chunk boundary of a cut log on: reading chunk by chunk replays exactly the whole records that remain, or is refused exactly when one of them overfills the parser |
| Recovery.ReplayOfCutLog | src/nomdb/persistence/recovery.py:61-105 | Replaying a file cut at any byte, in 65536-byte chunks, is replaying exactly the records that are whole in it, if no record from its start to the end of the chunk that completes it exceeds the parser's limit; if one does, the replay is aborted |
| Recovery.ShortRecordsFit | src/nomdb/persistence/recovery.py:66-75 | Records that stay a chunk below the limit always meet that condition |
| Recovery.LongRecordRefused | src/nomdb/persistence/recovery.py:66-75 | A record longer than the limit never does |
| Recovery.RecoveryManager.ReplayAof | src/nomdb/persistence/recovery.py:61-105 | The reading loop, on the database manager and its keyspace objects, computes the replay: databases and abort flag |
| Recovery.RecoveryManager.ReplayObjects | src/nomdb/persistence/recovery.py:83-103 | So does the loop over the parsed commands, SELECT tracking included |
| Recovery.RecoveryManager.ExecuteReplayed | src/nomdb/server/dispatcher.py:125-165 | A replayed command opens its database if it has to and runs its handler on that keyspace object, or flushes every one; transaction commands find only a stand-in connection and do nothing |
| CrashConsistency.DispatchRecorded | src/nomdb/server/dispatcher.py:33-119 | Every dispatched command on database 0 keeps the log replayable to the live keyspaces, and each beginning of the log to the keyspaces of its time |
| CrashConsistency.QueueRecorded | src/nomdb/commands/transactions.py:47-53 | So does a whole queue run by EXEC, whose own record replays as nothing |
| CrashConsistency.PlainMeans | src/nomdb/server/dispatcher.py:110-114 | The commands of the runs below: all but SELECT, PEXPIREAT, and a SET whose options give a time, of which the log records neither database nor absolute time |
| CrashConsistency.CrashPrefix | src/nomdb/persistence/recovery.py:61-105 | Over every interleaved run on database 0 without expiries or eviction: the log cut at any byte replays, at any later time, to the keyspaces right after exactly those writes that are whole in the file; the uncut log to the final ones; a log with a record that overfills the parser is refused |
| LogRewrite.PushExtends | src/nomdb/persistence/aof.py:131-133 | One more RPUSH of the rewrite appends one more item: list order is kept |
| LogRewrite.HSetExtends | src/nomdb/persistence/aof.py:127-129 | One more HSET adds one more field |
| LogRewrite.SAddExtends | src/nomdb/persistence/aof.py:135-137 | One more SADD adds one more member |
| LogRewrite.ZAddExtends | src/nomdb/persistence/aof.py:139-141 | One more ZADD adds one more member with its score |
| LogRewrite.WithExpiry | src/nomdb/persistence/aof.py:143-145 | The PEXPIREAT behind an entry's commands restores its expiry, or deletes just that key when the expiry is already due at the replay |
| LogRewrite.RewriteEntry | src/nomdb/persistence/aof.py:119-145 | Replayed at any time, the commands written for one entry rebuild exactly it, type, value and expiry, or leave nothing when it is hollow or due by then |
| LogRewrite.RewriteKeyspace | src/nomdb/persistence/aof.py:119-145 | Replayed at any time, the commands written for one keyspace rebuild exactly its non-empty entries alive at the rewrite and at the replay |
| LogRewrite.Rewrite | src/nomdb/persistence/aof.py:103-148 | The file holds, per non-empty database, a SELECT and commands that rebuild there, at any time, the entries alive then and now; recovery from the file does so exactly when no record overfills the parser |
| LogRewrite.RewriteThenRecover | src/nomdb/persistence/recovery.py:61-105 | Recovering from the rewritten file at any time gives every database exactly its non-empty entries alive at both times, if and only if no record overfills the parser |
| LogRewrite.LiveMeans | src/nomdb/persistence/aof.py:119-145 | What recovery gives back: every entry not due at either time whose value is no empty container, as it was |
| InPlaceRewrites.SameExecute | src/nomdb/server/dispatcher.py:125-165 | What a data command does to the live entries depends on the live entries alone: not on versions, on insertion order, or on entries that are due |
| InPlaceRewrites.RewriteInPlace | src/nomdb/persistence/aof.py:103-150 | The new file replaces the log, and what was in the buffer stays there: the continued log is the rewritten commands, then the pending ones |
| InPlaceRewrites.ContinuedLog | src/nomdb/persistence/aof.py:61-89 | For any databases, hollow and due entries included, and any intended state: recovery from the continued log goes on from that state, whatever is logged later, exactly when what the rewritten commands rebuild, with the pending commands run once more on it, has its live entries and leaves database 0 selected |
| InPlaceRewrites.EmptyBufferContinues | src/nomdb/persistence/aof.py:103-150 | With an empty buffer recovery goes on from the rewritten databases themselves exactly when every entry alive at recovery was written (it is not hollow, and was alive at the rewrite) and only database 0 stores anything, because the file ends in the last stored database's SELECT |
| InPlaceRewrites.PendingAppendDoubles | src/nomdb/persistence/aof.py:61-89 | An APPEND still in the buffer at the rewrite does break it |
| InPlaceRewrites.RewriteWhileRunning | src/nomdb/persistence/recovery.py:61-105 | After any run on database 0 without expiries, rewritten in place with an empty buffer: recovery at any time gives the live entries of the keyspaces after whatever such run follows, exactly when no empty container was stored at the rewrite |
| Json.ReadsEscapedText | src/nomdb/persistence/snapshot.py:207-222 | Reading a string inverts escaping it, for every byte string |
| Json.LoadsInvertsDumps | src/nomdb/persistence/snapshot.py:207-250 | Loading inverts dumping for every nesting of strings, integral numbers and arrays |
| SnapshotFormat.FromBigEndianInverts | src/nomdb/persistence/snapshot.py:62-91 | Unpacking inverts packing for every number that fits the width |
| SnapshotFormat.DeserializeInverts | src/nomdb/persistence/snapshot.py:202-252 | A text of one item for each element, in any order where the value has none, reads back as the value: JSON and the step from items to the value included |
| SnapshotFormat.ReadsOne | src/nomdb/persistence/snapshot.py:152-183 | The loader takes exactly one record off the front of the data, whatever follows, and does what the record means |
| SnapshotFormat.ReadsAll | src/nomdb/persistence/snapshot.py:152-183 | The framing is unambiguous: the records come back one by one |
| SnapshotFormat.LoadsFramed | src/nomdb/persistence/snapshot.py:124-186 | A framed file with its checksum passes every check and loads as its records |
| SnapshotFormat.FileReads | src/nomdb/persistence/snapshot.py:60-98 | The file, byte by byte: magic, version, records, end mark, checksum of all that |
| SnapshotFormat.RecordReads | src/nomdb/persistence/snapshot.py:73-91 | A record: database number, or expiry if there is one, type, key and value with their lengths |
| SnapshotFormat.BigEndianAt | src/nomdb/persistence/snapshot.py:62-91 | The i-th byte of a packed number from its end counts multiples of 256^i |
| SnapshotFormat.FileRefused | src/nomdb/persistence/snapshot.py:124-146 | What is no snapshot is refused with nothing stored: by size, checksum, magic and version, in this order |
| Json.DumpsReads | src/nomdb/persistence/snapshot.py:207-222 | The text of strings, numbers and arrays, byte by byte |
| Json.EscapeReads | src/nomdb/persistence/snapshot.py:207-222 | Printable ASCII stands for itself but for quotes and backslashes; the rest is escaped |
| Snapshots.SaveableMeans | src/nomdb/persistence/snapshot.py:69-91 | A save fits exactly when database numbers, keys, values and expiries of what is alive fit their fields |
| Snapshots.SerializeValue | src/nomdb/persistence/snapshot.py:202-224 | Every value is written as such a text: one item for each element, whatever order it is walked in |
| Snapshots.WriteEntry | src/nomdb/persistence/snapshot.py:73-91 | One record more; it fails only for an expiry, key or value that does not fit its field |
| Snapshots.WriteDatabase | src/nomdb/persistence/snapshot.py:69-91 | The records describe one database more |
| Snapshots.SnapshotManager.Save | src/nomdb/persistence/snapshot.py:51-107 | The file is replaced by records that describe the databases below num_databases; on failure it stays, and something did not fit |
| Snapshots.SnapshotManager.LoadAll | src/nomdb/persistence/snapshot.py:149-183 | The opcode loop computes the loaded store |
| Snapshots.SnapshotManager.Load | src/nomdb/persistence/snapshot.py:124-186 | Databases and error afterwards are what the file's content means: size, checksum, magic, version and record errors included |
| Snapshots.LoadInvertsSave | src/nomdb/persistence/snapshot.py:51-186 | Loading what was saved into a blank store gives exactly the entries alive at both times, each in its own database with type, value and expiry, and nothing else |
| Keyspaces.AliveLater | src/nomdb/persistence/snapshot.py:178-179 | With a clock that does not run backwards, these are the entries alive at loading time |
| Keyspaces.AliveMeans | src/nomdb/storage/keyspace.py:44-54 | Alive at a time is what has no expiry or one that is still to come |
| ReplicationBacklogs.DistanceOfOffsets | src/nomdb/replication/backlog.py:35-41 | Offsets less than a round apart keep their distance on the ring |
| ReplicationBacklogs.WrittenHolds | src/nomdb/replication/backlog.py:35-45 | After a write that goes round at most once, every byte of the window is where its offset puts it |
| ReplicationBacklogs.ReadsHistory | src/nomdb/replication/backlog.py:61-73 | The wrapped-around read from an offset in the window is the history from there on |
| ReplicationBacklogs.AlignedForAll | src/nomdb/replication/backlog.py:26-33 | A piece exactly as long as the ring is safe whatever its bytes exactly when the offset is a multiple of the ring's size |
| ReplicationBacklogs.ReplicationBacklog.Feed | src/nomdb/replication/backlog.py:20-45 | The backlog stays the end of the history exactly when the piece is shorter than the ring, or as long as it and its bytes happen to lie where index 0 puts them |
| ReplicationBacklogs.OversizedPieceIsLost | src/nomdb/replication/backlog.py:26-33 | A concrete piece longer than the ring that loses the history |
| ReplicationBacklogs.MisalignedPieceIsLost | src/nomdb/replication/backlog.py:26-33 | A concrete piece of the ring's size that does so from an offset inside a round |
| ReplicationBacklogs.ReplicationBacklog.GetDataSinceOffset | src/nomdb/replication/backlog.py:47-73 | Exactly the history from the offset on inside the window, and None outside |
| PrimaryReplication.PrimaryReplicationManager.PropagateWrite | src/nomdb/replication/primary.py:76-85 | The history and every online replica get the same bytes, so no replica falls out of step, whatever the command's size |
| PrimaryReplication.PrimaryReplicationManager.Ping | src/nomdb/replication/primary.py:126-134 | Heartbeats go to the online replicas and do not disturb the step |
| PrimaryReplication.PrimaryReplicationManager.HandlePsync | src/nomdb/replication/primary.py:87-124 | While the backlog is the end of the history: CONTINUE with the history from the offset on exactly when the id is this primary's and the offset lies between the end and the oldest byte kept; otherwise FULLRESYNC at the length of the history; either way the replica is online |
| PrimaryReplication.PrimaryReplicationManager.Psync | src/nomdb/commands/replication.py:52-63 | Exactly that answer is sent, at once |
| PrimaryReplication.PrimaryReplicationManager.Serve | src/nomdb/replication/primary.py:61-138 | Over every run whose commands are shorter than the backlog: an online replica accepted by partial resync at an offset was sent, heartbeats aside, exactly the history from that offset, without gap or repeat |
| PrimaryReplication.InStepMeans | src/nomdb/replication/primary.py:76-85 | In step means: the bytes of the answer CONTINUE and of all commands sent since, joined, are the history from the offset on |
| PrimaryReplication.FramesOnTheWire | src/nomdb/replication/primary.py:103-124 | The bytes of the two answers and of a command, written out |
| Crc16.EntryIsEightDoublings | src/nomdb/cluster/crc16.py:3-36 | All 256 table entries are the remainders of their index moved up eight places |
| Crc16.RemainderIsRegister | src/nomdb/cluster/crc16.py:38-42 | Feeding bits at the top of the register is long division with sixteen zeros appended |
| Crc16.OneByte | src/nomdb/cluster/crc16.py:40-41 | One table step is eight steps of the division |
| Crc16.Crc16 | src/nomdb/cluster/crc16.py:38-42 | For every byte string the table-driven loop computes the remainder of the message times x^16 by x^16+x^12+x^5+1, starting from zero |
| Slots.TagIsExtracted | src/nomdb/cluster/slots.py:6-12 | A non-empty first tag stands for the key; an empty one leaves the key whole |
| Slots.UntaggedIsWhole | src/nomdb/cluster/slots.py:6-12 | A key without a non-empty first tag stands for itself |
| Slots.KeyToSlot | src/nomdb/cluster/slots.py:14-16 | The slot computed by the table is the remainder of the polynomial division of the tag, modulo 16384 |
| Slots.KnownSlot | src/nomdb/cluster/slots.py:6-16 | The slot of "foo", and of every key tagged with it, is 12182 |
| Slots.SameTagSameSlot | src/nomdb/cluster/slots.py:6-16 | Keys with the same non-empty first tag have the same slot, whatever surrounds it |
| Cluster.RangesAreUnique | src/nomdb/cluster/node.py:124-139 | Ranges that never touch are determined by the slots they cover: there is one maximal list |
| Cluster.GetContiguousRanges | src/nomdb/cluster/node.py:124-139 | The ranges expand to exactly the sorted slots, in order, each once; none is empty and no two touch |
| Cluster.AssignedAt | src/nomdb/cluster/node.py:40-51 | The owner after an assignment, slot by slot: the new node for the slots named, the old owner for the rest |
| Cluster.ClusterManager.AssignSlots | src/nomdb/cluster/node.py:40-51 | Owners and slot sets still agree afterwards exactly when no slot was taken from a node with the empty id, which the code takes for no owner |
| Cluster.ClusterManager.AddNode | src/nomdb/cluster/node.py:53-56 | Owners and slot sets still agree exactly when the id owns no slot |
| Cluster.Reconfigure | src/nomdb/cluster/node.py:40-56 | They agree after every sequence of such changes |
| Cluster.EmptyIdLeavesSlotBehind | src/nomdb/cluster/node.py:40-51 | A concrete cluster in which a slot taken from the empty id breaks the agreement |
| Cluster.AddedOverAnOwner | src/nomdb/cluster/node.py:53-56 | A concrete cluster in which adding an owner again breaks it |
| Cluster.ClusterManager.VerifyKeyRoute | src/nomdb/cluster/node.py:58-72 | While owners and slot sets agree: a key is served here exactly when its slot is in this node's own set or the cluster is off; a redirection names the slot and the address of the one node that holds it, and this node's own exactly when no node does |
| Cluster.ClusterManager.VerifyMultiKeyRoute | src/nomdb/cluster/node.py:74-83 | Cross-slot exactly when two keys differ in their slot; otherwise the route of the first key |
| Cluster.RouteTagged | src/nomdb/cluster/node.py:74-83 | Keys with the same non-empty first tag are never reported cross-slot |
| Cluster.ClusterManager.NodeRows | src/nomdb/cluster/node.py:96-106 | The rows of one node cover exactly its slots in ranges that never touch |
| Cluster.ClusterManager.GetClusterSlotsOutput | src/nomdb/cluster/node.py:94-107 | The rows cover exactly the slots with an owner, each in one row, under the owner's id and address, in ranges that never touch |
| Databases.DatabaseManager.GetDatabase | src/nomdb/storage/database.py:20-27 | The keyspace with the number, opened empty if it is new and below 256; None exactly for other numbers; nothing else changes |
| Databases.ExpiredIsInvisible | src/nomdb/expiration/manager.py:76-82 | Deleting expired entries changes nothing that is alive at any later time |
| Databases.SweptAllIsOnlyExpired | src/nomdb/storage/keyspace.py:178-184 | Lazy deletion along any list of keys takes away expired entries only |
| Expiration.ExpirationHeap.Push | src/nomdb/expiration/heap.py:25-27 | The item is added |
| Expiration.ExpirationHeap.PopExpired | src/nomdb/expiration/heap.py:29-36 | Due items only, in time order, each removed once, none later than what stays; something due stays only when the limit was hit |
| Expiration.ExpirationManager.PurgeCandidates | src/nomdb/expiration/manager.py:74-82 | Every candidate is clean afterwards, only expired entries went, and the count is the drop in size |
| Expiration.ExpirationManager.SampleAll | src/nomdb/expiration/manager.py:84-96 | The loop over the databases deletes the expired ones among the first keys of each |
| Expiration.ExpirationManager.PurgeExpiredBatch | src/nomdb/expiration/manager.py:66-98 | Over heap and samples together: only expired entries go, the count is the drop in total size, what came off the heap is clean, and so is every database no larger than a batch |
| Expiration.SmallAreClean | src/nomdb/expiration/manager.py:84-96 | A batch that covers a database leaves nothing expired in it |
| Expiration.LeftIsAlive | src/nomdb/expiration/manager.py:74-96 | What is left under the keys off the heap, and in a database no larger than a batch, is alive |
| Expiration.FirstKeysAreClean | src/nomdb/expiration/manager.py:84-96 | Whatever its size, the first keys of a database, as many as a batch takes, are alive or gone after the samples |
| Eviction.EvictionManager.GatherCandidates | src/nomdb/memory/eviction.py:57-79 | Candidates are stored and evictable; none is found only when nothing is left to evict, or a volatile policy's samples missed it |
| Eviction.EvictionManager.FindAndEvictCandidate | src/nomdb/memory/eviction.py:55-93 | Deletes just one candidate: the least recently used, the least often used, or the first sampled, as the policy says, the first of equal ones; under a volatile policy a key with an expiry; False exactly when there is no candidate |
| Eviction.EvictionManager.EvictUntilFits | src/nomdb/memory/eviction.py:47-53 | The loop terminates by key count; it ends within the limit or without a candidate, and evicts no more than needed: before the last key went the limit was exceeded |
| Eviction.EvictionManager.CheckAndEvict | src/nomdb/memory/eviction.py:31-53 | For any sizes and samples: success exactly when the limit is off or kept, the count is the number of keys lost, a volatile policy takes no key without expiry, noeviction takes none, and an allkeys policy gives up only on empty databases |
| Eviction.NothingLeft | src/nomdb/memory/eviction.py:78-79 | Under an allkeys policy nothing to evict means that every database is empty |

## Left out

- Sockets, tasks, threads, fsync and the renaming of files, logging, metrics, dashboard, command line, client library: input and output, not logic.
- Authentication, pub/sub mode, QUIT, the read-only replica check and the maxmemory check inside dispatch: gates in front of the modelled dispatch. Eviction itself is in Eviction, and as an arbitrary event between commands in Transactions.
- The call of `propagate_write` inside dispatch: replication is proved on its own, over arbitrary runs of writes.
- The slot check with which commands begin: routing is proved on its own, in Cluster.
- The commands beyond GET, SET, APPEND, INCRBY, LPUSH, RPUSH, LPOP, SADD, SREM, HSET, HDEL, ZADD, ZREM, DEL, PEXPIREAT, PERSIST, RENAME, FLUSHDB, FLUSHALL, SELECT and the transaction commands: the rest reads, or changes entries in the same ways.
- Values that commands edit in place are fields of the entry they belong to, so aliasing of a stored value is not modelled. Sorted sets inside a keyspace are their dictionaries, which determine the rest (`SortedSetStores.AgreeDetermines`); ZADD and ZREM run on the dictionary, and the skip list beside it is proved in SortedSetStore.
- Transactions.RunQueue: dispatch evicts before every write, so in the source also between the queued commands of an EXEC; the model evicts between events only.
- Commands.ParseScoreInvertsScoreText: from 10^16 on, integral floats print with an exponent, and beyond 2^53 they are not exact; the model's scores are unbounded integers.
- Command names: Python's `upper` also maps some letters outside ASCII onto ASCII ones; the model maps ASCII letters only.
- NaN, infinities, fractions and the printing of floats; UTF-8 decoding of simple strings, errors and names (they stay bytes); Python's limit of 4300 digits when it reads an integer; the recursion depth of nested arrays; glob matching (an arbitrary predicate).
- Streams with a protocol error: the objects parsed before the error in the same call are lost with it, so chunk independence does not extend to them.
- CrashConsistency.CrashPrefix: runs stay on database 0 and set no expiry, because the log records neither the database of a command nor an absolute time for EX and PX; SPOP is not among the commands, because its choice is not logged.
- Recovery.ReplayOfCutLog: the arrays inside a logged command are printed by Python's str during replay; the log never holds such a command, and the model prints them as nothing.
- InPlaceRewrites.RewriteWhileRunning: live entries are compared, not versions and insertion order, which a rewrite does not keep.
- Access times and counts of entries: they only rank eviction candidates, where they are parameters.
- with_scores of zrange and zrevrange: the ranges return pairs; zcount and zscore are plain look-ups.
- heapq: the heap is modelled by what comes off it, one of the earliest items; its array layout is not part of this model.
- ReplicationBacklogs.ReplicationBacklog.constructor: sizes below 1 are excluded; with size 0 every read divides by zero.
- The full resynchronisation stream and the replica's own offset arithmetic: the stream is a parameter, and what the replica makes of it is not part of this model.
- SHA-256 and sys.getsizeof: the checksum and the memory use are arbitrary functions. JSON that `json.dumps` does not produce (objects, literals, fractions, raw non-ASCII text) counts as a failed load, and so does a value of another form than its type's.
- Snapshots.SnapshotManager.Save: one clock reading for the whole save, where the source reads it for every entry.
- Expiration.ExpirationManager.PurgeExpiredBatch: the counter of expired keys grows once per round, where the source counts key by key; the sum is the same. The same holds for Eviction.EvictionManager.CheckAndEvict.
- Eviction.EvictionManager.SampleDatabase: a negative number of samples, an error in the source, is excluded by its type.
- The text outputs of CLUSTER NODES and CLUSTER INFO, and the rebuilding of the expiry heap at start: loops that print or copy.
