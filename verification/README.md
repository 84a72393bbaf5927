# A verified model of the chat system's core

The repository is a chat system: a C++ client and server, a C# login service, and Redis behind both.
This project models the four parts that carry its logic and proves, in Dafny, what they promise.

* **The Redis Cluster client** (`Server/DB/src/RedisClient.cpp`). Keys are hashed with CRC-16 to one of
  16384 slots; slots are looked up in a table that is loaded from `CLUSTER SLOTS`; pipelines are split
  into a batch for each server; hashes, `MSET`/`MGET` and a rename across servers are built on that;
  and a pool of connections is shared with a thread that refreshes it.
* **The chat message on the wire** (`Client/Message/MyMessage.pb.cc`): the Protocol Buffers form of a
  `ChatMessage`.
* **The chat client** (`Client/Socket/src/ChatClient.cpp`): length-prefixed frames on a socket and the
  parser of what a user types.
* **The session store** (`ApiServer/Repository/CacheRepositoryFromRedis.cs`): two keys for each
  session, written by a read and a transaction.

| file | what it is about |
|---|---|
| `Wrappers.dfy`, `Words.dfy`, `Crc16.dfy`, `ErrorDetection.dfy`, `PlainCrc.dfy`, `HashSlot.dfy` | bytes and bits, the checksum as polynomial division, the slot of a key |
| `SlotTable.dfy`, `Creations.dfy`, `Routing.dfy` | binary search in the slot table, which servers a load creates, loading the table, from a key to its server |
| `Reply.dfy`, `Schedule.dfy`, `Pipeline.dfy`, `StringCommands.dfy` | replies, schedules of commands over deterministic servers, pipelines, `MSET` and `MGET` |
| `HashCommands.dfy`, `Rename.dfy` | commands on hashes, the rename across servers |
| `ConnectionPool.dfy`, `PoolSafety.dfy`, `LostServers.dfy` | where each connection is, every interleaving of callers and refresher, a run that loses a server |
| `Wire.dfy`, `ChatMessage.dfy`, `Framing.dfy`, `Layout.dfy`, `CommandParser.dfy` | the message format, the message object, frames on a stream, the format byte by byte, typed commands |
| `SessionStore.dfy` | every interleaving of session creations |

Code that changes things in place is modelled by classes and loops, each proved against a function
or a predicate on values; the properties of the whole are lemmas about those. Servers, networks,
clocks and failures are parameters: a server is any deterministic step from a state and a command to
a state and a reply, and what goes wrong is chosen by the environment, for all choices.

Where a promise does not hold of the code without a condition, the condition is proved to be exact:

* A message that is all defaults has an empty body, and the reader stops for good at a frame of
  length zero; `Framing.StreamRoundTrip` and `Framing.ReadAnyStream` say exactly which lists arrive.
* Two overlapping `CreateSession` calls for one account can leave two live sessions:
  `SessionStore.CommitKeepsSingle` is the exact condition, `SessionStore.OverlapIsReachable` a run.
* A pipeline whose first flush failed is flushed again as a whole: `Schedule.RerunIsVisible` says that
  only an empty first part goes unnoticed by every kind of server. `SET` commands do not mind.
* A server whose last attempt to connect failed has its host cleared, and the next row with its address
  gets a second server: `Creations.AddressesDifferIff` says exactly when servers are distinct by address,
  `Creations.ServedRightIff` when a row gets a server of its own address, and `Creations.AddressIsDoubled`
  and `Creations.RowIsMisled` show two rows for which they do not.
* A load that gives up on a new server because none of its connections could be made never deletes it:
  `PoolSafety.ValidClientIsStocked` counts the servers lost that way, `PoolSafety.NoServerIsLostIff` is the
  exact condition, and `LostServers.LostServerIsReachable` a run.
* The rename across servers makes a key that has no time left permanent, lets an expiry drift by the
  time the copy takes (`Rename.ExpirySurvivesIff`, with `Rename.LastMillisecondIsForEver` and
  `Rename.LateCopyLivesLonger`), loses the value when the deletion of the old key
  ran but stayed unanswered and the cleanup ran too (`Rename.ValueIsLostIff`, `Rename.BothNamesAreLost`), and deletes the new key
  when the old one does not exist (`Rename.MissingKeyDeletesNewKey`, `Rename.NewKeyIsLost`).
* The two map-valued forms of `HMGET` treat a reply without values differently
  (`HashCommands.FormsAgreeIff`); no server sends one for fields that were asked for.

## Model

| member | source | states |
|---|---|---|
| `Crc16.TableIsDivision` | Server/DB/src/RedisClient.cpp:15-49 | each of the 256 table entries is the remainder, modulo x^16+x^12+x^5+1, of its index times x^16 |
| `Crc16.TableStepReduces` | Server/DB/src/RedisClient.cpp:51-58 | one table-driven update multiplies the remainder by x^8 and adds the remainder of the new byte, for negative chars too |
| `Crc16.DivideByteStep` | Server/DB/src/RedisClient.cpp:51-58 | the update carries the checksum of a string to that of the string with one byte more |
| `Crc16.CRC16` | Server/DB/src/RedisClient.cpp:51-58 | the loop computes the bit-by-bit polynomial remainder of the key's bits followed by sixteen zeros, for every byte string |
| `Words.ByteBits` | Server/DB/src/RedisClient.cpp:54-56 | the bits of a byte as numbers, the highest first, and the byte as the number they make |
| `PlainCrc.FirstStepIsEntry` | Server/DB/src/RedisClient.cpp:15-58 | from 0 the update by byte b leaves entry number b of the literal table, bit by bit, for all 256 bytes |
| `PlainCrc.WordValue` | Server/DB/src/RedisClient.cpp:51-58 | a checksum as a number, the highest bit first |
| `PlainCrc.KnownChecksum` | Server/DB/src/RedisClient.cpp:51-58 | the checksum of "1" is 0x2672 |
| `ErrorDetection.CrcIsXorLinear` | Server/DB/src/RedisClient.cpp:51-58 | on strings of one length the checksum of an exclusive or is the exclusive or of the checksums |
| `ErrorDetection.TableStepIsInjective` | Server/DB/src/RedisClient.cpp:51-58 | absorbing the same byte never merges two states |
| `ErrorDetection.BurstIsDetected` | Server/DB/src/RedisClient.cpp:51-58 | keys that differ only within sixteen consecutive bits have different checksums |
| `ErrorDetection.OneByteChangeIsDetected` | Server/DB/src/RedisClient.cpp:51-58 | keys of one length that differ in exactly one byte have different checksums |
| `ErrorDetection.ResidueIsZero` | Server/DB/src/RedisClient.cpp:51-58 | two bytes after a string bring its checksum to 0 if and only if they are the string's own checksum, high byte first |
| `HashSlot.EffectiveIsTag` | Server/DB/src/RedisClient.cpp:60-87 | what is hashed is the tag between the first brace and the first closing brace after it, if it is not empty, and the whole key otherwise |
| `HashSlot.HashKey` | Server/DB/src/RedisClient.cpp:60-87 | the two scans compute the checksum, as a number, of that part modulo 16384 |
| `HashSlot.SlotOfIsRemainder` | Server/DB/src/RedisClient.cpp:60-87 | the fourteen bits that are kept are the checksum modulo 16384 |
| `HashSlot.KnownSlot` | Server/DB/src/RedisClient.cpp:60-87 | the key "1" has slot 9842 |
| `HashSlot.EffectiveIsIdempotent` | Server/DB/src/RedisClient.cpp:60-87 | hashing the hashed part of a key gives the key's slot, and the hashed part of it is itself |
| `HashSlot.SameTagSameSlot` | Server/DB/src/RedisClient.cpp:60-87 | for p without an opening brace and a tag that is not empty and has no closing one, `p{tag}s` has the slot of the tag |
| `SlotTable.LowerBound` | Server/DB/src/RedisClient.cpp:134-144 | with the asymmetric comparison, the binary search finds the first region that does not end before the slot |
| `SlotTable.UpperBound` | Server/DB/src/RedisClient.cpp:134-144 | and the first region that starts after it |
| `SlotTable.EqualRange` | Server/DB/src/RedisClient.cpp:1960-1967 | the two bounds enclose exactly the regions that own the slot |
| `SlotTable.FindServer` | Server/DB/src/RedisClient.cpp:1960-1967 | binary search returns what a scan of the regions one after the other returns, gaps and the empty table included |
| `SlotTable.ScanIsSound` | Server/DB/src/RedisClient.cpp:1960-1967 | a server that is found is that of a region that owns the slot, and none is found only if no region owns it |
| `SlotTable.OwnerIsUnique` | Server/DB/src/RedisClient.cpp:1960-1967 | in a table of disjoint ranges two regions that own a slot are one |
| `SlotTable.SortByStart` | Server/DB/src/RedisClient.cpp:1852-1855 | sorting the loaded rows by first slot keeps the rows and orders them |
| `SlotTable.DisjointIsUnordered` | Server/DB/src/RedisClient.cpp:1852-1855 | ranges that are disjoint in one order are disjoint in any other |
| `SlotTable.SortedIsPartitioned` | Server/DB/src/RedisClient.cpp:134-144 | a sorted table of disjoint ranges is one the asymmetric comparison can search for any slot |
| `SlotTable.ScanFollowsRanges` | Server/DB/src/RedisClient.cpp:1960-1967 | scanning a table of disjoint ranges, in whatever order, finds the server of the range that owns the slot and none when no range does |
| `Routing.FetchSlot` | Server/DB/src/RedisClient.cpp:341-367 | it succeeds if and only if the reply is an array of arrays of three elements or more, and then the ranges are, row by row, the first and second integer and the host and port of the third element |
| `Routing.ListsRangesIff` | Server/DB/src/RedisClient.cpp:341-367 | the ranges a reply stands for are those its rows list, literally, and it stands for none if and only if one is no array of three |
| `Routing.ChosenRangesIff` | Server/DB/src/RedisClient.cpp:1822-1857 | what is loaded is what the first answer lists that can be used, with a connection to every server up to it, and nothing if and only if there is no such answer |
| `Routing.FindByAddress` | Server/DB/src/RedisClient.cpp:1969-1977 | the first server whose current host and port are these, or that there is none |
| `Creations.CreatedBecause` | Server/DB/src/RedisClient.cpp:1838-1848 | each server of a load was created by a row because none created before answered to the row's address |
| `Creations.ServerAtRow` | Server/DB/src/RedisClient.cpp:1838-1849 | each row gets the first server that answers to its address, or the one created by it |
| `Creations.AddressesDifferIff` | Server/DB/src/RedisClient.cpp:1838-1848 | servers are distinct by host and port if and only if no address that is listed again is that of a server whose host was cleared when it was created |
| `Creations.ServedRightIff` | Server/DB/src/RedisClient.cpp:1838-1849 | a row gets a server of another address if and only if it has no host and follows a server at its port whose host was cleared, with no row without a host at that port before that server |
| `Creations.AddressIsDoubled` | Server/DB/src/RedisClient.cpp:711-713 | one address in two rows, all servers connected, and two servers for it |
| `Creations.RowIsMisled` | Server/DB/src/RedisClient.cpp:711-713 | a row without a host that gets the server of another address |
| `Routing.FindOrCreate` | Server/DB/src/RedisClient.cpp:1838-1848 | a row gets the first server that answers to its address or a new one, whose host is cleared if its last connection failed |
| `Routing.AssignServers` | Server/DB/src/RedisClient.cpp:1836-1850 | it works out if and only if each server that has to be created has a connection, and then every row has the server that the rows and connections determine |
| `Routing.RedisClient.Install` | Server/DB/src/RedisClient.cpp:1836-1857 | the old table is replaced as a whole by the sorted rows, or kept as a whole, and exactly when; distinctness of the servers and the right server for each row under their exact conditions |
| `Routing.ChosenSkips` | Server/DB/src/RedisClient.cpp:1822-1857 | servers without a usable answer before the first usable one do not matter to what is loaded |
| `Routing.RedisClient.LoadClusterSlots` | Server/DB/src/RedisClient.cpp:1815-1860 | it succeeds if and only if there is a first usable answer and every server that has to be created for it connects; then the table holds exactly the ranges that answer lists, sorted, with servers distinct by address if and only if no address is forgotten and every row served by its address if and only if none is misled; a load that fails leaves table and servers as they were |
| `Routing.RedisClient.GetMatchedServer` | Server/DB/src/RedisClient.cpp:1943-1958 | the only server outside a cluster, the first with a connection for a command without a key, and otherwise the owner of the slot |
| `Routing.RedisClient.ServerOfKey` | Server/DB/src/RedisClient.cpp:1943-1977 | after a load of disjoint ranges in any order each key reaches the server whose address owns its slot, and null exactly if no range does |
| `Schedule.OnlyOwnCommandsMatter` | Server/DB/src/RedisClient.cpp:838-859 | a server's state and replies depend on its own part of a schedule alone |
| `Schedule.SchedulesAgree` | Server/DB/src/RedisClient.cpp:838-859 | two schedules with the same part for every server leave the same states and replies |
| `Schedule.OneByOneIsQueueOrder` | Server/DB/src/RedisClient.cpp:861-876 | issuing the commands one at a time is the schedule in queue order |
| `Schedule.BatchesAreOneByOne` | Server/DB/src/RedisClient.cpp:838-859 | batches in any order have the effect of commands issued one at a time, for every deterministic server |
| `Schedule.PartIsDistinct` | Server/DB/src/RedisClient.cpp:833-836 | a server's part of the queue keeps queue order and repeats nothing |
| `Schedule.RerunIsVisible` | Server/DB/src/RedisClient.cpp:1729-1745 | running a queue again after a part of it ran goes unnoticed by counting servers if and only if that part is empty |
| `Pipeline.GroupByServer` | Server/DB/src/RedisClient.cpp:838-850 | the queue is split into one batch for each server, each in queue order |
| `Pipeline.RedisPipeline.QueueCommand` | Server/DB/src/RedisClient.cpp:833-836 | the command joins the end of the queue |
| `Pipeline.RedisPipeline.SendBatch` | Server/DB/src/RedisClient.cpp:656-671 | a server runs a first part of its batch, all of it with all replies if nothing fails |
| `Pipeline.RedisPipeline.FlushCommand` | Server/DB/src/RedisClient.cpp:838-859 | it succeeds if and only if every server's batch is served, and then all servers and all replies are as if the commands had been issued one at a time in queue order, whatever order the batches went in; otherwise it stopped at one server, which ran a first part of its batch, and every other server ran its whole batch or nothing |
| `Pipeline.RedisPipeline.FlushPipeline` | Server/DB/src/RedisClient.cpp:1729-1745 | the queue is flushed again if and only if the first flush ended in a request error and a refreshed table came in time; any other failure is returned as it is, with nothing run twice; the retry starts from what the first flush left, and where each flush stopped is stated as for one |
| `Pipeline.TableServesIff` | Server/DB/src/RedisClient.cpp:1943-1967 | a sorted table of disjoint ranges sends every command of a pipeline to a server if and only if each of its slots lies in a range |
| `Pipeline.LoadedTableServes` | Server/DB/src/RedisClient.cpp:1815-1860 | so does the table that a load of disjoint ranges leaves |
| `Pipeline.RedisPipeline.FetchNext` | Server/DB/src/RedisClient.cpp:869-878 | replies are handed out in queue order, then the end |
| `Pipeline.RedisPipeline.FetchRest` | Server/DB/src/RedisClient.cpp:869-878 | fetching to the end yields every remaining reply once, in order |
| `StringCommands.SetsOverwrite` | Server/DB/src/RedisClient.cpp:1230-1263 | after a schedule of writes a key has what its last write says, or what it had |
| `StringCommands.RerunIsHarmless` | Server/DB/src/RedisClient.cpp:1729-1745 | whatever part of the writes ran before, running them all leaves what one clean flush leaves |
| `StringCommands.WritesTakeEffect` | Server/DB/src/RedisClient.cpp:1230-1263 | duplicate keys end with their last value, other keys are untouched |
| `StringCommands.RerunTakesEffect` | Server/DB/src/RedisClient.cpp:1230-1263 | the same when the retry goes through another table |
| `StringCommands.MsetEffect` | Server/DB/src/RedisClient.cpp:1230-1263 | the whole effect on all stores of a flush that was retried or not |
| `StringCommands.CheckStatuses` | Server/DB/src/RedisClient.cpp:1250-1260 | the code is success exactly if every reply says so |
| `StringCommands.CollectValues` | Server/DB/src/RedisClient.cpp:1210-1224 | one value for each reply, the empty one for a reply that is no string |
| `StringCommands.Mset` | Server/DB/src/RedisClient.cpp:1230-1263 | last write per key wins, other keys are left alone, and a failed first flush leaves no trace where the table did not change |
| `StringCommands.Mget` | Server/DB/src/RedisClient.cpp:1188-1228 | the values come in the order of the keys from where the table routes each, and nothing changes |
| `StringCommands.GetsLookUp` | Server/DB/src/RedisClient.cpp:1188-1228 | a queue of reads replies to each with the value its key has where the table routes it |
| `HashCommands.RedisCommand.AppendValue` | Server/DB/src/RedisClient.cpp:559-573 | an argument takes the next slot with its length; one too many is dropped |
| `HashCommands.RedisCommand.InitMemory` | Server/DB/src/RedisClient.cpp:549-557 | fresh slots, the first of them the command's name |
| `HashCommands.PairsAt` | Server/DB/src/RedisClient.cpp:505-509 | in the arguments each field is followed by its value |
| `HashCommands.RedisCommand.SetArgsMap` | Server/DB/src/RedisClient.cpp:501-510 | a key and a map of n pairs fill exactly 2n+2 slots, in order, with the lengths aligned |
| `HashCommands.RedisCommand.SetArgsList` | Server/DB/src/RedisClient.cpp:451-465 | a key and n fields fill exactly n+2 slots, in order |
| `HashCommands.FetchMap` | Server/DB/src/RedisClient.cpp:291-320 | it succeeds exactly on an array of even length all of whose elements are strings, statuses or nil, and collects the pairs before the first that is not two of these |
| `HashCommands.FirstWins` | Server/DB/src/RedisClient.cpp:304-316 | of pairs with equal fields the first one stays |
| `HashCommands.PairsRebuildMap` | Server/DB/src/RedisClient.cpp:291-320 | the pairs of a map, in any order, are collected into the same map |
| `HashCommands.FetchStringArray` | Server/DB/src/RedisClient.cpp:261-289 | the strings of an array, with partial success if an element is none; nil is no strings |
| `HashCommands.StringsOfParts` | Server/DB/src/RedisClient.cpp:261-289 | the strings of an array are those of its parts, in order |
| `Reply.FetchStringReads` | Server/DB/src/RedisClient.cpp:219-235 | strings and statuses as they are, nil as the empty string, an error for anything else |
| `Reply.FetchIntegerReads` | Server/DB/src/RedisClient.cpp:205-217 | integers as they are, a code of its own for nil, an error for anything else |
| `Reply.StatusCodeReads` | Server/DB/src/RedisClient.cpp:162-177 | any status but OK is an error |
| `HashCommands.SetMap` | Server/DB/src/RedisClient.cpp:1550-1553 | the arguments that were laid out make the server lay the map over the stored hash |
| `HashCommands.ZippedIsRestricted` | Server/DB/src/RedisClient.cpp:1503-1513 | pairing fields with answers gives the stored hash restricted to them, empty values left out, repetitions included |
| `HashCommands.ZippedFirst` | Server/DB/src/RedisClient.cpp:1503-1513 | of equal fields the first with a value not empty stays, whatever the reply |
| `HashCommands.GetFields` | Server/DB/src/RedisClient.cpp:1492-1543 | both forms take a server's answer to the same result |
| `HashCommands.FormsAgreeIff` | Server/DB/src/RedisClient.cpp:1492-1543 | on one reply the two forms differ if and only if there are fields but the reply is nil or an empty array |
| `HashCommands.ResultsRead` | Server/DB/src/RedisClient.cpp:1492-1543 | every case of the two results, with its return code |
| `HashCommands.ListAndSetAgree` | Server/DB/src/RedisClient.cpp:1492-1543 | a list of fields with repetitions and the set of them bring the same |
| `HashCommands.TakeListed` | Server/DB/src/RedisClient.cpp:1496-1517 | values are paired with the fields they were asked for, a wrong number of them is an error that leaves the caller's map, and no values at all are an empty map |
| `HashCommands.TakeSet` | Server/DB/src/RedisClient.cpp:1524-1542 | the same for a set of fields, for which no values at all are a wrong number too |
| `HashCommands.HashClient.Hmset` | Server/DB/src/RedisClient.cpp:1550-1553 | from a map to the server's store: exactly those fields of that key change; an empty map or a key of another type is an error that changes nothing |
| `HashCommands.HashClient.Hgetall` | Server/DB/src/RedisClient.cpp:1459-1462 | the stored hash comes back, in whatever order the server lists it |
| `HashCommands.HashClient.HmgetListed` | Server/DB/src/RedisClient.cpp:1492-1518 | exactly the stored hash restricted to the requested fields with values not empty |
| `HashCommands.HashClient.HmgetSet` | Server/DB/src/RedisClient.cpp:1520-1543 | the same for a set of fields |
| `Rename.CopySucceeds` | Server/DB/src/RedisClient.cpp:1041-1048 | exactly when dump, time to live, deletion and restore make a copy under the new name, and which entry that is |
| `Rename.CopyTouchesNewKeyOnly` | Server/DB/src/RedisClient.cpp:1041-1048 | whatever happens to these calls, no other key changes |
| `Rename.SuccessIsAtomicRename` | Server/DB/src/RedisClient.cpp:1033-1056 | success is reported exactly if all calls are answered and the key is alive, and then the store is that of the atomic rename with the copy's expiry |
| `Rename.ExpirySurvivesIff` | Server/DB/src/RedisClient.cpp:1042-1047 | the store is exactly that of the atomic rename if and only if there is no expiry, or time is left and none passes until the copy is made |
| `Rename.FailureIsContained` | Server/DB/src/RedisClient.cpp:1033-1056 | the whole store after a failure: other keys untouched, the old key there unless its deletion ran, the new key gone if the cleanup ran |
| `Rename.CopyOutcome` | Server/DB/src/RedisClient.cpp:1041-1048 | the store and the code after the calls up to the first that fails |
| `Rename.FailureIsExact` | Server/DB/src/RedisClient.cpp:1033-1056 | the whole store after a failure, call by call, and the return code, which is that of the first call that failed |
| `Rename.OldKeySurvivesIff` | Server/DB/src/RedisClient.cpp:1033-1056 | after a failure the old key has its value and expiry if and only if its deletion did not run; if failed calls have no effect it always has |
| `Rename.ValueIsLostIff` | Server/DB/src/RedisClient.cpp:1049-1054 | both names are gone if and only if the deletion ran without an answer and the cleanup ran |
| `Rename.MissingKeyDeletesNewKey` | Server/DB/src/RedisClient.cpp:1053-1054 | renaming a key that is missing or expired when it is dumped is an error that leaves the store unchanged if and only if the new key did not exist or the cleanup did not run |
| `Rename.LastMillisecondIsForEver` | Server/DB/src/RedisClient.cpp:1045-1047 | a key with no time left is renamed to one without an expiry |
| `Rename.LateCopyLivesLonger` | Server/DB/src/RedisClient.cpp:1042-1047 | a restore ten milliseconds late prolongs the life by ten |
| `Rename.BothNamesAreLost` | Server/DB/src/RedisClient.cpp:1048-1053 | a run of the calls that leaves nothing under either name |
| `Rename.NewKeyIsLost` | Server/DB/src/RedisClient.cpp:1053-1054 | a missing key renamed to one that exists, which is gone afterwards |
| `Rename.SameServerRename` | Server/DB/src/RedisClient.cpp:1035-1036 | on one server success is the atomic rename, and a rename whose answer was lost is reported as an error although it was done |
| `Rename.RedisClient.InSameNode` | Server/DB/src/RedisClient.cpp:1979-1982 | two keys are together outside a cluster, or if the table gives their slots one server, or none |
| `Rename.SharedTagIsSameNode` | Server/DB/src/RedisClient.cpp:1979-1982 | keys that share a hash tag are always together |
| `Rename.RedisClient.Rename` | Server/DB/src/RedisClient.cpp:1033-1056 | the calls in their order, with their early exits, make the state and return code the lemmas are about, by one command exactly if the keys are together |
| `ConnectionPool.TakeKeeps` | Server/DB/src/RedisClient.cpp:744-755 | fetching a connection keeps every connection accounted for |
| `ConnectionPool.GiveKeeps` | Server/DB/src/RedisClient.cpp:757-762 | so does returning one |
| `ConnectionPool.FreeKeeps` | Server/DB/src/RedisClient.cpp:728-737 | so does deleting the connection at the front of a queue |
| `ConnectionPool.CreateKeeps` | Server/DB/src/RedisClient.cpp:768-773 | so does making one |
| `ConnectionPool.RemoveServerKeeps` | Server/DB/src/RedisClient.cpp:1879-1885 | so does deleting a server none of whose connections is held |
| `ConnectionPool.IdleAndHeldAreMade` | Server/DB/src/RedisClient.cpp:744-805 | idle and held connections of a server are together as many as its last initialisation made |
| `ConnectionPool.HeldByOne` | Server/DB/src/RedisClient.cpp:744-805 | a held connection exists, is in no queue and in no other hand |
| `ConnectionPool.RequestRotates` | Server/DB/src/RedisClient.cpp:788-805 | fetching and returning moves the front connection to the back and changes nothing else |
| `ConnectionPool.RedisServer.FetchConnection` | Server/DB/src/RedisClient.cpp:744-755 | the front of the queue, or none if it is empty |
| `ConnectionPool.RedisServer.ReturnConnection` | Server/DB/src/RedisClient.cpp:757-762 | the connection joins the end of the queue |
| `ConnectionPool.RedisServer.CleanConn` | Server/DB/src/RedisClient.cpp:728-737 | every idle connection is deleted once |
| `ConnectionPool.RedisServer.Initialize` | Server/DB/src/RedisClient.cpp:764-786 | the queue is cleaned and holds exactly the connections that could be made, turned by one after the timeout was asked for; it succeeds if there is one |
| `ConnectionPool.MadeAreSuccesses` | Server/DB/src/RedisClient.cpp:768-773 | as many connections are kept as attempts succeeded, numbered in turn |
| `ConnectionPool.RedisServer.ServRequest` | Server/DB/src/RedisClient.cpp:788-805 | no resource exactly if the queue stays empty; otherwise the answer, with the queue rotated |
| `PoolSafety.CallKeeps` | Server/DB/src/RedisClient.cpp:1916-1924 | each step of a caller keeps locks, hands, servers and connections in order |
| `PoolSafety.RefreshKeeps` | Server/DB/src/RedisClient.cpp:939-955 | so does each step of the refreshing thread, between its locks and inside them |
| `PoolSafety.StepKeepsInvariant` | Server/DB/src/RedisClient.cpp:939-955 | each step of any thread keeps the invariant |
| `PoolSafety.RunKeepsInvariant` | Server/DB/src/RedisClient.cpp:939-955 | so does every run |
| `PoolSafety.HeldConnectionsAreSafe` | Server/DB/src/RedisClient.cpp:788-805 | in every run of any number of callers and the refresher a connection in use is not deleted, belongs to a server that exists, is in no queue and in no other hand |
| `PoolSafety.ConnectionsAreConserved` | Server/DB/src/RedisClient.cpp:764-786 | in every run idle and held connections of each server are together as many as its last initialisation made, and never more than the client was told to make |
| `PoolSafety.ServersInUseAreKept` | Server/DB/src/RedisClient.cpp:1916-1924 | in every run the server a caller uses is one of the client's and not deleted, and the refresher is out of its critical section |
| `PoolSafety.NoConnectionIsForgotten` | Server/DB/src/RedisClient.cpp:728-773 | in every run each connection ever made has been deleted or belongs to the last initialisation of a server that exists, and never both |
| `PoolSafety.RequestsNeedValidity` | Server/DB/src/RedisClient.cpp:1916-1924 | in every run a caller that looks for a connection or makes a request does so on a client that is valid all the while |
| `PoolSafety.GivesUpAfterThree` | Server/DB/src/RedisClient.cpp:788-800 | a caller whose server's queue stays empty looks three times and leaves everything as it was |
| `PoolSafety.ReinitializedIsValidIff` | Server/DB/src/RedisClient.cpp:948-952 | outside a cluster the client is valid after a refresh if and only if its server got a connection |
| `PoolSafety.ValidClientIsStocked` | Server/DB/src/RedisClient.cpp:939-955 | whenever the refresher is out of it, a valid client has a connection for each of its servers; the other servers that exist have none and are as many as new servers were refused |
| `PoolSafety.NoServerIsLostIff` | Server/DB/src/RedisClient.cpp:1840-1848 | the client knows all servers that exist if and only if no load of the run refused a new server |
| `PoolSafety.ServersKeptByJudge` | Server/DB/src/RedisClient.cpp:1841-1846 | a new server without a connection is neither kept nor deleted |
| `LostServers.BadLoadLoses` | Server/DB/src/RedisClient.cpp:1841-1846 | a load whose new server gets no connection leaves the client its old server and adds a lost one |
| `LostServers.GoodLoadReplaces` | Server/DB/src/RedisClient.cpp:1840-1857 | a load whose new server connects leaves the client that server and loses none |
| `LostServers.LostServerIsReachable` | Server/DB/src/RedisClient.cpp:939-955 | a run of three loads after which the client is valid and a server it does not know exists |
| `Wire.ReadBackVarint` | Client/Message/MyMessage.pb.cc:208-210 | a varint is read back, and no byte after it |
| `Wire.EnumSurvives` | Client/Message/MyMessage.pb.cc:208-211 | any int32, negative ones included, survives sign extension to ten bytes and the cast back |
| `Wire.ReadBackStringField` | Client/Message/MyMessage.pb.cc:214-237 | a string field that was written sets that field and takes exactly its bytes |
| `Wire.FieldIsLocal` | Client/Message/MyMessage.pb.cc:198-250 | reading a field does not look beyond its bytes, unknown fields and groups included |
| `Wire.ParseIsAnAction` | Client/Message/MyMessage.pb.cc:198-257 | parsing two strings of bytes one after the other is parsing their concatenation, for all bytes that a parser accepts |
| `Wire.ParseSerialized` | Client/Message/MyMessage.pb.cc:198-296 | parsing what was serialised merges it into the message there is |
| `Wire.RoundTrip` | Client/Message/MyMessage.pb.cc:198-296 | parsing undoes serialising |
| `Wire.ConcatenationIsMerge` | Client/Message/MyMessage.pb.cc:357-376 | two serialised messages laid end to end parse as their merge |
| `Layout.StringFieldNumbers` | Client/Message/MyMessage.pb.cc:214-237 | sender, receiver and content are the fields 2, 3 and 4, and what is read replaces what was there |
| `Layout.TypeFieldNumber` | Client/Message/MyMessage.pb.cc:207-213 | the type is field 1, the low 32 bits of a varint as a signed number |
| `Layout.SerializedLayout` | Client/Message/MyMessage.pb.cc:259-296 | the bytes of every message, field by field, in the order of the fields |
| `Layout.WhisperBytes` | Client/Message/MyMessage.pb.cc:259-296 | the eleven bytes of one message |
| `Layout.ForeignFieldsAreSkipped` | Client/Message/MyMessage.pb.cc:238-248 | unknown fields of eight and four bytes and strings leave no trace in what is parsed |
| `Layout.ForeignVarintIsSkipped` | Client/Message/MyMessage.pb.cc:238-248 | nor do unknown varints |
| `Layout.GroupsNestToAHundred` | Client/Message/MyMessage.pb.cc:244-247 | unknown groups are skipped if and only if they nest no deeper than a hundred |
| `Layout.OverlongIsRefused` | Client/Message/MyMessage.pb.cc:202-211 | tags and lengths of more than five bytes and types of more than ten are refused |
| `Layout.MisfitsAreRefused` | Client/Message/MyMessage.pb.cc:240-247 | so are the zero tag, an end of a group that did not begin and a string that breaks off |
| `Layout.NoSuchFields` | Client/Message/MyMessage.pb.cc:238-248 | and field number 0 and kinds of fields that do not exist |
| `ChatMessages.ConcatenationIsMergeAll` | Client/Message/MyMessage.pb.cc:357-376 | so do any number of them, the last one winning field by field |
| `ChatMessages.SizeIsLength` | Client/Message/MyMessage.pb.cc:305-324 | the size computed for a length is the number of bytes of its varint |
| `ChatMessages.EnumSizeIsLength` | Client/Message/MyMessage.pb.cc:326-330 | the same for the type, ten bytes for every negative one |
| `ChatMessages.ReadableIffFits` | Client/Message/MyMessage.pb.cc:198-257 | a serialised message is read back if and only if its strings are within a parser's limit, and refused otherwise |
| `ChatMessages.ChatMessage.Clear` | Client/Message/MyMessage.pb.cc:185-196 | all fields at their defaults |
| `ChatMessages.ChatMessage.MergeFrom` | Client/Message/MyMessage.pb.cc:357-376 | fields that are not at their defaults replace, others stay |
| `ChatMessages.ChatMessage.CopyFrom` | Client/Message/MyMessage.pb.cc:385-390 | the message becomes the other one, itself included |
| `ChatMessages.ChatMessage.ByteSizeLong` | Client/Message/MyMessage.pb.cc:298-340 | the size is the length of what serialising writes, for every message whose strings are below 4 GiB |
| `ChatMessages.ChatMessage.InternalSerialize` | Client/Message/MyMessage.pb.cc:259-296 | the buffer holds the serialised message after what was there, and ends where it says |
| `ChatMessages.ChatMessage.InternalParse` | Client/Message/MyMessage.pb.cc:198-257 | the loop over fields ends in the parsed message, or fails exactly on malformed bytes |
| `ChatMessages.ChatMessage.ParseFromArray` | Client/Socket/src/ChatClient.cpp:386-388 | the same from a cleared message |
| `Framing.ReadingResumes` | Client/Socket/src/ChatClient.cpp:351-404 | what is delivered does not depend on how much has arrived: for any bytes, a stopped reader stays stopped and one that ran out goes on from the frame it was in |
| `Framing.ReadBackSize` | Client/Socket/src/ChatClient.cpp:332-335 | the big-endian header is read back as the size |
| `Framing.BigEndianAt` | Client/Socket/src/ChatClient.cpp:332-335 | byte number 3-i of the header is the size shifted right by i bytes, modulo 256 |
| `Layout.FrameBytes` | Client/Socket/src/ChatClient.cpp:323-342 | the four bytes before a message are its size, the highest byte first |
| `Framing.ReadFrame` | Client/Socket/src/ChatClient.cpp:351-404 | one frame is delivered, stops the reader for good, or is refused, according to its message |
| `Framing.ReadAnyStream` | Client/Socket/src/ChatClient.cpp:351-404 | of any list of messages exactly those before the first that is all defaults or too long are delivered, and why the reader stops there |
| `Framing.StreamRoundTrip` | Client/Socket/src/ChatClient.cpp:323-404 | a list arrives whole and in order if and only if no message in it is all defaults or too long |
| `Framing.StopsAtEmptyFrame` | Client/Socket/src/ChatClient.cpp:365-368 | after a frame of length zero nothing is delivered whatever follows |
| `Framing.CutStream` | Client/Socket/src/ChatClient.cpp:351-404 | a stream cut anywhere delivers a prefix, loses no whole frame, and leaves the beginning of the next |
| `Framing.WriteHeader` | Client/Socket/src/ChatClient.cpp:332-335 | the header loop writes the big-endian size and leaves the body |
| `Framing.ChatClient.AsyncWrite` | Client/Socket/src/ChatClient.cpp:323-342 | exactly one frame of the message goes out |
| `Framing.ChatClient.ReadHeader` | Client/Socket/src/ChatClient.cpp:351-376 | reading from a header on delivers what the stream holds and stops for its reason |
| `Framing.ChatClient.ReadBody` | Client/Socket/src/ChatClient.cpp:378-404 | the same from the body on |
| `CommandParser.CommandIsGrammar` | Client/Socket/src/ChatClient.cpp:62-267 | the parser accepts exactly the grammar of whispers, party texts, party options, friend commands and plain text, with exactly its messages |
| `CommandParser.TypedPartyOptions` | Client/Socket/src/ChatClient.cpp:176-234 | the four party options, as they are typed, and the number of the type each sends |
| `CommandParser.TypedCommands` | Client/Socket/src/ChatClient.cpp:62-131 | whispers, party texts, friend commands and plain text, as they are typed, and the number of the type each sends |
| `CommandParser.PrintParsesIffExpressible` | Client/Socket/src/ChatClient.cpp:62-267 | printing a message and parsing it gives it back if and only if it is one that some input stands for |
| `CommandParser.CommandIsExpressible` | Client/Socket/src/ChatClient.cpp:62-267 | every message the parser makes is one of those |
| `CommandParser.NormalForm` | Client/Socket/src/ChatClient.cpp:62-267 | parse, print and parse again is parse, for every input, and printing never lengthens it |
| `CommandParser.FindSplits` | Client/Socket/src/ChatClient.cpp:114-115 | searching for a byte after a prefix finds the end of the first word without it |
| `CommandParser.CreateWhisperMessage` | Client/Socket/src/ChatClient.cpp:112-131 | receiver and text are set, or nothing is; no position is out of range, also when a search wraps around |
| `CommandParser.CreatePartyMessage` | Client/Socket/src/ChatClient.cpp:197-225 | type and content are set as the option says, or nothing is |
| `CommandParser.CreateFriendMessage` | Client/Socket/src/ChatClient.cpp:243-267 | the rest of the line becomes the content under the type of the command |
| `CommandParser.CreateNormalMessage` | Client/Socket/src/ChatClient.cpp:236-241 | the whole line becomes the content |
| `CommandParser.CreateMessage` | Client/Socket/src/ChatClient.cpp:62-103 | the strategy that is chosen yields the message the line stands for |
| `CommandParser.Send` | Client/Socket/src/ChatClient.cpp:39-48 | one frame goes out for a well-formed line and nothing for another |
| `CommandParser.CommandIsDeliverable` | Client/Socket/src/ChatClient.cpp:39-48 | no typed message is all defaults or, below the size limit, too long |
| `CommandParser.TypedMessagesArrive` | Client/Socket/src/ChatClient.cpp:39-48 | end to end: the messages of whatever lines are typed arrive whole and in order |
| `SessionStore.StepKeepsInvariant` | ApiServer/Repository/CacheRepositoryFromRedis.cs:31-80 | every step of any call, of time and of failure keeps the two keys linked |
| `SessionStore.RunKeepsInvariant` | ApiServer/Repository/CacheRepositoryFromRedis.cs:31-80 | so does every interleaving |
| `SessionStore.LiveKeysAreLinked` | ApiServer/Repository/CacheRepositoryFromRedis.cs:31-80 | a live account key names a live session key that names the account and expires with it |
| `SessionStore.CommitKeepsSingle` | ApiServer/Repository/CacheRepositoryFromRedis.cs:44-56 | a transaction keeps an account down to one live session if and only if what the call saw is current |
| `SessionStore.ReadSees` | ApiServer/Repository/CacheRepositoryFromRedis.cs:39-40 | a call sees the session its account's key names, if that key lives |
| `SessionStore.FirstLoginRefusedIff` | ApiServer/Repository/CacheRepositoryFromRedis.cs:57-73 | a call that saw no session is refused, and changes nothing, if and only if one of its two keys lives; otherwise it writes both for three minutes |
| `SessionStore.LaterLoginReplaces` | ApiServer/Repository/CacheRepositoryFromRedis.cs:41-56 | a call that saw a session is never refused: that session goes and both keys are written for three minutes |
| `SessionStore.SecondFirstLoginIsRefused` | ApiServer/Repository/CacheRepositoryFromRedis.cs:57-73 | of two overlapping calls for one account that saw none the second changes nothing and is no success while the account's key lives, whatever happens in between |
| `SessionStore.FirstLoginStays` | ApiServer/Repository/CacheRepositoryFromRedis.cs:57-73 | a run of two overlapping first logins after which the first one's session is the only one |
| `SessionStore.SecondSessionNeedsSeen` | ApiServer/Repository/CacheRepositoryFromRedis.cs:41-56 | a step leaves an account with a second live session if and only if it is the transaction of a call that saw a session while another one lives |
| `SessionStore.RunDoubles` | ApiServer/Repository/CacheRepositoryFromRedis.cs:41-56 | so a run that leaves two contains such a step |
| `SessionStore.AtMostOneSession` | ApiServer/Repository/CacheRepositoryFromRedis.cs:31-80 | if calls for an account do not overlap it has at most one live session |
| `SessionStore.OverlapLeavesTwo` | ApiServer/Repository/CacheRepositoryFromRedis.cs:40-56 | two calls that saw the same session leave two |
| `SessionStore.OverlapIsReachable` | ApiServer/Repository/CacheRepositoryFromRedis.cs:31-80 | and such a pair of calls is reached by a run |
| `SessionStore.NoSuccessChangesNothing` | ApiServer/Repository/CacheRepositoryFromRedis.cs:54-79 | a call that does not report success has changed the store if and only if its transaction ran and the answer was lost; one that does leaves the account its session |
| `SessionStore.CacheRepository.ExecuteTransaction` | ApiServer/Repository/CacheRepositoryFromRedis.cs:44-72 | the queued operations have the effect of the transaction as one step, key by key, or none; and exactly when |
| `SessionStore.CacheRepository.CreateSession` | ApiServer/Repository/CacheRepositoryFromRedis.cs:31-80 | a call nothing interleaves with succeeds if its session id is new, and leaves the account that one session |

## Left out

- Sockets, Asio callbacks, hiredis, TLS and timeouts: a call is answered, refused or lost, as the environment chooses.
- Retries inside a connection (`ConnRequest`, `Reconnect`): a call may run any number of times before it is answered in `Rename`; a batch may stop anywhere in `Pipeline`. Commands left in a connection's append buffer when appending fails are not modelled.
- MOVED replies: the client takes any reply for a success of the request, so its MOVED branch is not taken on one; a wrong table is not recovered from, and nothing is claimed about it.
- Pipelines and `Keys` take no lock: pool safety covers blocking requests only.
- PoolSafety.HeldConnectionsAreSafe: the mutex inside a server's queue is one step of the model, and a connection that could not be opened, which the program neither keeps nor frees, is not counted.
- PoolSafety.ValidClientIsStocked: a client whose very first load fails has no refresher in the program, while the model lets one go on; the destructor and the exit flag of the client are not modelled; a refresher that lost its load tries again at some later step instead of after a second.
- Crc16.CRC16: the length of a key is not truncated to a 32-bit int; keys are shorter than that.
- Routing.FetchSlot: rows are taken to have the shape the program reads without checking (integers, then an array of host and port).
- Routing.RedisClient.ServerOfKey: for a load none of whose rows is misled, which is what `Routing.RedisClient.LoadClusterSlots` gives the exact condition of.
- Slaves: `SetSlave` addresses are only tried for connecting.
- StringCommands.Mset: needs a flush that succeeds in the end, and as many values as keys or more; the program ignores the flush's result and reads replies that are not there otherwise. The same holds for `Mget`. Their forms outside a cluster send one command and are left out.
- Pipelined forms of single commands, and the one-line command wrappers.
- Renamenx, which repeats the calls of `Rename` with an existence check.
- Rename.RedisClient.Rename: other clients do not touch the two keys during the calls; the slot table is one that can be searched for both.
- HashCommands.RedisCommand.SetArgsMap: arguments are kept by value; whether they share memory with the caller's strings is not captured. A map is gone through in any order, of which that of `std::map` is one.
- The vector forms of `SetArgs`, apart from the one a list of fields uses.
- Unknown fields: they are skipped as the runtime skips them, but not kept, so a message that had some is written without them. Arenas, reflection and swapping are left out.
- ChatMessages.ChatMessage.InternalParse: what a message holds after a parse that failed is not stated.
- The protobuf runtime (varints, tags, skipping of groups up to a depth of 100, the limit on strings) is modelled from the Protocol Buffers Encoding specification and the runtime's documented limits; its sources are not part of this model.
- Framing.ChatClient.AsyncWrite: one write at a time; two writes that overlap share one buffer in the program. A frame must be smaller than 2 GiB, as its size is an int.
- Framing.ChatClient.ReadBody: a header that announces 2 GiB or more is read like any other; the program passes such a size on as an int.
- Null result pointers, with which the program discards what it fetched.
- What the client does with a message it was handed, its answer to a ping included.
- CommandParser: strings are bytes, shorter than the largest position.
- KeepAliveSessionFromAccountId and DeleteSessionFromAccountId, which wait for operations before the transaction that would send them; the interface offers `CreateSession` only.
- SessionStore.LiveKeysAreLinked: session ids are fresh, and the store's clock counts seconds.
- Users, parties, the HTTP service, logging, configuration and the database behind it.
