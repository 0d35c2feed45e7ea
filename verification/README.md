# Verified models of the pitaya server cores

Dafny 4.11 models of the stateful cores of the pitaya game-server framework, with proofs. Code that
the framework runs step by step on mutable objects is written here as classes and methods; each
method is proved equal to a transition on values, and the properties are proved about whole runs of
those transitions. `dafny verify dfyconfig.toml` checks everything.

| part | files | what is proved |
|---|---|---|
| write-back cache | `KeyOrder`, `CacheStore`, `CacheRuns`, `CacheTimes`, `CacheMgr` | the cache over its database is one plain table: no assignment is lost, nothing is freed under a callback; when objects are written back and dropped, and that a released one is saved and leaves; when `Shutdown` leaves the database equal to memory, whatever the database thread does meanwhile |
| byte queue and framing | `Bytes`, `SocketBuffer`, `Framing`, `NetClient` | the growing buffer is a byte queue; packets do not depend on how the stream is cut into reads |
| gift codes | `Bits`, `GiftCode`, `GiftDigits`, `GiftCodeCalc` | eight check digits always; the decoder undoes the generator; injectivity; the sum, the mask and the shift read off a code; what the decoder accepts |
| MD5 | `Md5Spec`, `Md5Bytes`, `Md5`, `Md5Repeat` | any sequence of updates hashes the concatenation as RFC 1321 defines it; when an update returns; when a digest may be repeated |
| GM commands | `GmStore`, `GmRuns`, `GmTargets`, `GmTimes`, `GmEngine` | when a command starts and ends, never before its time and never overdue; each command is triggered at most once, a role gets it exactly once, also across restarts; none cancels itself |
| server merge | `ServerMerge` | chains end exactly on acyclic logs, the fast resolver is the slow one, the in-place pass is a simultaneous copy |
| read/write lock | `RwLock` | a writer is alone, no wakeup is lost, wakeups prefer writers, writers may starve |
| ID allocator | `IdPool`, `IdRange`, `IdCtrl` | no ID is lost, doubled or given out while in use; first in, first out; when IDs stay below the end, and when pets and items stay apart |
| LRU object cache | `LruStore`, `ObjAdmin` | the cache is a plain map for its clients; the victim is the least recently served key; how long an entry lives |
| serialisation | `AnyType`, `ByteBuffer`, `StructCodec`, `DynamicStruct` | round trips of values and structs; replication by deltas over any number of rounds |
| CSV | `CsvText`, `CsvCells`, `CsvReader` | where the cells of any text lie and what they hold; reading again after each line is one pass; printing and reading is the identity exactly when stated |
| shared | `Wrappers`, `Seqs` | options and concatenation |

## Where the code does less than one may expect

Each of these is a lemma with an exact condition or a concrete input.

- `Shutdown` writes dirty objects directly while the database thread goes on with its queue, so a batch
  that was queued earlier can overwrite what `Shutdown` wrote. Every schedule of the two ends with the
  database equal to memory exactly when no dirty object has an outdated batch in the queue
  (`ShutdownExact`). `ShutdownLoses` gives a run of attach, update, assignment and release after which
  a schedule loses the assignment.
- `FilterGiftCodeFormat` accepts the generator's own codes exactly for ids below 100, because it puts
  "HD" before every other prefix (`FilterAcceptsOwnCode`).
- A code whose index needs four digits has two dashes in a row behind its head (`CodeShape`).
- `MD5::digest` restores the registers and the counter but not the block buffer: for every compression
  function the second digest is the first one again exactly when the length modulo 64 is below 56 or
  the waiting bytes happen to equal what overwrote them (`RepeatExact`, `RepeatFails`).
- An update of MD5 returns exactly when the bytes waiting in the buffer and the new ones are together
  fewer than 2^32; otherwise the block index wraps for ever (`UpdateReturnsExact`).
- `CClient::OnRead` has no test for lengths below the header size; it agrees with `CNetClient::OnRead`
  exactly on the streams without such a frame (`DecodersAgree`, `ShortLength`).
- The pass sets the status of a cancel command after its Trigger, whatever that did to it. Nothing is
  overwritten that way, because no cancel command whose Trigger is called targets itself, unless it was
  pending at a restart, which leaves its target to chance (`NeverTargetsItself`). On the login server
  cancel commands do nothing: all of them end in Error (`LoginNeverCancels`).
- Between a restart and the first pass a poll hands over nothing (`ExactlyOnce`).
- The allocator's growth check compares the number of IDs in use with the distance between the ends of
  the range, so with a step above 1 IDs can pass the end. They stay below it in all runs exactly when
  the last ID of the largest size does (`EndExact`); for the pools of pets and of items it does not
  (`PoolsPassTheirEnds`). Pets and items have no ID in common exactly while no more than 671088000 pets
  have been in use at once (`PoolsApartExact`, `PetIsItem`).
- The read/write lock is documented as preferring writers. Only its wakeups do (`WakeupsPreferWriters`):
  an arriving reader gets in exactly when no writer is active (`ReaderEntersExact`), so a waiting
  writer can be overtaken any number of times (`WriterStarves`).
- An object of the LRU cache is due six hours after it was loaded, however often it is used
  (`LivesFromLoad`), and a cache full of residents serves no other key until `ClearResidentKey`
  (`StuckRun`).
- A value set back to the default is not taken over by a replica: that has the last other value that
  the sender had at the end of a round (`RoundExact`, `RoundsExact`, `DefaultIsNotSent`),
  and 256 keys are saved with the count 0 (`LooseOfAllKeys`, `RoundOfAllKeys`).
- A CSV line that starts with '#' is dropped even inside a quoted cell, and a carriage return at the
  end of any line is cut off (`PrintExact`).

## Model

| member | source | states |
|---|---|---|
| CacheRuns.NoLostUpdate | pitayaserver/transition/CacheMgr.h:155-189 | after any run of attach, find, assign, release, database steps, callbacks and updates from an empty cache, reading through the cache gives the plain table; when Update erases an object nobody holds it and its database row is that table's row |
| CacheRuns.InFlightSafety | pitayaserver/transition/CacheMgr.h:169-186 | in every reachable state a key has at most one outstanding batch or callback, has one exactly while m_inPersistence is set, and every waiting callback finds its object |
| CacheRuns.ShutdownExact | pitayaserver/transition/CacheMgr.h:191-218 | every schedule of the direct writes and the queued batches leaves the database equal to memory if and only if no dirty object has an outdated batch in the queue |
| CacheRuns.ShutdownDrained | pitayaserver/transition/CacheMgr.h:191-218 | with a drained queue every schedule does |
| CacheRuns.ShutdownLoses | pitayaserver/transition/CacheMgr.h:191-218 | a reachable state, in which all handles have been given back, and a schedule that leaves the database without the last assignment |
| CacheRuns.RunRefines | pitayaserver/transition/CacheMgr.h:90-231 | every run keeps the invariant and refines the run of the plain table |
| CacheRuns.StepRefines | pitayaserver/transition/CacheMgr.h:90-231 | every single operation does: only assignments and created rows change what a reader sees |
| CacheRuns.UpdateKeeps | pitayaserver/transition/CacheMgr.h:155-189 | Update changes nothing a reader sees, and drops only objects that nobody holds and whose row is up to date |
| CacheTimes.UpdateExact | pitayaserver/transition/CacheMgr.h:155-189 | Update writes an object back, as the one batch of its key and with its columns, exactly when it is held or dirty, not in persistence and its interval is past; it drops one exactly when it is unheld, clean, not in persistence and older than the delay; callbacks come first when the database asks for it; all else stays |
| CacheTimes.UpdateOrder | pitayaserver/transition/CacheMgr.h:155-189 | the batches of an Update join the end of the queue, lowest key first |
| CacheTimes.DrainOrder | pitayaserver/transition/database/SqlDelayThread.cpp:22-62 | batches are executed from the front, and their callbacks wait in that order |
| CacheTimes.HandleExact | pitayaserver/transition/CacheMgr.h:133-143 | a handle taken does not make an object dirty; given back it does, and nothing else has changed |
| CacheTimes.SentIsSaved | pitayaserver/transition/CacheMgr.h:155-189 | once the database thread has worked off its queue, the row of every object that Update wrote back has the values of memory |
| CacheTimes.ReleasedLeaves | pitayaserver/transition/CacheMgr.h:155-231 | a released dirty object is in its row and out of the cache after an Update past the interval, the work of the database thread, the callback, and an Update past the delay |
| CacheTimes.PrepareExact | pitayaserver/transition/CacheMgr.h:251-268 | loading succeeds exactly when every wanted missing column can be loaded, and loads those below the first that cannot |
| CacheTimes.AttachExact | pitayaserver/transition/CacheMgr.h:90-131 | Attach succeeds exactly when the row exists or is created and its wanted columns load; then the object has one handle more and the time of the call; flags, other objects and queues stay |
| CacheStore.AttachGrants | pitayaserver/transition/CacheMgr.h:90-131 | a successful Attach leaves the object in the map with one handle more and every wanted column loaded |
| CacheStore.ResultsAreCached | pitayaserver/transition/CacheMgr.h:233-236 | the assertion of OnPersistenceComp: the object of every waiting callback is in the map |
| CacheStore.WriteBackKeeps | pitayaserver/transition/CacheMgr.h:169-176 | handing out a snapshot keeps at most one batch per key and loses no value |
| CacheStore.DropKeeps | pitayaserver/transition/CacheMgr.h:178-185 | an object that is dropped leaves every reader the same values from its row |
| CacheStore.ModifyKeeps | pitayaserver/transition/CacheMgr.h:90-131 | an assignment by a holder is seen by every later reader |
| CacheManager.CacheMgr.Attach | pitayaserver/transition/CacheMgr.h:90-131 | finds or creates the object, loads the missing wanted columns, and takes a handle; every failing path gives no handle and leaves the stated state |
| CacheManager.CacheMgr.FindInCache | pitayaserver/transition/CacheMgr.h:133-143 | one more handle on a cached object, no handle for other keys |
| CacheManager.CacheMgr.PrepareData | pitayaserver/transition/CacheMgr.h:251-268 | loads the wanted missing columns in ascending order and stops at the first failure; columns loaded before it stay loaded |
| CacheManager.CacheObject.MakeSQL | pitayaserver/transition/CacheMgr.h:270-281 | the batch holds exactly the loaded columns with their values |
| CacheManager.CacheMgr.AutoRelease | pitayaserver/transition/CacheMgr.h:223-231 | its assertion holds for every live handle; the object becomes dirty with one handle less |
| CacheManager.CacheMgr.OnPersistenceComp | pitayaserver/transition/CacheMgr.h:233-249 | the object is no longer in persistence and its time is renewed |
| CacheManager.CacheMgr.ProcessResultQueue | pitayaserver/transition/CacheMgr.h:157 | every waiting callback runs, and finds its object |
| CacheManager.Database.ProcessRequest | pitayaserver/transition/database/SqlDelayThread.cpp:53-62 | the oldest batch is written over its row and its callback is queued |
| CacheManager.CacheMgr.Persistence | pitayaserver/transition/CacheMgr.h:283-292 | a snapshot of the loaded columns joins the queue |
| CacheManager.CacheMgr.WriteBackOne | pitayaserver/transition/CacheMgr.h:169-176 | write back exactly when held or dirty, not in persistence, and the interval has passed |
| CacheManager.CacheMgr.DropOne | pitayaserver/transition/CacheMgr.h:178-185 | delete exactly when unheld, clean, not in persistence and old; a deleted object has no handles |
| CacheManager.CacheMgr.Update | pitayaserver/transition/CacheMgr.h:155-189 | the visit of every object in key order, entries erased on the way |
| CacheManager.CacheMgr.Shutdown | pitayaserver/transition/CacheMgr.h:191-218 | the callbacks run, then the direct writes take place in key order with any turns of the database thread between them, and the map is empty; once the queue is done the database equals memory if no dirty object had an outdated batch |
| CacheManager.CacheMgr.SaveDirty | pitayaserver/transition/CacheMgr.h:203-214 | one direct write per dirty object of the map, and nothing for clean ones, whatever the database thread does in between |
| SocketBuffer.CSocketBuffer.Align | pitayaserver/framework/SocketBuffer.cpp:96-101 | the live bytes move to the front, the queue is unchanged |
| SocketBuffer.CSocketBuffer.Expand | pitayaserver/framework/SocketBuffer.cpp:103-136 | on success the request fits; the queue is unchanged in every case; the doubling loop ends below twice the need |
| SocketBuffer.CSocketBuffer.Append | pitayaserver/framework/SocketBuffer.cpp:61-82 | the bytes join the end of the queue, or nothing changes when memory runs out |
| SocketBuffer.CSocketBuffer.Erase | pitayaserver/framework/SocketBuffer.cpp:138-152 | the first bytes, or all, leave the queue |
| SocketBuffer.CSocketBuffer.BufferRead | pitayaserver/framework/SocketBuffer.cpp:175-185 | what is read, followed by what stays, is the old queue |
| SocketBuffer.CSocketBuffer.SockRead | pitayaserver/framework/SocketBuffer.cpp:188-248 | what recv delivers joins the end; a failure leaves the queue, or empties it when memory runs out |
| SocketBuffer.CSocketBuffer.Sends | pitayaserver/framework/SocketBuffer.cpp:250-263 | what send takes leaves the front of the queue |
| Framing.ChunkingIndependent | pitayaserver/framework/NetClient.cpp:53-131 | for any bytes, the packets and the leftover of reads of any sizes are those of one parse of all bytes |
| Framing.ParseAppend | pitayaserver/framework/NetClient.cpp:53-131 | more bytes continue a parse where it stopped |
| Framing.DeliveredSoFar | pitayaserver/framework/NetClient.cpp:53-131 | a stream of sendable packets, received in any pieces, delivers at every moment exactly the packets that have fully arrived |
| Framing.PrefixOfStream | pitayaserver/framework/NetClient.cpp:66-124 | after the first n bytes of a stream the leftover is the received part of the next frame |
| Framing.RoundTripExact | pitayaserver/framework/NetClient.cpp:237-258 | one packet survives the wire if and only if opcode and payload fit the 16-bit fields |
| Framing.DecodersAgree | pitayaserver/framework/Client.cpp:292-366 | the second decoder gives the same packets and leftover if and only if no length below the header size stops the first one |
| Framing.ShortLength | pitayaserver/framework/Client.cpp:292-366 | four zero bytes: the first decoder leaves them, the second one meets a bad length |
| Framing.FrameBytes | pitayaserver/framework/NetClient.cpp:237-258 | the four header bytes, low byte first, and the payload, for any opcode and length |
| Framing.FrontBytes | pitayaserver/framework/NetClient.cpp:66-124 | which bytes make a complete frame, and the packet they hold |
| NetClient.CNetClient.QueueFrames | pitayaserver/framework/NetClient.cpp:66-124 | the loop queues every complete frame and consumes at least a header each turn; without a session the packets are dropped |
| NetClient.CNetClient.OnRead | pitayaserver/framework/NetClient.cpp:53-131 | the session gets the complete packets, the buffer keeps the rest |
| NetClient.CNetClient.SendSinglePacket | pitayaserver/framework/NetClient.cpp:229-261 | the frame of the first queued packet joins the output |
| NetClient.CNetClient.OnWrite | pitayaserver/framework/NetClient.cpp:133-199 | the frames of all queued packets join the output in order |
| NetClient.ReceiveAll | pitayaserver/framework/NetClient.cpp:53-131 | any sequence of reads of a stream hands the session exactly the packets that have fully arrived |
| NetClient.CClient.OnRead | pitayaserver/framework/Client.cpp:292-366 | the same packets and leftover as the first decoder, on streams without lengths below the header size |
| NetClient.ParseFromIsParse | pitayaserver/framework/NetClient.cpp:121-129 | moving a pointer through the bytes and erasing once at the end is cutting frames off one by one |
| GiftCode.CheckHasEightDigits | pitayaserver/transition/GiftCode.cpp:43-52 | for every id, index and parameter the check number lies between 34^7 and 34^8 and has exactly eight digits |
| GiftCode.MaskTop | pitayaserver/transition/GiftCode.cpp:49-50 | the mask has bits 36 and 37 set or bit 38 set, and none above, for every seed |
| GiftCode.SumTop | pitayaserver/transition/GiftCode.cpp:43-47 | before the exclusive or the sum is at most 146104864836, below three times 2^36 |
| GiftCode.DigitCount | pitayaserver/transition/GiftCode.cpp:24-37 | a number has more than k digits exactly from 34^k on |
| GiftCode.CodeNormalizes | pitayaserver/transition/GiftCode.cpp:39-74 | without its dashes every code is its normal form of exactly 16 characters |
| GiftCode.CodeInjective | pitayaserver/transition/GiftCode.cpp:39-74 | two equal codes have the same id and index, whatever their parameters |
| GiftCode.FilterRoundTrip | pitayaserver/transition/GiftCode.cpp:76-163 | a code with id below 100 in any letter case, with any dashes behind the prefix, with or without the prefix, is accepted and gives id and index back |
| GiftCode.FilterAcceptsOwnCode | pitayaserver/transition/GiftCode.cpp:76-163 | the generator's output is accepted if and only if the id is below 100 |
| GiftCode.FilterSound | pitayaserver/transition/GiftCode.cpp:76-163 | what is accepted starts with HD and decodes to an id below 100 and an index in range |
| GiftCode.NormalDecodes | pitayaserver/transition/GiftCode.cpp:122-160 | the normal form passes every later test of the decoder and carries id and index |
| GiftCode.DecodeDigits | pitayaserver/transition/GiftCode.cpp:142-160 | reading the digits of a number gives the number |
| GiftDigits.CodeCarriesSum | pitayaserver/transition/GiftCode.cpp:43-71 | the last eight characters of a code, shifted back by (index xor third parameter) modulo 34 plus 1, read in base 34 and freed of the mask, are (1003 index + id) (first parameter modulo 109 + 1) |
| GiftDigits.SumGrows | pitayaserver/transition/GiftCode.cpp:43-47 | that sum is 0 for the first code, and grows by the factor with the id and by 1003 times it with the index |
| GiftDigits.MaskBits | pitayaserver/transition/GiftCode.cpp:49-50 | bit j of the mask is set exactly when the seed has a bit 0, 6, 7, 8, 13, 14, 15 or 21 places below |
| GiftDigits.CodeShape | pitayaserver/transition/GiftCode.cpp:24-73 | four groups of four characters with a dash between them, and one more behind the first when the index is 39304 or larger |
| GiftDigits.HeadExact | pitayaserver/transition/GiftCode.cpp:54-64 | two letters that count hundreds of ids in base 26 from HD on, and the last two digits of the id |
| GiftDigits.ErrorExact | pitayaserver/transition/GiftCode.cpp:39-41 | the result is Error exactly for ids from 67600 and indices from 1336336 on |
| GiftDigits.FilterExact | pitayaserver/transition/GiftCode.cpp:76-163 | exactly which texts are accepted, by their characters, and the id that they give |
| GiftCodeCalc.NumToCode | pitayaserver/transition/GiftCode.cpp:24-37 | digits with a dash after every fourth from the right, reversed |
| GiftCodeCalc.CheckNumber | pitayaserver/transition/GiftCode.cpp:43-52 | the check number, with no 64-bit wrap on the way |
| GiftCodeCalc.CalcGiftCode | pitayaserver/transition/GiftCode.cpp:39-74 | the code, or Error out of range |
| GiftCodeCalc.EraseDashes | pitayaserver/transition/GiftCode.cpp:86-89 | replacing the first dash until there is none removes them all |
| GiftCodeCalc.CheckChars | pitayaserver/transition/GiftCode.cpp:93-120 | accepts exactly digits and letters but O, with zeros only in front of the index, and turns letters to upper case |
| GiftCodeCalc.FilterGiftCodeFormat | pitayaserver/transition/GiftCode.cpp:76-163 | accepts exactly what the filter accepts, with its code, id and index |
| Md5Stream.HashPieces | pitayaserver/framework/md5.cpp:148-215 | however a message is cut into updates, the first digest is that of RFC 1321 for the concatenation |
| Md5Bytes.DigestExact | pitayaserver/framework/md5.cpp:187-215 | bytes 4 i to 4 i + 3 of a digest, low byte first, are register i of the chain of the compression function from 67452301, efcdab89, 98badcfe, 10325476 through the blocks of what is hashed |
| Md5Bytes.HashedExact | pitayaserver/framework/md5.cpp:198-207 | behind the message are hashed 0x80, zeros, and the number of bits modulo 2^64 as eight bytes, low byte first, in the fewest whole blocks |
| Md5Bytes.StartBytes | pitayaserver/framework/md5.cpp:104-114 | the start value written out is 01 23 45 67 89 ab cd ef fe dc ba 98 76 54 32 10 |
| Md5Stream.MD5.Update | pitayaserver/framework/md5.cpp:148-182 | the object stands for the old message followed by the input, for every input on which the loop ends; counter, registers and buffer agree with it |
| Md5Stream.UpdateReturnsExact | pitayaserver/framework/md5.cpp:163-174 | the 32-bit block index comes to its end if and only if the waiting and the new bytes are together fewer than 2^32 |
| Md5Stream.NextIndex | pitayaserver/framework/md5.cpp:171-173 | the block index in closed form starts behind the bytes that fill the buffer and grows by 64 in 32 bits; the loop of TransformBlocks runs through it |
| Md5Stream.MD5.CountBits | pitayaserver/framework/md5.cpp:157-161 | the two counter words hold the bit length modulo 2^64, the carry included |
| Md5Stream.MD5.TransformBlocks | pitayaserver/framework/md5.cpp:171-173 | the loop over the 32-bit index hashes full blocks of the input where they lie, fewer than 64 bytes are left |
| Md5Stream.MD5.Final | pitayaserver/framework/md5.cpp:187-215 | the digest of the message; registers and counter are as before, the buffer is not |
| Md5Stream.MD5.Digest | pitayaserver/framework/md5.cpp:93-101 | the digest of what the object stands for |
| Md5Stream.MD5.BitsField | pitayaserver/framework/md5.cpp:198-199 | the two encoded counter words are the length field |
| Md5Repeat.RepeatExact | pitayaserver/framework/md5.cpp:187-215 | a second digest equals the first for every compression function if and only if the length modulo 64 is below 56 or the waiting bytes equal what overwrote them |
| Md5Repeat.RepeatFails | pitayaserver/framework/md5.cpp:187-215 | a message of 56 bytes whose two digests differ for some compression function |
| Md5Repeat.ToldApart | pitayaserver/framework/md5.cpp:187-215 | two messages that differ in their last block only have different digests under a compression function that tells that block from all others |
| Md5Stream.DigestTwice | pitayaserver/framework/md5.cpp:187-215 | two digests in a row are those of the message and of what the first one has left for it |
| GmRuns.LifeCycle | pitayaserver/util/CenterDBCtrl.cpp:2335-2490 | over every run, with restarts between passes and commands cancelling one another, Trigger is called at most once, completion succeeds at most once and only after a successful Trigger, and no command in the map is terminal |
| GmRuns.AtMostOnce | pitayaserver/util/CenterDBCtrl.cpp:2335-2530 | over every run with restarts a role that threads the returned time through its polls gets each command at most once |
| GmRuns.ExactlyOnce | pitayaserver/util/CenterDBCtrl.cpp:2517-2530 | a poll leaves every running command that started after the role joined handed to it exactly once; before the first pass after a restart it hands over nothing, so then exactly if the role has polled since the command started |
| GmRuns.PassSettles | pitayaserver/util/CenterDBCtrl.cpp:2441-2488 | after a pass every row holds the state of its command, and exactly the terminal ones have left the map |
| GmRuns.TerminalAbsorbing | pitayaserver/util/CenterDBCtrl.cpp:2383-2439 | a terminal status survives the processing of any command |
| GmRuns.ProcessOneEvolves | pitayaserver/util/CenterDBCtrl.cpp:2386-2438 | processing one command moves every command only along allowed status changes, and stamps start times of this pass |
| GmTimes.TurnExact | pitayaserver/util/CenterDBCtrl.cpp:2386-2438 | the turn of a command in a pass: Validate is called exactly when it is new, Trigger exactly when it is pending or accepted and its start time, after 0 is replaced, is past, Complete exactly when it runs and its end time is past; its times and status then |
| GmTimes.PassExact | pitayaserver/util/CenterDBCtrl.cpp:2371-2490 | in a pass Trigger is called for a command at most once, exactly under that condition at its turn; the row then has the time of the pass as start time, and its own one otherwise, and its end time |
| GmTimes.NotBeforeItsTime | pitayaserver/util/CenterDBCtrl.cpp:2406-2418 | a pending command whose start time is not past gets no Trigger and keeps its start time, unless it is cancelled |
| GmTimes.NothingOverdue | pitayaserver/util/CenterDBCtrl.cpp:2371-2490 | in every reachable state behind a pass, pending commands start and running ones end at the time of that pass or later |
| GmTimes.PassLeaves | pitayaserver/util/CenterDBCtrl.cpp:2441-2488 | behind a pass nothing is dirty, and the rows of other commands are as before |
| GmTimes.CancelExact | pitayaserver/util/GmCommand.h:159-176 | what cancelling does to its target, its row and the log, by the status of the target |
| GmTargets.NeverTargetsItself | pitayaserver/util/CenterDBCtrl.cpp:2386-2418 | in every pass of every run, when the loop comes to the Trigger of a cancel command, its target is another command and the call leaves its own status alone; for commands that were pending at a restart this supposes that the unset target is not their own id |
| GmTargets.LoginNeverCancels | loginserver/GmCommandExt.cpp:42-97 | over every run, with restarts, of a server that takes only commands for passports, a cancel command in the map is New, and the next pass ends it in Error without a call of Trigger |
| GmRuns.StepKeeps | pitayaserver/util/CenterDBCtrl.cpp:2335-2603 | reading new rows, passes, polls and restarts keep the invariant of life cycles and deliveries |
| GmRuns.RestartLoads | pitayaserver/util/CenterDBCtrl.cpp:2335-2353 | reading the unfinished rows at a start gives every command of the map back in the state it had, and adds new ones only |
| GmEngine.CenterDBCtrl.InitGmCommand | pitayaserver/util/CenterDBCtrl.cpp:2335-2353 | a server that has just started holds what the unfinished rows say |
| GmEngine.CenterDBCtrl.UpdateGmCommand | pitayaserver/util/CenterDBCtrl.cpp:2371-2490 | one pass over the objects of the map, or nothing when time has not advanced |
| GmEngine.CenterDBCtrl.ProcessCommand | pitayaserver/util/CenterDBCtrl.cpp:2386-2438 | the validate, trigger and finish phases of one command, which may change others |
| GmEngine.CenterDBCtrl.Cancel | pitayaserver/util/GmCommand.h:159-176 | New and Pending become Canceled; Running does when Complete succeeds; otherwise nothing changes |
| GmEngine.CenterDBCtrl.CancelGmCommand | pitayaserver/util/CenterDBCtrl.cpp:2497-2505 | cancels the command if it is in the map |
| GmEngine.CenterDBCtrl.ValidateCancel | loginserver/GmCommandExt.cpp:84-97 | accepts exactly a server command with one parameter that names another command of the map |
| GmEngine.CenterDBCtrl.CallTrigger | loginserver/GmCommandExt.cpp:99-107 | the target is cancelled in the middle of the pass |
| GmEngine.CenterDBCtrl.WriteDirty | pitayaserver/util/CenterDBCtrl.cpp:2441-2481 | dirty commands are written, flags reset, terminal commands listed |
| GmEngine.CenterDBCtrl.RemoveCommands | pitayaserver/util/CenterDBCtrl.cpp:2483-2487 | exactly the listed commands leave the map |
| GmEngine.CenterDBCtrl.ReadCommands | pitayaserver/util/CenterDBCtrl.cpp:2564-2603 | accepted and known rows enter the map once, unknown ones become Error, the highest id is remembered |
| GmEngine.CenterDBCtrl.HandlerGmCommandRole | pitayaserver/util/CenterDBCtrl.cpp:2517-2530 | hands out the running commands started since the given time and returns the time of the last pass |
| ServerMerge.EndsExact | pitayaserver/util/CenterDBCtrl.cpp:836-849 | following the chain of every server ends if and only if the log has no cycle |
| ServerMerge.ChainsAreShort | pitayaserver/util/CenterDBCtrl.cpp:836-849 | on an acyclic log every chain ends within as many hops as there are rows |
| ServerMerge.GetServerIdMerged | pitayaserver/util/CenterDBCtrl.cpp:832-852 | the server at the end of the chain |
| ServerMerge.SameTable | pitayaserver/util/CenterDBCtrl.cpp:863-881 | with one row per origin the copy in memory is what the single queries see |
| ServerMerge.GetMergedListInfo | pitayaserver/util/CenterDBCtrl.cpp:861-901 | every origin gets the last hop of its chain; without rows the output stays as it was |
| ServerMerge.ResolversAgree | pitayaserver/util/CenterDBCtrl.cpp:884-896 | that target is the one the step-by-step resolver finds |
| ServerMerge.LastHopIsLast | pitayaserver/util/CenterDBCtrl.cpp:884-896 | what is recorded for an origin is the row of the last server on its chain that has one, with its kind |
| ServerMerge.LastRowWins | pitayaserver/util/CenterDBCtrl.cpp:870-881 | of several rows with one origin the last one counts |
| ServerMerge.CopyMasters | pitayaserver/util/CenterDBCtrl.cpp:1466-1512 | the pass in place equals copying all masters from the state before it |
| ServerMerge.ShowMasters | pitayaserver/util/CenterDBCtrl.cpp:1463-1512 | a dead merged server shows the entrance and life of the root of its chain, when that is listed, no players, and its strategy only if the last merge is of kind 0; all others stay |
| ServerMerge.CopyState | pitayaserver/util/CenterDBCtrl.cpp:1490-1508 | the assignments from the master, field by field |
| RwLock.MutualExclusion | dep/include/zthread/BiasedReadWriteLock.h:149-313 | in every interleaving a writer is alone |
| RwLock.NoDeadlock | dep/include/zthread/BiasedReadWriteLock.h:205-305 | while a thread is blocked, another one is active, awake, or about to signal a queue that is not empty |
| RwLock.CountedStep | dep/include/zthread/BiasedReadWriteLock.h:149-313 | every step keeps the counters equal to the numbers of active and waiting threads, and exclusion |
| RwLock.HelpedStep | dep/include/zthread/BiasedReadWriteLock.h:205-305 | every step keeps that no wakeup is lost |
| RwLock.ReaderEntersExact | dep/include/zthread/BiasedReadWriteLock.h:149-174 | in every reachable state an arriving reader gets the lock if and only if no thread is writing |
| RwLock.WakeupsPreferWriters | dep/include/zthread/BiasedReadWriteLock.h:205-305 | in every reachable state a thread that gives the lock back signals the writers if one waits, else the readers if one waits, else nobody |
| RwLock.SignalWakesOne | dep/include/zthread/BiasedReadWriteLock.h:205-305 | a signal wakes one blocked thread of the queue it goes to, and no other |
| RwLock.Wake | dep/include/zthread/BiasedReadWriteLock.h:220-225 | which condition the end of a release signals |
| RwLock.WriterStarves | dep/include/zthread/BiasedReadWriteLock.h:149-313 | for every n a run of three threads in which one waits to write all the time while the others get the lock for reading n times |
| RwLock.BiasedReadWriteLock.BeforeRead | dep/include/zthread/BiasedReadWriteLock.h:149-174 | counts the reader as waiting and lets it in exactly when no writer is active |
| RwLock.BiasedReadWriteLock.BeforeWrite | dep/include/zthread/BiasedReadWriteLock.h:229-253 | counts the writer as waiting and lets it in exactly when nobody is active |
| RwLock.BiasedReadWriteLock.AfterRead | dep/include/zthread/BiasedReadWriteLock.h:205-227 | one active reader less; wakes according to who waits then |
| RwLock.BiasedReadWriteLock.AfterWrite | dep/include/zthread/BiasedReadWriteLock.h:283-305 | one active writer less; wakes according to who waits then |
| IdPool.RunKeeps | pitayaserver/framework/IDCtrl.cpp:67-126 | over every run each ID of the blocks so far is once in use or free, and m_dwCount is the number in use |
| IdPool.NotInUse | pitayaserver/framework/IDCtrl.cpp:80-100 | an ID handed out is not in use and is the start plus a whole number of steps |
| IdPool.QueueTurn | pitayaserver/framework/IDCtrl.cpp:22-62 | free IDs are handed out first in, first out: a free ID moves one place with each Get, whatever happens meanwhile |
| IdPool.ReuseTurn | pitayaserver/framework/IDCtrl.cpp:46-62 | a released ID comes back after exactly as many Gets as there were free IDs before it |
| IdRange.EndExact | pitayaserver/framework/IDCtrl.cpp:67-126 | for every step, all IDs of all runs stay below the end if and only if the last ID of the largest size does, the size at which the checks stop the growth |
| IdRange.StepOneStaysBelow | pitayaserver/framework/IDCtrl.cpp:67-126 | with step 1 and an initial block that fits, every ID stays below the end over every run |
| IdRange.HighWaterExact | pitayaserver/framework/IDCtrl.cpp:80-100 | a pool has as many IDs as were ever in use at once, rounded up by whole blocks |
| IdRange.PoolsPassTheirEnds | pitayaserver/framework/IDCtrl.cpp:140-144 | the pools of pets and of items each have a run that hands out an ID past the end |
| IdRange.PoolsApartExact | pitayaserver/framework/IDCtrl.cpp:140-144 | after any runs of the two pools no ID belongs to both if and only if never more than 671088000 pets were in use at once |
| IdRange.PetsBelowExact | pitayaserver/framework/IDCtrl.cpp:140-144 | under the same condition, and only then, the IDs of the pets are below their end |
| IdRange.PetIsItem | pitayaserver/framework/IDCtrl.cpp:140-144 | runs after which 0x50000004 is in use as a pet and as an item |
| IdCtrl.CLinkedList.GetNext | pitayaserver/framework/IDCtrl.cpp:22-31 | the node at the cursor, which moves on |
| IdCtrl.CLinkedList.Append | pitayaserver/framework/IDCtrl.cpp:33-44 | the node becomes the last one, and the cursor's when all were in use |
| IdCtrl.CLinkedList.Remove | pitayaserver/framework/IDCtrl.cpp:46-62 | a node in use leaves its place and becomes the last free one; all links stay right |
| IdCtrl.CObjID.Resize | pitayaserver/framework/IDCtrl.cpp:108-126 | one block of nodes with consecutive IDs, or nothing when its end wraps past 32 bits |
| IdCtrl.CObjID.GetNext | pitayaserver/framework/IDCtrl.cpp:80-100 | the next free ID, after growing when none is left and the check allows it |
| IdCtrl.CObjID.Remove | pitayaserver/framework/IDCtrl.cpp:102-106 | the ID is free again, behind all others |
| IdCtrl.CObjID.constructor | pitayaserver/framework/IDCtrl.cpp:67-73 | the first block is free and nothing is in use |
| LruStore.RunIsPlainMap | pitayaserver/framework/ObjAdmin.cpp:49-179 | over every run, with evictions, expiries and failed saves, the value a client sees of a key changes only by its own writes; the cache never exceeds its capacity and holds each key once |
| LruStore.EvictionExact | pitayaserver/framework/ObjAdmin.cpp:49-109 | over every run: a miss on a full cache whose save succeeds drops exactly one entry, of those not resident the one served longest ago; the others stay in order behind the new one; it is served exactly if the store has it and it loads |
| LruStore.NoRoomExact | pitayaserver/framework/ObjAdmin.cpp:55-81 | when all entries are resident or the save fails nothing changes and nothing is served |
| LruStore.RoomLeftExact | pitayaserver/framework/ObjAdmin.cpp:82-109 | a cache that is not full drops and saves nothing |
| LruStore.HitExact | pitayaserver/framework/ObjAdmin.cpp:94-108 | a hit only moves the entry to the front |
| LruStore.RunRecency | pitayaserver/framework/ObjAdmin.cpp:49-109 | the list is ordered by the last successful GetData of each key, in every run |
| LruStore.SweepExact | pitayaserver/framework/ObjAdmin.cpp:111-140 | OnTimer takes out an entry if and only if it is due and no save failed up to it |
| LruStore.SweepStoreExact | pitayaserver/framework/ObjAdmin.cpp:111-140 | OnTimer saves exactly the entries it takes out |
| LruStore.SaveAllExact | pitayaserver/framework/ObjAdmin.cpp:161-169 | SaveAllData writes exactly the entries whose save succeeds |
| LruStore.ResidentExact | pitayaserver/framework/ObjAdmin.cpp:171-179 | in every run a key is resident exactly when it was made so after the last ClearResidentKey |
| LruStore.LivesFromLoad | pitayaserver/framework/ObjAdmin.cpp:49-140 | after every run the next sweep takes out an entry if and only if it is not resident, the Fetch that loaded it plus six hours in 32 bits is past, and no save failed up to it |
| LruStore.StuckRun | pitayaserver/framework/ObjAdmin.cpp:49-179 | a cache that is full of resident keys serves no other key over any run without ClearResidentKey |
| ObjAdmin.CObjCtrl.GetData | pitayaserver/framework/ObjAdmin.cpp:49-109 | hit: the entry moves to the front; miss: the victim is saved and dropped, then the key is loaded to the front; null exactly when a save or load fails or nothing can be dropped |
| ObjAdmin.CObjCtrl.DropOldest | pitayaserver/framework/ObjAdmin.cpp:55-81 | the search from the back for an entry that is not resident |
| ObjAdmin.CObjCtrl.OnTimer | pitayaserver/framework/ObjAdmin.cpp:111-140 | the sweep from front to back that erases due entries and stops at a failed save |
| ObjAdmin.CObjCtrl.SaveAllData | pitayaserver/framework/ObjAdmin.cpp:161-169 | every entry is saved, failures are ignored |
| ObjAdmin.CObjCtrl.Init | pitayaserver/framework/ObjAdmin.cpp:40-47 | capacity 0 is refused |
| AnyType.ReadWrite | pitayaserver/framework/DynamicStruct.h:11-57 | reading what was written gives the value and stops at its end, in any buffer, for every nested value that can be sent; the default value leaves the target alone |
| AnyType.StringExact | pitayaserver/framework/ByteBuffer.h:304-315 | a string comes back if and only if it has no zero byte |
| AnyType.WireForm | pitayaserver/framework/DynamicStruct.h:35-57 | the bytes of texts, vectors, maps and the default value, with their tags |
| AnyType.WireNumber | pitayaserver/framework/DynamicStruct.h:35-57 | a tag, then the number with its low byte first |
| AnyType.UnknownTag | pitayaserver/framework/DynamicStruct.h:30-33 | an unknown tag takes one byte and leaves the target alone |
| AnyType.StrAtExact | pitayaserver/framework/ByteBuffer.h:304-315 | a text ends at the first zero byte or with the buffer |
| AnyType.InsertExact | pitayaserver/framework/ByteBuffer.h:664-677 | an entry whose key is there is dropped, another one takes its place in key order |
| AnyType.SameIsEqual | pitayaserver/framework/AnyType.h:161-172 | operator== holds if and only if the values are equal but for the sign of zeros in doubles, and no double in them is a NaN; floats are compared by their bits |
| ByteBuffer.ByteBuffer.Append | pitayaserver/framework/ByteBuffer.h:484-494 | the bytes join the end, whether the store grows or not |
| ByteBuffer.ByteBuffer.ReadNum | pitayaserver/framework/ByteBuffer.h:392-408 | the number at the read position, or 0 past the end; the position advances in both cases |
| ByteBuffer.ByteBuffer.ReadString | pitayaserver/framework/ByteBuffer.h:304-315 | the bytes up to a zero byte or the end |
| ByteBuffer.ByteBuffer.WriteAny | pitayaserver/framework/DynamicStruct.h:35-57 | the written form of the value joins the end |
| ByteBuffer.ByteBuffer.ReadAny | pitayaserver/framework/DynamicStruct.h:11-34 | the value at the read position, for any bytes; an unknown tag leaves the target alone |
| ByteBuffer.ByteBuffer.WriteMap | pitayaserver/framework/ByteBuffer.h:654-662 | count, then the entries in key order |
| ByteBuffer.ByteBuffer.ReadMap | pitayaserver/framework/ByteBuffer.h:664-677 | as many entries as the count says; the first of equal keys stays |
| StructCodec.LooseRestores | pitayaserver/framework/DynamicStruct.h:70-94 | a struct of at most 255 entries is restored from its loose form |
| StructCodec.CompactRestores | pitayaserver/framework/DynamicStruct.h:64-88 | a struct with keys 0 to n - 1, n below 256, is restored from its compact form |
| StructCodec.LooseOverlays | pitayaserver/framework/DynamicStruct.h:70-78 | loading lays the saved keys over the target, keeps the rest, and stops at the end |
| StructCodec.LooseOfAllKeys | pitayaserver/framework/DynamicStruct.h:90-100 | 256 keys are counted as none |
| StructCodec.LooseBytes | pitayaserver/framework/DynamicStruct.h:90-94 | the bytes of the loose form of two keys: their number, then each key with its value, lowest first |
| StructCodec.CompactBytes | pitayaserver/framework/DynamicStruct.h:80-88 | the bytes of the compact form of two keys |
| StructCodec.RoundExact | pitayaserver/framework/DynamicStruct.h:96-131 | after any changes of the sender one delta makes the replica equal if and only if no dirty key was set to the default value over another value |
| StructCodec.RoundsExact | pitayaserver/framework/DynamicStruct.h:96-131 | after any number of rounds of at most 255 keys the replica has for every key the last value other than the default that the sender had at the end of a round, hence it is equal if and only if no key that now has the default value ever had another one then |
| StructCodec.QuietSteps | pitayaserver/framework/DynamicStruct.h:119-129 | setting values that are there already changes nothing and makes nothing dirty |
| StructCodec.StepExact | pitayaserver/framework/DynamicStruct.h:119-129 | another value is taken over and its key dirty; looking for an absent key creates it clean |
| StructCodec.DefaultIsNotSent | pitayaserver/framework/DynamicStruct.h:11-34 | a value set back to the default stays at the replica |
| StructCodec.RoundOfAllKeys | pitayaserver/framework/DynamicStruct.h:96-100 | with all 256 keys dirty nothing arrives |
| DynamicStruct.CDynamicStruct.SetProperty | pitayaserver/framework/DynamicStruct.h:120-129 | a new or different value is stored and its key is dirty; an equal one changes nothing |
| DynamicStruct.CDynamicStruct.GetProperty | pitayaserver/framework/DynamicStruct.h:119 | an absent key is created with the default value, and is not dirty |
| DynamicStruct.CDynamicStruct.SaveDataLoose | pitayaserver/framework/DynamicStruct.h:90-94 | the loose form of all entries joins the buffer |
| DynamicStruct.CDynamicStruct.SaveDataDirty | pitayaserver/framework/DynamicStruct.h:96-100 | the loose form of the dirty keys joins the buffer |
| DynamicStruct.CDynamicStruct.SaveDataCompact | pitayaserver/framework/DynamicStruct.h:80-88 | the compact form, or false and nothing when a key is missing |
| DynamicStruct.CDynamicStruct.LoadDataLoose | pitayaserver/framework/DynamicStruct.h:70-78 | what the entries at the read position make of the data |
| DynamicStruct.CDynamicStruct.LoadDataCompact | pitayaserver/framework/DynamicStruct.h:64-68 | what the values at the read position make of the keys 0 to count - 1 |
| CsvText.PrintExact | pitayaserver/framework/CsvReader.cpp:24-151 | a printed table is read back if and only if no printed line is a comment or ends with a carriage return and no row prints as an empty line |
| CsvText.ReaderIsOnePass | pitayaserver/framework/CsvReader.cpp:35-74 | scanning again from the open cell after each line gives the cells of one pass over each whole record, whose end is where the quotes are even |
| CsvText.FailsAtOddQuotes | pitayaserver/framework/CsvReader.cpp:75-80 | Init fails if and only if the last record has an odd number of quotes |
| CsvText.SplitPrinted | pitayaserver/framework/CsvReader.cpp:83-151 | the cells of a printed row are the row |
| CsvCells.CellExact | pitayaserver/framework/CsvReader.cpp:83-151 | in any text a cell ends at the first comma with an even number of quotes before it and holds what lies before without its quotes; without such a comma it is the last one, or goes on in the next line when the quotes are odd |
| CsvCells.QuotesHalve | pitayaserver/framework/CsvReader.cpp:91-104 | of quotes in a row a cell keeps half, rounded down |
| CsvText.CleanExact | pitayaserver/framework/CsvReader.cpp:37-40 | which lines are read as they stand, and that one carriage return is cut off |
| CsvText.CleanResult | pitayaserver/framework/CsvReader.cpp:35-74 | without comments and carriage returns the table is the printed one without the rows that print as empty lines |
| CsvReader.ReadCell | pitayaserver/framework/CsvReader.cpp:83-151 | one cell off the front, with the three results of the loop |
| CsvReader.CCsvReader.ReadCells | pitayaserver/framework/CsvReader.cpp:50-71 | the inner loop of Init |
| CsvReader.CCsvReader.Init | pitayaserver/framework/CsvReader.cpp:24-81 | the table and the result of the text |

## Left out

- SQL text and failures of statements: a batch that is executed takes effect, as the callbacks ignore its result. Connections, logging and the Lua glue are not modelled.
- `m_useCount`, `size_t` positions and counters of 64 bits do not wrap. The number of columns of the cache is fixed at 16. The clock of the cache is a parameter of each call.
- `SocketBuffer.h` is not part of this model; the fields are those the methods use. The branch of `SockRead` under `FIONREAD` names a variable that does not exist, so it is taken as not compiled. Memory fails only in `Expand`.
- SocketBuffer.CSocketBuffer.SockRead: recv and send are oracles given as parameters.
- CacheManager.CacheMgr.Shutdown: a direct write and the execution of a batch are each one step; the database thread takes part until the direct writes are done, and executes the rest of its queue after that.
- NetClient.CClient.OnRead: the undefined behaviour on lengths below the header size is excluded by its precondition; `DecodersAgree` says exactly when that happens.
- `hexdump`, `LockedQueue` and the mutexes of `CNetClient`.
- The compression function of MD5 is a parameter: section 3.4 of RFC 1321 and the `update` overload for files are not modelled. `finished` never stays set, because `final` calls `update`; the model keeps that.
- Md5Stream.MD5.Update: requires that the loop over blocks ends; `UpdateReturnsExact` says when.
- GiftCodeCalc.FilterGiftCodeFormat: id and index mean nothing when it refuses. Codes are read as characters below 128.
- Commands other than `cancel_gm_command` are oracles for their calls. `Tick`, error messages and backup values are not modelled. The server stops between two passes, and its next pass is at a later second than its last one; a stop in the middle of a pass is not modelled. At its first start it finds no pending or running command of its own.
- GmRuns.ExactlyOnce: for roles that poll while the command is running.
- ServerMerge.GetServerIdMerged: its precondition is that the chain ends; on a cycle the loop does not end.
- ServerMerge.CopyMasters: the fields that are always copied together are one field of the model.
- RwLock.NoDeadlock: without interrupts and timed attempts, whose results do not tell whether the lock was acquired. Sections under the mutex are atomic; a spurious wakeup is a step of its own.
- IdCtrl.CObjID.Resize: blocks whose size times the step reaches 2^32 are excluded, and so is a failing `new`.
- IdCtrl.CObjID.Remove: requires a node that was handed out and not given back, as the list does.
- IdCtrl.CObjID.constructor: has the same two restrictions for the first block.
- `NextRoleId`.
- ObjAdmin.CObjCtrl.GetData: after an eviction the code compares an iterator whose element is erased; the model takes the outcome as found. `SaveInnerData` and `GetInnerData` are oracles over a store; a save that fails leaves the store alone.
- ObjAdmin.CObjCtrl.OnTimer: the answers of the clock and the store are given for each place of the list.
- AnyType values are modelled as values, since every copy of them is deep; ownership of the payload is not modelled. A float or double is its bits. `PString` and `MapAA` are left out, and so is the assertion on ten million bytes in `ByteBuffer::append`.
- DynamicStruct.CDynamicStruct.SaveDataCompact: fewer than 256 keys; with 256 its byte counter never reaches the count and the loop does not end.
- DynamicStruct.CDynamicStruct.SaveDataDirty: requires that dirty keys are set; after `clear` the code would read past the end. `saveDataNeed` is not modelled.
- CsvReader.CCsvReader.Init: the text of the error message is not modelled; `InitByFile` runs the same loop on a file.
- `replace_all`, `StrReplace`, random sequences, local time, the relay-server merge loop, login, charge and goods handlers: thin wrappers or calendar code.
