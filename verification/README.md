# Verification of the web servers' core

This project models the core of four small web servers in Dafny and proves what
they keep over all inputs and all runs: the userver (`userver-0.9.0`), flash
(`flash_server`), an AMPED server (`amped_server`) and a threaded server with
its FastCGI companion (`mt_server`). `dafny verify dfyconfig.toml` checks it.

| file | models |
|---|---|
| `LruCache.dfy`, `SlotTable.dfy`, `MappedCache.dfy` | the userver's file cache: a recency list as reference, the free list, bucket chains and LRU list threaded through arrays, and the class that rewires them |
| `OpenCache.dfy` | its older cache with open addressing and CLOCK eviction |
| `BoundedBuffer.dfy`, `RequestQueue.dfy` | the two queues between threads, as steps of any number of threads, and the classes for what happens inside the lock |
| `ReadSchedule.dfy`, `ReadAnswers.dfy`, `ReadMaster.dfy` | flash's scheduling of disk reads among helper processes: the schedule, what the helpers are asked and answer, and the linked records that refine the schedule |
| `ChunkCache.dfy`, `DataCache.dfy`, `ChunkSender.dfy`, `ChunkOrder.dfy`, `SendPlan.dfy` | flash's cache of mapped file chunks, the class that changes it in place, the connections that move locks along it, the order in which chunks are unmapped, and the bytes put on the wire |
| `Amped.dfy` | the AMPED server's clients and helper table |
| `CgiRelay.dfy`, `EnvBlock.dfy`, `PostBody.dfy` | flash's relay of CGI output, its block of environment strings, its reading of request bodies |
| `ConnTable.dfy`, `Timers.dfy` | flash's connection numbers and timers |
| `Bitmap.dfy`, `BufPool.dfy` | the userver's pool of buffers |
| `Lists.dfy`, `Bits.dfy` | shared lists and bit arithmetic |

Code that changes tables in place is a class with those tables as arrays (or, for
lists and heap records, sequences), each method proved equal to a function on
values; the properties over all histories are lemmas about those functions.
Code that runs in several threads, or in handlers called in any order, is a
step function, and its properties hold for every sequence of steps.

Where the code does not do what its comments promise, the model follows the code
and an if-and-only-if states when it does:

- The userver's file cache stops the server under exactly the condition of
  `LruCache.HaltsExactly`: among others when a full table is asked for a file
  that cannot be cached, since slot -1 is then freed.
- Its older cache stops when a full table gets a file that fits the bytes exactly
  (`OpenCache.Cache.Add`, `OpenCache.ExactFitHalts`), although the comment there says that a table
  can be full. It also stops on an empty file, which cannot be mapped.
- The request for the root page asks the older cache for the empty name, since the leading
  slash is dropped (`userver-0.9.0/parse.c:594-598`) and the document root may be empty
  (`userver-0.9.0/options.c:196`). The name of an evicted slot is empty too, so such a request may
  get an evicted slot for a hit, exactly when the search comes by one
  (`OpenCache.SearchMeans`, `OpenCache.EvictedAnswers`). It may also stop the server, when the
  slot is one just evicted for it (`OpenCache.RootPageHalts`).
- Flash's read master reuses the loop variable that holds a helper's row when it
  clips a stale idle message, so that the next group goes to the wrong row; no
  connection is lost exactly when nobody waits or the row happens to be right
  (`ReadSchedule.NobodyLostExactly`, `ReadSchedule.AccountsExactly`, `ReadMaster.MisdirectedGroup`).
- Flash's idle timer may end a connection that waits for a disk read. The record loses its file
  and stays linked, so that later requests for the piece do not join it
  (`ReadSchedule.ReadTwice`), and the server faults when it resumes the connection or sends its
  request (`ReadSchedule.EndExactly`, `ReadSchedule.PatientExactly`,
  `ReadSchedule.TimeoutFaults`, `ReadSchedule.HandOverFaults`).
- Flash's read master sends a request again when it got a stale idle alone, although the helper
  still has the first; an answer may then go to the wrong group (`ReadAnswers.AnswersExactly`).
- A comment in flash's read master says that requests with the same start have the same length;
  lengths are those of the pieces exactly as long as each request is for the rest of its chunk,
  which the path through mincore does not promise (`ReadMaster.MeasuredAfterRequest`, `flash_server/hotfile.c:209`).
- Flash's chunk cache leaves a chunk record on the list when it frees the entry of a
  listed chunk without data (`ChunkCache.KillExactly`, `ChunkCache.ReduceExactly`,
  `ChunkSender.CorruptExactly`). That takes a chunk that lost its last lock before it was mapped
  (`ChunkSender.NeverCorrupt`, `ChunkSender.UnreadFileCorrupts`).
- Flash sends its header again when a write took exactly the header
  (`SendPlan.CompleteExactly`, `SendPlan.HeaderSentTwice`).
- The counters of the threaded server's buffer are ints that only grow; the slots they pick
  are right exactly under the condition of `BoundedBuffer.SlotsRightExactly`, and with two slots
  or more some schedule stores outside the buffer (`BoundedBuffer.OutsideExactly`).
- The AMPED server's ownership of helpers survives a hang-up exactly when the
  client has no helper (`Amped.HangUpExactly`), and its assertion on answers exactly when no
  answer is owed (`Amped.UnexpectedExactly`).

## Model

| member | source | states |
|---|---|---|
| `LruCache.SumsEvict` | userver-0.9.0/cache_mapped_new.c:1241-1256 | an eviction takes exactly the victim's bytes off the total and nothing off the working set |
| `LruCache.SumsFront` | userver-0.9.0/cache_mapped_new.c:1039-1069 | a stored file adds its size to the bytes and, once referenced, to the working set |
| `LruCache.SumsReuse` | userver-0.9.0/cache_mapped_new.c:1564-1573 | a further reference adds the size to the working set and leaves the bytes |
| `LruCache.SumsRelease` | userver-0.9.0/cache_mapped_new.c:1552-1561 | giving a reference back takes the size off the working set and leaves the bytes |
| `LruCache.MakeRoomDropsOldest` | userver-0.9.0/cache_mapped_new.c:857-867 | making room drops exactly the unreferenced entries past some age, and no more of them than the bytes ask for |
| `LruCache.MakeRoomFails` | userver-0.9.0/cache_mapped_new.c:857-867 | the eviction loop runs out of victims if and only if the referenced entries alone leave too little space |
| `LruCache.SecondVictim` | userver-0.9.0/cache_mapped_new.c:881-891 | the extra victim for a full table is missing if and only if even the newest unreferenced entry had to go for its bytes |
| `LruCache.HaltsExactly` | userver-0.9.0/cache_mapped_new.c:783-900 | a request stops the server if and only if a condition holds that can be read off the cache and the request beforehand |
| `LruCache.AnswersExactly` | userver-0.9.0/cache_mapped_new.c:783-1131 | every other answer, for every cache and request: a hit if and only if some entry has the name, whoever else uses it; a store if and only if none has, the file is regular and within both limits, and nothing halts; a refusal if and only if it is not |
| `LruCache.HitContents` | userver-0.9.0/cache_mapped_new.c:1117-1131 | after a hit the entry is in front with one more reference and the others follow in their order |
| `LruCache.RefusalContents` | userver-0.9.0/cache_mapped_new.c:804-855 | a refusal leaves the cache as it was |
| `LruCache.StoreContents` | userver-0.9.0/cache_mapped_new.c:857-1069 | after a store the new file is in front and all but the unreferenced entries past some age follow: as many go as the bytes ask for, and in a full table the oldest one left besides |
| `LruCache.KeepMeans` | userver-0.9.0/cache_mapped_new.c:857-867 | the entries that stay are those in use and those more recent than the age |
| `LruCache.ReleaseExactly` | userver-0.9.0/cache_mapped_new.c:1552-1561 | a reference can be given back if and only if one is out, and only that count changes |
| `LruCache.HistoryGoesOn` | userver-0.9.0/cache_mapped_new.c:761-1134 | a history goes on with every request that does not halt the server and every release of a reference that is out |
| `LruCache.FullTableHalts` | userver-0.9.0/cache_mapped_new.c:804-809 | a concrete case: a full table asked for a file that does not exist frees slot -1 |
| `LruCache.StoreSurvives` | userver-0.9.0/cache_mapped_new.c:857-1069 | a store keeps every referenced entry and the order of the rest, puts the new entry in front with one reference, and stays within the byte and slot limits |
| `LruCache.HitMoves` | userver-0.9.0/cache_mapped_new.c:1117-1131 | a hit moves its entry to the front with one more reference and leaves all others as they were |
| `LruCache.HistoryHolds` | userver-0.9.0/cache_mapped_new.c:761-1134 | over every history of requests and releases: limits kept, names unique, the list strictly ordered by last use, reference counts equal to the handles that are out |
| `LruCache.VictimIsOldest` | userver-0.9.0/cache_mapped_new.c:1137-1174 | over every history the victim is the unreferenced entry whose last use is the oldest |
| `SlotTable.TookThreaded` | userver-0.9.0/cache_mapped_new.c:1531-1549 | taking a slot off the free list leaves all lists in order but for that slot |
| `SlotTable.FreedThreaded` | userver-0.9.0/cache_mapped_new.c:1341-1351 | freeing a taken slot puts the lists back in order |
| `SlotTable.LruPutListed` | userver-0.9.0/cache_mapped_new.c:1441-1460 | linking in front of the LRU list yields that list with the slot in front, doubly linked |
| `SlotTable.LruCutListed` | userver-0.9.0/cache_mapped_new.c:1463-1517 | unlinking from any place of the LRU list yields the list without the slot, doubly linked |
| `SlotTable.ChainPutListed` | userver-0.9.0/cache_mapped_new.c:1354-1370 | linking into a bucket puts the slot in front of that chain and leaves the other chains |
| `SlotTable.ChainCutListed` | userver-0.9.0/cache_mapped_new.c:1374-1433 | unlinking from any place of a bucket chain yields the chain without the slot and leaves the other chains |
| `SlotTable.ChainFinds` | userver-0.9.0/cache_mapped_new.c:433-511 | the chain of a name's bucket holds the name if and only if the cache does |
| `SlotTable.EvictThreaded` | userver-0.9.0/cache_mapped_new.c:1137-1258 | an eviction leaves free list, chains and LRU list in order and drops exactly the victim's entry |
| `SlotTable.StoreThreaded` | userver-0.9.0/cache_mapped_new.c:903-1069 | a store leaves the lists in order and adds exactly the new entry in front |
| `SlotTable.MoveThreaded` | userver-0.9.0/cache_mapped_new.c:1521-1528 | moving a slot to the front of the LRU list leaves the lists in order |
| `SlotTable.ReuseThreaded` | userver-0.9.0/cache_mapped_new.c:1117-1131 | a hit leaves the lists in order and changes the entries as in LruCache |
| `SlotTable.ReleaseThreaded` | userver-0.9.0/cache_mapped_new.c:1552-1561 | giving a reference back leaves the lists in order and changes one entry |
| `SlotTable.BlankThreaded` | userver-0.9.0/cache_mapped_new.c:149-291 | the tables that initCache builds are in order and empty |
| `MappedCache.SlotCount` | userver-0.9.0/cache_mapped_new.c:149-291 | the slots bought for a load factor: at least the buckets, and the floor of the product above a factor of one |
| `MappedCache.FileCache.constructor` | userver-0.9.0/cache_mapped_new.c:149-291 | a new cache is in order and empty |
| `MappedCache.FileCache.FreeElement` | userver-0.9.0/cache_mapped_new.c:1341-1351 | pushes a slot on the free list |
| `MappedCache.FileCache.GetElement` | userver-0.9.0/cache_mapped_new.c:1531-1549 | pops the free list, or reports that it is empty |
| `MappedCache.FileCache.AddElement` | userver-0.9.0/cache_mapped_new.c:1354-1370 | links a slot into its bucket in front |
| `MappedCache.FileCache.DeleteElement` | userver-0.9.0/cache_mapped_new.c:1374-1433 | unlinks a slot from its bucket, wherever it is in the chain |
| `MappedCache.FileCache.LruAdd` | userver-0.9.0/cache_mapped_new.c:1441-1460 | links a slot in front of the LRU list |
| `MappedCache.FileCache.LruDelete` | userver-0.9.0/cache_mapped_new.c:1463-1517 | unlinks a slot from the LRU list, wherever it is |
| `MappedCache.FileCache.Lookup` | userver-0.9.0/cache_mapped_new.c:433-511 | finds the slot of a name if and only if the cache holds it, and takes a free slot otherwise |
| `MappedCache.FileCache.Victim` | userver-0.9.0/cache_mapped_new.c:1137-1174 | the walk from the old end of the LRU list finds the reference model's victim |
| `MappedCache.FileCache.Evict` | userver-0.9.0/cache_mapped_new.c:1137-1258 | the linked structure drops exactly that victim |
| `MappedCache.FileCache.Store` | userver-0.9.0/cache_mapped_new.c:903-1069 | the linked structure gains exactly the new entry, in front |
| `MappedCache.FileCache.Reuse` | userver-0.9.0/cache_mapped_new.c:1117-1131 | a hit on the linked structure is a hit on the recency list |
| `MappedCache.FileCache.Release` | userver-0.9.0/cache_mapped_new.c:1552-1561 | a release on the linked structure is a release on the recency list |
| `MappedCache.FileCache.MakeRoom` | userver-0.9.0/cache_mapped_new.c:857-867 | the eviction loop terminates and does what the reference does, or finds no victim exactly when the reference finds none |
| `MappedCache.FileCache.Add` | userver-0.9.0/cache_mapped_new.c:761-1134 | every request to the linked structure has the outcome and the new contents that the recency list prescribes, and keeps all lists, counters and sums in order |
| `OpenCache.SpotIsRemainder` | userver-0.9.0/cache_mapped.c:310-310 | the slot arithmetic of the model is the source's remainder |
| `OpenCache.VacancyMeans` | userver-0.9.0/cache_mapped.c:284-372 | a missing name gets no place if and only if every slot is in use; otherwise its place is free and a later search gets there |
| `OpenCache.VacancyFirst` | userver-0.9.0/cache_mapped.c:284-372 | the place is the first slot never used that the search comes by, or, when all have been used, the first evicted one of the linear scan |
| `OpenCache.SearchMeans` | userver-0.9.0/cache_mapped.c:284-355 | a search ends at a match if and only if the name is stored, or it is the empty name and the search compares it with an evicted slot before a slot never used; the match is a live file exactly when it is not such a slot |
| `OpenCache.EvictedAnswers` | userver-0.9.0/cache_mapped.c:289-289 | a concrete case: a sound table with one evicted slot stores nothing and answers the empty name |
| `OpenCache.StoreSound` | userver-0.9.0/cache_mapped.c:560-579 | storing any name in the place found keeps every stored name reachable and unique |
| `OpenCache.DropSound` | userver-0.9.0/cache_mapped.c:626-640 | an eviction leaves every other name stored and reachable |
| `OpenCache.EvictDrops` | userver-0.9.0/cache_mapped.c:616-655 | the CLOCK eviction drops exactly one file and its bytes |
| `OpenCache.SecondChance` | userver-0.9.0/cache_mapped.c:623-651 | a referenced file is evicted only when every file is referenced, and then all lose their reference |
| `OpenCache.VictimIsFirst` | userver-0.9.0/cache_mapped.c:623-651 | the victim is the first file from the hand that has not been referenced, or, when all have been, the first file |
| `OpenCache.EvictMeans` | userver-0.9.0/cache_mapped.c:623-651 | slot by slot: the victim is wiped, the files that the hand passed lose their reference, the rest stay as they are |
| `OpenCache.HitSurvives` | userver-0.9.0/cache_mapped.c:607-607 | a file just handed out is not the next victim as long as some file has not been referenced |
| `OpenCache.ShrinkStops` | userver-0.9.0/cache_mapped.c:526-534 | making room evicts files one by one as long as too many bytes are left, and no longer |
| `OpenCache.ShrinkSound` | userver-0.9.0/cache_mapped.c:526-534 | the eviction loop leaves a sound table with no new names and, if it ran at all, with a slot to spare |
| `OpenCache.OpenedSound` | userver-0.9.0/cache_mapped.c:526-551 | the place opened for a file is free, reachable for its name, and the bytes fit; nothing is evicted when there was room |
| `OpenCache.LoadHolds` | userver-0.9.0/cache_mapped.c:526-579 | a loaded file, of any name, is stored, no other name appears, the byte limit holds, and nothing is lost when there was room |
| `OpenCache.LoadEvicts` | userver-0.9.0/cache_mapped.c:526-579 | loading evicts in the order of the hand, as many as the bytes ask for and one more only if all slots are still taken, whose slot the file then gets |
| `OpenCache.ExactFitHalts` | userver-0.9.0/cache_mapped.c:526-540 | a concrete case: a full table and a file that fits exactly fail the assertion on the index |
| `OpenCache.RootPageHalts` | userver-0.9.0/cache_mapped.c:526-551 | a concrete case: the one file stored is evicted for a file of the empty name, the second search takes the slot just evicted for it, and the server stops |
| `OpenCache.NeverOverloaded` | userver-0.9.0/cache_mapped.c:471-476 | with a maximum load factor of 100 the load test never stops the server |
| `OpenCache.Cache.constructor` | userver-0.9.0/cache_mapped.c:116-170 | a new cache is sound and stores nothing |
| `OpenCache.Cache.Lookup` | userver-0.9.0/cache_mapped.c:218-374 | for every name: found if and only if it is stored or, for the empty name, an evicted slot is mistaken for it, and then the slot is not live; otherwise exactly the place for it: first slot never used, else first evicted one of the scan, else -1 |
| `OpenCache.Cache.ScanOn` | userver-0.9.0/cache_mapped.c:307-372 | the linear scan ends at the first match or slot never used, and remembers the first evicted slot |
| `OpenCache.Cache.Victim` | userver-0.9.0/cache_mapped.c:615-655 | the CLOCK loop ends within two rounds at the first unreferenced file from the hand, or at the first file when all are referenced |
| `OpenCache.Cache.MakeRoom` | userver-0.9.0/cache_mapped.c:526-534 | the eviction loop terminates with the bytes that are needed, evicting in CLOCK order |
| `OpenCache.Cache.OpenPlace` | userver-0.9.0/cache_mapped.c:526-551 | finds or makes a place, and fails if and only if the table is full and the bytes fit exactly, or the name is empty and a slot just evicted is mistaken for it |
| `OpenCache.Cache.Add` | userver-0.9.0/cache_mapped.c:452-613 | for every name: hit, load, refusal and stop each if and only if their condition on names, sizes and limits holds, with the exact new table; a hit sets the reference and counts the use, of a slot that is not live exactly when an evicted slot was mistaken for the empty name |
| `BoundedBuffer.StoreIsFree` | mt_server/sbuf.c:28-35 | no slot with an unread item is ever overwritten |
| `BoundedBuffer.EverySchedule` | mt_server/sbuf.c:7-49 | for any number of threads and every interleaving, with counters that never overflow: at most one inside the lock, 0 <= rear - front <= n, and the items removed are a prefix of the items inserted |
| `BoundedBuffer.EveryItem` | mt_server/sbuf.c:28-49 | in every schedule each item has been stored as often as inserts began with it, save those that still have it, and taken out as often as removes returned it or still have it |
| `BoundedBuffer.SlotsRightExactly` | mt_server/sbuf.c:31-33 | with counters that are C ints and the remainder of C, the slots picked are right up to a count if and only if it is an int, or one past with a number of slots that divides 2^31, or there is one slot |
| `BoundedBuffer.CountersExactly` | mt_server/sbuf.c:28-49 | in every schedule the counters are the items stored and taken, up to the thread inside the lock, so the same condition on rear says exactly when every slot of the run was right |
| `BoundedBuffer.WrappedBumps` | mt_server/sbuf.c:31-31 | an int counter that has been bumped so often has the value that the model gives it |
| `BoundedBuffer.EveryIntSchedule` | mt_server/sbuf.c:7-49 | with int counters, every schedule within that condition keeps all that EverySchedule says, and no access leaves the buffer |
| `BoundedBuffer.EveryCount` | mt_server/sbuf.c:28-49 | every count is reached: some schedule of one thread gets both counters to any k |
| `BoundedBuffer.OutsideExactly` | mt_server/sbuf.c:31-31 | some schedule makes an access outside the buffer, at a negative index, if and only if there is more than one slot |
| `BoundedBuffer.LeavesAt` | mt_server/sbuf.c:31-31 | that access is the store of the first insert past 2^31 - 1, or the one after it when the number of slots divides 2^31 |
| `BoundedBuffer.NoDeadlock` | mt_server/sbuf.c:28-49 | if no thread can go on, each is idle, waits to insert into a full buffer, or waits to remove from an empty one |
| `BoundedBuffer.Sbuf.Insert` | mt_server/sbuf.c:28-35 | inside the lock an insert appends to the queue |
| `BoundedBuffer.Sbuf.Remove` | mt_server/sbuf.c:40-49 | inside the lock a remove takes the oldest item |
| `RequestQueue.EnqueueAppends` | mt_server/fastcgi_server.c:331-342 | putting into the ring appends to the queue it stands for |
| `RequestQueue.DequeueRemoves` | mt_server/fastcgi_server.c:179-188 | taking from the ring removes the oldest request |
| `RequestQueue.TestsMean` | mt_server/fastcgi_server.c:166-167 | the flag is set if and only if 64 requests are queued, and the wait test holds if and only if none is |
| `RequestQueue.Requests.Add` | mt_server/fastcgi_server.c:320-342 | a request is refused if and only if 64 are queued |
| `RequestQueue.Requests.Take` | mt_server/fastcgi_server.c:166-188 | a worker finds nothing if and only if the queue is empty, and takes the oldest request otherwise |
| `RequestQueue.EveryRunIsFifo` | mt_server/fastcgi_server.c:152-199 | in every run the sockets go to workers in order, each to one worker, and what is left is in the ring |
| `RequestQueue.EveryRequest` | mt_server/fastcgi_server.c:290-342 | in every run each request that arrived has been queued, has been refused, or is in the acceptor's hands |
| `RequestQueue.EveryServe` | mt_server/fastcgi_server.c:152-199 | in every run each worker serves the socket that it took last |
| `RequestQueue.RefusedOnlyWhenFull` | mt_server/fastcgi_server.c:320-329 | a request that gets the lock is turned away if and only if 64 are queued |
| `RequestQueue.NoLostWakeup` | mt_server/fastcgi_server.c:152-199 | in every run, unless a signal is just about to be given, at least as many workers are awake as requests are queued, or all workers are |
| `RequestQueue.QuietMeansServed` | mt_server/fastcgi_server.c:152-199 | when no thread can go on by itself, the acceptor listens, every worker sleeps and, if there is a worker, the queue is empty |
| `ReadSchedule.RequestInv` | flash_server/read_master.c:340-433 | a request blocks exactly its connection and keeps the scheduler's invariant; it joins only a group whose front has not ended |
| `ReadSchedule.JoinsReader` | flash_server/read_master.c:363-372 | with a helper at work on the piece the connection joins the first such, behind its front |
| `ReadSchedule.TakesIdle` | flash_server/read_master.c:374-380 | otherwise the first idle helper gets the connection as a group of its own |
| `ReadSchedule.JoinsWaiting` | flash_server/read_master.c:382-391 | otherwise it joins the first group in line for the piece |
| `ReadSchedule.StartsOrWaits` | flash_server/read_master.c:393-432 | otherwise a helper is started with that group if and only if there is none, or fewer than allowed and the moment is right, and the start succeeds; if not, the group goes to the end of the line |
| `ReadSchedule.WaitsExactly` | flash_server/read_master.c:360-432 | the line gets longer if and only if every helper is at work, nobody reads the piece or waits for it, and there can be no other helper, or not now, or its start fails |
| `ReadSchedule.LineOnlyWhenBusy` | flash_server/read_master.c:340-432 | in every run from the start a request put in line found every helper at work, and maxHelp of them, no right moment, or a failed start |
| `ReadSchedule.CompleteExactly` | flash_server/read_master.c:280-335 | a completion frees its row, moves the group first in line to row j, and leaves every other row and the rest of the line |
| `ReadSchedule.CompleteInv` | flash_server/read_master.c:280-338 | a completion resumes exactly its own group and nobody else is lost, when nobody waits or the next group goes to the helper that finished |
| `ReadSchedule.NobodyLostExactly` | flash_server/read_master.c:305-331 | handing the next group to row j loses no connection if and only if nobody waits or j is the row that finished |
| `ReadSchedule.LeaveInv` | flash_server/read_master.c:251-278 | an idle helper may leave at any time without anybody being affected |
| `ReadSchedule.RunBlocks` | flash_server/read_master.c:202-433 | in every run, wherever completions send the next group, a connection is blocked as often as it asked, less the times it was resumed or lost |
| `ReadSchedule.AccountsExactly` | flash_server/read_master.c:202-433 | a run accounts for every connection if and only if no completion sends the next group to a busy row or a row that does not exist |
| `ReadSchedule.LosslessIsDirect` | flash_server/read_master.c:305-331 | from a state in order these are exactly the runs in which each completion sends the next group, if there is one, to the helper that finished |
| `ReadSchedule.RunHolds` | flash_server/read_master.c:202-433 | in every run without a fault in which completions send the next group to the helper that finished: one group per blocked connection, distinct pieces among the groups whose front has not ended, nobody waits while a helper is free, no more helpers than allowed |
| `ReadSchedule.ResumedOncePerRequest` | flash_server/read_master.c:202-433 | in every such run from the start each connection is resumed once for each request, save the one it is blocked in |
| `ReadSchedule.ResumedForOwnPiece` | flash_server/read_master.c:316-324 | in every run from the start, misdirected completions included, the group that a completion resumes is for the piece that each of its connections asked for last |
| `ReadSchedule.GroupWantsOne` | flash_server/read_master.c:364-391 | in every run from the start all connections of a group asked last for the same piece |
| `ReadSchedule.SafeExactly` | flash_server/read_master.c:202-335 | from a state in order, no future in which timers spare blocked connections uses the file of an ended connection if and only if no ended connection is blocked |
| `ReadSchedule.EndExactly` | flash_server/loop.c:789-799 | so a timer that ends a connection leaves all those futures without a fault if and only if the connection is not blocked |
| `ReadSchedule.PatientExactly` | flash_server/read_master.c:202-433 | in every run from the start that loses nobody and has not faulted: what lies ahead is without a fault if and only if every timer so far ended a connection that was not blocked |
| `ReadSchedule.LineCrashes` | flash_server/read_master.c:316-335 | an ended connection in the group at place k of the line is met at the latest by the (k+2)-th completion |
| `ReadSchedule.PiecesDiffer` | flash_server/read_master.c:361-391 | as long as no ended connection is blocked, all groups are for different pieces |
| `ReadSchedule.ReadTwice` | flash_server/read_master.c:364-380 | a concrete run: a connection asks, its timer ends it, another asks for the same, and two helpers read one piece |
| `ReadSchedule.TimeoutFaults` | flash_server/read_master.c:316-324 | a concrete run: a connection asks, its timer ends it, and the completion faults |
| `ReadSchedule.HandOverFaults` | flash_server/read_master.c:209-210 | a concrete run: the first in line has ended, and handing it to a helper faults |
| `ReadSchedule.KeepsPlace` | flash_server/read_master.c:326-335 | in every run a waiting group moves up one place with each completion, whatever row that completion names |
| `ReadSchedule.ServedInTurn` | flash_server/read_master.c:326-335 | the group at place k leaves the line at exactly the (k+1)-th completion, for the row that completion names, unless the server faults there, if and only if the front of the group or a connection to be resumed has ended |
| `ReadAnswers.NextInStep` | flash_server/read_slave.c:141-185 | an event that sends no request to a helper that has one keeps every busy helper asked for exactly the piece of its group |
| `ReadAnswers.AnsweredOwnPiece` | flash_server/read_master.c:280-324 | in every run from the start of such events, an answer is for the piece that each connection it resumes asked for last |
| `ReadAnswers.AnswersExactly` | flash_server/read_master.c:295-331 | from helpers in step, every later answer goes to the group whose piece it is if and only if the event neither sends a request again after a stale idle nor overwrites a busy row |
| `ReadAnswers.OverwriteMisleads` | flash_server/read_master.c:305-331 | a group sent to a busy row is resumed by the answer to the request before |
| `ReadAnswers.AgainMisleads` | flash_server/read_master.c:299-304 | a request sent again may be answered twice, and the second answer comes to another group or to a row that waits for none |
| `ReadMaster.MisdirectedGroup` | flash_server/read_master.c:305-331 | a concrete case: one busy helper, one group in line and the message idle, done send the group to row 10, where it is lost |
| `ReadMaster.MeasuredStart` | flash_server/read_master.c:170-195 | at the start nobody is blocked with a wrong length |
| `ReadMaster.MeasuredAfterRequest` | flash_server/read_master.c:350-358 | a request keeps every blocked connection's length that of its piece if and only if its own is |
| `ReadMaster.MeasuredAfterEvent` | flash_server/read_master.c:251-338 | every other event keeps it so: a completion for any row, a helper that leaves, a connection that ends |
| `ReadMaster.EqualLengths` | flash_server/read_master.c:350-372 | hence all connections of a group, at any time of the class, asked for the same number of bytes, the rest of the block or of the file |
| `ReadMaster.Master.constructor` | flash_server/read_master.c:170-195 | the tables start in order, with the helpers started beforehand idle |
| `ReadMaster.Master.AddCurrentReader` | flash_server/read_master.c:202-227 | the helper is sent the piece and length of the connection and the row names it; a connection that has ended is a fault, a row past the table an overrun |
| `ReadMaster.Master.EndConnection` | flash_server/loop.c:702-714 | the record loses its cache entry and stays linked, which is the schedule's event |
| `ReadMaster.Master.MatchHelperToPos` | flash_server/read_master.c:229-249 | finds the row of a descriptor, or reports the mismatch on which the source exits |
| `ReadMaster.Master.FindReader` | flash_server/read_master.c:364-372 | the first loop finds the first helper that reads the piece |
| `ReadMaster.Master.FindSpare` | flash_server/read_master.c:375-380 | the second loop finds the first free helper |
| `ReadMaster.Master.FindWaiting` | flash_server/read_master.c:383-391 | the third loop finds the first waiting group for the piece, or the end of the line |
| `ReadMaster.Master.ScheduleAsyncRead` | flash_server/read_master.c:340-433 | the linked records change exactly as the scheduler prescribes and the request written is the one it names; the exit is taken if and only if there is no helper and none can be started; lengths stay those of the pieces if and only if the request is for the rest of its chunk |
| `ReadMaster.Master.CurrentReaderDone` | flash_server/read_master.c:280-338 | resumes the whole sibling list in order and writes the request that the schedule names; exit, fault on an ended connection and overrun each if and only if their condition holds; nobody is lost if and only if nobody waited, the message did not begin with a stale idle, or its length happens to be the row |
| `ReadMaster.Master.HelperGoneIdle` | flash_server/read_master.c:251-278 | the rows behind a leaving helper move up by one |
| `ChunkCache.RoundedCovers` | flash_server/datacache.c:130-144 | the size that the counters use is in whole pages and covers a chunk, to the page, if and only if it is not the last chunk of several whole blocks, which it counts as nothing |
| `ChunkCache.ChangeInv` | flash_server/datacache.c:216-264 | one chunk may change its locks, data and place on the list, with both byte counters and the list following |
| `ChunkCache.KillExactly` | flash_server/datacache.c:531-566 | freeing an unused entry keeps list and counters in order if and only if none of its chunks is listed without data |
| `ChunkCache.ReduceHolds` | flash_server/datacache.c:180-214 | the reclaim loop ends with the bytes within the budget, or with no bytes on the list, or without a budget, and leaves every lock, every locked chunk and every entry in use alone |
| `ChunkCache.ReduceTidy` | flash_server/datacache.c:180-214 | if a listed chunk without data is its entry's only listed one, the reclaim loop never frees a listed record, whatever the budget |
| `ChunkCache.ReduceNoBare` | flash_server/datacache.c:180-214 | if all listed chunks have data the reclaim loop keeps it so |
| `ChunkCache.OnceExactly` | flash_server/datacache.c:191-212 | taking the last chunk of the list frees a listed record if and only if its entry is unused, nearer the head there are listed chunks of it, and none of those has data |
| `ChunkCache.ReduceExactly` | flash_server/datacache.c:180-214 | the reclaim loop frees a listed record if and only if such a chunk stands at a place up to which the cache is still over budget |
| `ChunkCache.ReduceCut` | flash_server/datacache.c:180-214 | the reclaim loop keeps the list up to some place: as long as the cache is over budget with all behind that place gone, and no longer |
| `ChunkCache.OnceMeans` | flash_server/datacache.c:191-212 | the chunk at the tail loses its data and its place, and its entry goes if and only if nobody uses it and no other chunk of it has data |
| `ChunkCache.DecExactly` | flash_server/datacache.c:342-381 | giving up a lock goes wrong if and only if it is the last and with the chunk on the list such a chunk has to go |
| `ChunkCache.ReadExactly` | flash_server/datacache.c:276-318 | reading goes wrong if and only if there is data to map and with its bytes such a chunk has to go |
| `ChunkCache.IncInv` | flash_server/datacache.c:320-340 | taking a lock keeps everything in order |
| `ChunkCache.AddEntryInv` | flash_server/datacache.c:455-489 | a new entry keeps everything in order |
| `ChunkCache.RecountedInv` | flash_server/datacache.c:653-670 | uses may be counted up and down while locks are covered by uses |
| `ChunkCache.NumChunksMeans` | flash_server/datacache.c:455-489 | a file has the least number of chunks that covers it, and at least one |
| `ChunkCache.IncMeans` | flash_server/datacache.c:320-340 | locking adds one lock to the chunk of the byte, takes it off the list, and changes no other record |
| `ChunkCache.DecMeans` | flash_server/datacache.c:342-381 | unlocking takes one lock off and changes no other record; with the last one the chunk goes to the front of the list and then the cache gets under budget |
| `ChunkCache.ReadMaps` | flash_server/datacache.c:276-318 | reading maps the chunk of a position, which keeps its data while the cache gets under budget |
| `ChunkCache.ReleaseMeans` | flash_server/datacache.c:653-670 | one use less, and the entry goes if and only if it was the last and the entry is invalid |
| `ChunkCache.InvalidateMeans` | flash_server/datacache.c:568-590 | a stale entry goes if and only if nobody uses it, and is invalid otherwise |
| `ChunkCache.AddEntryMeans` | flash_server/datacache.c:455-489 | a new entry has one use, no locks and no data |
| `DataCache.ChunkTable.constructor` | flash_server/datacache.c:108-113 | the cache starts empty and in order |
| `DataCache.ChunkTable.RemoveFromChunkLRUList` | flash_server/datacache.c:216-237 | takes a chunk off the list and its bytes off the counter, or does nothing |
| `DataCache.ChunkTable.AddToChunkLRUList` | flash_server/datacache.c:239-264 | puts a chunk in front of the list and then reduces the cache, with the same account of a freed record |
| `DataCache.ChunkTable.TryFreeChunk` | flash_server/datacache.c:491-529 | unmaps a chunk that has data; the exits are not reached |
| `DataCache.ChunkTable.KillEntry` | flash_server/datacache.c:531-566 | unmaps the chunks one by one and frees the entry; list and counters are in order afterwards if and only if no chunk of it was listed without data |
| `DataCache.ChunkTable.ReduceCacheIfNeeded` | flash_server/datacache.c:180-214 | from every state in order: the loop terminates by the length of the list and reaches none of its exits, and leaves a freed record on the list if and only if an unsafe chunk had to go; otherwise it is the reference reduction |
| `DataCache.ChunkTable.ReadChunkIfNeeded` | flash_server/datacache.c:276-318 | maps the data of a position unless it is there or the file is empty; a freed record is left on the list if and only if with those bytes an unsafe chunk had to go |
| `DataCache.ChunkTable.IncChunkLock` | flash_server/datacache.c:320-340 | locks the chunk of a position, and says whether the file has that chunk |
| `DataCache.ChunkTable.DecChunkLock` | flash_server/datacache.c:342-381 | gives a lock up; with the last one the chunk goes on the list and the cache is reduced; a freed record is left on the list if and only if then an unsafe chunk had to go |
| `DataCache.ChunkTable.AddEntryToDataCache` | flash_server/datacache.c:455-489 | a new entry in use, with no chunk mapped |
| `DataCache.ChunkTable.MakeEntryInvalid` | flash_server/datacache.c:568-590 | frees an unused entry and marks a used one; a freed record is left on the list if and only if an unused entry had a listed chunk without data |
| `DataCache.ChunkTable.ReleaseCacheEntry` | flash_server/datacache.c:653-670 | one use less; an invalid entry goes with its last use, leaving a freed record if and only if it had a listed chunk without data |
| `ChunkSender.SentHolds` | flash_server/hotfile.c:288-304 | moving the lock on a send keeps one lock on the chunk of the next byte, gives it up at the end of a file of whole blocks, and takes no exit |
| `ChunkSender.FinishHolds` | flash_server/loop.c:702-714 | ending a connection gives up its one lock and its use, and takes no exit |
| `ChunkSender.OpenHolds` | flash_server/hotfile.c:316-324 | opening a cached file takes a use and a lock on chunk 0 |
| `ChunkSender.StepHolds` | flash_server/hotfile.c:127-307 | every step of every connection keeps the invariant and takes no exit |
| `ChunkSender.RunHolds` | flash_server/hotfile.c:127-307 | in every run each sending connection has exactly one lock, on the chunk of its next byte, and each chunk's count is the number of such connections |
| `ChunkSender.NoLockErrors` | flash_server/hotfile.c:127-346 | the same from an empty cache for any number of connections and any events, empty files and exact multiples included |
| `ChunkSender.StepExactly` | flash_server/hotfile.c:127-307 | a step frees a listed chunk record if and only if one of its operations meets its hazard in the state in which it begins |
| `ChunkSender.CorruptExactly` | flash_server/hotfile.c:127-346 | a run frees a listed chunk record if and only if some event of it meets a hazard |
| `ChunkSender.StepMeans` | flash_server/hotfile.c:127-307 | what each step does for its connection: files open at their first byte, a write moves on by what it took, and a connection with its file sent is done |
| `ChunkSender.ReadThenSend` | flash_server/hotfile.c:127-307 | after a read a connection can send the rest of its block or of its file, and that is something |
| `ChunkOrder.ListByRelease` | flash_server/datacache.c:239-264 | over every run of the operations the list is in strictly falling order of the time at which each chunk gave up its last lock |
| `ChunkOrder.OldestGoesFirst` | flash_server/datacache.c:188-212 | of two listed chunks the one released longer ago is unmapped first: the survivors of a reduction are those released last |
| `ChunkOrder.RunByRelease` | flash_server/hotfile.c:127-346 | the same in every run of any number of connections from an empty cache |
| `ChunkSender.NeverCorrupt` | flash_server/datacache.c:491-566 | as long as no chunk without data loses its last lock, no run ever frees a listed chunk record |
| `ChunkSender.UnreadFileCorrupts` | flash_server/datacache.c:503-508 | a concrete run: a reply that needs no data, then a stale entry, frees a listed chunk record |
| `SendPlan.AndPred` | flash_server/hotfile.c:112-113 | the bit test is true of exactly the powers of two |
| `SendPlan.PowerOf2LessThanEqual` | flash_server/hotfile.c:106-118 | the largest power of two up to x, and 0 when x is not positive |
| `SendPlan.LeftIs` | flash_server/datacache.c:428-440 | the bytes left in a chunk are the rest of the block or of the file |
| `SendPlan.GetDataToSend` | flash_server/datacache.c:415-453 | the length to read depends on size and position only; a send stays in its chunk and within the buffer: the rest of the chunk if it fits, else the desired size or half the rest |
| `SendPlan.SendsNextBytes` | flash_server/datacache.c:447-452 | the bytes sent from a chunk are the next bytes of the file |
| `SendPlan.ReceivesPrefix` | flash_server/hotfile.c:234-300 | for every sequence of partial writes the body received is the part of the file counted as sent, behind the header |
| `SendPlan.WriteExactly` | flash_server/hotfile.c:234-300 | a write cuts the connection if and only if it fails or takes a part of the header only, and completes it if and only if the file is counted to its end; what it took has gone out |
| `SendPlan.CompleteExactly` | flash_server/hotfile.c:258-261 | a complete reply is one header and the file if and only if no write took exactly the header (for an empty file: exactly one did) |
| `SendPlan.HeaderSentTwice` | flash_server/hotfile.c:258-261 | a concrete case: a first write that takes the header alone leaves two headers on the wire |
| `Amped.RespondBacked` | amped_server/ed_http.c:140-278 | every stage of a reply keeps helpers_inuse equal to the helpers with a client; the waitlisted index and the released helper always exist |
| `Amped.FileStages` | amped_server/ed_http.c:101-167 | a file that is found goes on, and a client whose file calls fail is done |
| `Amped.HelperStage` | amped_server/ed_http.c:169-210 | a client that has written its header or is waitlisted gets the free helper with the lowest row, counted, and waits if and only if there is none |
| `Amped.AnswerStage` | amped_server/ed_http.c:211-219 | with its answer a client goes on to its data; without one it stays as it is |
| `Amped.DataStage` | amped_server/ed_http.c:221-275 | when its data is written a client gives its helper back and is done |
| `Amped.HelperStages` | amped_server/ed_server.c:291-342 | a request goes out if and only if the header is written and nothing else, and an answer is taken if and only if the client waits for one |
| `Amped.ServedAfterRelease` | amped_server/ed_http.c:192-210 | a waitlisted client is served at its next turn after a helper has been given back |
| `Amped.ReplyRoundTrip` | amped_server/ed_http.c:80-280 | a whole reply served alone leaves helpers and counters as they were |
| `Amped.RunBacked` | amped_server/ed_http.c:140-278 | the same in every run, also when clients hang up |
| `Amped.RunOwned` | amped_server/ed_server.c:291-342 | in every run without a hang-up by a client that has a helper: a client has a helper, and only one, exactly from HEADER_WRITTEN to DATA_WRITING, and no assertion fails |
| `Amped.HangUpExactly` | amped_server/ed_server.c:145-156 | a hang-up keeps this in order if and only if the client has no helper |
| `Amped.UnexpectedExactly` | amped_server/ed_server.c:331-341 | a hang-up may be followed by the failed assertion, with no other client to blame, if and only if a helper owes the client an answer |
| `Amped.GentleNeverFails` | amped_server/ed_server.c:291-342 | in every run from the start in which nobody hangs up who is owed an answer, no assertion fails |
| `Amped.HangUpStops` | amped_server/ed_server.c:331-341 | a concrete run: a hang-up during the mapping makes the helper's answer fail the assertion |
| `Amped.InitOwned` | amped_server/ed_epoll_event.c:36-81 | the tables start in order |
| `Amped.Server.constructor` | amped_server/ed_epoll_event.c:36-81 | the tables as they start |
| `Amped.Server.FindHelper` | amped_server/ed_epoll_event.c:216-238 | the search loops find the first row with the client, or none |
| `Amped.Server.WriteResponse` | amped_server/ed_http.c:80-280 | one stage of a reply changes status, row and counter as the model prescribes, and reaches no bad index and no assertion |
| `Amped.Server.SendRequest` | amped_server/ed_server.c:291-330 | the request goes to the helper once |
| `Amped.Server.ReadAnswer` | amped_server/ed_server.c:331-360 | an answer is taken if and only if the client waits for it |
| `CgiRelay.Split` | flash_server/cgi.c:660-734 | the reference: the output cut into full buffers and a rest |
| `CgiRelay.SplitFill` | flash_server/cgi.c:660-734 | reading into the buffers is splitting all that has been read |
| `CgiRelay.EverySplit` | flash_server/cgi.c:616-771 | for every way the reads are cut up, the buffers at the end are the reference split of the output, as long as the headers announced |
| `CgiRelay.RunEnds` | flash_server/cgi.c:616-771 | a run of reads ends with a reply if and only if its last read was a header without a chunk, and aborted if and only if it was an error |
| `CgiRelay.EveryOutput` | flash_server/cgi.c:616-771 | every output can be relayed |
| `CgiRelay.AdvanceDrops` | flash_server/cgi.c:590-610 | the loop over a write's count takes exactly that many bytes off the front |
| `CgiRelay.DeliversInOrder` | flash_server/cgi.c:556-614 | what has been written and what is left make up the output |
| `CgiRelay.ReceivesOutput` | flash_server/cgi.c:556-771 | for every way reads and writes are cut up the client gets a beginning of the output, and all of it exactly when the last buffer is done |
| `CgiRelay.Handler.constructor` | flash_server/cgi.c:1014-1016 | a relay starts with no buffers and room for five |
| `CgiRelay.Handler.MakeRetSpaceIfNecessary` | flash_server/cgi.c:660-692 | a new buffer exactly when there is none or the last is full; the array never overflows |
| `CgiRelay.Handler.HandleRead` | flash_server/cgi.c:616-771 | one read changes buffers and byte counts as the model prescribes |
| `CgiRelay.Handler.WriteToClient` | flash_server/cgi.c:556-614 | one write advances by exactly its count; done if and only if all is written; the exit is not reached |
| `EnvBlock.EncodeInjective` | flash_server/cgi.c:144-153 | a block determines the strings in it |
| `EnvBlock.StringLength` | flash_server/gscgi.c:252-252 | the length up to the first terminator |
| `EnvBlock.TakeStrings` | flash_server/gscgi.c:246-253 | the receiving loop finds exactly the strings that were put in |
| `EnvBlock.Block.constructor` | flash_server/cgi.c:159-166 | an empty block |
| `EnvBlock.Block.Grow` | flash_server/cgi.c:176-185 | doubles until the string fits and keeps the contents |
| `EnvBlock.Block.Add` | flash_server/cgi.c:139-196 | appends name and value as one string, every write inside the buffer |
| `EnvBlock.Transfer` | flash_server/cgi.c:139-196 | what is taken out on the other side is the sequence of pairs added |
| `PostBody.SpanJoin` | flash_server/readreq.c:713-752 | neighbouring stretches of the buffer chain are one stretch |
| `PostBody.BodyGrows` | flash_server/readreq.c:622-637 | new input makes the body longer, and its first Content-Length bytes end where the source says |
| `PostBody.MakePieces` | flash_server/readreq.c:713-752 | the iovec, one piece per buffer, gathers exactly the stretch |
| `PostBody.Reader.EndOfHeader` | flash_server/readreq.c:663-681 | without a content length there is no body; otherwise it starts behind the blank line and is complete, or the rest is waited for |
| `PostBody.Reader.GetNewBuffer` | flash_server/readreq.c:472-508 | going on to another buffer loses nothing |
| `PostBody.Reader.ReadData` | flash_server/readreq.c:603-637 | each read extends the body; done if and only if Content-Length bytes are there, and then exactly those are marked (section 7.2.2 of RFC 1945) |
| `PostBody.ReceiveBody` | flash_server/readreq.c:579-752 | for every way the input is cut up, and however many buffers the header filled before, the pieces hold exactly the Content-Length bytes behind the blank line |
| `Bitmap.PadWord` | userver-0.9.0/bitmap.c:93-96 | the shifted mask sets exactly the bits past the end |
| `Bitmap.WordChanged` | userver-0.9.0/bitmap.c:119-120 | setting or clearing one bit of one word changes that bit of the map alone |
| `Bitmap.FreeChanged` | userver-0.9.0/bitmap.c:159-161 | taking a bit or giving it back changes the number of clear bits by one |
| `Bitmap.InWord` | userver-0.9.0/bitmap.c:117-120 | a word that is not full has its first clear bit below the size, thanks to the padding |
| `Bitmap.Bitmap.Init` | userver-0.9.0/bitmap.c:82-103 | all blocks free, padding set, num_free the size |
| `Bitmap.Bitmap.FindAndSet` | userver-0.9.0/bitmap.c:106-138 | the lowest clear index, which alone is set; -1 if and only if none is free |
| `Bitmap.Bitmap.IsSet` | userver-0.9.0/bitmap.c:141-149 | the bit of an index |
| `Bitmap.Bitmap.Clear` | userver-0.9.0/bitmap.c:152-166 | clears the bit alone, and counts it only if it was set |
| `BufPool.Disjoint` | userver-0.9.0/bufpool.c:127-127 | different blocks have no byte in common |
| `BufPool.Inside` | userver-0.9.0/bufpool.c:127-127 | every block lies inside the pool |
| `BufPool.NumberOf` | userver-0.9.0/bufpool.c:136-137 | the block number is found again from the address |
| `BufPool.BackAgain` | userver-0.9.0/bufpool.c:99-141 | taking and giving back, or giving back and taking, the same block leaves every bit as it was |
| `BufPool.Pool.constructor` | userver-0.9.0/bufpool.c:40-85 | a pool starts with every block free |
| `BufPool.Pool.Alloc` | userver-0.9.0/bufpool.c:99-128 | hands out a block that was free, or none if and only if all are out |
| `BufPool.Pool.Release` | userver-0.9.0/bufpool.c:130-141 | gives exactly that block back |
| `Timers.PendingSet` | flash_server/timer.c:85-117 | setting or clearing a timer moves it from its old bucket to its new one |
| `Timers.SkipMissesNothing` | flash_server/timer.c:133-139 | if all buckets from the last check to now are empty, no timer is due |
| `Timers.NoneDue` | flash_server/timer.c:141-149 | when no timer is due a pass over the connections would change nothing |
| `Timers.PassedAfter` | flash_server/timer.c:125-151 | after a pass every timer is later than the time at which it began |
| `Timers.PassMeans` | flash_server/timer.c:125-151 | a timer due when a pass begins fires, and only one due when it ends; fired it is off or set again past the pass's start, not fired it stays, and the clock moves on by what the functions took |
| `Timers.Table.constructor` | flash_server/timer.c:119-123 | no timers at the start |
| `Timers.Table.Allocate` | flash_server/accept.c:158-197 | entries are allocated in order, and a new one has no timer |
| `Timers.Table.ClearTimer` | flash_server/timer.c:85-92 | clears one timer; the buckets still count the pending ones |
| `Timers.Table.SetTimer` | flash_server/timer.c:94-117 | sets one timer, or exits if and only if the seconds are out of range; the buckets still count |
| `Timers.Table.CheckTimers` | flash_server/timer.c:125-151 | whether or not the buckets let it skip the pass, exactly the timers that a pass over all connections finds due fire, each once and in order, and timers and clock are as the pass leaves them; all that remain are later than this check |
| `Timers.Table.ScanConnections` | flash_server/timer.c:141-149 | the scan up to the first entry not allocated is the pass over all connections, also when the clock moves on meanwhile |
| `ConnTable.SomeFree` | flash_server/accept.c:210-214 | fewer busy numbers than numbers means a free one |
| `ConnTable.LowestBit` | flash_server/accept.c:236-242 | the lowest bit of a byte |
| `ConnTable.Table.constructor` | flash_server/main.c:216-229 | every number free |
| `ConnTable.Table.FindFree` | flash_server/accept.c:230-250 | finds the lowest free number, below maxConnects and at most one past the allocated entries; the failure branch is not reached |
| `ConnTable.Table.Accept` | flash_server/accept.c:199-289 | the lowest free number is taken, its entry allocated if need be, and the allocated entries stay a prefix of the table |
| `ConnTable.Table.Close` | flash_server/loop.c:682-688 | the number is free again, and the hint still has nothing free below it |

## Left out

- Sockets, mmap, file opening, clocks, forks and randomness: their results are parameters of the operations or events of the runs.
- Failures of memory allocation, in all components, with the fallbacks for them (shrinking maxConnects, returning PRR_ERROR).
- Integer widths: sizes and counters are unbounded, so the overflow of the AMPED server's key and of byte totals is not modelled; bitmap words, the counters of `sbuf.c` (which wrap around, where C leaves an overflow undefined) and bytes of free connection bits do have their widths. `PowerOf2LessThanEqual` is not modelled for the smallest negative long.
- The userver's byte counts held in doubles are integers here, its load factor is a real number.
- The userver caches' special hashing for a benchmark, asynchronous socket I/O, encryption, page locking, response headers, statistics other than the byte, entry and working-set counters, and warming.
- mmap failing for other reasons than an empty file, in the older userver cache.
- The struct-of-fields layout of cache slots: links, LRU links and file data are separate arrays.
- Flash's data cache: the doubly linked list of chunks is a sequence here (the pointer updates of such a list are proved in `SlotTable.dfy`), entries are numbered instead of addressed, and the hash bins with their move to front, the choice by file name and time stamps of CheckCache, and the file descriptors of entries are not modelled.
- What flash's chunk cache does after it has left a freed record on the list: its operations report that point, exactly, and say nothing of the state behind it.
- Flash's HEAD requests, persistent connections, mincore and the filling in of dates; the reuse of a connection's number after its timer ended it while it was linked in a group.
- What a request does that flash's read master writes to the descriptor of a row past the active helpers: its group is lost, and no helper answers.
- Re-arming of CGI timers and the order in which expire functions touch other connections: an expire function may let time pass and clears or re-arms its own timer.
- Header parsing in `readreq.c`, including lines that cross buffers; the body is modelled from the end of the header on, and a read that fails, finds nothing yet or finds the connection closed is not an event of its own.
- The single-connection accept of flash's threaded variant, and its directory and name-conversion helpers.
- The AMPED server's CGI and FastCGI replies, request parsing, shared-memory transfer, and the path that the helper is sent.
- FastCGI routing to applications, plug-in calls and worker creation; errors of pthread calls other than a failed lock by the acceptor.
- The buffer pool's queue of used buffers, a compile-time option.
