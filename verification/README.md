# Verified models of memcached's cores and of a consistent hash ring

This project models, in Dafny, the algorithmic cores of a memcached tree and the hash ring of
the key-value store built around it, and proves what they are for. Code that updates state step
by step is a class or a method with loops; the states and steps it refines are datatypes and
functions, and the theorems are about every input, every run or every reachable state of those.

| files | what they model |
|---|---|
| `Bits`, `Crc32cSpec`, `Crc32cResidue`, `Crc32cSoftware`, `Crc32cHardware` | CRC-32C (section 12.1 of RFC 3720): three fast routines against one bit-serial definition, and that against division by the polynomial |
| `ExtstoreModel`, `ExtstoreLists`, `ExtstoreBlocks`, `ExtstoreSteps`, `ExtstoreWrites`, `ExtstoreFlush`, `ExtstoreRuns`, `ExtstoreTheorems`, `ExtstoreReads`, `ExtstoreWriters`, `ExtstoreEviction`, `ExtstoreCounts`, `ExtstoreFailures` | the external store: pages, write buffers, IO queues, versions, readers and any number of writers, one step per critical section |
| `NextLists`, `ExtstoreMemory`, `ExtstoreEngine` | the same store as code: lists that share next pointers, and a method for each critical section |
| `Assoc`, `AssocRuns` | the hash table that grows bucket by bucket, and its iterator |
| `LruList`, `LruTable`, `LruCrawler`, `Items`, `ItemsOps`, `ItemsPull`, `ItemsPullTheorems`, `ItemsPullOutcome`, `ItemsPullExact`, `ItemsRuns`, `ItemsAnswers`, `ItemsCrawl`, `ItemsCache` | items, reference counts, segmented LRU lists, the walk from the tail and the crawler |
| `Transmit` | gather lists, partial writes and chunked values |
| `RespBundles` | the slot allocator for response objects |
| `ChunkCopy` | append and prepend over chains of chunks |
| `CasStore` | the storage commands, ids and compare-and-set, incr and decr |
| `BipBuffer` | the two-region byte queue |
| `HashRing` | placement of keys on servers, joining and leaving |
| `Md5`, `Base64` | the streaming front of MD5, and base64 with decoding in place |
| `Basics`, `Counting` | shared types; counting and summing over sequences |

Pointers that the source stores in items, pages, bundles and chunks are values in maps from
objects to links, so that a list is what the links form. Machine words are natural numbers with
the wrap written out where the source depends on it. What comes from outside a module, such as the
clock, settings, the outcome of an allocation or how much a socket takes, is a parameter.

Some properties one might expect do not hold of the code, and the project states exactly when they
do:

- `lru_pull_tail` gives back or hands over every reference it takes, in every cache, if and only if
  it is not asked to return an item or walks COLD without evicting (`ItemsPullExact.LeaksExactly`).
- It returns the number of items it removed, as its comment says, in every cache if and only if no
  crawler may block it or it names no class (`ItemsPullExact.MiscountsExactly`); otherwise it returns
  0 instead exactly when it meets a crawler behind which all items are passed over and one was not
  locked (`ItemsPullExact.CountIsExact`, with `ItemsPullExact.CrawlerBefore` for a cache).
- `_allocate_page` asserts that the head of its bucket is full. That fails for a writer only after
  another was given a page of the same bucket while it was under way, and never with one writer to a
  bucket (`ExtstoreWriters.OnlyOvertakenWritersStop`, `ExtstoreWriters.OneWriterEachNeverStops`,
  `ExtstoreWriters.SecondAllocation`); a run from initialisation gets there
  (`ExtstoreWriters.StopIsReachable`).
- A read from the external store agrees with the objects inside its range when it asks for one object
  or for a range in one block (`ExtstoreReads.ReadsReturnWhatWasWritten`). When it reaches from what
  is written out into the write buffer it goes to disk, and agrees with an object in every case if
  and only if the object is not in the buffer or the buffer has just been written out
  (`ExtstoreReads.DiskAgreesExactly`); a run from initialisation ends in a wrong answer
  (`ExtstoreFailures.StaleReadIsReachable`).
- A read stops the process if and only if it asks an open page for more than has been allotted
  (`ExtstoreReads.ReadStopsExactly`); every run that leaves such a page can go on to such a read
  (`ExtstoreFailures.BeyondAllottedStops`, `ExtstoreFailures.StoppingReadIsReachable`).
- A copy into chunks fails although every byte was copied, if only the last of the chunks it asks for
  is refused (`ChunkCopy.CopyInto`, `ChunkCopy.RefusedThoughComplete`).
- A server that joins the hash ring stands at all its places if and only if none was taken
  (`HashRing.Ring.Insert`, `HashRing.JoinedRing`). One that leaves takes with it whatever stands at
  its places: the others are whole afterwards if and only if they were before and share no place with
  it (`HashRing.Ring.Remove`, `HashRing.LeftRing`), so joining and leaving again can take a member's
  place away (`HashRing.JoinAndLeave`, `HashRing.JoinedAndLeft`, `HashRing.LeavingTakesAnother`).
- `find_predecessor` of the ring returns the place after a node, which is the one before it if and
  only if the ring has at most two (`HashRing.PredecessorIsNext`).
- `bipbuf_poll` removes the front of the queue only up to the size of region A
  (`BipBuffer.PollDequeues`).
- Response bundles need at least two slots (`RespBundles.SlotsNeeded`).

## Model

| member | source | states |
|---|---|---|
| `Crc32cSpec.Crc32cIsRegister` | memcached/crc32c.c:379-410 | the bit-serial CRC-32C of a message, defined bit by bit from the polynomial, is the same register taken byte by byte |
| `Crc32cSpec.ZerosLinear` | memcached/crc32c.c:79-116 | feeding zeros is linear: the register of an exclusive or is the exclusive or of the registers |
| `Crc32cSpec.ZerosCompose` | memcached/crc32c.c:79-116 | feeding m zero bits and then n is feeding m + n |
| `Crc32cSpec.RegisterCombine` | memcached/crc32c.c:180-225 | the register of two joined blocks is the first register pushed through as many zeros as the second block is long, combined with the second block started at zero |
| `Crc32cSpec.ChunkingIndependence` | memcached/crc32c.h:11-14 | a message fed in any number of pieces of any sizes gives the CRC of the whole message |
| `Crc32cResidue.PolyIsCastagnoli` | memcached/crc32c.c:48-49 | the constant of the code has the coefficients of the Castagnoli polynomial below x^32 in reversed order |
| `Crc32cResidue.RegisterIsRemainder` | memcached/crc32c.c:352-365 | after any bits the register, read as a polynomial, is congruent to what it held times x^n plus the bits times x^32, modulo the Castagnoli polynomial |
| `Crc32cResidue.RemainderIsUnique` | memcached/crc32c.c:352-365 | two words congruent modulo the polynomial are equal |
| `Crc32cResidue.CrcIsRemainder` | memcached/crc32c.c:379-410 | a word is the CRC of a message, continued from another, if and only if its complement is congruent to the message times x^32 with the complement of the earlier CRC in front, the earliest bit the highest power |
| `Crc32cResidue.ResidueIsConstant` | memcached/crc32c.c:379-410 | for every start and message, the message followed by its own CRC has the CRC 0x48674bc7, the residue of CRC-32C |
| `Crc32cHardware.MatrixTimes` | memcached/crc32c.c:61-70 | the loop over the bits of a vector computes the product with the matrix, i.e. the exclusive or of the rows its set bits select |
| `Crc32cHardware.TimesOperator` | memcached/crc32c.c:61-70 | multiplying by a matrix whose rows are the images of single bits applies the operator to every word |
| `Crc32cHardware.MatrixSquare` | memcached/crc32c.c:74-77 | the square of the operator for n zero bits is the operator for 2n |
| `Crc32cHardware.ZerosOperator` | memcached/crc32c.c:84-116 | repeated squaring ends with the operator for len zero bytes when len is a power of two; for any other len it is the operator of the largest power of two below |
| `Crc32cHardware.FloorPow2Meaning` | memcached/crc32c.c:79-116 | exactly which number of zero bytes the operator stands for: the largest power of two not above len |
| `Crc32cHardware.ZerosTables` | memcached/crc32c.c:120-130 | entry n of table k is the operator applied to byte n shifted into place k |
| `Crc32cHardware.Shift` | memcached/crc32c.c:133-136 | four table look-ups equal feeding the zeros to any register, because the operator is linear |
| `Crc32cHardware.BlockPowers` | memcached/crc32c.c:141-157 | the block sizes in use are powers of two, so the tables stand for exactly LONG and SHORT zeros |
| `Crc32cHardware.Hardware.constructor` | memcached/crc32c.c:154-157 | initialisation leaves both tables correct |
| `Crc32cHardware.Hardware.ThreeBlocks` | memcached/crc32c.c:183-219 | three interleaved streams recombined with the tables equal one pass over three blocks, for both block sizes and any number of rounds |
| `Crc32cHardware.Hardware.BytesToBoundary` | memcached/crc32c.c:160-183 | the bytes before alignment are a prefix processed one by one |
| `Crc32cHardware.Hardware.Crc` | memcached/crc32c.c:160-245 | for every start value, buffer and alignment the three-way routine returns the bit-serial CRC-32C |
| `Crc32cSoftware.RegisterIsSlices` | memcached/crc32c.c:386-402 | eight bytes at once: the register is the exclusive or of eight table entries |
| `Crc32cSoftware.SlicingStep` | memcached/crc32c.c:395-402 | one round of slicing by eight equals eight rounds byte by byte |
| `Crc32cSoftware.ByteEntry` | memcached/crc32c.c:358-366 | the shifting loop computes the register of one byte |
| `Crc32cSoftware.LittleEndian.constructor` | memcached/crc32c.c:355-375 | all eight tables hold byte n followed by k zero bytes |
| `Crc32cSoftware.LittleEndian.Crc` | memcached/crc32c.c:379-410 | for every start value, buffer and alignment slicing by eight returns the bit-serial CRC-32C |
| `Crc32cSoftware.SwapTwice` | memcached/crc32c.c:412-422 | swapping the bytes of a word twice gives the word back |
| `Crc32cSoftware.BigIsSwappedLittle` | memcached/crc32c.c:412-422 | a word read in the other byte order is the swapped word |
| `Crc32cSoftware.BigEndian.constructor` | memcached/crc32c.c:428-449 | the tables of the other byte order hold the swapped entries |
| `Crc32cSoftware.BigEndian.Crc` | memcached/crc32c.c:453-484 | the routine for the other byte order also returns the bit-serial CRC-32C, so all three routines agree |
| `ExtstoreTheorems.InitValid` | memcached/extstore.c:331-366 | initialisation puts every page but page 0 on exactly one free list, with matching counts of pages, write buffers and IO objects |
| `ExtstoreTheorems.RunValid` | memcached/extstore.c:402-994 | every state of every run of writers, flush callbacks, IO threads, deletes, closes and the maintenance thread satisfies the invariant of pages, lists, buffers, IO objects, queues and data |
| `ExtstoreRuns.StepKeeps` | memcached/extstore.c:402-994 | each critical section, as one step in any interleaving, keeps that invariant |
| `ExtstoreReads.ReadsReturnWhatWasWritten` | memcached/extstore.c:782-820 | in every run, a read that is answered holds, for every object stored earlier inside its range under its version, exactly the bytes stored, whether it asks for that object or for any range in one block |
| `ExtstoreReads.AnswerAgrees` | memcached/extstore.c:739-849 | an answer from the write buffer agrees with every stored object inside the range, one from disk with every one that has been flushed |
| `ExtstoreReads.StillInBuffer` | memcached/extstore.c:715-732 | an object behind the written part of its page lies in the write buffer, where _read_from_wbuf looks |
| `ExtstoreReads.OnDisk` | memcached/extstore.c:801-820 | an object of the current version outside the buffer is on disk |
| `ExtstoreReads.DiskAgreesExactly` | memcached/extstore.c:782-820 | a read from disk agrees with an object inside its range, whatever else is on the disk, if and only if the object is not in the write buffer of its page or the buffer has just been written out |
| `ExtstoreFailures.StaleReadIsReachable` | memcached/extstore.c:782-820 | a run from initialisation in which a read over two stored objects is answered with a byte that was never stored |
| `ExtstoreReads.ReadsAcrossMayBeStale` | memcached/extstore.c:735-737 | the condition on ranges is needed: for every read from disk that reaches over an object still in the buffer there is a state, the same but for the disk, in which the answer differs from the object |
| `ExtstoreReads.WholeBufferRead` | memcached/storage.c:918-950 | reading back a whole buffer, from disk or while it is on its way there, gives the objects stored in it one after the other, then zeros |
| `ExtstoreReads.BlockOnOneSide` | memcached/extstore.c:467-493 | what is written of a page is whole buffers, so a range in one block is not partly in the buffer |
| `ExtstoreReads.ReadStopsExactly` | memcached/extstore.c:715-719 | a read trips the assertions of _read_from_wbuf or runs past the buffer exactly if it asks an open page for more than has been allotted |
| `ExtstoreFailures.BeyondAllottedStops` | memcached/extstore.c:712-719 | every run that leaves a page open that has not been allotted in full, and an IO thread idle, goes on in three steps to one where a read stops the process |
| `ExtstoreFailures.StoppingReadIsReachable` | memcached/extstore.c:712-719 | such a run from initialisation |
| `ExtstoreReads.ObjectReadsDoNotStop` | memcached/extstore.c:715-719 | the read of a stored object never does |
| `ExtstoreTheorems.ObjectsBelow` | memcached/extstore.c:586-604 | a new object goes behind all objects of its page and version: no byte is given out twice under one version |
| `ExtstoreTheorems.OnExactlyOneList` | memcached/extstore.c:402-436 | a page in use is on the list of its bucket only, a free one on the free list of its home only |
| `ExtstoreTheorems.StepVersions` | memcached/extstore.c:402-436 | a version changes only by drawing the next number for a free page or by freeing an unread page |
| `ExtstoreTheorems.PinnedPageStays` | memcached/extstore.c:852-898 | a page with a reader is neither freed nor reused by any step |
| `ExtstoreTheorems.VersionsNeverReused` | memcached/extstore.c:151-153 | versions handed to pages strictly grow over every run |
| `ExtstoreWriters.SecondAllocation` | memcached/extstore.c:402-436 | right after an allocation the first assertion of _allocate_page holds if and only if there was no page to allocate |
| `ExtstoreWriters.TwoAllocations` | memcached/extstore.c:549-558 | of two writers that found the same head full, the second to allocate stops the process if and only if the first got a page |
| `ExtstoreWriters.OvertakenWriterStops` | memcached/extstore.c:530-559 | from every state with two writers at rest and a head that takes no more, six steps stop the process if and only if there is a page to be had |
| `ExtstoreWriters.StopIsReachable` | memcached/extstore.c:402-404 | a run from initialisation in which that happens |
| `ExtstoreWriters.EntitledKeeps` | memcached/extstore.c:547-559 | whatever other threads do, a writer that found its page full may allocate, as long as no other writer was given a page of its bucket |
| `ExtstoreWriters.OnlyOvertakenWritersStop` | memcached/extstore.c:402-404 | in every run, when the assertion fails for a writer, another writer was given a page of its bucket while it was under way |
| `ExtstoreWriters.OneWriterEachNeverStops` | memcached/storage.c:500-514 | with one writer to a bucket at a time, as storage.c has it, the assertion never fails |
| `ExtstoreModel.IoAvailable` | memcached/extstore.c:498-519 | _submit_wbuf never finds the IO stack empty |
| `ExtstoreWrites.SubmitKeeps` | memcached/extstore.c:498-519 | submitting a buffer keeps the invariant: one IO object moves from the stack to one queue |
| `ExtstoreWrites.AllocateWbufKeeps` | memcached/extstore.c:439-459 | attaching a write buffer keeps the invariant |
| `ExtstoreWrites.StoreKeeps` | memcached/extstore.c:586-604 | storing an object keeps the invariant: buffer, offsets, counters and the memory of what was written |
| `ExtstoreWrites.StoreKeepsBlocks` | memcached/extstore.c:586-604 | the used part of a buffer is objects, each right behind the one before |
| `ExtstoreWrites.SubmitKeepsBlocks` | memcached/extstore.c:504-507 | from when a buffer is submitted, zeros follow its objects |
| `ExtstoreFlush.FlushDoneBlocks` | memcached/extstore.c:467-493 | a flushed buffer, objects and zeros, becomes the next block of its page on disk |
| `ExtstoreFlush.PwriteKeeps` | memcached/extstore.c:822-826 | writing a buffer out keeps the invariant |
| `ExtstoreFlush.FlushDoneKeeps` | memcached/extstore.c:467-493 | the flush callback keeps the invariant: the buffer goes back, a full page turns inactive |
| `ExtstoreSteps.SubmitReadsKeeps` | memcached/extstore.c:611-644 | queueing reads of any ranges keeps depth equal to queue length, and the invariant |
| `ExtstoreSteps.TakeBatchKeeps` | memcached/extstore.c:753-768 | taking a batch off a queue keeps order and depth |
| `ExtstoreSteps.ReadBeginKeeps` | memcached/extstore.c:782-800 | pinning a page for a read keeps the reader counts exact |
| `ExtstoreSteps.ReadEndKeeps` | memcached/extstore.c:838-843 | releasing it does too |
| `ExtstoreSteps.DeleteKeeps` | memcached/extstore.c:649-682 | deleting an object keeps the counters of its page |
| `ExtstoreSteps.CloseKeeps` | memcached/extstore.c:697-707 | closing a page keeps the invariant |
| `ExtstoreRuns.FreeKeeps` | memcached/extstore.c:852-898 | freeing an unread page moves it from its bucket to its home list and keeps the counts |
| `ExtstoreRuns.EvictKeeps` | memcached/extstore.c:913-994 | the eviction at the end of a scan keeps the invariant |
| `ExtstoreEviction.OldestIsEvicted` | memcached/extstore.c:913-983 | in every run: if no page was left when a scan began and it came by none it could free, then of all pages in use and full that it came by, the one with the lowest version is closed, and freed if nobody reads it; otherwise nothing happens; and it has visited every page |
| `ExtstoreEviction.ScanNotes` | memcached/extstore.c:935-964 | at every event of a scan the maintenance thread has noted the oldest page it came by, and whether evicting is still called for |
| `ExtstoreEviction.VisitFrees` | memcached/extstore.c:935-964 | a visit frees a page in use that is empty or closed and has no readers, to the list it belongs to, and does nothing to any other |
| `ExtstoreEviction.MaintStays` | memcached/extstore.c:913-983 | no other thread touches what the maintenance thread has noted |
| `ExtstoreCounts.CountsHold` | memcached/extstore.c:586-604 | in every run from a store without objects, a page in use counts at most the objects stored in it and no fewer than those without the deletions reported; exactly that, if never more were reported than it counted |
| `ExtstoreCounts.StepTallies` | memcached/extstore.c:649-680 | every step keeps that tally: storing adds one, a report takes away what it names, and a page given out starts anew |
| `ExtstoreCounts.FreedPagesAreEmpty` | memcached/extstore.c:935-964 | a page that a scan frees without its having been closed held no more objects than were reported as deleted |
| `NextLists.Pop` | memcached/extstore.c:405-415 | taking the head off one list leaves all lists that share the next field standing, and the object on none |
| `NextLists.Push` | memcached/extstore.c:421-422 | putting an object that is on no list in front of one leaves all standing |
| `NextLists.UnlinkAt` | memcached/extstore.c:862-876 | unlinking at any position, by the writes of a walk with a trailing pointer, leaves all lists standing and the object on none |
| `NextLists.Join` | memcached/extstore.c:626-636 | hanging a stack of objects behind the last of a queue joins the two lists and leaves all others standing |
| `NextLists.Split` | memcached/extstore.c:753-768 | cutting behind position n makes two lists of one and leaves all others standing |
| `ExtstoreMemory.PageListsApart` | memcached/extstore.c:56-74 | one next field is enough for free lists and buckets: the fields of a page say which list it is on |
| `ExtstoreMemory.UnlinkBucket` | memcached/extstore.c:862-876 | the writes of _free_page take the page out of its bucket, wherever it is in it, and leave all free lists and buckets standing |
| `ExtstoreMemory.AppendQueue` | memcached/extstore.c:611-644 | a stack handed to extstore_submit becomes the end of the queue, empty or not |
| `ExtstoreMemory.SplitQueue` | memcached/extstore.c:753-768 | a batch is the front of the queue, and the queue the rest |
| `ExtstoreEngine.Engine.constructor` | memcached/extstore.c:221-394 | the loops link pages, buffers and IO objects into the lists the state machine starts with |
| `ExtstoreEngine.Engine.PickThread` | memcached/extstore.c:130-149 | the first of the IO threads of least depth |
| `ExtstoreEngine.Engine.TakeFreePage` | memcached/extstore.c:402-415 | pops the list asked for if it has pages, else the general one; the page is then on no list |
| `ExtstoreEngine.Engine.ActivatePage` | memcached/extstore.c:420-430 | a page that is on no list heads its bucket under the next version, all lists standing |
| `ExtstoreEngine.Engine.AllocatePage` | memcached/extstore.c:402-436 | both parts when the assertion holds; when it fails the process stops with nothing changed |
| `ExtstoreEngine.Engine.BeginWriteRequest` | memcached/extstore.c:530-545 | takes that step of the state machine by the bucket pointer; a bucket that does not exist is refused |
| `ExtstoreEngine.Engine.AllocateAfterFullPage` | memcached/extstore.c:549-558 | takes that step; the process stops if and only if the head of the bucket is not full |
| `ExtstoreEngine.Engine.AllocateBuffer` | memcached/extstore.c:439-459 | the page gets the top of the buffer stack, which stays linked, or nothing |
| `ExtstoreEngine.Engine.SubmitBuffer` | memcached/extstore.c:498-519 | the top of the IO stack goes to the end of the queue of the least loaded thread, all lists standing |
| `ExtstoreEngine.Engine.AttemptOnPage` | memcached/extstore.c:560-576 | flushes or fills as the state machine does; what is stored lies behind all objects of its page and version |
| `ExtstoreEngine.Engine.AttemptWriteRequest` | memcached/extstore.c:547-581 | takes that step of the state machine; a returned address holds the data behind all objects of its page and version |
| `ExtstoreEngine.Engine.Store` | memcached/extstore.c:586-604 | an object is placed behind all objects of its page and version, every other stays, the store stays valid, and the answer to a read of the returned address is the data |
| `ExtstoreEngine.Engine.SubmitReadIos` | memcached/extstore.c:611-644 | takes that step: the caller's objects, none in use, go to the end of the queue of the least loaded thread |
| `ExtstoreEngine.Engine.TailPointer` | memcached/extstore.c:626-636 | unless a queue is empty its tail pointer leads to its last object, so both assertions of extstore_submit hold |
| `ExtstoreEngine.Engine.FindBatchEnd` | memcached/extstore.c:753-764 | the walk ends at the last object of the batch, and says if the queue ran out |
| `ExtstoreEngine.Engine.TakeIoBatch` | memcached/extstore.c:753-768 | takes that step; a tail pointer left behind by a full batch does no harm |
| `ExtstoreEngine.Engine.FinishIo` | memcached/extstore.c:772-776 | the thread goes on to the object it noted, and the one it is done with is on no list |
| `ExtstoreEngine.Engine.LockPageForRead` | memcached/extstore.c:782-800 | takes that step; an answer is the one the theorems on reads are about, and a miss is exactly a page without the version asked for |
| `ExtstoreEngine.Engine.ReadDisk` | memcached/extstore.c:801-820 | takes that step and answers from the pinned page |
| `ExtstoreEngine.Engine.ReleasePage` | memcached/extstore.c:838-843 | drops the pin, which is there |
| `ExtstoreEngine.Engine.WriteDisk` | memcached/extstore.c:822-826 | takes that step: a full buffer goes to its place |
| `ExtstoreEngine.Engine.FlushCallback` | memcached/extstore.c:467-493 | takes that step; both assertions hold, and buffer and IO object go back on their stacks |
| `ExtstoreEngine.Engine.NoteDelete` | memcached/extstore.c:649-682 | takes that step; it succeeds exactly for a matching open version |
| `ExtstoreEngine.Engine.ClosePage` | memcached/extstore.c:697-707 | takes that step |
| `ExtstoreEngine.Engine.UnlinkPage` | memcached/extstore.c:862-876 | the walk finds the page in its bucket, and the page is then on no list |
| `ExtstoreEngine.Engine.ReclaimPage` | memcached/extstore.c:852-898 | the page goes from its bucket to its free list, all lists standing |
| `ExtstoreEngine.Engine.StartMaintScan` | memcached/extstore.c:913-934 | takes that step: whether the scan will evict |
| `ExtstoreEngine.Engine.ScanOnePage` | memcached/extstore.c:935-964 | takes that step: a closed or empty page without readers is freed, the oldest noted |
| `ExtstoreEngine.Engine.EvictOldest` | memcached/extstore.c:966-983 | takes that step: the page with the lowest version is closed, and freed if nobody reads it |
| `Assoc.FindAgrees` | memcached/assoc.c:70-94 | during an expansion, too, the chain that assoc_find selects holds the item of the key if there is one, once |
| `Assoc.InsertRefines` | memcached/assoc.c:149-166 | an insertion at the head of the selected chain is an insertion into one map |
| `Assoc.DeleteRefines` | memcached/assoc.c:168-185 | a deletion from the selected chain is a deletion from one map |
| `Assoc.ExpandRefines` | memcached/assoc.c:118-137 | starting an expansion changes no content |
| `Assoc.MigrateRefines` | memcached/assoc.c:193-239 | moving a bucket loses, duplicates and misplaces nothing |
| `Assoc.MigrateSplits` | memcached/assoc.c:209-225 | an old bucket b goes only to b and b plus half the new size |
| `Assoc.DeleteLinks` | memcached/assoc.c:168-185 | the pointer writes of a deletion leave both tables with exactly the chains of the map |
| `Assoc.MigrateOne` | memcached/assoc.c:209-220 | relinking one item keeps the rest of the old chain and all new chains |
| `Assoc.Table.constructor` | memcached/assoc.c:55-68 | an empty table stands for the empty map |
| `Assoc.Table.Find` | memcached/assoc.c:70-94 | returns the item of the key in the map, or null |
| `Assoc.Table.Walk` | memcached/assoc.c:99-115 | finds the item in its chain together with the pointer before it |
| `Assoc.Table.Insert` | memcached/assoc.c:149-166 | adds exactly that key, at the head of its chain and of no other |
| `Assoc.Table.Delete` | memcached/assoc.c:168-185 | removes exactly that key, from its chain and from no other |
| `Assoc.Table.Unhook` | memcached/assoc.c:168-185 | after the pointer writes both tables link exactly their chains, the chain of the item without it |
| `Assoc.Table.ExpandTable` | memcached/assoc.c:118-137 | doubles the table, or keeps it when memory is short; contents stay |
| `Assoc.Table.MigrateBucket` | memcached/assoc.c:193-239 | moves one bucket, advances the frontier and ends the expansion behind the last; contents stay |
| `AssocRuns.Run` | memcached/assoc.c:70-239 | any run of insertions, deletions, look-ups, expansion starts and migrations answers like a plain map |
| `AssocRuns.IterateKeeps` | memcached/assoc.c:309-351 | a call returns only what is in the table and was not returned, and passes over nothing that was not |
| `AssocRuns.ReturnedExactlyOnce` | memcached/assoc.c:299-360 | in every walk with insertions and deletions in between, no item is returned twice, and at the end every item that was there at the start and was not deleted has been returned once |
| `AssocRuns.Cursor.Advance` | memcached/assoc.c:309-351 | the pointer form of the iterator takes the steps of that walk |
| `AssocRuns.StepKeeps` | memcached/assoc.c:299-360 | insertions and deletions in other buckets, and deletion of items already returned, keep what is still to be returned the end of its chain |
| `AssocRuns.OneLock` | memcached/thread.c:119-121 | a thread that holds the item lock of a bucket keeps all keys of the bucket from others: locks are chosen by fewer bits |
| `AssocRuns.Cursor.Step` | memcached/assoc.c:299-360 | on the table in memory: the saved next pointer stays right through Insert and Delete |
| `AssocRuns.Cursor.WalkAll` | memcached/assoc.c:299-360 | on the table in memory, a whole walk mixed with insertions and deletions returns every item that stayed exactly once, and none twice |
| `LruList.LinkHeadForms` | memcached/items.c:406-420 | the pointer writes put the item at the head of a well-formed doubly linked list |
| `LruList.UnlinkForms` | memcached/items.c:446-463 | they take any item out of a well-formed list |
| `LruList.LinkTailForms` | memcached/items.c:1731-1750 | they put the crawler at the tail |
| `LruList.SwingForms` | memcached/items.c:1796-1827 | the shuffle of the crawler swaps it with the entry before it, wherever it stands, and returns that entry |
| `LruList.CrawlEnds` | memcached/items.c:1783-1791 | popping the crawler off the head and then unlinking it leaves the list of the others, also when it was alone |
| `LruTable.Redone` | memcached/items.c:406-476 | work on one list leaves every other list standing, though all share the pointer fields |
| `LruCrawler.WalkIsComplete` | memcached/items.c:1775-1827 | from tail to head the crawler is handed every item that stays linked exactly once, whatever is linked at the head or unlinked meanwhile |
| `LruCrawler.CrawlKeepsOrder` | memcached/items.c:1796-1827 | its steps never change the order of the items |
| `Items.LinkItemKeeps` | memcached/items.c:484-504 | linking keeps the invariant: linked exactly when in the hash table and in one list, reference counts and all four counters exact |
| `Items.DetachKeeps` | memcached/items.c:506-519 | so does unlinking, up to the last reference |
| `Items.UnlinkItemKeeps` | memcached/items.c:506-535 | so does unlinking with the freeing that may follow |
| `Items.FreeKeeps` | memcached/items.c:348-360 | a freed item is unlinked, without references and in no list |
| `Items.ReleaseKeeps` | memcached/items.c:537-545 | giving a reference back keeps the invariant and frees exactly at the last one |
| `Items.MoveKeeps` | memcached/items.c:548-575 | moving an item to the head of a list of its class keeps the invariant |
| `ItemsOps.AllocateKeeps` | memcached/items.c:303-346 | a new item starts with one reference in the list its lifetime and the settings select |
| `ItemsOps.UpdateKeeps` | memcached/items.c:548-575 | an update keeps the invariant, all holders and all items |
| `ItemsOps.ReplaceKeeps` | memcached/items.c:577-584 | replacing redirects the key to the new item and adjusts the byte count by the difference |
| `ItemsOps.BumpKeeps` | memcached/items.c:1041-1066 | bumping keeps the invariant, also when the bump buffer takes a reference |
| `ItemsOps.HeldStays` | memcached/items.c:506-545 | unlinking an item that somebody holds does not free it |
| `ItemsOps.GetKeeps` | memcached/items.c:956-1036 | fetching keeps the invariant, also when it reclaims an expired or flushed item |
| `ItemsAnswers.Answers` | memcached/items.c:956-1036 | a key is answered if and only if it is in the table and its item has neither expired nor been flushed; then with that item, one holder more and the same key, size and time to live; an item that has ended is then in no list and its key not in the table |
| `ItemsAnswers.LinkedAnswers` | memcached/items.c:484-504 | after linking, the key is answered with that item until it expires or is flushed |
| `ItemsAnswers.UnlinkedNotAnswered` | memcached/items.c:506-524 | after unlinking, the key is not answered |
| `ItemsAnswers.NewItemHeads` | memcached/items.c:306-317 | a new item, once linked, heads the TEMP, HOT or COLD list of its class, by its time to live and the settings |
| `ItemsAnswers.HitsMark` | memcached/items.c:1041-1072 | with segments the first hit marks an item fetched and the second active, in COLD only if the bump buffer takes it, and no list changes |
| `ItemsAnswers.UpdatePlaces` | memcached/items.c:548-584 | an active item of COLD goes to the head of WARM; without segments one not asked for in a minute goes to the head of its list; others keep their places |
| `ItemsAnswers.ColdHitWarms` | memcached/items.c:1041-1072 | a hit in COLD leads to the head of WARM once its bump buffer entry is worked off |
| `ItemsOps.CrawlStepKeeps` | memcached/items.c:1775-1827 | a crawler in a list changes no counter and no membership |
| `ItemsPullTheorems.PullTailIsSafe` | memcached/items.c:1081-1255 | a call keeps the invariant, unlinks only expired or flushed items and at most one evicted one, touches no other list and no locked item, takes nothing from its holders, and counts at most five |
| `ItemsPullOutcome.OutdatedGoes` | memcached/items.c:1136-1152 | an expired or flushed item that the walk can lock first is afterwards in no list and its key not in the table |
| `ItemsPullOutcome.StopsThere` | memcached/items.c:1154-1255 | of all other items the first it can lock stops the walk: evicted from COLD it is in no list and its key gone; over the limit or too old in HOT or WARM it heads COLD; active in HOT, or in COLD on a plain walk, it heads WARM; each counts as one, and in all other cases nothing changes |
| `ItemsPullOutcome.ActiveStays` | memcached/items.c:1162-1174 | an active item of WARM that the walk can lock first stays linked and loses its mark |
| `ItemsPullOutcome.PullFades` | memcached/items.c:1081-1255 | the walk links nothing, marks nothing active and changes no key |
| `ItemsPullExact.LeaksExactly` | memcached/items.c:1219-1251 | for all caches, clocks and locks a call with given flags gives back or hands over every reference it takes, if and only if it has no class, was not asked for an item, or walks COLD without evicting |
| `ItemsPullExact.LeakForEveryTail` | memcached/items.c:1240-1251 | for every cache whose tail item is plain, asking for an item outside a plain walk of COLD keeps a reference nobody has |
| `ItemsPullExact.CountIsExact` | memcached/items.c:1078-1112 | the number returned differs from that of the items unlinked or moved, and is 0, if and only if crawlers block and fewer than five items stand behind a crawler, all locked elsewhere, expired, flushed or active in WARM, one of them not locked |
| `ItemsPullExact.MiscountsExactly` | memcached/items.c:1078-1112 | for all caches, clocks and locks a call with given flags returns the number of items it unlinked or moved, if and only if it has no class or no crawler may block it |
| `ItemsPullExact.CrawlerBefore` | memcached/items.c:1078-1090 | a valid cache in which a crawler stands in front of an expired item, so that every call it may block returns 0 after reclaiming one |
| `ItemsPull.PassOneList` | memcached/items.c:1101-1107 | after an item was reclaimed or requeued, the saved predecessor is where the walk goes on |
| `ItemsRuns.StepKeeps` | memcached/items.c:348-584 | every operation, in any order, keeps the invariant of the cache |
| `ItemsRuns.EveryRunIsSound` | memcached/items.c:348-584 | in every reachable state an item is linked exactly when it is in the hash table and in the one list it names, and all counts are exact |
| `ItemsRuns.HeldItemsStay` | memcached/items.c:506-545 | whatever happens, an item keeps its memory, key, size and holders until its holder gives it back |
| `ItemsRuns.HeldInRun` | memcached/items.c:506-545 | in every run, from when somebody holds an item until they give it back, it is there with its key, its size and all its holders |
| `ItemsCrawl.EventShifts` | memcached/items.c:348-584 | every operation changes a list that is crawled by linking at its head and unlinking items that it takes out of the list, requeues or updates |
| `ItemsCrawl.PullShifts` | memcached/items.c:1078-1251 | so does the walk from the tail, for every list: an item it unlinks loses its list, its link or its active mark |
| `ItemsCrawl.WalkInRun` | memcached/items.c:1775-1827 | in every run of the cache, from when the crawler is put at the tail of a list, no item that keeps its place is handed out twice, and once the crawler is at the head every such item in the list has been handed out |
| `ItemsRuns.DrainKeeps` | memcached/items.c:1319-1352 | working off a bump buffer entry keeps the invariant |
| `ItemsCache.Cache.LinkAtHead` | memcached/items.c:406-431 | the item heads its list, sizes and bytes follow |
| `ItemsCache.Cache.UnlinkFromList` | memcached/items.c:446-476 | the item leaves its list, sizes and bytes follow |
| `ItemsCache.Cache.Free` | memcached/items.c:348-360 | the four conditions the source asserts hold whenever an item is freed |
| `ItemsCache.Cache.Remove` | memcached/items.c:537-545 | drops one reference and frees at zero |
| `ItemsCache.Cache.GiveBack` | memcached/items.c:537-545 | the same for a holder, keeping the invariant |
| `ItemsCache.Cache.TakeReference` | memcached/items.c:956-960 | one more reference, one more holder |
| `ItemsCache.Cache.LinkIn` | memcached/items.c:484-504 | links an item with a new time and id, in table, list and counters at once |
| `ItemsCache.Cache.UnlinkOut` | memcached/items.c:506-535 | undoes that, and frees if nobody holds the item |
| `ItemsCache.Cache.Update` | memcached/items.c:548-575 | touches the time, moves an active COLD item to WARM, or in the old mode relinks items older than a minute |
| `ItemsCache.Cache.Replace` | memcached/items.c:577-584 | unlink and link under one key |
| `ItemsCache.Cache.BumpAsync` | memcached/items.c:1290-1311 | takes a reference for the bump buffer if and only if it has room |
| `ItemsCache.Cache.BumpItem` | memcached/items.c:1041-1066 | the two-hit rule for active items, and the queueing of COLD ones |
| `ItemsCache.Cache.Fetch` | memcached/items.c:956-1036 | the item of the key with a reference, or nothing if it is missing, expired or flushed, which then is unlinked |
| `ItemsCache.Cache.DrainBump` | memcached/items.c:1332-1343 | updates the item and gives the reference of the buffer back |
| `ItemsCache.Cache.AllocateItem` | memcached/items.c:303-346 | the fields of a new item and its first list |
| `ItemsCache.Cache.PullTheTail` | memcached/items.c:1081-1255 | terminates and does exactly what the walk over the list prescribes, though it follows pointers while the list changes |
| `ItemsCache.Cache.constructor` | memcached/items.c:55-59 | an empty cache satisfies the invariant |
| `ItemsCache.Cache.HookTail` | memcached/items.c:1731-1750 | all lists stand, one with the entry behind its old tail |
| `ItemsCache.Cache.SwingForward` | memcached/items.c:1796-1827 | all lists stand, in one the crawler has changed places with the entry before it, to which it now leads |
| `ItemsCache.Cache.TakeOff` | memcached/items.c:1783-1791 | all lists stand, one without its head, the crawler |
| `ItemsCache.Cache.StartCrawler` | memcached/crawler.c:582-618 | an idle crawler is put at the tail, a running one left alone |
| `ItemsCache.Cache.CrawlOnce` | memcached/crawler.c:444-452 | hands out the entry in front, or, at the head, takes the crawler off and leaves a well-formed list |
| `ItemsCache.Cache.ClassDone` | memcached/crawler.c:341-350 | takes the crawler out of its list from any place |
| `Transmit.AddIovAppends` | memcached/memcached.c:1028-1035 | a piece added to a response is sent after all others, and tosend stays the sum of the lengths |
| `Transmit.AddChunkedIovAppends` | memcached/memcached.c:1040-1044 | a chunked value likewise, exactly when it is not the first piece |
| `Transmit.ConsumedBytes` | memcached/memcached.c:2634-2652 | n sent bytes are exactly the first n bytes of a response, across plain and chunked pieces |
| `Transmit.DroppedStream` | memcached/memcached.c:2613-2661 | after n sent bytes exactly the first n bytes of the whole stream are gone |
| `Transmit.ChunkPieces` | memcached/memcached.c:2562-2588 | the pieces of a chunked value are the part not yet sent, all of it unless the gather list fills up, at least a byte if there is room |
| `Transmit.ChunkedPieces` | memcached/memcached.c:2552-2596 | the pieces of a response with a chunked value are a prefix of what it has to send |
| `Transmit.TransmitPre` | memcached/memcached.c:2544-2607 | the gather list stays below IOV_MAX, is a prefix of what is to be sent, all of it unless nearly full, and never empty when the head has bytes |
| `Transmit.PlainPieces` | memcached/memcached.c:2595-2598 | a response without chunks is copied piece by piece |
| `Transmit.RespPieces` | memcached/memcached.c:2553-2598 | both forms together |
| `Transmit.ConsumeResp` | memcached/memcached.c:2632-2652 | the loop over the pieces of one response |
| `Transmit.Conn.TransmitPost` | memcached/memcached.c:2613-2661 | drops what was sent from the queue |
| `Transmit.Conn.Transmit` | memcached/memcached.c:2672-2725 | what goes out is the front of the stream and only that leaves the queue; complete means empty; every successful call makes progress |
| `Transmit.SessionDelivers` | memcached/memcached.c:2672-2725 | however the writes are cut, the peer receives the responses byte for byte in order |
| `RespBundles.FindFree` | memcached/memcached.c:1056-1065 | the search around the bundle finds a free slot if and only if there is one |
| `RespBundles.ValidSearch` | memcached/memcached.c:1056-1084 | an open bundle always has a free slot, so the assertion behind the search holds |
| `RespBundles.SlotsNeeded` | memcached/memcached.c:1083-1102 | after a new bundle was started the next search succeeds if and only if a bundle has more than one slot |
| `RespBundles.LinkedIsOpen` | memcached/memcached.c:1109-1148 | the pointer test for being linked tells exactly the bundles that are not full |
| `RespBundles.TakeOpen` | memcached/memcached.c:1067-1080 | a bundle that fills up leaves the open list, which stays well-formed |
| `RespBundles.GiveOpen` | memcached/memcached.c:1113-1151 | after a slot is given back the open list again holds exactly the bundles that are not full |
| `RespBundles.GiveCounts` | memcached/memcached.c:1109-1117 | reference counts stay the number of slots in use |
| `RespBundles.Thread.Allocate` | memcached/memcached.c:1051-1107 | hands out a slot that nobody uses and changes no other; fails only without memory and with all bundles full |
| `RespBundles.Thread.Free` | memcached/memcached.c:1109-1153 | frees exactly that slot |
| `RespBundles.Thread.TakeFrom` | memcached/memcached.c:1058-1080 | exactly that slot becomes used, counts and open list stay right, and a bundle that is full now leaves the list |
| `RespBundles.Thread.StartBundle` | memcached/memcached.c:1086-1103 | exactly the first slot of the new bundle becomes used, and the bundle is the open list |
| `RespBundles.Thread.GiveBack` | memcached/memcached.c:1109-1153 | the assertions of the source hold on every path |
| `ChunkCopy.Target.Extend` | memcached/items.c:221-245 | a full chunk is followed by one with room for what remains, up to the largest chunk |
| `ChunkCopy.FindRoom` | memcached/memcached.c:1456-1464 | copying starts in the last chunk, the only one that may have room |
| `ChunkCopy.Target.CopyWhole` | memcached/memcached.c:1500-1521 | asks for the number of chunks computed before the call and succeeds if and only if they are all granted; then exactly the first len bytes were appended, and otherwise exactly those that fit before the refusal |
| `ChunkCopy.Target.CopyChunked` | memcached/memcached.c:1466-1499 | the same for a source in chunks of any sizes, empty ones included |
| `ChunkCopy.CopyInto` | memcached/memcached.c:1455-1523 | both forms together; when all allocations but the last are granted every byte is in place, although the copy fails if the last is refused |
| `ChunkCopy.LastReach` | memcached/memcached.c:1500-1521 | before the last allocation everything has been copied |
| `ChunkCopy.NeedsStep` | memcached/memcached.c:1500-1521 | each piece copied leaves the number of allocations needed in all as it was |
| `ChunkCopy.RefusedThoughComplete` | memcached/memcached.c:1511-1517 | for all data: into an item with exactly room for it the copy fails if no chunk can be had, with the whole value in place |
| `ChunkCopy.JoinChunked` | memcached/memcached.c:1525-1549 | append and prepend into chunks: the two values joined, with one line end, if and only if the allocations computed before the call are granted |
| `ChunkCopy.JoinWhole` | memcached/memcached.c:1525-1549 | the same into one piece of memory |
| `CasStore.CasLosesNoUpdate` | memcached/memcached.c:1587-1624 | a cas command that is stored proves that the value read with its id was neither changed nor removed in between |
| `CasStore.IdTellsChange` | memcached/memcached.c:1557-1716 | the id of a key only grows, and is the same only if the value stayed |
| `CasStore.IdsAreUnique` | memcached/items.c:112-117 | all linked items have different ids in every reachable state |
| `CasStore.StepGrows` | memcached/memcached.c:1557-1716 | every command draws a new id for what it stores and changes no other value |
| `CasStore.StoreIsDone` | memcached/memcached.c:1557-1716 | for all six commands: when they are carried out, what they answer otherwise, and what the table holds: the new value, the old value with the new one behind it for append and in front for prepend; only the one key changes, and only then |
| `CasStore.Join` | memcached/memcached.c:1522-1546 | the joined item holds one value and then the other, in one piece or in chunks, and fails exactly if an allocation it needs does |
| `CasStore.DeltaIsDone` | memcached/memcached.c:2221-2332 | incr gives the number the text read as plus the delta, less 2^64 if that is too large; decr gives it less the delta, or 0; each error has its exact condition, and nothing changes then |
| `CasStore.ParseReads` | memcached/util.c:49-72 | a text of blanks, a sign, digits and a blank or nothing is read as the digits, as 2^64 less them behind a minus sign, and not at all if that is too large or negative |
| `CasStore.OnlyNumbersParse` | memcached/util.c:49-72 | no other text is read as a number |
| `CasStore.RenderedNumber` | memcached/itoa_ljust.c:128-140 | the digits written for a number denote it |
| `CasStore.DeltaReadsBack` | memcached/memcached.c:2278-2311 | after incr or decr, in place with blanks or anew, the stored text reads as the number returned |
| `CasStore.DeltaUndone` | memcached/memcached.c:2259-2269 | decr undoes incr if and only if the sum did not wrap |
| `CasStore.Store.GetCasId` | memcached/items.c:112-117 | an id above all ids ever drawn and all ids in the table |
| `CasStore.Store.LinkEntry` | memcached/items.c:484-504 | what is linked gets an id above all others, other items keep value and id, and ids keep what they were drawn for |
| `CasStore.Store.DoStoreItem` | memcached/memcached.c:1557-1716 | the outcome above for all six commands, with and without an existing item, on items in one piece or in chunks; ids stay unique and grow |
| `CasStore.Store.DoAddDelta` | memcached/memcached.c:2221-2332 | the outcome above for incr and decr on all paths, from the number the old text reads as to the number returned and the new text |
| `BipBuffer.WritingIsFree` | memcached/bipbuffer.c:77-89 | what is written at the requested place touches nothing that is queued |
| `BipBuffer.PushAppends` | memcached/bipbuffer.c:91-107 | a push appends what was written there to the queue |
| `BipBuffer.PollDequeues` | memcached/bipbuffer.c:151-180 | a poll takes exactly that many bytes off the front if and only if region A holds as many |
| `BipBuffer.PollTooMuch` | memcached/bipbuffer.c:151-180 | the poll of one byte more passes the test of the source and crosses the indices |
| `BipBuffer.RequestCoversPushes` | memcached/logger.c:514-541 | after a granted request every sequence of pushes and offers within it succeeds |
| `BipBuffer.EveryRunIsFifo` | memcached/bipbuffer.c:77-180 | under every schedule of producer and consumer the polled bytes followed by the queue are the pushed bytes, and peeked bytes stay in place |
| `BipBuffer.Buffer.constructor` | memcached/bipbuffer.c:42-56 | an empty queue |
| `BipBuffer.Buffer.UnusedBytes` | memcached/bipbuffer.c:23-30 | the room for one contiguous write |
| `BipBuffer.Buffer.UsedBytes` | memcached/bipbuffer.c:37-40 | the length of the queue |
| `BipBuffer.Buffer.IsEmpty` | memcached/bipbuffer.c:63-66 | true exactly for the empty queue |
| `BipBuffer.Buffer.Request` | memcached/bipbuffer.c:77-89 | the write position, or nothing if it does not fit |
| `BipBuffer.Buffer.Push` | memcached/bipbuffer.c:91-107 | appends or changes nothing |
| `BipBuffer.Buffer.OfferBytes` | memcached/bipbuffer.c:109-128 | appends the bytes or changes nothing |
| `BipBuffer.Buffer.Peek` | memcached/bipbuffer.c:130-140 | the front of the queue as far as region A goes |
| `BipBuffer.Buffer.PeekAllBytes` | memcached/bipbuffer.c:142-149 | all of region A, the front of the queue |
| `BipBuffer.Buffer.PollBytes` | memcached/bipbuffer.c:151-180 | removes the front of the queue within region A |
| `HashRing.PutNodes` | include/consistent_hash_map.hpp:30-33 | insertion keeps the order and all nodes, and afterwards the hash is taken, by the new node or by the one that had it |
| `HashRing.EraseNodes` | include/consistent_hash_map.hpp:37-40 | erasing by hash removes exactly that hash |
| `HashRing.JoinedRing` | include/hash_ring.hpp:36-60 | after a server joined, the ring is that of its members if and only if it was before and no place of the server was taken |
| `HashRing.LeftRing` | include/hash_ring.hpp:62-71 | after a server left any ring, the ring is that of the other members if and only if they had all their places and share none with the server |
| `HashRing.JoinedAndLeft` | include/hash_ring.hpp:36-71 | a server that joins a whole ring and leaves again leaves it whole if and only if it shares no place with a member |
| `HashRing.LeavingTakesAnother` | include/hash_ring.hpp:62-71 | a ring of two servers with the same place, from which one that leaves takes the other |
| `HashRing.PredecessorIsNext` | include/consistent_hash_map.hpp:42-55 | find_predecessor of a node gives the place after it, which is the place before it if and only if there are at most two |
| `HashRing.OwnerIsNearest` | include/consistent_hash_map.hpp:57-69 | find returns the first place clockwise from the hash |
| `HashRing.RingIsCanonical` | include/hash_ring.hpp:36-71 | the ring depends on the members only, not on the order in which they joined and left |
| `HashRing.OnlyItsKeysMove` | include/hash_ring.hpp:36-71 | a server that joins or leaves moves only keys to or from itself |
| `HashRing.MovedKeysAreListed` | include/hash_ring.hpp:20-34 | every key a server owns would without it belong to one of the threads named as affected |
| `HashRing.CollectIsBounded` | src/hash_ring/hash_ring.cpp:74-101 | the replica walk never finds more servers than there are, so it ends only for replication factors up to that number |
| `HashRing.Ring.Insert` | include/hash_ring.hpp:36-60 | a new server leaves every member at all its places if and only if none of its own is taken; a known one only has its join count raised, or set to 0 if there was none; other addresses keep theirs |
| `HashRing.Ring.Remove` | include/hash_ring.hpp:62-71 | exactly the nodes at a hash of the server go; the others are left at all their places if and only if they had them and share none with it, and always on leaving a whole ring |
| `HashRing.JoinAndLeave` | include/hash_ring.hpp:36-71 | after insert and remove of a new server the ring is whole, and then the same as before, if and only if the server shares no place with a member |
| `HashRing.Ring.Find` | include/consistent_hash_map.hpp:57-71 | the owner of a hash, none for an empty ring |
| `HashRing.Ring.ChangedThreads` | include/hash_ring.hpp:20-34 | each server right behind a place of the given one, once |
| `HashRing.Ring.ResponsibleGlobal` | src/hash_ring/hash_ring.cpp:74-101 | as many different servers as asked for, in clockwise order from the key, the owner first |
| `Md5.AddBitsIsAddition` | memcached/md5.c:328-337 | the two-word bit count with its carry is 64-bit addition |
| `Md5.OffsetFromCount` | memcached/md5.c:322-328 | the fill of the block buffer can be read off the count |
| `Md5.SplitStream` | memcached/md5.c:339-358 | the blocks of a message and more data are those of the message, then those of its rest with the data |
| `Md5.LengthBytesValue` | memcached/md5.c:371-373 | the eight length bytes read, least significant first, as the 64-bit count |
| `Md5.Padded` | memcached/md5.c:360-381 | the padded message is a whole number of blocks |
| `Md5.PaddedIs` | memcached/md5.c:360-381 | the message, a byte 128, the fewest zeros that lead up to eight bytes short of a block, and the length in bits modulo 2^64, low-order byte first |
| `Md5.InitialWords` | memcached/md5.c:312-320 | the registers start with the words of section 3.3 of RFC 1321 |
| `Md5.Hash.constructor` | memcached/md5.c:312-320 | an empty message |
| `Md5.Hash.TopUp` | memcached/md5.c:339-350 | fills the buffer up and processes it exactly when it is full |
| `Md5.Hash.Blocks` | memcached/md5.c:352-354 | processes the full blocks of the data |
| `Md5.Hash.Absorb` | memcached/md5.c:339-358 | processes buffer and data as one stream, as far as whole blocks go |
| `Md5.Hash.Append` | memcached/md5.c:322-358 | after any pieces, the full blocks of their concatenation are processed and the rest is in the buffer |
| `Md5.FourBytes` | memcached/md5.c:379-380 | four digest bytes read, least significant first, as their register |
| `Md5.Hash.WriteOut` | memcached/md5.c:379-380 | the sixteen digest bytes read as the four registers |
| `Md5.Hash.Finish` | memcached/md5.c:360-381 | the digest bytes read as what the blocks of the whole message, padded as in sections 3.1 and 3.2 of RFC 1321, leave in the registers |
| `Base64.SymbolNumber` | memcached/base64.c:53-83 | the decoding table inverts the encoding table |
| `Base64.SymbolIsLetter` | memcached/base64.c:53-54 | the encoding table is the alphabet of section 5.2 of RFC 1341 |
| `Base64.NumberIsPlace` | memcached/base64.c:59-79 | a byte is read as its place in the alphabet, a pad as 0, and nothing else |
| `Base64.GroupIsDigits` | memcached/base64.c:117-123 | the four letters of a group are the base-64 digits of its 24 bits, most significant first |
| `Base64.GroupAt` | memcached/base64.c:117-136 | every group of an encoding is that of its bytes, the last one with zeros and pads for missing bytes |
| `Base64.DecodeInvertsEncode` | memcached/base64.c:93-205 | decoding gives back every string that was encoded, except the empty one |
| `Base64.BoundSuffices` | memcached/base64.c:100-110 | the computed bound covers output and terminator, and a wrapped product is noticed |
| `Base64.EncodeInto` | memcached/base64.c:93-139 | writes the encoding and its terminator, or nothing if room is short |
| `Base64.CountValid` | memcached/base64.c:157-161 | counts the symbols, skipping everything else |
| `Base64.DecodeInto` | memcached/base64.c:150-205 | writes the decoding or fails as specified; the output may be the input, as memcached decodes keys in place |

## Left out

- ExtstoreEngine.Engine.Store: objects of at least one byte, as the callers store headers with every object.
- ExtstoreEngine.Engine.SubmitReadIos: at least one IO object and at least one IO thread; the source would follow a null pointer otherwise. A read that the write buffer cannot serve stops the model, where the source may copy memory behind the buffer.
- ExtstoreEngine.Engine.WriteDisk: disk writes succeed in full; the source does not handle a short one either.
- ExtstoreEngine.Engine.ReadDisk: reads into one buffer; reads scattered over several are not modelled.
- CasStore.Store.DoAddDelta: the source may look for digits or a minus sign past the end of a value of blanks, in the memory behind it; the model looks at the value only.
- CasStore.Store.DoStoreItem: when append or prepend gets an item in one piece, both values must be in one piece too, as the source copies their memory directly; items whose value lies in the external store, which it refuses to extend, are not modelled.
- CasStore.Store.LinkEntry: ids are in use and do not wrap at 64 bits; the replacement of a value by its external header, which keeps the old id, is not modelled.
- ItemsCache.Cache.PullTheTail: one call is one step; the source drops the list lock between taking an item out of one segment and putting it into another, while it still holds the item lock. Tail repair is off.
- ItemsCache.Cache.LinkAtHead: the smaller size of items whose value lies in the external store is not modelled.
- ItemsCache.Cache.TakeReference: the 16-bit width of the reference count is not modelled.
- Md5.Hash.Finish: the compression of one block is a parameter.
- HashRing.Ring.ResponsibleGlobal: replication factors up to the number of servers; with a larger one the loop of the source does not end, as `HashRing.CollectIsBounded` shows.
- RespBundles.Thread.constructor: at least two slots per bundle, which `RespBundles.SlotsNeeded` shows to be needed.
- The ARM routine of CRC-32C (memcached/crc32c.c:294-331) and the choice between routines at start-up: the same proof with other instructions.
- Page 0 of the external store, which initialisation never puts on a list, and all statistics.
- The slab allocator, the slab mover, the item size histogram and warm restart: items come from a free chunk and go back to it.
- The LRU maintainer's choice of which list to walk, and the crawler's callbacks and its limit on items: policy around the operations modelled.
- UDP, TLS and proxy transmission, event handling and connection states: input and output plumbing.
- Responses finished by transmit are dropped from the queue; releasing their items and buffers is not modelled.
- Threads: a region under a lock is one step, and runs interleave such steps in any order.
