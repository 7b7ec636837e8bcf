# Proofs about the music file system

This project models the four parts of the program that keep real state, and proves what each of them is for:
the pipeline that downloads a song while it is being read, the locking and lookup of paths in the directory
tree, the caches and handle tables, and the byte and stream toolkit that edits audio tags. `dafny verify
dfyconfig.toml` checks all of it. Every module stands for one component and begins by naming its source files.

| module | what it models |
|---|---|
| `Bytes` | bytes, options and the clipped windows that every reader computes |
| `BlockingBuffers` | the buffer in memory that spills to a file |
| `MusicFiles` | the cached file on disk and the sizes recorded for it |
| `Download` | the posted task, the producer, closers and readers of one song as interleaved steps, over any number of sessions |
| `PathLookup` | one thread's path lookup, the nodes it keeps locked, and the unlockers |
| `PathLocking` | many threads looking paths up and changing directories at once |
| `RenameDeadlocks` | which renames can deadlock with such threads, and which cannot |
| `LoneThreads` | what one thread alone comes to, and what a change of a directory does to paths |
| `DirFiles` | generated file names, adding files to a directory and limiting it |
| `LruCaches`, `SizeCaches`, `FileManagers` | the cache with a refusing callback, the single-flight size cache, the table of handles |
| `SharedVectors` | byte vectors that share a buffer until one is changed |
| `FileStreams` | editing a file in place through a buffer, and the same edits in memory |
| `ByteSearch`, `FileFind`, `ByteReplace` | searching bytes, searching a file block by block, replacing |
| `MpegHeaders`, `MpegScans` | MPEG frame headers and the block-wise scans for frames and tags |
| `Checksums`, `Base64` | the CRC of section 6 of RFC 3533, and section 4 of RFC 4648 |

Threads are modelled as atomic steps: a step does at most one thing that another thread can see. A class keeps
the fields of the source's class, and its methods are proved against functions on plain values; the theorems are
lemmas about those functions.

## Where the code departs from its intent

Each of these is stated as a lemma with the exact condition or a run that shows it.

- A close between lines 98 and 99 of `FileProcessor.h` records a size of zero beside a prepend size other than
  zero. When the new tag is the longer one, or shorter by no less than the remote file is long, no later session can
  open the song until the entry is evicted (`CloseRecordsUsable`, `WindowCloseLeavesStuck`, `StuckIffNeverOpens`);
  when it is shorter by less, the next session can start its stream in the middle of the song
  (`WrongStartCorrupts`).
- A close that crosses the opening of a resumed session leaves a record shorter than the file (`StaleIffCrossed`
  says on which schedules). A session ends with one of these two records exactly when some run of the next one
  leaves a corrupt file (`NextSessionCorruptIff`), and that is reached from nothing (`CorruptIsReachable`).
- The hand-over from producer to task stalls for ever exactly when the flag is raised between the producer's two
  reads of it (`StallsIffRaisedBetweenChecks`).
- A read of a song that is closed between taking its size and fetching its bytes passes off the remote bytes behind
  the file as those asked for (`ReadIsRightIff`, `ReadAcrossCloseIsWrong`).
- A retried read of the buffer counts carried bytes twice once something has spilled (`RetryRightIffSafe`).
- The cache pops the tail instead of the entry it tested: a put is sound exactly when at most one key must go or
  the callback refuses all candidates (`PutIsSoundIff`); one open file at the tail is enough (`PinnedTailIsLost`).
- Dropping a size breaks single flight exactly when the size is being fetched, and can end in removing an entry that is
  not there exactly when no size is cached (`DropBreaksIff`, `BrokenFromStart`); two failing reads of one song remove
  its size twice (`RemovedTwice`). Checking and sleeping under two mutexes loses a wake-up exactly when store and
  notification fall between them (`WakeupIsLostIff`, `LostIffStoredBetween`, `LostFromStart`).
- A processor made for a song that has other handles can be handed out after it was closed, and only such an open
  does that (`OpenIsSafeIff`); the reader that made room for it need not still be open (`ReaderNeedNotBeOpen`).
- A read that fails closes the processor at once, under all handles that share it, and its own handle only later. Opens
  that the cache does not serve are handed the closed processor exactly as long as the song's entry names it
  (`LiveSourceIsOpenIff`, `FailureSpreadsIff`), also when the failing reader was the only one (`SoleReaderSpreads`).
- An open that throws dereferences past the end of a table exactly when its song has an entry by then: it had one
  before, or the name was already known (`FileManager.h:68-76` into 145; `FailedOpenIsDefinedIff`,
  `UndefinedFromEmpty`).
- The block-wise file search finds the first match in every file exactly when the pattern repeats itself wherever
  its first byte comes again before its last place (`FindIsFirstIff`).
- A path of fewer than `k - 1` parts is misjudged by counting (`ShortPathsMislead`).
- A rename restarts at the root while it holds what its first lookup left. Any number of renames can deadlock with
  ordinary lookups exactly when one of them has an old path of two parts or more of which all but the last lead to a
  node (`DeadlocksIff`).
- A file is lost by a rename exactly when the new parent is another directory and the old one has an entry of the
  new name, because the two controllers rename in the old parent what was tested in the new one
  (`RenameLosesIff`, `RenameCanLose`).

## Model

| member | source | states |
|---|---|---|
| BlockingBuffers.AppendExtends | src/mp3core/BlockingBuffer.h:57-70 | an append puts its block behind the one sequence that both tiers stand for, and memory never goes on after a spill |
| BlockingBuffers.MemoryIsFilled | src/mp3core/BlockingBuffer.h:57-70 | memory takes all blocks up to the first for which it has no room; that one and all later ones go to the spill file |
| BlockingBuffers.SpillsIffNoRoom | src/mp3core/BlockingBuffer.h:57-70 | the limit is reached exactly when the blocks together do not find room in memory |
| BlockingBuffers.FreshPassIsWindow | src/mp3core/BlockingBuffer.h:78-96 | a read into an empty block is the window of that one sequence, across the border of the tiers |
| BlockingBuffers.RetryRightIffSafe | src/mp3core/BlockingBuffer.h:45-55 | a retried pass is right for all stored bytes of given sizes exactly when nothing spilled, nothing was carried, memory alone fills the block, nothing new lies in the file, or the block is full |
| BlockingBuffers.UnsafeRetryFails | src/mp3core/BlockingBuffer.h:90-92 | for all other sizes some bytes are returned wrongly |
| BlockingBuffers.UnspilledReadIsWindow | src/mp3core/BlockingBuffer.h:45-55 | with any number of retries, a read returns the window of all that arrives, as long as what has arrived by its last pass, or by when there is enough, finds room in memory |
| BlockingBuffers.FromTheBeginning | src/mp3core/BlockingBuffer.h:40-55 | a buffer that begins empty spills exactly when the blocks are longer than its memory, and until then a read gives the window of all that arrives |
| BlockingBuffers.BlockingBuffer.Append | src/mp3core/BlockingBuffer.h:57-70 | the fields stand for the old sequence followed by the block |
| BlockingBuffers.BlockingBuffer.ReadNoLock | src/mp3core/BlockingBuffer.h:78-96 | one pass: memory first, then the file from where the code computes it, never more than the block holds |
| BlockingBuffers.BlockingBuffer.FinalRead | src/mp3core/BlockingBuffer.h:72-76 | the window of the sequence behind the replaced tag |
| BlockingBuffers.PrependShifts | src/mp3core/BlockingBuffer.cpp:5-35 | behind the new tag, a place less the prepend size is the place of the same stored bytes, and the new file is longer by that size, although both subtractions wrap for a shorter tag |
| BlockingBuffers.BlockingBuffer.Drain | src/mp3core/FileProcessor.h:101-111 | the drain loop ends and yields everything behind the replaced tag exactly once |
| MusicFiles.SessionAppends | src/cache/MusicFile.cpp:7-64 | whatever a session does, once open the bytes on disk are those it found followed by those it wrote between open and close, and the size on disk counts them |
| MusicFiles.NextSessionContinues | src/cache/MusicFile.cpp:7-49 | a close, a construction from its record and an open restore the same sizes and bytes |
| MusicFiles.WrittenIsRead | src/cache/File.h:26-31 | what is written is read back from the size on disk before, and earlier bytes read as they did |
| MusicFiles.MusicFile.Read | src/cache/MusicFile.cpp:15-21 | exactly the bytes asked for when they are there |
| MusicFiles.ReadIsPadded | src/cache/MusicFile.cpp:15-21 | a read gives as many bytes as asked for: those of the file, and zeros behind its end |
| MusicFiles.ClosedStays | src/cache/MusicFile.cpp:23-49 | after a close no operation changes the file, its sizes or its record any more |
| Download.StepKeeps | src/mp3core/FileProcessor.h:52-142 | every step of task, producer, closer, reader or new session keeps the invariant |
| Download.DrainedMeetsStream | src/mp3core/FileProcessor.h:80-111 | tag, drained bytes and the rest of the stream join to the virtual file without gap or overlap exactly when all that is replaced had been stored or the stream had ended |
| Download.DiskIsPrefixOfVirtual | src/mp3core/FileProcessor.h:52-142 | over any sessions and interleavings in which no session leaves a misleading record, disk and record are prefixes of the virtual file, the reopening offset continues the record, and an undisturbed end leaves all of it |
| Download.ReopenContinuesIff | src/mp3core/FileProcessor.h:73-76 | a new session fails before it touches the disk exactly where its offset does not open, and else goes on where the bytes on disk end exactly when its record does not mislead |
| Download.FreshSessionFinishes | src/mp3core/FileProcessor.h:69-142 | a session that begins with nothing recorded, left to finish, leaves all of the virtual file, for every new tag and replaced length |
| Download.ResumedSessionFinishes | src/mp3core/FileProcessor.h:113-138 | so does one that resumes a record which opens and does not mislead |
| Download.EndsStopTheDownload | src/mp3core/FileProcessor.h:121-135 | once an opened session has its flag raised, its stream closed or its task failed, no run of it changes the file |
| Download.CloseRecordsUsable | src/cache/MusicFile.cpp:23-30 | a close records usable sizes exactly when the file does not have a prepend size other than zero and no bytes; for a new tag that is not empty, that is between setting the size and writing the tag |
| Download.UnusableRecordIsPermanent | src/mp3core/FileProcessor.h:73-76 | with a record of nothing from which the stream does not open, whichever sign its prepend size has, no session ever gets past opening the stream until the entry is evicted |
| Download.StuckIffNeverOpens | src/mp3core/FileProcessor.h:73-76 | and only such a record has that effect on a session that begins with nothing recorded |
| Download.EvictionStartsOver | src/cache/CommonCache.h:79-81 | after an eviction, whatever the record was, the next session asks for the song from its beginning, empties the file and, left to finish, leaves all of the virtual file for any new tag |
| Download.WindowCloseLeavesStuck | src/mp3core/FileProcessor.h:98-99 | a close in that window leaves such a record exactly when the new tag is longer, or shorter by no less than the remote file is long |
| Download.WindowIsReachable | src/mp3core/FileProcessor.h:98-99 | the window is reached for every remote file and tag |
| Download.StaleIsReachable | src/mp3core/FileProcessor.h:173-176 | a close between opening the stream and opening the file can leave a record shorter than the file |
| Download.StaleIffCrossed | src/mp3core/FileProcessor.h:173-176 | which schedules end so: a record of some bytes, a close before the opening of the file, and a fetch before the flag is raised |
| Download.StaleCorrupts | src/mp3core/FileProcessor.h:121-135 | the session after it, left to finish, writes a file longer than the virtual one |
| Download.WrongStartCorrupts | src/mp3core/FileProcessor.h:73-76 | after a record of nothing beside a wrapped prepend size the next session leaves a file that begins in the middle |
| Download.NextSessionCorruptIff | src/mp3core/FileProcessor.h:52-142 | a session ends with a misleading record exactly when some run of the next session leaves a file that is not a prefix of the virtual one, or not all of it when undisturbed |
| Download.CorruptIsReachable | src/mp3core/FileProcessor.h:52-142 | a run from nothing that ends so, for every remote file and tag that are not empty |
| Download.AtomicCloseIsClean | src/mp3core/FileProcessor.h:173-176 | if nothing fell between lines 174 and 175 and new tags were no shorter, no session would leave a misleading record |
| Download.StallIsForever | src/mp3core/FileProcessor.cpp:17-21 | a stalled hand-over never goes on |
| Download.StallsIffRaisedBetweenChecks | src/mp3core/FileProcessor.h:52-65 | some run of the session stalls exactly when the flag is raised between the producer's two reads of it |
| Download.MovesIffNotStalled | src/mp3core/FileProcessor.h:52-142 | while a session's task runs, it or the producer can go on exactly when the hand-over has not stalled |
| Download.FailingStreamNeverStalls | src/mp3core/FileProcessor.h:90-93 | a stream that fails while it is stored ends the input, and no continuation of that session's run stalls the hand-over |
| Download.RemoteIsVirtual | src/net/HttpStream.cpp:57-67 | a ranged read behind the tag, clipped as in section 2.1 of RFC 7233, is a window of the virtual file |
| Download.ReadIsRightIff | src/mp3core/FileProcessor.h:148-161 | in all three branches, and although the file grows after its size was taken, a read returns the window of the virtual file exactly when the file is open at the fetch or nothing is read from it; of a song closed before its tag was written, when nothing of the tag is read or the remote bytes happen to equal it, which they never do before the prepend size |
| Download.ReadRightIffSafe | src/mp3core/FileProcessor.h:148-161 | by sizes: a read is right for all songs of given sizes exactly when the file is open or not read from, and, closed before its tag was written, when it begins behind the tag |
| Download.ReadReturnsWindow | src/mp3core/FileProcessor.h:148-161 | so a read of a file that stays open is right |
| Download.ReadAcrossCloseIsWrong | src/mp3core/FileProcessor.h:152-157 | a close in between makes a joined read return the bytes behind the file as the window |
| PathLookup.Reach | src/fs/FsUtils.cpp:47-71 | the number of leading parts that resolve, and that the next does not |
| PathLookup.FindPath | src/fs/FsUtils.cpp:28-73 | the nodes left are named by the last resolving prefixes, as many as the formula says; exactly they and the earlier paths' nodes are locked, none twice |
| PathLookup.CountsTell | src/fs/FsPath.cpp:46-52 | for paths of at least `k - 1` parts, `k` nodes are left exactly when the path resolves and `k - 1` exactly when only its last part is missing |
| PathLookup.ShortPathsMislead | src/fs/FsPath.cpp:46-52 | what the two tests say on shorter paths |
| PathLookup.LastKeptIsNamed | src/fs/FsPath.cpp:33-35 | the last node is the one the path names, or its parent |
| PathLookup.Trim | src/fs/FsPath.cpp:13-17 | dropping the first node releases it unless an earlier path holds it |
| PathLookup.FsPathUnlocker.Joint | src/fs/FsPath.cpp:80-95 | the nodes of all paths, each once |
| PathLookup.FirstOccurrences | src/fs/FsPath.cpp:80-95 | has the same nodes without repetition |
| PathLookup.FsPathUnlocker.Release | src/fs/FsPath.cpp:68-72 | every node is unlocked once while it is held, and none stays |
| PathLookup.RenameLookups | src/fs/ctrl/DummyDirWrapper.h:46-55 | the two lookups of a rename and the joint unlocker leave no lock, and its two tests are right |
| PathLocking.StepKeeps | src/fs/FsUtils.cpp:28-73 | every step of every thread, renames included, keeps: a lock belongs to the one thread that has the node on one of its paths, each node is given back once, and paths are chained in the tree as it is |
| PathLocking.LocksAreHeld | src/fs/FsUtils.cpp:28-73 | in every reachable state the locks in use are those of the threads, and no two threads share one |
| PathLocking.EditKeepsOthers | src/fs/Dir.cpp:23-33 | a change of a directory leaves every thread that does not hold it as it was |
| PathLocking.FoundIsThere | src/fs/FsUtils.cpp:47-73 | when a lookup ends with all nodes, each is, at that moment, the entry of the one before it under the name asked for |
| PathLocking.WaitsForDeeper | src/fs/FsUtils.cpp:41-57 | while renames hold the root or nothing from their first lookup, the holder of a lock that is waited for has not finished, and waits, if at all, for a deeper node |
| PathLocking.NoDeadlock | src/fs/FsUtils.cpp:28-73 | with any number of lookups, directory changes and renames whose old path has fewer parts than nodes stay, no reachable state is deadlocked |
| PathLocking.RunsAreShort | src/fs/FsUtils.cpp:28-73 | every run is bounded by the steps its threads have left |
| PathLocking.StuckIsDone | src/fs/FsPath.cpp:68-72 | a run of such threads that cannot go on has finished every thread and freed every lock |
| RenameDeadlocks.DeadlocksBelowRoot | src/fs/ctrl/DummyDirWrapper.h:47-48 | for every tree, every longer old path whose parent is there at any depth, and whatever other renames have been called, lookups of that parent and a schedule from fresh threads that deadlock |
| RenameDeadlocks.DeadlocksIff | src/fs/ctrl/DummyDirWrapper.h:47-48 | any number of renames can deadlock with lookups of single paths exactly when one of them has an old path of two parts or more of which all but the last lead to a node |
| LoneThreads.LoneThreadDoesItsWork | src/fs/FsUtils.cpp:28-73 | a thread alone, with one lookup or with the two of a rename, when it can go no further, has held the nodes that its lookups keep, has made its changes to those of them, in order, and has given back every lock |
| LoneThreads.ResolveAfterRemove | src/fs/Dir.cpp:31-33 | after an entry is removed exactly the paths that led through it lead nowhere, and all others lead where they did |
| LoneThreads.ResolveAfterAdd | src/fs/Dir.cpp:23-27 | after an entry is added under a free name its path leads to the new node, and all others lead where they did |
| LoneThreads.AddedIs | src/fs/Dir.cpp:23-27 | a new node is empty and of its kind; a name that is taken keeps its entry |
| DirFiles.DecimalInjective | src/fs/FileName.cpp:14-20 | different suffix numbers give different digits |
| DirFiles.DecimalStandsFor | src/fs/FileName.cpp:16 | the digits of a suffix stand for its number, without a zero before them |
| DirFiles.CandidatesDiffer | src/fs/FileName.cpp:14-29 | no name is tried twice |
| DirFiles.FirstCandidates | src/fs/FileName.cpp:7-29 | the first name tried is artist, dash and title, each escaped, and the second ends in 2 |
| DirFiles.EscapeIsClean | src/fs/FileName.cpp:31-38 | an escaped name has no forbidden character or quote, and escaping is idempotent |
| DirFiles.EscapeOne | src/fs/FileName.cpp:31-38 | of one character, escaping drops a forbidden one, makes a quote an apostrophe and keeps every other |
| DirFiles.EscapeJoins | src/fs/FileName.cpp:31-38 | and it goes character by character, in order |
| DirFiles.FileName.GetFilename | src/fs/FileName.cpp:14-20 | the candidate after as many names as were passed over |
| DirFiles.FileName.IncreaseNumberSuffix | src/fs/FileName.cpp:22-29 | passes over one more, beginning with suffix 2 |
| DirFiles.TakenNames | src/fs/FsUtils.cpp:148-150 | names that are all taken are no more than the entries |
| DirFiles.FreeName | src/fs/FsUtils.cpp:147-150 | the first free candidate, after at most one try more than there are entries |
| DirFiles.AddFilesToDir | src/fs/FsUtils.cpp:135-163 | adds every file under the first name tried for it that is neither an old entry's nor an earlier file's, keeps every entry, grows by the number of files, with times counting up |
| DirFiles.LimitItems | src/fs/FsUtils.h:34-50 | removes the latest selected entries until the limit is met |
| DirFiles.LimitKeepsOldest | src/fs/FsUtils.h:34-50 | what was not selected stays, and none of the selected that stay is later than one that went |
| DirFiles.AddThenLimit | src/fs/FsUtils.cpp:135-163 | on an empty directory, adding and then limiting leaves exactly the first files, each under its first free name |
| DirFiles.LimitLeavesFirst | src/fs/FsUtils.h:42-48 | whatever order the entries were listed in, the sort makes the first files stay |
| DirFiles.RenameLosesIff | src/fs/ctrl/DummyDirWrapper.h:46-55 | a rename that passes the two tests and is done in the old parent loses its file exactly when the new parent is another one and the new name is taken in the old one; else the file keeps its time under the new name, and in either case all other entries stay |
| DirFiles.RenameCanLose | src/fs/ctrl/SimilarCtrl.h:89-92 | a tree and two paths that pass the tests and lose the file |
| LruCaches.PushKeepsAgree | cpp-lru-cache-mod/lrucache.hpp:34-41 | list and index agree after a push, and the key moves to the front |
| LruCaches.PutWithinOne | cpp-lru-cache-mod/lrucache.hpp:34-55 | with at most one key over the limit a put drops the least recent key or, if refused, none |
| LruCaches.PutIsSoundIff | cpp-lru-cache-mod/lrucache.hpp:43-54 | a put keeps list and index in agreement exactly when at most one key must go or all candidates are refused |
| LruCaches.EvictingManyFails | cpp-lru-cache-mod/lrucache.hpp:46-52 | otherwise an iterator is dead or the index disagrees |
| LruCaches.PinnedSurvives | src/cache/CommonCache.h:50-58 | an open file is not dropped by a put with at most one key to evict |
| LruCaches.PinnedTailIsLost | src/cache/CommonCache.h:140-144 | one open file at the tail of a full cache that is one too long loses its node |
| LruCaches.GetKeepsAgree | cpp-lru-cache-mod/lrucache.hpp:57-65 | a hit returns a value stored under the key and moves it to the front, a miss changes nothing |
| LruCaches.RemoveKeepsAgree | cpp-lru-cache-mod/lrucache.hpp:75-81 | removing is defined exactly when the key is there or the callback refuses it; it then keeps agreement and drops just that key, or changes nothing |
| LruCaches.RunHoldsMostRecent | cpp-lru-cache-mod/lrucache.hpp:34-81 | after any run, list order is recency order, and without removals the cache holds exactly the most recent keys |
| LruCaches.RunIsTruthful | cpp-lru-cache-mod/lrucache.hpp:34-81 | over any run with any callbacks and sound puts, every node has the value its key was put with last |
| LruCaches.HitReturnsLastPut | cpp-lru-cache-mod/lrucache.hpp:57-65 | so a hit returns the value last put under its key |
| LruCaches.LruCache.Put | cpp-lru-cache-mod/lrucache.hpp:34-55 | where no dead iterator is used, list and index become what the lemmas on puts judge |
| LruCaches.LruCache.EvictExcess | cpp-lru-cache-mod/lrucache.hpp:44-52 | the loop on list iterators, for every number of keys to evict and every callback |
| LruCaches.LruCache.Get | cpp-lru-cache-mod/lrucache.hpp:57-65 | a hit is moved to the front and returned, list and index stay in agreement |
| LruCaches.LruCache.Remove | cpp-lru-cache-mod/lrucache.hpp:75-81 | a present key is taken out of list and index, or stays if refused |
| SizeCaches.StepKeeps | src/cache/CommonCache.h:86-125 | every step keeps each sentinel paired with exactly one fetching caller |
| SizeCaches.SingleFlight | src/cache/CommonCache.h:86-125 | in every interleaving at most one caller fetches a size, none is handed the sentinel or another value than the total, and no sentinel outlives its fetch |
| SizeCaches.CachedIsReturned | src/cache/CommonCache.h:91-94 | whoever checks for a cached size is returned the total size |
| SizeCaches.ThrewIffOwnFetchFailed | src/cache/CommonCache.h:106-122 | a call that has ended threw exactly when its own fetch failed, and else returned the total size |
| SizeCaches.NotifiedSleeperReturns | src/cache/CommonCache.h:102-121 | a sleeper that is notified after a store returns the total size at its next check, however others interleave, unless the size was dropped |
| SizeCaches.CallerKeepsId | src/cache/CommonCache.h:86-125 | over every run a caller is answered for the file that it asked for |
| SizeCaches.DropBreaksIff | src/cache/CommonCache.h:68-71 | after a drop, two callers can come to fetch the size at once exactly when the entry was a sentinel, wherever its owner stands, and one can come to remove what is not there exactly when no size was cached |
| SizeCaches.RemovedTwice | src/mp3core/FileManager.h:103-105 | a run from nothing in which a size is removed twice in a row |
| SizeCaches.BrokenFromStart | src/cache/CommonCache.h:68-125 | runs from nothing with one dropped sentinel that end in either |
| SizeCaches.WakeupIsLostIff | src/cache/CommonCache.h:88-104 | a caller goes to sleep with nobody left to notify it exactly when all who were fetching or about to notify at its check, or began since, have notified before |
| SizeCaches.LostIffStoredBetween | src/cache/CommonCache.h:102-121 | with one caller that fetches and succeeds, exactly when its store and its notification fall between the check and the sleep |
| SizeCaches.LostFromStart | src/cache/CommonCache.h:86-125 | a run of two callers from nothing that ends with the second asleep beside the cached size |
| SizeCaches.PromptSleepersAreWoken | src/cache/CommonCache.h:102-104 | were check and sleep one step, every sleeper would be notified |
| FileManagers.OpenKeeps | src/mp3core/FileManager.h:40-77 | an open that does not intrude keeps the tables in agreement and every usage count right |
| FileManagers.CloseKeeps | src/mp3core/FileManager.h:140-160 | so does every close, and it is defined |
| FileManagers.OpenIsSafeIff | src/mp3core/FileManager.h:48-66 | while no live handle has a closed source, some calm run after an open gives a live handle a closed source exactly when the open makes a processor for a song that has open handles |
| FileManagers.UsagesCountHandles | src/mp3core/FileManager.h:162-167 | a live handle has a source, and a processor's usage count is the number of its handles |
| FileManagers.CloseClosesWithTheLast | src/mp3core/FileManager.h:145-151 | a close closes its source exactly when it was the last user, and no other source |
| FileManagers.RunIsGood | src/mp3core/FileManager.h:40-160 | over every run without an intruding open, and without an open that fails when its song has an entry, with reads failing between any two steps, nothing is undefined, and of the sources handed out exactly those without a handle and those that failed are closed |
| FileManagers.LiveSourceIsOpenIff | src/mp3core/FileProcessor.h:162-169 | after such a run from nothing a live handle's source is open exactly when no read of it has failed |
| FileManagers.FailureSpreadsIff | src/mp3core/FileProcessor.h:162-169 | after a failed read and any such run, an open that the cache does not serve is handed the closed processor exactly when the entry named it and neither a cached open nor the close of the last handle has come since |
| FileManagers.SoleReaderSpreads | src/mp3core/FileManager.h:98-112 | a run from the empty manager in which an open falls between the failure of the only reader and the close of its handle, and keeps the closed processor |
| FileManagers.SecondCloseChangesNothing | src/mp3core/FileManager.h:117-119 | a second close of a handle changes nothing |
| FileManagers.FailedOpenIsDefinedIff | src/mp3core/FileManager.h:68-76 | an open that throws is undefined exactly when its song has an entry by then, and else changes only the counter |
| FileManagers.UndefinedFromEmpty | src/mp3core/FileManager.h:140-147 | two runs from the empty manager that are undefined |
| FileManagers.IntrusionHandsOutClosed | src/mp3core/FileManager.h:57-65 | after an intruding open a calm run gives a live handle a closed processor |
| FileManagers.ReaderNeedNotBeOpen | src/mp3core/FileManager.h:50-55 | such a state is reached with no reader open any more |
| FileManagers.FileManager.Open | src/mp3core/FileManager.h:40-77 | the tables change as the step proved to keep them right, and the handle is a new one |
| FileManagers.FileManager.Close | src/mp3core/FileManager.h:140-160 | the tables change as the step proved to close a source with its last handle |
| SharedVectors.ByteVector.Part | taglib_mod/toolkit/tbytevector.cpp:270-277 | shares the buffer, counts itself, copies nothing and disturbs nobody |
| SharedVectors.ByteVector.Destroy | taglib_mod/toolkit/tbytevector.cpp:279-285 | the buffer is deleted exactly with its last vector |
| SharedVectors.ByteVector.Detach | taglib_mod/toolkit/tbytevector.cpp:1024-1032 | afterwards nobody shares the buffer, and no vector's bytes have changed |
| SharedVectors.ByteVector.Resize | taglib_mod/toolkit/tbytevector.cpp:597-613 | cuts or pads this vector alone, wherever it lies in its buffer |
| SharedVectors.ByteVector.Append | taglib_mod/toolkit/tbytevector.cpp:564-578 | puts the other's bytes behind its own, also when the other is itself or shares its buffer |
| SharedVectors.ByteVector.SetAt | taglib_mod/toolkit/tbytevector.cpp:809-813 | changes one byte of this vector alone |
| SharedVectors.ResizedPart | taglib_mod/toolkit/tbytevector.cpp:602-609 | cutting the buffer before growing it pads the vector's own part |
| SharedVectors.MakeMid | taglib_mod/toolkit/tbytevector.cpp:409-415 | clips to the window of plain bytes |
| SharedVectors.Execute | taglib_mod/toolkit/tbytevector.cpp:255-291 | after any program of operations the vectors hold what unshared byte sequences would, and each counter is the number of vectors that share |
| FileStreams.FileStream.Insert | taglib_mod/toolkit/tfilestream.cpp:211-291 | the whole new file for every start and length, also past the end |
| FileStreams.FileStream.InsertLonger | taglib_mod/toolkit/tfilestream.cpp:233-290 | the sliding buffer computes the splice: bytes are read before they are overwritten |
| FileStreams.FileStream.RemoveBlock | taglib_mod/toolkit/tfilestream.cpp:293-328 | moves up all behind the block and truncates |
| FileStreams.ByteVectorStream.Insert | taglib_mod/toolkit/tbytevectorstream.cpp:91-105 | the same splice in memory, where growing needs the replaced bytes to be there |
| FileStreams.ByteVectorStream.RemoveBlock | taglib_mod/toolkit/tbytevectorstream.cpp:107-118 | the same removal |
| FileStreams.ByteVectorStream.WriteBlock | taglib_mod/toolkit/tbytevectorstream.cpp:81-89 | overwrites or extends, filling up to its position |
| FileStreams.WrittenThenRemoved | taglib_mod/toolkit/tfilestream.cpp:228-233 | writing and then removing the rest is one splice |
| FileStreams.EditBoth | taglib_mod/toolkit/tbytevectorstream.cpp:81-118 | after any sequence of edits that both define alike the two streams agree |
| FileStreams.CommonIff | taglib_mod/toolkit/tbytevectorstream.cpp:91-118 | which edits those are: growing an edit of bytes that are there, and not the edit of nothing past the end |
| FileStreams.SpliceByteByByte | taglib_mod/toolkit/tfilestream.cpp:211-291 | every byte of an edited file: the old ones before, zeros where there was nothing, the data, and the old ones behind |
| FileStreams.SpliceUndone | taglib_mod/toolkit/tfilestream.cpp:211-291 | putting the old bytes back undoes an edit |
| FileStreams.SpliceTwice | taglib_mod/toolkit/tfilestream.cpp:211-291 | editing again what an edit put in is one edit |
| ByteSearch.FindChar | taglib_mod/toolkit/tbytevector.cpp:49-70 | the first aligned place of a byte |
| ByteSearch.FindVector | taglib_mod/toolkit/tbytevector.cpp:72-112 | the first aligned match of a pattern |
| ByteSearch.FirstIsMatch | taglib_mod/toolkit/tbytevector.cpp:72-112 | what is found is a match, and there is none before it |
| ByteSearch.FirstAlignedIsMatch | taglib_mod/toolkit/tbytevector.cpp:49-112 | for every alignment, what is found is a match at one of the places looked at, and there is none at an earlier one |
| ByteSearch.EndsWithPartialMatch | taglib_mod/toolkit/tbytevector.cpp:546-562 | where the longest proper beginning of the pattern stands at the end |
| ByteSearch.LongestEndIs | taglib_mod/toolkit/tbytevector.cpp:546-562 | that no longer one does |
| FileFind.File.Find | taglib_mod/toolkit/tfile.cpp:129-222 | the search loop computes the scan and restores the read position |
| FileFind.FoundIsSound | taglib_mod/toolkit/tfile.cpp:129-222 | for every pattern what is returned is a match at or behind the offset |
| FileFind.LongestSuffices | taglib_mod/toolkit/tfile.cpp:174-182 | for patterns that repeat well, following up the longest partial match misses nothing |
| FileFind.ScanIsFirst | taglib_mod/toolkit/tfile.cpp:172-213 | from every state of the loop the first match is returned |
| FileFind.FindMisses | taglib_mod/toolkit/tfile.cpp:174-182 | for any other pattern a file whose match is not found |
| FileFind.FindIsFirstIff | taglib_mod/toolkit/tfile.cpp:129-222 | the exact condition on the pattern, for every block size it fits |
| ByteReplace.ReplacedAtFirst | taglib_mod/toolkit/tbytevector.cpp:485-544 | replacing from left to right is replacing the first match and going on behind it |
| ByteReplace.ReplaceByte | taglib_mod/toolkit/tbytevector.cpp:473-483 | one byte for one byte is that replacement |
| ByteReplace.ReplaceInPlace | taglib_mod/toolkit/tbytevector.cpp:496-506 | so is overwriting in place |
| ByteReplace.ResultSize | taglib_mod/toolkit/tbytevector.cpp:508-515 | counting in wrapping 32-bit arithmetic gives the exact length modulo its range |
| ByteReplace.ReplaceCopying | taglib_mod/toolkit/tbytevector.cpp:517-540 | copying into a new vector is that replacement |
| ByteReplace.Replace | taglib_mod/toolkit/tbytevector.cpp:485-544 | all three ways give the one replacement |
| MpegHeaders.Header.Parse | taglib_mod/mpeg/mpegheader.cpp:173-322 | valid exactly when a frame stands there, with the version, layer, rates, padding, samples and length that its four bytes announce |
| MpegHeaders.FramesAreLong | taglib_mod/mpeg/mpegheader.cpp:276-288 | an announced length is at least eight bytes |
| MpegHeaders.HeaderIsRead | taglib_mod/mpeg/mpegheader.cpp:187-274 | the version, layer, rates and padding that are put into a header by the standard's numbering are read from it |
| MpegHeaders.UsableHeaderIs | taglib_mod/mpeg/mpegheader.cpp:187-274 | and every header that announces a length is made of such fields |
| MpegHeaders.BitratesOfVersion1 | taglib_mod/mpeg/mpegheader.cpp:214-227 | evenly spaced in layer I, four to the octave in layer III, and one index on in layer II |
| MpegHeaders.BitratesOfVersion2 | taglib_mod/mpeg/mpegheader.cpp:214-227 | the steps of the bitrates of versions 2 and 2.5 |
| MpegHeaders.SampleRates | taglib_mod/mpeg/mpegheader.cpp:246-250 | the rates of version 1, halved in version 2 and quartered in 2.5 |
| MpegHeaders.SamplesAre | taglib_mod/mpeg/mpegheader.cpp:276-283 | blocks of 32 samples and granules of 576 make up a frame of each layer |
| MpegHeaders.LengthIsGreatest | taglib_mod/mpeg/mpegheader.cpp:285-293 | an unpadded length is the greatest number of bytes that the bitrate yields in the time of the samples |
| MpegHeaders.MaskComparesFields | taglib_mod/mpeg/mpegheader.cpp:306-316 | the mask compares synchronisation, version, layer and sample rate and nothing else |
| MpegScans.NextFrameOffset | taglib_mod/mpeg/mpegfile.cpp:272-294 | the plain forward search, for every block size |
| MpegScans.NextFrameIsLeast | taglib_mod/mpeg/mpegfile.cpp:272-294 | the least place with a frame, or none |
| MpegScans.PreviousFrameOffset | taglib_mod/mpeg/mpegfile.cpp:296-319 | ends, with the end of the last frame whose first two bytes lie before the position |
| MpegScans.LastFrameIsGreatest | taglib_mod/mpeg/mpegfile.cpp:296-319 | the greatest such place, or none |
| MpegScans.FindID3v2 | taglib_mod/mpeg/mpegfile.cpp:368-415 | the first tag unless a frame stands before it, for every block size |
| MpegScans.FrameFirst | taglib_mod/mpeg/mpegfile.cpp:400-404 | a frame ends the search rightly, as no tag begins in its first two bytes |
| Checksums.TableEntry | taglib_mod/toolkit/tbytevector.cpp:677-721 | each of the 256 table entries is eight division steps on its index |
| Checksums.TableStepFoldsByte | taglib_mod/toolkit/tbytevector.cpp:723-725 | one lookup does the work of eight division steps |
| Checksums.RemainderIsFold | taglib_mod/toolkit/tbytevector.cpp:675-727 | folding the message in bit by bit leaves the remainder of the long division |
| Checksums.Checksum | taglib_mod/toolkit/tbytevector.cpp:675-727 | the sum is the remainder of the message times x^32 by the generator 0x04c11db7 |
| Base64.RoundTrip | taglib_mod/toolkit/tbytevector.cpp:903-1017 | decoding undoes encoding, and an encoding has four characters for every three bytes begun |
| Base64.EncodeDecode | taglib_mod/toolkit/tbytevector.cpp:944-980 | of the inputs that decode exactly the canonical ones are encodings |
| Base64.AlphabetInOrder | taglib_mod/toolkit/tbytevector.cpp:987-988 | the order of the alphabet |
| Base64.SixesAreDigits | taglib_mod/toolkit/tbytevector.cpp:985-1017 | four characters stand for the digits of the number that three bytes are, from the highest on |
| Base64.ToBase64 | taglib_mod/toolkit/tbytevector.cpp:985-1017 | the loop fills an array of the right size with the encoding |
| Base64.FromBase64 | taglib_mod/toolkit/tbytevector.cpp:903-983 | the decoding loop; no bytes unless all input was processed |

## Left out

- Sockets, TLS, timers and the remote interface: the remote file is a fixed byte sequence that is read in order or by range.
- The file system glue, dispatch, settings and logging: configuration and user interface.
- Keeping the caches on disk between runs of the program, and crashes: not part of this model.
- Rendering and parsing of ID3v2 frames: the new tag is any bytes, and the replaced length any that lies within what the parser has been given, or any at all once the stream has ended; the tag reader meets this, as it also reads behind the whole tag (taglib_mod/mpeg/id3v2/id3v2tag.cpp:703-712).
- Operating-system mutexes and condition variables: locks are taken in atomic steps, in any order, without fairness.
- The bracket clean-up of titles in Mp3FileName: names are built from the titles as they are given.
- splitPath and the other string helpers of FsUtils: lookups start from the parts of a path.
- deleteItems and the selections passed to limitItems: limiting is proved for every selection.
- File::rfind and the argument `before` of File::find: every search here has nothing to find before.
- References and iterators of a byte vector that are kept across a copy: a write through operator[] is one step.
- Assignment, swap and clear of byte vectors: they are a copy and a destruction of those that are modelled.
- Floating-point and Unicode conversions, property maps and the small protobuf helper: they depend on the platform or add only easy members.
- Integer widths: they are modelled where the code relies on them (the reopening offset, the size of a replacement, words of checksums and headers); elsewhere numbers are unbounded, and positions that the code returns as `int` are taken to fit.
- Guards for closed and read-only streams, and failing reads and writes of the disk: not part of this model.
- LruCaches.RunHoldsMostRecent: after a removal the cache may hold fewer keys than fit, because evicted keys do not come back; the order is stated, the number is not.
- ByteReplace.Replace: where the result would be longer than 32 bits can count, only the wrapped size is stated.
- MpegHeaders.Header.Parse: channel mode, copyright and original flags, which no scan uses, are left out.
- Download.StepKeeps: the step into a session that begins with a misleading record is left out of the invariant; what such a session does is stated by NextSessionCorruptIff.
- Download.DiskIsPrefixOfVirtual: speaks of runs in which no session leaves a misleading record; StaleIffCrossed and CloseRecordsUsable say when one does, NextSessionCorruptIff what it costs.
- Download.Step: a reader that still holds the processor of a closed handle keeps its task alive while the next session begins, and two tasks that both come to open the file would both append to it; here a session begins when the one before has closed and joined its task.
- RenameDeadlocks.DeadlocksIff: the lookups change no directory, and renames do only where there is one; threads that first make the missing part of an old path make it one that leads to a node.
- FileManagers.OpenKeeps: the file a handle reads, its name, the bytes that reads return and what the cache records of them are left out.
