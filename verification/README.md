# Bundle store and its helper library, modelled in Dafny

The repository packs many small files into large append-only bundle files on a
shared file system, and carries a library of helper modules. This project models
the store protocol and the algorithmic helpers and proves what they promise.

- **Store.** `Store.dfy` is the protocol: sessions (one `Writer::Allocate`, its
  writes, its `Release`) whose system calls interleave freely, may be torn, and may
  stop at any point. `StoreSafety.dfy` proves safety over all runs, `Overlap.dfy` what goes
  wrong without its condition on the settings. `Process.dfy` adds the static `last_id_` that
  the threads of a process share. `Writer.dfy` and `Allocate.dfy` are the methods as code,
  each tied to the events it performs; `LockUse.dfy` is about several lock objects.
  `Paths.dfy`, `Record.dfy`, `Url.dfy` and `Sixty.dfy` are the names, the record
  layout, the URLs and the base-60 numbers underneath.
- **Hashes.** `Murmur.dfy` proves the loops of the MurmurHash2 family, aligned and
  incremental ones included, against one-line definitions, for any mixing arithmetic.
  `Md5.dfy` proves the compression function against section 3.4 of RFC 1321, and
  `Md5Stream.dfy` the streaming code against the padding of sections 3.1 and 3.2.
- **Concurrency and hashing.** `RwLock.dfy` is the write-preferring lock with an
  unbounded set of threads and spurious wakeups; `Ring.dfy` the consistent-hash ring.
- **Codecs and containers.** `PickleFormat.dfy` and `Pickle.dfy`, `StringEncode.dfy`,
  `Utf8.dfy` and `Markup.dfy`, `NumberConv.dfy`, `Cache.dfy`, `Tokenizer.dfy`.
- `Arith.dfy`, `Bytes.dfy`, `Text.dfy` and `Pieces.dfy` hold what several modules share.

`dafny verify dfyconfig.toml` checks everything.

## How the code is represented

A file is a sequence of bytes, the lock directory a set of names; `O_EXCL` succeeds
only on a free name. Answers of the environment (a refused `open`, how many bytes a
`write` put out, `errno`, `rand`, the memory that `realloc` grants, what a cache's
creator returns) are parameters. Bytes are integers below 256, except in `Murmur.dfy`
and `Md5.dfy`, where words are bit vectors; the machine is little-endian, `int` has
32 and `long` and `size_t` 64 bits. Wrap-around is written out where the code can
meet it. Assertions that vanish in a release build are not part of the behaviour.

## Where the code falls short of its promise

What has a name in parentheses is proved, most of it with the exact condition.

- A short `write` leaves `errno` as it was, so `Write` can return 0 although nothing
  readable was stored (`ShortWriteCanReturnZero`). For data that is not empty `*written`
  tells the caller (`WriteBytes`), and whatever did go out is safe
  (`RecordsAreDisjointAndPermanent`, `ReadAfterWrite`).
- A plain `Write` does not advance the offset of its Writer, so a second one lands on
  the first (`WriteTwice`). The protocol allows one successful plain `Write`, or any
  number of `BatchWrite`s before it (the field `spent`).
- With `file_count_level_1 > file_count_level_2` one file has several locks
  (`TwoLocksForOneFileIff`), and records overlap (`RecordsOverlap`).
- Two threads of one process that are inside `Allocate` together read a `last_id_` that the
  other may have moved: records overlap (`TwoCallsOverlap`). With one call at a time in each
  process they do not (`RunRefines`, `RecordsAreSafe`).
- An `Allocate` whose `lstat` fails under the lock drops the lock object without deleting it,
  and the lock file stays (`LocksLeftIff`).
- `FileLock::Unlock` does not reset `locked_`, so its destructor can remove the file of another
  object (`RobsIff`, `FirstRobberyIff`), which calls of the destructor alone never do
  (`NeverByDestructors`).
- `FromSixty` notices a character outside its alphabet only in front of the digits that
  count (`RefusedIff`), and a URL whose hash is 0xFFFFFFFF is not accepted back
  (`EncodedRoundTripIff`; `GoodUrlIsRefused` is one).
- `Continuum::Rebuild` keeps the old ring when the 32-bit sum of the capacities is
  zero. With colliding points the order among equals is up to the sort, and removing or
  adding a server can move hashes of others (`DeterminedIff`, `RemovalIff`, `AdditionIff`).
- `MD5Final` wipes as many bytes as a pointer has, not the context (`Context.Final`).
- `utf8_decode` takes over-long forms (`ReencodesIff`, `LongFormIsTaken`), and
  `html_decode(html_encode(s))` is `s` only for well-formed text (`HtmlRoundTripIff`,
  `StrayByteGrows`).
- `xml_decode` and `html_decode` can store their terminator one place behind a buffer
  that is not longer than the source (`TerminatorOutsideIff`).
- A pickle whose payload outgrows the 32-bit size field loses its content: a write works
  exactly when the new size fits (`WriteBytes`, `Pickle.Write`).
- `HashCache::Insert` on a present key breaks the cache (`InsertKeepsIff`,
  `SecondInsertOrphansTheFirst`), and a posted `Replace` can run when there are fewer
  than `max_size_` entries (`PostedReplaceIsSafeIff`).
- The comment at `src/base3/stringencode.cc:161` lists 33 among the unsafe URL
  characters; the table does not, and the table is what is modelled.

## Model

| member | source | states |
|---|---|---|
| `StoreSafety.StepKeepsInv` | src/bundle/bundle.cc:414-572 | every step of every session (lock attempt, stat, creation, write progress, release, crash) keeps the store invariant: one owner per lock, no owner's file shared, each acknowledged record on disk, records of a file in order and apart |
| `StoreSafety.RunsKeepInv` | src/bundle/bundle.cc:456-572 | the invariant holds after any interleaving of any number of sessions |
| `StoreSafety.HistoryGrows` | src/bundle/bundle.cc:329-390 | no later event removes or alters an acknowledgement |
| `StoreSafety.OneOwnerPerFile` | src/bundle/filelock.h:72-84 | in every run two live sessions never own one bundle file, and each owner's lock file exists; crashed sessions and stale locks included |
| `StoreSafety.FileHasOneId` | src/bundle/bundle.cc:504-506 | two ids that reach one bundle file, under any prefixes, are the same id, so one file has one lock |
| `StoreSafety.TwoLocksForOneFileIff` | src/bundle/bundle.cc:203-215 | some file has two different locks exactly when file_count_level_1 is greater than file_count_level_2 |
| `Overlap.RecordsOverlap` | src/bundle/bundle.cc:203-215 | with file_count_level_1 greater than file_count_level_2, for any contents, there is a run in which two writes return 0 with all bytes out and their records lie on the same bytes |
| `StoreSafety.RecordsAreDisjointAndPermanent` | src/bundle/bundle.cc:329-405 | in every run the byte ranges that any two writes put out into a file are disjoint, for every write that returned 0, complete or short, and in every later state each range still holds those bytes |
| `StoreSafety.ReadAfterWrite` | src/bundle/bundle.cc:217-307 | once a write has returned 0 with the header and the data out, complete or not, its URL reads back in every later state: the data come back exactly when the size in the URL is the size written (always so for BatchWrite), with a full-size user block that starts with the user data |
| `StoreSafety.ShortWriteCanReturnZero` | src/bundle/bundle.cc:382-384 | a short write(2) with a stale errno of 0 makes Write return 0 although the record cannot be read |
| `StoreSafety.FirstAllocateOpens` | src/bundle/bundle.cc:456-572 | the protocol is not empty: on an empty store six events lead to a Writer at offset 1024 of a new bundle |
| `StoreSafety.StatKeepsInv` | src/bundle/bundle.cc:504-516 | the stat under the lock, and the step that goes on to the next id with or without the lock, keep the invariant |
| `StoreSafety.CreateKeepsInv` | src/bundle/bundle.cc:414-452 | truncation happens only when the file was missing under the lock, so it destroys no record |
| `StoreSafety.ChunkKeepsInv` | src/bundle/bundle.cc:379 | progress of write(2), however torn, changes nothing that was acknowledged before |
| `StoreSafety.StoreDoneKeepsInv` | src/bundle/bundle.cc:382-405 | what is acknowledged at the end of a write lies behind everything acknowledged before it |
| `WriterCode.FileLock.TryLock` | src/bundle/filelock.h:56-84 | succeeds only if the name was free, and then the lock file exists |
| `WriterCode.FileLock.Unlock` | src/bundle/filelock.h:62-66 | removes the file if this object locked it; the flag stays set |
| `WriterCode.FileLock.Destroy` | src/bundle/filelock.h:31-35 | the destructor removes the lock file of a locked object |
| `WriterCode.UnlockThenDestroyFreesAnother` | src/bundle/filelock.h:31-66 | because Unlock leaves the flag set, Unlock followed by destruction frees a lock that another object has taken in between |
| `WriterCode.FillRecord` | src/bundle/bundle.cc:357-373 | filling the uninitialised buffer in place yields exactly the record layout |
| `WriterCode.WriterObject.WriteBytes` | src/bundle/bundle.cc:329-390 | the file changes by the bytes write(2) put out at the offset and nowhere else; the code and *written are those of the source for every outcome; when 0 is returned for data that is not empty, *written is their size exactly when all bytes went out, and at the end of the file that is exactly when the record is on disk |
| `WriterCode.WriteTwice` | src/bundle/bundle.cc:315-327 | two plain Writes of one Writer use the same offset and URL, so the second lands on the first record, and the URL reads the first content back exactly when the second begins with it, as far as it went out |
| `WriterCode.WriterObject.Write` | src/bundle/bundle.cc:315-327 | a Write is a run of protocol events of its session, and what it returns is what the history says |
| `WriterCode.WriterObject.BatchWrite` | src/bundle/bundle.cc:392-405 | the same for BatchWrite, with the offset and size it leaves behind and the URL it hands out |
| `WriterCode.WriteExec` | src/bundle/bundle.cc:315-405 | the three events of a write, together, are the file update, the acknowledgement and the new Writer of the code |
| `LockUse.RobsIff` | src/bundle/filelock.h:31-66 | for every sequence of TryLock, Unlock and destruction of any number of objects on one name: an object removes the lock file of another exactly when the file was removed since it locked and the name has been taken again |
| `LockUse.FirstRobberyIff` | src/bundle/filelock.h:31-66 | the first such removal happens exactly when the object was unlocked by hand since it locked and the name has been taken again |
| `LockUse.NeverByDestructors` | src/bundle/filelock.h:31-36 | as long as nobody calls Unlock by hand, no object ever removes the lock file of another |
| `LockUse.ItSpreads` | src/bundle/filelock.h:31-66 | after a first removal an object that was never unlocked by hand can remove the lock file of a third |
| `LockUse.Drive` | src/bundle/filelock.h:54-66 | FileLock objects follow any sequence of uses: their flags and the lock file are as computed |
| `AllocateCode.CreateBundle` | src/bundle/bundle.cc:414-452 | true exactly when the file was opened and the whole 1024-byte header went out; otherwise the file is empty or holds a part of the header, or nothing changed |
| `AllocateCode.TakeLock` | src/bundle/bundle.cc:474-502 | one turn up to the lock: the lock is taken exactly when its name is free and one of the two attempts is allowed, the call fails exactly when the first attempt does and the lock directory cannot be made; id, lock files and the events, all of session p, in every case |
| `AllocateCode.CheckBundle` | src/bundle/bundle.cc:504-550 | one turn behind the lock: another try exactly when lstat fails or the bundle is full, failure exactly when the bundle is missing and cannot be made with its whole header; id, offset, files, lock files and the events, all of session p, in every case |
| `AllocateCode.Allocate` | src/bundle/bundle.cc:456-572 | the loop is a protocol run of session p alone; result, last_id_, files and lock files are those of the turns it makes, and it ends with the Writer of an open session that holds its lock, with nothing, or still trying |
| `AllocateCode.EndsIff` | src/bundle/bundle.cc:472-572 | a Writer (or nothing) is returned exactly when some turn that is reached takes its lock and finds or makes a bundle (or cannot make the directory or the bundle) |
| `AllocateCode.LocksLeftIff` | src/bundle/bundle.cc:506-557 | Allocate leaves the lock files from before and that of its Writer, and no other exactly when no lstat failed under a lock |
| `Process.StepKeepsCoherent` | src/bundle/bundle.cc:454-572 | while the Allocate calls of a process do not overlap, the three ids a call reads from last_id_ are the same |
| `Process.RunRefines` | src/bundle/bundle.cc:454-577 | any run of any number of processes and threads in which each process is inside at most one Allocate at a time is a run of the protocol, whose sessions have ids of their own |
| `Process.RecordsAreSafe` | src/bundle/bundle.cc:454-577 | in every such run what acknowledged writes put out is disjoint and permanent |
| `Process.UrlsReadBack` | src/bundle/bundle.cc:454-577 | in every such run the URL of an acknowledged write with header and data out reads back in every later state exactly when the sizes agree |
| `Process.TwoCallsOverlap` | src/bundle/bundle.cc:480-563 | whatever the settings, two threads of one process inside Allocate at once can get one bundle at one offset under two locks; both writes return 0 and lie on the same bytes |
| `AllocateCode.Release` | src/bundle/bundle.cc:574-577 | Release is the protocol event that removes the lock file |
| `Paths.NamesAreUniqueIff` | src/bundle/bundle.cc:203-215 | no two ids share a bundle file name exactly when file_count_level_1 <= file_count_level_2 |
| `Paths.PathNamesId` | src/base3/pathops.cc:75-81 | the joined path still determines the id, under any two directories |
| `Paths.LockNamesId` | src/bundle/bundle.cc:480-481 | different ids lock different files |
| `Paths.DefaultLockIsNoBundle` | src/bundle/bundle.cc:465-469 | a lock file in the default directory is never a bundle file |
| `Record.FieldsOfHeader` | src/bundle/bundle.h:11-37 | the header fields read back as magic, version, flag, length, and the user block in its place |
| `Record.ReadRecord` | src/bundle/bundle.cc:262-307 | reading at the offset of a stored record yields the data and the user block, or the error for a length that is too large |
| `Record.WriteAtTwice` | src/bundle/bundle.cc:329-390 | two pieces written one behind the other are one write; with this, any torn write is a prefix |
| `Record.OnDiskIff` | src/bundle/bundle.cc:376-384 | where the file did not reach beyond the offset, the whole record is on disk after the write exactly when write(2) put out all of it |
| `Record.ReadsBackAtReturnIff` | src/bundle/bundle.cc:262-390 | right after a write at the end of the file the data read back exactly when the header and all of the data went out |
| `Record.OverwrittenReadsIff` | src/bundle/bundle.cc:262-390 | a record on which another is laid still reads back exactly when the second content is at least as long and agrees with the first as far as it went out |
| `Url.EncodedRoundTripIff` | src/bundle/bundle.cc:108-180 | for fields in range and a well-formed postfix the printed URL parses back to the same info exactly when its hash is not 0xFFFFFFFF |
| `Url.GoodUrlIsRefused` | src/bundle/bundle.cc:108-180 | a URL with a well-formed postfix whose hash is 0xFFFFFFFF, and that the parser refuses it |
| `Url.ParsePrintEncoded` | src/bundle/bundle.cc:108-157 | the four coded parts are cut out of the printed URL whatever the prefix holds |
| `Url.SimpleRoundTripIff` | src/bundle/bundle.cc:59-106 | the simple form parses back exactly when the prefix is not empty |
| `Url.NoPrefixIsNotReadBack` | src/bundle/bundle.cc:67-68 | without a prefix the parser takes the whole URL for the prefix |
| `Url.CutPrinted` | src/bundle/bundle.cc:110-115 | the last slash and the last dot of a printed URL are those that the printer placed |
| `Sixty.ToSixtyLoop` | src/bundle/sixty.h:14-36 | the loop over 64-bit numbers produces the base-60 digits, most significant first |
| `Sixty.FromSixtyLoop` | src/bundle/sixty.h:42-82 | the loop, with 64-bit wrap-around of each partial sum and -1 for a bad character, is the recursive definition |
| `Sixty.FromToSixty` | src/bundle/sixty.h:14-82 | decoding undoes encoding for every number from 0 to 2^63 - 1 |
| `Sixty.ToFromSixtyIff` | src/bundle/sixty.h:14-82 | encoding undoes decoding exactly on the canonical strings: alphabet only, no leading zero digit, below 2^63 |
| `Sixty.CanonicalDecodes` | src/bundle/sixty.h:42-82 | on a canonical string no partial sum leaves the range and the result is its value |
| `Sixty.RefusedIff` | src/bundle/sixty.h:56-81 | on every string of 1 to 11 characters the result is -1 exactly when a character lies outside '0'..'z', or the first character that is not the zero digit is outside the alphabet, or a sum wraps below zero; any other string is taken for its wrapped sum |
| `Sixty.ShortIsRefusedIff` | src/bundle/sixty.h:56-81 | up to ten characters no sum wraps: a bad character is noticed exactly when no digit that counts stands in front of it |
| `Sixty.BadCharacterAccepted` | src/bundle/sixty.h:75-78 | an instance: "BI" decodes to 59 although I is not in the alphabet |
| `Murmur.MurmurHash2` | src/bundle/murmurhash2.cc:37-86 | the loop and the tail switch compute the one-expression definition Hash2 |
| `Murmur.MurmurHashNeutral2` | src/bundle/murmurhash2.cc:339-381 | assembling the words from bytes gives the same hash as loading them |
| `Murmur.MurmurHashAligned2` | src/bundle/murmurhash2.cc:394-520 | for every start alignment 0 to 3, every length and seed, the shifting registers, the leftover and the tail give the hash of MurmurHash2 |
| `Murmur.AlignedFinish` | src/bundle/murmurhash2.cc:443-489 | the end of the aligned form: leftover register, last partial word and tail bytes mix in what is still missing |
| `Murmur.AlignedStep` | src/bundle/murmurhash2.cc:411-441 | the register that holds the tail of the previous word joins with the next aligned word to the next unaligned word of the message |
| `Murmur.MurmurHash2A` | src/bundle/murmurhash2.cc:206-243 | the loop computes the one-expression definition Hash2A |
| `Murmur.CMurmurHash2A.Add` | src/bundle/murmurhash2.cc:273-290 | after Add the hasher stands for the concatenation of everything fed |
| `Murmur.CMurmurHash2A.MixTail` | src/bundle/murmurhash2.cc:309-325 | bytes go into the pending word one at a time and a full word is mixed in |
| `Murmur.CMurmurHash2A.End` | src/bundle/murmurhash2.cc:292-302 | End returns Hash2A of everything fed |
| `Murmur.HashChunks` | src/bundle/murmurhash2.cc:261-331 | for every way of cutting a message into pieces the incremental hash is the one-shot hash of the whole |
| `RwLock.StepKeepsInv` | src/base3/rwlock.h:20-63 | every step (entering, sleeping, waking for a reason or for none, leaving) keeps the counters equal to the numbers of threads at each program point, and every sleeper either signalled or kept out by someone who will signal |
| `RwLock.MutualExclusion` | src/base3/rwlock.h:41-63 | no reachable state has a writer inside together with anybody else |
| `RwLock.CountersAreThreadCounts` | src/base3/rwlock.h:65-70 | in every reachable state the four counters are the numbers of threads at the four places |
| `RwLock.WritersAreServedFirst` | src/base3/rwlock.h:20-31 | while a writer waits, no step lets a new reader in |
| `RwLock.FreeLockIsNeverStuck` | src/base3/rwlock.h:33-63 | no lost wakeup: when nobody is inside and somebody waits, some waiting thread has been signalled and can enter |
| `RwLock.NoUnderflow` | src/base3/rwlock.h:33-63 | no unsigned counter is decremented at zero; writers_ is 1 whenever a writer leaves and 0 whenever one may enter, as the assertions say |
| `RwLock.EveryStateDrains` | src/base3/rwlock.h:20-63 | from every reachable state some schedule lets every thread through, so the lock never deadlocks |
| `RwLock.SomeProgress` | src/base3/rwlock.h:20-63 | as long as somebody is inside or waiting, some step brings a thread closer to leaving |
| `RwLock.StepLowers` | src/base3/rwlock.h:20-63 | every step that is neither an arrival nor a spurious wakeup lowers the number of threads inside or waiting, or else of those waiting, or else of those woken |
| `RwLock.SchedulesEnd` | src/base3/rwlock.h:20-63 | so without arrivals and spurious wakeups every schedule of n threads ends, after fewer than (n + 1)^3 steps |
| `RwLock.EveryScheduleDrains` | src/base3/rwlock.h:20-63 | and a schedule that cannot be continued has brought every thread outside, whichever thread ran and whichever sleeper was woken |
| `RwLock.ReadWriteLock.WriteUnlock` | src/base3/rwlock.h:55-63 | wakes one writer if any waits, otherwise all readers if any wait |
| `RwLock.ReadWriteLock.ReadLockEnter` | src/base3/rwlock.h:20-31 | counts the thread as waiting or as inside, by the two writer counters |
| `RwLock.ReadWriteLock.WriteLockEnter` | src/base3/rwlock.h:41-53 | counts the thread as waiting or as inside, by the two counters of threads inside |
| `Ring.Continuum.Locate` | src/base3/consistenthash.h:23-38 | the binary search returns the server of the linear clockwise scan, with wrap-around, and the empty name on an empty ring |
| `Ring.Continuum.Rebuild` | src/base3/consistenthash.h:64-106 | the new ring is a sorted arrangement of all virtual points of all servers, built exactly when the 32-bit sum of the capacities is not zero; otherwise the old ring stays |
| `Ring.Continuum.Add` | src/base3/consistenthash.h:47-51 | sets the capacity of one server and nothing else |
| `Ring.Continuum.Remove` | src/base3/consistenthash.h:52-57 | forgets one server and nothing else |
| `Ring.RemovalIff` | src/base3/consistenthash.h:23-57 | removing a server moves exactly the hashes that it served, however both rings are arranged, if and only if no two points of the remaining servers collide |
| `Ring.RemovingMovesExactlyItsHashes` | src/base3/consistenthash.h:23-57 | the same for two given rings and one hash |
| `Ring.AdditionIff` | src/base3/consistenthash.h:23-57 | adding a server or raising its capacity moves hashes to that server only, however both rings are arranged, if and only if no two earlier points collide |
| `Ring.DeterminedIff` | src/base3/consistenthash.h:23-38 | all arrangements of the points serve every hash alike if and only if no two points collide |
| `Ring.CollisionFreeIff` | src/base3/consistenthash.h:81-95 | the points do not collide if and only if the hash function keeps the virtual names of different servers apart |
| `Ring.AddingMovesOnlyToIt` | src/base3/consistenthash.h:23-57 | adding a server, or raising its capacity, moves a hash only to that server |
| `Ring.ClockwiseIsSuccessor` | src/base3/consistenthash.h:26-35 | the scan finds the point that the set of points alone determines: the nearest at or after the hash, else the lowest |
| `Ring.CollisionMovesHashes` | src/base3/consistenthash.h:81-99 | whenever two virtual names of different servers have one hash, what Rebuild promises leaves open which of the two servers gets it |
| `Ring.TotalSplits` | src/base3/consistenthash.h:68-71 | the sum of the capacities does not depend on the order of the servers |
| `Md5.Transform` | src/base3/md5.cc:62-142 | the 64 lines, four registers updated in turn, are the compression function of section 3.4 of RFC 1321 |
| `Md5.LineIsOperation` | src/base3/md5.cc:54-136 | each MD5STEP line is the operation [abcd k s i] of the standard |
| `Md5.LinesAreStandard` | src/base3/md5.cc:70-136 | the word subscripts and shift counts of the 64 lines are those of the standard |
| `Md5.F1IsF` | src/base3/md5.cc:47-48 | the optimised F1 is the function F of section 3.4 for all words |
| `Md5.F2IsG` | src/base3/md5.cc:49 | F2 is the function G |
| `Md5Stream.Context.Update` | src/base3/md5.cc:162-206 | after Update the context stands for the concatenation of everything fed: counter modulo 2^64, folded blocks, waiting bytes |
| `Md5Stream.AddToCount` | src/base3/md5.cc:169-172 | the two-word counter with its hand-made carry advances by 8 per byte modulo 2^64 |
| `Md5Stream.Context.Pad` | src/base3/md5.cc:217-241 | one or two last blocks complete the padding of sections 3.1 and 3.2 |
| `Md5Stream.Context.Final` | src/base3/md5.cc:212-251 | the digest is that of the padded message; the wipe covers only the size of a pointer, so half of the digest stays in the context |
| `Md5Stream.DigestOfPieces` | src/base3/md5.cc:148-251 | for every way of cutting a message into Update calls the digest is the fold of the compression over the padded whole |
| `Md5Stream.Sum` | src/base3/md5.cc:268-273 | the one-shot call is the same digest |
| `Md5Stream.TwoWords` | src/base3/md5.cc:243-245 | storing the two counter words is storing the 64-bit length of section 3.2 |
| `Md5Stream.ByteReverse` | src/base3/md5.cc:36-44 | harmless on a little-endian machine: every word is stored back as it was |
| `Md5Stream.DigestToBase16` | src/base3/md5.cc:253-266 | the hexadecimal text reads back as the digest |
| `PickleFormat.ReadsWhatWasWritten` | src/base3/pickle.cc:99-350 | a value of any of the ten kinds, written behind any payload, is read back where it was put, and the iterator ends where the next write begins |
| `PickleFormat.WriteExtendsReadBack` | src/base3/pickle.cc:288-350 | if a payload reads back as vs, one more write makes it read back as vs and that value |
| `PickleFormat.RunReadsBack` | src/base3/pickle.cc:99-350 | any sequence of typed writes, read with the same types through one iterator, gives the same values |
| `PickleFormat.NothingMoreToRead` | src/base3/pickle.h:159-165 | at the end every further read fails, except a raw read of no bytes |
| `PickleFormat.ReadAllIsStable` | src/base3/pickle.cc:99-286 | what could be read stays readable and the same when more is written behind it |
| `PickleFormat.AlignIntRoundsUp` | src/base3/pickle.h:210-212 | AlignInt gives the next multiple of the alignment |
| `PickleFormat.TrimmedIsWritten` | src/base3/pickle.cc:352-387 | a reserved buffer that is filled and shortened holds what WriteData of the shorter content would have written |
| `PickleObject.Pickle.constructor` | src/base3/pickle.cc:22-40 | an empty writable pickle with a header rounded up to four |
| `PickleObject.Pickle.View` | src/base3/pickle.cc:42-59 | foreign bytes are accepted exactly when the size field leaves a non-empty header that is a multiple of four, and then the payload is the rest |
| `PickleObject.Pickle.CopyOf` | src/base3/pickle.cc:61-70 | the copy has its own buffer with the same header and payload, also of a read-only original |
| `PickleObject.Pickle.Assign` | src/base3/pickle.cc:77-97 | assignment gives the same header and payload and leaves the original alone; it succeeds exactly when realloc grants the rounded size |
| `PickleObject.Pickle.Resize` | src/base3/pickle.cc:389-400 | the capacity becomes a multiple of 64 and the old bytes stay, or nothing changes |
| `PickleObject.Pickle.BeginWrite` | src/base3/pickle.cc:288-303 | the write starts at a multiple of four and the padding behind it lies inside the allocation; the size field gets the new size cut to 32 bits, and the old payload stays when it fits; it succeeds exactly when the capacity is enough or realloc grants the larger of the need and twice the capacity, rounded to 64 |
| `PickleObject.PaddingFits` | src/base3/pickle.cc:305-310 | EndWrite never leaves an allocation whose size is a multiple of 64 |
| `PickleObject.Pickle.EndWrite` | src/base3/pickle.cc:305-310 | zeros up to the next multiple of four and no other byte |
| `PickleObject.Pickle.WriteBytes` | src/base3/pickle.cc:312-323 | the bytes are appended at the aligned offset exactly when the new size fits the 32-bit size field; the header part of the user stays, and the call fails exactly when realloc refuses |
| `PickleObject.Pickle.Write` | src/base3/pickle.cc:325-350 | each Write function succeeds exactly when each allocation it needs is granted, and then appends its value in the payload format exactly when the payload with it fits the 32-bit size field |
| `PickleObject.Pickle.BeginWriteData` | src/base3/pickle.cc:352-370 | reserves a counted buffer at the end of the payload and remembers where, exactly when the length is not negative and the memory is granted |
| `PickleObject.Pickle.TrimWriteData` | src/base3/pickle.cc:372-387 | shortens the payload by the difference and corrects the count; an invalid length changes nothing |
| `PickleObject.Pickle.WriteDataAndTrim` | src/base3/pickle.cc:352-387 | reserve, fill and trim at once leave the payload that WriteData of the shorter content leaves, exactly when the memory is granted |
| `PickleObject.Pickle.ReadPiece` | src/base3/pickle.h:159-165 | a read of n bytes succeeds exactly when they lie inside the payload, and then moves the iterator to the next multiple of four |
| `PickleObject.Pickle.Read` | src/base3/pickle.cc:99-286 | each Read function on the buffer is the read of the payload format, its failures included |
| `PickleObject.Pickle.WriteThenRead` | src/base3/pickle.cc:99-350 | in a fresh pickle, values whose payload fits the size field can be written exactly when each allocation on the way is granted, for which twice their size and a unit is enough; then they come back in order and every further non-empty read fails |
| `PickleObject.EnoughMemory` | src/base3/pickle.cc:288-303 | doubling never asks for more than twice what the values need and one unit |
| `PickleObject.Transfer` | src/base3/pickle.cc:42-59 | the bytes that a pickle gives out, wrapped read-only on the other side, are accepted and have the same payload |
| `StringEncode.UrlRoundTrip` | src/base3/stringencode.cc:176-224 | url_decode undoes url_encode on every byte string, and three bytes for each byte suffice |
| `StringEncode.UrlCodeIsSafe` | src/base3/stringencode.cc:161-174 | the code holds no unsafe byte but the percent sign |
| `StringEncode.UrlEncodeInto` | src/base3/stringencode.cc:176-200 | the buffer gets the code of as many leading bytes as fit, and a terminator, for every buffer size |
| `StringEncode.UrlDecodeInto` | src/base3/stringencode.cc:202-224 | the buffer gets as much of the decoded text as fits, and a terminator |
| `StringEncode.CutsBetweenCodes` | src/base3/stringencode.cc:183-198 | a buffer that is too small is cut between two codes, and one code more would not fit |
| `StringEncode.FitsIff` | src/base3/stringencode.cc:183-198 | the buffer holds the whole code exactly when there is room for it |
| `StringEncode.HexPairReadsBack` | src/base3/stringencode.cc:53-62 | two hexadecimal digits read back as the byte |
| `Utf8.RoundTrip` | src/base3/stringencode.cc:226-285 | utf8_decode inverts utf8_encode for every value up to 0x1FFFFF, whatever follows in the text |
| `Utf8.LongFormIsTaken` | src/base3/stringencode.cc:226-285 | the two bytes C0 80 are decoded to zero, which is encoded in one byte |
| `Utf8.ReencodesIff` | src/base3/stringencode.cc:226-285 | the decoder accepts over-long forms: encoding the result gives the same bytes exactly when the form was the shortest |
| `Utf8.MasksAreRanges` | src/base3/stringencode.cc:228-258 | the bit masks of the decoder are the ranges used here |
| `Markup.XmlRoundTrip` | src/base3/stringencode.cc:345-437 | xml_decode undoes xml_encode on every byte string |
| `Markup.XmlCodeIsSafe` | src/base3/stringencode.cc:345-376 | the only special byte in the code is the ampersand |
| `Markup.StrayByteGrows` | src/base3/stringencode.cc:287-343 | the single byte 80 comes back from HTML as two bytes |
| `Markup.HtmlRoundTripIff` | src/base3/stringencode.cc:287-343 | html_decode undoes html_encode exactly on the strings made of utf8_encode outputs |
| `Markup.HtmlGivesCharacters` | src/base3/stringencode.cc:287-343 | on any bytes the result is the text read as UTF-8 and written again, stray bytes as characters of their own |
| `Markup.ReferenceDecodes` | src/base3/stringencode.cc:409-425 | a numeric reference in decimal decodes to the shortest form of its value |
| `Markup.StrtoulReadsDec` | src/base3/stringencode.cc:417-418 | strtoul reads a printed number completely and stops at the semicolon |
| `Markup.WhatFollowsIsIgnored` | src/base3/stringencode.cc:416-423 | strtoul may run past the end of the source, but the test behind it then refuses its result: the bytes that follow never matter |
| `Markup.XmlEncodeInto` | src/base3/stringencode.cc:345-376 | the loop leaves the code of as many leading bytes as fit, and a terminator, for every buffer size |
| `Markup.HtmlEncodeInto` | src/base3/stringencode.cc:287-337 | the same for html_encode, cut between characters |
| `Markup.HtmlEncodeOneAt` | src/base3/stringencode.cc:295-327 | one turn of html_encode: the entity, the plain byte or the numeric reference |
| `Markup.DecodeOneAt` | src/base3/stringencode.cc:386-433 | one turn of the decoder for every room that is left, with its named and numeric references and its ways to stop |
| `Markup.DecodeInto` | src/base3/stringencode.cc:378-437 | for every buffer size: what is stored, where the terminator goes, and that nothing behind it changes; with room for the source and a terminator it is the whole decoded text |
| `Markup.TerminatorOutsideIff` | src/base3/stringencode.cc:385-435 | the terminator is stored one place behind the buffer exactly when a numeric reference whose character takes several bytes ends where the buffer ends |
| `Markup.TerminatorOutside` | src/base3/stringencode.cc:424-435 | an instance: six bytes of source, a buffer of two |
| `Markup.FittingIsPrefix` | src/base3/stringencode.cc:385-435 | what is stored is always the beginning of the decoded text |
| `NumberConv.ParsesExactlyNumbers` | src/base3/string_number_conversions.cc:176-245 | the parser answers true with v exactly for an optional sign and digits that denote a v in range |
| `NumberConv.LeadingSpace` | src/base3/string_number_conversions.cc:181-184 | white space in front makes the answer false but leaves the value |
| `NumberConv.ParsedValueFits` | src/base3/string_number_conversions.cc:247-276 | whatever the text, the output is a value of the type |
| `NumberConv.WouldOverflowIff` | src/base3/string_number_conversions.cc:248-272 | the bounds test by division refuses exactly the digits that would leave the type, for both signs |
| `NumberConv.ParseBody` | src/base3/string_number_conversions.cc:211-243 | the digit loop yields the value of the leading digits, saturated at the bound of the sign, and no step overflows |
| `NumberConv.ParseNumber` | src/base3/string_number_conversions.cc:176-199 | the whole conversion is the specification on every string |
| `NumberConv.IntToString` | src/base3/string_number_conversions.cc:64-96 | the text is the decimal form, the minimum included, and the buffer of three characters a byte and one suffices |
| `NumberConv.UintToString` | src/base3/string_number_conversions.cc:64-96 | the same for unsigned values |
| `NumberConv.PrintBackwards` | src/base3/string_number_conversions.cc:78-92 | writing from the back never reaches the first place of the buffer |
| `NumberConv.ThreeDigitsAByte` | src/base3/string_number_conversions.cc:65-67 | three digits a byte are enough, with one to spare for a sign from two bytes on |
| `NumberConv.RoundTrip` | src/base3/string_number_conversions.cc:64-96 | the specified parser reads every printed value back |
| `NumberConv.PrintAndParse` | src/base3/string_number_conversions.cc:64-199 | the two loops, one after the other, return the value |
| `Cache.InsertKeepsIff` | src/base3/cache.h:74-80 | list and index agree after Insert exactly when the key was absent |
| `Cache.TouchKeeps` | src/base3/cache.h:53-57 | Find moves one entry to the end and keeps the agreement |
| `Cache.EraseKeeps` | src/base3/cache.h:64-72 | Erase removes one entry from both and keeps the agreement |
| `Cache.SizesAgree` | src/base3/cache.h:108-110 | agreeing containers have the same size |
| `Cache.KeptAreMostRecent` | src/base3/cache.h:93-99 | every entry that Replace keeps was used later than every entry that it drops |
| `Cache.UseGoesLast` | src/base3/cache.h:53-57 | moving the used entry to the end keeps the list in the order of last use |
| `Cache.SecondInsertOrphansTheFirst` | src/base3/cache.h:74-80 | inserting a present key leaves an entry in the list that the index no longer reaches |
| `Cache.PostedReplaceIsSafeIff` | src/base3/cache.h:82-94 | after any finds, insertions of absent keys and erasures, a posted Replace takes entries that are there exactly when the erasures that found their key do not exceed the excess at the posting and the insertions |
| `Cache.CountIsInsideIff` | src/base3/cache.h:91-94 | the unsigned difference is within the list exactly when there are max_size_ entries; otherwise it wraps past its end |
| `Cache.SizeAfter` | src/base3/cache.h:49-86 | over any run the size moves by the insertions and by the erasures that found their key |
| `Cache.Drive` | src/base3/cache.h:49-86 | the methods of the class, called in any such order, do what the run says |
| `Cache.PostedReplaceCanComeTooLate` | src/base3/cache.h:82-94 | an instance: two insertions and two erasures around a posted Replace, with room for one entry |
| `Cache.HashCache.Find` | src/base3/cache.h:49-62 | a hit returns the value and makes the entry the most recent; a miss changes nothing |
| `Cache.HashCache.Insert` | src/base3/cache.h:74-86 | appends the entry, posts a Replace at most once, and keeps the agreement exactly for a new key |
| `Cache.HashCache.Erase` | src/base3/cache.h:64-72 | keeps agreement and order |
| `Cache.HashCache.Locate` | src/base3/cache.h:27-47 | a hit as in Find; a miss creates and inserts, or returns the default |
| `Cache.HashCache.Replace` | src/base3/cache.h:88-106 | leaves exactly the max_size_ last entries, in order |
| `Tokenizer.QuickIsFull` | src/base3/string_tokenizer.h:170-206 | without quotes and options the quick search finds what the full search finds, from every position |
| `Tokenizer.TokensAreTheInput` | src/base3/string_tokenizer.h:187-206 | with RETURN_DELIMS the tokens put together are the input, for any quotes |
| `Tokenizer.DelimsAreExtra` | src/base3/string_tokenizer.h:197-200 | leaving the delimiter tokens out gives the tokens of the plain mode |
| `Tokenizer.SplitsAtDelims` | src/base3/string_tokenizer.h:170-184 | in the quick mode the tokens are the non-empty pieces between delimiters |
| `Tokenizer.StringTokenizer.QuickGetNext` | src/base3/string_tokenizer.h:170-184 | the two loops find the next token of the specification and end |
| `Tokenizer.StringTokenizer.FullGetNext` | src/base3/string_tokenizer.h:187-206 | the same with quotes, escapes and delimiter tokens |
| `Tokenizer.StringTokenizer.GetNext` | src/base3/string_tokenizer.h:127-132 | whichever search is chosen, the result is that of the full one |
| `Tokenizer.Collect` | src/base3/string_tokenizer.h:127-132 | a loop over GetNext ends and yields all tokens |

## Left out

- AllocateCode.Allocate: the loop gets a description of finitely many turns and can end still trying, because the code loops forever while all locks are held; liveness is not claimed. Ids stay below 2^31.
- AllocateCode.TakeLock, AllocateCode.CheckBundle: `last_id_` belongs to the session, as it does with one Allocate at a time in a process; Process.dfy has the shared variable, on the level of events.
- NumberConv.IntToString: widths of one byte are excluded; there the minimum and its sign need the first place of the buffer, and the code is never instantiated so.
- WriterCode.WriterObject.Write: as a protocol event after no other successful plain Write only; what a second one does is WriteTwice.
- WriterCode.WriterObject.BatchWrite: the same; after a successful plain Write it would land on that record.
- Cache.HashCache.Replace: with fewer than max_size_ entries the code runs off the list; the contract starts where it does not, and PostedReplaceIsSafeIff says when that is.
- Ring.Continuum.Rebuild: names of virtual points longer than the 20 characters of its buffer are excluded, and the window between its read lock and its write lock is not modelled.
- PickleObject.Pickle.TrimWriteData: the announced length must still stand in front of the buffer, as its comment demands; writes made after BeginWriteData are cut off, which the contract shows.
- PickleObject.Pickle.BeginWriteData: for a payload that fits the 32-bit size field, and one variable buffer per pickle, as its assertion says.
- PickleObject.Pickle.WriteDataAndTrim: the same.
- PickleObject.Pickle.WriteThenRead: for values whose payload fits; Pickle.Write says what happens to others.
- Cache.HashCache.Locate: one critical section at a time; two threads that both miss in Locate insert the key twice, with the effect shown by SecondInsertOrphansTheFirst.
- Store.Apply: sizes, offsets and lengths are natural numbers. The 64-bit wrap-around of `Align1K(512 + size)` for a size near 2^64, the `int` that Reader::Read keeps its length in (2^31 and more) and lengths beyond the 32-bit field of a record are not modelled; a write is limited to 2^31 - 1 bytes.
- Ring.Continuum.Add: a capacity is a natural number, not one of 32 bits; only the sum of capacities wraps around.
- RwLock.ReadWriteLock: counters are natural numbers, not 32-bit ones, so more than 2^32 threads are not covered; each call is split at its wait into two methods.
- Md5.T: the additive constants are those of the source; that they are sines is not shown.
- Reads that race with an unfinished write, and the uninitialised padding of records.
- Unlinking of bundles, permissions, symbolic links, several names for one directory, and several stores over one directory with different lock paths.
- File names beyond the range of int: ids stay below 2^31, and a run that would pass it is excluded.
- The MooseFS client and the Windows branches.
- `escape`, `unescape`, `encode`, `decode` of stringencode.cc, hexadecimal parsing of numbers, wide strings, `FindNext` of the pickle: they would add easy members.
- Floating-point conversions, `Dump` and the statistics of the ring, `set_max_size` of the cache.
- `std::sort` is an insertion sort, `std::hash_map` and `std::list` are maps and sequences with named nodes, `strtoul` and `atol` follow their C description.
- Sockets, FastCGI, logging, thread pools, clocks, atomic instructions and the URL, command-line and date parsers.
