# Block cache, encrypted archive and their neighbours, in Dafny

Retrovibed keeps media bytes in fixed-size block files. An archive loop encrypts a media item as one ChaCha20
stream and uploads it; a reclaim loop may then delete the block files; later reads fetch one block at a time from
the archive, decrypting from the middle of the stream. This project models that core and the machinery around it,
and proves what the design promises: never a wrong byte, the round trip through the archive, one download at a time,
no lost workload, no lost wake-up, no lost archive id. Where the code keeps a promise only under a condition, the
condition is stated and proved in both directions.

`dafny verify dfyconfig.toml` checks everything.

| file | models |
|---|---|
| `Common.dfy` | bytes, errors, identifiers, division in a form that keeps proofs linear |
| `BlockStore.dfy` | `DirCache`: positional reads and writes over block files |
| `Cryptox.dfy`, `Csprng.dfy` | the stream cipher and its random access; the self-hashing generator |
| `Ranges.dfy` | which range a download asks for |
| `Retrieval.dfy`, `Library.dfy` | read-through retrieval: the laws on values, and the objects that compute them |
| `Answers.dfy` | what the answer of a read tells its caller; under whose key a media is archived |
| `Interleaving.dfy` | the same readers step by step, under every interleaving, with a reclaim among them: what every run keeps |
| `DoubleCheck.dfy` | right files and right reads in every interleaving, and which reclaims leave them so |
| `Counts.dfy` | how often the double check lets one block be downloaded |
| `Torrents.dfy` | all torrents of a storage, which share the mutex |
| `Sequential.dfy` | every read of an interleaving is a sequential read-through, and the other way round |
| `Tree.dfy`, `FileCursor.dfy` | the virtual filesystem: directory tree, files with cursors |
| `Pool.dfy`, `Importer.dfy`, `Wakeup.dfy` | worker pool, importer and wake-up loop as step machines |
| `Backoff.dfy` | saturating exponential and bounds |
| `LibraryRows.dfy`, `TrackingRows.dfy` | the life of the archive id and of the seeding flag |

The cipher, the generators and the hash functions are uninterpreted functions; the keystream is addressed as in
section 2.4 of RFC 8439. A download delivers the requested bytes in order, in pieces of any sizes, completely or cut
short after any byte.

What the proofs bring out about the code:

- Random access converts the block start to `uint32`. Downloads are right exactly for block starts below 4 GiB
  (`DownloadsRightExactly`).
- A download cut short after at least one byte leaves a short block file. Its missing tail then reads as end of
  file and is not fetched again until the block files are reclaimed (`CutShortSpoilsExactly`).
- A short block file ends the section that `Archive` reads like the end of the media does, so a truncated object is
  uploaded without an error; of the disk's states only an absent block file fails the upload (`Archive`,
  `ArchiveReclaimRead`).
- `Reclaim` does not take the readers' mutex. At most one download is in flight whatever it does, in one torrent
  (`OneDownloadInFlight`) and in the whole storage (`OneDownloadInStorage`). But when it removes the file of a block
  whose download has begun, files, counts and reads stay right, as long as later removals do no harm, if and only if
  the download is not yet complete and the bytes lost are all zeros (`SparesExactly`); otherwise zeros stand for lost
  bytes, or a download ends well with nothing on disk, and the next waiting reader downloads the block a second time
  (`DownloadedTwice`).
- The second look lets a reader go only when its whole range is there. A reader whose range goes on where its block or
  the archived object ends downloads a block again that another reader has just completed. Every block is
  downloaded once at most if and only if no such reader shares its block with another one (`OnceExactly`,
  `TwiceWithoutRemoval`); after a truncated upload such a range is an ordinary read of the media.
- The unrecoverable latch stops readers at its check, not behind it: bytes can still land on disk if and only if a
  reader was past the check when it was set (`LatchExactly`).
- The pool's `failed` pointer belongs to the first workload that finishes, success included, so `Close` reports a
  failure exactly when the first one failed (`CloseIsComplete`), and a later `Stat` failure of the importer can go
  unreported (`ImportConserves`).
- A broadcast that meets the waiter between its send and its next wait is lost (`GuaranteedExactly`).
- An upsert puts archive ids at risk if and only if it brings a real one to a row that the running pass is still to
  archive (`LibraryRows.SafeExactly`). The callers outside the tests (`media/http.library.go:245`,
  `cmd/cmdmedia/cmd.filesystem.go:70`, `tracking/metadata.go:305`) pass the nil or the max id, so none of them does.

## Model

| member | source | states |
|---|---|---|
| BlockStore.DirCache.ReadAt | shallows/blockcache/blockcache.go:60-90 | fills the buffer with exactly the longest readable prefix of the range and leaves the rest of it alone; the error is nil when nothing is missing, not-exist when the first gap is an absent block file, EOF when it is a short one |
| BlockStore.ReadsExactly | shallows/blockcache/blockcache.go:60-90 | that description of a read has exactly one result and error for every directory and range |
| BlockStore.ReadBytesSplit | shallows/blockcache/blockcache.go:80-87 | a read in two goes, the first one complete, returns what one read does, with the same error |
| BlockStore.DirCache.WriteAt | shallows/blockcache/blockcache.go:92-119 | writes all of the buffer, chunk by chunk, with the directory of the specification as result |
| BlockStore.WrittenIsFlat | shallows/blockcache/blockcache.go:92-119 | a write at any offset and length changes exactly its range in the flat view, plus zeros in a hole of the first touched block |
| BlockStore.WrittenBlocks | shallows/blockcache/blockcache.go:46-58 | the block files that exist afterwards are the old ones and those the range touches |
| BlockStore.WrittenConcat | shallows/blockcache/blockcache.go:110-116 | two adjacent writes leave the same directory as one write of both, wherever blocks begin |
| BlockStore.ReadAfterWrite | shallows/blockcache/blockcache.go:60-119 | what was written is read back, without an error |
| Cryptox.NewReaderChaCha20 | shallows/internal/cryptox/cryptox.go:59-79 | takes 32 key bytes, then 12 nonce bytes, from the generator, and starts the keystream at byte 0 |
| Cryptox.NewOffsetWriterChaCha20 | shallows/internal/cryptox/cryptox.go:102-124 | the same key and nonce; the keystream starts at the 64-byte block of the offset |
| Cryptox.XorTwice | shallows/internal/cryptox/cryptox.go:59-100 | a reader and a writer from the same seed undo each other |
| Cryptox.ChunksDoNotMatter | shallows/internal/cryptox/cryptox.go:120-123 | one cipher over a list of writes gives the same bytes for every way of cutting them |
| Cryptox.RandomAccess | shallows/internal/cryptox/cryptox.go:102-124 | ciphertext from an aligned offset below 2^32 on, in any chunks, decrypts to that slice of the plaintext |
| Cryptox.RecoversExactly | shallows/internal/cryptox/cryptox.go:102-124 | random access at an offset works for every key, nonce, plaintext and length if and only if the offset is a multiple of 64 below 2^32 |
| Csprng.Sha512Csprng.Read | shallows/internal/cryptox/cryptox.go:25-43 | fills the whole buffer with the first bytes of H(s), H(H(s)), ... and leaves the last digest used as state |
| Csprng.StreamStarts | shallows/internal/cryptox/cryptox.go:25-43 | the stream begins with H(s), and after 64 bytes goes on as the stream of H(s) |
| Csprng.JoinsExactly | shallows/internal/cryptox/cryptox.go:25-38 | two reads in a row equal one longer read, for every hash and state, if and only if the first length is a multiple of 64 or the second read is empty |
| Ranges.RangeWithinExactly | shallows/library/blockcache.vfs.go:13-18 | inside the object the range holds its offset and ends within the object if and only if the block's end fits uint64 |
| Ranges.RangesPartition | shallows/library/blockcache.vfs.go:13-18 | ranges of two offsets are equal or disjoint, by block, each holds its offset and ends within the object |
| Ranges.FormulasAgreeExactly | shallows/library/deeppool.reader.at.cache.go:42-48 | the remainder formula gives the same range if and only if the block starts inside the object |
| Library.StreamWriter.Write | shallows/internal/cryptox/cryptox.go:120-123 | a piece is decrypted at the running keystream position and lands at the running offset |
| Library.Deeppool.Download | shallows/deeppool/deeppool.go:108-139 | however the transfer is cut and wherever it stops, the delivered bytes land as one write would |
| Library.FetchRange | shallows/library/deeppool.torrent.cache.go:93-100 | generator from the media's seed, cipher at the block start, download into the block files |
| Library.Fallback.DownloadChunk | shallows/library/deeppool.torrent.cache.go:86-101 | one block's range is fetched; an unrecoverable failure sets the latch |
| Library.Fallback.ReadAt | shallows/library/deeppool.torrent.cache.go:103-157 | files, latch, bytes and error are those of the read-through specification, whatever other readers downloaded and a reclaim removed before the mutex was free; it is refused if and only if the latch was set and the first gap is an absent block file, and then changes nothing |
| Library.DeeppoolReaderAtCache.ReadAt | shallows/library/deeppool.reader.at.cache.go:62-83 | the same for the second cache, whose download errors are swallowed |
| Library.Archive | shallows/library/archiver.go:23-46 | uploads the encryption of the section's readable prefix and records the id; fails exactly when the first gap is an absent block file, the remote side refuses, or the row update fails, and then leaves the row alone |
| Library.ReclaimDisk | shallows/library/archiver.go:48-60 | removes, file by file, every block file but those that cannot be removed; without the link it removes nothing and fails |
| Library.RoundTrip | shallows/library/archiver.go:23-60 | on the objects: archive, reclaim, open again, read back; the read succeeds if and only if the range lies in the archived prefix, and returns the original bytes |
| Answers.RefusedExactly | shallows/library/deeppool.torrent.cache.go:107-115 | a read is refused as unrecoverable if and only if the latch was set and the first gap of its range is an absent block file; it then has the bytes before the gap and changes nothing |
| Answers.RemoteExactly | shallows/library/deeppool.torrent.cache.go:134-146 | a remote error is that of a row's own download; an unrecoverable one, and nothing else the read does, sets the latch |
| Answers.AnswersAreReads | shallows/library/deeppool.torrent.cache.go:103-157 | every other answer is a plain read of the files it leaves, or of those of its second look when the lookup failed |
| Answers.RowsInTurn | shallows/library/deeppool.torrent.cache.go:127-149 | every row of the lookup gets its turn until one fails |
| Answers.DownloadExactly | shallows/library/deeppool.torrent.cache.go:86-101 | a download works if and only if the object is there and the transfer completes, and latches if and only if the transfer fails unrecoverably |
| Answers.ReaderAtAnswers | shallows/library/deeppool.reader.at.cache.go:62-83 | the second cache never shows a download's failure: its answer is a plain read of the files it leaves, or of one of its looks |
| Answers.ReaderAtFetches | shallows/library/deeppool.reader.at.cache.go:42-78 | its download is that of the block holding the disk offset plus the position, for any disk offset |
| Answers.SeedDecides | shallows/library/archiver.go:28 | a media with an encryption seed is archived under it, whatever its id |
| Answers.IdStandsIn | shallows/library/archiver.go:28 | without a seed the id stands in for it |
| Answers.ArchivedByte | shallows/library/archiver.go:28-40 | byte i of the object is byte i of the section combined with byte i % 64 of ChaCha20 block i / 64, under the generator's first 32 bytes as key and next 12 as nonce |
| Answers.ArchivedLength | shallows/library/archiver.go:35-40 | the object is as long as the readable prefix of the section |
| Retrieval.FetchDelivers | shallows/library/deeppool.torrent.cache.go:86-101 | a download of a block writes exactly the delivered prefix of the plaintext block at its start |
| Retrieval.DownloadsRightExactly | shallows/library/deeppool.torrent.cache.go:33-101 | for the block lengths the constructor admits, downloading a block is right for every media, key and transfer if and only if it starts below 2^32 |
| Retrieval.FetchView | shallows/library/deeppool.torrent.cache.go:86-101 | after any download the flat view is the old one with the delivered plaintext laid over it, and every readable byte is right |
| Retrieval.ReadThroughRight | shallows/library/deeppool.torrent.cache.go:103-157 | every read, whatever fails, keeps all readable bytes right and returns only right bytes |
| Retrieval.NeverAWrongByte | shallows/library/deeppool.torrent.cache.go:86-157 | over every run of reads, complete and cut downloads, and reclaims, whole or in part, each returned byte is the plaintext byte of its position |
| Retrieval.LatchedRun | shallows/library/deeppool.torrent.cache.go:113-115 | once latched, no sequence of reads that begin afterwards puts anything on disk, and the latch stays |
| Retrieval.DownloadSucceedsExactly | shallows/library/deeppool.torrent.cache.go:117-157 | after a complete download an in-block read succeeds if and only if its range lies in the media, with the original bytes |
| Retrieval.CutShortSpoilsExactly | shallows/library/deeppool.torrent.cache.go:107-111 | after a download of an absent block stopped at n bytes, a range of it is served by a working archive if and only if n is 0 or the range lies in the n bytes |
| Retrieval.ArchiveReclaimRead | shallows/library/archiver.go:28-45 | archive, reclaim, read: an in-block read succeeds if and only if its range lies in the prefix that was readable when archiving, and returns the bytes that were on disk |
| Retrieval.ReaderAtAgrees | shallows/library/deeppool.reader.at.cache.go:62-83 | inside the media the second cache stores and returns what the first does, and fails when it does |
| Interleaving.OneDownloadInFlight | shallows/library/deeppool.torrent.cache.go:117-118 | in every interleaving of readers of any ranges, whatever is reclaimed when, at most one download is in flight |
| Interleaving.ReadersFinish | shallows/library/deeppool.torrent.cache.go:103-157 | in every run the readers take boundedly many steps, and until all are done one of them can take a step |
| Interleaving.LatchExactly | shallows/library/deeppool.torrent.cache.go:113-134 | once the latch is set, some run still lands a byte if and only if a reader that wants bytes of a nonempty block was waiting for the mutex or about to look again, or a download was unfinished |
| Interleaving.LatchedOut | shallows/library/deeppool.torrent.cache.go:113-115 | once the latch is set, a reader not past the check never gets past it, in any run |
| Interleaving.NoDirectoryNoBytes | shallows/library/archiver.go:48-60 | once a reclaim has removed the directory no byte lands until an open makes it again |
| Interleaving.ReclaimGoesThrough | shallows/library/archiver.go:48-60 | a reclaim can run through at any moment, file by file and then the directory |
| Torrents.OneDownloadInStorage | shallows/library/deeppool.torrent.cache.go:44-70 | over every run of all torrents of a storage, which share the mutex, at most one download is in flight |
| Torrents.ProjectsToRun | shallows/library/deeppool.torrent.cache.go:55-70 | what one torrent goes through among the others is a run of it alone |
| Torrents.StorageMoves | shallows/library/deeppool.torrent.cache.go:103-157 | until every reader of every torrent is done, one of them can take a step |
| DoubleCheck.StepInv | shallows/library/deeppool.torrent.cache.go:103-157 | every step of every reader, and every removal that spares the downloads, keeps: files right, one mutex holder, written bytes present, downloaded blocks whole, reads right |
| DoubleCheck.SparingRunsGood | shallows/library/deeppool.torrent.cache.go:103-157 | in every interleaving of readers of any ranges whose removals spare the downloads: files right, a block downloaded since its file was last removed is whole, finished reads right |
| DoubleCheck.SparesExactly | shallows/library/archiver.go:48-60 | after the removal of a block file every continuation whose later removals spare the downloads keeps files, reads and downloaded blocks right if and only if no download of that block has begun, or it is not complete and all it wrote were zeros |
| Counts.DoubleCheckedDownload | shallows/library/deeppool.torrent.cache.go:107-148 | in every interleaving whose removals spare the downloads files and reads are right, and if no reader whose range passes its block's end shares the block with another one, each block has at most one successful download since its file was last removed |
| Counts.OnceExactly | shallows/library/deeppool.torrent.cache.go:117-148 | from a torrent just opened, every such run keeps every count at one at most if and only if no reader whose range passes the end of its block, or of the media, shares the block with another reader that wants bytes |
| Counts.TwiceWithoutRemoval | shallows/library/deeppool.torrent.cache.go:120-122 | two such readers: a run without any removal that downloads the block twice |
| Counts.DownloadedTwice | shallows/library/archiver.go:48-60 | removing the file of a download that is over but for its end: a waiting reader downloads the block a second time, with no removal in between |
| Sequential.EveryReadIsSequential | shallows/library/deeppool.torrent.cache.go:103-157 | in every interleaving whose reclaims touch neither a file that a download has begun nor, after this reader's second look, a file of its range: the finished read has the bytes and error of the sequential read-through of the files at its first look, given the run's latch at its check, what ended and was removed until its second look, its own row and download, and whether its lookup failed |
| Sequential.RunRefusesExactly | shallows/library/deeppool.torrent.cache.go:113-115 | in every run, whatever is reclaimed when, a finished read is refused if and only if it missed its block and found the latch set at its check |
| Sequential.AloneIsReadThrough | shallows/library/deeppool.torrent.cache.go:103-157 | a reader with nobody interfering, whatever its range, ends with the files, latch, bytes and error of the sequential read |
| Sequential.AloneLookupFails | shallows/library/deeppool.torrent.cache.go:151-153 | so does one whose lookup fails before it gives a row |
| Sequential.AnyCutting | shallows/library/deeppool.torrent.cache.go:100 | a download can arrive in pieces of any sizes, and what has landed is always its beginning |
| Tree.NewFS | shallows/blockcache/filesystem.go:265-288 | the tree's keys are exactly the files' proper ancestors, each listing as a set exactly the children, marked as directories or files |
| Tree.ListingIs | shallows/blockcache/filesystem.go:265-288 | a directory lists a name as a directory if and only if files lie below it, and as a file if and only if one has that path |
| Tree.ListedThere | shallows/blockcache/filesystem.go:190-230 | a listed directory is in the tree, a listed file among the files |
| Tree.ReachedExactly | shallows/blockcache/filesystem.go:214-230 | following listed names from "." reaches exactly the ancestors of files and files that no other file's path is a prefix of |
| Tree.WalkFindsExactly | shallows/blockcache/filesystem.go:190-230 | the walk finds nothing but files, and all of them if and only if no file path is a prefix of another |
| FileCursor.File.Clone | shallows/blockcache/filesystem.go:90-92 | the same window with a cursor cell of its own, at 0 |
| FileCursor.File.Read | shallows/blockcache/filesystem.go:118-126 | returns the flat view from offset plus cursor, and advances by exactly the bytes returned |
| FileCursor.File.Seek | shallows/blockcache/filesystem.go:138-162 | relative to start, end or cursor: the seek is taken if and only if the target lies in [0, 2^63), and then the cursor is the target; otherwise it does not move |
| FileCursor.Interleave | shallows/blockcache/filesystem.go:90-162 | any interleaving of reads and seeks on a file and its clone gives each operation the answer it would give alone |
| FileCursor.ReadsAddUp | shallows/blockcache/filesystem.go:118-126 | consecutive reads with any buffer sizes together return what one large read returns, and the cursor is where that leaves it |
| Pool.StepInv | shallows/internal/asynccompute/asyncompute.go:23-48 | every step keeps each accepted workload in exactly one place: queued, held or finished; the pointer, once set, stays |
| Pool.CloseIsComplete | shallows/internal/asynccompute/asyncompute.go:23-48 | when Close returns, every accepted workload finished exactly once, if and only if there was a worker or nothing to do; the value is the first finisher's result |
| Pool.CloseDrains | shallows/internal/asynccompute/asyncompute.go:32-48 | after close every step uses up work, and one is possible until Close returns |
| Pool.BacklogExactly | shallows/internal/asynccompute/asyncompute.go:23-30 | with no worker moving exactly as many workloads are accepted as the backlog has room for |
| Pool.OpenMoves | shallows/internal/asynccompute/asyncompute.go:23-48 | in an open pool with a worker a workload is accepted now or a worker can take a step, each leaving less to do |
| Importer.ImportConserves | shallows/library/import.filesystem.go:148-235 | when the consumer's loop ends, each submitted path was yielded, skipped or failed by its kind, exactly once, and all were submitted unless the producer failed; an error is reported if and only if a step of the producer, an operation, or the first finished workload failed |
| Importer.ImportEnds | shallows/library/import.filesystem.go:148-235 | over every run the steps but failed traversals are bounded, and until the consumer's loop has ended one is possible with nothing failing |
| Importer.TraversalReported | shallows/library/import.filesystem.go:199-224 | a traversal can fail as long as the producer works, and an import that then ends reports an error |
| Importer.NoSendAfterClose | shallows/library/import.filesystem.go:179-183 | once the results channel is closed every worker has exited |
| Wakeup.PassesAddUp | shallows/library/disk.quota.go:119-145 | over every run there is one pass at the start and one for each token received, each ended once or under way |
| Wakeup.OneFinalPass | shallows/library/disk.quota.go:34-75 | the buffer never exceeds one token; on receiving the close token the loop begins exactly one more pass, the last whatever happens, and stops exactly when it ends |
| Wakeup.CloseComes | shallows/library/disk.quota.go:43-57 | Close can be called at any time; then, as long as no pass fails, every step leaves less to do and one is possible until the final pass is over |
| Wakeup.WaiterLeaves | shallows/library/disk.quota.go:60-73 | after the cancellation a woken waiter can leave, must if the buffer is full, and never sends or waits again |
| Wakeup.FailedPassStops | shallows/library/disk.quota.go:119-145 | a pass but the last may fail, and a failed one is the last |
| Wakeup.PendingStays | shallows/library/disk.quota.go:60-73 | a pending wake-up stays pending as a token or a waking waiter until a new pass begins |
| Wakeup.ComesToRest | shallows/library/disk.quota.go:60-134 | without further broadcasts waiter and loop come to rest, each step leaving less to do |
| Wakeup.GuaranteedExactly | shallows/library/disk.quota.go:60-134 | after a broadcast every way of coming to rest makes a new pass if and only if the waiter was parked or about to send, or a token was buffered |
| Backoff.ExponentialIs | shallows/internal/backoffx/backoff.go:94-110 | for every int64 attempt and scale, what the wrapped 64-bit arithmetic returns |
| Backoff.ExponentialSaturates | shallows/internal/backoffx/backoff.go:94-110 | min(2^attempt * scale, 2^63-1) for positive scales and attempts of any size |
| Backoff.ExponentialMonotone | shallows/internal/backoffx/backoff.go:94-110 | more attempts never wait less |
| Backoff.NewClamps | shallows/internal/backoffx/backoff.go:24-73 | options whose minimums are at most their maximums fold to the clamp between the largest minimum and the smallest maximum |
| Backoff.OrderFreeExactly | shallows/internal/backoffx/backoff.go:68-73 | every order of the options gives the same strategy if and only if no minimum exceeds a maximum |
| Backoff.NewMonotone | shallows/internal/backoffx/backoff.go:24-73 | bounds keep a strategy monotone |
| LibraryRows.Table.MetadataInsertWithDefaults | shallows/library/00.genieql.go:24-29 | no other row changes; a new row is stored as given; a row with a real archive id stays as it is; any other takes the given archive id and keeps its other columns |
| LibraryRows.Table.MetadataArchivedByID | shallows/library/00.genieql.go:38-43 | makes the one row archived with the given id and quota; real archive ids survive if and only if the row had none or the same |
| LibraryRows.Table.Search | shallows/library/metadata.go:155-161 | lists exactly the rows with a real archive id, or those with the max id, each once |
| LibraryRows.ArchivedOnce | shallows/library/disk.quota.go:87-190 | over every run of upserts interleaved with archive and reclaim passes: no row is recorded as archived twice, only archived rows are reclaimed, a row with a real id has one ever after |
| LibraryRows.ArchiveIdsStay | shallows/library/disk.quota.go:87-190 | over every run whose upserts bring no real id to a row the running pass is still to archive, real ids stay the same |
| LibraryRows.SafeExactly | shallows/library/00.genieql.go:28-42 | after an upsert every such continuation keeps every real id if and only if the upsert itself brings no real id to a row still to be archived |
| LibraryRows.PassEmpties | shallows/library/disk.quota.go:87-117 | a whole pass leaves each archivable row with the id and quota of its own upload, or as it was if that failed, and every other row as it was |
| LibraryRows.PassReclaims | shallows/library/disk.quota.go:148-190 | a reclaim pass removes the blocks of exactly the rows it was given whose removal succeeds, and changes no row |
| LibraryRows.ReclaimBegins | shallows/library/disk.quota.go:148-190 | a reclaim pass can begin whenever none runs, and is given exactly the rows with a real archive id |
| TrackingRows.Table.NewMetadata | shallows/tracking/metadata.go:112-138 | the options, applied in order, give the drafted row |
| TrackingRows.Table.Execute | shallows/tracking/00.genieql.go:25-107 | a statement touches only its own row, and of it only the columns it names, each with the value it gives; progress, verify and complete leave it seeding if and only if all bytes are downloaded; an insert stores the drafted sizes with fresh stamps; seeding rows stay complete |
| TrackingRows.SafeExactly | shallows/tracking/metadata.go:100-138 | a list of options makes a consistent row whatever its sizes are if and only if no size is set after the last AutoSeeding |
| TrackingRows.SeedingNeverListed | shallows/media/http.discovered.go:698-704 | over every run of statements whose inserts use such lists, a seeding row is complete and never in the downloading listing |
| TrackingRows.PausedStaysOff | shallows/tracking/00.genieql.go:60-79 | a paused row stays off the listing through every run without a download request for it |
| TrackingRows.PauseUnlists | shallows/tracking/00.genieql.go:60-65 | after a pause the row is not listed, at any time and through every run, until a download request for it |
| TrackingRows.TombstoneUnlists | shallows/tracking/00.genieql.go:39-44 | after a tombstone it is not listed until somebody, or the automatic download, asks for it |
| TrackingRows.DownloadListsExactly | shallows/tracking/00.genieql.go:67-72 | after a download request, however its counts are updated, the row is listed exactly while the clock is past the request and bytes are missing |
| TrackingRows.AutoDownloadListsExactly | shallows/tracking/00.genieql.go:74-79 | after an automatic one, exactly if besides the row was not paused |

## Left out

- HTTP handlers, authentication, command-line commands, RSS, generated scanners and the generated batch insert: plumbing.
- Media with a nonzero disk offset: `Archive` is modelled for them, the laws of retrieval are stated for offset 0, where the coordinates of upload and download agree.
- Negative offsets and offsets near 2^63 in `DirCache` and `File.ReadAt`; no caller in the repository produces them.
- Disk faults (a full disk, failing opens other than for an absent file) and the `closed` flag of the torrent storage.
- The 32-bit block counter's own limit: the cipher library panics past 256 GiB; the model's keystream is unbounded.
- Failing generators: the ChaCha8 generator never fails, so the read errors of key and nonce do not occur.
- Timeouts, cancellation and logging; the parent context of the wake-up and of the pool is never done.
- The lookup query itself: a read is given the rows that matched; the laws ask that each archived one hold the media.
- Interleaving.OneDownloadInFlight: a look at the files, of one block or of several, and the removal of one file are single steps.
- Interleaving.ReadersFinish: the lookup gives one archived row or fails; `Retrieval` has lookups of any number of rows.
- Sequential.EveryReadIsSequential: a reclaim that removes a file which a download has begun, or after the reader's second look a file that its range touches, is outside it; SparesExactly and DownloadedTwice say what the first does.
- Retrieval.NeverAWrongByte: after a reclaim the directory exists again, as the next open makes it; while it is missing every write fails, which is a transfer that fails with nothing delivered.
- Library.RoundTrip: the torrent is opened again after the reclaim, which makes the directory; ReclaimDisk keeps no record of the directory itself.
- Library.Archive: what the remote side keeps of an upload that it then refuses.
- Whether `AsyncWakeup.Close` returns: its wait on the done condition can miss the signal, so nothing is claimed.
- Importer.ImportConserves: the consumer ranges to the end and nothing is cancelled; what an import operation does with a file is its kind only. `import.filesystem.go:181` reads the shared error and calls `Shutdown` in one argument list, whose order Go leaves open; the model reads the error after `Shutdown`.
- Tree.NewFS: paths are lists of components after the directory name was replaced by "."; entries are names, so stale copies of a directory node that a listing repeats are not told apart.
- `ReadDir` with a positive count, `File.WriteAt`, file modes and times.
- `Jitter`, `Random`, `Cycle` and the hash-based durations of the backoff package: floating point, randomness or one-line formulas.
- Manual updates and deletes of `library_metadata`, and columns that touch neither the archive id nor the seeding flag.
- Disk-usage percentages: which archived rows a reclaim pass picks is arbitrary.
