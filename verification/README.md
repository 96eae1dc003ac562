# Verified model of the update service

A Dafny model of the software-update server and client: a resumable download over framed messages,
SHA-256, the server's threads and shared tables, the asynchronous logger, and the files that both sides keep.
`dafny verify dfyconfig.toml` checks everything.

## What is modelled

**The resumable transfer** is a state machine of interleaved steps (`Transfer`): every connection of one client
with its two message queues, the server thread of each connection, the client with its stdio buffer, its
`.part` and installed files and its version row, and a manifest that may be reloaded at any time. Disk
failures, short writes, lost buffers, timeouts, disconnects, clicks and stop signals are choices of the
environment, so a theorem about all runs covers all of them. `TransferSafety` and `TransferResults` hold in
any environment, also when a package is replaced under its version. `TransferConservation` adds that the server's
disk agrees with the manifest (`HonestRun`), and follows the bytes that the unchecked flushes of pauses lose;
`TransferResume` is about the runs in which no pause that lost bytes is resumed, and `TransferProgress` about how a
download then goes on and completes. `TransferSteps` says what single steps do. `TransferWitnesses` has the runs that
break the promises the code does not keep, and one that meets all assumptions; `TransferCounting` says exactly when
an installed update is counted, and `TransferRow` when the version row can go down. The loops themselves are
methods, `PackageService.PkgStreamFile` and the class `Downloader.Download`, proved to compute functions of
scripts; `Simulation` proves that these functions are runs of the state machine. `Retry` is the retry loop around
the attempts, and `RetrySimulation` makes it a run, too.

**SHA-256**: `Sha256Spec` is FIPS 180-4 written from the standard; `Sha256` is the code, with its context, its
byte-at-a-time update, its padding in place and its file loop, proved to compute that function. `Sha256Vectors` ties
the constants to the roots of primes, and computes a known answer. `Hex` is the text form of digests and its comparison.

**The wire**: `Wire` has frames over a transport that fragments at will, `KeyValue` and `Decimal` the payload
texts, `Offer` the agreement of both sides on an update offer.

**The server's threads**: `TaskQueue` is the ring, refining a bounded FIFO; `Wakeups` its condition variable
with any number of workers, spurious wakeups and stealing; `ActiveIds` the table of active client ids;
`Server` all threads as one state machine, `ServerSafety` its invariant, `ServerResults` what it means, `ServerAuth`
what has happened before a client is served.
`VersionManager` is the manifest with its all-or-nothing reload, `Logger` the logger.

**The tables**: `Text` reads lines as `fgets` and `trim_text` do, `Rows` is what the two table scans share,
`Registry` is the client registry, `VersionTable`, `VersionTableLaws` and `VersionTableRuns` the version table that
all clients share, `SemVer` the order of versions.

Where DESIGN.md and the code disagree the model follows the code: the backoff is linear and has no jitter
(Project_3/Project_3/src/client/downloader.c:965), DOWNLOAD_REQ carries no version
(Project_3/Project_3/src/client/downloader.c:533), and the resume offset comes from the size of the `.part` file alone
(Project_3/Project_3/src/client/downloader.c:526); the `.resume` file is never read.

Loops that wait for the outside world take a script of what it does. A script that is used up stands for a
connection that has failed. A file reads completely, up to a read error, or not at all (`Text.Reading`). Sizes
are unbounded integers: file sizes stay below 2^63, so the 64-bit sums of the source do not wrap, and the
statements about printed offers have that bound.

## Model

| member | source | states |
|---|---|---|
| `TransferConservation.BytesAreConserved` | Project_3/Project_3/src/server/package_service.c:132-164 | With an honest server, in every reachable state of an open download, whatever the flushes write: the bytes in flight are the package from the client's count to the server's, and to the end once the server has left its loop or a TRANSFER_DONE is in flight; the count exceeds file ++ buffer by what the pauses of this download lost; file ++ buffer ++ flight is the first `sent` bytes exactly when nothing is lost and the download started from a prefix |
| `TransferConservation.NeverTooManyBytes` | Project_3/Project_3/src/client/downloader.c:636-645 | Against an honest server the next DATA frame never exceeds the announced size, also after lost bytes |
| `TransferConservation.WholeFileIff` | Project_3/Project_3/src/client/downloader.c:577-605 | In every run with an honest server, the file that reaches the whole-file check is the package exactly when no pause of this download flushed short and the download started from a prefix; it is shorter by exactly the lost bytes |
| `TransferConservation.LostIffShortPause` | Project_3/Project_3/src/client/downloader.c:577-585 | Bytes are lost exactly when the run has a pause whose flush fell short, with no new download since |
| `TransferResume.PartsArePrefixes` | Project_3/Project_3/src/client/downloader.c:526-551 | After any run of disconnects, crashes that lose a suffix, short writes, short flushes, pauses, stops and reconnects, in which no pause that lost bytes is resumed, each `.part` file is a prefix of its package |
| `TransferResume.CheckAlwaysPasses` | Project_3/Project_3/src/client/downloader.c:689-706 | In such a run every attempt that reaches the whole-file check has exactly the package on disk, and with a good read the check passes |
| `TransferProgress.ResumedDownloadInstalls` | Project_3/Project_3/src/client/downloader.c:526-713 | Resuming works: from any state between two attempts whose `.part` file is a front of the package (or longer than it), a new connection to the same offer streams exactly the bytes behind that file, and when nobody pauses it and nothing fails the installed file is the package, with one rename recorded |
| `TransferProgress.ReachedDownloadResumes` | Project_3/Project_3/src/client/downloader.c:526-713 | So in every state that a lossless run with an honest server reaches between two attempts: what is on the disk and what the next stream carries are together the package, and the download completes |
| `TransferProgress.UpdateCanStillComplete` | Project_3/Project_3/src/client/downloader.c:747-883 | In each of these states some continuation installs the package of the current manifest, for any chunk size |
| `TransferProgress.Restarts` | Project_3/Project_3/src/client/downloader.c:526-576 | Connecting again, the offer, the request and the opened file leave the client with the count and the file of the old `.part`, and the server streaming from there |
| `TransferProgress.Finishes` | Project_3/Project_3/src/client/downloader.c:689-713 | With the package in file and buffer, TRANSFER_DONE, flush, check and rename install it |
| `TransferSteps.UpdateDecision` | Project_3/Project_3/src/server/worker.c:182-217 | The answer to VERSION_REQ is the offer exactly when the numbers of the manifest's version are lexicographically above those of the client's, UP_TO_DATE and BYE exactly when both texts are versions and they are not, and an error otherwise |
| `TransferSteps.OfferTaken` | Project_3/Project_3/src/client/downloader.c:526-576 | An offer that is taken keeps the `.part` file when it is no longer than the package and empties it when it is; the count and the offset in the request are the length of what is kept |
| `TransferSteps.OfferNotTaken` | Project_3/Project_3/src/client/downloader.c:489-558 | How the attempt ends on an invalid version, a request that is not sent or a file that does not open, and what of the file and the request is left |
| `TransferSteps.RequestTaken` | Project_3/Project_3/src/server/worker.c:225-247 | The server streams from the offset asked for, is done at once when nothing is missing, and refuses an offset behind the announced size or the end of the file |
| `TransferSteps.Interrupted` | Project_3/Project_3/src/client/downloader.c:395-427 | An interruption writes the front of the buffer behind the file, all of it when the close succeeds, and sends nothing |
| `TransferSteps.PauseTaken` | Project_3/Project_3/src/client/downloader.c:577-605 | A pause writes the front of the buffer, forgets the rest, and sends PAUSE with the count; a PAUSE that is not sent ends the attempt |
| `TransferSteps.HoldEnds` | Project_3/Project_3/src/client/downloader.c:207-249 | Only a RESUME that was sent goes on with the download; each other end of the hold has its result, and the file stays as it is |
| `TransferSteps.DataTaken` | Project_3/Project_3/src/client/downloader.c:636-661 | A DATA frame that fits is counted and buffered |
| `TransferSteps.TooMuchData` | Project_3/Project_3/src/client/downloader.c:636-645 | One that does not fit ends the check and removes the file |
| `TransferSteps.DoneTaken` | Project_3/Project_3/src/client/downloader.c:662-672 | TRANSFER_DONE with the digest of the offer ends the loop; with another digest the file is removed |
| `TransferSteps.OtherAnswers` | Project_3/Project_3/src/client/downloader.c:839-883 | An attempt without an offer ends in success when the client is up to date, in a retry or fatally after an error, and as interrupted otherwise |
| `TransferSteps.CheckStarts` | Project_3/Project_3/src/client/downloader.c:885-904 | A check works from the row it has seen, and from 0.0.0 without one |
| `TransferSteps.RowWritten` | Project_3/Project_3/src/client/downloader.c:719-745 | The row is written last; a write that fails is fatal and leaves it as it was |
| `TransferConservation.RunsAreHonest` | Project_3/Project_3/src/client/downloader.c:489-745 | The joint invariant of client, server, both queues and the track of lost bytes behind these results, for all runs with an honest server |
| `TransferWitnesses.FlushFailureLosesBytes` | Project_3/Project_3/src/client/downloader.c:577-585 | A concrete run with an honest server and one pause whose flush writes nothing: TRANSFER_DONE is accepted and the check is reached with an empty file for a package of one byte |
| `TransferWitnesses.HonestRunsExist` | Project_3/Project_3/src/client/downloader.c:489-706 | The assumptions of these results can be met: a download with a pause that is resumed reaches the check with the whole package, in a run with an honest server and no loss |
| `TransferResults.PauseHandshake` | Project_3/Project_3/src/server/package_service.c:41-81 | A control message read while streaming is PAUSE and one read while holding is RESUME, on every connection, so neither error branch is taken |
| `TransferResults.OneManifestPerSession` | Project_3/Project_3/src/server/worker.c:176-252 | Manifest, offer and final digest of one session come from a single snapshot, on both sides, through any reloads |
| `TransferResults.InstalledFilesMatchTheirOffer` | Project_3/Project_3/src/client/downloader.c:697-713 | Each file ever renamed into place hashes to the digest offered in its own session, whatever the server does to packages and manifest |
| `TransferResults.FinalsAreInstalls` | Project_3/Project_3/src/client/downloader.c:708-713 | The installed files are the start overlaid with the history of renames: nothing else changes an installed file |
| `TransferResults.ServedOnlyAfterInstall` | Project_3/Project_3/src/server/worker.c:254-269 | `updates_served` is the number of counted sessions, never more than the renames, and each counted session has a rename of its own |
| `TransferCounting.CountedIffNoPauseFound` | Project_3/Project_3/src/server/worker.c:249-269 | In every run, a session whose client has reported the update installed and whose thread has ended has been counted exactly when the thread never found a PAUSE where it waited for the RESULT and did not end by a failure of its own |
| `TransferWitnesses.NextLookCountsIff` | Project_3/Project_3/src/server/worker.c:254-269 | While the thread still waits and the report is on its way, its next look counts the update exactly when no PAUSE is unread |
| `TransferWitnesses.InstalledButNotCounted` | Project_3/Project_3/src/server/worker.c:254-257 | A concrete run, with a pause after the last chunk, that installs the file while the session ends uncounted |
| `TransferWitnesses.LatePauseEndsTheSession` | Project_3/Project_3/src/server/worker.c:254-257 | The same with the usual timing: the thread reads the PAUSE at once and closes; the client resumes, installs and reports, with no PAUSE unread |
| `TransferRow.RowChange` | Project_3/Project_3/src/client/downloader.c:719-726 | A step of the client that changes the version row writes the version of this session's offer, just renamed into place and newer than the version its check works from, and ends the check; it goes up when that version is the row |
| `TransferRow.RowOnlyGoesUp` | Project_3/Project_3/src/server/worker.c:182-200 | Over any run in which each check has seen its row and no other client has dropped it, between any two moments the row is unchanged or strictly newer, in the order that `SemVer.ComparedByNumbers` shows to be that of the numbers in the texts |
| `TransferRow.RowFallsIff` | Project_3/Project_3/src/client/downloader.c:440-486 | For every row: some run has a step of the client that lowers it exactly when it is newer than 0.0.1; the run given is a check whose read of the table missed the row, with an offer of 0.0.1 |
| `TransferRow.RowChangesOncePerRun` | Project_3/Project_3/src/client/downloader.c:885-913 | Between two changes of the row by the client a new check for updates starts |
| `RetrySimulation.CallsAreRun` | Project_3/Project_3/src/client/downloader.c:905-974 | The attempts that the retry loop makes are a run of the two-party model: each starts where the model can connect, and after the last one the check is over or can be given up |
| `RetrySimulation.OneCallChangesRowOnce` | Project_3/Project_3/src/client/downloader.c:885-975 | One call of CheckForUpdate, with all its attempts, changes the row at most once |
| `TransferSafety.RunsAreSafe` | Project_3/Project_3/src/client/downloader.c:747-883 | The invariant of all connections, the client and the history of renames behind these results, in any environment |
| `TransferSafety.ServerKeepsConn` | Project_3/Project_3/src/server/worker.c:122-280 | Every step of a session thread keeps the control queue, the snapshot and the messages in flight in agreement |
| `PackageService.PkgStreamFile` | Project_3/Project_3/src/server/package_service.c:106-174 | The loop sends exactly the frames of `StreamRun`, returns 0 exactly when it sent the last chunk, refuses a bad offset or chunk size, and counts the payload bytes it sent |
| `Simulation.StreamIsRun` | Project_3/Project_3/src/server/package_service.c:134-164 | For every script whose control messages wait in the queue there are events of the thread, on any connection of the system, after which its place, the frames it sent and the messages left unread are those of the streaming loop, and no other connection has changed |
| `PackageService.HandlePauseIfRequested` | Project_3/Project_3/src/server/package_service.c:41-81 | Returns 0 exactly when nothing was read or a PAUSE was answered by RESUME in time |
| `PackageService.StreamCarriesFile` | Project_3/Project_3/src/server/package_service.c:132-164 | The frames of a stream carry the file from the offset without gap or overlap, and all of it when the stream finishes |
| `PackageService.FramesWellFormed` | Project_3/Project_3/src/server/package_service.c:142-158 | No DATA frame is empty or above the chunk size; LAST is set exactly on the frame that completes the file, and nothing follows it |
| `PackageService.FrameCount` | Project_3/Project_3/src/server/package_service.c:132-164 | With full reads a finished stream from offset o is exactly ceil((size - o) / chunk) frames |
| `Downloader.Download.constructor` | Project_3/Project_3/src/client/downloader.c:526-576 | The count starts at the size of the `.part` file when that is at most the announced size, and at 0 otherwise; the file is kept in the first case and emptied in the second; nothing is buffered |
| `Downloader.Download.Receive` | Project_3/Project_3/src/client/downloader.c:576-687 | The loop leaves file, buffer, flags and sent messages exactly as `ReceiveRun`, which `Simulation.ReceiveIsRun` shows to be a run of the two-party model |
| `Simulation.ReceiveIsRun` | Project_3/Project_3/src/client/downloader.c:576-687 | For every script of turns whose messages wait in the queue there are client events of the state machine after which client, `.part` file and sent messages are those of the receive loop, the queue has lost exactly the messages taken, and nothing else has changed |
| `Simulation.InstallIsRun` | Project_3/Project_3/src/client/downloader.c:689-726 | The same for the end of an attempt: flush, check, rename, report, BYE and version row, with the one rename it records |
| `Downloader.Download.OneTurn` | Project_3/Project_3/src/client/downloader.c:577-687 | One turn of the loop is one turn of the protocol |
| `Simulation.TurnIsRun` | Project_3/Project_3/src/client/downloader.c:577-687 | One turn is one or two events of the state machine |
| `Downloader.Download.PauseAndWait` | Project_3/Project_3/src/client/downloader.c:207-249 | The pause: flush, PAUSE with the count, then resume, reconnect or paused, with the flags of each exit |
| `Downloader.Download.TakeFrame` | Project_3/Project_3/src/client/downloader.c:636-687 | DATA is buffered and counted, too many bytes remove the file, a short write or a foreign message ends the attempt, a wrong final digest removes the file |
| `Downloader.Download.SaveInterrupted` | Project_3/Project_3/src/client/downloader.c:395-427 | What an interruption writes back, and which flag each result sets |
| `Downloader.Download.Install` | Project_3/Project_3/src/client/downloader.c:689-745 | The outcome is that of the protocol steps, which `Simulation.InstallIsRun` shows to be a run; the final file changes exactly when flush, check and rename all succeed, RESULT ok is sent only after the rename, and the row is written last |
| `Retry.InterruptibleSleep` | Project_3/Project_3/src/client/downloader.c:191-200 | Sleeps at most the requested time, all of it unless stopped, at most 100 ms for each look at the flag, and reports the flag as it last saw it |
| `Retry.CheckForUpdate` | Project_3/Project_3/src/client/downloader.c:905-974 | Terminates whenever finitely many attempts end in a resumed connection; at most `retry_max` plain results; calls at most `retry_max` plus resumed ones; each return code with its cause; total sleep |
| `Retry.WaitsGrowLinearly` | Project_3/Project_3/src/client/downloader.c:959-970 | After n plain retries the sleeps add up to backoff * (1 + ... + n) |
| `Retry.LinearBackoff` | Project_3/Project_3/src/client/downloader.c:959-970 | A run of n = `retry_max` plain retries sleeps exactly backoff * n * (n - 1) / 2 ms |
| `Retry.ReconnectsWaitTenSeconds` | Project_3/Project_3/src/client/downloader.c:930-951 | After n lost connections the sleeps add up to 10 * n seconds, whatever the backoff |
| `Retry.ResumedAreRetriedAtOnce` | Project_3/Project_3/src/client/downloader.c:915-929 | Attempts that end in a resumed connection use up neither an attempt number nor any waiting time |
| `Sha256Spec.PaddingIsLeast` | Project_3/Project_3/src/common/sha256.c:116-128 | The number of padding bits is the least one that section 5.1.1 of FIPS 180-4 allows |
| `Sha256Spec.LengthFieldIsExact` | Project_3/Project_3/src/common/sha256.c:130-138 | Below 2^64 bits the eight stored bytes are the big-endian length |
| `Sha256Spec.HashBlocksConcat` | Project_3/Project_3/src/common/sha256.c:102-112 | Hashing a concatenation of blocks continues from the hash of the first part |
| `Sha256Vectors.RoundConstants` | Project_3/Project_3/src/common/sha256.c:13-30 | Each of the 64 round constants holds the first 32 binary places of the cube root of its prime, as section 4.2.2 of FIPS 180-4 defines it: c^3 <= p * 2^96 < (c + 1)^3 |
| `Sha256Vectors.TableOfPrimes` | Project_3/Project_3/src/common/sha256.c:13-30 | The 64 numbers of that table are primes in increasing order, from 2 to 311 |
| `Sha256Vectors.InitialHashValue` | Project_3/Project_3/src/common/sha256.c:88-100 | The eight initial words hold the first 32 binary places of the square roots of 2 to 19, as section 5.3.3 defines them |
| `Sha256Vectors.DigestOfAbc` | Project_3/Project_3/src/common/sha256.c:37-147 | A known answer, through padding, schedule, all 64 rounds and output: the digest of "abc" is the 32 bytes that begin with ba7816bf |
| `Sha256.Schedule` | Project_3/Project_3/src/common/sha256.c:40-50 | The two schedule loops compute the words W of section 6.2.2 |
| `Sha256.RunRounds` | Project_3/Project_3/src/common/sha256.c:52-76 | The loop with rotating variables computes the 64 rounds of section 6.2.2, with the constants of `Sha256Vectors.RoundConstants` |
| `Sha256.Context.Transform` | Project_3/Project_3/src/common/sha256.c:37-86 | One call is one compression of section 6.2.2 |
| `Sha256.Context.constructor` | Project_3/Project_3/src/common/sha256.c:88-100 | A fresh context stands for the empty message |
| `Sha256.Context.Update` | Project_3/Project_3/src/common/sha256.c:102-112 | The context afterwards is that of the message with the input appended, so any split of a message gives the same context |
| `Sha256.Context.Final` | Project_3/Project_3/src/common/sha256.c:114-147 | The in-place padding, in one block or two, yields the FIPS 180-4 digest of everything absorbed |
| `Sha256.PadInOneBlock` | Project_3/Project_3/src/common/sha256.c:124-139 | With at most 55 bytes left the padded message of section 5.1.1 ends in the same block |
| `Sha256.PadInTwoBlocks` | Project_3/Project_3/src/common/sha256.c:118-139 | Otherwise it takes exactly one block more, split as the code splits it |
| `Sha256.LengthFieldWraps` | Project_3/Project_3/src/common/sha256.c:130-138 | The 64-bit wrap of `bit_len` does not change the stored length field |
| `Sha256.HashBuffer` | Project_3/Project_3/src/common/sha256.c:189-200 | The digest of a buffer is the FIPS 180-4 digest |
| `Sha256.HashFile` | Project_3/Project_3/src/common/sha256.c:213-250 | Hashing a file in 64 KiB reads gives the digest of its bytes, and fails exactly on a read error |
| `Hex.BytesToHex` | Project_3/Project_3/src/common/sha256.c:163-171 | Two lower-case digits a byte |
| `Hex.HexToBytes` | Project_3/Project_3/src/common/sha256.c:173-187 | Accepts exactly the hexadecimal texts of the right length, and returns the bytes they stand for |
| `Hex.DecodeEncode` | Project_3/Project_3/src/common/sha256.c:163-187 | Decoding undoes encoding |
| `Hex.DigitExample` | Project_3/Project_3/src/common/sha256.c:149-171 | The sixteen digits in their order, the high half of each byte first |
| `Hex.EqualIffSameBytes` | Project_3/Project_3/src/client/downloader.c:662-706 | Two hexadecimal digests compare equal ignoring case exactly when they decode to the same bytes |
| `Wire.GetOfPut` | Project_3/Project_3/src/common/protocol.c:6-20 | Reading back a stored 32-bit length gives the length |
| `Wire.EncodingExample` | Project_3/Project_3/src/common/protocol.c:22-50 | A DATA frame with the LAST flag, byte by byte, and the byte order of the length |
| `Wire.FramesArrive` | Project_3/Project_3/src/common/protocol.c:66-103 | For every list of frames, each within the limits of the call that receives it, and every fragmentation, the receives return exactly that list and leave the rest of the stream untouched |
| `Wire.AcceptedIsEncoding` | Project_3/Project_3/src/common/protocol.c:66-103 | Whatever is accepted is the encoding of the frame returned, within the caps |
| `Wire.ReceivedIsEncoded` | Project_3/Project_3/src/common/protocol.c:66-103 | The bytes consumed by any number of receives are the encoding of the frames returned |
| `Wire.Refusals` | Project_3/Project_3/src/common/protocol.c:66-103 | What is refused, on any fragmentation: exactly a foreign header, and a length above the buffer or above the limit for its kind of frame |
| `Wire.ReadIsExact` | Project_3/Project_3/src/common/netutil.c:207-243 | A successful read returns the next bytes of the stream, no more and no fewer |
| `Wire.Conn.ReadExactly` | Project_3/Project_3/src/common/netutil.c:207-243 | The loop over partial reads is the recursive reading of the stream, failures included |
| `Wire.Conn.Recv` | Project_3/Project_3/src/common/protocol.c:66-103 | The method is the function the framing results are about |
| `Wire.Conn.WriteAll` | Project_3/Project_3/src/common/netutil.c:169-205 | All bytes are sent, or a proper prefix of them; on a healthy transport all of them |
| `Wire.Conn.Send` | Project_3/Project_3/src/common/protocol.c:22-50 | The whole encoding is sent, or a proper prefix of it; an oversized control payload is refused |
| `KeyValue.KvGet` | Project_3/Project_3/src/common/protocol.c:105-131 | The scanning pointer finds the first part with the key, if its value fits the buffer |
| `KeyValue.GetOfJoin` | Project_3/Project_3/src/common/protocol.c:105-131 | Reading a key of a printed list of fields gives the value printed for its first field, and nothing when that does not fit the buffer |
| `KeyValue.GetAbsent` | Project_3/Project_3/src/common/protocol.c:105-131 | A key that no field of a printed list has is not found |
| `KeyValue.ParseOfPrint` | Project_3/Project_3/src/common/protocol.c:133-145 | A printed 64-bit number is read back |
| `KeyValue.ParseOfNumber` | Project_3/Project_3/src/common/protocol.c:133-145 | Spaces, an optional sign and digits read as their value, as the largest 64-bit number when they are too big, and wrapped behind a minus |
| `KeyValue.ParseOfOther` | Project_3/Project_3/src/common/protocol.c:133-145 | Anything behind the digits, or no digits, and the number is not taken |
| `KeyValue.U64OfJoin` | Project_3/Project_3/src/common/protocol.c:133-145 | A number field is read back from a printed list, whatever the fallback |
| `Offer.OfferIsReadBack` | Project_3/Project_3/src/server/worker.c:210-217 | The client reads back version, size, digest and chunk size of every offer the server can print, and its clamp changes nothing |
| `Offer.OfferSpelledOut` | Project_3/Project_3/src/server/worker.c:210-217 | The text of the offer: ver, size, chunk, chunks and sha256, in this order, with the chunk count rounded up |
| `Offer.OffsetIsReadBack` | Project_3/Project_3/src/server/worker.c:230-234 | The server reads back the offset that the client printed |
| `Offer.DataFramesFit` | Project_3/Project_3/src/client/downloader.c:494-525 | No DATA frame of a stream exceeds the limit that the client derives from the offer |
| `Offer.AnnouncedChunks` | Project_3/Project_3/src/server/worker.c:210-217 | With full reads a whole transfer takes exactly the announced number of chunks |
| `TaskQueue.Queue.TryPush` | Project_3/Project_3/src/common/threadpool.c:32-48 | The ring appends to a bounded FIFO, or refuses when it is full or closed |
| `TaskQueue.Queue.TryPop` | Project_3/Project_3/src/common/threadpool.c:50-68 | The ring takes the oldest item; when empty it reports the end after a shutdown and otherwise waits |
| `TaskQueue.Queue.Shutdown` | Project_3/Project_3/src/common/threadpool.c:70-79 | Closes the FIFO and changes nothing else |
| `TaskQueue.Init` | Project_3/Project_3/src/common/threadpool.c:5-19 | An empty queue, exactly for a positive capacity with memory to hold it |
| `Wakeups.NoLostWakeup` | Project_3/Project_3/src/common/threadpool.c:32-79 | In every reachable state, beside a sleeper the queued items are at most the woken workers; after a shutdown nobody sleeps; an item is stranded only when every worker has left its loop |
| `Wakeups.FirstInFirstOut` | Project_3/Project_3/src/common/threadpool.c:32-68 | Accepted items are the popped ones in order followed by the queue |
| `Wakeups.StoppedMeansDrained` | Project_3/Project_3/src/common/threadpool.c:57-60 | Once a worker has seen the end, every accepted item was popped |
| `Wakeups.ShutdownOnlyDrains` | Project_3/Project_3/src/common/threadpool.c:70-79 | After a shutdown nothing is accepted and the queue only loses items from its front, in any continuation |
| `Wakeups.EndsInTime` | Project_3/Project_3/src/common/threadpool.c:50-79 | After a shutdown, in any continuation, the looks and departures of workers and what is left to do add up to queued items plus workers at the start; when there have been as many, the queue is empty and no worker is left |
| `ActiveIds.Table.TryReserve` | Project_3/Project_3/src/server/worker.c:16-44 | A reservation succeeds exactly for a non-empty id that is in no slot while some slot is empty, and then takes the first empty one; a duplicate anywhere in the table is reported as such; otherwise nothing changes |
| `ActiveIds.Table.Free` | Project_3/Project_3/src/server/worker.c:46-60 | Empties the first slot with the id, if there is one, and changes nothing else |
| `ActiveIds.ReserveAddsOne` | Project_3/Project_3/src/server/worker.c:16-44 | A reservation exchanges one empty slot for the id; any other outcome leaves the table alone |
| `ActiveIds.ReleaseUndoesReserve` | Project_3/Project_3/src/server/worker.c:46-60 | A release gives back the table as it was before the reservation |
| `ServerSafety.RunsKeepInv` | Project_3/Project_3/src/server/worker.c:282-337 | The invariant of connections, slots and counters, for every interleaving of acceptor, workers and shutdown |
| `ServerSafety.SlotMoves` | Project_3/Project_3/src/server/worker.c:16-60 | Of all steps only a reservation and its release touch the table, each for the id of its own worker |
| `ServerResults.SessionExclusivity` | Project_3/Project_3/src/server/worker.c:134-153 | The non-empty slots are exactly the ids of the sessions with a reservation, without duplicates, and no two sessions share an id |
| `ServerResults.AuthenticatedIff` | Project_3/Project_3/src/server/worker.c:77-120 | Authenticated is exactly the client whose AUTH payload names its own certificate, with a registry that is well formed throughout and enables it |
| `ServerAuth.AuthDecides` | Project_3/Project_3/src/server/worker.c:77-120 | One step: the AUTH of a session authenticates its own connection exactly for an id that is the certificate's name, the payload's id and admitted by a readable registry, and ends the session otherwise; nothing else changes |
| `ServerAuth.ServedOnlyIfAdmitted` | Project_3/Project_3/src/server/worker.c:122-153 | Over every run: a worker with an authenticated client, from then until the release of the id, has had such an AUTH of its own, for this connection and this id |
| `ServerAuth.AuthOkOnlyIfAdmitted` | Project_3/Project_3/src/server/worker.c:151-155 | So AUTH_OK is sent only for an id that was admitted on this connection |
| `ServerAuth.TransferOnlyAfterAuthOk` | Project_3/Project_3/src/server/worker.c:151-242 | And a session goes on, to a transfer or without one, only after its AUTH_OK went out |
| `ServerAuth.ReserveDecides` | Project_3/Project_3/src/server/worker.c:134-153 | One step: the reservation succeeds exactly for an id that is in no slot while one is empty, takes the first empty slot, and otherwise ends the session with the table unchanged |
| `ServerAuth.NoSessionAfterStop` | Project_3/Project_3/src/server/worker.c:290-303 | Once the server has been told to stop, a worker without a session starts none in any continuation |
| `ServerResults.AuthOkOnlyToHolder` | Project_3/Project_3/src/server/worker.c:151-155 | AUTH_OK is sent only by a session that holds its id in the table, alone |
| `ServerResults.DuplicateIsTurnedAway` | Project_3/Project_3/src/server/worker.c:136-150 | A second session for an id in use ends with table and holder unchanged |
| `ServerResults.ReservationLasts` | Project_3/Project_3/src/server/worker.c:275-279 | Whatever the other threads do, a reservation stays until its own worker acts |
| `ServerResults.CountersMatch` | Project_3/Project_3/src/server/worker.c:236-242 | `busy_workers` and `active_transfers` are the numbers of workers in those phases, at every update boundary |
| `ServerResults.ExactlyOnePlace` | Project_3/Project_3/src/server/acceptor.c:44-69 | Each accepted connection is with the acceptor, queued, with one worker, or closed, in exactly one of these, and closed at most once |
| `ServerResults.ClosedIffNotQueued` | Project_3/Project_3/src/server/worker.c:290-333 | When all threads are done a connection has been closed exactly when it is not left in the queue |
| `ServerResults.QueuedConnectionIsNeverClosed` | Project_3/Project_3/src/common/threadpool.c:21-30 | A concrete run that leaves a queued connection unclosed |
| `VersionManager.Manager.Reload` | Project_3/Project_3/src/server/version_manager.c:30-89 | The manifest is replaced as a whole, exactly when some manifest fits configuration, size and package bytes, and then by that one; otherwise it is unchanged; it stays the outcome of the recorded reloads |
| `VersionManager.CandidateIff` | Project_3/Project_3/src/server/version_manager.c:30-89 | The manifest that a reload installs, field by field: each key with its default and its limit, the size that was reported, the hexadecimal digest of the package bytes; and exactly the conditions under which there is one |
| `VersionManager.NeverMixed` | Project_3/Project_3/src/server/version_manager.c:82-84 | What a manager holds after a series of reloads is the start or, all of it, the outcome of the last reload that succeeded |
| `VersionManager.Manager.GetSnapshot` | Project_3/Project_3/src/server/version_manager.c:91-100 | All fields of a snapshot come from the last reload that succeeded; a loaded snapshot has valid versions and a digest of 64 digits |
| `VersionManager.ChecksumIsDigest` | Project_3/Project_3/src/server/version_manager.c:71-79 | A configured checksum is accepted exactly when it is absent or stands for the SHA-256 digest of the package |
| `VersionManager.ReloadedCanBeOffered` | Project_3/Project_3/src/server/worker.c:210-217 | Every reloaded manifest is one whose offer the client reads back |
| `Logger.AsyncLogger.LogMsg` | Project_3/Project_3/src/common/logger.c:214-224 | Appends to the ring queue, or counts a drop when it is full |
| `Logger.AsyncLogger.TakeLine` | Project_3/Project_3/src/common/logger.c:103-118 | Takes the oldest line and the drop count, ends after a stop, or waits |
| `Logger.AsyncLogger.WriteTaken` | Project_3/Project_3/src/common/logger.c:120-126 | Writes the report, if lines were dropped, and then the line |
| `Logger.AsyncLogger.RingAdd` | Project_3/Project_3/src/common/logger.c:77-89 | The GUI ring gains the line and, when full, loses its oldest |
| `Logger.AsyncLogger.Recent` | Project_3/Project_3/src/common/logger.c:227-241 | The last min(max, 64, total) lines of the file, in order: an ordinary line as its own text, a report with its number |
| `Logger.Accounting` | Project_3/Project_3/src/common/logger.c:100-129 | Over every run: written lines ++ line in hand ++ queue are the accepted lines, reported plus pending drops are the refused ones, and a drop is pending only while the queue is full |
| `Logger.DrainedMeansReported` | Project_3/Project_3/src/common/logger.c:100-129 | Once drained, the file has every accepted line in order and reports every refused one |
| `Text.TrimKeeps` | Project_3/Project_3/src/client/downloader.c:58-72 | Trimming leaves a trimmed text alone, with or without a newline |
| `Text.TrimPadded` | Project_3/Project_3/src/common/auth.c:7-23 | Trimming takes the padding off both sides, and the end of the line, and leaves what is between |
| `Text.SplitOfLines` | Project_3/Project_3/src/client/downloader.c:459-464 | Reading a file with `fgets` gives back the lines it was written from |
| `Text.DeliveredLines` | Project_3/Project_3/src/client/downloader.c:309-310 | A read error hides lines from a loop over `fgets`, but neither changes nor cuts any |
| `Text.DeliveredIff` | Project_3/Project_3/src/client/downloader.c:309-310 | The hidden lines are exactly those that are not complete before the error, and those behind them |
| `Rows.Remember` | Project_3/Project_3/src/client/downloader.c:163-181 | An id is remembered exactly when it is new and there is room |
| `Rows.SoundSnoc` | Project_3/Project_3/src/client/downloader.c:440-486 | One more row keeps a table well formed exactly when the scan admits it |
| `Rows.LookupIff` | Project_3/Project_3/src/common/auth.c:50-112 | A lookup in a well-formed table finds a value exactly when a row says so |
| `Rows.LookupPermutes` | Project_3/Project_3/src/common/auth.c:50-112 | A well-formed table gives the same answer in any order |
| `Registry.AuthClientStatus` | Project_3/Project_3/src/common/auth.c:47-112 | The early-exit scan computes the decision on all that can be read of the file; a file that cannot be opened is invalid; for a registry with one printed row per client the answer is the flag of the client's row, and not found for any other id |
| `Registry.PrintedRegistry` | Project_3/Project_3/src/common/auth.c:47-112 | For any list of up to 512 clients with distinct ids, the registry printed for it answers OK for the enabled, disabled for the disabled, and not found for all others |
| `Registry.RowWithWord` | Project_3/Project_3/src/common/auth.c:25-112 | What a row with a separator means, with padding anywhere: the id before the first colon, or else the first equals sign; enabled for no word, 1, enabled and allow, disabled for 0, disabled and deny, in any letter case, and bad for any other word |
| `Registry.RowWithoutWord` | Project_3/Project_3/src/common/auth.c:72-83 | A row without a separator enables its id |
| `Registry.BlankRows` | Project_3/Project_3/src/common/auth.c:62-70 | Blank lines and comments do not count |
| `Registry.RowWithoutName` | Project_3/Project_3/src/common/auth.c:83-87 | A row with an empty id, or one of 64 characters or more, is bad |
| `Registry.RowExamples` | Project_3/Project_3/src/common/auth.c:25-45 | The two words of the shipped registry |
| `Registry.OtherWords` | Project_3/Project_3/src/common/auth.c:25-45 | Another letter case, and a word that is none of the registry's |
| `Registry.OkExactlyWhenEnabled` | Project_3/Project_3/src/common/auth.c:47-112 | An id is OK, or disabled, exactly when every row is well formed, ids are distinct, rows number at most 512 and its own row says so; the file is invalid exactly when it is not in order |
| `Registry.OrderDoesNotMatter` | Project_3/Project_3/src/common/auth.c:47-112 | The answer is the same for every permutation of newline-terminated lines |
| `Registry.ReadErrorHidesRows` | Project_3/Project_3/src/common/auth.c:62-111 | A read error in a well-formed registry leaves the answer as it is for an id whose row was reached, and makes any other not found |
| `VersionTable.VersionFile.GetCurrentVersion` | Project_3/Project_3/src/client/downloader.c:429-487 | The scan finds the row of the id in what can be read of a well-formed table, 0.0.0 without one or when the table cannot be opened, an error in any other table; an inline version comes first |
| `VersionTableLaws.CurrentByRows` | Project_3/Project_3/src/client/downloader.c:429-487 | The answer by the rows: an inline version exactly if it is one; 0.0.0 without the lock or the file, or without a row; the version of the row; an error exactly when the table is not well formed |
| `VersionTableLaws.PaddedRow` | Project_3/Project_3/src/client/downloader.c:109-153 | A row means the same with padding anywhere around its parts |
| `VersionTableRuns.WriteThenCurrent` | Project_3/Project_3/src/client/downloader.c:286-487 | After a write that fits, its client is at the version written and the answer of no other client has changed |
| `VersionTableRuns.EveryClientIsCurrent` | Project_3/Project_3/src/client/downloader.c:286-487 | Over any series of such writes every client is at the version of its own last one that succeeded |
| `VersionTable.VersionFile.Write` | Project_3/Project_3/src/client/downloader.c:286-368 | The table is replaced by the edit of the lines that could be read, none when it cannot be opened, exactly when the lock, the edit and every call that writes succeed, and is otherwise unchanged |
| `VersionTable.ReadForWrite` | Project_3/Project_3/src/client/downloader.c:299-341 | The read loop over two arrays of 512 entries computes the edited lines, or refuses |
| `VersionTableLaws.RowReadsBack` | Project_3/Project_3/src/client/downloader.c:109-153 | A written row is read back as id and version exactly when the id is one that a row can hold |
| `VersionTableLaws.WriteThenRead` | Project_3/Project_3/src/client/downloader.c:286-368 | For a well-formed table within the limits, of which the write saw all but at most its own last row: a read then gives the new version, every other id reads as before, other lines keep their places, and the table stays well formed |
| `VersionTableLaws.KeepsLinesIff` | Project_3/Project_3/src/client/downloader.c:307-341 | A successful write keeps all other lines exactly when the table has at most 512 lines, has the row or ends in a newline, and no line was hidden by a failed open or read, except the row itself at the end |
| `VersionTableRuns.EveryClientReadsItsLastWrite` | Project_3/Project_3/src/client/downloader.c:286-368 | Over any series of writes by any clients, some of which may fail, that hide nothing they do not rewrite: the table stays well formed and within the limits, and every id reads the version of its own last successful write, or what it read at the start |
| `VersionTableRuns.LandsIff` | Project_3/Project_3/src/client/downloader.c:334-368 | In such a table a write that sees all lines fails only for want of a free line, the lock or the disk |
| `VersionTableLaws.PastTheLimitIsLost` | Project_3/Project_3/src/client/downloader.c:309-341 | In a longer table every id whose row stands past line 512 reads 0.0.0 after a successful write |
| `VersionTableLaws.UnopenedTableIsReplaced` | Project_3/Project_3/src/client/downloader.c:307-341 | When the table exists and cannot be opened, a write puts its one row in the place of the table, and every other id then reads 0.0.0 |
| `VersionTableLaws.UnopenedTableLosesRows` | Project_3/Project_3/src/client/downloader.c:307-341 | A concrete table of two rows, within all limits and with the row to write, that loses the other row in this way |
| `VersionTableLaws.MissingNewlineBreaksTheTable` | Project_3/Project_3/src/client/downloader.c:339-341 | A concrete table without a final newline that no read accepts after an append |
| `SemVer.ValidIffParts` | Project_3/Project_3/src/common/version.c:6-41 | A text is a version exactly when it is three numerals up to 999999 joined by dots |
| `SemVer.ParseOfParts` | Project_3/Project_3/src/common/version.c:6-41 | And it parses to the values of the numerals |
| `SemVer.CompareIsOrder` | Project_3/Project_3/src/common/version.c:43-55 | The comparison is the numeric lexicographic order: antisymmetric, transitive, zero only for equal versions |
| `SemVer.OlderIffNumbers` | Project_3/Project_3/src/common/version.c:43-66 | For any six numerals, a.b.c is older than d.e.f exactly when the numbers are lexicographically below, and the same exactly when they agree |
| `SemVer.ComparedByNumbers` | Project_3/Project_3/src/common/version.c:57-66 | For any two texts: no comparison exactly when one is not a version, older exactly when its numbers are below, equal exactly when they agree |
| `SemVer.ComparisonExamples` | Project_3/Project_3/src/common/version.c:43-66 | 1.4.0 before 1.5.0, 1.9.0 before 1.10.0, 2.0.0 not before 1.9.9, 01.2.3 the same as 1.2.3 |
| `SemVer.OlderIsTransitive` | Project_3/Project_3/src/common/version.c:57-66 | The update decision is a strict order on texts; by `SemVer.ComparedByNumbers` it is that of their numbers |

## Left out

- Downloader.OnPause: bytes that a failed flush leaves in the stdio buffer are dropped; whether a later write of the C library could still save them is undefined there.
- Downloader.Download.Receive: bytes stay in the stdio buffer until a flush; that the library may write some of them earlier is a step of its own in `Transfer` (`Spill`), not of the loop.
- Transfer.Next: HELLO, AUTH and the parsing of payloads are folded into the steps that carry their content; `Server` has the authentication and reservation, `KeyValue` and `Offer` the payload texts.
- Transfer.ClientStep: `run_attempt` and `handle_client_session` are steps on values, not methods; their straight-line code has no loop, and its interleavings are the point.
- TransferSteps.OtherAnswers: a connection lost before an offer is a reconnect; the source calls it a plain retry while no download has been interrupted. Both lead to another attempt, and differ in the wait only, where `Retry` takes either.
- TransferSteps.RowWritten: the ten-second display after a finished or needless update, which a stop turns into the result PAUSED, is not a step; the check is over either way.
- Sha256Vectors.TableOfPrimes: that no prime below 311 is missing from the table is not stated.
- Transfer.CurrentVersion: no inline override; the table that a check reads either has the client's row (`seen`) or does not, for whatever reason; a check that finds the table malformed does not start.
- Transfer.Initial: one client process; two processes with the same id are excluded by a lock file that is not part of this model.
- Server.Event: the reply texts, the error, connection and authentication-failure counters and the label list of the dashboard are not part of the state.
- Server.QueuedConnectionIsNeverClosed: the queue is not destroyed in the model; the lemma is about the state in which the source destroys it.
- Wakeups.Event: the mutex is the atomicity of the steps; fairness and real-time progress are not stated.
- PackageService.PkgStreamFile: `break` with an error code is written as a loop guard on the code; the delay between packets is left out.
- Downloader.Download: the exits of a pause keep the file handle and the buffer allocated in the source; the release of memory and handles is not modelled.
- Retry.Wait: `backoff * attempt` is an unbounded product; the source computes it in an `int`.
- VersionManager.Candidate: whether a package path resolves is an input; `stat` and the hashing may see different files, as in the source.
- Logger.Log: the drop counter does not wrap, and a logger that is not started or filters the level writes nothing to the queue and is left out.
- Sha256Spec.Sha256: from 2^61 bytes on, where the standard is not defined, the function keeps the low 64 bits of the length, as the code does.
- VersionTable.ParseRow: texts hold no NUL character; the source would cut a line there.
- TLS, certificates and cipher set-up: the certificate name is an input of the authentication decision.
- Sockets, `select`, timeouts and peer names: readiness and failures are choices of the environment; the notice sent to a rejected connection is not a protocol frame.
- The OpenGL windows of client and server: clicks are choices of the environment.
- Signals, lock files, prompts, thread creation and process exit: a stop flag and a running flag remain.
- The configuration parser: only lookups with defaults, as inputs of the reload.
- Log line formatting, timestamps, transfer speed, directory creation and path joining: texts and paths are opaque.
- The strength of SHA-256: files are shown equal only where the bytes are tracked; elsewhere only their digests are.
