# Device connector: transfer, publishing, files and firmware

A Dafny model of the state machines inside the device connector library, with proofs that
hold for every input, every run and every interleaving of atomic steps.

* **Chunked file transfer.** A downloader plans how many packets a file takes (a
  floating-point ceiling), asks for them one by one, accepts a packet only if its own hash
  and its link to the previous packet are right, retries each at most three times, checks
  the whole file's hash, and saves it. `FileDownloader.dfy` and `FileHandler.dfy` are the
  classes, `Transfer.dfy` the state machine they are proved to implement, and
  `Binary64.dfy`, `PacketPlan.dfy`, `RequestGeometry.dfy`, `Reassembly.dfy`,
  `TransferRequests.dfy`, `TransferSafety.dfy` and `TransferProgress.dfy` hold the theorems.
* **The file download service.** One downloader per file name, two levels of command
  queues, timers and a collector, in any interleaving. `FileDownloadService.dfy` is the
  class, `DownloadMachine.dfy` the state machine, and `DownloadRuns.dfy`,
  `DownloadInitiates.dfy`, `DownloadRequests.dfy`, `DownloadIntegrity.dfy`,
  `DownloadOrigin.dfy`, `DownloadAnswers.dfy`, `DownloadAborts.dfy`, `AbortStops.dfy` and
  `AbortFinality.dfy` hold the theorems. `DownloadExamples.dfy` has runs from the initial
  state that reach the failures listed below.
* **Disk and table.** The repository as rows under two uniqueness constraints
  (`FileRepository.dfy`), the reconciliation with the directory (`FileListing.dfy`,
  `SortedNames.dfy`) and the purge (`FilePurge.dfy`).
* **Store and forward.** The recursive batch drain (`DataService.dfy`, `DataFlush.dfy`) and
  the command queue of the device facade (`Wolk.dfy`, `WolkMachine.dfy`, `WolkSteps.dfy`,
  `WolkRuns.dfy`).
* **Firmware installs and their verdict** across restarts (`FirmwareUpdate.dfy`,
  `FirmwareInstalls.dfy`).

Each object that the library updates in place is a class here, and each of its methods is
proved to take exactly the step that a function on values describes; the lemmas about all
runs (`Machine.dfy`) are about those functions. What a step achieves is stated a second time
without them, in terms of the messages sent and the state before: when each request, status
and list is sent, and what each says.

## What the proofs show to be false of the code

Each of these is kept as the code has it, and the exact condition for the code to be right
is proved.

* Requests respect the packet size limit, and are defined at all, exactly when the limit
  exceeds 64 and the computed packet count fits 32 bits (`FitsExactlyWhen`); the service rejects
  only a limit of 0. Under a limit below 64 the room for payload wraps around and a file is asked
  for whole, beyond the limit; at 64 nothing can be planned (`TinyLimitIsExceeded`).
* The floating-point packet count can be relied on exactly up to 2^53 bytes
  (`CountsExactlyUpTo`); at 2^53 + 1 a packet is lost (`LargeSizeLosesAPacket`).
* A transfer is right - no schedule of the channel spoils the file, and the lossless one
  delivers it - exactly when packets that name the same predecessor carry the same bytes and
  the planned packets reach the end of the file (`TransferIsRightExactlyWhen`). A file with, say,
  two equal blocks followed by different ones can be spoiled by a packet delivered out of turn.
* A downloader's next command calls an empty function exactly when it is data and the transfer
  is over (`FaultsExactlyWhen`); one late packet after three timeouts is enough (`LateDataFaults`).
* Aborting one download leaves the others alone exactly if none of them is the active one
  (`AbortSparesOthersExactlyWhen`, `AbortCanHurtAnother`); otherwise, once data under way has been
  dealt with, no transfer writes a file until the next initiate (`AbortStarvesTheOthers`).
* FILE_READY can still follow an abort exactly if the record already waits to be stored, or the
  commands already at the downloader complete the file when no timeout comes between them
  (`AbortIsFinalExactlyWhen`, `AbortedAndReadyIsReached`).
* A stored record is there afterwards exactly when no other name holds its path
  (`StoreThenLookup`), although FILE_READY is sent either way (`ReadyIsRecordedExactlyWhen`); so
  the table agrees with the published list exactly when no paths collide
  (`TableMatchesListExactlyWhen`).
* Removing a batch by count is right only because the command queue serialises additions
  and publishing (`RemovalByCountNeedsSerialising`).
* An abort of a firmware install has no defined outcome exactly if it is for a device that has no
  installer (`FirmwareUpdateService.HandleAbort`).
* While an install is pending, the first connect with a known version contradicts a success
  already reported exactly if that version is the trimmed recorded one, and otherwise reports
  the success a second time (`SuccessIsContradictedExactlyWhen`). An install that changed nothing
  is reported as failed exactly if the version has no trailing whitespace
  (`UnchangedVersionFailsExactlyWhen`).

## Assumptions

* Every command of a command buffer and every firing of a timer is one atomic step. The
  timer's `packetFailed` does not go through the command buffer
  (src/service/file/FileDownloader.cpp:188), so this is not enforced by the code.
* Parts that live in the SDK are abstract: SHA-256 is any function with 32-byte results, a
  packet is valid if its hash is that of its data, base64 decodes what it encodes, a
  command buffer is a FIFO queue, a timer fires at most once per start, the persistence is
  a FIFO queue per key that never refuses an item, and trailing whitespace is the six ASCII
  characters of `isspace`.
* A download callback is set by every caller; the number of a download stands for the three
  closures it was given. Before its first download the fields of a downloader are
  indeterminate in the source; here they start out cleared.
* An empty `packetProvider` being called and a packet count out of range being cast have no
  defined outcome. The state `Undefined` stands for what follows: the downloader makes no further
  call.
* A floating-point operation delivers some nearest double, and always the same one for the same
  file size. What it delivers is part of the configuration; only theorems about the whole file
  rely on it.
* Destroying a downloader drops the commands that wait in its queue.
* A status, packet request or list that the protocol cannot encode, or that is not
  published, is not distinguished from one that is sent. Only for readings and alarms,
  where it matters to what is kept, is the outcome of each attempt part of the model.
* Reading and deleting the firmware version file succeed, and its version provider does not
  disappear while it exists.

## Model

| member | source | states |
|---|---|---|
| PacketPlan.CeilOfRoundedQuotient | src/service/file/FileDownloader.cpp:49-51 | for every correctly rounded quotient of sizes up to 2^53, the ceiling of the double is the integer ceiling of the exact quotient |
| PacketPlan.PlanIsExact | src/service/file/FileDownloader.cpp:42-53 | with three roundings (both conversions to double and the division), the plan up to 2^53 bytes is that of exact arithmetic, for every limit |
| PacketPlan.DeliveredIsAtLeastOne | src/service/file/FileDownloader.cpp:49-51 | whatever the size, no division that the code performs rounds to a count of 0 |
| PacketPlan.SomethingIsDelivered | src/service/file/FileDownloader.cpp:49-50 | every division has a nearest double to deliver |
| PacketPlan.PlanPackets | src/service/file/FileDownloader.cpp:42-53 | the branches of the code give the plan, or none where the cast is undefined; up to 2^53 bytes the exact plan |
| PacketPlan.LargeSizeLosesAPacket | src/service/file/FileDownloader.cpp:50-51 | for 2^53 + 1 bytes and packets of 2^53 the code may plan one packet where two are needed |
| PacketPlan.CountsExactlyUpTo | src/service/file/FileDownloader.cpp:49-51 | every file of up to N bytes is counted exactly, at every limit and for every rounding, if and only if N is at most 2^53 |
| PacketPlan.FitsExactlyWhen | src/service/file/FileDownloadService.cpp:184-190 | requests carry payload and respect the limit if and only if the limit exceeds 64 and the computed count fits 32 bits; up to 2^53 bytes, the exact count |
| PacketPlan.TinyLimitIsExceeded | src/service/file/FileDownloader.cpp:42-46 | under every limit from 1 to 63, which the service accepts, each file that 64 bits can count with its hashes is asked for in one packet that exceeds the limit; under 64 no file has a plan |
| PacketPlan.PlanCovers | src/service/file/FileDownloader.cpp:42-53 | the planned packets hold the file, and one fewer does not, if and only if the plan is the exact one; up to 2^53 bytes it is |
| PacketPlan.PacketsTileTheFile | src/service/file/FileDownloader.cpp:42-63 | the packets' intervals cover the file with no gap, no overlap and no empty packet if and only if the plan is the exact one; up to 2^53 bytes it is |
| FileHandling.FileHandler.HandleData | src/service/file/FileHandler.cpp:32-58 | accepts a packet exactly if it is intact and names the previous packet's hash; appends it, or changes nothing; keeps the chain |
| FileHandling.FileHandler.ValidateFile | src/service/file/FileHandler.cpp:60-68 | compares the hash of the concatenated payloads of all accepted packets with the given hash |
| FileHandling.FileHandler.SaveFile | src/service/file/FileHandler.cpp:70-85 | writes exactly the accepted payloads to the composed path and reports a failed write |
| FileHandling.FileHandler.Clear | src/service/file/FileHandler.cpp:26-30 | forgets all accepted packets |
| Transfer.StepKeepsGood | src/service/file/FileDownloader.cpp:72-139 | every command and every timeout keeps the chain, the plan and the bounds on index and retry count |
| Transfer.EveryStateIsGood | src/service/file/FileDownloader.cpp:72-164 | in every state of every run the buffer is the packets accepted so far, each linked to its predecessor, fewer than planned, with one to three tries |
| TransferRequests.StepAsks | src/service/file/FileDownloader.cpp:63-139 | a step sends exactly one request if it leaves a transfer active, for the packet after those accepted and in the planned size, and none otherwise |
| TransferRequests.EveryAskIsPlanned | src/service/file/FileDownloader.cpp:182-186 | every request of every run goes back to a download with its number, names the file of that download, and asks for a packet of its plan in the planned size |
| TransferRequests.FailsExactlyWhen | src/service/file/FileDownloader.cpp:79-133 | each of the three errors, if and only if its reason applies: complete with another hash, complete and valid but not writable, or a setback on the third try; never for another download |
| TransferRequests.GivesUpAfterThreeRequests | src/service/file/FileDownloader.cpp:191-205 | in every run a download that fails for too many retries has asked exactly three times for the packet it misses and never for a later one |
| RequestGeometry.RequestsDenoteTheirPackets | src/service/file/FileDownloader.cpp:42-63 | in every run each request denotes exactly the stretch of the file that the platform's packet of its index carries, and is as long as that packet, both hashes included, if and only if the file does not end within it; a file that fits one packet is asked for to the byte |
| FileDownloading.FileDownloader.RunNext | src/service/file/FileDownloader.cpp:38-175 | for every command and every state the class takes the state machine's step and makes the same calls; keeps the timer armed exactly while a transfer is active |
| FileDownloading.FileDownloader.TimerFires | src/service/file/FileDownloader.cpp:188-205 | a timeout is a retry, or the failure of the transfer after three tries |
| FileDownloading.FileDownloader.Download | src/service/file/FileDownloader.cpp:32-65 | queues the download behind all waiting commands |
| FileDownloading.FileDownloader.HandleData | src/service/file/FileDownloader.cpp:67-69 | queues the packet behind all waiting commands |
| FileDownloading.FileDownloader.Abort | src/service/file/FileDownloader.cpp:169-180 | queues the abort behind all waiting commands |
| FileDownloading.FileDownloader.RunDownload | src/service/file/FileDownloader.cpp:38-64 | replaces whatever was active by the new transfer and asks for its first packet, unless the cast of the count is undefined |
| FileDownloading.FileDownloader.RunHandleData | src/service/file/FileDownloader.cpp:69-166 | accepts, completes, or retries as the state machine does, and with no transfer active always ends in a call of the empty function; the default branch is unreachable |
| FileDownloading.FileDownloader.DownloadComplete | src/service/file/FileDownloader.cpp:79-133 | validates, saves, reports by exactly one callback and clears |
| FileDownloading.FileDownloader.PacketFailed | src/service/file/FileDownloader.cpp:191-205 | asks again, or fails for good after the third try |
| FileDownloading.FileDownloader.RequestPacket | src/service/file/FileDownloader.cpp:182-189 | counts the try, asks for the current index and arms the timer, or calls the empty function before the timer |
| Reassembly.EveryScheduleReassembles | src/service/file/FileDownloader.cpp:38-166 | for every schedule of lost, damaged, duplicated, stale and reordered packets and timeouts the buffer is the file's prefix, validation cannot fail and what is saved is the file; for files of any size that the planned packets reach |
| Reassembly.SmallFilesAreReached | src/service/file/FileDownloader.cpp:42-53 | up to 2^53 bytes the planned packets reach the end of the file |
| Reassembly.LosslessChannelSucceeds | src/service/file/FileDownloader.cpp:72-99 | packets delivered in turn end in a save of the file itself and a reported success if and only if the planned packets reach its end |
| Reassembly.AmbiguityMisleads | src/service/file/FileHandler.cpp:39-57 | two packets with the same predecessor and different bytes give a schedule that spoils the buffer |
| Reassembly.ReassemblesExactlyWhenUnambiguous | src/service/file/FileHandler.cpp:32-58 | where the packets reach the end, reassembly is right under every schedule if and only if packets naming one predecessor carry the same bytes |
| Reassembly.TransferIsRightExactlyWhen | src/service/file/FileDownloader.cpp:38-166 | for files of any size: no schedule spoils the file and the lossless one delivers it, if and only if the file is unambiguous and the planned packets reach its end |
| TransferSafety.EverySuccessIsJustified | src/service/file/FileDownloader.cpp:80-94 | with any packets at all, each success follows a save, under the requested name, of bytes with the hash that its download gave |
| TransferSafety.ExactlyOneAnswer | src/service/file/FileDownloader.cpp:83-131 | a download fires one callback if it ends before an abort or a newer download, and none otherwise, whatever comes later |
| TransferSafety.NeverTwoAnswers | src/service/file/FileDownloader.cpp:155-175 | no download fires two callbacks in any run |
| TransferProgress.StepDecreases | src/service/file/FileDownloader.cpp:135-139 | 3 * (count - index) - (retry - 1) strictly decreases with every packet and every timeout of an active transfer |
| TransferProgress.TransferEnds | src/service/file/FileDownloader.cpp:191-205 | an active transfer ends after at most that many packets and timeouts |
| TransferProgress.TransferEndsFromStart | src/service/file/FileDownloader.h:80 | a transfer ends within three steps a packet |
| TransferProgress.RequestsAreBounded | src/service/file/FileDownloader.cpp:182-205 | in every run a download asks for indices below its count, in non-decreasing order, each at most three times, at most 3 * count times in all |
| TransferProgress.RequestsFitTheLimit | src/service/file/FileDownloader.cpp:42-53 | with a limit above 64 no request of any run exceeds it and no index overflows 32 bits |
| FileRepository.SQLiteFileRepository.GetFileInfo | src/repository/SQLiteFileRepository.cpp:56-80 | looks the name up in the map that the rows stand for |
| FileRepository.SQLiteFileRepository.GetAllFileNames | src/repository/SQLiteFileRepository.cpp:82-99 | lists each recorded name once |
| FileRepository.SQLiteFileRepository.ContainsInfoForFile | src/repository/SQLiteFileRepository.cpp:161-180 | tells exactly whether the name is recorded |
| FileRepository.SQLiteFileRepository.Store | src/repository/SQLiteFileRepository.cpp:101-123 | through its mutual recursion with the update, which ends, acts as map update, or as removal if the path is taken; keeps both uniqueness constraints |
| FileRepository.SQLiteFileRepository.Update | src/repository/SQLiteFileRepository.cpp:182-188 | has the same effect as a store |
| FileRepository.SQLiteFileRepository.Remove | src/repository/SQLiteFileRepository.cpp:125-144 | removes that name and nothing else |
| FileRepository.SQLiteFileRepository.RemoveAll | src/repository/SQLiteFileRepository.cpp:146-159 | empties the table |
| FileRepository.StoredIsConsistent | src/repository/SQLiteFileRepository.cpp:45-47 | a store keeps names and paths unique |
| FileRepository.StoreThenLookup | src/repository/SQLiteFileRepository.cpp:101-123 | the record is found afterwards if and only if no other name holds its path; otherwise neither the new nor the old one is; other names keep theirs |
| FileRepository.StoreIsIdempotent | src/repository/SQLiteFileRepository.cpp:101-123 | storing a record twice is storing it once, collision or not |
| SortedNames.SortedUniqueIncreases | src/service/file/FileDownloadService.cpp:653-656 | the returned list is strictly increasing |
| SortedNames.IncreasingListIsUnique | src/service/file/FileDownloadService.cpp:653-656 | a set of names has only one such list |
| SortedNames.LessIsLexicographic | src/service/file/FileDownloadService.cpp:654 | the order is the lexicographic one: the first position where the names differ decides, and a prefix comes first |
| FileListing.UpdateFileList | src/service/file/FileDownloadService.cpp:576-657 | the loops leave the reconciled table and return the strictly increasing list of recorded files on disk and new readable ones |
| FileListing.ReconciledContents | src/service/file/FileDownloadService.cpp:632-651 | surviving records are unchanged, every other record is a new file's with its hash and path, and a new file is missing only if its path is taken |
| FileListing.TableMatchesListExactlyWhen | src/service/file/FileDownloadService.cpp:592-651 | the table holds exactly the listed names if and only if no new path collides |
| FileListing.SecondUpdateChangesNothing | src/service/file/FileDownloadService.cpp:592-656 | a second update on an unchanged disk, listed in any order and with any repetitions, changes no record and lists the same names, even after collisions |
| FileListing.UpdateTwice | src/service/file/FileDownloadService.cpp:576-657 | two updates in a row return the same list, element for element, however the two listings are ordered |
| FilePurge.PurgeFiles | src/service/file/FileDownloadService.cpp:404-436 | removes exactly the records whose file was deleted, and deletes exactly the recorded, deletable files |
| FilePurge.DeleteFile | src/service/file/FileDownloadService.cpp:381-402 | removes the record if and only if the file was deleted; has no defined outcome exactly if there is no record |
| FilePurge.PurgeConservesAgreement | src/service/file/FileDownloadService.cpp:416-433 | if every recorded file existed, every record left still has its file, and only recorded files are lost |
| FilePurge.ListAfterPurge | src/service/file/FileDownloadService.cpp:404-486 | what the list after a purge contains, name by name, wherever the records point: recorded files exactly if still there and not deletable, unrecorded ones exactly if readable |
| FilePurge.TableAfterPurge | src/service/file/FileDownloadService.cpp:404-486 | if all records were at the paths of their names and present, the survivors stay, and table and list agree if and only if no new path collides |
| DownloadRuns.EveryEntryIsOk | src/service/file/FileDownloadService.cpp:298-334 | in every interleaving no download has the empty name, each serves the file it is named after under its own hash with its chain intact, an unflagged one is running or about to, and a flagged one that runs has an abort waiting |
| DownloadRuns.FlagsStayUntilCollected | src/service/file/FileDownloadService.cpp:558-680 | only the collector erases, it leaves exactly the unflagged entries, unchanged, and no step takes a flag back |
| DownloadRuns.UnexpectedDataIsDropped | src/service/file/FileDownloadService.cpp:168-180 | data that arrives with no active name changes nothing, in every reachable state |
| DownloadRuns.FaultsExactlyWhen | src/service/file/FileDownloadService.cpp:172-179 | in every reachable state a downloader's next command has no defined outcome if and only if it is data at an entry whose transfer is over, flagged but not collected, or it starts a file whose packet count is out of range |
| DownloadInitiates.InitiateIsAnswered | src/service/file/FileDownloadService.cpp:198-334 | in every reachable state, for a well-formed initiate: FILE_READY if and only if the table holds the name with that hash, FILE_HASH_MISMATCH if and only if it holds it with another, FILE_TRANSFER if and only if it does not hold it and no download of it has another hash; a download begins if and only if neither holds the name |
| DownloadInitiates.InitiateIsRefused | src/service/file/FileDownloadService.cpp:182-205 | a disabled protocol and a missing name, size or hash are told apart, and nothing changes |
| DownloadInitiates.AbortIsAnswered | src/service/file/FileDownloadService.cpp:348-369 | in every reachable state ABORTED is sent if and only if the name has a downloader, which gets the abort behind its waiting commands, and a flag; no other downloader changes |
| DownloadInitiates.DataIsForwarded | src/service/file/FileDownloadService.cpp:168-180 | data joins the active name's downloader's queue at its end, and nothing else changes |
| DownloadInitiates.RemovalIsFollowedByList | src/service/file/FileDownloadService.cpp:381-436 | exactly the deleted names leave the table, and a list is queued |
| DownloadInitiates.CompletedIsRecorded | src/service/file/FileDownloadService.cpp:168-228 | from the start, for every file of one packet: it is initiated, asked for, saved and recorded with the requested hash |
| DownloadInitiates.CompletedIsReadyAgain | src/service/file/FileDownloadService.cpp:214-227 | from the start: a file that was completed is answered FILE_READY when it is initiated again |
| DownloadRequests.EveryStepAsks | src/service/file/FileDownloadService.cpp:322-333 | in every run a downloader's step sends one packet request if it leaves the transfer active, for that file and the packet after those accepted, and none otherwise |
| DownloadRequests.RequestsFollowInitiates | src/service/file/FileDownloadService.cpp:488-499 | in every run each packet request is for a file whose upload the platform initiated, and for a packet of the plan of exactly that length |
| DownloadRequests.OnlyDownloadersAsk | src/service/file/FileDownloadService.cpp:488-499 | no command of the service itself sends a packet request |
| DownloadRequests.FailureIsReported | src/service/file/FileDownloadService.cpp:514-521 | in every run each error status of a running download is sent if and only if its reason applies |
| DownloadRequests.EndsQueueList | src/service/file/FileDownloadService.cpp:501-521 | whatever ends a download queues a list behind all that waits, and a completion its record before it |
| DownloadRequests.ListIsSent | src/service/file/FileDownloadService.cpp:471-486 | in every reachable state a list command sends one list, of exactly the files on disk that are recorded or readable; the table keeps no others |
| DownloadRequests.ReadyIsRecordedExactlyWhen | src/service/file/FileDownloadService.cpp:506-509 | in every reachable state recording a completed download always sends FILE_READY, but the table holds the record afterwards if and only if no other name holds its path |
| DownloadRequests.UrlFileIsRecorded | src/service/file/FileDownloadService.cpp:523-544 | in every reachable state a file from a URL is recorded with the hash of its bytes if and only if no other name holds its path |
| DownloadExamples.LateDataFaults | src/service/file/FileDownloader.cpp:182-219 | from the start, for every file that can be started: three timeouts and one late packet call the empty function |
| DownloadAborts.AbortSparesOthersExactlyWhen | src/service/file/FileDownloadService.cpp:354-364 | in every reachable state an abort changes where data goes for other downloads unless the active one is the aborted one, or there is none |
| DownloadAborts.StarvedRunsWriteNothing | src/service/file/FileDownloadService.cpp:168-180 | with no active name, no data under way and no new initiate, no run writes a file, whatever arrives |
| DownloadExamples.AbortCanHurtAnother | src/service/file/FileDownloadService.cpp:354-364 | from the start, for every two names: aborting the older download takes the data of the newer one away |
| DownloadAborts.AbortStarvesTheOthers | src/service/file/FileDownloadService.cpp:348-364 | after an abort of any name, with no data waiting at a downloader and whatever other commands wait, no download can complete until the platform initiates another upload |
| DownloadAborts.AbortedAndReady | src/service/file/FileDownloadService.cpp:354-364 | an abort that waits while the download completes sends ABORTED and then FILE_READY |
| DownloadExamples.AbortedAndReadyIsReached | src/service/file/FileDownloadService.cpp:354-364 | from the start, for every file of one packet, some run sends ABORTED and then FILE_READY |
| AbortStops.AbortStopsTheTransfer | src/service/file/FileDownloadService.cpp:348-369 | in every reachable state in which an abort is next and no initiate of its name waits: once the downloader has had its turns, in any interleaving, it is stopped, and until the name is initiated again it asks for nothing, saves nothing, calls nobody back and has no error reported |
| AbortStops.StoppedRunsAreQuiet | src/service/file/FileDownloader.cpp:169-175 | a name with nothing running stays that way, and quiet, in every run without a new initiate of it |
| AbortStops.FlaggedIsStopped | src/service/file/FileDownloadService.cpp:348-369 | in every run a flagged download has stopped or has an abort waiting |
| AbortFinality.AbortIsFinalExactlyWhen | src/service/file/FileDownloadService.cpp:348-364 | in every reachable state in which an abort is next and no initiate of its name waits: some continuation without a new initiate of the name sends FILE_READY for it if and only if its record already waits, or the commands already at its downloader complete the file without a timeout |
| AbortFinality.DoomedRunsAreNeverReady | src/service/file/FileDownloadService.cpp:348-369 | otherwise no run at all sends FILE_READY for the name until it is initiated again |
| AbortFinality.BehindSucceedsLess | src/service/file/FileDownloader.cpp:191-205 | a transfer that has timed out completes from no queue of packets from which it would not have completed before |
| DownloadIntegrity.EveryRunSaves | src/service/file/FileDownloader.cpp:80-94 | in every run, with no assumption at all, what completed downloads are about to record was saved before, to its own path, as bytes with the decoded hash |
| DownloadIntegrity.EveryRunIsHonest | src/service/file/FileDownloadService.cpp:501-544 | in addition every record and every FILE_READY is backed by earlier bytes with its hash at its path |
| DownloadIntegrity.ReadyMeansVerified | src/service/file/FileDownloadService.cpp:501-544 | every FILE_READY, also one that answers a request at once, follows a save, or a read by a rescan or URL download, of bytes whose SHA-256 is the decoded hash of the record |
| DownloadOrigin.CompletionIsVerified | src/service/file/FileDownloadService.cpp:322-512 | in every run, recording a completed download sends FILE_READY, answers an initiate of that name and hash, and follows a save under that name of bytes whose SHA-256 is the decoded hash of that request |
| DownloadOrigin.EveryRunIsTraced | src/service/file/FileDownloadService.cpp:182-334 | every download, record to be stored and FILE_READY goes back to an initiate request with that name and hash |
| DownloadOrigin.ReadyAnswersARequest | src/service/file/FileDownloadService.cpp:214-334 | each FILE_READY, those that answer at once included, answers an initiate request whose decoded hash is the SHA-256 of bytes that were at the file's path before |
| DownloadAnswers.EachDownloadIsAnsweredOnce | src/service/file/FileDownloadService.cpp:322-521 | in every interleaving, for every name: the downloads recorded with FILE_READY and those reported as failed, with those still open, never outnumber those started |
| DownloadAnswers.AnswersAreSent | src/service/file/FileDownloadService.cpp:501-521 | each step counted as an answer sends FILE_READY or an error status for the name |
| DownloadAnswers.StartsAreRequested | src/service/file/FileDownloadService.cpp:182-219 | only an initiate request of the name starts a download |
| DownloadService.FileDownloadService.HandleBinary | src/service/file/FileDownloadService.cpp:168-180 | queues the packet at the downloader of the active name, or drops it |
| DownloadService.FileDownloadService.HandleInitiate | src/service/file/FileDownloadService.cpp:182-228 | the six outcomes of an initiate request, as the state machine has them |
| DownloadService.FileDownloadService.Download | src/service/file/FileDownloadService.cpp:298-334 | starts at most one downloader a name and leaves all others untouched |
| DownloadService.FileDownloadService.HandleAbort | src/service/file/FileDownloadService.cpp:230-369 | queues the abort, flags the entry and clears the active name, whichever name is aborted |
| DownloadService.FileDownloadService.FlagCompletedDownload | src/service/file/FileDownloadService.cpp:558-569 | sets the flag of that name only |
| DownloadService.FileDownloadService.RunDownloader | src/service/file/FileDownloadService.cpp:322-333 | a downloader's command, with all callbacks it leads to, makes the step of the state machine and leaves the other downloads as they are |
| DownloadService.FileDownloadService.TimerFires | src/service/file/FileDownloader.cpp:188-205 | so does the firing of its timer |
| DownloadService.FileDownloadService.DownloadCompleted | src/service/file/FileDownloadService.cpp:501-512 | flags, then queues the record with the hash of the request, then the list |
| DownloadService.FileDownloadService.DownloadFailed | src/service/file/FileDownloadService.cpp:514-521 | flags, reports the error and queues the list |
| DownloadService.FileDownloadService.RecordCompleted | src/service/file/FileDownloadService.cpp:506-509 | stores the record, then reports FILE_READY |
| DownloadService.FileDownloadService.SendFileListUpdate | src/service/file/FileDownloadService.cpp:471-486 | reconciles the table and returns the list it agrees with |
| DownloadService.FileDownloadService.ClearDownloads | src/service/file/FileDownloadService.cpp:665-680 | one pass erases the flagged entries and keeps the others as they are, in any order of visits |
| DataPublishing.DrainConserves | src/service/data/DataService.cpp:171-196 | the removed batches followed by what is left are the queue, item by item, for any outcomes |
| DataPublishing.DrainIsOneShot | src/service/data/DataService.cpp:171-231 | the recursion refines a one-shot drain: k successes in a row take k batches, full except perhaps the last, and a batch that cannot be encoded is dropped and ends it |
| DataPublishing.PrefixLeaves | src/service/data/DataService.cpp:185-195 | exactly the first min(50 * k, n) items leave, in order, when k batches are removed |
| DataPublishing.EverythingPublished | src/service/data/DataService.h:93 | with all successes there are ceil(n / 50) messages, all full except perhaps the last, and the queue is empty |
| DataPublishing.RemovalByCountNeedsSerialising | src/service/data/DataService.cpp:173-191 | removing 50 loses nothing if and only if the fetch was full or nothing was added in between |
| DataPublishing.FlushConserves | src/service/data/DataService.cpp:163-204 | a pass over any keys conserves every key's queue |
| DataPublishing.FlushLeavesOthers | src/service/data/DataService.cpp:163-169 | queues of other keys are untouched |
| DataFlush.FlushIsPass | src/service/data/DataService.cpp:163-204 | whatever becomes of the attempts: key by key, each queue gives up as many full batches as its own attempts succeed in a row, these follow those of the keys before it, and the batches leave in that order |
| DataFlush.FlushEmpties | src/service/data/DataService.cpp:163-204 | if all attempts succeed, every key of the pass ends up empty and every message holds one to fifty items |
| DataPublishing.PublishForKey | src/service/data/DataService.cpp:171-231 | the recursive method performs that drain on the shared persistence, and ends |
| DataPublishing.PublishAll | src/service/data/DataService.cpp:163-204 | the loop over the keys performs the drains one after the other |
| WolkRuns.EveryCommandRunsOnceInOrder | src/Wolk.cpp:155-179 | in every run the commands issued are those executed followed by those waiting, in order |
| WolkRuns.WaitingCommandsRunNext | src/Wolk.cpp:274-292 | a failed connect queues up behind all waiting commands, which run next, once each, in order |
| WolkRuns.ConnectsAreConserved | src/Wolk.cpp:274-315 | waiting connect attempts plus connections made are always the calls of connect |
| WolkRuns.NothingLostOrReordered | src/service/data/DataService.cpp:127-231 | in every run, for every key, what was added is the removed batches, then the queue, then the waiting commands, in order; for readings and for alarms |
| WolkDevice.Wolk.AddSensorReading | src/Wolk.cpp:55-79 | queues the reading with its time stamp; no values, no command |
| WolkDevice.Wolk.AddAlarm | src/Wolk.cpp:81-89 | queues the alarm with its time stamp |
| WolkDevice.Wolk.Issue | src/Wolk.cpp:142-179 | queues any other command behind all waiting ones |
| WolkDevice.Wolk.RunNext | src/Wolk.cpp:155-292 | the class takes the state machine's step for the oldest command |
| WolkDevice.Wolk.NotifyConnected | src/Wolk.cpp:294-315 | tells the keep-alive and firmware services, queues one status per actuator and the configuration, asks for the file list, then queues a publish |
| WolkSteps.PublishDrainsEachKey | src/Wolk.cpp:155-163 | for arbitrary outcomes: a publish command drains the alarm queues and then the reading queues of the listed keys, each as far as its own attempts succeed, and touches nothing else |
| WolkSteps.PublishSendsEverything | src/Wolk.cpp:155-163 | if all attempts succeed, a publish command sends every alarm and reading of the listed keys, in order, alarms first, and leaves their queues empty |
| WolkSteps.ConnectQueues | src/Wolk.cpp:274-315 | a successful connect queues one status for each actuator in order, the configuration and a publish, behind all that waits; a failed one queues another attempt |
| WolkSteps.ConnectIsAnnounced | src/Wolk.cpp:294-315 | on a connection the keep-alive and firmware services, the status commands, the file service and the publish follow in this order |
| WolkRuns.EachConnectionIsToldOnce | src/Wolk.cpp:257-315 | in every run each service there is hears of each connection exactly once; one firmware verdict is sought a connection |
| FirmwareUpdate.FirmwareUpdateService.HandleInstall | src/service/firmware/FirmwareUpdateService.cpp:139-240 | every way an install command ends, and when the version file is written |
| FirmwareUpdate.FirmwareUpdateService.HandleAbort | src/service/firmware/FirmwareUpdateService.cpp:176-260 | an abort for this device alone reports ABORTED exactly if the installer aborted, and nothing otherwise; with no installer it has no defined outcome |
| FirmwareInstalls.OthersAreIgnored | src/service/firmware/FirmwareUpdateService.cpp:147-153 | a command for another device, for none or for several sends nothing and leaves the version file |
| FirmwareInstalls.InstallRuns | src/service/firmware/FirmwareUpdateService.cpp:195-240 | each way an install command ends, by the conditions on the command and the device alone |
| FirmwareInstalls.InstallsAreCommanded | src/service/firmware/FirmwareUpdateService.cpp:139-240 | in every run the version file is written and the installer started only for a command that names this device alone, with the version and the path it then had |
| FirmwareInstalls.StatusesAreAccountedFor | src/service/firmware/FirmwareUpdateService.cpp:139-260 | in every run each status, INSTALLATION included, is sent exactly as often as its conditions are met |
| FirmwareUpdate.FirmwareUpdateService.ReportFirmwareUpdateResult | src/service/firmware/FirmwareUpdateService.cpp:79-109 | sends one verdict and deletes the file, or leaves both |
| FirmwareUpdate.EveryVerdictIsFounded | src/service/firmware/FirmwareUpdateService.cpp:79-109 | over every run with restarts, each verdict answers the latest recorded install, not answered before, and is COMPLETED exactly if the version differs from the trimmed recorded one |
| FirmwareUpdate.VerdictsNeverExceedRecords | src/service/firmware/FirmwareUpdateService.cpp:195-240 | verdicts never outnumber the installs that wrote the version file |
| FirmwareUpdate.VerdictStaysPending | src/service/firmware/FirmwareUpdateService.cpp:91-97 | connects without a known version leave a pending verdict pending |
| FirmwareUpdate.NextVerdict | src/service/firmware/FirmwareUpdateService.cpp:79-109 | in every run the first connect with a known version gives the verdict on the pending install, and none if none is pending |
| FirmwareUpdate.SuccessIsContradictedExactlyWhen | src/service/firmware/FirmwareUpdateService.cpp:242-246 | in every run, after a reported success with the install still pending, the first connect with a known version sends INSTALLATION_FAILED if and only if that version is the trimmed recorded one, and otherwise COMPLETED again |
| FirmwareUpdate.UnchangedVersionFailsExactlyWhen | src/service/firmware/FirmwareUpdateService.cpp:89-106 | in every run an install that changed nothing is reported as failed if and only if the recorded version does not end in whitespace |
| FirmwareUpdate.SuccessMayBeContradicted | src/service/firmware/FirmwareUpdateService.cpp:242-246 | a run in which COMPLETED is followed by INSTALLATION_FAILED on the next connect |

## Left out

- What an empty function or an undefined cast does when it is reached: beyond the state `Undefined`, nothing.
- FileRepository.SQLiteFileRepository.Store: no SQL failure other than a violated uniqueness constraint; a failing delete would make store and update call each other without end.
- The branch for missing file names in purgeFiles and updateFileList, since the SQLite repository always returns a list.
- The dispatch loop of the service class: its methods are the individual commands, and the state machine orders them. There, deleteFile and purgeFiles appear as the removal of any names followed by a list.
- Which files can be deleted during a purge is fixed in advance, as is which files can be read during one update.
- Actuator status and configuration slots: one value a key, overwritten by a put and removed after one publish; their commands take their place in the queue but change no modelled state.
- The handlers of inbound actuation and configuration commands, what the keep-alive service does with its notice, and the URL download statuses.
- MQTT, last will, JSON, topic matching, the builder, the model classes, SQL text, logging, threads and locks.
- Liveness of the collector, which waits without a predicate, and wall-clock time.
