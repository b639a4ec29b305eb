# Models of the NanoKVM firmware's protocols and formats

Each module models one piece of the repository whose correctness rests on an
argument over several functions or over whole runs, and proves that argument.
`dafny verify dfyconfig.toml` checks all of it.

| file | models |
|---|---|
| CaptureHandoff.dfy | the C capture thread and the Go reader, with pause, start, stop and destroy, as labelled steps over atomics, eventfds and locks |
| VideoPacks.dfy | assembling the packs of an access unit, in Go storage and through the worker's C slot |
| Pacing.dfy | the capture thread's deadlines |
| Sanitize.dfy | the log viewer's redaction and bounds |
| LogArchive.dfy | the log archive: appends, rewrites, committed windows, crashes, boot rotation |
| Edid.dfy | inserting and removing the Video Capability Data Block (section 7.5.6 of CTA-861-G), and the receiver's limits |
| Fat12.dfy | the helper disk's FAT12 image, read back by sections 3, 4 and 6 of the Microsoft FAT Specification |
| StockLayout.dfy | the partition planner and its one-sector commit |
| ResizeParser.dfy | the serial bridge's parser of terminal size replies |
| Accounts.dfy | the account store |
| AccountCache.dfy | the cache of the parsed account file |
| Releases.dfy | the choice of the next version and the order of releases |
| ApkVersions.dfy | the device's comparison of APK versions |
| Retention.dfy | the package snapshots that the Pages store keeps |
| Shared.dfy | bytes and options |

A failure, a lost race, the clock, random values and hashes are choices of the
environment (havoc in methods, parameters elsewhere), so every claim holds for
all of them. Where an operation must succeed unless the disk fails, `works` says
that it does not. SHA-256 is a hash without collisions. The regular expressions and
Unicode tables of the log sanitizer are the fields of `Sanitize.Policy`; what
is assumed of them is `Sanitize.Lawful`: decoding undoes UTF-8 encoding, format
characters are not ASCII, and the two placeholder lines are not sensitive.
`Sanitize.LawfulPossible` shows that this can be met.

Where the code does less than it seems to promise, the exact condition is
proved, both ways:

- The account cache agrees with the file if and only if the lag of the file's
  modification time *plus* the delay of a reader between fstat and its look at
  the clock stays within settleTime (`AccountCache.AgreesExactlyWhen`). The
  comment in `server/authn/cache.go:9-14` counts only the lag.
- A save skips a source whose content did not change and then keeps the old
  `truncated` and `collectedAt` of its entry (`LogArchive.SavedReadsBack`).
- A stable result exceeds every stable version if and only if no version beyond
  the newest counted one is marked as a prerelease (`Releases.StableForward`,
  `Releases.FlaggedIsChosenAgain`); a beta result exceeds every versioned
  release if and only if, besides, no beta of the version that comes next has
  leading zeros and a number above all its betas without them (`Releases.BetaForward`;
  `Releases.ZerosOverlooked` gives a family of inputs).
- The device compares two release tags as the repository orders them, if their
  versions' numbers are below 2^63, except for exactly these pairs: two betas of
  one version with different numbers of at least 2^63-1, which it takes for
  equal (`ApkVersions.AgreesExactly`). With a version that does not parse its
  comparison is no order (`ApkVersions.UnparsedCircle`).
- The root directory of the helper disk has room for its label and 223 files.
  Entries of further files fall outside it and are lost, and with them the
  files, though their contents are in place (`Fat12.EachRecovered`,
  `Fat12.ContentsInPlace`).
- render takes the head of a channel only among releases with a source archive,
  but drops snapshots below the newest published release, with or without one.
  So it can drop the packages of a release that is its head, or becomes it, and
  then refuses until those are staged again or a newer release of the channel is
  published with its source; that release's own packages then decide.
  `Retention.StopsExactly` says for every history when it refuses,
  `Retention.RefusedAfter` what one publication must be for that, and
  `Retention.OlderReleaseRefused` shows such a history and its end.
- A rotation that was interrupted loses the boot before the last one if and only
  if an attempt ended between the two renames (`LogArchive.RotationExactly`,
  `LogArchive.BootLost`). The last boot is never lost.

`LogArchive.Archive.Save` relies on FlushArchives naming each source once; what
it keeps without that is stated, too, and `LogArchive.DuplicatesBreak` shows why
the order of writes alone would not protect a source named twice: a rewrite and
a torn append would leave a file that is read as neither snapshot.

## Model

| member | source | states |
|---|---|---|
| CaptureHandoff.StepKeeps | server/common/capture_worker.c:94-228 | every step of the thread, the reader and any number of goroutines keeps the invariant of flags, indices, signals, locks and counters |
| CaptureHandoff.NoLostWakeup | server/common/capture_worker.go:85-118 | in every state of every run, a reader asleep while its slot is READY and a thread asleep while it has work has a nonzero eventfd or a peer about to ring it |
| CaptureHandoff.NoMutualSleep | server/common/capture_worker.c:99-117 | reader and thread never wait for each other |
| CaptureHandoff.ExactFifo | server/common/capture_worker.go:74-97 | the slots are the queue of frames produced and not released, indices are counts modulo two, and frames arrive once, in order, at the stream they were read for |
| CaptureHandoff.SlotExclusive | server/common/capture_worker.c:136-149 | a slot's bytes change only while it is FREE and are copied only while it is READY and oldest |
| CaptureHandoff.Exclusion | server/common/kvm_vision.go:232-239 | between the return of pauseCaptureLocked and its resume no native read is in flight, however pauses nest and whatever else runs |
| CaptureHandoff.CloseLeavesClean | server/common/capture_worker.go:230-240 | after Close both slots are FREE, all frames released, both indices equal, and the thread idle |
| CaptureHandoff.ReleaseExactly | server/common/kvm_vision.go:193-206 | an ordinary Close keeps the worker, running and enabled, for the next stream; a Close after a recorded failure goes on to retire it |
| CaptureHandoff.RetiredExactly | server/common/kvm_vision.go:193-206 | a retirement ends only with the thread joined, the worker gone and disabled, and nobody else inside meanwhile |
| CaptureHandoff.StartExactly | server/common/kvm_vision.go:175-228 | over every run, StartVideoCapture gets the worker if and only if vision is open, no stream is, and no stream has recorded a failure and no creation failed, earlier or now |
| CaptureHandoff.GoneExactly | server/common/kvm_vision.go:338-366 | the worker goes only after a recorded failure or Close of vision, and that Close returns only without one |
| CaptureHandoff.RecordedExactly | server/common/capture_worker.go:206-216 | a failure is recorded exactly by a wait that broke for another reason than Stop, and forgotten only by a new stream |
| CaptureHandoff.FailedStops | server/common/capture_worker.go:206-209 | a stream that recorded a failure takes no more frames |
| CaptureHandoff.CallsExactly | server/common/kvm_vision.go:338-345 | operations run, and the first Close of vision closes, exactly while it is open; nothing opens it again |
| CaptureHandoff.NeverStuck | server/common/kvm_vision.go:232-239 | in every state of every run in which somebody is inside a call, somebody can move: no deadlock among mutex, lock, condition variable, eventfds and joins |
| CaptureHandoff.WorkerOutlivesUsers | server/common/kvm_vision.go:338-366 | the worker is freed only after its thread exited, with no stream open and nobody inside it |
| CaptureHandoff.FrameDelivered | server/common/capture_worker.go:85-118 | runs exist: one starts a stream, puts the reader to sleep, wakes it and delivers the frame |
| CaptureHandoff.StreamRestarted | server/common/kvm_vision.go:175-191 | one run goes on to close its stream and starts a second one with the same worker |
| CaptureHandoff.WorkerRetired | server/common/kvm_vision.go:199-205 | another run breaks a wait and ends with the worker gone |
| VideoPacks.PackStorage.AppendPack | server/common/video_pack_storage.go:11-27 | the storage after a pack is the reference assembly with that pack, including refusals |
| VideoPacks.PackStorage.VideoResult | server/common/video_pack_storage.go:29-41 | result, data and storage of a finished read |
| VideoPacks.Slot.AssemblePack | server/common/capture_worker.c:60-82 | the C assembly of one pack, with realloc failing or not |
| VideoPacks.AssembledIffInOrder | server/common/video_pack_storage.go:11-29 | packs are accepted exactly when they are in order, and the bytes are theirs, joined |
| VideoPacks.DataExactlyWhenWhole | server/common/video_pack_storage.go:29-41 | data is returned exactly for a successful read whose packs are in order and make up `total` |
| VideoPacks.DirectPath | server/common/video_pack_sink.go:46-65 | the direct path gives the reference result for every pack sequence |
| VideoPacks.WorkerPath | server/common/capture_worker.go:74-83 | C assembly followed by take gives the same storage, data and result, whatever the slot held |
| Pacing.AdvanceBounds | server/common/capture_worker.c:36-39 | an advance keeps the phase or restarts at now, passes at least a period and owes at most one |
| Pacing.CadenceFixed | server/common/capture_worker.c:118-132 | at a fixed period the k-th read starts no earlier than the first deadline plus k periods |
| Pacing.PhaseKept | server/common/capture_worker.c:118-132 | without a stall the k-th deadline is exactly k periods later; a stall moves the phase to its own time |
| Pacing.NoBurst | server/common/capture_worker.c:118-132 | over whole runs with rate changes and restarts reads never bunch up by more than one owed period |
| Pacing.Pacer.TryRead | server/common/capture_worker.c:118-132 | the clock test: when a read starts and the new deadline |
| Pacing.Pacer.Update | server/common/capture_worker.c:194-199 | after a changed rate the next read, whenever it comes, sets the new period and a deadline one such period after itself |
| Pacing.RateApplies | server/common/capture_worker.c:118-132 | in a run, the first read after rate changes starts a new phase with the period of the latest rate |
| Pacing.PeriodFollowsRate | server/common/capture_worker.c:118-132 | after every read and start the period is that of the rate asked for last |
| Sanitize.SanitizeTail | server/logs/sanitize.go:32-101 | the loops compute the reference function, including the fast path around the character filter |
| Sanitize.CleanText | server/logs/sanitize.go:36-50 | text that skips the character filter is text the filter keeps |
| Sanitize.PartialLineDropped | server/logs/sanitize.go:33-35 | of a truncated tail whatever is before the first newline has no effect, the rest is shown as if it were the whole text, and a tail without a newline shows nothing |
| Sanitize.FilterExactly | server/logs/sanitize.go:43-50 | a character that is not allowed has no effect, every other one stays in its place |
| Sanitize.EscapesGone | server/logs/sanitize.go:37-40 | text with escape sequences is shown as the text without them |
| Sanitize.NothingControls | server/logs/sanitize.go:43-50 | of control and format characters only newline and tab are ever shown |
| Sanitize.Redact | server/logs/sanitize.go:61-84 | the loop with inPEM rewrites every line as its position demands |
| Sanitize.TailStart | server/logs/sanitize.go:89-95 | the loop finds the one start of the longest tail that fits |
| Sanitize.SplitJoin | server/logs/sanitize.go:61-100 | joining lines and splitting the text again gives the lines |
| Sanitize.InPemExact | server/logs/sanitize.go:62-74 | the flag is set exactly inside a PEM block that began and has not ended |
| Sanitize.NothingLeaks | server/logs/sanitize.go:63-84 | every output line is a placeholder or a short input line outside PEM blocks that is neither sensitive nor a marker nor an encoded key |
| Sanitize.HidesExactly | server/logs/sanitize.go:63-84 | nor is more hidden: exactly the sensitive lines, markers, encoded keys and lines inside PEM blocks, and of the others the long ones |
| Sanitize.Bounded | server/logs/sanitize.go:85-99 | at most 20000 lines and a MiB, and the longest tail within both |
| Sanitize.FlagExactly | server/logs/sanitize.go:75-99 | the result is marked as truncated exactly if the input was, a line is too long or lines were dropped |
| Sanitize.CompleteMeans | server/logs/sanitize.go:51-57 | what is shown ends before the last newline |
| Sanitize.Idempotent | server/logs/archive.go:412-419 | sanitizing its own output and a newline gives the same content and line count and clips nothing |
| Sanitize.EncodeInjective | server/logs/sanitize.go:36 | UTF-8 texts with equal bytes are equal, so a decoder as assumed is possible |
| Sanitize.LawfulPossible | server/logs/sanitize.go:9-30 | the assumptions on the policy hold of some policy with any such sensitivity test |
| Sanitize.ContentBound | server/logs/sanitize.go:89-100 | the content is shorter than the archive's limit |
| LogArchive.AppendRefines | server/logs/archive.go:246-263 | what is appended makes a file that ends with the previous snapshot end with the lines of the new one |
| LogArchive.Archive.WriteSource | server/logs/archive.go:244-282 | on success exactly the new lines were appended, or where that cannot be the file replaced; the file then ends with content and newline at the returned offset, at a line start, within the limit; it succeeds while the disk works; on failure it is unchanged, replaced or has a longer tail |
| LogArchive.Archive.AppendFile | server/logs/archive.go:290-324 | any first part of the text may reach the file when it fails; nothing is written beyond the limit |
| LogArchive.DeltaExactly | server/logs/archive.go:246-271 | lines are appended exactly if the last 4096 bytes of the previous snapshot occur once in the new one, at line boundaries, behind text the previous one ended with |
| LogArchive.GrowthIsAppended | server/logs/archive.go:240-275 | a snapshot that only grew is appended, and an unchanged one writes nothing, if its end occurs once |
| LogArchive.CommittedExactly | server/logs/archive.go:331-347 | the window's test passes exactly when the window selects its content |
| LogArchive.CommittedOrNewer | server/logs/archive.go:331-347 | what is read through a window is the committed snapshot, or else the complete content that replaced the file, flagged as recovered |
| LogArchive.WriteSelects | server/logs/archive.go:244-282 | what a window selected is lost only to a replacement by the content of that very write |
| LogArchive.AppendKeeps | server/logs/archive.go:42-44 | a complete or torn append never changes what a window selects |
| LogArchive.WriteKeepsHeld | server/logs/archive.go:244-282 | no outcome of a write loses what was committed |
| LogArchive.ProgressStep | server/logs/archive.go:444-474 | one more source of a running Save keeps the invariant of written and unwritten sources |
| LogArchive.CommitInv | server/logs/archive.go:479-487 | a committed Save restores the invariant of files, record, digests and remembered snapshots |
| LogArchive.FailInv | server/logs/archive.go:425-433 | so does a Save that failed anywhere, with the old or the new boot.json |
| LogArchive.Archive.Save | server/logs/archive.go:422-488 | while the disk works it succeeds if and only if every snapshot is acceptable, and never otherwise; records exactly the given snapshots and the time of the last one written, and writes nothing if none changed; keeps the archive valid over every success, failure and torn write; what a record led to before, it leads to after it, or the file was replaced by content of this very call |
| LogArchive.SureSaved | server/logs/archive.go:422-488 | a source saved while the disk worked stays saved, over any further script in its boot |
| LogArchive.SureExample | server/logs/archive.go:422-488 | such scripts exist |
| LogArchive.LastWrittenIs | server/logs/archive.go:459-476 | the snapshot whose time becomes savedAt is the last one with a new content |
| LogArchive.SaveTraced | server/logs/archive.go:422-488 | every window on disk and in memory selects the snapshot of the call it was committed by, or its file was replaced in a later call |
| LogArchive.SaveLatest | server/logs/archive.go:422-488 | no entry is older than the last successful Save of its source |
| LogArchive.Archive.NewArchive | server/logs/archive.go:80-150 | reopening after any crash is valid; the last boot's directory survives every interrupted rotation, in place or as "previous" |
| LogArchive.Archive.Rotate | server/logs/archive.go:112-122 | the moves a rotation made before it ended, and what is on the disk then |
| LogArchive.RotationExactly | server/logs/archive.go:112-122 | interrupted any number of times and then completed, it keeps the last boot, and the one before if and only if no attempt ended between the renames |
| LogArchive.BootLost | server/logs/archive.go:112-122 | such an interruption loses the boot before the last |
| LogArchive.Archive.RemoveOlder | server/logs/archive.go:183-198 | an interrupted removal leaves no readable half-removed boot |
| LogArchive.Archive.Read | server/logs/archive.go:385-420 | reads what the record of the slot commits |
| LogArchive.ReadsCommitted | server/logs/archive.go:385-420 | a committed snapshot is read back exactly, with its entry's flags |
| LogArchive.ReadsCommittedOrNewer | server/logs/archive.go:404-419 | the content read is the committed snapshot with its flags, or the complete one that replaced the file, marked truncated |
| LogArchive.SavedReadsBack | server/logs/archive.go:444-474 | after a Save every snapshot is read back; its flags too, if and only if it was not skipped as unchanged with other flags |
| LogArchive.Lifetime | server/logs/archive.go:80-488 | over every sequence of saves, failures, crashes and starts all that is on the disk is traced to the Saves it was given to |
| LogArchive.ReadsTraced | server/logs/archive.go:385-420 | what is read of any boot is the snapshot given to the Save that committed its entry, or, marked truncated, one given to a later Save |
| LogArchive.ReadAfter | server/logs/archive.go:385-420 | after any lifetime a source of the current boot with a successful Save, such as any given while the disk worked, can be read, and what is read is the last committed snapshot or one given to a later Save; of any boot, a given snapshot or a later one |
| LogArchive.DuplicatesBreak | server/logs/archive.go:444-467 | a rewrite and a torn append of one source leave a file that is read as neither of the two snapshots |
| Edid.InsertionUndone | scripts/edid-rgb-range.py:25-59 | an inserted block is removed byte for byte, the result is valid and declares the range, a second insertion changes nothing, and edidBeyondCube answers the same |
| Edid.InsertedExactlyWhen | scripts/edid-rgb-range.py:25-59 | when the script inserts, returns the original or raises |
| Edid.WalksCross | server/common/monitor_rgb_range.go:19-72 | all three walks over the data blocks meet the inserted block at its place |
| Edid.TimingsMoved | server/common/monitor_edid_check.go:119-142 | the moved timings announce the same modes |
| Edid.InsertRgbRange | scripts/edid-rgb-range.py:25-59 | the in-place edit with its checksum computes the reference |
| Edid.RemoveRgbRange | server/common/monitor_rgb_range.go:19-48 | the shift and the new checksum compute the reference |
| Edid.DeclaresRgbRange | server/common/monitor_rgb_range.go:53-72 | the scan of all extensions |
| Edid.EdidValid | server/common/monitor_edid_check.go:25-45 | size, header, block count and sums |
| Edid.EdidBeyondCube | server/common/monitor_edid_check.go:53-142 | the first mode beyond the receiver over descriptors, standard timings and extensions |
| Edid.BeyondExactly | server/common/monitor_edid_check.go:53-142 | an EDID is beyond the receiver if and only if some detailed timing, standard timing or CTA extension of it, read by the format, announces such a mode |
| Edid.FirstReported | server/common/monitor_edid_check.go:53-142 | the mode reported is the first of them |
| Edid.TimingsExactly | server/common/monitor_edid_check.go:57-74 | a detailed timing is judged by the numbers whose encoding it is, in whole-number arithmetic |
| Edid.StandardExactly | server/common/monitor_edid_check.go:80-91 | a standard timing by its width, aspect ratio and rate |
| Edid.HdmiExactly | server/common/monitor_edid_check.go:118-130 | an HDMI block by the lengths that follow its announced latencies |
| Edid.CodesExactly | server/common/monitor_edid_check.go:9-22 | the video codes refused are exactly those whose modes in CTA-861-G are beyond the receiver |
| Edid.BlocksOther | server/common/monitor_edid_check.go:108-132 | other data blocks are ignored, and any named 4:2:0 mode is refused |
| Fat12.PackFat | scripts/build-serial-console-disk.py:68-74 | three bytes for two entries, filled with zeros |
| Fat12.PackedEntry | scripts/build-serial-console-disk.py:68-74 | a reader takes every 12-bit entry out again |
| Fat12.Build | scripts/build-serial-console-disk.py:82-111 | succeeds exactly for acceptable names and contents that fit, and gives the reference image |
| Fat12.NamesExactly | scripts/build-serial-console-disk.py:90-91 | which names are accepted |
| Fat12.BootGeometry | scripts/build-serial-console-disk.py:60-65 | the parameter block decodes to the layout the image uses |
| Fat12.BootFields | scripts/build-serial-console-disk.py:60-65 | the jump lands on the code, and names, geometry for the BIOS, serial number and signatures are in their places |
| Fat12.ChainFollowed | scripts/build-serial-console-disk.py:94-96 | following a chain through the packed table visits its clusters and stops |
| Fat12.EachRecovered | scripts/build-serial-console-disk.py:82-111 | a reader that trusts only the image finds name, chain and bytes of each of the first 223 files and nothing of the others |
| Fat12.RoundTrip | scripts/build-serial-console-disk.py:82-111 | so it finds every file if and only if there are fewer than 224 |
| Fat12.EntriesInPlace | scripts/build-serial-console-disk.py:85-110 | every entry inside the root directory is there in full, the label first |
| Fat12.EntryDated | scripts/build-serial-console-disk.py:77-100 | archive files, shown in lower case, dated the first of January 2026 |
| Fat12.LabelDated | scripts/build-serial-console-disk.py:85 | the volume label, with neither cluster nor size |
| Fat12.ContentsInPlace | scripts/build-serial-console-disk.py:107-110 | whatever the number of files, each content is in the clusters of its chain |
| Fat12.ChainsDisjoint | scripts/build-serial-console-disk.py:104-106 | both tables are equal and no cluster belongs to two files |
| StockLayout.Plan | firmware/stock-install/layout.c:34-57 | the planner's acceptance and its 32-bit sums |
| StockLayout.PlanSound | firmware/stock-install/layout.c:34-57 | accepted plans are aligned, disjoint, inside the old root and free of truncation |
| StockLayout.NextDecodes | firmware/stock-install/layout.c:58-70 | only the first two entries change, they decode to the plan, and the result always differs |
| StockLayout.CommitCard | firmware/stock-install/layout.c:149-174 | on an accepted card the new table is there exactly if the sector was written on a stock card or it was there before, reported exactly if nothing failed; refused and unchanged for any other table |
| StockLayout.RunSafe | firmware/stock-install/layout.c:118-174 | over every run with failures and restarts the table is exactly the saved or the installed one and mappings stay inside the old root |
| StockLayout.InstalledIsFinal | firmware/stock-install/layout.c:142-171 | once installed, nothing is mapped or patched and a commit changes nothing |
| StockLayout.InstalledForever | firmware/stock-install/layout.c:142-171 | the same for every longer run |
| StockLayout.CommitExact | firmware/stock-install/layout.c:155-163 | a commit installs the table if and only if the card is stock and the write arrives, or it was installed; nothing else changes |
| StockLayout.CommitInstalls | firmware/stock-install/layout.c:155-163 | after any run on an accepted card a commit that works installs the table and leaves every other sector |
| StockLayout.MapsExactly | firmware/stock-install/layout.c:168-171 | what is mapped is exactly what the installed table calls its first and second partition, on stock cards only |
| StockLayout.StagesExactly | firmware/stock-install/layout.c:95-116 | a staging write reaches the card exactly inside what is mapped |
| StockLayout.CorrectedExactly | firmware/stock-install/layout.c:71-82 | which boot sectors are corrected |
| StockLayout.CorrectedOnce | firmware/stock-install/layout.c:71-82 | the boot sector correction changes only the hidden-sector count and is idempotent |
| ResizeParser.Parser.Feed | firmware/services/nanokvm-serial-bridge.py:27-50 | the consuming loop computes the reference parse |
| ResizeParser.DecisionStable | firmware/services/nanokvm-serial-bridge.py:31-48 | more input never changes a decision |
| ResizeParser.HoldsExactly | firmware/services/nanokvm-serial-bridge.py:31-48 | bytes are held exactly while they may begin a reply: they begin the prefix, or follow it without an end in 24 bytes |
| ResizeParser.TakesExactly | firmware/services/nanokvm-serial-bridge.py:36-46 | bytes are taken exactly as a prefix, two numbers of one to four digits in range and BEL; a malformed reply passes |
| ResizeParser.HeldMayBegin | firmware/services/nanokvm-serial-bridge.py:27-50 | what a feed holds may begin a reply, and input without the first byte of the prefix passes at once |
| ResizeParser.ChunkInvariant | firmware/services/nanokvm-serial-bridge.py:27-50 | feeding a then b is feeding a+b: same output, calls and pending bytes |
| ResizeParser.Conservative | firmware/services/nanokvm-serial-bridge.py:21-54 | output and pending bytes with the genuine replies put back are the input; pending stays below the prefix and 24 bytes |
| ResizeParser.SessionConservative | firmware/services/nanokvm-serial-bridge.py:21-54 | the same over feeds and flushes of a session |
| ResizeParser.ChunkingInvisible | firmware/services/nanokvm-serial-bridge.py:27-50 | any chunking of a session gives one parse |
| ResizeParser.ReplyTaken | firmware/services/nanokvm-serial-bridge.py:36-46 | a terminal's reply is taken whole, as its size |
| Accounts.ValidateDatabase | server/authn/store.go:572-607 | accepts exactly the valid databases and replaces zero versions |
| Accounts.ScannedMeans | server/authn/store.go:579-602 | the loop's test means valid users, different names and at most one owner |
| Accounts.SyncLegacyAccount | server/authn/store.go:655-674 | mirrors the owner, or else the first enabled administrator |
| Accounts.Store.Save | server/authn/store.go:481-527 | a well-formed file or, on failure before the rename, the old one |
| Accounts.Store.Load | server/authn/store.go:428-479 | what absent, legacy, invalid and current files mean, and what migration saves |
| Accounts.MigrationMirrors | server/authn/store.go:428-479 | after migration a single-user release finds the account its file held, which is the owner's |
| Accounts.FirstAccount | server/authn/store.go:428-479 | a new file holds one enabled administrator that owns the device and must change its password |
| Accounts.Store.Create | server/authn/store.go:228-265 | adds exactly one user, refuses an existing name, and fails otherwise only for invalid input or when the disk does |
| Accounts.UpdateSafe | server/authn/store.go:270-333 | accepted updates leave a valid database, move the owner's name only for the owner, and lock no administrator out of itself |
| Accounts.Store.Update | server/authn/store.go:270-333 | every outcome: the refusals, no change, or the patched user with a new version; accepted updates succeed while the disk works |
| Accounts.UpdateAccepted | server/authn/store.go:270-323 | an update is accepted if and only if the account exists, name and role are valid, the name is free, an owner is renamed only by itself, no administrator lowers itself and nobody the owner, and an enabled administrator is left |
| Accounts.UpdateRefused | server/authn/store.go:270-323 | and is otherwise refused for the first of these reasons that holds |
| Accounts.UpdatedMeans | server/authn/store.go:304-332 | a reported change has set exactly the fields of the patch and the version, of that user alone |
| Accounts.Store.Delete | server/authn/store.go:335-360 | refusals, or exactly that user is gone |
| Accounts.DeleteAccepted | server/authn/store.go:335-360 | an account can be deleted if and only if it exists, is not the owner and leaves an enabled administrator |
| Accounts.DeleteRefused | server/authn/store.go:335-360 | and why not otherwise |
| Accounts.Store.SetPassword | server/authn/store.go:367-408 | new hash and version, or after a failed hook the users from before |
| Accounts.Store.RollBack | server/authn/store.go:399-406 | a reported rollback has restored every user |
| Accounts.Store.Revoke | server/authn/store.go:410-426 | only the version changes |
| Accounts.Store.Upgrade | server/authn/store.go:194-214 | only the record whose password was checked gets the new hash |
| Accounts.Store.ValidateToken | server/authn/store.go:217-226 | accepted exactly when an enabled user of that name has that version |
| Accounts.ChangeRevokes | server/authn/store.go:217-226 | every reported change makes the old token refused and leaves other tokens alone, also across the 64-bit wrap |
| Accounts.UpdateRevokes | server/authn/store.go:324-332 | so an update does |
| Accounts.PasswordRevokes | server/authn/store.go:393-425 | and a new password or a revocation |
| Accounts.DeleteRevokes | server/authn/store.go:353-359 | a deleted user has no token |
| Accounts.UpgradeKeepsTokens | server/authn/store.go:203-214 | the hash upgrade changes no token |
| Accounts.Store.Run | server/authn/store.go:194-426 | any script of operations passes through a history of files, every change that is reported is in the file, and while the disk works a change is reported exactly if there is one to make |
| Accounts.RunRevokes | server/authn/store.go:194-426 | in a run, a token that was accepted before a reported change is accepted after it if and only if the change was not to end its account's sessions |
| Accounts.HistoryKeeps | server/authn/store.go:228-426 | over every history the file is untouched or well-formed, an owner stays and only renames itself |
| Accounts.OneEnabledOwner | server/authn/store.go:596-601 | the owner is one enabled administrator and is the mirrored account |
| AccountCache.StepKeeps | server/authn/store.go:686-724 | every step of any number of concurrent readers and of the outside world keeps the invariant |
| AccountCache.CacheAgrees | server/authn/store.go:686-724 | every call of every run returns what was in the file during the call; a mixture only if it was edited during the call |
| AccountCache.AgreesExactlyWhen | server/authn/cache.go:36-43 | that holds for all runs if and only if lag and delay together are at most settleTime |
| AccountCache.Cache.ReadLocked | server/authn/store.go:686-724 | result and next cache content of a call; what it returns is fresh |
| AccountCache.HitIsTaken | server/authn/store.go:695-697 | a call takes the cached accounts as the reader's step does |
| AccountCache.StoreIsNext | server/authn/store.go:717-723 | a call that read the file returns and caches as the reader's step does |
| AccountCache.Database.Clone | server/authn/cache.go:65-72 | the copy is equal and shares nothing |
| AccountCache.CallerChanges | server/authn/store.go:695-719 | whatever a caller does to its result, the cache is unaffected |
| Releases.NeverExists | scripts/next-release.py:65-68 | the version chosen never exists among those counted |
| Releases.StableForward | scripts/next-release.py:48-70 | a stable result exceeds every stable version, drafts included, if and only if no version beyond the newest counted one is marked as a prerelease |
| Releases.BetaForward | scripts/next-release.py:32-47 | a beta result exceeds every versioned release if and only if no flagged version is beyond the newest counted one and no beta of the next version is overlooked |
| Releases.BetaChosen | scripts/next-release.py:32-47 | a beta is chosen whenever the stable target exists and is not behind, with the number after the highest canonical beta |
| Releases.StableFollows | scripts/next-release.py:65-66 | the version chosen is the one right after a counted one, and the newest of its line |
| Releases.BetaFollows | scripts/next-release.py:41 | the beta number is one, or one more than an existing beta's |
| Releases.PreviousIsClosest | scripts/next-release.py:69-78 | the notes start from the closest published release |
| Releases.PreviousExactly | scripts/next-release.py:69-78 | stable notes start exactly from the newest published release below, of the same line if there is one |
| Releases.StableRefused | scripts/next-release.py:48-64 | when the stable channel refuses: exactly for other refs, minor releases of a branch, a newer line, or nothing to follow |
| Releases.BetaExactly | scripts/next-release.py:32-47 | when a beta is refused, and that its notes start exactly from the highest published beta of its version |
| Releases.OrderMeans | scripts/assemble-apk-repo.py:165-171 | the order: by version, betas before their stable release and by number |
| Releases.SpellsExactly | scripts/next-release.py:39-40 | comparing the tag's text with the target is comparing numbers without leading zeros |
| Releases.FlaggedIsChosenAgain | scripts/next-release.py:31 | a version marked as a prerelease can be chosen again |
| Releases.ZerosOverlooked | scripts/next-release.py:39-41 | with one stable release and a beta of the next patch spelled with leading zeros, the result is beta 1, which does not exceed it |
| Releases.ZerosExample | scripts/next-release.py:39-41 | v1.2.2 and v1.02.3-beta.5 are such releases |
| ApkVersions.CompareAPKVersions | server/osupdate/addons.go:343-379 | the loops compute the reference comparison |
| ApkVersions.CompareMeans | server/osupdate/addons.go:343-379 | negative exactly if the first difference, of numbers, letter, suffixes or release, makes the first version older |
| ApkVersions.ParseAPKVersion | server/osupdate/addons.go:394-429 | which versions parse, and to what, with clamped suffix numbers |
| ApkVersions.TotalPreorder | server/osupdate/addons.go:343-379 | a total preorder on parsed versions |
| ApkVersions.EqualOnlySame | server/osupdate/addons.go:343-379 | equal only for the same parsed version |
| ApkVersions.SuffixesOrdered | server/osupdate/addons.go:390 | pre-release suffixes, the bare version and later suffixes compare in their order, whatever their numbers |
| ApkVersions.LettersOrdered | server/osupdate/addons.go:357-362 | a later letter is a later version, whatever follows |
| ApkVersions.AgreesExactly | server/osupdate/addons.go:400-423 | two release tags with version numbers below 2^63 compare as ordered, except exactly for two betas of one version with different numbers of at least 2^63-1 |
| ApkVersions.Agrees | scripts/assemble-apk-repo.py:166-171 | agrees with the repository's order on release tags with all numbers in range |
| ApkVersions.AgreesExactlyBelow | server/osupdate/addons.go:400-423 | for all tags with numbers below a bound if and only if the bound is at most 2^63 |
| ApkVersions.UnparsedCircle | server/osupdate/addons.go:344-348 | with text comparison of unparsed versions three versions go in a circle |
| ApkVersions.TextMeans | server/osupdate/addons.go:344-348 | texts compare by the first difference |
| Retention.RetainedLoops | scripts/pages_store.py:54-81 | the loops with heads, groups and sorting compute the reference |
| Retention.RankDecides | scripts/pages_store.py:73-80 | an item is kept by its rank in its group |
| Retention.RankExactly | scripts/pages_store.py:54-81 | an item is kept if and only if fewer items of its group are ahead of it in the input than are kept |
| Retention.RetainedCounts | scripts/pages_store.py:66-80 | exactly how many items of each group remain |
| Retention.Idempotent | scripts/pages_store.py:54-81 | retention is idempotent, order included |
| Retention.PendingKept | scripts/pages_store.py:75-79 | a pending OS snapshot newer than its channel's head is kept |
| Retention.PendingDropped | scripts/pages_store.py:75-79 | a pending OS snapshot is dropped if and only if it is not newer than the published head and another pending one comes before it |
| Retention.NeverPruned | scripts/pages_store.py:269-278 | over every history of staging, publishing and rendering, a staged snapshot above all other published releases of its channel is still there |
| Retention.NewerNeverPruned | scripts/pages_store.py:269-278 | so a staged release that becomes the head still has its packages |
| Retention.StopsExactly | scripts/pages_store.py:271-277 | over every history, render refuses if and only if the head of a channel was never staged or a render dropped it since |
| Retention.RefusedAfter | scripts/pages_store.py:269-278 | after a render and a publication the next one refuses exactly when the published release is the head and was not staged, or was pending, not newer and overtaken, or when an earlier one is the head and the render dropped it |
| Retention.RefusedUntil | scripts/pages_store.py:271-277 | a refusal lasts until that head is staged again or a newer release of the channel is published with its source |
| Retention.NewHeadDecides | scripts/pages_store.py:271-277 | after such a publication only the new head's packages decide |
| Retention.NeverRefused | scripts/pages_store.py:271-277 | render does not refuse if each channel's head was staged and is above all other published releases |
| Retention.OlderReleaseRefused | scripts/pages_store.py:271-277 | a history in which render refuses, again after a render, and no longer once a newer staged release is published with its source |
| Retention.OlderPendingDropped | scripts/pages_store.py:68-80 | when an older pending snapshot is dropped |
| Retention.TagOrderIs | scripts/pages_store.py:47-51 | the order used is that of the repository |
| Retention.AddonsOrdered | scripts/pages_store.py:50-51 | add-ons by their numbers, then their build |
| Retention.Store.Render | scripts/pages_store.py:269-278 | the head check, then the pruning |

## Left out

- CaptureHandoff: the methods of both sides are steps of one state machine, not methods of a class, because they interleave inside each other; capture parameters are not part of it, and eventfd counters do not overflow.
- Pacing: times are unbounded integers; the 64-bit overflow of the monotonic clock is not modelled.
- Edid: pixel rates are real numbers, where the code uses 64-bit floats.
- Fat12: file names are ASCII; the boot message is a parameter of at most 448 bytes.
- Sanitize.Policy: which lines are sensitive, the UTF-8 decoder, the escape expression and the Unicode classes are parameters; the vector kernels behind them are not modelled.
- LogArchive.Archive.Read: I/O errors of reading, symbolic links and changes by other programs are not modelled; nor are records without a window.
- LogArchive.Archive.Save: that every source of a failed call is recoverable is stated for calls whose sources differ, as FlushArchives makes them.
- LogArchive.Archive.NewArchive: boot identifiers are taken as valid; the pattern they must match is not modelled.
- LogArchive.ReadAfter: for the boots before the current one it is not stated which Save is the last.
- Accounts: bcrypt and JSON are parameters and identities; the account lock makes every operation one step, and Authenticate is its two locked parts with anything between them.
- Accounts.ChangeRevokes: a random version of a re-created account could repeat an old one.
- AccountCache.CacheAgrees: modification times set back by hand are not modelled; a replaced file is at most the lag old.
- Releases: digits are ASCII, where Python's expressions also match other decimal digits; releases without a version are not ordered.
- Retention: snapshots have no content; an add-on version is its numbers and build; publications are not withdrawn and archives are not added later.
- StockLayout: device and loop calls are steps that succeed or fail.
- The JPEG worker, H.264 and MJPEG limits, HTTP, configuration, the web UI and hardware access would only add easy members.
