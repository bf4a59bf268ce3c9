# Verification of the transfer engine and the transfer manager

This Dafny project models the parts of Vericopy on which its promises rest and
proves those promises. `dafny verify dfyconfig.toml` checks all of it.

## What is modelled

**The transfer engine.** `FileStore.dfy` is the file system a transfer writes
to, a class whose methods are the operations of the SFTP client or of the local
`os` package. Before each operation other clients may have changed every path
that the worker does not own. An operation may fail without effect, and it may
take effect and lose its reply; a failed write leaves a prefix of its chunk. A
crash or a dropped connection is a run whose remaining operations all fail
without effect. So what a method promises on every return, and not only on
success, holds at every point where a run can be stopped. A store marked reliable
has no faults but at the paths it cannot read; the clauses about it say when a
run left alone must succeed, so failing is never an answer on its own. The store
records which paths the worker itself has changed, where it has made directories
and which of its inspections and reads have failed, and the source records the
bytes it has handed out and what each look at it and each reading of it showed;
contracts are stated with these records. `PartialState.dfy` holds the hidden partial file, its sidecar
and the hashing stream, `RemoteHash.dfy` verification and its fast path,
`Upload.dfy` and `Download.dfy` whole files, `PartialNames.dfy` the hidden names,
`ResumeChain.dfy` any number of interrupted and resumed runs, and
`TransferCounterexamples.dfy` calls that end as they should not.
`SourceTree.dfy`, `TreePaths.dfy`, `FreshTree.dfy` and `TreeCopy.dfy` are
directory trees: the lookup of a tree by names against its walk, where each file
may go, and why nothing stands in the way of a tree copied to where nothing is.

Choosing an ownership that covers every path gives the single-writer reading.
Choosing just one transfer's files gives two workers side by side:
`WorkersDoNotInterfere` shows that one worker's operations are among those
that the other's contracts already allow in its surroundings, with the exact
condition on the two destinations.

SHA-256 is a function of which nothing is assumed. Statements that need it to be
collision free say instead that the bytes are equal or that the two named byte
strings are an explicit collision, so they hold of any hash. The JSON
of the sidecar is an encoding that decodes to what was written and fits the
16 KiB read limit; sizes and times are 64-bit and digests 64 hexadecimal digits,
and `Formats.dfy` shows that such an encoding exists. A hasher is honest when a
well-formed digest it prints is the digest of the file that the last word of its
command names, and it knows the commands that its machine can run.

**The transfer manager.** `SchedulerCore.dfy` specifies each region of code that
runs under the service lock as a function on the locked state; `Service.dfy` is
the service as a class whose methods carry out those regions step by step and are
proved to leave exactly the specified state. `SchedulerRuns.dfy` puts
the regions, the job list on disk and all unfinished calls into one state
machine, where a step is one locked region or one store operation. A run is
any interleaving, with saves that fail or land in any order, and with crashes
followed by a restart. `SchedulerInvariants.dfy` and `SchedulerTheorems.dfy`
prove what holds in all runs. `SchedulerOwners.dfy` and `SchedulerAttendance.dfy`
are about who owns and who looks at a job, with the exact guard for each step that
can break it; `SchedulerRequests.dfy` follows the stop requests of one run of a job.
`SchedulerOutcomes.dfy` says what each call and each move of a worker comes to, in
statuses, flags and slots alone. `SchedulerVerdicts.dfy` is about what status
verified means, and `JobRuns.dfy` joins it to the engine. `SchedulerCounterexamples.dfy` gives the runs where the code does
not meet its purpose. `StateFile.dfy` and `JobStore.dfy` are the state file.

**Printers and parsers.** `Endpoint.dfy` and `SlashPath.dfy` are the
`[user@]host:path` syntax, with the lexical path cleaning of Go's `path`
package; `Quoting.dfy` and `RsyncArgs.dfy` are shell quoting, read back by
`PosixShell.dfy`, a reader of one command line by the rules of sections 2.2.1,
2.2.2 and 2.2.3 of the POSIX.1-2017 Shell Command Language.

## Where the code falls short of its purpose

Each item is a proved statement below, with the exact condition where there is one.

- A persisted endpoint is not always read back. The canonical form drops the
  brackets of an IPv4 literal, and if the path then shows `@[` and its first `]`
  is followed by `:`, the parser takes that bracket for the end of the host
  (`internal/remote/remote.go:70-78`). `BracketTrap` is the exact condition.
- Resuming reports an incompatible partial file also when the sidecar merely
  could not be read (`internal/transfer/engine.go:488-493`). For partial files
  left by interrupted runs of an unchanged source this is the only cause, and a
  run in which every read of the sidecar works never reports it.
- The comment on `Download` promises the guarantees of an upload
  (`internal/transfer/engine.go:746-750`), but a download verifies the remote
  source against itself and never reads the local file back. A resumed download is
  safe exactly up to the 1 MiB fingerprint, or when the partial file came from
  interrupted downloads of the same source; beyond it there is a verified success
  with a wrong file for every length.
- A failed save in enqueue or retry is rolled back although the job may already be
  running. Over an active job, the one orphans its worker and the other can give the
  job a second one; without such a retry save no job ever has two workers. A worker
  that has lost its job may leave the wake lock held and queued jobs stranded.
- Ending a legacy transfer does not dispatch jobs queued meanwhile: it strands them
  exactly when the service is open, has slots, and nothing else will look at them.
- A pause request outlives its run: it is cleared by a cancel of a running job,
  but not by retry, dispatch or the end of the run. It decides the status of a later
  run exactly when that run errors without having been asked to stop.
- A job can be shown as verified although the engine's own verdict is false.
  `EndsBacked` is the exact condition on a step: a run that ends without an error must
  return the verdict. A job for a single file does so exactly when it does not ask for
  no-clobber or nothing stands at the path its destination resolves to.

## Model

| member | source | states |
|---|---|---|
| PartialState.ReadMetadata | internal/transfer/engine.go:646-665 | Gives exactly the metadata the sidecar decodes to; it fails only if the sidecar does not decode or a look at it or a read of it failed, which the store records, and always fails when the sidecar cannot be read. |
| PartialState.WriteMetadata | internal/transfer/engine.go:626-644 | With no partial file present, success leaves a private sidecar that decodes completely; only the sidecar changes, and a stop in the middle leaves no partial file. |
| PartialState.FreshPartial | internal/transfer/engine.go:518-548 | Stale state goes partial first and the complete sidecar comes before the new partial, so at every stop a partial file has a complete sidecar; success leaves an empty private partial. |
| PartialState.PreparePartial | internal/transfer/engine.go:481-549 | Keeps the write-ahead order at every stop; with resume an existing partial file is continued, at its own length, only if its sidecar decodes to exactly the metadata of the source as it was seen, the file is no longer than that source and their prefixes agree; a sidecar that differs in any field or cannot be read, or a longer file, is an incompatible resume; over what interrupted runs of an unchanged source leave that is reported exactly when there is a partial file and a read of its sidecar failed; without faults success is exactly that the pair can be continued. |
| PartialState.ContinuePartial | internal/transfer/engine.go:487-516 | A file is continued only at its own length, only if the sidecar decodes to exactly the metadata expected, field by field, and only if the file is no longer than the source; any other sidecar, and every failed read of it, is reported as an incompatible resume; over an unchanged source the prefix digests are equal. |
| PartialState.ContinuableMeans | internal/transfer/partial.go:34-41 | The conditions for continuing come to this: the sidecar decodes to exactly the metadata of the source, the partial file is no longer than the source, and both begin alike as far as the fingerprint and the file reach. |
| PartialState.MetadataMeans | internal/transfer/engine.go:263-276 | A sidecar names the format, the size and the time of the source and the digest of what fits in its first mebibyte. |
| PartialState.HashPrefix | internal/transfer/engine.go:557-562 | Reads back exactly the first `offset` bytes of the source, or fails. |
| PartialState.CopyRest | internal/transfer/engine.go:571-587 | Appends to the partial file exactly what it read, chunk by chunk, a failed write leaving a prefix of its chunk; over an unchanged source the file stays a prefix of the source and success means all of it was read. |
| PartialState.Stream | internal/transfer/engine.go:551-588 | Digest and count are those of all bytes handed out by the source, which the source logs; what was there is kept and only the bytes after `offset` are appended. |
| Formats.FaithfulFormatExists | internal/transfer/engine.go:626-665 | For any hash there is a sidecar format in which everything that can be written fits the read limit and decodes to itself. |
| Formats.FaithfulCodecExists | internal/desktop/state.go:397-459 | There is a state file encoding that decodes to what was written. |
| Formats.WellShapedSuffixExists | internal/transfer/partial.go:25-31 | There is a suffix of sixteen characters without a slash for every destination and fingerprint, as the statements about hidden names assume. |
| Upload.FillPartial | internal/transfer/engine.go:286-306 | On success the partial file is what was there followed by the rest of what was read, and a file resumed from passed the prefix comparison; over an unchanged source nothing is lost or sent twice; a sidecar that cannot be read makes it report an incompatible resume. |
| Upload.ApplyFilePolicy | internal/transfer/engine.go:605-624 | The partial file gets exactly the requested or the source mode, and the group and the time that were asked for are set; its bytes and every other file stay. |
| Upload.Settle | internal/transfer/engine.go:307-337 | Succeeds only if the source still has its initial size and time and, with an honest hasher, the partial file has the digest and size of what was read. |
| Upload.Finalize | internal/transfer/engine.go:343-355 | The rename moves exactly the partial file onto the destination or changes neither hidden file; without overwrite an existing destination stays; after a success without faults the sidecar is gone. |
| Upload.Stage | internal/transfer/engine.go:286-337 | Fills, compares with the source, verifies and sets permissions: on success the partial file is a complete verified copy of what was read, with its mode; the write-ahead order holds at every stop. |
| Upload.Deliver | internal/transfer/engine.go:286-356 | On every return: nothing but the three files changed, the write-ahead order holds, and the destination is as before or a complete verified copy exists, of the whole source when that does not change; success means the destination holds the bytes read, with the right size, digest and mode. |
| Upload.PutInPlace | internal/transfer/engine.go:343-355 | From a verified partial file: on every return the destination is as before or one of the two places holds the complete bytes. |
| ParentCheck.ValidateRemoteParents | internal/transfer/engine.go:667-707 | Success means that no parent down to the first missing one is a link or a file; without faults the verdict and its code are exactly that. |
| ParentCheck.TroubleMeans | internal/transfer/engine.go:667-707 | There is trouble exactly where something other than a directory stands above the destination with only directories nearer the root: an unsupported link, or a file in the way. |
| Upload.Locate | internal/transfer/engine.go:374-392 | Gives the path that the directory and renaming rules lead to on the disk, with what is there; a link at the path given is refused. |
| Upload.ResolveDestination | internal/transfer/engine.go:374-413 | Without faults, what stands at the resolved path decides: a link is an unsupported type, nothing there goes on, something there is skipped with no-clobber, goes on with overwrite and is otherwise refused as existing; with faults it still goes on, skips and refuses only then. |
| Upload.Survey | internal/transfer/engine.go:238-262 | Looks at source, parents and destination and changes nothing; the path is the resolved one, and without faults the answer is the one that what stands there decides. |
| Upload.MakePlan | internal/transfer/engine.go:238-281 | Changes nothing; of the plans that come about, those without a transfer are exactly those of a dry run, or of no-clobber with something at the resolved path; the metadata is what the first inspection and the first reading of the source gave; without faults a link, something in the way, something to be kept and a free way each get their own answer. |
| Upload.CopyFile | internal/transfer/engine.go:238-368 | Upload integrity for any earlier partial and sidecar: with an honest hasher or none, success means the destination holds exactly the bytes that the source handed out, or a SHA-256 collision with them, described by the result, with the mode, group and time asked for; a resumed success had a sidecar saying exactly the size, time and fingerprint that the source showed when it was first looked at, and showed again at the end; a success carries the verdict exactly when it was no dry run and not, with no-clobber, kept from something that stood at the resolved path; on every return, failing or not, the frame, the write-ahead order and "never both versions lost" hold, the latter for the whole content of an unchanged source; without overwrite every file there was stays; an unchanged source resumes without loss. Without faults a link or something in the way is refused, something to be kept is skipped, and where nothing is or overwriting is asked for the transfer succeeds exactly when what it resumes from completes to the digest of the source. |
| Upload.Verify | internal/transfer/verify.go:13-58 | With an honest hasher or none, success over an unchanged source means the remote file is the local one, or collides with it; a reported mismatch means they differ. Without faults a missing file, something else than a file, an equal file and one of another size or digest each get exactly their own answer. |
| Upload.OperationsAreOwnSteps | internal/transfer/engine.go:277-350 | By the postcondition that every store operation has, that others move first and the worker then changes only what it puts on record, each operation of a run is a step of others and then one of the steps of WorkersDoNotInterfere. |
| ResumeChain.ResumedTransfers | internal/transfer/engine.go:286-350 | Over any number of interrupted resumed runs of an unchanged source: each starts after all that was written before, leaves a prefix of the source, and never reports an incompatible resume unless a read of the sidecar failed in it; the bytes written never exceed the source and are the whole source once a run has renamed, when the destination equals the source. |
| ResumeChain.ResumeRepeatedly | internal/transfer/engine.go:286-350 | Calls CopyFile or DownloadFile with resume any number of times on an unchanged source: up to the first call that renames they are a chain as above, so that from no partial file no byte is written twice, and a verified success means that the renamed file is the source; it makes at least one call, and that one succeeds if nothing hampers it. |
| TransferCounterexamples.ResumeWithUnreadableSidecar | internal/transfer/engine.go:488-493 | The failing run: however many bytes an interrupted run left, if its sidecar cannot be read, a resumed upload without other faults reports an incompatible resume over a state that it could have completed. |
| ResumeChain.UndisturbedAttemptFinishes | internal/transfer/engine.go:481-588 | At every point of such a chain the state is one from which a run without faults succeeds. |
| ResumeChain.ResumableCompletes | internal/transfer/engine.go:487-516 | What interrupted runs leave passes the resume checks and completes to the source. |
| ResumeChain.WriteAheadAlways | internal/transfer/engine.go:518-548 | A partial file has a complete sidecar after any sequence of runs, resuming or not, each stopped anywhere. |
| PartialNames.HiddenNamesDiffer | internal/transfer/partial.go:25-31 | For any destination the partial file, the sidecar and the destination are three different paths. |
| PartialNames.PartialShape | internal/transfer/partial.go:28-30 | For a clean destination the partial file is beside it, under the destination's own name with the marker and suffix added. |
| PartialNames.HiddenFilesAreDeeper | internal/transfer/partial.go:28-30 | No hidden file is among the directories made on the way to its destination. |
| PartialNames.PairsAreDisjoint | internal/transfer/partial.go:25-31 | Different clean destinations never share a partial file or sidecar, for any two sources and even if the suffixes collide. |
| PartialNames.WorkersDoNotInterfere | internal/transfer/engine.go:277-350 | Each operation of a worker whose destination resolved to one path is a step that the contracts of another worker allow in its surroundings, so that the other keeps all its guarantees under any interleaving, if and only if neither destination is a file of the other transfer and no missing directory on the way to the one is a file of the other. |
| PartialNames.SiblingsAreApart | internal/transfer/partial.go:25-31 | That condition holds of any two different files of one directory, however their names begin, neither of which is a hidden file of the other. |
| PartialNames.IntoOneDirectory | internal/transfer/engine.go:374-386 | It also holds of two transfers sent into one existing directory, each of which inspects that directory. |
| RemoteHash.DigestLineReads | internal/remotehash/remotehash.go:76-86 | The digest taken from a line is the lower-case form of its first field exactly when that is 64 hexadecimal digits, whatever surrounds it. |
| RemoteHash.HashCommandNamesPath | internal/remotehash/remotehash.go:26-29 | A POSIX shell reads each hash command as its own words and then exactly the path, for every path without NUL. |
| RemoteHash.HashSHA256 | internal/remotehash/remotehash.go:49-70 | With an honest shell a digest it returns is that of the named file, through any mixture of failing or malformed commands; a path with NUL gives none; without faults a shell that knows sha256sum or shasum gives one. |
| RemoteHash.VerifyRemoteFast | internal/transfer/engine.go:466-479 | True, with an honest hasher, only if size and digest of the file agree; and without faults always then, if the shell knows one of the two utilities. |
| RemoteHash.ReadBack | internal/transfer/verify.go:42-56 | Without faults it accepts exactly on equal size and digest and otherwise reports a mismatch; with faults it reports a mismatch only when they differ. |
| RemoteHash.VerifyRemote | internal/transfer/engine.go:317-334 | The fast path refines the read-back: acceptance means size and digest agree, a mismatch means they do not, no hasher can turn a good file into a mismatch, and without faults the two answers are the same. |
| Download.VerifySource | internal/transfer/engine.go:925-942 | Compares the received digest and size with the remote source read again: with an honest hasher, success means that the last reading of the source, whatever happens to it meanwhile, has the digest of what was received; the local file plays no part. |
| Download.Fetch | internal/transfer/engine.go:894-942 | Fills the local partial file after what was there; without faults it succeeds exactly when the partial file passes the resume checks. |
| Download.Receive | internal/transfer/engine.go:894-960 | On every return only the three local files changed, the write-ahead order holds, and the destination is as before or everything received, of an unchanged source everything there is, is at hand; success puts the resumed bytes followed by the received ones in place. |
| Download.PutReceived | internal/transfer/engine.go:946-960 | From a filled partial file: on every return the destination is as before or one of the two places holds what was received. |
| Download.DownloadFile | internal/transfer/engine.go:851-973 | Over an unchanged source the local file a success leaves is right exactly when the bytes resumed from were, which holds within the fingerprinted prefix (or there is a collision) and for whatever interrupted downloads leave; a resumed success had a sidecar saying exactly the size, time and fingerprint that the source showed when it was first looked at, and showed again at the end; a success carries the verdict exactly under the condition of an upload, and with an honest hasher one that does means that the source read again has the digest of what was received; without faults what stands at the resolved path decides as for an upload, and a download that may go ahead succeeds exactly when the partial file passes the checks, right or wrong. |
| Download.AcceptedMeansEqual | internal/transfer/engine.go:1114-1143 | A partial file within the fingerprint is accepted only if it is a prefix of the source, or collides with it. |
| Download.AcceptedThoughWrong | internal/transfer/engine.go:1121-1143 | Beyond the fingerprint there is, for every length, a wrong partial file that the prefix check accepts. |
| Download.ContinuableThoughWrong | internal/transfer/engine.go:1114-1143 | For every length beyond the fingerprint there is a state that passes all resume checks with a wrong partial file. |
| TransferCounterexamples.DownloadOverWrongPartial | internal/transfer/engine.go:894-942 | For every such length and every source a call of DownloadFile, in which nothing goes wrong, resumes from that state, reports a verified success with the digest of the source, and leaves a file that is not the source. |
| Download.ResumedDownloadSafeExactly | internal/transfer/engine.go:1108-1173 | Unless a file collides with the source prefix, all accepted partial files of length k are right if and only if k is at most 1 MiB. |
| SourceTree.WalkCounts | internal/transfer/engine.go:732-744 | A pre-order walk meets exactly as many files as the tree holds. |
| SourceTree.WalkIsSeparate | internal/transfer/engine.go:160-178 | In a walk of a tree with distinct sibling names, no file's path is a prefix of another entry's path. |
| SourceTree.ParentsFirst | internal/transfer/engine.go:160-204 | Every entry is visited after the directory it is in. |
| SourceTree.WalkIsTree | internal/transfer/engine.go:160-204 | The walk and the tree are the same thing: every entry is what a lookup by its names finds, and everything a lookup finds is exactly one entry. |
| SourceTree.CountIsFiles | internal/transfer/engine.go:732-744 | The count is the number of names under which the tree has a file. |
| SourceTree.WalkRemoteDir | internal/transfer/engine.go:980-1010 | Visits a prefix of the pre-order walk, on success all of it, and succeeds on a server without faults. |
| SourceTree.CountRemoteRegularFiles | internal/transfer/engine.go:1012-1021 | A completed count is the number of files in the tree, and a server without faults completes it. |
| TreePaths.SpotsDiffer | internal/transfer/engine.go:171-178 | Two files neither of whose paths lies under the other are never written to the same place, even if directories divert them. |
| TreePaths.SpotIsNotHidden | internal/transfer/partial.go:25-31 | A file whose source names do not have the hidden form is never written to a hidden file of any transfer. |
| TreeCopy.CountRegularFiles | internal/transfer/engine.go:732-744 | A completed count is the number of files in the tree, and a source without faults completes it. |
| TreeCopy.MakeDirectory | internal/transfer/engine.go:179-204 | No file changes, nothing disappears, only directories on the way are made, and on success all of them stand there and an upload has set the group asked for and the mode; a dry run does nothing; without faults it succeeds where no file is in the way. |
| TreeCopy.PreserveTimes | internal/transfer/engine.go:227-234 | Sets exactly the times of all directories, in reverse order, and changes nothing else; without faults it succeeds if they are all there. |
| TreeCopy.TimesInReverse | internal/transfer/engine.go:227-234 | What was visited later has its time set earlier, and no directory is left out. |
| TreeCopy.CopyLeaf | internal/transfer/engine.go:205-222 | One file is either sent or skipped; sent bytes are its size, a skip needs no-clobber and something there, and a file sent is complete at a place of its entry; without faults and with nothing in its way it succeeds, exactly at its counterpart. |
| TreeCopy.VisitEntry | internal/transfer/engine.go:160-223 | One step of the walk keeps all running totals in agreement with the visits and leaves everything sent or made so far in place; a walk that is on course stays on course and fails only at what is neither a file nor a directory. |
| TreeCopy.VisitDirectory | internal/transfer/engine.go:173-204 | The directory is made, or in a dry run nothing is, its group and mode are set, and everything sent before stays complete. |
| TreeCopy.VisitFile | internal/transfer/engine.go:205-222 | The file is sent or skipped with all totals kept in agreement, and everything sent before stays complete. |
| TreeCopy.WalkTree | internal/transfer/engine.go:160-224 | On success every entry was visited and the totals are those of all visits; without faults, from a fresh destination, it fails exactly when some entry is neither a file nor a directory. |
| FreshTree.FreshIsOnCourse | internal/transfer/engine.go:149-159 | Where nothing is at the destination or below it and only directories are above, a walk of a tree without hidden names begins on course: nothing is where its entries go, nor where their hidden files go. |
| FreshTree.DirectoryKeepsReady | internal/transfer/engine.go:179-204 | Making one directory of the walk takes no place that a later entry or one of its hidden files needs. |
| FreshTree.FileKeepsReady | internal/transfer/engine.go:205-222 | Neither does transferring one file, whose directories are all there. |
| TreeCopy.CopyDirectory | internal/transfer/engine.go:135-236 | On success, for every name under which the tree has something: a directory stands there, and a file's bytes are at a place of its own, or it was skipped, with no-clobber, for something that is there; the skipped names are as many as the result counts, the files and they are the files of the tree, the bytes are the sizes of all files not skipped, and the times of all directories are set last if asked for; the result always carries the verdict. A dry run changes nothing. Without faults a link at the destination is refused, and so is anything there without overwrite or no-clobber; a tree without hidden names, sent to a clean path at and below which nothing is yet and above which only directories are, succeeds exactly when it holds nothing but files and directories. |
| SchedulerInvariants.StepKeeps | internal/desktop/jobs.go:134-589 | Each locked region and each store operation keeps the whole invariant. |
| SchedulerInvariants.EveryRunKeeps | internal/desktop/jobs.go:134-589 | In every state of every interleaving, with failing and reordered saves and crashes: the queue order lists exactly the jobs once, slots equal live workers, passwords live only while a job waits and reach its worker, stop requests never conflict, and verified is earned. |
| SchedulerTheorems.CapacityHolds | internal/desktop/jobs.go:439-577 | Running slots equal live workers and stay within the limit, there are none beside a legacy transfer, and the wake lock is held while any lives. |
| SchedulerTheorems.ClosedStaysIdle | internal/desktop/service.go:708-727 | After Close no run of any calls ever adds a worker. |
| SchedulerTheorems.DispatchTakesEarliest | internal/desktop/jobs.go:439-475 | A turn of the loop takes nothing exactly when the service is closed, busy or full or nothing is queued; otherwise it takes the first queued job of the order, with its password, into a slot. |
| SchedulerTheorems.PasswordsLiveOnlyInTheQueue | internal/desktop/jobs.go:141-144 | In every reachable state only waiting jobs hold a password, until Close a waiting password job always has one, and every worker of such a job holds it from the dispatch until it has looked the job up. |
| SchedulerTheorems.VerifiedOnDiskWasEarned | internal/desktop/jobs.go:543-579 | Whatever order saves land in, a stored record has status verified only if some run of that job returned no error, and carries the verdict only if some run returned it; identifiers in the store are unique. |
| SchedulerVerdicts.VerdictExactly | internal/desktop/jobs.go:538-544 | While everything that says verified, in memory, on disk or in a save under way, carries the verdict, a step keeps it so if and only if it is not the end of a run that returns neither an error nor the verdict to a job that is still there. |
| SchedulerVerdicts.VerdictAlways | internal/desktop/jobs.go:538-544 | In every run without such an end, whatever order saves land in, every record that says verified carries the verdict. |
| JobRuns.RunFile | internal/desktop/service.go:494-545 | The run of a job for one file that returns no error carries the verdict if and only if the job does not ask for no-clobber or nothing stands at the resolved path before the run; it fails when it cannot connect or the request contradicts itself, and with a connection and a readable result it returns no error if nothing hampers the transfer. |
| SchedulerTheorems.RestartStartsNothing | internal/desktop/jobs.go:414-437 | After a crash and restart from any reachable state nothing is queued or active and no worker starts until someone enqueues or retries. |
| SchedulerOutcomes.EnqueueOutcome | internal/desktop/jobs.go:134-188 | A job is taken on exactly when its password is at hand if it needs one and the manager is open and holds fewer than a hundred; it waits at the end of the queue, unverified, and is about to be saved; nothing else changes. |
| SchedulerOutcomes.EnqueueSaveOutcome | internal/desktop/jobs.go:190-201 | The save that works stores the record and leads to the dispatch loop; one that fails takes the job out of the manager and out of its place in the order. |
| SchedulerOutcomes.RetryOutcome | internal/desktop/jobs.go:230-263 | A retry is taken exactly of a job that is paused, interrupted, failed, canceled or waiting for a password, with its password if it needs one; it waits anew, in its old place, without verdict or cancel request, but with an old pause request. |
| SchedulerOutcomes.RetrySaveOutcome | internal/desktop/jobs.go:264-275 | The save that works leads to the dispatch loop; one that fails puts the previous record back and drops the password. |
| SchedulerOutcomes.CancelOutcome | internal/desktop/jobs.go:280-317 | A cancel ends a waiting or paused job at once, without its password; a running one is asked to stop, which overrides a pause; an ended one stays as it is. |
| SchedulerOutcomes.PauseOutcome | internal/desktop/jobs.go:323-358 | A pause ends a waiting job at once, without its password; a running one is asked to stop unless it is being cancelled; a paused or ended one stays as it is. |
| SchedulerOutcomes.StopReplies | internal/desktop/jobs.go:280-358 | What a cancel and a pause answer, for every status. |
| SchedulerOutcomes.RemoveOutcome | internal/desktop/jobs.go:361-382 | Exactly the verified, interrupted, failed and canceled jobs are removed, out of their place in the order, and nothing else changes. |
| SchedulerOutcomes.DispatchOutcome | internal/desktop/jobs.go:439-483 | Nothing is taken exactly when the manager is closed or full, a legacy transfer runs or nothing waits; otherwise the first waiting job of the order runs, without cancel request or password, in one more slot, and its worker is handed its record and password. |
| SchedulerOutcomes.DispatchSaveOutcome | internal/desktop/jobs.go:479-482 | Whether or not the save of a dispatched job works, its worker starts with its password and the loop goes on. |
| SchedulerOutcomes.StartOutcome | internal/desktop/jobs.go:485-495 | A worker finds its job or gives its slot back. |
| SchedulerOutcomes.FinishOutcome | internal/desktop/jobs.go:518-577 | A run without an error leaves its job verified; one with an error leaves it paused, canceled, interrupted or failed, in this order of precedence; always with the verdict the engine returned, no password and no cancel request; its slot is free and that record is about to be saved. |
| SchedulerOutcomes.SucceededRunEndsVerified | internal/desktop/jobs.go:538-546 | From the dispatch of a job, whatever requests and saves come between: the step in which a worker of it ends without an error leaves its record, and the one handed to the save, as it was dispatched but with status verified and the verdict returned. |
| SchedulerOutcomes.SaveOutcome | internal/desktop/jobs.go:579-588 | A save that works stores exactly its record in place of an older one, one that fails leaves the store; after a run the call looks for more work. |
| SchedulerOutcomes.RestartOutcome | internal/desktop/jobs.go:414-437 | A restart that can read the store has exactly the stored jobs, by creation; those that waited or ran are paused or wait for the password they need, the others are as they were, and those whose save works are stored so; one that cannot read it is empty and leaves the store. |
| SchedulerOutcomes.CloseOutcome | internal/desktop/service.go:708-719 | Closing forgets every password and touches nothing else. |
| SchedulerOutcomes.LegacyOutcome | internal/desktop/service.go:674-691 | A legacy transfer begins exactly when nothing runs, and beginning and ending only mark it. |
| SchedulerRequests.RequestsResolve | internal/desktop/jobs.go:300-358 | For any sequence of requests to a running job: never both flags, a cancel overrides an earlier pause and refuses later ones. |
| SchedulerRequests.RunningJobFollowsRequests | internal/desktop/jobs.go:300-358 | In any run of the whole service, until its own worker ends, its save is rolled back or the service restarts, a running job is exactly what the stop requests for it have made of it. |
| SchedulerRequests.ErroredRunEndsAsAsked | internal/desktop/jobs.go:552-571 | From the dispatch of a job to the end of a worker of it, whatever else happens: a run that errors ends Canceled, Paused, Interrupted or Failed as its own requests and error say if and only if there was a request or no pause was left over from before the dispatch. |
| SchedulerCounterexamples.RetriedJobFailsAsPaused | internal/desktop/jobs.go:248-250 | The leftover is real: a run of the service in which a job is paused, retried and fails by itself, unasked, and ends Paused. |
| SchedulerCounterexamples.StoredVerifiedWithoutVerdict | internal/desktop/jobs.go:538-544 | A run of the service that stores a record with status verified although the engine said no such thing, as for a skipped file. |
| SchedulerOwners.ActiveJobsHaveWorkers | internal/desktop/jobs.go:439-577 | In every reachable state each active job has a live worker. |
| SchedulerOwners.OneWorkerPerJob | internal/desktop/jobs.go:265-271 | In every run in which no failed retry save lands on an active job, with legacy transfers, failed enqueue saves and everything else allowed: no job has two workers, and a worker's job is active or gone. |
| SchedulerOwners.WorkersMatchActiveJobs | internal/desktop/jobs.go:190-196 | If no failed enqueue save lands on an active job either, workers and active jobs match one to one. |
| SchedulerOwners.RetryUndoBreaksExactlyWhenActive | internal/desktop/jobs.go:265-271 | A failed retry save leaves every worker's job active or gone if and only if the job it rolls back is not active; this is the condition under which the rule of one worker survives, by OneWorkerPerJob, and whose failure lets a second worker in, by UndoOverActiveAdmitsSecondWorker. |
| SchedulerCounterexamples.UndoOverActiveAdmitsSecondWorker | internal/desktop/jobs.go:265-271 | In every state in which a retry save fails over an active job of an open service with a free slot and nothing else queued, retrying the job and dispatching it gives it two workers. |
| SchedulerOwners.EnqueueUndoOrphansExactlyWhenActive | internal/desktop/jobs.go:190-196 | A failed enqueue save orphans a worker if and only if the job it drops is active. |
| SchedulerOwners.NothingRunsAfterRestart | internal/desktop/jobs.go:414-437 | A restart leaves no job queued or active and no thread at all. |
| SchedulerAttendance.StrandsExactly | internal/desktop/jobs.go:439-495 | Among all steps only two can strand a queued job that could start, the end of a legacy transfer and the loss of a worker's job, and each does so if and only if the service is open and such a job has no dispatch or own enqueue or retry in flight. |
| SchedulerAttendance.NeverStranded | internal/desktop/jobs.go:185-199 | In every state of every run whose steps all meet that exact condition, a queued job in an open service with a free slot and no legacy transfer has a call in flight that will look at it. |
| SchedulerAttendance.NeverStrandedWithoutLegacy | internal/desktop/jobs.go:185-199 | In particular in every run without legacy transfers and without a worker that loses its job, which also hold the wake lock exactly while something runs. |
| SchedulerAttendance.WakeLockExactly | internal/desktop/jobs.go:489-493 | The only step that gets the wake lock wrong is the last worker losing its job. |
| SchedulerAttendance.WakeLockFollowsWorkers | internal/desktop/jobs.go:489-493 | In every run without that step the wake lock is held exactly while something runs. |
| SchedulerAttendance.UndisturbedRuns | internal/desktop/jobs.go:134-589 | If no failed save lands on an active job and every legacy transfer ends safely: workers and active jobs match, no job is stranded and the wake lock is exact, in every state. |
| SchedulerCounterexamples.TwoWorkersAfterFailedRetrySave | internal/desktop/jobs.go:265-271 | A run in which a failed retry save restores the record of a dispatched job and a second worker takes it. |
| SchedulerCounterexamples.LegacyEndStrands | internal/desktop/service.go:686-691 | A run in which a job queued during a legacy transfer stays queued with nothing to look at it. |
| SchedulerCounterexamples.OrphanStrandsAndLeaksWakeLock | internal/desktop/jobs.go:489-493 | A run in which a worker whose job was dropped gives its slot back, the wake lock stays held and a queued job is stranded. |
| SchedulerRuns.WithoutFacts | internal/desktop/jobs.go:649-657 | Removing a job keeps the order a duplicate-free listing of exactly the jobs. |
| SchedulerRuns.RestoredOrder | internal/desktop/jobs.go:414-437 | A restored service lists exactly the stored jobs, in the order they were listed. |
| SchedulerRuns.RestoredFacts | internal/desktop/jobs.go:414-437 | A restored service has no slot in use, and every job in it is a stored one with no password and no stop request. |
| Service.JobOrder.Remove | internal/desktop/jobs.go:649-657 | The in-place compaction leaves the order without the identifier, everything else in sequence. |
| Service.Service.EnqueueTransfer | internal/desktop/jobs.go:173-188 | The region leaves exactly the state about which the scheduler theorems speak, or changes nothing when it refuses. |
| Service.Service.Drop | internal/desktop/jobs.go:191-194 | Rolling back an enqueue removes the job and its place in the order. |
| Service.Service.RetryTransferJob | internal/desktop/jobs.go:232-263 | The region leaves exactly the specified state and hands out the new and the previous record, or changes nothing. |
| Service.Service.UndoRetry | internal/desktop/jobs.go:265-271 | Puts the previous record back without looking at what happened meanwhile. |
| Service.Service.CancelTransferJob | internal/desktop/jobs.go:281-311 | State and reply are those specified for every status. |
| Service.Service.PauseTransferJob | internal/desktop/jobs.go:323-354 | State and reply are those specified for every status. |
| Service.Service.RemoveTransferJob | internal/desktop/jobs.go:362-376 | Removes a terminal job and nothing else. |
| Service.Service.DispatchTurn | internal/desktop/jobs.go:441-477 | The scan and the take are the specified dispatch step. |
| Service.Service.DispatchJobs | internal/desktop/jobs.go:439-483 | The loop ends, each turn filling a slot, in the state of taking earliest jobs until none can be taken: the service is closed, busy or full, or no job of the order waits. |
| Service.Service.StartWorker | internal/desktop/jobs.go:485-495 | A worker without its job only gives its slot back. |
| Service.Service.FinishJob | internal/desktop/jobs.go:518-577 | State and saved record are those specified for the end of the run, with slot and wake lock given back. |
| Service.Service.BeginTransfer | internal/desktop/service.go:674-685 | Begins only when nothing runs. |
| Service.Service.EndTransfer | internal/desktop/service.go:686-691 | Only clears the active flag; nothing is dispatched. |
| Service.Service.Close | internal/desktop/service.go:708-719 | Closes and clears every password, leaving the rest. |
| Service.Service.RestoreOne | internal/desktop/jobs.go:419-435 | One stored record becomes a job without password at the end of the order; the store holds its changed form exactly if that save worked. |
| Service.Service.RestoreJobs | internal/desktop/jobs.go:414-437 | The new service holds exactly the restored form of the listed records, and the store exactly the changed ones whose save worked; a readable store without faults is listed in full and every changed record is written back. |
| JobRecords.UpsertFacts | internal/desktop/state.go:346-355 | Saving makes the record the only one under its identifier, in the place of the older one or else at the end, and touches no other. |
| JobRecords.DeletedFacts | internal/desktop/state.go:369-375 | Deleting removes exactly the record under the identifier. |
| JobRecords.DeletedAt | internal/desktop/state.go:369-375 | Deleting leaves what was before the record, and then what was after it. |
| JobRecords.ByCreationFacts | internal/desktop/state.go:328-332 | The listing has exactly the stored records, ordered by creation. |
| JobRecords.ByCreationIsStable | internal/desktop/state.go:328-331 | Of two records created at the same time, the one stored first is listed first. |
| JobStore.NewestAreKept | internal/desktop/state.go:390-393 | The newest entry comes last, after as many of the older ones as fit in a hundred. |
| JobStore.StateStore.ListTransferJobs | internal/desktop/state.go:321-333 | Gives the stored jobs in creation order. |
| JobStore.StateStore.SaveTransferJob | internal/desktop/state.go:335-357 | Success stores the record by upsert and keeps all else, failure keeps the old state, and after power loss the file is the old or the new state. |
| JobStore.StateStore.DeleteTransferJob | internal/desktop/state.go:359-377 | Success removes the record and keeps all else; failure keeps the old state. |
| JobStore.StateStore.RecordHistory | internal/desktop/state.go:379-395 | Success appends the entry and keeps the newest hundred; failure keeps the old state. |
| JobStore.StateStore.ReadLocked | internal/desktop/state.go:397-419 | A missing file reads as the empty state, undecodable content as an error. |
| StateFile.StateDirectory.WriteLocked | internal/desktop/state.go:421-459 | At every stop point, and after power loss, the path holds the old bytes or all of the new ones; an error means the old. |
| Endpoint.ParseGuarantees | internal/remote/remote.go:29-68 | What a successful parse returns: valid user and host, and a clean path without traversal or control characters. |
| Endpoint.SpellingParses | internal/remote/remote.go:29-85 | Every destination written as it may be, with or without a user, with an IP literal in brackets before any path or another host before a path that does not mislead, parses to exactly what it means, the path cleaned and the user empty if there is none. The one exception is a one-letter host without a user before a rooted path, a drive letter. |
| Endpoint.ParsedIsSpelled | internal/remote/remote.go:29-85 | Nothing else parses: whatever does is such a spelling, and means what was parsed. |
| Endpoint.BracketedFormParses | internal/remote/remote.go:70-85 | An endpoint written with its IP literal in brackets parses to itself, whatever its path holds. |
| Endpoint.EndpointRoundTrip | internal/desktop/state.go:574-580 | A parsed destination printed in canonical form parses to exactly itself if and only if it is not trapped; a trapped one is rejected. |
| Endpoint.BracketedIPv4IsLost | internal/remote/remote.go:70-78 | Every trapped destination with an IP literal parses as typed and no longer once persisted. |
| Endpoint.TrapExample | internal/remote/remote.go:70-78 | Such a destination exists: user u, host 1.2.3.4, path /x@[y]:z. |
| SlashPath.CleanIdempotent | internal/remote/remote.go:63 | Cleaning a cleaned path changes nothing. |
| SlashPath.CleanKeepsOutTraversal | internal/remote/remote.go:58-63 | Cleaning never brings a traversal in. |
| SlashPath.TraversalMeans | internal/remote/remote.go:58-62 | A traversal is two dots with a slash, a backslash or an end on either side. |
| SlashPath.CleanPlain | internal/remote/remote.go:63 | Without "..", cleaning keeps exactly the components that name something. |
| SlashPath.CleanBack | internal/remote/remote.go:63 | A component and the ".." after it cancel out, wherever they stand. |
| Quoting.ShellQuoteRoundTrip | internal/remotehash/remotehash.go:94-99 | Quoting succeeds exactly on strings without NUL, and a POSIX shell reads the result as the single word it was made from. |
| Quoting.ReadArgument | internal/backend/rsync/rsync.go:121-130 | A shell reads each quoted command argument, plain or quoted, as one word equal to the argument. |
| RsyncArgs.FlagsSayOptions | internal/backend/rsync/rsync.go:87-102 | The flags are exactly the three fixed ones and those of the options that apply, and none can be taken for the transport or the end of the flags. |
| RsyncArgs.SshArgumentsSayOptions | internal/backend/rsync/rsync.go:103-112 | Read as ssh reads them, the arguments insist on known host keys, forbid questions, and give the port, identity and known hosts of the options exactly when they are set. |
| RsyncArgs.DecimalReads | internal/backend/rsync/rsync.go:104-106 | A port is written in decimal digits that read back as its number, without a leading zero. |
| Quoting.TransportRoundTrip | internal/backend/rsync/rsync.go:113-117 | The space-joined command string splits back into exactly the arguments, empty ones included. |
| RsyncArgs.QuoteEach | internal/backend/rsync/rsync.go:113-117 | The loop that fills the quoted vector gives a string that reads back as the ssh arguments. |
| RsyncArgs.BuildArgs | internal/backend/rsync/rsync.go:70-119 | Refuses exactly unreadable or mismatched paths; else gives the flags, a transport string that a shell reads back as the ssh arguments, and the two paths untouched at the end. |

## Left out

- SSH dialing, host keys, credentials, mDNS, the SFTP client and rsync processes: network and library code.
- The desktop bridge, command line, printing, browsing and progress reports, including the throttle and the progress fields of a job record: they do not feed back into what is modelled.
- Thumbnails: taken as switched off. Media renaming is an arbitrary function on paths.
- `validateLocalParents`: a read-only walk that may refuse a transfer before anything changes; in the model that refusal may happen on any store that is not reliable.
- Local symbolic links in parents, Windows path dialects and file-system aliasing: paths are compared as strings.
- Modification times, group ownership and the modes of directories on the receiving side: the store records which were set, but the disk of the model does not keep them, and the group itself is not named.
- Download.VerifySource: for a source that changes meanwhile the second reading may be torn, so only its digest is stated.
- TreeCopy.CopyDirectory: says when a tree must succeed for a destination where nothing is yet; into an existing directory each file follows the rules of CopyFile and DownloadFile.
- TreeCopy.CopyDirectory: the total of resumed bytes is added up but not stated.
- Download.HashSource: the path of the remote source is not modelled, so that it could not be quoted is left out.
- The diagnostic codes, messages, sizes and times of a job record.
- Directory entries are pre-order lists of names; that the lists are sorted is not stated.
- PreviewDestination, sessions, profiles and clearing of history: list handling like that of the job store.
- ClearFinishedTransferJobs: a loop of removals, each of which is a step of the state machine.
- Context cancel functions of workers: cancelling makes a run end with an error at an arbitrary read, and a cancelled run may still succeed.
- A runtime job is a value in the map rather than a shared record behind a pointer; every region looks the job up anew under the lock.
- Random identifiers are taken never to repeat, and a job carries no transfer request: re-parsing of the persisted request is stated for endpoints alone.
- TreeCopy.CopyDirectory: requires that nothing else writes on the receiving side and that the source tree does not change, because only then do its totals and placements mean something; placements also need file renaming off and no source name of the hidden form.
- TreeCopy.CopyDirectory: the placement of downloaded files is stated for downloads that do not resume, because of the limit stated by Download.DownloadFile.
- PartialNames.PairsAreDisjoint: is about clean destinations, which parsing guarantees for a remote path; the suffix is any function giving sixteen characters other than a slash (Formats.WellShapedSuffixExists gives one).
- JobRuns.RunFile: which user may read the uploaded file is left open; a run for a directory always carries the verdict when it succeeds (TreeCopy.CopyDirectory).
- ResumeChain.ResumeRepeatedly: stops when the destination comes to resolve to another path, because the calls are then about another target.
- RsyncArgs.BuildArgs: the inspection of the source path is a parameter.
- Endpoint.EndpointRoundTrip: IP literals are known only by the characters they are written in.
- RemoteHash.HashSHA256: the shell that runs the command is abstract, apart from how it reads its command line.
