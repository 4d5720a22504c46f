# isopod: models and proofs

A Dafny model of the parts of isopod (a microVM sandbox runner written in Rust) whose correctness
is a fact about every run or every input, with the proofs of those facts.

| file | component |
|---|---|
| `SnapshotProtocol`, `SnapshotSafety`, `SnapshotCalm`, `SnapshotOnce`, `SnapshotBuilt`, `SnapshotDump`, `SnapshotDeadline` | the warm-pool snapshot build protocol: racing builders and readers, crashes, I/O errors, and what every run keeps |
| `SnapshotRuns`, `SnapshotWait`, `SnapshotOver`, `SnapshotMixed` | the same: runs put together step by step, and exactly from which directories and errors each failure is possible |
| `BuildLock` | the loop that polls for the build lock |
| `StageForest`, `StageTheorems`, `StageStore` | the stage store as a value, its invariants over every run, and the class that implements it |
| `Overlay`, `Devices`, `OverlayRoot`, `Fork`, `GuestView` | the guest's overlay root: the merged view, the device order, the lowerdir text, and store and overlay together |
| `ExecStream`, `StreamSink` | the exec stream, both ends |
| `CopyOut`, `GuestFile`, `StagingName` | `copy_out`, both ends, and the name a copy is staged under |
| `Reaper` | the PID-1 reaper's registry |
| `Slots` | the network slot allocator |
| `JailCli` | the jailed command line: printed by two crates, parsed by a third |
| `AuthChallenge` | the registry's Bearer challenge scanner |
| `NetConfig`, `Netmask`, `ResolvConf` | the boot-argument network configuration and the resolver file |
| `Text`, `Bytes`, `Wrappers` | string and byte operations the others share |

Objects that the program updates in place (`Reaper`, `StageStore`, `StreamSink`, the destination
directory of a copy) are classes, and each of their methods is proved equal to a function of the
old state; the theorems are about those functions over whole runs. Loops are methods proved against
a recursive definition. Concurrency is a transition system whose steps are the atomic operations of
the source. The clock, the kernel's answers, I/O errors, cancellation and crashes are parameters or
events, so every statement quantifies over them. Byte counters are the source's u64, saturating
where it saturates.

## What turned out to differ from the documentation

Each of these is proved, with the exact condition under which the promise does hold.

Three reads of the snapshot protocol are called deciding below: the check made under the lock, the
read of the vmstate length that goes into the record, and the check after waiting. The statements
about what can happen quantify over every set of them that may fail; all other errors and crashes
are always possible.

- A call that returns `built = true` leaves a snapshot that passes exactly when its read of the
  vmstate length succeeded or the vmstate is empty: an error there is taken as length 0, a record no
  check accepts is published, and the call reports success (`SnapshotBuilt.BuiltIsUsableIff`, over
  every run).
- At most one build completes exactly unless the check under the lock may fail, or the length read
  may in a directory that does not pass to begin with (`SnapshotWait.BuildsTwiceExactlyWhen`).
- A waiter for the build lock can report "timed out" with its whole wait ahead of it: the loop ends
  as soon as the three files exist, usable or not. That can happen exactly when the directory begins
  with a `meta.json` and does not pass the hot-path check, complete or not, or the check after the
  wait may fail, or the check under the lock may, or the length read may in a directory that does
  not pass to begin with (`SnapshotWait.EarlyTimeoutExactlyWhen`).
- A call under the lock goes on to build over a usable snapshot exactly when its check fails for an
  outside reason (`SnapshotOnce.RebuildsOverUsableIff`), and from any usable directory one such error
  leads to a publication over it (`SnapshotWait.PublishesExactlyWhen`).
- A leftover record can come to fit files that are not its own: a build puts its two files in place
  before its record. A call can be building over a snapshot that passes exactly when the check under
  the lock may fail, or the directory begins with a record that its files do not fit though others
  would (`SnapshotOver.BuildsOverExactlyWhen`).
- A check takes its steps while builds come and go, and can pass of a directory that passes at no
  moment, each step seeing another build's file. So a call can reuse a snapshot that is not usable
  exactly when the directory begins with a digest record and does not pass, or one of the two reads
  above may fail as in the second point (`SnapshotMixed.ReusesUnusableExactlyWhen`); the
  corresponding conditions for a reader's verification and for the hot-path check against the full
  one are `SnapshotMixed.MisverifiesExactlyWhen` and `SnapshotMixed.PassesFastOnlyExactlyWhen`. The
  digests of both files are still those of one build at the moment each is made
  (`SnapshotSafety.EachDigestedFileIsTheAuthors`).
- A stage's label stops resolving to it exactly when another stage takes that text as its id, or as
  its generated name while it is no stage's id, which a later commit can do
  (`StageTheorems.LabelResolvesIff`, `NameShadowsLabel`).
- A vanity name is reused exactly when all ten candidates are taken; the last one is not checked
  (`StageForest.NameReusedExactlyWhenAllTaken`), although the doc comment says it cannot collide.
  Names are unique throughout a run exactly when no commit meets that (`StageTheorems.NamesStayUniqueIff`);
  eleven commits can (`StageTheorems.NamesRunOut`).
- The reaper's stash can hold 513 statuses: a served register leaves its entry in `order`
  (`Reaper.StashOverflowsExactlyWhen`, `Reaper.StashCanExceedCap`).
- A command that cannot be started is reported as exit 127 with its reason exactly when the reason
  fits one chunk; a longer one makes the host refuse the frame as oversize, and one too long for a
  frame is dropped, so that the host reports exit 127 and an empty stderr
  (`ExecStream.SpawnFailureReported`).
- A copy stages on top of its own destination exactly when that name is 255 bytes of dots ending in
  the copy's own suffix (`StagingName.StagedOnItself`). The destination is then seen half-written as
  soon as the staging file is created, unless an empty file is what the transfer delivers; in every
  other case it is old or complete at every moment (`CopyOut.CopyOut`). A staging file outlives the
  call exactly when the call is cancelled while the exclusive open is under way, or when the unlink
  of a file that was not renamed fails (`CopyOut.CopyEnd`, stated by `CopyOut.CopyOut`). A copy staged
  on its own destination still ends with the whole file or with none, but for those two cases, and a
  cancelled rename takes the file away (`CopyOut.SelfEnd`, stated there too).
- Committing the same bytes under the same label over another parent returns the stage that is
  there; its fork shows the new run exactly where the two parents agree under what the run changed
  (`Fork.RecommitShowsTheRunIff`).
- Device names come back in attach order exactly up to 25 extra drives (`Devices.AttachOrderIsNameOrderIff`).
- A host whose slots are all filtered answers a public claim with "invalid slot range"
  (`Slots.Claim`).

## Model

| member | source | states |
|---|---|---|
| `SnapshotSafety.MutualExclusion` | crates/core/src/snapshot.rs:558-618 | over every interleaving, with a crash or an I/O error at any step, at most one call is between taking the build lock and releasing it |
| `SnapshotSafety.PublishedFilesAreClosed` | crates/core/src/snapshot.rs:896-949 | no published `vmstate` or `memfile` ever has an open writer, not even a VMM whose supervisor was killed |
| `SnapshotSafety.FullMeansOneBuild` | crates/core/src/snapshot.rs:312-383 | whenever a full verification passes, the two files hold exactly the bytes dumped by the one build that wrote the current `meta.json` |
| `SnapshotSafety.EachDigestedFileIsTheAuthors` | crates/core/src/snapshot.rs:312-383 | the same for a verification whose steps interleave with a rebuild: each file it digests holds at that moment the bytes of the build whose record it read |
| `SnapshotSafety.StepKeepsInv` | crates/core/src/snapshot.rs:558-984 | every event (a step of any call, a write by a live or orphaned VMM, a crash, a clock tick) keeps the invariants behind these |
| `SnapshotSafety.WriteKeepsStage` | crates/core/src/snapshot.rs:900-917 | a write by any VMM leaves the staging files a build has closed as it closed them, so the dump it publishes is the one it recorded |
| `SnapshotSafety.WriteKeepsChecks` | crates/core/src/snapshot.rs:896-949 | a write reaches no published file, so every check goes on as it would have and passes exactly as before |
| `SnapshotDump.DumpIsWhatWasWritten` | crates/core/src/snapshot.rs:896-917 | over any run, a build's dump is exactly what its own VMM wrote to the two files after the build opened them, with nothing left from an earlier build and nothing from another VMM |
| `SnapshotOnce.AtMostOneBuild` | crates/core/src/snapshot.rs:558-618 | however many calls race, in whatever directory, as long as no check under the lock and no length read fails, at most one returns `built = true`, and it is the one that published |
| `SnapshotWait.BuildsTwiceExactlyWhen` | crates/core/src/snapshot.rs:558-618 | some run in which only given deciding reads may fail has two calls return `built = true` if and only if the check under the lock is among them, or the length read is and the directory does not pass to begin with |
| `SnapshotBuilt.BuiltIsUsableIff` | crates/core/src/snapshot.rs:953-984 | in any run, a call that returns that it built leaves a snapshot that passes, at either strength, if and only if its length read succeeded or its vmstate is empty |
| `SnapshotBuilt.PublishedPassesIff` | crates/core/src/snapshot.rs:953-984 | in any run, a record just put in place passes if and only if the length it gives is that of the bytes its author's VMM wrote |
| `SnapshotBuilt.LengthReachable` | crates/core/src/snapshot.rs:954-956 | in any run, a build carries the length of what its VMM wrote from that read into its record, or zero exactly when the read failed |
| `SnapshotOnce.AtMostOnePublication` | crates/core/src/snapshot.rs:953-984 | at most one `meta.json` is ever renamed into place in such a run, and none in a directory that was usable to begin with |
| `SnapshotOnce.PassesExactlyWhen` | crates/core/src/snapshot.rs:312-383 | when the directory passes, at either strength: after a publication always, from a usable start as it did then, otherwise not on the hot path, with the same exception |
| `SnapshotOnce.OutcomesAreUsable` | crates/core/src/snapshot.rs:563-565 | as long as neither of those reads fails, a call that built leaves a snapshot that passes at both strengths, and one that reused a usable one, unless a build has put in place a file the old record could describe |
| `SnapshotMixed.ReusesUnusableExactlyWhen` | crates/core/src/snapshot.rs:558-606 | some run in which only given deciding reads may fail has a call that reused while the directory does not pass, if and only if the directory begins with a digest record and does not pass, or the check under the lock may fail, or the length read may in a directory that does not pass to begin with |
| `SnapshotOnce.VerifiedIsCurrent` | crates/core/src/snapshot.rs:312-383 | a reader's verified record is that of the run's one publication, whose files are in place, or the directory's own, which passed at that strength to begin with, with the same exception |
| `SnapshotMixed.MisverifiesExactlyWhen` | crates/core/src/snapshot.rs:312-383 | some run in which those reads succeed has a reader verify a record that is neither the publication's nor one that passed at that strength to begin with, if and only if the directory begins with a digest record and passes neither the hot-path check nor the one made |
| `SnapshotMixed.Misled` | crates/core/src/snapshot.rs:312-383 | wherever the record does not fit, some run leads a check of either strength to pass, each step by another build's file, of a directory that passes at no moment |
| `SnapshotOnce.NobodyBuildsOverUsable` | crates/core/src/snapshot.rs:602-618 | while the snapshot is usable, nobody is building but the call that has just published it, and one whose own file in place the old record could describe |
| `SnapshotOnce.FastImpliesFull` | crates/core/src/snapshot.rs:358-381 | when the hot-path check passes so does the full one, but where the directory began with a memory file of the right length and time and other bytes, or a build has put in place a file the old record could describe |
| `SnapshotMixed.PassesFastOnlyExactlyWhen` | crates/core/src/snapshot.rs:358-381 | some run in which those reads succeed has the hot-path check pass where the full one would not, if and only if the directory begins so, or begins with a record that its files do not fit, others would, and whose memory file could have other bytes of the same length |
| `SnapshotOnce.UsableForGood` | crates/core/src/snapshot.rs:302-304 | after a publication, or from a usable start, the record stays and passes at each strength as it did, for the rest of the run |
| `SnapshotOnce.RebuildsOverUsableIff` | crates/core/src/snapshot.rs:602-618 | in any run, whatever failed before, a step of a call under the lock starts a build over a usable snapshot if and only if that check fails for an outside reason |
| `SnapshotWait.PublishesExactlyWhen` | crates/core/src/snapshot.rs:602-618 | some run in which only given deciding reads may fail puts a record in place if and only if the directory does not pass to begin with, or the check under the lock is among them |
| `SnapshotWait.EarlyTimeoutExactlyWhen` | crates/core/src/snapshot.rs:577-600 | some run in which only given deciding reads may fail makes a waiter give up before its deadline if and only if the directory begins with a `meta.json` and does not pass, or the check after the wait or the one under the lock is among them, or the length read is and the directory does not pass to begin with |
| `SnapshotDeadline.KeepsItsDeadline` | crates/core/src/snapshot.rs:645-670 | over any run, a call given `wait` whose first check failed when the clock read `n` carries the deadline `n + wait` for as long as it tries for the lock, gives up for having reached it only when the clock reads at least that, and otherwise only after it saw the three files before then |
| `SnapshotDeadline.WaitsUntilItsDeadline` | crates/core/src/snapshot.rs:645-670 | at any point of a run its next look decides as promised: it waits exactly while another holds the lock, and stops waiting exactly when the three files are there or the clock has come to `n + wait` |
| `SnapshotDeadline.TimeEndsTheWait` | crates/core/src/snapshot.rs:662-668 | while the files are not all there, the wait goes on until the clock has ticked up to the deadline, and the next look then ends it |
| `SnapshotOver.BuildsOverExactlyWhen` | crates/core/src/snapshot.rs:953-984 | some run in which only given deciding reads may fail has a call still building over a snapshot that passes if and only if the check under the lock is among them, or the directory begins with a digest record of the right vmstate length that its files do not fit |
| `SnapshotOver.StepKeepsFit` | crates/core/src/snapshot.rs:602-618 | every step other than a failing check under the lock keeps that a record some vmstate fits is fitted by the files and nobody is building towards another |
| `BuildLock.AcquireBuildLock` | crates/core/src/snapshot.rs:645-670 | the polling loop: its outcome in terms of the last attempt, and that every earlier attempt came before the deadline, hence at most wait / 200 ms + 2 attempts |
| `StageTheorems.ReachableStoresAreForests` | crates/core/src/stage.rs:458-633 | in every store reachable by commits and removals each chain ends in its stage, is at most ten long, and its element i is a stored stage of the same flavor whose chain is the first i + 1 ids; labels are unique and every layer is present and hashes to its id |
| `StageTheorems.CommitKeepsInv` | crates/core/src/stage.rs:466-632 | one commit, however it ends, keeps that |
| `StageTheorems.RemoveKeepsInv` | crates/core/src/stage.rs:712-730 | one removal keeps it, because a referenced stage is refused |
| `StageTheorems.ChainsHaveNoDuplicates` | crates/core/src/stage.rs:572-583 | the chains of a forest have no duplicates |
| `StageTheorems.StagesAreImmutable` | crates/core/src/stage.rs:489-529 | no operation alters a stage it does not remove, nor its layer, even when two contents share an id |
| `StageTheorems.CommitOnlyAdds` | crates/core/src/stage.rs:458-633 | a commit removes nothing, an unsuccessful one changes no metadata, a successful one leaves its stage in the store |
| `StageTheorems.ReachableWithoutSkew` | crates/core/src/stage.rs:535-575 | in every store reachable without the skew opt-in all stamped stages of a chain carry one trimmed stamp |
| `StageTheorems.StaleAncestorIsRefused` | crates/core/src/stage.rs:732-795 | an ancestor stamped for another build always makes the chain verdict a refusal, however the stage itself is stamped |
| `StageTheorems.AcceptedExactlyWhenAllCompatible` | crates/core/src/stage.rs:732-795 | a stored chain is accepted exactly when every stage in it has the flavor in use and records no image but blanks, or the image in use, blanks around it apart |
| `StageTheorems.VerdictOnOne` | crates/core/src/stage.rs:196-253 | the four verdicts on one stage, each exactly by flavors and recorded images |
| `StageTheorems.RefusedExactlyWhen` | crates/core/src/stage.rs:732-795 | the verdict on a stored chain is a wrong flavor exactly when the flavors differ, and a rebuilt base exactly when they agree and some stage records another image |
| `StageTheorems.CommitSucceedsIff` | crates/core/src/stage.rs:458-633 | a commit succeeds if and only if its label is not blank and either the same bytes are there under it, or neither label nor id is taken, the parent is stored, of the same flavor, less than ten deep and, without the opt-in, on no other image, and no I/O fails; and every field of what it adds but the name |
| `StageTheorems.CommitFailsFor` | crates/core/src/stage.rs:458-633 | which error a commit ends with, in the order the reasons are looked at |
| `StageForest.ChainVerdictIsTheWorst` | crates/core/src/stage.rs:732-779 | the verdict has the maximum severity over the chain and is that of the first element that has it |
| `StageForest.ResolvesIff` | crates/core/src/stage.rs:665-710 | a reference resolves to a stage if and only if it is its id, or, each tried when nobody answers to the one before, it is its name, its label or a prefix of its label and no other stage's |
| `StageForest.ResolveFailsFor` | crates/core/src/stage.rs:665-710 | otherwise it is blank, nobody answers, or the error lists all the stages that answer at the first of these that any does |
| `StageForest.NameReusedExactlyWhenAllTaken` | crates/core/src/names.rs:166-181 | the generated name is one already taken exactly when all ten candidates are |
| `StageTheorems.NamesStayUniqueIff` | crates/core/src/stage.rs:584-592 | over any run from the empty store, no two stages share a name at any point if and only if no commit adds a stage whose ten candidates are all taken |
| `StageTheorems.NamesRunOut` | crates/core/src/names.rs:166-181 | eleven root commits whose ids share a base name, the last two the hexadecimal tail, end with two stages of one name |
| `StageTheorems.NameResolvesIff` | crates/core/src/stage.rs:682-688 | with unique names, a stage's name resolves to it if and only if it is not blank and no other stage has it as id |
| `StageTheorems.IdsResolveForever` | crates/core/src/stage.rs:678-681 | an exact id resolves to its stage in every reachable store that has it |
| `StageTheorems.LabelResolvesIff` | crates/core/src/stage.rs:682-695 | with unique labels, a stage's label resolves to it if and only if the text is no other stage's id and, unless it is the stage's own id, no other stage's name |
| `StageTheorems.LabelsStayPut` | crates/core/src/stage.rs:665-710 | over any later run that keeps the stage, its metadata stays and its label keeps resolving to it under exactly that condition |
| `StageTheorems.NameShadowsLabel` | crates/core/src/stage.rs:682-688 | two commits after which a label resolves to the second stage because its generated name is that label |
| `StageStore.StageStore.Commit` | crates/core/src/stage.rs:458-633 | the commit method, step by step, has the result and the new store of the specification function, and keeps the invariants |
| `StageStore.StageStore.Remove` | crates/core/src/stage.rs:712-730 | the same for removal |
| `StageStore.StageStore.CheckBaseChain` | crates/core/src/stage.rs:732-795 | the loop computes the worst verdict, with the handed metadata for the tip and an unverifiable verdict for a missing ancestor; what the verdicts mean is `VerdictOnOne` |
| `StageStore.StageStore.ChainPaths` | crates/core/src/stage.rs:797-828 | succeeds exactly on a well-formed chain whose layers all exist, and then lists them root first |
| `StageStore.StageStore.StoredChainPaths` | crates/core/src/stage.rs:797-828 | it succeeds on every stored stage of a valid store, in root-first order |
| `StageStore.StageStore.UniqueNameFor` | crates/core/src/names.rs:169-181 | the candidate loop |
| `Overlay.ViewIsReplay` | crates/guest-agent/src/overlay.rs:256-296 | component-wise lookup through the lower directories, topmost first, with whiteouts, opaque directories and renamed ones (absolute and relative redirects), sees at every path what replaying the layers' changes over the base, oldest first, leaves |
| `Overlay.LookupAgrees` | crates/guest-agent/src/overlay.rs:228-238 | the directories a lookup merges at any path keep everything the full stack shows below it |
| `Overlay.EntryShows` | crates/guest-agent/src/overlay.rs:256-278 | over any older layers, an entry of the topmost layer decides its path in the merged view and in the replay: a whiteout shows nothing, a file its content, a directory a directory |
| `Overlay.NothingBelowFiles` | crates/guest-agent/src/overlay.rs:256-278 | nothing shows below a whiteout or a file |
| `Overlay.NothingShowsBelow` | crates/guest-agent/src/overlay.rs:256-278 | nor below an opaque directory, but what the topmost layer holds there itself or fetches by an absolute redirect |
| `Overlay.OlderShows` | crates/guest-agent/src/overlay.rs:256-278 | where the topmost layer has plain directories at most on the way and nothing at the path, the older layers show as they are |
| `Overlay.RenameMoves` | crates/guest-agent/src/overlay.rs:256-278 | a directory renamed in a layer takes everything the layer leaves below it along, and leaves nothing at its old place |
| `Overlay.RenamedBesideShows` | crates/guest-agent/src/overlay.rs:256-278 | a directory renamed beside its old place shows what was below the old name |
| `Overlay.ForkShowsTheRun` | crates/guest-agent/src/overlay.rs:289-296 | the committed upper directory under a fresh empty one shows exactly the view the run ended with |
| `Fork.ForkOfACommitShowsTheRun` | crates/core/src/stage.rs:576-629 | for any reachable store and any commit that adds a stage, forking it shows at every path what the run over its parent ended with, and that is the replay of the chain in commit order |
| `Fork.RecommitShowsTheRunIff` | crates/core/src/stage.rs:482-499 | a re-commit of the same bytes and label returns the old stage; its fork shows the run at a path if and only if the run's upper directory decides it or the two parent chains agree where it looks through |
| `GuestView.BootFork` | crates/core/src/vm/mod.rs:545-590 | from a stored stage to its guest: the chain listed, the drives attached and found again in any /dev order, and lower directories over which any upper directory shows the replay of the chain's changes over the base; the last drive is the scratch that was given |
| `OverlayRoot.Assemble` | crates/guest-agent/src/overlay.rs:166-252 | from any directory order of /dev, in both upper modes, the kernel ends up merging the layers topmost first over the base, and the scratch is the last drive |
| `OverlayRoot.LowerdirReadsBack` | crates/guest-agent/src/overlay.rs:281-296 | splitting the printed lowerdir at colons and looking the mount points up gives back the layers |
| `OverlayRoot.MountLayers` | crates/guest-agent/src/overlay.rs:228-235 | each layer device on its own mount point, in device order |
| `Devices.AttachOrderIsNameOrderIff` | crates/guest-agent/src/overlay.rs:320-332 | the names the kernel gives n extra drives are ascending in attach order if and only if n is at most 25 |
| `Devices.FoundInAttachOrderIff` | crates/guest-agent/src/overlay.rs:322-344 | any ascending listing of the drives is their attach order exactly then |
| `Devices.ListsExactly` | crates/guest-agent/src/overlay.rs:322-344 | a listing holds exactly the attached drives as extras when it holds each of their names and nothing else passes the filter: every name the kernel gives past the root does |
| `Devices.ExtraExactly` | crates/guest-agent/src/overlay.rs:334-344 | the filter accepts exactly the names the kernel gives the drives attached after the root |
| `Devices.EnumerateExtraBlockDevices` | crates/guest-agent/src/overlay.rs:322-344 | the filter and sort yield the ascending list of exactly the extra drives among the entries |
| `Devices.FindDrives` | crates/guest-agent/src/overlay.rs:302-318 | with n layers and a scratch, filter, sort and split yield the n layers bottom to top and the last drive |
| `Devices.SplitsAtTheLast` | crates/guest-agent/src/overlay.rs:302-318 | with any number of drives the last is the scratch and as many as are wanted and there of the others are the layers |
| `ExecStream.HostSeesPrefixes` | crates/guest-agent/src/exec.rs:156-212 | over every interleaving of the pumps, every split into reads and every failure, a frame torn by a failing send among them, the host sees no oversize or undecodable chunk, each sink is fed a prefix of its stream, and success is reported exactly when the terminal frame arrived, last |
| `ExecStream.HostRecoversBothStreams` | crates/guest-agent/src/exec.rs:192-212 | when it arrived and no read failed, both streams are recovered whole and in order |
| `ExecStream.SucceedsExactlyWhenNoSendFails` | crates/guest-agent/src/exec.rs:192-212 | over any schedule, the host reports success exactly when the guest got to the end of the command and no send failed, then with the process's exit, and a torn frame exactly when the first send that failed left a part of one |
| `ExecStream.EveryInterleavingCanCome` | crates/guest-agent/src/exec.rs:156-212 | every interleaving of every division of both outputs into chunks, ended by the exit, is one some schedule sends |
| `ExecStream.StandsAsItStopped` | crates/guest-agent/src/exec.rs:236-257 | how a pump stands after any schedule is how it stopped: at the end of its output, at a failed read or at a failed send |
| `ExecStream.FailuresCanCome` | crates/guest-agent/src/exec.rs:236-257 | any send can fail, leaving a part of the frame or none, and any read can |
| `ExecStream.EveryChunkFits` | crates/proto/src/frame.rs:25-35 | no chunk the guest sends reaches the frame limit, for any request id |
| `ExecStream.FrameLenIs` | crates/proto/src/frame.rs:25-35 | the frame length used is that of the JSON text of the frame, its payload in base64 |
| `ExecStream.GuestInvRun` | crates/guest-agent/src/exec.rs:236-257 | what the wire holds at any point of any schedule: well-formed chunks that are each stream's bytes in order, and at most one terminal frame, at the end |
| `ExecStream.Exec` | crates/core/src/agent.rs:458-519 | the host loop: which outcome, which captures and what is written to which log, for any frame sequence, cut off at a frame boundary or inside a frame |
| `ExecStream.EndsAt` | crates/core/src/agent.rs:458-519 | after any accepted frames the next one ends the reading by what it is: the exit of a terminal frame, the guest's message of an error frame, an undecodable or oversize chunk with its stream, or an unexpected body |
| `ExecStream.EndsAfterAll` | crates/core/src/agent.rs:458-470 | with none left it is incomplete, or torn when the file ends inside a frame |
| `ExecStream.SpawnFailureReported` | crates/guest-agent/src/exec.rs:38-66 | a command that cannot be started ends in exit 127 with its reason, an oversize refusal, or exit 127 and nothing, and which of them follows exactly from the length of the reason |
| `ExecStream.EmptyArgvIsReported` | crates/guest-agent/src/exec.rs:38-47 | an empty argument list ends in the guest's error with its reason |
| `StreamSink.StreamSink.Write` | crates/core/src/agent.rs:1208-1246 | each chunk keeps the incremental state equal to the one-shot definitions of head and log |
| `StreamSink.StreamSink.Finish` | crates/core/src/agent.rs:1255-1261 | the capture equals the one-shot definition on everything fed if and only if that is at most u64::MAX bytes |
| `CopyOut.CopyOut` | crates/core/src/agent.rs:634-741 | for any frames, failures and cancellation points: at every moment a regular or absent destination is in its old state or holds one complete transfer, if and only if the copy is not staged on its own destination with a transfer that is not empty; success delivers the concatenated chunks within the ceiling under a safe mode; other failures leave everything but the staging name as it was; exactly when a staging file survives; how a copy staged on its own destination ends; that a device or FIFO gets the bytes and a link or directory is refused; and, of every failure, which step it was of |
| `CopyOut.StagedCopy` | crates/core/src/agent.rs:1064-1129 | the staged arm: every intermediate state and the final one, staged beside the destination or on it |
| `CopyOut.Commit` | crates/core/src/agent.rs:922-964 | publishing by rename, and the guard's unlink, which may fail, on every other path |
| `CopyOut.PumpFrames` | crates/core/src/agent.rs:655-741 | the stream loop ends well exactly on a complete transfer and then the target holds its bytes; otherwise with the error of the first frame, write or flush that is at fault |
| `CopyOut.HostModeIsSafe` | crates/core/src/agent.rs:1132-1146 | the published mode has no special, group-write or other-write bit, and keeps the executable and read bits |
| `GuestFile.SendFile` | crates/guest-agent/src/server.rs:174-238 | the guest sends one refusal, or in chunks exactly the bytes its first reads returned and then, by how it ended, the error of the read that failed, one terminal frame, or nothing more over a dead connection |
| `GuestFile.CompleteIffLengthKept` | crates/guest-agent/src/server.rs:174-212 | what a healthy guest sends is a complete transfer if and only if the file still had the length it was gated on |
| `GuestFile.Transfer` | crates/guest-agent/src/server.rs:169-212 | both ends together: an unchanged file within the limit, without failure, is copied identically under the masked mode, whatever the destination's name |
| `StagingName.ClampStageBase` | crates/core/src/agent.rs:1052-1062 | the longest prefix that ends on a character boundary and leaves room for dot and suffix within 255 bytes |
| `StagingName.BoundariesEndCharacters` | crates/core/src/agent.rs:1052-1062 | in a UTF-8 name the boundaries are exactly where some number of its characters end |
| `StagingName.StagedOnItself` | crates/core/src/agent.rs:1064-1080 | the staging name is the destination itself if and only if that is 255 bytes of dots and the copy's own suffix |
| `StagingName.StagingNamesDiffer` | crates/core/src/agent.rs:1064-1080 | copies of different processes or different counts never pick one staging name, whatever their destinations |
| `Reaper.LateRegisterIsServed` | crates/guest-agent/src/reaper.rs:69-79 | a status reaped before its register is delivered to it as long as fewer than 512 later statuses were stashed in between, for any mix of other registers |
| `Reaper.LateRegisterBoundIsTight` | crates/guest-agent/src/reaper.rs:104-118 | with 512 it is lost |
| `Reaper.EarlyRegisterIsServed` | crates/guest-agent/src/reaper.rs:104-109 | a register before the reap is served by it, whatever comes between |
| `Reaper.EachReceiverGetsItsOwnStatusAtMostOnce` | crates/guest-agent/src/reaper.rs:67-79 | in every run a receiver is sent at most one status, of the pid it asked for |
| `Reaper.EveryStatusIsInOnePlace` | crates/guest-agent/src/reaper.rs:104-118 | conservation: every reaped status is in exactly one of delivered, stashed and evicted |
| `Reaper.StashStaysBounded` | crates/guest-agent/src/reaper.rs:104-118 | stash size is at most the length of `order`, which is at most 512 plus the registers served from the stash |
| `Reaper.StashWithinCapWhenNothingServed` | crates/guest-agent/src/reaper.rs:159-173 | the bound the unit test states, when no register was served from the stash |
| `Reaper.StashOverflowsExactlyWhen` | crates/guest-agent/src/reaper.rs:110-117 | one status takes the stash over its cap if and only if it is full and the front of `order` is stale |
| `Reaper.StashCanExceedCap` | crates/guest-agent/src/reaper.rs:104-118 | a run that does |
| `Reaper.Reaper.Register` | crates/guest-agent/src/reaper.rs:69-79 | the method has the new state of the specification function |
| `Reaper.Reaper.Route` | crates/guest-agent/src/reaper.rs:104-118 | the same for a reaped status |
| `Slots.OneHolderPerSlot` | crates/core/src/net.rs:723-793 | over any run of concurrent claims, releases and crashes two holders have different slots, tap names, MACs and disjoint blocks, each in its own pool |
| `Slots.LowestFreeSlot` | crates/core/src/net.rs:723-750 | a success means every lower slot of the pool was held by another claim or unusable when it was tried; a failure, that every slot was |
| `Slots.GetsTheLowestFree` | crates/core/src/net.rs:723-750 | a claim that begins while a slot of its pool is free and every lower one is held gets it, and touches no other claim |
| `Slots.FailsWhenAllAreHeld` | crates/core/src/net.rs:723-781 | one that begins while every slot of its pool is held fails, and takes none |
| `Slots.EndFreesTheSlot` | crates/core/src/net.rs:785-793 | a release, or the death of the process, frees that slot and no other |
| `Slots.StepKeepsInv` | crates/core/src/net.rs:785-793 | the lock table and the claims agree after every event |
| `Slots.PoolsPartition` | crates/core/src/net.rs:346-363 | the two pools are disjoint and together cover the provisioned slots, and a slot is filtered exactly from the manifest's field on, if it has one |
| `Slots.ClaimRangeIn` | crates/core/src/net.rs:723-781 | the scan: which slot, and which of its errors, exactly when |
| `Slots.Claim` | crates/core/src/net.rs:497-522 | the two entry points, their pools and their errors |
| `Slots.BlocksAreDisjoint` | crates/core/src/net.rs:168-205 | both ends of a slot's link are the first two addresses of its /30 in 10.107.0.0, and no address is in two slots' blocks |
| `Slots.MacsDiffer` | crates/core/src/net.rs:207-213 | slots with one MAC are one slot |
| `Slots.MacNamesTheSlot` | crates/core/src/net.rs:207-213 | a MAC is 06:00:0a:6b, the slot as two hexadecimal digits, and 02 |
| `Slots.TapNamesDiffer` | crates/core/src/net.rs:147-157 | tap names of different slots differ |
| `JailCli.Launch` | crates/jail/src/main.rs:62-132 | printing with `setup` and `build_argv` and parsing with `Args::parse` gives back every value, each bind's mode and order, and the unjailed argv as the program |
| `JailCli.AcceptedExactlyWhen` | crates/jail/src/main.rs:62-132 | a command line parses to given arguments if and only if it is flag-value pairs, `--` and a program, and the pairs taken in order give those values |
| `JailCli.TakeFailsFor` | crates/jail/src/main.rs:80-97 | an option's value is refused only for a uid or gid that is not a number of 32 bits, and with that error |
| `JailCli.CompleteFailsFor` | crates/jail/src/main.rs:117-122 | which of root, uid, gid and program is reported missing |
| `JailCli.Parse` | crates/jail/src/main.rs:62-132 | the index loop computes the recursive definition, errors included |
| `JailCli.BindRoundTrip` | crates/core/src/jail.rs:88-94 | a bind's path and mode come back whatever colons the path holds |
| `JailCli.BindSpecMeans` | crates/jail/src/main.rs:134-147 | any bind text: a last `:ro` or `:rw` is its mode, and without one it is a writable path as it stands |
| `JailCli.SetupPrefix` | crates/core/src/jail.rs:237-262 | the prefix `setup` pushes together |
| `JailCli.BuildArgv` | crates/fc-client/src/process.rs:171-190 | the argv `build_argv` pushes together is the prefix and the unjailed argv |
| `AuthChallenge.ReadsBackExactlyWhenClean` | crates/oci-registry/src/auth.rs:167-214 | scanning a rendered list gives the list back if and only if every key is non-empty, lower-case and free of `=`, comma and white space, and no value holds a double quote |
| `AuthChallenge.Params` | crates/oci-registry/src/auth.rs:167-214 | the nested loops end on every input and compute the recursive definition |
| `AuthChallenge.KeysReadAreClean` | crates/oci-registry/src/auth.rs:170-206 | every key read from any text is clean |
| `AuthChallenge.ParseChallenge` | crates/oci-registry/src/auth.rs:92-142 | the scheme in its two spellings, and then the value given last of each of realm, service and scope, or which of the errors about the realm |
| `AuthChallenge.ParseRendered` | crates/oci-registry/src/auth.rs:92-142 | a challenge rendered from clean parameters yields its realm, service and scope verbatim |
| `NetConfig.BootArgsRoundTrip` | crates/core/src/snapshot.rs:838-844 | the guest's parse of the host's boot arguments recovers address, prefix 30, gateway and resolvers, for every slot index that fits an octet and any surrounding tokens that do not use the keys first |
| `NetConfig.BuildsExactly` | crates/guest-agent/src/net.rs:459-494 | which configuration an address with a prefix, a gateway that may be absent and resolver entries give, and which error otherwise |
| `NetConfig.KeepsAddresses` | crates/guest-agent/src/net.rs:480-486 | a resolver entry is kept exactly when it is an address |
| `NetConfig.KeepsInOrder` | crates/guest-agent/src/net.rs:480-486 | the entries kept of two lists are those of the one, then those of the other, in order |
| `NetConfig.ValueIsTheFirst` | crates/guest-agent/src/cmdline.rs:24-29 | a key's value is what follows the equals sign in the first token that starts with the key and one |
| `NetConfig.DefaultResolvers` | crates/core/src/net.rs:129 | with the default resolver text the guest ends up with 1.1.1.1 and 8.8.8.8 |
| `NetConfig.Ipv4RoundTrip` | crates/guest-agent/src/net.rs:497-512 | parsing a printed address gives it back exactly when its parts are octets |
| `NetConfig.AddressExactly` | crates/guest-agent/src/net.rs:497-512 | a text is read as an address exactly when it is four pieces between dots, each an octet printed after any zeros and one plus sign at most |
| `NetConfig.ParseIpv4` | crates/guest-agent/src/net.rs:497-512 | the loop that fills the four octets |
| `NetConfig.BootArgsWords` | crates/guest-agent/src/cmdline.rs:24-29 | the tokens the guest sees in the line |
| `Netmask.NetmaskIsLeadingOnes` | crates/guest-agent/src/net.rs:515-523 | for every prefix length the mask's octets are that many leading ones |
| `Netmask.OneNetworkPerSlot` | crates/guest-agent/src/net.rs:515-523 | that mask puts a slot's host and guest addresses in one network and two slots' in different ones |
| `ResolvConf.MatchesExactlyWhenFaithful` | crates/guest-agent/src/net.rs:80-90 | the file written for a list reads back as the list if and only if every entry is trimmed and holds no newline |
| `ResolvConf.ParsedListMatches` | crates/guest-agent/src/net.rs:426-438 | it does for the resolvers of any configuration the guest accepts |
| `ResolvConf.NamedByOne` | crates/guest-agent/src/net.rs:80-90 | a line names the rest of it, trimmed, when it starts with `nameserver` and a blank, and nothing otherwise |
| `ResolvConf.WriteBody` | crates/guest-agent/src/net.rs:426-438 | the text the writer pushes together |

## Left out

- SnapshotSafety.FullMeansOneBuild: digests are taken as injective, and nobody outside the protocol removes or writes files; `warmpool rm` during a build can take the lock file away, and what then happens is not modelled.
- SnapshotOnce.AtMostOneBuild: a process id is not reused while a VMM of its dead owner still writes, and a directory starts without leftover staging files, which no call ever reads.
- Snapshot build: booting the builder VM, its network slot, its jail and the snapshot key are one step that may fail; the presence check of the three files is one step, as names never vanish in these runs.
- BuildLock.AcquireBuildLock: the clock is a function with at least 200 ms between polls.
- Stage store: callers running at once, unreadable or hand-edited metadata, ids spelled as paths, a removal that stops half-way, and the order of `list` beyond what a reference needs.
- StageTheorems.ReachableStoresAreForests: file sizes and creation times are not part of the metadata modelled.
- Base-check messages: the stage a verdict names stands for the text.
- Overlay.ViewIsReplay: hard links, permissions and extended attributes other than opacity and redirects are not modelled, nor is a kernel that refuses `redirect_dir=on`, where the mount is made without following redirects.
- OverlayRoot.Assemble: mount failures and a drive count that does not match the command line; `pivot_root` and the pseudo file systems.
- ExecStream.Exec: the logs stated are what was written to them; on a bad or oversize chunk, an unexpected body or a frame error the source does not flush them, and the last write may still be under way when the call returns. Request encoding, log write errors and `duration_ms` are not modelled; frames are whole values and at most the last one is torn, so the frame codec, base64 and JSON are not part of this model beyond the encoded length of a frame.
- CopyOut.CopyOut: a write is all or nothing, paths are names in one directory, and a SIGKILL of the host process (which leaves a staging file) is not an event; each step's error text is left out.
- GuestFile.Transfer: assumes that neither side fails; the failing cases are `GuestFile.SendFile` and `CopyOut.CopyOut`.
- Reaper.EveryStatusIsInOnePlace: assumes that no pid is reaped twice in a run, as `LateRegisterIsServed` and the bounds do.
- Slots.OneHolderPerSlot: every claim locks the same lockfile inode; the source never unlinks one.
- JailCli.Launch: paths are text, so the lossy conversion of other paths is not modelled; creating the cgroup and the chroot is left out.
- AuthChallenge.ParseChallenge: URL parsing and the destination check are parameters; backslash escapes (RFC 9110 section 5.6.4) are not implemented by the source either.
- NetConfig.BootArgsRoundTrip: the guest's proxy variables and the ioctls that apply the address are left out.
- The Firecracker client, DNS, HTTP redirects, the image pipeline and unpacking, the egress broker, host setup and the CLI.
