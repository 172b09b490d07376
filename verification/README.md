# Verified model of rustic-os: the v7 volume and its harness

This project models, in Dafny 4.11, the hard core of rustic-os and proves what it promises.

* **The v7 volume.** Two generations of metadata, a payload region, retained operation records with retry keys.
  The owner's steps (direct commit, admission, execution, cancellation, maintenance, create, remove), its planner,
  its validation and its mount come from `crates/fs/src`; what counts as an acceptable image comes from the
  independent reader `tools/terminal_support/oracle7.py`, modelled check by check and loop by loop.
* **Losing power.** A device holds a durable image and the writes since its last flush. When it stops, any sector
  written since then may hold anything; a header copy is old, new or undecodable. Runs mix completed, abandoned and
  interrupted requests, idle stops and restarts, in any number and order. A restart assumes nothing about an image
  the reader refuses; that it never meets one is a conclusion.
* **The fault harness.** Event lists, cut tables, the payload planner, the classifiers and the blkdebug rule chain.
* **Independent pieces.** The idempotent host service, schema expansion, the application manifest with its printer
  and both of its readers, the page counts read from an ELF image, and the kernel's panic buffer.

The main results, from the bottom up:

1. Every decoder accepts exactly the encodings of the values it returns, so an accepted image is canonical
   (`HeaderCanonical`, `NodeCanonical`, `RecordCanonical`, `MapCanonical`, `ReadsHolds`).
2. Each step takes an accepted generation to an accepted generation (`CommitKeeps` to `RemoveKeeps`, `AfterKeeps`).
   Which request is refused with which error, answered from a record or published is a table of conditions on the
   volume alone, tried in order (`AnsweredByTable`); a published request changes what its kind names, byte for byte,
   and nothing else (`PublishedEffect`).
3. A stop at any device event of a publication leaves the old or the new volume, never a mixture (`CrashAtomic`).
   So wherever a run has got to, and wherever in a publication or between two the power then goes, the reader accepts
   whatever the medium holds, torn sectors included, and shows the old volume or the proposed one (`RunSafe`,
   `EveryCutAccepted`, `EveryStopRecovers`, `ProvisionedForEver`). From its blanking flush on, a stop inside a
   provisioning leaves nothing to mount or the finished volume (`ProvisionStopped`). A mount reports an ignored header
   copy exactly when one is unreadable that should not be (`RecoveredExactly`): never after a completed publication,
   always after a torn one on a used volume (`CompletedNotRecovered`, `TornRecovered`).
4. A retry identity is used once and resolved once in a whole run: stops, restarts and maintenance included
   (`OpenedOnce`, `ResolvedOnce`, `OneEffect`); within its epoch a repeated commit gets its original record back
   (`CommittedOnce`). An unresolved admission and its bytes survive any run until a turn settles them
   (`AdmissionStays`); a cancelled one is answered the same, cause included, for the rest of its epoch
   (`CancelledOnce`); no run ever adds, moves or removes a node of the
   system space (`SystemFixed`).
5. The reader's loops accept an image exactly when the acceptance predicate holds of it (`Snapshot`), and the owner's
   own mount, with its different walks, marks and single-structure checks, accepts exactly the same images
   (`MountImage`).
6. The owner as an object, over a device whose failing request may or may not reach the medium, carries out one turn
   of that protocol per request, never finds its own candidate corrupt, and can always be mounted again
   (`Serve`, `NeverCorrupt`, `FenceRecovers`).
7. The harness's verdict on a cut never fails and equals what the cut index predicts (`WriteVerdict`,
   `MaintenanceVerdict`); on any two accepted volumes it says `new` or `old` exactly when the second is that step, or
   nothing, after the first (`WriteVerdictMeans`, `MaintenanceVerdictMeans`).
8. The greedy planner refuses only when no plan exists at all (`PlanPayload`).
9. A host service's success is about its own bytes: a replace stores them, its result describes them, and wherever a
   run still has that version it has those bytes (`ReplaceStores`, `SuccessIsOurs`, `VersionMeansBytes`).
10. The guest's manifest parser accepts exactly what the packaging tool can print (`PrintedParses`, `ParsedIsPrinted`),
    and the two page counts are about the headers an ELF image was laid out from (`PrintedLoad`, `PrintedStatic`).

CRC-32 and SHA-256 are parameters. Of CRC-32 only its value on no bytes, zero, is used; of SHA-256 nothing.

## Layout

| files | content |
|---|---|
| `Bytes`, `Format7`, `Codec7`, `BitMap` | byte strings, constants and slot codecs, the allocation map and its two decoders |
| `Generation7`, `Steps7`, `Ownership7`, `Preservation7` | acceptance of a generation, the owner's steps, and why each keeps acceptance |
| `Answers7`, `Effects7`, `Settlement7` | when each request is refused, answered or published, what it then changes, and what follows over runs |
| `Payload7`, `Volume7`, `Image7`, `Canonical7` | payload bytes, whole volumes, images, and the one encoding of each |
| `Device`, `Publication7`, `Staging7`, `History7`, `Outcomes7`, `Provision7`, `Recovery7` | the device, the events of a publication and their payload, whole runs, what they do once, how they start, and when a mount reports an ignored copy |
| `Structures7`, `Validator7`, `Mount7`, `Writer7`, `Owner7` | the owner's validation and mount, its writes to the device, and the owner as an object |
| `Namespace7`, `Accounting7` | paths, linear history, conservation of space |
| `Reader7`, `Snapshot7` | the independent reader's loops |
| `Planner7`, `Faults7`, `Arrival7`, `Classify7`, `Verdicts7`, `FaultRules` | planning, cuts, the payload check and where it is wrong, verdicts and what they mean, the rule chain |
| `HostOperations`, `HostLaws`, `SchemaExpansion`, `Manifest`, `Application`, `PageUnion`, `ElfImage`, `PanicText` | the independent pieces |

## Where the code does less than it seems to promise

* `payload_reached` is meant to tell from an image whether the write at the cut failed. It is wrong exactly when the
  sector already held that part of the content before the write: `PayloadVerdict` gives the condition both ways and
  `ArrivedUnwritten` an instance, from provisioning a zero medium to the refused check.
* `Catalog.expanded` is meant to refuse recursive schemas. It also refuses a schema that uses one relative reference
  in two documents along one chain: `RelativeReferenceRefused` is an instance; `RefusedIffRepeats` shows that, for
  every registry, an expansion exists exactly when a finite inlining does and no chain of references names one
  twice; and `ExpandsIffFinite` shows that registries whose references do not depend on the
  document are expanded exactly when a finite inlining exists.
* The owner refuses an empty file with a nonzero payload checksum already when it validates metadata; among the
  reader's rules that file passes and only its payload check refuses it (`EmptyFileRuleExtra`). On whole images the
  two agree all the same (`MountImage`).
* The reader's test for a second record aliasing one live file can never fail (`TwoAliases`, `CheckOwnership`).

## Model

| member | source | states |
|---|---|---|
| `Codec7.HeaderRoundTrip` | crates/fs/src/format7/header.rs:86-156 | decoding an encoded valid header in its own slot returns it |
| `Codec7.HeaderCanonical` | tools/terminal_support/oracle7.py:88-126 | every accepted header sector is the encoding of the valid header it decodes to, reserved bytes included |
| `Codec7.ZeroHeaderRefused` | tools/terminal_support/oracle7.py:88-92 | a sector that was never written is refused |
| `Codec7.DecodeRunsCanonical` | tools/terminal_support/oracle7.py:164-179 | accepted run bytes are the encoding of the declared runs, undeclared pairs included |
| `Codec7.NodeRoundTrip` | crates/fs/src/format7/node.rs:82-149 | decoding an encoded node slot, empty or valid, returns it |
| `Codec7.NodeCanonical` | tools/terminal_support/oracle7.py:187-212 | every accepted node slot is valid and is the encoding of what it decodes to |
| `Codec7.RecordRoundTrip` | crates/fs/src/format7/record.rs:89-191 | decoding an encoded record slot, empty or valid, returns it |
| `Codec7.RecordCanonical` | tools/terminal_support/oracle7.py:215-264 | every accepted record slot is valid and is the encoding of what it decodes to |
| `BitMap.PeelBits` | tools/terminal_support/oracle7.py:278-282 | clearing the lowest set bit until none is left marks exactly the set positions of one word |
| `BitMap.DecodeByLowestBit` | tools/terminal_support/oracle7.py:276-282 | terminates and yields exactly the marked sectors, all below 64 times the word count |
| `BitMap.DecodeByScan` | tools/terminal_support/oracle6.py:116-120 | the plain 64-position scan yields the same set |
| `BitMap.AndNegateIsLowest` | tools/terminal_support/oracle7.py:280-280 | `word & -word` in two's complement of any width is the lowest set bit |
| `BitMap.MapRoundTrip` | tools/terminal_support/oracle7.py:273-282 | decoding the encoded map returns the set of sectors |
| `BitMap.MapCanonical` | tools/terminal_support/oracle7.py:273-282 | encoding the decoded map returns the same bytes |
| `Generation7.PairSymmetric` | tools/terminal_support/oracle7.py:339-393 | the pairwise record rules do not depend on which record comes first |
| `Ownership7.RetainedRunIffAliased` | crates/fs/src/volume7/replacement.rs:265-272 | a run of a live file overlaps a retained snapshot exactly when a record is that file's current version |
| `Ownership7.ReleasedExactly` | crates/fs/src/volume7/replacement.rs:200-205 | a superseded file releases all of its sectors, or none when a record retains that version |
| `Preservation7.CommitKeeps` | crates/fs/src/volume7/replacement.rs:120-232 | a direct commit takes an accepted generation to an accepted one |
| `Preservation7.AdmitKeeps` | crates/fs/src/volume7/admission.rs:130-198 | so does an admission |
| `Preservation7.ExecuteKeeps` | crates/fs/src/volume7/admission.rs:205-265 | so does executing an admission at the version it was admitted for; when it does is `Settlement7.ExecutionAnswers`, what it changes `Effects7.PublishedEffect` |
| `Preservation7.CancelKeeps` | crates/fs/src/volume7/admission.rs:273-312 | so does cancelling an unresolved admission; when it does is `Settlement7.CancellationAnswers`, what it changes `Effects7.PublishedEffect` |
| `Preservation7.MaintainKeeps` | crates/fs/src/volume7/maintenance.rs:20-82 | so does dropping all records and moving to the next epoch; that no unresolved admission is dropped is `Settlement7.AdmissionStays` |
| `Preservation7.CreateKeeps` | crates/fs/src/volume7/namespace.rs:56-116 | so does creating a node under a directory; which node is `Effects7.PublishedEffect` |
| `Preservation7.RemoveKeeps` | crates/fs/src/volume7/namespace.rs:118-152 | so does removing a file or an empty directory; that the system space is spared is `Settlement7.SystemFixed` |
| `Answers7.AnsweredByTable` | crates/fs/src/volume7/replacement.rs:96-161 | for every request on an accepted volume the first applicable condition of a fixed order, the one replacement.rs, admission.rs, maintenance.rs and namespace.rs test in, on the node and record it names and the volume as a whole, decides: refused with that error, answered with the retained record, or published when none applies |
| `Answers7.RetryFound` | crates/fs/src/volume7/replacement.rs:250-257 | the search for a retry identity finds the one record that has it |
| `Effects7.PublishedEffect` | crates/fs/src/volume7/replacement.rs:163-232 | a published request changes exactly one file and record, one record, all records or one node, as its kind says, to the requested bytes, versions, identity, kind, name and cause, and leaves everything else |
| `Settlement7.ExecutionAnswers` | crates/fs/src/volume7/admission.rs:205-265 | executing a recorded operation is answered from the record exactly when it was executed, refused when cancelled, direct, its file gone or at another version, and published otherwise |
| `Settlement7.CancellationAnswers` | crates/fs/src/volume7/admission.rs:273-312 | cancelling ends only an unresolved admission; a committed or equally cancelled one is told, another cause is a conflict |
| `Payload7.SectorListDistinct` | tools/terminal_support/oracle7.py:164-179 | runs that do not overlap name each sector once |
| `Payload7.ContentOfWritten` | crates/fs/src/volume7/payload.rs:88-108 | reading the planned runs after writing a payload returns the payload |
| `Volume7.AttemptKeeps` | crates/fs/src/volume7/publication.rs:16-32 | whatever request is published, the candidate passes validation |
| `Volume7.AttemptAdvances` | crates/fs/src/volume7/publication.rs:17-25 | a published generation is one sequence later, of the same lineage, and rewinds no watermark |
| `Volume7.KnownExtentKept` | crates/fs/src/volume7/payload.rs:30-71 | writing a planned payload leaves the bytes of every file and every retained snapshot unchanged |
| `Volume7.AfterKeeps` | tools/terminal_support/oracle7.py:444-469 | a published request takes a volume whose checks and checksums hold to another such volume |
| `Image7.HoldsReads` | tools/terminal_support/oracle7.py:444-484 | an image holding an accepted volume is accepted and shows exactly that volume |
| `Image7.RecoveredMeans` | tools/terminal_support/oracle7.py:135-161 | a selection is reported as recovered exactly when a copy is unreadable and the volume is not a first generation beside a zero sector |
| `Canonical7.ReadsHolds` | tools/terminal_support/oracle7.py:135-161 | conversely every accepted image holds, byte for byte, the encoding of what it shows, and its other header copy is refused or just older |
| `Canonical7.OneEncoding` | tools/terminal_support/oracle7.py:267-289 | two accepted images showing one generation in one slot agree on every byte of its metadata |
| `Device.CachedAfter` | tools/terminal_support/recovery_faults.py:4-10 | what is read back is every completed write, flushed or not |
| `Device.FailStopPossible` | tools/terminal_support/recovery_faults.py:4-10 | a fail-stop that keeps every completed write is one of the ways the device may stop |
| `Device.LossPossible` | tools/terminal_support/v7_faults.py:1-20 | losing everything since the last flush is another |
| `Device.TearPossible` | tools/terminal_support/v7_faults.py:1-20 | so is any content of a sector in flight, undecodable for a header copy |
| `Publication7.PrepareDurable` | crates/fs/src/volume7/publication.rs:34-46 | after the metadata flush everything the new header will name is durable and the old head still stands |
| `Publication7.CrashAtomic` | tools/terminal_support/v7_faults.py:85-126 | whatever the medium holds after a stop at any event, it holds the old volume before the header event, the old or the new one during the header flush, the new one after it |
| `Publication7.PublishCompletes` | crates/fs/src/volume7/publication.rs:16-51 | once every event completed the device durably holds the new volume |
| `Publication7.PublishAbandoned` | crates/fs/src/volume7/poll.rs:246-267 | giving up before the header keeps the old volume, whatever was already written |
| `History7.MountHolds` | crates/fs/src/volume7/mount.rs:18-54 | a restart on an image that holds a volume is accepted and continues from that volume |
| `History7.MountOk` | crates/fs/src/volume7/mount.rs:18-54 | any image the reader accepts is a sound start for an owner; `Mount7.MountImage` shows that the owner accepts the same ones |
| `History7.TurnSafe` | tools/terminal_support/v7_faults.py:1-20 | every kind of exchange keeps the state sound and shows the old or the new volume, as its kind and cut allow; after a stop the reader accepts whatever the medium holds |
| `History7.RunSafe` | tools/terminal_support/v7_faults.py:1-20 | every state of every run is sound |
| `History7.EveryStopAccepted` | tools/terminal_support/oracle7.py:444-484 | wherever a run has got to, every image its idle device may be left with is accepted and shows that state |
| `History7.EveryCutAccepted` | tools/terminal_support/v7_faults.py:96-126 | wherever a run has got to, whatever is then published and at whatever event the device stops, the reader accepts whatever the medium holds and shows the old volume or the proposed one, as the cut allows |
| `History7.EveryStopRecovers` | tools/terminal_support/v7_faults.py:96-126 | so every stop in every run, idle or inside a publication, is survived |
| `Outcomes7.RunCarries` | crates/fs/src/volume7/maintenance.rs:11-19 | through any run of one epoch a retained record stays in its slot and keeps its bytes |
| `Outcomes7.OutcomeReplays` | crates/fs/src/volume7/replacement.rs:96-118 | a request whose outcome is retained is answered from it and publishes nothing |
| `Outcomes7.CommittedOnce` | crates/fs/src/volume7/replacement.rs:72-118 | a direct commit, repeated anywhere later in a run of the same epoch, returns its original record and publishes nothing |
| `Outcomes7.CommitRetained` | crates/fs/src/volume7/replacement.rs:163-232 | the record a commit leaves is its request, its bytes and the live version |
| `Outcomes7.SpentRefuses` | crates/fs/src/volume7/replacement.rs:96-134 | a used retry identity, its record retained or its epoch past, never opens another operation |
| `Outcomes7.SettledRefuses` | crates/fs/src/volume7/admission.rs:205-312 | a resolved operation is never executed or cancelled again |
| `Outcomes7.StaysSpent` | crates/fs/src/volume7/maintenance.rs:14-18 | a used identity stays used and a resolved operation resolved through any run, maintenance included |
| `Outcomes7.OpenedOnce` | crates/fs/src/volume7/maintenance.rs:14-18 | once a commit or admission took effect, completed or adopted after a stop, no later request of any run opens its identity again |
| `Outcomes7.ResolvedOnce` | crates/fs/src/volume7/admission.rs:205-312 | once an execution, cancellation or commit took effect, no later request of any run resolves its identity again |
| `Outcomes7.OneEffect` | crates/fs/src/volume7/maintenance.rs:14-18 | in one run at most one turn opens an identity and at most one resolves it |
| `Settlement7.CancelledOnce` | crates/fs/src/volume7/admission.rs:286-297 | through any run of its epoch a cancelled operation answers the same cancellation with its record, another cause with a conflict, and an execution with its end |
| `Settlement7.ExecutedOnce` | crates/fs/src/volume7/admission.rs:217-224 | through any run of its epoch an executed operation answers execution and cancellation with its record |
| `Settlement7.AdmissionStays` | crates/fs/src/volume7/maintenance.rs:31-38 | through any run an unresolved admission keeps slot, record and bytes until a turn executes or cancels it, and maintenance is refused as busy |
| `Settlement7.SystemFixed` | crates/fs/src/volume7/namespace.rs:126-128 | through any run the nodes of the system space keep their slots, identities, kinds and places, and none is added |
| `Provision7.ProvisionStarts` | crates/fs/src/volume7/provision.rs:24-124 | provisioning over any medium leaves a sound volume |
| `Provision7.ProvisionStopped` | crates/fs/src/volume7/provision.rs:65-85 | from the blanking flush on, a stop at any event, whatever it tears, leaves nothing to mount before the header write, nothing or the finished volume until its flush, and that volume after it |
| `Provision7.ProvisionedForEver` | crates/fs/src/volume7/provision.rs:24-44 | from there on every stop in every run, idle or inside a publication, leaves an image that is accepted and shows the volume reached or the one proposed |
| `Recovery7.RecoveredExactly` | tools/terminal_support/oracle7.py:135-161 | on every accepted image the report of an ignored copy is exactly: the other copy does not decode, and it is not the zero sector beside a first generation |
| `Recovery7.CompletedNotRecovered` | crates/fs/src/volume7/mount.rs:114-132 | after a completed publication both copies are valid and nothing is reported |
| `Recovery7.TornRecovered` | crates/fs/src/volume7/mount.rs:112-113 | a torn header write shows the old volume and is reported, except beside a first generation when the torn copy is still zero |
| `Recovery7.ProvisionedNotRecovered` | crates/fs/src/volume7/mount.rs:141-147 | a freshly provisioned volume is not reported |
| `Namespace7.ChainUnique` | tools/terminal_support/oracle7.py:313-324 | the ancestry walk from a node is deterministic |
| `Namespace7.ChainAcyclic` | tools/terminal_support/oracle7.py:315-318 | a walk that reaches a root visits no slot twice |
| `Namespace7.ReachesRoot` | tools/terminal_support/oracle7.py:306-324 | every accepted node reaches one of the four roots, that of its own space |
| `Namespace7.PathStep` | tools/terminal_support/oracle7.py:323-325 | the path of a node is its parent's, a slash and its name; that of a root a slash and its name |
| `Namespace7.PathsDistinct` | tools/terminal_support/oracle7.py:325-326 | distinct nodes have distinct path strings |
| `Accounting7.LinearHistory` | tools/terminal_support/oracle7.py:339-357 | the commits on one object are totally ordered, their version intervals disjoint, none later than the live version, and no retained record observed a version inside one |
| `Accounting7.ObservedOutside` | tools/terminal_support/oracle7.py:344-357 | no record on an object observed it inside the interval of a commit on it |
| `Accounting7.SlotOrderIrrelevant` | tools/terminal_support/oracle7.py:360-398 | acceptance does not depend on which slots the records occupy |
| `Accounting7.SpaceConserved` | tools/terminal_support/oracle7.py:401-428 | used sectors are exactly the counted sectors of live files plus those of non-aliasing snapshots |
| `Accounting7.MaintenanceFrees` | tools/terminal_support/v7_retention.py:92-112 | maintenance frees exactly the reclaimable sectors and changes no node |
| `Reader7.SelectCopies` | tools/terminal_support/oracle7.py:135-161 | the selection loop picks the head the rule names, says whether a copy was ignored as `Image7.RecoveredMeans` states it, and reports exactly the refused copies |
| `Reader7.DecodeRegions` | tools/terminal_support/oracle7.py:267-289 | the regions decode exactly when all three aggregates and all slots hold, to that generation |
| `Reader7.Walk` | tools/terminal_support/oracle7.py:313-325 | the walk terminates on every table, succeeds exactly when the node has a chain to a root, and returns that chain's path |
| `Reader7.CheckNamespace` | tools/terminal_support/oracle7.py:292-326 | accepts exactly the tables that satisfy every namespace rule |
| `Reader7.ComparePriors` | tools/terminal_support/oracle7.py:383-393 | compares a record with every earlier one, in order |
| `Reader7.CheckRecords` | tools/terminal_support/oracle7.py:360-398 | accepts exactly the record tables that satisfy every rule, and marks exactly the records that alias a live file |
| `Reader7.Claim` | tools/terminal_support/oracle7.py:404-409 | claims every sector of some runs, refusing exactly when one is already owned |
| `Reader7.TwoAliases` | tools/terminal_support/oracle7.py:418-421 | two records cannot both be the current version of one file |
| `Reader7.CheckOwnership` | tools/terminal_support/oracle7.py:401-428 | accepts exactly when owners are apart, own exactly the allocated sectors, and empty snapshots have a zero checksum |
| `Snapshot7.ReadPayload` | tools/terminal_support/oracle7.py:431-441 | returns the bytes of the runs exactly when their checksum matches; truncation cannot occur |
| `Snapshot7.ReadFiles` | tools/terminal_support/oracle7.py:454-463 | accepts exactly when every file's checksum matches; lists every file once by ascending identity, with path, version, size and digest, and its bytes under its own path |
| `Snapshot7.ReadSnapshots` | tools/terminal_support/oracle7.py:464-468 | accepts exactly when every retained snapshot's checksum matches; reports every record once by slot, with its digest and the path and version of its live target, if any |
| `Snapshot7.Snapshot` | tools/terminal_support/oracle7.py:444-484 | accepts an image exactly when some view of it passes every rule, and reports that view, whether an unreadable copy was ignored, both lists, the refused header copies and the space used and free |
| `Structures7.CheckName` | crates/fs/src/namespace.rs:119-132 | the owner's test of a name accepts exactly the reader's names |
| `Structures7.CheckPayload` | crates/fs/src/format7/mod.rs:143-176 | its test of a run list accepts exactly the runs in bounds, apart, at most eight and exactly long enough |
| `Structures7.CheckNode` | crates/fs/src/format7/node.rs:151-181 | its test of a node accepts exactly the reader's nodes |
| `Structures7.CheckArithmetic` | crates/fs/src/format7/record.rs:210-262 | its test of a record's sequence numbers, state by state, is the reader's |
| `Structures7.CheckRecord` | crates/fs/src/format7/record.rs:193-262 | its test of a record accepts exactly the reader's records |
| `Structures7.CheckBounds` | crates/fs/src/format7/record.rs:275-292 | so does its test of a record against the header |
| `Structures7.CheckTarget` | crates/fs/src/format7/validation.rs:170-196 | so does its test of a record against its live target |
| `Validator7.Climb` | crates/fs/src/format7/validation.rs:114-136 | the bounded walk over identities succeeds only along parent links that end at a parentless node, and fails only when no chain to a root exists |
| `Validator7.ValidateNodes` | crates/fs/src/format7/validation.rs:67-136 | accepts exactly the tables that satisfy the reader's namespace rules and hold no empty file with a wrong checksum |
| `Validator7.CompatibleIsPairOk` | crates/fs/src/format7/validation.rs:198-288 | the owner's rules between two records are the reader's |
| `Validator7.ValidateReceipts` | crates/fs/src/format7/validation.rs:144-196 | accepts exactly the record tables the reader accepts |
| `Validator7.MarkRuns` | crates/fs/src/format7/validation.rs:312-324 | marks the bits of all sectors of some runs, refusing exactly when one is marked already |
| `Validator7.MarkOwners` | crates/fs/src/format7/validation.rs:31-64 | marking files and non-aliasing snapshots in a scratch map and comparing it with the map accepts exactly when the reader's ownership rules hold |
| `Validator7.ValidateGeneration` | crates/fs/src/format7/validation.rs:20-65 | accepts exactly the generations that satisfy the reader's rules and the rule for empty files |
| `Validator7.IntactFilesOk` | crates/fs/src/format7/validation.rs:74-76 | where payload checksums hold, the rule for empty files does too |
| `Validator7.EmptyFileRuleExtra` | crates/fs/src/format7/validation.rs:74-76 | without them it does not follow: any accepted generation with an unrecorded empty file can be given a checksum the reader's rules allow and this one refuses |
| `Mount7.SelectCandidate` | crates/fs/src/volume7/mount.rs:108-147 | the owner's choice between two header copies, and its report of an ignored one, are the reader's |
| `Mount7.ReadGenerationOf` | crates/fs/src/volume7/mount.rs:56-106 | loads a generation sector by sector exactly when the regions decode, and to what they decode to |
| `Mount7.VerifyPayload` | crates/fs/src/volume7/payload.rs:156-180 | the streamed checksum is that of the whole content; the early exit is never taken before the last sector |
| `Mount7.MountImage` | crates/fs/src/volume7/mount.rs:33-54 | the owner mounts an image exactly when the independent reader accepts it, holds what that reader shows, and reports recovery exactly when an unreadable copy was ignored |
| `Planner7.LargestRun` | crates/fs/src/volume7/payload.rs:43-61 | one scan finds the leftmost longest maximal free run not yet chosen, if any |
| `Planner7.GreedyBound` | crates/fs/src/volume7/payload.rs:37-69 | the greedy runs hold as many sectors as any other choice of no more runs |
| `Planner7.PlanPayload` | crates/fs/src/volume7/payload.rs:31-71 | a plan is free, in bounds, disjoint, exactly long enough and of at most eight runs; it is refused exactly when no such plan exists |
| `Planner7.SingleRunPlan` | tools/terminal_support/v7_faults.py:235-241 | when one run can hold the payload, the owner's plan is the beginning of the leftmost longest free run |
| `Planner7.ClaimedSectors` | tools/terminal_support/v7_faults.py:242-250 | the mirror's claimed set is what files and non-aliasing snapshots own |
| `Planner7.PlannedSectors` | tools/terminal_support/v7_faults.py:234-263 | returns the first sectors of the leftmost longest free run, owned by nobody, and refuses exactly when no free run is long enough |
| `Staging7.PayloadAfterCut` | crates/fs/src/volume7/payload.rs:88-108 | after any cut the planned sectors written before it are new and the others are what they were |
| `Staging7.PublishedPayload` | crates/fs/src/volume7/publication.rs:16-51 | after all events the readable payload region is the old one with the staged bytes in the planned runs |
| `Staging7.AdmittedDurable` | crates/fs/src/volume7/stage.rs:286-326 | from an admission's payload flush on, wherever the publication stops and whatever the stop tears, the medium holds exactly the admitted bytes in the planned runs |
| `Writer7.BlockDevice.Issue` | crates/fs/src/volume7/publication.rs:46-49 | a request that succeeds reaches the medium; one that fails may reach it or not |
| `Writer7.WriteRegion` | crates/fs/src/volume7/publication.rs:62-74 | writes consecutive sectors, stopping at the first failure |
| `Writer7.WriteGeneration` | crates/fs/src/volume7/publication.rs:53-115 | issues exactly the hundred metadata writes of a generation, up to the first failure |
| `Writer7.WriteRun` | crates/fs/src/volume7/payload.rs:95-103 | writes one run of a payload, each sector zero padded at the right offset |
| `Writer7.WritePayload` | crates/fs/src/volume7/payload.rs:88-108 | issues exactly the planned payload writes; no byte is left over |
| `Owner7.Owner.constructor` | crates/fs/src/volume7.rs:94-102 | a new owner is cleared and fenced |
| `Owner7.Owner.Mount` | crates/fs/src/volume7/mount.rs:18-54 | succeeds exactly when the flush succeeds and the independent reader accepts the image, continuing soundly from what that reader shows and reporting recovery exactly when an unreadable copy was ignored; otherwise the owner is cleared and fenced |
| `Owner7.Owner.Stage` | crates/fs/src/volume7/stage.rs:286-326 | writes the planned payload, and flushes it for an admission, stopping at the first failure |
| `Owner7.Owner.PublishCandidate` | crates/fs/src/volume7/publication.rs:16-51 | issues metadata, flush, header, flush, in that order, stopping at the first failure |
| `Owner7.Owner.Adopt` | crates/fs/src/volume7/replacement.rs:210-231 | adopts the candidate over the device's own payload exactly when every request succeeded; otherwise it is fenced, and cleared if the request had changed memory |
| `Owner7.Plan` | crates/fs/src/volume7/replacement.rs:114-118 | a request's payload gets a plan, or none when no plan exists |
| `Owner7.Owner.Serve` | crates/fs/src/volume7/replacement.rs:33-92 | a request, planned by the owner, is one turn of the protocol: it is answered by the decision table and changes nothing, or completes with exactly the effect of its kind and is sound again, or fences the owner over the first events of its publication, the failing one possibly included; a fenced owner refuses everything |
| `Owner7.AnswerJustified` | crates/fs/src/volume7/replacement.rs:33-92 | whatever a sound owner answers, the decision table asks for, and what it then holds is what it held or has exactly the published effect |
| `Owner7.NeverCorrupt` | crates/fs/src/volume7/publication.rs:26-32 | from a sound state the owner's validation of a candidate never fails |
| `Owner7.ServedKeeps` | crates/fs/src/volume7/replacement.rs:210-231 | what the object did is one turn of the protocol, and an owner that is not fenced is sound |
| `Owner7.FenceRecovers` | crates/fs/src/volume7/mount.rs:14-31 | after a request that fenced the owner, whatever the device is left with or still returns mounts, and shows the old volume or the proposed one as the events that got through decide |
| `Faults7.KindsAgree` | tools/terminal_support/v7_faults.py:85-93 | the harness's event lists are the kinds of the events the owner issues |
| `Faults7.CutsNameEvents` | tools/terminal_support/v7_faults.py:96-105 | each named cut of a publication is the first or last sector of its region, a flush, or the header |
| `Faults7.WriteCutsName` | tools/terminal_support/v7_faults.py:108-113 | the cut table of a write exists exactly when the payload exceeds two sectors, and adds its first, second and last payload write before the publication's cuts |
| `Faults7.FaultImageHolds` | tools/terminal_support/v7_faults.py:121-126 | the image of a fail-stop holds the old volume up to the header event and the new one after it |
| `Faults7.FaultImageReads` | tools/terminal_support/v7_faults.py:121-126 | the reader accepts every such image, and the cut alone decides what it shows |
| `Faults7.PayloadReached` | tools/terminal_support/v7_faults.py:266-281 | counts the payload sectors exactly when all before the cut are present and the one at the cut is not |
| `Faults7.PayloadVerdict` | tools/terminal_support/v7_faults.py:266-281 | on a cut image the earlier sectors are present, and the one at the cut exactly when it already was before |
| `Arrival7.ArrivedUnwritten` | tools/terminal_support/v7_faults.py:266-281 | a provisioned zero medium, one file created, 512 zero bytes written to it with the first request failing: the image is accepted, the write publishes, nothing was written, and the sector whose write failed is present, so the check refuses |
| `Classify7.ReportShowsFacts` | tools/terminal_support/oracle7.py:455-464 | the compared facts are made of the paths and bytes the report lists |
| `Classify7.NewWriteClassified` | tools/terminal_support/v7_faults.py:303-315 | a published write with a fresh key is told as the new generation; what that verdict means is `Verdicts7.WriteVerdictMeans` |
| `Classify7.WriteVerdict` | tools/terminal_support/v7_faults.py:293-321 | for every cut of a write with a fresh key the verdict does not fail and equals the prediction from the cut index; what a verdict means is `Verdicts7.WriteVerdictMeans` |
| `Classify7.MaintenanceClassified` | tools/terminal_support/v7_retention.py:98-112 | a published maintenance passes every check of its before and after views; what passing means is `Verdicts7.MaintenanceVerdictMeans` |
| `Classify7.MaintenanceVerdict` | tools/terminal_support/v7_faults.py:324-335 | for every cut of a maintenance the verdict does not fail and equals the prediction; what a verdict means is `Verdicts7.MaintenanceVerdictMeans` |
| `Verdicts7.WriteVerdictMeans` | tools/terminal_support/v7_faults.py:293-321 | for any two accepted volumes: `new` exactly when the second has one more record, the only one with the subject and key, a direct commit over the first's live version, and the live file is that commit with the content's size and digest, one sequence later; `old` exactly when files, records, sequence and free space are the same and no record has the key; else a failure |
| `Verdicts7.MaintenanceVerdictMeans` | tools/terminal_support/v7_faults.py:324-335 | for any two accepted volumes: `new` exactly when the second has no record, the same files, one epoch and sequence more and exactly the reclaimable sectors freed; `old` exactly when nothing happened; else a failure |
| `FaultRules.Rules` | tools/terminal_support/recovery_faults.py:17-28 | builds the state chain, refusing exactly an empty list, an unknown kind or a cut out of range |
| `FaultRules.ChainMatches` | tools/terminal_support/recovery_faults.py:4-10 | run over any trace, the chain's state counts the matched events and it has fired once all matched |
| `FaultRules.FailsOnce` | tools/terminal_support/recovery_faults.py:24-27 | at most one event of any trace fails |
| `FaultRules.FailsAtEarliest` | tools/terminal_support/recovery_faults.py:4-10 | an event fails exactly when it completes the earliest subsequence match of the list up to the cut |
| `FaultRules.FailsAtCut` | tools/terminal_support/recovery_faults.py:4-10 | on the expected events, with anything irrelevant in between, exactly the first `cut` succeed before the error |
| `HostOperations.NamedDistinct` | tools/contracts/operation_fixture.py:17-22 | two numbers never share a version, operation or epoch name |
| `HostOperations.StepOk` | tools/contracts/operation_fixture.py:17-53 | every step keeps records of the current epoch, at most two, with distinct operations |
| `HostOperations.LookupUnique` | tools/contracts/operation_fixture.py:33-36 | a lookup matches at most one record |
| `HostOperations.RunOk` | tools/contracts/operation_fixture.py:6-53 | every state of every run satisfies that invariant |
| `HostOperations.NoReturn` | tools/contracts/operation_fixture.py:20-22 | a file seen twice at one version was not touched in between |
| `HostOperations.AtMostOnce` | tools/contracts/operation_fixture.py:39-53 | a request is carried out at most once in any run, whoever repeats it and however often the epoch rotates |
| `HostOperations.ExactlyOnce` | tools/contracts/operation_fixture.py:39-44 | until the epoch rotates, repeating a successful request returns its original result and changes nothing |
| `HostOperations.LookupFinds` | tools/contracts/operation_fixture.py:32-37 | until then a lookup by identity or by retry returns that same result |
| `HostOperations.OperationsFresh` | tools/contracts/operation_fixture.py:49-51 | no two requests carried out share an operation or version name, rotations included |
| `HostOperations.VersionsFresh` | tools/contracts/operation_fixture.py:20-22 | a version made by a request or an edit was never any file's version before |
| `HostOperations.Reply` | tools/contracts/validation.py:91-101 | every refusal carries the effect and the advice the response validator asks for: an unknown effect where there may be one, and then never a retry |
| `HostOperations.EpochsFresh` | tools/contracts/operation_fixture.py:17-18 | an epoch that rotated out never comes back |
| `HostOperations.Find` | tools/contracts/operation_fixture.py:33-36 | the search, in any order, finds a matching record exactly when there is one |
| `HostOperations.Service.Rotate` | tools/contracts/operation_fixture.py:17-18 | takes the next number as epoch and forgets every record |
| `HostOperations.Service.Edit` | tools/contracts/operation_fixture.py:20-22 | takes the next number, and only then fails on an unknown file; the new version holds exactly the given bytes (`HostLaws.EditStores`) |
| `HostOperations.Service.Call` | tools/contracts/operation_fixture.py:27-53 | answers, with effect and next action, and changes the state as specified, keeps the invariant, and changes nothing unless it succeeds; what it stores is `HostLaws.ReplaceStores`, when it refuses `HostLaws.ReplaceRefusals` |
| `HostLaws.EditStores` | tools/contracts/operation_fixture.py:20-22 | an edit stores exactly its bytes, at a new version, in the file's own workspace, and touches no other file |
| `HostLaws.ReplaceStores` | tools/contracts/operation_fixture.py:47-53 | a replace that is carried out stores exactly the decoded bytes in the file it names, its result has their size, digest and version and the current instance, one record is added and no other file changes |
| `HostLaws.VersionMeansBytes` | tools/contracts/operation_fixture.py:20-22 | wherever a run still has the version a replace made, it has the bytes that replace stored |
| `HostLaws.RunTruthful` | tools/contracts/operation_fixture.py:49-53 | in every state of every run each retained result describes the request it is retained for |
| `HostLaws.SuccessIsOurs` | tools/contracts/operation_fixture.py:39-53 | a success, fresh or repeated, describes the caller's own content |
| `HostLaws.InstancesTell` | tools/contracts/operation_fixture.py:19-19 | two results name one instance exactly when the service did not restart between them |
| `HostLaws.ReplaceRefusals` | tools/contracts/operation_fixture.py:27-47 | each refusal of a replace, exactly when it is given |
| `HostLaws.ReplaceAccepted` | tools/contracts/operation_fixture.py:39-48 | when a replace succeeds, is carried out or raises on its data, exactly |
| `HostLaws.LookupAnswers` | tools/contracts/operation_fixture.py:32-37 | each answer of a lookup, exactly; only the asking subject's records are shown |
| `SchemaExpansion.ExpandPlain` | tools/contracts/catalog.py:59-72 | whatever the expansion returns holds no reference at any depth; it terminates on every finite registry |
| `SchemaExpansion.RefsAlone` | tools/contracts/catalog.py:61-66 | a reference beside other members, or one that is not text, is refused wherever it stands |
| `SchemaExpansion.PlainUnchanged` | tools/contracts/catalog.py:59-72 | a value without references expands to itself |
| `SchemaExpansion.ExpandIsInline` | tools/contracts/catalog.py:59-72 | what it returns is the plain inlining |
| `SchemaExpansion.ExpandsIffFinite` | tools/contracts/catalog.py:59-72 | with references that mean the same in every document, a value is expanded exactly when a finite inlining of it exists |
| `SchemaExpansion.RefusedIffRepeats` | tools/contracts/catalog.py:67-69 | for any registry, a value is expanded exactly when a finite inlining of it exists and no chain of references, followed through the documents they lead to, names one twice |
| `SchemaExpansion.RelativeReferenceRefused` | tools/contracts/catalog.py:67-69 | a registry with a finite inlining that is refused |
| `PanicText.DecodeOfUtf8` | kernel/src/diagnostic.rs:65-67 | text encoded as section 3 of RFC 3629 says decodes to itself |
| `PanicText.NothingLost` | kernel/src/diagnostic.rs:51-71 | while everything fits nothing is lost, however the text is split into writes |
| `PanicText.RawText.Push` | kernel/src/diagnostic.rs:43-48 | appends one byte if there is room |
| `PanicText.RawText.PutCharacter` | kernel/src/diagnostic.rs:62-68 | appends one whole character, a carriage return before a newline |
| `PanicText.RawText.WriteStr` | kernel/src/diagnostic.rs:52-71 | the filled bytes are, write by write, the CRLF-translated encoding of the longest prefix that fits; the capacity is never exceeded and the subtraction never underflows |
| `PanicText.RawText.Filled` | kernel/src/diagnostic.rs:40-42 | the filled bytes always decode to whole characters |
| `Manifest.RoundTrip` | tools/terminal_support/v7_launch.py:104-113 | the reader recovers identity, version numbers, capability bits and digest of every accepted document |
| `Manifest.BitsOfRequests` | tools/application.py:38-41 | the summed bits of distinct requests are the bits of their set |
| `Manifest.BitsTell` | tools/application.py:13-13 | the bits determine the set of requested capabilities |
| `Manifest.EncodeInjective` | tools/application.py:20-42 | documents with one encoding agree on everything but the order of their requests |
| `Application.NameAgrees` | crates/abi/src/application.rs:33-46 | the guest reads a name field as some name exactly when the packaging tool prints that name so |
| `Application.PrintedParses` | crates/abi/src/application.rs:48-81 | every printed manifest parses, to what its document says |
| `Application.ParsedIsPrinted` | crates/abi/src/application.rs:48-81 | conversely every manifest that parses is printed from some accepted document |
| `Application.KnownWords` | crates/abi/src/application.rs:68-71 | the capability mask admits exactly the words of the five known bits |
| `Application.AdmittedIsSubset` | crates/abi/src/application.rs:83-85 | a manifest is admitted exactly where every capability it requests is held |
| `Application.HeadDamage` | crates/abi/tests/application.rs:29-48 | any change of the magic, format, size, ABI or IPC field is refused with that field's error |
| `Application.BodyDamage` | crates/abi/tests/application.rs:29-48 | a changed capability word, identity or executable name parses exactly when it is good, and is refused with its own error else |
| `Application.FreeFields` | crates/abi/src/application.rs:72-80 | changed version numbers or digests are read as they stand |
| `PageUnion.Sweep` | tools/measurement/provenance.py:75-78 | the sweep over sorted ranges counts the distinct pages |
| `PageUnion.SameRanges` | tools/measurement/provenance.py:75-79 | the union does not depend on the order of the segments |
| `PageUnion.LoadBytes` | tools/measurement/provenance.py:58-79 | from the image's bytes: 4096 times the number of distinct pages, refused exactly for a short or foreign image, a bad table, a bad load segment or none; in terms of the headers laid out, `ElfImage.PrintedLoad` |
| `PageUnion.UnionVersusSum` | tools/terminal_support/v7_faults.py:169-177 | the distinct pages never exceed the per-segment sum and equal it exactly when no two segments share a page |
| `PageUnion.StaticPages` | tools/terminal_support/v7_faults.py:161-181 | from the image's bytes: the load segments in order and that sum plus the stack pages, refused exactly for a foreign image, a bad header size or a header outside the image; in terms of the headers laid out, `ElfImage.PrintedStatic` |
| `PageUnion.LoadWithinStatic` | tools/terminal_support/v7_faults.py:161-181 | an image the load count accepts is accepted here too, and its bytes never exceed this bound |
| `ElfImage.ReadsPrinted` | tools/measurement/provenance.py:58-73 | for every ELF64 image laid out by the offsets of the System V gABI, whatever its other fields, the headers read are the headers laid out |
| `ElfImage.PrintedLoad` | tools/measurement/provenance.py:66-79 | such an image is counted exactly when its load headers are good and there is one, and the pages counted are exactly those some byte of a load segment's memory lies in |
| `ElfImage.PrintedStatic` | tools/terminal_support/v7_faults.py:161-181 | such an image is always reported, and its sum is, load header by load header, the pages from that of the first to that of the last byte |

## Left out

- Streamed stages: a payload is staged and published by one request here. Open stages, their reservations, their overlay on the planning map and the refusals they cause (`crates/fs/src/volume7/stage.rs`) are not modelled, nor are polling states between device requests beyond abandoning before the header.
- Provision7.ProvisionStopped: says nothing of a stop before the two blank headers are flushed, where the old volume may or may not still mount. Upgrading a v6 volume is not modelled.
- Reading runs of files through the owner (`crates/fs/src/volume7/read.rs`) and listing or looking up names are not modelled: easy members over the same state.
- Owner7.Owner.Serve: device reads always succeed, only writes and flushes fail; the candidate is validated before its payload is written, where the source writes the payload first; checksums are computed over whole regions, where the source accumulates them block by block.
- Owner7.Owner.Mount: device reads always succeed.
- Classify7.WriteVerdict: the key is fresh for its subject in the base image, as the harness chooses it; the expected subject is the request's own.
- HostOperations.Service.Call: schema validation, base64 decoding and SHA-256 are parameters; the constant fields of a result are left out. Names are held by number and compared as text.
- PageUnion.StaticPages: a segment is reported with its flags as a number, not as two booleans, and without its own page count.
- `tools/terminal_support/v7_admission.py` (decoding status lines) and all boot drivers, serial and process handling: text plumbing around the modelled steps.
- The bit-level definitions of CRC-32 and SHA-256, JSON Schema validation, and the older disk formats except v6's map scan. Images are sequences of whole sectors.
