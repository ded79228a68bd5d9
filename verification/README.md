# Verified models of the storage, write and graph cores

Dafny models of the parts of `core/scripts` whose correctness spans several functions or
whole runs, with proofs of what they promise. Dafny 4.11; `dafny verify dfyconfig.toml`
checks everything.

## What is modelled

**The snapshot store** (`_history_store.py`). Blobs and patches are shared by all files
below a base directory, manifests belong to one file each. A sha256 digest is a free
constructor over the content it names. A hash may own several patches, and the resolver
and the reachability marker each take whichever the directory lists first; a directory
order is therefore a parameter (`Listing`) of each walk, one for each manifest the marker
walks from (`Listings`), and every theorem holds for every choice. `SnapshotStore` gives
each public call as a function on values, `HistoryStore` gives the same calls as methods of
a class that fill marks, rewrite manifests and unlink files in loops, and equates the two.
The store invariant: every file holds what its name says; every patch's base is stored; the
patches of blob-less hashes form no cycle; a live manifest points at storage that exists.
`SoundIffRestorable` shows the third clause is not a convenience: with the other clauses it
is equivalent to "every stored hash restores under every directory order". Runs
come in two grains. In `SnapshotRuns` each call is one step and saves on any files fall
between an enumeration and its delete. `SnapshotSteps` takes the calls apart: a save plans,
writes storage and publishes its manifest; a collector drops, marks, lists and unlinks; any
number of saves are under way at once and fall anywhere inside a collector's walk, because
the tick's lock, the only one, is not taken by `save`. `SnapshotNeeds`, `SnapshotPlans` and
`SnapshotRestore` say what each call does in other terms than its own: what a collector
leaves is exactly what is needed, how a save decides, and what restore refuses.

**Delta codec and manifest text.** Line and suffix deltas over UTF-8 (RFC 3629) bytes,
and the hand-written manifest printer and parser, with the exact set of records they can
carry, joined to the manifests a save builds.

**Write protocols** (`_fileops.py`). The conflict retry around a conditional PUT (a
versioned register with `If-Match` as in section 13.1.1 of RFC 9110 and a 412 as in
section 15.5.13), the update-count compare-and-retry, and the id allocator. The first two
are step systems with any number of clients interleaved at will, beside the loop one
caller runs.

**Graphs.** `find_cycles` as a step machine and as the source's nested loops;
supersession chains and root search; grants, their validation over whole runs and the
influence decision; re-pointing the dependents of a decomposed goal.

**Counting.** The experience counter spool over whole runs, crashes included; the
eviction census; the byte-budgeted summary.

## Where the code and its comments disagree

The models follow the code.

- "Content-addressed names cannot cycle" (`_history_store.py:574-576`). Save F, then X, an
  append to F, then Y, an append to X, then X again, all to one file. The last save writes a
  line delta of X over Y whenever that delta, gzipped, takes less than half of X gzipped
  (`:478-479`), X and Y being text and X at most 5 MiB: an X of about half a kilobyte of
  varied text and a one-line Y are enough, a few bytes are not. X and Y are then patches of each
  other, neither has a blob, and the newest snapshot fails to restore when the newer of X's
  two patches is listed first (`SnapshotCycle.ResaveCanCycle`, for all such contents).
  `SnapshotSave.SaveRestoresIff` gives the exact condition on a save.
- The anchor interval is said to cap the patch chain (`_history_store.py:13-14`). It caps
  `chain_length`; a restore may leave its file's own chain through a content that another
  file saved too, and apply three patches at interval 3 (`SnapshotDeep.RestoreCanGoDeeper`).
  The exact bound is the longest walk of the chain graph (`SnapshotDepth.AppliesAtMostIff`).
- `enumerate` and `delete` together are said to produce what one `vacuum` produces
  (`_history_store.py:865-868`). A corrupt manifest makes `enumerate` stop before retention
  and `vacuum` after it, so they agree exactly when no manifest is corrupt or none is stale.
- "No second walk, no TOCTOU" between the two (`_history_store.py:860-863`) speaks of a lock
  that `save` does not take. A save in between may publish a manifest over a blob that is
  about to be unlinked (`SnapshotRuns.SaveBeforeDeleteCanLose`). A save inside the walk
  itself, which reads the manifests first and lists the files after (`:915-973`), needs
  neither retention nor shared content: between mark and list, its new blob is taken for an
  orphan (`SnapshotSteps.SaveInsideWalkCanLose`), and so is one written before the mark whose
  manifest comes after it (`SnapshotSteps.LatePublishCanLose`). The walk runs in the
  background (`history-vacuum-tick.sh:11-12`). `SnapshotSteps.StepKeepsIff` says exactly
  which write of a save does no harm at any moment, `SnapshotPending.KeepsPendingIff` which
  whole save.
- A manifest is said to be stale when its mtime is below the cutoff (`_history_store.py:838`);
  one exactly at the cutoff is dropped too (`SnapshotVacuum.VacuumManifests`).
- Stale manifests are said to be rewritten before the reachability scan, freeing their
  storage (`_history_store.py:656-658`). A dry run, the default, scans without that rewrite:
  it promises no blob where the real run deletes one (`SnapshotDryRun.DryRunCanMislead`), and
  agrees with it exactly when the stale manifests free nothing
  (`SnapshotDryRun.DryRunPredictsIff`).
- `find_cycles` says it returns every simple cycle (`_dependency_graph.py:100`). Whatever the
  order of the keys and of each target list, it does so exactly when no two simple cycles
  share an edge (`CycleOrders.AllCyclesIff`); in a diamond it misses one of two.
- "No lost increment" when a lock is stolen (`_fileops.py:1864-1867`) fails for a caller that
  is not exhausted: another caller's fail-open write can put the update count back, so that a
  clean verify re-read erases that write (`CasRetry.CountComesBack`). A verified commit
  overwrites what it never saw exactly when a fail-open write landed since its read
  (`CasRetry.StaleCommitIff`).
- The omission reserve of 24 bytes is said to cover a six-digit count
  (`_compact_summary.py:101-103`); it covers seven digits.
- The grant index keeps several grants of one edge so that none "silently wins"
  (`_grants.py:303-306`), but the decision consults only the first. A revoked and renewed
  edge stays denied (`Influence.RenewalIsDenied`), for good (`Influence.DenialIsFinal`).
- A manifest value that is the empty string is printed as nothing and read back as null, and
  an agent or summary such as `--5` makes the parser raise. The printer quotes a line break
  (`_history_store.py:385-387`) and the parser reads line by line, so a later line of a summary is
  taken for a field of its own: after `encoding: dropped` on a summary's second line the file
  says the snapshot is dropped, whatever it is (`ManifestFile.SummaryCanDrop`).
  `ManifestFile.FileKeepsCoreIff` is the exact condition for any agent and summary.

## Model

| member | source | states |
|---|---|---|
| `SnapshotInvariant.ResolveIff` | core/scripts/_history_store.py:571-603 | on any store: if the first listed patches lead to a blob, the walk returns what applying them gives, so its cycle check stops no such walk; if they end at nothing, the file is missing; if they never end, a cycle is reported |
| `SnapshotRestore.RestoreIff` | core/scripts/_history_store.py:556-603 | on any store restore gives a content if and only if the manifest is there, is not dropped, has a hash, and the walk from it gives that content |
| `SnapshotRestore.RestoreErrors` | core/scripts/_history_store.py:556-603 | on any store each of its refusals has its own error: unknown name, dropped whatever its storage holds, no hash, a walk that never ends, a walk that ends at nothing |
| `SnapshotRestore.RetentionRefuses` | core/scripts/_history_store.py:673-699 | after either collector a live manifest not newer than the cutoff is refused under every directory order, even where another file keeps its blob |
| `SnapshotRestore.DroppedForGood` | core/scripts/_history_store.py:556-568 | whatever calls follow, safe or not, a dropped snapshot is refused under every directory order unless a save takes its very name |
| `SnapshotRestore.DroppedForGoodInSteps` | core/scripts/_history_store.py:556-568 | the same for every run of single steps |
| `SnapshotInvariant.ResolveStored` | core/scripts/_history_store.py:571-603 | in a sound store every stored hash resolves to its own content under every directory order |
| `SnapshotInvariant.RestoreLive` | core/scripts/_history_store.py:556-568 | under the store invariant every live manifest restores to the content its hash names |
| `SnapshotInvariant.SoundIffRestorable` | core/scripts/_history_store.py:574-603 | in a truthful, closed store, "no cycle among the patches of blob-less hashes" holds if and only if every stored hash restores under every directory order |
| `SnapshotInvariant.TrappedFails` | core/scripts/_history_store.py:580-585 | a walk that enters a closed set of blob-less hashes raises, from any visited set |
| `SnapshotSave.PlannedDeltaIsTrue` | core/scripts/_history_store.py:449-500 | whatever delta a save plans, its base is stored, differs from the target, and the delta applied to the base's content gives the saved content |
| `SnapshotSave.AddPatchSoundIff` | core/scripts/_history_store.py:484-500 | adding a truthful patch keeps the store sound if and only if the target has a blob or is not reachable from the base |
| `SnapshotSave.UnsafePatchFails` | core/scripts/_history_store.py:593-601 | when that condition fails, some directory order makes the new content unrestorable |
| `SnapshotSave.SaveKeepsInv` | core/scripts/_history_store.py:407-530 | every save meeting the side condition keeps the invariant: reuse, full, suffix, line delta, failed-patch fallback, failed writes |
| `SnapshotSave.SaveRestoresIff` | core/scripts/_history_store.py:407-530 | the manifest a successful save wrote restores to the saved bytes under every later order if and only if the side condition held |
| `SnapshotSave.SavedManifest` | core/scripts/_history_store.py:533-553 | a returning save leaves a live manifest naming the saved content and no other manifest changed; a raising one changes no manifest |
| `SnapshotPlans.PlanIff` | core/scripts/_history_store.py:416-482 | by the newest manifest of the file: reuse if and only if it is live and names the content; a delta if and only if it is live, below the interval, readable, and the content appends to it or has a line delta of less than half the gzip at no more than 5 MiB; the append form first |
| `SnapshotPlans.FirstIsFull` | core/scripts/_history_store.py:416-446 | without a manifest of the file the content is written in full |
| `SnapshotPlans.LineDeltaIff` | core/scripts/_history_store.py:262-296 | a line delta exists if and only if both contents are UTF-8 without a zero byte in the first 8192, and its opcodes are difflib's |
| `SnapshotPlans.SavedIs` | core/scripts/_history_store.py:424-553 | on any store and whatever the system refuses: which one file is added, when the save returns, and what its manifest then says |
| `SnapshotPlans.ResaveAddsNothing` | core/scripts/_history_store.py:424-440 | saving the newest live content again adds a manifest for the same storage and no file |
| `SnapshotVacuum.MarkChainCovers` | core/scripts/_history_store.py:790-815 | the marker's walk marks a self-contained chain down to a blob, whichever patches it took |
| `SnapshotVacuum.KeepAcyclic` | core/scripts/_history_store.py:737-787 | deleting every unmarked blob and patch cannot create a cycle among blob-less hashes |
| `SnapshotVacuum.VacuumKeepsInv` | core/scripts/_history_store.py:653-787 | vacuum re-establishes the whole invariant, with or without retention, corrupt manifests included |
| `SnapshotVacuum.VacuumSafe` | core/scripts/_history_store.py:653-787 | a manifest that is live after vacuum restores to exactly the bytes it restored to before, for independent directory orders before, after, and in each of the marker's walks |
| `SnapshotVacuum.VacuumManifests` | core/scripts/_history_store.py:673-699 | vacuum keeps every manifest; a live one as old as the cutoff or older becomes `dropped` without a base, and nothing else of any manifest changes but that one's mtime |
| `SnapshotVacuum.VacuumIdempotent` | core/scripts/_history_store.py:737-787 | a second vacuum under the same directory orders finds nothing left to delete |
| `SnapshotNeeds.VacuumLeavesIff` | core/scripts/_history_store.py:653-787 | on any store, cyclic or damaged: a blob is left if and only if a manifest that stays is full and names it or the walk from its base comes to it, a patch if and only if it is such a manifest's own or that walk takes it; with a corrupt manifest every file is left |
| `SnapshotNeeds.EnumeratedIff` | core/scripts/_history_store.py:835-975 | the targets are exactly the files no staying manifest needs and the live manifests not newer than the cutoff; a corrupt manifest, and only that, makes it refuse and name the corrupt ones |
| `SnapshotNeeds.MarkChainIff` | core/scripts/_history_store.py:790-815 | on any store the marker marks exactly the patches the walk takes and the blob it ends at |
| `SnapshotNeeds.ReportIsDifference` | core/scripts/_history_store.py:653-787 | the report counts exactly the blobs, patches and bytes that are gone and the manifests that were rewritten; a dry run counts those of a run without retention |
| `SnapshotDryRun.DryRunPredictsIff` | core/scripts/_history_store.py:653-787 | a dry run reports what the real run reports, counts, bytes and refusals alike, if and only if dropping the stale manifests frees no file (or, in a corrupt store, cures no corruption) |
| `SnapshotDryRun.DryRunCanMislead` | core/scripts/_history_store.py:673-699 | one stale full snapshot: the dry run promises no blob, the real run deletes one |
| `SnapshotVacuum.EnumerateDeleteRefinesIff` | core/scripts/_history_store.py:851-1022 | enumerate then delete ends in the store vacuum ends in, if and only if no manifest is corrupt or no live one is stale |
| `SnapshotPending.EnumeratedHarmless` | core/scripts/_history_store.py:851-975 | when an enumeration is made, its delete would keep the whole invariant |
| `SnapshotPending.StoreIff` | core/scripts/_history_store.py:504-524 | at any moment of a collector's work the storage write of a save leaves what will stay in order if and only if a patch it adds and that stays has a base that stays and closes no cycle |
| `SnapshotPending.PublishIff` | core/scripts/_history_store.py:526-553 | the manifest write does if and only if the file the manifest names is there and will stay |
| `SnapshotPending.KeepsPendingIff` | core/scripts/history_vacuum_archive.py:313-361 | a whole save after a collector's mark, or after its listing, leaves what will stay in order if and only if the file its manifest names is marked (is no target) and a patch it adds builds, without a cycle, on what stays |
| `SnapshotPending.DeleteAfterSaveIff` | core/scripts/_history_store.py:978-1022 | the delete after such a save keeps the invariant under that same condition, both directions |
| `SnapshotRuns.RunKeepsInv` | core/scripts/_history_store.py:407-1022 | with each call taken as one step: every run of saves, vacuums, enumerations and deletes on any files, saves falling between an enumeration and its delete, keeps the invariant and the record of what was saved |
| `SnapshotRuns.RunRoundTrip` | core/scripts/_history_store.py:407-603 | with each call taken as one step: after every such run, every manifest that was not dropped restores to exactly the bytes passed to the save that wrote it |
| `SnapshotRuns.SaveBeforeDeleteCanLose` | core/scripts/history_vacuum_archive.py:313-361 | for any content: a save between enumeration and delete after which the new snapshot cannot be restored under any directory order |
| `SnapshotSteps.StepKeepsIff` | core/scripts/_history_store.py:407-1022 | with any number of saves and a collector taken apart into their steps and interleaved at will: whatever may happen next keeps the store and what will be left of it in order if and only if it is no storage write that stands on something missing or doomed and no manifest that names it |
| `SnapshotSteps.RunRoundTrip` | core/scripts/_history_store.py:407-1022 | after every run of such steps each of which meets that condition, every manifest that was not dropped restores to the bytes passed to the save that published it |
| `SnapshotSteps.SaveInSteps` | core/scripts/_history_store.py:407-553 | the three steps of a save that nobody falls into are the save as one call |
| `SnapshotSteps.CollectInSteps` | core/scripts/_history_store.py:915-1022 | mark, list and delete are enumerate and delete, the refusal of a corrupt store included |
| `SnapshotSteps.VacuumInSteps` | core/scripts/_history_store.py:653-787 | drop, mark, list and delete are the single-shot vacuum, the refusal after retention included |
| `SnapshotSteps.SaveInsideWalkCanLose` | core/scripts/_history_store.py:915-973 | for any content: a first save between mark and list ends live, and raises under every directory order |
| `SnapshotSteps.LatePublishCanLose` | core/scripts/_history_store.py:504-530 | for any content: so does one whose manifest lands after the mark |
| `SnapshotDepth.RunChainLengths` | core/scripts/_history_store.py:432-482 | with a fixed anchor interval every manifest of every run has chain_length between 0 and interval - 1 |
| `SnapshotDepth.OnePatchIsSafe` | core/scripts/_history_store.py:484-500 | where every target has one patch, the side condition of a save holds by itself |
| `SnapshotDepth.VacuumKeepsDepths` | core/scripts/_history_store.py:653-787 | vacuum keeps the bound on the patches each manifest's restore applies |
| `SnapshotDepth.RunDepth` | core/scripts/_history_store.py:432-482 | in runs where every target has one patch, every live manifest restores and applies at most chain_length patches |
| `SnapshotDepth.AppliesAtMostIff` | core/scripts/_history_store.py:571-603 | in any sound store a restore applies at most n patches under every directory order if and only if no walk of the chain graph from its hash is longer than n |
| `SnapshotDeep.RestoreCanGoDeeper` | core/scripts/_history_store.py:449-500 | a safe run at interval 3 whose newest manifest says 2 and is restored through 3 patches |
| `SnapshotDeep.DroppedPriorGoesDeeper` | core/scripts/_history_store.py:432-482 | a safe run of six steps with one patch per target, in which a save builds on a snapshot about to be dropped: its manifest says 1 and every restore applies 2 patches |
| `SnapshotCycle.BackPatchFails` | core/scripts/_history_store.py:484-500 | in any sound store a delta over a base that is a delta of the saved content, neither having a blob, leaves a snapshot that some directory order cannot restore |
| `SnapshotCycle.ResaveCanCycle` | core/scripts/_history_store.py:474-500 | for all contents F, X, Y whose line delta back from Y to X is kept: four successful saves, the first three safe, after which the newest snapshot raises under some directory order |
| `HistoryStore.History.ResolveChain` | core/scripts/_history_store.py:571-603 | the recursive walk returns the specification's result |
| `HistoryStore.History.RestoreSnapshot` | core/scripts/_history_store.py:556-568 | restore, with its four error cases, is the specification's |
| `HistoryStore.History.Decide` | core/scripts/_history_store.py:432-500 | the branches of save choose the specified plan |
| `HistoryStore.History.Save` | core/scripts/_history_store.py:407-553 | the store and result after a save are the specification's, including the fallback and failed writes |
| `HistoryStore.History.MarkChainReachable` | core/scripts/_history_store.py:790-815 | the marks grow by exactly the specified chain |
| `HistoryStore.History.MarkManifests` | core/scripts/_history_store.py:701-735 | the loop over manifests collects exactly the specified marks |
| `HistoryStore.History.Vacuum` | core/scripts/_history_store.py:653-787 | the deleting run ends in the specified store, a dry run changes nothing, and both report the specified counts, bytes freed and corrupt manifests |
| `HistoryStore.History.EnumerateVacuumTargets` | core/scripts/_history_store.py:851-975 | enumeration returns the specified targets, corrupt manifests and bytes, and changes nothing |
| `HistoryStore.History.DeleteVacuumTargets` | core/scripts/_history_store.py:978-1022 | deletion ends in the specified store and counts, with their bytes, the targets that were still there |
| `DeltaCodec.RunDelta` | core/scripts/_history_store.py:299-326 | the decoder's loop returns the specified bytes or error for every base and delta |
| `DeltaCodec.BuildDelta` | core/scripts/_history_store.py:262-296 | the encoder's loops build the specified opcodes and insert blocks |
| `DeltaCodec.ReplayTiles` | core/scripts/_history_store.py:284-326 | replaying any opcodes that tile both sequences with true equal blocks gives the current lines |
| `DeltaCodec.DeltaRoundTrip` | core/scripts/_history_store.py:262-326 | a line delta applied to its base gives exactly the bytes it was made from |
| `DeltaCodec.SuffixIff` | core/scripts/_history_store.py:232-259 | over a decodable base the suffix form is chosen if and only if it decodes to the current bytes, with the only suffix that does |
| `Utf8.DecodeIffEncode` | core/scripts/_history_store.py:232-259 | strict decoding and encoding are inverse in both directions on all byte strings |
| `ManifestText.SerializeManifest` | core/scripts/_history_store.py:370-390 | the printer's loop prints the specified text |
| `ManifestText.ReadManifest` | core/scripts/_history_store.py:348-367 | the parser's loop returns the specified record, or raises where `int` does |
| `ManifestText.UnescapeQuotes` | core/scripts/_history_store.py:359-362 | the first global replace undoes the quote escaping and leaves the doubled backslashes for the second |
| `ManifestText.ReparseIff` | core/scripts/_history_store.py:348-390 | a value survives print and parse if and only if it is null, an integer, or a string that is quoted by the printer or is trimmed, non-empty, not `null` and not digit-like |
| `ManifestText.RoundTripIff` | core/scripts/_history_store.py:348-390 | a record over any plain keys survives if and only if all its values do, values with line breaks included |
| `ManifestText.ManifestRoundTripIff` | core/scripts/_history_store.py:370-390 | the same for the manifest schema |
| `ManifestFile.FileReadsBackIff` | core/scripts/_history_store.py:533-553 | a manifest's file reads back as the record it was written from if and only if its digests hold a letter and its agent and summary are representable |
| `ManifestFile.FileKeepsCoreIff` | core/scripts/_history_store.py:348-390 | for any agent and summary: hash, encoding, base and chain_length come back if and only if the parser raises on neither text and each field is spelt again as it was by a later line of one of them, or by none while its own line survives |
| `ManifestFile.OneLineKeepsCoreIff` | core/scripts/_history_store.py:348-390 | with one-line agent and summary: if and only if the digests hold a letter and neither text makes the parser raise |
| `ManifestFile.SummaryCanDrop` | core/scripts/_history_store.py:348-390 | a summary with the second line `encoding: dropped` turns the file of any manifest, of any agent the parser does not raise on, into one of a dropped snapshot |
| `ManifestFile.SavedFileKeepsCoreIff` | core/scripts/_history_store.py:533-553 | the condition of FileKeepsCoreIff for the manifest any successful save wrote, whatever agent and summary it was given |
| `ConflictRetry.NextKeepsGood` | core/scripts/_fileops.py:2066-2181 | one step of any client keeps: the stored value is the committed modifiers folded in commit order |
| `ConflictRetry.NoLostUpdate` | core/scripts/_fileops.py:1720-1797 | in every run of any number of clients: that fold, each modifier in it having succeeded on the value it was folded over; a returned call is in it exactly once with the value it returned; any other call is not in it; at most three attempts |
| `ConflictRetry.PutOutcome` | core/scripts/_fileops.py:1785-1797 | in every run: a write turned away changes nothing and its caller begins again, unless it was the third or past the deadline, when it re-raises; one not turned away returns what it stored |
| `ConflictRetry.ConflictedIff` | core/scripts/_fileops.py:1785-1797 | in every run a call has re-raised if and only if its third write was turned away, or an earlier one past the deadline |
| `ConflictRetry.TurnedAwayIff` | core/scripts/_fileops.py:1759-1797 | in every run a write is turned away if and only if a write was accepted since its caller's last read |
| `ConflictRetry.RmwWithConflictRetry` | core/scripts/_fileops.py:1759-1797 | one caller's loop over the versioned register does what the attempts specify |
| `ConflictRetry.AttemptsApplyToCurrent` | core/scripts/_fileops.py:1759-1797 | a call that writes applies its modifier to the latest value anybody stored; one that does not leaves that value |
| `ConflictRetry.AttemptsIff` | core/scripts/_fileops.py:1785-1797 | one caller returns, re-raises or lets its modifier's error through, each if and only if one of three attempts ends so and every earlier one was overtaken in time |
| `CasRetry.CommitIsCurrent` | core/scripts/_fileops.py:1876-1936 | in every run: a write that passes its re-read replaces the very state it read, and is its mutation, unless a fail-open write landed since that read |
| `CasRetry.StaleCommitIff` | core/scripts/_fileops.py:1876-1936 | in every run: a write that passes its re-read overwrites writes it never saw if and only if a fail-open write landed since its read |
| `CasRetry.CountComesBack` | core/scripts/_fileops.py:1864-1870 | the interleaving in which a fail-open write restores the count and a clean first-attempt commit erases it |
| `CasRetry.CountersBalance` | core/scripts/_fileops.py:1833-1936 | in every run, fail-open writes included, a counter is its start value plus the increments of all writes that landed, less what each overwrote |
| `CasRetry.AllSeeIff` | core/scripts/_fileops.py:1876-1936 | in every run all writes replace the state their calls read if and only if the fail-open ones do, and then nothing of any counter is lost, however many calls are exhausted |
| `CasRetry.NoIncrementLost` | core/scripts/_fileops.py:1833-1936 | in every run without an exhausted call every counter is its start value plus all committed increments, each committed call counted once |
| `CasRetry.FailOpenIff` | core/scripts/_fileops.py:1921-1936 | the exhausted write keeps a counter's sum if and only if what peers committed since its last read adds nothing to it |
| `CasRetry.ExhaustedLosesIncrement` | core/scripts/_fileops.py:1921-1936 | an interleaving in which the exhausted write takes a peer's increment away |
| `CasRetry.Disk.LoopStateCasRetry` | core/scripts/_fileops.py:1876-1936 | one caller's loop: it stops at its first attempt without a conflict or with nothing to do, writes its mutation of what that attempt read, and is exhausted if and only if all three attempts met a conflict |
| `CasRetry.AttemptsAccounted` | core/scripts/_fileops.py:1915-1936 | in every run a call forces its write exactly after its third conflict, and reports one attempt more than it met conflicts |
| `CasRetry.RefusedIff` | core/scripts/_fileops.py:1918-1930 | in every run a re-read refuses the write if and only if it fails or finds another count than its call last read |
| `Allocator.NextId` | core/scripts/_fileops.py:2280-2323 | the id is one above every conforming number in the file and no larger |
| `Allocator.NumberOfId` | core/scripts/_fileops.py:2280-2323 | formatting a number, padded or not, and matching it back is the identity |
| `Allocator.NumberOfIff` | core/scripts/_fileops.py:2280-2323 | an id conforms if and only if it is the stem and digits of any count, a final newline allowed, and its number is theirs |
| `Allocator.IdForIs` | core/scripts/_fileops.py:2280-2323 | the id for a number is the stem and its digits, at least as wide as asked, and wider only without a leading zero |
| `Allocator.AllocatedIncrease` | core/scripts/_fileops.py:2184-2277 | in every run under the lock, with any other records present or arriving, later allocations are strictly larger and never repeat an id |
| `Allocator.AllocationKeepsDistinct` | core/scripts/_fileops.py:2184-2323 | an allocation keeps the conforming numbers pairwise distinct |
| `Allocator.RunDistinctIff` | core/scripts/_fileops.py:2184-2323 | in every run under the lock the conforming numbers stay pairwise distinct if and only if they were at the start and no record another builder appended repeats a number already there |
| `Allocator.Jsonl.AppendAllocated` | core/scripts/_fileops.py:2184-2277 | the locked append adds exactly one record, with the next id |
| `CycleFinder.FindCycles` | core/scripts/_dependency_graph.py:99-158 | the nested loops terminate; every list is a simple cycle, smallest node first, no two equal; the result is empty if and only if the graph is acyclic, self-loops included |
| `CycleFinder.EveryCycleIsHit` | core/scripts/_dependency_graph.py:99-158 | every cycle of the graph shares an edge with a returned one |
| `CycleFinder.EmptyIffAcyclic` | core/scripts/_dependency_graph.py:99-158 | the step machine returns nothing if and only if the graph has no closed walk |
| `CycleFinder.RotationsAreEqual` | core/scripts/_dependency_graph.py:124-133 | two canonical cycles that are rotations of each other are the same list |
| `CycleOrders.AllCyclesIff` | core/scripts/_dependency_graph.py:99-158 | for all key orders and target orders every simple cycle is returned, if and only if distinct simple cycles share no edge |
| `CycleOrders.SecondIsLost` | core/scripts/_dependency_graph.py:99-158 | of two simple cycles that share an edge, the order that follows the first one loses the second |
| `CycleOrders.AllCyclesIfFunctional` | core/scripts/_dependency_graph.py:99-158 | where no node has two targets every simple cycle is returned |
| `CycleFinder.DiamondMissesOne` | core/scripts/_dependency_graph.py:99-105 | of the two simple cycles of a diamond one is returned |
| `Dependency.ResolveDependency` | core/scripts/_dependency_graph.py:252-292 | the loop terminates with the specified verdict, id and chain |
| `Dependency.VerdictIff` | core/scripts/_dependency_graph.py:252-292 | satisfied, unknown, open and cycle each hold if and only if the pointer trail ends at a completed goal, at a missing id, at another goal, or never |
| `Dependency.ChainIs` | core/scripts/_dependency_graph.py:252-292 | the chain returned is the trail, hop by hop, to its end or its first repeat, and the id returned is where it stops |
| `Dependency.SupersessionSatisfiedIds` | core/scripts/_dependency_graph.py:295-334 | returns exactly the superseded ids, not yet done, whose trail ends at a completed goal |
| `Dependency.LiveBlockers` | core/scripts/_frontier.py:121-132 | the open blockers in their order, and exactly the unknown ones |
| `Dependency.OpenIff` | core/scripts/_frontier.py:121-132 | a goal is an open blocker if and only if the field names it and its trail ends at a known goal not completed, or never ends |
| `Dependency.SelectedAt` | core/scripts/_frontier.py:121-132 | the open blockers stand in the field's order, each as often as it is named |
| `Dependency.RootsOf` | core/scripts/_frontier.py:135-159 | returns only roots other than the start, reachable over open blockers; all of them when the walk empties its stack, which it does if and only if the goals it can reach have fewer than 64 open edges between them |
| `Grants.DetectCycle` | core/scripts/_grants.py:92-119 | a path is returned if and only if the ends are equal or the target already reaches the source, and it is a closed walk over the edges and the new one |
| `Grants.ValidateNewGrant` | core/scripts/_grants.py:122-163 | what each violation says of the store, both directions |
| `Grants.HumanIff` | core/scripts/_grants.py:76-85 | an approver counts as a person if and only if the text is not blank and, white space in front aside, does not begin with `agent:`, `bot:` or `system:` in any case |
| `Grants.G4Exact` | core/scripts/_grants.py:144-153 | an active grant passes G4 if and only if the active graph stays acyclic |
| `Grants.GrantStore.Add` | core/scripts/_grants.py:122-163 | appends if and only if the violation list is empty, and then the grant is admissible |
| `Grants.RunStaysAcyclic` | core/scripts/_grants.py:92-163 | every store reached by validated additions and revocations has an acyclic active graph, true provenance, and a person's dated approval for every source |
| `Influence.CoversIff` | core/scripts/_grants.py:258-278 | a scope covers a node if and only if it is the root or its segments come first in the node's path |
| `Influence.NormalizedIs` | core/scripts/_grants.py:248-278 | what a scope and a node are compared by: the text without surrounding white space, and without separators at its ends; no scope, a blank one and `/` are the root |
| `Influence.BuildIndex` | core/scripts/_grants.py:303-312 | the index finds for every edge what a scan finds |
| `Influence.CheckInfluence` | core/scripts/_grants.py:166-226 | the verdict, with an index or without |
| `Influence.VerdictIff` | core/scripts/_grants.py:166-226 | each verdict with its guardrail and grant id holds if and only if its cause does, in terms of the first grant of the edge in store order |
| `Influence.InfluenceIsAcyclic` | core/scripts/_grants.py:92-226 | after every validated run the edges along which influence is allowed form no cycle: a world that may influence another is not influenced by it, over however many worlds |
| `Influence.AllowedIffFirstStands` | core/scripts/_grants.py:122-226 | after any validated run an edge is allowed if and only if the grant that first opened it permitted it then and has not been withdrawn since |
| `Influence.DenialIsFinal` | core/scripts/_grants.py:198-221 | an edge that has a grant and is denied stays denied in every later store of a run, whatever validated grants follow |
| `Influence.AcceptedAllowsIff` | core/scripts/_grants.py:122-226 | exactly when a grant that validation accepts permits its edge at once |
| `Influence.RenewalIsDenied` | core/scripts/_grants.py:198-205 | a validated run whose renewed active edge is denied |
| `Decomposed.EveryChildAwaited` | core/scripts/_decomposed_dependents.py:85-129 | with acyclic children every child is a sink or transitively awaited by one |
| `Decomposed.SinksStandForAllIff` | core/scripts/_decomposed_dependents.py:85-129 | "all sinks done means all children done", whatever is done, if and only if every child is a sink or awaited by one |
| `Decomposed.SinksIff` | core/scripts/_decomposed_dependents.py:108-112 | the plan points at exactly the children no other child waits on, and at all of them if every one is waited on |
| `Decomposed.DependentsIff` | core/scripts/_decomposed_dependents.py:102-107 | its dependents are exactly the live goals, neither parent nor child, that wait on the parent |
| `Decomposed.RepointedBlockers` | core/scripts/_decomposed_dependents.py:150-172 | what a re-pointed goal waits on: all sinks, its other blockers first and in order, and no sink added twice |
| `Decomposed.RepointHolds` | core/scripts/_decomposed_dependents.py:132-147 | the re-pointed `depends_on` list holds exactly the entries that did not name the parent and, for each one that did, its copy for every sink not listed before |
| `Decomposed.RepointedDependsIff` | core/scripts/_decomposed_dependents.py:132-172 | a re-pointed goal depends on exactly the goals it named before, without the parent, and on every sink if it named the parent |
| `Decomposed.RepointLoop` | core/scripts/_decomposed_dependents.py:132-147 | the loop over `depends_on` builds the specified list |
| `Decomposed.Queue.Apply` | core/scripts/_decomposed_dependents.py:150-172 | the records after apply are the specified ones |
| `Decomposed.ApplyRepoints` | core/scripts/_decomposed_dependents.py:85-172 | after a non-refused apply no live outside goal waits on the parent, former dependents wait on all sinks, the `depends_on` rule is kept, nothing else changed |
| `Decomposed.RefuseIff` | core/scripts/_decomposed_dependents.py:85-129 | plan refuses if and only if somebody waits on a parent without children |
| `Decomposed.DependentWaitsForAll` | core/scripts/_decomposed_dependents.py:85-172 | once everything a re-pointed dependent waits on is done, all children are |
| `CounterSpool.AggregateIsSum` | core/scripts/utilization-flush.py:93-118 | the aggregator is the per-id, per-counter sum |
| `CounterSpool.AggregateLines` | core/scripts/utilization-flush.py:93-118 | its loop builds the specified aggregate |
| `CounterSpool.Record.ApplyCounters` | core/scripts/_experience_stats_spool.py:222-256 | the counters and timestamps after the in-place update are the specified ones, and whether it changed anything |
| `CounterSpool.MergeAddsLanded` | core/scripts/_experience_stats_spool.py:259-310 | a drain adds to every counter exactly the lines that landed |
| `CounterSpool.Spool.Flush` | core/scripts/_experience_stats_spool.py:313-397 | the files and ledger after a flush, for every backend outcome |
| `CounterSpool.Spool.MigrateLegacy` | core/scripts/_experience_stats_spool.py:86-144 | migration moves the legacy lines and loses none |
| `CounterSpool.DrainDropsOnly` | core/scripts/_experience_stats_spool.py:284-305 | a drain drops a line only for a missing id, or for a record without stats whose batch holds no retrieval |
| `CounterSpool.RecordedIs` | core/scripts/_experience_stats_spool.py:197-219 | a named line is appended behind what waits, legacy lines included; a nameless one is refused and changes nothing |
| `SpoolFlush.StatusIff` | core/scripts/_experience_stats_spool.py:313-397 | for every state of files, store, lock and backend each of the seven statuses is reported if and only if its cause holds |
| `SpoolFlush.FlushEffect` | core/scripts/_experience_stats_spool.py:259-410 | what a flush does: batches that come through are settled line by line, each landing where its record takes it or dropped for the true reason; the others wait, all of them, and are dropped only when the claim is refused |
| `SpoolFlush.NothingDroppedWithoutCause` | core/scripts/_experience_stats_spool.py:365-397 | a flush that meets no refusal of the claim adds no such drop: what neither landed nor was turned away by the store is still in the files |
| `SpoolFlush.FineFlushEmpties` | core/scripts/_experience_stats_spool.py:313-397 | with a store, a working backend, the interval over and the lock free, no line waits afterwards, and each that did not land names a missing record or one without stats |
| `SpoolFlush.StampIsLatest` | core/scripts/_experience_stats_spool.py:222-256 | a record's last retrieval becomes the latest of the day it had and the days of the batch's retrievals |
| `CounterSpool.CountersConserved` | core/scripts/_experience_stats_spool.py:86-410 | in every run: recorded = applied + pending + dropped for every counter; a crash between write and unlink loses nothing and may apply a batch again |
| `GoalCensus.ComputeCensus` | core/scripts/_goal_census.py:146-169 | the two loops build the specified census |
| `GoalCensus.ComputeEffectiveCounts` | core/scripts/_goal_census.py:178-224 | the loops return the specified totals for every exclusion set |
| `GoalCensus.EffectiveIs` | core/scripts/_goal_census.py:178-224 | the totals are the number of listed goals the consumer counts and the evicted ones of every status it does not exclude |
| `GoalCensus.CensusIs` | core/scripts/_goal_census.py:146-169 | a status counts its legacy number, if positive, and the distinct ids of its bucket; which statuses are reported at all |
| `GoalCensus.ProgressIs` | core/scripts/_goal_census.py:235-269 | progress: all goals that do not recur, evicted ones included, the recurring ones apart, and the ratio to the positive first count |
| `GoalCensus.EvictNeutralIff` | core/scripts/aspirations-evict-completed.py:342-382 | one eviction changes no count of a consumer if and only if the id is new to its bucket or the consumer excludes its status |
| `GoalCensus.EvictionNeutral` | core/scripts/_goal_census.py:178-269 | evicting any terminal, non-recurring goals with fresh ids leaves effective_counts and derive_progress unchanged for every exclusion set |
| `GoalCensus.EvictionNeutralIff` | core/scripts/aspirations-evict-completed.py:569-607 | eviction of any goals is neutral for every consumer if and only if each id is new to its bucket |
| `GoalCensus.ProjectionPreservesCounts` | core/scripts/_compact_summary.py:131-169 | the shell without id sets has the same census_by_status |
| `CompactSummary.BuildSummary` | core/scripts/_compact_summary.py:191-274 | the greedy loop and the final loop build the specified entries |
| `SummaryBudget.BudgetedIs` | core/scripts/_compact_summary.py:191-256 | along the stable order a goal is omitted if and only if its cost exceeds what shells, reserves and the goals kept before it leave of the budget; kept and omitted goals of each entry follow from that |
| `SummaryBudget.EverythingFits` | core/scripts/_compact_summary.py:191-274 | when the budget pays for every eligible goal, each entry is its shell and all its eligible goals, tier after tier in their own order, with no omission record |
| `SummaryBudget.TierOrder` | core/scripts/_compact_summary.py:172-188 | recurring, in-progress and blocked goals come before HIGH, then MEDIUM, then LOW, whatever the case of the priority; exactly the finished ones that do not recur are left out |
| `SummaryBudget.EntrySays` | core/scripts/_compact_summary.py:253-262 | an entry lists the kept goals, carries the omission count exactly when it is positive, and is its shell otherwise |
| `CompactSummary.SortRowsIsStableSort` | core/scripts/_compact_summary.py:240-243 | the row order is the stable sort by tier and position |
| `CompactSummary.FinishedBound` | core/scripts/_compact_summary.py:101-103 | the reserve covers an omission record of at most seven digits |
| `CompactSummary.TextLen` | core/scripts/_compact_summary.py:112-119 | the length the budget counts with is the length of the JSON text written, escapes and surrogate pairs included |
| `CompactSummary.SizeBound` | core/scripts/_compact_summary.py:191-274 | if shells and reserves fit, the JSON text of the summary, commas and omission records included, fits the budget |
| `CompactSummary.GoalsAccounted` | core/scripts/_compact_summary.py:191-274 | included, omitted and excluded goals add up to all goals |
| `CompactSummary.TiersDoNotInterfere` | core/scripts/_compact_summary.py:240-256 | what is kept of tiers up to t is what would be kept if no goal of a higher tier existed |

## Left out

- Files, gzip, JSON, YAML, `os.replace`, long paths and subprocesses: their effect is one atomic step; a write the system may refuse is a flag of the call.
- Unlinks that fail during a vacuum: deletion is taken to succeed; read errors other than a missing file are not modelled.
- difflib, sha256 and the directory: difflib is taken to return opcodes that tile both sequences, sha256 to be injective, a directory to list each file once in some order.
- Manifest names and time: a manifest's name is its place in the order of names, the time is a parameter, the `timestamp` field is not carried, and a hand-damaged patch or manifest file that raises KeyError is not modelled.
- Digits outside ASCII, which `str.isdigit` and `\d` also accept.
- Case outside ASCII: `upper` and `lower` act on ASCII letters only, although a few other letters fold to them (`ı` to `I`).
- SnapshotRuns.RunRoundTrip: assumes the side conditions of every save, because without them the property is false; `SnapshotSave.SaveRestoresIff` and `SnapshotPending.KeepsPendingIff` say exactly when. The two collectors do not overlap, as their per-box lock promises. Each call is one atomic step.
- SnapshotSteps.RunRoundTrip: a save's planning, its storage write and its manifest write, a collector's drop of the stale manifests, its mark over all manifests, its listing and its delete are each one atomic step; a save may fall between any two of them. It assumes the condition of `SnapshotSteps.StepKeepsIff` at every step, because without it the property is false.
- HistoryStore.History.EnumerateVacuumTargets: carries the summed sizes and the set of corrupt manifests, not each item's size and reason text.
- SnapshotDepth.RunDepth: covers the runs where each target has one patch and a save between an enumeration and its delete builds on a snapshot that stays, because otherwise the bound is false (`SnapshotDeep.RestoreCanGoDeeper`, `SnapshotDeep.DroppedPriorGoesDeeper`); `SnapshotDepth.AppliesAtMostIff` is the exact bound.
- CounterSpool.Record.ApplyCounters: `utility_ratio` is derived and rounded, and stored counters are integers; neither the ratio nor other stored types are modelled.
- CasRetry.NoIncrementLost: covers runs without an exhausted call, because otherwise it is false; `CasRetry.CountersBalance` covers all runs. It takes the re-read and the write that follows as one step, as the protocol's comments do.
- Allocator.AllocatedIncrease: assumes the lock excludes others; ids computed under a stolen lock may repeat.
- The lock, the turn queue and the storage backends: only their stated contracts are used; merge reconciliation on PUT and the deadline's clock are not modelled beyond a flag.
- `supersession_target`: the sentence scan is a field of the goal; `build_graph` and the classification loop of `frontier_census` only add members read off their bodies.
- CycleFinder.FindCycles: ids are integers in their order, and the sorted key list is given by the caller.
- Dependency.RootsOf: when the walk is cut at 64 pops only soundness is claimed, as in the code.
- Grant listing (`query_grants`, `readable_scopes`, `memberships`, `reach`), provenance stamping and loading.
- Torn spool lines and an append racing the rename: a line append is atomic. Duplicate ids in the experience store and the throttle's stamp file are not modelled.
- `project_goal` field narrowing, the READ-cap default budget, the per-tier drop labels, utility ratios and the rounding of the fan-out ratio: a projected goal is given, and the fan-out is a real number.
- CompactSummary.SizeBound: counts of eight digits or more are outside the reserve.
