# Knowledge-base maintenance: a verified model

The scripts that maintain the diagnostic knowledge base rewrite shared JSON
databases, merge harvests into them again and again, take blocks out and keep
them elsewhere, and read and print hand-made text formats. This project models
those scripts in Dafny and proves what their runs keep. `dafny verify
dfyconfig.toml` checks all of it.

## What is modelled

**The two-database commit** (`DatabaseCommit`, `CommitTries`, `CommitReads`,
`CommitCrash`, `WriterProtocol`, `WriterRuns`, `WriterCommit`, `WriterLeavings`,
`MergeRestart`). Compare-and-swap, backup, staging, replacement with six tries,
verification and rollback run over a small file system whose failures are an
arbitrary plan: any copy, replacement or read may fail, and any move or copy may
be tampered with; otherwise it takes the bytes of the file it moves. For every
plan it is proved what the commit ends in, which fault that needs, and exactly
when the live files are all old or all new. Above it, any number of t66 merges
and t80 repairs interleave one file operation at a time under one lock, next to
writers that bypass the lock; replacements, verifications and restores may fail
there as well. The files always stand to the history of the writers as the lock
holder's position says, where the history also records what a writer with a
reported failure left behind, and what that can be. The two levels are tied
together: for every plan of faults, from its passed check on, a merge's steps
are the commit's. A merge or repair left alone puts its result in place, and
whoever holds the lock can always come to free it. A run that crashes, even
between its two files, and is run again on its batch reaches the files of an
undisturbed run.

**The merges** (`MergeValues`, `ValueLaws`, `DtcMerge*`, `DtcMeaning`,
`J1939Merge*`, `J1939Meaning`, `Adapter*`, `TitleRepair`, `RepairMeaning`).
Fill-if-empty fields behind the foreign-title and subject gates, one owner of
the flat steps, and a list of further sources in which a URL's bundle is
replaced only by a strictly richer one. When a record or a J1939 batch may be
merged twice is settled exactly, and so is which entries stand every repeated
DTC batch; so is when the order of a batch does not matter to a URL's bundle,
for codes with steps and URLs other than the owner's. Which entry a record
reaches and what each of its fields holds afterwards is said field by field,
from the harvested record through the adapter to the database. A dry run is
shown to agree with the apply for batches of distinct keys, and not to agree for
a record given twice.

**The quarantine** (`Quarantine`, `QuarantineCriterion`, `QuarantineLaws`).
Detection, upsert into a second file and removal by position, as two atomic
writes that may be cut short anywhere and repeated: no dirty block is lost as
long as the empty SPN key has at most one, every completed run converges to the
same two files, and the documented way back is exact under an exact condition.

**The restricted YAML reader** (`PgnYaml`, `PgnYamlLayout`, `PgnYamlReader`,
`PgnYamlScalars`, `PgnYamlText`, `PgnYamlStrict`). Loops over an index are
proved against a recursive specification whose measure is the content characters
left, and the reader inverts the canonical layout of every value of the
supported subset, from text to text; block texts under every header and plain
texts over several lines are read back as well. A strict reader that refuses
leftover lines says exactly when the reader loses some.

**The manifest and promotion** (`Manifest*`, `Promotion*`). The printed tables
read back exactly, the three-way check is a one-to-one correspondence, and
promotion overwrites nothing, removes a file only for one of four stated reasons
and is finished after one run.

**Smaller engines** (`Recovery*`, `CauseGraph`, `CauseReferences`,
`CauseGrammar`, `CauseMeaning`, `Harvest*`). The texts of paths and what they
lead to, path get and set on record trees with strictly lengthening merges,
grouping of cause nodes by title with references that resolve as a grammar says,
and a first-wins fold over sorted harvests with the repair that follows it.

The modules named `*Meaning`, `ValueLaws`, `CommitTries`, `WriterRuns`,
`RecoveryPaths`, `PgnYamlScalars` and `QuarantineCriterion` say what the
specification functions mean: they state each result by the inputs, with the
source's own phrases and numbers written out.

`Text`, `Numbers`, `Sorting` and `Wrappers` hold string, decimal, sorting and
option helpers.

Where a script works by changing things step by step, a class or a method with
loops does the same and is proved equal to a specification function; the laws
are lemmas about that function. Sequences of keys or ids over which a script
loops in sorted order are parameters: the laws hold for every order. Rows and
nodes that a script writes in sorted order are sorted in the model.

## Where the code and its documentation differ

The model follows the code.

- The YAML reader calls itself fail-closed, but the nested parse of a list item
  drops its consumed count, so a stray line of an item block vanishes silently
  (`PgnYamlReader.ItemLineCanBeDropped`). It is fail-closed exactly where every
  item block is read to its end (`PgnYamlStrict.LosslessIff`); a lost line never
  changes what is read, and could as well be deleted
  (`PgnYamlStrict.LostLinesDoNotMatter`, `PgnYamlStrict.LostLinesCanBeDeleted`).
- The commit promises the new or the old bytes unless the restore copy itself
  fails. An operating-system error while reading a file back, in the
  verification or in the rollback, is not caught and leaves what landed
  (`CommitReads.UncaughtReadBreaksPromise`); the promise holds exactly when no
  such read can fail (`CommitReads.PromiseKeptIff`). The two reads for the report
  are not caught either: they raise after both files are new.
- `write_quarantine` treats a corrupt quarantine file as empty so that it cannot
  block the write. On the apply path the residue scan reads the file first and
  raises, so it does block, and nothing is written
  (`QuarantineLaws.UnreadableFileStopsRuns`, `QuarantineLaws.RunsIffReadable`).
- A quarantine record without SPN or index is said to be keyed by its payload
  hash; the code gives all such records of one SPN the index -1, and
  `QuarantineLaws.AllStoredIff` says when that loses a block.
- The quarantine calls `(spn, block_index)` a stable identity. Positions are
  reused after a removal, so a later round can overwrite a stored payload;
  `QuarantineLaws.RoundsPayload` says exactly when.
- The J1939 merge looks a bundle up under the record's normalised URL but stores
  it with the URL it names itself; the adapter leaves a trailing slash there, and
  such a page is appended on every pass (`Adapter.SlashedUrlRepeats`).
- The recovery merge calls itself idempotent after one run. A row that continues
  what a later row writes can need another one; `RecoveryLaws.OneRunIff` says
  exactly when, and `RecoveryLaws.TwoRowsIff` for two rows.
- The harvest merge says that a second call writes the database back unchanged,
  and the repair inside it that a second pass returns 0. A text in which the
  site's phrase stands twice loses one on each run
  (`Harvest.NestedPhraseChangesTwice`); `Harvest.SecondMergeIff` says exactly when
  the promise holds.
- A manifest cell with a line separator inside, which a free-text source may
  have, prints one row that is read back as two lines (`Text.WrittenLinesReadIff`).
- A cause reference of an odd code, one that holds both quotes and semicolons,
  can resolve by citing other records (`CauseReferences.ForgedKeyResolves`).
- The printed manifest shows an empty licence as "unknown", which the check then
  refuses (`ManifestLaws.PrintedPassesIff`).
- The title repair announces that it restores after a post-write count mismatch
  (scripts/t80_repair_title_en.py:273-274); it only stops, and whatever bytes
  landed stay (`WriterProtocol.RepairIsNotTakenBack`).

## Model

| member | source | states |
|---|---|---|
| DatabaseCommit.Disk.VerifyUnchanged | scripts/t66_merge.py:183-195 | compares one live file with its fingerprint; a moved or unreadable file ends the commit with nothing written |
| DatabaseCommit.Disk.BackupAll | scripts/t66_merge.py:242-246 | copies both files to their backups in commit order and ends at the first copy that raises |
| DatabaseCommit.Disk.StageAll | scripts/t66_merge.py:198-208 | stages both payloads and reads each back; a mismatch or error ends the commit |
| DatabaseCommit.Disk.RestoreFromBackup | scripts/t66_merge.py:254-267 | copies the backup's bytes over the live file and reports a copy that raised or was tampered with |
| DatabaseCommit.Disk.RollBack | scripts/t66_merge.py:269-274 | restores every file that no longer has its fingerprint, then reports the reason |
| DatabaseCommit.Disk.ReplaceAll | scripts/t66_merge.py:276-291 | moves the bytes of both staged files over the live ones with six tries each, and rolls both back when one never gets through |
| DatabaseCommit.Disk.VerifyAll | scripts/t66_merge.py:293-297 | re-reads both files against their payloads and rolls both back on a mismatch |
| DatabaseCommit.Disk.CommitDatabases | scripts/t66_merge.py:225-306 | the whole commit on a mutable disk, from the comparison to the two reads for the report, with every state the files pass through, equals the step-by-step specification |
| DatabaseCommit.CasGuards | scripts/t66_merge.py:239-240 | the commit reports a moved or unreadable file if and only if one of the two is, and then no file was ever written |
| DatabaseCommit.CommitMeans | scripts/t66_merge.py:225-306 | for every pattern of faults: committed if and only if every step of both files and the reads for the report go through; what both live files hold in every other ending, and which fault that ending needs |
| DatabaseCommit.BackupsHold | scripts/t66_merge.py:242-298 | from the end of the backup loop on, whatever fails, both backups hold the bytes originally read |
| DatabaseCommit.StageMeans | scripts/t66_merge.py:198-251 | staging goes through if and only if both writes leave the payloads, and then the staged files hold the payloads that the replacement moves |
| DatabaseCommit.LateCommit | scripts/t66_merge.py:254-297 | after the preparation: both payloads arrive, or the bytes read come back from the backups, unless a copy raised or was tampered with or a read failed; a mismatch needs a tampered move |
| DatabaseCommit.AllOrNothing | scripts/t66_merge.py:225-306 | both live files are the payloads, or both are as they were read, or one of three distinctly reported failures of the rollback or a read happened |
| CommitTries.SixTries | scripts/t66_merge.py:276-291 | a replacement gets through if and only if one of its six tries lands, and the first that does decides what is found |
| CommitTries.CommittedIff | scripts/t66_merge.py:225-306 | the commit succeeds if and only if for both files the backup and the staging go well, one of six tries moves the staged bytes untampered and every read goes through; then both files hold their payloads |
| CommitTries.ComparisonReports | scripts/t66_merge.py:183-240 | what the comparison reports: the trouble-code file before the other, an unreadable file before a moved one |
| CommitReads.PromiseKeptIff | scripts/t66_merge.py:254-298 | the live files end all new, all old or under a reported restore failure, whatever else fails, if and only if no read between the comparison and the report can fail |
| CommitReads.BrokenAtVerify | scripts/t66_merge.py:294-297 | a file that cannot be read back at the verification breaks the promise: the second file may have landed torn |
| CommitReads.BrokenAtRollback | scripts/t66_merge.py:269-274 | so does a file that cannot be read in the rollback, before or after its restore |
| CommitReads.UncaughtReadBreaksPromise | scripts/t66_merge.py:294-297 | the concrete breach: first file new, second torn, and an error that is not caught |
| WriterProtocol.ConsistentStep | scripts/t66_merge.py:811-835 | every step of every writer keeps the live files in the relation to the serial history that the lock holder's position calls for |
| WriterProtocol.ExclusiveStep | scripts/t66_merge.py:120-155 | exactly the holder of the lock is between taking and releasing it |
| WriterProtocol.Serialisable | scripts/t66_merge.py:811-835 | however t66 merges and t80 repairs interleave and fail, and whatever bypassing writes fall outside a checked file's window, whenever the lock is free both files are what the recorded events leave one after another: results of whole writers, bypassing writes, and what writers with a reported failure left |
| WriterProtocol.NoCommitLost | scripts/t80_repair_title_en.py:179-276 | the history holds exactly the writers that succeeded, and those whose failure left something in the files, each once, in the order in which they took the lock |
| WriterProtocol.OnlyHolderWrites | scripts/t66_merge.py:120-155 | no step of another locked writer changes a live file or the holder's position |
| WriterProtocol.StaleStep | scripts/t66_merge.py:168-195 | one step of that: the writer keeps the stale copy or aborts, and writes nothing |
| WriterProtocol.StaleStays | scripts/t66_merge.py:168-195 | a writer whose unchecked copy of a file is stale stays stale or aborts, over any run, and none of its steps in the run changes a live file |
| WriterProtocol.BypassAborts | scripts/t66_merge.py:183-195 | a write that bypasses the lock between a writer's read and its check, and changes the bytes, makes that writer stay unchecked or abort: over the rest of the run it never succeeds, leaves no mark and writes neither file |
| WriterProtocol.BypassAfterCheckIsLost | scripts/t66_merge.py:239-292 | the guard is needed: a bypassing write after the check is overwritten, and the result differs from the serial one |
| WriterProtocol.RepairIsNotTakenBack | scripts/t80_repair_title_en.py:262-274 | whatever bytes a repair lands stay there; it reports a failure exactly when their record count differs from the old one or cannot be had |
| WriterRuns.RepairCommits | scripts/t80_repair_title_en.py:179-274 | a repair with something to do, left alone, puts its result in place, is recorded, and frees the lock |
| WriterRuns.RepairWithNothingToDo | scripts/t80_repair_title_en.py:261-276 | a repair with nothing to do ends without writing anything |
| WriterRuns.RepairFindsChange | scripts/t80_repair_title_en.py:261-262 | a repair whose file was changed since it read it stops without writing |
| WriterRuns.MergeCommits | scripts/t66_merge.py:811-835 | a merge left alone puts both results in place, is recorded, and frees the lock |
| WriterRuns.WaitingEnds | scripts/t66_merge.py:120-155 | a writer that waits for a taken lock can give up at any time, and leaves everything as it is |
| WriterRuns.HolderCanFinish | scripts/t66_merge.py:120-155 | from every position a holder can reach it can come to free the lock by its own steps alone |
| WriterLeavings.FailedRepairs | scripts/t80_repair_title_en.py:262-274 | over any guarded run, a repair that fails or is misled has left the J1939 file as the history has it, and had something to repair |
| WriterLeavings.FailedWithoutTampering | scripts/t66_merge.py:254-297 | where operations fail but nothing is tampered with, a failed merge has left each file old or new, and a failed repair its result |
| WriterCommit.StepsAreTheCommit | scripts/t66_merge.py:225-298 | for every plan of faults, from a passed check on: the writer's steps are legal, they leave the live files as the two-database commit does, and the writer succeeds, aborts or reports a failure as the commit does |
| WriterCommit.RollbackIsSteps | scripts/t66_merge.py:254-274 | the rollback of any state is the protocol's undo steps, with every fault of a read or a restore |
| WriterCommit.VerifyIsSteps | scripts/t66_merge.py:294-306 | the verification of both files, its rollback and the reads for the report are the protocol's steps |
| CommitCrash.CrashStates | scripts/t66_merge.py:225-306 | in every state of such a commit both live files are old, the J1939 file alone is new, or both are new: what a crash can leave |
| MergeRestart.RerunWritesTheSame | scripts/t66_merge.py:732-807 | from each of these three a run on the same batch writes the same two files, if both databases may be merged twice |
| MergeRestart.RestartConverges | scripts/t66_merge.py:732-807 | after any number of crashes, a run that commits leaves the files of an undisturbed run |
| DtcMerge.Database.BuildIndex | scripts/t66_merge.py:350-359 | the scan in any order builds the map from normalised titles to all codes that carry them |
| DtcMerge.Database.CachedIndex | scripts/t66_merge.py:373-381 | the cached index is always the one a fresh scan would build |
| DtcMerge.Database.PassGates | scripts/t66_merge.py:481-517 | the verdicts of the foreign-title and subject gates, and what they add to the counters |
| DtcMerge.Database.FillEnglish | scripts/t66_merge.py:518-536 | the four English fields in order: which are filled, refused or passed over, with or without apply |
| DtcMerge.Database.FindSlot | scripts/t66_merge.py:628-632 | the first bundle of the list with this URL |
| DtcMerge.Database.PlaceBundle | scripts/t66_merge.py:569-658 | where the offered bundle goes: appended, replacing a strictly poorer one of its URL, refused, or not at all |
| DtcMerge.Database.MergeDtc | scripts/t66_merge.py:472-678 | one record into the database: new entries and report, in a dry run the report only; the title index stays valid |
| DtcMerge.Database.MergeBatch | scripts/t66_merge.py:760-784 | a batch of records, one after the other |
| DtcMerge.IndexNext | scripts/t66_merge.py:350-359 | adding one record's title to the index of the records seen so far |
| DtcMerge.TitlesStay | scripts/t66_merge.py:373-381 | a merge keeps every title, so the title index of the database stays what it was |
| ValueLaws.CollapseIs | scripts/t66_merge.py:327-332 | a text of words, however spread, becomes the words with one space between them |
| ValueLaws.TextsIs | scripts/t66_merge.py:319-324 | a list becomes the trimmed texts of its elements, in order, without the blank ones |
| ValueLaws.NormalIs | scripts/t66_merge.py:309-332 | what every kind of value counts as: its list, its text, whether it is empty, whether it is false |
| ValueLaws.UrlIs | scripts/t66_merge.py:441-449 | white space around a URL and slashes at its end make no difference |
| ValueLaws.UrlOnly | scripts/t66_merge.py:441-449 | and only texts of that form have a URL to compare |
| ValueLaws.CodeIs | scripts/t66_merge.py:362-363 | a code is compared in capitals, without the white space around it |
| ValueLaws.PlainKey | scripts/t66_merge.py:335-347 | a text of small letters, digits and spaces is its own title key, up to spacing |
| ValueLaws.KeyOfChar | scripts/t66_merge.py:335-347 | case makes no difference to a title key, a sign counts as its word, any other character as a space |
| ValueLaws.PolarityMatters | scripts/t66_merge.py:338-341 | titles that differ in the sign of a bus half never have the same key |
| ValueLaws.AuthoritativeIff | scripts/t66_merge.py:414-438 | evidence is marked authoritative under the three verified statuses and no other, never for want of a status |
| ValueLaws.EvidenceText | scripts/t66_merge.py:418-423 | evidence is kept with its digest, computed where none is given; a blank one with neither |
| DtcMeaning.ReachedCode | scripts/t66_merge.py:452-459 | a record goes to the first code its URL spells, in capitals; without one to its key, else its code |
| DtcMeaning.KnownIsMerged | scripts/t66_merge.py:472-678 | a record changes the entry it reaches, behind the gates on that entry, and is reported on it |
| DtcMeaning.UnknownIsCounted | scripts/t66_merge.py:474-476 | a record that reaches none is counted and changes nothing |
| DtcMeaning.ForeignIff | scripts/t66_merge.py:384-401 | a title is foreign if and only if it has a key, its own code has another, and a different code has the same |
| DtcMeaning.GatesAre | scripts/t66_merge.py:492-516 | the title gate closes on a foreign title, the subject gate on a claim that the anchor blocks |
| DtcMeaning.EnglishField | scripts/t66_merge.py:519-537 | each English field and its source: filled with the normal form and the page where it was vacant and the gates let it, else as it was |
| DtcMeaning.StepsField | scripts/t66_merge.py:553-567 | the flat steps: those of the first field that has any, where there were none; owner and site only where none was named |
| DtcMeaning.HeldMeans | scripts/t66_merge.py:586-658 | what each URL holds after a record: the offer field by field, under its page, where it is placed and has more steps than what was held; else what it held |
| DtcMeaning.ListMeans | scripts/t66_merge.py:596-658 | the list of bundles grows by one at its end, or has one element replaced, or stays |
| DtcMeaning.FilledIs | scripts/t66_merge.py:537-654 | which fields are reported as filled |
| DtcMeaning.FilledInOrder | scripts/t66_merge.py:519-654 | and in which order |
| DtcMeaning.KeptFields | scripts/t66_merge.py:660-666 | source and evidence come with a record that gives something, and never replace what is there |
| DtcMeaning.CountersAre | scripts/t66_merge.py:492-677 | what one record adds to each counter of the report |
| DtcMeaning.LinesAre | scripts/t66_merge.py:645-675 | which lines it adds |
| DtcMergeLaws.SettledIff | scripts/t66_merge.py:472-678 | an entry is left unchanged exactly by the records that have nothing to give it |
| DtcMergeLaws.HeldAfter | scripts/t66_merge.py:569-658 | a record changes what one URL of the list holds, its own |
| DtcMergeLaws.MoveByHeld | scripts/t66_merge.py:602-658 | whether a bundle is appended, replaces or is refused follows from what its URL holds and who owns the steps |
| DtcMergeLaws.TwiceIsOnceIff | scripts/t66_merge.py:561-567 | merging one record twice is merging it once, if and only if it does not fill the steps of an entry whose owner is another URL while offering a bundle |
| DtcMergeLaws.SecondPass | scripts/t66_merge.py:472-678 | a second pass of any batch over an entry whose owner came with its steps changes nothing |
| DtcMergeLaws.SoundIff | scripts/t66_merge.py:561-567 | every batch may be merged twice into an entry if and only if the entry has no owner without steps |
| DtcMergeBatch.HeldIsBest | scripts/t66_merge.py:569-658 | on a populated code each URL but the owner's ends with the best of what it held and was offered |
| DtcMergeBatch.BestIs | scripts/t66_merge.py:614-622 | the best bundle is the earliest with the greatest step count |
| DtcMergeBatch.CountsNeverShrink | scripts/t66_merge.py:614-622 | no URL loses its bundle and none gets fewer steps, for any entry and any batch |
| DtcMergeBatch.DistinctStays | scripts/t66_merge.py:623-658 | pairwise distinct URLs of the list stay so through any batch |
| DtcMergeBatch.OrderFree | scripts/t66_merge.py:569-658 | the step count each URL ends with does not depend on the order of the batch |
| DtcMergeBatch.OrderFreeIff | scripts/t66_merge.py:614-658 | a URL ends with the same bundle in every order of the batch if and only if no offer is richer than what it held or all its richest offers are the same |
| DtcMergeBatch.ApartStays | scripts/t66_merge.py:539-612 | one shaped record keeps the owner's URL out of the list |
| DtcMergeBatch.OwnerStaysApart | scripts/t66_merge.py:539-638 | over any batch of shaped records no bundle carries the owner's URL |
| DtcMergeBatch.UnshapedBreaksApart | scripts/t66_merge.py:553-604 | without the shape it fails: a bundle alone, then steps of the same page, and the owner is in the list |
| DtcMergeBatch.CodeByCode | scripts/t66_merge.py:760-784 | a batch treats every code by itself, in order, and keeps keys and titles |
| DtcMergeBatch.SecondPassChangesNothing | scripts/t66_merge.py:732-787 | merging the same batch a second time changes no entry of a database of sound entries |
| DtcMergeBatch.DryRunAgrees | scripts/t66_merge.py:600-608 | when no two records resolve to the same key, the dry run reports exactly what the apply reports |
| DtcMergeBatch.DryRunCountsTwice | scripts/t66_merge.py:472-678 | distinct keys are needed: a record given twice is applied once but reported twice by the dry run |
| TitleRepair.BuildRepairList | scripts/t80_repair_title_en.py:95-157 | the plan of repairs, flags and warnings from audit and live rows |
| TitleRepair.PlanIsJustified | scripts/t80_repair_title_en.py:95-157 | no code is planned twice, every code is in the database, every repair stands on its own qualifying row |
| TitleRepair.PlanIsComplete | scripts/t80_repair_title_en.py:109-155 | no qualifying row is left out of the plan |
| TitleRepair.Repairer.ApplyRepairs | scripts/t80_repair_title_en.py:187-228 | the apply loop: the new entries, the repairs applied, the codes repaired before, and the warnings |
| TitleRepair.Repairer.ApplyFlags | scripts/t80_repair_title_en.py:230-242 | the flag loop marks every flagged entry as unverified and lists those not marked before |
| TitleRepair.SecondRunAppliesNothing | scripts/t80_repair_title_en.py:187-228 | repairing the same list again applies nothing and changes nothing |
| TitleRepair.SecondRunWritesNothing | scripts/t80_repair_title_en.py:179-276 | a whole run on the same evidence, done again, plans the same and has nothing to write |
| TitleRepair.DryRunListsTheRepairs | scripts/t80_repair_title_en.py:218-228 | the dry run of a plan lists exactly what an apply lists, in all three lists |
| RepairMeaning.PlaceholderIff | scripts/t80_repair_title_en.py:84-92 | a title is a placeholder exactly if it spells one of the five phrases, in any case |
| RepairMeaning.VoteIs | scripts/t80_repair_title_en.py:108-143 | the vote of the audit on a code is its first row of the right layer and title with votes |
| RepairMeaning.PlannedIs | scripts/t80_repair_title_en.py:95-157 | what is planned for a code: a repair on two votes, a flag on one, else a repair on the first live check; nothing else |
| RepairMeaning.PlanGrows | scripts/t80_repair_title_en.py:108-155 | repairs, flags and warnings stand in the order of their rows |
| RepairMeaning.WarnedIs | scripts/t80_repair_title_en.py:114-152 | which rows are warned of, and for what |
| RepairMeaning.VerdictIs | scripts/t80_repair_title_en.py:190-210 | each verdict on an entry, with the first reason that holds |
| RepairMeaning.RepairsLeave | scripts/t80_repair_title_en.py:219-228 | a repaired entry has its own title as its English one and keeps what was there; no other entry and no other field changes |
| RepairMeaning.FlaggedIs | scripts/t80_repair_title_en.py:230-241 | the flags reported are those not set before |
| TitleRepair.ListedByVerdict | scripts/t80_repair_title_en.py:187-228 | of repairs with distinct codes each is listed once, as applied, done before or warned about, by its entry at the start of the run |
| TitleRepair.NoNewForeignTitle | scripts/t66_merge.py:481-536 | no single merge, repair or flag adds a code under another code's title |
| TitleRepair.RepairedStaysOut | scripts/t80_repair_title_en.py:218-228 | a code that a repair changes is out of that set, and stays out over any later merges, repairs and flags |
| TitleRepair.ForeignTitlesNeverGrow | scripts/t66_merge.py:384-401 | over any sequence of merges and repairs the set never grows and the title index stays the one built at the start |
| Adapter.AdaptedDtcIsShaped | scripts/t66_adapter.py:125-147 | every adapted record that offers a bundle offers the same steps to own |
| Adapter.AdaptedJ1939CanonicalIff | scripts/t66_adapter.py:156-202 | an adapted J1939 bundle names the URL it is looked up under exactly when the harvested URL is already in normal form |
| Adapter.SlashedUrlRepeats | scripts/t66_merge.py:693-707 | so a harvested URL with a trailing slash is appended again on the second pass |
| AdapterMeaning.EvidenceIs | scripts/t66_adapter.py:74-87 | the evidence is a longest trimmed text of at least forty characters among those of the six fields, and there is none exactly if there is no such text |
| AdapterMeaning.AdaptedIff | scripts/t66_adapter.py:90-153 | a record is adapted exactly if it has a code and long enough evidence; its key, URL, source and provenance are then those of the harvest |
| AdapterMeaning.AdaptedEnglish | scripts/t66_adapter.py:102-124 | where each English field of an adapted record comes from, and when it is there |
| AdapterMeaning.AdaptedSteps | scripts/t66_adapter.py:126-147 | its steps, and the bundle it offers: steps, causes and symptoms each from its own field |
| AdapterMeaning.HarvestIsStored | scripts/t66_merge.py:586-658 | from harvest to database: where the code has steps and the page holds fewer, the page ends with the harvested steps, causes and symptoms, each under its own name |
| AdapterMeaning.HarvestIsOwned | scripts/t66_merge.py:553-567 | and where the code has none, the harvested steps become its own, under the page |
| AdapterMeaning.HarvestReachesSpn | scripts/t66_adapter.py:156-168 | a harvest without a key reaches the entry of its SPN, whatever its failure mode |
| AdapterMeaning.AdaptedJ1939Is | scripts/t66_adapter.py:156-202 | when a J1939 record is adapted, and where its parts come from |
| J1939Merge.Database.AppendBundle | scripts/t66_merge.py:691-707 | a bundle is appended unless its record's URL is among those the stored bundles name |
| J1939Merge.Database.FillFlats | scripts/t66_merge.py:709-720 | the flat fields filled while empty, and those refused |
| J1939Merge.Database.MergeJ1939 | scripts/t66_merge.py:681-729 | one record: new entries and report, in a dry run the report only |
| J1939Merge.Database.MergeBatch | scripts/t66_merge.py:776-781 | a batch of records, one after the other |
| J1939Meaning.SpnKeyReaches | scripts/t66_merge.py:461-466 | a key of an SPN, with or without a failure mode, reaches the entry of the SPN |
| J1939Meaning.OtherKeyReaches | scripts/t66_merge.py:461-469 | every other key reaches the entry of that name; without a key the SPN decides |
| J1939Meaning.MergeReaches | scripts/t66_merge.py:681-729 | a record with such a key changes exactly the entry of the SPN if it is there, and nothing otherwise |
| J1939Meaning.KnownIsMerged | scripts/t66_merge.py:681-729 | a record that reaches an entry changes that entry and is reported on it |
| J1939Meaning.FlatField | scripts/t66_merge.py:708-718 | each flat field: the normal list of the record's where there was nothing, else what it was |
| J1939Meaning.BundlesAfter | scripts/t66_merge.py:692-705 | a bundle is appended as given if the record has a URL that no stored bundle names; what was no list becomes one |
| J1939Meaning.ExtraAfter | scripts/t66_merge.py:699-726 | defaults and evidence come with a record that gives something, and never replace what is there |
| J1939Meaning.ReportMeans | scripts/t66_merge.py:707-729 | the report on a record that reaches an entry |
| J1939Meaning.UnknownIsCounted | scripts/t66_merge.py:683-685 | a record that reaches none is counted and changes nothing |
| J1939MergeLaws.SettledIff | scripts/t66_merge.py:681-729 | an entry is left unchanged exactly by the records that neither append nor fill |
| J1939MergeLaws.TwiceIsOnceIff | scripts/t66_merge.py:697-700 | one record merged twice is merged once, unless it appends a bundle that names another URL |
| J1939MergeLaws.BatchTwiceIff | scripts/t66_merge.py:693-707 | a batch may be merged twice into every entry if and only if each URL it offers is named by one of its own bundles under that URL |
| J1939MergeLaws.SecondPassChangesNothing | scripts/t66_merge.py:681-729 | then a second pass changes no record of the database |
| Quarantine.Store.Detect | scripts/detect_quarantine_dtcdocs_llm.py:219-278 | both scans list every block they hit, with key and position, in scan order |
| Quarantine.Store.WriteQuarantine | scripts/detect_quarantine_dtcdocs_llm.py:445-467 | the upsert with its position index: the new file, and total = previous + added |
| Quarantine.Store.ApplyQuarantine | scripts/detect_quarantine_dtcdocs_llm.py:558-584 | the removal by position and mark, in any order of the keys; an emptied list goes |
| Quarantine.Store.Apply | scripts/detect_quarantine_dtcdocs_llm.py:644-652 | the apply path, cut short before, between or after its two writes, and whether it completed |
| Quarantine.UpsertKeeps | scripts/detect_quarantine_dtcdocs_llm.py:452-467 | no record moves or changes its key; a record changes only where its key is upserted |
| Quarantine.PayloadUpserted | scripts/detect_quarantine_dtcdocs_llm.py:452-467 | a key holds the last incoming payload for it, or what it held |
| Quarantine.UpsertIdempotent | scripts/detect_quarantine_dtcdocs_llm.py:414-429 | upserting the same list again changes nothing |
| Quarantine.IndexUpsert | scripts/detect_quarantine_dtcdocs_llm.py:453-467 | the cached position index stays the index of the list |
| QuarantineCriterion.DirtyIff | scripts/detect_quarantine_dtcdocs_llm.py:89-95 | a block is dirty exactly if it is an object whose text spells one of the seven phrases, in any case |
| QuarantineCriterion.MarkedIff | scripts/detect_quarantine_dtcdocs_llm.py:281-318 | the second scan takes the objects with the old mark, whatever they say |
| QuarantineCriterion.ReadableIff | scripts/detect_quarantine_dtcdocs_llm.py:321-333 | the file can be indexed if it is missing, or a document all of whose records are objects |
| QuarantineCriterion.MarkedAlone | scripts/detect_quarantine_dtcdocs_llm.py:644-652 | where no block is dirty by content a run leaves the file alone and takes out only what bears the old mark |
| QuarantineLaws.RemovalIsCleaning | scripts/detect_quarantine_dtcdocs_llm.py:552-584 | removing by recorded position takes out exactly the dirty and the marked blocks, in order |
| QuarantineLaws.NothingLeft | scripts/detect_quarantine_dtcdocs_llm.py:281-318 | a cleaned database gives both scans nothing to find |
| QuarantineLaws.DirtyIsStored | scripts/detect_quarantine_dtcdocs_llm.py:383-394 | every dirty block is in the file under the key of its record, if the empty SPN key has at most one |
| QuarantineLaws.AllStoredIff | scripts/detect_quarantine_dtcdocs_llm.py:383-394 | one run stores every dirty block if and only if each one under the empty SPN key is the last of them or stood in the file where it is not replaced |
| QuarantineLaws.EmptyStoredIff | scripts/detect_quarantine_dtcdocs_llm.py:383-394 | the same for one block of the empty SPN key |
| QuarantineLaws.RunStep | scripts/detect_quarantine_dtcdocs_llm.py:644-652 | an interrupted run leads from each of the three states to one of the three |
| QuarantineLaws.Converges | scripts/detect_quarantine_dtcdocs_llm.py:644-652 | however often interrupted, the state is one of three, and a completed run reaches the files of an undisturbed one |
| QuarantineLaws.NothingLost | scripts/detect_quarantine_dtcdocs_llm.py:414-589 | over any interruptions every initially dirty block is in the untouched database or in the file, as long as the empty SPN key has at most one dirty block |
| QuarantineLaws.FinishedIsClean | scripts/detect_quarantine_dtcdocs_llm.py:523-589 | after a completed run both scans return nothing |
| QuarantineLaws.UnreadableFileStopsRuns | scripts/detect_quarantine_dtcdocs_llm.py:321-333 | a quarantine file that cannot be indexed stops every run before it writes |
| QuarantineLaws.RunsIffReadable | scripts/detect_quarantine_dtcdocs_llm.py:321-333 | where a scan finds something, a run left alone changes nothing if and only if the file cannot be indexed |
| QuarantineLaws.ListRebuilt | scripts/detect_quarantine_dtcdocs_llm.py:496-502 | reinserting the payloads at their positions rebuilds one list |
| QuarantineLaws.WayBackExact | scripts/detect_quarantine_dtcdocs_llm.py:496-502 | the documented way back rebuilds the database if and only if no block was condemned by the old mark alone |
| QuarantineLaws.FileHoldsTheWayBack | scripts/detect_quarantine_dtcdocs_llm.py:430-467 | the written file holds exactly the payloads the way back needs |
| QuarantineLaws.RoundsPayload | scripts/detect_quarantine_dtcdocs_llm.py:452-467 | over any rounds a key holds the last dirty block found at its position, else what it held: exactly when a stored payload changes |
| QuarantineLaws.RoundsKeepRecords | scripts/detect_quarantine_dtcdocs_llm.py:448-467 | over any rounds no record disappears or moves |
| PgnYaml.WeightDrop | scripts/intake_scan_sources.py:161-222 | the content characters left bound the parser's recursion: lines consumed make the measure smaller |
| PgnYamlLayout.TokenRoundTrip | scripts/intake_scan_sources.py:119-129 | a laid-out scalar reads back as itself |
| PgnYamlLayout.LiteralRoundTrip | scripts/intake_scan_sources.py:142-158 | a literal block reads back as its text |
| PgnYamlLayout.ItemsRoundTrip | scripts/intake_scan_sources.py:165-181 | laid-out items read back in full, whatever follows at a smaller indent |
| PgnYamlLayout.EntriesRoundTrip | scripts/intake_scan_sources.py:183-222 | laid-out entries read back in full, whatever follows at a smaller indent |
| PgnYamlLayout.MappingBlock | scripts/intake_scan_sources.py:161-222 | every mapping of the supported subset is what its canonical layout parses to, and all lines are consumed |
| PgnYamlLayout.SequenceBlock | scripts/intake_scan_sources.py:161-222 | the same for sequences |
| PgnYamlReader.ReadBlock | scripts/intake_scan_sources.py:161-222 | the index-moving reader computes the specification and the index where it stops |
| PgnYamlReader.ReadSequence | scripts/intake_scan_sources.py:165-181 | the item loop |
| PgnYamlReader.ReadMapping | scripts/intake_scan_sources.py:183-222 | the key loop; a repeated key keeps its place and takes the last value |
| PgnYamlReader.CollectBlock | scripts/intake_scan_sources.py:170-176 | the lines of a mapping item, its first key moved off the dash line |
| PgnYamlReader.BlockScalar | scripts/intake_scan_sources.py:142-158 | the block-text loop with its chomping |
| PgnYamlReader.PlainLines | scripts/intake_scan_sources.py:199-205 | the continuation-line loop of a plain scalar |
| PgnYamlReader.SignificantOfRender | scripts/intake_scan_sources.py:132-139 | rendered lines are found again by the significant-line filter |
| PgnYamlReader.DocumentRoundTrip | scripts/intake_scan_sources.py:225-236 | the text of a laid-out document parses back to the document |
| PgnYamlReader.ItemLineCanBeDropped | scripts/intake_scan_sources.py:167-177 | the reader is not fail-closed: a line of an item block at another indent is dropped without an error |
| PgnYamlText.TextRoundTrip | scripts/intake_scan_sources.py:225-236 | every supported mapping comes back from its text, if no key or one-line text is broken by a separator, no key starts with a comment sign and the lines of its long texts can be written |
| PgnYamlScalars.BlockTextRoundTrip | scripts/intake_scan_sources.py:142-158 | a text under any of the six block headers reads back, folded ones with spaces, with the ending its header asks for |
| PgnYamlScalars.PlainTextRoundTrip | scripts/intake_scan_sources.py:199-205 | a plain text goes on over deeper lines; a space joins them |
| PgnYamlScalars.ScalarIs | scripts/intake_scan_sources.py:114-129 | what a scalar is read as: nothing, a quoted text, a whole or decimal number, or the trimmed text |
| PgnYamlScalars.CommentsDoNotMatter | scripts/intake_scan_sources.py:132-139 | blank lines, comments and document marks anywhere leave the document the same |
| PgnYamlScalars.PartitionIs | scripts/intake_scan_sources.py:190-191 | white space around the first colon of a line and at its ends belongs to neither key nor value |
| PgnYamlScalars.RepeatedKey | scripts/intake_scan_sources.py:183-219 | a key that is read again keeps its place and takes the new value; a new one goes behind the others |
| PgnYamlStrict.LosslessIff | scripts/intake_scan_sources.py:161-222 | for all lines: a reader that refuses leftover lines accepts if and only if the reader accepts and its guard holds, that every item block is read to its end; then the values agree |
| PgnYamlStrict.DocumentLosslessIff | scripts/intake_scan_sources.py:225-236 | the same for whole documents |
| PgnYamlStrict.BlockPrefix | scripts/intake_scan_sources.py:161-222 | what a block read consumed decides its value: it may be followed by nothing, or by anything that begins alike, which is left unread |
| PgnYamlStrict.LostLinesDoNotMatter | scripts/intake_scan_sources.py:170-176 | the lines an item loses never change what is read: with none in their place, or other lines that begin alike, the item and what follows it are the same |
| PgnYamlStrict.LostLinesCanBeDeleted | scripts/intake_scan_sources.py:170-176 | deleting the lines an item loses leaves the item and what follows it the same |
| Manifest.ParseManifest | scripts/validate_intake.py:1045-1103 | the reading loop with all its failure branches |
| Manifest.SyncManifest | scripts/validate_intake.py:1895-1927 | the printing loops: the rows of all owned files that exist, and the external rows |
| Manifest.CheckRow | scripts/validate_intake.py:1115-1133 | exactly the findings of one row: missing, or a wrong id, and then a missing file, or a wrong size, hash or licence |
| Manifest.CheckManifest | scripts/validate_intake.py:1106-1142 | exactly the findings of the three-way check; none if and only if rows and owned files correspond one to one with equal id, size, hash and licence |
| ManifestMeaning.OwnedIs | scripts/validate_intake.py:268-275 | a record owns its own file, and a trace kept in git its frame file too |
| ManifestMeaning.ExpectedIs | scripts/validate_intake.py:1109-1112 | a path is expected exactly if a record owns it, and then of the last that does |
| ManifestMeaning.OutsideIs | scripts/validate_intake.py:1915-1922 | which traces are printed in the second table |
| ManifestMeaning.KindIs | scripts/validate_intake.py:1907-1909 | the kind a row prints |
| ManifestMeaning.RowText | scripts/validate_intake.py:1911-1914 | the text of a printed row, cell by cell |
| ManifestMeaning.IntReads | scripts/validate_intake.py:1088-1089 | a sign and groups of digits between single underscores read as the number |
| ManifestMeaning.OnlyInts | scripts/validate_intake.py:1088-1092 | and nothing else reads as a number |
| ManifestMeaning.CellsAre | scripts/validate_intake.py:1059 | between any number of bars at either end a line holds its cells, each without marks and trimmed |
| ManifestMeaning.MarksOff | scripts/validate_intake.py:330-331 | back quotes and stars are taken out of a cell wherever they stand, and nothing else |
| ManifestMeaning.RowMeans | scripts/validate_intake.py:1081-1102 | a row of the first table adds its entry, or is refused for the first reason that holds |
| ManifestMeaning.ExternalRowMeans | scripts/validate_intake.py:1064-1080 | a row of the second table replaces an earlier one of its id, which is reported, or is refused |
| ManifestMeaning.HeadingMeans | scripts/validate_intake.py:1054-1056 | a heading chooses the table by the two words for it, in any case |
| ManifestLaws.LineReads | scripts/validate_intake.py:1058-1059 | the cells of a printed line read back, in back quotes or not |
| ManifestLaws.RowReads | scripts/validate_intake.py:1081-1102 | a printed row reads back as its entry, or as a duplicate |
| ManifestLaws.ExternalReads | scripts/validate_intake.py:1064-1080 | a printed external row reads back |
| ManifestLaws.PrintedReadsBack | scripts/validate_intake.py:1895-1927 | reading a printed manifest gives back exactly the printed rows and external rows, without a failure |
| ManifestLaws.TextReadsBack | scripts/validate_intake.py:1052-1103 | reading the printed text, split at every line separator as the script splits it, gives back exactly the printed rows and external rows; a cell on one line, trimmed and without the layout's characters is all it asks |
| Text.WrittenLinesReadIff | scripts/validate_intake.py:1052 | written lines are split back into themselves if and only if none of them holds a line separator, so a cell with one tears its row |
| ValueLaws.LinesAre | scripts/validate_intake.py:1052 | a line ends at a carriage return with its line feed, or at any other break |
| ValueLaws.LastLineIs | scripts/validate_intake.py:1052 | and the last line at the end of the text, unless it is empty |
| ManifestLaws.PrintedPassesIff | scripts/validate_intake.py:1129-1133 | the check of a printed manifest passes if and only if every owned file exists and every owning record has a licence |
| Recovery.Database.Merge | scripts/merge_t44_recovery.py:161-235 | the merge loop with its counters; nothing is written when a row raises |
| Recovery.SetLeaf | scripts/merge_t44_recovery.py:110-154 | setting a text that is there succeeds and is read back; no other text of the tree changes, appears or goes |
| Recovery.SetReadsBack | scripts/merge_t44_recovery.py:133-154 | whatever a successful set wrote is read back, also under a last key it had to create |
| Recovery.SetElsewhere | scripts/merge_t44_recovery.py:133-154 | every path that is apart from the written one leads to the same value as before, text, list or object, or to nothing as before |
| Recovery.ResolvedText | scripts/merge_t44_recovery.py:110-154 | a text found by a path is a writable leaf, or one character of a text, where writing raises |
| RecoveryPaths.PathReads | scripts/merge_t44_recovery.py:70-130 | the printed form of any path reads back as its steps |
| RecoveryPaths.PathReadsIff | scripts/merge_t44_recovery.py:110-129 | a path has exactly the steps its parts spell, and none if a part spells none |
| RecoveryPaths.ReadsAt | scripts/merge_t44_recovery.py:121-129 | a step leads into a field, to an element of a list or to a character of a text, and nowhere else |
| RecoveryPaths.WritesAt | scripts/merge_t44_recovery.py:146-154 | the last step writes a field whether it is there or not, an element only where it is, and nothing else |
| RecoveryPaths.MergesElement | scripts/merge_t44_recovery.py:183-223 | a row whose path names an element of a list is merged exactly if that element is the stale, shorter text, and then replaces that element alone |
| RecoveryPaths.MergesField | scripts/merge_t44_recovery.py:183-223 | the same for a path that names a field |
| RecoveryPaths.MergedTextStands | scripts/merge_t44_recovery.py:132-154 | wherever the path leads, the merged text is read there afterwards, and no other path leads to a changed text |
| RecoveryPaths.StatusIs | scripts/merge_t44_recovery.py:203-217 | why a row whose path leads somewhere is not merged: its text is there already, is another, or is as long |
| RecoveryPaths.StatusWithoutText | scripts/merge_t44_recovery.py:190-202 | and why another is not: its gate, its record or its path |
| RecoveryPaths.CountedIs | scripts/merge_t44_recovery.py:183-223 | each row is counted once under its own status, until one raises |
| RecoveryLaws.MergedIffReady | scripts/merge_t44_recovery.py:189-221 | a row is merged if and only if its gate passes and its target is the stale text and strictly shorter |
| RecoveryLaws.TargetAfter | scripts/merge_t44_recovery.py:218-221 | a merge sets its own target to the full text and changes no other row's target |
| RecoveryLaws.SpentStays | scripts/merge_t44_recovery.py:206-221 | a merged row can never be merged again, whatever the others do |
| RecoveryLaws.FixedWithinRows | scripts/merge_t44_recovery.py:183-223 | repeated runs reach a fixed point within as many runs as there are rows |
| RecoveryLaws.OneRunIsEnough | scripts/merge_t44_recovery.py:183-223 | a second run changes nothing, for every database, unless a row that can fire and whose text no later row takes up is continued by an earlier one |
| RecoveryLaws.ChainNeedsAnotherRun | scripts/merge_t44_recovery.py:30-32 | such a chain makes some database need another run, whatever else the batch holds, unless a row aims at a character of the chain's text |
| RecoveryLaws.OneRunIff | scripts/merge_t44_recovery.py:30-32 | the exact condition for batches of any length in which no row aims at a character of another row's text |
| RecoveryLaws.TargetOfPass | scripts/merge_t44_recovery.py:183-223 | what a run does to one target is a fold over the rows that aim at it, whatever the others do |
| RecoveryLaws.TwoRowsIff | scripts/merge_t44_recovery.py:30-32 | for two rows: one run is enough for every database if and only if the first does not continue the second |
| RecoveryLaws.EveryRowIsOrdinary | scripts/merge_t44_recovery.py:63-70 | no path names the fields in which the merge records itself, so the marking never touches a target |
| CauseGraph.Deriver.EmitAll | scripts/derive_root_cause_graph.py:586-635 | the emission of all causes |
| CauseGraph.EmittedOnce | scripts/derive_root_cause_graph.py:586-635 | no two nodes share id and code, every admitted cause is held, every refused cause and no other is recorded |
| CauseGraph.MergeByTitle | scripts/derive_root_cause_graph.py:858-896 | the grouping loop, its closing with sorted lists, and the result sorted by id |
| CauseGraph.GroupsAreTitles | scripts/derive_root_cause_graph.py:858-881 | each title has one group, which holds exactly its nodes: first node, references in order, union of codes and signals |
| CauseGraph.OneNodeATitle | scripts/derive_root_cause_graph.py:882-896 | the result is ordered by id and holds one node for each title and no other |
| CauseGraph.ClosedLists | scripts/derive_root_cause_graph.py:884-888 | each written list is ascending and holds exactly what its group gathered |
| CauseGraph.RefsConserved | scripts/derive_root_cause_graph.py:858-896 | titles of the groups are distinct, and all references together are those of the input with multiplicity |
| CauseMeaning.NodesAre | scripts/derive_root_cause_graph.py:586-635 | each cause that passes the gates and is the first of its id and code adds its node, field by field; what a gate refuses is recorded, in order |
| CauseMeaning.TitleKeyIs | scripts/derive_root_cause_graph.py:867 | titles are one if their words are the same in small letters, however spread |
| CauseMeaning.MergedAre | scripts/derive_root_cause_graph.py:858-896 | the fields of a merged node: id and title of its first, all codes and signals ascending, all references in order |
| CauseMeaning.MergedOnce | scripts/derive_root_cause_graph.py:872-880 | no code or signal is listed twice |
| CauseReferences.Resolve | scripts/derive_root_cause_graph.py:912-949 | the resolver loop over the parts of a reference: trouble codes, SPN causes and cells of fault matrices |
| CauseReferences.JoinedResolvesIff | scripts/derive_root_cause_graph.py:886-913 | a joined reference resolves if and only if each joined one does |
| CauseReferences.MergedNodesResolve | scripts/derive_root_cause_graph.py:719-749 | when every node's reference resolves, so does that of every merged node |
| CauseGrammar.PartResolvesIff | scripts/derive_root_cause_graph.py:905-910 | the parts that resolve are exactly the references of a grammar: head, key, ending, and a cause or cell that is there |
| CauseGrammar.EmittedResolvesIff | scripts/derive_root_cause_graph.py:640-690 | the reference of a cause in either database resolves if and only if its key is plain, or completes a reference up to its first semicolon, holds whole references between semicolons and begins one behind the last |
| CauseReferences.CellResolvesIff | scripts/derive_root_cause_graph.py:700-715 | the reference to a cell of a fault matrix resolves if and only if its quoted name is not empty and holds no quote of its own |
| CauseMeaning.ReferenceTexts | scripts/derive_root_cause_graph.py:640-715 | the text of the three forms of a reference |
| CauseMeaning.ListCitesIff | scripts/derive_root_cause_graph.py:916-937 | a reference to a cause under a plain key resolves if and only if the record has a list with a text at that place |
| CauseMeaning.QuotedNameIff | scripts/derive_root_cause_graph.py:907-910 | a quoted name is a name between two quotes of one kind that does not hold that kind |
| CauseMeaning.CellCitesIff | scripts/derive_root_cause_graph.py:938-947 | and one to a cell, if and only if the quoted name is read and the cell has a text |
| CauseReferences.ForgedKeyResolves | scripts/derive_root_cause_graph.py:907-947 | the second case occurs: a key that closes its reference and opens another resolves by citing two other records |
| Harvest.CollectCandidates | scripts/merge_t45_dtc.py:246-278 | the fold's patches are the first offers for the empty fields of known codes |
| Harvest.Database.Merge | scripts/merge_t45_dtc.py:322-349 | both harvests in order, folded and applied, and then the repair of every record |
| Harvest.Database.RepairBoilerplate | scripts/merge_t45_dtc.py:281-301 | the repair loop over all English texts; it counts nothing if and only if it changes nothing |
| Sorting.SortedIs | scripts/merge_t45_dtc.py:242-243 | the sort by code, source and URL, or by id, is ascending and loses no row |
| Sorting.SortedOrderFree | scripts/merge_t45_dtc.py:242-243 | with distinct keys the order of the input does not matter |
| Sorting.SortedStable | scripts/merge_t45_dtc.py:242-243 | rows of equal key stay in their order |
| Sorting.StrLeIff | scripts/merge_t45_dtc.py:242 | texts compare by the first character that differs, a beginning first |
| HarvestMeaning.RowsAre | scripts/merge_t45_dtc.py:218-243 | all rows of the first harvest come before the second's, each harvest by code, then source, then URL |
| Harvest.FirstIs | scripts/merge_t45_dtc.py:265-277 | a patch is that of the first row that offers, and none exists exactly when no row does |
| HarvestMeaning.OfferIs | scripts/merge_t45_dtc.py:255-277 | what is offered for a field is the text and URL of the first row of the code with a usable URL and a text for it |
| HarvestMeaning.EmptyIff | scripts/merge_t45_dtc.py:180-188 | a field is empty where it is missing or all white space |
| Harvest.MergedField | scripts/merge_t45_dtc.py:322-349 | each field after a merge, up to the repair of its text: what it was if populated, else the first offer with its URL |
| Harvest.RepairedTextIs | scripts/merge_t45_dtc.py:292-300 | the repair changes a text exactly when it begins with the phrase and something else is left, and never makes it blank |
| HarvestMeaning.PrefixIff | scripts/merge_t45_dtc.py:167-177 | the repair looks for the phrase in front of the text, in any case, behind white space at most |
| HarvestMeaning.MarkedIff | scripts/merge_t45_dtc.py:304-349 | a merge marks exactly the entries it fills, and repairs their other texts too |
| Harvest.SecondMergeIff | scripts/merge_t45_dtc.py:304-349 | a second merge of the same harvests changes nothing if and only if one repair is enough for every English text the first merge found or filled in |
| Harvest.NestedPhraseChangesTwice | scripts/merge_t45_dtc.py:150-162 | the documented idempotence fails: a text with the phrase twice changes on the first merge and again on the second |
| Harvest.MergeOrderFree | scripts/merge_t45_dtc.py:218-349 | with distinct triples in each harvest the database after fold and repair does not depend on the order of the rows |
| Promotion.Intake.PromoteSpns | scripts/promote_intake.py:71-101 | the SPN loop: what is added and which files go |
| Promotion.Intake.PromotePgns | scripts/promote_intake.py:110-142 | the layout loop |
| Promotion.Intake.PromoteNames | scripts/promote_intake.py:145-185 | the signal-name loop |
| Promotion.Intake.Promote | scripts/promote_intake.py:207-218 | the whole run |
| PromotionLaws.NothingOverwritten | scripts/promote_intake.py:71-185 | no existing SPN or PGN entry changes, signals only get further names |
| PromotionMeaning.SpnsAre | scripts/promote_intake.py:71-101 | a record is added, and its file goes, exactly if it is the first complete one of a number that the base does not have |
| PromotionMeaning.PgnsAre | scripts/promote_intake.py:110-142 | exactly the ready layouts that are alone under a new number are added, and their files go |
| PromotionMeaning.NamesAre | scripts/promote_intake.py:145-185 | a name is added exactly if its folded form is not empty, not known and not that of an earlier one |
| PromotionMeaning.KnownIff | scripts/promote_intake.py:149-157 | which names are known at the start |
| PromotionMeaning.OthersRemoved | scripts/promote_intake.py:159-196 | which files of names and divergences go |
| PromotionLaws.RemovedIsAccounted | scripts/promote_intake.py:71-218 | a removed file is the origin of a new entry, or has only known names, or is a published divergence |
| PromotionLaws.RemovedIsPromotable | scripts/promote_intake.py:207-218 | every removed file is one of the promotable files, known before the run |
| PromotionLaws.VariantsStay | scripts/promote_intake.py:114-121 | layouts that share a PGN are never removed, so they never become promotable |
| PromotionLaws.SecondRunDoesNothing | scripts/promote_intake.py:207-218 | a second run adds nothing, removes nothing and drops no row |
| PromotionLaws.ListedKeptIff | scripts/promote_intake.py:199-204 | rows and files stay in correspondence if and only if exactly the rows of removed files carry a removed stem |
| PromotionLaws.StemsKeepStep | scripts/promote_intake.py:199-204 | it is enough that the rows of promotable files carry their stems, none used twice, and no other row carries one |

## Left out

- Real files, JSON encoding, fsync, lock calls, sleeping and hashing: files are byte sequences or values, a replacement is atomic, lock acquisition is one step, and a digest is taken as collision-free.
- A crash in the middle of one copy or write: a crash of the commit falls between two operations of `CommitCrash.CrashStates`. The operating system frees the lock then.
- Text classification by regular expressions (subject anchor, boilerplate prefixes, usable URLs of the harvest, similarity gate of the recovery, admission gates and slugs of the cause graph): pure function parameters. The quarantine criterion and the placeholder titles are phrase lists and are modelled.
- Unicode: white space and line separators are those of the scripts' language, but digits are ASCII digits, and lower and upper case are changed for ASCII letters only.
- Number lexemes of the YAML reader keep their text; conversion to machine numbers is not modelled.
- YAML values that the canonical layout cannot print (a null or a text with a colon after a dash, an empty list or mapping, a long text that a literal block does not hold), and other layouts of the same value: outside the round trip; the reader itself is modelled on all lines.
- Sorting of loop keys (external manifest rows, scan keys, candidate codes): results are stated for any order of the keys.
- The comparison of sorted texts is by code unit, as in `Sorting.StrLe`.
- Objects inside records are values here: two names for one list or one record (aliasing) cannot arise, and `_set_path`, which writes in place, is modelled as a function that rebuilds the path it changes.
- Routing of inputs by target database, placeholder and evidence filters of a t66 run, and its totals: plain branches before the merges modelled here.
- Removal of English payload keys from a record whose subject conflicts: the same record read again carries them again, and the gate refuses them again.
- Evidence, severity and statistics fields of a quarantine record, and its backup copies: derived from the block and never read back.
- The JSON reading of a quoted failure mode in a cause reference is a parameter of `CauseReferences.Sources`; the script would raise on text that is not JSON, the model then calls the reference unresolved.
- The seed graph and taxonomy of the cause graph: table lookups. The pattern that the harvest repair cuts off is a function parameter; the guard around it is modelled.
- The fallback from a record's verification status to its quality: the provenance of a merge holds whichever applies.
- Metadata counters, dates and provenance objects that promotion writes: constants of the entry.
- `_pgn_of_can_id`, `_dbc_pgn`, per-field schema checks, network code, reports and static tables: settled branch by branch, or easy members.
- DatabaseCommit.AllOrNothing: names the reported exceptions instead of excluding them, because the code has them; CommitReads.PromiseKeptIff says when the undocumented one cannot break the promise.
- Adapter.SlashedUrlRepeats: speaks of an entry that has not seen the URL; an entry that names the normal URL already is safe by J1939MergeLaws.TwiceIsOnceIff.
- PgnYamlReader.ItemLineCanBeDropped: gives one family of inputs for which a line is lost; PgnYamlStrict.LosslessIff says for all lines when none is.
- RecoveryLaws.OneRunIsEnough: holds for every batch; its converse RecoveryLaws.OneRunIff leaves out batches in which a row aims at a character of the text another row aims at, because such a row can raise and stop every run.
- MergeRestart.RestartConverges: asks that the files round-trip through their JSON form and that both databases may be merged twice, by the conditions of the second-pass laws.
- WriterLeavings.FailedWithoutTampering: asks that moves land what was staged and failed restores leave old or new bytes; a tampered merge may leave anything.
- DtcMergeBatch.DryRunAgrees: asks for distinct keys, which a caller can check; a batch with a repeated key may agree as well, when the repeated records give nothing.
- DtcMergeBatch.OrderFree: speaks of codes whose steps are populated; on an empty code the first record becomes the owner, which depends on the order by design.
- DtcMergeBatch.SecondPassChangesNothing: goes one way over a whole database; entry by entry DtcMergeLaws.SoundIff is exact.
- CauseReferences.CellResolvesIff: asks for a plain SPN key and a failure mode without semicolons; keys that break the list of references are treated in CauseGrammar.EmittedResolvesIff.
- WriterRuns.RepairCommits: is about a run that nothing disturbs, because only such a run must succeed; disturbed runs are classified by WriterProtocol.Serialisable and WriterLeavings.FailedRepairs.
- AdapterMeaning.HarvestIsStored: asks for a harvested list of steps and a code with steps, the case in which a further bundle is stored; AdapterMeaning.HarvestIsOwned is the case of a code without steps.
- RecoveryPaths.MergesElement: speaks of a list in a field of the record; RecoveryPaths.MergedTextStands covers paths of any depth.
