# Workspace API: a verified model of its hard core

The workspace API keeps a customer's data pipelines in two places at once: rows in
Postgres, edited in the Console, and files in a git repository on the customer's box,
edited by anybody with push access. This project models the protocol that keeps the two in
step and proves what it promises, together with credential key rotation and the small
stateful components around it.

`dafny verify dfyconfig.toml` checks everything (Dafny 4.11).

## What is modelled

**Reconciliation** (`Slugs`, `FileDrop`, `GitRepo`, `Mirror`, `Sync`, `Adopt`, `Saves`). The
state is a repository of sha-guarded files, the pipeline rows, the render bookkeeping, the
per-pipeline ownership flag and a notification log. The steps are converge (rows to files),
adopt (edited file to row), import (files to an empty database), Console saves with
compensation, and reclaiming a credential file. The environment is a schedule: before every
client call it may commit anything anywhere, and then perhaps be unreachable. Theorems marked
*undisturbed* start with an empty schedule; the others hold for every schedule.

- `Convergence`, `FixedPoint`, `Syncing`, `Notices`: what one undisturbed converge reaches from any state and reports, and that the next one does nothing.
- `Interleaving`, `Runs`, `Restoring`: what no schedule can make the mirror overwrite or delete, over whole runs, and the one that can.
- `Success`: what a reported success means under every schedule.
- `Adopting`, `Passes`, `Stalling`, `Settling`: what adopt passes do, exactly when they fail, and when they stop doing anything.
- `Importing`: which files become rows, and which rows.
- `Rebuild`: the database rebuilt from git.
- `Ownership`, `Reclaiming`: who owns a credential file, over whole runs and through failed saves.
- `Resurrection`: failed creates that come back.
- `Engine`: the class `PipelineMirror`, whose methods update repository and tables in place with the loops of the source, each proved equal to the specification function the theorems are about.

**Key rotation** (`Base64`, `Keyring`, `Retirement`, `Rewrap`). The envelope `enc:<id>:<payload>`,
its legacy form and plain text; the compare-and-swap sweep with user saves landing between any
two statements; and when the old keys can be destroyed. The cipher is idealised: opening
succeeds exactly under the sealing key.

**Components** (`RateLimiter`, `Broker`, `NotifyFrame`, `FingerprintInput`, `OAuth`, `Connections`).

## Where a promise needs a condition

The code is modelled as it is. Where a natural promise fails, a lemma gives the input and
another the exact condition.

- Slugs collide exactly when an unshared name spells out another pipeline's suffixed slug (`Slugs.SlugsDistinctIff`).
- A second adopt pass over an unchanged repository can still import (`Settling.SecondPassMayImport`); it is idle exactly when the first left nothing importable or foreign (`Settling.SecondPassIdleIff`). After a pass that is not blocked, the third is at rest unless the second is refused an import (`Settling.ThreePassesSettle`).
- A pass fails exactly when some file or edit cannot be stored: a name is held when its turn comes, or `source_config` is missing, which the parser leaves nil and the NOT NULL column refuses (`Stalling.PassFailsIff`). Every later pass then fails too (`Stalling.BlockedForever`): two files that exchange names (`Stalling.ExchangeStalls`), or an edit that empties a config (`Stalling.EmptiedConfigStalls`).
- A rebuild completes exactly when every rendered pipeline has a config (`Rebuild.RebuildRestoresRows`). A `sql_database` pipeline need not have one; it stops the rebuild for good, and the next sync deletes its definition (`Rebuild.StalledRebuildLoses`, `Rebuild.SoleDatabaseIsLost`).
- A failed create can come back with the next adopt pass (`Resurrection.ResurrectedIff`, `Resurrection.CutShortComesBack`).
- Adopting an edit drops the row's stored credentials, because the listing it starts from never loads them (`Settling.PassFate`).
- The header check before a delete is defeated by a file that goes from one blob to another and back (`Restoring.RestoredBlobIsDeleted`), and by nothing else (`Restoring.ConvergeDeletesUnmarkedIff`).
- A completed rebuild does not know that the box owned an upload's credential file, and exactly then the next converge writes one (`Rebuild.SyncAfterRebuildIdleIff`).
- A failed credential save restores the row but not the box's ownership (`Reclaiming.FailedUpdateOwnership`, `Reclaiming.FailedUpdateTakesFile`).
- A sweep column that meets an unreadable value reports 0 whatever it replaced (`Rewrap.ColumnCountIff`, `Rewrap.QuietCountIff`, `Rewrap.UncountedReplacement`).
- A connection reference and an embedded token are served differently to DuckDB sources when the recorded client is not the workspace's (`OAuth.ReferenceServesAsEmbeddedIff`).
- Changing a source type can leave a dangling connection reference (`Connections.UpdateIntegrity`, `Connections.TypeChangeDangles`).
- E-mails stored with outer white space fork a Google account into two connections (`Connections.ConnectUniqueIff`, `Connections.UntrimmedEmailForks`).

## Modelling choices

- A blob sha is modelled by the blob itself: shas name contents and never collide.
- Every encryption to the box draws a new nonce, so two ciphertexts are never equal.
- YAML and JSON are datatypes with a lossless codec; a file that does not decode is `Junk`.
- Source validation, serve-time credential shape, connection lookup and random draws are parameters, fixed for a run.
- A client call either takes effect or fails; single database statements are atomic and succeed unless a constraint refuses them. Modelled constraints are the keys, unique names, NOT NULL `source_config` and the uuid column, which does not read the `urn:uuid:` spelling.
- Clock readings are parameters, in lock order.
- One workspace is modelled, so tenant columns are absent outside the broker.

## Model

| member | source | states |
|---|---|---|
| `Convergence.ConvergeReachesPlan` | workspace/pipelinemirror.go:567-593 | From any repository and any bookkeeping, an undisturbed converge succeeds; every desired definition path holds exactly its render, every other definition file carrying the header is gone and every one without it is untouched; unplanned credential files are gone, current or box-owned ones untouched, the rest freshly encrypted to the recipient; nothing else changes |
| `Convergence.ConvergeKeepsBooks` | workspace/pipelinemirror.go:567-593 | The same converge records every tracked render, changes rows only by raising the ownership flag, and keeps the credential row of every file it left alone |
| `Convergence.UpsertFileQuiet` | workspace/pipelinemirror.go:811-855 | One definition turn leaves exactly the render at its path and every other path alone, and records the render when the bookkeeping row was fresh, whether it wrote, re-adopted an identical file or only skipped; its notice is `Notices.UpsertFileNotifies` |
| `Convergence.DeleteStaleRenderedQuiet` | workspace/pipelinemirror.go:653-672 | Over any list of paths, exactly the undesired files that open with the header disappear |
| `Convergence.StaleGoesIff` | workspace/pipelinemirror.go:653-672 | So an unwanted definition file goes if and only if it is marked as rendered, whether it still decodes or not |
| `Convergence.UpsertCredentialFileQuiet` | workspace/pipelinemirror.go:680-735 | One credential turn either keeps the file (external, current or foreign) with its credential row, or replaces it by a ciphertext of the plan's plaintext and records fingerprint and sha; a foreign blob makes the pipeline external |
| `Notices.UpsertFileNotifies` | workspace/pipelinemirror.go:811-843 | That definition turn appends exactly one drift notice when the file it replaces is tracked there and holds neither the recorded nor the desired blob, and none otherwise |
| `Notices.UpsertFilesNotify` | workspace/pipelinemirror.go:567-593 | Over the definition loop: one drift notice per such file, in path order, and nothing else |
| `Notices.UpsertCredentialNotifies` | workspace/pipelinemirror.go:719-764 | A credential turn appends exactly one ownership notice when a stored pipeline's tracked file turns out to hold a foreign blob, and none otherwise |
| `Notices.ConvergeNotifies` | workspace/pipelinemirror.go:567-764 | An undisturbed converge appends exactly the drift notices in path order, then the ownership notices in path order |
| `Notices.ConvergeSilentIff` | workspace/pipelinemirror.go:567-764 | It is silent if and only if no wanted definition was edited over and no stored pipeline's credential file was taken over |
| `Notices.UnwiredReportsNoDrift` | workspace/pipelinemirror.go:857-870 | Without the drift store an undisturbed sync reports ownership changes only |
| `FixedPoint.SettledIsFixedPoint` | workspace/pipelinemirror.go:567-713 | In a settled state a converge makes no put and no delete and changes no row, although ciphertexts are never equal twice |
| `FixedPoint.ConvergeSettles` | workspace/pipelinemirror.go:567-713 | One undisturbed converge over fresh rows reaches a settled state for the plan recomputed afterwards |
| `Syncing.PlanIsWellFormed` | workspace/pipelinemirror.go:139-203 | The plan built from any renderable pipeline list has definition and credential files on disjoint path shapes, one owner per credential file |
| `Syncing.RenderedIff` | workspace/pipelinemirror.go:215-262 | A row is rendered if and only if it is no upload, or the storage is complete and its config is well-formed and lists a file; anything but an upload is rendered with every stored column |
| `Syncing.CredentialFilesLeft` | workspace/pipelinemirror.go:262-310 | An undisturbed sync leaves every credential file alone while age is not wired, none while no key is deposited, and otherwise only those of rendered pipelines |
| `Syncing.PlanIsFresh` | workspace/pipelinemirror.go:344-354 | The rows a sync reads are the rows its converge decides by |
| `Syncing.SlugByName` | workspace/pipelinemirror.go:932-947 | A file slug is a function of ids and names alone: no other column moves a file |
| `Syncing.SyncEvolves` | workspace/pipelinemirror.go:139-203 | Whatever the schedule of foreign commits and outages, a sync only raises ownership flags and writes render rows; it never creates, deletes or edits a pipeline row |
| `Syncing.PlanRefreshed` | workspace/pipelinemirror.go:139-310 | The plan made from the books a converge leaves asks for the same files, with ownership raised exactly where the converge raised it |
| `Syncing.SyncIsOneConverge` | workspace/pipelinemirror.go:139-203 | With no interference a sync succeeds if and only if every listed config renders, and then equals one converge (the conflict retry is not taken) |
| `Syncing.SyncIsFixedPoint` | workspace/pipelinemirror.go:139-203 | After a successful undisturbed sync, a second one makes no put and no delete and changes no row |
| `Syncing.ConflictIsRetried` | workspace/pipelinemirror.go:185-198 | Under any schedule a sync is its first converge unless that one met a moved sha; then, if nothing more interferes, the second from the same plan succeeds and reaches every definition file of the plan |
| `GitRepo.ArriveNeverRestores` | workspace/boxrepo.go:121-129 | While nobody brings an old blob back, a path that moved on from a blob never holds it again, so a sha guard that matches proves nobody committed in between |
| `GitRepo.ArriveElsewhere` | workspace/boxrepo.go:121-129 | Foreign commits that avoid a path leave it alone |
| `Interleaving.ConvergeSound` | workspace/pipelinemirror.go:567-713 | With any foreign commits and outages between any two client calls and no blob reused, every put replaces exactly the blob the mirror last saw at that path with no later commit, every create lands where the listing had nothing, and every deleted definition carried the header |
| `Interleaving.SyncSound` | workspace/pipelinemirror.go:185-198 | The same over a whole sync, including its second converge from the old snapshot after a conflict |
| `Interleaving.AdoptSound` | workspace/pipelinemirror_adopt.go:36-74 | The same over an adopt pass, from any books |
| `Success.ConvergeWorks` | workspace/pipelinemirror.go:567-735 | Under every schedule a converge that succeeds has listed a tree, then read or written every wanted definition, deleted every other listed one or read it without the header, and written, found current or left to the box every wanted credential file and deleted the rest: no refused call is reported as success |
| `Success.SyncWorks` | workspace/pipelinemirror.go:139-203 | So has a successful sync, in its first or its second converge |
| `Success.PassWorks` | workspace/pipelinemirror_adopt.go:36-195 | Under every schedule an adopt pass that succeeds has read every untracked definition of the tree it listed, and recorded or marked refused every pending edit in it |
| `Runs.RunSound` | workspace/pipelinemirror.go:653-672 | Over every run of syncs, adopt passes and arbitrary Console changes, every write is justified in that sense: later commits are never overwritten |
| `Runs.HeaderlessSurvives` | workspace/pipelinemirror.go:653-672 | A definition file without the header, at a path no sync of the run wants and nobody else commits to, is there unchanged after every run, whatever is committed elsewhere |
| `Runs.ElsewhereSurvives` | workspace/pipelinemirror.go:595-612 | Whatever is not a .yaml or .credentials.age file under pipelines/, and nobody else commits to, is there unchanged after every run |
| `Restoring.StaleTurnIff` | workspace/pipelinemirror.go:653-672 | Under any schedule a stale turn deletes a headerless definition if and only if the listed blob has no header, the file has one when it is read, and it holds the listed blob again when it is deleted |
| `Restoring.ConvergeDeletesUnmarkedIff` | workspace/pipelinemirror.go:567-672 | A whole converge deletes a headerless definition if and only if one of its stale turns is fooled so |
| `Restoring.RestoredBlobIsDeleted` | workspace/pipelinemirror.go:567-672 | Such a schedule: a file taken from A to B and back to A loses A in one converge although A has no header |
| `Restoring.FooledIsUnclean` | workspace/boxrepo.go:121-129 | Only a commit that brings an old blob back can do that |
| `Adopting.AdoptOnlyReads` | workspace/pipelinemirror_adopt.go:36-74 | Under any schedule an adopt pass commits nothing |
| `Adopting.AdoptKeepsTable` | workspace/pipelinemirror_adopt.go:36-74 | It keeps primary keys and names unique and render rows attached to rows |
| `Adopting.AdoptDefinitionQuiet` | workspace/pipelinemirror_adopt.go:104-195 | One tracked definition: a foreign blob not yet refused is adopted (row takes the file's fields, blob recorded) or refused (row kept, blob marked), with exactly its notification; other pipelines are untouched; it fails exactly when the edit is well-formed but has no config (a NOT NULL column) or a held name, and then changes nothing |
| `Adopting.AdoptDefinitionsNotify` | workspace/pipelinemirror_adopt.go:104-212 | A completed phase appends exactly one notification per pending edit, in list order |
| `Adopting.AdoptDefinitionsAt` | workspace/pipelinemirror_adopt.go:104-195 | Every listed pipeline meets the fate its own file decides, whatever happened to the ones before it |
| `Adopting.ImportFileQuiet` | workspace/pipelinemirror_import.go:77-145 | A file is skipped exactly when it does not parse as importable against the ids and names taken so far (`Importing.ReadsAsRow` says which do), ends the batch exactly when the table refuses what it parses to, and otherwise becomes a row under its own id, external exactly when a credential file sits beside it |
| `Adopting.ImportFilesExhaust` | workspace/pipelinemirror_import.go:45-73 | After a batch that nothing stops, every untracked path is tracked or no longer importable |
| `Importing.ReadsAsRow` | workspace/pipelinemirror_import.go:111-145 | A file reads as a row the table takes if and only if it decodes, with the header or without, and has a free id spelled as the uuid column reads it, a free non-empty name and a config that is there and valid; the row has the fields of the file and no credentials, a filesystem source over its own upload prefix being the upload it came from |
| `Importing.ClashIsSkipped` | workspace/pipelinemirror_import.go:94-101 | Whatever the batch takes for free, a file whose id or name some row holds is skipped and does not end it |
| `Importing.NewRowsComeFromFiles` | workspace/pipelinemirror_import.go:45-108 | Whatever an undisturbed adopt pass gains, failed or not, is the row of some untracked file, tracked at that file, external exactly when a credential file sits beside it |
| `Importing.LoneFileImportedIff` | workspace/pipelinemirror_import.go:45-145 | With one untracked file, the pass gains exactly its row if the file is admissible, and no row at all if it is not |
| `Adopting.ImportFilesStopIff` | postgres/import.go:18-39 | A batch ends early if and only if some file, read against what the rows and the files before it leave free, is a pipeline the table refuses (no source_config, or an id the uuid column cannot read) |
| `Adopting.ImportFilesStuck` | workspace/pipelinemirror_import.go:45-73 | When it ends early, the file it stopped at still reads as refused, and everything before it is tracked or not importable |
| `Adopting.FirstDecides` | workspace/pipelinemirror_import.go:45-73 | With something importable, the first importable path becomes a row, or ends the batch with nothing changed |
| `Passes.ImportPhase` | workspace/pipelinemirror_import.go:45-73 | The import phase fails exactly where it is blocked; whatever it did until then hydrates rows from listed files and changes nothing else; completed, it leaves nothing importable |
| `Passes.AdoptPhase` | workspace/pipelinemirror_adopt.go:36-74 | The adopt phase, when it completes, leaves no pending edit and exactly the notifications those edits earn |
| `Passes.FlagPhase` | workspace/pipelinemirror_adopt.go:218-245 | The flag phase changes nothing but ownership |
| `Settling.AdoptIdleIff` | workspace/pipelinemirror_adopt.go:36-74 | A pass does nothing at all if and only if nothing is importable, pending or foreign |
| `Passes.PassImports` | workspace/pipelinemirror_import.go:45-73 | The first importable path decides a pass: its pipeline becomes a row, or the table refuses it and the pass ends with nothing done |
| `Settling.PassSettlesDefinitions` | workspace/pipelinemirror_adopt.go:36-74 | After a pass that is not blocked no edit is pending |
| `Settling.PassSettlesImports` | workspace/pipelinemirror_adopt.go:36-74 | With nothing pending a pass completes if and only if no import is refused, and then leaves nothing importable |
| `Settling.PassSettlesFlags` | workspace/pipelinemirror_adopt.go:218-245 | With nothing pending or importable, one pass reaches the settled state |
| `Settling.ThreePassesSettle` | workspace/pipelinemirror_adopt.go:36-74 | After a pass that is not blocked, the second fails exactly if an import is refused; if it completes, the third reaches rest; without an importer the second does |
| `Settling.SecondPassIdleIff` | workspace/pipelinemirror_adopt.go:36-74 | After a pass that is not blocked, a second one does nothing if and only if the first left nothing importable and nothing foreign |
| `Settling.SecondPassIdle` | workspace/pipelinemirror_adopt.go:36-74 | So it does nothing whenever the first pass neither imported nor renamed a pipeline |
| `Settling.SecondPassMayImport` | workspace/pipelinemirror_adopt.go:36-74 | It is not always idle: adopting a rename frees a name, and a file skipped for that name is met again by the second pass, which gains its row, or stalls if the file has no config |
| `Settling.PassFate` | workspace/pipelinemirror_adopt.go:104-166 | If a pass is not blocked, every pipeline known before it is left alone, holds its file's fields (and has lost its stored credentials, which the listing never loads) with the blob recorded, or keeps its row with the blob marked refused; the file alone decides which |
| `Settling.PassNotifiesOnce` | workspace/pipelinemirror_adopt.go:170-212 | A pass that is not blocked appends one notification per pending edit in list order, then one per foreign credential file in list order, and nothing else |
| `Settling.PassFlagsIff` | workspace/pipelinemirror_adopt.go:218-245 | A pass that is not blocked makes a pipeline external if and only if its tracked credential file holds another blob than the recorded one; it never takes one back |
| `Stalling.PassFailsIff` | workspace/pipelinemirror_adopt.go:36-136 | Decided from rows and files alone: an undisturbed pass fails if and only if some untracked file reads as a pipeline the table refuses, or some pending well-formed edit has no config or takes a name that an imported pipeline, or another listed one after the turns before it, then holds |
| `Stalling.FailedPassFailsAgain` | workspace/pipelinemirror_adopt.go:36-136 | A failed pass is followed by a failed pass, whether it failed importing or adopting |
| `Stalling.BlockedForever` | workspace/pipelinemirror_adopt.go:36-136 | Once a pass is blocked, every later pass over the repository is refused too |
| `Stalling.ExchangeStalls` | workspace/pipelinemirror_adopt.go:104-136 | Two tracked files that exchange names in one commit, each a valid edit, stall adoption for good |
| `Stalling.EmptiedConfigStalls` | postgres/pipeline.go:154-177 | So does an edit that removes the config of a source type that needs none |
| `Rebuild.SyncIntoEmpty` | workspace/pipelinemirror.go:567-593 | A sync into an empty repository writes exactly one definition per rendered pipeline, and a credential file exactly for those that have one to write |
| `Rebuild.StorableIff` | postgres/migrations/000001_workspace.up.sql:26 | A rendered pipeline reads back as a row the table takes if and only if its config is not empty |
| `Rebuild.HydrateEmpty` | workspace/pipelinemirror_import.go:45-145 | Importing such a repository into an empty database completes exactly when every rendered pipeline has a config; until it stops it makes one row per file, tracked at that file, and completed one per pipeline |
| `Rebuild.ReadBackIsNormal` | workspace/pipelinemirror.go:443-462 | Rendering, parsing and restoring a pipeline is the identity on its definition fields up to the stated normal form, for plain and for upload sources |
| `Rebuild.RebuildRestoresRows` | workspace/pipelinemirror_import.go:45-145 | Rebuild from git, converge into an empty repository and adopt into an empty database, completes if and only if every rendered pipeline has a config; then exactly the rendered pipelines come back under their own ids with every definition field, and however far it gets the rows there are restored; credentials are empty, and a pipeline is external exactly when its credential file was written |
| `Rebuild.StalledRebuildLoses` | workspace/pipelinemirror_import.go:45-108 | With a rendered pipeline that has no config, no repetition of the rebuild completes, and the next sync from the rows it got deletes that pipeline's definition file |
| `Rebuild.SoleDatabaseIsLost` | workspace/pipeline_schema.go:190-193 | Such an input: a sql_database pipeline with config {}, as the Console stores it |
| `Rebuild.SlugByNameSet` | workspace/pipelinemirror.go:932-947 | Slugs depend on the list only through its set of ids and names, so the rebuilt order moves no file |
| `Rebuild.SyncAfterRebuildIdleIff` | workspace/pipelinemirror.go:567-593 | The sync after a completed rebuild succeeds, and commits and changes nothing if and only if no rendered upload's credential file belonged to the box before |
| `Ownership.ConvergeRespects` | workspace/pipelinemirror.go:680-764 | Under any schedule a converge never writes an external credential file, overwrites a tracked one only while it is the recorded blob, and deletes only credential files no pipeline renders |
| `Ownership.SyncLeavesExternal` | workspace/pipelinemirror.go:680-764 | Under any schedule a sync, retry included, writes nothing at an external pipeline's credential path and leaves it external |
| `Ownership.ExternalStaysUnwritten` | workspace/pipelinemirror.go:680-764 | Over every run in which the path is kept and no Console step reclaims it, the pipeline stays external and its file unwritten, whatever others commit |
| `Ownership.SyncHandsOver` | workspace/pipelinemirror.go:719-764 | A tracked credential file holding another blob than the recorded one is left as it is, and its pipeline turns external |
| `Ownership.ReclaimTakesBack` | workspace/pipeline.go:419-447 | After a reclaim the next sync replaces the file by an encryption of the stored credential, or deletes it if that was cleared |
| `Saves.FailedCreateRestoresRows` | workspace/pipeline.go:171-242 | However many writes the converge got through, a failed create leaves every row and the order as before, up to raised ownership flags |
| `Saves.FailedUpdateRestoresRows` | workspace/pipeline.go:375-429 | A failed update likewise |
| `Saves.FailedSaveRestoresRows` | workspace/pipeline.go:233-242 | Either save: a failure restores every column that updates write |
| `Saves.FailedSaveHeals` | workspace/pipeline.go:233-242 | After a failed save one undisturbed sync, from any repository, reaches the definition files of the rows before the save, with no header-bearing extra |
| `Saves.UpdateRefusedIff` | workspace/pipeline.go:375-409 | An update is refused, with nothing changed, if and only if it clears and sends credentials at once, the row is missing, the config is invalid or missing, or another row has the name |
| `Saves.CreateRefusedIff` | workspace/pipeline.go:171-206 | A create is refused, with nothing changed, if and only if the config is invalid or missing, or the id or name is there |
| `Saves.AcceptedEndsAsConverged` | workspace/pipeline.go:233-242 | A save that is not refused ends as its sync does, in the repository that sync leaves, for every schedule |
| `Saves.UpdatedRow` | workspace/pipeline.go:457-470 | The row written has every sent column, and as credentials none if cleared, those sent if any, else those stored before |
| `Saves.UpdateStores` | workspace/pipeline.go:375-429 | A successful update ends with that row, whatever the schedule, and changes no other beyond ownership flags |
| `Saves.CreateStores` | workspace/pipeline.go:171-242 | A successful create ends with the sent row under its id, listed last, box-ownership aside, and changes no other beyond ownership flags |
| `Reclaiming.SyncKeepsFlag` | workspace/pipelinemirror.go:680-764 | Under any schedule a sync never hands over a pipeline it had no credential row for, and leaves its credential row truthful about the blob it names |
| `Reclaiming.UpdatedOwnership` | workspace/pipeline.go:419-447 | An accepted update lowers the flag and drops the credential row if and only if it touches the credentials of an external pipeline and ownership is wired |
| `Reclaiming.FailedUpdateOwnership` | workspace/pipeline.go:419-447 | After whatever part of the converge went through, a failed update of a pipeline whose file the box owned leaves it box-owned if and only if the save was refused or touched no credentials: compensation restores the row but not the ownership |
| `Reclaiming.SyncOwned` | workspace/pipelinemirror.go:680-735 | One undisturbed sync on a Console-owned pipeline: no credential, no file; a blob other than the recorded one goes to the box; otherwise the file is an encryption of the credential as served |
| `Reclaiming.FailedUpdateTakesFile` | workspace/pipeline.go:419-447 | So after any failed update that touched credentials, even one that had written the new ciphertext and its row, the next sync from any repository puts the credential from before the save in the box's file (storage credentials for an upload), or deletes the file if there was none, unless somebody committed over what the failed save wrote |
| `Reclaiming.SaveTakesBack` | workspace/pipeline.go:419-447 | An undisturbed credential save over a box-owned file succeeds and puts what was saved in the file, or deletes it when cleared |
| `Reclaiming.OwnedFileSaved` | workspace/pipeline.go:375-470 | An undisturbed update of a Console-owned pipeline leaves in the file the credential its row is left with, or no file without one; a commit somebody else made there hands it to the box whatever was sent |
| `Reclaiming.UntouchedCredentialStays` | workspace/pipeline.go:419-470 | An undisturbed update that sends no credentials keeps what was there: a box-owned file is not written, a file the box took over is handed over, and otherwise the file carries the credential stored before, or is absent if there was none |
| `Reclaiming.ExternalUntouched` | workspace/pipelinemirror.go:680-735 | An undisturbed sync leaves the credential file of an external pipeline as it is, present or absent |
| `Reclaiming.OwnershipCycle` | workspace/pipelinemirror.go:680-764 | The whole cycle: handover, any run without reclaim under any schedule, then a Console update on the rows that run ends with; the saved credential is in the file, or the file is gone |
| `Resurrection.PassImportsIff` | workspace/pipelinemirror_import.go:45-108 | A pass gains a row with a given id if and only if, in path order, a file with that id is reached before anything stops the batch |
| `Resurrection.ResurrectedIff` | workspace/pipeline.go:233-242 | A failed create is back after an undisturbed adopt pass, over any repository, if and only if a file with its id is so reached |
| `Resurrection.LeftoverResurrectedIff` | workspace/pipeline.go:171-242 | If its own definition is the only untracked file, that is exactly when the definition is acceptable by itself |
| `Resurrection.CutShortComesBack` | workspace/pipeline.go:171-242 | Such an input: a create cut short between its definition and its credential file fails, and the next pass brings it back |
| `Slugs.NameFileSlug` | workspace/pipelinemirror.go:1003-1017 | The character loop computes the lower-cased alphanumeric words of the name joined by single dashes |
| `Slugs.NameSlugFixedPoint` | workspace/pipelinemirror.go:1003-1017 | Every slug has no leading, trailing or doubled dash and is a fixed point of slugging |
| `Slugs.SlugOfWord` | workspace/pipelinemirror.go:1003-1017 | The slug of a name of letters and digits is that name in lower case |
| `Slugs.SlugAround` | workspace/pipelinemirror.go:1003-1017 | and any other character separates: the slugs of both sides, with a dash between them if neither is empty; the two laws determine every slug |
| `Slugs.FileSlugSpelled` | workspace/pipelinemirror.go:932-1024 | A file slug is the slug of the name, or the first eight characters of the id if that is empty, with those characters appended exactly when another pipeline has the same base |
| `Slugs.CountBases` | workspace/pipelinemirror.go:932-947 | The counting loop holds, for every string, how many pipelines have it as base slug |
| `Slugs.SuffixShared` | workspace/pipelinemirror.go:932-947 | A count above one means some other pipeline shares the base, and exactly those slugs get a short id |
| `Slugs.PipelineFileSlugs` | workspace/pipelinemirror.go:932-947 | The two loops give every listed pipeline the order-free reference slug, and nothing else |
| `Slugs.SlugsIgnoreOrder` | workspace/pipelinemirror.go:932-947 | Reordering the list moves no file |
| `Slugs.CollisionIff` | workspace/pipelinemirror.go:932-947 | With distinct 8-character short ids two pipelines share a slug if and only if one's unshared base spells out the other's suffixed slug |
| `Slugs.SlugsDistinctIff` | workspace/pipelinemirror.go:994-1024 | All slugs are distinct if and only if no pipeline does that |
| `Slugs.SlugsDistinctWhen` | workspace/pipelinemirror.go:994-1024 | In particular when no base slug equals another pipeline's base plus dash plus short id |
| `FileDrop.BucketUrlEndsInPrefix` | workspace/filedrop.go:140-142 | For every storage config, after path cleaning, the bucket URL of a pipeline ends in its own upload prefix |
| `FileDrop.ResolveFileUploadPipeline` | workspace/filedrop.go:372-409 | The in-place rewrite loop computes the reference resolution, and drops what has nothing to load |
| `FileDrop.ResolvesIff` | workspace/filedrop.go:348-388 | An upload has a filesystem form if and only if its stored config is well-formed and lists a file |
| `FileDrop.ResolvedPipeline` | workspace/filedrop.go:372-409 | A resolved upload is a filesystem source at its upload prefix with one entry per file and exactly the four storage credentials, each in its own member; every other column is as stored |
| `FileDrop.BucketUrlSpelled` | workspace/filedrop.go:140-142 | With plain path elements the uploads lie at s3://bucket/prefix/uploads/id/ |
| `FileDrop.BucketUrlUnprefixed` | workspace/filedrop.go:140-142 | and without a key prefix at s3://bucket/uploads/id/ |
| `FileDrop.RestoreFileUpload` | workspace/pipelinemirror_import.go:158-182 | The restoring loop computes the reference restoration |
| `FileDrop.RestoreUndoesResolve` | workspace/pipelinemirror_import.go:158-182 | For every storage config, restoring a resolved upload gives back source type and the ordered (table, file) list |
| `FileDrop.ResolveAfterRestore` | workspace/filedrop.go:372-409 | Resolving the restored pipeline gives the very form it was restored from |
| `FileDrop.RestoreChangesOnlyOwnUploads` | workspace/pipelinemirror_import.go:158-182 | Restoration changes a pipeline if and only if it is a filesystem source whose config decodes and whose bucket URL ends in its own upload prefix, and then makes it the upload that lists its tables in order, each with name and file, every other column kept |
| `Basics.SortedPaths` | workspace/pipelinemirror.go:1026-1033 | The keys in ascending order, each once |
| `Engine.PipelineMirror.constructor` | workspace/pipelinemirror.go:44-107 | Starts from the given deployment and world |
| `Engine.PipelineMirror.ListTree` | workspace/boxrepo.go:119 | Unless the box is down, every path with exactly the blob it holds, and no path more |
| `Engine.PipelineMirror.GetContents` | workspace/boxrepo.go:120 | Unless the box is down, the blob the path holds at that moment, or not found exactly when it holds none |
| `Engine.PipelineMirror.PutContents` | workspace/boxrepo.go:121-125 | Succeeds if and only if the box is up and the path holds exactly the guarded blob (nothing, for a create), and then changes that path alone; refused, it leaves every file as others left it |
| `Engine.PipelineMirror.DeleteContents` | workspace/boxrepo.go:126-129 | Succeeds if and only if the box is up and the path holds exactly the guarded blob, and then removes that path alone; refused, it leaves every file as others left it |
| `Engine.PipelineMirror.RecordDefinitionRender` | postgres/pipeline_definition_renders.go:13-27 | Recording a render clears the refused mark |
| `Engine.PipelineMirror.MarkCredentialsExternal` | workspace/pipelinemirror.go:740-764 | Raises the flag of that pipeline and notifies |
| `Engine.PipelineMirror.UpsertFile` | workspace/pipelinemirror.go:811-855 | In-place updates reach the state of the specification step of `Convergence.UpsertFileQuiet`, `Notices.UpsertFileNotifies` and `Interleaving` |
| `Engine.PipelineMirror.UpsertFiles` | workspace/pipelinemirror.go:567-593 | The loop over sorted paths stops at the first failure, in the state the specification gives |
| `Engine.PipelineMirror.DeleteIfRendered` | workspace/pipelinemirror.go:653-672 | Reads again, and deletes under the listed sha only if the header is still there |
| `Engine.PipelineMirror.DeleteStaleRendered` | workspace/pipelinemirror.go:653-672 | The deletion loop refines its specification under every schedule |
| `Engine.PipelineMirror.UpsertCredentialFile` | workspace/pipelinemirror.go:680-735 | In-place updates reach the specified repository, flag, credential row and nonce |
| `Engine.PipelineMirror.UpsertCredentialFiles` | workspace/pipelinemirror.go:567-593 | The credential loop refines its specification under every schedule |
| `Engine.PipelineMirror.DeleteStale` | workspace/pipelinemirror.go:617-629 | The credential deletion loop refines its specification under every schedule |
| `Engine.PipelineMirror.ConvergeCredentialFiles` | workspace/pipelinemirror.go:567-593 | Credential half of the converge, from the listing taken at its start |
| `Engine.PipelineMirror.Converge` | workspace/pipelinemirror.go:567-593 | The mutating converge ends in exactly the world of the specification all converge theorems are about |
| `Engine.PipelineMirror.ListPipelines` | postgres/pipeline.go:80-121 | Rows in creation order, without credentials |
| `Engine.PipelineMirror.ResolveFileUploads` | workspace/pipelinemirror.go:215-241 | The filtering loop keeps order, rewrites uploads and drops the unloadable |
| `Engine.PipelineMirror.RenderPipelineFiles` | workspace/pipelinemirror.go:957-990 | One file per pipeline at its slug, or nothing when some config does not render |
| `Engine.PipelineMirror.BuildCredentialFiles` | workspace/pipelinemirror.go:268-310 | One entry per external pipeline or non-empty credential |
| `Engine.PipelineMirror.SyncCustomer` | workspace/pipelinemirror.go:139-203 | The mutating sync, with its single retry on a conflict, ends in exactly the world of the specification |
| `Engine.PipelineMirror.UpdateRow` | postgres/pipeline.go:154-177 | Writes every column but the ownership flag, or refuses a missing row, a missing config or a taken name unchanged |
| `Engine.PipelineMirror.AdoptDefinition` | workspace/pipelinemirror_adopt.go:104-195 | In-place updates reach the state of the specification step |
| `Engine.PipelineMirror.AdoptDefinitions` | workspace/pipelinemirror_adopt.go:36-74 | The loop stops at the first failure, in the state the specification gives |
| `Engine.PipelineMirror.ImportFile` | workspace/pipelinemirror_import.go:77-108 | Row, render row and taken sets as specified by the step of `Adopting.ImportFileQuiet` and `Importing.ReadsAsRow`; a clash skips, any other refused insert fails |
| `Engine.PipelineMirror.ImportFiles` | workspace/pipelinemirror_import.go:45-73 | The import loop carries the taken sets through the batch as specified |
| `Engine.PipelineMirror.ImportUnrendered` | workspace/pipelinemirror_import.go:45-73 | Imports from the untracked paths only, and only with an importer |
| `Engine.PipelineMirror.FlagForeignCredentialFiles` | workspace/pipelinemirror_adopt.go:218-245 | The flag loop raises exactly the flags of foreign tracked files, by the slugs of the full list |
| `Engine.PipelineMirror.AdoptCustomer` | workspace/pipelinemirror_adopt.go:36-74 | The mutating pass ends in exactly the world of the specification all adopt theorems are about |
| `Engine.PipelineMirror.Reclaim` | workspace/pipeline.go:436-447 | Lowers the flag and forgets the credential row |
| `Engine.PipelineMirror.UpdatePipeline` | workspace/pipeline.go:375-409 | Checks, row write, reclaim, commit or compensation as the specification of `Saves.UpdateStores`, `Saves.UpdateRefusedIff` and `Reclaiming` |
| `Engine.PipelineMirror.CommitOrRestore` | workspace/pipeline.go:419-429 | A failed sync writes the old row back |
| `Engine.PipelineMirror.CreatePipeline` | workspace/pipeline.go:171-206 | Checks, row write, commit or compensation as the specification of `Saves.CreateStores` and `Saves.CreateRefusedIff` |
| `Engine.PipelineMirror.CommitOrDrop` | workspace/pipeline.go:233-242 | A failed sync deletes the new row |
| `Base64.EncodeInAlphabet` | crypto/credentials.go:150-158 | The payload holds only characters of the alphabet of section 4 of RFC 4648, so never a colon |
| `Base64.RoundTrip` | crypto/credentials.go:150-189 | Decoding an encoding gives back every byte string |
| `Keyring.TransparentIsIdeal` | crypto/credentials.go:213-219 | The idealised cipher laws assumed below hold of a concrete model, so they are consistent |
| `Keyring.RotationIsPossible` | crypto/credentials.go:81-106 | and that model has valid rings of two keys, so rotations exist under the laws |
| `Keyring.NewKeyring` | crypto/credentials.go:81-106 | The loop accepts a key list if and only if every key is usable and no two share an id; the ring then holds exactly those keys in order, primary first, and the id index agrees with the order |
| `Keyring.SplitTagged` | crypto/credentials.go:193-198 | Printing an envelope and splitting it agree for any id without a colon |
| `Keyring.TryEveryKey` | crypto/credentials.go:202-210 | The loop returns the plaintext of the first key in order that opens the data |
| `Keyring.DecryptsEncrypted` | crypto/credentials.go:150-189 | What one ring encrypts, every ring that kept its primary key decrypts |
| `Keyring.DecryptsLegacy` | crypto/credentials.go:162-210 | A legacy value decrypts, under any ring that still holds its key in any position, to what was encrypted; the other branches are `DecryptsPlain`, `DecryptRefuses`, `FirstKeyDecides` |
| `Keyring.DecryptsPlain` | crypto/credentials.go:162-170 | A stored value that does not open with the envelope prefix is its own plaintext, under every ring |
| `Keyring.DecryptRefuses` | crypto/credentials.go:162-198 | A tagged value opens only under the key its id names; an unknown id, a payload that is not base64 or one shorter than a nonce is refused, whatever other keys would open it |
| `Keyring.FirstKeyDecides` | crypto/credentials.go:202-210 | A payload without id is refused exactly when no key opens it, and otherwise reads as under the first key in order that does |
| `Retirement.RetirementIff` | postgres/rewrap.go:221-267 | A value that is not stale reads the same under the primary key alone; a readable value does so if and only if it is not stale or is untagged under the primary key |
| `Retirement.EncryptIsFresh` | postgres/rewrap.go:221-223 | Nothing that is encrypted is stale |
| `Retirement.PreviousKeyIsStale` | postgres/rewrap.go:221-223 | Every value written under a previous key, tagged or legacy, is stale |
| `Rewrap.RingCipherLawful` | postgres/rewrap.go:128-169 | A valid ring over the idealised cipher satisfies the laws the sweep theorems use |
| `Rewrap.ApplyRewrapFaithful` | postgres/rewrap.go:128-169 | Under any interleaved saves, the compare-and-swap loop keeps every row decrypting to its last saved value, also when it stops early |
| `Rewrap.SweepFaithful` | postgres/rewrap.go:79-98 | The same over the whole sweep |
| `Rewrap.SweepEmptiesColumns` | postgres/rewrap.go:79-123 | A completed sweep leaves no stale value in any listed column, whatever was saved meanwhile |
| `Rewrap.ApplyRewrapEnds` | postgres/rewrap.go:128-169 | The loop completes if and only if every value it queued decrypts |
| `Rewrap.SweepEnds` | postgres/rewrap.go:79-98 | If the ring reads every row, no interleaving makes the sweep fail |
| `Rewrap.ColumnCountIff` | postgres/rewrap.go:117-169 | From the store and the saves alone: a column's count is the number of rows it replaced if and only if every queued value can be read, or every row queued before the first unreadable one is saved by a user before its turn |
| `Rewrap.QuietCountIff` | postgres/rewrap.go:117-169 | While nobody saves, it is wrong exactly when some stale value cannot be read and the first one scanned can |
| `Rewrap.SweepCounts` | postgres/rewrap.go:79-98 | A completed sweep returns exactly the number of rows replaced; a failed one never more |
| `Rewrap.StoppedSweepCounts` | postgres/rewrap.go:79-98 | A stopped sweep returns exactly what it had replaced before the column it stopped at |
| `Rewrap.UncountedReplacement` | postgres/rewrap.go:117-169 | Such a column: two stored stale values of which only the first can be read; the sweep replaces it and reports 0 |
| `Rewrap.RerunFindsNothing` | postgres/rewrap.go:79-98 | Over columns without stale values a sweep replaces nothing and returns 0 |
| `Rewrap.FreshRowStays` | postgres/rewrap.go:128-205 | A row that is not stale and that nobody saves is not touched by any sweep, completed or stopped, under any schedule |
| `Rewrap.PlainRowStays` | postgres/rewrap.go:174-205 | In particular a plain-text value is never queued, stays byte for byte and reads as itself |
| `Rewrap.RotationIsSafe` | postgres/rewrap.go:79-267 | From any readable store, with any saves interleaved and every stale value in a listed column, the sweep completes with the exact count, every row then reads as last saved under the primary key alone, and a rerun returns 0 |
| `Rewrap.RetireAfterSweep` | postgres/rewrap.go:244-267 | An audit that finds nothing means the previous keys can be destroyed without losing any saved value |
| `Rewrap.SetupExists` | postgres/rewrap.go:79-98 | The conditions on sweeps can be met for every valid ring |
| `Rewrap.Sweeper.constructor` | postgres/rewrap.go:79-98 | Starts from the given setup and store |
| `Rewrap.Sweeper.Interfere` | postgres/rewrap.go:128-169 | Saves by other replicas land before the next statement |
| `Rewrap.Sweeper.SelectStaleRows` | postgres/rewrap.go:174-205 | The queue is exactly the stale rows of the column at that moment |
| `Rewrap.Sweeper.RewrapRow` | postgres/rewrap.go:128-169 | One compare-and-swap: a row saved meanwhile is not touched and not counted |
| `Rewrap.Sweeper.ApplyRewrapRows` | postgres/rewrap.go:128-169 | The loop ends in the store, count and verdict of the specification |
| `Rewrap.Sweeper.RewrapOneColumn` | postgres/rewrap.go:117-123 | Queue then apply, as specified |
| `Rewrap.Sweeper.RewrapEncrypted` | postgres/rewrap.go:79-98 | The column loop ends in the store, total and verdict of the specification |
| `Rewrap.Sweeper.Audit` | postgres/rewrap.go:244-267 | Reports every listed column that holds a stale value, with the exact number, and no other |
| `FingerprintInput.PutUint64` | crypto/fingerprint.go:41-49 | The buffer holds the eight big-endian bytes of the length |
| `FingerprintInput.Feed` | crypto/fingerprint.go:41-49 | The loop, reusing one buffer, feeds the hash each part behind its length |
| `FingerprintInput.PowerOfEight` | crypto/fingerprint.go:41-49 | Eight bytes distinguish exactly the lengths below 2^64 |
| `FingerprintInput.PartsOfInput` | crypto/fingerprint.go:41-49 | A decoder recovers every list of parts shorter than 2^64 bytes from the hash input |
| `FingerprintInput.InputInjective` | crypto/fingerprint.go:41-49 | Hence different lists of parts never feed the hash the same bytes |
| `RateLimiter.EvictionInvisible` | workspace/pipeline_assist.go:154-180 | For every call sequence on a non-decreasing clock, the evicting limiter answers exactly as one that never evicts |
| `RateLimiter.WindowBound` | workspace/pipeline_assist.go:154-180 | Any half-open interval of one window holds at most 2*max-1 allowed events of a key |
| `RateLimiter.WindowBoundIsTight` | workspace/pipeline_assist.go:154-180 | and that bound is reached |
| `RateLimiter.RefusalIsEarned` | workspace/pipeline_assist.go:154-180 | An event is refused only after max events of its key passed within the last window |
| `RateLimiter.NoLimitNoRefusal` | workspace/pipeline_assist.go:154-180 | Without a positive limit every event passes |
| `RateLimiter.MemoryRateLimiter.constructor` | workspace/pipeline_assist.go:144-151 | Starts without buckets |
| `RateLimiter.MemoryRateLimiter.Allow` | workspace/pipeline_assist.go:154-180 | The map update and answer are those of the specification the bounds are about |
| `RateLimiter.MemoryRateLimiter.EvictExpired` | workspace/pipeline_assist.go:154-180 | The eviction loop, in any order, removes exactly the expired buckets |
| `Broker.RunKeeps` | workspace/notification.go:87-124 | Over every interleaving of subscribe, repeated cancel, broadcast and receive: registered exactly while open, no empty tenant set retained, each channel closed at most once and never sent to afterwards, the gauge never decremented twice |
| `Broker.SubscriberView` | workspace/notification.go:115-124 | What a subscriber received plus what is buffered is an in-order subsequence of its own tenant's broadcasts while subscribed, each offered exactly once, and a message is dropped only with 16 buffered |
| `Broker.CancelTwice` | workspace/notification.go:200-211 | Cancelling or unsubscribing again changes nothing |
| `Broker.SubscribeOpens` | workspace/notification.go:87-110 | A subscribe opens one empty channel, registered under its tenant, that hears what is broadcast from then on; the other channels are untouched |
| `Broker.UnsubscribeCloses` | workspace/notification.go:200-211 | A live subscription's unsubscribe closes its channel, registers it nowhere, lowers the gauge by one, keeps what was buffered and received, and touches no other channel |
| `Broker.ReceiveTakes` | workspace/notification.go:179-189 | A receive moves the oldest buffered message, if any, to the received ones of that channel, and changes nothing else |
| `Broker.NotificationBroker.constructor` | workspace/notification.go:79-81 | Starts with no subscriber |
| `Broker.NotificationBroker.SubscribeLive` | workspace/notification.go:87-110 | A fresh channel registered under its tenant, as specified |
| `Broker.NotificationBroker.CancelLive` | workspace/notification.go:87-110 | Closes and removes at most once, dropping an empty tenant set |
| `Broker.NotificationBroker.UnsubscribeLive` | workspace/notification.go:200-211 | Cancels and decrements the gauge at most once |
| `Broker.NotificationBroker.BroadcastLive` | workspace/notification.go:115-124 | The non-blocking send loop, in any order, offers the message to exactly the tenant's open channels |
| `Broker.NotificationBroker.ReceiveLive` | workspace/notification.go:179-189 | Takes the oldest buffered message |
| `NotifyFrame.EncodeNotification` | postgres/notification_listen.go:69-96 | The shrinking loop computes the reference truncation of the body |
| `NotifyFrame.EscapeAppend` | postgres/notification_listen.go:69-96 | JSON escaping (section 7 of RFC 8259, with the HTML escapes of the encoder) splits at rune boundaries |
| `NotifyFrame.FrameFitsIff` | postgres/notification_listen.go:69-96 | The payload is at most 7000 bytes for every body if and only if the frame fits with an empty one |
| `NotifyFrame.TrimmedBody` | postgres/notification_listen.go:69-96 | A valid body is sent whole, empty, or as a whole-rune UTF-8 prefix (section 3 of RFC 3629) plus the ellipsis |
| `NotifyFrame.TrimmedLength` | postgres/notification_listen.go:69-96 | A body is sent whole exactly when the payload fits, empty exactly when the excess and the ellipsis leave no room, and otherwise cut at the last rune start within the room left |
| `NotifyFrame.TrimmedKeepsMost` | postgres/notification_listen.go:83-96 | A valid body that is cut loses at most three bytes more than the excess and the ellipsis ask for |
| `NotifyFrame.UnescapeUndoesEscape` | postgres/notification_listen.go:69-96 | A JSON string reader gives back every valid UTF-8 body from its escape |
| `NotifyFrame.EscapeIsHtmlSafe` | postgres/notification_listen.go:69-96 | The payload holds none of the three HTML bytes the encoder escapes |
| `NotifyFrame.EscapeHasNoSeparator` | postgres/notification_listen.go:69-96 | nor either of the two Unicode line separators |
| `NotifyFrame.EncodedIsValid` | postgres/notification_listen.go:83-96 | Every text of Unicode scalar values encodes, by the table of section 3 of RFC 3629, to what the rune scanner takes as valid |
| `NotifyFrame.ValidIsEncoded` | postgres/notification_listen.go:83-96 | and whatever it takes as valid encodes such a text |
| `OAuth.TokenRoundTrip` | workspace/pipeline_schema.go:563-599 | A stored token parses back unchanged |
| `OAuth.Resolver.constructor` | workspace/pipeline.go:658-660 | Starts with nothing cached |
| `OAuth.Resolver.ResolveConnectionCredential` | workspace/pipeline.go:673-697 | The cached lookup equals the uncached one, hits and misses alike |
| `OAuth.Resolver.Load` | workspace/pipeline.go:703-716 | Loads the client once, with its failure remembered as no client |
| `OAuth.Resolver.InjectInto` | workspace/pipeline.go:727-751 | The memoised injection equals the uncached one |
| `OAuth.Resolver.StaleClientID` | workspace/pipeline.go:759-773 | The memoised probe equals the uncached one |
| `OAuth.Resolver.AnswerBatch` | workspace/pipeline.go:597-632 | Every batch of requests, in any order, gets the uncached answers |
| `OAuth.PollCredentials` | workspace/pipeline.go:597-632 | Whatever the batch, the poll serves each credential as the uncached function does |
| `OAuth.RenderCredential` | workspace/pipelinemirror.go:366-373 | The render of a credential file serves the same function, so poll and render agree |
| `OAuth.ReferenceServesAsEmbeddedIff` | workspace/pipeline.go:673-751 | A connection reference and an embedded token with equal siblings serve the same if and only if the source is a sheet, the recorded client matches the workspace app, or a sibling is not of the type the secret needs |
| `OAuth.RendersIff` | workspace/pipeline_schema.go:938-963 | A DuckDB document renders if and only if it is empty, or an object whose token, attach parameters and secret are each absent, null or of text members |
| `OAuth.RenderedSecret` | workspace/pipeline_schema.go:938-963 | and then the secret served carries the token, type and provider unless the document names its own, and every other secret key and attach parameter of the document; nothing else is in it |
| `OAuth.SiblingsRender` | workspace/pipeline_schema.go:938-963 | With a token in place only the siblings decide it |
| `OAuth.ServedShape` | workspace/pipeline.go:673-751 | For every store, source type and document, what is served: the document, its connection expanded, with the client secret put in exactly when the token is recorded under the workspace client and, for DuckDB, rendered exactly when it renders |
| `OAuth.ExpandedIff` | workspace/pipeline.go:673-697 | A reference is expanded if and only if it names a stored connection and carries no refresh token of its own; the token put in is that connection's |
| `OAuth.StaleIff` | workspace/pipeline.go:759-773 | A credential is reported stale if and only if its token is recorded under another client than the configured one, and then that client makes no difference to what is served |
| `OAuth.StoredPutsIn` | workspace/pipeline_schema.go:563-599 | Storing a token replaces the token member alone |
| `OAuth.SecretOnlyForItsClient` | workspace/pipeline_schema.go:696-715 | If the workspace client makes any difference to what is served, the token is non-empty and recorded under that client id |
| `OAuth.SecretReachesItsClient` | workspace/pipeline_schema.go:672-715 | A token recorded under the configured client is served with its secret: always in the token of a sheet, and in the rendered secret of a DuckDB source if and only if the document renders, which otherwise is served unchanged |
| `Connections.UpdateIntegrity` | workspace/pipeline.go:457-470 | An update keeps every stored reference valid if and only if credentials it carried over unread name an existing connection under the new source type |
| `Connections.PerformKeepsIntegrity` | workspace/pipeline.go:252-307 | Create, type-keeping update, connect and guarded disconnect keep every stored reference pointing at an existing connection |
| `Connections.RunKeepsIntegrity` | workspace/connection.go:155-293 | So does every run of them |
| `Connections.TypeChangeDangles` | workspace/pipeline.go:457-470 | An update that changes the source type can leave a reference to no connection |
| `Connections.ConnectKeepsIds` | workspace/connection.go:155-206 | Connecting never changes or removes a connection id: it replaces one token in place or adds one connection |
| `Connections.ConnectOutcome` | workspace/connection.go:155-262 | A connect spends the grant; if the account is known its first connection takes the token in place, else a new one is put first, or a held name refuses it; without such a grant nothing happens |
| `Connections.DisconnectOutcome` | workspace/connection.go:277-293 | A disconnect succeeds if and only if no stored credential names the connection, and then removes that connection alone |
| `Connections.SwapOutcome` | workspace/pipeline.go:252-307 | The grant swap: a reference passes if and only if its connection exists (with the drive scope, for DuckDB, where scopes are recorded); a grant is spent once and its token put in; anything else passes unchanged |
| `Connections.UpdateOutcome` | workspace/pipeline.go:457-470 | An update clears, carries over unread, or swaps what was sent, and refuses a missing row or a contradictory request unchanged |
| `Connections.CreateOutcome` | workspace/pipeline.go:252-307 | A create stores what the swap gives, or nothing if the swap refuses |
| `Connections.EqualFoldIff` | workspace/connection.go:250-262 | E-mails match exactly when they do so letter by letter up to case |
| `Connections.ConnectUniqueIff` | workspace/connection.go:155-262 | A successful connect keeps the accounts unique up to case and outer space if and only if the consented e-mail is recognisable among the stored ones |
| `Connections.RunKeepsUnique` | workspace/connection.go:155-293 | Over every run of trimmed consents no two Google connections are for one account |
| `Connections.UntrimmedEmailForks` | workspace/connection.go:250-262 | An e-mail stored with outer space is not recognised, and a second connection for the account appears |
| `Connections.ConnectionService.constructor` | workspace/connection.go:155-206 | Starts from the given workspace |
| `Connections.ConnectionService.FindGoogleConnectionByEmail` | workspace/connection.go:250-262 | The loop finds the first match, or the length when there is none |
| `Connections.ConnectionService.Connect` | workspace/connection.go:155-244 | Grant redemption and upsert as specified |
| `Connections.ConnectionService.Disconnect` | workspace/connection.go:277-368 | The in-use guard, walking the credentials in any order, refuses exactly the referenced connections |

## Left out

- `Rebuild.RebuildRestoresRows`: covers the pipelines a sync renders; uploads with nothing to load have no file in the repository and do not come back. Row ids are in the standard spelling Postgres gives them; that it rewrites braced or bare ids of hand-written files is not modelled, and ids are compared as written.
- `Saves.FailedCreateRestoresRows`: assumes the compensating delete itself succeeds; the source logs and carries on when it does not.
- `Saves.FailedUpdateRestoresRows`: assumes the compensating update itself succeeds, likewise.
- `Reclaiming.OwnershipCycle`: the reclaim itself succeeds; the source logs and carries on when it does not.
- `Ownership.ExternalStaysUnwritten`: for runs that keep the pipeline's file path, with a deposited age key; a rename or a removed key deletes the old credential file by design.
- `Connections.RunKeepsUnique`: ASCII letters and white space only; Unicode case folding is not modelled.
- `Rewrap.SweepFaithful`: database statement errors are not modelled, only values that do not decrypt.
- `Engine.PipelineMirror.CreatePipeline`: credential validation and the OAuth grant swap happen before the modelled steps; the swap is in `Connections`.
- Delete and its compensation, which re-inserts under a new id.
- Lost replies to writes that took effect.
- Failing bookkeeping and notification writes, which the source only logs, and deployments without notifications.
- Age recipients that do not parse.
- Concrete YAML and JSON syntax, and case-insensitive matching of JSON keys.
- Which import-skip reports and stale-OAuth notices are suppressed as repeats: both keep an in-memory set that no row, file or other notice depends on.
- Version history and restoring a version.
- The transformation mirror, whose adopt half repeats the pipeline one.
- Racing a connection delete against a save; runs are sequential.
- The real cryptography of AES-GCM, HMAC and age.
- Demo workflow, warehouse roles, uploads to object storage, assist prompts, run reports, RPC and HTTP layers.
