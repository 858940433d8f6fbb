# dull: a verified model of its transactional filesystem core

`dull` is a dotfile manager. Modules are source trees. A build links every
exposed source of every module into a build directory (`builds/<name>`), each
at its target path re-rooted below that directory. Deploying turns each leaf
of a build back into its real target and links or copies it there.
Undeploying removes those targets.

Every filesystem change goes through transactions. This project models:

- **Planning.**
  - `TxBuilder`: four maps keyed by path, with last-write-wins pushes and a depth-sorted, group-ordered `build`.
  - The ephemeral `Transaction`: a primitive list and its `TxSummary` fold.
  - The `tx_gen` planners: `remove_dir_all`, `remove_any`, `ensure_dirs` and `create_links`.
- **Execution.**
  - `FsPrimitive::apply` on an abstract filesystem, returning an inverse primitive.
  - `run_sequentially`, `run_haphazard` and `run_atomic` with rollback.
  - `TxResult`, and the `TxProcessor` stack of undo transactions.
- **Module resolution and build encoding.**
  - Directives from marker files and configuration.
  - The frontier traversal of `parse` and the `TraversalStrategy` of each path.
  - `emplace`, and the build, deploy and undeploy planners with the path encoding they share.

The model is written in Dafny. Each source file is modelled against its own variant set of primitives:

| Source file | Dafny datatype | Its primitives |
|---|---|---|
| `primitives.rs` | `Primitives.FsPrimitive` | `TryCreateDirs`, `RemoveDir` |
| `tx_builder.rs` | `TxBuilding.Primitive` | `CreateDir`, `RemoveDir` |
| `transaction.rs` | `Transactions.Primitive` | `CreateDirs`, `RemoveEmptyDir` |
| `virtual_system.rs` | `VirtualSystems.FsMod` | `CreateDirs`, `Link`, `RemoveAll` |

`run_atomic` pushes the inverses of `apply` into a builder. `TxApply.Lower` and `TxApply.Raise` are the bridge between the two sets: the builder's `CreateDir` runs as `TryCreateDirs`.

Paths and the filesystem:

- A path is a sequence of components. An absolute path starts with the component `"/"`, so `components().count()` is the length. `starts_with` is a component prefix, and `strip_prefix` drops that prefix.
- The filesystem (`Fs.Snapshot`) is a map from paths to `File`, `Symlink` or `Dir`.
- A set of unreachable paths stands for entries whose metadata cannot be read. It gives `try_exists` its error case and makes every operation on those paths fail.
- The two root paths (`[]` and `["/"]`) are always directories. The one exception is `is_dir` of the empty relative path `[]`, which is false, because the metadata of `""` cannot be read.
- System calls are functions on the snapshot. They fail with an explicit error, for example when a symlink target already exists or its parent is missing. They are performed through the `Fs.FileSystem` class, whose node map the methods update in place.

The model keeps three behaviours of the code as they are written:

- **The failure inverse list is not reversed.** When a primitive fails, `run_sequentially` returns through `?` at `tx_apply.rs:19`, before the `reverse` at `:24` runs. `run_atomic` then rolls back with the inverses in application order.
  - `TxApply.UnreversedRollbackCanFail` exhibits this on a concrete run. A directory is created, then a link is made inside it, then a second link onto the same path fails. The rollback tries to remove the directory first and fails with "directory not empty". The reversed list would have restored the empty filesystem.
- **The `TryCreateDirs` inverse removes only the deepest path.** The inverse is `RemoveDir` of the first non-existent entry in `ancestors()` order, which is the path itself. When the parents had to be created too, undoing leaves them behind (`Primitives.TryCreateUndoLeavesParent`).
- **The frontier is a LIFO stack.** `parse` treats its frontier as a stack and pops from the end, despite the "breadth-first" comment, so the order of the collected sources is depth-first. The model keeps the stack. Its contract is stated over the set of sources, which does not depend on the order.

## Model

| member | source | states |
|---|---|---|
| Paths.StripPrefix | src/module_parser.rs:26-29 | defined exactly when the prefix is a component prefix, and then prefix + result is the path |
| Paths.Parent | src/virtual_system.rs:107-110 | none exactly for the two root paths; otherwise the path minus its last component |
| Paths.FileName | src/module_parser.rs:64-70 | none exactly for the root paths; otherwise the last component, which the path ends with |
| Paths.AncestorsAt | src/transaction/primitives.rs:89-92 | the i-th ancestor is the path cut by i components, the path itself first; there is one ancestor per component up to the root |
| Paths.AncestorsArePrefixes | src/transaction/tx_gen.rs:91-94 | every ancestor is a component prefix of the path, and the ancestors are pairwise distinct |
| Paths.Reverse | src/transaction/tx_apply.rs:24 | same length, and element i is element n-1-i of the input |
| Paths.SortByDepth | src/transaction/tx_builder.rs:129-154 | lists exactly the given keys, each once, sorted by depth (ascending, or descending after `rev`) |
| Paths.Enumerate | src/module_parser.rs:83-87 | a directory listing: exactly the entries, each once, in no specified order |
| Fs.CreationCheck | src/transaction/primitives.rs:51-52 | creating an entry is allowed exactly when the path is readable, not a root, absent, and its parent is an existing directory |
| Fs.CreateDirAllOp | src/transaction/primitives.rs:93 | on success the path is a directory, every earlier entry is kept, and every new entry is a directory that is a prefix of the path |
| Fs.SymlinkKeepsWellFormed | src/transaction/primitives.rs:51 | a successful `symlink` keeps every entry below an existing directory |
| Fs.CopyKeepsWellFormed | src/transaction/primitives.rs:59 | a successful copy keeps the filesystem well formed |
| Fs.RemoveFileKeepsWellFormed | src/transaction/primitives.rs:77 | a successful `remove_file` keeps the filesystem well formed |
| Fs.RemoveDirKeepsWellFormed | src/transaction/primitives.rs:81 | a successful `remove_dir` keeps the filesystem well formed |
| Fs.CreateDirAllKeepsWellFormed | src/transaction/primitives.rs:93 | a successful `create_dir_all` keeps the filesystem well formed |
| Fs.FileSystem.constructor | src/transaction/primitives.rs:47 | the filesystem starts with the given entries and unreadable paths |
| Fs.FileSystem.Perform | src/transaction/primitives.rs:47-102 | one system call: on success the nodes become the call's result and `Ok` is returned, on failure the nodes stay and the error is returned |
| Fs.FileSystem.Symlink | src/transaction/primitives.rs:51-52 | the node map becomes the result of the symlink operation on success and is unchanged on failure, whose error is returned |
| Fs.FileSystem.CopyFileOrSymlink | src/transaction/primitives.rs:59-62 | the same, for the copy of a file or symlink |
| Fs.FileSystem.RemoveFile | src/transaction/primitives.rs:77 | the same, for `remove_file` |
| Fs.FileSystem.RemoveDir | src/transaction/primitives.rs:81 | the same, for `remove_dir` |
| Fs.FileSystem.CreateDirAll | src/transaction/primitives.rs:93 | the same, for `create_dir_all` |
| Primitives.FirstAbsent | src/transaction/primitives.rs:89-92 | the first path of the list that `try_exists` says definitely does not exist, none exactly when every path exists or cannot be probed |
| Primitives.Apply | src/transaction/primitives.rs:47-102 | `apply` on the filesystem object leaves exactly the nodes and the inverse-or-error that `ApplySpec` gives for the old state |
| Primitives.IgnoresNameWithoutBackup | src/transaction/primitives.rs:48-76 | without a backup directory, the random backup name has no effect |
| Primitives.FailureChangesNothing | src/transaction/primitives.rs:50-99 | a failed application leaves the filesystem as it was (a removal with backup may leave its backup copy) |
| Primitives.LinkSemantics | src/transaction/primitives.rs:50-54 | `Link` succeeds exactly when the target can be created, then stores a symlink to the original and returns `RemoveFile(target)`; a failure changes nothing |
| Primitives.CopyRefusesExisting | src/transaction/primitives.rs:55-58 | `CopyFile` fails with "already exists" and no change when any entry, a symlink included, is at the target |
| Primitives.CopySemantics | src/transaction/primitives.rs:55-64 | a successful `CopyFile` puts the source's entry at the absent target and returns `RemoveFile(target)` |
| Primitives.RemoveWithBackupSemantics | src/transaction/primitives.rs:65-78 | with a backup directory, a failed backup copy aborts with no change; success moves the entry to `backup_dir/<name>` and returns `CopyFile{backup → path}` |
| Primitives.RemoveWithoutBackupSemantics | src/transaction/primitives.rs:74-78 | without a backup directory, `RemoveFile` deletes a readable file or symlink and returns `Nop`; otherwise it fails with no change |
| Primitives.NopSemantics | src/transaction/primitives.rs:100 | `Nop` changes nothing and returns `Nop` |
| Primitives.RemoveDirSemantics | src/transaction/primitives.rs:80-83 | `RemoveDir` succeeds exactly on a readable, empty, non-root directory, removes it and returns `TryCreateDirs(path)` |
| Primitives.TryCreateExistingIsNop | src/transaction/primitives.rs:84-88 | `TryCreateDirs` of a path with any entry changes nothing and returns `Nop` |
| Primitives.TryCreateInverseIsDeepest | src/transaction/primitives.rs:89-98 | the inverse of creating a missing, readable path is `RemoveDir` of that path itself, the first in `ancestors()` order |
| Primitives.CreateOneLevel | src/transaction/primitives.rs:93 | `create_dir_all` below an existing directory adds exactly that one directory |
| Primitives.LinkInverseRestores | src/transaction/primitives.rs:50-54 | after a successful `Link`, applying its inverse without backup succeeds and gives back the original filesystem |
| Primitives.CopyInverseRestores | src/transaction/primitives.rs:55-64 | the same for `CopyFile` |
| Primitives.RemoveDirInverseRestores | src/transaction/primitives.rs:80-83 | on a well-formed filesystem, the inverse of `RemoveDir` recreates exactly the removed directory |
| Primitives.TryCreateInverseRestores | src/transaction/primitives.rs:84-98 | the inverse of `TryCreateDirs` restores the filesystem when the path existed or its parent was a directory |
| Primitives.TryCreateUndoLeavesParent | src/transaction/primitives.rs:89-98 | when the parent was missing too, undoing `TryCreateDirs` succeeds but leaves the parent, so the filesystem differs from the original |
| Primitives.RemoveWithBackupInverseRestores | src/transaction/primitives.rs:65-78 | on a well-formed filesystem, after a successful removal with a backup, its `CopyFile` inverse run without backup succeeds and leaves the old entries plus the backup copy, a path that was absent before; so the removed entry is back and only the copy remains |
| Primitives.RemoveWithoutBackupLosesEntry | src/transaction/primitives.rs:74-78 | without a backup directory, a successful removal is never undone by its `Nop` inverse: the entry stays deleted |
| Primitives.ApplyKeepsWellFormed | src/transaction/primitives.rs:47-102 | every application, failed or not, keeps the filesystem well formed |
| Transactions.LastTouch | src/transaction.rs:165-196 | the last primitive that bears on a path in an aspect is in the list and bears on it |
| Transactions.SummaryStep | src/transaction.rs:165-191 | one primitive keeps the created and removed sets disjoint, for files and for directories, and leaves every path it does not bear on as it was |
| Transactions.SummaryIsLastTouch | src/transaction.rs:165-221 | each summary query (`creates_file`, `removes_file`, `creates_dirs`, `removes_empty_dir` of the summary `Summarize` builds) holds iff the last relevant primitive says so: a file is created or removed by the last primitive on it; a directory is created by the last `CreateDirs`/`RemoveEmptyDir` of it; removal is cancelled by a later `CreateDirs` of it or of a path below it |
| Transactions.SummaryDisjoint | src/transaction.rs:165-196 | the created and removed file sets are disjoint, and so are the directory sets |
| Transactions.TryCreateDirsIdempotent | src/transaction.rs:95-102 | `try_create_dirs` appends nothing iff the path exists, cannot be probed, or is already created by the summary; otherwise it appends one `CreateDirs`; a second call appends nothing |
| Transactions.Transaction.Push | src/transaction.rs:84 | appends one primitive at the end; the name is kept |
| Transactions.Transaction.Empty | src/transaction.rs:33-40 | the transaction has the name and no primitives |
| Transactions.Transaction.FromPrimitives | src/transaction.rs:42-50 | the transaction has the name and exactly the given primitives |
| Transactions.Transaction.Append | src/transaction.rs:52-54 | the primitives become the old ones followed by the other's; the name is kept |
| Transactions.Transaction.WithName | src/transaction.rs:56-59 | only the name changes |
| Transactions.Transaction.Link | src/transaction.rs:61-70 | appends exactly one `Link` at the end; the earlier primitives and the name are kept |
| Transactions.Transaction.CopyFile | src/transaction.rs:72-81 | appends exactly one `CopyFile` |
| Transactions.Transaction.RemoveFile | src/transaction.rs:83-85 | appends exactly one `RemoveFile` |
| Transactions.Transaction.RemoveEmptyDir | src/transaction.rs:87-89 | appends exactly one `RemoveEmptyDir` |
| Transactions.Transaction.CreateDirs | src/transaction.rs:91-93 | appends exactly one `CreateDirs` |
| Transactions.Transaction.TryCreateDirs | src/transaction.rs:95-102 | the primitives become `TryCreateDirsSpec` of the old ones, whose properties `TryCreateDirsIdempotent` proves |
| Transactions.SummaryFrom | src/transaction.rs:159-203 | the loop over the four sets computes the summary fold, whose meaning `SummaryIsLastTouch` gives |
| TxBuilding.PushEntry | src/transaction/tx_builder.rs:47-74 | one push (`PushSpec`): a primitive on a path stores itself under that path in its own map and removes the path from the opposite map; every other entry is left alone |
| TxBuilding.PushKeepsValid | src/transaction/tx_builder.rs:47-74 | a push keeps every entry under its own path and no path in both file maps or both dir maps |
| TxBuilding.LastMod | src/transaction/tx_builder.rs:47-74 | the last primitive acting on a path is in the list, acts on that path, and is of the right kind |
| TxBuilding.LastWriteWins | src/transaction/tx_builder.rs:47-74 | after a sequence of pushes, a path is planned by exactly the last primitive acting on it, and the opposite entry is gone; untouched paths keep their plan |
| TxBuilding.ListingCovers | src/transaction/tx_builder.rs:128-154 | a listing holds every entry of its map |
| TxBuilding.EmitsGroups | src/transaction/tx_builder.rs:128-154 | the four listings concatenated are in group order: dir creations, file creations, file removals, dir removals |
| TxBuilding.ListGroup | src/transaction/tx_builder.rs:130-133 | lists one map, one primitive per entry, sorted by depth |
| TxBuilding.TxBuilder.Empty | src/transaction/tx_builder.rs:18-25 | all four maps are empty and the builder is valid |
| TxBuilding.TxBuilder.Push | src/transaction/tx_builder.rs:47-74 | the new maps are `PushSpec` of the old: the entry is stored under its path, the opposite entry removed, `Nop` changes nothing; validity is kept |
| TxBuilding.TxBuilder.Link | src/transaction/tx_builder.rs:78-87 | pushes `Link` |
| TxBuilding.TxBuilder.CopyFile | src/transaction/tx_builder.rs:91-100 | pushes `CopyFile` |
| TxBuilding.TxBuilder.RemoveFile | src/transaction/tx_builder.rs:103-105 | pushes `RemoveFile` |
| TxBuilding.TxBuilder.CreateDir | src/transaction/tx_builder.rs:108-110 | pushes `CreateDir` |
| TxBuilding.TxBuilder.RemoveDir | src/transaction/tx_builder.rs:113-115 | pushes `RemoveDir` |
| TxBuilding.TxBuilder.Build | src/transaction/tx_builder.rs:126-157 | a failing `generate` is returned; otherwise the transaction has the name and backup dir, `len()` primitives, one per map entry, in group order, with depth ascending in creation groups and descending in removal groups |
| TxBuilding.WillCreateDirAfterPushes | src/transaction/tx_builder.rs:28-30 | after pushes from empty, `will_create_dir(p)` holds iff the last directory primitive on p was `CreateDir` |
| TxApply.Lower | src/transaction/tx_apply.rs:63 | the builder primitive an inverse is pushed as executes as that inverse |
| TxApply.LowerRaise | src/transaction/tx_apply.rs:63 | lowering the execution of a builder primitive gives it back |
| TxApply.RaiseAll | src/transaction/tx_apply.rs:33-38 | the executed primitives of a built transaction, one per primitive, in order |
| TxApply.InverseCount | src/transaction/tx_apply.rs:15-23 | a run records at most one inverse per primitive, and exactly one per primitive when nothing failed |
| TxApply.RunSequentially | src/transaction/tx_apply.rs:9-26 | the loop leaves the nodes, result and inverse list of `RunSequentiallySpec`: reversed on success, unreversed after a failure, empty when not recording |
| TxApply.StopsAtFirstFailure | src/transaction/tx_apply.rs:15-19 | once a primitive has failed, no later primitive changes anything |
| TxApply.RunStep | src/transaction/tx_apply.rs:15-23 | one more primitive: a failed run stays; otherwise the primitive is applied and its inverse recorded on success |
| TxApply.InverseKept | src/transaction/tx_apply.rs:20-22 | an inverse recorded at step i stays at position i in every longer run |
| TxApply.InverseAt | src/transaction/tx_apply.rs:19-22 | the i-th recorded inverse is the one the i-th primitive returned in the state the earlier primitives left |
| TxApply.FailureIsAtFirstMissingInverse | src/transaction/tx_apply.rs:15-19 | a failed run ends in the state of the failed application of the primitive right after the recorded inverses, with its error |
| TxApply.FirstFailing | src/transaction/tx_apply.rs:15-19 | a failing run has a first failing prefix |
| TxApply.NoBackupIgnoresNames | src/transaction/tx_apply.rs:33-38 | a run with no backup directory does not depend on the backup names |
| TxApply.ReversedInversesRestore | src/transaction/tx_apply.rs:20-24 | when every step is inverted exactly, running the reversed inverses of a successful run restores the initial filesystem |
| TxApply.RollbackRestores | src/transaction/tx_apply.rs:20-24 | the same for every successful prefix of the run |
| TxApply.UndoFirstThenRest | src/transaction/tx_apply.rs:15-19 | running `[m] + rest` is running `rest` from where `m` led |
| TxApply.ExampleRun | src/transaction/tx_apply.rs:15-24 | in the example, the third primitive fails after two inverses were recorded, in application order |
| TxApply.UnreversedRollbackCanFail | src/transaction/tx_apply.rs:72-76 | in the example, rolling back with the unreversed list fails with "directory not empty", while the reversed list restores the empty filesystem |
| TxApply.RunHaphazard | src/transaction/tx_apply.rs:30-45 | runs the primitives in order, with no backup and no inverses |
| TxApply.LowerAll | src/transaction/tx_apply.rs:63 | one builder primitive per inverse, in order |
| TxApply.BuildUndo | src/transaction/tx_apply.rs:59-66 | pushes every inverse, in order, into a fresh builder and builds it: a failing `generate` is returned; otherwise the undo transaction emits the plan of those pushes |
| TxApply.RunAtomic | src/transaction/tx_apply.rs:48-90 | on run and undo build success, keeps the run's state and returns `Success(undo)` named `"Undo"+name`; otherwise rolls back with the recorded inverses and no backup (in application order after a primitive failure, reversed after an undo-build failure), giving `TxFailure(tx_err)` or, if the rollback fails, `FatalFailure{tx_err, rb_err}` |
| TxProcessors.RollbackNewestFirst | src/transaction/tx_processor.rs:47-55 | rolling back older + newer undoes the newer first, then the older from where they left the filesystem, unless a newer one panicked |
| TxProcessors.RollbackOfNothing | src/transaction/tx_processor.rs:47-55 | an empty stack rolls back to the same filesystem without panic |
| TxProcessors.TxProcessor.constructor | src/transaction/tx_processor.rs:13-19 | has the name and an empty `processed` stack |
| TxProcessors.TxProcessor.RunOptional | src/transaction/tx_processor.rs:22-33 | runs atomically; `Success` pushes the undo and returns Ok; `TxFailure` returns its error with the stack unchanged; `FatalFailure` panics |
| TxProcessors.TxProcessor.RunRequired | src/transaction/tx_processor.rs:36-45 | on success, the same as `run_optional`; on `TxFailure`, rolls back every processed undo newest first, empties the stack and returns the error, unless an undo failed (panic) |
| TxProcessors.TxProcessor.Rollback | src/transaction/tx_processor.rs:47-55 | the processed undo transactions run haphazardly from the newest; the stack is emptied; the first failing undo panics |
| TxResults.NeverBoth | src/transaction/tx_result.rs:20-33 | `is_success` and `is_fatal_failure` never both hold; every result is one of the three variants |
| TxResults.AsTxResult | src/transaction/tx_result.rs:36-42 | Ok exactly for `Success`, with its undo; both failures give `tx_err`, and the rollback error is dropped |
| TxGen.RemovalFor | src/transaction/tx_gen.rs:35-40 | the removal planned for a walked entry acts on it, and is `RemoveFile` exactly for a symlink or file |
| TxGen.Removals | src/transaction/tx_gen.rs:34-41 | one removal per walked path, in order |
| TxGen.LastRemoval | src/transaction/tx_gen.rs:25-41 | the last removal of a path in the pushed list is the one planned for it |
| TxGen.RemovalsPlanned | src/transaction/tx_gen.rs:25-41 | after the pushes, every walked path is planned for removal its way, and not for creation |
| TxGen.RemoveDirAll | src/transaction/tx_gen.rs:16-43 | fails, without pushing, exactly when the target is a symlink or file; otherwise pushes one removal per walked entry, target included, in non-increasing depth, and plans each |
| TxGen.PushRemovals | src/transaction/tx_gen.rs:34-41 | the loop pushes the removals of the list in order |
| TxGen.RemoveAny | src/transaction/tx_gen.rs:46-53 | never fails; a file or symlink is removed by one `remove_file`; anything else as `remove_dir_all` |
| TxGen.MissingMembers | src/transaction/tx_gen.rs:96-101 | an ancestor is kept exactly when it has no entry and is not planned |
| TxGen.MissingSorted | src/transaction/tx_gen.rs:96-101 | the filters keep the outermost-first order |
| TxGen.CreateDirs | src/transaction/tx_gen.rs:103 | one `create_dir` per path, in order |
| TxGen.AncestorsOutermostFirst | src/transaction/tx_gen.rs:91-98 | the reversed ancestors go by ascending depth |
| TxGen.PushCreateDirs | src/transaction/tx_gen.rs:103 | pushing creations plans exactly those dirs in addition, cancels their removals, and leaves the file maps alone |
| TxGen.EnsureDirsCovers | src/transaction/tx_gen.rs:89-104 | afterwards every ancestor without an entry is planned for creation |
| TxGen.EnsureDirsIdempotent | src/transaction/tx_gen.rs:89-104 | `ensure_dirs` plans exactly the absent, unplanned ancestors, outermost first; a second call plans nothing |
| TxGen.EnsureDirs | src/transaction/tx_gen.rs:84-105 | the builder becomes the old plan plus those creations; `will_create_dir` holds for every absent ancestor |
| TxGen.LinkStepKeepsCreations | src/transaction/tx_gen.rs:63-79 | a later link step keeps every planned file creation |
| TxGen.CreateLinksPlansEveryTarget | src/transaction/tx_gen.rs:63-79 | on success every virtual target is a planned file creation, the last one as its link |
| TxGen.CreateLinksPlansParents | src/transaction/tx_gen.rs:72-79 | when `create_links` succeeds, every ancestor without an entry of every link's virtual parent is planned for creation at the end, through all later link steps |
| TxGen.CreateLinks | src/transaction/tx_gen.rs:56-81 | per link and in order, ensures the parent dirs of root joined with the target (its leading "/" dropped) and pushes the link; a target with no parent stops with an error |
| TxGen.CreateLinksStops | src/transaction/tx_gen.rs:73-76 | after a failure the remaining links change nothing |
| ModuleParsing.Filter | src/module_parser.rs:88-91 | keeps exactly the accepted elements, without adding duplicates |
| ModuleParsing.TryDetermine | src/module_parser.rs:56-99 | error exactly when existence is not confirmed; an ignored name is `Skip`; LinkThis only of the path itself; for an unignored non-file without a LinkThis directive, LinkThese exactly when a LinkThese directive names it and Recurse otherwise; LinkThese/Recurse list exactly the unignored entries |
| ModuleParsing.FileAlwaysLinked | src/module_parser.rs:73-76 | a readable, unignored regular file is LinkThis whatever the directives |
| ModuleParsing.LinkThisWins | src/module_parser.rs:78-97 | a LinkThis directive wins over LinkThese |
| ModuleParsing.Directives | src/module_parser.rs:134-160 | every configured `linkthis` and `linkthese` directory is a directive of its kind |
| ModuleParsing.DirectivesFromMarkers | src/module_parser.rs:135-160 | a directory has a LinkThis (LinkThese) directive exactly when a marker file with that name is in it or the configuration names it |
| ModuleParsing.KindIgnoresListing | src/module_parser.rs:56-99 | the chosen strategy does not depend on the listing |
| ModuleParsing.ReachedIsUnder | src/module_parser.rs:164-184 | every path the traversal reaches is in the module tree |
| ModuleParsing.ExposedIsUnderAndNotIgnored | src/module_parser.rs:172-184 | every exposed source is in the module tree and has an unignored name, so no marker file is ever a source |
| ModuleParsing.StopsBelow | src/module_parser.rs:172-178 | below a directory not recursed into, nothing is reached, and only the immediate entries of a LinkThese directory are exposed |
| ModuleParsing.Pop | src/module_parser.rs:165-166 | popping the last path keeps the frontier without duplicates and gives a reached, unvisited path |
| ModuleParsing.PushEntries | src/module_parser.rs:179-184 | pushing the inner dirs of a recursed directory keeps a frontier |
| ModuleParsing.LinkTheseExposed | src/module_parser.rs:176-178 | the unignored entries of a LinkThese directory are exposed |
| ModuleParsing.RecurseExposed | src/module_parser.rs:179-182 | the unignored file entries of a recursed directory are exposed |
| ModuleParsing.VisitOne | src/module_parser.rs:166-195 | one loop turn keeps the frontier, keeps every collected path exposed and records what the visited path contributes |
| ModuleParsing.ReachedIsVisited | src/module_parser.rs:164-184 | once the frontier is empty every reached path was visited |
| ModuleParsing.ExposedIsCollected | src/module_parser.rs:172-184 | once the frontier is empty every exposed path was collected |
| ModuleParsing.AllCollected | src/module_parser.rs:165-196 | the same, for all exposed paths at once |
| ModuleParsing.ParseStep | src/module_parser.rs:165-195 | one turn pops the newest path, visits it, and keeps the loop invariants while the unvisited set shrinks |
| ModuleParsing.Parse | src/module_parser.rs:116-201 | fails exactly when the source is not a directory by `is_dir`, the empty relative source included; otherwise the module path is the source and the sources are exactly the exposed paths |
| ModuleParsing.Emplace | src/module_parser.rs:22-36 | at most one link per source: a source outside the module tree gives none |
| ModuleParsing.EmplaceAppend | src/module_parser.rs:22-36 | `emplace` of a concatenation is the concatenation, so source order is kept |
| ModuleParsing.EmplaceLinks | src/module_parser.rs:22-36 | every link comes from a source in the module tree and targets the prefix joined with the source's relative path |
| ModuleParsing.EmplaceKeepsAll | src/module_parser.rs:22-36 | when every source is in the tree, one link per source, in order |
| VirtualSystems.FsTransaction.Empty | src/virtual_system.rs:95 | no modifications |
| VirtualSystems.FsTransaction.Push | src/virtual_system.rs:111-115 | appends one modification |
| VirtualSystems.FsTransaction.Append | src/virtual_system.rs:193-197 | appends the other transaction's modifications |
| VirtualSystems.BuildAtRootShape | src/virtual_system.rs:97-116 | fails exactly when some virtual target has no parent; otherwise 2 × #links mods, per link in order `CreateDirs(parent(v))` then `Link{abs_source, v}` |
| VirtualSystems.BuildAtRoot | src/virtual_system.rs:91-118 | the pushed transaction, or the error, of `BuildAtRootSpec` |
| VirtualSystems.BuildAtRootStops | src/virtual_system.rs:107-110 | once a link fails, the rest do not matter |
| VirtualSystems.Decode | src/virtual_system.rs:156-159 | fails exactly for a leaf outside the build directory |
| VirtualSystems.DecodeEncode | src/virtual_system.rs:99-104 | decoding the virtual path of a normalized absolute target gives the target back |
| VirtualSystems.EncodeDecode | src/virtual_system.rs:156-159 | a leaf below the build directory is where its decoded target is placed |
| VirtualSystems.UndeployShape | src/virtual_system.rs:154-162 | fails exactly when some leaf is outside the build dir; otherwise one `RemoveAll` of the decoded target per leaf, in order |
| VirtualSystems.UndeployRemovesTargets | src/virtual_system.rs:151-164 | undeploying the leaves placed for normalized absolute targets removes exactly those targets |
| VirtualSystems.Undeploy | src/virtual_system.rs:151-164 | the pushed transaction, or the error, of `UndeploySpec` |
| VirtualSystems.UndeployStops | src/virtual_system.rs:156-158 | after a failure the remaining leaves do not matter |
| VirtualSystems.SoftDeployShape | src/virtual_system.rs:187-208 | a successful soft deploy plans, per leaf in order, `CreateDirs(parent(target))` then `Link{canonical source, target}` |
| VirtualSystems.Deploy | src/virtual_system.rs:166-212 | the pushed transaction, or the error, of `DeploySpec` |
| VirtualSystems.DeployLeaf | src/virtual_system.rs:186-209 | the pushes of one leaf are its `DeployMods` |
| VirtualSystems.DeployStops | src/virtual_system.rs:176-203 | after a failure the remaining leaves do not matter |
| VirtualSystems.FirstNonDir | src/virtual_system.rs:59-63 | the index of the first module whose source is not a directory by `is_dir`, none when all are |
| VirtualSystems.EmptySourceRejected | src/module_parser.rs:119-124 | a first module whose source is the empty relative path stops the build at index 0, as `is_dir` of `""` is false |
| VirtualSystems.FirstNonDirAt | src/virtual_system.rs:59-63 | the parse loop stops at that index |
| VirtualSystems.BuildSystem | src/virtual_system.rs:57-78 | the first unparsable module aborts with its error; otherwise every module is parsed, the links are their `emplace` in config order, and the build dir is `builds/<name>` with the supplied name verbatim or the random one |

## Left out

- Output: printing, `display_report` and the `verbose` flag are not modelled. They have no effect on state.
- Serialization: `Transaction::finalized` and `Transaction::read` are not modelled. They are serde_json serialization with directory creation and random ids.
- Parameters for unshown or random inputs:
  - `Transaction::generate` is the `generated` parameter of `Build`. It is the backup directory, or the failure to make one.
  - The random `u32` backup names are the `names` parameter, indexed by position.
  - The random build name is the `randomName` parameter.
- Module parsing inputs:
  - `read_dir` gives the entries in a nondeterministic order (`Paths.Enumerate`).
  - `WalkDir` is the set `Fs.Walk`.
- ModuleParsing.TryDetermine: `read_dir` never fails in the model. A directory whose metadata can be read but whose listing cannot (no read permission) is listed like any other. In Rust, `try_determine`'s `read_dir(..)?` (src/module_parser.rs:83-85) fails for it, and `parse` skips it with a message (:189-194), collecting nothing from it.
  - ModuleParsing.Parse: it can therefore expose sources from such a directory that Rust would not collect.
  - Fs.Walk: the same holds for the entries of such a directory, including marker files, which the `.flatten()` of `WalkDir` would drop. An unreachable path is itself left out of the walk, while the entries below it are kept. `WalkDir` does the opposite: it yields the directory and drops what is below it. So `TxGen.RemoveDirAll` can plan removals below such a directory but not of the directory itself.
- Fs.CreationCheck: only the created path itself is checked against the unreachable set. An unreachable parent directory does not make the creation fail.
  - `get_leaves` is a parameter of `Undeploy` and `Deploy`.
- The command line is not modelled: `main.rs` (argument parsing, dispatch, `Info`), `utils::read_config`, `read_state` and `set_state`. The configuration structs are plain records with the default file names.
- Path expansion (`ResolvedLink::expand_path`, `utils::expand_path`): `expanduser` and `absolutize` are taken as the identity on paths in normal form. The current-directory prefix of a relative path is not modelled, and neither are the expansion errors. This holds for these members:
  - ModuleParsing.Emplace: the errors that `flat_map` in `emplace` would drop do not arise.
  - VirtualSystems.BuildAtRoot: the expansion of the virtual target (src/virtual_system.rs:105) is the identity.
  - VirtualSystems.Undeploy: the expansion of the decoded target (src/virtual_system.rs:160) is the identity.
  - VirtualSystems.Deploy: the expansions of the target and of the leaf (src/virtual_system.rs:180-181) are the identity.
  - TxGen.CreateLinks: the expansion of the virtual target (src/transaction/tx_gen.rs:71) is the identity.
- VirtualSystems.Deploy: the `clear_target` branch is not modelled. It makes direct, untransacted `std::fs` removals.
  - `canonicalize` and `utils::copy_recursively` are function parameters.
- VirtualSystems.BuildSystem: the run of the build transaction is not modelled. The `FsTransaction::run_atomic` API it uses is not part of this model.
  - The write of the build-information file is not modelled either.
  - A build name containing "/" is treated as a single component.
- Fs.CopyOp: `utils::copy_file_or_symlink` is not part of this model. It is taken to copy a file or a symlink and to refuse a directory or an existing target.
- Primitives.Apply: a `RemoveFile` is only undone up to its backup. With a backup directory, the inverse `CopyFile` brings the entry back but leaves the backup copy in place (`RemoveWithBackupInverseRestores`). Without one, the `Nop` inverse restores nothing (`RemoveWithoutBackupLosesEntry`). So `TxApply.ReversedInversesRestore` and `TxApply.RollbackRestores` say nothing about runs that contain a removal.
- Fs.CreateDirAllOp: an existing symlink to a directory gives `AlreadyExists`, whereas `create_dir_all` follows it and succeeds. `TryCreateDirs` never reaches this case, because it returns `Nop` on any existing entry.
- Primitives.ApplySpec: the empty relative path is a root path of the model for every query except `is_dir`, so `TryCreateDirs` of it is `Nop`. In Rust, `symlink_metadata("")` fails and the inverse would be `RemoveDir("")`. `TxGen.EnsureDirs` on a relative path would likewise plan `create_dir("")`. The paths that the model builds are absolute, so this case does not arise for them.
- The filesystem resolves paths literally:
  - a symlinked intermediate directory is not followed;
  - a final symlink is followed one level;
  - symlink cycles are not modelled.
- Panics (`panic!`, `expect`) become the `Panicked` status of the processor. They are not unwinding.
- The `FsPrimitive` `Display` formatting is not modelled. It is text output only.
- Concurrency: concurrent changes to the filesystem between primitives are not modelled.
