# varTrack's sync core, modelled and proved in Dafny

varTrack copies configuration files from Git into datasources. This project models the parts of it whose
correctness spans several functions, and proves what they promise on all inputs, runs and interleavings.

**Prune, rollback and target locks** (`TargetLocks`, `Ledger`, `KeySpaces`, `Prune`, `PruneSafety`,
`KeyOwnership`, `StageSync`, `RunStores`, `Rollback`, `SyncHistory`, `SyncRuns`, `SyncSteps`). A sync locks
its environments in one order, writes its files, and takes away the keys it wrote earlier that nothing holds
any more. The ledger and the sink are state: the ledger's records with their inventories and pending keys;
the sink's keys with the file that wrote each last, kept as an object per file or as an entry per key
(`Sinks.Layout`). The main result is `SyncHistory.NoPruneTakesAListedKey`: over every sequence of whole and
failed syncs of any number of targets, each under the rules and registrations of its moment and mixed with
arbitrary outside edits, no prune deletes a key that a record puts into the key space being pruned. Each
sync must notice the records there, which is a condition on the ledger and the rule (`SyncHistory.Heeded`,
exact by `PruneSafety.KeysAreSafeExactlyWhenNoticed`) and always holds while the rules stay as they are
(`SyncHistory.FixedRunsAreRuns`); and it must not move a key between two of its own environments
(`SyncHistory.NothingCrosses`, exact by `SyncHistory.WritesSurviveExactly`). `SyncSteps` takes the syncs
apart, since a sync is recorded only after its locks are given up, and says exactly when an interleaving
loses a key. `Rollback` says what a failed run leaves in each kind of sink.

**Flat and nested files** (`Paths`, `Trees`, `Flattening`, `TreeEdits`, `Unflattening`, `FileShape`,
`ListKeys`). The explicit-stack flattener against its recursive reading, unflatten as its inverse, and the
in-place renames and edits of a document against the same changes on its flat keys
(`FileShape.ShapeFlattensBack`).

**Rule layers and presets** (`Merging`, `Presets`, `PresetEffects`, `BundlePresets`, `RuleLayers`,
`LayerEffects`, `Protection`, `PresetProtection`, `FlatProtection`, `RuleLookup`, `TenantAccess`,
`RegistryLookups`, `UniqueRules`). Merging as a monoid, presets as one fold of it, whose value each option
has, what only config.cue may set, protection patterns from any preset to the sink, and the two ways of
looking a rule up, which agree.

**Small machines** (`PrBranchCache`, `EnvResolver`, `CircuitBreaker`, `CloneRegistry`, `CloneRaces`,
`SecretRefs`).

State that the program updates in place is a class whose methods are proved against functions; the theorems
are about these functions and about whole traces of them. The table below names the operations and the main
results; the lemmas that lead to them stand beside them in their modules.

## What the model found

Several promises hold only under a condition; each is stated with the condition as an if-and-only-if.

- A prune looks at the recorded keys of another target only when that target's tenant is its own or
  registered, and at a sister environment only where the rule places it now, not where its record says it
  wrote. In both cases keys another record lists can go (`PruneSafety.KeysAreSafeExactlyWhenNoticed`).
- A key that one sync moves between two environments of one key space can be written and then pruned
  (`SyncHistory.WritesSurviveExactly`): while pruning, the sisters' records are still those before the sync.
- When a rule moves a target to another key space, the next sync records the new key space for all its keys,
  those of files it did not write again too, though they stay behind in the old one
  (`SyncHistory.RecordsStayRightExactly`).
- A sync gives up its locks before its files are recorded. Until then another sync's prune, of the same
  environment too, does not know what it wrote, and takes a key of it exactly when the key is up for deletion
  there (`SyncSteps.PruneSparesOpenExactly`); the record then lists a key that is gone
  (`SyncSteps.LostKeyIsListed`).
- Only a sink that restores undoes a failed run. Every sink but MongoSink inherits a delete_file_data that
  does nothing, and keeps what was written before the failure (`Rollback.FailedRunKeepsFiles`,
  `Rollback.FailedRunKeepsKeys`, `Rollback.IgnoredRollbackIsExact`).
- MongoSink's rollback is complete for strategies that keep a document per file. Under STRATEGY_KEY_VALUE a
  write takes a key over from the file that owned it. An entry taken over before its owner's own turn is gone
  after a failure, although the owner's file still has the key (`Rollback.RowComesBackExactly`,
  `Rollback.CollectedRunIsUndoneExactly`).
- Restores run first write first, so a file written twice in one run would come back as after its first
  write (`Rollback.PerFileRollbackIsExact`). Nothing in the repository hands a run the same file twice.
- flatten(unflatten(m)) loses keys that start with a dot (`Unflattening.FlattenOfUnflatten`).
- The intermediate flat maps of a variables_map need no nested form; only the final one does
  (`FileShape.ShapeFlattensBack`).
- A variables_map rename, or a flat value, whose key leads into a list at no element of it does not reach the
  document; a renamed value is then gone from it, though flat_data has it (`ListKeys.RenameIntoListIsLost`,
  `ListKeys.EditIntoListIsLost`).
- Patterns under the former `prune_protection` count only while no layer's prune block lists any, and
  bundle.json's replace config.cue's (`FlatProtection.PatternsOfSyncExactly`,
  `Protection.FlatPatternCountsExactly`).
- The list of a tenant's rules stops at the first clone that answers to the tenant, the search for one rule
  goes on to the next, so they can disagree when a tenant has two clones or another is named after it
  (`RegistryLookups.CallersAgreeExactly`).
- The environment resolver's documentation says its result is never empty; a branch or file mapped to a
  blank name makes it so, and nothing else that arrives does (`EnvResolver.NeverEmptyExactly`). The model
  follows the code.
- A pushed tag keeps its whole ref as branch name, so a rule with branch_as_env sends it to an environment
  called `refs/tags/<tag>`, before tag_as_env is looked at (`EnvResolver.TagPushGoesTo`).
- A clone's path can be removed once returned, and already when it is returned, exactly when some call
  invalidates its key (`CloneRaces.StaysOnDiskExactly`, `CloneRaces.ReturnsOnDiskExactly`); an invalidation
  of tenant `a` also reaches tenant `a:b` (`CloneRegistry.InvalidationReachesExactly`).

## Model

| member | source | states |
|---|---|---|
| TargetLocks.LockServer.Enter | orchestrator-service/app/pipeline/stage_sync.py:36-58 | takes every lock or, when one stays taken, gives back those it took: either way it holds exactly its locks or none, and nobody else's lock changes |
| TargetLocks.LockServer.Exit | orchestrator-service/app/pipeline/stage_sync.py:58-62 | releases the locks held and no others, however the block ends |
| TargetLocks.LocksAreApart | orchestrator-service/app/pipeline/stage_sync.py:52-53 | one lock belongs to one environment of one datasource of one tenant, while tenant and datasource have no colon |
| TargetLocks.MutualExclusion | orchestrator-service/app/pipeline/stage_sync.py:36-62 | in every reachable state of any number of syncs, two syncs inside their blocks share no lock |
| TargetLocks.OverHoldsNothing | orchestrator-service/app/pipeline/stage_sync.py:50-62 | a finished sync holds nothing, TargetBusy included |
| TargetLocks.NoCircularWait | orchestrator-service/app/pipeline/stage_sync.py:44-57 | no reachable state has a circular wait of any length |
| TargetLocks.SomeoneCanStep | orchestrator-service/app/pipeline/stage_sync.py:44-62 | while a sync is unfinished, some sync can go on without any wait running out |
| TargetLocks.RunIsBounded | orchestrator-service/app/pipeline/stage_sync.py:36-62 | every step uses up a measure, so every run is finite |
| TargetLocks.StuckMeansFinished | orchestrator-service/app/pipeline/stage_sync.py:36-62 | a run that cannot go on has finished every sync and left no lock taken |
| KeySpaces.KeysHeldByRules | orchestrator-service/app/pipeline/stage_sync.py:153-178 | exactly the keys of the legacy targets that their first rule places in the space |
| KeySpaces.KeysHeldElsewhere | orchestrator-service/app/pipeline/stage_sync.py:111-150 | exactly the keys of the visible targets, not seen before, that hold some in the space by their record or by their rule |
| KeySpaces.FindStaleKeys | orchestrator-service/app/pipeline/stage_sync.py:181-221 | the stale keys are those of the old inventory or pending that no kept file, no written file and no spared target holds; it fails exactly when a stale key is in neither place it is looked up in |
| KeySpaces.SpacesAreApart | orchestrator-service/app/pipeline/stage_sync.py:69-77 | two targets share a key space if and only if one class of sink keeps them in the same place of the same store, while class and store names have no bar |
| Prune.PruneEnvironment | orchestrator-service/app/pipeline/stage_sync.py:236-294 | on every path, dry run, unreadable ledger, failed read-back and failed delete included: outcome, delete calls and store are those of OutcomeOf |
| PruneSafety.StaleKeysCanBeLookedUp | orchestrator-service/app/pipeline/stage_sync.py:216-220 | with a record kept by record_target, looking up a stale key cannot fail |
| PruneSafety.DeletedKeyIsOwnStaleAndFree | orchestrator-service/app/pipeline/stage_sync.py:111-294 | a key passed to delete_keys was this environment's, is in no kept or written file, held by no sister environment, recorded or legacy target in the space, matches no protection glob and read back as varTrack's own |
| KeyOwnership.DecidedByValue | orchestrator-service/app/pipeline/stage_sync.py:272-294 | of the stale keys to decide, in terms of values alone: the sink is asked to delete exactly those it holds without showing them, or shows with the recorded text, or of a secret with the recorded digest; those shown as anything else, or of unknown value, are reported as changed and left |
| KeyOwnership.LastWritingIsKept | orchestrator-service/app/ui/ledger.py:195-226 | after a sync is recorded, its record keeps of each key what the last file with it put there, a secret by its digest |
| KeyOwnership.WrittenKeyIsDeleted | orchestrator-service/app/pipeline/stage_sync.py:236-294 | the whole way round, from the file through record_target to the next prune: a stale key the sink shows is deleted if and only if it reads as the last file with it wrote it, and is otherwise reported as changed |
| PruneSafety.SwitchedOffDeletesNothing | orchestrator-service/app/tasks/payload.py:108-130 | a rule whose prune is absent, off or only a dry run, in any of its forms, deletes nothing |
| PruneSafety.KeysAreSafeExactlyWhenNoticed | orchestrator-service/app/pipeline/stage_sync.py:111-221 | whatever files a sync receives, another target's listed keys in the space are never stale if and only if the prune notices the target: a sister environment the rule now places elsewhere, or a target of an unregistered tenant, is missed |
| PruneSafety.NothingIsForgotten | orchestrator-service/app/pipeline/stage_sync.py:236-294 | a key varTrack answered for before a sync is still listed or pending afterwards unless deleted, missing, reported, protected or another's |
| PruneSafety.SharersAreReported | orchestrator-service/app/pipeline/stage_sync.py:111-150 | a prune reports exactly the targets of other datasources and tenants whose keys in the space it spares |
| Ledger.RecordTarget | orchestrator-service/app/ui/ledger.py:141-240 | the record written is the one rebuilt from all files' entries |
| Ledger.RecordedIsWellFormed | orchestrator-service/app/ui/ledger.py:141-240 | whatever the record before, inventory and merged view agree and no pending key is listed by a file |
| Ledger.RecordedInventory | orchestrator-service/app/ui/recorder.py:193-246 | after a sync the target lists the keys of the files kept and of those written, whatever their former names |
| Ledger.PendingIsExactlyWanted | orchestrator-service/app/ui/recorder.py:193-246 | however many files, exactly the keys the prune left are pending |
| Ledger.PendingStays | orchestrator-service/app/ui/ledger.py:198-216 | a sync that did not prune leaves every pending key pending, less those its files have again |
| StageSync.WriteFiles | orchestrator-service/app/pipeline/stage_sync.py:389-522 | one result per file; the store is that of the files written, or rolled back after the first failure; the files of each environment are collected in order |
| StageSync.PruneAll | orchestrator-service/app/pipeline/stage_sync.py:523-542 | every environment's prune does and reports what OutcomeOf says; no other deletes happen |
| StageSync.RunStageSync | orchestrator-service/app/pipeline/stage_sync.py:344-554 | busy exactly when some file with keys has its environment's lock taken by another, and then nothing is touched; from first write to last prune the locks held are those of the environments that files have keys for, and no others; a failed run deletes no keys and rolls back; else all prunes ran; results are (ok or empty)* error aborted* then skipped; all locks are given back |
| StageSync.LockedAreFilled | orchestrator-service/app/pipeline/stage_sync.py:386-386 | the environments locked are those that some file has keys for, which are the ones written and pruned, and no others |
| StageSync.ResultsLineUp | orchestrator-service/app/pipeline/stage_sync.py:389-554 | results line up with the files: each file has its own, with its status, then aborted ones after a failure, then the skipped paths; a prune's numbers are on the last ok result of its environment |
| RunStores.FileIsAsWritten | orchestrator-service/app/pipeline/stage_sync.py:389-542 | with an object per file, after a run that did not fail each file is in the sink as its last write left it, key by key, less exactly what its environment's prune took |
| RunStores.WrittenKeysStay | orchestrator-service/app/pipeline/stage_sync.py:389-542 | so every key of every file is there as written: no prune takes a key its environment's files have |
| RunStores.KeyIsAsWritten | orchestrator-service/app/pipeline/stage_sync.py:389-542 | with an entry per key, each key set is held by the file that set it last, with its value, unless the prune of an environment in the same place took it |
| Rollback.FailedRunRestoresFiles | orchestrator-service/app/pipeline/stage_sync.py:389-520 | a sink that restores and keeps an object per file: what each file holds after a failure at file k, a restore that raises included |
| Rollback.RowComesBackExactly | orchestrator-service/app/pipeline/sinks/mongo.py:260-315 | a sink that restores and keeps an entry per key: after a clean failure an entry is what it was, if no file written before its owner sets its key, and is gone otherwise |
| Rollback.PerKeyRollbackIsExact | orchestrator-service/app/pipeline/sinks/strategies/mongo/key_value.py:45-73 | such a store comes back whole from a clean failure if and only if every entry's key is set by no file written before its owner |
| Rollback.FailedRunKeepsFiles | orchestrator-service/app/pipeline/sinks/base.py:131-151 | a sink that undoes nothing and keeps an object per file: after a failure each file holds its last write, the failing one what its write left |
| Rollback.FailedRunKeepsKeys | orchestrator-service/app/pipeline/sinks/base.py:131-151 | one that keeps an entry per key: each key is held by the file that set it last, the failing one included |
| Rollback.IgnoredRollbackIsExact | orchestrator-service/app/pipeline/stage_sync.py:491-509 | a sink that undoes nothing gives the store back from every clean failure if and only if nothing was written before it |
| Rollback.CollectedRunIsUndoneExactly | orchestrator-service/app/tasks/file_collector.py:48-93 | files as they are collected, each path once, and a sink that restores: a clean failure gives the store back if and only if it keeps an object per file or no entry was taken over |
| Rollback.PerFileRollbackIsExact | orchestrator-service/app/pipeline/stage_sync.py:389-520 | an object per file, any file list: a clean failure gives back every store if and only if no file was written twice before it, since the restores run first write first |
| SyncHistory.RunKeepsInv | orchestrator-service/app/ui/recorder.py:193-246 | over every run of whole syncs, failed syncs and outside edits, rules and registrations changing in between: each key a latest record lists is in the key space it names, was taken by something else, or is misplaced by a moved rule |
| SyncHistory.NoPruneTakesAListedKey | orchestrator-service/app/pipeline/stage_sync.py:111-294 | in every such run, no prune deletes a key that any latest record lists in the key space being pruned: by its recorded key space, or by the rules when it has none |
| SyncHistory.FixedRunsAreRuns | orchestrator-service/app/pipeline/stage_sync.py:69-178 | while rules and registrations stay as they are, the prunes notice every other target, so the run theorems need no further condition on them |
| SyncHistory.RecordsStayRightExactly | orchestrator-service/app/ui/recorder.py:193-246 | after a sync the records are right about where their keys are if and only if the keys of files not written again, of a target recorded elsewhere, are in the sync's key space anyway |
| SyncSteps.InterleavingsKeepListed | orchestrator-service/app/tasks/etl.py:267-284 | step by step, any number of syncs at once, each recorded file by file after its locks are given up: once every file written is recorded, no key a record lists has been pruned, if each prune noticed the other targets and found nothing unrecorded up for deletion |
| SyncSteps.PruneSparesOpenExactly | orchestrator-service/app/tasks/etl.py:267-284 | whatever the sink reads back, a prune takes no key that another sync or environment has written and not recorded, if and only if none is up for deletion there by ledger, rule and files |
| SyncSteps.LostKeyIsListed | orchestrator-service/app/tasks/etl.py:267-284 | a key taken before its file is recorded is then listed and gone, whatever steps lie between, until something puts it back |
| SyncSteps.OwnTargetIsUnlocked | orchestrator-service/app/pipeline/stage_sync.py:386-392 | what a prune can miss of its own environment is only what a sync left that has given up its locks |
| SyncHistory.WritesSurviveExactly | orchestrator-service/app/pipeline/stage_sync.py:205-221 | whatever the sink reads back and however deletes go, everything a sync writes survives its prunes if and only if no key written to one environment is, by ledger, rule and files alone, up for deletion from another in the same key space |
| SyncRuns.RunIsAllowed | orchestrator-service/app/pipeline/stage_sync.py:386-542 | the sync of a run, or of the files before its failure, is one the history allows |
| SyncRuns.RunIsHistory | orchestrator-service/app/pipeline/stage_sync.py:523-542 | what a run asks delete_keys for in each environment, and the pending keys it hands on, are the history's |
| SyncRuns.WrittenAreTheFiles | orchestrator-service/app/pipeline/stage_sync.py:460-464 | what it writes to an environment are the keys of the environment's files |
| SyncRuns.LastWritingsCount | orchestrator-service/app/pipeline/stage_sync.py:460-464 | whatever files a run has, repeated ones too: its prunes and records are given each path of the environment once, as written last |
| SyncRuns.FailedRunTakesNothing | orchestrator-service/app/pipeline/stage_sync.py:491-523 | a run that failed, or cannot read the ledger, takes no key and leaves what was pending so |
| SyncRuns.OkResultsAreTheParts | orchestrator-service/app/ui/recorder.py:219-246 | after a failure the recorder keeps exactly the files before it |
| Flattening.PyFlatten | orchestrator-service/app/pipeline/transformer.py:146-187 | for every tree the stack loop ends and equals the document-order reading in which the first leaf with a key wins |
| TreeEdits.FlattenAt | orchestrator-service/app/pipeline/transformer.py:146-187 | on object trees the flat form has, under each key, the leaf at the key's path |
| TreeEdits.FlattenIsPrefixFree | orchestrator-service/app/pipeline/transformer.py:146-187 | no flat key of an object tree is the parent of another |
| TreeEdits.LeafAfterPut | orchestrator-service/app/pipeline/transformer.py:264-291 | setting a leaf removes exactly the leaves on its way and below, and changes no other |
| Unflattening.ClashesExactly | orchestrator-service/app/pipeline/transformer.py:199-205 | the clash test finds a key exactly when one key is a proper path prefix of another |
| Unflattening.Unflatten | orchestrator-service/app/pipeline/transformer.py:190-212 | raises exactly on a clash, else gives the nested tree |
| Unflattening.WayIsFree | orchestrator-service/app/pipeline/transformer.py:206-211 | the loop never descends into a value nor overwrites one |
| Unflattening.FlattenOfUnflatten | orchestrator-service/app/pipeline/transformer.py:146-212 | flatten(unflatten(m)) = m if and only if no key starts with a dot |
| Unflattening.UnflattenOfFlatten | orchestrator-service/app/pipeline/transformer.py:146-212 | unflatten(flatten(t)) is t's data for object trees with string leaves, good keys and no empty inner object |
| FileShape.Walk | orchestrator-service/app/pipeline/transformer.py:235-261 | the in-place walk finds what the recursive reading finds, creating the same objects |
| FileShape.Shape | orchestrator-service/app/pipeline/transformer.py:264-291 | file_shape as it runs equals the tree edited rename by rename and key by key |
| FileShape.Transform | orchestrator-service/app/pipeline/transformer.py:95-118 | the flat keys after the variables_map overlay |
| FileShape.RenameCommutesExactly | orchestrator-service/app/pipeline/transformer.py:105-118 | renaming in the tree and in the flat map commute if and only if the renamed keys are prefix-free |
| FileShape.ShapeFlattensBack | orchestrator-service/app/pipeline/transformer.py:105-291 | flattening file_shape gives flat_data if and only if flat_data's keys are prefix-free; intermediate flat maps need not be |
| FileShape.FlatShapeFlattensBack | orchestrator-service/app/pipeline/transformer.py:270-271 | a flat file's shape flattens back whatever its keys |
| FileShape.UneditedKeepsItsType | orchestrator-service/app/pipeline/transformer.py:277-291 | a flat value the file already has is not put in again: its leaf keeps its type |
| ListKeys.FlatKeyFindsLeaf | orchestrator-service/app/pipeline/transformer.py:146-261 | through lists and objects alike: a leaf's flat key is in the flat file, and _locate finds that very leaf by it, changing nothing |
| Merging.MergeLayers | orchestrator-service/app/pipeline/rule_layers.py:69-84 | the loop over the mergeable keys equals the key-by-key merge |
| Merging.MergeAssociates | orchestrator-service/app/pipeline/rule_layers.py:69-88 | merge_child is associative on typed settings, prune as bool or block included |
| Merging.AssociativityBreaksExactly | orchestrator-service/app/pipeline/rule_layers.py:69-84 | any values, a mergeable map other than prune: merging order matters exactly when a middle layer puts a non-map between two maps and the upper one lacks a key of the lower |
| Merging.PruneAssociativityBreaksExactly | orchestrator-service/app/pipeline/rule_layers.py:69-88 | any values, prune: it matters exactly when a null stands between two settings of which one is a block and the lower adds to the upper, or a middle protection is no list and the lower block adds patterns |
| Presets.Resolver.ResolveConfig | orchestrator-service/app/pipeline/presets.py:121-141 | the recursive loop with its cache gives the cache-free result and ends for every finite universe, cycles included |
| Presets.ResolveIsFold | orchestrator-service/app/pipeline/presets.py:121-163 | resolving is one left fold of merge_child over the preset bodies in post-order, and fails exactly when one cannot be loaded |
| Presets.ResolvedHasNoExtends | orchestrator-service/app/pipeline/presets.py:121-141 | no extends is left |
| PresetEffects.PresetOfPreset | orchestrator-service/app/pipeline/presets.py:121-163 | whose value an option has, of settings, their preset and the preset's preset: the uppermost's; the inner one is looked up from the server the outer one lies on, and one met again adds nothing |
| PresetEffects.LastPresetWins | orchestrator-service/app/pipeline/presets.py:133-139 | of several presets the last that sets an option wins; one already in the chain adds nothing |
| PresetEffects.DescriptionIsOwn | orchestrator-service/app/pipeline/presets.py:121-163 | no preset's description is passed on, through any number of presets |
| PresetEffects.FilePresetReachesRules | orchestrator-service/app/pipeline/presets.py:166-191 | an option that a rule leaves out is that of the preset its file extends |
| PresetEffects.NothingExtended | orchestrator-service/app/pipeline/presets.py:177-191 | without a known origin a rule is accepted, as it is, if and only if neither it nor its file extends anything |
| BundlePresets.ResolveBundleRules | orchestrator-service/app/pipeline/presets.py:166-191 | every rule of the file resolved, in order, or none |
| BundlePresets.RuleIsLaidOverPresets | orchestrator-service/app/pipeline/presets.py:166-191 | a rule is its own settings over its presets over the file's presets |
| RuleLayers.ForceHasTheLastWord | orchestrator-service/app/pipeline/rule_layers.py:91-175 | every forceable key of config.cue's force has force's value after the bundle.json and vartrack.json layers |
| RuleLayers.AdminKeysAreConfigCues | orchestrator-service/app/pipeline/repo_overrides.py:124-141 | the final rule's admin-only keys are config.cue's, whatever the layers say, old option names included |
| LayerEffects.OptionIsUppermost | orchestrator-service/app/pipeline/rule_layers.py:91-175 | for every option that neither merges nor is forced: the sync's rule has vartrack.json's value if it may give one and does, else bundle.json's if it may and does, else config.cue's, old names counted |
| LayerEffects.EntryIsUppermost | orchestrator-service/app/pipeline/rule_layers.py:69-175 | of a map option every entry is that of the uppermost layer that may give it and does, prune as a bool included |
| LayerEffects.FormerNameCounts | orchestrator-service/app/pipeline/renamed_options.py:32-57 | an option under its former name counts under the current one, unless it is given there too |
| LayerEffects.TenantAndRepository | orchestrator-service/app/pipeline/rule_layers.py:150-175 | whose the rule is, and which repository it reads |
| LayerEffects.RepoMaySay | proto/vartrack/v1/models/rule.proto:86-316 | under rule.proto's declarations a vartrack.json says its repository's options, under their current names, and nothing else |
| LayerEffects.BundleMaySay | orchestrator-service/app/pipeline/rule_layers.py:159-175 | a bundle.json says anything but sink settings and what config.cue keeps to itself |
| FlatProtection.PatternsOfSyncExactly | orchestrator-service/app/tasks/payload.py:108-130 | a pattern is among those a sync prunes by if and only if some layer's block lists it, or no layer's block lists any and it is a flat pattern of bundle.json, or of config.cue when bundle.json gives none |
| Protection.PatternInAnyLayerProtects | orchestrator-service/app/pipeline/stage_sync.py:258-260 | a key matching a pattern of any resolved layer is never deleted |
| PresetProtection.PatternInAnyPresetProtects | orchestrator-service/app/pipeline/stage_sync.py:258-260 | from end to end: a key matching a pattern of config.cue, of bundle.json or vartrack.json, or of any preset these extend, is never deleted while force leaves prune alone |
| Protection.FlatPatternCountsExactly | orchestrator-service/app/tasks/payload.py:116-130 | a former flat protection pattern counts exactly when the block lists none of its own or lists it too |
| RuleLookup.ListTenantRules | orchestrator-service/app/pipeline/rule_layers.py:206-222 | tenant_rules as it runs: the tenant's layered rules, then those it owns unclaimed |
| RuleLookup.LookupsAgree | orchestrator-service/app/pipeline/rule_layers.py:206-250 | rule_for and tenant_rules agree for every tenant and key |
| RegistryLookups.GetAllRules | orchestrator-service/app/schema_registry/manager.py:101-111 | tenant_rules over the first clone that answers to the tenant |
| RegistryLookups.ResolveRule | orchestrator-service/app/schema_registry/manager.py:325-336 | rule_for over the first rule any answering clone has |
| RegistryLookups.CallersAgreeExactly | orchestrator-service/app/schema_registry/manager.py:101-336 | the two agree on a rule, under every config.cue and whatever else is claimed, if and only if the first clone that answers has it or none does |
| RegistryLookups.OwnClonesAnswer | orchestrator-service/app/schema_registry/manager.py:107-110 | a tenant's own clones answer to it, and among tenants without a colon in their names no others |
| RuleLookup.RulesOfAll | orchestrator-service/app/pipeline/schema_utils.py:141-161 | the fan-out visits registered tenants, default and every owner, each once |
| RuleLookup.WhoHolds | orchestrator-service/app/pipeline/rule_layers.py:225-250 | a rule runs under the allowed tenants that name it, or under its owner when none does |
| TenantAccess.ListedTenantsOnly | orchestrator-service/app/pipeline/rule_layers.py:178-250 | read off "tenants" and the bundle.json files: a rule that lists tenants runs under those listed whose bundle.json names it, while none does under the first listed, and never under another |
| TenantAccess.OpenToEveryTenant | orchestrator-service/app/pipeline/rule_layers.py:178-250 | a rule that lists none runs under every tenant whose bundle.json names it, while none does under default |
| RuleLookup.FanOutCoversEveryRule | orchestrator-service/app/pipeline/schema_utils.py:141-161 | every config.cue rule is listed, an unclaimed one exactly once, a claimed one once per claiming tenant |
| UniqueRules.CheckUniqueRules | libs/go/bundle/unique_rules.go:13-26 | refuses exactly the bundles with a repeated pair, naming the first repeat and what it repeats; what it accepts is unique for the lookups |
| UniqueRules.CheckedBundlesAreCovered | orchestrator-service/app/pipeline/schema_utils.py:141-161 | checked bundles under rule.proto's declarations: every config.cue rule runs once, or once for each tenant that claims it |
| PrBranchCache.Cache.RegisterPr | orchestrator-service/app/pipeline/pr_branch_cache.py:78-104 | registering: the whole new order and contents |
| PrBranchCache.Cache.EvictBranch | orchestrator-service/app/pipeline/pr_branch_cache.py:106-117 | evicting removes the branch and nothing else |
| PrBranchCache.Cache.LookupBranch | orchestrator-service/app/pipeline/pr_branch_cache.py:119-142 | a hit returns the number and becomes most recent; a miss changes nothing |
| PrBranchCache.RunWithinCapacity | orchestrator-service/app/pipeline/pr_branch_cache.py:78-142 | over every run the size never exceeds the capacity |
| PrBranchCache.RegisteredBranchStays | orchestrator-service/app/pipeline/pr_branch_cache.py:78-142 | an un-evicted branch keeps its latest number while fewer than capacity distinct others were used since its last use |
| PrBranchCache.UntouchedBranchStaysExactly | orchestrator-service/app/pipeline/pr_branch_cache.py:78-142 | without evictions an untouched branch is cached if and only if fewer than capacity distinct others were used since |
| EnvResolver.Resolve | orchestrator-service/app/pipeline/env_resolver.py:57-129 | the cascade, asking the cache exactly when it is a push without a number that nothing before claims |
| EnvResolver.FirstSettingAnswers | orchestrator-service/app/pipeline/env_resolver.py:79-129 | for every event the environment is that of the first setting that has an answer: branch_map, file_path_map, branch_as_env, the event's own pull request, the cached one, the tag, then default |
| EnvResolver.PrEventGoesToItsPr | orchestrator-service/app/pipeline/env_resolver.py:103-119 | an event with its pull request N goes to pr-N whatever the cache, branch and tag, when the settings before it have no answer |
| EnvResolver.PlainPushFindsItsPr | orchestrator-service/app/pipeline/env_resolver.py:103-119 | after any history a plain push to a registered branch goes to pr-N with its latest N while there is room |
| EnvResolver.ClosedPrIsForgotten | orchestrator-service/app/pipeline/env_resolver.py:103-129 | after an evict the same push falls back until the branch is registered again |
| EnvResolver.NeverEmptyExactly | orchestrator-service/app/pipeline/env_resolver.py:68-129 | the documented never-empty result holds for the events that arrive if and only if no branch and no file is mapped to a blank name |
| EnvResolver.TagPushGoesTo | orchestrator-service/app/tasks/payload.py:34-43 | where a pushed tag goes: extract_branch leaves its ref whole, so branch_as_env and the PR cache see a branch of that name first |
| EnvResolver.PushedBranchGoesTo | orchestrator-service/app/tasks/payload.py:34-43 | where a push to a branch goes when no file map takes it, under the branch's plain name |
| CircuitBreaker.Breaker.AllowRequest | gateway-service/internal/middlewares/circuit_breaker.go:72-98 | admission and the new state |
| CircuitBreaker.Breaker.RecordSuccess | gateway-service/internal/middlewares/circuit_breaker.go:101-115 | the new state after a success |
| CircuitBreaker.Breaker.RecordFailure | gateway-service/internal/middlewares/circuit_breaker.go:118-133 | the new state after a failure |
| CircuitBreaker.AdmitsExactly | gateway-service/internal/middlewares/circuit_breaker.go:72-98 | after any trace: closed lets every request through; open exactly those later than the open duration after the failure that opened it; half open exactly while those let through, less the successes reported, are fewer than HalfOpenMaxAllowed |
| CircuitBreaker.ModeIsExplained | gateway-service/internal/middlewares/circuit_breaker.go:72-153 | for every trace: what brought the present mode about, and what each counter counts |
| CircuitBreaker.OpensExactlyOnThreshold | gateway-service/internal/middlewares/circuit_breaker.go:118-128 | from closed it opens if and only if the failure completes the streak since the last success |
| CircuitBreaker.OpenUntilAskedLate | gateway-service/internal/middlewares/circuit_breaker.go:79-85 | open stays open whatever is recorded; a request is let through exactly when later than the open duration |
| CircuitBreaker.RefusesWhileOpen | gateway-service/internal/middlewares/circuit_breaker.go:79-85 | in time order everything is refused until the duration has passed |
| CircuitBreaker.ClosesExactlyAfterSuccesses | gateway-service/internal/middlewares/circuit_breaker.go:101-115 | closes if and only if one half-open period without a failure completes the success threshold |
| CircuitBreaker.ProbesStayBounded | gateway-service/internal/middlewares/circuit_breaker.go:87-92 | requests let through less those reported back never exceed max(1, HalfOpenMaxAllowed) in a half-open period |
| CircuitBreaker.CountersStayInRange | gateway-service/internal/middlewares/circuit_breaker.go:72-153 | no counter leaves the thresholds' range, so machine integers do not wrap |
| CloneRegistry.Registry.Settle | orchestrator-service/app/schema_registry/manager.py:193-208 | the double check: the first clone is registered, a later one loses to it |
| CloneRegistry.Registry.PopTenant | orchestrator-service/app/schema_registry/manager.py:247-251 | exactly the keys with the tenant's prefix are taken out |
| CloneRegistry.RunKeepsInv | orchestrator-service/app/schema_registry/manager.py:183-253 | any number of calls in any interleaving: each directory is another process's or has exactly one owner: a key, an unfinished clone or a removal |
| CloneRegistry.QuietDiskIsRegistered | orchestrator-service/app/schema_registry/manager.py:183-253 | when all calls are over the disk holds exactly the registered clones, each under one key, beside the others' |
| CloneRegistry.ReturnedPathWasRegistered | orchestrator-service/app/schema_registry/manager.py:196-210 | a finished get_or_clone, losing or not, returns a path registered under its key while it ran |
| CloneRegistry.LoserReturnsWinner | orchestrator-service/app/schema_registry/manager.py:206-210 | a losing thread returns the path that was there first |
| CloneRegistry.RegisteredIsReused | orchestrator-service/app/schema_registry/manager.py:183-186 | a call that finds its key registered clones nothing and returns the registered path |
| CloneRaces.StaysOnDiskExactly | orchestrator-service/app/schema_registry/manager.py:183-253 | in every run a returned path stays on disk, if and only if no call of the set invalidates its key |
| CloneRaces.ReturnsOnDiskExactly | orchestrator-service/app/schema_registry/manager.py:193-245 | in every run it is on disk at the moment it is returned, under the same condition: the lock is given up before the return |
| CloneRegistry.InvalidationReachesExactly | orchestrator-service/app/schema_registry/manager.py:249-251 | which keys the prefix test matches, other tenants' included |
| CloneRegistry.RunIsBounded | orchestrator-service/app/schema_registry/manager.py:183-253 | every run ends |
| CloneRegistry.UnfinishedCanMove | orchestrator-service/app/schema_registry/manager.py:183-253 | a call that is not over can always go on |
| SecretRefs.WrapSecretRefs | libs/go/bundle/secret_refs.go:19-54 | the walk over an object's fields gives the wrapped value |
| SecretRefs.WrapValue | libs/go/bundle/secret_refs.go:58-67 | a SecretRef's string becomes an object, other forms stay, other messages are entered |
| SecretRefs.NoBareSecretLeft | libs/go/bundle/secret_refs.go:19-67 | afterwards no position typed as SecretRef, at any depth, holds a bare string |
| SecretRefs.SecretFieldIsWrapped | libs/go/bundle/secret_refs.go:19-67 | a string in a SecretRef field, by either of its names, alone, in a list or in a map, becomes an object with it under value |
| SecretRefs.EveryPositionKept | libs/go/bundle/secret_refs.go:19-67 | every other position keeps its value or its keys and length |
| SecretRefs.NewPositionsAreWrapped | libs/go/bundle/secret_refs.go:58-67 | the only new positions are the values of wrapped strings |
| SecretRefs.UnchangedExactly | libs/go/bundle/secret_refs.go:19-67 | the walk changes nothing if and only if there was no bare secret |
| SecretRefs.WrapTwice | libs/go/bundle/secret_refs.go:19-67 | a second walk changes nothing |

## Left out

- Redis itself: lease expiry and going on unlocked when Redis cannot be reached void mutual exclusion by design.
- Storage of the ledger, the sink drivers, metrics, the change log, Celery, gRPC and HTTP.
- sync_mode and the written counts in a sync's results; record fields that prune does not read (commit, times, actor); prune_candidates, which previews a prune.
- with_datasource_settings and _recorded_key_space's fallback for a sink that raises: a key space is a function of sink class, rule, tenant and environment.
- Protection globs are an abstract predicate; what a sink reads back, and whether a write, a restore or a delete raises, are inputs.
- list_targets gives a set of targets; its order, and the order of names in the shared-key-space warning, are not modelled.
- MongoSink's snapshot that cannot be read comes back empty there; in Rollback a snapshot is what the file held. Documents of the other shape, left when a datasource's update_strategy changed, are not modelled.
- SyncHistory.RunKeepsInv: a sync is one step there, from its first write to its last record. The code records after giving the locks back, so syncs can overlap, of one environment too; SyncSteps takes the steps apart. A failed sync is a step where the sink keeps what was written, with the files before the failure written and recorded, nothing pruned and the pending keys kept. Where the sink undoes them the recorder records nothing, and what a rollback leaves is an outside edit; so is what the failing write itself leaves.
- SyncSteps.InterleavingsKeepListed: its events are a key written, an environment pruned and a file recorded; a prune reads the ledger and deletes in one step, and so does record_target read and write a record.
- Rollback.RowComesBackExactly: the store holds one document for each key, as the program's own writes keep it; which of two with the same key an update would pick is not modelled. What GIT_SMART_REPAIR finds unchanged and does not write counts as not set.
- SyncRuns.RunIsAllowed: assumes that no file's path reads like the inventory name of another file of its repository.
- Nested documents are values: unflatten, _locate and file_shape return the changed tree instead of updating dicts in place, so aliasing between parts of a document is not captured. The same holds of the JSON value that the SecretRef walk rewrites.
- The Rust flattener, Python sets, non-string keys and NaN; numbers stand as their text.
- FileShape.ShapeFlattensBack: claims nothing for lists (of these ListKeys.FlatKeyFindsLeaf says that every leaf is found by its flat key), for section keys with dots or for rename targets that start with a dot; a renamed list element stays in its list there.
- Preset names are located by a function and files read from a finite map: the regular expression and Git are not modelled. Settings are typed for the fold (extends is a name or a list of names, mergeable maps are maps, prune is a bool or a block); what untyped ones do to the order of merging is stated exactly.
- Bundle errors in get_all_rules and resolve_rule, the Redis read-through cache of rules, and the per-rule reload timing in schema_utils.
- UniqueRules.CheckUniqueRules: gives the positions of the repeat, not the text of the message.
- EnvResolver.NeverEmptyExactly: of Git's rules for names it uses only that no ref ends in a slash.
- CloneRegistry.RunKeepsInv: no refresh on expiry, no path without GitPython (its clones share one directory), no clone that raises, and other processes' directories stay as they are; rmtree removes the whole directory in one step.
- CircuitBreaker.ProbesStayBounded: bounds the breaker's own count; a request that is let through and never reported keeps its slot, and a late report from an earlier period frees one.
- The breaker's liveness: a half-open breaker whose probes are never reported stays half open.
- The PR cache's lock, inspection helpers and logging; a capacity of zero, for which registering raises.
- Parsers, CUE validation, Vault, masking, Git permissions, rate limiters, monitoring, the CLI and the UI.
