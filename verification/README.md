# Content consistency of a launcher profile

A profile is a Minecraft instance with content that the launcher manages: mods, resource packs,
shader packs, and modpacks that bring further content with them. This project models the parts of
the Rust backend that keep that content consistent, and proves what they promise.

**Modpack ownership** (`ContentModel`, `PackMembership`, `PackOperations`, `PackOwnership`,
`PackInstallation`, `PackLifecycle`, `PackLaws`, `PackRoundTrip`, `PackScenario`, `PackMeaning`, `LockValidation`,
`ContentService`). A profile selects contents; modpacks add memberships, some of which own the selection
they list. The source nowhere says what owning means. Here it is made explicit with a ghost set `manual` of the contents a user chose
or switched directly: a selected content is manual, a pack, or listed by a pack, and it has exactly one
owning membership exactly when it is not manual. `PackOwnership.Inv` is kept by every sequence of
installing, updating, switching and removing (`PackLifecycle.RunKeepsInv`). Every operation of
`ContentService.Profile` keeps it, and the laws users see follow from it.

**The projection transaction** (`Journal`, `Markers`, `ProjectionPlan`, `ProjectionProofs`,
`ProjectionTheorems`, `ProjectionCommit`, `ProjectionValidation`, `ProfileTree`, `ProjectionRuns`,
`ProjectionRepeat`, `LaunchMeaning`, `PlanMeaning`).
Before a launch the instance directory is reconciled with an immutable revision: verified copies are
staged, old files are moved to backups, new ones are renamed into place, and a renamed marker commits.
The file system is a map from paths to bytes. Every call may fail at any moment, before or after its
effect: `rename_new` renames first and synchronises directories afterwards
(`src-tauri/src/security/fs.rs:99-106`), so a rename can have happened although it is reported as
failed. The theorems range over every schedule of such failures; where a promise fails for some of
them, the condition is part of the theorem. `ProfileTree.Tree` is the imperative form;
`ProjectionTheorems.Transact` is what it is proved against.

**The profile archive** (`CopyLoop`, `TemporaryNames`, `ProfileArchive`, `ProfileBinding`,
`ProfileExport`, `ProfileImport`, `ProfileRoundTrip`, `ArchiveMeaning`, `InspectionMeaning`, with `Ordering` and
`OrderedMaps`). A profile is exported as a ZIP archive with a manifest and one entry per content hash, and
imported after a strict inspection.

**Three loops of the modpack import** (`DependencyGraph`, `DependencyMeaning`, `TargetLayout`, `OverrideMerge`,
`OverrideMeaning`): downloading everything a version requires, refusing target sets that cannot be laid out
as files, and merging override files by priority.

What is borrowed from outside (the resolver, hashes, the portable collision key, JSON, ZIP, providers)
is a parameter; what is assumed of it is a named predicate: `ContentService.Sound`,
`ContentModel.Resolution`, `Markers.Lossless`, `ProjectionPlan.SoundPlatform`,
`ProfileRoundTrip.Faithful`, and `DependencyGraph.Coherent` for one clause of `DependencyGraph.DownloadGraph`.

The methods are proved against functions and relations, and the theorems are about those. The modules whose
name ends in `Meaning` say once more what each of them comes to, in the fields of the lock, the document, the
entries or the provider's answers alone, so that a theorem never rests on a definition only.

## Findings

Some promises one would expect do not hold of the code; each has an exact condition and an input that
shows it.

- A failed projection that reports a complete rollback has restored everything **exactly unless** the
  first failing call was a rename that had taken effect (`ProjectionTheorems.AllOrNothing`).
- No file is ever lost, **exactly unless** a backup rename took effect late and the cleanup after the
  rollback then removed its slot, the only copy (`ProjectionTheorems.NoBytesLost`, with a concrete case in
  `ProjectionCommit.LateRenameLosesFile`). A stuck rollback loses nothing.
- When no call fails after the plan has stopped, the rollback is complete **exactly unless** a late rename
  went to a place that held a file before, a replaced target or the old marker
  (`ProjectionTheorems.RollbackSucceeds`). The backup from that place can then never be undone, whatever
  later calls do: `ProjectionTheorems.LateOverFileSticks`, with a concrete case in
  `ProjectionCommit.LateCommitSticks`.
- After a rollback reported complete, the marker lists only files that are there **exactly unless** the
  late rename was the backup of an item, or the commit of a marker that manages something
  (`ProjectionRuns.RolledBackHonesty`, with a concrete case in `ProjectionRuns.LateBackupMisleads`).
  From then on every launch fails before it changes anything (`ProjectionRuns.LieBlocksLaunches`).
- Installing a new modpack and removing it restores keys, memberships and the switches of owned content. A
  manual selection the modpack turned on stays on (`PackRoundTrip.InstallThenRemove`, with a concrete case
  in `PackScenario.TurnedOnStaysOn`).
- That no modpack is listed as another's content need not be assumed: the catalog refuses two kinds for
  one identifier (`src-tauri/src/content/resolver.rs:361-371`), and
  `PackInstallation.CatalogKeepsPacksApart` derives it.
- An export fails when its temporary name happens to be the destination's own name
  (`ProfileExport.Export`), which is possible for names of the base-32 alphabet: `ProfileExport.OwnNameFails`.
- An exported archive can be imported **exactly** if it has no more entries than the limit and the ZIP
  writer added neither a header extension to an entry nor a ZIP64 record to the archive
  (`ProfileRoundTrip.RoundTrip`): the inspection refuses both, also where large archives need them.
- The branches for a missing staged copy, a missing export source, a second manifest, a missing import
  artifact and an overflowing override total are never taken.

## Model

| member | source | states |
|---|---|---|
| PackMembership.DropPack | src-tauri/src/content_service.rs:1074-1105 | taking a pack's memberships out hands each selection it owned to the first remaining membership of that content, and removes the selections nobody else lists |
| PackMembership.FindPreviousPack | src-tauri/src/content_service.rs:1972-2004 | the modpack to be replaced is the first installed modpack of the same Modrinth project; local packs never match |
| PackMeaning.PreviousPack | src-tauri/src/content_service.rs:1972-2004 | a pack from Modrinth replaces the first installed modpack whose source is of the same project, in whatever release, and nothing exactly if there is none; a local one replaces nothing |
| PackMeaning.ReplacedPackGone | src-tauri/src/content_service.rs:2008-2045 | no membership of the replaced pack is left but for files the new one lists |
| PackMeaning.MembersInstalled | src-tauri/src/content_service.rs:2029-2086 | afterwards there are exactly the memberships of the other packs and one per file of the new pack, with its version and default; of the packs left that list an orphan the first by identifier inherits it; a new membership owns its file if the replaced pack did or nobody had selected it |
| PackMeaning.SelectionsInstalled | src-tauri/src/content_service.rs:1469-1497 | selection by selection: which stay, which go, at which version and how switched, before and after the memberships have their say |
| PackMeaning.InstalledBounds | src-tauri/src/content_service.rs:2087-2105 | at most 4096 memberships and 4096 selections result |
| PackMeaning.InstallAllowed | src-tauri/src/content_service.rs:2052-2075 | a file is acceptable exactly if no pack that stays lists it at another version and it is not installed at another version, unless the replaced pack owned it |
| PackMeaning.RefusalMeans | src-tauri/src/content_service.rs:2052-2075 | each reported conflict names such a membership or such an item |
| PackMembership.PreparePackTransition | src-tauri/src/content_service.rs:1989-2111 | a transition succeeds exactly when no pinned version clashes and both counts fit; its members are the remaining ones and one per file, in order, with the ownership rule for new members; every error names a real clash |
| PackMembership.ReconcileContent | src-tauri/src/content_service.rs:2132-2160 | one content's memberships agree on a version and have at most one owner, or the corresponding error results |
| PackMembership.ReconcilePackMemberSelections | src-tauri/src/content_service.rs:2113-2162 | reconciling succeeds exactly when every listed content is selected, versions agree and owners are unique; then each listed selection is pinned and on exactly if manual and on, or demanded by an enabled pack |
| PackOwnership.ReconcileIdempotent | src-tauri/src/content_service.rs:2113-2162 | reconciling twice is reconciling once, because no pack is itself listed content |
| PackInstallation.CatalogKeepsPacksApart | src-tauri/src/content/resolver.rs:361-371 | a catalog with one kind per identifier keeps packs and listed contents apart through every installation: no membership's pack is another's content |
| PackOwnership.OrphansUnowned | src-tauri/src/content_service.rs:2029-2045 | what a departing pack owned is owned by nobody else, so handing it over keeps owners unique |
| PackInstallation.TransitionReconciles | src-tauri/src/content_service.rs:1484-1497 | from an invariant state a successful transition can always be reconciled with the merged selections |
| PackInstallation.MergedKeysAreCounted | src-tauri/src/content_service.rs:2095-2105 | the merged selections have exactly the keys counted beforehand, so the bound of 4096 carries over |
| PackInstallation.TransitionKeepsOrder | src-tauri/src/content_service.rs:2087-2091 | the new membership list has no membership twice exactly unless another installed pack of the same identifier already lists one of the files |
| PackInstallation.FileIsNoPack | src-tauri/src/content/resolver.rs:361-371 | a file of a pack is never itself an installed pack |
| PackInstallation.OwnershipAfterTransition | src-tauri/src/content_service.rs:2047-2086 | after a transition each listed content is owned exactly when no user chose it |
| PackInstallation.InstallPackKeepsInv | src-tauri/src/content_service.rs:1305-1520 | installing or updating a pack keeps the meaning of ownership |
| PackLifecycle.RemovalReconciles | src-tauri/src/content_service.rs:1106-1113 | a permitted removal can always be reconciled |
| PackLifecycle.RemoveKeepsInv | src-tauri/src/content_service.rs:1045-1145 | removing a pack or a content keeps the meaning of ownership |
| PackLifecycle.ToggleReconciles | src-tauri/src/content_service.rs:1011-1027 | a permitted switch can always be reconciled |
| PackLifecycle.ToggleKeepsInv | src-tauri/src/content_service.rs:957-1043 | switching keeps the meaning of ownership, with the switched content now manual |
| PackLifecycle.InstalledIsNoMember | src-tauri/src/content_service.rs:439-463 | a direct install that succeeds is of something no pack lists |
| PackLifecycle.InstallContentKeepsInv | src-tauri/src/content_service.rs:473-489 | installing one content keeps the meaning of ownership, with it now manual |
| PackLifecycle.StepKeepsInv | src-tauri/src/content_service.rs:957-1231 | each of the four operations keeps the invariant |
| PackLifecycle.RunKeepsInv | src-tauri/src/content_service.rs:957-1545 | every sequence of operations keeps the invariant |
| PackLifecycle.EmptyProfileInv | src-tauri/src/content_service.rs:1045-1145 | a profile without content satisfies it |
| PackLifecycle.NoPacksLeavesManual | src-tauri/src/content_service.rs:1045-1145 | without packs exactly the manual selections remain |
| PackLaws.SwitchMeaning | src-tauri/src/content_service.rs:2150-2159 | owned content is on exactly when an enabled pack demands it |
| PackLaws.SwitchTakesEffect | src-tauri/src/content_service.rs:974-1027 | after a successful switch the selection is exactly as asked |
| PackLaws.PackOffOn | src-tauri/src/content_service.rs:957-1043 | switching an enabled pack off and on again restores every selection and membership |
| PackLaws.RemovalSparesManual | src-tauri/src/content_service.rs:1074-1113 | removing a pack leaves every manual selection selected and exactly as switched |
| PackLaws.RemovalsSpareManual | src-tauri/src/content_service.rs:1045-1145 | so does any sequence of pack removals |
| PackLaws.RemovingEveryPack | src-tauri/src/content_service.rs:1045-1145 | removing all packs, in any order, leaves exactly the manual selections, switched as they were |
| PackRoundTrip.MembersRestored | src-tauri/src/content_service.rs:1074-1105 | installing a new pack and removing it restores the membership list, order included |
| PackRoundTrip.InstallThenRemove | src-tauri/src/content_service.rs:1469-1497 | it restores the keys too, and every switch unless the modpack turned a manual selection on |
| PackRoundTrip.VersionsPinned | src-tauri/src/content_service.rs:2066-2078 | an installation changes no version but those of content the replaced pack owned |
| PackScenario.FirstInstall | src-tauri/src/content_service.rs:1305-1520 | into an empty profile any pack with one file can be installed, and owns that file's selection |
| PackScenario.OwnedGoes | src-tauri/src/content_service.rs:1045-1145 | removing that pack takes the file with it and leaves the empty profile |
| PackScenario.SwitchClaims | src-tauri/src/content_service.rs:1003-1010 | switching the file directly, though it is on already, takes its selection from the modpack |
| PackScenario.ClaimedStays | src-tauri/src/content_service.rs:1045-1145 | after that, removing the modpack leaves the file selected and on |
| PackScenario.TurnedOnStaysOn | src-tauri/src/content_service.rs:2150-2159 | a selection the user has switched off is turned on by a modpack that lists it and stays on when the modpack is removed |
| PackScenario.UpdateReplaces | src-tauri/src/content_service.rs:1972-2045 | importing another release of an installed Modrinth modpack replaces it: a file listed again moves to its new version, a dropped one leaves with the release that owned it |
| PackScenario.RequiredStays | src-tauri/src/content_service.rs:1960-1970 | a content an enabled item requires can be neither switched off nor removed |
| PackScenario.OptionalGoes | src-tauri/src/content_service.rs:1960-1970 | one an enabled item only recommends can be switched off |
| ContentService.ResolveNext | src-tauri/src/content_service.rs:2269-2324 | a resolved lock that keeps the memberships whose pack and content survive and is validated with them, or has none yet; unresolvable exactly when the resolver finds nothing |
| ContentService.Rebind | src-tauri/src/content_service.rs:1031-1033 | a lock given its final memberships is accepted exactly when it validates with them |
| ContentService.MergeSelections | src-tauri/src/content_service.rs:1469-1493 | the modpack is switched on, a file already selected keeps its switch and takes the modpack's version, others are added |
| ContentService.ClaimMembers | src-tauri/src/content_service.rs:974-1010 | a switch is refused exactly for a missing item, a required dependency or a demand of an enabled pack; otherwise the content's memberships lose ownership |
| PackMeaning.NeededMeans | src-tauri/src/content_service.rs:1960-1970 | a content is needed exactly if another enabled item has a resolved dependency on it of kind required |
| PackMeaning.SwitchAllowed | src-tauri/src/content_service.rs:974-1002 | switching on is always allowed; off exactly if no enabled item needs it and, unless it is a pack, no enabled pack wants it on |
| PackMeaning.MembersSwitched | src-tauri/src/content_service.rs:1003-1010 | position by position only the switched content's memberships change, and only lose ownership |
| PackMeaning.SelectionsSwitched | src-tauri/src/content_service.rs:1011-1029 | the selection is set at its own or the installed version, all others are as before, and the result is reconciled |
| ContentService.PlanToggle | src-tauri/src/content_service.rs:957-1032 | the next lock after a switch, or an error whose reason holds |
| ContentService.DropMembers | src-tauri/src/content_service.rs:1056-1105 | a removal is refused exactly for a missing item, a required dependency or a listed content; otherwise what stays and what goes |
| PackMeaning.RemovalPermitted | src-tauri/src/content_service.rs:1057-1073 | a removal is allowed exactly if no enabled item needs it and it is a pack or listed by none |
| PackMeaning.MembersRemoved | src-tauri/src/content_service.rs:1074-1105 | a removed pack leaves the memberships of the others, each orphan inherited by the first of them by identifier |
| PackMeaning.SelectionsRemoved | src-tauri/src/content_service.rs:1074-1113 | which selections go with the pack, and what the rest becomes |
| ContentService.PlanRemoval | src-tauri/src/content_service.rs:1045-1132 | the next lock after a removal, empty when nothing is selected any more, or an error whose reason holds |
| ContentService.PlanPack | src-tauri/src/content_service.rs:1320-1520 | the next lock after a pack import, or an error whose reason holds |
| ContentService.PlanContent | src-tauri/src/content_service.rs:435-489 | the next lock after a direct install, or an error whose reason holds |
| PackMeaning.ContentAdded | src-tauri/src/content_service.rs:435-489 | a direct install is of nothing a pack lists and of no Modrinth version already there, and adds one selection, on and at its version |
| PackMeaning.ItemsAfter | src-tauri/src/content/resolver.rs:111-270 | after any operation every item is a release that was there or that the operation brought, and keeps its kind |
| PackMeaning.SelectionsServed | src-tauri/src/content/resolver.rs:1172-1185 | after any operation every selection has an item of an admitted version, on if it is on |
| PackMeaning.MembershipsServed | src-tauri/src/content/resolver.rs:1098-1117 | after any operation every membership has its pack and its content, at its version, and what an enabled pack wants on is on |
| LockValidation.ValidExactly | src-tauri/src/content/resolver.rs:1083-1123 | for the memberships the operations produce, only content left off although an enabled pack wants it on makes the validation fail |
| LockValidation.SwitchValid | src-tauri/src/content_service.rs:1030-1034 | after a switch that is the one reason |
| LockValidation.RemovalInvalid | src-tauri/src/content_service.rs:1108-1132 | after a removal too, unless the resolver keeps the removed pack among the items |
| LockValidation.PackValid | src-tauri/src/content_service.rs:1498-1520 | after an installation the one other reason is another installed pack of the same identifier that lists a file |
| LockValidation.ContentValid | src-tauri/src/content_service.rs:473-489 | after a direct install the one other reason is a pack that lists the content |
| ContentService.Profile.Commit | src-tauri/src/content_service.rs:1035-1042 | committing a lock an operation produced keeps the invariant and records who asked for what |
| ContentService.Profile.SetEnabled | src-tauri/src/content_service.rs:957-1043 | keeps the invariant; on success the flag is as asked, on failure the lock is unchanged and the reason holds |
| ContentService.Profile.Remove | src-tauri/src/content_service.rs:1045-1145 | keeps the invariant; on failure the lock is unchanged and the reason holds |
| ContentService.Profile.InstallPack | src-tauri/src/content_service.rs:1305-1545 | keeps the invariant and the manual set; on failure the lock is unchanged |
| ContentService.Profile.InstallContent | src-tauri/src/content_service.rs:407-515 | keeps the invariant and makes the content manual; on failure the lock is unchanged |
| Journal.RollbackRestores | src-tauri/src/content_projection.rs:682-703 | if no rename was late: a rollback restores the files exactly if it reports success, and succeeds if no call fails any more |
| Journal.RollbackSplit | src-tauri/src/content_projection.rs:682-703 | undoing activations and then backups is undoing the whole journal from its end |
| Journal.MovedFileSurvives | src-tauri/src/content_projection.rs:682-703 | however a rollback goes, a moved file is back home or still where it was moved |
| Journal.LateRollback | src-tauri/src/security/fs.rs:99-106 | after a late rename a rollback that reports success has undone everything but that rename, which filled no place the journal had left |
| Journal.LateUndone | src-tauri/src/content_projection.rs:682-703 | if nothing fails any more and the late rename filled no place the journal had left, everything else is undone |
| Journal.RollbackReports | src-tauri/src/content_projection.rs:682-703 | if nothing fails any more, a rollback is complete exactly unless a late rename filled a place the journal had left |
| Journal.ReplayDelivers | src-tauri/src/content_projection.rs:504-577 | completed orderly moves leave each file at its destination with its bytes |
| Journal.ReplayVacates | src-tauri/src/content_projection.rs:504-577 | a place that is left and not filled again ends up empty |
| Markers.DecodeStream | src-tauri/src/content_projection.rs:823-851 | the byte stream under the marker's digest can be decoded again: framing by lengths loses nothing |
| Markers.StreamInjective | src-tauri/src/content_projection.rs:823-851 | two markers with the same stream agree on version, profile, revision, lock hash and all items |
| Markers.Hasher.AppendText | src-tauri/src/content_projection.rs:848-851 | a text is fed as its length in eight bytes and its bytes |
| Markers.FeedItems | src-tauri/src/content_projection.rs:837-844 | item by item, exactly the items' part of the stream is fed |
| Markers.MarkerStateSha256 | src-tauri/src/content_projection.rs:823-846 | the digest is the hash of the marker's stream |
| ProjectionProofs.MovesOrderly | src-tauri/src/content_projection.rs:504-577 | planned moves never interfere: each place is left once, filled once, and never left after being filled |
| ProjectionProofs.ActivatedOverManaged | src-tauri/src/content_projection.rs:394-430 | an activation over an existing file replaces a managed file of the same name that is moved away first |
| ProjectionProofs.MovesLegal | src-tauri/src/content_projection.rs:504-577 | on validated input no planned rename finds its source missing or its destination occupied |
| PlanMeaning.PlanSteps | src-tauri/src/content_projection.rs:499-579 | the steps are the backups, the old marker's if there is one, each activation with a checkpoint after it, and the commit |
| PlanMeaning.BackupSlot | src-tauri/src/content_projection.rs:504-529 | backed up is exactly each managed file no longer wanted as it is, to the slot numbered by the old items that precede it by key |
| PlanMeaning.BackupsInOrder | src-tauri/src/content_projection.rs:504-529 | in ascending order of the slots |
| PlanMeaning.ActivationSlot | src-tauri/src/content_projection.rs:546-570 | activated is exactly each wanted item that has to be brought in, from the slot numbered by its position |
| PlanMeaning.ActivationsInOrder | src-tauri/src/content_projection.rs:546-570 | in ascending order of the keys |
| ProjectionTheorems.JournalPrefix | src-tauri/src/content_projection.rs:501-579 | the journal, with a late rename if there is one, is a prefix of the plan, and all of it on success |
| ProjectionTheorems.AllOrNothing | src-tauri/src/content_projection.rs:581-591 | after a failure with complete rollback every file outside the directory, marker included, is as before exactly unless the first call that failed was a rename with its effect |
| ProjectionTheorems.LateExactly | src-tauri/src/security/fs.rs:99-106 | which rename was late can be read off the failures: the first call that does not work, if it is a rename of the plan that fails after its effect |
| ProjectionTheorems.RollbackSucceeds | src-tauri/src/content_projection.rs:682-703 | if no call fails after the plan stopped, the rollback is complete exactly when no rename was late or the late one went to a place without a file |
| ProjectionTheorems.LateOverFileSticks | src-tauri/src/content_projection.rs:682-703 | a late rename onto a place that held a file makes the rollback stick, whatever the later calls do |
| ProjectionTheorems.OnlyFaultsStop | src-tauri/src/content_projection.rs:501-579 | nothing but a failing call stops the plan |
| ProjectionTheorems.CommitsWithoutFaults | src-tauri/src/content_projection.rs:449-598 | without failing calls a validated projection commits |
| ProjectionTheorems.NoBytesLost | src-tauri/src/content_projection.rs:581-591 | whatever fails, every file from before is at its place or in its backup slot, exactly unless a backup rename was late, the rollback complete and the slot removed by the cleanup |
| ProjectionTheorems.LateBackupSurvives | src-tauri/src/content_projection.rs:581-591 | after a complete rollback the file of a late backup survives exactly if the cleanup leaves its slot |
| ProjectionCommit.CommitIsExact | src-tauri/src/content_projection.rs:504-598 | on success fresh items carry their sources' bytes, replaced items are gone, the marker is the desired one and nothing else changed |
| ProjectionCommit.ManagedPresent | src-tauri/src/content_projection.rs:600-643 | then every desired managed item is present with its size and hash |
| ProjectionCommit.UnwantedGone | src-tauri/src/content_projection.rs:504-534 | and every managed item no longer desired is gone |
| ProjectionCommit.ForeignUntouched | src-tauri/src/content_projection.rs:394-430 | a file the previous projection did not manage, an override's included, keeps its bytes |
| ProjectionCommit.DeletedSeedStaysDeleted | src-tauri/src/content_projection.rs:655-665 | an override that was seeded before and deleted since is not seeded again |
| ProjectionCommit.RepeatMovesNothing | src-tauri/src/content_projection.rs:645-653 | projecting the same items again moves and activates no content file |
| ProjectionCommit.RepeatIsStable | src-tauri/src/content_projection.rs:504-577 | and leaves every file but the marker as it was |
| ProjectionCommit.EarlyReturnRefines | src-tauri/src/content_projection.rs:134-146 | returning early gives what the transaction would commit: a marker that reads the same and all other files untouched |
| ProjectionCommit.LateRenameLosesFile | src-tauri/src/security/fs.rs:99-106 | a concrete projection whose only managed file is lost although the rollback is reported complete |
| ProjectionCommit.LateCommitSticks | src-tauri/src/content_projection.rs:571-591 | a concrete projection whose commit is late: the rollback sticks for every schedule of the later calls |
| ProjectionValidation.ValidateItems | src-tauri/src/content_projection.rs:316-341 | one pass accepts exactly well-formed, strictly sorted items with distinct collision keys |
| ProjectionValidation.ValidateMarker | src-tauri/src/content_projection.rs:300-346 | a marker is accepted exactly when its header, items and seal are right, with the error of the part that is not |
| LaunchMeaning.WantedItems | src-tauri/src/content_projection.rs:190-227 | projected are exactly the enabled contents that are no modpack, each with its own target, identifier, kind, size and hash, and the overrides of enabled modpacks likewise |
| ProjectionValidation.BuildDesired | src-tauri/src/content_projection.rs:180-266 | builds the sealed desired marker exactly if the lock is valid and the paths and the marker are too; the error names the part that is not |
| LaunchMeaning.WantedMarker | src-tauri/src/content_projection.rs:226-238 | the desired marker is of the current format and names the launch's profile, revision and lock hash |
| LaunchMeaning.BuildableExactly | src-tauri/src/content_projection.rs:180-266 | a lock can be projected exactly if it and its names and hashes are valid and its wanted items are admissible, of distinct keys and at most 12288; order and seal never fail |
| LaunchMeaning.LaunchDelivers | src-tauri/src/content_projection.rs:190-201 | after a successful launch every enabled content of the lock that is no modpack is at its target with the lock's size and hash: the managed file of before, or the revision's |
| LaunchMeaning.LaunchSeeds | src-tauri/src/content_projection.rs:202-227 | and every override of an enabled modpack has been seeded from the revision, or its place was left as it was |
| LaunchMeaning.LaunchLeavesOthers | src-tauri/src/content_projection.rs:504-534 | every other place of the instance is as before, except that managed files no longer wanted are gone |
| LaunchMeaning.LaunchMarks | src-tauri/src/content_projection.rs:571-579 | the marker on disk then names this profile, revision and lock |
| LaunchMeaning.ManagedResult | src-tauri/src/content_projection.rs:645-653 | a wanted managed file is kept exactly if one of its name, hash and size was managed before, and otherwise copied from the revision |
| LaunchMeaning.SeedResult | src-tauri/src/content_projection.rs:655-665 | an override is seeded exactly unless it was seeded under this name before, or a file stands there that no marker manages |
| LaunchMeaning.EarlyReturnMeans | src-tauri/src/content_projection.rs:134-146 | the early return is taken only with nothing to project and the desired marker on disk |
| ProjectionValidation.ReadPreviousMarker | src-tauri/src/content_projection.rs:268-298 | no marker, the valid marker on disk, or an error exactly when there is something else |
| ProjectionValidation.Scan | src-tauri/src/content_projection.rs:705-778 | directory by directory every standing name is recorded under its key; fails exactly if one of the directories is a file or two names collide |
| ProjectionValidation.ValidatePrevious | src-tauri/src/content_projection.rs:348-392 | accepted exactly when managed files are there under their own names and unaltered and overrides are absent or files; the first offender decides the error |
| ProjectionValidation.ValidateForeign | src-tauri/src/content_projection.rs:394-430 | accepted exactly when every desired target is free, an override's own file or a managed file of that name |
| ProjectionValidation.VerifySources | src-tauri/src/content_projection.rs:432-447 | accepted exactly when every source has its declared size and hash |
| ProjectionValidation.ChecksSuffice | src-tauri/src/content_projection.rs:153-163 | these validations give the transaction everything it relies on |
| LaunchMeaning.ChecksMean | src-tauri/src/content_projection.rs:348-447 | the checks accept exactly if every managed file is in place unaltered and alone under its key, every target is free or its own, and every source is right |
| LaunchMeaning.PreviousFaultMeans | src-tauri/src/content_projection.rs:357-390 | what each error about a previous item says is so |
| LaunchMeaning.ScannableMeans | src-tauri/src/content_projection.rs:705-778 | the scan succeeds exactly if no directory of an item is a file and no two names in them share a key |
| LaunchMeaning.ParentMeans | src-tauri/src/content_projection.rs:711-735 | a target's directory is all that precedes its last separator |
| LaunchMeaning.ReadableMarker | src-tauri/src/content_projection.rs:268-346 | a marker is read exactly if it is of this profile and format, within its bounds, strictly ascending, with distinct keys and the right seal |
| LaunchMeaning.AlteredMarkerRefused | src-tauri/src/content_projection.rs:823-851 | two accepted markers with one seal and different fields are a hash collision |
| LaunchMeaning.OwnMarker | src-tauri/src/content_projection.rs:300-315 | a launch goes by no other profile's marker |
| ProfileTree.Tree.RenameNew | src-tauri/src/security/fs.rs:99-132 | a rename that refuses to overwrite, and may fail before or after taking effect |
| Journal.RenameMeans | src-tauri/src/security/fs.rs:99-132 | it happens only if the source is there and neither file nor directory is at the destination, moves the bytes and nothing else, and reports success only if the call works to the end |
| ProfileTree.Tree.RemoveTransaction | src-tauri/src/security/fs.rs:134-148 | removal of the transaction directory, which may fail half-way and touches nothing else |
| ProfileTree.Tree.StageDesired | src-tauri/src/content_projection.rs:600-643 | stages a copy of every item that is not skipped, under the slot of its position, each of the declared size and hash; a failure leaves nothing outside the directory |
| ProfileTree.Tree.StageMarker | src-tauri/src/content_projection.rs:667-680 | writes the marker document, refused exactly when it is larger than 64 MiB |
| ProfileTree.Tree.BackUp | src-tauri/src/content_projection.rs:504-529 | moves every replaced file to the slot of its position, in key order, exactly as planned |
| ProfileTree.Tree.ActivateItem | src-tauri/src/content_projection.rs:547-570 | the skip decision is the one made while staging, so a staged copy is always found |
| ProfileTree.Tree.Activate | src-tauri/src/content_projection.rs:546-570 | activates every fresh item, in key order, with a checkpoint after each, exactly as planned |
| ProfileTree.Tree.RunPlan | src-tauri/src/content_projection.rs:499-579 | backups, marker backup, activations and commit are the planned steps, with the journal the rollback needs |
| ProfileTree.Tree.MoveBack | src-tauri/src/content_projection.rs:682-692 | undoes moves from the last to the first, remembering but passing over failures |
| ProfileTree.Tree.RollbackMoves | src-tauri/src/content_projection.rs:682-703 | undoes activations, then backups, as one rollback of the whole journal |
| ProfileTree.Tree.Recover | src-tauri/src/content_projection.rs:581-591 | removes the directory only after a complete rollback, and reports which of the two failed |
| ProfileTree.Tree.ApplyTransaction | src-tauri/src/content_projection.rs:449-598 | refuses a directory name in use; otherwise ends as the specified transaction does, and succeeds without failing calls unless the marker is too large |
| ProfileTree.Tree.ProjectForLaunch | src-tauri/src/content_projection.rs:120-172 | a launch ends early, fails without touching the instance, or ends as the transaction does; without failing calls it succeeds exactly when every validation passes |
| ProjectionRuns.TransactUntouched | src-tauri/src/content_projection.rs:449-598 | however a transaction ends, every place outside its directory that no planned move concerns is as it was |
| ProjectionRuns.TransactMarker | src-tauri/src/content_projection.rs:504-598 | however it ends, a marker found afterwards is the old or the desired one |
| ProjectionRuns.LaunchKeepsForeign | src-tauri/src/content_projection.rs:120-172 | no launch, however its calls and its rollback fail, changes an unmanaged file or starts to manage it |
| ProjectionRuns.RolledBackHonesty | src-tauri/src/content_projection.rs:581-591 | after a complete rollback the marker's managed files are all present exactly unless the late rename was an item's backup or the commit of a marker that manages something |
| ProjectionRuns.LateBackupMisleads | src-tauri/src/security/fs.rs:99-106 | a concrete launch rolled back completely after which the marker lists a file that is gone |
| ProjectionRuns.LieBlocksLaunches | src-tauri/src/content_projection.rs:348-392 | while the marker lists a managed file that is missing or altered, every launch fails and leaves all files as they are |
| ProjectionRuns.StepKeepsHonest | src-tauri/src/content_projection.rs:348-392 | no edit of unmanaged files and no launch makes the marker lie, if the launch was not one that misleads and no marker stayed behind a stuck rollback |
| ProjectionRuns.StepKeepsForeign | src-tauri/src/content_projection.rs:394-430 | no launch whatsoever changes an unmanaged file or starts to manage it, and no edit starts to manage one |
| ProjectionRuns.RunKeepsHonest | src-tauri/src/content_projection.rs:120-172 | in every run of edits and such launches the marker's managed items are always present with their hashes |
| ProjectionRuns.RunKeepsForeign | src-tauri/src/content_projection.rs:655-665 | in every run of launches and edits, with any failures, an unmanaged file, a seeded override included, keeps its bytes until an edit changes it |
| ProjectionRepeat.ScannableAfter | src-tauri/src/content_projection.rs:705-778 | what a committed launch leaves behind can be scanned again: no directory became a file and no two names collide |
| ProjectionRepeat.LaunchAgain | src-tauri/src/content_projection.rs:120-172 | after a committed launch the same launch passes every check again, and when it commits it has changed nothing outside its directory |
| CopyLoop.CopyAndHash | src-tauri/src/profile_format.rs:527-550 | copies and hashes everything exactly if it fits the maximum, however the reads are cut; otherwise stops after a prefix within it |
| TemporaryNames.TemporaryFileName | src-tauri/src/profile_format.rs:909-919 | filling the bytes from the right gives the last base-32 digits of the counter, never more than the width |
| TemporaryNames.NameDigits | src-tauri/src/profile_format.rs:909-919 | each character is the digit of its place, the last one counting units |
| TemporaryNames.WidthMeans | src-tauri/src/profile_format.rs:909-919 | a name is as wide as permitted, up to 24 |
| TemporaryNames.SameNameExactly | src-tauri/src/profile_format.rs:909-919 | two counters give one name exactly when congruent modulo 32 to the width |
| TemporaryNames.ConsecutiveDistinct | src-tauri/src/profile_format.rs:891-906 | any 32 consecutive values of the wrapping counter give different names, for every width |
| TemporaryNames.InjectiveExactly | src-tauri/src/profile_format.rs:909-919 | no two 64-bit counters share a name exactly from 13 characters on |
| TemporaryNames.Folder.CreateTemporaryFile | src-tauri/src/profile_format.rs:875-907 | creates the first free of 32 attempted names, overwriting nothing, or reports that all are taken |
| TemporaryNames.ExhaustedMeansFull | src-tauri/src/profile_format.rs:891-906 | the attempts run out only in a folder with at least 32 files |
| ProfileArchive.ClassifyMeaning | src-tauri/src/profile_format.rs:742-751 | a name is a hash's artifact exactly when it is the prefix followed by that valid hash |
| ProfileArchive.InspectEntry | src-tauri/src/profile_format.rs:587-652 | an entry is accepted exactly when nothing is wrong with it after the earlier ones; otherwise the first fault in order is the error |
| ProfileArchive.InspectArchive | src-tauri/src/profile_format.rs:571-662 | accepted exactly when frame, every entry and the presence of a manifest are right; the inventory lists the entries; the first faulty entry decides the error |
| ProfileArchive.SecondManifestCollides | src-tauri/src/profile_format.rs:639-643 | a second manifest is already refused as a collision |
| InspectionMeaning.FirstFailedCheck | src-tauri/src/profile_format.rs:587-652 | fourteen checks, each told by the entry's fields, in order: the first that fails decides the error |
| InspectionMeaning.InspectableExactly | src-tauri/src/profile_format.rs:571-662 | an archive is accepted exactly if its frame is right, every entry passes the checks, a manifest is there and the sizes together stay within the limits |
| InspectionMeaning.RatioMeans | src-tauri/src/profile_format.rs:723-740 | the ratio check passes exactly if the size is at most the permitted multiple of the compressed size; saturation and zero decide nothing |
| InspectionMeaning.TypeMeans | src-tauri/src/profile_format.rs:692-708 | of a 16-bit mode the file type must be absent or regular; a symbolic link has its own error |
| InspectionMeaning.FrameMeans | src-tauri/src/profile_format.rs:575-583 | the frame is refused for anything beside the entries first, and then for none or too many of them |
| ProfileBinding.SizesMeaning | src-tauri/src/profile_format.rs:427-451 | without conflicts each reference's hash has its size and every hash comes from a reference |
| ProfileBinding.ExpectedArtifacts | src-tauri/src/profile_format.rs:427-451 | succeeds exactly when each hash has one size and the count fits |
| ProfileBinding.ExpectedMeans | src-tauri/src/profile_format.rs:427-451 | expected are exactly the artifacts of all items and of all overrides, and a conflict is one hash with two sizes among them |
| ProfileBinding.ValidateArtifactSources | src-tauri/src/profile_format.rs:453-491 | accepted exactly when count, hashes, sizes, uniqueness and totals are right; the first faulty source decides the error |
| ProfileBinding.SourcesAreExpected | src-tauri/src/profile_format.rs:458-485 | by counting, accepted sources are exactly the expected artifacts, so none is missing later |
| ProfileBinding.ValidateInventoryBinding | src-tauri/src/profile_format.rs:775-803 | accepted exactly when the artifact entries are the expected hashes with their sizes |
| ProfileExport.CopyVerifiedSource | src-tauri/src/profile_format.rs:493-525 | copies a source exactly if it has the declared size and hash |
| ProfileExport.SumIsTotal | src-tauri/src/profile_format.rs:459-485 | adding up sizes by hash gives the total of the sources |
| ProfileExport.ExpectedTotal | src-tauri/src/profile_format.rs:179-190 | adding the sizes again while writing gives the validated total and cannot overflow |
| ProfileExport.WriteArtifacts | src-tauri/src/profile_format.rs:179-190 | writes every artifact in hash order exactly if all sources are genuine; no source is ever missing |
| ProfileExport.Publish | src-tauri/src/profile_format.rs:192-207 | publishes under the destination or fails with a guard that knows the one file to remove |
| ProfileExport.FileCleanup.Drop | src-tauri/src/profile_format.rs:936-942 | an armed guard removes its file and nothing else |
| ProfileExport.Export | src-tauri/src/profile_format.rs:147-214 | succeeds exactly under the stated conditions, then adds exactly the deterministic archive; a failure leaves the folder as it was and names the first check that failed |
| ArchiveMeaning.ExportCarries | src-tauri/src/profile_format.rs:147-214 | an export has an entry for the artifact of every item and every override, with bytes of that size and hash |
| ArchiveMeaning.ExportCarriesOnly | src-tauri/src/profile_format.rs:147-214 | and otherwise only the manifest, which comes first |
| ArchiveMeaning.ExportableExactly | src-tauri/src/profile_format.rs:147-214 | an export is possible exactly if limits, document and manifest are right and the sources are the document's artifacts, each once, genuine and within the limits |
| ArchiveMeaning.ExportReports | src-tauri/src/profile_format.rs:208-214 | the summary counts the sources and their bytes, and has the file's size and hash |
| ProfileExport.OwnNameFails | src-tauri/src/profile_format.rs:192-207 | exporting to the name `b` with the counter at 1 fails even into an empty folder |
| ProfileImport.BoundExactly | src-tauri/src/profile_format.rs:284-294 | an inspected and bound archive holds one entry per expected hash, of its size, and the manifest, and nothing else |
| ProfileImport.ReadManifest | src-tauri/src/profile_format.rs:753-773 | delivers the manifest exactly if it is not empty, of the declared size and within the limit |
| ProfileImport.StageArtifact | src-tauri/src/profile_format.rs:285-309 | stages an entry exactly if it delivers the declared size and hash; too many bytes, too few and other bytes have their own errors |
| ProfileImport.Accept | src-tauri/src/profile_format.rs:256-264 | accepts exactly what inspection, manifest, document and binding all allow; otherwise the first of them in order decides the error |
| ProfileImport.StageAccepted | src-tauri/src/profile_format.rs:273-316 | stages everything or, when something fails, removes the directory again |
| ProfileImport.Import | src-tauri/src/profile_format.rs:233-328 | imports exactly the importable archives into an absent directory, with the manifest's document and each hash's bytes; a failure names the first check that failed |
| ArchiveMeaning.ImportStages | src-tauri/src/profile_format.rs:233-328 | an import stages the manifest and, for every item and every override, bytes of the declared size and hash |
| ArchiveMeaning.ImportStagesOnly | src-tauri/src/profile_format.rs:273-316 | and nothing else, each file an entry's content |
| ArchiveMeaning.ImportReports | src-tauri/src/profile_format.rs:316-328 | the hash of the file, the document and its artifacts are reported |
| ProfileRoundTrip.TotalFits | src-tauri/src/profile_format.rs:629-637 | the running total of an exported archive stays within the limit at every entry |
| ProfileRoundTrip.WrittenInspectable | src-tauri/src/profile_format.rs:571-662 | an exported archive passes the inspection exactly if its entries fit the limit and it has neither a header extension nor a ZIP64 record |
| ProfileRoundTrip.RoundTrip | src-tauri/src/profile_format.rs:147-328 | an export can be imported exactly under that condition, and then gives the same document and, for each hash, the same bytes, empty ones included |
| ArchiveMeaning.RoundTripBytes | src-tauri/src/profile_format.rs:147-328 | for every item and every override the bytes staged are those of the source exported |
| ProfileRoundTrip.DefaultRoundTrip | src-tauri/src/profile_format.rs:119-130 | under the default limits only header extensions and a ZIP64 record can keep an export from being imported |
| DependencyGraph.ExpandMeaning | src-tauri/src/content_service.rs:704-738 | a version's dependencies resolve exactly if none is faulty; recorded are then exactly those that are not embedded and refer to something, and required next exactly the versions the required ones refer to |
| DependencyGraph.FirstFaultDecides | src-tauri/src/content_service.rs:704-738 | the first faulty dependency decides the error |
| DependencyGraph.ExpandConcat | src-tauri/src/content_service.rs:704-738 | dependencies are recorded and required in their order |
| DependencyMeaning.NewestResolves | src-tauri/src/content_service.rs:770-785 | without a pinned version a dependency refers to the first listed version the provider returns for its project, to the whole project if incompatible, and to nothing if none is listed |
| DependencyMeaning.PinnedResolves | src-tauri/src/content_service.rs:756-769 | a pinned one refers to the version the provider has for that id, with its project's kind; each error is told by the answers |
| DependencyMeaning.RecordsMeans | src-tauri/src/content_service.rs:712-728 | recorded is the project with exactly that version, or with any for an incompatible project |
| DependencyMeaning.RequiresMeans | src-tauri/src/content_service.rs:729-738 | required next is exactly that version of a required dependency |
| DependencyMeaning.FaultMeans | src-tauri/src/content_service.rs:704-720 | a dependency stops the download unless it is embedded, refers to something, or is not required and refers to nothing |
| DependencyMeaning.NodeMeans | src-tauri/src/content_service.rs:703-743 | a version is downloaded exactly if it is made for the target, no dependency stops it and the download works |
| DependencyGraph.Download | src-tauri/src/content_service.rs:703-743 | a node is downloaded exactly if it is compatible, its dependencies resolve and the download works |
| DependencyGraph.ReachableStaysInside | src-tauri/src/content_service.rs:693-744 | every flawless set closed under requirements contains all that is reachable |
| DependencyGraph.CompleteIsExact | src-tauri/src/content_service.rs:691-744 | if the provider describes a version the same way each time, one release per identity, closed under requirements, is exactly one per reachable version |
| DependencyGraph.DownloadGraph | src-tauri/src/content_service.rs:683-749 | ends; succeeds whenever everything reachable is flawless and has at most 512 identities, with one release per identity; a failure names a reachable fault or more than 512 identities; for a coherent provider it succeeds only then and returns exactly what is reachable |
| DependencyMeaning.ReleaseLists | src-tauri/src/content_service.rs:704-743 | each release of a download lists exactly what its version's dependencies refer to |
| DependencyMeaning.RequiredIsReleased | src-tauri/src/content_service.rs:729-738 | whatever a release requires is released too, by project and version id |
| DependencyMeaning.ReleasesAreSound | src-tauri/src/content_service.rs:691-744 | at most 512 releases, none twice, the root among them, all made for the target |
| DependencyMeaning.FirstOfTwo | src-tauri/src/content_service.rs:780-784 | of two listed versions the first returned is taken |
| TargetLayout.RunsThrough | src-tauri/src/content_service.rs:2802-2808 | separator by separator, whether a key has another key as an ancestor |
| TargetLayout.ValidateTargetSet | src-tauri/src/content_service.rs:2793-2812 | accepted exactly when keys differ and none is a proper ancestor of another; the error tells which |
| TargetLayout.LayoutMeans | src-tauri/src/content_service.rs:2793-2812 | accepted are exactly sets in which no key equals another or, followed by a separator, begins one |
| TargetLayout.OrderDoesNotMatter | src-tauri/src/content_service.rs:2793-2812 | acceptance does not depend on the order of the targets |
| TargetLayout.AcceptedExactlyWhenCreatable | src-tauri/src/content_service.rs:2793-2812 | accepted sets are exactly those whose files can be created without a path being both file and directory |
| OverrideMerge.MergeEntries | src-tauri/src/content_service.rs:3151-3190 | the loop computes the merge entry by entry; the first faulty entry decides the error |
| OverrideMerge.MergeExactly | src-tauri/src/content_service.rs:3151-3190 | for every list of entries the merge fails exactly for an unacceptable entry, two spellings of one key, or two entries of one key and priority that no earlier client override settles; otherwise each key is taken from the client override if there is one |
| OverrideMerge.MergeIsPriorityMaximum | src-tauri/src/content_service.rs:3174-3190 | so for distinct names it fails exactly for an unacceptable entry or two spellings of one key |
| OverrideMerge.OrderDoesNotMatter | src-tauri/src/content_service.rs:3151-3190 | two orders that both succeed give the same choice for every key, and they fail alike unless two common overrides of one key beside its client override are all that is wrong |
| OverrideMerge.OrderMattersExactly | src-tauri/src/content_service.rs:3179-3190 | some order succeeds and another fails exactly in that case |
| OverrideMerge.RepeatedNamesDependOnOrder | src-tauri/src/content_service.rs:3179-3190 | its simplest case: a common entry twice and a client entry, which must not come last |
| OverrideMerge.TotalIsAWord | src-tauri/src/content_service.rs:3195-3201 | the total of the selected sizes never overflows 64 bits |
| OverrideMerge.InventoryOverrides | src-tauri/src/content_service.rs:3146-3207 | succeeds exactly when the merge does and count and total fit; the result is the selection ordered by target |
| OverrideMeaning.RoleMeans | src-tauri/src/content_service.rs:3151-3173 | which entries are common overrides, client overrides, or without a part, by their names |
| OverrideMeaning.EntryFaultMeans | src-tauri/src/content_service.rs:3158-3178 | what makes an entry unacceptable, error by error |
| OverrideMeaning.FileIsChosen | src-tauri/src/content_service.rs:3174-3190 | each file delivered is a client override, or a common one whose key no client override has |
| OverrideMeaning.OverrideHasFile | src-tauri/src/content_service.rs:3151-3207 | every override of the archive has a file of its target in the result |
| OverrideMeaning.FilesDiffer | src-tauri/src/content_service.rs:3191-3207 | the files have different keys and ascend by target |
| OverrideMeaning.FilesBounded | src-tauri/src/content_service.rs:3191-3205 | at most 8192 files and 4 GiB in all, each at most 512 MiB and of a permitted target |

## Left out

- The resolver's search: only what every successful resolution guarantees is used (`ContentModel.Resolution`); its choices among versions, conflicts and optional dependencies are not modelled.
- Aliases of one file under several names: a file system that folds case is covered only as far as the collision keys are compared. Symbolic links, hard links and path normalisation are not part of this model.
- Directories are not created or removed in the projection model: a directory in the way of a file is part of the surroundings and stays.
- ProfileTree.Tree.StageDesired: a source does not change while it is copied, so the comparison of a copy's size and hash with the declared ones is stated as a postcondition and never fails. Archives do not change during an import.
- Which of several possible errors is reported first where the source iterates a map or the names of a directory; the order is modelled where it is a list.
- I/O errors of reads, of the staging writes of an import and of committing a profile revision; operation records, budgets of path lengths and the content cache.
- HTTP, JSON, ZIP and SHA-256 internals, compression, and Modrinth responses.
- Names are sequences of characters; byte order of names is character order, and non-UTF-8 names do not occur.
- Restoring after a crash of the process in the middle of a transaction: the source has no recovery step, and neither has the model.
- Selections of content whose identifier appears twice in a request list: requests are maps.
- ContentService.Profile.InstallContent: the dependency releases it adds are a parameter; `DependencyGraph.DownloadGraph` says which releases those are.
- DependencyGraph.DownloadGraph: for a provider that describes one version in two ways the result speaks of identities only, since the source identifies versions by project and version identifier.
- Repeated entry names in a modpack archive: the ZIP reader (`zip` 2.4.2, `src-tauri/Cargo.toml:34`) is not part of this model, and a reader that files entries by name delivers each name once. `OverrideMerge.OrderMattersExactly` says what follows for one that does not.
- Lock validation: only the checks of memberships and selections are modelled; those of dependencies, reachability, targets and sizes concern what the resolver returns.
- ProjectionRuns.RunKeepsHonest: launches that mislead in the sense of `ProjectionRuns.Misleads`, after which the marker does lie, are excluded, and so are stuck rollbacks with a marker left, after which it may lie or not.
- ProjectionRepeat.LaunchAgain: that no desired target is the directory of another one is assumed of the lock; its validation checks it (`src-tauri/src/content/resolver.rs:1296-1313`), which is a parameter here.
- ProfileRoundTrip.RoundTrip: requires limits whose sum of total and manifest size fits 64 bits, since the source adds the two without a check.
- Markers.DecodeStream: requires lengths and sizes that fit the machine words carrying them, as the source's types guarantee.
- Snapshots, searches, update queries and everything the user interface does.
