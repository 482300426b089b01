# Verified model of the configuration staging core

The application keeps network configuration in SQLite tables in which every row
carries a sync status (`pending_apply`, `pending_delete`, `synchronized`,
`skipped`). Edits stage rows; a push collects the pending rows of a host, sends
commands, and advances the rows afterwards. This project models that staging
for access lists, first-hop redundancy groups and DHCP, the controller that
saves the workspace in the background, the history of configuration backups,
and the spreadsheet decoder of the device import, and proves what holds over
all their runs.

Tables are maps from row ids to rows, transactions are all-or-nothing, and a
device is the part of its state that the commands address: a sequence-to-rule
map per access list, a map from keys to virtual addresses for redundancy groups, a set of excluded
ranges, DHCP pools by name. A failed push of access lists leaves any part of its commands applied,
because the device goes on after a command it rejects; a failed DHCP push leaves
a prefix, because only a lost connection fails it. Objects whose fields the
program updates are classes here; each of their methods is proved to leave the
state that a specification function describes, and the theorems are about those
functions and about all sequences of them.

| files | subject |
|---|---|
| `common.dfy` | optional values, the sync status, the contract of ORDER BY |
| `acl_lists.dfy`, `acl_tables.dfy`, `acl_edits.dfy`, `acl_push.dfy`, `acl_runs.dfy`, `acl_saves.dfy`, `acl_traces.dfy`, `acl_store.dfy` | access lists: one list and its device, the tables, edits, pushes of a host, runs, what requests store, particular runs, and the database object |
| `fhrp_tables.dfy`, `fhrp_runs.dfy`, `fhrp_push.dfy`, `fhrp_device.dfy`, `fhrp_store.dfy` | redundancy groups: tables, interleavings with deferred verification, pushes, the device meanwhile, and the repository object |
| `workspace_sessions.dfy`, `workspace_save.dfy`, `workspace_store.dfy` | session retirement, the save controller, and both controllers as objects |
| `config_history.dfy`, `config_store.dfy` | backup histories as append-only lists, and the commit store that refines them |
| `dhcp_tables.dfy`, `dhcp_pools.dfy`, `dhcp_pool_orders.dfy`, `dhcp_store.dfy`, `dhcp_exclusions.dfy` | DHCP tasks and marks, edits of pools, pools on the device, the two collectors and two markers, and excluded ranges |
| `columns.dfy` | column references and row padding of the spreadsheet import |

## Where the code does less than one would expect

Each of these is proved with the exact condition, or with inputs that show it.

- Access lists: a rule without a sequence is rendered with ten times its row id and can collide with another rule of the same list (`Collision`); a push shows the visible rules exactly when the list is renderable (`PushShowsIff`).
- Access lists: MAC rules are removed by their text but deduplicated by sequence, so after a failed push an old version can stay on the device (`MacVersionStrands`; exactly when: `MacEntryAfterPush`, `PushShowsIff`).
- Access lists: an edit sets a pushed list back to `pending_apply`, and deleting it then drops the row without removing it from the device (`EditThenDeleteStrands`, `EditedListStrands`, `DeletionStrandsIff`), and so does renaming it (`RenameStrandsIff`); there it stays until a list of that name exists again (`ResidueStays`).
- Access lists: a change of type leaves rows in the old rule table that every later push collects and no task advances (`CollectedAgainIff`, `RetypedCollectedAgainIff`, `CollectedAtEveryPush`).
- Redundancy groups: a setup verified after a delete mark takes the mark off its member but not off its tracks, and a cancel does not restore the group (`LateSetupUndoIff`, `LateSetupTrack`, `LateSetupRun`); a cancel after a removal was sent leaves a synchronized member that the device no longer has (`CancelBetweenIff`, `EveryRunLosesIff`, `LostRun`).
- Workspace: a close loses the edits reported while it ran (`CloseLosesLaterEdits`).
- Workspace: while an operation of a closed or replaced session runs, requests for the new workspace are accepted and later dropped (`AcceptedThenDropped`), and an edit leaves "saved" on display (`SavedTurnsWrongIff`, `ShownSavedWithEdits`).
- Backups: a blank file from before histories makes every save of that host fail (`SaveSucceedsIff`, `BlockedForever`); hosts whose names differ only in ':' and '_' share one history (`SharedDirectoryIff`).
- DHCP: marking advances rows edited after they were collected, so an update is lost (`LostUpdateIff`); the mask of an edit overwrites that of the one before, so an option can stay unsent (`EditsPushIff`); an unordered query can change which ranges a push excludes and whether a pool moved to another network survives (`OrderIrrelevantIff` and `ClashRun` of `DhcpExclusions` and `DhcpPoolOrders`).
- Spreadsheet: a cell reference without letters goes to the first column (`SharedColumnIff`).

The comment in `features/config_backup/service.py:30` promises that the import
happens exactly once and that the file is kept under a new name; the rename is
skipped when a file of that name exists, and what is proved is that no history
ever imports twice.

## Model

| member | source | states |
|---|---|---|
| `AclLists.CollectRules` | features/acl/collector.py:93-122 | the collecting loop, with its set of rendered sequences, yields the additions, the deduplicated deletions and both id lists of the pending query |
| `AclLists.TrackingPartitions` | features/acl/collector.py:93-144 | tracking ids split the pending rules into add and delete, none missed or repeated; rendered deletions have distinct sequences and cover every deleted row's sequence |
| `AclLists.PushEffect` | features/acl/templates/cisco_ios/extended.j2:1-23 | what the rendered commands, removals before additions, make of a list on the device, for numbered and for MAC lists |
| `AclLists.PushShows` | features/acl/collector.py:107-122 | a push of a renderable list leaves the device with exactly the visible rules, whatever earlier half-done pushes left behind |
| `AclLists.PushShowsIff` | features/acl/collector.py:93-122 | for a list whose rules were all just replaced, being renderable is necessary as well as sufficient: no two different visible rules share an effective sequence; for a MAC list each deleted text is visible again or that of the deleted row with the least id under some sequence |
| `AclLists.DeletedTexts` | features/acl/collector.py:106-119 | the texts rendered for removal are exactly those of the deleted rows with the least id under their effective sequence |
| `AclLists.AdditionsNeverOverwrite` | features/acl/collector.py:107-122 | no numbered addition of a push lands on a different rule, so a device that refuses duplicate numbers accepts every command |
| `AclLists.PartialPushKeeps` | features/acl/collector.py:113-122 | a push that applies any of its commands, in any order, leaves nothing on the device that no row accounts for and disturbs no synchronized rule |
| `AclLists.AdvanceSettles` | features/acl/dispatcher.py:17-50 | after the rows advance, the device shows exactly the visible rules, nothing is pending, and the next push's invariant holds |
| `AclLists.MacEntryAfterPush` | features/acl/templates/cisco_ios/mac.j2:5-10 | an entry is on the device after a MAC list's push exactly when a rule adds it, or it was there and is not such a first deleted text |
| `AclLists.SecondMacVersionStays` | features/acl/templates/cisco_ios/mac.j2:5-7 | if a push that fails sends the second version of a MAC rule, the push of the third leaves second and third on the device, and shows something else than the visible rules |
| `AclTables.ValidateRules` | features/acl/validation.py:65-71 | the loop accepts a rule list exactly when every given sequence is in range, none is given twice, and every rule's fields pass |
| `AclTables.SaveAclSound` | features/acl/acl_db.py:97-174 | every accepted save, of any payload and in every branch, keeps the table invariant: unique (host, name) also among rows awaiting deletion, one binding row per interface and direction, bindings on their list's host |
| `AclTables.SaveAclBindingsSound` | features/acl/acl_db.py:177-195 | saving bindings alone keeps that invariant |
| `AclTables.DeleteAllSound` | features/acl/acl_db.py:198-218 | deleting any lists keeps that invariant |
| `AclTables.CreateOrReviveSound` | features/acl/acl_db.py:74-94 | creating a list, or reviving one of that name that awaits deletion, keeps names unique |
| `AclTables.ReplaceBindingsSound` | features/acl/bindings.py:18-43 | replacing a list's bindings keeps one row per interface and direction and every interface on its list's host |
| `AclTables.ReplaceRulesSound` | features/acl/rules.py:75-81 | replacing rules keeps the table invariant |
| `AclTables.GuardNeverFires` | features/acl/collector.py:77-81 | in a sound state the collector's cross-host guard cannot raise for any list |
| `AclEdits.BindingsAccepted` | features/acl/bindings.py:26-37 | replacing bindings is refused exactly when a usable requested pair names an interface the host cannot bind |
| `AclEdits.BindingsReplaced` | features/acl/bindings.py:18-43 | afterwards exactly the distinct valid pairs asked for are visible for the list, one row per pair exists globally, and another list's row changes only by handing over a pair asked for |
| `AclEdits.ReplacedVisible` | features/acl/rules.py:75-81 | after a replacement the visible rules are the submitted ones, in fresh rows |
| `AclEdits.RulesReadBack` | features/acl/rules.py:67-81 | a saved rule list reads back as its stable sort by sequence, missing sequences first |
| `AclEdits.NumberedListRenderable` | features/acl/rules.py:75-81 | a valid list whose rules all carry a sequence can always be rendered |
| `AclEdits.Collision` | features/acl/collector.py:36-36 | a valid list with a rule without a sequence can collide with itself, because that rule takes ten times its row id |
| `AclSaves.SaveAcceptedIff` | features/acl/acl_db.py:97-174 | a save is accepted exactly when the request is valid, it reaches a list (one that exists, under its name or one that is free; or a free name for a new one), and every binding it stores is an interface that the host can bind |
| `AclSaves.SavedList` | features/acl/acl_db.py:121-171 | after an accepted save the list reached has the submitted host, name, type and description; it shows exactly the submitted bindings, those shown before if an identity change submits none, or is unchanged if bindings are not saved; its rules are the submitted ones in their stable order, or unchanged; a list it replaces shows none, and other lists lose only pairs handed over |
| `AclSaves.BindingsAloneSaved` | features/acl/acl_db.py:177-195 | the same for saving bindings alone: when it is accepted, what the list then shows, and that rules and other lists stay |
| `AclSaves.DeletionStored` | features/acl/acl_db.py:198-218 | a deletion is accepted exactly when it asks for a list and all it asks for exist; asked drafts go with rules and bindings, other asked lists are queued with everything under them, and no other list changes |
| `AclPush.EditKeeps` | features/acl/acl_db.py:121-171 | an edit that keeps the list of one name, or any edit while the device holds nothing under it, keeps the invariant that relates that list to its device |
| `AclPush.FailedPushKeeps` | features/acl/worker.py:68-90 | a push of any host that fails with any part of its commands applied, over all its lists, keeps that invariant for every name |
| `AclPush.PushSound` | features/acl/dispatcher.py:17-50 | applying the tracking of a host's tasks keeps the table invariant |
| `AclPush.AppliedAcls` | features/acl/dispatcher.py:27-36 | after it, the host's list rows awaiting deletion are gone, its other list rows are synchronized, and other hosts' rows are as they were |
| `AclPush.AppliedBindings` | features/acl/dispatcher.py:20-22 | the same for the host's bindings |
| `AclPush.AppliedRule` | features/acl/dispatcher.py:23-26 | the same for each rule of the host's lists in the table of the list's type; other rules are as they were |
| `AclPush.PushConverges` | features/acl/dispatcher.py:53-78 | a successful push of its host leaves the device with exactly the visible rules of a list that can be rendered and nothing pending, whatever state the other lists are in; if no list has the name, nothing is left under it |
| `AclPush.PushKeeps` | features/acl/dispatcher.py:53-78 | a successful push of any host keeps the invariant of a list on another host, or of one that can be rendered |
| `AclRuns.EveryRunSound` | features/acl/acl_db.py:74-218 | over every run of saves, deletions, failed and successful pushes the tables stay sound and no push is blocked by a cross-host binding |
| `AclRuns.RunConverges` | features/acl/worker.py:68-90 | after any run from empty tables of edits, pushes and failed pushes of any lists and hosts that was careful with one name (no retyping save, drop while the device holds something, or successful push while unrenderable, of that list), one successful push makes the device equal to that list's visible rules; other lists may have been treated in any way |
| `AclRuns.SaveGentle` | features/acl/acl_db.py:121-171 | in every branch (in place, description only, retyped, renamed, moved, new, revived) an accepted save leaves the rules of the list of any one name untouched or wholly pending, and keeps that list unless it is the one retyped or dropped |
| `AclRuns.DeletionStrandsIff` | features/acl/common.py:57-73 | an accepted deletion keeps a list and its device in agreement exactly when it does not drop the list's row as pending_apply, or the device holds nothing of it |
| `AclRuns.RenameStrandsIff` | features/acl/acl_db.py:148-152 | an accepted save under another name or host does so on the same condition |
| `AclRuns.EditThenDeleteStrands` | features/acl/acl_db.py:157-162 | every accepted edit in place arms that case: deleted right after it, the list is in no table and the device unchanged |
| `AclRuns.RetypedPushShowsIff` | features/acl/acl_db.py:141-147 | a push of only new rules shows them exactly when they are renderable and take every number still on the device |
| `AclRuns.CollectedAgainIff` | features/acl/collector.py:153-167 | after a successful push a list is collected again exactly when a change of type left rows of it in another rule table |
| `AclRuns.NothingCollectedAgain` | features/acl/collector.py:147-183 | after any run that neither dropped nor retyped a list, whatever happened to others, a successful push of its host leaves it with nothing to collect |
| `AclTraces.MacVersionStrands` | features/acl/collector.py:106-122 | a run from empty tables: a MAC rule is saved and pushed, its second version is saved and sent by a push that fails, its third is saved and pushed; the device then has second and third, and one of them is no visible rule |
| `AclTraces.EditedListStrands` | features/acl/acl_db.py:157-162 | a run from empty tables: a list is saved and pushed, edited and deleted; no table has it and its pushed rule is on the device |
| `AclTraces.ResidueStays` | features/acl/common.py:57-73 | over every run in which no list has that name, what the device holds under it stays as it is |
| `AclTraces.RetypedTables` | features/acl/acl_db.py:141-147 | an accepted save that changes the type of a list without stray rows leaves exactly its old rows in the old table and only rows to be applied in the new one |
| `AclTraces.RetypedThenPushedIff` | features/acl/acl_db.py:141-147 | the push after such a save shows the new rules exactly when they are renderable and take every number still on the device |
| `AclTraces.RetypedCollectedAgainIff` | features/acl/collector.py:153-167 | after that push the list is collected again exactly when it had rules of the old type |
| `AclTraces.CollectedAtEveryPush` | features/acl/collector.py:153-167 | and then again after every one of any number of pushes |
| `AclStore.AclDatabase.MarkRulesDeleted` | features/acl/rules.py:84-87 | marks a list's rules in place as the specification function says |
| `AclStore.AclDatabase.MarkBindingsDeleted` | features/acl/bindings.py:46-49 | marks a list's bindings in place as the specification function says |
| `AclStore.AclDatabase.InsertRule` | features/acl/rules.py:17-37 | inserts one pending rule under the next id |
| `AclStore.AclDatabase.ReplaceAllRules` | features/acl/rules.py:75-81 | the loop over submitted rules produces the replaced table of the specification |
| `AclStore.AclDatabase.ReplaceAllBindings` | features/acl/bindings.py:18-43 | the loop with its set of seen pairs produces the replaced bindings, and reports failure exactly when the specification refuses |
| `AclStore.AclDatabase.SoftDeleteAcl` | features/acl/common.py:57-73 | drops a draft with everything it owns, queues anything else for deletion |
| `AclStore.AclDatabase.CreateOrReviveAcl` | features/acl/acl_db.py:74-94 | creates, revives or refuses as specified |
| `AclStore.AclDatabase.Save` | features/acl/acl_db.py:97-174 | one save as a transaction: the state of the specification that SavedList characterises when it is accepted, and the old tables otherwise; the corresponding step of a run |
| `AclStore.AclDatabase.SaveBindings` | features/acl/acl_db.py:177-195 | as a step of a run, the same for saving bindings alone |
| `AclStore.AclDatabase.Delete` | features/acl/acl_db.py:198-218 | as a step of a run, the same for deleting several lists |
| `AclStore.AclDatabase.CollectBindings` | features/acl/collector.py:60-90 | collects the pending bindings into add and delete ids, and raises exactly when some interface is not on the list's host |
| `AclStore.AclDatabase.CollectAcl` | features/acl/collector.py:93-144 | one list's task tracks exactly its own pending row, rules and bindings, and there is none exactly when the binding guard raises |
| `AclStore.AclDatabase.ApplyTracking` | features/acl/dispatcher.py:17-50 | the deleting and updating loops have the effect of the specification, and the change count is zero exactly when nothing changed |
| `AclStore.AclDatabase.ApplyResult` | features/acl/dispatcher.py:53-78 | a failed result advances nothing, a successful one applies every given task, and success is reported exactly when some row changed |
| `AclStore.CollectedTasks` | features/acl/collector.py:147-183 | tasks collected for a host always fit the tables they were collected from, and together they are the tracking of its push |
| `AclStore.AclDatabase.ApplyHostResult` | features/acl/dispatcher.py:53-78 | given those tasks, a success leaves exactly the tables of the host's push, the one that the convergence theorems speak of, and a failure the old ones |
| `FhrpTables.SaveSound` | features/fhrp/repository.py:148-291 | an accepted save keeps the tables sound: each (virtual IP, host) is managed by one group, each (host, interface, protocol, number) by one member, no group is empty |
| `FhrpTables.InsertGroupSoundIff` | features/fhrp/repository.py:153-240 | each check of a save is needed: inserting a valid group keeps the tables sound exactly when no such group exists, none of its gateways is taken and none of its endpoints is |
| `FhrpTables.SaveAcceptedIff` | features/fhrp/repository.py:153-240 | a save is accepted exactly when the request is valid, no gateway is taken, no member of the same group is past the draft state, and no endpoint belongs to another group of the number |
| `FhrpTables.SavedGroupReadsBack` | features/fhrp/repository.py:241-290 | after it the group is there once under a new id, its members are the submitted ones in order, each with exactly the submitted tracks in order, all to be applied |
| `FhrpTables.InsertMembersEffect` | features/fhrp/repository.py:256-290 | inserting members and tracks adds exactly one fresh pending row each |
| `FhrpTables.MarkSound` | features/fhrp/repository.py:293-339 | marking a group for deletion keeps the tables sound |
| `FhrpTables.CancelSound` | features/fhrp/repository.py:341-382 | cancelling a deletion keeps the tables sound |
| `FhrpTables.CancelledRow` | features/fhrp/repository.py:341-382 | a marked member and its marked tracks get their recorded state back, pending_apply when none was recorded, and the record is cleared; tracks not marked stay |
| `FhrpTables.SetupSound` | features/fhrp/push_state.py:31-46 | advancing a member after a verified setup keeps the tables sound |
| `FhrpTables.RemoveSound` | features/fhrp/push_state.py:16-30 | removing a member, and its group with the last one, keeps the tables sound |
| `FhrpTables.StaleRemovalIgnored` | features/fhrp/push_state.py:16-30 | a removal verified after its member already went changes nothing |
| `FhrpRuns.EveryRunInv` | features/fhrp/view_push.py:84-146 | in every interleaving of saves, marks, cancels, collections and late verifications the tables stay sound, and a member is synchronized, or will be again after a cancel, only if its own setup was verified |
| `FhrpRuns.MemberLeavesOnlyIf` | features/fhrp/push_state.py:16-30 | a member disappears only by a verified removal of its own task, or by a new save of the same group while it was a draft |
| `FhrpRuns.RemovedOnlyIf` | features/fhrp/view_push.py:126-134 | it goes by a removal only if the running configuration of its interface has no line of its group's protocol and number |
| `FhrpRuns.SynchronizedOnlyIf` | features/fhrp/push_state.py:31-38 | a member becomes synchronized only by a cancel that restores it, or when its interface activates its group's virtual address and that gateway operates on its host |
| `FhrpRuns.VerifyTouchesOwnMember` | features/fhrp/push_state.py:9-46 | applying a context, however stale, alters no other member, track or group, and a group goes only with its last member |
| `FhrpRuns.CancelUndoesMarks` | features/fhrp/repository.py:293-382 | any positive number of delete marks on a group with nothing awaiting deletion is undone exactly by one cancel |
| `FhrpRuns.CancelRestoresSurvivors` | features/fhrp/repository.py:341-382 | with no setup verified in between, a cancel after any run restores exactly the members that were not removed, with their tracks |
| `FhrpRuns.MarkSurvives` | features/fhrp/repository.py:308-338 | until then the recorded states survive saves, repeated marks, collections, removals and cancels of other groups |
| `FhrpRuns.LateSetupUndoIff` | features/fhrp/push_state.py:31-46 | after a setup of one of its members is verified on a marked group, a cancel restores the group exactly when that member was synchronized before the mark and has no tracks |
| `FhrpRuns.LateSetupTrack` | features/fhrp/push_state.py:39-46 | the tracks of that member stay marked for deletion under a synchronized member, also after the cancel |
| `FhrpRuns.LateSetupRun` | features/fhrp/view_push.py:84-146 | a run from empty tables that ends so: save, collect, mark, verify |
| `FhrpPush.PushAllSettles` | features/fhrp/collector.py:22-79 | with push and verification as one step, a batch in any order of pending members leaves the settled tables and a device that agrees with them |
| `FhrpPush.OrderIrrelevant` | features/fhrp/collector.py:40-79 | the order of tasks changes neither tables nor device |
| `FhrpPush.TasksDistinct` | features/fhrp/collector.py:39-41 | one host's tasks touch pairwise distinct device keys |
| `FhrpPush.PushHostConverges` | features/fhrp/collector.py:16-79 | pushing everything pending on a host leaves nothing pending there and each of its synchronized members on the device with its group's virtual address |
| `FhrpPush.EveryRunAgrees` | features/fhrp/push_state.py:9-46 | in every such run a key is on a device with a virtual address exactly when a member of a group of that address is synchronized, or marked for deletion after having been synchronized |
| `FhrpDevice.EveryRunLosesIff` | features/fhrp/push_state.py:9-46 | in every interleaving of edits, sends and verifications that read the device, a synchronized member is missing from the device exactly when what was sent last for it was a removal; otherwise it is there with its group's virtual address |
| `FhrpDevice.CancelBetweenIff` | features/fhrp/repository.py:341-382 | a cancel after a removal was sent leaves a synchronized member that the device no longer has exactly when it was synchronized before the mark; a later verification of that removal ends this by taking the member out of the tables, and otherwise it stays |
| `FhrpDevice.LostRun` | features/fhrp/view_push.py:84-146 | a run from empty tables reaches that: save, send, verify, mark, send, cancel |
| `FhrpStore.FhrpRepository.EndpointFree` | features/fhrp/repository.py:216-240 | the loop over members finds a conflict exactly when some member's endpoint is taken |
| `FhrpStore.FhrpRepository.SaveFhrpGroup` | features/fhrp/repository.py:148-291 | the save transaction, with its loops, has the specified outcome and leaves the old tables when it raises |
| `FhrpStore.FhrpRepository.MarkGroupForDelete` | features/fhrp/repository.py:293-339 | the UPDATE of the members and the one of their tracks mark every unmarked row of the group, recording its state, and no other; one cancel undoes them if nothing was marked before; exactly the members' hosts are returned |
| `FhrpStore.FhrpRepository.CancelGroupDelete` | features/fhrp/repository.py:341-382 | the UPDATE of the tracks and the one of the members, by the ids of the marked members, give the members still there their state and tracks back, whatever tables the mark was put on; no host returned means nothing changed |
| `FhrpStore.FhrpRepository.ApplySuccess` | features/fhrp/push_state.py:9-46 | advances or removes in place as specified |
| `FhrpStore.FhrpRepository.CollectTasks` | features/fhrp/collector.py:16-79 | one task per pending member, in order, with the member's endpoint, its group's protocol, number and virtual address, removal exactly for members queued for deletion, and distinct device keys |
| `FhrpStore.FhrpRepository.VerifyAfterPush` | features/fhrp/view_push.py:108-146 | the loop leaves the tables of that batch and counts the tasks that verified and those that did not |
| `FhrpStore.VerifyBatchRuns` | features/fhrp/view_push.py:126-138 | such a batch is a stretch of an interleaving, one verification after the other, so the theorems about runs cover it |
| `FhrpStore.VerifiedCount` | features/fhrp/view_push.py:137-138 | the count of successes is the number of tasks that verify |
| `WorkspaceSessions.ActivateTracked` | core/welcome.py:240-255 | activating a new session keeps every session active, cleaned, or listed once for cleanup |
| `WorkspaceSessions.CloseTracked` | core/welcome.py:451-464 | closing the project keeps it |
| `WorkspaceSessions.CleanupTracked` | core/welcome.py:466-492 | a cleanup, successful or failing on all attempts, keeps it |
| `WorkspaceSessions.CleanupAllTracked` | core/welcome.py:494-500 | retrying the listed sessions keeps it, retries each once, and touches no other |
| `WorkspaceSessions.ShutdownTracked` | core/welcome.py:494-500 | shutdown leaves no active session and in the list exactly those that could not be cleaned |
| `WorkspaceSessions.EndLeaseTracked` | infrastructure/workspace/package.py:352-367 | ending a lease, which cleans a closing session, keeps it |
| `WorkspaceSave.MergeAllIsLatestHighest` | core/workspace_save.py:393-410 | after any requests the one-slot queue holds exactly the request that may displace all others and that no later one may displace, where a close gives way to a close, a rollback to a rollback or close, a snapshot to these or a snapshot, a manual save to anything but an automatic one |
| `WorkspaceSave.WaitingKept` | core/workspace_save.py:393-410 | every request that ever waited gives way only to one that may displace it, whatever came between |
| `WorkspaceSave.StepInv` | core/workspace_save.py:195-410 | every handler keeps the invariant: one writer, one lease per running worker, generations in step with reported edits, the queue equal to the merge of the waiting requests |
| `WorkspaceSave.EveryRunHonest` | core/workspace_save.py:285-391 | in every run at most one operation is in flight, leases equal running workers, every session is active, cleaned or listed once for cleanup, the queue holds the merge of the waiting requests, saved_generation never exceeds generation, and a controller that is not dirty confirmed an operation started after the last reported edit |
| `WorkspaceSave.DirtyClearsIff` | core/workspace_save.py:339-372 | unsaved edits stop being reported exactly when the workspace is left or a package that covers all of them is confirmed; a failed operation or changed_during_save never clears them |
| `WorkspaceSave.CloseIsATransaction` | core/workspace_save.py:382-386 | a completion takes the active session away exactly when it is that session's own successful close, whose preparation succeeded first |
| `WorkspaceSave.CloseLosesLaterEdits` | core/workspace_save.py:382-386 | a successful close loses exactly the edits reported while it ran: they are what its package does not cover |
| `WorkspaceSave.RunsInv` | core/workspace_save.py:71-111 | a background run ends its lease exactly once, whatever failed |
| `WorkspaceSave.RunCommitsIff` | core/workspace_save.py:71-111 | a background run commits exactly when the package was written, after a successful preparation if it is a close, and the end of its lease did not raise; it reports a conflict exactly when the writing did |
| `WorkspaceSave.AcceptedIff` | core/workspace_save.py:275-325 | when a request is accepted, and that it is then started or joins the queue as its last entry |
| `WorkspaceSave.WaitingFate` | core/workspace_save.py:388-391 | one step: the queue is discarded, or its latest request of the highest priority is started with the generation of that moment, or it only grows |
| `WorkspaceSave.RequestFate` | core/workspace_save.py:275-391 | over every run a waiting request waits until the first event that completes an operation; that one starts the request or one that may displace it, so after a rollback a rollback or a close, or discards the queue and starts nothing |
| `WorkspaceSave.CompletionDisplay` | core/workspace_save.py:336-391 | after the completion of the active session's operation the display says saving if another one starts, else that this one failed, or in a conflict, or whether edits are unsaved |
| `WorkspaceSave.IdleWithinTwoCompletions` | core/workspace_save.py:336-391 | without new input or changed packages two completions leave the controller idle, and there is never a third |
| `WorkspaceSave.SavedTurnsWrongIff` | core/workspace_save.py:203-206 | the claim "saved" becomes wrong exactly when an edit is reported while an operation is in flight that left the claim standing |
| `WorkspaceSave.SavedWhileBusy` | core/workspace_save.py:412-438 | such an operation always belongs to a retired session, so with the active session's operation "saved" implies not dirty |
| `WorkspaceSave.SwitchOutlives` | core/workspace_save.py:412-438 | every workspace switch during an operation reaches that situation |
| `WorkspaceSave.ShownSavedWithEdits` | core/workspace_save.py:195-206 | an edit reported then leaves "saved" on display with unsaved changes, also after the old operation completes |
| `WorkspaceSave.AcceptedThenDropped` | core/workspace_save.py:388-391 | whatever the new workspace's user asks for meanwhile is accepted and then dropped by the old operation's completion |
| `WorkspaceSave.StopReleasesEverything` | core/workspace_save.py:479-509 | after a shutdown no lease is left, so the final retry leaves listed exactly the sessions whose directory cannot be removed |
| `WorkspaceStore.WelcomeController.CleanupSession` | core/welcome.py:466-492 | the retry loop retires a session as specified and fails exactly when all three attempts raised |
| `WorkspaceStore.WelcomeController.CloseActive` | core/welcome.py:451-464 | closing the project as specified |
| `WorkspaceStore.WelcomeController.Shutdown` | core/welcome.py:494-500 | the loop over the retired sessions as specified |
| `WorkspaceStore.WelcomeController.BeginLease` | infrastructure/workspace/package.py:352-360 | a lease is granted exactly while no close was requested |
| `WorkspaceStore.WelcomeController.ReleaseLease` | infrastructure/workspace/package.py:361-367 | the counter goes down by one; the session is cleaned exactly by the last lease of a session that is to close, if its directory can be removed, and the call raises exactly if it cannot; tracking is kept |
| `WorkspaceStore.WorkspaceSaveController.EditReported` | core/workspace_save.py:195-206 | markDirty on the object's fields, as specified |
| `WorkspaceStore.WorkspaceSaveController.Ask` | core/workspace_save.py:208-283 | the five requests and their queueing, as specified |
| `WorkspaceStore.WorkspaceSaveController.Begin` | core/workspace_save.py:285-325 | starting an operation, with the lease given back when the pool refuses, as specified |
| `WorkspaceStore.WorkspaceSaveController.RunWorker` | core/workspace_save.py:71-111 | the background run, as specified |
| `WorkspaceStore.WorkspaceSaveController.OperationFinished` | core/workspace_save.py:328-391 | the completion handler, as specified |
| `WorkspaceStore.WorkspaceSaveController.OpenWorkspace` | core/welcome.py:240-255 | activation of a new workspace and its listener, as specified |
| `WorkspaceStore.WorkspaceSaveController.Shutdown` | core/workspace_save.py:479-509 | waiting for the workers, then closing, as specified |
| `ConfigHistory.Normalized` | features/config_backup/repository.py:89-94 | stored content is never blank and ends in a line break, and differs from the output by at most that line break |
| `ConfigHistory.BlankText` | features/config_backup/repository.py:89-94 | a text counts as empty exactly when it has nothing but tabs, line breaks, separators and spaces |
| `ConfigHistory.IdsDetermineHistory` | features/config_backup/repository.py:166-183 | two commits have the same id exactly when everything up to them agrees |
| `ConfigHistory.AppendOnly` | features/config_backup/service.py:51-55 | over any run without a deletion a history only grows at its end |
| `ConfigHistory.OldCommitsKept` | features/config_backup/repository.py:208-215 | every commit keeps its id, content and changed flag, whatever is stored later |
| `ConfigHistory.ImportedAtMostOnce` | features/config_backup/service.py:29-49 | in every run an old backup is imported at most once and only as the oldest commit, and every stored content is normalized |
| `ConfigHistory.LegacyIsOldest` | features/config_backup/service.py:29-49 | an old file present before the first operation is the oldest commit for good |
| `ConfigHistory.PendingFile` | features/config_backup/paths.py:43-52 | the file to import is the one of the safe name, else the one of the host's own name, and none once there is a history |
| `ConfigHistory.ImportedFile` | features/config_backup/service.py:45-48 | an import renames that file, or leaves it where a renamed copy exists, and touches no other |
| `ConfigHistory.SaveSucceedsIff` | features/config_backup/service.py:51-55 | a save succeeds exactly when there is output and no blank old file stands in the way; a failed one changes nothing except that it may have imported the old file |
| `ConfigHistory.BlockedForever` | features/config_backup/service.py:32-45 | while a blank old file stays, no run stores anything for that host |
| `ConfigHistory.DirectoryNameSafe` | features/config_backup/paths.py:29-31 | a directory name has no ':', and differs from the host only where that has one |
| `ConfigHistory.SharedDirectoryIff` | features/config_backup/paths.py:29-31 | two hosts share a backup directory exactly when their names differ only in which of ':' and '_' they use |
| `ConfigHistory.SavesAreIsolatedIff` | features/config_backup/paths.py:34-40 | a successful save shows up in another host's history exactly when they share a directory |
| `ConfigStore.ReadsBack` | features/config_backup/repository.py:250-269 | a snapshot reads back as stored from every later history |
| `ConfigStore.ComparedAt` | features/config_backup/repository.py:305-308 | the version span is the distance of the two places in the history plus one |
| `ConfigStore.ConfigRepository.IsChanged` | features/config_backup/repository.py:134-142 | new content differs from the head, or there is none |
| `ConfigStore.ConfigRepository.CommitSnapshot` | features/config_backup/repository.py:144-187 | appends the normalized snapshot and reports its id and flag; stopped before the head is written, the history is the old one |
| `ConfigStore.ConfigRepository.Walk` | features/config_backup/repository.py:217-231 | the walk from the head yields the newest ids, newest first, up to a limit |
| `ConfigStore.ConfigRepository.CommitChanged` | features/config_backup/repository.py:208-215 | the flag recomputed from the parent equals the one of the history |
| `ConfigStore.ConfigRepository.ListCommits` | features/config_backup/repository.py:217-235 | the newest snapshots, at least one and at most 500 and at most as many as asked for, newest first, each with the payload returned when it was stored |
| `ConfigStore.ConfigRepository.ReachableCommit` | features/config_backup/repository.py:237-248 | an id is resolved exactly when it names a commit of this history; otherwise the right error |
| `ConfigStore.ConfigRepository.ReadCommit` | features/config_backup/repository.py:250-269 | reads a snapshot from the objects alone |
| `ConfigStore.ConfigRepository.ReadLatest` | features/config_backup/repository.py:334-347 | reads the newest snapshot, or says what is missing |
| `ConfigStore.ConfigRepository.VersionSpan` | features/config_backup/repository.py:302-308 | the index search over the walk computes that span |
| `ConfigStore.ConfigRepository.DiffCommits` | features/config_backup/repository.py:271-308 | the comparison of two snapshots, with the errors in order |
| `ConfigStore.ConfigBackupService.MigrateLegacy` | features/config_backup/service.py:29-49 | the guarded import on the object's fields, as specified |
| `ConfigStore.ConfigBackupService.SaveSnapshot` | features/config_backup/service.py:51-55 | migrate, then append, as specified, returning the new commit's id and flag |
| `ConfigStore.ConfigBackupService.ListHistory` | features/config_backup/service.py:74-81 | migrate, then list the history |
| `ConfigStore.ConfigBackupService.DeleteHostData` | features/config_backup/service.py:57-72 | deletion leaves an empty archive, old files included |
| `DhcpTables.SelectedIff` | core/view_push.py:405-488 | a row awaits a push to a host exactly when its status is missing, pending_apply or pending_delete and it names the host, or for a helper its interface is known and on that host |
| `DhcpTables.BitsAgreeIff` | features/dhcp/dispatcher.py:24-29 | the two mask tests agree on every mask, missing and empty ones included, exactly for the three bits in use |
| `DhcpTables.PartPartitions` | core/view_push.py:422-483 | every selected row is in exactly one of the two id lists, once |
| `DhcpTables.PartSays` | core/view_push.py:422-483 | every item has its row's values; a removal exactly for rows queued for deletion; the last three characters of a pool's mask are the flags of gateway, DNS server and lease, all set without a mask; a helper names its interface |
| `DhcpTables.CollectorsAgree` | core/view_push.py:405-488 | any two queries of the same rows give the same items and ids up to row order |
| `DhcpTables.MarkedRowsLeave` | core/view_push.py:557-586 | marking takes from a host's pending rows exactly those collected, even when tables were edited in between |
| `DhcpTables.CollectAfterMark` | features/dhcp/dispatcher.py:49-82 | collecting right after marking finds nothing for that host and the same as before for every other |
| `DhcpTables.MarkedFate` | core/view_push.py:557-586 | a collected row is dropped exactly when its removal was collected; else it keeps its values and is synchronized, a pool with every option flag cleared |
| `DhcpTables.OtherRowsKept` | core/view_push.py:557-586 | a row that was not collected is not touched |
| `DhcpPools.DraftFate` | features/dhcp/pool.py:119-166 | over any run of edits a draft pool is gone exactly when one of them deleted it or changed its identity; otherwise it is a draft with the options last submitted |
| `DhcpPools.LostUpdateIff` | features/dhcp/pool.py:138-148 | a draft pool edited in any way between collecting and marking a push ends synchronized, with nothing left to send, and says what was sent exactly when the options last submitted are those collected; a dropped one was sent and is in no table |
| `DhcpPools.EditsPushIff` | features/dhcp/common.py:35-38 | after any edits of a synchronized pool and a push, the device has the options of the row exactly when the last change set each option anew or to what the device has, because each edit overwrites the mask of the one before |
| `DhcpPools.CreatedItem` | features/dhcp/common.py:41-50 | a new pool is collected with exactly the options that have a value, a lease of one day being none |
| `DhcpPools.EditedItem` | features/dhcp/common.py:35-38 | an edited synchronized pool is collected with its new values and exactly the options that the edit changed |
| `DhcpPoolOrders.ItemsSent` | features/dhcp/templates/router/dhcp_config.j2:13-49 | the template run over the collected items configures exactly what the rows say |
| `DhcpPoolOrders.LastDecides` | features/dhcp/templates/router/dhcp_config.j2:13-49 | a pool is on the device after a push exactly when the last command for its name sets it up, or none names it and it was there |
| `DhcpPoolOrders.OrderIrrelevantIff` | features/dhcp/dispatcher.py:140-147 | the collector that does not order its rows may leave another configuration exactly when two queued rows of one name differ: removal and setup, or two values for one field that both send |
| `DhcpPoolOrders.ReplacedPoolClash` | features/dhcp/pool.py:132-136 | every synchronized pool whose network or mask is changed is queued for removal and for setup under one name, and the order then decides whether it survives |
| `DhcpPoolOrders.ClashRun` | features/dhcp/pool.py:132-136 | a run from an empty table reaches that: create, push, change the network |
| `DhcpPools.DhcpPoolTable.DeleteDhcpPool` | features/dhcp/common.py:64-82 | drops a draft, queues anything else, and says whether the row existed |
| `DhcpPools.DhcpPoolTable.UpdateDhcpPool` | features/dhcp/pool.py:103-155 | the update in place, or the replacement under a new identity, as specified; found exactly when the row exists and is not queued for removal |
| `DhcpStore.TasksAgree` | features/dhcp/dispatcher.py:93-182 | the two collectors' tasks for a host are the same up to row order and marking either has the same effect |
| `DhcpStore.TasksCollect` | core/view_push.py:405-488 | a collector's task tracks exactly the host's pending rows, deletions and the rest apart |
| `DhcpStore.WorkIff` | features/dhcp/dispatcher.py:110-116 | a host has a non-empty task exactly when some row of some table awaits it |
| `DhcpStore.TouchedRows` | core/view_push.py:557-586 | the reported count is the number of tracked ids that have a row |
| `DhcpStore.TouchedByIff` | features/dhcp/dispatcher.py:60-81 | it is positive exactly when some tracked id has a row in its table |
| `DhcpStore.DhcpDatabase.CollectPart` | features/dhcp/dispatcher.py:130-174 | the stand-alone collector's loop computes the common meaning of a table's rows, with every item saying what its row says |
| `DhcpStore.DhcpDatabase.Collect` | features/dhcp/dispatcher.py:122-182 | it makes a task for exactly the hosts with pending rows |
| `DhcpStore.DhcpDatabase.CollectViewPart` | core/view_push.py:422-483 | the view collector's loop, with its filled-in mask, computes the same meaning, with every item saying what its row says |
| `DhcpStore.DhcpDatabase.CollectView` | core/view_push.py:405-488 | it returns the host's task exactly when there is something pending |
| `DhcpStore.DhcpDatabase.MarkSuccess` | features/dhcp/dispatcher.py:60-81 | the stand-alone marker has the common effect and reports the rows it touched |
| `DhcpStore.DhcpDatabase.ApplyTaskMark` | core/view_push.py:557-586 | the view's marker, in its own table order, has the same effect and count |
| `DhcpExclusions.SentEffect` | features/dhcp/templates/router/dhcp_config.j2:2-10 | what a list of exclusion commands in row order makes of the device, if no range is added and later removed |
| `DhcpExclusions.PushedRows` | core/view_push.py:561-566 | a successful push keeps exactly the rows not queued for removal, all synchronized |
| `DhcpExclusions.PushConvergesIff` | features/dhcp/excluded.py:31-64 | a push makes the device equal to the synchronized ranges exactly when, apart from ranges about to be applied, what is there and not queued for removal is what is synchronized |
| `DhcpExclusions.DeleteKeepsIff` | features/dhcp/common.py:64-82 | a deletion keeps the device accounted for exactly when no draft is dropped whose range reached the device alone and no synchronized range has a twin |
| `DhcpExclusions.CarefulRunConverges` | features/dhcp/excluded.py:31-64 | after any run of additions, half-done pushes and such deletions one successful push leaves exactly the synchronized ranges |
| `DhcpExclusions.OrderIrrelevantIff` | features/dhcp/dispatcher.py:130-137 | the collector that does not order its rows may configure something else exactly when a range is queued both for removal and for addition |
| `DhcpExclusions.StepAged` | features/dhcp/excluded.py:40-48 | one event keeps rows still to be applied newer than all others |
| `DhcpExclusions.EveryRunRemovesFirst` | core/view_push.py:422-430 | so in every run the ordered collector never adds a range and removes it later in one push |
| `DhcpExclusions.RemovedAndAddedClash` | features/dhcp/excluded.py:31-64 | every synchronized range that is removed and added again is queued for both, and then the unordered collector may configure something else |
| `DhcpExclusions.ClashRun` | features/dhcp/excluded.py:31-64 | a run from an empty table reaches that: add, push, delete, add |
| `DhcpExclusions.ExcludedAddresses.AddExcludedAddress` | features/dhcp/excluded.py:31-52 | inserts a draft under a fresh id |
| `DhcpExclusions.ExcludedAddresses.DeleteExcludedAddress` | features/dhcp/common.py:64-82 | drops a draft, queues anything else, and says whether the row existed |
| `Columns.ColumnIndex` | core/database/device_import_slots.py:97-103 | the filtering and base-26 loops put a reference such as C12 or c12 in the column that its letters name, whatever row it names, and one without letters in the first |
| `Columns.LettersAppend` | core/database/device_import_slots.py:99-99 | letters count wherever they stand in a reference |
| `Columns.ReferenceColumn` | core/database/device_import_slots.py:97-103 | letters of either case followed by anything without letters are in the column that the letters name |
| `Columns.ValueOfName` | core/database/device_import_slots.py:101-103 | every number is the value of its column name |
| `Columns.NameOfValue` | core/database/device_import_slots.py:101-103 | every name is the name of its value, so names and numbers are in bijection |
| `Columns.ColumnOrderIff` | core/database/device_import_slots.py:100-103 | columns count strictly in length-then-alphabetical order of their names (ECMA-376 Part 1, section 18.18.7), and no two names share one |
| `Columns.SharedColumnIff` | core/database/device_import_slots.py:99-103 | two references share a column exactly when their letters agree, or one has none and the other names column A |
| `Columns.EveryColumnNamed` | core/database/device_import_slots.py:97-103 | every column has a reference |
| `Columns.RowValues` | core/database/device_import_slots.py:118-124 | the padding loop puts the last text given for a column at its index and empty text in the gaps, with the least width that fits |
| `Columns.EachTextKept` | core/database/device_import_slots.py:120-124 | a cell whose column no later cell names keeps its text |
| `Columns.GapsEmpty` | core/database/device_import_slots.py:122-123 | a column that no cell names is empty, and the width is no larger than some cell asks for |

## Left out

- SaveSucceedsIff: says nothing about a backup directory altered from outside, where creating the repository is refused.
- Walk: commit ids are the commit itself (content, parents, time, message), an injective stand-in for SHA-1.
- SwitchOutlives: handlers are atomic; slots that re-enter each other through signals are not part of this model.
- WorkspaceStore.WorkspaceSaveController.Shutdown: the last save attempt of the handler, which does not touch the modelled state, is left out.
- StopReleasesEverything: completions still queued at that time are forgotten.
- EveryRunHonest: "edit" means a reported one; the file watcher that reports edits is not part of this model.
- ValidateRules: the textual checks of a rule's addresses, ports and names are one flag of the input.
- PushConverges: remark and description commands and the interface side of bindings are not part of the modelled device.
- VerifyAfterPush: one snapshot of the device serves a whole batch, and command output is a set of policy lines rather than text.
- SaveFhrpGroup: protocol option rows and their timers, the shared-policy checks of the service, and the choice of candidate interfaces are not modelled; a member's settings are opaque text.
- MarkSuccess: the loop over several results is reduced to one result per host, and report texts are left out.
- DhcpExclusions.ExcludedAddresses.AddExcludedAddress: takes a range that passed the address checks.
- ColumnIndex: letters outside ASCII, which Python's `isalpha` and `upper` also treat, are not modelled.
- CollectRules: a stored sequence is at least 1, as the validator demands; for a stored 0 the query would order by 0 and the payload use ten times the row id.
- SQL NULL in ACL and FHRP status columns: the schemas declare them NOT NULL.
- UpdateDhcpPool: takes a submission that passed the checks of name, network, mask and options; those checks are left out.
- LastDecides: static bindings, which the template also configures as pools, and the default lease of a new pool are not part of the modelled device.
- EveryRunLosesIff: a sent task is applied as a whole or not at all, and a verification reads the device as it is at that moment.
- FHRP and ACL rows rewritten by the device sync engine, and interface inventory changes during a run.
- The interface dirty-bit helpers (`features/interfaces/action_bits.py`) and FHRP `matching_interfaces`: comprehensions over fixed columns that would only add easy members.
- Qt timers, notifications and the snapshot list; snapshot rollback inside the package writer.
- Encodings, time zones, locks per host, unified diffs and their line counts.
- Device transports, template text beyond the order of commands, host-name validation, credentials, the user interface.
