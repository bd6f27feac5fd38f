# MIQA import, export, evaluation batching and project rules in Dafny

MIQA keeps a hierarchy of projects, experiments, scans, frames and scan
decisions, and moves it in and out of a nested document. This project models
that hierarchy and the operations on it, and proves their properties:

- **Import.** `import_data` picks a source format and an S3 or local origin
  from the configured path. `perform_import` does the following:
  - it checks that every named project exists;
  - it deletes the project's old experiments;
  - it rebuilds experiments, scans, decisions and frames in nested loops;
  - it prunes scans without frames and experiments without scans;
  - it bulk-creates the rows;
  - it lists the new frames by project.
- **Export.** `perform_export` walks the rows back into the same document
  shape.
- **Evaluation batching.** `evaluate_data` groups the readable frames by the
  evaluation model their scan type maps to, then runs one job per group.
- **Project configuration.** This covers the artifact list, the
  key-to-value maps of setting groups, `model_predictions` and `clean()`.
- **Permission rules.** This covers the read and review groups,
  `get_user_role`, `get_status`, `update_group` and the cascade delete of a
  project.
- **Decision endpoint.** This covers decision creation (the permission
  gate, the tri-state artifact map and the lock requirement) and the listing
  filter.
- **Declarations.** This covers decision codes, artifact states, setting
  kinds and group typing.

How the Python is modelled:

- **Rows.** The database is the value `Records.Db`: one sequence per table,
  plus a set of guardian permissions. `Records.Valid` is referential
  integrity.
- **Store.** `Stores.Store` is a class holding these tables as fields. Its
  methods change them in place and are each proved to produce the state the
  corresponding function describes.
- **Dictionaries.** Python dictionaries, which keep insertion order and
  overwrite in place, are association lists (`Dicts.Dict`).
- **Loops.** The loops that grow lists and dictionaries are methods with
  invariants (modules `ImportLoops`, `ExportLoops`, `Evaluating`,
  `Projects`, `Stores`). Each is proved equal to a fold, and the properties
  are proved about that fold.
- **Keys.** A row's uuid is a sequence of naturals. The rows of one import
  get the key `[epoch, kind] + position`, so their keys are distinct by
  construction.
- **Parameters.** The following are passed in as parameters:
  - the current time and `dateparser.parse` (`Imports.Clock`);
  - the `REPLACE_NULL_CREATION_DATETIMES` setting;
  - date formatting on export (`render`);
  - the test "is an S3 frame or its path exists" (`eligible`).

Two behaviours are fixed by the code and tests rather than by a single
obvious reading:

- **Lock for creating a decision.** `ensure_experiment_lock` is not part of
  this model. The tests at `miqa/core/tests/test_rest.py:383-417` show that
  the requester must already hold the experiment's lock, and that otherwise
  the reply is 403 with the lock message. The model follows the tests.
- **Location parsing.** The code at `miqa/core/tasks.py:256-264` raises an
  IndexError when there are fewer than three axes or when an axis has no
  `=`, rather than reading the location as empty. The model follows the
  code (`Imports.ParseLocation`).

## Model

| member | source | states |
|---|---|---|
| Decisions.DecisionCodesExactly | miqa/core/models/scan_decision.py:14-19 | a code is a decision code exactly when it is U, UE, Q? or UN, and every such code has one or two characters |
| Decisions.StateOf | miqa/core/models/scan_decision.py:22-25 | only 1, 0 and -1 read back as artifact states, and reading inverts the state's value |
| Decisions.StateValuesDistinct | miqa/core/models/scan_decision.py:22-25 | PRESENT, ABSENT and UNDEFINED have pairwise distinct values, and each value reads back as its own state |
| Decisions.NewDecisionDefaults | miqa/core/models/scan_decision.py:35-42 | a decision given only its required fields has a creation time, an empty artifact map and an empty location; its fields are valid exactly when the code has one or two characters, so every choice code is valid |
| Decisions.NewerFirstIsTotalPreorder | miqa/core/models/scan_decision.py:30 | the `-created` ordering, with null times first, is a total preorder |
| Decisions.Ordered | miqa/core/models/scan_decision.py:30 | a scan's decisions in the default ordering are a permutation of them, sorted newest first |
| Decisions.Latest | miqa/core/models/project.py:192-194 | the first decision under `-created` is absent only for a scan with no decisions; otherwise it is one of them and no other is newer |
| Settings.GroupKindsByCode | miqa/core/models/setting.py:10-27 | distinct kinds have distinct codes; a kind may be a group exactly when its code starts with G and it is neither GIP nor GEP |
| Settings.NewSettingDefaults | miqa/core/models/setting.py:31-42 | a new setting has type NS, which is not a group kind; it has no group, so its group reference is valid, and `is_type` is false; its fields are valid exactly when the key has 1 to 255 characters |
| Settings.DeleteSetting | miqa/core/models/setting.py:38 | deleting a setting removes it, keeps every member of that group with the group cleared, and leaves every other row as it was |
| Settings.DeleteKeepsGroupRefsValid | miqa/core/models/setting.py:38-41 | after a deletion every group reference still points at a setting of a group kind |
| Settings.KeyOrderIsTotalPreorder | miqa/core/models/setting.py:7-8 | ordering by key is a total preorder |
| Settings.GroupMembers | miqa/core/models/setting.py:7-8 | a group's members, as a query returns them, are exactly the settings of that group, as a permutation, sorted by key |
| Projects.Artifacts | miqa/core/models/project.py:95-103 | `artifacts` has one entry per distinct key of the artifact group's members and no other key, so it is empty without a group, and every value is UNDEFINED (-1) |
| Projects.KeyValueMap | miqa/core/models/project.py:105-130 | `model_source_type_mappings` and `model_mappings` have distinct keys; a key is present exactly when some member of the group has it, and then holds the value of the last such member in key order |
| Projects.ModelPredictions | miqa/core/models/project.py:132-145 | `model_predictions` lists under each key the values of all members with that key, in order; no value is lost (the multiset of values is kept); it is empty without a group |
| Projects.CollectMembers | miqa/core/models/project.py:139-141 | the `setdefault(key, []).append(value)` loop builds the list-valued dictionary of the members' pairs |
| Projects.Clean | miqa/core/models/project.py:150-170 | `clean()` rejects a non-dictionary; else it rejects a key that is not a scan type; else it rejects a value that is None or not MIQAMix-0 or MIQAT1-0; it accepts exactly the remaining mappings |
| Projects.DefaultConfigIsClean | miqa/core/models/project.py:17-37 | every value of the default mapping is an available model, so the default passes `clean()` exactly when all its keys are scan types |
| Projects.Rank | miqa/core/models/project.py:179-182 | the sort key is the name's position among the read groups, and -1 for any other name |
| Projects.UserRole | miqa/core/models/project.py:178-183 | there is no role (an index error) exactly when the user holds no permission; otherwise the role is a permission of highest rank, and the last listed among equals |
| Projects.RoleOfReviewers | miqa/core/models/project.py:178-183 | a tier-2 reviewer's role is tier_2_reviewer; a user with tier-1 but not tier-2 has role tier_1_reviewer |
| Projects.ReviewGroupsAreReadGroups | miqa/core/models/project.py:172-176 | the review groups are the read groups other than collaborator, so a review permission is a read permission |
| Records.DecisionExperiment | miqa/core/models/scan_decision.py:44-46 | a decision's experiment is the experiment of its scan, and in a consistent store every stored decision has one |
| Records.UsersWithPerm | miqa/core/models/project.py:186-188 | the users with a permission on a project are exactly the users holding it |
| Records.UserWhere | miqa/core/models/project.py:225 | `User.objects.get` with a filter finds a user exactly when one row matches, and it is that row; it misses exactly when none matches, and otherwise is ambiguous |
| Records.UserByUsername | miqa/core/models/project.py:225 | a username lookup finds a user exactly when one row has that username, and it is that row; it misses exactly when none has it, and otherwise is ambiguous |
| Records.UserByEmail | miqa/core/tasks.py:241-243 | an email lookup finds a user exactly when one row has that email, and it is that row; it misses exactly when none has it, and otherwise is ambiguous |
| Records.UserByUsernameExactlyOne | miqa/core/models/project.py:225 | `User.objects.get(username=...)` returns a user exactly when the filter on that username matches exactly one row |
| Records.UserByEmailExactlyOne | miqa/core/tasks.py:241-243 | `User.objects.get(email=...)` returns a user exactly when the filter on that email matches exactly one row |
| ProjectState.ProjectScans | miqa/core/models/project.py:189 | a project's scans are exactly the scans of its experiments |
| ProjectState.ScanDecisions | miqa/core/models/project.py:192 | a scan's decisions are exactly the stored decisions on it |
| ProjectState.GetStatus | miqa/core/models/project.py:185-206 | `total_scans` is the number of the project's scans; `total_complete` counts those whose latest decision is by a tier-2 reviewer or is U, and never exceeds the total |
| ProjectState.NewestDecisionDecides | miqa/core/models/project.py:190-201 | once a decision newer than all others on a scan is added, the scan is complete exactly when that decision is by a tier-2 reviewer or is U |
| ProjectState.SingleDecisionComplete | miqa/core/models/project.py:190-201 | a scan with one decision is complete exactly when that decision is by a tier-2 reviewer or is U |
| ProjectState.StatusExample | miqa/core/tests/test_rest.py:66-89 | five scans, decided U by a reviewer, U by a tier-2 reviewer, UN by a reviewer, UN by a tier-2 reviewer and Q? by a reviewer, give status 5 total and 3 complete |
| ProjectState.ClearLocks | miqa/core/models/project.py:216-222 | exactly the project's experiments locked by the user lose their lock; all other experiments are unchanged |
| ProjectState.RevokeAllFrame | miqa/core/models/project.py:212-222 | the revocation loop only removes permissions of this group on this project and only clears locks; no other table changes |
| ProjectState.RevokeAllPerms | miqa/core/models/project.py:213-215 | a previously permitted user keeps the permission exactly when their username is in the list |
| ProjectState.RevokeAllKeeps | miqa/core/models/project.py:213-215 | the permission of a user who was not previously permitted is untouched |
| ProjectState.RevokeAllLocks | miqa/core/models/project.py:216-222 | a lock is cleared exactly on this project's experiments owned by a revoked user, and only for a reviewer group |
| ProjectState.GrantedExactly | miqa/core/models/project.py:224-227 | the granting loop adds the permission exactly for listed, uniquely found users who did not hold it before |
| ProjectState.FirstUnresolved | miqa/core/models/project.py:224-225 | the granting loop stops at the first username that finds no unique user, and every earlier username resolved |
| ProjectState.ReviewerGroupsClearLocks | miqa/core/models/project.py:216 | among the read groups, `'reviewer' in group_name` holds exactly for the review groups |
| ProjectState.CollaboratorLacksReviewer | miqa/core/models/project.py:216 | revoking collaborator never clears locks |
| ProjectState.UpdateGroupRefusesUnknownGroup | miqa/core/models/project.py:209-210 | a group name outside the read groups is refused and changes nothing |
| ProjectState.UpdateGroupSucceeds | miqa/core/models/project.py:208-227 | when every listed name resolves, `update_group` succeeds and afterwards a user holds the permission exactly when listed; all other permissions and tables are unchanged, and locks are cleared exactly for revoked reviewers |
| ProjectState.UpdateGroupKeepsValid | miqa/core/models/project.py:208-227 | `update_group` keeps every reference valid |
| ProjectState.DeleteExperiments | miqa/core/tasks.py:209-211 | deleting a project's experiments removes exactly them and, by cascade, their scans, those scans' frames and decisions, and those frames' evaluations; every other row stays |
| ProjectState.DeleteProject | miqa/core/models/project.py:237-245 | deleting a project removes it and exactly the evaluations, decisions, frames, scans and experiments under it |
| ProjectState.DeleteExperimentsKeepsValid | miqa/core/tasks.py:209-211 | the cascade leaves no dangling reference |
| ProjectState.DeleteProjectKeepsValid | miqa/core/models/project.py:237-245 | deleting a project leaves no dangling reference |
| ProjectState.DeleteProjectRemovesSubtree | miqa/core/models/project.py:237-245 | after the delete, no project, experiment, scan or frame of the deleted project remains |
| DecisionApi.SetLock | miqa/core/tests/test_rest.py:299-371 | only the experiment with the given key gets the new lock owner |
| DecisionApi.AcquireLock | miqa/core/tests/test_rest.py:299-338 | taking a lock succeeds exactly for an existing experiment, a requester with review permission, and a lock that is free or already theirs; the requester then owns it; every other reply changes nothing |
| DecisionApi.ReleaseLock | miqa/core/tests/test_rest.py:341-371 | releasing succeeds exactly for an existing experiment, a reviewer, and a lock that is free or theirs; the lock is then free; every other reply changes nothing |
| DecisionApi.LockScenarios | miqa/core/tests/test_rest.py:299-371 | a non-reviewer is forbidden; a reviewer takes a free lock, re-takes their own, gets a conflict on someone else's, releases their own, and cannot release someone else's |
| DecisionApi.AcquireThenRelease | miqa/core/tests/test_rest.py:341-353 | taking a free lock and releasing it restores the store |
| DecisionApi.SetLockKeepsValid | miqa/core/tests/test_rest.py:299-371 | setting an existing user, or nobody, as owner keeps references valid |
| DecisionApi.StateFor | miqa/core/rest/scan_decision.py:67-74 | a name is PRESENT exactly when listed in `present`, ABSENT exactly when listed in `absent` only, and UNDEFINED otherwise |
| DecisionApi.TriState | miqa/core/rest/scan_decision.py:62-76 | the request's artifact map has exactly the project's artifact names as keys, each with its tri-state value |
| DecisionApi.CreateDecision | miqa/core/rest/scan_decision.py:53-82 | the reply is 201, 403 or 500, and only 201 changes the store; the reply is 201 exactly when the scan, its experiment and project exist, the requester has review permission and holds the lock, `artifacts` is absent or has both lists, and the code has at most two characters; then exactly one decision is appended, created by the requester with the converted artifacts |
| DecisionApi.CreateRequiresReviewPerm | miqa/core/rest/scan_decision.py:57-58 | without review permission on the scan's project the reply is 403 and nothing is created |
| DecisionApi.CreateWithoutLockFails | miqa/core/tests/test_rest.py:383-395 | a reviewer who does not hold the experiment's lock gets 403 with the lock message, and nothing is created |
| DecisionApi.CreateWithLock | miqa/core/tests/test_rest.py:399-417 | a reviewer holding the lock gets 201, and the scan then has exactly one decision, with the sent code and the requester as creator |
| DecisionApi.CreateKeepsValid | miqa/core/rest/scan_decision.py:53-82 | creating a decision keeps every reference valid |
| DecisionApi.VisibleDecisions | miqa/core/rest/scan_decision.py:44-50 | the listing holds exactly the decisions on projects where the user has a read permission, as a permutation of them, newest first |
| DecisionApi.CreatedDecisionIsVisible | miqa/core/rest/scan_decision.py:44-82 | a decision just created is in its creator's listing |
| Paths.S3Split | miqa/core/tasks.py:45-46 | after stripping and dropping `s3://`, the bucket is the text up to the first `/` and the key the rest; the split fails exactly when there is no `/` |
| Paths.ImportSource | miqa/core/tasks.py:164-182 | a path ending in neither `.csv` nor `.json` is refused; `.csv` is tested first; the origin is S3 exactly for `s3://` paths, and a local origin keeps the path |
| Paths.S3PathSplits | miqa/core/tasks.py:45-46 | `s3://bucket/key.ext` imports from bucket `bucket` and key `key.ext` in the format of its extension |
| Paths.S3PathWithoutKeyFails | miqa/core/tasks.py:46 | an S3 path with no `/` after the bucket is refused as malformed |
| Paths.ExportFormat | miqa/core/tasks.py:409-419 | an export path ending in `csv` is CSV; else one ending in `json` is JSON; any other path is refused |
| Paths.ExportAcceptsImportPaths | miqa/core/tasks.py:409-419 | every importable path exports in the same format, but export is looser, for example `reportcsv` exports and does not import |
| Imports.CreatorOf | miqa/core/tasks.py:240-243 | a creator is set only to the user with the given email; there is no creator exactly when no email is given or no user has it; more than one match is an error |
| Imports.AxisValue | miqa/core/tasks.py:258 | an axis has a value exactly when it contains `=` |
| Imports.AxisValues | miqa/core/tasks.py:257-259 | the values of all axes, in order, exist exactly when every axis contains `=` |
| Imports.ParseLocation | miqa/core/tasks.py:250-264 | an absent or empty location is `{}`; otherwise parsing fails exactly when there are fewer than three `;`-axes or an axis without `=`, and succeeds with keys i, j, k |
| Imports.ImportedArtifacts | miqa/core/tasks.py:271-279 | the imported map's keys are exactly the project's artifact names, each 1 when the field mentions it and 0 otherwise, and never -1 |
| Imports.ImportDecision | miqa/core/tasks.py:239-283 | importing a decision fails exactly on an ambiguous creator or an unparsable location; a code outside the choices is dropped; a kept decision carries the code, the creator, the note, the parsed time or else now or null, the artifact map and the location |
| Imports.DecisionsOf | miqa/core/tasks.py:239-283 | a scan's imported decisions belong to it, have valid codes, have creators who are stored users, and are no more than the entries |
| Imports.FramesOf | miqa/core/tasks.py:286-293 | exactly the frame entries with a file location create frames; they belong to the scan, with the entry's number and path |
| Imports.ProjectByName | miqa/core/tasks.py:203-206 | a project lookup by name finds a project exactly when one row has that name, and it is that row; it misses exactly when none has it, and otherwise is ambiguous |
| Imports.ImportProject | miqa/core/tasks.py:201-295 | importing one project's entry changes no user, project, setting or permission, so no project is created |
| Imports.ImportProjects | miqa/core/tasks.py:201-295 | the project loop changes no user, project, setting or permission |
| Imports.PruneAsWritten | miqa/core/tasks.py:297-308 | pruning as written keeps frames and decisions, keeps exactly the scans with a frame, and keeps exactly the experiments with a kept scan |
| Imports.Prune | miqa/core/tasks.py:297-315 | pruning keeps the same scans and experiments, and keeps exactly the decisions whose scan is kept |
| Imports.PerformImport | miqa/core/tasks.py:193-324 | an import changes no user, project, setting or permission |
| Imports.PerformImportAsWritten | miqa/core/tasks.py:193-324 | the import as written changes no user, project, setting or permission; when the project loop succeeds and the import still fails, the error is a decision's scan that is not a stored scan (the foreign-key IntegrityError of line 315) |
| Imports.StoredBeforeDecisions | miqa/core/tasks.py:297-314 | the experiments, scans and frames stored before the decisions' insert are the same under both prunings, and the stored scan keys are the old ones plus the kept new scans |
| Imports.Orphans | miqa/core/tasks.py:315 | the decisions the foreign-key check refuses are exactly the batch's decisions whose scan is not among the stored scans |
| Imports.NoneDroppedNoOrphans | miqa/core/tasks.py:297-315 | when the corrected pruning drops no decision, no decision is refused and both prunings give the same rows |
| Imports.OrphanIsDropped | miqa/core/tasks.py:297-315 | a refused decision is one the corrected pruning drops, and a dropped decision whose scan key is not already stored is refused |
| Imports.AsWrittenAgreesUnlessDecisionDropped | miqa/core/tasks.py:297-324 | the import as written equals the corrected import, rows and result, when the corrected pruning drops no decision |
| Imports.AsWrittenFailureStoresPrunedRows | miqa/core/tasks.py:297-315 | when the import as written fails at the decisions, it has stored the corrected import's experiments, scans and frames but no decision of the batch, and some decision was dropped |
| Imports.DroppedDecisionFailsAsWritten | miqa/core/tasks.py:297-315 | a dropped decision whose scan key is not already stored makes the import as written fail |
| Imports.UnknownProjectStops | miqa/core/tasks.py:203-206 | a document naming a project that does not exist makes the import fail |
| Imports.UnknownProjectRefused | miqa/core/tasks.py:203-206 | the entry of a missing project is an error |
| Imports.ImportNeedsProjects | miqa/core/tasks.py:201-206 | a successful import names only existing projects |
| Imports.ImportDeletesExperiments | miqa/core/tasks.py:208-211 | after the project loop the stored experiments are exactly the old ones of projects the document does not name |
| Imports.ImportReplacesExperiments | miqa/core/tasks.py:201-221 | after a successful import the experiments are the old ones of unnamed projects plus the new kept ones, and the projects are unchanged |
| Imports.DecisionsKept | miqa/core/tasks.py:239-283 | when a scan's decisions import, every entry with a valid code is among them, and every imported decision comes from an entry at its position |
| Imports.LastDecisionWins | miqa/core/tasks.py:237-238 | with a `last_decision`, the scan's decisions are that one alone, or none when its code is not valid, and the scan fails exactly when it fails |
| Imports.FramesKept | miqa/core/tasks.py:286-293 | every frame entry with a file location becomes a frame of the scan with its number and path |
| Imports.FramesGrouped | miqa/core/tasks.py:318-323 | every new frame's key is listed under its own project, every listed key is a new frame of that project, and no key is lost or duplicated |
| Imports.PruneLinked | miqa/core/tasks.py:297-308 | the corrected pruning keeps the new rows' references inside the batch and the store |
| Imports.KeptScanKeepsExperiment | miqa/core/tasks.py:303-308 | a kept scan's experiment is kept |
| Imports.FrameKeepsScan | miqa/core/tasks.py:297-302 | every frame's scan is kept |
| Imports.KeptDecisionKeepsScan | miqa/core/tasks.py:297-315 | after the corrected pruning every decision's scan is kept |
| Imports.BulkCreateKeepsValid | miqa/core/tasks.py:310-315 | bulk-creating a batch whose references are linked keeps the store consistent |
| Imports.ImportKeepsValid | miqa/core/tasks.py:193-315 | the import, with the corrected pruning, leaves a consistent store whether it succeeds or fails |
| Imports.FramelessDocBuilt | miqa/core/tasks.py:193-295 | on a store with only the `demo` project, the project loop over the one-scan document succeeds and builds one scan, no frame and one decision on that scan |
| Imports.AsWrittenFailsOnDroppedScan | miqa/core/tasks.py:297-324 | on a document whose one scan has a decision and no frame, the import as written stores the same rows as the corrected import but then fails on the missing scan, so no frame reaches the evaluation job; the corrected import succeeds, stores no decision and stays consistent |
| Imports.FramelessScanBuilt | miqa/core/tasks.py:224-293 | a scan with a decision and no frame is built with one decision and no frame |
| Imports.ScanWithoutFrameIsPruned | miqa/core/tasks.py:297-302 | a scan with no frame is pruned by both prunings |
| Exports.FormatLocation | miqa/core/tasks.py:374-380 | an empty location exports as null; a non-empty one lacking i, j or k is an error; otherwise it exports as text |
| Exports.PresentNames | miqa/core/tasks.py:381-387 | the exported names are exactly the artifacts whose value is exactly 1 |
| Exports.PresentNamesInOrder | miqa/core/tasks.py:381-387 | the exported names are the keys of the entries whose value is 1, in the map's order |
| Exports.ExportedArtifacts | miqa/core/tasks.py:381-400 | the artifact field is null exactly when the `;`-join of the present names is empty, and otherwise is that join |
| Exports.ExportDecision | miqa/core/tasks.py:373-403 | exporting fails exactly on a location lacking an axis or a creator with no user row; otherwise code and note are copied, and the time and creator are null exactly when absent |
| Exports.ExportDecisionFields | miqa/core/tasks.py:373-403 | an exported decision's creator is the creator's username, its time the rendered time, its location the `i=..;j=..;k=..` text and its artifacts the joined present names |
| Exports.ExportDecisions | miqa/core/tasks.py:373-403 | a scan's decisions export exactly when each one does, one document per decision, in order |
| Exports.FramesDoc | miqa/core/tasks.py:369-372 | the frames map has distinct frame numbers, and each holds the path of the last frame with that number |
| Exports.EntriesExactly | miqa/core/tasks.py:404-406 | a name-keyed loop succeeds exactly when every item exports, assigning each item's name to its document in order |
| Exports.ScanEntries | miqa/core/tasks.py:360-404 | the scans' entries exist exactly when every scan exports, one per scan, named by the scan |
| Exports.ExperimentEntries | miqa/core/tasks.py:358-405 | the experiments' entries exist exactly when every experiment exports, one per experiment, named by it |
| Exports.ProjectEntries | miqa/core/tasks.py:356-406 | the projects' entries exist exactly when every project exports, one per project, named by it |
| Exports.PerformExport | miqa/core/tasks.py:345-354 | exporting an unknown project fails with `DoesNotExist` |
| Exports.ScanNames | miqa/core/tasks.py:404 | the scans map has distinct keys, exactly the scans' names, each holding the last scan of that name |
| Exports.ExperimentNames | miqa/core/tasks.py:405 | the experiments map has distinct keys, exactly the experiments' names, each holding the last of that name |
| Exports.ProjectNames | miqa/core/tasks.py:406 | the projects map has distinct keys, exactly the projects' names, each holding the last of that name |
| Exports.GlobalExportNames | miqa/core/tasks.py:345-348 | a global export is keyed by the names of all projects |
| Exports.ProjectExportName | miqa/core/tasks.py:350-353 | a project export holds that project's name alone |
| Exports.LocationRoundTrip | miqa/core/tasks.py:256-264 | `i=a;j=b;k=c` with values free of `;` and `=` imports as `{i: a, j: b, k: c}`, and that map exports as the same text |
| Exports.ArtifactsRoundTrip | miqa/core/tasks.py:271-279 | with non-empty names free of `;`, none inside another, exporting then importing keeps PRESENT and turns ABSENT and UNDEFINED into ABSENT |
| Exports.NestedArtifactNames | miqa/core/tasks.py:275 | because import tests substrings, `a` comes back present when only `ab` was present |
| Exports.DecisionRoundTrip | miqa/core/tasks.py:373-403 | a valid decision exported and imported again keeps its key, scan, code, note, location and time, and its artifacts up to UNDEFINED becoming ABSENT |
| Exports.CreatorComesBackEmpty | miqa/core/tasks.py:391-393 | export writes the creator's username and import looks users up by email, so a creator is lost on the way back |
| Evaluating.Placement | miqa/core/tasks.py:107-113 | a listed frame is skipped exactly when it exists and cannot be read; a placed frame is the stored frame and is readable |
| Evaluating.PlacedByScanType | miqa/core/tasks.py:113 | a placed frame goes to the model its scan's type maps to |
| Evaluating.AssignPlaces | miqa/core/tasks.py:108-116 | the frame loop fails exactly when some frame fails, and keeps exactly the frames placed |
| Evaluating.AssignAll | miqa/core/tasks.py:106-107 | the project loop leaves bound the project of the last entry, and places nothing without one |
| Evaluating.AssignedExactly | miqa/core/tasks.py:106-116 | the project loop's pairs are exactly the placements of frames listed under each project |
| Evaluating.ListedIsAssigned | miqa/core/tasks.py:106-116 | every listed, readable frame's placement is among the loop's pairs |
| Evaluating.AssignedIsListed | miqa/core/tasks.py:106-116 | every pair of the loop is the placement of a listed frame |
| Evaluating.FramesGroupedByModel | miqa/core/tasks.py:105-116 | `model_to_frames_map` has distinct models, a frame is in a model's list exactly when it was placed there, and no placement is lost or duplicated |
| Evaluating.InGroupIsAssigned | miqa/core/tasks.py:113-116 | a frame in a model's group was listed and placed at that model |
| Evaluating.OneGroupPerFrame | miqa/core/tasks.py:113-116 | a frame listed under one project lands in one model group only |
| Evaluating.EligibleFrameGrouped | miqa/core/tasks.py:111-116 | a readable listed frame is in the group of the model its scan type maps to |
| Evaluating.UnreadableFrameSkipped | miqa/core/tasks.py:111 | a frame that cannot be read is in no group |
| Evaluating.GroupFrames | miqa/core/tasks.py:105-116 | the grouping loop computes the grouping of the listed frames and the last project |
| Evaluating.PlaceFrames | miqa/core/tasks.py:108-116 | the inner loop appends each placed frame to its model's list, or stops at the first failing frame |
| Evaluating.EvaluationsFor | miqa/core/tasks.py:140-149 | one evaluation per frame of the group, with that frame and model, in order |
| Evaluating.RunJobs | miqa/core/tasks.py:120-149 | the jobs add evaluations and change nothing else |
| Evaluating.JobsFailOnUnrunnable | miqa/core/tasks.py:122-126 | the jobs fail exactly when some group's model has no model file or no predictions |
| Evaluating.JobsEvaluateEveryFrame | miqa/core/tasks.py:140-149 | successful jobs keep the stored evaluations and add one for every frame of every group, with its group's model |
| Evaluating.Evaluate | miqa/core/tasks.py:102-149 | evaluating changes nothing but the evaluations |
| Evaluating.EvaluateData | miqa/core/tasks.py:102-149 | `evaluate_data` changes nothing but the evaluations |
| Evaluating.EveryEligibleFrameEvaluated | miqa/core/tasks.py:102-149 | after a successful run, every readable listed frame has an evaluation with the model its scan type maps to in its project |
| Evaluating.GroupMemberEvaluated | miqa/core/tasks.py:120-149 | after successful jobs, every frame of a model's group has an evaluation with that model |
| Evaluating.JobsUseLastProject | miqa/core/tasks.py:122-125 | models are looked up on the project listed last, so a model that project cannot run fails the evaluation, whichever project its frames came from |
| Stores.FilterRows | miqa/core/models/project.py:241-245 | a table filtered by a test keeps exactly the rows that pass it, in order |
| Stores.Store.DeleteExperiments | miqa/core/tasks.py:209-211 | the store's rows become the cascade delete of the project's experiments |
| Stores.Store.Cascade | miqa/core/tasks.py:209-211 | filtering the five tables with keys computed before any deletion gives the cascade delete |
| Stores.Store.DeleteProject | miqa/core/models/project.py:237-245 | the store's rows become those left after deleting the project and its subtree |
| Stores.Store.ReleaseLocksOf | miqa/core/models/project.py:216-222 | only the locks on the project's experiments held by the user are cleared |
| Stores.Store.UpdateGroup | miqa/core/models/project.py:208-227 | the store and the result become those of `update_group` |
| Stores.Store.Revoke | miqa/core/models/project.py:212-222 | the revocation loop over the previously permitted users produces the revoked state |
| Stores.Store.Grant | miqa/core/models/project.py:224-227 | the granting loop adds the permissions of the names before the first unresolved one, and fails at that one |
| Stores.Store.SetLockOwner | miqa/core/tests/test_rest.py:299-371 | only the given experiment's lock owner changes |
| Stores.Store.AcquireLock | miqa/core/tests/test_rest.py:299-338 | the store and reply become those of taking the lock |
| Stores.Store.ReleaseLock | miqa/core/tests/test_rest.py:341-371 | the store and reply become those of releasing the lock |
| Stores.Store.CreateDecision | miqa/core/rest/scan_decision.py:53-82 | the store and reply become those of creating the decision |
| Stores.Store.PerformImport | miqa/core/tasks.py:193-324 | the store and the frames by project become those of the import |
| Stores.Store.ImportProjects | miqa/core/tasks.py:201-295 | the project loop deletes each named project's experiments in turn and returns the built batch or the first error |
| Stores.Store.BulkCreate | miqa/core/tasks.py:310-315 | the batch's rows are appended to their tables |
| Stores.Store.EvaluateData | miqa/core/tasks.py:102-149 | the store and result become those of `evaluate_data` |
| Stores.Store.RunJobs | miqa/core/tasks.py:118-149 | the jobs append each group's evaluations in turn, stopping at the first model that cannot run |
| ImportLoops.ScanDecisions | miqa/core/tasks.py:239-283 | the decision loop computes the scan's decisions, stopping at the first failure |
| ImportLoops.ScanFrames | miqa/core/tasks.py:286-293 | the frame loop computes the scan's frames |
| ImportLoops.ExperimentScans | miqa/core/tasks.py:224-293 | the scan loop appends each scan's decisions, row and frames to the batch |
| ImportLoops.ProjectExperiments | miqa/core/tasks.py:214-293 | the experiment loop appends each experiment's row, then its scans |
| ImportLoops.GroupByProject | miqa/core/tasks.py:318-323 | the loop fills `frames_by_project` with every new frame under its project |
| ExportLoops.WriteFrames | miqa/core/tasks.py:369-372 | the loop fills the frames map by frame number |
| ExportLoops.WriteDecisions | miqa/core/tasks.py:373-403 | the loop appends each decision's document, stopping at the first failure |
| ExportLoops.WriteScan | miqa/core/tasks.py:361-403 | one scan's document holds its fields, frames and decisions newest first |
| ExportLoops.WriteScans | miqa/core/tasks.py:360-404 | the loop fills the scans map by scan name |
| ExportLoops.WriteExperiment | miqa/core/tasks.py:358-405 | one experiment's document holds its note and scans |
| ExportLoops.WriteExperiments | miqa/core/tasks.py:358-405 | the loop fills the experiments map by experiment name |
| ExportLoops.WriteProject | miqa/core/tasks.py:356-406 | one project's document holds its experiments |
| ExportLoops.WriteProjects | miqa/core/tasks.py:356-406 | the loop fills the projects map by project name |
| ExportLoops.Export | miqa/core/tasks.py:341-406 | the export walk builds the document of all projects, or of the one asked for |

## Left out

- **S3 and file I/O.** The boto3 download, reading and writing files,
  `json.load`/`json.dump` and `to_csv` are left out. So is
  `export_data`'s check that the parent directory exists. Only the path
  classification and the S3 path split are modelled. Missing-file and
  permission errors when reading the import file are not modelled.
- **CSV conversion and document validation.** `import_dataframe_to_dict`,
  `import_dict_to_dataframe` and `validate_import_dict` are not part of this
  model. The import takes the document as already validated, and the export
  stops at the document it would validate.
- **Celery and tasks outside the core.** Celery dispatch and `reset_demo`
  are left out. The zarr conversion task is left out too. The frames by
  project are returned rather than handed to `evaluate_data.delay`.
- **Neural-network inference.** Loading models, downloading frames into a
  temporary directory, rewriting `file_paths` and `evaluate_many` are left
  out; they are foreign calls on floating-point models. An evaluation row
  records its frame and model but not the results.
- **Time.** `dateparser.parse`, `datetime.now` and `strftime` are
  parameters. Times are integers. The text that `strftime` writes on import
  is not modelled.
- **Guardian and the ORM.** Permissions are a set of (user, project, name)
  triples. Queries are filters over sequences. The database's atomicity and
  the order of its deletes are not modelled.
- **Scan types.** `SCAN_TYPES` is a parameter of `clean()`, because
  `miqa/core/models/scan.py` is not part of this model.
- **Row order.** A query returns rows in table order. Experiment and scan
  order therefore follow insertion, not any database ordering.
- **Lock endpoints and `ensure_experiment_lock`.** They are not shown. The
  model constrains them only by what `miqa/core/tests/test_rest.py`
  observes. Releasing a free lock is taken to succeed and change nothing,
  which the tests do not decide.
- **Decision code on creation.** Django does not validate a decision code
  outside the choices on save, so creation accepts one. Only the two-character
  column limit is enforced (reply 500). The note's length limit is a
  validator, and it is not enforced on save either.
- **Uniqueness.** Usernames and emails are not assumed unique. A lookup that
  matches several users is its own outcome (`Lookup.Ambiguous`).
- **Frame numbers.** Frame numbers are natural numbers. The document's keys
  are strings in JSON and are not modelled as text.
- **Superusers and inactive users.** A user is an id, a username and an
  email. Guardian gives a superuser every permission name of a project and
  gives an inactive user none; the model takes a user's permissions from the
  stored (user, project, name) triples alone (`Records.PermsOf`). The
  members below depend on that. `get_user_role`
  (miqa/core/models/project.py:178-183) is modelled on the list of names it
  is given (`Projects.UserRole`), so it is not affected.
- DecisionApi.VisibleDecisions: it does not model superusers.
  `get_objects_for_user` (miqa/core/rest/scan_decision.py:45-49) runs with
  guardian's default `with_superuser=True`, so a superuser's listing holds
  every decision; the model lists only the decisions on projects where a
  read permission is stored. An inactive user's empty listing is not
  modelled either.
- DecisionApi.CreateDecision: it does not model superusers or inactive
  users. For a superuser `get_perms` returns every permission name, so the
  review check at miqa/core/rest/scan_decision.py:57 always passes; for an
  inactive user it always fails. The model decides the check from the stored
  permissions only. The lock endpoints (`DecisionApi.AcquireLock`,
  `DecisionApi.ReleaseLock`) share that check.
- Imports.PerformImport: the model uses the corrected pruning listed under
  Findings. The code as written is modelled by
  `Imports.PerformImportAsWritten`.
- Stores.Store.PerformImport: it runs the corrected pruning, as
  `Imports.PerformImport` does, so it does not show the failing decisions'
  insert of the code as written. That behaviour is stated by
  `Imports.PerformImportAsWritten`,
  `Imports.AsWrittenAgreesUnlessDecisionDropped`,
  `Imports.AsWrittenFailureStoresPrunedRows` and
  `Imports.DroppedDecisionFailsAsWritten`.
- DecisionApi.CreateDecision: the request is a record of the keys the
  endpoint reads. A client-sent `created` or `id`, which
  `ScanDecision(**request_data)` would store, is not modelled; the row always
  gets the server's time and key. A request key that is not a field of the
  row (a TypeError, so a 500) is not modelled either.
- Imports.DecisionsOf: it states what every imported decision satisfies.
  The exact correspondence with the entries is stated by
  `Imports.DecisionsKept`.
- Exports.PerformExport: it states only the error for an unknown project.
  The shape of the document is stated by the `*Names`, `*Entries` and
  round-trip lemmas.

## Findings

| source | as written | input that shows it | evidently intended | confidence | as-written member | corrected member |
|---|---|---|---|---|---|---|
| miqa/core/tasks.py:297-315 | pruning drops scans without frames, but every decision of a dropped scan is still passed to `ScanDecision.objects.bulk_create`; the foreign key on the decision's scan (miqa/core/models/scan_decision.py:37) makes that insert raise IntegrityError after the experiments, scans and frames are stored, so no decision is stored and `evaluate_data` is never called | a document whose one scan has one decision with code U and no frame with a file location | the decisions of a dropped scan are dropped with it, and the import succeeds | not executed | Imports.PerformImportAsWritten, Imports.AsWrittenFailsOnDroppedScan | Imports.Prune, Imports.PerformImport |
