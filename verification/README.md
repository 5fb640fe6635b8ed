# Salto core rules, modelled in Dafny

This project models a handful of pieces of the Salto workspace, core and adapters. Each is written as pure Dafny functions over immutable data, with proved properties:

- **The changed-at index** (workspace): a persisted map from a change date to the full names of the elements changed on that date. Each batch of element changes keeps it up to date incrementally:
  - an element contributes its own id under its `_changed_at` annotation; an object type also contributes each field's id under the field's annotation;
  - the dates a batch touches are read from the store in one call, and the changes are applied to that in-memory copy;
  - touched dates whose set became empty are deleted, and the others are written back;
  - a stored index version other than 3, or an invalid cache, clears the index before the batch is applied. A stale version also replaces the batch with the changes of every element.
- **The deployment-annotation validator** (core): refuses a change when the instance's type does not support the change's action, and warns about each field inside the instance whose definition does not support it.
- **Two adapter change validators**: Jira's read-only add-ons project role, and NetSuite's rule that type definitions are read only.
- **Two fetch filters**: Jira's empty default description, and Zendesk's removal of the old definition instances.
- **Jira's standard deployment**:
  - the partition of a batch into applied changes and errors, with the error message format;
  - the service id copied back after an addition.
- **Jira field-context default values**:
  - whether an update is sent, and its body;
  - which fields of the default-value type become deployable.

Shared modules:

- `Seqs`: the array operations used by the source.
- `Values`: JavaScript values, with truthiness and `String()`.
- `Elements`: element ids, elements, changes and change errors.

## Model

| member | source | states |
|---|---|---|
| ChangedAtIndex.DateKey | packages/workspace/src/workspace/changed_at_index.ts:48-49 | An element contributes a date exactly when its `_changed_at` annotation is defined. A string date is its own key. |
| ChangedAtIndex.FieldPairs | packages/workspace/src/workspace/changed_at_index.ts:56-59 | Gives one (date, field id) pair for each field whose `_changed_at` is defined. `FieldPairsSpec` states which pairs and how many; their order, that of the fields, comes from the definition alone. |
| ChangedAtIndex.FieldPairsSpec | packages/workspace/src/workspace/changed_at_index.ts:56-59 | No more pairs than fields. Every pair comes from a field whose date is defined. Every such field contributes its pair. No annotated field means no pairs. |
| ChangedAtIndex.Contributions | packages/workspace/src/workspace/changed_at_index.ts:44-62 | The pairs `getChangedAtDates` pushes: an object type's field pairs, then the element's own pair. `ContributionsSpec` states this. |
| ChangedAtIndex.ContributionsSpec | packages/workspace/src/workspace/changed_at_index.ts:44-62 | The pairs are the element's own id under its defined date, added last, plus each annotated field's id for an object type. Nothing else is contributed, and an unannotated element contributes nothing. |
| ChangedAtIndex.InsertDates | packages/workspace/src/workspace/changed_at_index.ts:50-53 | Pushing a pair into the date record adds its date to the record's dates, and nothing else. |
| ChangedAtIndex.InsertIds | packages/workspace/src/workspace/changed_at_index.ts:50-53 | Pushing a pair appends its id to its own date's list and leaves the other dates' lists alone. |
| ChangedAtIndex.GroupIntoDates | packages/workspace/src/workspace/changed_at_index.ts:50-53 | Grouping pairs into the date record keeps one entry per date and covers exactly the pairs' dates. |
| ChangedAtIndex.GroupIntoIds | packages/workspace/src/workspace/changed_at_index.ts:50-53 | Grouping appends each pair's id to its date's entry, in pair order. |
| ChangedAtIndex.ChangedAtDates | packages/workspace/src/workspace/changed_at_index.ts:44-62 | The record has distinct dates, exactly the contributed ones, and lists under each date the ids contributed to it, in order. |
| ChangedAtIndex.ChangedAtDatesNames | packages/workspace/src/workspace/changed_at_index.ts:44-62 | The full names under a date in the record are exactly the element's contributed ids for that date. |
| ChangedAtIndex.AddEntries | packages/workspace/src/workspace/changed_at_index.ts:68-74 | Adding the record creates every missing date and adds the record's names to each date's set. Other dates are untouched. |
| ChangedAtIndex.RemoveEntries | packages/workspace/src/workspace/changed_at_index.ts:81-86 | Removing the record deletes its names from dates already present. It never creates a date. |
| ChangedAtIndex.ApplyAddition | packages/workspace/src/workspace/changed_at_index.ts:64-75 | After an addition, the keys are the old ones plus the contributed dates. Each set is its old content plus the contributed ids. |
| ChangedAtIndex.ApplyRemoval | packages/workspace/src/workspace/changed_at_index.ts:77-87 | A removal keeps the keys and takes the contributed ids out of each existing set. |
| ChangedAtIndex.ApplyModification | packages/workspace/src/workspace/changed_at_index.ts:89-104 | A modification is a no-op when the top-level `_changed_at` is strictly equal before and after. Otherwise it removes the before-ids and then adds the after-ids. |
| ChangedAtIndex.UpdateChange | packages/workspace/src/workspace/changed_at_index.ts:106-117 | Sends an addition, a removal or a modification to its own update. `UpdateChangeFrame` states its frame, and `ChangedAtProperties.UpdateChangeAt` and `ChangedAtProperties.CommitOne` state its effect. |
| ChangedAtIndex.UpdateChangeFrame | packages/workspace/src/workspace/changed_at_index.ts:106-117 | One change never drops a date. It adds only dates it touches and leaves every other date as it was. |
| ChangedAtIndex.ApplyChanges | packages/workspace/src/workspace/changed_at_index.ts:149 | Applies the batch's changes, in order, to the in-memory map. `ApplyChangesFrame` and `ChangedAtProperties.ApplyAdditions` state its effect. |
| ChangedAtIndex.ApplyChangesFrame | packages/workspace/src/workspace/changed_at_index.ts:149 | Applying a batch in order changes no date outside the batch's touched dates. |
| ChangedAtIndex.ChangeDateKeys | packages/workspace/src/workspace/changed_at_index.ts:121-125 | The dates listed for a change are the contributed dates. For a modification, that is both the before-dates and the after-dates. |
| ChangedAtIndex.AllDateKeys | packages/workspace/src/workspace/changed_at_index.ts:121-126 | The dates listed for a batch are exactly the union of its changes' dates. |
| ChangedAtIndex.UniqueDates | packages/workspace/src/workspace/changed_at_index.ts:119-128 | The unique dates have no repeats and are exactly the batch's touched dates. |
| ChangedAtIndex.GetMany | packages/workspace/src/workspace/changed_at_index.ts:147 | The batched read answers each key, by position, with its stored set, or nothing when the key is absent. |
| ChangedAtIndex.ZipDates | packages/workspace/src/workspace/changed_at_index.ts:135 | Zipping dates with answers has exactly the listed dates as keys. |
| ChangedAtIndex.MergeDateMap | packages/workspace/src/workspace/changed_at_index.ts:130-140 | The merged map holds only dates that were read. |
| ChangedAtIndex.MergeOfGetMany | packages/workspace/src/workspace/changed_at_index.ts:130-140 | Merging the read answers keeps exactly the read dates the store holds, with their stored sets. |
| ChangedAtIndex.PreRead | packages/workspace/src/workspace/changed_at_index.ts:146-148 | The stored sets of the batch's touched dates, which is what the batched read and the merge yield (`MergeOfGetMany`). |
| ChangedAtIndex.BatchMap | packages/workspace/src/workspace/changed_at_index.ts:142-151 | The complete date map: the batch applied to the pre-read part of the store. `CompleteDateMap` computes it, and `BatchMapKeys` bounds its keys. |
| ChangedAtIndex.CompleteDateMap | packages/workspace/src/workspace/changed_at_index.ts:142-151 | The complete map is the batch applied, in order, to the part of the store it pre-reads. |
| ChangedAtIndex.BatchMapKeys | packages/workspace/src/workspace/changed_at_index.ts:142-151 | The complete map holds only touched dates, and every touched date the store holds. |
| ChangedAtIndex.SetAll | packages/workspace/src/workspace/changed_at_index.ts:162-163 | After the batched write, a key is present if it was stored before or was written. |
| ChangedAtIndex.SetAllValue | packages/workspace/src/workspace/changed_at_index.ts:162-163 | A written key holds the value written for it. A key that was not written keeps its stored value. A key not stored before is present only if it was written. |
| ChangedAtIndex.DeleteAll | packages/workspace/src/workspace/changed_at_index.ts:164 | The batched delete removes exactly the listed keys and keeps every other stored set. |
| ChangedAtIndex.Commit | packages/workspace/src/workspace/changed_at_index.ts:157-164 | After the two-phase commit, a key of the map is present exactly when its set is non-empty, holding that set. Every other key keeps its stored value. |
| ChangedAtIndex.CommitIsOverlay | packages/workspace/src/workspace/changed_at_index.ts:153-165 | The commit lays the touched dates over the store. A touched date holds its new set, or is deleted when that set is empty. |
| ChangedAtIndex.IndexAfter | packages/workspace/src/workspace/changed_at_index.ts:153-165 | The store after one batch: on touched dates, the batch map's non-empty sets; elsewhere, the stored sets. `CommitIsOverlay` shows that the two-phase commit produces exactly this. |
| ChangedAtIndex.UpdateChanges | packages/workspace/src/workspace/changed_at_index.ts:153-165 | One batch leaves the store overlaid with the batch's map on the touched dates and unchanged elsewhere. |
| ChangedAtIndex.UpdateChangedAtIndex | packages/workspace/src/workspace/changed_at_index.ts:167-193 | Afterwards the stored version is always 3. A matching version with a valid cache applies the batch incrementally. A stale version rebuilds from the changes of every element over an empty index. An invalid cache applies the batch over an empty index. |
| ChangedAtProperties.ContributedIdsNonEmpty | packages/workspace/src/workspace/changed_at_index.ts:44-62 | An element contributes a date exactly when it contributes some id under it. |
| ChangedAtProperties.AdditionIdempotent | packages/workspace/src/workspace/changed_at_index.ts:64-75 | Applying the same addition twice equals applying it once. |
| ChangedAtProperties.UnannotatedElementContributesNothing | packages/workspace/src/workspace/changed_at_index.ts:48-49 | With no `_changed_at` on the element or its fields, an addition or removal leaves the map as it was. |
| ChangedAtProperties.TouchedDatesArePreRead | packages/workspace/src/workspace/changed_at_index.ts:119-128 | Every date any change of the batch reads or writes is among the pre-read unique dates. |
| ChangedAtProperties.SingleBatch | packages/workspace/src/workspace/changed_at_index.ts:142-151 | A batch of one change touches that change's dates and applies only it to the pre-read store. |
| ChangedAtProperties.IndexAfterClean | packages/workspace/src/workspace/changed_at_index.ts:158-164 | A store with no empty sets keeps none after a commit. |
| ChangedAtProperties.CommitAddition | packages/workspace/src/workspace/changed_at_index.ts:64-75 | Committing one addition stores exactly what applying it in memory gives. |
| ChangedAtProperties.UpdateChangeAt | packages/workspace/src/workspace/changed_at_index.ts:106-117 | What a change does to one date depends only on what the map holds at that date. |
| ChangedAtProperties.ApplyChangesAt | packages/workspace/src/workspace/changed_at_index.ts:149 | Two maps that agree at a date still agree there after the same batch is applied to both. |
| ChangedAtProperties.BatchCommit | packages/workspace/src/workspace/changed_at_index.ts:142-165 | Committing a whole batch to a store with no empty sets, through the read of its touched dates, gives the batch applied in order to the whole store, without empty sets. |
| ChangedAtProperties.CommitOne | packages/workspace/src/workspace/changed_at_index.ts:153-165 | Committing one change to a store with no empty sets gives the change applied to the whole store, without empty sets. |
| ChangedAtProperties.CommitRemoval | packages/workspace/src/workspace/changed_at_index.ts:77-87 | Committing one removal stores the in-memory removal, without the dates it emptied. |
| ChangedAtProperties.CommitModification | packages/workspace/src/workspace/changed_at_index.ts:89-104 | Committing one modification stores the in-memory modification, without the dates it emptied. |
| ChangedAtProperties.RemoveAfterAdd | packages/workspace/src/workspace/changed_at_index.ts:64-87 | In memory, removing an element right after adding it restores the map, up to the dates the addition created, which end up empty. |
| ChangedAtProperties.AddThenRemoveRestores | packages/workspace/src/workspace/changed_at_index.ts:64-87 | Committing an addition and then its removal restores the store, when the ids were not already recorded. |
| ChangedAtProperties.ApplyAdditions | packages/workspace/src/workspace/changed_at_index.ts:149 | Applying every element as an addition adds all of their contributions. |
| ChangedAtProperties.IndexOfEmptyStore | packages/workspace/src/workspace/changed_at_index.ts:187-192 | A batch committed to a cleared store leaves the non-empty sets the batch computes from nothing. |
| ChangedAtProperties.RebuildIsFullIndex | packages/workspace/src/workspace/changed_at_index.ts:178-192 | Re-indexing every element into a cleared store yields the reference index: every contributed date with every id contributed to it. |
| ChangedAtProperties.AdditionsMatchRebuild | packages/workspace/src/workspace/changed_at_index.ts:142-192 | Committing a batch of additions to the reference index of some elements gives the reference index of all the elements, as a rebuild would. |
| ChangedAtProperties.AllDatesConcat | packages/workspace/src/workspace/changed_at_index.ts:64-75 | The dates and the ids per date of two element lists together are the unions of those of each list. |
| ChangedAtProperties.AddToFullIndex | packages/workspace/src/workspace/changed_at_index.ts:64-75 | Adding one element to the reference index gives the reference index of the longer element list. |
| ChangedAtProperties.AdditionMatchesRebuild | packages/workspace/src/workspace/changed_at_index.ts:153-165 | An incremental addition to the reference index equals rebuilding with the element. |
| ChangedAtProperties.RemovalMatchesRebuild | packages/workspace/src/workspace/changed_at_index.ts:153-165 | An incremental removal equals rebuilding without the element, when no other element shares its ids under its dates. |
| ChangedAtProperties.UnchangedTopDateKeepsIndex | packages/workspace/src/workspace/changed_at_index.ts:93-94 | A modification with an unchanged top-level `_changed_at` leaves the index as it was, even when field dates changed. |
| ChangedAtProperties.FieldDateMoveLeavesIndexStale | packages/workspace/src/workspace/changed_at_index.ts:89-104 | An object type keeps its top-level date while its field's date moves from `d1` to `d2`. After the incremental update, the index differs from a rebuild, which files the field under `d2`. |
| ChangedAtProperties.DropEmptyAddition | packages/workspace/src/workspace/changed_at_index.ts:70-73 | Dropping empty sets before or after an addition gives the same map. |
| ChangedAtProperties.ModificationMatchesRebuild | packages/workspace/src/workspace/changed_at_index.ts:89-104 | A modification that changes the top-level date equals rebuilding with the element replaced, when no other element shares its before-ids. |
| CheckDeploymentAnnotations.IsDeploymentSupported | packages/core/src/core/plan/change_validators/check_deployment_annotations.ts:37-39 | An action is supported when its annotation is truthy or undefined. `UnsupportedIffFalsyDefined` states the falsy values that refuse it. |
| CheckDeploymentAnnotations.UnsupportedIffFalsyDefined | packages/core/src/core/plan/change_validators/check_deployment_annotations.ts:37-39 | An action is unsupported exactly when its annotation is set to `null`, `false`, `0` or `""`. |
| CheckDeploymentAnnotations.ErrorMessage | packages/core/src/core/plan/change_validators/check_deployment_annotations.ts:25 | `The change of <full name> is not supported and will be omitted from deploy`. |
| CheckDeploymentAnnotations.TopLevelDetail | packages/core/src/core/plan/change_validators/check_deployment_annotations.ts:34-35 | `"<action>" operation on <full name> is not supported`. |
| CheckDeploymentAnnotations.NestedDetail | packages/core/src/core/plan/change_validators/check_deployment_annotations.ts:27-32 | `Deploying "<nested part>" in <instance full name> is not supported`. `NestedPartIsKeys` states the nested part. |
| CheckDeploymentAnnotations.NestedNameParts | packages/core/src/core/plan/change_validators/check_deployment_annotations.ts:30 | A nested id's full-name parts are the instance's parts followed by the keys, when no key is empty. |
| CheckDeploymentAnnotations.NestedPartIsKeys | packages/core/src/core/plan/change_validators/check_deployment_annotations.ts:27-32 | The nested part of the warning is the keys below the instance joined by `.`, the last nesting-level parts. |
| CheckDeploymentAnnotations.NodeHits | packages/core/src/core/plan/change_validators/check_deployment_annotations.ts:50-57 | The transform callback at one entry: nothing without a field; the entry itself when its field refuses the action, without descending; otherwise the hits below it. `NodeHitsSpec` states this. |
| CheckDeploymentAnnotations.WalkFrom | packages/core/src/core/plan/change_validators/check_deployment_annotations.ts:46-59 | The walk over a list of entries from one position on. `WalkFromSpec` states it. |
| CheckDeploymentAnnotations.UnsupportedPaths | packages/core/src/core/plan/change_validators/check_deployment_annotations.ts:41-62 | `getUnsupportedPaths` over the diff instance's entries. `UnsupportedPathsSpec` states it against the reference `HitAt`. |
| CheckDeploymentAnnotations.HitAtShape | packages/core/src/core/plan/change_validators/check_deployment_annotations.ts:50-55 | A reported path has one key per level and is the path it was found at. |
| CheckDeploymentAnnotations.NodeHitsSpec | packages/core/src/core/plan/change_validators/check_deployment_annotations.ts:50-57 | The walk reports, for one entry, exactly the unsupported paths starting there. It does not descend below an unsupported field. |
| CheckDeploymentAnnotations.WalkFromSpec | packages/core/src/core/plan/change_validators/check_deployment_annotations.ts:46-59 | The walk from an entry on reports exactly the unsupported paths from that entry on. |
| CheckDeploymentAnnotations.UnsupportedPathsSpec | packages/core/src/core/plan/change_validators/check_deployment_annotations.ts:41-62 | A path is reported exactly when every entry above it has a field supporting the action and its own field does not. |
| CheckDeploymentAnnotations.TypeError | packages/core/src/core/plan/change_validators/check_deployment_annotations.ts:73-78 | The error for an instance whose type refuses the action: the instance's id, severity Error, the message naming the type and the top-level detail. |
| CheckDeploymentAnnotations.PathWarning | packages/core/src/core/plan/change_validators/check_deployment_annotations.ts:87-92 | The warning for one unsupported path: the instance's id, severity Warning, the message naming the field and the nested detail. |
| CheckDeploymentAnnotations.ChangeErrors | packages/core/src/core/plan/change_validators/check_deployment_annotations.ts:66-93 | A non-instance change gives nothing. An unsupported type gives exactly one error about the instance, naming the type. A removal on a supporting type gives nothing. Otherwise there is one warning about the instance per unsupported path. |
| CheckDeploymentAnnotations.Validate | packages/core/src/core/plan/change_validators/check_deployment_annotations.ts:64-97 | An empty batch gives no reports. |
| CheckDeploymentAnnotations.ValidateConcat | packages/core/src/core/plan/change_validators/check_deployment_annotations.ts:64-97 | The validator's output for two batches is the concatenation of its outputs for each. |
| CheckDeploymentAnnotations.WarningsAreHits | packages/core/src/core/plan/change_validators/check_deployment_annotations.ts:85-92 | The warnings built from the walk are exactly one per unsupported path. |
| CheckDeploymentAnnotations.WarningIffHit | packages/core/src/core/plan/change_validators/check_deployment_annotations.ts:85-92 | For an addition or modification on a supporting type, a report is present exactly when it is the warning for an unsupported path. It names the field and the path's keys. |
| CheckDeploymentAnnotations.ErrorsAreTypeErrors | packages/core/src/core/plan/change_validators/check_deployment_annotations.ts:72-79 | Every error reported is the type error of some change whose type does not support its action. Every report is an error or a warning. |
| ReadOnlyProjectRole.Validate | packages/jira-adapter/src/change_validators/read_only_project_role.ts:20-32 | The four filters, then one error per surviving change. `ValidateIsReference` equates it with `Reference`. |
| ReadOnlyProjectRole.Reference | packages/jira-adapter/src/change_validators/read_only_project_role.ts:20-32 | The reference report is never longer than the input. |
| ReadOnlyProjectRole.ValidateIsReference | packages/jira-adapter/src/change_validators/read_only_project_role.ts:20-32 | The filter chain equals the change-by-change reference: one error per refused change, in input order. |
| ReadOnlyProjectRole.ErrorIffRefused | packages/jira-adapter/src/change_validators/read_only_project_role.ts:22-31 | An error is reported exactly for an instance removal or modification of type `ProjectRole` whose `name` is `atlassian-addons-project-access`. Additions and non-instances are never reported. |
| ReadOnlyProjectRole.ReferenceConcat | packages/jira-adapter/src/change_validators/read_only_project_role.ts:20-32 | The output for two batches is the concatenation of the outputs for each. |
| InstanceChanges.Validate | packages/netsuite-adapter/src/change_validators/instance_changes.ts:20-31 | Filter, map, filter, then one error per surviving element. `ValidateIsReference` equates it with `Reference`. |
| InstanceChanges.Reference | packages/netsuite-adapter/src/change_validators/instance_changes.ts:20-31 | The reference report is never longer than the input. |
| InstanceChanges.ValidateIsReference | packages/netsuite-adapter/src/change_validators/instance_changes.ts:20-31 | The filter-and-map chain equals the change-by-change reference, in input order. |
| InstanceChanges.ErrorIffRefused | packages/netsuite-adapter/src/change_validators/instance_changes.ts:22-30 | An error is reported exactly for an addition or modification of a non-instance. It carries the element's id, `Type definitions are read only` and the element's name. |
| InstanceChanges.ReferenceConcat | packages/netsuite-adapter/src/change_validators/instance_changes.ts:20-31 | The output for two batches is the concatenation of the outputs for each. |
| MissingDescriptions.WithEmptyDescription | packages/jira-adapter/src/filters/missing_descriptions.ts:35 | Filling keeps the instance's id, type and annotations, and sets only `description` to `""`. |
| MissingDescriptions.Fill | packages/jira-adapter/src/filters/missing_descriptions.ts:30-36 | Gives a selected instance an empty description and leaves every other element as it is. `FillChangesOnlySelected` states this. |
| MissingDescriptions.OnFetch | packages/jira-adapter/src/filters/missing_descriptions.ts:29-37 | The element list keeps its length and order. Each element is filled when selected and is otherwise the same. |
| MissingDescriptions.ChainSelects | packages/jira-adapter/src/filters/missing_descriptions.ts:30-33 | The chain of three filters selects exactly the relevant-type instances whose description is undefined. |
| MissingDescriptions.FillChangesOnlySelected | packages/jira-adapter/src/filters/missing_descriptions.ts:33-36 | An element changes exactly when it is selected. Then `description` becomes `""` and no other value key changes. |
| MissingDescriptions.AllRelevantDescribed | packages/jira-adapter/src/filters/missing_descriptions.ts:22-36 | After the filter, every instance of `ProjectRole`, `Field` or `FieldConfigurationItem` has a defined description. |
| MissingDescriptions.OnFetchIdempotent | packages/jira-adapter/src/filters/missing_descriptions.ts:33-36 | Running the filter twice equals running it once. |
| RemoveDefinitionInstances.OnFetch | packages/zendesk-adapter/src/filters/remove_definition_instances.ts:27-55 | No definition instance remains. Every other element, non-instances included, is kept, and nothing new appears. |
| RemoveDefinitionInstances.RemovedCount | packages/zendesk-adapter/src/filters/remove_definition_instances.ts:53-55 | The kept elements and the removed ones add up to the input. |
| RemoveDefinitionInstances.OnFetchIdempotent | packages/zendesk-adapter/src/filters/remove_definition_instances.ts:53-55 | Running the filter twice equals running it once. |
| RemoveDefinitionInstances.NothingToRemove | packages/zendesk-adapter/src/filters/remove_definition_instances.ts:53-55 | A list without definition instances is left exactly as it is. |
| RemoveDefinitionInstances.OnFetchConcat | packages/zendesk-adapter/src/filters/remove_definition_instances.ts:53-55 | Filtering two parts of the list filters the whole, keeping relative order. |
| StandardDeployment.WriteBackServiceId | packages/jira-adapter/src/deployment/standard_deployment.ts:64-73 | The change after the response has been seen. `WriteBackSpec` states it. |
| StandardDeployment.DefaultDeployChange | packages/jira-adapter/src/deployment/standard_deployment.ts:55-74 | The deploy call's response is returned. The change is rewritten only for an addition whose object response defines the service-id field, and then that key of the value holds the response's value. |
| StandardDeployment.WriteBackSpec | packages/jira-adapter/src/deployment/standard_deployment.ts:64-73 | The change is untouched unless it is an addition whose object response defines the service-id field, `id` by default. Then only that value key changes, to the response's value. |
| StandardDeployment.WriteBackIdempotent | packages/jira-adapter/src/deployment/standard_deployment.ts:64-73 | Writing the same response back twice equals writing it once. |
| StandardDeployment.FailureMessage | packages/jira-adapter/src/deployment/standard_deployment.ts:90-103 | The rewritten error message. `FailureMessageSpec` states it. |
| StandardDeployment.FailureMessageSpec | packages/jira-adapter/src/deployment/standard_deployment.ts:90-103 | The message starts with `Deployment of <full name> failed: <err>`. It gets `. ` plus the body's messages joined by `, ` exactly when an HTTP error's plain-object body lists some. |
| StandardDeployment.Attempt | packages/jira-adapter/src/deployment/standard_deployment.ts:85-105 | One try of the deploy function: the change as the deploy left it, or the error with its rewritten message. |
| StandardDeployment.DeployChanges | packages/jira-adapter/src/deployment/standard_deployment.ts:80-114 | The attempts in order, partitioned into errors and applied changes. `DeployChangesSpec` states it. |
| StandardDeployment.PartitionSizes | packages/jira-adapter/src/deployment/standard_deployment.ts:109 | The errors and the applied changes together are as many as the attempts. |
| StandardDeployment.PartitionIsReference | packages/jira-adapter/src/deployment/standard_deployment.ts:84-112 | The partition of the attempts equals the reference lists of succeeded changes and failure messages, in input order. |
| StandardDeployment.DeployChangesSpec | packages/jira-adapter/src/deployment/standard_deployment.ts:80-114 | Every change lands in exactly one list. The applied changes are the changes whose deploy succeeded, in order, each as the deploy function left it. There is one error per failure, in order. |
| StandardDeployment.SucceededMembers | packages/jira-adapter/src/deployment/standard_deployment.ts:86-88 | A change is applied exactly when the deploy of some input change returned it. |
| StandardDeployment.FailedMessagesPrefix | packages/jira-adapter/src/deployment/standard_deployment.ts:90 | Every error's message starts with the prefix naming one of the failed changes. |
| StandardDeployment.DefaultDeploy | packages/jira-adapter/src/deployment/standard_deployment.ts:41-75 | The deploy function built on `defaultDeployChange`: an error when the endpoint call throws, otherwise the change with the service id written into it. |
| StandardDeployment.AddedIdReachesResult | packages/jira-adapter/src/deployment/standard_deployment.ts:64-88 | An added instance whose deploy response carries the service id appears among the applied changes. It keeps its id and other values and has the response's service id in its value. |
| DefaultValues.Cleared | packages/jira-adapter/src/filters/fields/default_values.ts:98-102 | A deleted default keeps its keys, the values of `contextId` and `type`, and `null` everywhere else. |
| DefaultValues.Spread | packages/jira-adapter/src/filters/fields/default_values.ts:111 | The entries an object default contributes to the payload literal. |
| DefaultValues.UpdateDefaultValues | packages/jira-adapter/src/filters/fields/default_values.ts:71-116 | The request sent for one context change. `UpdateDefaultValuesSpec`, `NewDefaultSent` and `DeletedDefaultCleared` state it. |
| DefaultValues.UpdateDefaultValuesSpec | packages/jira-adapter/src/filters/fields/default_values.ts:71-116 | Nothing is sent exactly for a removal or an unchanged default. Otherwise one default goes to the owning field's endpoint, with `contextId` set to the context's `id`. |
| DefaultValues.NewDefaultSent | packages/jira-adapter/src/filters/fields/default_values.ts:98-114 | A new object default is sent with its own keys and values, plus `contextId`. |
| DefaultValues.DeletedDefaultCleared | packages/jira-adapter/src/filters/fields/default_values.ts:98-113 | A deleted default is sent with the before-default's keys plus `contextId`. Every key other than `contextId` and `type` is `null`, and `type` is kept. |
| DefaultValues.SetDefaultValueTypeDeploymentAnnotations | packages/jira-adapter/src/filters/fields/default_values.ts:118-133 | A missing `defaultValue` field or a non-object type is an error. Otherwise the deployable fields are exactly the editable names the type declares. |

The helpers `ChangedAtIndex.Insert` and `ChangedAtIndex.GroupInto` (changed_at_index.ts:50-53) carry no contract of their own; `InsertDates`, `InsertIds`, `GroupIntoDates` and `GroupIntoIds` state what they do. The same holds for `StandardDeployment.Prefix` (standard_deployment.ts:90) and `StandardDeployment.BodyMessages` (standard_deployment.ts:92-99), stated through `FailureMessageSpec`, and for `DefaultValues.BeforeDefault` and `DefaultValues.AfterDefault` (default_values.ts:80-82 and 84-86), stated through the request lemmas of `DefaultValues`.

## Left out

- `ElemID` is not part of this model. An id is an adapter, a type name, an id kind and name parts. The full name is the non-empty parts joined by `.`. The index stores full names as strings, so `ElemID.fromFullName` and the store's list order are not modelled.
- `RemoteMap` is not part of this model. The index and the versions store are Dafny maps, and `getMany`, `setAll`, `deleteAll` and `clear` act on them directly. I/O failures are not modelled.
- `getAllElementsChanges` is a parameter: its result is passed in.
- The clear and the version write run concurrently under `Promise.all`. They are modelled one after the other, because they touch different stores.
- Logging and `log.time` are left out, and so is the debug block of the definition-instance filter, which only logs.
- A date key such as `constructor` is not modelled colliding with properties of `Object.prototype`. Every date string is a fresh key.
- JavaScript numbers are integers here.
- `PROJECT_ROLE_TYPE`, `FIELD_TYPE_NAME` and `FIELD_CONFIGURATION_ITEM_TYPE_NAME` are not part of this model. Their values are taken to be `ProjectRole`, `Field` and `FieldConfigurationItem`.
- `OPERATION_TO_ANNOTATION` is not part of this model. Its values are taken to be `_creatable`, `_updatable` and `_deletable`.
- `transformValues` and `getDiffInstance` are not part of this model. The walk runs over an abstract tree, a parameter, of the entries they visit, each with the field definition it is visited with; an entry without a field is dropped, as in strict mode.
- ChangedAtIndex.MergeDateMap: its own contract says only that it keeps read dates. `ChangedAtIndex.MergeOfGetMany` states the full result for the answers of a batched read.
- CheckDeploymentAnnotations.Validate: its own contract covers only the empty batch. `ValidateConcat`, `ErrorsAreTypeErrors`, `WarningIffHit` and `ChangeErrors` state the rest.
- CheckDeploymentAnnotations.WarningIffHit: states which warnings are reported, not their order. The source pushes them from asynchronous callbacks. The model's order is that of a depth-first walk.
- `resolveChangeElement`, `flattenAdditionalProperties`, `deployment.deployChange` and the API definitions are not part of this model. The deploy call is an oracle, and the configured service-id field is a parameter.
- The deploy function of one change mutates the change object it is given, and `deployChanges` returns that same object. The model has the deploy function return the change as it left it.
- `StandardDeployment.DefaultDeploy` returns a change that is not of an instance unchanged. The adapter deploys only instance changes through `defaultDeployChange`.
- `resolveDefaultOption`, `getParents` and `client.put` are not part of this model. The default-value decision takes an already resolved change and the owning field's id, and returns the request instead of sending it.
- `compareSpecialValues` is not part of this model. Defaults are compared structurally.
- A default that is an array or a string is taken to contribute no keys to the request. In JavaScript, spreading it or `_.mapValues` over it would yield its indices.
- `setFieldDeploymentAnnotations` is not part of this model. The selection returns the names of the fields to annotate.
- The `defaultValue` field may be missing. The source then fails with a type error while building its message, and the model returns a distinct error value for that case.
- `safeJsonStringify` is a parameter.
- `${err}` is the thrown error's rendering, given with the failure.
- Thrown values are taken to be `Error` objects.
- A response that is neither an array nor a plain object carries no service id.
- `ChangedAtIndex.ApplyModification` follows the code, which compares only the element's own `_changed_at`. A modification that changes only field dates leaves the index as it was (`ChangedAtProperties.UnchangedTopDateKeepsIndex`). The index then differs from a rebuild (`ChangedAtProperties.FieldDateMoveLeavesIndexStale`).
- The incremental index is proved equal to a rebuild for batches of additions (`ChangedAtProperties.AdditionsMatchRebuild`). For removals, and for modifications that change the top-level date, the proof also needs that no other element contributes the removed ids under the same dates. A date's set holds each full name once, so a shared id would be lost.
- The model assumes that two changed-at values that are arrays or objects are never strictly equal. That holds when the before and after elements do not share the object. A change with the same element object before and after breaks the assumption. The source's strict comparison then makes the update a no-op. The model instead removes the element's ids and re-adds them under its dates. That matches the source only when the index already records those ids under those dates. Otherwise the model adds ids, and possibly dates, that the source leaves out. Object identity is not modelled.
