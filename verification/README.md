# Verified model of litellm-operator

litellm-operator keeps two stores in step: Kubernetes custom resources (spec, annotations,
status, finalizer) and LiteLLM's own database. Its hard parts are protocols made of
separate writes, each of which may fail on its own. This project models those protocols,
and the algorithms around them, in Dafny, and proves what they promise for every run,
every list and every input.

Two forms are used. Code that works by changing things step by step is a class or a method
with loops, proved against a specification function; the promises are then lemmas about
that function. Where several writers race on one CR, the code is a step system: a thread
per pass, one step per LiteLLM call or Kubernetes write, any step failing or taking effect
and reporting an error, any read returning an older version, and a crash being a thread that
is never stepped again. Beside what every run keeps, lemmas say what a pass that nothing
disturbs comes to, in the fields of the CR.

| file | what it covers |
|---|---|
| Versioned, ByteStrings, Sequences | compare-and-swap objects with stale reads; byte strings; lists |
| Adoption, AdoptionPasses, AdoptionUpdates | adopting, creating, updating and deleting teams and users |
| VirtualKeys | minting and rotating keys between Secret and status |
| ModelAuth, ModelPasses | auth-mode switches of models under a merging update, and what each pass comes to |
| InstanceAccess | which resources may reference an instance |
| ConfigSync, Syncer, SyncProperties | one config sync cycle: its meaning, its code, its promises |
| Convergence | a sync pass followed by a reconcile |
| TeamMembers, MembershipProperties | team membership in three ownership modes |
| PodRefs, PodConsumption, Framing, Rollout, HiddenRotations | what a pod consumes, the rollout digest of it, and what it cannot tell |
| PasswordDigest, InitialPassword, InitialPasses | the PHC digest, and applying an initial password once |
| EnvReferences, EnvClosure | config references against the container environment |
| Redaction | removing a secret from error messages |

SHA-256 is a parameter assumed injective and Argon2 a parameter with 32-byte results; the
spec hash stands for what it is computed from. LiteLLM is a map from ids to records: create
refuses a taken id, update merges the fields it is sent, delete removes.

Where the code does less than its comments say, the model follows the code:

- `hashWriter` is said to let no combination of names, keys and values be reassembled
  (secret_rollout.go:66-68). The number of keys is not written, so it can:
  `HiddenRotations.TwoWholeRefsHide`. `Rollout.HiddenRotationExactly` says exactly when.
- The digest shows a missing key as a marker, so a value equal to the marker passes for a
  missing key: `Rollout.MarkerValueIsHidden`; `Rollout.HiddenRotationExactly` covers it too.
- `redact` is said to remove every occurrence (users.go:109). A secret that can be read off
  the marker comes back: `Redaction.RedactionIsCompleteExactly` says which.
- crd-wins is said to make the controller push the CR's state again. A team alias that is
  empty in the spec is not sent by an update, so that drift stays for any number of passes:
  `Convergence.EmptyAliasNeverConverges`. The update of a key never carries the alias:
  `Convergence.KeyConverges`.
- A user's update goes to spec.userId and not to the bound user, so after an edit of that
  field it changes a user the CR neither created nor adopted:
  `AdoptionUpdates.EditedIdUpdatesAnotherUser`.
- A rotation that re-uses the Secret's name and dies before its status write leaves a Secret
  and a token that do not belong together: `VirtualKeys.RotationCanOutrunTheStatus`.
- A mode switch between the two writes of a sync record is not seen as one:
  `ModelAuth.SwitchCanSucceedOnADirtyRecord`. It is seen if the auth-mode annotation names
  the old mode when the switch is made: `ModelAuth.RecordedSwitchesAreComplete`.
- A removal that failed in mixed mode is forgotten with the status write of its pass. Only a
  pass that reads a version from before that write asks again, or one that follows a write
  that did not land: `MembershipProperties.FailedRemovalIsForgotten`,
  `MembershipProperties.StaleReadAsksAgain`.
- The initial password is said to be sent only when it differs from the one last applied
  (litellmuser_controller.go:239-243). It is sent whenever it differs from the digest the
  pass read, so an unrecorded or stale digest has it sent again:
  `InitialPassword.UnrecordedIsSentAgain`, `InitialPassword.StaleReadSendsAgain`.
- Config sync clears the id of a user that vanished and keeps the password digest, so the
  user made in its place does not get the password:
  `InitialPassword.RecreatedUserGetsPasswordExactly`.
- An adopted mark outlives the adopted object, so what the operator creates in its place is
  not deleted with the CR: `Adoption.MadeIsDeletedExactlyUnmarked`.

## Model

| member | source | states |
|---|---|---|
| `Adoption.AdoptedObjectsAreNeverDeleted` | internal/controller/litellmteam_controller.go:116-270 | In every run of team or user reconciles and config sync passes on one CR, with failing and half-failing calls, stale reads and crashes: a persisted version bound to an object no create call of this CR returned carries the adopted mark, its id was named by a spec and found to exist; and the finalizer asks LiteLLM to delete only objects that create calls returned |
| `Adoption.RunKeepsInv` | internal/controller/litellmuser_controller.go:163-222 | The inductive invariant behind it, kept by every step of both controllers and of config sync |
| `Adoption.ExistingTeamIsAdopted` | internal/controller/litellmteam_controller.go:130-177 | The other direction: an unbound CR whose spec.teamId exists ends bound to that team and marked, with LiteLLM unchanged |
| `Adoption.FinalizerDeletesExactlyUnmarked` | internal/controller/litellmteam_controller.go:479-502 | An undisturbed finalizer pass deletes the object exactly when the CR is bound and not marked, and removes the finalizer either way |
| `Adoption.MarkIsForGood` | internal/controller/litellmteam_controller.go:479-502 | In every run from a CR marked before its deletion was asked for, the mark stays and the finalizer deletes nothing, whatever is created, vanishes or is edited |
| `Adoption.MadeIsDeletedExactlyUnmarked` | internal/controller/configsync_syncer.go:611-653 | An object the operator creates for an unbound CR, under the id of the spec or one LiteLLM picks, is deleted by the finalizer pass if and only if the CR does not carry the mark of an earlier adoption |
| `Adoption.EmailConflictNeverAdopts` | internal/controller/litellmuser_controller.go:402-423 | A 409 that only the email caused leads to no adoption and changes nothing |
| `AdoptionPasses.ExistingUserIsAdopted` | internal/controller/litellmuser_controller.go:163-222 | The other direction for users: an unbound CR whose spec.userId exists ends bound to that user, marked and with its hash recorded; the user has the spec's email if it is set, and nothing was created |
| `AdoptionPasses.ConflictAdoptsExactly` | internal/controller/litellmuser_controller.go:397-423 | A 409 adopts if and only if the user of that id exists; otherwise the CR stays unbound and LiteLLM as it was |
| `AdoptionPasses.ExistingTeamIsAdopted` | internal/controller/litellmteam_controller.go:130-216 | The whole pass for teams: bound, marked, recorded, and the team has the spec's alias unless the hash was current or the alias is empty |
| `AdoptionPasses.NewObjectIsMade` | internal/controller/litellmteam_controller.go:130-177 | An unbound team or user CR whose object can be made gets it made under the id of the spec, or one LiteLLM picks, is bound to it and recorded, and not marked |
| `AdoptionPasses.BoundObjectIsPushed` | internal/controller/litellmteam_controller.go:178-216 | A bound CR with a current hash changes nothing; otherwise the object named by the update gets the spec's title and the hash is recorded, or nothing changes if there is none |
| `AdoptionPasses.FailedCallChangesNothing` | internal/controller/litellmuser_controller.go:132-222 | A failed call ends the pass, with CR and LiteLLM as they were |
| `AdoptionPasses.VanishedIsUnbound` | internal/controller/configsync_syncer.go:611-653 | Config sync unbinds a CR whose object vanished and drops its hash; the mark stays |
| `AdoptionPasses.DriftDropsTheHash` | internal/controller/configsync_syncer.go:577-605 | Config sync drops the hash of a CR that drifted and nothing else |
| `AdoptionUpdates.TeamUpdatesAreOwn` | internal/controller/litellmteam_controller.go:178-216 | In every run, each update call of a team CR names an object its create calls returned or its GET calls found |
| `AdoptionUpdates.UserUpdatesAreOwn` | internal/controller/litellmuser_controller.go:144-222 | The same for user CRs whose spec.userId is set, in every run that never edits it |
| `AdoptionUpdates.EditedUserUpdatesExactly` | internal/controller/litellmuser_controller.go:203-222 | After an edit of a bound user CR, an undisturbed pass updates exactly the user the new spec.userId names, so the bound one if and only if the id is still the bound one |
| `AdoptionUpdates.EditedIdUpdatesAnotherUser` | internal/controller/litellmuser_controller.go:203-222 | For every new user CR and every spec with another id, a run without failures that updates a user the CR neither created nor found |
| `VirtualKeys.SecretHoldsTheRecordedKey` | internal/controller/litellmvirtualkey_controller.go:127-280 | In every run of mints, rotations, Secret deletions, config sync token clearing and spec edits: whenever no status write is due, and none was lost after overwriting the Secret of a token still recorded without a later mint being recorded, a recorded token with an existing pinned Secret means that Secret holds the key minted with that token |
| `VirtualKeys.HealthyKeyIsLeftAlone` | internal/controller/litellmvirtualkey_controller.go:145-166 | Once a pass has read a version with a token whose pinned Secret exists: in every run with any failures, spec edits and dropped hashes, short of another pass, a deletion of that Secret or a cleared token, no key is minted, and token, pin and Secret stay |
| `VirtualKeys.HealthyKeyIsUpdated` | internal/controller/litellmvirtualkey_controller.go:221-272 | An undisturbed pass over such a key records the hash of the spec and changes nothing else |
| `VirtualKeys.KeyWithoutSecretIsRotated` | internal/controller/litellmvirtualkey_controller.go:148-220 | An undisturbed pass over a key whose pinned Secret is gone ends with the fresh token recorded, and its key in the Secret the spec names, or else one named after the CR |
| `VirtualKeys.UnmintedKeyIsMinted` | internal/controller/litellmvirtualkey_controller.go:168-220 | One over a key without a token mints into the Secret still pinned, or else named as above |
| `VirtualKeys.SyncClearsExactly` | internal/controller/configsync_syncer.go:407-415 | Config sync takes the token and the hash of a vanished key and keeps its Secret pinned; of a drifted one just the hash |
| `VirtualKeys.LostWriteBreaksExactlyReusedSecrets` | internal/controller/litellmvirtualkey_controller.go:148-220 | A status write lost after a mint breaks that agreement if and only if the status still names a token whose pinned Secret is the one just overwritten |
| `VirtualKeys.RotationCanOutrunTheStatus` | internal/controller/litellmvirtualkey_controller.go:160-220 | A run that reaches such a state |
| `VirtualKeys.RunKeepsInv` | internal/controller/litellmvirtualkey_controller.go:333-406 | The inductive invariant: every recorded token was issued and is pinned to a Secret, and only a mint in flight can be out of step |
| `ModelAuth.SuccessLeavesACleanRecord` | internal/controller/litellmmodel_controller.go:249-303 | In every run whose mode switches find the sync record complete, with any failed calls, overlapping passes and stale reads: the record of a successful pass has received pushes of that pass's mode only, since it was created, so it names a credential exactly in credential mode |
| `ModelAuth.PureRecord` | internal/controller/litellmmodel_controller.go:175-203 | Merging pushes of one mode gives a record of that mode |
| `ModelAuth.RecordKeepsLastSet` | internal/controller/litellmmodel_controller.go:175-203 | After any pushes each field of a record is the last one sent that was not empty, so no push clears one |
| `ModelAuth.RecordedSwitchesAreComplete` | internal/controller/litellmmodel_controller.go:249-303 | The condition as a user can see it: if every switch finds no model or the annotation naming the old mode, the sync record is complete at every switch, so the promise holds |
| `ModelAuth.IncompleteSwitchLeavesADirtyRecord` | internal/controller/litellmmodel_controller.go:420-435 | The condition is exact: with an incomplete sync record, every switch of mode followed by an undisturbed pass succeeds on a record of the other mode |
| `ModelAuth.SwitchCanSucceedOnADirtyRecord` | internal/controller/litellmmodel_controller.go:420-435 | For every new CR, all provider fields and every switch of mode: a run, with one failed write, whose last pass succeeds on a record of the other mode |
| `ModelAuth.FirstPassCanEndHalfway` | internal/controller/litellmmodel_controller.go:420-435 | For every new CR, a run that reaches an incomplete record of a live model |
| `ModelAuth.HalfARecordIsIncomplete` | internal/controller/litellmmodel_controller.go:420-435 | After the first of the two writes of a sync record, and before the second, the record is incomplete |
| `ModelAuth.RunKeepsInv` | internal/controller/litellmmodel_controller.go:132-303 | The inductive invariant over every step |
| `ModelPasses.UnboundModelIsCreated` | internal/controller/litellmmodel_controller.go:249-262 | An undisturbed pass over a CR without a model creates one with its fields, and records id, hash and mode |
| `ModelPasses.CurrentModelIsLeftAlone` | internal/controller/litellmmodel_controller.go:263-265 | One over a model recorded with this spec, these fields and this mode changes nothing |
| `ModelPasses.SwitchedModelIsRecreated` | internal/controller/litellmmodel_controller.go:267-290 | One over a model recorded with the other mode deletes it and creates another, whose record has had one push; if it is gone the pass fails and nothing changes |
| `ModelPasses.ChangedModelIsUpdated` | internal/controller/litellmmodel_controller.go:292-303 | Any other is updated under its id and recorded, or the pass fails and nothing changes |
| `ModelPasses.FailedRecreateUnbinds` | internal/controller/litellmmodel_controller.go:275-282 | A create that fails after the delete leaves the CR unbound, so that the next pass creates |
| `ModelPasses.FailedCallChangesNothing` | internal/controller/litellmmodel_controller.go:249-303 | A failed create, delete or update ends the pass with CR and LiteLLM as they were |
| `ModelPasses.SyncClearsExactly` | internal/controller/configsync_syncer.go:577-653 | Config sync drops the hash of a drifted model, and the id as well of a vanished one; the auth mode stays |
| `Syncer.ConfigSyncer.ScopeFor` | internal/controller/configsync_syncer.go:91-117 | The scope of a CR is that of the remembered namespace answer; each namespace is looked up at most once, every remembered answer is what that very lookup gave, and a failed one grants |
| `Syncer.ConfigSyncer.CollectClaims` | internal/controller/configsync_syncer.go:145-161 | The loop over the CRs gives exactly the managed ids, each with the last CR that claims it, and the protected ids; every managed id has a CR of its own |
| `Syncer.ConfigSyncer.WalkApi` | internal/controller/configsync_syncer.go:170-185 | The loop over LiteLLM's list: counters, prunes and writes as the specification counts them, the ids seen, and the CRs in memory and in the cluster, which agree if no write failed |
| `Syncer.ConfigSyncer.RecreateVanished` | internal/controller/configsync_syncer.go:187-193 | The loop over managed ids that were not listed, in any order: just their CRs are unbound, all of them if no write fails |
| `Syncer.ConfigSyncer.HandleDrift` | internal/controller/configsync_syncer.go:577-605 | One drift is counted; under crd-wins the sync hash goes, in the cluster only if the write lands |
| `Syncer.ConfigSyncer.HandleDeletedFromAPI` | internal/controller/configsync_syncer.go:611-653 | One drift is counted; under crd-wins the status goes and then the hash, and a write that fails leaves the CR as listed or half unbound |
| `Syncer.ConfigSyncer.HandleUnmanaged` | internal/controller/configsync_syncer.go:656-682 | One unmanaged entry is counted, and under prune one delete is tried, which is counted exactly when it went through and reported otherwise |
| `Syncer.ConfigSyncer.SyncKind` | internal/controller/configsync_syncer.go:210-270 | A pass over one kind: its tally, what becomes of every listed CR, and on a failed list one error and nothing else |
| `Syncer.ConfigSyncer.Sync` | internal/controller/configsync_syncer.go:120-129 | A cycle over six kinds sharing one memo and one result amounts to the six passes under the final memo, and reports one error per failed write or delete |
| `ConfigSync.ClaimsStand` | internal/controller/configsync_syncer.go:91-117 | Namespace answers a later kind adds never change what an earlier kind's CRs claimed |
| `ConfigSync.LoopsSettle` | internal/controller/configsync_syncer.go:577-653 | After both loops a CR has changed only if it drifted or vanished, only under crd-wins, and to the remediated or recreated CR if no call failed |
| `ConfigSync.RemediesKeepTheRest` | internal/controller/configsync_syncer.go:577-653 | The remedies take the sync hash and no other annotation, and for a vanished object id and sync flag, and leave everything else |
| `SyncProperties.SyncAccounting` | internal/controller/configsync_syncer.go:120-194 | Per kind, listed entries = synced + unmanaged + protected-only; over the cycle, drift = drifted entries + missing objects, and under prune, prunes done or failed = unmanaged |
| `SyncProperties.EntriesAreAccountedFor` | internal/controller/configsync_syncer.go:170-185 | Every entry is exactly one of claimed, protected only, and unclaimed |
| `SyncProperties.PruneIsExact` | internal/controller/configsync_syncer.go:656-682 | Whatever the lookups answered, LiteLLM is asked to delete an object once per listed entry if the policy is prune, its kind is one of the six and could be listed, and no live, referencing CR of a granted namespace stands for it by its status, or, a customer, by spec.customerId once synced, its kind admitted or not; and never else |
| `SyncProperties.StablePrune` | internal/controller/configsync_syncer.go:91-117 | The same with granted namespaces read off spec.allowedNamespaces, when a namespace's lookups come out alike: a failed lookup prunes nothing |
| `SyncProperties.UnclaimedExactly` | internal/controller/configsync_syncer.go:496-560 | An id is unclaimed exactly when no CR keeps it, in the fields of the CRs: live, referencing, granted, and standing for the id; an unbound CR keeps the empty id only if its kind is not admitted |
| `SyncProperties.ManagedExactly` | internal/controller/configsync_syncer.go:145-161 | An id is managed exactly when some such CR of an admitted kind claims it, and by the last one that does |
| `SyncProperties.DriftIsDifference` | internal/controller/configsync_syncer.go:418-420 | Drift is reported exactly when putting the fields of the spec into LiteLLM's record would change it, the block flag of a customer counting only if set |
| `SyncProperties.StableAnswers` | internal/controller/configsync_syncer.go:91-117 | With stable lookups the remembered answer is the uncached one, and a failed lookup grants |
| `SyncProperties.ScopeAgreement` | internal/controller/common.go:256-350 | A CR is managed exactly when its controller's reference check admits it; when the lookup fails, the controller errs and the CR stays in scope |
| `SyncProperties.AdmittedExactly` | internal/controller/common.go:256-350 | Whom a controller admits, in the fields of the instance: its own namespace; from an open one, whose selection could be made, an open kind; then readiness and the master key; clean-up asks for those alone |
| `SyncProperties.GrantsExactly` | internal/controller/common.go:305-341 | Which namespaces config sync counts as granted: the instance's own, all, or those a selector does not rule out |
| `SyncProperties.ForeignModelsAreNeverManaged` | api/v1alpha1/litellminstance_types.go:350-363 | Models of another namespace are never managed as long as only listable kinds are listed |
| `Convergence.Cluster.ReconcileModel` | internal/controller/litellmmodel_controller.go:249-303 | The four-way switch fails, changing nothing, exactly when the CR is bound to an object that is gone and is not known to be current; a push leaves the CR bound to an object that agrees with its spec and known to be current, gives a bound CR a new object only on a switch of mode and then removes the old one, and touches no other object |
| `Convergence.Cluster.ReconcileTeam` | internal/controller/litellmteam_controller.go:130-216 | It fails, changing nothing, exactly when the bound team is gone and the hash not current; otherwise the CR is bound to its team, or the one the spec names, or a new one, is marked exactly if it adopted one, and has the hash; the team has the alias if it was created or not current and the alias is set; no other team and no other annotation is touched |
| `Convergence.Cluster.ReconcileKey` | internal/controller/litellmvirtualkey_controller.go:127-280 | It fails, changing nothing, exactly when a bound key with its Secret is gone and the hash not current; without a token or Secret there is a new key with the alias and the old one is gone, otherwise no key is touched; the hash is recorded |
| `Convergence.ModelConverges` | internal/controller/litellmmodel_controller.go:249-303 | After a crd-wins pass whose CR writes land, with the deletes that pass asks for done or failed, and one failure-free reconcile, the next pass reports no drift for a managed model and writes nothing for it, whether it had drifted, vanished or neither |
| `Convergence.TeamConverges` | internal/controller/litellmteam_controller.go:130-216 | For a managed team the same holds if and only if the reconcile need not clear an alias, so for every team with one |
| `Convergence.EmptyAliasNeverConverges` | internal/controller/litellmteam_controller.go:180-205 | A team with an empty alias that was renamed upstream: in every chain of passes and reconciles, of any length, each pass reports the drift and each reconcile leaves the object as it is |
| `Convergence.KeyConverges` | internal/controller/litellmvirtualkey_controller.go:145-280 | For a managed key the next pass has nothing to do if and only if the key had vanished, its Secret is gone, or its alias was not changed upstream |
| `Convergence.InStepExactly` | internal/controller/configsync_syncer.go:135-194 | A pass has nothing to do about a bound CR exactly when its object exists and agrees with its spec |
| `TeamMembers.ReconcileMembers` | internal/controller/litellmteam_controller.go:272-364 | All three modes, the default and the unknown one, with any calls failing: the calls made, LiteLLM's members and the status are those of the specification |
| `MembershipProperties.CallsByMode` | internal/controller/litellmteam_controller.go:278-359 | By the value of spec.memberManagement, whatever fails: unset and mixed ask to remove the status's CRD members outside the spec, crd everyone outside it, sso makes no call; all but sso ask to add the missing spec members |
| `MembershipProperties.StatusByMode` | internal/controller/litellmteam_controller.go:504-550 | Who is reported as a CRD member, with the role of the spec or user, and who as an SSO member, with LiteLLM's role, in each mode |
| `MembershipProperties.PassReachesGoal` | internal/controller/litellmteam_controller.go:294-359 | A pass without failures leaves exactly the members it is not to remove, roles included, followed by the missing spec members |
| `MembershipProperties.GoalEmails` | internal/controller/litellmteam_controller.go:294-359 | So the emails are those of the spec in crd mode, and in mixed mode those there were less the former CRD members plus the spec's |
| `MembershipProperties.SecondPassIsIdle` | internal/controller/litellmteam_controller.go:504-550 | A second pass makes no call and reports as many members as LiteLLM has |
| `MembershipProperties.OnlyListedAreRemoved` | internal/controller/litellmteam_controller.go:323-359 | In every run in which spec.memberManagement is never crd, with any edits, stale reads, failed calls and lost status writes, only members the spec has listed are ever asked to be removed |
| `MembershipProperties.SurvivesExactly` | internal/controller/litellmteam_controller.go:340-348 | Whatever calls fail, a member outside the spec survives a mixed pass if and only if every call to remove it fails |
| `MembershipProperties.AsksExactly` | internal/controller/litellmteam_controller.go:323-359 | Whatever calls fail, a pass asks to remove exactly the members its mode names, outside the spec: in crd mode all of them, in mixed mode those the status names as CRD members, in sso mode none |
| `MembershipProperties.FailedRemovalIsForgotten` | internal/controller/litellmteam_controller.go:340-348 | A former CRD member whose removals failed is still there, and once no older version is read any more, no version names it if and only if the status write of the pass landed |
| `MembershipProperties.ForgottenForGood` | internal/controller/litellmteam_controller.go:323-359 | From then on no run in mixed or sso mode whose specs do not list the member asks to remove it |
| `MembershipProperties.StaleReadAsksAgain` | internal/controller/litellmteam_controller.go:323-359 | A pass over a version that still names the member does ask again |
| `PodRefs.Collector.Collect` | internal/controller/secret_rollout.go:96-155 | Through aliased dataRefs and nested loops over containers, init containers and volumes, exactly the consumed objects and keys are recorded, and no entry is empty |
| `PodRefs.Collector.Ref` | internal/controller/secret_rollout.go:52-64 | The same dataRef for the same name, a new one for a new name, none for the empty name |
| `PodRefs.ExactIsUnique` | internal/controller/configmap_rollout.go:33-92 | What a pod consumes determines the recorded map |
| `PodRefs.CollectionIsOrderFree` | internal/controller/secret_rollout.go:96-155 | Reordering containers, env entries, volumes, projections or items leaves the recorded map as it was |
| `PodConsumption.SecretTouchesExactly` | internal/controller/secret_rollout.go:96-155 | A key is recorded exactly if some container or init container reads it into its environment, or a volume or projection lists it as an item; a whole Secret exactly if an envFrom takes it or a source without items mounts it; none without a name |
| `PodConsumption.ConfigMapTouchesExactly` | internal/controller/configmap_rollout.go:33-92 | The same for ConfigMaps |
| `PodConsumption.SecretRotationRollsThePod` | internal/controller/secret_rollout.go:157-219 | If a Secret value the pod spec consumes changes, comes or goes, between states as in RotationIsVisible, the digest changes |
| `PodConsumption.ConfigMapChangeRollsThePod` | internal/controller/configmap_rollout.go:94-162 | The same for ConfigMap values |
| `Framing.UnframeFrames` | internal/controller/secret_rollout.go:77-84 | The 8-byte big-endian framing is uniquely decodable |
| `Framing.EightBytes` | internal/controller/secret_rollout.go:77-84 | The length field is the eight bytes of the length, most significant first |
| `Framing.HashWriter.Write` | internal/controller/secret_rollout.go:77-84 | The hash input is the framing of the fields written |
| `Framing.IncreasingIsUnique` | internal/controller/secret_rollout.go:181-206 | Sorting a key set has one result |
| `Rollout.PodTemplateHash` | internal/controller/secret_rollout.go:173-219 | The digest is that of what the pod consumes: empty without references, an error on the first unreadable object, else the hash of the framed fields in sorted order |
| `Rollout.DigestIsOrderFree` | internal/controller/secret_rollout.go:181-216 | Pod specs that differ only in the order of containers, env entries, volumes, projections or items have one digest |
| `Rollout.RotationIsVisible` | internal/controller/configmap_rollout.go:114-162 | For a fixed pod spec, NUL-free names and keys and no value equal to the missing marker, and whole-referenced objects that keep their keys or have none named like a consumed object: two states have one digest if and only if every consumed key has the same value, missing or absent status in both |
| `Rollout.DigestTellsWhatIsShown` | internal/controller/secret_rollout.go:181-216 | The same without the condition on values: two states have one digest if and only if every consumed key shows the same, a missing key showing the marker |
| `Rollout.HiddenRotationExactly` | internal/controller/secret_rollout.go:66-88 | Without the conditions on keys and values, two states with one digest look the same to the pod if and only if no whole-referenced object changed its key set and no key is missing in one state and holds the marker in the other |
| `Rollout.MovedKeyIsHidden` | internal/controller/secret_rollout.go:181-216 | For every pod spec with two whole references next to each other in the order, two states the digest cannot tell apart |
| `HiddenRotations.TwoWholeRefsHide` | internal/controller/secret_rollout.go:66-88 | For every pod spec that consumes two objects as a whole, wherever they stand in the order and whatever else is consumed, two states with NUL-free keys and no marker values that the pod can tell apart and the digest cannot |
| `HiddenRotations.KeyRefsHideNothing` | internal/controller/secret_rollout.go:181-216 | For a pod spec that consumes none as a whole, two such states have one digest if and only if the pod sees the same in both |
| `Rollout.MarkerValueIsHidden` | internal/controller/secret_rollout.go:208-215 | A value equal to the marker is hashed like a missing key |
| `PasswordDigest.ParseDigest` | internal/controller/litellmuser_controller.go:349-395 | Parsing a printed digest gives back version, parameters, salt and key |
| `PasswordDigest.DigestMatchesExactly` | internal/controller/litellmuser_controller.go:366-395 | A digest matches a password if and only if it derives the same key |
| `PasswordDigest.DigestFormat` | internal/controller/litellmuser_controller.go:355-358 | A printed digest names scheme, version and parameters as the constants have them |
| `PasswordDigest.ForeignDigestNeverMatches` | internal/controller/litellmuser_controller.go:366-395 | A digest of another scheme, version, parameters, shape or key length matches no password |
| `PasswordDigest.VersionReadsBack` | internal/controller/litellmuser_controller.go:374-377 | The version is read off its decimal number |
| `PasswordDigest.DecodeEncode` | internal/controller/litellmuser_controller.go:355-358 | Unpadded base64 (section 4 of RFC 4648) round-trips for all byte strings |
| `PasswordDigest.AlphabetExactly` | internal/controller/litellmuser_controller.go:355-358 | The alphabet is that of section 4 of RFC 4648 |
| `PasswordDigest.DigitsExactly` | internal/controller/litellmuser_controller.go:355-358 | The digits of three bytes are their bits, most significant first, and those of one or two are filled up with zeros |
| `PasswordDigest.SplitJoin` | internal/controller/litellmuser_controller.go:370-373 | Splitting on the separator undoes joining |
| `PasswordDigest.DigestIsInjective` | internal/controller/litellmuser_controller.go:355-358 | Equal digests have equal salts and keys |
| `InitialPassword.AppliedOnce` | internal/controller/litellmuser_controller.go:251-333 | In every run in which each pass reads the latest version, or one whose digest matches whatever the persisted one does, and none ends with an accepted password that the persisted digest does not match: a password is accepted again only after another one was, or after the field was unset |
| `InitialPassword.OncePerStretch` | internal/controller/litellmuser_controller.go:251-333 | Under the same condition, a stretch with the field set and the Secret value unchanged holds at most one acceptance of that value, however many passes and failures, and from whatever pass is in flight: of other values at most the one that pass had in hand |
| `InitialPassword.SentExactlyWhenUnmatched` | internal/controller/litellmuser_controller.go:289-308 | For every version of the CR a read can return, a pass without failures sends the password if and only if the digest it read does not match it |
| `InitialPassword.ReadRepeatsExactly` | internal/controller/litellmuser_controller.go:289-308 | The condition on reads is exact: in every state such a run reaches, a pass repeats the password applied last if and only if the digest it read does not match it, which the condition rules out |
| `InitialPassword.LossRepeatsExactly` | internal/controller/litellmuser_controller.go:310-333 | So is the one on endings: after a pass that had a password accepted records it, ends or dies, the next undisturbed pass repeats it if and only if that step left it with a persisted digest that does not match |
| `InitialPassword.UnrecordedIsSentAgain` | internal/controller/litellmuser_controller.go:289-333 | For every new user, a run in which a pass dies between the acceptance and the record, and the next one sends the password again |
| `InitialPassword.StaleReadSendsAgain` | internal/controller/litellmuser_controller.go:289-333 | For every new user, a run in which the digest is recorded and a pass that reads the version before sends the password again |
| `InitialPasses.AcceptedIsRecorded` | internal/controller/litellmuser_controller.go:310-333 | A pass that had the password accepted leaves a persisted digest that matches it, by the patch or by the write that ends the pass |
| `InitialPasses.UnsetFieldForgets` | internal/controller/litellmuser_controller.go:257-263 | A pass over the latest version without the field forgets the digest |
| `InitialPasses.NothingToSend` | internal/controller/litellmuser_controller.go:275-287 | Without the Secret or with an empty value nothing is sent, and the digest stays |
| `InitialPassword.MatchedDigestSendsNothing` | internal/controller/litellmuser_controller.go:239-243 | While the digest of the Secret's value is recorded and neither field nor Secret is edited, no run whose reads meet that condition touches the user's password: one changed in the Admin UI is kept |
| `InitialPassword.RecreatedUserGetsPasswordExactly` | internal/controller/configsync_syncer.go:334-337 | A user made again after it vanished gets the password from an undisturbed pass if and only if the kept digest does not match it |
| `InitialPassword.ArgonIsFaithful` | internal/controller/litellmuser_controller.go:349-395 | What these results need of the digest holds of the PHC digest: it matches the password it was made from, and an empty one matches none |
| `EnvReferences.GuardrailEnvVars` | internal/resources/deployment.go:780-814 | The loops give the first entry of every name the bound guardrails ask for |
| `EnvReferences.PassThroughEnvVars` | internal/resources/deployment.go:816-833 | One entry per header secret, in order |
| `EnvReferences.MergeEnvVars` | internal/resources/deployment.go:613-639 | Operator entries in place, replaced by the last user entry of their name, then the first user entry of every other name |
| `EnvReferences.BuildGuardrailsList` | internal/resources/configmap.go:630-697 | One entry per bound guardrail; the user's params never replace those the operator sets, and those of the generic guardrail API are nested, with its streaming settings at the top as well |
| `EnvClosure.ParamsExactly` | internal/resources/configmap.go:630-697 | Name by name, the params of a rendered guardrail: what the operator sets from each field, or else what the user's params come to |
| `EnvClosure.BoundExactly` | internal/resources/configmap.go:636-638 | Only guardrails whose instanceRef names the instance are rendered and asked for, and all of them |
| `EnvReferences.BuildHeaders` | internal/resources/configmap.go:911-925 | Static headers overlaid by those from secrets |
| `EnvClosure.LastSecretWins` | internal/resources/configmap.go:910-925 | The last secret for a header makes it the reference of that path and header, with its prefix |
| `EnvClosure.StaticHeaderStays` | internal/resources/configmap.go:910-925 | A header no secret is for is the static one |
| `EnvClosure.BuildEnv` | internal/resources/deployment.go:143-145 | The three put together |
| `EnvClosure.GuardrailReferencesAreMet` | internal/resources/configmap.go:630-697 | Every api_key reference of a rendered guardrail names an entry of the final environment, whatever collides or is overridden, and user params cannot replace it |
| `EnvClosure.HeaderReferencesAreMet` | internal/resources/configmap.go:880-942 | Every reference of a rendered pass-through header does too |
| `EnvClosure.HeaderNameResolves` | internal/resources/deployment.go:816-833 | What the container sees under the name of a header: the user's last entry, or else the first guardrail entry for it, or else the operator's later entry, or else the header secrets' |
| `EnvClosure.HeaderIsOwnUnlessAskedLater` | internal/resources/deployment.go:816-833 | Without anything else of that name, a header's reference resolves to its own secret if no later secret asks for the same name, and to the last one that does otherwise |
| `EnvClosure.HeaderVariablesCollideExactly` | internal/resources/configmap.go:935-942 | Two headers share a variable if and only if path and header, joined by an underscore, have one length and differ only in case and in which other characters they have where, so wherever the path ends |
| `EnvClosure.MergedNames` | internal/resources/deployment.go:613-639 | Merging loses no name and adds only the user's |
| `EnvClosure.MergedExactly` | internal/resources/deployment.go:613-639 | What the container sees of merged lists: under a name of the operator's what the user last set, or else the operator; under any other what the user first set |
| `EnvClosure.GuardrailNameResolves` | internal/resources/deployment.go:780-814 | What the container sees under such a name: the user's last entry, or else the first guardrail entry for it |
| `EnvClosure.KeyIsOwnUnlessAskedBefore` | internal/resources/configmap.go:604-607 | A guardrail's reference resolves to its own key unless an earlier guardrail asked for the same name |
| `EnvClosure.VariablesCollideExactly` | internal/resources/configmap.go:604-607 | Two guardrails share a variable if and only if their names have one length and differ only in case and in which other characters they have where |
| `Redaction.RedactionIsCompleteExactly` | internal/litellm/users.go:109-121 | For every non-empty secret: no message keeps the secret or its escaped form if and only if the secret cannot be read off the marker and its surroundings |
| `Redaction.RedactionIsComplete` | internal/litellm/users.go:109-121 | For every message and every secret that does not overlap the marker, neither the secret nor its escaped form is left |
| `Redaction.OnlyOddSecretsOverlap` | internal/litellm/users.go:109-121 | A secret that overlaps the marker has a square bracket or is part of REDACTED |
| `Redaction.LeakSurvives` | internal/litellm/users.go:109-121 | For every secret that leaks, a message that keeps it through both replacements |
| `Redaction.EscapedReadsBack` | internal/litellm/users.go:114-118 | The escaped form is the inside of a JSON string literal (section 7 of RFC 8259) that reads as the secret |
| `Redaction.JsonCharIsPlain` | internal/litellm/users.go:114-118 | A character is written as it is exactly when it is no control character, quote, backslash, angle bracket, ampersand or line separator |
| `Redaction.NothingToRedact` | internal/litellm/users.go:109-121 | A message without the secret, raw or escaped, is left as it is |

## Left out

- The HTTP client, the wire structs and the services around them: only their effect on LiteLLM's records is modelled.
- Logging, events, conditions, timestamps, requeue delays and spend.
- The builders of Ingress, Service, HPA, PDB, network policies, backups, dashboards and most config sections: they copy fields one by one and hold no hard property.
- The budget, customer, credential and organization controllers: simpler cases of the create-or-update pattern; config sync covers customers and organizations.
- Instance health, rollback and the migration Job, which follow cluster state that is not modelled.
- The Redis cache fallback, whose password reference depends on a Deployment branch: not part of this model.
- Convergence.ModelConverges: takes the CR writes of the pass to land and the reconcile after it to be free of failures, since passes that fail are retried; failing passes are in Adoption and ModelAuth.
- Syncer.ConfigSyncer.Sync: goes over the six kinds in a loop where the source has six calls, and over vanished ids in an order it picks, as a Go map does.
- Rollout.RotationIsVisible: takes a ConfigMap's data and binary data as one key space; Kubernetes rejects a ConfigMap whose two parts share a key.
- HiddenRotations.TwoWholeRefsHide: for pod specs with exactly one whole reference it is not decided whether a hidden pair exists.
- Redaction.RedactionIsCompleteExactly: secrets that are not valid UTF-8 are not modelled.
- PasswordDigest.ParseDigest: the version scanner skips spaces, tabs and carriage returns and not the other Unicode spaces, and a version too large for an int is a number other than 19 where the source reports an error; both never match.
- InitialPassword.AppliedOnce: counts passwords LiteLLM reports as accepted; one that took effect behind an error is sent again.
- VirtualKeys.SecretHoldsTheRecordedKey: relies on the work queue running one key pass per CR at a time.
- EnvReferences.BuildHeaders: leaves out the fields of an endpoint that are copied.
- Adoption, VirtualKeys and InitialPassword model reconcileUser, reconcileKey and reconcileInitialPassword as step systems, not as methods on mutable objects: what they keep under interleaving is the point.
