# Verified model of the control plane's decision logic

This project models seven parts of the repository in Dafny 4.11 and proves what each is for. Each part
keeps the form of its source: loops and objects that change state are methods and classes proved against
functions on values, and the theorems are lemmas about those functions and about whole runs.

| Files | System |
|---|---|
| `ShardPlanner`, `ShardBound`, `ShardTightness`, `ShardContract`, `ShardVerify` | the test shard planner, what its callers may rely on, and its checker (`scripts/ci/pytest_shards.py`) |
| `ControllerActivation`, `ActivationRuns`, `ActivationRules` | the exactly-once activation of a controller identity |
| `KeycloakRealm`, `KeycloakReconciler`, `KeycloakVerifier`, `KeycloakReport`, `KeycloakPolicy`, `KeycloakCases` | the Keycloak client reconciler and the separate verifier |
| `CredentialBinding`, `CredentialGate`, `WorkflowOutbox`, `WorkflowRecords` | versioned credential bindings; the transactional workflow outbox |
| `RoutePermissions` | the bounded call-graph walk that finds a route's permissions |
| `DiscoveryValues`, `DiscoveryCommitment`, `DiscoveryProjection`, `DiscoveryRules`, `DiscoveryVerification` | discovery evidence: canonical form, accounting, projection, eligibility |
| `PublicationConsistency`, `TopologyCanonical`, `ForcedCommand`, `ForcedUnion`, `AcceptanceEvidence`, `AcceptanceRules`, `AcceptanceRecorder` | the shared-field check and the canonical topology, the forced-command grammar, the acceptance recorder and its loader |
| `Ordering`, `Wrappers` | Python's `sorted` and optional values, shared by the others |

The main operations are proved twice over: each method computes a function on values, and that function is
shown to obey rules that do not mention it, written in terms of the inputs alone (`ShardContract`,
`ActivationRules`, `KeycloakReport`, `KeycloakPolicy`, `CredentialGate`, `WorkflowRecords`, `DiscoveryRules`,
`AcceptanceRules`, `ForcedUnion`).

## How the environment is modelled

* SHA-256 over canonical JSON is a symbolic constructor: two digests are equal exactly when their inputs
  are. This is the assumption that digests do not collide. Discovery keeps the digested document itself.
* Signature verification, key ids, `str()` of a value, ISO date parsing, the secret value patterns, glob
  matching, git and pytest output are functions or values handed in; the theorems hold for all of them.
* A clock reading, a fresh id and the answer of an activation proof are inputs of the step that uses them.
* Weights are exact reals where the planner uses floats.
* `sorted` of a set is any fixed listing of its members where only determinism matters (`Lists`), and
  real sorting where the order itself is the point (`Sort`, `SortedSet`).
* The tables of `apps/acceptance/secp_acceptance/reasons.py` are a `Vocabulary` parameter with the
  facts those tables have; its members and digests are taken to match no secret pattern.
* The activation of an identity row is not in the modelled file: it either refuses without effect or
  supersedes whatever is active and inserts one fresh active row.

## What the proofs found

Where a property does not hold of the code as it stands, the model keeps the code, gives a lemma at a
failing input, and proves exactly when the property holds.

* **Activation without the advisory lock.** The lock is a no-op outside PostgreSQL, and activation re-reads
  the active row after the check. Two fresh installs that look and check before either commits lose the
  predecessor chain at once (`RaceFromEmptyTables`), and so do any two sessions on one head
  (`RaceForksChain`). An unlocked commit keeps the chain exactly when the row it checked is still active
  (`UnlockedCommitKeepsChainIff`). Receipts stay sound in every interleaving, and each is a root or follows an
  earlier one (`ReachableIsRooted`). Exact replay is another matter: a locked run and every lookup answer from
  the receipt for ever (`ReplayForever`, `LookupAnswers`), but an unlocked session that looked before the
  commit and checks after it gets the receipt exactly while the handoff is fresh and its identity is still the
  active one (`CheckReplaysIff`, over every interleaving `UnlockedReplay`). Otherwise the handoff that committed
  is refused (`LateCheckRefusesCommitted`).
* **Credential references.** Over every run of service calls no binding ever stands for two references
  (`ServiceBindingNamesOneReference`), registrations included. This rests on the syntax check in front of
  every write: the rotation hook tests a plan reference for `None`, the selector for truth, so a write that bypasses the services and
  stores an empty string lets the generic reference change under an active binding
  (`EmptyPlanReferenceHidesReplacement`). `SurvivesWithOtherReferenceIff` names exactly the writes that do
  this; `provider_execution`, which no code writes, is the other one. The real-plan gate is safe in any case
  (`GateIsCurrent`).
* **Workflow reuse.** Every run starts every id at most once if and only if the server refuses the ids of
  finished workflows (`AtMostOnceIffRejecting`); otherwise one lost reply is enough (`LostReplyStartsTwice`).
  The policy is an argument of `start_workflow` that the code leaves at its default.
* **Overlapping publishers.** A row committed as submitted stays so and is handed to no submitter in every
  continuation exactly when no other open session loaded it before it was sent (`SubmittedIsFinalIff`);
  two overlapping sessions get there (`OverlapLeavesRowHeld`). A deployment whose publishers begin one at a
  time is safe in every continuation (`LonePublisherIsFinal`).
* **Reconciler convergence.** A second run is silent exactly when the provider's own completions of
  the desired core and mappers already match (`WriteRunConverges`); an accepted artifact with an unset
  consent acts again after any number of runs (`UnsetConsentNeverSettles`).
* **Reconciler and verifier.** With an empty action list every check of the verifier passes for a pinned
  artifact with distinct mapper names (`NothingToDoNothingToReport`). Each part is exact
  (`ClientAgreementIff`, `MapperAgreementIff`, `AudienceAgreementIff`), and accepted artifacts that leave
  bearerOnly open or name a mapper twice are refused (`OpenBearerOnlyIsRefused`, `RepeatedNameIsRefused`).
* **Sealing.** `SealPassesLoaderIff` is the exact condition on the recorder's own document. A recorder that
  opened no stage is refused (`NoStageIsRefused`), and so is a run that declared a gap `declare_gap` let
  through with 513 weakened checks or with words the secret scan takes for a credential
  (`AcceptedGapRefusesSeal`, `RefusedGaps`). A record call marks the check as seen before it takes the digest
  of the observation, so an observation without canonical JSON (a NaN, bytes, a set) raises and leaves a check
  that is neither missing nor recorded: the run passes and its seal is refused (`LostRecordPassesAndIsRefused`).
  A check is lost exactly by such a call (`NothingLostIff`), and the recorder's missing list is the document's
  exactly when there was none (`MissingIsTheDocumentsIff`). A passed run that loads is proven in full
  (`LoadedPassIsProven`).
* **Order of topology lists.** What is accepted in one order is accepted in all exactly when no two different
  hosts share an id (`EveryOrderAcceptedIff`), which the topology contract guarantees; without it the order of
  two nodes decides (`RepeatedHostDependsOnOrder`).
* **Forced command.** Python's `$` matches before a final newline and sed looks at every line; without the
  coarse filters the two recognisers would take different commands (`FinalNewlineMatches`,
  `SecondLineIsSeen`).
* **Empty inventory.** Node coverage asks about every known node, so an observed but empty `node_names`
  leaves nothing to ask (`EmptyInventoryAsksNothing`); a fact nobody contributed to is usable in that case
  alone (`UncontributedUsableIff`). A tuple and a list of the same items have one canonical form
  (`CanonicalIff`). The value beside a malformed observation is not committed
  (`MalformedValueIsNotCommitted`).
* **Times without a zone.** A snapshot time that has no zone cannot be compared with the clock, and the
  verifier raises where it would have reported a state; `IncomparableIff` says exactly when.

## Model

| member | source | states |
|---|---|---|
| Ordering.SortSorts | scripts/ci/pytest_shards.py:173 | `sorted` orders by any total order |
| Ordering.SortedUnique | scripts/ci/pytest_shards.py:173 | a multiset has one sorted listing, so nothing that sorts first depends on input order |
| Ordering.LeIff | scripts/ci/pytest_shards.py:173 | strings compare by prefix, then by the first difference |
| Ordering.SortedSetSorts | apps/acceptance/secp_acceptance/evidence.py:242 | the listing of a set is in order; that it holds every member once is in the contract of `SortedSet` |
| ShardPlanner.PlaceAll | scripts/ci/pytest_shards.py:174-180 | the loop over `bins` and `loads` computes list scheduling, the running loads being the sums of the bins |
| ShardContract.PlanShards | scripts/ci/pytest_shards.py:161-181 | the files, by committed time or fallback descending and then by path, go one by one to the shard that takes least so far, the first of them; no division of the files is better by more than 4/3 - 1/(3m) |
| ShardContract.OrderIsComplete | scripts/ci/pytest_shards.py:173 | the processing order in full, ties by path |
| ShardContract.PlanIsHandedOut | scripts/ci/pytest_shards.py:174-181 | each file went to the first shard of least time so far, and each shard is listed by path |
| ShardContract.PlanIsWithin | scripts/ci/pytest_shards.py:161-181 | whatever the timings, a division with no shard above t means none of the plan is above (4/3 - 1/(3m)) t |
| ShardPlanner.Lightest | scripts/ci/pytest_shards.py:178 | the first index of least load |
| ShardPlanner.OrderedByWeight | scripts/ci/pytest_shards.py:173 | files are processed by descending weight |
| ShardPlanner.PlacedLoads | scripts/ci/pytest_shards.py:179-180 | placing one file changes the true load of one bin by its weight |
| ShardPlanner.PlanIsPermutation | scripts/ci/pytest_shards.py:161-181 | the plan is a permutation of its input and loads are sums |
| ShardPlanner.PlanIgnoresOrder | scripts/ci/pytest_shards.py:161-173 | every listing of the same files gives the same plan |
| ShardPlanner.PlanLeavesNoShardEmpty | scripts/ci/pytest_shards.py:161-181 | positive weights and enough files leave no shard empty |
| ShardBound.GreedyGap | scripts/ci/pytest_shards.py:174-180 | a bin minus its last file is never heavier than any other bin |
| ShardBound.ListSchedulingBound | scripts/ci/pytest_shards.py:174-180 | any placing order stays within 2 - 1/m of every schedule |
| ShardBound.BigFilesFit | scripts/ci/pytest_shards.py:173-180 | a file above a third of a feasible ceiling still fits under it in the lightest bin |
| ShardBound.PlacedWithinBound | scripts/ci/pytest_shards.py:173-180 | placing the next file in weight order keeps 4/3 - 1/(3m) |
| ShardBound.PlanWithinFourThirds | scripts/ci/pytest_shards.py:161-181 | the heaviest shard is at most 4/3 - 1/(3m) times that of any schedule of the files |
| ShardTightness.BoundIsAttained | scripts/ci/pytest_shards.py:161-181 | files of weights 2m-1, 2m-1, ..., m+1, m+1, m, m, m, in any order, reach the bound exactly |
| ShardTightness.BoundIsTight | scripts/ci/pytest_shards.py:161-181 | for every number of shards there are distinct files of positive weight whose plan is 4/3 - 1/(3m) times a better schedule |
| ShardTightness.SecondRound | scripts/ci/pytest_shards.py:176-180 | on that family the second m files level every shard at 3m - 1, whatever the ties |
| ShardVerify.FindDuplicates | scripts/ci/pytest_shards.py:187-192 | the first loop reports every repeated file with its shards |
| ShardVerify.FindEmpty | scripts/ci/pytest_shards.py:199-201 | every empty shard is reported |
| ShardVerify.VerifyPartition | scripts/ci/pytest_shards.py:184-202 | the report is empty iff the shards are a partition of the expected set into non-empty shards, and is exact otherwise |
| ShardVerify.ManagedFiles | scripts/ci/pytest_shards.py:114-127 | the test files under a root and not excluded, each once |
| ShardVerify.UnmanagedFiles | scripts/ci/pytest_shards.py:130-144 | the test files neither excluded nor under a root |
| ShardVerify.InsideIff | scripts/ci/pytest_shards.py:110-111 | a path is under a root iff it is the root or goes on from it with a slash |
| ShardVerify.CheckNodes | scripts/ci/pytest_shards.py:299-322 | the node report is empty iff per-shard collections partition the canonical set after normalising |
| ShardVerify.CmdVerify | scripts/ci/pytest_shards.py:255-333 | a stale exclusion, then a missing root raises; otherwise accepts iff no test is unmanaged, no shard is empty and nodes partition |
| ShardVerify.PlanPartitions | scripts/ci/pytest_shards.py:161-202 | the planner fails its own checker only through an empty shard |
| ShardVerify.AcceptedCoversFiles | scripts/ci/pytest_shards.py:272-333 | after acceptance every tracked test is excluded or in exactly one shard |
| ShardVerify.AcceptedCoversNodes | scripts/ci/pytest_shards.py:299-322 | after acceptance every canonical node is in exactly one shard |
| ControllerActivation.ParseHandoff | apps/api/secp_api/activate_controller_identity_once.py:108-187 | a handoff is accepted iff its schema, generation, timestamp, text lengths and predecessor pair are in order and its candidate digest is that of its own identity |
| ControllerActivation.OperationDigestBindsEverything | apps/api/secp_api/activate_controller_identity_once.py:131-148 | accepted handoffs with one operation digest are equal in every field |
| ControllerActivation.LatestReceiptFor | apps/api/secp_api/activate_controller_identity_once.py:297-311 | a receipt of the row after which there is no other, or none exists |
| ControllerActivation.Database.Activate | apps/api/secp_api/activate_controller_identity_once.py:373-378 | activation supersedes the active rows and inserts one, or refuses without effect |
| ControllerActivation.Database.Commit | apps/api/secp_api/activate_controller_identity_once.py:333-412 | the write of a first execution: both tables change together or not at all, a lost UNIQUE race rolls back |
| ControllerActivation.Database.RunActivation | apps/api/secp_api/activate_controller_identity_once.py:415-449 | one locked run: new tables and exit are the transition function |
| ActivationRuns.CommitKeepsSound | apps/api/secp_api/activate_controller_identity_once.py:333-412 | a commit keeps one active row at most, a receipt per row and a row per receipt |
| ActivationRuns.RunKeepsSound | apps/api/secp_api/controller_identity_models.py:84-128 | every reachable state is sound, and no receipt or committed fact is ever altered |
| ActivationRuns.ReachableIsSound | apps/api/secp_api/controller_identity_models.py:176-210 | at most one active row, receipts and rows in one-to-one correspondence, from the empty tables on |
| ActivationRuns.OkMeansCommitted | apps/api/secp_api/activate_controller_identity_once.py:415-449 | an OK exit means that receipt is durably stored |
| ActivationRuns.CommittedAnswers | apps/api/secp_api/activate_controller_identity_once.py:263-294 | a committed operation answers from its receipt whatever the clock says; any other body under its id conflicts; nothing changes |
| ActivationRuns.ReplayForever | apps/api/secp_api/activate_controller_identity_once.py:263-294 | after an OK, in every continuation with rotations and clock moves, a locked run of the handoff returns that receipt and any altered one conflicts |
| ActivationRuns.LookupAnswers | apps/api/secp_api/activate_controller_identity_once.py:415-449 | the lookup of an unlocked session answers a committed operation as a locked run does and opens no session |
| ActivationRuns.CheckReplaysIff | apps/api/secp_api/activate_controller_identity_once.py:333-367 | the check made after the commit returns the receipt iff the handoff is fresh and its identity is the active one |
| ActivationRuns.UnlockedReplay | apps/api/secp_api/activate_controller_identity_once.py:333-412 | after an OK, in every interleaving, a session that had looked is answered by that condition, and one that had checked writes nothing and gets the receipt |
| ActivationRuns.LateCheckRefusesCommitted | apps/api/secp_api/activate_controller_identity_once.py:350-372 | a run in which the handoff that committed is refused as a predecessor conflict |
| ActivationRuns.CheckSeesHead | apps/api/secp_api/activate_controller_identity_once.py:314-367 | a check that passes has seen the head of the chain and its generation |
| ActivationRuns.LockedRunsAreChains | apps/api/secp_api/activate_controller_identity_once.py:242-246 | under the lock receipts stay one chain with generation equal to position |
| ActivationRuns.ReachableUnderLockIsChain | apps/api/secp_api/activate_controller_identity_once.py:314-330 | the same for every state reachable from empty tables |
| ActivationRuns.InterleavedSessionsStayRight | apps/api/secp_api/activate_controller_identity_once.py:333-412 | in every interleaving what a checked session relies on holds until it commits |
| ActivationRuns.ReachableIsRooted | apps/api/secp_api/activate_controller_identity_once.py:314-330 | in every reachable state, locked or not, each receipt is a root of generation 0 or one generation after the earlier receipt of its predecessor row |
| ActivationRuns.UnlockedCommitKeepsChainIff | apps/api/secp_api/activate_controller_identity_once.py:242-246 | without the lock a commit keeps the chain iff the row it checked is still active |
| ActivationRuns.RaceForksChain | apps/api/secp_api/activate_controller_identity_once.py:242-246 | two unlocked operations that both passed their check both exit OK and fork the chain |
| ActivationRuns.RaceFromEmptyTables | apps/api/secp_api/activate_controller_identity_once.py:242-246 | a run of two fresh installs from empty tables that ends with two root receipts and no chain |
| ActivationRuns.LostRaceHasNoEffect | apps/api/secp_api/activate_controller_identity_once.py:435-449 | the loser of the UNIQUE race writes nothing and answers from the winner's receipt or refuses |
| ActivationRules.CheckIs | apps/api/secp_api/activate_controller_identity_once.py:333-372 | under the lock the check is decided by the newest receipt: its row, its token, its identity, its position |
| ActivationRules.FirstExecutionIs | apps/api/secp_api/activate_controller_identity_once.py:333-412 | a handoff with a new operation id is written in full when it is admissible, and otherwise nothing is written and the answer says why |
| ActivationRules.ActivatesIff | apps/api/secp_api/activate_controller_identity_once.py:415-449 | exits OK, and writes, iff valid, fresh, not the active identity, naming the head row and its token with generation = number of receipts, proof good, row id new |
| ActivationRules.ReachableUnderLockRotates | apps/api/secp_api/activate_controller_identity_once.py:350-372 | in every state reached under the lock no identity follows itself and each receipt carries the token of the row it replaced |
| ActivationRules.ReplayIs | apps/api/secp_api/activate_controller_identity_once.py:263-294 | a replay answers with the stored body iff the operation digest is the same and nothing stored was tampered with |
| ActivationRules.TamperingIsSeen | apps/api/secp_api/activate_controller_identity_once.py:263-294 | changing any one column of a genuine receipt, or removing its row, makes the next replay report corruption |
| KeycloakRealm.StoredMatchesIff | scripts/keycloak/secp_cli_client.py:716-740 | an update settles the core exactly when `attributes`, if given, is an object |
| KeycloakRealm.CompletedMatchesIff | scripts/keycloak/secp_cli_client.py:743-762 | exactly which desired mappers match their own completed copy |
| KeycloakReconciler.KeycloakAdmin.Mutate | scripts/keycloak/secp_cli_client.py:552-569 | every request sent is counted once and changes the realm as the provider serves it |
| KeycloakReconciler.Reconciler.Act | scripts/keycloak/secp_cli_client.py:599-602 | an action is always reported and sent only in write mode |
| KeycloakReconciler.Reconciler.ReconcileScopes | scripts/keycloak/secp_cli_client.py:649-680 | removals, then attachments, of one kind of scope; fails when the catalogue lacks one |
| KeycloakReconciler.Reconciler.ReconcileMappers | scripts/keycloak/secp_cli_client.py:682-708 | removals, creations and updates of mappers by name |
| KeycloakReconciler.Reconciler.Run | scripts/keycloak/secp_cli_client.py:614-647 | a run computes the phase function; a dry run leaves the mutation count, a write run adds one per action |
| KeycloakReconciler.ScopesServed | scripts/keycloak/secp_cli_client.py:649-680 | a served scope phase leaves exactly the desired scopes and nothing else changed |
| KeycloakReconciler.MappersServed | scripts/keycloak/secp_cli_client.py:682-708 | served mapper steps leave exactly the desired names |
| KeycloakReconciler.DryRunIsFaithful | scripts/keycloak/secp_cli_client.py:592-708 | for an existing client a dry run reports what a write run does, fails when it fails and changes nothing |
| KeycloakReconciler.NothingToDoIff | scripts/keycloak/secp_cli_client.py:614-708 | the action list is empty exactly for a conforming realm |
| KeycloakReconciler.ConformingIsLeftAlone | scripts/keycloak/secp_cli_client.py:614-708 | a write run of a conforming realm sends nothing |
| KeycloakReconciler.WriteRunConverges | scripts/keycloak/secp_cli_client.py:614-762 | after a successful write run scopes and mapper names are the desired ones, and the next run is silent iff the artifact settles |
| KeycloakReport.ReportedIffDue | scripts/keycloak/secp_cli_client.py:614-708 | a run reports each creation, update, attachment and removal iff it is due: deployed or not, desired or not, differing or not |
| KeycloakReport.ReportedOnceInOrder | scripts/keycloak/secp_cli_client.py:614-708 | no action twice; core, default scopes, optional scopes, mappers, removals first |
| KeycloakReport.ScopesLeft | scripts/keycloak/secp_cli_client.py:649-680 | a scope phase, finished or not, removed every surplus scope and attached only desired ones |
| KeycloakReport.FailedRunStops | scripts/keycloak/secp_cli_client.py:614-680 | a write run fails iff a desired scope is neither assigned nor known, and then has looked at no mapper |
| KeycloakReport.SameTextIff | scripts/keycloak/secp_cli_client.py:733-762 | two scalars compare alike iff equal or one is the text Python writes for the other, decimals included |
| KeycloakVerifier.PostureCarriesOver | scripts/keycloak/secp_cli_client.py:716-740 | a client that matches an accepted core has its posture, although matching compares text |
| KeycloakVerifier.ClientAgreementIff | scripts/keycloak/secp_cli_client.py:782-841 | with nothing to reconcile, the verifier is content iff the client is unexposed |
| KeycloakVerifier.PinnedArtifactAgrees | scripts/keycloak/secp_cli_client.py:184-265 | an artifact that pins the three fields leaves only the secret to the provider |
| KeycloakVerifier.MapperAgreementIff | scripts/keycloak/secp_cli_client.py:844-880 | with nothing to reconcile, the mapper check is content iff no mapper is named twice |
| KeycloakVerifier.AudienceAgreementIff | scripts/keycloak/secp_cli_client.py:282-308 | with nothing to reconcile, the audience check passes iff no later mapper takes the audience mapper's name |
| KeycloakVerifier.NothingToDoNothingToReport | scripts/keycloak/secp_cli_client.py:782-880 | an empty action list makes all three checks of the verifier pass, for a pinned artifact with distinct mapper names and no secret shown |
| KeycloakPolicy.ArtifactAcceptedIff | scripts/keycloak/secp_cli_client.py:184-265 | the artifact check finds nothing iff every pinned field, scope list and mapper is as policy writes it |
| KeycloakPolicy.DeployedAcceptedIff | scripts/keycloak/secp_cli_client.py:782-841 | the client check finds nothing iff the deployed client is device-only, unexposed and holds exactly the desired scopes |
| KeycloakPolicy.MapperSetIff | scripts/keycloak/secp_cli_client.py:844-880 | the mapper check finds nothing iff every name is deployed once, the names are the desired ones and no mapper differs |
| KeycloakPolicy.AudienceIff | scripts/keycloak/secp_cli_client.py:282-308 | exactly one audience mapper, naming this API, in the access token |
| KeycloakCases.LeastIsAccepted | scripts/keycloak/secp_cli_client.py:184-265 | a concrete artifact that the check accepts and that leaves three fields open |
| KeycloakCases.UnsetConsentNeverSettles | scripts/keycloak/secp_cli_client.py:743-762 | an accepted artifact for which, after any number of successful write runs, the next one acts again |
| KeycloakCases.OpenBearerOnlyIsRefused | scripts/keycloak/secp_cli_client.py:782-841 | an accepted artifact and a conforming client the verifier refuses |
| KeycloakCases.RepeatedNameIsRefused | scripts/keycloak/secp_cli_client.py:844-880 | an accepted artifact that names a mapper twice and a conforming realm the mapper check refuses |
| CredentialBinding.Registry.EnsureBinding | apps/api/secp_api/credential_binding.py:205-238 | the table changes as the ensure function says |
| CredentialBinding.Registry.RotateBinding | apps/api/secp_api/credential_binding.py:241-274 | the active row of the purpose is rotated and the next version inserted |
| CredentialBinding.Registry.RegisterTarget | apps/api/secp_api/services/targets.py:207-231 | a new target's columns are inserted without a rotation and each purpose with a reference gets its first binding |
| CredentialBinding.Registry.ChangeReferences | apps/api/secp_api/immutability.py:1333-1344 | an update of the reference columns with the rotations its hook performs |
| CredentialBinding.RunsAreDisciplined | apps/api/secp_api/credential_binding.py:193-274 | over every run versions are 1..n without gap or repeat and only version n may be active |
| CredentialBinding.SurvivesWithOtherReferenceIff | apps/api/secp_api/immutability.py:1333-1344 | a binding stays active under another reference exactly across the blind changes |
| CredentialBinding.ServiceBindingNamesOneReference | apps/api/secp_api/services/targets.py:163-231 | over every run of registrations and validated writes a binding active at two points stands for one reference |
| CredentialBinding.ServiceRunsAreNeverBlind | apps/api/secp_api/secret_refs.py:48-58 | what passes the syntax check never changes a reference without a rotation |
| CredentialBinding.BindingNamesOneReference | apps/api/secp_api/credential_binding.py:95-142 | the same for any run, validated or not, that has no blind change |
| CredentialBinding.BackendNeverBlind | apps/api/secp_api/immutability.py:1342-1344 | state-backend changes always rotate |
| CredentialBinding.GateIsCurrent | apps/api/secp_api/credential_binding.py:277-315 | a pair the gate grants is dedicated, distinct and newer than the last change of its references, over every run |
| CredentialGate.BackedIffSelected | apps/api/secp_api/credential_binding.py:205-274 | after any run of registrations and changes each purpose has an active binding iff its reference is set, and the binding says whether the reference is dedicated |
| CredentialGate.RotationReplaces | apps/api/secp_api/credential_binding.py:241-274 | a rotation retires every earlier binding of the purpose and issues an active one iff there is a reference |
| CredentialGate.GateGrantsIff | apps/api/secp_api/credential_binding.py:277-315 | after any such run the gate grants iff both dedicated references are set and differ |
| CredentialGate.WriteIsStored | apps/api/secp_api/services/targets.py:207-231 | a registration or change that goes through stores its columns; no step stores any others |
| CredentialBinding.EmptyPlanReferenceHidesReplacement | apps/api/secp_api/immutability.py:1333-1341 | a concrete run in which the generic reference is replaced under an active binding |
| WorkflowOutbox.Publisher.PublishOne | apps/api/secp_api/dispatch.py:618-649 | one attempt more; submitted with its time and no error, or failed with an error; nothing for a submitted row, and no other row changes |
| WorkflowOutbox.Publisher.PublishPending | apps/api/secp_api/dispatch.py:651-666 | each of the oldest unsent rows up to the limit is attempted once and left as its attempt says, no other row changes, requests go out in order and the count is that of the successes |
| WorkflowOutbox.PublisherRunsSteps | apps/api/secp_api/dispatch.py:663-665 | what the loop does to its rows and the server is what its steps do in a run |
| WorkflowOutbox.RunsAreFaithful | apps/api/secp_api/dispatch.py:296-352 | in every interleaving and crash a workflow starts only for a committed row, with that row's queue and arguments, and a submitted row has started |
| WorkflowOutbox.AtMostOnceIffRejecting | apps/api/secp_api/dispatch.py:264-280 | every run starts every id at most once iff the server refuses finished ids |
| WorkflowOutbox.LostReplyStartsTwice | apps/api/secp_api/dispatch.py:633-640 | a run in which a lost reply starts one workflow twice |
| WorkflowOutbox.AtMostOnceWhenRejecting | apps/api/secp_api/dispatch.py:264-280 | a server that refuses finished ids starts each id at most once |
| WorkflowOutbox.SubmittedIsFinalIff | apps/api/secp_api/dispatch.py:618-649 | a submitted row stays submitted and is never handed to a submitter again, in every continuation, iff no open session holds it unsent |
| WorkflowOutbox.OverlapLeavesRowHeld | apps/api/secp_api/dispatch.py:651-666 | a run of two overlapping sessions that ends with such a row |
| WorkflowOutbox.HeldCanUnmark | apps/api/secp_api/dispatch.py:618-649 | a session that holds the row can overwrite it |
| WorkflowOutbox.UnsubmittedIsNotRestarted | apps/api/secp_api/dispatch.py:618-628 | a workflow whose row is handed to no submitter is not started again in the whole continuation |
| WorkflowOutbox.LonePublisherIsFinal | apps/api/secp_api/dispatch.py:618-666 | in every run whose sessions begin one at a time a submitted row stays submitted and is handed over no more, in every continuation |
| WorkflowRecords.DispatchCommitsIff | apps/api/secp_api/dispatch.py:296-352 | a dispatch commits a pending row iff neither its id nor its workflow id is taken |
| WorkflowRecords.BeginLoads | apps/api/secp_api/dispatch.py:651-660 | a session loads the unsent rows it asks for, as they are |
| WorkflowRecords.RowsTell | apps/api/secp_api/dispatch.py:618-649 | in every reachable state attempts, error and time of sending of a row agree with its status |
| WorkflowRecords.CommitWritesItsOwn | apps/api/secp_api/dispatch.py:618-649 | a commit leaves every row alone that its session did not publish |
| WorkflowRecords.OneAtATimeEver | apps/api/secp_api/dispatch.py:264-280 | in every run a workflow was started at most once more often than it finished |
| RoutePermissions.Resolve | scripts/resolve_route_permissions.py:153-185 | the recursion with its accumulator computes the walk, whatever the order of calls |
| RoutePermissions.ResolveCandidates | scripts/resolve_route_permissions.py:175-184 | the inner loop over the candidates of one call |
| RoutePermissions.Shorten | scripts/resolve_route_permissions.py:153-185 | every call path has a simple one between its ends that is no longer |
| RoutePermissions.SimplePathIsWalked | scripts/resolve_route_permissions.py:153-185 | the path-local `seen` set never cuts a simple path |
| RoutePermissions.ResolveIsReachability | scripts/resolve_route_permissions.py:153-185 | the result is exactly the permissions of functions reachable within the bound through permission-free ones |
| RoutePermissions.CalleesAreMeant | scripts/resolve_route_permissions.py:169-184 | a function may call those its calls mean: no module named, the function's own, or an alias of it |
| RoutePermissions.QualifiedIsFollowed | scripts/resolve_route_permissions.py:175-184 | a call through a module or an alias of it reaches the function of that name there |
| RoutePermissions.BareNameIsFollowed | scripts/resolve_route_permissions.py:169-184 | an unqualified call reaches every function of the name |
| RoutePermissions.NamesakeContributesNothing | scripts/resolve_route_permissions.py:175-180 | a function in a module no call means changes no route |
| RoutePermissions.DeeperFindsMore | scripts/resolve_route_permissions.py:153-185 | a larger bound loses no permission |
| RoutePermissions.RouteEntry | scripts/resolve_route_permissions.py:224-272 | the names are those reachable within four calls, a permission behind an aliased call among them; required if there are any, open if verified so, else unknown |
| DiscoveryValues.PlacedMeans | apps/api/secp_api/discovery_fact_commitment.py:62-65 | placing an entry adds that key with that value and changes no other |
| DiscoveryValues.CanonicalKeepsMeaning | apps/api/secp_api/discovery_fact_commitment.py:52-72 | the canonical form keeps every key and value at every level |
| DiscoveryValues.CanonicalIsSorted | apps/api/secp_api/discovery_fact_commitment.py:62-65 | the keys of a canonical mapping are in order |
| DiscoveryValues.CanonicalIff | apps/api/secp_api/discovery_fact_commitment.py:52-72 | equal canonical forms iff the values differ only in mapping order, at any level |
| DiscoveryValues.CanonicalIdempotent | apps/api/secp_api/discovery_fact_commitment.py:52-72 | canonicalising twice is canonicalising once |
| DiscoveryValues.ScopeIsKeys | apps/api/secp_api/discovery_fact_commitment.py:75-83 | the scope restates exactly the keys of the canonical value |
| DiscoveryCommitment.NodeOf | apps/api/secp_api/discovery_fact_commitment.py:169-171 | the node of a subject is everything before its first slash |
| DiscoveryCommitment.NodeAccounting | apps/api/secp_api/discovery_fact_commitment.py:156-185 | every expected node gets the worst outcome anything said about it, missing when nothing did |
| DiscoveryCommitment.ObservedIff | apps/api/secp_api/discovery_fact_commitment.py:174-184 | observed iff something spoke for the node and everything about it was observed |
| DiscoveryCommitment.OtherOutcomesIff | apps/api/secp_api/discovery_fact_commitment.py:174-184 | missing iff nothing spoke for the node; denied iff one contribution about it was; failed, then unsupported, iff one was and nothing worse |
| DiscoveryCommitment.FactRows | apps/api/secp_api/discovery_fact_commitment.py:206-224 | one row per fact, in listing order, with the value of usable facts only |
| DiscoveryCommitment.RowIff | apps/api/secp_api/discovery_fact_commitment.py:206-224 | a row changes with any difference but mapping order |
| DiscoveryCommitment.RowSays | apps/api/secp_api/discovery_fact_commitment.py:206-224 | a row restates its observation, with value and keys exactly for a usable one |
| DiscoveryCommitment.DocumentIff | apps/api/secp_api/discovery_fact_commitment.py:226-258 | the committed document is equal iff nothing differs but mapping order in usable values |
| DiscoveryCommitment.MalformedValueIsNotCommitted | apps/api/secp_api/discovery_fact_commitment.py:206-224 | any two values beside a malformed observation give one row |
| DiscoveryProjection.SafeIdentifier | apps/api/secp_api/discovery_fact_projection.py:216-226 | what a target wrote reaches a reason as at most 65 harmless characters |
| DiscoveryProjection.PendingSdnCompleteness | apps/api/secp_api/discovery_fact_projection.py:332-357 | the two walks compute the list of families not enumerated |
| DiscoveryProjection.PendingIff | apps/api/secp_api/discovery_fact_projection.py:332-357 | the list is empty iff every family and the subnets of every vnet were enumerated |
| DiscoveryProjection.FindUnaccounted | apps/api/secp_api/discovery_fact_projection.py:287-299 | the two passes find every node without a covering success |
| DiscoveryProjection.NodeCoverage | apps/api/secp_api/discovery_fact_projection.py:264-309 | the method computes the coverage function |
| DiscoveryProjection.NodeCoverageIff | apps/api/secp_api/discovery_fact_projection.py:264-329 | coverage keeps a fact usable iff every known node has a contribution, only observed ones, and a covering value |
| DiscoveryProjection.ExactVersion | apps/api/secp_api/discovery_fact_projection.py:433-447 | the loop over the components computes the version function |
| DiscoveryProjection.VersionIff | apps/api/secp_api/discovery_fact_projection.py:433-447 | the version is usable iff all components are |
| DiscoveryProjection.ProjectOne | apps/api/secp_api/discovery_fact_projection.py:380-428 | one turn of the loop computes the projection of one fact |
| DiscoveryProjection.ProjectRequiredFacts | apps/api/secp_api/discovery_fact_projection.py:360-430 | the result holds every required fact, no other, each as its projection |
| DiscoveryProjection.UsableIff | apps/api/secp_api/discovery_fact_projection.py:360-430 | a fact is usable iff its authority, completeness and node coverage are established |
| DiscoveryProjection.ProjectionIsConstructible | apps/api/secp_api/discovery_observation.py:84-104 | the projection never builds an observation that its constructor refuses |
| DiscoveryProjection.FailureIsNotCured | apps/api/secp_api/discovery_fact_projection.py:287-309 | a failing contribution about a known node makes a node-scoped fact unusable, whatever else succeeded |
| DiscoveryProjection.ContributionIsLocal | apps/api/secp_api/discovery_fact_projection.py:422-428 | a contribution changes no fact but its own node-scoped one |
| DiscoveryProjection.EmptyInventoryAsksNothing | apps/api/secp_api/discovery_fact_projection.py:257-261 | under an observed empty node list a node-scoped fact nobody contributed to is usable |
| DiscoveryProjection.UncontributedUsableIff | apps/api/secp_api/discovery_fact_projection.py:257-309 | a node-scoped fact nobody contributed to is usable iff its gates are open, its value is a mapping and the node list was observed empty |
| DiscoveryRules.UsableIffWarranted | apps/api/secp_api/discovery_fact_projection.py:264-447 | a fact is usable iff its authority was shown, its families were listed, and every known node was answered for and is found in its value: as a key, as `node/thing`, or as a node without things |
| DiscoveryRules.RefusalNames | apps/api/secp_api/discovery_fact_projection.py:287-309 | a refused fact names exactly the nodes not accounted for, each with what is held against it; a denial iff all were denied |
| DiscoveryRules.DenialNamesPrivilege | apps/api/secp_api/discovery_fact_projection.py:306-315 | a fact denied on every node names the first of the privileges its answers ask for |
| DiscoveryRules.LeftOutIsRefused | apps/api/secp_api/discovery_fact_projection.py:296-299 | a node answered for and left out of the value refuses the fact as answered without covering |
| DiscoveryRules.PendingNames | apps/api/secp_api/discovery_fact_projection.py:332-357 | a refused pending state names exactly the families and the subnets nobody listed |
| DiscoveryRules.SafeIdentifierIs | apps/api/secp_api/discovery_fact_projection.py:216-226 | an identifier reaches a reason with its harmless characters kept, every other one a question mark, cut after 64 |
| DiscoveryRules.UsableIsTheRuns | apps/api/secp_api/discovery_fact_projection.py:411-428 | a usable fact is the run's own observation, unchanged |
| DiscoveryRules.SuppliedIsTheControlPlanes | apps/api/secp_api/discovery_fact_projection.py:381-383 | no target can assert what the control plane supplies |
| DiscoveryRules.UnauthorisedIsDenied | apps/api/secp_api/discovery_fact_projection.py:393-409 | without its authority a fact is denied and the privilege to grant is named |
| DiscoveryRules.UnusableIsKept | apps/api/secp_api/discovery_fact_projection.py:411-428 | an unusable field keeps its own state, reason and privilege |
| DiscoveryRules.VersionIsExact | apps/api/secp_api/discovery_fact_projection.py:433-447 | a usable version is major, minor and patch joined by dots |
| DiscoveryRules.ProjectedIsExplained | apps/api/secp_api/discovery_observation.py:84-104 | nothing is projected without its reason, and no denial without a privilege |
| DiscoveryVerification.CurrentIff | apps/api/secp_api/discovery_verification.py:293-313 | a snapshot is current exactly during one interval of the clock |
| DiscoveryVerification.StaleForGood | apps/api/secp_api/discovery_verification.py:309-312 | a stale snapshot never becomes current |
| DiscoveryVerification.IncomparableIff | apps/api/secp_api/discovery_verification.py:293-306 | which windows make the comparison raise, whatever the clock says |
| DiscoveryVerification.SignedStatesAreTheProjection | apps/api/secp_api/discovery_fact_projection.py:450-457 | the verifier reads back the state of every projected fact |
| DiscoveryVerification.MissingIs | apps/api/secp_api/discovery_verification.py:428-449 | the missing facts are those asked for and not observed, in order, each with the state the snapshot gives it |
| DiscoveryVerification.CompareBinding | apps/api/secp_api/discovery_verification.py:392-422 | every disagreement is reported, nothing else is, and none means full agreement |
| DiscoveryVerification.CheckSignature | apps/api/secp_api/discovery_verification.py:350-390 | valid iff the registered anchor's key signed this snapshot; every refusal has a reason |
| DiscoveryVerification.VerifyDiscoverySnapshot | apps/api/secp_api/discovery_verification.py:325-472 | raises exactly for a signed snapshot with incomparable times; otherwise the six results, the missing facts and the authority, each with its exact condition |
| DiscoveryVerification.EligibleIff | apps/api/secp_api/discovery_verification.py:428-449 | eligible for compilation iff authentic, in the window and every compilation fact established; for apply iff also every apply fact |
| DiscoveryVerification.EligibleIsSafe | apps/api/secp_api/discovery_fact_projection.py:264-430 | eligibility implies that both authorities were shown, every pending family and subnet listing was made, and a compiler finds every known node in each value it places things by |
| DiscoveryVerification.OneFailureRefuses | apps/api/secp_api/discovery_fact_commitment.py:156-185 | one failing answer about one known node refuses compilation |
| DiscoveryVerification.StoredFactsAreTheSigned | apps/api/secp_api/discovery_verification.py:417-418 | an authentic snapshot's stored commitment is the signed one up to mapping order |
| PublicationConsistency.CheckRoles | apps/api/secp_api/environment_publication_contract.py:160-181 | roles correspond one to one to host nodes with the same kind and network |
| PublicationConsistency.IndexNetworks | apps/api/secp_api/environment_publication_contract.py:189-195 | the index loop fails exactly on a repeated id |
| PublicationConsistency.CheckNetworks | apps/api/secp_api/environment_publication_contract.py:183-209 | declared networks, topology networks and network nodes correspond one to one and agree |
| PublicationConsistency.CheckEdges | apps/api/secp_api/environment_publication_contract.py:211-238 | network edges are one per host, to its own network |
| PublicationConsistency.CheckSharedFields | apps/api/secp_api/environment_publication_contract.py:146-238 | accepts iff consistent, and the code says which group fails |
| PublicationConsistency.RoleNetworksAreDeclared | apps/api/secp_api/environment_publication_contract.py:146-238 | acceptance implies that every role's network is declared |
| PublicationConsistency.EveryOrderAcceptedIff | apps/api/secp_api/environment_publication_contract.py:146-238 | what is accepted is accepted in every order of every list iff no two different host nodes share an id |
| PublicationConsistency.RepeatedHostDependsOnOrder | apps/api/secp_api/environment_publication_contract.py:160-181 | a topology with a repeated host id that is accepted in one order and refused in the other |
| PublicationConsistency.OneHostAgrees | apps/api/secp_api/environment_publication_contract.py:176-181 | two hosts of one id that both agree with the roles are alike |
| TopologyCanonical.SortByIdIff | apps/api/secp_api/topology_authoring_contract.py:327-329 | sorting by a unique id gives one list iff the lists hold the same items |
| TopologyCanonical.NormalIff | apps/api/secp_api/topology_authoring_contract.py:330-333 | zones normalise alike iff they differ only in the order of their members |
| TopologyCanonical.CanonicalIff | apps/api/secp_api/environment_publication_contract.py:113-143 | validated documents reconstruct to one canonical object iff they have the same content in some order, at both levels |
| TopologyCanonical.CanonicalHolds | apps/api/secp_api/topology_authoring_contract.py:327-333 | the canonical object has each list under its own name, by id, and the members of each zone sorted |
| ForcedCommand.MatchRenders | apps/api/secp_api/discovery_bootstrap_contract.py:85-115 | the command a pattern captures renders to the very line |
| ForcedCommand.RenderMatches | apps/api/secp_api/discovery_bootstrap_contract.py:85-115 | every rendering with valid tokens is captured with those tokens |
| ForcedCommand.UniqueParse | apps/api/secp_api/discovery_bootstrap_contract.py:74-115 | an accepted line has one reading |
| ForcedCommand.LanguagePassesFilters | apps/api/secp_api/discovery_bootstrap_contract.py:116-117 | neither coarse filter refuses a line of the language |
| ForcedUnion.UnionIs | apps/api/secp_api/discovery_bootstrap_contract.py:74-115 | the language is seven fixed lines and six forms of line, written out with their tokens |
| ForcedCommand.CommandIsAllowed | apps/api/secp_api/discovery_bootstrap_contract.py:120-137 | allowed iff the line is a rendering of the closed union, although each pattern also matches before a final newline |
| ForcedCommand.FinalNewlineMatches | apps/api/secp_api/discovery_bootstrap_contract.py:116-117 | without the metacharacter filter every rendering with a newline at the end would match |
| ForcedCommand.ParametersAreGroups | apps/api/secp_api/discovery_bootstrap_contract.py:222-237 | the shell's word splitting gives back the captured groups |
| ForcedCommand.ReexecutedArgv | apps/api/secp_api/discovery_bootstrap_contract.py:213-237 | the rebuilt argument vector is that of the captured command |
| ForcedCommand.ForceCommandWrapper | apps/api/secp_api/discovery_bootstrap_contract.py:195-242 | executes iff the line is in the same language, with the argument vector that joins to the line, although sed looks at every line |
| ForcedCommand.SecondLineIsSeen | apps/api/secp_api/discovery_bootstrap_contract.py:206-209 | without the case filter a rendering on the second line would be executed, and no Python pattern matches it |
| AcceptanceEvidence.MissingChecks | apps/acceptance/secp_acceptance/evidence.py:232-242 | the declared checks of attempted stages without a record, sorted |
| AcceptanceEvidence.UnprovenChecks | apps/acceptance/secp_acceptance/evidence.py:247-248 | empty iff no record is unproven |
| AcceptanceEvidence.AssertCheck | apps/acceptance/secp_acceptance/evidence.py:268-289 | no error iff the record is admissible |
| AcceptanceEvidence.AssertGap | apps/acceptance/secp_acceptance/evidence.py:292-303 | no error iff the gap is admissible |
| AcceptanceEvidence.AssertChecks | apps/acceptance/secp_acceptance/evidence.py:327-337 | no error iff all records are admissible, under attempted stages, one per check |
| AcceptanceEvidence.AssertSemantics | apps/acceptance/secp_acceptance/evidence.py:306-356 | no error iff the document is admissible, a passed one being complete and proven |
| AcceptanceEvidence.Load | apps/acceptance/secp_acceptance/evidence.py:375-388 | loads iff the scan finds nothing, the fields fit and the document is admissible |
| AcceptanceRules.LoadsIff | apps/acceptance/secp_acceptance/evidence.py:306-388 | the loader lets through exactly the documents whose every field is as written out: lengths, grammars, vocabulary, prohibitions, coverage |
| AcceptanceRecorder.ReachableIsSound | apps/acceptance/secp_acceptance/recorder.py:65-180 | after any calls, refused and raising ones included, records are admissible, one per check, under opened stages, and every recorded check is seen |
| AcceptanceRecorder.NothingLostIff | apps/acceptance/secp_acceptance/recorder.py:78-98 | every seen check has a record iff no record call of the run raised for want of a digest |
| AcceptanceRecorder.EveryRecordIsWarranted | apps/acceptance/secp_acceptance/recorder.py:100-159 | observed only through `observe`, refused only when the actual code was the expected one |
| AcceptanceRecorder.ChecksFit | apps/acceptance/secp_acceptance/evidence.py:325-326 | the bound on records can never be exceeded |
| AcceptanceRecorder.SealPassesLoaderIff | apps/acceptance/secp_acceptance/recorder.py:188-223 | after any calls the sealed document loads iff a stage was opened, at most 64 gaps have identifier names, at most 512 weakened checks and no secret in their texts, fleet and release are presentable, the times have zones, and no check was lost unless the run fails anyway |
| AcceptanceRecorder.GapAcceptedIff | apps/acceptance/secp_acceptance/recorder.py:161-178 | a gap is taken iff its stage and checks are known, it weakens one and its texts fit |
| AcceptanceRecorder.AcceptedGapRefusesSeal | apps/acceptance/secp_acceptance/recorder.py:161-178 | a gap that is accepted but not declarable makes every later seal fail |
| AcceptanceRecorder.RefusedGaps | apps/commissioning/secp_commissioning/descriptor.py:142-182 | 513 weakened checks, or a reason the scan takes for a secret, are such gaps |
| AcceptanceRecorder.NoStageIsRefused | apps/acceptance/secp_acceptance/evidence.py:317-318 | a recorder without a stage cannot be sealed |
| AcceptanceRecorder.LostRecordPassesAndIsRefused | apps/commissioning/secp_commissioning/canonical.py:19-32 | a run whose one observation has no digest: nothing is recorded or missing, the outcome is passed and the loader refuses the seal |
| AcceptanceRecorder.MissingIsTheDocumentsIff | apps/acceptance/secp_acceptance/recorder.py:182-186 | recorder and document agree on what is missing iff no record call raised for want of a digest |
| AcceptanceRecorder.PassedIff | apps/acceptance/secp_acceptance/recorder.py:195-196 | passed iff every check of every opened stage has one record and it is a proof, or was lost |
| AcceptanceRecorder.LoadedPassIsProven | apps/acceptance/secp_acceptance/recorder.py:188-223 | a passed document that loads has a proof of every check of every opened stage |
| AcceptanceRecorder.UnprovenIsForGood | apps/acceptance/secp_acceptance/recorder.py:100-159 | one unproven check fails the run whatever follows |
| AcceptanceRecorder.LaterExtends | apps/acceptance/secp_acceptance/recorder.py:78-180 | nothing recorded is ever changed or removed |
| AcceptanceRecorder.RunIdentityIff | apps/acceptance/secp_acceptance/evidence.py:93-102 | two runs have one identity iff contract, fleet and release are the same |
| AcceptanceRecorder.Recorder.Open | apps/acceptance/secp_acceptance/recorder.py:65-70 | opens a known stage once |
| AcceptanceRecorder.Recorder.Record | apps/acceptance/secp_acceptance/recorder.py:78-98 | adds the record, raises without effect, or raises after marking the check when the observation has no digest |
| AcceptanceRecorder.Recorder.Expect | apps/acceptance/secp_acceptance/recorder.py:111-147 | files a refusal as a pass only for the expected code, and answers whether it was |
| AcceptanceRecorder.Recorder.Declare | apps/acceptance/secp_acceptance/recorder.py:161-178 | appends the gap or raises; the stage stays open either way |
| AcceptanceRecorder.Recorder.MissingNow | apps/acceptance/secp_acceptance/recorder.py:182-186 | the loop computes the missing checks |
| AcceptanceRecorder.Recorder.Seal | apps/acceptance/secp_acceptance/recorder.py:188-223 | the outcome is derived, and from any sound state the loader takes the document iff the same condition holds |

## Left out

* The plan, list, count, run and weights subcommands, junit parsing, `fallback_weight` and every subprocess.
* Float rounding of shard weights.
* The dev-seed path, revocation, and the identity reader's file checks of the activation.
* SQLAlchemy and PostgreSQL beneath the level of rows, UNIQUE constraints, commit and rollback.
* Keycloak transport, authentication, discovery and revocation probes, and the scan of the artifact for URLs.
* JSON lists and objects inside compared Keycloak fields are compared structurally, not through their printed text.
* Every column of an outbox row the publisher does not decide on.
* Topology schema validation, its hash comparison and typed re-validation; distinct ids, which validation guarantees, are assumed where the order theorems need them.
* How `resolve_route_permissions.py` builds its tables from syntax trees.
* The bootstrap script, public-key validation and locale-dependent bracket ranges of the shell.
* Non-string mapping keys and non-JSON values in observations; the wording of reason codes beyond their kind.
* A caller-supplied `now` without a zone; every clock reading is taken to have one.
* Opaque-object guards of the verified snapshot, and the refusal helpers that restate eligibility per fact.
* The texts of the nine secret value patterns; the scan of field names, which are fixed.
* Session identity maps of the publisher beyond the rows it loaded, and the link of a row to its workflow run.
- CredentialBinding.BindingNamesOneReference: needs runs without blind changes; runs of the services are shown to have none, and the exact condition for any other write is `SurvivesWithOtherReferenceIff`.
- WorkflowOutbox.AtMostOnceWhenRejecting: needs a server that refuses finished ids; `AtMostOnceIffRejecting` shows that the condition is necessary.
