# Security manager: model and proofs

The security manager keeps the configuration of claimed applications in a database: identity and
membership certificates, a manifest and a policy for each of them. UI calls change that configuration
table by table, and an agent pushes it to the devices. This project models that machinery and proves
what it is for:

- **The sync protocol.** A UI call writes a table first and announces the write afterwards, under
  `updateLock`, by raising one global update counter and storing SYNC_PENDING. The updater reads the
  tables piecemeal without that lock, pushes what it read, and stores SYNC_OK only if the counter is still
  the one with which its iteration began. `SyncProtocol` is this protocol as a step relation, for
  any number of UI calls, claims and failures in any interleaving. `SyncSoundness`, `PolicySync`,
  `SyncSystem`, `Convergence`, `PolicyRestart` and `ResetProtocol` hold what is proved about its runs.
- **The code of the protocol.** `SqlStorage`, `UIStorage` and `ApplicationUpdater` model the classes
  themselves, with methods that may fail at every database statement and remote call. `MembershipPlan` is
  the specification of what the updater sends. `StorageRefinement` shows that the storage calls, run to
  completion, are runs of the step relation.
- **Claiming** (`Claiming`), **serial numbers** (`Serials`) and the **task queue** (`TaskQueues`), whose
  single worker justifies that an application has one updater at a time.
- **Rules.** `Manifests` (difference of manifests and manifest updates) and `PolicyUtil` on top of
  `OrderedMap` (normalisation of policies) are proved against what rules grant: a set of
  (interface, path, member, type, action) rights.

## How it is modelled

Decisions that the step relation and the classes have to agree on are single functions in `Base`:
`Completed` (what UpdatesCompleted does), `AnnouncedState` (what ApplicationUpdated stores) and
`Versioned` (the version rule of UpdatePolicy). Everything that happens under `updateLock` or under the
storage mutex is one step. So is a loop that only reads local variables; the remote calls of the updater
and the table accesses of all threads are steps of their own.

A database statement or remote call of the classes may fail at any time, unless the database or the device is
`reliable`. What a call does when everything works is stated for reliable ones. Where the code does not
notice that a query fails, its success is an input of the call (`queried`, `selected`).

Assumptions of the protocol model:

- one updater at a time per application (`ResetProtocol` does without);
- a database statement either takes effect or does nothing; only the removal of a row after a successful
  reset is taken to succeed in `SyncProtocol`, and it may fail in the classes and in `ResetProtocol`;
- only this agent changes a claimed device, and a failing remote call leaves the device alone;
- no forced removal of an application while a transaction on it is open, and no roll-back of a claim that
  removes its row then (a roll-back that fails to remove it may happen at any time);
- a device that never received a policy reports version 0 (agent/src/ApplicationUpdater.cc:91-92);
- the 64-bit update counter does not wrap around; policy versions do, at 32 bits.

Three records steer nothing and only serve to state theorems: `unannounced` (a table write that no
announcement followed yet), `published` (by version, the policies stored in a sequence of ascending versions)
and `leftover` (a failed claim could not take its row back).

`std::map` with a comparator that is not a strict order has no defined behaviour. `OrderedMap.Find` and
`OrderedMap.Assign` therefore promise nothing unless the comparator is an order on the keys involved, and what
is proved of NormalizePolicy holds for ACLs with aligned keys: no two rules, and no two members of one rule,
ascend in one component and descend in the other. `RuleOrderExactly` and `MemberOrderExactly` show that the
comparators are orders exactly then. For other keys an actual container may drop entries. Only the "only if"
half of `CanonicalExactly` speaks of such keys, for a map that is searched linearly.

Where code and documentation disagree the code is modelled:

- agent/inc/alljoyn/securitymgr/PolicyUtil.h:30-33 promises, for every policy, rules and members that are
  ordered and occur once per ACL with their masks ORed. The comparators (agent/src/PolicyUtil.cc:28-46) are
  orders only on aligned keys, and for others neither that nor the rights of the policy are guaranteed.
- storage/src/SQLStorage.cc:1566-1568 ignores a failing query for the applications a removed group or
  identity affects; the removal then succeeds and tells only those that the query had returned.
- agent/src/Manifest.cc:296-308 gives up when a manifest has no rules; a manifest update from or to such a
  manifest lists no additional and no removed rules, whatever the other one grants.
- storage/src/AJNCaStorage.cc:166-170 ignores failures of the serial number. After a failing update two
  certificates can get the same serial, and after a failing query a certificate is signed without one.
- storage/src/UIStorageImpl.cc:233 ignores whether the row of a failed claim could be removed again.
- StoreManifest, StorePolicy and RemoveCertificate succeed when there is nothing to update.
- storage/src/SQLStorage.cc:50-53 returns with the storage mutex locked; the model continues.

## Model

| member | source | states |
|---|---|---|
| SyncSystem.StoredOkMeansInSync | agent/src/ApplicationUpdater.cc:297-413 | In every run with any number of applications, UI calls, claims and failures, a stored SYNC_OK with no unannounced table write means that the device has exactly the stored membership ids and the stored identity, although the updater's reads are torn and a failed push may store SYNC_OK again. Two cases are exempt: a claim between storing its row and its certificate, and a row that a failed claim could not take back, until the application is claimed again without a row. |
| SyncSystem.QuietOkMeansInSync | storage/src/UIStorageImpl.cc:159-212 | The same with a condition on control only: no UI call on the application is between its table write and its announcement, or gave up there with no later announcement. The same two cases are exempt. |
| SyncSystem.LeftoverBreaksSync | storage/src/UIStorageImpl.cc:232-235 | A run that shows why: a claim whose commit fails and whose insertion cannot be taken back leaves SYNC_OK stored for a device that is then reset. |
| SyncSystem.RowsAreManaged | storage/src/UIStorageImpl.cc:105-128 | In every reachable state, with no claim and no identity removal under way or given up, a row is SYNC_OK, SYNC_PENDING or SYNC_WILL_RESET, and one that does not wait for its reset has an identity and a manifest. |
| SyncSystem.StoredOkMeansSamePolicy | agent/src/ApplicationUpdater.cc:72-123 | With UI calls serialized per application and versions below 2^32-1, the device also has the stored policy, contents included, although only versions are compared; where no policy is stored, UpdatePolicy must give a version above those stored before, unless the storage says SYNC_OK with everything announced. |
| SyncSystem.PoliciesOnlyAdvance | storage/src/UIStorageImpl.cc:383-391 | In the same runs the device is never ahead of a stored policy, and a policy that is sent is strictly newer than the one it replaces. |
| SyncSystem.PlainRunsAreSerialized | storage/src/UIStorageImpl.cc:362-397 | Runs in which RemovePolicy is not used meet that condition on versions by themselves. |
| SyncSystem.LoopIsBounded | agent/src/ApplicationUpdater.cc:320-410 | The update loop has run at most once more than the counter was raised since the transaction started. |
| SyncSystem.SuccessEndsOrRestarts | storage/src/UIStorageImpl.cc:168-212 | In every reachable state, an iteration whose remote calls succeeded ends with the row removed, or with SYNC_OK stored at the counter value with which it began, or restarts with a strictly larger transaction id. |
| SyncSystem.OnlyWaitingRowsAreRemoved | storage/src/UIStorageImpl.cc:175-180 | With one updater per application, completing a transaction removes a row only if it still waits for its reset. |
| SyncSystem.StoredStates | storage/src/UIStorageImpl.cc:443-470 | Only SYNC_OK, SYNC_PENDING and SYNC_WILL_RESET are ever stored. |
| SyncSystem.StepKeepsInv | storage/src/SQLStorage.cc:1554-1602 | Every step of every thread, including removals that touch several applications in one write, keeps the sync invariant of all applications. |
| SyncSoundness.EventKeepsInv | agent/src/ApplicationUpdater.cc:320-410 | The inductive invariant: what the updater read is current unless something was written since it started, pushing has got as far as its position says, and SYNC_OK means in sync unless a write is unannounced. |
| SyncSoundness.EventKeepsAccountable | storage/src/UIStorageImpl.cc:319-441 | An unannounced write always belongs to a UI call that is past its write or gave up after it. |
| SyncSoundness.EventKeepsManaged | storage/src/UIStorageImpl.cc:413-441 | Every event keeps the managed-row invariant; in particular the updater never stores SYNC_OK over SYNC_WILL_RESET. |
| PolicySync.EventKeepsPolicyInv | storage/src/UIStorageImpl.cc:362-397 | Each stored policy gets a version above all earlier ones of its sequence, so that a version stands for one content; device and updater only hold stored policies. |
| Convergence.Converges | agent/src/ApplicationUpdater.cc:297-413 | However an undisturbed transaction without failures is scheduled, it takes eleven steps and one remote call per missing and per redundant membership; before that some step can be taken, and afterwards SYNC_OK is stored and the device equals the storage. |
| Convergence.SomeScheduleConverges | agent/src/ApplicationUpdater.cc:297-413 | There is such a schedule from every application with an identity and a manifest whose device is claimed. |
| Convergence.ResetConverges | agent/src/ApplicationUpdater.cc:322-327 | An application that waits for its reset is reset and then forgotten. |
| PolicyRestart.ReplacedAgreesExactly | storage/src/UIStorageImpl.cc:377-397 | After RemovePolicy, UpdatePolicy and a sync, from any application that can be synced, the device agrees with the storage whatever the new policy says if and only if its version is not the one the device had. |
| PolicyRestart.Replaces | storage/src/UIStorageImpl.cc:362-411 | That outcome is the one of a run of these calls and one transaction. |
| PolicyRestart.RemovedPolicyBreaksAgreement | storage/src/UIStorageImpl.cc:404-411 | A run from the first claim on: claim, store, sync, remove and store again before the next sync ends in SYNC_OK with the old policy on the device. |
| ResetProtocol.WillResetIsAbsorbing | storage/src/UIStorageImpl.cc:27-38 | With any number of updaters, a stored SYNC_WILL_RESET stays until an updater with SYNC_RESET removes the row or RemoveApplication drops it. |
| ResetProtocol.StepKeepsInv | storage/src/UIStorageImpl.cc:159-212 | Every step of any number of updaters keeps: a transaction as recent as a stored SYNC_WILL_RESET has seen it. |
| ResetProtocol.OnlyResetRemoves | storage/src/UIStorageImpl.cc:168-212 | No single step of UpdatesCompleted or ApplicationUpdated overwrites SYNC_WILL_RESET. |
| ResetProtocol.RemovalHasEvidence | agent/src/ApplicationUpdater.cc:30-70 | A completed transaction removes a row only if the last step of its updater before that reset the device, leaving it unclaimed, or found it reported as not claimed, after SYNC_WILL_RESET had been read. |
| ResetProtocol.SecondUpdaterRemovesNewClaim | storage/src/UIStorageImpl.cc:175-180 | A run that shows why that needs one updater: with two, the second removes the row of an application that was claimed again meanwhile, since SYNC_RESET is completed without a look at the counter. |
| Base.Versioned | storage/src/UIStorageImpl.cc:383-389 | Any other version than 0 is refused exactly if it is not above the stored one, and is kept otherwise; version 0 stands for the one after the stored version. |
| Base.NextVersion | storage/src/UIStorageImpl.cc:383-386 | The version after a stored one is the next integer, except that the greatest 32-bit version is followed by 0. |
| UIStorage.UIStorageImpl.StartUpdates | storage/src/UIStorageImpl.cc:159-166 | Stored state and update counter of one moment; with a database that works it fails exactly if there is no row. |
| UIStorage.UIStorageImpl.UpdatesCompleted | storage/src/UIStorageImpl.cc:168-212 | Removes the row with its certificates, restarts with the current counter and state, stores SYNC_OK or does nothing, and leaves everything else alone. With a database that works it is exactly what `Completed` decides; otherwise it may also do nothing. Managed rows stay managed unless it stores SYNC_OK over SYNC_WILL_RESET, which `SyncSoundness.EventKeepsManaged` excludes. |
| UIStorage.UIStorageImpl.ApplicationUpdated | storage/src/UIStorageImpl.cc:443-470 | Raises the counter and makes SYNC_OK pending, with the policy version if asked for; a failure leaves at most the version unwritten. Managed rows stay managed. |
| UIStorage.UIStorageImpl.ApplicationsUpdated | storage/src/UIStorageImpl.cc:472-483 | Announces every application of the list, one counter increment each, and no other. |
| UIStorage.UIStorageImpl.ResetApplication | storage/src/UIStorageImpl.cc:27-38 | Stores SYNC_WILL_RESET and raises the counter even if that fails. Managed rows stay managed. |
| UIStorage.UIStorageImpl.ApplicationClaimed | storage/src/UIStorageImpl.cc:214-239 | Stores row, certificate and manifest, or leaves the tables as they were unless taking back the insertion fails; except then managed rows stay managed and the new one is. |
| UIStorage.UIStorageImpl.InstallMembership | storage/src/UIStorageImpl.cc:319-338 | Success stores the certificate for a group and an application that exist and announces it; managed rows stay managed in any case. |
| UIStorage.UIStorageImpl.RemoveMembership | storage/src/UIStorageImpl.cc:340-360 | Success removes exactly that certificate and announces it. |
| UIStorage.UIStorageImpl.UpdatePolicy | storage/src/UIStorageImpl.cc:362-397 | Success stores a policy with an explicit version as it is, one with version 0 under the stored version plus 1, and announces it; a policy that is not newer changes nothing. With a database that works it succeeds exactly if the deny rules are valid, the application is managed and the version is 0 or newer. |
| UIStorage.UIStorageImpl.RemovePolicy | storage/src/UIStorageImpl.cc:404-411 | Success removes the policy and announces it. |
| UIStorage.UIStorageImpl.UpdateIdentity | storage/src/UIStorageImpl.cc:413-441 | Success replaces certificate and manifest and announces both; managed rows stay managed in any case. |
| UIStorage.UIStorageImpl.RemoveGroup | storage/src/UIStorageImpl.cc:65-82 | Success leaves no membership certificate of the group. If the lookup works, every application that had one is announced, so that it is pending or waits for a reset, and the counter rises by their number. If it fails, exactly those are announced that it had returned, and every affected application is then pending or waits for a reset if and only if these are all that were SYNC_OK. |
| UIStorage.UIStorageImpl.RemoveIdentity | storage/src/UIStorageImpl.cc:105-128 | Success leaves no certificate of the identity. If the lookup works, every holder is marked with SYNC_WILL_RESET, the counter rises by their number and rows stay managed. If it fails, exactly those are marked that it had returned, and rows stay managed if and only if these are all holders that did not wait for a reset already. |
| UIStorage.UIStorageImpl.ResetApplications | storage/src/UIStorageImpl.cc:120-126 | The loop marks every application of the list, one counter increment each, and no other. |
| UIStorage.GroupRemovalReachesAllExactly | storage/src/SQLStorage.cc:1554-1602 | The reason for the former: which rows a group removal reaches, whatever part of the affected applications was looked up. |
| UIStorage.IdentityRemovalIsManagedExactly | storage/src/UIStorageImpl.cc:105-128 | The reason for the latter. |
| SqlStorage.AnnouncedRowExactly | storage/src/UIStorageImpl.cc:443-470 | Only SYNC_OK becomes SYNC_PENDING, and only then and if asked for does a stored policy get its version plus 1; nothing else of a row changes. |
| SqlStorage.SQLStorage.UpdateApplication | storage/src/SQLStorage.cc:35-121 | Stores the state of an existing row and, as a second write, the next policy version; never anything else. |
| SqlStorage.SQLStorage.RemoveApplication | storage/src/SQLStorage.cc:123-173 | Deletes the row and with it the certificates of the application, and nothing of other applications. |
| SqlStorage.SQLStorage.RemoveGroup | storage/src/SQLStorage.cc:967-981 | Deletes the group and exactly its certificates; lists, each once, applications that had one: all of them if the lookup works, and what it found if it fails half-way. With a database that works it succeeds exactly if the group exists under this authority. |
| SqlStorage.SQLStorage.RemoveIdentity | storage/src/SQLStorage.cc:1067-1081 | Deletes the identity and exactly its certificates; lists, each once, applications that had one: all of them if the lookup works, and what it found if it fails half-way. With a database that works it succeeds exactly if the identity exists under this authority. |
| SqlStorage.InSomeOrder | storage/src/SQLStorage.cc:1866-1941 | The rows of a query come in some order, each once. |
| SqlStorage.SomeOf | storage/src/SQLStorage.cc:1911-1939 | A query that fails half-way has returned some of its rows, each once. |
| SqlStorage.SQLStorage.InsertApplication | storage/src/SQLStorage.cc:35-121 | Success adds a row without manifest and policy for an application that had none; failure changes nothing. |
| SqlStorage.SQLStorage.GetManagedApplication | storage/src/SQLStorage.cc:463-539 | The stored state; END_OF_DATA only if there is no row. |
| SqlStorage.SQLStorage.GetPolicy | storage/src/SQLStorage.cc:385-403 | The stored policy; END_OF_DATA only if there is none. |
| SqlStorage.SQLStorage.StorePolicy | storage/src/SQLStorage.cc:632-651 | Success sets the policy of the row, if there is one, and touches no other row. |
| SqlStorage.SQLStorage.RemovePolicy | storage/src/SQLStorage.cc:567-630 | Success clears the policy of the row and touches no other row; an application without row is rejected. |
| SqlStorage.SQLStorage.StoreManifest | storage/src/SQLStorage.cc:541-565 | Success sets the manifest of the row, if there is one, and touches no other row. |
| SqlStorage.SQLStorage.StoreIdentityCertificate | storage/src/SQLStorage.cc:653-712 | Success needs the row and the identity, and without update that there was no certificate; it stores this one. |
| SqlStorage.SQLStorage.StoreMembershipCertificate | storage/src/SQLStorage.cc:653-712 | Success needs the row and the group and that there was no certificate for them. |
| SqlStorage.SQLStorage.RemoveMembershipCertificate | storage/src/SQLStorage.cc:862-941 | Success removes exactly the certificate of this application and group. |
| SqlStorage.SQLStorage.GetMembershipCertificates | storage/src/SQLStorage.cc:714-762 | Success returns exactly the certificate ids stored for the application. |
| SqlStorage.SQLStorage.GetIdentityCertificate | storage/src/SQLStorage.cc:764-860 | The stored certificate; END_OF_DATA only if there is none. |
| SqlStorage.SQLStorage.GetManifest | storage/src/SQLStorage.cc:362-383 | The stored manifest; END_OF_DATA only if there is none. |
| SqlStorage.SQLStorage.GetInfo | storage/src/SQLStorage.cc:1452-1532 | Success means that the group or identity exists under this authority. |
| StorageRefinement.AnnouncedRowRefines | storage/src/UIStorageImpl.cc:443-470 | The row that ApplicationUpdated stores is the one after the announcement step of the protocol. |
| StorageRefinement.InstallMembershipRefines | storage/src/UIStorageImpl.cc:319-338 | The tables after the call are those after its write and announcement steps. |
| StorageRefinement.RemoveMembershipRefines | storage/src/UIStorageImpl.cc:340-360 | The same for the removal of a membership. |
| StorageRefinement.UpdatePolicyRefines | storage/src/UIStorageImpl.cc:362-397 | The call gets past its version check step exactly if the policy is acceptable; then the check, store and announcement steps lead to the tables that a successful call leaves behind. |
| StorageRefinement.RemovePolicyRefines | storage/src/UIStorageImpl.cc:404-411 | The same for the removal of a policy. |
| StorageRefinement.UpdateIdentityRefines | storage/src/UIStorageImpl.cc:413-441 | The same for the two writes and the announcement of a new identity. |
| StorageRefinement.ResetApplicationRefines | storage/src/UIStorageImpl.cc:27-38 | The same for ResetApplication and the step that marks the row. |
| StorageRefinement.GroupRemovedRefines | storage/src/SQLStorage.cc:1554-1602 | Deleting a group in the database is one step that takes its memberships from all applications. |
| StorageRefinement.IdentityRemovedRefines | storage/src/SQLStorage.cc:1554-1602 | Deleting an identity in the database is one step that takes its certificates from all applications. |
| StorageRefinement.RemoveGroupRefines | storage/src/UIStorageImpl.cc:65-82 | A successful RemoveGroup is that step followed by one announcement for each application looked up, with the counter raised as often. |
| StorageRefinement.RemoveIdentityRefines | storage/src/UIStorageImpl.cc:105-128 | A successful RemoveIdentity is that step followed by one mark for each application looked up, with the counter raised as often. |
| StorageRefinement.ApplicationClaimedRefines | storage/src/UIStorageImpl.cc:214-239 | The tables after a committed claim are those after its three steps. |
| StorageRefinement.UpdatesCompletedRefines | storage/src/UIStorageImpl.cc:168-212 | Each outcome of UpdatesCompleted changes the tables as the completion step does. |
| StorageRefinement.WritesLeaveOthers | storage/src/SQLStorageSettings.h:58-80 | Writes to one application do not change what the tables say about another. |
| StorageRefinement.RemovalsLeaveOthers | storage/src/SQLStorageSettings.h:58-80 | Nor do cascading removals. |
| ApplicationUpdater.UpdateApplication | agent/src/ApplicationUpdater.cc:297-413 | For any behaviour of other threads: at most one iteration more than counter increments; SYNC_OK stored only at the counter of the last iteration; a row removed only after the device was reset or reported unclaimed; a transaction that pushed everything does not end before the row is written, unless the database fails. Without other threads and failures: from SYNC_OK or SYNC_PENDING, with certificate and manifest and a claimed device, it returns ER_OK, the device has what is stored and the row says SYNC_OK; from SYNC_WILL_RESET the device is reset and the application is in no table any more. |
| ApplicationUpdater.Iterate | agent/src/ApplicationUpdater.cc:320-410 | One iteration reports to the storage at most once, under the transaction id it was given, and goes on exactly after a restart, with a larger id; undisturbed it completes the transaction. |
| ApplicationUpdater.RestartsAreBounded | agent/src/ApplicationUpdater.cc:396-409 | Reports that restart the transaction one after the other are no more than the counter was raised in between. |
| ApplicationUpdater.Update | agent/src/ApplicationUpdater.cc:320-393 | One iteration: reset if that was decided, otherwise collect and push; success means that the device has what was collected. |
| ApplicationUpdater.Push | agent/src/ApplicationUpdater.cc:382-391 | Memberships, identity and policy in this order: a changed identity or policy means that all memberships are there, a changed policy that the identity is. Wherever it stops, the device is between old and new; if the device answers, nothing stops it. |
| ApplicationUpdater.Collect | agent/src/ApplicationUpdater.cc:341-369 | Without other threads, success returns exactly what is stored; with them it may be torn. |
| ApplicationUpdater.UpdateMemberships | agent/src/ApplicationUpdater.cc:201-231 | Issues a prefix of the plan; success leaves exactly the stored ids; an interruption keeps what old and new share, adds nothing foreign, and removed nothing before every missing certificate was installed. |
| ApplicationUpdater.InstallMissingMemberships | agent/src/ApplicationUpdater.cc:125-161 | Requests the installation of the certificates the device lacks, in order, up to the first failure, and nothing else. |
| ApplicationUpdater.RemoveRedundantMemberships | agent/src/ApplicationUpdater.cc:163-199 | Requests the removal of the certificates the storage lacks, in order, up to the first failure, and nothing else. |
| ApplicationUpdater.IsListed | agent/src/ApplicationUpdater.cc:140-145 | The inner search loop finds a certificate if and only if it is in the list. |
| ApplicationUpdater.UpdateIdentity | agent/src/ApplicationUpdater.cc:233-295 | Success means that the device has the stored chain; nothing is sent if it had it. |
| ApplicationUpdater.IdentityDiffers | agent/src/ApplicationUpdater.cc:250-266 | The comparison loop finds a difference if and only if there is one. |
| ApplicationUpdater.UpdatePolicy | agent/src/ApplicationUpdater.cc:72-123 | Success means that the device reports the stored version, and a policy with another version than the one on the device is the one there afterwards; nothing is sent when the versions agree. |
| ApplicationUpdater.ResetApplication | agent/src/ApplicationUpdater.cc:30-70 | A device reported as NOT_CLAIMABLE or CLAIMABLE is left alone; any other one is asked to reset, and success means that it is unclaimed then; failure leaves it as it was. |
| ApplicationUpdater.IsSameCertificate | agent/src/ApplicationUpdater.cc:485-501 | The byte-wise comparison is equality of serial and authority key id. |
| MembershipPlan.PlanReaches | agent/src/ApplicationUpdater.cc:201-231 | Carrying out the plan leaves exactly the stored ids. |
| MembershipPlan.PartOfPlanIsSafe | agent/src/ApplicationUpdater.cc:218-228 | Every prefix of the plan leaves the device between the intersection and the union of old and new, and loses nothing before everything missing is there. |
| MembershipPlan.PlanEmptyExactly | agent/src/ApplicationUpdater.cc:136-196 | Nothing is requested if and only if device and storage have the same ids. |
| MembershipPlan.PlanIsIdempotent | agent/src/ApplicationUpdater.cc:201-231 | A second reconciliation issues no request. |
| MembershipPlan.PlanIsShortest | agent/src/ApplicationUpdater.cc:125-199 | With distinct ids, no other sequence of requests with the same result is shorter. |
| Claiming.PendingClaims.Init | agent/src/SecurityAgentImpl.h:174-189 | Lists the application exactly if it is not listed. |
| Claiming.PendingClaims.Release | agent/src/SecurityAgentImpl.h:191-204 | Erases the entry of this claim and no other. |
| Claiming.ClaimCache.Start | storage/src/AJNCaStorage.cc:81-87 | Certificate and manifest of a claim are cached under the application. |
| Claiming.ClaimCache.Finish | storage/src/AJNCaStorage.cc:90-102 | Takes the cached entry out. |
| Claiming.SuccessCommitsWhatWasSent | agent/src/SecurityAgentImpl.cc:395-511 | In every interleaving of claims, a claim that returns ER_OK has stored SYNC_OK with the certificate and manifest the device received: the manifest approved and the certificate issued in this claim. |
| Claiming.OneClaimPerApplication | agent/src/SecurityAgentImpl.h:174-204 | Never are two claims of one application active at the same time. |
| Claiming.AdmittedExactly | agent/src/SecurityAgentImpl.h:174-189 | In every run a claim is admitted if and only if the application has no other active claim. |
| Claiming.StepKeepsInv | storage/src/AJNCaStorage.cc:90-112 | Every step keeps: exactly the listed applications have an active claim, and one each; the cache holds what it put there. |
| Claiming.FailedCommitIsUndoneExactly | storage/src/UIStorageImpl.cc:232-235 | A failed commit leaves no row if and only if taking back the insertion works, and the device is to be reset either way. |
| Claiming.WorkingClaimSucceeds | agent/src/SecurityAgentImpl.cc:395-511 | A claim of an unclaimed application without a row on which everything works succeeds with its seventh move and not before, whatever claims of other applications do. |
| Claiming.WorkingClaimCanMove | agent/src/SecurityAgentImpl.cc:395-511 | Until then such a claim can always make a further move that works. |
| Claiming.FailedClaimIsResetExactly | agent/src/SecurityAgentImpl.cc:489-509 | In every run, a claim that fails after the device accepted it leaves the device unclaimed if and only if its reset works; a claim that fails earlier does not touch the device. |
| Serials.HexRoundTrip | storage/src/SQLStorage.cc:405-461 | The hexadecimal rendering can be read back, hence is injective. |
| Serials.HexInjective | storage/src/SQLStorage.cc:405-461 | Different counters are rendered differently. |
| Serials.HexIsPlain | storage/src/SQLStorage.cc:405-461 | The rendering has only digits and lower-case letters a to f, and no leading zero. |
| Serials.SerialTable.InitSerialNumber | storage/src/SQLStorage.cc:1758-1802 | Starting up again leaves an existing counter alone; it succeeds only if the query works and there is a counter. |
| Serials.SerialTable.GetNewSerialNumber | storage/src/SQLStorage.cc:405-461 | Hands out the rendered counter and then stores its increment; hands out nothing if the query fails or there is no counter. |
| Serials.SerialCounts | storage/src/SQLStorage.cc:405-461 | The serial of a certificate is the rendering of 1 plus the number of serials handed out and counted before it. |
| Serials.SerialsDistinctExactly | storage/src/AJNCaStorage.cc:166-170 | Over any run with restarts and below int overflow, the serials of all signed certificates are distinct if and only if no failed update was followed by another issue and at most one certificate was signed without a serial. |
| TaskQueues.TaskQueue.AddTask | agent/src/TaskQueue.h:66-83 | Appends the task and has a worker running, unless the queue is stopped; then it changes nothing. |
| TaskQueues.TaskQueue.HandleTasks | agent/src/TaskQueue.h:104-121 | What a worker does between two handler calls is the continue step. |
| TaskQueues.TaskQueue.Stop | agent/src/TaskQueue.h:50-64 | Sets the stop flag and takes one round of waiting. |
| TaskQueues.TaskQueue.AwaitWorker | agent/src/TaskQueue.h:54-62 | A further round of waiting; joins the worker once none runs. |
| TaskQueues.Safety | agent/src/TaskQueue.h:66-121 | In all interleavings: handler calls never overlap, waiting tasks have a live worker, and the handled tasks are a prefix of the accepted ones. |
| TaskQueues.AcceptedExactly | agent/src/TaskQueue.h:66-71 | In every run the accepted tasks are those added before the stop flag was set, in that order. |
| TaskQueues.HandledExactly | agent/src/TaskQueue.h:104-113 | In every run the handled tasks are those with which a worker entered the handler, in that order. |
| TaskQueues.StepKeepsInv | agent/src/TaskQueue.h:50-121 | Every step of callers and workers keeps: only the last worker is alive, it runs exactly if `running`, and deleted, held and listed tasks are the accepted ones in order. |
| TaskQueues.NothingSkippedBeforeStop | agent/src/TaskQueue.h:104-121 | Until the stop flag is set no accepted task is skipped. |
| TaskQueues.TasksGetHandled | agent/src/TaskQueue.h:66-121 | While tasks wait a worker step is possible, and once none is possible without Stop every task that was added has been handled; a caller of AddTask only ever waits for a worker that can go on. |
| TaskQueues.WorkShrinks | agent/src/TaskQueue.h:104-121 | Every worker step brings the queue nearer to having handled everything, stopped or not. |
| TaskQueues.StoppedMeansShutDown | agent/src/TaskQueue.h:50-64 | When a call of Stop has returned, the list is empty, no worker exists and every accepted task was deleted once. |
| TaskQueues.NothingHappensAfterStop | agent/src/TaskQueue.h:50-83 | From then on nothing is accepted, started or handled. |
| TaskQueues.StoppedWorkShrinks | agent/src/TaskQueue.h:104-121 | After the stop flag every worker step reduces the remaining work, which nothing increases. |
| TaskQueues.CallersAreKept | agent/src/TaskQueue.h:50-64 | From the moment Stop is called the stop flag stays set, and the caller waits, has been woken or has returned. |
| TaskQueues.StopIsNotStranded | agent/src/TaskQueue.h:50-64 | As long as work remains a worker step is possible; when none remains every waiting caller of Stop has been woken and can return. |
| Manifests.Manifest.Difference | agent/src/Manifest.cc:291-365 | The nested erasing loops compute `Diff`. |
| Manifests.Manifest.SetFromRules | agent/src/Manifest.cc:201-255 | Replaces the rules by any that are not empty, even if they cannot be marshalled; an empty list is rejected and changes nothing. |
| Manifests.EraseMatching | agent/src/Manifest.cc:313-352 | The loop that clears masks and erases exhausted members computes `Subtract`. |
| Manifests.ClearMatching | agent/src/Manifest.cc:330-340 | The innermost loop clears the actions of all matching members. |
| Manifests.EraseRule | agent/src/Manifest.cc:318-349 | The loop over the right-hand rules leaves the members that remain after all of them. |
| Manifests.EraseRules | agent/src/Manifest.cc:315-358 | The loop over the left-hand rules computes `Diff`, erasing rules without members. |
| Manifests.Manifest.GetRules | agent/src/Manifest.cc:90-124 | The rules of the only ACL; END_OF_DATA exactly if there are none. |
| Manifests.DiffExact | agent/src/Manifest.cc:291-365 | The difference grants exactly the rights the left manifest grants and the right one does not. |
| Manifests.DiffDependsOnMeaning | agent/src/Manifest.cc:291-365 | Order, splitting and repetition of rules do not matter. |
| Manifests.DiffRulesHaveMembers | agent/src/Manifest.cc:313-362 | No rule without members is left. |
| Manifests.DiffKeepsOrder | agent/src/Manifest.cc:313-362 | The rules of the difference are rules of the left manifest, in their order and none repeated, with their remaining members; exactly those are listed that keep a member. |
| Manifests.RemainingKeepsOrder | agent/src/Manifest.cc:318-349 | The remaining members of a rule are members of that rule, in their order and none repeated, without exactly the actions that the right manifest grants; of the others nothing is left. |
| Manifests.DiffEmptyExactly | agent/src/Manifest.cc:313-362 | The difference is empty if and only if the left manifest is covered and none of its members without actions stands in an unmatched rule. |
| Manifests.ManifestUpdate.constructor | agent/inc/alljoyn/securitymgr/ManifestUpdate.h:45-52 | Additional and removed rules are the two differences; both are empty if a manifest has no rules. |
| Manifests.UpdateReconstructs | agent/inc/alljoyn/securitymgr/ManifestUpdate.h:45-52 | The new manifest is the old one without the removed and with the additional rights; additional is disjoint from old, removed from new. |
| Manifests.UpdateReconstructsExactly | agent/src/Manifest.cc:296-308 | The two lists of an update tell the whole change if and only if both manifests have rules or neither grants anything. |
| Manifests.ShownEmptyExactly | agent/src/Manifest.cc:296-362 | No rules are listed if and only if a manifest has no rules, or the other one covers it and every member without actions stands in a matched rule. |
| Manifests.NothingToApprove | agent/inc/alljoyn/securitymgr/ManifestUpdate.h:45-52 | Between manifests that have rules, with nonzero masks in the new one, there are no additional rules if and only if the old manifest covers the new one. |
| PolicyUtil.NormalizePolicy | agent/src/PolicyUtil.cc:98-111 | Every ACL keeps its peers; one with aligned keys gets its rules in normal form. |
| PolicyUtil.AddRules | agent/src/PolicyUtil.cc:64-77 | On aligned keys the loop over maps computes `WithRules`. |
| PolicyUtil.AddMembers | agent/src/PolicyUtil.cc:51-62 | On keys that MemberCompare orders the loop over members computes `WithMembers`. |
| PolicyUtil.SetRules | agent/src/PolicyUtil.cc:79-96 | The loop over maps writes their entries back in order. |
| PolicyUtil.BeforeExactly | agent/src/PolicyUtil.cc:28-46 | The order of the keys is that of a dictionary: the first difference decides, and a proper prefix comes first. |
| PolicyUtil.RuleOrderExactly | agent/src/PolicyUtil.cc:38-46 | RuleCompare is a strict order on a set of keys if and only if no two keys are ascending in one component and descending in the other. |
| PolicyUtil.MemberOrderExactly | agent/src/PolicyUtil.cc:28-36 | The same for MemberCompare. |
| PolicyUtil.MixedTypesAreUnordered | agent/src/PolicyUtil.cc:28-36 | Two members whose names ascend while their types descend are enough for MemberCompare not to be an order. |
| PolicyUtil.NormalKeepsMasks | agent/src/PolicyUtil.cc:51-111 | On aligned keys the normal form has the same keys with the same ORed masks. |
| PolicyUtil.NormalKeepsRights | agent/src/PolicyUtil.cc:51-111 | On aligned keys the normal form grants exactly the same rights. |
| PolicyUtil.MasksExact | agent/src/PolicyUtil.cc:51-77 | The ORed masks per key grant exactly what the rules grant. |
| PolicyUtil.NormalIsCanonical | agent/src/PolicyUtil.cc:98-111 | On aligned keys, lists with the same keys and ORed masks have the same normal form. |
| PolicyUtil.CanonicalExactly | agent/src/PolicyUtil.cc:28-111 | The normal form is canonical on a space of keys if its keys are aligned, and only if they are as far as a map that is searched linearly goes. |
| PolicyUtil.NormalIsIdempotent | agent/src/PolicyUtil.cc:98-111 | On aligned keys a second normalisation changes nothing. |
| PolicyUtil.NormalIsSorted | agent/src/PolicyUtil.cc:79-96 | On aligned keys rules and members are strictly ascending, so that no key occurs twice. |
| PolicyUtil.NormalIsInDictionaryOrder | agent/src/PolicyUtil.cc:79-96 | On aligned keys, neither the interface nor the path of a later rule comes earlier in a dictionary than that of an earlier rule, and one of them differs. |
| PolicyUtil.NormalMembersAreInDictionaryOrder | agent/src/PolicyUtil.cc:79-96 | The same for the names and types of the members of a rule. |

## Left out

- SQLite statements, bindings, encodings and database files; the empty-key checks of each call.
- The bus, sessions, authentication and marshalling; byte arrays and digests of manifests.
- The manifest on the device: whether a device accepts a certificate depends on its own digest check.
- Listener notifications, and the agent's own copy of sync states, which they keep only loosely up to date.
- Forced removal of an application during a transaction, and several agents on one storage.
- Several updaters of one application, except for what `ResetProtocol` proves.
- Certificate signing, key generation, validity periods, PolicyGenerator and metadata accessors.
- The refinement of calls that fail half-way: their single steps are events of the protocol, but only calls run to success are related to it in `StorageRefinement`.
- UIStorage.UIStorageImpl.RemoveGroup: promises that all affected applications are announced only if the lookup works, because the code ignores a lookup that fails half-way.
- UIStorage.UIStorageImpl.RemoveIdentity: promises that all holders are marked only if the lookup works, for the same reason.
- PolicyUtil.NormalizePolicy: promises nothing about the rules of an ACL whose keys are not aligned, because std::map has no defined behaviour for them.
- UIStorage.UIStorageImpl.ApplicationClaimed: is all-or-nothing only if the removal that takes back the insertion works, because the code ignores its result.
- ApplicationUpdater.UpdateIdentity: does not model the manifest update that is sent to listeners when an application needs an update; `Manifests` has its contents.
- Samples, command line, tests, build scripts and logging.
