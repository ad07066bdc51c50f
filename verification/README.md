# secret-bunker-iroh: a verified model

The repository is a secret store whose authoritative node keeps groups of
secrets, each group sealed under versioned data-encryption keys (DEKs) that
are wrapped to the node's operational key, to an offline backup key and to
every identity with explicit read. Replicas mirror the groups they may read
over a push protocol, and a Kubernetes operator renders mirrored secrets into
cluster Secrets. The project models those parts and proves what holds over
whole runs of them.

Each file holds the module of its name. How they fit together:

- `Base`, `Encoding`, `Crypto`: bytes and byte layouts, symbolic keys and ciphertexts.
- `Tables`, `Transactions`, `Requests`, `Maintenance`, `Runs`: the database as a
  value, each store transaction, the request machine, recovery and rescue
  grants, and runs of them all. `Access` states who may ask what, and what
  an accepted request does, on the rows themselves. `PlainBunker` is a bunker
  without keys that every run refines. `VersionedMap`, `Revocation`,
  `Administration` and `Notification` prove further properties of runs and steps.
- `Storage`, `Server`: the same database and node as objects, with the loops of
  the code, proved against the transactions and the request machine.
  `Audit` is the hash chain and `RequestLog` what a request adds to it.
- `Mirror`, `Convergence`, `Resync`, `Replay`: what a replica does to its
  mirror. `ReplicaNode` is the replica as an object, `FullResync` what its
  whole resync achieves.
- `Protocol`, `SyncSafety`, `ReplicaReads`: both nodes, the session stream and
  the event channel as one state machine, and what every reachable state keeps.
  `ReplicaRuns` shows the replica's methods to be runs of it.
- `Framing`, `Manifest`, `Snapshots`: the manifest on the wire.
- `Offline`, `Recovery`, `Operator`: migration and backfill, how recovery and
  the rescue grant run, and the operator's reconcile.

## Modelling choices

- Cryptography is symbolic. A wrap opens with the private half of its key
  only, a ciphertext opens with the same DEK, associated data and nonce only
  (section 2.8 of RFC 8439).
- Random draws do not repeat. Each request has a tick; the DEKs it generates
  are identified by the tick and the group, its nonce by the tick.
- A transaction is all or nothing, and database errors do not occur. Versions
  are natural numbers; the overflow check on `expected_version` is kept.
- Listings ordered by a unique name are given as the map or set they list, or
  as a sequence in any order.
- Identity rows are keyed by endpoint, which never changes while a row lives.
- A request and its announcement are one step of the sync protocol, because
  events are sent while the store lock is held (`src/server.rs:197-225`).
  Every other lock acquisition is a step of its own.
- Offline maintenance is documented as run with the service stopped
  (`src/main.rs:102`, `README.md:347`), so it ends the session.
- Hash functions are parameters. That no collision occurs is assumed of the
  inputs at hand, never of all inputs.

## Where the code and a stated property differ

- `put` answers some conflicts before it encrypts, on the grounds that the
  store would reject them anyway (`src/server.rs:389-403`). With versions as
  natural numbers this is so except when both the current and the expected
  version are 2^64 - 1 (`VersionedMap.PutAnswersLikeTheStore`). In the code that
  state is out of reach: the additions at `src/server.rs:381` and
  `src/store.rs:1294` would overflow there, and the database stores versions as
  signed 64-bit numbers. Below 2^63 the two answers always agree
  (`VersionedMap.PutAgreesInRange`).
- The documentation of the frame cap does not promise that a manifest fits it:
  chunks count entries, not bytes. `Manifest.SendManifest` states when sending
  succeeds.

## Model

| member | source | states |
|---|---|---|
| `Runs.WrapInvariant` | src/store.rs:699-827 | In every state reachable from `init`, maintenance included, a wrap row exists iff its version is retained and its recipient is operational, backup or an explicit reader; the wraps of a version hide one DEK; every stored secret version names a retained DEK version |
| `Runs.RunKeepsInv` | src/server.rs:255-312 | Every run of requests, rescue grants and recoveries keeps the database invariant (exact wraps, one DEK per version, distinct DEKs, sealed secrets, unique names, no dangling ACL row) |
| `Runs.StepKeepsInv` | src/server.rs:197-225 | One request of any of the 14 kinds, from any caller, keeps that invariant |
| `Runs.NextKeepsInv` | src/main.rs:492-589 | A rescue grant or a recovery, carried out or refused, keeps that invariant as a request does |
| `Transactions.CommitKeepsInv` | src/store.rs:421-827 | Every store transaction keeps that invariant |
| `Transactions.RevokeKeeps` | src/store.rs:734-772 | Dropping a reader's wraps and rotating leaves exact wraps, and the new DEK is the current one |
| `Transactions.GrantKeeps` | src/store.rs:699-727 | Granting read with the re-wrapped versions leaves exact wraps |
| `Requests.DecideEstablishes` | src/server.rs:354-837 | A handler only commits a transaction whose preconditions its checks have established |
| `PlainBunker.RunRefines` | src/server.rs:255-312 | Over every run of requests, rescue grants and recoveries, the node with its keys forgotten is where a bunker without keys is, and gives its answer to each of the fourteen requests, refusals and their reasons included |
| `PlainBunker.StepRefines` | src/server.rs:354-837 | One request has the plain answer and the plain effect on identities, ACL rows and every stored version with its author |
| `PlainBunker.NeverAnInternalError` | src/server.rs:340-352 | No reachable state answers any request with an internal error |
| `PlainBunker.RecoverableIff` | src/main.rs:841-865 | The recorded backup key always recovers, and no other key does once there is a group |
| `Access.DeniedUnlessEntitled` | src/server.rs:855-868 | Each of the fourteen requests is denied iff its caller is not registered, or is no service admin and has no ACL row with the bit it needs, or the group or secret is missing, or it is a service operation of a caller without the flag |
| `Access.GrantWritesPerms` | src/server.rs:725-809 | An accepted grant sets the row of the identity so named to exactly the permissions named, or deletes it for zero, and changes no other ACL row, identity or secret |
| `Access.DeleteComparesVersions` | src/server.rs:441-464 | A delete by a caller that may write succeeds iff the secret is stored at the expected version, and removes it alone; otherwise it answers the stored version, 0 if absent, and changes nothing |
| `Access.RegistrationAndCreation` | src/server.rs:466-525 | A new identity carries the name and flag asked for and no row; a new group has one row, its creator's, with all three bits, and no secrets |
| `Access.FlagSetAsAsked` | src/server.rs:630-668 | A service-admin edit sets the flag asked for on the identity so named and nothing else |
| `Access.ListingsListTheRows` | src/server.rs:918-968 | List, GroupAcl and ListIdentityNames contain exactly the stored names with versions, the ACL rows with names, and the registered names |
| `Access.DirectoryListsTheRows` | src/server.rs:317-338 | ListIdentities contains exactly the identity rows; ListGroups every group with all bits for a service admin, else exactly the caller's own rows |
| `Access.AnnouncesOnlyWhatItTouches` | src/server.rs:231-253 | Only a group the request names, or on which the removed identity had a row, is announced |
| `VersionedMap.GetReturnsLastWrite` | src/server.rs:875-915 | Over every run, Get gives a service admin, or a registered caller whose ACL row has the read bit, the value and version of the last applied Put since the last applied Delete, through rotations, grants, revocations, removals, rescue grants and recoveries, and denies everyone else |
| `VersionedMap.ListReturnsLastWrites` | src/server.rs:918-930 | Over every run, List gives such a caller exactly the secrets written and not deleted since, each with the version of its last write |
| `VersionedMap.OperationalOpens` | src/server.rs:888-899 | Under the invariant the operational key opens every stored secret to its plaintext |
| `VersionedMap.PutAnswersLikeTheStore` | src/server.rs:380-403 | The answer of a Put by a caller that may write equals the store's compare-and-set iff not both the expected and the current version are 2^64 - 1, versions being natural numbers |
| `VersionedMap.PutAgreesInRange` | src/server.rs:389-403 | While the current version is one the database can store, the early answers always equal the compare-and-set |
| `VersionedMap.PutRefusesTheLastVersion` | src/server.rs:393-397 | The concrete state of the natural-number model in which the two answers differ |
| `Revocation.NeverHeld` | src/server.rs:754-801 | In every run, an endpoint that cannot read a group has in no earlier state of the run held a wrap of the DEK now current for the group |
| `Revocation.RevocationIsForward` | src/server.rs:527-608 | Every write to a group is sealed under a DEK that an endpoint without read has held no wrap of, in any state of the run |
| `Administration.AlwaysAServiceAdmin` | src/server.rs:527-554 | After `init`, every reachable state has a service admin |
| `Administration.LastAdminGoesByRemovalOnly` | src/server.rs:670-723 | A request leaves a group without explicit admins iff it removes the identity that was its only one; no grant or service-admin edit does |
| `Administration.RescueMayDropTheLastAdmin` | src/main.rs:492-589 | A rescue grant, which has no such guard, leaves a group without admins iff it takes the bit from its only one |
| `Notification.NotificationComplete` | src/server.rs:231-253 | A group that a request does not announce keeps its ACL rows with names, DEK versions, wraps and secrets |
| `Notification.RefusedChangesNothing` | src/server.rs:990-1001 | A request answered Denied, conflict or failed changes no table and announces nothing |
| `Storage.InsertDekVersion` | src/store.rs:806-827 | The loop that inserts a DEK version and its wraps succeeds iff no primary key clashes, and then adds the next version with exactly the listed wraps |
| `Storage.NextDekVersion` | src/store.rs:811-815 | The next version is one more than the largest recorded, 1 when there is none |
| `Storage.Store.CreateGroup` | src/store.rs:421-453 | A group is created with DEK version 1, the listed wraps and the creator's row, or not at all |
| `Storage.Store.AddIdentity` | src/store.rs:363-369 | Succeeds iff neither name nor endpoint is registered; a clash inserts nothing |
| `Storage.Store.SetPerms` | src/store.rs:478-492 | Writes the ACL row, or deletes it for permission zero, and nothing else |
| `Storage.Store.GrantWithWraps` | src/store.rs:699-727 | The ACL row and the grantee's wraps land together, only for perms with read |
| `Storage.Store.RevokeReadAndRotate` | src/store.rs:734-772 | ACL change, deletion of the revoked wraps and the new DEK version land together or not at all |
| `Storage.Store.AddDek` | src/store.rs:571-577 | Appends a DEK version with a nonempty set of wraps, or changes nothing |
| `Storage.Store.RemoveIdentityWithRotations` | src/store.rs:777-802 | Deletes the identity, cascades its ACL rows and rotates every listed group, or leaves all tables as they were; succeeds whenever the identity exists and the wraps do not clash |
| `Storage.Store.PutSecret` | src/store.rs:1260-1306 | Compare-and-set write: applies iff the expected version is the current one (0 for absent), and then only appends the next version |
| `Storage.Store.DeleteSecret` | src/store.rs:1309-1334 | Compare-and-set delete, with the conflicting version otherwise |
| `Server.WrapSetForGroup` | src/server.rs:138-153 | The loop yields exactly one wrap for operational, backup and each explicit reader other than the excluded one |
| `Server.WrapsForNewReader` | src/server.rs:158-171 | Re-wraps every retained version exactly once, iff the operational key opens all of them |
| `Server.PlanRemoves` | src/server.rs:556-585 | Carrying out one rotation per readable group on the cascaded rows equals the removal transaction on the whole database |
| `Server.Bunker.Put` | src/server.rs:354-439 | The handler's checks, sealing and compare-and-set carry out exactly the decided transaction and answer |
| `Server.Bunker.Delete` | src/server.rs:441-464 | The handler carries out exactly the decided transaction and answer |
| `Server.Bunker.CreateGroup` | src/server.rs:466-501 | The wraps built for the creator make the new group's wrap set |
| `Server.Bunker.AddIdentity` | src/server.rs:503-525 | The handler carries out exactly the decided transaction and answer |
| `Server.Bunker.RemoveIdentity` | src/server.rs:527-608 | Guards, rotations and removal carry out exactly the decided transaction and answer |
| `Server.Bunker.SetServiceAdmin` | src/server.rs:630-668 | The handler carries out exactly the decided transaction and answer |
| `Server.Bunker.Grant` | src/server.rs:670-810 | The guards and the three branches on the read bit carry out exactly the decided transaction and answer |
| `Server.Bunker.Rotate` | src/server.rs:812-837 | The wraps built for every reader make a rotation |
| `Server.Bunker.Handle` | src/server.rs:197-225 | Handling a request is one step of the request machine: same tables, same answer, exactly the prescribed groups announced, each once, and exactly the prescribed audit rows appended to a log that stays chained |
| `RequestLog.Record` | src/server.rs:213-216 | Appends a rotate-dek row per rotated group and then the request's own row, and keeps the chain |
| `RequestLog.RotationsAreRecorded` | src/server.rs:779-790 | The DEK versions of an existing group change iff the request has a rotate-dek row for it on the side or is its rotation |
| `RequestLog.OkMeansSucceeded` | src/server.rs:990-1001 | The recorded outcomes tell the answers apart, and "ok" is recorded iff the request is one whose groups are announced |
| `Encoding.BuildSecretAad` | src/crypto.rs:74-84 | The buffer loop produces the associated-data layout |
| `Encoding.SecretAadInjective` | src/crypto.rs:74-84 | Two secrets share associated data only if group, name, version and DEK version agree |
| `Encoding.FieldsInjective` | src/store.rs:1365-1368 | Lists of length-prefixed fields, even of different lengths, never share an encoding |
| `Encoding.ContentPreimageInjective` | operator/src/render.rs:65-74 | Equal pre-images of the content hash force equal data |
| `Audit.AuditLog.Append` | src/store.rs:1351-1376 | Appends one row that continues the chain; a chained log stays chained |
| `Audit.AuditLog.Verify` | src/store.rs:1380-1421 | Accepts exactly the chained logs, with their length and head, and otherwise reports the first row that departs |
| `Audit.HeadPinsContents` | src/store.rs:1438-1449 | Two chained logs of equal length with equal head hash agree on every row apart from the unhashed row id, if no hashes collide |
| `Framing.DeframeFrame` | src/sync.rs:130-158 | Deframing a frame gives its message and consumes exactly that frame, whatever follows |
| `Framing.AcceptsExactlyFrames` | src/sync.rs:143-158 | Deframing succeeds iff the bytes start with a frame under the cap whose body decodes |
| `Framing.PrefixIsTruncated` | src/sync.rs:143-158 | Every proper prefix of a frame is refused, with the error for where it was cut |
| `Framing.ErrorsInOrder` | src/sync.rs:143-158 | Which error is given, iff: short prefix, declared length over the cap, short body, undecodable body, in that order |
| `Framing.Sender.Write` | src/sync.rs:162-169 | Writes one frame iff the body is under the cap, otherwise nothing |
| `Manifest.SendSnapshot` | src/server.rs:1194-1226 | Sends the header and the chunks, at least one, iff every message fits |
| `Manifest.ChunksAreFull` | src/server.rs:1209-1214 | Every chunk but the last is full, none is over size, and one is empty only for an empty listing |
| `Manifest.SendManifest` | src/server.rs:1265-1274 | Sends every snapshot and the end mark iff every message fits |
| `Manifest.ReceiveManifest` | src/replica.rs:676-731 | The stash loop computes what reading the stream specifies, errors included |
| `Manifest.ManifestEnds` | src/replica.rs:682-731 | A manifest ends with its end mark, with a denial as the first reply only, or with an error; a stream that stops is an error |
| `Manifest.MergesLikeAFetch` | src/replica.rs:704-727 | For any messages, headers repeated or missing, what is stashed under a name is what a fetch of that group assembles from the messages about it |
| `Manifest.ManifestRoundTrip` | src/replica.rs:676-731 | For distinct names and any positive chunk size, reading the sent bytes gives back exactly the snapshots in order, empty groups included, whatever follows |
| `Manifest.ReceiveGroup` | src/replica.rs:954-994 | The fetch loop computes what reading the reply specifies, errors included |
| `Manifest.GroupEnds` | src/replica.rs:969-993 | A group fetch ends with its end mark, with a denial at any point, or with an error, messages about another group included |
| `Manifest.GroupRoundTrip` | src/replica.rs:954-994 | Reading the reply to a group fetch gives back the snapshot that was sent |
| `Snapshots.SnapshotGroup` | src/server.rs:1155-1189 | What the server reads is a snapshot of exactly what a replica mirrors: ACL with names, the caller's own wraps, current secret rows |
| `Mirror.EffectiveAclSpec` | src/store.rs:981-996 | An entry is kept iff no later entry has its name and no later kept entry has its endpoint; names and endpoints are distinct; a fixed point |
| `ReplicaNode.KeepLast` | src/store.rs:981-996 | The backward scan with its two sets computes that list |
| `ReplicaNode.SecretsNeedingFetch` | src/store.rs:948-966 | The loop computes the names whose local row differs, in the listing's order |
| `Convergence.NeedFetchRows` | src/store.rs:948-966 | The fetch list is, in order, the names whose stored current row is absent or differs in version, DEK version or nonce |
| `ReplicaNode.Replica.ApplyGroupSync` | src/store.rs:1011-1179 | The five rules, step by step, converge the group as specified for any input on a consistent mirror, never abort, and report exactly the changes |
| `ReplicaNode.Replica.ApplyGroupState` | src/replica.rs:844-902 | Fetches only if needed, applies and publishes; every secret row it changed has its DEK wrap in the mirror; rows are reported skipped iff some fetched row's DEK version is not in the state; the published events still replay to the listing |
| `Mirror.DecryptableSpec` | src/replica.rs:863-866 | What is kept is, in order, exactly what was fetched under a DEK version the state carries |
| `Convergence.WithheldUntilWrapped` | src/replica.rs:863-866 | Whatever was fetched, a secret row changed by the apply can be opened through a wrap the mirror then holds |
| `SyncSafety.ApplyWithholds` | src/replica.rs:787-812 | The same of the protocol's apply step, and the group is fetched once more iff a row had to be withheld |
| `Convergence.ApplyKeepsTheRest` | src/store.rs:1011-1179 | An apply deletes no DEK row, adds the listed ones, leaves a listed but unfetched secret as it was and keeps no unlisted one |
| `Convergence.SweepDeletesExactly` | src/store.rs:1203-1210 | The sweep deletes exactly the identities no ACL row names |
| `ReplicaNode.Replica.SyncOneGroup` | src/replica.rs:787-812 | One re-fetch after withheld rows, a drop on any denial; the result is the one that the lemmas on a single exchange below are about |
| `FullResync.SyncedOneAcl` | src/replica.rs:787-812 | Whatever is denied or withheld, the group ends up absent or with exactly the ACL of the state applied last |
| `FullResync.SyncedOneLeaves` | src/replica.rs:787-812 | Whatever is denied or withheld, no other group's ACL is disturbed |
| `FullResync.SyncedOneConverges` | src/replica.rs:787-812 | Against a quiet node nothing is denied or withheld and the group equals the node's |
| `FullResync.RefetchConverges` | src/replica.rs:796-808 | After an out-of-date state, the one re-fetch from a quiet node converges the group |
| `ReplicaNode.Replica.FullResync` | src/replica.rs:758-781 | Runs every exchange in order, drops exactly the groups the manifest lacks, sweeps identities and publishes; the result is the one that the resync lemmas below are about |
| `FullResync.FullResyncMirrorsAcls` | src/replica.rs:758-781 | For states of one identity table, any answers and any mirror, each manifest group ends up absent if denied, else with exactly the ACL of the state applied last; no other group is left |
| `FullResync.FullResyncSweeps` | src/replica.rs:758-781 | Whatever was answered, a resync ends with exactly the identities that some ACL row of the mirror names |
| `FullResync.ResyncMirrorsAcls` | src/replica.rs:758-781 | A group whose exchange is neither denied nor withheld ends the resync with exactly upstream's ACL, whatever identities the mirror held, swapped names and replaced keys included |
| `FullResync.FullResyncConverges` | src/replica.rs:758-781 | Against a quiet node, from any consistent mirror of rows that node once wrote, the mirror holds exactly the groups in scope afterwards, each equal to the node's in ACL, own wraps and secret rows |
| `ReplicaRuns.SyncOneIsRun` | src/replica.rs:787-812 | The exchange about one group against a quiet node is a run of protocol steps: diff, secrets, apply, at most one re-fetch, or a drop |
| `ReplicaRuns.FullResyncIsRun` | src/replica.rs:758-781 | A full resync against a quiet node is a run of protocol steps that ends live and idle |
| `ReplicaNode.Replica.DropLocal` | src/replica.rs:997-1008 | Drops the group and publishes its removal iff it was held |
| `Convergence.ApplyNeverWedges` | src/store.rs:1033-1080 | For any ACL and any local identities every kept entry finds its identity row under its own name, names stay unique and no ACL row dangles |
| `Convergence.ApplyConverges` | src/store.rs:1011-1179 | Applying a snapshot with just the rows its fetch list names makes the mirrored group equal upstream's view |
| `Convergence.ApplyLeavesOthers` | src/store.rs:1033-1057 | Applying a group leaves the view of every other group drawn from the same identity table alone, cascades included |
| `Resync.DiffReachesFixedPoint` | src/store.rs:948-966 | After such an apply the view is upstream's, the fetch list is empty and re-applying changes nothing |
| `Resync.ReapplyIsNoop` | src/store.rs:1011-1179 | Re-applying any state with nothing fetched changes no row and deletes no secret |
| `Replay.ReplayGivesListing` | src/replica.rs:873-896 | Folding the events of any sequence of applies, drops and sweeps gives exactly the mirror's listing, malformed fetched lists included |
| `SyncSafety.StepKeepsSysInv` | src/server.rs:1243-1320 | Every step of the composed protocol, on either side, keeps its invariant |
| `SyncSafety.NoLostUpdate` | src/replica.rs:665-826 | In every reachable state every group agrees with upstream, or something that makes the replica look at it again is outstanding |
| `SyncSafety.SettledAgrees` | src/replica.rs:736-751 | When nothing is outstanding in a live session, every group agrees with upstream |
| `ReplicaReads.ConvergedAnswersEqual` | src/replica.rs:335-372 | On an agreeing group the replica answers Get, List and GroupAcl as the authoritative node does, for every caller that is no service admin, through a different wrap |
| `ReplicaReads.SettledAnswersEqual` | src/server.rs:855-949 | After any run that settled, the same for every group in scope |
| `ReplicaReads.UniformAnswers` | src/server.rs:255-312 | A caller that is no service admin gets equal answers, to every request, from databases that differ only in groups it has no ACL row on; an unregistered one is denied and commits nothing |
| `ReplicaReads.UniformReplicaAnswers` | src/replica.rs:335-372 | The same of two mirrors, for every caller |
| `ReplicaReads.ReplicaDeniedUnlessEntitled` | src/replica.rs:335-372 | A replica denies exactly the callers without the ACL row they need, no flag counting for anything, and redirects every registered caller's mutation |
| `Offline.BackfillExact` | src/store.rs:832-847 | Backfilling makes the wraps exact iff base wraps are complete and every other wrap is entitled |
| `Offline.MigrationEstablishes` | src/store.rs:133-166 | A sound v1 database, migrated and backfilled, satisfies the whole invariant and keeps its ACLs, secrets, DEK versions and both wraps of each |
| `Offline.BackfillIdempotent` | src/server.rs:97-112 | An exact group has nothing missing, so a second backfill creates nothing |
| `Offline.BackfillReaderWraps` | src/server.rs:102-112 | The loop creates exactly the missing wraps and returns their number, or stops at the first DEK the operational key does not open with exactly the wraps before it in place |
| `Recovery.Recover` | src/main.rs:841-865 | Succeeds iff the backup key opens every backup wrap and each has an operational row, and then re-wraps all of them; otherwise changes nothing |
| `Recovery.ApplyRecovery` | src/store.rs:628-648 | Replaces every listed operational wrap and the recorded key, or nothing |
| `Maintenance.RecoveryKeepsInv` | src/store.rs:628-648 | Recovery keeps the whole database invariant under the new key |
| `Maintenance.RecoveryKeepsSecrets` | src/main.rs:841-865 | The new key opens every secret to the value the old key gave |
| `Maintenance.RecoveryReplacesTheKey` | src/store.rs:636-642 | Reader and backup wraps are untouched and a different old key opens no DEK any more |
| `Recovery.DbGrant` | src/main.rs:492-589 | Succeeds iff group and identity exist and, for gaining read, the operational key matches and opens every DEK; it then commits what a wire grant would and the row of the identity so named holds exactly the permissions named; otherwise nothing |
| `Recovery.RescueIsAdmitted` | src/main.rs:492-589 | A rescue grant keeps the invariant and every secret row, so the no-lost-update result covers runs with it |
| `Recovery.RecoveryIsAdmitted` | src/main.rs:841-865 | The same for recovery |
| `Operator.HashContent` | operator/src/render.rs:65-74 | The loop hashes the length-prefixed pairs in order |
| `Operator.StepLeavesForeign` | operator/src/reconcile.rs:212-223 | No API call writes or deletes a Secret the resource does not own |
| `Operator.AppliedDataSurvives` | operator/src/reconcile.rs:226-359 | Over every run of reconciles, from any cached copy of the resource, with any renames and rendered data and stopping after any call, once data has been applied an owned Secret carries the data applied last |
| `Operator.ForeignUntouched` | operator/src/reconcile.rs:473-495 | From the moment a Secret is not owned it stays as it is for the rest of the run |
| `Operator.Controller.Apply` | operator/src/reconcile.rs:226-359 | The reconcile, cut off after any number of API calls, is a run of that machine; it completes iff data was rendered, the target is owned or absent and the calls it needs, at most five, are made; then the target is owned with content hashing like the rendered data, the previous target is retired by policy and no other Secret changed |
| `Operator.Controller.CleanupTarget` | operator/src/reconcile.rs:473-495 | Retires the previous target iff owned, by deletion, or by giving up ownership and keeping its data, and touches nothing else |

## Left out

- Transport, discovery, relay health, client, terminal UI, command line, key files, metrics and CRD generation: no state worth a hard property.
- The inside of age, ChaCha20-Poly1305, SHA-256, CBOR and JSON: symbolic terms, parameters, or a given inverse pair.
- Audit rows of sync sessions, of malformed frames and of local commands; timestamps of rows other than audit rows. A failed append is only logged by the source and does not occur here.
- VersionedMap.PutRefusesTheLastVersion: versions are natural numbers, so the 64-bit overflow the code would meet in that state is not modelled.
- Server.Bunker.AddIdentity: parsing an endpoint id is a parameter that either yields an endpoint or fails.
- The server's session loop and the replica's live loop are steps of a state machine, not methods: their point is how they interleave.
- The session stream in the protocol is typed messages; that bytes carry them faithfully is proved separately by the manifest round trip.
- Emitting pushes and reading the scope for them is one step.
- The authoritative node is never rewound to an older backup during a run.
- Liveness, timing, debounce length, backoff and staleness clocks.
- SQL row order: queries return their rows in any order.
- `render` itself: a reconcile is given any data or a failure. Key validity and JSON pointers are left out.
- Deletion of the custom resource, edits of Secrets by others, and two reconciles of one resource at once.
- Server.Bunker.Handle: sending to the event channel is part of the sync protocol, the method only yields the names.
- Plain removal of an identity without rotations (`src/store.rs:375-380`): no request uses it.
