# Oberth verification model

A Dafny model of the protocols and algorithms in Oberth's command layer: the
audit-witness startup protocol, the authenticated-CMS shape gate, audit
tailing, the shared runtime identity, the Argo Role ownership transfer, and a
few smaller algorithms. `dafny verify dfyconfig.toml` checks all of it.

Code that changes state step by step is a class or a method here, proved
against a function of the old state; what the code is for is then proved about
that function, for all inputs and over all runs.

- **Startup** (`AuditChain`, `Startup`, `StartupCrash`, `StartupSafety`,
  `StartupRuns`, `StartupOutcomes`, `StartupHost`). One start is a function from durable state
  (database, intents, completions) to an ordered list of durable writes and an
  outcome; a crash keeps a prefix of the list. `StartupHost.Host` is the same
  protocol as imperative code with a budget of writes, proved to perform exactly
  that prefix. The digest, the log, the verifier and all failing reads are
  parameters.
- **CMS gate** (`Der`, `Cms`, `CmsGate`). Minimal-length DER (section 10.1 of
  ITU-T X.690), the fixed shape of section 2.1 of RFC 5083 with section 3.2 of
  RFC 5084, and the cursor code that recognizes it.
- **Audit tail** (`AuditLog`, `AuditTail`). Paging newest first through a log
  that grows between and during calls.
- **Identity store** (`IdentityStore`). Check-and-set writes by any number of
  concurrent clients.
- **Role migration** (`Ownership`, `OwnershipMatch`, `RoleMigration`). The
  field-ownership patch, the first-fit comparison, and the check of the server's
  answer.
- **Plan digest** (`PlanEncoding`, `PlanOrder`, `PlanBuild`, `PlanGrants`). From
  the rows of the approval table to the bytes that are hashed.
- **Smaller cores** (`EditDistance`, `LineWriter`, `Idle`, `IdleRuns`,
  `ShellQuote`).

## What the proofs found

- A crash between creating the database file and writing its schema leaves a
  file that every later start refuses, with any flag. Crash convergence holds
  exactly outside that window (`CrashConvergence`, `WedgedForever`).
- An adoption interrupted after its acknowledgment is resumed under its flag
  exactly while the acknowledgment is the last action, nothing is public or
  external and no checkpoint is signed (`ResumesIff`). After another append that
  flag is spent (`OvertakenFlagIsSpent`); a new flag that names the current head
  still adopts, with a second acknowledgment (`FreshFlagAdoptsIff`).
- The resume path ignores a failing read of the last action. A start whose flag
  names the acknowledgment's own head then adopts afresh on top of it; the exact
  guard is `SecondAckIff`.
- The printed rerun command reads back as the request exactly if the upstream name
  does not begin with a dash (`ArgumentsReadBack`); the command validates names
  before it prints one.
- `pollAudit` ends against every server exactly when it resumes from a
  non-negative id (`PollEndsIffNonNegative`). A negative id comes only from a
  server that reports a negative head; an honest empty log reports 0.
- The plan encoding is injective over NUL-free strings exactly for path alphabets
  without the empty path and without paths that start with `step:`
  (`InjectiveIff`). `Store.Grant` admits only such paths (`GrantablePath`), so for
  every table of grants the hashed bytes are equal exactly when access is equal
  (`PreimageMeansAccess`).
- A step grant is outside the digest exactly when its repository has no
  repository identity (`OutsideThePlanIff`). One reading of the table never gives
  such a grant (`OneTableIsConsistent`); the two separate readings that a sync
  makes give one exactly when the second names a step of a repository that the
  first did not have (`OrphanIff`).
- For plans that the encoding can carry, the digest depends on input order
  exactly when a step of a planned repository is listed in two versions
  (`PreimageDeterminedIff`). The derivation of step identities lists every step
  once, so this does not arise from a table (`OneTableIsConsistent`).
- The recomputation at the end of `migrate` never rejects an answer that passed
  the ownership comparison and has a resource version (`Migrate`).

## Model

| member | source | states |
|---|---|---|
| AuditChain.LinkKeepsChain | internal/store/audit.go:83-133 | Appending the next link to a chain that verifies gives a chain that verifies, and a verified chain accepts an append at every positive clock |
| AuditChain.EmptyHead | internal/store/audit.go:258-276 | An empty chain has head 0 and the all-zero hash |
| AuditChain.ChainIsDetermined | internal/store/audit.go:612-659 | What was recorded and when determines a chain that verifies |
| StartupHost.Host.OpenStartupDatabase | cmd/oberth/serve.go:1413-1527 | The imperative start, killed after any number of durable writes, leaves exactly that prefix of the specified writes applied, and otherwise returns the specified outcome |
| StartupHost.Host.OpenFreshDatabase | cmd/oberth/serve.go:1473-1526 | Same, for the path without a database: evidence refuses, a claimed tip is verified before genesis and recorded after it |
| StartupHost.Host.CreateGenesisDatabase | internal/store/store.go:183-219 | Exclusive creation is two durable writes; a failing schema step removes the file again; a database that appeared is verified instead |
| StartupHost.Host.ResumeWitnessChainReset | cmd/oberth/serve.go:1556-1629 | Decides or defers exactly as specified, and defers without writing |
| StartupHost.Host.RecordWitnessChainReset | cmd/oberth/serve.go:1369-1396 | Appends the acknowledgment of the tip and reports success only if it became action 1 |
| StartupHost.Host.AdoptWitnessGenesis | cmd/oberth/serve_witness_adopt.go:53-211 | Decides or defers exactly as specified, resuming from a recorded acknowledgment or making a new one |
| StartupHost.Host.ResumeWitnessGenesis | cmd/oberth/serve_witness_adopt.go:90-141 | A recorded acknowledgment that matches the flag by baseline or by its own head gets its intent; every mismatch refuses without writing |
| StartupHost.Host.AppendWitnessGenesis | cmd/oberth/serve_witness_adopt.go:143-205 | A fresh adoption writes nothing before every refusal is ruled out, then exactly the affordable prefix of acknowledgment and intent |
| StartupHost.Host.AppendAndPrepare | cmd/oberth/serve_witness_adopt.go:178-205 | The acknowledgment is durable before the intent that binds it |
| StartupHost.Host.MigrateLegacyStartupDatabase | cmd/oberth/serve.go:1631-1682 | The intent is durable before the schema changes, and the start always ends in a refusal |
| StartupCrash.CrashConvergence | cmd/oberth/serve.go:1413-1629 | Crash after any durable write of any start and start again with the same flag and log tip: the same durable state and ending as an uninterrupted start, if and only if the crash was not after the first write of an allowed genesis, between file creation and schema |
| StartupCrash.ManyCrashesConverge | cmd/oberth/serve.go:1413-1629 | After any number of crashed attempts, and attempts that failed without effect in between, the final state is that of one uninterrupted attempt, and so is the ending if no earlier attempt was complete |
| StartupCrash.WedgedForever | internal/store/store.go:203-217 | On a file that is not a database every start refuses and writes nothing |
| StartupCrash.WedgedDiverges | internal/store/store.go:203-217 | A crash between file creation and schema does break convergence |
| StartupSafety.OpenedIsJustified | cmd/oberth/serve.go:1413-1527 | Fail-closed: for each way a start can return a database, the evidence that path must have established |
| StartupSafety.ResetBinding | cmd/oberth/serve.go:1346-1396 | A start that accepts or resumes a reset returns a database whose only action is action 1, the acknowledgment naming exactly the tip that log and operator agree on, with the tip's full details when newly recorded |
| StartupSafety.AdoptedIsBound | cmd/oberth/serve_witness_adopt.go:90-211 | A successful adoption leaves exactly one intent, which binds the last action, an adoption acknowledgment on a verified chain, and nothing was public |
| StartupOutcomes.GenesisIff | cmd/oberth/serve.go:1473-1512 | A new database is created and returned if and only if none is there, nothing is external, adoption is not asked for and nothing public is to be reset; it is then empty |
| StartupOutcomes.VerifiedIff | cmd/oberth/serve.go:1434-1468 | An existing database is returned through verification if and only if it is current, accepted by the verifier and can be opened, and the flag of the start, if any, is passed over; nothing is written |
| StartupOutcomes.AppearedIff | cmd/oberth/serve.go:1533-1548 | A database that appears during a fresh start is returned, unless a reset takes it, if and only if it verifies |
| StartupOutcomes.ResetAcceptedIff | cmd/oberth/serve.go:1369-1396 | A reset is accepted if and only if the acknowledged tip is the latest public one and an unclaimed empty database is there or can be made; action 1 then records actor, tip and acknowledgment field by field and is the only action |
| StartupOutcomes.ExistingResetIff | cmd/oberth/serve.go:1556-1629 | On an existing database: accepted if and only if it is empty, resumed if and only if its only action acknowledges the same tip |
| StartupOutcomes.AdoptionAppliedIff | cmd/oberth/serve_witness_adopt.go:143-205 | A fresh adoption succeeds if and only if the flag names the head and nothing stands against it; the acknowledgment and the intent are then written out field by field |
| StartupOutcomes.AdoptionResumedIff | cmd/oberth/serve_witness_adopt.go:90-141 | A recorded acknowledgment is resumed if and only if the flag names its baseline or itself and nothing stands against it; the intent is written out |
| StartupOutcomes.OtherFlagDoesNotResume | cmd/oberth/serve_witness_adopt.go:99-111 | What was recorded for n:h is resumed only under n:h or the acknowledgment's own head |
| StartupOutcomes.HexInjective | cmd/oberth/serve_witness_adopt.go:99-100 | Two hashes with the same hexadecimal form are equal |
| StartupOutcomes.MigratesIff | cmd/oberth/serve.go:1631-1682 | A legacy database is migrated if and only if everything can be read, nothing was completed and the intents are none or the one for its exact head; the resulting state, with the missing intent, is written out |
| StartupOutcomes.RefusalTells | cmd/oberth/serve.go:1413-1682 | Every reason for a refusal is true of the inputs it was given for |
| StartupRuns.RefusalsChangeNothing | cmd/oberth/serve.go:1413-1527 | A refused start changes the durable state if and only if the inputs are one of three: a migratable legacy database, a fresh reset under a non-positive clock, or a reset on a database with actions that appeared meanwhile |
| StartupRuns.NoGenesisAfterEvidence | cmd/oberth/serve.go:1476-1486 | Once an intent or completion exists, no later start creates a database, over every run, even if the database is deleted or replaced meanwhile |
| StartupRuns.RunKeepsEvidence | cmd/oberth/serve.go:1298-1302 | Evidence never disappears over any run |
| StartupRuns.StaleFlagIsIgnored | cmd/oberth/serve.go:1586-1599 | With evidence and a database present, a start with a one-shot flag differs from one without if and only if its flags are refused as such, or it has to read the evidence itself and cannot; then it is refused and writes nothing |
| StartupRuns.AdoptWrites | cmd/oberth/serve_witness_adopt.go:50-211 | Everything adoption can write: nothing, the intent of a recorded acknowledgment, or acknowledgment and intent on exactly the acknowledged head; a refusal writes nothing |
| StartupRuns.AdoptionHappensAtMostOnce | cmd/oberth/serve_witness_adopt.go:90-211 | Under one flag N:h, over every run of starts, crashes and daemon writes: at most one acknowledgment, action N+1, recording the flag; every prepared intent is the sequence-1 intent with its id and hash |
| StartupRuns.PreparedIntentBindsAck | cmd/oberth/serve_witness_adopt.go:230-236 | An intent is prepared only on top of the acknowledgment it names, which is then the last action |
| StartupRuns.ResumesIff | cmd/oberth/serve_witness_adopt.go:90-141 | With the acknowledgment recorded, a start under its flag prepares the intent if and only if it is the last action, nothing is public or external, and no checkpoint is signed |
| StartupRuns.FreshFlagAdoptsIff | cmd/oberth/serve_witness_adopt.go:143-205 | Where the last action is no acknowledgment, a flag adopts if and only if it names the current head and nothing is public, external or checkpointed |
| StartupRuns.SecondAckIff | cmd/oberth/serve_witness_adopt.go:90-92 | Where the last action is an acknowledgment, another one is appended if and only if that action cannot be read, the flag names it as the head and a fresh adoption is allowed |
| StartupRuns.OvertakenFlagIsSpent | cmd/oberth/serve_witness_adopt.go:90-176 | Once an action follows the acknowledgment, no start under that flag ever prepares the intent, over every further run |
| StartupRuns.LegacyRunFollowsOnePlan | cmd/oberth/serve.go:1631-1682 | Over every run of legacy starts and crashes the writes form a prefix of one plan, at most one intent, for exactly the v1 head, and at most one migration, and no start returns a database |
| StartupRuns.MigrationIsBound | cmd/oberth/serve.go:1631-1665 | Migration runs only with no intents and an empty head, or under the sole intent binding the exact v1 head |
| Der.ReadInvertsPrint | cmd/oberth-store-backup/cms_format_linux.go:22-57 | Reading an element succeeds with a content exactly when the input starts with the minimal-length printing of that content; no other length form is accepted |
| Der.BigEndianValue | cmd/oberth-store-backup/cms_format_linux.go:42-46 | Accumulating length octets inverts their printing |
| Der.ValueBigEndian | cmd/oberth-store-backup/cms_format_linux.go:39-46 | Octets without a leading zero are the only printing of their value |
| Der.LengthsAre | cmd/oberth-store-backup/cms_format_linux.go:31-50 | The length octets of every length below 2^32, octet by octet |
| Cms.AcceptsIffPrinted | cmd/oberth-store-backup/cms_format_linux.go:95-145 | A byte string is recognized with a shape if and only if it is that shape's printing |
| Cms.PrintIsInjective | cmd/oberth-store-backup/cms_format_linux.go:95-145 | No two shapes share a printing |
| Cms.PrintableBelowLimit | cmd/oberth-store-backup/cms_format_linux.go:34-38 | Every valid shape that stays 200 bytes clear of the 32-bit length limit has a printing |
| Cms.ContentTypeIs | cmd/oberth-store-backup/cms_format_linux.go:101-103 | The content type octets are the encoding of 1.2.840.113549.1.9.16.1.23 |
| Cms.DataTypeIs | cmd/oberth-store-backup/cms_format_linux.go:121 | The data type octets are the encoding of 1.2.840.113549.1.7.1 |
| Cms.AlgorithmIs | cmd/oberth-store-backup/cms_format_linux.go:125 | The algorithm octets are the encoding of 2.16.840.1.101.3.4.1.46 |
| Cms.ArchiveBytes | cmd/oberth-store-backup/cms_format_linux.go:95-110 | The outer octets of an archive with short lengths |
| Cms.AuthBytes | cmd/oberth-store-backup/cms_format_linux.go:108-144 | The octets of its authenticated data |
| Cms.EncryptedBytes | cmd/oberth-store-backup/cms_format_linux.go:120-140 | The octets of its encrypted content |
| Cms.AlgorithmBytes | cmd/oberth-store-backup/cms_format_linux.go:124-131 | The octets of its algorithm |
| Cms.ParamsAre | cmd/oberth-store-backup/cms_format_linux.go:132-135 | The octets of its parameters: a 12-octet nonce and the tag length 16 |
| CmsGate.Cursor.Take | cmd/oberth-store-backup/cms_format_linux.go:22-57 | The child range is nested in the parent, starts behind the header and ends where the parent continues; a refusal moves nothing |
| CmsGate.Cursor.Announced | cmd/oberth-store-backup/cms_format_linux.go:25-50 | The length loop computes the value of the octets and rejects every non-minimal form |
| CmsGate.Cursor.Exact | cmd/oberth-store-backup/cms_format_linux.go:59-72 | Succeeds exactly on an element with the given content |
| CmsGate.CheckAuthenticatedCms | cmd/oberth-store-backup/cms_format_linux.go:95-145 | The gate accepts a file if and only if it is the printing of some archive shape |
| AuditTail.AuditHighWater | cmd/oberth/audit_list.go:179-185 | The greatest of the head and all entry ids |
| AuditTail.PollAudit | cmd/oberth/audit_list.go:187-223 | Any server and any id: returns what the unbounded loop finds, fails where it fails or needs a call beyond the context, and the new high water is the first page's or the old one; an error reports nothing. An honest server: exactly the matching entries above the last id up to the new high water, which is at least the head when the poll began |
| AuditTail.ScanPages | cmd/oberth/audit_list.go:202-221 | Turn by turn the loop that PollEndsIffNonNegative is about; from a non-negative id the cursor falls strictly and stays above it, so the number of calls is bounded by the first cursor |
| AuditTail.TailAudit | cmd/oberth/audit_list.go:134-176 | Across all polls, with appends at any moment and failures anywhere: what is printed after the first page is exactly the matching entries from the first page's high water, which lies between the head and the end of the log it was read from, up to a high water that covers everything in the log when the last completed poll began; all polls are made unless one fails or runs out of time |
| AuditTail.ExactlyOnce | cmd/oberth/audit_list.go:134-176 | The printed range has strictly ascending ids, hence no repetition, and contains an entry exactly when it matches and lies in the range |
| AuditTail.PollEndsIffNonNegative | cmd/oberth/audit_list.go:202-221 | The polling loop ends against every server if and only if the resume id is not negative |
| AuditTail.PageContributes | internal/store/audit_list.go:72-140 | A page contributes exactly the not yet seen entries down to its cursor, however the log grew since the scan began |
| AuditLog.PageIs | internal/store/audit_list.go:72-140 | A call returns the head of an earlier moment and the newest matching entries below the cursor, with a cursor if and only if the page is full and nothing left out above it |
| IdentityStore.Merge | cmd/oberth/identity_store.go:73-78 | Succeeds exactly when no nonempty field other than known_hosts would change, in any iteration order, and then overlays the values |
| IdentityStore.Store.Save | cmd/oberth/identity_store.go:60-83 | Succeeds if and only if nobody wrote since the read, no nonempty field other than known_hosts would change and there is something to store; then every given field has its value, every other one its own; otherwise the bundle is what others made it |
| IdentityStore.CommitIff | cmd/oberth/identity_store.go:79 | The same for a write in any interleaving |
| IdentityStore.BootstrapCompletes | cmd/oberth/identity_store.go:139-157 | Bootstrap completes with the stored bundle, or alone on an empty store with the generated one, which is then stored |
| IdentityStore.NoKeyNoServer | cmd/oberth/identity_store.go:172-177 | A stored bundle without a host key stops the server and is not replaced |
| IdentityStore.StepKeepsInv | cmd/oberth/identity_store.go:60-157 | Every atomic step of every client keeps the invariant and every nonempty field other than known_hosts |
| IdentityStore.IdentityAgreement | cmd/oberth/identity_store.go:128-157 | In every interleaving, with lost replies and failures, no such field changes or disappears and all servers that complete bootstrap hold the same SSH host key, the stored one |
| IdentityStore.StartsOk | cmd/oberth/identity_store.go:128-157 | Any number of clients starting against an empty or stored bundle satisfies the invariant |
| Ownership.TransferCases | hack/migrate-argo-role/main.go:65-149 | Exactly when the patch is refused, empty, or a transfer, in terms of the entries |
| Ownership.TransferSettles | hack/migrate-argo-role/main.go:65-149 | After the transfer the single Helm apply entry is the sole owner of the rules, and recomputing the patch yields none |
| Ownership.TransferPreserves | hack/migrate-argo-role/main.go:65-149 | The multiset of all other entry/field ownerships is unchanged |
| Ownership.AcceptableIff | hack/migrate-argo-role/main.go:82-102 | Which entries can be handled: FieldsV1 objects, whose rules are atomic and held by one of three managers |
| Ownership.HelmIsSoleOwner | hack/migrate-argo-role/main.go:126-139 | After the transfer exactly one entry owns the rules, atomically, and it is Helm's apply entry |
| Ownership.TransferKeepsEntries | hack/migrate-argo-role/main.go:78-139 | Apart from the rules the entries are the old ones in order and with all attributes, without those that owned nothing else, plus a new Helm entry exactly if there was none |
| OwnershipMatch.SameOwnership | hack/migrate-argo-role/main.go:202-225 | True if and only if some permutation pairs all entries with equal keys and equal decoded fields |
| OwnershipMatch.MatchIff | hack/migrate-argo-role/main.go:210-216 | Two entries match if and only if they differ at most in their timestamps and decode |
| OwnershipMatch.NoPairing | hack/migrate-argo-role/main.go:202-225 | If first fit gets stuck, no permutation exists |
| OwnershipMatch.PairedSettled | hack/migrate-argo-role/main.go:187-197 | Order and timestamps do not matter to sole ownership |
| OwnershipMatch.PairingKeepsOwned | hack/migrate-argo-role/main.go:187-197 | Paired lists own the same things equally often |
| RoleMigration.ScanEntries | hack/migrate-argo-role/main.go:78-119 | The loop refuses exactly when the specification does and otherwise builds its kept entries, Helm index, owner count and change flag |
| RoleMigration.MigrationPatch | hack/migrate-argo-role/main.go:65-149 | Goes on if and only if the Role is the live target of the release with the reviewed rules, all entries can be handled and someone owns the rules; moves ownership if and only if someone besides Helm does |
| RoleMigration.ReviewedRules | hack/migrate-argo-role/main.go:33-47 | The reviewed rules, one by one |
| RoleMigration.StalePatchFails | hack/migrate-argo-role/main.go:140-148 | The patch applies if and only if identity, version, rules and ownership are those that were read, and changes ownership only |
| RoleMigration.Migrate | hack/migrate-argo-role/main.go:151-198 | Reports a transfer if and only if the answer keeps the content and pairs with the planned ownership; then the rules are settled, other ownership is preserved, rules and identity are unchanged |
| RoleMigration.PatchTransfers | hack/migrate-argo-role/main.go:137-149 | Applying the patch to the Role that was read changes only ownership and leaves nothing to migrate |
| RoleMigration.HonestAnswerIsConfirmed | hack/migrate-argo-role/main.go:163-198 | The patched Role under any new version is an answer that Migrate reports as the transfer |
| EditDistance.CommandDistance | cmd/oberth/command_suggestion.go:20-39 | The two-row table computes the distance recurrence |
| EditDistance.DistanceIsLeast | cmd/oberth/command_suggestion.go:20-39 | The distance is the least number of single-character insertions, deletions and substitutions leading from one string to the other |
| EditDistance.ZeroIffEqual | cmd/oberth/command_suggestion.go:20-39 | Zero exactly on equal strings |
| EditDistance.Symmetric | cmd/oberth/command_suggestion.go:20-39 | The distance is symmetric |
| EditDistance.Triangle | cmd/oberth/command_suggestion.go:20-39 | The triangle inequality |
| EditDistance.NearestAmong | cmd/oberth/command_suggestion.go:5-18 | Over any command list: the first command at minimum distance if that is below 3 and the input has at least 3 characters, else nothing |
| EditDistance.NearestCommand | cmd/oberth/command_suggestion.go:5-18 | The same for Oberth's own commands |
| LineWriter.Writer.Write | cmd/oberth-release-support/main.go:128-158 | Unless the sink fails the new state is the specified one after one accepted call per line; if it fails, the call for the next line was refused, the count ends with that line, and the bytes in the sink are a prefix of the specified ones; errors are sticky and nothing is written behind one |
| LineWriter.Writer.Beat | cmd/oberth-release-support/main.go:160-173 | Adds one heartbeat and leaves the pending text alone |
| LineWriter.Writer.Flush | cmd/oberth-release-support/main.go:175-189 | Emits exactly the pending text |
| LineWriter.Writer.Emit | cmd/oberth-release-support/main.go:210-219 | Succeeds if and only if the sink reports all bytes and no error; otherwise the failure is recorded and the sink holds the reported prefix |
| LineWriter.WriterIsFaithful | cmd/oberth-release-support/main.go:128-208 | For every split into writes and every placement of heartbeats: without failure output minus heartbeats plus pending is the stream; failure if and only if some stretch without a line end exceeds 65536; pending never exceeds it |
| LineWriter.HeartbeatsOnBoundaries | cmd/oberth-release-support/main.go:160-173 | Every chunk of output, heartbeats included, starts on a record boundary |
| LineWriter.WriteIsFeed | cmd/oberth-release-support/main.go:128-158 | Writing a chunk does what feeding it character by character does |
| LineWriter.ChunkingIsIrrelevant | cmd/oberth-release-support/main.go:128-158 | Two runs over the same stream have the same child output, pending text and failure |
| PlanEncoding.WritePreimage | cmd/oberth/secretstore.go:1146-1174 | The nested loops write the specified encoding |
| PlanEncoding.FrozenFormat | cmd/oberth/secretstore.go:1146-1174 | The bytes of the format, field by field |
| PlanEncoding.PreimageInjective | cmd/oberth/secretstore.go:1146-1174 | Plans of NUL-free strings whose paths are nonempty and do not start with step: have different preimages |
| PlanEncoding.InjectiveIff | cmd/oberth/secretstore.go:1146-1174 | Over NUL-free strings the preimage determines the plan if and only if no allowed path is empty or starts with step: |
| PlanEncoding.PlanRoundTrip | cmd/oberth/secretstore.go:1146-1174 | Such a plan can be read back from its fields |
| PlanEncoding.StepPathCollides | cmd/oberth/secretstore.go:1154-1170 | A path starting with step: collides with a step |
| PlanEncoding.EmptyPathCollides | cmd/oberth/secretstore.go:1154-1171 | An empty path collides with the end of a repository |
| PlanEncoding.NulPathCollides | cmd/oberth/secretstore.go:1154-1157 | A NUL in a path collides with two paths |
| PlanEncoding.StepFreeUnchanged | cmd/oberth/secretstore.go:1140-1174 | Without steps the encoding is the older format |
| PlanOrder.PlanIsCanonical | cmd/oberth/secretstore.go:1079-1122 | Permuting either input list, map iteration and the sorting algorithm do not change plan or preimage, if equally named steps of a repository are equal |
| PlanOrder.PolicyIs | cmd/oberth/secretstore.go:1111-1115 | The policy name: the prefix, and the repository with slashes and dots replaced |
| PlanOrder.PreimageDeterminedIff | cmd/oberth/secretstore.go:1093-1106 | For a plan that the encoding can carry, that condition is necessary and sufficient |
| PlanBuild.PlanFromIdentities | cmd/oberth/secretstore.go:1079-1122 | The maps and sorts build the canonical plan: every repository once in order, its paths sorted, its steps sorted by name, nothing lost or added; what is hashed is its preimage |
| PlanBuild.GroupPaths | cmd/oberth/secretstore.go:1080-1084 | Every repository with all its paths in input order |
| PlanBuild.OutsideThePlanIff | cmd/oberth/secretstore.go:1093-1120 | Adding a step grant leaves the plan as it is if and only if its repository has no repository identity |
| PlanGrants.GrantablePath | internal/store/secret_access.go:96-108 | Every path that can be granted is nonempty, NUL-free and does not start with step: |
| PlanGrants.JoinedSegments | internal/installer/perrepo_producer.go:157-164 | Splitting a qualified name loses nothing |
| PlanGrants.RepoIdentities | internal/installer/perrepo_producer.go:146-181 | Refuses exactly a nonempty listing without any three-part name; otherwise every repository with such a name once, also without wildcard grants, with exactly its wildcard grants |
| PlanGrants.StepIdentities | internal/installer/perstep.go:179-227 | Every named step of such a repository once, with exactly its own and the inherited grants, sorted and without repetition |
| PlanGrants.OneTableIsConsistent | internal/installer/perrepo_producer.go:256-299 | Identities of one table: no step grant is outside the plan and no step is listed in two versions |
| PlanGrants.OrphanIff | cmd/oberth/secretstore.go:1026-1036 | Identities of two readings: some step grant is outside the plan if and only if the second names a step of a repository unknown to the first |
| PlanGrants.PlanFromRows | cmd/oberth/secretstore.go:1079-1122 | Unless the listing is refused, the plan of a table without repeated rows is the one that the table alone describes |
| PlanGrants.PlanHasShape | cmd/oberth/secretstore.go:1079-1122 | The same for every order of the identities and every sort |
| PlanGrants.PlanIsValid | cmd/oberth/secretstore.go:1079-1174 | A table of grantable rows gives a plan over which the encoding is injective |
| PlanGrants.PreimageMeansAccess | cmd/oberth/secretstore.go:1072-1174 | Two tables of grants hash the same bytes if and only if they name the same steps and let everyone read the same secrets |
| Idle.Snapshot.Publish | cmd/oberth/idle_snapshot.go:48-54 | The sample becomes the last read: its status, its start, and valid exactly if it was in budget, without error and consistent |
| Idle.Snapshot.Current | cmd/oberth/idle_snapshot.go:29-39 | A status is reported if and only if the last published read was sound and started less than ten seconds ago, and it is that read's |
| Idle.Snapshot.Answer | cmd/oberth/admin_gate.go:48-68 | The endpoint answers 204 if and only if the last published read was sound, young and counted no work of the mode's kind |
| Idle.NoContentMeansIdle | cmd/oberth/admin_gate.go:38-69 | The endpoint answers 204 if and only if the status is valid and counts no work of the mode's kind |
| Idle.OtherAnswers | cmd/oberth/admin_gate.go:48-66 | 409 with the counts if and only if there is such work, 503 if and only if there is no usable sample |
| Idle.ValidAddsUp | internal/model/idle.go:18-26 | A status is valid if and only if its version is 1, every count is in range and the kinds add up to the total |
| Idle.ClassifyIff | cmd/oberth/idle.go:127-163 | Which replies mean free, busy or try again, on codes, version and body; all others are permanent failures |
| Idle.HandlerNeverRefuses | cmd/oberth/idle.go:127-163 | The handler's own answers are read as free, busy or try again, as its sample says |
| Idle.WaitIdle | cmd/oberth/idle.go:55-123 | The first turn that does not lead to another probe decides: success for a free reply in time, refusal for a permanent failure, expiry or an unwritable line otherwise, on codes and contexts; that is the client of the interleavings |
| Idle.PauseSteps | cmd/oberth/idle.go:79-97 | The interval after a busy reply or a first failure, then twice the last pause up to thirty seconds |
| Idle.BackoffDoubles | cmd/oberth/idle.go:93-97 | The pause after k failures in closed form |
| Idle.BackoffBounded | cmd/oberth/idle.go:93-97 | Pauses are positive and never exceed the longer of the interval and thirty seconds |
| IdleRuns.StepKeepsInv | cmd/oberth/idle_snapshot.go:29-64 | Every step of sampler, endpoint and client keeps the invariant |
| IdleRuns.IdleVerdictIsSound | cmd/oberth/idle.go:55-163 | In every interleaving, a reported idle queue rests on a read that started under ten seconds before the answer was evaluated, finished in budget without error, was valid and counted no work |
| IdleRuns.RunIsFold | cmd/oberth/idle.go:55-123 | In every interleaving the client ends as WaitIdle does on the turns that it saw |
| IdleRuns.WaitIdleIsSound | cmd/oberth/idle.go:55-163 | If the turns seen in any interleaving make WaitIdle succeed, a published read justifies it |
| IdleRuns.BootIsOk | cmd/oberth/idle_snapshot.go:41-64 | A daemon that has sampled nothing satisfies the invariant |
| ShellQuote.QuoteWord | cmd/oberth/admin.go:668-679 | The scan quotes exactly the words that need it |
| ShellQuote.QuotingRoundTrips | cmd/oberth/admin.go:668-695 | For a list that starts with a plain command name: splitting the joined quoted words by the POSIX shell rules gives back the words, if and only if none contains a NUL |
| ShellQuote.QuotingIsInjective | cmd/oberth/admin.go:668-695 | Two NUL-free lists that start with a plain command name never print alike |
| ShellQuote.UpstreamAddRerunCommand | cmd/oberth/admin.go:645-666 | A shell given the printed command sees exactly the arguments that repeat the request, if and only if they are NUL-free |
| ShellQuote.ArgumentsReadBack | cmd/oberth/admin.go:645-666 | Parsed as upstream add parses them, the arguments give back the request, if and only if the name does not look like an option |

## Left out

- Integers are unbounded: overflow of 64-bit audit ids and counters is not modelled.
- SHA-256, SSH, TLS, the public log and its signatures are parameters; nothing is claimed about hash collisions.
- A second writer during a start is modelled only as a database that appears before genesis; other appends happen between starts. The publication reconciliation after the verifier counts as such appends.
- A failing append is modelled for a bad clock or head, a failing intent write as the crash in front of it; other storage errors are not distinguished from failing reads.
- JSON is modelled by its decoded value, including the details of audit actions and field sets; numbers in field sets are compared as texts.
- AuditTail.TailAudit: assumes a server that fails or answers truthfully; against any other, only the contract of PollAudit holds. The filter is fixed, so a relative time bound that the server evaluates anew at each call is outside the model.
- AuditTail.PollAudit: the context is a number of calls; without one the loop need not end from a negative id (PollEndsIffNonNegative).
- CmsGate.CheckAuthenticatedCms: reads cannot fail, and the size limit of the caller is not modelled.
- IdentityStore.IdentityAgreement: no deletes, no rotation, and the files materialized from a bundle are not modelled.
- EditDistance.CommandDistance: characters stand for bytes.
- PlanBuild.PlanFromIdentities: the derived policy name of a step is part of its input, and sorting is an insertion sort standing for any sort.
- PlanGrants.PreimageMeansAccess: the name derivation of a step is any function into NUL-free strings, and the rows are those of the unique index on active grants.
- PlanGrants.StepIdentities: the result is in some order, because the plan does not depend on it.
- Idle.WaitIdle: what each turn meets (reply, context, output) is given; progress lines are only modelled as failing or not.
- IdleRuns.IdleVerdictIsSound: a 204 reply comes only from the handler.
- ShellQuote.QuotingRoundTrips: the reader rejects every unquoted character with a special meaning instead of interpreting it; parameter and command expansion inside double quotes is rejected too.
- Flag parsing, help, table and JSON rendering, HTTP and Kubernetes clients, the installer, backup and restore wiring, the scheduler and the confinement of files: plumbing or easier versions of what is here.
