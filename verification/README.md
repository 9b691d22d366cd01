# A verified model of HostLens

HostLens is an MCP server for one Linux host, with an installer, a token store, an
authorization policy, a privileged repair worker and bounded container logs. This
project models its five stateful cores in Dafny and proves what they promise, for every
input, every run and every point of failure.

`dafny verify dfyconfig.toml` checks the whole project.

| component | modules |
|---|---|
| profile policy: compilation, decisions, loader, tool gate | `IncludeGraph`, `Policy`, `PolicyMeaning`, `Decisions`, `DecisionLaws`, `ProfileLoader`, `LegacyProfiles`, `ToolGate`, `GateLaws`, `Text` |
| token store: records, operations, interleaved processes, migration | `TokenRecords`, `TokenStore`, `TokenProtocol`, `TokenMigration` |
| container logs: frame scanner, collector, line trimmer, pipeline | `DockerFrames`, `LogCollector`, `LatestLines`, `ContainerLogs` |
| repair worker: audit before act, one admission slot | `RepairWorker`, `RepairOverlap` |
| install, upgrade, uninstall: plan digest, transaction and rollback, readiness, release chains | `PlanCodec`, `PlanVersion`, `PlanDigest`, `LifecycleHost`, `LifecycleLog`, `Lifecycle`, `Readiness`, `ReleaseChain`, `GatedApply`, `Uninstall` |

`Wrappers` holds the shared `Option` type.

## How the model is built

Code that changes things step by step is a class or a method with loops, proved against a
function on values; theorems are about those functions or about whole runs. Every
operation that can fail in the source (a write, a rename, a command, an audit line) fails
nondeterministically or by a fault parameter, and an operation whose error can follow its
effect may do both. An input `smooth` says that no step fails; it is what the promises of
success rest on. Strings are sequences of bytes written as characters.

`path.Match` is the parameter `glob`; the one fact used about it is that `*` matches a
slash-free name, and only where a lemma says so. Hashes are parameters; a lemma that needs
the absence of a collision asks for it only between the texts it compares. A release
fingerprint is 64 lower-case hex characters, and an architecture, which is the host's own
for every release it accepts, a lower-case word such as `amd64` or `arm64`. Fresh
identifiers are a hypothesis on the step that uses them.

## Main results

- **Compilation** succeeds exactly on sound acyclic reachable graphs and collects each
  reachable profile's rules once (`PolicyMeaning.CompileSucceedsExactly`,
  `PolicyMeaning.CompiledPolicy`); the three decision procedures agree
  (`Decisions.AllowsMeaning`, `Decisions.Explain`, `Decisions.PermittedIsAdvertised`).
  What compiles and what decides a target is also stated on the texts of the rules alone
  (`DecisionLaws.CompileSucceedsInWords`, `DecisionLaws.PermitsExactly`), and who may call
  a tool on its name alone (`GateLaws.CallPassesExactly`).
- **The loader** over any directory loads exactly the reachable profiles and yields the
  whole directory's policy (`ProfileLoader.LoadedExactly`,
  `ProfileLoader.LoadedPolicyIsDirectoryPolicy`).
- **The token file** holds one complete accepted list in every state of every
  interleaving, with no lost update (`TokenProtocol.StoreAlwaysWhole`,
  `TokenProtocol.NothingPublishedIsLost`); validity only shrinks and roles follow
  lineages (`TokenRecords.HistoryEvolves`, `TokenRecords.LineageKeepsRoles`); a created
  token verifies until it expires (`TokenStore.Store.CreateThenVerify`).
- **Container logs** are a contiguous labelled window of the whole stream
  (`ContainerLogs.ReadLogs`), and cut frame streams lose only the cut frame
  (`DockerFrames.CutRecoversWholeFrames`).
- **Every restart** in every run of the repair worker passed every check, listed one by
  one, and is recorded first, and calls of the restarter never overlap
  (`RepairWorker.EveryRestartIsAudited`); which native restarts have ended before the next
  begins is exactly what the audit trail says (`RepairWorker.EndedExactlyWhenKnown`).
- **The plan digest** commits to everything it hashes, the release version included,
  although the version is free text without a terminator of its own
  (`PlanVersion.VersionUnique`, `PlanDigest.StreamUnique`,
  `PlanDigest.GateAdmitsOnlyThePreviewedState`), and what a confirmed plan installs are the
  bytes that were previewed (`GatedApply.ApplyConfirmed`).
- **Install and upgrade** are all or nothing at any failing step, and all where none fails
  (`Lifecycle.Apply`); chains of releases end with the last one (`ReleaseChain.ApplySeries`,
  `ReleaseChain.ChainHoldsLastRelease`, `ReleaseChain.NextUpgradeChecksUnits`).
- **Uninstall** touches only what is its own (`Uninstall.RunTouchesOnlyItsOwn`) and stays
  retryable (`Uninstall.RunStaysAccepted`, `Uninstall.RunStaysRecoverable`,
  `Uninstall.RetryCompletes`).

## Where the code falls short of the plain claim

- A permitted target that contains a slash may belong to a tool that is not advertised,
  when a deny rule is literally `*`. The exact condition is
  `Decisions.PermittedIsAdvertised`; `ToolGate.SlashTargetCanBeHidden` is an instance.
- A listed `restart_container` may have no callable target: policy grants are not required
  to be full container identifiers. `ToolGate.ListedRepairHasTarget` is the exact
  condition, `ToolGate.ListedRestartWithoutTarget` an instance.
- A rollback restores permission bits but not set-id or sticky bits, because `capture`
  keeps only the former. `LifecycleLog.RestoredExactly` is the exact condition,
  `Lifecycle.SpecialBitsAreLost` an instance.
- A `systemctl start` that fails but leaves its unit running is not stopped by the
  rollback of an upgrade, since the unit was not yet counted as started; it keeps running
  the new binary. `Lifecycle.OriginalProcessesExactly` is the exact condition,
  `ReleaseChain.StrayKeepsNewBinary` and `ReleaseChain.StrayCanBeLeft` the instances.
- A failed directory sync after the rename makes a token update or a file write report an
  error although the new content is in place; a failed removal of the rollback copy makes
  a completed upgrade or rollback report an error and may leave part of the copy.
  `TokenStore.Store.Publish`, `LifecycleHost.Host.Write`, `LifecycleHost.Host.RemoveCopy`
  and the results `AppliedCopyKept` and `RolledBackCopyKept` of `Lifecycle.Apply` say so.
- A restart whose call returns `restart_outcome_unknown`, because the request ended or the
  engine call failed, frees the admission slot while the native restart may still be going
  on, and the next request can begin a second one beside it.
  `RepairWorker.EndedExactlyWhenKnown` is the exact condition,
  `RepairOverlap.SecondRestartBeginsBesideTheFirst` the instance.
- An uninstall whose restore of a unit file leaves other content behind cannot be retried:
  `Uninstall.PartialRestoreBlocksRetry`; `Uninstall.RunStaysAccepted` is the exact
  condition.
- An uninstall that removed every unit file, failed to reload and could put none back is
  accepted again, and the retry then removes the binary and reports success without any
  reload, with the units still loaded. `Uninstall.BinaryGoesWhileLoadedExactly` is the
  exact condition, `Uninstall.RetryCanSkipTheReload` an instance.

## Model

| member | source | states |
|---|---|---|
| `Policy.Visit` | internal/core/policy.go:81-120 | Depth-first visit over three colours; it only adds colours, and uncoloured profiles decrease, so it terminates on cyclic graphs. Its meaning is stated by `PolicyMeaning`. |
| `Policy.VisitAll` | internal/core/policy.go:96-100 | Visiting a list in order only adds colours; same termination measure. |
| `Policy.Compiler.constructor` | internal/core/policy.go:78-79 | A compilation starts with nothing coloured and no rules. |
| `Policy.Compiler.VisitProfile` | internal/core/policy.go:81-120 | The recursive closure over the mutable maps ends in exactly the state, or reports exactly the error, of the value-level visit. |
| `Policy.Compile` | internal/core/policy.go:77-127 | The imperative compilation returns the value-level result that the `PolicyMeaning` theorems and `DecisionLaws.CompileSucceedsInWords` characterise. |
| `PolicyMeaning.AddAllowsShape` | internal/core/policy.go:101-110 | Filing an allow list succeeds exactly when every rule is valid and no repair grant is a pattern, and then appends precisely the rules of each key, in order. |
| `PolicyMeaning.AddDeniesShape` | internal/core/policy.go:111-117 | The same for deny rules, where patterns are permitted for repair. |
| `PolicyMeaning.VisitShape` | internal/core/policy.go:81-120 | A successful visit blackens exactly a list of new profiles, all reachable from the visited one, sound, duplicate-free, includes first, and collects exactly their rules. |
| `PolicyMeaning.VisitAllShape` | internal/core/policy.go:96-100 | The same for a list of names. |
| `PolicyMeaning.VisitError` | internal/core/policy.go:81-120 | An error names a profile reachable from the visited one that really has the reported fault; a reported cycle is a cycle of the graph. |
| `PolicyMeaning.VisitAllError` | internal/core/policy.go:121-125 | The same for a list of names. |
| `PolicyMeaning.CompiledPolicy` | internal/core/policy.go:77-127 | On success there is an order listing each reachable profile once, includes before includers, and every keyed list is the concatenation of those profiles' own rules in that order. |
| `PolicyMeaning.CompileSucceedsExactly` | internal/core/policy.go:77-127 | Compilation succeeds if and only if every reachable profile is validly named, present, on no include cycle and holds only valid rules with exact repair grants. |
| `PolicyMeaning.CompileErrorJustified` | internal/core/policy.go:77-127 | A reported error names a reachable profile with the reported fault. |
| `IncludeGraph.ClosedHoldsReachable` | internal/core/policy.go:96-100 | A set closed under includes that holds the roots holds every profile a path of includes leads to. |
| `IncludeGraph.OrderedAcyclic` | internal/core/policy.go:85-90 | If every include stands before its includer in a duplicate-free order, no listed profile is on a cycle. |
| `Decisions.FirstMatch` | internal/core/policy.go:150-160 | The search loop finds a match exactly when some rule of the list matches. |
| `Decisions.Allows` | internal/core/policy.go:145-161 | The decision is: non-empty resource, some filed allow rule of effect and tool meets it, no filed deny rule does; a rule meets a target if their texts are equal, or if its text holds one of the three pattern characters and the matcher hits. |
| `Decisions.Select` | internal/core/policy.go:173-182 | The loop selects exactly the matching rules, in order and with repeats. |
| `Decisions.Explain` | internal/core/policy.go:164-186 | The explanation's verdict always equals the decision of `Allows`; grants and denials are exactly the matching rules in order; the further checks are the three common ones and, for repair alone, `read_only_mode`. |
| `Decisions.Advertises` | internal/core/policy.go:190-205 | A tool is advertised exactly when some grant is spared by every denial: none is `*` or equal to it, and none meets it where it holds no pattern character. |
| `Decisions.CompiledMembers` | internal/core/policy.go:101-117 | A rule is in a compiled keyed list if and only if a reachable profile lists it and the key is its own. |
| `Decisions.AllowsMeaning` | internal/core/policy.go:145-161 | For a compiled policy the decision is a statement about the reachable profiles alone: some reachable allow rule matches and no reachable deny rule does. |
| `Decisions.OrderIrrelevant` | internal/core/policy.go:96-117 | Reordering or repeating profiles, includes or rules changes neither success nor any decision. |
| `Decisions.DenialSurvivesGrowth` | internal/core/policy.go:145-161 | A target matched by an active deny rule stays denied whatever further profiles are activated. |
| `Decisions.CompiledWellKeyed` | internal/core/policy.go:108-116 | Compilation files every rule under its own key. |
| `Decisions.PermittedIsAdvertised` | internal/core/policy.go:190-205 | A permitted target's tool is advertised if and only if no deny rule is literally `*`; for slash-free targets it always is. |
| `Decisions.AdvertisedRepairHasTarget` | internal/core/policy.go:105-107 | An advertised repair tool has a concrete target that the policy permits. |
| `Decisions.PermittedRepairTargets` | internal/core/policy.go:98-107 | For an advertised repair tool a target is permitted if and only if it is the resource of an unblocked grant. |
| `Decisions.OneProfileCompiles` | internal/core/policy.go:77-127 | A single profile without includes compiles to exactly its own rules; the instances below rest on it. |
| `Decisions.GlobCharacters` | internal/core/policy.go:136-138 | A text is a pattern exactly when it holds `*`, `?` or `[`. |
| `Decisions.MatchesExactly` | internal/core/policy.go:129-141 | A rule matches a target exactly when effect and tool agree and its text is the target's, or holds one of the three characters and the matcher hits. |
| `DecisionLaws.PermitsExactly` | internal/core/policy.go:129-161 | For a compiled policy: a target is permitted if and only if it is non-empty, an allow rule of a reachable profile decides it and no deny rule of a reachable profile does. |
| `DecisionLaws.PatternDecides` | internal/core/policy.go:129-161 | An active pattern that hits decides: a denial forbids the target, a grant permits it unless an active denial meets it too. |
| `DecisionLaws.PlainRuleDecidesItsOwn` | internal/core/policy.go:133-138 | A rule without the three characters decides its own resource, and every other target is decided as if it were not there. |
| `DecisionLaws.RuleInWords` | internal/core/policy.go:59-73 | What makes a rule valid and a repair grant broad, field by field and character by character. |
| `DecisionLaws.CompileSucceedsInWords` | internal/core/policy.go:59-127 | Compilation succeeds if and only if every reachable name is well formed, present and on no include cycle, each of its rules is well formed, and no repair grant holds `*`, `?` or `[`. |
| `DecisionLaws.RepairGrantsArePlain` | internal/core/policy.go:105-107 | No compiled repair grant holds one of the three characters, so it permits its own resource alone. |
| `DecisionLaws.RepairPermitsExactly` | internal/core/policy.go:105-161 | A repair is permitted if and only if a reachable profile grants exactly its target and no reachable denial meets it. |
| `ProfileLoader.Loader.constructor` | internal/core/config.go:151 | Loading starts with no profiles. |
| `ProfileLoader.Loader.LoadProfile` | internal/core/config.go:153-182 | The bounded recursive closure leaves exactly the value-level result: the same profiles, or a refusal of the same name. |
| `ProfileLoader.Load` | internal/core/config.go:183-192 | Loading and then compiling gives the value-level outcome characterised below. |
| `ProfileLoader.LoadedExactly` | internal/core/config.go:153-187 | For any directory, cyclic or not: success holds exactly the reachable profiles, unchanged; a refusal names a reachable profile that is invalid, missing or behind an include path of more than 32 distinct profiles, or there really are more than 128 reachable profiles. |
| `ProfileLoader.LoadedWithinLimits` | internal/core/config.go:153-182 | A load that succeeds holds at most 129 profiles, each well named and reached by an include path of at most 32 distinct profiles, 31 if it includes others itself. |
| `ProfileLoader.LoadedPolicyIsDirectoryPolicy` | internal/core/config.go:183-192 | When loading succeeds, compiling what was loaded gives the same policy, or the same error, as compiling the whole directory. |
| `LegacyProfiles.Walker.constructor` | internal/migrate/migrate_linux.go:201-203 | The walk starts with nothing seen, open or read. |
| `LegacyProfiles.Walker.VisitProfile` | internal/migrate/migrate_linux.go:205-264 | The closure over `seen`, `visiting` and `bytesRead` ends in exactly the value-level state or stops exactly when it does. |
| `LegacyProfiles.Walker.VisitIncludes` | internal/migrate/migrate_linux.go:256-260 | The include loop, one level deeper. |
| `LegacyProfiles.Walker.Locate` | internal/migrate/migrate_linux.go:218-254 | The directory loop: the first directory holding the file decides; an unclean directory or failed read ends the search. |
| `LegacyProfiles.ActiveLegacyProfiles` | internal/migrate/migrate_linux.go:194-276 | Success returns the reachable names, strictly ascending, each valid, readable and on no cycle; failure means a reachable profile is at fault or the reachable profiles exceed a limit; an empty directory list stands for the standard directory. |
| `LegacyProfiles.WalkNames` | internal/migrate/migrate_linux.go:265-275 | The loop over the names and the sorted result, for the directories searched. |
| `LegacyProfiles.WalkedExactly` | internal/migrate/migrate_linux.go:205-269 | A completed walk has seen exactly the reachable names, and the reachable graph is acyclic. |
| `LegacyProfiles.VisitShape` | internal/migrate/migrate_linux.go:205-264 | A completed visit adds exactly a duplicate-free list of reachable profiles, includes first. |
| `LegacyProfiles.RefusalJustified` | internal/migrate/migrate_linux.go:206-254 | A refusal has a cause: a reachable name that is invalid, unreadable, on a cycle or more than 64 includes deep, more than 128 reachable profiles, or more than 8 MiB of reachable text. |
| `LegacyProfiles.WalkedWithinLimits` | internal/migrate/migrate_linux.go:205-269 | A completed walk has read at most 8 MiB in at most 192 profiles (only closed ones count against 128, and 65 may be open when the last passes that test), each at most 64 includes deep. |
| `LegacyProfiles.FoundExactly` | internal/migrate/migrate_linux.go:218-254 | A profile is found if and only if the first directory that holds its file is clean, as are those before it, and the file can be read, decodes and has valid rules. |
| `LegacyProfiles.LegacyNameExactly` | internal/migrate/migrate_linux.go:137 | A name is a letter or digit followed by up to 63 letters, digits, dashes and underscores. |
| `Text.SortNames` | internal/migrate/migrate_linux.go:270-275 | The sorted enumeration of a set: strictly ascending, with exactly the set's members. |
| `Text.AscendingUnique` | internal/migrate/migrate_linux.go:274 | A set has only one strictly ascending enumeration. |
| `ToolGate.Authorize` | internal/server/server.go:295-313 | The gate's answer is the conjunction of read-only state, target form, role, capability and policy, with discovery and collection tools using advertisement. |
| `ToolGate.Register` | internal/server/server.go:378-383 | A name is registered exactly when its catalog entry passes effect, capability and advertisement. |
| `ToolGate.Find` | internal/server/server.go:266-273 | The lookup returns the entry of that name, or reports that there is none. |
| `ToolGate.MayDiscover` | internal/server/server.go:362-363 | A name passes the listing filter exactly when its catalog entry is authorized for discovery. |
| `ToolGate.ListTools` | internal/server/server.go:360-368 | The listing is the offered tools this identity may discover, all of them, in the offered order. |
| `ToolGate.CallTool` | internal/server/server.go:337-350 | A call is passed on exactly when the tool is known, its target decodes and the gate authorizes it. |
| `ToolGate.ToolEffects` | internal/server/server.go:275-284 | The effects map is the catalog's, and its duplicate check never fires. |
| `ToolGate.CatalogNamesDistinct` | internal/server/server.go:123-264 | No two catalog entries share a name. |
| `ToolGate.RepairToolsAreRestarts` | internal/server/server.go:123-264 | The only tools with the repair effect are the two restarts. |
| `ToolGate.CallableIsListed` | internal/server/server.go:295-313 | A call authorized for a slash-free resource is authorized for discovery and registered. |
| `ToolGate.PassedCallIsListed` | internal/server/server.go:328-370 | At request level: whatever the call path passes on is discoverable and registered, whatever the arguments, unless a service name holds a slash. |
| `ToolGate.CallableIsListedExactly` | internal/server/server.go:295-313 | For any tool and resource, an authorized call's tool is discoverable, and registered, if and only if the policy has no literal `*` denial for it. |
| `ToolGate.ListedRepairHasTarget` | internal/server/server.go:295-313 | For a discoverable repair tool some call is authorized if and only if some grant is unblocked and has the identifier form the tool demands; for service restarts that is always so. |
| `ToolGate.RepairCallPasses` | internal/server/server.go:295-313 | A call of a discoverable repair tool is authorized exactly for the resources of its unblocked grants of the right form. |
| `ToolGate.ListedRestartWithoutTarget` | internal/server/server.go:295-313 | Instance: a compiled policy with the one grant `web` lists and registers `restart_container` while no call of it passes, whatever the arguments. |
| `ToolGate.SlashTargetCanBeHidden` | internal/server/server.go:295-313 | Instance: a compiled policy under which a `service_status` call for `a/b` passes although the tool is neither listed nor registered. |
| `ToolGate.IDsHaveNoSlash` | internal/containers/docker.go:122-132 | A full container identifier contains no slash. |
| `GateLaws.CallPassesExactly` | internal/server/server.go:295-350 | By tool name, without the catalog: a call passes if and only if the identity has the repair role for a restart and the observe role otherwise, the host is not read-only and can repair for a restart, Docker is there for a container tool, a service is named or a container identified by 64 hex characters, and the policy permits the target (or, for a listing, offers the tool). |
| `GateLaws.DiscoverableExactly` | internal/server/server.go:360-368 | A tool is listed if and only if identity and host are equipped for it and the policy offers it. |
| `GateLaws.RegisteredExactly` | internal/server/server.go:378-383 | A tool is registered if and only if the host is equipped for it and the policy offers it. |
| `TokenRecords.CheckRecords` | internal/auth/store.go:91-116 | The validation loop accepts exactly the lists of valid records with distinct identifiers and distinct hashes. |
| `TokenRecords.AcceptedExactly` | internal/auth/store.go:88-117 | A list is accepted if and only if every record has an identifier, a name and 64 hex characters of hash, roles among observe and repair, at least one while it is active, and no identifier or hash occurs twice. |
| `TokenRecords.IndexOf` | internal/auth/store.go:237-242 | The first record with the identifier. |
| `TokenRecords.RotatableIndex` | internal/auth/store.go:264-268 | The first record with the identifier that is neither revoked nor expired. |
| `TokenRecords.ChangeAccepted` | internal/auth/store.go:228-279 | Every list a change yields from an accepted list is accepted by the next read. |
| `TokenRecords.ChangeNarrows` | internal/auth/store.go:237-276 | A change keeps every record's identity, hash, name and roles, and makes none valid at a new instant. |
| `TokenRecords.RevokedStaysDead` | internal/auth/store.go:235-245 | After a revocation the record is valid at no instant in any later list. |
| `TokenRecords.RotationLeavesNoGap` | internal/auth/store.go:249-285 | Right after a rotation the new token is valid at every instant the retired one still is, has its roles, and no other record changed. |
| `TokenRecords.HistoryEvolves` | internal/auth/store.go:209-285 | Over every history, between any two points every record's validity only shrinks and its identity and roles stay. |
| `TokenRecords.HistoryAccepted` | internal/auth/store.go:151-172 | Over every history from an accepted list, every list is accepted. |
| `TokenRecords.RotationKeepsRoles` | internal/auth/store.go:272-275 | In the final list of a history a rotated token and its heir have the same roles. |
| `TokenRecords.LineageKeepsRoles` | internal/auth/store.go:249-285 | Roles are constant along any rotation lineage of any history. |
| `TokenStore.Store.constructor` | internal/auth/store.go:64-69 | A store without a file reads as the empty list. |
| `TokenStore.Store.Read` | internal/auth/store.go:64-118 | A read returns the stored list or an error; where no I/O step fails it returns the list if and only if it is in bound and acceptable. |
| `TokenStore.Store.Publish` | internal/auth/store.go:170-206 | Before the rename the file is unchanged; after it the file holds exactly the new list, of at most 1 MiB, even when a late error is reported; where no step fails it succeeds. |
| `TokenStore.Store.Create` | internal/auth/store.go:209-233 | Either nothing changes, or the list is the old one with exactly the new record behind it; success implies that, and the hash is blanked; where no I/O step fails it succeeds if and only if store, name, roles, expiry and size are in order; with a fresh identifier and hash a readable store stays readable. |
| `TokenStore.Store.Revoke` | internal/auth/store.go:235-245 | Either nothing changes, or the first record of that identifier is revoked and every other one is as it was; where no I/O step fails it succeeds if and only if the store is readable and the record exists (and the list fits). |
| `TokenStore.Store.Rotate` | internal/auth/store.go:249-285 | Either nothing changes, or the first current record of that identifier expires at the overlap and an heir with its name and roles, the new identifier, hash and expiry is appended, all others as they were; where no I/O step fails it succeeds if and only if the request is in order and there is such a record. |
| `TokenStore.Store.PublishRotation` | internal/auth/store.go:264-277 | The rotation of the record found is the only one possible, and is published in one update. |
| `TokenStore.Store.Verify` | internal/auth/store.go:122-149 | A secret passes if and only if it has 32 to 128 bytes and some stored record holds its hash, the old scheme's for a legacy record and the new one's otherwise, is unrevoked and unexpired; the first such record is returned with its hash blanked, and it has a role. |
| `TokenStore.Store.CreateThenVerify` | internal/auth/store.go:209-233 | End to end: the secret of a created token verifies as that token, with its name and roles, if and only if the token does not expire or has not expired yet. |
| `TokenStore.Store.List` | internal/auth/store.go:287-298 | Every record is shown, in order, with its hash blanked. |
| `TokenProtocol.StepInv` | internal/auth/store.go:151-207 | Every step of every process, including failures and crashes, keeps the protocol invariant. |
| `TokenProtocol.RunInv` | internal/auth/store.go:151-207 | Every state of every run satisfies the invariant. |
| `TokenProtocol.StoreAlwaysWhole` | internal/auth/store.go:151-207 | In every state of every interleaving the path holds one complete list that the next read accepts, within the 1 MiB bound, and successive published lists differ by exactly one applied change. |
| `TokenProtocol.UpdateReads` | internal/auth/store.go:157-172 | Undisturbed, locking, reading and changing run through whenever the change exists and is in bound, and touch no file. |
| `TokenProtocol.UpdateWrites` | internal/auth/store.go:174-207 | Undisturbed, the rest of the update publishes exactly the changed list and leaves the lock. |
| `TokenProtocol.OnlyRenameChangesTheList` | internal/auth/store.go:179-207 | Only a rename changes what the path holds; a failure or crash before it changes nothing. |
| `TokenProtocol.HistoryOnlyGrows` | internal/auth/store.go:198 | Published lists and applied changes are only ever appended to. |
| `TokenProtocol.NothingPublishedIsLost` | internal/auth/store.go:157-207 | No lost update: every list ever published survives, record by record, in every later one. |
| `TokenProtocol.ReadersSeeWholeLists` | internal/auth/store.go:122-149 | A lock-free reader that opened the path at some step, and has not opened it again, finishes with the list that was current at that step, complete and accepted. |
| `TokenProtocol.RevokedForEveryLaterReader` | internal/auth/store.go:122-149 | No reader that opens the path after a revocation was published finds that record valid at any instant. |
| `TokenProtocol.ReaderKeepsItsList` | internal/auth/store.go:64-73 | Whatever is published meanwhile, an open reader stays with the list that was current when it opened. |
| `TokenMigration.ScanRoles` | internal/migrate/migrate_linux.go:324-333 | Unknown roles are refused; otherwise the flag says whether a diagnostic role occurs. |
| `TokenMigration.ConvertOne` | internal/migrate/migrate_linux.go:310-337 | One record converts exactly when its fields and roles are valid. |
| `TokenMigration.ConvertTokens` | internal/migrate/migrate_linux.go:295-341 | A list converts if and only if all records are valid with distinct identifiers and hashes, record by record in order. |
| `TokenMigration.ConversionExactly` | internal/migrate/migrate_linux.go:306-340 | In words: which version 1 lists convert, and that each record keeps identifier, name, expiry and hash, is marked legacy, observes if it had one of the three diagnostic roles, and is revoked if it was or had none. |
| `TokenMigration.ConvertedListAccepted` | internal/migrate/migrate_linux.go:306-340 | Every converted list is accepted by the version 2 reader, and no token has a role beyond observe. |
| `TokenMigration.ConvertedSecretsVerifyExactly` | internal/migrate/migrate_linux.go:334-337 | Over a converted list a secret opens a record if and only if the old record was active, diagnostic, unexpired and has its hash. |
| `TokenMigration.VerifyMigrated` | internal/auth/store.go:122-149 | Verification against a migrated in-bound store accepts exactly the secrets with such an old record, and grants observe only. |
| `DockerFrames.Uint32` | internal/containers/docker.go:309 | Decoding of four bytes stays below 2^32. |
| `DockerFrames.Uint32Order` | internal/containers/docker.go:309 | The decoding is big-endian: numbers are ordered as their bytes read from left to right. |
| `DockerFrames.PutUint32` | internal/containers/docker.go:309 | The inverse of the big-endian decoding. |
| `DockerFrames.CompleteFrames` | internal/containers/docker.go:304-319 | The scanner returns the end of the longest prefix that is a concatenation of whole frames, and true exactly when that is the whole input. |
| `DockerFrames.PrefixEndLongest` | internal/containers/docker.go:304-319 | The reference position is framed and no longer prefix is. |
| `DockerFrames.WholeBeforeExact` | internal/containers/docker.go:304-319 | The frames counted before a cut end at or before it, and the next one ends after it. |
| `DockerFrames.CutRecoversWholeFrames` | internal/containers/docker.go:394-400 | Encoding any frame list and cutting it at any byte recovers exactly the frames wholly before the cut. |
| `DockerFrames.EncodingRoundTrip` | internal/containers/docker.go:304-319 | Decoding a whole encoding gives the frames back. |
| `DockerFrames.PrefixFrames` | internal/containers/docker.go:398-400 | The frames of a prefix are a prefix of the frames. |
| `DockerFrames.PrefixEndKeepsFrames` | internal/containers/docker.go:398-400 | Cutting to the scanner's position loses no whole frame. |
| `LogCollector.Collector.constructor` | internal/containers/docker.go:389 | An empty collector. |
| `LogCollector.Collector.Write` | internal/containers/docker.go:326-338 | The collector keeps the longest prefix that fits 64 KiB and 200 chunks; an error is reported exactly when a limit bites. |
| `LogCollector.WriteFrame` | internal/containers/docker.go:401 | One frame's write adds its labelled payload, or a leading part of it where a cap is reached. |
| `LogCollector.Demultiplex` | internal/containers/docker.go:401 | Feeding frames in order keeps labels and order; a complete feed holds every frame, a limited one a leading part with a cap reached. |
| `LatestLines.IndexNewline` | internal/containers/docker.go:355 | The first newline, or the end. |
| `LatestLines.CountLines` | internal/containers/docker.go:341-347 | Newlines plus one unless the last chunk ends a line. |
| `LatestLines.LinesCounted` | internal/containers/docker.go:341-347 | The line count is the number of newline bytes, plus one where the last chunk does not end in one. |
| `LatestLines.DropFromChunk` | internal/containers/docker.go:354-362 | The inner loop leaves the text behind the drop-th newline and the number of lines still to drop. |
| `LatestLines.DropLines` | internal/containers/docker.go:351-366 | The outer loop yields the trimmed chunk list whose text, origins and line count are stated below. |
| `LatestLines.KeepLatestLines` | internal/containers/docker.go:340-368 | Above the limit the result is the trimmed chunk list characterised below; otherwise the input unchanged. |
| `LatestLines.AfterNewlineExact` | internal/containers/docker.go:354-362 | The cut position stands right behind the drop-th newline. |
| `LatestLines.TrimText` | internal/containers/docker.go:351-366 | The kept text is exactly the concatenated text behind the drop-th newline. |
| `LatestLines.TrimOrigin` | internal/containers/docker.go:353-366 | Each kept chunk is a non-empty suffix of one original with the same stream, in order. |
| `LatestLines.TrimLines` | internal/containers/docker.go:340-368 | At most `limit` lines remain, exactly `limit` when the last chunk is non-empty. |
| `ContainerLogs.CopyTerminal` | internal/containers/docker.go:391-392 | The terminal path holds a leading part of the raw stream: all of it, or up to a cap. |
| `ContainerLogs.CopyFrames` | internal/containers/docker.go:393-402 | The multiplexed path holds leading frames: all whole ones delivered, or up to a cap; an uncut body with a partial frame is refused; a refusal means that or an unknown stream. |
| `ContainerLogs.TrimToLimit` | internal/containers/docker.go:406-407 | The last stage yields a window within every cap and reports every truncation. |
| `ContainerLogs.ReadLogs` | internal/containers/docker.go:370-408 | The returned chunks are the latest `limit` lines of what was collected: all that the transport delivered, or a leading part that reaches a cap. So the text is a contiguous window of the whole demultiplexed stream, at most 64 KiB, 200 chunks and `limit` lines; not truncated means the whole stream with labels and order; truncation is reported only with a cause, and refusals are justified. |
| `ContainerLogs.ReadFrames` | internal/containers/docker.go:370-408 | For a container that wrote these frames: each returned chunk is part of one frame's payload, in order, on stderr exactly where the frame's header byte is 2; not truncated means every frame whole; a log below every cap and limit comes back whole. |
| `RepairWorker.Worker.constructor` | internal/repair/repair_linux.go:74-75 | A worker that has done nothing. |
| `RepairWorker.Worker.Record` | internal/repair/repair_linux.go:65-72 | An audit line is written, or an error is reported with or without it. |
| `RepairWorker.Worker.Deny` | internal/repair/repair_linux.go:76-82 | A denial is answered with its code only after its audit line was written; an error of the write gives 503. |
| `RepairWorker.Worker.Handle` | internal/repair/repair_linux.go:74-126 | A request makes observable exactly the item list whose properties are proved below. |
| `RepairWorker.Worker.Perform` | internal/repair/repair_linux.go:125-173 | From the start event of an authorized request to its answer: exactly the items proved below. |
| `RepairWorker.Worker.Restart` | internal/repair/repair_linux.go:133-153 | The call of the restarter: the end of the native restart is seen only when the outcome is known, the call returns in any case. |
| `RepairWorker.RestartingShape` | internal/repair/repair_linux.go:125-173 | Where start event, restart, end, return, closing event and answer of a request stand. |
| `RepairWorker.OutcomeTells` | internal/repair/repair_linux.go:154-166 | The closing event's outcome is `restart_outcome_unknown` exactly when the end of the restart is unknown. |
| `RepairWorker.Verified` | internal/auth/store.go:138-147 | The identity found is a stored record that opens for the secret. |
| `RepairWorker.PermittedRepairIsRestart` | internal/repair/repair_linux.go:121 | A permitted repair names one of the two restarts. |
| `RepairWorker.ItemsShape` | internal/repair/repair_linux.go:74-173 | Within one request a restart stands right behind its own recorded start event and all checks held; a 200 stands right behind the closing event; denied events name no tool or target. |
| `RepairWorker.RunInv` | internal/repair/repair_linux.go:201-211 | Every state of every run with the single admission slot satisfies the invariant. |
| `RepairWorker.EveryRestartIsAudited` | internal/repair/repair_linux.go:74-173 | In every run each restart has its own earlier allowed/started event with the same request, token, tool and target, and every check held one by one: gateway peer, `POST`, `/restart`, settings present, not read-only and with the server's identities, token path and socket, a loadable directory, the first stored record with the secret's hash, unrevoked, unexpired, in the repair role and with the audited identifier, a reachable grant of exactly this target and no reachable denial that meets it; and the call of every earlier restart, of another request, has returned. |
| `RepairWorker.AuthorizedExactly` | internal/repair/repair_linux.go:83-124 | A request is authorized for a token if and only if each of those checks holds for it. |
| `RepairWorker.VerifiedFirst` | internal/auth/store.go:138-147 | The identity found is the first stored record with the secret's hash that is unrevoked and unexpired, and there is none if no record is. |
| `RepairWorker.CheckedRequest` | internal/repair/repair_linux.go:125-173 | A request that passes every check calls the restarter if and only if its start event was written and it names a restart with a restarter; it is answered 200 if and only if, besides, the restart returned and its closing event was written, and 503 otherwise; the closing event tells failure, the issue, or completion. |
| `RepairWorker.UncheckedRequest` | internal/repair/repair_linux.go:74-124 | A request that fails a check shows one denied event, without tool and target and with no token but a stored one, and is answered 400 for an unusable body, 403 otherwise, and 503 if the event was not written. |
| `RepairWorker.EndedExactlyWhenKnown` | internal/repair/repair_linux.go:201-211 | In every run and for every two restarts the first is seen to end before the second begins if and only if its recorded outcome is not `restart_outcome_unknown`; with an unknown outcome it is never seen to end. |
| `RepairOverlap.SecondRestartBeginsBesideTheFirst` | internal/status/repair_linux.go:43-50 | Instance family: any two authorized requests whose calls return with an unknown outcome give a run with two restarts and no end of either. |
| `RepairOverlap.SampleLeavesOpen` | internal/containers/docker.go:421-424 | Such requests exist: a repair token's restart of a granted service. |
| `RepairWorker.AnswersAndDenials` | internal/repair/repair_linux.go:74-173 | In every run a 200 has its recorded closing event, and denied events carry no tool or target. |
| `Uninstall.Uninstaller.constructor` | internal/uninstall/uninstall_linux.go:169-170 | The command starts on the given host. |
| `Uninstall.Uninstaller.InspectUnits` | internal/uninstall/uninstall_linux.go:126-154 | Units are accepted exactly when no stat or read fails and each is absent or holds trusted packaged bytes; the active list is those present, in order. |
| `Uninstall.Uninstaller.Inspect` | internal/uninstall/uninstall_linux.go:123-167 | The host is accepted exactly when, besides, the binary can be read and is absent or recognized. |
| `Uninstall.Uninstaller.RestoreUnits` | internal/uninstall/uninstall_linux.go:105-121 | Every removed unit is tried; errors do not stop the loop. |
| `Uninstall.Uninstaller.StopUnits` | internal/uninstall/uninstall_linux.go:188-195 | Units are disabled and stopped in order up to the first failure. |
| `Uninstall.Uninstaller.RemoveUnits` | internal/uninstall/uninstall_linux.go:200-207 | Unit files are removed in order up to the first failure, and exactly those are recorded. |
| `Uninstall.Uninstaller.Execute` | internal/uninstall/uninstall_linux.go:169-225 | A run ends in the value-level result characterised below, with a failing stop or reload that may still have taken effect; a preview changes nothing. |
| `Uninstall.TurnedBack` | internal/uninstall/uninstall_linux.go:200-216 | A run that turns back keeps every unit path it did not remove, leaves the others as their restores left them, keeps the binary, and has reloaded only if the reload took effect in spite of its error. |
| `Uninstall.RunTouchesOnlyItsOwn` | internal/uninstall/uninstall_linux.go:123-222 | A run, whatever fails, removes only a recognized binary, changes or removes only its own unit files that held the trusted packaged bytes, stops only units with such a file, and adds no file. |
| `Uninstall.RefusedExactly` | internal/uninstall/uninstall_linux.go:123-167 | A run refuses, and then changes nothing, if and only if the binary is foreign, a unit file is altered or untrusted, or a path cannot be read. |
| `Uninstall.RunStaysAccepted` | internal/uninstall/uninstall_linux.go:105-167 | After any run from an accepted host `inspect` accepts again if and only if no attempted restore left other content behind. |
| `Uninstall.RunStaysRecoverable` | internal/uninstall/uninstall_linux.go:169-225 | A faulty run leaves the host recoverable if and only if every restore it attempted left no other content and no loaded unit without its file. |
| `Uninstall.RemovalIsOrdered` | internal/uninstall/uninstall_linux.go:200-222 | From a recoverable host the binary goes only with no unit file left and nothing loaded; a unit file that stays away has its unit stopped; a failing run keeps the binary, and when restores put content back it keeps all unit files or has removed and reloaded them all. |
| `Uninstall.RunsStayRecoverable` | internal/uninstall/uninstall_linux.go:105-225 | Any sequence of faulty runs whose restores succeed leaves the host recoverable. |
| `Uninstall.RetryCompletes` | internal/uninstall/uninstall_linux.go:169-225 | After any such sequence `inspect` accepts, and one fault-free run removes every unit and the binary. |
| `Uninstall.PartialRestoreBlocksRetry` | internal/uninstall/uninstall_linux.go:112-118 | Other content left by any attempted restore makes every later run refuse and change nothing. |
| `Uninstall.CleanRunCompletes` | internal/uninstall/uninstall_linux.go:169-225 | A fault-free run from any accepted host removes every unit and the binary; it skips the reload when it finds no unit file. |
| `Uninstall.BinaryGoesWhileLoadedExactly` | internal/uninstall/uninstall_linux.go:208-222 | The run after any accepted one can remove the binary with a unit still loaded if and only if that run removed every unit file, failed to reload and put none back (or found it so and failed to inspect or to remove the binary); then the next fault-free run does so and reports success. |
| `Uninstall.RetryCanSkipTheReload` | internal/uninstall/uninstall_linux.go:208-222 | Instance: one unit, one failed reload and one failed restore, and the retry reports success with the unit still loaded. |
| `PlanCodec.DecimalInjective` | internal/lifecycle/manager_linux.go:477 | Distinct numbers have distinct decimal texts. |
| `PlanCodec.FieldsUnique` | internal/lifecycle/manager_linux.go:428-461 | Optional group and user fields can be read back uniquely from the stream. |
| `PlanCodec.DirsUnique` | internal/lifecycle/manager_linux.go:462-479 | So can directory presence, owner, group and permissions. |
| `PlanCodec.FilesUnique` | internal/lifecycle/manager_linux.go:492-510 | So can per-file presence and digest, although a digest may contain any byte. |
| `PlanCodec.ActivesUnique` | internal/lifecycle/manager_linux.go:574-576 | So can the list of units to start. |
| `PlanCodec.EntriesUnique` | internal/lifecycle/manager_linux.go:391-405 | So can the release's sorted member and checksum entries. |
| `PlanDigest.ReleaseText` | internal/lifecycle/manager_linux.go:391-405 | The loop writes the entries of all members in sorted order. |
| `PlanDigest.HashFields` | internal/lifecycle/manager_linux.go:428-461 | The loop appends the identity fields. |
| `PlanDigest.HashDirs` | internal/lifecycle/manager_linux.go:462-479 | The loop appends the directory fields. |
| `PlanDigest.HashFiles` | internal/lifecycle/manager_linux.go:492-510 | The loop appends each path and, for a present file, its fingerprint. |
| `PlanDigest.HashActive` | internal/lifecycle/manager_linux.go:574-576 | The loop appends the units to start. |
| `PlanDigest.PreviewStream` | internal/lifecycle/manager_linux.go:423-577 | The writes of a preview, in order, make up the stream whose readability is proved. |
| `PlanDigest.PathsReadable` | internal/lifecycle/manager_linux.go:480-491 | No path of the plan's file list starts its predecessor, for any release profiles. |
| `PlanDigest.ReleaseUnique` | internal/lifecycle/manager_linux.go:391-405 | Equal release texts mean equal checksum maps and equal profile lists. |
| `PlanDigest.BodyUnique` | internal/lifecycle/manager_linux.go:428-576 | Equal bodies mean equal identities, directory metadata, file presence and digests, and start lists. |
| `PlanDigest.BodyClear` | internal/lifecycle/manager_linux.go:428-576 | Nothing written behind the release fingerprint, raw digests included, can be mistaken for a colon, an architecture and a fingerprint. |
| `PlanVersion.OneMark` | internal/lifecycle/manager_linux.go:425-427 | Behind a version's end mark no second one can stand. |
| `PlanVersion.VersionUnique` | internal/lifecycle/manager_linux.go:425-427 | So streams that agree behind action and flag carry the same version, fingerprint and body, whatever text a version is. |
| `PlanDigest.StreamUnique` | internal/lifecycle/manager_linux.go:423-577 | Equal streams on one architecture mean equal action, start flag, release version and checksums, identities, directories, file presence and digests, and active units; a version is free text and may hold colons. |
| `PlanDigest.GateAdmitsOnlyThePreviewedState` | internal/lifecycle/manager_linux.go:683-685 | With no hash collision between the two previews, the gate lets `Apply` proceed only on the previewed release, version included, and the previewed target state. |
| `PlanDigest.GateAdmitsOnlyThePreviewedBytes` | internal/lifecycle/manager_linux.go:686-692 | The re-read release that passes the fingerprint check has exactly the previewed bytes. |
| `LifecycleHost.Host.constructor` | internal/lifecycle/manager_linux.go:675-678 | A host without a rollback copy. |
| `LifecycleHost.Host.Capture` | internal/lifecycle/manager_linux.go:581-597 | A snapshot holds content, permission bits and owner, or absence. |
| `LifecycleHost.Host.Write` | internal/lifecycle/manager_linux.go:599-633 | The file is replaced whole or not at all; an error may follow the replacement. |
| `LifecycleHost.Host.RemoveFile` | internal/lifecycle/manager_linux.go:732-735 | The file is gone or unchanged; absence is no error. |
| `LifecycleHost.Host.MakeDir` | internal/lifecycle/manager_linux.go:805-808 | The directory is created or nothing changes. |
| `LifecycleHost.Host.RemoveDir` | internal/lifecycle/manager_linux.go:738-740 | A directory is removed only when empty, and without a fault an empty one is removed. |
| `LifecycleHost.Host.RemoveCopy` | internal/lifecycle/manager_linux.go:745-747 | Removing the rollback copy; a failing removal may have lost any part of it. |
| `LifecycleHost.Host.Stop` | internal/lifecycle/manager_linux.go:854-858 | A stop affects only its unit, and a failing one may have taken effect. |
| `LifecycleHost.Host.Start` | internal/lifecycle/manager_linux.go:918-921 | A start leaves a running unit alone and otherwise launches the installed binary with the loaded definition; a failing one may have taken effect. |
| `LifecycleHost.Host.DisableNow` | internal/lifecycle/manager_linux.go:721-723 | Disabling with `--now` affects only its unit. |
| `LifecycleHost.Host.Enable` | internal/lifecycle/manager_linux.go:927-931 | Enabling affects only its unit. |
| `LifecycleHost.Host.Reload` | internal/lifecycle/manager_linux.go:741 | After a reload systemd has the definitions in the installed unit files. |
| `LifecycleLog.SnapshotCovers` | internal/lifecycle/manager_linux.go:860-874 | A snapshot pushed before a write covers the write, whether or not it took effect. |
| `LifecycleLog.RestoredExactly` | internal/lifecycle/manager_linux.go:727-737 | Restored files equal the originals if and only if no snapshotted file carried special mode bits. |
| `LifecycleLog.RestoredData` | internal/lifecycle/manager_linux.go:727-737 | Content, and so unit definitions and the binary, is always restored. |
| `LifecycleLog.NextDirEmpty` | internal/lifecycle/manager_linux.go:738-740 | Going backwards, each created directory is empty once the files are restored. |
| `LifecycleLog.UpgradeUnitsBack` | internal/lifecycle/manager_linux.go:724-744 | Stopping what was started and starting what was active brings back exactly the prior units, on the prior binary and definitions except a unit a failing start left running. |
| `Lifecycle.InstallAllAt` | internal/lifecycle/manager_linux.go:860-902 | Installing a release leaves every other path alone. |
| `Lifecycle.Transaction.constructor` | internal/lifecycle/manager_linux.go:703-708 | An empty log over the present host. |
| `Lifecycle.Transaction.CreateDirectories` | internal/lifecycle/manager_linux.go:800-816 | Whatever fails, every created directory is logged; success means all three exist; where no step fails it succeeds, over existing directories too. |
| `Lifecycle.Transaction.CopyForRollback` | internal/lifecycle/manager_linux.go:817-844 | The verified copy holds every listed file's content, mode and owner. |
| `Lifecycle.Transaction.ListActive` | internal/lifecycle/manager_linux.go:845-853 | The prior list holds only running units, and all of ours when listing succeeds. |
| `Lifecycle.Transaction.StopPrior` | internal/lifecycle/manager_linux.go:854-858 | Whatever fails, the unit log stays sound; on success no prior unit runs. |
| `Lifecycle.Transaction.PutFile` | internal/lifecycle/manager_linux.go:860-874 | One put: a snapshot is logged before the write, so the log covers it even when the write fails; success means the file is written, or kept when it exists and is not to be replaced. |
| `Lifecycle.Transaction.InstallFiles` | internal/lifecycle/manager_linux.go:860-902 | Whatever fails, every changed file has a snapshot; success means all puts took effect. |
| `Lifecycle.Transaction.StartPrior` | internal/lifecycle/manager_linux.go:914-926 | Each prior unit runs the new binary and definition; what a failing start left running is tracked. |
| `Lifecycle.Transaction.StartGateway` | internal/lifecycle/manager_linux.go:914-931 | Only the gateway changes; success means it is enabled and runs, from the new files and definitions if it did not run before. |
| `Lifecycle.Transaction.StopStarted` | internal/lifecycle/manager_linux.go:724-726 | Exactly started units are stopped; others are untouched. |
| `Lifecycle.Transaction.RestoreFiles` | internal/lifecycle/manager_linux.go:727-737 | Success means every snapshot is back; without a fault it succeeds. |
| `Lifecycle.Transaction.RemoveCreated` | internal/lifecycle/manager_linux.go:738-740 | Success means the directories are the originals; without a fault it succeeds. |
| `Lifecycle.Transaction.RestartPrior` | internal/lifecycle/manager_linux.go:742-744 | Only prior units are started, from the present files. |
| `Lifecycle.Transaction.UndoFiles` | internal/lifecycle/manager_linux.go:727-741 | Files, directories and loaded definitions are back. |
| `Lifecycle.Transaction.HaltUnits` | internal/lifecycle/manager_linux.go:721-726 | A started gateway of an install is stopped and disabled; an upgrade's started units are stopped. |
| `Lifecycle.Transaction.Undo` | internal/lifecycle/manager_linux.go:721-744 | Files, directories, definitions and units are back, unless an undoing operation itself failed. |
| `Lifecycle.Transaction.Rollback` | internal/lifecycle/manager_linux.go:718-752 | The whole deferred rollback: everything is undone unless an undoing operation failed, and then the copy is kept whole; a complete rollback removes the copy, and if that fails part of it may be gone. |
| `Lifecycle.Transaction.Recover` | internal/lifecycle/manager_linux.go:717-752 | After a failed body: undone with the copy gone, undone with part of the copy left, or an undoing operation failed and the copy is whole; undone files are rooted and exact unless special bits were lost. |
| `Lifecycle.Transaction.Commit` | internal/lifecycle/manager_linux.go:710-717 | After a successful body: the copy is removed, or part of it is left and an error reported. |
| `Lifecycle.Transaction.Quiesce` | internal/lifecycle/manager_linux.go:817-859 | Copy, list and stop: the logs stay sound whatever fails. |
| `Lifecycle.Transaction.Activate` | internal/lifecycle/manager_linux.go:904-931 | Reload and start: the unit log stays sound whatever fails. |
| `Lifecycle.Transaction.Prepare` | internal/lifecycle/manager_linux.go:753-859 | Identities, directories and a quiet host: the logs stay sound whatever fails, and on success the copy holds the originals and no prior unit runs. |
| `Lifecycle.Transaction.Deploy` | internal/lifecycle/manager_linux.go:860-931 | Files, reload and starts: the logs stay sound whatever fails, and a unit a failing start left running runs the new release. |
| `Lifecycle.Transaction.Body` | internal/lifecycle/manager_linux.go:753-932 | Whatever step fails, the logs cover everything done so far; where none fails the body succeeds. |
| `Lifecycle.Apply` | internal/lifecycle/manager_linux.go:703-932 | Either all of the release is installed, every directory exists and the same units run again on it (an install starts the gateway from the new release and enables it if asked to, and changes no other unit); or files (exactly, if none had special bits), directories, definitions and units are as before; or an undoing operation failed and the copy still holds the originals. Only a failed removal of the copy after that can lose part of it. A rolled-back install never leaves the gateway running or enabled if it was not before; a unit that a failing start left running still runs the new release after an upgrade's rollback. Where no step fails the release is applied; where no step of the rollback fails it is complete. |
| `Lifecycle.UpgradedUnits` | internal/lifecycle/manager_linux.go:914-926 | A successful upgrade runs exactly the units that ran before, on the new binary and definitions. |
| `Lifecycle.OriginalProcessesExactly` | internal/lifecycle/manager_linux.go:724-744 | A rolled-back upgrade runs the original processes if and only if no failing start left a unit running, or that unit's binary and definition are the same in the new release as in the old. |
| `Lifecycle.SpecialBitsAreLost` | internal/lifecycle/manager_linux.go:595 | Counterexample: a set-id binary comes back without its special bits. |
| `Readiness.WaitReady` | internal/lifecycle/manager_linux.go:161-207 | The wait succeeds if and only if some unbroken run of healthy probes lasted a second, and at the first probe that completes one. |
| `Readiness.LongestRun` | internal/lifecycle/manager_linux.go:188-200 | Resetting on failure loses nothing: if the longest healthy run ending at a probe is too short, every run ending there is. |
| `ReleaseChain.PutsDistinct` | internal/lifecycle/manager_linux.go:880-902 | The puts of any release name distinct paths. |
| `ReleaseChain.InstallAllPut` | internal/lifecycle/manager_linux.go:860-874 | Each put decides its own path: the new content, or the old one when it exists and is not to be replaced. |
| `ReleaseChain.AppliedHolds` | internal/lifecycle/manager_linux.go:880-902 | After one application the binary, units and provenance are the release's. |
| `ReleaseChain.AppliedKeepsAdminFiles` | internal/lifecycle/manager_linux.go:860-874 | An application changes no existing file but the binary, units and provenance. |
| `ReleaseChain.InstalledEntries` | internal/lifecycle/manager_linux.go:860-902 | After one application, path by path: content, mode and owner of binary, units, provenance, configuration and profiles, the last two only where there were none, and every other path as before. |
| `ReleaseChain.PutsArePlanned` | internal/lifecycle/manager_linux.go:480-491 | Every path an application writes is among those the preview inspects and hashes. |
| `ReleaseChain.AppliedServes` | internal/lifecycle/manager_linux.go:914-921 | A unit started from an applied release runs that release's binary with its definition. |
| `ReleaseChain.ApplyRelease` | internal/lifecycle/manager_linux.go:703-932 | End to end through `Lifecycle.Apply`: applied means the release is held, its units run on its binary and definitions and the administrator's files are untouched; where no step fails it is applied; undone means all old content is back; either way the host is fit for the next application; a failed undoing operation in an upgrade leaves the copy of every installed file it may have replaced. |
| `ReleaseChain.ApplySeries` | internal/lifecycle/manager_linux.go:703-932 | Any series of installs and upgrades on one host, each of which may fail and be undone: the host holds the last release that was applied, and the administrator's files have their old content. A series in which no step fails is applied to its end. |
| `ReleaseChain.StrayKeepsNewBinary` | internal/lifecycle/manager_linux.go:918-922 | After the rollback of an upgrade between releases with different binaries, a unit that a failing start left running runs the new binary. |
| `ReleaseChain.StrayCanBeLeft` | internal/lifecycle/manager_linux.go:918-922 | Instance family: on every installed host with a running unit such an outcome meets all the rollback restores otherwise. |
| `ReleaseChain.CopiedAll` | internal/lifecycle/manager_linux.go:823-827 | The binary, the provenance record and the three units, all that an application replaces, are copied first. |
| `GatedApply.PassedGate` | internal/lifecycle/manager_linux.go:679-692 | Without a hash collision the gate passes only for the confirmed request, release content and target state. |
| `GatedApply.UnchangedPasses` | internal/lifecycle/manager_linux.go:679-692 | A confirmed preview of a release and host that have not changed passes the gate. |
| `GatedApply.ArchivedRelease` | internal/lifecycle/manager_linux.go:876-900 | Verified archive content makes a valid release to install. |
| `GatedApply.ReleaseInstalls` | internal/lifecycle/manager_linux.go:876-902 | The puts of a release made of archive members leave those members at their paths, with the modes and owners of the source. |
| `GatedApply.ApplyArchive` | internal/lifecycle/manager_linux.go:693-932 | Behind the gate: the host was as shown; what is installed are the shown bytes, path by path with mode and owner; the units run them; undone means the old content; where no step fails it is applied. |
| `GatedApply.ApplyConfirmed` | internal/lifecycle/manager_linux.go:675-932 | `Apply` as a whole: a failed gate leaves the host untouched, and nothing changed since the preview passes it; a passed one means every inspected file was as previewed. Applied means `/usr/local/bin/hostlens` holds the previewed member `hostlens` with mode 0755, each unit path its `systemd/` member with 0644, configuration and profiles, where there were none, the filled template and their `profiles/` members with 0640 and the service group, the provenance the unit checksums with 0600, and no other file differs; an upgrade runs what ran on the new binary and definitions, an install starts the gateway if asked to. Undone means all old content. Where no step fails it is applied. |
| `ReleaseChain.ChainHoldsLastRelease` | internal/lifecycle/manager_linux.go:880-902 | After any chain of installs, upgrades and administrator edits the binary, units and provenance are the last release's. |
| `ReleaseChain.ChainKeepsAdminFiles` | internal/lifecycle/manager_linux.go:860-874 | No application in a chain changes an existing configuration, profile or other administrator file. |
| `ReleaseChain.NextUpgradeChecksUnits` | internal/lifecycle/manager_linux.go:511-522 | After any chain the next upgrade accepts untouched units and, without a hash collision, refuses any altered one. |
| `ReleaseChain.ProvenanceSize` | internal/lifecycle/manager_linux.go:74-81 | The provenance record of a release has exactly the three units the reader demands. |

## Left out

- Real I/O, TLS, HTTP, systemd, D-Bus and the Docker client: abstract steps that succeed or fail; rename is atomic and the file lock exclusive.
- SHA-256, random generation, JSON and YAML: hashes and codecs are parameters, assumed free of collisions or lossless only where a lemma says so.
- `path.Match` and pattern validation of version 1 profiles: the matcher is a parameter and the verdict on a version 1 rule list part of the decoded profile.
- `stdcopy.StdCopy`: one write per frame, stream bytes 0 and 1 to stdout, 2 to stderr, any other an error.
- Group and user creation: never rolled back, and not part of the host; identities enter the plan stream as text.
- `Preview`'s refusals other than the unit check: only the bytes it hashes are modelled, for the states in which it hashes all of them.
- `Config.Validate`, the trust checks on parent directories and owners, `bearer`, `allowedPath`: single-branch predicates that would only add easy members; a file that fails a trust check is an operation that fails.
- Changes to the host between the fresh preview inside `Apply` and its own writes, and a leftover rollback copy of an earlier run when the next one starts.
- Temporary files left by a failed write of the installer, and durability across power loss.
- Unit dependencies: a start, stop or disable affects only the named unit.
- Interruption of `Apply` or of an uninstall by a crash of the process itself.
- Timeouts, retry intervals and shutdown draining; time is an abstract instant, and one call of a token operation reads the clock once before the lock and once under it, although the source reads it for each comparison.
- Host, service and journal status, the observer IPC, the command line, release scripts and non-Linux stubs.
- Directory ownership set by an install: a step that may fail, with no state of its own.
- How a readiness probe dials a socket or asks for health: each probe is given with its outcome and the instants at which it reads the clock.
