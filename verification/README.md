# Dafny models of LoopX

LoopX coordinates agents that work on shared Goals. This project models six parts of the repository and proves
properties of the models for all inputs and all runs.

- **Task leases** (`TaskLease`, `TodoLifecycle`, `LeaseDecisions`, `TodoDecisions`, `LeaseSteps`, `LeaseAlignment`,
  `LeaseRuns`, `LeaseHazards`). Agents acquire, renew, transfer and release leases on Todos, each with the scopes it
  may write; claims, edits, completion and archiving of Todos, the handoff mode and the agent registry decide which
  leases hold. A Goal is a state and each of these is a step. The central result is mutual exclusion over whole runs,
  with the exact condition under which each step keeps it, and fencing: versions, epochs and expected versions. Beside
  safety stand the conditions under which commands succeed: exactly when each lease command is admitted, and what
  owners and others can always do.
- **Write scopes** (`WriteScopes`, `GlobMeaning`, `CanonicalScopes`). Canonical spelling of scopes, the glob matcher
  over case-folded symbols, and the overlap test. The meaning of a scope is defined without any folded matching, the
  matcher is proved exact for it, and stars, question marks and classes are proved to stand for what a reader expects.
- **Documentation links** (`SitePaths`, `RouteMaps`, `LinkRewriter`). Collecting pages, building the route maps and
  rewriting links from the source tree to the site.
- **Proxy comparison** (`ProxyPanels`, `PairCounting`, `ProxyOrder`, `ProxyTheorems`). Loading two panels, joining
  them, counting pairs, and what can and cannot change the report.
- **Archive checks** (`GitObjects`, `ArchiveCheck`, `ManifestCheck`, `ArchiveFormat`). Git blob and tree serialisation
  and two checkers.
- **JSON Pointer** (`Json`, `JsonPointer`). Unescaping and the walk through a document.

`Options`, `Sequences`, `Trimming` and `PythonText` hold shared notions. `dafny verify dfyconfig.toml` checks everything.

## Reading the models

Inputs that come from outside are parameters: the file system is a set of paths or a listing, the clock is a field
of the state, the hash and the syntax checkers are functions, and the case fold is a function with the five properties
of `WriteScopes.CaseTable`. Numbers of the proxy comparison are exact, so they are reals. Loops of the source are
methods, proved against functions; the lemmas are about those functions.

A lease holds while it is unexpired, unreleased and its owner is eligible for the Todo; a running lease whose owner is
not eligible sleeps. `TaskLease.Collide` says when two leases must not hold together: their scopes overlap, and they
are in one physical checkout, or neither names a verified worktree and their repositories may be the same, or one
without worktree was acquired later than one with. In the other order the source only advises. Acquisition order is
that of the stored stamps, which are whole seconds. `LeaseSteps.Harmless` is the condition on a step, read in the state
before it; `LeaseAlignment.Aligned` is the invariant the guards of the Todo commands keep.

The Todo commands are modelled with all their lease guards. Guards that read no lease fact are left out, so, up to steps
that change no modelled fact, every run of the program is a run of the model. A renewal that a Todo update makes in the same commit is two steps here.

## What the proofs found

- A user's decision changes the status of a leased Todo without touching the lease. A rejection puts the lease to
  sleep, someone else acquires the scope, and a later approval wakes it (`UserDecisionsBreakExclusion`). Every other
  way of reopening work retires the lease (`StatusEditsRetire`).
- Registering an agent again wakes its running leases (`ReRegistrationBreaksExclusion`).
- A plain transfer does not look at other leases. On a head that retains the lease of an excluded agent it wakes that
  lease for a new owner (`DormantTransferBreaksExclusion`). The guards keep heads aligned, and then it cannot happen
  (`AlignedTransfersMoveHolders`).
- Apart from the first two, exclusion holds over all runs from aligned heads (`CarefulRunsKeepExclusion`).
- A Todo command can retire or renew its owner's lease without key or version (`PauseRetiresWithoutProof`,
  `ClaimRenewsWithoutProof`), but only its owner's (`OnlyTheOwnerTouchesALease`).
- A release keeps the version, so one expected version can admit a release and then an acquire
  (`OneVersionAdmitsTwo`); that is the only reuse that changes the lease twice (`ExpectedVersionIsSpentOnce`). Edits
  that leave the lease alone may name its version any number of times. The completion of a user gate whose lease does
  not run ignores the version it is given (`GateCompletionChecksNoVersion`).
- The overlap test is exact between literal scopes, between a directory and a glob, and between subtree globs. Between
  a file and a glob one clause reports conflicts that are all false (`PrefixClauseIsVain`). Between other globs it
  compares literal prefixes only.
- Canonicalisation of scopes is not idempotent: `./~x` becomes `~x`, which is unreadable (`TildeLosesItsForm`). A lease
  granted with it is later compared as covering everything, and the decision alone would refuse its repetition as key
  reuse (`ReplayIsRecognisedIff`). In the executor a retry never gets that far: the receipt decoder refuses the retained
  scope (`loopx/control_plane/coordination/task_lease_acquire.ts`, lines 56 to 59), although
  `docs/reference/canonical-lease-renew.md` promises that an exact retry recovers its receipt.
- A relative link whose first component looks like a URI scheme is printed without a leading `./` and goes astray
  (`SchemeHazardIsReal`), and a docs page whose route a generated page has taken over is reached as that other page
  (`TakeoverIsReal`).
- Rewriting a docs page twice differs from once when a docs file is itself mapped to another route
  (`UnstableRoutesAreReal`).
- `docs/docs/p` and `docs/p` do not collide, although both are below `docs` (`DocsPrefixCollision`).

## Model

| member | source | states |
|---|---|---|
| `LeaseRuns.CarefulRunsKeepExclusion` | `loopx/control_plane/coordination/todo_update_admission.ts:122-209` | the protocol is safe: from an aligned, exclusive head, in every state of every run of lease and Todo commands, mode changes, registry changes and time, no two holders collide, so long as no step registers the owner of a running lease anew and no user's decision opens a Todo under a running lease |
| `LeaseRuns.RunKeepsExclusionIff` | `loopx/control_plane/coordination/task_lease_acquire.ts:76-122` | over every run: holders never collide in any state, if and only if each step is harmless in the state it starts from |
| `LeaseSteps.StepKeepsExclusionIff` | `loopx/control_plane/work_items/task_lease_acquire_decision.ts:670-762` | every step keeps exclusion if and only if it is harmless, a condition on the state before it; acquires, renewals, releases, edits, archiving, mode changes and time always are |
| `LeaseRuns.ExclusiveUpTo` | `loopx/control_plane/coordination/task_lease_state.ts:53-74` | in every state of a run of harmless steps, holders do not collide |
| `LeaseRuns.NoPathHasTwoWriters` | `loopx/control_plane/work_items/task_lease_acquire_decision.ts:726-741` | in every state of such a run, no path is covered by two holding leases in one place, under any case alias; a lease without worktree shares its place with every earlier worktree lease on a repository that may be its own |
| `LeaseRuns.CarefulRunsHaveOneWriter` | `loopx/control_plane/coordination/todo_update_admission.ts:122-209` | end to end: in every state of every careful run from an aligned, exclusive head, no path has two writers in one place |
| `LeaseSteps.LifecycleKeepsExclusionIff` | `loopx/control_plane/work_items/task_lease_lifecycle_decision.ts:216-305` | renewals and releases keep exclusion; a plain transfer if and only if its lease holds or collides with no holder; a claim transfer always |
| `LeaseSteps.RegistryKeepsExclusionIff` | `loopx/control_plane/work_items/task_lease_eligibility.ts:21-30` | a registry change keeps exclusion if and only if no running lease whose owner becomes eligible collides with one that is eligible afterwards |
| `LeaseSteps.TerminalKeepsExclusionIff` | `loopx/control_plane/todos/user_completion.ts:55-121` | a completion keeps exclusion if and only if the Todo it opens has no sleeping lease that collides with another holder |
| `LeaseSteps.ClaimKeepsExclusionIff` | `loopx/control_plane/coordination/todo_claim.ts:537-732` | a claim keeps exclusion if and only if it wakes no lease that collides with a holder |
| `LeaseSteps.AcquiringClaimKeepsExclusion` | `loopx/control_plane/coordination/claim_execution.ts:101-134` | a claim that grants a lease, on request or managed, keeps exclusion |
| `LeaseSteps.UpdateWakesNothing` | `loopx/control_plane/coordination/todo_update_admission.ts:122-277` | no Todo edit, of any kind and by anyone, makes a lease hold that did not, or changes a grant |
| `LeaseSteps.ArchiveWakesNothing` | `loopx/control_plane/coordination/todo_archive.ts:136-175` | archiving wakes no lease |
| `LeaseSteps.TerminalOpens` | `loopx/control_plane/todos/user_completion.ts:108-121` | opening a dependent Todo wakes its lease exactly when that runs and its owner is otherwise eligible, and changes no other hold |
| `LeaseAlignment.StepKeepsAlignment` | `loopx/control_plane/coordination/todo_update_admission.ts:122-128` | every step keeps every running lease of unfinished work aligned with its Todo's claim and exclusions, and lets none run where claims need no lease |
| `LeaseAlignment.ModeKeepsAlignment` | `loopx/control_plane/coordination/handoff_policy_migration.ts:66-118` | mode changes and reviewed migrations keep alignment |
| `LeaseAlignment.ClaimedLeaseIsTheClaimants` | `loopx/control_plane/coordination/todo_claim.ts:589-660` | where leases are required a claim succeeds only for the owner of the Todo's running lease |
| `LeaseAlignment.ClaimantHolds` | `loopx/control_plane/coordination/todo_claim.ts:585-732` | where leases are required, a successful claim leaves the claimant holding the lease |
| `LeaseAlignment.AlignedTransfersMoveHolders` | `loopx/control_plane/work_items/task_lease_lifecycle_decision.ts:232-298` | in an aligned state a lease is transferred only while it holds |
| `LeaseAlignment.AlignedClaimsWakeNothing` | `loopx/control_plane/coordination/todo_claim.ts:237-277` | in an aligned state a claim, even with a transfer grant, wakes no lease |
| `LeaseAlignment.CarefulStepsAreHarmless` | `loopx/control_plane/coordination/todo_update_admission.ts:122-209` | in an aligned state every careful step is harmless |
| `LeaseAlignment.StatusEditsRetire` | `loopx/control_plane/coordination/todo_blocked_lifecycle.ts:57-80` | pausing, deferring, reopening, resuming or reactivating work always releases its lease in the same step and grants nothing |
| `LeaseAlignment.RunningLeaseBindsEdits` | `loopx/control_plane/coordination/todo_update_admission.ts:137-276` | work under a holding lease is edited only by its owner: claim and exclusions stay, role, class and binding change only with key and version, a change of status or repository retires the lease, and it cannot be reopened or resumed |
| `LeaseAlignment.OwnerCopiesFreely` | `loopx/control_plane/coordination/task_lease_proof.ts:57-70` | the owner of a holding lease can edit text, evidence and priority without key or version |
| `LeaseAlignment.CopyEditsChangeNothing` | `loopx/control_plane/coordination/todo_update_admission.ts:191-247` | copy edits, on whichever ground they are admitted, change nothing that leases depend on |
| `LeaseAlignment.CompletionEndsTheHold` | `loopx/control_plane/coordination/todo_lifecycle_decision.ts:443-566` | held work is completed only by its holder with key and version; afterwards nobody holds it |
| `LeaseHazards.DormantTransferBreaksExclusion` | `loopx/control_plane/work_items/task_lease_lifecycle_decision.ts:263-298` | from an exclusive head that retains the running lease of an excluded agent, an acquire and a plain transfer, both admitted, end with two colliding holders |
| `LeaseHazards.ReRegistrationBreaksExclusion` | `loopx/control_plane/work_items/task_lease_eligibility.ts:21-30` | from an aligned head: the owner leaves the registry, another acquires the scope, the owner is registered again, and two holders collide |
| `LeaseHazards.UserDecisionsBreakExclusion` | `loopx/control_plane/todos/user_completion.ts:73-120` | from an aligned head with a fixed registry: a rejection blocks a leased Todo, another acquires the scope, an approval opens the Todo again, and two holders collide |
| `LeaseHazards.OneVersionAdmitsTwo` | `loopx/control_plane/work_items/task_lease_lifecycle_decision.ts:250-270` | a run in which a release and then an acquire are both admitted against one version and both change the record |
| `LeaseHazards.GateCompletionChecksNoVersion` | `loopx/control_plane/coordination/todo_lifecycle_decision.ts:485-512` | completing a user gate whose lease has expired retires that lease, whatever version the command names |
| `LeaseHazards.PauseRetiresWithoutProof` | `loopx/control_plane/coordination/todo_update_admission.ts:154-174` | an owner retires its holding lease by pausing the Todo, without key or version |
| `LeaseHazards.ClaimRenewsWithoutProof` | `loopx/control_plane/coordination/claim_execution.ts:82-111` | an owner renews its holding lease by claiming the Todo again, without key or version |
| `LeaseRuns.RunEvolves` | `loopx/control_plane/work_items/task_lease_lifecycle_decision.ts:308-328` | over every run: versions and epochs never fall, one epoch names one owner, key and grant, one version names one record up to its release, a released epoch stays released |
| `LeaseRuns.StepEvolves` | `loopx/control_plane/work_items/task_lease_lifecycle_decision.ts:216-305` | the same for one step of any kind, retirements and claims included |
| `LeaseRuns.ReleasedGenerationNeverHolds` | `loopx/control_plane/coordination/todo_blocked_lifecycle.ts:67-79` | over every run: once a lease is released, whatever holds on its Todo later has a higher epoch |
| `LeaseRuns.ExpectedVersionIsSpentOnce` | `loopx/control_plane/coordination/task_lease_lifecycle.ts:130-186` | if two steps of one run, lease or Todo commands alike, name one version of one Todo's lease as expected and both change its record, the first only releases it and the second acquires; every completion counts but that of a user gate without a running lease, which checks no version |
| `LeaseRuns.OnlyTheOwnerTouchesALease` | `loopx/control_plane/coordination/todo_blocked_lifecycle.ts:34-80` | while a lease holds, its record changes only on behalf of its owner: by a lease command proving key and version, by a claim that renews it, or by a Todo command that only marks it released; its owner changes only by a transfer |
| `LeaseRuns.RepeatedCommandChangesNothing` | `loopx/control_plane/work_items/task_lease_acquire_decision.ts:694-718` | delivering a lease command twice in a row leaves the state of delivering it once |
| `LeaseRuns.ReplayIsRecognisedIff` | `loopx/control_plane/work_items/task_lease_acquire_decision.ts:697-711` | an acquire delivered again: a version conflict if it named a version, else a replay if none of its canonical scopes begins with a tilde, else reuse of its own key |
| `TaskLease.AcquireKeepsExclusion` | `loopx/control_plane/work_items/task_lease_acquire_decision.ts:719-762` | an admitted acquire holds at once, in spite of the truncated expiry, and collides with no other holder |
| `TaskLease.UnblockedIsApart` | `loopx/control_plane/work_items/task_lease_acquire_decision.ts:726-736` | an acquire not blocked by an earlier lease does not collide with what that lease stands for |
| `TaskLease.TransferKeepsExclusionIff` | `loopx/control_plane/work_items/task_lease_lifecycle_decision.ts:274-298` | an admitted transfer keeps exclusion if and only if the lease was still holding or collides with no holder |
| `TaskLease.RenewAndReleaseKeepExclusion` | `loopx/control_plane/work_items/task_lease_lifecycle_decision.ts:250-305` | renewals and releases keep exclusion |
| `TaskLease.ClaimTransferMovesAHolder` | `loopx/control_plane/coordination/lease_claim_transfer.ts:13-38` | a transfer that carries the claim is admitted only from a lease that holds |
| `TaskLease.OtherTodosKeepTheirHold` | `loopx/control_plane/coordination/task_lease_lifecycle.ts:169-175` | renew, transfer and release leave every other Todo's lease and its hold as they were |
| `TaskLease.CollideIsSymmetric` | `loopx/control_plane/work_items/task_lease_acquire_decision.ts:436-473` | collision does not depend on which lease is named first |
| `LeaseDecisions.AcquireAppliesIff` | `loopx/control_plane/work_items/task_lease_acquire_decision.ts:670-762` | an acquire is admitted if and only if leases are required, the owner eligible, the Todo free, the key new, the version as expected, the workspace of the Todo's repository, the counters not spent, and no holder in the same place has an overlapping scope |
| `LeaseDecisions.AcquiredRecord` | `loopx/control_plane/work_items/task_lease_acquire_decision.ts:743-788` | the record it leaves: owner, key, compared scopes, workspace and repository, version and epoch one higher, and the requested time from now cut to the second |
| `LeaseDecisions.AcquireRefusalsAreTrue` | `loopx/control_plane/work_items/task_lease_acquire_decision.ts:675-742` | every other answer names a reason that is true of the head, and a scope conflict a holder that is in the way |
| `LeaseDecisions.DisjointAcquiresSucceed` | `loopx/control_plane/work_items/task_lease_acquire_decision.ts:726-762` | two acquires of literal scopes in one repository, one after the other, are both granted and both hold if and only if no path lies in both |
| `LeaseDecisions.PlainScopesOverlapIff` | `loopx/control_plane/work_items/task_lease_acquire_decision.ts:469-473` | lists of literal scopes overlap if and only if they share a path |
| `LeaseDecisions.HoldsIff` | `loopx/control_plane/work_items/task_lease_eligibility.ts:16-30` | a lease holds if and only if it is unreleased and unexpired, its Todo open, unarchived and no user action, and its owner registered, not excluded and not facing another's claim |
| `LeaseDecisions.OwnerRefusalsAreTrue` | `loopx/control_plane/work_items/task_lease_eligibility.ts:21-30` | each reason for refusing an owner is true of the Todo |
| `LeaseDecisions.ReleaseAppliesIff` | `loopx/control_plane/work_items/task_lease_lifecycle_decision.ts:245-268` | a release is admitted if and only if it carries owner, key and version of an unreleased record, in any mode; it changes nothing else |
| `LeaseDecisions.RenewAppliesIff` | `loopx/control_plane/work_items/task_lease_lifecycle_decision.ts:223-328` | a renewal is admitted if and only if it carries owner, key and version of a running lease on its own repository and the owner is eligible; the lease then runs for the requested time from now, cut to the second |
| `LeaseDecisions.TransferAppliesIff` | `loopx/control_plane/work_items/task_lease_lifecycle_decision.ts:223-328` | the same for a plain transfer, which asks for an eligible new owner with a new key and of the old one only that it is registered |
| `LeaseDecisions.LifecycleRefusalsAreTrue` | `loopx/control_plane/work_items/task_lease_lifecycle_decision.ts:216-306` | every other answer to a release, renewal or plain transfer names a reason that is true of the head |
| `LeaseDecisions.ClaimTransferAppliesIff` | `loopx/control_plane/coordination/lease_claim_transfer.ts:13-38` | a transfer with the claim is admitted if and only if the sender also has the claim and both agents fit the Todo; claim and lease move together |
| `TodoDecisions.EditsDoWhatTheySay` | `loopx/control_plane/coordination/todo_update_admission.ts:122-278` | an admitted edit changes its own Todo, as the edit says, and at most its own lease |
| `TodoDecisions.OtherEditIff` | `loopx/control_plane/coordination/todo_update_admission.ts:103-278` | exactly when an ordinary edit is admitted: over any lease record only by its holder and claimant with proof, leaving status, repository, claim and exclusions; without one where leases are not required, or under a grant that leaves claim and exclusions |
| `TodoDecisions.StrangersChangeNothing` | `loopx/control_plane/coordination/todo_lifecycle_decision.ts:370-424` | agents that are unknown, excluded, not the bound one, or without claim and grant edit nothing; nothing is edited once archived or in the retired mode |
| `TodoDecisions.ForeignRecordsBindEdits` | `loopx/control_plane/coordination/todo_update_admission.ts:191-278` | where leases are required another agent's record, even expired, bars deferral, revision and ordinary edits |
| `TodoDecisions.MovedRepositoriesBindEdits` | `loopx/control_plane/coordination/todo_update_admission.ts:137-209` | where leases are required a record of another repository bars edits, except of the agent's own released history under its own claim |
| `TodoDecisions.ForeignRecordsBindCopies` | `loopx/control_plane/coordination/todo_update_admission.ts:191-277` | over another agent's record copy is edited only by a claimant restoring it, or in a bound reminder once it is released |
| `TodoDecisions.RunningLeasesBindStatus` | `loopx/control_plane/coordination/todo_update_admission.ts:154-190` | under a running lease work is neither reopened nor resumed, and paused by its owner alone |
| `TodoDecisions.AnonymousEditsAreBounded` | `loopx/control_plane/coordination/todo_lifecycle_decision.ts:390-405` | without an actor only unowned Todos are edited, and only with at most one agent registered |
| `TodoDecisions.OwnersCanPause` | `loopx/control_plane/coordination/todo_update_admission.ts:154-209` | the owner of a Todo's lease, or anyone the Todo is open to if there is none, can pause or defer it without proof |
| `TodoDecisions.InsidersCanReopen` | `loopx/control_plane/coordination/todo_update_admission.ts:154-190` | anyone the Todo is open to can reopen blocked and resume deferred work on which no lease runs |
| `TodoDecisions.OwnersCanRevise` | `loopx/control_plane/coordination/todo_update_admission.ts:137-153` | the claimant can revise the requirements of its work while the lease, if any, is its own |
| `TodoDecisions.HoldersCanComplete` | `loopx/control_plane/coordination/todo_lifecycle_decision.ts:532-566` | the holder of a lease with key and version can always complete its work; the lease is released, the Todo done, and no other lease changes |
| `TodoDecisions.CompletionIff` | `loopx/control_plane/coordination/todo_lifecycle_decision.ts:384-566` | exactly when a completion is admitted: under an effective lease only with the holder's proof; else, where leases are required, for bound reminders, superseded deferred work, user gates and under a grant; else by anyone the Todo is open to, naming no proof |
| `TodoDecisions.CompletionLeases` | `loopx/control_plane/coordination/todo_lifecycle_decision.ts:460-566` | what it does to leases: the Todo's own is released, a gate without one gets a released record, and no other changes |
| `TodoDecisions.CompletionDoesWhatItSays` | `loopx/control_plane/todos/user_completion.ts:55-121` | its effect on Todos: its own is done; a gate's rejection blocks the open agent Todo that waits for it, an approval opens the blocked one, and nothing else follows |
| `TodoDecisions.ClaimAdmittedIff` | `loopx/control_plane/coordination/todo_claim.ts:218-277` | exactly when a claim is admitted; another agent's claim gives way to a grant or to the expiry of that agent's lease, and never while it runs |
| `TodoDecisions.ClaimAppliesIff` | `loopx/control_plane/coordination/todo_claim.ts:585-732` | exactly when an admitted claim succeeds in each mode and form: with a running lease of the claimant, or by an acquire that fits, on request against the standing claim and managed against the new one |
| `TodoDecisions.FreeWorkCanBeClaimed` | `loopx/control_plane/coordination/claim_execution.ts:101-134` | unclaimed and unleased work can be claimed, with a lease of 45 minutes, unless a holder is in the way |
| `TodoDecisions.ClaimRenewsIff` | `loopx/control_plane/coordination/claim_execution.ts:79-111` | a managed claim by the holder renews the lease if and only if at most a third of its time is left |
| `TodoDecisions.ModeChangesIff` | `loopx/control_plane/coordination/handoff_mode_policy.ts:19-28` | the mode changes by request if and only if no unfinished Todo is claimed and no lease runs, and never to the retired mode |
| `TodoDecisions.MigrationIff` | `loopx/control_plane/coordination/handoff_policy_migration.ts:43-118` | a reviewed migration succeeds if and only if claimants are registered and no lease is left unreleased, or, to required leases, running ones hold |
| `TodoDecisions.ArchiveDoesWhatItSays` | `loopx/control_plane/coordination/todo_archive.ts:136-175` | finished Todos can be archived, and archiving changes nothing else |
| `TodoDecisions.CreateIff` | `loopx/control_plane/coordination/todo_create.ts:87-96` | a Todo is added if and only if its id is unused, it is neither finished nor archived, and its claimant registered |
| `CanonicalScopes.SplitParts` | `loopx/control_plane/work_items/task_lease_acquire_decision.ts:91-105` | the index loop splits at exactly the slashes outside closed character classes |
| `CanonicalScopes.CanonicalWriteScope` | `loopx/control_plane/work_items/task_lease_acquire_decision.ts:82-115` | the loops compute the canonical form, including every refusal |
| `CanonicalScopes.ComparisonWriteScopes` | `loopx/control_plane/work_items/task_lease_acquire_decision.ts:121-133` | the loop with its seen set gives the distinct canonical scopes in first-occurrence order, or everything if one is unreadable |
| `CanonicalScopes.KeptPartsRejoin` | `loopx/control_plane/work_items/task_lease_acquire_decision.ts:91-114` | the kept parts, joined again, split into exactly themselves: dropping parts never opens or closes a character class elsewhere |
| `CanonicalScopes.TrailingSlash` | `loopx/control_plane/work_items/task_lease_acquire_decision.ts:106-114` | a trailing slash of the text is an empty last part, and conversely |
| `CanonicalScopes.CanonicalAgain` | `loopx/control_plane/work_items/task_lease_acquire_decision.ts:82-115` | a canonical form is its own canonical form, if and only if it does not begin with a tilde; then it has none |
| `CanonicalScopes.CanonicalIsIdempotentIff` | `loopx/control_plane/work_items/task_lease_acquire_decision.ts:82-115` | on a readable scope canonicalisation is idempotent if and only if the first part it keeps does not begin with a tilde |
| `CanonicalScopes.TildeLosesItsForm` | `loopx/control_plane/work_items/task_lease_acquire_decision.ts:84-90` | the input showing that canonicalisation is not idempotent |
| `CanonicalScopes.CanonicalFormIsComplete` | `docs/reference/canonical-lease-renew.md:51-58` | two readable scopes have one canonical form if and only if their parts resolve to the same path and both or neither are directories |
| `CanonicalScopes.ComparisonAgain` | `loopx/control_plane/work_items/task_lease_acquire_decision.ts:121-133` | comparing a compared list changes it if and only if a scope in it begins with a tilde, and then to everything |
| `CanonicalScopes.ComparisonLosesNothing` | `loopx/control_plane/work_items/task_lease_acquire_decision.ts:117-133` | comparison of a retained record misses no overlap with what the record stands for |
| `CanonicalScopes.CanonicalIff` | `loopx/control_plane/work_items/task_lease_acquire_decision.ts:82-115` | a scope has a canonical form if and only if, trimmed, it has 1 to 160 characters, no leading slash or tilde, no backslash, angle bracket or whitespace, no parent step, and something left of it |
| `CanonicalScopes.PartsJoinBack` | `loopx/control_plane/work_items/task_lease_acquire_decision.ts:91-105` | the parts joined by slashes are the text again |
| `CanonicalScopes.ClassIsOnePart` | `loopx/control_plane/work_items/task_lease_acquire_decision.ts:93-101` | a closed character class is never split |
| `GlobMeaning.CharacterClass` | `loopx/control_plane/work_items/task_lease_acquire_decision.ts:229-253` | the index loop collects literals and ranges; a character is in the class if and only if it is a literal or lies in a range, both ends included |
| `GlobMeaning.ClassTokens` | `loopx/control_plane/work_items/task_lease_acquire_decision.ts:193-221` | a class ends at its first closing bracket, except one that comes first, and is negated exactly by a leading exclamation mark |
| `GlobMeaning.UnclosedBracket` | `loopx/control_plane/work_items/task_lease_acquire_decision.ts:205-219` | a bracket that nothing closes is an ordinary character |
| `GlobMeaning.LiteralScopeMeans` | `loopx/control_plane/work_items/task_lease_acquire_decision.ts:436-467` | without case, a file covers itself, a directory everything below it, and the root everything |
| `GlobMeaning.StarMeans` | `loopx/control_plane/work_items/task_lease_acquire_decision.ts:375-427` | without case, p*q covers exactly p, any text and q |
| `GlobMeaning.QuestionMeans` | `loopx/control_plane/work_items/task_lease_acquire_decision.ts:375-427` | without case, p?q covers exactly p, one character and q |
| `GlobMeaning.RangeMeans` | `loopx/control_plane/work_items/task_lease_acquire_decision.ts:248-253` | without case, [x-y] covers the one-character path c if and only if x <= c <= y |
| `GlobMeaning.NegatedRangeMeans` | `loopx/control_plane/work_items/task_lease_acquire_decision.ts:248-253` | and [!x-y] if and only if not |
| `WriteScopes.MatcherIsExact` | `loopx/control_plane/work_items/task_lease_acquire_decision.ts:375-427` | the matcher over folded symbols accepts a path if and only if some case alias of it is taken by the glob character by character |
| `WriteScopes.DirectoryTestIsExact` | `loopx/control_plane/work_items/task_lease_acquire_decision.ts:376-427` | a directory and a glob overlap if and only if some path lies in both |
| `WriteScopes.LiteralTestIsExact` | `loopx/control_plane/work_items/task_lease_acquire_decision.ts:463-466` | two scopes without glob characters overlap if and only if some path lies in both |
| `WriteScopes.FileTestIsExact` | `loopx/control_plane/work_items/task_lease_acquire_decision.ts:445-455` | a glob and a file overlap if and only if some path lies in both, or the file has the name of the directory that ends the glob's literal prefix |
| `WriteScopes.PrefixClauseIsVain` | `loopx/control_plane/work_items/task_lease_acquire_decision.ts:447-449` | that extra clause is always a false conflict: whenever it applies, no path lies in both |
| `WriteScopes.FileMeetsGlobInVain` | `loopx/control_plane/work_items/task_lease_acquire_decision.ts:447-449` | for example the file src and the glob src/* |
| `WriteScopes.SubtreeTestIsExact` | `loopx/control_plane/work_items/task_lease_acquire_decision.ts:457-461` | for globs of the form p** and q** with literal p and q, the prefix test holds if and only if some path lies in both |
| `WriteScopes.PrefixReachable` | `loopx/control_plane/work_items/task_lease_acquire_decision.ts:367-374` | a match below a directory is always found by walking the directory's symbols alone: no folded character crosses its last slash |
| `WriteScopes.PrefixWalkWitness` | `loopx/control_plane/work_items/task_lease_acquire_decision.ts:348-366` | whatever the walk accepts, including the suffix test for character classes, can be completed to a full name below the directory |
| `WriteScopes.SharedPathOverlaps` | `loopx/control_plane/work_items/task_lease_acquire_decision.ts:436-467` | two scopes that cover one path overlap, for all kinds of scopes |
| `WriteScopes.PairOverlapIsSymmetric` | `loopx/control_plane/work_items/task_lease_acquire_decision.ts:436-467` | the overlap test is symmetric |
| `WriteScopes.GlobKeepsItsPrefix` | `loopx/control_plane/work_items/task_lease_acquire_decision.ts:429-434` | every name a glob takes starts with its literal prefix |
| `WriteScopes.FoldIsStable` | `loopx/control_plane/work_items/task_lease_acquire_decision.ts:143-169` | folded text is made of fixed points of the fold |
| `SitePaths.RelpathLeadsToTarget` | `docs/capability_docs.py:141-143` | following the relative path from its start leads to the target, below any common base |
| `SitePaths.RelpathClimbsLeast` | `docs/capability_docs.py:141-143` | no reference that leads to the target has fewer parent steps |
| `SitePaths.RelpathIsShortest` | `docs/capability_docs.py:141-143` | no other reference that leads to the target has fewer components |
| `SitePaths.RelpathIgnoresCwd` | `docs/capability_docs.py:141` | for routes without dot components the working directory plays no part |
| `RouteMaps.Candidates` | `docs/capability_docs.py:59-69` | the canonical page first, then the other root pages, then the pages below docs, each in listing order |
| `RouteMaps.SourcePages` | `docs/capability_docs.py:52-84` | succeeds if and only if the canonical file and all alias sources exist and all aliases are mappings; gives the pages in the order that decides routes |
| `RouteMaps.PagesOfSpec` | `docs/capability_docs.py:70-84` | the pages of a spec are its candidates, each with its source below the source root and its route below the site root without a leading docs, and its aliases, each at exactly its own site |
| `RouteMaps.SeparateRootsNeverContest` | `docs/capability_docs.py:71-75` | ordinary pages of specs whose site roots do not contain one another never meet on a route |
| `RouteMaps.AppendAliases` | `docs/capability_docs.py:77-84` | the alias loop, with both of its refusals |
| `RouteMaps.DocsPrefixCollision` | `docs/capability_docs.py:71-75` | two distinct files of one spec share a route if and only if one lies outside docs and the other is its namesake in docs |
| `RouteMaps.NamesakeInDocsContests` | `docs/capability_docs.py:71-103` | such a pair always makes the build fail |
| `RouteMaps.OrdinaryRouteWins` | `docs/capability_docs.py:71-105` | unless an earlier spec lists the file, links to a page use an ordinary route of its spec, never an alias |
| `RouteMaps.DocumentationMaps` | `docs/capability_docs.py:95-106` | fails if and only if two pages claim one route for different sources; otherwise one map is exactly the pages and the other gives each resolved file its first route |
| `RouteMaps.BuildDocumentation` | `docs/capability_docs.py:87-106` | the whole build succeeds if and only if every spec is complete and no route is contested over all of them |
| `RouteMaps.RoutesLeadBack` | `docs/capability_docs.py:104-105` | a file's route maps back to that very file |
| `LinkRewriter.RenderedLinkReachesRoute` | `docs/capability_docs.py:116-143` | a link sent to a route keeps brackets, query and fragment, and printed and read again reaches the route if and only if its first component does not look like a URI scheme |
| `LinkRewriter.RouteIsBuiltFromTheLinkedFile` | `docs/capability_docs.py:122-129` | the route is built from exactly the linked file, if and only if the file is mapped or no generated page took over its docs route |
| `LinkRewriter.LinkMeaningIsPreserved` | `docs/gen_capability_pages.py:9-20` | end to end: the link reaches the page built from the file its author linked, if and only if both conditions hold |
| `LinkRewriter.TakeoverIsReal` | `docs/capability_docs.py:122-129` | in every repository one generated page with route guide.md takes over the links to the unmapped docs file of that name |
| `LinkRewriter.UnstableRoutesAreReal` | `docs/rewrite_capability_links.py:11-20` | in every repository two pages, one of them built from a docs file under another route, make the docs home page render differently the second time |
| `LinkRewriter.BlobNamesTheFile` | `docs/capability_docs.py:130-136` | a repository link names exactly the linked file below the repository root |
| `LinkRewriter.RepositoryFilesGetABlobLink` | `docs/capability_docs.py:122-137` | a link to an existing, unmapped file outside docs always becomes the blob link of exactly that file on github.com, with its query and fragment |
| `LinkRewriter.LinksStartAtTheDirectory` | `docs/capability_docs.py:122-143` | links are read from the directory of their file, and of their page: the relative path from there leads to its target |
| `LinkRewriter.ExternalLinksStay` | `docs/capability_docs.py:116-120` | links with scheme, host or absolute path are left alone |
| `LinkRewriter.UnresolvedLinksStay` | `docs/capability_docs.py:122-139` | unmapped links out of the repository, or to nothing outside docs, are left alone |
| `LinkRewriter.SchemeIff` | `docs/capability_docs.py:118-119` | a first component reads as a scheme if and only if a letter and then letters, digits, plus, minus and dot come before a colon |
| `LinkRewriter.RenderingIsIdempotentIff` | `docs/rewrite_capability_links.py:11-20` | on the docs pages that exist every destination renders the same the second time, if and only if routes are stable on each of them |
| `LinkRewriter.StableRoutesRenderOnce` | `docs/rewrite_capability_links.py:11-20` | one direction, page by page and destination by destination, over all five outcomes |
| `LinkRewriter.UnstableRoutesRenderTwice` | `docs/rewrite_capability_links.py:11-20` | the other direction: for any page and any unstable route that is not printed with a scheme, a destination that renders differently |
| `LinkRewriter.HazardIsReread` | `docs/capability_docs.py:141-143` | a printed route is read back as printed if and only if its first component does not look like a scheme |
| `LinkRewriter.EmittedAgain` | `docs/capability_docs.py:122-143` | an emitted link on a docs page, rendered again, goes where the docs file of its route goes |
| `LinkRewriter.SchemeHazardIsReal` | `docs/capability_docs.py:141-143` | in every repository and under every map that lacks the file, a docs link to a neighbour named notes:1.md goes astray |
| `ProxyPanels.LoadPanel` | `benchmark/proxy_order.py:17-45` | succeeds if and only if the panel is well formed with distinct candidates, and then holds exactly its rows in order |
| `ProxyPanels.RowOrderDoesNotDecideLoading` | `benchmark/proxy_order.py:25-45` | whether rows load does not depend on their order |
| `ProxyPanels.PermutedRowsGiveTheSameTable` | `benchmark/proxy_order.py:25-45` | what a panel holds for each candidate does not depend on row order |
| `ProxyPanels.PanelOkIff` | `benchmark/proxy_order.py:17-45` | a panel loads if and only if cohort, direction and rows are as required and no candidate is listed twice |
| `ProxyPanels.RowValues` | `benchmark/proxy_order.py:36-45` | a loaded row holds the clock reading and the score as written, or no score |
| `ProxyOrder.Join` | `benchmark/proxy_order.py:72-93` | the join loop's counters are the sizes of the candidate classes and its list is the matched candidates |
| `ProxyOrder.CountRow` | `benchmark/proxy_order.py:101-116` | the inner loop adds exactly the judged pairs of one candidate to both rules |
| `ProxyOrder.CountPairs` | `benchmark/proxy_order.py:96-116` | the pair loop's counters are the numbers of unordered pairs with each outcome, for both rules |
| `ProxyOrder.Compare` | `benchmark/proxy_order.py:63-119` | succeeds if and only if both panels are well formed and of one cohort; the report is the counts of classes and pairs |
| `PairCounting.PairCountIsCardinality` | `benchmark/proxy_order.py:101` | the recursive pair count is the number of index pairs |
| `ProxyTheorems.CoveragePartitionsCandidates` | `benchmark/proxy_order.py:72-93` | the four classes partition the native candidates |
| `ProxyTheorems.MatchedMeans` | `benchmark/proxy_order.py:80-93` | the matched candidates are exactly the scored native ones whose proxy was observed before they were accepted, with their two scores |
| `ProxyTheorems.OrderMeans` | `benchmark/proxy_order.py:55-60` | the order is positive if and only if the left score is greater under maximize or smaller under minimize |
| `ProxyTheorems.LaterRuleMeans` | `benchmark/proxy_order.py:55-116` | in plain comparisons: the later rule agrees if and only if the later submission has the better native score in the native direction, and reverses if the worse |
| `ProxyTheorems.ProxyRuleMeans` | `benchmark/proxy_order.py:55-116` | the proxy rule agrees if and only if the better proxy score, in its direction, goes with the better native score, in its own |
| `ProxyTheorems.ImprovingSubmissions` | `benchmark/proxy_order.py:95-119` | if native scores improve strictly with acceptance, the report has no later reversal, abstention or tie and n(n-1)/2 later agreements |
| `ProxyTheorems.ReportConservesPairs` | `benchmark/proxy_order.py:95-116` | for each rule agreements, reversals, abstentions and native ties make n(n-1)/2 |
| `ProxyTheorems.AgreementsMinusReversals` | `benchmark/proxy_order.py:106-116` | agreements minus reversals is the sum of sign products over unordered pairs |
| `ProxyTheorems.ZeroReversalsIffCoSorted` | `benchmark/proxy_order.py:101-116` | no reversals if and only if some arrangement of the candidates is weakly sorted by both scores |
| `ProxyTheorems.TiesAreGroups` | `benchmark/proxy_order.py:100-105` | tied pairs are the sum of k(k-1)/2 over the groups of equal native scores |
| `ProxyTheorems.ReportIsKendall` | `benchmark/proxy_order.py:106-119` | in every report, for either rule, agreements minus reversals is the Kendall sum of the matched candidates |
| `ProxyTheorems.ReportWithoutReversalsIff` | `benchmark/proxy_order.py:101-119` | a report shows no proxy reversal if and only if the matched candidates can be arranged in the order of both scores |
| `ProxyTheorems.ReportTiesAreGroups` | `benchmark/proxy_order.py:100-119` | a report's tied pairs are the sum of k(k-1)/2 over the groups of equal native scores |
| `ProxyTheorems.FlippedProxyReport` | `benchmark/proxy_order.py:59-60` | flipping the proxy direction mirrors the proxy tally and nothing else in the report |
| `ProxyTheorems.FlippedNativeReport` | `benchmark/proxy_order.py:59-60` | flipping the native direction mirrors both tallies and nothing else |
| `ProxyTheorems.ListingOrderIsIrrelevant` | `benchmark/proxy_order.py:80-119` | the report does not depend on the order of either table |
| `ProxyTheorems.RowOrderIsIrrelevant` | `benchmark/proxy_order.py:17-119` | permuting the rows of either document changes neither loading nor the report |
| `ProxyTheorems.NoLookAhead` | `benchmark/proxy_order.py:81-93` | scores of unmatched, late or unscored candidates and the times of late or early observations that stay so do not matter |
| `ProxyTheorems.ReportIgnoresScales` | `benchmark/proxy_order.py:55-60` | strictly increasing maps on either score or on both clocks jointly change nothing |
| `ProxyTheorems.FlippingTheProxy` | `benchmark/proxy_order.py:59-60` | flipping the proxy direction swaps agreement and reversal for the proxy rule only |
| `ProxyTheorems.FlippingTheNative` | `benchmark/proxy_order.py:59-60` | flipping the native direction swaps them for both rules |
| `GitObjects.FramedRoundTrip` | `benchmark/check_deepswe_v1.py:36` | a length-framed object reads back to its kind and payload, so framed objects of different kind or content differ |
| `GitObjects.TreeRoundTrip` | `benchmark/check_deepswe_v1.py:38` | a tree buffer decodes to exactly the entries written, whatever bytes their digests contain |
| `GitObjects.DecodedTreeEncodesBack` | `benchmark/check_deepswe_v1.py:38` | whatever decodes is the encoding of what it decodes to |
| `ArchiveFormat.ModeMeans` | `benchmark/check_deepswe_v1.py:37` | the mode, read in octal, is 100644, with the bits 111 added exactly for executable files |
| `ArchiveFormat.FramedBytes` | `benchmark/check_deepswe_v1.py:36` | what is hashed is the text blob or tree, a space, the decimal length, a zero byte and the payload |
| `ArchiveFormat.EntryBytes` | `benchmark/check_deepswe_v1.py:36-38` | a kept file's tree entry is mode, space, name, zero byte and the digest of its framed bytes |
| `ArchiveCheck.ExamineEntry` | `benchmark/check_deepswe_v1.py:24-54` | one loop turn: admits exactly bytecode and lint-clean regular files, and adds their tree bytes and counts |
| `ArchiveCheck.BuildTree` | `benchmark/check_deepswe_v1.py:19-54` | the loop's buffer is the Git encoding of the kept files, and its counters count the checked files |
| `ArchiveCheck.CheckArchive` | `benchmark/check_deepswe_v1.py:18-67` | accepts if and only if every entry is admitted and the tree digest is the pinned one, with the counts of the listing |
| `ArchiveCheck.DigestDeterminesRecords` | `benchmark/check_deepswe_v1.py:36-57` | with a hash that does not collide on the inputs compared, equal tree digests mean equal names, execute bits and bytes |
| `ArchiveCheck.DigestTestIsExact` | `benchmark/check_deepswe_v1.py:19-57` | the digest test against a snapshot passes if and only if the kept entries are exactly the snapshot's files |
| `ArchiveCheck.BlobDeterminesBytes` | `benchmark/check_deepswe_v1.py:36-55` | blob pre-images determine their bytes and never equal tree pre-images |
| `ArchiveCheck.ListingOrderIsIrrelevant` | `benchmark/check_deepswe_v1.py:21` | any listing order gives the same kept files and the same verdict |
| `ArchiveCheck.BytecodeIsTransparent` | `benchmark/check_deepswe_v1.py:22-32` | adding or removing bytecode files and bytecode-only caches changes neither digest nor verdict |
| `ArchiveCheck.AscendingIsUnique` | `benchmark/check_deepswe_v1.py:21` | distinct names have one ascending order |
| `ArchiveFormat.LessIff` | `benchmark/check_deepswe_v1.py:21` | names are ordered by their first different byte, a proper prefix first |
| `ArchiveFormat.VerdictMeans` | `benchmark/check_deepswe_v1.py:24-34` | bytecode files and bytecode-only caches are skipped, other regular files kept, and all else refused |
| `ArchiveFormat.AdmittedMeans` | `benchmark/check_deepswe_v1.py:39-54` | a kept file is asked of the Python checker if it ends in .py, of the shell checker if in .sh, and of none otherwise |
| `ArchiveFormat.LinksFailBothCheckers` | `benchmark/check_deepswe_v1.py:24-34` | a symbolic or special entry, or a cache with a foreign entry in it, makes both checkers fail whatever it is called |
| `ManifestCheck.ExamineFile` | `benchmark/check_frontiercs2_v1.py:31-49` | one loop turn passes if and only if the entry is a pinned regular file with clean syntax |
| `ManifestCheck.CheckManifest` | `benchmark/check_frontiercs2_v1.py:23-60` | passes if and only if, outside clean caches, the entries are exactly the manifest's files with pinned bytes and no execute bit; the counts are the manifest's |
| `ManifestCheck.ObservedDecides` | `benchmark/check_frontiercs2_v1.py:50-51` | the final set comparison decides identity |
| `ArchiveFormat.PassesIff` | `benchmark/check_frontiercs2_v1.py:23-51` | the manifest checker passes if and only if every entry is a clean cache or a listed, plain file with the pinned digest and clean syntax, and every listed file is there |
| `JsonPointer.FollowPointer` | `examples/bootstrap-command-pack-smoke.py:65-73` | the loop that reassigns the current value computes the walk over one-pass-decoded tokens, with all its failures |
| `JsonPointer.TwoPassesAreOnePass` | `examples/bootstrap-command-pack-smoke.py:67` | on every string the two replacements decode each escape exactly once |
| `JsonPointer.PassOrderMatters` | `examples/bootstrap-command-pack-smoke.py:67` | the input on which the other order of replacements goes wrong |
| `JsonPointer.EscapeRoundTrip` | `examples/bootstrap-command-pack-smoke.py:67` | decoding undoes the encoder of section 3 of RFC 6901 |
| `JsonPointer.SplitJoin` | `examples/bootstrap-command-pack-smoke.py:66` | splitting undoes joining of slash-free tokens |
| `JsonPointer.PointerRoundTrip` | `examples/bootstrap-command-pack-smoke.py:64-73` | for every document and path, following the encoded pointer returns the value at the path |
| `JsonPointer.WalkStaysInside` | `examples/bootstrap-command-pack-smoke.py:65-73` | whatever a walk returns lies at a path of the document with one step per token |
| `JsonPointer.FollowIff` | `examples/bootstrap-command-pack-smoke.py:64-73` | following gives a value if and only if the pointer starts with #/ and each decoded token leads on: a key that is there, or an integer index in range, from the end if negative |
| `JsonPointer.StepFailuresAreTrue` | `examples/bootstrap-command-pack-smoke.py:68-73` | a step fails only for a missing key, an index that is no integer or out of range, or a value that is no container |
| `PythonText.IntRoundTrip` | `examples/bootstrap-command-pack-smoke.py:71` | printing an index in decimal is undone by int |
| `PythonText.SignedIntRoundTrip` | `examples/bootstrap-command-pack-smoke.py:71` | signs are read, and a minus negates |
| `PythonText.UnderscoreBetweenDigits` | `examples/bootstrap-command-pack-smoke.py:71` | one underscore between digits is skipped |
| `PythonText.MisplacedUnderscores` | `examples/bootstrap-command-pack-smoke.py:71` | two together, or one at an end, make the text no integer |
| `PythonText.NoInteger` | `examples/bootstrap-command-pack-smoke.py:71` | text with any other character is no integer |

## Left out

- Link text: the regular expressions of `render_markdown`, code spans, and `urlsplit` beyond the scheme test; destinations are modelled after parsing, and path components are taken to hold no `?` or `#`.
- Symbolic links in the documentation tree: resolution is lexical.
- Loading of documentation specs from catalogs and TOML manifests; the specs and their directory listings are inputs.
- Internals of SHA-1 and SHA-256: the hash is a function, with freedom from collisions assumed only on the inputs compared, and digests are bytes instead of hexadecimal text.
- The contents of the syntax checks (`compile`, `ast.parse`, `bash -n`, JSON decoding); their results are parameters.
- JSON decoding of panels, and floats outside `Decimal`; decoded documents are inputs.
- Non-ASCII digits in `int()`, and percent-decoding of pointer fragments, which the source does not do either.
- Receipts, operation identities and recovery of lost responses; every command is decided against the current state and applied atomically.
- The dependency, objective and acceptance guards of the lease executors; a command they refuse is no step.
- Retained lease records without a version, epoch or acquisition time-to-live, `invalid_lease_snapshot`, and the `removed_continuation_policy` refusal of claim transfers.
- Overlap advisories between independent worktrees, and the listing of conflicting leases in answers.
- Todo guards that read no lease fact: dependencies, acceptance, decision scopes, archive capacity, duplicate detection; and the field edits a user may combine with a completion.
- The scope requirement of a policy migration, and delegation grants beyond whether one covers the actor.
- A clock that runs backwards.
- The order in which `equalScopeSets` sorts scopes: the source sorts with `localeCompare` and compares element by element, the model compares sets.
- UTF-16 code units: text is a sequence of code points, so scope length and surrogates in patterns follow code points.
- The host's Unicode tables: the fold is any function with the stated properties, and the four-pass bound of its iteration is not modelled.
- The lower-casing of repository names is an arbitrary function.
- Scheduling overlap for quotas, the stores, the historical file-based lease writer, and the rest of the control plane.
