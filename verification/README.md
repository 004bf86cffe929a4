# Verified model of n8n's execution resume, credential and registry cores

n8n's server (`packages/cli/src`) holds several small cores in which state, caches and
protocols interact. This project models them in Dafny 4.11 and proves what they promise.
`dafny verify dfyconfig.toml` checks everything.

- **Credential references** (`CredentialLookup`, `CredentialRepair`). Importing or saving a
  workflow rewrites credential references in place, with a cache of three kinds of key that may
  be shared by several calls. The rewriting is proved equal to a resolver without a cache.
- **Credential type inheritance** (`TypeGraph`, `CredentialTypes`, `ProxyAuth`,
  `OverwriteRules`, `OverwriteTheorems`, `CredentialsOverwrites`). Ancestor lists are built by
  iterating over a growing array, base types are found by a search with a shared `seen` set,
  and overwrites are flattened in place with a memo that forgets inherited fields. Acyclicity
  is required only where the code recurses without a guard.
- **Waiting for sub-executions** (`ExecutionData`, `ParentPatch`, `WaitTracker`,
  `WaitOwnership`, `Retry`). A finished child patches its waiting parent and claims it; a sweep
  catches what came too early. The row-level behaviour is in `WaitTracker`; `WaitOwnership`
  interleaves deliveries between all their database accesses.
- **Registry of active executions** (`RegistryRules`, `RegistryTheorems`, `ActiveExecutions`,
  `ResumeRace`). `add` reserves capacity, claims the row by compare-and-swap and registers an
  entry; the entry and the reservation end in different places.
- **Stalled jobs, activation retries, deadlines** (`StalledJob`, `ActivationQueue`, `Deadlines`).

Objects that the source updates are classes: nodes and the cache, the overwrite table and its
service, the row store and the tracker, the execution objects and their registry, the activation
manager. Each method is proved against a function of the old state, and the theorems are about
those functions. The database is an atomic read, an atomic write and an atomic
compare-and-swap per row. Clocks, jitter, failures of the outside world and the order in which
a loop visits keys or a query lists rows are parameters or arbitrary choices, so the theorems
hold for all of them.

## Where the code does not keep what one might expect

- Flattening overwrites is harmless for `get` exactly when no type has two parents
  (`FlatteningIsSafeIffSingleParent`): `getOverwrites` lets the last parent win, `get` the first.
- The comment above `updateParentExecutionWithChildResults` leaves the choice between sibling
  children to the status check of the claim. That check is exclusive per wait
  (`EveryRunIsExclusive`). Siblings of one wait may overlap freely, and a parent resumes on its own
  wait, as long as it never parks again with a delivery in flight (`QuietRunsOwnTheirWaits`).
  Exactly then: a delivery left over from an earlier wait, wherever it stands, can claim the *next*
  wait before any of that wait's children has finished (`ParkIsSafeIffNothingInFlight`). One that has
  read the earlier wait and writes late can also make the new wait refuse its own children, exactly
  when the earlier tag is narrower (`ParkStaysWelcomingIff`).
- A credential to which its overwrite has been applied no longer counts as managed as long as all
  values are primitive (`AppliedIsNeverManaged`). With objects it may, because `usesManagedAuth`
  compares a deep copy by identity (`AppliedIsManagedIffObjects`).
- A parked parent wakes up in a sweep exactly when the first terminal child in the database's
  row order is usable and the parent is saved and unfinished (`SweepWakesExactlyTheResumable`).
- A call of `add` keeps its capacity for good exactly when its entry was taken away before its
  promise settled (`CapacityIsLostIffCutOff`): by a stop while its status is already `waiting`, by a
  second call that registers the same id, or by the settle handler of an older call on the id
  (`OrphanedIffCutOff`). Each has a run from an empty process (`EarlyStopOrphansCall`,
  `EarlyResumeOrphansCall`, `LateHandlerOrphansCall`); the second needs only that the row is
  written `waiting`, and resumed, before the first call is finalised.
- The activation queue has at most one timer per workflow, unless a workflow is queued while an
  attempt of it is running (`EnqueueIsSafeIffNoAttemptRuns`): that attempt, when it fails, re-arms
  through the new entry, and one of the two timers outlives the removal of the workflow
  (`SecondTimer`). An attempt that returns early leaves its entry in the queue without a timer.

## Model

| member | source | states |
|---|---|---|
| CredentialLookup.ResolveMeaning | packages/cli/src/workflow-helpers.ts:341-431 | A reference becomes id and name of the row with its id and type if one exists, else of the only project-scoped row of its name and type that is shared with the project, else it stays as it was |
| CredentialLookup.UniqueByNameMeaning | packages/@n8n/db/src/repositories/credentials.repository.ts:488-497 | A name stands for a row iff that is the only one with the name, the type, project scope and a share of the project |
| CredentialLookup.NamesStayInProject | packages/@n8n/db/src/repositories/credentials.repository.ts:488-497 | A changed reference points at the row it asked for by id or at one of the project itself, never by name at another project's |
| CredentialLookup.ResolveIsIdempotent | packages/cli/src/workflow-helpers.ts:307-436 | With unique ids, repairing a repaired reference changes nothing |
| CredentialLookup.ResolveRespectsAgree | packages/cli/src/workflow-helpers.ts:361-369 | A bare unresolvable name and its cached object form are repaired alike, so the one liberty of the cache is harmless |
| CredentialLookup.ExemptReferencesStay | packages/cli/src/workflow-helpers.ts:327-336 | Missing, gateway-managed and unsafely named references are never rewritten |
| CredentialRepair.RepairSlot | packages/cli/src/workflow-helpers.ts:325-432 | One reference: from any agreeing cache the outcome agrees with the cache-free resolver, the cache agrees again, and the new object is neither in the cache nor any older one |
| CredentialRepair.RepairNode | packages/cli/src/workflow-helpers.ts:318-433 | One node: disabled nodes stay, every reference of an enabled node is repaired whatever the order of its keys, and a rewritten slot shares its object with neither the cache nor another slot |
| CredentialRepair.ReplaceInvalidCredentials | packages/cli/src/workflow-helpers.ts:307-436 | Cache transparency for all nodes of a workflow, with the cache agreeing again afterwards, so that it can be shared with the next workflow; no rewritten slot shares its object with the cache or with another slot of any node |
| CredentialRepair.RepairedNodeStaysInProject | packages/cli/src/workflow-helpers.ts:318-433 | In a repaired node every slot that names another credential than before names one found by the old id or one shared with the project |
| TypeGraph.AncestorHasLowerRank | packages/cli/src/credential-types.ts:26-38 | On an acyclic graph an ancestor has strictly fewer ancestors; every upward walk ends |
| CredentialTypes.GetParentTypes | packages/cli/src/credential-types.ts:26-38 | The loop over the growing array, with its recursion, terminates on every acyclic graph and returns the level-by-level list |
| CredentialTypes.ExpandServesHead | packages/cli/src/credential-types.ts:33-35 | Serving the growing list head by head gives the same list as expanding it level by level |
| CredentialTypes.ParentTypesAreAncestors | packages/cli/src/credential-types.ts:23-38 | The list holds exactly the strict ancestors |
| CredentialTypes.ParentTypesStartWithChain | packages/cli/src/credential-types.ts:26-38 | With single parents the list begins with the ancestor chain, nearest first, and then only repeats it |
| ProxyAuth.ExtendsProxyAuthBaseType | packages/cli/src/load-nodes-and-credentials.ts:364-381 | On any graph, cycles included: true iff `oAuth2Api`, `googleOAuth2Api` or `oAuth1Api` is reached by one or more `extends` edges |
| ProxyAuth.Search | packages/cli/src/load-nodes-and-credentials.ts:370-381 | With names of callers already in the shared set, a negative answer leaves all newly seen names fully searched and free of base types |
| ProxyAuth.ExhaustedHasNoBase | packages/cli/src/load-nodes-and-credentials.ts:370-381 | A closed searched set without a base type rules out every base type |
| OverwriteTheorems.AnswerIsSound | packages/cli/src/credentials-overwrites.ts:180-210 | Whatever the memo holds, an answer contains the raw entry and only effective fields |
| OverwriteTheorems.FlattenIsSound | packages/cli/src/credentials-overwrites.ts:110-123 | Raw below stored below effective is kept by the whole loop in every key order |
| OverwriteTheorems.MemoForgetsInheritance | packages/cli/src/credentials-overwrites.ts:181-184 | The second answer for an intermediate type without an entry of its own is missing although the first was not |
| OverwriteTheorems.UnknownTypesAnswerNothing | packages/cli/src/credentials-overwrites.ts:186-189 | A type that is not known answers nothing, and gives a child nothing, even if the table has an entry for it |
| OverwriteTheorems.KnownTypesAreRemembered | packages/cli/src/credentials-overwrites.ts:193-208 | Every known type is in the memo once it has been asked for |
| OverwriteTheorems.EffectiveIsNearest | packages/cli/src/credentials-overwrites.ts:212-225 | Effective fields are, key by key, the raw value of the nearest type on the ancestor line that defines the key |
| OverwriteTheorems.GetIsNearest | packages/cli/src/credentials-overwrites.ts:212-225 | On any acyclic graph and table: `get` answers iff the type or an ancestor has an entry, each key from the first name of the ancestor list that has it |
| OverwriteTheorems.FlatteningIsCorrect | packages/cli/src/credentials-overwrites.ts:110-123 | After flattening in any order, `get` finds each key at the nearest defining type, for every type, and answers iff some type on the line has an entry |
| OverwriteTheorems.FlatteningKeepsGet | packages/cli/src/credentials-overwrites.ts:212-225 | Flattening never changes what `get` answers under single inheritance |
| OverwriteTheorems.ReloadKeepsGet | packages/cli/src/credentials-overwrites.ts:125-138 | Storing the flattened table and flattening it again elsewhere, in another order, answers `get` alike |
| OverwriteTheorems.FlatteningIsSafeIffSingleParent | packages/cli/src/credentials-overwrites.ts:198-204 | On acyclic graphs of known types without repeated parents: flattening keeps `get` for all tables and orders iff no type has two parents |
| OverwriteTheorems.MultipleParentsBreakFlattening | packages/cli/src/credentials-overwrites.ts:198-204 | For any type with two parents, a table and an order on which `get` changes |
| OverwriteTheorems.ApplyMeaning | packages/cli/src/credentials-overwrites.ts:140-178 | Nothing changes without an overwrite or for a customised skip-list type; otherwise exactly the stored fields that are missing, null or "" receive an overwrite other than "" |
| OverwriteTheorems.ApplyKeepsStoredValues | packages/cli/src/credentials-overwrites.ts:163-175 | A non-empty stored field keeps its content; an object comes back as a copy |
| OverwriteTheorems.ApplyIsIdempotent | packages/cli/src/credentials-overwrites.ts:140-178 | Applying an overwrite twice gives the contents of applying it once, skip list and copied objects included |
| OverwriteTheorems.AppliedIsManagedIffObjects | packages/cli/src/credentials-overwrites.ts:261-269 | A credential that has received its overwrite still counts as managed iff an object is stored or injected under an overwritten key; on the skip list, iff one is injected, none is stored there and no customisation protected it |
| OverwriteTheorems.AppliedIsNeverManaged | packages/cli/src/credentials-overwrites.ts:261-269 | With primitive values throughout, a credential that has received its overwrite no longer counts as managed |
| OverwriteTheorems.ManagedIffInjected | packages/cli/src/credentials-overwrites.ts:261-269 | Managed iff no customisation of a skip-list type protects it and, under some overwritten key, an empty field receives a different value or an object is stored, whose copy is never the same |
| CredentialsOverwrites.Service.GetOverwrites | packages/cli/src/credentials-overwrites.ts:180-210 | The recursive method with its memo side effect computes the resolution function |
| CredentialsOverwrites.Service.SetPlainData | packages/cli/src/credentials-overwrites.ts:110-123 | The caller's own object is adopted and holds the flattened table, same keys, in some visiting order |
| CredentialsOverwrites.Service.SetData | packages/cli/src/credentials-overwrites.ts:125-138 | What is stored is the already flattened object |
| CredentialsOverwrites.Service.LoadOverwriteDataFromDB | packages/cli/src/credentials-overwrites.ts:64-84 | A reload flattens the stored table once more in a new object and stores nothing |
| CredentialsOverwrites.Service.Get | packages/cli/src/credentials-overwrites.ts:212-225 | The reversed merge lets the nearest type win |
| CredentialsOverwrites.FillEmptyFields | packages/cli/src/credentials-overwrites.ts:167-175 | The filling loop injects exactly the non-empty overwrites of empty fields |
| CredentialsOverwrites.Service.ApplyOverwrite | packages/cli/src/credentials-overwrites.ts:140-178 | Skip-list customisation and filling together compute the application function |
| CredentialsOverwrites.Service.UsesManagedAuth | packages/cli/src/credentials-overwrites.ts:261-269 | True iff applying changes a field that the overwrite names, objects being compared by identity |
| ParentPatch.ExecutionStore.UpdateParentExecutionWithChildResults | packages/cli/src/workflow-helpers.ts:488-588 | Patched iff the child is usable, the parent waits with a non-empty stack and its tag owns the child; only that row's data changes |
| ExecutionData.LastOutputIsDelivered | packages/cli/src/workflow-helpers.ts:83-117 | The output of a run is the pinned data of its last node in a manual run, else the data of that node's last task, and missing without a last node, run data or data in that task |
| ParentPatch.AcceptedIff | packages/cli/src/workflow-helpers.ts:493-524 | A child is accepted iff it has an error or delivers an output, the parent waits with a non-empty stack, and the head's tag is empty, names the child, or the child is anonymous |
| ParentPatch.UsageMeaning | packages/cli/src/workflow-helpers.ts:529-530 | A child reports usage iff some task of it does, and a user only together with a used credential |
| ParentPatch.PatchInMemory | packages/cli/src/workflow-helpers.ts:529-580 | The in-place update of head, waiting task and run user computes the patch function |
| ParentPatch.PatchIsIdempotent | packages/cli/src/workflow-helpers.ts:529-580 | Patching twice with the same child equals patching once |
| ParentPatch.RetriedPatchCountsOnce | packages/cli/src/wait-tracker.ts:234-254 | However many attempts of a retried patch reach the database, the parent is patched once or not at all |
| ParentPatch.PatchKeepsAcceptance | packages/cli/src/workflow-helpers.ts:517-524 | A patch changes nothing about which children are accepted |
| ParentPatch.PatchesKeepFrame | packages/cli/src/workflow-helpers.ts:533-580 | Any sequence of patches keeps the stack tail, the tag, other nodes' run data, earlier tasks and all task outputs |
| ParentPatch.PatchesAccumulateUsage | packages/cli/src/workflow-helpers.ts:530-560 | Head and waiting task carry a credential-usage flag iff they did before or some child reported it |
| ParentPatch.PatchesKeepLastResults | packages/cli/src/workflow-helpers.ts:566-580 | The head ends with the last failed child's error, which no success clears, and with what the last successful child delivers: pinned data of its last node in a manual run, else that node's last task |
| ParentPatch.PatchesKeepLastUser | packages/cli/src/workflow-helpers.ts:557-564 | The last child that names a user decides it, on the head and in the runtime data alike |
| WaitTracker.FirstTerminalIsFirst | packages/cli/src/wait-tracker.ts:335-345 | The child a sweep picks is success, error, crashed or canceled, and every earlier listed child is new, running, waiting or unknown |
| WaitTracker.DeliveryResumesIffOwned | packages/cli/src/workflow-helpers.ts:513-524 | A finished child resumes a claimable parent iff the tag names it or there is no tag; a left-over child changes nothing |
| WaitTracker.Tracker.ClaimParent | packages/cli/src/wait-tracker.ts:261-282 | The claim moves a saved, unfinished, waiting row to running, waiting for nothing, with its data and all else as before, and touches nothing otherwise |
| WaitTracker.Tracker.ResumeParentExecution | packages/cli/src/wait-tracker.ts:197-231 | Patch and then claim, only if patched; a waiting or missing child result does nothing |
| WaitTracker.Tracker.ResumeParentsOfFinishedSubExecutions | packages/cli/src/wait-tracker.ts:290-323 | A tick does nothing while a sweep runs or when the query for parked parents fails, else it sweeps every parked parent even when some break down |
| WaitTracker.SweepIsPointwise | packages/cli/src/wait-tracker.ts:310-319 | A sweep treats every parked row by itself and changes no other row |
| WaitTracker.SweepWakesExactlyTheResumable | packages/cli/src/wait-tracker.ts:325-383 | A failure-free sweep wakes a parked parent iff the first terminal child is usable and the parent claimable; it then runs on its data patched by that child, and waits for nothing |
| WaitTracker.DeliveryMeaning | packages/cli/src/wait-tracker.ts:197-282 | A delivery leaves the row alone, or patches its data, or also sets it running without a wait, depending on acceptance, break-down and whether the row is saved and unfinished |
| WaitTracker.EarlyDeliveryIsInert | packages/cli/src/workflow-helpers.ts:502-504 | A delivery before the parent waits changes nothing |
| WaitTracker.NoLostWakeUp | packages/cli/src/wait-tracker.ts:284-383 | With each delivery as one row change: after any sequence of row writes, deliveries of any children, other resumes, parks and sweeps, with break-downs anywhere: if the parent parked last and a child of that wait is finished, all finished ones being usable, one failure-free sweep leaves the parent running |
| WaitTracker.RedeliveryConverges | packages/cli/src/wait-tracker.ts:234-282 | A delivery that broke down anywhere, delivered again, ends where a clean one ends |
| WaitTracker.FaultySweepConverges | packages/cli/src/wait-tracker.ts:290-323 | A sweep that breaks down for any parents at any point, then a clean one, equals one clean sweep |
| WaitOwnership.EveryRunIsExclusive | packages/cli/src/active-executions.ts:136-149 | Under full interleaving, retried patches and claims included: at most one claim per wait, and a parent only ever resumes on one wait's parked data patched by that wait's children |
| WaitOwnership.QuietRunsOwnTheirWaits | packages/cli/src/workflow-helpers.ts:513-524 | If the parent parks only with no delivery in flight, then whatever overlaps within a wait, every child-driven resume is on the current wait, patched by at least one child and only by children in its tag |
| WaitOwnership.ParkIsSafeIffNothingInFlight | packages/cli/src/wait-tracker.ts:197-282 | After any such run, parking again keeps every later resume on its own wait iff no delivery is in flight |
| WaitOwnership.LeftOverDeliveryResumes | packages/cli/src/wait-tracker.ts:197-282 | A delivery in any phase when the parent parks again can resume the new wait without a result of its children |
| WaitOwnership.QuietRunsWelcomeTheirChildren | packages/cli/src/workflow-helpers.ts:502-524 | After every such run a waiting parent accepts every usable child that its wait owns |
| WaitOwnership.ParkStaysWelcomingIff | packages/cli/src/workflow-helpers.ts:502-588 | After any such run, parking again keeps every later wait open to all its children iff each delivery that has read but not yet written read a tag as wide as the new one |
| WaitOwnership.LateWriteTurnsChildAway | packages/cli/src/workflow-helpers.ts:513-588 | A patch written late over a new wait brings back its narrower tag, and a usable child of the new wait is refused |
| WaitOwnership.AcceptedChildResumes | packages/cli/src/wait-tracker.ts:197-282 | Wherever other deliveries stand, an accepted child whose delivery runs through resumes the parent with its result |
| WaitOwnership.ClaimWritesItsCopy | packages/cli/src/active-executions.ts:133-143 | A claim that goes through makes the row running on the copy it has read, whatever is stored by then |
| WaitOwnership.SerialRunsOwnTheirWaits | packages/cli/src/workflow-helpers.ts:513-524 | With serialised deliveries, moreover, the claiming child's result is the latest in the data that the parent resumes on |
| WaitOwnership.OverlappingDeliveriesBreakOwnership | packages/cli/src/wait-tracker.ts:197-231 | For any two children of a wait and any next wait, an overlap in which the next wait is resumed without a result |
| Retry.WithRetry | packages/cli/src/wait-tracker.ts:385-403 | The calls are the least number that ends in success, a final error or the attempt limit; it returns iff the last succeeded; pauses sum to 100(2^(n-1)-1) ms |
| Retry.RetryParentResume | packages/cli/src/wait-tracker.ts:234-282 | For patch and claim: at most three calls and 300 ms of pauses, and it returns iff one of the first three attempts succeeds after failures that may be tried again |
| RegistryTheorems.RunConserves | packages/cli/src/active-executions.ts:77-89 | In every run, capacity in use is the number of non-evaluation calls that reserved and neither failed nor had their settle handler run |
| RegistryTheorems.DebtEndsOnce | packages/cli/src/active-executions.ts:154-188 | A reservation ends only by losing or by the settle handler, and never begins again |
| RegistryTheorems.LosingAddLeavesNoTrace | packages/cli/src/active-executions.ts:145-157 | Reserving and then losing leaves registry and capacity as they were |
| RegistryTheorems.OrphanedIffCutOff | packages/cli/src/active-executions.ts:159-252 | A step orphans an unsettled call iff it stops its id while its status is `waiting`, registers another call on the id, or runs the settle handler of another call on the id whose status is not `waiting`; orphans stay orphans |
| RegistryTheorems.ReleasableIffNotOrphaned | packages/cli/src/active-executions.ts:172-188 | Some continuation of a run gives a registered call's capacity back iff it is not an orphan |
| RegistryTheorems.CapacityIsLostIffCutOff | packages/cli/src/active-executions.ts:159-274 | In every run from an empty process: a registered call's capacity can never come back iff some earlier step cut it off |
| RegistryTheorems.EarlyStopOrphansCall | packages/cli/src/active-executions.ts:242-250 | A run from an empty process in which a stop between status `waiting` and settling loses capacity |
| RegistryTheorems.LateHandlerOrphansCall | packages/cli/src/active-executions.ts:172-188 | A run from an empty process in which the settle handler of an older call removes the entry of a newer one on the same id |
| ResumeRace.EarlyResumeOrphansCall | packages/cli/src/active-executions.ts:133-170 | A run in which nobody stops anything and a second call of the same execution, registering before the first one settles, loses capacity |
| RegistryTheorems.OrphanOwesForever | packages/cli/src/active-executions.ts:254-274 | A call cut off from its entry never gives its capacity back |
| RegistryTheorems.EntrySurvivesParking | packages/cli/src/active-executions.ts:159-188 | Over any parks and resumes an entry keeps its first start and its last response promise, and is settled exactly while waiting |
| RegistryTheorems.StopMeaning | packages/cli/src/active-executions.ts:225-252 | A waiting entry, settled or not, goes at once with its response mode; any other stays and is settled; nothing else changes |
| RegistryTheorems.RegistryFollowsEachExecution | packages/cli/src/active-executions.ts:159-274 | Over any run, start, response promise, engine, status and response mode of an execution are what its own steps make of them, whatever happens to others |
| RegistryTheorems.RegisteredIffEntered | packages/cli/src/active-executions.ts:159-274 | An execution is in the registry iff it was entered and neither finished nor cancelled since |
| ResumeRace.ResumeIsExclusive | packages/cli/src/active-executions.ts:123-149 | Any processes, calls and writers: between two writes of `waiting` at most one claim of the row wins, and capacity stays conserved everywhere |
| ResumeRace.LostClaimLeavesNoTrace | packages/cli/src/active-executions.ts:145-157 | A lost claim changes no row, entry or other process and gives its own capacity back |
| ResumeRace.ClaimMeaning | packages/cli/src/active-executions.ts:133-149 | A claim wins iff the row has the expected status and then makes it running; no other row, call or process changes either way |
| ResumeRace.CreatedRowIsNew | packages/cli/src/active-executions.ts:93-111 | A created row starts as `new` |
| ActiveExecutions.Registry.Reserve | packages/cli/src/active-executions.ts:112-130 | Reserving takes capacity except for evaluation runs |
| ActiveExecutions.Registry.LoseClaim | packages/cli/src/active-executions.ts:154-157 | The failing `add` releases what it holds and registers nothing |
| ActiveExecutions.Registry.Register | packages/cli/src/active-executions.ts:159-170 | The new entry inherits start and response promise from the one it replaces |
| ActiveExecutions.Registry.StopExecution | packages/cli/src/active-executions.ts:225-252 | A waiting entry is removed at once, any other has its promise settled |
| ActiveExecutions.Registry.FinalizeExecution | packages/cli/src/active-executions.ts:255-274 | The promise of the present entry is settled; without an entry nothing happens |
| ActiveExecutions.Registry.OnSettled | packages/cli/src/active-executions.ts:172-188 | The handler releases once and keeps a waiting entry without its engine, or removes the id |
| StalledJob.ProcessError | packages/cli/src/workflow-runner.ts:134-326 | A stalled job is read up to the first read that finds it no longer in progress, the 31st, or the first after 30 s, any other job once; at most one finalisation, with the stored run where there is one; a failure recorded iff no read was success, waiting or canceled (and the crash mark found the row) |
| ActivationQueue.EveryRunIsHealthy | packages/cli/src/active-workflow-manager.ts:876-971 | In every run that queues no workflow during an attempt of it: at most one live timer per workflow, of its current entry; a queued workflow has none iff its attempt is still running or has returned without dequeuing |
| ActivationQueue.EnqueueIsSafeIffNoAttemptRuns | packages/cli/src/active-workflow-manager.ts:940-950 | Queuing a workflow keeps one timer per workflow in every such continuation iff no attempt of it is running |
| ActivationQueue.SecondTimer | packages/cli/src/active-workflow-manager.ts:908-935 | An attempt overtaken by a new queuing re-arms through the new entry, and the timer it displaces outlives a removal |
| ActivationQueue.EveryRunBacksOff | packages/cli/src/active-workflow-manager.ts:914-934 | In every run whatsoever: if k attempts of a queued workflow have failed, isolate failures aside, since it was queued, its delay is min(1000 * 2^k, one day), and its timer was armed with it |
| ActivationQueue.FinishMeaning | packages/cli/src/active-workflow-manager.ts:891-937 | An attempt that returns leaves entries and timers alone, a refused one takes only the entry it was made for, a failed one moves the present entry to a new timer |
| ActivationQueue.RemoveAllClears | packages/cli/src/active-workflow-manager.ts:963-970 | Clearing an undisturbed queue leaves no entry and no timer |
| ActivationQueue.BackoffDoubles | packages/cli/src/active-workflow-manager.ts:914-917 | One more failure moves the capped power of two one step on |
| ActivationQueue.Manager.FinishRetry | packages/cli/src/active-workflow-manager.ts:891-937 | The callback's outcomes: nothing more to do, leave only one's own entry, or re-arm with the next delay through whatever entry there is |
| ActivationQueue.Manager.AddQueuedWorkflowActivation | packages/cli/src/active-workflow-manager.ts:876-951 | Queuing clears an older entry with its timer first |
| ActivationQueue.Manager.RemoveAllQueuedWorkflowActivations | packages/cli/src/active-workflow-manager.ts:963-970 | The loop clears every entry together with its timer |
| Deadlines.OwnDeadlineIsTightestLimit | packages/cli/src/workflow-execute-additional-data.ts:248-276 | A deadline exists iff the setting, or without one the default, is positive, and is the tightest limit that applies |
| Deadlines.DeadlineIsEarliestBinding | packages/cli/src/workflow-execute-additional-data.ts:248-293 | For any chain of calls the deadline is the earliest of the own deadlines since the last detachment and, without one, the root's |

## Left out

- HTTP, push, logging, telemetry, events, streaming responses and the audit trail.
- Timed and webhook waits of the wait tracker, and its table of timers.
- Shutdown and cancelling of all running executions; concurrency queues beyond the capacity count.
- `shouldRestartParentExecution`, `isManagedOAuthType`, `supportsManagedAuth`: one-line decisions.
- Retention pruning of a recovered success and the resolving of its response promise in `processError`.
- How the engine runs nodes, resumes the stack head and writes its row; the model sees parking as one write.
- Row writes that vanish because the row was deleted meanwhile: rows are never deleted here.
- Credential references without an `id` property, which TypeORM would treat as no condition at all.
- Fields of a credential reference other than id, name and the gateway flag; a gateway flag that is false is the same as none.
- Differences between the known and the loaded `extends` of a credential type; both come from the same declaration.
- New identities of objects in an overwrite table when it is saved and loaded again; object contents are opaque text.
- What `add` does between its awaits; an attempt is a start and an end with an outcome, and anything may happen to the queue in between.
- CredentialRepair.ReplaceInvalidCredentials: the nodes of a workflow are taken to be distinct objects, as parsing produces them; reference objects have constant fields because the code only replaces them.
- RegistryTheorems.RegistryFollowsEachExecution: as for `EntrySurvivesParking` below, runs in which settling and its handler are torn apart are the business of the theorems about capacity.
- RegistryTheorems.EntrySurvivesParking: settling and its handler are one step here, as is parking; conservation and exclusivity do not assume this.
- WaitTracker.NoLostWakeUp: a delivery is one row change there; what a patch written late does to the next wait is in `WaitOwnership`.
- WaitOwnership.QuietRunsOwnTheirWaits: the checks of `startExecution` other than the status compare-and-swap only abandon a delivery.
