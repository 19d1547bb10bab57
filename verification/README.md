# Verified model of miniautogen's coordination kernels

miniautogen coordinates several language-model agents. Six of its parts keep promises over whole
runs, and this project models them and proves what they keep:

| part | files here |
|---|---|
| effect idempotency: tool calls wrapped so that retries, crashes and concurrent callers do not repeat an effect | EffectProtocol, EffectSafety, EffectInterceptor, IdempotencyKey, EffectIdentity |
| the dependency-cycle check of task lists (Kahn's queue) | TaskGraph, CycleCheck |
| response caches: exact and by similarity | CosineSimilarity, ExactCache, ExactCacheProtocol, SemanticCache, SemanticCacheProtocol |
| the workspace registry of engines, agents and flows | Workspace, WorkspaceIntegrity, WorkspaceChains, Registry |
| state rebuilt from events, and the frozen state | EventSourcedState, FrozenState, KeyOrder |
| agent memory, the agent's turn, and approvals | AgentMemory, AgentRuntime, AgentTurns, ApprovalHandle, ApprovalChannels |

`dafny verify dfyconfig.toml` verifies all of it.

## How it is built

Each part comes in two forms. A pure form (functions on values) says what one operation does, and
lemmas prove what every run of operations keeps. An object form, where the source has objects that it
updates, is a class with the source's fields and loops; each method is proved to change the object's
`View()` exactly as the pure function says. What a pure function gives is stated beside it without its
name, from its arguments alone. Where tasks interleave, an operation is cut at each point
at which the source can be suspended: `IsRun` describes every interleaving of the pieces, and a main
result is about every world of every such run.

Digests, JSON text, embeddings, square roots, hooks, drivers, tools, clocks and schema checks are
parameters, so the results hold for whatever they do. No digest is assumed to be injective: where
separation matters, a lemma asks that the inputs it compares do not collide (`TransparentOverDumps`,
which speaks of all inputs, that no two dumps do).

## Where the code keeps less than one might read into it

Each of these is proved: an input or run that shows it, and the exact condition under which the code
does meet the property.

- *One executor per key.* Deleting a run under a running tool admits a second executor
  (`DeletionAdmitsSecondExecutor`), and a tool that outlives the stale timeout is joined by one, so that
  its key succeeds twice (`LateToolSucceedsTwice`). Over a whole run no key has two executors exactly
  when no admitted call meets a live executor whose record is deleted or stale (`SingleExactly`). That
  every executor also keeps its journal record is stronger, with its own condition (`ExclusionExactly`).
- *COMPLETED is final.* The overlap can turn COMPLETED into FAILED (`LateToolUndoesCompletion`). From a
  completion on, a key stays COMPLETED exactly when no tool under it raises and its run is not deleted
  (`CompletedExactly`).
- *A replay gives the first answer.* The class documentation speaks of returning the cached result. The
  code answers `None`, and because the policy is checked before the journal, a replay on an exhausted
  step is denied and not skipped (`ExhaustedStepIsDenied`). The replay's answer is the first one exactly
  when the step has room and that answer was `None` (`RepeatIsNotExecuted`).
- *A counter per step.* The counter's key joins run and step with a colon, so `("a:b", "c")` and
  `("a", "b:c")` share a counter (`StepKeyCollision`). Over all runs a step's counter counts its own
  registrations exactly when neither of its ids has a colon (`CountsAloneExactly`).
- *A key per effect.* The idempotency key concatenates its parts without separators, so different runs
  can share keys (`DifferentRunsShareKeys`); exactly when, says `KeysShared`.
- *Equal arguments, one key.* Python finds `{"n": 1}` and `{"n": 1.0}` equal; the dump writes them apart, so
  they have different hashes (`IntegerAndFloatDiffer`) and a tool can succeed for both
  (`EqualArgsSucceedTwice`). Arguments that Python finds equal share their hash exactly when the numbers
  and booleans at corresponding places are of one kind (`EqualArgsShareHash`, `ValueIsEqualOfKind`).
- *Transparent exact cache.* True exactly when inputs with one hash have one result
  (`TransparentExactly`); two inputs with one hash and two results mislead it (`SharedHashMisleads`).
  Storing raises exactly when the maximum size is 0 or less (`StoringFailsExactly`).
- *Similarity cache files results under their own text.* A hit leaves its text pending; when the next
  embedding of that run fails, the next result is stored under the earlier text
  (`FailedEmbeddingMisfiles`). All stored results are those of their texts exactly when no step ends
  with another text pending whose result differs (`StoredExactly`), which needs such a failure
  (`ForeignNeedsFailure`). That pending texts fit as well is stronger: it is lost with the failure
  itself, whether or not anything is stored afterwards (`FiledExactly`).
- *Transparent similarity cache.* A similar text with another result is answered with the wrong one
  (`SimilarTextMisleads`). At every threshold that is not negative, and as long as nothing foreign is
  stored, the cache agrees with the uncached step exactly when texts that score at least the threshold
  share their result (`TransparentExactly`).
- *The default engine is never removed.* `delete_engine` guards `defaults.engine_profile`, while the
  project template and `DefaultsConfig` write `defaults.engine`. The guarded one is indeed kept
  (`SoundAlways`); the one the template names is not (`TemplateDefaultIsUnguarded`); exactly when it
  can be removed, says `DefaultEngineRemoved`.
- *Acyclic chains.* `update_pipeline` would write a `chain` argument unchecked, a flow's own name included
  (`SelfChainCloses`); the command line never sends one. With the keys it does send, acyclicity holds over all runs (`SoundAlways`); for a chain
  update the exact condition is `ChainUpdateExactly`.
- *An engine's API key can be updated by its variable.* A creation turns `api_key_env` into a reference; an
  update stores it beside the API key, which changes exactly when the update gives another one itself
  (`UpdatedVariableIsNoKey`).
- *Resource names.* The pattern ends in `$`, which in Python also matches before a final newline;
  `LineBreakAccepted` shows one, and an accepted name is a proper one exactly when it has no line break
  (`NamesExactly`).
- *Metadata.* A metadata tuple given with a repeated key answers differently after any
  `evolve_metadata` (`RepeatedMetadataChanges`); exactly which lookups are kept, say `MetadataFrame` and
  `PreviousResultInjected`.
- *Folding never fails.* It does when a component finishes after the step index was restored to a text
  (`RestoredTextFails`; one restored to 2.0 becomes 3.0), and exactly when a component finishes or is
  skipped while the last restored index is no number (`FoldFailsExactly`).
- *A failed turn leaves no memory.* An after-hook that fails does so after the turn was saved
  (`LateHookFailureIsRemembered`). A turn that raises changes the memory exactly when hooks before it,
  driver and tools all went through (`FailedTurnRemembered`).
- *Stored memory grows as (2^n - 1)(m + t + 1).* Turns of one run that overlap store less: two that both read
  before either saves store 2(m + t + 1) messages (`OverlapLosesContext`). In every interleaving the size
  lies between n(m + t + 1) and that bound, which is reached exactly when every saved turn had read what
  the save before it left (`OverlapDoubles`).
- *A turn ends with a completion event.* A hook may replace it by any event (`HookReplacesCompletion`);
  exactly when it is one, says `TurnIsFramed`.

The documentation of `ApprovalHandle.wait` announces a `TimeoutError`; the code answers a denial, which
all other waiters and resolvers then find (`ExpiryAnswers`, `WaitersAgree`).

## Model

| member | source | states |
|---|---|---|
| EffectSafety.AtMostOneSuccess | miniautogen/core/effect_interceptor.py:139-309 | In every interleaving of calls, crashes, failures and retries in which no tool outlives the stale timeout and no run is deleted under a running tool, two successes of one key have a deletion of its record between them |
| EffectSafety.AtMostOneExecutor | miniautogen/core/effect_interceptor.py:170-264 | In such a run every key has at most one caller inside its tool, and the journal holds its PENDING record with that caller's start time |
| EffectSafety.ExclusionExactly | miniautogen/core/effect_interceptor.py:182-246 | For every run without any assumption: all callers own their keys in all worlds if and only if no call reclaims a key whose executor is still running and no deletion removes a running executor's record |
| EffectSafety.ExclusiveStep | miniautogen/core/effect_interceptor.py:134-246 | One step keeps exclusive ownership if and only if it overtakes nobody |
| EffectSafety.SingleExactly | miniautogen/core/effect_interceptor.py:182-246 | For every run without any assumption: no key ever has two callers inside its tool if and only if no admitted call finds a live executor of its key whose record is deleted or stale |
| EffectSafety.SingleStep | miniautogen/core/effect_interceptor.py:134-246 | One step keeps one executor per key if and only if it is not such a call |
| EffectSafety.LateToolSucceedsTwice | miniautogen/core/effect_interceptor.py:199-226 | Without the timing bound: under every policy that admits two registrations there is a run without deletion in which one key's tool succeeds twice |
| EffectSafety.LateToolUndoesCompletion | miniautogen/stores/in_memory_effect_journal.py:34-63 | The same overlap takes a COMPLETED record to FAILED |
| EffectSafety.DeletionAdmitsSecondExecutor | miniautogen/stores/in_memory_effect_journal.py:80-88 | Deleting a run under a running tool lets a second caller into the same tool, however young the first is |
| EffectSafety.ReplayIsJournal | miniautogen/core/effect_interceptor.py:182-309 | In every world of every run, with no timing assumption, a key's journal status is the one its published events (and deletions) replay to |
| EffectSafety.LawfulAlong | miniautogen/core/effect_interceptor.py:182-309 | While nobody is overtaken, a key's events follow its life cycle: registered only when new or failed, executed, failed and reclaimed only when pending, skipped only when completed |
| EffectSafety.CompletedStays | miniautogen/core/effect_interceptor.py:185-197 | In a lawful history a key stays COMPLETED from its success until its deletion |
| EffectSafety.OnlySkipsFollow | miniautogen/core/effect_interceptor.py:185-197 | After a success a key publishes nothing but skips until its record is deleted |
| EffectSafety.CompletedAbsorbing | miniautogen/stores/in_memory_effect_journal.py:34-63 | Over whole timely runs, crashes included, a COMPLETED record stays, with all its fields, until a deletion of its run |
| EffectSafety.CompletedExactly | miniautogen/stores/in_memory_effect_journal.py:34-63 | In any run, from its completion on, a key stays COMPLETED if and only if no tool under it raises and its run is not deleted |
| EffectSafety.CompletedStep | miniautogen/stores/in_memory_effect_journal.py:34-88 | One step takes COMPLETED away if and only if it is such a failure, leaving FAILED, or such a deletion, leaving nothing |
| EffectSafety.CrashedKeyIsReclaimed | miniautogen/core/effect_interceptor.py:170-246 | A call on a PENDING key gets into the tool if and only if the policy lets it and the record is stale; otherwise it changes nothing |
| EffectSafety.FinishedRecord | miniautogen/core/effect_interceptor.py:266-298 | In any run, a tool's end touches its key alone: a deleted record stays deleted, the executor's own record keeps its start and gets completion time and digest or the error type, and a later executor's record takes the status and keeps its start; in a timely run the record is the executor's own |
| EffectSafety.CounterCountsRegistrations | miniautogen/core/effect_interceptor.py:248-252 | In every run a step's counter is the number of registrations under its step key and never passes the limit |
| EffectSafety.CounterIsPerStep | miniautogen/core/effect_interceptor.py:122-132 | In a given run the counter counts this run and step alone if and only if no other pair with the same joined text registered |
| EffectSafety.CountsAloneExactly | miniautogen/core/effect_interceptor.py:122-132 | In all runs the counter of a run and step counts its own registrations, if and only if neither id has a colon |
| EffectSafety.StepKeyShared | miniautogen/core/effect_interceptor.py:122 | Another pair has the same step key if and only if one of the two ids has a colon |
| EffectSafety.PolicyAdmitsExactly | miniautogen/core/effect_interceptor.py:105-132 | In any run the policy lets a call through if and only if its type is allowed and fewer registrations than the limit were published under its step key |
| EffectSafety.CounterMoves | miniautogen/core/effect_interceptor.py:185-252 | Counters grow by one when a tool is entered (failed attempts included) and stay fixed on skips, denials, duplicates, ends and deletions |
| EffectSafety.StepKeyInjective | miniautogen/core/effect_interceptor.py:122 | Run ids without a colon make step keys unambiguous |
| EffectSafety.StepKeyCollision | miniautogen/core/effect_interceptor.py:122 | With a colon in the run id two different steps share one counter |
| EffectSafety.ExhaustedStepIsDenied | miniautogen/core/effect_interceptor.py:170-226 | A call leaves the world untouched if and only if the policy rejects it or a fresh PENDING record exists; so a replay on an exhausted step publishes no skip |
| EffectInterceptor.RepeatIsNotExecuted | miniautogen/core/effect_interceptor.py:170-197 | Calling again after a success never runs the tool: the repeat answers `None` while the step has room and is denied otherwise, so it gives the first answer if and only if there is room and that was `None`, and it leaves the journal as it was |
| EffectInterceptor.RetryAfterFailure | miniautogen/core/effect_interceptor.py:199-228 | A failed tool can be retried at once, a cancelled one exactly when its record has become stale, a successful one never |
| EffectInterceptor.EffectInterceptor.Execute | miniautogen/core/effect_interceptor.py:139-309 | The object performs exactly the protocol's actions for this call, gets to its tool if and only if the call is admitted and its key is new, failed or stale, and answers, each if and only if: the tool's value when it ran and returned, `None` also for an admitted call on a completed key, the tool's exception when it ran and raised, a cancellation when it ran and was cancelled, a duplicate for an admitted call on a fresh pending key, a denial when not admitted |
| EffectInterceptor.AnswersExactly | miniautogen/core/effect_interceptor.py:170-309 | The same of the answer on values, from status, counter, allowed types and clock |
| EffectInterceptor.EntersExactly | miniautogen/core/effect_interceptor.py:170-264 | A call gets to its tool if and only if its type is allowed, the counter is below the limit, and its key is new, failed, or pending for longer than the timeout |
| EffectInterceptor.StoredDigest | miniautogen/core/effect_interceptor.py:287-298 | An undisturbed call whose tool returns leaves one COMPLETED record, with start, end and, unless the result is `None`, the digest of its dump |
| EffectInterceptor.EffectInterceptor.Enter | miniautogen/core/effect_interceptor.py:170-264 | Everything before the `await` of the tool is one protocol step: policy, lookup, reclaim, register, count, publish |
| EffectInterceptor.EffectInterceptor.LookUp | miniautogen/core/effect_interceptor.py:182-228 | A completed key publishes a skip; a stale one is marked and reported; a fresh pending one changes nothing; no other key is touched |
| EffectInterceptor.EffectInterceptor.RegisterPending | miniautogen/core/effect_interceptor.py:230-263 | The PENDING record replaces what the key had, the step's counter grows by one, one registration is published |
| EffectInterceptor.EffectInterceptor.LeaveOk | miniautogen/core/effect_interceptor.py:287-309 | After a tool that returned: the protocol's success step |
| EffectInterceptor.EffectInterceptor.LeaveError | miniautogen/core/effect_interceptor.py:268-285 | After a tool that raised: the protocol's failure step |
| EffectInterceptor.EffectInterceptor.DeleteRun | miniautogen/stores/in_memory_effect_journal.py:80-88 | Deleting a run as the protocol sees it |
| EffectInterceptor.InMemoryEffectJournal.UpdateStatus | miniautogen/stores/in_memory_effect_journal.py:34-63 | An unknown key changes nothing; fields not given keep their values |
| EffectInterceptor.InMemoryEffectJournal.ListByRun | miniautogen/stores/in_memory_effect_journal.py:65-78 | Exactly the run's records, and with a status exactly those of that status |
| EffectInterceptor.InMemoryEffectJournal.DeleteByRun | miniautogen/stores/in_memory_effect_journal.py:80-88 | Removes exactly the run's records and returns how many they were |
| IdempotencyKey.DumpIsCanonical | miniautogen/core/effect_interceptor.py:34-42 | The key-sorted form of two JSON values is the same if and only if they are the same value: objects compared as mappings at every depth, and integers, floats and booleans kept apart |
| IdempotencyKey.ArgsHashIgnoresOrder | miniautogen/core/effect_interceptor.py:34-42 | The same JSON mapping has one hash in every insertion order, at every depth, whatever digest and dump do |
| IdempotencyKey.ArgsHashSeparates | miniautogen/core/effect_interceptor.py:34-42 | When digest and dump do not collide on the two inputs, hashes are equal if and only if they are the same JSON mapping |
| IdempotencyKey.EqualArgsShareHash | miniautogen/core/effect_interceptor.py:34-42 | Arguments that Python finds equal have one hash if and only if the numbers and booleans at corresponding places are of one kind |
| IdempotencyKey.ValueIsEqualOfKind | miniautogen/core/effect_interceptor.py:41 | Two JSON values are the same if and only if Python finds them equal and their numbers and booleans are of the same kinds |
| IdempotencyKey.IntegerAndFloatDiffer | miniautogen/core/effect_interceptor.py:41-42 | An integer and the equal float under one key: equal arguments with different hashes |
| IdempotencyKey.RawSplits | miniautogen/core/effect_interceptor.py:45-59 | Argument hashes of one length: pre-images agree if and only if the hashes and the run-step-tool concatenations agree |
| IdempotencyKey.FixedLengthsSeparate | miniautogen/core/effect_interceptor.py:45-59 | With run and step ids of fixed lengths, pre-images agree if and only if all four parts agree |
| IdempotencyKey.KeysShared | miniautogen/core/effect_interceptor.py:45-59 | Two effects share a key if and only if their argument hashes and their concatenated ids agree |
| IdempotencyKey.DifferentRunsShareKeys | miniautogen/core/effect_interceptor.py:58-59 | Step 2 of run `run1` and step 12 of run `run` share every key |
| EffectIdentity.OneSuccessPerEffect | miniautogen/core/effect_interceptor.py:34-309 | End to end, in a timely run: two successes of calls for the same tool, step and run whose arguments are the same JSON mapping, in any order of keys, have a deletion between them |
| EffectIdentity.KeyIsEffect | miniautogen/core/effect_interceptor.py:34-59 | With ids of fixed lengths and no collision on the two, requests share a key if and only if they are the same effect, arguments compared as JSON mappings |
| EffectIdentity.SameEffectSameKey | miniautogen/core/effect_interceptor.py:34-59 | The same effect, with arguments that are the same JSON mapping, has one key, whatever digest and dump do |
| EffectIdentity.EqualEffectsShareKey | miniautogen/core/effect_interceptor.py:34-59 | Requests that differ only in arguments that Python finds equal share a key if and only if their numbers are of the same kinds |
| EffectIdentity.EqualArgsSucceedTwice | miniautogen/core/effect_interceptor.py:34-309 | Such requests of different kinds: a timely run without deletion in which the tool succeeds for both |
| EffectIdentity.BlockedOnlyByItself | miniautogen/core/effect_interceptor.py:182-226 | In any run, a call that is skipped or refused as a duplicate was preceded by a call for the very same effect |
| EffectIdentity.NewEffectRuns | miniautogen/core/effect_interceptor.py:170-246 | An effect nobody has asked for runs if and only if its type is allowed and its step has room, whatever other effects are under way |
| EffectIdentity.SourcedAlong | miniautogen/core/effect_interceptor.py:230-246 | Every record of every run stands under its own key and comes from a call with its descriptor |
| CycleCheck.HasCycle | miniautogen/cli/config.py:28-56 | For every spec list (multi-edges, self-edges, unknown ids, missing and repeated ids): true if and only if there is a closed sequence of positions, each the last of its name, in which each spec lists the name of the next; false if and only if an order puts every known dependency first; what it dequeues, each once, are exactly the ids that do not depend on a cycle; it terminates |
| CycleCheck.BuildIdMap | miniautogen/cli/config.py:30-34 | The map has exactly the names of the specs, each with all that the last spec of that name lists |
| CycleCheck.BuildTables | miniautogen/cli/config.py:36-43 | Each neighbour list holds a dependant as often as it names the task, and each degree counts the edges from known dependencies |
| CycleCheck.InitialQueue | miniautogen/cli/config.py:45 | The queue holds, once each, exactly the tasks without a known dependency |
| CycleCheck.Release | miniautogen/cli/config.py:51-54 | Taking off a task's edges queues each dependant once, exactly when its last edge goes |
| CycleCheck.Drain | miniautogen/cli/config.py:45-54 | The loop ends with a dependency-first list without repeats that cannot be extended, and has counted it |
| CycleCheck.OpenZero | miniautogen/cli/config.py:40-45 | A degree is zero if and only if every known dependency is done |
| CycleCheck.OpenWithout | miniautogen/cli/config.py:51-54 | Finishing one task lowers a degree by the number of edges from it, multi-edges included |
| CycleCheck.GraphKeys | miniautogen/cli/config.py:30-34 | The set of ids and the keys of the id map are the same |
| TaskGraph.GraphExactly | miniautogen/cli/config.py:30-34 | Each name stands for what the last spec of that name lists, and nothing else is in the map |
| TaskGraph.CyclicExactly | miniautogen/cli/config.py:28-56 | The dependency graph has a cycle if and only if the specs have one |
| TaskGraph.NameExactly | miniautogen/cli/config.py:33 | A spec is called by its id unless that is missing or empty, and then by its position in decimal digits without leading zeros |
| CycleCheck.ValidateTaskList | miniautogen/cli/config.py:193-198 | An enabled task list is accepted if and only if its tasks can be ordered, that is, no closed sequence of specs exists |
| TaskGraph.DequeuedExactly | miniautogen/cli/config.py:45-54 | A dependency-first list that cannot be extended holds exactly the ids that do not reach a cycle |
| TaskGraph.CompleteExactly | miniautogen/cli/config.py:56 | Such a list has all ids if and only if there is no cycle, and is then a topological order |
| TaskGraph.OrderedAvoidsCycles | miniautogen/cli/config.py:48-54 | Nothing that depends on a cycle is ever dequeued |
| TaskGraph.StuckReachesCycle | miniautogen/cli/config.py:48-56 | Everything that is left depends on a cycle (by the pigeonhole principle on a long walk) |
| TaskGraph.OrderExcludesCycle | miniautogen/cli/config.py:28-56 | A topological order excludes every cycle |
| CosineSimilarity.CosineBounded | miniautogen/policies/semantic_cache.py:381-390 | The similarity lies in [-1, 1] for all vectors, also of different lengths and zero |
| CosineSimilarity.CosineOneExactly | miniautogen/policies/semantic_cache.py:381-390 | It is 1 if and only if the vectors are non-zero and one is a positive multiple of the other |
| CosineSimilarity.CosineAtScale | miniautogen/policies/semantic_cache.py:385-390 | For non-zero vectors of one length it is 1 exactly when the first is the projection factor times the second and that factor is positive |
| CosineSimilarity.CauchySchwarz | miniautogen/policies/semantic_cache.py:385-390 | The inequality with its equality case, stated by the gap to the best multiple |
| CosineSimilarity.CosineSelf | miniautogen/policies/semantic_cache.py:381-390 | A non-zero vector is similar to itself with score 1 |
| CosineSimilarity.CosineOfZero | miniautogen/policies/semantic_cache.py:383-389 | Zero vectors and vectors of different lengths score 0 |
| CosineSimilarity.CosineTimesNorms | miniautogen/policies/semantic_cache.py:385-390 | For non-zero vectors the score times both norms is the inner product |
| CosineSimilarity.DotAdds | miniautogen/policies/semantic_cache.py:385 | The inner product is the sum of the products, place by place |
| ExactCacheProtocol.TransparentExactly | miniautogen/policies/semantic_cache.py:118-186 | With room for an entry: every hit in every interleaving of runs is the uncached result if and only if inputs with one hash have one result |
| ExactCacheProtocol.TransparentOverDumps | miniautogen/policies/semantic_cache.py:212-217 | With the digest of namespace and dump, free of collisions: transparent if and only if the step depends on the JSON dump of its input alone |
| ExactCacheProtocol.HitsAreResults | miniautogen/policies/semantic_cache.py:118-156 | When the hash decides the result, all hits and entries of all runs are uncached results |
| ExactCacheProtocol.SharedHashMisleads | miniautogen/policies/semantic_cache.py:212-217 | Two inputs with one hash and different results: a run that answers the second with the first's result |
| ExactCacheProtocol.AnswerIsResult | miniautogen/policies/semantic_cache.py:165-186 | What a cached step answers is what the step function returns for the open input, or the error of a cache without room |
| ExactCacheProtocol.FiledAlong | miniautogen/policies/semantic_cache.py:118-186 | In every world of every run, entries are results of inputs with their hash and pending hashes belong to the open inputs |
| ExactCacheProtocol.PendingIsOpenInput | miniautogen/policies/semantic_cache.py:130-132 | Under every interleaving, the hash a run will store under is that of its own open input |
| ExactCacheProtocol.EntryProvenance | miniautogen/policies/semantic_cache.py:165-186 | Every entry was stored by an earlier executed step of an input with that hash, at the time it bears |
| ExactCacheProtocol.HitsAreFresh | miniautogen/policies/semantic_cache.py:134-156 | A lookup hits if and only if its hash has an entry that is not older than the time to live; the value comes from a step stored within it; a miss passes the input on |
| ExactCacheProtocol.LookupCounted | miniautogen/policies/semantic_cache.py:118-156 | A lookup removes nothing but an expired entry of its own hash, and counts a hit, a miss and that eviction |
| ExactCacheProtocol.StoringExactly | miniautogen/policies/semantic_cache.py:165-226 | Storing files the result under the pending hash at the current time; all other entries stay, except the victim of a full cache, which is counted |
| ExactCacheProtocol.NamespacesSeparate | miniautogen/policies/semantic_cache.py:212-217 | Namespaces without a colon, and no collision on the two: hashes agree if and only if namespace and dump do |
| ExactCacheProtocol.SizeBounded | miniautogen/policies/semantic_cache.py:219-226 | In every run the cache never holds more than its maximum |
| ExactCache.SizeAfter | miniautogen/policies/semantic_cache.py:165-226 | Storing keeps the size within the maximum, because what is evicted is an entry |
| ExactCacheProtocol.StoringFailsExactly | miniautogen/policies/semantic_cache.py:219-226 | Storing raises if and only if the maximum is 0 or less |
| ExactCacheProtocol.TotalCountsLookups | miniautogen/policies/semantic_cache.py:56-67 | Hits plus misses is the number of lookups of the run |
| ExactCacheProtocol.Serve | miniautogen/policies/semantic_cache.py:118-210 | Any requests served by the object are a run of the protocol; where the hash decides the result, all answers are the uncached ones |
| ExactCache.ExactCacheObject.BeforeStep | miniautogen/policies/semantic_cache.py:118-156 | The object's lookup is the protocol's: pending hash set, expired entry dropped, statistics counted |
| ExactCache.ExactCacheObject.OldestKey | miniautogen/policies/semantic_cache.py:224 | The loop finds an entry with the least creation time |
| ExactCache.ExactCacheObject.EvictIfFull | miniautogen/policies/semantic_cache.py:219-226 | A full cache loses one oldest entry; an empty full one cannot evict |
| ExactCache.ExactCacheObject.AfterStep | miniautogen/policies/semantic_cache.py:165-186 | A sentinel is unwrapped and nothing stored; another result is stored under the pending hash; what is evicted is an oldest entry |
| ExactCacheProtocol.FailedStepStoresNothing | miniautogen/policies/semantic_cache.py:188-195 | A failed step stores nothing, neither at once nor when a result for its run comes late |
| ExactCache.ExactCacheObject.InvalidateEntry | miniautogen/policies/semantic_cache.py:197-206 | The object invalidates as the protocol does, and answers whether the input had an entry |
| ExactCacheProtocol.InvalidateExactly | miniautogen/policies/semantic_cache.py:197-206 | Invalidating removes the entry of the input's hash and nothing else |
| ExactCacheProtocol.InvalidatedMisses | miniautogen/policies/semantic_cache.py:197-206 | From an invalidation on every run that asks for that hash misses, until a step with it ends |
| ExactCacheProtocol.ClearedCacheMisses | miniautogen/policies/semantic_cache.py:208-210 | From a clearing on every lookup of every run misses until a step ends |
| SemanticCache.MatchExactly | miniautogen/policies/semantic_cache.py:303-324 | On a list of entries: a hit exists if and only if some entry scores at least the threshold; it is the earliest entry of the highest score |
| SemanticCache.BeforeExactly | miniautogen/policies/semantic_cache.py:279-324 | `before_step` hits if and only if it has an embedding and some entry with `now <= created_at + ttl` scores at least the threshold; the result is that of the earliest such entry of the highest score; hits and misses are counted accordingly |
| SemanticCache.BeforeLeaves | miniautogen/policies/semantic_cache.py:287-301 | Without an embedding entries and pending texts stay; otherwise exactly the entries with `now <= created_at + ttl` stay, and the text is pending |
| SemanticCache.UnexpiredInOrder | miniautogen/policies/semantic_cache.py:296-301 | Expiry keeps all entries with `now <= created_at + ttl` and no others, in their order |
| SemanticCache.SearchFindsBest | miniautogen/policies/semantic_cache.py:303-311 | The argmax loop ends with the earliest entry of the highest score, or with none if no score is above -1 |
| SemanticCache.UnexpiredExactly | miniautogen/policies/semantic_cache.py:296-301 | The entries kept are exactly those with `now <= created_at + ttl` |
| SemanticCache.SameEmbeddingHits | miniautogen/policies/semantic_cache.py:303-324 | Asking with a stored embedding hits under every admissible threshold, with an entry parallel to it |
| SemanticCache.SortOfChronological | miniautogen/policies/semantic_cache.py:357-361 | Sorting by age changes nothing on entries in the order of their times, so the first is evicted |
| SemanticCache.SortByAgeSorts | miniautogen/policies/semantic_cache.py:359 | Sorting by age orders the entries by their times and keeps each of them |
| SemanticCache.SemanticCacheObject.RemoveExpired | miniautogen/policies/semantic_cache.py:296-301 | The loop leaves exactly the entries with `now <= created_at + ttl`, in their order |
| SemanticCache.SemanticCacheObject.FindBest | miniautogen/policies/semantic_cache.py:303-311 | The loop computes the search whose result is characterised above |
| SemanticCache.SemanticCacheObject.BeforeStep | miniautogen/policies/semantic_cache.py:279-324 | The object's lookup is the one that is characterised above, a failed embedding included |
| SemanticCache.SemanticCacheObject.AfterStep | miniautogen/policies/semantic_cache.py:329-347 | The object stores as the protocol does, and fails when it cannot evict |
| SemanticCacheProtocol.FailedStepForgets | miniautogen/policies/semantic_cache.py:349-351 | A failed step stores nothing and forgets its text, so that the run's next lookup cannot misfile |
| SemanticCacheProtocol.ClearedCacheMisses | miniautogen/policies/semantic_cache.py:353-355 | From a clearing on every lookup of every run misses until a step ends |
| SemanticCache.NewSemanticCache | miniautogen/policies/semantic_cache.py:250-269 | A cache is made if and only if the threshold is in [0, 1] |
| SemanticCacheProtocol.FiledExactly | miniautogen/policies/semantic_cache.py:279-347 | In every interleaving: entries are results of their texts, pending texts are those of the open steps and hits are similar, in all worlds, if and only if no embedding fails while another text of its run is pending |
| SemanticCacheProtocol.FiledStep | miniautogen/policies/semantic_cache.py:279-347 | One step keeps that stronger invariant if and only if it is not such a failure, whether or not anything is stored later |
| SemanticCacheProtocol.StoredExactly | miniautogen/policies/semantic_cache.py:329-347 | In every interleaving: all stored results are those of their texts in all worlds if and only if no executed step ends, in a cache with room, while another text with another result is pending for its run |
| SemanticCacheProtocol.StoredStep | miniautogen/policies/semantic_cache.py:329-347 | One step keeps all stored results those of their texts if and only if it is not such an end |
| SemanticCacheProtocol.ForeignNeedsFailure | miniautogen/policies/semantic_cache.py:286-294 | Such an end has been preceded by an embedding that failed over a pending text |
| SemanticCacheProtocol.FailedEmbeddingMisfiles | miniautogen/policies/semantic_cache.py:287-294 | For any two texts, a run that stores the result of the second under the first |
| SemanticCacheProtocol.HitsAreSimilar | miniautogen/policies/semantic_cache.py:303-324 | As long as no foreign result is stored, every hit is the result of a text that scores at least the threshold |
| SemanticCacheProtocol.HitsAreFresh | miniautogen/policies/semantic_cache.py:279-347 | In every run a lookup hits if and only if its text is embedded and some entry with `now <= created_at + ttl` scores at least the threshold; the result was stored by an earlier step no longer ago than the time to live |
| SemanticCacheProtocol.EntryProvenance | miniautogen/policies/semantic_cache.py:329-347 | Every entry was stored by an earlier executed step, under the text then pending, with its result and at the time it bears |
| SemanticCacheProtocol.AfterShape | miniautogen/policies/semantic_cache.py:329-361 | Storing appends the result under the pending text; a full cache first loses its first entry, which is counted |
| SemanticCacheProtocol.TransparentExactly | miniautogen/policies/semantic_cache.py:279-347 | At every threshold that is not negative: every hit of every interleaving in which nothing foreign was stored is the uncached result if texts that score at least the threshold share their result, and, in a cache with room, only if |
| SemanticCacheProtocol.SimilarTextMisleads | miniautogen/policies/semantic_cache.py:279-347 | Two texts that score at least the threshold and have different results: a run that answers the one with the other's result |
| SemanticCacheProtocol.StrictCacheIsTransparent | miniautogen/policies/semantic_cache.py:303-324 | At threshold 1 the cache is transparent if texts with parallel embeddings share their result, and, with room, only if |
| SemanticCacheProtocol.EvictsOldest | miniautogen/policies/semantic_cache.py:357-361 | In every run the size stays within the maximum, and a full cache evicts an entry that is oldest |
| SemanticCacheProtocol.InOrderAlong | miniautogen/policies/semantic_cache.py:329-361 | In every run entries are in the order of their times and none is later than the clock |
| SemanticCacheProtocol.Serve | miniautogen/policies/semantic_cache.py:279-355 | Any requests served by the object are a run of the protocol; where similar texts share their result, all answers are the uncached ones as long as nothing foreign is stored |
| WorkspaceIntegrity.SoundAlways | miniautogen/cli/services/pipeline_ops.py:38-314 | Over every sequence of engine, agent and flow operations: all references resolve, composite chains have no cycle, API keys are references, and the engine of `defaults.engine_profile` exists |
| WorkspaceIntegrity.ReferencesKept | miniautogen/cli/services/agent_ops.py:73-225 | Each operation keeps: agents' engines, flows' participants and leaders, and chained flows exist |
| WorkspaceIntegrity.AcyclicKept | miniautogen/cli/services/pipeline_ops.py:79-102 | Each operation keeps chains acyclic, also when a deleted flow's name is used again |
| WorkspaceIntegrity.KeysKept | miniautogen/cli/services/engine_ops.py:62-257 | Each operation keeps API keys as environment references and the guarded default engine in place, and leaves the defaults alone |
| WorkspaceIntegrity.SoundKept | miniautogen/cli/services/engine_ops.py:62-257 | The whole invariant is kept by each operation, successful or rejected |
| WorkspaceIntegrity.EmptyIsSound | miniautogen/cli/services/engine_ops.py:235-252 | A workspace without resources and without a guarded default is sound |
| WorkspaceIntegrity.CheckAgentsExactly | miniautogen/cli/services/pipeline_ops.py:62-77 | The participants' check passes if and only if every name is valid and names an agent |
| WorkspaceIntegrity.CheckChainExactly | miniautogen/cli/services/pipeline_ops.py:79-84 | The chain check passes if and only if every chained flow exists |
| WorkspaceIntegrity.CreateFlowExactly | miniautogen/cli/services/pipeline_ops.py:53-84 | Creation succeeds if and only if the name is valid and free and all participants, a given leader and all chained flows exist |
| WorkspaceIntegrity.CreatedFlow | miniautogen/cli/services/pipeline_ops.py:86-102 | A created flow has the given mode, participants, chain and round limit, the leader and target when not empty, and otherwise no leader and the default target |
| WorkspaceIntegrity.CreatedFlowProtects | miniautogen/cli/services/pipeline_ops.py:86-102 | From then on no participant, no given leader and no chained flow can be deleted |
| WorkspaceIntegrity.RefusedFlow | miniautogen/cli/services/pipeline_ops.py:53-84 | A refused creation complains, in this order, of the name, the participants, the leader, the chain |
| WorkspaceIntegrity.FirstBadAgent | miniautogen/cli/services/pipeline_ops.py:62-70 | The complaint about participants is the first one: improper name, or no such agent |
| WorkspaceIntegrity.FirstMissingFlow | miniautogen/cli/services/pipeline_ops.py:79-84 | The complaint about the chain names the first flow that does not exist |
| WorkspaceIntegrity.DeleteFlowExactly | miniautogen/cli/services/pipeline_ops.py:264-313 | Deletion succeeds if and only if the flow exists and no agent and no other flow refers to it |
| WorkspaceIntegrity.UpdateFlowExactly | miniautogen/cli/services/pipeline_ops.py:183-234 | An update succeeds if and only if the flow exists and every participant and leader it names is an existing agent |
| WorkspaceIntegrity.UpdatedFlowFields | miniautogen/cli/services/pipeline_ops.py:188-243 | An update overrides the fields it gives and keeps the others; a new participant comes last, a whole new list goes before single changes; a dry run changes nothing |
| WorkspaceIntegrity.DeleteAgentExactly | miniautogen/cli/services/agent_ops.py:198-221 | Deletion succeeds if and only if the agent exists and no flow has it as a participant or leader |
| WorkspaceIntegrity.DeleteEngineExactly | miniautogen/cli/services/engine_ops.py:212-252 | Deletion succeeds if and only if the engine exists, no agent uses it and `defaults.engine_profile` does not name it |
| WorkspaceIntegrity.DeletedIsGone | miniautogen/cli/services/pipeline_ops.py:311-313 | A successful deletion takes the named entry away |
| WorkspaceIntegrity.RefusedDeletion | miniautogen/cli/services/pipeline_ops.py:264-309 | A refused deletion says why: improper name, missing entry, or exactly those that refer to it |
| WorkspaceIntegrity.ParticipantsAfterUpdate | miniautogen/cli/services/pipeline_ops.py:195-218 | Counted with repetitions, the participants gain the added one only when it is missing and lose one occurrence of the removed one; the chain stays |
| WorkspaceIntegrity.RemoveFirstExactly | miniautogen/cli/services/pipeline_ops.py:214-218 | Removing takes out the first occurrence and keeps the rest in order |
| WorkspaceIntegrity.RemovingUndoesAdding | miniautogen/cli/services/pipeline_ops.py:195-218 | Adding a new participant succeeds, and removing it again restores the workspace, order included |
| WorkspaceIntegrity.OnlyTheNamedEntry | miniautogen/cli/services/pipeline_ops.py:38-314 | Every operation, successful or not, leaves the two other sections and the defaults wholly as they were, entries of the same name included, and in its own section all entries but the one it names |
| WorkspaceIntegrity.DeleteUndoesCreate | miniautogen/cli/services/pipeline_ops.py:38-314 | Deleting a flow just created always succeeds and restores the workspace |
| WorkspaceIntegrity.DeleteUndoesCreateAgent | miniautogen/cli/services/agent_ops.py:49-225 | Deleting an agent just created always succeeds and restores the workspace |
| WorkspaceIntegrity.DefaultEngineRemoved | miniautogen/cli/config.py:66-92 | The engine of `defaults.engine` can be removed if and only if it is not also the guarded one and no agent uses it; afterwards the default names no engine |
| WorkspaceIntegrity.TemplateDefaultIsUnguarded | miniautogen/cli/templates/project/miniautogen.yaml.j2:6 | With the template's defaults the default engine is removed without complaint |
| WorkspaceChains.ChainUpdateExactly | miniautogen/cli/services/pipeline_ops.py:236-243 | Writing a new chain keeps references and acyclicity if and only if the chained flows exist and none of them reaches the flow |
| WorkspaceChains.CycleThrough | miniautogen/cli/services/pipeline_ops.py:236-243 | A cycle through the changed flow leaves it by a new edge whose end reaches it over old ones |
| WorkspaceChains.UnsafeClosesCycle | miniautogen/cli/services/pipeline_ops.py:236-243 | Chaining to a flow that reaches this one closes a cycle |
| WorkspaceChains.SelfChainCloses | miniautogen/cli/services/pipeline_ops.py:236-243 | Giving a flow its own name as its chain closes a cycle |
| WorkspaceIntegrity.CreateEngineExactly | miniautogen/cli/services/engine_ops.py:76-107 | Creation succeeds if and only if the name is valid and free and the schema accepts the engine; an API key is stored as the reference to the variable that was named |
| WorkspaceIntegrity.CreatedEngine | miniautogen/cli/services/engine_ops.py:83-107 | A created engine has what was given; an empty endpoint is none |
| WorkspaceIntegrity.UpdatedEngineFields | miniautogen/cli/services/engine_ops.py:173-198 | An accepted update overrides what it gives and keeps the rest, and an API key it gives is a `${...}` reference; a dry run changes nothing |
| WorkspaceIntegrity.UpdatedVariableIsNoKey | miniautogen/cli/services/engine_ops.py:173-198 | A variable named in an update is stored beside the API key, which changes if and only if the update itself gives another one |
| Registry.WorkspaceRegistry.ChangeEngine | miniautogen/cli/services/engine_ops.py:149-200 | The registry changes as the update on values does, which the method builds key by key, or reports its error and changes nothing; a dry run writes nothing; a sound workspace stays sound |
| Registry.WorkspaceRegistry.RemoveEngine | miniautogen/cli/services/engine_ops.py:203-257 | Likewise for the deletion, after looking for agents that use the engine and for the guarded default |
| WorkspaceIntegrity.CreateAgentExactly | miniautogen/cli/services/agent_ops.py:63-98 | Creation succeeds if and only if the name is valid and free, the engine exists and the schema accepts the agent; from then on the engine cannot be deleted |
| WorkspaceIntegrity.CreatedAgent | miniautogen/cli/services/agent_ops.py:83-98 | A created agent has what was given |
| WorkspaceIntegrity.UpdatedAgentFields | miniautogen/cli/services/agent_ops.py:163-185 | An accepted update names an existing engine, overrides what it gives and keeps the rest; a dry run changes nothing |
| WorkspaceIntegrity.RefusedCreation | miniautogen/cli/services/agent_ops.py:63-95 | A refused creation says why: improper name, name taken, missing engine, schema |
| Registry.WorkspaceRegistry.ChangeAgent | miniautogen/cli/services/agent_ops.py:142-186 | Likewise for an agent's update |
| Registry.WorkspaceRegistry.RemoveAgent | miniautogen/cli/services/agent_ops.py:189-225 | Likewise for an agent's deletion, after collecting the flows that refer to it |
| Registry.WorkspaceRegistry.CheckParticipants | miniautogen/cli/services/pipeline_ops.py:62-77 | The loop reports the first bad participant |
| Registry.WorkspaceRegistry.CheckChained | miniautogen/cli/services/pipeline_ops.py:79-84 | The loop reports the first missing chained flow |
| Registry.WorkspaceRegistry.MakeFlow | miniautogen/cli/services/pipeline_ops.py:38-118 | The registry changes as the creation on values does, whose result and complaints are characterised above, with its loops over participants and chained flows, or changes nothing; a sound workspace stays sound |
| Registry.WorkspaceRegistry.ChangeFlow | miniautogen/cli/services/pipeline_ops.py:169-245 | Likewise for the update with the command line's keys; a dry run writes nothing |
| Registry.WorkspaceRegistry.RemoveFlow | miniautogen/cli/services/pipeline_ops.py:248-314 | Likewise for the deletion, after collecting agents and flows that refer to it |
| Registry.WorkspaceRegistry.Serve | miniautogen/cli/services/pipeline_ops.py:38-314 | Any requests served one after another by the object lead to the workspace that the operations on values lead to, refuse exactly those that fail there, and keep a sound workspace sound |
| Registry.TryFlow | miniautogen/cli/services/pipeline_ops.py:38-314 | Creating a flow on the object and removing it if it was accepted leaves the workspace as it was |
| Workspace.NamesExactly | miniautogen/cli/services/yaml_ops.py:16-26 | An accepted name consists of the documented characters if and only if it has no line break; another accepted name has one, at its end |
| Workspace.NamesSpelled | miniautogen/cli/services/yaml_ops.py:16-26 | The accepted names, character by character |
| Workspace.LineBreakAccepted | miniautogen/cli/services/yaml_ops.py:16-26 | A name with a line break at its end is accepted |
| EventSourcedState.ReplaySplit | miniautogen/core/events/event_sourced_state.py:106-123 | Replaying two logs in a row is replaying their concatenation, failures included |
| EventSourcedState.ForkResumes | miniautogen/core/events/event_sourced_state.py:126-143 | The full fold is the replay of the fork from the fold of the events before it, for every index; which events the fork has, for positive and negative indices, as Python slices count |
| EventSourcedState.UnknownKindsIgnored | miniautogen/core/events/event_sourced_state.py:92-123 | Deleting all events without a reducer changes no fold |
| EventSourcedState.LastTouchDecides | miniautogen/core/events/event_sourced_state.py:24-89 | Each key but the step index holds what the last event that touches it wrote, or is absent if that event removed it |
| EventSourcedState.NeverTouchedAbsent | miniautogen/core/events/event_sourced_state.py:24-89 | A key that no event touches is absent |
| EventSourcedState.StepIndexIs | miniautogen/core/events/event_sourced_state.py:62-89 | The step index is the last restored one (or 0), integer or float, plus the finished and skipped components since |
| EventSourcedState.FoldFailsExactly | miniautogen/core/events/event_sourced_state.py:62-89 | Folding fails if and only if some component finishes or is skipped while the last restored index is not a number |
| EventSourcedState.RestoredTextFails | miniautogen/core/events/event_sourced_state.py:62-89 | A log that fails after restoring a text; the same log with 2.0 folds to 3.0 |
| EventSourcedState.AdvanceAfterRestore | miniautogen/core/events/event_sourced_state.py:62-89 | Right after a restore, a finished component moves the index on from a number and fails on anything else |
| EventSourcedState.PlusExactly | miniautogen/core/events/event_sourced_state.py:63-64 | Adding keeps integers and floats what they are, counts truth values as integers, and adds up |
| EventSourcedState.TruthyExactly | miniautogen/core/events/event_sourced_state.py:26-28 | Nothing, `False`, zero and the empty text are false |
| EventSourcedState.AfterLastRestoreMeans | miniautogen/core/events/event_sourced_state.py:85-89 | The restore that counts is the last one that carries an index |
| EventSourcedState.RepeatAfterRestore | miniautogen/core/events/event_sourced_state.py:62-123 | Restoring the index held at a prefix and repeating the restore-free suffix gives the uninterrupted step index |
| EventSourcedState.StepMovesAlike | miniautogen/core/events/event_sourced_state.py:62-82 | From states with one step index, a restore-free log gives one step index or fails on both |
| EventSourcedState.Fold | miniautogen/core/events/event_sourced_state.py:106-123 | The loop freezes the replayed state in canonical form, and fails exactly when the replay does |
| EventSourcedState.Freeze | miniautogen/core/contracts/run_context.py:21-26 | Freezing a dictionary gives its unique key-sorted list, whatever its order |
| FrozenState.MakeValid | miniautogen/core/contracts/run_context.py:21-26 | Building succeeds if and only if no keyword is the reserved `_data`; the pairs are sorted without duplicates and are the same mapping |
| FrozenState.EqualExactly | miniautogen/core/contracts/run_context.py:34-37 | Two states are equal if and only if they were built from the same mapping, in whatever order |
| FrozenState.GetAgrees | miniautogen/core/contracts/run_context.py:45-60 | The scan of `get` agrees with the dictionary of `to_dict` for every key |
| FrozenState.EvolveMap | miniautogen/core/contracts/run_context.py:52-56 | Evolving overrides the mapping and keeps the state canonical; it fails exactly on the reserved keyword |
| FrozenState.EvolveTwice | miniautogen/core/contracts/run_context.py:52-56 | Evolving by a and then by b is evolving once by a overridden by b |
| FrozenState.WithStateLookup | miniautogen/core/contracts/run_context.py:95-98 | Only the state changes, and its lookups are the updates over the old ones |
| FrozenState.MetadataLookup | miniautogen/core/contracts/run_context.py:115-128 | Lookups after `evolve_metadata` are those of the overridden mapping |
| FrozenState.MetadataFrame | miniautogen/core/contracts/run_context.py:115-128 | A key that is not updated keeps its lookup if and only if its first pair was also its last; so always without repeated keys |
| FrozenState.RepeatedMetadataChanges | miniautogen/core/contracts/run_context.py:115-128 | With a repeated key even an empty update changes a lookup |
| FrozenState.PreviousResultInjected | miniautogen/core/contracts/run_context.py:100-113 | The result becomes the next input and is found in the metadata; another metadata key keeps its lookup if and only if its first and last values agree; state and run stay |
| KeyOrder.SortSorts | miniautogen/core/contracts/run_context.py:24-26 | Sorting pairs by key gives a sorted list of the same mapping |
| KeyOrder.SortedUnique | miniautogen/core/contracts/run_context.py:24-26 | A mapping has only one sorted list of pairs |
| KeyOrder.SortCanonical | miniautogen/core/contracts/run_context.py:24-37 | Sorted lists agree if and only if the mappings do |
| KeyOrder.FirstMatchIsLookup | miniautogen/core/contracts/run_context.py:45-50 | On pairs without repeated keys the linear scan is the mapping's lookup |
| KeyOrder.FirstMatchExactly | miniautogen/core/contracts/run_context.py:45-50 | The scan gives the first pair of the key, and nothing exactly when there is none |
| KeyOrder.LessExactly | miniautogen/core/contracts/run_context.py:26 | The order of keys: at the first difference the smaller code point decides, and a proper prefix is smaller |
| AgentMemory.WindowIsLongest | miniautogen/core/contracts/memory_provider.py:70-89 | A suffix fits the budget if and only if it is not longer than the window |
| AgentMemory.WindowUnique | miniautogen/core/contracts/memory_provider.py:70-89 | The window is determined by messages and budget and has at most as many messages as the budget has tokens |
| AgentMemory.WindowMonotone | miniautogen/core/contracts/memory_provider.py:70-89 | A larger budget's window ends in the smaller one's |
| AgentMemory.EstimateExactly | miniautogen/core/contracts/memory_provider.py:82 | A message is estimated at a token for every full four characters and one more |
| AgentMemory.CostAdds | miniautogen/core/contracts/memory_provider.py:79-88 | The cost of messages is the sum of their estimates |
| AgentMemory.InMemoryMemoryProvider.GetContext | miniautogen/core/contracts/memory_provider.py:70-89 | With a positive budget the longest fitting suffix of the run's messages, otherwise all of them |
| AgentMemory.InMemoryMemoryProvider.SaveTurn | miniautogen/core/contracts/memory_provider.py:91-98 | The run's list is extended, other runs' lists stay |
| AgentRuntime.MemoryDoubles | miniautogen/core/runtime/agent_runtime.py:596-682 | After n turns one after another, of m messages with t tool listings, exactly (2^n - 1)(m + t + 1) messages are stored |
| AgentRuntime.MemoryGrowth | miniautogen/core/runtime/agent_runtime.py:596-682 | With turns one after another of different sizes, each turn's messages count once for every doubling that follows |
| AgentTurns.OverlapDoubles | miniautogen/core/runtime/agent_runtime.py:596-682 | In every interleaving of turns, k of them saved: between k(m + t + 1) and (2^k - 1)(m + t + 1) messages are stored, the latter if and only if every saved turn had read what the save before it left |
| AgentTurns.OverlapBounds | miniautogen/core/runtime/agent_runtime.py:596-682 | The same for turns of different sizes: at least what the saved turns add of their own, at most that doubled by every later save, with the same condition for the most |
| AgentTurns.ReadEarlierAlong | miniautogen/core/runtime/agent_runtime.py:596-602 | In every interleaving, what an open turn has read is a beginning of what is stored |
| AgentTurns.OverlapLosesContext | miniautogen/core/runtime/agent_runtime.py:596-682 | Two turns that both read an empty memory before either saves store only what is their own |
| AgentRuntime.SavedTurnDoubles | miniautogen/core/runtime/agent_runtime.py:596-682 | One turn stores the memory it was prefixed with once more: the new store is the old one, the tool listing, the old one again, the turn's input and the answer, in that order, and so has 2n + m + t + 1 messages |
| AgentRuntime.TurnIsFramed | miniautogen/core/runtime/agent_runtime.py:579-709 | A turn publishes its start first and only tool events in between; a turn that raises ends with an error completion, and the last event is a completion if and only if the turn raises or its hooks made one of the completion they were given |
| AgentRuntime.HookReplacesCompletion | miniautogen/core/runtime/agent_runtime.py:684-700 | A hook that hands on another event makes a successful turn end with that event |
| AgentRuntime.LateHookFailureIsRemembered | miniautogen/core/runtime/agent_runtime.py:677-709 | An agent whose after-hook raises: the turn fails and the exchange is in the memory |
| AgentRuntime.FailedTurnRemembered | miniautogen/core/runtime/agent_runtime.py:592-709 | A turn that raises changes the stored memory if and only if hooks before it, driver and tools went through; it was then an after-hook that raised, and what is stored is the whole exchange |
| AgentRuntime.AgentRuntime.ExecuteTurn | miniautogen/core/runtime/agent_runtime.py:556-709 | A closed or uninitialised agent refuses and changes nothing; otherwise answer, events and the store are those of the turn on the memory it found, which the three lemmas below give case by case |
| AgentRuntime.TurnFailsEarly | miniautogen/core/runtime/agent_runtime.py:592-640 | A hook or the driver that raises ends the turn with its exception, a start and an error completion; nothing is stored |
| AgentRuntime.ToolEndsTurn | miniautogen/core/runtime/agent_runtime.py:642-709 | The first request that is named, listed and raises ends the turn with its exception; the store is unchanged, and between start and error completion are exactly the events of the calls before it |
| AgentRuntime.TurnGoesThrough | miniautogen/core/runtime/agent_runtime.py:642-702 | When no tool raises, what was sent and the answer are stored, all calls are published in order with their flags, and the hooks after the turn decide its answer and its last event |
| AgentRuntime.AgentRuntime.Conclude | miniautogen/core/runtime/agent_runtime.py:677-709 | The end of the turn: saving, the hooks after it, the closing event |
| AgentRuntime.Process | miniautogen/core/runtime/agent_runtime.py:208-234 | A whole request: refused exactly by a closed or uninitialised agent; otherwise the text is that of the turn on the system prompt and the question, and with nothing stored, no hooks and no tools it is what the driver answers to just these |
| AgentRuntime.AgentRuntime.Assemble | miniautogen/core/runtime/agent_runtime.py:592-618 | The driver gets the tool list, the stored memory and the messages as the hooks left them, in this order, or the turn fails with the first hook that raises |
| AgentRuntime.ToolMessagesExactly | miniautogen/core/runtime/agent_runtime.py:604-618 | Tools are listed in one message exactly when there are any, under a fixed heading |
| AgentRuntime.JoinExactly | miniautogen/core/runtime/agent_runtime.py:607-609 | The listing of two groups of tools is both listings with a line break between |
| AgentRuntime.JoinOne | miniautogen/core/runtime/agent_runtime.py:608 | The line of one tool |
| AgentRuntime.AgentRuntime.RunTools | miniautogen/core/runtime/agent_runtime.py:642-669 | Tools run in the order requested; an exception comes out if and only if some named and listed request raises, and it is that of the first |
| AgentRuntime.ToolsExactly | miniautogen/core/runtime/agent_runtime.py:642-669 | The events are those of all named and listed requests when none raises, and otherwise of those before the first that does, in order, each with its flag |
| AgentRuntime.CallsAtExactly | miniautogen/core/runtime/agent_runtime.py:642-650 | The calls are exactly the named and listed requests, from the left |
| AgentRuntime.AgentRuntime.RunBeforeHooks | miniautogen/core/runtime/agent_runtime.py:592-594 | Hooks transform the messages one after another, stopping at the first failure |
| AgentRuntime.WaterfallExactly | miniautogen/core/runtime/agent_runtime.py:592-594 | Each hook gets what the one before it handed on; the end is the last of these, or the exception of the hook at which they stop |
| AgentRuntime.AgentRuntime.RunAfterHooks | miniautogen/core/runtime/agent_runtime.py:684-697 | Likewise for the completion event |
| AgentRuntime.ClosedForGood | miniautogen/core/runtime/agent_runtime.py:175-206 | Closing is final: after it and a new initialisation a turn is refused, nothing is remembered and no turn event is published |
| ApprovalHandle.WriteOnce | miniautogen/policies/approval_channel.py:105-165 | Under every interleaving of waiters, timeouts and resolvers, the handle never changes once it has a response, and one response was written |
| ApprovalHandle.WaitersAgree | miniautogen/policies/approval_channel.py:130-165 | All waiters that return, whenever they do, get the same response |
| ApprovalHandle.ResolveAcceptedExactly | miniautogen/policies/approval_channel.py:105-130 | A resolve is accepted if and only if nothing was written and the decision is known, and its decision and reason are then the response; after any response or timeout it is rejected as already resolved, and otherwise as invalid |
| ApprovalHandle.ExpiryAnswers | miniautogen/policies/approval_channel.py:132-165 | A waiter whose time is over gets the response that was written, or writes and gets a denial |
| ApprovalHandle.NobodyStranded | miniautogen/policies/approval_channel.py:132-165 | Once a response exists, every waiter can wake and gets it |
| ApprovalHandle.ConsistentAlong | miniautogen/policies/approval_channel.py:77-165 | In every world the event is set exactly when a response exists, and everyone who returned has it |
| ApprovalHandle.ApprovalFuture.Resolve | miniautogen/policies/approval_channel.py:105-130 | The object accepts and rejects as the protocol does, the already-resolved error before the invalid-decision one |
| ApprovalHandle.FirstDecisionWins | miniautogen/policies/approval_channel.py:105-140 | Whoever decides first decides: a second decision on the same handle is refused, and waiting gives the first one |
| ApprovalHandle.ApprovalFuture.WaitAfterScope | miniautogen/policies/approval_channel.py:142-160 | After the timed scope: the response, or a denial that is written |
| ApprovalChannels.InMemoryApprovalChannel.Submit | miniautogen/policies/approval_channel.py:286-294 | A fresh handle is stored under the request's id, approved at once only with auto-approval |
| ApprovalChannels.InMemoryApprovalChannel.ListPending | miniautogen/policies/approval_channel.py:296-297 | Exactly the stored handles without a response |
| ApprovalChannels.TimeoutExactly | miniautogen/policies/approval_channel.py:287 | A request's own timeout goes before the channel's, unless it is missing or zero |
| ApprovalChannels.CallbackApprovalChannel.Submit | miniautogen/policies/approval_channel.py:217-259 | When the channel is left alone while the callback runs: the handle has a response on return, what came first of an outside resolution and the callback's decision, and a denial when the callback raises |
| ApprovalChannels.CallbackApprovalChannel.Begin | miniautogen/policies/approval_channel.py:217-227 | Up to the await of the callback: the fresh handle is pending under the request's id |
| ApprovalChannels.CallbackApprovalChannel.Finish | miniautogen/policies/approval_channel.py:239-259 | After the callback, whatever happened to channel and handle meanwhile: a response that has come stands, otherwise the handle gets the callback's decision, or a denial when the callback raised |
| ApprovalChannels.OverlappingSubmits | miniautogen/policies/approval_channel.py:217-259 | Two requests whose callbacks overlap: both are listed meanwhile, the first to finish is listed no more, each gets its own callback's decision |
| ApprovalChannels.CallbackApprovalChannel.ListPending | miniautogen/policies/approval_channel.py:232-237 | Resolved handles are dropped, exactly the unresolved ones are listed |
| ApprovalChannels.RequestApproval | miniautogen/policies/approval_channel.py:408-429 | The gate over a callback channel answers at once, approved if and only if the callback approved (when nobody else resolved first) |
| ApprovalChannels.RequestInMemory | miniautogen/policies/approval_channel.py:286-294 | The gate over the in-memory channel: approved at once with auto-approval, else the first proper decision, else a denial when the time is over; it waits on if and only if there is none of these |

## Left out

- SQLAlchemy stores, YAML text, file writes and backups, environment variables: input and output; the workspace is a value of maps and the journal is the in-memory one.
- SHA-256, JSON text and embeddings are parameters; JSON object keys are strings, and arguments have no tuples (which the dump writes as lists), infinities, not-a-number or negative zero.
- SemanticCacheProtocol: the step is a function of the text by which the cache knows its input; two inputs with one text (`str(input)`) and different results are not modelled.
- Floating-point rounding: similarity, times and budgets use real numbers, and the square root is any function that squares back.
- The metadata of an effect descriptor, the `age_seconds` of a reclaim event, tool results that cannot be dumped, and event sinks that raise or suspend.
- EffectInterceptor.EffectInterceptor.Execute: one undisturbed call; interleavings of calls are the subject of EffectSafety.
- EffectInterceptor.InMemoryEffectJournal.ListByRun: does not model the order of the list.
- Iteration order of Python sets, and ties between equally old entries: loops over them take any order, and the results hold for each.
- Registry: one class holds the three sections that the source reads from files at the start of each operation; two command-line processes that write at the same time are not modelled.
- Schema checks by pydantic are parameters; flow entries written by hand as plain strings, the module file that `create_pipeline` writes, and `None`-valued keywords of `update_agent`.
- EventSourcedState: floats are real numbers, without infinities and not-a-number; restored indices of other types that define their own addition (complex numbers, arrays).
- ExactCacheProtocol.TransparentExactly: a cached result goes straight to `after_step`, as it does between the two cache methods; the interceptor pipeline (miniautogen/core/runtime/interceptor_pipeline.py:46-49) hands what `before_step` returns onward, so the step it feeds must pass a cached result through. The same holds of SemanticCacheProtocol.
- Methods that only set or read a field (the journal's `Register` and `Get`, both `on_error` and `clear`, `initialize`, `close`, `_build_messages`, the parts of `wait`) are verified but have no row of their own; the lemmas and the methods that use them say what they mean.
- Results compare by Dafny equality, not by Python's equality of 1, 1.0 and True; copies of nested values are values.
- ApprovalChannels: WebhookApprovalChannel and its URL checks, and the seconds in the text of a timeout reason.
- AgentRuntime.AgentRuntime.ExecuteTurn: does not model that, without a memory provider, the tool listing is inserted into the caller's own list.
- FrozenState: the keyword `self`, which Python itself refuses, and the hash of a state.
- AgentRuntime: the hash of prompt files, the building of prompts, JSON in answers, saved memory of other providers, `distill`, closing of the driver.
- `should_execute` of both caches (always true), `hit_rate`.
- SessionManager, CircuitBreakerRegistry, PolicyChain, timeouts of scopes and task transition tables: settled by reading a branch or a table.
- Command line, terminal and web interfaces, servers, drivers, gateways.
