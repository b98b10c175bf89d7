# Verification of lean-host-mcp

`lean-host-mcp` serves Lean queries from long-lived worker processes. This
project models the parts of it where a wrong step would give a wrong answer
rather than an error, and proves what they are for.

**The project actor.** One actor per project serves a queue of jobs on a worker
child that pools imported environments. The actor cannot see that pool, so it
keeps `imports_seen`, a recency list meant to shadow it, and replaces the child
when an artifact it may have imported has been rebuilt. `ActorModel.dfy` states
each step as a function, `ProjectActor.dfy` runs the steps on one object and is
tied to those functions, `FreshAnswers.dfy` proves that over every run in a sound
environment no answer comes from an outdated import, `StaleAnswers.dfy` gives,
for each premise a run can break, the exact condition under which a later call is
answered from artifacts that are gone, with a run that meets it, and
`ActorProgress.dfy` proves the crash breaker, the generations, the retries and
the idle cycle. `Mailbox.dfy` is the queue in front of the actor, with any number
of concurrent callers.

A sound environment (`FreshAnswers.Sound`) is this: stamps exist, never fall, and
rise when an imported artifact changes, which `Artifacts.RebuildTicks` derives
from builds on an advancing clock; replacing the child on request succeeds; an
attempt either opens its session or leaves no child behind; and nothing is
rebuilt between the pre-warm's open and its stamp. Nothing is asked about builds
between a job's stamp and its session: the comment at
`crates/lean-host-mcp/src/project.rs:1950-1955` expects such a build to go
unnoticed by the next call, but the code notes the older stamp, so the next call
replaces the child, and the theorem covers it. The one order that loses a build
is the pre-warm's, which stamps after it opens.

**The project pool.** `BrokerModel.dfy` states each critical section of the
broker as a function, and `ProjectBroker.dfy` runs them in place;
`BrokerAcquire.dfy` puts them together to the whole of `acquire`, says what a
caller gets from it, and finds the one run of the protocol it is.
`BrokerRuns.dfy` interleaves any number of acquires, reaper passes and shutdowns,
one critical section at a time, and proves what every interleaving keeps.
`BrokerSingleFlight.dfy` proves that a root nothing goes wrong at is opened once.
What can go wrong is a stale or unreadable verdict, a failed open, a pool with no
room, an eviction at that root, and, beyond what the lock comments lead one to
expect, a shutdown of the broker, which clears the opening locks.
`BrokerLimits.dfy` builds runs that show these limits are real, and
`BrokerShutdown.dfy` says exactly which shutdowns let a root be opened twice.

**The caches.** `LakeMeta.dfy` and `MetaMemo.dfy` hold the metadata memo against a
build from scratch; `QueryCache.dfy` holds the module-query cache against the
worker's own answers.

**The reference index.** `JsonText.dfy`, `KeyMatcher.dfy`, `PlainKeys.dfy` and
`CompressedKeys.dfy` compare the substring gate with the parse it stands in for;
`IleanDoc.dfy` and `IleanLoad.dfy` compare the streaming reader with holding the
document as a tree, filtering its entries and reading those kept; `JsonTree.dfy`
joins that tree to the text; `ModulePaths.dfy`, `IleanScan.dfy` and
`NarrowedScan.dfy` compare the narrowed scan with the full one.

**Arithmetic and merging.** `CivilDate.dfy`, `Rfc3339.dfy`, `Decimals.dfy`,
`Versions.dfy`, `WorkerMemory.dfy` and `ConfigMerge.dfy`.

`Wrappers.dfy` and `Lru.dfy` hold what several of these share. Run
`dafny verify dfyconfig.toml` to check everything.

## Model

| member | source | states |
|---|---|---|
| `Artifacts.ImportArtifactStamp` | `crates/lean-host-mcp/src/lake_meta.rs:367-385` | The stat pass over modules and roots returns the newest modification time among the artifacts the modules resolve to, and nothing newer exists; a module without an artifact is skipped. |
| `Artifacts.RebuildTicks` | `crates/lean-host-mcp/src/project.rs:1950-1983` | A build that rewrites artifacts in place with a later clock is what the freshness theorem asks of its environment, for every profile; and the stamp of a profile rises exactly when an artifact it imports was rewritten, whether its contents changed or only its time. |
| `Lru.RestKeepsMirror` | `crates/lean-host-mcp/src/project.rs:2004-2028` | Two recency lists of one capacity that see the same keys stay aligned: if the pool is the recent end of the shadow, it still is after both made room for a key, whichever of them held it or had to evict. |
| `Lru.UseOnce` | `crates/lean-host-mcp/src/project.rs:2004-2028` | A key last used before the keys of a set, each used since any number of times in any order, is still in the list if and only if the set is smaller than the capacity, and then exactly that set stands behind it: one more use keeps this. |
| `ProjectActor.ProjectActorState.CycleIfRebuilt` | `crates/lean-host-mcp/src/project.rs:1956-1983` | The in-place rebuild check does what the model says: the profile is noted with its new stamp first, then the child is replaced only if that stamp passed the one noted before. |
| `ProjectActor.ProjectActorState.NoteProfile` | `crates/lean-host-mcp/src/project.rs:1999-2029` | Noting a profile moves it to the recent end of `imports_seen`, evicting from the old end only when a new profile finds the list full, and returns the stamp noted before. |
| `ProjectActor.ProjectActorState.AccountRestartsSince` | `crates/lean-host-mcp/src/project.rs:2230-2256` | Each replacement the supervisor made since the baseline is charged to the breaker under the last recorded cause, and the shadow keeps only the served profile when there was one. |
| `ProjectActor.ProjectActorState.RebuildAfterWorkerDeath` | `crates/lean-host-mcp/src/project.rs:2211-2228` | A rebuilt handle starts from a generation above every one observed before, and the shadow keeps only the served profile. |
| `ProjectActor.ProjectActorState.RunUntilSettled` | `crates/lean-host-mcp/src/project.rs:1706-1834` | The loop over attempts is the bounded recursion of the model: it ends, with at most the given number of retries. |
| `ProjectActor.ProjectActorState.CycleOverBudget` | `crates/lean-host-mcp/src/project.rs:2097-2175` | The idle cycle empties the shadow, notes the pre-warmed profile only after its session opened, and changes nothing when the replacement fails. |
| `ProjectActor.ProjectActorState.ActorMain` | `crates/lean-host-mcp/src/project.rs:2540-2568` | The whole loop of the object, over any sequence of messages, quiet periods and moves of the environment, ends in the state and with the replies of the model's run. |
| `FreshAnswers.CyclePending` | `crates/lean-host-mcp/src/project.rs:1956-1983` | After the rebuild check the served profile is at the recent end of the shadow with the stamp on disk, and the child either holds its current environment or will import it. |
| `FreshAnswers.AccountRestores` | `crates/lean-host-mcp/src/project.rs:2230-2256` | Accounting restores the alignment of shadow and pool exactly by forgetting every profile but the served one when the child was replaced. |
| `FreshAnswers.JobFresh` | `crates/lean-host-mcp/src/project.rs:1684-1835` | One job on an aligned actor, through supervisor restarts, worker deaths and a retry, leaves the actor aligned and answers from an environment that was current during the call. |
| `FreshAnswers.QuietKeepsShadow` | `crates/lean-host-mcp/src/project.rs:2097-2175` | An idle cycle, with or without a pre-warm whose stamp matches its open, leaves the shadow aligned. |
| `FreshAnswers.StepKeepsAligned` | `crates/lean-host-mcp/src/project.rs:2540-2568` | Every event of a sound environment keeps the child's pool a suffix of `imports_seen` in recency order, with no recorded stamp newer than the environment it stands for. |
| `FreshAnswers.EveryAnswerIsFresh` | `crates/lean-host-mcp/src/project.rs:1956-2029` | Over every run of jobs, rebuilds, supervisor restarts, crash rebuilds, idle cycles and pre-warms in a sound environment, every answer comes from an environment imported from artifacts that were on disk during its call. |
| `FreshAnswers.UnmovedCallIsCurrent` | `crates/lean-host-mcp/src/project.rs:1956-1983` | If nothing the profile imports changes during a call, the answer is from the artifacts on disk when the call was made. |
| `StaleAnswers.FailedCycleHidesExactly` | `crates/lean-host-mcp/src/project.rs:1956-1983` | From an aligned state, the call after one whose replacement of the child failed is stale if and only if a replacement was due and the child holds something else than an import gives now. |
| `StaleAnswers.FailedCycleHidesRebuild` | `crates/lean-host-mcp/src/project.rs:1956-1983` | In what a caller sees: call a profile, let the disk move, let its next call fail to replace the child; the call after that is stale if and only if the profile's stamp rose when the disk moved. |
| `StaleAnswers.FailedCycleServesStale` | `crates/lean-host-mcp/src/project.rs:1962-1982` | A run in which a replacement fails after the new stamp was noted, so the next call answers from the old artifacts. |
| `StaleAnswers.UnopenedJobHidesOldest` | `crates/lean-host-mcp/src/project.rs:1999-2029` | From an aligned state with a full shadow, a call for a new profile that fails before its session opens makes the next call for the oldest profile stale if and only if the child holds that one from before its stamp last rose. |
| `StaleAnswers.UnopenedJobsHideRebuild` | `crates/lean-host-mcp/src/project.rs:1999-2029` | In what a caller sees: call a profile, let any number of calls for others fail before their sessions open, let the disk move; the profile's next call is stale if and only if its stamp rose and the failed calls asked for at least as many different profiles as the shadow holds. |
| `StaleAnswers.UnopenedJobServesStale` | `crates/lean-host-mcp/src/project.rs:1999-2029` | A run in which a job that fails before its session opens evicts another profile from the shadow but not from the pool, so that profile is later answered from old artifacts. |
| `StaleAnswers.PrewarmHidesExactly` | `crates/lean-host-mcp/src/project.rs:2150-2167` | For every idle cycle that pre-warmed a profile, an undisturbed call for it is stale if and only if its artifacts differ between the pre-warm's open and its stamp. |
| `StaleAnswers.PrewarmRaceServesStale` | `crates/lean-host-mcp/src/project.rs:2150-2167` | A run in which a build lands between the pre-warm's session and its stamp, so the next call answers from the old artifacts. |
| `ActorProgress.RefusedExactly` | `crates/lean-host-mcp/src/project.rs:2294-2357` | On a non-decreasing clock an abnormal restart is refused if and only if the limit's worth of accepted ones all lie within the window. |
| `ActorProgress.EveryRunIsOk` | `crates/lean-host-mcp/src/project.rs:2294-2357` | Over every run: any limit plus one consecutive accepted abnormal restarts span strictly more than the window, nothing is handled after a refusal, and between two idle cycles a message was handled. |
| `ActorProgress.PlannedRunStaysHealthy` | `crates/lean-host-mcp/src/project.rs:815-836` | Planned replacements never consume the restart budget: a run with no others accepts no abnormal restart and stays healthy. |
| `ActorProgress.GenerationNamesTheChild` | `crates/lean-host-mcp/src/project.rs:2217-2222` | Over every run the observed generation never falls, and rises by at least one for every child replaced until it saturates, so equal generations mean one process. |
| `ActorProgress.CpuDeltaIsOneChild` | `crates/lean-host-mcp/src/project.rs:2273-2292` | A CPU delta is reported only when both samples were taken from the same child process. |
| `ActorProgress.JobRunsAndPublishes` | `crates/lean-host-mcp/src/project.rs:1706-1834` | A job runs once more than it retried and at most twice, deaths and missing sessions draw on one budget, and an exit through the loop publishes once, with its retry count. |
| `ActorProgress.LoopSeesOnlyItsRuns` | `crates/lean-host-mcp/src/project.rs:1706-1834` | The outcome depends on the attempts that were run and on no other: there is no further attempt. |
| `ActorProgress.IdleCycleLeaves` | `crates/lean-host-mcp/src/project.rs:2058-2190` | An idle cycle leaves the shadow empty or holding only the pre-warmed profile, and the next quiet period starts no timer whatever residue the pre-warm left. |
| `Mailbox.EveryRunConserves` | `crates/lean-host-mcp/src/project.rs:1244-1303` | Over every interleaving of callers and actor: the accepted messages are, in order, those replied to, the one in hand and those queued, without duplicates; and the job count is the number of live guards. |
| `Mailbox.IdleMeansNothingInFlight` | `crates/lean-host-mcp/src/project.rs:1347-1349` | The project is idle if and only if no message is unsent, queued, running in the worker, or rejected but not yet dropped. |
| `Mailbox.ExitedMeansAllReplied` | `crates/lean-host-mcp/src/project.rs:2540-2568` | When the actor has exited, every accepted message was replied to exactly once, in the order it was accepted. |
| `Mailbox.ShutdownRejectsTheRest` | `crates/lean-host-mcp/src/project.rs:1338-1345` | After the health flag is cleared nothing is served but the job already running; whatever is still received is rejected. |
| `Mailbox.SendNeverFindsActorGone` | `crates/lean-host-mcp/src/project.rs:1260-1303` | A caller that holds a sender never finds the mailbox closed. |
| `Mailbox.ShutdownDrains` | `crates/lean-host-mcp/src/project.rs:2540-2568` | From every reachable state in which the project is shut down, the steps of the actor and of callers that already hold a sender lead to its exit, in at most as many steps as there is work left, and every message ever accepted has then been replied to in order. |
| `BrokerModel.InsertIsProper` | `crates/lean-host-mcp/src/broker.rs:811-861` | Storing an opened project uses a resident one if there is one, rejects when a full pool is busy, or stores it, evicting at most one project, and that one is idle and every older one busy; the pool invariants hold afterwards. |
| `BrokerModel.ReapKeepsPool` | `crates/lean-host-mcp/src/broker.rs:873-899` | The reaper takes exactly the residents that are idle and whose last use is at least the timeout ago. |
| `BrokerRuns.SectionTrades` | `crates/lean-host-mcp/src/broker.rs:717-861` | Whatever a critical section does, the registry loses exactly the projects it takes out and gains exactly the one it stores: nothing is evicted silently. |
| `BrokerRuns.EveryRunKeepsThePool` | `crates/lean-host-mcp/src/broker.rs:717-939` | Under every interleaving of acquires, reaper and shutdown: the registry stays within its cap, every resident has a `last_used` entry, only idle projects are evicted for room or for age, and every project ever opened is exactly one of resident at one root, held by one task, or shut down. |
| `BrokerSingleFlight.OneOpenPerRoot` | `crates/lean-host-mcp/src/broker.rs:751-867` | Whatever the interleaving, while nothing goes wrong at a root it is opened at most once, and every acquire for it that returned was given that one project, which is still resident; a shutdown counts as going wrong only at the roots whose opening lock it clears. |
| `BrokerSingleFlight.SecondOpenHasCause` | `crates/lean-host-mcp/src/broker.rs:717-939` | In every run that opens a root twice there is a step that did something wrong at that root: a stale or unreadable verdict, a failed open, a pool with no room, an eviction there, or a shutdown that cleared its opening lock. |
| `BrokerSingleFlight.EveryRunExcludes` | `crates/lean-host-mcp/src/broker.rs:751-760` | No opening lock ever has two holders, although entries of the lock table come and go. |
| `BrokerSingleFlight.HandBlocksLock` | `crates/lean-host-mcp/src/broker.rs:751-771` | While a task holds a project it opened and has not stored, no other task for that root can get past the lock. |
| `BrokerLimits.ShutdownLetsTwoOpen` | `crates/lean-host-mcp/src/broker.rs:919-939` | A reachable state in which a root was opened twice although no open failed, nothing was stale and nothing was evicted: `shutdown_all` had cleared the opening locks. |
| `BrokerShutdown.SecondOpenAfterShutdownExactly` | `crates/lean-host-mcp/src/broker.rs:919-939` | For a shutdown at any reachable moment when nothing has gone wrong at a root and nothing is resident there: the root can afterwards be opened a second time, with no other shutdown and nothing else wrong at it, if and only if some task was between asking for its opening lock and storing what it opened. |
| `BrokerLimits.FailureLetsTwoOpen` | `crates/lean-host-mcp/src/broker.rs:785-808` | A reachable state in which a root was opened twice after a failed open removed the lock entry that others were waiting on. |
| `BrokerLimits.StalePathTakesBusy` | `crates/lean-host-mcp/src/broker.rs:740-747` | A reachable state in which the stale path took out of the registry a busy project it had never inspected. |
| `ProjectBroker.BrokerInner.PopIdleLru` | `crates/lean-host-mcp/src/broker.rs:975-982` | The scan from the old end pops the least recently used idle project, or nothing when all are busy. |
| `ProjectBroker.BrokerInner.StoreOpened` | `crates/lean-host-mcp/src/broker.rs:811-861` | The last critical section of `acquire`, in place, does what the model says. |
| `ProjectBroker.BrokerInner.ReapIdle` | `crates/lean-host-mcp/src/broker.rs:873-899` | The reaper's loop over the expired roots, in whatever order they come, takes out exactly the projects of the model. |
| `ProjectBroker.BrokerInner.ShutdownAll` | `crates/lean-host-mcp/src/broker.rs:919-932` | Shutdown takes every resident, its `last_used` entry and all opening locks. |
| `BrokerAcquire.AcquireProject` | `crates/lean-host-mcp/src/broker.rs:716-868` | The whole of `acquire` in place, fast path, locked second look and slow path, with nothing between its critical sections: the state it leaves and the project it returns are those of the model's call on what it found, and are what the caller is owed. |
| `BrokerAcquire.AcquireAnswers` | `crates/lean-host-mcp/src/broker.rs:716-868` | What the caller is owed: the resident project if it is judged current; nothing exactly after an unreadable verdict, a failed open, or with nothing resident in a full pool of busy projects; a new project otherwise. What is returned is resident and marked as used now, nobody else leaves but the oldest idle project of a full pool, and the opening lock is forgotten on the slow path and untouched on the fast one. |
| `BrokerAcquire.CallIsRun` | `crates/lean-host-mcp/src/broker.rs:716-868` | From every state of the protocol in which the task has not begun and no other holds an opening lock there is a run in which this task alone moves, decides by the verdicts, the outcome of the open, the busy projects and the time it found, and ends in the state and with the project of that call. |
| `BrokerAcquire.OnlyOneRun` | `crates/lean-host-mcp/src/broker.rs:716-868` | And there is one such run only: what was found leaves the task one way to go at every step. |
| `LakeMeta.StampDeterminesBuild` | `crates/lean-host-mcp/src/lake_meta.rs:99-150` | If files with equal stats are equal, an equal stamp means an equal build, although the fifth stamped file is named by the old build's library. |
| `LakeMeta.BuiltStampIsNotEmpty` | `crates/lean-host-mcp/src/lake_meta.rs:118-165` | The stamp of a build that succeeded differs from that of a directory that is gone. |
| `MetaMemo.MetaCache.Meta` | `crates/lean-host-mcp/src/broker.rs:393-409` | The memo's lookup in place: refresh, revalidate, rebuild, store. |
| `MetaMemo.EveryLookupIsFresh` | `crates/lean-host-mcp/src/broker.rs:385-409` | Over any run of file edits and lookups, a lookup answers exactly what a fresh build would, value or error, and the cache stays within its capacity. |
| `MetaMemo.LateStampHidesEdit` | `crates/lean-host-mcp/src/broker.rs:402-408` | When an edit lands between a build and its stamp, the next lookup is fresh if and only if the edit did not change the outcome. |
| `QueryCache.ModuleQueryCache.ProcessCachedModuleQuery` | `crates/lean-host-mcp/src/broker.rs:446-479` | A call alone: a hit answers from the cache and asks the worker nothing; a miss answers from the worker and stores; a failure stores nothing; an unkeyable query touches nothing. |
| `QueryCache.ModuleQueryCache.ProcessCachedModuleQueryBatch` | `crates/lean-host-mcp/src/broker.rs:518-548` | The same for a batch. |
| `QueryCache.HitIsLastAnswer` | `crates/lean-host-mcp/src/cache.rs:127-154` | Whatever calls interleave, a hit is the worker's last answer to that very query for that path and those bytes. |
| `QueryCache.BatchHitIsLastAnswer` | `crates/lean-host-mcp/src/cache.rs:156-197` | A batch hit is the worker's last answer to that batch under those budgets, different only in cache status and timings. |
| `QueryCache.MarkKeepsAnswer` | `crates/lean-host-mcp/src/cache.rs:186-197` | Marking a hit changes only the status and the timings, and leaves outcomes without facts alone. |
| `QueryCache.KeysTellApart` | `crates/lean-host-mcp/src/cache.rs:64-83` | Different modelled queries never share a key, and exactly the unmodelled ones have none. |
| `QueryCache.UnkeyableLeaveNoTrace` | `crates/lean-host-mcp/src/broker.rs:447-472` | Two runs that differ only in calls whose question has no key, put in or left out anywhere, leave the same caches and answer every later probe alike. |
| `QueryCache.EveryRunIsBounded` | `crates/lean-host-mcp/src/cache.rs:119-125` | Neither map ever exceeds its capacity or holds a key twice. |
| `QueryCache.HitIsCurrentExactly` | `crates/lean-host-mcp/src/cache.rs:8-22` | With a worker whose answers depend on imports that are rebuilt at any time, a hit is what the worker would answer now if and only if it answers the question the same under the imports as they were when it last ran for it: the key holds the file's bytes, not its imports' artifacts. |
| `QueryCache.SurelyCurrentExactly` | `crates/lean-host-mcp/src/cache.rs:8-22` | The same calls and rebuilds on any worker: a hit is what the worker would answer now, whichever worker it is, if and only if the imports are now as they were when the worker last ran for the question. |
| `JsonText.DecodesEverySpelling` | `crates/lean-host-mcp/src/ilean.rs:547-558` | Decoding undoes every spelling of a string that section 7 of RFC 8259 allows, surrogate pairs included. |
| `JsonText.OnlySpellingsDecode` | `crates/lean-host-mcp/src/ilean.rs:547-558` | Whatever decodes is such a spelling of what it decodes to, so decoding accepts nothing else. |
| `JsonText.EncodeRoundTrip` | `crates/lean-host-mcp/src/ilean.rs:462-472` | A printer that escapes only what it must is undone by decoding, for every string. |
| `PlainKeys.LostOnlyWhenNeedless` | `crates/lean-host-mcp/src/ilean.rs:460-494` | For every name and every text, in any layout: what matches is a key of the name, and a key of the name that does not match spells it with an escape JSON does not require, of a name that needs none. |
| `PlainKeys.LostExactly` | `crates/lean-host-mcp/src/ilean.rs:460-494` | A key of the name, taken apart around its own identifier, is lost if and only if the name needs no escape and stands neither in the identifier as it is spelled there, nor before it, nor after it. |
| `PlainKeys.PlainKeysMatchExactly` | `crates/lean-host-mcp/src/ilean.rs:475-494` | For every key without a backslash, whatever its layout, the gate changes nothing. |
| `CompressedKeys.ConstKeyParses` | `crates/lean-host-mcp/src/ilean.rs:453-458` | A compressed constant key parses to its identifier however its strings are spelled. |
| `CompressedKeys.MinimalKeysMatchExactly` | `crates/lean-host-mcp/src/ilean.rs:460-494` | For every name and every compressed constant key with minimal escapes, the key matches if and only if its decoded identifier is the name. |
| `CompressedKeys.GateIsOffExactly` | `crates/lean-host-mcp/src/ilean.rs:463-481` | The gate is off exactly for the names that are not written as they are. |
| `CompressedKeys.FvarKeysNeverMatch` | `crates/lean-host-mcp/src/ilean.rs:453-458` | The key of a local variable never matches, whatever its spelling. |
| `CompressedKeys.NeedlessEscapeLosesMatch` | `crates/lean-host-mcp/src/ilean.rs:475-489` | A key that spells a plain letter as an escape is a key of that name and is not matched. |
| `CompressedKeys.ModuleSavesMatch` | `crates/lean-host-mcp/src/ilean.rs:475-489` | The same spelling in a module of that name is matched: the gate finds the name in the module's string. |
| `IleanDoc.CollectEntries` | `crates/lean-host-mcp/src/ilean.rs:706-727` | One pass over the references map returns the hits of filtering its entries by key and then reading the ones kept, definition then usages, and fails exactly when that fails. |
| `IleanDoc.ReadInfo` | `crates/lean-host-mcp/src/ilean.rs:790-798` | An entry is read by name or by position, duplicate fields rejected, unknown ones skipped. |
| `IleanDoc.ParseDocument` | `crates/lean-host-mcp/src/ilean.rs:639-677` | The streaming pass answers what holding the whole document as a tree, filtering its entries by key and reading those kept answers, and its duplicate and missing errors are true of the document. |
| `IleanDoc.ReadAllAgreesExactly` | `crates/lean-host-mcp/src/ilean.rs:706-727` | A reader that reads every entry first and filters afterwards gives the same hits whenever it gives any, and differs exactly on the maps with an entry nobody asked for that can be skipped and not read. |
| `JsonTree.ReadIsSkip` | `crates/lean-host-mcp/src/ilean.rs:706-727` | On every text, building the tree of the next value succeeds exactly when skipping it does, both stop at one place, and the tree is what the reader takes for JSON all through. |
| `JsonTree.ReadBack` | `crates/lean-host-mcp/src/ilean.rs:423-428` | Every tree of values without fractions is read back from its compressed text, whatever follows it. |
| `IleanLoad.LoadReferences` | `crates/lean-host-mcp/src/ilean.rs:403-420` | Read, parse, gate and classify: the result of the model on every text. |
| `IleanLoad.UnsupportedExactly` | `crates/lean-host-mcp/src/ilean.rs:374-391` | A text is reported as unsupported with a version if and only if it is JSON with exactly that one version and it is not 5, readable shape or not. |
| `IleanLoad.LoadsExactly` | `crates/lean-host-mcp/src/ilean.rs:358-410` | Loading succeeds with a document if and only if the filtered parse gives that document and its version is 5. |
| `IleanLoad.OrderDoesNotMatter` | `crates/lean-host-mcp/src/ilean.rs:639-677` | Reordering the top-level fields changes nothing. |
| `IleanLoad.DuplicatesAreRejected` | `crates/lean-host-mcp/src/ilean.rs:648-665` | A known field that stands twice rejects the document. |
| `JsonTree.NotJsonIsBad` | `crates/lean-host-mcp/src/ilean.rs:374-391` | Every text that is not one JSON value with nothing after it is rejected as bad JSON, whatever version it shows. |
| `JsonTree.WrittenIsLoaded` | `crates/lean-host-mcp/src/ilean.rs:403-428` | An index written as text, its three fields in any order, is loaded exactly when its references can be read, with its module, its version and the hits they give, and is bad JSON otherwise. |
| `IleanScan.ReferenceScan.Visit` | `crates/lean-host-mcp/src/ilean.rs:215-231` | A visit appends the hits of one index, placed in its module's source, and counts it as scanned or skipped. |
| `IleanScan.ReferencesTo` | `crates/lean-host-mcp/src/ilean.rs:162-201` | A query reads the indices of the wanted files when all can be inverted and the whole tree otherwise, and counts each index once. |
| `ModulePaths.SplitJoin` | `crates/lean-host-mcp/src/ilean.rs:443-451` | Pieces without dots, joined with dots and split again, come back. |
| `ModulePaths.JoinSplit` | `crates/lean-host-mcp/src/ilean.rs:443-451` | A module name split at dots and joined again comes back. |
| `NarrowedScan.NarrowedInGeneral` | `crates/lean-host-mcp/src/ilean.rs:148-201` | For every tree whose walk meets a file once, whatever modules the indices record: the narrowed scan finds, hit for hit and as often, what the full scan filtered to the wanted files finds, if and only if no index read has hits of an unwanted module and the hits repeated for files named again are those of the wanted indices that were not read. |
| `NarrowedScan.NarrowedOfDifferent` | `crates/lean-host-mcp/src/ilean.rs:148-201` | So for wanted files that all differ the two agree if and only if every index with hits is read exactly when the module it records is wanted. |
| `NarrowedScan.NarrowedExactly` | `crates/lean-host-mcp/src/ilean.rs:148-201` | And where every index with hits is read so, they agree if and only if every file named more than once has no hits. |
| `NarrowedScan.NarrowedIsFiltered` | `crates/lean-host-mcp/src/ilean.rs:148-201` | So they agree for files that all differ when every index with hits lies where the module it records belongs. |
| `NarrowedScan.ChosenExactly` | `crates/lean-host-mcp/src/ilean.rs:234-284` | The index chosen for a file is a given index if and only if that index's module lives in the file. |
| `NarrowedScan.ChosenModuleIsUnique` | `crates/lean-host-mcp/src/ilean.rs:237-240` | The index chosen for a file belongs to the one well-named module whose source the file is. |
| `NarrowedScan.OneUninvertibleReadsAll` | `crates/lean-host-mcp/src/ilean.rs:250-284` | One file that cannot be inverted makes the scan read every index. |
| `NarrowedScan.SourceSameExactly` | `crates/lean-host-mcp/src/ilean.rs:443-446` | For all names and every root: two module names have one source path if and only if they are the same but for empty pieces. |
| `NarrowedScan.EmptyPiecesVanish` | `crates/lean-host-mcp/src/ilean.rs:443-446` | So every name with an empty piece, and some other, shares its source path with the well-named module that lacks it. |
| `CivilDate.EpochRoundTrip` | `crates/lean-host-mcp/src/cli/install_worker.rs:761-779` | For every second from the epoch on, the result is a valid Gregorian date and time, and counting its days and seconds one by one gives the input back. |
| `CivilDate.FromEpochIsMonotone` | `crates/lean-host-mcp/src/cli/install_worker.rs:761-779` | Seconds are in order if and only if their dates are, so different seconds have different dates. |
| `CivilDate.EveryDateIsReached` | `crates/lean-host-mcp/src/cli/install_worker.rs:761-779` | Every valid date and time from the epoch on is the conversion of its own second. |
| `CivilDate.IntermediatesFit` | `crates/lean-host-mcp/src/cli/install_worker.rs:752-776` | For every 64-bit number of seconds no intermediate leaves the signed 64-bit range. |
| `Rfc3339.TextReadsBack` | `crates/lean-host-mcp/src/cli/install_worker.rs:778` | The text is RFC 3339 (section 5.6) if and only if the year is at most 9999, and then reads back as the same date and time. |
| `Rfc3339.MibReadsBack` | `crates/lean-host-mcp/src/cli/install_worker.rs:722-727` | The text shown for a size reads back, up to its dot and after it, as the size in hundredths of a MiB rounded down, and nothing on the way overflows. |
| `Versions.KeyRoundTrip` | `crates/lean-host-mcp/src/toolchain.rs:491-512` | Every version key is read back from how it is written. |
| `Versions.OrderKeptExactly` | `crates/lean-host-mcp/src/toolchain.rs:514-536` | The scalar strictly keeps the order of all versions with fields below a bound if and only if the bound is at most 1000. |
| `Versions.NearestIsNearest` | `crates/lean-host-mcp/src/toolchain.rs:549-576` | For any table and pin the suggestion is a table entry, no entry is nearer, and none as near is newer. |
| `Versions.AboveAllGetsHead` | `crates/lean-host-mcp/src/toolchain.rs:549-576` | Against an ascending table every pin above all of it, of any size, gets the head. |
| `Versions.FloorExactly` | `crates/lean-host-mcp/src/toolchain.rs:549-576` | Against an ascending table a pin of any size gets the floor if and only if the table has one entry or the pin's scalar is strictly below the middle of the lowest two: a tie goes to the newer. |
| `Versions.BelowAllGetsFloor` | `crates/lean-host-mcp/src/toolchain.rs:549-576` | So every pin below all of it with fields below 1000 gets the floor. |
| `Versions.LargeFieldLeavesFloor` | `crates/lean-host-mcp/src/toolchain.rs:524-576` | But 1.0.2000, which is below both entries of the table 1.1.0, 1.2.0, is pointed at 1.2.0 and not at its floor. |
| `WorkerMemory.BudgetIsBounded` | `crates/lean-host-mcp/src/project.rs:341-365` | For all RAM and pool sizes the budget lies between its minimum and its ceiling. |
| `WorkerMemory.BudgetGrowsWithRam` | `crates/lean-host-mcp/src/project.rs:341-365` | More RAM never means a smaller budget. |
| `WorkerMemory.BudgetShrinksWithPool` | `crates/lean-host-mcp/src/project.rs:341-365` | A larger pool never means a larger budget. |
| `WorkerMemory.BudgetIsQuarterShare` | `crates/lean-host-mcp/src/project.rs:341-364` | Between its bounds, and where the machine affords it, the budget is a quarter of one project's share of the RAM. |
| `WorkerMemory.PoolFitsExactly` | `crates/lean-host-mcp/src/project.rs:347-364` | Pool size times budget and headroom fits in RAM if and only if one share covers the headroom and the minimum. |
| `WorkerMemory.HeapCeilingClearsBudget` | `crates/lean-host-mcp/src/project.rs:72-117` | The heap ceiling clears the budget by 8 GiB less 1023 bytes if and only if the budget leaves 8 GiB of the 64-bit range. |
| `WorkerMemory.HeapCeilingIsNoHigher` | `crates/lean-host-mcp/src/project.rs:99-117` | The heap ceiling is the larger of twice the budget and the budget plus 8 GiB, rounded down to KiB. |
| `WorkerMemory.SoftIsBelowBudget` | `crates/lean-host-mcp/src/project.rs:465-472` | The soft threshold is strictly below every positive budget. |
| `ConfigMerge.MergeToml` | `crates/lean-host-mcp/src/config_file.rs:167-181` | The entry-by-entry merge is the deep merge of the model. |
| `ConfigMerge.OverlayLaw` | `crates/lean-host-mcp/src/config_file.rs:164-181` | For every path: a value of the overlay wins, a path the overlay ends in a table or cuts short has no value, and any other path keeps the value below. |
| `ConfigMerge.LayersExactly` | `crates/lean-host-mcp/src/config_file.rs:104-116` | Over an empty base, the local file wins path by path, home fills in what local says nothing about, and a missing file adds nothing. |
| `ConfigMerge.MergeIsIdempotent` | `crates/lean-host-mcp/src/config_file.rs:167-181` | Applying a layer twice is applying it once. |
| `ConfigMerge.LoadedIsStable` | `crates/lean-host-mcp/src/config_file.rs:104-116` | What is loaded from two proper files is proper at every depth, and put in place of the home file under the same local file it loads as itself. |

## Left out

- The worker child, its supervisor and the Lean side are an environment: a pool of environments of the same capacity that reuses a pooled profile and imports anything else from disk, replaced or lost at any point of an attempt.
- Hashing is taken to be injective, and the TOML, UTF-8 and lakefile parsers are fixed functions of file contents; the fingerprint of an import list is the list itself.
- Imports are the listed modules: a rebuild of an artifact that only another artifact imports is not modelled, as the stamp does not look at it either.
- Telemetry that decides nothing: the restart tally, the last restart event, resident set size, the count of profile switches, log lines.
- Panics inside a job, and callers of `acquire` that are cancelled while they wait.
- FreshAnswers.EveryAnswerIsFresh: speaks of an environment current at the start of the call or when its session opened, because a build may land during a call.
- Mailbox.EveryRunConserves: a caller that has built its message and is dropped before sending is not modelled.
- BrokerRuns.EveryRunKeepsThePool: which projects are busy is an input of each step, read under the mutex; that a project becomes busy later, outside it, is not related to the actor's own job count.
- BrokerSingleFlight.OneOpenPerRoot: says nothing about a root once one of the listed troubles occurred there.
- MetaMemo.EveryLookupIsFresh: a root is a canonical path and stays one; retargeting a symbolic link above it is not modelled.
- QueryCache.BatchHitIsLastAnswer: assumes that serialisation tells batches apart.
- PlainKeys.LostOnlyWhenNeedless: keys are read as Unicode scalar values, so text that is not UTF-8 is not modelled.
- IleanDoc.ParseDocument: streams over the tree of values that JsonTree builds from the text; where in the bytes a syntax error stands, the limit on nesting, and numbers too large to be read as floating point are not modelled.
- NarrowedScan.NarrowedIsFiltered: paths are lists of components without empty names, separators inside names or symbolic links.
- IleanScan.ReferencesTo: detection of sources newer than their index is left out, as it only reads two modification times; the counters do not saturate.
- ConfigMerge.MergeToml: the value tree is rebuilt rather than updated in place, so sharing between layers does not arise; associativity of layers is not claimed because tables and scalars at one path break it.
- StaleAnswers.UnopenedJobsHideRebuild: the failed calls are for profiles whose own artifacts were not rebuilt since they were noted, as a rebuild of theirs would replace the child.
- BrokerAcquire.AcquireProject: runs the call with nothing between its critical sections; calls that interleave are the protocol's.
- JsonTree.ReadBack: fractions and exponents are read as one kind of number and not written.
- Rfc3339.TextReadsBack: times before the epoch, which the program prints as a fixed word, are left out.
- The declaration query of the reference index, whose reader is a derived one over the other half of the file.
- What Lean's own printer escapes: if it escapes more than JSON requires, the keys it writes fall under CompressedKeys.NeedlessEscapeLosesMatch.
- Server transport, command-line handling, message texts, tool request shaping and declaration search.
