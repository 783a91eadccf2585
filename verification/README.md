# Models and proofs for oh-my-codex

This project models the parts of oh-my-codex that are algorithms or protocols rather than
plumbing, and proves what they promise: for every input, every run, or every interleaving. It is a
model; nothing here runs the program. `dafny verify dfyconfig.toml` checks it with Dafny 4.11.

| files | what they model |
|---|---|
| `MkdirLock.dfy` | the directory lock of the tmux lease and of the madmax detached launch, as steps of any number of processes |
| `ExtendedKeysLease.dfy`, `LeaseProtocol.dfy` | the reference-counted lease on tmux's `extended-keys` option: its critical sections as methods, and all interleavings of its single operations |
| `SortSpec.dfy`, `Sorts.dfy` | the adaptive sorts and their comparison and move counters |
| `Supervisor.dfy` | the autoresearch supervisor over HEAD, manifest, ledger and results table |
| `Cleanup.dfy`, `CleanupSelection.dfy`, `CleanupSignals.dfy` | selecting and ending orphaned MCP servers |
| `Shell.dfy`, `ShellQuoting.dfy` | a reader for the POSIX shell language (POSIX.1-2017, sections 2.2.1 to 2.2.3 and 2.3) and the printers it undoes |
| `Rotation.dfy`, `Hotswap.dfy` | auth slots: plan, metadata, and the attempt loop |
| `TomlLines.dfy`, `PluginConfig.dfy`, `PluginConfigLaws.dfy`, `PluginConfigFrame.dfy`, `PluginConfigText.dfy` | enabling and stripping the plugin's MCP servers in config.toml |
| `Slug.dfy`, `Sandbox.dfy`, `Draft.dfy` | slugs, sandbox.md and draft artifacts, printed and parsed |
| `Autopilot.dfy` | autopilot phases and the completion gate |
| `Goal.dfy` | the life of autoresearch goals in their directories |
| `Text.dfy`, `Wrappers.dfy` | trimming, case and lines; Option and Result |

## Assumptions

The lock and lease proofs assume, and `Enabled` and `Legal` in the two modules say:

- one lease root per tmux server, no other writer of the option, well-formed lease files, atomic
  file writes;
- inspecting a stale lock and removing it is one step;
- a live process always looks alive (so the extended-keys rule, which also takes a refused signal
  for death, is only covered for processes of one user); a dead one may look either way;
- a live lock owner writes its pid before the 30 s stale age;
- no file write of the lease fails in a live process after a set-option call;
- nobody dies between a set-option call and the file update that belongs to it. Everywhere else
  inside the critical section a process may die. The three `Death...` lemmas are runs that show
  what goes wrong without this assumption.

The supervisor treats git as a HEAD plus `reset`; candidate file, evaluator result, resolved
commits and where the evaluator leaves HEAD are arbitrary inputs. The cleanup uses an operating
system whose answers are arbitrary. Commands are classified by arbitrary verdicts, evidence texts
by arbitrary patterns. Sorted key and slot lists, and the order of slot names, are inputs.

Further assumptions of single modules:

- the clock never goes back and a sleep advances it by at least what was asked (`CleanupSignals.Os`);
- candidate pids are positive, so the `pid > 0` filter of `waitForPidsToExit` drops nobody;
- slot names in the auth metadata are distinct, as every write keeps them; a hand-edited file is read as
  it is (`Hotswap.AuthStore.Valid`);
- one attempt loop of `runAuthHotswap` happens at one time `now`;
- a line break is `\n` or `\r`: U+2028 and U+2029, which the multi-line patterns of the draft parser
  also take for one, do not occur (`Draft`).

## Where the code differs from what it says or seems to say

- `resolveProtectedRootPid` has no guard against cyclic parent links, unlike its neighbour
  `hasAncestorMatching`. It returns if and only if the walk meets no pid twice, which a caller can
  check by walking one step more than there are processes (`Cleanup.EndsExactlyWhen`); otherwise it
  goes round among processes none of which is Codex (`Cleanup.CycleHasNoCodex`).
- A user whose option reads empty gets the fallback mode instead (`LeaseProtocol.EmptyModeIsLost`);
  under the assumptions above these are the only users for whom the lease is not safe (`LeaseProtocol.SafeExactlyWhen`).
- The gate's messages say that implementation "may only advance to code-review", but any phase
  other than ultraqa is accepted in between (`Autopilot.AnyPhaseOpensTheGate`,
  `Autopilot.GateOpensWithoutReviewPhase`); what is enforced is the review evidence.
- `slugifyMissionName` is not idempotent: the cut at 48 characters can leave a dash at the end
  (`Slug.IdempotentExactlyWhen`). A goal lives in the directory of its text's slug
  (src/autoresearch/goal.ts:141, 173), but `complete` looks for the verdict in the directory of that
  slug's slug (src/autoresearch/goal.ts:189, 234). For exactly the texts that are cut behind a dash
  the two differ (`Goal.FinishIsOwnExactlyWhen`, `Goal.AgreesExactlyWhen`): a passed goal cannot be
  completed (`Goal.PassedGoalIsRefused`), and another goal's verdict can complete it
  (`Goal.BorrowedPassCompletes`). Nor is such a goal found when it is addressed by its printed slug
  instead of its text (`Goal.CreatedGoalIsFoundWhen`).
- Recreating a goal with `--force` leaves its old completion artifact, so the new goal can be
  completed on the old verdict (`Goal.ForcedCreationKeepsOldPass`).
- A sandbox command loses quotes at its ends and gets tabs replaced by two spaces each
  (`Sandbox.SandboxRoundTrip`).
- The message behind the attempt loop of `runAuthHotswap` is dead code (`Hotswap.RunHotswap`).

## Model

| member | source | states |
|---|---|---|
| `MkdirLock.StepKeepsInv` | src/cli/index.ts:3606-3653 | Every mkdir, pid write, stale inspection, rmdir, death and ageing step keeps: whoever is inside made the directory and is alive, and an aged directory of a live owner carries its pid. |
| `MkdirLock.MutualExclusion` | src/cli/index.ts:2231-2276 | In every reachable state at most one process is between its mkdir and its rmdir, and it is alive, under both staleness rules, across retries, deaths before or after the pid is written, and stale-lock breaking. |
| `MkdirLock.AttemptsCounted` | src/cli/index.ts:3617-3653 | Along every run the loop counter of a call is the number of mkdirs it has made, and that number never exceeds the bound. |
| `MkdirLock.RetryLoopIsBounded` | src/cli/index.ts:3617-3653 | No call makes more mkdir attempts than its bound, whatever the other processes do. |
| `MkdirLock.GivesUpExactlyWhen` | src/cli/index.ts:3617-3653 | In every run, a call that found the directory taken gives up exactly when it has made as many mkdirs as its bound allows; otherwise it tries again. |
| `MkdirLock.StillWaiting` | src/cli/index.ts:3617-3653 | While another process holds the lock, a call that has found it taken n times is about to try again, for every n below the bound, and is over at the bound; nothing else has changed. |
| `MkdirLock.WaiterGetsIn` | src/cli/index.ts:2238-2276 | If the holder leaves after any number of such rounds below the bound, the waiting process gets the lock with its next attempt. |
| `MkdirLock.RemovedExactlyWhen` | src/cli/index.ts:2196-2229 | Which directories a waiting process removes, under each of the two staleness rules. |
| `MkdirLock.AbandonedLockIsBroken` | src/cli/index.ts:2196-2269 | A directory left by a dead owner never blocks: once it is old, a process running alone removes it and gets the lock on its second attempt, under either rule. |
| `ExtendedKeysLease.Reap` | src/cli/index.ts:3597-3604 | Reaping keeps exactly the holders that look alive. |
| `ExtendedKeysLease.Without` | src/cli/index.ts:3850-3852 | Removing a lease drops exactly the holders of that id. |
| `ExtendedKeysLease.TmuxServer.Acquire` | src/cli/index.ts:3780-3808 | The critical section of acquire changes option and lease file as AcquireEffect says: reap, restore and drop an ownerless file, record the old mode and switch on, or join. |
| `ExtendedKeysLease.TmuxServer.Release` | src/cli/index.ts:3833-3869 | The critical section of release changes option and lease file as ReleaseEffect says: reap, then drop the lease, restoring the recorded mode with the last one. |
| `ExtendedKeysLease.ReleaseUndoesAcquire` | src/cli/index.ts:3765-3869 | Releasing what was just acquired gives back the server as reaping alone would have left it: the recorded mode when nobody else lives, the other holders and their file otherwise. |
| `ExtendedKeysLease.ReleaseLeaves` | src/cli/index.ts:3833-3869 | A release leaves exactly the holders that look alive and have another id, as often and in the order they were there, whatever the place of the lease in the file; without any there is no file and the recorded mode is back, otherwise mode and recorded mode stay. |
| `ExtendedKeysLease.AcquireAdds` | src/cli/index.ts:3780-3808 | An acquire leaves the holders that look alive, in order, and the new one behind them; without any it switches the option on and records the mode there was, with `off` for an empty one. |
| `LeaseProtocol.StepKeepsInv` | src/cli/index.ts:3780-3869 | Every single tmux call, file operation, lock action, tmux failure and permitted death keeps the invariant that ties option, file, live leases and the progress of the process inside the lock together. |
| `LeaseProtocol.LeaseIsSafeWhenLockIsFree` | src/cli/index.ts:3765-3869 | In every interleaving, whenever the lock is free: without a file the option is the user's initial mode and no live lease is open; with one, the file records that mode, the option is `always`, the file has holders, all of them unreleased leases, and every live unreleased lease is among them. |
| `LeaseProtocol.NothingHeldNothingLeft` | src/cli/index.ts:3765-3869 | In every interleaving: with the lock free and every lease released there is no file and the user has the mode back. |
| `LeaseProtocol.NoOneTurnsTheModeOff` | src/cli/index.ts:3843-3869 | In every reachable state, also in the middle of a critical section, a live lease not itself being released has the option at `always`. |
| `LeaseProtocol.EmptyModeBecomesFallback` | src/cli/index.ts:3788-3792 | In every interleaving of a user whose option reads empty, whenever the lock is free: either there is no file, the option is still empty and no live lease is open, or everything is as safe as for a user whose mode was the fallback. |
| `LeaseProtocol.FallbackFromThenOn` | src/cli/index.ts:3788-3792 | ... and once there has been a lease file, it is the fallback in every continuation of the run. |
| `LeaseProtocol.EmptyModeIsLost` | src/cli/index.ts:3788-3800 | The losing run: an undisturbed acquire and release from the empty mode end with the lock free, no file, no lease and the option at the fallback. |
| `LeaseProtocol.SafeExactlyWhen` | src/cli/index.ts:3780-3869 | The lease is safe whenever the lock is free, in all runs, if and only if the user's mode does not read empty. |
| `LeaseProtocol.AcquireOperationsAreTheMethod` | src/cli/index.ts:3780-3808 | The single operations of one undisturbed acquire add up to TmuxServer.Acquire. |
| `LeaseProtocol.ReleaseOperationsAreTheMethod` | src/cli/index.ts:3833-3869 | The single operations of one undisturbed release add up to TmuxServer.Release. |
| `LeaseProtocol.DeathLosesTheUsersMode` | src/cli/index.ts:3793-3800 | Why the excluded deaths matter: a run in which dying between set-option and the first file write loses the user's mode, for every initial mode but `always`. |
| `LeaseProtocol.DeathTurnsTheModeOff` | src/cli/index.ts:3863-3867 | A run in which dying between the last release's set-option and its file removal leaves a later live lease with the mode off. |
| `LeaseProtocol.DeathWhileReapingTurnsTheModeOff` | src/cli/index.ts:3783-3788 | The same for reaping, when the dead holder's pid is reused. |
| `Sorts.Ops.Compare` | playground/adaptive_sort_demo/sort_benchmark.py:24-26 | One comparison is counted and the three-way sign is returned. |
| `Sorts.Ops.Move` | playground/adaptive_sort_demo/sort_benchmark.py:28-29 | That many moves are counted and no comparison. |
| `Sorts.InsertionSort` | playground/adaptive_sort_demo/sort_benchmark.py:36-48 | The result is the sorted permutation, at exactly the number of moves and comparisons the input determines. |
| `Sorts.Insert` | playground/adaptive_sort_demo/sort_benchmark.py:39-47 | One round puts arr[i] in its place in the sorted prefix, touches nothing behind it, and costs 2 plus one move, and one comparison, for each larger element before it. |
| `Sorts.Shift` | playground/adaptive_sort_demo/sort_benchmark.py:42-45 | The inner loop moves exactly the larger elements up by one, at one move and one comparison each and one more comparison where it stops. |
| `Sorts.InsertionCost` | playground/adaptive_sort_demo/sort_benchmark.py:36-48 | Insertion sort of n >= 1 values makes 2(n-1) + inv moves and between inv and inv + n-1 comparisons, inv being the number of inverted pairs. |
| `SortSpec.InversionsCountPairs` | playground/adaptive_sort_demo/sort_benchmark.py:42-45 | The count used in the cost is the number of index pairs in the wrong order. |
| `Sorts.MergeSort` | playground/adaptive_sort_demo/sort_benchmark.py:51-74 | The result is the sorted permutation, at exactly the moves and comparisons of the merge recurrence. |
| `Sorts.Merge` | playground/adaptive_sort_demo/sort_benchmark.py:57-74 | Merging two sorted lists gives their sorted union at one move per element. |
| `SortSpec.MergeSortMovesClosed` | playground/adaptive_sort_demo/sort_benchmark.py:51-74 | For n >= 1 values merge sort makes exactly n*L + n - 2^L moves, L the ceiling of log2 n. |
| `SortSpec.MergeSortComparisonsBound` | playground/adaptive_sort_demo/sort_benchmark.py:51-74 | ... and at most n*L - 2^L + 1 comparisons. |
| `SortSpec.CeilLog2IsLeast` | playground/adaptive_sort_demo/sort_benchmark.py:54-56 | L is the least exponent with n <= 2^L. |
| `Sorts.Tally` | playground/adaptive_sort_demo/sort_benchmark.py:81-83 | The counting loop leaves in every cell the multiplicity of its value. |
| `Sorts.CountingSort` | playground/adaptive_sort_demo/sort_benchmark.py:77-90 | The result is the sorted permutation, at (max-min+1) + 2n moves and no comparison. |
| `Sorts.LongestNonDecreasingRun` | playground/adaptive_sort_demo/sort_benchmark.py:93-103 | The result is the true maximum length over all contiguous segments that never decrease. |
| `Sorts.HybridSort` | playground/adaptive_sort_demo/sort_benchmark.py:106-121 | For every threshold setting the result is the sorted permutation, and the cost is exactly that of the path that length, span and presortedness select. |
| `Sorts.SameResult` | playground/adaptive_sort_demo/sort_benchmark.py:106-125 | Hybrid sort and the merge-sort baseline return the same list for every input and every setting. |
| `SortSpec.SortIsUnique` | playground/adaptive_sort_demo/sort_benchmark.py:106-125 | A list has only one sorted arrangement, so any two of these sorts agree. |
| `Supervisor.KeptExactlyWhen` | src/autoresearch/runtime.ts:548-632 | A candidate is kept if and only if it is ready, its evaluation passed, and the policy is pass_only or both scores exist and the new one is higher. |
| `Supervisor.FailsExactlyWhen` | src/autoresearch/runtime.ts:1085-1131 | A call gets an error entry exactly when the candidate file cannot be read, its base is not the last kept commit, or it is ready and its commit is missing, does not resolve or is not HEAD. |
| `Supervisor.UnusableFails` | src/autoresearch/runtime.ts:1133-1170 | Then it records the reason, base and commit as given, keeps nothing, and the run has failed. |
| `Supervisor.ReadyCandidateIsJudged` | src/autoresearch/runtime.ts:1244-1284 | Any other ready candidate is recorded with the evaluation and the commit HEAD was at, and is kept exactly when the evaluation passed and, unless the policy is pass_only, its score is above the kept one; it throws exactly when it is not kept and the worktree cannot be reset, and then records nothing. |
| `Supervisor.NotKeptIs` | src/autoresearch/runtime.ts:607-631 | One that is not kept is ambiguous if it passed and one of the scores is missing, and discarded otherwise. |
| `Supervisor.OtherStatusIsRecorded` | src/autoresearch/runtime.ts:1172-1221 | Decision, entry and run status for abort, noop and both kinds of interruption, none of which keeps anything. |
| `Supervisor.RowIs` | src/autoresearch/runtime.ts:357-396 | A results row has the first seven characters of the commit and the fields of its entry. |
| `Supervisor.BaselineIs` | src/autoresearch/runtime.ts:784-817 | The run starts with one baseline entry and row; the score of a passing baseline is kept, any other is not. |
| `Supervisor.StopIs` | src/autoresearch/runtime.ts:1286-1296 | A stop ends a run that is recorded as running and changes no other. |
| `Supervisor.Supervisor.RecordIteration` | src/autoresearch/runtime.ts:357-396 | One results row and one ledger entry with the same iteration and status are appended and nothing else changes. |
| `Supervisor.Supervisor.FinalizeRun` | src/autoresearch/runtime.ts:1058-1074 | Status and stop reason are set and the manifest saved. |
| `Supervisor.Supervisor.FailIteration` | src/autoresearch/runtime.ts:1133-1170 | An error row and entry under the last kept commit, then a failed, saved run. |
| `Supervisor.Supervisor.RecordNonEvaluated` | src/autoresearch/runtime.ts:1172-1221 | Abort stops the run, a clean interruption and a noop record and go on, a dirty interruption fails the run without an entry. |
| `Supervisor.Supervisor.ResetToLastKeptCommit` | src/autoresearch/runtime.ts:1076-1079 | HEAD moves to the last kept commit exactly when the worktree is clean and git succeeds. |
| `Supervisor.Supervisor.ProcessCandidate` | src/autoresearch/runtime.ts:1223-1284 | The whole call, every branch and exception included, has the effect Process gives it. |
| `Supervisor.Supervisor.ProcessValidated` | src/autoresearch/runtime.ts:1244-1284 | The part behind validation: evaluate, keep or reset, record, save; a refused reset leaves everything unrecorded. |
| `Supervisor.StepRecords` | src/autoresearch/runtime.ts:1223-1284 | Every step either records nothing or appends exactly one row and one entry that match. |
| `Supervisor.StepKeepsBookkeeping` | src/autoresearch/runtime.ts:1223-1284 | Every step, also a failing or interrupted one, keeps table, order and commit chain. |
| `Supervisor.BookkeepingInEveryRun` | src/autoresearch/runtime.ts:784-817 | In every run from the baseline on: the table is the iteration/status projection of the ledger, iterations strictly increase, and the kept commits form a chain that ends in the manifest's last kept commit. |
| `Supervisor.HeadIsLastKept` | src/autoresearch/runtime.ts:1251-1272 | After an evaluated candidate that returns normally HEAD is the last kept commit, wherever session or evaluator had moved it. |
| `Supervisor.ScoresInEveryRun` | src/autoresearch/runtime.ts:607-631 | Under score_improvement every run keeps the score invariant the next two rows read off. |
| `Supervisor.KeptScoreIsBest` | src/autoresearch/runtime.ts:784-817 | If the baseline passed with a score, the kept score is the maximum of all passing scores in the ledger; if not, nothing is ever kept. |
| `Supervisor.ScoreRisesAtKeep` | src/autoresearch/runtime.ts:616-623 | Score and commit change only at a keep, and there the score strictly rises. |
| `Supervisor.PassOnlyInEveryRun` | src/autoresearch/runtime.ts:598-606 | Under pass_only every passing candidate is kept and the kept score is the latest passing one, which may be lower. |
| `Supervisor.ResumeAfterException` | src/autoresearch/runtime.ts:1257-1259 | A refused or failed reset leaves ledger, table and saved manifest untouched, so resuming from disk is as if the call had not been made, HEAD apart. |
| `Cleanup.HasAncestorMatching` | src/cli/cleanup.ts:214-231 | True exactly when some proper ancestor matches, and it ends on cyclic tables. |
| `Cleanup.ResolveProtectedRoot` | src/cli/cleanup.ts:233-255 | The nearest Codex process from the current one upwards, or the current one if there is none, whenever the walk ends at all. |
| `Cleanup.ProtectedRootIsNearestCodex` | src/cli/cleanup.ts:233-255 | In terms of ancestors: the root is the Codex process at or above the current one with only others, above init, between them; the current one if there is none. |
| `Cleanup.EndsExactlyWhen` | src/cli/cleanup.ts:245-252 | The walk ends if and only if it is over one step after as many as there are processes, and if and only if it comes to no pid twice. |
| `Cleanup.CycleHasNoCodex` | src/cli/cleanup.ts:245-252 | A walk that does not end goes round for ever among listed processes above init of which none is Codex. |
| `Cleanup.AcyclicWalkEnds` | src/cli/cleanup.ts:245-252 | The walk ends for parent links without cycles other than self-loops. |
| `Cleanup.CycleNeverEnds` | src/cli/cleanup.ts:246-252 | On two processes that are each other's parent, neither of them Codex, the walk never ends. |
| `Cleanup.ChildrenByPid` | src/cli/cleanup.ts:261-267 | The table lists exactly the children of every pid. |
| `Cleanup.Descendants` | src/cli/cleanup.ts:270-282 | The worklist finds exactly the pids reachable by child links, and ends on cyclic links too. |
| `Cleanup.BuildProtectedPidSet` | src/cli/cleanup.ts:257-283 | The protected set is exactly the root's descendants and the root. |
| `Cleanup.ProtectedRootIsUnique` | src/cli/cleanup.ts:233-255 | There is only one pid that meets the description of the root. |
| `Cleanup.ProtectedSetIsUnique` | src/cli/cleanup.ts:257-283 | ... and so only one protected set. |
| `CleanupSelection.FindDuplicateSiblings` | src/cli/cleanup.ts:285-312 | Exactly the servers with a sibling of the same entry point and a larger pid, in strictly ascending order. |
| `CleanupSelection.GroupSiblings` | src/cli/cleanup.ts:288-297 | The groups partition the MCP servers by parent and entry point. |
| `CleanupSelection.FindOrphans` | src/cli/cleanup.ts:323-331 | Exactly the servers outside the protected tree that are no duplicates, each with its reason. |
| `CleanupSelection.FindCleanupCandidates` | src/cli/cleanup.ts:314-335 | The candidates are, strictly ascending and so distinct, exactly the MCP servers that are duplicates or unprotected, never the current process, each with its reason. |
| `CleanupSelection.GroupKeepsOne` | src/cli/cleanup.ts:299-309 | A group of servers under a protected parent keeps its largest pid. |
| `CleanupSelection.FindLaunchSafeCandidates` | src/cli/cleanup.ts:337-358 | Exactly the candidates that hang off init or have neither a Codex nor an OMX launcher above them, on cyclic tables too. |
| `CleanupSignals.WaitForExit` | src/cli/cleanup.ts:371-396 | The result is exactly the pids never seen dead, each last seen alive; with somebody left the clock has moved by the timeout, and it never sleeps with nobody left. |
| `CleanupSignals.Select` | src/cli/cleanup.ts:471-473 | Exactly the candidates that are still running. |
| `CleanupSignals.SelectKeepsOrder` | src/cli/cleanup.ts:471-473 | ... in candidate order. |
| `CleanupSignals.EndProcesses` | src/cli/cleanup.ts:453-513 | Report and log agree. Phase one: SIGTERM once to everybody in order, then waiting, at whose end the survivors were last seen alive, five seconds having passed, and the others seen dead. Phase two: SIGKILL in order to exactly those survivors, then waiting a tenth of a second for whom it leaves. The counts are those of this partition. Without a report, a refused signal broke off one of the phases. |
| `CleanupSignals.AccountedOverall` | src/cli/cleanup.ts:453-513 | Over the whole log: these are the only signals, the failed were last seen alive, in the second phase, and every other candidate was seen dead. |
| `Shell.NulIsRejected` | src/cli/index.ts:5358-5360 | The POSIX reader reads no text that holds a NUL. |
| `ShellQuoting.ReadQuoted` | src/cli/index.ts:5358-5360 | A quoted argument adds exactly its value to the word being read, wherever it stands, quotes and newlines included. |
| `ShellQuoting.DoubleQuotedReadsBack` | src/cli/index.ts:3410-3412 | An escaped value in double quotes is read as the value, if and only if it holds no NUL. |
| `ShellQuoting.ShellSplitsBack` | src/cli/index.ts:5291-5293 | Word splitting undoes buildTmuxShellCommand, if and only if no argument holds a NUL. |
| `ShellQuoting.NestedCommandReadsBack` | src/cli/index.ts:5336-5356 | With rc sourcing off, splitting gives the user's shell if allowed and /bin/sh otherwise, -c and a text, and splitting that text gives exec with the original command and arguments, if and only if none of them holds a NUL. |
| `ShellQuoting.ShellIsTheUsers` | src/cli/index.ts:5351-5353 | The shell run is the user's, trimmed, if it is an allowed one, and /bin/sh otherwise. |
| `ShellQuoting.RcFileIs` | src/cli/index.ts:5343-5350 | With rc sourcing on the rc file of a zsh or a bash is sourced, and none for any other shell. |
| `ShellQuoting.SerializeDetachedSessionParentEnv` | src/cli/index.ts:3894-3906 | Read by the shell, the text is one export per NUL-free variable with a valid name, in key order, with its original value. |
| `ShellQuoting.NameExactlyWhen` | src/cli/index.ts:3898-3899 | A variable is exported only under a name of letters, digits and underscores that does not start with a digit. |
| `ShellQuoting.ExportedKeysAreOrdered` | src/cli/index.ts:3894-3902 | From the names of the environment in order, the exported variables come in that order and are exactly the valid, NUL-free ones; in a strict order they are sorted and each there once. |
| `ShellQuoting.FileReadsBack` | src/cli/index.ts:3903-3905 | Any list of printed lines reads back as the exports it prints. |
| `ShellQuoting.SourcingRestores` | src/cli/index.ts:3894-3906 | Sourcing the file restores every exported variable and touches no other name. |
| `Rotation.PlanCoversAvailable` | src/auth/rotation.ts:16-23 | Except in manual mode the plan holds exactly the available slots. |
| `Rotation.ManualPlanIsOneSlot` | src/auth/rotation.ts:15 | Manual mode runs the current slot, or else the first there is. |
| `Rotation.PriorityKeepsOrder` | src/auth/rotation.ts:16-20 | Priority mode lists the available slots of the priority list first, in the configured order, then the others in theirs. |
| `Rotation.RoundRobinKeepsCycle` | src/auth/rotation.ts:21-23 | Round robin starts at the current slot and keeps the cyclic order. |
| `Rotation.NextSlotAfter` | src/auth/rotation.ts:26-34 | The first slot after the current one, round the order, that is not exhausted; none if and only if all are. |
| `Rotation.NextBehindCurrent` | src/auth/rotation.ts:26-34 | It is the first one not exhausted among those behind the current slot and round to it. |
| `Rotation.NextFromTheStart` | src/auth/rotation.ts:26-34 | Without a current slot in the order it is the first one not exhausted. |
| `Hotswap.AuthStore.Upsert` | src/auth/storage.ts:84-95 | The record of that name is updated or made, every other record is as before, and the list stays sorted with distinct names. |
| `Hotswap.AuthStore.UseSlot` | src/auth/storage.ts:120-140 | The slot becomes current and loses its exhausted mark, nothing is written when its file cannot be read, and no other record changes. |
| `Hotswap.AuthStore.MarkQuota` | src/auth/storage.ts:142-154 | The slot gets its exhausted mark and quota time, and no other record changes. |
| `Hotswap.NextIsNext` | src/auth/rotation.ts:28-32 | The slot the scan finds is the next distinct slot of the plan that has not been run. |
| `Hotswap.RunHotswap` | src/auth/hotswap.ts:153-213 | Whatever Codex does: nothing is run exactly when there is no slot or the first cannot be read; otherwise the slots run are a prefix of the plan without repeats, with the run going on after each but the last and ending after the last as plan and attempt settle. The last slot is current and marked if it hit the quota, the others run are marked, no other record is touched, and "all exhausted" means the whole plan. |
| `Hotswap.EndIsDetermined` | src/auth/hotswap.ts:173-210 | After an attempt exactly one thing happens: success, failure of the child, quota in manual mode, no slot left, no session to resume, a slot that cannot be read, or going on. |
| `Hotswap.RunSlot` | src/auth/hotswap.ts:173-210 | One round of the loop ends or goes on as these conditions say, and marks its slot exactly if it hit the quota. |
| `Hotswap.SwitchTo` | src/auth/storage.ts:120-140 | Switching succeeds exactly when the slot can be read, and otherwise changes nothing. |
| `Rotation.DedupIsDistinct` | src/auth/hotswap.ts:173-210 | The plan without repeats holds the plan's slots once each, so no slot is run twice. |
| `PluginConfig.UpsertEnabled` | src/cli/plugin-marketplace.ts:505-549 | The splicing loop computes Upserted: the first table of the header gets its first key line set and the others dropped, or a key line at its head, or a new table at the end. |
| `PluginConfig.SetKeyLines` | src/cli/plugin-marketplace.ts:530-546 | The loop over one table's body changes that body to NewBody and nothing else. |
| `PluginConfig.FindEnd` | src/cli/plugin-marketplace.ts:522-528 | A table ends at the next header line or the end of the file. |
| `PluginConfig.StripRegistrations` | src/cli/plugin-marketplace.ts:487-501 | The loop over the lines removes the first table of every server in turn. |
| `PluginConfigLaws.NewBodyFacts` | src/cli/plugin-marketplace.ts:530-546 | The new body has exactly the key line `enabled = true`, otherwise the old lines in order, and is the old body if that was already so. |
| `PluginConfigLaws.EnablingEnablesAll` | src/cli/plugin-marketplace.ts:599-610 | Afterwards the first table of every server has exactly one key line, `enabled = true`, and tables were made only for servers that had none. |
| `PluginConfigLaws.EnablingTwice` | src/cli/plugin-marketplace.ts:599-610 | Enabling twice is enabling once. |
| `PluginConfigLaws.StripRemovesAllWhen` | src/cli/plugin-marketplace.ts:486-503 | Stripping leaves no registration if and only if no server is registered twice, and enabling first makes no difference. |
| `PluginConfigFrame.EnablingKeepsLines` | src/cli/plugin-marketplace.ts:505-549 | When every server has a table, every line but those tables' key lines stays, in order, up to the newlines at the end of the file. |
| `PluginConfigFrame.EnablingKeepsWords` | src/cli/plugin-marketplace.ts:599-610 | In general every non-blank line that is not such a key line stays, in order, and the headers of the missing servers follow in order. |
| `PluginConfigFrame.StripIsOutside` | src/cli/plugin-marketplace.ts:486-503 | With no server registered twice, stripping leaves exactly the lines outside the servers' tables. |
| `PluginConfigFrame.StrippingUndoesEnabling` | src/cli/plugin-marketplace.ts:590-611 | Enabling and then stripping gives, up to white space at the end, what stripping at once gives. |
| `PluginConfigText.StripRegistrations` | src/cli/plugin-marketplace.ts:486-503 | On texts, collapsing of blank lines and trimEnd included, the code computes StripText. |
| `PluginConfigText.UpsertTableKey` | src/cli/plugin-marketplace.ts:505-549 | On texts the code computes UpsertText. |
| `PluginConfigText.UpsertEnablement` | src/cli/plugin-marketplace.ts:590-611 | Enabling upserts every server in turn; disabling gives the stripped text with a final newline, or nothing if nothing is left, or the text as it was. |
| `PluginConfigText.StripTextRemovesAllWhen` | src/cli/plugin-marketplace.ts:486-503 | The stripped text registers no server if and only if no server was registered twice. |
| `PluginConfigText.UpsertTextIsOnLines` | src/cli/plugin-marketplace.ts:513-548 | On LF texts, trimEnd and the final newline included, the upsert is the upsert on the lines. |
| `PluginConfigText.EnablingTextTwice` | src/cli/plugin-marketplace.ts:599-610 | Enabling a text twice gives the text of enabling it once, to the character. |
| `PluginConfigText.StrippingTextUndoesEnabling` | src/cli/plugin-marketplace.ts:590-611 | Stripping an enabled text gives the text that stripping the original gives, blank-line collapsing and trimEnd included, if no server is registered twice. |
| `PluginConfigText.CollapseOfTrimmed` | src/cli/plugin-marketplace.ts:502 | White space at the end of the text does not show after collapsing and trimming. |
| `TomlLines.TomlIsSound` | src/cli/plugin-marketplace.ts:423-425 | The concrete line patterns have the properties the laws rest on: keys are no headers, a matching line is a header, trimming a line's end does not change its kind. |
| `TomlLines.KeyExactlyWhen` | src/cli/plugin-marketplace.ts:532 | A key line is `enabled` and an equals sign with nothing but white space before and between them. |
| `TomlLines.HeaderExactlyWhen` | src/cli/plugin-marketplace.ts:423-425 | A header line starts, behind white space, with a bracket. |
| `PluginConfigLaws.ServerHeadersAreProper` | src/cli/plugin-marketplace.ts:473-477 | Distinct servers have distinct, well-formed header lines. |
| `Slug.SlugIsProper` | src/autoresearch/contracts.ts:67-74 | Every slug is non-empty, at most 48 characters, letters, digits and single dashes, and does not start with a dash. |
| `Slug.SlugIsItsWords` | src/autoresearch/contracts.ts:67-74 | For any text: the slug is the words of the text in lower case, hyphenated and cut at 48 characters, whatever stands between and around them. |
| `Slug.NoWordsIsMission` | src/autoresearch/contracts.ts:73 | A text without a letter or digit gives `mission`. |
| `Slug.KeptExactlyWhen` | src/autoresearch/contracts.ts:67-74 | Slugifying leaves a text alone if and only if it is such a slug and does not end in a dash. |
| `Slug.IdempotentExactlyWhen` | src/autoresearch/contracts.ts:67-74 | Slugifying twice differs from slugifying once if and only if the dashed text is longer than 48 and its 48th character is a dash. |
| `Slug.SecondSlug` | src/autoresearch/contracts.ts:73 | In that case the second slug is the first without its last character. |
| `Slug.ThirdSlug` | src/autoresearch/contracts.ts:67-74 | Slugifying a third time changes nothing more, for any text. |
| `Slug.DashCanBeLeft` | src/autoresearch/contracts.ts:73 | A text of 47 letters, a space and a letter is slugified differently the second time. |
| `Sandbox.ParseFrontmatter` | src/autoresearch/contracts.ts:93-133 | The loop computes the fold ParseLines, errors included, and never gives the invalid-section error. |
| `Sandbox.OpensExactlyWhen` | src/autoresearch/contracts.ts:102-107 | A line opens a section exactly when it is a key and a colon. |
| `Sandbox.SetsExactlyWhen` | src/autoresearch/contracts.ts:109-115 | A line sets a value exactly when it is a key, a colon, white space and a text; the value is the text without a quote at either end. |
| `Sandbox.DocumentIsRead` | src/autoresearch/contracts.ts:93-133 | Any frontmatter made of comments, settings and sections is read as what it says, the last setting of a key counting. |
| `Sandbox.BadLineStops` | src/autoresearch/contracts.ts:109-119 | A line that is neither, or a setting indented under no section, is the error. |
| `Sandbox.FrontmatterIsExactlyWhen` | src/autoresearch/contracts.ts:82-91 | In any text: the frontmatter goes from a first line of dashes to the first later line, from the third on, that starts with dashes, line ends taken off; the trimmed rest is the body. |
| `Sandbox.ContractIsExactlyWhen` | src/autoresearch/contracts.ts:135-184 | A contract comes out exactly when the evaluator section has a command, the format json and, if any, one of the two policies. |
| `Sandbox.ContractIsRefusedWhen` | src/autoresearch/contracts.ts:147-174 | Which error a contract that does not come out is refused with, in the order of the checks. |
| `Sandbox.FindsFrontmatter` | src/autoresearch/contracts.ts:82-91 | The search returns exactly the lines between two rows of dashes and the empty body behind them. |
| `Sandbox.SandboxReadsBack` | src/autoresearch/contracts.ts:147-184 | For any command at all: what the printed sandbox file is parsed as, or that it is refused for want of a command. |
| `Sandbox.SandboxRoundTrip` | src/cli/autoresearch-intake.ts:122-125 | Command and policy survive printing and parsing if and only if the command is non-empty, trimmed, free of tabs and line breaks and has no quote at either end. |
| `Draft.SectionComesBack` | src/cli/autoresearch-intake.ts:73-81 | The section found for a title is the trimmed body printed under it. |
| `Draft.SeedIsListed` | src/cli/autoresearch-intake.ts:152-155 | The seed is printed as its texts, trimmed, with (none) for what is not given. |
| `Draft.SectionIsWhatFollows` | src/cli/autoresearch-intake.ts:73-81 | In any text: a section goes from the first heading that spells its title, in whatever case, to the next heading. |
| `Draft.HeadingMayFollowLater` | src/cli/autoresearch-intake.ts:73-76 | The title may stand on a line below the hashes, with only blank lines between. |
| `Draft.NoSectionIsEmpty` | src/cli/autoresearch-intake.ts:76-77 | Without such a heading the section is empty. |
| `Draft.SectionIsCutShort` | src/cli/autoresearch-intake.ts:79-80 | A body with a heading line in it comes back shorter. |
| `Draft.ReadinessComesBack` | src/cli/autoresearch-intake.ts:83-100 | Readiness and blocked reasons come back from the printed section. |
| `Draft.ReadinessIs` | src/cli/autoresearch-intake.ts:83-100 | Of any readiness section: it is ready exactly if it announces it, and otherwise blocked by the texts of its bullets, or for being missing. |
| `Draft.AssembledIs` | src/cli/autoresearch-intake.ts:276-313 | What any draft's sections are put together as, or why they are refused. |
| `Draft.DraftRoundTrip` | src/cli/autoresearch-intake.ts:276-313 | Topic, command, policy, slug, readiness and blocked reasons come back from the printed draft if and only if topic and command contain no heading line and the command is not just quotes and spaces. |
| `Autopilot.NamesAreNormal` | src/autopilot/fsm.ts:31-48 | Every phase's name is read back as that phase. |
| `Autopilot.PhaseIsReadExactlyWhen` | src/autopilot/fsm.ts:31-48 | A phase is read from exactly the texts that spell one of its words, older names included, in any case, with underscores or dashes, with or without the prefix. |
| `Autopilot.PhaseIsDerivedExactlyWhen` | src/autopilot/fsm.ts:50-68 | An active state is in the phase its current phase says or, while waiting for the user, the one it was asked from; any other state is in none. |
| `Autopilot.SucceedsExactlyWhen` | src/autopilot/completion-gate.ts:35-46 | A state is a success exactly when something says so and nothing says it failed, was cancelled, is blocked or waits. |
| `Autopilot.EvidenceIsCleanExactlyWhen` | src/autopilot/completion-gate.ts:89-126 | Evidence is clean exactly when a review says it approves and is clear, a QA says it passes, both by the stated fields and places, and no place is given in both. |
| `Autopilot.CleanEvidenceIsTwofold` | src/autopilot/completion-gate.ts:116-126 | Clean evidence names two different, non-empty places, one of the review and one of the QA. |
| `Autopilot.AcceptedExactlyWhen` | src/autopilot/completion-gate.ts:128-166 | A step to success is accepted from ultraqa with clean evidence and from no other known phase (an inactive or, if allowed, unknown one apart); any other step is accepted unless it goes from implementation straight to ultraqa. |
| `Autopilot.SuccessComesFromUltraqa` | src/autopilot/completion-gate.ts:128-166 | In every run of accepted steps from active states success is entered from ultraqa. |
| `Autopilot.UltraqaOpensExactlyWhen` | src/autopilot/completion-gate.ts:162-164 | From ultraqa a success is let through exactly when such a review and QA vouch for it; with any one of their conditions failing it is refused. |
| `Autopilot.SuccessHasCleanEvidence` | src/autopilot/completion-gate.ts:116-126 | ... and with an approving review and a passing QA, in two different places. |
| `Autopilot.ReviewStandsBetween` | src/autopilot/completion-gate.ts:153-161 | Between any implementation phase and that success lies a state that is neither implementation nor ultraqa. |
| `Autopilot.AnyPhaseOpensTheGate` | src/autopilot/completion-gate.ts:156-158 | Any such state will do, not only code review: a run through it is accepted if and only if the evidence is clean. |
| `Autopilot.GateOpensWithoutReviewPhase` | src/autopilot/completion-gate.ts:128-166 | Such runs of states exist, with clean evidence: from any implementation phase back to ralplan or the deep interview, on to ultraqa and to success, never in code review. |
| `Goal.GoalStore.CreateGoal` | src/autoresearch/goal.ts:138-170 | A refused call changes nothing; otherwise mission and ledger of the directory of the slug are new and an old completion artifact stays. |
| `Goal.GoalStore.BuildHandoff` | src/autoresearch/goal.ts:308-315 | A created goal becomes in progress, any other keeps its status, and its ledger grows by one event. |
| `Goal.GoalStore.RecordVerdict` | src/autoresearch/goal.ts:195-230 | A complete goal refuses; otherwise status, artifact and ledger all get the verdict. |
| `Goal.GoalStore.CompleteGoal` | src/autoresearch/goal.ts:232-258 | Refused without a passing artifact in the directory of the slug of the mission's slug, or without a reconciled snapshot; otherwise complete, with its event. |
| `Goal.RefusedExactlyWhen` | src/autoresearch/goal.ts:138-258 | Exactly when each operation is refused. |
| `Goal.CreationLeaves` | src/autoresearch/goal.ts:149-168 | What a creation leaves: a new mission and ledger, and the old completion artifact. |
| `Goal.OperationLeaves` | src/autoresearch/goal.ts:195-258 | Every other operation keeps slug, topic and rubric and adds one ledger entry with the status it leads to. |
| `Goal.OperationChanges` | src/autoresearch/goal.ts:195-258 | Status, artifact, times and event of a handoff, a verdict and a completion. |
| `Goal.StepAt` | src/autoresearch/goal.ts:128-136 | The writes of an operation, each addressed by the slug the mission carries, change the directory the operation reads the mission from as After says, and no other; every mission stays where its slug says. |
| `Goal.FinishIsOwnExactlyWhen` | src/autoresearch/goal.ts:232-237 | In all runs `complete` under a text goes by the artifact of the goal it completes, if and only if the text is not cut behind a dash. |
| `Goal.AgreesExactlyWhen` | src/autoresearch/goal.ts:138-258 | In all runs without --force the last validation in the ledger, the artifact and a passed, failed, blocked or complete status of the goal of a text agree, if and only if the text is not cut behind a dash. |
| `Goal.AgreesInEveryRun` | src/autoresearch/goal.ts:138-258 | The agreement of one directory whose name slugifying leaves alone, in every run without --force, whatever is done to other goals in it. |
| `Goal.CompletedOnlyByFinish` | src/autoresearch/goal.ts:232-258 | A goal becomes complete only by `complete` addressed to it, with a reconciled snapshot and a pass in the directory of its name's slug. |
| `Goal.CompletedOnlyAfterPass` | src/autoresearch/goal.ts:232-258 | Where that is its own directory, it was in status passed, with the last validation of its ledger a pass. |
| `Goal.PassedGoalIsRefused` | src/autoresearch/goal.ts:232-237 | For every text cut behind a dash: a goal created and passed under it cannot be completed under it; the call changes nothing. |
| `Goal.BorrowedPassCompletes` | src/autoresearch/goal.ts:232-237 | For every such text: a new goal beside a passed one of the name without the dash is completed on that one's verdict, with no artifact and no validation of its own. |
| `Goal.CompleteIsAbsorbing` | src/autoresearch/goal.ts:199-202 | Once complete, always complete: no unforced call changes verdict, topic or rubric again, and the ledger only grows. |
| `Goal.ForcedCreationAgreesWhen` | src/autoresearch/goal.ts:164-168 | Forced re-creation keeps the agreement if and only if there is no completion artifact to leave behind. |
| `Goal.ForcedCreationKeepsOldPass` | src/autoresearch/goal.ts:164-168 | With a passing artifact left where `complete` looks, the new goal completes without a validation of its own. |
| `Goal.PassedGoalExists` | src/autoresearch/goal.ts:195-230 | Under any text a goal can be created and passed; its directory then agrees and all others are empty. |
| `Goal.CreatedGoalIsFoundWhen` | src/autoresearch/goal.ts:138-186 | A new goal is found under the text it was created with; under its own slug it is found if and only if that text is not cut behind a dash, and otherwise what is found is whatever bears the name without the dash. |

## Left out

- MkdirLock.RetryLoopIsBounded: the pause between attempts has no duration in the model; the 30 s age is the step GrowOld.
- MkdirLock.AttemptsCounted: in both source loops the catch also surrounds run(), so an EEXIST thrown inside the critical section is retried as a busy lock; run() is taken not to throw it.
- MkdirLock.MutualExclusion: interleavings between looking at a stale lock and removing it are outside the model, as the assumption says.
- LeaseProtocol.LeaseIsSafeWhenLockIsFree: leases of two roots on one tmux server, each with its own file, are outside the model.
- ExtendedKeysLease.TmuxServer.Acquire: lease handles, socket names, start ticks and legacy string holders are one abstract liveness answer.
- Supervisor.Supervisor.ProcessCandidate: notes, timestamps, the instructions file and failing file or git reads are not modelled; scores are exact reals, so NaN is not covered.
- Supervisor.Supervisor.FinalizeRun: mode state and run activation belong to modules that are not part of this model.
- Sorts.InsertionSort: the counters are unbounded, as Python's integers are; the weighted score in floating point is not modelled.
- Cleanup.ResolveProtectedRoot: has no result for the tables on which the source loops forever, because the method must end; Cleanup.EndsExactlyWhen says which these are.
- CleanupSelection.FindCleanupCandidates: the regular expressions on command lines are verdicts in the Command record.
- CleanupSignals.EndProcesses: dry run, messages and process listing; an answer of the operating system that throws ends the call.
- ShellQuoting.SerializeDetachedSessionParentEnv: sorting the keys and non-string values are inputs.
- ShellQuoting.NestedCommandReadsBack: with rc sourcing on the inner shell first reads the user's rc file (RcFileIs), whose effect the model cannot know.
- Shell.Read: expansions, here-documents and operators other than newline and the word rules used by the printers are not read; text that would need them is rejected.
- Hotswap.RunHotswap: copying auth files, argument building, session search and the quota patterns are inputs; hooks before and after the run are left out.
- Hotswap.AuthStore.Upsert: slot name validation happens before the model starts.
- PluginConfig.UpsertEnabled: CRLF input, which the source rewrites to LF, and the general key and value parameters, always `enabled` and true here, are not modelled.
- PluginConfigText.UpsertEnablement: the table headers come in as a list without line breaks; that distinct servers have distinct, well-formed headers is PluginConfigLaws.ServerHeadersAreProper.
- Sandbox.SandboxReadsBack: ASCII white space and line breaks only; keys that collide with JavaScript object prototypes are not modelled.
- Draft.DraftRoundTrip: file reading and writing, the persisted JSON result and the placeholder patterns that decide launch readiness; a blocked reason must be one trimmed line that does not itself say "Launch-ready: yes".
- Slug.SlugIsProper: Unicode case folding.
- Autopilot.AcceptedExactlyWhen: run and lifecycle outcomes come from src/runtime/run-outcome.ts, which is not part of this model; they are fields of the state.
- Goal.GoalStore.CompleteGoal: snapshot reconciliation is one yes-or-no input; a crash between two file writes is not modelled.
- Goal.AgreesInEveryRun: runs start without goals; files edited by hand, such as a mission that names another directory, are outside the model.
- Goal.GoalStore.BuildHandoff: the printed handoff text.
- Diagnostics (`doctor`), adapters, question prompts, help texts, argument parsers, asset downloads and Codex-home mirroring: I/O and reporting.
- The deep-interview and ralplan gates, secret redaction and catalog checks: field-by-field checks that would only add easy members.
- The Bayesian-optimisation and Kaggle playgrounds: numeric libraries and floating-point heuristics.
