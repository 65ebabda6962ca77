# What git-sync-core guarantees

git-sync-core copies git repositories between hosting platforms. These Dafny modules model the parts
of it that have to be right under concurrency, failure and repetition, and prove what they are for.

| part | modules |
|---|---|
| Concurrency guard: Redis locks with a TTL and an owner's value, a semaphore of expiring slots, a watchdog that renews both; the in-process guard; the cron lock | `RedisStore`, `RedisLock`, `GuardSpec`, `GuardMachine`, `GuardOwnership`, `GuardTiming`, `GuardTicks`, `LocalGuard`, `CronLock` |
| Mirror publishing: the rewriting of a module path, the synthesis of a git tree from rewritten files, the check of the remote tag and the push | `ModulePath`, `ModulePathStable`, `GitObjects`, `TreeRewrite`, `Materialize`, `TreeMeaning`, `TreeFiles`, `LinkSafety`, `Names`, `Publish`, `PublishMeaning`, `PublishSafety`, `PublishConvergence`, `PublishMain` |
| Webhooks: throttling with a pruned map, de-duplication and the life of an event | `Throttle`, `WebhookIntake` |
| Runs: the executor and its reused work directory, the stored list of tags, the status of a publication run | `Executor`, `TagList`, `TagRoundTrip`, `RunStatus` |
| Reconciliation: paging, merging a platform's repositories into the table, escaping for LIKE | `RepoPaging`, `PlatformSync`, `PlatformFixpoint`, `PlatformRows`, `LikePattern` |

## How it is modelled

Whatever the code changes in place is a field of a class, and the method that changes it is proved
against a function of the old state: `RedisLock`, `Semaphore`, `RedisGuard`, `Guard`, `Builder`,
`Disk`, `Mirror`, `Throttle`, `Service`, `Executor`, `MirrorRun`, `Store`. The properties are lemmas
about those functions.

Where goroutines or processes interleave, a state machine has one atomic step per Redis command,
channel operation, map operation or database call, and the results are about every run of it.
The methods of `RedisGuard`, `Guard` and `Service` are proved to take exactly such steps. Two machines,
`GuardMachine` (under its timing) and `LocalGuard`, refine one abstract guard, `GuardSpec`.

What lies outside is a parameter of the call: clock readings, whether a Redis command ran and whether
its answer arrived, the results of git, of the database and of the platforms' interfaces, branch
filters, the rewriting of a host name, the compile gate. They are unrestricted unless a lemma says so.

- Times are integers, milliseconds, and tokens (lock values, slot identifiers) are numbers that are
  drawn once. One execution's lock value and slot identifier are the same number.
- A git hash is the digest of one object, so equal hashes mean equal objects.
- Bytes are integers below 256; text is a sequence of characters.

## Where a property needs a condition

Some properties hold only under a condition. These are proved with the condition and with what
happens without it:

- Exclusion by the Redis guard needs a good watchdog tick in every 30 s. `GuardTicks.PromptTicksRenewInTime`
  derives that from the tick schedule, in which only the first good tick is counted from the reading of
  the clock for the slot; `GuardTicks.OneTtlIsTooLate` is a run in which a tick is exactly 30 s old and
  two executions hold one task.
- A command may land after its client has given it up. Ownership, the bound of the semaphore and the
  finality of unlocking and freeing hold however late that is. Exclusion holds if no renewal of a slot
  lands so late that a later tick has been good in between: such a renewal leaves the slot shorter than
  promised exactly if its reading is older than that tick (`GuardTicks.LateRenewKeepsSlotExactlyWhen`).
- A failed `Acquire` of the Redis guard leaves a slot behind exactly when the server granted it and
  either that answer or the rollback got lost (`RedisLock.RedisGuard.Acquire`).
- One instance per cron tick needs a spread below 10 s: of any number of answered fires the first alone
  runs if and only if the last lands less than 10 s after it (`CronLock.SpreadIsExact`).
- The rewriting regular expression consumes the character after a match. It does what is intended on
  all texts if and only if the source path begins with a character of the class, or source and
  target are equal (`ModulePath.RewriteIsIntended`).
- Rewriting twice is rewriting once, on all texts, if and only if the paths are separate (or equal): the
  target holds no bounded source, does not end in the beginning of a source that goes on with a separator,
  and is not run into by kept bytes in front of it (`ModulePathStable.Separate`, a finite test of the two
  paths, and `ModulePathStable.IdempotentExactlyWhen`). Moving `example.com/org` to `github.com/org` is
  separate; extending a source by a path element such as `/v2` is not. The same condition is exact for
  whole trees (`TreeMeaning.TreesSettleExactlyWhen`).
- A publication changes a published tree if and only if it pushes another tree to that tag and was
  either allowed to overwrite or misled by an error text with the word "empty" in it
  (`PublishSafety.TreeChangesExactlyWhen`).
- Pruning the trigger times after an hour is invisible if and only if no rule's interval is longer
  than an hour (`Throttle.AnHourIsTheLimit`).
- Tasks of different repositories do not throttle one another if no repository's key holds a colon;
  `a:b` with task `c` and `a` with task `b:c` do (`Throttle.KeysTellApart`, `Throttle.ColonsMixKeysUp`).
- A list of tags survives being stored if and only if no tag is empty, holds a comma or a character
  that JSON escapes, and the list neither begins nor ends with white space (`TagRoundTrip.RoundTripsExactlyWhen`).
- Platform synchronization reaches a fixpoint, after at most two rounds, if and only if repositories
  listed under one key agree on what they ask for: addresses, owner and path, and name and branch where
  both give one (`PlatformFixpoint.TwoSyncsSettleExactlyWhen`). One round is enough exactly if besides
  the first repository under each new key lacks nothing that a later one gives
  (`PlatformFixpoint.OneSyncIsEnough`), as with distinct keys. If they disagree, every synchronization
  writes (`PlatformFixpoint.TwinsNeverSettle`).
- Once a batch has been published, no rerun moves any tag, but one that is interrupted may move `main`
  back to an earlier tag: `main` stays if and only if the last push to move it pushed the same commit
  (`PublishMain.MainStaysExactlyWhen`, `PublishMain.InterruptedRerunMovesMain`).

One place differs from what the code says about itself: comments and the configuration speak of up to
`RetryCount` pushes (`executor/executor.go:193-229`), but the error of the first push ends the next
round before it pushes. There is one push (`Executor.Executor.PushWithRetry`).

## Model

| member | source | states |
|---|---|---|
| RedisLock.RedisLock.LockWithTTL | lock/lock.go:145-158 | Granted exactly when no live entry stands under the key; the value is recorded only for a granted lock; a lost answer may leave an entry without a record |
| RedisLock.RedisLock.TryLockWithTTL | lock/lock.go:129-142 | The same grant, record and entry as with the value in the result |
| RedisLock.RedisLock.UnlockWithValue | lock/lock.go:160-173 | Deletes the entry only under the given value, and forgets the recorded value only if it is that one and the call succeeded |
| RedisLock.RedisLock.ExtendLockWithValue | lock/lock.go:177-184 | Renews only a live entry under the given value, and says whether there was one |
| RedisLock.RedisLock.Unlock | lock/lock.go:225-238 | Whatever entry disappears or changes stands under this very key with a value that this instance has drawn; without a recorded value nothing is touched; an error exactly if the command was sent and failed |
| RedisLock.RedisLock.ExtendLock | lock/lock.go:242-252 | An error exactly without a recorded value or if the command failed; renews exactly the live entry that this instance has written, and changes nothing else |
| RedisLock.Semaphore.Acquire | lock/lock.go:284-292 | Granted exactly when fewer than max members are unexpired at the first reading |
| RedisLock.Semaphore.Renew | lock/lock.go:303-307 | Renews a member that is there and never brings one back |
| RedisLock.Semaphore.Release | lock/lock.go:309-312 | Removes the member, and only it |
| RedisLock.RedisGuard.constructor | service/concurrency.go:87-98 | A semaphore of the given size, or of 5 |
| RedisLock.RedisGuard.Acquire | service/concurrency.go:100-139 | Granted exactly if both commands are answered, a slot is free and nobody holds the task, every refusal has its cause; says exactly which entry, slot and record it leaves in each case |
| RedisLock.RedisGuard.TakeLock | service/concurrency.go:111-121 | The second phase: the lock, or the rollback of the slot |
| RedisLock.RedisGuard.AcquireInProtocol | service/concurrency.go:100-139 | An Acquire takes exactly the steps of the protocol that its replies and its answer stand for |
| RedisLock.RedisGuard.Release | service/concurrency.go:127-138 | Takes the closing, unlocking and freeing steps with the replies of this call; where a command ran, its entry or slot is gone, and nothing else changes |
| RedisLock.RedisGuard.Tick | service/concurrency.go:158-169 | Takes the extending and, unless that failed, the renewing step with the replies of this call; a held lock then lives for 30 s from now and a slot that is there for 30 s from the reading, nothing else changes, and the tick is good exactly if both were answered |
| RedisStore.TakeSlotStaysBounded | lock/lock.go:37-55 | Taking a slot never makes the set outgrow max, whatever the clocks say |
| RedisStore.RenewSlotStaysBounded | lock/lock.go:295-300 | Renewing never changes the number of slots |
| GuardSpec.BehaviorsAreSafe | service/concurrency.go:20-30 | Every state of every behaviour of the abstract guard has at most cap token holders, and no key runs twice |
| GuardMachine.StepKeepsOwned | lock/lock.go:20-55 | Every step, at any time, keeps: at most max slots, each lock entry and each slot written by an execution that wants it and has not given it back |
| GuardMachine.RunKeepsOwned | service/concurrency.go:100-172 | That invariant holds in every state of every run, with skewed clocks, lost and late commands and crashes |
| GuardOwnership.OthersLockIsUntouched | lock/lock.go:20-35 | No step of one execution changes or deletes a live lock entry of another |
| GuardOwnership.OthersSlotIsUntouched | lock/lock.go:37-55 | No step of one execution changes a slot of another, except a purge whose reading has reached its expiry |
| GuardOwnership.UnlockIsFinal | service/concurrency.go:127-139 | After its unlock has run, in time or late, no later state has a lock entry of that execution, whatever commands are still in flight |
| GuardOwnership.FreeIsFinal | service/concurrency.go:114-121 | After its slot has been given back, by release or rollback, in time or late, no later state has a slot of that execution |
| GuardOwnership.SemaphoreBound | lock/lock.go:284-312 | In every state of every run the semaphore holds at most max members |
| GuardOwnership.SilentSlotLapses | lock/lock.go:302-307 | A slot last renewed by reading c does not survive an Acquire that reads c + 30 s, which succeeds exactly when fewer than max other slots are unexpired |
| GuardOwnership.SilentLockLapses | lock/lock.go:28-35 | An execution that stays silent for 30 s holds no lock entry |
| GuardTiming.StepKeepsTimed | service/concurrency.go:158-169 | If every good tick is less than 30 s old, each step leaves every granted slot and lock entry unexpired |
| GuardTiming.StepRefines | service/concurrency.go:100-172 | Under that timing every step is a move of the abstract guard |
| GuardTiming.RunRefines | service/concurrency.go:80-82 | Every timed run is a behaviour of the abstract guard |
| GuardTiming.TimedExclusion | service/concurrency.go:21-23 | In every state of every timed run no two executions hold one task key and at most max hold the guard |
| GuardTicks.PromptTicksRenewInTime | service/concurrency.go:32-38 | If no two ticks in a row fail and each lands less than 10 s after its nominal time (until the first good one, counted from the reading for the slot), every good tick is less than 30 s old |
| GuardTicks.PromptExclusion | service/concurrency.go:141-172 | Exclusion and the bound follow from the tick schedule alone |
| GuardTicks.LateRenewKeepsSlotExactlyWhen | lock/lock.go:302-307 | A renewal that lands after its client gave it up leaves the slot as long as promised if and only if its reading is not older than the last good tick |
| GuardTicks.OneTtlIsTooLate | service/concurrency.go:33-37 | A run in which a good tick is exactly 30 s old and two executions hold one task |
| LocalGuard.StepKeepsValid | service/concurrency.go:55-70 | Every step keeps: channel length is the number of token holders, the map is the keys of the running goroutines, no key runs twice |
| LocalGuard.RunKeepsValid | service/concurrency.go:42-46 | That holds in every state of every interleaving |
| LocalGuard.ChannelAndMapAgree | service/concurrency.go:55-70 | In every interleaving the map's keys are exactly those that run, they are as many as the runners, and the runners never exceed the cap |
| LocalGuard.ReceivesNeverBlock | service/concurrency.go:63-68 | Both receives from the channel always find a token |
| LocalGuard.QuietGuardIsEmpty | service/concurrency.go:66-69 | With nobody inside, channel and map are empty |
| LocalGuard.StepRefines | service/concurrency.go:55-70 | Every step of channel and map is a move of the abstract guard |
| LocalGuard.RunRefines | service/concurrency.go:20-30 | Every interleaving is a behaviour of the abstract guard |
| LocalGuard.Guard.constructor | service/concurrency.go:48-53 | Empty, with the given cap or the default of 5 |
| LocalGuard.Guard.Acquire | service/concurrency.go:55-65 | Takes steps of the protocol; refused exactly when the cap is reached or the key runs, and then leaves nothing behind; otherwise one token and the key are taken |
| LocalGuard.Guard.Release | service/concurrency.go:66-69 | Takes the two releasing steps; key and token are gone |
| CronLock.CronJob | service/cron.go:19-34 | Goes on exactly if the lock was granted and the answer arrived |
| CronLock.LockIsOfFirst | lock/lock.go:129-142 | After each fire the entry is that of the first fire of its tick whose command ran; before there is one, nothing keeps the next fire out |
| CronLock.OneFirePerTick | service/cron.go:19-34 | With all fires of a tick within 10 s and ticks a minute apart, at most one fire of every tick runs, whatever becomes of the calls, over any number of ticks and instances: the first to reach Redis, if it is answered |
| CronLock.AnsweredTickRuns | service/cron.go:21-30 | If the calls of a tick are answered, exactly one of its fires runs |
| CronLock.SpreadIsExact | service/cron.go:22-30 | Of any number of answered fires that nothing keeps out, wherever in a run, the first alone runs if and only if the last lands less than 10 s after it |
| CronLock.NothingKeepsTickOut | service/cron.go:22-30 | In a schedule, no entry of an earlier tick keeps the first fire of a tick out |
| ModulePath.MatchesAreBounded | mirror/gitobj.go:28-29 | For a source that begins in the class, the consuming expression computes what the lookahead form computes |
| ModulePath.RewriteIsIntended | mirror/gitobj.go:16-30 | The rewriting equals the lookahead form on all texts if and only if the source begins in the class, or nothing is rewritten |
| ModulePath.DoubledSourceTellsApart | mirror/gitobj.go:27-29 | For any other source, two adjacent copies are a text on which they differ |
| ModulePath.ReplacesLeftmost | mirror/gitobj.go:16-20 | The result has the target in place of the leftmost, non-overlapping bounded occurrences, and every other byte as it was |
| ModulePath.LeftmostIsUnique | mirror/gitobj.go:16-20 | Only one list of positions is leftmost in that sense |
| ModulePath.ClassExactly | mirror/gitobj.go:21 | The class, byte by byte |
| ModulePath.LongerNamesStay | mirror/gitobj.go:16-20 | Followed by a letter, a digit, "-", "." or "_" a source stays, by anything else or nothing it is replaced |
| ModulePathStable.NothingLeftExactlyWhen | mirror/gitobj.go:23-30 | No result holds a bounded source if and only if the paths are separate |
| ModulePathStable.IdempotentExactlyWhen | mirror/gitobj.go:23-30 | Rewriting twice is rewriting once, on all texts, if and only if the paths are separate or equal |
| ModulePathStable.RewriteIsStable | mirror/gitobj.go:23-30 | For separate paths, rewriting any result again changes nothing |
| ModulePathStable.SomethingLeft | mirror/gitobj.go:23-30 | For other paths there is a text, at most twice as long as the source, whose result holds a bounded source |
| ModulePathStable.BoundedSourceChanges | mirror/gitobj.go:23-30 | A text that holds a bounded source is changed |
| ModulePathStable.OverlapFreeIsSeparate | mirror/gitobj.go:23-30 | Paths that do not overlap at all are separate if the target begins in the class |
| ModulePathStable.NewHostIsStable | mirror/gitobj.go:23-30 | Two overlapping paths that are separate |
| ModulePathStable.VersionSuffixIsUnstable | mirror/gitobj.go:23-30 | A target that extends its source by a path element is not separate; it is found again in its own result, which then grows |
| TreeRewrite.Builder.RewriteTree | mirror/gitobj.go:47-109 | Succeeds exactly when every object is there; returns the hash of the synthesized tree, adds exactly its objects to a storer that only grows, and reports exactly the rewritten candidates in order |
| TreeRewrite.Builder.RewriteEntry | mirror/gitobj.go:56-100 | The same for one entry: directories recurse, files are rewritten or copied, links are copied, submodules are left |
| TreeRewrite.Builder.RewriteFile | mirror/gitobj.go:64-91 | Files over 8 MiB, with a zero byte or without the source are copied as they are; others are rewritten and reported |
| TreeRewrite.Builder.CopyBlob | mirror/gitobj.go:144-169 | The blob is in the storer afterwards, or was missing |
| TreeFiles.FileBytesExactly | mirror/gitobj.go:69-86 | Files of more than 8,388,608 bytes or with a zero byte stay, all others are rewritten |
| TreeFiles.ReportedExactly | mirror/gitobj.go:57-91 | Reported are exactly the paths from the root to text files within the limits that contain the source |
| TreeFiles.ReportedInOrder | mirror/gitobj.go:56-91 | In the order of the entries |
| TreeFiles.WrittenExactly | mirror/gitobj.go:47-109 | Written are exactly the objects that belong to the synthesized tree, none of a submodule and none in vain |
| TreeMeaning.KeepsShape | mirror/gitobj.go:37-39 | Names, modes and order stay the same all the way down; links and submodules stay the same objects |
| TreeMeaning.ImageIsRewritten | mirror/gitobj.go:47-109 | Writing the synthesized tree gives exactly the files of the source tree, each rewritten on its own |
| TreeMeaning.WrittenIsComplete | mirror/gitobj.go:75-80 | Every blob and subtree that the synthesized tree refers to has been written |
| TreeMeaning.AcceptedLikeSource | mirror/materialize.go:50-63 | A complete synthesized tree is refused only for an unsafe link that the source has as well |
| TreeMeaning.SynthesizeAndMaterialize | mirror/mirror.go:218-236 | Both stages together succeed exactly when the source tree itself could be written, and then leave its rewritten files |
| TreeMeaning.TreeOfTwice | mirror/gitobj.go:47-109 | For separate paths the synthesis of a synthesized tree is that tree, hash for hash |
| TreeMeaning.TreesSettleExactlyWhen | mirror/gitobj.go:47-109 | For paths without zero bytes and far below the size limit, that holds of all trees if and only if the paths are separate or equal |
| Materialize.Disk.MaterializeTree | mirror/materialize.go:18-74 | Succeeds exactly when every object is found and every link is safe, and then has written exactly the tree's files, directories and links |
| Materialize.Disk.MaterializeEntry | mirror/materialize.go:28-72 | The same for one entry |
| TreeFiles.WrittenIsEntry | mirror/materialize.go:28-72 | Everything on disk is an entry to which its path leads |
| TreeFiles.EntryIsWritten | mirror/materialize.go:28-72 | For an entry of a tree with distinct names: a directory, the data of its blob with the executable flag of its mode, a link to what its blob says, or nothing |
| LinkSafety.ElementsUndoSlashed | mirror/materialize.go:61 | Splitting a target at slashes undoes joining |
| LinkSafety.SlashedUndoesElements | mirror/materialize.go:61 | And joining undoes splitting |
| LinkSafety.NamesGoDown | mirror/materialize.go:61 | Names lead down one by one |
| LinkSafety.DotsVanish | mirror/materialize.go:61 | Empty elements and "." do not matter |
| LinkSafety.UpCancelsName | mirror/materialize.go:61 | A name followed by ".." cancels |
| LinkSafety.UpsGoUp | mirror/materialize.go:61 | ".." leads up, and stays at the root |
| LinkSafety.NormalIsBelowExactlyWhen | mirror/materialize.go:61-63 | Some ".." and then names lead strictly below a directory if and only if the names properly extend what was left of it |
| LinkSafety.JoinIsNormal | mirror/materialize.go:61 | Every list of elements leads where its normal form leads |
| LinkSafety.SafeLinkExactlyWhen | mirror/materialize.go:55-64 | A link is accepted if and only if its target is relative and its normal form comes back into the directory and goes on below it |
| LinkSafety.ClimbingIsRefused | mirror/materialize.go:61-63 | Targets that climb out and do not come back are refused |
| LinkSafety.LinksStayInside | mirror/materialize.go:50-68 | Everything that is written lies inside the directory, and every link resolves inside its own |
| Publish.Mirror.CheckRemoteTag | mirror/mirror.go:313-361 | The loop over the listing finds a tag exactly when it is there, and the result is the comparison of its commit's tree |
| Publish.Mirror.Prepare | mirror/mirror.go:203-240 | Source check, synthesis, materialization and gate together yield the draft of the tag or the first cause against it |
| Publish.Mirror.PublishDraft | mirror/mirror.go:242-298 | Checks, then pushes tag and main; a failed push may have moved either; a failed check, a divergence and a preview move nothing |
| Publish.Mirror.Publish | mirror/mirror.go:96-140 | One tag after the other up to the first failure, with the reports of those before it; nothing at all for invalid options |
| Names.ValidNamesAreLiteral | mirror/validate.go:8-10 | A valid name cannot be taken for an option and holds no character of refspecs, revisions or patterns |
| Names.ValidExactlyWhen | mirror/validate.go:11-33 | The valid names, character by character |
| Names.VersionsAreValid | mirror/validate.go:11-33 | A version tag is a valid name |
| PublishMeaning.CarriedOutExactlyWhen | mirror/mirror.go:114-140 | A call is carried out if and only if it names a directory, a tag, two different paths and valid names only |
| PublishMeaning.OneBadNameStopsAll | mirror/mirror.go:130-134 | One invalid tag anywhere stops the whole call |
| PublishMeaning.DraftExactlyWhen | mirror/mirror.go:153-240 | There is something to push if and only if setup and gate succeed, the repository is that of the source path, and the tag leads to a commit whose tree can be written |
| PublishMeaning.DraftIsOfCommit | mirror/mirror.go:212-225 | It has the identities of that commit, its shape, and its files rewritten |
| PublishMeaning.GateFailsExactlyWhen | mirror/mirror.go:237-239 | The gate is the cause exactly if nothing else is |
| PublishMeaning.PublishedExactlyWhen | mirror/mirror.go:242-297 | A tag is published if and only if there is a draft, nothing is overwritten without permission, and the push succeeds unless it is a preview |
| PublishMeaning.ReportIsTrue | mirror/mirror.go:255-257 | The report says whether the tag was there, had this tree, or was overwritten, and which commit was pushed |
| PublishMeaning.FailureIsTrue | mirror/mirror.go:245-293 | A failure names its cause: a check on this side, a mirror that could not be looked at, a divergence, or the push |
| PublishMeaning.MovesExactly | mirror/mirror.go:269-293 | Which references move, and to which commit and tag object, field by field |
| PublishMeaning.ReportedTagsPassed | mirror/mirror.go:96-112 | Every reported tag has passed every check |
| PublishMeaning.StoppedTagStays | mirror/mirror.go:96-112 | A tag that a check has stopped is not moved, and the batch does not succeed |
| PublishMeaning.GateFailureMovesNothing | mirror/mirror.go:237-239 | Nothing is pushed for a tag whose gate fails |
| PublishSafety.TreeChangesExactlyWhen | mirror/mirror.go:242-293 | The tree under a published tag changes if and only if another tree is pushed to it with permission or after a false "empty" |
| PublishSafety.FalseEmptyOverwrites | mirror/mirror.go:244-247 | A listing error that says "empty" over a mirror that has the tag: another tree replaces the published one without permission |
| PublishSafety.PublishedNeverChanges | mirror/mirror.go:242-261 | Over any sequence of calls without AllowOverwrite, with any sources and any partial pushes, a published tree stays the same |
| PublishSafety.BatchKeepsTree | mirror/mirror.go:96-112 | One such call keeps every published tree, wherever it stops |
| PublishSafety.PublishedIsThere | mirror/gitobj.go:171-202 | After a success the tag leads to main's commit, which has the synthesized tree, no parents and the identities of the source commit |
| PublishSafety.OtherRefsStay | mirror/mirror.go:281-293 | However a batch ends, no reference but main and the tags asked for has moved |
| PublishSafety.DryRunPushesNothing | mirror/mirror.go:263-268 | A preview of a whole batch leaves every reference alone |
| PublishSafety.ReportIsSucceededPrefix | mirror/mirror.go:94-111 | The report lists exactly the succeeded tags, a prefix of those asked for, all of them exactly when the call succeeds |
| PublishConvergence.SuccessIsComplete | mirror/mirror.go:281-293 | A successful run leaves exactly the references of the complete batch, whatever was there before |
| PublishConvergence.RerunOfSameSourceConverges | mirror/mirror.go:3-8 | With an unchanged canonical repository, however often and wherever a batch is interrupted, even between the two references of a push, a successful rerun leaves what one uninterrupted call would have left |
| PublishConvergence.RerunConverges | mirror/mirror.go:281-293 | The same for runs whose drafts follow one plan |
| PublishConvergence.ClearRunSucceeds | mirror/mirror.go:242-261 | On a clear network a run succeeds if and only if no tag stands in the mirror with other contents |
| PublishConvergence.InterruptionNeverBlocks | mirror/mirror.go:242-261 | What a clear run could publish at first, it can publish after any interrupted runs |
| PublishConvergence.SecondCallChangesNothing | mirror/gitobj.go:171-202 | With an unchanged canonical repository a second full call reports every tag as matching and changes no reference |
| PublishConvergence.SecondRunChangesNothing | mirror/gitobj.go:171-202 | The same for runs of one plan |
| PublishConvergence.DraftsAgree | mirror/gitobj.go:171-173 | With an unchanged canonical repository a tag yields the same draft whenever it yields one |
| PublishMain.MainFollowsLastMove | mirror/mirror.go:281-293 | After any run main is the commit of the last tag whose push moved it, or where it was |
| PublishMain.MainStaysExactlyWhen | mirror/mirror.go:281-293 | A run leaves main where it was if and only if no push moved it or the last to do so pushed the same commit |
| PublishMain.PublishedTagsStay | mirror/mirror.go:6-8 | Once a plan is published no run of it moves any tag, wherever it stops |
| PublishMain.InterruptedRerunMovesMain | mirror/mirror.go:281-293 | A rerun interrupted after its first tag moves main back to it, and nothing else |
| Throttle.Throttle.ApplyRules | service/webhook_service.go:150-199 | The rules that apply are tried task by task in order; the tasks triggered and the new map are those of the step function |
| Throttle.WantsMean | service/webhook_service.go:158-184 | A task is wanted if and only if an enabled synchronizing rule that fits the event's type and branch lists it |
| Throttle.WantsAreInOrder | service/webhook_service.go:159 | Rules are tried in their order |
| Throttle.TaskKeysAreInOrder | service/webhook_service.go:180 | And so are the tasks of a rule |
| Throttle.TriggeredMeans | service/webhook_service.go:184-195 | A task is triggered if and only if some try of it fires |
| Throttle.OnlyWantedTasksRun | service/webhook_service.go:158-184 | A disabled rule, another event, branch or action triggers nothing |
| Throttle.WantedTasksAreTried | service/webhook_service.go:178-195 | Every wanted task is tried under its rule's interval, and triggered if that fires |
| Throttle.KeysTellApart | service/webhook_service.go:185 | Different tasks and repositories have different keys if no repository's key holds a colon |
| Throttle.ColonsMixKeysUp | service/webhook_service.go:185 | Otherwise they may share one |
| Throttle.Throttle.Trigger | service/webhook_service.go:177-190 | A task key fires unless its remembered trigger is less than the interval ago, and is remembered only under an interval |
| Throttle.Throttle.CleanupTriggerTimes | service/cleanup.go:66-72 | The loop deletes exactly the entries of more than an hour ago |
| Throttle.FiresExactlyWhenQuiet | service/webhook_service.go:182-188 | Without mention of the map: a task fires if and only if no recorded trigger of its key is less than the interval ago |
| Throttle.TriggersAreSpaced | service/webhook_service.go:182-188 | Two recorded triggers of a key are at least the later rule's interval apart |
| Throttle.PruningIsUnseen | service/cleanup.go:60-72 | With intervals of at most an hour every decision is that of a never-pruned map |
| Throttle.AnHourIsTheLimit | service/cleanup.go:69-71 | An interval is unaffected by pruning in all runs if and only if it is at most 3600 s |
| WebhookIntake.Service.ReceiveWebhook | service/webhook.go:83-123 | Takes the lookup, insertion and launching steps; launches exactly when it stores, accepts known events, and otherwise changes nothing |
| WebhookIntake.Service.ApplyRules | service/webhook.go:135-153 | Takes the worker's steps to the end; only the status of its row changes, to processed if the last write succeeds |
| WebhookIntake.Service.RetryEvent | service/webhook.go:155-168 | Not found without a row; otherwise marks it and launches one more worker even if the mark fails |
| WebhookIntake.RunKeepsValid | service/webhook.go:83-153 | In every interleaving each event has one row with one creator, and whatever is not processed has somebody who owes the mark or a mark that failed |
| WebhookIntake.StoredAndLaunchedOnce | service/webhook.go:109-121 | However many copies of an event arrive and interleave, it is stored once and launched at most once by deliveries, and an accepted duplicate is stored |
| WebhookIntake.QuietMeansProcessed | service/webhook.go:138-148 | With nothing in flight, every stored event has been launched and is processed, unless its last mark failed to be written |
| WebhookIntake.WritesSucceed | service/webhook_service.go:128-137 | Without failed marks no event is left unprocessed for that reason |
| WebhookIntake.RowsStay | model/webhook_event.go:5-19 | A stored event stays, with its identity |
| Executor.Executor.Execute | executor/executor.go:68-244 | Run record, work directory, pulls and pushes are those of the loop-free description of one execution |
| Executor.Executor.FetchRepo | executor/executor.go:360-388 | Fetching follows the current source address and succeeds exactly if the fetch and any needed checkout do |
| Executor.Executor.EnsureRemote | executor/executor.go:390-410 | Adds the target remote or makes it point to the current address |
| Executor.Executor.SyncRemoteURL | executor/executor.go:412-428 | Leaves an equal or unwanted address alone, otherwise re-creates the remote, of which a failure in between leaves nothing |
| Executor.Executor.PushWithRetry | executor/executor.go:198-229 | Whatever the number of retries, exactly one push is made, and its result is the result |
| Executor.SyncURL | executor/executor.go:412-428 | After success the remote points to the wanted address up to slashes; no other remote is touched |
| Executor.Ensure | executor/executor.go:390-410 | After success a target remote exists and points to the wanted address, or is as it was if none is wanted |
| Executor.TrimSlashes | executor/executor.go:430-433 | What is left ends in no slash, and only slashes are dropped |
| Executor.SameURLMeans | executor/executor.go:430-433 | Two addresses count as equal if and only if both are one text followed by slashes |
| Executor.StepsArePrefix | executor/executor.go:142-244 | Steps are a prefix of clone or fetch, ensure remote, push; only the last may have failed; success if and only if all three succeeded |
| Executor.PushGoesToTarget | executor/executor.go:442-456 | A push is attempted exactly when two steps succeeded, and goes to the target's current address, or to the configured one if that is empty |
| Executor.PushIsOfBranches | executor/executor.go:113-122 | A push is of the named or default source branch to the named or default target branch |
| Executor.PullIsOfSource | executor/executor.go:346-358 | Clones and fetches are of the named or default source branch, and a clone is made from the source's current address |
| Executor.FetchIsFromSource | executor/executor.go:360-388 | A fetch is made from the source's current address exactly if its remote could be brought up to date; it succeeds exactly if the fetch does and its branch is checked out |
| Executor.FirstPullIsFetched | executor/executor.go:151-170 | The first pull of a run over a clone is that fetch |
| Executor.SucceedsExactlyWhen | executor/executor.go:98-244 | The exact condition for a run to succeed, call by call |
| Executor.RetriesAreCounted | executor/executor.go:191-231 | A retry and a second fetch are counted for a failed push, unless one attempt is asked for |
| Executor.EveryPushIsAskedFor | executor/executor.go:442-456 | Every push of every run takes its task's branch to the branch and the address of its target |
| Executor.PushesAreCounted | executor/executor.go:191-229 | There are as many pushes as runs whose first two steps succeeded |
| Executor.SurvivesExactlyAfterSuccess | executor/executor.go:124-133 | Over any sequence of runs the work directory, with its clone, is there if and only if the last run to reach it succeeded |
| Executor.FetchesExactlyAfterSuccess | executor/executor.go:144-150 | A run fetches if and only if the run before it at the work directory succeeded, otherwise it clones |
| TagList.SplitTags | service/mirror_service.go:787-796 | The loop returns the cleaned, non-empty parts in their order |
| TagList.OnlyPlainTagsReturn | service/mirror_service.go:418-423 | A list that comes back has no character that JSON escapes, because backslashes are never lost |
| TagRoundTrip.RoundTripsExactlyWhen | service/mirror_service.go:787-796 | A list comes back if and only if no tag is empty, holds a comma or an escaped character, and white space neither begins nor ends the list |
| TagRoundTrip.StorableMeans | service/mirror_service.go:418-423 | That condition, character by character |
| TagRoundTrip.ValidNamesReturn | mirror/validate.go:11-33 | Every list of valid names comes back, in order |
| RunStatus.MirrorRun.Execute | service/mirror_service.go:444-482 | The final status is the verdict over the processed tags; steps, statuses and report are theirs |
| RunStatus.MirrorRun.ExecutePublish | service/mirror_service.go:487-546 | The loop stops at the first cancelled tag; it fails exactly if it was not prepared, did not finish, or some tag failed or diverged |
| RunStatus.MirrorRun.Record | service/mirror_service.go:512-539 | What one tag changes in steps, statuses, run status and report |
| RunStatus.RecordOfTag | service/mirror_service.go:514-533 | The step and the status of one tag, case by case |
| RunStatus.DivergenceIsRecognized | service/mirror_service.go:783-785 | The words of a divergence are recognized wherever they stand in an error |
| RunStatus.OrderDoesNotMatter | service/mirror_service.go:471-479 | The verdict is the same for any order of the same tag statuses |
| RunStatus.VerdictMeans | service/mirror_service.go:542-545 | Success if and only if all that was asked for is done, divergent if and only if some tag diverged, failed otherwise; so a cancelled run is no success |
| RunStatus.CancelledIsNoSuccess | service/mirror_service.go:503-508 | A run stops at the first tag before which it is cancelled, and is then no success; unprepared it processes nothing and fails |
| RunStatus.StepsListTags | service/mirror_service.go:508-513 | The preparation and one step per processed tag, in order, with its result |
| RunStatus.StatusPerTag | service/mirror_service.go:514-533 | The processed tags, and no others, have a status |
| RunStatus.StatusIsOfLast | service/mirror_service.go:514-533 | A tag's status is that of the last time it was processed |
| RunStatus.ReportIsOfLast | service/mirror_service.go:534-538 | The report is that of the last published tag |
| RunStatus.EveryTagAskedForIsRecorded | service/mirror_service.go:395-441 | Distinct valid names that are stored, read back and carried through each have the status of their own outcome |
| RepoPaging.FetchAllPlatformRepos | service/provider_helper.go:41-68 | The paging loop returns the pages up to the first short one, at most a hundred, without later duplicates; an error of any page is an error |
| RepoPaging.FirstsAreFirst | service/provider_helper.go:53-62 | A repository is kept if and only if none before it has its identity |
| RepoPaging.FirstsAreDistinct | service/provider_helper.go:53-62 | No identity is lost and none occurs twice |
| RepoPaging.SameIdentityExactlyWhen | service/provider_helper.go:54-57 | When two repositories count as one |
| RepoPaging.FailsExactlyWhen | service/provider_helper.go:47-51 | The call fails if and only if a page that is asked for fails |
| RepoPaging.FetchesFixedList | service/provider_helper.go:39-51 | Of a fixed list the first hundred pages are read, so all of it if it fits |
| PlatformSync.Store.SyncPlatformRepos | service/platform_service.go:121-254 | Paging, merging and writing leave the table and the count of the plan |
| PlatformSync.Store.CreateEach | service/platform_service.go:236-243 | Inserting one by one keeps taken keys and counts what it inserts |
| PlatformSync.StaleMeansChanged | service/platform_service.go:175-195 | A row is written if and only if that changes it, and is not stale afterwards |
| PlatformFixpoint.SyncIsUpserts | service/platform_service.go:152-246 | For free keys the batched synchronization leaves what a loop of upserts leaves, also when keys repeat or the batch insertion fails |
| PlatformFixpoint.UnlistedStay | service/platform_service.go:152-222 | Rows that are not listed stay, and none appears |
| PlatformFixpoint.ListedHaveRows | service/platform_service.go:175-221 | With distinct keys each listed repository has its row: the old one refreshed or a new one |
| PlatformFixpoint.NewIsFirst | service/platform_service.go:199-221 | A new row is that of the first repository listed under its key |
| PlatformFixpoint.OneSyncIsEnough | service/platform_service.go:121-254 | One synchronization keeps other rows and other columns; it settles the table, so that the next one writes nothing and reports 0, if and only if the listing agrees with itself and its firsts lack nothing |
| PlatformFixpoint.DistinctAgree | service/platform_service.go:121-254 | Both hold if the listed keys are distinct |
| PlatformFixpoint.TwoSyncsSettleExactlyWhen | service/platform_service.go:121-254 | Two synchronizations settle the table and the third reports 0 if and only if the listing agrees with itself |
| PlatformFixpoint.ReportCountsOutdated | service/platform_service.go:224-246 | With distinct keys the count reported is the number of listed repositories without a row or with a stale one |
| PlatformFixpoint.ZeroMeansSettled | service/platform_service.go:224-253 | A synchronization reports 0 if and only if there was nothing to do |
| PlatformFixpoint.TwinsNeverSettle | service/platform_service.go:170-197 | Two listed repositories with one key that disagree on an address, a name or a branch keep every synchronization of every table writing |
| PlatformRows.SettledMeans | service/platform_service.go:152-195 | What a settled table says of a listed repository, column by column |
| PlatformRows.OthersStay | service/platform_service.go:138-195 | Whatever fails, rows of other platforms, deleted and unlisted rows stay, and so does every row if loading or updating failed |
| PlatformRows.OtherColumnsStay | dao/repo_dao.go:132-150 | Whatever fails, no row loses its platform, state or secret |
| PlatformRows.NewRowsAre | service/platform_service.go:199-221 | Whatever fails, each new row is that of a listed repository, column by column |
| PlatformRows.ReportIsHonest | service/platform_service.go:224-246 | Whatever fails, the count is that of the new rows and of the updates that went through |
| PlatformRows.FailuresAreMadeGood | service/platform_service.go:121-254 | Whatever has failed, two calm synchronizations of a listing that agrees with itself settle the table |
| LikePattern.PassesAreOne | dao/dao_helper.go:12-17 | The three passes are one escape per character |
| LikePattern.EscapeIsInjective | dao/dao_helper.go:12-17 | Different terms have different patterns |
| LikePattern.UnescapeUndoes | dao/dao_helper.go:12-17 | Unescaping gives the term back |
| LikePattern.EscapedMatchesItself | dao/dao_helper.go:10-17 | An escaped term matches itself and nothing else, whatever follows |
| LikePattern.SearchIsContains | dao/repo_dao.go:231-234 | The search pattern matches a text if and only if the text contains the term |

## Left out

- Exclusion of task executions that bypass the guard: `RunTaskAsync` (`service/task.go:88-109`) never acquires it, so exclusion is stated of guard holders only.
- The Go client of Redis: the pool, and retries of its own, by which one command would land more than once.
- `RedisLock.Lock`, its backoff and jitter: a loop around `LockWithTTL`. The failure counter of the watchdog: it only thins out log lines.
- `Semaphore.Cleanup` (`lock/lock.go:314-323`): a purge by age that the guard never calls.
- `LocalLock` (`lock/lock.go:325-387`): its `Unlock` does not check the holder, so there is no ownership to prove.
- Mutexes of one instance around its maps of values: each access is one step of its caller.
- The cron table of an instance (`service/cron.go:11-18`, `service/cron.go:39-75`): adding and removing entries.
- Targets with a `$`, which the regular expression library would expand, source paths that are not valid UTF-8, and the left boundary of an occurrence, which the code does not check.
- The root as the directory that a tree is written to. Encodings of git objects, the deprecated mode 0100664, entry names that are no plain file names or occur twice in a tree, and what the file system makes of them.
- The reported files are those that contain the source and are within the limits: a superset of those that change.
- Messages of commits and tags are reduced to the parts they are made of, and errors of listing and fetching to whether their text contains "empty".
- Another writer to the mirror between the check of a tag and its push. Object hashes that collide.
- The compile gate, readers of `go.mod`, authentication and transport: parameters of the call.
- `Throttle.Throttle.ApplyRules`: the cache of compiled filters is left out, as it only remembers a pure construction; an error in reading the rules is an empty list of rules; intervals beyond 292 years, where a duration overflows, are not considered.
- Throttling and pruning as racing loads and stores: the code checks and then acts, so each is one step here.
- Removal of old event rows, after which another copy of an event is stored and launched again; panics outside the rules; a database that stores a row but reports an error.
- Labels of the counts in `CleanupOldData` (`service/cleanup.go:46-47`): results are taken in the order they arrive.
- `Executor.Executor.Execute`: errors of the disk, panics, the texts of details and errors, credentials and time limits are left out; a failed clone may leave anything in the directory.
- Exclusion of runs of one mirror channel (`service/mirror_service.go:410-429`): the check and the creation are separate, so it does not hold.
- `GetMirrorVersions` (`service/mirror_service.go:648-752`) and `FindByChannelAndTargetAndTags` (`dao/mirror_dao.go:117-129`): neither does what its name says, as the former keeps the oldest run of a version and the latter looks for another form than the stored one.
- `RunStatus.MirrorRun.Execute`: loading the run, the backup mode, durations, truncated details and panics are left out.
- Text that is not valid UTF-8 in tags; LIKE without an escape character, as SQLite has it by default, or with case folding.
- `PlatformSync.Store.SyncPlatformRepos`: the functions that rewrite a host and split a full name are parameters without any property; looking up the platform and counting its repositories afterwards are left out.
- CRUD pass-throughs, configuration defaults, pagination clamps, error classes, HTTP and credential encryption would only add easy members.
