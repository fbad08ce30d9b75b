# A verified model of the Engraphy benchmark harness and the addenda migration

The benchmark harness runs for days against services with quotas. It survives being killed
because every phase appends to checkpoint files and a later process resumes from them. Its
numbers are only worth reporting if that recovery loses nothing, grades nothing twice and
never mixes two ingests. This project states those promises as contracts and lemmas in Dafny
4.11 and proves them, together with the migration that promotes buried addenda to nodes, the
rate and ordering algorithms, and the metrics whose code asserts bounds on its own results.

`dafny verify dfyconfig.toml` checks everything.

## What is modelled

**The checkpointed runs.** `Pool.dfy` is the bounded worker pool: its specification is the
history of submissions and completions, in any order the workers produce, and its loop may die
before any append. `Offline.dfy` is the two offline passes over one directory and `Supervise.dfy`
the process that relaunches them, with its single-instance lock in `Lock.dfy`. A full run is
`Answering.dfy`, `Judgement.dfy` and, with its report and its relaunches, `RunPhases.dfy`;
`StopReason.dfy` is how it names its stops, and `SuperviseBench.dfy` the same supervisor around
it. `IngestPhase.dfy` is the ingest phase with its clear-before-retry step, as a schedule of
single statements over the tables of `Scopes.dfy`, in which an engine write is any write inside
one scope. The ingest theorem rests on `Space.dfy`, which derives the ids that keep scopes apart,
and on `Provision.dfy`, which makes a run's space statement by statement or attaches to one;
`Relaunches.dfy` is launches of one run id that ask for different things of the same stores.
Workers, crashes and the order of completion are arbitrary: every theorem is about all of them.
A process may die between any two statements where its `mayDie` allows it, and otherwise does not.

**The migration.** `Addenda.dfy` is `promote_addenda` over a graph, with its running novelty
corpus, its per-node transactions and its markers; `Jaccard.dfy` is the novelty verdict.

**Order, rate and windows.** `RoundRobin.dfy`, `GradingOrder.dfy` and `Subsets.dfy` are the
round-robin and its two uses; `Throttle.dfy` and `Retry.dfy` the two clients' limiter and retry
loops over any clock; `Windows.dfy` the session windows.

**Metrics and counters.** `Dupstream.dfy` is the duplicate-stream score, `Wilson.dfy` the
interval in exact reals, `Scoring.dfy` and `FairScores.dfy` the rule-based re-scoring,
`IngestDrafts.dfy` the counters, supersede targets and edges of one haystack; `Counting.dfy` says
what a count counts.

## Where the code and what it says of itself differ

The model follows the code. Each of these is a theorem that says exactly when the code does what
it says; most come with a lemma that exhibits an input on which it does not.

- `engraphy/admin/addenda.py:18-21` promises that a full re-run is a no-op and that a
  re-run recovers from a crash. Promoted members become `same_topic` peers and join the
  novelty corpus, and a larger corpus can make a skipped addendum novel. Both promises hold
  exactly when every node is `Quiet` (`Addenda.RerunIsNoOpExactlyWhen`,
  `Addenda.ResumeExactlyWhen`); `Addenda.RerunCounterexample` is a two-addenda node. Repeated
  re-runs do settle (`Addenda.RerunsSettle`).
- `bench/core/run.py:650-697`: a reader error below the breaker limit is not recorded, and the
  phase returns normally. A question goes unanswered exactly when every call on it failed
  (`Answering.UnansweredExactlyWhen`), and a launch that returns reads as complete exactly when
  the phase was not stopped and no judge call was lost, whatever else readers did
  (`RunPhases.CompleteExactlyWhen`);
  `RunPhases.CompleteWithNothing` is a complete run with nothing answered. The offline pass
  reports the same history as residual errors (`Answering.SilentLoss`).
- `bench/core/run.py:1618-1697`: a run that reads as complete can be launched again, and its old
  report stands until the new one is written. It stays true over every continuation exactly when
  all that is wanted was answered (`RunPhases.SurvivesExactlyWhen`);
  `RunPhases.CompleteAndUngraded` is two launches that leave a complete run with an ungraded
  answer.
- `bench/core/run.py:550-557`: recorded answers are read once, before the first arm, and an arm's
  id does not name its categories. Keys stay unique over every phase exactly when the arms want
  nothing unrecorded twice (`Answering.AskedOnceExactlyWhen`); `Answering.AskedTwice` writes two
  rows for one key.
- `bench/core/run.py:784-810`: a lone judge failure is no stop. The launch declares nothing and is
  incomplete, which the supervisor takes for a failure that wants a person
  (`SuperviseBench.LoneFailureHalts`); `RunPhases.OneJudgeFailure` is one answer and one such
  failure.
- `bench/core/run.py:367-400` clears a scope that has rows and no marker. That never costs a
  completed ingest exactly when distinct triples have distinct places
  (`IngestPhase.IsolationExactlyWhen`, `IngestPhase.SharedPlaceLoses`).
- `bench/core/run.py:1568-1577` relies on distinct packs having distinct spaces. Scope ids are
  checked for collisions, space ids are not, and truncation makes them collide exactly when the
  run's slug is longer than 55 (`Space.PackSpacesDistinctExactlyWhen`).
- `bench/core/run.py:1223-1229`: attaching checks the scope keys of one launch. Launches of one
  run id, each accepted, never clear a completed ingest exactly when the keys of all of them
  together would have been accepted (`Relaunches.RelaunchesSafeExactlyWhen`);
  `Relaunches.TwoHaystacks` is two launches with haystacks `a b` and `a-b`.
- `bench/core/run.py:1208-1220` takes a space it finds for a finished one, and
  `bench/core/space.py:211-230` commits it statement by statement. Every space attached to has its
  principal and its whole pack exactly when no launch was killed while it built one
  (`Provision.WholeExactlyWhen`); nothing repairs it later (`Provision.HalfBuiltForGood`), and
  `Provision.ReadyWithoutPack` is told that an empty one is ready.
- `bench/core/run.py:383-388` builds a store under the confirm policy of the first arm that names
  its extractor and pack, and arms are reported under their own. Every arm reads stores built
  under its own policy exactly when no two arms of one store differ in it
  (`Relaunches.PoliciesHoldExactlyWhen`); `Relaunches.TwoPolicies` is two arms that do.
- `bench/supervise.py:227-239` decides completeness from the report on disk. A complete directory
  relaunched over another list of items stays honest exactly when its answers cover that list
  (`Offline.StaleExactlyWhen`); `Offline.StaleReport` is a longer list.
- `bench/supervise.py:105-149` checks the lock and writes it in two steps. At most one process
  holds it exactly when none writes after another was granted it since the check
  (`Lock.OneHolderExactlyWhen`); `Lock.Interleaved` is two holders.
- `bench/core/providers.py:145-165` buckets a stop by the words in it, so a tripped judge breaker
  halts exactly when its last error names neither an outage nor a cap (`StopReason.BreakerClass`,
  `StopReason.BreakerRerouted`).
- `bench/core/providers.py:994-996` says that renaming the output cap does not consume a retry;
  the `for` loop counts it (`Retry.RenamingCostsExactlyWhen`).
- `bench/core/extract.py:575-578` checks `overlap` from above only; a negative one loses turns
  (`Windows.CoveredExactlyWhen`).
- `bench/dupstream/run.py:171-234` calls a recall above one impossible. It is raised exactly when
  merges onto unrecorded nodes outnumber missed opportunities (`Dupstream.ScoreArm`), and the
  case the code counts as unattributed cannot occur.
- `bench/core/ingest.py:629-631` says a draft that merged cannot be superseded by name; its
  canonical node is recorded under its name, and is found
  (`IngestDrafts.ResolvesExactlyWhen`, `IngestDrafts.MergedIsFound`).

## Model

| member | source | states |
|---|---|---|
| `Checkpoint.JsonlFile.Append` | bench/core/run.py:342-346 | one atomic append; rows are never rewritten |
| `Pool.InFlightBounded` | bench/offline.py:106-138 | in every completion order, at most max(1, concurrency) calls are in flight, and what is in flight was submitted and is in range |
| `Pool.Accounting` | bench/offline.py:106-138 | submissions are in flight, kept or lost, exactly one of them; no item is kept twice |
| `Pool.StopClosesThePool` | bench/offline.py:106-138 | after the first stop nothing is submitted and the reason never changes; calls in flight may still add rows |
| `Pool.BreakerTripsAtTheLimit` | bench/offline.py:118-132 | the breaker trips at exactly the limit of consecutive failures |
| `Pool.ConsecutiveMeaning` | bench/offline.py:118-131 | the counter has reached m exactly when the last m completions, quotas apart, all failed; a quota neither adds nor resets |
| `Pool.NoStopExactlyWhenAllKept` | bench/offline.py:134-138 | a drained pass returns None if and only if every item has a kept row |
| `Pool.StopExactlyWhen` | bench/offline.py:115-138 | over the completions alone: a stop names the first moment at which a quota came back or the last `limit` calls, quotas apart, had failed, and carries the message or the error of the call that came back then; without such a moment there is none |
| `Pool.ReportMeans` | bench/offline.py:134-138 | a drained pass reports that stop, or else the items left without a row with the error of the last failed call, or nothing |
| `Pool.InFlightThroughout` | bench/offline.py:104-138 | at no moment of any history are more calls in flight than there are workers |
| `Pool.Run` | bench/offline.py:90-138 | the loop appends exactly the rows of a disciplined history, for any batches and outcomes, each row what some call on its item returned; never more than max(1, concurrency) calls in flight; a breaker names the failure that tripped it and a usage stop the quota that set it; it dies only if something may kill it, and otherwise drains |
| `Pool.Collect` | bench/offline.py:113-131 | a batch is recorded in any order and leaves the pool by exactly that batch |
| `Pool.Record` | bench/offline.py:115-131 | a success is appended, whatever the stop state; an error or a quota never is; the last error is that of the last failure, and a stop is set exactly by the completion that calls for one |
| `Pool.Refill` | bench/offline.py:108-113 | submits only unsubmitted items, only while no stop is set |
| `Offline.KeptKeys` | bench/offline.py:90-138 | keys kept by a pass are items, each once; no stop is reported exactly when all are kept |
| `Offline.ReadRows` | bench/offline.py:90-138 | a read pass extends the answers by fresh, error-free, wanted keys |
| `Offline.JudgeRows` | bench/offline.py:141-186 | a judge pass extends the verdicts by answered, ungraded keys, never a judge_error |
| `Offline.JoinCounts` | bench/offline.py:225-254 | the join omits exactly the ungraded answers, so its loss is zero exactly when all are graded |
| `Offline.LastVerdictWins` | bench/offline.py:227 | of several verdicts under one key the last one is joined |
| `Offline.JoinKeeps` | bench/offline.py:225-233 | every graded answer is in the results, with the verdict of its own key |
| `Offline.JoinJoin` | bench/offline.py:225-233 | and the results keep the order of the answers |
| `Offline.UngradedOne` | bench/offline.py:144-145 | an answer is left to grade exactly when its key has no verdict |
| `Offline.UngradedJoin` | bench/offline.py:144-145 | what is left to grade keeps the order of the answers |
| `Offline.RunDir.ReadPass` | bench/offline.py:90-138 | the pass skips recorded keys; each row it adds is unchanged what some read of a wanted, unrecorded key returned; it returns None exactly when every item is then answered, and dies only if something may kill it |
| `Offline.RunDir.JudgePass` | bench/offline.py:141-186 | each verdict it adds is what the judge returned for an ungraded answer, under that answer's key; it returns None exactly when every answer is then graded, and otherwise the stop or the last error |
| `Offline.RunDir.StopRun` | bench/offline.py:215-222 | a stop writes its reason, and a manifest that never reads as complete |
| `Offline.RunDir.Finish` | bench/offline.py:225-254 | results, manifest and report in that order, from the join; killed between any two, nothing reads as complete early |
| `Offline.RunDir.Launch` | bench/offline.py:90-254 | one launch: what was read and what was judged, each within its own number of workers, and an exit whose completeness is stated both ways; it crashes only if something may kill it |
| `Offline.LaunchKeepsSound` | bench/offline.py:90-254 | every exit keeps keys unique, rows clean and the manifest honest |
| `Offline.WholeRun` | bench/supervise.py:227-239 | over every sequence of finished, stopped and killed launches, complete means every item has exactly one answer and one verdict; a finish reads complete, a stop never |
| `Offline.RowsAccumulate` | bench/offline.py:90-186 | over any run both files only grow |
| `Offline.OneRowEach` | bench/offline.py:90-186 | answering and grading everything leaves exactly one row each |
| `Offline.StaleExactlyWhen` | bench/supervise.py:227-239 | a complete directory relaunched over any list, however the launch ends, reads as complete only when it is, exactly when its answers cover the list |
| `Offline.StaleAfterRun` | bench/supervise.py:227-239 | after any run over one list that is exactly when the new list asks for nothing the first did not |
| `Offline.StaleReport` | bench/supervise.py:227-239 | with a longer list, a killed launch leaves a directory that reads complete and is not |
| `Supervise.DeclaredClassWins` | bench/offline.py:205-212 | whatever an offline pass printed before, its stop is read as the class it declares: usage, transient or, for a tripped breaker, halt |
| `Supervise.LastLineDecides` | bench/supervise.py:197-215 | the last class line of a cycle decides, whatever follows it in prose |
| `Supervise.ProseDecides` | bench/supervise.py:197-215 | without one, a cycle is a usage stop exactly when some line carries a usage sign, and otherwise a halt |
| `StopReason.NoStraddle` | bench/core/providers.py:145-165 | a sign occurs in a labelled reason exactly when it occurs in the label or in the reason |
| `StopReason.BreakerClass` | bench/core/run.py:784-807 | the class of a tripped judge breaker is that of its last error alone |
| `StopReason.QuotaClass` | bench/core/run.py:779-807 | a judge quota is a usage stop unless its message names an outage |
| `StopReason.BreakerRerouted` | bench/core/run.py:650-660 | a breaker tripped on a launch failure is transient, in either phase |
| `StopReason.ClassIgnoresCase` | bench/core/providers.py:145-165 | case does not matter to the class of a reason |
| `Supervise.StreakMeaning` | bench/supervise.py:306-323 | the streak is at least m exactly when the last m cycles were transient and the last m-1 added nothing |
| `Supervise.BackoffsGrow` | bench/supervise.py:320-323 | within a streak backoffs never shorten and lie in [30, 300] |
| `Supervise.BackoffDoubles` | bench/supervise.py:320-323 | the n-th backoff of a streak is 30 doubled n-1 times, or 300 if that is less |
| `Supervise.ParsedExactlyWhen` | bench/supervise.py:152-194 | a reset is parsed exactly when the text gives a time of day that is not ambiguous, in a known zone, and is then the next moment with that hour and minute, noon and midnight, am, pm and the 24-hour clock each as they read |
| `Supervise.UsageSleepIs` | bench/supervise.py:329-346 | a usage stop sleeps the fallback exactly when no reset is parsed or ten minutes past it is not within twelve hours ahead; otherwise it lasts the longer of that time and a minute |
| `Supervise.SleepsMean` | bench/supervise.py:304-353 | over all the cycles of a loop each sleep is the doubled backoff of its streak or that usage sleep |
| `Supervise.ResetIsNext` | bench/supervise.py:152-194 | a parsed reset lies in (now, now + 24h], and the sleep taken from it is ten minutes past it, within [60 s, 12 h] |
| `Supervise.SleepsAreRight` | bench/supervise.py:320-353 | over all the cycles of a loop there is one sleep each: a backoff of 30 to 300 seconds, the fallback, or a time that ends ten minutes or more after the next reset and lasts one minute to twelve hours |
| `Supervise.React` | bench/supervise.py:304-353 | halts exactly when the cycles so far call for it, else sleeps the backoff or the usage sleep they call for, to the second |
| `Supervise.OneCycle` | bench/supervise.py:286-304 | one offline launch extends the run, and is logged with its class and progress |
| `Supervise.SuperviseRun` | bench/supervise.py:285-357 | rc 0 exactly when complete, rc 2 at the first cycle that calls for a halt, rc 3 when the cycles run out; each sleep is the doubled backoff of its streak, or lasts to ten minutes past the parsed reset where that is within reach, or is the fallback; a launch crashes only if something may kill it |
| `Supervise.WhyItHalted` | bench/supervise.py:306-319 | a halt is a halt class, or seven transient cycles of which the last six added no answer |
| `Supervise.ZeroMeansDone` | bench/supervise.py:285-357 | rc 0 from a fresh directory of offline launches means one answer and one verdict for every item |
| `SuperviseBench.ReaderStopClass` | bench/core/run.py:1620-1636 | a stopped answer phase never halts the supervisor: it backs off exactly on a breaker whose last error is a launch failure, and sleeps otherwise |
| `SuperviseBench.JudgeStopClass` | bench/core/run.py:800-808 | a stopped judge phase halts it exactly on a breaker whose last error names neither an outage nor a cap |
| `SuperviseBench.StoppedLaunchClass` | bench/core/run.py:1620-1660 | the class of a stopped launch follows from the first failure or quota that stopped it |
| `SuperviseBench.LoneFailureHalts` | bench/supervise.py:198-215 | a launch that returned unstopped is incomplete exactly when a judge call was lost, and is then read as a halt |
| `SuperviseBench.BenchCycle` | bench/supervise.py:286-304 | one launch of the benchmark extends the run, and is logged with the class it printed |
| `SuperviseBench.SuperviseBenchmark` | bench/supervise.py:285-357 | the same return codes and sleeps around `bench.core.run`, each launch within its numbers of readers and judges, and returning unless something may kill it or no reader serves it |
| `SuperviseBench.FirstComplete` | bench/core/run.py:1604-1697 | the launch that first makes a directory read as complete has graded all that is there, and answered all that is wanted exactly when no reader failed |
| `SuperviseBench.ZeroMeansGraded` | bench/supervise.py:285-357 | rc 0 from a fresh directory means every recorded answer is graded; every question is answered exactly when no call of the last launch failed, and those missing are the ones whose every call did |
| `Lock.OneHolderExactlyWhen` | bench/supervise.py:105-149 | over every run of starts, checks, writes, exits and kills, at most one live process holds the lock throughout exactly when none writes while another, granted the lock since its check, is running |
| `Lock.HolderIsNamed` | bench/supervise.py:105-149 | the file then names the holder, whatever was killed or taken over |
| `Lock.DeadOwnerIsTakenOver` | bench/supervise.py:119-136 | a lock that names no live process keeps nobody out: a check and a write, and the file names the writer, who holds it |
| `Lock.LiveOwnerRefuses` | bench/supervise.py:119-132 | a live owner keeps every other process out |
| `Lock.OneSupervisor` | bench/supervise.py:105-149 | so acquires that no other write interrupts are exclusive |
| `Lock.ReleaseSparesOthers` | bench/supervise.py:137-147 | an exit never deletes a lock that another process holds |
| `Lock.HolderReleases` | bench/supervise.py:137-148 | an orderly exit of the holder leaves no lock, a kill leaves the lock |
| `Lock.Interleaved` | bench/supervise.py:105-136 | from nothing, two processes that both check before either writes both hold the lock |
| `Answering.Consume` | bench/core/run.py:641-664 | the answer is appended, then its envelope; a crash between leaves one answer without |
| `Answering.ConsumeBatch` | bench/core/run.py:673-683 | any batch in any order keeps that |
| `Answering.AnswerArm` | bench/core/run.py:562-683 | never more than twice the concurrency in flight; the appended rows are those of a disciplined history, each unchanged what some read of its question returned; a stop names the failure or quota that set it; unless something may kill it, it drains. Below one, nothing is kept: the first question waits until the process is killed, or the semaphore raises |
| `Answering.AnswerPhase` | bench/core/run.py:537-697 | arm by arm, exactly the questions unrecorded before the phase are asked, and what is appended is what reads of them returned; a stop ends the phase, and names the failure or quota that set it |
| `Answering.PhaseReads` | bench/core/run.py:537-697 | however a phase ends, it adds error-free rows under wanted, unrecorded keys |
| `Answering.TwiceExactlyWhen` | bench/core/run.py:550-557 | a phase that loses nothing leaves each key once exactly when the keys were unique and it asked for none twice |
| `Answering.AskedOnceExactlyWhen` | bench/core/run.py:550-557 | no phase, however it ends, can leave a key twice exactly when the arms want nothing unrecorded twice |
| `Answering.AskedTwice` | bench/core/run.py:230-247 | two arms of one id that share a question write two rows for its key |
| `Answering.Fates` | bench/core/run.py:641-664 | while nothing stopped the pool each submitted question is in flight, kept or failed, exactly one of them |
| `Answering.UnansweredExactlyWhen` | bench/core/run.py:650-697 | a phase that returns leaves a question unanswered exactly when it was unrecorded and every call on it, in any arm, failed |
| `Answering.AllAnsweredExactlyWhen` | bench/core/run.py:650-697 | where nothing is asked twice, everything wanted is answered exactly when no call failed |
| `Answering.SilentLoss` | bench/core/run.py:685-697 | the phase returns normally with losses on exactly the histories an offline pass reports as residual |
| `Answering.SilentLossHappens` | bench/core/run.py:650-660 | one reader error is such a history |
| `Judgement.SplitWhole` | bench/core/run.py:734-735 | the split into abstention and judged rows loses no row and doubles none |
| `Judgement.SplitKeys` | bench/core/run.py:734-735 | so it keeps keys unique |
| `Judgement.AbstainingJoin` | bench/core/run.py:734-735 | keeps the order of what the rule grades |
| `Judgement.JudgedJoin` | bench/core/run.py:734-735 | and keeps the order of what goes to the judge |
| `Judgement.PhaseKeys` | bench/core/run.py:731-798 | no row is graded twice: by rule, by judge, or by both |
| `Judgement.RulePass` | bench/core/run.py:739-744 | abstention rows are graded inline by the rule, up to a crash |
| `Judgement.VerdictsAre` | bench/core/run.py:739-798 | every verdict a phase adds is, for an abstention row, correct exactly when its text declined, and for any other what the judge returned for that row, under its key |
| `Judgement.JudgePhase` | bench/core/run.py:701-810 | what is ungraded, under any order: abstention rows correct exactly when they declined, the rest as the judge graded them, by a disciplined pool; the stop it reports names the failure or quota that set it |
| `Judgement.GradesSoundly` | bench/core/run.py:731-798 | new verdicts grade answered, ungraded rows and are no judge failure, whatever was answered twice; with unique answers, abstention rows are graded by the rule alone |
| `Judgement.AllGradedExactlyWhen` | bench/core/run.py:779-810 | an uninterrupted phase has graded everything exactly when no judge call was lost; a stopped one never has |
| `RunPhases.BenchDir.Merge` | bench/core/run.py:1071-1088 | the loop's results are the join, its own counter the answers without a verdict, and together they are all answers |
| `RunPhases.MissingCounts` | bench/core/run.py:1071-1088 | nothing is counted ungraded exactly when every answer is graded |
| `RunPhases.BenchDir.Report` | bench/core/run.py:1057-1105 | results, manifest and report in that order, killed between any two |
| `RunPhases.BenchDir.Launch` | bench/core/run.py:1604-1697 | one process over any arms: answer, judge unless answering stopped, report either way; what it did is recorded history by history, rows are what was read, verdicts what was judged or declined, each pool within its width; it returns unless something may kill it or no reader serves it |
| `RunPhases.LaunchSteps` | bench/core/run.py:1604-1697 | however a launch ends, it is a sound step of answers and of verdicts |
| `RunPhases.RuleKept` | bench/core/run.py:739-744 | over a launch, verdicts on abstention rows stay the rule's |
| `RunPhases.EnvelopesKept` | bench/core/run.py:662-664 | a death while answering costs at most one envelope, and nothing else does |
| `RunPhases.DeathsAre` | bench/core/run.py:662-664 | deaths are counted one for each launch that died while answering |
| `RunPhases.BenchSafety` | bench/core/run.py:537-810 | over every sequence of launches: keys unique, verdicts only on answers, no error row persisted, d deaths while answering leave at most d answers without an envelope |
| `RunPhases.CompleteExactlyWhen` | bench/core/run.py:1604-1697 | a launch that returns leaves a run that reads complete exactly when the answer phase was not stopped and no judge call was lost, whatever readers failed |
| `RunPhases.FreshlyComplete` | bench/core/run.py:1057-1105 | a launch that makes an incomplete run read complete has graded everything recorded |
| `RunPhases.CompleteMeans` | bench/core/run.py:1598-1697 | over every sequence of launches from nothing, complete means that the last launch to write the manifest was unstopped and left all it held graded; no launch returned since, and the run is graded exactly as far as what they answered is |
| `RunPhases.SurvivesExactlyWhen` | bench/core/run.py:1618-1697 | what reads as complete stays graded over every continuation of a complete run exactly when the run had answered all that is wanted |
| `RunPhases.CompleteWithNothing` | bench/core/run.py:650-697 | one question, one failed call: a run that reads complete with nothing answered |
| `RunPhases.OneJudgeFailure` | bench/core/run.py:784-810 | one question answered, its one judge call failed: the launch returns unstopped and the run is incomplete |
| `RunPhases.CompleteAndUngraded` | bench/core/run.py:1618-1697 | launched again and killed after the answer, it reads complete with an ungraded answer |
| `Space.CollapseShape` | bench/core/space.py:141-146 | collapsing leaves no two hyphens together, and at most one at each end |
| `Space.SlugIsCore` | bench/core/space.py:141-146 | a slug holds only [a-z0-9-], neither starts nor ends with a hyphen, and repeats none |
| `Space.IdsIgnoreCase` | bench/core/space.py:141-157 | ids that differ in case only are one id |
| `Space.SlugFixes` | bench/core/space.py:141-146 | a slug is its own slug |
| `Space.IdIs` | bench/core/space.py:141-157 | an id is its prefix and the slug, cut at the limit and without the hyphens that the cut may leave |
| `Space.IdsAreWellFormed` | bench/core/space.py:141-157 | every derived id matches the database's pattern, truncation included |
| `Space.SlugJoin` | bench/core/space.py:141-146 | slugging run-pack is slugging each and joining them |
| `Space.PackSpacesDistinctExactlyWhen` | bench/core/space.py:256-257 | packs with different first letters have different spaces exactly when the run's slug is at most 55 long |
| `Space.ScopeKeyInjective` | bench/core/run.py:310-323 | haystack and extractor are recovered from the scope key |
| `Space.ArmIsolation` | bench/core/run.py:1568-1577 | distinct (haystack, extractor, pack) triples address distinct places in every later phase |
| `Space.SharedSpace` | bench/core/run.py:1568-1577 | past the bound two packs share one place, although each pack's keys passed the check |
| `Provision.Registry.ProvisionOrAttach` | bench/core/run.py:1188-1242 | goes ahead exactly when scope derivation is total and injective on the keys; otherwise nothing is written and a collision names its two keys. Then the space is what the statements run so far make of it, for a kill between any two |
| `Provision.OneThingEach` | bench/core/space.py:211-258 | each statement adds one thing, in order: the space, its principal, one statement of the pack, and when the pack is whole one scope |
| `Provision.ReadyMeans` | bench/core/run.py:1208-1240 | a launch that survives is told that the space is ready exactly when every scope it asked for is there, each with a principal; refused for want of one, it wrote nothing |
| `Provision.WholeExactlyWhen` | bench/core/space.py:211-230 | over every sequence of launches, whatever stands in the database for the space has its principal and its whole pack exactly when no launch that found no space was killed while building one |
| `Provision.HalfBuiltForGood` | bench/core/run.py:1218-1240 | no later launch adds to the pack of a space, or its principal |
| `Provision.ReadyWithoutPack` | bench/core/run.py:1208-1220 | killed once after the principal, and launched again: reported ready, with none of its pack |
| `Scopes.ClearedExactly` | bench/core/run.py:479-510 | clearing empties one scope in all four tables and leaves every other as it was |
| `Scopes.WhatGoes` | bench/core/run.py:479-510 | row by row in any store: what goes are the nodes and pending writes of the scope, and the edges and log rows of its space that name one of those nodes in either place |
| `Scopes.NothingElseToClear` | bench/core/run.py:495-498 | a scope without nodes holds at most pending writes, so the early return leaves it empty too |
| `Scopes.WrittenHere` | bench/core/ingest.py:386-489 | a write inside a scope changes its content by exactly that write |
| `Scopes.WrittenBeside` | bench/core/ingest.py:386-489 | and changes no other scope |
| `Scopes.OneIngestHolds` | bench/core/run.py:380-395 | what one ingest builds from an empty scope has as many nodes as it created, none older than its start, and only rows of its own beside them |
| `IngestPhase.Store.ClearScope` | bench/core/run.py:479-510 | four statements, each a step of the schedule, with the early return and a death between any two |
| `IngestPhase.Store.Commit` | bench/core/ingest.py:386-489 | one engine write is one step, recorded in the ingest under way |
| `IngestPhase.Store.IngestHaystack` | bench/core/run.py:395 | any number of engine writes, or a prefix of them; nodes_written is the number that made a node |
| `IngestPhase.Store.IngestTriple` | bench/core/run.py:372-400 | clear, ingest, mark; one marker more, or none if killed |
| `IngestPhase.Store.PhaseIngest` | bench/core/run.py:356-404 | the whole phase, killed anywhere, is such a schedule, and every marker is then true; finished, every triple is marked |
| `IngestPhase.StepKeeps` | bench/core/run.py:356-404 | every statement, append and death keeps every marker true and every marked scope unchanged |
| `IngestPhase.UnmarkedOnly` | bench/core/run.py:367-400 | work in an unmarked triple's scope changes no marked one |
| `IngestPhase.WholeIngest` | bench/core/run.py:356-404 | over every schedule of statements, deaths and restarts from an empty store the store is sound: each marker stands for one ingest, and a clear or ingest under way has its scope in the state it should |
| `IngestPhase.MarkedScope` | bench/core/run.py:367-400 | so a marked scope holds, in nodes, edges, log and pending writes, exactly what one complete ingest built from an empty scope, as many nodes as the marker counts, all made since the clear |
| `IngestPhase.MarkedForGood` | bench/core/run.py:356-404 | and never changes again, nor does the ingest it stands for |
| `IngestPhase.IsolationExactlyWhen` | bench/core/run.py:367-400 | no schedule falsifies a marker exactly when distinct triples have distinct places |
| `IngestPhase.SharedPlaceLoses` | bench/core/run.py:367-400 | two triples in one place: a schedule that clears a completed ingest and leaves its marker |
| `IngestPhase.IsolatedByProvisioning` | bench/core/run.py:1223-1229 | provisioning without a collision, in spaces that differ, gives that isolation |
| `Relaunches.RelaunchesSafeExactlyWhen` | bench/core/run.py:1223-1229 | over launches one after another, each accepted on its own keys, killed anywhere, every marker stays true on every schedule exactly when the keys of all launches together are usable and injective in each pack |
| `Relaunches.TwoHaystacks` | bench/core/run.py:1223-1229 | two accepted launches, over haystacks "a b" and "a-b", with a schedule on which the second clears what the first completed |
| `Relaunches.PoliciesHoldExactlyWhen` | bench/core/run.py:383-388 | whichever launches complete the stores, every arm that gets to its questions reads stores built under the policy it names, exactly when no two arms of one store, in one launch or in two, name different ones |
| `Relaunches.TwoPolicies` | bench/core/run.py:383-388 | two arms of one launch; the second reads what was built under the policy of the first |
| `Jaccard.Tokenize` | engraphy/core/jaccard.py:11-23 | the scan yields exactly the set of words |
| `Jaccard.WordsAre` | engraphy/core/jaccard.py:11-23 | a word is in the set exactly when it is a maximal run of letters and digits, folded |
| `Jaccard.IsNovel` | engraphy/core/jaccard.py:26-35 | novel exactly when the overlap is under four fifths of the union |
| `Jaccard.JoinedWords` | engraphy/core/jaccard.py:11-23 | the words of a joined corpus are those of its parts, in any order |
| `Jaccard.GrownCorpus` | engraphy/core/jaccard.py:26-35 | exactly when a text that was not novel stays so as the corpus grows |
| `Addenda.PlanPointwise` | engraphy/admin/addenda.py:127-148 | whether an addendum is planned depends on its marker, its words and the corpus before it, not on what became of those before |
| `Addenda.MemberTitle` | engraphy/admin/addenda.py:78-90 | every title has 3 to 200 characters |
| `Addenda.TitleIs` | engraphy/admin/addenda.py:78-90 | the title is the body up to its first sentence end, without white space around it, if that has 3 to 200 characters; a longer one is cut to 199 and an ellipsis, a shorter one replaced by up to 188 characters of the canonical title and "addendum" |
| `Addenda.PromotionMarks` | engraphy/admin/addenda.py:229-283 | the addenda keep length, order and every field but added markers; the k-th planned one is marked with the k-th new node, which has the kind and scope of the canonical, the body, date and creation time of that addendum and its title, and is active without addenda |
| `Addenda.CommitEffect` | engraphy/admin/addenda.py:229-283 | one transaction changes one record, and adds its members to that node's peers only |
| `Addenda.CommitInserts` | engraphy/admin/addenda.py:229-283 | what one transaction inserts, row by row: for the k-th planned addendum its node, a log row that names the member, the canonical and the author, and where the rule stands an edge from member to canonical |
| `Addenda.RunMakes` | engraphy/admin/addenda.py:187-283 | every node a run adds was made so from an unmarked, novel addendum of one of its nodes |
| `Addenda.OthersUntouched` | engraphy/admin/addenda.py:187-283 | a promotion leaves every other node, its peers and so its plan alone |
| `Addenda.RunAppend` | engraphy/admin/addenda.py:187-283 | running two lists in turn is running their concatenation |
| `Addenda.RunSettles` | engraphy/admin/addenda.py:187-283 | a run promotes each node by the plan it had when the run began |
| `Addenda.QuietExactlyWhen` | engraphy/admin/addenda.py:127-148 | a promoted node has nothing more to promote exactly when it was quiet |
| `Addenda.ResumeExactlyWhen` | engraphy/admin/addenda.py:18-21 | a run killed after any node, then a full run, equals one uninterrupted run exactly when the nodes done were quiet |
| `Addenda.RerunIsNoOpExactlyWhen` | engraphy/admin/addenda.py:18-21 | a full re-run changes nothing exactly when every node was quiet |
| `Addenda.QuietWhenNothingFollowsASkip` | engraphy/admin/addenda.py:103-148 | without a same_topic rule, or with nothing promoted after a skip, a node is quiet |
| `Addenda.RerunCounterexample` | engraphy/admin/addenda.py:18-21 | two addenda for which the documented no-op fails |
| `Addenda.ChangeMarks` | engraphy/admin/addenda.py:187-283 | a run that changes anything leaves fewer addenda unmarked |
| `Addenda.RerunsSettle` | engraphy/admin/addenda.py:18-21 | after at most as many re-runs as there are unmarked addenda, nothing is left to promote and one more changes nothing |
| `Addenda.SelectionStable` | engraphy/admin/addenda.py:175-184 | a promotion does not change which nodes a run selects |
| `Addenda.RunSelectsTheSame` | engraphy/admin/addenda.py:175-184 | nor does a whole run, so a resumed run goes over the same list |
| `Addenda.Partition` | engraphy/admin/addenda.py:190-201 | addenda are marked, planned or skipped, exactly one of them |
| `Addenda.CountsAddUp` | engraphy/admin/addenda.py:187-201 | addenda_seen = promoted + skipped_non_novel + skipped_already_marked |
| `Addenda.TotalMeans` | engraphy/admin/addenda.py:187-201 | each counter of a run is the number of nodes, or of their addenda, that it names: scanned, seen, marked before, planned, neither, and planned without a rule |
| `Addenda.PeersAre` | engraphy/admin/addenda.py:115-125 | the bodies that count are those of the nodes at the other end of a same_topic edge, whichever end that is |
| `Addenda.SelectionDecides` | engraphy/admin/addenda.py:173-184 | a run over a selection promotes each active node with addenda in the scope, and leaves every other node as it was |
| `Addenda.Database.PlanNode` | engraphy/admin/addenda.py:127-148 | the loop over a growing corpus computes the plan |
| `Addenda.Database.CommitNode` | engraphy/admin/addenda.py:229-283 | the store after one transaction: member rows, edges, log rows and markers, each as above |
| `Addenda.Database.PromoteNode` | engraphy/admin/addenda.py:187-283 | one node, dry or applied, and its share of the counts; a crash before commit changes nothing |
| `Addenda.Database.Promote` | engraphy/admin/addenda.py:173-285 | killed or not, the store is that of a run over the nodes done, and every node added was made from a planned addendum; a dry run writes nothing and reports the same counts; it dies only if something may kill it |
| `RoundRobin.VisitedCounts` | bench/core/run.py:831-845 | after q rounds and r visits bucket j has given min(its size, q + (1 if j < r else 0)) |
| `RoundRobin.EveryPrefixBalanced` | bench/core/run.py:831-845 | in every prefix two buckets differ by at most one unless the one behind is exhausted |
| `RoundRobin.ScheduleIsPermutation` | bench/core/run.py:831-845 | the order loses and repeats nothing |
| `RoundRobin.Visit` | bench/core/run.py:839-844 | one turn of the loop, with its index taken modulo the buckets |
| `RoundRobin.Interleave` | bench/core/corpus.py:223-232 | the loop terminates with exactly the first `limit` items of that order |
| `GradingOrder.SortSorts` | bench/core/run.py:834-835 | sorting a bucket orders it by digest and keeps its items |
| `GradingOrder.SortedIsUnique` | bench/core/run.py:834-835 | with distinct digests the sorted bucket is determined by its items |
| `GradingOrder.OrderIndependent` | bench/core/run.py:831-845 | the order does not depend on the order of the input when digests in a bucket are distinct |
| `GradingOrder.OrderIsPermutation` | bench/core/run.py:831-845 | every row is graded once and none invented |
| `GradingOrder.AnyPrefixIsBalanced` | bench/core/run.py:813-845 | an interrupted grading covers any two buckets equally to within one, unless one is exhausted |
| `GradingOrder.Group` | bench/core/run.py:831-833 | groups hold exactly the rows of their bucket, in input order |
| `GradingOrder.JudgeOrder` | bench/core/run.py:813-845 | the method computes that order |
| `Subsets.Validate` | bench/core/corpus.py:171-195 | true exactly on a valid corpus: nonempty, distinct ids, every question's haystack present |
| `Subsets.Subset` | bench/core/corpus.py:205-241 | the sample is the first min(limit, n) questions of the balanced order, balanced across the strata, with the haystacks they need; on a valid corpus it never raises |
| `Subsets.KeepingLast` | bench/core/corpus.py:234-241 | the haystacks kept are those that a picked question needs, in the order of the corpus |
| `Subsets.OrderDistinct` | bench/core/corpus.py:215-241 | the order of distinct questions is distinct |
| `Subsets.SubsetIsValid` | bench/core/corpus.py:236-241 | the closing validation holds on every sample of a valid corpus |
| `Subsets.SubsetsNest` | bench/core/corpus.py:205-241 | samples for growing limits are nested, with min(limit, n) questions, each balanced across the strata |
| `Throttle.RecentIsSuffix` | bench/core/providers.py:559-567 | pruning cuts off a prefix, all of it a minute old |
| `Throttle.AtMostRpmAMinute` | bench/core/providers.py:552-568 | no minute, wherever it starts, holds more than rpm requests |
| `Throttle.SpacedExactlyWhen` | bench/core/providers.py:552-568 | the spacing the limiter keeps is equivalent to that bound |
| `Throttle.Limiter.Prune` | bench/core/providers.py:558-567 | the window is re-read after the clock and stays the end of what was sent |
| `Throttle.Limiter.Pace` | bench/core/providers.py:558-568 | for any clock and any sleep at least as long as asked, the spacing of all requests ever sent is kept; it sleeps at most once, for a quarter second more than the oldest request in a full window needs, and not at all otherwise |
| `Throttle.Limiter.GeminiThrottle` | bench/core/providers.py:552-568 | at most rpd requests a day, then the spacing; a cap of zero a minute raises |
| `Throttle.Limiter.OpenAiThrottle` | bench/core/providers.py:943-961 | the same spacing where configured, no wait otherwise |
| `Retry.RetryAfter` | bench/core/providers.py:1189-1203 | a stated wait lies in [0, 300] and is kept when it already does |
| `Retry.StrictClosed` | bench/core/providers.py:969-1025 | the result is that of the first reply that ends the call, if an attempt is left for it |
| `Retry.PatientClosed` | bench/core/providers.py:1027-1043 | the result if renamings cost nothing, as documented |
| `Retry.RenamingCostsExactlyWhen` | bench/core/providers.py:994-996 | the two differ exactly when the renamings push that reply past the last attempt |
| `Retry.RenamingCostsTheCall` | bench/core/providers.py:994-996 | one attempt, one renaming, and an answer never asked for |
| `Retry.WaitsDouble` | bench/core/providers.py:570-617 | where no endpoint names its own wait the waits double from the first |
| `Retry.WaitsAreDoubling` | bench/core/providers.py:969-1025 | where no endpoint names its own wait, the waits of a call are two seconds, four, and so on |
| `Retry.WaitsCount` | bench/core/providers.py:969-1025 | one wait for each attempt after the first that no renaming bought |
| `Retry.TotalWait` | bench/core/providers.py:570-617 | n attempts wait less than 2^n seconds in all |
| `Retry.OpenAiClient.SwitchField` | bench/core/providers.py:1027-1043 | renames exactly when the refusal names the other field and the body carries this one |
| `Retry.OpenAiClient.Handle` | bench/core/providers.py:988-1024 | by code: 200 answers, an exhausted balance is a quota, 429, 5xx and no connection wait, a refused field is renamed, anything else fails; the wait is the delay, or what the endpoint names within 0 to 300 seconds |
| `Retry.OpenAiClient.Post` | bench/core/providers.py:969-1025 | requests sent, waits and result are exactly those of the strict loop, under the limiter; without stated waits they double from two seconds |
| `Retry.GeminiClient.Handle` | bench/core/providers.py:581-616 | the same codes without renaming or stated waits |
| `Retry.GeminiClient.Post` | bench/core/providers.py:570-617 | the same under a daily cap read before every attempt, which ends the call as a quota stop exactly when it has no room for the attempts needed |
| `Windows.WindowSessions` | bench/core/extract.py:561-609 | an error exactly for a bad size or overlap; a short session whole; otherwise the slices at each step up to the end |
| `Windows.EachWindowAdds` | bench/core/extract.py:575-609 | every window but the last is full, each adds a turn, the last ends the session |
| `Windows.Reconstruction` | bench/core/extract.py:575-609 | the first window followed by what each later one adds is the session |
| `Windows.CoveredExactlyWhen` | bench/core/extract.py:575-609 | a split session is wholly covered exactly when the overlap is not negative |
| `Dupstream.ArmResult.Take` | bench/dupstream/run.py:68-111 | one reply moves exactly the counters that name it, and records its landing and its merge |
| `Dupstream.RunArm` | bench/dupstream/run.py:57-113 | each counter is the number of writes, or of confirmations, that got the reply it names; landings and merges in order |
| `Dupstream.TimesIs` | bench/dupstream/run.py:57-113 | those numbers are sizes of sets of positions |
| `Dupstream.TimesAddUp` | bench/dupstream/run.py:57-113 | every write and every confirmation is counted once, or leaves the one trace it leaves, and merges and landings are as many as the counters say |
| `Dupstream.MissedWithoutCredit` | bench/dupstream/run.py:185-225 | an opportunity is uncredited exactly when the write did not merge, or merged onto a node another class landed on first |
| `Dupstream.CreditIdentity` | bench/dupstream/run.py:171-234 | credited merges + missed opportunities = opportunities + orphans, for every stream |
| `Dupstream.TracedIsBounded` | bench/dupstream/run.py:205-234 | if every merge target had been landed on, recall is at most one |
| `Dupstream.UntracedExceeds` | bench/dupstream/run.py:205-234 | a stream with an unrecorded outcome on which recall would be two |
| `Dupstream.OwnersOwned` | bench/dupstream/run.py:171-176 | the first variant to land on a node determines its class |
| `Dupstream.TallyMeans` | bench/dupstream/run.py:185-203 | the loop's counts are those of the definitions, and nothing is unattributed |
| `Dupstream.CountOpportunities` | bench/dupstream/run.py:218-225 | counts exactly the writes that follow one of their class and are no contradiction |
| `Dupstream.ScoreArm` | bench/dupstream/run.py:152-234 | the assertion fires exactly when orphans outnumber missed opportunities; otherwise all three rates are fractions of the counts they name |
| `Wilson.Bracket` | bench/core/meter.py:95-109 | the scaled root brackets the rate from both sides |
| `Wilson.InsideUnit` | bench/core/meter.py:95-109 | 0 <= low <= s/n <= high <= 1, and the clamps change nothing; with nothing graded both ends are 0 |
| `Wilson.HoldsExactlyWhen` | bench/core/meter.py:95-109 | the interval holds exactly the rates from which the observed one is at most z standard errors away, the error being that of the rate itself |
| `Wilson.Mirrored` | bench/core/meter.py:95-109 | the interval of the failures mirrors that of the successes |
| `Wilson.RootIsUnique` | bench/core/meter.py:95-109 | the root the code takes is the only one |
| `Scoring.ScoreIsFraction` | bench/core/scoring.py:161-190 | partial credit lies in [0, 1] and is 1 exactly on a strictly correct answer |
| `Scoring.CreditIs` | bench/core/scoring.py:176-190 | credit is the share of the gold parts that are in the answer, and none for a blank or declining one |
| `Scoring.PresentExactlyWhen` | bench/core/scoring.py:141-158 | a part is in an answer exactly when the date rule finds it, for a dated one; when nothing is left of it, or it stands in the answer, or it has words that matter and the answer has each, for any other |
| `Scoring.WordNormal` | bench/core/scoring.py:37-63 | a word is dropped, written in digits, or kept |
| `Scoring.NumberNormal` | bench/core/scoring.py:57-63 | a number keeps its digits, and an ordinal loses its suffix |
| `Scoring.UnitNormal` | bench/core/scoring.py:37-44 | zero to nineteen in words are those numbers in digits |
| `Scoring.TenNormal` | bench/core/scoring.py:37-44 | twenty to ninety likewise |
| `Scoring.NormalIgnoresCase` | bench/core/scoring.py:57-63 | case does not matter |
| `Scoring.NormalJoin` | bench/core/scoring.py:57-63 | normalising a text in two parts is normalising each |
| `Scoring.NormalSplits` | bench/core/scoring.py:57-63 | no word straddles a character that is neither a letter, a digit nor an underscore |
| `Scoring.UnderscoreSplits` | bench/core/scoring.py:57-63 | nor one that is an underscore |
| `Scoring.PresentInEither` | bench/core/scoring.py:141-158 | a date-free part found in either part of an answer is found in the whole |
| `Scoring.AppendingNeverHurts` | bench/core/scoring.py:176-190 | appending text to an answer that stays one never lowers its score on date-free gold |
| `Scoring.RecitalIsComplete` | bench/core/scoring.py:176-190 | reciting the gold parts covers them all |
| `FairScores.Ordered` | bench/core/report.py:545-574 | for every row list the strict count is at most the fair count, at most the credit, at most n |
| `FairScores.Totals` | bench/core/report.py:560-573 | the loop's four totals, flips being fair minus strict |
| `FairScores.RowScoresAre` | bench/core/report.py:560-573 | a row is strictly correct as the judge said; fairly if that or, where no abstention was expected, every gold part is there; and its credit is 1 or the share of the parts |
| `FairScores.CountsAre` | bench/core/report.py:560-573 | the strict and fair totals are numbers of such rows |
| `FairScores.OfAre` | bench/core/report.py:554-556 | the rows of an arm are those that name it, in order |
| `FairScores.Average` | bench/core/report.py:545-574 | strict <= fair <= partial <= 1 and flips = n (fair - strict) |
| `IngestDrafts.Adjudicator.Decide` | bench/core/ingest.py:148-184 | a merge is decided exactly when an offered candidate is named; every call is a decision or a counted fallback |
| `IngestDrafts.FatesPartition` | bench/core/ingest.py:427-603 | every draft is a node or a counted error, by exactly one of nine fates |
| `IngestDrafts.CountersCount` | bench/core/ingest.py:511-603 | each counter is the number of drafts that met its fate |
| `IngestDrafts.CountersConserve` | bench/core/ingest.py:427-603 | drafts = inserted + merged + merged_linked + needs_confirmation + first-stage errors, and needs_confirmation splits the same way |
| `IngestDrafts.TallyCountsReplies` | bench/core/ingest.py:511-603 | each counter is the number of drafts that got its reply: the write, the resolution, and for the two decisions whether an offered candidate was named under the LLM policy; errors are the replies that are none of these |
| `IngestDrafts.NeverMergesByDefault` | bench/core/ingest.py:88-105 | the deterministic policy decides no merge |
| `IngestDrafts.HandleMeans` | bench/core/ingest.py:324-378 | a local id or title leads to the last node written under it and to nothing else |
| `IngestDrafts.TargetIsKnown` | bench/core/ingest.py:620-643 | what a supersede points at was written earlier or is a literal id |
| `IngestDrafts.TargetIs` | bench/core/ingest.py:620-643 | a supersede goes to the last node written under the name as a local id, else as a title, else to the name itself if it is an id, and otherwise nowhere |
| `IngestDrafts.ResolvesExactlyWhen` | bench/core/ingest.py:620-643 | it resolves exactly when it names something written or is an id |
| `IngestDrafts.MergedIsFound` | bench/core/ingest.py:620-643 | for every draft that merged, a later draft that names it by id or title resolves to the node it merged into |
| `IngestDrafts.EdgesJoinWritten` | bench/core/ingest.py:658-682 | every edge sent joins two different nodes that were written |
| `IngestDrafts.WrittenJoin` | bench/core/ingest.py:336-383 | what is written keeps the order of the drafts |
| `IngestDrafts.LinksAre` | bench/core/ingest.py:658-682 | the edges sent are exactly those whose two ends lead to different nodes with ids, each once and in the order given |
| `IngestDrafts.ForwardEdgesKept` | bench/core/ingest.py:336-383 | an edge to a draft written later is sent as well |
| `IngestDrafts.Ingest.Confirm` | bench/core/ingest.py:557-599 | a pending write is answered, tallied by what happened, and yields its node |
| `IngestDrafts.Ingest.RecordOutcome` | bench/core/ingest.py:511-603 | each reply moves exactly the counters that name it, and yields the node it names |
| `IngestDrafts.Ingest.WriteDraft` | bench/core/ingest.py:386-489 | a supersede is attempted exactly when a known target resolves, else counted as unresolved |
| `IngestDrafts.Ingest.Run` | bench/core/ingest.py:303-383 | over all drafts each counter is the number of replies it names, the handles and supersedes are as stated, and the edges are judged by the final handles |

## Left out

- RunPhases.BenchDir.Launch: the answer, judge and report phases together, without the choice of phases, calibration and diagnosis.
- Judgement.JudgePhase: takes the grading order as any reordering of its rows; that `_judge_order` is one is `GradingOrder.OrderIsPermutation`.
- IngestPhase.MarkedScope: a node's text is a number, and which content an extractor produces is arbitrary.
- Space.PackSpacesDistinctExactlyWhen: for packs whose slugs differ in their first letter, as the shipped packs' do.
- Throttle.Limiter.Pace: in exact reals, with the request sent at the moment it is recorded.
- Scoring.AppendingNeverHurts: on ASCII text; parts with dates are left to an arbitrary rule, for which it fails when a word such as "before" is appended.
- Jaccard.Tokenize: lower-casing is per character; the Unicode cases in which it depends on neighbours are not modelled.
- Space.SlugIsCore: ASCII lower-casing; the two non-ASCII letters whose lower case is ASCII are not modelled.
- IngestDrafts.Ingest.RecordOutcome: without the counters of quarantined attributes, downgraded supersedes and attached links.
- The retrieval and dedup engine (writes, resolution, supersede, link, search): its replies are arbitrary, and in the ingest phase its writes are confined to the scope it was given.
- Concurrent writers during the migration, ingest or a run: one operator at a time, apart from the lock.
- Node ids are numbers counted up instead of random UUIDs, so stores are compared up to that naming; the literal-id test is a parameter.
- Digests of question ids are numbers, and buckets are numbered by rank; the seeded hash enters only through the digests.
- Relaunches.RelaunchesSafeExactlyWhen: for packs whose spaces differ and extractor names without a colon, which arm parsing rules out.
- Provision.Registry.ProvisionOrAttach: the statements of a pack are counted, not told apart, and the space configuration written last is left out.
- Checkpoint rows are appended whole: torn lines and encodings are not modelled.
- Database constraint failures other than those named, and constraint names in error tallies.
- Text patterns: the reset line, dates, the split of gold answers and the abstention rule enter as their extracted fields or as parameters.
- Token and latency meters, percentiles, aggregation by category, rendering, calibration and diagnosis phases: no property beyond their definitions.
- The verbatim and LLM extractors, their title clamping and source text: only the windows they are given.
- The CLI client, transport and process launching; the desktop application, deployment and release scripts.
