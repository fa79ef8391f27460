# Earmark: verified models of its core algorithms and protocols

Earmark transcribes an audiobook library: runners claim jobs from a queue and
transcribe long files window by window, a batch coordinator shares one GPU between
transcription and analysis, a second ("pilot") recogniser re-hears the audio, the two
transcripts are aligned and compared, and suspected errors are judged by configurable
model endpoints. This project models six of its cores in Dafny and proves what each of
them is relied on for.

* **Alignment** (`EditDistance`, `Levenshtein`, `EditGraph`, `MyersDiff`, `Align`, `SpanGap`,
  `Coverage`, `Compare`). The edit distance is pinned down as the least cost of any
  alignment and proved a metric; the two-row method with reused buffers computes it. The
  greedy diff is proved optimal on a grid extended past both texts, its backtrace replays
  it, and it fails exactly when more edits than allowed are needed. From there: the
  alignment's exact-match columns are a longest common subsequence with the runs between
  them laid out from the matches outward, what the pilot heard in a span is one contiguous
  run, and a comparison part by part counts the least errors any alignment within the parts
  has.
* **Long-form transcription** (`Stitching`, `ChunkedJob`, `Segmentation`). Any series of
  stops, crashes, yields and failed saves ends, if it ends, with the result of one
  uninterrupted run, which keeps what its windows are heard to say and nothing else.
  Segments keep their limits and say their words; re-segmenting is idempotent.
* **Job queue and GPU sharing** (`JobQueue`, `RunnerWrites`, `Coordinator`, `BatchLock`).
  Runners, sweeps, requeues, operators and lost commit replies interleave freely. The
  coordinator drives that same queue: any number of its steps lie between two calls, and
  store errors, cancellation, timeouts and lock loss can come at any of them. What is
  claimed during a run is bounded by what the run granted.
* **Pilot planner and pipeline** (`WindowPlanner`, `PilotPipeline`).
* **Step settings** (`StepSettings`, `StepConfig`): settings laid over a shared
  configuration; the value-level overlay is proved correct, and the methods that carry it
  out on shared objects are proved to compute it and to write nothing of the base.
* **Judging backfill** (`Backfill`): a keyset walk over a selection that shrinks meanwhile.

Times and thresholds are `real`; counters that the source keeps in ordinary integers are
unbounded. What lies outside (recognition, connections, clocks, other processes, file
errors) is a parameter of the method concerned: a function from the number of a call to
what happens at it, over which every contract is universally quantified.

`Optional`, `Selection` and `Texts` hold the option type, greedy selections and the text helpers the modules share.

## Where the code falls short of its description

Each of these comes with the exact condition and an input that misses it.

* `runner/pilot.py:671` says windows are of at most the target length. A folded tail
  (`runner/pilot.py:693-698`) makes the last window longer, up to the hard maximum: every
  window is within the target exactly when the tail is not folded
  (`WindowPlanner.WithinTargetUnlessFolded`, `WindowPlanner.TargetExceeded`).
* A yield is meant to cost at most a window (`runner/runner.py:3415-3420`), so that yielding
  makes progress. An unreadable checkpoint restarts the job at zero
  (`runner/runner.py:3069-3071`), and a yield may then leave the file as it was. Yields make
  progress exactly when the file can be read, holds nothing of this work, or one window
  finishes it (`ChunkedJob.YieldsMakeProgress`,
  `ChunkedJob.UnreadableCheckpointMakesNoProgress`); how many more yields an unreadable file
  can cost is bounded by `ChunkedJob.YieldsAreBounded`.
* The window count is described as the number of windows processed
  (`runner/runner.py:3362-3363`). It is, exactly for files of positive duration; for one
  without, it is one although no window is taken (`ChunkedJob.WindowsAreCounted`).
* A checkpoint is never to fail its job (`runner/runner.py:3049-3050`). One whose bytes are not
  text raises an error that the load does not catch (`runner/runner.py:3065-3071`): the session
  fails and the file stays. A checkpoint fails its job exactly when it can be read and is not
  text (`ChunkedJob.CheckpointFailsJobExactly`), and then in every session
  (`ChunkedJob.UndecodableCheckpointBlocks`).
* The exit restores idle while no successor owns the control row. Between the holder lookup
  and the two restore writes lies a window (`internal/batch/batch.go:363-364` names it): with
  the lock lost, a successor that starts in it leaves the restore reporting success and the
  phase not idle. `Coordinator.RestoreIdle` and `Coordinator.Run` say exactly which phase is
  left, always idle while the lock is held; `Coordinator.SuccessorInTheWindow` is the run.
* When the initial phase cannot be read the coordinator has captured nothing yet, and its
  exit makes the queue unlimited (`internal/batch/batch.go:389-395`), whatever bound an
  operator had set. `Coordinator.BudgetComesBack` says when the bound comes back,
  `Coordinator.BudgetLost` shows it lost.
* A setting equal to the environment's binding brings back the environment's pin
  (`internal/config/stepsettings.go:342-350`), but not over a layer that already bound the
  same endpoint and model with a pin of its own (`internal/config/stepsettings.go:307-313`):
  `StepSettings.EnvPinComesBack` and `StepSettings.LayerKeepsItsPin`.

## Model

| member | source | states |
|---|---|---|
| EditDistance.LevIsLeastAlignmentCost | internal/asrpilot/align.go:147-173 | The distance is the least number of non-matching columns of any alignment of the two texts, and some alignment attains it |
| EditDistance.LevIsMetric | internal/asrpilot/align.go:147-173 | Zero exactly for equal texts, symmetric, triangle inequality, between the length difference and the longer length |
| EditDistance.LevSubadditive | internal/asrpilot/report.go:129-147 | Cutting both texts in two can only add errors |
| EditDistance.TilesReadsBothSides | internal/asrpilot/align.go:11-27 | Tiling columns list every index of both texts exactly once, in order |
| Levenshtein.FillRow | internal/asrpilot/align.go:158-171 | One pass turns the previous row of distances into the next, whatever the row held |
| Levenshtein.LevenshteinBuf | internal/asrpilot/align.go:150-173 | With any buffer contents, and although it may swap its arguments, it returns the edit distance of the texts as given, and keeps the buffer usable |
| Levenshtein.Levenshtein | internal/asrpilot/align.go:144-146 | The same with a buffer of its own |
| Levenshtein.Intern | internal/asrpilot/align.go:179-191 | Numbers words one to one, keeping numbers already given |
| Levenshtein.WordErrors | internal/asrpilot/align.go:175-194 | Interning leaves the distance of the word sequences unchanged |
| Levenshtein.Similarity | internal/asrpilot/align.go:130-139 | In [0,1], one exactly for equal texts, and the stated ratio of the distance to the longer length |
| EditGraph.LcsIsLongestMatching | internal/asrpilot/align.go:69-72 | The recursive length is that of a longest strictly ascending matching of equal tokens |
| EditGraph.EditsLeaveLcs | internal/asrpilot/align.go:69-128 | Inside the grid, edits = lengths - 2 * longest common subsequence |
| EditGraph.EditsPastTheEnds | internal/asrpilot/align.go:84-93 | A point past an end of a text costs at least its overhang more than the corner: running off the grid never helps |
| EditGraph.GreedyEntry | internal/asrpilot/align.go:83-90 | Taking the further of the two neighbours enters a diagonal at a point beyond which only diagonal moves lead |
| EditGraph.SnakeIsFurthest | internal/asrpilot/align.go:91-94 | Following equal tokens from there gives the furthest point reachable with these edits |
| MyersDiff.FollowDiagonal | internal/asrpilot/align.go:82-94 | Computes the furthest point of one diagonal from the array the previous round left |
| MyersDiff.Step | internal/asrpilot/align.go:81-100 | One round over all its diagonals, in place: it finds the corner exactly when that many edits suffice, otherwise the array holds every furthest point of the round |
| MyersDiff.ForwardPass | internal/asrpilot/align.go:73-101 | Finds the least number of edits, or reports that it exceeds the bound; the saved trace holds every round's furthest points |
| MyersDiff.Backtrace | internal/asrpilot/align.go:103-124 | From any such trace, a strictly ascending list of equal pairs whose number makes up for exactly the edits found |
| MyersDiff.DiffMatches | internal/asrpilot/align.go:69-128 | Succeeds exactly when lengths - 2 * LCS is within the bound, and then returns a longest strictly ascending matching |
| Align.NoEqualTokensBetweenMatches | internal/asrpilot/align.go:20-58 | Between two successive matches of a longest matching no token of one side equals one of the other |
| Align.ColumnsOfLongestMatching | internal/asrpilot/align.go:36-66 | The columns tile both texts, agree exactly at the matches, and cost between the edit distance and the edit count; in the leading unmatched run no gap follows a substitution, in every other no substitution follows a gap, and all gaps of a run are on one side |
| Align.GapRun | internal/asrpilot/align.go:38-58 | Appends one unmatched run that lists both sides in order in as many columns as the longer has; its gaps are all on that side, before the pairs at the very start, behind them anywhere else |
| Align.Align | internal/asrpilot/align.go:22-67 | None exactly on a text too long or too many edits; otherwise columns that tile both texts, whose exact matches are a longest matching and whose cost lies between the two distances, with the gaps of the leading run before its pairs and those of every other run behind them |
| Align.LeadingRunEndsInPair | internal/asrpilot/align.go:38-48 | A leading run with tokens on both sides ends in a pair next to the first agreed column |
| SpanGap.Gap | internal/asrpilot/vote.go:456-510 | Each side is anchored exactly when a column outside the span agrees there, its bound then being the nearest such; otherwise no production token of that side lies within it, and it is widened past pilot-only columns; together the bounds hold every production token of the span and no agreed column outside it |
| SpanGap.BoundsHoldSpan | internal/asrpilot/vote.go:460-510 | The same for any bounds that satisfy the two sides' rules |
| SpanGap.HeardIsOneRun | internal/asrpilot/vote.go:447-453 | The pilot tokens of any stretch of columns are one contiguous run |
| SpanGap.Heard | internal/asrpilot/vote.go:447-453 | The tokens read off are exactly those of the columns, in order, and one slice of the pilot window |
| SpanGap.HeardInSpan | internal/asrpilot/vote.go:416-453 | Too large and too different exactly as the limits say; otherwise, from the columns of a longest matching laid out as Align promises, one run of the pilot tokens that holds the span, or the tokens in its time when no neighbour agrees and the pilot has word times |
| Coverage.MergeIntervals | internal/asrpilot/report.go:59-73 | The result covers the same times as the input and its intervals are apart, in order |
| Coverage.AdvanceIsComplete | internal/asrpilot/report.go:84-95 | Advancing past the interval that ends first loses no common time |
| Coverage.Intersect | internal/asrpilot/report.go:76-97 | With a whole track on a side the other side; otherwise covers exactly the times in an overlap of both, with proper intervals that are apart |
| Compare.WindowCuts | internal/asrpilot/report.go:159-175 | Ascending cuts, each before the first token at which one is due, and none due after the last |
| Compare.CutsAreAtBoundaries | internal/asrpilot/report.go:159-175 | Between two cuts lie at least 250 words, and fewer than 1000 only when the later cut is at a segment boundary; it is in the middle of the pause there, and a boundary passed over had its pause not after the last cut |
| Compare.SearchFloats | internal/asrpilot/report.go:180-186 | The first cut not below the time |
| Compare.ByWindow | internal/asrpilot/report.go:177-188 | Each window holds exactly the tokens whose midpoint lies from its cut up to the next, in order |
| Compare.WindowsPartition | internal/asrpilot/report.go:129-188 | The windows lose and duplicate no token, and in order of time their concatenation is the whole text |
| Compare.WindowedBoundsJoined | internal/asrpilot/report.go:129-147 | The windows' errors lie between the distance of the joined texts and their total length |
| Compare.CompareFull | internal/asrpilot/report.go:137-147 | Counts every token of both sides once. Its errors are the least cost of any alignment that pairs no token with one of another window: none costs less and, when midpoints never run back, one costs just that. So none for a track against itself, the whole tracks' word errors when there is one window (as for short tracks), and never fewer than those when midpoints never run back |
| Compare.ComparePartial | internal/asrpilot/report.go:135-157 | Over separated intervals, counts exactly the covered tokens; its errors are the least cost, in covered tokens, of any alignment that pairs no token of an interval with one outside it; none for a track against itself |
| Compare.PartErrorsIsLeast | internal/asrpilot/report.go:129-157 | For any parts that follow each other in time, the errors part by part are the least any alignment within the parts has |
| Stitching.OffsetTimestamps | runner/runner.py:3242-3298 | Keeps the entries of the core range, shifted to file time, with end never before start |
| Stitching.RebasedAreOwn | runner/runner.py:3242-3298 | Exactly the entries that start in the core range are kept, in order, each with its text, its start moved to file time, and its end unless that lies before its start |
| Stitching.StitchedIsSeamless | runner/runner.py:3308-3340 | Starts strictly increase and no two kept entries of equal text start within the tolerance; what was kept stays |
| Stitching.StitchedConcat | runner/runner.py:3308-3340 | Appending window by window equals appending their concatenation |
| Stitching.StitchedAbsorbs | runner/runner.py:3308-3340 | Every entry offered is in the end kept, too early, or a repeat |
| Stitching.StitchedSelects | runner/runner.py:3308-3340 | An entry offered is kept exactly when it starts after the last one kept before it and no entry of its text kept before it starts within the tolerance |
| Selection.SelectionIsUnique | runner/runner.py:3308-3340 | Such a rule and what was offered determine what is kept |
| Stitching.ReplayChangesNothing | runner/runner.py:3308-3340 | Appending a window a second time changes nothing |
| Stitching.EntryList.RepeatsRecent | runner/runner.py:3328-3338 | The backward scan with its early exit decides the same as a scan of everything kept |
| Stitching.EntryList.AppendMonotonic | runner/runner.py:3308-3340 | Extends the list in place to the stitched one |
| ChunkedJob.OneWindow | runner/runner.py:3387-3408 | One window transcribed, cut, rebased and appended in place is one step of the uninterrupted run |
| ChunkedJob.TranscribeChunked | runner/runner.py:3343-3428 | With a checkpoint the loop, its file and every interruption behave as the specified session, without one as an unsaved run; the text and the window count are those of the result |
| ChunkedJob.ResultIsWhatIsHeard | runner/runner.py:3376-3408 | The uninterrupted run hears window after window from the start of the file to the first that reaches its end, each by a clip that begins with it and, but for the last, runs over into the next; each offers just the entries it owns, in file time; of all those offered, in order, exactly those are kept that the ones kept before allow |
| ChunkedJob.NothingIsLost | runner/runner.py:3387-3408 | Every entry a window owns is kept, too early or a repeat, and every entry kept is one that some window owns |
| ChunkedJob.TextSaysWhatIsKept | runner/runner.py:3422-3426 | The text says, word for word and in order, what the segments say or, when they say nothing, what the words do |
| ChunkedJob.WindowsAreCounted | runner/runner.py:3360-3373 | The window count reported is the number of windows the uninterrupted run takes exactly when the file has a positive duration; otherwise one is reported and none taken |
| ChunkedJob.WithoutCheckpoint | runner/runner.py:3415-3420 | Without a checkpoint a job never yields and returns the uninterrupted result |
| ChunkedJob.SessionKeepsPrefix | runner/runner.py:3062-3135 | The file holds a prefix of the work its fingerprint names before and after any session; a finished session returns the uninterrupted result; a yield follows a newly saved window |
| ChunkedJob.SessionEndsAtFirstStop | runner/runner.py:3409-3420 | A session goes through its windows up to the first at which it fails, dies, has lost the claim or finds the gate closed with the window saved, ends there in that way, and leaves in the file exactly the windows done before the first failed save |
| ChunkedJob.RunStaysHonest | runner/runner.py:3062-3135 | The same over any run of sessions, of this and other jobs |
| ChunkedJob.InterruptedEqualsUninterrupted | runner/runner.py:3343-3428 | Whatever sessions came before, a session that finishes returns exactly the uninterrupted words and segments |
| ChunkedJob.YieldsAreBounded | runner/runner.py:3411-3420 | A job yields fewer times than it has windows while its checkpoint can be read, and at most once more per window for each time it cannot |
| ChunkedJob.YieldsMakeProgress | runner/runner.py:3062-3088 | Every yield of a session leaves more windows saved exactly when the file can be read, holds none of this work, or one window finishes the file |
| ChunkedJob.UnreadableCheckpointMakesNoProgress | runner/runner.py:3069-3071 | A run with an unreadable checkpoint that yields without progress |
| ChunkedJob.CheckpointFailsJobExactly | runner/runner.py:3062-3088 | A checkpoint keeps its job from finishing exactly when it can be read and its bytes are not text |
| ChunkedJob.StaleCheckpointIsDeleted | runner/runner.py:3072-3088 | A checkpoint that can be read but is stale or corrupt is gone after the session or replaced by one of its own, unless it could not be deleted |
| ChunkedJob.UndecodableCheckpointBlocks | runner/runner.py:3065-3071 | Such a file fails every session and stays, over any run in which it can be read |
| Segmentation.NormalizedIsNormal | runner/runner.py:3585-3620 | The words by start, then end, then as given, less exactly those that repeat the word kept before them and start before it ends; ordered, made of the given words; idempotent |
| Segmentation.NormalizeWords | runner/runner.py:3604-3620 | The loop computes that normal form |
| Segmentation.WordsToSegments | runner/runner.py:3623-3700 | The greedy loop computes the specified grouping, each segment with its times, text and main speaker |
| Segmentation.MainSpeakerIsMostNamed | runner/runner.py:3688-3689 | A segment has a speaker exactly when its words name one, and no other is named more often |
| Segmentation.SegmentsReportTheirWords | runner/runner.py:3683-3699 | The text of each segment says its words' texts, word for word and in order; its speaker is a name that most of its words carry, missing exactly when none of them carries one |
| Segmentation.SegmentsKeepLimits | runner/runner.py:3623-3700 | Segments hold the normalized words in order; each keeps the word cap, the gap cap and the span cap before its last word; starts never decrease |
| Segmentation.SegmentsEndOnlyWhenBroken | runner/runner.py:3630-3636 | A segment ends only where the next word comes after more than the gap cap, or from another speaker, or finds the segment at its span or word cap |
| Segmentation.ResegmentExisting | runner/runner.py:3702-3733 | Re-derives the segments of the stored words |
| Segmentation.ResegmentIsIdempotent | runner/runner.py:3715-3718 | Re-segmenting segments reproduces them, text, speakers and scores included, under the same tie-break |
| JobQueue.ApplyKeepsInv | runner/runner.py:740-756 | Every action, heard or not, keeps the queue's invariant |
| JobQueue.ReachableKeepsInv | runner/runner.py:1227-1287 | So does every interleaving |
| JobQueue.EveryRunKeepsInv | runner/runner.py:1227-1287 | The empty database satisfies it, so every state of every run does |
| JobQueue.DoneByItsOwnClaim | runner/runner.py:1885-1911 | A row turns done only by the runner that holds it, under the very claim it is working on, and the transcript is that claim's |
| JobQueue.DoneStaysDone | runner/runner.py:1885-1905 | Without a requeue a done row and its transcript never change |
| JobQueue.OneClaimFinishesOnce | runner/runner.py:1826-1911 | Over any run one claim turns its row done at most once |
| JobQueue.QueuePromises | runner/runner.py:1914-2031 | In every reachable state: done exactly when a transcript exists; attempts = claims - refunds, within 0..3; a claimed row has been charged, so a refund never clamps; a pending row can be claimed |
| JobQueue.StatusChanges | runner/runner.py:1914-2031 | Every way a job's status changes: claimed only from waiting by an idle runner, done or failed for good or refunded only by its holder; a claim that ends otherwise fails the job exactly when it was its third attempt |
| JobQueue.JobCanFinish | internal/db/db.go:557-622 | No job is ever stuck: from every reachable state some run of actions has an idle runner finish it |
| JobQueue.BudgetIsConserved | runner/runner.py:1258-1287 | Until the next write of the limit, gated claims plus what is left equal what was there |
| JobQueue.LimitAdmitsAtMost | internal/db/db.go:2698-2716 | A limit of n admits at most n gated claims |
| JobQueue.GatedClaimMeans | runner/runner.py:1258-1287 | A gated claim goes through exactly when the queue is not paused, the limit is not spent, the job is waiting and the runner idle; the runner then holds the row, the limit is one less, and the runner knows of its claim exactly when the reply was heard |
| JobQueue.PausedAdmitsNone | runner/runner.py:1265-1268 | A paused queue admits no gated claim until it is resumed, whatever else happens |
| JobQueue.ClaimsWithinLimits | internal/db/db.go:2698-2743 | However often the limit is rewritten, gated claims plus what is left never exceed what was there plus all that was written |
| Coordinator.SwapNeverRefunds | internal/batch/batch.go:676-717 | Whatever is written between swap and restore: the restore puts a limit back exactly when some budget was left, and then claims before the swap, claims after the restore and what is left add up to the operator's budget; the claims between are within the limits written between |
| Coordinator.NoClaimWhileParked | internal/batch/batch.go:676-684 | After the swap to zero and before the next limit write nothing is claimed |
| RunnerWrites.Db.Call | runner/runner.py:2306-2345 | While one call is out the others act; they never touch what the runner believes nor give it a row |
| RunnerWrites.MarkDoneOnce | runner/runner.py:1826-1911 | Returns only with the job done; reports a lost claim only when the row is neither the runner's nor done; other outcomes only after a lost or refused call; it leaves at most one mark, and changes the row at most once |
| RunnerWrites.TryMarkDone | runner/runner.py:2322-2331 | The same for one try with its reconnect and its look for an earlier commit, in at most four calls |
| RunnerWrites.MarkDoneWithRetry | runner/runner.py:2306-2345 | The same for all tries: the runner's own steps are at most four, all but the last of them marks whose reply was lost, in a bounded number of calls; it gives up on a connection only after losing four calls, and stops only after losing one |
| RunnerWrites.EndingGivesUp | runner/runner.py:1914-2031 | A release puts the row back to waiting and refunds; a transient release charges and fails at the third attempt; a failure fails; none touches another row or a row not held |
| RunnerWrites.JobWrite | runner/runner.py:700-733 | Succeeds exactly when one of two calls is answered; the runner's own steps are exactly what those replies say, the last of them heard on success and doing to a row still held what this ending promises; the row changes at most once and is then no longer held |
| RunnerWrites.FinishJob | runner/runner.py:4730-4783 | However the transcription and the writes go, the runner is idle again and has changed its row at most once. After the marks of a finished transcription, for the reasons MarkDoneWithRetry gives, its own steps only give the claim back on a stop or a yield, only fail the job on a failure for good, only charge it on one for now, and write nothing for a lost claim; the write succeeds exactly when one of two tries is answered, and a row still held is then back to waiting with the attempt refunded, failed, or charged; otherwise the job is given up unwritten |
| Coordinator.RunTranscribePhase | internal/batch/batch.go:523-561 | Phase A writes phase and budget and ends well only when the queue shows nothing claimed and the budget spent or nothing pending; its claims are paid for by what was left and the batch size; it times out exactly at the first read at which the numbers of pending, claimed, done and failed jobs and the run limit are those of the read a whole timeout before and of all between; other errors are the last call's |
| Coordinator.RunStartMeans | internal/batch/batch.go:540-557 | The clock restarts at the read where one of these last changed |
| Coordinator.EqualProgressMeans | internal/batch/batch.go:563-576 | Two status reads show equal progress exactly when their numbers of pending, claimed, done and failed jobs and their run limits are equal |
| Coordinator.TranscribeDoneMeans | internal/batch/batch.go:606-623 | The completion test holds exactly when no job of the queue is claimed and the budget is spent or no job is pending |
| Coordinator.QueueEmptyMeans | internal/batch/batch.go:442-445 | The emptiness test holds exactly when no job is waiting or claimed |
| Coordinator.RunAnalyzePhase | internal/batch/batch.go:625-663 | Phase B ends well only at a read that shows no embed backlog and, when judging gates embedding, no judging backlog; every gated claim in it spends what Phase A left, so after a spent Phase A there is none |
| Coordinator.CaptureRestoreLimit | internal/batch/batch.go:676-717 | The swap is captured exactly when its call works, parks the runner at zero, and yields the budget then left; what to restore follows from it |
| Coordinator.RestoreIdle | internal/batch/batch.go:723-744 | Both writes are tried and it succeeds exactly when both do; the limit is then the chosen one, and the phase idle unless a successor wrote another between the two |
| Coordinator.SuccessorTakeover | internal/batch/batch.go:138-160 | True exactly when the first definite answer of three, with no backoff cut short before it, says another session holds the lock |
| Coordinator.Batches | internal/batch/batch.go:436-466 | On a good end the log is exactly that many whole batches, and no job was waiting or claimed or the maximum was reached; no batch starts while the GPU is taken; all claims are paid for by what was left and granted |
| Coordinator.Drive | internal/batch/batch.go:389-466 | Capture exactly when both first calls work, then a resumed analysis exactly when that phase was found, and whole batches until the queue is empty or a set maximum is reached; every claim from the swap on is paid for by what was granted since |
| Coordinator.Run | internal/batch/batch.go:277-467 | For every placement of faults: a refused run writes nothing; any other logs its drive, the restore and then the release, skips the restore exactly when a successor holds the lock, restores exactly when both writes work, and reports an error otherwise, and only for a failed or cancelled call, a stall, a lost lock or a failed restore; no batch starts while the GPU is taken, and an analysis is resumed exactly when that phase was found; the gated claims from the swap on are at most what it granted, rounds times the batch size on a good end |
| Coordinator.GrantedByBatches | internal/batch/batch.go:436-466 | A finished run of n batches grants n times the batch size |
| Coordinator.BudgetComesBack | internal/batch/batch.go:676-717 | With the lock held an operator's budget comes back exactly when it was captured, the run started from idle and some was left at the swap, less the claims already made |
| Coordinator.BudgetLost | internal/batch/batch.go:389-395 | A run that cannot read the phase and leaves a budget of five unlimited |
| Coordinator.SuccessorInTheWindow | internal/batch/batch.go:344-387 | A run whose restore works and whose pipeline is not idle: a successor started between lookup and restore |
| BatchLock.LockAdmitsOne | internal/db/batchlock.go:93-126 | While no session is lost only the holder is between its first write and its release |
| BatchLock.FreedLockCanBeTaken | internal/db/batchlock.go:93-126 | A lock released, or lost with its session, can be taken at once by a coordinator not in a run; a run that lost it is still under way |
| BatchLock.WritesNeverInterleave | internal/db/batchlock.go:93-126 | No write of one run lies between two writes of another |
| BatchLock.EveryWriteLands | internal/db/batchlock.go:93-126 | From taking the lock to releasing it every write of a run lands as that run's own, whatever the others do |
| BatchLock.RunWritesBeforeRelease | internal/batch/batch.go:292-302 | The log of a coordinator's run is such a run: every write before its release, which is last |
| BatchLock.LostLockInterleaves | internal/batch/batch.go:303-326 | Without that assumption they can interleave: a run |
| WindowPlanner.MakeGaps | runner/pilot.py:638-648 | The pauses of the words, all of them, ordered by midpoint |
| WindowPlanner.Best | runner/pilot.py:650-657 | The midpoint of a largest pause in the range, the earliest such; none exactly when there is none |
| WindowPlanner.PlanWindows | runner/pilot.py:664-699 | The windows are the only possible cutting of the range, every cut a best pause in the last quarter of its target or the target itself, with a short tail folded when the merged window fits; they tile the range, each nonempty and within the hard maximum |
| WindowPlanner.CuttingIsUnique | runner/pilot.py:680-692 | The input determines the cuts |
| WindowPlanner.WithinTargetUnlessFolded | runner/pilot.py:671-698 | Every window is within the target exactly when the tail is not folded; it never is when the target is the hard maximum |
| WindowPlanner.TargetExceeded | runner/pilot.py:693-698 | Eight seconds without pauses at a target of six and a hard maximum of ten: one window of eight |
| WindowPlanner.FoldedLengths | runner/pilot.py:693-698 | Only the last window can exceed the target, by less than five seconds; with a target of at least five, a last window shorter than that stands only when it does not fit together with the one before |
| WindowPlanner.CutSplitsNoWord | runner/pilot.py:671-680 | A cut at a pause lies inside no word when words do not overlap |
| WindowPlanner.CutIsWellPlaced | runner/pilot.py:671-692 | A cut is in the last quarter of the target, midway in the first longest pause whose middle lies there or, when none does, at the target itself |
| WindowPlanner.CutIsInLargestPause | runner/pilot.py:638-657 | A cut at a pause is midway between two neighbouring words; no pause whose midpoint is in the range is longer, and none before it as long |
| WindowPlanner.MergeSpans | runner/pilot.py:702-738 | Spans apart, inside the track, that cover just the padded spans, each edge of which is a best pause within its pad or the padded edge; so they cover the clamped part of every given span of positive length, and nothing further from every span than its pad |
| WindowPlanner.PlanTrack | runner/pilot.py:741-756 | The whole track tiled, or separated stretches that cover just the padded and snapped findings, each with its own plan: ordered disjoint windows inside the track that cover every held finding and nothing more than five seconds from every one |
| WindowPlanner.GroupWindows | runner/pilot.py:759-776 | The greedy groups, with every window in order |
| WindowPlanner.GroupsKeepPlan | runner/pilot.py:759-776 | The groups lose nothing, each fits unless a single window, and the first window of each starts away from the end of the group before or ends too late for it |
| PilotPipeline.Batcher.Run | runner/pilot.py:1797-1821 | One result per window in order under any pattern of memory failures; the size halves at each of those and at nothing else; every call is on as many of the windows in a row as the size allows; it gives up exactly at a call that breaks, miscounts or runs out of memory on one window |
| PilotPipeline.SizeIsHalvedEachTime | runner/pilot.py:1805-1815 | After k failures of memory the size is the starting size divided by 2^k, rounding down, and at least one |
| PilotPipeline.HalvingAbsorbs | runner/pilot.py:1805-1815 | A batch size of 2^k absorbs k failures of memory: no call gives up |
| PilotPipeline.AllAccountedFor | runner/pilot.py:2293-2306 | With the walk done and the batch empty no track is undecided and the counts sum to the tracks |
| PilotPipeline.OnlyFaultsFailTracks | runner/pilot.py:2163-2291 | A track that could be planned, found, decoded in all its own stretches and written, and had no window in a batch given up for a call actually made, was written with its planned windows, or had none and was skipped |
| PilotPipeline.FatesAreDetermined | runner/pilot.py:2163-2291 | A decided track failed exactly when it could not be planned, found, decoded in all its stretches or written, or had a window in a batch given up; it was skipped exactly when its plan is empty, and written with its planned windows in every other case |
| PilotPipeline.NoBatchFails | runner/pilot.py:2219-2233 | When no call made gives up, no batch does, and every failed track has a fault of its own |
| PilotPipeline.MemoryFailuresAreAbsorbed | runner/pilot.py:1785-1821 | With a batch size of at least 2^k, at most k failures of memory and no other failure of a call, no track fails for a batch |
| PilotPipeline.OnlySingleWindowsGiveUp | runner/pilot.py:1805-1815 | When no call made breaks or miscounts, a batch is given up only at a call at size one, and the size is one from then on |
| PilotPipeline.Pipeline.Flush | runner/pilot.py:2219-2254 | Leaves every track outside the live batch as it was; a batch given up fails each of its tracks and is recorded with the call made on its windows that gave up; otherwise complete tracks are written or fail to be, and the others wait |
| PilotPipeline.Pipeline.Transcribe | runner/pilot.py:2225-2230 | One result per window, or a call made on these windows that gave up, later than any that gave up before |
| PilotPipeline.Pipeline.Finish | runner/pilot.py:2256-2291 | Counts a finished track once, as written or failed |
| PilotPipeline.Pipeline.WalkTrack | runner/pilot.py:2172-2217 | Hands out the windows of one track in plan order, decode chunk by decode chunk, keeping the books; every batch given up meanwhile has a call of its own made meanwhile, on its own windows, all handed out and no more than a batch may hold |
| PilotPipeline.Pipeline.Run | runner/pilot.py:2293-2306 | Unless a check stops it, every track is counted exactly once: failed exactly for a fault of its own or a window in a batch given up, skipped exactly for an empty plan, and otherwise written with one result for each window in plan order; every batch given up has a call of its own, made on its windows; when no call made gives up, no track fails for a batch |
| StepSettings.FreshIdFrom | internal/config/stepsettings.go:386-397 | Terminates, with an id no entry has |
| StepSettings.DecimalIsOneToOne | internal/config/stepsettings.go:393-395 | The suffixes tried never repeat |
| StepSettings.RebindIs | internal/config/stepsettings.go:315-340 | Rebinding removes the step's own copy, keeps every other entry and adds at most one, with unique ids |
| StepSettings.RebindKeepsSound | internal/config/stepsettings.go:315-340 | Ids stay unique, bindings resolve, every synthesized entry stays bound by exactly one step |
| StepSettings.RebindLeavesOthers | internal/config/stepsettings.go:315-340 | Every other step finds the endpoint it had |
| StepSettings.SettingApplies | internal/config/stepsettings.go:296-365 | An accepted setting: sound as before, the registry and all other steps untouched, the step on exactly the endpoint and model asked for |
| StepSettings.PinOfSetting | internal/config/stepsettings.go:296-384 | The pin an accepted setting leaves: its own, with the prompt version there was, when it carries one or moves the step elsewhere than to its environment's binding; otherwise the one there was where the step already runs what is asked for, else the environment's; with the policy keys the setting carries or, when it carries none, those of that pin |
| StepSettings.PolicySourceOfSetting | internal/config/stepsettings.go:307-384 | Who set the policy is recorded as the setting, the environment or whoever did before, in just those cases |
| StepSettings.CheckDecides | internal/config/stepsettings.go:129-173 | A setting is accepted exactly when none of the checks, taken in order, fails |
| StepSettings.AcceptedNamesAreClean | internal/config/stepsettings.go:134-167 | An accepted setting names a model, and neither it nor the expected model and revision hold whitespace but at their ends |
| StepSettings.LastSettingWins | internal/config/stepsettings.go:259-273 | A list is refused exactly when the base registry refuses one of its settings; otherwise every named step runs its last setting and every other is as it was |
| StepSettings.LastPinStays | internal/config/stepsettings.go:259-273 | After a list of settings each step has the pin of its last setting, if that carries one |
| StepSettings.FirstRefusalIsFirst | internal/config/stepsettings.go:259-273 | The error reported is that of the first setting the base registry refuses |
| StepSettings.OneSynthesizedPerStep | internal/config/stepsettings.go:315-325 | A step binds at most one synthesized entry, and no other step binds it |
| StepSettings.EnvPinComesBack | internal/config/stepsettings.go:307-350 | A plain setting naming the environment's binding restores its pin exactly when the step was bound elsewhere or still had it |
| StepSettings.LayerKeepsItsPin | internal/config/stepsettings.go:307-313 | A layer that pins the environment's own endpoint and model keeps its pin over the plain setting that names them |
| StepSettings.EnvironmentComesBack | internal/config/stepsettings.go:342-350 | After any settings for other steps and any plain ones for this, such a setting restores the environment's endpoint, model and pin |
| StepSettings.PolicyReplacesPolicyOnly | internal/config/stepsettings.go:367-384 | Policy keys replace the pin's policy keys and keep the rest of the pin |
| StepSettings.SkippingIsFiltering | internal/config/stepsettings.go:275-291 | Skipping refused settings equals applying only those the base registry accepts, and each step with a refused setting is reported with the problem of its last one |
| StepConfig.EndpointList.Find | internal/config/config.go:899-923 | The first entry of that id |
| StepConfig.EndpointList.Registered | internal/config/stepsettings.go:175-184 | The first entry of that id that is not synthesized |
| StepConfig.EndpointList.DerivedId | internal/config/stepsettings.go:386-397 | The first free name |
| StepConfig.EndpointList.DeleteById | internal/config/stepsettings.go:325-327 | Deletes in place exactly the entries of that id, keeping the order |
| StepConfig.Config.Validate | internal/config/stepsettings.go:129-173 | Returns the first check a setting fails |
| StepConfig.Config.RebindTo | internal/config/stepsettings.go:325-340 | In place, the specified rebinding |
| StepConfig.Config.ApplyStepSetting | internal/config/stepsettings.go:296-384 | In place, the specified overlay; a refused setting changes nothing and its problem is returned; no parameter map is ever written |
| StepConfig.Config.SnapshotEnv | internal/config/stepsettings.go:226-247 | What the environment binds each step to |
| StepConfig.Config.Clone | internal/config/stepsettings.go:199-223 | A copy standing for the same overlay, sharing no object a setting writes, that remembers the environment |
| StepConfig.Config.WithStepSettings | internal/config/stepsettings.go:259-273 | The first refusal, exactly when a setting is refused, otherwise a new configuration with the whole list applied; the base and the maps it shares are unchanged |
| StepConfig.Config.WithValidStepSettings | internal/config/stepsettings.go:275-291 | The same, skipping refused settings and reporting their problems by step |
| Backfill.OutcomeFlags | cmd/eval/eval.go:762-978 | Outcome flags exclude each other; judged means latched or failed; latching needs every chunk judged; a latched row leaves the selection |
| Backfill.OutcomeMeans | cmd/eval/eval.go:762-978 | The judge is called exactly when text and lasting chunks are there and a pass can be opened; a transcript latches exactly when every chunk was answered and findings and record are known to be stored; it leaves the selection also when only the reply was lost |
| Backfill.SelectionAfterCursor | internal/db/db.go:3343-3369 | The selection after its n-th row is its rest |
| Backfill.SelectionMeans | internal/db/db.go:3343-3390 | The selected rows still there and behind the cursor, all of them and nothing else, by creation time and then id, each once |
| Backfill.PagesAhead | cmd/eval/eval.go:577-579 | Rows that drop out behind the cursor do not change what lies ahead |
| Backfill.Store.SelectPage | internal/db/db.go:3367-3390 | The first rows of the selection after the cursor |
| Backfill.BoundsHold | cmd/eval/eval.go:560-575 | The limit and the spend cap are never exceeded, each exit reports a bound exactly met, an outage is five dead transcripts |
| Backfill.SeenAddsUp | cmd/eval/eval.go:635-659 | Visited = latched + failed + not embedded + skipped, but for one that stopped the judge; judged = latched + failed |
| Backfill.TallyCounts | cmd/eval/eval.go:635-659 | Each count of the tally is the number of visited transcripts with that outcome |
| Backfill.OutageRunSinceLastAnswer | cmd/eval/eval.go:661-665 | The outage counter counts the transcripts, since the last with a chunk answered, that had a chunk to answer |
| Backfill.NextRunSeesTheRest | cmd/eval/eval.go:562-570 | The next run sees the visited rows that did not leave, in order, then those never reached |
| Backfill.EndIsUnique | cmd/eval/eval.go:577-579 | A selection determines where and why a walk over it ends |
| Backfill.Store.RunBackfill | cmd/eval/eval.go:588-696 | Whatever the page size, the walk visits a prefix of the selection it started from, each row once and in order, ends where and why a walk over that list would, and fails the run exactly as documented |

## Left out

- JobQueue.BudgetIsConserved: covers gated claims only; a claim that degrades to ungated after a control error (`runner/runner.py:1288-1291`) is an action of the model but spends no budget, as in the code.
- JobQueue.DoneByItsOwnClaim: runners are told apart by their identity, which is assumed to be theirs alone; the default (`runner/runner.py:251-253`) is built from the process id only and can be shared by two hosts or containers, and the guards then take one runner's claim for the other's.
- JobQueue.EveryRunKeepsInv: jobs are never deleted; the pruning of sidecar files (`internal/db/db.go:4221-4234`) is not part of this model.
- JobQueue.QueuePromises: the stale sweep (`internal/db/db.go:557-622`) and requeues are atomic actions here; their statements and audit events are not separated.
- RunnerWrites.FinishJob: the heartbeat thread, failure classification and backoff delays are not part of this model.
- Coordinator.Run: the heartbeat goroutine appears as one flag and as cancellation at any call. While the lock is held nobody else writes the run limit, so operator edits during a batch are left out. The bound on claims and the captured value are stated while the lock is held, since a successor may write any limit once it is lost.
- Coordinator.RunTranscribePhase: the clock is a parameter, read at the calls.
- BatchLock.WritesNeverInterleave: needs that no session is lost, which a database cannot promise; `BatchLock.LostLockInterleaves` shows the need.
- ChunkedJob.InterruptedEqualsUninterrupted: recognition is a function of clip start and length.
- Segmentation.ResegmentIsIdempotent: the order in which a set of speakers is walked, which breaks ties and which the source leaves to the interpreter, is a parameter.
- SpanGap.HeardInSpan: the choice of the candidate tokens and the window (`internal/asrpilot/vote.go:364-415`) is left out; they are its inputs.
- PilotPipeline.Pipeline.Run: write mode only; per-track timing, memory peaks and degenerate-window counts are left out.
- WindowPlanner.PlanTrack: exact arithmetic; the contiguity test keeps the source's 1e-9 slack.
- StepConfig.Config.Validate: the pinned-model, route and parameter rules of other files are predicates the proofs hold for all of; problems are named, their texts are left out, and all unknown step names count as one.
- StepSettings.LastSettingWins: the EVAL_CHAT_* fallback of the propose step, and the connection data of an endpoint beyond being copied whole, are left out.
- Backfill.Store.RunBackfill: other processes do not change the selection during the walk; findings, their de-duplication and the summary output are left out.
- The vote decision (`simVote`, `decideVote`, `wordVariant`), which compares spellings and needs the number-word tables, which are not part of this model.
- Floating-point rounding, JSON encoding, hashing of fingerprints, SQL below one atomic statement or transaction; of white space, only the ASCII characters.
- The in-process retries of `_with_retries`, the parking and GPU-arbiter probes, diarization and language checks: they decide when a step runs, not what it keeps.
- Command lines, report printing, dashboards, telemetry, step-run recording.
