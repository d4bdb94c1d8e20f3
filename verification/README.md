# Verified model of the review service

A Dafny model of the parts of this repository where several actors share state: the LaTeX compile
worker, the viewers' line diff, the turn baton with its long poll and its watcher, the document store,
comment threads, magic-link sign-in and sessions, and the wrapper's self-update. Each part is modelled
after its source file, branch for branch, and proved to keep what the design relies on over every run.

The project verifies with `dafny verify dfyconfig.toml`.

## How it is built

- Code that updates an object or a file in place is a `class` whose methods follow the source
  statement by statement. Each method is tied by its `ensures` to a function of the old state, and the
  results over whole runs are lemmas about those functions.
- Concurrency is a state machine over atomic steps: one lock section, one file read or write, one
  queue operation. A run is any sequence of enabled steps.
- Every clock reading is an argument, and every step reads its own. Where a result needs readings to be
  nondecreasing, or strictly increasing, its `requires` says so.
- History variables (every launch, every send, every version of a text) appear in the models only
  to state results about the whole past.

| file | source |
|---|---|
| CompileProtocol.dfy, CompileTokens.dfy, CompileRaces.dfy, CompileConvergence.dfy, CompileOutcomes.dfy, CompileLabels.dfy, CompileProgress.dfy, CompileWitnesses.dfy, CompileWorker.dfy | src/latex_review/compiler.py, decorator.py, module.py |
| LineDiff.dfy | web/app/static/linediff.js |
| Handoff.dfy | src/mdreview/handoff.py |
| LongPoll.dfy, Responses.dfy | src/mdreview/server.py (`_wait`), src/watcher/loop.py (cursor) |
| Watcher.dfy, RollingWindow.dfy | src/watcher/spawn.py, loop.py |
| ReviewStore.dfy | src/mdreview/reviews.py, server.py (source arms) |
| Comments.dfy | src/mdreview/comments.py |
| IdentityStore.dfy, MagicLink.dfy | src/mdreview/hosted/identity_store.py, magiclink.py |
| Base64Url.dfy, Tokens.dfy, Sessions.dfy, SessionFlows.dfy | src/mdreview/hosted/sessions.py, authroutes.py |
| WrapperUpdate.dfy | src/mcp/update.py, bundle.py |
| Common.dfy | shared Option and Result |

## Where the code does less than its comments say

Each of these is a proved statement, with a failing run and the exact condition beside it.

- `paper.pdf` can be labelled with the wrong revision. A put that lands between the worker's two reads
  leaves "ok", revision 0, over a PDF of revision 1 until the re-run it causes (`OverlapMislabels`), and
  without any put, an exception between replacing the file and recording it leaves a PDF without a label
  (`RaiseMislabels`). In every state of every run (`LabelIff`): if the latest replacement was recorded,
  the label is the revision that compile had read, and it is right if and only if that revision has the
  same text as the version it compiled; if not, the label is the one from before, and right only if that
  one has the same text. The two reads agree if and only if between them as many puts got past
  source.md (wrote it, or raised instead) as stood between their writes at the first (`ReadsAgreeIff`).
- `_write_status` writes nothing, and says nothing, when the latex directory cannot be made. At rest, with
  the worker alive and no put or enqueue of it having raised, a review is settled if and only if it has
  a status (`Convergence`), that is, if and only if any status write of it was carried out
  (`StatusIffWritten`); otherwise the poller wants it at every poll (`SelfHealIsQuietAtRest`,
  `SkippedWritesWitness`).
- With puts that raise as well, a review at rest that no enqueue stranded is settled if and only if the
  poller does not want it and its "ok" is not from a compile that read inside a put which then changed
  the text (`SettledAtRestIff`, `OlderTextNeedsAHalfPut`, `HalfPutWitness`).
- An enqueue whose status write raises leaves its review out of every later compile
  (`StrandedForever`, `StrandedWitness`); and if the exception handler's own status write raises, the
  worker thread is gone and nothing is compiled again (`DeadForever`, `DeadWorkerWitness`). From then on
  a review is settled if and only if it was, and no put has begun and no "queued" been written for it
  since (`FrozenSettledIff`).
- A delivered row is dropped, neither claimed nor pending, exactly when the watcher is full at the
  first capacity check and not at the second (`RowsAreNotLost`, `RowDroppedWitness`), and it does not
  come back until the review's turn moves again (`DroppedUntilFlipped`).
- A review can be launched once more than its attempt limit, because pending reviews are drained
  without asking the per-review gate (`CapPlusOneIsReached`). The limit is kept if and only if each
  drain that spawned it did so while that gate would have let it through (`LimitKeptIff`).
- Two flips with the same clock reading can lose one (`EqualStampIsLost`). A flip is delivered if and
  only if its stamp is above the cursor at the flip or, if an answer was in flight then and was read
  afterwards, above the cursor after that answer (`FlipIsSeenIff`).
- A magic link can be redeemed twice, because consume_nonce reads its clock before its transaction and
  no lock is held: by a claim that read a clock past the expiry its check had not
  (`OvertakenClaimRedeemsTwice`), and by one that read in time but whose row another link's claim pruned
  in between (`PrunedReplayRedeemsTwice`). A claim succeeds if and only if the link was never redeemed or
  some claim committed since it last was, its own included, read a clock past its expiry
  (`ClaimSucceedsIff`).
- A put that raises at one of its last two writes leaves a text under the author of the one before
  (`LateStopMisattributes`). A round names its true author if and only if, when it was current, the last
  write whose text had reached the file and the last accepted one were by the same kind of author
  (`AuthorIsRightIff`).
- After a sign-out everywhere, every session of the account that stands without a new sign-in is the
  caller's own, which is spared, or descends from it, from a request under way, or from a cookie without
  a jti (`StandingDescends`). That is the caller's and its descendants alone if and only if no other
  request of the account is between its verification and the mint of its refresh, and no unexpired cookie
  of it lacks a jti (`OnlyHeirsStandIff`); and none at all if and only if the caller's does not stand
  either (`SignOutIsFinalIff`). A sign-out that spares nothing is one whose caller has no jti, so it is
  not final before the caller's own cookie expires (`UnsparingIsNotFinal`). Two refreshes at once leave
  two sessions (`TwoRefreshesLeaveTwo`).
- `send_log` keeps two days; the send limits hold on every run if and only if no window is longer
  (`LimitsHoldIff`, `LongWindowIsNotKept`).
- The display name of a comment's creator stays visible to a reader from whom the identity is hidden
  (`NamesAreAllThatShows`).
- A served wrapper does not converge if a name ends in a newline, which the allow-list accepts, or a
  text has a carriage return, which reading back translates (`ConvergesIff`); and two different wrapper
  sets have the same version if and only if their listings have the same NUL-separated fields
  (`SameVersionIff`, `NulHidesADifference`). An install with a wrapper file that is not UTF-8 is
  never updated (`UnreadableIsNeverUpdated`).

## Model

| member | source | states |
|---|---|---|
| CompileTokens.ExactlyOnePlace | src/latex_review/compiler.py:75-107 | In every reachable state each pending review is held in exactly one place (an enqueue between its lock section and its put, the queue, the worker's hand, `_running`, or the worker before its re-put), so the queue has no duplicates and `_redo` names only the running review |
| CompileTokens.StormIsOne | src/latex_review/compiler.py:70-83 | Any number of enqueue calls in a row leaves what one leaves, and only the first can have to write and put |
| CompileTokens.TokensAreConserved | src/latex_review/compiler.py:75-107 | Over every run, every claim of a review by an enqueue and every re-run is one compile started or one still pending |
| CompileTokens.StormAddsOne | src/latex_review/compiler.py:75-83 | Any number of enqueues, spread over any steps in which no compile of the review starts, adds at most one claim or one re-run |
| CompileProtocol.InvStep | src/mdreview/reviews.py:206-207 | Every atomic step, in any order and with every modelled failure, keeps the whole invariant: tokens, store.lock, source and versions in step except between put_source's two writes, and no review left uncompiled unless something pending will compile it, the worker died on it, a put of it raised, or it has no status because the writes were skipped |
| CompileProtocol.LockKeptToTheEnd | src/latex_review/decorator.py:89-104 | A put keeps store.lock until its call is over, the enqueue included, and gives it back then |
| CompileRaces.StatusWritesDoNotRace | src/latex_review/compiler.py:255-280 | No two threads are ever inside the read-modify-write of one status.json, and the pdf_revision one is about to keep is still the recorded one, although no lock covers the file |
| CompileConvergence.Convergence | src/latex_review/compiler.py:70-138 | Whatever the interleaving, at rest with the worker alive: a review no put and no enqueue of which raised is settled if and only if it has a status; settled is a final status about its current revision, and "ok" means paper.pdf came from the current text and is labelled so, however many compiles failed or raised |
| CompileConvergence.UnhurtRunsConverge | src/latex_review/compiler.py:70-138 | A run in which no put, no enqueue's status write and no handler raises ends, if at rest, with a review settled if and only if any status write of it was carried out |
| CompileConvergence.UnskippedRunsConverge | src/latex_review/compiler.py:70-138 | And with every review settled, if no status write was skipped either |
| CompileConvergence.StatusIffWritten | src/latex_review/compiler.py:269-280 | Over every run a review has a status if and only if a status write of it was carried out rather than skipped |
| CompileConvergence.SettledAtRestIff | src/latex_review/compiler.py:70-138 | With all of these failures, at rest with the worker alive: a review not stranded is settled if and only if the poller does not want it and its "ok" is not from a compile that read the revision and the source inside a put which then changed the text |
| CompileConvergence.OlderTextNeedsAHalfPut | src/latex_review/compiler.py:113-146 | One that is neither settled nor wanted had a put that raised before its enqueue, and its "ok" comes from a compile that read the newest revision between its put's two writes and the source before the second |
| CompileConvergence.SelfHealIsQuietAtRest | src/latex_review/module.py:78-88 | At rest the poller leaves a review no put or enqueue of which raised alone if and only if any status write of it was carried out, so polls do not stack compiles unless the latex directory cannot be made |
| CompileOutcomes.StatusIsTheVerdict | src/latex_review/compiler.py:109-138 | In every reachable state in which no compile of the review is under way or was died of: "ok" means that its latest compile produced a PDF and nothing raised before that was recorded, "failed" that it did not or something did, read off the outcomes of the run's steps |
| CompileOutcomes.CompileEndsWithItsVerdict | src/latex_review/compiler.py:93-138 | As a compile ends, handler included, its review has no status, or says "ok" after a good compile and "failed" after a bad one |
| CompileOutcomes.RestSaysTheVerdict | src/latex_review/compiler.py:109-138 | So does, at rest with the worker alive, every review that no enqueue stranded |
| CompileOutcomes.OkIffProduced | src/latex_review/compiler.py:127-136 | A run in which nothing was hurt or skipped ends, at rest, with every review settled, "ok" if and only if its latest compile produced a PDF and nothing raised before that was recorded, and else "failed" |
| CompileOutcomes.StatusNamesTheRevisionRead | src/latex_review/compiler.py:67-135 | In every reachable state a status, whatever it says, names the revision the review had when whoever wrote it, enqueue, compile or handler, had read it |
| CompileOutcomes.PollerPassesOver | src/latex_review/module.py:76-88 | In every reachable state the poller wants, of the reviews with a status, just those whose latest compile has ended about a revision that is not the current one; any other that is not final is under way, pending, or died of |
| CompileConvergence.StrandedForever | src/latex_review/compiler.py:79-83 | If an enqueue raises between claiming and putting, its review stays stranded through every later step, none of which changes its status or its PDF |
| CompileConvergence.DeadForever | src/latex_review/compiler.py:93-107 | Once the worker is dead it stays so, no PDF and no label changes, and the only status still written is an enqueue's "queued" |
| CompileConvergence.FrozenSettledIff | src/latex_review/compiler.py:70-107 | From a moment at which a review is stranded or the worker dead, with no put of it between its writes, it is settled at any later moment if and only if it was settled then and no put of it has begun to write and no "queued" was written for it since |
| CompileWitnesses.StrandedWitness | src/latex_review/compiler.py:79-83 | A run that comes to rest with a review that has no status, that self-heal wants compiled and that enqueue will not queue |
| CompileWitnesses.DeadWorkerWitness | src/latex_review/compiler.py:93-107 | A run without a raising enqueue that comes to rest with a dead worker and a review that says "running" and that self-heal does not want |
| CompileWitnesses.HalfPutWitness | src/mdreview/reviews.py:206-207 | A run that comes to rest with a review not settled but wanted, after a put raised between its writes |
| CompileWitnesses.SkippedWritesWitness | src/latex_review/compiler.py:270-273 | A run without any exception that comes to rest with a review that has no status and is wanted at every poll |
| CompileProgress.EveryRunComesToRest | src/latex_review/compiler.py:86-107 | Once no new call starts every run is finite, bounded by a weight of its start, and one that cannot be continued is at rest: all calls over, and the worker waiting on an empty queue or dead |
| CompileProgress.NeverStuck | src/latex_review/compiler.py:86-107 | In every state of the invariant short of rest some thread can step without a new call |
| CompileLabels.LabelIff | src/latex_review/compiler.py:113-133 | In every state of every run: without a replacement neither PDF nor label; after a recorded one the label is the revision that compile read, right if and only if it has the text compiled; after one not recorded the label from before, right if and only if it has that text |
| CompileLabels.SourceRead | src/latex_review/compiler.py:146-146 | On any run the text the worker reads is the current version, or the one before it while a put is between its two writes |
| CompileLabels.ReadsAgreeIff | src/latex_review/compiler.py:113-146 | The version read is the revision read if and only if between the two reads as many puts got past source.md (wrote it, or raised instead) as stood between their writes at the first: one or none |
| CompileLabels.CalmRunsLabelExactly | src/latex_review/compiler.py:113-133 | On every run in which no put counts between the worker's two reads, none is between its writes at the first, and nothing raises between replacing the PDF and recording it, the label is exact in every state but the instant between those two |
| CompileWitnesses.OverlapMislabels | src/latex_review/compiler.py:113-146 | A run that ends a compile with "ok" and a wrongly labelled PDF exists |
| CompileWitnesses.RaiseMislabels | src/latex_review/compiler.py:131-133 | A run without any put comes to rest with a settled review whose PDF has no label |
| CompileWorker.CompileWorker.Enqueue | src/latex_review/compiler.py:70-83 | Undisturbed, enqueue takes the lock-section step of the state machine and puts exactly when it claimed; "queued" is written then unless the directory cannot be made; an exact label stays |
| CompileWorker.CompileWorker.WriteStatus | src/latex_review/compiler.py:255-280 | Replaces the status of one review only, keeping the recorded pdf_revision unless given one; writes nothing if the directory cannot be made |
| CompileWorker.CompileWorker.Compile | src/latex_review/compiler.py:109-138 | For each outcome, and each status write carried out or skipped: which PDF, label and status remain; a normal end with a status is settled, "ok" if and only if a PDF was produced, and no other review changes |
| CompileWorker.CompileWorker.RunOnce | src/latex_review/compiler.py:86-107 | One turn of the loop with any number of enqueues in the middle: it ends settled if it has a status, "ok" if and only if a PDF was produced, unless the handler raises, re-queues the review once if anyone asked, and keeps an exact label unless something raised between replacing the PDF and recording it; it has no status exactly if it had none and each write was skipped; if the handler raises the thread is dead, the lock state in order and the label as it was |
| LineDiff.JoinSplit | web/app/static/linediff.js:29-29 | Joining the split lines gives the text back, for every text |
| LineDiff.SplitIsTheOnly | web/app/static/linediff.js:29-29 | The split is the one list of lines without line breaks that joins to the text |
| LineDiff.LcsIsUpperBound | web/app/static/linediff.js:33-34 | The table's recurrence bounds the length of every common subsequence |
| LineDiff.FillTable | web/app/static/linediff.js:31-34 | Every entry of the filled table is the LCS length of the two suffixes |
| LineDiff.WalkTurnsAIntoB | web/app/static/linediff.js:36-42 | From any position the walk's rows restore both suffixes, and it keeps as many lines as the LCS |
| LineDiff.WalkIsOptimal | web/app/static/linediff.js:28-44 | No script between the same texts has fewer changed rows, and no common subsequence is longer than what the walk keeps |
| LineDiff.WalkIsFirst | web/app/static/linediff.js:36-42 | Of all shortest scripts between the two texts the walk is the first, row by row, where keeping a line comes before removing one and removing before adding; so it is the only one it can be |
| LineDiff.RemovalsComeFirst | web/app/static/linediff.js:38-39 | No added line stands directly before a removed one |
| LineDiff.LineDiff | web/app/static/linediff.js:28-44 | The rows without additions join to the old text, without removals to the new one, no script is shorter, and there are changed rows if and only if the texts differ |
| LineDiff.NumberRows | web/app/static/linediff.js:48-55 | A row numbered i on a side carries line i of that side, each side is numbered 1, 2, ... to its last line, and exactly the removed (added) rows lack a new (old) number |
| LineDiff.Counts | web/app/static/linediff.js:91-95 | The counts are the two sides' lengths less the kept lines, and their sum the number of changed rows |
| LineDiff.MarkKept | web/app/static/linediff.js:67-73 | A row is marked if and only if it is within `context` of a changed row, for any context |
| LineDiff.Hunkify | web/app/static/linediff.js:62-88 | For any rows, context and minGap the segments cover the rows in order and alternate; each hidden one is a whole maximal far run of at least minGap rows, each visible one has only rows near a change or in a shorter run |
| LineDiff.HunksLoseNothing | web/app/static/linediff.js:75-87 | Concatenated, the segments are the input |
| LineDiff.HunksAlternate | web/app/static/linediff.js:80-85 | Neighbouring segments are never both visible nor both hidden |
| LineDiff.HiddenIffLongFarRun | web/app/static/linediff.js:75-87 | A row of a maximal far run is folded if and only if the run has at least minGap rows, and then the fold is that run; rows near a change, and changed rows, are visible |
| Handoff.HandoffService.Apply | src/mdreview/handoff.py:20-86 | One decision, one write and one wake on success; a refusal writes nothing and wakes nobody |
| Handoff.FormsInOrder | src/mdreview/handoff.py:6-8 | Which bodies are a reclaim, a hand-back, a flip and a lease request, the earlier form winning |
| Handoff.RenewalIsAccepted | src/mdreview/handoff.py:67-68 | On every run a lease request by the present holder is accepted, at either turn, and leaves it holding from that request's time |
| Handoff.FreeLeaseIsGranted | src/mdreview/handoff.py:67-68 | On every run a lease request while nobody holds it is accepted, at either turn, and recorded with its owner and time |
| Handoff.TakeoverIff | src/mdreview/handoff.py:66-77 | On every run a foreign lease request is accepted if and only if the turn is the agent's and the holder has been silent for more than ttl; a refusal names the holder |
| Handoff.OthersAcceptedIff | src/mdreview/handoff.py:30-49 | Every other request is accepted if and only if it has a form, and else refused as unrecognized |
| Handoff.LastReportStands | src/mdreview/handoff.py:35-41 | On every run the status on record is the last hand-back's or accepted lease request's since the turn was last handed over: its state, message, owner (for a hand-back without one, the owner before) and time |
| Handoff.HandoverFrees | src/mdreview/handoff.py:43-49 | A handover is on record with its time until the next, and leaves no status until the next report |
| Handoff.LastMoveHasTheTurn | src/mdreview/handoff.py:31-49 | On every run the turn is the agent's if and only if the last flip, hand-back or reclaim was a flip |
| Handoff.StampMovesWithTurn | src/mdreview/handoff.py:31-49 | turn_updated moves exactly on a reclaim, a hand-back and a real flip, to the time of the request; nothing else touches the turn, and a flip clears the lease |
| Handoff.StampNeverGoesBack | src/mdreview/handoff.py:30-49 | Over every run of requests with a nondecreasing clock, from the creation of the review on, turn_updated, read as 0 while absent, is nondecreasing |
| Handoff.LeaseIsExclusive | src/mdreview/handoff.py:50-77 | Within one turn an accepted owner is the holder at every request within ttl of its last claim or renewal, and every foreign claim there is refused |
| Handoff.TakeoverNeedsSilence | src/mdreview/handoff.py:63-77 | A holder is replaced within a turn only by a claim, at the agent's turn, after more than ttl of silence |
| Handoff.ReclaimedIsNeverTakenOver | src/mdreview/handoff.py:52-72 | A lease the human has reclaimed is not taken over, however stale, by any later run without a hand-back or a flip |
| LongPoll.NoOneSleepsThroughAFlip | src/mdreview/server.py:357-372 | In every reachable state a parked and unsignalled waiter has nothing to be told: the request that makes its predicate true has woken it |
| LongPoll.EnterAnswersIff | src/mdreview/server.py:364-372 | A wait that begins is answered at once if and only if some review is at the turn asked for with a stamp newer than since, with just those reviews; else it parks |
| LongPoll.ResumeAnswersIff | src/mdreview/server.py:366-372 | A waiter that runs again is answered if and only if there is such a review or its time is up, with just those reviews; a spurious wake answers nothing |
| LongPoll.AnswersAreExact | src/mdreview/server.py:364-372 | On every run each answered wait was answered at one of its own steps with just the reviews that were newer at that moment, by the turn and since it had asked with, and with none only when its time was up |
| LongPoll.NoFlipIsMissed | src/watcher/loop.py:55-81 | With strictly increasing stamps, over every interleaving of requests, scans, receipts and lost answers, each review at the agent's turn is newer than the cursor will be, is in the answer in flight, was delivered, or has not moved since the seed |
| LongPoll.DeliveredExactlyOnce | src/watcher/loop.py:73-81 | A scan lists a flip if and only if it still stands, is newer than the seed and was not delivered before |
| LongPoll.ReceiptEmpties | src/watcher/loop.py:79-81 | Once an answer has been read, the server finds nothing it listed again |
| LongPoll.FlipIsSeenIff | src/mdreview/server.py:357-359 | With any stamps at all, over any run in which the review's turn does not move again: once an answer to a later scan has been read, a flip has been delivered if and only if its stamp is above the cursor when it was sent or, if an answer was in flight then and was read, above the cursor after it |
| LongPoll.SilentUntilMoved | src/mdreview/server.py:357-359 | A review whose stamp the cursor has reached is in no later scan and no later answer until its turn moves again |
| LongPoll.CursorFollowsResponses | src/watcher/loop.py:81-81 | On every run the watcher's cursor is its seed advanced by the answers it has read |
| LongPoll.EqualStampIsLost | src/mdreview/server.py:357-359 | Two flips in one clock tick with a delivery between: the second is never delivered |
| RollingWindow.RecordKeepsCap | src/watcher/spawn.py:127-130 | If the window ending at a check was not full, recording a stamp at any later time leaves every closed window within the cap |
| RollingWindow.RecordKeepsCapIff | src/watcher/spawn.py:150-155 | Recording a stamp nothing is later than keeps the cap in every closed window if and only if the window ending at it was not full |
| RollingWindow.EvictedRight | src/watcher/spawn.py:127-130 | After eviction the deque's length is the exact count over the full history, and the deque is still right |
| RollingWindow.Evict | src/watcher/spawn.py:128-129 | The popping loop leaves the deque the eviction function describes |
| Watcher.CapsHoldOnEveryRun | src/watcher/spawn.py:114-155 | Over every run and every closed window: at most MAX_LAUNCHES spawns, at most one over its limit for any review, at most MAX_CONCURRENT tracked children |
| Watcher.LimitKeptIff | src/watcher/loop.py:108-117 | Over every run a review stays within its limit in every closed window if and only if each drain that spawned it did so while the gate the drain skips would have let it through |
| Watcher.NoWindowHoldsMore | src/watcher/spawn.py:114-155 | In numbers of log entries, over every run and any closed window: at most MAX_LAUNCHES spawns, and at most one over its limit of any review |
| Watcher.GateAloneKeepsTheLimit | src/watcher/loop.py:92-104 | In particular a review that is never drained stays within its limit |
| Watcher.CapPlusOneIsReached | src/watcher/loop.py:108-117 | A run on which a review is spawned once more than its limit exists |
| Watcher.GateOk | src/watcher/spawn.py:146-155 | The gate answers for the full history, emptied keys or not, and keeps the invariant |
| Watcher.GatePrunes | src/watcher/spawn.py:146-155 | After the gate a review has a key if and only if it has attempts in the window by the full history; other keys stay |
| Watcher.TrackedStep | src/watcher/spawn.py:37-52 | From every reachable state the tracked children after a step are those before, less the exited ones of each check that was made, and the one that was spawned |
| Watcher.DrainOk | src/watcher/loop.py:113-117 | Draining without the gate keeps the bound of one over the limit, since a pending review has passed the gate once without spawning |
| Watcher.RowsAreNotLost | src/watcher/loop.py:82-104 | A row delivered in any reachable state, armed and below its limit, ends spawned, refused or pending unless a slot frees between the two checks; it is dropped if and only if the first check finds the watcher full and the second does not, and then nothing remembers it |
| Watcher.DrainFacts | src/watcher/loop.py:113-117 | A try of a pending review spawns it, and takes it out of `pending`, if and only if both capacity checks find room by the full history and the claim is granted; otherwise log and `pending` stay |
| Watcher.PendingStep | src/watcher/loop.py:102-117 | From every reachable state, a step takes a review out of `pending` if and only if it spawns it from there, and puts one in if and only if it is armed, below its limit, not spawned, and the watcher is full |
| Watcher.PendingIff | src/watcher/loop.py:102-117 | Over every run a review is pending if and only if it was put off and no try has spawned it since |
| Watcher.DeferredIsKept | src/watcher/loop.py:102-117 | Whatever follows, a pending review is still pending or has been spawned since |
| Watcher.DroppedUntilFlipped | src/watcher/loop.py:79-104 | A dropped row's review is in no later scan and no later answer, and not pending, until its turn moves again |
| Watcher.RowDroppedWitness | src/watcher/loop.py:102-104 | A reachable state in which a row is dropped exists |
| Watcher.Watcher.AtCapacity | src/watcher/spawn.py:114-130 | Reaps, evicts and answers as the state machine's capacity step |
| Watcher.Watcher.PerReviewCapped | src/watcher/spawn.py:133-155 | Evicts, deletes an emptied key and answers as the state machine's gate step |
| Watcher.Watcher.Launch | src/watcher/spawn.py:188-212 | Records one child, one launch and one attempt |
| Watcher.Watcher.Handle | src/watcher/loop.py:20-37 | Spawns only after a free slot and a granted claim |
| Watcher.Watcher.ProcessRow | src/watcher/loop.py:82-104 | One delivered row takes the state machine's row step: the two gates come before any claim, and only a row that finds the watcher full twice goes to `pending` |
| Watcher.Watcher.DrainPending | src/watcher/loop.py:108-117 | Tries every pending review exactly once, unless a check finds the watcher full, and then nothing more; what leaves `pending` is exactly what was spawned |
| Watcher.Watcher.Poll | src/watcher/loop.py:53-105 | The cursor advances to the newest delivered stamp and only on a response with rows; the rows are processed in order, and then everything pending is tried, unless a check finds the watcher full; an HTTP error does nothing |
| Watcher.Watcher.Run | src/watcher/loop.py:49-105 | After any number of polls, each as Poll says, the three caps hold on everything ever spawned, and the cursor is the seed advanced by every response that had rows |
| Responses.NewestStampIsMax | src/watcher/loop.py:81-81 | The new cursor is at least the old one and every delivered stamp, and is one of them |
| ReviewStore.ReviewService.PutSource | src/mdreview/reviews.py:182-217 | Refused with the current revision and no change, or: the outgoing text archived with its author under the old revision, the new text and author current, the revision one higher; and for every step at which it can raise, what is left |
| ReviewStore.RefusedIff | src/mdreview/reviews.py:198-205 | On every run a put is refused if and only if it expects another number than that of the puts that counted so far, and is told both; one without a precondition never is; the others count unless they raised before they could |
| ReviewStore.AcceptedIff | src/mdreview/reviews.py:206-217 | A put is accepted if and only if it is not refused and did not raise, where the author's key can only raise if its author is not the last accepted put's |
| ReviewStore.ReviewIsWhatWasPut | src/mdreview/reviews.py:206-217 | What every run leaves, wherever puts raise: the text of the last put that reached the file, the time of the last that got past it, the author of the last accepted one, the number of those that counted, and each one's time on the round it closed |
| ReviewStore.ReviewService.History | src/mdreview/reviews.py:232-241 | Whatever order the directory is read in, the list is the rounds, newest first, down to 0 |
| ReviewStore.NewestAt | src/mdreview/reviews.py:240-241 | The i-th round listed is round n - 1 - i |
| ReviewStore.DescendingIsNewest | src/mdreview/reviews.py:232-241 | Any descending list of all rounds is the history list |
| ReviewStore.EveryVersionIsKept | src/mdreview/reviews.py:116-145 | Over every interleaving of clients, and wherever puts raise: the revision counts the writes that got so far, history is exactly rounds 0 to revision - 1 and, while a put has archived without counting, the current draft; round k holds version k and the author the key gave |
| ReviewStore.HistoryIsComplete | src/mdreview/reviews.py:232-241 | In every reachable state the history is consecutive from 0 and has as many rounds as writes have counted, or one more while a put has archived without counting |
| ReviewStore.AuthorIsRightIff | src/mdreview/reviews.py:206-217 | Over every run, wherever puts raise, and for the first j actions of it, of which k writes counted: round k has the text of the last of those that reached the file, and the author of the last of those that was accepted; so it names its true author if and only if these two are by the same kind of author |
| ReviewStore.AuthorsAreRight | src/mdreview/reviews.py:116-145 | If no put raises after its source is written, round k says "reviewer" if and only if a reviewer wrote version k |
| ReviewStore.LateStopMisattributes | src/mdreview/reviews.py:209-217 | A reviewer's put that raises at its last write leaves the text marked as an agent's |
| ReviewStore.GetReturned | src/mdreview/server.py:672-684 | What a GET at any position of a run returned is the text of that moment and the number of writes counted before it |
| ReviewStore.GuardedWritesNeverLoseAnUpdate | src/mdreview/server.py:672-731 | A write guarded by what the GET at any position of a run returned is let through if and only if no write has counted since that GET; then it replaces, and archives, exactly the text the GET returned; otherwise it changes nothing |
| ReviewStore.TornReadLosesAnUpdate | src/mdreview/server.py:673-680 | Text and token read in two requests would let a write through that overwrites a text its author never saw |
| Comments.CommentService.Create | src/mdreview/comments.py:141-174 | Appends one open comment, and returns it |
| Comments.CommentService.Delete | src/mdreview/comments.py:176-184 | Removes the comment, or writes nothing and says so if there is none |
| Comments.CommentService.ApplyTransition | src/mdreview/comments.py:186-233 | Answers as the transition function, and writes only on success |
| Comments.AcceptedIff | src/mdreview/comments.py:195-231 | An act is accepted if and only if its comment is there and it is a reply with words, whatever the status, a resolve of one not resolved, or a reopen of one resolved; the refusal is 404, 409 with the status in the way, or 400 |
| Comments.ThreadIsWhatWasSaid | src/mdreview/comments.py:201-230 | Over every run a comment's thread is what its creator said and one entry for each accepted act on it with text, in order, with that act's text, time and role; its history is its opening and one change for each accepted resolve and reopen |
| Comments.PresentIff | src/mdreview/comments.py:176-184 | Over every run a comment is there if and only if it was created and has not been deleted since |
| Comments.ResolverIsLast | src/mdreview/comments.py:206-228 | While a comment is resolved its resolver is the role and the time of the last accepted resolve, and else there is none |
| Comments.EveryCommentLives | src/mdreview/comments.py:199-232 | In every reachable array each comment's changes chain from nothing to open and then alternate resolved and reopened, its status is the end of the chain, a resolver is recorded exactly while resolved, and later entries name only roles |
| Comments.HistoryDecides | src/mdreview/comments.py:206-231 | The length of the history alone decides whether a resolve or a reopen is accepted and whether a resolver is on record |
| Comments.LogsOnlyGrow | src/mdreview/comments.py:186-193 | Over any run without its deletion a comment's thread and history are those it had, extended |
| Comments.RedactIdentity | src/mdreview/comments.py:96-139 | The loop returns the redaction of every comment, in order, and changes none |
| Comments.TransitionCommutes | src/mdreview/comments.py:100-109 | Redacting before or after a transition is the same |
| Comments.CreatorsDoNotShow | src/mdreview/comments.py:111-119 | Two whole runs that differ only in creators other than the reader give that reader, if not entitled, equal arrays after every prefix and equal answers to every request |
| Comments.OutputIdentities | src/mdreview/comments.py:111-139 | Every identity in the redaction of a reachable comment is None, the reader's own or a role; the creator shows exactly to the entitled and to themselves; all later entries survive unchanged |
| Comments.NamesAreAllThatShows | src/mdreview/server.py:266-290 | With display names added before redaction, two such runs look alike if and only if the creators' names are alike |
| IdentityStore.CountIsSince | src/mdreview/hosted/identity_store.py:175-187 | A filtered count is the number of selected stamps since the given time |
| IdentityStore.PruneKeepsCounts | src/mdreview/hosted/identity_store.py:166-173 | A prune changes no count that does not look back past it |
| IdentityStore.IdentityStore.ConsumeNonce | src/mdreview/hosted/identity_store.py:151-163 | At a given reading, claims exactly if no unexpired row of the nonce is there; expired rows go either way |
| IdentityStore.IdentityStore.RecordSend | src/mdreview/hosted/identity_store.py:166-173 | Drops what is over two days old and appends the send |
| IdentityStore.IdentityStore.SessionTouch | src/mdreview/hosted/identity_store.py:245-254 | Undisturbed, afterwards last_seen is less than 300 s old, and a write comes at least 300 s after the one before |
| IdentityStore.IdentityStore.SessionRevokeAll | src/mdreview/hosted/identity_store.py:266-276 | Revokes the account's rows but the spared one, and returns how many changed |
| IdentityStore.IdentityStore.SessionsPrune | src/mdreview/hosted/identity_store.py:289-294 | Drops expired rows only, and returns how many |
| MagicLink.MagicLinkService.Issue | src/mdreview/hosted/magiclink.py:132-158 | The status is the limits' verdict at the first clock read; the send is recorded, at the second, only if it was sent |
| MagicLink.IssueAnswers | src/mdreview/hosted/magiclink.py:123-158 | Over any run each request is answered by everything ever sent: invalid, blocked, throttled by the first of address, IP and day whose window is full, failed, or sent; just those that are sent are recorded |
| MagicLink.PrunedCountsAgree | src/mdreview/hosted/magiclink.py:123-130 | Over any run under the lock every count over at most two days, and every verdict, is what it would be on the unpruned log |
| MagicLink.SendLimitsHold | src/mdreview/hosted/magiclink.py:123-158 | Over any run no closed window holds more recorded sends than the per-address, per-IP and daily limits |
| MagicLink.NoWindowHoldsMore | src/mdreview/hosted/magiclink.py:123-158 | In numbers of log entries, over any run: no closed window holds more sends to an address, from a known IP, or in all, than its limit |
| MagicLink.LongWindowIsNotKept | src/mdreview/hosted/identity_store.py:169-171 | With any address or IP window over two days, and limits the daily budget leaves room for, a run breaks the limit |
| MagicLink.LimitsHoldIff | src/mdreview/hosted/identity_store.py:169-171 | For such limits they hold on every run if and only if no window is longer than two days |
| MagicLink.MagicLinkService.Redeem | src/mdreview/hosted/magiclink.py:161-183 | Opens, checks expiry at one clock read and claims at another; nothing is written unless the token is genuine and unexpired |
| MagicLink.RedeemedIff | src/mdreview/hosted/magiclink.py:161-183 | Any token is redeemed if and only if it is genuine, names an address and a nonce, has not expired at the check, and the nonce is not in the table unexpired at the claim; one that fails before the claim writes nothing |
| MagicLink.LinkRedeemsToItsAddress | src/mdreview/hosted/magiclink.py:116-183 | A minted link redeems to the address it was minted for exactly if unexpired at the check and not in the table, and once redeemed is refused while it lasts |
| MagicLink.RedeemIsCheckThenClaim | src/mdreview/hosted/magiclink.py:179-183 | A redeem request is a check, a clock reading and a commit of the concurrent protocol |
| MagicLink.ClaimSucceedsIff | src/mdreview/hosted/identity_store.py:151-163 | In every reachable state of any number of threads, with clock reading and transaction apart, a claim succeeds if and only if the link was never redeemed or some claim committed since it last was, its own included, has a reading past its expiry |
| MagicLink.RedeemedOnce | src/mdreview/hosted/magiclink.py:161-183 | Over any run a link that is tried is redeemed exactly once, plus once for each claim of it that found it redeemed and forgotten or was late itself; so at most once plus the number of claims of any link whose reading is past its expiry |
| MagicLink.OvertakenClaimRedeemsTwice | src/mdreview/hosted/magiclink.py:179-182 | Such a claim does redeem a link twice |
| MagicLink.PrunedReplayRedeemsTwice | src/mdreview/hosted/identity_store.py:155-160 | A link is redeemed twice although every claim of it reads a clock in time |
| Base64Url.DecodeEncode | src/mdreview/hosted/sessions.py:28-34 | Decoding an encoding gives the bytes back, for every byte string |
| Base64Url.EncodingIsPlain | src/mdreview/hosted/sessions.py:28-29 | An encoding has only letters, digits, '-' and '_', no padding and no dot, and the least possible length |
| Base64Url.EncodingIsTheNumber | src/mdreview/hosted/sessions.py:28-29 | Three bytes are four characters for the same number, group by group, and one or two at the end are two or three characters for theirs, filled up with zero bits |
| Base64Url.PaddingIsRestored | src/mdreview/hosted/sessions.py:32-34 | The decoder puts back exactly the padding the encoder took off |
| Tokens.MintedOpens | src/mdreview/hosted/sessions.py:88-107 | A minted token opens to exactly the claims it was minted from |
| Tokens.OpensOnlySigned | src/mdreview/hosted/sessions.py:98-104 | Whatever opens is one dot-free payload, one dot and the MAC of that text: the framing is unambiguous |
| Tokens.OpensIff | src/mdreview/hosted/sessions.py:98-107 | A token opens to given claims if and only if it is a payload, not empty and without a dot, that decodes and loads to them, a dot, and the payload's MAC |
| Tokens.OtherPayloadIsRejected | src/mdreview/hosted/sessions.py:100-104 | A signature opens no other payload, as far as the MAC tells the two apart |
| Sessions.SessionService.Mint | src/mdreview/hosted/sessions.py:76-91 | Returns the token of the claims and writes one fresh, unrevoked row for them |
| Sessions.SessionService.Verify | src/mdreview/hosted/sessions.py:93-123 | Returns the session of a genuine, unexpired token whose row, if it names one, is live |
| Sessions.LiveIff | src/mdreview/hosted/identity_store.py:234-243 | Over every run, at a clock no prune has passed, a session is live if and only if it was created, no revocation has hit it since, and it has not expired; touches, however they interleave, and prunes never matter |
| Sessions.RowIsWhatWasAsked | src/mdreview/hosted/identity_store.py:225-292 | Over every run a session has a row from its creation until a prune at or past its expiry, with what it was created with, the time of its last touch, and whether it has ended |
| Sessions.RevocationEnds | src/mdreview/hosted/identity_store.py:256-276 | A successful scoped revocation, and a sign-out everywhere that does not spare it, end a session |
| Sessions.RevokedForever | src/mdreview/hosted/sessions.py:113-121 | An ended session's cookies never verify again, at any clock, after any further requests |
| Sessions.MintedVerifies | src/mdreview/hosted/sessions.py:76-123 | A minted cookie verifies back to its own fields exactly while its session stands and lasts, whatever happens in between |
| Sessions.RefreshReplaces | src/mdreview/hosted/authroutes.py:195-204 | An undisturbed sliding refresh ends the superseded session, leaves its successor live, and affects no other |
| SessionFlows.StandingDescends | src/mdreview/hosted/authroutes.py:284-289 | With verification, mint and revocation as separate steps, and cookies without a jti: after any sign-out everywhere, in every continuation without a new sign-in, every standing session of the account is the spared one or descends from it, from a request that was under way, or from a cookie without a jti |
| SessionFlows.SignOutSpares | src/mdreview/hosted/authroutes.py:284-289 | A sign-out everywhere ends every session of the account but the caller's own, none of any other account, and no cookie without a jti |
| SessionFlows.OnlyHeirsStandIff | src/mdreview/hosted/authroutes.py:284-289 | It is the spared one or its own descendant, in every such continuation, if and only if at the sign-out no request by another session or without one is between its verification and its mint, and no unexpired cookie of the account lacks a jti |
| SessionFlows.SignOutIsFinalIff | src/mdreview/hosted/authroutes.py:187-204 | A sign-out everywhere leaves no session of the account, in every continuation without a new sign-in, if and only if at that moment the spared one does not stand, no request of the account is between its verification and its mint, and no unexpired cookie of it lacks a jti |
| SessionFlows.SignedOutForGood | src/mdreview/hosted/authroutes.py:187-204 | An account with no standing session, no request under way and no unexpired cookie without a jti has none of them after any further requests without a new sign-in |
| SessionFlows.UnsparingIsNotFinal | src/mdreview/hosted/sessions.py:113-121 | A sign-out that spares nothing ends every session of the account, and while the caller's cookie, which has no jti, has not expired, a run without a sign-in gives the account a live session again |
| SessionFlows.TwoRefreshesLeaveTwo | src/mdreview/hosted/authroutes.py:195-204 | Two requests that refresh one session, due for it, at once leave two standing sessions in its place |
| WrapperUpdate.Install.Apply | src/mcp/update.py:68-88 | In whatever order files are visited, every path of the disk ends as: the served text, the saved .bak, gone, or untouched |
| WrapperUpdate.Install.WrapperFiles | src/mcp/bundle.py:23-34 | The listing is the one sorted listing of the wrapper set, unless a file cannot be read |
| WrapperUpdate.OnDiskIff | src/mcp/bundle.py:23-34 | The installed wrapper is the entry and the files ending in .py directly in mcp/ |
| WrapperUpdate.ReadsAsLines | src/mcp/bundle.py:23-34 | Up to its first carriage return a text reads as it is; there "\r\n" and a lone "\r" read as one line break |
| WrapperUpdate.LessIff | src/mcp/bundle.py:29-29 | The listing's order is that of the first differing character, a prefix coming first |
| WrapperUpdate.AllowedIff | src/mcp/update.py:32-65 | The allow-list accepts the entry and mcp/ with a word of letters, digits and underscores and .py, perhaps with a line break after it |
| WrapperUpdate.Install.WrapperVersion | src/mcp/bundle.py:37-49 | The hash is fed the path and text of every file, each closed by a NUL, in order |
| WrapperUpdate.ListingIsUnique | src/mcp/bundle.py:29-29 | A set of files has exactly one sorted listing, so the version depends on the set only |
| WrapperUpdate.VersionTellsApart | src/mcp/bundle.py:37-49 | On sets without NULs the versions are equal if and only if the sets are, as far as the hash tells their streams apart |
| WrapperUpdate.SameVersionIff | src/mcp/bundle.py:44-48 | As far as the hash tells their streams apart, two sets have one version if and only if their listings have the same NUL-separated fields |
| WrapperUpdate.NulHidesADifference | src/mcp/bundle.py:44-48 | With a NUL two different sets have one version |
| WrapperUpdate.ConvergesIff | src/mcp/update.py:59-88 | After one update the wrapper set on disk is the served set if and only if no served name ends in a newline, no served text has a carriage return and no rename of an unserved file was refused |
| WrapperUpdate.Install.MaybeSelfUpdate | src/mcp/update.py:91-114 | Applies exactly if managed, readable, different, fully allowed, encodable and verified against both versions; otherwise the disk is untouched |
| WrapperUpdate.ConvergedIsQuiet | src/mcp/update.py:91-114 | After a converged update the version is the served one, and the next run does nothing whatever it is sent |
| WrapperUpdate.UnconvergedRepeats | src/mcp/update.py:91-114 | After one that did not converge the next run applies the same payload again |
| WrapperUpdate.OnlyTheWrapperChanges | src/mcp/update.py:68-88 | No other path changes but .bak and .new siblings; what was replaced or retired is kept as .bak; no .new is left |
| WrapperUpdate.OutsideNeverChanges | src/mcp/update.py:68-114 | Over any number of starts and whatever any server answers, no path outside the wrapper and its siblings changes, and nothing without a managed start |
| WrapperUpdate.UpdateReachesTheServedVersion | src/mcp/update.py:91-114 | A start that changes anything was announced a version other than the installed one and given allowed files with that version; if they converge it is installed then, and the next start announced it changes nothing |
| WrapperUpdate.NewlineNameIsAllowed | src/mcp/update.py:32-65 | A name the allow-list accepts that never counts as installed |

## Left out

- CompileConvergence.Convergence: covers live reviews in one process lifetime; deletion during a compile, and the queue a restart loses, are not modelled. Exceptions are steps inside `put_source` and `create` before the enqueue, in enqueue's status write, inside `_compile` and in its handler; a status write is skipped only while the review has no status.
- CompileWorker.CompileWorker.RunOnce: lets other threads' enqueue sections in after the compile; every other interleaving is CompileProtocol's.
- log_tail, finished_at, templates, figures, and the Tectonic run itself (a compile is any outcome over the text it read).
- LineDiff.FillTable: table entries are unbounded integers, and a line is a sequence of characters rather than of UTF-16 units; `LcsFits` shows no entry exceeds the number of lines.
- Watcher.CapsHoldOnEveryRun: tracked children are the keys of `_inflight`, so a child whose entry is overwritten is not counted; a cap below 1 on attempts acts as 1, as in the source.
- Watcher.Watcher.DrainPending: the crash signal a reap may send, and requests that raise out of the loop, are not modelled; claim answers are arbitrary.
- LongPoll.NoOneSleepsThroughAFlip: the waiting loop is a state machine of its lock sections, one step for each scan, park and wake, rather than a method.
- LongPoll.DeliveredExactlyOnce: needs strictly increasing stamps and a seed no older than the stamps before it; the server's `uid` scoping and row contents are not modelled.
- Handoff.HandoffService.Apply: values a JSON body could carry that are neither strings nor absent are not modelled, except a null owner.
- ReviewStore.EveryVersionIsKept: reviews carry their revision from birth; feedback.md and notes.json in rounds, and the parsing of If-Match, are not modelled. A text is as it is read back: reading turns "\r\n" and "\r" into "\n".
- Comments: `as_note`, the status filter, block-id validation and the route's derivation of `by` from the plane are constant projections or one branch each; anchors are opaque.
- MagicLink.SendLimitsHold: counts recorded sends; a message the backend took before raising is not recorded by the source either. Addresses are already normalised, and the blocklist's answer is an input.
- Tokens.MintedOpens: HMAC and JSON are arbitrary functions, and the lemmas say which of their properties they use; JSON that is not an object, and text that is not ASCII, are not modelled.
- IdentityStore.IdentityStore.SessionTouch: two threads whose SELECTs both come before either UPDATE can both write within 300 s; no result depends on it.
- SessionFlows.SignOutIsFinalIff: the clock never goes back, and a session counts as standing until a revocation hits it, expired or not; the lifetime a refresh gives is arbitrary.
- Sessions: CSRF comparison, cookie headers and account deactivation are one branch each.
- WrapperUpdate.Install.Apply: one process updates at a time; files only, with the mcp directory there and no directory in the way of a file, and no I/O error but an unreadable text and a refused rename of an unserved file; the hash is an arbitrary function over characters rather than UTF-8 bytes.
- Custody and sharing, administration, assets, templates and their registry, latexguard, stdio and MCP schemas, and the browser UI.
