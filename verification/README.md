# AgentHandover: models and proofs

AgentHandover watches how a user works, turns what it saw into Skills, and keeps
everything on the user's machine. This project models the parts of it whose
correctness is hard to see by reading one function, and proves what those parts
promise. Each file is one component and stands alone (all use `Common.dfy`);
`dafny verify dfyconfig.toml` checks the whole project.

| file | component |
|---|---|
| `Alignment.dfy` | the Needleman-Wunsch aligner of two step sequences |
| `BranchMining.dfy` | finding where an observed run left a Skill's steps |
| `BranchRecords.dfy` | hypotheses, promoted branches, and how both follow step edits |
| `BranchExamples.dfy` | runs on which what is written about the two before does not hold |
| `DomWalk.dfy` | the walk of a page under one shared node budget |
| `DomDigest.dfy` | the page's text digest, the anchor chain, fitting the snapshot's size |
| `Relay.dfy` | the extension's message relay over a port that drops and reconnects |
| `Maintenance.dfy` | retention: purges, sweeps, the size cap |
| `SearchIndex.dfy` | the full-text index beside an events table another process changes |
| `ShellLog.dfy` | handing the shell log from appending shells to the ingesting daemon |
| `TierConfig.dfy` | the `[vlm]` edit of the config text |
| `AnnotationCache.dfy` | the simhash key of a screen text and the nearest-row lookup |
| `SecureField.dfy` | the secure-field flag under focus events and stale callbacks |
| `Luhn.dfy` | the card number check |
| `WarnLimiter.dfy` | the lock-free warning limiter |

How the models are built. Code that changes state is a class or a method with the
source's loop, proved against a function or predicate of the inputs or of the old
state; the properties are lemmas about that function. Protocols with several
parties (the shells and the daemon, threads, the browser, the events table's other
writer) are state machines whose runs interleave the parties' steps in any order.
Clocks, whether a connection holds, whether a file operation works, the order in
which a database answers, similarity scores and token hashes are parameters: the
theorems hold for every choice of them.

## What the code does differently from what it says

- `branch_mining.py:77-78` says a promoted branch keeps its own evidence when the
  cap drops hypotheses. The next promotion of the same key replaces the branch by
  one citing only hypotheses still kept (`branch_mining.py:325-333`): of 52 instances
  that agree, the branch cites the first until the last is recorded
  (`BranchExamples.EvidenceCanBeLost`). `BranchRecords.RecordingKeepsEvidenceIff`
  says exactly when a recording keeps all of a branch's evidence.
- "An instance already recorded adds nothing" (`branch_mining.py:312-313`) reaches
  only as far as a kept hypothesis cites the instance
  (`BranchRecords.RecordingChangesIff`); after 50 others it is recorded again
  (`BranchExamples.RecordedAgain`).
- The condition of a skip is said to be the screen of the frame before the divergence
  (`branch_mining.py:37-38`). It is that of the first frame of the visit before
  (`BranchMining.SkipDecidedOn`), which is the frame before exactly when that visit is
  one frame long (`SkipDecidedOnFrameBeforeIff`); a user who lingers on a page makes
  the two differ (`BranchExamples.SkipDecidedEarlier`).
- `captureSnapshot` can end above `MAX_SNAPSHOT_CHARS`, by at most 5 characters,
  when the cut parts a surrogate pair, since half a pair is escaped:
  `DomDigest.CapturedFitsIff` says exactly when, `OverLimit` is a page on which it does.
- The digest is said to be deduplicated (`dom-capture.ts:1000-1004`). The cut at 4096
  units may shorten its last line to an earlier one: `DomDigest.DigestIsDistinctIff`
  says exactly when, `DigestCanRepeat` is a page on which it does.
- A shell-log pass that cannot read the staged file (it is not valid UTF-8) still
  renames the log over it; one that cannot remove it and finds no new log reads it
  again: `ShellLog.PassConservesIff`, `PassLosesOrRepeats`.
- `purge_old_events` fails exactly when an artifact row still names a doomed event,
  foreign keys being enforced; within full maintenance it never does.
- Secure-field detection does not look at the element already focused when it
  starts, and is not told when a focused field turns into a password or leaves the
  document: `SecureField.StartIsValidIff`, `AlterKeepsIff`, `RemovalIsSeenIff`.
- A focusout towards another secure field schedules no callback
  (`secure-field.ts:181-182`). When that field then refuses the focus (a handler of the
  page hides or disables it), the flag stays up over no field until the next focusin:
  `SecureField.RefusalIsSeenIff` says exactly when, `RefusedFocus` is a run.

## Model

| member | source | states |
|---|---|---|
| `Alignment.TracedAligns` | worker/src/agenthandover_worker/variant_detector.py:196-229 | the traceback is a monotone global alignment (every index of each side once, in order, no empty column) that scores exactly the table's last cell |
| `Alignment.NoneBetter` | worker/src/agenthandover_worker/variant_detector.py:188-194 | no alignment of the rest of the two sequences adds more than the table allows for |
| `Alignment.TracedIsOptimal` | worker/src/agenthandover_worker/variant_detector.py:163-229 | the alignment found scores at least as much as every other monotone global alignment |
| `Alignment.ScoreTable` | worker/src/agenthandover_worker/variant_detector.py:181-194 | the table filled in place, row by row, holds the best score of every pair of prefixes |
| `Alignment.SemanticAlign` | worker/src/agenthandover_worker/variant_detector.py:158-229 | filling, tracing back and reversing yields the optimal alignment, empty sides included |
| `BranchMining.MinedIsWellFormed` | worker/src/agenthandover_worker/branch_mining.py:193-213 | for any monotone alignment each divergence has 0 <= step index <= rejoin index <= number of steps, a strictly increasing alternative of visit starts, steps to skip when the alternative is empty, and a condition frame that exists and, when there is an alternative, comes right before it (frame 0 at the start) |
| `BranchMining.MinedInOrder` | worker/src/agenthandover_worker/branch_mining.py:174-212 | each divergence rejoins no later than the next one leaves, and its alternative's frames come earlier, also after detours are merged |
| `BranchMining.NewVisitIsMinedOnce` | worker/src/agenthandover_worker/branch_mining.py:146-213 | a visit to a place that is no step's place and on which no step was performed is in the alternative of exactly one divergence |
| `BranchMining.LeftOutIsMinedOnce` | worker/src/agenthandover_worker/branch_mining.py:146-213 | a step whose place is never visited and which is not performed elsewhere on its site lies in exactly one divergence's replaced steps |
| `BranchMining.MinedHasCause` | worker/src/agenthandover_worker/branch_mining.py:146-213 | no divergence without a visit to a new place or a left-out step |
| `BranchMining.DivergesIff` | worker/src/agenthandover_worker/branch_mining.py:109-213 | a run diverges if and only if it visits a new place or leaves a step out |
| `BranchMining.SiteIff` | worker/src/agenthandover_worker/dom.py:111-116 | two places share a site if and only if their apps are equal and either their documents are pages of one dotted, blank-free host or neither names such a host and they are equal |
| `BranchMining.ColumnIs` | worker/src/agenthandover_worker/branch_mining.py:147-172 | how each column is read: it diverges exactly when its visit is to a new place or its step is left out, decides nothing exactly when it has no visit and its step is visited elsewhere; new and left out are stated on places and sites |
| `BranchMining.MinedIsReadOff` | worker/src/agenthandover_worker/branch_mining.py:174-213 | the divergences come one for each of a list of column spans, apart and in order, that together hold every diverging column; each replaces exactly the steps of its span and its alternative is exactly the first frames of the visits there |
| `BranchMining.PerformedAsWritten` | worker/src/agenthandover_worker/branch_mining.py:146-172 | an instance each of whose columns pairs a step with a visit of the same site does not diverge |
| `BranchMining.ChosenIsBest` | worker/src/agenthandover_worker/branch_mining.py:144-146 | the alignment mined scores at least as much as any other alignment of steps and visits under the similarity of their places |
| `BranchMining.SkipDecidedOn` | worker/src/agenthandover_worker/branch_mining.py:202-206 | a skip is decided on the first frame of the last visit aligned before its first step, frame 0 when there is none |
| `BranchMining.SkipDecidedOnFrameBeforeIff` | worker/src/agenthandover_worker/branch_mining.py:37-38 | that is the frame just before the skip, as documented, if and only if there is one and its visit is one frame long |
| `BranchExamples.SkipDecidedEarlier` | worker/src/agenthandover_worker/branch_mining.py:37-38 | a run where it is not: two frames on one page before the skip, decided on the first, whose screen is another |
| `BranchMining.CanonFacts` | worker/src/agenthandover_worker/branch_mining.py:120-140 | the canonical steps are exactly the steps that have a place, in order |
| `BranchMining.RunsFacts` | worker/src/agenthandover_worker/branch_mining.py:120-145 | the visits are exactly the frames where the place changes, in order, each with its frame's place |
| `BranchMining.MergedFacts` | worker/src/agenthandover_worker/branch_mining.py:185-194 | merging returns to a detour keeps the spans disjoint and in order and covers every span merged |
| `BranchMining.ContiguousIff` | worker/src/agenthandover_worker/branch_mining.py:174-183 | two diverging columns with none between them belong to one span if and only if every column between them is undecided |
| `BranchMining.SameDetourIff` | worker/src/agenthandover_worker/branch_mining.py:185-194 | a span belongs to the same detour as the one before it if and only if at most two columns lie between them, it visits something, and each place it visits was visited in that detour |
| `BranchMining.CollapseRuns` | worker/src/agenthandover_worker/branch_mining.py:120-145 | the loop over the frames yields those visits |
| `BranchMining.FindSpans` | worker/src/agenthandover_worker/branch_mining.py:174-183 | the loop over the columns yields the runs of diverging columns, contiguous but for undecided ones |
| `BranchMining.MergeSpans` | worker/src/agenthandover_worker/branch_mining.py:188-194 | the merge loop yields the detours the theorems speak of |
| `BranchMining.FindDivergences` | worker/src/agenthandover_worker/branch_mining.py:109-213 | the whole function, under the alignment the aligner chooses, returns the divergences the rows before speak of; none for an empty Skill or run |
| `BranchRecords.TermsAreShown` | worker/src/agenthandover_worker/branch_mining.py:250-290 | a term quoted of the shared state is on every one of the screens |
| `BranchRecords.SharedStateIs` | worker/src/agenthandover_worker/branch_mining.py:250-261 | the shared state lists exactly the entries, and the lines, that every screen shows; its URL, when not empty, is every screen's, and it is not empty when all screens have one same URL |
| `BranchRecords.SharedInOrder` | worker/src/agenthandover_worker/branch_mining.py:250-258 | shared entries stand in the order of the first screen |
| `BranchRecords.TermsAreFirst` | worker/src/agenthandover_worker/branch_mining.py:267-272 | the terms quoted are the first three different ones, entries before lines, and all when there are fewer |
| `BranchRecords.HypothesisKeeps` | worker/src/agenthandover_worker/branch_mining.py:216-231 | a hypothesis keeps the divergence's steps, its condition frame's screen and each frame of the alternative as a step, and cites the instance first, then exactly the frames that have an id, each once |
| `BranchRecords.AgreeIff` | worker/src/agenthandover_worker/branch_mining.py:234-239 | two hypotheses have one key exactly when they leave and rejoin at the same steps and go to the same places in the same order |
| `BranchRecords.RemovalKeepsSteps` | worker/src/agenthandover_worker/branch_mining.py:343-390 | after a removal the steps named are the old ones with only the removed step taken out |
| `BranchRecords.RemovalDropsEmptiedSkips` | worker/src/agenthandover_worker/branch_mining.py:363-375 | a removal drops a skip exactly when the removed step was all it skipped |
| `BranchRecords.InsertionKeepsSteps` | worker/src/agenthandover_worker/branch_mining.py:343-390 | after an insertion they are the old ones, with the new step only when it stands after the first and no later than the rejoin; no skip is emptied |
| `BranchRecords.EqualKeysStayEqual` | worker/src/agenthandover_worker/branch_mining.py:234-239 | hypotheses that agreed before a step edit agree after it |
| `BranchRecords.InsertThenRemove` | worker/src/agenthandover_worker/branch_mining.py:343-390 | a step inserted and removed at one position gives hypotheses and worded branches back unchanged |
| `BranchRecords.EditIsUndone` | worker/src/agenthandover_worker/branch_mining.py:343-390 | so it does in every state a run of recordings and edits can reach |
| `BranchRecords.MadeBranchIsOk` | worker/src/agenthandover_worker/branch_mining.py:264-307 | a branch two agreeing instances support cites two different instances by name, its state is exactly what all their screens share, its URL included, its condition quotes only terms on all of them, and it lies on the steps |
| `BranchRecords.RecordIsConsistent` | worker/src/agenthandover_worker/branch_mining.py:310-340 | recording keeps the invariant: at most 50 hypotheses, indexes in range, skips not empty, every mined branch citing and backed by two instances |
| `BranchRecords.ShiftIsConsistent` | worker/src/agenthandover_worker/branch_mining.py:343-390 | so does following a step edit |
| `BranchRecords.RunsAreConsistent` | worker/src/agenthandover_worker/branch_mining.py:310-390 | over every run mixing recordings with step insertions and removals the invariant holds: each mined branch's evidence names two different instances, its state holds exactly the entries, lines and URL that the screens of the hypotheses behind it share, and every term its condition quotes is on each of them |
| `BranchRecords.RecordingTwice` | worker/src/agenthandover_worker/branch_mining.py:310-322 | recording an instance twice in a row changes nothing the second time |
| `BranchRecords.RecordingChangesIff` | worker/src/agenthandover_worker/branch_mining.py:310-322 | recording changes the Skill exactly when no kept hypothesis cites the instance and it diverges |
| `BranchRecords.PromotionReplacesEvidence` | worker/src/agenthandover_worker/branch_mining.py:323-336 | after a promotion the branch cites exactly the evidence of the kept hypotheses with its key |
| `BranchRecords.RecordedEvidence` | worker/src/agenthandover_worker/branch_mining.py:310-340 | after a recording a mined branch cites exactly the evidence of the kept and added hypotheses with its key when an added one promotes it, and is untouched otherwise |
| `BranchRecords.RecordingKeepsEvidenceIff` | worker/src/agenthandover_worker/branch_mining.py:76-78 | a recording keeps all the evidence of a mined branch if and only if none of its hypotheses promotes the branch or every item is cited by a kept or added hypothesis with its key |
| `BranchRecords.DroppedEvidenceIsLost` | worker/src/agenthandover_worker/branch_mining.py:76-78 | evidence no kept or added hypothesis cites is gone after a recording that promotes its branch, whatever the other branches |
| `BranchExamples.EvidenceCanBeLost` | worker/src/agenthandover_worker/branch_mining.py:76-78 | a run from the empty Skill, under every similarity and gap: 52 recordings after which the branch no longer cites the first instance it cited one recording before |
| `BranchExamples.RecordedAgain` | worker/src/agenthandover_worker/branch_mining.py:312-316 | a run in which the instance recorded first is recorded again and changes the Skill |
| `BranchRecords.Procedure.RecordDivergences` | worker/src/agenthandover_worker/branch_mining.py:310-340 | the in-place recording computes the recording function and reports a change exactly when there is one |
| `BranchRecords.Procedure.ShiftSteps` | worker/src/agenthandover_worker/branch_mining.py:343-390 | the in-place shift computes the shift function for +1 and -1 and rejects any other delta unchanged |
| `BranchRecords.Procedure.ShiftBranches` | worker/src/agenthandover_worker/branch_mining.py:363-390 | the loop over the branches moves, rewords and drops as the shift function says |
| `DomWalk.TakeIsPrefix` | extension/src/dom-capture.ts:606-745 | a forest cut to n nodes has, in preorder, exactly the first n nodes of the whole |
| `DomWalk.PageIsCaptured` | extension/src/dom-capture.ts:606-745 | with no budget, a node is captured only by a path of elements from the body, each kept (at most 30 levels down, not ignored, not style-hidden when connected, without children on screen when it has a box and with a label or the like when not) and each led to from the one before (not below an editable root, a table's sections, shown rows, captions and column groups, a row's cells, no slot beside a shadow root); every such path captures its last element where no table is over 50 rows |
| `DomWalk.ShadowComesFirst` | extension/src/dom-capture.ts:703-745 | of an element's children those of its shadow root come first, and those alone are marked |
| `DomWalk.FirstRowsShown` | extension/src/dom-capture.ts:273-318 | of a body's rows exactly the first shown ones are captured, up to 50 in the table, in order |
| `DomWalk.ShownInTable` | extension/src/dom-capture.ts:251-337 | of all the shown rows of a table, in its bodies and loose, 50 are captured, or all when there are fewer |
| `DomWalk.RowsCounted` | extension/src/dom-capture.ts:273-318 | the rows counted for the marker are those of bodies, and the loose ones, without a hiding style |
| `DomWalk.WalkDom` | extension/src/dom-capture.ts:606-745 | what it emits is the unbudgeted walk cut to the room left; the counter rises by the nodes emitted; anything cut sets `truncated` |
| `DomWalk.WalkInside` | extension/src/dom-capture.ts:703-745 | shadow children, then light children, are cut as one forest under the shared counter |
| `DomWalk.BuildRowNode` | extension/src/dom-capture.ts:343-378 | the same of a row and its cells |
| `DomWalk.TruncateTable` | extension/src/dom-capture.ts:251-337 | the same of a table; its marker states the rows left out of those counted |
| `DomWalk.WalkBodyRows` | extension/src/dom-capture.ts:273-318 | the same of a body's rows, and the rows shown keep pace with the unbudgeted walk until the budget ends |
| `DomWalk.CaptureViewport` | extension/src/dom-capture.ts:761-792 | the captured roots are the unbudgeted walk cut to 3000 nodes, and the capped marker is there whenever something was cut; every node captured is reached by such a path, and when nothing was cut every node such a path reaches is captured (with no table over 50 rows on it) |
| `DomDigest.VisitGrows` | extension/src/dom-capture.ts:1005-1026 | a recursive preorder visit that does not descend below a newly emitted label only adds lines, all distinct, non-empty and within the line limit |
| `DomDigest.VisitConcat` | extension/src/dom-capture.ts:1005-1026 | visiting a forest in two parts is visiting it in one |
| `DomDigest.OneLineIs` | extension/src/dom-capture.ts:855-857 | a line is the text's words, parted by white space, with one blank between them, cut at the limit |
| `DomDigest.NodeTextIs` | extension/src/dom-capture.ts:976-986 | a node's text is its own words, or its label's when it has no text, or else its children's texts one after another, cut at 120 |
| `DomDigest.FirstLinkIs` | extension/src/dom-capture.ts:988-998 | the first link text is that of the first link with a text, in preorder |
| `DomDigest.LabelIs` | extension/src/dom-capture.ts:1013-1017 | a heading is labelled by its text, a row or list item by its first link's text or without one its own, nothing else |
| `DomDigest.BuildDigest` | extension/src/dom-capture.ts:1005-1027 | the explicit stack emits a prefix of that visit's lines, all of them or the shortest prefix that reaches the cap, and the digest is their join cut at 4096 |
| `DomDigest.DigestIsDistinctIff` | extension/src/dom-capture.ts:1000-1027 | the digest's own lines are those gathered, none empty, the last one perhaps cut; they are distinct if and only if the cut leaves the last line whole or leaves of it what is none of the lines before |
| `DomDigest.DigestCanRepeat` | extension/src/dom-capture.ts:1000-1027 | a page of 35 headings whose digest ends on a repeat of its first line |
| `DomDigest.AnchorChain` | extension/src/dom-capture.ts:960-974 | the chain stops at the nearest landmark, the page or its length limit, whichever is first |
| `DomDigest.CutWidth` | extension/src/dom-capture.ts:1047-1050 | cutting n units saves at least n characters of JSON unless it parts a surrogate pair, which costs 4 more |
| `DomDigest.LengthIsSerialized` | extension/src/dom-capture.ts:1035-1047 | the length reckoned with is that of the text `JSON.stringify` makes of the snapshot, with its escapes and its surrogate pairs |
| `DomDigest.FitSnapshot` | extension/src/dom-capture.ts:1044-1051 | the anchors kept are the longest prefix that fits (the interacted element always), the digest loses exactly the excess, and the result fits, or nothing is left to cut, or it is at most 5 over at a parted pair |
| `DomDigest.ShortenedFitsIff` | extension/src/dom-capture.ts:1047-1050 | the shortened snapshot fits if and only if the cut parts no surrogate pair or what is removed after the pair has five characters of escapes |
| `DomDigest.CaptureSnapshot` | extension/src/dom-capture.ts:1035-1052 | chain, digest and fit in sequence yield the snapshot the next two rows speak of |
| `DomDigest.CapturedFitsIff` | extension/src/dom-capture.ts:1028-1052 | the whole capture keeps a prefix of the anchor chain that holds the interacted element and a prefix of the digest; it fits if and only if the digest's cut parts no surrogate pair, or saves five characters of escapes, or dropping all of the digest suffices; it is never more than 5 over while any digest is left |
| `DomDigest.OverLimit` | extension/src/dom-capture.ts:1028-1052 | a page of 29 headings ending in an emoji, with nothing interacted with, whose snapshot is 5 characters over the limit |
| `Relay.RelayInOrder` | extension/src/background.ts:265-302 | over every run, posted messages followed by the queue are an in-order selection of the forwarded ones, none twice, and the queue stays within 100 |
| `Relay.NothingLost` | extension/src/background.ts:277-302 | nothing forwarded is lost unless the queue overflowed |
| `Relay.Play` | extension/src/background.ts:59-302 | the worker taken through any sequence of forwards, alarms, ready pages, pings and drops, with any outcomes of its connects and any drops in between, goes through such a run, so the two rows before hold of its posts and its queue; when connects hold and the port drops only between events, every message forwarded is posted, in order, and none is queued |
| `Relay.Background.ForwardToDaemon` | extension/src/background.ts:277-302 | forwarding posts or queues behind everything before it, and drops the oldest only when 100 are queued and no connect holds, with drops allowed at any point of the drain it triggers; when the connect holds and no drop comes it ends connected with the queue and then the message posted |
| `Relay.Background.DrainDisconnectQueue` | extension/src/background.ts:265-275 | draining keeps order and loses nothing even when the port drops mid-drain, and with no drop posts the whole queue; the mutual recursion ends because each nested drain starts on a shorter queue |
| `Relay.Background.InitNativeConnection` | extension/src/background.ts:59-90 | connecting keeps order and leaves one listener; connected at rest means an empty queue; a refused connect changes nothing; one that holds with no drop posts the whole queue and its resend buffer holds only posts since |
| `Relay.Background.SendToNative` | extension/src/native-messaging.ts:167-188 | every post carries the next sequence number and the resend buffer is the last 50 posts |
| `Relay.Background.OnAlarm` | extension/src/background.ts:110-114 | the reconnect alarm keeps the relay, and when the connect holds ends connected with the queue posted |
| `Relay.Background.OnContentReady` | extension/src/background.ts:252-259 | so does a page reporting itself ready; when connected at the end the last post is the report |
| `Relay.Background.OnPing` | extension/src/background.ts:310-315 | answering a ping posts exactly one message, the pong, and leaves the relayed ones as they were |
| `Maintenance.DoomedIff` | crates/storage/src/maintenance.rs:51-76 | an event is to go if and only if it was processed and is either past the retention and not newer than the distilled mark, or past twice the retention whatever the mark |
| `Maintenance.EvictionFrees` | crates/storage/src/maintenance.rs:192-252 | deleting a prefix of rows takes exactly its files' sizes off the directory |
| `Maintenance.EvictionMeetsCap` | crates/storage/src/maintenance.rs:192-252 | eviction brings the directory to the cap unless every row goes, and one row less would not |
| `Maintenance.EvictedAreOldest` | crates/storage/src/maintenance.rs:210-234 | a row evicted for the cap is not younger than a row that stays, each by its event's time or, when the event is gone, by its own |
| `Maintenance.RetentionHolds` | crates/storage/src/maintenance.rs:306-323 | sweep, then purge: exactly the doomed events go and exactly their jobs; of the rows exactly theirs and the orphaned ones; of the files exactly those such rows name and unreferenced artifact files |
| `Maintenance.EvictionRetains` | crates/storage/src/maintenance.rs:326-332 | the size cap afterwards takes exactly the rows at the evicted paths and their files besides |
| `Maintenance.ExpungeRetains` | crates/storage/src/maintenance.rs:337-345 | the last stages take exactly the expired screenshots and jobs besides |
| `Maintenance.CapIsMet` | crates/storage/src/maintenance.rs:326-341 | when the rows whose files exist name different ones inside the directory at the start, it is within the cap at the end or no row is left, and one eviction less would not have been enough |
| `Maintenance.Store.PurgeOldArtifacts` | crates/storage/src/maintenance.rs:81-106 | exactly the rows of doomed events go, and their paths are returned |
| `Maintenance.Store.PurgeOldEvents` | crates/storage/src/maintenance.rs:22-39 | fails, changing nothing, exactly when a row still names a doomed event; otherwise exactly the doomed events and their jobs go |
| `Maintenance.Store.SweepOrphanArtifacts` | crates/storage/src/maintenance.rs:260-303 | every remaining row's event exists, every remaining `.bin` or `.bin.tmp` file is referenced, and a file that went was unreferenced or a dropped row's |
| `Maintenance.Store.EvictArtifactsBySize` | crates/storage/src/maintenance.rs:192-252 | the evicted paths are the shortest oldest-first prefix that covers the excess, and exactly the rows at those paths go; with the row above the older go first |
| `Maintenance.Store.DeleteFiles` | crates/storage/src/maintenance.rs:444-462 | the bytes and count reported are those of the files that disappeared, a path given twice or missing counted once or not at all |
| `Maintenance.Store.RunFullMaintenance` | crates/storage/src/maintenance.rs:306-360 | the whole run never fails on a foreign key; exactly the events due go; which jobs, rows, files and episodes go is stated both ways; what the cap evicts is the shortest oldest-first prefix of the rows retention left that covers the excess, none of it younger than what stays; the report's bytes and counts are those of what disappeared |
| `SearchIndex.OthersKeep` | worker/src/agenthandover_worker/activity_search.py:451-516 | inserts, write-once annotations and deletions by the daemon, and requests to forget that delete events with their index and shadow rows, keep the shadow table a bijection onto the index rows |
| `SearchIndex.IndexedOnce` | worker/src/agenthandover_worker/activity_search.py:451-484 | no event is indexed twice |
| `SearchIndex.IndexOne` | worker/src/agenthandover_worker/activity_search.py:464-482 | indexing a pending event keeps the bijection, whatever freed row id it reuses, also when the event was deleted meanwhile |
| `SearchIndex.HitsAreLive` | worker/src/agenthandover_worker/activity_search.py:262-270 | a search returns only live events with their current annotation |
| `SearchIndex.SearchIsScanIff` | worker/src/agenthandover_worker/activity_search.py:262-270 | every search equals a scan of the events if and only if every annotated event is indexed |
| `SearchIndex.PruneKeeps` | worker/src/agenthandover_worker/activity_search.py:495-516 | deleting by rowid what the prune read keeps the bijection and removes those entries and no other, also when rows were forgotten since |
| `SearchIndex.ActivitySearcher.PopulateFtsIndex` | worker/src/agenthandover_worker/activity_search.py:451-484 | what is indexed afterwards is what was, plus everything annotated at the read, but for rows others made it forget in between |
| `SearchIndex.ActivitySearcher.PruneIndex` | worker/src/agenthandover_worker/activity_search.py:495-516 | what is indexed afterwards was alive at the prune |
| `SearchIndex.ActivitySearcher.Maintain` | worker/src/agenthandover_worker/activity_search.py:486-516 | with others acting between and within refresh and prune, the indexed ids lie between what the refresh read as annotated and lives on (less what was forgotten) and what the prune read as alive; when nothing happened they are exactly the live annotated events and any search equals the scan |
| `SearchIndex.ActivitySearcher.Search` | worker/src/agenthandover_worker/activity_search.py:202-285 | the first search of an instance answers every matching event annotated before it that lives on, any later one every such event indexed before it, and nothing but live events with their current annotation |
| `ShellLog.Handover` | crates/daemon/src/shell.rs:93-123 | over every interleaving of opens, appends and passes: appended = read + still waiting + landed after their file was read |
| `ShellLog.ExactlyOnceIff` | crates/daemon/src/shell.rs:93-123 | the handover is exactly once if and only if every append lands before its file is read |
| `ShellLog.NoLineTwice` | crates/daemon/src/shell.rs:93-123 | a line appended once is read at most once, and not if it still waits |
| `ShellLog.PassConservesIff` | crates/daemon/src/shell.rs:95-123 | with failing file operations, a pass loses and repeats nothing exactly when it reads the staged file and gets rid of it, or does neither |
| `ShellLog.PassLosesOrRepeats` | crates/daemon/src/shell.rs:112-121 | the two failures: an unreadable staged file is overwritten, a read one that stays is read again |
| `ShellLog.ActionConserves` | crates/daemon/src/shell.rs:95-123 | each single step conserves the lines |
| `ShellLog.ShellIngest.TakeCommands` | crates/daemon/src/shell.rs:95-123 | a pass returns the well-formed lines of the staged file in order and leaves the world the pass function says, for every outcome of its file operations |
| `TierConfig.LastTierWins` | crates/common/src/tiers.rs:208-237 | for every config text, applying one tier and then another is applying the other |
| `TierConfig.AppliedLines` | crates/common/src/tiers.rs:221-237 | the edited lines are those before the header, the block, the section's unmanaged lines, and everything from the next section on, all in order |
| `TierConfig.AppendedBlock` | crates/common/src/tiers.rs:211-219 | without the section the text is kept, its last line ended, and a blank line and the block follow |
| `TierConfig.BlockSets` | crates/common/src/tiers.rs:195-202 | the block gives the mode, and the tier's id, annotation model and SOP model each under its own key |
| `TierConfig.ManagedOnce` | crates/common/src/tiers.rs:192-237 | in the edited section each managed key is set exactly once, on the line that gives the tier's field for it |
| `TierConfig.KeptLines` | crates/common/src/tiers.rs:223-235 | the flag-driven loop drops managed lines only up to the next line that opens a section |
| `TierConfig.LinesOfText` | crates/common/src/tiers.rs:210-210 | the inclusive split loses nothing and ends each line but possibly the last |
| `TierConfig.LinesOfConcat` | crates/common/src/tiers.rs:210-210 | splitting joined lines gives the lines back |
| `TierConfig.ApplyVlmBlock` | crates/common/src/tiers.rs:208-237 | the function's branches and loop compute the edit the theorems speak of |
| `AnnotationCache.SimhashBits` | worker/src/agenthandover_worker/annotation_cache.py:68-75 | a bit of the 64-bit key is set exactly when more tokens have it than not |
| `AnnotationCache.WeightMoves` | worker/src/agenthandover_worker/annotation_cache.py:68-75 | a bit's weight moves by at most the number of tokens put in or taken out |
| `AnnotationCache.NoiseMovesFewBits` | worker/src/agenthandover_worker/annotation_cache.py:68-75 | the Hamming distance of two keys is at most the number of bits whose weight the edits can carry across zero |
| `AnnotationCache.UnstableAre` | worker/src/agenthandover_worker/annotation_cache.py:68-75 | those bits are the ones whose weight lies within the number of edits of zero |
| `AnnotationCache.OrderIsFree` | worker/src/agenthandover_worker/annotation_cache.py:68-75 | token order does not matter |
| `AnnotationCache.PackedDistance` | worker/src/agenthandover_worker/annotation_cache.py:75-75 | exclusive-or and bit count of two packed keys count the weights of differing sign |
| `AnnotationCache.SignedRoundTrip` | worker/src/agenthandover_worker/annotation_cache.py:78-80 | the signed column and the mask are inverse to each other on their whole ranges |
| `AnnotationCache.NoiseStillHits` | worker/src/agenthandover_worker/annotation_cache.py:115-141 | a noisy text with at most three unstable bits finds an annotation when the clean text's row is a candidate that parses |
| `AnnotationCache.RecentIsCandidate` | worker/src/agenthandover_worker/annotation_cache.py:119-123 | a row is a candidate when fewer than 64 other rows of its window are as recent, however ties are ordered |
| `AnnotationCache.HitIsNear` | worker/src/agenthandover_worker/annotation_cache.py:124-140 | a hit has the key's app and title, lies within three bits, parses, is the most recently used such row, and is among the 64 rows looked at |
| `AnnotationCache.StoredIsFound` | worker/src/agenthandover_worker/annotation_cache.py:115-154 | what was stored last is what a near key finds |
| `AnnotationCache.Simhash64` | worker/src/agenthandover_worker/annotation_cache.py:68-75 | the nested loops over a weight array compute the key |
| `AnnotationCache.Cache.Lookup` | worker/src/agenthandover_worker/annotation_cache.py:115-141 | the loop answers the first usable candidate and touches only its row; a busy database is a miss that changes nothing |
| `AnnotationCache.Cache.Store` | worker/src/agenthandover_worker/annotation_cache.py:143-154 | a store replaces the row of the same key and no other |
| `SecureField.FlagFollowsFocus` | extension/src/secure-field.ts:149-195 | over every run, window blurs and focus lost with no event included: a secure field in focus is flagged once its focusin is handled; a flag without one has its current callback pending once the events are handled, unless an announced focus has not arrived or the focus was lost with no event; at rest otherwise flag and focus agree; statuses sent alternate and the last is the flag |
| `SecureField.CallbacksSettle` | extension/src/secure-field.ts:186-194 | the pending callbacks, in whatever order, bring the flag to the focus and none clears it under a secure field |
| `SecureField.StepKeeps` | extension/src/secure-field.ts:149-195 | each handler, callback, focus move, silent loss, window blur or return and allowed page change keeps the invariant |
| `SecureField.StartIsValidIff` | extension/src/secure-field.ts:149-155 | the invariant holds at the start exactly when the element then active is not secure |
| `SecureField.AlterKeepsIff` | extension/src/secure-field.ts:86-114 | a page's change of the focused field keeps the invariant exactly when it does not turn an unflagged field secure after its focusin, or a flagged one plain with no event and no callback due |
| `SecureField.RemovalIsSeenIff` | extension/src/secure-field.ts:176-195 | at rest, taking the focused element out without an event leaves the flag right exactly when it was not secure; the next focusin repairs it |
| `SecureField.RefusalIsSeenIff` | extension/src/secure-field.ts:176-195 | when focus leaves for an element that refuses it, no flag is left without a callback due if and only if there was no flag, the element announced is not secure, or a callback was due already; the next focusin handled repairs it |
| `SecureField.RefusedFocus` | extension/src/secure-field.ts:181-182 | a run over two passwords after which the flag is up with nothing focused, no event and no callback |
| `SecureField.MarkStays` | extension/src/secure-field.ts:91-97 | a field once seen as a password is secure in every later state |
| `SecureField.RevealedStaysSecure` | extension/src/secure-field.ts:91-97 | so a focused password shown as text stays secure |
| `SecureField.Detector.IsSecureField` | extension/src/secure-field.ts:86-114 | the loops compute the verdict of the row after, and leave the mark on a password |
| `SecureField.SecureIff` | extension/src/secure-field.ts:86-114 | an input or text area is secure exactly when it is a password input, was seen as one, has a listed autocomplete token, or its name or id contains a listed pattern |
| `SecureField.Detector.HandleFocusIn` | extension/src/secure-field.ts:164-174 | the handler computes the focusin transition |
| `SecureField.Detector.HandleFocusOut` | extension/src/secure-field.ts:176-195 | the handler computes the focusout transition, scheduling a callback under a new number only when the flag is set and the next element is not secure |
| `SecureField.Detector.Callback` | extension/src/secure-field.ts:190-195 | the callback computes its transition: nothing when its number is stale |
| `Luhn.MistypedIsRejected` | crates/common/src/redaction.rs:76-101 | one digit changed in an accepted text, of any length and with any separators, is rejected |
| `Luhn.SwappedIsRejectedIff` | crates/common/src/redaction.rs:76-101 | two different digits swapped with only separators between them are still accepted if and only if they are 0 and 9 |
| `Luhn.SeparatorsAreFree` | crates/common/src/redaction.rs:77-81 | separators put in anywhere never change the verdict |
| `Luhn.CheckDigit` | crates/common/src/redaction.rs:83-101 | twelve digits or more have exactly one check digit that makes them accepted |
| `Luhn.CheckIs` | crates/common/src/redaction.rs:83-101 | two more digits on the right add the digits of the double of the first and the second as it is; thirteen digits and a multiple of ten are needed |
| `Luhn.LuhnCheck` | crates/common/src/redaction.rs:76-101 | the loop from the right with its alternating flag computes the check; fewer than 13 digits are rejected |
| `WarnLimiter.StepKeeps` | crates/common/src/observation.rs:80-88 | each load (of any stamp ever stored) and each exchange keeps the stamps spaced |
| `WarnLimiter.WarningsAreSpaced` | crates/common/src/observation.rs:68-89 | in every interleaving, with clocks reading anything, warnings i and j are at least (j - i) intervals apart, and the stamps stored are their readings |
| `WarnLimiter.WinsIffFresh` | crates/common/src/observation.rs:82-88 | a call warns exactly when no stamp was stored after the one it loaded |
| `WarnLimiter.OneWinner` | crates/common/src/observation.rs:82-88 | of two calls that loaded the same stamp at most one warns |
| `WarnLimiter.WarnLimiter.ShouldWarn` | crates/common/src/observation.rs:80-88 | called alone it warns exactly when it never did or the interval has passed, and stores the reading then only |

## Left out

- The wording of conditions and actions (`branch_mining.py:264-307`): which steps,
  names and terms they quote is modelled, the English around them is not.
- Normalising an app and a location to a place, and scoring two places' similarity:
  places are carried by frames and steps, the similarity is a parameter. Scores are
  real numbers, so floating-point rounding of the alignment table is not modelled.
- OCR text is taken as already split into lines; `observed_at` and other time stamps
  of hypotheses are dropped; `mine_observations`, which only loads and saves, too.
- RunsAreConsistent: for runs of recordings, insertions and removals. Steps written anew
  from later observations keep the hypotheses and branches of the old ones without
  `shift_steps` (`procedure_writer.py:71-74`), and an answer to a question may reword a
  step in place (`questions.py:654-670`); indexes and wording may be stale from then on.
- EditIsUndone: for the same runs; after a rewording an insertion or removal words the
  branches again.
- Indexes that are not integers: `shift_steps` leaves them alone, here every index is one.
- `extractNodeInfo`, CSS class filtering, accessible names and the fields of an anchor
  record: an element carries what is extracted of it, an anchor its serialised length.
- TruncateTable: the rows its marker counts do not include those of sections found once
  the node budget is spent, as in the code.
- Anchor records enter a snapshot by the length of their serialised form alone.
- The content scripts, `handleDaemonMessage`, and navigation events other than as
  messages that are forwarded; a service worker restart, which loses the queue.
- A `postMessage` that throws: a drop is always seen as a disconnect before a post.
- Message time stamps, and the resend buffer's use other than being filled and cleared.
- File operations that fail during maintenance, a clock that moves while it runs, the
  u32 width of the retention settings, WAL checkpoints, vacuuming, empty directories.
- CapIsMet: assumes that rows whose files exist name different ones inside the directory.
- Parsing and comparing timestamps as text: an event carries its rank and its time.
- Ranking, escaping and limiting of search queries; a match is any predicate on what
  is indexed. Event ids are never reused (they are UUIDs),
  and one searcher writes the index. Recall and active minutes.
- The daemon's recording of shell commands after a pass; parsing of a line.
- Prune of the annotation cache, the title hash and the folding of volatile text; tokens
  enter by their hashes. A lookup whose update fails is a miss, as in the code.
- LastTierWins: for tiers whose fields contain no line break.
- Splitting and lower-casing the autocomplete tokens, the name and the id of a field:
  an element carries them so. Focus moves inside one shadow root are assumed to be delivered as events,
  and focus is not moved by a script while the window is without it.
- MarkStays: assumes that a page never removes the mark from a field.
- LuhnCheck: sums in unbounded integers; a u32 sum overflows only past 400 million digits.
- Regular-expression redaction, sockets, processes, permissions, prompts, model calls
  and everything that depends on model text.
