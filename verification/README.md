# Grove: a verified model of its stateful cores

This Dafny project models the parts of Grove that hold state across steps, and proves what
they promise: the in-process terminal pipeline (ordered PTY writes, coalesced output, the
replay gate, the scrollback ring, the process worklist), the line-staging patch builder and
its neighbours (conflict ranges, the file-content cache), stacked worktrees and the source
refresh, the mission store, and the agent launch chain.

`dafny verify dfyconfig.toml` checks everything. Three shapes recur:

- Code that changes state in place is a class. Each method's `ensures` equates the new state
  with a specification function of the old one (`View() == Pushed(old(View()), data)`), and
  lemmas say what that function does.
- Concurrent code is a transition system: one step is one critical section or one call made
  off the lock, and time-outs, wakeups, faults and scheduling are free choices. A run is a
  sequence of states and steps, or a fold over steps; the theorems hold at every point of
  every run.
- Git and the disk are an abstract state whose every command may fail. A fault record says
  which do.

| file | models |
|---|---|
| `Bytes`, `Integers`, `Options`, `Utf8` | shared vocabulary; UTF-8 after RFC 3629, section 4 |
| `PtyWriter`, `PtyWriterRuns` | the ordered input queue and all its interleavings |
| `OutputCoalescer`, `CoalescerRuns` | the output buffer, its overflow rule and its flusher |
| `Scrollback`, `ReplayGate`, `GateRuns` | splicing a snapshot onto a live stream while `create` and the stream task race |
| `ProcessTree` | the worklist over a process table |
| `SelectivePatch`, `PatchText`, `GitApply` | hunks as edit scripts, the patch text that reads back, and where git puts it |
| `ConflictRanges`, `FileContentCache` | conflict context, line counting and slicing, the bounded cache |
| `StackedWorktrees`, `WorktreeOps`, `WorktreeRuns` | the parent map, its normalisation, and runs of add, stack and remove |
| `SourceRefresh` | stash, sync, restore |
| `Missions`, `MissionRuns` | the mission store under its lock, with lock-free listings |
| `LaunchChain` | resolving the real binary, and the self-re-entering exec chain |

## Where a promise does not hold as stated

Each of these is kept as the code has it, with the exact condition proved for all inputs.

- A `write` that reports a time-out may still have reached the device. It is certain not to,
  in every continuation, exactly when its job was pulled back out of the queue
  (`PtyWriterRuns.TimedOutStaysUnwrittenIffPulledBack`).
- The sink sees the stream from the snapshot on exactly when no frame that arrives after the
  gate opened begins below the snapshot: only held frames are trimmed
  (`GateRuns.SinkSeesTheStreamFromTheSnapshot`, `GateRuns.LateFrameBelowTheSnapshotIsRepeated`).
- A patch of one hunk keeps the full diff's new start although the earlier hunks are left out,
  and `git apply` looks there first. It lands in its place exactly when no other occurrence of
  its old side is tried earlier (`GitApply.LandsInPlaceIff`); with a repeated block another one
  can be changed while git reports success (`GitApply.DriftedHunkGoesAstray`).
- Git lists a branch as `heads/x` (or `refs/heads/x`) when a tag or another ref also answers to
  `x`, and the checks before an add read that listing. With rollback and cleanup working, a
  failed stacked add restores everything exactly if the checks let pass no name that a branch, a
  worktree or a link had already (`WorktreeRuns.CleanFailureRestoresIff`, for every state). Two
  inputs let one pass: an existing branch hidden by a tag is deleted with its worktree
  (`WorktreeRuns.HiddenBranchIsDestroyed`), and a detached worktree is removed by force although
  no branch has its name (`WorktreeRuns.DetachedWorktreeIsRemoved`).
  `WorktreeRuns.FailedStackRestoresIff` adds the failures of rollback and cleanup.
- Asking a plain add for such a long name checks out a detached commit: the one way a worktree
  comes off its like-named branch (`WorktreeRuns.RunStaysOnBranchesIff`). A worktree directory
  comes to lie in another exactly when a worktree is made below another's name
  (`WorktreeRuns.RunsNeverNestIff`), which takes a detached one (`WorktreeRuns.RunsNeverNest`,
  `WorktreeRuns.DetachedWorktreeCanNest`). Branch names stay free of path prefixes in any case.
- A run keeps forest, branches and names throughout exactly when none of its steps spoils them
  (`WorktreeRuns.RunIsGoodIff`): an add that detaches, a stacked add whose link outlives its
  worktree or closes a circle or whose cleanup orphans children, or a removal that cannot list
  the children or save the removed link. An unlisted removal can even lead to a saved circle
  (`WorktreeRuns.UnlistedRemovalCanMakeACircle`).
- `git stash push` reports success when nothing can be stashed (edits inside a submodule count
  as local changes but are not stashed). The refresh then takes the newest older entry for its
  own, applies it and drops it. Earlier entries are safe under every pattern of failures
  exactly when that situation is absent (`SourceRefresh.EarlierEntriesSafeIff`).
- A mission store that cannot be read loads as empty. A mutation that saves after such a load
  overwrites every mission; an added project stays exactly while no such load is saved
  (`MissionRuns.CommitKeepsIff`, `MissionRuns.AddedProjectStaysIff`,
  `MissionRuns.FailedReadOverwrites`).
- A canonical path that holds a colon or is no UTF-8 cannot be carried by the skip list, which
  is colon-separated text. While the list is text, as launchers make it, the next launcher
  chooses the same binary again exactly then (`LaunchChain.NextChoiceRepeatsIff`). The depth cap
  still ends the chain, one alias later at the most if PATH holds bytes that are no UTF-8
  (`LaunchChain.LastAtTheCapIff`, `LaunchChain.ChainsAreShort`).

## Model

| member | source | states |
|---|---|---|
| PtyWriter.WriterInner.TryEnqueue | grove/grove-core/src/pty.rs:643-677 | one pass of the enqueue loop under the lock: refuses when closed, admits by the byte cap (an empty queue admits anything), numbers and appends the batch |
| PtyWriter.WriterInner.DropQueuedJob | grove/grove-core/src/pty.rs:711-718 | takes out exactly the queued job with that number and gives its bytes back; says whether it was there |
| PtyWriter.WriterInner.PopFront | grove/grove-core/src/pty.rs:742-758 | the writer takes the oldest job, or exits when closed, or sleeps |
| PtyWriter.WriterInner.Close | grove/grove-core/src/pty.rs:721-732 | dropping the last handle only sets `closed` |
| PtyWriterRuns.StepKeepsInv | grove/grove-core/src/pty.rs:625-782 | every step of callers, time-outs, spurious wakeups, writer and drop keeps the whole-system invariant |
| PtyWriterRuns.BatchesReachTheDeviceInOrder | grove/grove-core/src/pty.rs:643-662 | in every run batches reach the device whole, as their callers gave them, in strictly increasing enqueue order, each at most once |
| PtyWriterRuns.OkMeansWrittenOnce | grove/grove-core/src/pty.rs:683-705 | a call that returned Ok had its whole batch written successfully, by exactly one attempt, before it returned |
| PtyWriterRuns.SpaceTimeoutNeverEnqueued | grove/grove-core/src/pty.rs:663-676 | a call that gave up waiting for space is behind no job, then or later |
| PtyWriterRuns.EveryBatchIsInOnePlace | grove/grove-core/src/pty.rs:739-782 | an admitted batch is queued, in flight, attempted or pulled back, exactly one of these |
| PtyWriterRuns.PulledBackNeverWritten | grove/grove-core/src/pty.rs:707-718 | a job removed from the queue is never written, whatever follows |
| PtyWriterRuns.TimedOutStaysUnwrittenIffPulledBack | grove/grove-core/src/pty.rs:688-703 | after a time-out the batch stays unwritten in every continuation if and only if its job was pulled back |
| PtyWriterRuns.TimedOutYetWritten | grove/grove-core/src/pty.rs:688-718 | a run from the start in which a timed-out batch is written all the same |
| PtyWriterRuns.QueueStaysBounded | grove/grove-core/src/pty.rs:649-661 | `queued_bytes` is the exact sum, and at most the cap unless exactly one job is queued |
| PtyWriterRuns.NoLostWakeups | grove/grove-core/src/pty.rs:667-771 | sleepers on `space_free`, `job_ready` and `done` wait for something that has not happened yet |
| PtyWriterRuns.SleepersFaceAFullQueue | grove/grove-core/src/pty.rs:649-676 | a caller asleep for space always faces a queue that is not empty and would pass 1 MiB with its batch |
| PtyWriterRuns.OpenWriterAdmitsIff | grove/grove-core/src/pty.rs:643-677 | in every run an open writer admits exactly when the queue is empty or the sum stays within 1 MiB, and then appends the batch; refusal, time-out and sleep otherwise |
| PtyWriterRuns.GivingUpTakesTime | grove/grove-core/src/pty.rs:663-703 | no call gives up but by a step on which its time was over |
| PtyWriterRuns.DroppingTheHandleAbandonsNothing | grove/grove-core/src/pty.rs:721-732 | every queued job has its caller still inside `write`, so the queue is empty when the last handle goes |
| PtyWriterRuns.WriterMakesProgress | grove/grove-core/src/pty.rs:739-782 | while work is left the writer thread has a step, and every such step leaves less work |
| OutputCoalescer.NextLead | grove/grove-core/src/pty.rs:444-454 | the cut moves forward to the first byte that is no continuation byte |
| OutputCoalescer.Overflow | grove/grove-core/src/pty.rs:440-457 | what remains is within the cap, and nothing is dropped within it |
| OutputCoalescer.CoalescerInner.Push | grove/grove-core/src/pty.rs:431-462 | ignores empty and late pushes, appends, and drops the oldest bytes past the cap |
| OutputCoalescer.CoalescerInner.Close | grove/grove-core/src/pty.rs:464-468 | sets `closed` and nothing else |
| OutputCoalescer.CoalescerInner.Check | grove/grove-core/src/pty.rs:495-533 | the flusher under the lock: sleep, take the buffer to emit, or take the final tail |
| CoalescerRuns.StepKeepsInv | grove/grove-core/src/pty.rs:431-533 | every push, close, wakeup, check and delivery keeps the invariant |
| CoalescerRuns.RunsNeverBlock | grove/grove-core/src/pty.rs:431-533 | every enabled step extends a run: the definition of runs rules no step out |
| CoalescerRuns.OutputIsSlicesInOrder | grove/grove-core/src/pty.rs:439-457 | the buffer is a bounded suffix of the accepted bytes; the sink got disjoint, increasing slices of them from before it |
| CoalescerRuns.PushesAreAcceptedUntilClose | grove/grove-core/src/pty.rs:431-468 | pushes and the close are never held up; a push is accepted whole until the close and ignored after it |
| CoalescerRuns.LosslessIffNeverTruncated | grove/grove-core/src/pty.rs:440-457 | emitted, in-flight and pending bytes make up the accepted stream if and only if the cap was never hit |
| CoalescerRuns.ExitIsFinal | grove/grove-core/src/pty.rs:505-514 | after the flusher exits nothing is pending, accepted or emitted any more |
| CoalescerRuns.ExitedDeliveredEverything | grove/grove-core/src/pty.rs:470-480 | an exited flusher delivered the whole accepted stream if and only if the cap was never hit |
| CoalescerRuns.FlusherIsWoken | grove/grove-core/src/pty.rs:461-531 | the flusher never sleeps idle with bytes pending nor at all once closed, and in the window only on some, but fewer than a full flush |
| CoalescerRuns.AwakeFlusherDecides | grove/grove-core/src/pty.rs:496-531 | the awake flusher takes exactly the pending bytes when closed, when the window is over or from 64 KiB on, exits when closed with none, and sleeps otherwise |
| CoalescerRuns.FlusherDrains | grove/grove-core/src/pty.rs:495-533 | from every point of every run at most three steps of the flusher, the window being over, hand on all that was pending or in flight, in order |
| CoalescerRuns.ClosedFlusherExits | grove/grove-core/src/pty.rs:505-514 | once closed the flusher has a step until it has exited, takes three at the most, and no push puts it back |
| CoalescerRuns.OverflowCutsAtACharacter | grove/grove-core/src/pty.rs:440-457 | on well-formed UTF-8 an overflow leaves at most three bytes less than the cap, starting a character |
| CoalescerRuns.GapsResumeAtCharacters | grove/grove-core/src/pty.rs:445-455 | every gap in the output of a well-formed stream resumes on a character boundary |
| Utf8.BoundaryIffLeadByte | grove/grove-core/src/pty.rs:445-454 | in well-formed text (section 4 of RFC 3629) the boundaries are exactly the positions without a continuation byte |
| Utf8.ContinuationRunsAreShort | grove/grove-core/src/pty.rs:448-454 | no four bytes in a row are continuation bytes |
| Utf8.LossyKeepsIff | grove/grove-agent/src/resolve.rs:176-178 | the lossy conversion changes exactly what is not well-formed |
| Utf8.ValidIffEncodesText | grove/grove-agent/src/resolve.rs:176-178 | well-formed byte strings (section 4 of RFC 3629) are exactly the encodings of text (section 3 of RFC 3629) |
| Utf8.LossyIsReencoding | grove/grove-core/src/git_diff.rs:1017-1022 | the lossy conversion decodes to text, and its bytes are that text encoded |
| Utf8.IllFormedIsMaximal | grove/grove-core/src/git_diff.rs:1017-1022 | one replacement character stands for the longest beginning of a character, or for one byte where there is none |
| Scrollback.ScrollbackRing.Append | grove/grove-core/src/pty.rs:2443-2461 | appends and drops the oldest bytes past the limit, in place |
| Scrollback.AppendedShowsTheEnd | grove/grove-core/src/pty.rs:2449-2460 | a ring showing the end of a history shows the end of the longer one; the flag says whether anything was cut |
| Scrollback.ChunkingIsInvisible | grove/grove-core/src/pty.rs:2443-2461 | however a stream is cut into chunks the ring holds its last bytes |
| ReplayGate.DaemonSinkAdapter.Ingest | grove/grove-core/src/pty.rs:277-280 | mirrors the chunk, then hands it on |
| ReplayGate.DaemonSinkAdapter.OnData | grove/grove-core/src/pty.rs:346-355 | holds a frame while the gate is closed, forwards it whole afterwards |
| ReplayGate.DaemonSinkAdapter.OnExit | grove/grove-core/src/pty.rs:357-373 | records an exit while the gate is closed, tears down afterwards |
| ReplayGate.DaemonSinkAdapter.Teardown | grove/grove-core/src/pty.rs:336-342 | marks the reader exited and unregisters the pane |
| ReplayGate.DaemonSinkAdapter.OpenGate | grove/grove-core/src/pty.rs:294-332 | opens, registers unless already exited, replays the held frames past the snapshot, then finishes an early exit |
| ReplayGate.ReplayStartsAtTheSnapshot | grove/grove-core/src/pty.rs:305-322 | trimming frame by frame drops exactly the bytes the snapshot holds, wherever the frames end |
| ReplayGate.HeldFrameIsTrimmed | grove/grove-core/src/pty.rs:305-322 | what any one held frame loses, malformed ones included |
| ReplayGate.OpeningAgain | grove/grove-core/src/pty.rs:295-303 | opening an open gate replays nothing and tears nothing down |
| ReplayGate.DrainedForwards | grove/grove-core/src/pty.rs:305-322 | draining forwards exactly those bytes and keeps the mirror at the end of the history |
| GateRuns.StepKeepsInv | grove/grove-core/src/pty.rs:294-373 | every step of `create` and of the stream task keeps the invariant |
| GateRuns.SinkSeesTheStreamFromTheSnapshot | grove/grove-core/src/pty.rs:294-355 | the sink has a prefix of the stream from the snapshot on, and at rest all of it, if and only if no late frame began below the snapshot |
| GateRuns.LateFrameBelowTheSnapshotIsRepeated | grove/grove-core/src/pty.rs:346-355 | a reachable state in which such a late frame was repeated |
| GateRuns.MirrorShowsTheEnd | grove/grove-core/src/pty.rs:120-138 | the mirror is the last `MAX_SCROLLBACK_BYTES` of the hydration text followed by what the sink got |
| GateRuns.RegisteredIffAlive | grove/grove-core/src/pty.rs:295-342 | once both tasks are done the pane is registered (once) if and only if no exit was delivered, and marked exited if and only if one was |
| GateRuns.ListeningIsNeverMarked | grove/grove-core/src/pty.rs:336-342 | a pane whose stream still listens is never marked exited |
| GateRuns.FailedCreateRegistersNothing | grove/grove-core/src/pty.rs:1098-1104 | a create whose request failed registered nothing and forwarded nothing |
| GateRuns.FailedReplyEndsCreate | grove/grove-core/src/pty.rs:1098-1104 | a failed reply changes nothing else and no step of `create` follows it |
| GateRuns.EarlyExitReplaysFirst | grove/grove-core/src/pty.rs:326-331 | an exit that overtook the reply is finished only after everything held was forwarded; the pane never appears |
| GateRuns.NeitherTaskIsStuck | grove/grove-core/src/pty.rs:294-373 | whatever the other does, `create` has a step until it has created or failed, and the stream task inside a frame or an exit |
| GateRuns.CreateStepsFinish | grove/grove-core/src/pty.rs:294-332 | every step of `create` leaves it fewer, so that it ends |
| GateRuns.StreamStepsFinish | grove/grove-core/src/pty.rs:346-373 | so does every step of the stream task inside a frame or an exit |
| GateRuns.OpenStepsAreOpenGate | grove/grove-core/src/pty.rs:294-332 | undisturbed, the steps from opening to the early teardown are `open_gate` as a whole |
| GateRuns.DataStepsAreOnData | grove/grove-core/src/pty.rs:346-355 | undisturbed, the steps of a frame are `on_data` as a whole |
| GateRuns.ExitStepsAreOnExit | grove/grove-core/src/pty.rs:357-373 | undisturbed, the steps of an exit are `on_exit` as a whole |
| ProcessTree.CollectProcessTreeCandidates | grove/grove-core/src/pty.rs:1976-2005 | terminates on any table and returns exactly the roots and their descendants |
| ProcessTree.ClosedSetHoldsAll | grove/grove-core/src/pty.rs:1991-2002 | a set with the roots that is closed under children misses no descendant |
| SelectivePatch.SelectKeepsOldSide | grove/grove-core/src/git_diff.rs:1052-1084 | for every selection the patch is written against the hunk's own old side |
| SelectivePatch.SelectEditsExactlyTheSelection | grove/grove-core/src/git_diff.rs:1052-1084 | its new side is that old side with exactly the selected removals and additions made |
| SelectivePatch.SelectEverything | grove/grove-core/src/git_diff.rs:1052-1084 | selecting every change gives the hunk itself |
| SelectivePatch.RemainingJoinsTheSides | grove/grove-core/src/git_diff.rs:370-381 | what is left to stage leads from the staged lines to the hunk's new side |
| SelectivePatch.StagingComposes | grove/grove-core/src/git_diff.rs:370-381 | staging one selection and then another of what is left is staging both at once |
| SelectivePatch.ReversedSwapsSides | grove/grove-core/src/git_diff.rs:346-366 | reading a patch in reverse swaps its sides |
| GitApply.LandsInPlaceIff | grove/grove-core/src/git_diff.rs:1085-1095 | with the full diff's new start in the header and the earlier hunks left out, git finds the place a hunk was made for exactly when its anchors allow it and no other occurrence of the old side is tried earlier |
| GitApply.NoDriftLandsInPlace | grove/grove-core/src/git_diff.rs:694-718 | a hunk whose new start names its place, or that is anchored there, lands at once |
| GitApply.DriftedHunkGoesAstray | grove/grove-core/src/git_diff.rs:1092-1095 | a hunk whose new start names another occurrence of its old side changes that one, and git reports success |
| GitApply.DriftedHunkChangesTheWrongBlock | grove/grove-core/src/git_diff.rs:335-344 | an input of that kind: the old side twice in a row, moved by an earlier hunk |
| GitApply.StageLinesIff | grove/grove-core/src/git_diff.rs:370-381 | when a selection lands in its hunk's place in a file of any number of hunks, and that it then changes nothing around it and edits its old side by the selection |
| GitApply.StageThenStageTheRest | grove/grove-core/src/git_diff.rs:370-381 | staging a selection and then the rest, each in place, reaches the file the whole hunk reaches |
| GitApply.ReverseLandsInPlaceIff | grove/grove-core/src/git_diff.rs:346-366 | when unstaging or discarding a hunk in any file finds its place, and that it then brings the old side back |
| GitApply.ReverseUndoesTheHunk | grove/grove-core/src/git_diff.rs:335-366 | a whole hunk that landed in place is undone by its reversed patch, which lands there exactly if a hunk for the new first line has nothing before it |
| PatchText.FormatPatchLine | grove/grove-core/src/git_diff.rs:1103-1109 | the prefix, the content, and a newline if none is there |
| PatchText.CollectLines | grove/grove-core/src/git_diff.rs:1047-1083 | the loop's lines are the selected script and its counters are the lengths of the two sides |
| PatchText.BuildSelectivePatch | grove/grove-core/src/git_diff.rs:1040-1101 | fails exactly when no change line is selected; otherwise prints the selected script under its counts |
| PatchText.BuildHunkPatch | grove/grove-core/src/git_diff.rs:694-718 | prints the whole hunk under its own header |
| PatchText.SelectingEverythingPrintsTheHunk | grove/grove-core/src/git_diff.rs:1040-1101 | a full selection of a hunk with a canonical header prints the very text of the whole-hunk patch |
| PatchText.SelectiveTextReadsBack | grove/grove-core/src/git_diff.rs:1085-1100 | a reader of the unified format going by the header's counts recovers both paths and exactly the signed lines, and stops at the end |
| PatchText.HunkTextReadsBack | grove/grove-core/src/git_diff.rs:694-718 | a whole hunk's text reads back as the two paths and the hunk under any header of git's, counts of one left out and section headings included |
| PatchText.SelectingEverythingReadsLikeTheHunk | grove/grove-core/src/git_diff.rs:1040-1101 | a full selection reads back like the whole hunk whatever the style of its header |
| PatchText.BodyReadsBack | grove/grove-core/src/git_diff.rs:1096-1098 | reading until the counts are used up gives back the printed lines and nothing of what follows |
| PatchText.NatReadsBack | grove/grove-core/src/git_diff.rs:1092-1095 | a printed number reads back as itself |
| ConflictRanges.FindBlockEnd | grove/grove-core/src/git_diff.rs:543-550 | the first closing marker and its trailing context, cut at the end of the file |
| ConflictRanges.BlockHoldsItsConflict | grove/grove-core/src/git_diff.rs:542-550 | a block holds exactly the three lines before its marker, the lines to its first closing marker, and the three after that |
| ConflictRanges.AddBlock | grove/grove-core/src/git_diff.rs:552-560 | a block that reaches the last range widens it, any other starts a new one |
| ConflictRanges.WithBlockAddsTheBlock | grove/grove-core/src/git_diff.rs:552-560 | merging covers exactly the lines covered before and the block's |
| ConflictRanges.WithBlockStaysSeparated | grove/grove-core/src/git_diff.rs:552-560 | merging keeps the ranges in bounds, non-empty and at least one line apart |
| ConflictRanges.ConflictedContextRanges | grove/grove-core/src/git_diff.rs:533-571 | terminates; the ranges are separated, cover exactly the scanned blocks and every opening marker, and are the whole file when there is none |
| ConflictRanges.MarkersAreScannedOrCovered | grove/grove-core/src/git_diff.rs:537-562 | an opening marker is passed over only inside the block of an earlier one |
| ConflictRanges.BuildConflictedHunks | grove/grove-core/src/git_diff.rs:502-531 | the hunks show exactly the ranges' source lines, under matching numbers, indices and header counts; every opening marker is shown |
| FileContentCache.CountIsTheNumberOfLines | grove/grove-core/src/git_diff.rs:1004-1022 | for every byte string the byte-level count is the number of decoded lines, as a 32-bit number |
| FileContentCache.DecodingKeepsLineCount | grove/grove-core/src/git_diff.rs:1017-1022 | lossy decoding neither makes nor loses a line break |
| FileContentCache.LinesReadBack | grove/grove-core/src/git_diff.rs:1017-1022 | newline-terminated lines are split back into themselves |
| FileContentCache.LineBreaks | grove/grove-core/src/git_diff.rs:1017-1022 | a line ends at its newline and loses one carriage return before it; an unterminated last line stays whole |
| FileContentCache.SliceHoldsTheNumberedLines | grove/grove-core/src/git_diff.rs:1024-1038 | a slice holds exactly the lines with the numbers asked for, as far as there are any |
| FileContentCache.SlicesTile | grove/grove-core/src/git_diff.rs:1024-1038 | adjacent slices join to one |
| FileContentCache.StoringKeepsConsistent | grove/grove-core/src/git_diff.rs:981-989 | storing a right entry keeps every entry right and the size within the limit |
| FileContentCache.StoringKeepsTheOthers | grove/grove-core/src/git_diff.rs:981-989 | every other entry stays, unless a full cache meets a new key |
| FileContentCache.Cache.Store | grove/grove-core/src/git_diff.rs:981-989 | clears a full cache for a new key, then inserts |
| FileContentCache.Cache.CountLinesForSource | grove/grove-core/src/git_diff.rs:931-946 | answers like an uncached count, fails only when a needed read fails, leaves consistent entries |
| FileContentCache.Cache.SliceLinesForSource | grove/grove-core/src/git_diff.rs:948-971 | answers like an uncached slice whichever query filled the entry, and re-reads an entry without lines |
| FileContentCache.CacheIsTransparent | grove/grove-core/src/git_diff.rs:931-989 | in every interleaving of queries each answer is the uncached one and the cache stays within its limit |
| FileContentCache.CacheIsTransparentFromTheStart | grove/grove-core/src/git_diff.rs:739-740 | the same from an empty cache |
| FileContentCache.AskHitsOrReads | grove/grove-core/src/git_diff.rs:931-960 | a query is answered without a read exactly when the cache holds what it asks for |
| FileContentCache.ReadsEndInReplies | grove/grove-core/src/git_diff.rs:937-970 | a finished read answers its query rightly and leaves an entry it can be answered from; a failed one is reported and stores nothing |
| FileContentCache.EachQueryIsAnsweredOnce | grove/grove-core/src/git_diff.rs:931-971 | in every interleaving each query is answered exactly once, or is still reading |
| StackedWorktrees.HasCycle | grove/grove-core/src/git_project.rs:944-956 | terminates and answers true exactly when the parent chain never ends |
| StackedWorktrees.NormalizeStackedParents | grove/grove-core/src/git_project.rs:958-991 | keeps exactly the children whose parent is known and another one and whose chain of known links reaches a root, each under its parent |
| StackedWorktrees.NormalizedIsAcyclic | grove/grove-core/src/git_project.rs:981-990 | every chain of the result ends |
| StackedWorktrees.NormalizedIsClosed | grove/grove-core/src/git_project.rs:981-990 | a kept child's parent is kept when it has a known parent |
| StackedWorktrees.NormalizedKeepsAncestors | grove/grove-core/src/git_project.rs:981-990 | a kept child keeps all its known ancestors |
| StackedWorktrees.NormalizingAgainChangesNothing | grove/grove-core/src/git_project.rs:958-991 | normalising is idempotent |
| StackedWorktrees.NormalizedIsIdentityIffForest | grove/grove-core/src/git_project.rs:958-991 | normalising changes nothing exactly on forests over existing worktrees |
| StackedWorktrees.LinkingKeepsForestIff | grove/grove-core/src/git_project.rs:1546-1549 | saving a link between existing worktrees keeps a forest exactly when it closes no circle |
| StackedWorktrees.DirectStackedChildren | grove/grove-core/src/git_project.rs:1520-1534 | the worktrees stacked directly on a parent, in listing order |
| WorktreeOps.FindBranchPrefixConflict | grove/grove-core/src/git_project.rs:2193-2202 | the first branch that is a path prefix of the name or the other way round; none exactly when there is none |
| WorktreeOps.ValidNameIff | grove/grove-core/src/git_project.rs:2090-2115 | the names let through, character by character |
| WorktreeOps.NestedIffPrefix | grove/grove-core/src/git_project.rs:1444-1450 | a worktree directory lies in another exactly when one name is a path prefix of the other |
| WorktreeOps.Project.Add | grove/grove-core/src/git_project.rs:1414-1514 | the plain add, command by command |
| WorktreeOps.Project.AddStacked | grove/grove-core/src/git_project.rs:1611-1707 | the stacked add: checks on the listing, metadata, then git, then rollback and cleanup on failure |
| WorktreeOps.Project.Remove | grove/grove-core/src/git_project.rs:1713-1765 | the removal: child guard, worktree, branch, metadata |
| WorktreeRuns.AddOkIff | grove/grove-core/src/git_project.rs:1414-1514 | a plain add succeeds exactly when nothing stands in its way, and adds an unlinked worktree |
| WorktreeRuns.FailedAdd | grove/grove-core/src/git_project.rs:1451-1505 | which error a failing plain add reports and exactly what it leaves behind |
| WorktreeRuns.AddForgetsAStaleLink | grove/grove-core/src/git_project.rs:1498-1505 | a successful plain add drops a link still saved under the name, and no other |
| WorktreeRuns.AddKeepsGoodIff | grove/grove-core/src/git_project.rs:1414-1505 | whatever fails, a plain add keeps the forest, the worktrees on their branches and the names prefix-free, unless it detaches |
| WorktreeRuns.StackOk | grove/grove-core/src/git_project.rs:1611-1707 | in any state, when a stacked add succeeds, and that it makes exactly the worktree, its branch and its link |
| WorktreeRuns.FailedStackReports | grove/grove-core/src/git_project.rs:1611-1707 | which error a failing stacked add reports: the first check that refuses it, having changed nothing, or git's failure |
| WorktreeRuns.StackKeepsGoodIff | grove/grove-core/src/git_project.rs:1639-1688 | a stacked add spoils the links exactly when a link outlives its worktree, closes a circle, or the cleanup orphans children |
| WorktreeRuns.FailedStackRestoresIff | grove/grove-core/src/git_project.rs:1553-1588 | in any state, when exactly a failed stacked add restores worktrees, branches and links, for every failure of rollback and cleanup and every listing |
| WorktreeRuns.CleanFailureRestoresIff | grove/grove-core/src/git_project.rs:1641-1688 | in any state, with rollback and cleanup working, it restores exactly when the checks let pass no name that a branch, worktree or link had |
| WorktreeRuns.HiddenMeansDisguised | grove/grove-core/src/git_project.rs:2180-2191 | only a branch git lists under a longer name can be hidden |
| WorktreeRuns.HiddenBranchIsDestroyed | grove/grove-core/src/git_project.rs:1578-1588 | such a branch and its worktree are removed by the cleanup |
| WorktreeRuns.DetachedWorktreeIsRemoved | grove/grove-core/src/git_project.rs:1578-1588 | a detached worktree of the name, made by an earlier add, is removed by the cleanup as well |
| WorktreeRuns.GuardSeesChildrenIff | grove/grove-core/src/git_project.rs:1722-1729 | the guard refuses exactly when the listing works and a child is linked |
| WorktreeRuns.RemoveOkIff | grove/grove-core/src/git_project.rs:1713-1765 | when a removal succeeds, and exactly what is gone afterwards |
| WorktreeRuns.FailedRemoval | grove/grove-core/src/git_project.rs:1722-1762 | what each failing removal leaves: everything as it was, or, when only the save fails, all but the worktree and its deletable branch |
| WorktreeRuns.RemoveKeepsGoodIff | grove/grove-core/src/git_project.rs:1722-1762 | a removal spoils the links exactly when a child went unlisted or the link could not be saved away |
| WorktreeRuns.StepKeepsPrefixFree | grove/grove-core/src/git_project.rs:1414-1765 | every step keeps the branch names free of path prefixes, whatever fails and whatever the listing hides |
| WorktreeRuns.StepKeepsBranchesIff | grove/grove-core/src/git_project.rs:1414-1765 | every step keeps each worktree on its branch, but for an add that detaches |
| WorktreeRuns.StepNestsIff | grove/grove-core/src/git_project.rs:1440-1480 | where nothing nests, a directory comes to lie in another exactly when the step makes a worktree below another's name |
| WorktreeRuns.StepKeepsGoodIff | grove/grove-core/src/git_project.rs:1414-1765 | the three operations together, by a condition on the step |
| WorktreeRuns.RunIsGoodIff | grove/grove-core/src/git_project.rs:1414-1765 | a run keeps forest, branches and names throughout exactly when no step spoils the state it meets |
| WorktreeRuns.RunsKeepPrefixFree | grove/grove-core/src/git_project.rs:2193-2202 | in every run, whatever fails, the branch names stay free of path-prefix pairs |
| WorktreeRuns.RunStaysOnBranchesIff | grove/grove-core/src/git_project.rs:1414-1765 | a run keeps every worktree on its branch throughout exactly when no step detaches one |
| WorktreeRuns.PlainRunsNeverDetach | grove/grove-core/src/git_project.rs:1440-1480 | none does when adds ask for no name git could list another branch under |
| WorktreeRuns.RunsNeverNestIff | grove/grove-core/src/git_project.rs:1414-1765 | from no worktrees on, whatever fails, no directory ever lies in another exactly when no step makes a worktree below another's name |
| WorktreeRuns.RunsNeverNest | grove/grove-core/src/git_project.rs:1414-1765 | in particular, when no add detaches: names prefix-free, worktrees on their branches, nothing nested |
| WorktreeRuns.DetachedWorktreeCanNest | grove/grove-core/src/git_project.rs:1451-1460 | a run in which a detached worktree ends up around another |
| WorktreeRuns.RunsKeepAForest | grove/grove-core/src/git_project.rs:1414-1765 | from no worktrees on, while saves work and listings show everything: a forest, and normalisation the identity |
| WorktreeRuns.UnlistedRemovalCanMakeACircle | grove/grove-core/src/git_project.rs:1013-1028 | a removal whose listing failed, then a stacked add, saves a parent circle |
| SourceRefresh.SourceRepo.CreateSourceSyncStash | grove/grove-core/src/git_project.rs:2273-2292 | stashes when there are local changes and names the entry on top of the stash list |
| SourceRefresh.SourceRepo.RestoreSourceSyncStash | grove/grove-core/src/git_project.rs:2294-2323 | apply, look the entry up, drop it; each may fail |
| SourceRefresh.SourceRepo.RefreshSourceRepo | grove/grove-core/src/git_project.rs:2325-2379 | the whole refresh with every command allowed to fail |
| SourceRefresh.LocalChangesSurvive | grove/grove-core/src/git_project.rs:2273-2379 | at every return the local changes are in the working tree or in the temporary entry |
| SourceRefresh.EarlierEntriesKeptIff | grove/grove-core/src/git_project.rs:2273-2323 | earlier stash entries survive in order, unless an older entry was mistaken for the temporary one and dropped |
| SourceRefresh.EarlierEntriesSafeIff | grove/grove-core/src/git_project.rs:2273-2292 | they survive every pattern of failures exactly when there is something to stash, nothing dirty, or no older entry |
| SourceRefresh.SuccessLeavesNoTraceIff | grove/grove-core/src/git_project.rs:2370-2378 | a successful refresh leaves changes and stash list as they were, except in that situation |
| SourceRefresh.SucceedsIff | grove/grove-core/src/git_project.rs:2325-2379 | the refresh succeeds exactly when every command it needs does |
| SourceRefresh.FailingCommandIsFirst | grove/grove-core/src/git_project.rs:2339-2368 | the command an error names is the first that failed |
| SourceRefresh.OutcomeWithoutStash | grove/grove-core/src/git_project.rs:2325-2379 | with nothing to stash the state stays, and the first failing command is reported |
| SourceRefresh.OutcomeWithStash | grove/grove-core/src/git_project.rs:2335-2379 | the end state and the report, the `restored` flag included, for every failure pattern once changes were stashed |
| SourceRefresh.OutcomeWhenConfused | grove/grove-core/src/git_project.rs:2273-2379 | the same when nothing could be stashed and an older entry may be taken for the new one |
| Missions.LoadedStore.CreateMission | grove/grove-core/src/mission.rs:294-328 | appends an empty mission under an id that neither a mission nor a directory has |
| Missions.LoadedStore.SetMissionCollapsed | grove/grove-core/src/mission.rs:482-493 | sets the flag of an existing mission |
| Missions.LoadedStore.AddProjectToMission | grove/grove-core/src/mission.rs:370-438 | adds a registered project to an existing mission that lacks it |
| Missions.LoadedStore.RemoveProjectFromMission | grove/grove-core/src/mission.rs:447-480 | takes the project out of its mission, with the two lookup errors |
| Missions.LoadedStore.ReconcileMissions | grove/grove-core/src/mission.rs:140-151 | drops unregistered projects and says whether there were any |
| Missions.EditKeepsDistinct | grove/grove-core/src/mission.rs:303-384 | every edit keeps mission ids, and project ids within a mission, distinct |
| Missions.EditKeepsOthers | grove/grove-core/src/mission.rs:294-547 | every edit leaves each registered project it is not meant to take out |
| Missions.EditSucceedsIff | grove/grove-core/src/mission.rs:294-547 | when each edit succeeds |
| Missions.RefusalsAreNamed | grove/grove-core/src/mission.rs:294-493 | which error a refused edit reports |
| Missions.CreateAppends | grove/grove-core/src/mission.rs:303-328 | a new mission comes last, empty and open, under its name and branch |
| Missions.EditChangesOnlyItsOwn | grove/grove-core/src/mission.rs:370-493 | adding, removing a project or collapsing changes that one field of that one mission, by exactly the project or flag |
| Missions.WithoutTheMission | grove/grove-core/src/mission.rs:495-547 | dropping a mission leaves the others as they are, in order |
| Missions.AddPutsIn | grove/grove-core/src/mission.rs:363-438 | a successful add was not there before, is registered, and is there after |
| Missions.TakenOutIsGone | grove/grove-core/src/mission.rs:476-547 | a successful removal leaves the project nowhere under that mission |
| Missions.ReconciledHasIff | grove/grove-core/src/mission.rs:140-151 | reconciling takes out exactly the unregistered projects |
| Missions.NothingToReconcileIff | grove/grove-core/src/mission.rs:140-151 | reconciling changes nothing exactly when every project is registered |
| Missions.ReconcilingAgainChangesNothing | grove/grove-core/src/mission.rs:140-151 | reconciling is idempotent |
| MissionRuns.StepKeepsInv | grove/grove-core/src/mission.rs:110-232 | every step of mutations and listings keeps the invariant, temporary file included |
| MissionRuns.OneWriterAtATime | grove/grove-core/src/mission.rs:12-27 | no two threads are inside a mutation at once |
| MissionRuns.LockIsNeverLeaked | grove/grove-core/src/mission.rs:12-27 | the lock is held only by a thread inside its mutation, which can always let go with its next step |
| MissionRuns.CommitsAreSerial | grove/grove-core/src/mission.rs:214-232 | the file is never torn and every commit edits the version right before it |
| MissionRuns.SuccessMeansCommitted | grove/grove-core/src/mission.rs:331-547 | a mutation that returned Ok has its edit in the committed history |
| MissionRuns.FailsIff | grove/grove-core/src/mission.rs:294-547 | a job fails, saving nothing and letting go of the lock, exactly when its mission is missing, its edit is refused for good, the work outside the store fails or a save does; a listing never fails |
| MissionRuns.DeletionGoesProjectByProject | grove/grove-core/src/mission.rs:513-546 | a deletion saves once per project, in their order, and then drops the mission |
| MissionRuns.RenamePublishes | grove/grove-core/src/mission.rs:214-232 | the rename publishes the version and leaves no temporary file; a failed one publishes nothing |
| MissionRuns.ListingsShowAVersion | grove/grove-core/src/mission.rs:110-138 | every listing whose read worked shows one committed version, reconciled |
| MissionRuns.ListingsAreCurrent | grove/grove-core/src/mission.rs:110-138 | that version is the one current at the step that ends the listing |
| MissionRuns.ListingsNeedNoLock | grove/grove-core/src/mission.rs:110-138 | a listing begins whoever holds the lock and answers without it exactly when every project it read is registered |
| MissionRuns.IdsStayDistinct | grove/grove-core/src/mission.rs:294-328 | ids stay distinct in the file in every run |
| MissionRuns.CommitKeepsIff | grove/grove-core/src/mission.rs:172-191 | a commit keeps a project it is not meant to take out exactly when its load could read the store |
| MissionRuns.FailedReadOverwrites | grove/grove-core/src/mission.rs:294-328 | a run, from any store, in which creating a mission after a failed read saves over everything |
| MissionRuns.AddedProjectStays | grove/grove-core/src/mission.rs:331-438 | in every interleaving a project whose add returned Ok stays until it or its mission is removed, while saving loads can read |
| MissionRuns.AddedProjectStaysIff | grove/grove-core/src/mission.rs:172-191 | and, unless added again, exactly while they can |
| LaunchChain.JoinedSplitsBack | grove/grove-agent/src/resolve.rs:152-179 | a path list that was joined is read back by the next launcher piece by piece, as text |
| LaunchChain.FindRealBinary | grove/grove-agent/src/resolve.rs:90-123 | the first binary on PATH that no exclusion applies to; none exactly when there is none |
| LaunchChain.ChoiceInPlainTerms | grove/grove-agent/src/resolve.rs:90-123 | said of the file system alone: the first directory that is neither grove's nor the launcher's own with an executable that is not the launcher, not marked and, below the cap, not skipped; none exactly without one |
| LaunchChain.CandidateIsInside | grove/grove-agent/src/resolve.rs:104-105 | the candidate is the tool inside the directory, with one slash between |
| LaunchChain.Process.Exec | grove/grove-agent/src/launch.rs:106-142 | depth, skip list and PATH as the chosen binary inherits them, and the file executed, which is the chosen one exactly if its path is UTF-8 |
| LaunchChain.PathUnchangedBelowTheCap | grove/grove-agent/src/resolve.rs:152-155 | below the cap the child keeps PATH, grove's directory included |
| LaunchChain.PathStrippedAtTheCap | grove/grove-agent/src/resolve.rs:152-165 | at the cap it keeps, in order, exactly the other directories, as they are exactly if all are UTF-8 |
| LaunchChain.KeptPieceByPiece | grove/grove-agent/src/resolve.rs:156-161 | stripping works directory by directory and so keeps their order |
| LaunchChain.KeptOne | grove/grove-agent/src/resolve.rs:156-161 | of one directory, it goes exactly when its canonical form is grove's |
| LaunchChain.SkipGrowsIff | grove/grove-agent/src/resolve.rs:169-179 | skips that are text are never forgotten; the chosen binary joins them exactly when its path has no colon and is UTF-8 |
| LaunchChain.SkipsAreListedOnce | grove/grove-agent/src/resolve.rs:169-176 | a skip is listed once, after the earlier ones, and only for the binary chosen |
| LaunchChain.ChainsAreShort | grove/grove-agent/src/resolve.rs:32-33 | a chain has at most `DEPTH_CAP + 1` launchers, one when it starts at the cap, if PATH is UTF-8; otherwise one alias can lengthen it once |
| LaunchChain.NoBinaryTwice | grove/grove-agent/src/resolve.rs:108-116 | below the cap no canonical binary the list can carry is chosen twice |
| LaunchChain.StaysAcceptableIff | grove/grove-agent/src/resolve.rs:108-116 | the directory a binary came from stays acceptable to the next launcher exactly when the list could not carry it |
| LaunchChain.NextChoiceRepeatsIff | grove/grove-agent/src/resolve.rs:169-179 | while the list is text the next launcher repeats the choice exactly when the canonical path holds a colon or is no UTF-8 |
| LaunchChain.ChildSkipIsText | grove/grove-agent/src/resolve.rs:169-179 | launchers keep the list text |
| LaunchChain.LastAtTheCapIff | grove/grove-agent/src/resolve.rs:152-165 | at the cap the chain goes on exactly through a directory that becomes grove's once its bytes are replaced |

## Left out

- The daemon, its socket and wire format: frames, the create reply and the exit are environment steps.
- Real time: deadlines, the flush window and elapsed times are free choices of each step.
- `write_all` is one step that succeeds or fails; a partial device write before an error is not modelled.
- Lock poisoning and its recovery.
- The wrap-around of the write-job counter at 2^64, and of line numbers in hunks at 2^32.
- Two concurrent `create` calls for one pane, whose existence check and insert are not one step.
- The sink is modelled by the bytes it receives in order, not by where one call ends and the next begins; the coalescer's chunks are modelled.
- Clearing a pane's scrollback while it runs, and the uses of the mirror when a snapshot is saved.
- Restore data handed to `create` besides the hydration text.
- The continuation-byte mask test is written as the range it selects, 128 to 191.
- Reverse application of a partial selection (`unstage_lines_impl`, `discard_lines_impl`): the builder aims at forward application, so reversal is proved for whole hunks.
- Files without a final newline, and whitespace settings of `git apply`; git's order of tries, its anchors at the file's two ends and its refusal of a patch without a change are modelled.
- ConflictRanges.ConflictedContextRanges: an opening marker inside the trailing context of an earlier conflict is covered but not scanned, so the end of its conflict need not be shown; the code does not promise it.
- Metadata behind a content-cache key: that a source key determines its bytes is an assumption, made explicit as the parameter `contents`.
- Git internals: each command has a small effect on branches, worktrees, parent links or the stash, and may fail. The name-conflict error reports the first branch in the model's branch order, not in git's.
- WorktreeRuns.RunsKeepAForest: is the sufficient case of working saves, rollbacks and full listings; WorktreeRuns.RunIsGoodIff says exactly when a run keeps it.
- Operations on one project running at the same time, and a user who switches branches inside a worktree.
- Which changes were staged: `git stash apply` runs without `--index`, so they come back unstaged.
- Fetching, remote branches, ancestry warnings, env-file syncing and the saved display order of worktrees.
- A configuration file torn by a failing write: a failed save leaves the old configuration.
- Mission directories and worktrees, and changes to the set of registered projects while missions are edited or listed.
- The random mission id is a candidate the environment offers; a taken one is refused and drawn again.
- LaunchChain.ChainsAreShort: assumes that grove's own directory is the only place where the tool's name leads to a launcher, that the environment is inherited unchanged, that the file system does not change, and that the empty path has no canonical form (a path whose bytes are replaced on the way is covered).
- Signals, argument passing and the claim of a session in the launcher.
- Preferences, hooks, file browser, cookies, themes, IDE integration, upgrade and messaging tools, and the user interface: mostly I/O or easier list and string facts.
