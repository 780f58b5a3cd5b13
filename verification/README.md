# Verification of the agent kernel and its browser client

The repository is a TypeScript agent kernel with its browser client. This project models its stateful protocols
and proves what they promise over every input, every run or every interleaving. Each component is a module of its
own file:

- **Runs and delegation** (`Events`, `Settlement`, `HarnessRuntime`, `Previews`, `Delegation`, `Kernel`): a run is a
  tree of delegated runs that the kernel flattens onto one event stream; settlement folds the stream into one result,
  and the preview registry into one entry of its session.
- **Rendering** (`Translator`, `Rendering`, `Conservation`, `SettledText`): the browser rebuilds the nesting from the
  untagged stream with a stack. A reference renderer that recurses over the tree says what must be shown.
- **The event-stream codec and the resuming reader** (`Text`, `EventStream`, `EventCodec`, `ChatStream`). The wire
  format is the LF-only subset of Server-sent events, section 9.2 of the WHATWG HTML Living Standard. `EndToEnd` puts
  the path together: a message's run tree, flattened, printed between the transport's own frames, cut into any
  chunks, read and translated, is shown as the tree is rendered.
- **Workspace handles** (`Identity`, `Pool`, `Sessions`, `Lifecycle`, `Handles`, `Warming`, `Schedule`): the warm
  pool and the session manager as a step system in which every `await` is an interleaving point. `Schedule` drives
  the pool and session objects through any schedule and shows that they are where the step system says.
- **The snapshot store** (`Paths`, `SnapshotHash`, `Snapshot`, `SnapshotStore`), over a map-shaped file system.
- **Shell quoting** (`Quoting`), against a reader of section 2.2 (Quoting) of the POSIX.1-2017 Shell Command
  Language.
- **Folds and queues** (`Transcript`, `ToolQueue`, `Inspector`, `SessionMemory`).

Objects that the source updates in place are classes whose methods are tied to functions on their state; code made
of expressions is functions and lemmas. `dafny verify dfyconfig.toml` checks everything.

## What the code does not do

Each of these is stated in the model, with the condition under which the code does what one would expect:

- Overlapping `ensureWorkspace` calls on one session can leave a handle in no place at all (`OverlapOrphans`). A run
  loses a handle exactly when some stretch of it overwrites or deletes an entry whose handle nobody has destroyed
  (`LostExactlyByDrops`, `RunLosesExactlyByDrops`).
- A `destroyAll` during a provision makes the in-flight counter wrong (`CountsStep`), and every run that ends in one can
  go on to more warm handles than any `ensure` asked for (`ForgettingOvershoots`). From any point of any run the pool
  keeps to a bound whatever follows exactly when the counter is exact there and no more are warm or on the way
  (`BoundExactly`).
- Pool keys tell identities apart when owner and environment contain no `::` and do not end in `:`, the profile
  contains no `::`, and neither owner nor profile is `-` (`KeysIdentify`). Every identity that does not meet this shares
  its key with a different one (`UncleanCollides`), whose workspace it can be given (`UncleanRequestAdoptsAnothers`).
  Environment names are any strings here, as the registry takes any. Sources are told apart when no revision contains
  an `@` (`SourcesIdentify`); every revision that does shares its fingerprint with another address (`AtCollides`).
- The settled text of a run also folds in its children's text, which the live view hides. A run settles with the last
  final text that anyone says (`LastFinalIsLastWord`). If that is the root, view and result agree exactly when the root
  streams nothing more (`SettledWhenRootSpeaksLast`); if it is a child, its text is settled though nothing of it is
  displayed (`SettledWhenChildSpeaksLast`, `ChildWordIsHidden`); if nobody says one, they agree exactly when every
  executed child streams nothing (`SettledWhenNobodySpeaks`). An empty last word makes everything streamed the result
  (`SettledWhenLastWordIsEmpty`), while the view keeps the last word of the root that was not empty
  (`DisplayedWithoutWords`, `DisplayedAfterEarlierWord`).
- A stored tool differs from what was last shown of it exactly when it has an empty name and was answered: it is then
  shown as `tool` (`CallIsStoredAsShown`, `StoredToolsAreShown`).
- Between two archives without a NUL in a name or content, equal hash texts mean the same files (`AddressIgnoresOrder`).
  But only NULs keep names and contents apart in the text, so some other archive has the same one exactly when an
  archive has two files or more, or a NUL (`NulCollides`): two neighbours in name order can be merged into one file
  (`NeighboursMerge`).
- A poll of the inspector panel that finds records in the ring leaves some out exactly when more than 800 arrived since
  the cursor, or a clearing dropped some of them (`PollTracks`). A page reload is noticed by the first head poll that finds the panel
  disconnected or the page's numbers behind the cursor, and by nothing else; the list is then right again
  (`ReloadIsNoticed`, `OnlyThen`). Until then the panel takes the new page's records for a continuation: its list mixes
  both and misses the first ones (`ReloadIsUnnoticed`), unless it is emptied when the page's numbers have reached the
  cursor (`ClearSettles`) or has taken in 4000 records since (`PanelIsExact`).
- Two owners can share a session memory key exactly when one of them, followed by a colon, begins the other
  (`OwnersCollide`). A key remembers the last six turns filed under it (`KeyRemembersLastSix`). Where run ids tell the
  updates apart, these are the session's own last six exactly when each of the last six updates filed under the key is
  the session's own (`RemembersLastSix`), as in every history in which no other session uses the key
  (`OwnKeyRemembers`).
- The memory summary has one line a turn exactly when no error code contains a line break (`SummaryLines`).

The doc comment of `openChatEventStream` speaks of at most five reconnection attempts; the code allows six opens in
a row to fail, since it gives up only when the counter passes five. Its last give-up branch
(apps/next/src/core/chat.ts:323) is never taken, as `OpenChatEventStream` shows: the counter was set to zero when the
body was opened.

## Model

| member | source | states |
|---|---|---|
| Text.IndexOfFinds | apps/next/src/core/kernel.ts:149 | the search for a break finds the leftmost one exactly when there is one |
| Text.SplitJoin | apps/next/src/core/kernel.ts:154 | splitting what was joined with the separator gives the parts back |
| Text.SpacesByCodePoint | apps/next/src/core/kernel.ts:155-156 | what trimming takes for white space is exactly the white space and line terminators of ECMAScript |
| EventStream.FramesOfAppend | apps/next/src/core/kernel.ts:143-169 | on any input, reading a text in two pieces finds the frames, and leaves the rest, of reading it at once |
| EventStream.ReadBlock | apps/next/src/core/kernel.ts:152-163 | the line loop reads a block as the block grammar does: last event name, all data lines joined, nothing without data |
| EventStream.StreamKernelMessage | apps/next/src/core/kernel.ts:141-169 | for any chunks the frames and the final buffer depend only on the concatenation of the chunks |
| EventStream.ParsePrinted | src/server/sse.ts:7-9 | one printed event parses back to its name and JSON text |
| EventStream.NamedBlockParses | apps/next/src/core/kernel.ts:152-163 | a text of any tidy lines is read back from one data line for each of them, under its event name, or `message` without one |
| EventStream.NothingWithoutData | apps/next/src/core/kernel.ts:158 | comments, blank lines and a name make no frame without data |
| EventStream.FieldLinesRead | apps/next/src/core/kernel.ts:154-157 | an event line gives the name and a data line one line of data, trimmed, whatever else the block has |
| EventStream.RoundTrip | src/server/sse.ts:7-9 | the frames of a printed list of events are the list, in order, with nothing left over |
| EventStream.ReadPrinted | apps/next/src/core/kernel.ts:141-169 | however printed events are cut into chunks, the read loop delivers exactly them and ends with an empty buffer |
| EventCodec.ReadEvents | src/server/http.ts:507-533 | every list of wire events, engine events and the transport's own, printed and cut anywhere, is read back event for event |
| EventCodec.NamesAreKnown | apps/next/src/core/kernelEvents.ts:48-62 | every name that the kernel writes is one that the browser knows |
| EventCodec.NamesTellApart | apps/next/src/core/kernelEvents.ts:18-44 | events of two kinds never share a name, nor with a frame of the transport |
| ChatStream.ReadFrame | apps/next/src/core/chat.ts:209-235 | the line loop reads an id, name and data as the frame grammar does; a block with neither data nor name is dropped |
| ChatStream.ReadSse | apps/next/src/core/chat.ts:237-269 | the frames delivered from any chunks are those of the concatenation up to the first `close`, and the result says whether there was one |
| ChatStream.UntilCloseMeans | apps/next/src/core/chat.ts:255-259 | they are a front of the frames with no `close` but perhaps at its end, and all of them if none is one |
| ChatStream.OpenChatEventStream | apps/next/src/core/chat.ts:278-326 | the loop over any replies ends with the frames, cursor, attempts and outcome of the reply-by-reply specification |
| ChatStream.AnswerByStatus | apps/next/src/core/chat.ts:299-308 | wherever the loop has got to, a status of 400 to 499 rejects, a success with a body is read, and anything else leaves frames and cursor alone and ends the loop exactly when five attempts are spent |
| ChatStream.StreamByClose | apps/next/src/core/chat.ts:311-321 | a stream delivers its frames up to the first `close`, and ends the loop exactly when it has one |
| ChatStream.PrintedEntryParses | apps/next/src/core/chat.ts:209-235 | a log entry printed with its id parses back to the entry |
| ChatStream.NamedBlockReads | apps/next/src/core/chat.ts:209-235 | a text of any tidy lines is read back from one data line for each of them, without an id, under its event name, or `message` without one |
| ChatStream.CommentsAreDropped | apps/next/src/core/chat.ts:214-225 | comments and blank lines alone are no frame |
| ChatStream.NameAlone | apps/next/src/core/chat.ts:225-234 | a name alone is a frame without data |
| ChatStream.IdLineReads | apps/next/src/core/chat.ts:216-218 | an id line sets the id to the number it spells, an empty one included, and leaves it if it spells none |
| ChatStream.ReceivedIsPrefix | apps/next/src/core/chat.ts:245-269 | from an honest answer, cut at any character, a connection receives a prefix of the log above its cursor |
| ChatStream.ExactlyOnce | apps/next/src/core/chat.ts:278-326 | over any number of cut connections, the frames delivered so far followed by the log above the cursor are the log above `since`: nothing twice, skipped or out of order |
| ChatStream.CompleteAnswerEnds | apps/next/src/core/chat.ts:311-321 | an answer received in full, up to its `close`, ends the loop with the whole log delivered |
| ChatStream.GivesUpAtLimit | apps/next/src/core/chat.ts:284-309 | the loop gives up exactly when the attempts spent pass the limit, never before |
| ChatStream.AtMostSixFailuresInARow | apps/next/src/core/chat.ts:284-309 | nowhere in a run do more than six opens fail one after the other |
| SettlementModel.Settlement.constructor | src/kernel/settlement.ts:23-35 | a new settlement owes the result of the empty stream |
| SettlementModel.Settlement.Observe | src/kernel/settlement.ts:39-56 | observing an event extends the stream, and returns the result owed for it exactly when the event is a terminal |
| SettlementModel.Settlement.Settle | src/kernel/settlement.ts:61-68 | forced settlement is a terminal that only counts when there was none |
| SettlementModel.Settlement.Snapshot | src/kernel/settlement.ts:74-85 | the snapshot is the result owed for the observed stream: first terminal, last final text or else the chunks, token sums, three and fifteen millionths a token, and `done` while nothing has settled |
| SettlementModel.FirstTerminalWins | src/kernel/settlement.ts:39-68 | nothing emitted after a terminal changes the cause or the error |
| HarnessRuntime.Settler.Settle | src/harnesses/_shared/harnessRuntime.ts:25-37 | however often it is called, at most one terminal is emitted: that of the first call |
| HarnessRuntime.UsageMeter.ObserveCumulative | src/harnesses/_shared/harnessRuntime.ts:88-94 | the tally becomes the larger of tally and reading, and the delta is its growth |
| HarnessRuntime.MeterReadings | src/harnesses/_shared/harnessRuntime.ts:80-102 | the deltas of any cumulative readings add up to exactly their running maximum, and none is negative |
| HarnessRuntime.RunningMaxIsMax | src/harnesses/_shared/harnessRuntime.ts:88-94 | the running maximum is one of the readings or zero, and none is above it |
| Previews.PreviewRegistry.Set | src/kernel/preview.ts:20-25 | a live address without a snapshot keeps the snapshot on record |
| Previews.PreviewRegistry.SetSnapshot | src/kernel/preview.ts:29-32 | a snapshot leaves the live address alone |
| Previews.EntryIsLast | src/kernel/preview.ts:20-33 | a new session's entry is the last live address and the last snapshot of its stream, whichever came later, and there is none if the stream has neither |
| Previews.SnapshotStays | src/kernel/preview.ts:20-25 | a snapshot on record is only ever replaced by a later one |
| Previews.BrowserAgrees | apps/next/src/core/kernelTranslator.ts:144-157 | the browser last heard of the live address on record exactly when that is not empty, and was sent to the durable preview exactly when a snapshot is on record |
| Delegation.Pump.Emit | src/kernel/orchestrator.ts:62-75 | an emitted event is noted in the session's preview entry, observed and forwarded |
| Delegation.Finish | src/kernel/orchestrator.ts:147-170 | a run whose harness threw or returned without a terminal gets exactly the one it is owed; a settled run gets none |
| Delegation.EmittedInPlace | src/kernel/orchestrator.ts:62-75 | whatever a harness emits by itself reaches the sink in its place, after all that it did before |
| Delegation.ChildInPlace | src/kernel/index.ts:177-212 | so does, under the cap, all that a child's sink lets through, between its two brackets |
| Delegation.ForwardedKeeps | src/kernel/index.ts:180-183 | a child's sink lets through every event but terminals, as often as it comes |
| Delegation.ForwardedOfAppend | src/kernel/index.ts:180-183 | and in order |
| Delegation.RunDelegate | src/kernel/index.ts:151-215 | below the cap a delegation forwards its child's bracketed stream without terminals and returns the child's verdict and settled text, or `delegate_failed` for a child that cannot start; at the cap it refuses with `max_delegation_depth` |
| Delegation.Run | src/kernel/orchestrator.ts:57-173 | the sink of a run sees the stream specified for its tree, the result is the one owed for that stream, its session's preview is what that stream makes of it, and no preview is touched but those of its session and of sessions made under it; a run whose harness is not reached has one event, a failure with the reason |
| Delegation.BracketedHasNoTerminal | src/kernel/index.ts:177-215 | no child terminal reaches its parent's stream |
| Delegation.OneTerminal | src/kernel/orchestrator.ts:57-173 | on every exit path a started run's stream has exactly one terminal, with the cause and error it is owed |
| Delegation.RunVerdict | src/kernel/orchestrator.ts:57-173 | the result's cause and error are that terminal's |
| Delegation.RefusedRun | src/kernel/orchestrator.ts:86-146 | a run refused for its topology, or for an unknown capability, has one event, a failure with the code and message of the refusal, and that result with nothing spent |
| Delegation.SettledRunEnds | src/kernel/orchestrator.ts:57-173 | a run whose harness settles ends with the cause and error of the first time it does |
| Delegation.UnsettledRunEnds | src/kernel/orchestrator.ts:147-172 | one that does not ends as `harness_threw` if the harness throws, and otherwise as cancelled or done, by whether it was aborted |
| Translator.KernelTranslator.ToolUseFrame | apps/next/src/core/kernelTranslator.ts:65-84 | a tool frame is tagged with the innermost open child and the number of open children |
| Translator.KernelTranslator.Translate | apps/next/src/core/kernelTranslator.ts:108-218 | each wire event gives the specified frames and state; a `settled` frame completes only if no terminal was seen |
| Translator.EndingIsReported | apps/next/src/core/kernelTranslator.ts:98-106 | a terminal, and `settled` where none was seen, show a success exactly for `done`, a cancellation exactly for `cancelled`, and otherwise an error with its message and code, or `Run failed` |
| Translator.ToolsAreShown | apps/next/src/core/kernelTranslator.ts:128-142 | a call is shown running with its name and arguments, a result with its outcome, its output and the name called or `tool`, both under the innermost open child with the number of open ones |
| Translator.BoundariesAreShown | apps/next/src/core/kernelTranslator.ts:164-180 | the start of a child is shown running, and its end as an error exactly if it failed |
| Translator.AllFramesOfAppend | apps/next/src/core/kernelTranslator.ts:108-218 | translating a stream in two parts is translating it at once |
| Translator.SpliceRemoves | apps/next/src/core/kernelTranslator.ts:173-180 | settling a child removes its entry wherever it is in the stack and keeps the order of the others |
| Translator.StackIsOpenChildren | apps/next/src/core/kernelTranslator.ts:164-180 | with distinct child ids, for any interleaving of concurrent delegations, the stack is the children started and not yet settled, in start order |
| Translator.TextShownWhenNoneOpen | apps/next/src/core/kernelTranslator.ts:116-126 | text is shown exactly when no child is open |
| Translator.UsageIsTotal | apps/next/src/core/kernelTranslator.ts:159-162 | the running totals shown are settlement's sums on every prefix |
| Rendering.RunRenders | src/kernel/index.ts:150-217 | a subtree's flattened stream, arriving inside any open children, is shown as the recursive renderer renders it, and the stack is restored after it |
| Rendering.TreeRenders | src/kernel/index.ts:150-217 | feeding a run tree's flattened stream to the translator gives exactly the frames of the recursive render of the tree |
| Conservation.ShownDepth | src/kernel/index.ts:34 | no frame of a run is nested deeper than two |
| Conservation.OneBoundaryPairPerChild | src/kernel/index.ts:177-212 | every executed delegation is shown with one running and one final boundary, as often as its id is delegated |
| Conservation.OnlyRootTextIsVisible | apps/next/src/core/kernelTranslator.ts:116-120 | the streamed text shown for a tree is the root harness's own |
| Conservation.UsageIsConserved | src/kernel/settlement.ts:39-85 | the root's tokens and cost are the sums over every executed run of the tree of what each reported itself, and the translator's totals agree |
| SettledText.OnlyRootIsDisplayed | apps/next/src/core/kernelTranslator.ts:116-126 | the text on display, with messages replacing what was streamed, is what the root harness says by itself, whatever its children say |
| SettledText.LastFinalIsLastWord | src/kernel/settlement.ts:39-56 | a run's last final text, at any depth, is that of the last step that says one: its own, or in turn that of the child it delegates to; none if no run that takes place says one |
| SettledText.RunFinal | src/kernel/index.ts:180-183 | a flattened stream has a final text exactly when the run or one that it executes emits one |
| SettledText.RunChunks | src/kernel/index.ts:180-183 | the streamed text of a flattened run is as long as that of the run and of every run it executes together, and its own if they stream nothing |
| SettledText.SettledWhenNobodySpeaks | src/kernel/settlement.ts:39-85 | without final texts a run settles with all streamed text, which is what is displayed exactly when every executed child streams nothing |
| SettledText.SettledWhenRootSpeaksLast | src/kernel/settlement.ts:39-85 | with a nonempty last word of the root a run settles with it, which is what is displayed exactly when the root streams nothing after it |
| SettledText.SettledWhenChildSpeaksLast | src/kernel/settlement.ts:39-85 | with a nonempty last word of a child a run settles with it |
| SettledText.ChildWordIsHidden | apps/next/src/core/kernelTranslator.ts:116-126 | and the display is what it would be if the child said nothing |
| SettledText.SettledWhenLastWordIsEmpty | src/kernel/settlement.ts:74-85 | with an empty last word a run settles with all streamed text, which is its own exactly when every executed child streams nothing |
| SettledText.DisplayedWithoutWords | apps/next/src/features/chat/adapters/streamReducer.ts:346-354 | if the root has said no other word either, the display is what it streamed, which is the settled text exactly when every executed child streams nothing |
| SettledText.DisplayedAfterEarlierWord | apps/next/src/features/chat/adapters/streamReducer.ts:346-354 | otherwise the display is its last word that is not empty and what it streams after; over silent children that is the settled text exactly when the word repeats what was streamed before it |
| SettledText.ChildTextSettlesIntoRoot | src/kernel/index.ts:180-183 | a silent root settles with the final text of its only child, and displays nothing |
| KernelModel.Admission.Admit | src/kernel/admission.ts:15-21 | a session is admitted exactly when it is not active |
| KernelModel.Admission.Release | src/kernel/admission.ts:23-25 | a released session is no longer active |
| KernelModel.Admitting | src/kernel/admission.ts:12-26 | the lock, driven through any traffic of messages and ends, admits and refuses as the traffic says |
| KernelModel.NoOverlap | src/kernel/index.ts:233-310 | in every traffic, no two admitted runs of a session are under way together, and a session is locked exactly while one of its runs is on |
| KernelModel.AdmittedExactly | src/kernel/index.ts:233-256 | in every traffic, a message is admitted exactly when no admitted run of its session is still on |
| KernelModel.EndFrees | src/kernel/index.ts:306-308 | the end of a run frees its session and no other |
| KernelModel.RunMessage | src/kernel/index.ts:222-312 | the sink sees a lone refusal or the full wire of the run, the result is the one owed for what the sink saw and a failure unless the harness was reached, the session's preview is what that makes of it, and the session is released |
| KernelModel.EntryResult | src/kernel/index.ts:262-309 | every admitted message, failed provisioning included, has one terminal on its wire, and its result is settled on that wire |
| KernelModel.UnreachedFails | src/kernel/index.ts:288-305 | a message whose harness is not reached, for want of a workspace or a harness or by a refusal, has one terminal and a result, both a failure with the reason |
| KernelModel.StartedLines | src/kernel/index.ts:262-287 | the wire of a message that starts, line by line; its last line is an error exactly if its result is |
| KernelModel.UnstartedLines | src/kernel/index.ts:288-296 | the wire of one that does not |
| KernelModel.StreamCompletions | apps/next/src/core/kernelTranslator.ts:187-190 | each terminal completes the run in the browser once, and nothing else does |
| KernelModel.ExactlyOneCompletion | apps/next/src/core/kernelTranslator.ts:187-209 | a wire with one terminal, followed by its `settled` frame, completes exactly once, with the result's cause and error |
| KernelModel.EntryCompletes | src/kernel/index.ts:222-312 | the same end to end, for every admitted message |
| KernelModel.CompletionReports | apps/next/src/core/kernelTranslator.ts:187-210 | the one frame that completes a wire with one terminal says how the result ended |
| KernelModel.BackstopReports | apps/next/src/core/kernelTranslator.ts:192-210 | a wire without a terminal is completed by `settled`, as its result says |
| KernelModel.EntryReports | src/kernel/index.ts:222-312 | every admitted message completes in the browser once, as its result ended |
| EndToEnd.ShowStream | apps/next/src/core/kernel.ts:141-169 | a printed wire, transport frames and unknown names included, cut into any chunks, read and translated, is shown as its events translate |
| EndToEnd.EntryRenders | src/kernel/index.ts:262-309 | the whole wire of a message, log lines included, is shown as its run tree is rendered |
| EndToEnd.ShowMessage | src/server/http.ts:507-533 | all that the transport writes for an admitted message, with `run_started` anywhere in it and `settled` at the end, printed, cut anywhere, read and translated, shows the rendering of its run tree with the start among it and one closing total; written before the run's first event, the start comes first |
| Identity.KeysIdentify | src/kernel/prewarmPool.ts:52-55 | between clean identities, keys are equal exactly when owner, environment, profile and workspace are |
| Identity.SameProject | src/kernel/prewarmPool.ts:52-69 | a project is never mistaken for another project or for a source fingerprint |
| Identity.SourcesIdentify | src/kernel/prewarmPool.ts:56-70 | sources whose revisions have no `@` share a fingerprint exactly when they are the same repository and revision, the same cache, or as many files |
| Identity.AtCollides | src/kernel/prewarmPool.ts:61 | every revision with an `@` shares its fingerprint with a different address |
| Identity.UncleanOwnerCollides | src/kernel/prewarmPool.ts:54 | every owner that is `-`, contains `::` or ends in `:` shares its key with another owner |
| Identity.UncleanEnvironmentCollides | src/kernel/prewarmPool.ts:54 | every environment that contains `::` or ends in `:` shares its key with another environment |
| Identity.UncleanProfileCollides | src/kernel/prewarmPool.ts:54 | every profile that is `-` or contains `::` shares its key with another profile |
| Identity.UncleanCollides | src/kernel/prewarmPool.ts:52-55 | every identity that is not clean shares its key with a different identity, so the condition of `KeysIdentify` is exact |
| Pool.PrewarmPool.Ensure | src/kernel/prewarmPool.ts:91-98 | the shortfall is started, counted in flight (or failed at once) and reported |
| Pool.PrewarmPool.ProvisionEnds | src/kernel/prewarmPool.ts:100-124 | a provision that ends lists its handle and arms its timer, if it has one, and gives up its count |
| Pool.PrewarmPool.Claim | src/kernel/prewarmPool.ts:128-136 | the oldest ready handle of the key is handed over, unlisted and its timer disarmed |
| Pool.FirstComeFirstServed | src/kernel/prewarmPool.ts:112-133 | handles are claimed in the order in which their provisions ended, after those that were waiting before |
| Pool.PrewarmPool.Evict | src/kernel/prewarmPool.ts:153-164 | a fired timer unlists its handle and destroys it |
| Pool.PrewarmPool.DestroyAll | src/kernel/prewarmPool.ts:167-177 | everything listed is destroyed and disarmed, and the counters are forgotten |
| Pool.UnlistKeeps | src/kernel/prewarmPool.ts:128-164 | taking one handle out of its list and disarming it keeps timers and lists in agreement |
| Pool.StockKeeps | src/kernel/prewarmPool.ts:112-117 | so does listing a new handle |
| Pool.EvictKeeps | src/kernel/prewarmPool.ts:153-164 | so does the reaper |
| Pool.DrainKeeps | src/kernel/prewarmPool.ts:167-177 | so does `destroyAll`, which disarms every timer |
| Sessions.SessionManager.Start | src/kernel/session.ts:80-104 | the first stretch refuses exactly a caller who names another owner than the entry does, hands over the entry only for the same environment and profile, and otherwise destroys it or adopts |
| Sessions.SessionManager.Adopt | src/kernel/session.ts:90-112 | after the old workspace is gone the entry is dropped and a warm handle adopted if there is one |
| Sessions.SessionManager.Complete | src/kernel/session.ts:113-119 | an own provision becomes the session's entry |
| Sessions.SessionManager.Get | src/kernel/session.ts:124-129 | a lookup refuses exactly a caller who names another owner than the entry does, and gives anyone else the handle, or nothing |
| Sessions.SessionManager.End | src/kernel/session.ts:132-138 | ending refuses exactly such a caller, and otherwise removes the entry and destroys its handle |
| Lifecycle.StepInv | src/kernel/prewarmPool.ts:91-177 | every stretch of code keeps: timers are the listed handles, warm handles are alive and in no session, no two sessions share a handle; destroyed handles stay destroyed |
| Lifecycle.RunInv | src/kernel/session.ts:80-139 | so does every run, overlapping calls included |
| Lifecycle.ProvisionEndsCall | src/kernel/session.ts:112-119 | a provision that fails ends its call and changes nothing else; one that succeeds ends it and makes the session's entry as it was asked for |
| Handles.ReaperSparesSessions | src/kernel/prewarmPool.ts:112-164 | in every run a timer is armed exactly for the listed handles, so the reaper never destroys a claimed one |
| Handles.NoSharing | src/kernel/session.ts:80-139 | in every run no two sessions hold the same handle |
| Handles.LostExactlyByDrops | src/kernel/session.ts:87-119 | a stretch of code loses a made handle exactly when it drops a live entry |
| Handles.RunLosesExactlyByDrops | src/kernel/session.ts:80-139 | over a run, overlapping calls included, every made handle is in the pool, a session or destroyed exactly when no stretch dropped a live entry |
| Handles.ExactlyOnePlace | src/kernel/session.ts:80-139 | when calls on a session do not overlap, every made handle is in exactly one of the pool, one session, or destroyed |
| Handles.OverlapOrphans | src/kernel/session.ts:80-119 | two overlapping first calls leave a made handle in no place |
| Warming.CountsStep | src/kernel/prewarmPool.ts:91-177 | a stretch of code keeps the in-flight counter exact unless it is a `destroyAll` during a provision, and only `ensure` commits to more handles |
| Warming.PoolBound | src/kernel/prewarmPool.ts:91-98 | without such a `destroyAll`, the counter equals the unfinished provisions, and ready plus in flight never exceed the most an `ensure` asked for |
| Warming.BoundExactly | src/kernel/prewarmPool.ts:91-177 | from any point of any run, everything that asks for no more and forgets nothing keeps to the bound exactly when the counter is exact there and no more are warm or on the way |
| Warming.ForgettingOvershoots | src/kernel/prewarmPool.ts:167-170 | every run that ends in a `destroyAll` during a provision can go on past any bound without asking for more |
| Warming.ForgottenProvisionOvershoots | src/kernel/prewarmPool.ts:167-170 | for every identity there is a run that warms two handles though each `ensure` asked for one |
| Warming.SharedKey | src/kernel/session.ts:104-112 | in every run a session's handle was made under the key of its own request |
| Warming.AdoptionMatchesIdentity | src/kernel/session.ts:104-112 | over every run with clean identities, a session's handle was made for its own owner, environment, profile and project or source |
| Warming.GivenAsAsked | src/kernel/session.ts:80-112 | over every run with clean identities, a handle given at once was made for the environment and profile asked for, and not for another named owner |
| Warming.AdoptedAsAsked | src/kernel/session.ts:104-112 | a new session that adopts a handle gets one made for its owner, and for its project or, without one, its source or an empty one |
| Warming.LookedUpIsNotAnothers | src/kernel/session.ts:124-129 | over every such run, no lookup hands a caller a handle made for another named owner |
| Warming.StrangersChangeNothing | src/kernel/session.ts:145-149 | where caller and entry name different owners, `ensureWorkspace`, `get` and `end` refuse and change nothing |
| Warming.OthersAreServed | src/kernel/session.ts:145-149 | where they do not, none of them refuses |
| Warming.UncleanRequestAdoptsAnothers | src/kernel/session.ts:104-112 | for every request whose identity is not clean, there is a run in which it adopts a handle made for a different identity |
| Schedule.Replay | src/kernel/session.ts:69-140 | the pool and session objects, run through any schedule, are in the state of the step system |
| Paths.NormalizeAbsolute | src/kernel/previewSnapshot.ts:165 | a normalised absolute path spells exactly the components that the file system sees |
| Paths.JoinIsUnder | src/kernel/previewSnapshot.ts:150 | joining a relative path to a directory leads where walking its components does |
| Paths.NormalLeadsThere | src/kernel/previewSnapshot.ts:150 | a relative path leads where its normal form does, from any directory |
| Paths.PrefixIsContainment | src/kernel/previewSnapshot.ts:166 | the `startsWith` test on path strings means lying in the directory |
| SnapshotHash.HashFiles | src/kernel/previewSnapshot.ts:105-114 | the id is the shortened digest of the sorted files' text |
| SnapshotHash.IdIsFirstDigits | src/kernel/previewSnapshot.ts:113 | of a digest that is long enough, the id is the first 24 digits |
| SnapshotHash.SortSorts | src/kernel/previewSnapshot.ts:107 | sorting orders by name and keeps every file |
| SnapshotHash.AddressIgnoresOrder | src/kernel/previewSnapshot.ts:105-114 | between NUL-free archives with distinct names, the hash is fed the same text exactly when one archive is a reordering of the other |
| SnapshotHash.ReorderedSortsAlike | src/kernel/previewSnapshot.ts:107 | the order of an archive with distinct names never reaches the hash |
| SnapshotHash.NeighboursMerge | src/kernel/previewSnapshot.ts:105-114 | an archive of two files or more feeds the hash the same text as the different one in which two neighbours in name order are merged |
| SnapshotHash.NulCollides | src/kernel/previewSnapshot.ts:105-114 | a different archive that feeds the hash the same text exists exactly for an archive of two files or more, or with a NUL in a name or content |
| Snapshot.Untar | src/kernel/previewSnapshot.ts:76-100 | the captured files are the file entries with a leading `./` removed and empty names dropped |
| SnapshotStore.HeadersAreRead | src/kernel/previewSnapshot.ts:90-93 | a leading `./` with any number of slashes is removed from a header, and any other header is the name |
| Snapshot.PreviewSnapshotStore.Check | src/kernel/previewSnapshot.ts:129-143 | an archive is accepted exactly when it has 1 to 1000 files of at most 25 MiB, 64 MiB in all, and one whose last component is `index.html`; otherwise it is refused with the cap it breaks |
| Snapshot.PreviewSnapshotStore.IngestFiles | src/kernel/previewSnapshot.ts:122-156 | a refused archive changes nothing; an accepted one is stored file by file, until a write fails |
| Snapshot.PreviewSnapshotStore.WriteFile | src/kernel/previewSnapshot.ts:147-153 | the path-string code stores a file where its name's components lead, or skips one that leaves the directory |
| Snapshot.StripLeavesNoParent | src/kernel/previewSnapshot.ts:150 | what is left of a name begins with no parent, and is its end |
| SnapshotStore.ParentsAreDropped | src/kernel/previewSnapshot.ts:147-151 | however many parents an archive puts in front of a plain name, the file goes where the name goes |
| SnapshotStore.DestIsUnder | src/kernel/previewSnapshot.ts:147-151 | a relative name that keeps below the directory is put where walking its components leads |
| SnapshotStore.StoredExactly | src/kernel/previewSnapshot.ts:147-153 | a file is stored exactly if no file is in the way, no directory in its place, no NUL on the way and no slash behind its name |
| Snapshot.PreviewSnapshotStore.Resolve | src/kernel/previewSnapshot.ts:161-176 | the path-string code finds the file that a request's components lead to, or the index of that directory, or nothing |
| SnapshotStore.FoundInside | src/kernel/previewSnapshot.ts:161-176 | whatever is asked for, a found file lies strictly below the snapshot's directory, and the id has 8 to 64 lower-case hexadecimal digits |
| SnapshotStore.IngestInside | src/kernel/previewSnapshot.ts:147-153 | whatever the archive names, files are written only strictly below the directory and nothing is removed |
| SnapshotStore.IngestLayers | src/kernel/previewSnapshot.ts:145-153 | no ingest puts a file in place of a snapshot directory |
| SnapshotStore.PackedIsRead | src/kernel/previewSnapshot.ts:76-100 | what is packed under `./` is read back as it was |
| SnapshotStore.RoundTrip | src/kernel/previewSnapshot.ts:122-176 | every file of an archive of plain names, none a directory of another, is found under its name, byte for byte |
| SnapshotStore.DirectoryReachesIndex | src/kernel/previewSnapshot.ts:167-172 | a request that leads to a directory reaches its `index.html` |
| SnapshotStore.NothingElseIsFound | src/kernel/previewSnapshot.ts:161-176 | after an ingest, a request reaches a file of the archive or nothing |
| SnapshotStore.IngestAgain | src/kernel/previewSnapshot.ts:119-156 | ingesting an archive again changes nothing |
| SnapshotStore.OtherSnapshotsStay | src/kernel/previewSnapshot.ts:144-153 | an ingest under another id changes no answer about a snapshot, nor a byte of what is found |
| Quoting.QuotedExtendsWord | src/environments/daytona/index.ts:108-110 | a quoted value extends the word being read by exactly that value |
| Quoting.QuotedIsOneWord | src/environments/daytona/index.ts:108-110 | the shell reads a quoted value as one word equal to it exactly when it has no NUL |
| Quoting.ShellCommandIsThreeWords | src/environments/daytona/index.ts:116-118 | the command is read as the shell, `-lc` and the script exactly when the script has no NUL |
| Quoting.ScriptEntersDirectory | src/environments/daytona/index.ts:120-122 | the script is read as `cd`, the directory and `&&`, whatever command follows |
| Quoting.CommandRunsInDirectory | src/environments/daytona/index.ts:120-122 | both levels of quoting together |
| Transcript.RunTranscript.OnEvent | src/server/db/persistence.ts:108-140 | an event folds into the shared entries of list and index |
| Transcript.RunTranscript.OnResult | src/server/db/persistence.ts:124-136 | a result amends the entry of its call through the index, or adds one of its own |
| Transcript.RunTranscript.Settle | src/server/db/persistence.ts:143-171 | the stored message has the folded tools and the first nonempty of the settled, final and streamed texts |
| Transcript.StoredTextIsSettled | src/server/db/persistence.ts:146 | for a result settled on the same stream the stored text is the settled text, and the fallbacks agree with it |
| Transcript.CallIsStoredAsShown | src/server/db/persistence.ts:117-136 | whatever else a stream has, a call with an id that no later call takes over is stored with its name and arguments, in the last state and with the last output shown under its id; the name shown is the same, or `tool` for an unnamed tool that was answered |
| Transcript.StoredToolsInOrder | src/server/db/persistence.ts:117-136 | for any stream, the stored tools are its calls and its results without a call, in order, each under its id or one that counts the tools before it |
| Transcript.OrphanIsStored | src/server/db/persistence.ts:124-135 | a result without a call is stored with its outcome and output |
| Transcript.StoredToolsAreShown | src/server/db/persistence.ts:117-136 | with distinct call ids, the stored tools are the calls in order, and each is what the live view last showed for it exactly when it is not an unnamed tool that was answered |
| ToolQueue.ToolQueues.Chain | src/tools/index.ts:26-31 | a call is chained on the newest promise of its handle |
| ToolQueue.OneAtATimeInOrder | src/tools/index.ts:26-31 | in every interleaving, calls on a handle run one at a time and in call order |
| ToolQueue.StagesFollow | src/tools/index.ts:26-31 | a call moves from waiting to caught, to running, to settled, one step at a time and each by its own reaction |
| ToolQueue.CallsAreKept | src/tools/index.ts:26-31 | in every run the calls are those that were made, in order, each on its own handle |
| ToolQueue.CanSettle | src/tools/index.ts:26-31 | from any point of any run, any call can be brought to run and settle by reactions and ends alone |
| ToolQueue.GoesAheadOnItsTurn | src/harnesses/openai-agents/execEngine.ts:226-238 | a waiting call can go ahead exactly when every earlier call on its own handle has settled, rejected or not |
| ToolQueue.NeverStuck | src/tools/index.ts:26-31 | while a call is unsettled, some call of its handle can move |
| Inspector.InspectorRing.Emit | apps/next/src/core/inspector.ts:67-81 | a record gets the next number and the ring drops its oldest when full |
| Inspector.InspectorRing.SinceCursor | apps/next/src/core/inspector.ts:137-140 | `since` gives the newest records above the cursor, up to the limit |
| Inspector.DevtoolsPanel.PollHead | apps/next/devtools-extension/panel.js:195-219 | a poll disconnects, resyncs or asks for records as the head says |
| Inspector.DevtoolsPanel.PollRecords | apps/next/devtools-extension/panel.js:220-233 | fresh records are appended within the cap and move the cursor |
| Inspector.RingIsNewest | apps/next/src/core/inspector.ts:67-99 | in every run the ring is the newest at most 2000 records since the last clear, numbered consecutively |
| Inspector.RingHoldsNewest | apps/next/src/core/inspector.ts:67-99 | these are the newest at most 2000 |
| Inspector.SinceIsSuffix | apps/next/src/core/inspector.ts:137-140 | what `since` hands over is the newest part, up to 800, of what was emitted after the cursor and the last clear |
| Inspector.PanelRises | apps/next/devtools-extension/panel.js:195-235 | in every run, reloads and clears included, the panel's list strictly rises |
| Inspector.PollTracks | apps/next/devtools-extension/panel.js:220-233 | a poll leaves nothing out between what the panel kept and the newest record exactly when no more than 800 arrived since the cursor and no clearing dropped any |
| Inspector.PollIsExact | apps/next/devtools-extension/panel.js:220-233 | a poll leaves the list right exactly when it loses nothing and no unnoticed reload stands behind the list, or nothing older than the reload fits any more |
| Inspector.RightPollIsExact | apps/next/devtools-extension/panel.js:220-233 | a poll of a right list keeps it right exactly when it loses nothing |
| Inspector.ReloadIsUnnoticed | apps/next/devtools-extension/panel.js:195-219 | a reload, also between the two halves of a poll, leaves a wrong list behind exactly when the panel had taken in a record |
| Inspector.ReloadIsNoticed | apps/next/devtools-extension/panel.js:203-213 | the head half of a poll notices it exactly when the panel was disconnected or the page's numbers are behind the cursor, and the list is right again |
| Inspector.ClearSettles | apps/next/devtools-extension/panel.js:269-275 | emptying the list makes it right exactly when the page's numbers have reached the cursor |
| Inspector.OnlyThen | apps/next/devtools-extension/panel.js:195-235 | short of that, another reload and the clear button, nothing changes whether a reload is unnoticed |
| Inspector.PanelIsExact | apps/next/devtools-extension/panel.js:195-235 | over every run without a losing poll, reloads and clears included, the list is the newest at most 4000 records up to the cursor exactly when no unnoticed reload stands behind it, or 4000 records were taken in since |
| Inspector.PolledListIsNewest | apps/next/devtools-extension/panel.js:195-235 | with nothing cleared and at most 800 records since the cursor, a poll leaves exactly the newest at most 4000 records emitted, exactly when no unnoticed reload stands behind it or 4000 came after that |
| Inspector.PollAsks | apps/next/devtools-extension/panel.js:195-220 | a head poll that reaches the page asks for records exactly when the page is ahead of the cursor, which starts over on a connection or a resync |
| Inspector.FullPollCatchesUp | apps/next/devtools-extension/panel.js:195-233 | a whole poll that finds a record in the ring brings the cursor to the newest |
| Inspector.FullPollIsNewest | apps/next/devtools-extension/panel.js:195-235 | over every run with nothing cleared and no losing poll, a whole poll with at most 800 records since the cursor leaves exactly the newest at most 4000, unless a reload is still unnoticed |
| SessionMemory.ClipFits | src/server/sessionMemory.ts:46-50 | a clipped text is within the limit, trimmed, and has no white space but single spaces |
| SessionMemory.ClipFixes | src/server/sessionMemory.ts:46-50 | clipping leaves a text as it is exactly when it is such a text |
| SessionMemory.ClipIsIdempotent | src/server/sessionMemory.ts:46-50 | clipping twice is clipping once |
| SessionMemory.ClipKeepsInk | src/server/sessionMemory.ts:46-50 | clipping loses only white space while the text fits, and otherwise keeps exactly the characters of its front |
| SessionMemory.MemoryFile.UpdateSessionMemory | src/server/sessionMemory.ts:96-124 | an update replaces the memory of its own key and no other, and its newest turn has the run, prompt, outcome and answer of the update |
| SessionMemory.KeyRemembersLastSix | src/server/sessionMemory.ts:96-124 | after any updates a key remembers exactly the last six turns filed under it, in order |
| SessionMemory.KeyRemembersUpdates | src/server/sessionMemory.ts:96-124 | it holds one turn for each of the last six updates filed under it: run id, prompt and answer as they are or clipped to 700 characters, no answer exactly for an empty one, and the outcome by cause and error code |
| SessionMemory.NewestTurn | src/server/sessionMemory.ts:106-112 | the newest of them is that of the update just made |
| SessionMemory.LineTells | src/server/sessionMemory.ts:59-67 | a line of the summary has the prompt behind `User:` and the answer, if there is one, behind `Assistant:` |
| SessionMemory.RemembersLastSix | src/server/sessionMemory.ts:96-124 | these are the session's own last six turns whenever the last six updates filed are its own and, where run ids tell updates apart, only then |
| SessionMemory.OwnKeyRemembers | src/server/sessionMemory.ts:96-124 | they are in every history in which no other session uses the key |
| SessionMemory.SeparateOwners | src/server/sessionMemory.ts:42-44 | no other session uses the key when no other owner of the history begins with this one and a colon, or this one with that |
| SessionMemory.OwnersCollide | src/server/sessionMemory.ts:42-44 | two different owners can share a key exactly when one of them, followed by a colon, begins the other |
| SessionMemory.KeysIdentify | src/server/sessionMemory.ts:42-44 | for any other owners, keys are equal exactly when owner and session are |
| SessionMemory.StoredFieldsAreBounded | src/server/sessionMemory.ts:106-121 | prompts and final texts are stored within 700 characters and on one line, at most six turns are kept, and the summary is that of the turns |
| SessionMemory.SummaryLines | src/server/sessionMemory.ts:59-67 | the summary has exactly one line a turn, exactly when no error code breaks the line |
| SessionMemory.ContextIsInjected | src/server/sessionMemory.ts:126-136 | exactly when there are turns to remember, the clipped summary, tidy and at most 2400 characters, precedes the prompt, which follows unchanged |

## Left out

- Environment adapters, reverse proxies, child processes and port probes: a provision returns a new handle or fails, and a destroy is an effect.
- Harness internals: a harness is any sequence of events, delegations and settlements that then throws or returns. It emits terminals through its settler and no child brackets of its own.
- HTTP routes, authentication, database queries, billing and React code: plumbing and external state.
- JSON, UTF-8 decoding, gzip, tar framing and SHA-256: JSON is an opaque one-line object text, chunks are whole characters, archives are entry lists, and the digest is a parameter. Strings are lists of characters, so a surrogate pair is one character and not two.
- `Number()` of an id line: a parameter. The TypeScript reads an empty id as 0, which the parameter allows.
- Wall-clock time, retry delays and timestamps: a timer is an armed token that may fire at any step.
- Cost rounding: prices are integer micro-units per token.
- Aborts of a stream: the end of the list of replies or chunks. The frame callbacks do not throw.
- Rendering.TreeRenders: covers delegations one after the other, as the tree lists them; concurrent delegations are covered by `StackIsOpenChildren`.
- Delegation.RunDelegate: which child session a delegation gets, a new one or the one kept for its harness and environment, is left open, as any session made under the parent's; its workspace either comes or fails. The teardown of child sessions and previews by `endSession` is not modelled.
- KernelModel.RunMessage: the texts of the log lines are abbreviated, and prices and times in them left out.
- Topology resolution and registry lookups: an outcome of the setup, refused or not.
- Lifecycle.RunInv: a session manager without a pool is the case in which nothing is ever warmed.
- Snapshot.PreviewSnapshotStore.Resolve: the content type table is left out, it would only add easy members.
- Snapshot.PreviewSnapshotStore.IngestFiles: the digest is assumed to print at least eight lower-case hexadecimal digits, and the root is an absolute normalised path without symbolic links below it. Writes fail only for a directory or file in the way, a trailing slash or a NUL.
- SnapshotStore.FoundInside: assumes that no file stands in place of a snapshot directory, which `IngestLayers` shows no ingest breaks.
- Quoting.Tokens: expansions, patterns, comments, assignments and the other operators make the reader stop, since the printed commands have none outside quotes and the user's command comes after the part that is stated.
- Transcript.CallIsStoredAsShown: a call without an id, or with an empty one, is stored under a label or key that no shown frame carries, so there is nothing to compare it with. An input field named `callID` would overwrite the id in a shown frame; inputs are opaque here.
- ToolQueue.OneAtATimeInOrder: one queue. `src/tools/index.ts` and the execution engine keep one each, so calls made through different ones can run at the same time on one handle.
- Inspector.PanelRises: polls do not overlap. Two overlapping polls ask from the same cursor and can append the same records twice.
- SessionMemory.StoredFieldsAreBounded: run ids, error codes in outcomes and the summary are stored unclipped by the TypeScript, so they have no bound.
- SessionMemory.RemembersLastSix: updates do not overlap. Two overlapping updates read the same file, and the later write wins.
- The model selection, chat body assembly and listener sets around the modelled loops: plain assembly.
