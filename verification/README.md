# Verified models of the voice stack's protocol, data and tooling cores

A Dafny 4.11 project that models nine self-contained cores of the repository and proves what each is relied on for.
`dafny verify dfyconfig.toml` checks all of it.

What is modelled, core by core:

- **The realtime turn protocol.** `Replay` drives a `SessionState` object (`SessionPhases`, with the real guards of
  `python/realtime/state.py`) through an op stream, op by op, emitting wire events. `TraceRules` holds the one-pass
  checkers over such traces, each against a rule stated on the trace itself. `ResponseLanguage` shows what three of
  the checkers amount to for one response; `ReplayEffects` breaks every op into a few kinds of effects, and over them
  `ReplaySafety` and `ReplayDiscipline` show what every replay obeys. `ReplayWire` tells what a replay emits from its
  op stream alone.
- **Leakage-free grouping.** `UnionFind` is the shared disjoint-set object; `PromptGroups` merges prompts by a sorted
  scan over a stack of open prefixes; `HoldoutSplit` splits by whole groups and scores by windows; `ClmPrepare` links
  question groups through conversations.
- **Near-duplicate names.** `EditDistance` (two-row dynamic program, character bags), `NameSim` (the pruned pair
  search), `NameClusters`.
- **The inspector's audio bands.** `Bands` lays chunks out and rows them in place; `BandRows` has the greedy
  assignment on values.
- **Canonical traces.** `FirstAppearance` numbers names by first appearance; `IdCanonical` is the trace comparer's
  canonicaliser and `KeyOrder` what it makes of equal dicts, `TraceCanonical` the replay one, `TraceEquality` when two
  traces have one canonical form, `TraceSettles` when canonicalising again changes nothing, all over `Json` values.
- **Comment stripping.** `CommentEmitter`, `SourceScan`, `GoScanner`, `RustScanner`, `BlankLines`, over `TextLines`.
  `GoGrammar` and `RustGrammar` are grammars of the two languages' lexemes, over `Lexemes`, that the scanners read;
  `StripperOutput` is what exactly comes out, `LiteralsSurvive` what becomes of literals.
- **The request batcher.** `BatcherProtocol` interleaves submitters, timers and flushes at the grain of the lock;
  `RequestBatcher` is the object, its locked sections tied to the protocol's steps.
- **NVFP4 requantization.** `Rounding` (FP4 E2M1 of the OCP Microscaling Formats specification v1.0, section 5.3.3, and
  the UE4M3 scale grid), `BlockSearch`, `Nvfp4`; `Safetensors` rewrites the container.
- **Patch order.** `MergeOrder`.

`Wrappers`, `Finite` (counting finite sets) and `Sorting` serve several of these.

Results that are not what the source's own words suggest:

- Three checkers accept a trace exactly when every response reads created, others, one done, if every created and
  done carries an id. On other traces that can fail either way: `UnnamedTraceFoolsTheRules` gives a trace they accept
  wrongly, `AliasedTraceIsRefused` one they refuse wrongly, and `AcceptedIffAllPass` says exactly what they accept.
- The W3 checker accepts every trace: its index comparisons test an earlier index for being later. The ordering it
  means to check is proved of the replay itself (`ReplayKeepsTurns`).
- A run can reach two states that the session's own invariant check would object to, because the voice ops move the
  phase without running it (`EarlyStopIsReached`, `VoicedItemIsReached`); it can reach no others.
- A replay is accepted exactly when its response ids are fresh, each audio delta names the active response or no
  response at all, and no response is left active; the source checks neither of the first two.
- Canonicalising a canonical trace changes nothing exactly when every plain string under `audio` or `data` has 9 or 10
  characters, because `<N bytes>` is itself N characters long only then, and no bare id event upsets the numbers of the
  ids in containers. If bare ids are not of the canonical form, that is: before an id first stands in a container it has
  not stood bare, and no id of its kind has stood both ways (`CanonTraceSettlesIff`, `BareIdShiftsNumbers`).
- The patch order is a permutation exactly when the merge size divides both sides of the grid, or there is at most
  one patch.
- The rows of bands are always as many as the most crowded chunk needs; some instant needs them all exactly when such
  a chunk lasts, so a chunk of no length can open a row that no instant needs (`EmptyChunksWasteRows`).
- A batch is answered in full exactly when its runner raised or returned at least as many results as payloads. With
  fewer, the submitters left over wait for ever.
- Two values have equal canonical forms, and ids opposite ids, exactly when a renaming of ids turns one into the other
  and every id has in the first the number that its new name has in the second (`KeyOrder.CanonicalEqualIffNumbered`).
  With shared keys in one order the numbers take care of themselves; without, even equal dicts can get different forms
  (`KeyOrderDecides`). A string already of the canonical form can pass for an id (`ReservedStringPasses`).
- A literal comes out of the comment strippers unbroken exactly when it spans lines, or ends in no blank, or stands on
  an output line that a literal of several lines touches; the others are cut short by the end of a line or of the
  source and lose the blanks at their end (`LiteralKeptIff`).

Ghost arguments of methods (the events, strings or slots seen so far) name the abstract history; they are not part of
the source's signatures.

## Model

| member | source | states |
|---|---|---|
| TraceRules.CheckResponseDonePerCreated | conformance/lib/trace_invariants.py:175-197 | W1: no violation exactly when every response id filed under created is also filed under done and the other way round; if no id repeats, the violations are exactly the unmatched ids with their positions, and otherwise the one found is a true repetition |
| TraceRules.PairedMeansSameKeys | conformance/lib/trace_invariants.py:175-197 | pairing of all responses, stated on the trace, is equality of the two tables the loop fills |
| TraceRules.CheckDeltaOnlyBetweenCreatedAndDone | conformance/lib/trace_invariants.py:199-218 | W2: lists exactly the positions of window events whose response is not open there, in order |
| TraceRules.OpenStep | conformance/lib/trace_invariants.py:199-218 | a response is open from a created of its own to the next done of its own, one event at a time |
| TraceRules.CheckNoResponseEventsAfterDone | conformance/lib/trace_invariants.py:291-321 | W6: lists exactly the positions of response events that come after a done of their response |
| TraceRules.CheckResponseDoneCarriesAudioEndMs | conformance/lib/trace_invariants.py:248-261 | W4: lists exactly the done events without an audio end |
| TraceRules.CheckCommittedAfterStoppedBeforeCreated | conformance/lib/trace_invariants.py:220-246 | lists exactly the commits whose latest stop so far, and the added items whose latest commit so far, comes later in the trace; there are none, so W3 as written never reports anything |
| TraceRules.EarlyCommitPasses | conformance/lib/trace_invariants.py:220-246 | there is a trace with a commit before the only stop of its item on which the rule reports nothing |
| TraceRules.CheckSpeechResponseAtomicity | conformance/lib/trace_invariants.py:124-155 | lists exactly the positions where speech starts with a response open, or a response is created while speech of some item is on |
| TraceRules.SpeakingStep | conformance/lib/trace_invariants.py:124-155 | speech is on since its latest start until a stop that names its item or names none |
| TraceRules.RespondingStep | conformance/lib/trace_invariants.py:124-155 | some response is open since the latest created with an id until any done |
| TraceRules.CheckCancelledEmitsTruncate | conformance/lib/trace_invariants.py:323-373 | lists exactly the cancelled dones not followed, before the next created, by a first truncation of their item that has their audio end; each is filed at that truncation, or at the done if there is none |
| TraceRules.CheckAssistantTruncatedPaired | conformance/lib/trace_invariants.py:375-400 | W7: lists exactly the truncations whose latest earlier done was not a cancelled one |
| ResponseLanguage.PhaseReadsLanguage | conformance/lib/trace_invariants.py:175-218 | reading a response's own events one by one tells begun, running and whole sequences of the language created (other)* done apart |
| ResponseLanguage.UnbrokenIsPartOfWhole | conformance/lib/trace_invariants.py:175-218 | the reading never breaks exactly on the beginnings of whole sequences |
| ResponseLanguage.PhaseMeaning | conformance/lib/trace_invariants.py:199-218 | while unbroken, the reading's phase says whether the response's created and done have been seen and whether it is open |
| ResponseLanguage.TidyIffOrdered | conformance/lib/trace_invariants.py:175-218 | W1 and W2 alone accept a response exactly when its own events read created, others, done or done, created, others |
| ResponseLanguage.ResponseAccepted | conformance/lib/trace_invariants.py:175-321 | on any trace, W1, W2 and W6 accept a response exactly when its own events read created, any others, one done and no created naming it only by response_id comes after its done; the placeholder of unnamed events may also read done, created, any others, unless it is itself used as an id |
| ResponseLanguage.AcceptedIffAllPass | conformance/lib/trace_invariants.py:175-321 | W1, W2 and W6 together report nothing exactly when that holds of every response |
| ResponseLanguage.AcceptedIffWholeResponses | conformance/lib/trace_invariants.py:175-321 | if every created and done carries an id, they together report nothing exactly when every response reads created, any others, one done |
| ResponseLanguage.UnnamedTraceFoolsTheRules | conformance/lib/trace_invariants.py:101-114 | without ids the three rules accept a trace whose unnamed response is not whole |
| ResponseLanguage.AliasedTraceIsRefused | conformance/lib/trace_invariants.py:175-321 | without ids they also refuse a trace whose every response is whole |
| SessionPhases.SessionState.Check | python/realtime/state.py:437-466 | raises exactly the violation that the phases, current response and conversation call for |
| SessionPhases.SessionState.RespCreateFromNone | python/realtime/state.py:533-548 | the whole new state and the violation raised: only from no response and not while speaking, with the next epoch |
| SessionPhases.SessionState.RespAdvanceToStreaming | python/realtime/state.py:595-600 | the whole new state and the violation raised: only from created |
| SessionPhases.SessionState.RespDrain | python/realtime/state.py:602-611 | the whole new state and the violation raised: only from streaming |
| SessionPhases.SessionState.RespRetireToNone | python/realtime/state.py:613-618 | the whole new state and the violation raised |
| Replay.ReplayOps | python/conformance_replay.py:33-164 | the loop over ops yields the trace, or the first error, of the run function, whose emissions ReplayWire tells from the op stream |
| Replay.DriveOp | python/conformance_replay.py:43-163 | one op changes the session, the planned and played tables and the trace as its three parts in turn do, or raises |
| Replay.CancelActive | python/conformance_replay.py:63-75 | speech over an active response emits its cancelled done and its truncation, both at the time its epoch has played, and retires it |
| Replay.Drive | python/conformance_replay.py:51-163 | every branch of the op switch has the effect its part of the step says |
| Replay.DriveResponse | python/conformance_replay.py:119-161 | llm completion, drained audio, failure and drain-cap expiry move the response on or end it |
| Replay.RaisedForever | python/conformance_replay.py:33-164 | once an op raises, the run raises with that error whatever follows |
| ReplayWire.RunFollows | python/conformance_replay.py:33-164 | in every run, by the op stream alone: the played table holds the latest playedMs of each epoch, the planned table the sum of its plannedMs, a response is open exactly since a created op that no later op ended, and its epoch is the number of responses created |
| ReplayWire.OpEnds | python/conformance_replay.py:63-161 | an op emits a done event exactly if it ends the open response, and tells that response, how it ended and with how much audio: a cancelled one with what the latest drain or cap of its epoch played, a drained one completes once that reaches what its epoch's ops planned |
| ReplayWire.RunShowsEnds | python/conformance_replay.py:63-161 | the done events of a run are exactly the ends of its responses, each once and in order |
| ReplayWire.RunPairs | python/conformance_replay.py:63-161 | each cancelled done is followed by the truncation of its item at its audio end, each completed one preceded by its audio done, and no other such events occur |
| ReplayWire.StepStarts | python/conformance_replay.py:76-83 | speech starts on the wire exactly when an op starts it in silence, under the item of the op |
| ReplayWire.RunNamesTurns | python/conformance_replay.py:63-101 | in every run, speech re-entry included, every stop and commit names the item whose speech started last |
| ReplayWire.RunEchoes | python/conformance_replay.py:51-118 | the session updates, errors, transcriptions, deltas and created events of a run are those its ops call for, in their order |
| ReplayEffects.StepActs | python/conformance_replay.py:43-163 | every op that goes through is three effects in a row out of nine kinds, and only the last creates a response or plays audio |
| ReplayEffects.RunKeeps | python/conformance_replay.py:33-164 | whatever holds of the empty run and is kept by every effect holds of every run |
| ReplaySafety.ReachedStateChecks | python/realtime/state.py:437-466 | of a state a run reaches, the invariant check finds at most two things wrong: a stop before its start, or a spoken item that is already committed |
| ReplaySafety.EarlyStopIsReached | python/conformance_replay.py:84-92 | a stop before its start is reached without anything being raised |
| ReplaySafety.VoicedItemIsReached | python/conformance_replay.py:63-101 | so is a committed item that is spoken again |
| ReplaySafety.RunRaisesExactly | python/conformance_replay.py:43-164 | a run goes wrong at its next op exactly when the world it has reached objects to the op, and raises only one of four violations |
| ReplaySafety.WatchedIsAtomicity | conformance/lib/trace_invariants.py:124-155 | watching a trace event by event finds it clean exactly when it obeys the atomicity rule |
| ReplaySafety.ReplayIsAtomic | python/conformance_replay.py:63-114 | in every run no speech starts with a response open and no response is created while speech is on |
| ReplaySafety.ReplayKeepsTurns | python/conformance_replay.py:63-101 | in every run, speech re-entry included, every commit closes a stopped turn of its item, and committed ids, added ids and the conversation are one sequence |
| ReplaySafety.CommittedTurn | python/conformance_replay.py:93-101 | committing a stopped turn extends the three sequences alike |
| ReplaySafety.ReplayTruncatesCancelled | python/conformance_replay.py:63-161 | in every run each cancelled done is followed at once by the truncation of its item at its audio end, no other truncation occurs, and every done has an audio end |
| ReplaySafety.TraceIsEmptyIff | python/conformance_replay.py:43-49 | before the session starts only audio deltas can reach the trace |
| ReplaySafety.FirstEvent | python/conformance_replay.py:43-49 | the first event of a trace is the start of the session exactly when an op that starts it precedes every audio delta |
| ReplaySafety.ReplayCreatesSessionOnce | python/conformance_replay.py:43-49 | session.created is emitted at most once, and is first exactly when an op that starts the session precedes every audio delta |
| ReplayDiscipline.RunOnPhases | python/conformance_replay.py:33-164 | every disciplined run has each response in its phase, the active one open; an undisciplined one breaks some response |
| ReplayDiscipline.AcceptedIffDisciplined | python/conformance_replay.py:33-164 | a run's trace is accepted by W1, W2 and W6 exactly when ids are fresh, deltas name the active response or none, and none is left active |
| ReplayDiscipline.StrayDeltaIsRejected | python/conformance_replay.py:115-118 | an audio delta of no active response goes through and makes a trace that is not accepted |
| ReplayDiscipline.OneResponseOpen | python/conformance_replay.py:33-164 | in a disciplined run exactly the active response is open, and every response's events are a beginning of created, others, done |
| ReplayDiscipline.ReplayIsNamed | python/conformance_replay.py:63-161 | every response event a run emits carries an id |
| UnionFind.SameRootIffLinked | scripts/namesim.py:186-200 | two keys have one root exactly when a chain of the unions done so far joins them |
| UnionFind.AttachKeeps | scripts/namesim.py:197-200 | hanging one root under another keeps the forest true of the unions plus the new one |
| UnionFind.DisjointSets.Find | scripts/consolidate_trajectories.py:190-194 | path halving returns the root and changes no key's root |
| UnionFind.DisjointSets.Lookup | scripts/namesim.py:190-195 | an unknown key becomes its own root; path halving returns the root and changes no other |
| UnionFind.DisjointSets.Compress | scripts/clm_prepare.py:96-100 | recursive compression returns the root and changes no key's root |
| UnionFind.DisjointSets.Ensure | scripts/clm_prepare.py:96-97 | entering a key changes no other key's root |
| UnionFind.DisjointSets.Attach | scripts/namesim.py:197-200 | the new forest records one more union |
| UnionFind.DisjointSets.RootsAreLinks | scripts/namesim.py:186-200 | in the object too, equal roots are exactly chains of unions |
| PrefixOrder.PrefixesAreContiguous | scripts/consolidate_trajectories.py:196-205 | in lexicographic order, whatever lies between a string and an extension of it extends it too |
| PrefixOrder.PrefixesNest | scripts/consolidate_trajectories.py:196-205 | of two prefixes of one string the shorter is a prefix of the longer |
| PromptGroups.StillOpen | scripts/consolidate_trajectories.py:196-205 | the stack left by the previous prompt covers every earlier prefix of the next one |
| PromptGroups.PopClosed | scripts/consolidate_trajectories.py:201-202 | popping leaves exactly the open prefixes of the prompt at hand |
| PromptGroups.LinkPrefixes | scripts/consolidate_trajectories.py:196-205 | linking each prompt only to the top of the stack joins every non-empty prefix pair of the corpus, and nothing but such pairs |
| PromptGroups.LinkedIffEntangled | scripts/consolidate_trajectories.py:181-216 | a chain of links joins two prompts exactly when they are equal or some non-empty prompt of the corpus is a prefix of both |
| PromptGroups.MergedPromptGroups | scripts/consolidate_trajectories.py:181-216 | every row is in exactly one group with its multiplicity, rows share a group exactly when their prompts are so entangled, and a group is keyed by its least digest |
| HoldoutSplit.SplitHoldout | scripts/consolidate_trajectories.py:218-241 | holdout and train partition the rows, no non-empty train prompt is a prefix or extension of a held-out one, each side is whole groups in the seeded order, and the held-out ones are the first wholly eligible groups in that order until both targets are met |
| HoldoutSplit.SeatGroups | scripts/consolidate_trajectories.py:223-239 | seated are the first wholly eligible groups in order, as long as the row target or the nine windows are not yet met and no longer; all others are benched in order, and the two sides are their rows |
| HoldoutSplit.SidesPartition | scripts/consolidate_trajectories.py:218-241 | the two sides are together the rows, multiplicity included |
| HoldoutSplit.SidesDoNotLeak | scripts/consolidate_trajectories.py:218-241 | no non-empty prompt of one side is a prefix of a prompt of the other |
| HoldoutSplit.NineWindowsSeated | scripts/consolidate_trajectories.py:223-239 | nine windows are seated whenever nine all-eligible groups exist |
| HoldoutSplit.WindowIsGroup | scripts/consolidate_trajectories.py:257-260 | the rows between two window starts are exactly one seated group |
| HoldoutSplit.WindowDeltas | scripts/consolidate_trajectories.py:243-282 | refuses exactly empty or unequal vectors and sizes that do not cover them; otherwise each delta times its window's size is the adapter's sum over the window less the base's, a window is a win exactly if the adapter's sum is the smaller and a loss exactly if it is the greater |
| HoldoutSplit.SumRealSplits | scripts/consolidate_trajectories.py:257-260 | the sum of two stretches is both sums, and that of one value is the value |
| HoldoutSplit.NullRowsDerange | scripts/consolidate_trajectories.py:321-331 | label shuffling gives every completion to one other row and leaves no row its own |
| ClmPrepare.Gather | scripts/clm_prepare.py:71-90 | first of each identity not held out, the identities whose copies disagree on labels, and the conversations that hold a held-out row |
| ClmPrepare.SameDecision | scripts/clm_prepare.py:59-61 | rows have one identity exactly when they differ in labels, source and conversation at most |
| ClmPrepare.LinkConversations | scripts/clm_prepare.py:94-107 | every conversation's question groups are linked to its first one |
| ClmPrepare.ChainLinksTopics | scripts/clm_prepare.py:101-107 | a chain of rows sharing a question group or conversation is a chain of links |
| ClmPrepare.LinkedTopicsChain | scripts/clm_prepare.py:101-107 | and a chain of links from a row's question leads only to questions of rows so chained to it |
| ClmPrepare.RootOfTopic | scripts/clm_prepare.py:96-100 | looking a root up, with compression, changes no representative |
| ClmPrepare.RepRepresents | scripts/clm_prepare.py:96-114 | each class of chained rows has one representative question, one of its own, and different classes have different ones |
| ClmPrepare.SplitRows | scripts/clm_prepare.py:108-114 | each kept row without a label conflict goes to the split its representative hashes to |
| ClmPrepare.SplitShares | scripts/clm_prepare.py:111-113 | of a thousand buckets test, calibration and validation get twenty each and training the other 940 |
| ClmPrepare.Prepare | scripts/clm_prepare.py:71-114 | exactly the rows that stand for their identity, share no group or conversation with a held-out row and agree with every copy are emitted, once each; chains of shared groups and conversations share a split, and it is the one that the question standing for the chain hashes to |
| EditDistance.LevIsLeastEdits | scripts/namesim.py:26-37 | the recurrence is the least number of insertions, deletions and substitutions between the strings |
| EditDistance.LevSymmetric | scripts/namesim.py:26-30 | swapping the strings, as the code does to put the longer first, changes nothing |
| EditDistance.NextRow | scripts/namesim.py:31-36 | one pass turns the distances of a prefix to all prefixes of the other string into those of the next prefix |
| EditDistance.Levenshtein | scripts/namesim.py:26-37 | the two-row loop returns the edit distance |
| EditDistance.LengthGapBounds | scripts/namesim.py:166-168 | the length gap never exceeds the distance |
| EditDistance.BagBounds | scripts/namesim.py:149-153 | the character-bag difference never exceeds twice the distance |
| EditDistance.CharBag | scripts/namesim.py:142-147 | the counted bag is the multiset of the name's characters |
| EditDistance.CharBagDistLowerBound | scripts/namesim.py:149-153 | half the bag difference, rounded up, and never more than the distance |
| NameSim.PruningIsSound | scripts/namesim.py:156-183 | a pair that reaches the similarity threshold is never pruned |
| NameSim.Judge | scripts/namesim.py:166-182 | the pruned test keeps a pair exactly when the plain test would |
| NameSim.CandidatePairs | scripts/namesim.py:156-183 | the pairs kept are exactly the similar ones of the names, each in order and each once |
| NameSim.ScoreLoweredExactly | scripts/namesim.py:168-182 | a pair's score is lower than the plain one exactly when its distance was pruned and would have scored above the token overlap |
| NameSim.LevPasses | scripts/namesim.py:40-44 | the distance passes exactly when no more than 18 characters in a hundred of the longer name are edited |
| NameSim.JaccardPasses | scripts/namesim.py:51-55 | the overlap passes exactly when three quarters of the tokens of both are shared; it is symmetric, full for equal token sets alone and none for disjoint ones alone |
| NameSim.KernelSplits | scripts/namesim.py:58-63 | the tokens left when the excluded ones go are those of the parts, one after the other |
| NameSim.BackendDiffers | scripts/namesim.py:58-63 | names that differ by one token differ only in backend exactly when that token is an excluded one |
| NameClusters.Union | scripts/namesim.py:197-200 | the union is recorded and both names are entered |
| NameClusters.Cluster | scripts/namesim.py:216-238 | names are in one cluster exactly when a chain of kept pairs joins them or they are one repeated name; clusters are disjoint and hold the scores of their pairs |
| NameClusters.BuildClusters | scripts/namesim.py:216-238 | the same from the definition counts, over the pairs the search keeps |
| BandRows.RowsDoNotOverlap | inspector/src/bands.js:33-49 | of two chunks in one row the earlier ends by the start of the later |
| BandRows.LiveFitInRows | inspector/src/bands.js:33-49 | never are more chunks live at one instant than there are rows |
| BandRows.RowsAreOptimal | inspector/src/bands.js:33-49 | for any chunks by start, empty and negative ones included, the rows are exactly as many as the most crowded chunk meets at its start, itself included |
| BandRows.InstantNeedsAllRows | inspector/src/bands.js:33-49 | some instant has as many chunks live as there are rows exactly when a chunk of positive length is a most crowded one; with positive lengths throughout one is |
| BandRows.EmptyChunksWasteRows | inspector/src/bands.js:33-49 | with a chunk of no length the rows can exceed what any instant needs |
| BandRows.RowsWithinResponses | inspector/src/bands.js:33-49 | if the chunks of each response follow one another, there are no more rows than responses |
| Bands.SortByStart | inspector/src/bands.js:33-36 | the sorted bands are the bands by start, ties in their old order |
| Bands.FindRow | inspector/src/bands.js:41-44 | the first row free at the start, or none |
| Bands.SeatAll | inspector/src/bands.js:37-49 | every band's row, set in place, is the greedy one, and the count is the rows used, at least one |
| Bands.AssignTtsChunkRows | inspector/src/bands.js:33-49 | the same for the chunk bands among all bands; no two of a row overlap, and nothing else changes |
| Bands.CountIsOptimal | inspector/src/bands.js:33-49 | for the bands in the order laid out: the count is that of the most crowded band, bounds the bands live at any instant, and is reached exactly when a band of positive length is a most crowded one, which positive lengths throughout ensure |
| Bands.LayoutAbuts | inspector/src/bands.js:127-142 | without negative lengths, a response's chunks follow one another |
| Bands.RowsPerResponse | inspector/src/bands.js:33-142 | so the sorted layout needs no more rows than there are responses |
| Bands.ChunkEvent | inspector/src/bands.js:129-142 | one more chunk is laid at its response's origin plus the audio so far, and the records stay true |
| Bands.LayoutIsBackToBack | inspector/src/bands.js:127-142 | the layout has one chunk for each audio chunk of the stream, in order and of its length, starting where its response's last chunk ended, or when it arrived if it is the first |
| Bands.Timeline.Ingest | inspector/src/bands.js:51-142 | each event leaves the timeline as all events so far say |
| Bands.Timeline.IngestTtsChunk | inspector/src/bands.js:129-142 | origin, cursor and the new band, in terms of the old ones |
| Bands.RebuildBands | inspector/src/bands.js:5-31 | the whole layout: chunks back to back per response, no overlap in a row, no more rows than responses or one, exactly the rows of the most crowded chunk, and an instant that needs them all exactly when such a chunk lasts, as with audio of positive length throughout |
| FirstAppearance.IndexStays | conformance/lib/trace_diff.py:48-59 | a name's number never changes as more names appear |
| FirstAppearance.IndexIsUnique | conformance/lib/trace_diff.py:48-59 | two names of one kind never share a number |
| FirstAppearance.SeenFirst | python/trace.py:95-110 | the counter gives a new name the number of names of its kind before it |
| FirstAppearance.RenamedSameIndex | conformance/lib/trace_diff.py:43-59 | renaming one to one within kinds changes no number |
| FirstAppearance.SameIndexRenamed | conformance/lib/trace_diff.py:43-59 | equal numbers position by position mean such a renaming |
| Json.PyEqInOrder | conformance/lib/trace_diff.py:125-130 | with one key order, the comparer's equality of values is equality position by position |
| IdCanonical.PlaceholderInjective | conformance/lib/trace_diff.py:55-59 | a placeholder determines its prefix and number |
| IdCanonical.IdCanonicaliser.Canon | conformance/lib/trace_diff.py:48-59 | an id becomes its prefix and first-appearance number; other strings stay; the tables stay true of all strings seen |
| IdCanonical.IdCanonicaliser.Walk | conformance/lib/trace_diff.py:61-68 | a value comes out with every string so replaced, in reading order |
| IdCanonical.CanonicaliseEvents | conformance/lib/trace_diff.py:70-76 | the events of the records are numbered together |
| IdCanonical.WrappingChangesNothing | conformance/lib/trace_diff.py:70-76 | records that hold their event under "event" have the canonical form of the bare events |
| IdCanonical.CanonicalSettles | conformance/lib/trace_diff.py:48-68 | canonicalising a canonical form changes nothing |
| IdCanonical.CanonicalEqualIffRenamed | conformance/lib/trace_diff.py:43-76 | for values whose shared keys come in one order: a one-to-one renaming of ids within prefixes turns one value into the other exactly when the canonical forms are equal and ids stand opposite ids |
| IdCanonical.UnreservedIsTwoSided | conformance/lib/trace_diff.py:43-76 | for values whose shared keys come in one order, without strings of the canonical form: equal canonical forms alone mean such a renaming |
| IdCanonical.ReservedStringPasses | conformance/lib/trace_diff.py:48-59 | any id and the placeholder of its prefix's first number become equal without a renaming |
| IdCanonical.KeyOrderDecides | conformance/lib/trace_diff.py:61-68 | equal dicts listing two ids in different orders get different canonical forms |
| KeyOrder.EqualityTransfers | conformance/lib/trace_diff.py:125-130 | if, wherever two pairs of rewritings agree on strings of two values, a third pair agrees too, then equality of the values under the first two pairs means equality under the third |
| KeyOrder.EqualValuesEqualForms | conformance/lib/trace_diff.py:61-68 | equal values, in any key order, have equal canonical forms exactly when every id has the same number in both |
| KeyOrder.CanonicalEqualIffNumbered | conformance/lib/trace_diff.py:43-76 | for any two values, in any key order: canonical forms are equal with ids opposite ids exactly when a renaming of ids within prefixes turns one value into the other and every id has in one the number its new name has in the other |
| KeyOrder.UnreservedEqualIffNumbered | conformance/lib/trace_diff.py:43-76 | without strings of the canonical form, equal canonical forms alone mean such a renaming, in any key order |
| TraceCanonical.Canonicaliser.CanonId | python/trace.py:95-110 | an id's canonical name, one up from the ids of its kind seen before; none for other strings |
| TraceCanonical.Canonicaliser.CanonicalizeNode | python/trace.py:54-93 | a node comes out in canonical form for all strings looked up so far |
| TraceCanonical.Canonicaliser.CanonicalizeField | python/trace.py:61-78 | timestamps to zero and not descended into, scores rounded, ids renamed, plain audio strings to their length |
| TraceCanonical.CanonicalizeTrace | python/trace.py:37-45 | the trace in the canonical form that TraceEquality describes, ids numbered across events; a bare string event stays |
| TraceEquality.TracesEqualIff | python/trace.py:37-110 | two traces have one canonical form exactly when they are alike event by event: same structure, bare strings the same, clocks telling any time, scores nearest to the same thousandths, audio payloads of one length, ids of one kind and one number opposite each other |
| TraceEquality.EqualIffRenamed | python/trace.py:37-110 | for traces without bare strings the last clause is that a one-to-one renaming of ids within their kinds turns one into the other |
| TraceEquality.Round3IsNearest | python/trace.py:67-69 | a score becomes the nearest thousandths, an even number of them if two are equally near |
| TraceEquality.Round3IsNear | python/trace.py:67-69 | a score moves by half a thousandth at most |
| TraceEquality.CanonicalClocks | python/trace.py:61-66 | no timestamp that is met in a canonical trace is a non-zero natural |
| TraceCanonical.NumberedIdKind | python/trace.py:20-25 | canonical ids are themselves ids of their kind |
| TraceCanonical.Round3Settles | python/trace.py:67-69 | rounding to three decimals, half to even, is idempotent |
| TraceCanonical.BytesSettle | python/trace.py:75-76 | a byte count describes its own text exactly for 9 and 10 |
| TraceSettles.NumberKept | python/trace.py:95-110 | an id first held in a container at some place gets its number again exactly when, before that place, it has not stood bare and no id of its kind has stood both bare and in a container; bare ids are not of the numbered form |
| TraceSettles.CanonTraceSettles | python/trace.py:37-110 | for any trace, bare ids of the numbered form included: canonicalising again changes nothing exactly when every plain audio string has 9 or 10 characters and the second pass finds, before the new name of each id of a container, as many ids of its kind as the first found before the id |
| TraceSettles.CanonTraceSettlesIff | python/trace.py:37-110 | if no bare id is of the numbered form, canonicalising again changes nothing exactly when every plain audio string has 9 or 10 characters and, wherever an id first stands in a container, it has not stood bare before and no id of its kind has stood both bare and in a container |
| TraceSettles.BareIdsApartSettle | python/trace.py:37-110 | if bare id events occur in no container and are not of the numbered form, or there are none, only the audio strings matter |
| TraceSettles.BareIdShiftsNumbers | python/trace.py:37-45 | a bare id followed by a container of the same id settles exactly when it is the first canonical id itself |
| SourceScan.StringEnd | scripts/strip-comments.py:105-118 | a literal ends past its first unescaped quote, or before an unescaped line feed if single-quoted, or with the source |
| SourceScan.ConsumeString | scripts/strip-comments.py:105-118 | the scan finds that end |
| SourceScan.Find | scripts/strip-comments.py:181-181 | the first place a text stands at or after an index, or -1 |
| SourceScan.EmitToken | scripts/strip-comments.py:164-217 | one more token has the effect on the emitter that its kind says |
| CommentEmitter.Emitter.Emit | scripts/strip-comments.py:135-140 | one more piece; lines and protected lines stay true of the pieces |
| CommentEmitter.Emitter.PopTrailingWs | scripts/strip-comments.py:142-144 | exactly the single-space and single-tab pieces at the end go; no line, literal or protected line changes |
| CommentEmitter.Emitter.CloseBlockComment | scripts/strip-comments.py:149-158 | trailing spaces go, and one space comes back exactly between two word characters |
| CommentEmitter.PoppedKeepsLines | scripts/strip-comments.py:142-144 | popping never touches a line feed or a protected line |
| CommentEmitter.PoppedAreSpaces | scripts/strip-comments.py:142-144 | what is popped are spaces and tabs, and what is left ends in none |
| CommentEmitter.PlayKeepsSubstance | scripts/strip-comments.py:160-331 | everything but comments, spaces and tabs comes out, in order, and nothing else does |
| CommentEmitter.PlayNeverGlues | scripts/strip-comments.py:149-158 | two word characters that meet in the output met in the source, and pieces stay in source order |
| GoScanner.NextGoToken | scripts/strip-comments.py:164-215 | each branch of the Go scanner reads the token the language rule says |
| GoScanner.SkipBlock | scripts/strip-comments.py:201-206 | a block comment's body ends at its first closer, or one short of the end of the source |
| GoScanner.StripGo | scripts/strip-comments.py:160-217 | the tokens cover the source, the text is what they leave, and the protected set is exactly theirs |
| RustScanner.RawEnd | scripts/strip-comments.py:229-249 | a raw string starts exactly at an r with nothing but hashes before a quote, and ends past the first quote with as many hashes, or with the source |
| RustScanner.ScanRaw | scripts/strip-comments.py:229-249 | the scan finds that end, or that no raw string starts |
| RustScanner.SkipNested | scripts/strip-comments.py:313-326 | the depth counter finds the end that RustGrammar.NestEndIsGrammar fixes |
| RustScanner.NextQuoteToken | scripts/strip-comments.py:269-298 | a single quote opens a character literal exactly when it closes as one; otherwise it is code |
| RustScanner.NextRustToken | scripts/strip-comments.py:226-329 | each branch of the Rust scanner reads the token the language rule says |
| RustScanner.StripRust | scripts/strip-comments.py:219-331 | the tokens cover the source, the text is what they leave, and the protected set is exactly theirs |
| RustGrammar.NestEndIsGrammar | scripts/strip-comments.py:313-326 | a comment that holds characters and whole comments ends exactly behind its own closer, however deep they nest; where the grammar has no comment it ends with the source |
| RustGrammar.RustIsReadByGrammar | scripts/strip-comments.py:219-331 | a source printed from lexemes -- strings with escapes, byte strings, raw strings, character literals, line comments, nested comments, and characters of code that begin none of these -- is read as exactly those lexemes |
| RustGrammar.CharGoesOn | scripts/strip-comments.py:269-298 | where a quote is read as a character literal the text goes on as one, or as a long escape that nothing closes |
| GoGrammar.GoIsReadByGrammar | scripts/strip-comments.py:160-217 | a source printed from Go lexemes -- quoted strings with escapes, raw strings, line and block comments, and characters of code -- is read as exactly those lexemes |
| Lexemes.QuotedIsRead | scripts/strip-comments.py:105-118 | a string with escapes is read to its own closing quote |
| Lexemes.OutputIsRemaining | scripts/strip-comments.py:160-331 | what is emitted of a source so read, gaps, spaces and tabs apart, is its lexemes but for the comments, in order |
| StripperOutput.OutputIsComing | scripts/strip-comments.py:142-158 | the emitted tokens are exactly those that are no comment and no space with only spaces and comments between it and a comment behind it, in order |
| StripperOutput.GapsAreNeeded | scripts/strip-comments.py:149-158 | the stripper adds a space only behind a word, for a comment that a word follows |
| BlankLines.CollapseBlankLines | scripts/strip-comments.py:421-439 | the final lines are exactly those that stay: protected ones raw, others without trailing blanks, no blank line after a blank one or at the end |
| BlankLines.TrimmedRuns | scripts/strip-comments.py:437-439 | popping the tail off the first pass leaves exactly the lines that stay |
| BlankLines.CollapsedIsTidy | scripts/strip-comments.py:421-439 | no two empty lines are adjacent in the result and none is last; no other line is lost, and no gap between two of them is closed |
| LiteralsSurvive.GuardedAreTouched | scripts/strip-comments.py:126-140 | the protected lines are exactly the output lines that literals of several lines touch |
| LiteralsSurvive.LiteralLands | scripts/strip-comments.py:421-439 | a literal of several lines, or ending in no blank, or on a protected line, stands unbroken in the final text, from where its beginning lands to where its end does |
| LiteralsSurvive.LandingsInOrder | scripts/strip-comments.py:421-439 | what comes later in the stripped text lands no earlier |
| LiteralsSurvive.GoLiteralIsWhole | scripts/strip-comments.py:160-217 | a literal the Go scanner reads that neither spans lines nor ends in a non-blank ends before a line feed or with the source |
| LiteralsSurvive.RustLiteralIsWhole | scripts/strip-comments.py:219-331 | so does one the Rust scanner reads |
| LiteralsSurvive.FeedFollows | scripts/strip-comments.py:142-217 | behind a literal that ends where its line or the source does, the stripped text goes on with a line feed or ends, whatever comments follow |
| LiteralsSurvive.CutLands | scripts/strip-comments.py:421-439 | a piece within one line that ends the line in a blank survives the collapser at its place exactly when its line is protected |
| LiteralsSurvive.LiteralKeptIff | scripts/strip-comments.py:421-451 | a literal is in the final text at its place exactly when it spans lines, or ends in no blank, or stands on an output line that a literal of several lines touches |
| LiteralsSurvive.ProcessGo | scripts/strip-comments.py:441-451 | all literals of a Go source that last or stand on a protected line are in the processed file byte for byte, in order and at disjoint places, and no other literal is at its place |
| LiteralsSurvive.ProcessRust | scripts/strip-comments.py:441-451 | all literals of a Rust source that last or stand on a protected line are in the processed file byte for byte, in order and at disjoint places, and no other literal is at its place |
| LiteralsSurvive.UnclosedLiteralLosesBlank | scripts/strip-comments.py:441-451 | the Go source `'a ` is one unclosed literal; the processed file is that without its blank, and the literal is nowhere in it |
| BatcherProtocol.SubmitKeeps | python/server.py:832-846 | filing a slot, and starting a timer only if the key has none, keeps the invariant |
| BatcherProtocol.TakeKeeps | python/server.py:852-857 | a flush always finds a batch, and taking it keeps the invariant |
| BatcherProtocol.CompletesOnce | python/server.py:858-867 | no slot is completed twice |
| BatcherProtocol.CompletionsKeep | python/server.py:858-867 | any number of completions a flight has answers for is a run of enabled steps and keeps the invariant |
| BatcherProtocol.AnsweredSoFar | python/server.py:858-867 | a flight has answered exactly its slots before the next one, each with the answer of its place |
| BatcherProtocol.StepKeeps | python/server.py:832-867 | every step keeps the invariant and no answer ever changes |
| BatcherProtocol.RunKeeps | python/server.py:825-867 | in every interleaving a key has a timer exactly when it has pending slots, and each slot is waiting, in flight or answered, in exactly one place |
| BatcherProtocol.AnsweredWithOwn | python/server.py:847-867 | an answered slot has the result of its own payload, or the exception, from the first submitter's runner |
| BatcherProtocol.QuietIsAnswered | python/server.py:858-867 | when only submitting is left, a slot is unanswered exactly when its runner returned too few results to reach it |
| BatcherProtocol.ActionsAreFew | python/server.py:825-867 | there are never more than three actions to a submission, so every run dies down |
| RequestBatcher.Batcher.Submit | python/server.py:832-846 | the locked section of a submit is the protocol's submit step |
| RequestBatcher.Batcher.Take | python/server.py:852-857 | the locked section of a flush is the protocol's take step, and finds tickets |
| RequestBatcher.CarriedAnswers | python/server.py:858-867 | after those steps no completion of the flight is left, and exactly the tickets the outcome reaches are answered, each with its own |
| RequestBatcher.Deliver | python/server.py:858-867 | handing out the outcome is the protocol's completion steps of the flight until none is enabled: a ticket is completed exactly if its slot is answered there, with that answer; all are exactly when the runner raised or returned enough, and a mismatch is told |
| Rounding.SearchSorted | scripts/requant_qwen38_tail_mlp_nvfp4.py:86-90 | the position splits the table at the value, ties to either side as asked |
| Rounding.MidpointsFindNearest | scripts/requant_qwen38_tail_mlp_nvfp4.py:36-41 | counting midpoints finds a nearest entry of an increasing table |
| Rounding.EncodeIsNearest | scripts/requant_qwen38_tail_mlp_nvfp4.py:86-90 | the element chosen for a clipped value is as near the value as any signed element |
| Rounding.TiesGoLower | scripts/requant_qwen38_tail_mlp_nvfp4.py:11-12 | a value halfway between elements takes the one nearer zero |
| Rounding.DecodeIncreases | scripts/requant_qwen38_tail_mlp_nvfp4.py:19-28 | UE4M3 codes decode in order |
| Rounding.CodesDouble | scripts/requant_qwen38_tail_mlp_nvfp4.py:19-28 | codes up to 16 count steps of 1/512, eight codes on the value doubles, and code 126 is 448 |
| Rounding.ElementsDouble | scripts/requant_qwen38_tail_mlp_nvfp4.py:10-12 | element codes count halves up to 4, two codes on the value doubles, and the sign bit negates |
| Rounding.GridIncreases | scripts/requant_qwen38_tail_mlp_nvfp4.py:31-41 | the nonzero scale grid is increasing and positive, entry i being code i + 1 |
| Rounding.AbsMax | scripts/requant_qwen38_tail_mlp_nvfp4.py:123-126 | the greatest magnitude of a block |
| Rounding.IdealScaleIs | scripts/requant_qwen38_tail_mlp_nvfp4.py:123-126 | exactly one scale d has m * g == 6 * d for the largest magnitude m and global scale g, if that keeps within 448; a zero block has g up to 448; it is the one the search rounds |
| Rounding.RtnIsNearest | scripts/requant_qwen38_tail_mlp_nvfp4.py:123-126 | the search starts from the grid entry nearest to the scale that puts the block's largest magnitude on 6, the upper of two nearest |
| BlockSearch.CodesAreBest | scripts/requant_qwen38_tail_mlp_nvfp4.py:114-120 | no codes have less squared error under a scale than those the encoder picks |
| BlockSearch.SearchWindow | scripts/requant_qwen38_tail_mlp_nvfp4.py:129-145 | the loop finds the first entry of least error in the clipped window |
| BlockSearch.ClosedFormScaleGridIndex | scripts/requant_qwen38_tail_mlp_nvfp4.py:129-145 | the entry picked for a block is that one, with its error |
| BlockSearch.BlockIsOptimal | scripts/requant_qwen38_tail_mlp_nvfp4.py:129-145 | no codes under any scale of the window beat the picked scale with the encoder's codes |
| BlockSearch.UnpackPack | scripts/requant_qwen38_tail_mlp_nvfp4.py:109-111 | unpacking what was packed returns the codes |
| BlockSearch.PackUnpack | scripts/requant_qwen38_tail_mlp_nvfp4.py:208-214 | packing the unpacked bytes returns the bytes |
| BlockSearch.QuantizeRowsClosedForm | scripts/requant_qwen38_tail_mlp_nvfp4.py:159-172 | every block of every row has its best scale and its codes, whatever the chunk size |
| BlockSearch.ChunksChangeNothing | scripts/requant_qwen38_tail_mlp_nvfp4.py:159-172 | the bytes depend on the rows alone |
| Nvfp4.Nvfp4IsSound | scripts/requant_qwen38_tail_mlp_nvfp4.py:10-43 | the NVFP4 tables meet what the search needs |
| Nvfp4.QuantizeRowsNvfp4 | scripts/requant_qwen38_tail_mlp_nvfp4.py:159-172 | the quantizer with the source's chunk of 2048 rows |
| Nvfp4.Nvfp4IsOptimal | scripts/requant_qwen38_tail_mlp_nvfp4.py:159-215 | read back from its bytes, no block could be nearer under any E2M1 codes and any UE4M3 scale from 6 below to 10 above the one that putting its largest magnitude on 6 rounds to |
| Nvfp4.CandidatesAreTried | scripts/requant_qwen38_tail_mlp_nvfp4.py:129-145 | the window of the search is exactly those scales |
| Nvfp4.CandidateIsLossless | scripts/requant_qwen38_tail_mlp_nvfp4.py:159-215 | a block that some codes under such a scale stand for exactly is read back exactly |
| Nvfp4.FullRangeIsLossless | scripts/requant_qwen38_tail_mlp_nvfp4.py:159-215 | a block of element values times a grid scale over the global scale, some of them 6 or -6, is read back exactly |
| Safetensors.CopyRange | scripts/requant_qwen38_tail_mlp_nvfp4.py:376-384 | copies exactly the range whatever the chunk, and fails exactly when the file ends first |
| Safetensors.ListEntries | scripts/requant_qwen38_tail_mlp_nvfp4.py:347-356 | the loop lists the entries that each tensor of the source contributes, in order: none if dropped, its replacements, or itself |
| Safetensors.LastContribution | scripts/requant_qwen38_tail_mlp_nvfp4.py:347-356 | under each name the new file has the last entry of the last tensor that contributes one of that name |
| Safetensors.BuildHeader | scripts/requant_qwen38_tail_mlp_nvfp4.py:358-365 | each name leads to the offsets of its last entry |
| Safetensors.WriteData | scripts/requant_qwen38_tail_mlp_nvfp4.py:375-386 | succeeds exactly when the source holds every kept tensor, and then writes all contents in order |
| Safetensors.Rewrite | scripts/requant_qwen38_tail_mlp_nvfp4.py:347-386 | the whole file, and exactly when it is written |
| Safetensors.UnLeLe | scripts/requant_qwen38_tail_mlp_nvfp4.py:228-233 | the length field reads back |
| Safetensors.ReadsBack | scripts/requant_qwen38_tail_mlp_nvfp4.py:228-238 | a name read through the new header gives its entry's bytes: the source's if kept, the new ones if replaced |
| Safetensors.KeptReadsTheSame | scripts/requant_qwen38_tail_mlp_nvfp4.py:228-238 | a kept tensor reads the same from both files |
| Safetensors.ReadsLastEntry | scripts/requant_qwen38_tail_mlp_nvfp4.py:228-238 | reading any name of the new file gives its last entry's bytes, the source's if that was copied, and nothing if it has no entry |
| Safetensors.KeptNameReadsTheSame | scripts/requant_qwen38_tail_mlp_nvfp4.py:347-386 | a tensor neither dropped nor replaced, whose name no replacement takes, reads the same from both files |
| Safetensors.OtherNamesAreGone | scripts/requant_qwen38_tail_mlp_nvfp4.py:347-386 | a name no replacement takes is gone from the new file exactly when it is not kept: dropped, replaced or never there |
| Safetensors.ReplacementReads | scripts/requant_qwen38_tail_mlp_nvfp4.py:347-386 | the last entry a replacement brings under a name reads its own bytes, if no later tensor brings that name again |
| Safetensors.OffsetsAbut | scripts/requant_qwen38_tail_mlp_nvfp4.py:361-365 | each entry begins where the last one ended, from zero |
| Safetensors.OffsetsTile | scripts/requant_qwen38_tail_mlp_nvfp4.py:367-374 | the data area is eight-byte aligned and the last entry ends with the file |
| MergeOrder.MergeOrderIndices | scripts/export_qwen38_vision_onnx.py:92-102 | the four loops fill every block's positions with its patches and leave the rest zero |
| MergeOrder.TableIsPermutation | scripts/export_qwen38_vision_onnx.py:92-102 | a permutation exactly when the merge size divides both sides or there is at most one patch |
| MergeOrder.GroupIsSquare | scripts/export_qwen38_vision_onnx.py:92-102 | each group of merge squared entries is one square of the grid, row by row |

## Left out

- The predicted response phase, sealed buffers, timers and tasks of the session state: the replay never reaches them.
- Trace events have a string type, and a literal top-level key `response.id` is not modelled; a numeric audio end is an integer.
- Violation texts.
- Rules W8 to W12, the result check and the event-type check: easy passes over one field each.
- TraceRules.CheckCommittedAfterStoppedBeforeCreated: states that W3 never reports, because that is what its code does; the ordering it means is ReplaySafety.ReplayKeepsTurns.
- ResponseLanguage.AcceptedIffWholeResponses: is the plain reading, for named traces; AcceptedIffAllPass covers all traces.
- Normalization, lower-casing and hashing of prompts and rows are functions; a hash is injective where the source treats it as an identity.
- Statistics with square roots (standard error, t value and the gate) in the paired delta statistics.
- Filter counts, manifests and file output of the data scripts, and reading their rows.
- Sorting of cluster members and mean similarities of clusters in the name report; the definition scanner.
- NameSim.CandidatePairs: the score kept with a pair may be lower than the plain one, exactly as NameSim.ScoreLoweredExactly says.
- Bands of the other lanes are pushed without their own bookkeeping; bands of negative length are laid out as the source does but not bounded by responses.
- Times and lengths of bands are reals, and sorting is any stable sort.
- Json nodes are rewritten as values, not in place; the deep copy of a trace is the identity on values.
- TraceEquality.TracesEqualIff: compares canonical forms part by part, dict keys in order; Python's equality also takes 1 for 1.0 and dicts in any key order as equal.
- GoGrammar.GoIsReadByGrammar: is about lexemes only, not the syntax of the language; so is RustGrammar.RustIsReadByGrammar.
- TraceCanonical.Round3Settles: rounding is over the reals, not binary floats.
- IdCanonical.CanonicalEqualIffRenamed: is the reading for shared keys in one order; KeyOrder.CanonicalEqualIffNumbered covers every order.
- IdCanonical.UnreservedIsTwoSided: likewise; KeyOrder.UnreservedEqualIffNumbered covers every order.
- IdCanonical.KeyOrderDecides: is one family of equal dicts with different forms; KeyOrder.EqualValuesEqualForms says exactly when forms are equal.
- TraceSettles.CanonTraceSettlesIff: requires that no bare id is of the form the canonicaliser writes; for such ids only CanonTraceSettles speaks, through the second pass.
- The comparer's loose-text mode, ignored types and printed diff.
- Python comment stripping, which rests on `tokenize`; doctest detection is a set of kept lines; which characters are alphanumeric is a parameter.
- LiteralsSurvive.UnclosedLiteralLosesBlank: is one source; LiteralKeptIff says exactly which literals survive.
- The batcher's window length, threads and events themselves; a timer fires whenever it likes, and its firing and locking are one step.
- Quantization over binary floats: all arithmetic is over the reals, so a negative zero has no sign bit.
- BlockSearch.QuantizeRowsClosedForm: requires a positive global scale and whole blocks, which the source asserts.
- The rounding-only and grid-offset quantizers, the sweep over global scales and the error report.
- Choosing which tensors to replace, and the index, configuration and links written beside the file; header text is an abstract codec that ignores trailing spaces.
- Safetensors.ReadsBack: speaks of the last entry of a name, because with a repeated name the header keeps only that one.
- MergeOrder.MergeOrderIndices: requires a positive merge size, because the source divides by it.
- HTTP routes, model loading, audio conversion, WebRTC, neural graphs, training loops, and the rest of the inspector.
