# LiteRT-LM in Dafny

A model of the parts of the LiteRT-LM runtime in which a small mistake is hardest to see, with proofs
about all their runs. The neural executor, the tokenizer, the prompt template, the JSON text and the
file system are functions or parameters; what surrounds them is modelled branch by branch. Code that
updates objects or arrays in place is a class or a loop here too, proved equal to a function; the
theorems are about that function.

| part | files |
|---|---|
| streaming of a response into channels, extraction from the whole response, the channel a prompt leaves open | `Strings`, `ChannelScanner`, `ChunkIndependence`, `StreamConservation`, `DeliveredStream`, `DeliveredExactly`, `ChannelUtil`, `BatchAgreement`, `SeveralChannels`, `Seeding`, `SeedingLists`, `InternalCallback`, `ParseCases` |
| stop sequences, withheld text, the decode loop | `StopTokenDetector`, `DecodeSpec`, `DecodeOneStep`, `DecodeLoop` |
| sessions: checkpoints, the conversation's cache, tasks and clones | `SessionBasic`, `ConversationModel`, `ConversationObject`, `ConversationRuns`, `TaskChains`, `TaskContexts`, `TaskSubmissions`, `SessionAdvanced` |
| corrections over the append-only log: payloads, sidecar index, redacted view, gate, loader | `Results`, `Selections`, `Hashes`, `CorrectionPayload`, `PayloadReading`, `EventLog`, `CorrectionIndex`, `CorrectionLog`, `AppendLaws`, `Directives`, `ActiveEvidenceView`, `EvidenceLaws`, `ViewLaws`, `CheckpointGate`, `CheckpointLoader` |
| sampling, scoring, the container file | `TopK`, `Sampling`, `SamplingBatch`, `Scoring`, `Bytes`, `Container`, `ContainerReader` |

`dafny verify dfyconfig.toml` checks everything.

## What holds, and exactly when

Some properties one would expect of the code hold only under a condition. Where it says "exactly", the
condition is proved to be sufficient and necessary.

- **Chunking.** What the user receives of a response is the same for every way of cutting it exactly when the
  channel list is `VisiblyStable`: for every start that can win (no earlier listed one is a prefix of it) and every
  place to cut it, if another start is already complete there, that one begins at the same place, both channels are
  named, and reading on to the end of the longer start shows nothing and leaves the parser where the longer start
  would have put it. This looks at the delimiters alone, and asks nothing of the ends, which the code does not check.
  If the channels have ends and no two share name and end, it comes to this: no start ends strictly inside another
  one that can win (`Stable`; `DeliversParseIffStable`). Without that proviso a list need not be `Stable`
  (`SharedChannel`). "No start is a substring of another" is more than is needed.
- **Stop sequences.** The matcher falls back to a progress of 0 or 1. It misses no occurrence exactly for
  `RestartSafe` sequences: wherever the first token comes again, the sequence starts over and runs on to its
  end (A A and A B A are safe, A A B is not).
- **Text before the stop.** With one stop sequence, all the text before it is emitted exactly when, as the
  match begins, no bytes wait and either nothing is withheld or the first stop token decodes by itself
  (`Clear`). It can be asked before decoding: no row without waiting bytes loses text
  exactly if `CanLose` does not hold of the stop sequence and the tokenizer (`LosesNothingIff`); it is enough that the
  first stop token decodes by itself or that all stop tokens are alike (`SafeStops`). `WithheldTextIsLost` is a row on which no bytes wait and text is still lost.
- **Seeding.** For a single channel, `GetOpenChannelName` reports the channel in which the scanner would end
  exactly for `Separate` delimiters. For lists whose delimiters have nothing in common (`Apart`), it does so on all
  prompts exactly if there is no second channel: on the start of one channel followed by that of another listed before
  it, the scanner is in the first and the other is reported (`TwoStartsDiffer`; with the first one's end after them
  nothing is open for the scanner, `ClosedOutsideDiffers`). On a prompt in which every start is one the scanner takes
  (`TakenOnly`), it does for any number of channels; that is sufficient.
- **Extraction.** For a single channel: the text is rewritten only if the extracted content is not empty, so streamed and
  extracted texts agree exactly if that is so or no delimiter would be taken out. Several channels are extracted one
  after the other. For lists whose delimiters have nothing in common, the fields agree with the streaming on all texts
  exactly if there is no second channel (`AgreesOnAllIffOne`; `NestedInput` is a text). On a text they agree for any
  number of channels if its pieces are `Untangled`: no channel's start is hidden in a channel taken later, nor made when
  those before it are taken out; that is sufficient, and always so for a single channel (`OneIsUntangled`).
- **Cache without channel content.** The template may render replies without channel content only as they were
  decoded (`RendersAsDecoded`), and an empty preface that counts as prefilled as nothing (`PrefaceAccounted`); nothing
  else is asked of it. Then, in every run in which no reply with channel content comes before a user message was
  answered (`UserFirst`), refused messages included, the checkpoint is the channel-free rendering of the history before
  the latest user message that was answered. A message is refused exactly if the new prompt does not begin with the
  rendered history, and is recorded without an answer exactly if it is a user message whose refill fails the same
  check (`FateIff`, `RefillCanFail`); the checkpoint then stays that of the earlier user message. So it is that of the
  latest one in the history exactly if no message left without an answer came after it (`LatestUserIff`). Neither happens
  with templates that only add text (`NothingRefused`). `UserFirst` is sufficient: where no user message was answered
  before, the next checkpoint is right exactly if the whole cache was the rendered history (`FirstCheckpointIff`,
  `ReplyBeforeUser`). `UncountedPreface` shows what an unaccounted preface does to the checkpoint, and `CloneForgetsChannels`
  what a cloned conversation takes for a clean cache: the clone does not inherit the note that channel content has come.
- **Cache in general.** With any template, filtering or not, every run leaves the history, the cache's text and the
  checkpoint that a story told without session and rewinding leaves (`RunIsTold`). Without filtering the cache is the
  prefilled preface and then, turn by turn, what the prompt adds and the raw reply (`UnfilteredRun`).
- **Sidecar index.** It gives the log's blocking corrections exactly if each of them is the last that was written
  under its file name in the checkpoint's directory. A later correction with the same id, even one that
  does not block, hides the earlier one (`SameNameHides`).
- **Scoring tasks.** Scoring writes the tokens it scores to the session's context, and no later task waits for it. So a
  prefill, a decode or a clone finds the same context under every schedule exactly if nothing scored is in what was
  submitted before it in its session's line, ancestors up to the clone included; a scoring exactly if, besides that, no
  prefill, decode or scoring of its session is submitted after it (`RunFindsIff`; `ScoringMayRunLate` is a run in which
  neither holds). Of prefills and decodes alone, all tasks but scorings find the same under every schedule
  (`ScheduleFree`), and a scoring exactly if none of its session is submitted after it (`ScoringSnapshotIff`).

## Model

| member | source | states |
|---|---|---|
| `Strings.SuffixPrefixOverlap` | runtime/conversation/internal_callback_util.cc:41-55 | the loop finds the longest end of one string that begins the other |
| `ChannelScanner.NextStartIsFirst` | runtime/conversation/internal_callback_util.cc:176-192 | the start chosen is the earliest occurrence of any start delimiter, of the first listed channel on a tie; none chosen means none occurs |
| `ChannelScanner.FirstStartIsNext` | runtime/conversation/internal_callback_util.cc:176-192 | and conversely, whatever is earliest in that sense is the one chosen |
| `DeliveredExactly.DeliversParseIffVisiblyStable` | runtime/conversation/internal_callback_util.cc:271-434 | for every chunking, empty chunks included, and from every mode, what the user has received at the end is what a parser that sees the whole response shows: exactly for visibly stable channel lists, whatever their ends, if only the first can be the fence |
| `DeliveredExactly.DeliversParseIffStable` | runtime/conversation/internal_callback_util.cc:296-432 | for channels that have ends and are told apart by name and end: exactly for stable lists |
| `DeliveredExactly.SharedChannel` | runtime/conversation/internal_callback_util.cc:176-192 | a list with ends that is not stable, and for which the user still receives the same however the response is cut, because two channels share name and end |
| `DeliveredStream.RunShows` | runtime/conversation/internal_callback_util.cc:321-432 | for visibly stable lists: what was shown of a text and what is shown once more has come is what is shown of both together, though the scanner may have taken another start |
| `DeliveredStream.SeenIsPrefix` | runtime/conversation/internal_callback_util.cc:321-432 | for visibly stable lists, what the user has received at any moment is a beginning of what is received in the end, whatever comes |
| `InternalCallback.OnlyFirstIsFence` | runtime/conversation/conversation.cc:149-154 | with named custom channels, as a conversation demands, only the first channel of the list can be the fence |
| `InternalCallback.ListedAre` | runtime/conversation/internal_callback_util.cc:152-167 | a channel is searched for exactly if it is the fence and that has a start, or a custom channel with a start; the fence comes first, the others in their order and as often as given |
| `InternalCallback.CustomAre` | runtime/conversation/internal_callback_util.cc:120-127 | what the extraction is given at the end: exactly the named channels, in their order and as often |
| `ParseCases.SeedModeIs` | runtime/conversation/internal_callback_util.cc:252-282 | a response starts inside the first listed channel of the name the prompt left open, outside if there is none |
| `ParseCases.PlainText` | runtime/conversation/internal_callback_util.cc:321-386 | a text without a start in it is ordinary text |
| `ParseCases.ChannelClosed` | runtime/conversation/internal_callback_util.cc:321-432 | of a text with a channel in it, what stands before the first start is ordinary, the content up to the first end goes to the channel, and the rest is parsed anew |
| `ParseCases.ChannelOpen` | runtime/conversation/internal_callback_util.cc:94-114 | a channel that does not end takes all the rest |
| `ParseCases.FenceClosed` | runtime/conversation/internal_callback_util.cc:388-416 | a fence goes out as one block with its delimiters, its end searched for after its start |
| `ParseCases.FenceOpen` | runtime/conversation/internal_callback_util.cc:104-114 | a fence that does not end is ordinary text from its start on |
| `ParseCases.SeededClosed` | runtime/conversation/internal_callback_util.cc:252-282 | a response that starts inside a channel: its content up to the first end, then the rest |
| `ParseCases.SentIsStream` | runtime/conversation/internal_callback_util.cc:57-90 | the texts of the messages to a channel, or of the ordinary ones, joined, are what the stream has under that name |
| `ParseCases.ShownAre` | runtime/conversation/internal_callback_util.cc:321-432 | what is shown of a stream is all of it but the delimiters, in order |
| `ChunkIndependence.ChunkIndependentIffStable` | runtime/conversation/internal_callback_util.cc:271-434 | the parser's own course, the delimiters it drops and the place it stands included, is the same for every chunking: exactly for stable channel lists |
| `ChunkIndependence.Resume` | runtime/conversation/internal_callback_util.cc:321-432 | for stable lists, running on from what was kept back is running on the joined text, the dropped delimiters included |
| `ChunkIndependence.RunFlushIsParse` | runtime/conversation/internal_callback_util.cc:94-147 | the scanner with its final flush is the parser without hold-back |
| `StreamConservation.FeedAllConserves` | runtime/conversation/internal_callback_util.cc:321-432 | after every chunk the sent pieces, with the dropped delimiters put back, are the text up to the cursor |
| `StreamConservation.FeedAllKeeps` | runtime/conversation/internal_callback_util.cc:321-432 | after every chunk only a proper beginning of a start (outside) or of the active end (inside a channel) is held back, or an unfinished fence |
| `InternalCallback.GetChannels` | runtime/conversation/internal_callback_util.cc:152-167 | the loop lists the fence, if any, then the channels whose start is not empty |
| `InternalCallback.FindNextChannelStart` | runtime/conversation/internal_callback_util.cc:176-192 | the loop over the channels gives the scanner's next start |
| `InternalCallback.FindMaxOverlap` | runtime/conversation/internal_callback_util.cc:198-208 | the loop gives the longest held-back beginning over all channels |
| `InternalCallback.ResponseParser.constructor` | runtime/conversation/internal_callback_util.cc:252-282 | the parser starts in the channel the prompt left open, if it is one of the channels |
| `InternalCallback.ResponseParser.SearchStart` | runtime/conversation/internal_callback_util.cc:322-386 | one turn outside the channels leads where the scanner's turn leads, and makes progress |
| `InternalCallback.ResponseParser.SearchEnd` | runtime/conversation/internal_callback_util.cc:388-431 | one turn inside a channel leads where the scanner's turn leads: to its end, or to waiting with what may begin its end held back |
| `InternalCallback.ResponseParser.LeaveChannel` | runtime/conversation/internal_callback_util.cc:397-416 | at the channel's end its content is sent, a fence whole, and the parser goes on outside |
| `InternalCallback.ResponseParser.StreamActiveChannel` | runtime/conversation/internal_callback_util.cc:212-229 | the active channel is sent except for what may begin its end |
| `InternalCallback.ResponseParser.OnProcessing` | runtime/conversation/internal_callback_util.cc:309-433 | the inner loop ends, in the state of feeding all chunks so far one by one; what was sent stays sent |
| `InternalCallback.ResponseParser.OnDone` | runtime/conversation/internal_callback_util.cc:94-147 | all that was sent is, label by label, what the user is to see of the stream, each complete fence in exactly one message, and for visibly stable lists the parsed response; the complete text is handed on with its channel contents extracted |
| `ChannelUtil.SplitContent` | runtime/conversation/channel_util.cc:52-80 | the consume loop separates the content between the delimiters, first match by first match, from the text around |
| `ChannelUtil.ExtractChannelContent` | runtime/conversation/channel_util.cc:36-89 | the channels are extracted one after the other from the single text; no text gives nothing, more than one is an error, both without a change |
| `ChannelUtil.GetOpenChannelName` | runtime/conversation/channel_util.cc:99-129 | a name exactly if some channel is open, and then of the one opened last, the first listed on a tie |
| `ParseCases.OpenIff` | runtime/conversation/channel_util.cc:104-127 | a channel counts as open at a place exactly if it has a start, the last one is there, and no end, if it has one, comes at or after it |
| `ParseCases.ExtractionSteps` | runtime/conversation/channel_util.cc:47-89 | the channels are extracted in their order, each as the parser with that channel alone parses what those before it left; without content nothing changes, else the content is added to the field of its name |
| `BatchAgreement.ParseFromIsSplit` | runtime/conversation/internal_callback_util.cc:321-432 | for one channel, open or not at the start, the parser's text and channel characters are what the extraction's loop separates |
| `BatchAgreement.StreamingAgreesWithExtraction` | runtime/conversation/channel_util.cc:52-86 | for one channel and every chunking, the streamed channel content is the extracted field; the streamed text is the text left, exactly if the content is not empty or nothing would be taken out |
| `SeveralChannels.SeveralAgree` | runtime/conversation/channel_util.cc:47-86 | for any number of channels, from an open channel or none, and every chunking of an untangled text: every channel's streamed content is its extracted field, and no other fields; the streamed text is the text left, exactly if no delimiters of a channel without content are in it |
| `SeveralChannels.PiecesAre` | runtime/conversation/internal_callback_util.cc:321-432 | the pieces the parser finds make up the text, each part up to the first end of its channel |
| `SeveralChannels.OneIsUntangled` | runtime/conversation/channel_util.cc:52-80 | for a single channel every text is untangled |
| `SeveralChannels.AgreesOnAllIffOne` | runtime/conversation/channel_util.cc:47-86 | for channels whose delimiters have nothing in common, the extracted fields are the streamed contents on all texts exactly if there is no second channel |
| `SeveralChannels.NestedInput` | runtime/conversation/channel_util.cc:47-86 | a text with one channel's start inside another's content, and what streaming and extraction make of it |
| `Seeding.SeedingAgreesIffSeparate` | runtime/conversation/channel_util.cc:99-129 | for one channel, the search from the right reports a channel open on just the prompts on which the scanner ends inside it: exactly for separate delimiters |
| `Seeding.SeedingResumes` | runtime/conversation/internal_callback_util.cc:255-269 | for one channel with separate delimiters and a prompt of which nothing is held back, starting in the reported mode is going on from the prompt |
| `SeedingLists.ListSeedingAgrees` | runtime/conversation/channel_util.cc:99-129 | for any number of channels with separate delimiters, and a prompt in which every start is one the scanner takes, the channel reported is the one the scanner ends inside |
| `SeedingLists.ListSeedingResumes` | runtime/conversation/internal_callback_util.cc:255-269 | for a stable list, and such a prompt of which nothing is held back, starting in the mode of the channel reported is going on from the prompt |
| `SeedingLists.ReportsOnAllIffOne` | runtime/conversation/channel_util.cc:99-129 | for channels whose delimiters have nothing in common, that is so on all prompts exactly if there is no second channel |
| `SeedingLists.ClosedOutsideDiffers` | runtime/conversation/channel_util.cc:104-127 | a prompt after which the scanner is outside and a channel is reported, for every such list of two or more whose ends are unlike |
| `StopTokenDetector.ProgressIsMatch` | runtime/components/stop_token_detector.cc:105-128 | for every sequence, a progress of n means that the last n tokens of the row are its first n |
| `StopTokenDetector.ExactIffRestartSafe` | runtime/components/stop_token_detector.cc:105-128 | the matcher completes a sequence on just the rows that contain it: exactly for restart-safe sequences |
| `StopTokenDetector.ProgressIsLongest` | runtime/components/stop_token_detector.cc:105-128 | for a restart-safe sequence not yet completed, the progress is the longest beginning of it that ends the row |
| `StopTokenDetector.RowAfterSound` | runtime/components/stop_token_detector.cc:105-139 | a stopped row contains a stop sequence at the start its matched length points back to |
| `StopTokenDetector.StopIsFixed` | runtime/components/stop_token_detector.cc:105-139 | a stopped row stays stopped, and the start its matched length points back to stays the same |
| `StopTokenDetector.StopLength` | runtime/components/stop_token_detector.cc:105-139 | the token that stops a row leaves the length of the last listed sequence that it completes |
| `StopTokenDetector.RowFollowsEach` | runtime/components/stop_token_detector.cc:105-139 | until it stops a row follows each sequence as if it were alone, and it stops at the first token that completes one |
| `StopTokenDetector.FoundIffOccurred` | runtime/components/stop_token_detector.cc:105-139 | with restart-safe sequences a row has stopped exactly if one of them has occurred |
| `StopTokenDetector.SingleExactIffRestartSafe` | runtime/components/stop_token_detector.cc:105-139 | for a single sequence, that equivalence holds on all rows exactly if the sequence is restart-safe |
| `StopTokenDetector.Detector.AddStopTokenSequence` | runtime/components/stop_token_detector.cc:54-78 | an empty sequence is refused, a known one ignored, a new one added with no progress in any row |
| `StopTokenDetector.Detector.ResetBatch` | runtime/components/stop_token_detector.cc:80-89 | all rows start afresh; a size of zero keeps the number of rows |
| `StopTokenDetector.Detector.ProcessTokens` | runtime/components/stop_token_detector.cc:92-141 | the nested loops advance every row as the row function does; a wrong number of tokens, or no sequences, is an error that changes nothing |
| `StopTokenDetector.Detector.AllDone` | runtime/components/stop_token_detector.cc:169-177 | whether every row has stopped; an empty batch is an error |
| `DecodeSpec.RowAccounts` | runtime/core/tasks.cc:158-200 | until the stop, emitted text, withheld text and unfinished ids make up every token of the row, in order |
| `DecodeSpec.StopNeverEmitted` | runtime/core/tasks.cc:179-200 | at the stop, the emitted text is that of a beginning of the row that ends where the stop sequence starts, or before |
| `DecodeSpec.CompletedNeverEmitted` | runtime/core/tasks.cc:179-200 | the same for every sequence that the stopping token completes, whichever of them is recorded |
| `DecodeSpec.NothingAfterStop` | runtime/core/tasks.cc:179-200 | after the stop nothing more is emitted, whatever tokens follow |
| `DecodeSpec.WithholdsMatch` | runtime/core/tasks.cc:182-200 | at least as many tokens are withheld as the longest match under way has |
| `DecodeSpec.QueueIs` | runtime/core/tasks.cc:158-200 | what one more token does to a row that goes on: incomplete bytes wait; else the text joins the queue, of which the latest stay, no more than the longest match has tokens, and the oldest go out in order |
| `DecodeSpec.EmitsAllBeforeStopIff` | runtime/core/tasks.cc:179-200 | with one stop sequence, every token before it has been emitted exactly if the state at the match's start was clear |
| `DecodeSpec.LosesNothingIff` | runtime/core/tasks.cc:182-193 | from the stop sequence and the tokenizer alone: no row without waiting bytes loses text before the stop exactly if the first stop token decodes by itself or no row can have a match under way, without waiting bytes, that starts over |
| `DecodeSpec.SafeStops` | runtime/core/tasks.cc:182-193 | nothing is lost if the first stop token decodes by itself or all stop tokens are alike |
| `DecodeSpec.WithheldTextIsLost` | runtime/core/tasks.cc:182-193 | a row on which no bytes wait as the match begins and the text before the stop is still never emitted |
| `DecodeOneStep.StepsAreColumns` | runtime/core/tasks.cc:143-221 | steps of any number of tokens leave every candidate as steps of one token do |
| `DecodeOneStep.ColumnsAreRows` | runtime/core/tasks.cc:158-200 | each candidate is its own row of the tokens looked at, decoded alone |
| `DecodeOneStep.RowsOfColumns` | runtime/core/tasks.cc:158-175 | the row of a candidate in a step is what the step brought for it, token by token |
| `DecodeLoop.RowsOfModel` | runtime/core/tasks.cc:461-503 | and over the steps, those of one step after the other |
| `DecodeLoop.StopsIff` | runtime/core/tasks.cc:86-112 | exactly when the loop stops, benchmark count included |
| `DecodeLoop.DespaceIff` | runtime/core/tasks.cc:515-517 | the shown text is the raw one with a space for every word-boundary mark |
| `DecodeOneStep.StepDecoder.ReleaseText` | runtime/core/tasks.cc:182-200 | the queue keeps as many texts as the match under way needs, and lets go of the oldest |
| `DecodeOneStep.StepDecoder.EmitToken` | runtime/core/tasks.cc:175-200 | one token for one candidate: incomplete bytes are kept, a stopped row emits nothing, other text goes out or into the queue |
| `DecodeOneStep.StepDecoder.Run` | runtime/core/tasks.cc:143-221 | a step of several tokens is the tokens one by one until every candidate has stopped; uneven rows are an error; the step counter never ends below where it began, with the rollback the code does |
| `DecodeLoop.Decode` | runtime/core/tasks.cc:461-543 | the loop ends at the first step after which a stopping reason holds, after at most max(1, min(max_output_tokens, max_num_tokens - start)) steps, with the texts that decoding the tokens one by one emits, spaces for the word-boundary marks; and where the executor then stands |
| `DecodeLoop.ReturnsTextBeforeStop` | runtime/core/tasks.cc:461-543 | with one stop sequence, what the loop returns for a candidate that stopped is the text of its tokens before that sequence, or a beginning of it; all of it if the match's start was clear |
| `DecodeSpec.UnitsAreText` | runtime/core/tasks.cc:158-200 | whatever is decoded together on the way, emitted tokens have the text they have when the row is decoded without stop sequences |
| `SessionBasic.CheckpointsFaithful` | runtime/core/session_basic.cc:251-278 | over every run, each checkpoint is the length of the text saved under it, and that text still begins the cache |
| `SessionBasic.CheckpointDiscipline` | runtime/core/session_basic.cc:257-278 | over every run, no checkpoint lies ahead of the step, so the error for a future step is unreachable; a rewind brings back the text saved, and just the checkpoints at or before it survive |
| `SessionBasic.DecodesIff` | runtime/core/session_basic.cc:284-421 | over every run, a decode is accepted exactly if something was prefilled since the last one, rewinds aside; what is prefilled or decoded goes to the end of the cache, a refused decode changes nothing |
| `SessionBasic.Session.SaveCheckpoint` | runtime/core/session_basic.cc:251-255 | the label gets the present step |
| `SessionBasic.Session.RewindToCheckpoint` | runtime/core/session_basic.cc:257-278 | the cache goes back to the label's step and later checkpoints are erased; an unknown label or a future step is an error that changes nothing |
| `ConversationModel.TurnTextCompletes` | runtime/conversation/conversation.cc:191-248 | the turn's text is there exactly if the rendered prompt begins with the rendered history, and appended to that gives the prompt |
| `ConversationModel.PrefillTextCompletes` | runtime/conversation/conversation.cc:705-775 | the refill text is there exactly if the rendering of all messages begins with that of the older ones, and appended to that gives it |
| `ConversationModel.FilterReady` | runtime/conversation/conversation.cc:454-473 | before a user message is prefilled, the cache is the rendered history without channel content, and the checkpoint is there; or the refill fails, and the session is back at the earlier checkpoint |
| `ConversationModel.FateIff` | runtime/conversation/conversation.cc:434-620 | exactly when a message is refused, is recorded without an answer, or is answered |
| `ConversationModel.FateLeaves` | runtime/conversation/conversation.cc:460-462 | a refused message changes nothing; one without an answer stays in the history, with the session back at the earlier checkpoint, which is still right |
| `ConversationModel.SendKeeps` | runtime/conversation/conversation.cc:434-620 | every turn, answered or refused, keeps the checkpoint and the cache right and records what the history then has, if channel content does not come while there is no checkpoint |
| `ConversationModel.NothingRefused` | runtime/conversation/conversation.cc:434-620 | with a template that only adds text every message of such a run is answered |
| `ConversationModel.KvRefinement` | runtime/conversation/conversation.cc:454-473 | in every run from creation, refusals included, in which no channel content comes before a user message was answered, the index is that of the latest user message answered and the checkpoint the channel-free rendering of all before it; the whole cache is the rendered history unless channel content has come since; for every template that renders channel-free replies as decoded and accounts for its preface |
| `ConversationModel.LatestUserIff` | runtime/conversation/conversation.cc:454-473 | that is the latest user message in the history exactly if after each message left without an answer a user message was answered |
| `ConversationModel.RefillCanFail` | runtime/conversation/conversation.cc:460-462 | a template and a run in which the second user message is recorded without an answer and the index stays behind |
| `ConversationModel.FirstCheckpointIff` | runtime/conversation/conversation.cc:460-472 | after any turns in which no user message was answered, the checkpoint of the next one answered is right exactly if the whole cache was the rendered history |
| `ConversationModel.ReplyBeforeUser` | runtime/conversation/conversation.cc:460-472 | after one reply before the first user message: exactly if the template renders that reply as it was decoded |
| `ConversationModel.UncountedPreface` | runtime/conversation/conversation.cc:797-822 | with an empty preface that counts as prefilled, the checkpoint after a refill is right exactly if the template renders it to nothing |
| `ConversationModel.CloneForgetsChannels` | runtime/conversation/conversation.cc:667-698 | a clone's next checkpoint is right exactly if the original's cache was the rendered history |
| `ConversationRuns.SendTells` | runtime/conversation/conversation.cc:434-620 | one turn, in whatever state, does to history, cache, checkpoint and flag what one turn of the story does: refused if the prompt does not begin with what was told; else cleaned from the mark if that is due, then the rest of the prompt and the raw reply; or left at the mark if the history no longer begins with it |
| `ConversationRuns.RunIsTold` | runtime/conversation/conversation.cc:434-620 | so in every run, with any template, filtering or not |
| `ConversationRuns.UnfilteredRun` | runtime/conversation/conversation.cc:475-545 | without filtering, turn by turn: the cache is the preface and then what each prompt adds and each raw reply, the history every message and reply; no index, no checkpoint |
| `ConversationRuns.AnsweredCache` | runtime/conversation/conversation.cc:475-545 | filtering or not, an answered turn whose cleaned cache was the rendered history ends with the whole prompt and the raw reply in the cache |
| `ConversationRuns.UnfilteredRendered` | runtime/conversation/conversation.cc:475-545 | without filtering and without channel content in replies, the cache is the rendered history |
| `ConversationRuns.CloneIsTold` | runtime/conversation/conversation.cc:667-698 | a clone has the history and the cache, but not the checkpoint and the note of channel content |
| `ConversationObject.Conversation.constructor` | runtime/conversation/conversation.cc:298-360 | a new conversation holds the prefilled preface, if there is one to prefill |
| `ConversationObject.Conversation.GetSingleTurnTextFromFullHistory` | runtime/conversation/conversation.cc:191-248 | the text of the turn, or the error that the new rendering does not begin with the old one |
| `ConversationObject.Conversation.GetPrefillTextForMessages` | runtime/conversation/conversation.cc:705-775 | the text between two renderings, or the error that the one does not begin with the other |
| `ConversationObject.Conversation.RewindAndGetInputDataVector` | runtime/conversation/conversation.cc:797-822 | the session is rewound and the refill computed, the index forgotten; without an index nothing happens; an error leaves what the code leaves |
| `ConversationObject.Conversation.SendMessage` | runtime/conversation/conversation.cc:434-620 | history, index, flag and session after a message, and its status, are those of the model's turn, in all cases |
| `TaskChains.RunConsistent` | runtime/core/session_advanced.cc:123-128 | in every run of any number of sessions, each task depends on just the last task that touched its session; dependencies only go back |
| `TaskChains.ChainInOrder` | runtime/core/session_advanced.cc:235-258 | under every schedule the prefill, decode and clone tasks of a session run in the order of submission |
| `TaskSubmissions.CallSubmits` | runtime/core/session_advanced.cc:85-312 | in every run: which calls are refused, a decode exactly if the last of its session's line is no prefill; a refused call changes nothing, an accepted one submits just its tasks, in order, for its session |
| `TaskContexts.TaskFindsIff` | runtime/core/session_advanced.cc:85-132 | a prefill, decode or clone task finds in its session's context, scorings included, just what was submitted before it, under every schedule: exactly if nothing scored is in that, ancestors up to the clone included |
| `TaskContexts.ScoringFindsIff` | runtime/core/session_advanced.cc:291-312 | a scoring task does: exactly if, besides that, no prefill, decode or scoring of its session is submitted after it |
| `TaskContexts.RunFindsIff` | runtime/core/session_advanced.cc:85-132 | both, for every task of every run of any number of sessions |
| `TaskContexts.FoundIsSubmitted` | runtime/core/session_advanced.cc:85-132 | if all that has run of a session was submitted before a task, its context holds nothing but what was submitted in its line before that task |
| `TaskContexts.ScoringMayRunLate` | runtime/core/tasks.cc:594-669 | on a session prefilled, scored and prefilled again, the scoring may find the second prefill, and the second prefill the scoring or not |
| `TaskChains.ScheduleFree` | runtime/core/session_advanced.cc:85-132 | of prefills and decodes alone, under every schedule a prefill, decode or clone task finds in its session's context just those submitted before it, ancestors included |
| `TaskChains.CloneIsSnapshot` | runtime/core/session_advanced.cc:398-423 | under every schedule a clone runs after all prefill, decode and clone tasks of the parent submitted before it, before all those submitted after it and before every such task of the child |
| `TaskChains.ScoringsAfterClone` | runtime/core/session_advanced.cc:291-312 | the child's scorings run after the clone too, and so do those of the parent submitted after it |
| `TaskChains.ScoringSees` | runtime/core/session_advanced.cc:291-312 | of prefills and decodes, a scoring task finds at least those submitted before it |
| `TaskChains.ScoringSnapshotIff` | runtime/core/session_advanced.cc:291-312 | of prefills and decodes, a scoring finds under every schedule just those submitted before it: exactly if none of its session is submitted after it |
| `TaskChains.LateFinds` | runtime/core/session_advanced.cc:291-312 | otherwise the scoring can be run right after such a later task, and finds all prefills and decodes submitted up to it |
| `SessionAdvanced.Session.RunPrefillAsync` | runtime/core/session_advanced.cc:85-132 | submits a prefill that waits for the session's last tasks and takes their place |
| `SessionAdvanced.Session.RunDecodeAsync` | runtime/core/session_advanced.cc:210-262 | only after a prefill; submits the template's last prefill, if any, and the decode, in one chain |
| `SessionAdvanced.Session.RunTextScoringAsync` | runtime/core/session_advanced.cc:291-312 | submits a scoring that waits for the session's last tasks and leaves them in place |
| `SessionAdvanced.Session.CloneAsync` | runtime/core/session_advanced.cc:398-423 | submits a clone task that takes the place of the parent's last tasks and is the child's first, with the parent's phase |
| `Hashes.HexRoundTrip` | runtime/platform/hash/hasher.cc:39-66 | reading back a hash's hexadecimal form gives the hash |
| `PayloadReading.HashReadIff` | runtime/platform/hash/hasher.cc:30-66 | a text is read as a hash exactly if it is the hash's hexadecimal form but for case |
| `CorrectionPayload.JsonRoundTrip` | runtime/dpm/correction_protocol.cc:208-305 | a payload written as JSON is read back unchanged if it is valid, and refused otherwise |
| `PayloadReading.ReadIff` | runtime/dpm/correction_protocol.cc:159-305 | for every JSON value: it is read as a correction exactly if it spells it field by field, with the defaults for absent fields, numbers wrapped at 64 bits, and what validation asks for; all else is an invalid argument |
| `CorrectionPayload.MentionsCheckpoint` | runtime/dpm/correction_protocol.cc:66-76 | the loop tells whether a correction targets or invalidates a checkpoint |
| `CorrectionPayload.MentionedCheckpoints` | runtime/dpm/correction_protocol.cc:116-125 | the loop lists target and invalidated checkpoints without repetitions |
| `CorrectionPayload.MentionsIffMentioned` | runtime/dpm/correction_protocol.cc:66-125 | a checkpoint is in that list exactly if the correction mentions it, and once |
| `CorrectionIndex.SidecarWithinLog` | runtime/dpm/correction_protocol.cc:138-155 | at every moment, in the middle of appends that fail or crash too, a file of the sidecar is a correction of the log, under its own name and under a checkpoint it mentions |
| `AppendLaws.AppendDoes` | runtime/dpm/correction_protocol.cc:127-156 | whatever the log held, and however far the append gets: which event is logged, which directories are made, which files are written under which name and with which text, and that nothing else changes |
| `AppendLaws.OtherDoes` | runtime/dpm/correction_protocol.cc:349-361 | the append of another event is the event and nothing else |
| `AppendLaws.TurnsAre` | runtime/dpm/correction_protocol.cc:116-125 | the checkpoints are gone through in the order in which the correction first mentions them, the target first |
| `AppendLaws.BuildIs` | runtime/dpm/correction_protocol.cc:363-373 | the index of a log has its corrections in order, or the error of the first that cannot be read |
| `AppendLaws.LoadIs` | runtime/dpm/correction_protocol.cc:409-437 | exactly what is loaded for a checkpoint, for every state of log and sidecar, and when that fails |
| `CorrectionIndex.IndexAgrees` | runtime/dpm/correction_protocol.cc:409-460 | for every run and checkpoint the index gives no blocking correction that the log lacks, and all of the log's exactly if it is read from the log or each of them was the last written under its name there |
| `CorrectionIndex.CompletedAgree` | runtime/dpm/correction_protocol.cc:349-373 | after completed appends under different names, index and log give the same blocking corrections for every checkpoint |
| `CorrectionIndex.SameNameHides` | runtime/dpm/correction_protocol.cc:133-152 | a completed append of another correction under the same name hides an earlier blocking one from the index, not from the log |
| `CorrectionLog.EventSourcedLog.AppendCorrectionEvent` | runtime/dpm/correction_protocol.cc:349-361 | appends the event, then does the sidecar's steps up to the one that fails; an invalid payload changes nothing |
| `CorrectionLog.EventSourcedLog.PersistCorrectionIndexSidecar` | runtime/dpm/correction_protocol.cc:138-155 | the loop makes the directory and writes the file of each mentioned checkpoint, in order |
| `CorrectionLog.EventSourcedLog.BuildFromEvents` | runtime/dpm/correction_protocol.cc:363-373 | the loop gives the corrections of the log, or the first decoding error |
| `CorrectionLog.EventSourcedLog.LoadForCheckpoint` | runtime/dpm/correction_protocol.cc:409-437 | the corrections of the checkpoint's directory that mention it, or those of the log while there is no sidecar; a file that does not decode is an error |
| `CorrectionLog.BlockingCorrectionsFor` | runtime/dpm/correction_protocol.cc:450-460 | the loop keeps just the blocking corrections that mention the checkpoint, in order |
| `CorrectionLog.BlockingAre` | runtime/dpm/correction_protocol.cc:450-460 | they are those that block and have the checkpoint as target or among the invalidated, in their order and as often |
| `Directives.LoweredIff` | runtime/dpm/correction_protocol.cc:78-86 | lowered texts are equal exactly if the texts are but for the case of their letters |
| `Directives.StripIs` | runtime/dpm/correction_protocol.cc:88-104 | stripping takes off the blanks around a text and nothing else |
| `Directives.NormalizeFactList` | runtime/dpm/correction_protocol.cc:88-104 | the loop gives the normalised list |
| `Directives.NormalizedIsNormalized` | runtime/dpm/correction_protocol.cc:88-104 | no fact of it is blank or has outer space, no two are alike but for case |
| `Directives.NormalizedKeeps` | runtime/dpm/correction_protocol.cc:88-104 | no fact is lost but for case and outer space |
| `Directives.NormalizedFrom` | runtime/dpm/correction_protocol.cc:88-104 | every fact of it is a given one without its outer space |
| `Directives.NormalizedIsFixed` | runtime/dpm/correction_protocol.cc:88-104 | a list is left alone exactly if it is normalised |
| `Directives.NormalizedPlaces` | runtime/dpm/correction_protocol.cc:88-104 | of each fact that is not blank the first spelling is kept, stripped, in the order of the list |
| `Directives.DirectiveDirects` | runtime/dpm/correction_protocol.cc:106-340 | the replacements are the facts given or else the projection; the text is the correction's or its reason; it takes effect after the last event of the range |
| `Directives.CompileProjectionCorrectionDirectives` | runtime/dpm/correction_protocol.cc:307-340 | the loop gives the compiled directives, or the error |
| `Directives.CompileIff` | runtime/dpm/correction_protocol.cc:307-340 | compiling fails exactly if a blocking correction that must interrupt has only blank facts, replacements and projection; otherwise the directives are just those of the blocking corrections |
| `Directives.CompiledAre` | runtime/dpm/correction_protocol.cc:307-340 | and in their order and as often |
| `ActiveEvidenceView.PrepareCorrectionDirectives` | runtime/dpm/active_evidence_view.cc:74-99 | the loops give the directives with non-empty facts, lowered |
| `ActiveEvidenceView.MatchRevocationForEvent` | runtime/dpm/active_evidence_view.cc:101-122 | the loops give the matched facts and corrections, in order; none for a correction event |
| `ActiveEvidenceView.BuildActiveEvidenceView` | runtime/dpm/active_evidence_view.cc:150-193 | the loop builds, line by line, both logs and the records; a range outside the events is an error |
| `ViewLaws.DecimalIs` | runtime/dpm/active_evidence_view.cc:138-147 | numbers are written in decimal digits without leading zeros |
| `ViewLaws.JoinIs` | runtime/dpm/active_evidence_view.cc:138-147 | joining puts the separator between the parts and nothing else |
| `ViewLaws.MatchIs` | runtime/dpm/active_evidence_view.cc:101-122 | the corrections named are those of the directives that revoke the event, in order; the facts are all of theirs that occur in it, in order |
| `ViewLaws.ViewFailsIff` | runtime/dpm/active_evidence_view.cc:154-162 | a view is an error exactly for a range that is inverted or not among the events |
| `ViewLaws.ViewIs` | runtime/dpm/active_evidence_view.cc:150-193 | word for word: one active line an event, the event or the notice that stands for it; one record a masked event, with what matched and the original; one line a record in the other log |
| `EvidenceLaws.MaskedIff` | runtime/dpm/active_evidence_view.cc:62-122 | an event is masked exactly if it is no correction and an applicable directive has a fact that occurs in it, in whatever case |
| `EvidenceLaws.LineAt` | runtime/dpm/active_evidence_view.cc:168-193 | one active line an event, in order |
| `EvidenceLaws.RecordsAre` | runtime/dpm/active_evidence_view.cc:168-193 | the records are those of the masked events of the range, in order, each with the original event |
| `EvidenceLaws.SubstitutionRestores` | runtime/dpm/active_evidence_view.cc:168-193 | the text of the active log with the records' originals put back is the text of the view without directives |
| `EvidenceLaws.ViewsJoin` | runtime/dpm/active_evidence_view.cc:150-193 | the view of [a,c) is the views of [a,b) and [b,c) joined: both logs and the records |
| `EvidenceLaws.BaseFree` | runtime/dpm/active_evidence_view.cc:197-215 | only the events of the range matter, not the offset of the list they are taken from |
| `EvidenceLaws.MoreDirectivesMaskMore` | runtime/dpm/active_evidence_view.cc:101-122 | with more directives, no masked event is unmasked |
| `CheckpointGate.EvaluateCorrectionBarrier` | runtime/dpm/checkpoint_decision_gate.cc:31-53 | the loop gives the barrier of the blocking corrections |
| `CheckpointGate.BarrierIs` | runtime/dpm/checkpoint_decision_gate.cc:31-53 | it asks for a new projection exactly if a correction blocks the checkpoint, and interrupts exactly if one of those must |
| `CheckpointGate.CountValidAuditCertificateSignatures` | runtime/platform/audit/audit_certificate_signer.cc:75-87 | the loop counts the allowed, complete signatures that verify |
| `CheckpointGate.GateOpensIff` | runtime/dpm/checkpoint_decision_gate.cc:61-172 | the gate lets the checkpoint be used, for whatever reason, exactly for a proper request for a compatible, thawed checkpoint that no correction blocks and whose latest certificate passes, covers every requested event, drifts no more than allowed and has the signatures asked for |
| `CheckpointGate.GateRefusesIff` | runtime/dpm/checkpoint_decision_gate.cc:61-172 | for each reason exactly when it is given: it is the first, in the order of the checks, that the request does not meet; and exactly when which error is returned |
| `CheckpointGate.MoreCorrectionsNeverOpen` | runtime/dpm/checkpoint_decision_gate.cc:99-108 | what is accepted with more corrections is accepted with fewer, so adding corrections never turns a refusal into an acceptance |
| `CheckpointLoader.FindInvalidatedFacts` | runtime/dpm/projection_prompt.cc:134-149 | the loops list the invalidated facts found in a text, each once |
| `CheckpointLoader.FoundIff` | runtime/dpm/projection_prompt.cc:134-158 | the list is empty exactly if no invalidated fact occurs, in whatever case |
| `CheckpointLoader.FoundAre` | runtime/dpm/projection_prompt.cc:134-149 | the list has just the invalidated facts that occur, each once |
| `CheckpointLoader.ProjectIff` | runtime/dpm/dpm_projector.cc:236-275 | a projection is exactly the first of the drafts, each the repair of the one before, without an invalidated fact; and exactly when it fails, with which error |
| `CheckpointLoader.InvalidatesRevokes` | runtime/dpm/correction_protocol.cc:88-104 | an event with an invalidated fact in it, spelled with other case or the fact with outer space, is revoked by the compiled directive |
| `CheckpointLoader.LoaderReturns` | runtime/dpm/audited_checkpoint_loader.cc:82-145 | exactly when the loader returns the checkpoint's memory, a replay, or an error, and which |
| `CheckpointLoader.LoaderSafety` | runtime/dpm/audited_checkpoint_loader.cc:82-145 | a memory returned is the checkpoint's, its latest certificate vouches for the request and no given correction blocks it; or it is the last draft, with repairs, of what the model made of the very view returned, over the range asked for, in which every event with an invalidated fact of a blocking correction in reach is masked; and it has no invalidated fact in it |
| `CheckpointLoader.LoadedFromLogIsSafe` | runtime/dpm/audited_checkpoint_loader.cc:147-158 | after completed appends under different names, the loader that takes its corrections from the sidecar is safe in that sense for all corrections of the log |
| `TopK.Sort` | runtime/components/sampling_cpu_util.cc:237-239 | a permutation of the indices by descending value |
| `TopK.MaxElement` | runtime/components/sampling_cpu_util.cc:47-56 | the first of the largest |
| `TopK.SoftmaxScales` | runtime/components/sampling_cpu_util.cc:135-163 | the largest logit's weight is one and the sum at least one, so the uniform fallback is never taken |
| `TopK.SoftmaxAddsToOne` | runtime/components/sampling_cpu_util.cc:112-165 | the probabilities of a row add up to one, whatever the logits and the temperature |
| `TopK.SoftmaxPositive` | runtime/components/sampling_cpu_util.cc:112-165 | each of them is positive |
| `TopK.SoftmaxSameOrder` | runtime/components/sampling_cpu_util.cc:112-165 | one is smaller than another exactly when its logit is |
| `TopK.SoftmaxIs` | runtime/components/sampling_cpu_util.cc:112-165 | they are in the proportion of exp of the logits' distance from the largest over the temperature, which is at least 2^-23, and add up to one |
| `TopK.SoftmaxRatio` | runtime/components/sampling_cpu_util.cc:135-163 | each is each other one times the quotient of their weights |
| `Sampling.DrawIsInNucleus` | runtime/components/sampling_cpu_util.cc:240-284 | for every random number a token is drawn: at a position of the shortest descending run that reaches p, or of all k, the one whose share of the kept probability the number falls to; its score is its probability |
| `Sampling.DrawIsAmongLargest` | runtime/components/sampling_cpu_util.cc:224-286 | whatever is drawn is one of the k ids, and no token outside them has a larger logit |
| `Sampling.GreedyIsArgmax` | runtime/components/sampling_cpu_util.cc:213-221 | with k one or p zero the draw is a largest logit of the whole row |
| `Sampling.CutOff` | runtime/components/sampling_cpu_util.cc:243-256 | the loop stops at the least number of values whose sum reaches p |
| `Sampling.PickKept` | runtime/components/sampling_cpu_util.cc:275-284 | the loop picks the first position whose running sum reaches the random number |
| `SamplingBatch.RowFits` | runtime/components/sampling_cpu_util.cc:112-116 | the row of every position is in bounds |
| `SamplingBatch.RowsInOrder` | runtime/components/sampling_cpu_util.cc:112-128 | different positions have different rows, in order |
| `SamplingBatch.FlatIds` | runtime/components/sampling_cpu_util.cc:199-203 | the flat list of ids has, at every position's row, that position's ids |
| `SamplingBatch.TopKTokenIds` | runtime/components/sampling_cpu_util.cc:35-86 | for every position, k of the largest logits of its row; a size that does not divide is an error |
| `SamplingBatch.SoftmaxOfRow` | runtime/components/sampling_cpu_util.cc:112-165 | the loops give the row's softmax and largest logit |
| `SamplingBatch.TopKTopPSampling` | runtime/components/sampling_cpu_util.cc:170-288 | for every position, a draw from its own row with its own random number, told in full as below for every increasing exponential; the argument errors |
| `SamplingBatch.DrawnIsNucleus` | runtime/components/sampling_cpu_util.cc:170-288 | every draw told in full: k largest of the row, their softmax, the fewest that reach p, and the one into whose share the random number falls, with its probability as score |
| `SamplingBatch.SampledIsAmongLargest` | runtime/components/sampling_cpu_util.cc:224-286 | each sample is one of some k tokens than which no other has a larger logit, and a largest one if k is one or p zero |
| `Scoring.AnyOrderSameProbability` | runtime/components/scoring_cpu_util.cc:58-64 | in whatever order the vocabulary comes, a valid id is found and has the probability of the full softmax |
| `Scoring.ProbabilityIs` | runtime/components/scoring_cpu_util.cc:58-68 | it is the token's share of the weights of the whole row |
| `Scoring.ComputeLogLikelihood` | runtime/components/scoring_cpu_util.cc:31-70 | for every row the logarithm of the token's probability under the softmax of the whole row; an id outside the vocabulary, a number of logits that is no multiple of the batch, or a negative temperature is an error, the internal error never |
| `Bytes.LittleRoundTrip` | python/litert_lm_builder/litertlm_peek.py:103-114 | a little-endian number is read back as it was written |
| `Bytes.LittleAt` | python/litert_lm_builder/litertlm_builder.py:631-648 | each byte of it is the number's digit to the base 256, the least first |
| `Container.WritePadding` | python/litert_lm_builder/litertlm_builder.py:760-765 | zeros up to the next multiple of the block size |
| `Container.WriteHeader` | python/litert_lm_builder/litertlm_builder.py:631-648 | magic, version, padding, data and the place of its end over the first bytes; a header beyond the first block is an error that leaves it written without its end |
| `Container.Build` | python/litert_lm_builder/litertlm_builder.py:608-629 | what the stream holds afterwards, over whatever it held before, with and without the error |
| `ContainerReader.RangesApart` | python/litert_lm_builder/litertlm_builder.py:620-626 | the sections' ranges begin at block boundaries after the first block, in order and apart |
| `ContainerReader.GapIsZero` | python/litert_lm_builder/litertlm_builder.py:620-626 | between a section and the next block there are only zeros |
| `ContainerReader.BuiltIs` | python/litert_lm_builder/litertlm_builder.py:608-648 | the header write leaves every section, the rest of the first block is zero, and what lay beyond the last block stays |
| `ContainerReader.SectionReadBack` | python/litert_lm_builder/litertlm_peek.py:210-219 | the bytes at a section's range are the section |
| `ContainerReader.HeaderReadBack` | python/litert_lm_builder/litertlm_peek.py:103-120 | the header is read back with its version and ranges |
| `ContainerReader.HeaderBytes` | python/litert_lm_builder/litertlm_builder.py:631-648 | byte by byte: the eight letters, the version, zeros, the place of the header's end, the data at byte 32, the first section at byte 16384 |
| `ContainerReader.HeaderReadIff` | python/litert_lm_builder/litertlm_peek.py:88-120 | for every file: exactly what is read as a header, and which error else |
| `ContainerReader.RoundTrip` | python/litert_lm_builder/litertlm_peek.py:210-219 | header and sections read back are those built, in order, whatever the stream held before |
| `ContainerReader.ReadHeader` | python/litert_lm_builder/litertlm_peek.py:88-120 | the seeks and reads give the header's contents, or the error of a wrong magic or a short file |
| `ContainerReader.ReadSection` | python/litert_lm_builder/litertlm_peek.py:210-219 | the read gives the bytes of the range |

## Left out

- Cancellation of a conversation's decode or prefill: the session is not rolled back and only one history entry is popped, so the cache theorem is about runs without it (runtime/conversation/conversation.cc:512-515).
- Threads and locks: a callback, a submitted task or a disk operation is one atomic step. In particular a message's filtering, refill, prefill and decode happen one after the other, without another message in between.
- The cache is text: that prefilling a text in pieces gives the same tokens as in one piece is not part of the model. A turn whose text is empty, for which the session's prefill reports an error that the conversation ignores, is treated as a prefill of nothing.
- Single-turn templates, pending messages and per-message extra context of a conversation: only the rendering of the full history is modelled (runtime/conversation/conversation.cc:175-189).
- Errors of the template, the executor and the data processor, and the conversion of text to input data; the JSON messages and the tool calls made from them.
- InternalCallback.ResponseParser.OnDone: the complete message is handed on as its text and channel fields; building the message, and responses that carry an error or no text, are not modelled.
- SeveralChannels.SeveralAgree: the condition on the text is sufficient; which other texts agree by chance is not stated. No fence, whose blocks the extraction does not see.
- SeedingLists.ListSeedingAgrees: the condition on the prompt is sufficient, in the same way.
- ChannelUtil.ExtractChannelContent: requires non-empty starts, which the code does not check; the regular expressions are first-match searches.
- The second overload of `ProcessTokens`, which takes the tokens of all rows from one buffer, and the initial tokens of a batch.
- DecodeLoop.Decode: benchmark token counts, cancellation, scores and constrained decoding are left out; with a benchmark count stops are ignored while the rollback still happens.
- DecodeOneStep.StepDecoder.Run: the step counter after an early stop is stated as the code leaves it, one less than the tokens looked at, so it is not the same as when the stop is the last token.
- External sampling's duplicated token buffers and the prefill of the last token.
- `SessionAdvanced`: its checkpoints. They act on the executor at once, outside the task chains; unlike those of `SessionBasic`, a rewind restores the saved session state too and does not check for a step in the future (runtime/core/session_advanced.cc:438-470). Waiting, cancelling and the running of tasks by the manager are replaced by all orders the dependencies allow. What the sessions themselves keep is gathered in a ghost field of the manager.
- `TaskContexts`: a scoring always counts as writing to the context, though one of an empty text, or one that fails before its first step, writes nothing.
- CorrectionLog.EventSourcedLog.LoadForCheckpoint: the files come in no particular order, and an error of reading one is not modelled; the order of the corrections is not stated.
- `CorrectionIndex::Build` from all directories, and corrections appended to the log other than through `AppendCorrectionEvent`.
- JSON text: dumping and parsing are inverse functions; field names are a type of their own, and numbers are integers (a fraction given for a range or a time is not modelled). Hash functions are not modelled; that file names do not collide is a condition.
- Event identities are those of the log; the generation caches of the log are left out.
- CheckpointGate.GateOpensIff: the ledger and the signature check are functions of their arguments.
- CheckpointLoader.LoaderSafety: the projector's model and repair are arbitrary functions; the store's own checks are part of its load function.
- `LoadAuditedProjectionCheckpointForDecision` without replay, which is the first half of the one modelled; checkpoint policy and checkpointed projection.
- Rounding: sampling and scoring are over the reals with a positive, strictly increasing exponential, so the fallback for an infinite sum is left out. The loops over positions are fused: a row's ids, softmax and draw follow each other; `SamplingBatch.FlatIds` is why the flat copy between them does not matter.
- `std::nth_element`, `std::sort`: only what they promise is used, an insertion sort stands for both.
- The container's flatbuffer, with the sections' types and metadata, is an encoding that can be decoded; offsets have no upper bound; the writers of the sections are their bytes.
- Engines, executors, tokenizers, models, the C interface, bindings, command line and servers.
