# Verified models of the assistant backend

Dafny models of the parts of the backend that carry state: the streaming JSON extractor, the
model tables, the CRM worker pool, the realtime voice cascade, the incremental audio and text
transformers, the tool-call loop, the dialog write buffer and the embedding column. Each file is
one component. Loops and objects of the Go code are methods and classes; every method is proved
against a function of its inputs or of its old state, and the theorems are lemmas about those
functions or about all runs of a step system. `dafny verify dfyconfig.toml` checks everything.

| file | component |
|---|---|
| `Wrappers.dfy`, `ByteStrings.dfy`, `Runes.dfy` | option and result, bytes, trimming of Unicode white space |
| `JsonScan.dfy`, `JsonGrammar.dfy`, `JsonStream.dfy` | the scanner for the `"message"` field, a JSON printer it is correct for, streaming use |
| `ModelTables.dfy`, `ProviderSync.dfy`, `ModelStore.dfy` | table invariants, catalog synchronisation, the database methods |
| `CrmPool.dfy` | main queue, dispatcher, sharded workers, contact cache |
| `CascadeTurns.dfy`, `CascadeSubscribers.dfy`, `CascadeText.dfy`, `CascadeChunker.dfy` | turns and barge-in, event channels, text extraction, sentences |
| `WavHeader.dfy`, `TtsChannels.dfy`, `SentenceChunker.dfy`, `SilenceCommit.dfy` | audio normalising, PCM alignment, bounded chunks, commit on silence |
| `ToolRounds.dfy`, `DialogBatches.dfy`, `Embeddings.dfy` | function calls, batched dialog writes, vector column |

Library functions and the environment are parameters: the lossy escape decoder, `strings.TrimSpace`
on bytes, `json.Unmarshal` of control frames, the RMS loudness test, the FNV hash, number printing
and parsing, square root, the server and the tool handler, the outcome of each database write,
the time of each event. Every result holds for all of them unless a precondition says more.

## What the code does, where that may surprise

* `ProcessStreamDelta`: the displayed text does not freeze when the message is complete. A later
  chunk without a brace is appended, because the plain-text test comes first. It stays as it was if
  and only if every later text chunk contains a brace (`JsonStream.FrozenIffBraces`); the chunks
  `{"message":"a"}` and `b` show `ab` (`JsonStream.DisplayThaws`). So the end of an object can show
  up in its own message: the chunks `{"message":"a"` and `}` show `a}` (`JsonStream.OwnTailShown`).
* A chunk that is a whole object with a `"type"` is a control frame even if it has a `"message"`, or
  stands inside an object that is still arriving: it is not displayed and not accumulated. The streaming
  results are therefore about the text chunks of a stream joined (`JsonStream.DeliverIsFeed`).
* `SyncProviderModels` fails if and only if some row uses a model that is to be removed and no
  default model of the provider survives (`ModelStore.DB.SyncProviderModels`, `ModelTables.CanSync`).
* `RemoveModelFromUser` can return an error after its transaction has committed: switching off the
  channels comes after the commit. It does so if and only if that call fails and the model was the
  user's only one (`ModelStore.DB.RemoveModelFromUser`, `ModelStore.SingleModelGoes`).
* `SaveUserModel` stores a catalog id of another provider. The tables stay sound if and only if the
  ids are of the saved provider (`ModelStore.DB.SaveUserModel`).
* `publishAudio` checks the turn and sends in two steps, so a chunk of an interrupted turn can still
  be queued (`CascadeTurns.OneLateChunkHappens`). A queued chunk is late if and only if a turn began
  or an interruption came between its check and its send (`CascadeTurns.LateIffInterrupted`,
  `CascadeTurns.LateChunkIff`), and no turn has two (`CascadeTurns.AtMostOneLateChunk`).
* `cascadeTextExtractor` loses the message when the chunk with the opening quote brings nothing to
  emit and no closing quote (`CascadeText.RightIffOpensWell`): the chunks `{"message":"` and `a"}`
  emit nothing (`CascadeText.ShortMessageLost`). An escaped code point is spoken as `u` and its digits
  (`CascadeText.OtherEscapes`).
* A failed dialog write cuts short exactly one batch, the one it belongs to, and a thread has lost
  something if and only if a write of one of its own batches failed (`DialogBatches.NothingLostIff`).
* The guard of `cascadeChunker` on blank sentences never fires: a stretch that ends in an end mark
  is not blank (`CascadeChunker.PieceIsSentence`).
* `GetEmbedding` does not cut the padding off, so it returns the stored embedding if and only if it
  has the full 3072 dimensions; the listing and the search do cut it (`Embeddings.StoreThenRead`).

## Model

| member | source | states |
|---|---|---|
| `JsonScan.ScanBrackets` | pkg/startpoint/startpoint.go:417-458 | the counting loop stops just past the bracket that brings the depth back to zero outside strings, or reports the end of input |
| `JsonScan.FirstJSONObjectPrefix` | pkg/startpoint/startpoint.go:417-458 | the first object of a text, complete or still open |
| `JsonScan.ScanJSONStringRaw` | pkg/startpoint/startpoint.go:528-554 | the raw body up to the first unescaped quote and the index after it, or all of the input while it is open |
| `JsonScan.SkipSpaces` | pkg/startpoint/startpoint.go:516-526 | the index of the first byte that is no JSON white space |
| `JsonScan.SkipJSONValue` | pkg/startpoint/startpoint.go:578-662 | the index after a string, object or array, or of the delimiter after a scalar; failure for a value that has not ended |
| `JsonScan.ScanWanted` | pkg/startpoint/startpoint.go:498-504 | what the value of the wanted member says: not a string, an open string, a closed one |
| `JsonScan.ScanMember` | pkg/startpoint/startpoint.go:489-511 | one member after its name: a result, or where the search goes on with the same answer |
| `JsonScan.SearchRound` | pkg/startpoint/startpoint.go:471-511 | one round of the member search keeps the answer of the whole search |
| `JsonScan.ExtractTopLevelMessage` | pkg/startpoint/startpoint.go:460-514 | the member search as a loop gives the answer of its specification on every byte string |
| `JsonScan.ExtractStreamText` | pkg/startpoint/startpoint.go:392-414 | brace search, object prefix and member search together |
| `JsonGrammar.WalkValue` | pkg/startpoint/startpoint.go:424-455 | reading a whole value of any nesting leaves the brace counter and the bracket counter where they were |
| `JsonGrammar.ClosedValueEnd` | pkg/startpoint/startpoint.go:578-652 | strings, arrays and objects are skipped exactly to their printed end, whatever follows |
| `JsonGrammar.ScalarEnd` | pkg/startpoint/startpoint.go:653-662 | a scalar is skipped with its white space, exactly to the delimiter |
| `JsonGrammar.ObjectIsolated` | pkg/startpoint/startpoint.go:392-458 | in brace-free noise and with any bytes behind it, a well-formed object is cut out exactly |
| `JsonGrammar.ExtractMembers` | pkg/startpoint/startpoint.go:460-514 | the search over printed members answers as the member list does |
| `JsonGrammar.ValueAwaited` | pkg/startpoint/startpoint.go:488-496 | up to the value of a member, the wanted one is awaited and any other says nothing |
| `JsonGrammar.ExtractorCorrect` | pkg/startpoint/startpoint.go:392-514 | for every well-formed object text in any surroundings: the raw body of the first top-level "message", the not-a-string error, or not found |
| `JsonStream.ValueEndExtend` | pkg/startpoint/startpoint.go:578-662 | a value that ended before the end of input ends there for ever |
| `JsonStream.ExtractExtend` | pkg/startpoint/startpoint.go:460-514 | more bytes only move the answer forward: a prefix grows, a complete message stays, an error stays |
| `JsonStream.FirstObjectExtend` | pkg/startpoint/startpoint.go:417-458 | an object prefix only grows, and not at all once complete |
| `JsonStream.StreamStable` | pkg/startpoint/startpoint.go:392-458 | stability of the whole extraction under extension; nothing changes once the object is complete |
| `JsonStream.AnswersAdvance` | pkg/startpoint/startpoint.go:392-514 | over any sequence of chunks the answer after each is on the way to the answer after every later one |
| `JsonStream.CutObjectNeverMisread` | pkg/startpoint/startpoint.go:392-514 | for every cut of a well-formed object, what is shown is on the way to the true answer |
| `JsonStream.Start.ProcessStreamDelta` | pkg/startpoint/startpoint.go:266-325 | the new accumulator and the delta of one chunk of any kind, empty, control frame or text; other respondents are untouched |
| `JsonStream.Start.ResetStreamAccumulator` | pkg/startpoint/startpoint.go:340-342 | the respondent starts afresh, the others are untouched |
| `JsonStream.FrameAnswered` | pkg/startpoint/startpoint.go:274-277 | a chunk that is a whole printed object with a "type" is answered by its event and leaves the accumulator alone |
| `JsonStream.NoFrame` | pkg/startpoint/startpoint.go:349-375 | no event comes out of a chunk without a leading brace, with unclosed brackets, of a cut object, or of a whole object without a "type"; it is fed as text |
| `JsonStream.PlainShown` | pkg/startpoint/startpoint.go:282-286 | a stream without braces is shown as it is and never counts as complete |
| `JsonStream.DeltaTells` | pkg/startpoint/startpoint.go:266-325 | every text delta tells the display, and is complete exactly if the message is, except for text appended after completion |
| `JsonStream.ObjectText` | pkg/startpoint/startpoint.go:392-414 | text, completeness and error reported for any printed object in noise |
| `JsonStream.OpenMessageShown` | pkg/startpoint/startpoint.go:392-514 | for every cut inside the body of the first message the extraction is exactly the part of the body that is there |
| `JsonStream.OpenText` | pkg/startpoint/startpoint.go:392-414 | what is reported there: that part decoded, neither complete nor an error |
| `JsonStream.ShownStays` | pkg/startpoint/startpoint.go:298-325 | what was shown before the object stays shown while nothing of its message is there |
| `JsonStream.DeliverIsFeed` | pkg/startpoint/startpoint.go:266-277 | empty chunks and control frames leave no trace: a stream leaves what its text chunks leave |
| `JsonStream.AllText` | pkg/startpoint/startpoint.go:267-276 | where no chunk is empty or a control frame, the text chunks are all chunks |
| `JsonStream.TextEqualsOneShot` | pkg/startpoint/startpoint.go:279-325 | the next row for streams of text chunks |
| `JsonStream.FeedEqualsOneShot` | pkg/startpoint/startpoint.go:266-325 | delivering chunks of any kind up to completion equals one extraction of the joined text chunks, in accumulator, display, completion flag and error |
| `JsonStream.FeedShowsMessage` | pkg/startpoint/startpoint.go:266-325 | however the text of an object and what follows it are cut into text chunks, and whatever empty chunks and control frames come in between, the display at completion is its decoded message |
| `JsonStream.DisplayOnlyGrows` | pkg/startpoint/startpoint.go:266-297 | after completion chunks of any kind leave the message complete and can only append to the display |
| `JsonStream.FrozenIffBraces` | pkg/startpoint/startpoint.go:266-297 | after completion the display stays as it was exactly if every later text chunk has a brace |
| `JsonStream.ThawedBy` | pkg/startpoint/startpoint.go:266-297 | freezing fails for every object with a string message that arrives as one text chunk: any later brace-free text chunk is appended to the display |
| `JsonStream.DisplayThaws` | pkg/startpoint/startpoint.go:282-297 | a concrete stream of two chunks at which the display changes after completion |
| `JsonStream.OwnTailShown` | pkg/startpoint/startpoint.go:282-325 | a concrete object in two chunks whose closing brace is displayed as part of its message |
| `ModelTables.SavedKeepsInv` | pkg/comdb/model.go:273-405 | saving keeps one active model per user, one model per provider, no orphans, no dangling references |
| `ModelTables.ActivatedKeepsInv` | pkg/comdb/model.go:945-1089 | switching keeps the invariant |
| `ModelTables.RemovedKeepsInv` | pkg/comdb/model.go:149-246 | removing keeps the invariant: the active flag is handed on and an unlinked model goes |
| `ModelTables.SavedRows` | pkg/comdb/model.go:273-405 | a save row by row: the user ends up linked to a row with the saved columns, a new link is active exactly if it is his first, nothing else changes |
| `ModelTables.ActivatedRows` | pkg/comdb/model.go:945-1089 | a switch row by row: of all columns only the active flags of the user change, and his chosen link alone has it |
| `ModelTables.RemovedRows` | pkg/comdb/model.go:149-246 | a removal row by row: exactly the links to the model go, the model goes exactly if no other user has it |
| `ModelTables.SyncedNames` | pkg/comdb/provider.go:228-307 | after a synchronisation the provider's names are exactly the distinct trimmed non-blank input names |
| `ModelTables.WantedIs` | pkg/comdb/provider.go:228-234 | a name is offered exactly if some input name is this one after trimming and it is not blank |
| `ModelTables.SyncedCatalog` | pkg/comdb/provider.go:242-307 | a catalog row by row: which rows stay, which go, and what new rows are |
| `ModelTables.GeneralSynced` | pkg/comdb/provider.go:309-377 | the model rows row by row: a row of a removed general model loses its assistant and moves to a surviving old default, every other row is untouched |
| `ModelTables.RealtimeSynced` | pkg/comdb/provider.go:309-377 | the same for the realtime column, which may be empty |
| `ModelTables.GeneralCanSync` | pkg/comdb/provider.go:340-361 | the condition of success for the general catalog, said of the rows |
| `ModelTables.RealtimeCanSync` | pkg/comdb/provider.go:340-361 | the condition of success for the realtime catalog, said of the rows |
| `ModelTables.SyncedNoDangling` | pkg/comdb/provider.go:309-377 | no row of either catalog column refers to a deleted model |
| `ModelTables.SyncedKeepsInv` | pkg/comdb/provider.go:228-405 | a synchronisation keeps the whole invariant |
| `ModelTables.RunKeepsInv` | pkg/comdb/model.go:112-442 | every state of every sequence of saves, switches, removals and synchronisations is sound |
| `ModelTables.ActiveProviderSound` | pkg/comdb/provider.go:17-60 | the lookup succeeds exactly for users with a model and returns the active one's provider |
| `ProviderSync.NormalizeNames` | pkg/comdb/provider.go:228-234 | the loop yields the trimmed non-blank names |
| `ProviderSync.InsertMissing` | pkg/comdb/provider.go:242-269 | old rows stay, one non-default row is added for each name without one, and distinct names are counted |
| `ProviderSync.RowReassigned` | pkg/comdb/provider.go:342-361 | a replacement that is itself stale does no harm: its rows move on when its turn comes |
| `ProviderSync.ReplaceOne` | pkg/comdb/provider.go:310-376 | one round removes a model and moves its rows, or fails because the last default is the one to go |
| `ProviderSync.ReplaceStale` | pkg/comdb/provider.go:309-377 | the loop ends with every affected row on a surviving default, or fails only if no default survives, in any order and for any pick |
| `ProviderSync.ReportsStep` | pkg/comdb/provider.go:310-376 | one round keeps the report: exactly the affected links, each about the model it used to begin with, never twice about one model |
| `ProviderSync.SyncTransaction` | pkg/comdb/provider.go:228-405 | success if and only if the replacement is possible; new tables, the three reported counts, the removed names, and which links are reported about which removed models |
| `ModelStore.SaveTransaction` | pkg/comdb/model.go:273-405 | the row of the user's model of that provider is overwritten, or a row and a link are added, active if it is the first |
| `ModelStore.SwitchTransaction` | pkg/comdb/model.go:965-1010 | after clearing all flags exactly one of the wanted links is active; failure if there is none |
| `ModelStore.RemoveTransaction` | pkg/comdb/model.go:149-241 | the links go, the model goes if nobody else has it, the active flag moves on |
| `ModelStore.DB.GetActiveProvider` | pkg/comdb/provider.go:17-60 | succeeds exactly if the user has a model, with the active one's provider |
| `ModelStore.DB.SaveUserModel` | pkg/comdb/model.go:251-442 | fails exactly for bad input or a catalog id that violates a foreign key, changing nothing; otherwise commits a save of a row that holds the given columns, and the tables stay sound exactly if the ids are of the saved provider |
| `ModelStore.DB.SetActiveModel` | pkg/comdb/model.go:945-1012 | succeeds exactly if the link exists and is the user's, and then makes it the only active one |
| `ModelStore.DB.SetActiveModelByProvider` | pkg/comdb/model.go:1020-1089 | succeeds exactly if the user has a model of the provider, and then makes it the only active one |
| `ModelStore.NoneLeft` | pkg/comdb/model.go:211-241 | after a removal the user is without models exactly if there was no other one, and then it was active |
| `ModelStore.DB.RemoveModelFromUser` | pkg/comdb/model.go:112-249 | the removal and every error case; the error that comes after the commit exactly if switching off the channels fails and the model was the user's only one |
| `ModelStore.SingleModelGoes` | pkg/comdb/model.go:227-239 | sound tables that meet this condition, and what the removal leaves of them |
| `ModelStore.DB.SyncProviderModels` | pkg/comdb/provider.go:206-408 | succeeds if and only if replacement is possible; kind 1 changes the general catalog and column only, kind 2 the realtime ones, and no other kind is accepted; on error nothing changes |
| `CrmPool.SameIdentSameWorker` | pkg/crm/crm.go:551-560 | messages of one contact identifier go to one worker |
| `CrmPool.RunSound` | pkg/crm/crm.go:509-542 | every state of every run is correctly sharded and has created each contact at most once |
| `CrmPool.AtMostOneContact` | pkg/crm/crm.go:562-640 | whatever the cache forgets and whichever responses are lost, one identifier gets at most one contact |
| `CrmPool.NoOverlap` | pkg/crm/crm.go:537-544 | two processor calls for one identifier never overlap |
| `CrmPool.StepRefinesFifo` | pkg/crm/crm.go:509-542 | every step of pool, dispatcher and workers is a step of one FIFO per phone |
| `CrmPool.RunConserves` | pkg/crm/message.go:72-92 | what was accepted for a phone is what has left its FIFO followed by what waits in it |
| `CrmPool.ProcessedInOrder` | pkg/crm/crm.go:509-542 | the processed messages of a phone are a prefix of the accepted ones |
| `CrmPool.NeverStuck` | pkg/crm/crm.go:509-542 | while anything is on its way, the dispatcher or a worker can take a step, and that leaves fewer steps due |
| `CrmPool.Drains` | pkg/crm/crm.go:509-542 | from every state of every run the pool can go on by itself until every accepted message has been processed, in order for each phone |
| `CrmPool.ContactIsCreated` | pkg/crm/crm.go:544-640 | a message for an unknown contact, alone in the pool, leads to exactly that contact being created and cached |
| `CrmPool.ContactFound` | pkg/crm/crm.go:544-640 | from every state a worker gets the contact of its message from the cache, else from the server, else by creating it, which it does exactly if neither has it |
| `CrmPool.RunSane` | pkg/crm/crm.go:509-640 | no queue ever exceeds its capacity, the cache holds only contacts of the server, and leads are handled for such contacts only |
| `CrmPool.SurroundingsAreFree` | pkg/crm/crm.go:466-494 | at any moment cached contacts may expire, contacts may appear elsewhere, and the answer to a creation may be lost |
| `CrmPool.WorkerOfLowByte` | pkg/crm/crm.go:521-523 | the low byte of the hash decides the worker |
| `CrmPool.CreatedOnRequest` | pkg/crm/crm.go:544-640 | a contact is created only if that is allowed and an accepted message is filed under it, and never if the server had it from the start |
| `CascadeTurns.CascadeSession.BeginTurn` | pkg/model/realtime_cascade.go:572-582 | a new id, which alone is current |
| `CascadeTurns.CascadeSession.Interrupt` | pkg/model/realtime_cascade.go:606-635 | no turn is current, the queue is empty, the drain is signalled |
| `CascadeTurns.CascadeSession.PublishAudio` | pkg/model/realtime_cascade.go:637-651 | run alone, a chunk is queued exactly if it is non-empty, the session open, its turn current and the queue not full |
| `CascadeTurns.StepInv` | pkg/model/realtime_cascade.go:572-651 | every step keeps: a past turn has one late chunk behind it or one in its speaker's hands, not both |
| `CascadeTurns.AtMostOneLateChunk` | pkg/model/realtime_cascade.go:637-651 | in every interleaving at most one chunk of a turn is queued after the turn stopped being current |
| `CascadeTurns.OneLateChunkHappens` | pkg/model/realtime_cascade.go:637-651 | the bound is reached by a run that is given |
| `CascadeTurns.CurrentUntilInterrupted` | pkg/model/realtime_cascade.go:572-604 | in every run a current turn stays current exactly until a turn begins or an interruption comes |
| `CascadeTurns.LateIffInterrupted` | pkg/model/realtime_cascade.go:637-651 | for every call of publishAudio in every run: with room its chunk is queued, late exactly if a turn began or an interruption came between check and send |
| `CascadeTurns.LateChunkIff` | pkg/model/realtime_cascade.go:637-651 | a run has a late chunk of a turn exactly if it has a call of publishAudio that was interrupted so and whose send still queued |
| `CascadeTurns.UndisturbedPublish` | pkg/model/realtime_cascade.go:637-651 | with any other steps between check and send, but no interruption, a publication is not late |
| `CascadeTurns.CallGoesOn` | pkg/model/realtime_cascade.go:637-651 | a call under way passes the test exactly if its turn is current, is refused exactly if not, and then sends |
| `CascadeTurns.CallsAreClosed` | pkg/model/realtime_cascade.go:606-651 | every call ends with its send or its refusal, and the queue is left in order |
| `CascadeTurns.CloseEndsAudio` | pkg/model/realtime_cascade.go:637-658 | after closing at most one more chunk of a turn is queued, and none without a call under way |
| `CascadeTurns.StaysPast` | pkg/model/realtime_cascade.go:572-594 | turn ids never go back and a past turn stays past |
| `CascadeTurns.NeverCurrentAgain` | pkg/model/realtime_cascade.go:572-604 | a turn that stopped being current never becomes current again |
| `CascadeTurns.BeginIsNew` | pkg/model/realtime_cascade.go:572-582 | a new turn's id is larger than every earlier one |
| `CascadeTurns.BargeInBound` | pkg/model/realtime_cascade.go:606-651 | after an interruption has drained the queue it never holds more than one chunk of that turn |
| `CascadeSubscribers.ChannelsSafe` | pkg/model/realtime_cascade.go:397-478 | in every interleaving no send meets a closed channel, no channel is closed twice, and the map holds exactly the open channels when no writer is at work |
| `CascadeSubscribers.PublishReachesAll` | pkg/model/realtime_cascade.go:397-409 | a publication sends once to every channel that was subscribed when it began, and to no other |
| `CascadeSubscribers.OpenOrClosedOnce` | pkg/model/realtime_cascade.go:447-478 | a subscribed channel is open and not closed, or has been closed exactly once |
| `CascadeSubscribers.CloseReachesAll` | pkg/model/realtime_cascade.go:653-665 | when a close has swept the map, every channel subscribed so far is closed |
| `CascadeSubscribers.NeverStuck` | pkg/model/realtime_cascade.go:397-665 | a publisher under way can go on, so can a holder of the write lock, and without one every operation can begin |
| `CascadeText.CascadeTextExtractor.Push` | pkg/model/cascade_text.go:30-64 | the new state and the text of one delta in every mode |
| `CascadeText.CascadeTextExtractor.Flush` | pkg/model/cascade_text.go:67-72 | drains in JSON mode only |
| `CascadeText.CascadeTextExtractor.DrainJSONMessage` | pkg/model/cascade_text.go:74-133 | marker search, decoding and increment |
| `CascadeText.DecodeLoop` | pkg/model/cascade_text.go:102-125 | the scanning loop is the decoder up to the first unescaped quote, and forcing changes nothing |
| `CascadeText.DecodeExtend` | pkg/model/cascade_text.go:102-133 | more bytes only append to the decoded text, and nothing after the closing quote |
| `CascadeText.FindBodyExtend` | pkg/model/cascade_text.go:78-100 | once the opening quote is found it stays where it is |
| `CascadeText.IndexOfIs` | pkg/model/cascade_text.go:78-83 | the search returns an index exactly if the pattern occurs there and nowhere before |
| `CascadeText.BehindMarker` | pkg/model/cascade_text.go:78-100 | behind the first marker: undecided up to a value, a text exactly if the value begins with a quote |
| `CascadeText.WrittenDecodes` | pkg/model/cascade_text.go:102-150 | decoding undoes an escaping writer and stops at its closing quote |
| `CascadeText.OtherEscapes` | pkg/model/cascade_text.go:135-150 | any other escaped byte stands for itself, so an escaped code point is spoken as u and its digits |
| `CascadeText.MessageSpoken` | pkg/model/cascade_text.go:30-133 | an envelope whose first chunk reaches two bytes into the message is spoken as the written text, however the rest is cut and whatever follows |
| `CascadeText.NotTextSilent` | pkg/model/cascade_text.go:92-97 | a "message" that is no string keeps the rest of the stream silent |
| `CascadeText.BeforeBody` | pkg/model/cascade_text.go:42-64 | before the opening quote everything is kept and nothing is emitted |
| `CascadeText.EmitsBody` | pkg/model/cascade_text.go:30-133 | after a good opening, all text emitted so far is the decoded body, however the rest is cut, even inside an escape |
| `CascadeText.LosesBody` | pkg/model/cascade_text.go:77-97 | after a bad opening nothing is emitted as long as the marker does not occur again |
| `CascadeText.LosesOrStartsOver` | pkg/model/cascade_text.go:77-97 | after a bad opening, with any number of markers, nothing is emitted or the decoded text behind a later opening quote |
| `CascadeText.RightIffOpensWell` | pkg/model/cascade_text.go:30-133 | the emitted text is the decoded body exactly if the opening chunk brought something to emit or there is nothing to emit |
| `CascadeText.CutAtQuoteLoses` | pkg/model/cascade_text.go:77-97 | a cut right after the opening quote loses every message that is not followed by a second marker |
| `CascadeText.ShortMessageLost` | pkg/model/cascade_text.go:77-97 | a concrete stream of two chunks that emits nothing although its message is one letter |
| `CascadeText.EveryStream` | pkg/model/cascade_text.go:30-133 | for every stream in every cutting: nothing, or exactly the decoded text behind one opening quote of a "message"; plain streams come out as they are without control frames |
| `CascadeText.AlwaysSettled` | pkg/model/cascade_text.go:30-133 | no push leaves text that could be emitted without new bytes |
| `CascadeText.FlushAddsNothing` | pkg/model/cascade_text.go:67-72 | after any chunks, in any mode, Flush gives no text and changes nothing |
| `CascadeText.PlainPassesThrough` | pkg/model/cascade_text.go:35-60 | a plain stream comes out as it is, without its control frames |
| `CascadeText.PlainDelta` | pkg/model/cascade_text.go:35-60 | a plain stream: its first text comes at once, then each chunk as it comes unless it starts with a brace after trimming |
| `CascadeChunker.CascadeChunker.Push` | pkg/model/realtime_cascade.go:674-700 | the sentences and the new buffer of one delta |
| `CascadeChunker.Scan` | pkg/model/realtime_cascade.go:679-688 | the loop finds the sentences and where the text after them begins |
| `CascadeChunker.PieceIsSentence` | pkg/model/realtime_cascade.go:680-684 | a stretch that ends in an end mark is never blank |
| `CascadeChunker.PushIs` | pkg/model/realtime_cascade.go:674-700 | one push by the text alone: the trimmed stretches up to each end mark, and the rest kept, or spoken too if the push is final and it is not blank |
| `CascadeChunker.CutShape` | pkg/model/realtime_cascade.go:674-700 | one sentence for each end mark, with no other mark in it; none is left in the buffer |
| `CascadeChunker.PushConserves` | pkg/model/realtime_cascade.go:674-700 | no rune but white space is lost or reordered |
| `CascadeChunker.CutAppend` | pkg/model/realtime_cascade.go:674-692 | cutting a text, then its rest with more behind it, is cutting all at once |
| `CascadeChunker.CuttingIrrelevant` | pkg/model/realtime_cascade.go:674-700 | for every cutting the sentences are those of one final push of the whole text |
| `SentenceChunker.SentenceChunker.Push` | pkg/model/mistral/realtime_pipeline.go:47-53 | chunks and buffer of one delta; an empty one changes nothing |
| `SentenceChunker.SentenceChunker.Flush` | pkg/model/mistral/realtime_pipeline.go:56-58 | the remaining chunks, leaving an empty buffer |
| `SentenceChunker.SentenceChunker.Take` | pkg/model/mistral/realtime_pipeline.go:60-100 | the cutting loop terminates with the specified pieces and rest |
| `SentenceChunker.FindCut` | pkg/model/mistral/realtime_pipeline.go:65-90 | the two searches find the specified cut |
| `SentenceChunker.CutPointIs` | pkg/model/mistral/realtime_pipeline.go:65-90 | the cut is the one and only number meeting a declarative description: first boundary past 20, else last space up to 100, else 100 |
| `SentenceChunker.TakenIs` | pkg/model/mistral/realtime_pipeline.go:60-100 | there is one way to take a text apart piece by piece at the described cuts, and it is what take does |
| `SentenceChunker.ChunksAppend` | pkg/model/mistral/realtime_pipeline.go:92-98 | every piece that is not blank becomes one chunk, trimmed, in order |
| `SentenceChunker.PushIs` | pkg/model/mistral/realtime_pipeline.go:47-53 | one push by the text alone; an empty delta changes nothing |
| `SentenceChunker.TakenLeaves` | pkg/model/mistral/realtime_pipeline.go:60-100 | after a push at most 100 runes stay, with no boundary past index 18; after a flush none |
| `SentenceChunker.TakenConserves` | pkg/model/mistral/realtime_pipeline.go:60-100 | chunks and rest keep the non-space runes in order |
| `SentenceChunker.TakenPieces` | pkg/model/mistral/realtime_pipeline.go:60-100 | every piece over 100 runes was cut at its first boundary, and unless flushing every piece has at least 20 |
| `SentenceChunker.PushKeeps` | pkg/model/mistral/realtime_pipeline.go:47-100 | one push: buffer short again, nothing lost, chunks at most 100 plus the delta |
| `SentenceChunker.RunKeeps` | pkg/model/mistral/realtime_pipeline.go:47-100 | the same over every run of pushes |
| `SentenceChunker.FlushedRunKeepsAll` | pkg/model/mistral/realtime_pipeline.go:47-100 | a flushed run emits exactly the non-space runes it was given |
| `WavHeader.AudioNormalizer.Push` | pkg/model/mistral/audio.go:361-402 | state and output of one chunk; the walk over the chunks terminates |
| `WavHeader.AudioNormalizer.Flush` | pkg/model/mistral/audio.go:405-413 | what was held back comes out unchanged |
| `WavHeader.JudgeExtend` | pkg/model/mistral/audio.go:361-402 | a verdict about the header stands for every continuation |
| `WavHeader.PushAllState` | pkg/model/mistral/audio.go:361-402 | after any chunks the state and output depend on their concatenation only |
| `WavHeader.CuttingIrrelevant` | pkg/model/mistral/audio.go:361-413 | for every cutting, pushes and flush together give the stream without its header, or untouched |
| `WavHeader.NotWavUntouched` | pkg/model/mistral/audio.go:361-374 | for every cutting a stream that is not RIFF/WAVE, or shorter than 12 bytes, comes out untouched |
| `WavHeader.HeaderlessUntouched` | pkg/model/mistral/audio.go:380-413 | a RIFF/WAVE stream that ends before its data chunk, after any whole chunks and inside one more, is held back and comes out untouched |
| `WavHeader.CutDataHeaderUntouched` | pkg/model/mistral/audio.go:380-413 | the same for one that ends inside the header of its data chunk |
| `WavHeader.WavPayload` | pkg/model/mistral/audio.go:380-398 | for every RIFF/WAVE file with any word-aligned optional chunks what comes out is the payload |
| `WavHeader.PcmPublisher.PublishPCM` | pkg/model/mistral/audio.go:125-148 | the piece is prepared, an odd one is held back and put before the next, and a refusal is an error only while the turn is current |
| `WavHeader.AlignConserves` | pkg/model/mistral/audio.go:125-148 | no byte of the prepared pieces is lost or moved and everything offered is whole samples |
| `WavHeader.AlignPrompt` | pkg/model/mistral/audio.go:130-140 | nothing is held back when the bytes so far make whole samples, and an odd number of bytes otherwise |
| `WavHeader.MonoPublished` | pkg/model/mistral/audio.go:125-148 | mono sound beside a silent channel is offered as mono |
| `TtsChannels.NormalizeTTSChannels` | pkg/model/mistral/audio.go:311-350 | the two energy sums and the copying loop |
| `TtsChannels.LouderChannelKept` | pkg/model/mistral/audio.go:311-350 | of interleaved channels the one more than twenty times louder is kept sample for sample, otherwise nothing changes |
| `TtsChannels.OddShapesKept` | pkg/model/mistral/audio.go:311-314 | a piece that is too short or no whole number of frames is kept |
| `TtsChannels.ValueRoundTrip` | pkg/model/mistral/audio.go:318-329 | the two bytes of a sample are read as the 16-bit number they stand for, and counted with its absolute value |
| `TtsChannels.EnergyAdds` | pkg/model/mistral/audio.go:318-332 | the energy of a channel is the sum of the absolute values of its samples |
| `TtsChannels.MonoRestored` | pkg/model/mistral/audio.go:307-310 | mono sound sent beside a silent channel on either side is restored |
| `SilenceCommit.WriteLoop` | pkg/model/elevenlabs/realtime_stt.go:214-254 | what the socket has received: all frames, followed by one more commit exactly if the input was closed, or their prefix up to the first failed write |
| `SilenceCommit.WriteChunk` | pkg/model/elevenlabs/realtime_stt.go:228-252 | one round of the loop |
| `SilenceCommit.AudioConserved` | pkg/model/elevenlabs/realtime_stt.go:228-233 | every non-empty chunk is sent once, unchanged, in order |
| `SilenceCommit.StateExplained` | pkg/model/elevenlabs/realtime_stt.go:209-212 | what the two loop variables say about the history |
| `SilenceCommit.CommitIffLongSilence` | pkg/model/elevenlabs/realtime_stt.go:235-252 | silence commits at a chunk exactly if it is the first quiet one at least 800 ms after the first quiet one after the last loud one |
| `SilenceCommit.FramesOfHistory` | pkg/model/elevenlabs/realtime_stt.go:228-252 | what is sent, by the history alone: each non-empty chunk as audio, followed by a commit exactly if it ends a long silence |
| `SilenceCommit.SpeechBetweenCommits` | pkg/model/elevenlabs/realtime_stt.go:235-252 | between two silence commits somebody has spoken |
| `ToolRounds.Receive` | pkg/model/create/open.go:500-716 | calls, text, last completed event or error of one stream |
| `ToolRounds.ReplyRead` | pkg/model/create/open.go:500-716 | a reply is read up to the end marker or an error, which it ends in; a stream that breaks off is an error |
| `ToolRounds.TextJoins` | pkg/model/create/open.go:530-533 | the text is that of the text deltas in order |
| `ToolRounds.LastCompletedIs` | pkg/model/create/open.go:661-663 | the event of the answer is the last completed one |
| `ToolRounds.InOrder` | pkg/model/create/open.go:721-738 | the calls in ascending output index, whatever order the map yields |
| `ToolRounds.SortedCallsAre` | pkg/model/create/open.go:721-738 | the calls handed to the handler are those of the map, each once, in ascending order of their indices |
| `ToolRounds.BuildInput` | pkg/model/create/open.go:780-822 | previous items, then all calls, then in call order one output for each call that has been given one, with the content of the last one given |
| `ToolRounds.OutputItemsAnswer` | pkg/model/create/open.go:780-823 | the outputs are those of exactly the calls that have been given one, in call order, with the content of the last usable element |
| `ToolRounds.CreateResponseInternal` | pkg/model/create/open.go:341-826 | the requests sent and the result of the recursion |
| `ToolRounds.ConversationRuns` | pkg/model/create/open.go:341-826 | a whole conversation by its requests: it starts with the input, each request follows from the reply to the one before it and the outputs of its calls, and the last one ends it |
| `ToolRounds.CreateResponse` | pkg/model/create/open.go:330-339 | at least one and at most five requests, the first one the given text |
| `ToolRounds.OwnEventsOnly` | pkg/model/create/open.go:543-600 | the call at an index depends on the events of that index only |
| `ToolRounds.CallsAnnounced` | pkg/model/create/open.go:543-560 | there is a call for an index exactly if one was announced |
| `ToolRounds.InterleavingIrrelevant` | pkg/model/create/open.go:543-600 | any interleaving of the indices accumulates the same calls |
| `ToolRounds.SameConversation` | pkg/model/create/open.go:341-826 | a whole conversation does not depend on how the server interleaves the indices |
| `ToolRounds.ArgumentsAreJoined` | pkg/model/create/open.go:543-600 | of every announced call, in any stream: it is the one announced last for its index, and its arguments are those of its last done event followed by the deltas after it |
| `ToolRounds.AtMostFive` | pkg/model/create/open.go:298-353 | the number of requests is bounded by the remaining depth, and reached when the depth error is returned |
| `ToolRounds.RequestsGrow` | pkg/model/create/open.go:789-825 | every request extends the one before, and every function_call_output follows a function_call with its call_id |
| `DialogBatches.Endpoint.Write` | pkg/endpoint/endpoint.go:198-200 | one database write, which may fail |
| `DialogBatches.Endpoint.WriteBatch` | pkg/endpoint/endpoint.go:193-201 | the messages written before the first failure, unmarshallable ones skipped |
| `DialogBatches.Endpoint.FlushThreadBatch` | pkg/endpoint/endpoint.go:177-204 | the batch leaves the buffer before it is written; success means exactly that no write of it failed |
| `DialogBatches.Endpoint.FlushAllBatches` | pkg/endpoint/endpoint.go:206-219 | threads are flushed in some order until one fails; success means exactly that no write failed, and then every buffer is empty |
| `DialogBatches.Endpoint.SaveDialog` | pkg/endpoint/endpoint.go:325-342 | below the batch size the message is buffered and nothing written; a full batch is flushed with its error ignored; other threads are untouched |
| `DialogBatches.FlushAccounted` | pkg/endpoint/endpoint.go:177-204 | a flush keeps the books of every thread, whether it fails or not |
| `DialogBatches.FlushIs` | pkg/endpoint/endpoint.go:177-204 | a flush empties its own thread and no other, and succeeds exactly if no write of it failed |
| `DialogBatches.FlushAllIs` | pkg/endpoint/endpoint.go:206-219 | a flush of several threads succeeds exactly if no write failed, and then has emptied them all |
| `DialogBatches.RunAccounted` | pkg/endpoint/endpoint.go:177-219 | after every run: sent is batches taken plus buffered, stored is the written part of each batch, every write attempt belongs to one batch, buffers are below the batch size |
| `DialogBatches.CutShortIffFailed` | pkg/endpoint/endpoint.go:193-201 | a batch is cut short exactly if one of its own writes failed, and then its last one did |
| `DialogBatches.FailureCutsOneBatch` | pkg/endpoint/endpoint.go:177-219 | over every run as many batches are cut short as writes failed, each by a write of its own |
| `DialogBatches.NothingLostIff` | pkg/endpoint/endpoint.go:177-219 | the exact loss of a thread, and none exactly if no write of its own batches failed, whatever happened to other threads |
| `DialogBatches.NothingLost` | pkg/endpoint/endpoint.go:325-342 | while no write failed, stored followed by buffered is what was sent, up to messages that cannot be marshalled |
| `DialogBatches.StoredInOrder` | pkg/endpoint/endpoint.go:177-219 | whatever fails, stored followed by buffered is an in-order subsequence of what was sent |
| `Embeddings.Pad` | pkg/comdb/vector.go:29-31 | zero padding to the column's width |
| `Embeddings.VectorToString` | pkg/comdb/vector.go:356-370 | the text form of a vector |
| `Embeddings.StringToVector` | pkg/comdb/vector.go:374-402 | parsing of the text form with its error cases |
| `Embeddings.SplitUndoesCommas` | pkg/comdb/vector.go:386-387 | splitting at commas undoes joining with commas |
| `Embeddings.ReadsBack` | pkg/comdb/vector.go:374-402 | a bracketed list of the numbers is read as the vector whatever white space the database puts in |
| `Embeddings.TextRoundTrip` | pkg/comdb/vector.go:352-402 | parsing undoes printing |
| `Embeddings.RefusedIff` | pkg/comdb/vector.go:374-402 | refused are texts without brackets, and otherwise, unless the brackets are empty, exactly those with a part that is no number |
| `Embeddings.StoredIff` | pkg/comdb/vector.go:19-31 | an embedding is stored exactly if it has one of the four dimensions |
| `Embeddings.StoreThenRead` | pkg/comdb/vector.go:19-197 | storing and listing returns the embedding; GetEmbedding does exactly if it has 3072 dimensions |
| `Embeddings.CosineSimilarity` | pkg/comdb/vector.go:334-350 | the loop computes the cosine, 0 for unequal lengths or a zero norm |
| `Embeddings.CosineIs` | pkg/comdb/vector.go:334-350 | the similarity times both roots is the dot product, 1 for a non-zero vector and itself, 0 for unequal dimensions or a zero norm |
| `Embeddings.NormZeroIff` | pkg/comdb/vector.go:334-350 | exactly zero vectors have the norm 0 |
| `Embeddings.PaddingKeepsSimilarity` | pkg/comdb/vector.go:241-246 | padding changes neither dot product, norms nor cosine |
| `Embeddings.CosineInRange` | pkg/comdb/vector.go:334-350 | the result is between -1 and 1 |

## Left out

- `Respondent`, `Listener` and operator mode: random `select` choice and timers; the obvious guarantees do not hold of the code.
- HTTP, WebSocket, gRPC and OAuth clients, cryptography, gzip, prompt and schema building: I/O, library code or finite tables.
- `decodeJSONStringLossy`, `json.Unmarshal` of control frames and `strings.TrimSpace` on bytes are parameters of the extractors; results are about raw string bodies.
- The fields that `tryParseStructuredStreamEvent` copies out of a control frame; only its type and text are kept.
- `JsonStream.FeedEqualsOneShot`: what is displayed before completion is stated for decoders that keep showing text for longer bodies, since the fallback of the lossy decoder is not monotone; completion, error and the completed text need no such condition.
- The JSON grammar is a superset of RFC 8259 sections 2 to 7 at the level of bytes (any token as a scalar, any byte after a backslash), so UTF-8 and number syntax are not checked, as the code does not check them.
- `ModelStore.DB.SaveUserModel`: the foreign keys are those that the comment at pkg/comdb/model.go:299-300 speaks of, since the schema is not part of this model; the update of the operators table is not modelled. The runs of `ModelTables.RunKeepsInv` save ids of the saved provider, as the callers do.
- SQL statements do not fail except where the code returns an explicit error or a saved row violates a foreign key; collation and ORDER BY are not modelled, and an unordered query may return any row.
- `ProviderSync.SyncTransaction`: the order of the reports, and through which removed defaults a link passed, depend on the order in which the query yields the models and are not fixed.
- `CrmPool.AtMostOneContact`: lead and note handling, response channels and the TTL clock are left out; entries may expire at any time, which covers every clock.
- CRM cancellation: a cancelled pool is a run that stops, so processed is always a prefix of accepted.
- `CascadeTurns.AtMostOneLateChunk`: one speaker per turn, as `runTurn` and `startGreeting` start it; the wrap-around of the 64-bit turn id is not modelled.
- The `generating` flag, the transcripts, the sessions map and `acceptFinal` of the cascade.
- `CascadeText.RightIffOpensWell`: for bodies in which the marker does not occur again; otherwise a badly opened extractor starts over, and what it may then emit is stated by `CascadeText.LosesOrStartsOver`.
- `CascadeText.EmitsBody`: for streams whose first text shows a brace or the marker; the others are plain text (`CascadeText.EveryStream`).
- `SentenceChunker.TakenConserves`: inner white space is not kept by the code, so only the other runes are counted.
- `SilenceCommit.WriteLoop`: cancellation is a loop that has handled the chunks so far; the two-second wait for the last transcript is left out.
- `ToolRounds.CreateResponseInternal`: the events mirrored to the client through `onDelta` and the token usage are left out; output indices are Go integers.
- `Embeddings.StoreThenRead`: numbers are reals, and a single number's printing is assumed to be read back; VEC_ToText is assumed to give the printed numbers, with any white space around them.
- `Embeddings.CosineSimilarity`: computes over the reals, so float32 rounding and the overflow of a norm are not modelled.
- `Embeddings.CosineInRange`: a law of the reals; rounding in float32 can leave the range.
- `WavHeader.AudioNormalizer.Push`: the 32-bit overflow of `dataStart + chunkSize` on 32-bit platforms is not modelled.
- `normalizeTTSFormat` is a parameter (a floating-point heuristic); `tts.go`'s carry byte (the same alignment as `publishPCM`), quota clamping and cache sweeps are left out as easy.
- `TurnGuard` of the Mistral pipeline: a counter; the cascade's turn guard is the harder one and is modelled.
