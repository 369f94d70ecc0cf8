# A verified model of the iRODS HTTP API server's hard core

The iRODS HTTP API is a server in front of an iRODS zone. This project models the parts
of it in which steps of different requests interleave, bytes are cut and put together
again, or hand-written text formats are read, and proves what they keep, what they
deliver and where they fall short. Check it with `dafny verify dfyconfig.toml`.

Every number is an unbounded integer, every text a sequence of characters or bytes.
What comes from outside (random identifiers, clock readings, outcomes of calls to the
iRODS server, the way the socket cuts a body) is a parameter, so each theorem holds for
all of it. Automatic induction is switched off in every lemma. Facts about one function
are hidden from the solver (`hide`) where a proof does not need them.

## The modules

**Parallel-write streams** (`StreamReservation*.dfy`, `ParallelWriteRegistry.dfy`,
`Configuration.dfy`). Any number of inits and shutdowns run on a fixed pool of background
threads, as a transition system with one step per atomic action: init loads the counter,
compares it with the limit, opens a stream, counts it, and so on; shutdown closes and
discounts streams one at a time. The main results are the conservation law of the counter,
the overshoot bound with a proof that it is attained, and the exact cost of failed inits:
which inits can still be admitted after them, and which configurations can lose all room.
`ParallelWriteRegistry` has the same two operations as methods with their loops, which
never let two handles share a stream.

**Writers on one handle** (`HandleWrites*.dfy`, `ParallelWriteContext.dfy`). Any number of
write requests on one handle, as a transition system whose steps are the single loads and
stores of the in-use flags, the mutex, and one background task per piece of a body. The
main results are the linearizability of the claim, the exact condition under which two
writers never have the same stream, the exact condition under which nobody is turned
away, confluence of all runs in which no two writers share a stream, where requests
without an offset write, and the guarantee a success reply gives when streams fail.
`ParallelWriteContext` has the search for a free
stream as a method that is interfered with between its loads.

**Transfers** (`DataObject.dfy`, `ChunkedWrite.dfy`, `WriteTasks.dfy`,
`DataObjectRead.dfy`). A data object is a sequence of bytes. The three self-posting task
machines are classes proved against functions over the whole run; those are then related
to each other and to a write at one stroke.

**The multipart parser** (`Text.dfy`, `Multipart*.dfy`). The state machine is a method
proved against a recursive description of the parts of a message, which is in turn shown
to be the only one that fits a declarative one: a part is what is well placed at the next
delimiter, headers are what is printed as lines. From that follow the slices each value
and each name comes from, for every input, and the theorem that parsing inverts printing,
for all headers and all lists of token parameters.

**Form encoding** (`FormEncoding.dfy`, `FormBodies.dfy`), **the token stash**
(`ProcessStash.dfy`) and **specific queries** (`SpecificQuery.dfy`): the exact composition
law of the form writer and the form parser, what the parser makes of every body there is,
the theorem that timed eviction cannot be observed, what every request is told, and the
theorem that pages tile the rows of a query.

## Where the code and its own words differ

The model follows the code. These differences are stated as lemmas.

- The configured maximum of parallel-write streams is not a limit on the counter. It can
  be passed by `(threads - 1) * max_number_of_streams_per_parallel_write_handle`, and it
  holds exactly when there is a single background thread (`LimitHeldIffOneThread`).
- Streams counted by an init whose later open fails are never given back to the counter
  (`DroppedIsNeverReturned`). An init that no longer fits beside them is refused for good,
  and every other one can be admitted later (`AdmittedLaterIff`). Any size but 1 can be lost
  that way, and 1 too with several threads and handles of several streams
  (`RoomCanBeLostIff`).
- A write that names a `stream-index` neither tests nor sets the in-use flag. Two writers
  can meet on a stream unless the requests satisfy the condition of
  `ExclusiveIffCompatible`.
- A success reply says nothing about the last piece of a body: the stream is tested before
  each piece and never after the last one (`LastPieceLostUnnoticed`). It means that the body
  is written exactly for the empty body (`SuccessMeansWrittenIffEmpty`).
- If a delimiter starts exactly where a multipart body does, the stored value is the whole
  rest of the message (`ValueOverruns`, `ValueCleanIff`; `ValueCanOverrun` is an example).
- Form values are percent-decoded before `+` becomes a space, and keys are never decoded,
  so the parser gives back what the writer was given only for some maps (`ParsedWholeIff`).
- The log text at `core/src/main.cpp:685-690` names its two options the wrong way round;
  the check itself is the one proved in `MeetsPostSchemaRequirements`.

## Model

| member | source | states |
|---|---|---|
| StreamReservationLaws.ShapePreserved | endpoints/data_objects/src/main.cpp:1390-1518 | every step of init and shutdown keeps the registry lock with the thread that drains, and leaves an empty context only while its init is still publishing it, so a shutdown always finds a first stream |
| StreamReservationLaws.CounterLawPreserved | endpoints/data_objects/src/main.cpp:1448-1489 | every single step moves the counter exactly as much as the streams held by contexts, by inits in flight and by dropped inits |
| StreamReservationLaws.OvershootPreserved | endpoints/data_objects/src/main.cpp:1390-1404 | one step after another, the counter plus the streams admitted but not yet counted stays below total + (threads - 1) * perHandle, although check and increments are separate |
| StreamReservationLaws.HeldPreserved | endpoints/data_objects/src/main.cpp:1448-1518 | every open stream is held in exactly one place, one init or one context, through opening, failing, publishing and closing |
| StreamReservationLaws.LagLawPreserved | endpoints/data_objects/src/main.cpp:1448-1475 | the counter trails the number of really open streams by the opens and closes in progress, plus the dropped streams |
| StreamReservationLaws.ReachableInv | endpoints/data_objects/src/main.cpp:1376-1622 | all of these hold in every reachable state of every interleaving |
| StreamReservationRuns.Conservation | endpoints/data_objects/src/main.cpp:1448-1489 | in every reachable state: counter = streams of contexts not yet drained + streams of inits in flight + dropped streams, and = open streams + dropped streams up to the operations in progress |
| StreamReservationRuns.QuietCounter | endpoints/data_objects/src/main.cpp:1477-1489 | when no request runs, the counter is the number of open streams if and only if no init failed after counting a stream |
| StreamReservationRuns.NothingDropped | endpoints/data_objects/src/main.cpp:1448-1489 | runs without a failed open drop no stream, so there the counter is exact |
| StreamReservationRuns.OvershootBound | endpoints/data_objects/src/main.cpp:1390-1404 | counter plus streams still to come from admitted inits never exceeds total + (threads - 1) * perHandle, in every interleaving of inits, failures and shutdowns |
| StreamReservationRuns.OvershootAttained | endpoints/data_objects/src/main.cpp:1390-1404 | for every configuration the server accepts, some interleaving reaches that bound |
| StreamReservationRuns.LimitHeldIffOneThread | core/src/main.cpp:1170-1171 | the configured maximum bounds the counter in all runs if and only if there is one background thread |
| StreamReservationRuns.DroppedIsNeverReturned | endpoints/data_objects/src/main.cpp:1477-1489 | streams counted by a failed init stay in the counter for the rest of every run |
| StreamReservationRuns.DroppedStreamsBlockInit | endpoints/data_objects/src/main.cpp:1390-1404 | once the dropped streams leave too little room, every later init of that size is turned away by the check, whatever is shut down in between |
| StreamReservationDrops.Quiesce | endpoints/data_objects/src/main.cpp:1376-1622 | from every reachable state all running inits and shutdowns can finish with no further stream dropped |
| StreamReservationDrops.AdmittedLaterIff | endpoints/data_objects/src/main.cpp:1390-1404 | from every reachable state an init of a given size can be admitted some time later if and only if it fits beside the streams dropped so far |
| StreamReservationDrops.RoomCanBeLostIff | endpoints/data_objects/src/main.cpp:1477-1489 | failed inits can leave too little room for an init of a given size if and only if that size is at least 2, or there are at least two threads and handles may have at least two streams |
| StreamReservationDrops.RegistryIsStillWhileDraining | endpoints/data_objects/src/main.cpp:1586-1589 | while a shutdown drains a handle, no other request registers or forgets one, or touches the one that is drained |
| StreamReservationDrops.OnlyTheLockIsWaitedFor | endpoints/data_objects/src/main.cpp:1494-1518 | a running init or shutdown can go on in every state but one: an init that has opened all its streams waits while a shutdown holds the lock |
| StreamReservationDrops.UnknownHandleIsIgnored | endpoints/data_objects/src/main.cpp:1589-1620 | a shutdown of a handle that is not registered is possible and changes nothing |
| StreamReservationRuns.CounterExactIffSingleStreams | endpoints/data_objects/src/main.cpp:1448-1489 | the counter agrees with the open streams in all quiet states of all runs if and only if handles are limited to one stream |
| StreamReservationRuns.ShutdownDrains | endpoints/data_objects/src/main.cpp:1586-1622 | a shutdown can always run to its end, closing all streams of the handle, lowering the counter by their number and forgetting the handle, and changes nothing else |
| StreamReservationRuns.InitRegisters | endpoints/data_objects/src/main.cpp:1376-1518 | an init within both limits can always run to its end; it then has registered that many new streams, raised the counter by their number, and changed nothing else |
| StreamReservationRuns.InitDrops | endpoints/data_objects/src/main.cpp:1474-1489 | if its open number k fails instead, the registry and the open streams are as before, and the counter is k too high |
| ParallelWriteRegistry.Registry.Init | endpoints/data_objects/src/main.cpp:1365-1518 | which requests are refused and leave everything alone; that a failed open leaves the registry alone and the counter raised; that success registers as many distinct streams as asked for, which no context holds and which were never closed |
| ParallelWriteRegistry.Registry.Shutdown | endpoints/data_objects/src/main.cpp:1586-1622 | the closes sent to the server are those of Closes, the counter falls by the number of streams, the handle is gone; an unknown handle changes nothing |
| ParallelWriteRegistry.Registry.ShutdownTwice | endpoints/data_objects/src/main.cpp:1586-1622 | a repeated shutdown changes nothing |
| ParallelWriteRegistry.Registered | endpoints/data_objects/src/main.cpp:1448-1475 | registering new streams keeps it that no stream is in two contexts, closed twice, or held after it was closed |
| ParallelWriteRegistry.Drained | endpoints/data_objects/src/main.cpp:1590-1620 | so does draining a handle |
| ParallelWriteRegistry.ClosesEachOnce | endpoints/data_objects/src/main.cpp:1590-1613 | every stream is closed exactly once, and the only close that updates the catalog is the last one, that of the first stream |
| Configuration.MeetsPostSchemaRequirements | core/src/main.cpp:676-696 | the check accepts a configuration if and only if every handle size it allows is admitted by init on an idle server |
| ParallelWriteContext.Context.FindAvailable | endpoints/data_objects/src/main.cpp:193-207 | with any releases between the loads: no result means every stream was busy when the search began; a result is the first stream that was free when its flag was loaded, and is marked |
| HandleWritesClaims.InvPreserved | endpoints/data_objects/src/main.cpp:193-207 | every step of every writer keeps the mutex with the scanning writer, one owner per claimed stream, and all flags a scan has passed set since the lock |
| HandleWritesExclusion.ClaimsAreExclusive | endpoints/data_objects/src/main.cpp:1110-1124 | whatever the requests: in_use is set exactly for the streams some writer has claimed, and no two writers have claimed the same stream |
| HandleWritesExclusion.NothingLeftClaimed | endpoints/data_objects/src/main.cpp:1121-1122 | when all writers are done, on whatever path, every claim has been given back and the mutex is free |
| HandleWritesExclusion.ClaimTakesFreeStream | endpoints/data_objects/src/main.cpp:193-207 | the stream a writer claims is owned by nobody up to that very step |
| HandleWritesExclusion.ScanLoadsFlag | endpoints/data_objects/src/main.cpp:197-201 | the search loads every flag anew, so a stream that was given back after the mutex was locked and before its flag is loaded is found |
| HandleWritesExclusion.BusyReplyIsLinearizable | endpoints/data_objects/src/main.cpp:1111-1118 | a writer told that all streams are busy held the mutex at a moment when every stream was in use, although releases do not take the mutex |
| HandleWritesSharing.CompatibleIsExclusive | endpoints/data_objects/src/main.cpp:1094-1124 | requests whose chosen streams differ and lie beyond the first ones, as many as leave the choice to the server, never share a stream |
| HandleWritesSharing.ExclusiveIffCompatible | endpoints/data_objects/src/main.cpp:1094-1124 | that condition on the requests is exact: if it fails, some interleaving puts two writers on one stream |
| HandleWritesSharing.AutoPickIsExclusive | endpoints/data_objects/src/main.cpp:1110-1124 | writers that give no stream index never share a stream |
| HandleWritesSharing.CompatibleRunIsExclusive | endpoints/data_objects/src/main.cpp:1094-1124 | so every run of such requests meets the condition of the results below, that no two writers share a stream at any moment of it |
| HandleWritesReplies.RepliesAreJust | endpoints/data_objects/src/main.cpp:1094-1228 | in every run, failures included: only well-formed requests succeed, and only malformed ones are refused as bad requests |
| HandleWritesReplies.TurnedAwayOnlyIfMany | endpoints/data_objects/src/main.cpp:1110-1118 | a writer is told that all streams are busy only if more requests than there are streams leave the choice to the server |
| HandleWritesReplies.NobodyTurnedAwayIff | endpoints/data_objects/src/main.cpp:1110-1118 | that is exact: with more such requests than streams, some interleaving turns one away |
| HandleWritesVerdicts.ReplyIsThatOfRun | endpoints/data_objects/src/main.cpp:447-496 | the reply to a transfer is success if and only if the run over its pieces alone, with the same outcomes of its calls, is answered with success; so a call that throws is never answered with success |
| HandleWritesVerdicts.BadStaysBad | endpoints/data_objects/src/main.cpp:1196-1213 | nothing makes a bad stream good again |
| HandleWritesVerdicts.BadStreamIsReported | endpoints/data_objects/src/main.cpp:1196-1213 | a writer that has got a bad stream is told so in the end and hands nothing over, whatever else is wrong with its request |
| HandleWritesVerdicts.FailedSeekIsReported | endpoints/data_objects/src/main.cpp:1224-1257 | a seek that fails makes the stream bad and is reported as that |
| HandleWritesVerdicts.MalformedRequestLeavesStream | endpoints/data_objects/src/main.cpp:1226-1263 | a malformed offset and missing bytes are refused and leave the streams alone |
| HandleWritesConfluence.LaidIsUnique | endpoints/data_objects/src/main.cpp:1224-1228 | where the bytes of separate requests lie determines the object, whatever order they came in |
| HandleWritesConfluence.OneByOneIsLaid | endpoints/data_objects/src/main.cpp:447-496 | writing the successful requests at one stroke each, in order, puts every byte where its request says and no other byte |
| HandleWritesOutcome.ObjectDuringRun | endpoints/data_objects/src/main.cpp:447-496 | at every moment of every run in which no two live writers share a stream, failures and streams used again included, the object is what it was, plus a prefix of each request at its place |
| HandleWritesOutcome.SuccessGuarantee | endpoints/data_objects/src/main.cpp:447-496 | in these runs, from a success reply on, the object holds all of that request's bytes but those of its last piece, and those too if no write of it failed, whatever the others do |
| HandleWritesOutcome.Confluence | endpoints/data_objects/src/main.cpp:447-496 | when all writers of such a run are done and no write failed, it has left the object that the successful requests leave one after the other |
| HandleWritesOutcome.FailureFreeResult | endpoints/data_objects/src/main.cpp:1058-1290 | if no call on a stream fails, that is the result; a request succeeds if and only if it is well formed and not turned away, and none is turned away if there are streams for all that ask for one |
| HandleWritesOutcome.EverythingIsWritten | endpoints/data_objects/src/main.cpp:447-496 | well-formed requests, streams for all that ask for one, no failing call: all succeed, and every byte of every request is at its place |
| HandleWritesOutcome.CuttingIsInvisible | endpoints/data_objects/src/main.cpp:460-470 | the chunk size does not show in the object |
| HandleWritesOutcome.StreamedAndBufferedAgree | endpoints/data_objects/src/main.cpp:561-650 | concurrent streamed writes, cut in any way, and the same writes from memory end with the same object if no call fails and there are streams for all that ask for one, or the same requests are turned away |
| HandleWritesPositions.RunAsPlaced | endpoints/data_objects/src/main.cpp:1224-1240 | every run in which no two writers share a stream is, state for state, a run of requests that all give an offset: a request without one starts where its stream stands |
| HandleWritesPositions.AllContinue | endpoints/data_objects/src/main.cpp:1224-1240 | a request starts at its offset or, without one, right where the previous user of its stream stopped, who is done by then; or where the stream stood at the beginning |
| HandleWritesPositions.PositionsAfter | endpoints/data_objects/src/main.cpp:470-474 | a stream stands where its last user started plus the bytes that user has handed over, if no write of it failed |
| HandleWritesPositions.ObjectDuringAnyRun | endpoints/data_objects/src/main.cpp:447-496 | with or without offsets: at every moment the object is what it was, plus a prefix of each request at the place where it started |
| HandleWritesPositions.ConfluenceAsPlaced | endpoints/data_objects/src/main.cpp:447-496 | with or without offsets: if no write failed, the successful requests leave what they leave one after the other, each where it started |
| HandleWritesPositions.SecondRequestAppends | endpoints/data_objects/src/main.cpp:1224-1240 | a request with an offset and the next one on its stream without: the object has both bodies in a row from that offset on |
| HandleWritesProgress.RunsAreBounded | endpoints/data_objects/src/main.cpp:447-496 | every run of given requests has at most a known number of steps, whatever fails and however it is scheduled |
| HandleWritesProgress.NoDeadlock | endpoints/data_objects/src/main.cpp:193-207 | while some writer is not done, some writer can go on |
| DataObject.WriteAtBytes | endpoints/data_objects/src/main.cpp:470-474 | a write puts its bytes at their place, leaves every other byte alone, and fills a gap beyond the end with zeros |
| DataObject.WriteAtAppend | endpoints/data_objects/src/main.cpp:470-474 | two writes that follow each other are one write |
| DataObject.WriteAtSwap | endpoints/data_objects/src/main.cpp:470-474 | writes to separate ranges commute |
| ChunkedWrite.Chunks | endpoints/data_objects/src/main.cpp:460-470 | the pieces are non-empty, within the limit, and make up the body |
| ChunkedWrite.RunOneTask | endpoints/data_objects/src/main.cpp:449-474 | one background task, which posts the next one, does exactly the first step of the whole run from its place in the buffer |
| ChunkedWrite.RunWithoutFailure | endpoints/data_objects/src/main.cpp:447-496 | a run without a failing call is one write of the whole body and a success reply, for any pieces |
| ChunkedWrite.RunWithFailure | endpoints/data_objects/src/main.cpp:447-496 | if call f is the first to fail, the bytes before it and a prefix of its piece are written, nothing after it is tried, and the reply depends on whether a later piece notices |
| ChunkedWrite.BadStateReplyIff | endpoints/data_objects/src/main.cpp:451-459 | barring exceptions, the bad-stream reply is given if and only if the stream was bad before some piece |
| ChunkedWrite.SuccessReplyMeans | endpoints/data_objects/src/main.cpp:476-485 | after a success reply all pieces but the last are written, and of the last one what landed, which is all of it if the stream is still good |
| ChunkedWrite.LastPieceLostUnnoticed | endpoints/data_objects/src/main.cpp:451-485 | for every non-empty body, a failure of its last piece loses the end of it, leaves an object that did not reach that far too short, and is answered with success |
| ChunkedWrite.SuccessMeansWrittenIffEmpty | endpoints/data_objects/src/main.cpp:451-485 | on a stream good at first, success means that the body is written, for all objects and failures, if and only if the body is empty |
| ChunkedWrite.HandedIsWholeChunks | endpoints/data_objects/src/main.cpp:447-496 | what is handed to the stream is the whole body or a whole number of chunks of it, however the calls fail |
| ChunkedWrite.StreamingRefinesBuffered | endpoints/data_objects/src/main.cpp:561-650 | without failures, streaming in any fragments leaves the same object, position, handed bytes and reply as writing the body from memory |
| WriteTasks.IncrementalWrite.RunTask | endpoints/data_objects/src/main.cpp:447-496 | one background task of incremental_write: its fields, the stream and the object move as ChunkedWrite.Task says |
| WriteTasks.IncrementalWrite.Run | endpoints/data_objects/src/main.cpp:447-496 | all tasks of one request terminate, with one reply, in the result of the run over the chunks |
| WriteTasks.StreamingWrite.WriteToServer | endpoints/data_objects/src/main.cpp:622-650 | the filled part of the buffer is handed to a good stream; a bad stream is left alone and reported |
| WriteTasks.StreamingWrite.Run | endpoints/data_objects/src/main.cpp:561-650 | all tasks of one streamed request end in the result of the run over the fragments; a socket that fails after them turns success into an error reply |
| DataObjectRead.IncrementalRead.Run | endpoints/data_objects/src/main.cpp:352-393 | a response with its terminal piece consists of non-empty pieces within the buffer size that make up exactly the range, and no read failed; one without it is a prefix of the range, no longer than it, and was stopped by a failed or short read |
| DataObjectRead.Read | endpoints/data_objects/src/main.cpp:727-1011 | exactly which requests are refused, for their range, their replica number or a failed open; that whatever is delivered as complete is exactly the clamped range for every buffer size, so both paths agree; that no failed call is passed over, and without failures every range starting within the object is delivered |
| MultipartFormData.Parse | core/src/multipart_form_data.cpp:45-191 | the state machine terminates on every input, takes every substring from a valid start, and collects exactly the parts of the message |
| MultipartSlices.PartsArePlaced | core/src/multipart_form_data.cpp:70-188 | for every input: each part has a delimiter line, headers, an empty line and a body up to CRLF and the next delimiter, which opens the next part |
| MultipartSlices.PlacedPartIsNext | core/src/multipart_form_data.cpp:70-188 | nothing is passed over: a part that is well placed at the next delimiter is the next part |
| MultipartSlices.PartsStopIff | core/src/multipart_form_data.cpp:70-188 | parsing stops if and only if no part is well placed at the next delimiter |
| MultipartSlices.ValueIsSlice | core/src/multipart_form_data.cpp:162-186 | unless a delimiter starts at the body, the value is the contiguous slice between CRLFCRLF and CRLF plus delimiter, and has no delimiter in it |
| MultipartSlices.ValueOverruns | core/src/multipart_form_data.cpp:172-180 | if one does, the length wraps and the value is the whole rest of the message |
| MultipartSlices.ValueCanOverrun | core/src/multipart_form_data.cpp:172-180 | a message of which that happens |
| MultipartSlices.ValueCleanIff | core/src/multipart_form_data.cpp:162-186 | a stored value is free of delimiters if and only if no delimiter starts at its body |
| MultipartSlices.NameFromOwnHeaders | core/src/multipart_form_data.cpp:108-160 | the name of a part is determined by the text between its own delimiter line and its own body |
| MultipartSlices.CollectKeepsLast | core/src/multipart_form_data.cpp:180-181 | an argument exists if and only if some part has its name, and its value is that of the last such part |
| MultipartPrinting.PrintedHeaders | core/src/multipart_form_data.cpp:108-160 | printed header lines are read to their end, in any message, and give the name that reading them one by one gives |
| MultipartPrinting.HeadersAreLines | core/src/multipart_form_data.cpp:108-160 | conversely, headers that are read are lines up to an empty line: a name up to the first colon, a value up to the first CRLF after it |
| MultipartPrinting.HeadersGiveName | core/src/multipart_form_data.cpp:130-147 | the name after all headers is the one the last form-data disposition with a name parameter gives; all other headers keep it |
| MultipartPrinting.ClientFieldFits | test/test_irods_http_api.py:1561-1578 | the fields the client prints, with any token for a name and any other headers, are covered |
| MultipartPrinting.ClientFieldText | test/test_irods_http_api.py:1566-1569 | the printed field, character for character, as the client writes it |
| MultipartPrinting.PrintedFieldsAreCollected | core/src/multipart_form_data.cpp:70-188 | wherever printed fields occur in a message, parsing from there adds exactly them to the arguments, later ones replacing earlier ones |
| MultipartNames.TokenCharsAre | core/src/multipart_form_data.cpp:134-135 | tokens are made of the visible characters that are no delimiters (section 3.2.6 of RFC 7230) |
| MultipartNames.DispositionGivesFirstName | core/src/multipart_form_data.cpp:134-146 | for every list of token parameters, with or without values and with any blanks, a form-data disposition gives the first one called name, wherever it stands; any other kind gives none |
| MultipartNames.DispositionGivesName | core/src/multipart_form_data.cpp:134-146 | the disposition the client prints gives its name parameter, for every token |
| Text.TrimDropsSpaces | core/src/multipart_form_data.cpp:117-117 | all spaces around a header name go, and nothing else does |
| Text.CaseDoesNotMatter | core/src/multipart_form_data.cpp:131-131 | names are compared without regard to the case of letters |
| MultipartPrinting.ParseInvertsPrint | test/test_irods_http_api.py:1561-1578 | parsing printed fields gives their last-wins map: any headers, dispositions in any case with any list of token parameters, any values without the delimiter, CRLFs and empty values included |
| FormEncoding.DecodeInvertsEncode | core/src/common.cpp:91-117 | decoding an encoded text gives it back, for all bytes |
| FormEncoding.EncodeKeepsIff | core/src/common.cpp:106-117 | encoding leaves a text as it is if and only if all of it is unreserved, and lengthens it otherwise |
| FormEncoding.SplitAtFirst | core/src/common.cpp:127-135 | splitting at a separator cuts off the text before its first occurrence and goes on after it |
| FormEncoding.ReplacePlus | core/src/common.cpp:138-138 | every plus sign becomes a space, in place, and nothing else changes |
| FormEncoding.ToArgumentList | core/src/common.cpp:120-149 | the two nested splits and the map updates compute the arguments token by token: later keys win, tokens with several equals signs are ignored, an empty body has no arguments |
| FormEncoding.ParsedIsReceived | core/src/common.cpp:242-254 | for every non-empty map and every order of its pairs, parsing the written body gives precisely {encode(k) -> v with plus signs turned into spaces} |
| FormEncoding.ParsedWholeIff | core/src/common.cpp:120-149 | the parser gives back the map itself if and only if all keys are unreserved and no value has a plus sign |
| FormBodies.SeparatorsAre | core/src/common.cpp:127-138 | the separating characters are the ones of form encoding |
| FormBodies.EncodedByteIs | core/src/common.cpp:106-117 | letters, digits and "-._~" are written as themselves, every other byte as a triplet with upper-case digits |
| FormBodies.DecodeReads | core/src/common.cpp:89-104 | triplets are read with digits of either case, and every other byte is kept, plus signs and lone percent signs included |
| FormBodies.EveryTextIsReadable | core/src/common.cpp:89-104 | every text is of that form, so decoding is described for all |
| FormBodies.BodyMeans | core/src/common.cpp:120-149 | what every body means: keys as written, values with triplets read and plus signs as spaces, a key alone with an empty value, the last of each key, nothing for tokens with several equals signs |
| FormBodies.EveryBodyIsOfTokens | core/src/common.cpp:120-149 | every body is of the form so described |
| ProcessStash.Stash.GenerateUniqueKey | core/src/process_stash.cpp:20-32 | the retry loop ends with the first draw that is not in use |
| ProcessStash.Stash.Insert | core/src/process_stash.cpp:37-41 | inserting never overwrites an entry |
| ProcessStash.Stash.Evict | core/src/main.cpp:944-977 | with a clock reading per entry, in any order: only entries expired by the end are erased, and all that had expired at the beginning are |
| ProcessStash.HistoryIsRemembered | core/src/process_stash.cpp:20-68 | after every schedule of inserts and evictions the stash holds the most recent issue of each key, unless that has expired |
| ProcessStash.AcceptedIffUnexpired | core/src/common.cpp:343-416 | a token is accepted at a time if and only if its most recent issue was to a client and expires later |
| ProcessStash.EvictionIsUnobservable | core/src/common.cpp:315-420 | two servers that issued the same tokens decide every request alike at every time, however often each of them evicted |
| ProcessStash.UnexpiredIsNotEvicted | core/src/main.cpp:950-965 | an unexpired entry is found in the stash after every schedule |
| ProcessStash.EvictionByKind | core/src/main.cpp:948-970 | an eviction erases sessions and states that had run out when it began, keeps those that have not when it ends, and never touches other values |
| ProcessStash.RequestIsAdmittedIff | core/src/common.cpp:333-416 | a request that bears a token, with any spaces around it, is admitted as a client if and only if the token was most recently issued to that client and expires later, and is unauthorized otherwise |
| ProcessStash.BadRequestIff | core/src/common.cpp:322-336 | a request is malformed if and only if it has no Authorization header or no "Bearer " in it |
| ProcessStash.ClientHeaderIsRead | core/src/common.cpp:333-340 | the Authorization header a client makes of its token is read as that token |
| SpecificQuery.Execute | endpoints/query/src/main.cpp:364-385 | the counting loop delivers exactly the rows from offset up to offset + count, as far as there are rows |
| SpecificQuery.ClampCount | endpoints/query/src/main.cpp:308-318 | the page size is the one asked for if it is between 1 and the maximum, and the nearer of the two if not; the maximum if none is asked for |
| SpecificQuery.PagesTileRows | endpoints/query/src/main.cpp:364-385 | pages at successive offsets concatenate to all rows |
| SpecificQuery.PageNumber | endpoints/query/src/main.cpp:364-385 | page k is the one at offset k times the page size, and it is not empty |
| SpecificQuery.ClientCollectsAllRows | endpoints/query/src/main.cpp:302-318 | a client that steps by the granted page size, whatever size it asks for, collects every row once, in order; its pages are non-empty up to the end of the rows and empty after it |

## Left out

- iRODS calls, the connection pool, authentication and tickets: an open or a write has an
  arbitrary outcome, a write that fails may leave any prefix of its bytes in the object, and
  closing a stream does not throw.
- Sockets, sessions, TLS and signals: of the plumbing only "a task runs, then posts the next
  one" is kept. A socket that fails while a response is being sent is not modelled.
- A shutdown that races with a write on the same handle, and the use of a handle before the
  reply of its init: clients wait for those, and the models assume it.
- A data object that changes its size while it is read, and writers that reach it other than
  through the modelled streams.
- Append mode, truncation and replica targeting: server-side behaviour that is not in this
  repository.
- Integer widths, except for the wrap-around of the body length in the multipart parser:
  counters and lengths are unbounded.
- The conversion of parameters to numbers: a parameter is absent, malformed or a number.
- The log texts, reply bodies and session handling of the operations; a reply is modelled by
  its kind.
- Header values are read as `form-data` with parameters that are tokens: quoted strings and
  comma-separated lists, which the library's `ext_list` also accepts, are not modelled.
- The extraction of the boundary from the Content-Type header, and the boundary's own syntax.
- libcurl's escape and unescape are modelled by RFC 3986 on bytes; bodies of 2 GiB and more,
  where a length is cast to int, are not.
- OpenID Connect: tokens that are not in the stash are refused, as on a server without that
  stanza. The user mapping plugins are not modelled.
- Looking a token up and reading the clock are one step with arbitrary evictions before it;
  a token issued between the two is not.
- The handlers for collections, resources, rules, tickets, users and zones, permission tables,
  JSON bodies and the configuration schema text: pass-through or finite tables.
- HandleWritesOutcome.Confluence: asks that no two writers have the same stream at the same
  time, which is up to clients that choose streams, and that no two requests hand over bytes
  for the same place, because then the order decides. It is for requests that give an
  offset; HandleWritesPositions.ConfluenceAsPlaced is for all.
- HandleWritesOutcome.StreamedAndBufferedAgree: if there are fewer streams than requests that
  ask for one, it compares runs in which the same ones are turned away, because that depends
  on the interleaving. The requests give an offset.
- HandleWritesVerdicts.ReplyIsThatOfRun: for requests that give an offset; the others run as
  RunAsPlaced says.
- HandleWritesPositions.AllContinue: where a stream stands after a write that failed is not
  known.
- DataObjectRead.Read: a replica that is named has the same bytes as the object.
- ParallelWriteRegistry.Registry.Init: takes one request at a time; the interleavings of init
  are those of StreamReservation.
- ProcessStash.Stash.GenerateUniqueKey: relies on the random generator to produce an unused
  key at some point; the source relies on it too.
