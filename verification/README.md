# Verified model of the agent's streams, protocols and accounts

This project models, in Dafny, the parts of the agent in which many small steps have to add up to
one simple promise, and proves the promises for all inputs, runs and interleavings:

- **Bytes and text.** The SSE decoder and parser, the sandbox output collector and the input-file
  reader all take bytes cut at arbitrary places. One UTF-8 theory (well-formedness as in section 4
  of RFC 3629, one U+FFFD for each maximal subpart as in section 3.9 of the Unicode Standard) serves
  them all; each is proved equal to a definition on the whole input, up to an exactly stated
  condition where the code does not meet it. The event-stream format is that of sections 9.2.5 and
  9.2.6 of the WHATWG HTML standard.
- **Protocols.** The SSE read-and-resume loop, the Streamable HTTP client's recovery, the A2A
  executor under every interleaving, and the ACP session table as a list ordered by last use.
- **Accounts.** Usage normalization, catalog validation, selection and pricing, the run's cost
  ledger and its report, and the retry loop that records every physical attempt.
- **Transformations.** The skills DSL with its parser and printer, and the Event-MCP dispatcher as a
  fold over its handlers.

## How it is organised

| file | what it holds |
|---|---|
| `Common`, `Text` | values, sequence lemmas; the `str` operations the parsers use |
| `Utf8`, `Utf8Stream`, `Utf8Cuts` | the UTF-8 theory; the incremental decoder; what cuts change in it |
| `ByteReader`, `Collect`, `InputFiles` | readers; the output collector; the input-file section |
| `Sse`, `SseChunks`, `SseEvents`, `SseLimits` | the event parser; what cuts change in its blocks, in its events, and in what its limit refuses |
| `SseRoundTrip`, `SseFields` | printing events and reading them back; what single lines mean |
| `SseRead`, `SseReadProperties`, `SseAnswers` | the read loop with resumes; what every read guarantees; what it returns, told by the messages and the network |
| `HttpClient`, `SessionRecovery` | one request with its recovery; its bounds |
| `ClientAnswers`, `ClientHeaders` | what requests return, told by the answers; the session id and version on every POST of a client's life |
| `A2aExecutor`, `A2aReports` | the executor as a transition system; what it reports, told by the actions of a run |
| `Sessions` | the session table and the list it stands for |
| `Usage`, `UsageShapes` | usage normalization; what each provider's own document comes to |
| `Money`, `Accounting`, `Catalog`, `CostLedger`, `ProviderRetry` | the other accounts |
| `Patterns`, `QualifiedTools`, `SkillsDsl`, `PrintedSkills`, `QuotedPieces`, `SkillsRoundTrip`, `SkillsErrors` | the skills DSL |
| `EventDispatcher`, `DispatchRuns` | the middleware chain; a dispatch told by what its handlers return |

`dafny verify dfyconfig.toml` checks everything.

A Dafny `char` is a Unicode scalar value and a `string` is a Rust `str`; a path is a byte string, as
on Unix. A `Decimal` is a count of 10^-28 that a 96-bit coefficient with at most 28 decimal places
can hold. How a sum that it cannot hold is rounded is a parameter, of which only this is assumed: it
depends on the exact sum alone, it changes nothing that fits, and no amount that fits lies between
the exact and the rounded one. Objects whose methods update their fields are classes, loops are
methods, and each is tied by its `ensures` to a function about which the properties are proved. The
network, the model, clocks, random numbers and JSON decoding are parameters: functions from "the
n-th time it is asked" to any answer, so every theorem holds whatever they answer.

## Where the code departs from the simple promise

Each of these is stated as an if-and-only-if, and a concrete input shows the departure:

- The decoder yields the lossy decoding for every way of cutting the bytes exactly when no sequence
  is cut short after its second or third byte (`ExactForEveryCutIffNoTruncatedSequence`): at the
  start of a call an invalid sequence is skipped byte by byte, later in a call as one piece. It
  yields one and the same text for every way of cutting exactly when no such sequence follows a
  well-formed character directly (`SameTextForEveryCutIff`).
- The parser cuts the same blocks for every chunking exactly when no LF blank line stands in front
  of the CRLF blank line that is found first (`SameBlocksForEveryCutIffRegular`): a CRLF blank line
  anywhere in the buffer is preferred. It gives the same events exactly when, in front of each CRLF
  blank line that is cut at, at most one of the stretches between LF blank lines sets a field
  (`SameEventsForEveryCutIff`).
- The comment on `SseParser::push` (`src/mcp/sse.rs:44-48`) promises an error when the unterminated
  buffer is too long; the code measures buffer and chunk before it takes complete events out. It
  keeps the promise exactly when both together fit or not even the unterminated rest does
  (`RefusedForItsRestIff`); `CompleteEventsRefused` is a chunk of two complete events that is refused.
  A stream passes under some chunking exactly when every stretch with the blank line that ends it,
  and the unterminated rest, fits (`SomeCutPassesIff`).
- The legacy HTTP+SSE fallback reads its one stream to the end before it looks for the endpoint
  event (`src/mcp/http_client.rs:225-227`), so an endpoint event on a stream that stays open is never
  used: the fallback has a URL only if the stream closes (`LegacyWorksIff`).
- A request that meets a 404 forgets its session and starts a new one, but a 404 to its retry leaves
  the new session id in place, and the next POST still carries it (`src/mcp/http_client.rs:93-98`):
  a session id is held from its offer until another offer or a 404 to the first POST of a request
  (`HeadersAreTold`); `SecondExpiryIsKept` is such a run.
- Input files are told apart by how their paths are displayed (`src/context.rs:40-42`). That is exact
  for paths in UTF-8 (`DisplayTellsTextApart`); two other paths can be displayed alike, and then the
  second file is left out (`FilesDisplayedAlikeMerge`).
- A validated catalog is ambiguous exactly at the last `u128` instant with two open-ended rules
  (`AmbiguousIff`).
- However the accepted tasks go on, a cancel request finds every task it could still stop exactly
  when the registry is exact and no two tasks that still have their token share an id
  (`NoneHiddenIff`). From the start, no continuation of any part of a run hides a task exactly when
  tasks in flight had distinct ids throughout the run (`NoneHiddenAlongIff`); `RepeatedIdHidesEntry`
  is a run to the contrary. A cancel that was acknowledged is honoured in either case.
- Usage is billed exactly once exactly when the separately metered parts fit (`BilledOnceIffPartsFit`);
  `CachedWithoutPromptCountIsBilledTwice` is a payload that is billed twice. In the names of OpenAI's
  responses, `input_tokens` is taken as the uncached input: cached tokens come on top (`ResponsesUsage`).
- A total is exactly the sum of its parts after every step exactly when no running sum has to be
  rounded (`CheckedSumIff` for the lines of a price, `MoneyIsConservedIff` for the rows of a run);
  `SumThatMustBeRounded` has two amounts whose sum must be.
- A printed skills catalog parses back to itself exactly when it is `Representable`; for a catalog
  that was parsed from text that leaves a blank name, a blank policy, and a policy in which
  `allowed_tools: [` appears to start (`ReparsedIff`).

## Model

| member | source | states |
|---|---|---|
| Utf8.ValidIsEncoding | src/mcp/sse.rs:120-151 | the strict decoder accepts only encodings of texts, and returns that text |
| Utf8.EncodingIsValid | src/mcp/sse.rs:120-151 | the strict decoder accepts the encoding of every text |
| Utf8.InvalidMeaning | src/mcp/sse.rs:120-151 | an error's `valid_up_to` and `error_len` give the longest valid prefix and the maximal subpart after it, with no length when the input just ends too soon |
| Utf8.PrefixOfValid | src/context.rs:127-144 | a prefix of valid bytes fails, if at all, only for ending inside a character |
| Utf8.SettledSplit | src/mcp/sse.rs:101-151 | decoding a concatenation decodes the first part as far as it is decided, then the undecided rest with the second part |
| Utf8.UnfinishedIsShortSuffix | src/mcp/sse.rs:101-151 | what is undecided is a suffix of at most three bytes that is a proper prefix of a well-formed sequence |
| Utf8.LossyRoundTrip | src/sandbox/collect.rs:42-56 | encoding a text and decoding it lossily gives the text, so re-encoding a kept prefix loses nothing |
| Utf8Stream.DecodeCompletePrefix | src/mcp/sse.rs:120-151 | the recursion terminates, never reports its internal error, returns the decided text and appends exactly the undecided suffix to `pending` |
| Utf8Stream.DecodedAtError | src/mcp/sse.rs:120-151 | what each error branch contributes, by the position of the error |
| Utf8Stream.Utf8StreamDecoder.Push | src/mcp/sse.rs:101-108 | decodes pending bytes and chunk together; afterwards `pending` is the undecided suffix |
| Utf8Stream.Utf8StreamDecoder.Finish | src/mcp/sse.rs:111-117 | nothing or exactly one U+FFFD, and nothing stays pending |
| Utf8Stream.PendingIsUnfinished | src/mcp/sse.rs:101-151 | after any pushes `pending` is the undecided suffix of all bytes so far, however they were cut |
| Utf8Stream.WellFormedStream | src/mcp/sse.rs:101-118 | for well-formed bytes every chunking concatenates to the text and leaves nothing for `finish` |
| Utf8Stream.StreamTextCollapses | src/mcp/sse.rs:101-151 | for arbitrary bytes and every chunking the output equals the lossy decoding once runs of U+FFFD are collapsed |
| Utf8Stream.ExactForEveryCutIffNoTruncatedSequence | src/mcp/sse.rs:120-151 | the output is exactly the lossy decoding for every chunking if and only if no sequence is cut short after its second or third byte |
| Utf8Cuts.SameTextForEveryCutIff | src/mcp/sse.rs:101-151 | all chunkings of a byte stream give one text if and only if no sequence cut short after its second or third byte follows a well-formed character directly |
| Utf8Cuts.CutShortAfterText | src/mcp/sse.rs:125-147 | bytes for which that fails, and the same bytes without the letter in front, for which it holds |
| Utf8Stream.TruncatedSequenceExample | src/mcp/sse.rs:125-131 | three bytes on which one push gives two U+FFFD and the lossy decoding one |
| Collect.CollectUtf8Bounded | src/sandbox/collect.rs:26-56 | for every split into reads: the first `max_chars` characters of the lossy decoding of all bytes, `truncated` exactly when there are more, an error exactly when a read failed; it reads to the end |
| Collect.OverlongIsFinal | src/sandbox/collect.rs:33-52 | once a prefix decodes to too many characters, more bytes change neither the kept text nor the flag |
| InputFiles.ReadCapped | src/context.rs:99-125 | for every pattern of short reads: the first 200004 bytes, flagged as cut exactly when there are more; a failed read is an error only before the cap |
| InputFiles.ReadUtf8Prefix | src/context.rs:94-147 | open, read and UTF-8 errors, or the text of the kept bytes |
| InputFiles.AcceptedIff | src/context.rs:127-146 | the kept bytes are accepted if and only if they encode a text, or were cut by the cap inside the next character |
| InputFiles.CutText | src/context.rs:127-144 | cutting an encoded text at a byte yields its longest whole-character prefix, at most three bytes short |
| InputFiles.FormatFile | src/context.rs:68-92 | the section of a file is that of its bounded read |
| InputFiles.ValidFileShown | src/context.rs:68-92 | the whole section of a valid UTF-8 file: its header, its first 50000 characters, the marker exactly when it has more, and its end; the byte cap never decides |
| InputFiles.BuildInputFilesContext | src/context.rs:34-49 | the sections of the files that are displayed differently, in order of first mention, joined by blank lines, or the first error |
| InputFiles.RepeatedFileIgnored | src/context.rs:38-47 | naming a file again, by any path that resolves to it or to one displayed like it, changes nothing |
| InputFiles.DisplayTellsTextApart | src/context.rs:40 | two paths in UTF-8 are displayed alike if and only if they are equal |
| InputFiles.FilesDisplayedAlikeMerge | src/context.rs:40-43 | two different files, neither path in UTF-8, of which the second is left out |
| InputFiles.SectionsInOrder | src/context.rs:34-49 | different files that can all be shown give their sections in the order they are named |
| InputFiles.FirstFailureDecides | src/context.rs:38-46 | the first file that cannot be resolved or shown decides the error, whatever comes after it |
| Text.FindIsFirst | src/mcp/sse.rs:153-155 | the substring search finds the first occurrence and fails only without one |
| Sse.ParseEventBlock | src/mcp/sse.rs:157-197 | the line loop yields an event if and only if a field is set: the last usable `event`, `id` and `retry`, all `data` lines joined |
| SseFields.LineEnd | src/mcp/sse.rs:163 | a carriage return at the end of a line is not part of it |
| SseFields.NoField | src/mcp/sse.rs:164-166 | blank lines and comments set nothing |
| SseFields.NameAndValue | src/mcp/sse.rs:167-174 | a field ends at the first colon, one space after it is dropped, and a line without a colon has an empty value |
| SseFields.LastFieldsWin | src/mcp/sse.rs:157-197 | of several lines for one field the last usable one counts: an id without NUL, a retry time that is a number |
| Sse.SseParser.constructor | src/mcp/sse.rs:37-42 | an empty buffer, and a limit of at least one byte |
| Sse.SseParser.Push | src/mcp/sse.rs:49-73 | on overflow nothing changes; otherwise the events of all blocks the buffer then holds, and no boundary stays in the buffer |
| Sse.SseParser.Finish | src/mcp/sse.rs:76-83 | the rest, unless blank, is parsed as one more block, and the buffer is empty |
| SseChunks.DrainedRestHasNoBoundary | src/mcp/sse.rs:58-71 | no boundary is left behind by draining |
| SseChunks.DrainSplit | src/mcp/sse.rs:49-73 | in a regular stream, draining a prefix first and then the rest drains the whole |
| SseChunks.PushBlocksIsDrain | src/mcp/sse.rs:49-73 | for a regular stream, any sequence of pushes cuts the blocks of one push |
| SseChunks.SameBlocksForEveryCutIffRegular | src/mcp/sse.rs:49-73 | every chunking gives the same blocks and the same rest if and only if the stream is regular |
| SseChunks.NoCrIsRegular | src/mcp/sse.rs:153-155 | a stream without carriage returns is regular |
| SseChunks.CrLfOnlyIsRegular | src/mcp/sse.rs:153-155 | a stream whose every line end is CRLF is regular |
| SseChunks.MixedLineEndsMerge | src/mcp/sse.rs:153-155 | a stream that one push reads as one block and two pushes as two |
| SseChunks.RefusedForItsRestIff | src/mcp/sse.rs:44-55 | a push is refused for the length of its unterminated rest, and nothing else, if and only if it is not the case that buffer and chunk are too long while the rest fits; a rest that is too long is always refused |
| SseChunks.CompleteEventsRefused | src/mcp/sse.rs:44-55 | two complete events refused in one push and accepted in two |
| SseEvents.SameEventsForEveryCutIff | src/mcp/sse.rs:49-73 | every chunking gives the same events and the same rest if and only if, in front of each CRLF blank line that is cut at, at most one stretch between LF blank lines sets a field |
| SseEvents.RegularIsEventRegular | src/mcp/sse.rs:58-71 | a regular stream meets that condition |
| SseEvents.MixedEndsIff | src/mcp/sse.rs:153-155 | one line ended by an LF and one by a CRLF blank line are never regular, and give the same events under every cut if and only if one of the two sets no field |
| SseEvents.CommentsMayMerge | src/mcp/sse.rs:153-155 | a comment before an event: different blocks, the same events |
| SseLimits.SomeCutPassesIff | src/mcp/sse.rs:44-55 | a stream passes under some chunking if and only if each stretch with the blank line that ends it, and the unterminated rest, fits the limit |
| SseRoundTrip.EventOfLines | src/mcp/sse.rs:157-197 | the printed lines of one event parse to that event, less a carriage return at the end of a line |
| SseRoundTrip.ParsePrintedEvents | src/mcp/sse.rs:49-83 | a printed list of events parses to that list, less such carriage returns, with nothing left over |
| SseRoundTrip.RoundTripIffPrintable | src/mcp/sse.rs:157-197 | printing and parsing gives exactly the same events if and only if each is printable: no line feed in a field, no NUL in an id, no carriage return ending a line |
| SseRoundTrip.ParsedIsWellLined | src/mcp/sse.rs:157-197 | whatever the block, a parsed event has no line feed in a field and no NUL in its id |
| SseRead.SseEventResult | src/mcp/http_client.rs:594-617 | an event answers exactly when its data is an object whose id matches; then its result, or its error |
| SseRead.AnswersIff | src/mcp/http_client.rs:594-617 | which ids answer a request: its number, the same number read as a signed 64-bit one, or a text that parses to it; and an event answers at most one request |
| SseRead.ScanIsFirst | src/mcp/http_client.rs:486-494 | scanning events stops at the first that answers |
| SseRead.IngestSseEvent | src/mcp/http_client.rs:575-592 | the log grows by the event and the last event id stays that of the log |
| SseRead.FlushSseFinish | src/mcp/http_client.rs:550-573 | at the end of a stream exactly the held-back text is parsed, up to the first answer |
| SseRead.TakeChunk | src/mcp/http_client.rs:481-495 | one chunk is decoded, parsed and ingested up to the first answer |
| SseRead.EndStream | src/mcp/http_client.rs:496-539 | flush, then reply or resume, with the id that the resume request carries |
| SseRead.ReadSseUntil | src/mcp/http_client.rs:452-548 | the incremental loop, with its decoder and parser replaced at each resume, has the outcome and the resume ids of the whole-stream definition |
| SseReadProperties.ResumesAreBounded | src/mcp/http_client.rs:469-539 | at most three resumes, so at most four streams; none without a target id |
| SseReadProperties.ReadIsReplyTo | src/mcp/http_client.rs:452-548 | streams, endings and resumes only decide which events are available and how they end; the reply is the first answer among them, or that end |
| SseReadProperties.FirstAnswerDecides | src/mcp/http_client.rs:452-548 | the reply is the value of the first answering event over all streams, with the log ending there, or its error; an error is returned if and only if the first answer carries it, or no event answers and the network failed with it |
| SseReadProperties.ResumesCarryLatestId | src/mcp/http_client.rs:496-539 | the i-th resume carries the latest event id of all streams before it |
| SseReadProperties.FeedIsDrain | src/mcp/http_client.rs:481-495 | decoder and parser together, on bytes cut anywhere, give the events of the decoded text and leave its rest, if that text gives the same events under every cut |
| SseReadProperties.CutsAreInvisible | src/mcp/http_client.rs:452-548 | two networks that deliver the same such texts differently cut give the same outcome |
| SseReadProperties.PrintedStream | src/mcp/http_client.rs:479-494 | events printed by a server, encoded and cut anywhere come out of decoder, parser and both flushes again; exactly the same if and only if they are printable |
| SseReadProperties.NoCutOverflowsIffSmall | src/mcp/sse.rs:49-55 | no way of cutting a well-formed body overflows a push if and only if it has at most 1 MiB |
| SseAnswers.MessageMeans | src/mcp/http_client.rs:715-735 | in terms of the message alone: `v` is returned exactly for an id that matches, no error, and `v` as result, or null for none; an error that is there is returned |
| SseAnswers.ReplyIsFirstAnswer | src/mcp/http_client.rs:452-548 | of all events a read can take in, the message of the first whose id matches makes the reply, with the events up to it |
| SseAnswers.ReadIsTold | src/mcp/http_client.rs:452-686 | for texts on up to four streams, cut anywhere: an answer among the events seen is returned, however its stream goes on; without one the reply is how the read ended, by stream end and resume status |
| SseAnswers.PrintedAnswerIsRead | src/mcp/http_client.rs:452-686 | events printed by a server, on streams that are dropped and resumed, encoded and cut anywhere: the first that answers is returned |
| SseAnswers.ResumeIdsAreTold | src/mcp/http_client.rs:520-535 | each resume carries the last id among all events of the texts before it |
| HttpClient.McpHttpClient.Request | src/mcp/http_client.rs:90-105 | one retry after re-initializing or after recovering a token; the method, with all it calls, has the new state and the result of the function that the next rows are about |
| SessionRecovery.RequestIsBounded | src/mcp/http_client.rs:90-105 | whatever the server answers: at most five POSTs with at most four ids, drawn one after the other from the counter, and only accepted protocol versions |
| SessionRecovery.RequestIdsIncrease | src/mcp/http_client.rs:273-274 | short of the counter's wrap-around the ids are fresh and strictly increasing |
| SessionRecovery.IdsStayFresh | src/mcp/http_client.rs:273-274 | over any sequence of connects, requests and notifications every id sent is greater than all before it, up to the wrap-around |
| SessionRecovery.BoundsAreReached | src/mcp/http_client.rs:90-259 | a server that makes one request send five POSTs with four ids |
| SessionRecovery.ExpiredIff | src/mcp/http_client.rs:273-323 | `SessionExpired` if and only if the POST met a 404 while a session id was held |
| SessionRecovery.NoSessionNoExpiry | src/mcp/http_client.rs:90-105 | with no session held and none offered, `request` never reports an expired session |
| SessionRecovery.ExpiryReinitializesWithoutSession | src/mcp/http_client.rs:93-98 | after an expiry the next POST is an `initialize` without a session id |
| SessionRecovery.ValueIsLastAnswer | src/mcp/http_client.rs:90-105 | a value is read from the answer to the last POST, which asked for that method |
| SessionRecovery.LegacyWorksIff | src/mcp/http_client.rs:205-243 | the fallback has a message URL if and only if the GET succeeds, its stream is read to the end, an endpoint event is among the events and its data joins to a URL; then the stream did close |
| ClientHeaders.HeadersAreTold | src/mcp/http_client.rs:90-423 | over all calls of a fresh client, in terms of its POSTs and their answers: the session id on a POST is the one last offered in a 2xx answer to a request, unless a request opened with a 404 since; the version is the last known one settled by an `initialize`, and is left out of an `initialize` without session to the first URL |
| ClientAnswers.SecondExpiryIsKept | src/mcp/http_client.rs:93-98 | a run in which the retry expires too and its session id goes with the next POST |
| ClientAnswers.PrintedAnswerIsReturned | src/mcp/http_client.rs:90-349 | events printed by a server on up to four streams and cut anywhere: the request returns the result of the first that answers, or its error |
| ClientAnswers.StreamBody | src/mcp/http_client.rs:333-349 | a body is read as a stream if its content type names one; the first answer is returned |
| ClientAnswers.StreamBodyWithoutAnswer | src/mcp/http_client.rs:339-349 | a stream that ends without an answer is an error that names the id |
| ClientAnswers.SseLikeBody | src/mcp/http_client.rs:351-386 | a body not named as a stream that starts like one is parsed whole, its last event included; the first answer is returned |
| ClientAnswers.SseLikeBodyWithoutAnswer | src/mcp/http_client.rs:360-386 | such a body over 1 MiB, or without an answer, is an error |
| ClientAnswers.JsonBody | src/mcp/http_client.rs:388-392 | any other body gives a value exactly when it is a message that answers the request with it |
| ClientAnswers.FailedPost | src/mcp/http_client.rs:285-323 | the error of a POST that gets no value, by its status |
| ClientAnswers.RefusedTokenIsRetriedOnce | src/mcp/http_client.rs:99-102 | after a refused token a second POST is sent exactly when a new token can be had |
| ClientAnswers.NotificationSucceedsIff | src/mcp/http_client.rs:108-124 | a notification is one POST without id and succeeds if and only if the answer is 2xx |
| ClientAnswers.ConnectedAfterHandshake | src/mcp/http_client.rs:159-203 | a client is connected only once the server has taken `notifications/initialized` |
| ClientAnswers.RefusedInitializeFallsBack | src/mcp/http_client.rs:181-259 | a 400, 404 or 405 to the first `initialize` leads to one GET; with a URL from it the next POST is an `initialize` to that URL |
| ClientAnswers.EndpointIsFirst | src/mcp/http_client.rs:228-238 | the URL comes from the first event named `endpoint`, whatever its case |
| A2aExecutor.NextKeepsInv | src/a2a/executor.rs:241-399 | every step keeps: free permits plus unfinished accepted tasks is 256, every stream is a prefix of a legal one, every registered token is of a task that has not removed it |
| A2aExecutor.RunKeepsInv | src/a2a/executor.rs:241-399 | the same over every interleaving |
| A2aExecutor.NothingLeaks | src/a2a/executor.rs:266-361 | whenever every entry is done, all 256 permits are free and no token is registered |
| A2aExecutor.WorkIsBounded | src/a2a/executor.rs:266-361 | the accepted tasks, left to themselves, take no more steps than the sum of their ranks, in whatever order and whatever their runners answer |
| A2aExecutor.WorkEndsClean | src/a2a/executor.rs:266-361 | from any state that keeps the invariant, whatever the runners answer, finitely many steps of the accepted tasks end with all 256 permits free and no token registered |
| A2aExecutor.AcknowledgedCancelIsHonoured | src/a2a/executor.rs:366-399 | in every interleaving, ids repeated or not: once a cancel is acknowledged that task reports nothing but Canceled |
| A2aExecutor.DistinctIdsKeepRegistryExact | src/a2a/executor.rs:266-361 | while the ids of tasks that still have their token are distinct, the registered ids are exactly those |
| A2aExecutor.ReachableExact | src/a2a/executor.rs:366-399 | then a cancel is acknowledged if and only if such a task exists |
| A2aExecutor.NoneHiddenIff | src/a2a/executor.rs:241-399 | from any state that keeps the invariant: however accepted tasks go on, a cancel finds every task it could still stop if and only if the registry is exact now and no two tasks that still have their token share an id |
| A2aExecutor.NoneHiddenAlongIff | src/a2a/executor.rs:241-399 | over runs from the start: no continuation of any part of a run hides a task from a cancel if and only if ids in flight are distinct throughout the run |
| A2aExecutor.RepeatedIdHidesEntry | src/a2a/executor.rs:266-361 | with an id in flight twice, the end of one task makes a cancel of the other be refused |
| A2aReports.ReportTellsTheRun | src/a2a/executor.rs:241-418 | over every run, by its actions: a reported state is Canceled if and only if the token was set, by a deadline or a cancel that found it, when the task looked at it; else Completed if and only if the run reached its goal or a limit, and Failed otherwise; a token set before the run keeps it from running |
| A2aReports.PromptIff | src/a2a/executor.rs:152-170 | which messages are refused, and with which error: absent, a part that is no text, nothing but white space; else the texts joined by line feeds |
| A2aReports.CallIsAnswered | src/a2a/executor.rs:241-264 | a call is refused for its message, or because 256 tasks hold a permit; it then gets that error and holds nothing |
| Sessions.SessionTable.NewSession | src/acp/server.rs:96-124 | a new id goes to the end of the recency list; a full table of 256 evicts the head, never the new session |
| Sessions.SessionTable.EvictLruSessionIfNeeded | src/acp/server.rs:284-300 | over capacity the least recently used other session is removed, else nothing changes |
| Sessions.SessionTable.OldestOtherThan | src/acp/server.rs:292-297 | the least touch number among the others belongs to the head of the list, in whatever order the map is walked |
| Sessions.SessionTable.Prompt | src/acp/server.rs:161-172 | a known session gets a fresh flag and moves to the end; an unknown one changes nothing |
| Sessions.SessionTable.Cancel | src/acp/server.rs:135-147 | sets the current flag of that session only; recency does not change |
| Sessions.SurvivesIffFewUsedSince | src/acp/server.rs:96-172 | over every run a session just used is kept if and only if fewer than 256 other sessions are created or prompted since |
| Sessions.SessionIdsDiffer | src/acp/server.rs:50-53 | different session numbers print as different ids |
| Usage.BilledOnceIffPartsFit | src/provider/openai_compat.rs:560-701 | without saturation the meters bill at least prompt plus completion tokens, and exactly those if and only if the separately metered parts fit |
| Usage.ExtractedUsageIsBilledOnce | src/provider/openai_compat.rs:528-701 | the same for every payload under every provider's names; without usage nothing is billed |
| Usage.CachedWithoutPromptCountIsBilledTwice | src/provider/openai_compat.rs:528-609 | a payload with cached tokens and no prompt count under any name is billed twice |
| UsageShapes.OpenAiUsage | src/provider/openai_compat.rs:528-701 | for every document in OpenAI's names: prompt, completion and total are the counts written there, and when the parts fit every meter has exactly its count |
| UsageShapes.AnthropicUsage | src/provider/openai_compat.rs:528-701 | the same for Anthropic's names, where cached and cache-written tokens come on top of the input |
| UsageShapes.GeminiUsage | src/provider/openai_compat.rs:528-701 | the same for Gemini's names, where thoughts come on top of the candidates and are metered apart |
| UsageShapes.GeminiSnakeUsage | src/provider/openai_compat.rs:528-701 | the same for those names in snake case |
| UsageShapes.ResponsesUsage | src/provider/openai_compat.rs:528-701 | the same for the names of OpenAI's responses, where cached tokens come on top of `input_tokens` |
| ProviderRetry.CompleteAccounted | src/provider/openai_compat.rs:291-517 | for every sequence of outcomes: one full record, reported cost and its details included, per attempt, each retry after its own delay, and the verdict of the last attempt |
| ProviderRetry.FirstAmountIsFirst | src/provider/openai_compat.rs:703-740 | the reported cost is found under the first configured key that has one |
| ProviderRetry.LastAttemptIsFirstFinal | src/provider/openai_compat.rs:295-517 | the last attempt is the first whose outcome is not retryable, or the one after the last retry |
| ProviderRetry.AttemptsTellTheRun | src/provider/openai_compat.rs:295-517 | attempts are numbered from one, at most one more than retries; all but the last are transport failures, 429 or 5xx; only a success ends with a record without an error |
| ProviderRetry.DelayBounds | src/provider/openai_compat.rs:237-243 | each delay is between the raw delay and a quarter more plus one, saturating |
| ProviderRetry.DelaysNeverShrink | src/provider/openai_compat.rs:237-243 | over a run: of the first eleven delays none is shorter than the one before it, whatever the random parts; from the eleventh on all are in one window |
| ProviderRetry.FirstAndLongestDelay | src/provider/openai_compat.rs:237-243 | the raw delay starts at the configured one, at least a millisecond, and ends at 1024 times that |
| ProviderRetry.VerdictMeans | src/provider/openai_compat.rs:365-517 | content is returned exactly for a 2xx reply that is a completion; every other outcome has its own error |
| ProviderRetry.RunStopsIff | src/provider/openai_compat.rs:295-425 | the last attempt is the first that was sent and met neither 429 nor 5xx, or the one after the last retry |
| ProviderRetry.BodyCostGoesFirst | src/provider/openai_compat.rs:703-740 | the cost is that of the first configured pointer of the body, and only without one that of the first configured header |
| ProviderRetry.DetailsComeFrom | src/provider/openai_compat.rs:742-757 | of the three objects with details the last one that has a name gives its amount |
| ProviderRetry.RecordTells | src/provider/openai_compat.rs:302-517 | where status, request id, usage, model, tier and error of a record come from |
| Money.SumThatMustBeRounded | src/billing/mod.rs:770-777 | two amounts whose sum is not an amount |
| Catalog.Validate | src/billing/mod.rs:564-629 | accepts exactly the catalogs without any defect, and names a real defect otherwise |
| Catalog.TwoMatchesMeetAtTheEnd | src/billing/mod.rs:606-619 | two rules of a valid catalog match one attempt only at the last instant, both without an end |
| Catalog.AmbiguousIff | src/billing/mod.rs:683-715 | selection from a valid catalog is ambiguous if and only if the attempt is at the last instant and two open-ended rules match it |
| Catalog.AmbiguousAtTheLastInstant | src/billing/mod.rs:606-619 | a catalog that is accepted and then ambiguous |
| Catalog.SelectionIgnoresOrder | src/billing/mod.rs:683-715 | permuting the rules never changes the selection |
| Catalog.SelectedIff | src/billing/mod.rs:683-715 | a rule is selected if and only if it is the only one for the provider, the resolved or else the requested model, and the tier, that is in force at that time; none is found only if there is none |
| Catalog.PriceByRule | src/billing/mod.rs:743-783 | the pricing loop gives up exactly when a line or a running total is out of range; otherwise its total and lines are those of the rule |
| Catalog.CheckedSumIff | src/billing/mod.rs:770-777 | the running total is exactly the sum after every line, if and only if no running total has to be rounded |
| Catalog.LinesChargeRates | src/billing/mod.rs:752-769 | every rate is charged once, for the quantity the attempt metered |
| Catalog.LinesAreMetered | src/billing/mod.rs:743-783 | in terms of the attempt's meters: the line of a fixed cost, and for each rate its quantity, zero when it was not metered |
| Catalog.PriceIsSumOfLines | src/billing/mod.rs:743-783 | the line items are the fixed cost, if any, and one for every rate; the price is exactly their sum when no running total has to be rounded |
| Catalog.Resolve | src/billing/mod.rs:724-797 | priced if and only if one rule matches in the target currency, usage is there for metered rates, and no arithmetic overflows; the price names its source and version, and otherwise the reason, in full, is that of the first of these that failed |
| CostLedger.ResolveByChain | src/billing/mod.rs:429-446 | the first source that prices decides; if none does, all reasons are kept in order |
| CostLedger.RunCostTracker.Create | src/billing/mod.rs:860-882 | a tracker exists exactly for a valid currency with a limit, if any, in that currency |
| CostLedger.RunCostTracker.Record | src/billing/mod.rs:884-956 | the new ledger, with one more row, priced or unpriced |
| CostLedger.MoneyIsConserved | src/billing/mod.rs:884-956 | after any sequence of records every entry has its row, the counters count the rows within `u32`, and the known total is the priced rows added up one after the other; exactly their sum when no sum of rows has to be rounded |
| CostLedger.MoneyIsConservedIff | src/billing/mod.rs:884-956 | over every run the known total is exactly the sum of the priced rows after each entry, if and only if no sum of rows has to be rounded |
| CostLedger.RowsFollowEntries | src/billing/mod.rs:884-956 | over every run a row names its attempt, and is priced if and only if the entry has a price in the run's currency that the total before it can take; then money, source, precision, version and lines can be read back from the row, and otherwise the reason is kept |
| CostLedger.CountersAddUpIff | src/billing/mod.rs:884-956 | the two counters add up to the number of rows if and only if neither has saturated |
| CostLedger.LimitRevertsIff | src/billing/mod.rs:884-963 | recording lifts a reached limit if and only if it books a negative amount that brings the total below |
| CostLedger.LimitNeverReverts | src/billing/mod.rs:884-963 | over every run with non-negative prices a reached limit stays reached |
| CostLedger.RunCostTracker.LimitIsHit | src/billing/mod.rs:959-963 | the limit is hit if and only if there is one and the priced rows add up to at least it |
| CostLedger.ReportMeaning | src/billing/mod.rs:1015-1049 | status, total and budget of a report in terms of its rows; `LimitReached` if and only if the limit is hit and no row is unpriced |
| CostLedger.RunCostTracker.Report | src/billing/mod.rs:977-980 | the report of the current ledger |
| CostLedger.RunCostTracker.IntoReport | src/billing/mod.rs:984-1001 | the same report, made by giving the ledger away |
| CostLedger.SinceACheckpoint | src/billing/mod.rs:965-975 | a request count taken earlier marks exactly the rows of the entries recorded since |
| Patterns.MatchIsExact | src/skills/dsl.rs:10-18 | matching without backtracking into runs finds the one division of the text that fits, with lazy captures as short as possible, and finds it whenever there is one |
| Patterns.SearchIsLeftmost | src/skills/dsl.rs:52-77 | the search returns the match at the first position that has one |
| QualifiedTools.ParseIffTwoSegments | src/access/mod.rs:119-147 | a name is accepted if and only if, trimmed, it is two non-empty segments around its only dot |
| QualifiedTools.QualifiedParses | src/access/mod.rs:138-163 | printing a parsed name and parsing it again gives the same name |
| SkillsDsl.PatternsAreExact | src/skills/dsl.rs:10-18 | the four patterns, the lazy block body included, match exactly what their regular expressions denote |
| SkillsDsl.BlockBody | src/skills/dsl.rs:10-12 | the lazy body of a block is the text up to its first closing brace |
| SkillsDsl.ParseSource | src/skills/dsl.rs:50-107 | the block loop yields the skills of all blocks in order, or the first error, or an error without blocks |
| SkillsDsl.ParseBlock | src/skills/dsl.rs:53-100 | missing policy, missing tools, bad tool, empty tools, or the skill |
| SkillsDsl.RenderCatalog | src/skills/dsl.rs:113-128 | the loop prints every skill, separated by blank lines |
| SkillsErrors.BlockIsTold | src/skills/dsl.rs:53-100 | which error a block gives, in order: no policy, no tool list, the first tool that does not parse, no tool; else the skill with all its tools |
| SkillsErrors.ParseIsTold | src/skills/dsl.rs:50-107 | a text without a block is refused; else the first block that fails decides, or there is one skill for each block |
| SkillsRoundTrip.ParsedSkillsAreWellFormed | src/skills/dsl.rs:50-107 | whatever the text, parsed names and policies are trimmed and quote-free and tools are canonical and present |
| SkillsRoundTrip.PrintedSkillIff | src/skills/dsl.rs:53-128 | a printed skill is read back as it was if and only if its policy is not empty and no tool list seems to start in it |
| SkillsRoundTrip.RoundTripIff | src/skills/dsl.rs:50-128 | parsing a printed catalog gives it back if and only if it is representable |
| SkillsRoundTrip.ReparsedIff | src/skills/dsl.rs:50-128 | for a catalog that was parsed, only a blank name, a blank policy or such a policy can break the round trip |
| SkillsRoundTrip.BlankNameIsLost | src/skills/dsl.rs:52-56 | a text that parses to a catalog whose print does not parse back to it |
| EventDispatcher.CompiledTarget | src/event_mcp/dispatcher.rs:402-428 | a compiled handler calls the discovered tool its target names, and no other |
| EventDispatcher.EventMcpDispatcher.InvokeHandler | src/event_mcp/dispatcher.rs:192-264 | one event id per invocation, and the encoding, size, cancellation, timeout and outcome errors in their order |
| EventDispatcher.EventMcpDispatcher.RunHandler | src/event_mcp/dispatcher.rs:318-396 | one audit record per invocation, and what the handler does to the payload under its failure policy |
| EventDispatcher.EventMcpDispatcher.Dispatch | src/event_mcp/dispatcher.rs:305-399 | the loop is the fold over the handlers' effects; ids and audit records are exactly those of the invoked handlers |
| EventDispatcher.OnlyLastStops | src/event_mcp/dispatcher.rs:318-399 | after a failure no later handler is invoked, and there are as many audit records as invoked handlers |
| EventDispatcher.EffectAt | src/event_mcp/dispatcher.rs:192-200 | the i-th handler sees the last payload put in place before it, under the i-th event id |
| EventDispatcher.AuditAt | src/event_mcp/dispatcher.rs:317-396 | the i-th audit record is that of the i-th handler, for the payload and event id it was invoked with |
| EventDispatcher.EventIdsDiffer | src/event_mcp/dispatcher.rs:200-206 | different numbers give a stage different event ids |
| EventDispatcher.AuditsCompose | src/event_mcp/dispatcher.rs:305-399 | the audit records of `a ++ b` are those of `a` and then, unless it failed, those of `b` |
| EventDispatcher.ChainsCompose | src/event_mcp/dispatcher.rs:305-399 | a chain `a ++ b` behaves as `a` and then, unless it failed, `b` |
| EventDispatcher.ContinueChainFailsOnlyDeliberately | src/event_mcp/dispatcher.rs:305-399 | a chain of handlers that continue on errors fails only by a rejection or a cancellation |
| DispatchRuns.DispatchIff | src/event_mcp/dispatcher.rs:305-399 | in terms of what invocations return: an error is returned if and only if a handler stops the chain, by a cancellation, a rejection or any failure of an aborting handler, and it is that of the first; else the payload the handlers leave |
| DispatchRuns.LastReplacementStays | src/event_mcp/dispatcher.rs:325-327 | the payload of a well-formed replacement stays until a later one |
| DispatchRuns.InputStays | src/event_mcp/dispatcher.rs:325-328 | without a replacement the payload is the input |
| DispatchRuns.OutcomeMeans | src/event_mcp/dispatcher.rs:477-521 | which outcomes pass, replace, reject or are malformed, and with which reason |
| DispatchRuns.InvokeOkIff | src/event_mcp/dispatcher.rs:192-264 | an invocation yields an outcome if and only if envelope and result are within their limits and the result carries it |
| DispatchRuns.AuditMeans | src/event_mcp/dispatcher.rs:317-396 | what an audit record says of an invocation |
| DispatchRuns.CompiledIff | src/event_mcp/dispatcher.rs:402-428 | a handler is compiled if and only if its target is two segments and was discovered |

## Left out

- Sockets, HTTP, TLS, the tokio runtime and process spawning: their answers are parameters. Waiting is not modelled: a deadline is a stream, request or call that ends as timed out, at any point.
- OAuth: recovering a token succeeds or fails. Building headers, which can fail before a request is sent, and the DELETE of `shutdown` are not part of the model.
- JSON and YAML: parsed messages, usage objects, call results and catalogs are the inputs. Parsing functions are parameters.
- SseRead.ReadSseUntil: the `retry` delay before a resume is not modelled, since only the time spent waiting depends on it.
- ProviderRetry.CompleteAccounted: `max_retries` of `u32::MAX`, where the attempt number would overflow, is outside the statement about numbering, which counts without bound.
- Catalog.Resolve: `amount * quantity / per`, which rounds and can overflow, is a parameter, applied once for each line; how Rust's `{:?}` shows an optional tier inside a reason is another.
- CostLedger: a cost the provider reports, which other resolvers turn into a price, is part of the attempt; those resolvers are parameters.
- The text and the usage that a final A2A task carries.
- A2A `shutdown` (abort of all tasks) and panics of a runner, both of which skip the removal of the token, and the reaping of finished join handles.
- Sessions and EventDispatcher: the two session counters and the event counter are unbounded numbers; their wrap-around at 2^64 is not modelled.
- Extracting prompt text, running the agent, permissions and streaming of updates in the ACP server.
- Event-MCP configuration checks other than compiling one handler, and the duration in an audit record.
- `build_prompt_fragment` and the tool sets of a skills catalog, the agent engine, configuration, access policy, redaction, wizard, CLI and logging: single-branch code that would add only easy members.
