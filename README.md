# parser-combinator, modelled in Dafny

A model of the core of the TypeScript library `parser-combinator`. Parsers in the library are generator functions. Each reads a character source and `yield`s two kinds of intermediate signals: tokens (state YIELD) and input requests (state EXPECT_NEW_INPUT). It then `return`s a successful or an aborted result. The core has these parts:

- **The revertible stream** (`src/helpers/index.ts`):
  - `intoIter` wraps an iterable with `next`, `peak` and `revert`;
  - `iterSeq` concatenates iterables;
  - `intoBufIter` records every character it hands out into a shared `buffer` array.

  The model keeps every stream object in one arena, `Stream.Heap`. Each stream is a node named by its index:
  - `Base` is `intoIter` over a string;
  - `Chain` is `iterSeq`;
  - `Recorder` is `intoBufIter`.

  The shared arrays are `buffers`. A stream only refers to streams created before it. The operations are functions on the arena (module `Stream`). They are also the methods of the mutable `class Arena` (module `Arenas`), each proved to leave the arena exactly as its function says.
- **The result protocol** (`src/shared/constants`, `src/shared/classes/index.ts`, the builders in `src/helpers/index.ts`): module `Protocol`. It also holds `testChar` and the sequence error message.
- **The leaf matchers** `tag` (both revisions) and `take`:
  - module `Leaf` gives them as functions, one per loop;
  - module `LeafRun` gives them as the loops they are, running on an `Arena`, with each method proved equal to its function.
- **The combinators** `seq`, `or`, `repeat` and `optional`, in both revisions:
  - the helper-based `index.ts` files (`Revision.HelperBased`);
  - the class-based `tag.ts`, `seq.ts`, `or.ts` and `repeat.ts` (`Revision.ClassBased`).

  Both `optional.ts` and `optional/index.ts` import `repeat` from `../repeat`, which is `repeat/index.ts`. So `optional` always runs the helper-based `repeat`: `Parsers.Optional` marks its `Repeat` node with `HelperBased`, and `Semantics.RepeatEnv` runs that node in that revision.

  `Semantics.Eval` is a big-step semantics: a run (`Parsers.Run`) is the arena afterwards, the signals yielded in order, how the run ended, and the input batches the driver still holds. Module `Interp` runs the same generator bodies as loops on an `Arena`, proved equal to `Eval`.
- **The properties** are proved in three modules:
  - `StreamFacts`: revert round trip, `peak` does not consume, recording, `iterSeq` concatenation;
  - `LeafFacts`: what `tag` and `take` return and yield, and how much they consume;
  - `CombinatorFacts`: what `seq`, `or`, `repeat` and `optional` return and yield, rollback, first match wins, count bounds.

The driver that feeds a suspended generator is a parameter, `feed`: the list of batches it will answer input requests with. User transforms (`tokenValue`, `valueMapper`) are a parameter `apply`. Predicate and regular-expression tests are opaque functions.

## Model

| member | source | states |
|---|---|---|
| Protocol.OutcomeState | src/shared/constants/index.ts:15-20 | a record is in state SUCCESSFUL exactly when it is a successful result, and ABORTED exactly when it is an aborted one |
| Protocol.SignalState | src/shared/constants/index.ts:15-20 | a signal is in state YIELD exactly when it is a token, and EXPECT_NEW_INPUT exactly when it is an input request |
| Protocol.MapOr | src/helpers/index.ts:223 | `f?.(v) ?? v`: the transform's value when there is a transform and it returns one, the raw value otherwise |
| Protocol.DataQuery | src/helpers/index.ts:168-171 | the input request (also the `DataQuery` class) has state EXPECT_NEW_INPUT and the fixed message "Parser expects new value" |
| Protocol.SuccessfulResult | src/helpers/index.ts:202-213 | a successful result (also the `SuccessfulResult` class) has state SUCCESSFUL and stores type, data and continuation unchanged |
| Protocol.CreateAbortedResult | src/helpers/index.ts:183-200 | state ABORTED with the given type and message; pattern and prevValue are present exactly when supplied and truthy (the empty-string pattern and prefix are falsy); options, prevParser and stack, always truthy when supplied, are kept |
| Protocol.NewAbortedResult | src/shared/classes/index.ts:36-65 | state ABORTED with the given type and message; every supplied field is kept, except that a prevValue equal to the empty string is dropped |
| Protocol.AbortedBuildersAgree | src/shared/classes/index.ts:59-63 | the class and the helper build the same aborted record exactly when the pattern is absent or not the empty string |
| Protocol.CreateParserToken | src/helpers/index.ts:215-225 | a token exists exactly when `options.token` is truthy; it is in state YIELD, its type is `options.token` and its data is `tokenValue(parsed)`, falling back to `parsed` |
| Protocol.OptionalToken | src/shared/classes/index.ts:84-93 | state YIELD, type `options.token`, data `valueMapper(data)`, falling back to `data` |
| Protocol.TestChar | src/helpers/index.ts:133-166 | passes exactly when the test accepts the character; otherwise fails with the comparator message for that test and character |
| Protocol.ComparatorMessageDecodes | src/helpers/index.ts:141-144 | the comparator message shows the test's text at a fixed offset and the received character second to last |
| Protocol.SeqErrorMessageRoundTrip | src/helpers/index.ts:227-232 | the failed child's type and message can be read back from `createSeqErrorMessage(type, message)` when the type has no double quote |
| Stream.Next | src/helpers/index.ts:31-41 | `next()` keeps the arena well formed and relinks no stream (what it yields: the StreamFacts rows) |
| Stream.ChainAdvance | src/helpers/index.ts:72-87 | `iterSeq`'s loop over exhausted parts keeps the arena well formed and relinks no stream |
| Stream.Peek | src/helpers/index.ts:48-53 | `peak()` never records into a buffer, even through `intoBufIter` |
| Stream.Revert | src/helpers/index.ts:43-46 | `revert` never touches a buffer and relinks no stream |
| Stream.IntoIter | src/helpers/index.ts:15-22 | an existing stream is returned as the same object, so nested parsers share it and its buffer; a string gets a fresh stream over exactly that string |
| Stream.IterSeq | src/helpers/index.ts:57-61 | `iterSeq` only adds streams and leaves the buffers untouched |
| Stream.NewBuffer | src/parsers/or/index.ts:45 | a new empty array is added and nothing else changes |
| Stream.IntoBufIter | src/helpers/index.ts:94-98 | the new stream reads from `intoIter(iterable)` and records into the given, shared array |
| Stream.Splice | src/parsers/or/index.ts:103 | `buffer.splice(-n)` returns the last `n` characters and leaves the array holding the rest; no other array changes |
| Arenas.Arena.Next | src/helpers/index.ts:31-41 | the mutable `next()` returns the chunk and leaves the arena that `Stream.Next` computes |
| Arenas.Arena.NextInChain | src/helpers/index.ts:72-87 | `iterSeq`'s `while (chunk.done)` loop returns the chunk and leaves the arena that `Stream.Next` computes |
| Arenas.Arena.Peek | src/helpers/index.ts:48-53 | the mutable `peak()` agrees with `Stream.Peek` |
| Arenas.Arena.Revert | src/helpers/index.ts:43-46 | the mutable `revert(chars)` agrees with `Stream.Revert` |
| Arenas.Arena.IntoIter | src/helpers/index.ts:15-22 | the mutable `intoIter` agrees with `Stream.IntoIter` |
| Arenas.Arena.IterSeq | src/helpers/index.ts:57-61 | the loop allocating one stream per part agrees with `Stream.IterSeq` |
| Arenas.Arena.NewBuffer | src/parsers/or/index.ts:45 | agrees with `Stream.NewBuffer` |
| Arenas.Arena.IntoBufIter | src/helpers/index.ts:94-98 | agrees with `Stream.IntoBufIter` |
| Arenas.Arena.Splice | src/parsers/or/index.ts:101-103 | agrees with `Stream.Splice` |
| Arenas.Arena.IsBuffered | src/helpers/index.ts:234-248 | true exactly for streams made by `intoBufIter` |
| Arenas.Arena.GetIter | src/helpers/index.ts:119-121 | `getIter()` is the stream the recorder reads from |
| Arenas.Arena.GetBuffer | src/helpers/index.ts:123-125 | `getBuffer()` is the very array the recorder was given |
| Parsers.SeqOf | src/parsers/seq/seq.ts:24-35 | a parser as first argument becomes the first child with empty options; anything else is the options |
| Parsers.OrOf | src/parsers/or/or.ts:25-35 | the same first-argument rule for `or` |
| Parsers.OptionalOptions | src/parsers/optional/optional.ts:8 | `{min: 0, max: 1, ...options}`: bounds default to 0 and 1, and any field the options give wins |
| Parsers.Optional | src/parsers/optional/optional.ts:1-8 | `optional(p, options)` is `repeat(p, {min: 0, max: 1, ...options})`, with the `repeat` of repeat/index.ts whatever the revision in use |
| Semantics.RepeatEnv | src/parsers/optional/index.ts:2 | a `repeat` node runs in the revision it is marked with (the helper-based one for `optional`), otherwise in the revision in use; the transforms are kept |
| Parsers.MinOf | src/parsers/take/index.ts:19 | `min` defaults to 1 |
| Parsers.Refill | src/parsers/tag/tag.ts:30-33 | no batch left suspends the run; otherwise the batch becomes a fresh stream and its first character is read, or the batch is reported empty |
| Leaf.Ask | src/parsers/tag/tag.ts:29-34 | exactly one input request is yielded; the read stops exactly when the driver has no batch or an empty one, and a read that goes on consumes one batch |
| Leaf.ReadChar | src/parsers/tag/tag.ts:26-34 | a read either gets a character on a stream of the grown arena or stops the run without a result |
| Leaf.Tag | src/parsers/tag/tag.ts:21-58 | a run of `tag` keeps the arena well formed and grown, and a success's continuation is a stream of it (results: LeafFacts.TagResult) |
| Leaf.TagLoop | src/parsers/tag/tag.ts:25-56 | as `Leaf.Tag`, from any pattern position |
| Leaf.TagTest | src/parsers/tag/tag.ts:36-49 | as `Leaf.Tag`, after one character test |
| Leaf.Take | src/parsers/take/index.ts:18-77 | a run of `take` keeps the arena well formed and grown, and a success's continuation is a stream of it (results: LeafFacts.TakeResult) |
| Leaf.TakeLoop | src/parsers/take/index.ts:27-65 | as `Leaf.Take`, from any count |
| Leaf.Pull | src/parsers/take/index.ts:31-42 | the source runs dry only without growing the arena; otherwise a character or a stopped run |
| Leaf.TakeTest | src/parsers/take/index.ts:44-64 | as `Leaf.Take`, after one character test |
| Leaf.TakeFinish | src/parsers/take/index.ts:67-76 | the end of `take` always returns a successful result and consumes no batch |
| Semantics.TokenOf | src/helpers/index.ts:215-225 | a combinator yields at most one token of its own, and one exactly when `options.token` is truthy |
| Semantics.Unwrap | src/parsers/or/index.ts:97-99 | `getIter()` for a buffered stream, the stream itself otherwise |
| Semantics.Wrap | src/parsers/or/index.ts:57-61 | a buffered stream is handed on as it is, without `prev`; any other is wrapped in a new recorder over the combinator's array, with `prev` |
| Semantics.BufferOf | src/parsers/or/index.ts:45-51 | the combinator works on the array of a buffered source, or on a new empty one |
| Semantics.Rollback | src/parsers/or/index.ts:101-106 | nothing happens unless the array grew past the checkpoint; otherwise the array is cut back to the checkpoint and the removed characters are reverted onto the stream |
| Semantics.SeqView | src/parsers/seq/index.ts:63-72 | `seq` relays at most the child's signals, and a run it relays ends with the child's own result or without one |
| Semantics.Eval | src/parsers/seq/seq.ts:36 | running any parser (the generator each parser returns: tag.ts:21, tag/index.ts:22, take/index.ts:18, seq.ts:36, seq/index.ts:34, or.ts:37, or/index.ts:39, repeat.ts:16, repeat/index.ts:18) keeps the arena well formed and grown, and a success's continuation is a stream of it (results: the CombinatorFacts rows) |
| Semantics.SeqLoop | src/parsers/seq/index.ts:43-99 | as `Semantics.Eval`, for `seq` from child `k` |
| Semantics.SeqNext | src/parsers/seq/index.ts:51-87 | as `Semantics.Eval`, after child `k` ran |
| Semantics.OrLoop | src/parsers/or/index.ts:56-122 | as `Semantics.Eval`, for `or` from alternative `k` |
| Semantics.OrNext | src/parsers/or/index.ts:63-112 | as `Semantics.Eval`, after alternative `k` ran |
| Semantics.RepeatLoop | src/parsers/repeat/index.ts:38-50 | as `Semantics.Eval`, for one pass of `repeat` |
| Semantics.RepeatNext | src/parsers/repeat/index.ts:76-146 | as `Semantics.Eval`, after one attempt ran |
| Semantics.RepeatStop | src/parsers/repeat/index.ts:76-84 | an input request after `min` ends `repeat` successfully |
| Semantics.RepeatAborted | src/parsers/repeat/index.ts:112-145 | a failed attempt ends `repeat` without consuming a batch |
| Semantics.RepeatFinish | src/parsers/repeat/index.ts:150-160 | the end of `repeat` is always successful and consumes no batch |
| LeafRun.Ask | src/parsers/tag/tag.ts:29-34 | the mutable input request agrees with `Leaf.Ask` |
| LeafRun.ReadChar | src/parsers/tag/tag.ts:26-34 | agrees with `Leaf.ReadChar` |
| LeafRun.Pull | src/parsers/take/index.ts:31-42 | agrees with `Leaf.Pull` |
| LeafRun.TagStep | src/parsers/tag/index.ts:37-50 | goes on exactly when `testChar` passes; otherwise ends with the abort `Leaf.TagTest` returns |
| LeafRun.RunTag | src/parsers/tag/tag.ts:21-58 | the `for` loop of `tag` produces exactly the run `Leaf.Tag` describes |
| LeafRun.FinishTag | src/parsers/tag/index.ts:53-58 | the end of `tag` agrees with `Leaf.TagLoop` at the end of the pattern |
| LeafRun.FinishTake | src/parsers/take/index.ts:67-76 | agrees with `Leaf.TakeFinish` |
| LeafRun.TakeStep | src/parsers/take/index.ts:44-64 | either accepts the character (fuel decreases, the arena is unchanged) and `Leaf.TakeLoop` goes on, or ends with the run `Leaf.TakeTest` returns |
| LeafRun.RunTake | src/parsers/take/index.ts:18-77 | the `while (true)` loop of `take` produces exactly the run `Leaf.Take` describes |
| Interp.BufferFor | src/parsers/or/or.ts:43-49 | agrees with `Semantics.BufferOf` |
| Interp.WrapFor | src/parsers/or/or.ts:55-59 | agrees with `Semantics.Wrap` |
| Interp.RollbackTo | src/parsers/or/or.ts:99-103 | agrees with `Semantics.Rollback` |
| Interp.Relay | src/parsers/seq/seq.ts:45-66 | the relay loop of `seq` passes on exactly what `Semantics.SeqView` says |
| Interp.Split | src/parsers/or/or.ts:65-90 | the loop sorting a child's signals gives exactly its input requests and its tokens, in order |
| Interp.Exec | src/parsers/seq/seq.ts:43 | running any parser on the arena produces exactly the run `Semantics.Eval` describes |
| Interp.ExecSeq | src/parsers/seq/seq.ts:36-91 | the loops of `seq` produce exactly the run `Semantics.Eval` describes |
| Interp.SeqAfter | src/parsers/seq/seq.ts:45-81 | one pass of `seq`'s loop ends the run exactly as `Semantics.SeqNext` does, or goes on from the child's continuation |
| Interp.ExecOr | src/parsers/or/or.ts:37-129 | the loops of `or` produce exactly the run `Semantics.Eval` describes |
| Interp.OrAfter | src/parsers/or/or.ts:71-107 | one pass of `or`'s loop ends as `Semantics.OrNext` does, or rolls back and goes on |
| Interp.FinishRepeat | src/parsers/repeat/repeat.ts:95-99 | agrees with `Semantics.RepeatFinish` |
| Interp.StopRepeat | src/parsers/repeat/repeat.ts:40-46 | agrees with `Semantics.RepeatStop` |
| Interp.AbortRepeat | src/parsers/repeat/repeat.ts:74-90 | agrees with `Semantics.RepeatAborted` |
| Interp.RepeatAttempt | src/parsers/repeat/repeat.ts:28-50 | one pass of `repeat`'s outer loop ends the run as `Semantics.RepeatLoop` does, or goes on with less fuel |
| Interp.RepeatAfter | src/parsers/repeat/repeat.ts:52-91 | the handling of one attempt's outcome agrees with `Semantics.RepeatNext` |
| Interp.ExecRepeat | src/parsers/repeat/repeat.ts:16-100 | the loops of `repeat` produce exactly the run `Semantics.Eval` describes |
| StreamFacts.RevertAtTarget | src/helpers/index.ts:43-46 | `revert(chars)` reaches through recorders and chains to the string stream being read, puts `chars` in front of what it still holds, and changes nothing else |
| StreamFacts.NextAtTarget | src/helpers/index.ts:31-41 | with a character pending and nothing peeked, `next()` returns that character and only the stream being read moves |
| StreamFacts.DrainPending | src/helpers/index.ts:31-41 | the characters pending ahead are returned by the next `next()` calls, in order |
| StreamFacts.RevertRoundTrip | src/helpers/index.ts:43-86 | when nothing has been peeked on the stream, after `revert(chars)` the next `len(chars)` calls of `next()` return exactly `chars`, in order, and leave every stream as before the revert (with a value already peeked, `revert` would put `chars` behind it) |
| StreamFacts.PeekThenNext | src/helpers/index.ts:32-53 | `peak()` does not consume: the following `next()` returns the peeked character |
| StreamFacts.RecorderNext | src/helpers/index.ts:105-113 | for any source, nested recorders included: `intoBufIter.next` returns what its source's `next()` returns and leaves the streams and arrays as that call leaves them, except that the character, if one came, is appended to its own shared array |
| StreamFacts.RecorderNextSilent | src/helpers/index.ts:105-113 | only for a source that records nothing itself (`Silent`): `intoBufIter.next` changes no array but its own |
| StreamFacts.RecorderDrain | src/helpers/index.ts:105-113 | reading `s` through `intoBufIter` over a source that records nothing itself (`Silent`) returns `s`, moves the source past `s`, appends `s` to the shared array, and changes nothing else |
| StreamFacts.DrainSplit | src/helpers/index.ts:31-41 | `n + m` successive `next()` calls return the first `n` chunks, then the `m` chunks read from where those left the streams |
| StreamFacts.DrainLocal | src/helpers/index.ts:31-41 | what a stream's `next()` calls return depends only on that stream and the ones it was built from |
| StreamFacts.IterSeqPair | src/helpers/index.ts:57-87 | for every `m`, the first `len(chars) + m` reads of `iterSeq(chars, source)` are `chars` in order and then exactly the first `m` reads of `source`, done included |
| LeafFacts.TagLoopSuccess | src/parsers/tag/tag.ts:25-50 | a success of `tag` returns one character per pattern element, each accepted by its element, extending the characters already matched |
| LeafFacts.TagLoopAbort | src/parsers/tag/tag.ts:36-48 | an abort of `tag` carries TAG, the options, `prev` and the whole pattern; the characters matched form a prefix shorter than the pattern that matches it and extends what was already matched; the message is the comparator message of the next pattern element and a character it rejects; prevValue is present exactly when that prefix is not empty, and is then that prefix |
| LeafFacts.TagLoopAbortConsumes | src/parsers/tag/tag.ts:26-49 | when the input holds `s`, whose last character is the first one the pattern rejects, `tag` reads exactly `s`, asks for no input, and aborts with the comparator message of that character and the characters before it as prevValue (dropped by the result constructors when empty) |
| LeafFacts.TagLoopTrace | src/parsers/tag/tag.ts:28-55 | `tag` yields only input requests, followed on success by its token when `options.token` is set |
| LeafFacts.TagResult | src/parsers/tag/tag.ts:21-58 | on success: TAG, exactly `len(pattern)` characters each accepted in order, and tokens exactly its own token; on anything else no token; an abort has the shape above, message and prevValue included |
| LeafFacts.TagRevisionsAgree | src/parsers/tag/index.ts:37-49 | the helper-based and the class-based `tag` produce the same run |
| LeafFacts.TagConsumes | src/parsers/tag/tag.ts:25-57 | when the input ahead matches the pattern, `tag` consumes exactly `len(pattern)` characters, asks for no input, yields only its token, and continues on the same stream right after them |
| LeafFacts.TakeFinishResult | src/parsers/take/index.ts:67-76 | the end of `take` returns TAKE with the characters taken and yields its token only when something was taken; without a rejected character the continuation is the source unchanged, with one it yields that character first |
| LeafFacts.TakeLoopSuccess | src/parsers/take/index.ts:27-65 | a success of `take` returns accepted characters extending those already taken, never more than `max`, and at least `min` unless `max` stopped it first |
| LeafFacts.TakeLoopAbort | src/parsers/take/index.ts:44-58 | an abort of `take` carries TAKE, the options and `prev`; the test as pattern exactly when it is not the empty literal; the characters taken are accepted, fewer than `min`, and extend those already taken; the message is the comparator message of the test and a character it rejects; prevValue is present exactly when something was taken, and is then those characters |
| LeafFacts.TakeLoopTrace | src/parsers/take/index.ts:34-70 | `take` yields only input requests, followed on success by its token when something was taken |
| LeafFacts.TakeResult | src/parsers/take/index.ts:18-77 | the bounds, the accepted characters, the tokens and the abort shape above (message and prevValue included) for a whole run of `take` |
| LeafFacts.TakeConsumes | src/parsers/take/index.ts:27-76 | maximal munch: with accepted characters `s` ahead of a rejected `x`, `len(s)` at least `min` and below `max`, `take` returns exactly `s`, asks for no input, and its continuation yields `x` first |
| CombinatorFacts.SeqAbortMessageDecodes | src/parsers/seq/seq.ts:69-72 | a `seq` abort message names the failed child's type, one of the five parser types, and its message, and both read back |
| CombinatorFacts.SeqLoopSuccess | src/parsers/seq/seq.ts:40-90 | a success of `seq` holds exactly one successful result per child, in order, after those already collected; the runs behind them form the chain `SeqRuns`: child `k` runs on the current stream, and each later child on the continuation of the one before, with the input batches it left; `prev` is what `seq` keeps for its own prevParser (the previous child's result once one succeeded), and a child receives it only when the helper-based revision wraps a stream that does not record yet (`Wrap`); the class-based child, and a child handed a stream that already records, gets none; item `j` is what child `j`'s run returned, the `seq` ends on the last child's continuation, and the tokens passed on are those yielded before, then each child's tokens in child order, then the `seq`'s own token |
| CombinatorFacts.SeqLoopAbort | src/parsers/seq/seq.ts:40-79 | an abort of `seq` carries SEQ, its options, no pattern, no prevValue and no stack; it comes from the chain `SeqRuns` of child runs from the current one on, each started on the continuation of the one before, in which every run but the last succeeded and the last aborted; its message composes that child's type and message, and its prevParser is the result of the child before it, or `prev` when the failing child was the first to run |
| CombinatorFacts.SeqLoopToken | src/parsers/seq/seq.ts:85-88 | a success of `seq` keeps everything yielded before it and ends with its own token |
| CombinatorFacts.SeqResult | src/parsers/seq/index.ts:34-99 | a whole `seq`, either revision: one successful result per child whose kind is that child's parser type, each from the run chained on the previous child's continuation starting at the `seq`'s entry stream (the recording array of the helper-based revision), the children's tokens in order and its own token last; or the abort above, whose message names the type of one of its children |
| CombinatorFacts.SeqChildKind | src/parsers/seq/index.ts:43-61 | the result child `j` of `seq` returns when run on any stream has that child's parser type |
| CombinatorFacts.SeqViewTransparent | src/parsers/seq/index.ts:51-72 | over a child that yields only tokens, the relay of `seq` passes on exactly what the child yields and returns what it returns |
| CombinatorFacts.RollbackReplays | src/parsers/or/or.ts:95-103 | after a failed alternative the array is back at its checkpoint length, and the characters removed from it are the next ones the stream yields, after which every stream is as before |
| CombinatorFacts.OrFirstWins | src/parsers/or/or.ts:54-126 | the first alternative that succeeds decides and later ones never run; its result is wrapped; the tokens passed on are its own, in order, then the `or`'s token |
| CombinatorFacts.WinnerTokens | src/parsers/or/or.ts:121-126 | the input requests relayed before the winner's tokens add no token |
| CombinatorFacts.OrLoopSuccess | src/parsers/or/or.ts:54-128 | a success of `or` comes from the chain `OrRuns`: alternative `k` runs on the current stream, and after each abort the next runs on the stream the failed one started on, unwrapped, with the array rolled back to its checkpoint; `prev` is what `or` keeps for its own prevParser, and an alternative receives it only when `or` (in either revision) wraps a stream that does not record yet (`Wrap`); an alternative handed a stream that already records gets none; the last run succeeded, the `or` returns OR wrapping its result and continues on its continuation unwrapped, and the tokens passed on are those before, then that alternative's own tokens, then the `or`'s token |
| CombinatorFacts.OrLoopAbort | src/parsers/or/or.ts:54-118 | when every alternative fails, `or` aborts with OR, the OR_ERROR message, `prev`, no options, pattern or prevValue, and a stack of one aborted result per alternative, extending those already collected; entry `k + i` is what run `i` of the chain `OrRuns` returned, each run started on the stream rolled back after the one before failed |
| CombinatorFacts.OrLoopNoTokens | src/parsers/or/or.ts:87-105 | an `or` that does not succeed has yielded only input requests: failed alternatives' tokens are dropped |
| CombinatorFacts.OrResult | src/parsers/or/index.ts:39-132 | a whole `or`, either revision: a success from the chain of alternative runs that starts on `src` with the array `BufferOf` gives and its length as checkpoint, wrapping the first successful alternative's result with its tokens and then the `or`'s token; or the abort above with the stack of every alternative's abort; and no token at all when it does not succeed |
| CombinatorFacts.TagAlternativeFails | src/parsers/or/index.ts:56-95 | a `tag` alternative that rejects the last character of `s` on a stream that records nothing itself reads exactly `s` through the recorder, appends `s` to the array, and aborts with no signal |
| CombinatorFacts.OrFailedTagRestores | src/parsers/or/index.ts:94-110 | after such a failed `tag` alternative, `or` puts the array back to its checkpoint length and the stream back where it was, so the next alternative runs on the same input as if the failed one had not run; only the aborted result is pushed on the stack |
| CombinatorFacts.RepeatFinishResult | src/parsers/repeat/index.ts:150-160 | the end of `repeat` is REPEAT with the results collected, and yields one token exactly when something was matched and `options.token` is set |
| CombinatorFacts.RepeatStopResult | src/parsers/repeat/index.ts:76-84 | stopping on an input request returns REPEAT with the results so far and its token; when the helper-based `repeat` owns the array and an attempt read characters since the checkpoint, the array is cut back to the checkpoint and, for every `m`, the continuation yields those characters and then the first `m` reads of the stream; otherwise the helper-based one keeps the arena and the stream; the class-based one keeps the stream, and cuts the array back with `revert`, whose characters its stream then yields |
| CombinatorFacts.RepeatAbortedResult | src/parsers/repeat/index.ts:112-145 | a failed attempt ends in an abort with the shape below, yielding nothing, exactly when fewer than `min` results were collected, and otherwise in a success with the results so far and its token |
| CombinatorFacts.RepeatLoopSuccess | src/parsers/repeat/repeat.ts:28-93 | a success of `repeat` holds successful results only, extending those collected, never more than `max`, and at least `min` unless it stopped at `max` |
| CombinatorFacts.RepeatLoopAbort | src/parsers/repeat/repeat.ts:74-90 | an abort of `repeat` carries REPEAT, "repeat error", the options, a positive `min`, no pattern and no stack; it holds fewer than `min` successful results extending those collected, and its prevParser is the last of them or `prev`; the class-based one carries those results as prevValue, the helper-based one no prevValue |
| CombinatorFacts.RepeatLoopQuiet | src/parsers/repeat/index.ts:90-131 | a `repeat` that aborts or suspends has fewer than `min` results and has yielded only input requests: the children's tokens are held back until `min` is reached |
| CombinatorFacts.RepeatLoopToken | src/parsers/repeat/index.ts:150-154 | a success of `repeat` keeps everything yielded before and ends with its own token |
| CombinatorFacts.RepeatDropsFailedAttempt | src/parsers/repeat/index.ts:112-145 | when an attempt fails or is cut off by an input request, a success that follows passes on no token of that attempt, only its own |
| CombinatorFacts.RepeatAbortedFinish | src/parsers/repeat/index.ts:133-144 | a failed attempt at or above `min` ends in a success with the results so far and its token |
| CombinatorFacts.RepeatEntry | src/parsers/repeat/index.ts:18-44 | where `repeat` enters its loop: a valid arena grown from the given one, a stream in it and an array; the helper-based revision starts on `src` and owns the array exactly when `src` did not already record, the class-based one never owns it |
| CombinatorFacts.RepeatLoopWon | src/parsers/repeat/index.ts:90-154 | on success each new item is what one attempt of the chain `RepeatRuns` returned, in order: the first attempt runs on the current stream and each later one on the continuation of the success before it, with one unit of fuel less and the batches it left while below `min`; that success becomes the `prev` `repeat` keeps for its own prevParser, and an attempt receives it only when the helper-based revision wraps a stream that does not record yet (`Wrap`); the class-based attempt, and an attempt handed a stream that already records, gets none; the tokens passed on are those before, then (when `min` was reached) the held tokens and each successful attempt's tokens in order, then the `repeat`'s own token |
| CombinatorFacts.RepeatResult | src/parsers/repeat/index.ts:18-161 | a whole `repeat`, either revision: the success and abort shapes above, its token last, and no token at all, with a positive `min`, when it aborts or suspends |
| CombinatorFacts.RepeatResultTokens | src/parsers/repeat/repeat.ts:16-99 | a whole successful `repeat`, either revision: its items are the results of the chain of attempts that starts where `RepeatEntry` enters the loop, each on the continuation of the one before, and its tokens are theirs in order (once `min` is reached), then its own |
| CombinatorFacts.OptionalResult | src/parsers/optional/optional.ts:8 | `optional` never aborts or suspends unless its options give a positive `min`, returns a list of successful results, at most one unless its options give `max`, and ends its trace with its token when it matched something |
| CombinatorFacts.OptionalTagRestores | src/parsers/optional/optional.ts:8 | `optional` over a `tag` that fails on a stream that records nothing itself succeeds with no results, yields nothing, and hands back the original stream: the recorded characters are dropped and nothing is consumed |
| CombinatorFacts.EvalKind | src/parsers/or/index.ts:115-131 | whatever a parser returns, success or abort, carries that parser's own type (TAG, TAKE, SEQ, OR or REPEAT; REPEAT for `optional`), as each parser sets it when it builds its result: tag.ts:41, 57, tag/index.ts:42, 58, take/index.ts:52, 73, seq.ts:75, 90, seq/index.ts:80, 96, or.ts:114, 128, or/index.ts:117, 131, repeat.ts:82, 99 and repeat/index.ts:126, 157 |

## Left out

- Generators are modelled as whole runs. A child is evaluated to completion and its signals are then relayed, held back or dropped as the relay loops do. Interleaving with a live consumer is not modelled. The driver that answers input requests is the `feed` parameter.
- Fuel: each `take` accepts at most `fuel` characters and each `repeat` makes at most `fuel` successful attempts. A run past the bound ends `Broken(OutOfFuel)`. Unbounded inputs and a `repeat` over a child that consumes nothing are therefore not followed to the end.
- Resuming with an empty string or `undefined` makes the source call `testChar` on `undefined`. The model stops such a run with `Broken(EmptyBatch)` or `Broken(UndefinedInput)`, and does not model what `testChar` does with `undefined`.
- `seq` drops the chunk its child returns right after being resumed (src/parsers/seq/seq.ts:64, src/parsers/seq/index.ts:70). The model reproduces this in `Semantics.SeqView`, so suspending inside `seq` is not transparent, and no property claims it is.
- Rollback of resumed input: characters supplied after an input request are read through a fresh stream that is not registered in the parent's array, so they are not reverted. The model does exactly that. The rollback lemmas speak about the characters recorded in the array.
- Predicate and regular-expression tests are opaque: the model knows only which characters they accept and the text they print as. Characters are Dafny `char`s, with no Unicode surrogate handling.
- `tokenValue` and `valueMapper` are opaque transforms supplied by `apply`. A transform returning `null`/`undefined` falls back to the raw value.
- `optional`: the options record cannot hold an explicitly `undefined` `min` or `max`. In the source such a field would override the default of the spread; here an absent field always takes the default.
- src/parsers/repeat/repeat.ts depends on code that is not part of this model:
  - `getBuffer()` and `revert(n)` on an `intoIter` result: the model wraps an unbuffered source in a recorder over a new array and gives back the last `n` recorded characters;
  - `optionsProvided`: modelled as "`options.token` is truthy";
  - `ParserMessage.REPEAT_ERROR`: the message is "repeat error", as in src/parsers/repeat/index.ts.
- The commented-out `invalidPairs` code, because it is never executed, and `peak` beyond its non-consumption property, because no core parser calls it.
- `iterSeq` over more than two parts, because the parsers only ever build the two-part form (`iterSeq(chars, source)`) that `StreamFacts.IterSeqPair` covers.
- Stream.Next, Stream.ChainAdvance, Leaf.Tag, Leaf.TagLoop, Leaf.TagTest, Leaf.Take, Leaf.TakeLoop, Leaf.TakeTest, Semantics.Eval and the `Semantics` loop functions state only that the arena stays well formed. Their results are stated by the StreamFacts, LeafFacts and CombinatorFacts lemmas listed above, one line each below.
- Stream.Next: what it yields is stated by StreamFacts.NextAtTarget, PeekThenNext, RecorderNext, RecorderNextSilent and IterSeqPair, because a contract on the function itself would have to repeat its case analysis.
- Stream.ChainAdvance: what it yields is stated through Stream.Next by StreamFacts.IterSeqPair, because it is only a step of `next()` on an `iterSeq` stream.
- Leaf.Tag: results stated by LeafFacts.TagResult, TagConsumes and TagRevisionsAgree.
- Leaf.Take: results stated by LeafFacts.TakeResult and TakeConsumes.
- Semantics.Eval: results stated by CombinatorFacts.SeqResult, OrResult, OrFirstWins, RepeatResult, RepeatResultTokens, OptionalResult and EvalKind, because each parser's promise is a separate lemma.
- CombinatorFacts.RepeatResult: which tokens of the children reach the trace is stated separately by RepeatResultTokens and RepeatLoopQuiet, because one lemma for both would exceed what the verifier handles in one proof. Where the continuation stands after a failed attempt is stated in general only through `CombinatorFacts.RollbackReplays` (the characters cut from the array are the next ones read), because a general "the stream is as before" needs the failed child's reads to be known.
- CombinatorFacts.OrFailedTagRestores and CombinatorFacts.OptionalTagRestores: the full restore (same input, as if the attempt had not run) is proved for a `tag` attempt on a stream that records nothing itself and is not a recorder, because only there is it known what the child read. A stream that already records (such as the `intoBufIter` that src/parsers/seq/index.ts:45-49 hands to a child) records the characters twice, and the model follows the source there without a restore lemma.
- `min` and `max` are natural numbers here (`Option<nat>`). JavaScript accepts negative, fractional or `NaN` bounds, for which the comparisons at src/parsers/repeat/index.ts:46, 77, 101 and 113 behave differently; these are left out because no caller in the library passes them.
- The nested-grammar example of src/parsers/repeat/repeat.spec.ts and the demo in src/index.ts (timing, console output) are not modelled.
