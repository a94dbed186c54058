/** Parsers as values, and what running one produces.

    A parser in the library is a generator function of a source and the
    previous successful result. Here a parser is a `Parser` value, and a
    run of it is summarised by a `Run`: the arena afterwards, the signals
    it yielded in order (tokens and input requests), how it ended, and the
    input batches the driver still holds. Each input request consumes the
    next batch of the driver's `feed`; a request with no batch left ends the
    run `Suspended`. */
module Parsers {
  import opened Protocol
  import opened Stream

  /** The two revisions of the combinators: the `index.ts` files built on
      the result helpers, and `tag.ts`, `seq.ts`, `or.ts`, `repeat.ts` built
      on the result classes. `take` exists only in the first and is shared. */
  datatype Revision = HelperBased | ClassBased

  /** `impl` of a `repeat` names the revision whose `repeat` function
      built it when the caller fixed one (`optional` always calls the
      helper-based `repeat`); `None` is the `repeat` of the revision in
      use. */
  datatype Parser =
    | Tag(pattern: seq<Test>, options: Options)
    | Take(test: Test, options: Options)
    | Seq(options: Options, parsers: seq<Parser>)
    | Or(options: Options, parsers: seq<Parser>)
    | Repeat(child: Parser, options: Options, impl: Option<Revision>)

  /** The `type` a parser puts in every result it returns. */
  function KindOf(p: Parser): ParserType
  {
    match p
    case Tag(_, _) => TAG
    case Take(_, _) => TAKE
    case Seq(_, _) => SEQ
    case Or(_, _) => OR
    case Repeat(_, _, _) => REPEAT
  }

  /** The first argument of `seq` and `or`: a parser (a function) or an
      options object. */
  datatype FirstArg = Fun(p: Parser) | Opts(o: Options)

  /** `seq(firstArg, ...parsers)`: a function first argument is the first
      parser; anything else is the options. */
  function SeqOf(first: FirstArg, rest: seq<Parser>): (p: Parser)
    ensures p.Seq?
    ensures first.Fun? ==> p.options == NoOptions && p.parsers == [first.p] + rest
    ensures first.Opts? ==> p.options == first.o && p.parsers == rest
  {
    match first
    case Fun(q) => Seq(NoOptions, [q] + rest)
    case Opts(o) => Seq(o, rest)
  }

  /** `or(firstArg, ...parsers)`, with the same first-argument rule. */
  function OrOf(first: FirstArg, rest: seq<Parser>): (p: Parser)
    ensures p.Or?
    ensures first.Fun? ==> p.options == NoOptions && p.parsers == [first.p] + rest
    ensures first.Opts? ==> p.options == first.o && p.parsers == rest
  {
    match first
    case Fun(q) => Or(NoOptions, [q] + rest)
    case Opts(o) => Or(o, rest)
  }

  /** `{ min: 0, max: 1, ...options }`: fields present in `options` win. */
  function OptionalOptions(options: Option<Options>): (o: Options)
    ensures options.None? ==> o == NoOptions.(min := Some(0), max := Some(1))
    ensures options.Some? ==>
      o.token == options.value.token && o.tokenValue == options.value.tokenValue
      && o.valueMapper == options.value.valueMapper
      && o.min == (if options.value.min.Some? then options.value.min else Some(0))
      && o.max == (if options.value.max.Some? then options.value.max else Some(1))
  {
    match options
    case None => NoOptions.(min := Some(0), max := Some(1))
    case Some(u) =>
      u.(min := if u.min.Some? then u.min else Some(0),
         max := if u.max.Some? then u.max else Some(1))
  }

  /** `optional(parser, options)`. Both revisions import `repeat` from
      the helper-based `repeat/index.ts`. */
  function Optional(p: Parser, options: Option<Options>): (q: Parser)
    ensures q.Repeat? && q.child == p && q.options == OptionalOptions(options)
    ensures q.impl == Some(HelperBased)
  {
    Repeat(p, OptionalOptions(options), Some(HelperBased))
  }

  /** `min` with its default of 1. */
  function MinOf(o: Options): (m: nat)
    ensures o.min.None? ==> m == 1
    ensures o.min.Some? ==> m == o.min.value
  {
    if o.min.Some? then o.min.value else 1
  }

  /** `count >= max`, with an absent `max` standing for Infinity. */
  predicate AtMax(o: Options, count: nat)
  {
    o.max.Some? && count >= o.max.value
  }

  /** Why a run stopped without a result:
      - FinishedGenerator: `next()` was called on a generator that had
        already returned, and its undefined value was destructured;
      - UndefinedInput: a parser waiting for input was resumed with
        `undefined`;
      - OutOfFuel: the iteration bound of the model was reached;
      - EmptyBatch: the driver answered an input request with an empty
        string. */
  datatype Fault = FinishedGenerator | UndefinedInput | OutOfFuel | EmptyBatch

  datatype End = Returned(outcome: Outcome) | Suspended | Broken(fault: Fault)

  datatype Run = Run(heap: Heap, trace: seq<Signal>, end: End, feed: seq<string>)

  /** The end of a run that returned a successful result. */
  predicate Succeeded(r: Run)
  {
    r.end.Returned? && r.end.outcome.Successful?
  }

  predicate AbortedRun(r: Run)
  {
    r.end.Returned? && r.end.outcome.Aborted?
  }

  /** What a run guarantees about the arena: it is still well formed, it
      only grew, and a successful result's continuation is one of its
      streams. */
  predicate RunOk(h: Heap, r: Run)
  {
    Valid(r.heap) && Grown(h, r.heap)
    && (Succeeded(r) ==> Has(r.heap, r.end.outcome.iter))
  }

  /** The aborted-result builder of a revision. */
  function Abort(rev: Revision, kind: ParserType, message: string, options: Option<Options>,
                 prevParser: Option<Outcome>, prevValue: Option<Value>, pattern: Option<Pattern>,
                 stack: Option<seq<Outcome>>): (o: Outcome)
    ensures rev.HelperBased? ==> o == CreateAbortedResult(kind, message, options, prevParser, prevValue, pattern, stack)
    ensures rev.ClassBased? ==> o == NewAbortedResult(kind, message, options, prevParser, prevValue, pattern, stack)
  {
    if rev.HelperBased? then CreateAbortedResult(kind, message, options, prevParser, prevValue, pattern, stack)
    else NewAbortedResult(kind, message, options, prevParser, prevValue, pattern, stack)
  }

  /** The answer to an input request inside `tag` or `take`: the driver's
      next batch becomes the new source (`sourceIter = intoIter(source)`)
      and its first character is read. */
  datatype Answer =
    | Starved
    | Empty(heap: Heap, feed: seq<string>)
    | Fed(c: char, heap: Heap, cur: nat, feed: seq<string>)

  function Refill(h: Heap, feed: seq<string>): (r: Answer)
    requires Valid(h)
    ensures r.Starved? <==> feed == []
    ensures r.Empty? <==> feed != [] && feed[0] == []
    ensures r.Fed? ==> (Valid(r.heap) && Grown(h, r.heap) && Has(r.heap, r.cur)
                        && r.feed == feed[1..] && r.c == feed[0][0]
                        && r.heap.nodes[r.cur] == Base(None, feed[0][1..]))
    ensures r.Empty? ==> Valid(r.heap) && Grown(h, r.heap) && r.feed == feed[1..]
  {
    if feed == [] then Starved
    else
      var (h1, cur) := IntoIter(h, Text(feed[0]));
      var (c, h2) := Next(h1, cur);
      if c.Done? then Empty(h2, feed[1..])
      else
        GrownTrans(h, h1, h2);
        Fed(c.c, h2, cur, feed[1..])
  }
}
