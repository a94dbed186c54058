/** The leaf matchers `tag` (src/parsers/tag/tag.ts, src/parsers/tag/index.ts)
    and `take` (src/parsers/take/index.ts), as functions over the arena.
    Each loop of the source is a tail-recursive function whose parameters
    are the loop's variables. */
module Leaf {
  import opened Protocol
  import opened Stream
  import opened Parsers

  /** One character read by a leaf: got it, or the run stopped while
      asking for more input. */
  datatype Read =
    | Got(c: char, heap: Heap, cur: nat, trace: seq<Signal>, feed: seq<string>)
    | Halt(run: Run)

  /** After `next()` reported done: yield an input request, continue on a
      stream over the batch the driver answers with, and read its first
      character. */
  function Ask(h: Heap, trace: seq<Signal>, feed: seq<string>): (rd: Read)
    requires Valid(h)
    ensures rd.Got? ==> Valid(rd.heap) && Grown(h, rd.heap) && Has(rd.heap, rd.cur)
                        && rd.trace == trace + [DataQuery()] && |rd.feed| < |feed|
    ensures rd.Halt? ==> RunOk(h, rd.run) && rd.run.trace == trace + [DataQuery()] && !rd.run.end.Returned?
    ensures rd.Halt? <==> feed == [] || feed[0] == []
  {
    match Refill(h, feed)
    case Starved => Halt(Run(h, trace + [DataQuery()], Suspended, feed))
    case Empty(h1, f) => Halt(Run(h1, trace + [DataQuery()], Broken(EmptyBatch), f))
    case Fed(c, h1, cur, f) => Got(c, h1, cur, trace + [DataQuery()], f)
  }

  /** The next character of `cur`, asking the driver when it is done. */
  function ReadChar(h: Heap, cur: nat, trace: seq<Signal>, feed: seq<string>): (rd: Read)
    requires Valid(h) && Has(h, cur)
    ensures rd.Got? ==> Valid(rd.heap) && Grown(h, rd.heap) && Has(rd.heap, rd.cur)
                        && |rd.feed| <= |feed|
    ensures rd.Halt? ==> RunOk(h, rd.run) && !rd.run.end.Returned?
  {
    var (c, h1) := Next(h, cur);
    if c.Char? then Got(c.c, h1, cur, trace, feed)
    else
      var rd := Ask(h1, trace, feed);
      if rd.Got? then GrownTrans(h, h1, rd.heap); rd
      else GrownTrans(h, h1, rd.run.heap); rd
  }

  /** `tag(pattern, options)` run on the stream `src`. */
  function Tag(rev: Revision, apply: (MapperId, Value) -> Option<Value>, pattern: seq<Test>, options: Options,
               h: Heap, src: nat, prev: Option<Outcome>, feed: seq<string>): (r: Run)
    requires Valid(h) && Has(h, src)
    ensures RunOk(h, r)
  {
    TagLoop(rev, apply, pattern, options, prev, 0, h, src, "", [], feed)
  }

  /** The `for (const patternSymbol of pattern)` loop from position `i`. */
  function TagLoop(rev: Revision, apply: (MapperId, Value) -> Option<Value>, pattern: seq<Test>, options: Options,
                   prev: Option<Outcome>, i: nat, h: Heap, cur: nat, parsed: string,
                   trace: seq<Signal>, feed: seq<string>): (r: Run)
    requires Valid(h) && Has(h, cur) && i <= |pattern|
    ensures RunOk(h, r)
    decreases |pattern| - i, 1
  {
    if i == |pattern| then
      var token := CreateParserToken(apply, options, Str(parsed));
      Run(h, trace + (if token.Some? then [token.value] else []),
          Returned(SuccessfulResult(TAG, Str(parsed), cur)), feed)
    else
      match ReadChar(h, cur, trace, feed)
      case Halt(run) => run
      case Got(c, h1, cur1, trace1, feed1) =>
        var r := TagTest(rev, apply, pattern, options, prev, i, h1, cur1, c, parsed, trace1, feed1);
        GrownTrans(h, h1, r.heap);
        r
  }

  /** `testChar` of pattern symbol `i` on the character `c` just read. */
  function TagTest(rev: Revision, apply: (MapperId, Value) -> Option<Value>, pattern: seq<Test>, options: Options,
                   prev: Option<Outcome>, i: nat, h: Heap, cur: nat, c: char, parsed: string,
                   trace: seq<Signal>, feed: seq<string>): (r: Run)
    requires Valid(h) && Has(h, cur) && i < |pattern|
    ensures RunOk(h, r)
    decreases |pattern| - i, 0
  {
    match TestChar(pattern[i], c)
    case Fail(m) =>
      Run(h, trace,
          Returned(Abort(rev, TAG, m, Some(options), prev, Some(Str(parsed)), Some(Tests(pattern)), None)),
          feed)
    case Pass =>
      TagLoop(rev, apply, pattern, options, prev, i + 1, h, cur, parsed + [c], trace, feed)
  }

  /** `take(test, options)` run on the stream `src`. `fuel` bounds the
      number of accepted characters. */
  function Take(apply: (MapperId, Value) -> Option<Value>, test: Test, options: Options,
                h: Heap, src: nat, prev: Option<Outcome>, feed: seq<string>, fuel: nat): (r: Run)
    requires Valid(h) && Has(h, src)
    ensures RunOk(h, r)
  {
    TakeLoop(apply, test, options, prev, fuel, h, src, "", [], feed)
  }

  /** The `while (true)` loop of `take`; `|parsed|` is its `count`. */
  function TakeLoop(apply: (MapperId, Value) -> Option<Value>, test: Test, options: Options,
                    prev: Option<Outcome>, fuel: nat, h: Heap, cur: nat, parsed: string,
                    trace: seq<Signal>, feed: seq<string>): (r: Run)
    requires Valid(h) && Has(h, cur)
    ensures RunOk(h, r)
    decreases fuel, 1
  {
    if AtMax(options, |parsed|) then TakeFinish(apply, options, h, cur, None, parsed, trace, feed)
    else
      match Pull(h, cur, |parsed| >= MinOf(options), trace, feed)
      case Dry(h1) => GrownTrans(h, h1, h1); TakeFinish(apply, options, h1, cur, None, parsed, trace, feed)
      case Fetched(Halt(run)) => run
      case Fetched(Got(ch, h2, cur2, trace2, feed2)) =>
        var r := TakeTest(apply, test, options, prev, fuel, h2, cur2, ch, parsed, trace2, feed2);
        GrownTrans(h, h2, r.heap);
        r
  }

  /** What `take`'s loop gets from one `next()`: the source ran dry with
      enough characters taken (`stop`), or a character, possibly after
      asking the driver for input. */
  datatype Pulled = Dry(heap: Heap) | Fetched(rd: Read)

  function Pull(h: Heap, cur: nat, stop: bool, trace: seq<Signal>, feed: seq<string>): (p: Pulled)
    requires Valid(h) && Has(h, cur)
    ensures p.Dry? ==> Valid(p.heap) && SameShape(h, p.heap) && Has(p.heap, cur)
    ensures p.Fetched? && p.rd.Got? ==> Valid(p.rd.heap) && Grown(h, p.rd.heap) && Has(p.rd.heap, p.rd.cur)
    ensures p.Fetched? && p.rd.Halt? ==> RunOk(h, p.rd.run)
  {
    var (c, h1) := Next(h, cur);
    if c.Done? && stop then Dry(h1)
    else if c.Char? then Fetched(Got(c.c, h1, cur, trace, feed))
    else
      var rd := Ask(h1, trace, feed);
      if rd.Got? then GrownTrans(h, h1, rd.heap); Fetched(rd)
      else GrownTrans(h, h1, rd.run.heap); Fetched(rd)
  }

  /** `testChar` on the character just read: accept it and go on, push it
      back and stop, or abort below `min`. */
  function TakeTest(apply: (MapperId, Value) -> Option<Value>, test: Test, options: Options,
                    prev: Option<Outcome>, fuel: nat, h: Heap, cur: nat, ch: char, parsed: string,
                    trace: seq<Signal>, feed: seq<string>): (r: Run)
    requires Valid(h) && Has(h, cur)
    ensures RunOk(h, r)
    decreases fuel, 0
  {
    match TestChar(test, ch)
    case Pass =>
      if fuel == 0 then Run(h, trace, Broken(OutOfFuel), feed)
      else TakeLoop(apply, test, options, prev, fuel - 1, h, cur, parsed + [ch], trace, feed)
    case Fail(m) =>
      if |parsed| < MinOf(options) then
        Run(h, trace,
            Returned(CreateAbortedResult(TAKE, m, Some(options), prev, Some(Str(parsed)), Some(One(test)), None)),
            feed)
      else
        TakeFinish(apply, options, h, cur, Some(ch), parsed, trace, feed)
  }

  /** After the loop: the token (only when something was taken) and the
      continuation, which yields the pushed-back character first. */
  function TakeFinish(apply: (MapperId, Value) -> Option<Value>, options: Options, h: Heap, cur: nat,
                      pushback: Option<char>, parsed: string, trace: seq<Signal>, feed: seq<string>): (r: Run)
    requires Valid(h) && Has(h, cur)
    ensures RunOk(h, r) && r.feed == feed && Succeeded(r)
  {
    var token := CreateParserToken(apply, options, Str(parsed));
    var trace1 := trace + (if token.Some? && |parsed| > 0 then [token.value] else []);
    var (h1, it) := if pushback.Some? then IterSeq(h, [Text([pushback.value]), Ref(cur)]) else (h, cur);
    Run(h1, trace1, Returned(SuccessfulResult(TAKE, Str(parsed), it)), feed)
  }
}
