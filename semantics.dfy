/** Running a parser tree: `seq` (src/parsers/seq/seq.ts, src/parsers/seq/index.ts),
    `or` (src/parsers/or/or.ts, src/parsers/or/index.ts) and `repeat`
    (src/parsers/repeat/repeat.ts, src/parsers/repeat/index.ts) over the
    leaf matchers of module Leaf.

    A child run is evaluated in full first, with the batches the driver
    holds; the combinator then decides what of the child's signals it
    passes on, holds back or drops, exactly as its relay loop does chunk by
    chunk. A child that `repeat` runs once it has reached `min` is given no
    batches: its first input request ends the repetition. */
module Semantics {
  import opened Protocol
  import opened Stream
  import opened Parsers
  import Leaf

  /** What stays fixed during a run: the revision and the meaning of the
      user's value transforms. */
  datatype Env = Env(rev: Revision, apply: (MapperId, Value) -> Option<Value>)

  /** The environment of the `repeat` function that runs `p`: the one of
      the revision in use, or the helper-based one when `p` was built by
      `optional`. Only the `repeat` itself changes; its child keeps `env`. */
  function RepeatEnv(env: Env, p: Parser): (e: Env)
    requires p.Repeat?
    ensures e.apply == env.apply
    ensures p.impl.None? ==> e == env
    ensures p.impl.Some? ==> e.rev == p.impl.value
  {
    if p.impl.Some? then env.(rev := p.impl.value) else env
  }

  /** The input requests of a trace, in order. */
  function Requests(t: seq<Signal>): (rs: seq<Signal>)
    ensures |rs| <= |t|
    ensures forall k :: 0 <= k < |rs| ==> rs[k].Request?
  {
    if t == [] then []
    else (if t[0].Request? then [t[0]] else []) + Requests(t[1..])
  }

  /** The tokens of a trace, in order. */
  function Tokens(t: seq<Signal>): (ts: seq<Signal>)
    ensures |ts| <= |t|
    ensures forall k :: 0 <= k < |ts| ==> ts[k].Token?
  {
    if t == [] then []
    else (if t[0].Token? then [t[0]] else []) + Tokens(t[1..])
  }

  /** The token of a parser, if its options name one. */
  function TokenOf(env: Env, options: Options, data: Value): (t: seq<Signal>)
    ensures |t| <= 1
    ensures t != [] <==> TokenSet(options)
    ensures forall j :: 0 <= j < |t| ==> t[j].Token?
  {
    var token := CreateParserToken(env.apply, options, data);
    if token.Some? then [token.value] else []
  }

  /** The own token of a `repeat` that collected `results`: none when it
      matched nothing or its options name no token; otherwise the
      helper-based `createParserToken`, or the class-based `OptionalToken`
      (data through `valueMapper`). */
  function RepeatToken(env: Env, options: Options, results: seq<Outcome>): (t: seq<Signal>)
    ensures |t| <= 1 && (t != [] <==> |results| > 0 && TokenSet(options))
    ensures forall j :: 0 <= j < |t| ==> t[j].Token?
  {
    if |results| == 0 || !TokenSet(options) then []
    else if env.rev.HelperBased? then TokenOf(env, options, Results(results))
    else [OptionalToken(env.apply, Results(results), options)]
  }

  /** Every signal of `t` is an input request. */
  predicate OnlyRequests(t: seq<Signal>)
  {
    forall j :: 0 <= j < |t| ==> t[j].Request?
  }

  /** `after` is `before` followed by input requests only. */
  ghost predicate RequestsAfter(before: seq<Signal>, after: seq<Signal>)
  {
    |before| <= |after| && after[..|before|] == before && OnlyRequests(after[|before|..])
  }

  lemma RequestsAfterTrans(a: seq<Signal>, b: seq<Signal>, c: seq<Signal>)
    requires RequestsAfter(a, b) && RequestsAfter(b, c)
    ensures RequestsAfter(a, c)
  {
    assert c[..|a|] == b[..|a|];
    assert c[|a|..] == b[|a|..] + c[|b|..];
  }

  /** A trace of input requests holds no token. */
  lemma {:induction false} TokensOfRequests(t: seq<Signal>)
    requires OnlyRequests(t)
    ensures Tokens(t) == []
    decreases |t|
  {
    if t != [] {
      TokensOfRequests(t[1..]);
    }
  }

  predicate Buffered(h: Heap, r: nat)
  {
    Has(h, r) && h.nodes[r].Recorder?
  }

  /** `getIter()` when the stream is buffered, the stream itself otherwise. */
  function Unwrap(h: Heap, r: nat): (u: nat)
    requires Valid(h) && Has(h, r)
    ensures Has(h, u)
    ensures Buffered(h, r) ==> u == h.nodes[r].inner
    ensures !Buffered(h, r) ==> u == r
  {
    if h.nodes[r].Recorder? then assert NodeOk(h, r); h.nodes[r].inner else r
  }

  /** The child's stream and previous result when a helper-based
      combinator starts a child: a buffered stream is shared as it is
      (without `prev`); any other is wrapped in `intoBufIter` over the
      combinator's buffer. */
  function Wrap(h: Heap, cur: nat, buffer: nat, prev: Option<Outcome>): (w: (Heap, nat, Option<Outcome>))
    requires Valid(h) && Has(h, cur) && buffer < |h.buffers|
    ensures Valid(w.0) && Grown(h, w.0) && Has(w.0, w.1) && w.0.buffers == h.buffers
    ensures Buffered(h, cur) ==> w == (h, cur, None)
    ensures !Buffered(h, cur) ==> w.2 == prev && w.0.nodes == h.nodes + [Recorder(cur, buffer)]
                                  && w.1 == |h.nodes|
  {
    if Buffered(h, cur) then (h, cur, None)
    else
      var (h1, r) := IntoBufIter(h, Ref(cur), buffer);
      (h1, r, prev)
  }

  /** The buffer a combinator works with: the shared one of a buffered
      stream, or a fresh one. */
  function BufferOf(h: Heap, src: nat): (res: (Heap, nat))
    requires Valid(h) && Has(h, src)
    ensures Valid(res.0) && Grown(h, res.0) && res.1 < |res.0.buffers| && res.0.nodes == h.nodes
    ensures Buffered(h, src) ==> res == (h, h.nodes[src].buffer)
    ensures !Buffered(h, src) ==> res == NewBuffer(h)
  {
    if Buffered(h, src) then assert NodeOk(h, src); (h, h.nodes[src].buffer)
    else NewBuffer(h)
  }

  /** Gives back what was recorded in `buffer` beyond length `init`:
      `buffer.splice(-delta)` and then `revert` of those characters on
      `cur`. Nothing happens when the buffer did not grow. */
  function Rollback(h: Heap, buffer: nat, init: nat, cur: nat): (h': Heap)
    requires Valid(h) && Has(h, cur) && buffer < |h.buffers|
    ensures Valid(h') && SameShape(h, h')
    ensures |h.buffers[buffer]| <= init ==> h' == h
    ensures |h.buffers[buffer]| > init ==>
      h'.buffers[buffer] == h.buffers[buffer][..init]
      && h' == Revert(Splice(h, buffer, |h.buffers[buffer]| - init).1, cur, h.buffers[buffer][init..])
  {
    var n := |h.buffers[buffer]|;
    if n <= init then h
    else
      var (chars, h1) := Splice(h, buffer, n - init);
      Revert(h1, cur, chars)
  }

  /** How `seq` relays a child's signals: tokens pass through, an input
      request is passed up and its answer handed to the child, but the
      signal the child produces right after that answer is discarded (the
      result of `parserIter.next(newInput)` is dropped). A discarded input
      request leaves the child resumed with `undefined`; a discarded result
      makes the next `next()` read a finished generator. */
  function SeqView(t: seq<Signal>, e: End): (v: (seq<Signal>, End))
    ensures |v.0| <= |t|
    ensures !e.Returned? ==> !v.1.Returned?
    ensures v.1.Returned? ==> v.1 == e
    decreases |t|
  {
    if t == [] then ([], e)
    else if t[0].Token? then
      var (rest, e1) := SeqView(t[1..], e);
      ([t[0]] + rest, e1)
    else if |t| == 1 then
      ([t[0]], if e.Returned? then Broken(FinishedGenerator) else e)
    else if t[1].Request? then ([t[0]], Broken(UndefinedInput))
    else
      var (rest, e1) := SeqView(t[2..], e);
      ([t[0]] + rest, e1)
  }

  /** Runs parser `p` on stream `src`: the generator each parser returns
      (tag.ts:21, tag/index.ts:22, take/index.ts:18, seq.ts:36,
      seq/index.ts:34, or.ts:37, or/index.ts:39, repeat.ts:16,
      repeat/index.ts:18). `fuel` bounds the number of successful attempts
      of each `repeat` and the characters each `take` accepts. */
  function Eval(env: Env, p: Parser, h: Heap, src: nat, prev: Option<Outcome>,
                feed: seq<string>, fuel: nat): (r: Run)
    requires Valid(h) && Has(h, src)
    ensures RunOk(h, r)
    decreases fuel, p, 2, 0
  {
    match p
    case Tag(pattern, options) => Leaf.Tag(env.rev, env.apply, pattern, options, h, src, prev, feed)
    case Take(test, options) => Leaf.Take(env.apply, test, options, h, src, prev, feed, fuel)
    case Seq(options, parsers) =>
      if env.rev.HelperBased? then
        var (h1, buffer) := BufferOf(h, src);
        var r := SeqLoop(env, p, 0, h1, src, buffer, prev, [], [], feed, fuel);
        GrownTrans(h, h1, r.heap);
        r
      else
        SeqLoop(env, p, 0, h, src, 0, prev, [], [], feed, fuel)
    case Or(options, parsers) =>
      var (h1, buffer) := BufferOf(h, src);
      var r := OrLoop(env, p, 0, h1, src, buffer, |h1.buffers[buffer]|, prev, [], [], feed, fuel);
      GrownTrans(h, h1, r.heap);
      r
    case Repeat(child, options, _) =>
      if RepeatEnv(env, p).rev.HelperBased? then
        var (h1, buffer) := BufferOf(h, src);
        var r := RepeatLoop(env, p, h1, src, buffer, |h1.buffers[buffer]|, !Buffered(h, src),
                            prev, [], [], [], feed, fuel);
        GrownTrans(h, h1, r.heap);
        r
      else
        var (h1, buffer) := BufferOf(h, src);
        var (h2, cur) := if Buffered(h, src) then (h1, src) else IntoBufIter(h1, Ref(src), buffer);
        GrownTrans(h, h1, h2);
        var r := RepeatLoop(env, p, h2, cur, buffer, |h2.buffers[buffer]|, false,
                            prev, [], [], [], feed, fuel);
        GrownTrans(h, h2, r.heap);
        r
  }

  /** The loop of `seq` from child `k` on. `cur` is `sourceIter`,
      `output` the results so far. The class-based `seq` hands the stream
      to each child unchanged and without `prev`; the helper-based one
      wraps it as `Wrap` says. */
  function SeqLoop(env: Env, p: Parser, k: nat, h: Heap, cur: nat, buffer: nat, prev: Option<Outcome>,
                   output: seq<Outcome>, trace: seq<Signal>, feed: seq<string>, fuel: nat): (r: Run)
    requires p.Seq? && k <= |p.parsers| && Valid(h) && Has(h, cur)
    requires env.rev.HelperBased? ==> buffer < |h.buffers|
    ensures RunOk(h, r)
    decreases fuel, p, 1, |p.parsers| - k, 1
  {
    if k == |p.parsers| then
      Run(h, trace + TokenOf(env, p.options, Results(output)),
          Returned(SuccessfulResult(SEQ, Results(output), cur)), feed)
    else
      var (h1, src, cprev) := if env.rev.HelperBased? then Wrap(h, cur, buffer, prev) else (h, cur, None);
      var cr := Eval(env, p.parsers[k], h1, src, cprev, feed, fuel);
      GrownTrans(h, h1, cr.heap);
      var r := SeqNext(env, p, k, cr, buffer, prev, output, trace, fuel);
      GrownTrans(h, cr.heap, r.heap);
      r
  }

  /** What `seq` does with the run `cr` of its child `k`. */
  function SeqNext(env: Env, p: Parser, k: nat, cr: Run, buffer: nat, prev: Option<Outcome>,
                   output: seq<Outcome>, trace: seq<Signal>, fuel: nat): (r: Run)
    requires p.Seq? && k < |p.parsers| && Valid(cr.heap)
    requires env.rev.HelperBased? ==> buffer < |cr.heap.buffers|
    requires Succeeded(cr) ==> Has(cr.heap, cr.end.outcome.iter)
    ensures RunOk(cr.heap, r)
    decreases fuel, p, 1, |p.parsers| - k, 0
  {
    var (relayed, e) := SeqView(cr.trace, cr.end);
    match e
    case Returned(o) =>
      if o.Successful? then
        SeqLoop(env, p, k + 1, cr.heap, o.iter, buffer, Some(o), output + [o], trace + relayed, cr.feed, fuel)
      else
        Run(cr.heap, trace + relayed,
            Returned(Abort(env.rev, SEQ, SeqErrorMessage(TypeName(o.kind), o.message), Some(p.options), prev, None, None, None)),
            cr.feed)
    case _ => Run(cr.heap, trace + relayed, e, cr.feed)
  }

  /** The loop of `or` from alternative `k` on. `init` is
      `bufferLengthOnInit`, `stack` the aborted results so far. Input
      requests are passed up as they come; tokens wait for the outcome. */
  function OrLoop(env: Env, p: Parser, k: nat, h: Heap, cur: nat, buffer: nat, init: nat, prev: Option<Outcome>,
                  stack: seq<Outcome>, trace: seq<Signal>, feed: seq<string>, fuel: nat): (r: Run)
    requires p.Or? && k <= |p.parsers| && Valid(h) && Has(h, cur) && buffer < |h.buffers|
    ensures RunOk(h, r)
    decreases fuel, p, 1, |p.parsers| - k, 1
  {
    if k == |p.parsers| then
      Run(h, trace, Returned(Abort(env.rev, OR, OR_ERROR_MESSAGE, None, prev, None, None, Some(stack))), feed)
    else
      var (h1, src, cprev) := Wrap(h, cur, buffer, prev);
      var cr := Eval(env, p.parsers[k], h1, src, cprev, feed, fuel);
      GrownTrans(h, h1, cr.heap);
      var r := OrNext(env, p, k, cr, cur, buffer, init, prev, stack, trace, fuel);
      GrownTrans(h, cr.heap, r.heap);
      r
  }

  /** What `or` does with the run `cr` of its alternative `k`: the first
      success wins; an abort is rolled back and the next alternative runs. */
  function OrNext(env: Env, p: Parser, k: nat, cr: Run, cur: nat, buffer: nat, init: nat, prev: Option<Outcome>,
                  stack: seq<Outcome>, trace: seq<Signal>, fuel: nat): (r: Run)
    requires p.Or? && k < |p.parsers| && Valid(cr.heap) && Has(cr.heap, cur) && buffer < |cr.heap.buffers|
    requires Succeeded(cr) ==> Has(cr.heap, cr.end.outcome.iter)
    ensures RunOk(cr.heap, r)
    decreases fuel, p, 1, |p.parsers| - k, 0
  {
    var trace1 := trace + Requests(cr.trace);
    match cr.end
    case Returned(o) =>
      if o.Successful? then
        var next := Unwrap(cr.heap, o.iter);
        Run(cr.heap, trace1 + Tokens(cr.trace) + TokenOf(env, p.options, Single(o)),
            Returned(SuccessfulResult(OR, Single(o), next)), cr.feed)
      else
        var next := Unwrap(cr.heap, cur);
        var h2 := Rollback(cr.heap, buffer, init, next);
        var r := OrLoop(env, p, k + 1, h2, next, buffer, init, prev, stack + [o], trace1, cr.feed, fuel);
        GrownTrans(cr.heap, h2, r.heap);
        r
    case _ => Run(cr.heap, trace1, cr.end, cr.feed)
  }

  /** One pass of `repeat`'s outer loop. `results` and `pending` are
      `parsedResult` and `bufferedYields`; `own` is `ownBuffer` of the
      helper-based revision (always false for the class-based one, whose
      `revert(n)` gives back the last `n` recorded characters). */
  function RepeatLoop(env: Env, p: Parser, h: Heap, cur: nat, buffer: nat, init: nat, own: bool,
                      prev: Option<Outcome>, results: seq<Outcome>, pending: seq<Signal>,
                      trace: seq<Signal>, feed: seq<string>, fuel: nat): (r: Run)
    requires p.Repeat? && Valid(h) && Has(h, cur) && buffer < |h.buffers|
    ensures RunOk(h, r)
    decreases fuel, p, 1, 0
  {
    var options := p.options;
    var min := MinOf(options);
    var renv := RepeatEnv(env, p);
    var (h1, src, cprev) := if renv.rev.HelperBased? then Wrap(h, cur, buffer, prev) else (h, cur, None);
    if AtMax(options, |results|) then
      RepeatFinish(renv, options, h1, cur, results, trace, feed)
    else
      var cr := Eval(env, p.child, h1, src, cprev, if |results| >= min then [] else feed, fuel);
      GrownTrans(h, h1, cr.heap);
      var r := RepeatNext(env, p, cr, cur, buffer, init, own, prev, results, pending, trace, feed, fuel);
      GrownTrans(h, cr.heap, r.heap);
      r
  }

  /** What `repeat` does with the run `cr` of one attempt of its child. */
  function RepeatNext(env: Env, p: Parser, cr: Run, cur: nat, buffer: nat, init: nat, own: bool,
                      prev: Option<Outcome>, results: seq<Outcome>, pending: seq<Signal>,
                      trace: seq<Signal>, feed: seq<string>, fuel: nat): (r: Run)
    requires p.Repeat? && Valid(cr.heap) && Has(cr.heap, cur) && buffer < |cr.heap.buffers|
    requires Succeeded(cr) ==> Has(cr.heap, cr.end.outcome.iter)
    ensures RunOk(cr.heap, r)
    decreases fuel, p, 0, 0
  {
    var options := p.options;
    var min := MinOf(options);
    var feed1 := if |results| >= min then feed else cr.feed;
    var trace1 := trace + Requests(cr.trace);
    match cr.end
    case Broken(f) => Run(cr.heap, trace1, cr.end, feed1)
    case Suspended =>
      if |results| < min then Run(cr.heap, trace1, Suspended, feed1)
      else RepeatStop(RepeatEnv(env, p), options, cr.heap, cur, buffer, init, own, results, trace, feed)
    case Returned(o) =>
      if o.Successful? then
        var results1 := results + [o];
        var waiting := pending + Tokens(cr.trace);
        var flush := |results1| >= min;
        if fuel == 0 then Run(cr.heap, trace1, Broken(OutOfFuel), feed1)
        else
          RepeatLoop(env, p, cr.heap, o.iter, buffer, |cr.heap.buffers[buffer]|, own, Some(o), results1,
                     if flush then [] else waiting, if flush then trace1 + waiting else trace1,
                     feed1, fuel - 1)
      else
        RepeatAborted(RepeatEnv(env, p), options, cr.heap, cur, buffer, init, prev, results, trace1, feed1)
  }

  /** The child asked for input after `min` was reached: the repetition
      stops, giving back what the unfinished attempt read. The helper-based
      revision does so only with its own buffer, by putting the characters
      in front of the stream with `iterSeq`; the class-based one with
      `revert(n)`. */
  function RepeatStop(env: Env, options: Options, h: Heap, cur: nat, buffer: nat, init: nat, own: bool,
                      results: seq<Outcome>, trace: seq<Signal>, feed: seq<string>): (r: Run)
    requires Valid(h) && Has(h, cur) && buffer < |h.buffers|
    ensures RunOk(h, r) && Succeeded(r)
  {
    if env.rev.HelperBased? then
      var n := |h.buffers[buffer]|;
      if own && n > init then
        var (chars, h2) := Splice(h, buffer, n - init);
        var (h3, next) := IterSeq(h2, [Text(chars), Ref(cur)]);
        var r := RepeatFinish(env, options, h3, next, results, trace, feed);
        GrownTrans(h, h3, r.heap);
        r
      else
        RepeatFinish(env, options, h, cur, results, trace, feed)
    else
      var h2 := Rollback(h, buffer, init, cur);
      RepeatFinish(env, options, h2, cur, results, trace, feed)
  }

  /** The child aborted: what it read is given back; below `min` the
      repetition aborts, otherwise it ends with the results so far. */
  function RepeatAborted(env: Env, options: Options, h: Heap, cur: nat, buffer: nat, init: nat,
                         prev: Option<Outcome>, results: seq<Outcome>, trace: seq<Signal>,
                         feed: seq<string>): (r: Run)
    requires Valid(h) && Has(h, cur) && buffer < |h.buffers|
    ensures RunOk(h, r) && r.feed == feed
  {
    var next := if env.rev.HelperBased? then Unwrap(h, cur) else cur;
    var h2 := Rollback(h, buffer, init, next);
    if |results| < MinOf(options) then
      Run(h2, trace,
          Returned(if env.rev.HelperBased?
                   then CreateAbortedResult(REPEAT, REPEAT_ERROR_MESSAGE, Some(options), prev, None, None, None)
                   else NewAbortedResult(REPEAT, REPEAT_ERROR_MESSAGE, Some(options), prev, Some(Results(results)), None, None)),
          feed)
    else
      RepeatFinish(env, options, h2, next, results, trace, feed)
  }

  /** After the loop: the own token when something was matched, then the
      list of results. */
  function RepeatFinish(env: Env, options: Options, h: Heap, cur: nat, results: seq<Outcome>,
                        trace: seq<Signal>, feed: seq<string>): (r: Run)
    requires Valid(h) && Has(h, cur)
    ensures RunOk(h, r) && Succeeded(r) && r.feed == feed
  {
    Run(h, trace + RepeatToken(env, options, results), Returned(SuccessfulResult(REPEAT, Results(results), cur)), feed)
  }
}
