/** What `seq`, `or`, `repeat` and `optional` promise about their
    results, whatever their children do. */
module CombinatorFacts {
  import opened Protocol
  import opened Stream
  import opened Parsers
  import opened Semantics
  import opened StreamFacts
  import LeafFacts

  /** Every outcome of `s` is a successful result. */
  predicate AllSuccessful(s: seq<Outcome>)
  {
    forall j :: 0 <= j < |s| ==> s[j].Successful?
  }

  /** Every outcome of `s` is an aborted result. */
  predicate AllAborted(s: seq<Outcome>)
  {
    forall j :: 0 <= j < |s| ==> s[j].Aborted?
  }

  lemma RequestsAfterAppend(a: seq<Signal>, t: seq<Signal>)
    ensures RequestsAfter(a, a + Requests(t))
  {
    assert (a + Requests(t))[..|a|] == a && (a + Requests(t))[|a|..] == Requests(t);
  }

  /** Taking the tokens of a list of tokens changes nothing. */
  lemma {:induction false} TokensIdempotent(t: seq<Signal>)
    ensures Tokens(Tokens(t)) == Tokens(t)
    decreases |t|
  {
    if t != [] {
      TokensIdempotent(t[1..]);
      var hd := if t[0].Token? then [t[0]] else [];
      LeafFacts.TokensAppend(hd, Tokens(t[1..]));
      LeafFacts.TokensOfTokens(hd);
    }
  }

  /** A `seq` abort message names the kind and the message of the child
      that failed. */
  ghost predicate SeqAbortMessage(m: string)
  {
    exists kind: ParserType, child: string :: m == SeqErrorMessage(TypeName(kind), child)
  }

  /** ... and both can be read back from it. */
  lemma SeqAbortMessageDecodes(m: string)
    requires SeqAbortMessage(m)
    ensures var d := SplitSeqError(m);
      d.Some? && m == SeqErrorMessage(d.value.0, d.value.1)
      && d.value.0 in {"TAG", "TAKE", "SEQ", "OR", "REPEAT"}
  {
    var kind: ParserType, child: string :| m == SeqErrorMessage(TypeName(kind), child);
    SeqErrorMessageRoundTrip(TypeName(kind), child);
  }

  // ---------------------------------------------------------------- seq

  /** The child run `seq` starts for its child `k`. */
  function SeqChild(env: Env, p: Parser, k: nat, h: Heap, cur: nat, buffer: nat, prev: Option<Outcome>,
                    feed: seq<string>, fuel: nat): (cr: Run)
    requires p.Seq? && k < |p.parsers| && Valid(h) && Has(h, cur)
    requires env.rev.HelperBased? ==> buffer < |h.buffers|
    ensures RunOk(h, cr)
  {
    var (h1, src, cprev) := if env.rev.HelperBased? then Wrap(h, cur, buffer, prev) else (h, cur, None);
    var cr := Eval(env, p.parsers[k], h1, src, cprev, feed, fuel);
    GrownTrans(h, h1, cr.heap);
    cr
  }

  lemma SeqLoopStep(env: Env, p: Parser, k: nat, h: Heap, cur: nat, buffer: nat, prev: Option<Outcome>,
                    output: seq<Outcome>, trace: seq<Signal>, feed: seq<string>, fuel: nat)
    requires p.Seq? && k < |p.parsers| && Valid(h) && Has(h, cur)
    requires env.rev.HelperBased? ==> buffer < |h.buffers|
    ensures var cr := SeqChild(env, p, k, h, cur, buffer, prev, feed, fuel);
      SeqLoop(env, p, k, h, cur, buffer, prev, output, trace, feed, fuel)
      == SeqNext(env, p, k, cr, buffer, prev, output, trace, fuel)
  {
  }

  /** After a successful child, `seq` goes on with the next child. */
  lemma SeqNextGoesOn(env: Env, p: Parser, k: nat, cr: Run, buffer: nat, prev: Option<Outcome>,
                      output: seq<Outcome>, trace: seq<Signal>, fuel: nat)
    requires p.Seq? && k < |p.parsers| && Valid(cr.heap)
    requires env.rev.HelperBased? ==> buffer < |cr.heap.buffers|
    requires Succeeded(cr) ==> Has(cr.heap, cr.end.outcome.iter)
    requires SeqView(cr.trace, cr.end).1.Returned? && SeqView(cr.trace, cr.end).1.outcome.Successful?
    ensures var (relayed, e) := SeqView(cr.trace, cr.end);
      var o := e.outcome;
      e == cr.end && Has(cr.heap, o.iter)
      && SeqNext(env, p, k, cr, buffer, prev, output, trace, fuel)
         == SeqLoop(env, p, k + 1, cr.heap, o.iter, buffer, Some(o), output + [o], trace + relayed, cr.feed, fuel)
  {
  }

  /** Any other end of the child is the end of `seq`: its abort becomes
      `seq`'s abort, anything else is passed on. */
  lemma SeqNextStops(env: Env, p: Parser, k: nat, cr: Run, buffer: nat, prev: Option<Outcome>,
                     output: seq<Outcome>, trace: seq<Signal>, fuel: nat)
    requires p.Seq? && k < |p.parsers| && Valid(cr.heap)
    requires env.rev.HelperBased? ==> buffer < |cr.heap.buffers|
    requires Succeeded(cr) ==> Has(cr.heap, cr.end.outcome.iter)
    requires !(SeqView(cr.trace, cr.end).1.Returned? && SeqView(cr.trace, cr.end).1.outcome.Successful?)
    ensures var (relayed, e) := SeqView(cr.trace, cr.end);
      var r := SeqNext(env, p, k, cr, buffer, prev, output, trace, fuel);
      !Succeeded(r) && r.trace == trace + relayed
      && (e.Returned? ==>
            e == cr.end
            && r.end == Returned(Abort(env.rev, SEQ, SeqErrorMessage(TypeName(e.outcome.kind), e.outcome.message),
                                       Some(p.options), prev, None, None, None)))
      && (!e.Returned? ==> r.end == e)
  {
  }

  /** The runs `seq` makes of its children `k`, `k + 1`, ... in turn
      (seq.ts:40-54, seq/index.ts:43-61): the first from stream `cur` of
      `h` with the batches `feed`; each next one, after a success, from
      the continuation of that success with the batches left over. `prev`
      is the result `seq` holds (that success, once there is one); a child
      sees it only where `SeqChild` wraps the stream. */
  ghost predicate SeqRuns(env: Env, p: Parser, k: nat, h: Heap, cur: nat, buffer: nat, prev: Option<Outcome>,
                          feed: seq<string>, fuel: nat, crs: seq<Run>)
    decreases |crs|
  {
    p.Seq? && k + |crs| <= |p.parsers| && Valid(h) && Has(h, cur) && (env.rev.HelperBased? ==> buffer < |h.buffers|)
    && (crs != [] ==>
          crs[0] == SeqChild(env, p, k, h, cur, buffer, prev, feed, fuel)
          && (|crs| > 1 ==>
                Succeeded(crs[0])
                && SeqRuns(env, p, k + 1, crs[0].heap, crs[0].end.outcome.iter, buffer, Some(crs[0].end.outcome),
                           crs[0].feed, fuel, crs[1..])))
  }

  /** The run of child `k` in front of the runs that follow from its
      success. */
  lemma SeqRunsCons(env: Env, p: Parser, k: nat, h: Heap, cur: nat, buffer: nat, prev: Option<Outcome>,
                    feed: seq<string>, fuel: nat, cr: Run, crs: seq<Run>)
    requires p.Seq? && k < |p.parsers| && Valid(h) && Has(h, cur) && (env.rev.HelperBased? ==> buffer < |h.buffers|)
    requires cr == SeqChild(env, p, k, h, cur, buffer, prev, feed, fuel) && Succeeded(cr)
    requires SeqRuns(env, p, k + 1, cr.heap, cr.end.outcome.iter, buffer, Some(cr.end.outcome), cr.feed, fuel, crs)
    ensures SeqRuns(env, p, k, h, cur, buffer, prev, feed, fuel, [cr] + crs)
  {
    assert ([cr] + crs)[0] == cr && ([cr] + crs)[1..] == crs;
  }

  /** The tokens `seq` passes on from the child runs `crs`, in order: what
      `SeqView` relays of each. */
  ghost function RelayedTokens(crs: seq<Run>): seq<Signal>
    decreases |crs|
  {
    if crs == [] then [] else Tokens(SeqView(crs[0].trace, crs[0].end).0) + RelayedTokens(crs[1..])
  }

  /** The successful `seq` run `r`, entered at child `k` on stream `cur`
      of `h` after `trace`: `crs` are the runs `seq` made of the children
      from `k` on, one each; item `k + i` is the result of `crs[i]`; the
      continuation is that of the last child (`cur` when there is none);
      and the tokens are those before, those relayed from each child in
      order, and the own token. */
  ghost predicate SeqWonWith(env: Env, p: Parser, k: nat, h: Heap, cur: nat, buffer: nat, prev: Option<Outcome>,
                             feed: seq<string>, fuel: nat, trace: seq<Signal>, r: Run, crs: seq<Run>)
  {
    p.Seq? && k <= |p.parsers| && |crs| == |p.parsers| - k
    && SeqRuns(env, p, k, h, cur, buffer, prev, feed, fuel, crs)
    && Succeeded(r) && r.end.outcome.data.Results? && |r.end.outcome.data.items| == |p.parsers|
    && (forall i :: 0 <= i < |crs| ==> Succeeded(crs[i]) && crs[i].end == Returned(r.end.outcome.data.items[k + i]))
    && r.end.outcome.iter == (if crs == [] then cur else crs[|crs| - 1].end.outcome.iter)
    && Tokens(r.trace) == Tokens(trace) + RelayedTokens(crs) + TokenOf(env, p.options, r.end.outcome.data)
  }

  /** A successful `seq` returns one successful result per child, in
      order, after those already collected: child `k` runs on `cur`, each
      later child on the continuation of the one before, item `j` is what
      child `j` returned, the `seq` ends on the last continuation, and the
      tokens passed on are those each child yielded, in order, then the
      own token (seq.ts:36-91, seq/index.ts:34-99). */
  lemma {:induction false} SeqLoopSuccess(env: Env, p: Parser, k: nat, h: Heap, cur: nat, buffer: nat,
                                          prev: Option<Outcome>, output: seq<Outcome>, trace: seq<Signal>,
                                          feed: seq<string>, fuel: nat)
    requires p.Seq? && k <= |p.parsers| && Valid(h) && Has(h, cur)
    requires env.rev.HelperBased? ==> buffer < |h.buffers|
    requires |output| == k && AllSuccessful(output)
    ensures var r := SeqLoop(env, p, k, h, cur, buffer, prev, output, trace, feed, fuel);
      Succeeded(r) ==>
        r.end.outcome.kind == SEQ && r.end.outcome.data.Results?
        && |r.end.outcome.data.items| == |p.parsers| && output <= r.end.outcome.data.items
        && AllSuccessful(r.end.outcome.data.items)
        && exists crs :: SeqWonWith(env, p, k, h, cur, buffer, prev, feed, fuel, trace, r, crs)
    decreases |p.parsers| - k, 1
  {
    var r := SeqLoop(env, p, k, h, cur, buffer, prev, output, trace, feed, fuel);
    if k < |p.parsers| {
      SeqLoopStep(env, p, k, h, cur, buffer, prev, output, trace, feed, fuel);
      SeqNextSuccess(env, p, k, h, cur, feed, SeqChild(env, p, k, h, cur, buffer, prev, feed, fuel),
                     buffer, prev, output, trace, fuel);
    } else if Succeeded(r) {
      var tl := TokenOf(env, p.options, Results(output));
      LeafFacts.TokensAppend(trace, tl);
      LeafFacts.TokensOfTokens(tl);
      assert SeqWonWith(env, p, k, h, cur, buffer, prev, feed, fuel, trace, r, []);
    }
  }

  lemma {:induction false} SeqNextSuccess(env: Env, p: Parser, k: nat, h: Heap, cur: nat, feed: seq<string>,
                                          cr: Run, buffer: nat, prev: Option<Outcome>,
                                          output: seq<Outcome>, trace: seq<Signal>, fuel: nat)
    requires p.Seq? && k < |p.parsers| && Valid(h) && Has(h, cur)
    requires env.rev.HelperBased? ==> buffer < |h.buffers|
    requires cr == SeqChild(env, p, k, h, cur, buffer, prev, feed, fuel)
    requires |output| == k && AllSuccessful(output)
    ensures var r := SeqNext(env, p, k, cr, buffer, prev, output, trace, fuel);
      Succeeded(r) ==>
        r.end.outcome.kind == SEQ && r.end.outcome.data.Results?
        && |r.end.outcome.data.items| == |p.parsers| && output <= r.end.outcome.data.items
        && AllSuccessful(r.end.outcome.data.items)
        && exists crs :: SeqWonWith(env, p, k, h, cur, buffer, prev, feed, fuel, trace, r, crs)
    decreases |p.parsers| - k, 0
  {
    var (relayed, e) := SeqView(cr.trace, cr.end);
    if e.Returned? && e.outcome.Successful? {
      var o := e.outcome;
      var out1 := output + [o];
      SeqNextGoesOn(env, p, k, cr, buffer, prev, output, trace, fuel);
      SeqLoopSuccess(env, p, k + 1, cr.heap, o.iter, buffer, Some(o), out1, trace + relayed, cr.feed, fuel);
      var r := SeqLoop(env, p, k + 1, cr.heap, o.iter, buffer, Some(o), out1, trace + relayed, cr.feed, fuel);
      if Succeeded(r) {
        assert output <= out1;
        var crs: seq<Run> :| SeqWonWith(env, p, k + 1, cr.heap, o.iter, buffer, Some(o), cr.feed, fuel, trace + relayed, r, crs);
        SeqWonCons(env, p, k, h, cur, buffer, prev, feed, fuel, trace, relayed, r, cr, crs);
      }
    } else {
      SeqNextStops(env, p, k, cr, buffer, prev, output, trace, fuel);
    }
  }

  /** Prepending the run of child `k` to the runs of the children after it. */
  lemma SeqWonCons(env: Env, p: Parser, k: nat, h: Heap, cur: nat, buffer: nat, prev: Option<Outcome>,
                   feed: seq<string>, fuel: nat, trace: seq<Signal>, relayed: seq<Signal>,
                   r: Run, cr: Run, crs: seq<Run>)
    requires p.Seq? && k < |p.parsers| && Valid(h) && Has(h, cur) && (env.rev.HelperBased? ==> buffer < |h.buffers|)
    requires cr == SeqChild(env, p, k, h, cur, buffer, prev, feed, fuel) && Succeeded(cr)
    requires SeqWonWith(env, p, k + 1, cr.heap, cr.end.outcome.iter, buffer, Some(cr.end.outcome), cr.feed, fuel,
                        trace + relayed, r, crs)
    requires SeqView(cr.trace, cr.end).0 == relayed
    requires cr.end == Returned(r.end.outcome.data.items[k])
    ensures SeqWonWith(env, p, k, h, cur, buffer, prev, feed, fuel, trace, r, [cr] + crs)
  {
    var all := [cr] + crs;
    SeqRunsCons(env, p, k, h, cur, buffer, prev, feed, fuel, cr, crs);
    SeqRelayedCons(trace, relayed, cr, crs);
    SeqItemsCons(k, r.end.outcome.data.items, cr, crs);
    assert all[|all| - 1] == (if crs == [] then cr else crs[|crs| - 1]);
  }

  lemma SeqRelayedCons(trace: seq<Signal>, relayed: seq<Signal>, cr: Run, crs: seq<Run>)
    requires SeqView(cr.trace, cr.end).0 == relayed
    ensures Tokens(trace + relayed) + RelayedTokens(crs) == Tokens(trace) + RelayedTokens([cr] + crs)
  {
    assert ([cr] + crs)[1..] == crs;
    LeafFacts.TokensAppend(trace, relayed);
  }

  lemma SeqItemsCons(k: nat, items: seq<Outcome>, cr: Run, crs: seq<Run>)
    requires k < |items| && |crs| == |items| - (k + 1) && cr.end == Returned(items[k])
    requires forall i :: 0 <= i < |crs| ==> crs[i].end == Returned(items[k + 1 + i])
    ensures var all := [cr] + crs;
      forall i :: 0 <= i < |all| ==> all[i].end == Returned(items[k + i])
  {
    var all := [cr] + crs;
    forall i | 0 <= i < |all| ensures all[i].end == Returned(items[k + i]) {
      if i > 0 {
        assert all[i] == crs[i - 1] && k + i == k + 1 + (i - 1);
      }
    }
  }

  /** A failed `seq` entered at child `k` on stream `cur` of `h` with the
      previous result `prev`: `crs` are the runs `seq` made, in turn, of
      children `k` to `k + |crs| - 1`; all but the last succeeded and the
      last aborted. The abort carries `SEQ`, the options, the composed
      message of that child's type and message, and as `prevParser` the
      result of the child before it, or `prev` when it was the first to
      run (seq.ts:67-84, seq/index.ts:72-91). */
  ghost predicate SeqAbortShape(env: Env, p: Parser, k: nat, h: Heap, cur: nat, buffer: nat, prev: Option<Outcome>,
                                feed: seq<string>, fuel: nat, o: Outcome)
  {
    p.Seq? && o.Aborted? && o.kind == SEQ && o.options == Some(p.options)
    && o.pattern.None? && o.prevValue.None? && o.stack.None? && SeqAbortMessage(o.message)
    && exists crs :: SeqRuns(env, p, k, h, cur, buffer, prev, feed, fuel, crs) && SeqAbortedBy(prev, crs, o)
  }

  /** `crs` are child runs that succeeded but for the last, which aborted
      and gave the message of `o`; the `prevParser` of `o` is the result
      before that last run. */
  ghost predicate SeqAbortedBy(prev: Option<Outcome>, crs: seq<Run>, o: Outcome)
  {
    crs != [] && o.Aborted?
    && (forall i :: 0 <= i < |crs| - 1 ==> Succeeded(crs[i]))
    && AbortedRun(crs[|crs| - 1])
    && o.message == SeqErrorMessage(TypeName(crs[|crs| - 1].end.outcome.kind), crs[|crs| - 1].end.outcome.message)
    && o.prevParser == (if |crs| == 1 then prev else Some(crs[|crs| - 2].end.outcome))
  }

  lemma {:induction false} SeqLoopAbort(env: Env, p: Parser, k: nat, h: Heap, cur: nat, buffer: nat,
                                        prev: Option<Outcome>, output: seq<Outcome>,
                                        trace: seq<Signal>, feed: seq<string>, fuel: nat)
    requires p.Seq? && k <= |p.parsers| && Valid(h) && Has(h, cur)
    requires env.rev.HelperBased? ==> buffer < |h.buffers|
    ensures var r := SeqLoop(env, p, k, h, cur, buffer, prev, output, trace, feed, fuel);
      AbortedRun(r) ==> SeqAbortShape(env, p, k, h, cur, buffer, prev, feed, fuel, r.end.outcome)
    decreases |p.parsers| - k, 1
  {
    if k < |p.parsers| {
      SeqLoopStep(env, p, k, h, cur, buffer, prev, output, trace, feed, fuel);
      SeqNextAbort(env, p, k, h, cur, feed, SeqChild(env, p, k, h, cur, buffer, prev, feed, fuel),
                   buffer, prev, output, trace, fuel);
    }
  }

  lemma {:induction false} SeqNextAbort(env: Env, p: Parser, k: nat, h: Heap, cur: nat, feed: seq<string>,
                                        cr: Run, buffer: nat, prev: Option<Outcome>,
                                        output: seq<Outcome>, trace: seq<Signal>, fuel: nat)
    requires p.Seq? && k < |p.parsers| && Valid(h) && Has(h, cur)
    requires env.rev.HelperBased? ==> buffer < |h.buffers|
    requires cr == SeqChild(env, p, k, h, cur, buffer, prev, feed, fuel)
    ensures var r := SeqNext(env, p, k, cr, buffer, prev, output, trace, fuel);
      AbortedRun(r) ==> SeqAbortShape(env, p, k, h, cur, buffer, prev, feed, fuel, r.end.outcome)
    decreases |p.parsers| - k, 0
  {
    var (relayed, e) := SeqView(cr.trace, cr.end);
    if e.Returned? && e.outcome.Successful? {
      var o := e.outcome;
      var out1 := output + [o];
      SeqNextGoesOn(env, p, k, cr, buffer, prev, output, trace, fuel);
      SeqLoopAbort(env, p, k + 1, cr.heap, o.iter, buffer, Some(o), out1, trace + relayed, cr.feed, fuel);
      var r := SeqLoop(env, p, k + 1, cr.heap, o.iter, buffer, Some(o), out1, trace + relayed, cr.feed, fuel);
      if AbortedRun(r) {
        SeqAbortCons(env, p, k, h, cur, buffer, prev, feed, fuel, cr, r.end.outcome);
      }
    } else {
      SeqNextStops(env, p, k, cr, buffer, prev, output, trace, fuel);
      if e.Returned? {
        var r := SeqNext(env, p, k, cr, buffer, prev, output, trace, fuel);
        SeqAbortHere(env, p, k, h, cur, buffer, prev, feed, fuel, cr, r.end.outcome);
      }
    }
  }

  /** The abort of a later child, seen from child `k`, whose run succeeded. */
  lemma SeqAbortCons(env: Env, p: Parser, k: nat, h: Heap, cur: nat, buffer: nat, prev: Option<Outcome>,
                     feed: seq<string>, fuel: nat, cr: Run, o: Outcome)
    requires p.Seq? && k < |p.parsers| && Valid(h) && Has(h, cur) && (env.rev.HelperBased? ==> buffer < |h.buffers|)
    requires cr == SeqChild(env, p, k, h, cur, buffer, prev, feed, fuel) && Succeeded(cr)
    requires SeqAbortShape(env, p, k + 1, cr.heap, cr.end.outcome.iter, buffer, Some(cr.end.outcome), cr.feed, fuel, o)
    ensures SeqAbortShape(env, p, k, h, cur, buffer, prev, feed, fuel, o)
  {
    var crs: seq<Run> :| SeqRuns(env, p, k + 1, cr.heap, cr.end.outcome.iter, buffer, Some(cr.end.outcome), cr.feed, fuel, crs)
      && SeqAbortedBy(Some(cr.end.outcome), crs, o);
    var all := [cr] + crs;
    SeqRunsCons(env, p, k, h, cur, buffer, prev, feed, fuel, cr, crs);
    assert all[|all| - 1] == crs[|crs| - 1] && all[|all| - 2] == (if |crs| == 1 then cr else crs[|crs| - 2]);
    forall i | 0 <= i < |all| - 1 ensures Succeeded(all[i]) {
      if i > 0 { assert all[i] == crs[i - 1]; }
    }
    assert SeqAbortedBy(prev, all, o);
  }

  /** The abort `seq` makes of the abort of child `k`, the first it ran. */
  lemma SeqAbortHere(env: Env, p: Parser, k: nat, h: Heap, cur: nat, buffer: nat, prev: Option<Outcome>,
                     feed: seq<string>, fuel: nat, cr: Run, o: Outcome)
    requires p.Seq? && k < |p.parsers| && Valid(h) && Has(h, cur) && (env.rev.HelperBased? ==> buffer < |h.buffers|)
    requires cr == SeqChild(env, p, k, h, cur, buffer, prev, feed, fuel) && AbortedRun(cr)
    requires o == Abort(env.rev, SEQ, SeqErrorMessage(TypeName(cr.end.outcome.kind), cr.end.outcome.message),
                        Some(p.options), prev, None, None, None)
    ensures SeqAbortShape(env, p, k, h, cur, buffer, prev, feed, fuel, o)
  {
    assert SeqAbortMessage(o.message);
    assert SeqRuns(env, p, k, h, cur, buffer, prev, feed, fuel, [cr]) && SeqAbortedBy(prev, [cr], o);
  }

  /** `seq`'s own token comes after everything its children yielded, and
      only on success (seq.ts:86-90, seq/index.ts:93-98). */
  lemma {:induction false} SeqLoopToken(env: Env, p: Parser, k: nat, h: Heap, cur: nat, buffer: nat,
                                        prev: Option<Outcome>, output: seq<Outcome>, trace: seq<Signal>,
                                        feed: seq<string>, fuel: nat)
    requires p.Seq? && k <= |p.parsers| && Valid(h) && Has(h, cur)
    requires env.rev.HelperBased? ==> buffer < |h.buffers|
    ensures SeqTokenLast(env, p, trace, SeqLoop(env, p, k, h, cur, buffer, prev, output, trace, feed, fuel))
    decreases |p.parsers| - k, 1
  {
    var r := SeqLoop(env, p, k, h, cur, buffer, prev, output, trace, feed, fuel);
    if k == |p.parsers| {
      assert r.trace == trace + TokenOf(env, p.options, Results(output));
    } else {
      SeqLoopStep(env, p, k, h, cur, buffer, prev, output, trace, feed, fuel);
      SeqNextToken(env, p, k, SeqChild(env, p, k, h, cur, buffer, prev, feed, fuel), buffer, prev, output, trace, fuel);
    }
  }

  /** The run `r` keeps the signals `trace` yielded before it and, on
      success, ends with the `seq`'s own token. */
  ghost predicate SeqTokenLast(env: Env, p: Parser, trace: seq<Signal>, r: Run)
    requires p.Seq?
  {
    var tl := if Succeeded(r) then TokenOf(env, p.options, r.end.outcome.data) else [];
    |r.trace| >= |trace| + |tl| && r.trace[..|trace|] == trace && r.trace[|r.trace| - |tl|..] == tl
  }

  lemma {:induction false} SeqNextToken(env: Env, p: Parser, k: nat, cr: Run, buffer: nat, prev: Option<Outcome>,
                                        output: seq<Outcome>, trace: seq<Signal>, fuel: nat)
    requires p.Seq? && k < |p.parsers| && Valid(cr.heap)
    requires env.rev.HelperBased? ==> buffer < |cr.heap.buffers|
    requires Succeeded(cr) ==> Has(cr.heap, cr.end.outcome.iter)
    ensures SeqTokenLast(env, p, trace, SeqNext(env, p, k, cr, buffer, prev, output, trace, fuel))
    decreases |p.parsers| - k, 0
  {
    var r := SeqNext(env, p, k, cr, buffer, prev, output, trace, fuel);
    var (relayed, e) := SeqView(cr.trace, cr.end);
    if e.Returned? && e.outcome.Successful? {
      var o := e.outcome;
      SeqLoopToken(env, p, k + 1, cr.heap, o.iter, buffer, Some(o), output + [o], trace + relayed, cr.feed, fuel);
      assert r.trace[..|trace|] == (trace + relayed)[..|trace|];
    } else {
      assert r.trace == trace + relayed;
    }
  }

  /** What `seq` relays of a child run that asked for no input is that
      run itself: its signals and its end. */
  lemma {:induction false} SeqViewTransparent(t: seq<Signal>, e: End)
    requires forall i :: 0 <= i < |t| ==> t[i].Token?
    ensures SeqView(t, e) == (t, e)
    decreases |t|
  {
    if t != [] {
      SeqViewTransparent(t[1..], e);
      assert [t[0]] + t[1..] == t;
    }
  }

  /** `seq(...)` as run by `Eval`, either revision: a success holds one
      successful result per child, item `j` of the type of child `j` and
      the result of the run `seq` made of it on the continuation of child
      `j - 1`, with the children's relayed tokens in order and its own
      token last; an abort has the shape of `SeqAbortShape` and names the
      type of the child that failed (seq.ts:36-91, seq/index.ts:34-99). */
  lemma SeqResult(env: Env, options: Options, parsers: seq<Parser>, h: Heap, src: nat,
                  prev: Option<Outcome>, feed: seq<string>, fuel: nat)
    requires Valid(h) && Has(h, src)
    ensures var p := Seq(options, parsers);
      var r := Eval(env, p, h, src, prev, feed, fuel);
      var (h1, buffer) := if env.rev.HelperBased? then BufferOf(h, src) else (h, 0);
      (Succeeded(r) ==>
         r.end.outcome.kind == SEQ && r.end.outcome.data.Results?
         && |r.end.outcome.data.items| == |parsers| && AllSuccessful(r.end.outcome.data.items)
         && (forall j :: 0 <= j < |parsers| ==> r.end.outcome.data.items[j].kind == KindOf(parsers[j]))
         && (exists crs :: SeqWonWith(env, p, 0, h1, src, buffer, prev, feed, fuel, [], r, crs))
         && |r.trace| >= |TokenOf(env, options, r.end.outcome.data)|
         && r.trace[|r.trace| - |TokenOf(env, options, r.end.outcome.data)|..] == TokenOf(env, options, r.end.outcome.data))
      && (AbortedRun(r) ==>
            SeqAbortShape(env, p, 0, h1, src, buffer, prev, feed, fuel, r.end.outcome)
            && exists j :: 0 <= j < |parsers|
                 && exists child :: r.end.outcome.message == SeqErrorMessage(TypeName(KindOf(parsers[j])), child))
  {
    var p := Seq(options, parsers);
    var (h1, buffer) := if env.rev.HelperBased? then BufferOf(h, src) else (h, 0);
    SeqLoopSuccess(env, p, 0, h1, src, buffer, prev, [], [], feed, fuel);
    SeqLoopAbort(env, p, 0, h1, src, buffer, prev, [], [], feed, fuel);
    SeqLoopToken(env, p, 0, h1, src, buffer, prev, [], [], feed, fuel);
    var r := Eval(env, p, h, src, prev, feed, fuel);
    if Succeeded(r) {
      var crs: seq<Run> :| SeqWonWith(env, p, 0, h1, src, buffer, prev, feed, fuel, [], r, crs);
      SeqWonKinds(env, p, h1, src, buffer, prev, feed, fuel, r, crs);
    }
    if AbortedRun(r) {
      SeqAbortKind(env, p, h1, src, buffer, prev, feed, fuel, r.end.outcome);
    }
  }

  /** The items of a successful `seq` have the types of the children. */
  lemma SeqWonKinds(env: Env, p: Parser, h: Heap, cur: nat, buffer: nat, prev: Option<Outcome>,
                    feed: seq<string>, fuel: nat, r: Run, crs: seq<Run>)
    requires SeqWonWith(env, p, 0, h, cur, buffer, prev, feed, fuel, [], r, crs)
    ensures forall j :: 0 <= j < |p.parsers| ==> r.end.outcome.data.items[j].kind == KindOf(p.parsers[j])
  {
    SeqRunsKinds(env, p, 0, h, cur, buffer, prev, feed, fuel, crs);
    forall j | 0 <= j < |p.parsers| ensures r.end.outcome.data.items[j].kind == KindOf(p.parsers[j]) {
      assert crs[j].end == Returned(r.end.outcome.data.items[0 + j]);
    }
  }

  /** The abort of `seq` names the type of one of its children. */
  lemma SeqAbortKind(env: Env, p: Parser, h: Heap, cur: nat, buffer: nat, prev: Option<Outcome>,
                     feed: seq<string>, fuel: nat, o: Outcome)
    requires SeqAbortShape(env, p, 0, h, cur, buffer, prev, feed, fuel, o)
    ensures exists j :: 0 <= j < |p.parsers|
                        && exists child :: o.message == SeqErrorMessage(TypeName(KindOf(p.parsers[j])), child)
  {
    var crs: seq<Run> :| SeqRuns(env, p, 0, h, cur, buffer, prev, feed, fuel, crs) && SeqAbortedBy(prev, crs, o);
    SeqRunsKinds(env, p, 0, h, cur, buffer, prev, feed, fuel, crs);
    assert 0 + (|crs| - 1) < |p.parsers|;
  }

  /** A child run of `seq` that returns reports the child's type. */
  lemma SeqChildKind(env: Env, p: Parser, j: nat, h: Heap, cur: nat, buffer: nat, prev: Option<Outcome>,
                     feed: seq<string>, fuel: nat)
    requires p.Seq? && j < |p.parsers| && Valid(h) && Has(h, cur) && (env.rev.HelperBased? ==> buffer < |h.buffers|)
    ensures var cr := SeqChild(env, p, j, h, cur, buffer, prev, feed, fuel);
      cr.end.Returned? ==> cr.end.outcome.kind == KindOf(p.parsers[j])
  {
    if env.rev.HelperBased? {
      var (h1, src, cprev) := Wrap(h, cur, buffer, prev);
      EvalKind(env, p.parsers[j], h1, src, cprev, feed, fuel);
    } else {
      EvalKind(env, p.parsers[j], h, cur, None, feed, fuel);
    }
  }

  /** Every run in a chain of `seq` runs that returns reports the type of
      its child. */
  lemma {:induction false} SeqRunsKinds(env: Env, p: Parser, k: nat, h: Heap, cur: nat, buffer: nat,
                                        prev: Option<Outcome>, feed: seq<string>, fuel: nat, crs: seq<Run>)
    requires SeqRuns(env, p, k, h, cur, buffer, prev, feed, fuel, crs)
    ensures forall i :: 0 <= i < |crs| && crs[i].end.Returned? ==> crs[i].end.outcome.kind == KindOf(p.parsers[k + i])
    decreases |crs|
  {
    if crs != [] {
      SeqChildKind(env, p, k, h, cur, buffer, prev, feed, fuel);
      if |crs| > 1 {
        var o := crs[0].end.outcome;
        SeqRunsKinds(env, p, k + 1, crs[0].heap, o.iter, buffer, Some(o), crs[0].feed, fuel, crs[1..]);
        forall i | 0 < i < |crs| && crs[i].end.Returned?
          ensures crs[i].end.outcome.kind == KindOf(p.parsers[k + i])
        {
          assert crs[i] == crs[1..][i - 1] && k + i == k + 1 + (i - 1);
        }
      }
    }
  }

  // ----------------------------------------------------------------- or

  /** What `or` gives back after a failed alternative: the characters the
      buffer recorded beyond `init` are removed from it and are the next
      ones `cur` yields, after which the streams are as they were
      (or.ts:95-103, or/index.ts:98-106). */
  lemma RollbackReplays(h: Heap, buffer: nat, init: nat, cur: nat)
    requires Valid(h) && Has(h, cur) && buffer < |h.buffers| && init < |h.buffers[buffer]|
    requires h.nodes[Target(h, cur)].peeked.None?
    ensures var h' := Rollback(h, buffer, init, cur);
      var delta := h.buffers[buffer][init..];
      h'.buffers[buffer] == h.buffers[buffer][..init]
      && Drain(h', cur, |delta|) == Chars(delta)
      && After(h', cur, |delta|).nodes == h.nodes
  {
    var delta := h.buffers[buffer][init..];
    var h1 := Splice(h, buffer, |h.buffers[buffer]| - init).1;
    assert h.nodes[Target(h, cur) := h.nodes[Target(h, cur)]] == h.nodes;
    TargetStable(h, h1, cur, h.nodes[Target(h, cur)]);
    RevertRoundTrip(h1, cur, delta);
  }

  /** The run of alternative `k` of an `or`. */
  function OrChild(env: Env, p: Parser, k: nat, h: Heap, cur: nat, buffer: nat, prev: Option<Outcome>,
                   feed: seq<string>, fuel: nat): (cr: Run)
    requires p.Or? && k < |p.parsers| && Valid(h) && Has(h, cur) && buffer < |h.buffers|
    ensures RunOk(h, cr)
  {
    var (h1, src, cprev) := Wrap(h, cur, buffer, prev);
    var cr := Eval(env, p.parsers[k], h1, src, cprev, feed, fuel);
    GrownTrans(h, h1, cr.heap);
    cr
  }

  lemma OrLoopStep(env: Env, p: Parser, k: nat, h: Heap, cur: nat, buffer: nat, init: nat, prev: Option<Outcome>,
                   stack: seq<Outcome>, trace: seq<Signal>, feed: seq<string>, fuel: nat)
    requires p.Or? && k < |p.parsers| && Valid(h) && Has(h, cur) && buffer < |h.buffers|
    ensures var cr := OrChild(env, p, k, h, cur, buffer, prev, feed, fuel);
      OrLoop(env, p, k, h, cur, buffer, init, prev, stack, trace, feed, fuel)
      == OrNext(env, p, k, cr, cur, buffer, init, prev, stack, trace, fuel)
  {
  }

  /** The abort of `tag(pattern, options)` that read `s` and rejected its
      last character. */
  function TagFailure(rev: Revision, pattern: seq<Test>, options: Options, prev: Option<Outcome>, s: string): Outcome
    requires 0 < |s| <= |pattern|
  {
    var j := |s| - 1;
    Abort(rev, TAG, ComparatorMessage(pattern[j], s[j]), Some(options), prev, Some(Str(s[..j])), Some(Tests(pattern)), None)
  }

  /** The input holds `s` ahead of `rest`, and `s` is what `tag(pattern)`
      reads before it fails: every character but the last passes. */
  ghost predicate TagFailsOn(pattern: seq<Test>, s: string)
  {
    0 < |s| <= |pattern| && LeafFacts.Matches(pattern, s[..|s| - 1]) && !Accepts(pattern[|s| - 1], s[|s| - 1])
  }

  /** A `tag` alternative started on a stream that records nothing reads
      `s` through its `intoBufIter` wrapper, which records `s` in the
      `or`'s array, and aborts without asking for input. */
  lemma TagAlternativeFails(rev: Revision, apply: (MapperId, Value) -> Option<Value>, pattern: seq<Test>,
                            options: Options, h: Heap, cur: nat, buffer: nat, prev: Option<Outcome>,
                            feed: seq<string>, s: string, rest: string)
    requires Valid(h) && Has(h, cur) && buffer < |h.buffers|
    requires !Buffered(h, cur) && Silent(h, cur) && TagFailsOn(pattern, s)
    requires h.nodes[Target(h, cur)] == Base(None, s + rest)
    ensures var (hw, w, _) := Wrap(h, cur, buffer, prev);
      Leaf.TagLoop(rev, apply, pattern, options, prev, 0, hw, w, "", [], feed)
      == Run(Heap(hw.nodes[Target(h, cur) := Base(None, rest)], h.buffers[buffer := h.buffers[buffer] + s]), [],
             Returned(TagFailure(rev, pattern, options, prev, s)), feed)
  {
    var (hw, w, cprev) := Wrap(h, cur, buffer, prev);
    assert AgreeUpTo(h, hw, cur);
    TargetLocal(h, hw, cur);
    assert hw.nodes[w] == Recorder(cur, buffer);
    assert Target(hw, w) == Target(hw, cur);
    assert s[0..] == s && s[..0] == "";
    LeafFacts.TagLoopAbortConsumes(rev, apply, pattern, options, prev, 0, hw, w, s, rest, [], feed);
    RecorderDrain(hw, w, cur, buffer, s, rest);
  }

  lemma OrChildTag(env: Env, p: Parser, k: nat, h: Heap, cur: nat, buffer: nat, prev: Option<Outcome>,
                   feed: seq<string>, fuel: nat)
    requires p.Or? && k < |p.parsers| && p.parsers[k].Tag? && Valid(h) && Has(h, cur) && buffer < |h.buffers|
    requires !Buffered(h, cur)
    ensures var (hw, w, _) := Wrap(h, cur, buffer, prev);
      var q := p.parsers[k];
      OrChild(env, p, k, h, cur, buffer, prev, feed, fuel)
      == Leaf.TagLoop(env.rev, env.apply, q.pattern, q.options, prev, 0, hw, w, "", [], feed)
  {
  }

  /** `or` starts the next alternative where the failed one started
      (or.ts:92-103, or/index.ts:94-106), shown for a failed `tag`
      alternative on a stream that records nothing: `or` goes on exactly
      as if alternative `k + 1` were started from the same stream, with
      the `tag`'s abort pushed on the stack; only the unused
      `intoBufIter` wrapper is left in the arena. */
  lemma OrFailedTagRestores(env: Env, p: Parser, k: nat, h: Heap, cur: nat, buffer: nat, prev: Option<Outcome>,
                            stack: seq<Outcome>, trace: seq<Signal>, feed: seq<string>, fuel: nat,
                            s: string, rest: string)
    requires p.Or? && k < |p.parsers| && p.parsers[k].Tag? && Valid(h) && Has(h, cur) && buffer < |h.buffers|
    requires !Buffered(h, cur) && Silent(h, cur) && TagFailsOn(p.parsers[k].pattern, s)
    requires h.nodes[Target(h, cur)] == Base(None, s + rest)
    ensures var hw := Wrap(h, cur, buffer, prev).0;
      var q := p.parsers[k];
      var init := |h.buffers[buffer]|;
      hw == Heap(h.nodes + [Recorder(cur, buffer)], h.buffers)
      && OrLoop(env, p, k, h, cur, buffer, init, prev, stack, trace, feed, fuel)
         == OrLoop(env, p, k + 1, hw, cur, buffer, init, prev,
                   stack + [TagFailure(env.rev, q.pattern, q.options, prev, s)], trace, feed, fuel)
  {
    var q := p.parsers[k];
    var init := |h.buffers[buffer]|;
    var hw := Wrap(h, cur, buffer, prev).0;
    var t := Target(h, cur);
    OrLoopStep(env, p, k, h, cur, buffer, init, prev, stack, trace, feed, fuel);
    OrChildTag(env, p, k, h, cur, buffer, prev, feed, fuel);
    TagAlternativeFails(env.rev, env.apply, q.pattern, q.options, h, cur, buffer, prev, feed, s, rest);
    var cr := OrChild(env, p, k, h, cur, buffer, prev, feed, fuel);
    assert Requests([]) == [] && trace + [] == trace;
    assert !cr.heap.nodes[cur].Recorder?;
    assert Unwrap(cr.heap, cur) == cur;
    TailRollback(h, hw, cr.heap, cur, buffer, s, rest);
  }

  /** Rolling the array back over what the `tag` alternative read puts
      the stream back where it was. */
  lemma TailRollback(h: Heap, hw: Heap, hr: Heap, cur: nat, buffer: nat, s: string, rest: string)
    requires Valid(h) && Has(h, cur) && buffer < |h.buffers| && Valid(hw) && Valid(hr) && s != []
    requires hw == Heap(h.nodes + [Recorder(cur, buffer)], h.buffers)
    requires h.nodes[Target(h, cur)] == Base(None, s + rest)
    requires hr == Heap(hw.nodes[Target(h, cur) := Base(None, rest)], h.buffers[buffer := h.buffers[buffer] + s])
    ensures Has(hr, cur) && Rollback(hr, buffer, |h.buffers[buffer]|, cur) == hw
  {
    var hs := Heap(hr.nodes, h.buffers);
    TailSplice(h, hr, buffer, s, hs);
    RollbackSplices(hr, buffer, |h.buffers[buffer]|, cur, s, hs);
    assert AgreeUpTo(h, hw, cur);
    TailRevert(h, hw, hs, cur, s, rest);
  }

  lemma RollbackSplices(h: Heap, buffer: nat, init: nat, cur: nat, chars: seq<char>, hs: Heap)
    requires Valid(h) && Has(h, cur) && buffer < |h.buffers| && init < |h.buffers[buffer]|
    requires Splice(h, buffer, |h.buffers[buffer]| - init) == (chars, hs)
    ensures Valid(hs) && Has(hs, cur) && Rollback(h, buffer, init, cur) == Revert(hs, cur, chars)
  {
  }

  lemma TailSplice(h: Heap, hr: Heap, buffer: nat, s: string, hs: Heap)
    requires buffer < |h.buffers| && |hr.buffers| == |h.buffers|
    requires hr.buffers == h.buffers[buffer := h.buffers[buffer] + s] && hs == Heap(hr.nodes, h.buffers)
    ensures |hr.buffers[buffer]| - |h.buffers[buffer]| == |s|
    ensures Splice(hr, buffer, |s|) == (s, hs)
    ensures hr.buffers[buffer][|h.buffers[buffer]|..] == s
  {
    var init := |h.buffers[buffer]|;
    assert hr.buffers[buffer] == h.buffers[buffer] + s;
    assert hr.buffers[buffer][init..] == s && hr.buffers[buffer][..init] == h.buffers[buffer];
    assert hr.buffers[buffer := h.buffers[buffer]] == h.buffers;
  }

  lemma TailRevert(h: Heap, hw: Heap, hs: Heap, cur: nat, s: string, rest: string)
    requires Valid(h) && Has(h, cur) && Valid(hw) && Valid(hs)
    requires AgreeUpTo(h, hw, cur) && h.nodes[Target(h, cur)] == Base(None, s + rest)
    requires hs == Heap(hw.nodes[Target(h, cur) := Base(None, rest)], hw.buffers)
    ensures Has(hs, cur) && Revert(hs, cur, s) == hw
  {
    var t := Target(h, cur);
    TargetLocal(h, hw, cur);
    TargetStable(hw, hs, cur, Base(None, rest));
    RevertAtTarget(hs, cur, s);
    assert hw.nodes[t := Base(None, rest)][t := Base(None, s + rest)] == hw.nodes;
  }

  /** The first alternative that succeeds decides: the alternatives after
      it are never run, its result is wrapped, and the tokens passed on are
      its own, in order, followed by the `or`'s token (or.ts:71-93, 121-126,
      or/index.ts:74-96, 124-129). */
  lemma OrFirstWins(env: Env, p: Parser, k: nat, h: Heap, cur: nat, buffer: nat, init: nat, prev: Option<Outcome>,
                    stack: seq<Outcome>, trace: seq<Signal>, feed: seq<string>, fuel: nat)
    requires p.Or? && k < |p.parsers| && Valid(h) && Has(h, cur) && buffer < |h.buffers|
    requires Succeeded(OrChild(env, p, k, h, cur, buffer, prev, feed, fuel))
    ensures var q := Or(p.options, p.parsers[..k + 1]);
      var r := OrLoop(env, p, k, h, cur, buffer, init, prev, stack, trace, feed, fuel);
      var cr := OrChild(env, p, k, h, cur, buffer, prev, feed, fuel);
      r == OrLoop(env, q, k, h, cur, buffer, init, prev, stack, trace, feed, fuel)
      && Succeeded(r) && r.end.outcome.kind == OR && r.end.outcome.data == Single(cr.end.outcome)
      && Tokens(r.trace) == Tokens(trace) + Tokens(cr.trace) + TokenOf(env, p.options, Single(cr.end.outcome))
  {
    var q := Or(p.options, p.parsers[..k + 1]);
    assert q.parsers[k] == p.parsers[k];
    OrLoopStep(env, p, k, h, cur, buffer, init, prev, stack, trace, feed, fuel);
    OrLoopStep(env, q, k, h, cur, buffer, init, prev, stack, trace, feed, fuel);
    var cr := OrChild(env, p, k, h, cur, buffer, prev, feed, fuel);
    assert OrChild(env, q, k, h, cur, buffer, prev, feed, fuel) == cr;
    WinnerTokens(trace, cr.trace, TokenOf(env, p.options, Single(cr.end.outcome)));
  }

  /** The trace of a successful `or` keeps the tokens before it, then the
      winner's tokens and the own token; the input requests add none. */
  lemma WinnerTokens(trace: seq<Signal>, ct: seq<Signal>, own: seq<Signal>)
    requires |own| <= 1 && forall j :: 0 <= j < |own| ==> own[j].Token?
    ensures Tokens(trace + Requests(ct) + Tokens(ct) + own) == Tokens(trace) + Tokens(ct) + own
  {
    var rq, tk := Requests(ct), Tokens(ct);
    var a := trace + rq;
    var b := a + tk;
    LeafFacts.TokensAppend(trace, rq);
    TokensOfRequests(rq);
    assert Tokens(a) == Tokens(trace);
    LeafFacts.TokensAppend(a, tk);
    TokensIdempotent(ct);
    assert Tokens(b) == Tokens(trace) + tk;
    LeafFacts.TokensAppend(b, own);
    LeafFacts.TokensOfTokens(own);
  }

  /** The runs `or` makes of its alternatives `k`, `k + 1`, ... in turn
      (or.ts:71-106, or/index.ts:74-109): the first from stream `cur` of
      `h`; each next one, after an abort, from the stream the failed one
      started on, unwrapped, with the array rolled back to `init`. `prev`
      is the `or`'s previous result, which an alternative sees only where
      `OrChild` wraps the stream. */
  ghost predicate OrRuns(env: Env, p: Parser, k: nat, h: Heap, cur: nat, buffer: nat, init: nat,
                         prev: Option<Outcome>, feed: seq<string>, fuel: nat, crs: seq<Run>)
    decreases |crs|
  {
    p.Or? && k + |crs| <= |p.parsers| && Valid(h) && Has(h, cur) && buffer < |h.buffers|
    && (crs != [] ==>
          crs[0] == OrChild(env, p, k, h, cur, buffer, prev, feed, fuel)
          && (|crs| > 1 ==>
                AbortedRun(crs[0])
                && OrRuns(env, p, k + 1, Rollback(crs[0].heap, buffer, init, Unwrap(crs[0].heap, cur)),
                          Unwrap(crs[0].heap, cur), buffer, init, prev, crs[0].feed, fuel, crs[1..])))
  }

  /** The run of alternative `k` in front of the runs that follow its
      abort. */
  lemma OrRunsCons(env: Env, p: Parser, k: nat, h: Heap, cur: nat, buffer: nat, init: nat, prev: Option<Outcome>,
                   feed: seq<string>, fuel: nat, cr: Run, crs: seq<Run>)
    requires p.Or? && k < |p.parsers| && Valid(h) && Has(h, cur) && buffer < |h.buffers|
    requires cr == OrChild(env, p, k, h, cur, buffer, prev, feed, fuel) && AbortedRun(cr)
    requires OrRuns(env, p, k + 1, Rollback(cr.heap, buffer, init, Unwrap(cr.heap, cur)), Unwrap(cr.heap, cur),
                    buffer, init, prev, cr.feed, fuel, crs)
    ensures OrRuns(env, p, k, h, cur, buffer, init, prev, feed, fuel, [cr] + crs)
  {
    assert ([cr] + crs)[0] == cr && ([cr] + crs)[1..] == crs;
  }

  /** The successful `or` run `r`, entered at alternative `k` on stream
      `cur` of `h` after `trace`: `crs` are the runs `or` made, the last
      succeeded, and `r` returns its result wrapped, continues on its
      continuation unwrapped, and passes on the tokens before, the
      winner's tokens and the own token. */
  ghost predicate OrWonWith(env: Env, p: Parser, k: nat, h: Heap, cur: nat, buffer: nat, init: nat,
                            prev: Option<Outcome>, feed: seq<string>, fuel: nat, trace: seq<Signal>,
                            r: Run, crs: seq<Run>)
  {
    OrRuns(env, p, k, h, cur, buffer, init, prev, feed, fuel, crs) && crs != []
    && OrWonLast(env, p, trace, r, crs[|crs| - 1])
  }

  /** `r` is the success `or` makes of the successful run `cr`. */
  ghost predicate OrWonLast(env: Env, p: Parser, trace: seq<Signal>, r: Run, cr: Run)
  {
    p.Or? && Succeeded(cr) && Succeeded(r) && Valid(cr.heap) && Has(cr.heap, cr.end.outcome.iter)
    && r.end.outcome.data == Single(cr.end.outcome)
    && r.end.outcome.iter == Unwrap(cr.heap, cr.end.outcome.iter)
    && Tokens(r.trace) == Tokens(trace) + Tokens(cr.trace) + TokenOf(env, p.options, Single(cr.end.outcome))
  }

  /** Relayed input requests add no token. */
  lemma TokensAfterRequests(trace: seq<Signal>, t: seq<Signal>)
    ensures Tokens(trace + Requests(t)) == Tokens(trace)
  {
    LeafFacts.TokensAppend(trace, Requests(t));
    TokensOfRequests(Requests(t));
  }

  /** A successful `or` returns the successful result of the first
      alternative from `k` on that succeeds, each alternative run on the
      stream restored after the one before it failed; the result is
      wrapped, with that alternative's tokens and then the own token
      (or.ts:71-106, or/index.ts:74-109). */
  lemma {:induction false} OrLoopSuccess(env: Env, p: Parser, k: nat, h: Heap, cur: nat, buffer: nat, init: nat,
                                         prev: Option<Outcome>, stack: seq<Outcome>, trace: seq<Signal>,
                                         feed: seq<string>, fuel: nat)
    requires p.Or? && k <= |p.parsers| && Valid(h) && Has(h, cur) && buffer < |h.buffers|
    ensures var r := OrLoop(env, p, k, h, cur, buffer, init, prev, stack, trace, feed, fuel);
      Succeeded(r) ==> OrSuccessShape(r.end.outcome)
                       && exists crs :: OrWonWith(env, p, k, h, cur, buffer, init, prev, feed, fuel, trace, r, crs)
    decreases |p.parsers| - k, 1
  {
    if k < |p.parsers| {
      OrLoopStep(env, p, k, h, cur, buffer, init, prev, stack, trace, feed, fuel);
      OrNextSuccess(env, p, k, h, feed, OrChild(env, p, k, h, cur, buffer, prev, feed, fuel),
                    cur, buffer, init, prev, stack, trace, fuel);
    }
  }

  /** The successful result of an `or`. */
  ghost predicate OrSuccessShape(o: Outcome)
  {
    o.Successful? && o.kind == OR && o.data.Single? && o.data.item.Successful?
  }

  lemma {:induction false} OrNextSuccess(env: Env, p: Parser, k: nat, h: Heap, feed: seq<string>, cr: Run,
                                         cur: nat, buffer: nat, init: nat, prev: Option<Outcome>,
                                         stack: seq<Outcome>, trace: seq<Signal>, fuel: nat)
    requires p.Or? && k < |p.parsers| && Valid(h) && Has(h, cur) && buffer < |h.buffers|
    requires cr == OrChild(env, p, k, h, cur, buffer, prev, feed, fuel)
    ensures var r := OrNext(env, p, k, cr, cur, buffer, init, prev, stack, trace, fuel);
      Succeeded(r) ==> OrSuccessShape(r.end.outcome)
                       && exists crs :: OrWonWith(env, p, k, h, cur, buffer, init, prev, feed, fuel, trace, r, crs)
    decreases |p.parsers| - k, 0
  {
    var trace1 := trace + Requests(cr.trace);
    var r := OrNext(env, p, k, cr, cur, buffer, init, prev, stack, trace, fuel);
    if Succeeded(cr) {
      OrWonHere(env, p, k, h, cur, buffer, init, prev, feed, fuel, stack, trace, cr);
    } else if cr.end.Returned? && cr.end.outcome.Aborted? {
      var next := Unwrap(cr.heap, cur);
      var h2 := Rollback(cr.heap, buffer, init, next);
      OrLoopSuccess(env, p, k + 1, h2, next, buffer, init, prev, stack + [cr.end.outcome], trace1, cr.feed, fuel);
      if Succeeded(r) {
        var crs: seq<Run> :| OrWonWith(env, p, k + 1, h2, next, buffer, init, prev, cr.feed, fuel, trace1, r, crs);
        OrWonCons(env, p, k, h, cur, buffer, init, prev, feed, fuel, trace, r, cr, crs);
      }
    }
  }

  /** The success `or` makes of alternative `k`, the first it ran. */
  lemma OrWonHere(env: Env, p: Parser, k: nat, h: Heap, cur: nat, buffer: nat, init: nat, prev: Option<Outcome>,
                  feed: seq<string>, fuel: nat, stack: seq<Outcome>, trace: seq<Signal>, cr: Run)
    requires p.Or? && k < |p.parsers| && Valid(h) && Has(h, cur) && buffer < |h.buffers|
    requires cr == OrChild(env, p, k, h, cur, buffer, prev, feed, fuel) && Succeeded(cr)
    ensures var r := OrNext(env, p, k, cr, cur, buffer, init, prev, stack, trace, fuel);
      OrSuccessShape(r.end.outcome) && OrWonWith(env, p, k, h, cur, buffer, init, prev, feed, fuel, trace, r, [cr])
  {
    WinnerTokens(trace, cr.trace, TokenOf(env, p.options, Single(cr.end.outcome)));
    assert OrRuns(env, p, k, h, cur, buffer, init, prev, feed, fuel, [cr]);
  }

  /** The success of a later alternative, seen from alternative `k`,
      whose run aborted. */
  lemma OrWonCons(env: Env, p: Parser, k: nat, h: Heap, cur: nat, buffer: nat, init: nat, prev: Option<Outcome>,
                  feed: seq<string>, fuel: nat, trace: seq<Signal>, r: Run, cr: Run, crs: seq<Run>)
    requires p.Or? && k < |p.parsers| && Valid(h) && Has(h, cur) && buffer < |h.buffers|
    requires cr == OrChild(env, p, k, h, cur, buffer, prev, feed, fuel) && AbortedRun(cr)
    requires OrWonWith(env, p, k + 1, Rollback(cr.heap, buffer, init, Unwrap(cr.heap, cur)), Unwrap(cr.heap, cur),
                       buffer, init, prev, cr.feed, fuel, trace + Requests(cr.trace), r, crs)
    ensures OrWonWith(env, p, k, h, cur, buffer, init, prev, feed, fuel, trace, r, [cr] + crs)
  {
    TokensAfterRequests(trace, cr.trace);
    OrRunsCons(env, p, k, h, cur, buffer, init, prev, feed, fuel, cr, crs);
    assert ([cr] + crs)[|crs|] == crs[|crs| - 1];
  }

  /** When every alternative fails, `or` aborts with `OR_ERROR`, the
      previous result and a stack holding, for each alternative in order,
      the abort of the run `or` made of it, each run on the stream
      restored after the one before it failed (or.ts:71-128,
      or/index.ts:74-131). */
  lemma {:induction false} OrLoopAbort(env: Env, p: Parser, k: nat, h: Heap, cur: nat, buffer: nat, init: nat,
                                       prev: Option<Outcome>, stack: seq<Outcome>, trace: seq<Signal>,
                                       feed: seq<string>, fuel: nat)
    requires p.Or? && k <= |p.parsers| && Valid(h) && Has(h, cur) && buffer < |h.buffers|
    requires |stack| == k && AllAborted(stack)
    ensures var r := OrLoop(env, p, k, h, cur, buffer, init, prev, stack, trace, feed, fuel);
      AbortedRun(r) ==> OrAbortShape(env, p, k, h, cur, buffer, init, prev, feed, fuel, stack, r.end.outcome)
    decreases |p.parsers| - k, 1
  {
    if k < |p.parsers| {
      OrLoopStep(env, p, k, h, cur, buffer, init, prev, stack, trace, feed, fuel);
      OrNextAbort(env, p, k, h, feed, OrChild(env, p, k, h, cur, buffer, prev, feed, fuel),
                  cur, buffer, init, prev, stack, trace, fuel);
    } else {
      var o := OrLoop(env, p, k, h, cur, buffer, init, prev, stack, trace, feed, fuel).end.outcome;
      assert o.stack == Some(stack);
      assert OrRuns(env, p, k, h, cur, buffer, init, prev, feed, fuel, []) && OrFailedFrom(k, [], o);
    }
  }

  lemma {:induction false} OrNextAbort(env: Env, p: Parser, k: nat, h: Heap, feed: seq<string>, cr: Run,
                                       cur: nat, buffer: nat, init: nat, prev: Option<Outcome>,
                                       stack: seq<Outcome>, trace: seq<Signal>, fuel: nat)
    requires p.Or? && k < |p.parsers| && Valid(h) && Has(h, cur) && buffer < |h.buffers|
    requires cr == OrChild(env, p, k, h, cur, buffer, prev, feed, fuel)
    requires |stack| == k && AllAborted(stack)
    ensures var r := OrNext(env, p, k, cr, cur, buffer, init, prev, stack, trace, fuel);
      AbortedRun(r) ==> OrAbortShape(env, p, k, h, cur, buffer, init, prev, feed, fuel, stack, r.end.outcome)
    decreases |p.parsers| - k, 0
  {
    if cr.end.Returned? && cr.end.outcome.Aborted? {
      var next := Unwrap(cr.heap, cur);
      var h2 := Rollback(cr.heap, buffer, init, next);
      var stack1 := stack + [cr.end.outcome];
      assert AllAborted(stack1) by {
        forall j | 0 <= j < |stack1| ensures stack1[j].Aborted? {
          if j < k { assert stack1[j] == stack[j]; }
        }
      }
      OrLoopAbort(env, p, k + 1, h2, next, buffer, init, prev, stack1, trace + Requests(cr.trace), cr.feed, fuel);
      var r := OrLoop(env, p, k + 1, h2, next, buffer, init, prev, stack1, trace + Requests(cr.trace), cr.feed, fuel);
      if AbortedRun(r) {
        OrAbortCons(env, p, k, h, cur, buffer, init, prev, feed, fuel, stack, cr, r.end.outcome);
      }
    }
  }

  /** The abort of the `or`, seen from alternative `k`, whose run aborted. */
  lemma OrAbortCons(env: Env, p: Parser, k: nat, h: Heap, cur: nat, buffer: nat, init: nat, prev: Option<Outcome>,
                    feed: seq<string>, fuel: nat, stack: seq<Outcome>, cr: Run, o: Outcome)
    requires p.Or? && k < |p.parsers| && Valid(h) && Has(h, cur) && buffer < |h.buffers| && |stack| == k
    requires cr == OrChild(env, p, k, h, cur, buffer, prev, feed, fuel) && AbortedRun(cr)
    requires OrAbortShape(env, p, k + 1, Rollback(cr.heap, buffer, init, Unwrap(cr.heap, cur)), Unwrap(cr.heap, cur),
                          buffer, init, prev, cr.feed, fuel, stack + [cr.end.outcome], o)
    ensures OrAbortShape(env, p, k, h, cur, buffer, init, prev, feed, fuel, stack, o)
  {
    var stack1 := stack + [cr.end.outcome];
    var crs: seq<Run> :| OrRuns(env, p, k + 1, Rollback(cr.heap, buffer, init, Unwrap(cr.heap, cur)), Unwrap(cr.heap, cur),
                                buffer, init, prev, cr.feed, fuel, crs)
      && OrFailedFrom(k + 1, crs, o);
    OrRunsCons(env, p, k, h, cur, buffer, init, prev, feed, fuel, cr, crs);
    assert stack <= stack1 && o.stack.value[k] == stack1[k];
    var all := [cr] + crs;
    forall i | 0 <= i < |all| ensures all[i].end == Returned(o.stack.value[k + i]) {
      if i > 0 {
        assert all[i] == crs[i - 1] && k + i == k + 1 + (i - 1);
      }
    }
    assert OrFailedFrom(k, all, o);
  }

  /** The aborted result of an `or` entered at alternative `k` on stream
      `cur` of `h` with the aborts `stack` of the alternatives before: its
      stack extends `stack`, and each later entry is the abort of the run
      `or` made of that alternative. */
  ghost predicate OrAbortShape(env: Env, p: Parser, k: nat, h: Heap, cur: nat, buffer: nat, init: nat,
                               prev: Option<Outcome>, feed: seq<string>, fuel: nat, stack: seq<Outcome>, o: Outcome)
    requires p.Or?
  {
    o.Aborted? && o.kind == OR && o.message == OR_ERROR_MESSAGE && o.prevParser == prev
    && o.options.None? && o.pattern.None? && o.prevValue.None?
    && o.stack.Some? && |o.stack.value| == |p.parsers| && stack <= o.stack.value
    && AllAborted(o.stack.value)
    && exists crs :: OrRuns(env, p, k, h, cur, buffer, init, prev, feed, fuel, crs) && OrFailedFrom(k, crs, o)
  }

  /** The runs `crs` of the alternatives from `k` on reach the last one,
      and each returned the matching entry of the stack of `o`. */
  ghost predicate OrFailedFrom(k: nat, crs: seq<Run>, o: Outcome)
  {
    o.Aborted? && o.stack.Some? && k + |crs| == |o.stack.value|
    && forall i :: 0 <= i < |crs| ==> crs[i].end == Returned(o.stack.value[k + i])
  }

  /** Tokens of the alternatives are held back: an `or` that does not
      succeed has yielded input requests only (or.ts:60-68,
      or/index.ts:62-72). */
  lemma {:induction false} OrLoopNoTokens(env: Env, p: Parser, k: nat, h: Heap, cur: nat, buffer: nat, init: nat,
                                          prev: Option<Outcome>, stack: seq<Outcome>, trace: seq<Signal>,
                                          feed: seq<string>, fuel: nat)
    requires p.Or? && k <= |p.parsers| && Valid(h) && Has(h, cur) && buffer < |h.buffers|
    ensures var r := OrLoop(env, p, k, h, cur, buffer, init, prev, stack, trace, feed, fuel);
      !Succeeded(r) ==> RequestsAfter(trace, r.trace)
    decreases |p.parsers| - k, 1
  {
    if k == |p.parsers| {
      assert trace[..|trace|] == trace && trace[|trace|..] == [];
    } else {
      OrLoopStep(env, p, k, h, cur, buffer, init, prev, stack, trace, feed, fuel);
      OrNextNoTokens(env, p, k, OrChild(env, p, k, h, cur, buffer, prev, feed, fuel), cur, buffer, init, prev, stack, trace, fuel);
    }
  }

  lemma {:induction false} OrNextNoTokens(env: Env, p: Parser, k: nat, cr: Run, cur: nat, buffer: nat, init: nat,
                                          prev: Option<Outcome>, stack: seq<Outcome>, trace: seq<Signal>, fuel: nat)
    requires p.Or? && k < |p.parsers| && Valid(cr.heap) && Has(cr.heap, cur) && buffer < |cr.heap.buffers|
    requires Succeeded(cr) ==> Has(cr.heap, cr.end.outcome.iter)
    ensures var r := OrNext(env, p, k, cr, cur, buffer, init, prev, stack, trace, fuel);
      !Succeeded(r) ==> RequestsAfter(trace, r.trace)
    decreases |p.parsers| - k, 0
  {
    var trace1 := trace + Requests(cr.trace);
    RequestsAfterAppend(trace, cr.trace);
    if cr.end.Returned? && cr.end.outcome.Aborted? {
      var next := Unwrap(cr.heap, cur);
      var h2 := Rollback(cr.heap, buffer, init, next);
      OrLoopNoTokens(env, p, k + 1, h2, next, buffer, init, prev, stack + [cr.end.outcome], trace1, cr.feed, fuel);
      var r := OrLoop(env, p, k + 1, h2, next, buffer, init, prev, stack + [cr.end.outcome], trace1, cr.feed, fuel);
      if !Succeeded(r) {
        RequestsAfterTrans(trace, trace1, r.trace);
      }
    }
  }

  /** `or(...)` as run by `Eval`: a success is won by the first
      alternative that succeeds, each alternative run on the stream
      restored after the one before failed, and its tokens are passed on
      before the own token; an abort holds the abort of each alternative,
      in order; anything but a success yields no token (or.ts:56-128,
      or/index.ts:58-131). */
  lemma OrResult(env: Env, options: Options, parsers: seq<Parser>, h: Heap, src: nat,
                 prev: Option<Outcome>, feed: seq<string>, fuel: nat)
    requires Valid(h) && Has(h, src)
    ensures var p := Or(options, parsers);
      var r := Eval(env, p, h, src, prev, feed, fuel);
      var (h1, buffer) := BufferOf(h, src);
      var init := |h1.buffers[buffer]|;
      (Succeeded(r) ==> OrSuccessShape(r.end.outcome)
                        && exists crs :: OrWonWith(env, p, 0, h1, src, buffer, init, prev, feed, fuel, [], r, crs))
      && (AbortedRun(r) ==> OrAbortShape(env, p, 0, h1, src, buffer, init, prev, feed, fuel, [], r.end.outcome))
      && (!Succeeded(r) ==> Tokens(r.trace) == [])
  {
    var p := Or(options, parsers);
    var (h1, buffer) := BufferOf(h, src);
    var init := |h1.buffers[buffer]|;
    OrLoopSuccess(env, p, 0, h1, src, buffer, init, prev, [], [], feed, fuel);
    OrLoopAbort(env, p, 0, h1, src, buffer, init, prev, [], [], feed, fuel);
    OrLoopNoTokens(env, p, 0, h1, src, buffer, init, prev, [], [], feed, fuel);
    var r := Eval(env, p, h, src, prev, feed, fuel);
    if !Succeeded(r) {
      assert r.trace[0..] == r.trace;
      TokensOfRequests(r.trace);
    }
  }

  // ------------------------------------------------------------- repeat

  /** At most `max` results (no bound when `max` is absent). */
  predicate WithinMax(options: Options, n: nat)
  {
    options.max.Some? ==> n <= options.max.value
  }

  /** The last of `items`, or `prev` when there is none: the previous
      result a combinator holds after collecting `items`. */
  function LastOr(prev: Option<Outcome>, items: seq<Outcome>): Option<Outcome>
  {
    if items == [] then prev else Some(items[|items| - 1])
  }

  /** The end of `repeat`: kind `REPEAT`, the results so far, the stream
      it stands on, and the own token only when something was matched
      (repeat.ts:95-99, repeat/index.ts:147-161). */
  lemma RepeatFinishResult(env: Env, options: Options, h: Heap, cur: nat, results: seq<Outcome>,
                           trace: seq<Signal>, feed: seq<string>)
    requires Valid(h) && Has(h, cur)
    ensures var r := RepeatFinish(env, options, h, cur, results, trace, feed);
      r.end.outcome.kind == REPEAT && r.end.outcome.data == Results(results) && r.end.outcome.iter == cur
      && r.heap == h && r.trace == trace + RepeatToken(env, options, results)
      && (|r.trace| > |trace| <==> |results| > 0 && TokenSet(options))
  {
  }

  /** Stopping on an input request after `min` keeps the results and gives
      back what the unfinished attempt read. The helper-based `repeat`
      does so only with its own buffer: its continuation yields those
      characters and then what the stream would have yielded; with a
      shared buffer it stays where the attempt left it. The class-based
      one puts them back in front of the stream with `revert(n)`
      (repeat.ts:39-46, repeat/index.ts:76-84). */
  lemma RepeatStopResult(env: Env, options: Options, h: Heap, cur: nat, buffer: nat, init: nat, own: bool,
                         results: seq<Outcome>, trace: seq<Signal>, feed: seq<string>)
    requires Valid(h) && Has(h, cur) && buffer < |h.buffers|
    ensures var r := RepeatStop(env, options, h, cur, buffer, init, own, results, trace, feed);
      var n := |h.buffers[buffer]|;
      var o := r.end.outcome;
      o.kind == REPEAT && o.data == Results(results) && r.trace == trace + RepeatToken(env, options, results)
      && (env.rev.HelperBased? && own && init < n ==>
            var delta := h.buffers[buffer][init..];
            r.heap.buffers[buffer] == h.buffers[buffer][..init]
            && forall m: nat :: Drain(r.heap, o.iter, |delta| + m) == Chars(delta) + Drain(h, cur, m))
      && (env.rev.HelperBased? && !(own && init < n) ==> r.heap == h && o.iter == cur)
      && (env.rev.ClassBased? ==> o.iter == cur && (n <= init ==> r.heap == h))
      && (env.rev.ClassBased? && init < n && h.nodes[Target(h, cur)].peeked.None? ==>
            var delta := h.buffers[buffer][init..];
            r.heap.buffers[buffer] == h.buffers[buffer][..init]
            && Drain(r.heap, cur, |delta|) == Chars(delta))
  {
    var n := |h.buffers[buffer]|;
    if env.rev.HelperBased? && own && init < n {
      RepeatStopOwn(env, options, h, cur, buffer, init, results, trace, feed);
    } else if env.rev.ClassBased? && init < n && h.nodes[Target(h, cur)].peeked.None? {
      RollbackReplays(h, buffer, init, cur);
    }
  }

  /** The helper-based stop with its own buffer: the continuation reads
      the characters of the unfinished attempt, then the stream. */
  lemma RepeatStopOwn(env: Env, options: Options, h: Heap, cur: nat, buffer: nat, init: nat,
                      results: seq<Outcome>, trace: seq<Signal>, feed: seq<string>)
    requires Valid(h) && Has(h, cur) && buffer < |h.buffers|
    requires env.rev.HelperBased? && init < |h.buffers[buffer]|
    ensures var r := RepeatStop(env, options, h, cur, buffer, init, true, results, trace, feed);
      var delta := h.buffers[buffer][init..];
      r.heap.buffers[buffer] == h.buffers[buffer][..init]
      && forall m: nat :: Drain(r.heap, r.end.outcome.iter, |delta| + m) == Chars(delta) + Drain(h, cur, m)
  {
    var n := |h.buffers[buffer]|;
    var (chars, h2) := Splice(h, buffer, n - init);
    IterSeqPairShape(h2, chars, cur);
    forall m: nat ensures Drain(IterSeq(h2, [Text(chars), Ref(cur)]).0, |h2.nodes| + 1, |chars| + m)
                          == Chars(chars) + Drain(h, cur, m) {
      SplicedPair(h, h2, chars, cur, m);
    }
  }

  lemma SplicedPair(h: Heap, h2: Heap, chars: seq<char>, cur: nat, m: nat)
    requires Valid(h) && Has(h, cur) && Valid(h2) && h2.nodes == h.nodes && |h2.buffers| == |h.buffers|
    ensures Drain(IterSeq(h2, [Text(chars), Ref(cur)]).0, |h2.nodes| + 1, |chars| + m)
            == Chars(chars) + Drain(h, cur, m)
  {
    IterSeqPair(h2, chars, cur, m);
    IterSeqPairShape(h2, chars, cur);
    DrainLocal(h2, h, cur, m);
  }

  lemma RepeatStopKeeps(env: Env, options: Options, h: Heap, cur: nat, buffer: nat, init: nat, own: bool,
                        results: seq<Outcome>, trace: seq<Signal>, feed: seq<string>)
    requires Valid(h) && Has(h, cur) && buffer < |h.buffers|
    ensures var o := RepeatStop(env, options, h, cur, buffer, init, own, results, trace, feed).end.outcome;
      o.kind == REPEAT && o.data == Results(results)
  {
  }

  /** The list `items` a `repeat` had collected when it aborted: it
      extends `results`, is below `min`, holds successful results only,
      and the abort's `prevParser` is its last element (`prev` when it is
      empty). */
  ghost predicate RepeatAbortedAfter(options: Options, prev: Option<Outcome>, results: seq<Outcome>,
                                     o: Outcome, items: seq<Outcome>)
    requires o.Aborted?
  {
    results <= items && |items| < MinOf(options) && AllSuccessful(items) && o.prevParser == LastOr(prev, items)
  }

  /** The aborted result of a `repeat` below `min` that had `results`
      when this was stated; `prev` is the previous result it started
      with. The class-based result carries the collected list as
      `prevValue`; the helper-based one carries none. */
  ghost predicate RepeatAbortShape(env: Env, options: Options, prev: Option<Outcome>, results: seq<Outcome>,
                                   o: Outcome)
  {
    o.Aborted? && o.kind == REPEAT && o.message == REPEAT_ERROR_MESSAGE && o.options == Some(options)
    && MinOf(options) > 0 && o.pattern.None? && o.stack.None?
    && (env.rev.HelperBased? ==>
          o.prevValue.None? && exists items :: RepeatAbortedAfter(options, prev, results, o, items))
    && (env.rev.ClassBased? ==>
          o.prevValue.Some? && o.prevValue.value.Results?
          && RepeatAbortedAfter(options, prev, results, o, o.prevValue.value.items))
  }

  /** A failed attempt: below `min` the repetition aborts with the
      results so far, otherwise it returns them (repeat.ts:74-90,
      repeat/index.ts:112-145). */
  lemma RepeatAbortedResult(env: Env, options: Options, h: Heap, cur: nat, buffer: nat, init: nat,
                            prev0: Option<Outcome>, prev: Option<Outcome>, results: seq<Outcome>,
                            trace: seq<Signal>, feed: seq<string>)
    requires Valid(h) && Has(h, cur) && buffer < |h.buffers| && AllSuccessful(results)
    requires prev == LastOr(prev0, results)
    ensures var r := RepeatAborted(env, options, h, cur, buffer, init, prev, results, trace, feed);
      r.end.Returned?
      && (|results| < MinOf(options) ==>
            AbortedRun(r) && r.trace == trace && RepeatAbortShape(env, options, prev0, results, r.end.outcome))
      && (|results| >= MinOf(options) ==>
            Succeeded(r) && r.end.outcome.kind == REPEAT && r.end.outcome.data == Results(results)
            && r.trace == trace + RepeatToken(env, options, results))
  {
    var r := RepeatAborted(env, options, h, cur, buffer, init, prev, results, trace, feed);
    if |results| < MinOf(options) {
      assert RepeatAbortedAfter(options, prev0, results, r.end.outcome, results);
    }
  }

  /** The attempt `repeat` makes after `results`. */
  function RepeatChild(env: Env, p: Parser, h: Heap, cur: nat, buffer: nat, prev: Option<Outcome>,
                       results: seq<Outcome>, feed: seq<string>, fuel: nat): (cr: Run)
    requires p.Repeat? && Valid(h) && Has(h, cur) && buffer < |h.buffers|
    ensures RunOk(h, cr)
  {
    var (h1, src, cprev) := if RepeatEnv(env, p).rev.HelperBased? then Wrap(h, cur, buffer, prev) else (h, cur, None);
    var cr := Eval(env, p.child, h1, src, cprev, if |results| >= MinOf(p.options) then [] else feed, fuel);
    GrownTrans(h, h1, cr.heap);
    cr
  }

  lemma RepeatLoopStep(env: Env, p: Parser, h: Heap, cur: nat, buffer: nat, init: nat, own: bool,
                       prev: Option<Outcome>, results: seq<Outcome>, pending: seq<Signal>,
                       trace: seq<Signal>, feed: seq<string>, fuel: nat)
    requires p.Repeat? && Valid(h) && Has(h, cur) && buffer < |h.buffers|
    ensures var r := RepeatLoop(env, p, h, cur, buffer, init, own, prev, results, pending, trace, feed, fuel);
      (AtMax(p.options, |results|) ==>
         r.end.Returned? && r.end.outcome.Successful? && r.end.outcome.kind == REPEAT
         && r.end.outcome.data == Results(results)
         && r.trace == trace + RepeatToken(RepeatEnv(env, p), p.options, results))
      && (!AtMax(p.options, |results|) ==>
            r == RepeatNext(env, p, RepeatChild(env, p, h, cur, buffer, prev, results, feed, fuel),
                            cur, buffer, init, own, prev, results, pending, trace, feed, fuel))
  {
  }

  /** What `repeat` does with the run `cr` of an attempt, case by case. */
  lemma RepeatNextCases(env: Env, p: Parser, cr: Run, cur: nat, buffer: nat, init: nat, own: bool,
                        prev: Option<Outcome>, results: seq<Outcome>, pending: seq<Signal>,
                        trace: seq<Signal>, feed: seq<string>, fuel: nat)
    requires p.Repeat? && Valid(cr.heap) && Has(cr.heap, cur) && buffer < |cr.heap.buffers|
    requires Succeeded(cr) ==> Has(cr.heap, cr.end.outcome.iter)
    ensures var r := RepeatNext(env, p, cr, cur, buffer, init, own, prev, results, pending, trace, feed, fuel);
      var renv := RepeatEnv(env, p);
      var below := |results| < MinOf(p.options);
      var feed1 := if below then cr.feed else feed;
      var trace1 := trace + Requests(cr.trace);
      (cr.end.Suspended? && !below ==>
         r == RepeatStop(renv, p.options, cr.heap, cur, buffer, init, own, results, trace, feed))
      && (Succeeded(cr) && fuel > 0 ==>
            var o := cr.end.outcome;
            var results1 := results + [o];
            var waiting := pending + Tokens(cr.trace);
            var flush := |results1| >= MinOf(p.options);
            r == RepeatLoop(env, p, cr.heap, o.iter, buffer, |cr.heap.buffers[buffer]|, own, Some(o), results1,
                            if flush then [] else waiting, if flush then trace1 + waiting else trace1,
                            feed1, fuel - 1))
      && (cr.end.Returned? && cr.end.outcome.Aborted? ==>
            r == RepeatAborted(renv, p.options, cr.heap, cur, buffer, init, prev, results, trace1, feed1))
      && (!(cr.end.Suspended? && !below) && !(Succeeded(cr) && fuel > 0) && !(cr.end.Returned? && cr.end.outcome.Aborted?) ==>
            !Succeeded(r) && r.trace == trace1 && r.heap == cr.heap && r.feed == feed1 && !r.end.Returned?)
  {
  }

  /** A successful result of `repeat` that had collected `results`: the
      list extends them, holds successful results only, and has between
      `min` and `max` elements (fewer than `min` only when `max` is
      lower). */
  ghost predicate RepeatSuccessShape(options: Options, results: seq<Outcome>, o: Outcome)
  {
    o.Successful? && o.kind == REPEAT && o.data.Results? && results <= o.data.items
    && AllSuccessful(o.data.items) && WithinMax(options, |o.data.items|)
    && (MinOf(options) <= |o.data.items| || AtMax(options, |o.data.items|))
  }

  /** A `repeat` collects successful results after those it had, at
      least `min` and never more than `max` (repeat.ts:28-93,
      repeat/index.ts:46-145). */
  lemma {:induction false} RepeatLoopSuccess(env: Env, p: Parser, h: Heap, cur: nat, buffer: nat, init: nat,
                                             own: bool, prev: Option<Outcome>, results: seq<Outcome>,
                                             pending: seq<Signal>, trace: seq<Signal>, feed: seq<string>, fuel: nat)
    requires p.Repeat? && Valid(h) && Has(h, cur) && buffer < |h.buffers|
    requires AllSuccessful(results) && WithinMax(p.options, |results|)
    ensures var r := RepeatLoop(env, p, h, cur, buffer, init, own, prev, results, pending, trace, feed, fuel);
      Succeeded(r) ==> RepeatSuccessShape(p.options, results, r.end.outcome)
    decreases fuel, 1
  {
    RepeatLoopStep(env, p, h, cur, buffer, init, own, prev, results, pending, trace, feed, fuel);
    if !AtMax(p.options, |results|) {
      var cr := RepeatChild(env, p, h, cur, buffer, prev, results, feed, fuel);
      RepeatNextSuccess(env, p, cr, cur, buffer, init, own, prev, results, pending, trace, feed, fuel);
    }
  }

  lemma {:induction false} RepeatNextSuccess(env: Env, p: Parser, cr: Run, cur: nat, buffer: nat, init: nat,
                                             own: bool, prev: Option<Outcome>, results: seq<Outcome>,
                                             pending: seq<Signal>, trace: seq<Signal>, feed: seq<string>, fuel: nat)
    requires p.Repeat? && Valid(cr.heap) && Has(cr.heap, cur) && buffer < |cr.heap.buffers|
    requires Succeeded(cr) ==> Has(cr.heap, cr.end.outcome.iter)
    requires AllSuccessful(results) && WithinMax(p.options, |results|) && !AtMax(p.options, |results|)
    ensures var r := RepeatNext(env, p, cr, cur, buffer, init, own, prev, results, pending, trace, feed, fuel);
      Succeeded(r) ==> RepeatSuccessShape(p.options, results, r.end.outcome)
    decreases fuel, 0
  {
    var options := p.options;
    var renv := RepeatEnv(env, p);
    var trace1 := trace + Requests(cr.trace);
    var feed1 := if |results| >= MinOf(options) then feed else cr.feed;
    RepeatNextCases(env, p, cr, cur, buffer, init, own, prev, results, pending, trace, feed, fuel);
    if cr.end.Suspended? && |results| >= MinOf(options) {
      RepeatStopKeeps(renv, options, cr.heap, cur, buffer, init, own, results, trace, feed);
    } else if cr.end.Returned? && cr.end.outcome.Successful? && fuel > 0 {
      var o := cr.end.outcome;
      var results1 := results + [o];
      var waiting := pending + Tokens(cr.trace);
      var flush := |results1| >= MinOf(options);
      RepeatLoopSuccess(env, p, cr.heap, o.iter, buffer, |cr.heap.buffers[buffer]|, own, Some(o), results1,
                        if flush then [] else waiting, if flush then trace1 + waiting else trace1, feed1, fuel - 1);
      var r := RepeatLoop(env, p, cr.heap, o.iter, buffer, |cr.heap.buffers[buffer]|, own, Some(o), results1,
                          if flush then [] else waiting, if flush then trace1 + waiting else trace1, feed1, fuel - 1);
      if Succeeded(r) {
        assert results <= results1;
      }
    } else if cr.end.Returned? && cr.end.outcome.Aborted? && |results| >= MinOf(options) {
      RepeatAbortedFinish(renv, options, cr.heap, cur, buffer, init, prev, results, trace1, feed1);
    }
  }

  /** A `repeat` aborts only below `min`, and so never when `min` is 0;
      the abort names the results collected and the last of them
      (repeat.ts:74-90, repeat/index.ts:112-145). */
  lemma {:induction false} RepeatLoopAbort(env: Env, p: Parser, h: Heap, cur: nat, buffer: nat, init: nat,
                                           own: bool, prev0: Option<Outcome>, prev: Option<Outcome>,
                                           results: seq<Outcome>, pending: seq<Signal>, trace: seq<Signal>,
                                           feed: seq<string>, fuel: nat)
    requires p.Repeat? && Valid(h) && Has(h, cur) && buffer < |h.buffers| && AllSuccessful(results)
    requires prev == LastOr(prev0, results)
    ensures var r := RepeatLoop(env, p, h, cur, buffer, init, own, prev, results, pending, trace, feed, fuel);
      AbortedRun(r) ==> RepeatAbortShape(RepeatEnv(env, p), p.options, prev0, results, r.end.outcome)
    decreases fuel, 1
  {
    RepeatLoopStep(env, p, h, cur, buffer, init, own, prev, results, pending, trace, feed, fuel);
    if !AtMax(p.options, |results|) {
      var cr := RepeatChild(env, p, h, cur, buffer, prev, results, feed, fuel);
      RepeatNextAbort(env, p, cr, cur, buffer, init, own, prev0, prev, results, pending, trace, feed, fuel);
    }
  }

  lemma {:induction false} RepeatNextAbort(env: Env, p: Parser, cr: Run, cur: nat, buffer: nat, init: nat,
                                           own: bool, prev0: Option<Outcome>, prev: Option<Outcome>,
                                           results: seq<Outcome>, pending: seq<Signal>, trace: seq<Signal>,
                                           feed: seq<string>, fuel: nat)
    requires p.Repeat? && Valid(cr.heap) && Has(cr.heap, cur) && buffer < |cr.heap.buffers|
    requires Succeeded(cr) ==> Has(cr.heap, cr.end.outcome.iter)
    requires AllSuccessful(results) && prev == LastOr(prev0, results)
    ensures var r := RepeatNext(env, p, cr, cur, buffer, init, own, prev, results, pending, trace, feed, fuel);
      AbortedRun(r) ==> RepeatAbortShape(RepeatEnv(env, p), p.options, prev0, results, r.end.outcome)
    decreases fuel, 0
  {
    var options := p.options;
    var renv := RepeatEnv(env, p);
    var trace1 := trace + Requests(cr.trace);
    var feed1 := if |results| >= MinOf(options) then feed else cr.feed;
    RepeatNextCases(env, p, cr, cur, buffer, init, own, prev, results, pending, trace, feed, fuel);
    if cr.end.Returned? && cr.end.outcome.Successful? && fuel > 0 {
      var o := cr.end.outcome;
      var results1 := results + [o];
      var waiting := pending + Tokens(cr.trace);
      var flush := |results1| >= MinOf(options);
      RepeatLoopAbort(env, p, cr.heap, o.iter, buffer, |cr.heap.buffers[buffer]|, own, prev0, Some(o), results1,
                      if flush then [] else waiting, if flush then trace1 + waiting else trace1, feed1, fuel - 1);
      var r := RepeatLoop(env, p, cr.heap, o.iter, buffer, |cr.heap.buffers[buffer]|, own, Some(o), results1,
                          if flush then [] else waiting, if flush then trace1 + waiting else trace1, feed1, fuel - 1);
      if AbortedRun(r) {
        RepeatAbortShapeWeaken(renv, options, prev0, results, results1, r.end.outcome);
      }
    } else if cr.end.Returned? && cr.end.outcome.Aborted? {
      RepeatAbortedResult(renv, options, cr.heap, cur, buffer, init, prev0, prev, results, trace1, feed1);
    }
  }

  lemma RepeatAbortShapeWeaken(env: Env, options: Options, prev: Option<Outcome>, results: seq<Outcome>,
                               longer: seq<Outcome>, o: Outcome)
    requires results <= longer && RepeatAbortShape(env, options, prev, longer, o)
    ensures RepeatAbortShape(env, options, prev, results, o)
  {
    if env.rev.HelperBased? {
      var items :| RepeatAbortedAfter(options, prev, longer, o, items);
      assert RepeatAbortedAfter(options, prev, results, o, items);
    }
  }

  /** Tokens are held back until `min` is reached: a `repeat` that aborts
      or waits for input has yielded input requests only, and only below
      `min` (repeat.ts:63-72, repeat/index.ts:91-110). */
  lemma {:induction false} RepeatLoopQuiet(env: Env, p: Parser, h: Heap, cur: nat, buffer: nat, init: nat,
                                           own: bool, prev: Option<Outcome>, results: seq<Outcome>,
                                           pending: seq<Signal>, trace: seq<Signal>, feed: seq<string>, fuel: nat)
    requires p.Repeat? && Valid(h) && Has(h, cur) && buffer < |h.buffers|
    requires |results| < MinOf(p.options) ==> OnlyRequests(trace)
    ensures var r := RepeatLoop(env, p, h, cur, buffer, init, own, prev, results, pending, trace, feed, fuel);
      (AbortedRun(r) || r.end.Suspended?) ==> |results| < MinOf(p.options) && OnlyRequests(r.trace)
    decreases fuel, 1
  {
    RepeatLoopStep(env, p, h, cur, buffer, init, own, prev, results, pending, trace, feed, fuel);
    if !AtMax(p.options, |results|) {
      var cr := RepeatChild(env, p, h, cur, buffer, prev, results, feed, fuel);
      RepeatNextQuiet(env, p, cr, cur, buffer, init, own, prev, results, pending, trace, feed, fuel);
    }
  }

  lemma {:induction false} RepeatNextQuiet(env: Env, p: Parser, cr: Run, cur: nat, buffer: nat, init: nat,
                                           own: bool, prev: Option<Outcome>, results: seq<Outcome>,
                                           pending: seq<Signal>, trace: seq<Signal>, feed: seq<string>, fuel: nat)
    requires p.Repeat? && Valid(cr.heap) && Has(cr.heap, cur) && buffer < |cr.heap.buffers|
    requires Succeeded(cr) ==> Has(cr.heap, cr.end.outcome.iter)
    requires |results| < MinOf(p.options) ==> OnlyRequests(trace)
    ensures var r := RepeatNext(env, p, cr, cur, buffer, init, own, prev, results, pending, trace, feed, fuel);
      (AbortedRun(r) || r.end.Suspended?) ==> |results| < MinOf(p.options) && OnlyRequests(r.trace)
    decreases fuel, 0
  {
    var options := p.options;
    var trace1 := trace + Requests(cr.trace);
    var feed1 := if |results| >= MinOf(options) then feed else cr.feed;
    if cr.end.Returned? && cr.end.outcome.Successful? && fuel > 0 {
      var o := cr.end.outcome;
      var results1 := results + [o];
      var waiting := pending + Tokens(cr.trace);
      var flush := |results1| >= MinOf(options);
      RepeatNextQuietStep(trace, cr.trace, |results1| < MinOf(options));
      RepeatLoopQuiet(env, p, cr.heap, o.iter, buffer, |cr.heap.buffers[buffer]|, own, Some(o), results1,
                      if flush then [] else waiting, if flush then trace1 + waiting else trace1, feed1, fuel - 1);
    } else if |results| < MinOf(options) {
      RepeatNextQuietStep(trace, cr.trace, true);
    }
  }

  lemma RepeatNextQuietStep(trace: seq<Signal>, ct: seq<Signal>, below: bool)
    requires below ==> OnlyRequests(trace)
    ensures below ==> OnlyRequests(trace + Requests(ct))
  {
  }

  /** The run `r` keeps the signals `trace` yielded before it and, on
      success, ends with the `repeat`'s own token for the list it returns. */
  ghost predicate RepeatTokenLast(env: Env, options: Options, trace: seq<Signal>, r: Run)
  {
    Succeeded(r) ==>
      r.end.outcome.data.Results?
      && var tl := RepeatToken(env, options, r.end.outcome.data.items);
      |r.trace| >= |trace| + |tl| && r.trace[..|trace|] == trace && r.trace[|r.trace| - |tl|..] == tl
  }

  /** `repeat`'s own token comes after everything it passed on
      (repeat.ts:95-97, repeat/index.ts:150-158). */
  lemma {:induction false} RepeatLoopToken(env: Env, p: Parser, h: Heap, cur: nat, buffer: nat, init: nat,
                                           own: bool, prev: Option<Outcome>, results: seq<Outcome>,
                                           pending: seq<Signal>, trace: seq<Signal>, feed: seq<string>, fuel: nat)
    requires p.Repeat? && Valid(h) && Has(h, cur) && buffer < |h.buffers|
    ensures RepeatTokenLast(RepeatEnv(env, p), p.options, trace,
                            RepeatLoop(env, p, h, cur, buffer, init, own, prev, results, pending, trace, feed, fuel))
    decreases fuel, 1
  {
    RepeatLoopStep(env, p, h, cur, buffer, init, own, prev, results, pending, trace, feed, fuel);
    if !AtMax(p.options, |results|) {
      var cr := RepeatChild(env, p, h, cur, buffer, prev, results, feed, fuel);
      RepeatNextToken(env, p, cr, cur, buffer, init, own, prev, results, pending, trace, feed, fuel);
    } else {
      EndsWithToken(trace, RepeatToken(RepeatEnv(env, p), p.options, results));
    }
  }

  lemma {:induction false} RepeatNextToken(env: Env, p: Parser, cr: Run, cur: nat, buffer: nat, init: nat,
                                           own: bool, prev: Option<Outcome>, results: seq<Outcome>,
                                           pending: seq<Signal>, trace: seq<Signal>, feed: seq<string>, fuel: nat)
    requires p.Repeat? && Valid(cr.heap) && Has(cr.heap, cur) && buffer < |cr.heap.buffers|
    requires Succeeded(cr) ==> Has(cr.heap, cr.end.outcome.iter)
    ensures RepeatTokenLast(RepeatEnv(env, p), p.options, trace,
                            RepeatNext(env, p, cr, cur, buffer, init, own, prev, results, pending, trace, feed, fuel))
    decreases fuel, 0
  {
    var options := p.options;
    var renv := RepeatEnv(env, p);
    var trace1 := trace + Requests(cr.trace);
    var feed1 := if |results| >= MinOf(options) then feed else cr.feed;
    var r := RepeatNext(env, p, cr, cur, buffer, init, own, prev, results, pending, trace, feed, fuel);
    RepeatNextCases(env, p, cr, cur, buffer, init, own, prev, results, pending, trace, feed, fuel);
    if cr.end.Suspended? && |results| >= MinOf(options) {
      RepeatStopResult(renv, options, cr.heap, cur, buffer, init, own, results, trace, feed);
      TokenLastOf(renv, options, trace, r, results);
    } else if Succeeded(cr) && fuel > 0 {
      var o := cr.end.outcome;
      var results1 := results + [o];
      var waiting := pending + Tokens(cr.trace);
      var flush := |results1| >= MinOf(options);
      var trace2 := if flush then trace1 + waiting else trace1;
      RepeatLoopToken(env, p, cr.heap, o.iter, buffer, |cr.heap.buffers[buffer]|, own, Some(o), results1,
                      if flush then [] else waiting, trace2, feed1, fuel - 1);
      TokenLastThrough(renv, options, trace, trace2, r);
    } else if cr.end.Returned? && cr.end.outcome.Aborted? && |results| >= MinOf(options) {
      RepeatAbortedFinish(renv, options, cr.heap, cur, buffer, init, prev, results, trace1, feed1);
      TokenLastOf(renv, options, trace1, r, results);
      TokenLastThrough(renv, options, trace, trace1, r);
    }
  }

  /** A success whose trace is `trace` and then the own token. */
  lemma TokenLastOf(env: Env, options: Options, trace: seq<Signal>, r: Run, results: seq<Outcome>)
    requires Succeeded(r) && r.end.outcome.data == Results(results)
    requires r.trace == trace + RepeatToken(env, options, results)
    ensures RepeatTokenLast(env, options, trace, r)
  {
    EndsWithToken(trace, RepeatToken(env, options, results));
  }

  /** What holds after `longer` holds after its prefix `trace`. */
  lemma TokenLastThrough(env: Env, options: Options, trace: seq<Signal>, longer: seq<Signal>, r: Run)
    requires trace <= longer && RepeatTokenLast(env, options, longer, r)
    ensures RepeatTokenLast(env, options, trace, r)
  {
    if Succeeded(r) {
      assert longer[..|trace|] == trace;
      PrefixThrough(trace, longer, r.trace);
    }
  }

  lemma PrefixThrough(a: seq<Signal>, b: seq<Signal>, c: seq<Signal>)
    requires |a| <= |b| <= |c| && b[..|a|] == a && c[..|b|] == b
    ensures c[..|a|] == a
  {
    assert c[..|a|] == c[..|b|][..|a|];
  }

  /** A failed attempt at or above `min` ends the repetition with the
      results so far and the own token after everything before. */
  lemma RepeatAbortedFinish(env: Env, options: Options, h: Heap, cur: nat, buffer: nat, init: nat,
                            prev: Option<Outcome>, results: seq<Outcome>, trace: seq<Signal>, feed: seq<string>)
    requires Valid(h) && Has(h, cur) && buffer < |h.buffers| && |results| >= MinOf(options)
    ensures var r := RepeatAborted(env, options, h, cur, buffer, init, prev, results, trace, feed);
      Succeeded(r) && r.end.outcome.data == Results(results) && r.trace == trace + RepeatToken(env, options, results)
  {
  }

  lemma EndsWithToken(trace: seq<Signal>, tl: seq<Signal>)
    ensures |trace + tl| >= |trace| + |tl| && (trace + tl)[..|trace|] == trace
    ensures (trace + tl)[|trace + tl| - |tl|..] == tl
  {
  }

  /** An attempt that fails or waits for input once `min` is reached
      adds no token: the tokens it yielded and those still held back are
      dropped, and the repetition ends with its own token
      (repeat.ts:39-46, 74-90, repeat/index.ts:76-84, 112-145). */
  lemma RepeatDropsFailedAttempt(env: Env, p: Parser, cr: Run, cur: nat, buffer: nat, init: nat,
                                 own: bool, prev: Option<Outcome>, results: seq<Outcome>,
                                 pending: seq<Signal>, trace: seq<Signal>, feed: seq<string>, fuel: nat)
    requires p.Repeat? && Valid(cr.heap) && Has(cr.heap, cur) && buffer < |cr.heap.buffers|
    requires Succeeded(cr) ==> Has(cr.heap, cr.end.outcome.iter)
    requires cr.end.Suspended? || AbortedRun(cr)
    ensures var r := RepeatNext(env, p, cr, cur, buffer, init, own, prev, results, pending, trace, feed, fuel);
      Succeeded(r) ==> Tokens(r.trace) == Tokens(trace) + RepeatToken(RepeatEnv(env, p), p.options, results)
  {
    var options := p.options;
    var renv := RepeatEnv(env, p);
    var tl := RepeatToken(renv, options, results);
    var trace1 := trace + Requests(cr.trace);
    var feed1 := if |results| >= MinOf(options) then feed else cr.feed;
    LeafFacts.TokensOfTokens(tl);
    if cr.end.Suspended? && |results| >= MinOf(options) {
      RepeatStopResult(renv, options, cr.heap, cur, buffer, init, own, results, trace, feed);
      LeafFacts.TokensAppend(trace, tl);
    } else if AbortedRun(cr) && |results| >= MinOf(options) {
      RepeatAbortedFinish(renv, options, cr.heap, cur, buffer, init, prev, results, trace1, feed1);
      LeafFacts.TokensAppend(trace, Requests(cr.trace));
      TokensOfRequests(Requests(cr.trace));
      LeafFacts.TokensAppend(trace1, tl);
    }
  }

  /** The attempts `repeat` makes in turn (repeat.ts:52-72,
      repeat/index.ts:90-110): the first from stream `cur` of `h` after
      `results`; each next one, after a success `o` with fuel left, from
      the continuation of `o`, with `o` added to the results and the
      batches that attempt left over while below `min`. `o` becomes the
      result `repeat` holds as `prev`, which an attempt sees only where
      `RepeatChild` wraps the stream. */
  ghost predicate RepeatRuns(env: Env, p: Parser, h: Heap, cur: nat, buffer: nat, prev: Option<Outcome>,
                             results: seq<Outcome>, feed: seq<string>, fuel: nat, crs: seq<Run>)
    decreases |crs|
  {
    p.Repeat? && Valid(h) && Has(h, cur) && buffer < |h.buffers|
    && (crs != [] ==>
          crs[0] == RepeatChild(env, p, h, cur, buffer, prev, results, feed, fuel)
          && (|crs| > 1 ==>
                Succeeded(crs[0]) && fuel > 0
                && RepeatRuns(env, p, crs[0].heap, crs[0].end.outcome.iter, buffer, Some(crs[0].end.outcome),
                              results + [crs[0].end.outcome],
                              if |results| >= MinOf(p.options) then feed else crs[0].feed, fuel - 1, crs[1..])))
  }

  /** The tokens the attempts `crs` yielded, in order. */
  ghost function AttemptTokens(crs: seq<Run>): seq<Signal>
  {
    if crs == [] then [] else Tokens(crs[0].trace) + AttemptTokens(crs[1..])
  }

  /** The `repeat` run `r`, entered on stream `cur` of `h` with `results`
      collected, `pending` tokens held back and `trace` yielded, succeeded
      through the successful attempts `crs` it made in turn, one per
      result it added. Its tokens are those before it and, once `min` is
      reached, the held-back ones and the attempts' own, in order; then
      the own token. Below `min` (a `max` under `min`) the held-back
      tokens are never passed on. */
  ghost predicate RepeatWonWith(env: Env, p: Parser, h: Heap, cur: nat, buffer: nat, prev: Option<Outcome>,
                                results: seq<Outcome>, feed: seq<string>, fuel: nat,
                                pending: seq<Signal>, trace: seq<Signal>, r: Run, crs: seq<Run>)
    requires p.Repeat?
  {
    RepeatRuns(env, p, h, cur, buffer, prev, results, feed, fuel, crs)
    && Succeeded(r) && r.end.outcome.data.Results?
    && var items := r.end.outcome.data.items;
    results <= items && |crs| == |items| - |results|
    && (forall i :: 0 <= i < |crs| ==> crs[i].end == Returned(items[|results| + i]))
    && Tokens(r.trace) == Tokens(trace) + (if |items| >= MinOf(p.options) then pending + AttemptTokens(crs) else [])
                          + RepeatToken(RepeatEnv(env, p), p.options, items)
  }

  /** Tokens are passed on in the order the attempts yielded them, once
      `min` is reached, and the own token comes last; each attempt starts
      on the continuation of the one before (repeat.ts:52-72, 95-97,
      repeat/index.ts:90-110, 150-154). */
  lemma {:induction false} RepeatLoopWon(env: Env, p: Parser, h: Heap, cur: nat, buffer: nat, init: nat,
                                         own: bool, prev: Option<Outcome>, results: seq<Outcome>,
                                         pending: seq<Signal>, trace: seq<Signal>, feed: seq<string>, fuel: nat)
    requires p.Repeat? && Valid(h) && Has(h, cur) && buffer < |h.buffers|
    requires Tokens(pending) == pending && (|results| >= MinOf(p.options) ==> pending == [])
    ensures var r := RepeatLoop(env, p, h, cur, buffer, init, own, prev, results, pending, trace, feed, fuel);
      Succeeded(r) ==> exists crs :: RepeatWonWith(env, p, h, cur, buffer, prev, results, feed, fuel, pending, trace, r, crs)
    decreases fuel, 1
  {
    RepeatLoopStep(env, p, h, cur, buffer, init, own, prev, results, pending, trace, feed, fuel);
    var r := RepeatLoop(env, p, h, cur, buffer, init, own, prev, results, pending, trace, feed, fuel);
    if !AtMax(p.options, |results|) {
      var cr := RepeatChild(env, p, h, cur, buffer, prev, results, feed, fuel);
      RepeatNextWon(env, p, h, cr, cur, buffer, init, own, prev, results, pending, trace, feed, fuel);
    } else {
      RepeatWonHere(env, p, h, cur, buffer, prev, results, feed, fuel, pending, trace, trace, r);
    }
  }

  lemma {:induction false} RepeatNextWon(env: Env, p: Parser, h: Heap, cr: Run, cur: nat, buffer: nat, init: nat,
                                         own: bool, prev: Option<Outcome>, results: seq<Outcome>,
                                         pending: seq<Signal>, trace: seq<Signal>, feed: seq<string>, fuel: nat)
    requires p.Repeat? && Valid(h) && Has(h, cur) && buffer < |h.buffers|
    requires cr == RepeatChild(env, p, h, cur, buffer, prev, results, feed, fuel)
    requires Tokens(pending) == pending && (|results| >= MinOf(p.options) ==> pending == [])
    ensures var r := RepeatNext(env, p, cr, cur, buffer, init, own, prev, results, pending, trace, feed, fuel);
      Succeeded(r) ==> exists crs :: RepeatWonWith(env, p, h, cur, buffer, prev, results, feed, fuel, pending, trace, r, crs)
    decreases fuel, 0
  {
    if Succeeded(cr) && fuel > 0 {
      var o := cr.end.outcome;
      var flush := |results + [o]| >= MinOf(p.options);
      var trace1 := trace + Requests(cr.trace);
      HeldTokens(trace, cr.trace, pending);
      RepeatLoopWon(env, p, cr.heap, o.iter, buffer, |cr.heap.buffers[buffer]|, own, Some(o), results + [o],
                    if flush then [] else pending + Tokens(cr.trace),
                    if flush then trace1 + (pending + Tokens(cr.trace)) else trace1,
                    if |results| >= MinOf(p.options) then feed else cr.feed, fuel - 1);
      RepeatWonAfter(env, p, h, cr, cur, buffer, init, own, prev, results, pending, trace, feed, fuel);
    } else {
      RepeatWonEnd(env, p, h, cr, cur, buffer, init, own, prev, results, pending, trace, feed, fuel);
    }
  }

  /** Some attempts `repeat` made took it to the success `r`. */
  ghost predicate RepeatWonSome(env: Env, p: Parser, h: Heap, cur: nat, buffer: nat, prev: Option<Outcome>,
                                results: seq<Outcome>, feed: seq<string>, fuel: nat,
                                pending: seq<Signal>, trace: seq<Signal>, r: Run)
    requires p.Repeat?
  {
    exists crs :: RepeatWonWith(env, p, h, cur, buffer, prev, results, feed, fuel, pending, trace, r, crs)
  }

  /** A successful attempt in front of the rest of a successful
      repetition. */
  lemma RepeatWonAfter(env: Env, p: Parser, h: Heap, cr: Run, cur: nat, buffer: nat, init: nat,
                       own: bool, prev: Option<Outcome>, results: seq<Outcome>,
                       pending: seq<Signal>, trace: seq<Signal>, feed: seq<string>, fuel: nat)
    requires p.Repeat? && Valid(h) && Has(h, cur) && buffer < |h.buffers|
    requires cr == RepeatChild(env, p, h, cur, buffer, prev, results, feed, fuel) && Succeeded(cr) && fuel > 0
    requires Tokens(pending) == pending
    requires var o := cr.end.outcome;
      var flush := |results + [o]| >= MinOf(p.options);
      var pending2 := if flush then [] else pending + Tokens(cr.trace);
      var trace1 := trace + Requests(cr.trace);
      var trace2 := if flush then trace1 + (pending + Tokens(cr.trace)) else trace1;
      var feed1 := if |results| >= MinOf(p.options) then feed else cr.feed;
      var r := RepeatLoop(env, p, cr.heap, o.iter, buffer, |cr.heap.buffers[buffer]|, own, Some(o), results + [o],
                          pending2, trace2, feed1, fuel - 1);
      Succeeded(r) ==> RepeatWonSome(env, p, cr.heap, o.iter, buffer, Some(o), results + [o], feed1, fuel - 1,
                                     pending2, trace2, r)
    ensures var r := RepeatNext(env, p, cr, cur, buffer, init, own, prev, results, pending, trace, feed, fuel);
      Succeeded(r) ==> exists crs :: RepeatWonWith(env, p, h, cur, buffer, prev, results, feed, fuel, pending, trace, r, crs)
  {
    var o := cr.end.outcome;
    var results1 := results + [o];
    var flush := |results1| >= MinOf(p.options);
    var pending2 := if flush then [] else pending + Tokens(cr.trace);
    var trace1 := trace + Requests(cr.trace);
    var trace2 := if flush then trace1 + (pending + Tokens(cr.trace)) else trace1;
    var feed1 := if |results| >= MinOf(p.options) then feed else cr.feed;
    RepeatNextGoesOn(env, p, cr, cur, buffer, init, own, prev, results, pending, trace, feed, fuel);
    var r := RepeatNext(env, p, cr, cur, buffer, init, own, prev, results, pending, trace, feed, fuel);
    if Succeeded(r) {
      var crs: seq<Run> :| RepeatWonWith(env, p, cr.heap, o.iter, buffer, Some(o), results1, feed1, fuel - 1,
                                         pending2, trace2, r, crs);
      var reached := |r.end.outcome.data.items| >= MinOf(p.options);
      HeldThrough(trace, cr.trace, pending, flush, reached);
      RepeatWonCons(env, p, h, cur, buffer, prev, results, feed, fuel, pending, trace, pending2, trace2, cr, r, crs);
    }
  }

  /** After a successful attempt the repetition goes on from its
      continuation, holding its tokens back until `min` is reached. */
  lemma RepeatNextGoesOn(env: Env, p: Parser, cr: Run, cur: nat, buffer: nat, init: nat,
                         own: bool, prev: Option<Outcome>, results: seq<Outcome>,
                         pending: seq<Signal>, trace: seq<Signal>, feed: seq<string>, fuel: nat)
    requires p.Repeat? && Valid(cr.heap) && Has(cr.heap, cur) && buffer < |cr.heap.buffers|
    requires Succeeded(cr) && Has(cr.heap, cr.end.outcome.iter) && fuel > 0
    ensures var o := cr.end.outcome;
      var flush := |results + [o]| >= MinOf(p.options);
      var trace1 := trace + Requests(cr.trace);
      RepeatNext(env, p, cr, cur, buffer, init, own, prev, results, pending, trace, feed, fuel)
      == RepeatLoop(env, p, cr.heap, o.iter, buffer, |cr.heap.buffers[buffer]|, own, Some(o), results + [o],
                    if flush then [] else pending + Tokens(cr.trace),
                    if flush then trace1 + (pending + Tokens(cr.trace)) else trace1,
                    if |results| >= MinOf(p.options) then feed else cr.feed, fuel - 1)
  {
  }

  /** The tokens before the rest of the repetition, and those it still
      holds back, are those before the attempt, those held back before it
      and the attempt's own, whether or not it reached `min`. */
  lemma HeldThrough(trace: seq<Signal>, ct: seq<Signal>, pending: seq<Signal>, flush: bool, reached: bool)
    requires Tokens(pending) == pending && (flush ==> reached)
    ensures var trace1 := trace + Requests(ct);
      var pending2 := if flush then [] else pending + Tokens(ct);
      var trace2 := if flush then trace1 + (pending + Tokens(ct)) else trace1;
      Tokens(trace2) + (if reached then pending2 else []) == Tokens(trace) + (if reached then pending + Tokens(ct) else [])
  {
    var trace1 := trace + Requests(ct);
    HeldTokens(trace, ct, pending);
    HeldAlgebra(Tokens(trace), Tokens(trace1), Tokens(trace1 + (pending + Tokens(ct))), pending, Tokens(ct), flush, reached);
  }

  lemma HeldAlgebra(before: seq<Signal>, t1: seq<Signal>, t2: seq<Signal>, pending: seq<Signal>, tk: seq<Signal>,
                    flush: bool, reached: bool)
    requires t1 == before && t2 == before + pending + tk && (flush ==> reached)
    ensures (if flush then t2 else t1) + (if reached then (if flush then [] else pending + tk) else [])
            == before + (if reached then pending + tk else [])
  {
  }

  /** An attempt that is not a success the repetition goes on from: the
      run succeeds only with the results it had. */
  lemma RepeatWonEnd(env: Env, p: Parser, h: Heap, cr: Run, cur: nat, buffer: nat, init: nat,
                     own: bool, prev: Option<Outcome>, results: seq<Outcome>,
                     pending: seq<Signal>, trace: seq<Signal>, feed: seq<string>, fuel: nat)
    requires p.Repeat? && Valid(h) && Has(h, cur) && buffer < |h.buffers|
    requires cr == RepeatChild(env, p, h, cur, buffer, prev, results, feed, fuel)
    requires !(Succeeded(cr) && fuel > 0)
    requires |results| >= MinOf(p.options) ==> pending == []
    ensures var r := RepeatNext(env, p, cr, cur, buffer, init, own, prev, results, pending, trace, feed, fuel);
      Succeeded(r) ==> RepeatWonWith(env, p, h, cur, buffer, prev, results, feed, fuel, pending, trace, r, [])
  {
    var options := p.options;
    var renv := RepeatEnv(env, p);
    var trace1 := trace + Requests(cr.trace);
    var feed1 := if |results| >= MinOf(options) then feed else cr.feed;
    var r := RepeatNext(env, p, cr, cur, buffer, init, own, prev, results, pending, trace, feed, fuel);
    RepeatNextCases(env, p, cr, cur, buffer, init, own, prev, results, pending, trace, feed, fuel);
    if cr.end.Suspended? && |results| >= MinOf(options) {
      RepeatStopResult(renv, options, cr.heap, cur, buffer, init, own, results, trace, feed);
      RepeatWonHere(env, p, h, cur, buffer, prev, results, feed, fuel, pending, trace, trace, r);
    } else if cr.end.Returned? && cr.end.outcome.Aborted? && |results| >= MinOf(options) {
      RepeatAbortedFinish(renv, options, cr.heap, cur, buffer, init, prev, results, trace1, feed1);
      TokensAfterRequests(trace, cr.trace);
      RepeatWonHere(env, p, h, cur, buffer, prev, results, feed, fuel, pending, trace, trace1, r);
    }
  }

  /** Reading off an attempt's signals: requests add no token, and the
      held-back tokens stay tokens. */
  lemma HeldTokens(trace: seq<Signal>, ct: seq<Signal>, pending: seq<Signal>)
    requires Tokens(pending) == pending
    ensures Tokens(trace + Requests(ct)) == Tokens(trace)
    ensures Tokens(pending + Tokens(ct)) == pending + Tokens(ct)
    ensures Tokens(trace + Requests(ct) + (pending + Tokens(ct))) == Tokens(trace) + pending + Tokens(ct)
  {
    TokensAfterRequests(trace, ct);
    LeafFacts.TokensAppend(pending, Tokens(ct));
    TokensIdempotent(ct);
    LeafFacts.TokensAppend(trace + Requests(ct), pending + Tokens(ct));
  }

  /** A `repeat` that ends with the results it had, after yielding
      `longer`, which adds no token to `trace`. */
  lemma RepeatWonHere(env: Env, p: Parser, h: Heap, cur: nat, buffer: nat, prev: Option<Outcome>,
                      results: seq<Outcome>, feed: seq<string>, fuel: nat, pending: seq<Signal>,
                      trace: seq<Signal>, longer: seq<Signal>, r: Run)
    requires p.Repeat? && Valid(h) && Has(h, cur) && buffer < |h.buffers|
    requires Succeeded(r) && r.end.outcome.data == Results(results)
    requires r.trace == longer + RepeatToken(RepeatEnv(env, p), p.options, results)
    requires Tokens(longer) == Tokens(trace) && (|results| >= MinOf(p.options) ==> pending == [])
    ensures RepeatWonWith(env, p, h, cur, buffer, prev, results, feed, fuel, pending, trace, r, [])
  {
    var tl := RepeatToken(RepeatEnv(env, p), p.options, results);
    LeafFacts.TokensAppend(longer, tl);
    LeafFacts.TokensOfTokens(tl);
  }

  /** One more successful attempt, the run `cr` made from stream `cur` of
      `h`, in front of those that won. */
  lemma RepeatWonCons(env: Env, p: Parser, h: Heap, cur: nat, buffer: nat, prev: Option<Outcome>,
                      results: seq<Outcome>, feed: seq<string>, fuel: nat, pending: seq<Signal>,
                      trace: seq<Signal>, pending2: seq<Signal>, trace2: seq<Signal>, cr: Run, r: Run, crs: seq<Run>)
    requires p.Repeat? && Valid(h) && Has(h, cur) && buffer < |h.buffers|
    requires cr == RepeatChild(env, p, h, cur, buffer, prev, results, feed, fuel) && Succeeded(cr) && fuel > 0
    requires RepeatWonWith(env, p, cr.heap, cr.end.outcome.iter, buffer, Some(cr.end.outcome),
                           results + [cr.end.outcome], if |results| >= MinOf(p.options) then feed else cr.feed,
                           fuel - 1, pending2, trace2, r, crs)
    requires var reached := |r.end.outcome.data.items| >= MinOf(p.options);
      Tokens(trace2) + (if reached then pending2 else [])
      == Tokens(trace) + (if reached then pending + Tokens(cr.trace) else [])
    ensures RepeatWonWith(env, p, h, cur, buffer, prev, results, feed, fuel, pending, trace, r, [cr] + crs)
  {
    var items := r.end.outcome.data.items;
    RepeatRunsCons(env, p, h, cur, buffer, prev, results, feed, fuel, cr, crs);
    RepeatAttemptsCons(results, cr.end.outcome, items, cr, crs);
    RepeatTokensCons(Tokens(trace), Tokens(trace2), pending, pending2, cr, crs,
                     RepeatToken(RepeatEnv(env, p), p.options, items), |items| >= MinOf(p.options));
  }

  /** The attempt made after `results` in front of the attempts that
      follow its success. */
  lemma RepeatRunsCons(env: Env, p: Parser, h: Heap, cur: nat, buffer: nat, prev: Option<Outcome>,
                       results: seq<Outcome>, feed: seq<string>, fuel: nat, cr: Run, crs: seq<Run>)
    requires p.Repeat? && Valid(h) && Has(h, cur) && buffer < |h.buffers|
    requires cr == RepeatChild(env, p, h, cur, buffer, prev, results, feed, fuel) && Succeeded(cr) && fuel > 0
    requires RepeatRuns(env, p, cr.heap, cr.end.outcome.iter, buffer, Some(cr.end.outcome), results + [cr.end.outcome],
                        if |results| >= MinOf(p.options) then feed else cr.feed, fuel - 1, crs)
    ensures RepeatRuns(env, p, h, cur, buffer, prev, results, feed, fuel, [cr] + crs)
  {
    assert ([cr] + crs)[0] == cr && ([cr] + crs)[1..] == crs;
  }

  lemma RepeatAttemptsCons(results: seq<Outcome>, o: Outcome, items: seq<Outcome>, cr: Run, crs: seq<Run>)
    requires cr.end == Returned(o)
    requires results + [o] <= items && |crs| == |items| - |results + [o]|
    requires forall i :: 0 <= i < |crs| ==> crs[i].end == Returned(items[|results + [o]| + i])
    ensures results <= items && |[cr] + crs| == |items| - |results|
    ensures var all := [cr] + crs;
      forall i :: 0 <= i < |all| ==> all[i].end == Returned(items[|results| + i])
  {
    var all := [cr] + crs;
    assert items[|results|] == (results + [o])[|results|];
    forall i | 0 <= i < |all|
      ensures all[i].end == Returned(items[|results| + i])
    {
      if i > 0 {
        assert all[i] == crs[i - 1] && |results + [o]| + (i - 1) == |results| + i;
      }
    }
  }

  lemma RepeatTokensCons(before: seq<Signal>, before2: seq<Signal>, pending: seq<Signal>, pending2: seq<Signal>,
                         cr: Run, crs: seq<Run>, own: seq<Signal>, reached: bool)
    requires before2 + (if reached then pending2 else []) == before + (if reached then pending + Tokens(cr.trace) else [])
    ensures before2 + (if reached then pending2 + AttemptTokens(crs) else []) + own
            == before + (if reached then pending + AttemptTokens([cr] + crs) else []) + own
  {
    assert ([cr] + crs)[1..] == crs;
    assert AttemptTokens([cr] + crs) == Tokens(cr.trace) + AttemptTokens(crs);
    if reached {
      calc {
        before2 + (pending2 + AttemptTokens(crs)) + own;
        (before2 + pending2) + AttemptTokens(crs) + own;
        (before + (pending + Tokens(cr.trace))) + AttemptTokens(crs) + own;
        before + (pending + AttemptTokens([cr] + crs)) + own;
      }
    } else {
      assert before2 + [] == before + [];
    }
  }

  /** `repeat(parser, options)` as run by `Eval` (the revision's own, or
      the helper-based one `optional` calls): a success holds between
      `min` and `max` successful results and ends with the own token; an
      abort happens only when `min` is above 0, names the results
      collected and yields no token (repeat.ts:16-100,
      repeat/index.ts:18-161). */
  lemma RepeatResult(env: Env, child: Parser, options: Options, impl: Option<Revision>, h: Heap, src: nat,
                     prev: Option<Outcome>, feed: seq<string>, fuel: nat)
    requires Valid(h) && Has(h, src)
    ensures var p := Repeat(child, options, impl);
      var r := Eval(env, p, h, src, prev, feed, fuel);
      (Succeeded(r) ==> RepeatSuccessShape(options, [], r.end.outcome)
                        && RepeatTokenLast(RepeatEnv(env, p), options, [], r))
      && (AbortedRun(r) ==> RepeatAbortShape(RepeatEnv(env, p), options, prev, [], r.end.outcome))
      && ((AbortedRun(r) || r.end.Suspended?) ==> MinOf(options) > 0 && Tokens(r.trace) == [])
  {
    var p := Repeat(child, options, impl);
    var r := Eval(env, p, h, src, prev, feed, fuel);
    var (h1, buffer) := BufferOf(h, src);
    if RepeatEnv(env, p).rev.HelperBased? {
      var init := |h1.buffers[buffer]|;
      RepeatLoopSuccess(env, p, h1, src, buffer, init, !Buffered(h, src), prev, [], [], [], feed, fuel);
      RepeatLoopAbort(env, p, h1, src, buffer, init, !Buffered(h, src), prev, prev, [], [], [], feed, fuel);
      RepeatLoopQuiet(env, p, h1, src, buffer, init, !Buffered(h, src), prev, [], [], [], feed, fuel);
      RepeatLoopToken(env, p, h1, src, buffer, init, !Buffered(h, src), prev, [], [], [], feed, fuel);
    } else {
      var (h2, cur) := if Buffered(h, src) then (h1, src) else IntoBufIter(h1, Ref(src), buffer);
      var init := |h2.buffers[buffer]|;
      RepeatLoopSuccess(env, p, h2, cur, buffer, init, false, prev, [], [], [], feed, fuel);
      RepeatLoopAbort(env, p, h2, cur, buffer, init, false, prev, prev, [], [], [], feed, fuel);
      RepeatLoopQuiet(env, p, h2, cur, buffer, init, false, prev, [], [], [], feed, fuel);
      RepeatLoopToken(env, p, h2, cur, buffer, init, false, prev, [], [], [], feed, fuel);
    }
    if AbortedRun(r) || r.end.Suspended? {
      TokensOfRequests(r.trace);
    }
  }

  /** Where `Eval` enters the loop of `repeat`: the arena, the stream the
      attempts start from, the array that records them and whether that
      array is the `repeat`'s own. The helper-based revision starts from
      `src` itself and owns a fresh array; the class-based one reads
      through a recording wrapper unless `src` already records
      (repeat.ts:16-27, repeat/index.ts:18-44). */
  function RepeatEntry(env: Env, p: Parser, h: Heap, src: nat): (e: (Heap, nat, nat, bool))
    requires p.Repeat? && Valid(h) && Has(h, src)
    ensures Valid(e.0) && Grown(h, e.0) && Has(e.0, e.1) && e.2 < |e.0.buffers|
    ensures RepeatEnv(env, p).rev.HelperBased? ==> e.1 == src && e.3 == !Buffered(h, src)
    ensures RepeatEnv(env, p).rev.ClassBased? ==> !e.3
  {
    var (h1, buffer) := BufferOf(h, src);
    if RepeatEnv(env, p).rev.HelperBased? then (h1, src, buffer, !Buffered(h, src))
    else
      var (h2, cur) := if Buffered(h, src) then (h1, src) else IntoBufIter(h1, Ref(src), buffer);
      (h2, cur, buffer, false)
  }

  lemma RepeatEnters(env: Env, p: Parser, h: Heap, src: nat, prev: Option<Outcome>, feed: seq<string>, fuel: nat)
    requires p.Repeat? && Valid(h) && Has(h, src)
    ensures var (h1, cur, buffer, own) := RepeatEntry(env, p, h, src);
      Eval(env, p, h, src, prev, feed, fuel)
      == RepeatLoop(env, p, h1, cur, buffer, |h1.buffers[buffer]|, own, prev, [], [], [], feed, fuel)
  {
  }

  /** A whole successful `repeat` passes on, once `min` is reached, the
      tokens of its successful attempts in the order they were yielded,
      then its own token; the first attempt starts where `repeat` entered
      its loop and each later one on the continuation of the one before;
      a failed or cut-off attempt adds none (repeat.ts:16-99,
      repeat/index.ts:18-161). */
  lemma RepeatResultTokens(env: Env, child: Parser, options: Options, impl: Option<Revision>, h: Heap, src: nat,
                           prev: Option<Outcome>, feed: seq<string>, fuel: nat)
    requires Valid(h) && Has(h, src)
    ensures var p := Repeat(child, options, impl);
      var r := Eval(env, p, h, src, prev, feed, fuel);
      var (h1, cur, buffer, own) := RepeatEntry(env, p, h, src);
      Succeeded(r) ==> exists crs :: RepeatWonWith(env, p, h1, cur, buffer, prev, [], feed, fuel, [], [], r, crs)
  {
    var p := Repeat(child, options, impl);
    var (h1, cur, buffer, own) := RepeatEntry(env, p, h, src);
    assert Tokens([]) == [];
    RepeatEnters(env, p, h, src, prev, feed, fuel);
    RepeatLoopWon(env, p, h1, cur, buffer, |h1.buffers[buffer]|, own, prev, [], [], [], feed, fuel);
  }

  // ----------------------------------------------------------- optional

  /** `optional(parser, options)` runs the helper-based `repeat` whatever
      the revision in use: it never fails or waits for input unless the
      options ask for a positive `min`, returns at most one result unless
      they raise `max`, and yields its token (made by `createParserToken`)
      only when the parser matched, with the list of results as data
      (optional.ts:2-8, optional/index.ts:2-8, repeat/index.ts:147-161). */
  lemma OptionalResult(env: Env, child: Parser, options: Option<Options>, h: Heap, src: nat,
                       prev: Option<Outcome>, feed: seq<string>, fuel: nat)
    requires Valid(h) && Has(h, src)
    ensures var q := Optional(child, options);
      var r := Eval(env, q, h, src, prev, feed, fuel);
      ((options.None? || options.value.min.None? || options.value.min == Some(0)) ==>
         !AbortedRun(r) && !r.end.Suspended?)
      && (Succeeded(r) ==>
            r.end.outcome.data.Results?
            && var items := r.end.outcome.data.items;
            var tl := if items == [] then [] else TokenOf(env, q.options, Results(items));
            AllSuccessful(items)
            && ((options.None? || options.value.max.None?) ==> |items| <= 1)
            && |r.trace| >= |tl| && r.trace[|r.trace| - |tl|..] == tl)
  {
    var q := Optional(child, options);
    RepeatResult(env, child, OptionalOptions(options), Some(HelperBased), h, src, prev, feed, fuel);
  }

  /** `optional` over a `tag` that fails starts nothing: on a stream that
      records nothing, the attempt's characters are rolled back, and the
      run returns an empty list of results on the very stream it was
      given, yields nothing, and leaves every stream as it found it; only
      its new array and the unused `intoBufIter` wrapper remain
      (optional/index.ts:8, repeat/index.ts:38-50, 133-160). */
  lemma OptionalTagRestores(env: Env, pattern: seq<Test>, tagOptions: Options, options: Option<Options>,
                            h: Heap, src: nat, prev: Option<Outcome>, feed: seq<string>, fuel: nat,
                            s: string, rest: string)
    requires Valid(h) && Has(h, src) && !Buffered(h, src) && Silent(h, src) && TagFailsOn(pattern, s)
    requires h.nodes[Target(h, src)] == Base(None, s + rest)
    requires MinOf(OptionalOptions(options)) == 0
    ensures Eval(env, Optional(Tag(pattern, tagOptions), options), h, src, prev, feed, fuel)
            == Run(Heap(h.nodes + [Recorder(src, |h.buffers|)], h.buffers + [[]]), [],
                   Returned(SuccessfulResult(REPEAT, Results([]), src)), feed)
  {
    var p := Optional(Tag(pattern, tagOptions), options);
    var h1 := Heap(h.nodes, h.buffers + [[]]);
    var buffer := |h.buffers|;
    OptionalEnters(env, p, h, src, prev, feed, fuel);
    var hw := Wrap(h1, src, buffer, prev).0;
    assert hw == Heap(h.nodes + [Recorder(src, |h.buffers|)], h.buffers + [[]]);
    if !AtMax(p.options, 0) {
      var cr := RepeatChild(env, p, h1, src, buffer, prev, [], feed, fuel);
      OptionalTagAttempt(env, pattern, tagOptions, options, h, h1, src, prev, feed, fuel, s, rest);
      RepeatNextCases(env, p, cr, src, buffer, 0, true, prev, [], [], [], feed, fuel);
      assert [] + Requests(cr.trace) == [];
    }
    RepeatLoopStep(env, p, h1, src, buffer, 0, true, prev, [], [], [], feed, fuel);
  }

  /** The helper-based `repeat` over a stream that records nothing starts
      its loop on a new, empty array it owns. */
  lemma OptionalEnters(env: Env, p: Parser, h: Heap, src: nat, prev: Option<Outcome>, feed: seq<string>, fuel: nat)
    requires p.Repeat? && p.impl == Some(HelperBased) && Valid(h) && Has(h, src) && !Buffered(h, src)
    ensures var h1 := Heap(h.nodes, h.buffers + [[]]);
      Valid(h1) && Has(h1, src)
      && Eval(env, p, h, src, prev, feed, fuel) == RepeatLoop(env, p, h1, src, |h.buffers|, 0, true, prev, [], [], [], feed, fuel)
  {
  }

  /** The one attempt of `optional` over a failing `tag`: it aborts
      without signals, and rolling back its array restores the stream. */
  lemma OptionalTagAttempt(env: Env, pattern: seq<Test>, tagOptions: Options, options: Option<Options>,
                           h: Heap, h1: Heap, src: nat, prev: Option<Outcome>, feed: seq<string>, fuel: nat,
                           s: string, rest: string)
    requires Valid(h) && Has(h, src) && !Buffered(h, src) && Silent(h, src) && TagFailsOn(pattern, s)
    requires h.nodes[Target(h, src)] == Base(None, s + rest)
    requires MinOf(OptionalOptions(options)) == 0
    requires h1 == Heap(h.nodes, h.buffers + [[]]) && Valid(h1)
    ensures var p := Optional(Tag(pattern, tagOptions), options);
      var buffer := |h.buffers|;
      var cr := RepeatChild(env, p, h1, src, buffer, prev, [], feed, fuel);
      cr.end == Returned(TagFailure(env.rev, pattern, tagOptions, prev, s)) && cr.trace == [] && cr.feed == []
      && Has(cr.heap, src) && Unwrap(cr.heap, src) == src
      && Rollback(cr.heap, buffer, 0, src) == Wrap(h1, src, buffer, prev).0
  {
    var buffer := |h.buffers|;
    var t := Target(h, src);
    assert h.nodes[t := h.nodes[t]] == h.nodes;
    TargetStable(h, h1, src, h.nodes[t]);
    SilentSameNodes(h, h1, src);
    TagAlternativeFails(env.rev, env.apply, pattern, tagOptions, h1, src, buffer, prev, [], s, rest);
    var hw := Wrap(h1, src, buffer, prev).0;
    var p := Optional(Tag(pattern, tagOptions), options);
    var cr := RepeatChild(env, p, h1, src, buffer, prev, [], feed, fuel);
    assert !cr.heap.nodes[src].Recorder?;
    TailRollback(h1, hw, cr.heap, src, buffer, s, rest);
  }

  // -------------------------------------------------------------- kinds

  /** Every result a parser returns carries that parser's own type (the
      `type` field each parser fills in: tag.ts, seq.ts, or.ts, repeat.ts
      and the helper-based tag, take, seq, or and repeat). */
  lemma EvalKind(env: Env, p: Parser, h: Heap, src: nat, prev: Option<Outcome>, feed: seq<string>, fuel: nat)
    requires Valid(h) && Has(h, src)
    ensures var r := Eval(env, p, h, src, prev, feed, fuel);
      r.end.Returned? ==> r.end.outcome.kind == KindOf(p)
  {
    match p
    case Tag(pattern, options) =>
      LeafFacts.TagResult(env.rev, env.apply, pattern, options, h, src, prev, feed);
    case Take(test, options) =>
      LeafFacts.TakeResult(env.apply, test, options, h, src, prev, feed, fuel);
    case Seq(options, parsers) =>
      var (h1, buffer) := if env.rev.HelperBased? then BufferOf(h, src) else (h, 0);
      SeqLoopSuccess(env, p, 0, h1, src, buffer, prev, [], [], feed, fuel);
      SeqLoopAbort(env, p, 0, h1, src, buffer, prev, [], [], feed, fuel);
    case Or(options, parsers) =>
      OrResult(env, options, parsers, h, src, prev, feed, fuel);
    case Repeat(child, options, impl) =>
      RepeatResult(env, child, options, impl, h, src, prev, feed, fuel);
  }
}
