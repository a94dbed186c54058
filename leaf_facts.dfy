/** What `tag` (src/parsers/tag/tag.ts, src/parsers/tag/index.ts) and
    `take` (src/parsers/take/index.ts) promise about their results. */
module LeafFacts {
  import opened Protocol
  import opened Stream
  import opened Parsers
  import opened Leaf
  import opened StreamFacts
  import Semantics

  /** Character `k` of `s` passes test `k` of `tests`, for every `k`. */
  predicate Matches(tests: seq<Test>, s: string)
  {
    |s| <= |tests| && forall k :: 0 <= k < |s| ==> Accepts(tests[k], s[k])
  }

  /** Every character of `s` passes `test`. */
  predicate AllAccepted(test: Test, s: string)
  {
    forall k :: 0 <= k < |s| ==> Accepts(test, s[k])
  }

  /** Only the input requests `tag` and `take` yield. */
  predicate AllQueries(t: seq<Signal>)
  {
    forall k :: 0 <= k < |t| ==> t[k].Request? && t[k].message == EXPECT_NEW_INPUT_MESSAGE
  }

  /** The token signal `createParserToken` yields, as a list. */
  function TokenList(apply: (MapperId, Value) -> Option<Value>, options: Options, data: Value): (t: seq<Signal>)
    ensures |t| <= 1 && (t != [] <==> TokenSet(options))
    ensures t != [] ==> t[0] == Token(options.token, MapOr(apply, options.tokenValue, data))
  {
    var token := CreateParserToken(apply, options, data);
    if token.Some? then [token.value] else []
  }

  /** Reading one character yields at most one input request, and a read
      that stops the run has just yielded it. */
  lemma ReadCharTrace(h: Heap, cur: nat, trace: seq<Signal>, feed: seq<string>)
    requires Valid(h) && Has(h, cur)
    ensures var rd := ReadChar(h, cur, trace, feed);
      (rd.Got? ==> rd.trace == trace || rd.trace == trace + [DataQuery()])
      && (rd.Halt? ==> rd.run.trace == trace + [DataQuery()])
  {
  }

  lemma AllQueriesAppend(a: seq<Signal>, b: seq<Signal>)
    requires AllQueries(a) && AllQueries(b)
    ensures AllQueries(a + b)
  {
  }

  // ---------------------------------------------------------------- tag

  /** `after` is `before` followed by the input requests of `tag` and
      `take` only. */
  ghost predicate QueriesAfter(before: seq<Signal>, after: seq<Signal>)
  {
    |before| <= |after| && after[..|before|] == before && AllQueries(after[|before|..])
  }

  lemma QueriesAfterTrans(a: seq<Signal>, b: seq<Signal>, c: seq<Signal>)
    requires QueriesAfter(a, b) && QueriesAfter(b, c)
    ensures QueriesAfter(a, c)
  {
    assert c[..|a|] == b[..|a|];
    assert c[|a|..] == b[|a|..] + c[|b|..];
  }

  /** Reading one character only ever yields input requests. */
  lemma ReadCharRequests(h: Heap, cur: nat, trace: seq<Signal>, feed: seq<string>)
    requires Valid(h) && Has(h, cur)
    ensures var rd := ReadChar(h, cur, trace, feed);
      (rd.Got? ==> QueriesAfter(trace, rd.trace)) && (rd.Halt? ==> QueriesAfter(trace, rd.run.trace))
  {
    ReadCharTrace(h, cur, trace, feed);
  }

  /** `after` is `before`, then input requests, then the signals `tl`. */
  ghost predicate EndsWith(before: seq<Signal>, after: seq<Signal>, tl: seq<Signal>)
  {
    |after| >= |tl| && QueriesAfter(before, after[..|after| - |tl|]) && after[|after| - |tl|..] == tl
  }

  /** The signals of a run that returned `data`: input requests, then
      the token when the options name one. */
  ghost predicate TokenLast(apply: (MapperId, Value) -> Option<Value>, options: Options, data: Value,
                            before: seq<Signal>, after: seq<Signal>)
  {
    EndsWith(before, after, TokenList(apply, options, data))
  }

  /** One turn of `tag`'s loop: read a character, then test it. */
  lemma TagLoopStep(rev: Revision, apply: (MapperId, Value) -> Option<Value>,
                    pattern: seq<Test>, options: Options, prev: Option<Outcome>,
                    i: nat, h: Heap, cur: nat, parsed: string,
                    trace: seq<Signal>, feed: seq<string>)
    requires Valid(h) && Has(h, cur) && i < |pattern|
    ensures var r := TagLoop(rev, apply, pattern, options, prev, i, h, cur, parsed, trace, feed);
      var rd := ReadChar(h, cur, trace, feed);
      (rd.Halt? ==> r == rd.run)
      && (rd.Got? ==> r == TagTest(rev, apply, pattern, options, prev, i, rd.heap, rd.cur, rd.c, parsed, rd.trace, rd.feed))
  {
  }

  /** From position `i` of the pattern, with the first `i` characters
      accepted, a success returns all `|pattern|` characters, each passing
      its test and beginning with those already read (tag.ts:26-58,
      tag/index.ts:27-59). */
  lemma {:induction false} TagLoopSuccess(rev: Revision, apply: (MapperId, Value) -> Option<Value>,
                                          pattern: seq<Test>, options: Options, prev: Option<Outcome>,
                                          i: nat, h: Heap, cur: nat, parsed: string,
                                          trace: seq<Signal>, feed: seq<string>)
    requires Valid(h) && Has(h, cur) && i <= |pattern| && |parsed| == i && Matches(pattern, parsed)
    ensures var r := TagLoop(rev, apply, pattern, options, prev, i, h, cur, parsed, trace, feed);
      Succeeded(r) ==>
        var o := r.end.outcome;
        o.kind == TAG && o.data.Str? && |o.data.s| == |pattern| && Matches(pattern, o.data.s)
        && parsed <= o.data.s
    decreases |pattern| - i
  {
    if i < |pattern| {
      TagLoopStep(rev, apply, pattern, options, prev, i, h, cur, parsed, trace, feed);
      var rd := ReadChar(h, cur, trace, feed);
      if rd.Got? && TestChar(pattern[i], rd.c).Pass? {
        MatchesExtend(pattern, parsed, rd.c);
        TagLoopSuccess(rev, apply, pattern, options, prev, i + 1, rd.heap, rd.cur, parsed + [rd.c], rd.trace, rd.feed);
      }
    }
  }

  lemma MatchesExtend(pattern: seq<Test>, parsed: string, c: char)
    requires Matches(pattern, parsed) && |parsed| < |pattern| && Accepts(pattern[|parsed|], c)
    ensures Matches(pattern, parsed + [c])
  {
    var s := parsed + [c];
    forall k | 0 <= k < |s| ensures Accepts(pattern[k], s[k]) {
      if k < |parsed| { assert s[k] == parsed[k]; }
    }
  }

  /** An abort reports `TAG`, the options, the previous result, the whole
      pattern and the prefix that matched, which is shorter than the
      pattern (tag.ts:37-49, tag/index.ts:37-49). */
  lemma {:induction false} TagLoopAbort(rev: Revision, apply: (MapperId, Value) -> Option<Value>,
                                        pattern: seq<Test>, options: Options, prev: Option<Outcome>,
                                        i: nat, h: Heap, cur: nat, parsed: string,
                                        trace: seq<Signal>, feed: seq<string>)
    requires Valid(h) && Has(h, cur) && i <= |pattern| && |parsed| == i && Matches(pattern, parsed)
    ensures var r := TagLoop(rev, apply, pattern, options, prev, i, h, cur, parsed, trace, feed);
      AbortedRun(r) ==> TagAbortShape(pattern, options, prev, parsed, r.end.outcome)
    decreases |pattern| - i, 1
  {
    if i < |pattern| {
      TagLoopStep(rev, apply, pattern, options, prev, i, h, cur, parsed, trace, feed);
      var rd := ReadChar(h, cur, trace, feed);
      if rd.Got? {
        TagTestAbort(rev, apply, pattern, options, prev, i, rd.heap, rd.cur, rd.c, parsed, rd.trace, rd.feed);
      }
    }
  }

  lemma {:induction false} TagTestAbort(rev: Revision, apply: (MapperId, Value) -> Option<Value>,
                                        pattern: seq<Test>, options: Options, prev: Option<Outcome>,
                                        i: nat, h: Heap, cur: nat, c: char, parsed: string,
                                        trace: seq<Signal>, feed: seq<string>)
    requires Valid(h) && Has(h, cur) && i < |pattern| && |parsed| == i && Matches(pattern, parsed)
    ensures var r := TagTest(rev, apply, pattern, options, prev, i, h, cur, c, parsed, trace, feed);
      AbortedRun(r) ==> TagAbortShape(pattern, options, prev, parsed, r.end.outcome)
    decreases |pattern| - i, 0
  {
    if TestChar(pattern[i], c).Pass? {
      MatchesExtend(pattern, parsed, c);
      TagLoopAbort(rev, apply, pattern, options, prev, i + 1, h, cur, parsed + [c], trace, feed);
      TagAbortShapeWeaken(pattern, options, prev, parsed, parsed + [c],
        TagLoop(rev, apply, pattern, options, prev, i + 1, h, cur, parsed + [c], trace, feed).end);
    } else {
      var o := TagTest(rev, apply, pattern, options, prev, i, h, cur, c, parsed, trace, feed).end.outcome;
      assert !Accepts(pattern[|parsed|], c) && o.message == ComparatorMessage(pattern[|parsed|], c);
      assert TagAbortAt(pattern, options, prev, parsed, o);
    }
  }

  /** The aborted result of `tag` that matched exactly `m`: kind `TAG`,
      the options, the previous result and the whole pattern; `m` is
      shorter than the pattern and matches it, the message is the
      comparator message of the next pattern symbol for a character it
      rejects, and `prevValue` is `m`, absent when `m` is empty (an empty
      string is dropped by both result builders). */
  ghost predicate TagAbortAt(pattern: seq<Test>, options: Options, prev: Option<Outcome>, m: string, o: Outcome)
  {
    o.Aborted? && o.kind == TAG && o.options == Some(options) && o.prevParser == prev
    && o.pattern == Some(Tests(pattern)) && |m| < |pattern| && Matches(pattern, m)
    && (exists c :: !Accepts(pattern[|m|], c) && o.message == ComparatorMessage(pattern[|m|], c))
    && o.prevValue == (if m == [] then None else Some(Str(m)))
  }

  /** The aborted result of `tag` after matching `parsed`: it matched a
      prefix of the input that extends `parsed`. */
  ghost predicate TagAbortShape(pattern: seq<Test>, options: Options, prev: Option<Outcome>,
                                parsed: string, o: Outcome)
  {
    exists m :: parsed <= m && TagAbortAt(pattern, options, prev, m, o)
  }

  lemma TagAbortShapeWeaken(pattern: seq<Test>, options: Options, prev: Option<Outcome>,
                            parsed: string, longer: string, e: End)
    requires parsed <= longer
    requires e.Returned? && e.outcome.Aborted? ==> TagAbortShape(pattern, options, prev, longer, e.outcome)
    ensures e.Returned? && e.outcome.Aborted? ==> TagAbortShape(pattern, options, prev, parsed, e.outcome)
  {
    if e.Returned? && e.outcome.Aborted? {
      var m :| longer <= m && TagAbortAt(pattern, options, prev, m, e.outcome);
      assert parsed <= m;
    }
  }

  lemma EndsWithAppend(trace: seq<Signal>, tl: seq<Signal>)
    ensures EndsWith(trace, trace + tl, tl)
  {
    var t := trace + tl;
    assert t[..|t| - |tl|] == trace && t[|t| - |tl|..] == tl;
    assert trace[..|trace|] == trace && trace[|trace|..] == [];
  }

  /** `tag` yields input requests only, followed on success by its token
      (tag.ts:28-34, 53-56; tag/index.ts:29-35, 54-57). */
  lemma {:induction false} TagLoopTrace(rev: Revision, apply: (MapperId, Value) -> Option<Value>,
                                        pattern: seq<Test>, options: Options, prev: Option<Outcome>,
                                        i: nat, h: Heap, cur: nat, parsed: string,
                                        trace: seq<Signal>, feed: seq<string>)
    requires Valid(h) && Has(h, cur) && i <= |pattern|
    ensures var r := TagLoop(rev, apply, pattern, options, prev, i, h, cur, parsed, trace, feed);
      (Succeeded(r) ==> TokenLast(apply, options, r.end.outcome.data, trace, r.trace))
      && (!Succeeded(r) ==> QueriesAfter(trace, r.trace))
    decreases |pattern| - i, 1
  {
    var r := TagLoop(rev, apply, pattern, options, prev, i, h, cur, parsed, trace, feed);
    if i == |pattern| {
      EndsWithAppend(trace, TokenList(apply, options, Str(parsed)));
    } else {
      ReadCharRequests(h, cur, trace, feed);
      TagLoopStep(rev, apply, pattern, options, prev, i, h, cur, parsed, trace, feed);
      var rd := ReadChar(h, cur, trace, feed);
      if rd.Got? {
        TagTestTrace(rev, apply, pattern, options, prev, i, rd.heap, rd.cur, rd.c, parsed, rd.trace, rd.feed);
        TraceCompose(apply, options, trace, rd.trace, r);
      }
    }
  }

  /** Input requests before a run's signals keep their shape. */
  lemma TraceCompose(apply: (MapperId, Value) -> Option<Value>, options: Options,
                     a: seq<Signal>, b: seq<Signal>, r: Run)
    requires QueriesAfter(a, b)
    requires Succeeded(r) ==> TokenLast(apply, options, r.end.outcome.data, b, r.trace)
    requires !Succeeded(r) ==> QueriesAfter(b, r.trace)
    ensures Succeeded(r) ==> TokenLast(apply, options, r.end.outcome.data, a, r.trace)
    ensures !Succeeded(r) ==> QueriesAfter(a, r.trace)
  {
    if Succeeded(r) {
      EndsWithCompose(a, b, r.trace, TokenList(apply, options, r.end.outcome.data));
    } else {
      QueriesAfterTrans(a, b, r.trace);
    }
  }

  lemma EndsWithCompose(a: seq<Signal>, b: seq<Signal>, c: seq<Signal>, tl: seq<Signal>)
    requires QueriesAfter(a, b) && EndsWith(b, c, tl)
    ensures EndsWith(a, c, tl)
  {
    QueriesAfterTrans(a, b, c[..|c| - |tl|]);
  }

  lemma {:induction false} TagTestTrace(rev: Revision, apply: (MapperId, Value) -> Option<Value>,
                                        pattern: seq<Test>, options: Options, prev: Option<Outcome>,
                                        i: nat, h: Heap, cur: nat, c: char, parsed: string,
                                        trace: seq<Signal>, feed: seq<string>)
    requires Valid(h) && Has(h, cur) && i < |pattern|
    ensures var r := TagTest(rev, apply, pattern, options, prev, i, h, cur, c, parsed, trace, feed);
      (Succeeded(r) ==> TokenLast(apply, options, r.end.outcome.data, trace, r.trace))
      && (!Succeeded(r) ==> QueriesAfter(trace, r.trace))
    decreases |pattern| - i, 0
  {
    if TestChar(pattern[i], c).Pass? {
      TagLoopTrace(rev, apply, pattern, options, prev, i + 1, h, cur, parsed + [c], trace, feed);
    } else {
      assert trace[..|trace|] == trace && trace[|trace|..] == [];
    }
  }

  /** On success `tag` returns exactly `|pattern|` characters, each
      passing its test; its only token comes last. On abort the error
      carries the pattern and the prefix that matched, never more than
      the pattern (tag.ts:21-58, tag/index.ts:22-59). */
  lemma TagResult(rev: Revision, apply: (MapperId, Value) -> Option<Value>, pattern: seq<Test>,
                  options: Options, h: Heap, src: nat, prev: Option<Outcome>, feed: seq<string>)
    requires Valid(h) && Has(h, src)
    ensures var r := Leaf.Tag(rev, apply, pattern, options, h, src, prev, feed);
      (Succeeded(r) ==>
         var o := r.end.outcome;
         o.kind == TAG && o.data.Str? && |o.data.s| == |pattern| && Matches(pattern, o.data.s)
         && Semantics.Tokens(r.trace) == TokenList(apply, options, o.data))
      && (!Succeeded(r) ==> Semantics.Tokens(r.trace) == [])
      && (AbortedRun(r) ==> TagAbortShape(pattern, options, prev, "", r.end.outcome))
  {
    var r := Leaf.Tag(rev, apply, pattern, options, h, src, prev, feed);
    TagLoopSuccess(rev, apply, pattern, options, prev, 0, h, src, "", [], feed);
    TagLoopAbort(rev, apply, pattern, options, prev, 0, h, src, "", [], feed);
    TagLoopTrace(rev, apply, pattern, options, prev, 0, h, src, "", [], feed);
    if Succeeded(r) {
      var tl := TokenList(apply, options, r.end.outcome.data);
      var mid := r.trace[..|r.trace| - |tl|];
      assert r.trace == mid + r.trace[|r.trace| - |tl|..];
      assert mid[0..] == mid;
      Semantics.TokensOfRequests(mid);
      TokensAppend(mid, tl);
      TokensOfTokens(tl);
    } else {
      assert r.trace[0..] == r.trace;
      Semantics.TokensOfRequests(r.trace);
    }
  }

  lemma TokensOfTokens(t: seq<Signal>)
    requires |t| <= 1 && forall k :: 0 <= k < |t| ==> t[k].Token?
    ensures Semantics.Tokens(t) == t
  {
    if t != [] {
      assert t[1..] == [];
    }
  }

  lemma {:induction false} TokensAppend(a: seq<Signal>, b: seq<Signal>)
    ensures Semantics.Tokens(a + b) == Semantics.Tokens(a) + Semantics.Tokens(b)
    decreases |a|
  {
    if a == [] {
      assert a + b == b;
    } else {
      assert (a + b)[1..] == a[1..] + b;
      TokensAppend(a[1..], b);
    }
  }

  /** The two revisions of `tag` behave alike: the aborted result of
      `AbortedResult` and of `createAbortedResult` coincide because the
      pattern is never the empty string and the prefix is dropped by both
      exactly when it is empty (tag.ts:37-49, tag/index.ts:37-49). */
  lemma {:induction false} TagLoopRevisionsAgree(apply: (MapperId, Value) -> Option<Value>,
                                                 pattern: seq<Test>, options: Options, prev: Option<Outcome>,
                                                 i: nat, h: Heap, cur: nat, parsed: string,
                                                 trace: seq<Signal>, feed: seq<string>)
    requires Valid(h) && Has(h, cur) && i <= |pattern|
    ensures TagLoop(HelperBased, apply, pattern, options, prev, i, h, cur, parsed, trace, feed)
         == TagLoop(ClassBased, apply, pattern, options, prev, i, h, cur, parsed, trace, feed)
    decreases |pattern| - i
  {
    if i < |pattern| {
      match ReadChar(h, cur, trace, feed)
      case Halt(_) =>
      case Got(c, h1, cur1, trace1, feed1) =>
        match TestChar(pattern[i], c)
        case Fail(m) =>
          AbortedBuildersAgree(TAG, m, Some(options), prev, Some(Str(parsed)), Some(Tests(pattern)), None);
        case Pass =>
          TagLoopRevisionsAgree(apply, pattern, options, prev, i + 1, h1, cur1, parsed + [c], trace1, feed1);
    }
  }

  lemma TagRevisionsAgree(apply: (MapperId, Value) -> Option<Value>, pattern: seq<Test>,
                          options: Options, h: Heap, src: nat, prev: Option<Outcome>, feed: seq<string>)
    requires Valid(h) && Has(h, src)
    ensures Leaf.Tag(HelperBased, apply, pattern, options, h, src, prev, feed)
         == Leaf.Tag(ClassBased, apply, pattern, options, h, src, prev, feed)
  {
    TagLoopRevisionsAgree(apply, pattern, options, prev, 0, h, src, "", [], feed);
  }

  /** When the characters ahead of the stream already spell a match,
      `tag` consumes exactly those `|pattern|` characters, asks for no
      input, returns them with the stream itself as continuation and
      yields only its token (tag.ts:26-56, tag/index.ts:27-57). */
  lemma {:induction false} TagLoopConsumes(rev: Revision, apply: (MapperId, Value) -> Option<Value>,
                                           pattern: seq<Test>, options: Options, prev: Option<Outcome>,
                                           i: nat, h: Heap, cur: nat, s: string, rest: string,
                                           trace: seq<Signal>, feed: seq<string>)
    requires Valid(h) && Has(h, cur) && i <= |pattern| && |s| == |pattern| && Matches(pattern, s)
    requires h.nodes[Target(h, cur)] == Base(None, s[i..] + rest)
    ensures var r := TagLoop(rev, apply, pattern, options, prev, i, h, cur, s[..i], trace, feed);
      r.end == Returned(Successful(TAG, Str(s), cur))
      && r.trace == trace + TokenList(apply, options, Str(s)) && r.feed == feed
      && r.heap.nodes == h.nodes[Target(h, cur) := Base(None, rest)]
    decreases |pattern| - i
  {
    var t := Target(h, cur);
    if i == |pattern| {
      assert s[..i] == s && s[i..] == [];
      assert [] + rest == rest;
      assert h.nodes[t := Base(None, rest)] == h.nodes;
    } else {
      assert s[i..] + rest == [s[i]] + (s[i + 1..] + rest);
      NextAtTarget(h, cur, s[i], s[i + 1..] + rest);
      var h1 := Next(h, cur).1;
      TargetStable(h, h1, cur, Base(None, s[i + 1..] + rest));
      assert ReadChar(h, cur, trace, feed) == Got(s[i], h1, cur, trace, feed);
      assert TestChar(pattern[i], s[i]).Pass?;
      assert s[..i] + [s[i]] == s[..i + 1];
      TagLoopConsumes(rev, apply, pattern, options, prev, i + 1, h1, cur, s, rest, trace, feed);
      assert h1.nodes[t := Base(None, rest)] == h.nodes[t := Base(None, rest)];
    }
  }

  lemma TagConsumes(rev: Revision, apply: (MapperId, Value) -> Option<Value>, pattern: seq<Test>,
                    options: Options, h: Heap, src: nat, prev: Option<Outcome>, feed: seq<string>,
                    s: string, rest: string)
    requires Valid(h) && Has(h, src) && |s| == |pattern| && Matches(pattern, s)
    requires h.nodes[Target(h, src)] == Base(None, s + rest)
    ensures var r := Leaf.Tag(rev, apply, pattern, options, h, src, prev, feed);
      r.end == Returned(Successful(TAG, Str(s), src))
      && r.trace == TokenList(apply, options, Str(s)) && r.feed == feed
      && r.heap.nodes == h.nodes[Target(h, src) := Base(None, rest)]
  {
    assert s[0..] == s && s[..0] == "";
    TagLoopConsumes(rev, apply, pattern, options, prev, 0, h, src, s, rest, [], feed);
    assert [] + TokenList(apply, options, Str(s)) == TokenList(apply, options, Str(s));
  }

  /** When the input holds a prefix `s` of the pattern's length or less
      whose last character is the first one rejected, `tag` reads exactly
      `s`, asks for no input and aborts with the comparator message of that
      character and the characters before it as `prevValue`
      (tag.ts:26-49, tag/index.ts:27-50). */
  lemma {:induction false} TagLoopAbortConsumes(rev: Revision, apply: (MapperId, Value) -> Option<Value>,
                                                pattern: seq<Test>, options: Options, prev: Option<Outcome>,
                                                i: nat, h: Heap, cur: nat, s: string, rest: string,
                                                trace: seq<Signal>, feed: seq<string>)
    requires Valid(h) && Has(h, cur) && i < |s| <= |pattern|
    requires Matches(pattern, s[..|s| - 1]) && !Accepts(pattern[|s| - 1], s[|s| - 1])
    requires h.nodes[Target(h, cur)] == Base(None, s[i..] + rest)
    ensures var r := TagLoop(rev, apply, pattern, options, prev, i, h, cur, s[..i], trace, feed);
      var j := |s| - 1;
      r.end == Returned(Abort(rev, TAG, ComparatorMessage(pattern[j], s[j]), Some(options), prev,
                              Some(Str(s[..j])), Some(Tests(pattern)), None))
      && r.trace == trace && r.feed == feed && r.heap == After(h, cur, |s| - i)
      && r.heap.nodes == h.nodes[Target(h, cur) := Base(None, rest)]
    decreases |s| - i
  {
    var t := Target(h, cur);
    var j := |s| - 1;
    if i == j {
      TagAbortLastChar(rev, apply, pattern, options, prev, h, cur, s, rest, trace, feed);
    } else {
      assert Accepts(pattern[i], s[..j][i]);
      TagLoopPass(rev, apply, pattern, options, prev, i, h, cur, s, rest, trace, feed, |s| - (i + 1));
      var h1 := Next(h, cur).1;
      TagLoopAbortConsumes(rev, apply, pattern, options, prev, i + 1, h1, cur, s, rest, trace, feed);
      assert h1.nodes[t := Base(None, rest)] == h.nodes[t := Base(None, rest)];
    }
  }

  /** Character `i` of `s` passes its test: `tag` reads it and goes on. */
  lemma TagLoopPass(rev: Revision, apply: (MapperId, Value) -> Option<Value>,
                    pattern: seq<Test>, options: Options, prev: Option<Outcome>,
                    i: nat, h: Heap, cur: nat, s: string, rest: string, trace: seq<Signal>, feed: seq<string>, n: nat)
    requires Valid(h) && Has(h, cur) && i < |s| && i < |pattern| && Accepts(pattern[i], s[i])
    requires h.nodes[Target(h, cur)] == Base(None, s[i..] + rest)
    ensures var h1 := Next(h, cur).1;
      Valid(h1) && Has(h1, cur) && Target(h1, cur) == Target(h, cur)
      && h1.nodes == h.nodes[Target(h, cur) := Base(None, s[i + 1..] + rest)]
      && h1.nodes[Target(h1, cur)] == Base(None, s[i + 1..] + rest)
      && i + 1 <= |pattern|
      && TagLoop(rev, apply, pattern, options, prev, i, h, cur, s[..i], trace, feed)
         == TagLoop(rev, apply, pattern, options, prev, i + 1, h1, cur, s[..i + 1], trace, feed)
      && After(h, cur, n + 1) == After(h1, cur, n)
  {
    TagReadsNext(h, cur, s, i, rest, trace, feed);
    TagLoopStep(rev, apply, pattern, options, prev, i, h, cur, s[..i], trace, feed);
    assert TestChar(pattern[i], s[i]).Pass?;
    assert s[..i] + [s[i]] == s[..i + 1];
  }

  /** The last character read is the one the pattern rejects. */
  lemma TagAbortLastChar(rev: Revision, apply: (MapperId, Value) -> Option<Value>,
                         pattern: seq<Test>, options: Options, prev: Option<Outcome>,
                         h: Heap, cur: nat, s: string, rest: string, trace: seq<Signal>, feed: seq<string>)
    requires Valid(h) && Has(h, cur) && 0 < |s| <= |pattern| && !Accepts(pattern[|s| - 1], s[|s| - 1])
    requires h.nodes[Target(h, cur)] == Base(None, s[|s| - 1..] + rest)
    ensures var j := |s| - 1;
      var r := TagLoop(rev, apply, pattern, options, prev, j, h, cur, s[..j], trace, feed);
      r.end == Returned(Abort(rev, TAG, ComparatorMessage(pattern[j], s[j]), Some(options), prev,
                              Some(Str(s[..j])), Some(Tests(pattern)), None))
      && r.trace == trace && r.feed == feed && r.heap == After(h, cur, 1)
      && r.heap.nodes == h.nodes[Target(h, cur) := Base(None, rest)]
  {
    var j := |s| - 1;
    TagReadsNext(h, cur, s, j, rest, trace, feed);
    TagLoopStep(rev, apply, pattern, options, prev, j, h, cur, s[..j], trace, feed);
    var h1 := Next(h, cur).1;
    assert TestChar(pattern[j], s[j]).Fail?;
    assert s[j + 1..] + rest == rest;
    assert After(h, cur, 1) == After(h1, cur, 0);
  }

  /** Reading character `i` of `s` off a stream positioned at it. */
  lemma TagReadsNext(h: Heap, cur: nat, s: string, i: nat, rest: string, trace: seq<Signal>, feed: seq<string>)
    requires Valid(h) && Has(h, cur) && i < |s|
    requires h.nodes[Target(h, cur)] == Base(None, s[i..] + rest)
    ensures var h1 := Next(h, cur).1;
      ReadChar(h, cur, trace, feed) == Got(s[i], h1, cur, trace, feed)
      && Valid(h1) && Has(h1, cur) && Target(h1, cur) == Target(h, cur)
      && h1.nodes == h.nodes[Target(h, cur) := Base(None, s[i + 1..] + rest)]
      && h1.nodes[Target(h1, cur)] == Base(None, s[i + 1..] + rest)
  {
    assert s[i..] + rest == [s[i]] + (s[i + 1..] + rest);
    NextAtTarget(h, cur, s[i], s[i + 1..] + rest);
    var h1 := Next(h, cur).1;
    TargetStable(h, h1, cur, Base(None, s[i + 1..] + rest));
  }

  // --------------------------------------------------------------- take

  /** One turn of `take`'s loop below `max`: pull a character, then test it. */
  lemma TakeLoopStep(apply: (MapperId, Value) -> Option<Value>, test: Test, options: Options,
                     prev: Option<Outcome>, fuel: nat, h: Heap, cur: nat, parsed: string,
                     trace: seq<Signal>, feed: seq<string>)
    requires Valid(h) && Has(h, cur) && !AtMax(options, |parsed|)
    ensures var r := TakeLoop(apply, test, options, prev, fuel, h, cur, parsed, trace, feed);
      var pl := Pull(h, cur, |parsed| >= MinOf(options), trace, feed);
      (pl.Dry? ==> |parsed| >= MinOf(options) && r == TakeFinish(apply, options, pl.heap, cur, None, parsed, trace, feed))
      && (pl.Fetched? && pl.rd.Halt? ==> r == pl.rd.run && !r.end.Returned? && QueriesAfter(trace, r.trace))
      && (pl.Fetched? && pl.rd.Got? ==>
            QueriesAfter(trace, pl.rd.trace)
            && r == TakeTest(apply, test, options, prev, fuel, pl.rd.heap, pl.rd.cur, pl.rd.c, parsed, pl.rd.trace, pl.rd.feed))
  {
    var (c, h1) := Next(h, cur);
    if c.Char? {
      assert trace[..|trace|] == trace && trace[|trace|..] == [];
    } else {
      var rd := Ask(h1, trace, feed);
      var t := trace + [DataQuery()];
      assert t[..|trace|] == trace && t[|trace|..] == [DataQuery()];
    }
  }

  /** The tokens `take` yields after taking `parsed`: its token, and only
      when something was taken (take/index.ts:67-70). */
  function TakeTokens(apply: (MapperId, Value) -> Option<Value>, options: Options, parsed: string): (tl: seq<Signal>)
    ensures tl != [] <==> TokenSet(options) && |parsed| > 0
    ensures tl != [] ==> tl == TokenList(apply, options, Str(parsed))
  {
    if |parsed| > 0 then TokenList(apply, options, Str(parsed)) else []
  }

  /** The end of `take`: it returns what it took with the source as
      continuation, or a stream that yields the pushed-back character before
      the source (take/index.ts:65-77). */
  lemma TakeFinishResult(apply: (MapperId, Value) -> Option<Value>, options: Options, h: Heap, cur: nat,
                         pushback: Option<char>, parsed: string, trace: seq<Signal>, feed: seq<string>)
    requires Valid(h) && Has(h, cur)
    ensures var r := TakeFinish(apply, options, h, cur, pushback, parsed, trace, feed);
      r.end.outcome.kind == TAKE && r.end.outcome.data == Str(parsed)
      && r.trace == trace + TakeTokens(apply, options, parsed)
      && (pushback.None? ==> r.end.outcome.iter == cur && r.heap == h)
      && (pushback.Some? ==> Next(r.heap, r.end.outcome.iter).0 == Char(pushback.value))
  {
    if pushback.Some? {
      var its := [Text([pushback.value]), Ref(cur)];
      var (h1, parts) := PartRefs(h, its);
      var (hb, b) := IntoIter(h, its[0]);
      assert its[1..] == [Ref(cur)];
      assert parts[0] == b && hb.nodes[b] == Base(None, [pushback.value]);
      var (h2, it) := IterSeq(h, its);
      assert h2.nodes[it] == Chain(parts, 0);
      assert [Ref(cur)][1..] == [];
      assert IterableOk(hb, Ref(cur));
      assert IntoIter(hb, Ref(cur)) == (hb, cur);
      assert PartRefs(hb, []) == (hb, []) && [cur] + [] == [cur];
      assert PartRefs(hb, [Ref(cur)]) == (hb, [cur]);
      assert h1 == hb;
    }
  }

  /** A successful result of `take` that started from `parsed`: kind
      `TAKE` and a run of accepted characters extending `parsed`, no longer
      than `max`, and at least `min` long unless `max` stopped it first. */
  ghost predicate TakeSuccessShape(test: Test, options: Options, parsed: string, o: Outcome)
  {
    o.Successful? && o.kind == TAKE && o.data.Str? && parsed <= o.data.s && AllAccepted(test, o.data.s)
    && (options.max.Some? ==> |o.data.s| <= options.max.value)
    && (|o.data.s| >= MinOf(options) || AtMax(options, |o.data.s|))
  }

  /** The aborted result of `take` that accepted exactly `m`: kind
      `TAKE`, the options, the previous result, the test (unless it is the
      empty string); `m` is accepted and shorter than `min`, the message is
      the comparator message for a character the test rejects, and
      `prevValue` is `m`, absent when `m` is empty. */
  ghost predicate TakeAbortAt(test: Test, options: Options, prev: Option<Outcome>, m: string, o: Outcome)
  {
    o.Aborted? && o.kind == TAKE && o.options == Some(options) && o.prevParser == prev
    && (o.pattern.Some? <==> test != Lit("")) && (o.pattern.Some? ==> o.pattern == Some(One(test)))
    && |m| < MinOf(options) && AllAccepted(test, m)
    && (exists c :: !Accepts(test, c) && o.message == ComparatorMessage(test, c))
    && o.prevValue == (if m == [] then None else Some(Str(m)))
  }

  /** The aborted result of `take` after taking `parsed`: it accepted
      characters extending `parsed`. */
  ghost predicate TakeAbortShape(test: Test, options: Options, prev: Option<Outcome>, parsed: string, o: Outcome)
  {
    exists m :: parsed <= m && TakeAbortAt(test, options, prev, m, o)
  }

  lemma AcceptedExtend(test: Test, parsed: string, c: char)
    requires AllAccepted(test, parsed) && Accepts(test, c)
    ensures AllAccepted(test, parsed + [c])
  {
    var s := parsed + [c];
    forall k | 0 <= k < |s| ensures Accepts(test, s[k]) {
      if k < |parsed| { assert s[k] == parsed[k]; }
    }
  }

  /** Every success of `take`'s loop has the shape above
      (take/index.ts:26-62). */
  lemma {:induction false} TakeLoopSuccess(apply: (MapperId, Value) -> Option<Value>, test: Test, options: Options,
                                           prev: Option<Outcome>, fuel: nat, h: Heap, cur: nat, parsed: string,
                                           trace: seq<Signal>, feed: seq<string>)
    requires Valid(h) && Has(h, cur) && AllAccepted(test, parsed)
    requires options.max.Some? ==> |parsed| <= options.max.value
    ensures var r := TakeLoop(apply, test, options, prev, fuel, h, cur, parsed, trace, feed);
      Succeeded(r) ==> TakeSuccessShape(test, options, parsed, r.end.outcome)
    decreases fuel, 1
  {
    if AtMax(options, |parsed|) {
      TakeFinishResult(apply, options, h, cur, None, parsed, trace, feed);
    } else {
      TakeLoopStep(apply, test, options, prev, fuel, h, cur, parsed, trace, feed);
      var pl := Pull(h, cur, |parsed| >= MinOf(options), trace, feed);
      if pl.Dry? {
        TakeFinishResult(apply, options, pl.heap, cur, None, parsed, trace, feed);
      } else if pl.rd.Got? {
        TakeTestSuccess(apply, test, options, prev, fuel, pl.rd.heap, pl.rd.cur, pl.rd.c, parsed, pl.rd.trace, pl.rd.feed);
      }
    }
  }

  lemma {:induction false} TakeTestSuccess(apply: (MapperId, Value) -> Option<Value>, test: Test, options: Options,
                                           prev: Option<Outcome>, fuel: nat, h: Heap, cur: nat, ch: char, parsed: string,
                                           trace: seq<Signal>, feed: seq<string>)
    requires Valid(h) && Has(h, cur) && AllAccepted(test, parsed) && !AtMax(options, |parsed|)
    ensures var r := TakeTest(apply, test, options, prev, fuel, h, cur, ch, parsed, trace, feed);
      Succeeded(r) ==> TakeSuccessShape(test, options, parsed, r.end.outcome)
    decreases fuel, 0
  {
    if TestChar(test, ch).Pass? {
      if fuel > 0 {
        AcceptedExtend(test, parsed, ch);
        TakeLoopSuccess(apply, test, options, prev, fuel - 1, h, cur, parsed + [ch], trace, feed);
      }
    } else if |parsed| >= MinOf(options) {
      var pushback := Some(ch);
      TakeFinishResult(apply, options, h, cur, pushback, parsed, trace, feed);
    }
  }

  /** Every abort of `take`'s loop has the shape above
      (take/index.ts:44-58). */
  lemma {:induction false} TakeLoopAbort(apply: (MapperId, Value) -> Option<Value>, test: Test, options: Options,
                                         prev: Option<Outcome>, fuel: nat, h: Heap, cur: nat, parsed: string,
                                         trace: seq<Signal>, feed: seq<string>)
    requires Valid(h) && Has(h, cur) && AllAccepted(test, parsed)
    ensures var r := TakeLoop(apply, test, options, prev, fuel, h, cur, parsed, trace, feed);
      AbortedRun(r) ==> TakeAbortShape(test, options, prev, parsed, r.end.outcome)
    decreases fuel, 1
  {
    if !AtMax(options, |parsed|) {
      TakeLoopStep(apply, test, options, prev, fuel, h, cur, parsed, trace, feed);
      var pl := Pull(h, cur, |parsed| >= MinOf(options), trace, feed);
      if pl.Fetched? && pl.rd.Got? {
        TakeTestAbort(apply, test, options, prev, fuel, pl.rd.heap, pl.rd.cur, pl.rd.c, parsed, pl.rd.trace, pl.rd.feed);
      }
    }
  }

  lemma {:induction false} TakeTestAbort(apply: (MapperId, Value) -> Option<Value>, test: Test, options: Options,
                                         prev: Option<Outcome>, fuel: nat, h: Heap, cur: nat, ch: char, parsed: string,
                                         trace: seq<Signal>, feed: seq<string>)
    requires Valid(h) && Has(h, cur) && AllAccepted(test, parsed)
    ensures var r := TakeTest(apply, test, options, prev, fuel, h, cur, ch, parsed, trace, feed);
      AbortedRun(r) ==> TakeAbortShape(test, options, prev, parsed, r.end.outcome)
    decreases fuel, 0
  {
    if TestChar(test, ch).Pass? && fuel > 0 {
      AcceptedExtend(test, parsed, ch);
      TakeLoopAbort(apply, test, options, prev, fuel - 1, h, cur, parsed + [ch], trace, feed);
      var r := TakeLoop(apply, test, options, prev, fuel - 1, h, cur, parsed + [ch], trace, feed);
      if AbortedRun(r) {
        var m :| parsed + [ch] <= m && TakeAbortAt(test, options, prev, m, r.end.outcome);
        assert parsed <= m;
      }
    } else if TestChar(test, ch).Fail? && |parsed| < MinOf(options) {
      var o := TakeTest(apply, test, options, prev, fuel, h, cur, ch, parsed, trace, feed).end.outcome;
      assert !Accepts(test, ch) && o.message == ComparatorMessage(test, ch);
      assert TakeAbortAt(test, options, prev, parsed, o);
    }
  }

  /** `take` yields input requests only, followed on success by its token
      when something was taken (take/index.ts:38-41, 67-70). */
  lemma {:induction false} TakeLoopTrace(apply: (MapperId, Value) -> Option<Value>, test: Test, options: Options,
                                         prev: Option<Outcome>, fuel: nat, h: Heap, cur: nat, parsed: string,
                                         trace: seq<Signal>, feed: seq<string>)
    requires Valid(h) && Has(h, cur)
    ensures var r := TakeLoop(apply, test, options, prev, fuel, h, cur, parsed, trace, feed);
      (Succeeded(r) ==> r.end.outcome.data.Str?
                        && EndsWith(trace, r.trace, TakeTokens(apply, options, r.end.outcome.data.s)))
      && (!Succeeded(r) ==> QueriesAfter(trace, r.trace))
    decreases fuel, 1
  {
    if AtMax(options, |parsed|) {
      TakeFinishResult(apply, options, h, cur, None, parsed, trace, feed);
      EndsWithAppend(trace, TakeTokens(apply, options, parsed));
    } else {
      TakeLoopStep(apply, test, options, prev, fuel, h, cur, parsed, trace, feed);
      var pl := Pull(h, cur, |parsed| >= MinOf(options), trace, feed);
      if pl.Dry? {
        TakeFinishResult(apply, options, pl.heap, cur, None, parsed, trace, feed);
        EndsWithAppend(trace, TakeTokens(apply, options, parsed));
      } else if pl.rd.Got? {
        TakeTestTrace(apply, test, options, prev, fuel, pl.rd.heap, pl.rd.cur, pl.rd.c, parsed, pl.rd.trace, pl.rd.feed);
        var r := TakeLoop(apply, test, options, prev, fuel, h, cur, parsed, trace, feed);
        if Succeeded(r) {
          EndsWithCompose(trace, pl.rd.trace, r.trace, TakeTokens(apply, options, r.end.outcome.data.s));
        } else {
          QueriesAfterTrans(trace, pl.rd.trace, r.trace);
        }
      }
    }
  }

  lemma {:induction false} TakeTestTrace(apply: (MapperId, Value) -> Option<Value>, test: Test, options: Options,
                                         prev: Option<Outcome>, fuel: nat, h: Heap, cur: nat, ch: char, parsed: string,
                                         trace: seq<Signal>, feed: seq<string>)
    requires Valid(h) && Has(h, cur)
    ensures var r := TakeTest(apply, test, options, prev, fuel, h, cur, ch, parsed, trace, feed);
      (Succeeded(r) ==> r.end.outcome.data.Str?
                        && EndsWith(trace, r.trace, TakeTokens(apply, options, r.end.outcome.data.s)))
      && (!Succeeded(r) ==> QueriesAfter(trace, r.trace))
    decreases fuel, 0
  {
    assert trace[..|trace|] == trace && trace[|trace|..] == [];
    if TestChar(test, ch).Pass? {
      if fuel > 0 {
        TakeLoopTrace(apply, test, options, prev, fuel - 1, h, cur, parsed + [ch], trace, feed);
      }
    } else if |parsed| >= MinOf(options) {
      var pushback := Some(ch);
      TakeFinishResult(apply, options, h, cur, pushback, parsed, trace, feed);
      EndsWithAppend(trace, TakeTokens(apply, options, parsed));
    }
  }

  /** On success `take` returns a run of accepted characters, at most
      `max` and at least `min` unless `max` is below `min`, and yields its
      token only when it took something; an abort reports fewer than `min`
      accepted characters and yields no token (take/index.ts:18-77). */
  lemma TakeResult(apply: (MapperId, Value) -> Option<Value>, test: Test, options: Options,
                   h: Heap, src: nat, prev: Option<Outcome>, feed: seq<string>, fuel: nat)
    requires Valid(h) && Has(h, src)
    ensures var r := Leaf.Take(apply, test, options, h, src, prev, feed, fuel);
      (Succeeded(r) ==> TakeSuccessShape(test, options, "", r.end.outcome)
                        && Semantics.Tokens(r.trace) == TakeTokens(apply, options, r.end.outcome.data.s))
      && (AbortedRun(r) ==> TakeAbortShape(test, options, prev, "", r.end.outcome))
      && (!Succeeded(r) ==> Semantics.Tokens(r.trace) == [])
  {
    var r := Leaf.Take(apply, test, options, h, src, prev, feed, fuel);
    TakeLoopSuccess(apply, test, options, prev, fuel, h, src, "", [], feed);
    TakeLoopAbort(apply, test, options, prev, fuel, h, src, "", [], feed);
    TakeLoopTrace(apply, test, options, prev, fuel, h, src, "", [], feed);
    if Succeeded(r) {
      var tl := TakeTokens(apply, options, r.end.outcome.data.s);
      TokensOfEndsWith(r.trace, tl);
    } else {
      assert r.trace[0..] == r.trace;
      Semantics.TokensOfRequests(r.trace);
    }
  }

  lemma TokensOfEndsWith(t: seq<Signal>, tl: seq<Signal>)
    requires EndsWith([], t, tl) && |tl| <= 1 && forall k :: 0 <= k < |tl| ==> tl[k].Token?
    ensures Semantics.Tokens(t) == tl
  {
    var mid := t[..|t| - |tl|];
    assert t == mid + tl;
    assert mid[0..] == mid;
    Semantics.TokensOfRequests(mid);
    TokensAppend(mid, tl);
    TokensOfTokens(tl);
  }

  /** With a character pending at the target, `take` pulls it without
      asking for input. */
  lemma PullPending(h: Heap, cur: nat, stop: bool, trace: seq<Signal>, feed: seq<string>, c: char, rest: string)
    requires Valid(h) && Has(h, cur) && h.nodes[Target(h, cur)] == Base(None, [c] + rest)
    ensures var h1 := Next(h, cur).1;
      Pull(h, cur, stop, trace, feed) == Fetched(Got(c, h1, cur, trace, feed))
      && h1.nodes == h.nodes[Target(h, cur) := Base(None, rest)]
      && Target(h1, cur) == Target(h, cur)
  {
    NextAtTarget(h, cur, c, rest);
    TargetStable(h, Next(h, cur).1, cur, Base(None, rest));
  }

  /** The last turn of maximal munch: the rejected `x` is pushed back. */
  lemma TakeStopsAt(apply: (MapperId, Value) -> Option<Value>, test: Test, options: Options,
                    prev: Option<Outcome>, fuel: nat, h: Heap, cur: nat,
                    s: string, x: char, rest: string, trace: seq<Signal>, feed: seq<string>)
    requires Valid(h) && Has(h, cur) && !Accepts(test, x)
    requires MinOf(options) <= |s| && (options.max.Some? ==> |s| < options.max.value)
    requires h.nodes[Target(h, cur)] == Base(None, [x] + rest)
    ensures var r := TakeLoop(apply, test, options, prev, fuel, h, cur, s, trace, feed);
      r.end.Returned? && r.end.outcome.Successful?
      && r.end.outcome.kind == TAKE && r.end.outcome.data == Str(s)
      && r.trace == trace + TakeTokens(apply, options, s) && r.feed == feed
      && Next(r.heap, r.end.outcome.iter).0 == Char(x)
  {
    TakeLoopStep(apply, test, options, prev, fuel, h, cur, s, trace, feed);
    PullPending(h, cur, true, trace, feed, x, rest);
    TakeFinishResult(apply, options, Next(h, cur).1, cur, Some(x), s, trace, feed);
  }

  /** Maximal munch: with accepted characters `s` ahead of a rejected `x`,
      enough of them for `min` and fewer than `max`, `take` returns exactly
      `s`, asks for no input, and its continuation yields `x` first
      (take/index.ts:26-77). */
  lemma {:induction false} TakeLoopConsumes(apply: (MapperId, Value) -> Option<Value>, test: Test, options: Options,
                                            prev: Option<Outcome>, fuel: nat, h: Heap, cur: nat, i: nat,
                                            s: string, x: char, rest: string, trace: seq<Signal>, feed: seq<string>)
    requires Valid(h) && Has(h, cur) && i <= |s| && AllAccepted(test, s) && !Accepts(test, x)
    requires MinOf(options) <= |s| && (options.max.Some? ==> |s| < options.max.value) && fuel >= |s| - i
    requires h.nodes[Target(h, cur)] == Base(None, s[i..] + [x] + rest)
    ensures var r := TakeLoop(apply, test, options, prev, fuel, h, cur, s[..i], trace, feed);
      r.end.Returned? && r.end.outcome.Successful?
      && r.end.outcome.kind == TAKE && r.end.outcome.data == Str(s)
      && r.trace == trace + TakeTokens(apply, options, s) && r.feed == feed
      && Next(r.heap, r.end.outcome.iter).0 == Char(x)
    decreases |s| - i
  {
    if i == |s| {
      assert s[i..] + [x] + rest == [x] + rest && s[..i] == s;
      TakeStopsAt(apply, test, options, prev, fuel, h, cur, s, x, rest, trace, feed);
    } else {
      assert s[i..] + [x] + rest == [s[i]] + (s[i + 1..] + [x] + rest);
      TakeLoopStep(apply, test, options, prev, fuel, h, cur, s[..i], trace, feed);
      PullPending(h, cur, i >= MinOf(options), trace, feed, s[i], s[i + 1..] + [x] + rest);
      var h1 := Next(h, cur).1;
      assert Accepts(test, s[i]);
      assert s[..i] + [s[i]] == s[..i + 1];
      TakeLoopConsumes(apply, test, options, prev, fuel - 1, h1, cur, i + 1, s, x, rest, trace, feed);
    }
  }

  lemma TakeConsumes(apply: (MapperId, Value) -> Option<Value>, test: Test, options: Options,
                     h: Heap, src: nat, prev: Option<Outcome>, feed: seq<string>, fuel: nat,
                     s: string, x: char, rest: string)
    requires Valid(h) && Has(h, src) && AllAccepted(test, s) && !Accepts(test, x)
    requires MinOf(options) <= |s| && (options.max.Some? ==> |s| < options.max.value) && fuel >= |s|
    requires h.nodes[Target(h, src)] == Base(None, s + [x] + rest)
    ensures var r := Leaf.Take(apply, test, options, h, src, prev, feed, fuel);
      r.end.Returned? && r.end.outcome.Successful?
      && r.end.outcome.kind == TAKE && r.end.outcome.data == Str(s)
      && r.trace == TakeTokens(apply, options, s) && r.feed == feed
      && Next(r.heap, r.end.outcome.iter).0 == Char(x)
  {
    assert s[0..] == s && s[..0] == "";
    TakeLoopConsumes(apply, test, options, prev, fuel, h, src, 0, s, x, rest, [], feed);
    assert [] + TakeTokens(apply, options, s) == TakeTokens(apply, options, s);
  }
}
