/** `tag` and `take` as the loops they are in the source, running on the
    mutable arena. Each method is proved to produce exactly the run that
    the function of module Leaf describes. */
module LeafRun {
  import opened Protocol
  import opened Stream
  import opened Parsers
  import opened Arenas
  import Leaf

  /** After `next()` reported done: the input request, the new source over
      the driver's batch, and its first character. */
  method Ask(a: Arena, trace0: seq<Signal>, feed0: seq<string>)
    returns (got: bool, c: char, cur: nat, trace: seq<Signal>, feed: seq<string>, end: End)
    requires a.Ok()
    modifies a
    ensures a.Ok()
    ensures var rd := Leaf.Ask(old(a.State()), trace0, feed0);
      (got <==> rd.Got?)
      && (got ==> rd == Leaf.Got(c, a.State(), cur, trace, feed))
      && (!got ==> rd.run == Run(a.State(), trace, end, feed))
  {
    trace := trace0 + [DataQuery()];
    feed := feed0;
    c := ' ';
    cur := 0;
    got := false;
    if feed == [] {
      end := Suspended;
      return;
    }
    cur := a.IntoIter(Text(feed[0]));
    feed := feed[1..];
    var chunk := a.Next(cur);
    if chunk.Done? {
      end := Broken(EmptyBatch);
      return;
    }
    got := true;
    c := chunk.c;
    end := Suspended;
  }

  /** `let chunk = sourceIter.next()`, asking for input when it is done. */
  method ReadChar(a: Arena, cur0: nat, trace0: seq<Signal>, feed0: seq<string>)
    returns (got: bool, c: char, cur: nat, trace: seq<Signal>, feed: seq<string>, end: End)
    requires a.Ok() && Has(a.State(), cur0)
    modifies a
    ensures a.Ok()
    ensures var rd := Leaf.ReadChar(old(a.State()), cur0, trace0, feed0);
      (got <==> rd.Got?)
      && (got ==> rd == Leaf.Got(c, a.State(), cur, trace, feed))
      && (!got ==> rd.run == Run(a.State(), trace, end, feed))
  {
    var chunk := a.Next(cur0);
    if chunk.Char? {
      got, c, cur, trace, feed, end := true, chunk.c, cur0, trace0, feed0, Suspended;
    } else {
      got, c, cur, trace, feed, end := Ask(a, trace0, feed0);
    }
  }

  /** One `next()` of `take`'s loop (src/parsers/take/index.ts:31-42). */
  method Pull(a: Arena, cur0: nat, stop: bool, trace0: seq<Signal>, feed0: seq<string>)
    returns (dry: bool, got: bool, c: char, cur: nat, trace: seq<Signal>, feed: seq<string>, end: End)
    requires a.Ok() && Has(a.State(), cur0)
    modifies a
    ensures a.Ok()
    ensures var p := Leaf.Pull(old(a.State()), cur0, stop, trace0, feed0);
      (dry <==> p.Dry?)
      && (dry ==> p.heap == a.State() && cur == cur0 && trace == trace0 && feed == feed0)
      && (!dry ==> (got <==> p.rd.Got?))
      && (!dry && got ==> p.rd == Leaf.Got(c, a.State(), cur, trace, feed))
      && (!dry && !got ==> p.rd.run == Run(a.State(), trace, end, feed))
  {
    var chunk := a.Next(cur0);
    dry, got, c, cur, trace, feed, end := false, true, ' ', cur0, trace0, feed0, Suspended;
    if chunk.Done? && stop {
      dry := true;
    } else if chunk.Char? {
      c := chunk.c;
    } else {
      got, c, cur, trace, feed, end := Ask(a, trace0, feed0);
    }
  }

  /** `testChar` of pattern symbol `i` on the character `c` just read
      (src/parsers/tag/index.ts:37-50): go on when it passes, or abort. */
  method TagStep(rev: Revision, pattern: seq<Test>, options: Options, prev: Option<Outcome>,
                 i: nat, c: char, parsed: string) returns (pass: bool, end: End)
    requires i < |pattern|
    ensures pass <==> TestChar(pattern[i], c).Pass?
    ensures forall h: Heap, cur: nat, apply, trace, feed :: Valid(h) && Has(h, cur) && !pass ==>
      Leaf.TagTest(rev, apply, pattern, options, prev, i, h, cur, c, parsed, trace, feed) == Run(h, trace, end, feed)
  {
    match TestChar(pattern[i], c)
    case Fail(m) =>
      pass := false;
      end := Returned(Abort(rev, TAG, m, Some(options), prev, Some(Str(parsed)), Some(Tests(pattern)), None));
    case Pass =>
      pass, end := true, Suspended;
  }

  /** The body of `tag`'s generator (src/parsers/tag/tag.ts:21-58,
      src/parsers/tag/index.ts:22-59). */
  method RunTag(a: Arena, rev: Revision, apply: (MapperId, Value) -> Option<Value>,
                pattern: seq<Test>, options: Options, src: nat, prev: Option<Outcome>, feed0: seq<string>)
    returns (trace: seq<Signal>, end: End, feed: seq<string>)
    requires a.Ok() && Has(a.State(), src)
    modifies a
    ensures Run(a.State(), trace, end, feed) == Leaf.Tag(rev, apply, pattern, options, old(a.State()), src, prev, feed0)
  {
    ghost var goal := Leaf.Tag(rev, apply, pattern, options, a.State(), src, prev, feed0);
    var cur := src;
    var parsed := "";
    trace := [];
    feed := feed0;
    var i := 0;
    while i < |pattern|
      invariant a.Ok() && Has(a.State(), cur) && i <= |pattern| && |parsed| == i
      invariant Leaf.TagLoop(rev, apply, pattern, options, prev, i, a.State(), cur, parsed, trace, feed) == goal
      decreases |pattern| - i
    {
      var got, c;
      got, c, cur, trace, feed, end := ReadChar(a, cur, trace, feed);
      if !got {
        return;
      }
      assert goal == Leaf.TagTest(rev, apply, pattern, options, prev, i, a.State(), cur, c, parsed, trace, feed);
      var pass;
      pass, end := TagStep(rev, pattern, options, prev, i, c, parsed);
      if !pass {
        return;
      }
      parsed := parsed + [c];
      i := i + 1;
    }
    trace, end := FinishTag(apply, options, cur, parsed, trace);
  }

  /** After `tag`'s loop (src/parsers/tag/index.ts:53-58): the token, and
      the successful result on the stream as it stands. */
  method FinishTag(apply: (MapperId, Value) -> Option<Value>, options: Options, cur: nat, parsed: string,
                   trace0: seq<Signal>) returns (trace: seq<Signal>, end: End)
    ensures forall rev, pattern: seq<Test>, prev, h: Heap, feed :: Valid(h) && Has(h, cur) && |pattern| == |parsed| ==>
      Leaf.TagLoop(rev, apply, pattern, options, prev, |parsed|, h, cur, parsed, trace0, feed) == Run(h, trace, end, feed)
  {
    trace := trace0;
    var token := CreateParserToken(apply, options, Str(parsed));
    if token.Some? {
      trace := trace + [token.value];
    }
    end := Returned(SuccessfulResult(TAG, Str(parsed), cur));
  }

  /** After `take`'s loop (src/parsers/take/index.ts:67-76): the token when
      something was taken, and the continuation with the pushed-back
      character in front. */
  method FinishTake(a: Arena, apply: (MapperId, Value) -> Option<Value>, options: Options, cur: nat,
                    pushback: Option<char>, parsed: string, count: nat, trace0: seq<Signal>)
    returns (trace: seq<Signal>, end: End)
    requires a.Ok() && Has(a.State(), cur) && count == |parsed|
    modifies a
    ensures a.Ok()
    ensures forall feed :: Run(a.State(), trace, end, feed)
                           == Leaf.TakeFinish(apply, options, old(a.State()), cur, pushback, parsed, trace0, feed)
  {
    trace := trace0;
    var token := CreateParserToken(apply, options, Str(parsed));
    if token.Some? && count > 0 {
      trace := trace + [token.value];
    }
    var it := cur;
    if pushback.Some? {
      it := a.IterSeq([Text([pushback.value]), Ref(cur)]);
    }
    end := Returned(SuccessfulResult(TAKE, Str(parsed), it));
  }

  /** `testChar` on the character `c` just read, inside `take`'s loop
      (src/parsers/take/index.ts:44-64): accept it and go on (`done` is
      false), or end the run. */
  method TakeStep(a: Arena, apply: (MapperId, Value) -> Option<Value>, test: Test, options: Options,
                  prev: Option<Outcome>, fuel0: nat, cur: nat, c: char, parsed0: string, trace0: seq<Signal>)
    returns (done: bool, trace: seq<Signal>, end: End, parsed: string, fuel: nat)
    requires a.Ok() && Has(a.State(), cur)
    modifies a
    ensures a.Ok()
    ensures done ==> forall feed :: Run(a.State(), trace, end, feed)
                       == Leaf.TakeTest(apply, test, options, prev, fuel0, old(a.State()), cur, c, parsed0, trace0, feed)
    ensures !done ==> a.State() == old(a.State()) && fuel < fuel0 && trace == trace0 && parsed == parsed0 + [c]
    ensures !done ==> forall feed :: Leaf.TakeLoop(apply, test, options, prev, fuel, a.State(), cur, parsed, trace, feed)
                       == Leaf.TakeTest(apply, test, options, prev, fuel0, old(a.State()), cur, c, parsed0, trace0, feed)
  {
    done, trace, end, parsed, fuel := true, trace0, Suspended, parsed0, fuel0;
    match TestChar(test, c)
    case Pass =>
      if fuel0 == 0 {
        end := Broken(OutOfFuel);
        return;
      }
      done := false;
      parsed := parsed0 + [c];
      fuel := fuel0 - 1;
    case Fail(m) =>
      if |parsed0| < MinOf(options) {
        end := Returned(CreateAbortedResult(TAKE, m, Some(options), prev, Some(Str(parsed0)), Some(One(test)), None));
        return;
      }
      trace, end := FinishTake(a, apply, options, cur, Some(c), parsed0, |parsed0|, trace0);
  }

  /** The body of `take`'s generator (src/parsers/take/index.ts:14-77).
      `fuel` bounds the number of accepted characters. */
  method RunTake(a: Arena, apply: (MapperId, Value) -> Option<Value>, test: Test, options: Options,
                 src: nat, prev: Option<Outcome>, feed0: seq<string>, fuel0: nat)
    returns (trace: seq<Signal>, end: End, feed: seq<string>)
    requires a.Ok() && Has(a.State(), src)
    modifies a
    ensures Run(a.State(), trace, end, feed) == Leaf.Take(apply, test, options, old(a.State()), src, prev, feed0, fuel0)
  {
    ghost var goal := Leaf.Take(apply, test, options, a.State(), src, prev, feed0, fuel0);
    var min := MinOf(options);
    var cur := src;
    var parsed := "";
    var count := 0;
    var fuel := fuel0;
    trace := [];
    feed := feed0;
    while true
      invariant a.Ok() && Has(a.State(), cur) && count == |parsed|
      invariant Leaf.TakeLoop(apply, test, options, prev, fuel, a.State(), cur, parsed, trace, feed) == goal
      decreases fuel
    {
      if AtMax(options, count) {
        trace, end := FinishTake(a, apply, options, cur, None, parsed, count, trace);
        return;
      }
      var dry, got, c;
      dry, got, c, cur, trace, feed, end := Pull(a, cur, count >= min, trace, feed);
      if dry {
        trace, end := FinishTake(a, apply, options, cur, None, parsed, count, trace);
        return;
      }
      if !got {
        return;
      }
      var done;
      done, trace, end, parsed, fuel := TakeStep(a, apply, test, options, prev, fuel, cur, c, parsed, trace);
      if done {
        return;
      }
      count := count + 1;
    }
  }
}
