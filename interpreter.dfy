/** The combinators as the loops they are in the source, running on the
    mutable arena: `Exec` runs any parser, `ExecSeq`, `ExecOr` and
    `ExecRepeat` are the generator bodies of `seq`, `or` and `repeat`.
    Each is proved to produce exactly the run module Semantics describes. */
module Interp {
  import opened Protocol
  import opened Stream
  import opened Parsers
  import opened Arenas
  import opened Semantics
  import LeafRun

  /** The buffer of a combinator (src/parsers/or/or.ts:43-49): the shared
      one of a buffered source, or a new one. */
  method BufferFor(a: Arena, src: nat) returns (buffer: nat)
    requires a.Ok() && Has(a.State(), src)
    modifies a
    ensures a.Ok() && (a.State(), buffer) == BufferOf(old(a.State()), src)
  {
    if a.IsBuffered(Ref(src)) {
      buffer := a.GetBuffer(src);
    } else {
      buffer := a.NewBuffer();
    }
  }

  /** The stream and previous result handed to a child by a helper-based
      combinator (src/parsers/or/or.ts:55-59). */
  method WrapFor(a: Arena, cur: nat, buffer: nat, prev: Option<Outcome>) returns (src: nat, cprev: Option<Outcome>)
    requires a.Ok() && Has(a.State(), cur) && buffer < |a.State().buffers|
    modifies a
    ensures a.Ok() && (a.State(), src, cprev) == Wrap(old(a.State()), cur, buffer, prev)
  {
    if a.IsBuffered(Ref(cur)) {
      src, cprev := cur, None;
    } else {
      src := a.IntoBufIter(Ref(cur), buffer);
      cprev := prev;
    }
  }

  /** `buffer.splice(-delta)` and `revert` of the spliced characters
      (src/parsers/or/or.ts:99-103). */
  method RollbackTo(a: Arena, buffer: nat, init: nat, cur: nat)
    requires a.Ok() && Has(a.State(), cur) && buffer < |a.State().buffers|
    modifies a
    ensures a.Ok() && a.State() == Rollback(old(a.State()), buffer, init, cur)
  {
    var delta := |a.buffers[buffer]| - init;
    if delta > 0 {
      var chars := a.Splice(buffer, delta);
      a.Revert(cur, chars);
    }
  }

  /** `SeqView` of a non-empty signal list, one step unfolded. */
  lemma SeqViewStep(t: seq<Signal>, e: End)
    requires t != []
    ensures t[0].Token? ==> SeqView(t, e) == ([t[0]] + SeqView(t[1..], e).0, SeqView(t[1..], e).1)
    ensures t[0].Request? && |t| == 1 ==> SeqView(t, e) == ([t[0]], if e.Returned? then Broken(FinishedGenerator) else e)
    ensures t[0].Request? && |t| > 1 && t[1].Request? ==> SeqView(t, e) == ([t[0]], Broken(UndefinedInput))
    ensures t[0].Request? && |t| > 1 && t[1].Token? ==>
      SeqView(t, e) == ([t[0]] + SeqView(t[2..], e).0, SeqView(t[2..], e).1)
  {
  }

  /** `seq`'s relay loop over one child's signals (src/parsers/seq/seq.ts:45-66);
      `rest` holds the signals the child has still to produce. */
  method Relay(t: seq<Signal>, e: End) returns (relayed: seq<Signal>, end: End)
    ensures (relayed, end) == SeqView(t, e)
  {
    relayed := [];
    var rest := t;
    ghost var view := SeqView(t, e);
    while rest != []
      invariant relayed + SeqView(rest, e).0 == view.0
      invariant SeqView(rest, e).1 == view.1
      decreases |rest|
    {
      SeqViewStep(rest, e);
      var x := rest[0];
      if x.Request? && |rest| == 1 {
        end := if e.Returned? then Broken(FinishedGenerator) else e;
        relayed := relayed + [x];
        return;
      } else if x.Request? && rest[1].Request? {
        end := Broken(UndefinedInput);
        relayed := relayed + [x];
        return;
      }
      var next := if x.Token? then rest[1..] else rest[2..];
      assert relayed + SeqView(rest, e).0 == (relayed + [x]) + SeqView(next, e).0;
      relayed := relayed + [x];
      rest := next;
    }
    assert relayed + [] == relayed;
    end := e;
  }

  /** Sorts a child's signals as `or` and `repeat` do: input requests are
      passed up, tokens held back. */
  method Split(t: seq<Signal>) returns (requests: seq<Signal>, tokens: seq<Signal>)
    ensures requests == Requests(t) && tokens == Tokens(t)
  {
    requests, tokens := [], [];
    var j := 0;
    while j < |t|
      invariant 0 <= j <= |t|
      invariant requests + Requests(t[j..]) == Requests(t)
      invariant tokens + Tokens(t[j..]) == Tokens(t)
      decreases |t| - j
    {
      assert t[j..][0] == t[j] && t[j..][1..] == t[j + 1..];
      if t[j].Request? {
        requests := requests + [t[j]];
      } else {
        tokens := tokens + [t[j]];
      }
      j := j + 1;
    }
    assert t[j..] == [];
  }

  /** Runs parser `p` on stream `src`. */
  method Exec(a: Arena, env: Env, p: Parser, src: nat, prev: Option<Outcome>, feed0: seq<string>, fuel: nat)
    returns (trace: seq<Signal>, end: End, feed: seq<string>)
    requires a.Ok() && Has(a.State(), src)
    modifies a
    ensures a.Ok()
    ensures Parsers.Run(a.State(), trace, end, feed) == Eval(env, p, old(a.State()), src, prev, feed0, fuel)
    decreases fuel, p, 2, 0
  {
    match p
    case Tag(pattern, options) =>
      trace, end, feed := LeafRun.RunTag(a, env.rev, env.apply, pattern, options, src, prev, feed0);
    case Take(test, options) =>
      trace, end, feed := LeafRun.RunTake(a, env.apply, test, options, src, prev, feed0, fuel);
    case Seq(_, _) =>
      trace, end, feed := ExecSeq(a, env, p, src, prev, feed0, fuel);
    case Or(_, _) =>
      trace, end, feed := ExecOr(a, env, p, src, prev, feed0, fuel);
    case Repeat(_, _, _) =>
      trace, end, feed := ExecRepeat(a, env, p, src, prev, feed0, fuel);
  }

  /** The generator body of `seq` (src/parsers/seq/seq.ts:36-91,
      src/parsers/seq/index.ts:34-99). */
  method ExecSeq(a: Arena, env: Env, p: Parser, src: nat, prev0: Option<Outcome>, feed0: seq<string>, fuel: nat)
    returns (trace: seq<Signal>, end: End, feed: seq<string>)
    requires p.Seq? && a.Ok() && Has(a.State(), src)
    modifies a
    ensures a.Ok()
    ensures Parsers.Run(a.State(), trace, end, feed) == Eval(env, p, old(a.State()), src, prev0, feed0, fuel)
    decreases fuel, p, 1, 0
  {
    ghost var goal := Eval(env, p, a.State(), src, prev0, feed0, fuel);
    var buffer := 0;
    if env.rev.HelperBased? {
      buffer := BufferFor(a, src);
    }
    var output: seq<Outcome> := [];
    var cur := src;
    var prev := prev0;
    trace := [];
    feed := feed0;
    var k := 0;
    while k < |p.parsers|
      invariant a.Ok() && Has(a.State(), cur) && k <= |p.parsers|
      invariant env.rev.HelperBased? ==> buffer < |a.State().buffers|
      invariant SeqLoop(env, p, k, a.State(), cur, buffer, prev, output, trace, feed, fuel) == goal
      decreases |p.parsers| - k
    {
      var csrc, cprev := cur, None;
      if env.rev.HelperBased? {
        csrc, cprev := WrapFor(a, cur, buffer, prev);
      }
      var ct, ce, cf := Exec(a, env, p.parsers[k], csrc, cprev, feed, fuel);
      var done;
      done, trace, end, feed, cur, prev, output := SeqAfter(a, env, p, k, ct, ce, cf, buffer, prev, output, trace, fuel);
      if done {
        return;
      }
      k := k + 1;
    }
    trace := trace + TokenOf(env, p.options, Results(output));
    end := Returned(SuccessfulResult(SEQ, Results(output), cur));
  }

  /** The rest of one pass of `seq`'s loop, once child `k` has run. */
  method SeqAfter(a: Arena, env: Env, p: Parser, k: nat, ct: seq<Signal>, ce: End, cf: seq<string>, buffer: nat,
                  prev0: Option<Outcome>, output0: seq<Outcome>, trace0: seq<Signal>, fuel: nat)
    returns (done: bool, trace: seq<Signal>, end: End, feed: seq<string>, cur: nat,
             prev: Option<Outcome>, output: seq<Outcome>)
    requires p.Seq? && k < |p.parsers| && a.Ok()
    requires env.rev.HelperBased? ==> buffer < |a.State().buffers|
    requires ce.Returned? && ce.outcome.Successful? ==> Has(a.State(), ce.outcome.iter)
    ensures done ==> Parsers.Run(a.State(), trace, end, feed)
                     == SeqNext(env, p, k, Parsers.Run(a.State(), ct, ce, cf), buffer, prev0, output0, trace0, fuel)
    ensures !done ==> Has(a.State(), cur)
                      && SeqLoop(env, p, k + 1, a.State(), cur, buffer, prev, output, trace, feed, fuel)
                         == SeqNext(env, p, k, Parsers.Run(a.State(), ct, ce, cf), buffer, prev0, output0, trace0, fuel)
  {
    var relayed, e := Relay(ct, ce);
    done, trace, end, feed, cur, prev, output := true, trace0 + relayed, e, cf, 0, prev0, output0;
    match e
    case Returned(o) =>
      if o.Aborted? {
        end := Returned(Abort(env.rev, SEQ, SeqErrorMessage(TypeName(o.kind), o.message), Some(p.options),
                              prev0, None, None, None));
        return;
      }
      done := false;
      output := output0 + [o];
      cur := o.iter;
      prev := Some(o);
    case _ =>
  }

  /** The generator body of `or` (src/parsers/or/or.ts:37-129,
      src/parsers/or/index.ts:39-132). */
  method ExecOr(a: Arena, env: Env, p: Parser, src: nat, prev: Option<Outcome>, feed0: seq<string>, fuel: nat)
    returns (trace: seq<Signal>, end: End, feed: seq<string>)
    requires p.Or? && a.Ok() && Has(a.State(), src)
    modifies a
    ensures a.Ok()
    ensures Parsers.Run(a.State(), trace, end, feed) == Eval(env, p, old(a.State()), src, prev, feed0, fuel)
    decreases fuel, p, 1, 0
  {
    ghost var goal := Eval(env, p, a.State(), src, prev, feed0, fuel);
    var buffer := BufferFor(a, src);
    var init := |a.buffers[buffer]|;
    var stack: seq<Outcome> := [];
    var cur := src;
    trace := [];
    feed := feed0;
    var k := 0;
    while k < |p.parsers|
      invariant a.Ok() && Has(a.State(), cur) && k <= |p.parsers| && buffer < |a.State().buffers|
      invariant OrLoop(env, p, k, a.State(), cur, buffer, init, prev, stack, trace, feed, fuel) == goal
      decreases |p.parsers| - k
    {
      var csrc, cprev := WrapFor(a, cur, buffer, prev);
      var ct, ce, cf := Exec(a, env, p.parsers[k], csrc, cprev, feed, fuel);
      var done;
      done, trace, end, feed, cur, stack := OrAfter(a, env, p, k, ct, ce, cf, cur, buffer, init, prev, stack, trace, fuel);
      if done {
        return;
      }
      k := k + 1;
    }
    end := Returned(Abort(env.rev, OR, OR_ERROR_MESSAGE, None, prev, None, None, Some(stack)));
  }

  /** The rest of one pass of `or`'s loop, once alternative `k` has run:
      return its success, or roll back its abort (src/parsers/or/or.ts:71-107). */
  method OrAfter(a: Arena, env: Env, p: Parser, k: nat, ct: seq<Signal>, ce: End, cf: seq<string>,
                 cur0: nat, buffer: nat, init: nat, prev: Option<Outcome>, stack0: seq<Outcome>,
                 trace0: seq<Signal>, fuel: nat)
    returns (done: bool, trace: seq<Signal>, end: End, feed: seq<string>, cur: nat, stack: seq<Outcome>)
    requires p.Or? && k < |p.parsers| && a.Ok() && Has(a.State(), cur0) && buffer < |a.State().buffers|
    requires ce.Returned? && ce.outcome.Successful? ==> Has(a.State(), ce.outcome.iter)
    modifies a
    ensures a.Ok()
    ensures done ==> Parsers.Run(a.State(), trace, end, feed)
                     == OrNext(env, p, k, Parsers.Run(old(a.State()), ct, ce, cf), cur0, buffer, init, prev, stack0, trace0, fuel)
    ensures !done ==> Has(a.State(), cur) && buffer < |a.State().buffers|
                      && OrLoop(env, p, k + 1, a.State(), cur, buffer, init, prev, stack, trace, feed, fuel)
                         == OrNext(env, p, k, Parsers.Run(old(a.State()), ct, ce, cf), cur0, buffer, init, prev, stack0, trace0, fuel)
  {
    var requests, tokens := Split(ct);
    done, trace, end, feed, cur, stack := true, trace0 + requests, ce, cf, cur0, stack0;
    match ce
    case Returned(o) =>
      if o.Successful? {
        var next := if a.IsBuffered(Ref(o.iter)) then a.GetIter(o.iter) else o.iter;
        trace := trace + tokens + TokenOf(env, p.options, Single(o));
        end := Returned(SuccessfulResult(OR, Single(o), next));
        return;
      }
      done := false;
      stack := stack0 + [o];
      if a.IsBuffered(Ref(cur0)) {
        cur := a.GetIter(cur0);
      }
      RollbackTo(a, buffer, init, cur);
    case _ =>
  }

  /** The end of `repeat` (src/parsers/repeat/repeat.ts:95-99,
      src/parsers/repeat/index.ts:150-160). */
  method FinishRepeat(env: Env, options: Options, cur: nat, results: seq<Outcome>, trace0: seq<Signal>)
    returns (trace: seq<Signal>, end: End)
    ensures forall h: Heap, feed: seq<string> :: Valid(h) && Has(h, cur) ==>
      Parsers.Run(h, trace, end, feed) == RepeatFinish(env, options, h, cur, results, trace0, feed)
  {
    trace := trace0;
    if |results| > 0 && TokenSet(options) {
      if env.rev.HelperBased? {
        trace := trace + TokenOf(env, options, Results(results));
      } else {
        trace := trace + [OptionalToken(env.apply, Results(results), options)];
      }
    }
    end := Returned(SuccessfulResult(REPEAT, Results(results), cur));
  }

  /** The child asked for input after `min` was reached
      (src/parsers/repeat/repeat.ts:40-46, src/parsers/repeat/index.ts:76-84). */
  method StopRepeat(a: Arena, env: Env, options: Options, cur: nat, buffer: nat, init: nat, own: bool,
                    results: seq<Outcome>, trace0: seq<Signal>, feed: seq<string>)
    returns (trace: seq<Signal>, end: End)
    requires a.Ok() && Has(a.State(), cur) && buffer < |a.State().buffers|
    modifies a
    ensures a.Ok()
    ensures Parsers.Run(a.State(), trace, end, feed)
            == RepeatStop(env, options, old(a.State()), cur, buffer, init, own, results, trace0, feed)
  {
    var next := cur;
    if env.rev.HelperBased? {
      var n := |a.buffers[buffer]|;
      if own && n > init {
        var chars := a.Splice(buffer, n - init);
        next := a.IterSeq([Text(chars), Ref(cur)]);
      }
    } else {
      RollbackTo(a, buffer, init, cur);
    }
    trace, end := FinishRepeat(env, options, next, results, trace0);
  }

  /** The child aborted (src/parsers/repeat/repeat.ts:74-90,
      src/parsers/repeat/index.ts:112-145). */
  method AbortRepeat(a: Arena, env: Env, options: Options, cur: nat, buffer: nat, init: nat,
                     prev: Option<Outcome>, results: seq<Outcome>, trace0: seq<Signal>, feed: seq<string>)
    returns (trace: seq<Signal>, end: End)
    requires a.Ok() && Has(a.State(), cur) && buffer < |a.State().buffers|
    modifies a
    ensures a.Ok()
    ensures Parsers.Run(a.State(), trace, end, feed)
            == RepeatAborted(env, options, old(a.State()), cur, buffer, init, prev, results, trace0, feed)
  {
    var next := cur;
    if env.rev.HelperBased? && a.IsBuffered(Ref(cur)) {
      next := a.GetIter(cur);
    }
    RollbackTo(a, buffer, init, next);
    if |results| < MinOf(options) {
      trace := trace0;
      end := Returned(if env.rev.HelperBased?
                      then CreateAbortedResult(REPEAT, REPEAT_ERROR_MESSAGE, Some(options), prev, None, None, None)
                      else NewAbortedResult(REPEAT, REPEAT_ERROR_MESSAGE, Some(options), prev, Some(Results(results)), None, None));
    } else {
      trace, end := FinishRepeat(env, options, next, results, trace0);
    }
  }

  /** One pass of `repeat`'s loop: either the repetition ends (`done`)
      with the run it produces, or it goes on from the new loop state. */
  method RepeatAttempt(a: Arena, env: Env, p: Parser, cur0: nat, buffer: nat, init0: nat, own: bool,
                       prev0: Option<Outcome>, results0: seq<Outcome>, pending0: seq<Signal>,
                       trace0: seq<Signal>, feed0: seq<string>, fuel0: nat)
    returns (done: bool, trace: seq<Signal>, end: End, feed: seq<string>, cur: nat, init: nat,
             prev: Option<Outcome>, results: seq<Outcome>, pending: seq<Signal>, fuel: nat)
    requires p.Repeat? && a.Ok() && Has(a.State(), cur0) && buffer < |a.State().buffers|
    modifies a
    ensures a.Ok()
    ensures done ==> Parsers.Run(a.State(), trace, end, feed)
                     == RepeatLoop(env, p, old(a.State()), cur0, buffer, init0, own, prev0, results0, pending0, trace0, feed0, fuel0)
    ensures !done ==> Has(a.State(), cur) && buffer < |a.State().buffers| && fuel < fuel0
                      && RepeatLoop(env, p, a.State(), cur, buffer, init, own, prev, results, pending, trace, feed, fuel)
                         == RepeatLoop(env, p, old(a.State()), cur0, buffer, init0, own, prev0, results0, pending0, trace0, feed0, fuel0)
    decreases fuel0, p, 0, 1
  {
    var count := |results0|;
    var min := MinOf(p.options);
    var renv := RepeatEnv(env, p);
    var csrc, cprev := cur0, None;
    if renv.rev.HelperBased? {
      csrc, cprev := WrapFor(a, cur0, buffer, prev0);
    }
    if AtMax(p.options, count) {
      done, cur, init, prev, results, pending, fuel, feed := true, cur0, init0, prev0, results0, pending0, fuel0, feed0;
      trace, end := FinishRepeat(renv, p.options, cur0, results0, trace0);
      return;
    }
    var ct, ce, cf := Exec(a, env, p.child, csrc, cprev, if count >= min then [] else feed0, fuel0);
    done, trace, end, feed, cur, init, prev, results, pending, fuel :=
      RepeatAfter(a, env, p, ct, ce, cf, cur0, buffer, init0, own, prev0, results0, pending0, trace0, feed0, fuel0);
  }

  /** The rest of a pass, once the child's attempt has run. */
  method RepeatAfter(a: Arena, env: Env, p: Parser, ct: seq<Signal>, ce: End, cf: seq<string>,
                     cur0: nat, buffer: nat, init0: nat, own: bool,
                     prev0: Option<Outcome>, results0: seq<Outcome>, pending0: seq<Signal>,
                     trace0: seq<Signal>, feed0: seq<string>, fuel0: nat)
    returns (done: bool, trace: seq<Signal>, end: End, feed: seq<string>, cur: nat, init: nat,
             prev: Option<Outcome>, results: seq<Outcome>, pending: seq<Signal>, fuel: nat)
    requires p.Repeat? && a.Ok() && Has(a.State(), cur0) && buffer < |a.State().buffers|
    requires ce.Returned? && ce.outcome.Successful? ==> Has(a.State(), ce.outcome.iter)
    modifies a
    ensures a.Ok()
    ensures done ==> Parsers.Run(a.State(), trace, end, feed)
                     == RepeatNext(env, p, Parsers.Run(old(a.State()), ct, ce, cf), cur0, buffer, init0, own,
                                   prev0, results0, pending0, trace0, feed0, fuel0)
    ensures !done ==> Has(a.State(), cur) && buffer < |a.State().buffers| && fuel < fuel0
                      && RepeatLoop(env, p, a.State(), cur, buffer, init, own, prev, results, pending, trace, feed, fuel)
                         == RepeatNext(env, p, Parsers.Run(old(a.State()), ct, ce, cf), cur0, buffer, init0, own,
                                       prev0, results0, pending0, trace0, feed0, fuel0)
  {
    var options := p.options;
    var min := MinOf(options);
    var count := |results0|;
    done, cur, init, prev, results, pending, fuel := true, cur0, init0, prev0, results0, pending0, fuel0;
    var requests, tokens := Split(ct);
    trace := trace0 + requests;
    feed := if count >= min then feed0 else cf;
    match ce
    case Broken(_) =>
      end := ce;
    case Suspended =>
      end := Suspended;
      if count >= min {
        trace, end := StopRepeat(a, RepeatEnv(env, p), options, cur0, buffer, init0, own, results0, trace0, feed0);
      }
    case Returned(o) =>
      if o.Aborted? {
        trace, end := AbortRepeat(a, RepeatEnv(env, p), options, cur0, buffer, init0, prev0, results0, trace, feed);
        return;
      }
      if fuel0 == 0 {
        end := Broken(OutOfFuel);
        return;
      }
      done := false;
      end := Suspended;
      results := results0 + [o];
      prev := Some(o);
      cur := o.iter;
      init := |a.buffers[buffer]|;
      pending := pending0 + tokens;
      if |results| >= min {
        trace := trace + pending;
        pending := [];
      }
      fuel := fuel0 - 1;
  }

  /** The generator body of `repeat` (src/parsers/repeat/repeat.ts:16-100,
      src/parsers/repeat/index.ts:18-161). */
  method ExecRepeat(a: Arena, env: Env, p: Parser, src: nat, prev0: Option<Outcome>, feed0: seq<string>, fuel0: nat)
    returns (trace: seq<Signal>, end: End, feed: seq<string>)
    requires p.Repeat? && a.Ok() && Has(a.State(), src)
    modifies a
    ensures a.Ok()
    ensures Parsers.Run(a.State(), trace, end, feed) == Eval(env, p, old(a.State()), src, prev0, feed0, fuel0)
    decreases fuel0, p, 1, 0
  {
    ghost var goal := Eval(env, p, a.State(), src, prev0, feed0, fuel0);
    var own := !a.IsBuffered(Ref(src));
    var buffer := BufferFor(a, src);
    var cur := src;
    if RepeatEnv(env, p).rev.ClassBased? {
      if own {
        cur := a.IntoBufIter(Ref(src), buffer);
      }
      own := false;
    }
    var init: nat := |a.buffers[buffer]|;
    var results: seq<Outcome> := [];
    var pending: seq<Signal> := [];
    var prev := prev0;
    var fuel: nat := fuel0;
    trace := [];
    feed := feed0;
    while true
      invariant a.Ok() && Has(a.State(), cur) && buffer < |a.State().buffers| && fuel <= fuel0
      invariant RepeatLoop(env, p, a.State(), cur, buffer, init, own, prev, results, pending, trace, feed, fuel) == goal
      decreases fuel
    {
      var done;
      done, trace, end, feed, cur, init, prev, results, pending, fuel :=
        RepeatAttempt(a, env, p, cur, buffer, init, own, prev, results, pending, trace, feed, fuel);
      if done {
        return;
      }
    }
  }
}
