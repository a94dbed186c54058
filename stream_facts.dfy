/** What the stream helpers of src/helpers/index.ts promise: `revert`
    gives characters back in order, `peak` does not consume, and an
    `intoBufIter` records exactly what it yields. */
module StreamFacts {
  import opened Protocol
  import opened Stream

  /** The Base stream that `next()` of `r` currently reads from: through a
      Recorder to its inner stream, through a Chain to its current part. */
  function Target(h: Heap, r: nat): (t: nat)
    requires Valid(h) && Has(h, r)
    ensures Has(h, t) && t <= r && h.nodes[t].Base?
    decreases r
  {
    match h.nodes[r]
    case Base(_, _) => r
    case Recorder(inner, _) => assert NodeOk(h, r); Target(h, inner)
    case Chain(parts, cursor) => assert NodeOk(h, r); Target(h, parts[cursor])
  }

  /** The arena after `n` calls of `next()` on `r`. */
  function After(h: Heap, r: nat, n: nat): (h': Heap)
    requires Valid(h) && Has(h, r)
    ensures Valid(h') && SameShape(h, h')
    decreases n
  {
    if n == 0 then h else After(Next(h, r).1, r, n - 1)
  }

  /** Replacing the Base stream at the target by another Base stream does
      not move the target. */
  lemma {:induction false} TargetStable(h: Heap, h': Heap, r: nat, n: Node)
    requires Valid(h) && Has(h, r) && Valid(h') && n.Base?
    requires h'.nodes == h.nodes[Target(h, r) := n]
    ensures Has(h', r) && Target(h', r) == Target(h, r)
    decreases r
  {
    assert NodeOk(h, r);
    match h.nodes[r]
    case Base(_, _) =>
    case Recorder(inner, _) => TargetStable(h, h', inner, n);
    case Chain(parts, cursor) => TargetStable(h, h', parts[cursor], n);
  }

  /** `revert(chars)` lands on the target: its pending characters are
      prefixed with `chars`, its peeked value stays first, and nothing else
      changes (src/helpers/index.ts:43-46, 68-70, 115-117). */
  lemma {:induction false} RevertAtTarget(h: Heap, r: nat, chars: seq<char>)
    requires Valid(h) && Has(h, r)
    ensures var t := Target(h, r);
      Revert(h, r, chars) == h.(nodes := h.nodes[t := Base(h.nodes[t].peeked, chars + h.nodes[t].rest)])
    decreases r
  {
    assert NodeOk(h, r);
    match h.nodes[r]
    case Base(_, _) =>
    case Recorder(inner, _) => RevertAtTarget(h, inner, chars);
    case Chain(parts, cursor) => RevertAtTarget(h, parts[cursor], chars);
  }

  /** When the target holds no peeked value and has a character pending,
      `next()` returns that character and only the target moves (buffers
      may record it). */
  lemma {:induction false} NextAtTarget(h: Heap, r: nat, c: char, rest: seq<char>)
    requires Valid(h) && Has(h, r) && h.nodes[Target(h, r)] == Base(None, [c] + rest)
    ensures Next(h, r).0 == Char(c)
    ensures Next(h, r).1.nodes == h.nodes[Target(h, r) := Base(None, rest)]
    decreases r
  {
    assert NodeOk(h, r);
    match h.nodes[r]
    case Base(_, _) =>
      assert ([c] + rest)[1..] == rest;
    case Recorder(inner, _) =>
      NextAtTarget(h, inner, c, rest);
    case Chain(parts, cursor) =>
      NextAtTarget(h, parts[cursor], c, rest);
  }

  /** A target holding `s` ahead of `rest` yields exactly `s` in the next
      `|s|` calls and is left holding `rest`. */
  lemma {:induction false} DrainPending(h: Heap, r: nat, s: seq<char>, rest: seq<char>)
    requires Valid(h) && Has(h, r) && h.nodes[Target(h, r)] == Base(None, s + rest)
    ensures Drain(h, r, |s|) == Chars(s)
    ensures After(h, r, |s|).nodes == h.nodes[Target(h, r) := Base(None, rest)]
    decreases |s|
  {
    var t := Target(h, r);
    if s == [] {
      assert s + rest == rest;
      assert h.nodes[t := Base(None, rest)] == h.nodes;
    } else {
      assert s + rest == [s[0]] + (s[1..] + rest);
      NextAtTarget(h, r, s[0], s[1..] + rest);
      var h1 := Next(h, r).1;
      TargetStable(h, h1, r, Base(None, s[1..] + rest));
      DrainPending(h1, r, s[1..], rest);
      assert h1.nodes[t := Base(None, rest)] == h.nodes[t := Base(None, rest)];
    }
  }

  /** `revert(chars)` followed by `|chars|` calls of `next()` yields
      exactly `chars`, in order, and leaves the streams as they were
      before the revert (src/helpers/index.ts:43-46, 57-86). */
  lemma RevertRoundTrip(h: Heap, r: nat, chars: seq<char>)
    requires Valid(h) && Has(h, r) && h.nodes[Target(h, r)].peeked.None?
    ensures Drain(Revert(h, r, chars), r, |chars|) == Chars(chars)
    ensures After(Revert(h, r, chars), r, |chars|).nodes == h.nodes
  {
    var t := Target(h, r);
    var rest := h.nodes[t].rest;
    RevertAtTarget(h, r, chars);
    var h1 := Revert(h, r, chars);
    TargetStable(h, h1, r, Base(None, chars + rest));
    DrainPending(h1, r, chars, rest);
    assert h1.nodes[t := Base(None, rest)] == h.nodes;
  }

  /** `peak()` changes only the target. */
  lemma {:induction false} PeekAtTarget(h: Heap, r: nat)
    requires Valid(h) && Has(h, r)
    ensures forall i :: 0 <= i < |h.nodes| && i != Target(h, r) ==> Peek(h, r).1.nodes[i] == h.nodes[i]
    decreases r
  {
    assert NodeOk(h, r);
    match h.nodes[r]
    case Base(_, _) =>
    case Recorder(inner, _) => PeekAtTarget(h, inner);
    case Chain(parts, cursor) => PeekAtTarget(h, parts[cursor]);
  }

  /** `peak()` does not consume: when it shows a character, the following
      `next()` returns that same character (src/helpers/index.ts:32-36,
      48-53, 88-90, 127-129). */
  lemma {:induction false} PeekThenNext(h: Heap, r: nat)
    requires Valid(h) && Has(h, r) && Peek(h, r).0.Char?
    ensures Next(Peek(h, r).1, r).0 == Peek(h, r).0
    decreases r
  {
    assert NodeOk(h, r);
    match h.nodes[r]
    case Base(_, _) =>
    case Recorder(inner, _) =>
      PeekThenNext(h, inner);
      PeekAtTarget(h, inner);
      assert Peek(h, r).1.nodes[r] == h.nodes[r];
    case Chain(parts, cursor) =>
      PeekThenNext(h, parts[cursor]);
      PeekAtTarget(h, parts[cursor]);
      assert Peek(h, r).1.nodes[r] == h.nodes[r];
  }

  /** A stream that records into no buffer: no Recorder can be reached
      from it. */
  predicate Silent(h: Heap, r: nat)
    requires Valid(h) && Has(h, r)
    decreases r
  {
    assert NodeOk(h, r);
    match h.nodes[r]
    case Base(_, _) => true
    case Recorder(_, _) => false
    case Chain(parts, _) => forall k :: 0 <= k < |parts| ==> Silent(h, parts[k])
  }

  lemma {:induction false} SilentSameShape(h: Heap, h': Heap, r: nat)
    requires Valid(h) && Valid(h') && SameShape(h, h') && Has(h, r) && Silent(h, r)
    ensures Silent(h', r)
    decreases r
  {
    assert NodeOk(h, r) && SameLinks(h.nodes[r], h'.nodes[r]);
    match h.nodes[r]
    case Base(_, _) =>
    case Chain(parts, _) =>
      forall k | 0 <= k < |parts| ensures Silent(h', parts[k]) {
        SilentSameShape(h, h', parts[k]);
      }
  }

  /** Whether a stream records depends on the streams only, not on the
      buffers. */
  lemma {:induction false} SilentSameNodes(h: Heap, h': Heap, r: nat)
    requires Valid(h) && Valid(h') && h'.nodes == h.nodes && Has(h, r) && Silent(h, r)
    ensures Silent(h', r)
    decreases r
  {
    assert NodeOk(h, r);
    match h.nodes[r]
    case Base(_, _) =>
    case Chain(parts, _) =>
      forall k | 0 <= k < |parts| ensures Silent(h', parts[k]) {
        SilentSameNodes(h, h', parts[k]);
      }
  }

  /** Reading a silent stream never touches a buffer. */
  lemma {:induction false} SilentNext(h: Heap, r: nat)
    requires Valid(h) && Has(h, r) && Silent(h, r)
    ensures Next(h, r).1.buffers == h.buffers
    decreases r, 1, 0
  {
    assert NodeOk(h, r);
    match h.nodes[r]
    case Base(_, _) =>
    case Chain(parts, cursor) =>
      SilentNext(h, parts[cursor]);
      var (c, h1) := Next(h, parts[cursor]);
      SilentSameShape(h, h1, r);
      SilentAdvance(h1, r, cursor, c);
  }

  lemma {:induction false} SilentAdvance(h: Heap, r: nat, cursor: nat, c: Chunk)
    requires Valid(h) && Has(h, r) && h.nodes[r].Chain? && cursor < |h.nodes[r].parts| && Silent(h, r)
    ensures ChainAdvance(h, r, cursor, c).1.buffers == h.buffers
    decreases r, 0, |h.nodes[r].parts| - cursor
  {
    var parts := h.nodes[r].parts;
    if !(c.Char? || cursor + 1 == |parts|) {
      assert NodeOk(h, r);
      SilentNext(h, parts[cursor + 1]);
      var (c2, h2) := Next(h, parts[cursor + 1]);
      SilentSameShape(h, h2, r);
      assert SameLinks(h.nodes[r], h2.nodes[r]);
      SilentAdvance(h2, r, cursor + 1, c2);
    }
  }

  /** `intoBufIter` yields what its source yields, leaves the streams as
      the source's `next()` left them, and appends the character, if one
      came, to its shared array after whatever the source itself recorded
      (src/helpers/index.ts:105-113). */
  lemma RecorderNext(h: Heap, r: nat, inner: nat, b: nat)
    requires Valid(h) && Has(h, r) && h.nodes[r] == Recorder(inner, b)
    ensures inner < r && b < |h.buffers|
    ensures var (c, h1) := Next(h, inner);
      Next(h, r).0 == c && Next(h, r).1.nodes == h1.nodes
      && Next(h, r).1.buffers == h1.buffers[b := h1.buffers[b] + Recorded(c)]
  {
    assert NodeOk(h, r);
    var (c, h1) := Next(h, inner);
    if c.Char? {
      assert Next(h, r).1 == Record(h1, b, c.c);
    } else {
      assert Next(h, r).1 == h1;
      assert h1.buffers[b] + [] == h1.buffers[b];
      assert h1.buffers[b := h1.buffers[b]] == h1.buffers;
    }
  }

  /** Over a stream that records nothing itself, `intoBufIter` changes only
      its own shared array (src/helpers/index.ts:105-113). */
  lemma RecorderNextSilent(h: Heap, r: nat, inner: nat, b: nat)
    requires Valid(h) && Has(h, r) && h.nodes[r] == Recorder(inner, b)
    requires inner < r && Silent(h, inner)
    ensures Next(h, r).0 == Next(h, inner).0
    ensures Next(h, r).1.buffers == h.buffers[b := h.buffers[b] + Recorded(Next(h, r).0)]
  {
    RecorderNext(h, r, inner, b);
    SilentNext(h, inner);
  }

  /** One read through `intoBufIter` over a stream that records nothing
      itself, when a character is pending at the target. */
  lemma RecorderStep(h: Heap, w: nat, inner: nat, b: nat, c: char, rest: seq<char>)
    requires Valid(h) && Has(h, w) && h.nodes[w] == Recorder(inner, b) && inner < w && Silent(h, inner)
    requires h.nodes[Target(h, inner)] == Base(None, [c] + rest)
    ensures b < |h.buffers|
    ensures Next(h, w) == (Char(c), Heap(h.nodes[Target(h, inner) := Base(None, rest)], h.buffers[b := h.buffers[b] + [c]]))
  {
    assert NodeOk(h, w);
    NextAtTarget(h, inner, c, rest);
    RecorderNext(h, w, inner, b);
    RecorderNextSilent(h, w, inner, b);
  }

  /** Reading `s` through `intoBufIter` over a stream that records
      nothing itself moves that stream past `s` and appends `s` to the
      shared array; nothing else changes (src/helpers/index.ts:105-113). */
  lemma {:induction false} RecorderDrain(h: Heap, w: nat, inner: nat, b: nat, s: seq<char>, rest: seq<char>)
    requires Valid(h) && Has(h, w) && h.nodes[w] == Recorder(inner, b) && inner < w && Silent(h, inner)
    requires h.nodes[Target(h, inner)] == Base(None, s + rest)
    ensures b < |h.buffers|
    ensures Drain(h, w, |s|) == Chars(s)
    ensures After(h, w, |s|) == Heap(h.nodes[Target(h, inner) := Base(None, rest)], h.buffers[b := h.buffers[b] + s])
    decreases |s|
  {
    assert NodeOk(h, w);
    var t := Target(h, inner);
    if s == [] {
      assert s + rest == rest && h.buffers[b] + s == h.buffers[b];
      assert h.nodes[t := Base(None, rest)] == h.nodes;
      assert h.buffers[b := h.buffers[b]] == h.buffers;
    } else {
      assert s + rest == [s[0]] + (s[1..] + rest);
      RecorderStep(h, w, inner, b, s[0], s[1..] + rest);
      var h1 := Next(h, w).1;
      TargetStable(h, h1, inner, Base(None, s[1..] + rest));
      SilentSameShape(h, h1, inner);
      RecorderDrain(h1, w, inner, b, s[1..], rest);
      RecorderDrainCons(h, h1, w, b, t, s, rest);
    }
  }

  /** One recorded character followed by the rest of `s`. */
  lemma RecorderDrainCons(h: Heap, h1: Heap, w: nat, b: nat, t: nat, s: seq<char>, rest: seq<char>)
    requires Valid(h) && Has(h, w) && t < |h.nodes| && b < |h.buffers| && s != []
    requires Next(h, w) == (Char(s[0]), h1)
    requires h1 == Heap(h.nodes[t := Base(None, s[1..] + rest)], h.buffers[b := h.buffers[b] + [s[0]]])
    requires Drain(h1, w, |s| - 1) == Chars(s[1..])
    requires After(h1, w, |s| - 1) == Heap(h1.nodes[t := Base(None, rest)], h1.buffers[b := h1.buffers[b] + s[1..]])
    ensures Drain(h, w, |s|) == Chars(s)
    ensures After(h, w, |s|) == Heap(h.nodes[t := Base(None, rest)], h.buffers[b := h.buffers[b] + s])
  {
    DrainCons(h, w, |s|, Char(s[0]), h1, Chars(s[1..]));
    assert Chars(s) == [Char(s[0])] + Chars(s[1..]);
    assert After(h, w, |s|) == After(h1, w, |s| - 1);
    RecordedTwice(h, h1, b, t, s, rest);
  }

  lemma DrainCons(h: Heap, w: nat, n: nat, c: Chunk, h1: Heap, tail: seq<Chunk>)
    requires Valid(h) && Has(h, w) && n > 0 && Next(h, w) == (c, h1) && Drain(h1, w, n - 1) == tail
    ensures Drain(h, w, n) == [c] + tail
  {
  }

  lemma RecordedTwice(h: Heap, h1: Heap, b: nat, t: nat, s: seq<char>, rest: seq<char>)
    requires t < |h.nodes| && b < |h.buffers| && s != []
    requires h1 == Heap(h.nodes[t := Base(None, s[1..] + rest)], h.buffers[b := h.buffers[b] + [s[0]]])
    ensures Heap(h1.nodes[t := Base(None, rest)], h1.buffers[b := h1.buffers[b] + s[1..]])
            == Heap(h.nodes[t := Base(None, rest)], h.buffers[b := h.buffers[b] + s])
  {
    assert h1.nodes[t := Base(None, rest)] == h.nodes[t := Base(None, rest)];
    assert h.buffers[b] + [s[0]] + s[1..] == h.buffers[b] + s;
    assert h1.buffers[b := h1.buffers[b] + s[1..]] == h.buffers[b := h.buffers[b] + s];
  }

  /** What a Recorder appends for one chunk. */
  function Recorded(c: Chunk): (s: seq<char>)
    ensures |s| <= 1 && (c.Char? ==> s == [c.c]) && (!c.Char? ==> s == [])
  {
    if c.Char? then [c.c] else []
  }

  /** `next()` of `x` changes no stream created after `x`. */
  lemma {:induction false} NextFrame(h: Heap, x: nat)
    requires Valid(h) && Has(h, x)
    ensures forall i :: x < i < |h.nodes| ==> Next(h, x).1.nodes[i] == h.nodes[i]
    decreases x, 1, 0
  {
    assert NodeOk(h, x);
    match h.nodes[x]
    case Base(_, _) =>
    case Recorder(inner, _) => NextFrame(h, inner);
    case Chain(parts, cursor) =>
      NextFrame(h, parts[cursor]);
      var (c, h1) := Next(h, parts[cursor]);
      ChainFrame(h1, x, cursor, c);
  }

  lemma {:induction false} ChainFrame(h: Heap, x: nat, cursor: nat, c: Chunk)
    requires Valid(h) && Has(h, x) && h.nodes[x].Chain? && cursor < |h.nodes[x].parts|
    ensures forall i :: x < i < |h.nodes| ==> ChainAdvance(h, x, cursor, c).1.nodes[i] == h.nodes[i]
    decreases x, 0, |h.nodes[x].parts| - cursor
  {
    var parts := h.nodes[x].parts;
    if !(c.Char? || cursor + 1 == |parts|) {
      assert NodeOk(h, x);
      NextFrame(h, parts[cursor + 1]);
      var (c2, h2) := Next(h, parts[cursor + 1]);
      ChainFrame(h2, x, cursor + 1, c2);
    }
  }

  /** The streams up to `x` are the same in both arenas. */
  ghost predicate AgreeUpTo(h: Heap, h': Heap, x: nat)
  {
    x < |h.nodes| && x < |h'.nodes| && |h.buffers| == |h'.buffers|
    && forall i :: 0 <= i <= x ==> h.nodes[i] == h'.nodes[i]
  }

  /** Where `x` reads from, and whether it records, depend only on the
      streams up to `x`. */
  lemma {:induction false} TargetLocal(h: Heap, h': Heap, x: nat)
    requires Valid(h) && Valid(h') && AgreeUpTo(h, h', x)
    ensures Target(h, x) == Target(h', x) && Silent(h, x) == Silent(h', x)
    decreases x
  {
    assert NodeOk(h, x);
    match h.nodes[x]
    case Base(_, _) =>
    case Recorder(inner, _) => TargetLocal(h, h', inner);
    case Chain(parts, cursor) =>
      forall k | 0 <= k < |parts| ensures Target(h, parts[k]) == Target(h', parts[k]) && Silent(h, parts[k]) == Silent(h', parts[k]) {
        TargetLocal(h, h', parts[k]);
      }
  }

  /** What `next()` of `x` returns depends only on the streams up to `x`. */
  lemma {:induction false} NextLocal(h: Heap, h': Heap, x: nat)
    requires Valid(h) && Valid(h') && AgreeUpTo(h, h', x)
    ensures Next(h, x).0 == Next(h', x).0 && AgreeUpTo(Next(h, x).1, Next(h', x).1, x)
    decreases x, 1, 0
  {
    assert NodeOk(h, x);
    match h.nodes[x]
    case Base(_, _) =>
    case Recorder(inner, _) =>
      NextLocal(h, h', inner);
      NextFrame(h, inner);
      NextFrame(h', inner);
    case Chain(parts, cursor) =>
      NextLocal(h, h', parts[cursor]);
      NextFrame(h, parts[cursor]);
      NextFrame(h', parts[cursor]);
      var (c, h1) := Next(h, parts[cursor]);
      var (c', h1') := Next(h', parts[cursor]);
      ChainLocal(h1, h1', x, cursor, c);
  }

  lemma {:induction false} ChainLocal(h: Heap, h': Heap, x: nat, cursor: nat, c: Chunk)
    requires Valid(h) && Valid(h') && AgreeUpTo(h, h', x)
    requires h.nodes[x].Chain? && cursor < |h.nodes[x].parts|
    ensures ChainAdvance(h, x, cursor, c).0 == ChainAdvance(h', x, cursor, c).0
    ensures AgreeUpTo(ChainAdvance(h, x, cursor, c).1, ChainAdvance(h', x, cursor, c).1, x)
    decreases x, 0, |h.nodes[x].parts| - cursor
  {
    var parts := h.nodes[x].parts;
    if !(c.Char? || cursor + 1 == |parts|) {
      assert NodeOk(h, x);
      NextLocal(h, h', parts[cursor + 1]);
      NextFrame(h, parts[cursor + 1]);
      NextFrame(h', parts[cursor + 1]);
      var (c2, h2) := Next(h, parts[cursor + 1]);
      var (c2', h2') := Next(h', parts[cursor + 1]);
      ChainLocal(h2, h2', x, cursor + 1, c2);
    }
  }

  /** The arena `iterSeq(chars, source)` builds: a Base stream over
      `chars`, then the chain over it and `source`. */
  lemma IterSeqPairShape(h: Heap, chars: seq<char>, cur: nat)
    requires Valid(h) && Has(h, cur)
    ensures var (h1, r) := IterSeq(h, [Text(chars), Ref(cur)]);
      r == |h.nodes| + 1 && h1.buffers == h.buffers
      && h1.nodes == h.nodes + [Base(None, chars), Chain([|h.nodes|, cur], 0)]
  {
    var p0 := |h.nodes|;
    var hb := h.(nodes := h.nodes + [Base(None, chars)]);
    assert IntoIter(h, Text(chars)) == (hb, p0);
    assert IntoIter(hb, Ref(cur)) == (hb, cur);
    assert IterableOk(hb, Ref(cur));
    assert [Ref(cur)][1..] == [] && [cur] + [] == [cur];
    assert PartRefs(hb, []) == (hb, []);
    assert PartRefs(hb, [Ref(cur)]) == (hb, [cur]);
    assert [Text(chars), Ref(cur)][1..] == [Ref(cur)] && [p0] + [cur] == [p0, cur];
    assert PartRefs(h, [Text(chars), Ref(cur)]) == (hb, [p0, cur]);
  }

  /** A chain whose first part is exhausted reads its second part. */
  lemma ChainSkipsEmpty(h: Heap, r: nat, p0: nat, q: nat)
    requires Valid(h) && Has(h, r) && p0 < r && q < r
    requires h.nodes[r] == Chain([p0, q], 0) && h.nodes[p0] == Base(None, [])
    ensures Next(h, r).0 == Next(h, q).0
  {
    assert Next(h, p0) == (Done, h);
    var (c2, h2) := Next(h, q);
    assert SameLinks(h.nodes[r], h2.nodes[r]);
    assert ChainAdvance(h, r, 0, Done) == ChainAdvance(h2, r, 1, c2);
  }

  /** `n` + `m` reads are `n` reads followed by `m` more. */
  lemma {:induction false} DrainSplit(h: Heap, r: nat, n: nat, m: nat)
    requires Valid(h) && Has(h, r)
    ensures Drain(h, r, n + m) == Drain(h, r, n) + Drain(After(h, r, n), r, m)
    decreases n
  {
    if n > 0 {
      var h1 := Next(h, r).1;
      DrainSplit(h1, r, n - 1, m);
      assert n + m - 1 == (n - 1) + m;
    }
  }

  /** What `m` reads of `x` return depends only on the streams up to `x`. */
  lemma {:induction false} DrainLocal(h: Heap, h': Heap, x: nat, m: nat)
    requires Valid(h) && Valid(h') && AgreeUpTo(h, h', x)
    ensures Drain(h, x, m) == Drain(h', x, m)
    decreases m
  {
    if m > 0 {
      NextLocal(h, h', x);
      DrainLocal(Next(h, x).1, Next(h', x).1, x, m - 1);
    }
  }

  /** A two-part chain past its first part reads its second part and then
      stays on it. */
  lemma ChainTailStep(h: Heap, r: nat, p0: nat, q: nat, cursor: nat)
    requires Valid(h) && Has(h, r) && h.nodes[r] == Chain([p0, q], cursor) && p0 < r
    requires cursor == 1 || (cursor == 0 && h.nodes[p0] == Base(None, []))
    ensures q < r && Next(h, r).0 == Next(h, q).0
    ensures Next(h, r).1 == SetNode(Next(h, q).1, r, Chain([p0, q], 1))
  {
    assert NodeOk(h, r);
    assert [p0, q][1] == q;
    var (c2, h2) := Next(h, q);
    assert SameLinks(h.nodes[r], h2.nodes[r]);
    if cursor == 0 {
      assert Next(h, p0) == (Done, h);
      assert ChainAdvance(h, r, 0, Done) == ChainAdvance(h2, r, 1, c2);
    }
  }

  lemma {:induction false} ChainTail(h: Heap, h': Heap, r: nat, p0: nat, q: nat, cursor: nat, m: nat)
    requires Valid(h) && Valid(h') && Has(h, r) && h.nodes[r] == Chain([p0, q], cursor) && p0 < r
    requires cursor == 1 || (cursor == 0 && h.nodes[p0] == Base(None, []))
    requires q < r && AgreeUpTo(h, h', q)
    ensures Drain(h, r, m) == Drain(h', q, m)
    decreases m
  {
    if m > 0 {
      ChainTailStep(h, r, p0, q, cursor);
      NextLocal(h, h', q);
      NextFrame(Next(h, q).1, q);
      var h3 := Next(h, r).1;
      ChainTail(h3, Next(h', q).1, r, p0, q, 1, m - 1);
    }
  }

  /** `iterSeq(chars, source)`, the form `take` and `repeat` build: its
      first `|chars|` reads yield `chars` in order, and every read after
      them yields exactly what the matching read of `source` would have
      yielded, done included (src/helpers/index.ts:57-87). */
  lemma IterSeqPair(h: Heap, chars: seq<char>, cur: nat, m: nat)
    requires Valid(h) && Has(h, cur)
    ensures var (h1, r) := IterSeq(h, [Text(chars), Ref(cur)]);
      Has(h1, r) && Drain(h1, r, |chars| + m) == Chars(chars) + Drain(h, cur, m)
  {
    var p0 := |h.nodes|;
    IterSeqPairShape(h, chars, cur);
    var (h1, r) := IterSeq(h, [Text(chars), Ref(cur)]);
    assert NodeOk(h1, r);
    assert Target(h1, r) == p0;
    assert AgreeUpTo(h1, h, cur);
    ChainReadsFirst(h, h1, p0, r, cur, 0, chars);
    ChainThen(h, h1, After(h1, r, |chars|), p0, r, cur, 0, |chars|, m, Chars(chars));
  }

  /** The first reads of a two-part chain `r` whose first part `p0` holds
      `chars` and whose second part is `cur`: they yield `chars` and leave
      the first part exhausted. */
  lemma ChainReadsFirst(h: Heap, h1: Heap, p0: nat, r: nat, cur: nat, cursor: nat, chars: seq<char>)
    requires Valid(h) && Has(h, cur) && Valid(h1) && Has(h1, r) && cur < p0 < r
    requires cursor == 0 && h1.nodes[r] == Chain([p0, cur], cursor) && h1.nodes[p0] == Base(None, chars)
    requires Target(h1, r) == p0 && AgreeUpTo(h1, h, cur)
    ensures var ha := After(h1, r, |chars|);
      Drain(h1, r, |chars|) == Chars(chars) && Valid(ha) && Has(ha, r)
      && cursor == 0 && ha.nodes[r] == Chain([p0, cur], cursor) && ha.nodes[p0] == Base(None, []) && AgreeUpTo(ha, h, cur)
  {
    assert chars + [] == chars;
    DrainPending(h1, r, chars, []);
    var ha := After(h1, r, |chars|);
    assert ha.nodes == h1.nodes[p0 := Base(None, [])];
  }

  /** A two-part chain read `n` times, yielding `front`, and left with
      its first part exhausted: `m` more reads yield what `m` reads of its
      second part `cur` yield. */
  lemma ChainThen(h: Heap, h1: Heap, ha: Heap, p0: nat, r: nat, cur: nat, cursor: nat, n: nat, m: nat, front: seq<Chunk>)
    requires Valid(h) && Has(h, cur) && Valid(h1) && Has(h1, r)
    requires Drain(h1, r, n) == front && ha == After(h1, r, n)
    requires Valid(ha) && Has(ha, r) && p0 < r && cur < r
    requires cursor == 0 && ha.nodes[r] == Chain([p0, cur], cursor) && ha.nodes[p0] == Base(None, []) && AgreeUpTo(ha, h, cur)
    ensures Drain(h1, r, n + m) == front + Drain(h, cur, m)
  {
    ChainTail(ha, h, r, p0, cur, cursor, m);
    DrainThen(h1, r, n, m, front, Drain(h, cur, m));
  }

  /** Reads that start with `front` and go on with `back`. */
  lemma DrainThen(h: Heap, r: nat, n: nat, m: nat, front: seq<Chunk>, back: seq<Chunk>)
    requires Valid(h) && Has(h, r)
    requires Drain(h, r, n) == front && Drain(After(h, r, n), r, m) == back
    ensures Drain(h, r, n + m) == front + back
  {
    DrainSplit(h, r, n, m);
  }
}
