/** The character streams of src/helpers/index.ts, as values.

    Every stream object the helpers create lives in one arena (`Heap`) and
    is named by its index there. There are three kinds:
      - Base:     `intoIter` over a string; `peeked` is its `nextValue`
                  slot and `rest` what its inner iterator still yields
                  (characters given back by `revert` come first).
      - Chain:    `iterSeq` over its parts; `cursor` is the part it
                  currently reads (it stays on the last part once all are
                  exhausted).
      - Recorder: `intoBufIter`: reads from `inner` and appends every
                  character to the shared array `buffers[buffer]`.
    A stream only refers to streams created before it, so every operation
    terminates by recursion on the index. */
module Stream {
  import opened Protocol

  /** One iterator step: a character or "done". */
  datatype Chunk = Char(c: char) | Done

  datatype Node =
    | Base(peeked: Option<Chunk>, rest: seq<char>)
    | Chain(parts: seq<nat>, cursor: nat)
    | Recorder(inner: nat, buffer: nat)

  datatype Heap = Heap(nodes: seq<Node>, buffers: seq<seq<char>>)

  /** What a helper may be handed: a plain string, or a stream already in
      the arena. */
  datatype Iterable = Text(s: string) | Ref(r: nat)

  /** The stream `n`, stored at index `i` of an arena with `nb` buffers,
      refers only to earlier streams and existing buffers. */
  predicate Fits(n: Node, i: nat, nb: nat)
  {
    match n
    case Base(_, _) => true
    case Chain(parts, cursor) =>
      0 < |parts| && cursor < |parts| && forall k :: 0 <= k < |parts| ==> parts[k] < i
    case Recorder(inner, b) => inner < i && b < nb
  }

  predicate NodeOk(h: Heap, i: nat)
    requires i < |h.nodes|
  {
    Fits(h.nodes[i], i, |h.buffers|)
  }

  predicate Valid(h: Heap)
  {
    forall i :: 0 <= i < |h.nodes| ==> Fits(h.nodes[i], i, |h.buffers|)
  }

  predicate Has(h: Heap, r: nat)
  {
    r < |h.nodes|
  }

  predicate IterableOk(h: Heap, it: Iterable)
  {
    it.Ref? ==> Has(h, it.r)
  }

  predicate SameLinks(a: Node, b: Node)
  {
    match a
    case Base(_, _) => b.Base?
    case Chain(p, _) => b.Chain? && b.parts == p
    case Recorder(i, k) => b.Recorder? && b.inner == i && b.buffer == k
  }

  /** The same streams with the same links and the same buffers; only
      positions and buffer contents may differ. */
  predicate SameShape(h: Heap, h': Heap)
  {
    |h'.nodes| == |h.nodes| && |h'.buffers| == |h.buffers|
    && forall i :: 0 <= i < |h.nodes| ==> SameLinks(h.nodes[i], h'.nodes[i])
  }

  /** `h'` is `h` after allocating and stepping: nothing disappears and
      no link changes. */
  predicate Grown(h: Heap, h': Heap)
  {
    |h'.nodes| >= |h.nodes| && |h'.buffers| >= |h.buffers|
    && forall i :: 0 <= i < |h.nodes| ==> SameLinks(h.nodes[i], h'.nodes[i])
  }

  lemma GrownTrans(h1: Heap, h2: Heap, h3: Heap)
    requires Grown(h1, h2) && Grown(h2, h3)
    ensures Grown(h1, h3)
  {
    forall i | 0 <= i < |h1.nodes| ensures SameLinks(h1.nodes[i], h3.nodes[i]) {
      assert SameLinks(h1.nodes[i], h2.nodes[i]) && SameLinks(h2.nodes[i], h3.nodes[i]);
    }
  }

  function SetNode(h: Heap, r: nat, n: Node): (h': Heap)
    requires Valid(h) && Has(h, r) && SameLinks(h.nodes[r], n) && (n.Chain? ==> n.cursor < |n.parts|)
    ensures Valid(h') && SameShape(h, h') && h'.buffers == h.buffers
    ensures h'.nodes == h.nodes[r := n]
  {
    var h' := h.(nodes := h.nodes[r := n]);
    assert Fits(h'.nodes[r], r, |h.buffers|) by { assert Fits(h.nodes[r], r, |h.buffers|); }
    h'
  }

  function Record(h: Heap, b: nat, c: char): (h': Heap)
    requires Valid(h) && b < |h.buffers|
    ensures Valid(h') && SameShape(h, h') && h'.nodes == h.nodes
    ensures h'.buffers == h.buffers[b := h.buffers[b] + [c]]
  {
    h.(buffers := h.buffers[b := h.buffers[b] + [c]])
  }

  /** `next()` of the stream `r`. */
  function Next(h: Heap, r: nat): (res: (Chunk, Heap))
    requires Valid(h) && Has(h, r)
    ensures Valid(res.1) && SameShape(h, res.1)
    decreases r, 1, 0
  {
    match h.nodes[r]
    case Base(pk, rest) =>
      if pk.Some? then (pk.value, SetNode(h, r, Base(None, rest)))
      else if rest == [] then (Done, h)
      else (Char(rest[0]), SetNode(h, r, Base(None, rest[1..])))
    case Recorder(inner, b) =>
      assert NodeOk(h, r);
      var (c, h1) := Next(h, inner);
      if c.Char? then (c, Record(h1, b, c.c)) else (c, h1)
    case Chain(parts, cursor) =>
      assert NodeOk(h, r);
      var (c, h1) := Next(h, parts[cursor]);
      ChainAdvance(h1, r, cursor, c)
  }

  /** The loop of `iterSeq`'s `next`: while the current part is done, move
      to the following part; past the last part, report done. */
  function ChainAdvance(h: Heap, r: nat, cursor: nat, c: Chunk): (res: (Chunk, Heap))
    requires Valid(h) && Has(h, r) && h.nodes[r].Chain? && cursor < |h.nodes[r].parts|
    ensures Valid(res.1) && SameShape(h, res.1)
    decreases r, 0, |h.nodes[r].parts| - cursor
  {
    var parts := h.nodes[r].parts;
    if c.Char? || cursor + 1 == |parts| then
      (c, SetNode(h, r, Chain(parts, cursor)))
    else
      assert NodeOk(h, r);
      var (c2, h2) := Next(h, parts[cursor + 1]);
      assert SameLinks(h.nodes[r], h2.nodes[r]);
      ChainAdvance(h2, r, cursor + 1, c2)
  }

  /** `peak()`: the next chunk, kept for the following `next()`. */
  function Peek(h: Heap, r: nat): (res: (Chunk, Heap))
    requires Valid(h) && Has(h, r)
    ensures Valid(res.1) && SameShape(h, res.1) && res.1.buffers == h.buffers
    decreases r
  {
    match h.nodes[r]
    case Base(pk, rest) =>
      if pk.Some? then (pk.value, h)
      else if rest == [] then (Done, SetNode(h, r, Base(Some(Done), [])))
      else (Char(rest[0]), SetNode(h, r, Base(Some(Char(rest[0])), rest[1..])))
    case Recorder(inner, _) =>
      assert NodeOk(h, r);
      Peek(h, inner)
    case Chain(parts, cursor) =>
      assert NodeOk(h, r);
      Peek(h, parts[cursor])
  }

  /** `revert(chars)`: the characters are yielded again before whatever the
      stream would have yielded next. Buffers are never touched. */
  function Revert(h: Heap, r: nat, chars: seq<char>): (h': Heap)
    requires Valid(h) && Has(h, r)
    ensures Valid(h') && SameShape(h, h') && h'.buffers == h.buffers
    decreases r
  {
    match h.nodes[r]
    case Base(pk, rest) => SetNode(h, r, Base(pk, chars + rest))
    case Recorder(inner, _) =>
      assert NodeOk(h, r);
      Revert(h, inner, chars)
    case Chain(parts, cursor) =>
      assert NodeOk(h, r);
      Revert(h, parts[cursor], chars)
  }

  function Alloc(h: Heap, n: Node): (res: (Heap, nat))
    requires Valid(h) && Fits(n, |h.nodes|, |h.buffers|)
    ensures res.1 == |h.nodes| && res.0.nodes == h.nodes + [n] && res.0.buffers == h.buffers
    ensures Valid(res.0) && Grown(h, res.0) && Has(res.0, res.1)
  {
    (h.(nodes := h.nodes + [n]), |h.nodes|)
  }

  /** `intoIter`: a string gets a fresh Base stream; a stream (every kind
      has `peak`) is returned as it is, so nested parsers share it. */
  function IntoIter(h: Heap, it: Iterable): (res: (Heap, nat))
    requires Valid(h) && IterableOk(h, it)
    ensures Valid(res.0) && Grown(h, res.0) && Has(res.0, res.1) && res.0.buffers == h.buffers
    ensures it.Ref? ==> res == (h, it.r)
    ensures it.Text? ==> res.0.nodes == h.nodes + [Base(None, it.s)] && res.1 == |h.nodes|
  {
    match it
    case Ref(r) => (h, r)
    case Text(s) => Alloc(h, Base(None, s))
  }

  /** Allocates one Base stream per string part, in order. */
  function PartRefs(h: Heap, its: seq<Iterable>): (res: (Heap, seq<nat>))
    requires Valid(h) && forall k :: 0 <= k < |its| ==> IterableOk(h, its[k])
    ensures Valid(res.0) && Grown(h, res.0) && res.0.buffers == h.buffers
    ensures |res.1| == |its| && forall k :: 0 <= k < |its| ==> res.1[k] < |res.0.nodes|
    decreases |its|
  {
    if its == [] then (h, [])
    else
      var (h1, r) := IntoIter(h, its[0]);
      assert forall k :: 0 <= k < |its[1..]| ==> IterableOk(h1, its[1..][k]) by {
        forall k | 0 <= k < |its[1..]| ensures IterableOk(h1, its[1..][k]) {
          assert IterableOk(h, its[k + 1]);
        }
      }
      var (h2, rs) := PartRefs(h1, its[1..]);
      GrownTrans(h, h1, h2);
      (h2, [r] + rs)
  }

  /** `iterSeq(...iterables)`. */
  function IterSeq(h: Heap, its: seq<Iterable>): (res: (Heap, nat))
    requires Valid(h) && |its| > 0 && forall k :: 0 <= k < |its| ==> IterableOk(h, its[k])
    ensures Valid(res.0) && Grown(h, res.0) && Has(res.0, res.1) && res.0.buffers == h.buffers
  {
    var (h1, parts) := PartRefs(h, its);
    var res := Alloc(h1, Chain(parts, 0));
    GrownTrans(h, h1, res.0);
    res
  }

  /** A new empty shared array. */
  function NewBuffer(h: Heap): (res: (Heap, nat))
    ensures res.1 == |h.buffers| && res.0.buffers == h.buffers + [[]] && res.0.nodes == h.nodes
    ensures Valid(h) ==> Valid(res.0)
  {
    var h' := h.(buffers := h.buffers + [[]]);
    (h', |h.buffers|)
  }

  /** `intoBufIter(iterable, buffer)`. */
  function IntoBufIter(h: Heap, it: Iterable, b: nat): (res: (Heap, nat))
    requires Valid(h) && IterableOk(h, it) && b < |h.buffers|
    ensures Valid(res.0) && Grown(h, res.0) && Has(res.0, res.1) && res.0.buffers == h.buffers
    ensures res.0.nodes[res.1] == Recorder(IntoIter(h, it).1, b)
  {
    var (h1, r) := IntoIter(h, it);
    var res := Alloc(h1, Recorder(r, b));
    GrownTrans(h, h1, res.0);
    res
  }

  /** `isBufferedIter`: only `intoBufIter` streams have `getIter` and
      `getBuffer`. */
  predicate IsBuffered(h: Heap, it: Iterable)
  {
    it.Ref? && Has(h, it.r) && h.nodes[it.r].Recorder?
  }

  /** `buffer.splice(-n)`: removes the last `n` characters and returns them. */
  function Splice(h: Heap, b: nat, n: nat): (res: (seq<char>, Heap))
    requires b < |h.buffers| && n <= |h.buffers[b]|
    ensures res.0 == h.buffers[b][|h.buffers[b]| - n..]
    ensures res.1.nodes == h.nodes && |res.1.buffers| == |h.buffers|
    ensures res.1.buffers[b] == h.buffers[b][..|h.buffers[b]| - n]
    ensures forall k :: 0 <= k < |h.buffers| && k != b ==> res.1.buffers[k] == h.buffers[k]
    ensures Valid(h) ==> Valid(res.1)
  {
    var buf := h.buffers[b];
    var h' := h.(buffers := h.buffers[b := buf[..|buf| - n]]);
    (buf[|buf| - n..], h')
  }

  /** The chunks returned by `n` successive `next()` calls. */
  function Drain(h: Heap, r: nat, n: nat): (cs: seq<Chunk>)
    requires Valid(h) && Has(h, r)
    ensures |cs| == n
    decreases n
  {
    if n == 0 then []
    else
      var (c, h1) := Next(h, r);
      [c] + Drain(h1, r, n - 1)
  }

  function Chars(s: seq<char>): (cs: seq<Chunk>)
    ensures |cs| == |s| && forall k :: 0 <= k < |s| ==> cs[k] == Char(s[k])
  {
    if s == [] then [] else [Char(s[0])] + Chars(s[1..])
  }
}
