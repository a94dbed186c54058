/** The stream objects of src/helpers/index.ts as one mutable arena: each
    closure's reassigned variables (`nextValue`, `iter`, `cursor`) are the
    node stored at its index, and every shared `buffer` array is an entry
    of `buffers`. Each method is proved to leave the arena in the state the
    matching function of module Stream computes. */
module Arenas {
  import opened Protocol
  import opened Stream

  class Arena {
    var nodes: seq<Node>
    var buffers: seq<seq<char>>

    function State(): Heap
      reads this
    {
      Heap(nodes, buffers)
    }

    predicate Ok()
      reads this
    {
      Valid(State())
    }

    constructor ()
      ensures State() == Heap([], []) && Ok()
    {
      nodes := [];
      buffers := [];
    }

    /** `next()` of stream `r`; the Chain case is `iterSeq`'s loop that
        skips exhausted parts. */
    method Next(r: nat) returns (c: Chunk)
      requires Ok() && Has(State(), r)
      modifies this
      ensures (c, State()) == Stream.Next(old(State()), r)
      decreases r, 1
    {
      var n := nodes[r];
      match n
      case Base(pk, rest) =>
        if pk.Some? {
          c := pk.value;
          nodes := nodes[r := Base(None, rest)];
        } else if rest == [] {
          c := Done;
        } else {
          c := Char(rest[0]);
          nodes := nodes[r := Base(None, rest[1..])];
        }
      case Recorder(inner, b) =>
        assert NodeOk(State(), r);
        c := Next(inner);
        if c.Char? {
          buffers := buffers[b := buffers[b] + [c.c]];
        }
      case Chain(_, _) =>
        c := NextInChain(r);
    }

    /** `next()` of an `iterSeq` stream: its loop that skips exhausted parts. */
    method NextInChain(r: nat) returns (c: Chunk)
      requires Ok() && Has(State(), r) && nodes[r].Chain?
      modifies this
      ensures (c, State()) == Stream.Next(old(State()), r)
      decreases r, 0
    {
      var parts, cursor := nodes[r].parts, nodes[r].cursor;
      assert NodeOk(State(), r);
      ghost var n := |nodes|;
      c := Next(parts[cursor]);
      ghost var goal := Stream.ChainAdvance(State(), r, cursor, c);
      var k := cursor;
      while c.Done? && k + 1 < |parts|
        invariant Ok() && |nodes| == n && r < n && k < |parts|
        invariant nodes[r].Chain? && nodes[r].parts == parts
        invariant forall i :: 0 <= i < |parts| ==> parts[i] < r
        invariant Stream.ChainAdvance(State(), r, k, c) == goal
        decreases |parts| - k
      {
        k := k + 1;
        c := Next(parts[k]);
      }
      nodes := nodes[r := Chain(parts, k)];
    }

    /** `peak()`. */
    method Peek(r: nat) returns (c: Chunk)
      requires Ok() && Has(State(), r)
      modifies this
      ensures (c, State()) == Stream.Peek(old(State()), r)
      decreases r
    {
      match nodes[r]
      case Base(pk, rest) =>
        if pk.Some? {
          c := pk.value;
        } else if rest == [] {
          c := Done;
          nodes := nodes[r := Base(Some(Done), [])];
        } else {
          c := Char(rest[0]);
          nodes := nodes[r := Base(Some(c), rest[1..])];
        }
      case Recorder(inner, _) =>
        assert NodeOk(State(), r);
        c := Peek(inner);
      case Chain(parts, cursor) =>
        assert NodeOk(State(), r);
        c := Peek(parts[cursor]);
    }

    /** `revert(chars)`. */
    method Revert(r: nat, chars: seq<char>)
      requires Ok() && Has(State(), r)
      modifies this
      ensures State() == Stream.Revert(old(State()), r, chars)
      decreases r
    {
      match nodes[r]
      case Base(pk, rest) =>
        nodes := nodes[r := Base(pk, chars + rest)];
      case Recorder(inner, _) =>
        assert NodeOk(State(), r);
        Revert(inner, chars);
      case Chain(parts, cursor) =>
        assert NodeOk(State(), r);
        Revert(parts[cursor], chars);
    }

    /** `intoIter`. */
    method IntoIter(it: Iterable) returns (r: nat)
      requires Ok() && IterableOk(State(), it)
      modifies this
      ensures (State(), r) == Stream.IntoIter(old(State()), it)
    {
      match it
      case Ref(x) =>
        r := x;
      case Text(s) =>
        r := |nodes|;
        nodes := nodes + [Base(None, s)];
    }

    /** `iterSeq(...its)`: one stream per part, then the chain over them. */
    method IterSeq(its: seq<Iterable>) returns (r: nat)
      requires Ok() && |its| > 0 && forall k :: 0 <= k < |its| ==> IterableOk(State(), its[k])
      modifies this
      ensures (State(), r) == Stream.IterSeq(old(State()), its)
    {
      ghost var h0 := State();
      ghost var goal := Stream.PartRefs(h0, its);
      var parts: seq<nat> := [];
      var i := 0;
      assert its[0..] == its;
      assert parts + goal.1 == goal.1;
      while i < |its|
        invariant 0 <= i <= |its| && Ok()
        invariant forall k :: i <= k < |its| ==> IterableOk(State(), its[k])
        invariant forall k :: 0 <= k < |its[i..]| ==> IterableOk(State(), its[i..][k])
        invariant Stream.PartRefs(State(), its[i..]).0 == goal.0
        invariant parts + Stream.PartRefs(State(), its[i..]).1 == goal.1
        invariant Grown(h0, State()) && State().buffers == h0.buffers
      {
        ghost var h := State();
        assert its[i..][0] == its[i] && its[i..][1..] == its[i + 1..];
        var p := IntoIter(its[i]);
        ghost var rs := Stream.PartRefs(State(), its[i + 1..]).1;
        assert Stream.PartRefs(h, its[i..]).1 == [p] + rs;
        assert parts + ([p] + rs) == (parts + [p]) + rs;
        parts := parts + [p];
        GrownTrans(h0, h, State());
        i := i + 1;
      }
      assert its[i..] == [];
      assert parts + [] == parts;
      assert State() == goal.0 && parts == goal.1;
      r := |nodes|;
      nodes := nodes + [Chain(parts, 0)];
    }

    /** A new empty shared array. */
    method NewBuffer() returns (b: nat)
      modifies this
      ensures (State(), b) == Stream.NewBuffer(old(State()))
    {
      b := |buffers|;
      buffers := buffers + [[]];
    }

    /** `intoBufIter(it, buffer)`. */
    method IntoBufIter(it: Iterable, b: nat) returns (r: nat)
      requires Ok() && IterableOk(State(), it) && b < |buffers|
      modifies this
      ensures (State(), r) == Stream.IntoBufIter(old(State()), it, b)
    {
      var inner := IntoIter(it);
      r := |nodes|;
      nodes := nodes + [Recorder(inner, b)];
    }

    /** `buffer.splice(-n)`. */
    method Splice(b: nat, n: nat) returns (chars: seq<char>)
      requires b < |buffers| && n <= |buffers[b]|
      modifies this
      ensures (chars, State()) == Stream.Splice(old(State()), b, n)
    {
      var buf := buffers[b];
      chars := buf[|buf| - n..];
      buffers := buffers[b := buf[..|buf| - n]];
    }

    /** `isBufferedIter`. */
    function IsBuffered(it: Iterable): (yes: bool)
      reads this
      ensures yes <==> it.Ref? && it.r < |nodes| && nodes[it.r].Recorder?
    {
      Stream.IsBuffered(State(), it)
    }

    /** `getIter()` of a buffered stream. */
    function GetIter(r: nat): (inner: nat)
      reads this
      requires r < |nodes| && nodes[r].Recorder?
      ensures inner == nodes[r].inner
    {
      nodes[r].inner
    }

    /** `getBuffer()` of a buffered stream: the shared array's index. */
    function GetBuffer(r: nat): (b: nat)
      reads this
      requires r < |nodes| && nodes[r].Recorder?
      ensures b == nodes[r].buffer
    {
      nodes[r].buffer
    }
  }
}
