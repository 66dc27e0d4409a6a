/**
 * The chunk grouper of the visualisation: byte chunks arrive one at a time
 * and are gathered into groups that are yielded, joined, as soon as the
 * bytes counted since the last group reach the chunk size; what is left at
 * the end is yielded as a last group.
 *
 * The pending list is a field and survives the call (it is not emptied after
 * the last group), while the byte counter is a local that starts at zero on
 * every call.
 */
module ChunkedData {

  type Chunk = seq<bv8>

  /** `b''.join(chunks)`. */
  function Flatten(chunks: seq<Chunk>): seq<bv8>
    decreases |chunks|
  {
    if |chunks| == 0 then [] else chunks[0] + Flatten(chunks[1..])
  }

  /** The number of bytes in `chunks`. */
  function Size(chunks: seq<Chunk>): nat
  {
    |Flatten(chunks)|
  }

  lemma {:induction false} FlattenConcat(a: seq<Chunk>, b: seq<Chunk>)
    ensures Flatten(a + b) == Flatten(a) + Flatten(b)
    decreases |a|
  {
    if |a| == 0 {
      assert a + b == b;
    } else {
      assert (a + b)[1..] == a[1..] + b;
      FlattenConcat(a[1..], b);
    }
  }

  /** The concatenation of a list of chunk lists. */
  function Concat(parts: seq<seq<Chunk>>): seq<Chunk>
    decreases |parts|
  {
    if |parts| == 0 then [] else parts[0] + Concat(parts[1..])
  }

  /** Each group joined into one byte string, as yielded. */
  function Joined(parts: seq<seq<Chunk>>): (r: seq<seq<bv8>>)
    ensures |r| == |parts| && forall k :: 0 <= k < |r| ==> r[k] == Flatten(parts[k])
    decreases |parts|
  {
    if |parts| == 0 then [] else [Flatten(parts[0])] + Joined(parts[1..])
  }

  /** The groups of one call, as chunk lists, and the pending list it leaves behind. */
  datatype Grouping = Grouping(parts: seq<seq<Chunk>>, leftover: seq<Chunk>)

  /**
   * The generator loop from a pending list and a byte counter: each chunk is
   * counted and appended; reaching `chunkSize` closes the group and resets
   * both; at the end a non-empty pending list is yielded and kept.
   */
  function Scan(chunkSize: int, pending: seq<Chunk>, size: int, input: seq<Chunk>): Grouping
    decreases |input|
  {
    if |input| == 0 then Grouping(if |pending| > 0 then [pending] else [], pending)
    else
      var p := pending + [input[0]];
      var s := size + |input[0]|;
      if s >= chunkSize then
        var r := Scan(chunkSize, [], 0, input[1..]);
        Grouping([p] + r.parts, r.leftover)
      else Scan(chunkSize, p, s, input[1..])
  }

  /**
   * Nothing is lost or duplicated within one call: the groups, in order, are
   * the pending chunks followed by the input chunks; so are their bytes.
   */
  lemma {:induction false} ScanPreservesChunks(chunkSize: int, pending: seq<Chunk>, size: int,
                                              input: seq<Chunk>)
    ensures Concat(Scan(chunkSize, pending, size, input).parts) == pending + input
    decreases |input|
  {
    if |input| == 0 {
      assert pending + input == pending;
      if |pending| > 0 {
        assert Concat([pending]) == pending + Concat([]);
      }
    } else {
      var p := pending + [input[0]];
      assert p + input[1..] == pending + input;
      if size + |input[0]| >= chunkSize {
        ScanPreservesChunks(chunkSize, [], 0, input[1..]);
        var r := Scan(chunkSize, [], 0, input[1..]);
        assert ([p] + r.parts)[1..] == r.parts;
        assert [] + input[1..] == input[1..];
      } else {
        ScanPreservesChunks(chunkSize, p, size + |input[0]|, input[1..]);
      }
    }
  }

  lemma {:induction false} FlattenJoined(parts: seq<seq<Chunk>>)
    ensures Flatten(Joined(parts)) == Flatten(Concat(parts))
    decreases |parts|
  {
    if |parts| > 0 {
      FlattenJoined(parts[1..]);
      FlattenConcat(parts[0], Concat(parts[1..]));
      assert ([Flatten(parts[0])] + Joined(parts[1..]))[1..] == Joined(parts[1..]);
    }
  }

  /** On a fresh handler the yielded bytes are exactly the input bytes, in order. */
  lemma FreshScanKeepsBytes(chunkSize: int, input: seq<Chunk>)
    ensures Flatten(Joined(Scan(chunkSize, [], 0, input).parts)) == Flatten(input)
  {
    ScanPreservesChunks(chunkSize, [], 0, input);
    FlattenJoined(Scan(chunkSize, [], 0, input).parts);
    assert [] + input == input;
  }

  /**
   * A group closed by the threshold: non-empty, at least `chunkSize` bytes,
   * and below it without its last chunk (unless that chunk is all of it).
   */
  predicate Closed(part: seq<Chunk>, chunkSize: int)
  {
    && |part| > 0 && Size(part) >= chunkSize
    && (|part| == 1 || Size(part[..|part| - 1]) < chunkSize)
  }

  /**
   * When the counter matches the pending bytes, every group but a trailing
   * pending one is closed by the threshold; the trailing one, if any, is the
   * leftover.
   */
  lemma {:induction false} ScanGroupsClosed(chunkSize: int, pending: seq<Chunk>, size: int,
                                           input: seq<Chunk>)
    requires size == Size(pending) && (pending == [] || size < chunkSize)
    ensures var g := Scan(chunkSize, pending, size, input);
      && (forall k :: 0 <= k < |g.parts| && (k < |g.parts| - 1 || g.leftover == []) ==>
            Closed(g.parts[k], chunkSize))
      && (g.leftover != [] ==> |g.parts| > 0 && g.parts[|g.parts| - 1] == g.leftover)
    decreases |input|
  {
    if |input| > 0 {
      var p := pending + [input[0]];
      var s := size + |input[0]|;
      FlattenConcat(pending, [input[0]]);
      assert Flatten([input[0]]) == input[0] + Flatten([]);
      assert s == Size(p);
      if s >= chunkSize {
        ScanGroupsClosed(chunkSize, [], 0, input[1..]);
        assert p[..|p| - 1] == pending;
        assert Closed(p, chunkSize);
        var r := Scan(chunkSize, [], 0, input[1..]);
        var parts := [p] + r.parts;
        assert forall k :: 1 <= k < |parts| ==> parts[k] == r.parts[k - 1];
      } else {
        ScanGroupsClosed(chunkSize, p, s, input[1..]);
      }
    }
  }

  /** On a fresh handler, every yielded group except possibly the last has at least `chunkSize` bytes. */
  lemma FreshGroupsReachChunkSize(chunkSize: int, input: seq<Chunk>)
    ensures var groups := Joined(Scan(chunkSize, [], 0, input).parts);
      forall k :: 0 <= k < |groups| - 1 ==> |groups[k]| >= chunkSize
  {
    ScanGroupsClosed(chunkSize, [], 0, input);
  }

  /** Empty chunks never reach a positive threshold: they all end up in one last group, also kept. */
  lemma {:induction false} EmptyChunksOneGroup(chunkSize: int, pending: seq<Chunk>, input: seq<Chunk>)
    requires chunkSize > 0 && pending + input != []
    requires forall c :: c in pending + input ==> c == []
    ensures Scan(chunkSize, pending, 0, input) == Grouping([pending + input], pending + input)
    decreases |input|
  {
    if |input| > 0 {
      assert input[0] in pending + input;
      assert (pending + [input[0]]) + input[1..] == pending + input;
      EmptyChunksOneGroup(chunkSize, pending + [input[0]], input[1..]);
    }
  }

  /** Example: only empty chunks, on a fresh handler, yield one empty group. */
  lemma OnlyEmptyChunks(chunkSize: int, n: nat)
    requires chunkSize > 0 && n > 0
    ensures Joined(Scan(chunkSize, [], 0, seq(n, _ => [])).parts) == [[]]
  {
    var input: seq<Chunk> := seq(n, _ => []);
    assert [] + input == input;
    EmptyChunksOneGroup(chunkSize, [], input);
    assert forall k :: 0 <= k < n ==> input[k] == [];
    FlattenConcat([], input);
    EmptyFlatten(input);
  }

  lemma {:induction false} EmptyFlatten(chunks: seq<Chunk>)
    requires forall k :: 0 <= k < |chunks| ==> chunks[k] == []
    ensures Flatten(chunks) == []
    decreases |chunks|
  {
    if |chunks| > 0 {
      EmptyFlatten(chunks[1..]);
    }
  }

  class ChunkedDataHandler {
    const chunkSize: int
    /** The pending chunks; survives between calls. */
    var currentChunk: seq<Chunk>

    constructor (chunkSize: int)
      ensures this.chunkSize == chunkSize && currentChunk == []
    {
      this.chunkSize := chunkSize;
      currentChunk := [];
    }

    /**
     * `process_large_dataset`, run to completion: the groups it yields, each
     * joined (`_process_chunk` only reinterprets the bytes), and the pending
     * list left in the field.
     */
    method ProcessLargeDataset(input: seq<Chunk>) returns (groups: seq<seq<bv8>>)
      modifies this
      ensures groups == Joined(Scan(chunkSize, old(currentChunk), 0, input).parts)
      ensures currentChunk == Scan(chunkSize, old(currentChunk), 0, input).leftover
    {
      ghost var goal := Scan(chunkSize, currentChunk, 0, input);
      var currentSize := 0;
      groups := [];
      ghost var done: seq<seq<Chunk>> := [];
      for i := 0 to |input|
        invariant groups == Joined(done)
        invariant var g := Scan(chunkSize, currentChunk, currentSize, input[i..]);
          done + g.parts == goal.parts && g.leftover == goal.leftover
      {
        assert input[i..][1..] == input[i + 1..];
        currentSize := currentSize + |input[i]|;
        currentChunk := currentChunk + [input[i]];
        if currentSize >= chunkSize {
          JoinedSnoc(done, currentChunk);
          groups := groups + [Flatten(currentChunk)];
          done := done + [currentChunk];
          currentChunk := [];
          currentSize := 0;
        }
      }
      if |currentChunk| > 0 {
        JoinedSnoc(done, currentChunk);
        groups := groups + [Flatten(currentChunk)];
        done := done + [currentChunk];
      }
    }
  }

  lemma JoinedSnoc(parts: seq<seq<Chunk>>, p: seq<Chunk>)
    ensures Joined(parts + [p]) == Joined(parts) + [Flatten(p)]
  {
  }

  /**
   * The pending list is not emptied after the last group: a second call
   * yields the leftover again, in front of its first group. With a threshold
   * of 4, [1 2] then [3 4 5 6] yield [1 2] and then [1 2 3 4 5 6].
   */
  lemma LeftoverYieldedAgain()
    ensures var first := Scan(4, [], 0, [[1, 2]]);
      var second := Scan(4, first.leftover, 0, [[3, 4, 5, 6]]);
      && Joined(first.parts) == [[1, 2]] && first.leftover == [[1, 2]]
      && Joined(second.parts) == [[1, 2, 3, 4, 5, 6]] && second.leftover == []
  {
    var a: Chunk := [1, 2];
    var b: Chunk := [3, 4, 5, 6];
    var one: seq<Chunk> := [a];
    assert [] + one == one && one[1..] == [];
    assert Scan(4, [], 0, one) == Scan(4, one, 2, []);
    assert Flatten(one) == a;
    assert Joined([one]) == [a];
    assert [b][1..] == [];
    assert Scan(4, [], 0, []) == Grouping([], []);
    assert [a] + [b] == [a, b];
    assert [a, b][1..] == [b];
    assert Flatten([a, b]) == a + Flatten([b]);
    assert Flatten([b]) == b;
    assert a + b == [1, 2, 3, 4, 5, 6];
  }
}
