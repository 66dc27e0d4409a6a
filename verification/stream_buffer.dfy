/**
 * The bounded stream buffer kept per port: a deque of (timestamp, bytes)
 * entries capped at `maxSize` entries, with a running byte counter that
 * triggers eviction from the front once it exceeds the chunk size (1 MiB).
 *
 * The deque drops its oldest entry by itself when it is full, and the byte
 * counter is not told: the model keeps that drift and proves what it does.
 */
module StreamBuffers {
  import opened Wrappers
  import opened Sequences

  /** Entry cap of a buffer (`buffer_size`). */
  const BUFFER_SIZE: nat := 10000
  /** Byte count above which entries are evicted (`chunk_size`, 1 MiB). */
  const CHUNK_SIZE: nat := 1048576

  /** One buffered chunk; timestamps are integers. */
  datatype Entry = Entry(ts: int, data: seq<bv8>)

  /** The true number of payload bytes held by `s`. */
  function TotalBytes(s: seq<Entry>): nat
    decreases |s|
  {
    if |s| == 0 then 0 else |s[0].data| + TotalBytes(s[1..])
  }

  lemma {:induction false} TotalBytesConcat(a: seq<Entry>, b: seq<Entry>)
    ensures TotalBytes(a + b) == TotalBytes(a) + TotalBytes(b)
    decreases |a|
  {
    if |a| == 0 {
      assert a + b == b;
    } else {
      assert (a + b)[1..] == a[1..] + b;
      TotalBytesConcat(a[1..], b);
    }
  }

  // ---------------------------------------------------------------- append

  /** `deque.append` under `maxlen`: the last `maxLen` entries of `s + [e]`. */
  function DequeAppend(s: seq<Entry>, e: Entry, maxLen: nat): seq<Entry>
  {
    var t := s + [e];
    if |t| <= maxLen then t else t[|t| - maxLen..]
  }

  /**
   * Appending to a deque within its cap keeps everything; appending to a full
   * one drops exactly the oldest entry.
   */
  lemma DequeAppendShape(s: seq<Entry>, e: Entry, maxLen: nat)
    requires |s| <= maxLen
    ensures |s| < maxLen ==> DequeAppend(s, e, maxLen) == s + [e]
    ensures 0 < |s| == maxLen ==> DequeAppend(s, e, maxLen) == s[1..] + [e]
    ensures 0 < |s| == maxLen ==>
      TotalBytes(DequeAppend(s, e, maxLen)) + |s[0].data| == TotalBytes(s) + |e.data|
    ensures |DequeAppend(s, e, maxLen)| <= maxLen
  {
    if 0 < |s| == maxLen {
      assert (s + [e])[1..] == s[1..] + [e];
      TotalBytesConcat(s[1..], [e]);
      TotalBytesConcat(s, [e]);
    }
  }

  /** What the eviction loop leaves: the surviving entries, the counter, and whether `popleft` failed. */
  datatype Eviction = Eviction(kept: seq<Entry>, counted: int, raised: bool)

  /**
   * The eviction loop: while the counter exceeds `cap`, pop the front entry
   * and subtract its size; popping an empty deque raises.
   */
  function EvictFront(s: seq<Entry>, counted: int, cap: nat): (r: Eviction)
    ensures IsSuffix(r.kept, s)
    ensures r.counted - TotalBytes(r.kept) == counted - TotalBytes(s)
    ensures r.raised ==> r.kept == [] && r.counted > cap
    ensures !r.raised ==> r.counted <= cap
    decreases |s|
  {
    if counted <= cap then
      assert s[0..] == s;
      Eviction(s, counted, false)
    else if |s| == 0 then Eviction([], counted, true)
    else
      var r := EvictFront(s[1..], counted - |s[0].data|, cap);
      SuffixOfTail(r.kept, s);
      r
  }

  /**
   * Eviction stops at the first moment the counter fits: before the k-th pop
   * the counter, less the k entries already popped, was still above `cap`.
   */
  lemma {:induction false} EvictionStopsAtFirstFit(s: seq<Entry>, counted: int, cap: nat)
    ensures var r := EvictFront(s, counted, cap);
      forall k :: 0 <= k < |s| - |r.kept| ==> counted - TotalBytes(s[..k]) > cap
    decreases |s|
  {
    var r := EvictFront(s, counted, cap);
    if counted > cap && |s| > 0 {
      var c' := counted - |s[0].data|;
      var r' := EvictFront(s[1..], c', cap);
      assert r == r';
      EvictionStopsAtFirstFit(s[1..], c', cap);
      forall k | 0 <= k < |s| - |r.kept|
        ensures counted - TotalBytes(s[..k]) > cap
      {
        if k > 0 {
          assert s[..k][1..] == s[1..][..k - 1];
          assert TotalBytes(s[..k]) == |s[0].data| + TotalBytes(s[1..][..k - 1]);
          assert c' - TotalBytes(s[1..][..k - 1]) > cap;
        }
      }
    }
  }

  /**
   * `popleft` fails exactly when the counter's excess over the true byte
   * count (its drift) is itself above the cap.
   */
  lemma {:induction false} EvictionRaisesOnlyOnDrift(s: seq<Entry>, counted: int, cap: nat)
    ensures EvictFront(s, counted, cap).raised <==> counted - TotalBytes(s) > cap
    decreases |s|
  {
    if counted > cap && |s| > 0 {
      EvictionRaisesOnlyOnDrift(s[1..], counted - |s[0].data|, cap);
    }
  }

  /** The whole of `append`: deque append, counter increase, eviction. */
  function AppendStep(s: seq<Entry>, total: int, e: Entry, maxLen: nat): Eviction
  {
    EvictFront(DequeAppend(s, e, maxLen), total + |e.data|, CHUNK_SIZE)
  }

  /**
   * A buffer that respects its caps, and whose counter is at least the true
   * byte count, still does after an append, and the append never raises.
   */
  lemma AppendKeepsBounds(s: seq<Entry>, total: int, e: Entry, maxLen: nat)
    requires 1 <= maxLen && |s| <= maxLen && TotalBytes(s) <= total <= CHUNK_SIZE
    ensures var r := AppendStep(s, total, e, maxLen);
      && !r.raised && |r.kept| <= maxLen
      && TotalBytes(r.kept) <= r.counted <= CHUNK_SIZE
  {
    var d := DequeAppend(s, e, maxLen);
    DequeAppendShape(s, e, maxLen);
    if |s| < maxLen {
      TotalBytesConcat(s, [e]);
    }
    EvictionRaisesOnlyOnDrift(d, total + |e.data|, CHUNK_SIZE);
  }

  /**
   * With an exact counter and no deque drop, the survivors are a suffix of the
   * old entries plus the new one, and the counter is their exact size, at most 1 MiB.
   */
  lemma ExactAppendFits(s: seq<Entry>, e: Entry, maxLen: nat)
    requires |s| < maxLen
    ensures var r := AppendStep(s, TotalBytes(s), e, maxLen);
      && !r.raised && r.counted == TotalBytes(r.kept) <= CHUNK_SIZE
      && IsSuffix(r.kept, s + [e])
  {
    DequeAppendShape(s, e, maxLen);
    TotalBytesConcat(s, [e]);
  }

  /**
   * When the deque is full, the oldest entry is dropped without being
   * subtracted: the counter then exceeds the true byte count by its size.
   */
  lemma DropOverCounts(s: seq<Entry>, e: Entry)
    requires 0 < |s|
    ensures var r := AppendStep(s, TotalBytes(s), e, |s|);
      r.counted - TotalBytes(r.kept) == |s[0].data|
  {
    DequeAppendShape(s, e, |s|);
  }

  /**
   * The drift in action: with room for one entry, two chunks of 600000 bytes
   * leave the buffer empty, although the second alone fits in 1 MiB.
   */
  lemma DriftEvictsFittingChunk(a: seq<bv8>, b: seq<bv8>)
    requires |a| == 600000 && |b| == 600000
    ensures var r1 := AppendStep([], 0, Entry(0, a), 1);
      var r2 := AppendStep(r1.kept, r1.counted, Entry(1, b), 1);
      && r1.kept == [Entry(0, a)] && r1.counted == 600000
      && r2.kept == [] && r2.counted == 600000 && !r2.raised
      && TotalBytes([Entry(1, b)]) <= CHUNK_SIZE
  {
    var e1, e2 := Entry(0, a), Entry(1, b);
    assert DequeAppend([], e1, 1) == [e1];
    assert EvictFront([e1], 600000, CHUNK_SIZE) == Eviction([e1], 600000, false);
    assert DequeAppend([e1], e2, 1) == [e2];
    assert [e2][1..] == [];
    assert EvictFront([], 600000, CHUNK_SIZE) == Eviction([], 600000, false);
    assert EvictFront([e2], 1200000, CHUNK_SIZE) == Eviction([], 600000, false);
    assert TotalBytes([e2]) == 600000;
  }

  /** A buffer with no entry room drops every chunk, and an oversized one makes `popleft` raise. */
  lemma ZeroCapacityRaises(e: Entry)
    requires |e.data| > CHUNK_SIZE
    ensures AppendStep([], 0, e, 0) == Eviction([], |e.data|, true)
  {
    assert DequeAppend([], e, 0) == [];
  }

  // ---------------------------------------------------------------- queries

  /** Inclusive time window; a missing bound is unbounded. */
  predicate InWindow(ts: int, start: Option<int>, end: Option<int>)
  {
    (start.None? || ts >= start.value) && (end.None? || ts <= end.value)
  }

  /** `get_data`: the entries whose timestamp lies in the window, in buffer order. */
  function Select(s: seq<Entry>, start: Option<int>, end: Option<int>): seq<Entry>
    decreases |s|
  {
    if |s| == 0 then []
    else (if InWindow(s[0].ts, start, end) then [s[0]] else []) + Select(s[1..], start, end)
  }

  /** An entry is selected exactly when it is buffered and its timestamp lies in the window. */
  lemma {:induction false} SelectMembers(s: seq<Entry>, start: Option<int>, end: Option<int>)
    ensures forall e :: e in Select(s, start, end) <==> e in s && InWindow(e.ts, start, end)
    decreases |s|
  {
    if |s| > 0 {
      SelectMembers(s[1..], start, end);
      assert s == [s[0]] + s[1..];
    }
  }

  /** Selection preserves order: selecting from a concatenation concatenates the selections. */
  lemma {:induction false} SelectConcat(a: seq<Entry>, b: seq<Entry>, start: Option<int>, end: Option<int>)
    ensures Select(a + b, start, end) == Select(a, start, end) + Select(b, start, end)
    decreases |a|
  {
    if |a| == 0 {
      assert a + b == b;
    } else {
      assert (a + b)[1..] == a[1..] + b;
      SelectConcat(a[1..], b, start, end);
    }
  }

  /** The length of the leading run of entries older than `before`. */
  function OldPrefixLen(s: seq<Entry>, before: int): (k: nat)
    ensures k <= |s|
    ensures forall i :: 0 <= i < k ==> s[i].ts < before
    ensures k < |s| ==> s[k].ts >= before
    decreases |s|
  {
    if |s| == 0 || s[0].ts >= before then 0 else 1 + OldPrefixLen(s[1..], before)
  }

  // ---------------------------------------------------------------- the buffer

  class StreamBuffer {
    /** The deque's `maxlen`. */
    const maxSize: nat
    /** The deque's contents, oldest first. */
    var entries: seq<Entry>
    /** The running byte counter (`_total_size`). */
    var totalSize: int

    /** Entry cap respected, counter within 1 MiB and never below the true size. */
    ghost predicate Valid()
      reads this
    {
      |entries| <= maxSize && TotalBytes(entries) <= totalSize <= CHUNK_SIZE
    }

    constructor (maxSize: nat)
      ensures this.maxSize == maxSize && entries == [] && totalSize == 0 && Valid()
    {
      this.maxSize := maxSize;
      entries := [];
      totalSize := 0;
    }

    /**
     * Appends one entry and evicts from the front while the counter exceeds
     * 1 MiB. `raised` reports `popleft` on an empty deque; the state is then
     * left as the loop had it.
     */
    method Append(ts: int, data: seq<bv8>) returns (raised: bool)
      modifies this
      ensures var r := AppendStep(old(entries), old(totalSize), Entry(ts, data), maxSize);
        entries == r.kept && totalSize == r.counted && raised == r.raised
      ensures old(Valid()) && maxSize >= 1 ==> Valid() && !raised
    {
      ghost var r := AppendStep(entries, totalSize, Entry(ts, data), maxSize);
      ghost var wasValid := Valid();
      if wasValid && maxSize >= 1 {
        AppendKeepsBounds(entries, totalSize, Entry(ts, data), maxSize);
      }
      entries := DequeAppend(entries, Entry(ts, data), maxSize);
      totalSize := totalSize + |data|;
      assert EvictFront(entries, totalSize, CHUNK_SIZE) == r;
      raised := EvictOverflow();
    }

    /**
     * The eviction loop of `append`: pops the front entry and subtracts its
     * size while the counter exceeds 1 MiB; `raised` when the deque runs empty first.
     */
    method EvictOverflow() returns (raised: bool)
      modifies this
      ensures var r := EvictFront(old(entries), old(totalSize), CHUNK_SIZE);
        entries == r.kept && totalSize == r.counted && raised == r.raised
    {
      ghost var goal := EvictFront(entries, totalSize, CHUNK_SIZE);
      raised := false;
      while totalSize > CHUNK_SIZE && !raised
        invariant !raised ==> EvictFront(entries, totalSize, CHUNK_SIZE) == goal
        invariant raised ==> goal == Eviction(entries, totalSize, true)
        decreases |entries|, !raised
      {
        if |entries| == 0 {
          raised := true;
        } else {
          totalSize := totalSize - |entries[0].data|;
          entries := entries[1..];
        }
      }
    }

    /** `get_data`: the entries in the inclusive window, in buffer order. */
    function GetData(start: Option<int>, end: Option<int>): seq<Entry>
      reads this
    {
      Select(entries, start, end)
    }

    /**
     * Pops entries from the front while the oldest is older than `before`,
     * subtracting each size from the counter; later entries stay as they are.
     */
    method ClearOldData(before: int)
      modifies this
      ensures var k := OldPrefixLen(old(entries), before);
        && entries == old(entries)[k..]
        && totalSize == old(totalSize) - TotalBytes(old(entries)[..k])
      ensures old(Valid()) ==> Valid()
    {
      ghost var s0 := entries;
      ghost var k := OldPrefixLen(s0, before);
      ghost var i := 0;
      while |entries| > 0 && entries[0].ts < before
        invariant 0 <= i <= |s0| && entries == s0[i..]
        invariant forall j :: 0 <= j < i ==> s0[j].ts < before
        invariant totalSize == old(totalSize) - TotalBytes(s0[..i])
        decreases |entries|
      {
        assert s0[..i + 1] == s0[..i] + [s0[i]];
        TotalBytesConcat(s0[..i], [s0[i]]);
        totalSize := totalSize - |entries[0].data|;
        entries := entries[1..];
        i := i + 1;
      }
      assert s0 == s0[..k] + s0[k..];
      TotalBytesConcat(s0[..k], s0[k..]);
    }
  }
}
