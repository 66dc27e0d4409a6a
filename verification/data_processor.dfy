/**
 * The data processor: per-port stream buffers, named match patterns and named
 * filters kept in registration order, the per-chunk pattern/filter pass, and
 * the search and statistics queries over a buffer.
 *
 * A compiled pattern is a literal byte string: it occurs in data when it is a
 * contiguous slice of it, and a filter removes its occurrences left to right
 * without overlap. Compiling a pattern string is a parameter of the model
 * (`compile`), which yields None for a pattern that does not compile.
 */
module DataProcessing {
  import opened Wrappers
  import opened StreamBuffers

  // ---------------------------------------------------------------- literal patterns

  /** `p` occurs in `d` at index `i`. */
  predicate MatchesAt(d: seq<bv8>, p: seq<bv8>, i: nat)
  {
    i + |p| <= |d| && d[i..i + |p|] == p
  }

  /** `pattern.search(d)` succeeds; the empty pattern occurs in everything. */
  predicate Occurs(p: seq<bv8>, d: seq<bv8>)
  {
    exists i: nat :: i <= |d| && MatchesAt(d, p, i)
  }

  /** `pattern.sub(b'', d)`: occurrences of `p` removed left to right, without overlap. */
  function RemoveAll(d: seq<bv8>, p: seq<bv8>): (r: seq<bv8>)
    ensures |r| <= |d|
    decreases |d|
  {
    if |p| == 0 || |d| < |p| then d
    else if d[..|p|] == p then RemoveAll(d[|p|..], p)
    else [d[0]] + RemoveAll(d[1..], p)
  }

  /** Past a non-matching first byte, occurrences are those of the tail, shifted by one. */
  lemma OccursTail(p: seq<bv8>, d: seq<bv8>)
    requires |p| > 0 && |d| >= |p| && d[..|p|] != p
    ensures Occurs(p, d) <==> Occurs(p, d[1..])
  {
    if Occurs(p, d) {
      var i: nat :| i <= |d| && MatchesAt(d, p, i);
      assert i > 0;
      assert d[1..][i - 1..i - 1 + |p|] == d[i..i + |p|];
      assert MatchesAt(d[1..], p, i - 1);
    }
    if Occurs(p, d[1..]) {
      var i: nat :| i <= |d[1..]| && MatchesAt(d[1..], p, i);
      assert d[1..][i..i + |p|] == d[i + 1..i + 1 + |p|];
      assert MatchesAt(d, p, i + 1);
    }
  }

  /**
   * A filter changes the data exactly when its pattern is non-empty and
   * occurs in it, and then the data gets strictly shorter.
   */
  lemma {:induction false} RemoveAllChanges(d: seq<bv8>, p: seq<bv8>)
    ensures !Occurs(p, d) || |p| == 0 ==> RemoveAll(d, p) == d
    ensures Occurs(p, d) && |p| > 0 ==> |RemoveAll(d, p)| < |d|
    decreases |d|
  {
    if |p| == 0 {
    } else if |d| < |p| {
      assert !Occurs(p, d);
    } else if d[..|p|] == p {
      assert MatchesAt(d, p, 0);
    } else {
      OccursTail(p, d);
      RemoveAllChanges(d[1..], p);
      if !Occurs(p, d) {
        assert [d[0]] + d[1..] == d;
      }
    }
  }

  // ---------------------------------------------------------------- ordered registries

  predicate NoDup(s: seq<string>)
  {
    forall i, j :: 0 <= i < j < |s| ==> s[i] != s[j]
  }

  /** `s` without `x`, other names keeping their order. */
  function Without(s: seq<string>, x: string): (r: seq<string>)
    ensures forall y :: y in r <==> y in s && y != x
    ensures NoDup(s) ==> NoDup(r)
    decreases |s|
  {
    if |s| == 0 then []
    else if s[0] == x then Without(s[1..], x)
    else
      var rest := Without(s[1..], x);
      assert NoDup(s) ==> s[0] !in s[1..];
      [s[0]] + rest
  }

  /**
   * A name → compiled pattern dictionary that remembers insertion order:
   * overwriting keeps a name's place, deleting removes it, adding a new name
   * puts it last.
   */
  datatype Registry = Registry(order: seq<string>, table: map<string, seq<bv8>>) {

    /** Every registered name appears once in the order, and nothing else does. */
    ghost predicate Valid()
    {
      NoDup(order) && forall n :: n in order <==> n in table
    }

    /** `d[name] = v`. */
    function Put(name: string, v: seq<bv8>): (r: Registry)
      ensures r.table == table[name := v]
      ensures name in table ==> r.order == order
      ensures name !in table ==> r.order == order + [name]
      ensures Valid() ==> r.Valid()
    {
      if name in table then Registry(order, table[name := v])
      else Registry(order + [name], table[name := v])
    }

    /** `del d[name]`. */
    function Delete(name: string): (r: Registry)
      ensures r.table == table - {name} && name !in r.order
      ensures forall n :: n != name ==> (n in r.order <==> n in order)
      ensures Valid() ==> r.Valid()
    {
      Registry(Without(order, name), table - {name})
    }
  }

  // ---------------------------------------------------------------- chunk processing

  /** The signals the processor emits, returned instead. */
  datatype Event =
    | PatternMatched(port: string, name: string, data: seq<bv8>)
    | DataFiltered(port: string, data: seq<bv8>)

  /** One `pattern_matched` per pattern, in registration order, that occurs in `data`. */
  function MatchEvents(port: string, names: seq<string>, table: map<string, seq<bv8>>,
                       data: seq<bv8>): (r: seq<Event>)
    requires forall n :: n in names ==> n in table
    ensures forall e :: e in r <==>
      exists n :: n in names && Occurs(table[n], data) && e == PatternMatched(port, n, data)
    ensures |r| <= |names|
    decreases |names|
  {
    if |names| == 0 then []
    else
      var n := names[|names| - 1];
      var prefix := names[..|names| - 1];
      assert forall m :: m in names <==> m in prefix || m == n;
      MatchEvents(port, prefix, table, data) +
        (if Occurs(table[n], data) then [PatternMatched(port, n, data)] else [])
  }

  /** The filters applied in registration order, each to the previous output. */
  function ApplyFilters(names: seq<string>, table: map<string, seq<bv8>>, data: seq<bv8>): (r: seq<bv8>)
    requires forall n :: n in names ==> n in table
    ensures |r| <= |data|
    decreases |names|
  {
    if |names| == 0 then data
    else RemoveAll(ApplyFilters(names[..|names| - 1], table, data), table[names[|names| - 1]])
  }

  /** When no filter pattern occurs in the data, filtering returns it unchanged. */
  lemma {:induction false} ApplyFiltersAbsent(names: seq<string>, table: map<string, seq<bv8>>,
                                             data: seq<bv8>)
    requires forall n :: n in names ==> n in table && !Occurs(table[n], data)
    ensures ApplyFilters(names, table, data) == data
    decreases |names|
  {
    if |names| > 0 {
      var prefix := names[..|names| - 1];
      assert forall m :: m in prefix ==> m in names;
      ApplyFiltersAbsent(prefix, table, data);
      RemoveAllChanges(data, table[names[|names| - 1]]);
    }
  }

  /** A single filter changes the data exactly when its non-empty pattern occurs in it. */
  lemma SingleFilterChanges(name: string, table: map<string, seq<bv8>>, data: seq<bv8>)
    requires name in table
    ensures ApplyFilters([name], table, data) != data <==> |table[name]| > 0 && Occurs(table[name], data)
  {
    assert [name][..0] == [];
    RemoveAllChanges(data, table[name]);
  }

  /** What one chunk yields: the filtered data and the signals, pattern matches first. */
  function ChunkEvents(port: string, patterns: Registry, filters: Registry, data: seq<bv8>): seq<Event>
    requires patterns.Valid() && filters.Valid()
  {
    var out := ApplyFilters(filters.order, filters.table, data);
    MatchEvents(port, patterns.order, patterns.table, data) +
      (if out != data then [DataFiltered(port, out)] else [])
  }

  /**
   * `data_filtered` is emitted at most once, last, and exactly when the
   * output differs from the input; no filter occurring means no such signal.
   */
  lemma ChunkEventsFiltered(port: string, patterns: Registry, filters: Registry, data: seq<bv8>)
    requires patterns.Valid() && filters.Valid()
    ensures var out := ApplyFilters(filters.order, filters.table, data);
      var ev := ChunkEvents(port, patterns, filters, data);
      && (DataFiltered(port, out) in ev <==> out != data)
      && (forall i :: 0 <= i < |ev| - 1 ==> ev[i].PatternMatched?)
    ensures (forall n :: n in filters.table ==> !Occurs(filters.table[n], data)) ==>
      ApplyFilters(filters.order, filters.table, data) == data &&
      ChunkEvents(port, patterns, filters, data) == MatchEvents(port, patterns.order, patterns.table, data)
  {
    var out := ApplyFilters(filters.order, filters.table, data);
    var me := MatchEvents(port, patterns.order, patterns.table, data);
    var ev := ChunkEvents(port, patterns, filters, data);
    assert forall i :: 0 <= i < |me| ==> me[i] in me;
    if forall n :: n in filters.table ==> !Occurs(filters.table[n], data) {
      ApplyFiltersAbsent(filters.order, filters.table, data);
    }
  }

  // ---------------------------------------------------------------- queries

  /** The entries whose payload contains `p`, in buffer order. */
  function Matching(s: seq<Entry>, p: seq<bv8>): seq<Entry>
    decreases |s|
  {
    if |s| == 0 then []
    else
      var last := s[|s| - 1];
      Matching(s[..|s| - 1], p) + (if Occurs(p, last.data) then [last] else [])
  }

  /** An entry is matched exactly when it is in `s` and its payload contains `p`. */
  lemma {:induction false} MatchingMembers(s: seq<Entry>, p: seq<bv8>)
    ensures forall e :: e in Matching(s, p) <==> e in s && Occurs(p, e.data)
    decreases |s|
  {
    if |s| > 0 {
      MatchingMembers(s[..|s| - 1], p);
      assert s == s[..|s| - 1] + [s[|s| - 1]];
    }
  }

  /** Matching keeps buffer order: matching a concatenation concatenates the matches. */
  lemma {:induction false} MatchingConcat(a: seq<Entry>, b: seq<Entry>, p: seq<bv8>)
    ensures Matching(a + b, p) == Matching(a, p) + Matching(b, p)
    decreases |b|
  {
    if |b| == 0 {
      assert a + b == a;
    } else {
      assert (a + b)[..|a + b| - 1] == a + b[..|b| - 1];
      MatchingConcat(a, b[..|b| - 1], p);
    }
  }

  /** The smallest payload size. */
  function MinSize(s: seq<Entry>): (m: nat)
    requires |s| > 0
    ensures exists i :: 0 <= i < |s| && |s[i].data| == m
    ensures forall i :: 0 <= i < |s| ==> m <= |s[i].data|
    decreases |s|
  {
    if |s| == 1 then |s[0].data|
    else
      var m := MinSize(s[1..]);
      assert forall i :: 1 <= i < |s| ==> s[i] == s[1..][i - 1];
      if |s[0].data| <= m then |s[0].data| else m
  }

  /** The largest payload size. */
  function MaxSize(s: seq<Entry>): (m: nat)
    requires |s| > 0
    ensures exists i :: 0 <= i < |s| && |s[i].data| == m
    ensures forall i :: 0 <= i < |s| ==> |s[i].data| <= m
    decreases |s|
  {
    if |s| == 1 then |s[0].data|
    else
      var m := MaxSize(s[1..]);
      assert forall i :: 1 <= i < |s| ==> s[i] == s[1..][i - 1];
      if |s[0].data| >= m then |s[0].data| else m
  }

  /** The integer statistics of a selection. */
  datatype Stats = Stats(totalBytes: nat, packetCount: nat, minPacketSize: nat, maxPacketSize: nat)

  /** `{}` for an empty selection, else the integer fields of `get_statistics`. */
  function StatsOf(s: seq<Entry>): Option<Stats>
  {
    if |s| == 0 then None else Some(Stats(TotalBytes(s), |s|, MinSize(s), MaxSize(s)))
  }

  /** Every payload at least (at most) `b` bytes bounds the total from below (above). */
  lemma {:induction false} TotalBytesBounds(s: seq<Entry>, lo: nat, hi: nat)
    requires forall i :: 0 <= i < |s| ==> lo <= |s[i].data| <= hi
    ensures |s| * lo <= TotalBytes(s) <= |s| * hi
    decreases |s|
  {
    if |s| > 0 {
      assert forall i :: 1 <= i < |s| ==> s[1..][i - 1] == s[i];
      TotalBytesBounds(s[1..], lo, hi);
      assert |s| * lo == lo + (|s| - 1) * lo;
      assert |s| * hi == hi + (|s| - 1) * hi;
    }
  }

  /**
   * Statistics exist exactly for a non-empty selection; then the count is the
   * number of entries, the minimum is at most the maximum, and the total lies
   * between count × minimum and count × maximum.
   */
  lemma StatsConsistent(s: seq<Entry>)
    ensures StatsOf(s).None? <==> s == []
    ensures StatsOf(s).Some? ==>
      var st := StatsOf(s).value;
      && st.packetCount == |s| && st.totalBytes == TotalBytes(s)
      && st.minPacketSize <= st.maxPacketSize
      && st.packetCount * st.minPacketSize <= st.totalBytes <= st.packetCount * st.maxPacketSize
  {
    if |s| > 0 {
      TotalBytesBounds(s, MinSize(s), MaxSize(s));
    }
  }

  // ---------------------------------------------------------------- the processor

  class DataProcessor {
    /** Compiling a pattern string (`re.compile(pattern.encode())`); None when it does not compile. */
    const compile: string -> Option<seq<bv8>>
    var buffers: map<string, StreamBuffer>
    var patterns: Registry
    var filters: Registry

    /**
     * Both registries well formed; every buffer within its caps, created with
     * the default size, and owned by its port alone (each port gets its own).
     */
    ghost predicate Valid()
      reads this, buffers.Values
    {
      && patterns.Valid() && filters.Valid()
      && (forall p :: p in buffers ==> buffers[p].Valid() && buffers[p].maxSize == BUFFER_SIZE)
      && (forall p, q :: p in buffers && q in buffers && p != q ==> buffers[p] != buffers[q])
    }

    constructor (compile: string -> Option<seq<bv8>>)
      ensures this.compile == compile && buffers == map[]
      ensures patterns == Registry([], map[]) && filters == Registry([], map[])
      ensures Valid()
    {
      this.compile := compile;
      buffers := map[];
      patterns := Registry([], map[]);
      filters := Registry([], map[]);
    }

    /** `add_pattern`: False and no change when the pattern does not compile; else store or overwrite. */
    method AddPattern(name: string, pattern: string) returns (ok: bool)
      requires Valid()
      modifies this
      ensures ok <==> compile(pattern).Some?
      ensures patterns == if ok then old(patterns).Put(name, compile(pattern).value) else old(patterns)
      ensures filters == old(filters) && buffers == old(buffers) && Valid()
    {
      var compiled := compile(pattern);
      if compiled.None? {
        return false;
      }
      patterns := patterns.Put(name, compiled.value);
      ok := true;
    }

    /** `remove_pattern`: True exactly when the name was registered, and then only it goes. */
    method RemovePattern(name: string) returns (ok: bool)
      requires Valid()
      modifies this
      ensures ok <==> name in old(patterns).table
      ensures patterns == if ok then old(patterns).Delete(name) else old(patterns)
      ensures filters == old(filters) && buffers == old(buffers) && Valid()
    {
      if name in patterns.table {
        patterns := patterns.Delete(name);
        return true;
      }
      return false;
    }

    /** `add_filter`: as `add_pattern`, on the filter registry. */
    method AddFilter(name: string, pattern: string) returns (ok: bool)
      requires Valid()
      modifies this
      ensures ok <==> compile(pattern).Some?
      ensures filters == if ok then old(filters).Put(name, compile(pattern).value) else old(filters)
      ensures patterns == old(patterns) && buffers == old(buffers) && Valid()
    {
      var compiled := compile(pattern);
      if compiled.None? {
        return false;
      }
      filters := filters.Put(name, compiled.value);
      ok := true;
    }

    /** `remove_filter`: as `remove_pattern`, on the filter registry. */
    method RemoveFilter(name: string) returns (ok: bool)
      requires Valid()
      modifies this
      ensures ok <==> name in old(filters).table
      ensures filters == if ok then old(filters).Delete(name) else old(filters)
      ensures patterns == old(patterns) && buffers == old(buffers) && Valid()
    {
      if name in filters.table {
        filters := filters.Delete(name);
        return true;
      }
      return false;
    }

    /**
     * `_process_chunk`: every pattern is tested against the original data,
     * then the filters are applied in order; a change is signalled last.
     */
    method ProcessChunk(port: string, data: seq<bv8>) returns (out: seq<bv8>, events: seq<Event>)
      requires patterns.Valid() && filters.Valid()
      ensures out == ApplyFilters(filters.order, filters.table, data)
      ensures events == ChunkEvents(port, patterns, filters, data)
    {
      events := [];
      var names := patterns.order;
      for i := 0 to |names|
        invariant events == MatchEvents(port, names[..i], patterns.table, data)
      {
        assert names[..i + 1][..i] == names[..i];
        var p := patterns.table[names[i]];
        if Occurs(p, data) {
          events := events + [PatternMatched(port, names[i], data)];
        }
      }
      assert names[..|names|] == names;
      out := data;
      var order := filters.order;
      for i := 0 to |order|
        invariant out == ApplyFilters(order[..i], filters.table, data)
      {
        assert order[..i + 1][..i] == order[..i];
        out := RemoveAll(out, filters.table[order[i]]);
      }
      assert order[..|order|] == order;
      if out != data {
        events := events + [DataFiltered(port, out)];
      }
    }

    /**
     * `process_data`: the chunk is appended, timestamped `now`, to the port's
     * buffer (created on first use), then processed.
     */
    method ProcessData(port: string, data: seq<bv8>, now: int) returns (out: seq<bv8>, events: seq<Event>)
      requires Valid()
      modifies this, if port in buffers then {buffers[port]} else {}
      ensures port in buffers
      ensures port in old(buffers) ==> buffers == old(buffers)
      ensures port !in old(buffers) ==> fresh(buffers[port]) && buffers == old(buffers)[port := buffers[port]]
      ensures port in old(buffers) ==>
        var r := AppendStep(old(buffers[port].entries), old(buffers[port].totalSize), Entry(now, data), BUFFER_SIZE);
        buffers[port].entries == r.kept && buffers[port].totalSize == r.counted
      ensures port !in old(buffers) ==>
        var r := AppendStep([], 0, Entry(now, data), BUFFER_SIZE);
        buffers[port].entries == r.kept && buffers[port].totalSize == r.counted
      ensures forall q :: q in old(buffers) && q != port ==>
        buffers[q] == old(buffers[q]) && buffers[q].entries == old(buffers[q].entries)
        && buffers[q].totalSize == old(buffers[q].totalSize)
      ensures patterns == old(patterns) && filters == old(filters) && Valid()
      ensures out == ApplyFilters(filters.order, filters.table, data)
      ensures events == ChunkEvents(port, patterns, filters, data)
    {
      Store(port, data, now);
      out, events := ProcessChunk(port, data);
    }

    /** The buffering half of `process_data`. */
    method Store(port: string, data: seq<bv8>, now: int)
      requires Valid()
      modifies this, if port in buffers then {buffers[port]} else {}
      ensures port in buffers
      ensures port in old(buffers) ==> buffers == old(buffers)
      ensures port !in old(buffers) ==> fresh(buffers[port]) && buffers == old(buffers)[port := buffers[port]]
      ensures port in old(buffers) ==>
        var r := AppendStep(old(buffers[port].entries), old(buffers[port].totalSize), Entry(now, data), BUFFER_SIZE);
        buffers[port].entries == r.kept && buffers[port].totalSize == r.counted
      ensures port !in old(buffers) ==>
        var r := AppendStep([], 0, Entry(now, data), BUFFER_SIZE);
        buffers[port].entries == r.kept && buffers[port].totalSize == r.counted
      ensures forall q :: q in old(buffers) && q != port ==>
        buffers[q] == old(buffers[q]) && buffers[q].entries == old(buffers[q].entries)
        && buffers[q].totalSize == old(buffers[q].totalSize)
      ensures patterns == old(patterns) && filters == old(filters) && Valid()
    {
      if port in buffers {
        AppendTo(port, data, now);
      } else {
        var b := new StreamBuffer(BUFFER_SIZE);
        buffers := buffers[port := b];
        AppendTo(port, data, now);
      }
    }

    /** Appends the timestamped chunk to the port's existing buffer; every buffer stays valid. */
    method AppendTo(port: string, data: seq<bv8>, now: int)
      requires Valid() && port in buffers
      modifies buffers[port]
      ensures var r := AppendStep(old(buffers[port].entries), old(buffers[port].totalSize),
                                  Entry(now, data), BUFFER_SIZE);
        buffers[port].entries == r.kept && buffers[port].totalSize == r.counted
      ensures forall q :: q in old(buffers) && q != port ==>
        buffers[q].entries == old(buffers[q].entries)
        && buffers[q].totalSize == old(buffers[q].totalSize)
      ensures buffers == old(buffers) && Valid()
    {
      var b := buffers[port];
      var raised := b.Append(now, data);
      forall q | q in buffers
        ensures buffers[q].Valid() && buffers[q].maxSize == BUFFER_SIZE
      {
        if buffers[q] != b {
          assert buffers[q].entries == old(buffers[q].entries);
        }
      }
    }

    /**
     * `search_data`: nothing for an unknown port or a pattern that does not
     * compile; else the in-window entries whose payload contains the pattern.
     */
    method SearchData(port: string, pattern: string, start: Option<int>, end: Option<int>)
      returns (results: seq<Entry>)
      ensures port !in buffers || compile(pattern).None? ==> results == []
      ensures port in buffers && compile(pattern).Some? ==>
        results == Matching(buffers[port].GetData(start, end), compile(pattern).value)
    {
      if port !in buffers {
        return [];
      }
      var compiled := compile(pattern);
      if compiled.None? {
        return [];
      }
      var p := compiled.value;
      var selected := buffers[port].GetData(start, end);
      results := [];
      for i := 0 to |selected|
        invariant results == Matching(selected[..i], p)
      {
        assert selected[..i + 1][..i] == selected[..i];
        if Occurs(p, selected[i].data) {
          results := results + [selected[i]];
        }
      }
      assert selected[..|selected|] == selected;
    }

    /** `get_statistics` (integer fields): `{}` for an unknown port or an empty window. */
    function Statistics(port: string, start: Option<int>, end: Option<int>): (r: Option<Stats>)
      reads this, buffers.Values
      ensures r.None? <==> port !in buffers || buffers[port].GetData(start, end) == []
      ensures r.Some? ==> r == StatsOf(buffers[port].GetData(start, end))
    {
      if port !in buffers then None else StatsOf(buffers[port].GetData(start, end))
    }

    /**
     * `clear_data`: a non-empty port name gets a fresh empty buffer when it
     * has one; no name, or the empty name, drops every buffer.
     */
    method ClearData(port: Option<string>)
      requires Valid()
      modifies this
      ensures patterns == old(patterns) && filters == old(filters) && Valid()
      ensures port.None? || port.value == [] ==> buffers == map[]
      ensures port.Some? && port.value != [] ==>
        var p := port.value;
        && buffers.Keys == old(buffers).Keys
        && (forall q :: q in buffers && q != p ==> buffers[q] == old(buffers)[q])
        && (p in buffers ==> fresh(buffers[p]) && buffers[p].entries == [] && buffers[p].totalSize == 0)
    {
      if port.Some? && port.value != [] {
        if port.value in buffers {
          var b := new StreamBuffer(BUFFER_SIZE);
          buffers := buffers[port.value := b];
        }
      } else {
        buffers := map[];
      }
    }
  }
}
