/**
 * The byte-level checks the frame analyzer relies on: the Modbus RTU CRC-16
 * (section 2.5.1.2 of the MODBUS over Serial Line Specification V1.02), the
 * XOR parity byte of marker-delimited frames, and the first-occurrence
 * searches with which the analyzer locates start and end markers.
 */
module FrameChecks {
  import opened Wrappers

  /** CRC register seed and the reflected generator polynomial. */
  const CRC_INIT: bv32 := 0xFFFF
  const CRC_POLY: bv32 := 0xA001

  /** Start markers in the order they are tried: STX, then SOH. */
  const START_MARKERS: seq<bv8> := [0x02, 0x01]
  /** End markers in the order they are tried: ETX, then EOT. */
  const END_MARKERS: seq<bv8> := [0x03, 0x04]

  // ---------------------------------------------------------------- CRC-16

  /**
   * `n` rounds of the shift step: shift right one bit, and XOR with the
   * polynomial when the bit shifted out was set. The register is wider than
   * 16 bits (the source uses an unbounded integer), so the bound is proved.
   */
  function CrcRounds(crc: bv32, n: nat): (r: bv32)
    ensures crc < 0x1_0000 ==> r < 0x1_0000
    decreases n
  {
    if n == 0 then crc
    else CrcRounds(if crc & 1 == 1 then (crc >> 1) ^ CRC_POLY else crc >> 1, n - 1)
  }

  /** Folds one byte into the register: XOR into the low byte, then eight rounds. */
  function CrcUpdate(crc: bv32, b: bv8): (r: bv32)
    ensures crc < 0x1_0000 ==> r < 0x1_0000
  {
    CrcRounds(crc ^ (b as bv32), 8)
  }

  /** The register after folding `data` in order, starting from `crc`. */
  function CrcFrom(crc: bv32, data: seq<bv8>): (r: bv32)
    ensures crc < 0x1_0000 ==> r < 0x1_0000
    decreases |data|
  {
    if |data| == 0 then crc else CrcFrom(CrcUpdate(crc, data[0]), data[1..])
  }

  /** The Modbus CRC-16 of a message: it always fits in 16 bits. */
  function Crc16(data: seq<bv8>): (r: bv32)
    ensures r < 0x1_0000
  {
    CrcFrom(CRC_INIT, data)
  }

  /** The unsigned 16-bit little-endian value of two bytes (`struct.unpack('<H', ...)`). */
  function LittleEndian16(lo: bv8, hi: bv8): bv32
  {
    (lo as bv32) | ((hi as bv32) << 8)
  }

  /** Low and high byte of a 16-bit value, in the order they travel on the line. */
  function CrcBytes(crc: bv32): (r: seq<bv8>)
    requires crc < 0x1_0000
    ensures |r| == 2 && LittleEndian16(r[0], r[1]) == crc
  {
    [(crc & 0xFF) as bv8, (crc >> 8) as bv8]
  }

  /**
   * The analyzer's CRC test: at least 4 bytes, and the CRC-16 of all bytes
   * but the last two equals the last two read little-endian.
   */
  predicate CheckModbusCrc(data: seq<bv8>)
  {
    |data| >= 4 && Crc16(data[..|data| - 2]) == LittleEndian16(data[|data| - 2], data[|data| - 1])
  }

  /** The CRC loop: the register is folded byte by byte, eight shift rounds per byte. */
  method ComputeCrc16(data: seq<bv8>) returns (crc: bv32)
    ensures crc == Crc16(data) && crc < 0x1_0000
  {
    crc := CRC_INIT;
    var i := 0;
    while i < |data|
      invariant 0 <= i <= |data|
      invariant CrcFrom(crc, data[i..]) == Crc16(data)
    {
      crc := crc ^ (data[i] as bv32);
      ghost var folded := CrcRounds(crc, 8);
      var k := 0;
      while k < 8
        invariant 0 <= k <= 8
        invariant CrcRounds(crc, 8 - k) == folded
      {
        if crc & 1 == 1 {
          crc := (crc >> 1) ^ CRC_POLY;
        } else {
          crc := crc >> 1;
        }
        k := k + 1;
      }
      assert data[i..][1..] == data[i + 1..];
      i := i + 1;
    }
    assert data[|data|..] == [];
  }

  /** The analyzer's CRC test as the source runs it: too short fails, else compare. */
  method ModbusCrcMatches(data: seq<bv8>) returns (ok: bool)
    ensures ok == CheckModbusCrc(data)
    ensures ok ==> |data| >= 4 && data[|data| - 2..] == CrcBytes(Crc16(data[..|data| - 2]))
  {
    if |data| < 4 {
      return false;
    }
    var crc := ComputeCrc16(data[..|data| - 2]);
    ok := crc == LittleEndian16(data[|data| - 2], data[|data| - 1]);
    if ok {
      var c := CrcBytes(crc);
      LittleEndian16Injective(c[0], c[1], data[|data| - 2], data[|data| - 1]);
      assert data[|data| - 2..] == [data[|data| - 2], data[|data| - 1]];
    }
  }

  /** Distinct byte pairs give distinct 16-bit values. */
  lemma LittleEndian16Injective(lo: bv8, hi: bv8, lo': bv8, hi': bv8)
    requires LittleEndian16(lo, hi) == LittleEndian16(lo', hi')
    ensures lo == lo' && hi == hi'
  {
    assert (LittleEndian16(lo, hi) & 0xFF) as bv8 == lo;
    assert (LittleEndian16(lo', hi') & 0xFF) as bv8 == lo';
    assert (LittleEndian16(lo, hi) >> 8) as bv8 == hi;
    assert (LittleEndian16(lo', hi') >> 8) as bv8 == hi';
  }

  /**
   * Round trip: a message of at least two bytes followed by its CRC, low
   * byte first, passes the check; and any other pair of trailing bytes fails.
   */
  lemma CrcAppendedPasses(msg: seq<bv8>, lo: bv8, hi: bv8)
    requires |msg| >= 2
    ensures CheckModbusCrc(msg + CrcBytes(Crc16(msg)))
    ensures CheckModbusCrc(msg + [lo, hi]) <==> [lo, hi] == CrcBytes(Crc16(msg))
  {
    var good := CrcBytes(Crc16(msg));
    var frame := msg + [lo, hi];
    assert (msg + good)[..|msg|] == msg;
    assert frame[..|frame| - 2] == msg;
    if CheckModbusCrc(frame) {
      LittleEndian16Injective(lo, hi, good[0], good[1]);
    }
  }

  /** The reference request 01 03 00 00 00 01 carries the CRC bytes 84 0A. */
  lemma CrcReferenceVector()
    ensures Crc16([0x01, 0x03, 0x00, 0x00, 0x00, 0x01]) == 0x0A84
    ensures CheckModbusCrc([0x01, 0x03, 0x00, 0x00, 0x00, 0x01, 0x84, 0x0A])
  {
    var msg: seq<bv8> := [0x01, 0x03, 0x00, 0x00, 0x00, 0x01];
    var frame: seq<bv8> := msg + [0x84, 0x0A];
    assert frame[..|frame| - 2] == msg;
    CrcReferenceRegisters();
    assert CrcFrom(0x0A84, []) == 0x0A84;
    assert CrcFrom(0x8419, [0x01]) == 0x0A84;
    assert CrcFrom(0xD8F1, [0x00, 0x01]) == 0x0A84;
    assert CrcFrom(0xF020, [0x00, 0x00, 0x01]) == 0x0A84;
    assert CrcFrom(0x2140, [0x00, 0x00, 0x00, 0x01]) == 0x0A84;
    assert CrcFrom(0x807E, [0x03, 0x00, 0x00, 0x00, 0x01]) == 0x0A84;
    assert LittleEndian16(0x84, 0x0A) == 0x0A84;
    assert frame == [0x01, 0x03, 0x00, 0x00, 0x00, 0x01, 0x84, 0x0A];
  }

  /** The register after each byte of the reference request. */
  lemma CrcReferenceRegisters()
    ensures CrcUpdate(0xFFFF, 0x01) == 0x807E && CrcUpdate(0x807E, 0x03) == 0x2140
    ensures CrcUpdate(0x2140, 0x00) == 0xF020 && CrcUpdate(0xF020, 0x00) == 0xD8F1
    ensures CrcUpdate(0xD8F1, 0x00) == 0x8419 && CrcUpdate(0x8419, 0x01) == 0x0A84
  {
  }

  // ---------------------------------------------------------------- parity

  /** XOR of all bytes, accumulated left to right from 0. */
  function Parity(data: seq<bv8>): bv8
    decreases |data|
  {
    if |data| == 0 then 0 else Parity(data[..|data| - 1]) ^ data[|data| - 1]
  }

  /** The parity loop: XOR of the bytes seen so far. */
  method CalculateParity(data: seq<bv8>) returns (parity: bv8)
    ensures parity == Parity(data)
  {
    parity := 0;
    for i := 0 to |data|
      invariant parity == Parity(data[..i])
    {
      assert data[..i + 1][..i] == data[..i];
      parity := parity ^ data[i];
    }
    assert data[..|data|] == data;
  }

  /** Parity of a concatenation is the XOR of the parities. */
  lemma {:induction false} ParityAppend(a: seq<bv8>, b: seq<bv8>)
    ensures Parity(a + b) == Parity(a) ^ Parity(b)
    decreases |b|
  {
    if |b| == 0 {
      assert a + b == a;
    } else {
      var b' := b[..|b| - 1];
      assert (a + b)[..|a + b| - 1] == a + b';
      ParityAppend(a, b');
    }
  }

  /** A payload followed by its own parity byte has parity zero. */
  lemma ParityOfSealed(p: seq<bv8>)
    ensures Parity(p + [Parity(p)]) == 0
  {
    ParityAppend(p, [Parity(p)]);
    assert Parity([Parity(p)]) == Parity([]) ^ Parity(p);
  }

  // ---------------------------------------------------------------- search

  /** `s.index(x, from)`: the first index at or after `from` holding `x`, if any. */
  function FirstIndex(s: seq<bv8>, x: bv8, from: nat): (r: Option<nat>)
    ensures r.Some? ==> from <= r.value < |s| && s[r.value] == x
    ensures r.Some? ==> forall j :: from <= j < r.value ==> s[j] != x
    ensures r.None? <==> forall j :: from <= j < |s| ==> s[j] != x
    decreases |s| - from
  {
    if from >= |s| then None
    else if s[from] == x then Some(from)
    else FirstIndex(s, x, from + 1)
  }

  /** Where a marker-delimited frame sits in the buffer, and which markers bound it. */
  datatype Span = Span(start: bv8, end: bv8, startIdx: nat, endIdx: nat)

  /**
   * Given a start marker found at `si`, tries the end markers in order and
   * takes the first occurrence after `si` of the first one that occurs.
   */
  function FindEnd(buf: seq<bv8>, start: bv8, si: nat, ends: seq<bv8>): (r: Option<Span>)
    ensures r.Some? ==> r.value.start == start && r.value.startIdx == si
    ensures r.Some? ==> r.value.end in ends && si < r.value.endIdx < |buf|
    ensures r.Some? ==> buf[r.value.endIdx] == r.value.end
    decreases |ends|
  {
    if |ends| == 0 then None
    else match FirstIndex(buf, ends[0], si + 1)
      case Some(ei) => Some(Span(start, ends[0], si, ei))
      case None => FindEnd(buf, start, si, ends[1..])
  }

  /**
   * Tries the start markers in order: the first occurrence of a start marker
   * for which some end marker follows gives the span.
   */
  function FindSpan(buf: seq<bv8>, starts: seq<bv8>, ends: seq<bv8>): (r: Option<Span>)
    ensures r.Some? ==> r.value.start in starts && r.value.end in ends
    ensures r.Some? ==> r.value.startIdx < r.value.endIdx < |buf|
    ensures r.Some? ==> buf[r.value.startIdx] == r.value.start && buf[r.value.endIdx] == r.value.end
    decreases |starts|
  {
    if |starts| == 0 then None
    else match FirstIndex(buf, starts[0], 0)
      case None => FindSpan(buf, starts[1..], ends)
      case Some(si) =>
        match FindEnd(buf, starts[0], si, ends)
        case Some(sp) => Some(sp)
        case None => FindSpan(buf, starts[1..], ends)
  }

  /** True when some end marker occurs after index `si`. */
  predicate EndFollows(buf: seq<bv8>, si: nat)
  {
    exists j :: si < j < |buf| && (buf[j] == 0x03 || buf[j] == 0x04)
  }

  /** The attempt with one start marker: its first occurrence, then the end markers. */
  function TryStart(buf: seq<bv8>, start: bv8): Option<Span>
  {
    match FirstIndex(buf, start, 0)
    case None => None
    case Some(si) => FindEnd(buf, start, si, END_MARKERS)
  }

  /** With the two fixed marker lists the search is: STX attempt, else SOH attempt. */
  lemma FindSpanFixed(buf: seq<bv8>)
    ensures FindSpan(buf, START_MARKERS, END_MARKERS)
         == if TryStart(buf, 0x02).Some? then TryStart(buf, 0x02) else TryStart(buf, 0x01)
  {
    assert START_MARKERS[1..] == [0x01];
    assert START_MARKERS[1..][1..] == [];
  }

  /**
   * With the two fixed end markers: the first ETX after `si`, else the first
   * EOT after `si`, and nothing exactly when no end marker follows.
   */
  lemma FindEndFixed(buf: seq<bv8>, start: bv8, si: nat)
    ensures var r := FindEnd(buf, start, si, END_MARKERS);
      && (FirstIndex(buf, 0x03, si + 1).Some? ==>
            r == Some(Span(start, 0x03, si, FirstIndex(buf, 0x03, si + 1).value)))
      && (FirstIndex(buf, 0x03, si + 1).None? ==>
            r == match FirstIndex(buf, 0x04, si + 1)
                 case Some(ei) => Some(Span(start, 0x04, si, ei))
                 case None => None)
      && (r.None? <==> !EndFollows(buf, si))
  {
    assert END_MARKERS[1..] == [0x04];
    assert END_MARKERS[1..][1..] == [];
    var r := FindEnd(buf, start, si, END_MARKERS);
    if r.Some? {
      assert si < r.value.endIdx < |buf| && buf[r.value.endIdx] in END_MARKERS;
    } else {
      assert FirstIndex(buf, 0x03, si + 1).None? && FirstIndex(buf, 0x04, si + 1).None?;
    }
  }

  /**
   * Where the span starts: at the first occurrence of its start marker; at
   * STX whenever an end marker follows the first STX, and at SOH only when
   * there is no STX or no end marker after the first one. There is no span
   * exactly when neither start marker is followed by an end marker.
   */
  lemma MarkerSearchStart(buf: seq<bv8>)
    ensures var r := FindSpan(buf, START_MARKERS, END_MARKERS);
      && (r.Some? ==> FirstIndex(buf, r.value.start, 0) == Some(r.value.startIdx))
      && (r.Some? && r.value.start == 0x02 ==> EndFollows(buf, r.value.startIdx))
      && (r.Some? && r.value.start == 0x01 <==>
            (FirstIndex(buf, 0x02, 0).None? || !EndFollows(buf, FirstIndex(buf, 0x02, 0).value)) &&
            FirstIndex(buf, 0x01, 0).Some? && EndFollows(buf, FirstIndex(buf, 0x01, 0).value))
      && (r.None? <==>
            (FirstIndex(buf, 0x02, 0).None? || !EndFollows(buf, FirstIndex(buf, 0x02, 0).value)) &&
            (FirstIndex(buf, 0x01, 0).None? || !EndFollows(buf, FirstIndex(buf, 0x01, 0).value)))
  {
    FindSpanFixed(buf);
    var stx := FirstIndex(buf, 0x02, 0);
    var soh := FirstIndex(buf, 0x01, 0);
    if stx.Some? {
      FindEndFixed(buf, 0x02, stx.value);
    }
    if soh.Some? {
      FindEndFixed(buf, 0x01, soh.value);
    }
  }

  /**
   * Where the span ends: at the first ETX after its start, or, when no ETX
   * follows the start, at the first EOT after it.
   */
  lemma MarkerSearchEnd(buf: seq<bv8>)
    ensures var r := FindSpan(buf, START_MARKERS, END_MARKERS);
      && (r.Some? && r.value.end == 0x03 ==>
            FirstIndex(buf, 0x03, r.value.startIdx + 1) == Some(r.value.endIdx))
      && (r.Some? && r.value.end == 0x04 ==>
            FirstIndex(buf, 0x03, r.value.startIdx + 1).None? &&
            FirstIndex(buf, 0x04, r.value.startIdx + 1) == Some(r.value.endIdx))
  {
    FindSpanFixed(buf);
    var r := FindSpan(buf, START_MARKERS, END_MARKERS);
    if r.Some? {
      FindEndFixed(buf, r.value.start, r.value.startIdx);
      assert r == FindEnd(buf, r.value.start, r.value.startIdx, END_MARKERS);
    }
  }
}
