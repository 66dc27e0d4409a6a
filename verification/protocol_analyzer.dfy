/**
 * The per-port frame analyzer: each port has a reassembly buffer and the last
 * byte seen. Every chunk is appended to the port's buffer; then the whole
 * buffer is tried as one Modbus RTU frame, and, failing that, a frame
 * delimited by STX/SOH ... ETX/EOT is looked for.
 */
module ProtocolAnalysis {
  import opened Wrappers
  import opened FrameChecks
  import opened Sequences

  /** The protocol tag: "Modbus RTU" or "RS-232/485". */
  datatype Protocol = ModbusRtu | SerialLine

  /** The frame type tag: "ModbusRequest", "ModbusErrorResponse" or "Standard". */
  datatype FrameType = ModbusRequest | ModbusErrorResponse | Standard

  /** "Framing Error: Missing stop bit", "Break Condition Detected", "Parity Error". */
  datatype FrameError = FramingError | BreakCondition | ParityError

  /**
   * The parsed fields of a frame. For Modbus, `errorCode` is None when the
   * frame has no 'error_code' entry and Some(v) when it has one, v being the
   * first payload byte or None for an empty payload.
   */
  datatype ParsedData =
    | ModbusFields(functionCode: bv8, unitId: bv8, payload: seq<bv8>, crc: seq<bv8>,
                   errorCode: Option<Option<bv8>>)
    | SerialFields(startMarker: bv8, endMarker: bv8, payload: seq<bv8>, length: nat,
                   parity: Option<bv8>)

  datatype ProtocolFrame = ProtocolFrame(
    timestamp: int,
    protocol: Protocol,
    frameType: FrameType,
    data: seq<bv8>,
    parsed: ParsedData,
    errors: seq<FrameError>)

  /** A port's reassembly buffer; a port never seen has none, which reads as empty. */
  function BufferOf(buffers: map<string, seq<bv8>>, port: string): seq<bv8>
  {
    if port in buffers then buffers[port] else []
  }

  // ---------------------------------------------------------------- Modbus

  /** What one extraction attempt yields: a frame or none, and the buffer afterwards. */
  datatype Extraction = Extraction(frame: Option<ProtocolFrame>, rest: seq<bv8>)

  /** The frame decoded from a whole buffer that passed the CRC test. */
  function ModbusFrame(buf: seq<bv8>, now: int): (f: ProtocolFrame)
    requires |buf| >= 4
    ensures f.protocol == ModbusRtu && f.data == buf && f.errors == [] && f.parsed.ModbusFields?
    ensures f.parsed.unitId == buf[0] && f.parsed.functionCode == buf[1]
    ensures buf == [buf[0], buf[1]] + f.parsed.payload + f.parsed.crc && |f.parsed.crc| == 2
    ensures f.frameType == ModbusErrorResponse <==> buf[1] & 0x80 != 0
    ensures f.frameType == ModbusRequest <==> buf[1] & 0x80 == 0
    ensures f.parsed.errorCode.Some? <==> f.frameType == ModbusErrorResponse
    ensures f.parsed.errorCode.Some? ==>
              f.parsed.errorCode.value == if |buf| > 4 then Some(buf[2]) else None
  {
    var functionCode := buf[1];
    var payload := buf[2..|buf| - 2];
    var isError := functionCode & 0x80 != 0;
    var fields := ModbusFields(
      functionCode, buf[0], payload, buf[|buf| - 2..],
      if isError then Some(if |payload| > 0 then Some(payload[0]) else None) else None);
    ProtocolFrame(now, ModbusRtu, if isError then ModbusErrorResponse else ModbusRequest,
                  buf, fields, [])
  }

  /** The Modbus attempt: a whole buffer with a good CRC is the frame and is consumed. */
  function ModbusStep(buf: seq<bv8>, now: int): (r: Extraction)
    ensures r.frame.Some? <==> CheckModbusCrc(buf)
    ensures r.frame.Some? ==> r.rest == [] && r.frame.value.data == buf
    ensures r.frame.None? ==> r.rest == buf
  {
    if CheckModbusCrc(buf) then Extraction(Some(ModbusFrame(buf, now)), []) else Extraction(None, buf)
  }

  // ---------------------------------------------------------------- marker framing

  /**
   * The line heuristics on the first buffered byte, applied only when a last
   * byte was recorded for the port: odd first byte is a framing error, zero
   * first byte a break condition; at most one of them fires.
   */
  function LineErrors(buf: seq<bv8>, seen: bool): (r: seq<FrameError>)
    requires |buf| > 0
    ensures |r| <= 1 && ParityError !in r
    ensures FramingError in r <==> seen && buf[0] & 0x01 != 0
    ensures BreakCondition in r <==> seen && buf[0] == 0
  {
    if !seen then []
    else
      (if buf[0] & 0x01 != 0 then [FramingError] else []) +
      (if buf[0] == 0 then [BreakCondition] else [])
  }

  /** Whether a marker frame's parity byte (second to last) disagrees with its body. */
  predicate ParityMismatch(frameData: seq<bv8>)
  {
    |frameData| > 3 && frameData[|frameData| - 2] != Parity(frameData[1..|frameData| - 2])
  }

  /** The frame built for the span `sp` of `buf`. */
  function SerialFrame(buf: seq<bv8>, sp: Span, seen: bool, now: int): (f: ProtocolFrame)
    requires sp.startIdx < sp.endIdx < |buf|
    ensures f.data == buf[sp.startIdx..sp.endIdx + 1]
  {
    var frameData := buf[sp.startIdx..sp.endIdx + 1];
    var n := |frameData|;
    var parity := if n > 3 then Some(Parity(frameData[1..n - 2])) else None;
    var errors := LineErrors(buf, seen) + (if ParityMismatch(frameData) then [ParityError] else []);
    ProtocolFrame(now, SerialLine, Standard, frameData,
                  SerialFields(sp.start, sp.end, frameData[1..n - 1], n, parity), errors)
  }
  /**
   * The frame built for a span: the span's slice (2+ bytes), the payload
   * between the markers, a parity field exactly for frames longer than 3
   * bytes, a parity error exactly on a mismatch, and the line errors.
   */
  lemma SerialFrameFields(buf: seq<bv8>, sp: Span, seen: bool, now: int)
    requires sp.startIdx < sp.endIdx < |buf|
    ensures var f := SerialFrame(buf, sp, seen, now);
      && f.protocol == SerialLine && f.frameType == Standard
      && f.data == buf[sp.startIdx..sp.endIdx + 1] && |f.data| >= 2
      && (ParityError in f.errors <==> ParityMismatch(f.data))
      && (FramingError in f.errors <==> seen && buf[0] & 0x01 != 0)
      && (BreakCondition in f.errors <==> seen && buf[0] == 0)
      && f.parsed.SerialFields? && f.parsed.payload == f.data[1..|f.data| - 1]
      && (f.parsed.parity.Some? <==> |f.data| > 3)
  {
  }


  /** At least two bytes, opened by a start marker and closed by an end marker. */
  predicate MarkerBounded(d: seq<bv8>)
  {
    |d| >= 2 && d[0] in START_MARKERS && d[|d| - 1] in END_MARKERS
  }

  /**
   * One marker-framing attempt on `buf`; `seen` says whether a last byte was
   * recorded. There is a frame exactly when the buffer has 3+ bytes and a
   * span; it is a slice bounded by a start and an end marker, everything up
   * to and including the end marker is consumed, and without a frame
   * nothing is.
   */
  function SerialStep(buf: seq<bv8>, seen: bool, now: int): (r: Extraction)
    ensures r.frame.None? ==> r.rest == buf
    ensures r.frame.None? <==> |buf| < 3 || FindSpan(buf, START_MARKERS, END_MARKERS).None?
    ensures r.frame.Some? ==>
      MarkerBounded(r.frame.value.data) && IsSuffix(r.frame.value.data + r.rest, buf)
  {
    if |buf| < 3 then Extraction(None, buf)
    else SerialStepAt(buf, FindSpan(buf, START_MARKERS, END_MARKERS), seen, now)
  }

  /**
   * The extraction for the outcome `span` of the marker search: nothing, or
   * the span's frame followed by the bytes after it.
   */
  function SerialStepAt(buf: seq<bv8>, span: Option<Span>, seen: bool, now: int): (r: Extraction)
    requires span.Some? ==>
      var sp := span.value;
      && sp.startIdx < sp.endIdx < |buf| && sp.start in START_MARKERS && sp.end in END_MARKERS
      && buf[sp.startIdx] == sp.start && buf[sp.endIdx] == sp.end
    ensures r.frame.Some? <==> span.Some?
    ensures r.frame.None? ==> r.rest == buf
    ensures r.frame.Some? ==>
      MarkerBounded(r.frame.value.data) && IsSuffix(r.frame.value.data + r.rest, buf)
  {
    match span
    case None => Extraction(None, buf)
    case Some(sp) =>
      SpanSlice(buf, sp);
      Extraction(Some(SerialFrame(buf, sp, seen, now)), buf[sp.endIdx + 1..])
  }

  /** The last-byte table after a marker-framing attempt on `buf`. */
  function NextLastByte(lastByte: map<string, bv8>, port: string, buf: seq<bv8>): map<string, bv8>
  {
    if |buf| >= 3 then lastByte[port := buf[|buf| - 1]] else lastByte
  }

  /** One analysis of a port's buffer: Modbus first, marker framing only when that yields nothing. */
  function AnalyzeStep(buf: seq<bv8>, seen: bool, now: int): Extraction
  {
    var m := ModbusStep(buf, now);
    if m.frame.Some? then m else SerialStep(buf, seen, now)
  }

  /** The last-byte table after one analysis: only marker framing records a last byte. */
  function LastByteAfter(lastByte: map<string, bv8>, port: string, buf: seq<bv8>): map<string, bv8>
  {
    if CheckModbusCrc(buf) then lastByte else NextLastByte(lastByte, port, buf)
  }

  /**
   * Round trip for Modbus: a request of at least two bytes followed by its
   * CRC, little-endian, is recognised as one Modbus frame carrying that unit
   * id, function code and payload, and the buffer is emptied.
   */
  lemma ModbusRoundTrip(msg: seq<bv8>, seen: bool, now: int)
    requires |msg| >= 2
    ensures var buf := msg + CrcBytes(Crc16(msg));
      var r := AnalyzeStep(buf, seen, now);
      && r.rest == [] && r.frame.Some?
      && r.frame.value.protocol == ModbusRtu && r.frame.value.data == buf
      && r.frame.value.parsed.unitId == msg[0] && r.frame.value.parsed.functionCode == msg[1]
      && r.frame.value.parsed.payload == msg[2..]
      && r.frame.value.parsed.crc == CrcBytes(Crc16(msg))
  {
    var buf := msg + CrcBytes(Crc16(msg));
    CrcAppendedPasses(msg, 0, 0);
    var f := ModbusFrame(buf, now);
    assert buf == [buf[0], buf[1]] + f.parsed.payload + f.parsed.crc;
    assert msg == [msg[0], msg[1]] + msg[2..];
  }

  /**
   * A buffer whose last two bytes are not the CRC of the rest is never taken
   * as Modbus: the analysis is exactly marker framing, and the last byte of
   * the buffer is recorded for the port.
   */
  lemma CorruptCrcFallsBack(msg: seq<bv8>, lo: bv8, hi: bv8, seen: bool, now: int,
                            lastByte: map<string, bv8>, port: string)
    requires |msg| >= 2 && [lo, hi] != CrcBytes(Crc16(msg))
    ensures AnalyzeStep(msg + [lo, hi], seen, now) == SerialStep(msg + [lo, hi], seen, now)
    ensures LastByteAfter(lastByte, port, msg + [lo, hi]) == lastByte[port := hi]
  {
    CrcAppendedPasses(msg, lo, hi);
  }

  /**
   * Whatever the analysis returns, the frame is a slice of the buffer that
   * ends where the remaining bytes begin; without a frame nothing is consumed.
   */
  lemma AnalyzeStepConsumes(buf: seq<bv8>, seen: bool, now: int)
    ensures var r := AnalyzeStep(buf, seen, now);
      && (r.frame.None? ==> r.rest == buf)
      && (r.frame.Some? ==>
            IsSuffix(r.frame.value.data + r.rest, buf))
      && (r.frame.Some? && r.frame.value.protocol == ModbusRtu <==> CheckModbusCrc(buf))
  {
    if CheckModbusCrc(buf) {
      assert buf + [] == buf && buf[0..] == buf;
    }
  }

  /** The slice a span delimits: marker-bounded, and followed by the rest of the buffer. */
  lemma SpanSlice(buf: seq<bv8>, sp: Span)
    requires sp.startIdx < sp.endIdx < |buf|
    requires sp.start in START_MARKERS && sp.end in END_MARKERS
    requires buf[sp.startIdx] == sp.start && buf[sp.endIdx] == sp.end
    ensures MarkerBounded(buf[sp.startIdx..sp.endIdx + 1])
    ensures IsSuffix(buf[sp.startIdx..sp.endIdx + 1] + buf[sp.endIdx + 1..], buf)
  {
    assert buf[sp.startIdx..] == buf[sp.startIdx..sp.endIdx + 1] + buf[sp.endIdx + 1..];
  }


  /**
   * Round trip: STX, a payload without ETX, its parity byte (when that is not
   * ETX) and ETX, on a port with no last byte, comes back as one frame with
   * no errors, holding exactly those bytes and leaving the buffer empty.
   */
  lemma SerialRoundTrip(payload: seq<bv8>, now: int)
    requires 0x03 !in payload && Parity(payload) != 0x03
    ensures var buf := [0x02] + payload + [Parity(payload), 0x03];
      var r := SerialStep(buf, false, now);
      && r.frame.Some? && r.rest == []
      && r.frame.value.data == buf && r.frame.value.errors == []
      && r.frame.value.parsed.payload == payload + [Parity(payload)]
  {
    var buf := [0x02] + payload + [Parity(payload), 0x03];
    var n := |buf|;
    SealedSpan(payload);
    SealedFrame(payload, now);
    var f := SerialFrame(buf, Span(0x02, 0x03, 0, n - 1), false, now);
    assert buf[n..] == [];
    assert SerialStep(buf, false, now) == Extraction(Some(f), []);
  }

  /** The frame built over the whole of a sealed frame: all of it, no errors. */
  lemma SealedFrame(payload: seq<bv8>, now: int)
    requires 0x03 !in payload && Parity(payload) != 0x03
    ensures var buf := [0x02] + payload + [Parity(payload), 0x03];
      var f := SerialFrame(buf, Span(0x02, 0x03, 0, |buf| - 1), false, now);
      && f.data == buf && f.errors == [] && f.parsed.payload == payload + [Parity(payload)]
  {
    var buf := [0x02] + payload + [Parity(payload), 0x03];
    var n := |buf|;
    assert buf[0..n] == buf;
    var body := payload + [Parity(payload)];
    assert buf == [0x02] + body + [0x03];
    assert buf[1..n - 1] == body;
    if n > 3 {
      assert buf[1..n - 2] == payload;
      assert buf[n - 2] == Parity(payload);
    }
    assert !ParityMismatch(buf);
    assert LineErrors(buf, false) == [];
  }

  /** The span found in a sealed frame is the whole frame. */
  lemma SealedSpan(payload: seq<bv8>)
    requires 0x03 !in payload && Parity(payload) != 0x03
    ensures var buf := [0x02] + payload + [Parity(payload), 0x03];
      FindSpan(buf, START_MARKERS, END_MARKERS) == Some(Span(0x02, 0x03, 0, |buf| - 1))
  {
    var buf := [0x02] + payload + [Parity(payload), 0x03];
    var n := |buf|;
    assert FirstIndex(buf, 0x02, 0) == Some(0);
    forall j | 1 <= j < n - 1 ensures buf[j] != 0x03 {
      if j < n - 2 { assert buf[j] == payload[j - 1]; } else { assert buf[j] == Parity(payload); }
    }
    assert buf[n - 1] == 0x03;
    assert FirstIndex(buf, 0x03, 1) == Some(n - 1);
    FindSpanFixed(buf);
    FindEndFixed(buf, 0x02, 0);
  }

  /**
   * When the parity byte happens to equal ETX, the frame is cut at the parity
   * byte: STX 'A' 'B' ETX ETX yields STX 'A' 'B' ETX flagged with a parity
   * error, and the real ETX stays in the buffer.
   */
  lemma ParityByteEqualToEtx(now: int)
    ensures Parity([0x41, 0x42]) == 0x03
    ensures var r := SerialStep([0x02, 0x41, 0x42, 0x03, 0x03], false, now);
      r.frame.Some? && r.frame.value.data == [0x02, 0x41, 0x42, 0x03]
      && r.frame.value.errors == [ParityError] && r.rest == [0x03]
  {
    var p: seq<bv8> := [0x41, 0x42];
    assert p[..1] == [0x41];
    assert Parity(p) == Parity([0x41]) ^ 0x42;
    var buf: seq<bv8> := [0x02, 0x41, 0x42, 0x03, 0x03];
    assert FirstIndex(buf, 0x02, 0) == Some(0);
    assert FirstIndex(buf, 0x03, 1) == Some(3);
    FindSpanFixed(buf);
    FindEndFixed(buf, 0x02, 0);
    var d := buf[0..4];
    assert d[1..2] == [0x41];
    assert Parity(d[1..2]) == 0x41;
  }

  // ---------------------------------------------------------------- the analyzer

  /** Storing twice under one key keeps only the second value. */
  lemma UpdateTwice<V>(m: map<string, V>, k: string, a: V, b: V)
    ensures m[k := a][k := b] == m[k := b]
  {
  }

  class ProtocolAnalyzer {
    /** Per-port reassembly buffer. */
    var frameBuffer: map<string, seq<bv8>>
    /** Per-port last byte of the buffer at the previous marker-framing attempt. */
    var lastByte: map<string, bv8>

    constructor ()
      ensures frameBuffer == map[] && lastByte == map[]
    {
      frameBuffer := map[];
      lastByte := map[];
    }

    /**
     * Appends `data` to the port's buffer, then tries Modbus; marker framing
     * runs only when Modbus produced no frame.
     */
    method AnalyzeFrame(port: string, data: seq<bv8>, now: int) returns (frame: Option<ProtocolFrame>)
      modifies this
      ensures frame == AnalyzeStep(BufferOf(old(frameBuffer), port) + data, port in old(lastByte), now).frame
      ensures frameBuffer == old(frameBuffer)[port :=
        AnalyzeStep(BufferOf(old(frameBuffer), port) + data, port in old(lastByte), now).rest]
      ensures lastByte == LastByteAfter(old(lastByte), port, BufferOf(old(frameBuffer), port) + data)
    {
      if port !in frameBuffer {
        frameBuffer := frameBuffer[port := []];
      }
      frameBuffer := frameBuffer[port := frameBuffer[port] + data];
      ghost var buf := BufferOf(old(frameBuffer), port) + data;
      UpdateTwice(old(frameBuffer), port, [], buf);
      assert frameBuffer == old(frameBuffer)[port := buf];
      ghost var seen := port in lastByte;
      ghost var appended := frameBuffer;
      frame := ExtractModbusFrame(port, now);
      ghost var m := ModbusStep(buf, now);
      assert frameBuffer == appended[port := m.rest];
      if frame.None? {
        assert m.rest == buf;
        UpdateTwice(old(frameBuffer), port, buf, buf);
        assert frameBuffer == appended;
        frame := ExtractSerialFrame(port, now);
        ghost var r := SerialStep(buf, seen, now);
        assert frameBuffer == appended[port := r.rest];
        UpdateTwice(old(frameBuffer), port, buf, r.rest);
        assert AnalyzeStep(buf, seen, now).rest == r.rest;
      } else {
        assert m.rest == [];
        UpdateTwice(old(frameBuffer), port, buf, []);
        assert AnalyzeStep(buf, seen, now).rest == [];
      }
    }

    /**
     * The whole buffer is the candidate Modbus frame: with at least 4 bytes
     * and a matching CRC it becomes the frame and the buffer is emptied;
     * otherwise nothing changes.
     */
    method ExtractModbusFrame(port: string, now: int) returns (frame: Option<ProtocolFrame>)
      requires port in frameBuffer
      modifies this
      ensures frame == ModbusStep(old(frameBuffer[port]), now).frame
      ensures frameBuffer == old(frameBuffer)[port := ModbusStep(old(frameBuffer[port]), now).rest]
      ensures lastByte == old(lastByte)
    {
      var buf := frameBuffer[port];
      if |buf| < 4 {
        assert frameBuffer[port := buf] == frameBuffer;
        return None;
      }
      var crcOk := ModbusCrcMatches(buf);
      if crcOk {
        assert buf[|buf|..] == [];
        frameBuffer := frameBuffer[port := frameBuffer[port][|buf|..]];
        frame := Some(ModbusFrame(buf, now));
        assert ModbusStep(buf, now) == Extraction(frame, []);
      } else {
        assert frameBuffer[port := buf] == frameBuffer;
        frame := None;
        assert ModbusStep(buf, now) == Extraction(None, buf);
      }
    }

    /**
     * Marker framing on the port's buffer. Fewer than 3 bytes: nothing happens.
     * Otherwise the line heuristics are collected, the start markers are tried
     * in order and for each the end markers in order; a match consumes the
     * buffer through the end marker. The last byte of the buffer as it was is
     * recorded either way.
     */
    method ExtractSerialFrame(port: string, now: int) returns (frame: Option<ProtocolFrame>)
      requires port in frameBuffer
      modifies this
      ensures frame == SerialStep(old(frameBuffer[port]), port in old(lastByte), now).frame
      ensures frameBuffer
           == old(frameBuffer)[port := SerialStep(old(frameBuffer[port]), port in old(lastByte), now).rest]
      ensures lastByte == NextLastByte(old(lastByte), port, old(frameBuffer[port]))
    {
      var buf := frameBuffer[port];
      if |buf| < 3 {
        assert SerialStep(buf, port in lastByte, now) == Extraction(None, buf);
        assert frameBuffer[port := buf] == frameBuffer;
        assert NextLastByte(lastByte, port, buf) == lastByte;
        return None;
      }
      var seen := port in lastByte;
      var rest;
      frame, rest := SerialAttempt(buf, seen, now);
      frameBuffer := frameBuffer[port := rest];
      lastByte := lastByte[port := buf[|buf| - 1]];
    }

    /**
     * The marker-framing attempt on a buffer of 3+ bytes: the line heuristics,
     * the span search, the frame, and what is left once everything up to the
     * end marker is consumed.
     */
    static method SerialAttempt(buf: seq<bv8>, seen: bool, now: int)
      returns (frame: Option<ProtocolFrame>, rest: seq<bv8>)
      requires |buf| >= 3
      ensures Extraction(frame, rest) == SerialStep(buf, seen, now)
    {
      var errors := CollectLineErrors(buf, seen);
      var span := LocateSpan(buf);
      if span.Some? {
        var f := BuildSerialFrame(buf, span.value, errors, seen, now);
        // Clear processed bytes: the buffer keeps what follows the end marker.
        rest := buf[span.value.endIdx + 1..];
        frame := Some(f);
      } else {
        frame, rest := None, buf;
      }
      assert Extraction(frame, rest) == SerialStepAt(buf, span, seen, now);
    }

    /** The line heuristics on the first byte, when a last byte was recorded. */
    static method CollectLineErrors(buf: seq<bv8>, seen: bool) returns (errors: seq<FrameError>)
      requires |buf| > 0
      ensures errors == LineErrors(buf, seen)
    {
      errors := [];
      if seen {
        if buf[0] & 0x01 != 0 {
          errors := errors + [FramingError];
        }
        if buf[0] == 0 {
          errors := errors + [BreakCondition];
        }
      }
    }

    /**
     * The marker search: the start markers in order, the first occurrence of
     * each, and for it the end markers in order, the first occurrence of each
     * after the start; the first pair found wins.
     */
    static method LocateSpan(buf: seq<bv8>) returns (span: Option<Span>)
      ensures span == FindSpan(buf, START_MARKERS, END_MARKERS)
    {
      span := None;
      var i := 0;
      while i < |START_MARKERS| && span.None?
        invariant 0 <= i <= |START_MARKERS|
        invariant span.None? ==>
          FindSpan(buf, START_MARKERS, END_MARKERS) == FindSpan(buf, START_MARKERS[i..], END_MARKERS)
        invariant span.Some? ==> span == FindSpan(buf, START_MARKERS, END_MARKERS)
      {
        var start := START_MARKERS[i];
        var startIdx := FirstIndex(buf, start, 0);
        assert START_MARKERS[i..][1..] == START_MARKERS[i + 1..];
        if startIdx.Some? {
          span := LocateEnd(buf, start, startIdx.value);
        }
        i := i + 1;
      }
      if span.None? {
        assert START_MARKERS[|START_MARKERS|..] == [];
      }
    }

    /** The inner loop of the marker search: the end markers in order, after a start at `si`. */
    static method LocateEnd(buf: seq<bv8>, start: bv8, si: nat) returns (span: Option<Span>)
      ensures span == FindEnd(buf, start, si, END_MARKERS)
    {
      span := None;
      var j := 0;
      while j < |END_MARKERS| && span.None?
        invariant 0 <= j <= |END_MARKERS|
        invariant span.None? ==>
          FindEnd(buf, start, si, END_MARKERS) == FindEnd(buf, start, si, END_MARKERS[j..])
        invariant span.Some? ==> span == FindEnd(buf, start, si, END_MARKERS)
      {
        var end := END_MARKERS[j];
        var endIdx := FirstIndex(buf, end, si + 1);
        assert END_MARKERS[j..][1..] == END_MARKERS[j + 1..];
        if endIdx.Some? {
          span := Some(Span(start, end, si, endIdx.value));
        }
        j := j + 1;
      }
      if span.None? {
        assert END_MARKERS[|END_MARKERS|..] == [];
      }
    }

    /**
     * Builds the frame for one span: the parity byte is checked only for
     * frames longer than 3 bytes, and a mismatch adds a parity error to the
     * line errors collected so far.
     */
    static method BuildSerialFrame(buf: seq<bv8>, sp: Span, lineErrors: seq<FrameError>,
                                   ghost seen: bool, now: int)
      returns (f: ProtocolFrame)
      requires sp.startIdx < sp.endIdx < |buf| && lineErrors == LineErrors(buf, seen)
      ensures f == SerialFrame(buf, sp, seen, now)
    {
      var errors := lineErrors;
      var frameData := buf[sp.startIdx..sp.endIdx + 1];
      var n := |frameData|;
      var parity: Option<bv8> := None;
      if n > 3 {
        var p := CalculateParity(frameData[1..n - 2]);
        if frameData[n - 2] != p {
          errors := errors + [ParityError];
        }
        parity := Some(p);
      }
      f := ProtocolFrame(now, SerialLine, Standard, frameData,
                         SerialFields(sp.start, sp.end, frameData[1..n - 1], n, parity), errors);
    }

    /** Empties the port's buffer (when it has one) and forgets its last byte. */
    method ClearBuffer(port: string)
      modifies this
      ensures frameBuffer == if port in old(frameBuffer) then old(frameBuffer)[port := []]
                             else old(frameBuffer)
      ensures lastByte == old(lastByte) - {port}
    {
      if port in frameBuffer {
        frameBuffer := frameBuffer[port := []];
      }
      lastByte := lastByte - {port};
    }
  }
}
