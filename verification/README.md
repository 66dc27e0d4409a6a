# SynapseLink core, modelled in Dafny

SynapseLink is a serial-port terminal. This project models its byte-level
data path and three small pieces of state logic, and proves properties of
the model.

- **Frame analyzer** (`ProtocolAnalysis`, with the checks in `FrameChecks`).
  - Each port has a reassembly buffer and a last-byte tracker.
  - Every chunk is appended to the port's buffer.
  - The whole buffer is then tried as one Modbus RTU frame. The check is the
    CRC-16 of section 2.5.1.2 of the MODBUS over Serial Line Specification
    V1.02: seed 0xFFFF, reflected polynomial 0xA001, compared little-endian
    against the last two bytes.
  - A function code with bit 0x80 set makes an exception response, as in
    section 7 of the MODBUS Application Protocol Specification V1.1b3.
  - Failing Modbus, the analyzer looks for a frame delimited by STX/SOH ...
    ETX/EOT, which carries an XOR parity byte.
- **Stream buffer** (`StreamBuffers`). This is the per-port bounded deque of
  (timestamp, bytes).
  - It holds at most 10000 entries and evicts from the front past 1 MiB.
  - It has an inclusive time-window query and archival eviction of old
    entries.
  - The deque drops its oldest entry by itself when full, without
    decrementing the byte counter. The model keeps that drift as written and
    proves what follows from it.
- **Data processor** (`DataProcessing`).
  - Named match patterns and named filters, kept in registration order.
  - The per-chunk pass: patterns are tested on the original data, then the
    filters are applied in order, each to the previous output.
  - Search, and the integer statistics of a time window.
- **Access control** (`Security`).
  - Users, sessions and the permission rule.
  - Adding and removing users requires the user-management permission.
  - Password changes, and per-port keys with a pass-through when a port has
    no key.
- **Automation** (`Automation`).
  - The macro recorder: a recording flag gates appends, and each action
    records the delay since the previous one.
  - The task scheduler: a table of tasks, a running flag, and the periodic
    check that decides which tasks run.
- **Chunk grouper** (`ChunkedData`).
  - Byte chunks are grouped into joined groups of at least the chunk size.
  - The pending list persists across calls, while the byte counter restarts
    at zero on every call.

Modelling choices:

- Bytes are `bv8`. The CRC register is a `bv32`, so that the 16-bit bound is
  a proved fact rather than a type.
- Timestamps are integers. The clock readings (`datetime.now()`,
  `time.time()`) are `now` parameters.
- Some functions are parameters of the model:
  - the password hash (a `const` function field);
  - pattern compilation (`compile`, None for a pattern that does not
    compile);
  - session tokens, generated keys and the cipher.
- A compiled pattern is a literal byte string. It matches when it is a
  contiguous slice of the data. A filter removes its occurrences left to
  right, without overlap. An empty pattern matches everything and removes
  nothing.
- Qt signals are returned as values:
  - `Event`s from the data processor;
  - the set of task ids that ran, from the scheduler.

## Model

| member | source | states |
|---|---|---|
| FrameChecks.Crc16 | src/core/protocol_analyzer.py:112-121 | the CRC register, seeded 0xFFFF and folded byte by byte, always fits in 16 bits |
| FrameChecks.ComputeCrc16 | src/core/protocol_analyzer.py:112-121 | the nested loop (8 shift rounds per byte, XOR 0xA001 when the low bit is set) computes exactly Crc16, which is below 0x10000 |
| FrameChecks.CrcBytes | src/core/protocol_analyzer.py:124 | the two bytes emitted for a CRC read back, little-endian, as that CRC |
| FrameChecks.ModbusCrcMatches | src/core/protocol_analyzer.py:107-126 | the test is true exactly for 4+ bytes whose last two equal the CRC of the rest; then the trailer is that CRC, low byte first |
| FrameChecks.LittleEndian16Injective | src/core/protocol_analyzer.py:124 | two trailer byte pairs with the same little-endian value are the same pair |
| FrameChecks.CrcAppendedPasses | src/core/protocol_analyzer.py:107-126 | a message of 2+ bytes followed by its CRC (low byte, high byte) passes; any other trailer fails |
| FrameChecks.CrcReferenceVector | src/core/protocol_analyzer.py:107-126 | the request 01 03 00 00 00 01 has CRC 0x0A84 and, trailed by 84 0A, passes the check |
| FrameChecks.CalculateParity | src/core/protocol_analyzer.py:205-210 | the XOR loop from 0 computes Parity of the data |
| FrameChecks.ParityAppend | src/core/protocol_analyzer.py:205-210 | parity of a concatenation is the XOR of the parities |
| FrameChecks.ParityOfSealed | src/core/protocol_analyzer.py:205-210 | a payload followed by its own parity byte has parity 0 |
| FrameChecks.FirstIndex | src/core/protocol_analyzer.py:156-159 | `list.index(x, from)`: the first index at or after `from` holding x, None exactly when there is none |
| FrameChecks.FindEnd | src/core/protocol_analyzer.py:157-159 | an end found for a start at si is an end marker strictly after si |
| FrameChecks.FindSpan | src/core/protocol_analyzer.py:151-160 | a found span starts with a start marker and ends, later in the buffer, with an end marker |
| FrameChecks.FindSpanFixed | src/core/protocol_analyzer.py:151-154 | with the fixed lists, the search is the STX attempt, else the SOH attempt |
| FrameChecks.FindEndFixed | src/core/protocol_analyzer.py:152-159 | the end is the first ETX after the start, else the first EOT; none exactly when no end marker follows |
| FrameChecks.MarkerSearchStart | src/core/protocol_analyzer.py:151-160 | a span starts at the first occurrence of its start marker; at SOH iff the first STX is missing or has no end marker after it and the first SOH has one; no span iff neither start has an end after it |
| FrameChecks.MarkerSearchEnd | src/core/protocol_analyzer.py:157-159 | a span ends at the first ETX after its start, or at the first EOT after it when no ETX follows |
| ProtocolAnalysis.ModbusFrame | src/core/protocol_analyzer.py:67-98 | unit id is byte 0, function code byte 1, payload the bytes between them and the 2-byte CRC; exception response iff bit 0x80, with error code the first payload byte or None for an empty payload; else request |
| ProtocolAnalysis.ModbusStep | src/core/protocol_analyzer.py:57-98 | a frame exactly when the whole buffer passes the CRC test; the frame's data is the whole buffer, which is then emptied; otherwise the buffer is unchanged |
| ProtocolAnalysis.LineErrors | src/core/protocol_analyzer.py:139-146 | framing error iff a last byte was recorded and the first byte is odd; break iff recorded and the first byte is 0; at most one fires |
| ProtocolAnalysis.SerialFrameFields | src/core/protocol_analyzer.py:160-187 | the frame is the span's slice (2+ bytes), payload without the markers, parity field iff length > 3, parity error iff the second-to-last byte differs from the XOR of the bytes between |
| ProtocolAnalysis.ModbusRoundTrip | src/core/protocol_analyzer.py:30-98 | a message of 2+ bytes plus its CRC is analysed as one Modbus frame with that unit id, function code and payload, and the buffer is emptied |
| ProtocolAnalysis.CorruptCrcFallsBack | src/core/protocol_analyzer.py:40-48 | with a wrong CRC trailer, the analysis is exactly marker framing, and the buffer's last byte is recorded |
| ProtocolAnalysis.AnalyzeStepConsumes | src/core/protocol_analyzer.py:40-48 | any frame is a slice of the buffer ending where the remaining bytes begin; no frame means nothing consumed; Modbus iff the CRC passes |
| ProtocolAnalysis.SerialStep | src/core/protocol_analyzer.py:131-194 | no frame iff the buffer is shorter than 3 or has no span, and then nothing is consumed; a frame begins with a start marker and ends with an end marker, and the frame followed by the remaining bytes is a suffix of the buffer, so everything up to the frame's end is dropped |
| ProtocolAnalysis.SerialRoundTrip | src/core/protocol_analyzer.py:151-187 | STX, a payload without ETX, its parity byte and ETX come back as one error-free frame holding those bytes, and the buffer is emptied |
| ProtocolAnalysis.SealedFrame | src/core/protocol_analyzer.py:160-187 | the frame built over the whole of a sealed frame holds all of it, has no errors, and its payload is the payload plus the parity byte |
| ProtocolAnalysis.SealedSpan | src/core/protocol_analyzer.py:151-160 | the span found in such a sealed frame is the whole frame |
| ProtocolAnalysis.ParityByteEqualToEtx | src/core/protocol_analyzer.py:159-178 | a parity byte equal to ETX cuts the frame there: STX 'A' 'B' ETX ETX yields STX 'A' 'B' ETX with a parity error, and one ETX stays buffered |
| ProtocolAnalysis.ProtocolAnalyzer.constructor | src/core/protocol_analyzer.py:25-28 | both per-port tables start empty |
| ProtocolAnalysis.ProtocolAnalyzer.AnalyzeFrame | src/core/protocol_analyzer.py:30-53 | the chunk is appended to the port's buffer; the result, new buffer and last-byte table are those of the Modbus attempt if it yields a frame, else of marker framing |
| ProtocolAnalysis.ProtocolAnalyzer.ExtractModbusFrame | src/core/protocol_analyzer.py:55-105 | frame and new buffer are ModbusStep's; the last-byte table is untouched |
| ProtocolAnalysis.ProtocolAnalyzer.ExtractSerialFrame | src/core/protocol_analyzer.py:128-203 | frame and new buffer are SerialStep's; the last byte of the buffer as it was is recorded exactly when it had 3+ bytes |
| ProtocolAnalysis.ProtocolAnalyzer.CollectLineErrors | src/core/protocol_analyzer.py:138-146 | the two checks on the first byte yield LineErrors |
| ProtocolAnalysis.ProtocolAnalyzer.SerialAttempt | src/core/protocol_analyzer.py:138-194 | on 3+ bytes, the line checks, the span search and the frame construction give SerialStep's frame and remaining buffer |
| ProtocolAnalysis.ProtocolAnalyzer.LocateSpan | src/core/protocol_analyzer.py:151-194 | the outer loop over start markers, with its break, finds FindSpan's span |
| ProtocolAnalysis.ProtocolAnalyzer.LocateEnd | src/core/protocol_analyzer.py:157-189 | the inner loop over end markers, with its break, finds FindEnd's span |
| ProtocolAnalysis.ProtocolAnalyzer.BuildSerialFrame | src/core/protocol_analyzer.py:160-187 | the frame assembled from a span, parity check included, is SerialFrame |
| ProtocolAnalysis.ProtocolAnalyzer.ClearBuffer | src/core/protocol_analyzer.py:212-217 | an existing buffer is emptied (none is created), and the port's last byte is forgotten |
| StreamBuffers.TotalBytesConcat | src/core/data_processor.py:23 | the byte count of a concatenation is the sum of the counts |
| StreamBuffers.DequeAppendShape | src/core/data_processor.py:17-22 | appending below the cap keeps everything; appending to a full deque drops exactly the oldest entry, whose bytes leave the true count |
| StreamBuffers.EvictFront | src/core/data_processor.py:25-27 | eviction keeps a suffix and preserves the counter's excess over the true byte count; it raises only with nothing left and the counter still over the cap, and otherwise ends at or below the cap |
| StreamBuffers.EvictionStopsAtFirstFit | src/core/data_processor.py:25-27 | every pop happened while the counter, less the bytes already popped, was still above the cap |
| StreamBuffers.EvictionRaisesOnlyOnDrift | src/core/data_processor.py:25-26 | `popleft` on an empty deque happens exactly when the counter's drift over the true byte count exceeds the cap |
| StreamBuffers.AppendKeepsBounds | src/core/data_processor.py:17-27 | with room for at least one entry, a buffer within its caps whose counter is at least the true size stays so after an append, which never raises |
| StreamBuffers.ExactAppendFits | src/core/data_processor.py:21-27 | with an exact counter and no deque drop, the survivors are a suffix of old entries plus the new one, and the counter is their exact size, at most 1 MiB |
| StreamBuffers.DropOverCounts | src/core/data_processor.py:17-23 | a deque drop leaves the counter above the true size by the dropped entry's bytes |
| StreamBuffers.DriftEvictsFittingChunk | src/core/data_processor.py:17-27 | with room for one entry, two 600000-byte chunks leave the buffer empty although the second alone fits in 1 MiB |
| StreamBuffers.ZeroCapacityRaises | src/core/data_processor.py:17-27 | with no entry room, a chunk over 1 MiB makes `popleft` raise |
| StreamBuffers.SelectMembers | src/core/data_processor.py:29-34 | an entry is returned iff it is buffered and its timestamp lies in the inclusive window; a missing bound is unbounded |
| StreamBuffers.SelectConcat | src/core/data_processor.py:29-34 | selection keeps buffer order |
| StreamBuffers.OldPrefixLen | src/core/data_processor.py:37 | the leading run of entries older than the cut is maximal: the next entry, if any, is not older |
| StreamBuffers.StreamBuffer.constructor | src/core/data_processor.py:15-19 | an empty deque with the given cap and a zero counter |
| StreamBuffers.StreamBuffer.Append | src/core/data_processor.py:21-27 | the new entries and counter are the deque append plus the eviction loop, and `raised` says `popleft` failed; with a cap of 1+ and valid state it never raises and validity holds |
| StreamBuffers.StreamBuffer.EvictOverflow | src/core/data_processor.py:25-27 | the eviction loop ends in the state EvictFront describes, and `raised` says `popleft` found the deque empty |
| StreamBuffers.StreamBuffer.ClearOldData | src/core/data_processor.py:36-39 | exactly the maximal leading run older than the cut is removed, the counter drops by its bytes, later entries are untouched, and validity is kept |
| DataProcessing.RemoveAllChanges | src/core/data_processor.py:112 | a filter leaves data unchanged when its pattern is empty or absent, and otherwise makes it strictly shorter |
| DataProcessing.Registry.Put | src/core/data_processor.py:59 | storing a name overwrites it in place or appends it last; the name is unique in the order |
| DataProcessing.Registry.Delete | src/core/data_processor.py:67 | deleting a name removes it from table and order, other names keeping their place |
| DataProcessing.MatchEvents | src/core/data_processor.py:105-107 | one match event per registered pattern that occurs in the original data |
| DataProcessing.ApplyFilters | src/core/data_processor.py:110-112 | applying the filters in order never lengthens the data |
| DataProcessing.ApplyFiltersAbsent | src/core/data_processor.py:110-112 | if no filter pattern occurs in the data, the output is the input |
| DataProcessing.SingleFilterChanges | src/core/data_processor.py:111-114 | one filter changes the data iff its non-empty pattern occurs in it |
| DataProcessing.ChunkEventsFiltered | src/core/data_processor.py:103-117 | the filtered signal is emitted iff the output differs from the input, and only last; no occurring filter means only match events |
| DataProcessing.MatchingMembers | src/core/data_processor.py:131-134 | an entry is kept iff its payload contains the pattern |
| DataProcessing.MatchingConcat | src/core/data_processor.py:131-134 | matching keeps buffer order |
| DataProcessing.MinSize | src/core/data_processor.py:202 | the minimum is some entry's size and at most every entry's size |
| DataProcessing.MaxSize | src/core/data_processor.py:203 | the maximum is some entry's size and at least every entry's size |
| DataProcessing.TotalBytesBounds | src/core/data_processor.py:199 | per-entry size bounds lo..hi bound the total by count×lo..count×hi |
| DataProcessing.StatsConsistent | src/core/data_processor.py:195-205 | statistics exist iff the selection is non-empty; then count is the number of entries, min ≤ max, and count×min ≤ total ≤ count×max |
| DataProcessing.DataProcessor.constructor | src/core/data_processor.py:49-54 | no buffers, no patterns, no filters |
| DataProcessing.DataProcessor.AddPattern | src/core/data_processor.py:56-62 | False and nothing changed when the pattern does not compile; else the name is stored or overwritten |
| DataProcessing.DataProcessor.RemovePattern | src/core/data_processor.py:64-69 | True iff the name was registered, and then only it is removed |
| DataProcessing.DataProcessor.AddFilter | src/core/data_processor.py:71-77 | as AddPattern, on the filters |
| DataProcessing.DataProcessor.RemoveFilter | src/core/data_processor.py:79-84 | as RemovePattern, on the filters |
| DataProcessing.DataProcessor.ProcessChunk | src/core/data_processor.py:103-117 | the two loops produce the filtered output and the signal list of the chunk specification |
| DataProcessing.DataProcessor.ProcessData | src/core/data_processor.py:86-92 | a buffer is created on first use, the timestamped chunk is appended as StreamBuffer.Append does while other ports' buffers keep their contents, and the chunk is processed |
| DataProcessing.DataProcessor.Store | src/core/data_processor.py:87-91 | the buffering half: a missing buffer is created empty, then the port's buffer receives the chunk as an append; every other port keeps its buffer object and its contents |
| DataProcessing.DataProcessor.AppendTo | src/core/data_processor.py:90-91 | the port's existing buffer receives the timestamped chunk as StreamBuffer.Append does, every other port's contents stay as they were, and every buffer stays valid |
| DataProcessing.DataProcessor.SearchData | src/core/data_processor.py:119-136 | [] for an unknown port or a pattern that does not compile; else the in-window entries containing the pattern, in buffer order |
| DataProcessing.DataProcessor.Statistics | src/core/data_processor.py:183-205 | no statistics iff the port is unknown or the window is empty; else those of the window |
| DataProcessing.DataProcessor.ClearData | src/core/data_processor.py:207-213 | a non-empty name gets an empty buffer if it had one, others untouched; no name or the empty name drops all |
| Security.Permitted | src/core/security_manager.py:85-105 | false without a session or a record; true for the admin role or the wildcard; otherwise exactly the listed resources |
| Security.PermittedIsLocal | src/core/security_manager.py:89-105 | changing or removing another user's record or session leaves a user's permissions unchanged |
| Security.SecurityManager.constructor | src/core/security_manager.py:36-43 | without a configuration, the single user is admin, password "admin", role admin, permission "*" |
| Security.SecurityManager.Authenticate | src/core/security_manager.py:60-77 | succeeds iff the user exists and the password hash matches; then the user's session is created or replaced; otherwise sessions are unchanged |
| Security.SecurityManager.SessionHasRecord | src/core/security_manager.py:85-105 | in a valid manager every session belongs to a known user, so a permission is granted iff the user is logged in and their record has the admin role, the wildcard, or the resource |
| Security.SecurityManager.Logout | src/core/security_manager.py:79-87 | only that user's session goes; afterwards the user is not authenticated and has no permission |
| Security.SecurityManager.AddUser | src/core/security_manager.py:107-124 | succeeds iff the caller has user management and the name is new; then exactly that record is added, the role defaulting to "user" and the permissions to [] |
| Security.SecurityManager.RemoveUser | src/core/security_manager.py:126-139 | succeeds iff the caller has user management and the user exists; then that user and session go, and the user has no permission |
| Security.SecurityManager.ChangePassword | src/core/security_manager.py:141-148 | only when authentication with the old password succeeds (opening a session) is that user's hash replaced, and only it |
| Security.SecurityManager.SetupEncryption | src/core/security_manager.py:150-159 | stores the port's new key, nothing else |
| Security.SecurityManager.EncryptDecryptRoundTrip | src/core/security_manager.py:161-183 | `encrypt_data` and `decrypt_data` pass data through unchanged for a port without a key, so decrypting what was encrypted gives the data back; with a key it does whenever the cipher round-trips |
| Automation.MacroRecorder.constructor | src/core/automation_manager.py:14-17 | no actions, not recording, no timestamp |
| Automation.MacroRecorder.StartRecording | src/core/automation_manager.py:19-23 | actions emptied, recording from now |
| Automation.MacroRecorder.StopRecording | src/core/automation_manager.py:25-28 | recording off, timestamp cleared, actions kept |
| Automation.MacroRecorder.RecordAction | src/core/automation_manager.py:30-40 | no change unless recording; else exactly one action appended with the delay since the previous one, and start time plus all delays is the last timestamp |
| Automation.StoppedRecorderIgnoresActions | src/core/automation_manager.py:25-40 | after stopping, recording an action changes no action |
| Automation.RunDue | src/core/automation_manager.py:232-257 | same ids and schedules; tasks that should run get last run = now, the others keep theirs |
| Automation.IntervalRerun | src/core/automation_manager.py:240-244 | an interval task reruns exactly from last run + interval on |
| Automation.CronOnlyRunsOnce | src/core/automation_manager.py:238-247 | a task without an interval runs iff it never ran, and never runs again after a check |
| Automation.CheckTwiceSameInstant | src/core/automation_manager.py:238-257 | a second check at the same instant reruns a task iff its interval is at most 0 |
| Automation.AutomationManager.constructor | src/core/automation_manager.py:137-144 | no tasks, running, timer armed |
| Automation.AutomationManager.StartTimer | src/core/automation_manager.py:146-150 | the timer is armed, nothing else changes |
| Automation.AutomationManager.StopTimer | src/core/automation_manager.py:152-157 | running cleared and timer cancelled |
| Automation.AutomationManager.ScheduleTask | src/core/automation_manager.py:205-216 | the id is stored or overwritten with no last run; other ids untouched |
| Automation.AutomationManager.RemoveTask | src/core/automation_manager.py:218-223 | True iff the id was present, and then only it goes |
| Automation.AutomationManager.CheckScheduledTasks | src/core/automation_manager.py:225-264 | when stopped, nothing happens and nothing is rescheduled; else exactly the tasks that should run run, are stamped now, and the timer is re-armed |
| ChunkedData.FlattenConcat | src/ui/visualization_widget.py:26 | joining a concatenation joins the parts |
| ChunkedData.Joined | src/ui/visualization_widget.py:26-31 | each yielded group is its chunks joined |
| ChunkedData.ScanPreservesChunks | src/ui/visualization_widget.py:18-31 | the groups of one call, in order, are the pending chunks followed by the input chunks |
| ChunkedData.FreshScanKeepsBytes | src/ui/visualization_widget.py:18-31 | on a fresh handler the yielded bytes are the input bytes, in order |
| ChunkedData.ScanGroupsClosed | src/ui/visualization_widget.py:21-31 | every group but a trailing pending one reaches the chunk size and is below it without its last chunk; a trailing group is the leftover |
| ChunkedData.FreshGroupsReachChunkSize | src/ui/visualization_widget.py:22-28 | on a fresh handler, every group but possibly the last has at least chunk-size bytes |
| ChunkedData.EmptyChunksOneGroup | src/ui/visualization_widget.py:21-31 | only empty chunks, with a positive chunk size, form one last group that is also kept |
| ChunkedData.OnlyEmptyChunks | src/ui/visualization_widget.py:30-31 | only empty chunks on a fresh handler yield one empty group |
| ChunkedData.ChunkedDataHandler.constructor | src/ui/visualization_widget.py:13-15 | no pending chunks |
| ChunkedData.ChunkedDataHandler.ProcessLargeDataset | src/ui/visualization_widget.py:18-31 | the loop yields the grouping specification's groups, joined, and leaves its leftover as the pending list |
| ChunkedData.LeftoverYieldedAgain | src/ui/visualization_widget.py:15-31 | the pending list survives the last yield: with chunk size 4, [1 2] then [3 4 5 6] yield [1 2] and then [1 2 3 4 5 6] |

## Left out

- `DataProcessing.DataProcessor.ProcessData`: models buffering followed by
  `_process_chunk`. The memo `_process_with_cache`
  (src/core/data_processor.py:94-101) is left out. It stores `bytes` values in
  a `WeakValueDictionary`, and `bytes` cannot be weakly referenced. As
  written, every call would raise at line 100, after the append.
- `Automation.MacroRecorder.RecordAction`: one `now` stands for the two clock
  readings at src/core/automation_manager.py:38 and :40. So the next delay is
  measured from the instant this delay was measured.
- `Automation.AutomationManager.CheckScheduledTasks`:
  - Running a task (`play_macro`, `run_script`) is left out. The ids of the
    tasks that ran are returned as a set.
  - The dictionary's iteration order is not modelled. Each task's decision
    depends on that task alone.
  - An exception raised by an action, which would end the loop early, is not
    modelled.
- `ChunkedData.ChunkedDataHandler.ProcessLargeDataset`: the generator is run
  to completion.
  - A consumer that stops early never lets the generator reach
    `self.current_chunk = []` after the yield. That lazy interleaving is
    left out.
  - `_process_chunk` (`np.frombuffer`) is the identity on the bytes.
  - `chunk_count` is never updated by the source, and is not modelled.
- `ProtocolAnalysis.ModbusFrame`:
  - The payload and CRC are kept as bytes, not as `hexlify_packets` strings.
  - The frame types 'ModbusResponse' and 'Unknown' cannot be reached (a
    checked buffer has 4+ bytes, and a clear bit 0x80 means a code below
    0x80), so they are not in `FrameType`.
- The exception handlers in the frame analyzer are not modelled, and nor are
  the `error_detected` signals they emit. No modelled operation raises there.
- Signals are left out, apart from the data processor's `pattern_matched` and
  `data_filtered` (returned as `Event`s).
- Regular expressions are not modelled beyond literal byte patterns. This
  covers both matching and `sub`. Compilation is the `compile` parameter.
- Floating-point statistics (`avg_packet_size`, `std_dev_packet_size`) are
  left out. So are the export to CSV, JSON and XML and
  `get_data_for_visualization`.
- Timestamps are plain integers:
  - A missing window bound is `None`. A Python `datetime` is always truthy,
    so `not start_time` only tests for `None`.
  - The Python timestamp of `process_data` is the `now` parameter.
- SHA-256 hashing, Fernet key generation and encryption, and `os.urandom`
  tokens are parameters.
- Security configuration persistence (`load_config` from a file,
  `save_config`) is left out. A missing file is modelled by the default admin
  user.
- Macro save, load and playback, the `ScriptEngine`, and the
  `threading.Timer` thread are left out. The timer is a flag saying whether a
  check is armed.
- Serial I/O, the UI, and the session manager are not part of this model.
