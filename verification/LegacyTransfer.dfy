/** The synchronous file transfer of `LegacyTransfer::send`.

    The calls on the writer's loop are those of `WriterLoopCall`: delivered, and then run
    exactly once, or not delivered and never run. A script says for each of them, in order,
    what happens; nobody else writes to the connection.
  */
module LegacyTransfer {
  import opened Text
  import opened TransferParams
  import Stats = TransferStats
  import Stream = StreamTransfer

  const STREAM_THRESHOLD: int := 4 * 1024 * 1024
  const CHUNK_SIZE: nat := 256 * 1024
  const BACKPRESSURE_THRESHOLD: nat := 4 * 1024 * 1024
  const WAIT_MS: nat := 10
  const TIMEOUT_MS: nat := 60 * 1000

  /** One call on the writer's loop: whether it is delivered, how much of the pending buffer has
      drained since the last one, whether the peer is connected after it, what the writer
      returns, and how many bytes the file has ready for the read before it. */
  datatype Turn = Turn(delivered: bool, drained: nat, connected: bool, code: int, available: nat)

  type Script = nat -> Turn

  function Drain(pending: nat, drained: nat): nat {
    if drained < pending then pending - drained else 0
  }

  /** The pending buffer after n calls from `calls` on. */
  function DrainedBy(script: Script, pending: nat, calls: nat, n: nat): (p: nat)
    ensures p <= pending
  {
    if n == 0 then pending else Drain(DrainedBy(script, pending, calls, n - 1), script(calls + n - 1).drained)
  }

  /** After n calls, all of them delivered, the buffer is still too full and the peer connected. */
  predicate StillFull(script: Script, pending: nat, calls: nat, n: nat)
    requires n > 0
  {
    && script(calls + n - 1).delivered && script(calls + n - 1).connected
    && DrainedBy(script, pending, calls, n) > 4194304
  }

  /** What the backpressure loop leaves behind. */
  datatype Ready = Ready(ok: bool, timedOut: bool, pending: nat, calls: nat, sleeps: nat)

  /** Waits until the pending buffer is at or below the threshold, asking once before the first
      sleep and once after each one but a last sleep that exceeds the time. It sleeps exactly
      as long as it finds the buffer too full, and times out exactly at the 6000th sleep. */
  method WaitForRoom(script: Script, pending0: nat, calls0: nat) returns (r: Ready)
    ensures r.sleeps <= 6000
    ensures r.timedOut <==> r.sleeps == 6000
    ensures r.calls == calls0 + 1 + r.sleeps - (if r.timedOut then 1 else 0)
    ensures r.pending == DrainedBy(script, pending0, calls0, r.calls - calls0)
    ensures forall n: nat :: 1 <= n <= r.sleeps ==> StillFull(script, pending0, calls0, n)
    ensures r.ok <==> !r.timedOut && script(r.calls - 1).delivered && script(r.calls - 1).connected
    ensures r.ok ==> r.pending <= BACKPRESSURE_THRESHOLD
  {
    var waitedMs, timedOut, calls: nat, sleeps: nat := 0, false, calls0, 0;
    var pending: nat := Drain(pending0, script(calls).drained);
    var delivered, connected := script(calls).delivered, script(calls).connected;
    calls := calls + 1;
    assert pending == DrainedBy(script, pending0, calls0, 1);
    if !delivered {
      return Ready(false, false, pending, calls, sleeps);
    }
    while pending > BACKPRESSURE_THRESHOLD && connected
      invariant waitedMs == sleeps * WAIT_MS && waitedMs < TIMEOUT_MS
      invariant calls == calls0 + 1 + sleeps && pending == DrainedBy(script, pending0, calls0, sleeps + 1)
      invariant connected <==> script(calls - 1).connected
      invariant script(calls - 1).delivered && !timedOut
      invariant forall n: nat :: 1 <= n <= sleeps ==> StillFull(script, pending0, calls0, n)
      decreases TIMEOUT_MS - waitedMs
    {
      assert StillFull(script, pending0, calls0, sleeps + 1);
      sleeps := sleeps + 1;
      waitedMs := waitedMs + WAIT_MS;
      if waitedMs >= TIMEOUT_MS {
        timedOut := true;
        break;
      }
      pending := Drain(pending, script(calls).drained);
      delivered, connected := script(calls).delivered, script(calls).connected;
      calls := calls + 1;
      if !delivered {
        connected := false;
        break;
      }
    }
    r := Ready(!timedOut && connected, timedOut, pending, calls, sleeps);
  }

  /** The text stands in the file at a position; the empty text stands anywhere. */
  predicate IsSlice(text: string, file: string, pos: nat) {
    text == [] || (pos + |text| <= |file| && text == file[pos..pos + |text|])
  }

  lemma NextSlice(file: string, start: nat, handed: string, chunk: string)
    requires IsSlice(handed, file, start) && IsSlice(chunk, file, start + |handed|)
    ensures IsSlice(handed + chunk, file, start)
  {
    if handed == [] {
      assert handed + chunk == chunk;
    }
  }

  /** The writer takes a chunk, and the peer is still there afterwards. */
  predicate Takes(t: Turn) {
    t.delivered && t.code >= 0 && t.connected
  }

  /** What the chunk loop leaves behind. `chunks[i]` was given to the writer in call `writes[i]`
      of the `calls` made; `full` says that no read fell short, `peaks` are the sizes of the
      pending buffer after each write and `sleeps` the sleeps before each chunk. */
  datatype Sent = Sent(
    remaining: nat, timedOut: bool, full: bool, chunks: seq<string>, writes: seq<nat>, calls: nat,
    peaks: seq<nat>, sleeps: seq<nat>)
  {
    function Handed(): string { Stream.Flat(chunks) }
  }

  /** Every chunk but perhaps the last was taken, and what was taken no longer remains. */
  ghost predicate Accounted(script: Script, sendLen: nat, s: Sent) {
    && |s.chunks| == |s.writes|
    && (forall i :: 0 <= i < |s.writes| ==> s.writes[i] < s.calls && script(s.writes[i]).delivered)
    && (forall i, j :: 0 <= i < j < |s.writes| ==> s.writes[i] < s.writes[j])
    && (forall i :: 0 <= i < |s.writes| - 1 ==> Takes(script(s.writes[i])))
    && s.remaining + |s.Handed()| == sendLen + Refused(script, s)
  }

  /** The length of the last chunk if the writer has not taken it. */
  function Refused(script: Script, s: Sent): nat
    requires |s.chunks| == |s.writes|
  {
    var n := |s.writes|;
    if n > 0 && !Takes(script(s.writes[n - 1])) then |s.chunks[n - 1]| else 0
  }

  ghost predicate Bounded(s: Sent) {
    && (forall i :: 0 <= i < |s.chunks| ==> 0 < |s.chunks[i]| <= 262144)
    && (forall i :: 0 <= i < |s.peaks| ==> s.peaks[i] <= 4194304 + 262144)
    && (forall i :: 0 <= i < |s.sleeps| ==> s.sleeps[i] <= 6000)
  }

  /** The reasons for which the loop may leave something behind. */
  predicate Stopped(script: Script, s: Sent) {
    || s.timedOut || !s.full
    || (s.calls > 0 && (!script(s.calls - 1).delivered || !script(s.calls - 1).connected))
    || (s.writes != [] && !Takes(script(s.writes[|s.writes| - 1])))
  }

  ghost predicate ReadsAreFull(file: string, start: nat, sendLen: nat, script: Script) {
    start + sendLen <= |file| && forall k: nat :: script(k).available >= CHUNK_SIZE
  }

  /** Giving one more chunk to the writer keeps the accounts, taken or not. */
  lemma ChunkAccounted(script: Script, sendLen: nat, s: Sent, s': Sent, chunk: string)
    requires Accounted(script, sendLen, s) && Refused(script, s) == 0
    requires s.writes != [] ==> Takes(script(s.writes[|s.writes| - 1]))
    requires s.calls < s'.calls && script(s'.calls - 1).delivered
    requires s'.chunks == s.chunks + [chunk] && s'.writes == s.writes + [s'.calls - 1]
    requires s'.remaining == s.remaining - if Takes(script(s'.calls - 1)) then |chunk| else 0
    ensures Accounted(script, sendLen, s')
    ensures Refused(script, s') == if Takes(script(s'.calls - 1)) then 0 else |chunk|
    ensures s'.Handed() == s.Handed() + chunk
  {
    Stream.FlatAppend(s.chunks, chunk);
  }

  /** Between two turns of the chunk loop. */
  ghost predicate Going(file: string, start: nat, sendLen: nat, script: Script, s: Sent) {
    && Accounted(script, sendLen, s) && Bounded(s) && IsSlice(s.Handed(), file, start)
    && Refused(script, s) == 0 && !s.timedOut
    && (s.writes != [] ==> Takes(script(s.writes[|s.writes| - 1])))
  }

  lemma WaitingKeepsGoing(file: string, start: nat, sendLen: nat, script: Script, s: Sent, calls: nat, sleeps: nat)
    requires Going(file, start, sendLen, script, s) && s.calls <= calls && sleeps <= 6000
    ensures Going(file, start, sendLen, script, s.(calls := calls, sleeps := s.sleeps + [sleeps]))
  {}

  lemma ReadingStops(file: string, start: nat, sendLen: nat, script: Script, s: Sent, s': Sent)
    requires Going(file, start, sendLen, script, s) && s.calls <= s'.calls
    requires s' == s.(calls := s'.calls, full := s'.full)
    requires !s'.full || (s'.calls > 0 && !script(s'.calls - 1).delivered)
    ensures Accounted(script, sendLen, s') && Bounded(s') && IsSlice(s'.Handed(), file, start)
    ensures Stopped(script, s') && Refused(script, s') == 0
  {}

  lemma ReadIsFull(file: string, start: nat, sendLen: nat, script: Script, s: Sent, toRead: nat)
    requires Going(file, start, sendLen, script, s) && toRead <= s.remaining && toRead <= CHUNK_SIZE
    ensures start + |s.Handed()| + toRead <= start + sendLen
    ensures ReadsAreFull(file, start, sendLen, script) ==>
      |ReadChunk(file, start + |s.Handed()|, toRead, script(s.calls).available)| == toRead
  {}

  lemma WritingKeepsGoing(file: string, start: nat, sendLen: nat, script: Script, s: Sent, s': Sent, chunk: string)
    requires Going(file, start, sendLen, script, s)
    requires 0 < |chunk| <= CHUNK_SIZE && IsSlice(chunk, file, start + |s.Handed()|)
    requires s.calls < s'.calls && script(s'.calls - 1).delivered
    requires s'.chunks == s.chunks + [chunk] && s'.writes == s.writes + [s'.calls - 1]
    requires s'.remaining == s.remaining - if Takes(script(s'.calls - 1)) then |chunk| else 0
    requires |s'.peaks| == |s.peaks| + 1 && s'.peaks[..|s.peaks|] == s.peaks
    requires s'.peaks[|s.peaks|] <= BACKPRESSURE_THRESHOLD + CHUNK_SIZE
    requires s'.sleeps == s.sleeps && s'.timedOut == s.timedOut
    ensures Accounted(script, sendLen, s') && Bounded(s') && IsSlice(s'.Handed(), file, start)
    ensures Takes(script(s'.calls - 1)) ==> Going(file, start, sendLen, script, s')
    ensures !Takes(script(s'.calls - 1)) ==> Stopped(script, s') && Refused(script, s') == |chunk|
  {
    ChunkAccounted(script, sendLen, s, s', chunk);
    NextSlice(file, start, s.Handed(), chunk);
    forall i | 0 <= i < |s'.peaks| ensures s'.peaks[i] <= BACKPRESSURE_THRESHOLD + CHUNK_SIZE {
      if i < |s.peaks| { assert s'.peaks[i] == s.peaks[i]; }
    }
  }

  function Least(a: nat, b: nat): nat { if a < b then a else b }

  /** How much of a file lies behind a position. */
  function Rest(file: string, pos: nat): nat { if pos <= |file| then |file| - pos else 0 }

  lemma ReadLength(file: string, pos: nat, asked: nat, available: nat)
    ensures |ReadChunk(file, pos, asked, available)| == Least(asked, Least(available, Rest(file, pos)))
  {}

  /** The write of one turn: the chunk is taken, or the loop stops with nothing deducted. */
  method WriteChunk(file: string, start: nat, sendLen: nat, script: Script, s0: Sent, chunk: string, full: bool,
                    pending0: nat)
    returns (s: Sent, pending: nat)
    requires Going(file, start, sendLen, script, s0) && script(s0.calls).delivered
    requires 0 < |chunk| <= CHUNK_SIZE && |chunk| <= s0.remaining && IsSlice(chunk, file, start + |s0.Handed()|)
    requires pending0 <= BACKPRESSURE_THRESHOLD
    ensures Accounted(script, sendLen, s) && Bounded(s) && IsSlice(s.Handed(), file, start)
    ensures s.full == full && s.timedOut == s0.timedOut && s.sleeps == s0.sleeps && s.calls == s0.calls + 1
    ensures s.chunks == s0.chunks + [chunk] && s.writes == s0.writes + [s0.calls]
    ensures s.peaks == s0.peaks + [pending]
    ensures pending == Drain(pending0, script(s0.calls).drained) + if script(s0.calls).code >= 0 then |chunk| else 0
    ensures if Takes(script(s0.calls))
            then Going(file, start, sendLen, script, s) && s.remaining == s0.remaining - |chunk|
            else Stopped(script, s) && Refused(script, s) == |chunk| && s.remaining == s0.remaining
  {
    var turn := script(s0.calls);
    pending := Drain(pending0, turn.drained);
    if turn.code >= 0 {
      pending := pending + |chunk|;
    }
    s := Sent(if Takes(turn) then s0.remaining - |chunk| else s0.remaining, s0.timedOut, full,
              s0.chunks + [chunk], s0.writes + [s0.calls], s0.calls + 1, s0.peaks + [pending], s0.sleeps);
    WritingKeepsGoing(file, start, sendLen, script, s0, s, chunk);
  }

  /** One turn of the chunk loop, once there is room. It either goes on, or stops for a reason
      with something left. */
  method SendChunk(file: string, start: nat, sendLen: nat, script: Script, s0: Sent, pending0: nat)
    returns (s: Sent, pending: nat, stop: bool)
    requires Going(file, start, sendLen, script, s0) && s0.remaining > 0 && s0.full
    requires pending0 <= BACKPRESSURE_THRESHOLD
    ensures Accounted(script, sendLen, s) && Bounded(s) && IsSlice(s.Handed(), file, start)
    ensures !stop ==> Going(file, start, sendLen, script, s) && s.remaining < s0.remaining
    ensures stop ==> s.remaining == s0.remaining && Stopped(script, s) && Refused(script, s) <= s.remaining
    ensures ReadsAreFull(file, start, sendLen, script) ==> s.full
    ensures s.timedOut == s0.timedOut && s.sleeps == s0.sleeps
    ensures stop || |s.writes| == |s0.writes| + 1
    ensures
      var asked := if s0.remaining < 262144 then s0.remaining else 262144;
      var there := Least(script(s0.calls).available, Rest(file, start + |s0.Handed()|));
      && s.full == (there >= asked)
      && (if script(s0.calls).delivered && Least(asked, there) > 0
          then |s.chunks| == |s0.chunks| + 1 && |s.chunks[|s0.chunks|]| == Least(asked, there)
          else s.chunks == s0.chunks)
    ensures |s.writes| == |s0.writes| + 1 ==>
      var turn := script(s0.calls);
      && s.peaks == s0.peaks + [pending]
      && pending == Drain(pending0, turn.drained) + if turn.code >= 0 then |s.chunks[|s.writes| - 1]| else 0
  {
    var toRead := if s0.remaining < CHUNK_SIZE then s0.remaining else CHUNK_SIZE;
    var turn := script(s0.calls);
    var chunk := ReadChunk(file, start + |s0.Handed()|, toRead, turn.available);
    ReadIsFull(file, start, sendLen, script, s0, toRead);
    ReadLength(file, start + |s0.Handed()|, toRead, turn.available);
    var full := |chunk| == toRead;
    if |chunk| <= 0 {
      s := s0.(full := full);
      ReadingStops(file, start, sendLen, script, s0, s);
      return s, pending0, true;
    }
    if !turn.delivered {
      s := s0.(calls := s0.calls + 1, full := full);
      ReadingStops(file, start, sendLen, script, s0, s);
      return s, Drain(pending0, turn.drained), true;
    }
    s, pending := WriteChunk(file, start, sendLen, script, s0, chunk, full, pending0);
    stop := !Takes(turn);
  }

  /** What the chunk loop makes of a part of a file. */
  ghost predicate IsSent(file: string, start: nat, sendLen: nat, script: Script, s: Sent) {
    && Accounted(script, sendLen, s) && Bounded(s)
    && IsSlice(s.Handed(), file, start) && |s.Handed()| <= sendLen
    && (s.remaining == 0 ==> Refused(script, s) == 0 && !s.timedOut)
    && (s.remaining > 0 ==> Stopped(script, s))
    && (s.timedOut ==> s.sleeps != [] && s.sleeps[|s.sleeps| - 1] == TIMEOUT_MS / WAIT_MS)
    && (ReadsAreFull(file, start, sendLen, script) ==> s.full)
  }

  lemma StoppingIsSent(file: string, start: nat, sendLen: nat, script: Script, s: Sent)
    requires Accounted(script, sendLen, s) && Bounded(s) && IsSlice(s.Handed(), file, start)
    requires s.remaining > 0 && !s.timedOut && Stopped(script, s) && Refused(script, s) <= s.remaining
    requires ReadsAreFull(file, start, sendLen, script) ==> s.full
    ensures IsSent(file, start, sendLen, script, s)
  {}

  lemma WaitingInVainIsSent(file: string, start: nat, sendLen: nat, script: Script, s: Sent, timedOut: bool)
    requires Going(file, start, sendLen, script, s) && s.remaining > 0 && s.full
    requires if timedOut then s.sleeps != [] && s.sleeps[|s.sleeps| - 1] == TIMEOUT_MS / WAIT_MS
             else s.calls > 0 && !(script(s.calls - 1).delivered && script(s.calls - 1).connected)
    ensures IsSent(file, start, sendLen, script, s.(timedOut := timedOut))
  {}

  lemma GoingIsSent(file: string, start: nat, sendLen: nat, script: Script, s: Sent)
    requires Going(file, start, sendLen, script, s) && !(s.remaining > 0 && s.full)
    requires ReadsAreFull(file, start, sendLen, script) ==> s.full
    ensures IsSent(file, start, sendLen, script, s)
  {}

  /** The chunk loop, from its first turn to its exit. */
  method SendChunks(file: string, start: nat, sendLen: nat, script: Script, pending0: nat) returns (s: Sent)
    ensures IsSent(file, start, sendLen, script, s)
  {
    s := Sent(sendLen, false, true, [], [], 0, [], []);
    var pending: nat := pending0;
    while s.remaining > 0 && s.full
      invariant Going(file, start, sendLen, script, s)
      invariant ReadsAreFull(file, start, sendLen, script) ==> s.full
      decreases s.remaining
    {
      var ready := WaitForRoom(script, pending, s.calls);
      WaitingKeepsGoing(file, start, sendLen, script, s, ready.calls, ready.sleeps);
      s := s.(calls := ready.calls, sleeps := s.sleeps + [ready.sleeps]);
      if !ready.ok {
        WaitingInVainIsSent(file, start, sendLen, script, s, ready.timedOut);
        return s.(timedOut := ready.timedOut);
      }
      var stop: bool;
      s, pending, stop := SendChunk(file, start, sendLen, script, s, ready.pending);
      if stop {
        StoppingIsSent(file, start, sendLen, script, s);
        return;
      }
    }
    GoingIsSent(file, start, sendLen, script, s);
  }

  /** `ifs.read` at a position: a slice of the file, possibly short. */
  function ReadChunk(file: string, pos: nat, toRead: nat, available: nat): (chunk: string)
    ensures |chunk| <= toRead
    ensures IsSlice(chunk, file, pos)
    ensures toRead <= available && pos + toRead <= |file| ==> |chunk| == toRead
  {
    var rest := if pos <= |file| then |file| - pos else 0;
    var limit := if toRead <= rest then toRead else rest;
    var got := if available < limit then available else limit;
    if got == 0 then [] else file[pos..pos + got]
  }

  /** Everything `send` finds out about its surroundings. `path` is the file's path as a C string
      and `file` its contents if it opens. */
  datatype World = World(
    path: string, file: Option<string>, seekable: bool, available: nat,
    hasWriter: bool, hasLoop: bool, header: Turn, pending: nat, script: Script)

  /** What `serveFile` leaves in the response. */
  datatype Served = Forbidden | NotLoaded | Loaded(text: string)

  /** How `send` leaves: a body in the response, what `serveFile` put there, an error response,
      the chunks handed to the writer, or an exception. */
  datatype Answer =
    | Body(text: string)
    | ServedFile(served: Served)
    | ErrorResponse
    | HeadersFailed
    | Streamed(sent: Sent)
    | Threw

  predicate HasDots(path: string) {
    exists i :: 0 <= i < |path| - 1 && path[i] == path[i + 1] == '.'
  }

  /** A path with two dots in a row is refused, and the result of loading the file is dropped. */
  function ServedFrom(w: World): Served {
    if HasDots(w.path) then Forbidden
    else match w.file
      case None => NotLoaded
      case Some(file) => Loaded(ReadChunk(file, 0, |file|, w.available))
  }

  method ServeFile(w: World) returns (served: Served)
    ensures served == ServedFrom(w)
  {
    var i := 0;
    while i < |w.path|
      invariant i <= |w.path|
      invariant forall j :: 0 <= j < i && j < |w.path| - 1 ==> !(w.path[j] == w.path[j + 1] == '.')
    {
      if i + 1 < |w.path| && w.path[i] == '.' && w.path[i + 1] == '.' {
        return Forbidden;
      }
      i := i + 1;
    }
    match w.file
    case None => served := NotLoaded;
    case Some(file) => served := Loaded(ReadChunk(file, 0, |file|, w.available));
  }

  /** A string of the requested length: what could be read, followed by zero characters. */
  function ZeroFilled(text: string, length: nat): (body: string)
    requires |text| <= length
    ensures |body| == length && body[..|text|] == text
    ensures forall i :: |text| <= i < length ==> body[i] == '\0'
  {
    text + seq(length - |text|, _ => '\0')
  }

  /** What the path without a writer manages to read of a range. */
  function FallbackRead(w: World, start: nat, sendLen: nat): (text: string)
    ensures |text| <= sendLen
    ensures w.file.Some? ==> IsSlice(text, w.file.value, start)
  {
    if w.file.Some? && w.seekable then ReadChunk(w.file.value, start, sendLen, w.available) else []
  }

  predicate IsPart(text: string, file: string, start: nat, length: int) {
    |text| == length && IsSlice(text, file, start)
  }

  /** No loop to run on, no file, or a range that cannot be reached. */
  predicate Unready(p: Params, w: World) {
    !w.hasLoop || w.file.None? || (p.Ranged() && !w.seekable)
  }

  predicate HeadersSent(w: World) {
    w.header.delivered && w.header.code >= 0
  }

  /** A range of negative length is small, and the string for its body throws. */
  predicate Throws(p: Params, w: World) {
    p.Ranged() && p.Length() < 0 && w.file.Some? && w.seekable
  }

  /** The file opens, reaches to the end of the range and has it ready. */
  predicate ReadsRange(p: Params, w: World) {
    && w.file.Some? && w.seekable && 0 <= p.Length() <= w.available
    && (p.Length() > 0 ==> p.Start() + p.Length() <= |w.file.value|)
  }

  /** Which inputs lead to which answer. */
  ghost predicate Answers(p: Params, w: World, a: Answer) {
    if p.Length() < 4194304 && p.Ranged() then
      && (a.Threw? <==> Throws(p, w))
      && (a.Body? <==> ReadsRange(p, w))
      && (a.Body? ==> IsPart(a.text, w.file.value, p.Start(), p.Length()))
      && (a.Threw? || a.Body? || a.ErrorResponse?)
    else if p.Length() < 4194304 || (!w.hasWriter && !p.Ranged()) then
      a == ServedFile(ServedFrom(w))
    else if !w.hasWriter then
      a == Body(ZeroFilled(FallbackRead(w, p.Start(), p.Length()), p.Length()))
    else
      && (a.ErrorResponse? <==> Unready(p, w))
      && (a.HeadersFailed? <==> !Unready(p, w) && !HeadersSent(w))
      && (a.Streamed? <==> !Unready(p, w) && HeadersSent(w))
      && (a.Streamed? ==> IsSent(w.file.value, p.Start(), p.Length(), w.script, a.sent))
  }

  /** What `send` reports: an answer counts as a success if it put something into the response,
      or if nothing remains to be sent. */
  predicate Claims(a: Answer) {
    a.Body? || a.ServedFile? || (a.Streamed? && a.sent.remaining == 0)
  }

  /** What the client was given is the part of the file that was asked for. */
  predicate Delivers(p: Params, w: World, a: Answer) {
    w.file.Some? &&
    match a
    case Body(text) => IsPart(text, w.file.value, p.Start(), p.Length())
    case ServedFile(Loaded(text)) => IsPart(text, w.file.value, p.Start(), p.Length())
    case Streamed(sent) => sent.remaining == 0 && IsPart(sent.Handed(), w.file.value, p.Start(), p.Length())
    case _ => false
  }

  /** The path for a small range: the body, an error, or the exception for a negative length. */
  method ReadSmallRange(p: Params, w: World) returns (answer: Answer)
    requires p.Ranged() && p.Length() < STREAM_THRESHOLD
    ensures Answers(p, w, answer)
  {
    answer := ErrorResponse;
    if w.file.Some? && w.seekable {
      if p.Length() < 0 {
        return Threw;
      }
      var text := ReadChunk(w.file.value, p.Start(), p.Length(), w.available);
      if |text| == p.Length() {
        answer := Body(text);
      }
    }
  }

  class Transfer {
    const stats: Stats.Stats
    var completions: seq<bool>

    constructor ()
      ensures fresh(stats) && stats.View() == Stats.Counters(0, 0, 0, 0) && completions == []
    {
      stats := new Stats.Stats();
      completions := [];
    }

    method Report(success: bool)
      modifies stats, this`completions
      ensures stats.View() == Stats.RecordEnd(old(stats.View()), success)
      ensures completions == old(completions) + [success]
    {
      stats.End(success);
      completions := completions + [success];
    }

    /** Every exit path of `send` ends the statistics and completes once, with the same flag,
        except the one where a negative range length makes the body string throw. When a success
        delivers what was asked for is the subject of `SuccessDeliversIff`. */
    method Send(p: Params, w: World) returns (answer: Answer, success: bool)
      modifies stats, this`completions
      ensures Answers(p, w, answer) && (success <==> Claims(answer))
      ensures answer.Threw? ==>
        stats.View() == Stats.RecordStart(old(stats.View()), p.Length()) && completions == old(completions)
      ensures !answer.Threw? ==>
        && stats.View() == Stats.RecordEnd(Stats.RecordStart(old(stats.View()), p.Length()), success)
        && completions == old(completions) + [success]
    {
      var isRange := p.rangeStart >= 0 && p.rangeEnd >= 0;
      var sendStart: nat := if isRange then p.rangeStart else 0;
      var sendLen := if isRange then p.rangeEnd - p.rangeStart + 1 else p.fileSize;
      success := false;
      stats.Start(sendLen);
      if sendLen < STREAM_THRESHOLD {
        if isRange {
          answer := ReadSmallRange(p, w);
          if answer.Threw? {
            return answer, false;
          }
          success := answer.Body?;
        } else {
          var served := ServeFile(w);
          answer, success := ServedFile(served), true;
        }
        Report(success);
        return;
      }
      if !w.hasWriter {
        if isRange {
          answer := Body(ZeroFilled(FallbackRead(w, sendStart, sendLen), sendLen));
        } else {
          var served := ServeFile(w);
          answer := ServedFile(served);
        }
        success := true;
        Report(success);
        return;
      }
      if !w.hasLoop || w.file.None? || (isRange && !w.seekable) {
        answer := ErrorResponse;
        Report(false);
        return;
      }
      if !w.header.delivered || w.header.code < 0 {
        answer := HeadersFailed;
        Report(false);
        return;
      }
      var sent := SendChunks(w.file.value, sendStart, sendLen, w.script, w.pending);
      answer := Streamed(sent);
      success := sent.remaining == 0 && !sent.timedOut;
      Report(success);
    }
  }

  /** `serveFile` is used, and the whole of what was asked for is loaded. */
  predicate ServesWhole(p: Params, w: World) {
    && !HasDots(w.path) && w.file.Some?
    && p.Length() == if w.available < |w.file.value| then w.available else |w.file.value|
  }

  /** The bytes of the range that the path without a writer fails to read are zeros in the file. */
  predicate MissesOnlyZeros(p: Params, w: World)
    requires p.Length() >= 0
  {
    var from, to := p.Start() + |FallbackRead(w, p.Start(), p.Length())|, p.Start() + p.Length();
    w.file.Some? && (p.Length() > 0 ==> to <= |w.file.value|) && IsZero(w.file.value, from, to)
  }

  predicate IsZero(file: string, from: nat, to: nat) {
    forall k :: from <= k < to && k < |file| ==> file[k] == '\0'
  }

  /** When a success is one. Reading a small range and streaming to a writer, always. What
      `serveFile` is used for, exactly if its path is not refused and the file loads with the
      length asked for. A large range without a writer, exactly if nothing but zeros is missed. */
  ghost predicate Succeeds(p: Params, w: World) {
    if p.Length() < 4194304 then p.Ranged() || ServesWhole(p, w)
    else w.hasWriter || if p.Ranged() then MissesOnlyZeros(p, w) else ServesWhole(p, w)
  }

  lemma ZeroFilledIsPart(file: string, start: nat, n: nat, read: string)
    requires 0 < n && |read| <= n && start + n <= |file| && IsSlice(read, file, start)
    ensures ZeroFilled(read, n) == file[start..start + n] <==> IsZero(file, start + |read|, start + n)
  {
    var body, part := ZeroFilled(read, n), file[start..start + n];
    forall i | 0 <= i < |read| ensures body[i] == part[i] {
      assert body[i] == body[..|read|][i] == read[i] == part[i];
    }
    if IsZero(file, start + |read|, start + n) {
      assert forall i :: |read| <= i < n ==> part[i] == file[start + i] == '\0';
      assert body == part;
    }
    if body == part {
      forall k | start + |read| <= k < start + n ensures file[k] == '\0' {
        assert file[k] == part[k - start] == body[k - start];
      }
    }
  }

  lemma FallbackDelivers(p: Params, w: World)
    requires p.Length() >= 0
    ensures
      var body := ZeroFilled(FallbackRead(w, p.Start(), p.Length()), p.Length());
      Delivers(p, w, Body(body)) <==> MissesOnlyZeros(p, w)
    ensures p.Length() > 0 ==>
      (|FallbackRead(w, p.Start(), p.Length())| == p.Length() <==> ReadsRange(p, w))
  {
    var start, n: nat := p.Start(), p.Length();
    if w.file.Some? && n > 0 && start + n <= |w.file.value| {
      ZeroFilledIsPart(w.file.value, start, n, FallbackRead(w, start, n));
    }
  }

  lemma ServingDelivers(p: Params, w: World)
    requires !p.Ranged()
    ensures Delivers(p, w, ServedFile(ServedFrom(w))) <==> ServesWhole(p, w)
  {}

  /** A completion reported as successful has delivered what was asked for exactly under a
      condition on the inputs, whatever they are and whichever way `send` took. */
  lemma SuccessDeliversIff(p: Params, w: World, a: Answer)
    requires Answers(p, w, a) && Claims(a)
    ensures Delivers(p, w, a) <==> Succeeds(p, w)
  {
    if p.Length() < STREAM_THRESHOLD && p.Ranged() {
    } else if p.Length() < STREAM_THRESHOLD || (!w.hasWriter && !p.Ranged()) {
      ServingDelivers(p, w);
    } else if !w.hasWriter {
      FallbackDelivers(p, w);
    }
  }

  function AnyWorld(path: string, file: Option<string>, hasWriter: bool, script: Script): World {
    World(path, file, true, 0, hasWriter, true, script(0), 0, script)
  }

  /** A small file that does not exist is reported as sent, with a writer or without. */
  lemma MissingFileIsReportedSent(hasWriter: bool, script: Script, a: Answer)
    requires Answers(Params(1, -1, -1), AnyWorld("a", None, hasWriter, script), a)
    ensures Claims(a) && !Delivers(Params(1, -1, -1), AnyWorld("a", None, hasWriter, script), a)
  {}

  /** So is one whose path is refused. */
  lemma RefusedPathIsReportedSent(hasWriter: bool, script: Script, a: Answer)
    requires Answers(Params(1, -1, -1), AnyWorld("../a", Some("x"), hasWriter, script), a)
    ensures a == ServedFile(Forbidden) && Claims(a)
    ensures !Delivers(Params(1, -1, -1), AnyWorld("../a", Some("x"), hasWriter, script), a)
  {
    assert "../a"[0] == "../a"[1] == '.';
  }

  /** And so is a large range of a file that has nothing ready, with a body of zeros. */
  lemma FallbackCanMissTheFile(script: Script, a: Answer)
    ensures
      var n: nat := STREAM_THRESHOLD;
      var p, w := Params(n, 0, n - 1), AnyWorld("a", Some(seq(n, _ => 'a')), false, script);
      Answers(p, w, a) ==> Claims(a) && !Delivers(p, w, a)
  {
    var n: nat := STREAM_THRESHOLD;
    var p, w := Params(n, 0, n - 1), AnyWorld("a", Some(seq(n, _ => 'a')), false, script);
    if Answers(p, w, a) {
      SuccessDeliversIff(p, w, a);
      assert w.file.value[0 + 0] == 'a';
    }
  }

  /** A range that ends before it starts throws if the file can be read. */
  lemma BackwardRangeThrows(script: Script, a: Answer)
    requires Answers(Params(9, 5, 3), AnyWorld("a", Some("x"), true, script), a)
    ensures a == Threw
  {}
}
