/** The stream pumps of PID 1: a bounded, compacting buffer between two nonblocking
    descriptors, and the pump that ends its sink after an announced number of bytes. */
module Pump {
  import opened Bytes
  import opened Loops

  const MAX_PUMP_BUFFER := 64 * 1024
  const IO_CHUNK := 8192

  function Min(a: nat, b: nat): nat {
    if a <= b then a else b
  }

  class PumpBuffer {
    var bytes: seq<Byte>
    var offset: nat
    const capacity: nat

    /** The capacity bounds the backing store, not only the queue inside it. */
    ghost predicate Valid()
      reads this
    {
      0 < capacity && offset <= |bytes| <= capacity
    }

    /** The queued bytes, oldest first. */
    function Contents(): seq<Byte>
      requires offset <= |bytes|
      reads this
    {
      bytes[offset..]
    }

    constructor (capacity: nat)
      requires capacity > 0
      ensures Valid() && Contents() == [] && this.capacity == capacity
    {
      this.capacity := capacity;
      bytes := [];
      offset := 0;
    }

    function RemainingCapacity(): nat
      requires Valid()
      reads this
    {
      capacity - (|bytes| - offset)
    }

    /** Appends as much of the input as fits and says how much that was. */
    method Push(input: seq<Byte>) returns (count: nat)
      requires Valid()
      modifies this
      ensures Valid()
      ensures count == Min(|input|, capacity - |old(Contents())|)
      ensures Contents() == old(Contents()) + input[..count]
    {
      count := Min(|input|, RemainingCapacity());
      if count == 0 {
        assert Contents() == old(Contents()) + input[..0];
        return;
      }
      CompactFor(count);
      bytes := bytes + input[..count];
      assert Contents() == old(Contents()) + input[..count];
    }

    method Consume(count: nat)
      requires Valid()
      modifies this
      ensures Valid()
      ensures Contents() == old(Contents())[Min(count, |old(Contents())|)..]
    {
      var actual := Min(count, |bytes| - offset);
      offset := offset + actual;
      if offset == |bytes| {
        bytes := [];
        offset := 0;
      }
    }

    /** Drops the consumed prefix when the tail cannot take `count` more bytes. */
    method CompactFor(count: nat)
      requires Valid() && count <= RemainingCapacity()
      modifies this
      ensures Valid() && Contents() == old(Contents()) && |bytes| + count <= capacity
    {
      if offset > 0 && |bytes| + count > capacity {
        bytes := bytes[offset..];
        offset := 0;
      }
    }
  }

  /** What a nonblocking read may answer. `Data` offers bytes, of which the kernel hands out
      at most as many as asked for; no bytes is end of file. */
  datatype ReadAnswer = Data(bytes: seq<Byte>) | ReadWouldBlock | ReadInterrupted | Eio | ReadFailed

  /** What a nonblocking write may answer. `Accepted` is cut to what was offered. */
  datatype WriteAnswer = Accepted(count: nat) | WriteWouldBlock | WriteInterrupted | BrokenPipe | WriteFailed

  datatype Error =
    | EndedEarly(missing: nat)
    | Accounting
    | SinkClosedWithBytes
    | ZeroLengthWrite
    | Io

  /** Neither of the two failures that would mean the pump lost count of its own bytes. */
  predicate Accountable<T>(r: Result<T, Error>) {
    r.Ok? || (r.error != Accounting && r.error != SinkClosedWithBytes)
  }

  /** How far a read loop or a write loop is: going on, pausing until the next readiness, at
      the end of its stream, or failed. */
  datatype Stop = Going | Paused | Ended | Fault(error: Error)

  /** The result of a loop body: whether the loop stops, or the error. */
  function Verdict(stop: Stop): Result<bool, Error> {
    if stop.Fault? then Err(stop.error) else Ok(!stop.Going?)
  }

  /** The reading side: everything taken so far, the room in the buffer, and what is still
      announced. */
  datatype Intake = Intake(taken: seq<Byte>, room: nat, budget: Option<nat>, stop: Stop)

  predicate Reads(f: Intake) {
    f.stop.Going? && f.room > 0 && f.budget != Some(0)
  }

  function ReadStep(f: Intake, eioIsEof: bool, answer: ReadAnswer): Intake
    requires Reads(f)
  {
    match answer
    case Data(offered) =>
      if offered == [] then f.(stop := if f.budget.Some? then Fault(EndedEarly(f.budget.value)) else Ended)
      else
        var chunk := Chunk(offered, f.room, f.budget);
        Intake(f.taken + chunk, f.room - |chunk|, Spent(f.budget, |chunk|),
            if f.budget == Some(|chunk|) then Ended else Going)
    case ReadWouldBlock => f.(stop := Paused)
    case ReadInterrupted => f
    case Eio => f.(stop := if eioIsEof then Ended else Fault(Io))
    case ReadFailed => f.(stop := Fault(Io))
  }

  /** What a read loop makes of a list of answers. */
  function Reading(f: Intake, eioIsEof: bool, answers: seq<ReadAnswer>): Intake
    decreases |answers|
  {
    if answers == [] || !Reads(f) then f else Reading(ReadStep(f, eioIsEof, answers[0]), eioIsEof, answers[1..])
  }

  /** The part of an offer that one read takes. */
  function Chunk(offered: seq<Byte>, room: nat, budget: Option<nat>): (c: seq<Byte>)
    requires room > 0 && budget != Some(0)
    ensures |c| <= room && (budget.Some? ==> |c| <= budget.value) && (offered != [] ==> c != [])
  {
    offered[..Min(|offered|, Asked(room, budget))]
  }

  function Asked(room: nat, budget: Option<nat>): nat {
    var asked := Min(room, IO_CHUNK);
    if budget.Some? then Min(asked, budget.value) else asked
  }

  function Spent(budget: Option<nat>, count: nat): Option<nat>
    requires budget.Some? ==> count <= budget.value
  {
    if budget.Some? then Some(budget.value - count) else None
  }

  /** The writing side: everything written so far and the queue. */
  datatype Outlet = Outlet(written: seq<Byte>, queue: seq<Byte>, stop: Stop)

  predicate Writes(f: Outlet) {
    f.stop.Going? && f.queue != []
  }

  function WriteStep(f: Outlet, isOutput: bool, answer: WriteAnswer): Outlet
    requires Writes(f)
  {
    match answer
    case Accepted(n) =>
      var count := Min(n, |f.queue|);
      if count == 0 then f.(stop := Fault(ZeroLengthWrite))
      else Outlet(f.written + f.queue[..count], f.queue[count..], Going)
    case WriteWouldBlock => f.(stop := Paused)
    case WriteInterrupted => f
    case BrokenPipe => if isOutput then f.(stop := Fault(Io)) else f.(queue := [], stop := Ended)
    case WriteFailed => f.(stop := Fault(Io))
  }

  /** What a write loop makes of a list of answers. `Ended` is a reader that went away. */
  function Writing(f: Outlet, isOutput: bool, answers: seq<WriteAnswer>): Outlet
    decreases |answers|
  {
    if answers == [] || !Writes(f) then f else Writing(WriteStep(f, isOutput, answers[0]), isOutput, answers[1..])
  }

  // ---------------------------------------------------------------------------------------
  // What the answers mean

  /** After this answer the next read follows at once. */
  predicate KeepsReading(a: ReadAnswer) {
    (a.Data? && a.bytes != []) || a.ReadInterrupted?
  }

  /** What reading ends with after its last answer: `left` bytes of an announced stream are
      missing. */
  ghost predicate ReadingEnded(a: ReadAnswer, eioIsEof: bool, left: Option<nat>, open: bool, r: Result<bool, Error>) {
    match a
    case Data(bytes) =>
      if bytes != [] then r.Ok? && (open <==> left != Some(0))
      else if left.Some? then left.value > 0 && r == Err(EndedEarly(left.value)) && open
      else r == Ok(true) && !open
    case ReadWouldBlock => r == Ok(true) && open
    case ReadInterrupted => r == Ok(false) && open
    case Eio => if eioIsEof then r == Ok(true) && !open else r == Err(Io) && open
    case ReadFailed => r == Err(Io) && open
  }

  ghost function ReadNext(eioIsEof: bool): (Intake, ReadAnswer) -> Intake {
    (f: Intake, a: ReadAnswer) => if Reads(f) then ReadStep(f, eioIsEof, a) else f
  }

  lemma {:induction false} ReadingIsALoop(f: Intake, eioIsEof: bool, answers: seq<ReadAnswer>)
    ensures Reading(f, eioIsEof, answers) == Loop(ReadNext(eioIsEof), Reads, f, answers)
    decreases |answers|
  {
    if answers != [] && Reads(f) { ReadingIsALoop(ReadStep(f, eioIsEof, answers[0]), eioIsEof, answers[1..]); }
  }

  /** The answers that a read loop takes. */
  ghost predicate ReadsTake(f: Intake, eioIsEof: bool, answers: seq<ReadAnswer>, now: seq<ReadAnswer>) {
    Takes(ReadNext(eioIsEof), Reads, f, answers, now)
  }

  lemma ReadStepTold(f: Intake, eioIsEof: bool, a: ReadAnswer)
    requires Reads(f)
    ensures var g := ReadStep(f, eioIsEof, a);
            && ReadingEnded(a, eioIsEof, g.budget, !g.stop.Ended?, Verdict(g.stop))
            && (Reads(g) ==> KeepsReading(a)) && (KeepsReading(a) && !Reads(g) ==> g.room == 0 || g.stop.Ended?)
  {
  }

  /** Every answer but the last keeps the loop going, the last decides how it ends, and reading
      stops before the answers do only when the buffer is full or the announced bytes are there. */
  lemma ReadingTold(f: Intake, eioIsEof: bool, answers: seq<ReadAnswer>, now: seq<ReadAnswer>)
    requires f.stop.Going? && f.budget != Some(0) && ReadsTake(f, eioIsEof, answers, now)
    ensures var g := Reading(f, eioIsEof, answers);
            && (forall i :: 0 <= i < |now| - 1 ==> KeepsReading(now[i]))
            && (now == [] ==> g == f)
            && (now != [] ==> ReadingEnded(now[|now| - 1], eioIsEof, g.budget, !g.stop.Ended?, Verdict(g.stop)))
            && (|now| < |answers| && (now == [] || KeepsReading(now[|now| - 1])) ==> g.room == 0 || g.stop.Ended?)
  {
    var step := ReadNext(eioIsEof);
    forall t, a | Reads(t) && Reads(step(t, a)) ensures KeepsReading(a) { ReadStepTold(t, eioIsEof, a); }
    ReadingIsALoop(f, eioIsEof, answers);
    var e := LoopEnds(step, Reads, KeepsReading, f, answers, now);
    if now != [] {
      ReadStepTold(e, eioIsEof, now[|now| - 1]);
    }
  }

  function BytesOf(a: ReadAnswer): seq<Byte> {
    if a.Data? then a.bytes else []
  }

  /** All bytes in these answers. */
  ghost function Offered(answers: seq<ReadAnswer>): seq<Byte> {
    if answers == [] then [] else BytesOf(answers[0]) + Offered(answers[1..])
  }

  /** The bytes of these answers fit: no answer offers more than one read asks for, and together
      they are no more than there is room for and than were announced. */
  ghost predicate Fit(answers: seq<ReadAnswer>, room: nat, budget: Option<nat>) {
    && (forall i :: 0 <= i < |answers| ==> |BytesOf(answers[i])| <= IO_CHUNK)
    && |Offered(answers)| <= room && (budget.Some? ==> |Offered(answers)| <= budget.value)
  }

  /** Taking the rest of the answers gives these bytes. */
  ghost predicate Gives(f: Intake, rest: seq<ReadAnswer>, all: seq<Byte>) {
    Fit(rest, f.room, f.budget) && f.taken + Offered(rest) == all
  }

  lemma FittingStep(f: Intake, eioIsEof: bool, rest: seq<ReadAnswer>, all: seq<Byte>)
    requires Reads(f) && rest != [] && Gives(f, rest, all)
    ensures Gives(ReadStep(f, eioIsEof, rest[0]), rest[1..], all)
  {
    var a, later := rest[0], rest[1..];
    assert forall i :: 0 <= i < |later| ==> later[i] == rest[i + 1];
    assert |Offered(rest)| == |BytesOf(a)| + |Offered(later)|;
    if a.Data? {
      assert a.bytes[..|a.bytes|] == a.bytes;
    }
    assert f.taken + BytesOf(a) + Offered(later) == f.taken + Offered(rest);
    assert f.taken + [] == f.taken;
  }

  /** Bytes that fit are all taken, in order. */
  lemma FittingReadsAreTaken(f: Intake, eioIsEof: bool, answers: seq<ReadAnswer>, now: seq<ReadAnswer>)
    requires ReadsTake(f, eioIsEof, answers, now) && Fit(now, f.room, f.budget)
    ensures Reading(f, eioIsEof, answers).taken == f.taken + Offered(now)
  {
    var step, all := ReadNext(eioIsEof), f.taken + Offered(now);
    var inv := (t: Intake, rest: seq<ReadAnswer>) => Gives(t, rest, all);
    forall t, rest: seq<ReadAnswer> | rest != [] && Reads(t) && inv(t, rest) ensures inv(step(t, rest[0]), rest[1..]) {
      FittingStep(t, eioIsEof, rest, all);
    }
    ReadingIsALoop(f, eioIsEof, answers);
    LoopKeeps(step, Reads, inv, f, answers, now);
    var g := Reading(f, eioIsEof, answers);
    assert g.taken + [] == g.taken;
  }

  /** What one pass over a readable source amounts to: it takes `now` of the answers; each but the
      last keeps it reading; the last decides how it ends; and it leaves answers untaken only
      when the buffer is full or the stream has ended. */
  ghost predicate ReadReport(answers: seq<ReadAnswer>, now: seq<ReadAnswer>, eioIsEof: bool, left: Option<nat>,
                             open: bool, full: bool, r: Result<bool, Error>) {
    && now <= answers && (forall i :: 0 <= i < |now| - 1 ==> KeepsReading(now[i]))
    && (if now == [] then r == Ok(false) && open else ReadingEnded(now[|now| - 1], eioIsEof, left, open, r))
    && (|now| < |answers| && (now == [] || KeepsReading(now[|now| - 1])) ==> full || !open)
  }

  lemma RoomIsSpent(f: Intake, eioIsEof: bool, answers: seq<ReadAnswer>, now: seq<ReadAnswer>)
    requires ReadsTake(f, eioIsEof, answers, now)
    ensures var g := Reading(f, eioIsEof, answers); g.room + |g.taken| == f.room + |f.taken|
  {
    var all := f.room + |f.taken|;
    ReadingIsALoop(f, eioIsEof, answers);
    var inv := (t: Intake, rest: seq<ReadAnswer>) => t.room + |t.taken| == all;
    LoopKeeps(ReadNext(eioIsEof), Reads, inv, f, answers, now);
  }

  lemma ReadingReported(f: Intake, eioIsEof: bool, answers: seq<ReadAnswer>) returns (now: seq<ReadAnswer>)
    requires f.stop.Going? && f.budget != Some(0)
    ensures var g := Reading(f, eioIsEof, answers);
            && ReadReport(answers, now, eioIsEof, g.budget, !g.stop.Ended?, g.room == 0, Verdict(g.stop))
            && g.room + |g.taken| == f.room + |f.taken|
            && (Fit(now, f.room, f.budget) ==> g.taken == f.taken + Offered(now))
  {
    now := answers[..Used(ReadNext(eioIsEof), Reads, f, answers)];
    ReadingTold(f, eioIsEof, answers, now);
    RoomIsSpent(f, eioIsEof, answers, now);
    if Fit(now, f.room, f.budget) {
      FittingReadsAreTaken(f, eioIsEof, answers, now);
    }
  }

  /** After this answer the next write follows at once, if bytes are left. */
  predicate KeepsWriting(a: WriteAnswer) {
    (a.Accepted? && a.count > 0) || a.WriteInterrupted?
  }

  /** What writing ends with after its last answer; `gone` is a reader that went away. */
  ghost predicate WritingEnded(a: WriteAnswer, isOutput: bool, gone: bool, r: Result<bool, Error>) {
    match a
    case Accepted(n) => !gone && (if n > 0 then r == Ok(false) else r == Err(ZeroLengthWrite))
    case WriteWouldBlock => !gone && r == Ok(true)
    case WriteInterrupted => !gone && r == Ok(false)
    case BrokenPipe => if isOutput then !gone && r == Err(Io) else gone && r == Ok(true)
    case WriteFailed => !gone && r == Err(Io)
  }

  ghost function WriteNext(isOutput: bool): (Outlet, WriteAnswer) -> Outlet {
    (f: Outlet, a: WriteAnswer) => if Writes(f) then WriteStep(f, isOutput, a) else f
  }

  lemma {:induction false} WritingIsALoop(f: Outlet, isOutput: bool, answers: seq<WriteAnswer>)
    ensures Writing(f, isOutput, answers) == Loop(WriteNext(isOutput), Writes, f, answers)
    decreases |answers|
  {
    if answers != [] && Writes(f) { WritingIsALoop(WriteStep(f, isOutput, answers[0]), isOutput, answers[1..]); }
  }

  /** The answers that a write loop takes. */
  ghost predicate WritesTake(f: Outlet, isOutput: bool, answers: seq<WriteAnswer>, now: seq<WriteAnswer>) {
    Takes(WriteNext(isOutput), Writes, f, answers, now)
  }

  lemma WriteStepTold(f: Outlet, isOutput: bool, a: WriteAnswer)
    requires Writes(f)
    ensures var g := WriteStep(f, isOutput, a);
            && WritingEnded(a, isOutput, g.stop.Ended?, Verdict(g.stop))
            && (Writes(g) ==> KeepsWriting(a)) && (KeepsWriting(a) && !Writes(g) ==> g.queue == [])
  {
  }

  /** The same for writing, which stops before the answers do only when nothing is queued. */
  lemma WritingTold(f: Outlet, isOutput: bool, answers: seq<WriteAnswer>, now: seq<WriteAnswer>)
    requires f.stop.Going? && WritesTake(f, isOutput, answers, now)
    ensures var g := Writing(f, isOutput, answers);
            && (forall i :: 0 <= i < |now| - 1 ==> KeepsWriting(now[i]))
            && (now == [] ==> g == f)
            && (now != [] ==> WritingEnded(now[|now| - 1], isOutput, g.stop.Ended?, Verdict(g.stop)))
            && (|now| < |answers| && (now == [] || KeepsWriting(now[|now| - 1])) ==> g.queue == [])
  {
    var step := WriteNext(isOutput);
    forall t, a | Writes(t) && Writes(step(t, a)) ensures KeepsWriting(a) { WriteStepTold(t, isOutput, a); }
    WritingIsALoop(f, isOutput, answers);
    var e := LoopEnds(step, Writes, KeepsWriting, f, answers, now);
    if now != [] {
      WriteStepTold(e, isOutput, now[|now| - 1]);
    }
  }

  function CountOf(a: WriteAnswer): nat {
    if a.Accepted? then a.count else 0
  }

  /** How many bytes these answers accept. */
  ghost function AcceptedBy(answers: seq<WriteAnswer>): nat {
    if answers == [] then 0 else CountOf(answers[0]) + AcceptedBy(answers[1..])
  }

  /** Writing what the rest of the answers accept gives these bytes. */
  ghost predicate Hands(f: Outlet, rest: seq<WriteAnswer>, all: seq<Byte>) {
    f.written + f.queue[..Min(AcceptedBy(rest), |f.queue|)] == all
  }

  lemma AcceptingStep(f: Outlet, isOutput: bool, rest: seq<WriteAnswer>, all: seq<Byte>)
    requires Writes(f) && rest != [] && Hands(f, rest, all)
    requires rest[1..] != [] ==> Writes(WriteStep(f, isOutput, rest[0]))
    ensures Hands(WriteStep(f, isOutput, rest[0]), rest[1..], all)
  {
    var g, n := WriteStep(f, isOutput, rest[0]), Min(CountOf(rest[0]), |f.queue|);
    if rest[0].BrokenPipe? {
      assert rest[1..] == [] && f.written + f.queue[..0] == f.written;
    } else {
      assert f.written + f.queue[..0] == f.written && f.queue[0..] == f.queue;
      assert g.written == f.written + f.queue[..n] && g.queue == f.queue[n..];
      var m := Min(AcceptedBy(rest[1..]), |g.queue|);
      assert f.queue[..n] + g.queue[..m] == f.queue[..n + m];
      assert f.written + f.queue[..n] + g.queue[..m] == f.written + f.queue[..n + m];
    }
  }

  /** As many queued bytes are written as the answers accept, from the front. */
  lemma AcceptedIsWritten(f: Outlet, isOutput: bool, answers: seq<WriteAnswer>, now: seq<WriteAnswer>)
    requires WritesTake(f, isOutput, answers, now)
    ensures Writing(f, isOutput, answers).written == f.written + f.queue[..Min(AcceptedBy(now), |f.queue|)]
  {
    var step, all := WriteNext(isOutput), f.written + f.queue[..Min(AcceptedBy(now), |f.queue|)];
    var inv := (t: Outlet, rest: seq<WriteAnswer>) => Hands(t, rest, all);
    forall t, rest: seq<WriteAnswer> |
        rest != [] && Writes(t) && inv(t, rest) && (rest[1..] != [] ==> Writes(step(t, rest[0])))
      ensures inv(step(t, rest[0]), rest[1..])
    {
      AcceptingStep(t, isOutput, rest, all);
    }
    WritingIsALoop(f, isOutput, answers);
    LoopKeeps(step, Writes, inv, f, answers, now);
    var g := Writing(f, isOutput, answers);
    assert g.written + g.queue[..0] == g.written;
  }

  /** What one pass over a writable sink amounts to. */
  ghost predicate WriteReport(answers: seq<WriteAnswer>, now: seq<WriteAnswer>, isOutput: bool, gone: bool, empty: bool,
                              r: Result<bool, Error>) {
    && now <= answers && (forall i :: 0 <= i < |now| - 1 ==> KeepsWriting(now[i]))
    && (if now == [] then r == Ok(false) && !gone else WritingEnded(now[|now| - 1], isOutput, gone, r))
    && (|now| < |answers| && (now == [] || KeepsWriting(now[|now| - 1])) ==> empty)
  }

  lemma WritingReported(f: Outlet, isOutput: bool, answers: seq<WriteAnswer>) returns (now: seq<WriteAnswer>)
    requires f.stop.Going?
    ensures var g := Writing(f, isOutput, answers);
            && WriteReport(answers, now, isOutput, g.stop.Ended?, g.queue == [], Verdict(g.stop))
            && g.written == f.written + f.queue[..Min(AcceptedBy(now), |f.queue|)] && (f.queue == [] ==> now == [])
  {
    now := answers[..Used(WriteNext(isOutput), Writes, f, answers)];
    WritingTold(f, isOutput, answers, now);
    AcceptedIsWritten(f, isOutput, answers, now);
  }

  predicate ShortStream(r: Result<bool, Error>) {
    r.Err? && r.error.EndedEarly?
  }

  lemma ReportHears(answers: seq<ReadAnswer>, now: seq<ReadAnswer>, eioIsEof: bool, left: Option<nat>, open: bool,
                    full: bool, r: Result<bool, Error>)
    requires ReadReport(answers, now, eioIsEof, left, open, full, r)
    ensures ShortStream(r) <==> left.Some? && Data([]) in now
    ensures ShortStream(r) ==> 0 < r.error.missing == left.value
  {
    if Data([]) in now {
      var i :| 0 <= i < |now| && now[i] == Data([]);
      assert i == |now| - 1;
    }
  }

  lemma ReportWrites(answers: seq<WriteAnswer>, now: seq<WriteAnswer>, isOutput: bool, gone: bool, empty: bool,
                     r: Result<bool, Error>)
    requires WriteReport(answers, now, isOutput, gone, empty, r)
    ensures !ShortStream(r) && (gone <==> !isOutput && BrokenPipe in now)
    ensures isOutput && BrokenPipe in now ==> r == Err(Io)
  {
    if BrokenPipe in now {
      var i :| 0 <= i < |now| && now[i] == BrokenPipe;
      assert i == |now| - 1;
    }
  }

  datatype Operation = Readable(reads_: seq<ReadAnswer>) | Writable(writes: seq<WriteAnswer>) | CloseInput

  class StreamPump {
    var sourceOpen: bool
    var sinkOpen: bool
    const buffer: PumpBuffer
    const isOutput: bool
    const eioIsEof: bool
    var remaining: Option<nat>

    /** The traffic of the two descriptors: everything taken and everything written so far. */
    var taken: seq<Byte>
    var written: seq<Byte>
    /** Events that end a stream for a reason of their own. */
    var readerGone: bool
    var inputClosed: bool
    var endedByEio: bool
    var endOfFile: bool
    ghost const announced: Option<nat>

    /** What holds at every moment, also while an error is on its way out. */
    ghost predicate Conserves()
      reads this, buffer
    {
      && buffer.Valid()
      && written <= taken
      && (!readerGone && !inputClosed ==> taken == written + buffer.Contents())
      && (announced.Some? <==> remaining.Some?)
      && (announced.Some? ==> |taken| + remaining.value == announced.value)
      && (remaining == Some(0) ==> !sourceOpen)
      && (endOfFile ==> remaining.None?)
      && (endedByEio ==> eioIsEof)
      && (readerGone || inputClosed ==> !isOutput && !sinkOpen)
      && (!sourceOpen ==> inputClosed || endOfFile || endedByEio || remaining == Some(0))
      && (!sinkOpen && !readerGone && !inputClosed ==> !sourceOpen && buffer.Contents() == [])
    }

    /** What holds between operations: a closed sink has nothing left to receive. */
    ghost predicate Valid()
      reads this, buffer
    {
      && Conserves()
      && (!sinkOpen ==> buffer.Contents() == [])
    }

    constructor (isOutput: bool, eioIsEof: bool, limit: Option<nat>)
      ensures Valid() && fresh(buffer) && buffer.capacity == MAX_PUMP_BUFFER
      ensures this.isOutput == isOutput && this.eioIsEof == eioIsEof && announced == limit == remaining
      ensures taken == [] && written == [] && buffer.Contents() == []
      ensures !readerGone && !inputClosed && sourceOpen == sinkOpen == (limit != Some(0))
    {
      this.isOutput := isOutput;
      this.eioIsEof := eioIsEof;
      buffer := new PumpBuffer(MAX_PUMP_BUFFER);
      remaining := limit;
      announced := limit;
      sourceOpen := limit != Some(0);
      sinkOpen := limit != Some(0);
      taken, written := [], [];
      readerGone, inputClosed, endedByEio, endOfFile := false, false, false, false;
    }

    /** Bytes that a read handed out, at most as many as were asked for. */
    method TakeChunk(chunk: seq<Byte>) returns (r: Result<bool, Error>)
      requires Conserves() && sourceOpen && 0 < |chunk| <= buffer.RemainingCapacity()
      requires remaining.Some? ==> |chunk| <= remaining.value
      modifies this`taken, this`remaining, this`sourceOpen, buffer
      ensures Conserves() && taken == old(taken) + chunk && remaining == Spent(old(remaining), |chunk|)
      ensures r == Ok(!sourceOpen) && (sourceOpen <==> remaining != Some(0))
      ensures buffer.RemainingCapacity() == old(buffer.RemainingCapacity()) - |chunk|
    {
      assert chunk[..|chunk|] == chunk;
      var pushed := buffer.Push(chunk);
      if pushed != |chunk| {
        return Err(Accounting);
      }
      taken := taken + chunk;
      assert written + (old(buffer.Contents()) + chunk) == written + old(buffer.Contents()) + chunk;
      if remaining.Some? {
        remaining := Some(remaining.value - |chunk|);
        if remaining.value == 0 {
          sourceOpen := false;
          return Ok(true);
        }
      }
      return Ok(false);
    }

    ghost function In(stop: Stop): Intake
      requires buffer.Valid()
      reads this, buffer
    {
      Intake(taken, buffer.RemainingCapacity(), remaining, stop)
    }

    ghost function Out(stop: Stop): Outlet
      requires buffer.Valid()
      reads this, buffer
    {
      Outlet(written, buffer.Contents(), stop)
    }

    /** One read of the source. */
    method ReadOnce(answer: ReadAnswer) returns (r: Result<bool, Error>)
      requires Conserves() && sourceOpen && Reads(In(Going))
      modifies this`taken, this`remaining, this`sourceOpen, this`endOfFile, this`endedByEio, buffer
      ensures Conserves()
      ensures var f := ReadStep(old(In(Going)), eioIsEof, answer);
              In(f.stop) == f && sourceOpen == !f.stop.Ended? && r == Verdict(f.stop)
    {
      match answer {
        case Data(offered) =>
          if |offered| == 0 {
            if remaining.Some? && remaining.value > 0 {
              return Err(EndedEarly(remaining.value));
            }
            sourceOpen := false;
            endOfFile := true;
            return Ok(true);
          }
          var asked := Min(buffer.RemainingCapacity(), IO_CHUNK);
          if remaining.Some? {
            asked := Min(asked, remaining.value);
          }
          r := TakeChunk(offered[..Min(|offered|, asked)]);
        case ReadWouldBlock => return Ok(true);
        case ReadInterrupted => return Ok(false);
        case Eio =>
          if eioIsEof {
            sourceOpen := false;
            endedByEio := true;
            return Ok(true);
          }
          return Err(Io);
        case ReadFailed => return Err(Io);
      }
    }

    /** The read loop takes what `Reading` says: until would-block, end of stream, a full
        buffer or an error. */
    method ReadLoop(answers: seq<ReadAnswer>) returns (r: Result<bool, Error>)
      requires Conserves() && sourceOpen
      modifies this`taken, this`remaining, this`sourceOpen, this`endOfFile, this`endedByEio, buffer
      ensures Conserves()
      ensures var f := Reading(old(In(Going)), eioIsEof, answers);
              In(f.stop) == f && sourceOpen == !f.stop.Ended? && r == Verdict(f.stop)
    {
      assert answers[0..] == answers;
      for i := 0 to |answers|
        invariant Conserves() && sourceOpen
        invariant Reading(In(Going), eioIsEof, answers[i..]) == Reading(old(In(Going)), eioIsEof, answers)
      {
        if buffer.RemainingCapacity() == 0 {
          return Ok(false);
        }
        assert answers[i..][0] == answers[i] && answers[i..][1..] == answers[i + 1..];
        r := ReadOnce(answers[i]);
        if r != Ok(false) {
          return;
        }
      }
      assert answers[|answers|..] == [];
      r := Ok(false);
    }

    /** The bytes of an announced stream that are still missing. */
    ghost function Left(): Option<int>
      reads this
    {
      if announced.Some? then Some(announced.value - |taken|) else None
    }

    /** Reading from an open source. `now` are the answers that were taken. */
    method ReadPass(answers: seq<ReadAnswer>) returns (r: Result<bool, Error>, ghost now: seq<ReadAnswer>)
      requires Conserves() && sourceOpen
      modifies this`taken, this`remaining, this`sourceOpen, this`endOfFile, this`endedByEio, buffer
      ensures Conserves() && Accountable(r)
      ensures var f := Reading(old(In(Going)), eioIsEof, answers);
              taken == f.taken && remaining == f.budget && sourceOpen == !f.stop.Ended? && r == Verdict(f.stop)
      ensures ReadReport(answers, now, eioIsEof, Left(), sourceOpen,
                         |old(buffer.Contents())| + |taken| - |old(taken)| == buffer.capacity, r)
      ensures Fit(now, buffer.capacity - |old(buffer.Contents())|, old(Left())) ==> taken == old(taken) + Offered(now)
    {
      ReadingIsAccountable(In(Going), eioIsEof, answers);
      now := ReadingReported(In(Going), eioIsEof, answers);
      r := ReadLoop(answers);
    }

    /** One pass over the source. */
    method ReadAvailable(answers: seq<ReadAnswer>) returns (r: Result<bool, Error>, ghost now: seq<ReadAnswer>)
      requires Valid()
      modifies this`taken, this`remaining, this`sourceOpen, this`endOfFile, this`endedByEio, this`sinkOpen, buffer
      ensures Conserves() && Accountable(r)
      ensures r.Ok? ==> Valid()
      ensures var f := Reading(old(In(if sourceOpen then Going else Ended)), eioIsEof, answers);
              taken == f.taken && remaining == f.budget && sourceOpen == !f.stop.Ended? && r == Verdict(f.stop)
      // The sink ends with the stream, and not on an error.
      ensures sinkOpen == (old(sinkOpen) && (r.Err? || sourceOpen || buffer.Contents() != []))
      // What the answers mean.
      ensures if old(sourceOpen)
              then ReadReport(answers, now, eioIsEof, Left(), sourceOpen,
                              |old(buffer.Contents())| + |taken| - |old(taken)| == buffer.capacity, r)
              else now == [] && r == Ok(true) && taken == old(taken)
      ensures old(sourceOpen) && Fit(now, buffer.capacity - |old(buffer.Contents())|, old(Left())) ==>
                taken == old(taken) + Offered(now)
    {
      r, now := Ok(true), [];
      if sourceOpen {
        r, now := ReadPass(answers);
        if r.Err? {
          return;
        }
      }
      if !isOutput && !sinkOpen {
        // The workload closed its standard input: keep draining, drop the bytes.
        buffer.Consume(|buffer.Contents()|);
      }
      CloseSinkAfterEof();
    }

    /** The sink accepted `count` of the queued bytes. */
    method HandOn(count: nat)
      requires Conserves() && sinkOpen && count <= |buffer.Contents()|
      modifies this`written, buffer
      ensures Conserves()
      ensures written == old(written) + old(buffer.Contents())[..count]
      ensures buffer.Contents() == old(buffer.Contents())[count..]
    {
      ghost var queue := buffer.Contents();
      assert queue == queue[..count] + queue[count..];
      assert written + queue == written + queue[..count] + queue[count..];
      written := written + buffer.Contents()[..count];
      buffer.Consume(count);
    }

    /** One write of the queued bytes. */
    method WriteOnce(answer: WriteAnswer) returns (r: Result<bool, Error>)
      requires Conserves() && sinkOpen && Writes(Out(Going))
      modifies this`written, this`sinkOpen, this`readerGone, buffer
      ensures Conserves()
      ensures var f := WriteStep(old(Out(Going)), isOutput, answer);
              Out(f.stop) == f && sinkOpen == !f.stop.Ended? && r == Verdict(f.stop)
              && readerGone == (old(readerGone) || f.stop.Ended?)
    {
      match answer {
        case Accepted(n) =>
          var count := Min(n, |buffer.Contents()|);
          if count == 0 {
            return Err(ZeroLengthWrite);
          }
          HandOn(count);
          return Ok(false);
        case WriteWouldBlock => return Ok(true);
        case WriteInterrupted => return Ok(false);
        case BrokenPipe =>
          if isOutput {
            return Err(Io);
          }
          sinkOpen := false;
          readerGone := true;
          buffer.Consume(|buffer.Contents()|);
          return Ok(true);
        case WriteFailed => return Err(Io);
      }
    }

    /** The write loop hands on what `Writing` says. */
    method WriteLoop(answers: seq<WriteAnswer>) returns (r: Result<bool, Error>)
      requires Valid()
      modifies this`written, this`sinkOpen, this`readerGone, buffer
      ensures Conserves() && (r.Ok? ==> Valid())
      ensures var f := Writing(old(Out(Going)), isOutput, answers);
              Out(f.stop) == f && r == Verdict(f.stop) && sinkOpen == (old(sinkOpen) && !f.stop.Ended?)
              && readerGone == (old(readerGone) || f.stop.Ended?)
    {
      assert answers[0..] == answers;
      for i := 0 to |answers|
        invariant Valid() && sinkOpen == old(sinkOpen) && readerGone == old(readerGone)
        invariant Writing(Out(Going), isOutput, answers[i..]) == Writing(old(Out(Going)), isOutput, answers)
      {
        if |buffer.Contents()| == 0 {
          return Ok(false);
        }
        if !sinkOpen {
          return Err(SinkClosedWithBytes);
        }
        assert answers[i..][0] == answers[i] && answers[i..][1..] == answers[i + 1..];
        r := WriteOnce(answers[i]);
        if r != Ok(false) {
          return;
        }
      }
      assert answers[|answers|..] == [];
      r := Ok(false);
    }

    /** One pass over the sink. `now` are the answers that were taken. */
    method WriteAvailable(answers: seq<WriteAnswer>) returns (r: Result<bool, Error>, ghost now: seq<WriteAnswer>)
      requires Valid()
      modifies this`written, this`sinkOpen, this`readerGone, buffer
      ensures Conserves() && Accountable(r)
      ensures r.Ok? ==> Valid()
      ensures var f := Writing(old(Out(Going)), isOutput, answers);
              Out(f.stop) == f && r == Verdict(f.stop) && readerGone == (old(readerGone) || f.stop.Ended?)
              && sinkOpen == (old(sinkOpen) && !f.stop.Ended? && (r.Err? || sourceOpen || buffer.Contents() != []))
      // What the answers mean.
      ensures if old(readerGone) then now == [] && readerGone && r == Ok(false)
              else WriteReport(answers, now, isOutput, readerGone, buffer.Contents() == [], r)
      ensures var queue := old(buffer.Contents()); written == old(written) + queue[..Min(AcceptedBy(now), |queue|)]
    {
      now := WritingReported(Out(Going), isOutput, answers);
      WritingIsAccountable(Out(Going), isOutput, answers);
      r := WriteLoop(answers);
      if r.Ok? {
        CloseSinkAfterEof();
      }
    }

    /** What the answers taken so far say of the result. */
    ghost predicate Explained(r: Result<bool, Error>, heard: seq<ReadAnswer>, acks: seq<WriteAnswer>)
      reads this
    {
      && (ShortStream(r) <==> announced.Some? && Data([]) in heard)
      && (ShortStream(r) ==> 0 < r.error.missing == announced.value - |taken|)
      && (readerGone <==> !isOutput && BrokenPipe in acks)
      && (isOutput && BrokenPipe in acks ==> r == Err(Io))
    }

    /** One operation of a run. */
    method Operate(operation: Operation)
      returns (r: Result<bool, Error>, ghost heard: seq<ReadAnswer>, ghost acks: seq<WriteAnswer>)
      requires Valid()
      modifies this, buffer
      ensures Conserves() && (r.Ok? ==> Valid()) && Accountable(r)
      ensures (ShortStream(r) <==> announced.Some? && Data([]) in heard)
      ensures (ShortStream(r) ==> 0 < r.error.missing == announced.value - |taken|)
      ensures readerGone == (old(readerGone) || (!isOutput && BrokenPipe in acks))
      ensures isOutput && BrokenPipe in acks ==> r == Err(Io)
    {
      r, heard, acks := Ok(false), [], [];
      match operation {
        case Readable(answers) =>
          ghost var open, queued, before := sourceOpen, buffer.Contents(), taken;
          r, heard := ReadAvailable(answers);
          if open {
            ReportHears(answers, heard, eioIsEof, Left(), sourceOpen,
                |queued| + |taken| - |before| == buffer.capacity, r);
          }
        case Writable(answers) =>
          ghost var gone := readerGone;
          r, acks := WriteAvailable(answers);
          if !gone {
            ReportWrites(answers, acks, isOutput, readerGone, buffer.Contents() == [], r);
          }
        case CloseInput => CloseInput();
      }
    }

    method CloseSinkAfterEof()
      requires Conserves()
      modifies this`sinkOpen
      ensures Conserves()
      ensures sinkOpen == (old(sinkOpen) && (sourceOpen || buffer.Contents() != []))
    {
      if !sourceOpen && |buffer.Contents()| == 0 {
        sinkOpen := false;
      }
    }

    method CloseInput()
      requires Valid()
      modifies this, buffer
      ensures Valid() && taken == old(taken) && written == old(written) && remaining == old(remaining)
      ensures readerGone == old(readerGone)
      ensures !isOutput ==> inputClosed && !sourceOpen && !sinkOpen && buffer.Contents() == []
      ensures isOutput ==> unchanged(this) && unchanged(buffer)
    {
      if !isOutput {
        sourceOpen := false;
        inputClosed := true;
        buffer.Consume(|buffer.Contents()|);
        sinkOpen := false;
      }
    }
  }

  lemma {:induction false} ReadingIsAccountable(f: Intake, eioIsEof: bool, answers: seq<ReadAnswer>)
    requires Accountable(Verdict(f.stop))
    ensures Accountable(Verdict(Reading(f, eioIsEof, answers).stop))
    decreases |answers|
  {
    if answers != [] && Reads(f) { ReadingIsAccountable(ReadStep(f, eioIsEof, answers[0]), eioIsEof, answers[1..]); }
  }

  lemma {:induction false} WritingIsAccountable(f: Outlet, isOutput: bool, answers: seq<WriteAnswer>)
    requires Accountable(Verdict(f.stop))
    ensures Accountable(Verdict(Writing(f, isOutput, answers).stop))
    decreases |answers|
  {
    if answers != [] && Writes(f) { WritingIsAccountable(WriteStep(f, isOutput, answers[0]), isOutput, answers[1..]); }
  }

  /** What can be seen from outside after some operations on one pump. */
  datatype Seen = Seen(result: Result<bool, Error>, taken: seq<Byte>, written: seq<Byte>, queued: seq<Byte>,
                       sinkOpen: bool, readerGone: bool, inputClosed: bool)

  /** A whole run of a pump: any operations with any answers, up to the first error. `heard` and
      `acks` are the answers that were taken from the source and from the sink. */
  method RunPump(isOutput: bool, eioIsEof: bool, limit: Option<nat>, operations: seq<Operation>)
    returns (seen: Seen, ghost heard: seq<ReadAnswer>, ghost acks: seq<WriteAnswer>)
    // First in, first out, through a bounded queue; nothing is lost but what the reader or the
    // shutdown threw away.
    ensures seen.written <= seen.taken && |seen.queued| <= MAX_PUMP_BUFFER
    ensures !seen.readerGone && !seen.inputClosed ==> seen.taken == seen.written + seen.queued
    ensures isOutput ==> !seen.readerGone && !seen.inputClosed
    // The two accounting failures cannot happen.
    ensures Accountable(seen.result)
    // An announced stream is never read beyond its length, and its sink ends exactly there:
    // also after an error the sink of a shorter stream stays open.
    ensures limit.Some? ==> |seen.taken| <= limit.value
    ensures limit.Some? && !eioIsEof && !seen.sinkOpen && !seen.readerGone && !seen.inputClosed ==>
              seen.written == seen.taken && |seen.written| == limit.value
    // An end of file before the announced length is the error that says how much is missing, and
    // nothing else is; for a stream of unknown length it is no error.
    ensures ShortStream(seen.result) <==> limit.Some? && Data([]) in heard
    ensures ShortStream(seen.result) ==> 0 < seen.result.error.missing == limit.value - |seen.taken|
    // A sink without a reader is an error for an output, and the end of an input.
    ensures seen.readerGone <==> !isOutput && BrokenPipe in acks
    ensures isOutput && BrokenPipe in acks ==> seen.result == Err(Io)
  {
    var pump := new StreamPump(isOutput, eioIsEof, limit);
    var r: Result<bool, Error> := Ok(false);
    heard, acks := [], [];
    for i := 0 to |operations|
      invariant pump.Conserves() && (r.Ok? ==> pump.Valid()) && Accountable(r)
      invariant fresh(pump) && fresh(pump.buffer) && pump.buffer.capacity == MAX_PUMP_BUFFER
      invariant pump.Explained(r, heard, acks)
    {
      if r.Err? {
        break;
      }
      ghost var reads_, writes;
      r, reads_, writes := pump.Operate(operations[i]);
      heard, acks := heard + reads_, acks + writes;
    }
    seen := Seen(r, pump.taken, pump.written, pump.buffer.Contents(), pump.sinkOpen, pump.readerGone, pump.inputClosed);
  }

  /** The condition on EIO is needed: a pump built to take EIO for end of file ends every
      announced stream early, without an error, at the first EIO. */
  method EioEndsAnAnnouncedStream(isOutput: bool, n: nat) returns (pump: StreamPump, r: Result<bool, Error>)
    requires n > 0
    ensures pump.Valid() && pump.announced == Some(n) && r == Ok(true)
    ensures !pump.sinkOpen && !pump.readerGone && !pump.inputClosed && pump.written == []
  {
    pump := new StreamPump(isOutput, true, Some(n));
    ghost var now;
    r, now := pump.ReadAvailable([Eio]);
  }
}
