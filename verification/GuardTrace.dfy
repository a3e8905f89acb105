/** What the process guard does to its children, as a trace of kernel calls and decisions, and
    what every allowed trace has in common. */
module GuardTrace {
  import opened Bytes

  const SIGHUP := 1
  const SIGINT := 2
  const SIGQUIT := 3
  const SIGKILL := 9
  const SIGTERM := 15
  const SIGCHLD := 17
  const NANOS_PER_MILLI := 1_000_000
  const MAX_TIMEOUT := 0x7FFF_FFFF

  datatype Outcome = Exited(code: Byte) | Signaled(signal: int)

  /** The terminal wait statuses: a normal exit, or death by a signal. */
  function FromWaitStatus(status: int): Option<Outcome> {
    if status % 128 == 0 then Some(Exited(status / 256 % 256))
    else if status % 128 != 127 then Some(Signaled(status % 128))
    else None
  }

  /** Every status word: bits 8 to 15 are an exit code, bit 7 says that core was dumped, the low
      seven bits are the signal, zero for an exit and 127 for a child that has only stopped. */
  lemma StatusMeans(high: int, core: bool, low: nat)
    requires low < 128
    ensures var outcome := FromWaitStatus(256 * high + (if core then 128 else 0) + low);
            outcome == if low == 127 then None else if low == 0 then Some(Exited(high % 256)) else Some(Signaled(low))
  {
    var flag := if core then 1 else 0;
    var status := 256 * high + 128 * flag + low;
    assert status == 128 * (2 * high + flag) + low;
    assert status / 128 == 2 * high + flag && status % 128 == low;
    assert status == 256 * high + (128 * flag + low);
    assert status / 256 == high;
  }

  /** How a child may end, and the status word the kernel makes of it. */
  datatype Ending = ExitWith(code: Byte) | DeathBy(signal: int, core: bool)

  function WaitStatus(e: Ending): int {
    match e
    case ExitWith(code) => 256 * code
    case DeathBy(signal, core) => (if core then 128 else 0) + signal
  }

  /** The outcome tells how the child ended: its exit code, or the signal that killed it. */
  ghost predicate Tells(outcome: Outcome, status: int) {
    && status % 128 != 127
    && forall e: Ending :: status == WaitStatus(e) && (e.DeathBy? ==> 1 <= e.signal <= 126) ==>
         match e
         case ExitWith(code) => outcome == Exited(code)
         case DeathBy(signal, _) => outcome == Signaled(signal)
  }

  /** Decoding a status word tells how the child ended; only a child that has not ended has none. */
  lemma DecodedStatusTells(status: int)
    ensures FromWaitStatus(status).None? <==> status % 128 == 127
    ensures FromWaitStatus(status).Some? ==> Tells(FromWaitStatus(status).value, status)
  {
    forall e: Ending | status == WaitStatus(e) && (e.DeathBy? ==> 1 <= e.signal <= 126)
      ensures FromWaitStatus(status) == Some(if e.ExitWith? then Exited(e.code) else Signaled(e.signal))
    {
      match e
      case ExitWith(code) => StatusMeans(code, false, 0);
      case DeathBy(signal, core) => StatusMeans(0, core, signal);
    }
  }

  datatype Event =
    | Reaped(pid: int, status: int)
    | NoneExited                                  // children exist, none has exited
    | NoneLeft                                    // no child exists
    | ShutdownBegun(signal: int, deadline: nat)
    | Escalated
    | GroupSignal(signal: int)
    | Signal(pid: int, signal: int)               // to one child, not through its group
    | Listed(children: seq<int>)                  // a successful snapshot of the children
    | ListingFailed
    | Failure                                     // an infrastructure failure was recorded
    | Polled(timeout: int, checked: nat, now: nat) // poll(2); when the deadline was checked and when it began

  datatype Phase = Calm | Graceful(signal: int, deadline: nat) | Killing

  /** Where the guard stands after a history: its phase; the children signalled one by one
      since that phase began; the latest successful snapshot of the children, and whether it was
      taken in this phase; whether a listing has been attempted in this phase since the last
      poll; whether the group was signalled in this phase; the time of the last poll. */
  datatype Standing = Standing(phase: Phase, sent: set<int>, listed: seq<int>, current: bool, attempted: bool,
      grouped: bool, clock: nat)

  function Enter(st: Standing, phase: Phase): Standing {
    Standing(phase, {}, st.listed, false, false, false, st.clock)
  }

  function After(st: Standing, e: Event): Standing {
    match e
    case ShutdownBegun(signal, deadline) => Enter(st, Graceful(signal, deadline))
    case Escalated => Enter(st, Killing)
    case GroupSignal(_) => st.(grouped := true)
    case Signal(pid, _) => st.(sent := st.sent + {pid})
    case Listed(children) => st.(listed := children, current := true, attempted := true)
    case ListingFailed => st.(attempted := true)
    case Polled(_, _, now) => st.(attempted := false, clock := now)
    case _ => st
  }

  function Stand(log: seq<Event>): Standing {
    if log == [] then Standing(Calm, {}, [], false, false, false, 0) else After(Stand(log[..|log| - 1]), log[|log| - 1])
  }

  predicate Failed(log: seq<Event>) {
    exists i :: 0 <= i < |log| && log[i].Failure?
  }

  /** The latest status collected for a PID. */
  function LastStatus(log: seq<Event>, pid: int): Option<int> {
    if log == [] then None
    else match log[|log| - 1]
      case Reaped(p, status) => if p == pid then Some(status) else LastStatus(log[..|log| - 1], pid)
      case _ => LastStatus(log[..|log| - 1], pid)
  }

  function PhaseSignal(phase: Phase): Option<int> {
    match phase
    case Calm => None
    case Graceful(signal, _) => Some(signal)
    case Killing => Some(SIGKILL)
  }

  /** Every child of the latest snapshot has been sent this phase's signal. */
  predicate Covered(st: Standing) {
    forall p :: p in st.listed ==> p in st.sent
  }

  /** The poll waits for ever before a shutdown and after escalation, and otherwise as many whole
      milliseconds as fit into the grace that is left and into the argument of poll(2). */
  predicate TimeoutOk(phase: Phase, timeout: int, now: nat) {
    match phase
    case Graceful(_, deadline) =>
      var left := if now <= deadline then deadline - now else 0;
      && 0 <= timeout <= MAX_TIMEOUT && timeout * NANOS_PER_MILLI <= left
      && (timeout == MAX_TIMEOUT || left < (timeout + 1) * NANOS_PER_MILLI)
    case _ => timeout == -1
  }

  /** During a shutdown a poll comes only after the group was signalled, after the children were
      listed again and those found were signalled, and, before the kill, only if the deadline had
      not passed when it was checked. */
  predicate PollOk(st: Standing, timeout: int, checked: nat, now: nat) {
    && TimeoutOk(st.phase, timeout, now)
    && st.clock <= checked <= now
    && (st.phase.Graceful? ==> checked < st.phase.deadline)
    && (!st.phase.Calm? ==> st.grouped && st.attempted && (st.current ==> Covered(st)))
  }

  /** What may happen next. Children are signalled one by one only from a snapshot of the
      current phase. */
  predicate Allowed(st: Standing, e: Event) {
    match e
    case ShutdownBegun(_, _) => st.phase.Calm?
    case Escalated => st.phase.Graceful?
    case GroupSignal(signal) => PhaseSignal(st.phase) == Some(signal) && !st.grouped
    case Signal(pid, signal) => PhaseSignal(st.phase) == Some(signal) && pid !in st.sent && st.current
        && pid in st.listed
    case Polled(timeout, checked, now) => PollOk(st, timeout, checked, now)
    case _ => true
  }

  predicate Lawful(log: seq<Event>) {
    log == [] || (Lawful(log[..|log| - 1]) && Allowed(Stand(log[..|log| - 1]), log[|log| - 1]))
  }

  lemma Extend(log: seq<Event>, e: Event)
    requires Lawful(log) && Allowed(Stand(log), e)
    ensures Lawful(log + [e]) && Stand(log + [e]) == After(Stand(log), e)
    ensures forall p ::
              LastStatus(log + [e], p) == if e.Reaped? && e.pid == p then Some(e.status) else LastStatus(log, p)
    ensures Failed(log + [e]) <==> Failed(log) || e.Failure?
  {
    assert (log + [e])[..|log|] == log;
    if Failed(log) {
      var i :| 0 <= i < |log| && log[i].Failure?;
      assert (log + [e])[i].Failure?;
    }
    if e.Failure? { assert (log + [e])[|log|].Failure?; }
  }

  // ---------------------------------------------------------------------
  // What every lawful trace has in common

  lemma {:induction false} PrefixLawful(log: seq<Event>, n: nat)
    requires Lawful(log) && n <= |log|
    ensures Lawful(log[..n])
    ensures n < |log| ==> Allowed(Stand(log[..n]), log[n]) && Stand(log[..n + 1]) == After(Stand(log[..n]), log[n])
    decreases |log|
  {
    if n < |log| {
      assert log[..n + 1][..n] == log[..n];
      var init := log[..|log| - 1];
      if n < |init| {
        assert init[..n] == log[..n] && init[..n + 1] == log[..n + 1];
        PrefixLawful(init, n);
      }
    } else {
      assert log[..n] == log;
    }
  }

  function Rank(p: Phase): nat {
    match p case Calm => 0 case Graceful(_, _) => 1 case Killing => 2
  }

  /** Phases and time only move forward, from any point of a trace to any later one; within a
      phase no signal is forgotten. */
  lemma {:induction false} PhasesAdvance(log: seq<Event>, m: nat, n: nat)
    requires Lawful(log) && m <= n <= |log|
    ensures var a, b := Stand(log[..m]), Stand(log[..n]);
            && Rank(a.phase) <= Rank(b.phase) && a.clock <= b.clock
            && (Rank(a.phase) == Rank(b.phase) ==> a.phase == b.phase && a.sent <= b.sent && (a.grouped ==> b.grouped))
    decreases n - m
  {
    if m < n {
      PhasesAdvance(log, m, n - 1);
      PrefixLawful(log, n - 1);
    }
  }

  /** Shutdown begins at most once and escalation happens at most once, after it. */
  lemma ShutdownOnce(log: seq<Event>, i: nat, j: nat)
    requires Lawful(log) && i < j < |log|
    ensures !(log[i].ShutdownBegun? && log[j].ShutdownBegun?)
    ensures !(log[i].Escalated? && log[j].Escalated?)
    ensures !(log[i].Escalated? && log[j].ShutdownBegun?)
  {
    PrefixLawful(log, i);
    PrefixLawful(log, j);
    PhasesAdvance(log, i + 1, j);
  }

  /** A child is individually sent at most one graceful signal and at most one SIGKILL: two
      signals to one PID are a graceful one and, later, the kill. */
  lemma SignalledOncePerPhase(log: seq<Event>, i: nat, j: nat)
    requires Lawful(log) && i < j < |log|
    requires log[i].Signal? && log[j].Signal? && log[i].pid == log[j].pid
    ensures Stand(log[..i]).phase.Graceful? && Stand(log[..j]).phase.Killing?
    ensures log[i].signal == Stand(log[..i]).phase.signal && log[j].signal == SIGKILL
  {
    PrefixLawful(log, i);
    PrefixLawful(log, j);
    PhasesAdvance(log, i + 1, j);
    assert log[i].pid in Stand(log[..i + 1]).sent;
  }

  /** The group is signalled at most once in each phase. */
  lemma GroupSignalledOncePerPhase(log: seq<Event>, i: nat, j: nat)
    requires Lawful(log) && i < j < |log| && log[i].GroupSignal? && log[j].GroupSignal?
    ensures Stand(log[..i]).phase.Graceful? && Stand(log[..j]).phase.Killing? && log[j].signal == SIGKILL
  {
    PrefixLawful(log, i);
    PrefixLawful(log, j);
    PhasesAdvance(log, i + 1, j);
  }

  /** A poll at or after the deadline is the last one before the kill. */
  lemma DeadlineForcesEscalation(log: seq<Event>, i: nat, j: nat)
    requires Lawful(log) && i < j < |log| && log[i].Polled? && log[j].Polled?
    requires Stand(log[..i]).phase.Graceful? && Stand(log[..j]).phase.Graceful?
    ensures log[i].now < Stand(log[..i]).phase.deadline
  {
    PrefixLawful(log, i);
    PrefixLawful(log, j);
    PhasesAdvance(log, i + 1, j);
  }

  /** To be recorded as signalled means: a signal event for that child stands in the trace,
      carries the signal of the present phase and was sent in it. */
  lemma {:induction false} SentMeans(log: seq<Event>, pid: int) returns (k: nat)
    requires Lawful(log) && pid in Stand(log).sent
    ensures k < |log| && Stand(log[..k]).phase == Stand(log).phase
    ensures PhaseSignal(Stand(log).phase).Some? && log[k] == Signal(pid, PhaseSignal(Stand(log).phase).value)
    decreases |log|
  {
    var init, last := log[..|log| - 1], log[|log| - 1];
    if last.Signal? && last.pid == pid {
      k := |log| - 1;
    } else {
      k := SentMeans(init, pid);
      assert init[..k] == log[..k];
    }
  }

  lemma {:induction false} NoSnapshotNoSignals(log: seq<Event>)
    requires Lawful(log) && !Stand(log).current
    ensures Stand(log).sent == {}
    decreases |log|
  {
    if log != [] {
      var init, last := log[..|log| - 1], log[|log| - 1];
      if !last.ShutdownBegun? && !last.Escalated? { NoSnapshotNoSignals(init); }
    }
  }

  /** An attempted listing stands in the trace, in the present phase and after the last poll. */
  lemma {:induction false} AttemptedMeans(log: seq<Event>) returns (k: nat)
    requires Lawful(log) && Stand(log).attempted
    ensures k < |log| && (log[k].Listed? || log[k].ListingFailed?) && Stand(log[..k]).phase == Stand(log).phase
    ensures forall i :: k <= i < |log| ==> !log[i].Polled?
    decreases |log|
  {
    var init, last := log[..|log| - 1], log[|log| - 1];
    if last.Listed? || last.ListingFailed? {
      k := |log| - 1;
    } else {
      k := AttemptedMeans(init);
      assert init[..k] == log[..k];
    }
  }

  /** Before every poll of a shutdown the children were listed again in the same phase, since the
      previous poll. */
  lemma PollsFollowListings(log: seq<Event>, i: nat) returns (k: nat)
    requires Lawful(log) && i < |log| && log[i].Polled? && !Stand(log[..i]).phase.Calm?
    ensures k < i && (log[k].Listed? || log[k].ListingFailed?) && Stand(log[..k]).phase == Stand(log[..i]).phase
    ensures forall h :: k <= h < i ==> !log[h].Polled?
  {
    PrefixLawful(log, i);
    k := AttemptedMeans(log[..i]);
    assert log[..i][..k] == log[..k];
    assert forall h :: k <= h < i ==> log[..i][h] == log[h];
  }

  /** At every poll during a shutdown, all children of the latest successful snapshot have been
      sent the current phase's signal if and only if that snapshot was taken in the current
      phase or was empty. It is older when every listing since escalation failed. */
  lemma PollCoverage(log: seq<Event>, i: nat)
    requires Lawful(log) && i < |log| && log[i].Polled? && !Stand(log[..i]).phase.Calm?
    ensures var st := Stand(log[..i]); Covered(st) <==> st.current || st.listed == []
  {
    PrefixLawful(log, i);
    var st := Stand(log[..i]);
    if !st.current {
      NoSnapshotNoSignals(log[..i]);
      if st.listed != [] {
        var p := st.listed[0];
        assert p in st.listed && p !in st.sent;
      }
    }
  }

  /** The only collected child with this PID. */
  ghost predicate OnlyReap(log: seq<Event>, pid: int, i: nat) {
    && i < |log| && log[i].Reaped? && log[i].pid == pid
    && forall j :: 0 <= j < |log| && j != i ==> !(log[j].Reaped? && log[j].pid == pid)
  }

  /** If only one child with this PID was ever collected, its status is the latest one. */
  lemma {:induction false} OnlyStatus(log: seq<Event>, pid: int, i: nat)
    requires OnlyReap(log, pid, i)
    ensures LastStatus(log, pid) == Some(log[i].status)
    decreases |log|
  {
    var n := |log| - 1;
    if i < n {
      assert OnlyReap(log[..n], pid, i);
      OnlyStatus(log[..n], pid, i);
    }
  }

  lemma OnlyReapIsLast(log: seq<Event>, pid: int)
    ensures forall i: nat :: OnlyReap(log, pid, i) ==> LastStatus(log, pid) == Some(log[i].status)
  {
    forall i: nat | OnlyReap(log, pid, i) ensures LastStatus(log, pid) == Some(log[i].status) {
      OnlyStatus(log, pid, i);
    }
  }
}
