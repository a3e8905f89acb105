/** The guard engine: reaping, shutdown, escalation and the final verdict, over any kernel: the
    answer to the n-th question is a function of n, and nothing is known about that function.
    The trace records what was done. A run is cut after a given number of rounds, so statements
    about it hold for every finite part of a run. */
module Guard {
  import opened Bytes
  import opened GuardTrace

  datatype Shutdown = Shutdown(graceful: int, deadline: nat, escalated: bool, signaled: set<int>)

  function PhaseOf(sd: Shutdown): Phase {
    if sd.escalated then Killing else Graceful(sd.graceful, sd.deadline)
  }

  ghost function Elements(pids: seq<int>): set<int> {
    set p | p in pids
  }

  lemma OneMoreElement(pids: seq<int>, i: nat)
    requires i < |pids|
    ensures Elements(pids[..i + 1]) == Elements(pids[..i]) + {pids[i]}
  {
    assert pids[..i + 1] == pids[..i] + [pids[i]];
  }

  /** The guard's standing after one attempt to list and signal its children. */
  ghost function AfterListing(st: Standing, answer: Option<seq<int>>): Standing {
    if answer.None? then st.(attempted := true)
    else st.(listed := answer.value, current := true, attempted := true, sent := st.sent + Elements(answer.value))
  }

  /** A phase entered, its group signalled, its children listed. */
  ghost function Entered(st: Standing, phase: Phase, answer: Option<seq<int>>): Standing {
    AfterListing(Enter(st, phase).(grouped := true), answer)
  }

  /** Both phases entered in one go, the second without a listing. */
  ghost predicate KilledAtOnce(before: Standing, signal: int, answer: Option<seq<int>>, after: Standing) {
    exists deadline :: after == Entered(Entered(before, Graceful(signal, deadline), answer), Killing, None)
  }

  datatype ReapAnswer = ReapedChild(pid: int, status: int) | NoExitedChild | NoChildren | WaitError

  /** What the readiness of the liveness descriptor can turn out to be. */
  datatype LivenessAnswer = Quiet | Invalid | PeerGone | StillThere | ReadError

  /** How the outside answers the n-th question put to it. */
  datatype Kernel = Kernel(
    children: nat -> Option<seq<int>>,
    kill: nat -> bool,
    wait: nat -> ReapAnswer,
    elapsed: nat -> nat,
    poll: nat -> bool,
    signals: nat -> Option<seq<int>>,
    liveness: nat -> LivenessAnswer,
    childReady: nat -> bool)

  datatype GuardError = WaitFailed | NonTerminalStatus | NoStatus | Infrastructure | PollFailed | SignalReadFailed

  datatype RunResult = Finished(outcome: Outcome) | Broken(error: GuardError) | Cut

  class Engine {
    const childPid: int
    const termTimeout: nat
    const kernel: Kernel
    var asked: nat
    var directOutcome: Option<Outcome>
    var pidfd: bool
    var liveness: bool
    var shutdown: Option<Shutdown>
    var failure: bool
    var clock: nat
    ghost var log: seq<Event>

    /** The shutdown record agrees with the trace. */
    ghost predicate Matches(sd: Shutdown)
      reads this
    {
      var st := Stand(log);
      && st.phase == PhaseOf(sd)
      && sd.signaled == st.sent
      && st.grouped && (st.current ==> Covered(st))
    }

    ghost predicate Consistent()
      reads this
    {
      && Lawful(log)
      && (failure <==> Failed(log))
      && Stand(log).clock <= clock
    }

    ghost function Collected(): Option<Outcome>
      reads this
    {
      match LastStatus(log, childPid) case None => None case Some(status) => FromWaitStatus(status)
    }

    /** The outcome tells of a status that the kernel gave for the direct child. */
    ghost predicate Grounded(outcome: Option<Outcome>) {
      outcome.Some? ==>
        exists q: nat :: Gave(q) && Tells(outcome.value, kernel.wait(q).status)
    }

    ghost predicate Gave(q: nat) {
      kernel.wait(q).ReapedChild? && kernel.wait(q).pid == childPid
    }

    ghost predicate Valid()
      reads this
    {
      && Consistent()
      && directOutcome == Collected()
      && (match shutdown case None => Stand(log).phase.Calm? case Some(sd) => Matches(sd))
    }

    /** Every listing after the n-th question fails. */
    ghost predicate SilentAfter(n: nat) {
      forall m :: m > n ==> kernel.children(m) == None
    }

    constructor (childPid: int, termTimeout: nat, kernel: Kernel, liveness: bool, pidfd: bool)
      ensures Valid() && log == [] && asked == 0 && shutdown.None?
      ensures this.childPid == childPid && this.termTimeout == termTimeout && this.kernel == kernel
    {
      this.childPid := childPid;
      this.termTimeout := termTimeout;
      this.kernel := kernel;
      asked := 0;
      this.liveness := liveness;
      this.pidfd := pidfd;
      directOutcome := None;
      shutdown := None;
      failure := false;
      clock := 0;
      log := [];
    }

    ghost method Note(e: Event)
      requires Lawful(log) && Allowed(Stand(log), e)
      modifies this`log
      ensures |log| == old(|log|) + 1 && log[|log| - 1] == e && log[..|log| - 1] == old(log)
      ensures Lawful(log) && Stand(log) == After(old(Stand(log)), e)
      ensures LastStatus(log, childPid) ==
              if e.Reaped? && e.pid == childPid then Some(e.status) else old(LastStatus(log, childPid))
      ensures Failed(log) <==> old(Failed(log)) || e.Failure?
    {
      Extend(log, e);
      log := log + [e];
    }

    method Now() returns (t: nat)
      modifies this`clock, this`asked
      ensures t == clock >= old(clock) && asked == old(asked) + 1
    {
      clock := clock + kernel.elapsed(asked);
      asked := asked + 1;
      t := clock;
    }

    method RecordFailure()
      requires Lawful(log) && Stand(log).clock <= clock
      modifies this`log, this`failure
      ensures Consistent() && failure && Stand(log) == old(Stand(log)) && Collected() == old(Collected())
    {
      Note(Failure);
      failure := true;
    }

    /** kill(2) on one process or on the group; the kernel may refuse. */
    method Send(ghost e: Event)
      requires Consistent() && Allowed(Stand(log), e) && (e.Signal? || e.GroupSignal?)
      modifies this`log, this`failure, this`asked
      ensures Consistent() && Stand(log) == After(old(Stand(log)), e) && Collected() == old(Collected())
      ensures (old(failure) ==> failure) && asked == old(asked) + 1
    {
      Note(e);
      asked := asked + 1;
      if !kernel.kill(asked) {
        RecordFailure();
      }
    }

    /** Lists the children once and signals those not signalled yet. What the guard knows
        afterwards is determined by the kernel's answer. */
    method SignalImmediateChildren(sd: Shutdown) returns (sd': Shutdown)
      requires Consistent() && Matches(sd)
      modifies this`log, this`failure, this`asked
      ensures Consistent() && Matches(sd') && sd' == sd.(signaled := sd'.signaled) && Collected() == old(Collected())
      ensures Stand(log) == AfterListing(old(Stand(log)), kernel.children(old(asked) + 1)) && asked > old(asked)
      ensures (old(failure) ==> failure) && (kernel.children(old(asked) + 1).None? ==> failure)
    {
      sd' := sd;
      asked := asked + 1;
      var listing := kernel.children(asked);
      if listing.None? {
        Note(ListingFailed);
        RecordFailure();
        return;
      }
      var children := listing.value;
      Note(Listed(children));
      sd' := SignalEach(sd, children);
    }

    method SignalEach(sd: Shutdown, children: seq<int>) returns (sd': Shutdown)
      requires Consistent() && sd.signaled == Stand(log).sent
      requires var st := Stand(log); st.listed == children && st.current && PhaseOf(sd) == st.phase
      modifies this`log, this`failure, this`asked
      ensures Consistent() && Collected() == old(Collected()) && (old(failure) ==> failure) && asked >= old(asked)
      ensures sd' == sd.(signaled := sd.signaled + Elements(children))
      ensures Stand(log) == old(Stand(log)).(sent := sd'.signaled)
    {
      sd' := sd;
      var signal := if sd.escalated then SIGKILL else sd.graceful;
      assert Elements(children[..0]) == {};
      for i := 0 to |children|
        invariant Consistent() && Collected() == old(Collected()) && (old(failure) ==> failure) && asked >= old(asked)
        invariant sd' == sd.(signaled := sd.signaled + Elements(children[..i]))
        invariant Stand(log) == old(Stand(log)).(sent := sd'.signaled)
      {
        OneMoreElement(children, i);
        if children[i] in sd'.signaled {
          continue;
        }
        sd' := sd'.(signaled := sd'.signaled + {children[i]});
        Send(Signal(children[i], signal));
      }
      assert children[..|children|] == children;
    }

    /** The graceful phase: the group is signalled, then the children. */
    method EnterShutdown(signal: int)
      requires Valid() && shutdown.None?
      modifies this`log, this`failure, this`shutdown, this`clock, this`asked
      ensures Valid() && shutdown.Some? && shutdown.value.graceful == signal && !shutdown.value.escalated
      ensures Stand(log) == Entered(old(Stand(log)), PhaseOf(shutdown.value), kernel.children(old(asked) + 3))
      ensures (old(failure) ==> failure) && asked >= old(asked) + 3
      ensures old(clock) <= shutdown.value.deadline - termTimeout <= clock
    {
      var now := Now();
      var sd := Shutdown(signal, now + termTimeout, false, {});
      Note(ShutdownBegun(signal, sd.deadline));
      Send(GroupSignal(signal));
      sd := SignalImmediateChildren(sd);
      shutdown := Some(sd);
    }

    /** A first call enters the graceful phase, and without any grace the kill at once; a later
        call changes nothing. */
    method BeginShutdown(signal: int)
      requires Valid()
      modifies this`log, this`failure, this`shutdown, this`clock, this`asked
      ensures Valid() && shutdown.Some? && (old(shutdown).Some? ==> shutdown == old(shutdown) && log == old(log))
      ensures old(shutdown).None? ==>
              shutdown.value.graceful == signal && (termTimeout == 0 <==> shutdown.value.escalated)
      ensures old(shutdown).None? && termTimeout > 0 ==>
                Stand(log) == Entered(old(Stand(log)), PhaseOf(shutdown.value), kernel.children(old(asked) + 3))
      ensures old(shutdown).None? && termTimeout == 0 && SilentAfter(old(asked) + 3) ==>
                KilledAtOnce(old(Stand(log)), signal, kernel.children(old(asked) + 3), Stand(log))
      ensures (old(failure) ==> failure) && (old(shutdown).None? ==> asked >= old(asked) + 3)
      // The grace is counted from this call.
      ensures old(shutdown).None? ==> old(clock) <= shutdown.value.deadline - termTimeout <= clock
    {
      if shutdown.Some? {
        return;
      }
      EnterShutdown(signal);
      if termTimeout == 0 {
        ghost var phase := PhaseOf(shutdown.value);
        Escalate();
        assert SilentAfter(old(asked) + 3) ==>
            Stand(log) == Entered(Entered(old(Stand(log)), phase, kernel.children(old(asked) + 3)), Killing, None);
      }
    }

    method SignalNewlyAdoptedChildren()
      requires Valid()
      modifies this`log, this`failure, this`shutdown, this`asked
      ensures Valid() && (shutdown.Some? <==> old(shutdown).Some?)
      ensures shutdown.Some? ==>
                && shutdown == Some(old(shutdown).value.(signaled := shutdown.value.signaled))
                && Stand(log) == AfterListing(old(Stand(log)), kernel.children(old(asked) + 1))
                && (kernel.children(old(asked) + 1).None? ==> failure)
      ensures old(failure) ==> failure
    {
      if shutdown.None? {
        return;
      }
      var sd := SignalImmediateChildren(shutdown.value);
      shutdown := Some(sd);
    }

    method Escalate()
      requires Valid()
      modifies this`log, this`failure, this`shutdown, this`asked
      ensures Valid() && (shutdown.Some? <==> old(shutdown).Some?)
      ensures shutdown.Some? ==> shutdown.value.escalated
      ensures shutdown.Some? ==> shutdown.value.(escalated := false, signaled := {}) ==
                                 old(shutdown).value.(escalated := false, signaled := {})
      ensures old(shutdown).Some? && old(shutdown).value.escalated ==> log == old(log) && shutdown == old(shutdown)
      ensures old(shutdown).Some? && !old(shutdown).value.escalated ==>
                Stand(log) == Entered(old(Stand(log)), Killing, kernel.children(old(asked) + 2))
      ensures (old(failure) ==> failure) && Stand(log).clock == old(Stand(log)).clock && asked >= old(asked)
    {
      if shutdown.None? || shutdown.value.escalated {
        return;
      }
      var sd := shutdown.value.(escalated := true, signaled := {});
      Note(Escalated);
      Send(GroupSignal(SIGKILL));
      sd := SignalImmediateChildren(sd);
      shutdown := Some(sd);
    }

    /** At or after the deadline the kill begins. `checked` is when that was decided. */
    method MaybeEscalate() returns (ghost checked: nat)
      requires Valid() && (shutdown.Some? ==> Stand(log).attempted)
      modifies this`log, this`failure, this`shutdown, this`clock, this`asked
      ensures Valid() && (shutdown.Some? <==> old(shutdown).Some?) && (shutdown.Some? ==> Stand(log).attempted)
      ensures old(clock) <= checked <= clock && Stand(log).clock == old(Stand(log)).clock
      ensures shutdown.Some? && !shutdown.value.escalated ==> checked < shutdown.value.deadline
      ensures old(shutdown).Some? && old(shutdown).value.escalated ==> log == old(log) && shutdown == old(shutdown)
      ensures old(failure) ==> failure
    {
      checked := clock;
      if shutdown.Some? && !shutdown.value.escalated {
        var now := Now();
        checked := now;
        if now >= shutdown.value.deadline {
          Escalate();
        }
      }
    }

    /** The poll timeout in milliseconds, and the clock it was computed from. */
    method PollTimeout() returns (timeout: int, now: nat)
      requires Valid()
      modifies this`clock, this`asked
      ensures Valid() && TimeoutOk(Stand(log).phase, timeout, now)
              && old(clock) <= now <= clock
    {
      now := clock;
      if shutdown.None? || shutdown.value.escalated {
        return -1, now;
      }
      now := Now();
      var remaining := if now <= shutdown.value.deadline then shutdown.value.deadline - now else 0;
      if remaining == 0 {
        return 0, now;
      }
      var millis := remaining / NANOS_PER_MILLI;
      timeout := if millis < MAX_TIMEOUT then millis else MAX_TIMEOUT;
    }

    /** A collected child; the status of the direct one is decoded. */
    method TakeStatus(pid: int, status: int) returns (ok: bool)
      requires Valid() && Grounded(directOutcome) && kernel.wait(asked) == ReapedChild(pid, status)
      modifies this`log, this`directOutcome, this`pidfd
      ensures Consistent() && Stand(log) == old(Stand(log)) && (ok ==> Valid() && Grounded(directOutcome))
      ensures ok <==> pid != childPid || status % 128 != 127
    {
      Note(Reaped(pid, status));
      DecodedStatusTells(status);
      ok := true;
      if pid == childPid {
        var outcome := FromWaitStatus(status);
        if outcome.None? {
          return false;
        }
        assert Gave(asked);
        directOutcome := outcome;
        pidfd := false;
      }
    }

    /** One wait for any child. `None` means that a child was collected and there may be more. */
    method ReapOne() returns (r: Option<Result<bool, RunResult>>)
      requires Valid() && Grounded(directOutcome)
      modifies this`log, this`directOutcome, this`pidfd, this`asked
      ensures Consistent() && Stand(log) == old(Stand(log))
      ensures r.None? || r.value.Ok? ==> Grounded(directOutcome)
      ensures r.None? ==> Valid()
      ensures r.Some? && r.value.Ok? ==>
                && Valid() && |log| > 0 && log[|log| - 1] == (if r.value.value then NoneLeft else NoneExited)
                && kernel.wait(asked) == if r.value.value then NoChildren else NoExitedChild
      ensures r.Some? && r.value.Err? ==> r.value.error.Broken?
    {
      asked := asked + 1;
      match kernel.wait(asked) {
        case ReapedChild(pid, status) =>
          var ok := TakeStatus(pid, status);
          r := if ok then None else Some(Err(Broken(NonTerminalStatus)));
        case NoExitedChild =>
          Note(NoneExited);
          r := Some(Ok(false));
        case NoChildren =>
          Note(NoneLeft);
          r := Some(Ok(true));
        case WaitError =>
          r := Some(Err(Broken(WaitFailed)));
      }
    }

    /** Collects every exited child. The result says that no child is left at all. */
    method ReapAll(patience: nat) returns (r: Result<bool, RunResult>)
      requires Valid() && Grounded(directOutcome)
      modifies this`log, this`directOutcome, this`pidfd, this`asked
      ensures Consistent() && Stand(log) == old(Stand(log)) && (r.Ok? ==> Grounded(directOutcome))
      ensures r.Ok? ==> Valid() && |log| > 0 && log[|log| - 1] == (if r.value then NoneLeft else NoneExited)
      ensures r.Ok? ==> kernel.wait(asked) == if r.value then NoChildren else NoExitedChild
      ensures r.Err? ==> !r.error.Finished?
    {
      for i := 0 to patience
        invariant Valid() && Stand(log) == old(Stand(log)) && Grounded(directOutcome)
      {
        var answer := ReapOne();
        if answer.Some? {
          return answer.value;
        }
      }
      r := Err(Cut);
    }

    /** One signal: the first request to stop begins the shutdown with that signal, the next one
        escalates it; a signal that should not arrive is a failure and stops the run too. */
    method HandleSignal(signal: int)
      requires Valid()
      modifies this`log, this`failure, this`shutdown, this`clock, this`asked
      ensures Valid() && (old(failure) ==> failure)
      ensures !Stops(signal) && !Unexpected(signal) ==> log == old(log) && shutdown == old(shutdown)
      ensures Stops(signal) ==> shutdown.Some?
      ensures Stops(signal) && old(shutdown).None? ==> shutdown.value.graceful == signal
      ensures Stops(signal) && old(shutdown).Some? ==> shutdown.value.escalated
      ensures Unexpected(signal) ==> StoppedBy(old(shutdown), shutdown, SIGTERM) && failure
      ensures old(shutdown).Some? && old(shutdown).value.escalated ==> shutdown == old(shutdown)
    {
      if signal == SIGCHLD {
      } else if signal == SIGTERM || signal == SIGINT || signal == SIGHUP || signal == SIGQUIT {
        if shutdown.None? {
          BeginShutdown(signal);
        } else if !shutdown.value.escalated {
          Escalate();
        }
      } else {
        RecordFailure();
        BeginShutdown(SIGTERM);
      }
    }

    /** All signals read at once. Two requests to stop, or one during a shutdown, escalate;
        without any request or unexpected signal nothing happens. */
    method HandleSignals(signals: seq<int>)
      requires Valid()
      modifies this`log, this`failure, this`shutdown, this`clock, this`asked
      ensures Valid()
      ensures Heeded(old(shutdown), shutdown, failure, signals)
      ensures Onward(old(shutdown), old(failure), shutdown, failure)
      ensures Requests(signals) == 0 && !Surprises(signals) ==> log == old(log) && shutdown == old(shutdown)
    {
      assert signals[..0] == [];
      for i := 0 to |signals|
        invariant Valid() && Onward(old(shutdown), old(failure), shutdown, failure)
        invariant Heeded(old(shutdown), shutdown, failure, signals[..i])
        invariant Requests(signals[..i]) == 0 && !Surprises(signals[..i]) ==>
                  log == old(log) && shutdown == old(shutdown)
      {
        OneMore(signals, i);
        HandleSignal(signals[i]);
      }
      assert signals[..|signals|] == signals;
    }

    /** A peer that has gone away stops the run; a broken descriptor is a failure as well. */
    method HandleLiveness()
      requires Valid()
      modifies this`log, this`failure, this`shutdown, this`clock, this`liveness, this`asked
      ensures Valid() && Onward(old(shutdown), old(failure), shutdown, failure)
      ensures !old(liveness) ==> log == old(log) && shutdown == old(shutdown) && !liveness
      ensures old(liveness) ==>
                match kernel.liveness(old(asked) + 1)
                case Quiet => liveness && log == old(log) && shutdown == old(shutdown)
                case StillThere => liveness && log == old(log) && shutdown == old(shutdown)
                case PeerGone => !liveness && StoppedBy(old(shutdown), shutdown, SIGTERM)
                case _ => !liveness && StoppedBy(old(shutdown), shutdown, SIGTERM) && failure
    {
      if !liveness {
        return;
      }
      asked := asked + 1;
      match kernel.liveness(asked) {
        case Quiet =>
        case StillThere =>
        case PeerGone =>
          liveness := false;
          BeginShutdown(SIGTERM);
        case Invalid =>
          RecordFailure();
          liveness := false;
          BeginShutdown(SIGTERM);
        case ReadError =>
          RecordFailure();
          liveness := false;
          BeginShutdown(SIGTERM);
      }
    }

    /** Reads the signals that are due, if any: the signal descriptor may also be quiet. */
    method ReadSignals() returns (ok: bool)
      requires Valid()
      modifies this`log, this`failure, this`shutdown, this`clock, this`asked
      ensures Valid() && Onward(old(shutdown), old(failure), shutdown, failure)
      ensures ok <==> kernel.signals(old(asked) + 1).Some?
      ensures ok ==> Heeded(old(shutdown), shutdown, failure, kernel.signals(old(asked) + 1).value)
    {
      asked := asked + 1;
      var signals := kernel.signals(asked);
      if signals.None? {
        return false;
      }
      HandleSignals(signals.value);
      ok := true;
    }

    /** One pass from signalling to poll(2). Once the direct child is gone, whatever is left is
        being shut down. */
    method Wait() returns (ok: bool)
      requires Valid() && (directOutcome.Some? ==> shutdown.Some?)
      modifies this`log, this`failure, this`shutdown, this`clock, this`asked
      ensures Valid() && |log| > 0 && log[|log| - 1].Polled?
      ensures Onward(old(shutdown), old(failure), shutdown, failure)
      ensures old(shutdown).Some? && old(shutdown).value.escalated ==>
                Stand(log[..|log| - 1]) == AfterListing(old(Stand(log)), kernel.children(old(asked) + 1))
      ensures old(shutdown).Some? && kernel.children(old(asked) + 1).None? ==> failure
    {
      SignalNewlyAdoptedChildren();
      ghost var checked := MaybeEscalate();
      var timeout, now := PollTimeout();
      Note(Polled(timeout, checked, now));
      asked := asked + 1;
      ok := kernel.poll(asked);
    }

    /** Handling what the poll reported. */
    method HandleEvents() returns (ok: bool)
      requires Valid()
      modifies this`log, this`failure, this`shutdown, this`clock, this`asked, this`liveness, this`pidfd
      ensures Valid() && Onward(old(shutdown), old(failure), shutdown, failure)
      ensures ok <==> kernel.signals(old(asked) + 1).Some?
      ensures ok ==> Heeded(old(shutdown), shutdown, failure, kernel.signals(old(asked) + 1).value)
    {
      ok := ReadSignals();
      if !ok {
        return;
      }
      HandleLiveness();
      asked := asked + 1;
      if pidfd && kernel.childReady(asked) {
        pidfd := false;
      }
    }

    /** Waiting for the next event and handling it. The signals delivered in this round, as the
        kernel's answer to question `q`, are heeded. */
    method PollRound() returns (r: Option<GuardError>, ghost q: nat)
      requires Valid() && (directOutcome.Some? ==> shutdown.Some?)
      modifies this`log, this`failure, this`shutdown, this`clock, this`asked, this`liveness, this`pidfd
      ensures Valid() && Onward(old(shutdown), old(failure), shutdown, failure)
      ensures r.None? ==>
                kernel.signals(q).Some? && Heeded(old(shutdown), shutdown, failure, kernel.signals(q).value)
    {
      var ok := Wait();
      q := asked + 1;
      if !ok {
        return Some(PollFailed), q;
      }
      ok := HandleEvents();
      r := if ok then None else Some(SignalReadFailed);
    }

    /** What a result of the run means. */
    ghost predicate Justified(r: RunResult)
      reads this
    {
      && (r.Finished? ==>
            && Valid() && |log| > 0 && log[|log| - 1] == NoneLeft && !failure && kernel.wait(asked) == NoChildren
            && directOutcome == Some(r.outcome) && Grounded(directOutcome))
      && (r == Broken(Infrastructure) ==> |log| > 0 && log[|log| - 1] == NoneLeft && failure)
      && (r == Broken(NoStatus) ==> Valid() && |log| > 0 && log[|log| - 1] == NoneLeft && directOutcome.None?)
    }

    /** Collecting children and deciding whether the run is over. */
    method Collect(patience: nat) returns (r: Option<RunResult>)
      requires Valid() && Grounded(directOutcome)
      modifies this
      ensures Consistent() && Onward(old(shutdown), old(failure), shutdown, failure)
      ensures r.Some? ==> Justified(r.value)
      // Once the direct child is gone the others are stopped.
      ensures shutdown == old(shutdown) || StoppedBy(old(shutdown), shutdown, SIGTERM)
      ensures r.None? ==> Valid() && Grounded(directOutcome) && (directOutcome.Some? ==> shutdown.Some?)
    {
      var reaped := ReapAll(patience);
      if reaped.Err? {
        return Some(if reaped.error.Cut? then Cut
                    else if reaped.error == Broken(WaitFailed) then Broken(WaitFailed)
                    else Broken(NonTerminalStatus));
      }
      var noChildren := reaped.value;
      if directOutcome.Some? && shutdown.None? && !noChildren {
        BeginShutdown(SIGTERM);
      }
      if directOutcome.Some? && noChildren {
        return Some(if failure then Broken(Infrastructure) else Finished(directOutcome.value));
      }
      r := if noChildren then Some(Broken(NoStatus)) else None;
    }

    /** The loop of the guard. `at` lists the questions that were answered with signals. */
    method Rounds(rounds: nat, patience: nat) returns (r: RunResult, ghost at: seq<nat>)
      requires Valid() && Grounded(directOutcome)
      modifies this
      ensures Consistent() && Heeded(None, shutdown, failure, HeardAt(kernel, at)) && Justified(r)
    {
      at := [];
      for i := 0 to rounds
        invariant Valid() && Grounded(directOutcome)
        invariant Heeded(None, shutdown, failure, HeardAt(kernel, at))
      {
        ghost var before, failed := shutdown, failure;
        var over := Collect(patience);
        HeededStill(before, failed, shutdown, failure, HeardAt(kernel, at));
        if over.Some? {
          return over.value, at;
        }
        before, failed := shutdown, failure;
        var broken, q := PollRound();
        if broken.Some? {
          HeededStill(before, failed, shutdown, failure, HeardAt(kernel, at));
          return Broken(if broken.value == SignalReadFailed then SignalReadFailed else PollFailed), at;
        }
        HeededOn(kernel, at, q, before, failed, shutdown, failure);
        at := at + [q];
      }
      r := Cut;
    }

    /** Success means: the last thing the kernel said is that no child is left, helper and
        adopted descendants included; the outcome is the decoded status collected for the
        direct child, as the kernel gave it; and no infrastructure failure was ever recorded.
        Whatever the result, the signals delivered during the run have been heeded. */
    method Run(rounds: nat, patience: nat) returns (r: RunResult, ghost at: seq<nat>)
      requires Valid() && Grounded(directOutcome)
      modifies this
      ensures Lawful(log) && Heeded(None, shutdown, failure, HeardAt(kernel, at))
      ensures r.Finished? ==>
              |log| > 0 && log[|log| - 1] == NoneLeft && !Failed(log) && kernel.wait(asked) == NoChildren
      ensures r.Finished? ==>
              LastStatus(log, childPid).Some? && FromWaitStatus(LastStatus(log, childPid).value) == Some(r.outcome)
      ensures r.Finished? ==>
                forall i: nat :: OnlyReap(log, childPid, i) ==> FromWaitStatus(log[i].status) == Some(r.outcome)
      ensures r.Finished? ==> forall i: nat :: OnlyReap(log, childPid, i) ==> Tells(r.outcome, log[i].status)
      ensures r.Finished? ==> exists q: nat :: Gave(q) && Tells(r.outcome, kernel.wait(q).status)
      ensures r == Broken(Infrastructure) ==> |log| > 0 && log[|log| - 1] == NoneLeft && Failed(log)
      ensures r == Broken(NoStatus) ==> |log| > 0 && log[|log| - 1] == NoneLeft && Collected() == None
    {
      r, at := Rounds(rounds, patience);
      if r.Finished? {
        OnlyReapIsLast(log, childPid);
        DecodedStatusTells(LastStatus(log, childPid).value);
      }
    }

    /** The emergency sweep after a failed run: kill and reap until nothing is left. It reports
        success only if no call failed and the last wait found no child; `None` is a sweep cut
        short. */
    method KillAndReapAfterFailure(rounds: nat) returns (r: Option<bool>, ghost calls: seq<Event>)
      modifies this`asked
      ensures r == Some(true) ==> |calls| > 0 && calls[|calls| - 1] == NoneLeft && !Failed(calls)
      ensures r == Some(true) ==> ListingFailed !in calls && kernel.wait(asked) == NoChildren
      ensures r == Some(false) ==> Failed(calls)
    {
      calls := [GroupSignal(SIGKILL)];
      var failures := 0;
      asked := asked + 1;
      if !kernel.kill(asked) {
        failures := 1;
        calls := calls + [Failure];
        assert calls[1].Failure?;
      }
      for i := 0 to rounds
        invariant failures >= 0 && (failures > 0 <==> Failed(calls))
        invariant ListingFailed !in calls
      {
        asked := asked + 1;
        var listing := kernel.children(asked);
        if listing.None? {
          calls := calls + [ListingFailed, Failure];
          assert calls[|calls| - 1].Failure?;
          return Some(false), calls;
        }
        FailedSnoc(calls, Listed(listing.value));
        calls := calls + [Listed(listing.value)];
        failures, calls := KillEach(listing.value, failures, calls);
        match kernel.wait(asked) {
          case ReapedChild(pid, status) =>
            ghost var before := calls;
            calls := calls + [Reaped(pid, status)];
            FailedSnoc(before, Reaped(pid, status));
          case NoChildren =>
            ghost var before := calls;
            calls := calls + [NoneLeft];
            FailedSnoc(before, NoneLeft);
            return Some(failures == 0), calls;
          case _ =>
            calls := calls + [Failure];
            assert calls[|calls| - 1].Failure?;
            return Some(false), calls;
        }
      }
      r := None;
    }

    method KillEach(children: seq<int>, before: int,
                    ghost calls: seq<Event>) returns (failures: int, ghost calls': seq<Event>)
      modifies this`asked
      requires before >= 0 && (before > 0 <==> Failed(calls)) && ListingFailed !in calls
      ensures failures >= before && (failures > 0 <==> Failed(calls')) && ListingFailed !in calls'
      ensures calls <= calls'
      ensures forall p :: p in children ==> Signal(p, SIGKILL) in calls'
    {
      failures, calls' := before, calls;
      for i := 0 to |children|
        invariant failures >= before && (failures > 0 <==> Failed(calls')) && ListingFailed !in calls'
        invariant calls <= calls'
        invariant forall j :: 0 <= j < i ==> Signal(children[j], SIGKILL) in calls'
      {
        FailedSnoc(calls', Signal(children[i], SIGKILL));
        calls' := calls' + [Signal(children[i], SIGKILL)];
        asked := asked + 1;
        if !kernel.kill(asked) {
          FailedSnoc(calls', Failure);
          failures, calls' := failures + 1, calls' + [Failure];
        }
      }
    }
  }

  /** The signals that ask the guard to stop. */
  predicate Stops(signal: int) {
    signal == SIGTERM || signal == SIGINT || signal == SIGHUP || signal == SIGQUIT
  }

  predicate Unexpected(signal: int) {
    !Stops(signal) && signal != SIGCHLD
  }

  ghost function Requests(signals: seq<int>): nat {
    if signals == [] then 0 else Requests(signals[..|signals| - 1]) + if Stops(signals[|signals| - 1]) then 1 else 0
  }

  ghost predicate Surprises(signals: seq<int>) {
    signals != [] && (Surprises(signals[..|signals| - 1]) || Unexpected(signals[|signals| - 1]))
  }

  /** What was asked for in these signals has been done: one request stops the run, two of them,
      or one during a shutdown, kill it; a signal that should not arrive is a failure too. */
  ghost predicate Heeded(before: Option<Shutdown>, after: Option<Shutdown>, failure: bool, signals: seq<int>) {
    && (Requests(signals) > 0 || Surprises(signals) ==> after.Some?)
    && (Requests(signals) > 1 || (Requests(signals) > 0 && before.Some?) ==> after.Some? && after.value.escalated)
    && (Surprises(signals) ==> failure)
  }

  /** The run is being stopped: as before, or from now on with this signal. */
  ghost predicate StoppedBy(before: Option<Shutdown>, after: Option<Shutdown>, signal: int) {
    after.Some? && (if before.Some? then after == before else after.value.graceful == signal)
  }

  /** A shutdown is never taken back, nor an escalation, nor a failure. */
  ghost predicate Onward(before: Option<Shutdown>, failed: bool, after: Option<Shutdown>, failure: bool) {
    && (before.Some? ==> after.Some? && (before.value.escalated ==> after.value.escalated))
    && (failed ==> failure)
  }

  /** The signals delivered in answer to these questions, in order. */
  ghost function HeardAt(kernel: Kernel, at: seq<nat>): seq<int> {
    if at == [] then []
    else
      var q := at[|at| - 1];
      HeardAt(kernel, at[..|at| - 1]) + if kernel.signals(q).Some? then kernel.signals(q).value else []
  }

  lemma HeededStill(before: Option<Shutdown>, failed: bool, after: Option<Shutdown>, failure: bool, signals: seq<int>)
    requires Heeded(None, before, failed, signals) && Onward(before, failed, after, failure)
    ensures Heeded(None, after, failure, signals)
  {
  }

  lemma HeededOn(kernel: Kernel, at: seq<nat>, q: nat, before: Option<Shutdown>, failed: bool,
                 after: Option<Shutdown>, failure: bool)
    requires kernel.signals(q).Some? && Heeded(before, after, failure, kernel.signals(q).value)
    requires Heeded(None, before, failed, HeardAt(kernel, at)) && Onward(before, failed, after, failure)
    ensures Heeded(None, after, failure, HeardAt(kernel, at + [q]))
  {
    assert (at + [q])[..|at|] == at;
    RequestsAppend(HeardAt(kernel, at), kernel.signals(q).value);
  }

  lemma {:induction false} RequestsAppend(a: seq<int>, b: seq<int>)
    ensures Requests(a + b) == Requests(a) + Requests(b) && (Surprises(a + b) <==> Surprises(a) || Surprises(b))
    decreases |b|
  {
    if b == [] {
      assert a + b == a;
    } else {
      assert (a + b)[..|a + b| - 1] == a + b[..|b| - 1];
      RequestsAppend(a, b[..|b| - 1]);
    }
  }

  lemma OneMore(signals: seq<int>, i: nat)
    requires i < |signals|
    ensures Requests(signals[..i + 1]) == Requests(signals[..i]) + if Stops(signals[i]) then 1 else 0
    ensures Surprises(signals[..i + 1]) <==> Surprises(signals[..i]) || Unexpected(signals[i])
  {
    assert signals[..i + 1][..i] == signals[..i];
  }

  lemma FailedSnoc(log: seq<Event>, e: Event)
    ensures Failed(log + [e]) <==> Failed(log) || e.Failure?
  {
    if Failed(log) {
      var i :| 0 <= i < |log| && log[i].Failure?;
      assert (log + [e])[i].Failure?;
    }
    if e.Failure? { assert (log + [e])[|log|].Failure?; }
  }

  /** The exception in `PollCoverage` occurs: a guard without grace whose every listing but the
      first fails. Its only child is listed and sent SIGTERM, the kill begins at once, and the
      guard waits without limit although that child was sent no SIGKILL of its own. */
  method StaleSnapshot() returns (engine: Engine)
    ensures engine.Valid() && engine.failure
    ensures |engine.log| > 0 && engine.log[|engine.log| - 1].Polled?
    ensures var st := Stand(engine.log[..|engine.log| - 1]); st.phase.Killing? && st.listed == [7] && !Covered(st)
  {
    var kernel := Kernel(n => if n <= 3 then Some([7]) else None, n => true, n => NoExitedChild, n => 0, n => true,
                         n => Some([]), n => Quiet, n => false);
    engine := new Engine(2, 0, kernel, true, true);
    engine.BeginShutdown(SIGTERM);
    assert engine.SilentAfter(3);
    assert Stand(engine.log).listed == [7] && Stand(engine.log).sent == {} && engine.asked >= 3;
    var ok := engine.Wait();
    assert 7 in [7];
  }
}
