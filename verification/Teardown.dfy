/** The handshake by which guest PID 1 can always tear down a workload: the supervisor
    publishes the workload's PID before it opens the release gate. Three processes, every
    interleaving, and a supervisor that may die between any two steps. */
module Teardown {
  import opened Bytes
  import opened InternalEvents

  const RELEASE_BYTE: Byte := 0xA5

  // ---------------------------------------------------------------------
  // The two pipes as the code reads them

  datatype TeardownError = NotOnePid | NonpositivePid

  /** The nonblocking read of the PID channel after the supervisor is gone: nothing there
      (end of file or would-block), exactly one PID, or an error. */
  function ReadTeardownPid(channel: seq<Byte>): Result<Option<I32>, TeardownError> {
    var bytes := if |channel| <= 5 then channel else channel[..5];
    if bytes == [] then Ok(None)
    else if |bytes| != 4 then Err(NotOnePid)
    else if I32At(bytes, 0) <= 0 then Err(NonpositivePid)
    else Ok(Some(I32At(bytes, 0)))
  }

  /** The gate opens for the one release byte and nothing else. */
  predicate GateOpens(bytes: seq<Byte>) {
    bytes == [RELEASE_BYTE]
  }

  /** A channel reads as a process ID exactly when it holds the four bytes that publish it. */
  lemma PublishedPidReadsBack(channel: seq<Byte>, pid: I32)
    requires pid > 0
    ensures ReadTeardownPid(channel) == Ok(Some(pid)) <==> channel == PutI32(pid)
  {
    if |channel| == 4 {
      assert channel[0..4] == channel;
      I32Field(channel, 0, pid);
    }
  }

  // ---------------------------------------------------------------------
  // States

  datatype Supervisor =
    | Setup        // namespaces and mounts, before the workload is forked
    | Forked       // holds the PID channel and the gate
    | Published    // the PID is in the channel
    | Released     // the release byte is in the gate, its writer is closed
    | Gone         // exited or killed; its descriptors are closed
    | Reaped       // PID 1 has its status

  datatype Workload =
    | Unborn
    | Fresh        // forked, still holding the gate's write end it inherited
    | Waiting      // blocked on the gate
    | Passed       // the gate opened; setting up before exec
    | Running      // executed the image's program
    | Ended        // exited or killed, a zombie
    | Collected    // reaped; its PID may be used again

  datatype Init =
    | EventLoop
    | Failing              // the event loop returned an error
    | SupervisorKilled     // SIGKILL was sent to the supervisor
    | SupervisorReaped     // its status has been collected
    | ChannelRead(pid: Result<Option<I32>, TeardownError>)
    | TornDown             // the published workload, if any, was sent SIGKILL
    | Finishing            // the event loop returned an outcome; waiting for the supervisor
    | Finished

  datatype State = State(
    pid: I32,                 // what fork returned to the supervisor
    init: Init,
    supervisor: Supervisor,
    workload: Workload,
    channel: seq<Byte>,       // everything written to the PID channel
    gate: seq<Byte>,          // everything written to the gate
    gateHeldBySupervisor: bool,
    gateHeldByWorkload: bool,
    killSent: bool)           // SIGKILL is pending for, or has ended, the workload

  predicate Initial(s: State) {
    && s.init == EventLoop && s.supervisor == Setup && s.workload == Unborn
    && s.channel == [] && s.gate == [] && !s.gateHeldBySupervisor && !s.gateHeldByWorkload && !s.killSent
  }

  // ---------------------------------------------------------------------
  // Steps. A pending SIGKILL does not stop a process at once: it may still take steps until
  // its `Dies` step.

  datatype Step =
    // supervisor
    | Fork
    | Publish
    | Release
    | SupervisorFails       // any error path, and the normal exit
    | SupervisorDies        // SIGKILL, from PID 1 or from anywhere else
    | SupervisorReapsWorkload
    // workload
    | DropInheritedEnds
    | ReadGate
    | Exec
    | WorkloadFails         // any error path before exec, and any exit after it
    | WorkloadDies
    // PID 1
    | LoopFails
    | LoopSucceeds
    | KillSupervisor
    | WaitForSupervisor
    | ReadChannel
    | KillWorkload
    | ReapOrphan

  predicate SupervisorAlive(s: State) {
    s.supervisor.Setup? || s.supervisor.Forked? || s.supervisor.Published? || s.supervisor.Released?
  }

  predicate WorkloadAlive(s: State) {
    s.workload.Fresh? || s.workload.Waiting? || s.workload.Passed? || s.workload.Running?
  }

  /** The read of the gate returns: two bytes are there, or no writer is left. */
  predicate GateReadable(s: State) {
    |s.gate| >= 2 || (!s.gateHeldBySupervisor && !s.gateHeldByWorkload)
  }

  predicate Enabled(s: State, step: Step) {
    match step
    case Fork => s.supervisor.Setup?
    case Publish => s.supervisor.Forked? && s.pid > 0
    case Release => s.supervisor.Published?
    case SupervisorFails => SupervisorAlive(s)
    case SupervisorDies => SupervisorAlive(s)
    case SupervisorReapsWorkload => s.supervisor.Released? && s.workload.Ended?
    case DropInheritedEnds => s.workload.Fresh?
    case ReadGate => s.workload.Waiting? && GateReadable(s)
    case Exec => s.workload.Passed?
    case WorkloadFails => s.workload.Passed? || s.workload.Running?
    case WorkloadDies => WorkloadAlive(s)
    case LoopFails => s.init.EventLoop?
    case LoopSucceeds => s.init.EventLoop?
    case KillSupervisor => s.init.Failing?
    case WaitForSupervisor => (s.init.SupervisorKilled? || s.init.Finishing?) && s.supervisor.Gone?
    case ReadChannel => s.init.SupervisorReaped?
    case KillWorkload => s.init.ChannelRead?
    case ReapOrphan => (s.init.TornDown? || s.init.Finished?) && s.workload.Ended?
  }

  function Apply(s: State, step: Step): State
    requires Enabled(s, step)
  {
    match step
    case Fork => s.(supervisor := Forked, workload := Fresh, gateHeldBySupervisor := true, gateHeldByWorkload := true)
    case Publish => s.(supervisor := Published, channel := s.channel + PutI32(s.pid))
    case Release => s.(supervisor := Released, gate := s.gate + [RELEASE_BYTE], gateHeldBySupervisor := false)
    case SupervisorFails => s.(supervisor := Gone, gateHeldBySupervisor := false)
    case SupervisorDies => s.(supervisor := Gone, gateHeldBySupervisor := false)
    case SupervisorReapsWorkload => s.(workload := Collected)
    case DropInheritedEnds => s.(workload := Waiting, gateHeldByWorkload := false)
    case ReadGate =>
      if GateOpens(if |s.gate| <= 2 then s.gate else s.gate[..2]) then s.(workload := Passed) else s.(workload := Ended)
    case Exec => s.(workload := Running)
    case WorkloadFails => s.(workload := Ended)
    case WorkloadDies => s.(workload := Ended, gateHeldByWorkload := false)
    case LoopFails => s.(init := Failing)
    case LoopSucceeds => s.(init := Finishing)
    case KillSupervisor => s.(init := SupervisorKilled)
    case WaitForSupervisor => s.(init := if s.init.Finishing? then Finished else SupervisorReaped, supervisor := Reaped)
    case ReadChannel => s.(init := ChannelRead(ReadTeardownPid(s.channel)))
    case KillWorkload =>
      // kill(2) reaches the workload if the PID read is its PID and it has not been reaped.
      var named := s.init.pid == Ok(Some(s.pid)) && !s.workload.Unborn? && !s.workload.Collected?;
      s.(init := TornDown, killSent := s.killSent || named)
    case ReapOrphan => s.(workload := Collected)
  }

  /** A run: steps taken one after another, each of them possible where it is taken. */
  predicate Possible(s: State, steps: seq<Step>)
    decreases |steps|
  {
    steps == [] || (Enabled(s, steps[0]) && Possible(Apply(s, steps[0]), steps[1..]))
  }

  function Run(s: State, steps: seq<Step>): State
    requires Possible(s, steps)
    decreases |steps|
  {
    if steps == [] then s else Run(Apply(s, steps[0]), steps[1..])
  }

  /** The steps of the workload, and of those that end or collect it. */
  predicate WorkloadStep(step: Step) {
    || step.DropInheritedEnds? || step.ReadGate? || step.Exec?
    || step.WorkloadFails? || step.WorkloadDies? || step.ReapOrphan?
  }

  // ---------------------------------------------------------------------
  // The invariant

  /** The workload is past the gate and has not ended. */
  predicate PastGate(s: State) {
    s.workload.Passed? || s.workload.Running?
  }

  predicate Torn(s: State) {
    s.init.TornDown?
  }

  predicate AfterReap(s: State) {
    s.init.SupervisorReaped? || s.init.ChannelRead? || s.init.TornDown? || s.init.Finished?
  }

  ghost predicate Inv(s: State) {
    // The channel holds nothing or exactly the PID; the gate nothing or the release byte,
    // and the byte only behind the PID.
    && (s.channel == [] || (s.pid > 0 && s.channel == PutI32(s.pid)))
    && (s.gate == [] || s.gate == [RELEASE_BYTE])
    && (s.gate != [] ==> s.channel != [])
    && (s.supervisor.Setup? || s.supervisor.Forked? ==> s.channel == [])
    && (s.supervisor.Published? ==> s.channel != [] && s.gate == [])
    && (s.supervisor.Setup? ==> s.workload.Unborn?)
    && (s.workload.Unborn? ==>
          s.channel == [] && !s.supervisor.Forked? && !s.supervisor.Published? && !s.supervisor.Released?)
    // Who can still write to the gate.
    && (s.gateHeldBySupervisor <==> s.supervisor.Forked? || s.supervisor.Published?)
    && (s.gateHeldByWorkload <==> s.workload.Fresh?)
    // Only an open gate lets the workload through.
    && (PastGate(s) ==> s.gate != [])
    // PID 1 reads the channel only after the supervisor can no longer write.
    && (AfterReap(s) ==> s.supervisor.Reaped?)
    && (s.init.ChannelRead? ==> s.init.pid == Ok(if s.channel == [] then None else Some(s.pid)))
    // The kill reaches whatever was published.
    && (Torn(s) && s.channel != [] && WorkloadAlive(s) ==> s.killSent)
  }

  lemma InvInitial(s: State)
    requires Initial(s)
    ensures Inv(s)
  {
  }

  predicate SupervisorStep(step: Step) {
    step.Fork? || step.Publish? || step.Release? || step.SupervisorFails? || step.SupervisorDies?
        || step.SupervisorReapsWorkload?
  }

  lemma InvSupervisorStep(s: State, step: Step)
    requires Inv(s) && Enabled(s, step) && SupervisorStep(step)
    ensures Inv(Apply(s, step))
  {
    match step {
      case Publish => assert [] + PutI32(s.pid) == PutI32(s.pid);
      case Release => assert [] + [RELEASE_BYTE] == [RELEASE_BYTE];
      case _ =>
    }
  }

  lemma InvWorkloadStep(s: State, step: Step)
    requires Inv(s) && Enabled(s, step) && WorkloadStep(step)
    ensures Inv(Apply(s, step))
  {
  }

  lemma InvInitStep(s: State, step: Step)
    requires Inv(s) && Enabled(s, step) && !SupervisorStep(step) && !WorkloadStep(step)
    ensures Inv(Apply(s, step))
  {
    if s.channel != [] { PublishedPidReadsBack(s.channel, s.pid); }
  }

  /** Every step of every process keeps the invariant. */
  lemma InvStep(s: State, step: Step)
    requires Inv(s) && Enabled(s, step)
    ensures Inv(Apply(s, step))
  {
    if SupervisorStep(step) {
      InvSupervisorStep(s, step);
    } else if WorkloadStep(step) {
      InvWorkloadStep(s, step);
    } else {
      InvInitStep(s, step);
    }
  }

  lemma {:induction false} InvRun(s: State, steps: seq<Step>)
    requires Inv(s) && Possible(s, steps)
    ensures Inv(Run(s, steps))
    decreases |steps|
  {
    if steps != [] {
      InvStep(s, steps[0]);
      InvRun(Apply(s, steps[0]), steps[1..]);
    }
  }

  // ---------------------------------------------------------------------
  // The theorems

  /** In every interleaving, a workload that is past the gate has its PID in the channel. */
  lemma PublishedBeforePassed(s: State, steps: seq<Step>)
    requires Initial(s) && Possible(s, steps)
    ensures var t := Run(s, steps); PastGate(t) ==> ReadTeardownPid(t.channel) == Ok(Some(t.pid))
  {
    InvInitial(s);
    InvRun(s, steps);
    var t := Run(s, steps);
    if t.pid > 0 { PublishedPidReadsBack(t.channel, t.pid); }
  }

  /** Reading the channel on the failure path never finds a malformed PID. */
  lemma ChannelIsNeverMalformed(s: State, steps: seq<Step>)
    requires Initial(s) && Possible(s, steps)
    ensures var t := Run(s, steps); t.init.ChannelRead? ==> t.init.pid.Ok?
  {
    InvInitial(s);
    InvRun(s, steps);
  }

  lemma {:induction false} PossibleAppend(s: State, a: seq<Step>, b: seq<Step>)
    requires Possible(s, a + b)
    ensures Possible(s, a) && Possible(Run(s, a), b) && Run(s, a + b) == Run(Run(s, a), b)
    decreases |a|
  {
    if a == [] {
      assert a + b == b;
    } else {
      assert (a + b)[1..] == a[1..] + b;
      PossibleAppend(Apply(s, a[0]), a[1..], b);
    }
  }

  /** Once the failure path has reaped the supervisor, read the channel and sent its kill, no
      workload without a pending SIGKILL has executed or ever will: for every run up to that
      point and every continuation of it. */
  lemma NothingEscapes(s: State, steps: seq<Step>, more: seq<Step>)
    requires Initial(s) && Possible(s, steps + more)
    requires (PossibleAppend(s, steps, more); Run(s, steps).init.TornDown?)
    ensures var t := Run(s, steps + more); PastGate(t) ==> t.killSent
  {
    PossibleAppend(s, steps, more);
    InvInitial(s);
    InvRun(s, steps);
    InvRun(Run(s, steps), more);
    TornDownStays(Run(s, steps), more);
  }

  lemma {:induction false} TornDownStays(s: State, steps: seq<Step>)
    requires s.init.TornDown? && Possible(s, steps)
    ensures Run(s, steps).init.TornDown?
    decreases |steps|
  {
    if steps != [] { TornDownStays(Apply(s, steps[0]), steps[1..]); }
  }

  // ---------------------------------------------------------------------
  // The blocking reap at the end does not wait forever

  /** Steps that the workload can still take before it is collected. */
  function StepsLeft(w: Workload): nat {
    match w
    case Unborn => 0
    case Fresh => 5
    case Waiting => 4
    case Passed => 3
    case Running => 2
    case Ended => 1
    case Collected => 0
  }

  /** After teardown a workload that exists always has a step to take that does not depend on
      its own good will: the kill, the closed gate, or being reaped. And every step it takes
      brings it closer to being collected, so waiting for all children ends. */
  lemma TeardownTerminates(s: State, step: Step)
    requires Inv(s) && s.init.TornDown?
    ensures StepsLeft(s.workload) > 0 ==>
              exists next :: Enabled(s, next) && WorkloadStep(next)
                             && (next.WorkloadDies? ==> s.killSent) && !next.WorkloadFails? && !next.Exec?
    ensures Enabled(s, step) ==> WorkloadStep(step) && StepsLeft(Apply(s, step).workload) < StepsLeft(s.workload)
  {
    if s.workload.Fresh? { assert Enabled(s, DropInheritedEnds); }
    if s.workload.Waiting? { assert Enabled(s, ReadGate); }
    if PastGate(s) { assert Enabled(s, WorkloadDies); }
    if s.workload.Ended? { assert Enabled(s, ReapOrphan); }
  }

  // ---------------------------------------------------------------------
  // The gate does open

  lemma Then(s: State, step: Step, rest: seq<Step>)
    requires Enabled(s, step) && Possible(Apply(s, step), rest)
    ensures Possible(s, [step] + rest) && Run(s, [step] + rest) == Run(Apply(s, step), rest)
  {
    assert ([step] + rest)[1..] == rest;
  }

  /** Without failures the workload runs: the handshake is not safe by never releasing. */
  lemma WorkloadCanRun(s: State) returns (steps: seq<Step>)
    requires Initial(s) && s.pid > 0
    ensures Possible(s, steps) && Run(s, steps).workload.Running?
  {
    var s1 := Apply(s, Fork);
    var s2 := Apply(s1, Publish);
    var s3 := Apply(s2, Release);
    assert s3.gate == [RELEASE_BYTE];
    var s4 := Apply(s3, DropInheritedEnds);
    var s5 := Apply(s4, ReadGate);
    Then(s5, Exec, []);
    Then(s4, ReadGate, [Exec] + []);
    Then(s3, DropInheritedEnds, [ReadGate] + ([Exec] + []));
    Then(s2, Release, [DropInheritedEnds] + ([ReadGate] + ([Exec] + [])));
    Then(s1, Publish, [Release] + ([DropInheritedEnds] + ([ReadGate] + ([Exec] + []))));
    steps := [Fork] + ([Publish] + ([Release] + ([DropInheritedEnds] + ([ReadGate] + ([Exec] + [])))));
    Then(s, Fork, [Publish] + ([Release] + ([DropInheritedEnds] + ([ReadGate] + ([Exec] + [])))));
  }
}
