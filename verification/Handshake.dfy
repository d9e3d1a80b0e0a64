/** One measured trial: the launcher process, the parent and its monitor thread, step by step and in
    any interleaving. */
module Handshake {
  import opened Wrappers
  import opened CgroupLauncher
  import opened Sequences

  datatype ExitCode = NoGo | Failed | Killed | OfTarget

  /** Where the launcher script stands; `Exec` is the target that replaced it. */
  datatype Process = Begun | Attached | Signalled | Waiting | Cleared | Exec | Exited(code: ExitCode)

  /** Where `TrialCgroup.run` stands, the start of the launcher included. */
  datatype Parent =
    | AwaitReady     // in `select` or `read` on the ready pipe
    | StartFailed    // `start` is about to clean up and raise
    | StartClosed    // and has closed the go pipe
    | Ready          // the launcher object exists
    | Monitoring     // the monitor thread runs
    | Timing         // the clock was read
    | Communicating  // `G` was written
    | Aborting       // an exception: `terminate` comes next
    | Closed         // and has closed the go pipe
    | Killing        // and has signalled the launcher, which is being reaped
    | Stopping       // the `finally` block
    | Joining        // waiting for the monitor
    | FinalCheck     // the last `observe`
    | FinalSample
    | Raised
    | Abandoned      // an interrupt before the `try`: the launcher is left as it is
    | Verdict        // the checks after the last sample
    | Succeeded

  datatype Monitor = Off | Idle | Observing | Done

  datatype State = State(
    process: Process,
    inCgroup: bool,
    execed: bool,
    readyByte: bool,
    handle: Handle,
    goWritten: nat,
    parent: Parent,
    failing: bool,
    timer: bool,
    monitor: Monitor,
    stop: bool,
    record: Record,
    samples: seq<nat>)

  /** The interpreter's own path and the one the target runs from. */
  datatype Config = Config(python: string, target: string)

  datatype LauncherStep = Attach | Signal | CloseReady | ReadGo | ExecTarget | TargetExits | LauncherFails

  datatype ParentStep =
    | ReadReady | ReadyEof | ReadyTimeout | CloseStart | KillStart | Abandon | MonitorFails | StartMonitor | StartTimer
    | ReleaseLauncher | Reap

  datatype FinishStep =
    | Interrupt | CloseGo | KillLauncher | ReapKilled | SetStop | Join
    | FinalObserve | FinalTree(pids: set<string>, rss: nat) | Judge

  datatype MonitorStep = Tick | Tree(pids: set<string>, rss: nat) | SeeStop

  datatype Action = Launcher(l: LauncherStep) | Parent(p: ParentStep) | Finish(f: FinishStep) | Monitor(m: MonitorStep)

  const START := State(
    Begun, false, false, false, Handle(true, PipeState("", true, true)), 0, AwaitReady, false, false, Off, false,
    Record(false, None, 0), [])

  predicate Alive(s: State) {
    !s.process.Exited?
  }

  /** What `/proc/<pid>/exe` reads as; nothing once the process has exited. */
  function Exe(s: State, c: Config): Option<string> {
    match s.process
    case Exited(_) => None
    case Exec => Some(c.target)
    case _ => Some(c.python)
  }

  /** The launcher's write end of the ready pipe is closed. */
  predicate ReadyClosed(s: State) {
    s.process.Waiting? || s.process.Cleared? || s.process.Exec? || s.process.Exited?
  }

  predicate LauncherEnabled(s: State, a: LauncherStep) {
    match a
    case Attach => s.process.Begun?
    case Signal => s.process.Attached?
    case CloseReady => s.process.Signalled?
    case ReadGo => s.process.Waiting? && (s.handle.pipe.bytes != "" || !s.handle.pipe.writeOpen)
    case ExecTarget => s.process.Cleared?
    case TargetExits => s.process.Exec?
    case LauncherFails => s.process.Begun? || s.process.Attached? || s.process.Cleared?
  }

  predicate ParentEnabled(s: State, a: ParentStep) {
    match a
    case ReadReady => s.parent.AwaitReady? && s.readyByte
    case ReadyEof => s.parent.AwaitReady? && !s.readyByte && ReadyClosed(s)
    case ReadyTimeout => s.parent.AwaitReady?
    case CloseStart => s.parent.StartFailed?
    case KillStart => s.parent.StartClosed?
    case Abandon => s.parent.Ready?
    case MonitorFails => s.parent.Ready?
    case StartMonitor => s.parent.Ready?
    case StartTimer => s.parent.Monitoring?
    case ReleaseLauncher => s.parent.Timing?
    case Reap => s.parent.Communicating? && !Alive(s)
  }

  predicate FinishEnabled(s: State, a: FinishStep) {
    match a
    case Interrupt => s.parent.Monitoring? || s.parent.Timing? || s.parent.Communicating?
    case CloseGo => s.parent.Aborting?
    case KillLauncher => s.parent.Closed?
    case ReapKilled => s.parent.Killing? && !Alive(s)
    case SetStop => s.parent.Stopping?
    case Join => s.parent.Joining? && (s.monitor.Done? || s.monitor.Off?)
    case FinalObserve => s.parent.FinalCheck?
    case FinalTree(_, _) => s.parent.FinalSample?
    case Judge => s.parent.Verdict?
  }

  predicate MonitorEnabled(s: State, a: MonitorStep) {
    match a
    case Tick => s.monitor.Idle? && !s.stop
    case Tree(_, _) => s.monitor.Observing?
    case SeeStop => s.monitor.Idle? && s.stop
  }

  predicate Enabled(s: State, a: Action) {
    match a
    case Launcher(l) => LauncherEnabled(s, l)
    case Parent(p) => ParentEnabled(s, p)
    case Finish(f) => FinishEnabled(s, f)
    case Monitor(m) => MonitorEnabled(s, m)
  }

  function LauncherApply(s: State, a: LauncherStep): State
    requires LauncherEnabled(s, a)
  {
    match a
    case Attach => s.(process := Attached, inCgroup := true)
    case Signal => s.(process := Signalled, readyByte := true)
    case CloseReady => s.(process := Waiting)
    case ReadGo => AfterRead(s)
    case ExecTarget => s.(process := Exec, execed := true)
    case TargetExits => s.(process := Exited(OfTarget), handle := ReaderGone(s.handle))
    case LauncherFails => s.(process := Exited(Failed), handle := ReaderGone(s.handle))
  }

  function ParentApply(s: State, a: ParentStep, c: Config): State
    requires ParentEnabled(s, a)
  {
    match a
    case ReadReady => s.(parent := Ready, readyByte := false)
    case ReadyEof => s.(parent := StartFailed)
    case ReadyTimeout => s.(parent := StartFailed)
    case CloseStart => s.(handle := Terminated(s.handle), parent := StartClosed)
    case KillStart => Kill(s.(parent := Raised))
    case Abandon => s.(parent := Abandoned)
    case MonitorFails => s.(parent := Aborting)
    case StartMonitor => s.(parent := Monitoring, monitor := Idle)
    case StartTimer => s.(parent := Timing, timer := true)
    case ReleaseLauncher =>
      var r := ReleaseOutcome(s.handle);
      s.(handle := Released(s.handle),
         goWritten := s.goWritten + (if r.Ok? then 1 else 0),
         parent := if r.Ok? then Communicating else Aborting)
    case Reap => s.(parent := Stopping)
  }

  function FinishApply(s: State, a: FinishStep, c: Config): State
    requires FinishEnabled(s, a)
  {
    match a
    case Interrupt => s.(parent := Aborting)
    case CloseGo => s.(handle := Terminated(s.handle), parent := Closed)
    case KillLauncher => Kill(s.(parent := Killing))
    case ReapKilled => s.(parent := Stopping, failing := true)
    case SetStop => s.(parent := Joining, stop := true)
    case Join => s.(parent := if s.failing then Raised else FinalCheck)
    case FinalObserve =>
      var r := Checked(s.record, Exe(s, c), c.python);
      s.(record := r, parent := if r.execObserved then FinalSample else Verdict)
    case FinalTree(pids, rss) =>
      s.(record := Sampled(s.record, pids, rss), samples := s.samples + [rss], parent := Verdict)
    case Judge => s.(parent := if Complete(s.record) then Succeeded else Raised)
  }

  function MonitorApply(s: State, a: MonitorStep, c: Config): State
    requires MonitorEnabled(s, a)
  {
    match a
    case Tick =>
      var r := Checked(s.record, Exe(s, c), c.python);
      s.(record := r, monitor := if r.execObserved then Observing else Idle)
    case Tree(pids, rss) =>
      s.(record := Sampled(s.record, pids, rss), samples := s.samples + [rss], monitor := Idle)
    case SeeStop => s.(monitor := Done)
  }

  function Apply(s: State, a: Action, c: Config): State
    requires Enabled(s, a)
  {
    match a
    case Launcher(l) => LauncherApply(s, l)
    case Parent(p) => ParentApply(s, p, c)
    case Finish(f) => FinishApply(s, f, c)
    case Monitor(m) => MonitorApply(s, m, c)
  }

  /** The checks that end `run`. */
  predicate Complete(r: Record) {
    r.execObserved && r.pids.Some? && r.pids.value != {} && r.peak > 0
  }

  function ReaderGone(h: Handle): Handle {
    h.(pipe := h.pipe.(readOpen := false))
  }

  /** The launcher's blocking read of one byte. */
  function AfterRead(s: State): State
    requires LauncherEnabled(s, ReadGo)
  {
    var pipe := s.handle.pipe;
    if pipe.bytes == "" then s.(process := Exited(NoGo), handle := ReaderGone(s.handle))
    else
      var left := s.(handle := s.handle.(pipe := pipe.(bytes := pipe.bytes[1..])));
      if pipe.bytes[0] == 'G' then left.(process := Cleared)
      else left.(process := Exited(NoGo), handle := ReaderGone(left.handle))
  }

  /** `process.terminate()` on a process that has not exited. */
  function Kill(s: State): State {
    if Alive(s) then s.(process := Exited(Killed), handle := ReaderGone(s.handle)) else s
  }

  /******* Runs *******/

  /** Steps that can be taken one after the other. */
  ghost predicate IsRun(s: State, run: seq<Action>, c: Config)
    decreases |run|
  {
    run != [] ==> Enabled(s, run[0]) && IsRun(Apply(s, run[0], c), run[1..], c)
  }

  ghost function After(s: State, run: seq<Action>, c: Config): State
    requires IsRun(s, run, c)
    decreases |run|
  {
    if run == [] then s else After(Apply(s, run[0], c), run[1..], c)
  }

  /******* What every step keeps *******/

  /** The parent has not yet tried to write or close the go pipe. */
  predicate BeforeGo(p: Parent) {
    p.AwaitReady? || p.StartFailed? || p.Ready? || p.Abandoned? || p.Monitoring? || p.Timing?
  }

  predicate InStart(p: Parent) {
    p.AwaitReady? || p.StartFailed? || p.StartClosed?
  }

  ghost predicate PipeInv(s: State) {
    && s.goWritten <= 1
    && (BeforeGo(s.parent) ==> s.handle.held)
    && (s.handle.held ==> s.handle.pipe.writeOpen && s.goWritten == 0)
    && (!s.handle.held ==> !s.handle.pipe.writeOpen)
    && (s.handle.pipe.readOpen <==> Alive(s))
    && (s.goWritten == 0 ==> s.handle.pipe.bytes == "")
    && (s.goWritten == 1 && !s.process.Exited? ==>
          s.handle.pipe.bytes == if s.process.Cleared? || s.process.Exec? then "" else "G")
    && (s.goWritten == 1 ==> s.timer && s.process != Exited(NoGo))
  }

  ghost predicate LauncherInv(s: State) {
    && (s.process.Cleared? || s.process.Exec? || s.execed ==> s.goWritten == 1)
    && (s.process.Exec? || s.process == Exited(OfTarget) ==> s.execed)
    && (s.process.Begun? ==> !s.inCgroup)
    && (s.process.Begun? || s.process.Attached? ==> !s.readyByte && (InStart(s.parent) || s.parent.Raised?))
    && (s.process.Attached? || s.process.Signalled? || s.process.Waiting? || s.readyByte ==> s.inCgroup)
    && ((s.process.Signalled? || s.process.Waiting?) && s.parent.AwaitReady? ==> s.readyByte)
    && (!InStart(s.parent) && !s.parent.Raised? ==> s.inCgroup)
    && (s.goWritten == 1 ==> s.inCgroup)
    && (s.execed ==> s.process.Exec? || s.process.Exited?)
  }

  ghost predicate ParentInv(s: State) {
    && (s.parent.Communicating? ==> s.goWritten == 1)
    && (s.parent.Timing? ==> s.timer)
    && (s.parent.Closed? || s.parent.StartClosed? || s.parent.Killing? ==> !s.handle.held)
    && (s.parent.Killing? || s.parent.Stopping? || s.parent.Joining? || Ending(s.parent) ==> !Alive(s))
    && (Ending(s.parent) ==> s.goWritten == 1)
    && ((s.parent.Stopping? || s.parent.Joining?) && !s.failing ==> s.goWritten == 1)
    && (s.parent.Raised? ==> !Alive(s))
  }

  ghost predicate MonitorInv(s: State) {
    && (InStart(s.parent) || s.parent.Ready? ==> s.monitor.Off?)
    && (s.parent.Abandoned? ==> s.monitor.Off?)
    && (s.parent.Monitoring? || s.parent.Timing? || s.parent.Communicating? || Ending(s.parent) ==> !s.monitor.Off?)
    && ((s.parent.Stopping? || s.parent.Joining?) && s.monitor.Off? ==> s.failing)
    && (Ending(s.parent) ==> s.monitor.Done?)
    && (s.monitor.Done? ==> s.stop)
    && (s.parent.Joining? || Ending(s.parent) ==> s.stop)
    && (s.parent.Raised? ==> s.monitor.Off? || s.monitor.Done?)
  }

  /** The last observation and what follows it. */
  predicate Ending(p: Parent) {
    p.FinalCheck? || p.FinalSample? || p.Verdict? || p.Succeeded?
  }

  ghost predicate RecordInv(s: State) {
    && s.record.peak == MaxOf(s.samples)
    && (s.record.pids.Some? <==> s.samples != [])
    && (s.samples != [] ==> s.record.execObserved)
    && (s.record.execObserved ==> s.execed)
    && (s.monitor.Observing? || s.parent.FinalSample? ==> s.record.execObserved)
    && (s.parent.Succeeded? ==> Complete(s.record))
  }

  ghost predicate Inv(s: State) {
    PipeInv(s) && LauncherInv(s) && ParentInv(s) && MonitorInv(s) && RecordInv(s)
  }

  lemma {:induction false} StartInv()
    ensures Inv(START)
  {
  }

  lemma {:induction false} LauncherKeepsInv(s: State, a: LauncherStep)
    requires Inv(s) && LauncherEnabled(s, a)
    ensures Inv(LauncherApply(s, a))
  {
    match a
    case Attach =>
    case Signal =>
    case CloseReady =>
    case ReadGo =>
    case ExecTarget =>
    case TargetExits =>
    case LauncherFails =>
  }

  lemma {:induction false} ParentKeepsPipe(s: State, a: ParentStep, c: Config)
    requires Inv(s) && ParentEnabled(s, a)
    ensures PipeInv(ParentApply(s, a, c))
  {
    hide Checked, Sampled, Exe, Complete;
    match a
    case ReadReady =>
    case ReadyEof =>
    case ReadyTimeout =>
    case CloseStart =>
    case KillStart =>
    case Abandon =>
    case MonitorFails =>
    case StartMonitor =>
    case StartTimer =>
    case ReleaseLauncher =>
    case Reap =>
  }

  lemma {:induction false} FinishKeepsPipe(s: State, a: FinishStep, c: Config)
    requires Inv(s) && FinishEnabled(s, a)
    ensures PipeInv(FinishApply(s, a, c))
  {
    hide Checked, Sampled, Exe, Complete;
    match a
    case Interrupt =>
    case CloseGo =>
    case KillLauncher =>
    case ReapKilled =>
    case SetStop =>
    case Join =>
    case FinalObserve =>
    case FinalTree(_, _) =>
    case Judge =>
  }

  lemma {:induction false} ParentKeepsLauncher(s: State, a: ParentStep, c: Config)
    requires Inv(s) && ParentEnabled(s, a)
    ensures LauncherInv(ParentApply(s, a, c))
  {
    hide Checked, Sampled, Exe, Complete, RecordInv;
    match a
    case ReadReady =>
    case ReadyEof =>
    case ReadyTimeout =>
    case CloseStart =>
    case KillStart =>
    case Abandon =>
    case MonitorFails =>
    case StartMonitor =>
    case StartTimer =>
    case ReleaseLauncher =>
    case Reap =>
  }

  lemma {:induction false} FinishKeepsLauncher(s: State, a: FinishStep, c: Config)
    requires Inv(s) && FinishEnabled(s, a)
    ensures LauncherInv(FinishApply(s, a, c))
  {
    hide Checked, Sampled, Exe, Complete, RecordInv;
    match a
    case Interrupt =>
    case CloseGo =>
    case KillLauncher =>
    case ReapKilled =>
    case SetStop =>
    case Join =>
    case FinalObserve =>
    case FinalTree(_, _) =>
    case Judge =>
  }

  lemma {:induction false} ParentKeepsParent(s: State, a: ParentStep, c: Config)
    requires Inv(s) && ParentEnabled(s, a)
    ensures ParentInv(ParentApply(s, a, c))
  {
    hide Checked, Sampled, Exe, Complete, RecordInv;
    match a
    case ReadReady =>
    case ReadyEof =>
    case ReadyTimeout =>
    case CloseStart =>
    case KillStart =>
    case Abandon =>
    case MonitorFails =>
    case StartMonitor =>
    case StartTimer =>
    case ReleaseLauncher =>
    case Reap =>
  }

  lemma {:induction false} FinishKeepsParent(s: State, a: FinishStep, c: Config)
    requires Inv(s) && FinishEnabled(s, a)
    ensures ParentInv(FinishApply(s, a, c))
  {
    hide Checked, Sampled, Exe, Complete, RecordInv;
    match a
    case Interrupt =>
    case CloseGo =>
    case KillLauncher =>
    case ReapKilled =>
    case SetStop =>
    case Join =>
    case FinalObserve =>
    case FinalTree(_, _) =>
    case Judge =>
  }

  lemma {:induction false} ParentKeepsMonitor(s: State, a: ParentStep, c: Config)
    requires MonitorInv(s) && ParentEnabled(s, a)
    ensures MonitorInv(ParentApply(s, a, c))
  {
    hide Released, Terminated, Checked, Sampled, Exe, Complete;
    match a
    case ReadReady =>
    case ReadyEof =>
    case ReadyTimeout =>
    case CloseStart =>
    case KillStart =>
    case Abandon =>
    case MonitorFails =>
    case StartMonitor =>
    case StartTimer =>
    case ReleaseLauncher =>
    case Reap =>
  }

  lemma {:induction false} FinishKeepsMonitor(s: State, a: FinishStep, c: Config)
    requires MonitorInv(s) && FinishEnabled(s, a)
    ensures MonitorInv(FinishApply(s, a, c))
  {
    hide Released, Terminated, Checked, Sampled, Exe, Complete;
    match a
    case Interrupt =>
    case CloseGo =>
    case KillLauncher =>
    case ReapKilled =>
    case SetStop =>
    case Join =>
    case FinalObserve =>
    case FinalTree(_, _) =>
    case Judge =>
  }

  lemma {:induction false} ParentKeepsRecord(s: State, a: ParentStep, c: Config)
    requires Inv(s) && ParentEnabled(s, a)
    ensures RecordInv(ParentApply(s, a, c))
  {
    match a
    case ReadReady =>
    case ReadyEof =>
    case ReadyTimeout =>
    case CloseStart =>
    case KillStart =>
    case Abandon =>
    case MonitorFails =>
    case StartMonitor =>
    case StartTimer =>
    case ReleaseLauncher =>
    case Reap =>
  }

  lemma {:induction false} FinishKeepsRecord(s: State, a: FinishStep, c: Config)
    requires Inv(s) && FinishEnabled(s, a)
    ensures RecordInv(FinishApply(s, a, c))
  {
    match a
    case Interrupt =>
    case CloseGo =>
    case KillLauncher =>
    case ReapKilled =>
    case SetStop =>
    case Join =>
    case FinalObserve =>
    case FinalTree(_, rss) => assert (s.samples + [rss])[..|s.samples|] == s.samples;
    case Judge =>
  }

  lemma {:induction false} MonitorKeepsInv(s: State, a: MonitorStep, c: Config)
    requires Inv(s) && MonitorEnabled(s, a)
    ensures Inv(MonitorApply(s, a, c))
  {
    match a
    case Tick =>
    case Tree(_, rss) => assert (s.samples + [rss])[..|s.samples|] == s.samples;
    case SeeStop =>
  }

  lemma {:induction false} StepKeepsInv(s: State, a: Action, c: Config)
    requires Inv(s) && Enabled(s, a)
    ensures Inv(Apply(s, a, c))
  {
    hide LauncherEnabled, ParentEnabled, FinishEnabled, MonitorEnabled, LauncherApply, ParentApply, FinishApply,
      MonitorApply;
    match a {
      case Launcher(l) =>
        LauncherKeepsInv(s, l);
      case Parent(p) =>
        ParentKeepsPipe(s, p, c);
        ParentKeepsLauncher(s, p, c);
        ParentKeepsParent(s, p, c);
        ParentKeepsMonitor(s, p, c);
        ParentKeepsRecord(s, p, c);
      case Finish(f) =>
        FinishKeepsPipe(s, f, c);
        FinishKeepsLauncher(s, f, c);
        FinishKeepsParent(s, f, c);
        FinishKeepsMonitor(s, f, c);
        FinishKeepsRecord(s, f, c);
      case Monitor(m) =>
        MonitorKeepsInv(s, m, c);
    }
  }

  lemma {:induction false} RunKeepsInv(s: State, run: seq<Action>, c: Config)
    requires Inv(s) && IsRun(s, run, c)
    ensures Inv(After(s, run, c))
    decreases |run|
  {
    if run != [] {
      hide Inv, Enabled, Apply;
      StepKeepsInv(s, run[0], c);
      RunKeepsInv(Apply(s, run[0], c), run[1..], c);
    }
  }

  /** In every interleaving: the target runs only after the launcher joined the cgroup, the timer
      started and `G` was written; and `G` is written at most once. */
  lemma {:induction false} ExecOnlyWhenReleased(run: seq<Action>, c: Config)
    requires IsRun(START, run, c)
    ensures var s := After(START, run, c);
            && (s.execed ==> s.inCgroup && s.timer && s.goWritten == 1)
            && s.goWritten <= 1
  {
    StartInv();
    RunKeepsInv(START, run, c);
  }

  /** Once the go pipe is closed without `G`, no continuation runs the target; a launcher that waits
      for `G` reads the end of the pipe and exits with its own code. */
  lemma {:induction false} ClosedFirstNeverExecs(run: seq<Action>, more: seq<Action>, c: Config)
    requires IsRun(START, run, c)
    requires !After(START, run, c).handle.pipe.writeOpen && After(START, run, c).goWritten == 0
    requires IsRun(After(START, run, c), more, c)
    ensures var s := After(After(START, run, c), more, c);
            && !s.execed && s.goWritten == 0 && s.process != Exited(OfTarget)
            && (s.process.Waiting? ==>
                  LauncherEnabled(s, ReadGo) && LauncherApply(s, ReadGo).process == Exited(NoGo))
  {
    StartInv();
    RunKeepsInv(START, run, c);
    StaysClosed(After(START, run, c), more, c);
  }

  lemma {:induction false} StaysClosed(s: State, more: seq<Action>, c: Config)
    requires Inv(s) && !s.handle.held && s.goWritten == 0 && IsRun(s, more, c)
    ensures var t := After(s, more, c); Inv(t) && t.goWritten == 0 && !t.handle.held
    decreases |more|
  {
    if more != [] {
      hide Inv, Enabled, Apply;
      StepKeepsInv(s, more[0], c);
      StillClosed(s, more[0], c);
      StaysClosed(Apply(s, more[0], c), more[1..], c);
    }
  }

  lemma {:induction false} StillClosedLauncher(s: State, a: LauncherStep)
    requires Inv(s) && !s.handle.held && s.goWritten == 0 && LauncherEnabled(s, a)
    ensures var t := LauncherApply(s, a); t.goWritten == 0 && !t.handle.held
  {
    match a
    case Attach =>
    case Signal =>
    case CloseReady =>
    case ReadGo =>
    case ExecTarget =>
    case TargetExits =>
    case LauncherFails =>
  }

  lemma {:induction false} StillClosedParent(s: State, a: ParentStep, c: Config)
    requires Inv(s) && !s.handle.held && s.goWritten == 0 && ParentEnabled(s, a)
    ensures var t := ParentApply(s, a, c); t.goWritten == 0 && !t.handle.held
  {
    hide Checked, Sampled, Exe, Complete;
    match a
    case ReadReady =>
    case ReadyEof =>
    case ReadyTimeout =>
    case CloseStart =>
    case KillStart =>
    case Abandon =>
    case MonitorFails =>
    case StartMonitor =>
    case StartTimer =>
    case ReleaseLauncher =>
    case Reap =>
  }

  lemma {:induction false} StillClosedFinish(s: State, a: FinishStep, c: Config)
    requires Inv(s) && !s.handle.held && s.goWritten == 0 && FinishEnabled(s, a)
    ensures var t := FinishApply(s, a, c); t.goWritten == 0 && !t.handle.held
  {
    hide Checked, Sampled, Exe, Complete;
    match a
    case Interrupt =>
    case CloseGo =>
    case KillLauncher =>
    case ReapKilled =>
    case SetStop =>
    case Join =>
    case FinalObserve =>
    case FinalTree(_, _) =>
    case Judge =>
  }

  lemma {:induction false} StillClosedMonitor(s: State, a: MonitorStep, c: Config)
    requires Inv(s) && !s.handle.held && s.goWritten == 0 && MonitorEnabled(s, a)
    ensures var t := MonitorApply(s, a, c); t.goWritten == 0 && !t.handle.held
  {
    match a
    case Tick =>
    case Tree(_, _) =>
    case SeeStop =>
  }

  lemma {:induction false} StillClosed(s: State, a: Action, c: Config)
    requires Inv(s) && !s.handle.held && s.goWritten == 0 && Enabled(s, a)
    ensures var t := Apply(s, a, c); t.goWritten == 0 && !t.handle.held
  {
    hide LauncherEnabled, ParentEnabled, FinishEnabled, MonitorEnabled, LauncherApply, ParentApply, FinishApply,
      MonitorApply, Inv;
    match a
    case Launcher(l) => StillClosedLauncher(s, l);
    case Parent(p) => StillClosedParent(s, p, c);
    case Finish(f) => StillClosedFinish(s, f, c);
    case Monitor(m) => StillClosedMonitor(s, m, c);
  }

  /** The samples a run took of the process tree, in order. */
  function TreeSamples(run: seq<Action>): seq<nat> {
    if run == [] then [] else SampleOf(run[0]) + TreeSamples(run[1..])
  }

  function SampleOf(a: Action): seq<nat> {
    match a
    case Monitor(Tree(_, rss)) => [rss]
    case Finish(FinalTree(_, rss)) => [rss]
    case _ => []
  }

  lemma {:induction false} LauncherSamplesNothing(s: State, a: LauncherStep)
    requires LauncherEnabled(s, a)
    ensures LauncherApply(s, a).samples == s.samples
  {
    hide ReaderGone;
    match a
    case Attach =>
    case Signal =>
    case CloseReady =>
    case ReadGo =>
    case ExecTarget =>
    case TargetExits =>
    case LauncherFails =>
  }

  lemma {:induction false} ParentSamples(s: State, a: ParentStep, c: Config)
    requires ParentEnabled(s, a)
    ensures ParentApply(s, a, c).samples == s.samples
  {
    hide Released, Terminated, ReleaseOutcome, Checked, Sampled, Exe, Complete;
    match a
    case ReadReady =>
    case ReadyEof =>
    case ReadyTimeout =>
    case CloseStart =>
    case KillStart =>
    case Abandon =>
    case MonitorFails =>
    case StartMonitor =>
    case StartTimer =>
    case ReleaseLauncher =>
    case Reap =>
  }

  lemma {:induction false} FinishSamples(s: State, a: FinishStep, c: Config)
    requires FinishEnabled(s, a)
    ensures FinishApply(s, a, c).samples == if a.FinalTree? then s.samples + [a.rss] else s.samples
  {
    hide Released, Terminated, ReleaseOutcome, Checked, Sampled, Exe, Complete;
    match a
    case Interrupt =>
    case CloseGo =>
    case KillLauncher =>
    case ReapKilled =>
    case SetStop =>
    case Join =>
    case FinalObserve =>
    case FinalTree(_, _) =>
    case Judge =>
  }

  lemma {:induction false} MonitorSamples(s: State, a: MonitorStep, c: Config)
    requires MonitorEnabled(s, a)
    ensures MonitorApply(s, a, c).samples == if a.Tree? then s.samples + [a.rss] else s.samples
  {
    hide Checked, Sampled, Exe;
    match a
    case Tick =>
    case Tree(_, _) =>
    case SeeStop =>
  }

  lemma {:induction false} SampleOfStep(s: State, a: Action, c: Config)
    requires Enabled(s, a)
    ensures Apply(s, a, c).samples == s.samples + SampleOf(a)
  {
    hide LauncherEnabled, ParentEnabled, FinishEnabled, MonitorEnabled, LauncherApply, ParentApply, FinishApply,
      MonitorApply;
    assert s.samples + [] == s.samples;
    match a
    case Launcher(l) => LauncherSamplesNothing(s, l);
    case Parent(p) => ParentSamples(s, p, c);
    case Finish(f) => FinishSamples(s, f, c);
    case Monitor(m) => MonitorSamples(s, m, c);
  }

  lemma {:induction false} SamplesOfRun(s: State, run: seq<Action>, c: Config)
    requires IsRun(s, run, c)
    ensures After(s, run, c).samples == s.samples + TreeSamples(run)
    decreases |run|
  {
    if run != [] {
      hide Enabled, Apply, SampleOf;
      SampleOfStep(s, run[0], c);
      SamplesOfRun(Apply(s, run[0], c), run[1..], c);
      Regroup(s.samples, SampleOf(run[0]), TreeSamples(run[1..]));
    }
  }

  lemma {:induction false} SampleNeedsExec(s: State, a: Action)
    requires RecordInv(s) && Enabled(s, a) && SampleOf(a) != []
    ensures s.record.execObserved
  {
  }

  lemma {:induction false} RunSplits(s: State, run: seq<Action>, i: nat, c: Config)
    requires IsRun(s, run, c) && i < |run|
    ensures IsRun(s, run[..i], c) && Enabled(After(s, run[..i], c), run[i])
    decreases |run|
  {
    hide Enabled, Apply;
    if i > 0 {
      RunSplits(Apply(s, run[0], c), run[1..], i - 1, c);
      assert run[..i][1..] == run[1..][..i - 1];
    }
  }

  /** The recorded peak is the maximum of exactly the tree samples taken, and each of them was taken
      after the target had been seen to run. */
  lemma {:induction false} PeakIsMaximumOfSamples(run: seq<Action>, c: Config)
    requires IsRun(START, run, c)
    ensures After(START, run, c).record.peak == MaxOf(TreeSamples(run))
    ensures forall i :: 0 <= i < |run| && SampleOf(run[i]) != [] ==>
              IsRun(START, run[..i], c)
              && After(START, run[..i], c).record.execObserved && After(START, run[..i], c).execed
  {
    StartInv();
    RunKeepsInv(START, run, c);
    SamplesOfRun(START, run, c);
    assert [] + TreeSamples(run) == TreeSamples(run);
    hide IsRun, After, Enabled, SampleOf;
    forall i | 0 <= i < |run| && SampleOf(run[i]) != []
      ensures IsRun(START, run[..i], c)
              && After(START, run[..i], c).record.execObserved && After(START, run[..i], c).execed
    {
      RunSplits(START, run, i, c);
      RunKeepsInv(START, run[..i], c);
      SampleNeedsExec(After(START, run[..i], c), run[i]);
    }
  }

  /** The monitor and the parent never observe at the same time. */
  lemma {:induction false} OneObserver(run: seq<Action>, c: Config)
    requires IsRun(START, run, c)
    ensures var s := After(START, run, c);
            s.parent.FinalCheck? || s.parent.FinalSample? ==> s.monitor.Done?
  {
    StartInv();
    RunKeepsInv(START, run, c);
  }

  /** Some look of the monitor found the target running. */
  ghost predicate Seen(s: State, run: seq<Action>, c: Config)
    requires IsRun(s, run, c)
    decreases |run|
  {
    run != [] && (SeesTarget(s, run[0], c) || Seen(Apply(s, run[0], c), run[1..], c))
  }

  ghost predicate SeesTarget(s: State, a: Action, c: Config) {
    a == Monitor(Tick) && s.process.Exec? && c.target != c.python
  }

  /** A process that can be seen to run another program than the interpreter runs the target. */
  lemma {:induction false} SeenIsExec(s: State, c: Config)
    ensures HasExeced(Exe(s, c), c.python) <==> s.process.Exec? && c.target != c.python
  {
  }

  lemma {:induction false} LauncherObserves(s: State, a: LauncherStep)
    requires LauncherEnabled(s, a)
    ensures LauncherApply(s, a).record == s.record
  {
    hide ReaderGone;
    match a
    case Attach =>
    case Signal =>
    case CloseReady =>
    case ReadGo =>
    case ExecTarget =>
    case TargetExits =>
    case LauncherFails =>
  }

  /** Once the process is reaped nothing can be seen. */
  lemma {:induction false} LastLook(s: State, c: Config)
    requires !Alive(s)
    ensures Checked(s.record, Exe(s, c), c.python) == s.record
  {
  }

  lemma {:induction false} ParentObserves(s: State, a: ParentStep, c: Config)
    requires ParentEnabled(s, a)
    ensures ParentApply(s, a, c).record == s.record
  {
    match a
    case ReadReady =>
    case ReadyEof =>
    case ReadyTimeout =>
    case CloseStart =>
    case KillStart =>
    case Abandon =>
    case MonitorFails =>
    case StartMonitor =>
    case StartTimer =>
    case ReleaseLauncher =>
    case Reap =>
  }

  lemma {:induction false} OtherFinishObserves(s: State, a: FinishStep, c: Config)
    requires FinishEnabled(s, a) && !a.FinalObserve? && !a.FinalTree?
    ensures FinishApply(s, a, c).record == s.record
  {
    match a
    case Interrupt =>
    case CloseGo =>
    case KillLauncher =>
    case ReapKilled =>
    case SetStop =>
    case Join =>
    case Judge =>
  }

  lemma {:induction false} FinishObserves(s: State, a: FinishStep, c: Config)
    requires ParentInv(s) && FinishEnabled(s, a)
    ensures FinishApply(s, a, c).record.execObserved == s.record.execObserved
  {
    if a.FinalObserve? {
      SeenIsExec(s, c);
      LastLook(s, c);
    } else if !a.FinalTree? {
      OtherFinishObserves(s, a, c);
    }
  }

  lemma {:induction false} MonitorObserves(s: State, a: MonitorStep, c: Config)
    requires MonitorEnabled(s, a)
    ensures MonitorApply(s, a, c).record.execObserved == (s.record.execObserved || SeesTarget(s, Monitor(a), c))
  {
    hide HasExeced, Exe;
    SeenIsExec(s, c);
    match a
    case Tick =>
    case Tree(_, _) =>
    case SeeStop =>
  }

  lemma {:induction false} StepObserves(s: State, a: Action, c: Config)
    requires ParentInv(s) && Enabled(s, a)
    ensures Apply(s, a, c).record.execObserved == (s.record.execObserved || SeesTarget(s, a, c))
  {
    hide LauncherEnabled, ParentEnabled, FinishEnabled, MonitorEnabled, LauncherApply, ParentApply, FinishApply,
      MonitorApply, ParentInv;
    match a
    case Launcher(l) => LauncherObserves(s, l);
    case Parent(p) => ParentObserves(s, p, c);
    case Finish(f) => FinishObserves(s, f, c);
    case Monitor(m) => MonitorObserves(s, m, c);
  }

  lemma {:induction false} RunObserves(s: State, run: seq<Action>, c: Config)
    requires Inv(s) && IsRun(s, run, c)
    ensures After(s, run, c).record.execObserved == (s.record.execObserved || Seen(s, run, c))
    decreases |run|
  {
    if run != [] {
      hide ParentInv, Enabled, Apply, SeesTarget;
      StepObserves(s, run[0], c);
      StepKeepsInv(s, run[0], c);
      RunObserves(Apply(s, run[0], c), run[1..], c);
    }
  }

  /** The target counts as observed exactly when a tick of the monitor met it alive: the last sample,
      taken when the process has been reaped, never makes up for that. A trial that succeeds was seen
      by the monitor. */
  lemma {:induction false} OnlyTheMonitorObservesExec(run: seq<Action>, c: Config)
    requires IsRun(START, run, c)
    ensures After(START, run, c).record.execObserved <==> Seen(START, run, c)
    ensures After(START, run, c).parent.Succeeded? ==>
              Seen(START, run, c) && MaxOf(TreeSamples(run)) > 0 && After(START, run, c).goWritten == 1
  {
    StartInv();
    RunObserves(START, run, c);
    RunKeepsInv(START, run, c);
    SamplesOfRun(START, run, c);
    assert [] + TreeSamples(run) == TreeSamples(run);
  }

  const UP_TO_TIMING := START.(process := Waiting, inCgroup := true, parent := Timing, timer := true, monitor := Idle)

  const UP_TO_EXIT :=
    UP_TO_TIMING.(process := Exited(OfTarget), execed := true, handle := Handle(false, PipeState("", false, false)),
                  goWritten := 1, parent := Communicating)

  const UP_TO_JOIN := UP_TO_EXIT.(parent := Joining, stop := true, monitor := Done)

  lemma {:induction false} ReachTiming(c: Config) returns (run: seq<Action>)
    ensures IsRun(START, run, c) && After(START, run, c) == UP_TO_TIMING
  {
    hide IsRun, After;
    EmptyRun(c);
    var s;
    run, s := Extend([], START, Launcher(Attach), c);
    run, s := Extend(run, s, Launcher(Signal), c);
    run, s := Extend(run, s, Launcher(CloseReady), c);
    run, s := Extend(run, s, Parent(ReadReady), c);
    run, s := Extend(run, s, Parent(StartMonitor), c);
    run, s := Extend(run, s, Parent(StartTimer), c);
  }

  lemma {:induction false} ReachExit(c: Config) returns (run: seq<Action>)
    ensures IsRun(START, run, c) && After(START, run, c) == UP_TO_EXIT
  {
    hide IsRun, After;
    var s := UP_TO_TIMING;
    run := ReachTiming(c);
    run, s := Extend(run, s, Parent(ReleaseLauncher), c);
    run, s := Extend(run, s, Launcher(ReadGo), c);
    run, s := Extend(run, s, Launcher(ExecTarget), c);
    run, s := Extend(run, s, Launcher(TargetExits), c);
  }

  lemma {:induction false} ReachJoin(c: Config) returns (run: seq<Action>)
    ensures IsRun(START, run, c) && After(START, run, c) == UP_TO_JOIN
  {
    hide IsRun, After;
    var s := UP_TO_EXIT;
    run := ReachExit(c);
    run, s := Extend(run, s, Parent(Reap), c);
    run, s := Extend(run, s, Finish(SetStop), c);
    run, s := Extend(run, s, Monitor(SeeStop), c);
  }

  /** A target that runs to its end between two ticks: the trial is refused although it was measured. */
  lemma {:induction false} ShortTargetIsMissed(c: Config) returns (run: seq<Action>)
    ensures IsRun(START, run, c)
    ensures After(START, run, c).parent.Raised? && After(START, run, c).process == Exited(OfTarget)
  {
    hide IsRun, After;
    var s := UP_TO_JOIN;
    run := ReachJoin(c);
    run, s := Extend(run, s, Finish(Join), c);
    run, s := Extend(run, s, Finish(FinalObserve), c);
    run, s := Extend(run, s, Finish(Judge), c);
  }

  lemma {:induction false} EmptyRun(c: Config)
    ensures IsRun(START, [], c) && After(START, [], c) == START
  {
  }

  lemma {:induction false} Extend(run: seq<Action>, s: State, a: Action, c: Config) returns (more: seq<Action>,
    t: State)
    requires IsRun(START, run, c) && s == After(START, run, c) && Enabled(s, a)
    ensures IsRun(START, more, c) && t == After(START, more, c) == Apply(s, a, c)
  {
    more := run + [a];
    t := Apply(s, a, c);
    RunThenStep(START, run, a, c);
  }

  lemma {:induction false} RunThenStep(s: State, run: seq<Action>, a: Action, c: Config)
    requires IsRun(s, run, c) && Enabled(After(s, run, c), a)
    ensures IsRun(s, run + [a], c) && After(s, run + [a], c) == Apply(After(s, run, c), a, c)
    decreases |run|
  {
    hide Enabled, Apply;
    if run == [] {
      assert run + [a] == [a] && [a][1..] == [];
    } else {
      assert (run + [a])[1..] == run[1..] + [a];
      RunThenStep(Apply(s, run[0], c), run[1..], a, c);
    }
  }

  /** A trial that has raised or succeeded has reaped its launcher. The exception is an interrupt between
      the start of the launcher and the `try`: the launcher then never runs the target, but if it is
      waiting for `G` it cannot move either. */
  lemma {:induction false} LauncherIsReaped(run: seq<Action>, c: Config)
    requires IsRun(START, run, c)
    ensures var s := After(START, run, c);
            && (s.parent.Raised? || s.parent.Succeeded? ==> !Alive(s))
            && (s.parent.Abandoned? ==> !s.execed && s.goWritten == 0)
            && (s.parent.Abandoned? && s.process.Waiting? ==> forall a :: !LauncherEnabled(s, a))
  {
    StartInv();
    RunKeepsInv(START, run, c);
  }

  /** The exception occurs: a launcher left waiting. */
  lemma {:induction false} LauncherLeftWaiting(c: Config) returns (run: seq<Action>)
    ensures IsRun(START, run, c)
    ensures After(START, run, c).parent.Abandoned? && After(START, run, c).process.Waiting?
  {
    hide IsRun, After;
    EmptyRun(c);
    var s;
    run, s := Extend([], START, Launcher(Attach), c);
    run, s := Extend(run, s, Launcher(Signal), c);
    run, s := Extend(run, s, Launcher(CloseReady), c);
    run, s := Extend(run, s, Parent(ReadReady), c);
    run, s := Extend(run, s, Parent(Abandon), c);
  }

  /** Steps of the parties themselves: no timeout, interrupt or failure, and no idle tick. */
  predicate Ordinary(a: Action) {
    && a != Launcher(LauncherFails) && a != Monitor(Tick)
    && a != Parent(ReadyTimeout) && a != Parent(Abandon) && a != Parent(MonitorFails) && a != Finish(Interrupt)
  }

  /** No reachable state is stuck: until the parent has raised or succeeded, some party can move on. */
  lemma {:induction false} NeverStuck(run: seq<Action>, c: Config) returns (a: Action)
    requires IsRun(START, run, c)
    requires !Ended(After(START, run, c))
    ensures Ordinary(a) && Enabled(After(START, run, c), a)
  {
    StartInv();
    RunKeepsInv(START, run, c);
    a := Progress(After(START, run, c));
  }

  lemma {:induction false} Progress(s: State) returns (a: Action)
    requires Inv(s) && !Ended(s)
    ensures Ordinary(a) && Enabled(s, a)
  {
    match s.parent
    case AwaitReady =>
      a := if s.process.Begun? then Launcher(Attach)
           else if s.process.Attached? then Launcher(Signal)
           else if s.readyByte then Parent(ReadReady)
           else Parent(ReadyEof);
    case StartFailed => a := Parent(CloseStart);
    case StartClosed => a := Parent(KillStart);
    case Ready => a := Parent(StartMonitor);
    case Monitoring => a := Parent(StartTimer);
    case Timing => a := Parent(ReleaseLauncher);
    case Communicating =>
      a := if s.process.Signalled? then Launcher(CloseReady)
           else if s.process.Waiting? then Launcher(ReadGo)
           else if s.process.Cleared? then Launcher(ExecTarget)
           else if s.process.Exec? then Launcher(TargetExits)
           else Parent(Reap);
    case Aborting => a := Finish(CloseGo);
    case Closed => a := Finish(KillLauncher);
    case Killing => a := Finish(ReapKilled);
    case Stopping => a := Finish(SetStop);
    case Joining =>
      a := if s.monitor.Idle? then Monitor(SeeStop)
           else if s.monitor.Observing? then Monitor(Tree({}, 0))
           else Finish(Join);
    case FinalCheck => a := Finish(FinalObserve);
    case FinalSample => a := Finish(FinalTree({}, 0));
    case Verdict => a := Finish(Judge);
  }

  /******* Trials end *******/

  function ProcessRank(p: Process): nat {
    match p
    case Begun => 6
    case Attached => 5
    case Signalled => 4
    case Waiting => 3
    case Cleared => 2
    case Exec => 1
    case Exited(_) => 0
  }

  function ParentRank(p: Parent): nat {
    match p
    case AwaitReady => 14
    case Ready => 13
    case Monitoring => 12
    case Timing => 11
    case Communicating => 10
    case Aborting => 9
    case Closed => 8
    case Killing => 7
    case Stopping => 6
    case Joining => 5
    case FinalCheck => 4
    case FinalSample => 3
    case Verdict | StartFailed => 2
    case StartClosed => 1
    case Raised | Abandoned | Succeeded => 0
  }

  function MonitorRank(m: Monitor): nat {
    match m
    case Off => 2
    case Idle | Observing => 1
    case Done => 0
  }

  /** How many steps a trial can still take, the looks of the monitor apart. */
  function StepsLeft(s: State): nat {
    ProcessRank(s.process) + ParentRank(s.parent) + MonitorRank(s.monitor)
  }

  /** A tick of the monitor or the sample that follows it. */
  predicate IsLook(a: Action) {
    match a
    case Monitor(Tick) => true
    case Monitor(Tree(_, _)) => true
    case _ => false
  }

  lemma {:induction false} LauncherLowers(s: State, a: LauncherStep)
    requires LauncherEnabled(s, a)
    ensures StepsLeft(LauncherApply(s, a)) < StepsLeft(s)
  {
    match a
    case Attach =>
    case Signal =>
    case CloseReady =>
    case ReadGo =>
    case ExecTarget =>
    case TargetExits =>
    case LauncherFails =>
  }

  lemma {:induction false} ParentLowers(s: State, a: ParentStep, c: Config)
    requires MonitorInv(s) && ParentEnabled(s, a)
    ensures StepsLeft(ParentApply(s, a, c)) < StepsLeft(s)
  {
    match a
    case ReadReady =>
    case ReadyEof =>
    case ReadyTimeout =>
    case CloseStart =>
    case KillStart =>
    case Abandon =>
    case MonitorFails =>
    case StartMonitor =>
    case StartTimer =>
    case ReleaseLauncher =>
    case Reap =>
  }

  lemma {:induction false} FinishLowers(s: State, a: FinishStep, c: Config)
    requires FinishEnabled(s, a)
    ensures StepsLeft(FinishApply(s, a, c)) < StepsLeft(s)
  {
    hide Checked, Sampled, Exe, Complete, Terminated, ReaderGone;
    match a
    case Interrupt =>
    case CloseGo =>
    case KillLauncher =>
    case ReapKilled =>
    case SetStop =>
    case Join =>
    case FinalObserve =>
    case FinalTree(_, _) =>
    case Judge =>
  }

  lemma {:induction false} MonitorLowers(s: State, a: MonitorStep, c: Config)
    requires MonitorEnabled(s, a)
    ensures var t := MonitorApply(s, a, c);
            if a.SeeStop? then StepsLeft(t) < StepsLeft(s) else StepsLeft(t) == StepsLeft(s)
    ensures a.Tree? ==> !MonitorApply(s, a, c).monitor.Observing?
  {
    hide Checked, Sampled, Exe;
    match a
    case Tick =>
    case Tree(_, _) =>
    case SeeStop =>
  }

  lemma {:induction false} StepLowers(s: State, a: Action, c: Config)
    requires MonitorInv(s) && Enabled(s, a)
    ensures if IsLook(a) then StepsLeft(Apply(s, a, c)) == StepsLeft(s)
            else StepsLeft(Apply(s, a, c)) < StepsLeft(s)
    ensures IsLook(a) && Ordinary(a) ==> s.monitor.Observing? && !Apply(s, a, c).monitor.Observing?
  {
    hide LauncherEnabled, ParentEnabled, FinishEnabled, LauncherApply, ParentApply, FinishApply, MonitorApply,
      StepsLeft, MonitorInv;
    match a
    case Launcher(l) => LauncherLowers(s, l);
    case Parent(p) => ParentLowers(s, p, c);
    case Finish(f) => FinishLowers(s, f, c);
    case Monitor(m) => MonitorLowers(s, m, c);
  }

  /** The steps of a run that are no looks of the monitor. */
  function StepsOf(run: seq<Action>): nat {
    if run == [] then 0 else (if IsLook(run[0]) then 0 else 1) + StepsOf(run[1..])
  }

  lemma {:induction false} StepsAreBounded(s: State, run: seq<Action>, c: Config)
    requires Inv(s) && IsRun(s, run, c)
    ensures StepsOf(run) + StepsLeft(After(s, run, c)) <= StepsLeft(s)
    decreases |run|
  {
    if run != [] {
      hide Enabled, Apply, IsLook, StepsLeft, MonitorInv, PipeInv, LauncherInv, ParentInv, RecordInv;
      StepLowers(s, run[0], c);
      StepKeepsInv(s, run[0], c);
      StepsAreBounded(Apply(s, run[0], c), run[1..], c);
    }
  }

  /** Whatever the interleaving, timeouts, interrupts and failures included, a trial takes at most 22
      steps besides the looks of the monitor. */
  lemma {:induction false} TrialsAreBounded(run: seq<Action>, c: Config)
    requires IsRun(START, run, c)
    ensures StepsOf(run) <= 22
  {
    StartInv();
    StepsAreBounded(START, run, c);
  }

  predicate Ended(s: State) {
    s.parent.Raised? || s.parent.Abandoned? || s.parent.Succeeded?
  }

  /** From every reachable state ordinary steps alone lead to the end of the trial. */
  lemma {:induction false} TrialsCanEnd(run: seq<Action>, c: Config) returns (more: seq<Action>)
    requires IsRun(START, run, c)
    ensures IsRun(After(START, run, c), more, c) && Ended(After(After(START, run, c), more, c))
    ensures forall a :: a in more ==> Ordinary(a)
  {
    StartInv();
    RunKeepsInv(START, run, c);
    more := EndFrom(After(START, run, c), c);
  }

  lemma {:induction false} EndFrom(s: State, c: Config) returns (more: seq<Action>)
    requires Inv(s)
    ensures IsRun(s, more, c) && Ended(After(s, more, c))
    ensures forall a :: a in more ==> Ordinary(a)
    decreases StepsLeft(s), if s.monitor.Observing? then 1 else 0
  {
    if Ended(s) {
      more := [];
    } else {
      hide Enabled, Apply, StepsLeft, Ordinary, MonitorInv, PipeInv, LauncherInv, ParentInv, RecordInv;
      var a := Progress(s);
      StepLowers(s, a, c);
      StepKeepsInv(s, a, c);
      var rest := EndFrom(Apply(s, a, c), c);
      more := [a] + rest;
      assert more[1..] == rest;
    }
  }

  /******* Verdict *******/

  /** The processes a step of the run found in the tree. */
  function PidsOf(a: Action): set<string> {
    match a
    case Monitor(Tree(pids, _)) => pids
    case Finish(FinalTree(pids, _)) => pids
    case _ => {}
  }

  function AllPids(run: seq<Action>): set<string> {
    if run == [] then {} else PidsOf(run[0]) + AllPids(run[1..])
  }

  function Pids(r: Record): set<string> {
    if r.pids.Some? then r.pids.value else {}
  }

  lemma {:induction false} LauncherFindsNothing(s: State, a: LauncherStep)
    requires LauncherEnabled(s, a)
    ensures LauncherApply(s, a).record == s.record
  {
    LauncherObserves(s, a);
  }

  lemma {:induction false} ParentFinds(s: State, a: ParentStep, c: Config)
    requires ParentEnabled(s, a)
    ensures ParentApply(s, a, c).record == s.record
  {
    ParentObserves(s, a, c);
  }

  lemma {:induction false} FinishFinds(s: State, a: FinishStep, c: Config)
    requires FinishEnabled(s, a)
    ensures Pids(FinishApply(s, a, c).record) == Pids(s.record) + PidsOf(Finish(a))
  {
    if !a.FinalObserve? && !a.FinalTree? {
      OtherFinishObserves(s, a, c);
    }
  }

  lemma {:induction false} MonitorFinds(s: State, a: MonitorStep, c: Config)
    requires MonitorEnabled(s, a)
    ensures Pids(MonitorApply(s, a, c).record) == Pids(s.record) + PidsOf(Monitor(a))
  {
    hide Exe, HasExeced;
  }

  lemma {:induction false} PidsOfStep(s: State, a: Action, c: Config)
    requires Enabled(s, a)
    ensures Pids(Apply(s, a, c).record) == Pids(s.record) + PidsOf(a)
  {
    hide LauncherEnabled, ParentEnabled, FinishEnabled, MonitorEnabled, LauncherApply, ParentApply, FinishApply,
      MonitorApply;
    match a
    case Launcher(l) => LauncherFindsNothing(s, l);
    case Parent(p) => ParentFinds(s, p, c);
    case Finish(f) => FinishFinds(s, f, c);
    case Monitor(m) => MonitorFinds(s, m, c);
  }

  lemma {:induction false} PidsOfRun(s: State, run: seq<Action>, c: Config)
    requires IsRun(s, run, c)
    ensures Pids(After(s, run, c).record) == Pids(s.record) + AllPids(run)
    decreases |run|
  {
    if run != [] {
      hide Enabled, Apply, PidsOf;
      PidsOfStep(s, run[0], c);
      PidsOfRun(Apply(s, run[0], c), run[1..], c);
    }
  }

  /** Once the last sample is taken, the trial succeeds if and only if a tick of the monitor met the target
      alive, some sample found a process, and some sample was above zero; otherwise it raises. */
  lemma {:induction false} SucceedsExactly(run: seq<Action>, c: Config)
    requires IsRun(START, run, c) && After(START, run, c).parent.Verdict?
    ensures var s := After(START, run, c);
            && FinishEnabled(s, Judge)
            && (FinishApply(s, Judge, c).parent == Succeeded <==>
                Seen(START, run, c) && AllPids(run) != {} && exists rss :: rss in TreeSamples(run) && rss > 0)
            && (FinishApply(s, Judge, c).parent == Succeeded || FinishApply(s, Judge, c).parent == Raised)
  {
    StartInv();
    RunKeepsInv(START, run, c);
    RunObserves(START, run, c);
    SamplesOfRun(START, run, c);
    PidsOfRun(START, run, c);
    assert [] + TreeSamples(run) == TreeSamples(run);
    MaxOfIsMaximum(TreeSamples(run));
    var s := After(START, run, c);
    hide Seen, IsRun, After, PipeInv, LauncherInv, ParentInv, MonitorInv;
    assert s.record.peak > 0 <==> exists rss :: rss in TreeSamples(run) && rss > 0 by {
      PositiveMax(TreeSamples(run));
    }
  }

  lemma {:induction false} PositiveMax(samples: seq<nat>)
    ensures MaxOf(samples) > 0 <==> exists rss :: rss in samples && rss > 0
  {
    MaxOfIsMaximum(samples);
    hide MaxOf;
    if samples == [] {
      EmptyMax();
    }
  }

  lemma {:induction false} EmptyMax()
    ensures MaxOf([]) == 0
  {
  }
}
