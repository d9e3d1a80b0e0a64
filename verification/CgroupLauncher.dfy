/** The parent's handle on a launcher held before exec, and the memory sampler of one trial. */
module CgroupLauncher {
  import opened Arithmetic
  import opened Wrappers

  /******* Releasing and terminating *******/

  datatype ReleaseError = ReleasedTwice | WriteFailed

  /** One pipe: what its reader has yet to read, and which ends are open. */
  datatype PipeState = PipeState(bytes: string, writeOpen: bool, readOpen: bool)

  /** What the handle holds: whether `go_fd` is still set, and the pipe behind it. */
  datatype Handle = Handle(held: bool, pipe: PipeState)

  function Released(h: Handle): Handle {
    if !h.held then h
    else
      Handle(false, h.pipe.(bytes := if h.pipe.readOpen then h.pipe.bytes + "G" else h.pipe.bytes, writeOpen := false))
  }

  function ReleaseOutcome(h: Handle): Result<(), ReleaseError> {
    if !h.held then Err(ReleasedTwice) else if h.pipe.readOpen then Ok(()) else Err(WriteFailed)
  }

  function Terminated(h: Handle): Handle {
    if h.held then Handle(false, h.pipe.(writeOpen := false)) else h
  }

  class Pipe {
    var state: PipeState

    constructor ()
      ensures state == PipeState("", true, true)
    {
      state := PipeState("", true, true);
    }

    /** `os.write`: fails when nobody can read. */
    method Write(bytes: string) returns (ok: bool)
      modifies this
      ensures ok == old(state.readOpen)
      ensures state == if ok then old(state).(bytes := old(state.bytes) + bytes) else old(state)
    {
      ok := state.readOpen;
      if ok {
        state := state.(bytes := state.bytes + bytes);
      }
    }

    method CloseWrite()
      modifies this
      ensures state == old(state).(writeOpen := false)
    {
      state := state.(writeOpen := false);
    }
  }

  /** The process as its parent knows it. */
  class Child {
    var running: bool
    var signalled: bool
    var reaped: bool

    constructor ()
      ensures running && !signalled && !reaped
    {
      running, signalled, reaped := true, false, false;
    }

    /** `process.terminate()` */
    method Signal()
      modifies `signalled
      ensures signalled
    {
      signalled := true;
    }

    /** `process.communicate()` returns once the process has exited, and reaps it. */
    method Communicate()
      modifies `running, `reaped
      ensures !running && reaped
    {
      running, reaped := false, true;
    }
  }

  class Launcher {
    const process: Child
    var goFd: Pipe?
    ghost const pipe: Pipe

    ghost predicate Valid()
      reads this
    {
      goFd != null ==> goFd == pipe
    }

    ghost function View(): Handle
      reads this, pipe
    {
      Handle(goFd != null, pipe.state)
    }

    constructor (process: Child, goWrite: Pipe)
      ensures Valid() && this.process == process && pipe == goWrite && View() == Handle(true, goWrite.state)
    {
      this.process := process;
      goFd := goWrite;
      pipe := goWrite;
    }

    method Release() returns (r: Result<(), ReleaseError>)
      requires Valid()
      modifies this, pipe
      ensures Valid()
      ensures View() == Released(old(View()))
      ensures r == ReleaseOutcome(old(View()))
    {
      if goFd == null {
        return Err(ReleasedTwice);
      }
      var fd: Pipe := goFd;
      goFd := null;
      var ok := fd.Write("G");
      r := if ok then Ok(()) else Err(WriteFailed);
      fd.CloseWrite();
    }

    method Terminate()
      requires Valid()
      modifies this, pipe, process
      ensures Valid()
      ensures View() == Terminated(old(View()))
      ensures !process.running && process.reaped
      ensures process.signalled == (old(process.signalled) || old(process.running))
    {
      if goFd != null {
        goFd.CloseWrite();
      }
      goFd := null;
      if process.running {
        process.Signal();
      }
      process.Communicate();
    }
  }

  datatype Call = Release | Terminate

  function AfterCall(h: Handle, call: Call): Handle {
    match call
    case Release => Released(h)
    case Terminate => Terminated(h)
  }

  function AfterCalls(h: Handle, calls: seq<Call>): Handle
    decreases |calls|
  {
    if calls == [] then h else AfterCalls(AfterCall(h, calls[0]), calls[1..])
  }

  /** Whatever calls are made on a handle, in whatever order, `G` is written only by the first and
      only if that is a release; every call leaves the write end closed. */
  lemma {:induction false} GoAtMostOnce(h: Handle, calls: seq<Call>)
    requires h.held && h.pipe.writeOpen && calls != []
    ensures var after := AfterCalls(h, calls);
            && !after.held && !after.pipe.writeOpen
            && after.pipe.bytes == h.pipe.bytes + (if calls[0] == Release && h.pipe.readOpen then "G" else "")
  {
    NothingAfterClosing(AfterCall(h, calls[0]), calls[1..]);
  }

  lemma {:induction false} NothingAfterClosing(h: Handle, calls: seq<Call>)
    requires !h.held
    ensures AfterCalls(h, calls) == h
  {
    if calls != [] {
      NothingAfterClosing(h, calls[1..]);
    }
  }

  /******* Sampling *******/

  /** What the sampler has recorded. */
  datatype Record = Record(execObserved: bool, pids: Option<set<string>>, peak: nat)

  /** `_launcher_has_execed_target`; the link cannot be read once the process is gone. */
  function HasExeced(exe: Option<string>, python: string): bool {
    exe.Some? && exe.value != python
  }

  function Checked(r: Record, exe: Option<string>, python: string): Record {
    r.(execObserved := r.execObserved || HasExeced(exe, python))
  }

  function Sampled(r: Record, pids: set<string>, rss: nat): Record {
    r.(pids := Some((if r.pids.Some? then r.pids.value else {}) + pids), peak := Max(r.peak, rss))
  }

  function MaxOf(samples: seq<nat>): nat {
    if samples == [] then 0 else Max(MaxOf(samples[..|samples| - 1]), samples[|samples| - 1])
  }

  /** The largest of the samples. */
  lemma {:induction false} MaxOfIsMaximum(samples: seq<nat>)
    ensures forall i :: 0 <= i < |samples| ==> samples[i] <= MaxOf(samples)
    ensures samples != [] ==> MaxOf(samples) in samples
  {
    if samples != [] {
      var init := samples[..|samples| - 1];
      MaxOfIsMaximum(init);
      forall i | 0 <= i < |samples| ensures samples[i] <= MaxOf(samples) {
        if i < |init| {
          assert samples[i] == init[i];
        }
      }
      if init == [] {
        assert MaxOf(init) == 0;
      }
    }
  }

  class TargetRssSampler {
    const python: string
    var record: Record

    constructor (python: string)
      ensures this.python == python && record == Record(false, None, 0)
    {
      this.python := python;
      record := Record(false, None, 0);
    }

    /** One look: `exe` is what the link to the executable reads as, `pids` and `rss` what the tree
        sampler would answer. */
    method Observe(exe: Option<string>, pids: set<string>, rss: nat)
      modifies this
      ensures record == var seen := Checked(old(record), exe, python);
                        if seen.execObserved then Sampled(seen, pids, rss) else seen
    {
      if !record.execObserved {
        record := record.(execObserved := HasExeced(exe, python));
        if !record.execObserved {
          return;
        }
      }
      if record.pids.None? {
        record := record.(pids := Some({}));
      }
      record := record.(pids := Some(record.pids.value + pids));
      record := record.(peak := Max(record.peak, rss));
    }
  }
}
