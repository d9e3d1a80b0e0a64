/** Building an uncompressed debug section in memory: one task per group, each filling its own slice
    of a shared buffer, in any interleaving. */
module DebugBuffer {
  import opened Arithmetic
  import opened Wrappers

  /** One input section: its bytes as copied, and the same bytes once relocations are applied. */
  datatype Piece = Piece(raw: seq<byte>, relocated: seq<byte>)

  /** A group's share of the buffer and its input sections, in file and section order. */
  datatype Group = Group(size: nat, pieces: seq<Piece>)

  ghost predicate GoodPieces(pieces: seq<Piece>) {
    forall i :: 0 <= i < |pieces| ==> |pieces[i].relocated| == |pieces[i].raw|
  }

  ghost predicate GoodGroups(groups: seq<Group>) {
    forall g :: 0 <= g < |groups| ==> GoodPieces(groups[g].pieces)
  }

  /** The relocated bytes of the first `n` sections. */
  function Bytes(pieces: seq<Piece>, n: nat): seq<byte>
    requires n <= |pieces|
  {
    if n == 0 then [] else Bytes(pieces, n - 1) + pieces[n - 1].relocated
  }

  function Zeros(n: nat): (r: seq<byte>)
    ensures |r| == n
  {
    seq(n, i => 0)
  }

  /** The group's sections fit in its slice. */
  ghost predicate Fits(group: Group) {
    |Bytes(group.pieces, |group.pieces|)| <= group.size
  }

  /** What the sections of one group leave in its slice. */
  ghost function Filled(group: Group): seq<byte>
    requires Fits(group)
  {
    var data := Bytes(group.pieces, |group.pieces|);
    data + Zeros(group.size - |data|)
  }

  /** How many sections a task writes: all of them, or those before the first that does not fit. */
  function Completed(group: Group, n: nat): (r: nat)
    requires n <= |group.pieces| && |Bytes(group.pieces, n)| <= group.size
    ensures StopsAt(group, r)
    decreases |group.pieces| - n
  {
    if n == |group.pieces| || |Bytes(group.pieces, n + 1)| > group.size then n else Completed(group, n + 1)
  }

  predicate StopsAt(group: Group, n: nat) {
    && n <= |group.pieces| && |Bytes(group.pieces, n)| <= group.size
    && (n < |group.pieces| ==> |Bytes(group.pieces, n + 1)| > group.size)
  }

  lemma {:induction false} StopsOnce(group: Group, m: nat, n: nat)
    requires StopsAt(group, m) && StopsAt(group, n)
    ensures m == n && (m == |group.pieces| <==> Fits(group))
  {
    hide Bytes;
    if m < n {
      BytesGrow(group.pieces, m + 1, n);
    } else if n < m {
      BytesGrow(group.pieces, n + 1, m);
    }
    if m < |group.pieces| {
      BytesGrow(group.pieces, m + 1, |group.pieces|);
    }
  }

  /** The bytes the task of a group leaves at the head of its slice. */
  function Written(group: Group): (r: seq<byte>)
    ensures |r| <= group.size
  {
    Bytes(group.pieces, Completed(group, 0))
  }

  function StartOf(groups: seq<Group>, g: nat): nat
    requires g <= |groups|
  {
    if g == 0 then 0 else StartOf(groups, g - 1) + groups[g - 1].size
  }

  /******* One task, alone *******/

  /** The task of one group, run from start to finish on its slice of the buffer. */
  method WriteGroup(buffer: array<byte>, start: nat, group: Group) returns (r: Result<(), string>)
    requires start + group.size <= buffer.Length && GoodPieces(group.pieces)
    modifies buffer
    ensures r.Ok? <==> Fits(group)
    ensures buffer[..] == Splice(old(buffer[..]), start, Written(group))
    ensures r.Ok? ==> Written(group) == Bytes(group.pieces, |group.pieces|)
  {
    hide Splice, Bytes, Completed;
    ghost var stop := Completed(group, 0) by {
      NothingWritten(buffer[..], start, group.pieces);
    }
    ghost var whole := buffer[..];
    var offset := 0;
    NothingWritten(whole, start, group.pieces);
    for i := 0 to |group.pieces|
      invariant offset == |Bytes(group.pieces, i)| <= group.size
      invariant buffer[..] == Splice(whole, start, Bytes(group.pieces, i))
    {
      var piece := group.pieces[i];
      var end := offset + |piece.raw|;
      BytesStep(group.pieces, i);
      if end > group.size {
        StopsOnce(group, i, stop);
        return Err("Buffer overflow writing debug section");
      }
      ghost var before := buffer[..];
      CopyInto(buffer, start + offset, piece.raw);
      CopyInto(buffer, start + offset, piece.relocated);
      SpliceTwice(before, start + offset, piece.raw, piece.relocated);
      SpliceAppend(whole, start, Bytes(group.pieces, i), piece.relocated);
      offset := end;
    }
    StopsOnce(group, |group.pieces|, stop);
    return Ok(());
  }

  lemma {:induction false} NothingWritten(s: seq<byte>, at: nat, pieces: seq<Piece>)
    requires at <= |s|
    ensures Bytes(pieces, 0) == [] && Splice(s, at, []) == s
  {
  }

  lemma {:induction false} SpliceTwice(s: seq<byte>, at: nat, a: seq<byte>, b: seq<byte>)
    requires at + |a| <= |s| && |a| == |b|
    ensures Splice(Splice(s, at, a), at, b) == Splice(s, at, b)
  {
  }

  lemma {:induction false} SpliceAppend(s: seq<byte>, at: nat, a: seq<byte>, b: seq<byte>)
    requires at + |a| + |b| <= |s|
    ensures Splice(Splice(s, at, a), at + |a|, b) == Splice(s, at, a + b)
  {
  }

  method CopyInto(buffer: array<byte>, at: nat, data: seq<byte>)
    requires at + |data| <= buffer.Length
    modifies buffer
    ensures buffer[..] == Splice(old(buffer[..]), at, data)
  {
    forall k | 0 <= k < |data| {
      buffer[at + k] := data[k];
    }
  }

  lemma {:induction false} BytesStep(pieces: seq<Piece>, n: nat)
    requires GoodPieces(pieces) && n < |pieces|
    ensures Bytes(pieces, n + 1) == Bytes(pieces, n) + pieces[n].relocated
    ensures |Bytes(pieces, n + 1)| == |Bytes(pieces, n)| + |pieces[n].raw|
  {
  }

  lemma {:induction false} BytesGrow(pieces: seq<Piece>, m: nat, n: nat)
    requires m <= n <= |pieces|
    ensures |Bytes(pieces, m)| <= |Bytes(pieces, n)|
    decreases n
  {
    if m < n {
      BytesGrow(pieces, m, n - 1);
    }
  }

  /******* All tasks, interleaved *******/

  /** A task between two writes: sections finished, and whether the next one is copied but not yet
      relocated. */
  datatype Task = Task(done: nat, offset: nat, copied: bool, failed: bool)

  datatype State = State(buffer: seq<byte>, tasks: seq<Task>)

  function Splice(s: seq<byte>, at: nat, data: seq<byte>): (r: seq<byte>)
    requires at + |data| <= |s|
    ensures |r| == |s|
    ensures forall k :: 0 <= k < |s| ==> r[k] == if at <= k < at + |data| then data[k - at] else s[k]
  {
    s[..at] + data + s[at + |data|..]
  }

  function Initial(groups: seq<Group>): State {
    State(Zeros(StartOf(groups, |groups|)), seq(|groups|, g => Task(0, 0, false, false)))
  }

  predicate Finished(group: Group, task: Task) {
    task.failed || task.done >= |group.pieces|
  }

  /** One write by the task of group `g`: it copies the next section, relocates the one it copied, or
      gives up because the section would run past its slice. */
  function Step(groups: seq<Group>, st: State, g: nat): State
    requires GoodGroups(groups) && g < |groups|
    requires |st.tasks| == |groups| && |st.buffer| == StartOf(groups, |groups|) && InStep(groups, st, g)
  {
    StartsAscend(groups, g, |groups|);
    var task, group := st.tasks[g], groups[g];
    if Finished(group, task) then st
    else
      var piece := group.pieces[task.done];
      var end := task.offset + |piece.raw|;
      if task.copied then
        State(Splice(st.buffer, StartOf(groups, g) + task.offset, piece.relocated),
              st.tasks[g := Task(task.done + 1, end, false, false)])
      else if end > group.size then
        State(st.buffer, st.tasks[g := task.(failed := true)])
      else
        State(Splice(st.buffer, StartOf(groups, g) + task.offset, piece.raw), st.tasks[g := task.(copied := true)])
  }

  /** What a task has made of its slice so far. */
  function Content(group: Group, task: Task): seq<byte>
    requires GoodTask(group, task)
  {
    var written := Bytes(group.pieces, task.done) + if task.copied then group.pieces[task.done].raw else [];
    written + Zeros(group.size - |written|)
  }

  ghost predicate GoodTask(group: Group, task: Task) {
    && task.done <= |group.pieces|
    && task.offset == |Bytes(group.pieces, task.done)| <= group.size
    && (task.copied ==>
          task.done < |group.pieces| && !task.failed && task.offset + |group.pieces[task.done].raw| <= group.size)
    && (task.failed ==>
          task.done < |group.pieces| && task.offset + |group.pieces[task.done].raw| > group.size)
  }

  lemma {:induction false} StartsAscend(groups: seq<Group>, g: nat, h: nat)
    requires g < h <= |groups|
    ensures StartOf(groups, g) + groups[g].size <= StartOf(groups, h)
    decreases h
  {
    if g < h - 1 {
      StartsAscend(groups, g, h - 1);
    }
  }

  function SliceOf(groups: seq<Group>, buffer: seq<byte>, g: nat): seq<byte>
    requires g < |groups| && |buffer| == StartOf(groups, |groups|)
  {
    StartsAscend(groups, g, |groups|);
    buffer[StartOf(groups, g)..StartOf(groups, g) + groups[g].size]
  }

  /** At every moment each slice holds exactly what its own task has written, whatever the others do. */
  ghost predicate Inv(groups: seq<Group>, st: State) {
    && |st.tasks| == |groups| && |st.buffer| == StartOf(groups, |groups|)
    && forall g {:trigger InStep(groups, st, g)} :: 0 <= g < |groups| ==> InStep(groups, st, g)
  }

  ghost predicate InStep(groups: seq<Group>, st: State, g: nat)
    requires |st.tasks| == |groups| && |st.buffer| == StartOf(groups, |groups|) && g < |groups|
  {
    && GoodTask(groups[g], st.tasks[g])
    && SliceOf(groups, st.buffer, g) == Content(groups[g], st.tasks[g])
  }

  lemma {:induction false} InitialInv(groups: seq<Group>)
    ensures Inv(groups, Initial(groups))
  {
    var st := Initial(groups);
    forall g | 0 <= g < |groups|
      ensures InStep(groups, st, g)
    {
      assert [] + Zeros(groups[g].size) == Zeros(groups[g].size);
      StartsAscend(groups, g, |groups|);
    }
  }

  lemma {:induction false} SpliceOutside(s: seq<byte>, at: nat, data: seq<byte>, a: nat, b: nat)
    requires at + |data| <= |s| && a <= b <= |s| && (b <= at || at + |data| <= a)
    ensures Splice(s, at, data)[a..b] == s[a..b]
  {
    var t := Splice(s, at, data);
    forall k | 0 <= k < b - a
      ensures t[a..b][k] == s[a..b][k]
    {
      assert t[a + k] == s[a + k];
    }
  }

  lemma {:induction false} SpliceInside(s: seq<byte>, at: nat, data: seq<byte>, a: nat, b: nat)
    requires a <= at && at + |data| <= b <= |s|
    ensures Splice(s, at, data)[a..b] == Splice(s[a..b], at - a, data)
  {
    var t, u := Splice(s, at, data), Splice(s[a..b], at - a, data);
    forall k | 0 <= k < b - a
      ensures t[a..b][k] == u[k]
    {
      assert t[a..b][k] == t[a + k];
      assert s[a..b][k] == s[a + k];
    }
  }

  lemma {:induction false} SpliceElsewhere(groups: seq<Group>, buffer: seq<byte>, g: nat, offset: nat,
    data: seq<byte>, h: nat)
    requires g < |groups| && h < |groups| && g != h && |buffer| == StartOf(groups, |groups|)
    requires offset + |data| <= groups[g].size
    ensures StartOf(groups, g) + groups[g].size <= |buffer|
    ensures SliceOf(groups, Splice(buffer, StartOf(groups, g) + offset, data), h) == SliceOf(groups, buffer, h)
  {
    hide Splice, StartOf;
    StartsAscend(groups, g, |groups|);
    StartsAscend(groups, h, |groups|);
    if g < h {
      StartsAscend(groups, g, h);
    } else {
      StartsAscend(groups, h, g);
    }
    SpliceOutside(buffer, StartOf(groups, g) + offset, data, StartOf(groups, h), StartOf(groups, h) + groups[h].size);
  }

  lemma {:induction false} SpliceHere(groups: seq<Group>, buffer: seq<byte>, g: nat, offset: nat, data: seq<byte>)
    requires g < |groups| && |buffer| == StartOf(groups, |groups|)
    requires offset + |data| <= groups[g].size
    ensures StartOf(groups, g) + groups[g].size <= |buffer|
    ensures SliceOf(groups, Splice(buffer, StartOf(groups, g) + offset, data), g)
            == Splice(SliceOf(groups, buffer, g), offset, data)
  {
    hide Splice, StartOf;
    StartsAscend(groups, g, |groups|);
    SpliceInside(buffer, StartOf(groups, g) + offset, data, StartOf(groups, g), StartOf(groups, g) + groups[g].size);
  }

  /** A write by one task keeps every slice in step with its task. */
  lemma {:induction false} StepInv(groups: seq<Group>, st: State, g: nat)
    requires GoodGroups(groups) && Inv(groups, st) && g < |groups| && InStep(groups, st, g)
    ensures Inv(groups, Step(groups, st, g))
  {
    StartsAscend(groups, g, |groups|);
    assert InStep(groups, st, g);
    var task, group := st.tasks[g], groups[g];
    var next := Step(groups, st, g);
    if !Finished(group, task) {
      var piece := group.pieces[task.done];
      if task.copied || task.offset + |piece.raw| <= group.size {
        WriteInv(groups, st, g, if task.copied then piece.relocated else piece.raw, next);
      } else {
        forall h | 0 <= h < |groups|
          ensures InStep(groups, next, h)
        {
          assert InStep(groups, st, h);
        }
      }
    }
  }

  lemma {:induction false} WriteInv(groups: seq<Group>, st: State, g: nat, data: seq<byte>, next: State)
    requires GoodGroups(groups) && Inv(groups, st) && g < |groups| && InStep(groups, st, g)
    requires var task := st.tasks[g];
             && !Finished(groups[g], task)
             && task.offset + |groups[g].pieces[task.done].raw| <= groups[g].size
             && StartOf(groups, g) + groups[g].size <= |st.buffer|
             && data == (if task.copied then groups[g].pieces[task.done].relocated else groups[g].pieces[task.done].raw)
             && next == Step(groups, st, g)
    ensures Inv(groups, next)
  {
    hide SliceOf, Content, Splice;
    var task := st.tasks[g];
    assert InStep(groups, st, g);
    SpliceHere(groups, st.buffer, g, task.offset, data);
    TaskContent(groups[g], task, next.tasks[g], data);
    forall h | 0 <= h < |groups|
      ensures InStep(groups, next, h)
    {
      assert InStep(groups, st, h);
      if h != g {
        SpliceElsewhere(groups, st.buffer, g, task.offset, data, h);
      }
    }
  }

  lemma {:induction false} TaskContent(group: Group, task: Task, next: Task, data: seq<byte>)
    requires GoodPieces(group.pieces) && GoodTask(group, task) && !task.failed && task.done < |group.pieces|
    requires var piece := group.pieces[task.done];
             && task.offset + |piece.raw| <= group.size
             && data == (if task.copied then piece.relocated else piece.raw)
             && next == (if task.copied then Task(task.done + 1, task.offset + |piece.raw|, false, false)
                         else task.(copied := true))
    ensures GoodTask(group, next) && |Content(group, task)| == group.size
    ensures Content(group, next) == Splice(Content(group, task), task.offset, data)
  {
    var piece := group.pieces[task.done];
    var written := Bytes(group.pieces, task.done);
    if task.copied {
      assert Bytes(group.pieces, task.done + 1) == written + piece.relocated;
      assert Content(group, task) == written + piece.raw + Zeros(group.size - |written| - |piece.raw|);
    } else {
      assert Content(group, task) == written + [] + Zeros(group.size - |written|);
    }
  }

  /** A schedule: a list of the groups whose task writes next. */
  ghost predicate Schedules(groups: seq<Group>, schedule: seq<nat>) {
    forall i :: 0 <= i < |schedule| ==> schedule[i] < |groups|
  }

  /** The state after any schedule. */
  ghost function Run(groups: seq<Group>, schedule: seq<nat>): (st: State)
    requires GoodGroups(groups) && Schedules(groups, schedule)
    ensures Inv(groups, st)
  {
    if schedule == [] then
      InitialInv(groups);
      Initial(groups)
    else
      var n := |schedule| - 1;
      var st := Run(groups, schedule[..n]);
      assert InStep(groups, st, schedule[n]);
      StepInv(groups, st, schedule[n]);
      Step(groups, st, schedule[n])
  }

  ghost predicate AllFit(groups: seq<Group>) {
    forall g :: 0 <= g < |groups| ==> Fits(groups[g])
  }

  /** The slices of the first `n` groups, filled one after the other. */
  ghost function Sequential(groups: seq<Group>, n: nat): seq<byte>
    requires n <= |groups| && AllFit(groups)
  {
    if n == 0 then [] else Sequential(groups, n - 1) + Filled(groups[n - 1])
  }

  /** However its writes are interleaved with those of others, a task that has finished has bailed
      exactly when its sections do not fit, and its slice holds what `WriteGroup` leaves there. */
  lemma {:induction false} TaskEndsAsWriteGroup(groups: seq<Group>, schedule: seq<nat>, g: nat)
    requires GoodGroups(groups) && Schedules(groups, schedule) && g < |groups|
    requires Finished(groups[g], Run(groups, schedule).tasks[g])
    ensures Run(groups, schedule).tasks[g].failed <==> !Fits(groups[g])
    ensures SliceOf(groups, Run(groups, schedule).buffer, g)
            == Splice(Zeros(groups[g].size), 0, Written(groups[g]))
  {
    hide Run, SliceOf, Bytes, Completed;
    var st, group := Run(groups, schedule), groups[g];
    var task := st.tasks[g];
    assert InStep(groups, st, g);
    if task.failed {
      BytesStep(group.pieces, task.done);
    }
    NothingWritten(Zeros(group.size), 0, group.pieces);
    StopsOnce(group, task.done, Completed(group, 0));
    ZerosBehind(Written(group), group.size);
  }

  lemma {:induction false} ZerosBehind(data: seq<byte>, size: nat)
    requires |data| <= size
    ensures Splice(Zeros(size), 0, data) == data + [] + Zeros(size - |(data + [])|)
  {
  }

  /** One group scheduled alone until it has finished: the whole buffer is what `WriteGroup` makes of
      a zeroed one. */
  lemma {:induction false} LoneTaskIsWriteGroup(group: Group, schedule: seq<nat>)
    requires GoodGroups([group]) && Schedules([group], schedule)
    requires Finished(group, Run([group], schedule).tasks[0])
    ensures Run([group], schedule).buffer == Splice(Zeros(group.size), 0, Written(group))
  {
    hide Run, Splice, Written;
    var buffer := Run([group], schedule).buffer;
    TaskEndsAsWriteGroup([group], schedule, 0);
    assert StartOf([group], 1) == StartOf([group], 0) + group.size == group.size;
    assert buffer[0..group.size] == buffer;
  }

  /** A task never bails when its sections fit. */
  lemma {:induction false} BailMeansTooLong(groups: seq<Group>, schedule: seq<nat>, g: nat)
    requires GoodGroups(groups) && Schedules(groups, schedule) && g < |groups|
    requires Run(groups, schedule).tasks[g].failed
    ensures !Fits(groups[g])
  {
    TaskEndsAsWriteGroup(groups, schedule, g);
  }

  ghost predicate Bails(groups: seq<Group>, schedule: seq<nat>, g: nat)
    requires GoodGroups(groups) && g < |groups|
  {
    Schedules(groups, schedule) && Run(groups, schedule).tasks[g].failed
  }

  /** Some schedule reaches the overflow bail in the task of a group exactly when its sections do not
      fit; then every schedule can be continued to one that does. */
  lemma {:induction false} BailExactlyWhenTooLong(groups: seq<Group>, g: nat)
    requires GoodGroups(groups) && g < |groups|
    ensures (exists schedule :: Bails(groups, schedule, g)) <==> !Fits(groups[g])
  {
    hide Run;
    if schedule :| Bails(groups, schedule, g) {
      BailMeansTooLong(groups, schedule, g);
    }
    if !Fits(groups[g]) {
      var schedule := FinishingSchedule(groups, []);
      TaskEndsAsWriteGroup(groups, schedule, g);
      assert Bails(groups, schedule, g);
    }
  }

  /** When every group's sections fit, any schedule that lets all tasks finish leaves the buffer equal
      to the slices filled one after the other. */
  lemma {:induction false} AnyInterleavingIsSequential(groups: seq<Group>, schedule: seq<nat>)
    requires GoodGroups(groups) && Schedules(groups, schedule)
    requires AllFit(groups) && AllFinished(groups, Run(groups, schedule))
    ensures Run(groups, schedule).buffer == Sequential(groups, |groups|)
  {
    hide Run, SliceOf, Bytes, Sequential;
    var st := Run(groups, schedule);
    forall g | 0 <= g < |groups|
      ensures SliceIsFilled(groups, st.buffer, g)
    {
      TaskEndsAsWriteGroup(groups, schedule, g);
      assert InStep(groups, st, g);
      var data := Bytes(groups[g].pieces, |groups[g].pieces|);
      assert data + [] == data;
    }
    SlicesMakeBuffer(groups, st.buffer, |groups|);
    assert st.buffer[..|st.buffer|] == st.buffer;
  }

  ghost predicate AllFinished(groups: seq<Group>, st: State)
    requires |st.tasks| == |groups|
  {
    forall g :: 0 <= g < |groups| ==> Finished(groups[g], st.tasks[g])
  }

  ghost predicate SliceIsFilled(groups: seq<Group>, buffer: seq<byte>, g: nat)
    requires AllFit(groups) && |buffer| == StartOf(groups, |groups|) && g < |groups|
  {
    SliceOf(groups, buffer, g) == Filled(groups[g])
  }

  lemma {:induction false} SplitPrefix(s: seq<byte>, a: nat, b: nat)
    requires a <= b <= |s|
    ensures s[..b] == s[..a] + s[a..b]
  {
  }

  lemma {:induction false} SlicesMakeBuffer(groups: seq<Group>, buffer: seq<byte>, n: nat)
    requires n <= |groups| && |buffer| == StartOf(groups, |groups|)
    requires AllFit(groups)
    requires forall g {:trigger SliceIsFilled(groups, buffer, g)} ::
               0 <= g < |groups| ==> SliceIsFilled(groups, buffer, g)
    ensures StartOf(groups, n) <= |buffer|
    ensures buffer[..StartOf(groups, n)] == Sequential(groups, n)
    decreases n
  {
    if n > 0 {
      SlicesMakeBuffer(groups, buffer, n - 1);
      hide Sequential, Filled, Fits, Bytes;
      SequentialStep(groups, n - 1);
      StartsAscend(groups, n - 1, |groups|);
      var a, b := StartOf(groups, n - 1), StartOf(groups, n);
      SplitPrefix(buffer, a, b);
      assert SliceIsFilled(groups, buffer, n - 1);
      assert SliceOf(groups, buffer, n - 1) == buffer[a..b];
    }
  }

  lemma {:induction false} SequentialStep(groups: seq<Group>, n: nat)
    requires n < |groups| && AllFit(groups)
    ensures Sequential(groups, n + 1) == Sequential(groups, n) + Filled(groups[n])
  {
  }

  /** Writes still to be made; every step of an unfinished task makes one of them. */
  function WritesLeft(group: Group, task: Task): int {
    if task.failed then 0 else 2 * (|group.pieces| - task.done) + 1 - if task.copied then 1 else 0
  }

  lemma {:induction false} StepMakesProgress(groups: seq<Group>, st: State, g: nat, h: nat)
    requires GoodGroups(groups) && Inv(groups, st) && g < |groups| && h < |groups|
    requires !Finished(groups[g], st.tasks[g]) && InStep(groups, st, g)
    ensures 0 <= WritesLeft(groups[g], Step(groups, st, g).tasks[g]) < WritesLeft(groups[g], st.tasks[g])
    ensures h != g ==> Step(groups, st, g).tasks[h] == st.tasks[h]
  {
    StartsAscend(groups, g, |groups|);
  }

  /** The writes the first `n` tasks have still to make. */
  ghost function TotalLeft(groups: seq<Group>, st: State, n: nat): nat
    requires Inv(groups, st) && n <= |groups|
  {
    if n == 0 then 0
    else
      assert InStep(groups, st, n - 1);
      TotalLeft(groups, st, n - 1) + WritesLeft(groups[n - 1], st.tasks[n - 1])
  }

  lemma {:induction false} StepLowersTotal(groups: seq<Group>, st: State, g: nat, n: nat)
    requires GoodGroups(groups) && Inv(groups, st) && g < |groups| && n <= |groups|
    requires !Finished(groups[g], st.tasks[g]) && InStep(groups, st, g)
    requires Inv(groups, Step(groups, st, g))
    ensures var next := Step(groups, st, g);
            if g < n then TotalLeft(groups, next, n) < TotalLeft(groups, st, n)
            else TotalLeft(groups, next, n) == TotalLeft(groups, st, n)
    decreases n
  {
    hide Inv, InStep, Step, WritesLeft;
    if n > 0 {
      StepLowersTotal(groups, st, g, n - 1);
      StepMakesProgress(groups, st, g, n - 1);
    }
  }

  lemma {:induction false} RunThenStep(groups: seq<Group>, schedule: seq<nat>, g: nat)
    requires GoodGroups(groups) && Schedules(groups, schedule) && g < |groups|
    ensures Schedules(groups, schedule + [g]) && InStep(groups, Run(groups, schedule), g)
    ensures Run(groups, schedule + [g]) == Step(groups, Run(groups, schedule), g)
  {
    assert (schedule + [g])[..|schedule|] == schedule;
    assert InStep(groups, Run(groups, schedule), g);
  }

  /** Every schedule can be continued until all tasks have finished. */
  lemma {:induction false} FinishingSchedule(groups: seq<Group>, schedule: seq<nat>) returns (longer: seq<nat>)
    requires GoodGroups(groups) && Schedules(groups, schedule)
    ensures schedule <= longer && Schedules(groups, longer) && AllFinished(groups, Run(groups, longer))
    decreases TotalLeft(groups, Run(groups, schedule), |groups|)
  {
    hide Run, InStep, Finished, Step, TotalLeft;
    var st := Run(groups, schedule);
    longer := schedule;
    if !AllFinished(groups, st) {
      var g :| 0 <= g < |groups| && !Finished(groups[g], st.tasks[g]);
      RunThenStep(groups, schedule, g);
      StepLowersTotal(groups, st, g, |groups|);
      longer := FinishingSchedule(groups, schedule + [g]);
    }
  }
}
