/** Processes and descriptors: a table of cells per process points at shared open-file descriptions with
    reference counts. What every operation does, that the counts stay right, that no two processes run in one
    task, and that every waiting parent is accounted for. */
module FileTable {
  import opened Common

  datatype ProcState = Free | Ready | Stopped | Exited

  type Slot = t: nat | t < MAX_TASKS

  const NO_TASK: nat := 0xFF

  /** `task` runs the process, `waiter` is blocked until it exits; either may be NO_TASK. `entry` is the built-in
      program it runs, with its argument and how far it has come. */
  datatype Proc = Proc(state: ProcState, pid: nat, ppid: nat, fdCount: nat, task: nat, entry: nat, argument: nat,
                       progress: nat, waiter: nat, status: nat)

  /** What a waiting parent is told: the task that waited, the child, and its exit status. */
  datatype Notice = Notice(task: nat, pid: nat, status: nat)

  datatype OpenFile = OpenFile(used: bool, kind: nat, node: nat, flags: nat, refs: nat, owner: nat)

  const UNUSED: OpenFile := OpenFile(false, 0, 0, 0, 0, 0)
  const NOBODY: Proc := Proc(Free, 0, 0, 0, NO_TASK, 0, 0, 0, NO_TASK, 0)

  /** A path that has been looked up: an error, or a node to open. */
  datatype Resolved = Missing(error: int) | Node(kind: nat, node: nat)

  type Row = seq<int>

  datatype Fs = Fs(rows: seq<Row>, files: seq<OpenFile>, procs: seq<Proc>, opens: nat, closes: nat, openCount: nat,
                   nextPid: nat, notices: seq<Notice>) {
    function Width(): nat {
      if rows == [] then 0 else |rows[0]|
    }
  }

  // ---------- counting ----------

  /** Cells in use. */
  function Live(row: Row): nat {
    if row == [] then 0 else (if row[0] >= 0 then 1 else 0) + Live(row[1..])
  }

  function Total(rows: seq<Row>): nat {
    if rows == [] then 0 else Live(rows[0]) + Total(rows[1..])
  }

  /** Cells of a row that point at file k. */
  function Points(row: Row, k: int): nat {
    if row == [] then 0 else (if row[0] == k then 1 else 0) + Points(row[1..], k)
  }

  function References(rows: seq<Row>, k: int): nat {
    if rows == [] then 0 else Points(rows[0], k) + References(rows[1..], k)
  }

  function InUse(files: seq<OpenFile>): nat {
    if files == [] then 0 else (if files[0].used then 1 else 0) + InUse(files[1..])
  }

  lemma {:induction false} RowSet(row: Row, i: nat, v: int, k: int)
    requires i < |row|
    ensures Live(row[i := v]) == Live(row) - (if row[i] >= 0 then 1 else 0) + if v >= 0 then 1 else 0
    ensures Points(row[i := v], k) == Points(row, k) - (if row[i] == k then 1 else 0) + if v == k then 1 else 0
    decreases |row|
  {
    if i > 0 {
      RowSet(row[1..], i - 1, v, k);
      assert row[i := v][1..] == row[1..][i - 1 := v];
    } else {
      assert row[i := v][1..] == row[1..];
    }
  }

  lemma {:induction false} RowsSet(rows: seq<Row>, p: nat, row: Row, k: int)
    requires p < |rows|
    ensures Total(rows[p := row]) == Total(rows) - Live(rows[p]) + Live(row)
    ensures References(rows[p := row], k) == References(rows, k) - Points(rows[p], k) + Points(row, k)
    decreases |rows|
  {
    if p > 0 {
      RowsSet(rows[1..], p - 1, row, k);
      assert rows[p := row][1..] == rows[1..][p - 1 := row];
    } else {
      assert rows[p := row][1..] == rows[1..];
    }
  }

  lemma {:induction false} FilesSet(files: seq<OpenFile>, i: nat, f: OpenFile)
    requires i < |files|
    ensures InUse(files[i := f]) == InUse(files) - (if files[i].used then 1 else 0) + if f.used then 1 else 0
    decreases |files|
  {
    if i > 0 {
      FilesSet(files[1..], i - 1, f);
      assert files[i := f][1..] == files[1..][i - 1 := f];
    } else {
      assert files[i := f][1..] == files[1..];
    }
  }

  lemma {:induction false} PointsIn(row: Row, i: nat, k: int)
    requires i < |row| && row[i] == k
    ensures Points(row, k) > 0 && (k >= 0 ==> Live(row) > 0)
    decreases |row|
  {
    if i > 0 { PointsIn(row[1..], i - 1, k); }
  }

  lemma {:induction false} EmptyRow(row: Row)
    requires forall i :: 0 <= i < |row| ==> row[i] < 0
    ensures Live(row) == 0 && forall k :: k >= 0 ==> Points(row, k) == 0
    decreases |row|
  {
    if row != [] { EmptyRow(row[1..]); }
  }

  lemma {:induction false} Referenced(rows: seq<Row>, p: nat, k: int)
    requires p < |rows|
    ensures References(rows, k) >= Points(rows[p], k) && Total(rows) >= Live(rows[p])
    decreases |rows|
  {
    if p > 0 { Referenced(rows[1..], p - 1, k); }
  }

  // ---------- the invariant ----------

  ghost predicate Shaped(s: Fs) {
    && |s.rows| == |s.procs|
    && (forall p :: 0 <= p < |s.rows| ==> |s.rows[p]| == s.Width())
    && (forall p, i :: 0 <= p < |s.rows| && 0 <= i < |s.rows[p]| ==> -1 <= s.rows[p][i] < |s.files|)
  }

  /** Reference counts, uses and the balance of opens and closes agree with the cells. */
  ghost predicate Balanced(s: Fs) {
    && Shaped(s)
    && (forall k :: 0 <= k < |s.files| ==> s.files[k].refs == References(s.rows, k))
    && (forall k :: 0 <= k < |s.files| ==> (s.files[k].used <==> s.files[k].refs > 0))
    && s.opens == s.closes + Total(s.rows)
    && s.openCount == InUse(s.files)
  }

  ghost predicate RowCounted(s: Fs, p: nat)
    requires p < |s.rows| && p < |s.procs|
  {
    s.procs[p].fdCount == Live(s.rows[p]) && (s.procs[p].state == Free ==> Live(s.rows[p]) == 0)
  }

  ghost predicate Conserved(s: Fs) {
    Balanced(s) && forall p :: 0 <= p < |s.procs| ==> RowCounted(s, p)
  }

  // ---------- the operations ----------

  const MISSING: nat := 0xFF

  /** First live process with the pid, at or after p. */
  function Find(procs: seq<Proc>, pid: nat, p: nat): (r: nat)
    requires p <= |procs| < MISSING
    ensures r == MISSING || (p <= r < |procs| && procs[r].state != Free && procs[r].pid == pid)
    decreases |procs| - p
  {
    if p == |procs| then MISSING else if procs[p].state != Free && procs[p].pid == pid then p
         else Find(procs, pid, p + 1)
  }

  function SetCell(s: Fs, p: nat, fd: nat, v: int): Fs
    requires p < |s.rows| && fd < |s.rows[p]|
  {
    s.(rows := s.rows[p := s.rows[p][fd := v]])
  }

  function SetProc(s: Fs, p: nat, x: Proc): Fs
    requires p < |s.procs|
  {
    s.(procs := s.procs[p := x])
  }

  function Less(n: nat): nat {
    if n > 0 then n - 1 else 0
  }

  /** One reference fewer; the description is freed with the last. */
  function DropReference(s: Fs, k: nat): Fs
    requires k < |s.files|
  {
    var left := Less(s.files[k].refs);
    if left == 0 then s.(files := s.files[k := UNUSED], openCount := Less(s.openCount))
    else s.(files := s.files[k := s.files[k].(refs := left)])
  }

  function FreeFd(row: Row, fd: nat): nat
    requires fd <= |row|
    ensures FreeFd(row, fd) <= |row|
    ensures FreeFd(row, fd) < |row| ==> row[FreeFd(row, fd)] < 0
    decreases |row| - fd
  {
    if fd == |row| then fd else if row[fd] < 0 then fd else FreeFd(row, fd + 1)
  }

  function FreeFile(files: seq<OpenFile>, k: nat): nat
    requires k <= |files|
    ensures FreeFile(files, k) <= |files|
    ensures FreeFile(files, k) < |files| ==> !files[FreeFile(files, k)].used
    decreases |files| - k
  {
    if k == |files| then k else if !files[k].used then k else FreeFile(files, k + 1)
  }

  predicate Sized(s: Fs) {
    && |s.rows| == |s.procs| < MISSING && |s.files| < MISSING
    && forall p :: 0 <= p < |s.rows| ==> |s.rows[p]| == s.Width()
  }

  predicate SameSize(s: Fs, t: Fs) {
    Sized(t) && |t.procs| == |s.procs| && |t.files| == |s.files| && t.Width() == s.Width()
  }

  /** Descriptors are handed out from 3 on. */
  function Open(s: Fs, pid: nat, path: Resolved, flags: nat): (r: (int, Fs))
    requires Sized(s)
    ensures SameSize(s, r.1)
  {
    var p := Find(s.procs, pid, 0);
    if p == MISSING then (-22, s)
    else if path.Missing? then (path.error, s)
    else
      var k := FreeFile(s.files, 0);
      if k == |s.files| then (-24, s)
      else
        var fd := if s.Width() < 3 then s.Width() else FreeFd(s.rows[p], 3);
        if fd == s.Width() then (-24, s.(files := s.files[k := UNUSED]))
        else
          (fd, SetProc(SetCell(s, p, fd, k), p, s.procs[p].(fdCount := s.procs[p].fdCount + 1)).(
                 files := s.files[k := OpenFile(true, path.kind, path.node, flags % 0x100, 1, pid)],
                 openCount := s.openCount + 1, opens := s.opens + 1))
  }

  function Close(s: Fs, pid: nat, fd: int): (r: (int, Fs))
    requires Sized(s)
    ensures SameSize(s, r.1)
  {
    var p := Find(s.procs, pid, 0);
    if p == MISSING || fd < 0 || fd >= s.Width() then (-9, s)
    else
      var k := s.rows[p][fd];
      if k < 0 || k >= |s.files| || !s.files[k].used then (-9, s)
      else
        (0, DropReference(SetProc(SetCell(s, p, fd, -1), p, s.procs[p].(fdCount := Less(s.procs[p].fdCount))),
                          k).(closes := s.closes + 1))
  }

  function Dup2(s: Fs, pid: nat, oldfd: int, newfd: int): (r: (int, Fs))
    requires Sized(s)
    ensures SameSize(s, r.1)
  {
    var p := Find(s.procs, pid, 0);
    if p == MISSING || oldfd < 0 || oldfd >= s.Width() || s.rows[p][oldfd] < 0 || newfd < 0 || newfd >= s.Width()
         then (-9, s)
    else if oldfd == newfd then (newfd, s)
    else
      var k := s.rows[p][oldfd];
      var c := if s.rows[p][newfd] >= 0 then Close(s, pid, newfd) else (0, s);
      if c.0 != 0 || k >= |s.files| then (c.0, c.1)
      else
        var t := c.1;
        (newfd, SetProc(SetCell(t, p, newfd, k), p, t.procs[p].(fdCount := t.procs[p].fdCount + 1)).(
                  files := t.files[k := t.files[k].(refs := t.files[k].refs + 1)], opens := t.opens + 1))
  }

  /** One cell of a process that goes away. */
  function ReleaseCell(s: Fs, p: nat, fd: nat): (t: Fs)
    requires Sized(s) && p < |s.rows| && fd < s.Width()
    ensures Sized(t) && |t.rows| == |s.rows| && t.Width() == s.Width() && t.procs == s.procs && |t.files| == |s.files|
  {
    var k := s.rows[p][fd];
    var c := SetCell(s, p, fd, -1);
    if 0 <= k < |s.files| && s.files[k].used then DropReference(c, k).(closes := s.closes + 1) else c
  }

  function ReleaseFrom(s: Fs, p: nat, fd: nat): (t: Fs)
    requires Sized(s) && p < |s.rows| && fd <= s.Width()
    ensures Sized(t) && |t.rows| == |s.rows| && t.Width() == s.Width() && t.procs == s.procs && |t.files| == |s.files|
    decreases s.Width() - fd
  {
    if fd == s.Width() then s else ReleaseFrom(ReleaseCell(s, p, fd), p, fd + 1)
  }

  function ReleaseOwned(s: Fs, p: nat): (t: Fs)
    requires Sized(s) && p < |s.rows|
    ensures SameSize(s, t)
  {
    SetProc(ReleaseFrom(s, p, 0), p, s.procs[p].(fdCount := 0))
  }

  /** The process entry is cleared. */
  function Reap(s: Fs, p: nat): (t: Fs)
    requires Sized(s) && p < |s.rows|
    ensures SameSize(s, t)
  {
    SetProc(ReleaseOwned(s, p), p, NOBODY)
  }

  function FreeSlot(procs: seq<Proc>, p: nat): nat
    requires p <= |procs|
    ensures FreeSlot(procs, p) <= |procs|
            && (FreeSlot(procs, p) < |procs| ==> procs[FreeSlot(procs, p)].state == Free && FreeSlot(procs, p) >= p)
    decreases |procs| - p
  {
    if p == |procs| then p else if procs[p].state == Free then p else FreeSlot(procs, p + 1)
  }

  /** First live process that the task runs, at or after p. */
  function ByTask(procs: seq<Proc>, task: nat, p: nat): (r: nat)
    requires p <= |procs| < MISSING
    ensures r == MISSING || (p <= r < |procs| && procs[r].state != Free && procs[r].task == task)
    ensures r == MISSING ==> forall q :: p <= q < |procs| && procs[q].state != Free ==> procs[q].task != task
    decreases |procs| - p
  {
    if p == |procs| then MISSING else if procs[p].state != Free && procs[p].task == task then p
         else ByTask(procs, task, p + 1)
  }

  const FIRST_DYNAMIC: nat := 11
  const LAST_DYNAMIC: nat := 12

  datatype Claim = Claimed(task: nat) | Refused(error: int)

  /** A task for a process: the first dynamic one that is blocked and runs none, while no application runs. */
  function ClaimTask(procs: seq<Proc>, appRunning: bool, blocked: set<nat>, slot: nat): (c: Claim)
    requires 2 <= |procs| < MISSING && slot <= LAST_DYNAMIC + 1
    ensures c.Claimed? ==> ByTask(procs, c.task, 2) == MISSING && slot <= c.task <= LAST_DYNAMIC && c.task in blocked
    decreases LAST_DYNAMIC + 1 - slot
  {
    if appRunning then Refused(-16)
    else if slot > LAST_DYNAMIC then Refused(-11)
    else if slot in blocked && ByTask(procs, slot, 2) == MISSING then Claimed(slot)
    else ClaimTask(procs, appRunning, blocked, slot + 1)
  }

  const PRINT: nat := 1
  const COUNT: nat := 2
  const SLEEP_EXIT: nat := 3
  const IPC_SEND: nat := 4

  /** What a new process is to run: nothing yet, or an entry in a task; whether an application runs and which
      tasks are blocked is the scheduler's to say. */
  datatype Job = NoJob | Job(entry: nat, argument: nat, appRunning: bool, blocked: set<nat>)

  function Newborn(pid: nat, ppid: nat): Proc {
    Proc(Ready, pid, ppid, 0, NO_TASK, 0, 0, 0, NO_TASK, 0)
  }

  /** A new process, in an entry from 2 on, with an empty row. If no task is to be had for one that wants it,
      the entry is cleared again. */
  function Spawn(s: Fs, ppid: nat, job: Job): (r: (int, Fs))
    requires Sized(s) && |s.procs| >= 2
    ensures SameSize(s, r.1)
  {
    if job.Job? && !(PRINT <= job.entry <= IPC_SEND) then (-22, s)
    else if Find(s.procs, ppid, 0) == MISSING then (-12, s)
    else
      var p := FreeSlot(s.procs, 2);
      if p == |s.procs| then (-12, s)
      else
        var x := Newborn(s.nextPid, ppid);
        var t := SetProc(s.(rows := s.rows[p := seq(s.Width(), _ => -1)], nextPid := s.nextPid + 1), p, x);
        if job.NoJob? then (x.pid, t)
        else
          match ClaimTask(t.procs, job.appRunning, job.blocked, FIRST_DYNAMIC)
          case Refused(error) => (error, SetProc(t, p, NOBODY))
          case Claimed(k) => (x.pid, SetProc(t, p, x.(task := k, entry := job.entry, argument := job.argument)))
  }

  /** A process that somebody waits for is reaped and the waiter told. */
  function ReapAndWake(s: Fs, p: nat): (t: Fs)
    requires Sized(s) && p < |s.rows|
    ensures SameSize(s, t)
  {
    Reap(s, p).(notices := s.notices + [Notice(s.procs[p].waiter, s.procs[p].pid, s.procs[p].status)])
  }

  /** Only a process with a task exits; others are killed. */
  function Exit(s: Fs, pid: nat, status: nat): (r: (int, Fs))
    requires Sized(s)
    ensures SameSize(s, r.1)
  {
    var p := Find(s.procs, pid, 0);
    if p == MISSING || s.procs[p].task == NO_TASK || pid <= 2 then (0, s)
    else
      var t := SetProc(s, p, s.procs[p].(state := Exited, status := status));
      (1, if s.procs[p].waiter != NO_TASK then ReapAndWake(t, p) else t)
  }

  /** Steps that a program makes before it ends. */
  function StepsLeft(x: Proc): nat {
    var all := if x.entry == COUNT then (if x.argument > 16 then 16 else x.argument)
               else if x.entry == PRINT || x.entry == SLEEP_EXIT || x.entry == IPC_SEND then 1
               else 0;
    if x.entry == COUNT then (if x.progress < all then all - x.progress else 0)
    else if x.progress == 0 then all else 0
  }

  /** One step of the process that a task runs: what the task is to do, or -1 if the program has ended. */
  function TaskStep(s: Fs, task: nat): (r: (int, Option<nat>, Fs))
    requires Sized(s) && |s.procs| >= 2
    ensures SameSize(s, r.2)
  {
    var p := ByTask(s.procs, task, 2);
    if p == MISSING || s.procs[p].state != Ready then (0, None, s)
    else
      var x := s.procs[p];
      var limit := if x.argument > 16 then 16 else x.argument;
      if x.entry == PRINT && x.progress == 0 then (1, Some(x.argument), SetProc(s, p, x.(progress := 1)))
      else if x.entry == COUNT && x.progress < limit then
        (2, Some(x.progress + 1), SetProc(s, p, x.(progress := x.progress + 1)))
      else if x.entry == SLEEP_EXIT && x.progress == 0 then (3, Some(x.argument), SetProc(s, p, x.(progress := 1)))
      else if x.entry == IPC_SEND && x.progress == 0 then (4, Some(x.argument), SetProc(s, p, x.(progress := 1)))
      else (-1, None, SetProc(s, p, x.(state := Exited, status := 0)))
  }

  /** What the task does for a program that has ended. */
  function Finalize(s: Fs, task: nat): (t: Fs)
    requires Sized(s) && |s.procs| >= 2
    ensures SameSize(s, t)
  {
    var p := ByTask(s.procs, task, 2);
    if p != MISSING && s.procs[p].state == Exited && s.procs[p].waiter != NO_TASK then ReapAndWake(s, p) else s
  }

  function Kill(s: Fs, caller: nat, pid: nat, status: nat): (r: (int, Fs))
    requires Sized(s)
    ensures SameSize(s, r.1)
  {
    var p := Find(s.procs, pid, 0);
    if p == MISSING || pid <= 2 then (-3, s)
    else if caller != s.procs[p].ppid && caller != 1 && caller != 2 then (-13, s)
    else
      var t := ReleaseOwned(s, p);
      (0, SetProc(t, p, t.procs[p].(state := Exited, status := status)))
  }

  /** Stops a running process with a task, or resumes a stopped one. */
  function Stop(s: Fs, caller: nat, pid: nat, resume: bool): (r: (int, Fs))
    requires Sized(s)
    ensures SameSize(s, r.1)
  {
    var p := Find(s.procs, pid, 0);
    if p == MISSING || pid <= 2 || s.procs[p].task == NO_TASK then (-3, s)
    else if caller != s.procs[p].ppid && caller != 1 && caller != 2 then (-13, s)
    else if s.procs[p].state != (if resume then Stopped else Ready) then (-22, s)
    else (0, SetProc(s, p, s.procs[p].(state := if resume then Ready else Stopped)))
  }

  const PENDING: int := 0x7FFF_FFFE

  /** Reaps an exited child and gives its status, or registers the calling task as waiting for a running one. */
  function Wait(s: Fs, caller: nat, pid: nat, task: Slot): (r: (int, Option<nat>, Fs))
    requires Sized(s)
    ensures SameSize(s, r.2)
  {
    var p := Find(s.procs, pid, 0);
    if p == MISSING || s.procs[p].ppid != caller then (-10, None, s)
    else if s.procs[p].state == Exited then (pid as int, Some(s.procs[p].status), Reap(s, p))
    else if s.procs[p].waiter != NO_TASK then (-16, None, s)
    else (PENDING, None, SetProc(s, p, s.procs[p].(waiter := task)))
  }

  // ---------- conservation ----------

  /** Moving one cell from v to w moves one reference. */
  lemma CellMoved(s: Fs, p: nat, fd: nat, w: int)
    requires Shaped(s) && p < |s.rows| && fd < s.Width() && -1 <= w < |s.files|
    ensures var v := s.rows[p][fd]; var t := SetCell(s, p, fd, w);
            && Shaped(t) && t.Width() == s.Width()
            && Total(t.rows) == Total(s.rows) - (if v >= 0 then 1 else 0) + (if w >= 0 then 1 else 0)
            && Live(t.rows[p]) == Live(s.rows[p]) - (if v >= 0 then 1 else 0) + (if w >= 0 then 1 else 0)
            && (forall k :: References(t.rows, k) ==
                  References(s.rows, k) - (if v == k then 1 else 0) + if w == k then 1 else 0)
            && (v >= 0 ==> References(s.rows, v) > 0 && Live(s.rows[p]) > 0)
  {
    var row := s.rows[p];
    forall k ensures References(SetCell(s, p, fd, w).rows, k) ==
                       References(s.rows, k) - (if row[fd] == k then 1 else 0) + if w == k then 1 else 0 {
      RowSet(row, fd, w, k);
      RowsSet(s.rows, p, row[fd := w], k);
    }
    RowSet(row, fd, w, 0);
    RowsSet(s.rows, p, row[fd := w], 0);
    if row[fd] >= 0 { PointsIn(row, fd, row[fd]); Referenced(s.rows, p, row[fd]); }
  }

  /** A cell emptied, its reference dropped, the close counted. */
  function Unlink(s: Fs, p: nat, fd: nat): Fs
    requires p < |s.rows| && fd < |s.rows[p]| && 0 <= s.rows[p][fd] < |s.files|
  {
    DropReference(SetCell(s, p, fd, -1), s.rows[p][fd]).(closes := s.closes + 1)
  }

  lemma UnlinkBalanced(s: Fs, p: nat, fd: nat)
    requires Sized(s) && Balanced(s) && p < |s.rows| && fd < s.Width() && s.rows[p][fd] >= 0
    ensures var t := Unlink(s, p, fd);
            && s.files[s.rows[p][fd]].used && Balanced(t) && Sized(t) && t.procs == s.procs && |t.files| == |s.files|
            && t.rows == s.rows[p := s.rows[p][fd := -1]] && t.Width() == s.Width()
            && Live(t.rows[p]) == Live(s.rows[p]) - 1
  {
    hide Live, Total, References, InUse;
    var k := s.rows[p][fd];
    CellMoved(s, p, fd, -1);
    FilesSet(s.files, k, UNUSED);
    FilesSet(s.files, k, s.files[k].(refs := Less(s.files[k].refs)));
    OneUsed(s.files, k);
  }

  lemma {:induction false} OneUsed(files: seq<OpenFile>, k: nat)
    requires k < |files| && files[k].used
    ensures InUse(files) > 0
    decreases |files|
  {
    if k > 0 { OneUsed(files[1..], k - 1); }
  }

  lemma CloseConserves(s: Fs, pid: nat, fd: int)
    requires Sized(s) && Conserved(s)
    ensures Conserved(Close(s, pid, fd).1) && Sized(Close(s, pid, fd).1) && |Close(s, pid, fd).1.files| == |s.files|
    ensures var p := Find(s.procs, pid, 0);
            Close(s, pid, fd).0 == 0 <==> p != MISSING && 0 <= fd < s.Width() && s.rows[p][fd] >= 0
  {
    hide Live, Balanced, InUse;
    assert Shaped(s) by { ShapedOf(s); }
    var p := Find(s.procs, pid, 0);
    if p != MISSING && 0 <= fd < s.Width() && s.rows[p][fd] >= 0 {
      UnlinkBalanced(s, p, fd);
      var t := Unlink(s, p, fd);
      var u := SetProc(t, p, s.procs[p].(fdCount := Less(s.procs[p].fdCount)));
      assert Close(s, pid, fd).1 == u;
      ProcsApart(t, u.procs);
      assert RowCounted(s, p);
      forall q | 0 <= q < |u.procs| ensures RowCounted(u, q) { assert RowCounted(s, q); }
    }
  }

  lemma ShapedOf(s: Fs)
    requires Balanced(s)
    ensures Shaped(s)
  {
  }

  /** The balance does not depend on the process entries. */
  lemma ProcsApart(s: Fs, procs: seq<Proc>)
    requires Balanced(s) && |procs| == |s.procs|
    ensures Balanced(s.(procs := procs))
  {
  }

  lemma OpenConserves(s: Fs, pid: nat, path: Resolved, flags: nat)
    requires Sized(s) && Conserved(s)
    ensures Conserved(Open(s, pid, path, flags).1)
  {
    hide Live, Total, References, InUse;
    var p := Find(s.procs, pid, 0);
    var k := FreeFile(s.files, 0);
    if p != MISSING && path.Node? && k < |s.files| {
      FilesSet(s.files, k, UNUSED);
      var fd := if s.Width() < 3 then s.Width() else FreeFd(s.rows[p], 3);
      if fd < s.Width() {
        CellMoved(s, p, fd, k);
        FilesSet(s.files, k, OpenFile(true, path.kind, path.node, flags % 0x100, 1, pid));
        assert RowCounted(s, p);
        forall q | 0 <= q < |s.procs| ensures RowCounted(Open(s, pid, path, flags).1, q) { assert RowCounted(s, q); }
      } else {
        forall q | 0 <= q < |s.procs| ensures RowCounted(Open(s, pid, path, flags).1, q) { assert RowCounted(s, q); }
      }
    }
  }

  /** A cell filled with one reference more, the open counted. */
  lemma LinkConserves(s: Fs, p: nat, fd: nat, k: nat)
    requires Sized(s) && Conserved(s) && p < |s.rows| && fd < s.Width() && s.rows[p][fd] < 0
    requires k < |s.files| && s.files[k].used && s.procs[p].state != Free
    ensures Conserved(SetProc(SetCell(s, p, fd, k), p, s.procs[p].(fdCount := s.procs[p].fdCount + 1)).(
                        files := s.files[k := s.files[k].(refs := s.files[k].refs + 1)], opens := s.opens + 1))
  {
    hide Live, Total, References, InUse;
    var t := SetProc(SetCell(s, p, fd, k), p, s.procs[p].(fdCount := s.procs[p].fdCount + 1)).(
      files := s.files[k := s.files[k].(refs := s.files[k].refs + 1)], opens := s.opens + 1);
    CellMoved(s, p, fd, k);
    FilesSet(s.files, k, s.files[k].(refs := s.files[k].refs + 1));
    forall q | 0 <= q < |s.procs| ensures RowCounted(t, q) { assert RowCounted(s, q); }
  }

  lemma Dup2Conserves(s: Fs, pid: nat, oldfd: int, newfd: int)
    requires Sized(s) && Conserved(s)
    ensures Conserved(Dup2(s, pid, oldfd, newfd).1)
  {
    hide Conserved, Balanced, Close;
    var p := Find(s.procs, pid, 0);
    CellsInRange(s);
    if p != MISSING && 0 <= oldfd < s.Width() && s.rows[p][oldfd] >= 0 && 0 <= newfd < s.Width() && oldfd != newfd {
      var k := s.rows[p][oldfd];
      var c := if s.rows[p][newfd] >= 0 then Close(s, pid, newfd) else (0, s);
      if s.rows[p][newfd] >= 0 { CloseConserves(s, pid, newfd); CloseOnly(s, pid, newfd, p); }
      CellsInRange(c.1);
      assert c.1.rows[p][oldfd] == k;
      LinkConserves(c.1, p, newfd, k);
    }
  }

  lemma CellsInRange(s: Fs)
    requires Conserved(s)
    ensures Shaped(s) && forall p, i :: 0 <= p < |s.rows| && 0 <= i < |s.rows[p]| && s.rows[p][i] >= 0 ==>
              s.files[s.rows[p][i]].used
  {
    forall p, i | 0 <= p < |s.rows| && 0 <= i < |s.rows[p]| && s.rows[p][i] >= 0 ensures s.files[s.rows[p][i]].used {
      PointsIn(s.rows[p], i, s.rows[p][i]);
      Referenced(s.rows, p, s.rows[p][i]);
    }
  }

  /** Closing changes one cell only. */
  lemma CloseOnly(s: Fs, pid: nat, fd: nat, p: nat)
    requires Sized(s) && Conserved(s) && p == Find(s.procs, pid, 0) != MISSING && fd < s.Width() && s.rows[p][fd] >= 0
    ensures var c := Close(s, pid, fd);
            && c.0 == 0 && c.1.rows == s.rows[p := s.rows[p][fd := -1]] && c.1.Width() == s.Width()
            && |c.1.files| == |s.files|
            && c.1.procs[p] == s.procs[p].(fdCount := Less(s.procs[p].fdCount)) && |c.1.procs| == |s.procs|
  {
    hide Balanced, Live;
    assert Shaped(s) by { ShapedOf(s); }
    UnlinkBalanced(s, p, fd);
  }

  lemma ReleaseCellIs(s: Fs, p: nat, fd: nat)
    requires Sized(s) && Balanced(s) && p < |s.rows| && fd < s.Width()
    ensures Balanced(ReleaseCell(s, p, fd)) && ReleaseCell(s, p, fd).rows == s.rows[p := s.rows[p][fd := -1]]
  {
    hide Live, Total, References, InUse, Balanced;
    ShapedOf(s);
    if s.rows[p][fd] >= 0 {
      UnlinkBalanced(s, p, fd);
    } else {
      assert s.rows[p][fd := -1] == s.rows[p];
      assert s.rows[p := s.rows[p]] == s.rows;
      assert ReleaseCell(s, p, fd) == s;
    }
  }

  lemma {:induction false} ReleaseFromBalanced(s: Fs, p: nat, fd: nat)
    requires Sized(s) && Balanced(s) && p < |s.rows| && fd <= s.Width()
    requires forall i :: 0 <= i < fd ==> s.rows[p][i] < 0
    ensures var t := ReleaseFrom(s, p, fd);
            && Balanced(t) && |t.rows| == |s.rows| && t.procs == s.procs
            && (forall i :: 0 <= i < |t.rows[p]| ==> t.rows[p][i] < 0)
            && forall q :: 0 <= q < |s.rows| && q != p ==> t.rows[q] == s.rows[q]
    decreases s.Width() - fd
  {
    hide Balanced, ReleaseCell;
    if fd < s.Width() {
      ReleaseCellIs(s, p, fd);
      ReleaseFromBalanced(ReleaseCell(s, p, fd), p, fd + 1);
    } else {
      ShapedOf(s);
    }
  }

  /** A process that is gone holds no cells, whatever its entry says then. */
  lemma ReleaseConserves(s: Fs, p: nat, x: Proc)
    requires Sized(s) && Conserved(s) && p < |s.rows| && x.fdCount == 0
    ensures Conserved(SetProc(ReleaseOwned(s, p), p, x))
  {
    hide Live, Balanced, ReleaseFrom;
    ShapedOf(s);
    ReleaseFromBalanced(s, p, 0);
    var t := ReleaseFrom(s, p, 0);
    var u := SetProc(ReleaseOwned(s, p), p, x);
    ShapedOf(t);
    EmptyRow(t.rows[p]);
    ProcsApart(t, u.procs);
    forall q | 0 <= q < |u.procs| ensures RowCounted(u, q) { assert RowCounted(s, q); }
  }

  /** An entry rewritten without touching its row. */
  lemma EntryConserves(s: Fs, p: nat, x: Proc)
    requires Conserved(s) && p < |s.procs| && x.fdCount == s.procs[p].fdCount
             && (x.state == Free ==> s.procs[p].state == Free)
    ensures Conserved(SetProc(s, p, x))
  {
    hide Live, Balanced;
    ShapedOf(s);
    ProcsApart(s, s.procs[p := x]);
    forall q | 0 <= q < |s.procs| ensures RowCounted(SetProc(s, p, x), q) { assert RowCounted(s, q); }
  }

  lemma SpawnConserves(s: Fs, ppid: nat, job: Job)
    requires Sized(s) && Conserved(s) && |s.procs| >= 2
    ensures Conserved(Spawn(s, ppid, job).1)
  {
    hide Live, Total, References, InUse, ClaimTask;
    var p := FreeSlot(s.procs, 2);
    if Find(s.procs, ppid, 0) != MISSING && p < |s.procs| {
      assert RowCounted(s, p);
      IdleRow(s.rows[p]);
      var row := seq(s.Width(), _ => -1);
      assert row == s.rows[p];
      assert s.rows[p := row] == s.rows;
      var t := Spawn(s, ppid, job).1;
      forall q | 0 <= q < |s.procs| ensures RowCounted(t, q) { assert RowCounted(s, q); }
    }
  }

  lemma {:induction false} IdleRow(row: Row)
    requires Live(row) == 0
    ensures forall i :: 0 <= i < |row| ==> row[i] < 0
    decreases |row|
  {
    if row != [] { IdleRow(row[1..]); }
  }

  lemma ReapConserves(s: Fs, p: nat)
    requires Sized(s) && Conserved(s) && p < |s.rows|
    ensures Conserved(ReapAndWake(s, p)) && Conserved(Reap(s, p))
  {
    hide ReleaseOwned, Live;
    ReleaseConserves(s, p, NOBODY);
    var r := Reap(s, p);
    assert forall q :: 0 <= q < |r.procs| ==> RowCounted(r, q);
    forall q | 0 <= q < |r.procs| ensures RowCounted(ReapAndWake(s, p), q) { assert RowCounted(r, q); }
  }

  lemma ExitConserves(s: Fs, pid: nat, status: nat)
    requires Sized(s) && Conserved(s)
    ensures Conserved(Exit(s, pid, status).1)
  {
    hide Conserved, ReapAndWake;
    var p := Find(s.procs, pid, 0);
    if p != MISSING && pid > 2 {
      ShapedOfConserved(s);
      var t := SetProc(s, p, s.procs[p].(state := Exited, status := status));
      EntryConserves(s, p, s.procs[p].(state := Exited, status := status));
      ReapConserves(t, p);
    }
  }

  lemma FinalizeConserves(s: Fs, task: nat)
    requires Sized(s) && |s.procs| >= 2 && Conserved(s)
    ensures Conserved(Finalize(s, task))
  {
    hide Conserved, ReapAndWake;
    var p := ByTask(s.procs, task, 2);
    if p != MISSING { ReapConserves(s, p); }
  }

  lemma StepConserves(s: Fs, task: nat)
    requires Sized(s) && |s.procs| >= 2 && Conserved(s)
    ensures Conserved(TaskStep(s, task).2)
  {
    hide Conserved;
    var p := ByTask(s.procs, task, 2);
    if p != MISSING { EntryConserves(s, p, TaskStep(s, task).2.procs[p]); }
  }

  lemma StopConserves(s: Fs, caller: nat, pid: nat, resume: bool)
    requires Sized(s) && Conserved(s)
    ensures Conserved(Stop(s, caller, pid, resume).1)
  {
    hide Conserved;
    var p := Find(s.procs, pid, 0);
    if p != MISSING { EntryConserves(s, p, Stop(s, caller, pid, resume).1.procs[p]); }
  }

  lemma ShapedOfConserved(s: Fs)
    requires Conserved(s)
    ensures Shaped(s)
  {
  }

  lemma KillConserves(s: Fs, caller: nat, pid: nat, status: nat)
    requires Sized(s) && Conserved(s)
    ensures Conserved(Kill(s, caller, pid, status).1)
  {
    hide Conserved, ReleaseFrom;
    var p := Find(s.procs, pid, 0);
    if p != MISSING {
      ReleaseConserves(s, p, ReleaseOwned(s, p).procs[p].(state := Exited, status := status));
    }
  }

  lemma WaitConserves(s: Fs, caller: nat, pid: nat, task: Slot)
    requires Sized(s) && Conserved(s)
    ensures Conserved(Wait(s, caller, pid, task).2)
  {
    hide Conserved, ReleaseOwned;
    var p := Find(s.procs, pid, 0);
    if p != MISSING {
      ReleaseConserves(s, p, NOBODY);
      EntryConserves(s, p, s.procs[p].(waiter := task));
    }
  }

  // ---------- whole runs ----------

  datatype Call =
    | OpenCall(pid: nat, path: Resolved, flags: nat)
    | CloseCall(pid: nat, fd: int)
    | Dup2Call(pid: nat, oldfd: int, newfd: int)
    | SpawnCall(ppid: nat, job: Job)
    | ExitCall(pid: nat, status: nat)
    | StepCall(task: nat)
    | FinalizeCall(task: nat)
    | KillCall(caller: nat, pid: nat, status: nat)
    | StopCall(caller: nat, pid: nat, resume: bool)
    | WaitCall(caller: nat, pid: nat, waiter: Slot)

  function Perform(s: Fs, c: Call): Fs
    requires Sized(s) && |s.procs| >= 2
  {
    match c
    case OpenCall(pid, path, flags) => Open(s, pid, path, flags).1
    case CloseCall(pid, fd) => Close(s, pid, fd).1
    case Dup2Call(pid, a, b) => Dup2(s, pid, a, b).1
    case SpawnCall(ppid, job) => Spawn(s, ppid, job).1
    case ExitCall(pid, status) => Exit(s, pid, status).1
    case StepCall(task) => TaskStep(s, task).2
    case FinalizeCall(task) => Finalize(s, task)
    case KillCall(caller, pid, status) => Kill(s, caller, pid, status).1
    case StopCall(caller, pid, resume) => Stop(s, caller, pid, resume).1
    case WaitCall(caller, pid, task) => Wait(s, caller, pid, task).2
  }

  lemma PerformSized(s: Fs, c: Call)
    requires Sized(s) && |s.procs| >= 2
    ensures SameSize(s, Perform(s, c))
  {
    hide Open, Close, Dup2, Spawn, Exit, TaskStep, Finalize, Kill, Stop, Wait, Sized;
  }

  function Run(s: Fs, calls: seq<Call>): Fs
    requires Sized(s) && |s.procs| >= 2
    decreases |calls|
  {
    if calls == [] then s else PerformSized(s, calls[0]); Run(Perform(s, calls[0]), calls[1..])
  }

  lemma PerformConserves(s: Fs, c: Call)
    requires Sized(s) && |s.procs| >= 2 && Conserved(s)
    ensures Conserved(Perform(s, c))
  {
    hide Conserved, Open, Close, Dup2, Spawn, Exit, TaskStep, Finalize, Kill, Stop, Wait;
    match c
    case OpenCall(pid, path, flags) => OpenConserves(s, pid, path, flags);
    case CloseCall(pid, fd) => CloseConserves(s, pid, fd);
    case Dup2Call(pid, a, b) => Dup2Conserves(s, pid, a, b);
    case SpawnCall(ppid, job) => SpawnConserves(s, ppid, job);
    case ExitCall(pid, status) => ExitConserves(s, pid, status);
    case StepCall(task) => StepConserves(s, task);
    case FinalizeCall(task) => FinalizeConserves(s, task);
    case KillCall(caller, pid, status) => KillConserves(s, caller, pid, status);
    case StopCall(caller, pid, resume) => StopConserves(s, caller, pid, resume);
    case WaitCall(caller, pid, task) => WaitConserves(s, caller, pid, task);
  }

  /** Main result: after any run of calls every open file has as many references as cells point at it, is
      in use exactly while there is one, every process counts its own cells, and opens minus closes is the
      number of live cells. */
  lemma {:induction false} DescriptorsConserved(s: Fs, calls: seq<Call>)
    requires Sized(s) && |s.procs| >= 2 && Conserved(s)
    ensures Conserved(Run(s, calls))
    decreases |calls|
  {
    hide Conserved, Perform;
    if calls != [] {
      PerformSized(s, calls[0]);
      PerformConserves(s, calls[0]);
      DescriptorsConserved(Perform(s, calls[0]), calls[1..]);
    }
  }

  // ---------- who is who, and who waits ----------

  predicate Alive(x: Proc) { x.state != Free }

  /** No two live processes have one pid, and no two of the dynamic ones one task. */
  ghost predicate Identified(s: Fs) {
    && (forall p, q :: 0 <= p < q < |s.procs| && Alive(s.procs[p]) && Alive(s.procs[q]) ==>
          s.procs[p].pid != s.procs[q].pid)
    && (forall p :: 0 <= p < |s.procs| && Alive(s.procs[p]) ==> s.procs[p].pid < s.nextPid)
    && (forall p, q :: 2 <= p < q < |s.procs| && Alive(s.procs[p]) && Alive(s.procs[q]) ==>
          s.procs[p].task == NO_TASK || s.procs[p].task != s.procs[q].task)
  }

  /** Processes that somebody waits for. */
  function Waiting(procs: seq<Proc>): nat {
    if procs == [] then 0 else Awaited(procs[0]) + Waiting(procs[1..])
  }

  function Awaited(x: Proc): nat {
    if Alive(x) && x.waiter != NO_TASK then 1 else 0
  }

  lemma {:induction false} WaitingSet(procs: seq<Proc>, p: nat, x: Proc)
    requires p < |procs|
    ensures Waiting(procs[p := x]) == Waiting(procs) - Awaited(procs[p]) + Awaited(x)
    ensures Waiting(procs) >= Awaited(procs[p])
    decreases |procs|
  {
    if p > 0 {
      WaitingSet(procs[1..], p - 1, x);
      assert procs[p := x][1..] == procs[1..][p - 1 := x];
    } else {
      assert procs[p := x][1..] == procs[1..];
    }
  }

  /** The call registers a waiter. */
  function Registers(s: Fs, c: Call): nat
    requires Sized(s)
  {
    if !c.WaitCall? then 0
    else
      var p := Find(s.procs, c.pid, 0);
      if p != MISSING && s.procs[p].ppid == c.caller && s.procs[p].state != Exited then 1 - Awaited(s.procs[p]) else 0
  }

  /** The call reaps a child that another task still waits for, and tells the caller only. */
  function Abandons(s: Fs, c: Call): nat
    requires Sized(s)
  {
    if !c.WaitCall? then 0
    else
      var p := Find(s.procs, c.pid, 0);
      if p != MISSING && s.procs[p].ppid == c.caller && s.procs[p].state == Exited then Awaited(s.procs[p]) else 0
  }

  /** Entry x in place of the p-th: the same process, none, or a new one with a new pid and a task of its own. */
  ghost predicate Succeeds(s: Fs, p: nat, x: Proc, t: Fs) {
    && 2 <= |s.procs| < MISSING && p < |s.procs| && t.procs == s.procs[p := x] && t.nextPid >= s.nextPid
    && (|| !Alive(x)
        || (Alive(s.procs[p]) && x.pid == s.procs[p].pid && x.task == s.procs[p].task)
        || (x.pid == s.nextPid < t.nextPid && (x.task == NO_TASK || ByTask(s.procs, x.task, 2) == MISSING)))
  }

  lemma EntryIdentified(s: Fs, p: nat, x: Proc, t: Fs)
    requires Identified(s) && Succeeds(s, p, x, t)
    ensures Identified(t)
  {
  }

  /** The waits that a call adds, answers and gives up balance. */
  ghost predicate WaitsAddUp(s: Fs, c: Call, x: Proc, p: nat, t: Fs)
    requires Sized(s) && p < |s.procs|
  {
    |t.notices| + Awaited(x) + Abandons(s, c) == |s.notices| + Awaited(s.procs[p]) + Registers(s, c)
  }

  /** Opening, closing and duplicating change a count of descriptors only. */
  ghost predicate Counts(s: Fs, pid: nat, t: Fs)
    requires Sized(s)
  {
    var p := Find(s.procs, pid, 0);
    && t.notices == s.notices && t.nextPid == s.nextPid && |t.procs| == |s.procs|
    && (t.procs == s.procs
        || (p != MISSING && t.procs == s.procs[p := s.procs[p].(fdCount := t.procs[p].fdCount)]))
  }

  lemma OpenCounts(s: Fs, pid: nat, path: Resolved, flags: nat)
    requires Sized(s)
    ensures Counts(s, pid, Open(s, pid, path, flags).1)
  {
    hide FreeFile, FreeFd;
  }

  lemma CloseCounts(s: Fs, pid: nat, fd: int)
    requires Sized(s)
    ensures Counts(s, pid, Close(s, pid, fd).1)
  {
  }

  lemma Dup2Counts(s: Fs, pid: nat, oldfd: int, newfd: int)
    requires Sized(s)
    ensures Counts(s, pid, Dup2(s, pid, oldfd, newfd).1)
  {
    hide Close;
    CloseCounts(s, pid, newfd);
  }

  lemma {:induction false} ReleaseApart(s: Fs, p: nat, fd: nat)
    requires Sized(s) && p < |s.rows| && fd <= s.Width()
    ensures var t := ReleaseFrom(s, p, fd); t.notices == s.notices && t.nextPid == s.nextPid
    decreases s.Width() - fd
  {
    if fd < s.Width() { ReleaseApart(ReleaseCell(s, p, fd), p, fd + 1); }
  }

  lemma ReapChanges(s: Fs, p: nat)
    requires Sized(s) && p < |s.rows|
    ensures var t := Reap(s, p); t.procs == s.procs[p := NOBODY] && t.notices == s.notices && t.nextPid == s.nextPid
  {
    hide ReleaseFrom;
    ReleaseApart(s, p, 0);
  }

  lemma FileChanges(s: Fs, c: Call, pid: nat) returns (p: nat, x: Proc)
    requires Sized(s) && |s.procs| >= 2 && Counts(s, pid, Perform(s, c)) && !c.WaitCall?
    ensures Succeeds(s, p, x, Perform(s, c)) && WaitsAddUp(s, c, x, p, Perform(s, c))
  {
    hide Perform;
    var t := Perform(s, c);
    p := Find(s.procs, pid, 0);
    if p == MISSING || t.procs == s.procs { p := 0; }
    x := t.procs[p];
    assert s.procs[p := s.procs[p]] == s.procs;
  }

  lemma SpawnChanges(s: Fs, ppid: nat, job: Job) returns (p: nat, x: Proc)
    requires Sized(s) && |s.procs| >= 2
    ensures var c := SpawnCall(ppid, job);
            Succeeds(s, p, x, Perform(s, c)) && WaitsAddUp(s, c, x, p, Perform(s, c))
  {
    hide ClaimTask;
    var t := Spawn(s, ppid, job).1;
    p := FreeSlot(s.procs, 2);
    if t.procs == s.procs || p == |s.procs| { p := 0; }
    x := t.procs[p];
    assert s.procs[p := s.procs[p]] == s.procs;
    var born := Newborn(s.nextPid, ppid);
    if p >= 2 && x.task != NO_TASK { ClaimedApart(s.procs, p, born, x.task, 2); }
  }

  /** A task that no process has once the entry is filled, none had before. */
  lemma {:induction false} ClaimedApart(procs: seq<Proc>, p: nat, x: Proc, task: nat, k: nat)
    requires p < |procs| < MISSING && k <= |procs| && procs[p].state == Free
    requires ByTask(procs[p := x], task, k) == MISSING
    ensures ByTask(procs, task, k) == MISSING
    decreases |procs| - k
  {
    if k < |procs| { ClaimedApart(procs, p, x, task, k + 1); }
  }

  /** Calls on one process by its pid. */
  lemma PidChanges(s: Fs, c: Call) returns (p: nat, x: Proc)
    requires Sized(s) && |s.procs| >= 2 && (c.ExitCall? || c.KillCall? || c.StopCall? || c.WaitCall?)
    ensures Succeeds(s, p, x, Perform(s, c)) && WaitsAddUp(s, c, x, p, Perform(s, c))
  {
    hide ReleaseFrom, Reap;
    p := Find(s.procs, c.pid, 0);
    if p == MISSING {
      p := 0;
    } else {
      ReleaseApart(s, p, 0);
      ReapChanges(s, p);
      if c.ExitCall? { ReapChanges(SetProc(s, p, s.procs[p].(state := Exited, status := c.status)), p); }
    }
    x := Perform(s, c).procs[p];
    assert s.procs[p := s.procs[p]] == s.procs;
  }

  /** Calls on the process that a task runs. */
  lemma TaskChanges(s: Fs, c: Call) returns (p: nat, x: Proc)
    requires Sized(s) && |s.procs| >= 2 && (c.StepCall? || c.FinalizeCall?)
    ensures Succeeds(s, p, x, Perform(s, c)) && WaitsAddUp(s, c, x, p, Perform(s, c))
  {
    hide Reap;
    p := ByTask(s.procs, c.task, 2);
    if p == MISSING { p := 0; } else { ReapChanges(s, p); }
    x := Perform(s, c).procs[p];
    assert s.procs[p := s.procs[p]] == s.procs;
  }

  /** A call changes one entry. */
  lemma Changes(s: Fs, c: Call) returns (p: nat, x: Proc)
    requires Sized(s) && |s.procs| >= 2
    ensures Succeeds(s, p, x, Perform(s, c)) && WaitsAddUp(s, c, x, p, Perform(s, c))
  {
    hide Open, Close, Dup2, Succeeds, WaitsAddUp, Counts, Sized;
    match c
    case OpenCall(pid, path, flags) => OpenCounts(s, pid, path, flags); p, x := FileChanges(s, c, pid);
    case CloseCall(pid, fd) => CloseCounts(s, pid, fd); p, x := FileChanges(s, c, pid);
    case Dup2Call(pid, a, b) => Dup2Counts(s, pid, a, b); p, x := FileChanges(s, c, pid);
    case SpawnCall(ppid, job) => p, x := SpawnChanges(s, ppid, job);
    case StepCall(_) => p, x := TaskChanges(s, c);
    case FinalizeCall(_) => p, x := TaskChanges(s, c);
    case _ => p, x := PidChanges(s, c);
  }

  /** Over any run of calls live processes keep distinct pids, and no two of them come to share a task. */
  lemma {:induction false} ProcessesIdentified(s: Fs, calls: seq<Call>)
    requires Sized(s) && |s.procs| >= 2 && Identified(s)
    ensures Identified(Run(s, calls))
    decreases |calls|
  {
    hide Identified, Perform, Succeeds;
    if calls != [] {
      var p, x := Changes(s, calls[0]);
      EntryIdentified(s, p, x, Perform(s, calls[0]));
      PerformSized(s, calls[0]);
      ProcessesIdentified(Perform(s, calls[0]), calls[1..]);
    }
  }

  function Registered(s: Fs, calls: seq<Call>): nat
    requires Sized(s) && |s.procs| >= 2
    decreases |calls|
  {
    if calls == [] then 0
    else PerformSized(s, calls[0]); Registers(s, calls[0]) + Registered(Perform(s, calls[0]), calls[1..])
  }

  function Abandoned(s: Fs, calls: seq<Call>): nat
    requires Sized(s) && |s.procs| >= 2
    decreases |calls|
  {
    if calls == [] then 0
    else PerformSized(s, calls[0]); Abandons(s, calls[0]) + Abandoned(Perform(s, calls[0]), calls[1..])
  }

  /** Over any run of calls each wait that blocked is answered once, is still waiting, or lost its child to
      another caller. */
  lemma {:induction false} WaitsConserved(s: Fs, calls: seq<Call>)
    requires Sized(s) && |s.procs| >= 2
    ensures var t := Run(s, calls);
            |t.notices| + Waiting(t.procs) + Abandoned(s, calls) ==
              |s.notices| + Waiting(s.procs) + Registered(s, calls)
    decreases |calls|
  {
    hide Perform, Registers, Abandons;
    if calls != [] {
      var p, x := Changes(s, calls[0]);
      WaitingSet(s.procs, p, x);
      PerformSized(s, calls[0]);
      WaitsConserved(Perform(s, calls[0]), calls[1..]);
    }
  }

  /** Killing a child answers nobody: a parent that waits for it goes on waiting, for a process that runs no
      further step. */
  lemma KillStrands(s: Fs, caller: nat, pid: nat, status: nat)
    requires Sized(s) && |s.procs| >= 2 && Identified(s) && Kill(s, caller, pid, status).0 == 0
    ensures var p, t := Find(s.procs, pid, 0), Kill(s, caller, pid, status).1;
            && t.notices == s.notices && Waiting(t.procs) == Waiting(s.procs)
            && t.procs[p].state == Exited && t.procs[p].waiter == s.procs[p].waiter
            && (p >= 2 && t.procs[p].task != NO_TASK ==> TaskStep(t, t.procs[p].task) == (0, None, t))
  {
    hide ReleaseFrom;
    var p, t := Find(s.procs, pid, 0), Kill(s, caller, pid, status).1;
    ReleaseApart(s, p, 0);
    assert t.procs == s.procs[p := t.procs[p]];
    WaitingSet(s.procs, p, t.procs[p]);
    if p >= 2 && t.procs[p].task != NO_TASK { OwnTask(t, p); }
  }

  lemma OwnTask(s: Fs, p: nat)
    requires |s.procs| < MISSING && Identified(s) && 2 <= p < |s.procs| && s.procs[p].state != Free
             && s.procs[p].task != NO_TASK
    ensures ByTask(s.procs, s.procs[p].task, 2) == p
  {
  }

  /** What the task of a process is to do, n steps on. */
  function StepAll(s: Fs, task: nat, n: nat): (t: Fs)
    requires Sized(s) && |s.procs| >= 2
    ensures Sized(t) && |t.procs| == |s.procs|
    decreases n
  {
    if n == 0 then s else StepAll(TaskStep(s, task).2, task, n - 1)
  }

  /** A program ends with the step after its last, whatever entry it runs. */
  lemma {:induction false} ProgramEnds(s: Fs, task: nat, n: nat)
    requires Sized(s) && |s.procs| >= 2
    requires var p := ByTask(s.procs, task, 2); p != MISSING && s.procs[p].state in {Ready, Exited}
    ensures var p, t := ByTask(s.procs, task, 2), StepAll(s, task, n);
            t.procs[p].state == if s.procs[p].state == Ready && n <= StepsLeft(s.procs[p]) then Ready else Exited
    decreases n
  {
    if n > 0 {
      var p, t := ByTask(s.procs, task, 2), TaskStep(s, task).2;
      SameTask(s.procs, p, t.procs[p], task, 2);
      assert s.procs[p := t.procs[p]] == t.procs;
      ProgramEnds(t, task, n - 1);
    }
  }

  lemma {:induction false} SameTask(procs: seq<Proc>, p: nat, x: Proc, task: nat, k: nat)
    requires k <= |procs| < MISSING && p < |procs|
    requires x.task == procs[p].task && (x.state == Free <==> procs[p].state == Free)
    ensures ByTask(procs[p := x], task, k) == ByTask(procs, task, k)
    decreases |procs| - k
  {
    if k < |procs| { SameTask(procs, p, x, task, k + 1); }
  }
}
