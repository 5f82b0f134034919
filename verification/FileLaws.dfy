/** What each process and descriptor call answers, and what it leaves, said of the tables themselves: which rows, which
    cells, which entries change, and that nothing else does. */
module FileLaws {
  import opened Common
  import opened FileTable

  /** Entry p is the live process with the pid, the first if there were several. */
  ghost predicate IsProc(s: Fs, pid: nat, p: nat) {
    && p < |s.procs| && s.procs[p].state != Free && s.procs[p].pid == pid
    && forall q :: 0 <= q < p && s.procs[q].state != Free ==> s.procs[q].pid != pid
  }

  ghost predicate NoProc(s: Fs, pid: nat) {
    forall q :: 0 <= q < |s.procs| && s.procs[q].state != Free ==> s.procs[q].pid != pid
  }

  lemma {:induction false} FindsFrom(s: Fs, pid: nat, k: nat)
    requires k <= |s.procs| < 255 && forall q :: 0 <= q < k && s.procs[q].state != Free ==> s.procs[q].pid != pid
    ensures forall p :: IsProc(s, pid, p) ==> Find(s.procs, pid, k) == p
    ensures NoProc(s, pid) ==> Find(s.procs, pid, k) == 255
    ensures Find(s.procs, pid, k) == 255 ==> NoProc(s, pid)
    ensures Find(s.procs, pid, k) != 255 ==> IsProc(s, pid, Find(s.procs, pid, k))
    decreases |s.procs| - k
  {
    if k < |s.procs| && !(s.procs[k].state != Free && s.procs[k].pid == pid) { FindsFrom(s, pid, k + 1); }
  }

  // ---------- descriptors ----------

  lemma {:induction false} LowestFd(row: Row, fd: nat)
    requires fd <= |row|
    ensures fd <= FreeFd(row, fd) && forall k :: fd <= k < FreeFd(row, fd) ==> row[k] >= 0
    decreases |row| - fd
  {
    if fd < |row| && row[fd] >= 0 { LowestFd(row, fd + 1); }
  }

  lemma {:induction false} LowestFile(files: seq<OpenFile>, k: nat)
    requires k <= |files|
    ensures k <= FreeFile(files, k) && forall j :: k <= j < FreeFile(files, k) ==> files[j].used
    decreases |files| - k
  {
    if k < |files| && files[k].used { LowestFile(files, k + 1); }
  }

  /** No descriptor from 3 on is free. */
  predicate RowFull(row: Row) { forall f :: 3 <= f < |row| ==> row[f] >= 0 }

  /** Opening gives the lowest free descriptor from 3 on, for the lowest unused open file, which then stands for the
      node with one reference; no other cell or file changes. A table without room is answered -24, an unknown
      process -22, a path without a node its own error, and then all descriptors stay as they were. */
  lemma OpenExactly(s: Fs, pid: nat, path: Resolved, flags: nat, p: nat)
    requires Sized(s) && IsProc(s, pid, p)
    ensures var (r, t) := Open(s, pid, path, flags); var row := s.rows[p];
            if path.Missing? then r == path.error && t == s
            else if (forall k :: 0 <= k < |s.files| ==> s.files[k].used) || RowFull(row) then
              r == -24 && t == s.(files := t.files) && |t.files| == |s.files|
              && forall k :: 0 <= k < |s.files| && s.files[k].used ==> t.files[k] == s.files[k]
            else
              && 3 <= r < |row| && row[r] < 0 && (forall f :: 3 <= f < r ==> row[f] >= 0)
              && var k := t.rows[p][r];
                 && 0 <= k < |s.files| && !s.files[k].used && (forall j :: 0 <= j < k ==> s.files[j].used)
                 && t.rows == s.rows[p := row[r := k]]
                 && t.files == s.files[k := OpenFile(true, path.kind, path.node, flags % 0x100, 1, pid)]
                 && t.procs == s.procs[p := s.procs[p].(fdCount := s.procs[p].fdCount + 1)]
  {
    FindsFrom(s, pid, 0);
    LowestFile(s.files, 0);
    if s.Width() >= 3 { LowestFd(s.rows[p], 3); }
  }

  lemma OpenUnknown(s: Fs, pid: nat, path: Resolved, flags: nat)
    requires Sized(s) && NoProc(s, pid)
    ensures Open(s, pid, path, flags) == (-22, s)
  {
    FindsFrom(s, pid, 0);
  }

  /** One reference less to file k; with the last the entry is cleared. */
  predicate Dropped(before: seq<OpenFile>, after: seq<OpenFile>, k: nat) {
    && k < |before| && before[k].refs > 0
    && after == before[k := if before[k].refs == 1 then UNUSED else before[k].(refs := before[k].refs - 1)]
  }

  /** Closing succeeds exactly for an open descriptor; it empties that cell and takes one reference from its file. */
  lemma CloseExactly(s: Fs, pid: nat, fd: int, p: nat)
    requires Sized(s) && Conserved(s) && IsProc(s, pid, p)
    ensures var (r, t) := Close(s, pid, fd); var row := s.rows[p];
            if 0 <= fd < |row| && row[fd] >= 0 then
              && r == 0 && t.rows == s.rows[p := row[fd := -1]] && Dropped(s.files, t.files, row[fd])
              && |t.procs| == |s.procs| && t.procs[p].fdCount + 1 == s.procs[p].fdCount
              && t.procs == s.procs[p := s.procs[p].(fdCount := t.procs[p].fdCount)]
            else r == -9 && t == s
  {
    FindsFrom(s, pid, 0);
    CellsInRange(s);
    if 0 <= fd < |s.rows[p]| && s.rows[p][fd] >= 0 {
      OwnCell(s, p, fd);
      hide Live, References, Total, InUse;
    }
  }

  lemma OwnCell(s: Fs, p: nat, fd: nat)
    requires Sized(s) && Conserved(s) && p < |s.rows| && fd < |s.rows[p]| && s.rows[p][fd] >= 0
    ensures s.files[s.rows[p][fd]].refs > 0 && s.procs[p].fdCount > 0
  {
    PointsIn(s.rows[p], fd, s.rows[p][fd]);
    Referenced(s.rows, p, s.rows[p][fd]);
    assert RowCounted(s, p);
  }

  /** Duplicating succeeds exactly from an open descriptor to one in range. Then both name the file that the old one
      named, whatever the new one named before, and no other cell of any process changes. */
  lemma Dup2Exactly(s: Fs, pid: nat, oldfd: int, newfd: int, p: nat)
    requires Sized(s) && Conserved(s) && IsProc(s, pid, p)
    ensures var (r, t) := Dup2(s, pid, oldfd, newfd); var row := s.rows[p];
            if 0 <= oldfd < |row| && row[oldfd] >= 0 && 0 <= newfd < |row| then
              && r == newfd && t.rows == s.rows[p := row[newfd := row[oldfd]]]
              && t.rows[p][oldfd] == t.rows[p][newfd] == row[oldfd] && t.files[row[oldfd]].used
              && t.files[row[oldfd]].kind == s.files[row[oldfd]].kind
              && t.files[row[oldfd]].node == s.files[row[oldfd]].node
            else r == -9 && t == s
  {
    hide Close, Live, References, Total, InUse;
    FindsFrom(s, pid, 0);
    CellsInRange(s);
    var row := s.rows[p];
    if 0 <= oldfd < |row| && row[oldfd] >= 0 && 0 <= newfd < |row| {
      if oldfd == newfd {
        assert row[newfd := row[oldfd]] == row;
        assert s.rows[p := row] == s.rows;
      } else if row[newfd] >= 0 {
        CloseExactly(s, pid, newfd, p);
        CloseConserves(s, pid, newfd);
        CellsInRange(Close(s, pid, newfd).1);
        assert row[newfd := -1][newfd := row[oldfd]] == row[newfd := row[oldfd]];
      }
    }
  }

  // ---------- processes ----------

  lemma {:induction false} ReleasedRow(s: Fs, p: nat, fd: nat)
    requires Sized(s) && p < |s.rows| && fd <= s.Width()
    ensures var t := ReleaseFrom(s, p, fd);
            && t.notices == s.notices && t.nextPid == s.nextPid && |t.rows| == |s.rows|
            && (forall q :: 0 <= q < |s.rows| && q != p ==> t.rows[q] == s.rows[q])
            && |t.rows[p]| == |s.rows[p]|
            && forall i :: 0 <= i < |s.rows[p]| ==> t.rows[p][i] == if i >= fd then -1 else s.rows[p][i]
    decreases s.Width() - fd
  {
    if fd < s.Width() { ReleasedRow(ReleaseCell(s, p, fd), p, fd + 1); }
  }

  /** Every descriptor of the process is closed and no other process's. */
  ghost predicate RowEmptied(s: Fs, t: Fs, p: nat) {
    && p < |s.rows| == |t.rows| && |t.rows[p]| == |s.rows[p]|
    && (forall q :: 0 <= q < |s.rows| && q != p ==> t.rows[q] == s.rows[q])
    && forall i :: 0 <= i < |t.rows[p]| ==> t.rows[p][i] == -1
  }

  /** Only the parent, the init process and the shell may kill, and only what they did not start with: the
      descriptors are closed, the entry waits to be reaped with its status, and nobody is told. */
  lemma KillExactly(s: Fs, caller: nat, pid: nat, status: nat, p: nat)
    requires Sized(s) && IsProc(s, pid, p)
    ensures var (r, t) := Kill(s, caller, pid, status); var x := s.procs[p];
            if pid <= 2 then r == -3 && t == s
            else if caller !in {x.ppid, 1, 2} then r == -13 && t == s
            else
              && r == 0 && RowEmptied(s, t, p) && t.notices == s.notices
              && t.procs == s.procs[p := x.(state := Exited, status := status, fdCount := 0)]
  {
    FindsFrom(s, pid, 0);
    ReleasedRow(s, p, 0);
    hide ReleaseFrom;
  }

  /** Stopping and resuming are for the same callers, for processes with a task, and only out of the opposite state. */
  lemma StopExactly(s: Fs, caller: nat, pid: nat, resume: bool, p: nat)
    requires Sized(s) && IsProc(s, pid, p)
    ensures var (r, t) := Stop(s, caller, pid, resume); var x := s.procs[p];
            if pid <= 2 || x.task == 255 then r == -3 && t == s
            else if caller !in {x.ppid, 1, 2} then r == -13 && t == s
            else if x.state != (if resume then Stopped else Ready) then r == -22 && t == s
            else r == 0 && t == s.(procs := s.procs[p := x.(state := if resume then Ready else Stopped)])
  {
    FindsFrom(s, pid, 0);
  }

  /** The entry is free again and its descriptors are closed. */
  ghost predicate Reaped(s: Fs, t: Fs, p: nat) {
    && RowEmptied(s, t, p) && p < |s.procs| == |t.procs| && t.procs == s.procs[p := t.procs[p]]
    && t.procs[p].state == Free && t.nextPid == s.nextPid
  }

  lemma ReapExactly(s: Fs, p: nat)
    requires Sized(s) && p < |s.rows|
    ensures Reaped(s, Reap(s, p), p) && Reap(s, p).notices == s.notices
    ensures Reaped(s, ReapAndWake(s, p), p)
            && ReapAndWake(s, p).notices == s.notices + [Notice(s.procs[p].waiter, s.procs[p].pid, s.procs[p].status)]
  {
    ReleasedRow(s, p, 0);
    hide ReleaseFrom;
  }

  /** A process with a task that exits is left for its parent with its status, or, if a task waits for it, is reaped
      at once and the task told its pid and status. Others cannot exit. */
  lemma ExitExactly(s: Fs, pid: nat, status: nat, p: nat)
    requires Sized(s) && IsProc(s, pid, p)
    ensures var (r, t) := Exit(s, pid, status); var x := s.procs[p];
            if pid <= 2 || x.task == 255 then r == 0 && t == s
            else if x.waiter == 255 then
              r == 1 && t == s.(procs := s.procs[p := x.(state := Exited, status := status)])
            else r == 1 && Reaped(s, t, p) && t.notices == s.notices + [Notice(x.waiter, pid, status)]
  {
    hide Reap, ReapAndWake;
    FindsFrom(s, pid, 0);
    var u := SetProc(s, p, s.procs[p].(state := Exited, status := status));
    ReapExactly(u, p);
    var y := ReapAndWake(u, p).procs[p];
    assert u.procs[p := y] == s.procs[p := y];
  }

  /** Only the parent may wait. An exited child is reaped and its pid and status returned; one that runs is awaited
      by at most one task. */
  lemma WaitExactly(s: Fs, caller: nat, pid: nat, task: Slot, p: nat)
    requires Sized(s) && IsProc(s, pid, p)
    ensures var (r, status, t) := Wait(s, caller, pid, task); var x := s.procs[p];
            if x.ppid != caller then r == -10 && status == None && t == s
            else if x.state == Exited then
              r == pid && status == Some(x.status) && Reaped(s, t, p) && t.notices == s.notices
            else if x.waiter != 255 then r == -16 && status == None && t == s
            else r == 0x7FFF_FFFE && status == None && t == s.(procs := s.procs[p := x.(waiter := task)])
  {
    hide Reap;
    FindsFrom(s, pid, 0);
    ReapExactly(s, p);
  }

  /** Calls on a pid that nobody has. */
  lemma NobodyAnswers(s: Fs, caller: nat, pid: nat, status: nat, task: Slot, fd: int, newfd: int)
    requires Sized(s) && NoProc(s, pid)
    ensures Kill(s, caller, pid, status) == (-3, s) && Exit(s, pid, status) == (0, s)
    ensures Stop(s, caller, pid, true) == Stop(s, caller, pid, false) == (-3, s)
    ensures Wait(s, caller, pid, task) == (-10, None, s)
    ensures Close(s, pid, fd) == (-9, s) && Dup2(s, pid, fd, newfd) == (-9, s)
  {
    FindsFrom(s, pid, 0);
  }

  lemma {:induction false} LowestSlot(procs: seq<Proc>, p: nat)
    requires p <= |procs|
    ensures p <= FreeSlot(procs, p) && forall q :: p <= q < FreeSlot(procs, p) ==> procs[q].state != Free
    decreases |procs| - p
  {
    if p < |procs| && procs[p].state != Free { LowestSlot(procs, p + 1); }
  }

  /** A dynamic task that is blocked and that no process has. */
  ghost predicate TaskFree(s: Fs, job: Job, k: nat) {
    && job.Job? && !job.appRunning && k in job.blocked && (k == 11 || k == 12)
    && forall q :: 2 <= q < |s.procs| && s.procs[q].state != Free ==> s.procs[q].task != k
  }

  /** A new process needs a live parent, a free entry, a known program, and, if it is to run one, a dynamic task that is
      free while no application runs: it gets the lowest of each. */
  lemma SpawnExactly(s: Fs, ppid: nat, job: Job)
    requires Sized(s) && |s.procs| >= 2
    ensures var (r, t) := Spawn(s, ppid, job);
            if job.Job? && !(1 <= job.entry <= 4) then r == -22 && t == s
            else if NoProc(s, ppid) || (forall q :: 2 <= q < |s.procs| ==> s.procs[q].state != Free) then
              r == -12 && t == s
            else if job.Job? && job.appRunning then r == -16 && t.procs == s.procs[FreeSlot(s.procs, 2) := NOBODY]
            else if job.Job? && !TaskFree(s, job, 11) && !TaskFree(s, job, 12) then
              r == -11 && t.procs == s.procs[FreeSlot(s.procs, 2) := NOBODY]
            else
              && r == s.nextPid && t.nextPid == s.nextPid + 1
              && exists p :: 2 <= p < |s.procs| && s.procs[p].state == Free
                   && (forall q :: 2 <= q < p ==> s.procs[q].state != Free)
                   && RowEmptied(s, t, p) && t.procs == s.procs[p := t.procs[p]]
                   && var x := t.procs[p];
                      && x.state == Ready && x.pid == s.nextPid && x.ppid == ppid && x.fdCount == x.progress == 0
                      && x.waiter == 255
                      && x.task == (if job.NoJob? then 255 else if TaskFree(s, job, 11) then 11 else 12)
                      && (job.Job? ==> x.entry == job.entry && x.argument == job.argument)
  {
    hide ClaimTask, Find, FreeSlot, TaskFree;
    FindsFrom(s, ppid, 0);
    LowestSlot(s.procs, 2);
    var p := FreeSlot(s.procs, 2);
    if p < |s.procs| && job.Job? {
      var u := s.(procs := s.procs[p := Newborn(s.nextPid, ppid)]);
      ClaimExactly(u, job);
      SameFree(s, p, Newborn(s.nextPid, ppid), job, 11);
      SameFree(s, p, Newborn(s.nextPid, ppid), job, 12);
    }
  }

  lemma SameFree(s: Fs, p: nat, x: Proc, job: Job, k: nat)
    requires p < |s.procs| && s.procs[p].state == Free && x.task == 255 && k < 255
    ensures TaskFree(s.(procs := s.procs[p := x]), job, k) <==> TaskFree(s, job, k)
  {
    var t := s.(procs := s.procs[p := x]);
    assert forall q :: 0 <= q < |s.procs| && q != p ==> t.procs[q] == s.procs[q];
  }

  lemma ClaimExactly(s: Fs, job: Job)
    requires 2 <= |s.procs| < 255 && job.Job?
    ensures ClaimTask(s.procs, job.appRunning, job.blocked, 11) ==
              if job.appRunning then Refused(-16)
              else if TaskFree(s, job, 11) then Claimed(11)
              else if TaskFree(s, job, 12) then Claimed(12)
              else Refused(-11)
  {
    hide ByTask;
  }

  /** What a task is to do next for the process it runs: print the argument, count up to it or to 16, sleep, or
      send, and then end with status 0. Nothing else changes; a stopped, exited or missing process does nothing. */
  lemma TaskStepExactly(s: Fs, task: nat, p: nat)
    requires Sized(s) && 2 <= p < |s.procs| && s.procs[p].state != Free && s.procs[p].task == task
    requires forall q :: 2 <= q < p && s.procs[q].state != Free ==> s.procs[q].task != task
    ensures var (r, value, t) := TaskStep(s, task); var x := s.procs[p];
            if x.state != Ready then r == 0 && value == None && t == s
            else if x.entry == 2 && x.progress < 16 && x.progress < x.argument then
              && r == 2 && value == Some(x.progress + 1)
              && t == s.(procs := s.procs[p := x.(progress := x.progress + 1)])
            else if x.entry in {1, 3, 4} && x.progress == 0 then
              r == x.entry && value == Some(x.argument) && t == s.(procs := s.procs[p := x.(progress := 1)])
            else r == -1 && value == None && t == s.(procs := s.procs[p := x.(state := Exited, status := 0)])
  {
    TaskFound(s.procs, task, p, 2);
  }

  lemma {:induction false} TaskFound(procs: seq<Proc>, task: nat, p: nat, k: nat)
    requires 2 <= k <= p < |procs| < 255 && procs[p].state != Free && procs[p].task == task
    requires forall q :: k <= q < p && procs[q].state != Free ==> procs[q].task != task
    ensures ByTask(procs, task, k) == p
    decreases p - k
  {
    if k < p { TaskFound(procs, task, p, k + 1); }
  }

  /** A program that has ended is reaped with the notice its waiting parent gets. */
  lemma FinalizeExactly(s: Fs, task: nat, p: nat)
    requires Sized(s) && 2 <= p < |s.procs| && s.procs[p].state != Free && s.procs[p].task == task
    requires forall q :: 2 <= q < p && s.procs[q].state != Free ==> s.procs[q].task != task
    ensures var t, x := Finalize(s, task), s.procs[p];
            if x.state == Exited && x.waiter != 255 then
              Reaped(s, t, p) && t.notices == s.notices + [Notice(x.waiter, x.pid, x.status)]
            else t == s
  {
    hide ReapAndWake, Reap;
    TaskFound(s.procs, task, p, 2);
    ReapExactly(s, p);
  }
}
