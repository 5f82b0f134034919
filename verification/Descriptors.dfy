/** The process and descriptor tables as the kernel keeps them: arrays updated cell by cell. Every call has
    the effect and the result that FileTable gives it. */
module Descriptors {
  import opened Common
  import opened FileTable

  /** The init process runs in task 10, the shell in task 1. */
  function FirstProc(i: nat): (x: Proc)
    ensures x.fdCount == 0 && (x.state != Free ==> i < 2 && x.pid == i + 1)
  {
    if i == 0 then Newborn(1, 0).(task := 10) else if i == 1 then Newborn(2, 1).(task := 1) else NOBODY
  }

  class ObjectTable {
    const table: array2<int>
    const files: array<OpenFile>
    const procs: array<Proc>
    var opens: nat
    var closes: nat
    var openCount: nat
    var nextPid: nat
    var notices: seq<Notice>

    ghost function RowOf(p: nat): (r: Row)
      requires p < table.Length0
      reads table
      ensures |r| == table.Length1
    {
      seq(table.Length1, f requires 0 <= f < table.Length1 reads table => table[p, f])
    }

    ghost function Rows(): (r: seq<Row>)
      reads table
      ensures |r| == table.Length0 && forall p :: 0 <= p < |r| ==> r[p] == RowOf(p)
    {
      seq(table.Length0, p requires 0 <= p < table.Length0 reads table => RowOf(p))
    }

    ghost predicate Valid() {
      2 <= table.Length0 == procs.Length < MISSING && files.Length < MISSING
    }

    ghost function Abstract(): (s: Fs)
      requires Valid()
      reads this, table, files, procs
      ensures Sized(s) && |s.procs| >= 2 && s.Width() == table.Length1
    {
      Fs(Rows(), files[..], procs[..], opens, closes, openCount, nextPid, notices)
    }

    /** The init and shell processes, no descriptor in use. */
    constructor (processes: nat, descriptors: nat, openFiles: nat)
      requires 2 <= processes < MISSING && openFiles < MISSING
      ensures Valid() && Conserved(Abstract()) && Identified(Abstract()) && fresh(table) && fresh(files) && fresh(procs)
    {
      table := new int[processes, descriptors]((_, _) => -1);
      files := new OpenFile[openFiles](_ => UNUSED);
      procs := new Proc[processes](i => FirstProc(i));
      opens, closes, openCount, nextPid, notices := 0, 0, 0, 3, [];
      new;
      hide FirstProc, Conserved, Identified;
      Quiet(Abstract());
    }

    static lemma {:induction false} NoneUsed(files: seq<OpenFile>)
      requires forall k :: 0 <= k < |files| ==> !files[k].used
      ensures InUse(files) == 0
      decreases |files|
    {
      if files != [] { NoneUsed(files[1..]); }
    }

    static lemma {:induction false} NoneLive(rows: seq<Row>)
      requires forall p, i :: 0 <= p < |rows| && 0 <= i < |rows[p]| ==> rows[p][i] < 0
      ensures Total(rows) == 0 && forall k :: k >= 0 ==> References(rows, k) == 0
      decreases |rows|
    {
      if rows != [] {
        EmptyRow(rows[0]);
        NoneLive(rows[1..]);
      }
    }

    static lemma Quiet(s: Fs)
      requires Sized(s) && s.opens == s.closes == s.openCount == 0
      requires forall p, i :: 0 <= p < |s.rows| && 0 <= i < |s.rows[p]| ==> s.rows[p][i] == -1
      requires forall k :: 0 <= k < |s.files| ==> s.files[k] == UNUSED
      requires s.nextPid == 3 && forall p :: 0 <= p < |s.procs| ==> s.procs[p] == FirstProc(p)
      ensures Conserved(s) && Identified(s)
    {
      NoneUsed(s.files);
      NoneLive(s.rows);
      forall p | 0 <= p < |s.procs| ensures RowCounted(s, p) { EmptyRow(s.rows[p]); }
    }

    // ---------- small steps ----------

    method SetTable(p: nat, fd: nat, v: int)
      requires Valid() && p < table.Length0 && fd < table.Length1
      modifies table
      ensures Abstract() == SetCell(old(Abstract()), p, fd, v)
    {
      table[p, fd] := v;
      assert Rows()[p] == old(Rows())[p][fd := v];
      assert forall q :: 0 <= q < table.Length0 && q != p ==> RowOf(q) == old(RowOf(q));
      assert Rows() == old(Rows())[p := old(Rows())[p][fd := v]];
    }

    method ProcessByPid(pid: nat) returns (p: nat)
      requires Valid()
      ensures p == Find(procs[..], pid, 0)
    {
      p := 0;
      while p < procs.Length
        invariant p <= procs.Length && Find(procs[..], pid, 0) == Find(procs[..], pid, p)
      {
        if procs[p].state != Free && procs[p].pid == pid { return; }
        p := p + 1;
      }
      return MISSING;
    }

    method Dereference(k: nat)
      requires Valid() && k < files.Length
      modifies files, this`openCount
      ensures Abstract() == DropReference(old(Abstract()), k)
    {
      if files[k].refs > 0 { files[k] := files[k].(refs := files[k].refs - 1); }
      if files[k].refs == 0 {
        files[k] := UNUSED;
        if openCount > 0 { openCount := openCount - 1; }
      }
    }

    method Uncount(p: nat)
      requires Valid() && p < procs.Length
      modifies procs
      ensures procs[..] == old(procs[..])[p := old(procs[p]).(fdCount := Less(old(procs[p]).fdCount))]
    {
      if procs[p].fdCount > 0 { procs[p] := procs[p].(fdCount := procs[p].fdCount - 1); }
    }

    method AllocateFd(p: nat, k: nat) returns (fd: int)
      requires Valid() && p < procs.Length
      modifies table, procs
      ensures var s := old(Abstract()); var f := if s.Width() < 3 then s.Width() else FreeFd(s.rows[p], 3);
              if f == s.Width() then fd == -24 && Abstract() == s
              else fd == f && Abstract() == SetProc(SetCell(s, p, f, k), p,
                                                    s.procs[p].(fdCount := s.procs[p].fdCount + 1))
    {
      var f: nat := 3;
      while f < table.Length1
        invariant 3 <= f && (table.Length1 >= 3 ==> f <= table.Length1 && FreeFd(RowOf(p), 3) == FreeFd(RowOf(p), f))
      {
        if table[p, f] < 0 {
          SetTable(p, f, k);
          procs[p] := procs[p].(fdCount := procs[p].fdCount + 1);
          return f;
        }
        f := f + 1;
      }
      return -24;
    }

    // ---------- calls ----------

    method VfsOpen(pid: nat, path: Resolved, flags: nat) returns (r: int)
      requires Valid()
      modifies this, table, files, procs
      ensures (r, Abstract()) == Open(old(Abstract()), pid, path, flags)
    {
      hide Find, FreeFd, SetCell;
      var p := ProcessByPid(pid);
      if p == MISSING { return -22; }
      if path.Missing? { return path.error; }
      var k := 0;
      while k < files.Length
        invariant k <= files.Length && FreeFile(files[..], 0) == FreeFile(files[..], k)
        invariant unchanged(this, table, files, procs)
      {
        if !files[k].used {
          r := TakeFile(p, k, OpenFile(true, path.kind, path.node, flags % 0x100, 1, pid));
          return;
        }
        k := k + 1;
      }
      return -24;
    }

    /** Fills description k and finds a descriptor for it, or clears it again. */
    method TakeFile(p: nat, k: nat, file: OpenFile) returns (r: int)
      requires Valid() && p < procs.Length && k < files.Length
      modifies this, table, files, procs
      ensures var s := old(Abstract()); var fd := if s.Width() < 3 then s.Width() else FreeFd(s.rows[p], 3);
              if fd == s.Width() then r == -24 && Abstract() == s.(files := s.files[k := UNUSED])
              else
                var u := SetProc(SetCell(s, p, fd, k), p, s.procs[p].(fdCount := s.procs[p].fdCount + 1));
                r == fd
                && Abstract() == u.(files := s.files[k := file], openCount := s.openCount + 1, opens := s.opens + 1)
    {
      files[k] := file;
      r := AllocateFd(p, k);
      if r < 0 {
        files[k] := UNUSED;
        assert files[..] == old(files[..])[k := UNUSED];
        return;
      }
      openCount, opens := openCount + 1, opens + 1;
    }

    method VfsClose(pid: nat, fd: int) returns (r: int)
      requires Valid()
      modifies this, table, files, procs
      ensures (r, Abstract()) == Close(old(Abstract()), pid, fd)
    {
      hide DropReference, Find;
      var p := ProcessByPid(pid);
      if p == MISSING || fd < 0 || fd >= table.Length1 { return -9; }
      var k := table[p, fd];
      if k < 0 || k >= files.Length || !files[k].used { return -9; }
      SetTable(p, fd, -1);
      Uncount(p);
      Dereference(k);
      closes := closes + 1;
      return 0;
    }

    method VfsDup2(pid: nat, oldfd: int, newfd: int) returns (r: int)
      requires Valid() && Conserved(Abstract())
      modifies this, table, files, procs
      ensures (r, Abstract()) == Dup2(old(Abstract()), pid, oldfd, newfd)
    {
      hide Close, Conserved, Find;
      ghost var s := Abstract();
      var p := ProcessByPid(pid);
      if p == MISSING || oldfd < 0 || oldfd >= table.Length1 { return -9; }
      var k := table[p, oldfd];
      if k < 0 || newfd < 0 || newfd >= table.Length1 { return -9; }
      if oldfd == newfd { return newfd; }
      CellsInRange(s);
      assert s.rows[p][oldfd] == k;
      if table[p, newfd] >= 0 {
        CloseOnly(s, pid, newfd, p);
        r := VfsClose(pid, newfd);
        if r != 0 { return; }
      }
      Share(p, newfd, k);
      return newfd;
    }

    method Share(p: nat, fd: nat, k: nat)
      requires Valid() && p < procs.Length && fd < table.Length1 && k < files.Length
      modifies this`opens, table, files, procs
      ensures var s := old(Abstract());
              Abstract() == SetProc(SetCell(s, p, fd, k), p, s.procs[p].(fdCount := s.procs[p].fdCount + 1)).(
                              files := s.files[k := s.files[k].(refs := s.files[k].refs + 1)], opens := s.opens + 1)
    {
      SetTable(p, fd, k);
      files[k] := files[k].(refs := files[k].refs + 1);
      procs[p] := procs[p].(fdCount := procs[p].fdCount + 1);
      opens := opens + 1;
    }

    method FdReleaseOwned(p: nat)
      requires Valid() && p < procs.Length
      modifies this, table, files, procs
      ensures Abstract() == ReleaseOwned(old(Abstract()), p)
    {
      hide DropReference, SetCell;
      ghost var s := Abstract();
      var fd := 0;
      while fd < table.Length1
        invariant fd <= table.Length1 && Valid() && ReleaseFrom(Abstract(), p, fd) == ReleaseFrom(s, p, 0)
      {
        ghost var t := Abstract();
        var k := table[p, fd];
        assert t.rows[p][fd] == k;
        SetTable(p, fd, -1);
        if 0 <= k < files.Length && files[k].used {
          Dereference(k);
          closes := closes + 1;
        }
        assert Abstract() == ReleaseCell(t, p, fd);
        fd := fd + 1;
      }
      procs[p] := procs[p].(fdCount := 0);
    }

    method ReapProcess(p: nat)
      requires Valid() && p < procs.Length
      modifies this, table, files, procs
      ensures Abstract() == Reap(old(Abstract()), p)
    {
      hide ReleaseOwned;
      FdReleaseOwned(p);
      procs[p] := NOBODY;
    }

    method ProcessByTask(task: nat) returns (p: nat)
      requires Valid()
      ensures p == ByTask(procs[..], task, 2)
    {
      p := 2;
      while p < procs.Length
        invariant 2 <= p <= procs.Length && ByTask(procs[..], task, 2) == ByTask(procs[..], task, p)
      {
        if procs[p].state != Free && procs[p].task == task { return; }
        p := p + 1;
      }
      return MISSING;
    }

    method ClaimSlot(appRunning: bool, blocked: set<nat>) returns (c: Claim)
      requires Valid()
      ensures c == ClaimTask(procs[..], appRunning, blocked, FIRST_DYNAMIC)
    {
      if appRunning { return Refused(-16); }
      var slot := FIRST_DYNAMIC;
      while slot <= LAST_DYNAMIC
        invariant FIRST_DYNAMIC <= slot <= LAST_DYNAMIC + 1
        invariant ClaimTask(procs[..], appRunning, blocked, FIRST_DYNAMIC) ==
                    ClaimTask(procs[..], appRunning, blocked, slot)
      {
        var p := ProcessByTask(slot);
        if slot in blocked && p == MISSING { return Claimed(slot); }
        slot := slot + 1;
      }
      return Refused(-11);
    }

    method ProcessSpawn(ppid: nat, job: Job) returns (r: int)
      requires Valid()
      modifies this, table, procs
      ensures (r, Abstract()) == Spawn(old(Abstract()), ppid, job)
    {
      hide ClaimTask, Find;
      if job.Job? && !(PRINT <= job.entry <= IPC_SEND) { return -22; }
      var parent := ProcessByPid(ppid);
      if parent == MISSING { return -12; }
      var p := 2;
      while p < procs.Length
        invariant 2 <= p <= procs.Length && FreeSlot(procs[..], 2) == FreeSlot(procs[..], p)
        invariant unchanged(this, table, procs)
      {
        if procs[p].state == Free {
          r := Occupy(p, ppid, job);
          return;
        }
        p := p + 1;
      }
      return -12;
    }

    /** Fills entry p and finds a task for it if it wants one, or clears it again. */
    method Occupy(p: nat, ppid: nat, job: Job) returns (r: int)
      requires Valid() && 2 <= p < procs.Length
      modifies this, table, procs
      ensures var s, x := old(Abstract()), Newborn(old(nextPid), ppid);
              var t := SetProc(s.(rows := s.rows[p := seq(s.Width(), _ => -1)], nextPid := s.nextPid + 1), p, x);
              if job.NoJob? then r == x.pid && Abstract() == t
              else
                match ClaimTask(t.procs, job.appRunning, job.blocked, FIRST_DYNAMIC)
                case Refused(error) => r == error && Abstract() == SetProc(t, p, NOBODY)
                case Claimed(k) =>
                  r == x.pid
                  && Abstract() == SetProc(t, p, x.(task := k, entry := job.entry, argument := job.argument))
    {
      hide ClaimTask;
      ClearRow(p);
      procs[p] := Newborn(nextPid, ppid);
      nextPid := nextPid + 1;
      if job.NoJob? { return procs[p].pid; }
      var c := ClaimSlot(job.appRunning, job.blocked);
      if c.Refused? {
        procs[p] := NOBODY;
        return c.error;
      }
      procs[p] := procs[p].(task := c.task, entry := job.entry, argument := job.argument);
      return procs[p].pid;
    }

    method ClearRow(p: nat)
      requires Valid() && p < table.Length0
      modifies table
      ensures var s := old(Abstract()); Abstract() == s.(rows := s.rows[p := seq(s.Width(), _ => -1)])
    {
      forall f | 0 <= f < table.Length1 { table[p, f] := -1; }
      assert Rows()[p] == seq(table.Length1, _ => -1);
      assert forall q :: 0 <= q < table.Length0 && q != p ==> RowOf(q) == old(RowOf(q));
      assert Rows() == old(Rows())[p := seq(table.Length1, _ => -1)];
    }

    method ReapProcessAndWake(p: nat)
      requires Valid() && p < procs.Length
      modifies this, table, files, procs
      ensures Abstract() == ReapAndWake(old(Abstract()), p)
    {
      hide Reap;
      var notice := Notice(procs[p].waiter, procs[p].pid, procs[p].status);
      ReapChanges(Abstract(), p);
      ReapProcess(p);
      notices := notices + [notice];
    }

    method ProcessExit(pid: nat, status: nat) returns (r: int)
      requires Valid()
      modifies this, table, files, procs
      ensures (r, Abstract()) == Exit(old(Abstract()), pid, status)
    {
      hide ReapAndWake;
      var p := ProcessByPid(pid);
      if p == MISSING || procs[p].task == NO_TASK || pid <= 2 { return 0; }
      procs[p] := procs[p].(state := Exited, status := status);
      if procs[p].waiter != NO_TASK { ReapProcessAndWake(p); }
      return 1;
    }

    /** One step of the process that the task runs. */
    method ProcessTaskStep(task: nat) returns (r: int, value: Option<nat>)
      requires Valid()
      modifies procs
      ensures (r, value, Abstract()) == TaskStep(old(Abstract()), task)
    {
      hide ByTask;
      value := None;
      var p := ProcessByTask(task);
      if p == MISSING || procs[p].state != Ready { return 0, None; }
      var x := procs[p];
      if x.entry == PRINT {
        if x.progress == 0 {
          procs[p] := x.(progress := 1);
          return 1, Some(x.argument);
        }
      } else if x.entry == COUNT {
        var limit := x.argument;
        if limit > 16 { limit := 16; }
        if x.progress < limit {
          procs[p] := x.(progress := x.progress + 1);
          return 2, Some(x.progress + 1);
        }
      } else if x.entry == SLEEP_EXIT {
        if x.progress == 0 {
          procs[p] := x.(progress := 1);
          return 3, Some(x.argument);
        }
      } else if x.entry == IPC_SEND {
        if x.progress == 0 {
          procs[p] := x.(progress := 1);
          return 4, Some(x.argument);
        }
      }
      procs[p] := x.(state := Exited, status := 0);
      return -1, None;
    }

    method FinalizeTaskExit(task: nat)
      requires Valid()
      modifies this, table, files, procs
      ensures Abstract() == Finalize(old(Abstract()), task)
    {
      hide ByTask, ReapAndWake;
      var p := ProcessByTask(task);
      if p != MISSING && procs[p].state == Exited && procs[p].waiter != NO_TASK { ReapProcessAndWake(p); }
    }

    method ProcessStop(caller: nat, pid: nat, resume: bool) returns (r: int)
      requires Valid()
      modifies procs
      ensures (r, Abstract()) == Stop(old(Abstract()), caller, pid, resume)
    {
      hide Find;
      var p := ProcessByPid(pid);
      if p == MISSING || pid <= 2 || procs[p].task == NO_TASK { return -3; }
      if caller != procs[p].ppid && caller != 1 && caller != 2 { return -13; }
      if resume {
        if procs[p].state != Stopped { return -22; }
        procs[p] := procs[p].(state := Ready);
      } else {
        if procs[p].state != Ready { return -22; }
        procs[p] := procs[p].(state := Stopped);
      }
      return 0;
    }

    method ProcessKill(caller: nat, pid: nat, status: nat) returns (r: int)
      requires Valid()
      modifies this, table, files, procs
      ensures (r, Abstract()) == Kill(old(Abstract()), caller, pid, status)
    {
      hide ReleaseOwned;
      var p := ProcessByPid(pid);
      if p == MISSING || pid <= 2 { return -3; }
      if caller != procs[p].ppid && caller != 1 && caller != 2 { return -13; }
      FdReleaseOwned(p);
      procs[p] := procs[p].(state := Exited, status := status);
      return 0;
    }

    method ProcessWait(caller: nat, pid: nat, task: Slot) returns (r: int, status: Option<nat>)
      requires Valid()
      modifies this, table, files, procs
      ensures (r, status, Abstract()) == Wait(old(Abstract()), caller, pid, task)
    {
      hide Reap;
      var p := ProcessByPid(pid);
      if p == MISSING || procs[p].ppid != caller { return -10, None; }
      if procs[p].state == Exited {
        status := Some(procs[p].status);
        ReapProcess(p);
        return pid, status;
      }
      if procs[p].waiter != NO_TASK { return -16, None; }
      procs[p] := procs[p].(waiter := task);
      return PENDING, None;
    }
  }
}
