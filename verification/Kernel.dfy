/** The kernel's scheduler over its arrays and linked lists: every routine does exactly what the state
    machine of Scheduling says. */
module Kernel {
  import opened Common
  import R = ReadyList
  import Z = SleepQueue
  import Ipc
  import I = IpcTable
  import opened Scheduling
  import opened SchedulerRuns

  /** Waking does not look at the sleep queue. */
  lemma WakeApart(s: Sys, i: nat, q: Z.Deltas)
    requires i < |s.tasks|
    ensures Wake(s.(sleepers := q), i) == Wake(s, i).(sleepers := q)
  {
    hide R.Enqueue, Replenish;
  }

  /** One turn of the wake-up loop. */
  lemma AdvanceTurn(s: Sys, elapsed: nat)
    requires forall k :: 0 <= k < |s.sleepers| ==> s.sleepers[k].task < |s.tasks|
    requires elapsed > 0 && s.sleepers != [] && s.sleepers[0].delta <= elapsed
    ensures var s1 := Wake(s.(sleepers := s.sleepers[1..]), s.sleepers[0].task);
            && (forall k :: 0 <= k < |s1.sleepers| ==> s1.sleepers[k].task < |s1.tasks|)
            && SleepAdvance(s, elapsed) == SleepAdvance(s1, elapsed - s.sleepers[0].delta)
  {
    hide Wake;
    var q, i, left := s.sleepers, s.sleepers[0].task, elapsed - s.sleepers[0].delta;
    var s1 := Wake(s.(sleepers := q[1..]), i);
    var r := Z.Advance(q[1..], left);
    WakeApart(s, i, q[1..]);
    WakeApart(s, i, r.1);
    assert s1.sleepers == q[1..];
    WokenInRange(q, elapsed, |s.tasks|);
    WokenInRange(q[1..], left, |s.tasks|);
    assert ([i] + r.0)[1..] == r.0;
    assert s1.(sleepers := r.1) == Wake(s.(sleepers := r.1), i);
  }

  ghost predicate InRange(s: Sys) {
    |s.tasks| == MAX_TASKS && forall k :: 0 <= k < |s.sleepers| ==> s.sleepers[k].task < |s.tasks|
  }

  lemma ReadyApart(s: Sys, q: Z.Deltas)
    ensures s.ReadyOk() ==> s.(sleepers := q).ReadyOk()
  {
  }

  lemma AdvanceStops(s: Sys, elapsed: nat)
    requires InRange(s) && s.sleepers != [] && s.sleepers[0].delta > elapsed
    ensures var s1 := s.(sleepers := Z.Advance(s.sleepers, elapsed).1);
            InRange(s1) && SleepAdvance(s, elapsed) == s1 == SleepAdvance(s1, 0)
  {
    WokenInRange(s.sleepers, elapsed, |s.tasks|);
  }

  lemma AdvanceEnds(s: Sys, elapsed: nat)
    requires InRange(s) && (elapsed == 0 || s.sleepers == [])
    ensures SleepAdvance(s, elapsed) == s
  {
  }

  class Kernel {
    const tasks: array<Task>
    const ready: R.ReadyQueues
    const sleep: Z.DeltaQueue
    var current: nat
    var ticks: nat
    var rtUsed: nat
    var rtStart: nat
    var throttled: bool
    var resched: bool

    ghost function Parts(): set<object> {
      {this, tasks, ready, ready.head, ready.tail, ready.next, sleep, sleep.next, sleep.delta}
    }

    ghost predicate Linked()
      reads Parts()
    {
      && tasks.Length == MAX_TASKS && ready.Valid() && sleep.Valid()
      && ready.head != sleep.next && ready.head != sleep.delta && ready.tail != sleep.next && ready.tail != sleep.delta
      && ready.next != sleep.next && ready.next != sleep.delta
    }

    ghost function Abstract(): Sys
      requires Linked()
      reads Parts()
    {
      Sys(tasks[..], current, ticks, ready.queues, sleep.Contents(), rtUsed, rtStart, throttled, resched)
    }

    ghost predicate Valid()
      reads Parts()
    {
      Linked() && Abstract().Valid()
    }

    constructor (table: seq<Task>)
      requires |table| == MAX_TASKS && table[0].policy == Idle
      requires forall i :: 0 <= i < MAX_TASKS ==> table[i].weight > 0 && table[i].state == Blocked
      ensures Valid() && fresh(Parts())
      ensures Abstract() == Sys(table, 0, 0, seq(R.LEVELS, _ => []), [], 0, 0, false, false)
    {
      tasks := new Task[13](i requires 0 <= i < 13 => table[i]);
      ready := new R.ReadyQueues();
      sleep := new Z.DeltaQueue();
      current, ticks, rtUsed, rtStart, throttled, resched := 0, 0, 0, 0, false, false;
      new;
      assert tasks[..] == table;
      assert sleep.Contents() == [];
    }

    // ---------- waking ----------

    /** A task made ready while it is queued for sleep takes those behind it out of the queue. */
    method TaskMakeReady(i: nat)
      requires Linked() && i < MAX_TASKS
               && (tasks[i].state != Ready && IsRt(tasks[i].policy) ==> !R.Queued(ready.queues, i))
      modifies Parts()
      ensures Linked()
      ensures Abstract() == var s := old(Abstract());
              if s.tasks[i].state == Ready then s else MakeReady(s, i).(sleepers := Z.Cut(s.sleepers, i))
      ensures old(i !in sleep.order) ==> Abstract() == MakeReady(old(Abstract()), i)
      ensures old(tasks[i].state) != Ready ==> sleep.next[i] == INVALID && sleep.delta[i] == 0
    {
      hide R.ReadyQueues.Valid, R.Enqueue, R.Queued, Z.DeltaQueue.Valid, Z.DeltaQueue.Contents, Z.Cut;
      if tasks[i].state == Ready { return; }
      tasks[i] := tasks[i].(state := Ready);
      sleep.Detach(i);
      if IsRt(tasks[i].policy) { ready.RtEnqueue(i, tasks[i].prio); }
      resched := true;
    }

    method WakeTask(i: nat)
      requires Linked() && i < MAX_TASKS && Abstract().ReadyOk() && i !in sleep.order
      modifies Parts()
      ensures Linked() && Abstract() == Wake(old(Abstract()), i)
    {
      hide R.ReadyQueues.Valid, R.Disjoint;
      if tasks[i].policy == Deadline {
        tasks[i] := tasks[i].(remaining := tasks[i].runtime, absDeadline := ticks + tasks[i].period,
                              nextRelease := ticks + tasks[i].period);
      }
      assert tasks[i].state != Ready ==> !R.Queued(ready.queues, i) by {
        if tasks[i].state != Ready { NotQueued(old(Abstract()), i); }
      }
      TaskMakeReady(i);
    }

    static lemma NotQueued(s: Sys, i: nat)
      requires s.ReadyOk() && i < |s.tasks| && s.tasks[i].state != Ready
      ensures !R.Queued(s.ready, i)
    {
      hide R.Disjoint;
    }

    method SleepAdvance(elapsed: nat)
      requires Linked() && Abstract().ReadyOk() && InRange(Abstract())
      modifies Parts()
      ensures Linked() && Abstract() == Scheduling.SleepAdvance(old(Abstract()), elapsed)
    {
      hide R.ReadyQueues.Valid, Z.DeltaQueue.Valid, R.Disjoint, Sys.ReadyOk, Wake, Scheduling.SleepAdvance,
        Z.DeltaQueue.Contents;
      var left := elapsed;
      while left != 0 && sleep.head != INVALID
        invariant Linked() && Abstract().ReadyOk() && InRange(Abstract())
        invariant Scheduling.SleepAdvance(Abstract(), left) == Scheduling.SleepAdvance(old(Abstract()), elapsed)
        decreases left, |Abstract().sleepers|
      {
        ghost var s := Abstract();
        HeadIs();
        var rest, woken := sleep.Pop(left);
        ReadyApart(s, Abstract().sleepers);
        if woken == INVALID {
          AdvanceStops(s, left);
        } else {
          AdvanceTurn(s, left);
          WakeOne(s.(sleepers := s.sleepers[1..]), woken);
          WakeTask(woken);
          WakeOk(s.(sleepers := s.sleepers[1..]), woken);
        }
        left := rest;
      }
      HeadIs();
      AdvanceEnds(Abstract(), left);
    }

    lemma HeadIs()
      requires Linked()
      ensures sleep.head == INVALID <==> sleep.Contents() == []
      ensures |sleep.Contents()| == |sleep.order|
    {
    }

    // ---------- choosing ----------

    method ChooseDeadline() returns (best: nat)
      requires tasks.Length == MAX_TASKS
      ensures best == PickDeadline(tasks[..], MAX_TASKS)
    {
      best := INVALID;
      var i := 0;
      while i < MAX_TASKS
        invariant i <= MAX_TASKS && best == PickDeadline(tasks[..], i)
      {
        if Eligible(tasks[i]) && (best == INVALID || tasks[i].absDeadline < tasks[best].absDeadline) {
          best := i;
        }
        i := i + 1;
      }
    }

    /** Assigns the virtual deadlines still missing on the way. */
    method ChooseFair() returns (best: nat)
      requires tasks.Length == MAX_TASKS && forall i :: 0 <= i < MAX_TASKS ==> tasks[i].weight > 0
      modifies tasks
      ensures tasks[..] == FillAll(old(tasks[..])) && best == PickFair(tasks[..], MAX_TASKS)
    {
      hide Fill, PickFair;
      ghost var filled := FillAll(tasks[..]);
      best := INVALID;
      var i := 0;
      PickNone(filled);
      while i < MAX_TASKS
        invariant i <= MAX_TASKS && (best == INVALID || best < i) && best == PickFair(filled, i)
        invariant forall k :: 0 <= k < i ==> tasks[k] == filled[k]
        invariant forall k :: i <= k < MAX_TASKS ==> tasks[k] == old(tasks[k])
      {
        tasks[i] := Fill(tasks[i]);
        PickMore(filled, i);
        if Runnable(tasks[i]) && (best == INVALID || tasks[i].virtualDeadline < tasks[best].virtualDeadline) {
          best := i;
        }
        i := i + 1;
      }
      assert tasks[..] == filled;
    }

    static lemma PickNone(t: seq<Task>)
      requires |t| < INVALID
      ensures PickFair(t, 0) == INVALID
    {
    }

    static lemma PickMore(t: seq<Task>, n: nat)
      requires n < |t| < INVALID
      ensures var b := PickFair(t, n);
              PickFair(t, n + 1) ==
                if Runnable(t[n]) && (b == INVALID || t[n].virtualDeadline < t[b].virtualDeadline) then n else b
    {
    }

    /** The routine behind PendSV. */
    method ScheduleNext()
      requires Valid()
      modifies Parts()
      ensures Linked() && Abstract() == Schedule(old(Abstract()))
    {
      hide R.ReadyQueues.Valid, Z.DeltaQueue.Valid, R.Disjoint, PickDeadline, PickFair, R.Highest, Fill, FillAll,
        Z.DeltaQueue.Contents, Sys.SleepersOk, Sys.ReadyOk;
      var next := ChooseDeadline();
      if next == INVALID && !throttled {
        next := ready.HighestRt();
      }
      if next == INVALID {
        next := ChooseFair();
        if next == INVALID { next := 0; }
      }
      current := next;
      resched := false;
    }

    // ---------- accounting ----------

    method RtCharge(step: nat)
      requires Linked() && current < MAX_TASKS && rtStart <= ticks
      modifies this
      ensures Linked() && Abstract() == RtAccount(old(Abstract()), step)
    {
      hide R.ReadyQueues.Valid, Z.DeltaQueue.Valid, Z.DeltaQueue.Contents;
      if ticks - rtStart >= WINDOW {
        rtStart, rtUsed, throttled := ticks, 0, false;
      }
      if IsRt(tasks[current].policy) {
        rtUsed := rtUsed + step;
        if rtUsed >= BUDGET && !throttled {
          throttled, resched := true, true;
        }
      }
    }

    method DeadlineCharge(step: nat)
      requires Linked() && current < MAX_TASKS
      modifies Parts()
      ensures Linked() && Abstract() == DeadlineAccount(old(Abstract()), step)
    {
      hide R.ReadyQueues.Valid, Z.DeltaQueue.Valid, Z.DeltaQueue.Contents, Z.Insert;
      var i := current;
      if step >= tasks[i].remaining {
        tasks[i] := tasks[i].(remaining := 0);
      } else {
        tasks[i] := tasks[i].(remaining := tasks[i].remaining - step);
      }
      if tasks[i].remaining == 0 {
        tasks[i] := tasks[i].(state := Asleep);
        var wait := if tasks[i].nextRelease > ticks then tasks[i].nextRelease - ticks else tasks[i].period;
        sleep.SleepInsert(i, wait);
        resched := true;
      }
    }

    method BlockRunning(state: Status, n: nat)
      requires Linked() && current < MAX_TASKS
      modifies Parts()
      ensures Linked() && Abstract() == BlockCurrent(old(Abstract()), state, n)
    {
      hide R.ReadyQueues.Valid, Z.DeltaQueue.Valid, Z.DeltaQueue.Contents, Z.Insert, R.Remove;
      var i := current;
      if IsRt(tasks[i].policy) { ready.RtRemove(i, tasks[i].prio); }
      tasks[i] := tasks[i].(state := state);
      if state == Asleep { sleep.SleepInsert(i, n); }
      resched := true;
    }

    /** What the tick charges to the running task. */
    method ChargeRunning(step: nat)
      requires Linked() && current < MAX_TASKS && tasks[current].weight > 0
      modifies Parts()
      ensures Linked() && Abstract() == Account(old(Abstract()), step)
    {
      hide R.ReadyQueues.Valid, Z.DeltaQueue.Valid, Z.DeltaQueue.Contents, Z.Insert, R.Rotate, DeadlineAccount,
        Increment, Grant;
      var i := current;
      var t := tasks[i];
      if t.policy == Rr {
        if step >= t.quantumLeft {
          tasks[i] := t.(quantumLeft := t.quantum);
          var rotated := ready.RtRotate(t.prio);
          resched := true;
        } else {
          tasks[i] := t.(quantumLeft := t.quantumLeft - step);
        }
      } else if IsFair(t.policy) {
        var inc, grant := Increment(t, step), Grant(t);
        t := t.(vruntime := t.vruntime + inc, slice := t.slice + step);
        if t.slice >= Limit(t.policy) {
          t := t.(slice := 0, virtualDeadline := t.vruntime + grant);
          resched := true;
        }
        tasks[i] := t;
        assert t == Charge(old(tasks[current]), step);
        assert tasks[..] == old(tasks[..])[i := t];
      } else if t.policy == Deadline {
        DeadlineCharge(step);
      }
    }

    method MakeAllReady(timeouts: seq<nat>)
      requires Valid() && forall i :: i in timeouts && i < MAX_TASKS ==> tasks[i].state in {Blocked, Ready}
      modifies Parts()
      ensures Valid() && Abstract() == Release(old(Abstract()), timeouts)
      ensures ticks == old(ticks) && current == old(current) && rtStart == old(rtStart)
    {
      hide R.ReadyQueues.Valid, Z.DeltaQueue.Valid, R.Disjoint, Z.Distinct, Sys.Valid, Z.Sleeping, MakeReady;
      ReleaseKeeps(Abstract(), timeouts);
      var k := 0;
      assert timeouts[0..] == timeouts;
      while k < |timeouts|
        invariant k <= |timeouts| && Valid()
        invariant forall i :: i in timeouts && i < MAX_TASKS ==> tasks[i].state in {Blocked, Ready}
        invariant Release(Abstract(), timeouts[k..]) == Release(old(Abstract()), timeouts)
      {
        var i := timeouts[k];
        ghost var s := Abstract();
        assert i in timeouts && timeouts[k..][0] == i;
        ReleaseTurn(s, timeouts[k..]);
        if i < MAX_TASKS {
          if tasks[i].state != Ready { BlockedApart(i); }
          TaskMakeReady(i);
        }
        assert timeouts[k..][1..] == timeouts[k + 1..];
        k := k + 1;
      }
    }

    static lemma ReleaseTurn(s: Sys, timeouts: seq<nat>)
      requires s.Valid() && timeouts != []
      requires timeouts[0] < MAX_TASKS ==> s.tasks[timeouts[0]].state in {Blocked, Ready}
      ensures var r := if timeouts[0] < MAX_TASKS then MakeReady(s, timeouts[0]) else s;
              && r.Valid() && Release(s, timeouts) == Release(r, timeouts[1..])
              && forall j :: 0 <= j < |s.tasks| && s.tasks[j].state in {Blocked, Ready} ==>
                   r.tasks[j].state in {Blocked, Ready}
    {
      hide Sys.SleepersOk, Sys.ReadyOk, R.Enqueue;
      if IsBlocked(s, timeouts[0]) { WakeUpOk(s, timeouts[0]); }
    }

    /** A blocked task is in no queue. */
    lemma BlockedApart(i: nat)
      requires Valid() && i < MAX_TASKS && tasks[i].state == Blocked
      ensures !R.Queued(ready.queues, i) && i !in sleep.order
    {
      hide R.Disjoint, Z.Distinct, Z.Sleeping;
      NotQueued(Abstract(), i);
      Z.SleepingAt(sleep.order, sleep.delta[..], i);
    }

    /** Who waits for an IPC object is blocked, or ready already. */
    ghost predicate WaitersBlocked(ipc: I.Table)
      reads tasks, ipc, ipc.objects
    {
      tasks.Length == MAX_TASKS &&
      forall k, i :: 0 <= k < ipc.objects.Length && 0 <= i < MAX_TASKS && I.Awaits(ipc.objects[k], i) ==>
                       tasks[i].state in {Blocked, Ready}
    }

    /** Overdue IPC waits time out, and the tasks in them become ready. */
    method IpcTick(ipc: I.Table)
      requires Valid() && ipc.Valid() && WaitersBlocked(ipc) && Parts() !! {ipc, ipc.objects}
      modifies Parts(), ipc, ipc.objects
      ensures Valid() && ipc.Valid()
      ensures Abstract() == Release(old(Abstract()), I.Waiters(I.TimedOut(old(ipc.objects[..]), ticks)))
      ensures ticks == old(ticks) && current == old(current) && rtStart == old(rtStart)
      ensures forall k :: 0 <= k < ipc.objects.Length ==> ipc.objects[k] == Ipc.TimeOut(old(ipc.objects[k]), ticks).obj
    {
      hide R.ReadyQueues.Valid, Z.DeltaQueue.Valid, Z.DeltaQueue.Contents, Release, Sys.Valid, I.TimedOut, Ipc.TimeOut;
      I.TimedOutWaited(ipc.objects[..], ticks);
      var known := |ipc.wakes|;
      ipc.Tick(ticks);
      MakeAllReady(I.Waiters(ipc.wakes[known..]));
    }

    /** The first half of a tick: whoever is to wake, or has waited too long, becomes ready. */
    method Awaken(step: nat, ipc: I.Table)
      requires Valid() && rtStart <= ticks && ipc.Valid() && WaitersBlocked(ipc) && Parts() !! {ipc, ipc.objects}
      modifies Parts(), ipc, ipc.objects
      ensures Valid() && ipc.Valid() && rtStart <= ticks == old(ticks) + step
      ensures Abstract() == Scheduling.Awaken(old(Abstract()).(ticks := ticks), step,
                                              I.Waiters(I.TimedOut(old(ipc.objects[..]), ticks)))
      ensures forall k :: 0 <= k < ipc.objects.Length ==> ipc.objects[k] == Ipc.TimeOut(old(ipc.objects[k]), ticks).obj
    {
      hide R.ReadyQueues.Valid, Z.DeltaQueue.Valid, Z.DeltaQueue.Contents, Scheduling.SleepAdvance, Release,
        Sys.ReadyOk, Sys.SleepersOk, I.TimedOut, Ipc.TimeOut;
      ghost var s := Abstract();
      AdvanceStarts(s, s.ticks + step, step);
      StillWaiting(s.(ticks := s.ticks + step), step);
      ticks := ticks + step;
      SleepAdvance(step);
      IpcTick(ipc);
    }

    /** The tick interrupt: sleepers wake, overdue IPC waits time out, the running task is charged. */
    method SysTick(step: nat, ipc: I.Table)
      requires Valid() && rtStart <= ticks && ipc.Valid() && WaitersBlocked(ipc) && Parts() !! {ipc, ipc.objects}
      modifies Parts(), ipc, ipc.objects
      ensures Valid() && ipc.Valid()
      ensures Abstract() == Tick(old(Abstract()), step, I.Waiters(I.TimedOut(old(ipc.objects[..]), ticks)))
      ensures forall k :: 0 <= k < ipc.objects.Length ==> ipc.objects[k] == Ipc.TimeOut(old(ipc.objects[k]), ticks).obj
    {
      hide R.ReadyQueues.Valid, Z.DeltaQueue.Valid, Z.DeltaQueue.Contents, Account, RtAccount, Scheduling.Awaken,
        Sys.ReadyOk, Sys.SleepersOk, I.TimedOut, Ipc.TimeOut;
      TickOk(Abstract(), step, I.Waiters(I.TimedOut(ipc.objects[..], ticks + step)));
      Awaken(step, ipc);
      ChargeRunning(step);
      RtCharge(step);
    }

    /** What a tick starts from, and what its wake-ups leave. */
    static lemma AdvanceStarts(s: Sys, now: nat, step: nat)
      requires s.Valid()
      ensures var s0 := s.(ticks := now); InRange(s0) && s0.ReadyOk()
      ensures var s1 := Scheduling.SleepAdvance(s.(ticks := now), step);
              s1.Valid() && s1.rtStart == s.rtStart && s1.ticks == now
    {
      hide Scheduling.SleepAdvance, Z.Distinct, Z.Sleeping, R.Disjoint;
      ReadyLater(s, now);
      AdvanceValid(s.(ticks := now), step);
      WakeKeeps(s.(ticks := now), step);
    }

    /** Who is blocked, or ready, is so after the wake-ups. */
    static lemma StillWaiting(s: Sys, step: nat)
      requires InRange(s)
      ensures forall i :: 0 <= i < MAX_TASKS && s.tasks[i].state in {Blocked, Ready} ==>
                Scheduling.SleepAdvance(s, step).tasks[i].state in {Blocked, Ready}
    {
      hide Scheduling.SleepAdvance, Z.Advance;
      WakeKeeps(s, step);
    }

    static lemma ReadyLater(s: Sys, now: nat)
      ensures s.ReadyOk() ==> s.(ticks := now).ReadyOk()
    {
    }
  }
}
