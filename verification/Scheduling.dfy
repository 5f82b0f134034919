/** The scheduler as a state machine: tick accounting, wake-ups, and the choice of the next task. */
module Scheduling {
  import opened Common
  import R = ReadyList
  import Z = SleepQueue

  const WINDOW: nat := 100
  const BUDGET: nat := 80

  datatype Policy = Idle | Fifo | Rr | Normal | Batch | Deadline

  datatype Status = Ready | Asleep | Blocked | Zombie | Stopped

  datatype Task = Task(state: Status, policy: Policy, prio: nat, weight: nat, quantum: nat, quantumLeft: nat,
                       vruntime: nat, virtualDeadline: nat, slice: nat,
                       runtime: nat, period: nat, remaining: nat, absDeadline: nat, nextRelease: nat)

  datatype Sys = Sys(tasks: seq<Task>, current: nat, ticks: nat, ready: R.Queues, sleepers: Z.Deltas,
                     rtUsed: nat, rtStart: nat, throttled: bool, resched: bool) {
    /** Task 0 idles; weights are positive. */
    ghost predicate Shaped() {
      && |tasks| == MAX_TASKS && current < MAX_TASKS && tasks[0].policy == Idle
      && (forall i :: 0 <= i < MAX_TASKS ==> tasks[i].weight > 0)
    }

    /** A task is in the ready list of its level exactly while it is a ready real-time task. */
    ghost predicate ReadyOk() {
      R.Disjoint(ready) && forall p, i :: 0 <= p < R.LEVELS ==> (i in ready[p] <==> Belongs(tasks, i, p))
    }

    ghost predicate Valid() {
      Shaped() && SleepersOk() && ReadyOk()
    }

    /** A task is in the sleep queue exactly while it sleeps. */
    ghost predicate SleepersOk() {
      && Z.Distinct(sleepers)
      && (forall k :: 0 <= k < |sleepers| ==> sleepers[k].task < |tasks|)
      && (forall i :: 0 <= i < |tasks| ==> (Z.Sleeping(sleepers, i) <==> tasks[i].state == Asleep))
    }
  }

  predicate Belongs(tasks: seq<Task>, i: nat, p: nat) {
    i < |tasks| && IsRt(tasks[i].policy) && tasks[i].state == Ready && R.Level(tasks[i].prio) == p
  }

  predicate IsRt(p: Policy) { p == Fifo || p == Rr }

  predicate IsFair(p: Policy) { p == Normal || p == Batch }

  // ---------- waking ----------

  function Put(s: Sys, i: nat, t: Task): Sys
    requires i < |s.tasks|
  {
    s.(tasks := s.tasks[i := t])
  }

  function MakeReady(s: Sys, i: nat): Sys
    requires i < |s.tasks|
  {
    var t := s.tasks[i];
    if t.state == Ready then s
    else
      Put(s, i, t.(state := Ready)).(ready := if IsRt(t.policy) then R.Enqueue(s.ready, t.prio, i) else s.ready,
                                     resched := true)
  }

  /** A deadline task gets its budget and its next deadline when its sleep ends. */
  function Replenish(t: Task, now: nat): Task {
    if t.policy == Deadline
         then t.(remaining := t.runtime, absDeadline := now + t.period, nextRelease := now + t.period) else t
  }

  function Wake(s: Sys, i: nat): (r: Sys)
    requires i < |s.tasks|
    ensures |r.tasks| == |s.tasks|
  {
    MakeReady(Put(s, i, Replenish(s.tasks[i], s.ticks)), i)
  }

  function WakeAll(s: Sys, woken: seq<nat>): (r: Sys)
    requires forall k :: 0 <= k < |woken| ==> woken[k] < |s.tasks|
    ensures |r.tasks| == |s.tasks|
    decreases |woken|
  {
    if woken == [] then s else WakeAll(Wake(s, woken[0]), woken[1..])
  }

  lemma {:induction false} WokenInRange(q: Z.Deltas, elapsed: nat, n: nat)
    requires forall k :: 0 <= k < |q| ==> q[k].task < n
    ensures forall k :: 0 <= k < |Z.Advance(q, elapsed).0| ==> Z.Advance(q, elapsed).0[k] < n
    ensures forall k :: 0 <= k < |Z.Advance(q, elapsed).1| ==> Z.Advance(q, elapsed).1[k].task < n
    decreases |q|
  {
    if elapsed > 0 && q != [] {
      if q[0].delta <= elapsed {
        WokenInRange(q[1..], elapsed - q[0].delta, n);
      } else {
        assert Z.Advance(q, elapsed).1[0].task == q[0].task;
      }
    }
  }

  function SleepAdvance(s: Sys, elapsed: nat): (r: Sys)
    requires forall k :: 0 <= k < |s.sleepers| ==> s.sleepers[k].task < |s.tasks|
    ensures |r.tasks| == |s.tasks|
  {
    WokenInRange(s.sleepers, elapsed, |s.tasks|);
    var r := Z.Advance(s.sleepers, elapsed);
    WakeAll(s.(sleepers := r.1), r.0)
  }

  // ---------- choosing ----------

  predicate Eligible(t: Task) {
    t.state == Ready && t.policy == Deadline && t.remaining > 0
  }

  /** Among the first n tasks: the eligible deadline task with the earliest deadline. */
  function PickDeadline(tasks: seq<Task>, n: nat): (b: nat)
    requires n <= |tasks| < INVALID
    ensures b == INVALID || b < n
    ensures b == INVALID <==> forall k :: 0 <= k < n ==> !Eligible(tasks[k])
    ensures b < n ==> Eligible(tasks[b]) && forall k :: 0 <= k < n && Eligible(tasks[k]) ==>
                        && tasks[b].absDeadline <= tasks[k].absDeadline
                        && (k < b ==> tasks[b].absDeadline < tasks[k].absDeadline)
  {
    if n == 0 then INVALID
    else
      var b := PickDeadline(tasks, n - 1);
      if Eligible(tasks[n - 1]) && (b == INVALID || tasks[n - 1].absDeadline < tasks[b].absDeadline) then n - 1 else b
  }

  predicate Runnable(t: Task) {
    t.state == Ready && IsFair(t.policy)
  }

  function Share(t: Task): nat
    requires t.weight > 0
  {
    4096 / t.weight
  }

  /** The virtual deadline, assigned if there is none yet. */
  function Fill(t: Task): Task
    requires t.weight > 0
  {
    if Runnable(t) && t.virtualDeadline == 0 then t.(virtualDeadline := t.vruntime + Share(t)) else t
  }

  function FillAll(tasks: seq<Task>): (r: seq<Task>)
    requires forall i :: 0 <= i < |tasks| ==> tasks[i].weight > 0
    ensures |r| == |tasks| && forall i :: 0 <= i < |tasks| ==> r[i] == Fill(tasks[i])
  {
    seq(|tasks|, i requires 0 <= i < |tasks| => Fill(tasks[i]))
  }

  /** Among the first n tasks: the runnable fair task with the earliest virtual deadline. */
  function PickFair(tasks: seq<Task>, n: nat): (b: nat)
    requires n <= |tasks| < INVALID
    ensures b == INVALID || b < n
    ensures b == INVALID <==> forall k :: 0 <= k < n ==> !Runnable(tasks[k])
    ensures b < n ==> Runnable(tasks[b]) && forall k :: 0 <= k < n && Runnable(tasks[k]) ==>
                        tasks[b].virtualDeadline <= tasks[k].virtualDeadline
                        && (k < b ==> tasks[b].virtualDeadline < tasks[k].virtualDeadline)
  {
    if n == 0 then INVALID
    else
      var b := PickFair(tasks, n - 1);
      if Runnable(tasks[n - 1]) && (b == INVALID || tasks[n - 1].virtualDeadline < tasks[b].virtualDeadline) then n - 1
           else b
  }

  /** Deadline tasks first, then real-time unless throttled, then fair, then idle. */
  function Schedule(s: Sys): Sys
    requires |s.tasks| == MAX_TASKS && forall i :: 0 <= i < MAX_TASKS ==> s.tasks[i].weight > 0
  {
    var d := PickDeadline(s.tasks, MAX_TASKS);
    var h := R.Highest(s.ready, 0);
    if d != INVALID then s.(current := d, resched := false)
    else if !s.throttled && h != INVALID then s.(current := h, resched := false)
    else
      var tasks := FillAll(s.tasks);
      var f := PickFair(tasks, MAX_TASKS);
      s.(tasks := tasks, current := if f != INVALID then f else 0, resched := false)
  }

  // ---------- accounting ----------

  function RtAccount(s: Sys, step: nat): (r: Sys)
    requires s.current < |s.tasks|
    ensures r.tasks == s.tasks && r.current == s.current && r.ticks == s.ticks && r.ready == s.ready
            && r.sleepers == s.sleepers
    ensures s.resched ==> r.resched
  {
    var s1 := if s.ticks - s.rtStart >= WINDOW then s.(rtStart := s.ticks, rtUsed := 0, throttled := false) else s;
    if !IsRt(s.tasks[s.current].policy) then s1
    else
      var used := s1.rtUsed + step;
      if used >= BUDGET && !s1.throttled then s1.(rtUsed := used, throttled := true, resched := true)
           else s1.(rtUsed := used)
  }

  function DeadlineAccount(s: Sys, step: nat): Sys
    requires s.current < |s.tasks|
  {
    var t := s.tasks[s.current];
    var left := if step >= t.remaining then 0 else t.remaining - step;
    var wait := if t.nextRelease > s.ticks then t.nextRelease - s.ticks else t.period;
    if left > 0 then Put(s, s.current, t.(remaining := left))
    else
      Put(s, s.current, t.(remaining := 0, state := Asleep)).(sleepers := Z.Insert(s.sleepers, s.current, wait),
                                                              resched := true)
  }

  function Limit(p: Policy): nat {
    if p == Batch then 8 else 4
  }

  /** Virtual time a task is charged: the more, the lighter it weighs, but never nothing. */
  function Increment(t: Task, step: nat): (inc: nat)
    requires t.weight > 0
    ensures inc > 0
  {
    var inc := step * 1024 / t.weight;
    if inc == 0 then 1 else inc
  }

  function Grant(t: Task): nat
    requires t.weight > 0
  {
    Limit(t.policy) * 1024 / t.weight
  }

  function Charge(t: Task, step: nat): (r: Task)
    requires t.weight > 0
    ensures r.policy == t.policy && r.weight == t.weight && r.state == t.state && r.prio == t.prio
  {
    hide Increment, Grant;
    var v := t.vruntime + Increment(t, step);
    if t.slice + step < Limit(t.policy) then t.(vruntime := v, slice := t.slice + step)
    else t.(vruntime := v, slice := 0, virtualDeadline := v + Grant(t))
  }

  function FairAccount(s: Sys, step: nat): Sys
    requires s.current < |s.tasks| && s.tasks[s.current].weight > 0
  {
    var t := s.tasks[s.current];
    Put(s, s.current, Charge(t, step)).(resched := s.resched || t.slice + step >= Limit(t.policy))
  }

  function RrAccount(s: Sys, step: nat): Sys
    requires s.current < |s.tasks|
  {
    var t := s.tasks[s.current];
    if step >= t.quantumLeft then
      Put(s, s.current, t.(quantumLeft := t.quantum)).(ready := R.Rotate(s.ready, t.prio), resched := true)
    else Put(s, s.current, t.(quantumLeft := t.quantumLeft - step))
  }

  function Account(s: Sys, step: nat): (r: Sys)
    requires s.current < |s.tasks| && s.tasks[s.current].weight > 0
    ensures |r.tasks| == |s.tasks| && r.current == s.current && r.ticks == s.ticks
    ensures r.rtUsed == s.rtUsed && r.rtStart == s.rtStart && r.throttled == s.throttled && (s.resched ==> r.resched)
    ensures forall i :: 0 <= i < |s.tasks| ==>
              r.tasks[i].policy == s.tasks[i].policy && r.tasks[i].weight == s.tasks[i].weight
    ensures forall i :: 0 <= i < |s.tasks| && i != s.current ==> r.tasks[i] == s.tasks[i]
  {
    hide Charge, Z.Insert, R.Rotate;
    match s.tasks[s.current].policy
    case Rr => RrAccount(s, step)
    case Normal => FairAccount(s, step)
    case Batch => FairAccount(s, step)
    case Deadline => DeadlineAccount(s, step)
    case _ => s
  }

  /** Blocked tasks become ready, one by one; a task that is not blocked stays as it is. */
  function Release(s: Sys, timeouts: seq<nat>): (r: Sys)
    ensures |r.tasks| == |s.tasks|
    decreases |timeouts|
  {
    if timeouts == [] then s
    else
      var i := timeouts[0];
      Release(if i < |s.tasks| && s.tasks[i].state == Blocked then MakeReady(s, i) else s, timeouts[1..])
  }

  /** Time goes on: sleepers wake, then tasks whose IPC waits have timed out become ready. */
  function Awaken(s: Sys, step: nat, timeouts: seq<nat>): (r: Sys)
    requires forall k :: 0 <= k < |s.sleepers| ==> s.sleepers[k].task < |s.tasks|
    ensures |r.tasks| == |s.tasks|
  {
    Release(SleepAdvance(s, step), timeouts)
  }

  /** The tick interrupt. */
  function Tick(s: Sys, step: nat, timeouts: seq<nat>): (r: Sys)
    requires s.Shaped() && s.SleepersOk()
    ensures r.Shaped() && r.ticks == s.ticks + step && r.current == s.current
  {
    hide Z.Distinct, Z.Sleeping, Z.Advance, Awaken, Replenish, Account, RtAccount;
    AwakenKeeps(s.(ticks := s.ticks + step), step, timeouts);
    var s1 := Awaken(s.(ticks := s.ticks + step), step, timeouts);
    RtAccount(Account(s1, step), step)
  }

  function BlockCurrent(s: Sys, state: Status, ticks: nat): Sys
    requires s.current < |s.tasks|
  {
    var t := s.tasks[s.current];
    var s1 := Put(s, s.current, t.(state := state)).(
                ready := if IsRt(t.policy) then R.Remove(s.ready, t.prio, s.current) else s.ready, resched := true);
    if state == Asleep then s1.(sleepers := Z.Insert(s.sleepers, s.current, ticks)) else s1
  }

  /** What waking does not touch. */
  predicate SameButWoken(t: Task, u: Task) {
    && u.policy == t.policy && u.weight == t.weight && u.prio == t.prio && u.vruntime == t.vruntime
    && u.slice == t.slice
    && u.virtualDeadline == t.virtualDeadline && u.runtime == t.runtime && u.period == t.period
    && u.quantum == t.quantum && u.quantumLeft == t.quantumLeft
  }

  /** What waking leaves of the rest of the system. */
  predicate SameSystem(s: Sys, r: Sys) {
    && r.current == s.current && r.ticks == s.ticks && r.sleepers == s.sleepers && r.rtUsed == s.rtUsed
    && r.rtStart == s.rtStart && r.throttled == s.throttled && |r.tasks| == |s.tasks|
  }

  lemma WakeOne(s: Sys, i: nat)
    requires i < |s.tasks|
    ensures var r := Wake(s, i);
            SameSystem(s, r) && r.tasks == s.tasks[i := Replenish(s.tasks[i], s.ticks).(state := Ready)]
  {
  }

  lemma {:induction false} WakeAllKeeps(s: Sys, woken: seq<nat>)
    requires forall k :: 0 <= k < |woken| ==> woken[k] < |s.tasks|
    ensures SameSystem(s, WakeAll(s, woken))
    ensures forall i :: 0 <= i < |s.tasks| ==>
              WakeAll(s, woken).tasks[i] == if i in woken then Replenish(s.tasks[i], s.ticks).(state := Ready)
                    else s.tasks[i]
    decreases |woken|
  {
    hide Wake;
    if woken != [] {
      var s1 := Wake(s, woken[0]);
      WakeOne(s, woken[0]);
      WakeAllKeeps(s1, woken[1..]);
      assert woken == [woken[0]] + woken[1..];
    }
  }

  lemma WakeKeeps(s: Sys, step: nat)
    requires forall k :: 0 <= k < |s.sleepers| ==> s.sleepers[k].task < |s.tasks|
    ensures var r := SleepAdvance(s, step); var woken := Z.Advance(s.sleepers, step).0;
            && r.current == s.current && r.ticks == s.ticks && r.sleepers == Z.Advance(s.sleepers, step).1
            && r.rtUsed == s.rtUsed
            && r.rtStart == s.rtStart && r.throttled == s.throttled && |r.tasks| == |s.tasks|
            && (forall i :: 0 <= i < |s.tasks| ==> SameButWoken(s.tasks[i], r.tasks[i]))
            && (forall i :: 0 <= i < |s.tasks| && i !in woken ==> r.tasks[i] == s.tasks[i])
            && (forall i :: 0 <= i < |s.tasks| && i in woken ==>
                  r.tasks[i] == Replenish(s.tasks[i], s.ticks).(state := Ready))
  {
    hide Wake, WakeAll;
    WokenInRange(s.sleepers, step, |s.tasks|);
    var r := Z.Advance(s.sleepers, step);
    WakeAllKeeps(s.(sleepers := r.1), r.0);
  }

  /** Only blocked tasks are touched, and they become ready. */
  lemma {:induction false} ReleaseKeeps(s: Sys, timeouts: seq<nat>)
    ensures SameSystem(s, Release(s, timeouts)) && (s.resched ==> Release(s, timeouts).resched)
    ensures forall i :: 0 <= i < |s.tasks| ==>
              Release(s, timeouts).tasks[i] ==
                if i in timeouts && s.tasks[i].state == Blocked then s.tasks[i].(state := Ready) else s.tasks[i]
    decreases |timeouts|
  {
    if timeouts != [] {
      var i := timeouts[0];
      ReleaseKeeps(if i < |s.tasks| && s.tasks[i].state == Blocked then MakeReady(s, i) else s, timeouts[1..]);
      assert timeouts == [i] + timeouts[1..];
    }
  }

  lemma AwakenKeeps(s: Sys, step: nat, timeouts: seq<nat>)
    requires forall k :: 0 <= k < |s.sleepers| ==> s.sleepers[k].task < |s.tasks|
    ensures var r := Awaken(s, step, timeouts); var woken := Z.Advance(s.sleepers, step).0;
            && SameSystem(s.(sleepers := r.sleepers), r) && r.sleepers == Z.Advance(s.sleepers, step).1
            && (forall i :: 0 <= i < |s.tasks| ==> SameButWoken(s.tasks[i], r.tasks[i]))
            && (forall i :: 0 <= i < |s.tasks| && i !in woken && s.tasks[i].state != Blocked ==>
                  r.tasks[i] == s.tasks[i])
            && (forall i :: 0 <= i < |s.tasks| && i !in woken ==>
                  r.tasks[i] == s.tasks[i] || r.tasks[i] == s.tasks[i].(state := Ready))
            && (forall i :: 0 <= i < |s.tasks| && i in woken ==>
                  r.tasks[i] == Replenish(s.tasks[i], s.ticks).(state := Ready))
  {
    hide SleepAdvance, Release, Replenish;
    WakeKeeps(s, step);
    ReleaseKeeps(SleepAdvance(s, step), timeouts);
  }
}
