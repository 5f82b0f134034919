/** What the scheduler guarantees over whole runs: bounded real-time share, weighted fairness, and
    bandwidth isolation of deadline tasks. */
module SchedulerRuns {
  import opened Common
  import R = ReadyList
  import Z = SleepQueue
  import opened Scheduling

  /** One thing that happens: a tick with the IPC waits that time out in it and the reschedule it asks for, the
      running task going to sleep or blocking, a blocked task becoming ready, or a reschedule for any other
      reason. */
  datatype Action = TickOnce(timeouts: seq<nat>) | GoToSleep(ticks: nat) | Block | WakeUp(i: nat) | Reschedule

  ghost function Next(s: Sys, a: Action): Sys
    requires s.Valid()
  {
    match a
    case TickOnce(timeouts) => var t := Tick(s, 1, timeouts); if t.resched then Schedule(t) else t
    case GoToSleep(n) => if s.tasks[s.current].state == Ready then Schedule(BlockCurrent(s, Asleep, n)) else s
    case Block => if s.tasks[s.current].state == Ready then Schedule(BlockCurrent(s, Blocked, 0)) else s
    case WakeUp(i) => if i < MAX_TASKS && s.tasks[i].state == Blocked then MakeReady(s, i) else s
    case Reschedule => Schedule(s)
  }

  // ---------- the invariant ----------

  lemma MakeReadyOk(s: Sys, i: nat)
    requires |s.tasks| == MAX_TASKS && i < MAX_TASKS && s.ReadyOk()
    ensures MakeReady(s, i).ReadyOk()
  {
    hide R.Disjoint, R.Enqueue;
    var t := s.tasks[i];
    if t.state != Ready && IsRt(t.policy) {
      assert !R.Queued(s.ready, i);
      R.EnqueueMembers(s.ready, t.prio, i);
    }
  }

  lemma WakeOk(s: Sys, i: nat)
    requires |s.tasks| == MAX_TASKS && i < MAX_TASKS && s.ReadyOk()
    ensures Wake(s, i).ReadyOk()
  {
    hide R.Disjoint, MakeReady;
    var s1 := Put(s, i, Replenish(s.tasks[i], s.ticks));
    assert forall p, j: nat :: Belongs(s1.tasks, j, p) <==> Belongs(s.tasks, j, p);
    assert s1.ReadyOk();
    MakeReadyOk(s1, i);
  }

  lemma {:induction false} WakeAllOk(s: Sys, woken: seq<nat>)
    requires |s.tasks| == MAX_TASKS && s.ReadyOk() && forall k :: 0 <= k < |woken| ==> woken[k] < MAX_TASKS
    ensures WakeAll(s, woken).ReadyOk()
    decreases |woken|
  {
    hide R.Disjoint, Wake;
    if woken != [] {
      WakeOk(s, woken[0]);
      WakeAllOk(Wake(s, woken[0]), woken[1..]);
    }
  }

  /** The tasks woken are those that leave the sleep queue. */
  lemma WokenExactly(q: Z.Deltas, step: nat, i: nat)
    requires Z.Distinct(q)
    ensures var r := Z.Advance(q, step);
            && (i in r.0 <==> Z.Sleeping(q, i) && !Z.Sleeping(r.1, i)) && (Z.Sleeping(r.1, i) ==> Z.Sleeping(q, i))
  {
    if Z.Sleeping(q, i) { Z.AdvanceOne(q, step, i); } else { Z.AdvanceAbsent(q, step, i); }
  }

  lemma AdvanceValid(s: Sys, step: nat)
    requires s.Valid()
    ensures SleepAdvance(s, step).Valid()
  {
    hide R.Disjoint, Z.Advance, Z.Distinct, Z.Sleeping, WakeAll, Replenish;
    var r := Z.Advance(s.sleepers, step);
    WokenInRange(s.sleepers, step, MAX_TASKS);
    AdvanceDistinct(s.sleepers, step);
    WakeKeeps(s, step);
    WakeAllOk(s.(sleepers := r.1), r.0);
    forall i | 0 <= i < MAX_TASKS ensures Z.Sleeping(r.1, i) <==> SleepAdvance(s, step).tasks[i].state == Asleep {
      WokenExactly(s.sleepers, step, i);
      if i in r.0 { assert Replenish(s.tasks[i], s.ticks).(state := Ready).state == Ready; }
    }
  }

  lemma {:induction false} ReleaseValid(s: Sys, timeouts: seq<nat>)
    requires s.Valid()
    ensures Release(s, timeouts).Valid()
    decreases |timeouts|
  {
    hide Sys.Valid, MakeReady;
    if timeouts != [] {
      var i := timeouts[0];
      if IsBlocked(s, i) { WakeUpOk(s, i); }
      ReleaseValid(if IsBlocked(s, i) then MakeReady(s, i) else s, timeouts[1..]);
    }
  }

  lemma AwakenValid(s: Sys, step: nat, timeouts: seq<nat>)
    requires s.Valid()
    ensures Awaken(s, step, timeouts).Valid()
  {
    hide Sys.Valid, SleepAdvance, Release;
    Sleepers(s);
    AdvanceValid(s, step);
    ReleaseValid(SleepAdvance(s, step), timeouts);
  }

  lemma Sleepers(s: Sys)
    requires s.Valid()
    ensures forall k :: 0 <= k < |s.sleepers| ==> s.sleepers[k].task < |s.tasks|
  {
    hide Z.Distinct, Z.Sleeping, Sys.ReadyOk;
  }

  lemma AdvanceDistinct(q: Z.Deltas, elapsed: nat)
    requires Z.Distinct(q)
    ensures Z.Distinct(Z.Advance(q, elapsed).1)
  {
    if q != [] { Z.AdvanceOne(q, elapsed, q[0].task); }
  }

  lemma {:induction false} PlaceInRange(q: Z.Deltas, i: nat, remain: nat, n: nat)
    requires (forall k :: 0 <= k < |q| ==> q[k].task < n) && i < n
    ensures forall k :: 0 <= k < |Z.Place(q, i, remain)| ==> Z.Place(q, i, remain)[k].task < n
    decreases |q|
  {
    if q != [] && remain >= q[0].delta { PlaceInRange(q[1..], i, remain - q[0].delta, n); }
  }

  lemma {:induction false} DropInRange(q: Z.Deltas, i: nat, n: nat)
    requires forall k :: 0 <= k < |q| ==> q[k].task < n
    ensures forall k :: 0 <= k < |Z.Drop(q, i)| ==> Z.Drop(q, i)[k].task < n
    decreases |q|
  {
    if q != [] && q[0].task != i { DropInRange(q[1..], i, n); }
  }

  /** A task that goes to sleep, and is in no ready list, is entered in the sleep queue. */
  lemma InsertOk(s: Sys, i: nat, t: Task, ticks: nat)
    requires s.SleepersOk() && i < |s.tasks| && t.state == Asleep
    ensures Put(s, i, t).(sleepers := Z.Insert(s.sleepers, i, ticks)).SleepersOk()
    ensures var q := Z.Insert(s.sleepers, i, ticks);
            Z.Sleeping(q, i) && Z.Remaining(q, i) == if ticks == 0 then 1 else ticks
  {
    var n := if ticks == 0 then 1 else ticks;
    var d := Z.Drop(s.sleepers, i);
    Z.DropSelf(s.sleepers, i);
    Z.PlaceSelf(d, i, n);
    DropInRange(s.sleepers, i, |s.tasks|);
    PlaceInRange(d, i, n, |s.tasks|);
    forall j | 0 <= j < |s.tasks| && j != i ensures Z.Sleeping(Z.Place(d, i, n), j) <==> Z.Sleeping(s.sleepers, j) {
      Z.DropOther(s.sleepers, i, j);
      Z.PlaceOther(d, i, n, j);
    }
  }

  lemma BlockOk(s: Sys, state: Status, ticks: nat)
    requires s.Valid() && (state == Asleep || state == Blocked) && s.tasks[s.current].state == Ready
    ensures BlockCurrent(s, state, ticks).Valid()
  {
    hide R.Disjoint, Z.Distinct, Z.Sleeping, Z.Insert, R.Remove;
    var t := s.tasks[s.current];
    if IsRt(t.policy) { R.RemoveMembers(s.ready, t.prio, s.current); }
    InsertOk(s, s.current, t.(state := Asleep), ticks);
  }

  /** Charging a task that stays in its state keeps the ready lists. */
  lemma SameStates(s: Sys, i: nat, t: Task)
    requires s.Valid() && i < MAX_TASKS && t.state == s.tasks[i].state && t.policy == s.tasks[i].policy
             && t.prio == s.tasks[i].prio
    requires t.weight == s.tasks[i].weight
    ensures Put(s, i, t).Valid()
  {
    hide R.Disjoint, Z.Distinct, Z.Sleeping;
    assert forall p, j: nat :: Belongs(s.tasks[i := t], j, p) <==> Belongs(s.tasks, j, p);
  }

  lemma RotateOk(s: Sys, prio: nat)
    requires s.Valid()
    ensures s.(ready := R.Rotate(s.ready, prio), resched := true).Valid()
  {
    hide R.Disjoint, R.Rotate, Z.Distinct, Z.Sleeping;
    R.RotateMembers(s.ready, prio);
  }

  lemma ExhaustOk(s: Sys, t: Task, wait: nat)
    requires s.Valid() && t.policy == Deadline == s.tasks[s.current].policy && t.state == Asleep
             && t.weight == s.tasks[s.current].weight
    ensures Put(s, s.current, t).(sleepers := Z.Insert(s.sleepers, s.current, wait), resched := true).Valid()
  {
    hide R.Disjoint, Z.Insert, Z.Distinct, Z.Sleeping;
    InsertOk(s, s.current, t, wait);
    assert forall p, j: nat :: Belongs(s.tasks[s.current := t], j, p) <==> Belongs(s.tasks, j, p);
  }

  lemma AccountOk(s: Sys, step: nat)
    requires s.Valid()
    ensures Account(s, step).Valid()
  {
    hide Sys.ReadyOk, Sys.SleepersOk, Z.Insert, R.Rotate, Charge;
    var t := s.tasks[s.current];
    if t.policy == Rr {
      SameStates(s, s.current, t.(quantumLeft := t.quantum));
      RotateOk(Put(s, s.current, t.(quantumLeft := t.quantum)), t.prio);
      if step < t.quantumLeft { SameStates(s, s.current, t.(quantumLeft := t.quantumLeft - step)); }
    } else if t.policy == Deadline {
      var left := if step >= t.remaining then 0 else t.remaining - step;
      SameStates(s, s.current, t.(remaining := left));
      ExhaustOk(s, t.(remaining := 0, state := Asleep),
                if t.nextRelease > s.ticks then t.nextRelease - s.ticks else t.period);
    } else if IsFair(t.policy) {
      SameStates(s, s.current, Charge(t, step));
      ReschedOk(Put(s, s.current, Charge(t, step)));
    }
  }

  lemma ReschedOk(s: Sys)
    requires s.Valid()
    ensures forall b :: s.(resched := b).Valid()
  {
  }

  lemma TickOk(s: Sys, step: nat, timeouts: seq<nat>)
    requires s.Valid()
    ensures Tick(s, step, timeouts).Valid()
  {
    hide R.Disjoint, Z.Distinct, Z.Sleeping, Awaken, Account;
    var s0 := s.(ticks := s.ticks + step);
    AwakenValid(s0, step, timeouts);
    AccountOk(Awaken(s0, step, timeouts), step);
  }

  lemma ScheduleOk(s: Sys)
    requires s.Valid()
    ensures Schedule(s).Valid()
    ensures var r := Schedule(s);
            (r.tasks == s.tasks && (Eligible(s.tasks[r.current]) || (IsRt(s.tasks[r.current].policy) && !s.throttled)))
            || (r.tasks == FillAll(s.tasks) && r.current == 0
                && forall k :: 0 <= k < MAX_TASKS ==> !Runnable(r.tasks[k]))
            || (r.tasks == FillAll(s.tasks) && Runnable(r.tasks[r.current]) && r.current == PickFair(r.tasks,
                MAX_TASKS))
  {
    hide R.Disjoint, Z.Distinct, Z.Sleeping, PickDeadline, PickFair, Fill;
    R.HighestIsFirst(s.ready, 0);
    var h := R.Highest(s.ready, 0);
    if h != INVALID {
      var p :| 0 <= p < R.LEVELS && s.ready[p] != [] && s.ready[p][0] == h;
      assert h in s.ready[p] && Belongs(s.tasks, h, p);
    }
    FillKeeps(s.tasks);
    assert forall p, i: nat :: Belongs(FillAll(s.tasks), i, p) <==> Belongs(s.tasks, i, p);
  }

  lemma FillKeeps(tasks: seq<Task>)
    requires forall i :: 0 <= i < |tasks| ==> tasks[i].weight > 0
    ensures forall i :: 0 <= i < |tasks| ==> var t := FillAll(tasks)[i];
              && t.state == tasks[i].state && t.policy == tasks[i].policy && t.prio == tasks[i].prio
              && t.weight == tasks[i].weight
              && t.vruntime == tasks[i].vruntime && t.slice == tasks[i].slice
              && (t.policy == Deadline ==> t == tasks[i])
  {
  }

  /** Every step keeps the queues consistent with the task states. */
  lemma NextValid(s: Sys, a: Action)
    requires s.Valid()
    ensures Next(s, a).Valid()
  {
    hide Sys.SleepersOk, Sys.ReadyOk, Tick, Schedule, BlockCurrent, MakeReady;
    match a
    case TickOnce(timeouts) => TickOk(s, 1, timeouts); ScheduleOk(Tick(s, 1, timeouts));
    case GoToSleep(n) => if Running(s) { BlockOk(s, Asleep, n); ScheduleOk(BlockCurrent(s, Asleep, n)); }
    case Block => if Running(s) { BlockOk(s, Blocked, 0); ScheduleOk(BlockCurrent(s, Blocked, 0)); }
    case WakeUp(i) => if IsBlocked(s, i) { WakeUpOk(s, i); }
    case Reschedule => ScheduleOk(s);
  }

  predicate Running(s: Sys) {
    s.current < |s.tasks| && s.tasks[s.current].state == Ready
  }

  predicate IsBlocked(s: Sys, i: nat) {
    i < |s.tasks| && s.tasks[i].state == Blocked
  }

  lemma WakeUpOk(s: Sys, i: nat)
    requires s.Valid() && IsBlocked(s, i)
    ensures MakeReady(s, i).Valid()
  {
    hide R.Disjoint, Z.Distinct, Z.Sleeping, R.Enqueue;
    MakeReadyOk(s, i);
  }

  ghost function Run(s: Sys, run: seq<Action>): (r: Sys)
    requires s.Valid()
    ensures r.Valid()
    decreases |run|
  {
    if run == [] then s else NextValid(s, run[0]); Run(Next(s, run[0]), run[1..])
  }

  // ---------- a sleeping task made ready, as a compile request does ----------

  function EarlyWake(s: Sys, i: nat): Sys
    requires i < |s.tasks|
  {
    MakeReady(s, i).(sleepers := Z.Cut(s.sleepers, i))
  }

  /** The ready lists stay right, but the other sleepers all stay queued only if the task was the last to wake. */
  lemma EarlyWakeExactly(s: Sys, i: nat)
    requires s.Valid() && i < MAX_TASKS && s.tasks[i].state == Asleep
    ensures var r := EarlyWake(s, i);
            && r.ReadyOk() && r.tasks[i].state == Ready && Z.Sleeping(r.sleepers, i)
            && ((forall j :: 0 <= j < MAX_TASKS && r.tasks[j].state == Asleep ==> Z.Sleeping(r.sleepers, j))
                <==> s.sleepers[|s.sleepers| - 1].task == i)
  {
    hide Sys.SleepersOk, Sys.ReadyOk, Z.Sleeping, R.Enqueue, Z.Cut;
    EarlyWakeReady(s, i);
    Z.EarlyWakeHarmless(s.sleepers, i);
    forall j: nat | Z.Sleeping(s.sleepers, j) ensures j < MAX_TASKS && s.tasks[j].state == Asleep {
      SleeperInRange(s, j);
    }
    forall j: nat | j < MAX_TASKS && s.tasks[j].state == Asleep ensures Z.Sleeping(s.sleepers, j) {
      AsleepQueued(s, j);
    }
    assert forall j :: 0 <= j < MAX_TASKS && j != i ==> EarlyWake(s, i).tasks[j] == s.tasks[j];
  }

  lemma EarlyWakeReady(s: Sys, i: nat)
    requires s.Valid() && i < MAX_TASKS && s.tasks[i].state == Asleep
    ensures EarlyWake(s, i).ReadyOk() && Z.Distinct(s.sleepers) && Z.Sleeping(s.sleepers, i)
    ensures Z.Sleeping(Z.Cut(s.sleepers, i), i)
  {
    hide R.Disjoint, Z.Distinct, Z.Sleeping, R.Enqueue, Z.Cut;
    MakeReadyOk(s, i);
    Z.CutSelf(s.sleepers, i);
  }

  lemma AsleepQueued(s: Sys, j: nat)
    requires s.Valid() && j < MAX_TASKS && s.tasks[j].state == Asleep
    ensures Z.Sleeping(s.sleepers, j)
  {
    hide Z.Distinct, Z.Sleeping, Sys.ReadyOk;
  }

  lemma SleeperInRange(s: Sys, j: nat)
    requires s.Valid() && Z.Sleeping(s.sleepers, j)
    ensures j < MAX_TASKS && s.tasks[j].state == Asleep
  {
    hide Z.Distinct, Z.Sleeping, Sys.ReadyOk;
    var k := Z.StandsAt(s.sleepers, j);
  }

  // ---------- real-time budget ----------

  /** Ticks charged to FIFO and RR tasks since the last window reset, counted from outside. */
  ghost function Charged(s: Sys, a: Action, before: nat): nat
    requires s.Valid()
  {
    if !a.TickOnce? then before
    else
      (if s.ticks + 1 - s.rtStart >= 100 then 0 else before) + (if IsRt(s.tasks[s.current].policy) then 1 else 0)
  }

  ghost predicate Budgeted(s: Sys, charged: nat) {
    && s.current < |s.tasks| && charged == s.rtUsed <= 80 && (s.throttled <==> s.rtUsed == 80)
    && (IsRt(s.tasks[s.current].policy) ==> !s.throttled)
  }

  lemma ScheduleBudgeted(s: Sys, charged: nat)
    requires s.Valid() && charged == s.rtUsed <= BUDGET && (s.throttled <==> s.rtUsed == BUDGET)
    ensures Budgeted(Schedule(s), charged)
  {
    hide Sys.Valid, Schedule;
    ScheduleKeeps(s);
    RtChoice(s);
  }

  lemma TickBudgeted(s: Sys, timeouts: seq<nat>, charged: nat)
    requires s.Valid() && Budgeted(s, charged)
    ensures var t := Tick(s, 1, timeouts); var c := Charged(s, TickOnce(timeouts), charged);
            && c == t.rtUsed <= BUDGET && (t.throttled <==> t.rtUsed == BUDGET) && t.current == s.current
            && t.tasks[t.current].policy == s.tasks[s.current].policy && (t.throttled && !s.throttled ==> t.resched)
            && (IsRt(s.tasks[s.current].policy) && t.throttled ==> t.resched)
  {
    hide R.Disjoint, Z.Distinct, Z.Sleeping, Awaken, Account, Z.Insert, Replenish, Z.Advance;
    AwakenKeeps(s.(ticks := s.ticks + 1), 1, timeouts);
  }

  lemma BudgetKept(s: Sys, a: Action, charged: nat)
    requires s.Valid() && Budgeted(s, charged)
    ensures Budgeted(Next(s, a), Charged(s, a, charged))
  {
    hide Sys.SleepersOk, Sys.ReadyOk, Schedule, Tick, R.Remove, Z.Insert, R.Enqueue;
    match a
    case TickOnce(timeouts) =>
      TickOk(s, 1, timeouts);
      TickBudgeted(s, timeouts, charged);
      ScheduleBudgeted(Tick(s, 1, timeouts), Charged(s, a, charged));
    case GoToSleep(n) => if Running(s) { BlockOk(s, Asleep, n); ScheduleBudgeted(BlockCurrent(s, Asleep, n), charged); }
    case Block => if Running(s) { BlockOk(s, Blocked, 0); ScheduleBudgeted(BlockCurrent(s, Blocked, 0), charged); }
    case WakeUp(i) =>
    case Reschedule => ScheduleBudgeted(s, charged);
  }

  lemma ScheduleKeeps(s: Sys)
    requires s.Valid()
    ensures var r := Schedule(s);
            r.rtUsed == s.rtUsed && r.throttled == s.throttled && r.rtStart == s.rtStart && r.ticks == s.ticks
                                  && r.sleepers == s.sleepers
  {
    hide R.Disjoint, Z.Distinct, Z.Sleeping, PickDeadline, PickFair, Fill, R.Highest, Sys.SleepersOk, Sys.ReadyOk;
  }

  /** A real-time task is chosen only while its class is not throttled. */
  lemma RtChoice(s: Sys)
    requires s.Valid()
    ensures var r := Schedule(s); r.current < |r.tasks| && (IsRt(r.tasks[r.current].policy) ==> !s.throttled)
  {
    hide R.Disjoint, Z.Distinct, Z.Sleeping, PickDeadline, PickFair, Schedule, R.Highest, Sys.SleepersOk, Sys.ReadyOk;
    ScheduleOk(s);
  }

  /** Main result: in every run of unit ticks, each followed by the reschedule it asks for, FIFO and RR
      tasks are charged at most 80 ticks between two window resets. */
  lemma {:induction false} RealTimeBudget(s: Sys, run: seq<Action>, charged: nat)
    requires s.Valid() && Budgeted(s, charged)
    ensures Budgeted(Run(s, run), ChargedAll(s, run, charged)) && ChargedAll(s, run, charged) <= 80
    decreases |run|
  {
    if run != [] {
      NextValid(s, run[0]);
      BudgetKept(s, run[0], charged);
      hide Next, Charged, Sys.Valid;
      RealTimeBudget(Next(s, run[0]), run[1..], Charged(s, run[0], charged));
    }
  }

  ghost function ChargedAll(s: Sys, run: seq<Action>, before: nat): nat
    requires s.Valid()
    decreases |run|
  {
    if run == [] then before
    else
      NextValid(s, run[0]);
      ChargedAll(Next(s, run[0]), run[1..], Charged(s, run[0], before))
  }

  // ---------- weighted fairness ----------

  /** The virtual deadline, counting one that is still to be assigned. */
  function Due(t: Task): nat
    requires t.weight > 0
  {
    if t.virtualDeadline == 0 then t.vruntime + Share(t) else t.virtualDeadline
  }

  /** Virtual time charged for the rest of a slice. */
  function Rest(t: Task): nat
    requires t.weight > 0 && t.slice <= Limit(t.policy)
  {
    (Limit(t.policy) - t.slice) * Increment(t, 1)
  }

  /** What a whole slice is charged beyond the share it was scheduled for: a BATCH slice is twice as long, and
      a tick is never charged less than 1. */
  function Overrun(t: Task): nat
    requires t.weight > 0
  {
    var whole := Limit(t.policy) * Increment(t, 1);
    if whole <= Share(t) then 0 else whole - Share(t)
  }

  /** A fair task in the course of a slice: the rest of it ends by the virtual deadline, or by Overrun later. */
  ghost predicate InSlice(t: Task) {
    && t.state == Ready && IsFair(t.policy) && t.weight > 0 && t.slice < Limit(t.policy)
    && t.vruntime + Rest(t) <= Due(t) + Overrun(t) && Due(t) <= t.vruntime + Grant(t)
  }

  /** Nobody has run past another's virtual deadline by more than his overrun, except the task that was running
      at the start, which may still be ahead by what was left of that turn. */
  ghost predicate Spread(tasks: seq<Task>, group: set<nat>, first: nat, start: nat) {
    && (forall i :: i in group ==> 0 < i < |tasks| && InSlice(tasks[i]) && tasks[i].vruntime >= start)
    && (forall i, j :: i in group && j in group ==>
          Behind(tasks[i], tasks[j], i == first, start))
  }

  /** t has not run yet, or not past u's virtual deadline by more than t's overrun, or is in the turn it began
      with. */
  ghost predicate Behind(t: Task, u: Task, began: bool, start: nat)
    requires t.weight > 0 && u.weight > 0
  {
    || t.vruntime <= start
    || t.vruntime <= Due(u) + Overrun(t)
    || (began && t.vruntime <= start + Share(t) + Overrun(t))
  }

  /** The rest of the running task's slice passes nobody's virtual deadline by more than his overrun: he was
      chosen for the earliest one. */
  ghost predicate Leads(tasks: seq<Task>, group: set<nat>, current: nat)
    requires current < |tasks| && InSlice(tasks[current])
    requires forall j :: j in group ==> j < |tasks| && tasks[j].weight > 0
  {
    forall j :: j in group ==>
      tasks[current].vruntime + Rest(tasks[current]) <= Due(tasks[j]) + Overrun(tasks[current])
  }

  /** The rest of the turn ends as a whole slice from the start would. */
  predicate FirstTurn(t: Task, start: nat)
    requires t.weight > 0 && t.slice <= Limit(t.policy)
  {
    t.vruntime + Rest(t) <= start + Share(t) + Overrun(t)
  }

  ghost predicate Fair(s: Sys, group: set<nat>, first: nat, start: nat) {
    && Spread(s.tasks, group, first, start)
    && (s.current in group ==>
          Leads(s.tasks, group, s.current) || (s.current == first && FirstTurn(s.tasks[s.current], start)))
  }

  lemma QuotientBound(n: nat, w: nat, q: nat)
    requires w > 0 && w * q <= n
    ensures q <= n / w
  {
    var d := n / w;
    assert n == w * d + n % w;
    if q > d { Scaled(w, d + 1, q); }
  }

  lemma Scaled(w: nat, a: nat, b: nat)
    requires a <= b
    ensures w * a <= w * b && w * a == w * (a - 1) + w
  {
    assert w * b == w * a + w * (b - a);
  }

  /** A BATCH task is granted twice a share at the end of a slice, a NORMAL one the same. */
  lemma ShareGranted(t: Task)
    requires t.weight > 0
    ensures Share(t) <= Grant(t) && (t.policy != Batch ==> Share(t) == Grant(t))
  {
    var q := 4096 / t.weight;
    assert 4096 == t.weight * q + 4096 % t.weight;
    QuotientBound(8192, t.weight, q);
  }

  lemma RestBounded(t: Task)
    requires t.weight > 0 && t.slice <= Limit(t.policy)
    ensures Rest(t) <= Share(t) + Overrun(t)
  {
    hide Increment, Share;
    Scaled(Increment(t, 1), Limit(t.policy) - t.slice, Limit(t.policy));
  }

  lemma RestShrinks(t: Task)
    requires t.weight > 0 && t.slice < Limit(t.policy)
    ensures Rest(t) == Increment(t, 1) + Rest(t.(slice := t.slice + 1)) && Rest(t) >= Increment(t, 1) > 0
  {
    hide Increment;
    var g, n := Increment(t, 1), Limit(t.policy) - t.slice;
    SameLoad(t, t.(slice := t.slice + 1));
    Scaled(g, 1, n);
    assert n * g == (n - 1) * g + g;
  }

  /** Overrun, Share and Grant depend on policy and weight only. */
  lemma SameLoad(t: Task, u: Task)
    requires t.weight == u.weight > 0 && t.policy == u.policy
    ensures Overrun(t) == Overrun(u) && Share(t) == Share(u) && Grant(t) == Grant(u)
    ensures Increment(t, 1) == Increment(u, 1)
    ensures t.slice == u.slice <= Limit(t.policy) ==> Rest(t) == Rest(u)
  {
  }

  /** One charged tick of a task in its slice. */
  lemma ChargeInSlice(t: Task)
    requires InSlice(t)
    ensures var u := Charge(t, 1);
            && InSlice(u) && t.vruntime <= u.vruntime <= t.vruntime + Rest(t) && Due(t) <= Due(u)
            && (t.slice + 1 < Limit(t.policy) ==> u.vruntime + Rest(u) == t.vruntime + Rest(t))
            && Overrun(u) == Overrun(t) && Share(u) == Share(t)
  {
    hide Increment, Grant, Share, Overrun, Rest;
    var u := Charge(t, 1);
    SameLoad(t, u);
    RestShrinks(t);
    ShareGranted(t);
    if t.slice + 1 < Limit(t.policy) { SameLoad(u, t.(slice := t.slice + 1)); }
    RestBounded(u);
  }

  lemma TickFair(s: Sys, timeouts: seq<nat>, group: set<nat>, first: nat, start: nat)
    requires s.Valid() && Spread(s.tasks, group, first, start)
    ensures var t := Tick(s, 1, timeouts);
            && |t.tasks| == MAX_TASKS && t.current == s.current
            && (forall i :: i in group ==>
                  0 < i < MAX_TASKS && t.tasks[i] == if i == s.current then Charge(s.tasks[i], 1) else s.tasks[i])
            && (s.current in group && s.tasks[s.current].slice + 1 >= Limit(s.tasks[s.current].policy) ==> t.resched)
  {
    hide R.Disjoint, Z.Distinct, Z.Sleeping, Awaken, Charge, Z.Insert, Z.Advance, Replenish, RtAccount,
      Sys.ReadyOk, Share, Due;
    var s0 := s.(ticks := s.ticks + 1);
    AwakenKeeps(s0, 1, timeouts);
    var s1 := Awaken(s0, 1, timeouts);
    forall i | i in group ensures s1.tasks[i] == s.tasks[i] {
      NotWoken(s0, i);
    }
  }

  lemma NotWoken(s: Sys, i: nat)
    requires s.SleepersOk() && i < |s.tasks| && s.tasks[i].state != Asleep
    ensures i !in Z.Advance(s.sleepers, 1).0
  {
    WokenExactly(s.sleepers, 1, i);
  }

  lemma SpreadTick(before: seq<Task>, after: seq<Task>, group: set<nat>, current: nat, first: nat, start: nat)
    requires Spread(before, group, first, start) && |after| == |before|
    requires forall i :: i in group ==> after[i] == if i == current then Charge(before[i], 1) else before[i]
    requires current in group ==>
               Leads(before, group, current) || (current == first && FirstTurn(before[current], start))
    ensures Spread(after, group, first, start)
    ensures current in group && before[current].slice + 1 < Limit(before[current].policy) ==>
              Leads(after, group, current) || (current == first && FirstTurn(after[current], start))
  {
    hide Charge, Due, Share, Overrun, Rest, Grant;
    if current in group { ChargeInSlice(before[current]); }
    forall i, j | i in group && j in group
      ensures Behind(after[i], after[j], i == first, start)
    {
      assert Behind(before[i], before[j], i == first, start);
      if i != current { assert after[i] == before[i]; }
    }
  }

  lemma FillInSlice(t: Task)
    requires InSlice(t)
    ensures var u := Fill(t);
            && InSlice(u) && Due(u) == Due(t) == u.virtualDeadline && u.vruntime == t.vruntime && Runnable(u)
            && Share(u) == Share(t) && Overrun(u) == Overrun(t)
  {
    hide Increment, Grant, Share, Overrun, Rest;
    SameLoad(t, Fill(t));
  }

  /** Only virtual runtimes, due times, shares and overruns matter. */
  lemma SpreadSame(before: seq<Task>, after: seq<Task>, group: set<nat>, first: nat, start: nat)
    requires Spread(before, group, first, start) && |after| == |before|
    requires forall i :: i in group ==>
               && InSlice(after[i]) && Due(after[i]) == Due(before[i]) && after[i].vruntime == before[i].vruntime
               && Share(after[i]) == Share(before[i]) && Overrun(after[i]) == Overrun(before[i])
    ensures Spread(after, group, first, start)
  {
    hide Due, Share, Overrun, Rest, Grant;
    forall i, j | i in group && j in group ensures Behind(after[i], after[j], i == first, start) {
      assert Behind(before[i], before[j], i == first, start);
    }
  }

  /** A member of the group that runs after scheduling was chosen for its virtual deadline. */
  lemma ChosenLeads(s: Sys, group: set<nat>)
    requires s.Valid() && forall i :: i in group ==> 0 < i < MAX_TASKS && InSlice(s.tasks[i])
    ensures var r := Schedule(s);
            && |r.tasks| == MAX_TASKS
            && (forall i :: i in group ==>
                  && InSlice(r.tasks[i]) && Due(r.tasks[i]) == Due(s.tasks[i])
                  && r.tasks[i].vruntime == s.tasks[i].vruntime
                  && Share(r.tasks[i]) == Share(s.tasks[i]) && Overrun(r.tasks[i]) == Overrun(s.tasks[i]))
            && (r.current in group ==> Leads(r.tasks, group, r.current))
  {
    hide R.Disjoint, Z.Distinct, Z.Sleeping, Schedule, Sys.SleepersOk, Sys.ReadyOk, Fill, InSlice, Due, Share, Overrun,
      Rest;
    ScheduleOk(s);
    var r := Schedule(s);
    forall i | i in group
      ensures InSlice(r.tasks[i]) && Due(r.tasks[i]) == Due(s.tasks[i]) && r.tasks[i].vruntime == s.tasks[i].vruntime
      ensures Share(r.tasks[i]) == Share(s.tasks[i]) && Overrun(r.tasks[i]) == Overrun(s.tasks[i])
      ensures r.tasks == FillAll(s.tasks) ==> Due(r.tasks[i]) == r.tasks[i].virtualDeadline && Runnable(r.tasks[i])
    {
      FillInSlice(s.tasks[i]);
    }
    if r.current in group {
      FairOnly(r.tasks[r.current]);
      EndsInTime(r.tasks[r.current]);
    }
  }

  lemma EndsInTime(t: Task)
    requires InSlice(t)
    ensures t.vruntime + Rest(t) <= Due(t) + Overrun(t)
  {
  }

  lemma ScheduleFair(s: Sys, group: set<nat>, first: nat, start: nat)
    requires s.Valid() && Spread(s.tasks, group, first, start)
    ensures Fair(Schedule(s), group, first, start)
  {
    hide Schedule, Sys.SleepersOk, Sys.ReadyOk, InSlice, Due, Share, FirstTurn, Leads;
    ChosenLeads(s, group);
    SpreadSame(s.tasks, Schedule(s).tasks, group, first, start);
  }

  lemma FairOnly(t: Task)
    requires InSlice(t)
    ensures IsFair(t.policy) && !Eligible(t) && !IsRt(t.policy)
  {
  }

  lemma FairKept(s: Sys, a: Action, group: set<nat>, first: nat, start: nat)
    requires s.Valid() && Fair(s, group, first, start) && (a.GoToSleep? || a.Block? ==> s.current !in group)
    ensures Fair(Next(s, a), group, first, start)
  {
    hide Sys.SleepersOk, Sys.ReadyOk, Schedule, Tick, R.Remove, Z.Insert, R.Enqueue, InSlice, Due, FirstTurn, Leads;
    match a
    case TickOnce(timeouts) =>
      var t := Tick(s, 1, timeouts);
      TickOk(s, 1, timeouts);
      TickFair(s, timeouts, group, first, start);
      SpreadTick(s.tasks, t.tasks, group, s.current, first, start);
      if t.resched { ScheduleFair(t, group, first, start); }
    case GoToSleep(n) =>
      if Running(s) { BlockOk(s, Asleep, n); ScheduleFair(BlockCurrent(s, Asleep, n), group, first, start); }
    case Block =>
      if Running(s) { BlockOk(s, Blocked, 0); ScheduleFair(BlockCurrent(s, Blocked, 0), group, first, start); }
    case WakeUp(i) => if IsBlocked(s, i) { GroupReady(s, i, group, first, start); }
    case Reschedule => ScheduleFair(s, group, first, start);
  }

  /** A task that becomes ready is none of the group. */
  lemma GroupReady(s: Sys, i: nat, group: set<nat>, first: nat, start: nat)
    requires Fair(s, group, first, start) && IsBlocked(s, i)
    ensures Fair(MakeReady(s, i), group, first, start)
  {
    hide Due, Share, R.Enqueue;
    assert i !in group;
    assert forall j :: j in group ==> MakeReady(s, i).tasks[j] == s.tasks[j];
    SpreadSame(s.tasks, MakeReady(s, i).tasks, group, first, start);
  }

  ghost predicate StaysReady(s: Sys, run: seq<Action>, group: set<nat>)
    requires s.Valid()
    decreases |run|
  {
    run != [] ==>
      && (run[0].GoToSleep? || run[0].Block? ==> s.current !in group)
      && (NextValid(s, run[0]); StaysReady(Next(s, run[0]), run[1..], group))
  }

  lemma {:induction false} FairRun(s: Sys, run: seq<Action>, group: set<nat>, first: nat, start: nat)
    requires s.Valid() && Fair(s, group, first, start) && StaysReady(s, run, group)
    ensures Fair(Run(s, run), group, first, start)
    decreases |run|
  {
    if run != [] {
      NextValid(s, run[0]);
      FairKept(s, run[0], group, first, start);
      hide Next, Sys.Valid, Fair;
      FairRun(Next(s, run[0]), run[1..], group, first, start);
    }
  }

  /** A task whose virtual deadline was just cleared is in the course of a slice, whatever it has used of it. */
  lemma ClearedInSlice(t: Task)
    requires t.state == Ready && IsFair(t.policy) && t.weight > 0 && t.slice < Limit(t.policy) && t.virtualDeadline == 0
    ensures InSlice(t)
  {
    hide Increment, Grant, Share, Overrun, Rest;
    RestBounded(t);
    ShareGranted(t);
  }

  /** There is no overrun exactly for NORMAL tasks of weight at most 1024. */
  lemma OverrunExactly(t: Task)
    requires t.weight > 0 && IsFair(t.policy)
    ensures Overrun(t) == 0 <==> t.policy == Normal && t.weight <= 1024
  {
    var w, q, d := t.weight, 1024 / t.weight, 4096 / t.weight;
    assert 1024 == w * q + 1024 % w && 4096 == w * d + 4096 % w;
    if w <= 1024 {
      QuotientBound(1024, w, 1);
      assert w * (4 * q) == 4 * (w * q);
      QuotientBound(4096, w, 4 * q);
      if d >= 4 * q + 4 {
        Scaled(w, 4 * q + 4, d);
        assert w * (4 * q + 4) == 4 * (w * q + w);
      }
    } else if d >= 4 {
      Scaled(w, 4, d);
    }
  }

  /** Main result: among fair tasks that stay ready, started at equal virtual runtime, nobody is ever further
      ahead of another than what the other is granted per slice and his own overrun, whatever other work
      interleaves; only a task that was already running at the start can instead be ahead by its own share and
      overrun. */
  lemma WeightedFairness(s: Sys, run: seq<Action>, group: set<nat>, start: nat)
    requires s.Valid() && StaysReady(s, run, group)
    requires forall i :: i in group ==> i < MAX_TASKS && InSlice(s.tasks[i]) && s.tasks[i].vruntime == start
    ensures var t := Run(s, run);
            forall i, j :: i in group && j in group ==>
              var (u, v) := (s.tasks[i], s.tasks[j]);
              || t.tasks[i].vruntime <= t.tasks[j].vruntime + Grant(v) + Overrun(u)
              || (i == s.current && t.tasks[i].vruntime <= t.tasks[j].vruntime + Share(u) + Overrun(u))
  {
    hide Run, StaysReady, Sys.SleepersOk, Sys.ReadyOk, Share, Overrun, Rest, Grant;
    forall i | i in group ensures 0 < i < |s.tasks| && FirstTurn(s.tasks[i], start) { RestBounded(s.tasks[i]); }
    assert Fair(s, group, s.current, start);
    FairRun(s, run, group, s.current, start);
    WeightsKept(s, run);
    forall i | i in group ensures Overrun(Run(s, run).tasks[i]) == Overrun(s.tasks[i])
      ensures Share(Run(s, run).tasks[i]) == Share(s.tasks[i]) && Grant(Run(s, run).tasks[i]) == Grant(s.tasks[i])
    {
      SameLoad(s.tasks[i], Run(s, run).tasks[i]);
    }
    FairBound(Run(s, run), group, s.current, start);
  }

  lemma FairBound(s: Sys, group: set<nat>, first: nat, start: nat)
    requires Fair(s, group, first, start)
    ensures forall i, j :: i in group && j in group ==>
              || s.tasks[i].vruntime <= s.tasks[j].vruntime + Grant(s.tasks[j]) + Overrun(s.tasks[i])
              || (i == first && s.tasks[i].vruntime <= s.tasks[j].vruntime + Share(s.tasks[i]) + Overrun(s.tasks[i]))
  {
    hide Share, Overrun, Rest, Grant, Due, Leads, FirstTurn;
    forall i, j | i in group && j in group
      ensures || s.tasks[i].vruntime <= s.tasks[j].vruntime + Grant(s.tasks[j]) + Overrun(s.tasks[i])
              || (i == first && s.tasks[i].vruntime <= s.tasks[j].vruntime + Share(s.tasks[i]) + Overrun(s.tasks[i]))
    {
      assert InSlice(s.tasks[j]) && Behind(s.tasks[i], s.tasks[j], i == first, start);
    }
  }

  lemma {:induction false} WeightsKept(s: Sys, run: seq<Action>)
    requires s.Valid()
    ensures forall i :: 0 <= i < MAX_TASKS ==>
              && Run(s, run).tasks[i].weight == s.tasks[i].weight
              && Run(s, run).tasks[i].policy == s.tasks[i].policy
              && Run(s, run).tasks[i].runtime == s.tasks[i].runtime
              && Run(s, run).tasks[i].period == s.tasks[i].period
    decreases |run|
  {
    if run != [] {
      NextValid(s, run[0]);
      ConstantsKept(s, run[0]);
      hide Next;
      WeightsKept(Next(s, run[0]), run[1..]);
    }
  }

  predicate SameConstants(t: Task, u: Task) {
    u.weight == t.weight && u.policy == t.policy && u.runtime == t.runtime && u.period == t.period
  }

  predicate AllConstants(s: seq<Task>, t: seq<Task>) {
    |s| == |t| == MAX_TASKS && forall i :: 0 <= i < MAX_TASKS ==> SameConstants(s[i], t[i])
  }

  lemma ScheduleConstants(s: Sys)
    requires s.Valid()
    ensures AllConstants(s.tasks, Schedule(s).tasks)
  {
    hide Schedule, Sys.SleepersOk, Sys.ReadyOk;
    ScheduleOk(s);
  }

  lemma ConstantsKept(s: Sys, a: Action)
    requires s.Valid()
    ensures AllConstants(s.tasks, Next(s, a).tasks)
  {
    hide Sys.SleepersOk, Sys.ReadyOk, Schedule, Tick, R.Remove, Z.Insert, R.Enqueue;
    match a
    case TickOnce(timeouts) =>
      TickOk(s, 1, timeouts);
      TickConstants(s, timeouts);
      ScheduleConstants(Tick(s, 1, timeouts));
    case GoToSleep(n) => if Running(s) { BlockOk(s, Asleep, n); ScheduleConstants(BlockCurrent(s, Asleep, n)); }
    case Block => if Running(s) { BlockOk(s, Blocked, 0); ScheduleConstants(BlockCurrent(s, Blocked, 0)); }
    case WakeUp(i) =>
    case Reschedule => ScheduleConstants(s);
  }

  lemma TickConstants(s: Sys, timeouts: seq<nat>)
    requires s.Valid()
    ensures forall i :: 0 <= i < MAX_TASKS ==> SameConstants(s.tasks[i], Tick(s, 1, timeouts).tasks[i])
  {
    hide Z.Distinct, Z.Sleeping, Awaken, Z.Advance, Account, Sys.ReadyOk, Replenish, RtAccount;
    AwakenKeeps(s.(ticks := s.ticks + 1), 1, timeouts);
    AccountConstants(Awaken(s.(ticks := s.ticks + 1), 1, timeouts));
  }

  lemma AccountConstants(s: Sys)
    requires s.current < |s.tasks| && s.tasks[s.current].weight > 0
    ensures SameConstants(s.tasks[s.current], Account(s, 1).tasks[s.current])
  {
    hide Z.Insert, R.Rotate, Increment, Grant;
  }
}
