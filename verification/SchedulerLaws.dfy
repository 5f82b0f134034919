/** Which task runs next and what a tick takes from it, said by the states of the tasks: the order of the classes,
    the turns of round-robin tasks, and what is charged to fair and deadline tasks along a run. */
module SchedulerLaws {
  import opened Common
  import R = ReadyList
  import Z = SleepQueue
  import opened Scheduling
  import opened SchedulerRuns
  import opened DeadlineRuns

  // ---------- who runs next ----------

  predicate HasBudget(t: Task) { t.state == Ready && t.policy == Deadline && t.remaining > 0 }

  predicate RealTime(t: Task) { t.state == Ready && (t.policy == Fifo || t.policy == Rr) }

  predicate FairReady(t: Task) { t.state == Ready && (t.policy == Normal || t.policy == Batch) }

  /** The priority level, 0 the highest. */
  function Urgency(t: Task): nat { if t.prio < 16 then t.prio else 15 }

  /** The virtual deadline, a missing one being a share ahead of the virtual runtime. */
  function Wanted(t: Task): nat
    requires t.weight > 0
  {
    if t.virtualDeadline == 0 then t.vruntime + 4096 / t.weight else t.virtualDeadline
  }

  /** The best of the tasks with property p, the first of several. */
  ghost predicate Best(tasks: seq<Task>, c: nat, p: Task -> bool, key: Task -> int) {
    && c < |tasks| && p(tasks[c])
    && forall j :: 0 <= j < |tasks| && p(tasks[j]) ==>
         key(tasks[c]) <= key(tasks[j]) && (j < c ==> key(tasks[c]) < key(tasks[j]))
  }

  ghost predicate AnyOf(tasks: seq<Task>, p: Task -> bool) {
    exists j :: 0 <= j < |tasks| && p(tasks[j])
  }

  lemma PicksDeadline(s: Sys)
    requires s.Valid() && AnyOf(s.tasks, HasBudget)
    ensures var r := Schedule(s);
            r == s.(current := r.current, resched := false)
            && Best(s.tasks, r.current, HasBudget, (t: Task) => t.absDeadline)
  {
    hide R.Disjoint, Z.Distinct, Z.Sleeping, PickFair, FillAll, R.Highest;
    var j :| 0 <= j < |s.tasks| && HasBudget(s.tasks[j]);
    assert Eligible(s.tasks[j]);
    var b := PickDeadline(s.tasks, MAX_TASKS);
    forall k | 0 <= k < |s.tasks| && HasBudget(s.tasks[k])
      ensures s.tasks[b].absDeadline <= s.tasks[k].absDeadline
              && (k < b ==> s.tasks[b].absDeadline < s.tasks[k].absDeadline)
    {
      assert Eligible(s.tasks[k]);
    }
  }

  /** The real-time task that waits longest among those of the most urgent level in use. */
  ghost predicate FirstUrgent(s: Sys, c: nat)
    requires |s.tasks| == 13
  {
    && c < 13 && RealTime(s.tasks[c]) && s.ready[Urgency(s.tasks[c])] != [] && s.ready[Urgency(s.tasks[c])][0] == c
    && forall j :: 0 <= j < 13 && RealTime(s.tasks[j]) ==> Urgency(s.tasks[c]) <= Urgency(s.tasks[j])
  }

  lemma NoBudgetLeft(s: Sys)
    requires s.Valid() && !AnyOf(s.tasks, HasBudget)
    ensures PickDeadline(s.tasks, MAX_TASKS) == INVALID
  {
    hide Sys.SleepersOk, Sys.ReadyOk;
    assert forall j :: 0 <= j < |s.tasks| ==> !HasBudget(s.tasks[j]);
  }

  lemma PicksRealTime(s: Sys)
    requires s.Valid() && !AnyOf(s.tasks, HasBudget) && !s.throttled && AnyOf(s.tasks, RealTime)
    ensures var r := Schedule(s); r == s.(current := r.current, resched := false) && FirstUrgent(s, r.current)
  {
    hide R.Disjoint, Sys.SleepersOk, PickDeadline, PickFair, FillAll;
    NoBudgetLeft(s);
    var j :| 0 <= j < |s.tasks| && RealTime(s.tasks[j]);
    var h := R.Highest(s.ready, 0);
    InItsList(s, j);
    R.HighestIsFirst(s.ready, 0);
    var p :| 0 <= p < R.LEVELS && s.ready[p] != [] && s.ready[p][0] == h && forall q :: 0 <= q < p ==> s.ready[q] == [];
    ListedIsReady(s, p, h);
    forall k | 0 <= k < 13 && RealTime(s.tasks[k]) ensures Urgency(s.tasks[h]) <= Urgency(s.tasks[k]) {
      InItsList(s, k);
    }
  }

  lemma InItsList(s: Sys, j: nat)
    requires s.Valid() && j < 13 && RealTime(s.tasks[j])
    ensures j in s.ready[Urgency(s.tasks[j])]
  {
    hide R.Disjoint, Sys.SleepersOk;
    assert Belongs(s.tasks, j, Urgency(s.tasks[j]));
  }

  lemma ListedIsReady(s: Sys, p: nat, h: nat)
    requires s.Valid() && p < 16 && h in s.ready[p]
    ensures h < 13 && RealTime(s.tasks[h]) && Urgency(s.tasks[h]) == p && AnyOf(s.tasks, RealTime)
  {
    hide R.Disjoint, Sys.SleepersOk;
    assert Belongs(s.tasks, h, p);
  }

  lemma NobodyUrgent(s: Sys)
    requires s.Valid() && !AnyOf(s.tasks, RealTime)
    ensures R.Highest(s.ready, 0) == INVALID
  {
    hide Sys.SleepersOk, AnyOf;
    R.HighestIsFirst(s.ready, 0);
    if R.Highest(s.ready, 0) != INVALID {
      var p :| 0 <= p < R.LEVELS && s.ready[p] != [];
      ListedIsReady(s, p, s.ready[p][0]);
    }
  }

  /** What the fair class leaves behind: the missing virtual deadlines of its ready tasks assigned. */
  ghost predicate Assigned(s: Sys, r: Sys) {
    && r == s.(tasks := r.tasks, current := r.current, resched := false) && |r.tasks| == |s.tasks|
    && forall j :: 0 <= j < |s.tasks| ==>
         && s.tasks[j].weight > 0
         && r.tasks[j] == if FairReady(s.tasks[j]) then s.tasks[j].(virtualDeadline := Wanted(s.tasks[j]))
                          else s.tasks[j]
  }

  lemma FairChoice(tasks: seq<Task>)
    requires |tasks| == 13
    ensures var f := PickFair(tasks, 13);
            if AnyOf(tasks, FairReady) then Best(tasks, f, FairReady, (t: Task) => t.virtualDeadline) else f == INVALID
  {
    var f := PickFair(tasks, 13);
    assert forall k :: 0 <= k < |tasks| ==> (Runnable(tasks[k]) <==> FairReady(tasks[k]));
  }

  lemma FilledAssigned(s: Sys, c: nat)
    requires s.Valid()
    ensures Assigned(s, s.(tasks := FillAll(s.tasks), current := c, resched := false))
    ensures AnyOf(FillAll(s.tasks), FairReady) <==> AnyOf(s.tasks, FairReady)
  {
    hide Sys.SleepersOk, Sys.ReadyOk;
    var tasks := FillAll(s.tasks);
    assert forall j :: 0 <= j < |s.tasks| ==> (FairReady(tasks[j]) <==> FairReady(s.tasks[j]));
  }

  lemma PicksFair(s: Sys)
    requires s.Valid() && !AnyOf(s.tasks, HasBudget) && (s.throttled || !AnyOf(s.tasks, RealTime))
    ensures var r := Schedule(s);
            && Assigned(s, r)
            && if AnyOf(s.tasks, FairReady) then Best(r.tasks, r.current, FairReady, (t: Task) => t.virtualDeadline)
               else r.current == 0
  {
    hide Sys.SleepersOk, Sys.ReadyOk, PickDeadline, R.Highest, PickFair, FillAll, Best, AnyOf, Assigned;
    NoBudgetLeft(s);
    if !s.throttled { NobodyUrgent(s); }
    FairChoice(FillAll(s.tasks));
    FilledAssigned(s, Schedule(s).current);
    if AnyOf(s.tasks, FairReady) { BestInRange(FillAll(s.tasks), PickFair(FillAll(s.tasks), MAX_TASKS)); }
  }

  lemma BestInRange(tasks: seq<Task>, f: nat)
    requires |tasks| == 13 && Best(tasks, f, FairReady, (t: Task) => t.virtualDeadline)
    ensures f < 13
  {
  }

  /** Main result: a ready deadline task with budget comes first, the one with the earliest deadline; then, unless
      throttled, the first task of the most urgent real-time level; then the ready NORMAL or BATCH task with the
      least virtual deadline; then the idle task. */
  lemma ClassesInOrder(s: Sys)
    requires s.Valid()
    ensures var r := Schedule(s);
            if AnyOf(s.tasks, HasBudget) then
              && r == s.(current := r.current, resched := false)
              && Best(s.tasks, r.current, HasBudget, (t: Task) => t.absDeadline)
            else if !s.throttled && AnyOf(s.tasks, RealTime) then
              r == s.(current := r.current, resched := false) && FirstUrgent(s, r.current)
            else
              && Assigned(s, r)
              && if AnyOf(s.tasks, FairReady) then Best(r.tasks, r.current, FairReady, (t: Task) => t.virtualDeadline)
                 else r.current == 0
  {
    hide Sys.Valid, Schedule, Best, AnyOf, Assigned, FirstUrgent;
    if AnyOf(s.tasks, HasBudget) { PicksDeadline(s); }
    else if !s.throttled && AnyOf(s.tasks, RealTime) { PicksRealTime(s); }
    else { PicksFair(s); }
  }

  // ---------- what a tick charges ----------

  /** What the tick charges to the running task when the wake-ups are done. */
  lemma TickCharges(s: Sys, timeouts: seq<nat>)
    requires s.Valid()
    ensures var a, t := Awaken(s.(ticks := s.ticks + 1), 1, timeouts), Tick(s, 1, timeouts);
            && a.Valid() && a.current == s.current && a.ticks == s.ticks + 1
            && t.tasks == Account(a, 1).tasks && t.ready == Account(a, 1).ready && t.sleepers == Account(a, 1).sleepers
            && (Account(a, 1).resched ==> t.resched)
            && forall i :: 0 <= i < 13 && i != s.current ==> t.tasks[i] == a.tasks[i]
  {
    hide Sys.SleepersOk, Sys.ReadyOk, Account, Awaken, Z.Advance, Replenish;
    TimePasses(s);
    InRange(s);
    AwakenValid(s.(ticks := s.ticks + 1), 1, timeouts);
    AwakenKeeps(s.(ticks := s.ticks + 1), 1, timeouts);
  }

  /** The running task is left as it was by the wake-ups, if it is ready. */
  lemma RunnerUntouched(s: Sys, timeouts: seq<nat>)
    requires s.Valid() && s.tasks[s.current].state == Ready
    ensures Awaken(s.(ticks := s.ticks + 1), 1, timeouts).tasks[s.current] == s.tasks[s.current]
  {
    hide Sys.ReadyOk, Awaken, Z.Advance, Replenish, Z.Distinct, Z.Sleeping;
    var s0 := s.(ticks := s.ticks + 1);
    InRange(s);
    AwakenKeeps(s0, 1, timeouts);
    NotWoken(s0, s.current);
  }

  lemma RunnerNotWoken(s: Sys)
    requires s.Valid() && s.tasks[s.current].state == Ready
    ensures s.current !in Z.Advance(s.sleepers, 1).0
  {
    hide Sys.ReadyOk, Z.Distinct, Z.Sleeping, Z.Advance;
    NotWoken(s, s.current);
  }

  // ---------- fair tasks ----------

  /** Virtual time per tick. */
  function Pace(t: Task): nat
    requires t.weight > 0
  {
    if t.weight <= 1024 then 1024 / t.weight else 1
  }

  function SliceLength(t: Task): nat { if t.policy == Batch then 8 else 4 }

  predicate Ticks1(s: Sys, a: Action, i: nat) { a.TickOnce? && s.current == i }

  lemma PaceIs(t: Task)
    requires t.weight > 0
    ensures Increment(t, 1) == Pace(t)
  {
    var q := 1024 / t.weight;
    assert 1024 == t.weight * q + 1024 % t.weight;
    if q > 0 { Scaled(t.weight, 1, q); }
  }

  /** A fair task's account after one action: a tick it runs for costs it its pace and one tick of its slice, at the
      end of which its next virtual deadline is set; nothing else touches either. */
  ghost predicate FairStep(t: Task, u: Task, ran: bool)
    requires t.weight > 0
  {
    && u.weight == t.weight && u.policy == t.policy
    && u.vruntime == t.vruntime + (if ran then Pace(t) else 0)
    && u.slice == (if !ran then t.slice else if t.slice + 1 < SliceLength(t) then t.slice + 1 else 0)
    && if ran && t.slice + 1 >= SliceLength(t) then u.virtualDeadline == u.vruntime + SliceLength(t) * 1024 / t.weight
       else u.virtualDeadline == t.virtualDeadline
            || (t.virtualDeadline == 0 && u.virtualDeadline == u.vruntime + 4096 / t.weight)
  }

  lemma ChargeIsFair(t: Task)
    requires t.weight > 0 && IsFair(t.policy)
    ensures FairStep(t, Charge(t, 1), true)
  {
    hide Increment;
    PaceIs(t);
  }

  lemma FillIsFair(t: Task, u: Task, ran: bool)
    requires t.weight > 0 && IsFair(t.policy) && FairStep(t, u, ran)
    ensures FairStep(t, Fill(u), ran)
  {
    PacePositive(t);
    hide Pace;
  }

  lemma PacePositive(t: Task)
    requires t.weight > 0
    ensures Pace(t) > 0
  {
    PaceIs(t);
  }

  lemma ScheduleIsFair(s: Sys, i: nat, t: Task, ran: bool)
    requires s.Valid() && i < 13 && t.weight > 0 && IsFair(t.policy) && FairStep(t, s.tasks[i], ran)
    ensures FairStep(t, Schedule(s).tasks[i], ran)
  {
    hide Sys.SleepersOk, Sys.ReadyOk, FairStep, PickDeadline, PickFair, R.Highest;
    FillIsFair(t, s.tasks[i], ran);
  }

  lemma TickIsFair(s: Sys, timeouts: seq<nat>, i: nat)
    requires s.Valid() && i < 13 && IsFair(s.tasks[i].policy)
    ensures FairStep(s.tasks[i], Tick(s, 1, timeouts).tasks[i], s.current == i)
  {
    hide Sys.SleepersOk, Sys.ReadyOk, Tick, Awaken, Z.Advance, Replenish, Charge, Pace;
    var s0 := s.(ticks := s.ticks + 1);
    TickCharges(s, timeouts);
    InRange(s);
    AwakenKeeps(s0, 1, timeouts);
    var a := Awaken(s0, 1, timeouts);
    ChargeIsFair(a.tasks[i]);
    PaceKept(s.tasks[i], a.tasks[i]);
  }

  lemma FairNext(s: Sys, a: Action, i: nat)
    requires s.Valid() && i < 13 && IsFair(s.tasks[i].policy)
    ensures FairStep(s.tasks[i], Next(s, a).tasks[i], Ticks1(s, a, i))
  {
    hide Sys.SleepersOk, Sys.ReadyOk, Schedule, Tick, FairStep, BlockCurrent, MakeReady;
    var t := s.tasks[i];
    SameIsFair(t);
    match a
    case TickOnce(timeouts) =>
      TickIsFair(s, timeouts, i);
      TickOk(s, 1, timeouts);
      ScheduleIsFair(Tick(s, 1, timeouts), i, t, Ticks1(s, a, i));
    case GoToSleep(n) =>
      if Running(s) {
        BlockOk(s, Asleep, n);
        BlockIsFair(s, Asleep, n, i);
        ScheduleIsFair(BlockCurrent(s, Asleep, n), i, t, false);
      }
    case Block =>
      if Running(s) {
        BlockOk(s, Blocked, 0);
        BlockIsFair(s, Blocked, 0, i);
        ScheduleIsFair(BlockCurrent(s, Blocked, 0), i, t, false);
      }
    case WakeUp(j) => if IsBlocked(s, j) { ReadyIsFair(s, j, i); }
    case Reschedule => ScheduleIsFair(s, i, t, false);
  }

  lemma SameIsFair(t: Task)
    requires t.weight > 0
    ensures forall state :: FairStep(t, t.(state := state), false)
  {
  }

  lemma BlockIsFair(s: Sys, state: Status, n: nat, i: nat)
    requires s.Valid() && i < 13 && IsFair(s.tasks[i].policy) && Running(s)
    ensures BlockCurrent(s, state, n).Shaped() ==> FairStep(s.tasks[i], BlockCurrent(s, state, n).tasks[i], false)
  {
    hide Sys.SleepersOk, Sys.ReadyOk, FairStep, Z.Insert, R.Remove;
    SameIsFair(s.tasks[i]);
    assert s.tasks[i] == s.tasks[i].(state := s.tasks[i].state);
  }

  lemma ReadyIsFair(s: Sys, j: nat, i: nat)
    requires s.Valid() && i < 13 && IsFair(s.tasks[i].policy) && IsBlocked(s, j)
    ensures FairStep(s.tasks[i], MakeReady(s, j).tasks[i], false)
  {
    hide Sys.SleepersOk, Sys.ReadyOk, FairStep, R.Enqueue;
    SameIsFair(s.tasks[i]);
    assert s.tasks[i] == s.tasks[i].(state := s.tasks[i].state);
  }

  /** Ticks that the task runs for. */
  ghost function Served(s: Sys, run: seq<Action>, i: nat): nat
    requires s.Valid()
    decreases |run|
  {
    if run == [] then 0
    else NextValid(s, run[0]); (if Ticks1(s, run[0], i) then 1 else 0) + Served(Next(s, run[0]), run[1..], i)
  }

  /** Main result: along any run a fair task's virtual runtime grows by exactly its pace, 1024 / weight but at least 1,
      for every tick it runs for, and nothing else; and its slice counts those ticks modulo its length. */
  lemma {:induction false} FairService(s: Sys, run: seq<Action>, i: nat)
    requires s.Valid() && i < 13 && IsFair(s.tasks[i].policy) && s.tasks[i].slice < SliceLength(s.tasks[i])
    ensures var t, u, n := s.tasks[i], Run(s, run).tasks[i], Served(s, run, i);
            u.vruntime == t.vruntime + n * Pace(t) && u.slice == (t.slice + n) % SliceLength(t)
    decreases |run|
  {
    hide Sys.SleepersOk, Sys.ReadyOk, Next, Pace;
    if run != [] {
      NextValid(s, run[0]);
      FairNext(s, run[0], i);
      var t, u := s.tasks[i], Next(s, run[0]).tasks[i];
      PaceKept(t, u);
      FairService(Next(s, run[0]), run[1..], i);
      var n, k := Served(Next(s, run[0]), run[1..], i), if Ticks1(s, run[0], i) then 1 else 0;
      assert (n + k) * Pace(t) == n * Pace(t) + k * Pace(t);
      SliceOn(t.slice, k, n, SliceLength(t));
    }
  }

  lemma PaceKept(t: Task, u: Task)
    requires t.weight == u.weight > 0
    ensures Pace(t) == Pace(u)
  {
  }

  lemma SliceOn(slice: nat, k: nat, n: nat, length: nat)
    requires (length == 4 || length == 8) && slice < length && k <= 1
    ensures ((if slice + k < length then slice + k else 0) + n) % length == (slice + (k + n)) % length
  {
  }

  // ---------- deadline tasks ----------

  /** Runtime used since the last replenishment and budget left add up to the runtime, and a deadline task that runs
      has budget left. */
  ghost predicate Kept(s: Sys, d: nat, w: Watch) {
    && 0 < d < |s.tasks| && s.tasks[d].policy == Deadline && s.current < |s.tasks|
    && w.used + s.tasks[d].remaining == s.tasks[d].runtime
    && (s.tasks[s.current].policy == Deadline ==> HasBudget(s.tasks[s.current]))
  }

  lemma ScheduleKept(s: Sys, d: nat, w: Watch)
    requires s.Valid() && Kept(s.(current := 0), d, w)
    ensures Kept(Schedule(s), d, w)
  {
    hide R.Disjoint, Z.Distinct, Z.Sleeping, Schedule, Sys.ReadyOk, Sys.SleepersOk, PickFair;
    ScheduleOk(s);
    FillKeeps(s.tasks);
  }

  lemma TickKept(s: Sys, a: Action, d: nat, w: Watch)
    requires s.Valid() && Kept(s, d, w) && a.TickOnce?
    ensures var t, v := Tick(s, 1, a.timeouts), Observe(s, a, d, w);
            Kept(t.(current := 0), d, v) && (!t.resched ==> Kept(t, d, v))
  {
    hide Sys.SleepersOk, Sys.ReadyOk, Tick, Awaken, Z.Advance, Charge, Z.Insert, R.Rotate;
    var s0 := s.(ticks := s.ticks + 1);
    TickCharges(s, a.timeouts);
    InRange(s);
    AwakenKeeps(s0, 1, a.timeouts);
    if s.tasks[s.current].policy == Deadline {
      RunnerUntouched(s, a.timeouts);
      RunnerNotWoken(s);
    }
  }

  lemma NextKept(s: Sys, a: Action, d: nat, w: Watch)
    requires s.Valid() && Kept(s, d, w)
    ensures Kept(Next(s, a), d, Observe(s, a, d, w))
  {
    hide Sys.SleepersOk, Sys.ReadyOk, Schedule, Tick, R.Remove, Z.Insert, R.Enqueue, Z.Advance;
    match a
    case TickOnce(timeouts) =>
      TickOk(s, 1, timeouts);
      TickKept(s, a, d, w);
      ScheduleKept(Tick(s, 1, timeouts), d, Observe(s, a, d, w));
    case GoToSleep(n) =>
      if Running(s) { BlockOk(s, Asleep, n); ScheduleKept(BlockCurrent(s, Asleep, n), d, w); }
    case Block => if Running(s) { BlockOk(s, Blocked, 0); ScheduleKept(BlockCurrent(s, Blocked, 0), d, w); }
    case WakeUp(i) =>
    case Reschedule => ScheduleKept(s, d, w);
  }

  ghost function ObserveAll(s: Sys, run: seq<Action>, d: nat, w: Watch): Watch
    requires s.Valid()
    decreases |run|
  {
    if run == [] then w
    else NextValid(s, run[0]); ObserveAll(Next(s, run[0]), run[1..], d, Observe(s, run[0], d, w))
  }

  /** Along any run the budget of a deadline task is its runtime less exactly the ticks it has run for since it was
      last replenished. */
  lemma {:induction false} BudgetExactly(s: Sys, run: seq<Action>, d: nat, w: Watch)
    requires s.Valid() && Kept(s, d, w)
    ensures Kept(Run(s, run), d, ObserveAll(s, run, d, w))
    decreases |run|
  {
    hide Sys.Valid, Next, Kept, Observe;
    if run != [] {
      NextValid(s, run[0]);
      NextKept(s, run[0], d, w);
      BudgetExactly(Next(s, run[0]), run[1..], d, Observe(s, run[0], d, w));
    }
  }

  /** Somebody in the queue wakes n ticks from now. */
  ghost predicate AnotherDue(q: Z.Deltas, n: nat) {
    exists j :: Z.Sleeping(q, j) && Z.Remaining(q, j) == n
  }

  /** Ticks until a task wakes that is queued for n ticks: at least one, and one more if another is due then. */
  ghost predicate WakesAfter(before: Z.Deltas, after: Z.Deltas, i: nat, n: nat) {
    && Z.Sleeping(after, i)
    && Z.WakesIn(after, i) == (if n == 0 then 1 else n) + if AnotherDue(before, if n == 0 then 1 else n) then 1 else 0
  }

  lemma QueuedFor(s: Sys, i: nat, n: nat)
    requires Z.Distinct(s.sleepers) && !Z.Sleeping(s.sleepers, i)
    ensures WakesAfter(s.sleepers, Z.Insert(s.sleepers, i, n), i, n)
  {
    hide Z.Insert, Z.WakesIn, Z.Distinct, Z.DueIn;
    var m := if n == 0 then 1 else n;
    InsertSelf(s, i, n);
    if Z.DueIn(s.sleepers, m) { var j := Z.SomebodyDue(s.sleepers, m); }
    if j :| Z.Sleeping(s.sleepers, j) && Z.Remaining(s.sleepers, j) == m { Z.DueByHim(s.sleepers, j); }
  }

  /** The tick that takes the last of a deadline task's budget puts it to sleep until its next release, or for a
      period if that has passed. */
  lemma ExhaustionSleeps(s: Sys, timeouts: seq<nat>)
    requires s.Valid() && s.tasks[s.current].policy == Deadline && s.tasks[s.current].state == Ready
    ensures var d, now := s.current, s.ticks + 1;
            var t, u, a := Tick(s, 1, timeouts), s.tasks[s.current], Awaken(s.(ticks := now), 1, timeouts);
            && t.tasks[d] == (if u.remaining > 1 then u.(remaining := u.remaining - 1)
                              else u.(remaining := 0, state := Asleep))
            && (u.remaining > 1 ==> t.sleepers == a.sleepers)
            && (u.remaining <= 1 ==>
                  && t.resched
                  && WakesAfter(a.sleepers, t.sleepers, d,
                                if u.nextRelease > now then u.nextRelease - now else u.period))
  {
    hide Sys.SleepersOk, Sys.ReadyOk, Tick, Awaken, Z.Insert, WakesAfter;
    TickCharges(s, timeouts);
    RunnerUntouched(s, timeouts);
    InRange(s);
    var a, u := Awaken(s.(ticks := s.ticks + 1), 1, timeouts), s.tasks[s.current];
    AwakeInQueue(a, s.current);
    SleepersDistinct(a);
    QueuedFor(a, s.current, if u.nextRelease > a.ticks then u.nextRelease - a.ticks else u.period);
  }

  lemma SleepersDistinct(s: Sys)
    requires s.Valid()
    ensures Z.Distinct(s.sleepers)
  {
    hide Z.Distinct, Z.Sleeping, Sys.ReadyOk;
  }

  /** The tick at which a sleeper is to wake makes it ready, a deadline task with its whole runtime and its deadline and
      next release a period ahead; no other sleeper is touched, and blocked tasks only by a timeout. */
  lemma WakingMeans(s: Sys, timeouts: seq<nat>, i: nat)
    requires s.Valid() && i < 13
    ensures var t, u, now := Awaken(s.(ticks := s.ticks + 1), 1, timeouts).tasks[i], s.tasks[i], s.ticks + 1;
            t == if u.state == Asleep && Z.Sleeping(s.sleepers, i) && Z.WakesIn(s.sleepers, i) == 1 then
                   if u.policy == Deadline then
                     u.(state := Ready, remaining := u.runtime, absDeadline := now + u.period,
                        nextRelease := now + u.period)
                   else u.(state := Ready)
                 else if u.state == Blocked && i in timeouts then u.(state := Ready)
                 else u
  {
    hide Sys.ReadyOk, Awaken, Z.Advance, Z.Distinct, Z.Sleeping, Z.WakesIn, SleepAdvance, Release;
    var s0 := s.(ticks := s.ticks + 1);
    InRange(s);
    WakeKeeps(s0, 1);
    AwakenUnfolds(s0, timeouts);
    ReleaseKeeps(SleepAdvance(s0, 1), timeouts);
    if Z.Sleeping(s.sleepers, i) { Z.TickExactly(s.sleepers, i); } else { NotWoken(s0, i); }
  }

  lemma AwakenUnfolds(s: Sys, timeouts: seq<nat>)
    requires forall k :: 0 <= k < |s.sleepers| ==> s.sleepers[k].task < |s.tasks|
    ensures Awaken(s, 1, timeouts) == Release(SleepAdvance(s, 1), timeouts)
  {
    hide SleepAdvance, Release;
  }

  /** A task that goes to sleep for n ticks. */
  lemma SleepingMeans(s: Sys, n: nat)
    requires s.Valid() && Running(s)
    ensures var t, i := BlockCurrent(s, Asleep, n), s.current;
            && t.tasks == s.tasks[i := s.tasks[i].(state := Asleep)] && t.resched
            && WakesAfter(s.sleepers, t.sleepers, i, n)
  {
    hide Sys.SleepersOk, Sys.ReadyOk, Z.Insert, R.Remove, WakesAfter;
    AwakeInQueue(s, s.current);
    SleepersDistinct(s);
    QueuedFor(s, s.current, n);
  }

  // ---------- round robin ----------

  /** A tick of a round-robin task: its quantum counts down; when it is used up it is full again, the first task of its
      level goes behind all others there, and a reschedule is asked for. Tasks that became ready meanwhile stand behind
      those already there. */
  lemma QuantumMeans(s: Sys, timeouts: seq<nat>)
    requires s.Valid() && s.tasks[s.current].policy == Rr && s.tasks[s.current].state == Ready
    ensures var t, u, i := Tick(s, 1, timeouts), s.tasks[s.current], s.current;
            var line, after, l := s.ready[Urgency(u)], t.ready[Urgency(u)], Urgency(u);
            if u.quantumLeft > 1 then
              t.tasks[i] == u.(quantumLeft := u.quantumLeft - 1) && line <= after
            else
              && t.tasks[i] == u.(quantumLeft := u.quantum) && t.resched
              && (u.prio >= 16 || |after| == 1 ==> line <= after)
              && (u.prio < 16 && |after| > 1 ==> line != [] && line[1..] <= after && after[|after| - 1] == line[0])
  {
    hide Sys.SleepersOk, Sys.ReadyOk, Tick, Awaken;
    TickCharges(s, timeouts);
    RunnerUntouched(s, timeouts);
    AwakenAppends(s, timeouts, Urgency(s.tasks[s.current]));
    InItsList(s, s.current);
    InRange(s);
    var line, a := s.ready[Urgency(s.tasks[s.current])], Awaken(s.(ticks := s.ticks + 1), 1, timeouts);
    var grown := a.ready[Urgency(s.tasks[s.current])];
    assert grown[1..][..|line| - 1] == line[1..];
  }

  /** Wake-ups only append to a level. */
  lemma AwakenAppends(s: Sys, timeouts: seq<nat>, l: nat)
    requires s.Valid() && l < 16
    ensures s.ready[l] <= Awaken(s.(ticks := s.ticks + 1), 1, timeouts).ready[l]
  {
    hide Sys.ReadyOk, SleepAdvance, Release, Wake, Z.Advance, WakeAll;
    var s0 := s.(ticks := s.ticks + 1);
    InRange(s);
    WokenInRange(s0.sleepers, 1, |s0.tasks|);
    var r := Z.Advance(s0.sleepers, 1);
    SleepAdvanceIs(s0);
    WakeAppends(s0.(sleepers := r.1), r.0, l);
    ReleaseAppends(SleepAdvance(s0, 1), timeouts, l);
    AwakenUnfolds(s0, timeouts);
  }

  lemma SleepAdvanceIs(s: Sys)
    requires forall k :: 0 <= k < |s.sleepers| ==> s.sleepers[k].task < |s.tasks|
    ensures forall k :: 0 <= k < |Z.Advance(s.sleepers, 1).0| ==> Z.Advance(s.sleepers, 1).0[k] < |s.tasks|
    ensures SleepAdvance(s, 1) == WakeAll(s.(sleepers := Z.Advance(s.sleepers, 1).1), Z.Advance(s.sleepers, 1).0)
  {
    hide WakeAll, Z.Advance;
    WokenInRange(s.sleepers, 1, |s.tasks|);
  }

  lemma {:induction false} WakeAppends(s: Sys, woken: seq<nat>, l: nat)
    requires (forall k :: 0 <= k < |woken| ==> woken[k] < |s.tasks|) && l < 16
    ensures s.ready[l] <= WakeAll(s, woken).ready[l]
    decreases |woken|
  {
    if woken != [] { WakeAppends(Wake(s, woken[0]), woken[1..], l); }
  }

  lemma {:induction false} ReleaseAppends(s: Sys, timeouts: seq<nat>, l: nat)
    requires l < 16
    ensures s.ready[l] <= Release(s, timeouts).ready[l]
    decreases |timeouts|
  {
    if timeouts != [] {
      var i := timeouts[0];
      ReleaseAppends(if i < |s.tasks| && s.tasks[i].state == Blocked then MakeReady(s, i) else s, timeouts[1..], l);
    }
  }

  /** A round-robin task in its turn: the first of its level, no deadline task with budget, nobody asleep, and room
      in the real-time window for n ticks. */
  ghost predicate InTurn(s: Sys, n: nat) {
    && s.Valid() && s.sleepers == [] && !AnyOf(s.tasks, HasBudget) && FirstUrgent(s, s.current) && !s.resched
    && s.tasks[s.current].policy == Rr && s.tasks[s.current].prio < 16 && !s.throttled && s.rtUsed + n < 80
  }

  lemma QuietTick(s: Sys)
    requires InTurn(s, 1)
    ensures var t, u := Tick(s, 1, []), s.tasks[s.current];
            var line := s.ready[u.prio];
            && t.Valid() && t.sleepers == [] && !t.throttled && t.rtUsed <= s.rtUsed + 1 && t.current == s.current
            && (u.quantumLeft > 1 ==>
                  && t.tasks == s.tasks[s.current := u.(quantumLeft := u.quantumLeft - 1)] && t.ready == s.ready
                  && !t.resched)
            && (u.quantumLeft <= 1 && |line| > 1 ==>
                  && t.tasks == s.tasks[s.current := u.(quantumLeft := u.quantum)] && t.resched
                  && t.ready == s.ready[u.prio := line[1..] + [s.current]])
  {
    hide Sys.SleepersOk, Sys.ReadyOk, AnyOf;
    TickOk(s, 1, []);
    InRange(s);
    Sleepless(s);
  }

  lemma Sleepless(s: Sys)
    requires s.sleepers == []
    ensures Awaken(s.(ticks := s.ticks + 1), 1, []) == s.(ticks := s.ticks + 1)
  {
  }

  /** The line of a level after its first task's turn. */
  lemma NextInLine(s: Sys, t: Sys)
    requires InTurn(s, 1) && t.Valid() && |s.ready[s.tasks[s.current].prio]| > 1 && !t.throttled
    requires var u := s.tasks[s.current]; var line := s.ready[u.prio];
             && t.tasks == s.tasks[s.current := u.(quantumLeft := u.quantum)]
             && t.ready == s.ready[u.prio := line[1..] + [s.current]]
    ensures Schedule(t) == t.(current := s.ready[s.tasks[s.current].prio][1], resched := false)
  {
    hide Sys.SleepersOk, Sys.ReadyOk, Schedule, Best, Assigned;
    var u := s.tasks[s.current];
    var l, line := u.prio, s.ready[u.prio];
    assert forall j :: 0 <= j < 13 ==> HasBudget(t.tasks[j]) == HasBudget(s.tasks[j])
                                        && RealTime(t.tasks[j]) == RealTime(s.tasks[j])
                                        && Urgency(t.tasks[j]) == Urgency(s.tasks[j]);
    assert RealTime(t.tasks[s.current]);
    ClassesInOrder(t);
    var c := Schedule(t).current;
    assert Urgency(t.tasks[c]) <= Urgency(t.tasks[s.current]) && Urgency(s.tasks[s.current]) <= Urgency(s.tasks[c]);
    assert t.ready[l][0] == line[1];
  }

  /** A round-robin task runs for exactly the rest of its quantum; then, if others of its level are ready, the next
      in line runs and it stands last with a full quantum. */
  lemma {:induction false} TurnsInOrder(s: Sys, n: nat)
    requires InTurn(s, n) && 0 < n <= s.tasks[s.current].quantumLeft && |s.ready[s.tasks[s.current].prio]| > 1
    ensures var t, i, u := Run(s, Ticks(n)), s.current, s.tasks[s.current];
            var line := s.ready[u.prio];
            if n < u.quantumLeft then
              t.current == i && t.tasks == s.tasks[i := u.(quantumLeft := u.quantumLeft - n)] && t.ready == s.ready
            else
              && t.current == line[1] && t.tasks == s.tasks[i := u.(quantumLeft := u.quantum)]
              && t.ready == s.ready[u.prio := line[1..] + [i]]
    decreases n
  {
    hide Sys.SleepersOk, Sys.ReadyOk, Tick, Schedule, AnyOf, FirstUrgent;
    var run, t := Ticks(n), Next(s, TICK);
    assert run[0] == TICK && run[1..] == Ticks(n - 1);
    QuietTick(s);
    if s.tasks[s.current].quantumLeft > 1 {
      if n > 1 {
        StillInTurn(s, t, n - 1);
        TurnsInOrder(t, n - 1);
      }
    } else {
      NextInLine(s, Tick(s, 1, []));
    }
  }

  lemma StillInTurn(s: Sys, t: Sys, n: nat)
    requires InTurn(s, n + 1) && t.Valid() && t.sleepers == [] && !t.throttled && t.rtUsed <= s.rtUsed + 1 && !t.resched
    requires t.current == s.current && t.ready == s.ready && s.tasks[s.current].quantumLeft > 1
    requires var u := s.tasks[s.current]; t.tasks == s.tasks[s.current := u.(quantumLeft := u.quantumLeft - 1)]
    ensures InTurn(t, n)
  {
    hide Sys.SleepersOk, Sys.ReadyOk;
    assert forall j :: 0 <= j < 13 ==> HasBudget(t.tasks[j]) == HasBudget(s.tasks[j])
                                        && RealTime(t.tasks[j]) == RealTime(s.tasks[j])
                                        && Urgency(t.tasks[j]) == Urgency(s.tasks[j]);
  }
}
