/** Bandwidth isolation of deadline tasks: how often and how much a deadline task can run. */
module DeadlineRuns {
  import opened Common
  import R = ReadyList
  import Z = SleepQueue
  import opened Scheduling
  import opened SchedulerRuns

  /** What an observer notes of task d: when its budget was last replenished, and the ticks charged since. */
  datatype Watch = Watch(last: nat, used: nat)

  /** The action replenishes the budget of d: its sleep ends. */
  predicate Replenishes(s: Sys, a: Action, d: nat) {
    a.TickOnce? && d in Z.Advance(s.sleepers, 1).0
  }

  function Observe(s: Sys, a: Action, d: nat, w: Watch): Watch {
    if Replenishes(s, a, d) then Watch(s.ticks + 1, 0)
    else if a.TickOnce? && s.current == d then w.(used := w.used + 1)
    else w
  }

  /** Ticks that a sleep asked for n ticks lasts: one more if somebody else is due at the same tick, for a
      tick wakes only the first of those. */
  function Lasts(s: Sys, n: nat): nat {
    var m := if n == 0 then 1 else n;
    m + if Z.DueIn(s.sleepers, m) then 1 else 0
  }

  /** A voluntary sleep of d does not end before its next release. */
  predicate Patient(s: Sys, a: Action, d: nat)
    requires d < |s.tasks|
  {
    a.GoToSleep? && s.current == d ==> s.ticks + Lasts(s, a.ticks) >= s.tasks[d].nextRelease
  }

  ghost predicate AlwaysPatient(s: Sys, run: seq<Action>, d: nat)
    requires s.Valid() && d < MAX_TASKS
    decreases |run|
  {
    run != [] ==> Patient(s, run[0], d) && (NextValid(s, run[0]); AlwaysPatient(Next(s, run[0]), run[1..], d))
  }

  /** The guarantee along a run: never more than the runtime charged between replenishments, and these at
      least a period apart. */
  ghost predicate Isolated(s: Sys, run: seq<Action>, d: nat, w: Watch)
    requires s.Valid() && d < MAX_TASKS
    decreases |run|
  {
    && w.used <= s.tasks[d].runtime
    && (run != [] ==>
          && (Replenishes(s, run[0], d) ==> s.ticks + 1 >= w.last + s.tasks[d].period)
          && (NextValid(s, run[0]); Isolated(Next(s, run[0]), run[1..], d, Observe(s, run[0], d, w))))
  }

  /** Budget and release time of d agree with the observer; a running deadline task has budget. */
  ghost predicate Metered(s: Sys, d: nat, w: Watch) {
    && 0 < d < |s.tasks| && s.tasks[d].policy == Deadline && s.current < |s.tasks|
    && w.used + s.tasks[d].remaining <= s.tasks[d].runtime
    && s.tasks[d].nextRelease == w.last + s.tasks[d].period
    && (Z.Sleeping(s.sleepers, d) ==> s.ticks + Z.WakesIn(s.sleepers, d) >= w.last + s.tasks[d].period)
    && (s.tasks[s.current].policy == Deadline ==> Eligible(s.tasks[s.current]))
  }

  /** The queue after some other task, not asleep so far, was entered. */
  lemma InsertOther(q: Z.Deltas, i: nat, ticks: nat, d: nat)
    requires i != d && Z.Distinct(q) && !Z.Sleeping(q, i)
    ensures var r := Z.Insert(q, i, ticks);
            (Z.Sleeping(r, d) <==> Z.Sleeping(q, d)) && (Z.Sleeping(q, d) ==> Z.WakesIn(r, d) == Z.WakesIn(q, d))
  {
    hide Z.WakesIn;
    Z.DropSelf(q, i);
    Z.PlaceOther(q, i, if ticks == 0 then 1 else ticks, d);
    if Z.Sleeping(q, d) { Z.PlaceKeepsWaking(q, i, if ticks == 0 then 1 else ticks, d); }
  }

  /** The queue after the task itself was entered. */
  lemma InsertSelf(s: Sys, d: nat, n: nat)
    requires Z.Distinct(s.sleepers) && !Z.Sleeping(s.sleepers, d)
    ensures var q := Z.Insert(s.sleepers, d, n); Z.Sleeping(q, d) && Z.WakesIn(q, d) == Lasts(s, n) >= n
  {
    Z.DropSelf(s.sleepers, d);
    Z.PlaceWakes(s.sleepers, d, if n == 0 then 1 else n);
  }

  lemma ScheduleMetered(s: Sys, d: nat, w: Watch)
    requires s.Valid() && Metered(s.(current := 0), d, w)
    ensures Metered(Schedule(s), d, w)
  {
    hide R.Disjoint, Z.Distinct, Z.Sleeping, Z.WakesIn, Schedule, Sys.ReadyOk, Sys.SleepersOk, PickFair;
    ScheduleOk(s);
    ScheduleKeeps(s);
    FillKeeps(s.tasks);
  }

  lemma TimePasses(s: Sys)
    requires s.Valid()
    ensures s.(ticks := s.ticks + 1).Valid()
  {
  }

  lemma InRange(s: Sys)
    requires s.SleepersOk()
    ensures forall k :: 0 <= k < |s.sleepers| ==> s.sleepers[k].task < |s.tasks|
  {
  }

  /** What a tick does to d: replenished, charged, or left alone. */
  lemma AdvanceMetered(s: Sys, a: Action, d: nat, w: Watch)
    requires s.Valid() && Metered(s, d, w) && a.TickOnce?
    ensures var r := Awaken(s.(ticks := s.ticks + 1), 1, a.timeouts);
            var v := if Replenishes(s, a, d) then Watch(s.ticks + 1, 0) else w;
            Metered(r, d, v) && r.ticks == s.ticks + 1 && r.current == s.current && r.SleepersOk()
    ensures Replenishes(s, a, d) ==> s.ticks + 1 >= w.last + s.tasks[d].period && s.current != d
  {
    hide R.Disjoint, Z.Distinct, Awaken, Z.Advance, Sys.ReadyOk, Z.WakesIn, Z.Sleeping;
    var s0 := s.(ticks := s.ticks + 1);
    TimePasses(s);
    AwakenValid(s0, 1, a.timeouts);
    AwakenKeeps(s0, 1, a.timeouts);
    WokenExactly(s.sleepers, 1, d);
    if Z.Sleeping(s.sleepers, d) { Z.TickExactly(s.sleepers, d); }
    if s.tasks[s.current].policy == Deadline { NotWoken(s0, s.current); }
  }

  /** Charging the running task. */
  lemma AccountMetered(s: Sys, d: nat, w: Watch)
    requires s.Shaped() && s.SleepersOk() && Metered(s, d, w)
    ensures var r := Account(s, 1); var v := if s.current == d then w.(used := w.used + 1) else w;
            Metered(r.(current := 0), d, v) && (!r.resched ==> Metered(r, d, v))
  {
    hide Z.Distinct, Z.Sleeping, Z.WakesIn, Z.Insert, R.Rotate, Charge, Lasts;
    var t := s.tasks[s.current];
    if t.policy == Deadline {
      var wait := if t.nextRelease > s.ticks then t.nextRelease - s.ticks else t.period;
      AwakeInQueue(s, s.current);
      if s.current == d {
        InsertSelf(s, d, wait);
      } else {
        InsertOther(s.sleepers, s.current, wait, d);
      }
    }
  }

  lemma AwakeInQueue(s: Sys, d: nat)
    requires s.SleepersOk() && d < |s.tasks| && s.tasks[d].state != Asleep
    ensures !Z.Sleeping(s.sleepers, d)
  {
  }

  lemma TickMetered(s: Sys, a: Action, d: nat, w: Watch)
    requires s.Valid() && Metered(s, d, w) && a.TickOnce?
    ensures var t := Tick(s, 1, a.timeouts); var v := Observe(s, a, d, w);
            Metered(t.(current := 0), d, v) && (!t.resched ==> Metered(t, d, v))
  {
    hide R.Disjoint, Z.Distinct, Z.Sleeping, Z.WakesIn, Awaken, Account, Metered, Sys.SleepersOk;
    var s0 := s.(ticks := s.ticks + 1);
    AdvanceMetered(s, a, d, w);
    TimePasses(s);
    InRange(s0);
    AdvanceShaped(s0, a.timeouts);
    var s1 := Awaken(s0, 1, a.timeouts);
    AccountMetered(s1, d, if Replenishes(s, a, d) then Watch(s.ticks + 1, 0) else w);
    RtMetered(Account(s1, 1), d, Observe(s, a, d, w));
  }

  lemma AdvanceShaped(s: Sys, timeouts: seq<nat>)
    requires s.Shaped() && s.SleepersOk()
    ensures Awaken(s, 1, timeouts).Shaped()
  {
    hide Awaken, Z.Distinct, Z.Sleeping;
    AwakenKeeps(s, 1, timeouts);
  }

  lemma RtMetered(s: Sys, d: nat, v: Watch)
    requires s.current < |s.tasks|
    ensures var t := RtAccount(s, 1);
            (Metered(s.(current := 0), d, v) ==> Metered(t.(current := 0), d, v)) && (Metered(s, d, v) ==> Metered(t,
                d, v))
            && (!t.resched ==> !s.resched)
  {
    hide Z.Sleeping, Z.WakesIn;
  }

  lemma SleepMetered(s: Sys, n: nat, d: nat, w: Watch)
    requires s.Valid() && Metered(s, d, w) && Patient(s, GoToSleep(n), d) && Running(s)
    ensures Metered(BlockCurrent(s, Asleep, n).(current := 0), d, w)
  {
    hide R.Disjoint, Z.Distinct, Z.Sleeping, Z.WakesIn, Z.Insert, R.Remove, Sys.ReadyOk, Lasts;
    AwakeInQueue(s, s.current);
    if s.current == d {
      InsertSelf(s, d, n);
    } else {
      InsertOther(s.sleepers, s.current, n, d);
    }
  }

  lemma NextMetered(s: Sys, a: Action, d: nat, w: Watch)
    requires s.Valid() && Metered(s, d, w) && Patient(s, a, d)
    ensures Metered(Next(s, a), d, Observe(s, a, d, w))
    ensures Replenishes(s, a, d) ==> s.ticks + 1 >= w.last + s.tasks[d].period
  {
    hide Sys.SleepersOk, Sys.ReadyOk, Schedule, Tick, R.Remove, Z.Insert, R.Enqueue, Z.Sleeping, Z.WakesIn, Z.Advance;
    match a
    case TickOnce(timeouts) =>
      AdvanceMetered(s, a, d, w);
      TickOk(s, 1, timeouts);
      TickMetered(s, a, d, w);
      ScheduleMetered(Tick(s, 1, timeouts), d, Observe(s, a, d, w));
    case GoToSleep(n) =>
      if Running(s) {
        BlockOk(s, Asleep, n);
        SleepMetered(s, n, d, w);
        ScheduleMetered(BlockCurrent(s, Asleep, n), d, w);
      }
    case Block => if Running(s) { BlockOk(s, Blocked, 0); ScheduleMetered(BlockCurrent(s, Blocked, 0), d, w); }
    case WakeUp(i) =>
    case Reschedule => ScheduleMetered(s, d, w);
  }

  /** Along every run in which the task never cuts a sleep short of its next release, its replenishments are
      at least a period apart and between two of them it is charged at most its runtime. */
  lemma {:induction false} DeadlineIsolation(s: Sys, run: seq<Action>, d: nat, w: Watch)
    requires s.Valid() && d < MAX_TASKS && Metered(s, d, w) && AlwaysPatient(s, run, d)
    ensures Isolated(s, run, d, w)
    decreases |run|
  {
    if run != [] {
      NextValid(s, run[0]);
      NextMetered(s, run[0], d, w);
      hide Next, Sys.Valid, Metered, Observe, Replenishes;
      DeadlineIsolation(Next(s, run[0]), run[1..], d, Observe(s, run[0], d, w));
    }
  }

  // ---------- the condition is exact ----------

  /** The task sleeps and will wake before its next release, whatever the others do. */
  ghost predicate Doomed(s: Sys, d: nat, w: Watch) {
    && 0 < d < |s.tasks| && s.tasks[d].policy == Deadline && s.current < |s.tasks| && s.current != d
    && Z.Sleeping(s.sleepers, d) && s.ticks + Z.WakesIn(s.sleepers, d) < w.last + s.tasks[d].period
    && (s.tasks[s.current].policy == Deadline ==> Eligible(s.tasks[s.current]))
  }

  lemma ScheduleDoomed(s: Sys, d: nat, w: Watch)
    requires s.Valid() && Doomed(s.(current := 0), d, w)
    ensures Doomed(Schedule(s), d, w)
  {
    hide R.Disjoint, Z.Distinct, Z.Sleeping, Z.WakesIn, Schedule, Sys.ReadyOk, PickFair;
    ScheduleOk(s);
    ScheduleKeeps(s);
    FillKeeps(s.tasks);
    assert s.tasks[d].state == Asleep;
  }

  /** A tick wakes the task too early or leaves it doomed. */
  lemma TickDoomed(s: Sys, a: Action, d: nat, w: Watch)
    requires s.Valid() && Doomed(s, d, w) && a.TickOnce? && !Replenishes(s, a, d)
    ensures var t := Tick(s, 1, a.timeouts);
            && Doomed(t.(current := 0), d, w) && (!t.resched ==> Doomed(t, d, w))
            && Z.WakesIn(t.sleepers, d) < Z.WakesIn(s.sleepers, d) && Z.Sleeping(t.sleepers, d)
  {
    hide R.Disjoint, Z.Distinct, Z.Sleeping, Z.WakesIn, Awaken, Z.Advance, Sys.ReadyOk, Account, RtAccount;
    var s0 := s.(ticks := s.ticks + 1);
    TimePasses(s);
    AwakenValid(s0, 1, a.timeouts);
    AwakenKeeps(s0, 1, a.timeouts);
    Z.TickExactly(s.sleepers, d);
    if s.tasks[s.current].policy == Deadline { NotWoken(s0, s.current); }
    AccountDoomed(Awaken(s0, 1, a.timeouts), d, w);
    RtDoomed(Account(Awaken(s0, 1, a.timeouts), 1), d, w);
  }

  lemma AccountDoomed(s: Sys, d: nat, w: Watch)
    requires s.Shaped() && s.SleepersOk() && Doomed(s, d, w)
    ensures var r := Account(s, 1);
            && Doomed(r.(current := 0), d, w) && (!r.resched ==> Doomed(r, d, w))
            && Z.WakesIn(r.sleepers, d) == Z.WakesIn(s.sleepers, d)
  {
    hide Z.Distinct, Z.Sleeping, Z.WakesIn, Z.Insert, R.Rotate, Charge;
    var t := s.tasks[s.current];
    if t.policy == Deadline {
      AwakeInQueue(s, s.current);
      InsertOther(s.sleepers, s.current, if t.nextRelease > s.ticks then t.nextRelease - s.ticks else t.period, d);
    }
  }

  lemma RtDoomed(s: Sys, d: nat, w: Watch)
    requires s.current < |s.tasks| && Doomed(s.(current := 0), d, w) && (!s.resched ==> Doomed(s, d, w))
    ensures var t := RtAccount(s, 1);
            Doomed(t.(current := 0), d, w) && (!t.resched ==> Doomed(t, d, w)) && t.sleepers == s.sleepers
  {
    hide Z.Sleeping, Z.WakesIn;
  }

  /** Nothing the others do lengthens the sleep. */
  lemma NextDoomed(s: Sys, a: Action, d: nat, w: Watch)
    requires s.Valid() && Doomed(s, d, w) && !Replenishes(s, a, d)
    ensures Doomed(Next(s, a), d, w) && Observe(s, a, d, w) == w
    ensures a.TickOnce? ==> Z.WakesIn(Next(s, a).sleepers, d) < Z.WakesIn(s.sleepers, d)
  {
    hide Sys.SleepersOk, Sys.ReadyOk, Schedule, Tick, R.Remove, R.Enqueue, Z.Insert, Z.Sleeping, Z.WakesIn, Z.Advance;
    match a
    case TickOnce(timeouts) =>
      TickOk(s, 1, timeouts);
      TickDoomed(s, a, d, w);
      ScheduleDoomed(Tick(s, 1, timeouts), d, w);
      ScheduleKeeps(Tick(s, 1, timeouts));
    case GoToSleep(n) =>
      if Running(s) {
        BlockOk(s, Asleep, n);
        OtherSleeps(s, n, d);
        ScheduleDoomed(BlockCurrent(s, Asleep, n), d, w);
      }
    case Block => if Running(s) { BlockOk(s, Blocked, 0); ScheduleDoomed(BlockCurrent(s, Blocked, 0), d, w); }
    case WakeUp(i) =>
    case Reschedule => ScheduleDoomed(s, d, w);
  }

  lemma OtherSleeps(s: Sys, n: nat, d: nat)
    requires s.Valid() && Running(s) && s.current != d && Z.Sleeping(s.sleepers, d)
    ensures var q := Z.Insert(s.sleepers, s.current, n); Z.Sleeping(q, d) && Z.WakesIn(q, d) == Z.WakesIn(s.sleepers, d)
  {
    hide Z.Insert, Z.WakesIn, Z.Distinct, Z.Sleeping;
    AwakeInQueue(s, s.current);
    InsertOther(s.sleepers, s.current, n, d);
  }

  /** A tick in which no IPC wait times out. */
  const TICK: Action := TickOnce([])

  function Ticks(k: nat): (run: seq<Action>)
    ensures |run| == k
  {
    if k == 0 then [] else [TICK] + Ticks(k - 1)
  }

  /** Followed by enough ticks, a run from a doomed state breaks isolation. */
  lemma {:induction false} DoomedFails(s: Sys, run: seq<Action>, d: nat, w: Watch) returns (k: nat)
    requires s.Valid() && d < MAX_TASKS && Doomed(s, d, w)
    ensures !Isolated(s, run + Ticks(k), d, w)
    decreases |run|, Z.WakesIn(s.sleepers, d)
  {
    hide Sys.Valid, Z.WakesIn, Z.Sleeping, Next, Replenishes;
    var a := if run == [] then TICK else run[0];
    if Replenishes(s, a, d) {
      k := 1;
      EarlyRefill(s, a, d, w);
    } else {
      NextValid(s, a);
      NextDoomed(s, a, d, w);
      NextConstants(s, a, d);
      if run == [] {
        var j := DoomedFails(Next(s, a), [], d, w);
        k := j + 1;
        assert [] + Ticks(j) == Ticks(j) && [] + Ticks(k) == Ticks(k) && Ticks(k)[1..] == Ticks(j);
      } else {
        k := DoomedFails(Next(s, a), run[1..], d, w);
        assert (run + Ticks(k))[1..] == run[1..] + Ticks(k);
      }
    }
    assert (run + Ticks(k))[0] == a;
  }

  lemma EarlyRefill(s: Sys, a: Action, d: nat, w: Watch)
    requires s.Valid() && Doomed(s, d, w) && Replenishes(s, a, d)
    ensures a.TickOnce? && s.ticks + 1 < w.last + s.tasks[d].period
  {
    Z.TickExactly(s.sleepers, d);
  }

  lemma NextConstants(s: Sys, a: Action, d: nat)
    requires s.Valid() && d < MAX_TASKS
    ensures Next(s, a).tasks[d].period == s.tasks[d].period
  {
    ConstantsKept(s, a);
  }

  /** An impatient sleep dooms the task. */
  lemma ImpatienceDooms(s: Sys, a: Action, d: nat, w: Watch)
    requires s.Valid() && d < MAX_TASKS && Metered(s, d, w) && !Patient(s, a, d)
    ensures Doomed(Next(s, a), d, w) && Observe(s, a, d, w) == w && !Replenishes(s, a, d)
  {
    hide R.Disjoint, Z.Distinct, Z.Sleeping, Z.WakesIn, Z.Insert, R.Remove, Sys.ReadyOk, Lasts, Schedule;
    AwakeInQueue(s, d);
    InsertSelf(s, d, a.ticks);
    BlockOk(s, Asleep, a.ticks);
    ScheduleDoomed(BlockCurrent(s, Asleep, a.ticks), d, w);
  }

  lemma {:induction false} ImpatienceFails(s: Sys, run: seq<Action>, d: nat, w: Watch) returns (k: nat)
    requires s.Valid() && d < MAX_TASKS && Metered(s, d, w) && !AlwaysPatient(s, run, d)
    ensures !Isolated(s, run + Ticks(k), d, w)
    decreases |run|
  {
    hide Sys.SleepersOk, Sys.ReadyOk, Metered, Doomed, Next, Replenishes, Patient;
    NextValid(s, run[0]);
    if Patient(s, run[0], d) {
      NextMetered(s, run[0], d, w);
      k := ImpatienceFails(Next(s, run[0]), run[1..], d, Observe(s, run[0], d, w));
    } else {
      ImpatienceDooms(s, run[0], d, w);
      k := DoomedFails(Next(s, run[0]), run[1..], d, w);
    }
    assert (run + Ticks(k))[1..] == run[1..] + Ticks(k) && (run + Ticks(k))[0] == run[0];
  }

  lemma {:induction false} TicksPatient(s: Sys, run: seq<Action>, d: nat, k: nat)
    requires s.Valid() && d < MAX_TASKS && AlwaysPatient(s, run, d)
    ensures AlwaysPatient(s, run + Ticks(k), d)
    decreases |run|, k
  {
    hide Sys.Valid, Next;
    if run != [] {
      NextValid(s, run[0]);
      TicksPatient(Next(s, run[0]), run[1..], d, k);
      assert (run + Ticks(k))[1..] == run[1..] + Ticks(k);
    } else if k > 0 {
      NextValid(s, TICK);
      TicksPatient(Next(s, TICK), [], d, k - 1);
      assert [] + Ticks(k - 1) == Ticks(k)[1..] == (run + Ticks(k))[1..];
    }
  }

  /** Main result: a run, continued by any number of ticks, keeps the guarantee exactly when the task never
      asks for a sleep that ends before its next release. */
  lemma IsolationExactly(s: Sys, run: seq<Action>, d: nat, w: Watch)
    requires s.Valid() && d < MAX_TASKS && Metered(s, d, w)
    ensures AlwaysPatient(s, run, d) <==> forall k: nat :: Isolated(s, run + Ticks(k), d, w)
  {
    hide Sys.Valid, Metered, Isolated, AlwaysPatient;
    if AlwaysPatient(s, run, d) {
      forall k: nat ensures Isolated(s, run + Ticks(k), d, w) {
        TicksPatient(s, run, d, k);
        DeadlineIsolation(s, run + Ticks(k), d, w);
      }
    } else {
      var k := ImpatienceFails(s, run, d, w);
    }
  }

  // ---------- an instance ----------

  const IDLER: Task := Task(Ready, Idle, 15, 1, 0, 0, 0, 0, 0, 0, 0, 0, 0, 0)

  /** One deadline task, of runtime 5 and period 100, replenished at time 0 and running; the rest stopped. */
  function Bench(): (s: Sys)
    ensures |s.tasks| == MAX_TASKS
  {
    var task := Task(Ready, Deadline, 0, 1, 0, 0, 0, 0, 0, 5, 100, 5, 100, 100);
    Sys(seq(MAX_TASKS, i => if i == 0 then IDLER else if i == 1 then task else IDLER.(state := Stopped)), 1, 0,
        seq(R.LEVELS, _ => []), [], 0, 0, false, false)
  }

  /** Sleeping for one tick brings the whole budget back, 99 ticks early. */
  lemma VoluntarySleepRefills()
    ensures Bench().Valid() && Metered(Bench(), 1, Watch(0, 0))
    ensures !AlwaysPatient(Bench(), [GoToSleep(1)], 1) && !Isolated(Bench(), [GoToSleep(1), TICK], 1, Watch(0, 0))
  {
    hide Next;
    var s, w := Bench(), Watch(0, 0);
    var a := GoToSleep(1);
    var run := [a, TICK];
    NextValid(s, a);
    ImpatienceDooms(s, a, 1, w);
    assert Z.Insert([], 1, 1) == [Z.Entry(1, 1)];
    FirstSleeper(s, 1, 1);
    Z.TickExactly(Next(s, a).sleepers, 1);
    assert Replenishes(Next(s, a), TICK, 1);
    assert run[1..] == [TICK] && run[1..][0] == TICK;
    NextConstants(s, a, 1);
  }

  lemma FirstSleeper(s: Sys, d: nat, n: nat)
    requires s.Valid() && s.current == d && Running(s) && s.sleepers == [] && n > 0
    ensures Next(s, GoToSleep(n)).sleepers == [Z.Entry(d, n)] && Next(s, GoToSleep(n)).ticks == s.ticks
  {
    hide R.Disjoint, Schedule, Sys.ReadyOk, R.Remove;
    BlockOk(s, Asleep, n);
    ScheduleKeeps(BlockCurrent(s, Asleep, n));
  }
}
