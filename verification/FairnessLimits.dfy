/** When a task stays within the others' shares 4096 / weight, and by how much it does not otherwise. */
module FairnessLimits {
  import opened Common
  import R = ReadyList
  import Z = SleepQueue
  import opened Scheduling
  import opened SchedulerRuns
  import opened DeadlineRuns

  predicate Ordinary(t: Task) { t.policy == Normal && t.weight <= 1024 }

  /** Among NORMAL tasks of weight at most 1024 nobody is ahead of another by more than 4096 / weight. */
  lemma OrdinaryFairness(s: Sys, run: seq<Action>, group: set<nat>, start: nat)
    requires s.Valid() && StaysReady(s, run, group)
    requires forall i :: i in group ==>
               i < MAX_TASKS && InSlice(s.tasks[i]) && s.tasks[i].vruntime == start && Ordinary(s.tasks[i])
    ensures var t := Run(s, run);
            forall i, j :: i in group && j in group ==>
              || t.tasks[i].vruntime <= t.tasks[j].vruntime + 4096 / s.tasks[j].weight
              || (i == s.current && t.tasks[i].vruntime <= t.tasks[j].vruntime + 4096 / s.tasks[i].weight)
  {
    hide Run, StaysReady, Sys.SleepersOk, Sys.ReadyOk, Overrun;
    WeightedFairness(s, run, group, start);
    forall i | i in group
      ensures Overrun(s.tasks[i]) == 0 && Share(s.tasks[i]) == Grant(s.tasks[i]) == 4096 / s.tasks[i].weight
    {
      OverrunExactly(s.tasks[i]);
    }
  }

  // ---------- heavier tasks ----------

  function Heavy(w: nat, vruntime: nat, slice: nat): Task
    requires w > 0
  {
    Task(Ready, Normal, 0, w, 0, 0, vruntime, 4096 / w, slice, 0, 0, 0, 0, 0)
  }

  /** Two NORMAL tasks of weight w, scheduled at virtual runtime 0; the first runs, n ticks into its slice. */
  function Pair(w: nat, n: nat): (s: Sys)
    requires w > 0
    ensures |s.tasks| == MAX_TASKS && s.tasks[1] == Heavy(w, n, n) && s.tasks[2] == Heavy(w, 0, 0)
  {
    var tasks := seq(MAX_TASKS, i => if i == 0 then IDLER else IDLER.(state := Stopped));
    Sys(tasks[1 := Heavy(w, n, n)][2 := Heavy(w, 0, 0)], 1, n, seq(R.LEVELS, _ => []), [], 0, 0, false, false)
  }

  lemma PairValid(w: nat, n: nat)
    requires w > 0
    ensures Pair(w, n).Valid()
  {
    var s := Pair(w, n);
    assert forall i :: 0 <= i < MAX_TASKS ==> !IsRt(s.tasks[i].policy) && s.tasks[i].state != Asleep;
  }

  lemma PairCharged(w: nat, n: nat)
    requires w > 1024 && n < 4
    ensures Charge(Heavy(w, n, n), 1).vruntime == n + 1
    ensures n < 3 ==> Charge(Heavy(w, n, n), 1) == Heavy(w, n + 1, n + 1)
  {
  }

  /** One tick of the pair. */
  lemma PairTicks(w: nat, n: nat)
    requires w > 1024 && n < 4
    ensures Pair(w, n).Valid()
    ensures var t := Tick(Pair(w, n), 1, []);
            && t.tasks == Pair(w, n).tasks[1 := Charge(Heavy(w, n, n), 1)] && (t.resched <==> n == 3)
            && (n < 3 ==> t == Pair(w, n + 1))
  {
    hide Charge, Sys.ReadyOk, R.Disjoint;
    PairValid(w, n);
    PairCharged(w, n);
    var s := Pair(w, n).(ticks := n + 1);
    assert Awaken(s, 1, []) == s;
  }

  /** After a slice the first task is four ahead of the second. */
  lemma PairEnds(w: nat)
    requires w > 1024
    ensures Pair(w, 3).Valid()
    ensures var t := Next(Pair(w, 3), TICK); t.tasks[1].vruntime == 4 && t.tasks[2].vruntime == 0
  {
    hide Schedule, Charge, Tick, Sys.ReadyOk, Sys.SleepersOk;
    PairTicks(w, 3);
    PairCharged(w, 3);
    TickOk(Pair(w, 3), 1, []);
    ScheduleOk(Tick(Pair(w, 3), 1, []));
  }

  lemma NextPair(w: nat, n: nat)
    requires w > 1024 && n < 3
    ensures Pair(w, n).Valid() && Next(Pair(w, n), TICK) == Pair(w, n + 1)
  {
    hide Tick, Charge;
    PairTicks(w, n);
  }

  lemma {:induction false} PairRuns(w: nat, n: nat)
    requires w > 1024 && n < 4
    ensures Pair(w, n).Valid() && StaysReady(Pair(w, n), Ticks(4 - n), {1, 2})
    ensures Pair(w, 3).Valid() && Run(Pair(w, n), Ticks(4 - n)) == Next(Pair(w, 3), TICK)
    decreases 4 - n
  {
    hide Next, Sys.Valid, Pair;
    var run := Ticks(4 - n);
    PairValid(w, n);
    PairValid(w, 3);
    NextValid(Pair(w, n), TICK);
    assert run[0] == TICK && run[1..] == Ticks(3 - n);
    if n < 3 {
      NextPair(w, n);
      PairRuns(w, n + 1);
    } else {
      assert run[1..] == [];
    }
  }

  lemma HeavyNumbers(w: nat)
    requires w > 1024
    ensures var t := Heavy(w, 0, 0); InSlice(t) && 4096 / w < 4 == Grant(t) + Overrun(t)
  {
    assert 4096 / w < 4 && 1024 / w == 0;
  }

  /** The bound 4096 / weight fails for every weight above 1024: of two such tasks at equal virtual runtime one
      gets a whole slice ahead, by exactly what WeightedFairness allows. */
  lemma HeavyTasksOvershoot(w: nat)
    requires w > 1024
    ensures var (s, t) := (Pair(w, 0), Heavy(w, 0, 0));
            && s.Valid() && StaysReady(s, Ticks(4), {1, 2}) && s.tasks[1] == s.tasks[2] == t && InSlice(t)
            && var after := Run(s, Ticks(4)).tasks;
               after[1].vruntime == after[2].vruntime + Grant(t) + Overrun(t) > after[2].vruntime + 4096 / w
  {
    hide Run, StaysReady, Next, Sys.Valid, Overrun, InSlice;
    PairRuns(w, 0);
    PairEnds(w);
    HeavyNumbers(w);
  }
}
