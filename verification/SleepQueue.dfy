/** The sleep queue: a linked list in which each task stores the ticks it waits after its predecessor. */
module SleepQueue {
  import opened Common

  datatype Entry = Entry(task: nat, delta: nat)

  type Deltas = seq<Entry>

  // ---------- the operations on delta lists ----------

  /** Taking a task out gives its delta to its successor. */
  function Drop(q: Deltas, i: nat): Deltas {
    if q == [] then []
    else if q[0].task != i then [q[0]] + Drop(q[1..], i)
    else if |q| == 1 then []
    else [Entry(q[1].task, q[1].delta + q[0].delta)] + q[2..]
  }

  /** A task goes behind everything due no later; its successor waits that much less. */
  function Place(q: Deltas, i: nat, remain: nat): Deltas {
    if q == [] then [Entry(i, remain)]
    else if remain >= q[0].delta then [q[0]] + Place(q[1..], i, remain - q[0].delta)
    else [Entry(i, remain), Entry(q[0].task, q[0].delta - remain)] + q[1..]
  }

  function Insert(q: Deltas, i: nat, ticks: nat): Deltas {
    Place(Drop(q, i), i, if ticks == 0 then 1 else ticks)
  }

  /** Tasks woken, and the list left, when `elapsed` ticks pass. It stops as soon as no tick is left. */
  function Advance(q: Deltas, elapsed: nat): (r: (seq<nat>, Deltas))
    ensures |r.0| + |r.1| == |q|
    decreases |q|
  {
    if elapsed == 0 || q == [] then ([], q)
    else if q[0].delta > elapsed then ([], [Entry(q[0].task, q[0].delta - elapsed)] + q[1..])
    else
      var r := Advance(q[1..], elapsed - q[0].delta);
      ([q[0].task] + r.0, r.1)
  }

  // ---------- the timeline they represent ----------

  datatype Alarm = Alarm(task: nat, due: nat)

  /** The tasks with the ticks each still waits. */
  function Timeline(q: Deltas, now: nat): (r: seq<Alarm>)
    ensures |r| == |q|
    decreases |q|
  {
    if q == [] then [] else [Alarm(q[0].task, now + q[0].delta)] + Timeline(q[1..], now + q[0].delta)
  }

  function InsertSorted(t: seq<Alarm>, a: Alarm): seq<Alarm> {
    if t != [] && t[0].due <= a.due then [t[0]] + InsertSorted(t[1..], a) else [a] + t
  }

  function WithoutTask(t: seq<Alarm>, i: nat): seq<Alarm> {
    if t == [] then [] else if t[0].task == i then t[1..] else [t[0]] + WithoutTask(t[1..], i)
  }

  /** Alarms that `elapsed` ticks set off: all that are due earlier, and the first that is due just then. */
  predicate Rings(t: seq<Alarm>, elapsed: nat, k: nat)
    requires k < |t|
  {
    t[k].due < elapsed || (t[k].due == elapsed && (k == 0 || t[k - 1].due < elapsed))
  }

  lemma {:induction false} TimelineSorted(q: Deltas, now: nat)
    ensures forall k :: 0 <= k < |q| ==> Timeline(q, now)[k].due >= now
    ensures forall j, k :: 0 <= j <= k < |q| ==> Timeline(q, now)[j].due <= Timeline(q, now)[k].due
    decreases |q|
  {
    if q != [] {
      TimelineSorted(q[1..], now + q[0].delta);
    }
  }

  /** Insertion keeps the timeline sorted and stable, and changes nobody else's time. */
  lemma {:induction false} PlaceRefines(q: Deltas, i: nat, remain: nat, now: nat)
    ensures Timeline(Place(q, i, remain), now) == InsertSorted(Timeline(q, now), Alarm(i, now + remain))
    decreases |q|
  {
    if q != [] {
      var rest := now + q[0].delta;
      if remain >= q[0].delta {
        PlaceRefines(q[1..], i, remain - q[0].delta, rest);
        assert Place(q, i, remain)[1..] == Place(q[1..], i, remain - q[0].delta);
      } else {
        var p := Place(q, i, remain);
        var second := Entry(q[0].task, q[0].delta - remain);
        assert p[1..] == [second] + q[1..] && p[1..][1..] == q[1..];
        assert Timeline(p[1..], now + remain) == [Alarm(q[0].task, rest)] + Timeline(q[1..], rest);
      }
    }
  }

  lemma {:induction false} DropRefines(q: Deltas, i: nat, now: nat)
    ensures Timeline(Drop(q, i), now) == WithoutTask(Timeline(q, now), i)
    decreases |q|
  {
    if q != [] {
      var rest := now + q[0].delta;
      if q[0].task != i {
        DropRefines(q[1..], i, rest);
        assert Drop(q, i)[1..] == Drop(q[1..], i);
      } else if |q| > 1 {
        var d := Drop(q, i);
        assert d[1..] == q[2..] == q[1..][1..];
        assert Timeline(q[1..], rest) == [Alarm(q[1].task, rest + q[1].delta)] + Timeline(q[2..], rest + q[1].delta);
      }
    }
  }

  /** A timeline told from a later moment. */
  lemma {:induction false} ShiftAt(q: Deltas, now: nat, end: nat, k: nat)
    requires now >= end && k < |q|
    ensures var a := Timeline(q, now)[k]; a.due >= end && Timeline(q, now - end)[k] == Alarm(a.task, a.due - end)
    decreases |q|
  {
    if k > 0 {
      ShiftAt(q[1..], now + q[0].delta, end, k - 1);
    }
  }

  /** What becomes of the alarm at place k when ticks pass from `now` to `end`. */
  ghost predicate Passed(q: Deltas, now: nat, end: nat, k: nat)
    requires now <= end && k < |q|
  {
    var r := Advance(q, end - now);
    var t := Timeline(q, now);
    if k < |r.0| then r.0[k] == t[k].task && now < end && t[k].due <= end && (k > 0 ==> t[k - 1].due < end)
    else
      && t[k].due >= end && Timeline(r.1, 0)[k - |r.0|] == Alarm(t[k].task, t[k].due - end)
      && (k == |r.0| && now < end ==> t[k].due > end || (k > 0 && t[k - 1].due == end))
  }

  lemma {:induction false} AdvanceAt(q: Deltas, now: nat, end: nat, k: nat)
    requires now <= end && k < |q|
    ensures Passed(q, now, end, k)
    decreases |q|
  {
    var next := now + q[0].delta;
    if now == end {
      ShiftAt(q, now, end, k);
    } else if next > end {
      var rest := [Entry(q[0].task, next - end)] + q[1..];
      assert rest[1..] == q[1..];
      if k > 0 { ShiftAt(q[1..], next, end, k - 1); }
    } else if k > 0 {
      AdvanceAt(q[1..], next, end, k - 1);
      NextPassed(q, now, end, k);
    }
  }

  lemma NextPassed(q: Deltas, now: nat, end: nat, k: nat)
    requires 0 < k < |q| && now < end && now + q[0].delta <= end && Passed(q[1..], now + q[0].delta, end, k - 1)
    ensures Passed(q, now, end, k)
  {
    var next := now + q[0].delta;
    var r, s := Advance(q, end - now), Advance(q[1..], end - next);
    var t, u := Timeline(q, now), Timeline(q[1..], next);
    assert r.0 == [q[0].task] + s.0 && r.1 == s.1;
    assert t == [Alarm(q[0].task, next)] + u;
    assert t[k] == u[k - 1];
    if next == end { assert s.0 == []; }
  }

  /** Main result about time: which tasks a tick interval wakes, and what is left of the timeline. */
  lemma AdvanceRefines(q: Deltas, elapsed: nat)
    requires elapsed > 0
    ensures var (woken, rest) := Advance(q, elapsed); var t := Timeline(q, 0);
            && (forall k :: 0 <= k < |t| ==> (k < |woken| <==> Rings(t, elapsed, k)))
            && (forall k :: 0 <= k < |woken| ==> woken[k] == t[k].task)
            && (forall k :: |woken| <= k < |t| ==>
                  t[k].due >= elapsed && Timeline(rest, 0)[k - |woken|] == Alarm(t[k].task, t[k].due - elapsed))
  {
    hide Passed;
    var (woken, rest) := Advance(q, elapsed);
    var t := Timeline(q, 0);
    TimelineSorted(q, 0);
    forall k | 0 <= k < |t|
      ensures k < |woken| <==> Rings(t, elapsed, k)
      ensures k < |woken| ==> woken[k] == t[k].task
      ensures k >= |woken| ==>
                t[k].due >= elapsed && Timeline(rest, 0)[k - |woken|] == Alarm(t[k].task, t[k].due - elapsed)
    {
      AdvanceAt(q, 0, elapsed, k);
      if |woken| < |t| { AdvanceAt(q, 0, elapsed, |woken|); }
      Ringing(q, elapsed, k);
    }
  }

  lemma Ringing(q: Deltas, elapsed: nat, k: nat)
    requires elapsed > 0 && k < |q| && Passed(q, 0, elapsed, k)
    requires var w := |Advance(q, elapsed).0|; w < |q| ==> Passed(q, 0, elapsed, w)
    ensures var (woken, rest) := Advance(q, elapsed); var t := Timeline(q, 0);
            && (k < |woken| <==> Rings(t, elapsed, k)) && (k < |woken| ==> woken[k] == t[k].task)
            && (k >= |woken| ==> t[k].due >= elapsed && Timeline(rest, 0)[k - |woken|] == Alarm(t[k].task,
                t[k].due - elapsed))
  {
    TimelineSorted(q, 0);
    var t, w := Timeline(q, 0), |Advance(q, elapsed).0|;
    if k >= w && w > 0 { assert t[w - 1].due <= t[k].due; }
    if k > w { assert t[w].due <= t[k - 1].due; }
  }

  // ---------- one sleeping task over a whole run ----------

  predicate Sleeping(q: Deltas, i: nat) {
    q != [] && (q[0].task == i || Sleeping(q[1..], i))
  }

  /** Ticks the task still waits. */
  function Remaining(q: Deltas, i: nat): nat
    requires Sleeping(q, i)
  {
    if q[0].task == i then q[0].delta else q[0].delta + Remaining(q[1..], i)
  }

  predicate Distinct(q: Deltas) {
    q != [] ==> !Sleeping(q[1..], q[0].task) && Distinct(q[1..])
  }

  lemma {:induction false} PlaceOther(q: Deltas, i: nat, remain: nat, j: nat)
    requires i != j
    ensures Sleeping(Place(q, i, remain), j) <==> Sleeping(q, j)
    ensures Sleeping(q, j) ==> Remaining(Place(q, i, remain), j) == Remaining(q, j)
    decreases |q|
  {
    if q != [] {
      var p := Place(q, i, remain);
      if remain >= q[0].delta {
        PlaceOther(q[1..], i, remain - q[0].delta, j);
        assert p[1..] == Place(q[1..], i, remain - q[0].delta);
      } else {
        assert p[1..][1..] == q[1..];
      }
    }
  }

  lemma {:induction false} PlaceSelf(q: Deltas, i: nat, remain: nat)
    requires !Sleeping(q, i)
    ensures Sleeping(Place(q, i, remain), i) && Remaining(Place(q, i, remain), i) == remain
    ensures Distinct(q) ==> Distinct(Place(q, i, remain))
    decreases |q|
  {
    if q != [] {
      var p := Place(q, i, remain);
      if remain >= q[0].delta {
        PlaceSelf(q[1..], i, remain - q[0].delta);
        PlaceOther(q[1..], i, remain - q[0].delta, q[0].task);
        assert p[1..] == Place(q[1..], i, remain - q[0].delta);
      } else {
        assert p[1..][1..] == q[1..];
      }
    }
  }

  lemma {:induction false} DropOther(q: Deltas, i: nat, j: nat)
    requires i != j
    ensures Sleeping(Drop(q, i), j) <==> Sleeping(q, j)
    ensures Sleeping(q, j) ==> Remaining(Drop(q, i), j) == Remaining(q, j)
    decreases |q|
  {
    if q != [] {
      var d := Drop(q, i);
      if q[0].task != i {
        DropOther(q[1..], i, j);
        assert d[1..] == Drop(q[1..], i);
      } else if |q| > 1 {
        assert d[1..] == q[2..] == q[1..][1..];
      }
    }
  }

  lemma {:induction false} DropSelf(q: Deltas, i: nat)
    requires Distinct(q)
    ensures !Sleeping(Drop(q, i), i) && Distinct(Drop(q, i))
    ensures !Sleeping(q, i) ==> Drop(q, i) == q
    decreases |q|
  {
    if q != [] {
      var d := Drop(q, i);
      if q[0].task != i {
        DropSelf(q[1..], i);
        DropOther(q[1..], i, q[0].task);
        assert d[1..] == Drop(q[1..], i);
      } else if |q| > 1 {
        assert d[1..] == q[2..] == q[1..][1..];
      }
    }
  }

  /** Inserting undone by removing. */
  lemma {:induction false} DropUndoesPlace(q: Deltas, i: nat, remain: nat)
    requires !Sleeping(q, i)
    ensures Drop(Place(q, i, remain), i) == q
    decreases |q|
  {
    if q != [] {
      var p := Place(q, i, remain);
      if remain >= q[0].delta {
        DropUndoesPlace(q[1..], i, remain - q[0].delta);
        assert p[1..] == Place(q[1..], i, remain - q[0].delta);
      } else {
        assert p[2..] == q[1..];
      }
    }
  }

  /** One task and a tick interval: it wakes only when its time has passed, and is left behind past it
      only if another task was due at the same instant. */
  lemma {:induction false} AdvanceOne(q: Deltas, elapsed: nat, i: nat)
    requires Distinct(q) && Sleeping(q, i)
    ensures var (woken, rest) := Advance(q, elapsed);
            && Distinct(rest) && (i in woken <==> !Sleeping(rest, i))
            && (i in woken ==> Remaining(q, i) <= elapsed)
            && (i !in woken ==> Remaining(q, i) >= elapsed && Remaining(rest, i) == Remaining(q, i) - elapsed)
    decreases |q|
  {
    if elapsed > 0 {
      if q[0].delta > elapsed {
        var rest := [Entry(q[0].task, q[0].delta - elapsed)] + q[1..];
        assert rest[1..] == q[1..];
      } else {
        var left := elapsed - q[0].delta;
        var (w, rest) := Advance(q[1..], left);
        if q[0].task == i {
          AdvanceAbsent(q[1..], left, i);
        } else {
          AdvanceOne(q[1..], left, i);
        }
      }
    }
  }

  lemma {:induction false} AdvanceAbsent(q: Deltas, elapsed: nat, i: nat)
    requires Distinct(q) && !Sleeping(q, i)
    ensures var (woken, rest) := Advance(q, elapsed); i !in woken && !Sleeping(rest, i) && Distinct(rest)
    decreases |q|
  {
    if elapsed > 0 && q != [] {
      if q[0].delta > elapsed {
        var rest := [Entry(q[0].task, q[0].delta - elapsed)] + q[1..];
        assert rest[1..] == q[1..];
      } else {
        AdvanceAbsent(q[1..], elapsed - q[0].delta, i);
      }
    }
  }

  /** What can happen to the queue while task i sleeps. */
  datatype Action = Sleep(task: nat, ticks: nat) | Cancel(task: nat) | Pass(ticks: nat)

  function Act(q: Deltas, a: Action): Deltas {
    match a
    case Sleep(j, t) => Insert(q, j, t)
    case Cancel(j) => Drop(q, j)
    case Pass(e) => Advance(q, e).1
  }

  function ActAll(q: Deltas, run: seq<Action>): Deltas
    decreases |run|
  {
    if run == [] then q else ActAll(Act(q, run[0]), run[1..])
  }

  function Elapsed(run: seq<Action>): nat {
    if run == [] then 0 else (if run[0].Pass? then run[0].ticks else 0) + Elapsed(run[1..])
  }

  predicate LeavesAlone(run: seq<Action>, i: nat) {
    forall k :: 0 <= k < |run| ==> match run[k] case Sleep(j, _) => j != i case Cancel(j) => j != i case Pass(_) => true
  }

  lemma ActOther(q: Deltas, a: Action, i: nat)
    requires Distinct(q) && Sleeping(q, i)
    requires match a case Sleep(j, _) => j != i case Cancel(j) => j != i case Pass(_) => true
    ensures Distinct(Act(q, a))
    ensures Sleeping(Act(q, a), i) ==> Remaining(q, i) == Remaining(Act(q, a), i) + if a.Pass? then a.ticks else 0
    ensures !Sleeping(Act(q, a), i) ==> a.Pass? && Remaining(q, i) <= a.ticks
  {
    match a
    case Sleep(j, t) =>
      DropOther(q, j, i);
      DropSelf(q, j);
      PlaceOther(Drop(q, j), j, if t == 0 then 1 else t, i);
      PlaceSelf(Drop(q, j), j, if t == 0 then 1 else t);
    case Cancel(j) => DropOther(q, j, i); DropSelf(q, j);
    case Pass(e) => AdvanceOne(q, e, i);
  }

  /** Main result: whatever other tasks do meanwhile, a task that went to sleep for t ticks is in the
      queue until at least t ticks have passed, and has then exactly the rest of them to wait. */
  lemma {:induction false} NeverEarly(q: Deltas, run: seq<Action>, i: nat)
    requires Distinct(q) && Sleeping(q, i) && LeavesAlone(run, i) && Elapsed(run) < Remaining(q, i)
    ensures Sleeping(ActAll(q, run), i) && Remaining(ActAll(q, run), i) + Elapsed(run) == Remaining(q, i)
    decreases |run|
  {
    if run != [] {
      ActOther(q, run[0], i);
      assert Elapsed(run) == (if run[0].Pass? then run[0].ticks else 0) + Elapsed(run[1..]);
      NeverEarly(Act(q, run[0]), run[1..], i);
    }
  }

  /** A task that is due and still asleep wakes with the next tick. */
  lemma LeftBehindWakesNext(q: Deltas, elapsed: nat, later: nat, i: nat)
    requires Distinct(q) && Sleeping(q, i) && Remaining(q, i) <= elapsed && later > 0
    ensures var (woken, rest) := Advance(q, elapsed); i in woken || i in Advance(rest, later).0
  {
    AdvanceOne(q, elapsed, i);
    var (woken, rest) := Advance(q, elapsed);
    if i !in woken { AdvanceOne(rest, later, i); }
  }

  // ---------- exactly when a sleeper wakes under unit ticks ----------

  /** What the task waits behind its predecessor. */
  function Gap(q: Deltas, i: nat): nat
    requires Sleeping(q, i)
  {
    if q[0].task == i then q[0].delta else Gap(q[1..], i)
  }

  /** Unit ticks until the task wakes: its time, and one more if it stands right behind another that is due
      at the same instant. */
  function WakesIn(q: Deltas, i: nat): nat
    requires Sleeping(q, i)
  {
    Remaining(q, i) + if Gap(q, i) == 0 then 1 else 0
  }

  /** Somebody is due in exactly r ticks. */
  predicate DueIn(q: Deltas, r: nat) {
    q != [] && (q[0].delta == r || (q[0].delta < r && DueIn(q[1..], r - q[0].delta)))
  }

  lemma {:induction false} SomebodyDue(q: Deltas, r: nat) returns (j: nat)
    requires DueIn(q, r) && Distinct(q)
    ensures Sleeping(q, j) && Remaining(q, j) == r
    decreases |q|
  {
    if q[0].delta == r {
      j := q[0].task;
    } else {
      j := SomebodyDue(q[1..], r - q[0].delta);
    }
  }

  lemma {:induction false} DueByHim(q: Deltas, j: nat)
    requires Sleeping(q, j)
    ensures DueIn(q, Remaining(q, j))
    decreases |q|
  {
    if q[0].task != j {
      DueByHim(q[1..], j);
      assert Remaining(q, j) == q[0].delta + Remaining(q[1..], j);
    }
  }

  lemma DueInMeans(q: Deltas, r: nat)
    requires Distinct(q)
    ensures DueIn(q, r) <==> exists j :: Sleeping(q, j) && Remaining(q, j) == r
  {
    if DueIn(q, r) { var j := SomebodyDue(q, r); }
    if j :| Sleeping(q, j) && Remaining(q, j) == r { DueByHim(q, j); }
  }

  /** A tick wakes exactly the tasks that were to wake with it, and brings the others one nearer. */
  lemma {:induction false} TickExactly(q: Deltas, i: nat)
    requires Distinct(q) && Sleeping(q, i)
    ensures var (woken, rest) := Advance(q, 1);
            && (i in woken <==> WakesIn(q, i) == 1)
            && (i !in woken ==> Sleeping(rest, i) && WakesIn(rest, i) + 1 == WakesIn(q, i))
    decreases |q|
  {
    if q[0].delta > 1 {
      var rest := [Entry(q[0].task, q[0].delta - 1)] + q[1..];
      assert rest[1..] == q[1..];
    } else if q[0].task == i {
      AdvanceAbsent(q[1..], 1 - q[0].delta, i);
    } else if q[0].delta == 0 {
      TickExactly(q[1..], i);
    } else {
      assert Advance(q[1..], 0) == ([], q[1..]);
      GapCovers(q[1..], i);
    }
  }

  lemma {:induction false} GapCovers(q: Deltas, i: nat)
    requires Sleeping(q, i)
    ensures Gap(q, i) <= Remaining(q, i)
    decreases |q|
  {
    if q[0].task != i { GapCovers(q[1..], i); }
  }

  /** Entering another task changes nobody's moment of waking. */
  lemma {:induction false} PlaceKeepsWaking(q: Deltas, i: nat, remain: nat, j: nat)
    requires i != j && Sleeping(q, j)
    ensures Sleeping(Place(q, i, remain), j) && WakesIn(Place(q, i, remain), j) == WakesIn(q, j)
    decreases |q|
  {
    var p := Place(q, i, remain);
    PlaceOther(q, i, remain, j);
    if remain >= q[0].delta {
      assert p[1..] == Place(q[1..], i, remain - q[0].delta);
      if q[0].task != j { PlaceKeepsWaking(q[1..], i, remain - q[0].delta, j); }
    } else {
      var second := Entry(q[0].task, q[0].delta - remain);
      assert p[0] == Entry(i, remain) && p[1..] == [second] + q[1..] && p[1..][1..] == q[1..];
      assert Gap(p, j) == Gap(p[1..], j);
    }
  }

  /** A task entered for r ticks wakes in r, or in r + 1 if somebody is already due then. */
  lemma {:induction false} PlaceWakes(q: Deltas, i: nat, remain: nat)
    requires !Sleeping(q, i) && remain > 0
    ensures Sleeping(Place(q, i, remain), i)
            && WakesIn(Place(q, i, remain), i) == remain + if DueIn(q, remain) then 1 else 0
    decreases |q|
  {
    PlaceSelf(q, i, remain);
    if q != [] {
      var p := Place(q, i, remain);
      if remain > q[0].delta {
        assert p[1..] == Place(q[1..], i, remain - q[0].delta);
        PlaceWakes(q[1..], i, remain - q[0].delta);
      } else if remain == q[0].delta {
        assert p[1..] == Place(q[1..], i, 0);
        PlaceAtOnce(q[1..], i);
      }
    }
  }

  lemma {:induction false} PlaceAtOnce(q: Deltas, i: nat)
    requires !Sleeping(q, i)
    ensures Sleeping(Place(q, i, 0), i) && Gap(Place(q, i, 0), i) == 0
    decreases |q|
  {
    if q != [] && q[0].delta == 0 {
      assert Place(q, i, 0)[1..] == Place(q[1..], i, 0);
      PlaceAtOnce(q[1..], i);
    }
  }

  // ---------- a sleeper made ready before its time ----------

  /** A task made ready while it is queued has its links cleared where it stands: the queue ends with it. */
  function Cut(q: Deltas, i: nat): Deltas {
    if q == [] then [] else if q[0].task == i then [Entry(i, 0)] else [q[0]] + Cut(q[1..], i)
  }

  /** Task j stands somewhere before task i. */
  ghost predicate Precedes(q: Deltas, j: nat, i: nat) {
    exists a, b :: 0 <= a < b < |q| && q[a].task == j && q[b].task == i
  }

  lemma {:induction false} StandsAt(q: Deltas, i: nat) returns (k: nat)
    requires Sleeping(q, i)
    ensures k < |q| && q[k].task == i
    decreases |q|
  {
    if q[0].task == i {
      k := 0;
    } else {
      k := StandsAt(q[1..], i);
      k := k + 1;
    }
  }

  lemma {:induction false} SleepsAt(q: Deltas, k: nat)
    requires k < |q|
    ensures Sleeping(q, q[k].task)
    ensures Distinct(q) ==> forall a :: 0 <= a < k ==> q[a].task != q[k].task
    decreases |q|
  {
    if k > 0 {
      SleepsAt(q[1..], k - 1);
      assert forall a :: 0 < a < k ==> q[a] == q[1..][a - 1];
    }
  }

  lemma PrecedesLater(q: Deltas, j: nat, i: nat)
    requires q != [] && q[0].task != j
    ensures Precedes(q, j, i) <==> Precedes(q[1..], j, i)
  {
    if Precedes(q, j, i) {
      var a, b :| 0 <= a < b < |q| && q[a].task == j && q[b].task == i;
      assert q[1..][a - 1].task == j && q[1..][b - 1].task == i;
    }
    if Precedes(q[1..], j, i) {
      var a, b :| 0 <= a < b < |q[1..]| && q[1..][a].task == j && q[1..][b].task == i;
      assert q[a + 1].task == j && q[b + 1].task == i;
    }
  }

  /** Of the other sleepers exactly those before it stay queued, and wake when they would have. */
  lemma {:induction false} CutKeepsExactly(q: Deltas, i: nat, j: nat)
    requires Distinct(q) && Sleeping(q, i) && i != j
    ensures Sleeping(Cut(q, i), j) <==> Precedes(q, j, i)
    ensures Sleeping(Cut(q, i), j) ==> Sleeping(q, j) && WakesIn(Cut(q, i), j) == WakesIn(q, j)
    ensures Distinct(Cut(q, i)) && forall k :: Sleeping(Cut(q, i), k) ==> Sleeping(q, k)
    decreases |q|
  {
    var c := Cut(q, i);
    if q[0].task == i {
      if a, b :| 0 <= a < b < |q| && q[a].task == j && q[b].task == i { SleepsAt(q[1..], b - 1); }
    } else {
      assert c[1..] == Cut(q[1..], i);
      CutKeepsExactly(q[1..], i, j);
      if q[0].task == j {
        var k := StandsAt(q, i);
        assert q[0].task == j && q[k].task == i;
      } else {
        PrecedesLater(q, j, i);
      }
    }
  }

  lemma {:induction false} CutSelf(q: Deltas, i: nat)
    ensures Sleeping(Cut(q, i), i) <==> Sleeping(q, i)
    ensures !Sleeping(q, i) ==> Cut(q, i) == q
    decreases |q|
  {
    if q != [] && q[0].task != i {
      CutSelf(q[1..], i);
      assert Cut(q, i)[1..] == Cut(q[1..], i);
    }
  }

  /** Nobody loses his place exactly when the task made ready is the last to wake. */
  lemma EarlyWakeHarmless(q: Deltas, i: nat)
    requires Distinct(q) && Sleeping(q, i)
    ensures (forall j :: Sleeping(q, j) ==> Sleeping(Cut(q, i), j)) <==> q[|q| - 1].task == i
  {
    hide Sleeping, Distinct, WakesIn;
    var n := StandsAt(q, i);
    CutSelf(q, i);
    if q[|q| - 1].task == i {
      forall j | Sleeping(q, j) ensures Sleeping(Cut(q, i), j) {
        var k := StandsAt(q, j);
        if j != i {
          CutKeepsExactly(q, i, j);
          assert q[k].task == j && q[|q| - 1].task == i;
        }
      }
    } else {
      var j := q[|q| - 1].task;
      SleepsAt(q, |q| - 1);
      CutKeepsExactly(q, i, j);
    }
  }

  /** Task j wakes in the course of the run. */
  predicate WokenBy(q: Deltas, run: seq<Action>, j: nat)
    decreases |run|
  {
    run != [] &&
      ((run[0].Pass? && j in Advance(q, run[0].ticks).0) || WokenBy(Act(q, run[0]), run[1..], j))
  }

  lemma {:induction false} AbsentNeverWakes(q: Deltas, run: seq<Action>, j: nat)
    requires Distinct(q) && !Sleeping(q, j) && LeavesAlone(run, j)
    ensures !WokenBy(q, run, j)
    decreases |run|
  {
    hide Advance, Insert, Drop, Place, Sleeping, Distinct;
    if run != [] {
      ActAbsent(q, run[0], j);
      AbsentNeverWakes(Act(q, run[0]), run[1..], j);
    }
  }

  lemma ActAbsent(q: Deltas, a: Action, j: nat)
    requires Distinct(q) && !Sleeping(q, j) && LeavesAlone([a], j)
    ensures Distinct(Act(q, a)) && !Sleeping(Act(q, a), j) && (a.Pass? ==> j !in Advance(q, a.ticks).0)
  {
    assert [a][0] == a;
    match a
    case Sleep(i, t) =>
      DropOther(q, i, j);
      DropSelf(q, i);
      PlaceOther(Drop(q, i), i, if t == 0 then 1 else t, j);
      PlaceSelf(Drop(q, i), i, if t == 0 then 1 else t);
    case Cancel(i) => DropOther(q, i, j); DropSelf(q, i);
    case Pass(e) => AdvanceAbsent(q, e, j);
  }

  /** The others are lost: no tick ever wakes them, until they are made ready or queued anew. */
  lemma EarlyWakeLoses(q: Deltas, i: nat, j: nat, run: seq<Action>)
    requires Distinct(q) && Sleeping(q, i) && Sleeping(q, j) && i != j && !Precedes(q, j, i) && LeavesAlone(run, j)
    ensures !WokenBy(Cut(q, i), run, j)
  {
    hide Sleeping, Distinct, WokenBy, LeavesAlone, WakesIn, Precedes;
    CutKeepsExactly(q, i, j);
    AbsentNeverWakes(Cut(q, i), run, j);
  }

  // ---------- the linked list ----------

  /** List l is threaded through `next` from h. */
  predicate Chained(l: seq<nat>, h: nat, next: seq<nat>) {
    && |next| == MAX_TASKS && (forall k :: 0 <= k < |l| ==> l[k] < MAX_TASKS)
    && (forall j, k :: 0 <= j < k < |l| ==> l[j] != l[k])
    && h == (if l == [] then INVALID else l[0])
    && forall k :: 0 <= k < |l| ==> next[l[k]] == if k + 1 < |l| then l[k + 1] else INVALID
  }

  function Entries(l: seq<nat>, delta: seq<nat>): (q: Deltas)
    requires |delta| == MAX_TASKS && forall k :: 0 <= k < |l| ==> l[k] < MAX_TASKS
    ensures |q| == |l| && forall k :: 0 <= k < |l| ==> q[k] == Entry(l[k], delta[l[k]])
  {
    seq(|l|, k requires 0 <= k < |l| => Entry(l[k], delta[l[k]]))
  }

  lemma {:induction false} SleepingAt(l: seq<nat>, delta: seq<nat>, i: nat)
    requires |delta| == MAX_TASKS && forall k :: 0 <= k < |l| ==> l[k] < MAX_TASKS
    ensures Sleeping(Entries(l, delta), i) <==> i in l
    ensures (forall j, k :: 0 <= j < k < |l| ==> l[j] != l[k]) ==> Distinct(Entries(l, delta))
    decreases |l|
  {
    if l != [] {
      assert Entries(l, delta)[1..] == Entries(l[1..], delta);
      SleepingAt(l[1..], delta, i);
      SleepingAt(l[1..], delta, l[0]);
      assert forall k :: 0 <= k < |l| - 1 ==> l[1..][k] == l[k + 1];
    }
  }

  lemma {:induction false} DropSplit(q: Deltas, k: nat)
    requires k < |q| && forall j :: 0 <= j < k ==> q[j].task != q[k].task
    ensures Drop(q, q[k].task) ==
              q[..k] + if k + 1 < |q| then [Entry(q[k + 1].task, q[k + 1].delta + q[k].delta)] + q[k + 2..] else []
    decreases |q|
  {
    if k > 0 {
      DropSplit(q[1..], k - 1);
      assert q[..k] == [q[0]] + q[1..][..k - 1];
      assert k + 1 < |q| ==> q[1..][k + 1..] == q[k + 2..];
    }
  }

  lemma {:induction false} DropMiss(q: Deltas, i: nat)
    requires forall k :: 0 <= k < |q| ==> q[k].task != i
    ensures Drop(q, i) == q
    decreases |q|
  {
    if q != [] { DropMiss(q[1..], i); }
  }

  /** Place, once the walk has passed the first k entries. */
  lemma PlaceStep(q: Deltas, i: nat, ticks: nat, remain: nat, k: nat)
    requires k < |q| && remain >= q[k].delta && Place(q, i, ticks) == q[..k] + Place(q[k..], i, remain)
    ensures Place(q, i, ticks) == q[..k + 1] + Place(q[k + 1..], i, remain - q[k].delta)
  {
    assert q[k..][1..] == q[k + 1..];
    assert q[..k] + [q[k]] == q[..k + 1];
  }

  /** Cells of a task that is not in the list do not matter to it. */
  lemma Apart(l: seq<nat>, h: nat, next: seq<nat>, delta: seq<nat>, i: nat)
    requires Chained(l, h, next) && |delta| == MAX_TASKS && i < MAX_TASKS && i !in l
    ensures Chained(l, h, next[i := INVALID]) && Entries(l, delta[i := 0]) == Entries(l, delta)
  {
    assert forall k :: 0 <= k < |l| ==> l[k] != i;
  }

  /** The links of the k-th task cleared: the list ends with it. */
  lemma CutOff(l: seq<nat>, k: nat, h: nat, next: seq<nat>, delta: seq<nat>)
    requires k < |l| && Chained(l, h, next) && |delta| == MAX_TASKS
    ensures Chained(l[..k + 1], h, next[l[k] := INVALID])
    ensures Entries(l[..k + 1], delta[l[k] := 0]) == Cut(Entries(l, delta), l[k])
  {
    CutAt(Entries(l, delta), k);
    assert Entries(l[..k + 1], delta[l[k] := 0]) == Entries(l, delta)[..k] + [Entry(l[k], 0)];
  }

  lemma {:induction false} CutAt(q: Deltas, k: nat)
    requires k < |q| && forall j :: 0 <= j < k ==> q[j].task != q[k].task
    ensures Cut(q, q[k].task) == q[..k] + [Entry(q[k].task, 0)]
    decreases |q|
  {
    if k > 0 {
      CutAt(q[1..], k - 1);
      assert q[..k] == [q[0]] + q[1..][..k - 1];
    }
  }

  class DeltaQueue {
    var head: nat
    const next: array<nat>
    const delta: array<nat>
    ghost var order: seq<nat>

    ghost predicate Valid()
      reads this, next, delta
    {
      next.Length == delta.Length == MAX_TASKS && next != delta && Chained(order, head, next[..])
    }

    /** The delta list represented. */
    ghost function Contents(): (q: Deltas)
      requires Valid()
      reads this, next, delta
      ensures |q| == |order|
    {
      Entries(order, delta[..])
    }

    constructor ()
      ensures Valid() && order == [] && fresh(next) && fresh(delta)
    {
      head, order := INVALID, [];
      next, delta := new nat[13](_ => INVALID), new nat[13](_ => 0);
    }

    lemma At(k: nat)
      requires Valid() && k < |order|
      ensures order[k] < MAX_TASKS < INVALID && next[order[k]] == if k + 1 < |order| then order[k + 1] else INVALID
      ensures k + 1 < |order| ==> order[k + 1] < MAX_TASKS && order[k + 1] != order[k]
      ensures Contents()[k] == Entry(order[k], delta[order[k]]) && head == order[0]
    {
    }

    /** Takes the k-th task out. */
    method Unlink(i: nat, prev: nat, ghost k: nat)
      requires Valid() && k < |order| && order[k] == i && prev == if k == 0 then INVALID else order[k - 1]
      modifies this, next, delta
      ensures Valid() && Contents() == Drop(old(Contents()), i) && order == old(order[..k] + order[k + 1..])
              && next[i] == INVALID
    {
      hide Chained, Entries, Drop;
      At(k);
      if k > 0 { At(k - 1); }
      Chains(k);
      var n := next[i];
      if n != INVALID { delta[n] := delta[n] + delta[i]; }
      if prev == INVALID {
        head := n;
      } else {
        next[prev] := n;
      }
      next[i] := INVALID;
      delta[i] := 0;
      order := order[..k] + order[k + 1..];
      CutChained(old(order), k, old(head), old(next[..]), head, next[..]);
      CutEntries(old(order), k, old(delta[..]), delta[..]);
    }

    lemma Chains(k: nat)
      requires Valid() && k < |order|
      ensures Chained(order, head, next[..]) && (k > 0 ==> order[k - 1] != order[k])
      ensures forall j :: 0 <= j < |order| ==> order[j] < MAX_TASKS
      ensures forall a, b :: 0 <= a < b < |order| ==> order[a] != order[b]
    {
    }

    /** No effect on the queue if the task is not in it. */
    method SleepRemove(i: nat)
      requires Valid()
      modifies this, next, delta
      ensures Valid() && Contents() == Drop(old(Contents()), i) && i !in order
      ensures forall j :: j in order <==> j in old(order) && j != i
    {
      var prev, cur := INVALID, head;
      ghost var k := 0;
      while cur != INVALID
        invariant unchanged(this, next, delta) && Valid()
        invariant k <= |order| && cur == (if k < |order| then order[k] else INVALID)
                  && prev == if k == 0 then INVALID else order[k - 1]
        invariant i !in order[..k]
        decreases |order| - k
      {
        At(k);
        if cur == i {
          Unlink(i, prev, k);
          Membership(old(order), k);
          return;
        }
        prev := cur;
        cur := next[cur];
        k := k + 1;
      }
      assert order[..k] == order;
      DropMiss(Contents(), i);
    }

    static lemma Membership(l: seq<nat>, k: nat)
      requires k < |l| && forall a, b :: 0 <= a < b < |l| ==> l[a] != l[b]
      ensures forall j :: j in l[..k] + l[k + 1..] <==> j in l && j != l[k]
    {
      forall j ensures j in l[..k] + l[k + 1..] <==> j in l && j != l[k] {
        if j in l && j != l[k] {
          var m :| 0 <= m < |l| && l[m] == j;
          if m < k { assert l[..k][m] == j; } else { assert l[k + 1..][m - k - 1] == j; }
        }
      }
    }

    method SleepInsert(i: nat, ticks: nat)
      requires Valid() && i < MAX_TASKS
      modifies this, next, delta
      ensures Valid() && Contents() == Insert(old(Contents()), i, ticks)
      ensures forall j :: j in order <==> j in old(order) || j == i
    {
      hide Chained, Entries, Place, Drop;
      var wait := if ticks == 0 then 1 else ticks;
      SleepRemove(i);
      assert Contents()[..0] + Place(Contents()[0..], i, wait) == Place(Contents(), i, wait) by { Whole(Contents()); }
      if order != [] { At(0); }
      NoHead();
      var prev, cur, remain: nat := INVALID, head, wait;
      ghost var k, q := 0, Contents();
      label walking:
      while cur != INVALID && remain >= delta[cur]
        invariant unchanged@walking(this, next, delta) && Valid()
        invariant k <= |order| && cur == (if k < |order| then order[k] else INVALID)
                  && prev == if k == 0 then INVALID else order[k - 1]
        invariant (cur == INVALID || cur < MAX_TASKS) && remain >= 0
        invariant Place(q, i, wait) == q[..k] + Place(q[k..], i, remain)
        decreases |order| - k
      {
        At(k);
        PlaceStep(q, i, wait, remain, k);
        remain := remain - delta[cur];
        prev := cur;
        cur := next[cur];
        k := k + 1;
        if k < |order| { At(k); }
      }
      if k < |order| { At(k); }
      LinkIn(i, remain, prev, cur, k);
      InMiddle(old@walking(order), k, i);
    }

    lemma NoHead()
      requires Valid()
      ensures head == if order == [] then INVALID else order[0]
    {
    }

    static lemma Whole(q: Deltas)
      ensures q[0..] == q && forall r: Deltas :: q[..0] + r == r
    {
    }

    static lemma InMiddle(l: seq<nat>, k: nat, i: nat)
      requires k <= |l|
      ensures forall j :: j in l[..k] + [i] + l[k..] <==> j in l || j == i
    {
      assert l == l[..k] + l[k..];
    }

    method LinkIn(i: nat, remain: nat, prev: nat, cur: nat, ghost k: nat)
      requires Valid() && i < MAX_TASKS && i !in order && k <= |order|
      requires cur == (if k < |order| then order[k] else INVALID) && prev == if k == 0 then INVALID else order[k - 1]
      requires k < |order| ==> remain < delta[order[k]]
      modifies this, next, delta
      ensures Valid() && order == old(order[..k] + [i] + order[k..])
      ensures Contents() == old(Contents()[..k] + Place(Contents()[k..], i, remain))
    {
      hide Chained, Entries, Place;
      if order != [] { Chains(0); }
      if k < |order| { At(k); }
      if k > 0 { At(k - 1); }
      delta[i] := remain;
      next[i] := cur;
      if cur != INVALID { delta[cur] := delta[cur] - remain; }
      if prev == INVALID {
        head := i;
      } else {
        next[prev] := i;
      }
      order := order[..k] + [i] + order[k..];
      AddChained(old(order), k, i, old(head), old(next[..]), head, next[..]);
      AddEntries(old(order), k, i, remain, old(delta[..]), delta[..]);
    }

    /** Clears the links of a task: where it stands in the queue, the queue ends. */
    method Detach(i: nat)
      requires Valid() && i < MAX_TASKS
      modifies this`order, next, delta
      ensures Valid() && Contents() == Cut(old(Contents()), i) && next[i] == INVALID && delta[i] == 0
      ensures i !in old(order) ==> Contents() == old(Contents()) && order == old(order)
    {
      hide Chained, Entries, Cut, Sleeping;
      next[i] := INVALID;
      delta[i] := 0;
      assert next[..] == old(next[..])[i := INVALID] && delta[..] == old(delta[..])[i := 0];
      if i in order {
        ghost var k: nat :| k < |order| && order[k] == i;
        CutOff(order, k, head, old(next[..]), old(delta[..]));
        order := order[..k + 1];
      } else {
        Apart(order, head, old(next[..]), old(delta[..]), i);
        SleepingAt(order, old(delta[..]), i);
        CutSelf(old(Contents()), i);
      }
    }

    /** One turn of the tick loop: either the head has time left and absorbs the ticks, or it is taken off.
        `left` ticks remain; `woken` is INVALID if nothing was taken off. */
    method Pop(elapsed: nat) returns (left: nat, woken: nat)
      requires Valid() && elapsed > 0 && head != INVALID
      modifies this, next, delta
      ensures Valid()
      ensures old(Contents()[0].delta) > elapsed ==>
                left == 0 && woken == INVALID && order == old(order) && Contents() == Advance(old(Contents()),
                    elapsed).1
      ensures old(Contents()[0].delta) <= elapsed ==>
                && left == elapsed - old(Contents()[0].delta) && woken == old(Contents()[0].task) < MAX_TASKS
                && Contents() == old(Contents()[1..]) && order == old(order[1..]) && woken !in order
    {
      var h := head;
      ghost var q, l := Contents(), order;
      At(0);
      if delta[h] > elapsed {
        delta[h] := delta[h] - elapsed;
        assert Contents() == [Entry(q[0].task, q[0].delta - elapsed)] + q[1..];
        return 0, INVALID;
      }
      left, woken := elapsed - delta[h], h;
      delta[h] := 0;
      head := next[h];
      next[h] := INVALID;
      order := l[1..];
      CutChained(l, 0, old(head), old(next[..]), head, next[..]);
      assert l[..0] + l[1..] == l[1..];
      assert Contents() == q[1..];
    }
  }

  /** A list with a task more. */
  lemma AddChained(l: seq<nat>, k: nat, i: nat, h: nat, before: seq<nat>, h1: nat, after: seq<nat>)
    requires k <= |l| && Chained(l, h, before) && i < MAX_TASKS && i !in l && |after| == MAX_TASKS
             && h1 == if k == 0 then i else h
    requires forall j :: 0 <= j < MAX_TASKS && j != i && (k > 0 ==> j != l[k - 1]) ==> after[j] == before[j]
    requires after[i] == (if k < |l| then l[k] else INVALID) && (k > 0 ==> after[l[k - 1]] == i)
    ensures Chained(l[..k] + [i] + l[k..], h1, after)
  {
    var m := l[..k] + [i] + l[k..];
    AddDistinct(l, k, i);
    forall j | 0 <= j < |m| ensures after[m[j]] == if j + 1 < |m| then m[j + 1] else INVALID {
      if j != k { AddAt(l, k, i, h, before, after, if j < k then j else j - 1); }
    }
    assert Chained(m, h1, after);
  }

  lemma AddDistinct(l: seq<nat>, k: nat, i: nat)
    requires k <= |l| && i !in l && i < MAX_TASKS && forall j :: 0 <= j < |l| ==> l[j] < MAX_TASKS
    requires forall a, b :: 0 <= a < b < |l| ==> l[a] != l[b]
    ensures var m := l[..k] + [i] + l[k..];
            && (forall j :: 0 <= j < |m| ==>
                  m[j] < MAX_TASKS && m[j] == if j < k then l[j] else if j == k then i else l[j - 1])
            && forall a, b :: 0 <= a < b < |m| ==> m[a] != m[b]
  {
  }

  /** The links that insertion leaves alone, and the one to the new task. */
  lemma AddAt(l: seq<nat>, k: nat, i: nat, h: nat, before: seq<nat>, after: seq<nat>, from: nat)
    requires k <= |l| && Chained(l, h, before) && i !in l && |after| == MAX_TASKS && from < |l|
    requires forall j :: 0 <= j < MAX_TASKS && j != i && (k > 0 ==> j != l[k - 1]) ==> after[j] == before[j]
    requires k > 0 ==> after[l[k - 1]] == i
    ensures l[from] < MAX_TASKS
            && after[l[from]] == if from + 1 == k then i else if from + 1 < |l| then l[from + 1] else INVALID
  {
    assert l[from] != i;
    assert before[l[from]] == if from + 1 < |l| then l[from + 1] else INVALID;
    if from + 1 < k { assert l[from] != l[k - 1]; }
    if from + 1 > k > 0 { assert l[k - 1] != l[from]; }
  }

  lemma AddEntries(l: seq<nat>, k: nat, i: nat, remain: nat, before: seq<nat>, after: seq<nat>)
    requires k <= |l| && i < MAX_TASKS && i !in l && |before| == |after| == MAX_TASKS
    requires (forall j :: 0 <= j < |l| ==> l[j] < MAX_TASKS) && forall a, b :: 0 <= a < b < |l| ==> l[a] != l[b]
    requires k < |l| ==> remain < before[l[k]] && after[l[k]] == before[l[k]] - remain
    requires after[i] == remain
    requires forall j :: 0 <= j < MAX_TASKS && j != i && (k < |l| ==> j != l[k]) ==> after[j] == before[j]
    ensures Entries(l[..k] + [i] + l[k..], after) == Entries(l, before)[..k] + Place(Entries(l, before)[k..], i, remain)
  {
    var m, q := l[..k] + [i] + l[k..], Entries(l, before);
    assert forall j :: 0 <= j < |m| ==> m[j] == if j < k then l[j] else if j == k then i else l[j - 1];
    if k < |l| {
      assert q[k..][0] == q[k] && q[k..][1..] == q[k + 1..];
      assert Place(q[k..], i, remain) == [Entry(i, remain), Entry(l[k], before[l[k]] - remain)] + q[k + 1..];
    }
    assert Entries(m, after) == q[..k] + Place(q[k..], i, remain);
  }

  lemma CutEntries(l: seq<nat>, k: nat, before: seq<nat>, after: seq<nat>)
    requires k < |l| && |before| == |after| == MAX_TASKS
    requires (forall j :: 0 <= j < |l| ==> l[j] < MAX_TASKS) && forall a, b :: 0 <= a < b < |l| ==> l[a] != l[b]
    requires k + 1 < |l| ==> after[l[k + 1]] == before[l[k + 1]] + before[l[k]]
    requires forall j :: 0 <= j < MAX_TASKS && j != l[k] && (k + 1 < |l| ==> j != l[k + 1]) ==> after[j] == before[j]
    ensures Entries(l[..k] + l[k + 1..], after) == Drop(Entries(l, before), l[k])
  {
    var m, q := l[..k] + l[k + 1..], Entries(l, before);
    var cut := q[..k] + if k + 1 < |q| then [Entry(q[k + 1].task, q[k + 1].delta + q[k].delta)] + q[k + 2..] else [];
    DropSplit(q, k);
    forall j | 0 <= j < |m| ensures Entries(m, after)[j] == cut[j] { CutEntry(l, k, before, after, j); }
    assert Entries(m, after) == cut;
  }

  /** One entry of the list without its k-th task. */
  lemma CutEntry(l: seq<nat>, k: nat, before: seq<nat>, after: seq<nat>, j: nat)
    requires k < |l| && |before| == |after| == MAX_TASKS && j < |l| - 1
    requires (forall a :: 0 <= a < |l| ==> l[a] < MAX_TASKS) && forall a, b :: 0 <= a < b < |l| ==> l[a] != l[b]
    requires k + 1 < |l| ==> after[l[k + 1]] == before[l[k + 1]] + before[l[k]]
    requires forall i :: 0 <= i < MAX_TASKS && i != l[k] && (k + 1 < |l| ==> i != l[k + 1]) ==> after[i] == before[i]
    ensures var from := if j < k then j else j + 1;
            && (l[..k] + l[k + 1..])[j] == l[from]
            && after[l[from]] == before[l[from]] + if from == k + 1 then before[l[k]] else 0
  {
    if j < k { assert l[j] != l[k] && (k + 1 < |l| ==> l[j] != l[k + 1]); }
    if j > k { assert l[k] != l[j + 1] && l[k + 1] != l[j + 1]; }
  }

  /** The list without its k-th task. */
  lemma CutChained(l: seq<nat>, k: nat, h: nat, before: seq<nat>, h1: nat, after: seq<nat>)
    requires k < |l| && Chained(l, h, before) && |after| == MAX_TASKS && h1 == if k == 0 then before[l[0]] else h
    requires forall i :: 0 <= i < MAX_TASKS && i != l[k] && (k > 0 ==> i != l[k - 1]) ==> after[i] == before[i]
    requires k > 0 ==> after[l[k - 1]] == before[l[k]]
    ensures Chained(l[..k] + l[k + 1..], h1, after)
  {
    var m := l[..k] + l[k + 1..];
    assert forall j :: 0 <= j < |m| ==> m[j] == if j < k then l[j] else l[j + 1];
    forall j | 0 <= j < |m| ensures after[m[j]] == if j + 1 < |m| then m[j + 1] else INVALID {
      LinkAt(l, k, h, before, after, j);
    }
    assert before[l[0]] == if 1 < |l| then l[1] else INVALID;
    assert Chained(m, h1, after);
  }

  lemma LinkAt(l: seq<nat>, k: nat, h: nat, before: seq<nat>, after: seq<nat>, j: nat)
    requires k < |l| && Chained(l, h, before) && |after| == MAX_TASKS && j < |l| - 1
    requires forall i :: 0 <= i < MAX_TASKS && i != l[k] && (k > 0 ==> i != l[k - 1]) ==> after[i] == before[i]
    requires k > 0 ==> after[l[k - 1]] == before[l[k]]
    ensures var m := l[..k] + l[k + 1..]; after[m[j]] == if j + 1 < |m| then m[j + 1] else INVALID
  {
    var m := l[..k] + l[k + 1..];
    var from := if j < k then j else j + 1;
    assert m[j] == l[from] && (j + 1 < |m| ==> m[j + 1] == l[if j + 1 < k then j + 1 else j + 2]);
    assert before[l[from]] == if from + 1 < |l| then l[from + 1] else INVALID;
    assert before[l[k]] == if k + 1 < |l| then l[k + 1] else INVALID;
    if j != k - 1 {
      assert from < k ==> l[from] != l[k];
      assert from > k ==> l[k] != l[from];
      assert k > 0 && from < k - 1 ==> l[from] != l[k - 1];
      assert k > 0 && from > k - 1 ==> l[k - 1] != l[from];
    }
  }
}
