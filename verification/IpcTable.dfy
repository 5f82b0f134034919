/** The table of IPC objects, their handles, and the calls on them as the kernel makes them. */
module IpcTable {
  import opened Common
  import opened Ipc

  const MISSING: nat := 0xFF

  function NoData(): (r: seq<byte>)
    ensures |r| == CAPACITY
  {
    seq(CAPACITY, _ => 0)
  }

  /** A closed entry keeps only its generation. */
  function Cleared(generation: nat): (o: Obj)
    ensures o.Valid()
  {
    Obj(false, Queue, generation, 0, NoData(), 0, 0, 0, 0, 0, NoWait, 0xFF, 0, 0)
  }

  /** Generations are 16-bit and skip 0. */
  function NextGeneration(g: nat): nat {
    if (g + 1) % 0x1_0000 == 0 then 1 else (g + 1) % 0x1_0000
  }

  function Handle(index: nat, generation: nat): int {
    generation * 0x100 + index
  }

  /** The object a handle names, MISSING if it is stale or malformed. */
  function Lookup(objects: seq<Obj>, handle: int): (i: nat)
    requires |objects| < MISSING
    ensures i == MISSING || i < |objects|
  {
    var word := handle % 0x1_0000_0000;
    var i := word % 0x100;
    if i >= |objects| || !objects[i].used || objects[i].generation != word / 0x100 then MISSING else i
  }

  /** A handle leads back to its object. */
  lemma HandleRoundTrip(objects: seq<Obj>, i: nat)
    requires |objects| < MISSING && i < |objects| && objects[i].used && objects[i].generation < 0x1_0000
    ensures Lookup(objects, Handle(i, objects[i].generation)) == i
  {
    var h := Handle(i, objects[i].generation);
    assert h % 0x1_0000_0000 == h && h % 0x100 == i && h / 0x100 == objects[i].generation;
  }

  /** Distinct objects have distinct handles; and a handle names no later object in the same entry until
      the generation comes round again. */
  lemma HandlesApart(i: nat, g: nat, j: nat, h: nat)
    requires i < MISSING && j < MISSING && Handle(i, g) == Handle(j, h)
    ensures i == j && g == h
  {
    assert Handle(i, g) % 0x100 == i && Handle(j, h) % 0x100 == j;
  }

  /** The generation after k reuses of an entry. */
  function Reused(g: nat, k: nat): nat
    decreases k
  {
    if k == 0 then g else NextGeneration(Reused(g, k - 1))
  }

  lemma {:induction false} ReusedIs(g: nat, k: nat)
    requires 0 < g < 0x1_0000 && k < 0xFFFF
    ensures Reused(g, k) == if g + k < 0x1_0000 then g + k else g + k - 0xFFFF
    decreases k
  {
    if k > 0 { ReusedIs(g, k - 1); }
  }

  /** A handle stays stale through the next 65534 reuses of its entry. */
  lemma StaleHandle(objects: seq<Obj>, i: nat, g: nat, k: nat)
    requires |objects| < MISSING && i < |objects| && 0 < g < 0x1_0000 && 0 < k < 0xFFFF
    requires objects[i].generation == Reused(g, k)
    ensures Lookup(objects, Handle(i, g)) == MISSING
  {
    ReusedIs(g, k);
    var h := Handle(i, g);
    assert h % 0x1_0000_0000 == h && h % 0x100 == i && h / 0x100 == g;
  }

  /** A call with effect e on object i, seen on the table and on the list of completed waits. */
  predicate Did(before: seq<Obj>, wakes0: seq<Wake>, after: seq<Obj>, wakes1: seq<Wake>, i: nat, e: Effect)
    requires i < |before|
  {
    after == before[i := e.obj] && wakes1 == wakes0 + e.wakes
  }

  // ---------- objects and their owners ----------

  /** The table of objects, the waits completed so far, the live processes with their counts of objects, and the
      number of objects in use. */
  datatype Tab = Tab(objects: seq<Obj>, wakes: seq<Wake>, counts: map<nat, nat>, live: nat)

  predicate AllValid(objects: seq<Obj>) {
    |objects| < MISSING && forall i :: 0 <= i < |objects| ==> objects[i].Valid()
  }

  function Less(n: nat): nat {
    if n > 0 then n - 1 else 0
  }

  function FirstFree(objects: seq<Obj>, i: nat): (r: nat)
    requires i <= |objects|
    ensures i <= r <= |objects| && (r < |objects| ==> !objects[r].used)
    ensures forall k :: i <= k < r ==> objects[k].used
    decreases |objects| - i
  {
    if i == |objects| || !objects[i].used then i else FirstFree(objects, i + 1)
  }

  function Opened(generation: nat, kind: Kind, owner: nat, initial: int): (o: Obj)
    ensures o.Valid()
  {
    Cleared(generation).(used := true, kind := kind, owner := owner, value := initial)
  }

  /** A live process gets the first free entry, under a new generation. */
  function CreateObject(t: Tab, kind: Kind, owner: nat, initial: int): (r: (int, Tab)) {
    var i := FirstFree(t.objects, 0);
    if owner !in t.counts then (-22, t)
    else if i == |t.objects| then (-12, t)
    else
      var g := NextGeneration(t.objects[i].generation);
      (Handle(i, g), t.(objects := t.objects[i := Opened(g, kind, owner, initial)],
                        counts := t.counts[owner := t.counts[owner] + 1], live := t.live + 1))
  }

  /** The entry is cleared; a waiting call completes with an error. */
  function Clear(t: Tab, i: nat): Tab
    requires i < |t.objects|
  {
    var o := t.objects[i];
    t.(objects := t.objects[i := Cleared(o.generation)], live := Less(t.live),
       wakes := t.wakes + if o.wait != NoWait then Woken(o, -125, None) else [])
  }

  /** Only the owner closes. */
  function CloseObject(t: Tab, pid: nat, handle: int): (int, Tab)
    requires |t.objects| < MISSING
  {
    var i := Lookup(t.objects, handle);
    if i == MISSING then (-9, t)
    else if t.objects[i].owner != pid then (-13, t)
    else (0, Clear(t, i).(counts := if pid in t.counts then t.counts[pid := Less(t.counts[pid])] else t.counts))
  }

  function ReleaseFrom(t: Tab, pid: nat, i: nat): (r: Tab)
    requires i <= |t.objects|
    ensures |r.objects| == |t.objects| && (AllValid(t.objects) ==> AllValid(r.objects))
    decreases |t.objects| - i
  {
    if i == |t.objects| then t
    else ReleaseFrom(if t.objects[i].used && t.objects[i].owner == pid then Clear(t, i) else t, pid, i + 1)
  }

  /** Everything the process owns is closed; killed, it stays with a count of 0, reaped, it is gone. */
  function Release(t: Tab, pid: nat, reaped: bool): Tab {
    ReleaseFrom(t, pid, 0).(counts := if reaped then t.counts - {pid} else if pid in t.counts then t.counts[pid := 0]
                              else t.counts)
  }

  function Enroll(t: Tab, pid: nat): Tab {
    if pid in t.counts then t else t.(counts := t.counts[pid := 0])
  }

  // ---------- the counts are right ----------

  function Owned(objects: seq<Obj>, pid: nat): nat {
    if objects == [] then 0
    else (if objects[0].used && objects[0].owner == pid then 1 else 0) + Owned(objects[1..], pid)
  }

  function InUse(objects: seq<Obj>): nat {
    if objects == [] then 0 else (if objects[0].used then 1 else 0) + InUse(objects[1..])
  }

  /** Every object in use belongs to a live process, and every count is the number of objects counted. */
  ghost predicate Accounted(t: Tab) {
    && t.live == InUse(t.objects)
    && (forall i :: 0 <= i < |t.objects| && t.objects[i].used ==> t.objects[i].owner in t.counts)
    && (forall pid :: pid in t.counts ==> t.counts[pid] == Owned(t.objects, pid))
  }

  lemma {:induction false} ObjectSet(objects: seq<Obj>, i: nat, o: Obj, pid: nat)
    requires i < |objects|
    ensures Owned(objects[i := o], pid) + (if objects[i].used && objects[i].owner == pid then 1 else 0) ==
              Owned(objects, pid) + if o.used && o.owner == pid then 1 else 0
    ensures InUse(objects[i := o]) + (if objects[i].used then 1 else 0) == InUse(objects) + if o.used then 1 else 0
    decreases |objects|
  {
    if i > 0 {
      ObjectSet(objects[1..], i - 1, o, pid);
      assert objects[i := o][1..] == objects[1..][i - 1 := o];
    } else {
      assert objects[i := o][1..] == objects[1..];
    }
  }

  lemma {:induction false} OwnsNone(objects: seq<Obj>, pid: nat)
    requires forall i :: 0 <= i < |objects| && objects[i].used ==> objects[i].owner != pid
    ensures Owned(objects, pid) == 0
    decreases |objects|
  {
    if objects != [] { OwnsNone(objects[1..], pid); }
  }

  lemma SetAccounted(t: Tab, i: nat, o: Obj)
    requires i < |t.objects|
    ensures forall pid :: Owned(t.objects[i := o], pid) ==
              Owned(t.objects, pid) - (if t.objects[i].used && t.objects[i].owner == pid then 1 else 0)
              + if o.used && o.owner == pid then 1 else 0
    ensures InUse(t.objects[i := o]) ==
              InUse(t.objects) - (if t.objects[i].used then 1 else 0) + if o.used then 1 else 0
    ensures t.objects[i].used ==> Owned(t.objects, t.objects[i].owner) > 0 && InUse(t.objects) > 0
  {
    forall pid ensures Owned(t.objects[i := o], pid) ==
                       Owned(t.objects, pid) - (if t.objects[i].used && t.objects[i].owner == pid then 1 else 0)
                       + if o.used && o.owner == pid then 1 else 0 {
      ObjectSet(t.objects, i, o, pid);
    }
    ObjectSet(t.objects, i, o, t.objects[i].owner);
    ObjectSet(t.objects, i, Cleared(0), t.objects[i].owner);
  }

  lemma CreateAccounted(t: Tab, kind: Kind, owner: nat, initial: int)
    requires Accounted(t)
    ensures Accounted(CreateObject(t, kind, owner, initial).1)
  {
    hide Owned, InUse;
    var i := FirstFree(t.objects, 0);
    if i < |t.objects| {
      SetAccounted(t, i, Opened(NextGeneration(t.objects[i].generation), kind, owner, initial));
    }
  }

  lemma CloseAccounted(t: Tab, pid: nat, handle: int)
    requires Accounted(t) && |t.objects| < MISSING
    ensures Accounted(CloseObject(t, pid, handle).1)
  {
    hide Owned, InUse;
    var i := Lookup(t.objects, handle);
    if i != MISSING { SetAccounted(t, i, Cleared(t.objects[i].generation)); }
  }

  /** The counts, but for those of one process. */
  ghost predicate AccountedBut(t: Tab, pid: nat) {
    && t.live == InUse(t.objects)
    && (forall i :: 0 <= i < |t.objects| && t.objects[i].used ==> t.objects[i].owner in t.counts)
    && (forall other :: other in t.counts && other != pid ==> t.counts[other] == Owned(t.objects, other))
  }

  lemma {:induction false} ReleaseAll(t: Tab, pid: nat, i: nat)
    requires i <= |t.objects| && AccountedBut(t, pid)
    requires forall k :: 0 <= k < i && t.objects[k].used ==> t.objects[k].owner != pid
    ensures var r := ReleaseFrom(t, pid, i);
            && AccountedBut(r, pid) && r.counts == t.counts
            && forall k :: 0 <= k < |r.objects| && r.objects[k].used ==> r.objects[k].owner != pid
    decreases |t.objects| - i
  {
    hide Owned, InUse;
    if i < |t.objects| {
      SetAccounted(t, i, Cleared(t.objects[i].generation));
      ReleaseAll(if t.objects[i].used && t.objects[i].owner == pid then Clear(t, i) else t, pid, i + 1);
    }
  }

  lemma ReleaseAccounted(t: Tab, pid: nat, reaped: bool)
    requires Accounted(t)
    ensures var r := Release(t, pid, reaped);
            Accounted(r) && forall k :: 0 <= k < |r.objects| && r.objects[k].used ==> r.objects[k].owner != pid
  {
    hide Owned, InUse, ReleaseFrom;
    ReleaseAll(t, pid, 0);
    OwnsNone(ReleaseFrom(t, pid, 0).objects, pid);
  }

  lemma EnrollAccounted(t: Tab, pid: nat)
    requires Accounted(t)
    ensures Accounted(Enroll(t, pid))
  {
    hide Owned, InUse;
    if pid !in t.counts { OwnsNone(t.objects, pid); }
  }

  /** A call on one object, of whatever kind. */
  function Touch(t: Tab, i: nat, e: Effect): Tab
    requires i < |t.objects|
  {
    t.(objects := t.objects[i := e.obj], wakes := t.wakes + e.wakes)
  }

  lemma TouchAccounted(t: Tab, i: nat, e: Effect)
    requires Accounted(t) && i < |t.objects| && SameIdentity(t.objects[i], e.obj)
    ensures Accounted(Touch(t, i, e))
  {
    hide Owned, InUse;
    SetAccounted(t, i, e.obj);
  }

  // ---------- whole runs over the table ----------

  datatype Deed =
    | Creating(kind: Kind, owner: nat, initial: int)
    | Closing(pid: nat, handle: int)
    | Calling(handle: int, call: Call)
    | TimingOut(i: nat, now: nat)
    | Dying(pid: nat, reaped: bool)
    | Spawning(pid: nat)

  function Do(t: Tab, d: Deed): (r: Tab)
    requires AllValid(t.objects)
    ensures AllValid(r.objects)
  {
    match d
    case Creating(kind, owner, initial) => CreateObject(t, kind, owner, initial).1
    case Closing(pid, handle) => CloseObject(t, pid, handle).1
    case Calling(handle, call) =>
      var i := Lookup(t.objects, handle);
      if i == MISSING then t else Touch(t, i, Perform(t.objects[i], call))
    case TimingOut(i, now) => if i < |t.objects| then Touch(t, i, TimeOut(t.objects[i], now)) else t
    case Dying(pid, reaped) => Release(t, pid, reaped)
    case Spawning(pid) => Enroll(t, pid)
  }

  function DoAll(t: Tab, deeds: seq<Deed>): (r: Tab)
    requires AllValid(t.objects)
    decreases |deeds|
  {
    if deeds == [] then t else DoAll(Do(t, deeds[0]), deeds[1..])
  }

  lemma DoAccounted(t: Tab, d: Deed)
    requires AllValid(t.objects) && Accounted(t)
    ensures Accounted(Do(t, d))
  {
    hide Accounted, CreateObject, CloseObject, Release, Enroll, Touch, Perform, TimeOut;
    match d
    case Creating(kind, owner, initial) => CreateAccounted(t, kind, owner, initial);
    case Closing(pid, handle) => CloseAccounted(t, pid, handle);
    case Calling(handle, call) =>
      var i := Lookup(t.objects, handle);
      if i != MISSING { TouchAccounted(t, i, Perform(t.objects[i], call)); }
    case TimingOut(i, now) => if i < |t.objects| { TouchAccounted(t, i, TimeOut(t.objects[i], now)); }
    case Dying(pid, reaped) => ReleaseAccounted(t, pid, reaped);
    case Spawning(pid) => EnrollAccounted(t, pid);
  }

  /** Over any run of calls, kills and reaps every process's count is the number of objects it owns, and no object
      outlives its owner. */
  lemma {:induction false} ObjectsAccounted(t: Tab, deeds: seq<Deed>)
    requires AllValid(t.objects) && Accounted(t)
    ensures Accounted(DoAll(t, deeds))
    decreases |deeds|
  {
    hide Accounted, Do;
    if deeds != [] {
      DoAccounted(t, deeds[0]);
      ObjectsAccounted(Do(t, deeds[0]), deeds[1..]);
    }
  }

  class Table {
    const objects: array<Obj>
    var wakes: seq<Wake>
    var counts: map<nat, nat>
    var live: nat

    ghost predicate Valid()
      reads objects
    {
      objects.Length < MISSING && forall i :: 0 <= i < objects.Length ==> objects[i].Valid()
    }

    ghost function Abstract(): Tab
      reads this, objects
    {
      Tab(objects[..], wakes, counts, live)
    }

    constructor (size: nat)
      requires size < MISSING
      ensures Valid() && fresh(objects) && objects.Length == size
      ensures Abstract() == Tab(seq(size, _ => Cleared(0)), [], map[1 := 0, 2 := 0], 0) && Accounted(Abstract())
    {
      objects := new Obj[size](_ => Cleared(0));
      wakes, counts, live := [], map[1 := 0, 2 := 0], 0;
      new;
      assert objects[..] == seq(size, _ => Cleared(0));
      EmptyTable(objects[..]);
    }

    static lemma {:induction false} EmptyTable(objects: seq<Obj>)
      requires forall i :: 0 <= i < |objects| ==> !objects[i].used
      ensures InUse(objects) == 0 && forall pid :: Owned(objects, pid) == 0
      decreases |objects|
    {
      if objects != [] { EmptyTable(objects[1..]); }
    }

    /** The waiting call of object i returns. */
    method WakeWaiter(i: nat, result: int, value: Option<byte>)
      requires Valid() && i < objects.Length
      modifies this`wakes, objects
      ensures Valid() && objects[..] == old(objects[..])[i := ClearWaiter(old(objects[i]))]
      ensures wakes == old(wakes) + Woken(old(objects[i]), result, value)
    {
      var o := objects[i];
      objects[i] := ClearWaiter(o);
      wakes := wakes + [Wake(o.waitTask, o.waitPid, result, value)];
    }

    method Create(kind: Kind, owner: nat, initial: int) returns (r: int)
      requires Valid()
      modifies this`counts, this`live, objects
      ensures Valid() && (r, Abstract()) == CreateObject(old(Abstract()), kind, owner, initial)
    {
      if owner !in counts { return -22; }
      var i := 0;
      while i < objects.Length
        invariant i <= objects.Length && unchanged(this, objects)
        invariant FirstFree(objects[..], 0) == FirstFree(objects[..], i)
      {
        if !objects[i].used {
          var g := (objects[i].generation + 1) % 0x1_0000;
          if g == 0 { g := 1; }
          objects[i] := Opened(g, kind, owner, initial);
          counts := counts[owner := counts[owner] + 1];
          live := live + 1;
          return Handle(i, g);
        }
        i := i + 1;
      }
      return -12;
    }

    method ClearObject(i: nat)
      requires Valid() && i < objects.Length
      modifies this`wakes, this`live, objects
      ensures Valid() && Abstract() == Clear(old(Abstract()), i)
    {
      if objects[i].wait != NoWait { WakeWaiter(i, -125, None); }
      objects[i] := Cleared(objects[i].generation);
      if live > 0 { live := live - 1; }
    }

    method Close(pid: nat, handle: int) returns (r: int)
      requires Valid()
      modifies this, objects
      ensures Valid() && (r, Abstract()) == CloseObject(old(Abstract()), pid, handle)
    {
      hide Lookup;
      var i := Lookup(objects[..], handle);
      if i == MISSING { return -9; }
      if objects[i].owner != pid { return -13; }
      ClearObject(i);
      if pid in counts {
        assert counts[pid] == 0 ==> counts[pid := 0] == counts;
        if counts[pid] > 0 { counts := counts[pid := counts[pid] - 1]; }
      }
      return 0;
    }

    /** What is done for a process that is killed or reaped. */
    method ReleaseOwned(pid: nat, reaped: bool)
      requires Valid()
      modifies this, objects
      ensures Valid() && Abstract() == Release(old(Abstract()), pid, reaped)
    {
      hide Clear;
      var i := 0;
      while i < objects.Length
        invariant i <= objects.Length && Valid() && counts == old(counts)
        invariant ReleaseFrom(Abstract(), pid, i) == ReleaseFrom(old(Abstract()), pid, 0)
      {
        if objects[i].used && objects[i].owner == pid { ClearObject(i); }
        i := i + 1;
      }
      if reaped {
        counts := counts - {pid};
      } else if pid in counts {
        counts := counts[pid := 0];
      }
    }

    method IpcSend(handle: int, v: byte) returns (r: int)
      requires Valid()
      modifies this`wakes, objects
      ensures Valid()
      ensures var i := Lookup(old(objects[..]), handle);
              if i == MISSING then r == -9 && objects[..] == old(objects[..]) && wakes == old(wakes)
              else var e := Send(old(objects[i]), v);
              r == e.result && Did(old(objects[..]), old(wakes), objects[..], wakes, i, e)
    {
      var i := Lookup(objects[..], handle);
      if i == MISSING { return -9; }
      if objects[i].kind == Event {
        if objects[i].wait == Receiving { WakeWaiter(i, 1, Some(1)); } else { objects[i] := objects[i].(value := 1); }
        return 1;
      }
      if objects[i].kind != Queue && objects[i].kind != Pipe { return -9; }
      if objects[i].wait == Receiving {
        WakeWaiter(i, 1, Some(v));
        return 1;
      }
      if objects[i].count >= CAPACITY { return -11; }
      var o := objects[i];
      o := o.(data := o.data[o.tail := v]);
      o := o.(tail := (o.tail + 1) % CAPACITY);
      objects[i] := o.(count := o.count + 1);
      return 1;
    }

    method IpcReceive(handle: int, timeout: nat) returns (r: int, output: Option<byte>)
      requires Valid()
      modifies this`wakes, objects
      ensures Valid()
      ensures var i := Lookup(old(objects[..]), handle);
              if i == MISSING then r == -9 && output == None && objects[..] == old(objects[..]) && wakes == old(wakes)
              else var e := Receive(old(objects[i]), timeout);
              r == e.result && output == e.output && Did(old(objects[..]), old(wakes), objects[..], wakes, i, e)
    {
      hide Lookup, Leave;
      output := None;
      var i := Lookup(objects[..], handle);
      if i == MISSING { return -9, None; }
      var empty := if timeout != 0 then -110 else -11;
      if objects[i].kind == Event {
        if objects[i].value <= 0 { return empty, None; }
        objects[i] := objects[i].(value := 0);
        return 1, Some(1);
      }
      if objects[i].kind != Queue && objects[i].kind != Pipe { return -9, None; }
      if objects[i].count == 0 { return empty, None; }
      var v := TakeByte(i);
      return 1, Some(v);
    }

    method TakeByte(i: nat) returns (v: byte)
      requires Valid() && i < objects.Length && objects[i].count > 0
      modifies objects
      ensures Valid() && objects[..] == old(objects[..])[i := Leave(old(objects[i]))]
      ensures v == old(objects[i].data[objects[i].head])
    {
      var o := objects[i];
      v := o.data[o.head];
      objects[i] := o.(head := (o.head + 1) % CAPACITY, count := o.count - 1);
      assert objects[i] == Leave(o);
    }

    /** Registers the running task as the one waiter of object i. */
    method Register(i: nat, wait: Wait, task: nat, pid: nat, now: nat, timeout: nat) returns (r: int)
      requires Valid() && i < objects.Length
      modifies objects
      ensures Valid()
      ensures if old(objects[i].wait) != NoWait then r == -16 && objects[..] == old(objects[..])
              else r == PENDING && objects[..] == old(objects[..])[i := Blocked(old(objects[i]), wait, task, pid, now,
                  timeout)]
    {
      if objects[i].wait != NoWait { return -16; }
      objects[i] := objects[i].(wait := wait, waitTask := task, waitPid := pid,
                                deadline := (now + timeout) % 0x1_0000_0000);
      return PENDING;
    }

    method IpcReceiveWait(handle: int, task: nat, pid: nat, now: nat, timeout: nat)
      returns (r: int, output: Option<byte>)
      requires Valid()
      modifies this`wakes, objects
      ensures Valid()
      ensures var i := Lookup(old(objects[..]), handle);
              if i == MISSING then r == -9 && output == None && objects[..] == old(objects[..]) && wakes == old(wakes)
              else var e := ReceiveWait(old(objects[i]), task, pid, now, timeout);
              r == e.result && output == e.output && Did(old(objects[..]), old(wakes), objects[..], wakes, i, e)
    {
      r, output := IpcReceive(handle, 0);
      if r != -11 || timeout == 0 { return; }
      var i := Lookup(objects[..], handle);
      r := Register(i, Receiving, task, pid, now, timeout);
    }

    method SemaphoreWait(handle: int, timeout: nat) returns (r: int)
      requires Valid()
      modifies this`wakes, objects
      ensures Valid()
      ensures var i := Lookup(old(objects[..]), handle);
              if i == MISSING then r == -9 && objects[..] == old(objects[..]) && wakes == old(wakes)
              else var e := SemWait(old(objects[i]), timeout);
              r == e.result && Did(old(objects[..]), old(wakes), objects[..], wakes, i, e)
    {
      var i := Lookup(objects[..], handle);
      if i == MISSING || objects[i].kind != Sem { return -9; }
      if objects[i].value <= 0 { return if timeout != 0 then -110 else -11; }
      objects[i] := objects[i].(value := objects[i].value - 1);
      return 0;
    }

    method SemaphoreWaitBlocking(handle: int, task: nat, pid: nat, now: nat, timeout: nat) returns (r: int)
      requires Valid()
      modifies this`wakes, objects
      ensures Valid()
      ensures var i := Lookup(old(objects[..]), handle);
              if i == MISSING then r == -9 && objects[..] == old(objects[..]) && wakes == old(wakes)
              else var e := SemWaitBlocking(old(objects[i]), task, pid, now, timeout);
              r == e.result && Did(old(objects[..]), old(wakes), objects[..], wakes, i, e)
    {
      r := SemaphoreWait(handle, 0);
      if r != -11 || timeout == 0 { return; }
      var i := Lookup(objects[..], handle);
      r := Register(i, Semaphore, task, pid, now, timeout);
    }

    method SemaphorePost(handle: int) returns (r: int)
      requires Valid()
      modifies this`wakes, objects
      ensures Valid()
      ensures var i := Lookup(old(objects[..]), handle);
              if i == MISSING then r == -9 && objects[..] == old(objects[..]) && wakes == old(wakes)
              else var e := SemPost(old(objects[i]));
              r == e.result && Did(old(objects[..]), old(wakes), objects[..], wakes, i, e)
    {
      var i := Lookup(objects[..], handle);
      if i == MISSING || objects[i].kind != Sem { return -9; }
      if objects[i].wait == Semaphore { WakeWaiter(i, 0, None); }
           else { objects[i] := objects[i].(value := objects[i].value + 1); }
      return 0;
    }

    method Lock(pid: nat, handle: int, timeout: nat) returns (r: int)
      requires Valid()
      modifies this`wakes, objects
      ensures Valid()
      ensures var i := Lookup(old(objects[..]), handle);
              if i == MISSING then r == -9 && objects[..] == old(objects[..]) && wakes == old(wakes)
              else var e := MutexLock(old(objects[i]), pid, timeout);
              r == e.result && Did(old(objects[..]), old(wakes), objects[..], wakes, i, e)
    {
      var i := Lookup(objects[..], handle);
      if i == MISSING || objects[i].kind != Mutex { return -9; }
      if objects[i].lockOwner != 0 && objects[i].lockOwner != pid { return if timeout != 0 then -110 else -16; }
      objects[i] := objects[i].(lockOwner := pid);
      return 0;
    }

    method LockBlocking(pid: nat, handle: int, task: nat, now: nat, timeout: nat) returns (r: int)
      requires Valid()
      modifies this`wakes, objects
      ensures Valid()
      ensures var i := Lookup(old(objects[..]), handle);
              if i == MISSING then r == -9 && objects[..] == old(objects[..]) && wakes == old(wakes)
              else var e := MutexLockBlocking(old(objects[i]), task, pid, now, timeout);
              r == e.result && Did(old(objects[..]), old(wakes), objects[..], wakes, i, e)
    {
      r := Lock(pid, handle, 0);
      if r != -16 || timeout == 0 { return; }
      var i := Lookup(objects[..], handle);
      r := Register(i, Locking, task, pid, now, timeout);
    }

    method Unlock(pid: nat, handle: int) returns (r: int)
      requires Valid()
      modifies this`wakes, objects
      ensures Valid()
      ensures var i := Lookup(old(objects[..]), handle);
              if i == MISSING then r == -9 && objects[..] == old(objects[..]) && wakes == old(wakes)
              else var e := MutexUnlock(old(objects[i]), pid);
              r == e.result && Did(old(objects[..]), old(wakes), objects[..], wakes, i, e)
    {
      var i := Lookup(objects[..], handle);
      if i == MISSING || objects[i].kind != Mutex { return -9; }
      if objects[i].lockOwner != pid { return -13; }
      if objects[i].wait == Locking {
        objects[i] := objects[i].(lockOwner := objects[i].waitPid);
        WakeWaiter(i, 0, None);
      } else {
        objects[i] := objects[i].(lockOwner := 0);
      }
      return 0;
    }

    method TickOne(i: nat, now: nat)
      requires Valid() && i < objects.Length
      modifies this`wakes, objects
      ensures Valid() && objects[..] == old(objects[..])[i := TimeOut(old(objects[i]), now).obj]
      ensures wakes == old(wakes) + TimeOut(old(objects[i]), now).wakes
    {
      if objects[i].used && objects[i].wait != NoWait && Expired(now, objects[i].deadline) {
        WakeWaiter(i, -110, None);
      }
    }

    /** The tick: waiters whose time is up return with a timeout; nobody overdue is left, nobody else is
        touched. */
    method Tick(now: nat)
      requires Valid()
      modifies this`wakes, objects
      ensures Valid()
      ensures forall i :: 0 <= i < objects.Length ==> objects[i] == TimeOut(old(objects[i]), now).obj
      ensures forall i :: 0 <= i < objects.Length && objects[i].used && objects[i].wait != NoWait ==>
                !Expired(now, objects[i].deadline)
      ensures wakes == old(wakes) + TimedOut(old(objects[..]), now)
    {
      hide Expired, TimedOut;
      var i := 0;
      EmptyTick(old(objects[..]), now);
      while i < objects.Length
        invariant i <= objects.Length && Valid()
        invariant forall k :: 0 <= k < i ==> objects[k] == TimeOut(old(objects[k]), now).obj
        invariant forall k :: i <= k < objects.Length ==> objects[k] == old(objects[k])
        invariant wakes == old(wakes) + TimedOut(old(objects[..])[..i], now)
      {
        TimedOutStep(old(objects[..]), i, now);
        TickOne(i, now);
        i := i + 1;
      }
      assert old(objects[..])[..i] == old(objects[..]);
    }
  }

  /** The timeouts of a tick, in the order of the table. */
  function TimedOut(objects: seq<Obj>, now: nat): seq<Wake>
    requires forall i :: 0 <= i < |objects| ==> objects[i].Valid()
    decreases |objects|
  {
    if objects == [] then []
    else TimedOut(objects[..|objects| - 1], now) + TimeOut(objects[|objects| - 1], now).wakes
  }

  lemma EmptyTick(objects: seq<Obj>, now: nat)
    requires forall k :: 0 <= k < |objects| ==> objects[k].Valid()
    ensures TimedOut(objects[..0], now) == []
  {
  }

  lemma TimedOutStep(objects: seq<Obj>, i: nat, now: nat)
    requires (forall k :: 0 <= k < |objects| ==> objects[k].Valid()) && i < |objects|
    ensures TimedOut(objects[..i + 1], now) == TimedOut(objects[..i], now) + TimeOut(objects[i], now).wakes
  {
    assert objects[..i + 1][..i] == objects[..i];
  }

  /** The tasks of some wake-ups. */
  function Waiters(wakes: seq<Wake>): (r: seq<nat>)
    ensures |r| == |wakes| && forall k :: 0 <= k < |r| ==> r[k] == wakes[k].task
  {
    seq(|wakes|, k requires 0 <= k < |wakes| => wakes[k].task)
  }

  /** Task i waits for the object. */
  predicate Awaits(o: Obj, i: nat) { o.used && o.wait != NoWait && o.waitTask == i }

  /** Who times out was waiting. */
  lemma {:induction false} TimedOutWaited(objects: seq<Obj>, now: nat)
    requires forall i :: 0 <= i < |objects| ==> objects[i].Valid()
    ensures forall i :: i in Waiters(TimedOut(objects, now)) ==> exists k :: 0 <= k < |objects| && Awaits(objects[k], i)
    decreases |objects|
  {
    if objects != [] {
      var n := |objects| - 1;
      TimedOutWaited(objects[..n], now);
      forall i | i in Waiters(TimedOut(objects, now)) ensures exists k :: 0 <= k < |objects| && Awaits(objects[k], i) {
        if i in Waiters(TimedOut(objects[..n], now)) {
          var k :| 0 <= k < n && Awaits(objects[..n][k], i);
          assert Awaits(objects[k], i);
        } else {
          assert i in Waiters(TimeOut(objects[n], now).wakes);
          assert Awaits(objects[n], i);
        }
      }
    }
  }
}
