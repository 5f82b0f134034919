/** Kernel IPC objects: byte queues and pipes with direct hand-off to one waiting receiver, semaphores,
    mutexes and events, and handles that go stale when their object is closed. */
module Ipc {
  import opened Common

  const CAPACITY: nat := 128
  const PENDING: int := 0x7FFF_FFFE

  datatype Kind = Queue | Pipe | Sem | Mutex | Event

  datatype Wait = NoWait | Receiving | Semaphore | Locking

  /** A blocked call that has been completed: who waited, what the call returns, the byte it gets. */
  datatype Wake = Wake(task: nat, pid: nat, result: int, value: Option<byte>)

  datatype Obj = Obj(used: bool, kind: Kind, generation: nat, owner: nat, data: seq<byte>, head: nat, tail: nat,
                     count: nat,
                     value: int, lockOwner: nat, wait: Wait, waitTask: nat, waitPid: nat, deadline: nat) {
    predicate Valid() {
      |data| == CAPACITY && head < CAPACITY && count <= CAPACITY && tail == (head + count) % CAPACITY
    }

    /** The bytes buffered, oldest first. */
    function Ring(): (r: seq<byte>)
      requires Valid()
      ensures |r| == count
    {
      seq(count, k requires 0 <= k < count => data[(head + k) % CAPACITY])
    }
  }

  /** What a call returns, what it leaves, whom it wakes, and the byte it hands back. */
  datatype Effect = Effect(result: int, obj: Obj, wakes: seq<Wake>, output: Option<byte>)

  function Fails(o: Obj, error: int): Effect {
    Effect(error, o, [], None)
  }

  // ---------- the pieces ----------

  function ClearWaiter(o: Obj): Obj {
    o.(wait := NoWait, waitTask := 0xFF, waitPid := 0, deadline := 0)
  }

  function Woken(o: Obj, result: int, value: Option<byte>): seq<Wake> {
    [Wake(o.waitTask, o.waitPid, result, value)]
  }

  function Blocked(o: Obj, wait: Wait, task: nat, pid: nat, now: nat, timeout: nat): Obj {
    o.(wait := wait, waitTask := task, waitPid := pid, deadline := (now + timeout) % 0x1_0000_0000)
  }

  function Enter(o: Obj, v: byte): (r: Obj)
    requires o.Valid() && o.count < CAPACITY
    ensures r.Valid()
  {
    o.(data := o.data[o.tail := v], tail := (o.tail + 1) % CAPACITY, count := o.count + 1)
  }

  lemma Wrap(h: nat, n: nat)
    requires h < CAPACITY && 0 < n <= CAPACITY
    ensures ((h + 1) % CAPACITY + (n - 1)) % CAPACITY == (h + n) % CAPACITY
  {
    if h + 1 == CAPACITY {
      assert (h + n) % CAPACITY == (n - 1) % CAPACITY;
    }
  }

  function Leave(o: Obj): (r: Obj)
    requires o.Valid() && o.count > 0
    ensures r.Valid()
  {
    Wrap(o.head, o.count);
    o.(head := (o.head + 1) % CAPACITY, count := o.count - 1)
  }

  lemma EnterRing(o: Obj, v: byte)
    requires o.Valid() && o.count < CAPACITY
    ensures Enter(o, v).Ring() == o.Ring() + [v]
  {
    var r := Enter(o, v);
    forall k | 0 <= k < r.count ensures r.Ring()[k] == (o.Ring() + [v])[k] {
      if k < o.count {
        assert (o.head + k) % CAPACITY != o.tail;
      }
    }
  }

  lemma LeaveRing(o: Obj)
    requires o.Valid() && o.count > 0
    ensures o.Ring() == [o.data[o.head]] + Leave(o).Ring()
  {
    var r := Leave(o);
    assert o.head % CAPACITY == o.head;
    forall k | 0 <= k < r.count ensures r.Ring()[k] == o.Ring()[k + 1] {
      assert ((o.head + 1) % CAPACITY + k) % CAPACITY == (o.head + (k + 1)) % CAPACITY;
    }
    assert o.Ring()[0] == o.data[o.head];
  }

  predicate Streams(k: Kind) {
    k == Queue || k == Pipe
  }

  // ---------- the calls ----------

  /** Whether the object is in use, and whose it is, only creating and closing change. */
  predicate SameIdentity(o: Obj, after: Obj) {
    after.used == o.used && after.owner == o.owner && after.generation == o.generation && after.kind == o.kind
  }

  function Send(o: Obj, v: byte): (e: Effect)
    requires o.Valid()
    ensures e.obj.Valid() && SameIdentity(o, e.obj)
  {
    if o.kind == Event then
      if o.wait == Receiving then Effect(1, ClearWaiter(o), Woken(o, 1, Some(1)), None)
           else Effect(1, o.(value := 1), [], None)
    else if !Streams(o.kind) then Fails(o, -9)
    else if o.wait == Receiving then Effect(1, ClearWaiter(o), Woken(o, 1, Some(v)), None)
    else if o.count >= CAPACITY then Fails(o, -11)
    else Effect(1, Enter(o, v), [], None)
  }

  function Receive(o: Obj, timeout: nat): (e: Effect)
    requires o.Valid()
    ensures e.obj.Valid() && SameIdentity(o, e.obj)
  {
    var empty := if timeout != 0 then -110 else -11;
    if o.kind == Event then
      if o.value <= 0 then Fails(o, empty) else Effect(1, o.(value := 0), [], Some(1))
    else if !Streams(o.kind) then Fails(o, -9)
    else if o.count == 0 then Fails(o, empty)
    else Effect(1, Leave(o), [], Some(o.data[o.head]))
  }

  function ReceiveWait(o: Obj, task: nat, pid: nat, now: nat, timeout: nat): (e: Effect)
    requires o.Valid()
    ensures e.obj.Valid() && SameIdentity(o, e.obj)
  {
    var e := Receive(o, 0);
    if e.result != -11 || timeout == 0 then e
    else if o.wait != NoWait then Fails(o, -16)
    else Effect(PENDING, Blocked(o, Receiving, task, pid, now, timeout), [], None)
  }

  function SemWait(o: Obj, timeout: nat): (e: Effect)
    requires o.Valid()
    ensures e.obj.Valid() && SameIdentity(o, e.obj)
  {
    if o.kind != Sem then Fails(o, -9)
    else if o.value <= 0 then Fails(o, if timeout != 0 then -110 else -11)
    else Effect(0, o.(value := o.value - 1), [], None)
  }

  function SemWaitBlocking(o: Obj, task: nat, pid: nat, now: nat, timeout: nat): (e: Effect)
    requires o.Valid()
    ensures e.obj.Valid() && SameIdentity(o, e.obj)
  {
    var e := SemWait(o, 0);
    if e.result != -11 || timeout == 0 then e
    else if o.wait != NoWait then Fails(o, -16)
    else Effect(PENDING, Blocked(o, Semaphore, task, pid, now, timeout), [], None)
  }

  function SemPost(o: Obj): (e: Effect)
    requires o.Valid()
    ensures e.obj.Valid() && SameIdentity(o, e.obj)
  {
    if o.kind != Sem then Fails(o, -9)
    else if o.wait == Semaphore then Effect(0, ClearWaiter(o), Woken(o, 0, None), None)
    else Effect(0, o.(value := o.value + 1), [], None)
  }

  function MutexLock(o: Obj, pid: nat, timeout: nat): (e: Effect)
    requires o.Valid()
    ensures e.obj.Valid() && SameIdentity(o, e.obj)
  {
    if o.kind != Mutex then Fails(o, -9)
    else if o.lockOwner != 0 && o.lockOwner != pid then Fails(o, if timeout != 0 then -110 else -16)
    else Effect(0, o.(lockOwner := pid), [], None)
  }

  function MutexLockBlocking(o: Obj, task: nat, pid: nat, now: nat, timeout: nat): (e: Effect)
    requires o.Valid()
    ensures e.obj.Valid() && SameIdentity(o, e.obj)
  {
    var e := MutexLock(o, pid, 0);
    if e.result != -16 || timeout == 0 then e
    else if o.wait != NoWait then Fails(o, -16)
    else Effect(PENDING, Blocked(o, Locking, task, pid, now, timeout), [], None)
  }

  function MutexUnlock(o: Obj, pid: nat): (e: Effect)
    requires o.Valid()
    ensures e.obj.Valid() && SameIdentity(o, e.obj)
  {
    if o.kind != Mutex then Fails(o, -9)
    else if o.lockOwner != pid then Fails(o, -13)
    else if o.wait == Locking then Effect(0, ClearWaiter(o).(lockOwner := o.waitPid), Woken(o, 0, None), None)
    else Effect(0, o.(lockOwner := 0), [], None)
  }

  /** The deadline has come, in 32-bit tick arithmetic. */
  predicate Expired(now: nat, deadline: nat) {
    (now - deadline) % 0x1_0000_0000 < 0x8000_0000
  }

  function TimeOut(o: Obj, now: nat): (e: Effect)
    requires o.Valid()
    ensures e.obj.Valid() && SameIdentity(o, e.obj)
  {
    if o.used && o.wait != NoWait && Expired(now, o.deadline) then Effect(0, ClearWaiter(o), Woken(o, -110, None), None)
    else Effect(0, o, [], None)
  }

  // ---------- runs of one object ----------

  datatype Call =
    | SendCall(v: byte)
    | ReceiveCall(timeout: nat)
    | ReceiveWaitCall(task: nat, pid: nat, now: nat, timeout: nat)
    | SemWaitCall(timeout: nat)
    | SemWaitBlockingCall(task: nat, pid: nat, now: nat, timeout: nat)
    | SemPostCall
    | LockCall(pid: nat, timeout: nat)
    | LockBlockingCall(task: nat, pid: nat, now: nat, timeout: nat)
    | UnlockCall(pid: nat)
    | TickCall(now: nat)

  function Perform(o: Obj, c: Call): (e: Effect)
    requires o.Valid()
    ensures e.obj.Valid() && SameIdentity(o, e.obj)
  {
    match c
    case SendCall(v) => Send(o, v)
    case ReceiveCall(t) => Receive(o, t)
    case ReceiveWaitCall(task, pid, now, t) => ReceiveWait(o, task, pid, now, t)
    case SemWaitCall(t) => SemWait(o, t)
    case SemWaitBlockingCall(task, pid, now, t) => SemWaitBlocking(o, task, pid, now, t)
    case SemPostCall => SemPost(o)
    case LockCall(pid, t) => MutexLock(o, pid, t)
    case LockBlockingCall(task, pid, now, t) => MutexLockBlocking(o, task, pid, now, t)
    case UnlockCall(pid) => MutexUnlock(o, pid)
    case TickCall(now) => TimeOut(o, now)
  }

  /** A waiter waits for what its object offers, and only while that is not to be had. */
  predicate Sound(o: Obj) {
    && o.Valid()
    && (Streams(o.kind) ==> o.wait == NoWait || (o.wait == Receiving && o.count == 0))
    && (o.kind == Sem ==> o.wait == NoWait || (o.wait == Semaphore && o.value <= 0))
    && (o.kind == Mutex ==> o.wait == NoWait || (o.wait == Locking && o.lockOwner != 0 && o.lockOwner != o.waitPid))
    && (o.kind == Event ==> o.wait == NoWait || (o.wait == Receiving && o.value <= 0))
  }

  /** Processes have pids from 1 on; 0 in the lock word means free. */
  predicate RealPid(c: Call) {
    match c
    case LockCall(pid, _) => pid > 0
    case LockBlockingCall(_, pid, _, _) => pid > 0
    case UnlockCall(pid) => pid > 0
    case _ => true
  }

  lemma StaysSound(o: Obj, c: Call)
    requires Sound(o) && RealPid(c)
    requires o.kind == Mutex && c.UnlockCall? && o.wait == Locking ==> o.waitPid > 0
    ensures Sound(Perform(o, c).obj) && Perform(o, c).obj.kind == o.kind
  {
  }

  // ---------- streams ----------

  /** Bytes a call put into the stream: those of successful sends. */
  function Sent(o: Obj, c: Call): seq<byte>
    requires o.Valid()
  {
    if c.SendCall? && Send(o, c.v).result == 1 then [c.v] else []
  }

  function WokenBytes(w: seq<Wake>): seq<byte> {
    if w == [] then []
         else (if w[0].result == 1 && w[0].value.Some? then [w[0].value.value] else []) + WokenBytes(w[1..])
  }

  /** Bytes a call delivered: to its caller, or to the waiter it woke. */
  function Delivered(o: Obj, c: Call): seq<byte>
    requires o.Valid()
  {
    var e := Perform(o, c);
    WokenBytes(e.wakes) + if e.output.Some? then [e.output.value] else []
  }

  lemma NoBytes(o: Obj, result: int)
    ensures WokenBytes(Woken(o, result, None)) == [] && WokenBytes([]) == []
  {
    assert Woken(o, result, None)[1..] == [];
  }

  lemma OneByte(o: Obj, v: byte)
    ensures WokenBytes(Woken(o, 1, Some(v))) == [v]
  {
    assert Woken(o, 1, Some(v))[1..] == [];
  }

  lemma CallConserves(o: Obj, c: Call)
    requires Sound(o) && Streams(o.kind)
    ensures o.Ring() + Sent(o, c) == Delivered(o, c) + Perform(o, c).obj.Ring()
  {
    match c
    case SendCall(v) =>
      if o.wait == Receiving {
        OneByte(o, v);
        assert o.Ring() == [] && ClearWaiter(o).Ring() == [];
        assert Delivered(o, c) == [v];
      } else if o.count < CAPACITY {
        EnterRing(o, v);
      }
    case ReceiveCall(t) => if o.count > 0 { LeaveRing(o); }
    case ReceiveWaitCall(task, pid, now, t) =>
      if o.count > 0 { LeaveRing(o); }
      assert Blocked(o, Receiving, task, pid, now, t).Ring() == o.Ring();
    case TickCall(now) =>
      assert ClearWaiter(o).Ring() == o.Ring();
      NoBytes(o, -110);
      assert Delivered(o, c) == [];
    case _ =>
  }

  function SentAll(o: Obj, calls: seq<Call>): seq<byte>
    requires o.Valid()
    decreases |calls|
  {
    if calls == [] then [] else Sent(o, calls[0]) + SentAll(Perform(o, calls[0]).obj, calls[1..])
  }

  function DeliveredAll(o: Obj, calls: seq<Call>): seq<byte>
    requires o.Valid()
    decreases |calls|
  {
    if calls == [] then [] else Delivered(o, calls[0]) + DeliveredAll(Perform(o, calls[0]).obj, calls[1..])
  }

  function Run(o: Obj, calls: seq<Call>): (r: Obj)
    requires o.Valid()
    ensures r.Valid()
    decreases |calls|
  {
    if calls == [] then o else Run(Perform(o, calls[0]).obj, calls[1..])
  }

  /** Main result for queues and pipes: over any run, what was buffered followed by what was sent is what
      was delivered followed by what is buffered, in order; and a recorded receiver means an empty buffer. */
  lemma {:induction false} StreamConserved(o: Obj, calls: seq<Call>)
    requires Sound(o) && Streams(o.kind) && forall k :: 0 <= k < |calls| ==> RealPid(calls[k])
    ensures var r := Run(o, calls);
            && o.Ring() + SentAll(o, calls) == DeliveredAll(o, calls) + r.Ring()
            && (r.wait == Receiving ==> r.Ring() == [])
    decreases |calls|
  {
    hide Perform, Sent, Delivered;
    if calls != [] {
      var c := calls[0];
      var o1 := Perform(o, c).obj;
      StaysSound(o, c);
      CallConserves(o, c);
      assert forall k :: 0 <= k < |calls[1..]| ==> calls[1..][k] == calls[k + 1];
      StreamConserved(o1, calls[1..]);
      var r := Run(o, calls);
      Rejoin(o.Ring(), Sent(o, c), SentAll(o1, calls[1..]), Delivered(o, c), o1.Ring(), DeliveredAll(o1, calls[1..]),
             r.Ring());
    }
  }

  lemma Rejoin(ring: seq<byte>, sent: seq<byte>, later: seq<byte>, given: seq<byte>, ring1: seq<byte>,
               given1: seq<byte>, end: seq<byte>)
    requires ring + sent == given + ring1 && ring1 + later == given1 + end
    ensures ring + (sent + later) == (given + given1) + end
  {
    assert ring + (sent + later) == (ring + sent) + later;
    assert (given + ring1) + later == given + (ring1 + later);
    assert given + (given1 + end) == (given + given1) + end;
  }

  // ---------- semaphores ----------

  /** Waits that completed: the call's own, or that of the waiter it woke with success. */
  function Completed(e: Effect, own: bool): nat {
    (if own && e.result == 0 then 1 else 0) + (if e.wakes != [] && e.wakes[0].result == 0 then 1 else 0)
  }

  function Waits(o: Obj, calls: seq<Call>): nat
    requires o.Valid()
    decreases |calls|
  {
    if calls == [] then 0
    else
      var e := Perform(o, calls[0]);
      Completed(e, calls[0].SemWaitCall? || calls[0].SemWaitBlockingCall?) + Waits(e.obj, calls[1..])
  }

  function Posts(calls: seq<Call>): nat {
    if calls == [] then 0 else (if calls[0].SemPostCall? then 1 else 0) + Posts(calls[1..])
  }

  /** Main result for semaphores: initial value plus posts is value plus completed waits; the value stays
      non-negative, and nobody waits while it is positive. */
  lemma {:induction false} SemaphoreCounts(o: Obj, calls: seq<Call>)
    requires Sound(o) && o.kind == Sem && forall k :: 0 <= k < |calls| ==> RealPid(calls[k])
    ensures var r := Run(o, calls);
            && o.value + Posts(calls) == r.value + Waits(o, calls)
            && (o.value >= 0 ==> r.value >= 0) && (r.wait == Semaphore ==> r.value <= 0)
    decreases |calls|
  {
    if calls != [] {
      StaysSound(o, calls[0]);
      assert forall k :: 0 <= k < |calls[1..]| ==> calls[1..][k] == calls[k + 1];
      SemaphoreCounts(Perform(o, calls[0]).obj, calls[1..]);
    }
  }

  // ---------- mutexes ----------

  /** The process that a call's success makes the holder, seen from outside: the caller of a lock that
      returns 0, or the waiter woken with 0; nobody after an unlock without a waiter. */
  function Holder(o: Obj, c: Call, before: nat): nat
    requires o.Valid()
  {
    var e := Perform(o, c);
    if e.wakes != [] && e.wakes[0].result == 0 then e.wakes[0].pid
    else if e.result == 0 && c.LockCall? then c.pid
    else if e.result == 0 && c.LockBlockingCall? then c.pid
    else if e.result == 0 && c.UnlockCall? then 0
    else before
  }

  /** While p holds the mutex, only p's own calls complete a lock, and only p's unlock ends that. */
  ghost predicate Exclusive(o: Obj, calls: seq<Call>, holder: nat)
    requires o.Valid()
    decreases |calls|
  {
    calls != [] ==>
      var c := calls[0];
      var next := Holder(o, c, holder);
      && (holder != 0 && next != holder ==> c.UnlockCall? && c.pid == holder)
      && (holder != 0 && c.LockCall? && Perform(o, c).result == 0 ==> c.pid == holder)
      && (holder != 0 && c.LockBlockingCall? && Perform(o, c).result == 0 ==> c.pid == holder)
      && (c.UnlockCall? && Perform(o, c).result == 0 ==> c.pid == holder)
      && Exclusive(Perform(o, c).obj, calls[1..], next)
  }

  predicate WaiterReal(o: Obj) {
    o.wait == Locking ==> o.waitPid > 0
  }

  /** Main result for mutexes: mutual exclusion along every run, the hand-off to a waiter included. */
  lemma {:induction false} MutualExclusion(o: Obj, calls: seq<Call>)
    requires Sound(o) && WaiterReal(o) && o.kind == Mutex && forall k :: 0 <= k < |calls| ==> RealPid(calls[k])
    ensures Exclusive(o, calls, o.lockOwner)
    decreases |calls|
  {
    if calls != [] {
      var c := calls[0];
      StaysSound(o, c);
      assert forall k :: 0 <= k < |calls[1..]| ==> calls[1..][k] == calls[k + 1];
      assert RealPid(c);
      assert WaiterReal(Perform(o, c).obj) && Holder(o, c, o.lockOwner) == Perform(o, c).obj.lockOwner;
      MutualExclusion(Perform(o, c).obj, calls[1..]);
    }
  }
}
