/** When an IPC call succeeds, and what its answer is otherwise, said by what the object holds. */
module IpcLaws {
  import opened Common
  import opened Ipc
  import opened IpcTable

  // ---------- queues and pipes ----------

  /** A send succeeds exactly while a receiver waits or fewer than 128 bytes are in the ring; the byte goes to the
      receiver or to the end of the ring. A full object refuses it with -11 and stays as it is. */
  lemma SendExactly(o: Obj, v: byte)
    requires Sound(o) && (o.kind == Queue || o.kind == Pipe)
    ensures var e := Send(o, v);
            && (e.result == 1 <==> o.wait == Receiving || |o.Ring()| < 128)
            && (e.result != 1 ==> e == Effect(-11, o, [], None))
            && (o.wait == Receiving ==>
                  && e.wakes == [Wake(o.waitTask, o.waitPid, 1, Some(v))] && e.obj.wait == NoWait
                  && e.obj.Ring() == o.Ring() == [])
            && (e.result == 1 && o.wait == NoWait ==>
                  e.wakes == [] && e.obj.Ring() == o.Ring() + [v] && e.obj.wait == NoWait)
  {
    if o.wait == NoWait && o.count < CAPACITY { EnterRing(o, v); }
  }

  /** A receive succeeds exactly while the ring holds a byte, and takes the oldest. Otherwise it returns -11, or
      -110 if it came with a timeout, and changes nothing. */
  lemma ReceiveExactly(o: Obj, timeout: nat)
    requires o.Valid() && (o.kind == Queue || o.kind == Pipe)
    ensures var e := Receive(o, timeout);
            && (e.result == 1 <==> o.Ring() != [])
            && (o.Ring() != [] ==>
                  && e.output == Some(o.Ring()[0]) && e.obj.Ring() == o.Ring()[1..] && e.wakes == []
                  && e.obj.wait == o.wait)
            && (o.Ring() == [] ==> e == Effect(if timeout == 0 then -11 else -110, o, [], None))
  {
    if o.count > 0 { LeaveRing(o); }
  }

  /** A blocking receive takes a byte if there is one. If not, it blocks exactly when it may wait and nobody else does,
      with its deadline in 32-bit ticks. */
  lemma ReceiveWaitExactly(o: Obj, task: nat, pid: nat, now: nat, timeout: nat)
    requires o.Valid() && (o.kind == Queue || o.kind == Pipe)
    ensures var e := ReceiveWait(o, task, pid, now, timeout);
            if o.Ring() != [] then e == Receive(o, 0)
            else if timeout == 0 then e == Effect(-11, o, [], None)
            else if o.wait != NoWait then e == Effect(-16, o, [], None)
            else e.result == PENDING && e.wakes == [] && e.output == None
                 && e.obj == o.(wait := Receiving, waitTask := task, waitPid := pid,
                                deadline := (now + timeout) % 0x1_0000_0000)
  {
    ReceiveExactly(o, 0);
  }

  /** The results of sending some bytes in order, and what is left. */
  function Sends(o: Obj, bytes: seq<byte>): (r: (seq<int>, Obj))
    requires o.Valid()
    ensures r.1.Valid()
    decreases |bytes|
  {
    if bytes == [] then ([], o)
    else
      var e := Send(o, bytes[0]);
      var rest := Sends(e.obj, bytes[1..]);
      ([e.result] + rest.0, rest.1)
  }

  /** The results of n receives, their bytes, and what is left. */
  function Receives(o: Obj, n: nat): (r: (seq<int>, seq<byte>, Obj))
    requires o.Valid()
    ensures r.2.Valid()
    decreases n
  {
    if n == 0 then ([], [], o)
    else
      var e := Receive(o, 0);
      var rest := Receives(e.obj, n - 1);
      ([e.result] + rest.0, (if e.output.Some? then [e.output.value] else []) + rest.1, rest.2)
  }

  function Ones(n: nat): (r: seq<int>)
    ensures |r| == n
  {
    seq(n, _ => 1)
  }

  lemma {:induction false} SendsFit(o: Obj, bytes: seq<byte>)
    requires Sound(o) && (o.kind == Queue || o.kind == Pipe) && o.wait == NoWait && |o.Ring()| + |bytes| <= 128
    ensures var (results, t) := Sends(o, bytes);
            results == Ones(|bytes|) && t.Ring() == o.Ring() + bytes && t.wait == NoWait && t.kind == o.kind && Sound(t)
    decreases |bytes|
  {
    hide Send;
    if bytes != [] {
      SendExactly(o, bytes[0]);
      SendsFit(Send(o, bytes[0]).obj, bytes[1..]);
      assert o.Ring() + [bytes[0]] + bytes[1..] == o.Ring() + bytes;
    } else {
      assert o.Ring() + bytes == o.Ring();
    }
  }

  lemma {:induction false} ReceivesInOrder(o: Obj, n: nat)
    requires o.Valid() && (o.kind == Queue || o.kind == Pipe) && n <= |o.Ring()|
    ensures var (results, bytes, t) := Receives(o, n);
            results == Ones(n) && bytes == o.Ring()[..n] && t.Ring() == o.Ring()[n..]
    decreases n
  {
    hide Receive;
    if n > 0 {
      ReceiveExactly(o, 0);
      ReceivesInOrder(Receive(o, 0).obj, n - 1);
      assert [o.Ring()[0]] + o.Ring()[1..][..n - 1] == o.Ring()[..n];
    }
  }

  /** Up to 128 bytes sent to an empty queue or pipe are all taken, and as many receives give them all back in
      order; the next send to 128 bytes is refused. */
  lemma QueueRoundTrip(o: Obj, bytes: seq<byte>)
    requires Sound(o) && (o.kind == Queue || o.kind == Pipe) && o.wait == NoWait && o.Ring() == [] && |bytes| <= 128
    ensures var (sent, full) := Sends(o, bytes);
            var (got, back, empty) := Receives(full, |bytes|);
            sent == Ones(|bytes|) == got && back == bytes && empty.Ring() == []
    ensures forall v :: |bytes| == 128 ==> Send(Sends(o, bytes).1, v).result == -11
  {
    SendsFit(o, bytes);
    var full := Sends(o, bytes).1;
    ReceivesInOrder(full, |bytes|);
    forall v | |bytes| == 128 ensures Send(full, v).result == -11 { SendExactly(full, v); }
  }

  // ---------- events ----------

  /** An event is set by a send, or handed to the receiver that waits; a receive finds it set once. */
  lemma EventExactly(o: Obj, v: byte, timeout: nat)
    requires Sound(o) && o.kind == Event
    ensures Send(o, v) == if o.wait == Receiving
              then Effect(1, ClearWaiter(o), [Wake(o.waitTask, o.waitPid, 1, Some(1))], None)
              else Effect(1, o.(value := 1), [], None)
    ensures Receive(o, timeout) == if o.value > 0 then Effect(1, o.(value := 0), [], Some(1))
              else Effect(if timeout == 0 then -11 else -110, o, [], None)
    ensures o.wait == NoWait ==> Receive(Send(o, v).obj, timeout).result == 1
                                 && Receive(Receive(Send(o, v).obj, timeout).obj, 0).result == -11
  {
  }

  // ---------- semaphores and mutexes ----------

  /** A wait succeeds exactly at a positive value and takes one; a post wakes the waiter or adds one. */
  lemma SemaphoreExactly(o: Obj, timeout: nat)
    requires Sound(o) && o.kind == Sem
    ensures SemWait(o, timeout) == if o.value > 0 then Effect(0, o.(value := o.value - 1), [], None)
              else Effect(if timeout == 0 then -11 else -110, o, [], None)
    ensures SemPost(o) == if o.wait == Semaphore
              then Effect(0, o.(wait := NoWait, waitTask := 0xFF, waitPid := 0, deadline := 0),
                          [Wake(o.waitTask, o.waitPid, 0, None)], None)
              else Effect(0, o.(value := o.value + 1), [], None)
    ensures o.wait == NoWait && o.value >= 0 ==> SemWait(SemPost(o).obj, 0) == Effect(0, o, [], None)
  {
  }

  lemma SemaphoreBlocksExactly(o: Obj, task: nat, pid: nat, now: nat, timeout: nat)
    requires Sound(o) && o.kind == Sem
    ensures SemWaitBlocking(o, task, pid, now, timeout) ==
              if o.value > 0 then Effect(0, o.(value := o.value - 1), [], None)
              else if timeout == 0 then Effect(-11, o, [], None)
              else if o.wait != NoWait then Effect(-16, o, [], None)
              else Effect(PENDING, o.(wait := Semaphore, waitTask := task, waitPid := pid,
                                      deadline := (now + timeout) % 0x1_0000_0000), [], None)
  {
  }

  /** A lock succeeds exactly when the mutex is free or the caller's own; only its holder unlocks it, and then the
      waiter holds it, or nobody. */
  lemma MutexExactly(o: Obj, pid: nat, timeout: nat)
    requires Sound(o) && o.kind == Mutex
    ensures MutexLock(o, pid, timeout) == if o.lockOwner == 0 || o.lockOwner == pid
              then Effect(0, o.(lockOwner := pid), [], None)
              else Effect(if timeout == 0 then -16 else -110, o, [], None)
    ensures MutexUnlock(o, pid) == if o.lockOwner != pid then Effect(-13, o, [], None)
              else if o.wait == Locking then Effect(0, ClearWaiter(o).(lockOwner := o.waitPid),
                                                    [Wake(o.waitTask, o.waitPid, 0, None)], None)
              else Effect(0, o.(lockOwner := 0), [], None)
    ensures o.lockOwner == 0 && o.wait == NoWait && pid > 0 ==>
              MutexUnlock(MutexLock(o, pid, timeout).obj, pid) == Effect(0, o, [], None)
  {
  }

  lemma MutexBlocksExactly(o: Obj, task: nat, pid: nat, now: nat, timeout: nat)
    requires Sound(o) && o.kind == Mutex
    ensures MutexLockBlocking(o, task, pid, now, timeout) ==
              if o.lockOwner == 0 || o.lockOwner == pid then Effect(0, o.(lockOwner := pid), [], None)
              else if timeout == 0 then Effect(-16, o, [], None)
              else if o.wait != NoWait then Effect(-16, o, [], None)
              else Effect(PENDING, o.(wait := Locking, waitTask := task, waitPid := pid,
                                      deadline := (now + timeout) % 0x1_0000_0000), [], None)
  {
  }

  // ---------- the wrong kind, and time ----------

  /** A call that the object's kind does not take is refused with -9 and changes nothing. */
  lemma WrongKind(o: Obj, c: Call)
    requires o.Valid()
    requires match c
             case SendCall(_) => o.kind == Sem || o.kind == Mutex
             case ReceiveCall(_) => o.kind == Sem || o.kind == Mutex
             case ReceiveWaitCall(_, _, _, _) => o.kind == Sem || o.kind == Mutex
             case SemWaitCall(_) => o.kind != Sem
             case SemWaitBlockingCall(_, _, _, _) => o.kind != Sem
             case SemPostCall => o.kind != Sem
             case LockCall(_, _) => o.kind != Mutex
             case LockBlockingCall(_, _, _, _) => o.kind != Mutex
             case UnlockCall(_) => o.kind != Mutex
             case TickCall(_) => false
    ensures Perform(o, c) == Effect(-9, o, [], None)
  {
  }

  /** A wait of less than 2^31 ticks times out at exactly its last tick: not before, and at every one from then on for
      2^31 ticks. */
  lemma TimesOutExactly(o: Obj, start: nat, timeout: nat, passed: nat)
    requires o.Valid() && o.used && o.wait != NoWait && o.deadline == (start + timeout) % 0x1_0000_0000
    requires 0 < timeout < 0x8000_0000 && passed < timeout + 0x8000_0000
    ensures TimeOut(o, start + passed) == if passed >= timeout
              then Effect(0, o.(wait := NoWait, waitTask := 0xFF, waitPid := 0, deadline := 0),
                          [Wake(o.waitTask, o.waitPid, -110, None)], None)
              else Effect(0, o, [], None)
  {
    LateBy(start + timeout, passed - timeout);
  }

  lemma LateBy(due: nat, late: int)
    requires -0x8000_0000 < late < 0x8000_0000
    ensures (due + late - due % 0x1_0000_0000) % 0x1_0000_0000 == if late >= 0 then late else late + 0x1_0000_0000
  {
    var k := due / 0x1_0000_0000;
    assert due - due % 0x1_0000_0000 == 0x1_0000_0000 * k;
    Shifted(late, k);
  }

  lemma Shifted(x: int, k: nat)
    requires -0x8000_0000 < x < 0x8000_0000
    ensures (x + 0x1_0000_0000 * k) % 0x1_0000_0000 == if x >= 0 then x else x + 0x1_0000_0000
  {
  }

  /** Without a waiter time does nothing. */
  lemma NobodyWaits(o: Obj, now: nat)
    requires o.Valid() && (!o.used || o.wait == NoWait)
    ensures TimeOut(o, now) == Effect(0, o, [], None)
  {
  }

  // ---------- handles, creating and closing ----------

  /** A handle names an entry exactly when that is in use and the handle's 32 bits are its generation over its index. */
  lemma LookupExactly(objects: seq<Obj>, handle: int, i: nat)
    requires |objects| < 255 && i < |objects| && objects[i].generation < 0x1_0000
    ensures Lookup(objects, handle) == i <==>
              objects[i].used && handle % 0x1_0000_0000 == 256 * objects[i].generation + i
  {
    var word := handle % 0x1_0000_0000;
    assert word == 256 * (word / 256) + word % 256;
    if word == 256 * objects[i].generation + i { Digits(objects[i].generation, i); }
  }

  lemma Digits(g: nat, i: nat)
    requires i < 256
    ensures (256 * g + i) / 256 == g && (256 * g + i) % 256 == i
  {
  }

  /** Creating fails with -22 for an unknown process, with -12 exactly when every entry is in use; otherwise the
      first free entry becomes an empty object of the caller's that nobody waits for, the handle leads to it, and
      the rest stays. */
  lemma CreateExactly(t: Tab, kind: Kind, owner: nat, initial: int)
    requires |t.objects| < 255 && forall k :: 0 <= k < |t.objects| ==> t.objects[k].generation < 0x1_0000
    ensures var (r, u) := CreateObject(t, kind, owner, initial);
            && (r == -22 <==> owner !in t.counts)
            && (r == -12 <==> owner in t.counts && forall k :: 0 <= k < |t.objects| ==> t.objects[k].used)
            && (r < 0 ==> u == t)
            && (r >= 0 ==>
                  var i := Lookup(u.objects, r);
                  && i < |t.objects| && !t.objects[i].used && (forall k :: 0 <= k < i ==> t.objects[k].used)
                  && u.objects == t.objects[i := u.objects[i]] && u.wakes == t.wakes
                  && var o := u.objects[i];
                     && o.used && o.kind == kind && o.owner == owner && o.value == initial && o.Valid()
                     && o.Ring() == [] && o.wait == NoWait && o.lockOwner == 0 && 0 < o.generation < 0x1_0000
                     && (o.generation == t.objects[i].generation + 1 || o.generation == 1))
  {
    var i := FirstFree(t.objects, 0);
    var (r, u) := CreateObject(t, kind, owner, initial);
    if owner in t.counts && i < |t.objects| {
      var g := NextGeneration(t.objects[i].generation);
      assert r == 256 * g + i && u.objects[i] == Opened(g, kind, owner, initial);
      LookupExactly(u.objects, r, i);
    }
  }

  /** Closing fails with -9 exactly for a handle that names nothing, with -13 exactly for somebody else's object;
      otherwise the entry is free, its waiter is told -125, the handle names nothing any more, and the rest stays. */
  lemma CloseExactly(t: Tab, pid: nat, handle: int)
    requires |t.objects| < 255
    ensures var (r, u) := CloseObject(t, pid, handle); var i := Lookup(t.objects, handle);
            && (r == -9 <==> i == 255) && (r == -13 <==> i < 255 && t.objects[i].owner != pid)
            && (r == 0 <==> i < 255 && t.objects[i].owner == pid) && (r != 0 ==> u == t)
            && (r == 0 ==>
                  && u.objects == t.objects[i := u.objects[i]] && !u.objects[i].used && Lookup(u.objects, handle) == 255
                  && u.objects[i].generation == t.objects[i].generation
                  && u.wakes == t.wakes + if t.objects[i].wait == NoWait then []
                       else [Wake(t.objects[i].waitTask, t.objects[i].waitPid, -125, None)])
  {
  }

  /** Killing or reaping a process frees exactly the entries it owns. */
  lemma {:induction false} ReleaseExactly(t: Tab, pid: nat, i: nat)
    requires i <= |t.objects|
    ensures var u := ReleaseFrom(t, pid, i);
            forall k :: 0 <= k < |t.objects| ==>
              u.objects[k] == if k >= i && t.objects[k].used && t.objects[k].owner == pid
                then Cleared(t.objects[k].generation) else t.objects[k]
    decreases |t.objects| - i
  {
    if i < |t.objects| {
      ReleaseExactly(if t.objects[i].used && t.objects[i].owner == pid then Clear(t, i) else t, pid, i + 1);
    }
  }
}
