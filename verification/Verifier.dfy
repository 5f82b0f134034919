/** The load-time bytecode verifier. `Acceptable` is the independent reference: what it means for an
    image to be well formed. Class-free method `BytecodeVerify` is the three-pass algorithm, proved to
    accept exactly the acceptable images. */
module Verifier {
  import opened Common
  import opened Hbc

  // ---------- reference definition ----------

  /** The bytes from `from` to the end are a sequence of complete instructions. */
  predicate Decodes(code: seq<byte>, from: nat)
    requires from <= |code|
    decreases |code| - from
  {
    from == |code| || (Decode(code, from).Fetched? && Decodes(code, Decode(code, from).next))
  }

  /** `at` is where an instruction starts when decoding proceeds linearly from `from`. */
  predicate Start(code: seq<byte>, from: nat, at: nat)
    requires from <= |code|
    ensures Start(code, from, at) ==> from <= at < |code| && Decode(code, at).Fetched?
    decreases |code| - from
  {
    && from < |code| && Decode(code, from).Fetched?
    && (at == from || Start(code, Decode(code, from).next, at))
  }

  predicate IsStart(code: seq<byte>, at: nat)
    ensures IsStart(code, at) ==> at < |code| && Decode(code, at).Fetched?
  {
    Start(code, 0, at)
  }

  function InstrAt(code: seq<byte>, at: nat): Instr
    requires IsStart(code, at)
  {
    Decode(code, at).instr
  }

  predicate HasTarget(i: Instr) {
    i.Call? || i.Jmp? || i.Jz?
  }

  predicate FallsThrough(i: Instr) {
    !i.Ret? && !i.Jmp? && !i.Halt?
  }

  /** Operand depth after the instruction, negative if it may not run at depth d. */
  function Effect(i: Instr, d: int): int {
    match i
    case PushI32(_) => d + 1
    case LoadLocal(_) => d + 1
    case Call(_) => d + 1
    case StoreLocal(_) => d - 1
    case Jz(_) => d - 1
    case PrintInt => d - 1
    case Pop => d - 1
    case Binary(_) => if d < 2 then -1 else d - 1
    case Ret => if d == 1 then 1 else -1
    case _ => d
  }

  ghost predicate TargetsAreStarts(code: seq<byte>) {
    forall at: nat :: IsStart(code, at) && HasTarget(InstrAt(code, at)) ==> IsStart(code, InstrAt(code, at).target)
  }

  /** The instruction at `at` agrees with the depths given to its successors. */
  predicate FlowOk(code: seq<byte>, depth: seq<int>, at: nat)
    requires |depth| == |code| && IsStart(code, at)
  {
    var Fetched(i, next) := Decode(code, at);
    var out := Effect(i, depth[at]);
    && 0 <= out <= STACK_SIZE
    && (i.Jmp? || i.Jz? ==> i.target < |code| && depth[i.target] == out)
    && (FallsThrough(i) && next < |code| ==> depth[next] == out)
  }

  /** A depth assignment (-1: unreached) with depth 0 at the entry and at every called address. */
  ghost predicate Consistent(code: seq<byte>, depth: seq<int>) {
    && 0 < |code| == |depth| && depth[0] == 0
    && (forall at :: 0 <= at < |code| ==> -1 <= depth[at] <= STACK_SIZE)
    && (forall at: nat :: IsStart(code, at) && InstrAt(code, at).Call? ==>
          InstrAt(code, at).target < |code| && depth[InstrAt(code, at).target] == 0)
    && (forall at: nat :: at < |code| && depth[at] >= 0 ==> IsStart(code, at) && FlowOk(code, depth, at))
  }

  ghost predicate Acceptable(code: seq<byte>) {
    && 0 < |code| <= MAX_CODE
    && Decodes(code, 0)
    && TargetsAreStarts(code)
    && exists depth :: Consistent(code, depth)
  }

  // ---------- the instruction-boundary bitmap ----------

  function Bit(k: nat): bv8
    requires k < 8
  {
    match k
    case 0 => 1 case 1 => 2 case 2 => 4 case 3 => 8
    case 4 => 16 case 5 => 32 case 6 => 64 case 7 => 128
  }

  lemma BitOr(b: bv8, j: nat, k: nat)
    requires j < 8 && k < 8
    ensures (b | Bit(k)) & Bit(j) != 0 <==> j == k || b & Bit(j) != 0
  {
    assert j != k ==> Bit(k) & Bit(j) == 0;
    OrAnd(b, Bit(k), Bit(j));
    assert Bit(j) & Bit(j) != 0;
  }

  lemma OrAnd(a: bv8, b: bv8, c: bv8)
    ensures (a | b) & c == (a & c) | (b & c)
  {
  }

  predicate Marked(boundary: seq<bv8>, at: nat)
    requires |boundary| == 32 && at < MAX_CODE
  {
    boundary[at / 8] & Bit(at % 8) != 0
  }

  method Mark(boundary: array<bv8>, at: nat)
    requires boundary.Length == 32 && at < MAX_CODE
    modifies boundary
    ensures forall k: nat :: k < MAX_CODE ==> (Marked(boundary[..], k) <==> k == at || Marked(old(boundary[..]), k))
  {
    boundary[at / 8] := boundary[at / 8] | Bit(at % 8);
    forall k: nat | k < MAX_CODE
      ensures Marked(boundary[..], k) <==> k == at || Marked(old(boundary[..]), k)
    {
      if k / 8 == at / 8 {
        BitOr(old(boundary[at / 8]), k % 8, at % 8);
      }
    }
  }

  // ---------- pass 1: linear decoding ----------

  method MarkBoundaries(code: seq<byte>, boundary: array<bv8>) returns (ok: bool)
    requires |code| <= MAX_CODE && boundary.Length == 32
    requires forall k: nat :: k < MAX_CODE ==> !Marked(boundary[..], k)
    modifies boundary
    ensures ok <==> Decodes(code, 0)
    ensures ok ==> forall k: nat :: k < MAX_CODE ==> (Marked(boundary[..], k) <==> IsStart(code, k))
  {
    var pc, size := 0, |code|;
    while pc < size
      invariant pc <= size
      invariant Decodes(code, 0) <==> Decodes(code, pc)
      invariant forall k: nat :: k < MAX_CODE ==>
        (IsStart(code, k) <==> Marked(boundary[..], k) || Start(code, pc, k))
    {
      ghost var f := Decode(code, pc);
      ghost var at := pc;
      Mark(boundary, pc);
      var opcode := code[pc];
      pc := pc + 1;
      if opcode == PUSH_I32 {
        if pc + 4 > size { return false; }
        pc := pc + 4;
      } else if opcode == LOAD_LOCAL || opcode == STORE_LOCAL {
        if pc >= size || code[pc] >= 8 { return false; }
        pc := pc + 1;
      } else if ADD <= opcode <= NE {
      } else if opcode == CALL || opcode == SLEEP || opcode == JMP || opcode == JZ {
        if pc + 2 > size { return false; }
        pc := pc + 2;
      } else if opcode == RET || opcode == GPIO || opcode == PRINT_INT || opcode == POP || opcode == HALT {
      } else if opcode == WRITE {
        if pc >= size { return false; }
        var length := code[pc];
        pc := pc + 1;
        if pc + length > size { return false; }
        pc := pc + length;
      } else if 0x30 <= opcode <= 0x35 {
      } else {
        return false;
      }
      assert f.Fetched? && f.next == pc;
    }
    return true;
  }

  /** Length of the instruction at `at`, as passes 2 and 3 recompute it from the raw bytes. */
  function Next(code: seq<byte>, at: nat): (next: nat)
    requires IsStart(code, at)
    ensures next == Decode(code, at).next
  {
    var op := code[at];
    if op == PUSH_I32 then at + 5
    else if op == LOAD_LOCAL || op == STORE_LOCAL then at + 2
    else if op == CALL || op == JMP || op == JZ || op == SLEEP then at + 3
    else if op == WRITE then at + 2 + code[at + 1]
    else at + 1
  }

  /** How passes 2 and 3 recognise, on raw bytes, what pass 1 decoded. */
  lemma RawForm(code: seq<byte>, at: nat)
    requires IsStart(code, at)
    ensures var i := InstrAt(code, at);
            && (code[at] == CALL <==> i.Call?) && (code[at] == JMP <==> i.Jmp?) && (code[at] == JZ <==> i.Jz?)
            && (code[at] == RET <==> i.Ret?) && (code[at] == HALT <==> i.Halt?)
            && (HasTarget(i) ==> at + 3 <= |code| && i.target == Half(code[at + 1], code[at + 2]))
  {
  }

  lemma FirstStart(code: seq<byte>)
    requires Decodes(code, 0) && 0 < |code|
    ensures IsStart(code, 0)
  {
    assert Start(code, 0, 0);
  }

  lemma {:induction false} StartStep(code: seq<byte>, from: nat, at: nat)
    requires from <= |code| && Start(code, from, at)
    ensures Decode(code, at).next < |code| && Decodes(code, from) ==> Start(code, from, Decode(code, at).next)
    ensures Decodes(code, from) ==> Decodes(code, Decode(code, at).next)
    decreases |code| - from
  {
    hide Decode;
    var next := Decode(code, from).next;
    if at != from {
      StartStep(code, next, at);
    } else if next < |code| && Decodes(code, from) {
      assert Decodes(code, next);
      assert Start(code, next, next);
    }
  }

  // ---------- pass 2: every target is an instruction start ----------

  method CheckTargets(code: seq<byte>, boundary: array<bv8>) returns (ok: bool)
    requires |code| <= MAX_CODE && boundary.Length == 32 && Decodes(code, 0)
    requires forall k: nat :: k < MAX_CODE ==> (Marked(boundary[..], k) <==> IsStart(code, k))
    ensures ok <==> TargetsAreStarts(code)
  {
    hide Decode, Decodes, Start, Marked, Half;
    var pc, size := 0, |code|;
    if size > 0 { FirstStart(code); }
    while pc < size
      invariant pc <= size && (pc < size ==> IsStart(code, pc))
      invariant forall at: nat :: at < pc && IsStart(code, at) && HasTarget(InstrAt(code, at)) ==>
        IsStart(code, InstrAt(code, at).target)
    {
      var opcode := code[pc];
      RawForm(code, pc);
      if opcode == CALL || opcode == JMP || opcode == JZ {
        var target := Half(code[pc + 1], code[pc + 2]);
        if target >= size || !Marked(boundary[..], target) {
          assert HasTarget(InstrAt(code, pc)) && !IsStart(code, InstrAt(code, pc).target);
          return false;
        }
      }
      NoStartInside(code, 0, pc);
      StartStep(code, 0, pc);
      pc := Next(code, pc);
    }
    return true;
  }

  lemma {:induction false} NoStartInside(code: seq<byte>, from: nat, at: nat)
    requires from <= |code| && Start(code, from, at)
    ensures forall k: nat :: at < k < Decode(code, at).next ==> !Start(code, from, k)
    decreases |code| - from
  {
    var next := Decode(code, from).next;
    if at != from {
      NoStartInside(code, next, at);
    }
  }

  // ---------- pass 3: data flow of operand depths ----------

  /** The part of the state that both halves of pass 3 keep: `queue[..tail]` lists, without
      repetition, exactly the addresses that have a depth. */
  ghost predicate Queued(code: seq<byte>, depth: seq<int>, queue: seq<nat>) {
    && |depth| == |code| <= MAX_CODE
    && (forall k :: 0 <= k < |queue| ==> queue[k] < |code| && depth[queue[k]] >= 0 && IsStart(code, queue[k]))
    && (forall j, k :: 0 <= j < k < |queue| ==> queue[j] != queue[k])
    && (forall at :: 0 <= at < |code| ==> -1 <= depth[at] <= STACK_SIZE && (depth[at] >= 0 ==> at in queue))
  }

  /** Every depth found so far is forced: any consistent assignment agrees with it. */
  ghost predicate Forced(code: seq<byte>, depth: seq<int>) {
    forall d, at :: Consistent(code, d) && 0 <= at < |code| == |depth| && depth[at] >= 0 ==> d[at] == depth[at]
  }

  /** An address outside a repetition-free queue leaves room for one more entry. */
  lemma RoomInQueue(queue: seq<nat>, n: nat, extra: nat)
    requires forall k :: 0 <= k < |queue| ==> queue[k] < n
    requires forall j, k :: 0 <= j < k < |queue| ==> queue[j] != queue[k]
    requires extra < n && extra !in queue
    ensures |queue| < n
  {
    var q := queue + [extra];
    SeqAsSet(q);
    SubsetSize(Elements(q), Below(n));
  }

  ghost function Below(n: nat): (s: set<nat>)
    ensures |s| == n && forall k: nat :: k in s <==> k < n
  {
    if n == 0 then {} else Below(n - 1) + {n - 1}
  }

  ghost function Elements(q: seq<nat>): set<nat> {
    set k | k in q
  }

  lemma {:induction false} SeqAsSet(q: seq<nat>)
    requires forall j, k :: 0 <= j < k < |q| ==> q[j] != q[k]
    ensures |Elements(q)| == |q|
  {
    if q != [] {
      var init, last := q[..|q| - 1], q[|q| - 1];
      SeqAsSet(init);
      assert q == init + [last];
      assert Elements(q) == Elements(init) + {last};
      assert last !in init;
    }
  }

  lemma {:induction false} SubsetSize(a: set<nat>, b: set<nat>)
    requires a <= b
    ensures |a| <= |b|
  {
    if x :| x in a {
      SubsetSize(a - {x}, b - {x});
    }
  }

  lemma ForcedFlow(code: seq<byte>, depth: seq<int>, at: nat)
    requires |depth| == |code| && Forced(code, depth) && IsStart(code, at) && depth[at] >= 0
    ensures forall d :: Consistent(code, d) ==> FlowOk(code, d, at) && d[at] == depth[at]
  {
    hide FlowOk, Decode;
  }

  lemma CalleeForced(code: seq<byte>, at: nat)
    requires IsStart(code, at) && InstrAt(code, at).Call?
    ensures forall d :: Consistent(code, d) ==> InstrAt(code, at).target < |code| && d[InstrAt(code, at).target] == 0
  {
    hide FlowOk, Decode;
  }

  /** No depth already assigned has changed. */
  predicate Extends(before: seq<int>, after: seq<int>) {
    |before| == |after| && forall k :: 0 <= k < |before| && before[k] >= 0 ==> after[k] == before[k]
  }

  lemma FlowKept(code: seq<byte>, before: seq<int>, after: seq<int>, at: nat)
    requires |before| == |code| && IsStart(code, at) && before[at] >= 0
    requires FlowOk(code, before, at) && Extends(before, after)
    ensures FlowOk(code, after, at)
  {
    hide Decode, Start;
  }

  lemma QueuedAdd(code: seq<byte>, depth: seq<int>, queue: seq<nat>, at: nat, d: nat)
    requires Queued(code, depth, queue) && IsStart(code, at) && depth[at] < 0 && d <= STACK_SIZE
    ensures Queued(code, depth[at := d], queue + [at]) && |queue| < |code|
  {
    hide Start;
    RoomInQueue(queue, |code|, at);
  }

  lemma ForcedAdd(code: seq<byte>, depth: seq<int>, at: nat, d: nat)
    requires |depth| == |code| && Forced(code, depth) && at < |code|
    requires forall other :: Consistent(code, other) ==> other[at] == d
    ensures Forced(code, depth[at := d])
  {
    hide Consistent;
  }

  class Worklist {
    const code: seq<byte>
    var depth: array<int>
    var queue: array<nat>
    var tail: nat

    ghost predicate Valid()
      reads this, depth, queue
    {
      && depth.Length == queue.Length == MAX_CODE && depth != queue as object
      && |code| <= MAX_CODE && tail <= |code|
      && Queued(code, depth[..|code|], queue[..tail]) && Forced(code, depth[..|code|])
    }

    /** Gives `at` a depth the first time it is reached; false if it was reached at another depth. */
    method Visit(at: nat, d: nat) returns (ok: bool)
      requires Valid() && d <= STACK_SIZE && IsStart(code, at)
      requires forall other :: Consistent(code, other) ==> other[at] == d
      modifies this`tail, depth, queue
      ensures Valid()
      ensures ok <==> old(depth[at]) < 0 || old(depth[at]) == d
      ensures ok ==> depth[at] == d
      ensures forall k :: 0 <= k < |code| && k != at ==> depth[k] == old(depth[k])
      ensures Extends(old(depth[..|code|]), depth[..|code|])
      ensures tail >= old(tail) && queue[..old(tail)] == old(queue[..tail])
      ensures !ok ==> forall other :: !Consistent(code, other)
    {
      hide Queued, Forced, Consistent, Start;
      if depth[at] < 0 {
        QueuedAdd(code, depth[..|code|], queue[..tail], at, d);
        ForcedAdd(code, depth[..|code|], at, d);
        depth[at] := d;
        queue[tail] := at;
        tail := tail + 1;
        assert queue[..tail] == old(queue[..tail]) + [at];
        assert depth[..|code|] == old(depth[..|code|])[at := d];
        return true;
      }
      if depth[at] != d { Clash(at, d); }
      return depth[at] == d;
    }

    lemma Clash(at: nat, d: nat)
      requires Valid() && at < |code| && depth[at] >= 0 && depth[at] != d
      requires forall other :: Consistent(code, other) ==> other[at] == d
      ensures forall other :: !Consistent(code, other)
    {
      hide Consistent, Queued;
      assert depth[..|code|][at] == depth[at];
    }

    constructor (code: seq<byte>)
      requires 0 < |code| <= MAX_CODE && Decodes(code, 0)
      ensures Valid() && this.code == code && fresh(depth) && fresh(queue)
      ensures forall at :: 0 <= at < |code| ==> depth[at] == if at == 0 then 0 else -1
    {
      this.code := code;
      depth := new int[256](_ => -1);
      queue := new nat[256](_ => 0);
      tail := 0;
      new;
      assert IsStart(code, 0);
      var _ := Visit(0, 0);
    }

    /** Entry of every called function gets depth 0. */
    method SeedCallees()
      requires Valid() && Decodes(code, 0) && TargetsAreStarts(code) && 0 < |code| && depth[0] == 0
      requires forall at :: 0 <= at < |code| && depth[at] >= 0 ==> depth[at] == 0
      modifies this`tail, depth, queue
      ensures Valid() && depth[0] == 0
      ensures forall at: nat :: IsStart(code, at) && InstrAt(code, at).Call? ==> depth[InstrAt(code, at).target] == 0
    {
      hide Decode, Decodes, Start, Half, Queued, Forced, Consistent;
      FirstStart(code);
      var pc := 0;
      while pc < |code|
        invariant Valid() && depth[0] == 0
        invariant pc <= |code| && (pc < |code| ==> IsStart(code, pc))
        invariant forall at :: 0 <= at < |code| && depth[at] >= 0 ==> depth[at] == 0
        invariant forall at: nat :: at < pc && IsStart(code, at) && InstrAt(code, at).Call? ==>
          depth[InstrAt(code, at).target] == 0
      {
        RawForm(code, pc);
        if code[pc] == CALL {
          var target := Half(code[pc + 1], code[pc + 2]);
          CalleeForced(code, pc);
          if depth[target] < 0 {
            var _ := Visit(target, 0);
          }
        }
        NoStartInside(code, 0, pc);
        StartStep(code, 0, pc);
        pc := Next(code, pc);
      }
    }

    /** Operand depth after the opcode; `false` if there are too few operands. */
    static method After(opcode: byte, stack: nat) returns (ok: bool, out: nat)
      requires stack <= STACK_SIZE
      ensures forall code: seq<byte>, at: nat :: IsStart(code, at) && code[at] == opcode ==>
        (ok <==> 0 <= Effect(InstrAt(code, at), stack) <= STACK_SIZE) &&
        (ok ==> out == Effect(InstrAt(code, at), stack))
    {
      var d: int := stack;
      if opcode == PUSH_I32 || opcode == LOAD_LOCAL || opcode == CALL {
        d := d + 1;
      } else if opcode == STORE_LOCAL || opcode == JZ || opcode == PRINT_INT || opcode == POP {
        if d < 1 { return false, 0; }
        d := d - 1;
      } else if ADD <= opcode <= NE {
        if d < 2 { return false, 0; }
        d := d - 1;
      } else if opcode == RET {
        if d != 1 { return false, 0; }
      }
      if d > 16 { return false, 0; }
      return true, d;
    }

    /** Processes one queue entry: depths flow to its successors. */
    method Process(at: nat) returns (ok: bool)
      requires Valid() && Decodes(code, 0) && TargetsAreStarts(code)
      requires at < |code| && depth[at] >= 0 && IsStart(code, at)
      modifies this`tail, depth, queue
      ensures Valid() && tail >= old(tail) && queue[..old(tail)] == old(queue[..tail])
      ensures Extends(old(depth[..|code|]), depth[..|code|])
      ensures ok ==> FlowOk(code, depth[..|code|], at)
      ensures !ok ==> forall d :: !Consistent(code, d)
    {
      hide Decode, Decodes, Start, Half, Effect, Queued, Forced, Consistent;
      ghost var i := InstrAt(code, at);
      RawForm(code, at);
      assert 0 <= depth[at] <= STACK_SIZE by { DepthRange(); }
      var valid, out := After(code[at], depth[at]);
      ForcedFlow(code, depth[..|code|], at);
      if !valid {
        return false;
      }
      if code[at] == JMP || code[at] == JZ {
        var branch := Half(code[at + 1], code[at + 2]);
        valid := Visit(branch, out);
        if !valid {
          return false;
        }
      }
      label branched:
      var next := Next(code, at);
      if code[at] != RET && code[at] != JMP && code[at] != HALT && next < |code| {
        StartStep(code, 0, at);
        valid := Visit(next, out);
        if !valid {
          return false;
        }
      }
      return true;
    }

    lemma QueueEntries()
      requires Valid()
      ensures forall k :: 0 <= k < tail ==> queue[k] < |code| && depth[queue[k]] >= 0 && IsStart(code, queue[k])
    {
      hide IsStart;
      forall k | 0 <= k < tail ensures queue[k] < |code| && depth[queue[k]] >= 0 && IsStart(code, queue[k]) {
        assert queue[..tail][k] == queue[k];
      }
    }

    lemma DepthRange()
      requires Valid()
      ensures forall at :: 0 <= at < |code| ==> -1 <= depth[at] <= STACK_SIZE
    {
      assert forall at :: 0 <= at < |code| ==> depth[..|code|][at] == depth[at];
    }

    /** Propagates depths along every edge until nothing new is reached. */
    method Propagate() returns (ok: bool)
      requires Valid() && Decodes(code, 0) && TargetsAreStarts(code) && 0 < |code| && depth[0] == 0
      requires forall at: nat :: IsStart(code, at) && InstrAt(code, at).Call? ==> depth[InstrAt(code, at).target] == 0
      modifies this`tail, depth, queue
      ensures Valid()
      ensures ok ==> Consistent(code, depth[..|code|])
      ensures !ok ==> forall d :: !Consistent(code, d)
    {
      hide Decode, Decodes, Start, Half, FlowOk, Consistent, Queued, InstrAt;
      ghost var before := depth[..|code|];
      QueueEntries();
      var head := 0;
      while head < tail
        invariant Valid() && head <= tail && Extends(before, depth[..|code|])
        invariant forall k :: 0 <= k < tail ==> queue[k] < |code| && depth[queue[k]] >= 0 && IsStart(code, queue[k])
        invariant forall k :: 0 <= k < head ==> FlowOk(code, depth[..|code|], queue[k])
        decreases |code| - head
      {
        ghost var known, done := depth[..|code|], queue[..head];
        ok := Process(queue[head]);
        if !ok {
          return;
        }
        forall k | 0 <= k < head ensures FlowOk(code, depth[..|code|], queue[k]) {
          assert queue[k] == done[k];
          FlowKept(code, known, depth[..|code|], queue[k]);
        }
        head := head + 1;
        QueueEntries();
      }
      Settled(before);
      return true;
    }

    /** With every queue entry processed, the depths found are a consistent assignment. */
    lemma Settled(before: seq<int>)
      requires Valid() && 0 < |code| && Extends(before, depth[..|code|]) && TargetsAreStarts(code)
      requires before[0] == 0
      requires forall at: nat :: IsStart(code, at) && InstrAt(code, at).Call? ==>
        InstrAt(code, at).target < |code| && before[InstrAt(code, at).target] == 0
      requires forall k :: 0 <= k < tail ==>
                 queue[k] < |code| && IsStart(code, queue[k]) && FlowOk(code, depth[..|code|], queue[k])
      ensures Consistent(code, depth[..|code|])
    {
      hide Decode, Start, FlowOk;
      forall at: nat | at < |code| && depth[at] >= 0
        ensures IsStart(code, at) && FlowOk(code, depth[..|code|], at)
      {
        assert depth[..|code|][at] == depth[at];
        assert at in queue[..tail];
      }
    }
  }

  /** The whole verifier. `counted` tells whether the reject counter advances. */
  method BytecodeVerify(code: seq<byte>) returns (ok: bool, counted: bool)
    ensures ok <==> Acceptable(code)
    ensures counted <==> !ok && 0 < |code| <= MAX_CODE
  {
    if |code| == 0 || |code| > 256 {
      return false, false;
    }
    var boundary := new bv8[32](_ => 0);
    assert forall k: nat :: k < MAX_CODE ==> !Marked(boundary[..], k);
    ok := MarkBoundaries(code, boundary);
    if ok {
      ok := CheckTargets(code, boundary);
    }
    if ok {
      var work := new Worklist(code);
      work.SeedCallees();
      ok := work.Propagate();
    }
    counted := !ok;
  }
}
