/** The interpreter loop over fixed arrays, proved to execute `Machine.Step`. */
module Interpreter {
  import opened Common
  import opened Hbc
  import opened Machine

  // ---------- arithmetic through unsigned words ----------

  lemma SameWord(x: int, y: int, k: int)
    requires x == y + 0x1_0000_0000 * k
    ensures ToI32(x) == ToI32(y)
  {
  }

  /** Multiplying the unsigned words gives the low word of the signed product. */
  lemma WordProduct(l: i32, r: i32)
    ensures ToI32(ToU32(l) * ToU32(r)) == ToI32(l * r)
  {
    hide ToI32;
    var m := 0x1_0000_0000;
    var k := if l < 0 && r < 0 then l + r + m else if l < 0 then r else if r < 0 then l else 0;
    assert (l + m) * r == l * r + m * r && l * (r + m) == l * r + m * l;
    assert (l + m) * (r + m) == (l + m) * r + (l + m) * m;
    SameWord(ToU32(l) * ToU32(r), l * r, k);
  }

  /** A binary operator as the interpreter computes it: through 32-bit unsigned words, with the one
      overflowing quotient treated apart. */
  method Compute(opcode: byte, left: i32, right: i32) returns (r: Result)
    requires ADD <= opcode <= NE
    ensures r == Apply(BinOpOf(opcode), left, right)
  {
    hide ToI32, TruncDiv;
    var ul: int, ur: int := ToU32(left), ToU32(right);
    var a, b := if left < 0 then 1 else 0, if right < 0 then 1 else 0;
    SameWord(ul + ur, left + right, a + b);
    SameWord(ul - ur, left - right, a - b);
    if opcode == ADD {
      return Value(ToI32(ul + ur));
    } else if opcode == SUB {
      return Value(ToI32(ul - ur));
    } else if opcode == MUL {
      WordProduct(left, right);
      return Value(ToI32(ul * ur));
    } else if opcode == DIV {
      if right == 0 { return ZeroDivisor; }
      if ul == 0x8000_0000 && right == -1 {
        OverflowingQuotient();
        return Value(-0x8000_0000);
      }
      QuotientFits(left, right);
      return Value(TruncDiv(left, right));
    } else if opcode == LT {
      return Value(if left < right then 1 else 0);
    } else if opcode == LE {
      return Value(if left <= right then 1 else 0);
    } else if opcode == GT {
      return Value(if left > right then 1 else 0);
    } else if opcode == GE {
      return Value(if left >= right then 1 else 0);
    } else if opcode == EQ {
      return Value(if left == right then 1 else 0);
    }
    return Value(if left != right then 1 else 0);
  }

  /** Only the smallest integer divided by -1 overflows. */
  lemma QuotientFits(a: i32, b: i32)
    requires b != 0 && !(a == -0x8000_0000 && b == -1)
    ensures -0x8000_0000 <= TruncDiv(a, b) < 0x8000_0000 && ToI32(TruncDiv(a, b)) == TruncDiv(a, b)
  {
    hide ToI32;
    DivBound(Abs(a), Abs(b));
    SmallWord(TruncDiv(a, b));
  }

  lemma SmallWord(v: int)
    ensures -0x8000_0000 <= v < 0x8000_0000 ==> ToI32(v) == v
  {
  }

  lemma OverflowingQuotient()
    ensures ToI32(TruncDiv(-0x8000_0000, -1)) == -0x8000_0000
  {
  }

  lemma DivBound(m: nat, d: nat)
    requires d > 0
    ensures m / d <= m && (d > 1 && m > 0 ==> m / d < m)
  {
    Scale(d, m / d);
    assert m == d * (m / d) + m % d;
  }

  lemma {:induction false} Scale(d: nat, q: nat)
    requires d > 0
    ensures d * q >= q && (d > 1 ==> d * q >= 2 * q)
  {
    if q > 0 {
      Scale(d, q - 1);
      assert d * q == d * (q - 1) + d;
    }
  }

  lemma StepRet(code: seq<byte>, s: State, gpio: nat -> bool)
    requires s.Valid() && s.pc < |code| && code[s.pc] == RET
    ensures var d := |s.frames|;
            Step(code, s, gpio) ==
              if d == 0 || |s.stack| != s.frames[d - 1].baseSp + 1 then Trapped(ReturnFrame, s.trace)
              else Running(s.(pc := s.frames[d - 1].returnPc, locals := s.frames[d - 1].locals,
                              frames := s.frames[..d - 1]))
  {
  }

  lemma StepBinary(code: seq<byte>, s: State, gpio: nat -> bool)
    requires s.Valid() && s.pc < |code| && ADD <= code[s.pc] <= NE
    ensures var n := |s.stack|;
            Step(code, s, gpio) ==
              if n < 2 then Trapped(BinaryStack, s.trace)
              else
                match Apply(BinOpOf(code[s.pc]), s.stack[n - 2], s.stack[n - 1])
                case ZeroDivisor => Trapped(DivideByZero, s.trace)
                case Value(v) => Running(s.(pc := s.pc + 1, stack := s.stack[..n - 2] + [v]))
  {
    hide Apply;
  }

  lemma StepCall(code: seq<byte>, s: State, gpio: nat -> bool)
    requires s.Valid() && s.pc < |code| && code[s.pc] == CALL
    ensures Step(code, s, gpio) ==
              if s.pc + 3 > |code| || |s.frames| >= FRAME_COUNT then Trapped(CallFrame, s.trace)
              else if Half(code[s.pc + 1], code[s.pc + 2]) >= |code| then Trapped(CallTarget, s.trace)
              else Running(s.(pc := Half(code[s.pc + 1], code[s.pc + 2]), locals := ZERO_LOCALS,
                              frames := s.frames + [Frame(s.pc + 3, |s.stack|, s.locals)]))
  {
    hide Half;
  }

  lemma StepJz(code: seq<byte>, s: State, gpio: nat -> bool)
    requires s.Valid() && s.pc < |code| && code[s.pc] == JZ
    ensures var n := |s.stack|;
            Step(code, s, gpio) ==
              if s.pc + 3 > |code| || n == 0 then Trapped(BranchStack, s.trace)
              else if s.stack[n - 1] != 0 then Running(s.(pc := s.pc + 3, stack := s.stack[..n - 1]))
              else if Half(code[s.pc + 1], code[s.pc + 2]) >= |code| then Trapped(BranchTarget, s.trace)
              else Running(s.(pc := Half(code[s.pc + 1], code[s.pc + 2]), stack := s.stack[..n - 1]))
  {
    hide Half;
  }

  lemma StepWrite(code: seq<byte>, s: State, gpio: nat -> bool)
    requires s.Valid() && s.pc < |code| && code[s.pc] == WRITE
    ensures Step(code, s, gpio) ==
              if s.pc + 1 >= |code| then Trapped(WriteLength, s.trace)
              else
                var end := s.pc + 2 + code[s.pc + 1];
                if end > |code| then Trapped(WriteData, s.trace)
                else Running(s.(pc := end, trace := s.trace + [Wrote(Line(code[s.pc + 2..end]))]))
  {
    hide Line;
  }

  class Vm {
    const operand: array<i32>
    const locals: array<i32>
    const saved: array2<i32>
    const returnPc: array<nat>
    const baseSp: array<nat>
    var sp: nat
    var fp: nat
    var pc: nat
    var trace: seq<Event>
    var running: bool
    var exitStatus: nat
    var trap: Cause

    ghost predicate Shaped() {
      && operand.Length == STACK_SIZE && locals.Length == LOCAL_COUNT
      && saved.Length0 == FRAME_COUNT && saved.Length1 == LOCAL_COUNT
      && returnPc.Length == FRAME_COUNT && baseSp.Length == FRAME_COUNT
      && operand != locals && returnPc != baseSp
    }

    ghost predicate Valid()
      reads this
    {
      Shaped() && sp <= STACK_SIZE && fp <= FRAME_COUNT
    }

    ghost function FrameAt(k: nat): Frame
      requires Shaped() && k < FRAME_COUNT
      reads saved, returnPc, baseSp
    {
      Frame(returnPc[k], baseSp[k],
            [saved[k, 0], saved[k, 1], saved[k, 2], saved[k, 3], saved[k, 4], saved[k, 5], saved[k, 6], saved[k, 7]])
    }

    ghost function Frames(n: nat): (s: seq<Frame>)
      requires Shaped() && n <= FRAME_COUNT
      reads saved, returnPc, baseSp
      ensures |s| == n && forall k :: 0 <= k < n ==> s[k] == FrameAt(k)
    {
      if n == 0 then [] else Frames(n - 1) + [FrameAt(n - 1)]
    }

    /** The abstract machine this object represents. */
    ghost function Abstract(): (s: State)
      requires Valid()
      reads this, operand, locals, saved, returnPc, baseSp
      ensures s.Valid()
    {
      State(pc, operand[..sp], locals[..], Frames(fp), trace)
    }

    /** The object is where the outcome says. */
    ghost predicate Reached(r: Outcome)
      requires Valid()
      reads this, operand, locals, saved, returnPc, baseSp
    {
      match r
      case Running(s) => running && Abstract() == s
      case Exited(t) => !running && exitStatus == 0 && trace == t
      case Trapped(c, t) => !running && exitStatus == Status(c) && trap == c && trace == t
    }

    constructor ()
      ensures Valid() && running && Abstract() == RESET
      ensures fresh(operand) && fresh(locals) && fresh(saved) && fresh(returnPc) && fresh(baseSp)
    {
      operand := new i32[16](_ => 0);
      locals := new i32[8](_ => 0);
      saved := new i32[4, 8]((_, _) => 0);
      returnPc := new nat[4](_ => 0);
      baseSp := new nat[4](_ => 0);
      sp, fp, pc, trace, running, exitStatus, trap := 0, 0, 0, [], true, 0, InvalidOpcode;
      new;
      assert locals[..] == ZERO_LOCALS;
    }

    /** Stops the application; the kernel and the shell go on. */
    method Stop(c: Cause)
      requires Valid()
      modifies this`running, this`exitStatus, this`trap
      ensures Valid() && !running && exitStatus == Status(c) && trap == c
    {
      running, exitStatus, trap := false, if c == DivideByZero then 136 else 126, c;
    }

    method Push(v: i32)
      requires Valid() && sp < STACK_SIZE
      modifies this`sp, operand
      ensures Valid() && Abstract() == old(Abstract()).(stack := old(Abstract()).stack + [v])
    {
      operand[sp] := v;
      sp := sp + 1;
      assert operand[..sp] == old(operand[..sp]) + [v];
    }

    method PopOperand() returns (v: i32)
      requires Valid() && sp > 0
      modifies this`sp
      ensures Valid() && v == old(Abstract()).stack[old(sp) - 1]
      ensures Abstract() == old(Abstract()).(stack := old(Abstract()).stack[..old(sp) - 1])
    {
      sp := sp - 1;
      v := operand[sp];
      assert operand[..sp] == operand[..sp + 1][..sp];
    }

    method SaveFrame(target: nat)
      requires Valid() && fp < FRAME_COUNT
      modifies this`fp, this`pc, locals, saved, returnPc, baseSp
      ensures Valid()
      ensures var s := old(Abstract());
              Abstract() == s.(pc := target, locals := ZERO_LOCALS,
                               frames := s.frames + [Frame(s.pc, |s.stack|, s.locals)])
    {
      hide FrameAt;
      ghost var s := Abstract();
      StoreFrame();
      fp := fp + 1;
      forall i | 0 <= i < 8 { locals[i] := 0; }
      pc := target;
      assert locals[..] == ZERO_LOCALS;
    }

    method StoreFrame()
      requires Valid() && fp < FRAME_COUNT
      modifies saved, returnPc, baseSp
      ensures Frames(fp) == old(Frames(fp)) && FrameAt(fp) == Frame(pc, sp, locals[..])
    {
      ghost var before := Frames(fp);
      returnPc[fp] := pc;
      baseSp[fp] := sp;
      forall i | 0 <= i < 8 { saved[fp, i] := locals[i]; }
      assert forall k :: 0 <= k < fp ==> FrameAt(k) == before[k];
    }

    method RestoreFrame()
      requires Valid() && fp > 0
      modifies this`fp, this`pc, locals
      ensures Valid()
      ensures var s := old(Abstract()); var f := s.frames[|s.frames| - 1];
              Abstract() == s.(pc := f.returnPc, locals := f.locals, frames := s.frames[..|s.frames| - 1])
    {
      ghost var s := Abstract();
      fp := fp - 1;
      forall i | 0 <= i < 8 { locals[i] := saved[fp, i]; }
      pc := returnPc[fp];
      assert locals[..] == s.frames[fp].locals;
      assert Frames(fp) == s.frames[..fp];
    }

    /** Carries the result across the frame change. */
    method Leave()
      requires Valid() && fp > 0 && sp > 0
      modifies this`fp, this`pc, this`sp, locals, operand
      ensures Valid()
      ensures var s := old(Abstract()); var f := s.frames[|s.frames| - 1];
              Abstract() == s.(pc := f.returnPc, locals := f.locals, frames := s.frames[..|s.frames| - 1])
    {
      hide Frames, FrameAt;
      ghost var s := Abstract();
      var result := PopOperand();
      RestoreFrame();
      Push(result);
      assert s.stack == s.stack[..|s.stack| - 1] + [result];
    }

    /** Prints `length` bytes from pc on, then ends the line if the text did not. */
    method WriteText(code: seq<byte>, length: byte)
      requires Valid() && pc + length <= |code|
      modifies this`pc, this`trace
      ensures Valid() && pc == old(pc) + length && trace == old(trace) + [Wrote(Line(code[old(pc)..old(pc) + length]))]
    {
      var out: seq<byte> := [];
      var index := 0;
      while index < length
        invariant index <= length && pc == old(pc) + index && out == code[old(pc)..pc]
        invariant trace == old(trace)
      {
        out := out + [code[pc]];
        pc := pc + 1;
        index := index + 1;
      }
      ghost var text := code[old(pc)..old(pc) + length];
      assert out == text;
      if length == 0 || code[pc - 1] != 10 {
        out := out + [13, 10];
      }
      assert length > 0 ==> text[|text| - 1] == code[pc - 1];
      trace := trace + [Wrote(out)];
    }

    // One method per instruction group: pc is still at the opcode, which the loop has just read.

    method ExecPush(code: seq<byte>, ghost gpio: nat -> bool)
      requires Valid() && running && pc < |code| && code[pc] == PUSH_I32
      modifies this, operand, locals, saved, returnPc, baseSp
      ensures Valid() && Reached(Step(code, old(Abstract()), gpio))
    {
      hide Frames, FrameAt;
      pc := pc + 1;
      if pc + 4 > |code| || sp >= 16 { Stop(PushTrap); return; }
      var raw := Word(code[pc], code[pc + 1], code[pc + 2], code[pc + 3]);
      pc := pc + 4;
      Push(Signed(raw));
    }

    method ExecLoad(code: seq<byte>, ghost gpio: nat -> bool)
      requires Valid() && running && pc < |code| && code[pc] == LOAD_LOCAL
      modifies this, operand, locals, saved, returnPc, baseSp
      ensures Valid() && Reached(Step(code, old(Abstract()), gpio))
    {
      hide Frames, FrameAt;
      pc := pc + 1;
      if pc >= |code| || code[pc] >= 8 || sp >= 16 { Stop(LoadTrap); return; }
      Push(locals[code[pc]]);
      pc := pc + 1;
    }

    method ExecStore(code: seq<byte>, ghost gpio: nat -> bool)
      requires Valid() && running && pc < |code| && code[pc] == STORE_LOCAL
      modifies this, operand, locals, saved, returnPc, baseSp
      ensures Valid() && Reached(Step(code, old(Abstract()), gpio))
    {
      hide Frames, FrameAt;
      pc := pc + 1;
      if pc >= |code| || code[pc] >= 8 || sp == 0 { Stop(StoreTrap); return; }
      var v := PopOperand();
      locals[code[pc]] := v;
      pc := pc + 1;
    }

    method ExecBinary(code: seq<byte>, ghost gpio: nat -> bool)
      requires Valid() && running && pc < |code| && ADD <= code[pc] <= NE
      modifies this, operand, locals, saved, returnPc, baseSp
      ensures Valid() && Reached(Step(code, old(Abstract()), gpio))
    {
      hide Frames, FrameAt, Step;
      StepBinary(code, Abstract(), gpio);
      var opcode := code[pc];
      pc := pc + 1;
      if sp < 2 { Stop(BinaryStack); return; }
      var right := PopOperand();
      var left := PopOperand();
      var r := Compute(opcode, left, right);
      match r
      case ZeroDivisor => Stop(DivideByZero);
      case Value(v) => Push(v);
    }

    method ExecCall(code: seq<byte>, ghost gpio: nat -> bool)
      requires Valid() && running && pc < |code| && code[pc] == CALL
      modifies this, operand, locals, saved, returnPc, baseSp
      ensures Valid() && Reached(Step(code, old(Abstract()), gpio))
    {
      hide Frames, FrameAt, Step;
      StepCall(code, Abstract(), gpio);
      pc := pc + 1;
      if pc + 2 > |code| || fp >= 4 { Stop(CallFrame); return; }
      var target := Half(code[pc], code[pc + 1]);
      pc := pc + 2;
      if target >= |code| { Stop(CallTarget); return; }
      SaveFrame(target);
    }

    /** The current frame holds exactly its result. */
    method HoldsResult() returns (b: bool)
      requires Valid()
      ensures var s := Abstract();
              b <==> s.frames != [] && |s.stack| == s.frames[|s.frames| - 1].baseSp + 1
    {
      b := fp != 0 && sp == baseSp[fp - 1] + 1;
    }

    method ExecRet(code: seq<byte>, ghost gpio: nat -> bool)
      requires Valid() && running && pc < |code| && code[pc] == RET
      modifies this, operand, locals, saved, returnPc, baseSp
      ensures Valid() && Reached(Step(code, old(Abstract()), gpio))
    {
      hide Frames, FrameAt, Step;
      StepRet(code, Abstract(), gpio);
      var fits := HoldsResult();
      pc := pc + 1;
      if !fits { Stop(ReturnFrame); return; }
      Leave();
    }

    method ExecJmp(code: seq<byte>, ghost gpio: nat -> bool)
      requires Valid() && running && pc < |code| && code[pc] == JMP
      modifies this, operand, locals, saved, returnPc, baseSp
      ensures Valid() && Reached(Step(code, old(Abstract()), gpio))
    {
      hide Frames, FrameAt;
      pc := pc + 1;
      if pc + 2 > |code| { Stop(JumpOperand); return; }
      var target := Half(code[pc], code[pc + 1]);
      if target >= |code| { Stop(JumpTarget); return; }
      pc := target;
    }

    method ExecJz(code: seq<byte>, ghost gpio: nat -> bool)
      requires Valid() && running && pc < |code| && code[pc] == JZ
      modifies this, operand, locals, saved, returnPc, baseSp
      ensures Valid() && Reached(Step(code, old(Abstract()), gpio))
    {
      hide Frames, FrameAt, Step;
      StepJz(code, Abstract(), gpio);
      pc := pc + 1;
      if pc + 2 > |code| || sp == 0 { Stop(BranchStack); return; }
      var target := Half(code[pc], code[pc + 1]);
      pc := pc + 2;
      var condition := PopOperand();
      if condition == 0 {
        if target >= |code| { Stop(BranchTarget); return; }
        pc := target;
      }
    }

    method ExecPop(code: seq<byte>, ghost gpio: nat -> bool)
      requires Valid() && running && pc < |code| && (code[pc] == PRINT_INT || code[pc] == POP)
      modifies this, operand, locals, saved, returnPc, baseSp
      ensures Valid() && Reached(Step(code, old(Abstract()), gpio))
    {
      hide Frames, FrameAt;
      var opcode := code[pc];
      pc := pc + 1;
      if sp == 0 { Stop(if opcode == PRINT_INT then PrintStack else PopStack); return; }
      var v := PopOperand();
      if opcode == PRINT_INT {
        trace := trace + [Printed(v)];
      }
    }

    method ExecWrite(code: seq<byte>, ghost gpio: nat -> bool)
      requires Valid() && running && pc < |code| && code[pc] == WRITE
      modifies this, operand, locals, saved, returnPc, baseSp
      ensures Valid() && Reached(Step(code, old(Abstract()), gpio))
    {
      hide Frames, FrameAt, Step;
      StepWrite(code, Abstract(), gpio);
      pc := pc + 1;
      if pc >= |code| { Stop(WriteLength); return; }
      var length := code[pc];
      pc := pc + 1;
      if pc + length > |code| { Stop(WriteData); return; }
      WriteText(code, length);
    }

    method ExecSleep(code: seq<byte>, ghost gpio: nat -> bool)
      requires Valid() && running && pc < |code| && code[pc] == SLEEP
      modifies this, operand, locals, saved, returnPc, baseSp
      ensures Valid() && Reached(Step(code, old(Abstract()), gpio))
    {
      pc := pc + 1;
      if pc + 2 > |code| { Stop(SleepOperand); return; }
      var milliseconds := Half(code[pc], code[pc + 1]);
      pc := pc + 2;
      trace := trace + [Slept(milliseconds)];
    }

    method ExecOther(code: seq<byte>, gpio: nat -> bool)
      requires Valid() && running && pc < |code|
      requires var op := code[pc]; op == GPIO || op == 0 || (op > POP && op != WRITE)
      modifies this, operand, locals, saved, returnPc, baseSp
      ensures Valid() && Reached(Step(code, old(Abstract()), gpio))
    {
      hide Frames, FrameAt;
      var opcode := code[pc];
      pc := pc + 1;
      if opcode == GPIO {
        if !gpio(|trace|) { Stop(GpioAccess); return; }
        trace := trace + [Toggled];
      } else if opcode == HALT {
        running, exitStatus := false, 0;
      } else {
        Stop(InvalidOpcode);
      }
    }

    static lemma SleepEvent(code: seq<byte>, s: State, gpio: nat -> bool)
      requires s.Valid() && s.pc < |code| && code[s.pc] == SLEEP
      ensures var r := Step(code, s, gpio); r.Running? ==> r.s.trace != [] && r.s.trace[|r.s.trace| - 1].Slept?
    {
    }

    /** One turn of the interpreter loop. */
    method Execute(code: seq<byte>, gpio: nat -> bool)
      requires Valid() && running
      modifies this, operand, locals, saved, returnPc, baseSp
      ensures Valid() && Reached(Step(code, old(Abstract()), gpio))
    {
      if pc >= |code| { Stop(PcOutOfRange); return; }
      hide Step, Abstract, Reached;
      var opcode := code[pc];
      if opcode == PUSH_I32 { ExecPush(code, gpio); }
      else if opcode == LOAD_LOCAL { ExecLoad(code, gpio); }
      else if opcode == STORE_LOCAL { ExecStore(code, gpio); }
      else if ADD <= opcode <= NE { ExecBinary(code, gpio); }
      else if opcode == CALL { ExecCall(code, gpio); }
      else if opcode == RET { ExecRet(code, gpio); }
      else if opcode == SLEEP { ExecSleep(code, gpio); }
      else if opcode == JMP { ExecJmp(code, gpio); }
      else if opcode == JZ { ExecJz(code, gpio); }
      else if opcode == PRINT_INT || opcode == POP { ExecPop(code, gpio); }
      else if opcode == WRITE { ExecWrite(code, gpio); }
      else { ExecOther(code, gpio); }
    }

    /** One scheduling slice: at most 64 instructions, ended early by a stop or a sleep. */
    method Slice(code: seq<byte>, gpio: nat -> bool) returns (steps: nat)
      requires Valid() && running
      modifies this, operand, locals, saved, returnPc, baseSp
      ensures Valid() && steps <= 64 && Reached(Run(code, old(Abstract()), gpio, steps))
      ensures steps == 64 || !running || (trace != [] && trace[|trace| - 1].Slept?)
    {
      hide Frames, FrameAt;
      steps := 0;
      ghost var start := Abstract();
      while steps < 64 && running
        invariant Valid() && steps <= 64 && Reached(Run(code, start, gpio, steps))
      {
        var slept := pc < |code| && code[pc] == SLEEP;
        ghost var s := Abstract();
        Execute(code, gpio);
        assert Reached(Run(code, start, gpio, steps + 1)) by { RunCompose(code, start, gpio, steps, 1); }
        steps := steps + 1;
        if slept && running {
          SleepEvent(code, s, gpio);
          break;
        }
      }
    }
  }
}
