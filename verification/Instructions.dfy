/** The instruction set read off raw bytes: which bytes decode, what the verifier asks of them, what they
    compute, and exactly when they stop the machine. Opcodes and limits are written out as numbers. */
module Instructions {
  import opened Common
  import opened Hbc
  import opened Machine
  import opened Verifier
  import I = Interpreter

  // ---------- decoding ----------

  /** Bytes that an instruction with this first byte has in all. */
  function Extent(code: seq<byte>, pc: nat): nat
    requires pc < |code|
  {
    match code[pc]
    case 0x01 => 5
    case 0x02 => 2
    case 0x03 => 2
    case 0x0E => 3
    case 0x11 => 3
    case 0x12 => 3
    case 0x13 => 3
    case 0x20 => if pc + 1 < |code| then 2 + code[pc + 1] as int else 2
    case _ => 1
  }

  predicate Listed(b: byte) {
    0x01 <= b <= 0x15 || b == 0x20 || 0x30 <= b <= 0x35 || b == 0xFF
  }

  /** A byte sequence is malformed at pc exactly when its first byte is none of the listed opcodes, the operand is
      cut short, or a local is 8 or above; otherwise the instruction takes all its bytes. */
  lemma DecodesExactly(code: seq<byte>, pc: nat)
    requires pc < |code|
    ensures Decode(code, pc).Malformed? <==>
              || !Listed(code[pc]) || pc + Extent(code, pc) > |code|
              || (code[pc] in {0x02, 0x03} && code[pc + 1] >= 8)
    ensures Decode(code, pc).Fetched? ==> Decode(code, pc).next == pc + Extent(code, pc)
  {
    hide Half, Word, Signed, BinOpOf;
  }

  lemma MarkerFlow(b: byte)
    requires 0x30 <= b <= 0x35
    ensures var code := [b, 0xFF];
            && Decodes(code, 0) && (forall at :: IsStart(code, at) ==> InstrAt(code, at) in {Marker, Halt})
  {
    var code := [b, 0xFF];
    assert Decode(code, 0) == Fetched(Marker, 1) && Decode(code, 1) == Fetched(Halt, 2);
    assert Decodes(code, 2) && Decodes(code, 1);
    forall at | IsStart(code, at) ensures InstrAt(code, at) in {Marker, Halt} { assert at == 0 || at == 1; }
  }

  /** The images of the marker applications are accepted. */
  lemma MarkersAreAccepted(b: byte)
    requires 0x30 <= b <= 0x35
    ensures Acceptable([b, 0xFF])
  {
    hide Decode, Decodes, IsStart;
    var code, depth := [b, 0xFF], [0, 0];
    MarkerFlow(b);
    MarkerStarts(b);
    assert Consistent(code, depth);
  }

  lemma MarkerStarts(b: byte)
    requires 0x30 <= b <= 0x35
    ensures var code := [b, 0xFF];
            IsStart(code, 0) && IsStart(code, 1) && FlowOk(code, [0, 0], 0) && FlowOk(code, [0, 0], 1)
  {
    var code := [b, 0xFF];
    assert Decode(code, 0) == Fetched(Marker, 1) && Decode(code, 1) == Fetched(Halt, 2);
    assert Start(code, 1, 1) && Start(code, 0, 1);
  }

  // ---------- what the verifier's depths mean to the machine ----------

  /** An instruction other than a call, return, halt or marker, not stopped for another reason, runs at a height
      exactly when the verifier allows it at that depth, and leaves the height the verifier computes. */
  lemma DepthsAreHeights(i: Instr, next: nat, size: nat, s: State, gpio: nat -> bool)
    requires s.Valid() && (i.LoadLocal? || i.StoreLocal? ==> i.slot < LOCAL_COUNT)
    requires !i.Call? && !i.Ret? && !i.Halt? && !i.Marker? && (i.Jmp? || i.Jz? ==> i.target < size)
    requires (i.Gpio? ==> gpio(|s.trace|)) && (i == Binary(Div) && |s.stack| > 0 ==> s.stack[|s.stack| - 1] != 0)
    ensures var r := Execute(i, next, size, s, gpio);
            && (r.Running? <==> 0 <= Effect(i, |s.stack|) <= 16)
            && (r.Running? ==> |r.s.stack| == Effect(i, |s.stack|))
            && (r.Running? && r.s.pc != next ==> (i.Jmp? || i.Jz?) && r.s.pc == i.target)
  {
    hide ToI32, TruncDiv, Line;
  }

  /** A call and its return change the height of the calling frame by the verifier's effect of the call. */
  lemma CallsPushOne(i: Instr, next: nat, size: nat, s: State, gpio: nat -> bool, result: i32, trace: seq<Event>)
    requires s.Valid() && i.Call? && i.target < size && |s.frames| < 4 && |s.stack| < 16
    ensures var r := Execute(i, next, size, s, gpio);
            && r.Running? && |r.s.frames| == |s.frames| + 1 && r.s.pc == i.target
            && r.s.locals == [0, 0, 0, 0, 0, 0, 0, 0] && r.s.stack == s.stack
            && var inside := r.s.(stack := s.stack + [result], trace := trace);
               && Effect(i, |s.stack|) == |s.stack| + 1 && Effect(Ret, 1) == 1
               && Execute(Ret, next, size, inside, gpio) ==
                    Running(s.(pc := next, stack := s.stack + [result], trace := trace))
  {
    var r := Execute(i, next, size, s, gpio).s;
    assert r.frames[..|s.frames|] == s.frames;
  }

  /** Where the verifier's depths flow, by opcode: to the target of a jump or branch, and on unless the
      instruction is a return, jump or halt. A marker or halt is allowed at every depth, a return at depth 1. */
  lemma FlowMeans(code: seq<byte>, depth: seq<int>, at: nat)
    requires |depth| == |code| && IsStart(code, at) && 0 <= depth[at] <= 16
    ensures var out := Effect(InstrAt(code, at), depth[at]);
            && (code[at] >= 0x30 ==> out == depth[at])
            && (code[at] == 0x0F ==> (out >= 0 <==> depth[at] == 1))
            && (FlowOk(code, depth, at) <==>
                  && 0 <= out <= 16
                  && (code[at] in {0x12, 0x13} ==>
                        OperandAt(code, at) < |code| && depth[OperandAt(code, at)] == out)
                  && (code[at] !in {0x0F, 0x12, 0xFF} && at + Extent(code, at) < |code| ==>
                        depth[at + Extent(code, at)] == out))
  {
    hide Word, Signed, BinOpOf;
    DecodesExactly(code, at);
  }

  // ---------- what an operator computes ----------

  /** m is the remainder of l by r for the quotient q rounded toward zero. */
  predicate Truncated(l: int, r: int, q: int) {
    var m := l - q * r;
    Abs(m) < Abs(r) && (m == 0 || (m < 0 <==> l < 0))
  }

  /** The value v that opcode b gives for operands l (below) and r (on top). */
  predicate Gives(b: byte, l: int, r: int, v: int) {
    match b
    case 0x04 => (v - (l + r)) % 0x1_0000_0000 == 0
    case 0x05 => (v - (l - r)) % 0x1_0000_0000 == 0
    case 0x06 => (v - l * r) % 0x1_0000_0000 == 0
    case 0x07 => r != 0 && if l == -0x8000_0000 && r == -1 then v == -0x8000_0000 else Truncated(l, r, v)
    case 0x08 => v == if l < r then 1 else 0
    case 0x09 => v == if l <= r then 1 else 0
    case 0x0A => v == if l > r then 1 else 0
    case 0x0B => v == if l >= r then 1 else 0
    case 0x0C => v == if l == r then 1 else 0
    case 0x0D => v == if l != r then 1 else 0
    case _ => false
  }

  lemma Congruent(x: int)
    ensures (ToI32(x) - x) % 0x1_0000_0000 == 0
  {
    var k := x / 0x1_0000_0000;
    assert x == 0x1_0000_0000 * k + x % 0x1_0000_0000;
    var d := ToI32(x) - x;
    assert d == 0x1_0000_0000 * -k || d == 0x1_0000_0000 * (-k - 1);
    Multiple(-k);
    Multiple(-k - 1);
  }

  lemma Multiple(k: int)
    ensures (0x1_0000_0000 * k) % 0x1_0000_0000 == 0
  {
  }

  lemma TruncDivTruncates(l: int, r: int)
    requires r != 0
    ensures Truncated(l, r, TruncDiv(l, r))
  {
    var a: int, b: int := Abs(l), Abs(r);
    var q: int := a / b;
    assert a == b * q + a % b;
    assert (-q) * (-b) == b * q && q * b == b * q && (-q) * b == -(b * q) && q * (-b) == -(b * q);
  }

  /** On two operands every operator of the instruction set gives the value it should, and only a division by
      zero stops the machine, with status 136. */
  lemma OperatorsMean(code: seq<byte>, s: State, gpio: nat -> bool)
    requires s.Valid() && s.pc < |code| && 0x04 <= code[s.pc] <= 0x0D && |s.stack| >= 2
    ensures var n, r := |s.stack|, Step(code, s, gpio); var left, right := s.stack[n - 2], s.stack[n - 1];
            if code[s.pc] == 0x07 && right == 0 then r == Trapped(DivideByZero, s.trace) && Status(r.cause) == 136
            else r.Running? && r.s == s.(pc := s.pc + 1, stack := r.s.stack) && |r.s.stack| == n - 1
                 && r.s.stack[..n - 2] == s.stack[..n - 2] && Gives(code[s.pc], left, right, r.s.stack[n - 2])
  {
    hide ToI32, TruncDiv, Truncated;
    var n := |s.stack|;
    ApplyGives(code[s.pc], s.stack[n - 2], s.stack[n - 1]);
    hide Apply, Gives;
    I.StepBinary(code, s, gpio);
  }

  lemma ApplyGives(b: byte, l: i32, r: i32)
    requires 0x04 <= b <= 0x0D
    ensures var v := Apply(BinOpOf(b), l, r);
            (v == ZeroDivisor <==> b == 0x07 && r == 0) && (v.Value? ==> Gives(b, l, r, v.v))
  {
    hide ToI32, TruncDiv, Truncated;
    var left: int, right: int := l, r;
    Congruent(left + right);
    Congruent(left - right);
    Congruent(left * right);
    if r != 0 && !(l == -0x8000_0000 && r == -1) {
      TruncDivTruncates(l, r);
      I.QuotientFits(l, r);
    }
    I.OverflowingQuotient();
  }

  /** Values that an operator gives are unique. */
  lemma GivesOne(b: byte, l: int, r: int, v: i32, w: i32)
    requires Gives(b, l, r, v) && Gives(b, l, r, w)
    ensures v == w
  {
    if b == 0x04 { SameResidue(v, w, l + r); }
    if b == 0x05 { SameResidue(v, w, l - r); }
    if b == 0x06 { SameResidue(v, w, l * r); }
    if b == 0x07 && !(l == -0x8000_0000 && r == -1) { OneQuotient(l, r, v, w); }
  }

  lemma SameResidue(v: i32, w: i32, x: int)
    requires (v - x) % 0x1_0000_0000 == 0 && (w - x) % 0x1_0000_0000 == 0
    ensures v == w
  {
    var a, b := (v - x) / 0x1_0000_0000, (w - x) / 0x1_0000_0000;
    assert v - w == 0x1_0000_0000 * (a - b);
  }

  lemma OneQuotient(l: int, r: int, p: int, q: int)
    requires r != 0 && Truncated(l, r, p) && Truncated(l, r, q)
    ensures p == q
  {
    Close(l, p * r, q * r, r);
    Distribute(p, q, r);
    if r > 0 { SmallMultiple(q - p, r); } else { SmallMultiple(p - q, -r); }
  }

  lemma Close(l: int, x: int, y: int, r: int)
    requires Abs(l - x) < Abs(r) && Abs(l - y) < Abs(r)
    requires (l - x == 0 || (l - x < 0 <==> l < 0)) && (l - y == 0 || (l - y < 0 <==> l < 0))
    ensures Abs(y - x) < Abs(r)
  {
  }

  lemma Distribute(p: int, q: int, r: int)
    ensures (q - p) * r == q * r - p * r == (p - q) * -r
  {
  }

  lemma SmallMultiple(d: int, b: int)
    requires -b < d * b < b
    ensures d == 0
  {
    if d > 0 { Grows(d, b); }
    if d < 0 {
      assert -d * b == -(d * b);
      Grows(-d, b);
    }
  }

  lemma {:induction false} Grows(d: int, b: int)
    requires d > 0 && b >= 0
    ensures d * b >= b
    decreases d
  {
    assert d * b == (d - 1) * b + b;
    if d > 1 { Grows(d - 1, b); }
  }

  // ---------- when the machine stops ----------

  /** Height at which the running function started. */
  function Floor(s: State): nat {
    if s.frames == [] then 0 else s.frames[|s.frames| - 1].baseSp
  }

  function OperandAt(code: seq<byte>, pc: nat): nat
    requires pc + 2 < |code|
  {
    var lo: nat, hi: nat := code[pc + 1], code[pc + 2];
    lo + 256 * hi
  }

  /** The four operand bytes, the lowest first. */
  function WordOperand(code: seq<byte>, pc: nat): nat
    requires pc + 4 < |code|
  {
    var b0: nat, b1: nat, b2: nat, b3: nat := code[pc + 1], code[pc + 2], code[pc + 3], code[pc + 4];
    b0 + 0x100 * b1 + 0x1_0000 * b2 + 0x100_0000 * b3
  }

  /** The raw reasons for which an instruction cannot run. */
  predicate Stuck(code: seq<byte>, s: State, gpio: nat -> bool)
    requires s.pc < |code|
  {
    var n, cut := |s.stack|, s.pc + Extent(code, s.pc) > |code|;
    match code[s.pc]
    case 0x01 => cut || n >= 16
    case 0x02 => cut || code[s.pc + 1] >= 8 || n >= 16
    case 0x03 => cut || code[s.pc + 1] >= 8 || n == 0
    case 0x0E => cut || |s.frames| >= 4 || OperandAt(code, s.pc) >= |code|
    case 0x0F => s.frames == [] || n != Floor(s) + 1
    case 0x10 => !gpio(|s.trace|)
    case 0x11 => cut
    case 0x12 => cut || OperandAt(code, s.pc) >= |code|
    case 0x13 => cut || n == 0 || (s.stack[n - 1] == 0 && OperandAt(code, s.pc) >= |code|)
    case 0x14 => n == 0
    case 0x15 => n == 0
    case 0x20 => cut
    case _ => !(0x04 <= code[s.pc] <= 0x0D) || n < 2 || (code[s.pc] == 0x07 && s.stack[n - 1] == 0)
  }

  /** The machine goes on exactly where nothing is in its way, ends exactly at 0xFF, and reports 136 exactly for
      a division by zero. */
  lemma StopsExactly(code: seq<byte>, s: State, gpio: nat -> bool)
    requires s.Valid()
    ensures var r := Step(code, s, gpio);
            && (r.Exited? <==> s.pc < |code| && code[s.pc] == 0xFF)
            && (r.Running? <==> s.pc < |code| && !Stuck(code, s, gpio))
            && (r.Trapped? ==>
                  Status(r.cause) == if s.pc < |code| && code[s.pc] == 0x07 && |s.stack| >= 2 then 136 else 126)
  {
    hide ToI32, TruncDiv, Word, Signed, Line;
  }

  /** What the instructions that are no operators do to the state when they run. */
  lemma EffectsMean(code: seq<byte>, s: State, gpio: nat -> bool)
    requires s.Valid() && s.pc < |code| && code[s.pc] != 0xFF && !(0x04 <= code[s.pc] <= 0x0D)
    requires !Stuck(code, s, gpio)
    ensures var r, n, next := Step(code, s, gpio), |s.stack|, s.pc + Extent(code, s.pc);
            && r.Running?
            && match code[s.pc]
               case 0x01 =>
                 && |r.s.stack| == n + 1 && r.s == s.(pc := next, stack := s.stack + [r.s.stack[n]])
                 && (r.s.stack[n] - WordOperand(code, s.pc)) % 0x1_0000_0000 == 0
               case 0x02 => r.s == s.(pc := next, stack := s.stack + [s.locals[code[s.pc + 1]]])
               case 0x03 => r.s == s.(pc := next, stack := s.stack[..n - 1],
                                      locals := s.locals[code[s.pc + 1] := s.stack[n - 1]])
               case 0x0E => r.s == s.(pc := OperandAt(code, s.pc), locals := [0, 0, 0, 0, 0, 0, 0, 0],
                                      frames := s.frames + [Frame(next, n, s.locals)])
               case 0x0F => var f := s.frames[|s.frames| - 1];
                 r.s == s.(pc := f.returnPc, locals := f.locals, frames := s.frames[..|s.frames| - 1])
               case 0x10 => r.s == s.(pc := next, trace := s.trace + [Toggled])
               case 0x11 => r.s == s.(pc := next, trace := s.trace + [Slept(OperandAt(code, s.pc))])
               case 0x12 => r.s == s.(pc := OperandAt(code, s.pc))
               case 0x13 => r.s == s.(pc := if s.stack[n - 1] == 0 then OperandAt(code, s.pc) else next,
                                      stack := s.stack[..n - 1])
               case 0x14 => r.s == s.(pc := next, stack := s.stack[..n - 1],
                                      trace := s.trace + [Printed(s.stack[n - 1])])
               case 0x15 => r.s == s.(pc := next, stack := s.stack[..n - 1])
               case _ => r.s == s.(pc := next, trace := s.trace + [Wrote(Line(code[s.pc + 2..next]))])
  {
    hide Line, Signed, Word;
    if code[s.pc] == 0x01 { PushMeans(code, s.pc); }
  }

  lemma PushMeans(code: seq<byte>, pc: nat)
    requires pc + 5 <= |code|
    ensures var v := Signed(Word(code[pc + 1], code[pc + 2], code[pc + 3], code[pc + 4]));
            (v - WordOperand(code, pc)) % 0x1_0000_0000 == 0
  {
    Congruent(WordOperand(code, pc));
  }

  // ---------- what WRITE puts on the console ----------

  /** The text comes first and the console line is ended: by the text's own newline, or else by CR LF. */
  lemma LineEnds(text: seq<byte>)
    ensures text <= Line(text) && Line(text) != [] && Line(text)[|Line(text)| - 1] == 10
    ensures Line(text) == text <==> text != [] && text[|text| - 1] == 10
    ensures Line(text) != text ==> Line(text)[|text|..] == [13, 10]
  {
    if Line(text) == text + [13, 10] { assert (text + [13, 10])[|text|..] == [13, 10]; }
  }

  /** `hi` gets its line end, `hi` with a newline does not get a second one. */
  lemma LinesOfHi()
    ensures Line([104, 105]) == [104, 105, 13, 10] && Line([104, 105, 10]) == [104, 105, 10] && Line([]) == [13, 10]
  {
  }
}
