/** Hala bytecode (HBC): the instruction set shared by the compiler, the verifier and the VM.
    The decoder below is the single definition of what a byte sequence means; the encoder is its
    inverse, and the compiler emits through it. */
module Hbc {
  import opened Common

  type i32 = v: int | -0x8000_0000 <= v < 0x8000_0000

  const MAX_CODE: nat := 256
  const STACK_SIZE: nat := 16
  const LOCAL_COUNT: nat := 8
  const FRAME_COUNT: nat := 4

  const PUSH_I32: byte := 0x01
  const LOAD_LOCAL: byte := 0x02
  const STORE_LOCAL: byte := 0x03
  const ADD: byte := 0x04
  const SUB: byte := 0x05
  const MUL: byte := 0x06
  const DIV: byte := 0x07
  const LT: byte := 0x08
  const LE: byte := 0x09
  const GT: byte := 0x0A
  const GE: byte := 0x0B
  const EQ: byte := 0x0C
  const NE: byte := 0x0D
  const CALL: byte := 0x0E
  const RET: byte := 0x0F
  const GPIO: byte := 0x10
  const SLEEP: byte := 0x11
  const JMP: byte := 0x12
  const JZ: byte := 0x13
  const PRINT_INT: byte := 0x14
  const POP: byte := 0x15
  const WRITE: byte := 0x20
  const HALT: byte := 0xFF

  datatype BinOp = Add | Sub | Mul | Div | Lt | Le | Gt | Ge | Eq | Ne

  datatype Instr =
    | PushI32(v: i32)
    | LoadLocal(slot: nat)
    | StoreLocal(slot: nat)
    | Binary(op: BinOp)
    | Call(target: nat)
    | Ret
    | Gpio
    | Sleep(ms: nat)
    | Jmp(target: nat)
    | Jz(target: nat)
    | PrintInt
    | Pop
    | Write(text: seq<byte>)
    | Halt
    | Marker

  datatype Fetch = Malformed | Fetched(instr: Instr, next: nat)

  // ---------- little-endian operands and 32-bit arithmetic ----------

  /** Two's complement reading of the low 32 bits of x. */
  function ToI32(x: int): i32 {
    Signed(x % 0x1_0000_0000)
  }

  function Signed(u: nat): i32
    requires u < 0x1_0000_0000
  {
    if u < 0x8000_0000 then u else u - 0x1_0000_0000
  }

  function ToU32(v: i32): (u: nat)
    ensures u < 0x1_0000_0000
  {
    if v < 0 then v + 0x1_0000_0000 else v
  }

  function Half(lo: byte, hi: byte): (h: nat)
    ensures h < 0x1_0000
  {
    lo + 0x100 * hi
  }

  function Word(b0: byte, b1: byte, b2: byte, b3: byte): (w: nat)
    ensures w < 0x1_0000_0000
  {
    b0 + 0x100 * b1 + 0x1_0000 * b2 + 0x100_0000 * b3
  }

  function HalfBytes(h: nat): (s: seq<byte>)
    ensures |s| == 2
    ensures h < 0x1_0000 ==> Half(s[0], s[1]) == h
  {
    [h % 0x100, h / 0x100 % 0x100]
  }

  lemma {:induction false} EmptyHalf()
    ensures HalfBytes(0) == [0, 0]
  {
  }

  lemma {:induction false} EmptyBytes(opcode: byte, operand: seq<byte>)
    requires operand == HalfBytes(0)
    ensures [opcode] + operand == [opcode, 0, 0]
  {
    hide HalfBytes;
    EmptyHalf();
  }

  /** A jump or call before it is patched. */
  lemma {:induction false} EmptyOperand(opcode: byte)
    ensures [opcode] + HalfBytes(0) == [opcode, 0, 0]
  {
    EmptyBytes(opcode, HalfBytes(0));
  }

  function WordBytes(v: i32): (s: seq<byte>)
    ensures |s| == 4
    ensures Signed(Word(s[0], s[1], s[2], s[3])) == v
  {
    var u := ToU32(v);
    var (q1, q2, q3) := (u / 0x100, u / 0x100 / 0x100, u / 0x100 / 0x100 / 0x100);
    assert u == u % 0x100 + 0x100 * q1 && q1 == q1 % 0x100 + 0x100 * q2 && q2 == q2 % 0x100 + 0x100 * q3;
    [u % 0x100, q1 % 0x100, q2 % 0x100, q3 % 0x100]
  }

  /** C's `/`: the quotient is rounded toward zero. */
  function TruncDiv(a: int, b: int): int
    requires b != 0
  {
    var q := Abs(a) / Abs(b);
    if (a < 0) == (b < 0) then q else -q
  }

  function Abs(a: int): nat {
    if a < 0 then -a else a
  }

  // ---------- opcodes ----------

  function OpcodeOf(op: BinOp): (b: byte)
    ensures ADD <= b <= NE && BinOpOf(b) == op
  {
    match op
    case Add => ADD case Sub => SUB case Mul => MUL case Div => DIV
    case Lt => LT case Le => LE case Gt => GT case Ge => GE case Eq => EQ case Ne => NE
  }

  function BinOpOf(b: byte): BinOp
    requires ADD <= b <= NE
  {
    if b == ADD then Add else if b == SUB then Sub else if b == MUL then Mul else if b == DIV then Div
    else if b == LT then Lt else if b == LE then Le else if b == GT then Gt else if b == GE then Ge
    else if b == EQ then Eq else Ne
  }

  predicate IsMarker(b: byte) {
    0x30 <= b <= 0x35
  }

  // ---------- decoding and encoding ----------

  function Decode(code: seq<byte>, pc: nat): (f: Fetch)
    requires pc < |code|
    ensures f.Fetched? ==> pc < f.next <= |code|
  {
    var op, size := code[pc], |code|;
    if op == PUSH_I32 then
      if pc + 5 > size then Malformed
      else Fetched(PushI32(Signed(Word(code[pc + 1], code[pc + 2], code[pc + 3], code[pc + 4]))), pc + 5)
    else if op == LOAD_LOCAL || op == STORE_LOCAL then
      if pc + 1 >= size || code[pc + 1] >= LOCAL_COUNT then Malformed
      else Fetched(if op == LOAD_LOCAL then LoadLocal(code[pc + 1]) else StoreLocal(code[pc + 1]), pc + 2)
    else if ADD <= op <= NE then Fetched(Binary(BinOpOf(op)), pc + 1)
    else if op == CALL || op == SLEEP || op == JMP || op == JZ then
      if pc + 3 > size then Malformed
      else
        var h := Half(code[pc + 1], code[pc + 2]);
        Fetched(if op == CALL then Call(h) else if op == SLEEP then Sleep(h)
                else if op == JMP then Jmp(h) else Jz(h), pc + 3)
    else if op == RET then Fetched(Ret, pc + 1)
    else if op == GPIO then Fetched(Gpio, pc + 1)
    else if op == PRINT_INT then Fetched(PrintInt, pc + 1)
    else if op == POP then Fetched(Pop, pc + 1)
    else if op == HALT then Fetched(Halt, pc + 1)
    else if op == WRITE then
      if pc + 1 >= size || pc + 2 + code[pc + 1] > size then Malformed
      else Fetched(Write(code[pc + 2..pc + 2 + code[pc + 1]]), pc + 2 + code[pc + 1])
    else if IsMarker(op) then Fetched(Marker, pc + 1)
    else Malformed
  }

  /** Instructions whose operands fit their encoding. */
  predicate Encodable(i: Instr) {
    match i
    case LoadLocal(slot) => slot < LOCAL_COUNT
    case StoreLocal(slot) => slot < LOCAL_COUNT
    case Call(t) => t < 0x1_0000
    case Sleep(ms) => ms < 0x1_0000
    case Jmp(t) => t < 0x1_0000
    case Jz(t) => t < 0x1_0000
    case Write(text) => |text| < 0x100
    case Marker => false
    case _ => true
  }

  function Width(i: Instr): (w: nat)
    ensures w > 0
  {
    match i
    case PushI32(_) => 5
    case LoadLocal(_) => 2
    case StoreLocal(_) => 2
    case Call(_) => 3
    case Sleep(_) => 3
    case Jmp(_) => 3
    case Jz(_) => 3
    case Write(text) => 2 + |text|
    case _ => 1
  }

  function Encode(i: Instr): (s: seq<byte>)
    ensures |s| == Width(i)
  {
    match i
    case PushI32(v) => [PUSH_I32] + WordBytes(v)
    case LoadLocal(slot) => [LOAD_LOCAL, slot % 0x100]
    case StoreLocal(slot) => [STORE_LOCAL, slot % 0x100]
    case Binary(op) => [OpcodeOf(op)]
    case Call(t) => [CALL] + HalfBytes(t)
    case Ret => [RET]
    case Gpio => [GPIO]
    case Sleep(ms) => [SLEEP] + HalfBytes(ms)
    case Jmp(t) => [JMP] + HalfBytes(t)
    case Jz(t) => [JZ] + HalfBytes(t)
    case PrintInt => [PRINT_INT]
    case Pop => [POP]
    case Write(text) => [WRITE, |text| % 0x100] + text
    case Halt => [HALT]
    case Marker => [0x30]
  }

  /** `part` is the piece of `code` that starts at `at`. */
  predicate At(code: seq<byte>, at: nat, part: seq<byte>) {
    at + |part| <= |code| && code[at..at + |part|] == part
  }

  lemma AtBound(code: seq<byte>, at: nat, part: seq<byte>)
    requires At(code, at, part)
    ensures at + |part| <= |code|
  {
  }

  lemma AtSplit(code: seq<byte>, at: nat, a: seq<byte>, b: seq<byte>)
    requires At(code, at, a + b)
    ensures At(code, at, a) && At(code, at + |a|, b)
  {
    var whole := code[at..at + |a + b|];
    assert code[at..at + |a|] == whole[..|a|] == a;
    assert code[at + |a|..at + |a| + |b|] == whole[|a|..] == b;
  }

  lemma AtSplit5(code: seq<byte>, at: nat, a: seq<byte>, b: seq<byte>, c: seq<byte>, d: seq<byte>, e: seq<byte>)
    requires At(code, at, a + b + c + d + e)
    ensures At(code, at, a) && At(code, at + |a|, b) && At(code, at + |a| + |b|, c)
    ensures At(code, at + |a| + |b| + |c|, d) && At(code, at + |a| + |b| + |c| + |d|, e)
  {
    AtSplit(code, at, a + b + c + d, e);
    AtSplit(code, at, a + b + c, d);
    AtSplit(code, at, a + b, c);
    AtSplit(code, at, a, b);
  }

  lemma DecodePush(code: seq<byte>, at: nat, v: i32)
    requires At(code, at, [PUSH_I32] + WordBytes(v))
    ensures Decode(code, at) == Fetched(PushI32(v), at + 5)
  {
    hide ToI32, Word, WordBytes;
    var w := WordBytes(v);
    assert forall k :: 0 <= k < 5 ==> code[at + k] == code[at..at + 5][k] == ([PUSH_I32] + w)[k];
    assert code[at + 1] == w[0] && code[at + 2] == w[1] && code[at + 3] == w[2] && code[at + 4] == w[3];
  }

  /** Decoding undoes encoding, wherever the instruction stands in the image. */
  lemma DecodeEncode(code: seq<byte>, at: nat, i: Instr)
    requires Encodable(i) && At(code, at, Encode(i))
    ensures Decode(code, at) == Fetched(i, at + Width(i))
  {
    var s := Encode(i);
    assert forall k :: 0 <= k < |s| ==> code[at + k] == code[at..at + |s|][k] == s[k];
    assert code[at] == s[0];
    match i {
      case PushI32(v) => DecodePush(code, at, v);
      case LoadLocal(slot) => assert code[at + 1] == s[1] == slot;
      case StoreLocal(slot) => assert code[at + 1] == s[1] == slot;
      case Binary(op) => assert s[0] == OpcodeOf(op);
      case Call(t) => DecodeHalf(code, at, CALL, t);
      case Sleep(t) => DecodeHalf(code, at, SLEEP, t);
      case Jmp(t) => DecodeHalf(code, at, JMP, t);
      case Jz(t) => DecodeHalf(code, at, JZ, t);
      case Write(text) =>
        assert code[at + 1] == s[1] == |text|;
        assert code[at + 2..at + 2 + |text|] == s[2..] == text;
      case Ret =>
      case Gpio =>
      case PrintInt =>
      case Pop =>
      case Halt =>
    }
  }

  lemma DecodeHalf(code: seq<byte>, at: nat, op: byte, h: nat)
    requires h < 0x1_0000 && At(code, at, [op] + HalfBytes(h))
    ensures code[at] == op && Half(code[at + 1], code[at + 2]) == h
  {
    var w := [op] + HalfBytes(h);
    assert forall k :: 0 <= k < 3 ==> code[at + k] == code[at..at + 3][k] == w[k];
    assert code[at + 1] == HalfBytes(h)[0] && code[at + 2] == HalfBytes(h)[1];
  }
}
