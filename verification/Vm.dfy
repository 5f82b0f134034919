/** The HBC virtual machine. `Step` says what one instruction does to an abstract machine; class
    `Vm` is the interpreter over fixed arrays, proved to do exactly that. */
module Machine {
  import opened Common
  import opened Hbc

  /** What an application does that can be seen from outside. */
  datatype Event = Printed(v: i32) | Wrote(text: seq<byte>) | Slept(ms: nat) | Toggled

  datatype Frame = Frame(returnPc: nat, baseSp: nat, locals: seq<i32>)

  datatype State = State(pc: nat, stack: seq<i32>, locals: seq<i32>, frames: seq<Frame>, trace: seq<Event>) {
    ghost predicate Valid() {
      && |stack| <= STACK_SIZE && |locals| == LOCAL_COUNT && |frames| <= FRAME_COUNT
      && (forall k :: 0 <= k < |frames| ==> |frames[k].locals| == LOCAL_COUNT)
    }
  }

  datatype Cause =
    | PcOutOfRange | PushTrap | LoadTrap | StoreTrap | BinaryStack | DivideByZero
    | CallFrame | CallTarget | ReturnFrame | GpioAccess | SleepOperand
    | JumpOperand | JumpTarget | BranchStack | BranchTarget | PrintStack | PopStack
    | WriteLength | WriteData | InvalidOpcode

  datatype Outcome =
    | Running(s: State)
    | Exited(trace: seq<Event>)
    | Trapped(cause: Cause, trace: seq<Event>)

  /** Exit status reported for a trap. */
  function Status(c: Cause): nat {
    if c == DivideByZero then 136 else 126
  }

  const ZERO_LOCALS: seq<i32> := [0, 0, 0, 0, 0, 0, 0, 0]

  const RESET: State := State(0, [], ZERO_LOCALS, [], [])

  /** The value of a binary operator, `None` on division by zero. */
  datatype Result = Value(v: i32) | ZeroDivisor

  function Bool(b: bool): i32 {
    if b then 1 else 0
  }

  function Apply(op: BinOp, l: i32, r: i32): Result {
    match op
    case Add => Value(ToI32(l + r))
    case Sub => Value(ToI32(l - r))
    case Mul => Value(ToI32(l * r))
    case Div => if r == 0 then ZeroDivisor else Value(ToI32(TruncDiv(l, r)))
    case Lt => Value(Bool(l < r))
    case Le => Value(Bool(l <= r))
    case Gt => Value(Bool(l > r))
    case Ge => Value(Bool(l >= r))
    case Eq => Value(Bool(l == r))
    case Ne => Value(Bool(l != r))
  }

  /** Console output ends its line unless the text already does. */
  function Line(text: seq<byte>): seq<byte> {
    if text == [] || text[|text| - 1] != 10 then text + [13, 10] else text
  }

  function MalformedCause(code: seq<byte>, pc: nat): Cause
    requires pc < |code|
  {
    var op := code[pc];
    if op == PUSH_I32 then PushTrap
    else if op == LOAD_LOCAL then LoadTrap
    else if op == STORE_LOCAL then StoreTrap
    else if op == CALL then CallFrame
    else if op == SLEEP then SleepOperand
    else if op == JMP then JumpOperand
    else if op == JZ then BranchStack
    else if op == WRITE then if pc + 1 >= |code| then WriteLength else WriteData
    else InvalidOpcode
  }

  function Execute(i: Instr, next: nat, size: nat, s: State, gpio: nat -> bool): (r: Outcome)
    requires s.Valid()
    requires i.LoadLocal? || i.StoreLocal? ==> i.slot < LOCAL_COUNT
    ensures r.Running? ==> r.s.Valid()
  {
    var n := |s.stack|;
    match i
    case PushI32(v) =>
      if n >= STACK_SIZE then Trapped(PushTrap, s.trace) else Running(s.(pc := next, stack := s.stack + [v]))
    case LoadLocal(k) =>
      if n >= STACK_SIZE then Trapped(LoadTrap, s.trace)
      else Running(s.(pc := next, stack := s.stack + [s.locals[k]]))
    case StoreLocal(k) =>
      if n == 0 then Trapped(StoreTrap, s.trace)
      else Running(s.(pc := next, stack := s.stack[..n - 1], locals := s.locals[k := s.stack[n - 1]]))
    case Binary(op) =>
      if n < 2 then Trapped(BinaryStack, s.trace)
      else
        (match Apply(op, s.stack[n - 2], s.stack[n - 1])
         case ZeroDivisor => Trapped(DivideByZero, s.trace)
         case Value(v) => Running(s.(pc := next, stack := s.stack[..n - 2] + [v])))
    case Call(t) =>
      if |s.frames| >= FRAME_COUNT then Trapped(CallFrame, s.trace)
      else if t >= size then Trapped(CallTarget, s.trace)
      else Running(s.(pc := t, locals := ZERO_LOCALS, frames := s.frames + [Frame(next, n, s.locals)]))
    case Ret =>
      var d := |s.frames|;
      if d == 0 || n != s.frames[d - 1].baseSp + 1 then Trapped(ReturnFrame, s.trace)
      else Running(s.(pc := s.frames[d - 1].returnPc, locals := s.frames[d - 1].locals, frames := s.frames[..d - 1]))
    case Gpio =>
      if gpio(|s.trace|) then Running(s.(pc := next, trace := s.trace + [Toggled]))
      else Trapped(GpioAccess, s.trace)
    case Sleep(ms) => Running(s.(pc := next, trace := s.trace + [Slept(ms)]))
    case Jmp(t) => if t >= size then Trapped(JumpTarget, s.trace) else Running(s.(pc := t))
    case Jz(t) =>
      if n == 0 then Trapped(BranchStack, s.trace)
      else if s.stack[n - 1] != 0 then Running(s.(pc := next, stack := s.stack[..n - 1]))
      else if t >= size then Trapped(BranchTarget, s.trace)
      else Running(s.(pc := t, stack := s.stack[..n - 1]))
    case PrintInt =>
      if n == 0 then Trapped(PrintStack, s.trace)
      else Running(s.(pc := next, stack := s.stack[..n - 1], trace := s.trace + [Printed(s.stack[n - 1])]))
    case Pop =>
      if n == 0 then Trapped(PopStack, s.trace) else Running(s.(pc := next, stack := s.stack[..n - 1]))
    case Write(text) => Running(s.(pc := next, trace := s.trace + [Wrote(Line(text))]))
    case Halt => Exited(s.trace)
    case Marker => Trapped(InvalidOpcode, s.trace)
  }

  /** One instruction. `gpio(k)` tells whether a GPIO request made after k events is granted. */
  function Step(code: seq<byte>, s: State, gpio: nat -> bool): (r: Outcome)
    requires s.Valid()
    ensures r.Running? ==> r.s.Valid()
  {
    if s.pc >= |code| then Trapped(PcOutOfRange, s.trace)
    else
      match Decode(code, s.pc)
      case Malformed => Trapped(MalformedCause(code, s.pc), s.trace)
      case Fetched(i, next) => Execute(i, next, |code|, s, gpio)
  }

  /** At most n instructions. */
  function Run(code: seq<byte>, s: State, gpio: nat -> bool, n: nat): (r: Outcome)
    requires s.Valid()
    ensures r.Running? ==> r.s.Valid()
    decreases n
  {
    if n == 0 then Running(s)
    else
      var r := Step(code, s, gpio);
      if r.Running? then Run(code, r.s, gpio, n - 1) else r
  }

  lemma RunUnfolds(code: seq<byte>, s: State, gpio: nat -> bool, n: nat)
    requires s.Valid() && n > 0
    ensures var r := Step(code, s, gpio);
            Run(code, s, gpio, n) == if r.Running? then Run(code, r.s, gpio, n - 1) else r
  {
    hide Step;
  }

  lemma {:induction false} RunCompose(code: seq<byte>, s: State, gpio: nat -> bool, m: nat, n: nat)
    requires s.Valid()
    ensures var r := Run(code, s, gpio, m);
            Run(code, s, gpio, m + n) == if r.Running? then Run(code, r.s, gpio, n) else r
    decreases m
  {
    hide Step;
    if m > 0 {
      var r := Step(code, s, gpio);
      RunUnfolds(code, s, gpio, m);
      RunUnfolds(code, s, gpio, m + n);
      if r.Running? {
        RunCompose(code, r.s, gpio, m - 1, n);
      }
    }
  }
}
