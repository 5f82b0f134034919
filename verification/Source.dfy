/** Hala-C: tokens, the grammar as syntax trees with their spelling, and a big-step semantics.
    The compiler itself builds no tree; trees are the reference against which it is judged. */
module Source {
  import opened Common
  import opened Hbc
  import opened Machine

  type Name = seq<byte>

  datatype Token =
    | TkEof | TkInt | TkReturn | TkIf | TkElse | TkWhile | TkWrite | TkPrint | TkSleep | TkGpio
    | TkIdent(name: Name) | TkNumber(value: i32) | TkString(raw: seq<byte>)
    | TkLParen | TkRParen | TkLBrace | TkRBrace | TkSemi | TkComma | TkAssign
    | TkPlus | TkMinus | TkStar | TkSlash | TkLt | TkLe | TkGt | TkGe | TkEq | TkNe

  datatype Expr =
    | Num(v: i32)
    | Var(name: Name)
    | CallExpr(name: Name)
    | Paren(e: Expr)
    | Neg(e: Expr)
    | Bin(op: BinOp, l: Expr, r: Expr)

  datatype Stmt =
    | Declare(name: Name)
    | DeclareInit(name: Name, e: Expr)
    | Assign(name: Name, e: Expr)
    | Return(e: Expr)
    | If(cond: Expr, thn: Stmts)
    | IfElse(cond: Expr, thn: Stmts, els: Stmts)
    | While(cond: Expr, body: Stmts)
    | WriteString(raw: seq<byte>, length: Option<i32>)
    | PrintExpr(e: Expr)
    | SleepFor(ms: i32)
    | ToggleGpio
    | Block(body: Stmts)
    | CallStmt(name: Name)

  datatype Stmts = Nil | Cons(head: Stmt, tail: Stmts)

  datatype Function = Function(name: Name, body: Stmts)

  type Program = seq<Function>

  // ---------- grammar: levels and spelling ----------

  function OpToken(op: BinOp): Token {
    match op
    case Add => TkPlus case Sub => TkMinus case Mul => TkStar case Div => TkSlash
    case Lt => TkLt case Le => TkLe case Gt => TkGt case Ge => TkGe case Eq => TkEq case Ne => TkNe
  }

  predicate IsMulOp(op: BinOp) { op.Mul? || op.Div? }

  predicate IsAddOp(op: BinOp) { op.Add? || op.Sub? }

  predicate IsPrimary(e: Expr)
    decreases e, 0
  {
    match e
    case Num(_) => true
    case Var(_) => true
    case CallExpr(_) => true
    case Paren(i) => IsExpression(i)
    case Neg(i) => IsPrimary(i)
    case Bin(_, _, _) => false
  }

  predicate IsFactor(e: Expr)
    decreases e, 1
  {
    if e.Bin? && IsMulOp(e.op) then IsFactor(e.l) && IsPrimary(e.r) else IsPrimary(e)
  }

  predicate IsTerm(e: Expr)
    decreases e, 2
  {
    if e.Bin? && IsAddOp(e.op) then IsTerm(e.l) && IsFactor(e.r) else IsFactor(e)
  }

  /** At most one comparison; `*` and `/` bind tighter than `+` and `-`; all associate to the left. */
  predicate IsExpression(e: Expr)
    decreases e, 3
  {
    if e.Bin? && !IsAddOp(e.op) && !IsMulOp(e.op) then IsTerm(e.l) && IsTerm(e.r) else IsTerm(e)
  }

  function SpellE(e: Expr): seq<Token> {
    match e
    case Num(v) => [TkNumber(v)]
    case Var(n) => [TkIdent(n)]
    case CallExpr(n) => [TkIdent(n), TkLParen, TkRParen]
    case Paren(i) => [TkLParen] + SpellE(i) + [TkRParen]
    case Neg(i) => [TkMinus] + SpellE(i)
    case Bin(op, l, r) => SpellE(l) + [OpToken(op)] + SpellE(r)
  }

  function SpellS(s: Stmt): (r: seq<Token>)
    ensures r != []
    decreases s, 0
  {
    match s
    case Declare(n) => [TkInt, TkIdent(n), TkSemi]
    case DeclareInit(n, e) => [TkInt, TkIdent(n), TkAssign] + SpellE(e) + [TkSemi]
    case Assign(n, e) => [TkIdent(n), TkAssign] + SpellE(e) + [TkSemi]
    case Return(e) => [TkReturn] + SpellE(e) + [TkSemi]
    case If(c, t) => [TkIf, TkLParen] + SpellE(c) + [TkRParen] + SpellBlock(t)
    case IfElse(c, t, e) => [TkIf, TkLParen] + SpellE(c) + [TkRParen] + SpellBlock(t) + [TkElse] + SpellBlock(e)
    case While(c, b) => [TkWhile, TkLParen] + SpellE(c) + [TkRParen] + SpellBlock(b)
    case WriteString(raw, None) => [TkWrite, TkLParen, TkNumber(1), TkComma, TkString(raw), TkRParen, TkSemi]
    case WriteString(raw, Some(n)) =>
      [TkWrite, TkLParen, TkNumber(1), TkComma, TkString(raw), TkComma, TkNumber(n), TkRParen, TkSemi]
    case PrintExpr(e) => [TkPrint, TkLParen] + SpellE(e) + [TkRParen, TkSemi]
    case SleepFor(ms) => [TkSleep, TkLParen, TkNumber(ms), TkRParen, TkSemi]
    case ToggleGpio => [TkGpio, TkLParen, TkRParen, TkSemi]
    case Block(b) => SpellBlock(b)
    case CallStmt(n) => [TkIdent(n), TkLParen, TkRParen, TkSemi]
  }

  function SpellBlock(ss: Stmts): seq<Token>
    decreases ss, 1
  {
    [TkLBrace] + SpellSs(ss) + [TkRBrace]
  }

  function SpellSs(ss: Stmts): seq<Token>
    decreases ss, 0
  {
    match ss
    case Nil => []
    case Cons(h, t) => SpellS(h) + SpellSs(t)
  }

  function SpellF(f: Function): seq<Token> {
    [TkInt, TkIdent(f.name), TkLParen, TkRParen] + SpellBlock(f.body)
  }

  function SpellProgram(p: Program): seq<Token> {
    if p == [] then [] else SpellF(p[0]) + SpellProgram(p[1..])
  }

  // ---------- string literals ----------

  function Escape(c: byte): Option<byte> {
    if c == 110 then Some(10)        // n
    else if c == 114 then Some(13)   // r
    else if c == 116 then Some(9)    // t
    else if c == 34 then Some(34)    // double quote
    else if c == 92 then Some(92)    // backslash
    else None
  }

  /** The bytes a literal stands for; `None` if an escape is unknown or cut short. */
  function Unescape(raw: seq<byte>): (r: Option<seq<byte>>)
    ensures r.Some? ==> |r.value| <= |raw|
  {
    if raw == [] then Some([])
    else if raw[0] != 92 then
      var rest := Unescape(raw[1..]);
      if rest.Some? then Some([raw[0]] + rest.value) else None
    else if |raw| == 1 || Escape(raw[1]).None? then None
    else
      var rest := Unescape(raw[2..]);
      if rest.Some? then Some([Escape(raw[1]).value] + rest.value) else None
  }

  function Text(raw: seq<byte>): seq<byte> {
    var u := Unescape(raw);
    if u.Some? then u.value else []
  }

  // ---------- static facts ----------

  /** Names declared, in order: the function's slots. Blocks do not close scopes. */
  function DeclaredS(s: Stmt): seq<Name> {
    match s
    case Declare(n) => [n]
    case DeclareInit(n, _) => [n]
    case If(_, t) => DeclaredSs(t)
    case IfElse(_, t, e) => DeclaredSs(t) + DeclaredSs(e)
    case While(_, b) => DeclaredSs(b)
    case Block(b) => DeclaredSs(b)
    case _ => []
  }

  function DeclaredSs(ss: Stmts): seq<Name> {
    match ss
    case Nil => []
    case Cons(h, t) => DeclaredS(h) + DeclaredSs(t)
  }

  /** Every variable used is one of `names`. */
  predicate BoundE(e: Expr, names: seq<Name>) {
    match e
    case Var(n) => n in names
    case Paren(i) => BoundE(i, names)
    case Neg(i) => BoundE(i, names)
    case Bin(_, l, r) => BoundE(l, names) && BoundE(r, names)
    case _ => true
  }

  /** Well formed beyond its spelling: grammar levels, bound variables, literals in range. */
  predicate WellFormedE(e: Expr, names: seq<Name>) {
    IsExpression(e) && BoundE(e, names)
  }

  predicate WellFormedS(s: Stmt, names: seq<Name>) {
    match s
    case Declare(n) => n in names
    case DeclareInit(n, e) => n in names && WellFormedE(e, names)
    case Assign(n, e) => n in names && WellFormedE(e, names)
    case Return(e) => WellFormedE(e, names)
    case If(c, t) => WellFormedE(c, names) && WellFormedSs(t, names)
    case IfElse(c, t, e) => WellFormedE(c, names) && WellFormedSs(t, names) && WellFormedSs(e, names)
    case While(c, b) => WellFormedE(c, names) && WellFormedSs(b, names)
    case WriteString(raw, _) => Unescape(raw).Some?
    case PrintExpr(e) => WellFormedE(e, names)
    case SleepFor(ms) => 0 <= ms < 0x1_0000
    case ToggleGpio => true
    case Block(b) => WellFormedSs(b, names)
    case CallStmt(_) => true
  }

  predicate WellFormedSs(ss: Stmts, names: seq<Name>) {
    match ss
    case Nil => true
    case Cons(h, t) => WellFormedS(h, names) && WellFormedSs(t, names)
  }

  predicate WellFormedF(f: Function) {
    |DeclaredSs(f.body)| <= LOCAL_COUNT && WellFormedSs(f.body, DeclaredSs(f.body))
  }

  /** The statement cannot complete: every path through it returns. */
  predicate AlwaysReturnsS(s: Stmt) {
    match s
    case Return(_) => true
    case IfElse(_, t, e) => AlwaysReturns(t) && AlwaysReturns(e)
    case Block(b) => AlwaysReturns(b)
    case _ => false
  }

  predicate AlwaysReturns(ss: Stmts) {
    match ss
    case Nil => false
    case Cons(h, t) => AlwaysReturnsS(h) || AlwaysReturns(t)
  }

  predicate Defined(p: Program, n: Name) {
    p != [] && (p[0].name == n || Defined(p[1..], n))
  }

  function BodyOf(p: Program, n: Name): Stmts {
    if p == [] then Nil else if p[0].name == n then p[0].body else BodyOf(p[1..], n)
  }

  /** Every function called is one of `names`. */
  predicate CallsOnlyE(e: Expr, names: set<Name>) {
    match e
    case CallExpr(n) => n in names
    case Paren(i) => CallsOnlyE(i, names)
    case Neg(i) => CallsOnlyE(i, names)
    case Bin(_, l, r) => CallsOnlyE(l, names) && CallsOnlyE(r, names)
    case _ => true
  }

  predicate CallsOnlyS(s: Stmt, names: set<Name>) {
    match s
    case DeclareInit(_, e) => CallsOnlyE(e, names)
    case Assign(_, e) => CallsOnlyE(e, names)
    case Return(e) => CallsOnlyE(e, names)
    case PrintExpr(e) => CallsOnlyE(e, names)
    case If(c, t) => CallsOnlyE(c, names) && CallsOnly(t, names)
    case IfElse(c, t, e) => CallsOnlyE(c, names) && CallsOnly(t, names) && CallsOnly(e, names)
    case While(c, b) => CallsOnlyE(c, names) && CallsOnly(b, names)
    case Block(b) => CallsOnly(b, names)
    case CallStmt(n) => n in names
    case _ => true
  }

  predicate CallsOnly(ss: Stmts, names: set<Name>) {
    match ss
    case Nil => true
    case Cons(h, t) => CallsOnlyS(h, names) && CallsOnly(t, names)
  }

  // ---------- big-step semantics ----------

  type Store = map<Name, i32>

  /** A variable never assigned holds 0: a frame starts with zeroed locals. */
  function Get(store: Store, n: Name): i32 {
    if n in store then store[n] else 0
  }

  datatype Flow =
    | Gave(v: i32, trace: seq<Event>)          // an expression's value, or a returned value
    | Went(store: Store, trace: seq<Event>)    // a statement completed
    | Stuck(cause: Cause, trace: seq<Event>)   // the program is stopped
    | Starved                                  // fuel exhausted: says nothing

  /** `height` counts the operands pending in the machine-wide stack of STACK_SIZE cells, `depth` the
      active calls, `gpio(k)` the answer to a GPIO request made after k events. Fuel bounds loop turns
      and calls; it is not part of the language. */
  function Eval(p: Program, e: Expr, store: Store, height: nat, depth: nat, trace: seq<Event>, gpio: nat -> bool,
                fuel: nat): (r: Flow)
    ensures !r.Went?
    decreases fuel, 1, e
  {
    match e
    case Num(v) => if height >= STACK_SIZE then Stuck(PushTrap, trace) else Gave(v, trace)
    case Var(n) => if height >= STACK_SIZE then Stuck(LoadTrap, trace) else Gave(Get(store, n), trace)
    case CallExpr(n) => Invoke(p, n, height, depth, trace, gpio, fuel)
    case Paren(i) => Eval(p, i, store, height, depth, trace, gpio, fuel)
    case Neg(i) =>
      if height >= STACK_SIZE then Stuck(PushTrap, trace)
      else
        var r := Eval(p, i, store, height + 1, depth, trace, gpio, fuel);
        if r.Gave? then Gave(ToI32(0 - r.v), r.trace) else r
    case Bin(op, l, r) =>
      var a := Eval(p, l, store, height, depth, trace, gpio, fuel);
      if !a.Gave? then a
      else
        var b := Eval(p, r, store, height + 1, depth, a.trace, gpio, fuel);
        if !b.Gave? then b
        else
          (match Apply(op, a.v, b.v)
           case ZeroDivisor => Stuck(DivideByZero, b.trace)
           case Value(v) => Gave(v, b.trace))
  }

  /** A call: fresh locals, four nested calls at most, 0 if the body ends without `return`. */
  function Invoke(p: Program, n: Name, height: nat, depth: nat, trace: seq<Event>, gpio: nat -> bool,
                  fuel: nat): (r: Flow)
    ensures !r.Went?
    decreases fuel, 0, 0
  {
    if depth >= FRAME_COUNT then Stuck(CallFrame, trace)
    else if fuel == 0 then Starved
    else
      var r := ExecAll(p, BodyOf(p, n), map[], height, depth + 1, trace, gpio, fuel - 1);
      if r.Went? then
        if height >= STACK_SIZE then Stuck(PushTrap, r.trace) else Gave(0, r.trace)
      else r
  }

  function Exec(p: Program, s: Stmt, store: Store, height: nat, depth: nat, trace: seq<Event>, gpio: nat -> bool,
                fuel: nat): Flow
    decreases fuel, 2, s
  {
    match s
    case Declare(n) => if height >= STACK_SIZE then Stuck(PushTrap, trace) else Went(store[n := 0], trace)
    case DeclareInit(n, e) =>
      var r := Eval(p, e, store, height, depth, trace, gpio, fuel);
      if r.Gave? then Went(store[n := r.v], r.trace) else r
    case Assign(n, e) =>
      var r := Eval(p, e, store, height, depth, trace, gpio, fuel);
      if r.Gave? then Went(store[n := r.v], r.trace) else r
    case Return(e) => Eval(p, e, store, height, depth, trace, gpio, fuel)
    case If(c, t) =>
      var r := Eval(p, c, store, height, depth, trace, gpio, fuel);
      if !r.Gave? then r
      else if r.v != 0 then ExecAll(p, t, store, height, depth, r.trace, gpio, fuel)
      else Went(store, r.trace)
    case IfElse(c, t, e) =>
      var r := Eval(p, c, store, height, depth, trace, gpio, fuel);
      if !r.Gave? then r
      else ExecAll(p, if r.v != 0 then t else e, store, height, depth, r.trace, gpio, fuel)
    case While(c, b) =>
      if fuel == 0 then Starved
      else
        var r := Eval(p, c, store, height, depth, trace, gpio, fuel);
        if !r.Gave? then r
        else if r.v == 0 then Went(store, r.trace)
        else
          var w := ExecAll(p, b, store, height, depth, r.trace, gpio, fuel);
          if w.Went? then Exec(p, s, w.store, height, depth, w.trace, gpio, fuel - 1) else w
    case WriteString(raw, _) => Went(store, trace + [Wrote(Line(Text(raw)))])
    case PrintExpr(e) =>
      var r := Eval(p, e, store, height, depth, trace, gpio, fuel);
      if r.Gave? then Went(store, r.trace + [Printed(r.v)]) else r
    case SleepFor(ms) => Went(store, trace + [Slept(if ms < 0 then 0 else ms)])
    case ToggleGpio => if gpio(|trace|) then Went(store, trace + [Toggled]) else Stuck(GpioAccess, trace)
    case Block(b) => ExecAll(p, b, store, height, depth, trace, gpio, fuel)
    case CallStmt(n) =>
      var r := Invoke(p, n, height, depth, trace, gpio, fuel);
      if r.Gave? then Went(store, r.trace) else r
  }

  function ExecAll(p: Program, ss: Stmts, store: Store, height: nat, depth: nat, trace: seq<Event>, gpio: nat -> bool,
                   fuel: nat): Flow
    decreases fuel, 2, ss
  {
    match ss
    case Nil => Went(store, trace)
    case Cons(h, t) =>
      var r := Exec(p, h, store, height, depth, trace, gpio, fuel);
      if r.Went? then ExecAll(p, t, r.store, height, depth, r.trace, gpio, fuel) else r
  }
}
