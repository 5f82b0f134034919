/** What the single-pass compiler does, as functions from compiler state to compiler state. Next to
    the new state each function returns the syntax tree it recognised; the compiler keeps no tree, and
    nothing computed below depends on it. After a failure the tree means nothing. */
module Parser {
  import opened Common
  import opened Hbc
  import opened Source
  import opened Emission

  const MAX_FUNCTIONS: nat := 6
  const MAX_CALLS: nat := 12
  const NAME_SIZE: nat := 12

  /** Error number and the index of the token it is reported at. */
  datatype Diagnostic = Diagnostic(error: int, token: nat)

  datatype Hc = Hc(tokens: seq<Token>, current: nat, failure: Option<Diagnostic>, code: seq<byte>,
                   functions: seq<Symbol>, locals: seq<Name>, calls: seq<Symbol>) {
    ghost predicate Valid() {
      && WellLexed(tokens) && current < |tokens| && |code| <= MAX_CODE
      && |functions| <= MAX_FUNCTIONS && |locals| <= LOCAL_COUNT && |calls| <= MAX_CALLS
      && (failure.Some? ==> failure.value.token < |tokens|)
    }

    predicate Failed() {
      failure.Some?
    }

    function Left(): nat {
      if current <= |tokens| then |tokens| - current else 0
    }
  }

  /** What the lexer guarantees: an end marker, and names that fit the symbol tables. */
  predicate WellLexed(tokens: seq<Token>) {
    && tokens != [] && tokens[|tokens| - 1] == TkEof
    && forall k :: 0 <= k < |tokens| && tokens[k].TkIdent? ==> |tokens[k].name| < NAME_SIZE
  }

  /** How any parsing step may change the state. */
  ghost predicate Onward(s: Hc, t: Hc) {
    && t.Valid() && t.tokens == s.tokens && s.current <= t.current
    && (s.Failed() ==> t.failure == s.failure) && s.locals <= t.locals && t.functions == s.functions
  }

  // ---------- cursor ----------

  function Peek(s: Hc): Token
    requires s.Valid()
  {
    s.tokens[s.current]
  }

  predicate SameKind(t: Token, k: Token) {
    match k
    case TkIdent(_) => t.TkIdent?
    case TkNumber(_) => t.TkNumber?
    case TkString(_) => t.TkString?
    case _ => t == k
  }

  const IDENT: Token := TkIdent([])
  const NUMBER: Token := TkNumber(0)
  const STRING: Token := TkString([])

  /** The first failure is the one reported. */
  function Fail(s: Hc, error: int, token: nat): (t: Hc)
    requires s.Valid() && token < |s.tokens|
    ensures Onward(s, t) && t.locals == s.locals && t.current == s.current && t.Failed()
  {
    if s.Failed() then s else s.(failure := Some(Diagnostic(error, token)))
  }

  function Advance(s: Hc): (t: Hc)
    requires s.Valid() && Peek(s) != TkEof
    ensures Onward(s, t) && t.locals == s.locals && t.current == s.current + 1
  {
    s.(current := s.current + 1)
  }

  function Expect(s: Hc, kind: Token, error: int): (t: Hc)
    requires s.Valid() && kind != TkEof
    ensures Onward(s, t) && t.locals == s.locals
    ensures t.Failed() || (t.current == s.current + 1 && SameKind(Peek(s), kind) && t == s.(current := t.current))
  {
    if SameKind(Peek(s), kind) then Advance(s) else Fail(s, error, s.current)
  }

  function TokenName(t: Token): Name {
    if t.TkIdent? then t.name else []
  }

  function TokenValue(t: Token): i32 {
    if t.TkNumber? then t.value else 0
  }

  function TokenRaw(t: Token): seq<byte> {
    if t.TkString? then t.raw else []
  }

  // ---------- emission into the fixed buffer ----------

  /** Appends as much as fits; running out of room is a failure. */
  function Put(s: Hc, bytes: seq<byte>): (t: Hc)
    requires s.Valid()
    ensures Onward(s, t) && t.locals == s.locals && t.current == s.current
    ensures !t.Failed() ==> |s.code| + |bytes| <= MAX_CODE
  {
    if |s.code| + |bytes| <= MAX_CODE then s.(code := s.code + bytes)
    else Fail(s.(code := (s.code + bytes)[..MAX_CODE]), -68, s.current)
  }

  /** Operand position of a jump just emitted; 0 if there was no room for its opcode. */
  function HoleAt(s: Hc): nat {
    if |s.code| >= MAX_CODE then 0 else |s.code| + 1
  }

  function PutJump(s: Hc, opcode: byte): (t: Hc)
    requires s.Valid()
    ensures Onward(s, t) && t.locals == s.locals && t.current == s.current
  {
    Put(s, [opcode, 0, 0])
  }

  function Patch(s: Hc, operand: nat, value: nat): (t: Hc)
    requires s.Valid()
    ensures Onward(s, t) && t.locals == s.locals && t.current == s.current
  {
    if operand + 1 >= |s.code| then Fail(s, -69, s.current)
    else s.(code := s.code[operand := value % 0x100][operand + 1 := value / 0x100 % 0x100])
  }

  // ---------- symbol tables ----------

  function AddLocal(s: Hc, token: nat): (t: Hc)
    requires s.Valid() && token < |s.tokens|
    ensures Onward(s, t) && t.current == s.current
  {
    var name := TokenName(s.tokens[token]);
    if Slot(s.locals, name) < |s.locals| then Fail(s, -70, token)
    else if |s.locals| >= LOCAL_COUNT then Fail(s, -71, token)
    else s.(locals := s.locals + [name])
  }

  function AddFunction(s: Hc, token: nat, address: nat): (t: Hc)
    requires s.Valid() && token < |s.tokens|
    ensures t.Valid() && t == s.(failure := t.failure, functions := t.functions)
            && (s.Failed() ==> t.failure == s.failure)
  {
    var name := TokenName(s.tokens[token]);
    if Known(s.functions, name) then Fail(s, -72, token)
    else if |s.functions| >= MAX_FUNCTIONS then Fail(s, -73, token)
    else s.(functions := s.functions + [Symbol(name, address)])
  }

  function AddCall(s: Hc, token: nat, operand: nat): (t: Hc)
    requires s.Valid() && token < |s.tokens|
    ensures Onward(s, t) && t.locals == s.locals && t.current == s.current
  {
    if |s.calls| >= MAX_CALLS then Fail(s, -74, token)
    else s.(calls := s.calls + [Symbol(TokenName(s.tokens[token]), operand)])
  }

  /** CALL with a hole, recorded for patching. */
  function PutCall(s: Hc, token: nat): (t: Hc)
    requires s.Valid() && token < |s.tokens|
    ensures Onward(s, t) && t.locals == s.locals && t.current == s.current
  {
    var s1 := Put(s, [CALL]);
    AddCall(Put(s1, [0, 0]), token, |s1.code|)
  }

  // ---------- expressions ----------

  function Primary(s: Hc): (r: (Hc, Expr))
    requires s.Valid()
    ensures Onward(s, r.0) && (r.0.current > s.current || r.0.Failed()) && r.0.locals == s.locals
    decreases s.Left(), 0
  {
    hide WellLexed, SameKind, Expect, Fail, Put, Patch, PutJump, PutCall, AddLocal, AddCall, Encode, HalfBytes;
    match Peek(s)
    case TkNumber(v) => (Put(Advance(s), Encode(PushI32(v))), Num(v))
    case TkIdent(n) =>
      var s1 := Advance(s);
      if Peek(s1) == TkLParen then
        (PutCall(Expect(Advance(s1), TkRParen, -75), s.current), CallExpr(n))
      else if Slot(s1.locals, n) == |s1.locals| then (Fail(s1, -76, s.current), Var(n))
      else (Put(s1, Encode(LoadLocal(Slot(s1.locals, n)))), Var(n))
    case TkLParen =>
      var (s1, e) := Expression(Advance(s));
      (Expect(s1, TkRParen, -77), Paren(e))
    case TkMinus =>
      var (s1, e) := Primary(Put(Advance(s), Encode(PushI32(0))));
      (Put(s1, [SUB]), Neg(e))
    case _ => (Fail(s, -78, s.current), Num(0))
  }

  function FactorTail(s: Hc, left: Expr): (r: (Hc, Expr))
    requires s.Valid()
    ensures Onward(s, r.0) && r.0.locals == s.locals
    decreases s.Left(), 1
  {
    hide WellLexed, SameKind, Expect, Fail, Put, Patch, PutJump, PutCall, AddLocal, AddCall, Encode, HalfBytes;
    if !s.Failed() && (Peek(s) == TkStar || Peek(s) == TkSlash) then
      var op := if Peek(s) == TkStar then Mul else Div;
      var (s1, right) := Primary(Advance(s));
      FactorTail(Put(s1, [OpcodeOf(op)]), Bin(op, left, right))
    else (s, left)
  }

  function Factor(s: Hc): (r: (Hc, Expr))
    requires s.Valid()
    ensures Onward(s, r.0) && (r.0.current > s.current || r.0.Failed()) && r.0.locals == s.locals
    decreases s.Left(), 2
  {
    hide WellLexed, SameKind, Expect, Fail, Put, Patch, PutJump, PutCall, AddLocal, AddCall, Encode, HalfBytes;
    var (s1, e) := Primary(s);
    FactorTail(s1, e)
  }

  function TermTail(s: Hc, left: Expr): (r: (Hc, Expr))
    requires s.Valid()
    ensures Onward(s, r.0) && r.0.locals == s.locals
    decreases s.Left(), 3
  {
    hide WellLexed, SameKind, Expect, Fail, Put, Patch, PutJump, PutCall, AddLocal, AddCall, Encode, HalfBytes;
    if !s.Failed() && (Peek(s) == TkPlus || Peek(s) == TkMinus) then
      var op := if Peek(s) == TkPlus then Add else Sub;
      var (s1, right) := Factor(Advance(s));
      TermTail(Put(s1, [OpcodeOf(op)]), Bin(op, left, right))
    else (s, left)
  }

  function Term(s: Hc): (r: (Hc, Expr))
    requires s.Valid()
    ensures Onward(s, r.0) && (r.0.current > s.current || r.0.Failed()) && r.0.locals == s.locals
    decreases s.Left(), 4
  {
    hide WellLexed, SameKind, Expect, Fail, Put, Patch, PutJump, PutCall, AddLocal, AddCall, Encode, HalfBytes;
    var (s1, e) := Factor(s);
    TermTail(s1, e)
  }

  function Comparison(t: Token): Option<BinOp> {
    match t
    case TkLt => Some(Lt) case TkLe => Some(Le) case TkGt => Some(Gt)
    case TkGe => Some(Ge) case TkEq => Some(Eq) case TkNe => Some(Ne)
    case _ => None
  }

  function Expression(s: Hc): (r: (Hc, Expr))
    requires s.Valid()
    ensures Onward(s, r.0) && (r.0.current > s.current || r.0.Failed()) && r.0.locals == s.locals
    decreases s.Left(), 5
  {
    hide WellLexed, SameKind, Expect, Fail, Put, Patch, PutJump, PutCall, AddLocal, AddCall, Encode, HalfBytes;
    var (s1, left) := Term(s);
    if s1.Failed() || Comparison(Peek(s1)).None? then (s1, left)
    else
      var op := Comparison(Peek(s1)).value;
      var (s2, right) := Term(Advance(s1));
      (Put(s2, [OpcodeOf(op)]), Bin(op, left, right))
  }

  // ---------- statements ----------

  /** Literal text: the length byte is back-stored once the decoded length is known. If the buffer was full
      before the length byte (a failure), the store is not modelled. */
  function PutString(s: Hc, token: nat): (t: Hc)
    requires s.Valid() && token < |s.tokens|
    ensures Onward(s, t) && t.locals == s.locals && t.current == s.current
  {
    hide WellLexed, Fail;
    var raw := TokenRaw(s.tokens[token]);
    var s1 := Put(s, [WRITE, 0]);
    var s2 := PutDecoded(s1, raw, token);
    if Unescape(raw).None? || |s.code| + 1 >= |s2.code| then s2
    else s2.(code := s2.code[|s.code| + 1 := |Text(raw)| % 0x100])
  }

  function PutDecoded(s: Hc, raw: seq<byte>, token: nat): (t: Hc)
    requires s.Valid() && token < |s.tokens|
    ensures Onward(s, t) && t.locals == s.locals && t.current == s.current
    ensures !t.Failed() ==> Unescape(raw).Some? && t == s.(code := s.code + Unescape(raw).value)
    decreases |raw|
  {
    hide WellLexed, SameKind, Expect, Fail, Put, Patch, PutJump, PutCall, AddLocal, AddCall, Encode, HalfBytes;
    if raw == [] then s
    else if raw[0] != 92 then PutDecoded(Put(s, [raw[0]]), raw[1..], token)
    else if |raw| == 1 || Escape(raw[1]).None? then Fail(s, -79, token)
    else PutDecoded(Put(s, [Escape(raw[1]).value]), raw[2..], token)
  }

  function Statement(s: Hc): (r: (Hc, Stmt))
    requires s.Valid()
    ensures Onward(s, r.0) && (r.0.current > s.current || r.0.Failed())
    decreases s.Left(), 1, 0
  {
    hide WellLexed, SameKind, Expect, Fail, Put, Patch, PutJump, PutCall, AddLocal, AddCall, Encode, HalfBytes;
    match Peek(s)
    case TkInt => DeclareStatement(Advance(s))
    case TkReturn => ReturnStatement(Advance(s))
    case TkIf => IfStatement(Advance(s))
    case TkWhile => WhileStatement(Advance(s), |s.code|)
    case TkWrite => WriteStatement(Advance(s))
    case TkPrint => PrintStatement(Advance(s))
    case TkSleep => SleepStatement(Advance(s))
    case TkGpio => GpioStatement(Advance(s))
    case TkLBrace =>
      var (s1, b) := StatementList(Advance(s));
      (Expect(s1, TkRBrace, -106), Block(b))
    case TkIdent(n) => NameStatement(Advance(s), s.current, n)
    case _ => (Fail(s, -111, s.current), ToggleGpio)
  }

  function ReturnStatement(s: Hc): (r: (Hc, Stmt))
    requires s.Valid()
    ensures Onward(s, r.0)
  {
    hide WellLexed, SameKind, Expect, Put;
    var (s1, e) := Expression(s);
    (Put(Expect(s1, TkSemi, -82), [RET]), Return(e))
  }

  function PrintStatement(s: Hc): (r: (Hc, Stmt))
    requires s.Valid()
    ensures Onward(s, r.0)
  {
    hide WellLexed, SameKind, Expect, Put;
    var (s1, e) := Expression(Expect(s, TkLParen, -95));
    (Put(Expect(Expect(s1, TkRParen, -96), TkSemi, -97), [PRINT_INT]), PrintExpr(e))
  }

  function GpioStatement(s: Hc): (r: (Hc, Stmt))
    requires s.Valid()
    ensures Onward(s, r.0)
  {
    hide WellLexed, SameKind, Expect, Put;
    (Put(Expect(Expect(Expect(s, TkLParen, -103), TkRParen, -104), TkSemi, -105), [GPIO]), ToggleGpio)
  }

  /** After `int`. The name is entered before its initialiser is parsed. */
  function DeclareStatement(s: Hc): (r: (Hc, Stmt))
    requires s.Valid()
    ensures Onward(s, r.0)
  {
    hide WellLexed, SameKind, Expect, Fail, Put, Patch, PutJump, PutCall, AddLocal, AddCall, Encode, HalfBytes;
    var n := TokenName(Peek(s));
    var s1 := Expect(s, IDENT, -80);
    var isNew := Slot(s1.locals, n) == |s1.locals| < LOCAL_COUNT;
    var s2 := AddLocal(s1, s.current);
    var (s3, d) := if Peek(s2) == TkAssign then
                     var (t, e) := Expression(Advance(s2)); (t, DeclareInit(n, e))
                   else (Put(s2, Encode(PushI32(0))), Declare(n));
    var s4 := Expect(s3, TkSemi, -81);
    (if isNew then Put(s4, Encode(StoreLocal(|s1.locals|))) else s4, d)
  }

  function IfStatement(s: Hc): (r: (Hc, Stmt))
    requires s.Valid()
    ensures Onward(s, r.0)
    decreases s.Left(), 1, 5
  {
    hide WellLexed, SameKind, Expect, Fail, Put, Patch, PutJump, PutCall, AddLocal, AddCall, Encode, HalfBytes;
    var (s1, c) := Expression(Expect(s, TkLParen, -83));
    var s2 := Expect(s1, TkRParen, -84);
    var (s3, t) := BlockOf(PutJump(s2, JZ));
    if Peek(s3) == TkElse then
      var (s7, e) := ElseBranch(Advance(s3), HoleAt(s2));
      (s7, IfElse(c, t, e))
    else (Patch(s3, HoleAt(s2), |s3.code|), If(c, t))
  }

  /** After `else`: the jump over the branch, to which the condition's hole now leads, and the branch. */
  function ElseBranch(s: Hc, hole: nat): (r: (Hc, Stmts))
    requires s.Valid()
    ensures Onward(s, r.0)
    decreases s.Left(), 1, 4
  {
    hide WellLexed, SameKind, Expect, Fail, Put, Patch, PutJump, PutCall, AddLocal, AddCall, Encode, HalfBytes;
    var s1 := PutJump(s, JMP);
    var (s2, e) := BlockOf(Patch(s1, hole, |s1.code|));
    (Patch(s2, HoleAt(s), |s2.code|), e)
  }

  function WhileStatement(s: Hc, start: nat): (r: (Hc, Stmt))
    requires s.Valid()
    ensures Onward(s, r.0)
    decreases s.Left(), 1, 4
  {
    hide WellLexed, SameKind, Expect, Fail, Put, Patch, PutJump, PutCall, AddLocal, AddCall, Encode, HalfBytes;
    var (s1, c) := Expression(Expect(s, TkLParen, -85));
    var s2 := Expect(s1, TkRParen, -86);
    var (s3, b) := BlockOf(PutJump(s2, JZ));
    var s4 := Put(s3, [JMP] + HalfBytes(start));
    (Patch(s4, HoleAt(s2), |s4.code|), While(c, b))
  }

  /** `(1,`: only standard output can be written to. */
  function WriteOpening(s: Hc): (t: Hc)
    requires s.Valid()
    ensures Onward(s, t)
  {
    hide WellLexed, SameKind, Expect, Fail;
    var s1 := Expect(s, TkLParen, -87);
    var s2 := Expect(s1, NUMBER, -88);
    var s3 := if TokenValue(Peek(s1)) != 1 then Fail(s2, -89, s1.current) else s2;
    Expect(s3, TkComma, -90)
  }

  function WriteStatement(s: Hc): (r: (Hc, Stmt))
    requires s.Valid()
    ensures Onward(s, r.0)
  {
    hide WellLexed, SameKind, Expect, Fail, PutString, WriteOpening;
    var s4 := WriteOpening(s);
    var (s5, length) := WriteLength(Expect(s4, STRING, -91));
    var s6 := Expect(Expect(s5, TkRParen, -93), TkSemi, -94);
    (PutString(s6, s4.current), WriteString(TokenRaw(Peek(s4)), length))
  }

  /** The optional length argument is accepted and ignored. */
  function WriteLength(s: Hc): (r: (Hc, Option<i32>))
    requires s.Valid()
    ensures Onward(s, r.0)
  {
    if Peek(s) == TkComma then
      var t := Advance(s);
      (Expect(t, NUMBER, -92), Some(TokenValue(Peek(t))))
    else (s, None)
  }

  function SleepStatement(s: Hc): (r: (Hc, Stmt))
    requires s.Valid()
    ensures Onward(s, r.0)
  {
    hide WellLexed, SameKind, Expect, Fail, Put, Patch, PutJump, PutCall, AddLocal, AddCall, Encode, HalfBytes;
    var s1 := Expect(s, TkLParen, -98);
    var s2 := Expect(s1, NUMBER, -99);
    var ms := TokenValue(Peek(s1));
    var s3 := if ms < 0 || ms > 65535 then Fail(s2, -100, s1.current) else s2;
    var s4 := Expect(Expect(s3, TkRParen, -101), TkSemi, -102);
    (Put(s4, [SLEEP] + HalfBytes(ToU32(ms))), SleepFor(ms))
  }

  /** After an identifier: assignment or call. */
  function NameStatement(s: Hc, token: nat, n: Name): (r: (Hc, Stmt))
    requires s.Valid() && token < |s.tokens|
    ensures Onward(s, r.0)
  {
    hide WellLexed, SameKind, Expect, Fail, Put, Patch, PutJump, PutCall, AddLocal, AddCall, Encode, HalfBytes;
    if Peek(s) == TkAssign then
      var s1 := Advance(s);
      var slot := Slot(s1.locals, n);
      if slot == |s1.locals| then (Fail(s1, -76, token), ToggleGpio)
      else
        var (s2, e) := Expression(s1);
        (Put(Expect(s2, TkSemi, -107), Encode(StoreLocal(slot))), Assign(n, e))
    else if Peek(s) == TkLParen then
      (Put(PutCall(Expect(Expect(Advance(s), TkRParen, -108), TkSemi, -109), token), [POP]), CallStmt(n))
    else (Fail(s, -110, token), ToggleGpio)
  }

  /** Statements up to a closing brace, the end of the input or the first failure. */
  function StatementList(s: Hc): (r: (Hc, Stmts))
    requires s.Valid()
    ensures Onward(s, r.0)
    decreases s.Left(), if s.Failed() then 0 else 1, 2
  {
    hide WellLexed, SameKind, Expect, Fail, Put, Patch, PutJump, PutCall, AddLocal, AddCall, Encode, HalfBytes;
    if s.Failed() || Peek(s) == TkRBrace || Peek(s) == TkEof then (s, Nil)
    else
      var (s1, h) := Statement(s);
      var (s2, t) := StatementList(s1);
      (s2, Cons(h, t))
  }

  function BlockOf(s: Hc): (r: (Hc, Stmts))
    requires s.Valid()
    ensures Onward(s, r.0)
    decreases s.Left(), 1, 3
  {
    hide WellLexed, SameKind, Expect, Fail, Put, Patch, PutJump, PutCall, AddLocal, AddCall, Encode, HalfBytes;
    var (s1, b) := StatementList(Expect(s, TkLBrace, -112));
    (Expect(s1, TkRBrace, -113), b)
  }

  // ---------- functions and programs ----------

  function FunctionDefinition(s: Hc): (r: (Hc, Function))
    requires s.Valid()
    ensures r.0.Valid() && r.0.tokens == s.tokens && s.current <= r.0.current
    ensures r.0.current > s.current || r.0.Failed()
  {
    hide WellLexed, SameKind, Expect, Fail, Put, Patch, PutJump, PutCall, AddLocal, AddCall, AddFunction, Encode,
      HalfBytes;
    var s1 := Expect(s, TkInt, -114);
    var name := TokenName(Peek(s1));
    var s4 := Expect(Expect(Expect(s1, IDENT, -115), TkLParen, -116), TkRParen, -117);
    if s4.Failed() then (s4, Function(name, Nil))
    else
      var s5 := AddFunction(s4, s1.current, |s4.code|).(locals := []);
      var (s6, body) := BlockOf(s5);
      (if !s6.Failed() && Last(s6.code, 0) != RET then Put(s6, EPILOGUE) else s6, Function(name, body))
  }

  function Definitions(s: Hc): (r: (Hc, Program))
    requires s.Valid()
    ensures r.0.Valid() && r.0.tokens == s.tokens && s.current <= r.0.current
    decreases s.Left(), if s.Failed() then 0 else 1
  {
    hide WellLexed, SameKind, Expect, Fail, Put, Patch, PutJump, PutCall, AddLocal, AddCall, Encode, HalfBytes;
    if s.Failed() || Peek(s) == TkEof then (s, [])
    else
      var (s1, f) := FunctionDefinition(s);
      var (s2, p) := Definitions(s1);
      (s2, [f] + p)
  }

  function PatchCalls(s: Hc, k: nat): (t: Hc)
    requires s.Valid() && k <= |s.calls|
    ensures t.Valid() && t == s.(failure := t.failure, code := t.code) && (s.Failed() ==> t.failure == s.failure)
    decreases |s.calls| - k
  {
    if k == |s.calls| then s
    else if !Known(s.functions, s.calls[k].name) then Fail(s, -118, s.current)
    else PatchCalls(Patch(s, s.calls[k].address, Address(s.functions, s.calls[k].name)), k + 1)
  }

  /** The compiler after the entry stub: CALL main, HALT. */
  function Opening(tokens: seq<Token>): (s: Hc)
    requires WellLexed(tokens)
    ensures s.Valid() && !s.Failed()
  {
    Hc(tokens, 0, None, [CALL, 0, 0, HALT], [], [], [Symbol(MAIN, 1)])
  }

  function CompileState(tokens: seq<Token>): (r: (Hc, Program))
    requires WellLexed(tokens)
    ensures r.0.Valid()
  {
    var (s, p) := Definitions(Opening(tokens));
    var s1 := if !s.Failed() && !Known(s.functions, MAIN) then Fail(s, -119, s.current) else s;
    (if s1.Failed() then s1 else PatchCalls(s1, 0), p)
  }
}
