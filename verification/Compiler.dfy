/** The single-pass compiler as it runs: one object with a token cursor, a fixed code buffer and fixed
    symbol tables, updated in place by recursive routines. Each routine is proved to do what the state
    functions of Parser say. */
module Compiler {
  import opened Common
  import opened Hbc
  import opened Source
  import opened Emission
  import P = Parser
  import opened Programs

  // ---------- how emissions compose ----------

  /** Emitting in two goes: the second finds the buffer as the first left it. */
  lemma PutTwice(s: P.Hc, x: seq<byte>, y: seq<byte>)
    requires s.Valid()
    ensures P.Put(P.Put(s, x), y) == P.Put(s, x + y)
  {
    hide P.WellLexed;
    assert s.code + (x + y) == (s.code + x) + y;
    if |s.code| + |x| > MAX_CODE {
      assert (s.code + (x + y))[..MAX_CODE] == (s.code + x)[..MAX_CODE];
      assert ((s.code + x)[..MAX_CODE] + y)[..MAX_CODE] == (s.code + x)[..MAX_CODE];
      if y == [] { assert x + y == x; }
    }
  }

  /** Once a byte did not fit, no more are emitted. */
  lemma PutStops(s: P.Hc, x: seq<byte>, y: seq<byte>)
    requires s.Valid() && |s.code| + |x| > MAX_CODE
    ensures P.Put(s, x + y) == P.Put(s, x)
  {
    hide P.WellLexed;
    assert (s.code + (x + y))[..MAX_CODE] == (s.code + x)[..MAX_CODE];
  }

  lemma StubBytes(s: P.Hc)
    requires s.Valid() && s.code == []
    ensures P.Put(P.Put(P.Put(s, [CALL]), HalfBytes(0)), [HALT]) == s.(code := [CALL, 0, 0, HALT])
    ensures P.Put(s, [CALL]).code == [CALL]
  {
    hide P.WellLexed;
  }

  lemma PrimaryNumber(s: P.Hc, v: i32)
    requires s.Valid() && P.Peek(s) == TkNumber(v)
    ensures P.Primary(s).0 == P.Put(P.Advance(s), Encode(PushI32(v)))
  {
    hide P.WellLexed, P.Put, Encode;
  }

  lemma PrimaryName(s: P.Hc, n: Name)
    requires s.Valid() && P.Peek(s) == TkIdent(n)
    ensures var s1 := P.Advance(s);
            P.Primary(s).0 == if P.Peek(s1) == TkLParen
                  then P.PutCall(P.Expect(P.Advance(s1), TkRParen, -75), s.current)
                  else if Slot(s1.locals, n) == |s1.locals| then P.Fail(s1, -76, s.current)
                  else P.Put(s1, Encode(LoadLocal(Slot(s1.locals, n))))
  {
    hide P.WellLexed, P.Put, P.PutCall, P.Expect, P.Fail, Encode, Slot;
  }

  lemma PrimaryNested(s: P.Hc)
    requires s.Valid()
    ensures P.Peek(s) == TkLParen ==> P.Primary(s).0 == P.Expect(P.Expression(P.Advance(s)).0, TkRParen, -77)
    ensures P.Peek(s) == TkMinus ==>
              P.Primary(s).0 == P.Put(P.Primary(P.Put(P.Advance(s), Encode(PushI32(0)))).0, [SUB])
  {
    hide P.WellLexed, P.Put, P.PutCall, P.Expect, P.Fail, Encode, Slot, P.Expression;
  }

  lemma PrimaryElse(s: P.Hc)
    requires s.Valid()
    requires var t := P.Peek(s); !t.TkNumber? && !t.TkIdent? && t != TkLParen && t != TkMinus
    ensures P.Primary(s).0 == P.Fail(s, -78, s.current)
  {
    hide P.WellLexed, P.Put, P.PutCall, P.Expect, P.Fail, Encode, Slot, P.Expression;
  }

  // ---------- decoding literals on the fly ----------

  /** The first i characters of the literal are decoded, into n bytes; m holds them. */
  ghost predicate Decoding(s: P.Hc, m: P.Hc, raw: seq<byte>, i: nat, n: nat, token: nat) {
    && s.Valid() && m.Valid() && token < |s.tokens| == |m.tokens| && i <= |raw|
    && P.PutDecoded(m, raw[i..], token) == P.PutDecoded(s, raw, token)
    && Unescape(raw).Some? == Unescape(raw[i..]).Some?
    && (Unescape(raw).Some? ==> n + |Text(raw[i..])| == |Text(raw)|)
  }

  lemma DecodingStarts(s: P.Hc, raw: seq<byte>, token: nat)
    requires s.Valid() && token < |s.tokens|
    ensures Decoding(s, s, raw, 0, 0, token)
  {
    assert raw[0..] == raw;
  }

  lemma DecodingEnds(s: P.Hc, m: P.Hc, raw: seq<byte>, n: nat, token: nat)
    requires Decoding(s, m, raw, |raw|, n, token)
    ensures m == P.PutDecoded(s, raw, token) && Unescape(raw).Some? && n == |Text(raw)|
  {
    assert raw[|raw|..] == [];
  }

  lemma DecodePlain(s: P.Hc, m: P.Hc, raw: seq<byte>, i: nat, n: nat, token: nat)
    requires Decoding(s, m, raw, i, n, token) && i < |raw| && raw[i] != 92
    ensures Decoding(s, P.Put(m, [raw[i]]), raw, i + 1, n + 1, token)
  {
    hide P.WellLexed, P.Put;
    var rest := raw[i..];
    assert rest[0] == raw[i] && rest[1..] == raw[i + 1..];
  }

  lemma DecodeEscape(s: P.Hc, m: P.Hc, raw: seq<byte>, i: nat, n: nat, token: nat)
    requires Decoding(s, m, raw, i, n, token) && i + 1 < |raw| && raw[i] == 92 && Escape(raw[i + 1]).Some?
    ensures Decoding(s, P.Put(m, [Escape(raw[i + 1]).value]), raw, i + 2, n + 1, token)
  {
    hide P.WellLexed, P.Put;
    var rest := raw[i..];
    assert rest[0] == raw[i] && rest[1] == raw[i + 1] && rest[2..] == raw[i + 2..];
  }

  lemma DecodeBroken(s: P.Hc, m: P.Hc, raw: seq<byte>, i: nat, n: nat, token: nat)
    requires Decoding(s, m, raw, i, n, token) && i < |raw| && raw[i] == 92
             && (i + 1 == |raw| || Escape(raw[i + 1]).None?)
    ensures P.PutDecoded(s, raw, token) == P.Fail(m, -79, token) && Unescape(raw).None?
  {
    hide P.WellLexed, P.Put, P.Fail;
    var rest := raw[i..];
    assert rest[0] == raw[i] && (i + 1 < |raw| ==> rest[1] == raw[i + 1]);
  }

  class HcCompiler {
    const tokens: seq<Token>
    var current: nat
    var failure: Option<P.Diagnostic>
    const code: array<byte>
    var codeSize: nat
    const functions: array<Symbol>
    var functionCount: nat
    const locals: array<Name>
    var localCount: nat
    const calls: array<Symbol>
    var callCount: nat

    ghost function Parts(): set<object> {
      {this, code, functions, locals, calls}
    }

    ghost predicate Valid()
      reads Parts()
    {
      && code.Length == MAX_CODE && functions.Length == P.MAX_FUNCTIONS && locals.Length == LOCAL_COUNT
      && calls.Length == P.MAX_CALLS
      && functions != calls && P.WellLexed(tokens) && current < |tokens| && codeSize <= MAX_CODE
      && functionCount <= P.MAX_FUNCTIONS && localCount <= LOCAL_COUNT && callCount <= P.MAX_CALLS
      && (failure.Some? ==> failure.value.token < |tokens|)
    }

    ghost function Model(): (s: P.Hc)
      requires Valid()
      reads Parts()
      ensures s.Valid() && s.current == current && s.tokens == tokens && |s.code| == codeSize && s.failure == failure
      ensures |s.locals| == localCount
    {
      P.Hc(tokens, current, failure, code[..codeSize], functions[..functionCount], locals[..localCount],
           calls[..callCount])
    }

    /** A cleared compiler over lexed source. */
    constructor (tokens: seq<Token>)
      requires P.WellLexed(tokens)
      ensures Valid() && fresh(Parts()) && Model() == P.Hc(tokens, 0, None, [], [], [], [])
    {
      this.tokens := tokens;
      current, failure, codeSize, functionCount, localCount, callCount := 0, None, 0, 0, 0, 0;
      code := new byte[256](_ => 0);
      functions := new Symbol[6](_ => Symbol([], 0));
      locals := new Name[8](_ => []);
      calls := new Symbol[12](_ => Symbol([], 0));
    }

    // ---------- cursor ----------

    function Peek(): Token
      requires current < |tokens|
      reads this`current
    {
      tokens[current]
    }

    method Fail(error: int, token: nat)
      requires Valid() && token < |tokens|
      modifies this`failure
      ensures Valid() && Model() == P.Fail(old(Model()), error, token)
    {
      if failure.Some? { return; }
      failure := Some(P.Diagnostic(error, token));
    }

    method Advance()
      requires Valid() && Peek() != TkEof
      modifies this`current
      ensures Valid() && Model() == P.Advance(old(Model()))
    {
      current := current + 1;
    }

    method Match(kind: Token) returns (ok: bool)
      requires Valid() && kind != TkEof && !kind.TkIdent? && !kind.TkNumber? && !kind.TkString?
      modifies this`current
      ensures Valid() && ok == (old(Peek()) == kind)
      ensures Model() == if ok then P.Advance(old(Model())) else old(Model())
    {
      if Peek() != kind { return false; }
      current := current + 1;
      return true;
    }

    /** Returns the token consumed, or the one that was found instead. */
    method Expect(kind: Token, error: int) returns (token: nat)
      requires Valid() && kind != TkEof
      modifies this`current, this`failure
      ensures Valid() && Model() == P.Expect(old(Model()), kind, error) && token == old(current) < |tokens|
    {
      token := current;
      if !P.SameKind(Peek(), kind) {
        Fail(error, current);
        return;
      }
      current := current + 1;
    }

    // ---------- emission ----------

    method EmitU8(value: byte) returns (ok: bool)
      requires Valid()
      modifies this`codeSize, this`failure, code
      ensures Valid() && Model() == P.Put(old(Model()), [value]) && ok == (old(codeSize) < MAX_CODE)
      ensures codeSize == old(codeSize) + if ok then 1 else 0
    {
      hide P.WellLexed;
      if codeSize >= MAX_CODE {
        Fail(-68, current);
        assert (old(Model()).code + [value])[..MAX_CODE] == Model().code;
        return false;
      }
      code[codeSize] := value;
      codeSize := codeSize + 1;
      assert code[..codeSize] == old(code[..codeSize]) + [value];
      return true;
    }

    method EmitU16(value: nat) returns (ok: bool)
      requires Valid()
      modifies this`codeSize, this`failure, code
      ensures Valid() && Model() == P.Put(old(Model()), HalfBytes(value))
    {
      hide P.WellLexed, P.Put;
      ghost var s := Model();
      var lo: byte, hi: byte := value % 0x100, value / 0x100 % 0x100;
      assert [lo] + [hi] == HalfBytes(value);
      PutTwice(s, [lo], [hi]);
      ok := EmitU8(lo);
      if ok { ok := EmitU8(hi); } else { PutStops(s, [lo], [hi]); }
    }

    method EmitI32(value: i32)
      requires Valid()
      modifies this`codeSize, this`failure, code
      ensures Valid() && Model() == P.Put(old(Model()), WordBytes(value))
    {
      hide P.WellLexed, P.Put;
      ghost var s := Model();
      var u := ToU32(value);
      var b0: byte, b1: byte := u % 0x100, u / 0x100 % 0x100;
      var b2: byte, b3: byte := u / 0x100 / 0x100 % 0x100, u / 0x100 / 0x100 / 0x100 % 0x100;
      assert WordBytes(value) == [b0] + ([b1] + ([b2] + [b3]));
      PutTwice(s, [b0], [b1] + ([b2] + [b3]));
      var ok := EmitU8(b0);
      if !ok { PutStops(s, [b0], [b1] + ([b2] + [b3])); return; }
      s := Model();
      PutTwice(s, [b1], [b2] + [b3]);
      ok := EmitU8(b1);
      if !ok { PutStops(s, [b1], [b2] + [b3]); return; }
      s := Model();
      PutTwice(s, [b2], [b3]);
      ok := EmitU8(b2);
      if !ok { PutStops(s, [b2], [b3]); return; }
      ok := EmitU8(b3);
    }

    /** An opcode and its one-byte operand, each emitted by itself. */
    method EmitPair(a: byte, b: byte)
      requires Valid()
      modifies this`codeSize, this`failure, code
      ensures Valid() && Model() == P.Put(old(Model()), [a, b])
    {
      hide P.WellLexed, P.Put;
      PutTwice(Model(), [a], [b]);
      assert [a] + [b] == [a, b];
      var ok := EmitU8(a);
      ok := EmitU8(b);
    }

    method EmitPush(value: i32)
      requires Valid()
      modifies this`codeSize, this`failure, code
      ensures Valid() && Model() == P.Put(old(Model()), Encode(PushI32(value)))
    {
      hide P.WellLexed, P.Put, WordBytes;
      PutTwice(Model(), [PUSH_I32], WordBytes(value));
      var ok := EmitU8(PUSH_I32);
      EmitI32(value);
    }

    /** Returns the position of the jump's operand. */
    method EmitJump(opcode: byte) returns (operand: nat)
      requires Valid()
      modifies this`codeSize, this`failure, code
      ensures Valid() && Model() == P.PutJump(old(Model()), opcode) && operand == P.HoleAt(old(Model()))
    {
      hide P.WellLexed, P.Put, HalfBytes;
      ghost var s := Model();
      EmptyOperand(opcode);
      PutTwice(s, [opcode], HalfBytes(0));
      operand := 0;
      var ok := EmitU8(opcode);
      if ok {
        operand := codeSize;
        ok := EmitU16(0);
      } else {
        PutStops(s, [opcode], HalfBytes(0));
      }
    }

    method PatchU16(operand: nat, value: nat)
      requires Valid()
      modifies this`failure, code
      ensures Valid() && Model() == P.Patch(old(Model()), operand, value)
    {
      hide P.WellLexed;
      if operand + 1 >= codeSize {
        Fail(-69, current);
        return;
      }
      code[operand] := value % 0x100;
      code[operand + 1] := value / 0x100 % 0x100;
      assert code[..codeSize] == old(code[..codeSize])[operand := value % 0x100][operand + 1 := value / 0x100 % 0x100];
    }

    // ---------- symbol tables ----------

    method FindLocal(name: Name) returns (index: int)
      requires Valid()
      ensures var k := Slot(Model().locals, name); index == if k < localCount then k else -1
    {
      var i := 0;
      ghost var all := locals[..localCount];
      while i < localCount
        invariant i <= localCount && Slot(all, name) == i + Slot(all[i..], name)
      {
        if locals[i] == name { return i; }
        assert all[i..][0] == locals[i] && all[i..][1..] == all[i + 1..];
        i := i + 1;
      }
      return -1;
    }

    method AddLocal(token: nat) returns (index: int)
      requires Valid() && token < |tokens|
      modifies this`failure, this`localCount, locals
      ensures Valid() && Model() == P.AddLocal(old(Model()), token)
      ensures var k := Slot(old(Model()).locals, P.TokenName(tokens[token]));
              index == if k == old(localCount) < LOCAL_COUNT then k else -1
    {
      hide P.WellLexed;
      var name := P.TokenName(tokens[token]);
      var found := FindLocal(name);
      if found >= 0 {
        Fail(-70, token);
        return -1;
      }
      if localCount >= LOCAL_COUNT {
        Fail(-71, token);
        return -1;
      }
      locals[localCount] := name;
      localCount := localCount + 1;
      assert locals[..localCount] == old(locals[..localCount]) + [name];
      return localCount - 1;
    }

    method FindFunction(name: Name) returns (index: int)
      requires Valid()
      ensures var fns := Model().functions;
              if Known(fns, name) then 0 <= index < functionCount && functions[index].address == Address(fns, name)
                   else index == -1
    {
      var i := 0;
      ghost var all := functions[..functionCount];
      while i < functionCount
        invariant i <= functionCount && Known(all, name) == Known(all[i..], name)
                  && Address(all, name) == Address(all[i..], name)
      {
        assert all[i..][0] == functions[i] && all[i..][1..] == all[i + 1..];
        if functions[i].name == name { return i; }
        i := i + 1;
      }
      return -1;
    }

    method AddFunction(token: nat, address: nat)
      requires Valid() && token < |tokens|
      modifies this`failure, this`functionCount, functions
      ensures Valid() && Model() == P.AddFunction(old(Model()), token, address)
    {
      hide P.WellLexed;
      var name := P.TokenName(tokens[token]);
      var found := FindFunction(name);
      if found >= 0 {
        Fail(-72, token);
        return;
      }
      if functionCount >= P.MAX_FUNCTIONS {
        Fail(-73, token);
        return;
      }
      functions[functionCount] := Symbol(name, address);
      functionCount := functionCount + 1;
      assert functions[..functionCount] == old(functions[..functionCount]) + [Symbol(name, address)];
    }

    method AddCallPatch(token: nat, operand: nat)
      requires Valid() && token < |tokens|
      modifies this`failure, this`callCount, calls
      ensures Valid() && Model() == P.AddCall(old(Model()), token, operand)
    {
      hide P.WellLexed;
      if callCount >= P.MAX_CALLS {
        Fail(-74, token);
        return;
      }
      calls[callCount] := Symbol(P.TokenName(tokens[token]), operand);
      callCount := callCount + 1;
      assert calls[..callCount] == old(calls[..callCount]) + [Symbol(P.TokenName(tokens[token]), operand)];
    }

    method EmitCall(token: nat)
      requires Valid() && token < |tokens|
      modifies this`codeSize, this`failure, this`callCount, code, calls
      ensures Valid() && Model() == P.PutCall(old(Model()), token)
    {
      hide P.WellLexed, P.Put, P.AddCall;
      var ok := EmitU8(CALL);
      var operand := codeSize;
      ok := EmitU16(0);
      AddCallPatch(token, operand);
    }

    /** LOAD_LOCAL or STORE_LOCAL with its slot. */
    method EmitLocal(i: Instr)
      requires Valid() && (i.LoadLocal? || i.StoreLocal?) && i.slot < LOCAL_COUNT
      modifies this`codeSize, this`failure, code
      ensures Valid() && Model() == P.Put(old(Model()), Encode(i))
    {
      hide P.WellLexed, P.Put;
      EmitPair(if i.LoadLocal? then LOAD_LOCAL else STORE_LOCAL, i.slot);
    }

    /** After an identifier in an expression: a call or a variable. */
    method NameOperand(name: nat, n: Name)
      requires Valid() && name < |tokens| && n == P.TokenName(tokens[name])
      modifies this`current, this`codeSize, this`failure, this`callCount, code, calls
      ensures Valid()
      ensures var s1 := old(Model());
              Model() == if P.Peek(s1) == TkLParen then P.PutCall(P.Expect(P.Advance(s1), TkRParen, -75), name)
                         else if Slot(s1.locals, n) == |s1.locals| then P.Fail(s1, -76, name)
                         else P.Put(s1, Encode(LoadLocal(Slot(s1.locals, n))))
    {
      hide P.WellLexed, P.Expect, P.Fail, P.Put, P.PutCall, Encode;
      var call := Match(TkLParen);
      if call {
        var _ := Expect(TkRParen, -75);
        EmitCall(name);
      } else {
        var index := FindLocal(n);
        if index < 0 { Fail(-76, name); } else { EmitLocal(LoadLocal(index)); }
      }
    }

    // ---------- expressions ----------

    method Primary()
      requires Valid()
      modifies Parts()
      ensures Valid() && Model() == P.Primary(old(Model())).0
      decreases |tokens| - current, 0
    {
      hide P.WellLexed, P.SameKind, P.Expect, P.Fail, P.Put, P.Patch, P.PutJump, P.PutCall, P.AddLocal, P.AddCall,
        P.AddFunction, Encode, HalfBytes, Valid, Model, P.Expression, P.Primary, Slot;
      ghost var s := Model();
      assert Peek() == P.Peek(s);
      PrimaryNested(s);
      match Peek() {
        case TkNumber(v) =>
          PrimaryNumber(s, v);
          Advance();
          EmitPush(v);
        case TkIdent(n) =>
          PrimaryName(s, n);
          var name := current;
          Advance();
          NameOperand(name, n);
        case TkLParen =>
          Advance();
          Parenthesised();
        case TkMinus =>
          Advance();
          Negated();
        case _ =>
          PrimaryElse(s);
          Fail(-78, current);
      }
    }

    /** After an opening parenthesis. */
    method Parenthesised()
      requires Valid()
      modifies Parts()
      ensures Valid() && Model() == P.Expect(P.Expression(old(Model())).0, TkRParen, -77)
      decreases |tokens| - current, 6
    {
      hide P.WellLexed, P.SameKind, P.Expect, P.Fail, P.Put, P.Patch, P.PutJump, P.PutCall, P.AddLocal, P.AddCall,
        P.AddFunction, Encode, HalfBytes, Valid, Model, P.Expression;
      Expression();
      var _ := Expect(TkRParen, -77);
    }

    /** After a minus sign: 0 minus the operand. */
    method Negated()
      requires Valid()
      modifies Parts()
      ensures Valid() && Model() == P.Put(P.Primary(P.Put(old(Model()), Encode(PushI32(0)))).0, [SUB])
      decreases |tokens| - current, 1
    {
      hide P.WellLexed, P.SameKind, P.Expect, P.Fail, P.Put, P.Patch, P.PutJump, P.PutCall, P.AddLocal, P.AddCall,
        P.AddFunction, Encode, HalfBytes, Valid, Model, P.Primary;
      EmitPush(0);
      Primary();
      var _ := EmitU8(SUB);
    }

    method Factor()
      requires Valid()
      modifies Parts()
      ensures Valid() && Model() == P.Factor(old(Model())).0
      decreases |tokens| - current, 2
    {
      hide P.WellLexed, P.SameKind, P.Expect, P.Fail, P.Put, P.Patch, P.PutJump, P.PutCall, P.AddLocal, P.AddCall,
        P.AddFunction, Encode, HalfBytes, Valid, Model, P.Primary;
      ghost var s := Model();
      ghost var e := P.Primary(s).1;
      Primary();
      while failure.None? && (Peek() == TkStar || Peek() == TkSlash)
        invariant Valid() && current >= old(current)
        invariant P.FactorTail(Model(), e) == P.Factor(s)
        decreases |tokens| - current
      {
        ghost var m := Model();
        var op := if Peek() == TkStar then Mul else Div;
        Advance();
        e := Bin(op, e, P.Primary(Model()).1);
        Primary();
        var _ := EmitU8(OpcodeOf(op));
      }
    }

    method Term()
      requires Valid()
      modifies Parts()
      ensures Valid() && Model() == P.Term(old(Model())).0
      decreases |tokens| - current, 4
    {
      hide P.WellLexed, P.SameKind, P.Expect, P.Fail, P.Put, P.Patch, P.PutJump, P.PutCall, P.AddLocal, P.AddCall,
        P.AddFunction, Encode, HalfBytes, Valid, Model, P.Factor;
      ghost var s := Model();
      ghost var e := P.Factor(s).1;
      Factor();
      while failure.None? && (Peek() == TkPlus || Peek() == TkMinus)
        invariant Valid() && current >= old(current)
        invariant P.TermTail(Model(), e) == P.Term(s)
        decreases |tokens| - current
      {
        var op := if Peek() == TkPlus then Add else Sub;
        Advance();
        e := Bin(op, e, P.Factor(Model()).1);
        Factor();
        var _ := EmitU8(OpcodeOf(op));
      }
    }

    method Expression()
      requires Valid()
      modifies Parts()
      ensures Valid() && Model() == P.Expression(old(Model())).0
      decreases |tokens| - current, 5
    {
      hide P.WellLexed, P.SameKind, P.Expect, P.Fail, P.Put, P.Patch, P.PutJump, P.PutCall, P.AddLocal, P.AddCall,
        P.AddFunction, Encode, HalfBytes, Valid, Model, P.Term;
      ghost var s := Model();
      Term();
      if failure.Some? { return; }
      var comparison := P.Comparison(Peek());
      if comparison.Some? {
        Advance();
        Term();
        var _ := EmitU8(OpcodeOf(comparison.value));
      }
    }

    // ---------- statements ----------

    /** JMP to a known place. */
    method EmitJumpTo(target: nat)
      requires Valid()
      modifies this`codeSize, this`failure, code
      ensures Valid() && Model() == P.Put(old(Model()), [JMP] + HalfBytes(target))
    {
      hide P.WellLexed, P.Put, HalfBytes;
      PutTwice(Model(), [JMP], HalfBytes(target));
      var _ := EmitU8(JMP);
      var _ := EmitU16(target);
    }

    method EmitSleep(ms: nat)
      requires Valid()
      modifies this`codeSize, this`failure, code
      ensures Valid() && Model() == P.Put(old(Model()), [SLEEP] + HalfBytes(ms))
    {
      hide P.WellLexed, P.Put, HalfBytes;
      PutTwice(Model(), [SLEEP], HalfBytes(ms));
      var _ := EmitU8(SLEEP);
      var _ := EmitU16(ms);
    }

    /** The text of a literal, decoded as it is emitted; stops at a bad escape. */
    method EmitText(token: nat, raw: seq<byte>) returns (ok: bool, decodedLength: nat)
      requires Valid() && token < |tokens|
      modifies this`codeSize, this`failure, code
      ensures Valid() && Model() == P.PutDecoded(old(Model()), raw, token) && codeSize >= old(codeSize)
      ensures ok == Unescape(raw).Some? && (ok ==> decodedLength == |Text(raw)|)
    {
      hide P.WellLexed, P.Put, P.Fail, Decoding, P.PutDecoded, Unescape;
      ghost var s := Model();
      DecodingStarts(s, raw, token);
      decodedLength := 0;
      var i := 0;
      while i < |raw|
        invariant Valid() && i <= |raw| && codeSize >= old(codeSize)
                  && Decoding(s, Model(), raw, i, decodedLength, token)
      {
        ghost var m := Model();
        if raw[i] != 92 {
          DecodePlain(s, m, raw, i, decodedLength, token);
          var _ := EmitU8(raw[i]);
        } else {
          if i + 1 >= |raw| || Escape(raw[i + 1]).None? {
            DecodeBroken(s, m, raw, i, decodedLength, token);
            Fail(-79, token);
            return false, decodedLength;
          }
          DecodeEscape(s, m, raw, i, decodedLength, token);
          i := i + 1;
          var _ := EmitU8(Escape(raw[i]).value);
        }
        decodedLength := decodedLength + 1;
        i := i + 1;
      }
      DecodingEnds(s, Model(), raw, decodedLength, token);
      ok := true;
    }

    /** WRITE, a length byte, the decoded text; then the length is filled in, provided its byte was
        emitted. */
    method EmitString(token: nat)
      requires Valid() && token < |tokens|
      modifies this`codeSize, this`failure, code
      ensures Valid() && Model() == P.PutString(old(Model()), token)
    {
      hide P.WellLexed, P.Put, P.Fail, P.PutDecoded, Unescape, Text;
      ghost var s := Model();
      var raw := P.TokenRaw(tokens[token]);
      PutTwice(s, [WRITE], [0]);
      assert [WRITE] + [0] == [WRITE, 0];
      var _ := EmitU8(WRITE);
      var lengthPosition := codeSize;
      var _ := EmitU8(0);
      var ok, decodedLength := EmitText(token, raw);
      if ok && lengthPosition < codeSize {
        FillLength(lengthPosition, decodedLength);
      }
    }

    method FillLength(position: nat, length: nat)
      requires Valid() && position < codeSize
      modifies code
      ensures Valid() && var s := old(Model()); Model() == s.(code := s.code[position := length % 0x100])
    {
      hide P.WellLexed;
      code[position] := length % 0x100;
      assert code[..codeSize] == old(code[..codeSize])[position := length % 0x100];
    }

    /** After `int`. */
    method DeclareStatement()
      requires Valid()
      modifies Parts()
      ensures Valid() && Model() == P.DeclareStatement(old(Model())).0
    {
      hide P.WellLexed, P.SameKind, P.Expect, P.Fail, P.Put, P.Patch, P.PutJump, P.PutCall, P.AddLocal, P.AddCall,
        P.AddFunction, Encode, HalfBytes, Valid, Model, P.Expression, Slot;
      ghost var s := Model();
      var name := Expect(P.IDENT, -80);
      var index := AddLocal(name);
      var ok := Match(TkAssign);
      if ok { Expression(); } else { EmitPush(0); }
      var _ := Expect(TkSemi, -81);
      if index >= 0 { EmitLocal(StoreLocal(index)); }
    }

    method ReturnStatement()
      requires Valid()
      modifies Parts()
      ensures Valid() && Model() == P.ReturnStatement(old(Model())).0
    {
      hide P.WellLexed, P.SameKind, P.Expect, P.Fail, P.Put, P.Patch, P.PutJump, P.PutCall, P.AddLocal, P.AddCall,
        P.AddFunction, Encode, HalfBytes, Valid, Model, P.Expression, Slot;
      ghost var s := Model();
      Expression();
      var _ := Expect(TkSemi, -82);
      var _ := EmitU8(RET);
    }

    method IfStatement()
      requires Valid()
      modifies Parts()
      ensures Valid() && Model() == P.IfStatement(old(Model())).0
      decreases |tokens| - current, 1, 4
    {
      hide P.WellLexed, P.SameKind, P.Expect, P.Fail, P.Put, P.Patch, P.PutJump, P.PutCall, P.AddLocal, P.AddCall,
        P.AddFunction, Encode, HalfBytes, Valid, Model, P.Expression, Slot;
      ghost var s := Model();
      var _ := Expect(TkLParen, -83);
      Expression();
      var _ := Expect(TkRParen, -84);
      var onFalse := EmitJump(JZ);
      BlockOf();
      var hasElse := Match(TkElse);
      if hasElse {
        var end := EmitJump(JMP);
        PatchU16(onFalse, codeSize);
        BlockOf();
        PatchU16(end, codeSize);
      } else {
        PatchU16(onFalse, codeSize);
      }
    }

    method WhileStatement()
      requires Valid()
      modifies Parts()
      ensures Valid() && Model() == P.WhileStatement(old(Model()), old(codeSize)).0
      decreases |tokens| - current, 1, 4
    {
      hide P.WellLexed, P.SameKind, P.Expect, P.Fail, P.Put, P.Patch, P.PutJump, P.PutCall, P.AddLocal, P.AddCall,
        P.AddFunction, Encode, HalfBytes, Valid, Model, P.Expression, Slot;
      ghost var s := Model();
      var start := codeSize;
      var _ := Expect(TkLParen, -85);
      Expression();
      var _ := Expect(TkRParen, -86);
      var exit := EmitJump(JZ);
      BlockOf();
      EmitJumpTo(start);
      PatchU16(exit, codeSize);
    }

    method WriteStatement()
      requires Valid()
      modifies Parts()
      ensures Valid() && Model() == P.WriteStatement(old(Model())).0
    {
      hide P.WellLexed, P.SameKind, P.Expect, P.Fail, P.Put, P.Patch, P.PutJump, P.PutCall, P.AddLocal, P.AddCall,
        P.AddFunction, Encode, HalfBytes, Valid, Model, P.Expression, Slot, P.PutString;
      ghost var s := Model();
      var _ := Expect(TkLParen, -87);
      var fd := Expect(P.NUMBER, -88);
      if P.TokenValue(tokens[fd]) != 1 { Fail(-89, fd); }
      var _ := Expect(TkComma, -90);
      var text := Expect(P.STRING, -91);
      var hasLength := Match(TkComma);
      if hasLength { var _ := Expect(P.NUMBER, -92); }
      var _ := Expect(TkRParen, -93);
      var _ := Expect(TkSemi, -94);
      EmitString(text);
    }

    method PrintStatement()
      requires Valid()
      modifies Parts()
      ensures Valid() && Model() == P.PrintStatement(old(Model())).0
    {
      hide P.WellLexed, P.SameKind, P.Expect, P.Fail, P.Put, P.Patch, P.PutJump, P.PutCall, P.AddLocal, P.AddCall,
        P.AddFunction, Encode, HalfBytes, Valid, Model, P.Expression, Slot;
      ghost var s := Model();
      var _ := Expect(TkLParen, -95);
      Expression();
      var _ := Expect(TkRParen, -96);
      var _ := Expect(TkSemi, -97);
      var _ := EmitU8(PRINT_INT);
    }

    method SleepStatement()
      requires Valid()
      modifies Parts()
      ensures Valid() && Model() == P.SleepStatement(old(Model())).0
    {
      hide P.WellLexed, P.SameKind, P.Expect, P.Fail, P.Put, P.Patch, P.PutJump, P.PutCall, P.AddLocal, P.AddCall,
        P.AddFunction, Encode, HalfBytes, Valid, Model, P.Expression, Slot;
      ghost var s := Model();
      var _ := Expect(TkLParen, -98);
      var duration := Expect(P.NUMBER, -99);
      var ms := P.TokenValue(tokens[duration]);
      if ms < 0 || ms > 65535 { Fail(-100, duration); }
      var _ := Expect(TkRParen, -101);
      var _ := Expect(TkSemi, -102);
      EmitSleep(ToU32(ms));
    }

    method GpioStatement()
      requires Valid()
      modifies Parts()
      ensures Valid() && Model() == P.GpioStatement(old(Model())).0
    {
      hide P.WellLexed, P.SameKind, P.Expect, P.Fail, P.Put, P.Patch, P.PutJump, P.PutCall, P.AddLocal, P.AddCall,
        P.AddFunction, Encode, HalfBytes, Valid, Model, P.Expression, Slot;
      ghost var s := Model();
      var _ := Expect(TkLParen, -103);
      var _ := Expect(TkRParen, -104);
      var _ := Expect(TkSemi, -105);
      var _ := EmitU8(GPIO);
    }

    /** After `name =`. */
    method Assignment(name: nat, n: Name)
      requires Valid() && name < |tokens|
      modifies Parts()
      ensures Valid()
      ensures var s1 := old(Model()); var slot := Slot(s1.locals, n);
              Model() == if slot == |s1.locals| then P.Fail(s1, -76, name)
                         else P.Put(P.Expect(P.Expression(s1).0, TkSemi, -107), Encode(StoreLocal(slot)))
    {
      hide P.WellLexed, P.SameKind, P.Expect, P.Fail, P.Put, P.Patch, P.PutJump, P.PutCall, P.AddLocal, P.AddCall,
        P.AddFunction, Encode, HalfBytes, Valid, Model, P.Expression, Slot;
      ghost var s1 := Model();
      var index := FindLocal(n);
      if index < 0 {
        Fail(-76, name);
        return;
      }
      Expression();
      var _ := Expect(TkSemi, -107);
      EmitLocal(StoreLocal(index));
    }

    /** After `name (`: the result is dropped. */
    method CallStatement(name: nat)
      requires Valid() && name < |tokens|
      modifies Parts()
      ensures Valid()
      ensures Model() == P.Put(P.PutCall(P.Expect(P.Expect(old(Model()), TkRParen, -108), TkSemi, -109), name), [POP])
    {
      hide P.WellLexed, P.SameKind, P.Expect, P.Fail, P.Put, P.Patch, P.PutJump, P.PutCall, P.AddLocal, P.AddCall,
        P.AddFunction, Encode, HalfBytes, Valid, Model, P.Expression, Slot;
      ghost var s := Model();
      var _ := Expect(TkRParen, -108);
      var _ := Expect(TkSemi, -109);
      EmitCall(name);
      var _ := EmitU8(POP);
    }

    /** After an identifier: an assignment or a call. */
    method NameStatement(name: nat, n: Name)
      requires Valid() && name < |tokens| && n == P.TokenName(tokens[name])
      modifies Parts()
      ensures Valid() && Model() == P.NameStatement(old(Model()), name, n).0
    {
      hide P.WellLexed, P.SameKind, P.Expect, P.Fail, P.Put, P.Patch, P.PutJump, P.PutCall, P.AddLocal, P.AddCall,
        P.AddFunction, Encode, HalfBytes, Valid, Model, P.Expression, Slot;
      ghost var s := Model();
      var assign := Match(TkAssign);
      if assign {
        Assignment(name, n);
        return;
      }
      var call := Match(TkLParen);
      if call {
        CallStatement(name);
        return;
      }
      Fail(-110, name);
    }

    /** The statements that are spelled as calls of built-in functions. */
    method BuiltinStatement()
      requires Valid() && (Peek() == TkWrite || Peek() == TkPrint || Peek() == TkSleep || Peek() == TkGpio)
      modifies Parts()
      ensures Valid() && Model() == P.Statement(old(Model())).0
    {
      hide P.WellLexed, P.SameKind, P.Expect, P.Fail, P.Put, P.Patch, P.PutJump, P.PutCall, P.AddLocal, P.AddCall,
        P.AddFunction, Encode, HalfBytes, Valid, Model, P.Expression, Slot, P.WriteStatement, P.PrintStatement,
        P.SleepStatement, P.GpioStatement;
      ghost var s := Model();
      assert Peek() == P.Peek(s);
      var kind := Peek();
      Advance();
      match kind {
        case TkWrite => WriteStatement();
        case TkPrint => PrintStatement();
        case TkSleep => SleepStatement();
        case TkGpio => GpioStatement();
      }
    }

    /** After an opening brace. */
    method Braces()
      requires Valid()
      modifies Parts()
      ensures Valid() && Model() == P.Expect(P.StatementList(old(Model())).0, TkRBrace, -106)
      decreases |tokens| - current, 1, 3
    {
      hide P.WellLexed, P.SameKind, P.Expect, P.StatementList, Valid, Model;
      ghost var s := Model();
      StatementList();
      var _ := Expect(TkRBrace, -106);
    }

    method Statement()
      requires Valid()
      modifies Parts()
      ensures Valid() && Model() == P.Statement(old(Model())).0
      decreases |tokens| - current, 1, 0
    {
      hide P.WellLexed, P.SameKind, P.Expect, P.Fail, P.Put, P.Patch, P.PutJump, P.PutCall, P.AddLocal, P.AddCall,
        P.AddFunction, Encode, HalfBytes, Valid, Model, P.Expression, Slot, P.DeclareStatement, P.ReturnStatement,
        P.NameStatement, P.WriteStatement, P.PrintStatement, P.SleepStatement, P.GpioStatement;
      ghost var s := Model();
      assert Peek() == P.Peek(s);
      match Peek() {
        case TkInt => Advance(); DeclareStatement();
        case TkReturn => Advance(); ReturnStatement();
        case TkIf => Advance(); IfStatement();
        case TkWhile => Advance(); WhileStatement();
        case TkWrite | TkPrint | TkSleep | TkGpio => BuiltinStatement();
        case TkLBrace => Advance(); Braces();
        case TkIdent(n) =>
          var name := current;
          Advance();
          NameStatement(name, n);
        case _ => Fail(-111, current);
      }
    }

    method StatementList()
      requires Valid()
      modifies Parts()
      ensures Valid() && Model() == P.StatementList(old(Model())).0
      decreases |tokens| - current, if failure.Some? then 0 else 1, 2
    {
      hide P.WellLexed, P.SameKind, P.Expect, P.Fail, P.Put, P.Patch, P.PutJump, P.PutCall, P.AddLocal, P.AddCall,
        P.AddFunction, Encode, HalfBytes, Valid, Model, P.Expression, Slot, P.Statement;
      ghost var s := Model();
      while failure.None? && Peek() != TkRBrace && Peek() != TkEof
        invariant Valid() && current >= old(current) && (old(failure).Some? ==> failure.Some?)
        invariant P.StatementList(Model()).0 == P.StatementList(s).0
        decreases |tokens| - current, if failure.Some? then 0 else 1
      {
        Statement();
      }
    }

    method BlockOf()
      requires Valid()
      modifies Parts()
      ensures Valid() && Model() == P.BlockOf(old(Model())).0
      decreases |tokens| - current, 1, 3
    {
      hide P.WellLexed, P.SameKind, P.Expect, P.Fail, P.Put, P.Patch, P.PutJump, P.PutCall, P.AddLocal, P.AddCall,
        P.AddFunction, Encode, HalfBytes, Valid, Model, P.Expression, Slot, P.StatementList;
      ghost var s := Model();
      var _ := Expect(TkLBrace, -112);
      StatementList();
      var _ := Expect(TkRBrace, -113);
    }

    // ---------- functions and programs ----------

    method ClearLocals()
      requires Valid()
      modifies this`localCount
      ensures Valid() && Model() == old(Model()).(locals := [])
    {
      localCount := 0;
    }

    /** The implicit `return 0`. */
    method EmitEpilogue()
      requires Valid()
      modifies this`codeSize, this`failure, code
      ensures Valid() && Model() == P.Put(old(Model()), EPILOGUE)
    {
      hide P.WellLexed, P.Put;
      PutTwice(Model(), Encode(PushI32(0)), [RET]);
      EmitPush(0);
      var _ := EmitU8(RET);
    }

    method EmitStubCode() returns (entry: nat)
      requires Valid() && codeSize == 0
      modifies this`codeSize, this`failure, code
      ensures Valid() && Model() == old(Model()).(code := [CALL, 0, 0, HALT]) && entry == 1
    {
      hide P.WellLexed, P.Put, HalfBytes;
      StubBytes(Model());
      var _ := EmitU8(CALL);
      entry := codeSize;
      var _ := EmitU16(0);
      var _ := EmitU8(HALT);
    }

    /** CALL main, HALT; the call is the first to be patched. */
    method EmitStub()
      requires Valid() && Model() == P.Hc(tokens, 0, None, [], [], [], [])
      modifies this`codeSize, this`failure, this`callCount, code, calls
      ensures Valid() && Model() == P.Opening(tokens)
    {
      hide P.WellLexed, Encode, HalfBytes;
      ghost var s := Model();
      var entry := EmitStubCode();
      hide P.Put;
      assert Model().calls == [];
      calls[callCount] := Symbol(MAIN, entry);
      callCount := callCount + 1;
      assert calls[..callCount] == [Symbol(MAIN, 1)];
    }

    /** `int name()`; returns the token taken for the name. */
    method FunctionHeader() returns (name: nat)
      requires Valid()
      modifies this`current, this`failure
      ensures Valid() && name < |tokens|
      ensures var s1 := P.Expect(old(Model()), TkInt, -114);
              && name == s1.current
              && Model() == P.Expect(P.Expect(P.Expect(s1, P.IDENT, -115), TkLParen, -116), TkRParen, -117)
    {
      hide P.WellLexed, P.SameKind, P.Expect, P.Fail, P.Put, P.Patch, P.PutJump, P.PutCall, P.AddLocal, P.AddCall,
        P.AddFunction, Encode, HalfBytes, Valid, Model;
      ghost var s := Model();
      var _ := Expect(TkInt, -114);
      name := Expect(P.IDENT, -115);
      var _ := Expect(TkLParen, -116);
      var _ := Expect(TkRParen, -117);
    }

    method FunctionDefinition()
      requires Valid()
      modifies Parts()
      ensures Valid() && Model() == P.FunctionDefinition(old(Model())).0
    {
      hide P.WellLexed, P.SameKind, P.Expect, P.Fail, P.Put, P.Patch, P.PutJump, P.PutCall, P.AddLocal, P.AddCall,
        P.AddFunction, Encode, HalfBytes, Valid, Model, P.BlockOf;
      ghost var s := Model();
      var name := FunctionHeader();
      if failure.Some? { return; }
      AddFunction(name, codeSize);
      ClearLocals();
      BlockOf();
      SealFunction();
    }

    /** The compiler's test for a missing `return`. */
    method SealFunction()
      requires Valid()
      modifies this`codeSize, this`failure, code
      ensures Valid()
      ensures var s := old(Model()); Model() == if !s.Failed() && Last(s.code, 0) != RET then P.Put(s, EPILOGUE) else s
    {
      hide P.WellLexed, P.Put;
      if failure.None? && (codeSize == 0 || code[codeSize - 1] != RET) {
        EmitEpilogue();
      }
    }

    method PatchCalls()
      requires Valid()
      modifies this`failure, code
      ensures Valid() && Model() == P.PatchCalls(old(Model()), 0)
    {
      hide P.WellLexed, P.Patch, P.Fail;
      ghost var s := Model();
      var i := 0;
      while i < callCount
        invariant Valid() && i <= callCount && P.PatchCalls(Model(), i) == P.PatchCalls(s, 0)
        invariant Model().calls == s.calls && Model().functions == s.functions
      {
        var index := FindFunction(calls[i].name);
        if index < 0 {
          Fail(-118, current);
          return;
        }
        PatchU16(calls[i].address, functions[index].address);
        i := i + 1;
      }
    }

    /** Compiles the whole source on a cleared compiler; on success the buffer holds the image. */
    method CompileGeneral() returns (ok: bool)
      requires Valid() && Model() == P.Hc(tokens, 0, None, [], [], [], [])
      modifies Parts()
      ensures Valid() && Model() == P.CompileState(tokens).0 && ok == failure.None?
      ensures var p := P.CompileState(tokens).1;
              ok ==> code[..codeSize] == Image(p) && Proper(p) && tokens[..current] == SpellProgram(p)
    {
      hide P.WellLexed, P.SameKind, P.Expect, P.Fail, P.Put, P.Patch, P.PutJump, P.PutCall, P.AddLocal, P.AddCall,
        P.AddFunction, Encode, HalfBytes, Valid, P.Expression, Slot, P.FunctionDefinition, P.PatchCalls, Image, Proper,
        SpellProgram;
      EmitStub();
      ghost var s := Model();
      while failure.None? && Peek() != TkEof
        invariant Valid() && Model().Valid()
        invariant P.Definitions(Model()).0 == P.Definitions(s).0
        decreases |tokens| - current, if failure.Some? then 0 else 1
      {
        FunctionDefinition();
      }
      if failure.None? {
        var main := FindFunction(MAIN);
        if main < 0 { Fail(-119, current); }
      }
      if failure.None? { PatchCalls(); }
      ok := failure.None?;
      if ok { CompilerEmitsImage(tokens); }
    }
  }
}
