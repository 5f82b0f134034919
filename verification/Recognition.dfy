/** What a parsing step that does not fail has done: the tokens it consumed spell a tree of the
    grammar, and the bytes it appended are the reference code of that tree. */
module Recognition {
  import opened Common
  import opened Hbc
  import opened Source
  import opened Emission
  import opened Parser

  /** From s to t: `toks` consumed, `bytes` appended, `sites` recorded for call patching. */
  ghost predicate Did(s: Hc, t: Hc, toks: seq<Token>, bytes: seq<byte>, sites: seq<Symbol>) {
    && s.Valid() && t.Valid() && !s.Failed() && !t.Failed()
    && t.tokens == s.tokens && t.current == s.current + |toks|
    && s.tokens[s.current..t.current] == toks
    && t.code == s.code + bytes && t.calls == s.calls + sites && t.functions == s.functions
  }

  lemma Then(s: Hc, t: Hc, u: Hc, toks1: seq<Token>, bytes1: seq<byte>, sites1: seq<Symbol>,
             toks2: seq<Token>, bytes2: seq<byte>, sites2: seq<Symbol>)
    requires Did(s, t, toks1, bytes1, sites1) && Did(t, u, toks2, bytes2, sites2)
    ensures Did(s, u, toks1 + toks2, bytes1 + bytes2, sites1 + sites2)
  {
    var all := s.tokens[s.current..u.current];
    assert all == s.tokens[s.current..t.current] + s.tokens[t.current..u.current];
    assert s.code + (bytes1 + bytes2) == (s.code + bytes1) + bytes2;
    assert s.calls + (sites1 + sites2) == (s.calls + sites1) + sites2;
  }

  lemma ThenTokens(s: Hc, t: Hc, u: Hc, toks: seq<Token>, bytes: seq<byte>, sites: seq<Symbol>, more: seq<Token>)
    requires Did(s, t, toks, bytes, sites) && Did(t, u, more, [], [])
    ensures Did(s, u, toks + more, bytes, sites)
  {
    Then(s, t, u, toks, bytes, sites, more, [], []);
    assert bytes + [] == bytes && sites + [] == sites;
  }

  lemma ThenBytes(s: Hc, t: Hc, u: Hc, toks: seq<Token>, bytes: seq<byte>, sites: seq<Symbol>, more: seq<byte>)
    requires Did(s, t, toks, bytes, sites) && Did(t, u, [], more, [])
    ensures Did(s, u, toks, bytes + more, sites)
  {
    Then(s, t, u, toks, bytes, sites, [], more, []);
    assert toks + [] == toks && sites + [] == sites;
  }

  lemma DidAdvance(s: Hc)
    requires s.Valid() && !s.Failed() && Peek(s) != TkEof
    ensures Did(s, Advance(s), [Peek(s)], [], [])
  {
    hide WellLexed;
    assert s.tokens[s.current..s.current + 1] == [Peek(s)];
  }

  lemma DidExpect(s: Hc, kind: Token, error: int)
    requires s.Valid() && kind != TkEof && !Expect(s, kind, error).Failed()
    ensures Did(s, Expect(s, kind, error), [Peek(s)], [], []) && SameKind(Peek(s), kind)
  {
  }

  lemma DidPut(s: Hc, bytes: seq<byte>)
    requires s.Valid() && !Put(s, bytes).Failed()
    ensures Did(s, Put(s, bytes), [], bytes, [])
  {
  }

  /** A token, then bytes. */
  lemma AdvancePut(s: Hc, bytes: seq<byte>)
    requires s.Valid() && Peek(s) != TkEof && !Put(Advance(s), bytes).Failed()
    ensures Did(s, Put(Advance(s), bytes), [Peek(s)], bytes, [])
  {
    DidAdvance(s);
    DidPut(Advance(s), bytes);
    Then(s, Advance(s), Put(Advance(s), bytes), [Peek(s)], [], [], [], bytes, []);
  }

  lemma DidPutCall(s: Hc, token: nat)
    requires s.Valid() && token < |s.tokens| && s.tokens[token].TkIdent? && !PutCall(s, token).Failed()
    ensures Did(s, PutCall(s, token), [], Encode(Call(0)), [Symbol(s.tokens[token].name, |s.code| + 1)])
  {
    assert s.code + Encode(Call(0)) == (s.code + [CALL]) + [0, 0];
  }

  lemma {:induction false} SlotPrefix(locals: seq<Name>, names: seq<Name>, n: Name)
    requires locals <= names && Slot(locals, n) < |locals|
    ensures Slot(names, n) == Slot(locals, n)
  {
    if locals[0] != n {
      SlotPrefix(locals[1..], names[1..], n);
    }
  }

  // ---------- expressions ----------

  /** The step from s to t compiled e. */
  ghost predicate Compiled(s: Hc, t: Hc, e: Expr, names: seq<Name>) {
    && Did(s, t, SpellE(e), EmitE(e, names, []), SitesE(e, |s.code|))
    && BoundE(e, names) && t.locals == s.locals
  }

  lemma {:induction false} PrimaryCompiles(s: Hc, names: seq<Name>)
    requires s.Valid() && s.locals <= names && !Primary(s).0.Failed()
    ensures var (t, e) := Primary(s); Compiled(s, t, e, names) && IsPrimary(e)
    decreases s.Left(), 1
  {
    hide Put, Expect, PutCall, Encode, Did;
    match Peek(s)
    case TkNumber(v) => AdvancePut(s, Encode(PushI32(v)));
    case TkIdent(n) =>
      var s1 := Advance(s);
      if Peek(s1) == TkLParen {
        CallCompiles(s);
      } else {
        SlotPrefix(s1.locals, names, n);
        AdvancePut(s, Encode(LoadLocal(Slot(s1.locals, n))));
      }
    case TkLParen => ParenCompiles(s, names);
    case TkMinus => NegationCompiles(s, names);
    case _ =>
  }

  lemma {:induction false} ParenCompiles(s: Hc, names: seq<Name>)
    requires s.Valid() && Peek(s) == TkLParen && s.locals <= names && !Primary(s).0.Failed()
    ensures var (t, e) := Primary(s); Compiled(s, t, e, names) && IsPrimary(e)
    decreases s.Left(), 0
  {
    hide Put, Expect, PutCall, Encode, Did, Expression, WellLexed;
    var (s1, e) := Expression(Advance(s));
    DidAdvance(s);
    ExpressionCompiles(Advance(s), names);
    DidExpect(s1, TkRParen, -77);
    var code, sites := EmitE(e, names, []), SitesE(e, |s.code|);
    Then(s, Advance(s), s1, [TkLParen], [], [], SpellE(e), code, sites);
    assert [] + code == code && [] + sites == sites;
    ThenTokens(s, s1, Expect(s1, TkRParen, -77), [TkLParen] + SpellE(e), code, sites, [TkRParen]);
  }

  lemma CallCompiles(s: Hc)
    requires s.Valid() && Peek(s).TkIdent? && Peek(Advance(s)) == TkLParen && !Primary(s).0.Failed()
    ensures Did(s, Primary(s).0, [Peek(s), TkLParen, TkRParen], Encode(Call(0)), [Symbol(Peek(s).name, |s.code| + 1)])
  {
    hide Put, Expect, PutCall, Encode, Did;
    var s1 := Advance(s);
    var s2 := Advance(s1);
    var s3 := Expect(s2, TkRParen, -75);
    DidAdvance(s);
    DidAdvance(s1);
    DidExpect(s2, TkRParen, -75);
    DidPutCall(s3, s.current);
    ThenTokens(s, s1, s2, [Peek(s)], [], [], [TkLParen]);
    ThenTokens(s, s2, s3, [Peek(s)] + [TkLParen], [], [], [TkRParen]);
    var site := [Symbol(Peek(s).name, |s.code| + 1)];
    Then(s, s3, PutCall(s3, s.current), [Peek(s)] + [TkLParen] + [TkRParen], [], [], [], Encode(Call(0)), site);
    assert [Peek(s)] + [TkLParen] + [TkRParen] + [] == [Peek(s), TkLParen, TkRParen];
    assert [] + Encode(Call(0)) == Encode(Call(0)) && [] + site == site;
  }

  lemma {:induction false} NegationCompiles(s: Hc, names: seq<Name>)
    requires s.Valid() && s.locals <= names && Peek(s) == TkMinus && !Primary(s).0.Failed()
    ensures var (t, e) := Primary(s); Compiled(s, t, e, names) && IsPrimary(e)
    decreases s.Left(), 0
  {
    hide Put, Expect, PutCall, Encode, Did;
    var zero := Encode(PushI32(0));
    var s1 := Put(Advance(s), zero);
    var (s2, e) := Primary(s1);
    AdvancePut(s, zero);
    PrimaryCompiles(s1, names);
    DidPut(s2, [SUB]);
    var code, sites := EmitE(e, names, []), SitesE(e, |s1.code|);
    assert |s1.code| == |s.code| + 5 by { assert s1.code == s.code + zero by { DidCode(s, s1, [TkMinus], zero, []); } }
    Then(s, s1, s2, [TkMinus], zero, [], SpellE(e), code, sites);
    ThenBytes(s, s2, Put(s2, [SUB]), [TkMinus] + SpellE(e), zero + code, [] + sites, [SUB]);
    BinaryCode(Sub);
    assert [] + sites == sites;
  }

  lemma DidCode(s: Hc, t: Hc, toks: seq<Token>, bytes: seq<byte>, sites: seq<Symbol>)
    requires Did(s, t, toks, bytes, sites)
    ensures t.code == s.code + bytes && t.Valid() && !t.Failed() && t.functions == s.functions
  {
  }

  lemma BinaryCode(op: BinOp)
    ensures Encode(Binary(op)) == [OpcodeOf(op)]
  {
  }

  /** An operator and its right operand extend a compiled left operand. */
  lemma OperandCompiles(s0: Hc, s: Hc, left: Expr, op: BinOp, s1: Hc, right: Expr, names: seq<Name>)
    requires Compiled(s0, s, left, names) && Peek(s) == OpToken(op)
    requires Compiled(Advance(s), s1, right, names) && !Put(s1, [OpcodeOf(op)]).Failed()
    ensures Compiled(s0, Put(s1, [OpcodeOf(op)]), Bin(op, left, right), names)
  {
    hide Put, Encode, Did;
    var a, b := EmitE(left, names, []), EmitE(right, names, []);
    var at := |s0.code|;
    DidCode(s0, s, SpellE(left), a, SitesE(left, at));
    DidCode(Advance(s), s1, SpellE(right), b, SitesE(right, |Advance(s).code|));
    DidAdvance(s);
    DidPut(s1, [OpcodeOf(op)]);
    ThenTokens(s0, s, Advance(s), SpellE(left), a, SitesE(left, at), [OpToken(op)]);
    Then(s0, Advance(s), s1, SpellE(left) + [OpToken(op)], a, SitesE(left, at), SpellE(right), b,
         SitesE(right, at + SizeE(left)));
    ThenBytes(s0, s1, Put(s1, [OpcodeOf(op)]), SpellE(left) + [OpToken(op)] + SpellE(right), a + b,
              SitesE(left, at) + SitesE(right, at + SizeE(left)), [OpcodeOf(op)]);
    BinaryCode(op);
  }

  lemma {:induction false} FactorTailCompiles(s0: Hc, s: Hc, left: Expr, names: seq<Name>)
    requires Compiled(s0, s, left, names) && s.Valid() && s.locals <= names && IsFactor(left)
    requires !FactorTail(s, left).0.Failed()
    ensures var (t, e) := FactorTail(s, left); Compiled(s0, t, e, names) && IsFactor(e)
    decreases s.Left(), 2
  {
    hide Put, Encode, Did;
    if !s.Failed() && (Peek(s) == TkStar || Peek(s) == TkSlash) {
      var op := if Peek(s) == TkStar then Mul else Div;
      var (s1, right) := Primary(Advance(s));
      PrimaryCompiles(Advance(s), names);
      OperandCompiles(s0, s, left, op, s1, right, names);
      FactorTailCompiles(s0, Put(s1, [OpcodeOf(op)]), Bin(op, left, right), names);
    }
  }

  lemma {:induction false} FactorCompiles(s: Hc, names: seq<Name>)
    requires s.Valid() && s.locals <= names && !Factor(s).0.Failed()
    ensures var (t, e) := Factor(s); Compiled(s, t, e, names) && IsFactor(e)
    decreases s.Left(), 3
  {
    hide Did;
    var (s1, e) := Primary(s);
    PrimaryCompiles(s, names);
    FactorTailCompiles(s, s1, e, names);
  }

  lemma {:induction false} TermTailCompiles(s0: Hc, s: Hc, left: Expr, names: seq<Name>)
    requires Compiled(s0, s, left, names) && s.Valid() && s.locals <= names && IsTerm(left)
    requires !TermTail(s, left).0.Failed()
    ensures var (t, e) := TermTail(s, left); Compiled(s0, t, e, names) && IsTerm(e)
    decreases s.Left(), 4
  {
    hide Put, Encode, Did;
    if !s.Failed() && (Peek(s) == TkPlus || Peek(s) == TkMinus) {
      var op := if Peek(s) == TkPlus then Add else Sub;
      var (s1, right) := Factor(Advance(s));
      FactorCompiles(Advance(s), names);
      OperandCompiles(s0, s, left, op, s1, right, names);
      TermTailCompiles(s0, Put(s1, [OpcodeOf(op)]), Bin(op, left, right), names);
    }
  }

  lemma {:induction false} TermCompiles(s: Hc, names: seq<Name>)
    requires s.Valid() && s.locals <= names && !Term(s).0.Failed()
    ensures var (t, e) := Term(s); Compiled(s, t, e, names) && IsTerm(e)
    decreases s.Left(), 5
  {
    hide Did;
    var (s1, e) := Factor(s);
    FactorCompiles(s, names);
    TermTailCompiles(s, s1, e, names);
  }

  lemma TermIsExpression(e: Expr)
    requires IsTerm(e)
    ensures IsExpression(e)
  {
    assert e.Bin? && !IsAddOp(e.op) && !IsMulOp(e.op) ==> !IsFactor(e);
  }

  /** Main result for expressions: accepted tokens spell a tree with left-associative precedence and at
      most one comparison, and the bytes appended are that tree's code. */
  lemma {:induction false} ExpressionCompiles(s: Hc, names: seq<Name>)
    requires s.Valid() && s.locals <= names && !Expression(s).0.Failed()
    ensures var (t, e) := Expression(s); Compiled(s, t, e, names) && IsExpression(e)
    decreases s.Left(), 6
  {
    hide Put, Encode, Did, Term, EmitE, SpellE, SitesE, WellFormedE;
    var (s1, left) := Term(s);
    TermCompiles(s, names);
    if Comparison(Peek(s1)).Some? {
      var op := Comparison(Peek(s1)).value;
      var (s2, right) := Term(Advance(s1));
      TermCompiles(Advance(s1), names);
      OperandCompiles(s, s1, left, op, s2, right, names);
    } else {
      TermIsExpression(left);
    }
  }

  // ---------- statements ----------

  /** The step from s to t compiled st; its declarations are the new locals. */
  ghost predicate CompiledS(s: Hc, t: Hc, st: Stmt, names: seq<Name>) {
    && Did(s, t, SpellS(st), EmitS(st, |s.code|, names, []), SitesS(st, |s.code|))
    && WellFormedS(st, names) && t.locals == s.locals + DeclaredS(st)
  }

  ghost predicate CompiledSs(s: Hc, t: Hc, ss: Stmts, names: seq<Name>) {
    && Did(s, t, SpellSs(ss), EmitSs(ss, |s.code|, names, []), SitesSs(ss, |s.code|))
    && WellFormedSs(ss, names) && t.locals == s.locals + DeclaredSs(ss)
  }

  ghost predicate CompiledBlock(s: Hc, t: Hc, ss: Stmts, names: seq<Name>) {
    && Did(s, t, SpellBlock(ss), EmitSs(ss, |s.code|, names, []), SitesSs(ss, |s.code|))
    && WellFormedSs(ss, names) && t.locals == s.locals + DeclaredSs(ss)
  }

  /** Like CompiledS for a statement whose first token has been consumed already. */
  ghost predicate CompiledRest(s: Hc, t: Hc, st: Stmt, names: seq<Name>) {
    && Did(s, t, SpellS(st)[1..], EmitS(st, |s.code|, names, []), SitesS(st, |s.code|))
    && WellFormedS(st, names) && t.locals == s.locals + DeclaredS(st)
  }

  lemma FirstToken(s: Hc, t: Hc, st: Stmt, names: seq<Name>)
    requires s.Valid() && Peek(s) != TkEof && !s.Failed()
    requires SpellS(st) != [] && SpellS(st)[0] == Peek(s) && CompiledRest(Advance(s), t, st, names)
    ensures CompiledS(s, t, st, names)
  {
    hide Did, EmitS, SitesS, WellFormedS, DeclaredS, SpellS;
    var code, sites := EmitS(st, |s.code|, names, []), SitesS(st, |s.code|);
    DidAdvance(s);
    Then(s, Advance(s), t, [Peek(s)], [], [], SpellS(st)[1..], code, sites);
    assert [Peek(s)] + SpellS(st)[1..] == SpellS(st);
    assert [] + code == code && [] + sites == sites;
  }

  // ---------- what the pieces of each statement amount to ----------

  lemma AsReturn(s: Hc, t: Hc, e: Expr, names: seq<Name>)
    requires Did(s, t, SpellE(e) + [TkSemi], EmitE(e, names, []) + [RET], SitesE(e, |s.code|))
    requires WellFormedE(e, names) && t.locals == s.locals
    ensures CompiledRest(s, t, Return(e), names)
  {
    hide Did, Encode, EmitE, SitesE, SpellE, WellFormedE, EmitSs, SitesSs, SpellSs, WellFormedSs, DeclaredSs, HalfBytes,
      Unescape;
    PopCode();
    assert SpellS(Return(e))[1..] == SpellE(e) + [TkSemi];
  }

  lemma AsPrint(s: Hc, t: Hc, e: Expr, names: seq<Name>)
    requires Did(s, t, [TkLParen] + SpellE(e) + [TkRParen] + [TkSemi], EmitE(e, names, []) + [PRINT_INT],
                 SitesE(e, |s.code|))
    requires WellFormedE(e, names) && t.locals == s.locals
    ensures CompiledRest(s, t, PrintExpr(e), names)
  {
    hide Did, Encode, EmitE, SitesE, SpellE, WellFormedE, EmitSs, SitesSs, SpellSs, WellFormedSs, DeclaredSs, HalfBytes,
      Unescape;
    PopCode();
    assert SpellS(PrintExpr(e))[1..] == [TkLParen] + SpellE(e) + [TkRParen] + [TkSemi];
  }

  lemma AsSleep(s: Hc, t: Hc, ms: i32, names: seq<Name>)
    requires 0 <= ms < 0x1_0000
    requires Did(s, t, [TkLParen] + [TkNumber(ms)] + [TkRParen] + [TkSemi], [SLEEP] + HalfBytes(ms), [])
    requires WellFormedS(SleepFor(ms), names) && t.locals == s.locals
    ensures CompiledRest(s, t, SleepFor(ms), names)
  {
    hide Did, Encode, EmitE, SitesE, SpellE, WellFormedE, EmitSs, SitesSs, SpellSs, WellFormedSs, DeclaredSs, HalfBytes,
      Unescape;
    SleepCode(ms);
    assert SpellS(SleepFor(ms))[1..] == [TkLParen] + [TkNumber(ms)] + [TkRParen] + [TkSemi];
  }

  lemma AsGpio(s: Hc, t: Hc, names: seq<Name>)
    requires Did(s, t, [TkLParen, TkRParen, TkSemi], [GPIO], [])
    requires t.locals == s.locals
    ensures CompiledRest(s, t, ToggleGpio, names)
  {
    hide Did, Encode, EmitE, SitesE, SpellE, WellFormedE, EmitSs, SitesSs, SpellSs, WellFormedSs, DeclaredSs, HalfBytes,
      Unescape;
    PopCode();
    assert SpellS(ToggleGpio)[1..] == [TkLParen, TkRParen, TkSemi];
  }

  lemma AsWrite(s: Hc, t: Hc, raw: seq<byte>, n: Option<i32>, names: seq<Name>)
    requires var head, given := [TkLParen, TkNumber(1), TkComma, TkString(raw)],
                                if n.Some? then [TkComma, TkNumber(n.value)] else [];
             Did(s, t, head + given + [TkRParen] + [TkSemi], Encode(Write(Text(raw))), [])
    requires Unescape(raw).Some? && t.locals == s.locals
    ensures CompiledRest(s, t, WriteString(raw, n), names)
  {
    hide Text, Did, Encode, EmitE, SitesE, SpellE, WellFormedE, EmitSs, SitesSs, SpellSs, WellFormedSs, DeclaredSs,
      HalfBytes, Unescape;
    assert SpellS(WriteString(raw, n))[1..] ==
             [TkLParen, TkNumber(1), TkComma,
              TkString(raw)] + (if n.Some? then [TkComma, TkNumber(n.value)] else []) + [TkRParen] + [TkSemi];
  }

  lemma AsBlock(s: Hc, t: Hc, b: Stmts, names: seq<Name>)
    requires Did(s, t, SpellSs(b) + [TkRBrace], EmitSs(b, |s.code|, names, []), SitesSs(b, |s.code|))
    requires WellFormedSs(b, names) && t.locals == s.locals + DeclaredSs(b)
    ensures CompiledRest(s, t, Block(b), names)
  {
    hide Did, Encode, EmitE, SitesE, SpellE, WellFormedE, EmitSs, SitesSs, SpellSs, WellFormedSs, DeclaredSs, HalfBytes,
      Unescape;
    assert SpellS(Block(b))[1..] == SpellSs(b) + [TkRBrace];
  }

  lemma AsAssign(s: Hc, t: Hc, n: Name, e: Expr, names: seq<Name>)
    requires Did(s, t, [TkAssign] + SpellE(e) + [TkSemi], EmitE(e, names, []) + Encode(StoreLocal(Slot(names, n))),
                 SitesE(e, |s.code|))
    requires n in names && WellFormedE(e, names) && t.locals == s.locals
    ensures CompiledRest(s, t, Assign(n, e), names)
  {
    hide Did, Encode, EmitE, SitesE, SpellE, WellFormedE, EmitSs, SitesSs, SpellSs, WellFormedSs, DeclaredSs, HalfBytes,
      Unescape;
    assert SpellS(Assign(n, e))[1..] == [TkAssign] + SpellE(e) + [TkSemi];
  }

  lemma AsCall(s: Hc, t: Hc, n: Name, names: seq<Name>)
    requires Did(s, t, [TkLParen, TkRParen, TkSemi], Encode(Call(0)) + Encode(Pop), [Symbol(n, |s.code| + 1)])
    requires t.locals == s.locals
    ensures CompiledRest(s, t, CallStmt(n), names)
  {
    hide Did, Encode, EmitE, SitesE, SpellE, WellFormedE, EmitSs, SitesSs, SpellSs, WellFormedSs, DeclaredSs, HalfBytes,
      Unescape;
    assert SpellS(CallStmt(n))[1..] == [TkLParen, TkRParen, TkSemi];
  }

  lemma AsDeclare(s: Hc, t: Hc, n: Name, names: seq<Name>)
    requires Did(s, t, [TkIdent(n)] + [TkSemi], Encode(PushI32(0)) + Encode(StoreLocal(Slot(names, n))), [])
    requires n in names && t.locals == s.locals + [n]
    ensures CompiledRest(s, t, Declare(n), names)
  {
    hide Did, Encode, EmitE, SitesE, SpellE, WellFormedE, EmitSs, SitesSs, SpellSs, WellFormedSs, DeclaredSs, HalfBytes,
      Unescape;
    assert SpellS(Declare(n))[1..] == [TkIdent(n)] + [TkSemi];
  }

  lemma AsDeclareInit(s: Hc, t: Hc, n: Name, e: Expr, names: seq<Name>)
    requires Did(s, t, [TkIdent(n)] + ([TkAssign] + SpellE(e) + [TkSemi]),
                 EmitE(e, names, []) + Encode(StoreLocal(Slot(names, n))), SitesE(e, |s.code|))
    requires n in names && WellFormedE(e, names) && t.locals == s.locals + [n]
    ensures CompiledRest(s, t, DeclareInit(n, e), names)
  {
    hide Did, Encode, EmitE, SitesE, SpellE, WellFormedE, EmitSs, SitesSs, SpellSs, WellFormedSs, DeclaredSs, HalfBytes,
      Unescape;
    assert SpellS(DeclareInit(n, e))[1..] == [TkIdent(n)] + ([TkAssign] + SpellE(e) + [TkSemi]);
  }

  lemma SleepCode(ms: nat)
    ensures Encode(Sleep(ms)) == [SLEEP] + HalfBytes(ms)
  {
  }

  /** Filling a jump's hole turns the zero operand into the target. */
  lemma FillHole(s: Hc, t: Hc, toks: seq<Token>, a: seq<byte>, op: byte, b: seq<byte>, sites: seq<Symbol>, value: nat)
    requires Did(s, t, toks, a + [op, 0, 0] + b, sites)
    ensures Did(s, Patch(t, |s.code| + |a| + 1, value), toks, a + ([op] + HalfBytes(value)) + b, sites)
  {
    var k := |s.code| + |a| + 1;
    assert t.code == (s.code + a) + [op] + ([0, 0] + b);
    assert Patch(t, k, value).code == s.code + (a + ([op] + HalfBytes(value)) + b);
  }

  lemma SlotAppend(locals: seq<Name>, n: Name)
    requires Slot(locals, n) == |locals|
    ensures Slot(locals + [n], n) == |locals|
  {
    if locals != [] {
      SlotAppend(locals[1..], n);
      assert (locals + [n])[1..] == locals[1..] + [n];
    }
  }

  /** ( expression ) */
  lemma ConditionCompiles(s: Hc, error1: int, error2: int, names: seq<Name>)
    requires s.Valid() && s.locals <= names
    requires !Expect(Expression(Expect(s, TkLParen, error1)).0, TkRParen, error2).Failed()
    ensures var (s1, c) := Expression(Expect(s, TkLParen, error1));
            var t := Expect(s1, TkRParen, error2);
            && Did(s, t, [TkLParen] + SpellE(c) + [TkRParen], EmitE(c, names, []), SitesE(c, |s.code|))
            && WellFormedE(c, names) && t.locals == s.locals
  {
    hide Did, Put, Expression, Expect;
    var s0 := Expect(s, TkLParen, error1);
    var (s1, c) := Expression(s0);
    DidExpect(s, TkLParen, error1);
    ExpressionCompiles(s0, names);
    DidExpect(s1, TkRParen, error2);
    var code, sites := EmitE(c, names, []), SitesE(c, |s.code|);
    Then(s, s0, s1, [TkLParen], [], [], SpellE(c), code, sites);
    assert [] + code == code && [] + sites == sites;
    ThenTokens(s, s1, Expect(s1, TkRParen, error2), [TkLParen] + SpellE(c), code, sites, [TkRParen]);
  }

  /** The declared name becomes the next slot. */
  lemma DeclareHead(s: Hc, names: seq<Name>)
    requires s.Valid()
    requires var s2 := AddLocal(Expect(s, IDENT, -80), s.current); !s2.Failed() && s2.locals <= names
    ensures var (n, s2) := (TokenName(Peek(s)), AddLocal(Expect(s, IDENT, -80), s.current));
            && Did(s, s2, [TkIdent(n)], [], []) && s2.locals == s.locals + [n]
            && Slot(s.locals, n) == |s.locals| == Slot(names, n) && n in names
  {
    hide Did, Expect;
    var n := TokenName(Peek(s));
    var s1 := Expect(s, IDENT, -80);
    var s2 := AddLocal(s1, s.current);
    DidExpect(s, IDENT, -80);
    assert s2 == s1.(locals := s1.locals + [n]);
    DidNothing(s1, s2);
    ThenTokens(s, s1, s2, [TkIdent(n)], [], [], []);
    assert [TkIdent(n)] + [] == [TkIdent(n)];
    SlotAppend(s1.locals, n);
    SlotPrefix(s2.locals, names, n);
  }

  /** Without initialiser: zero, semicolon, store. */
  lemma DeclareZero(s: Hc, slot: nat)
    requires s.Valid() && !Put(Expect(Put(s, Encode(PushI32(0))), TkSemi, -81), Encode(StoreLocal(slot))).Failed()
    ensures Did(s, Put(Expect(Put(s, Encode(PushI32(0))), TkSemi, -81), Encode(StoreLocal(slot))),
                [TkSemi], Encode(PushI32(0)) + Encode(StoreLocal(slot)), [])
  {
    hide Did, Expect, Put, Encode;
    var zero, store := Encode(PushI32(0)), Encode(StoreLocal(slot));
    var s1 := Put(s, zero);
    var s2 := Expect(s1, TkSemi, -81);
    DidPut(s, zero);
    DidExpect(s1, TkSemi, -81);
    DidPut(s2, store);
    ThenTokens(s, s1, s2, [], zero, [], [TkSemi]);
    assert [] + [TkSemi] == [TkSemi];
    ThenBytes(s, s2, Put(s2, store), [TkSemi], zero, [], store);
  }

  lemma DeclareInitCompiles(s: Hc, s2: Hc, n: Name, names: seq<Name>)
    requires Did(s, s2, [TkIdent(n)], [], []) && s2.Valid() && Peek(s2) == TkAssign
    requires s2.locals == s.locals + [n] && s2.locals <= names && Slot(names, n) == |s.locals| && n in names
    requires !Put(Expect(Expression(Advance(s2)).0, TkSemi, -81), Encode(StoreLocal(|s.locals|))).Failed()
    ensures var (s3, e) := Expression(Advance(s2));
            CompiledRest(s, Put(Expect(s3, TkSemi, -81), Encode(StoreLocal(|s.locals|))), DeclareInit(n, e), names)
  {
    hide Did, Expression, Expect, Put, Encode, EmitE, SitesE, SpellE, WellFormedE, CompiledRest;
    var (s3, e) := Expression(Advance(s2));
    var t := Put(Expect(s3, TkSemi, -81), Encode(StoreLocal(|s.locals|)));
    var code, sites := EmitE(e, names, []) + Encode(StoreLocal(|s.locals|)), SitesE(e, |s.code|);
    DidCode(s, s2, [TkIdent(n)], [], []);
    AssignedCompiles(s2, e, |s.locals|, -81, names);
    Then(s, s2, t, [TkIdent(n)], [], [], [TkAssign] + SpellE(e) + [TkSemi], code, sites);
    assert [] + code == code && [] + sites == sites;
    AsDeclareInit(s, t, n, e, names);
  }

  lemma DeclareZeroCompiles(s: Hc, s2: Hc, n: Name, names: seq<Name>)
    requires Did(s, s2, [TkIdent(n)], [], []) && s2.Valid()
    requires s2.locals == s.locals + [n] && s2.locals <= names && Slot(names, n) == |s.locals| && n in names
    requires !Put(Expect(Put(s2, Encode(PushI32(0))), TkSemi, -81), Encode(StoreLocal(|s.locals|))).Failed()
    ensures CompiledRest(s, Put(Expect(Put(s2, Encode(PushI32(0))), TkSemi, -81), Encode(StoreLocal(|s.locals|))),
                         Declare(n), names)
  {
    hide Did, Expression, Expect, Put, Encode, CompiledRest;
    var t := Put(Expect(Put(s2, Encode(PushI32(0))), TkSemi, -81), Encode(StoreLocal(|s.locals|)));
    var code := Encode(PushI32(0)) + Encode(StoreLocal(|s.locals|));
    DeclareZero(s2, |s.locals|);
    Then(s, s2, t, [TkIdent(n)], [], [], [TkSemi], code, []);
    assert [] + code == code;
    AsDeclare(s, t, n, names);
  }

  lemma DeclareCompiles(s: Hc, names: seq<Name>)
    requires s.Valid() && !DeclareStatement(s).0.Failed() && DeclareStatement(s).0.locals <= names
    ensures var (t, st) := DeclareStatement(s); CompiledRest(s, t, st, names) && SpellS(st)[0] == TkInt
  {
    hide Did, Expression, Expect, Put, Encode, AddLocal, CompiledRest;
    var s2 := AddLocal(Expect(s, IDENT, -80), s.current);
    DeclareHead(s, names);
    if Peek(s2) == TkAssign {
      DeclareInitCompiles(s, s2, TokenName(Peek(s)), names);
    } else {
      DeclareZeroCompiles(s, s2, TokenName(Peek(s)), names);
    }
  }

  lemma DidNothing(s: Hc, t: Hc)
    requires s.Valid() && t.Valid() && !s.Failed() && t == s.(locals := t.locals)
    ensures Did(s, t, [], [], [])
  {
  }

  /** = expression ; into a known slot. */
  lemma AssignedCompiles(s: Hc, e: Expr, slot: nat, error: int, names: seq<Name>)
    requires s.Valid() && Peek(s) == TkAssign && s.locals <= names && e == Expression(Advance(s)).1
    requires !Put(Expect(Expression(Advance(s)).0, TkSemi, error), Encode(StoreLocal(slot))).Failed()
    ensures var t := Put(Expect(Expression(Advance(s)).0, TkSemi, error), Encode(StoreLocal(slot)));
            && Did(s, t, [TkAssign] + SpellE(e) + [TkSemi], EmitE(e, names, []) + Encode(StoreLocal(slot)),
                   SitesE(e, |s.code|))
            && WellFormedE(e, names) && t.locals == s.locals
  {
    hide Did, Expression, Expect, Put, Encode;
    var s1 := Expression(Advance(s)).0;
    var s2 := Expect(s1, TkSemi, error);
    var code, sites := EmitE(e, names, []), SitesE(e, |s.code|);
    DidAdvance(s);
    ExpressionCompiles(Advance(s), names);
    DidExpect(s1, TkSemi, error);
    DidPut(s2, Encode(StoreLocal(slot)));
    Then(s, Advance(s), s1, [TkAssign], [], [], SpellE(e), code, sites);
    assert [] + code == code && [] + sites == sites;
    ThenTokens(s, s1, s2, [TkAssign] + SpellE(e), code, sites, [TkSemi]);
    ThenBytes(s, s2, Put(s2, Encode(StoreLocal(slot))), [TkAssign] + SpellE(e) + [TkSemi], code, sites,
              Encode(StoreLocal(slot)));
  }

  lemma NameCompiles(s: Hc, token: nat, n: Name, names: seq<Name>)
    requires s.Valid() && token < |s.tokens| && s.tokens[token] == TkIdent(n)
    requires s.locals <= names && !NameStatement(s, token, n).0.Failed()
    ensures var (t, st) := NameStatement(s, token, n); CompiledRest(s, t, st, names) && SpellS(st)[0] == TkIdent(n)
  {
    hide Did, Expression, Expect, Put, Encode, PutCall, CompiledRest, EmitE, SitesE, SpellE, WellFormedE;
    if Peek(s) == TkAssign {
      var slot := Slot(s.locals, n);
      var e := Expression(Advance(s)).1;
      SlotPrefix(s.locals, names, n);
      AssignedCompiles(s, e, slot, -107, names);
      AsAssign(s, NameStatement(s, token, n).0, n, e, names);
    } else {
      CallStatementCompiles(s, token);
      AsCall(s, NameStatement(s, token, n).0, n, names);
    }
  }

  /** ( ) ; after a function name. */
  lemma CallStatementCompiles(s: Hc, token: nat)
    requires s.Valid() && Peek(s) == TkLParen && token < |s.tokens| && s.tokens[token].TkIdent?
    requires !Put(PutCall(Expect(Expect(Advance(s), TkRParen, -108), TkSemi, -109), token), [POP]).Failed()
    ensures Did(s, Put(PutCall(Expect(Expect(Advance(s), TkRParen, -108), TkSemi, -109), token), [POP]),
                [TkLParen, TkRParen,
                 TkSemi], Encode(Call(0)) + Encode(Pop), [Symbol(s.tokens[token].name, |s.code| + 1)])
  {
    hide Did, Expect, Put, Encode, PutCall;
    var s0 := Advance(s);
    var s1 := Expect(s0, TkRParen, -108);
    var s2 := Expect(s1, TkSemi, -109);
    var s3 := PutCall(s2, token);
    var site := [Symbol(s.tokens[token].name, |s.code| + 1)];
    DidAdvance(s);
    DidExpect(s0, TkRParen, -108);
    DidExpect(s1, TkSemi, -109);
    DidPutCall(s2, token);
    DidPut(s3, [POP]);
    ThenTokens(s, s0, s1, [TkLParen], [], [], [TkRParen]);
    ThenTokens(s, s1, s2, [TkLParen] + [TkRParen], [], [], [TkSemi]);
    ThenBytes(s2, s3, Put(s3, [POP]), [], Encode(Call(0)), site, [POP]);
    PopCode();
    Then(s, s2, Put(s3, [POP]), [TkLParen] + [TkRParen] + [TkSemi], [], [], [], Encode(Call(0)) + Encode(Pop), site);
    assert [TkLParen] + [TkRParen] + [TkSemi] + [] == [TkLParen, TkRParen, TkSemi];
    assert [] + (Encode(Call(0)) + Encode(Pop)) == Encode(Call(0)) + Encode(Pop) && [] + site == site;
  }

  lemma PopCode()
    ensures Encode(Pop) == [POP] && Encode(Ret) == [RET] && Encode(PrintInt) == [PRINT_INT] && Encode(Gpio) == [GPIO]
  {
  }

  /** ( expression ) and the branch over what follows. */
  lemma GuardCompiles(s: Hc, error1: int, error2: int, names: seq<Name>)
    requires s.Valid() && s.locals <= names
    requires !PutJump(Expect(Expression(Expect(s, TkLParen, error1)).0, TkRParen, error2), JZ).Failed()
    ensures var (s1, c) := Expression(Expect(s, TkLParen, error1));
            var s2 := Expect(s1, TkRParen, error2);
            Guarded(s, PutJump(s2, JZ), c, names) && HoleAt(s2) == |s.code| + SizeE(c) + 1
  {
    hide Did, Expression, Expect, Put;
    var (s1, c) := Expression(Expect(s, TkLParen, error1));
    var s2 := Expect(s1, TkRParen, error2);
    var toks := [TkLParen] + SpellE(c) + [TkRParen];
    ConditionCompiles(s, error1, error2, names);
    DidCode(s, s2, toks, EmitE(c, names, []), SitesE(c, |s.code|));
    DidPut(s2, [JZ, 0, 0]);
    ThenBytes(s, s2, PutJump(s2, JZ), toks, EmitE(c, names, []), SitesE(c, |s.code|), [JZ, 0, 0]);
  }

  ghost predicate Guarded(s: Hc, g: Hc, c: Expr, names: seq<Name>) {
    && Did(s, g, [TkLParen] + SpellE(c) + [TkRParen], EmitE(c, names, []) + [JZ, 0, 0], SitesE(c, |s.code|))
    && WellFormedE(c, names) && g.locals == s.locals
  }

  /** A guard and its block, the branch still open. */
  lemma GuardedBlock(s: Hc, g: Hc, c: Expr, t: Hc, b: Stmts, names: seq<Name>)
    requires Guarded(s, g, c, names) && CompiledBlock(g, t, b, names)
    ensures var at := |s.code| + SizeE(c) + 3;
            && |g.code| == at && |t.code| == at + SizeSs(b)
            && Did(s, t, [TkLParen] + SpellE(c) + [TkRParen] + SpellBlock(b),
                   EmitE(c, names, []) + [JZ, 0, 0] + EmitSs(b, at, names, []), SitesE(c, |s.code|) + SitesSs(b, at))
  {
    hide Did, EmitE, EmitSs, SpellE, SpellBlock, SitesE, SitesSs, WellFormedE, WellFormedSs, DeclaredSs;
    var toks := [TkLParen] + SpellE(c) + [TkRParen];
    var code := EmitE(c, names, []) + [JZ, 0, 0];
    DidCode(s, g, toks, code, SitesE(c, |s.code|));
    DidCode(g, t, SpellBlock(b), EmitSs(b, |g.code|, names, []), SitesSs(b, |g.code|));
    Then(s, g, t, toks, code, SitesE(c, |s.code|), SpellBlock(b), EmitSs(b, |g.code|, names, []), SitesSs(b, |g.code|));
  }

  lemma JumpCode(target: nat)
    ensures Encode(Jz(target)) == [JZ] + HalfBytes(target) && Encode(Jmp(target)) == [JMP] + HalfBytes(target)
  {
  }

  lemma IfCloses(s: Hc, g: Hc, c: Expr, t: Hc, b: Stmts, names: seq<Name>)
    requires Guarded(s, g, c, names) && CompiledBlock(g, t, b, names)
    ensures CompiledRest(s, Patch(t, |s.code| + SizeE(c) + 1, |t.code|), If(c, b), names)
  {
    hide Did, Patch, Encode, EmitE, SitesE, SpellE, WellFormedE, EmitSs, SitesSs, SpellBlock, WellFormedSs, DeclaredSs,
      SizeE, SizeSs;
    var at := |s.code| + SizeE(c) + 3;
    var toks := [TkLParen] + SpellE(c) + [TkRParen] + SpellBlock(b);
    GuardedBlock(s, g, c, t, b, names);
    FillHole(s, t, toks, EmitE(c, names, []), JZ, EmitSs(b, at, names, []), SitesE(c, |s.code|) + SitesSs(b, at),
             |t.code|);
    JumpCode(|t.code|);
    assert SpellS(If(c, b))[1..] == toks;
  }

  /** Opened(u): guard, then-block and else with its jump open. */
  ghost predicate Opened(s: Hc, u: Hc, c: Expr, b: Stmts, names: seq<Name>) {
    var at := |s.code| + SizeE(c) + 3;
    && |u.code| == at + SizeSs(b) + 3
    && Did(s, u, [TkLParen] + SpellE(c) + [TkRParen] + SpellBlock(b) + [TkElse],
           (EmitE(c, names, []) + Encode(Jz(|u.code|)) + EmitSs(b, at, names, [])) + [JMP, 0, 0],
           SitesE(c, |s.code|) + SitesSs(b, at))
  }

  /** After the then-block: else, its jump, the first branch filled. */
  lemma ElseJump(s: Hc, g: Hc, c: Expr, t: Hc, b: Stmts, names: seq<Name>)
    requires Guarded(s, g, c, names) && CompiledBlock(g, t, b, names)
    requires t.Valid() && Peek(t) == TkElse && !PutJump(Advance(t), JMP).Failed()
    ensures var u := PutJump(Advance(t), JMP);
            var at := |s.code| + SizeE(c) + 3;
            && |u.code| == at + SizeSs(b) + 3
            && Did(s, Patch(u, |s.code| + SizeE(c) + 1, |u.code|),
                   [TkLParen] + SpellE(c) + [TkRParen] + SpellBlock(b) + [TkElse],
                   (EmitE(c, names, []) + Encode(Jz(|u.code|)) + EmitSs(b, at, names, [])) + [JMP, 0, 0],
                   SitesE(c, |s.code|) + SitesSs(b, at))
  {
    hide Did, Patch, Encode, EmitE, SitesE, SpellE, WellFormedE, Put, EmitSs, SitesSs, SpellBlock, Guarded,
      CompiledBlock, SizeE, SizeSs;
    var at := |s.code| + SizeE(c) + 3;
    var toks := [TkLParen] + SpellE(c) + [TkRParen] + SpellBlock(b);
    var cc, bc := EmitE(c, names, []), EmitSs(b, at, names, []);
    var sites := SitesE(c, |s.code|) + SitesSs(b, at);
    var u := PutJump(Advance(t), JMP);
    GuardedBlock(s, g, c, t, b, names);
    AdvancePut(t, [JMP, 0, 0]);
    Then(s, t, u, toks, cc + [JZ, 0, 0] + bc, sites, [TkElse], [JMP, 0, 0], []);
    assert sites + [] == sites;
    Regroup(cc + [JZ, 0, 0], bc, [JMP, 0, 0]);
    DidCode(t, u, [TkElse], [JMP, 0, 0], []);
    FillHole(s, u, toks + [TkElse], cc, JZ, bc + [JMP, 0, 0], sites, |u.code|);
    JumpCode(|u.code|);
    Regroup(cc + Encode(Jz(|u.code|)), bc, [JMP, 0, 0]);
  }

  lemma ElseOpens(s: Hc, g: Hc, c: Expr, t: Hc, b: Stmts, names: seq<Name>)
    requires Guarded(s, g, c, names) && CompiledBlock(g, t, b, names)
    requires t.Valid() && Peek(t) == TkElse && !PutJump(Advance(t), JMP).Failed()
    ensures var u := PutJump(Advance(t), JMP);
            var v := Patch(u, |s.code| + SizeE(c) + 1, |u.code|);
            Opened(s, v, c, b, names) && v.locals == s.locals + DeclaredSs(b) && |v.code| == |u.code|
  {
    hide Did, Put, EmitE, EmitSs, Encode, SpellE, SpellBlock, SitesE, SitesSs;
    ElseJump(s, g, c, t, b, names);
  }

  lemma ElseBlock(s: Hc, u: Hc, c: Expr, b: Stmts, t: Hc, e: Stmts, names: seq<Name>)
    requires Opened(s, u, c, b, names) && CompiledBlock(u, t, e, names)
    ensures var at := |s.code| + SizeE(c) + 3;
            && |t.code| == |u.code| + SizeSs(e)
            && Did(s, Patch(t, |u.code| - 2, |t.code|),
                   [TkLParen] + SpellE(c) + [TkRParen] + SpellBlock(b) + [TkElse] + SpellBlock(e),
                   EmitE(c, names, []) + Encode(Jz(|u.code|)) + EmitSs(b, at, names, []) + Encode(Jmp(|t.code|)) +
                   EmitSs(e, |u.code|, names, []),
                   SitesE(c, |s.code|) + SitesSs(b, at) + SitesSs(e, |u.code|))
  {
    hide Did, Patch, Encode, EmitE, SitesE, SpellE, WellFormedE, WellFormedSs, DeclaredSs, EmitSs, SitesSs, SpellBlock;
    var at := |s.code| + SizeE(c) + 3;
    var toks := [TkLParen] + SpellE(c) + [TkRParen] + SpellBlock(b) + [TkElse];
    var code := EmitE(c, names, []) + Encode(Jz(|u.code|)) + EmitSs(b, at, names, []);
    var sites := SitesE(c, |s.code|) + SitesSs(b, at);
    var ec := EmitSs(e, |u.code|, names, []);
    Then(s, u, t, toks, code + [JMP, 0, 0], sites, SpellBlock(e), ec, SitesSs(e, |u.code|));
    DidCode(u, t, SpellBlock(e), ec, SitesSs(e, |u.code|));
    FillHole(s, t, toks + SpellBlock(e), code, JMP, ec, sites + SitesSs(e, |u.code|), |t.code|);
    JumpCode(|t.code|);
  }

  lemma IfElseCloses(s: Hc, u: Hc, c: Expr, b: Stmts, t: Hc, e: Stmts, names: seq<Name>)
    requires WellFormedE(c, names) && WellFormedSs(b, names) && u.locals == s.locals + DeclaredSs(b)
    requires Opened(s, u, c, b, names) && CompiledBlock(u, t, e, names)
    requires t.Valid()
    ensures CompiledRest(s, Patch(t, |u.code| - 2, |t.code|), IfElse(c, b, e), names)
  {
    hide Did, Encode, EmitE, SitesE, SpellE, WellFormedE, EmitSs, SitesSs, SpellBlock, Opened, CompiledRest, DeclaredSs,
      WellFormedSs, SizeE, SizeSs;
    OpenedSize(s, u, c, b, names);
    ElseBlock(s, u, c, b, t, e, names);
    AppendNames(s.locals, DeclaredSs(b), DeclaredSs(e));
    PatchLocals(t, |u.code| - 2, |t.code|);
    hide Patch;
    AsIfElse(s, Patch(t, |u.code| - 2, |t.code|), c, b, e, names, |s.code| + SizeE(c) + 3, |u.code|);
  }

  lemma AppendNames(a: seq<Name>, b: seq<Name>, c: seq<Name>)
    ensures a + b + c == a + (b + c)
  {
  }

  lemma PatchLocals(t: Hc, operand: int, value: nat)
    requires t.Valid() && operand >= 0
    ensures Patch(t, operand, value).locals == t.locals
  {
  }

  lemma AsIfElse(s: Hc, t: Hc, c: Expr, b: Stmts, e: Stmts, names: seq<Name>, at: nat, elseAt: nat)
    requires at == |s.code| + SizeE(c) + 3 && elseAt == at + SizeSs(b) + 3
    requires Did(s, t, [TkLParen] + SpellE(c) + [TkRParen] + SpellBlock(b) + [TkElse] + SpellBlock(e),
                 EmitE(c, names, []) + Encode(Jz(elseAt)) + EmitSs(b, at, names, []) + Encode(Jmp(elseAt + SizeSs(e))) +
                 EmitSs(e, elseAt, names, []),
                 SitesE(c, |s.code|) + SitesSs(b, at) + SitesSs(e, elseAt))
    requires WellFormedE(c, names) && WellFormedSs(b, names) && WellFormedSs(e, names)
    requires t.locals == s.locals + (DeclaredSs(b) + DeclaredSs(e))
    ensures CompiledRest(s, t, IfElse(c, b, e), names)
  {
    hide Did, Encode, EmitE, SitesE, SpellE, WellFormedE, EmitSs, SitesSs, SpellBlock, SpellS, DeclaredS, WellFormedS,
      SitesS, EmitS, DeclaredSs, WellFormedSs, SizeE, SizeSs, SizeS;
    IfElseSpelling(c, b, e, names);
    IfElseCode(|s.code|, c, b, e, names, [], at, elseAt);
    IfElseSites(|s.code|, c, b, e);
  }

  lemma IfElseSpelling(c: Expr, b: Stmts, e: Stmts, names: seq<Name>)
    ensures SpellS(IfElse(c, b, e))[1..] ==
              [TkLParen] + SpellE(c) + [TkRParen] + SpellBlock(b) + [TkElse] + SpellBlock(e)
    ensures DeclaredS(IfElse(c, b, e)) == DeclaredSs(b) + DeclaredSs(e)
    ensures WellFormedE(c, names) && WellFormedSs(b, names) && WellFormedSs(e, names) ==>
              WellFormedS(IfElse(c, b, e), names)
  {
    hide SpellE, WellFormedE, SpellBlock;
  }

  lemma OpenedSize(s: Hc, u: Hc, c: Expr, b: Stmts, names: seq<Name>)
    requires Opened(s, u, c, b, names)
    ensures |u.code| == |s.code| + SizeE(c) + 3 + SizeSs(b) + 3
  {
    hide Did;
  }

  lemma Regroup(a: seq<byte>, b: seq<byte>, c: seq<byte>)
    ensures a + b + c == a + (b + c)
  {
  }

  lemma WhileBlock(s: Hc, g: Hc, c: Expr, t: Hc, b: Stmts, names: seq<Name>)
    requires Guarded(s, g, c, names) && CompiledBlock(g, t, b, names)
    requires t.Valid() && !Put(t, [JMP] + HalfBytes(|s.code|)).Failed()
    ensures var u := Put(t, [JMP] + HalfBytes(|s.code|));
            var at := |s.code| + SizeE(c) + 3;
            && |u.code| == at + SizeSs(b) + 3
            && Did(s, Patch(u, |s.code| + SizeE(c) + 1, |u.code|), [TkLParen] + SpellE(c) + [TkRParen] + SpellBlock(b),
                   EmitE(c, names, []) + Encode(Jz(|u.code|)) + EmitSs(b, at, names, []) + Encode(Jmp(|s.code|)),
                   SitesE(c, |s.code|) + SitesSs(b, at))
  {
    hide Did, Patch, Encode, EmitE, SitesE, SpellE, WellFormedE, Put, HalfBytes, EmitSs, SitesSs, SpellBlock, Guarded,
      CompiledBlock, SizeE, SizeSs;
    var at := |s.code| + SizeE(c) + 3;
    var toks := [TkLParen] + SpellE(c) + [TkRParen] + SpellBlock(b);
    var cc, bc := EmitE(c, names, []), EmitSs(b, at, names, []);
    var back := Encode(Jmp(|s.code|));
    var sites := SitesE(c, |s.code|) + SitesSs(b, at);
    GuardedBlock(s, g, c, t, b, names);
    JumpCode(|s.code|);
    var u := Put(t, back);
    DidPut(t, back);
    DidCode(t, u, [], back, []);
    ThenBytes(s, t, u, toks, cc + [JZ, 0, 0] + bc, sites, back);
    Regroup(cc + [JZ, 0, 0], bc, back);
    FillHole(s, u, toks, cc, JZ, bc + back, sites, |u.code|);
    JumpCode(|u.code|);
    Regroup(cc + Encode(Jz(|u.code|)), bc, back);
  }

  lemma WhileCloses(s: Hc, g: Hc, c: Expr, t: Hc, b: Stmts, names: seq<Name>)
    requires Guarded(s, g, c, names) && CompiledBlock(g, t, b, names)
    requires t.Valid() && !Put(t, [JMP] + HalfBytes(|s.code|)).Failed()
    ensures var u := Put(t, [JMP] + HalfBytes(|s.code|));
            CompiledRest(s, Patch(u, |s.code| + SizeE(c) + 1, |u.code|), While(c, b), names)
  {
    hide Did, Encode, EmitE, SitesE, SpellE, WellFormedE, Put, HalfBytes, EmitSs, SitesSs, SpellBlock, CompiledRest;
    var u := Put(t, [JMP] + HalfBytes(|s.code|));
    WhileBlock(s, g, c, t, b, names);
    AsWhile(s, Patch(u, |s.code| + SizeE(c) + 1, |u.code|), c, b, names);
  }

  lemma AsWhile(s: Hc, t: Hc, c: Expr, b: Stmts, names: seq<Name>)
    requires var at := |s.code| + SizeE(c) + 3;
             Did(s, t, [TkLParen] + SpellE(c) + [TkRParen] + SpellBlock(b),
                 EmitE(c, names, []) + Encode(Jz(at + SizeSs(b) + 3)) + EmitSs(b, at, names,
                                                                               []) + Encode(Jmp(|s.code|)),
                 SitesE(c, |s.code|) + SitesSs(b, at))
    requires WellFormedE(c, names) && WellFormedSs(b, names) && t.locals == s.locals + DeclaredSs(b)
    ensures CompiledRest(s, t, While(c, b), names)
  {
    hide Did, Encode, EmitE, SitesE, SpellE, WellFormedE, HalfBytes, EmitSs, SitesSs, SpellBlock;
    assert SpellS(While(c, b))[1..] == [TkLParen] + SpellE(c) + [TkRParen] + SpellBlock(b);
  }
}
