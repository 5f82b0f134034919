/** The other half of recognition: every proper program that fits the compiler's tables and declares its
    names before it uses them is accepted, as itself. */
module Completeness {
  import opened Common
  import opened Hbc
  import opened Source
  import opened Emission
  import opened Parser
  import opened Recognition
  import opened Statements
  import opened Programs

  // ---------- what stands in the token stream ----------

  /** `toks` stand at `at`, and there is something behind them. */
  predicate Spelled(tokens: seq<Token>, at: nat, toks: seq<Token>) {
    at + |toks| < |tokens| && tokens[at..at + |toks|] == toks
  }

  lemma SpelledSplit(tokens: seq<Token>, at: nat, a: seq<Token>, b: seq<Token>)
    requires Spelled(tokens, at, a + b)
    ensures Spelled(tokens, at, a) && Spelled(tokens, at + |a|, b)
  {
    var all := tokens[at..at + |a + b|];
    assert all[..|a|] == a && all[|a|..] == b;
    assert tokens[at..at + |a|] == all[..|a|] && tokens[at + |a|..at + |a| + |b|] == all[|a|..];
  }

  lemma SpelledFirst(tokens: seq<Token>, at: nat, toks: seq<Token>)
    requires Spelled(tokens, at, toks) && toks != []
    ensures tokens[at] == toks[0]
  {
    assert tokens[at..at + |toks|][0] == tokens[at];
  }

  /** There is room for so many bytes and call sites. */
  predicate Room(s: Hc, size: nat, sites: nat) {
    |s.code| + size <= MAX_CODE && |s.calls| + sites <= MAX_CALLS
  }

  // ---------- expressions ----------

  /** The state behind an expression. */
  function AfterE(s: Hc, e: Expr): Hc {
    s.(current := s.current + |SpellE(e)|, code := s.code + EmitE(e, s.locals, []),
       calls := s.calls + SitesE(e, |s.code|))
  }

  /** The expression stands next, its variables are known, and it fits. */
  predicate FitsE(s: Hc, e: Expr) {
    && !s.Failed() && Spelled(s.tokens, s.current, SpellE(e)) && BoundE(e, s.locals)
    && Room(s, SizeE(e), |SitesE(e, |s.code|)|)
  }

  /** The token behind it. */
  function Behind(s: Hc, e: Expr): Token
    requires Spelled(s.tokens, s.current, SpellE(e))
  {
    s.tokens[s.current + |SpellE(e)|]
  }

  lemma AfterValid(s: Hc, e: Expr)
    requires s.Valid() && FitsE(s, e)
    ensures AfterE(s, e).Valid() && !AfterE(s, e).Failed() && Peek(AfterE(s, e)) == Behind(s, e)
  {
    hide WellLexed, SpellE, EmitE, SitesE, SizeE, BoundE;
  }

  predicate IsFactorOp(t: Token) { t == TkStar || t == TkSlash }

  predicate IsTermOp(t: Token) { t == TkPlus || t == TkMinus }

  lemma {:induction false} PrimaryIs(s: Hc, e: Expr)
    requires s.Valid() && FitsE(s, e) && IsPrimary(e) && Behind(s, e) != TkLParen
    ensures Primary(s) == (AfterE(s, e), e)
    decreases e, 0
  {
    hide WellLexed, Encode, Primary, FitsE, AfterE, Behind;
    match e {
      case Num(v) => NumberIs(s, v);
      case Var(n) => VariableIs(s, n);
      case CallExpr(n) => CallIs(s, n);
      case Paren(i) => ParenIs(s, i);
      case Neg(i) => NegIs(s, i);
    }
  }

  lemma NumberIs(s: Hc, v: i32)
    requires s.Valid() && FitsE(s, Num(v))
    ensures Primary(s) == (AfterE(s, Num(v)), Num(v))
  {
    hide WellLexed, Encode;
    SpelledFirst(s.tokens, s.current, [TkNumber(v)]);
    assert s.calls + [] == s.calls;
  }

  lemma VariableIs(s: Hc, n: Name)
    requires s.Valid() && FitsE(s, Var(n)) && Behind(s, Var(n)) != TkLParen
    ensures Primary(s) == (AfterE(s, Var(n)), Var(n))
  {
    hide WellLexed, Encode, Primary;
    SpelledFirst(s.tokens, s.current, [TkIdent(n)]);
    VariableTurn(s, n);
    assert s.calls + [] == s.calls;
  }

  lemma VariableTurn(s: Hc, n: Name)
    requires s.Valid() && Peek(s) == TkIdent(n) && Peek(Advance(s)) != TkLParen && Slot(s.locals, n) < |s.locals|
    ensures Primary(s) == (Put(Advance(s), Encode(LoadLocal(Slot(s.locals, n)))), Var(n))
  {
    hide WellLexed, Encode, Put, Slot;
  }

  lemma CallIs(s: Hc, n: Name)
    requires s.Valid() && FitsE(s, CallExpr(n))
    ensures Primary(s) == (AfterE(s, CallExpr(n)), CallExpr(n))
  {
    hide WellLexed;
    var e := CallExpr(n);
    AfterValid(s, e);
    SpelledSplit(s.tokens, s.current, [TkIdent(n)], [TkLParen, TkRParen]);
    SpelledSplit(s.tokens, s.current + 1, [TkLParen], [TkRParen]);
    SpelledFirst(s.tokens, s.current, [TkIdent(n)]);
    SpelledFirst(s.tokens, s.current + 1, [TkLParen]);
    SpelledFirst(s.tokens, s.current + 2, [TkRParen]);
    CallBytes(0);
    var s3 := Advance(Advance(Advance(s)));
    assert (s3.code + [CALL]) + [0, 0] == s3.code + [CALL, 0, 0];
    assert PutCall(s3, s.current) == AfterE(s, e);
  }

  lemma {:induction false} ParenIs(s: Hc, i: Expr)
    requires s.Valid() && FitsE(s, Paren(i)) && IsExpression(i)
    ensures Primary(s) == (AfterE(s, Paren(i)), Paren(i))
    decreases Paren(i), -1
  {
    hide WellLexed, Expression, Primary, FitsE, AfterE, Behind, EmitE, SitesE, SizeE, BoundE, SpellE;
    ParenParts(s, i);
    ExpressionIs(Advance(s), i);
    ParenTurn(s, i, AfterE(Advance(s), i));
  }

  lemma ParenParts(s: Hc, i: Expr)
    requires s.Valid() && FitsE(s, Paren(i))
    ensures Peek(s) == TkLParen && FitsE(Advance(s), i) && Behind(Advance(s), i) == TkRParen
    ensures AfterE(Advance(s), i).Valid() && Expect(AfterE(Advance(s), i), TkRParen, -77) == AfterE(s, Paren(i))
  {
    hide WellLexed, SameKind, SpellE, EmitE, SitesE, SizeE, BoundE, Expect;
    ParenUnfolded(i, s.locals, |s.code|);
    SpelledSplit(s.tokens, s.current, [TkLParen] + SpellE(i), [TkRParen]);
    SpelledSplit(s.tokens, s.current, [TkLParen], SpellE(i));
    SpelledFirst(s.tokens, s.current, [TkLParen]);
    SpelledFirst(s.tokens, s.current + 1 + |SpellE(i)|, [TkRParen]);
    var s1 := Advance(s);
    AfterValid(s1, i);
    Closes(AfterE(s1, i), TkRParen, -77);
  }

  lemma ParenUnfolded(i: Expr, names: seq<Name>, at: nat)
    ensures SpellE(Paren(i)) == [TkLParen] + SpellE(i) + [TkRParen] && SizeE(Paren(i)) == SizeE(i)
            && SitesE(Paren(i), at) == SitesE(i, at)
    ensures EmitE(Paren(i), names, []) == EmitE(i, names, []) && (BoundE(Paren(i), names) <==> BoundE(i, names))
  {
  }

  lemma ParenTurn(s: Hc, i: Expr, u: Hc)
    requires s.Valid() && Peek(s) == TkLParen && Expression(Advance(s)) == (u, i)
    ensures Primary(s) == (Expect(u, TkRParen, -77), Paren(i))
  {
    hide WellLexed, Expression, Expect;
  }

  lemma Closes(s: Hc, t: Token, error: int)
    requires s.Valid() && Peek(s) == t && t != TkEof
    ensures Expect(s, t, error) == Advance(s)
  {
  }

  lemma {:induction false} NegIs(s: Hc, i: Expr)
    requires s.Valid() && FitsE(s, Neg(i)) && IsPrimary(i) && Behind(s, Neg(i)) != TkLParen
    ensures Primary(s) == (AfterE(s, Neg(i)), Neg(i))
    decreases Neg(i), -1
  {
    hide WellLexed, Encode, Primary, FitsE, AfterE, Behind, Put, EmitE, SitesE, SizeE, BoundE, SpellE;
    NegParts(s, i);
    var s1 := Put(Advance(s), Encode(PushI32(0)));
    PrimaryIs(s1, i);
    NegTurn(s, i, AfterE(s1, i));
  }

  lemma NegParts(s: Hc, i: Expr)
    requires s.Valid() && FitsE(s, Neg(i))
    ensures Peek(s) == TkMinus
    ensures var s1 := Put(Advance(s), Encode(PushI32(0)));
            && s1.Valid() && FitsE(s1, i) && AfterE(s1, i).Valid() && Behind(s1, i) == Behind(s, Neg(i))
            && Put(AfterE(s1, i), [SUB]) == AfterE(s, Neg(i))
  {
    hide WellLexed, Encode, SpellE, EmitE, SitesE, SizeE, BoundE;
    NegUnfolded(i, s.locals, |s.code|);
    SpelledSplit(s.tokens, s.current, [TkMinus], SpellE(i));
    SpelledFirst(s.tokens, s.current, [TkMinus]);
    var s1 := Put(Advance(s), Encode(PushI32(0)));
    AfterValid(s1, i);
    var zero, code, sub := Encode(PushI32(0)), EmitE(i, s.locals, []), Encode(Binary(Sub));
    assert (s.code + zero) + code + sub == s.code + (zero + code + sub);
    BinaryCode(Sub);
  }

  lemma NegUnfolded(i: Expr, names: seq<Name>, at: nat)
    ensures SpellE(Neg(i)) == [TkMinus] + SpellE(i) && SizeE(Neg(i)) == 6 + SizeE(i)
            && SitesE(Neg(i), at) == SitesE(i, at + 5)
    ensures EmitE(Neg(i), names, []) == Encode(PushI32(0)) + EmitE(i, names, []) + Encode(Binary(Sub))
    ensures BoundE(Neg(i), names) <==> BoundE(i, names)
  {
    hide Encode;
  }

  lemma NegTurn(s: Hc, i: Expr, u: Hc)
    requires s.Valid() && Peek(s) == TkMinus && Primary(Put(Advance(s), Encode(PushI32(0)))) == (u, i)
    ensures Primary(s) == (Put(u, [SUB]), Neg(i))
  {
    hide WellLexed, Encode, Put;
  }

  /** An operator and its right operand, after the left one. */
  lemma OperandIs(s: Hc, op: BinOp, l: Expr, r: Expr, t: Hc)
    requires s.Valid() && FitsE(s, Bin(op, l, r))
    requires t == AfterE(s, l)
    ensures FitsE(s, l) && t.Valid() && !t.Failed() && Peek(t) == OpToken(op) == Behind(s, l) && Peek(t) != TkEof
    ensures FitsE(Advance(t), r) && Behind(Advance(t), r) == Behind(s, Bin(op, l, r)) && AfterE(Advance(t), r).Valid()
    ensures Put(AfterE(Advance(t), r), [OpcodeOf(op)]) == AfterE(s, Bin(op, l, r))
  {
    hide WellLexed, Encode, SpellE, EmitE, SitesE, SizeE, BoundE, OpToken;
    Unfolded(s, op, l, r);
    OperandTokens(s.tokens, s.current, SpellE(l), OpToken(op), SpellE(r));
    RealOperator(op);
    AfterValid(s, l);
    AfterValid(Advance(t), r);
    OperandCode(s, op, l, r, t);
  }

  lemma RealOperator(op: BinOp)
    ensures OpToken(op) != TkEof
  {
  }

  lemma OperandTokens(tokens: seq<Token>, at: nat, l: seq<Token>, o: Token, r: seq<Token>)
    requires Spelled(tokens, at, l + [o] + r)
    ensures Spelled(tokens, at, l) && tokens[at + |l|] == o && Spelled(tokens, at + |l| + 1, r)
  {
    SpelledSplit(tokens, at, l + [o], r);
    SpelledSplit(tokens, at, l, [o]);
    SpelledFirst(tokens, at + |l|, [o]);
  }

  lemma OperandCode(s: Hc, op: BinOp, l: Expr, r: Expr, t: Hc)
    requires s.Valid() && t == AfterE(s, l) && t.Valid() && Peek(t) != TkEof && AfterE(Advance(t), r).Valid()
    requires |s.code| + SizeE(Bin(op, l, r)) <= MAX_CODE && |SpellE(Bin(op, l, r))| == |SpellE(l)| + 1 + |SpellE(r)|
    ensures Put(AfterE(Advance(t), r), [OpcodeOf(op)]) == AfterE(s, Bin(op, l, r))
  {
    hide WellLexed, Encode, SpellE, EmitE, SitesE, SizeE;
    Unfolded(s, op, l, r);
    BinaryCode(op);
    var lc, rc, o := EmitE(l, s.locals, []), EmitE(r, s.locals, []), [OpcodeOf(op)];
    assert ((s.code + lc) + rc) + o == s.code + (lc + rc + o);
    var ls, rs := SitesE(l, |s.code|), SitesE(r, |s.code| + SizeE(l));
    assert (s.calls + ls) + rs == s.calls + (ls + rs);
  }

  lemma Unfolded(s: Hc, op: BinOp, l: Expr, r: Expr)
    ensures SpellE(Bin(op, l, r)) == SpellE(l) + [OpToken(op)] + SpellE(r)
    ensures EmitE(Bin(op, l, r), s.locals, []) == EmitE(l, s.locals, []) + EmitE(r, s.locals, []) + Encode(Binary(op))
    ensures SitesE(Bin(op, l, r), |s.code|) == SitesE(l, |s.code|) + SitesE(r, |s.code| + SizeE(l))
    ensures SizeE(Bin(op, l, r)) == SizeE(l) + SizeE(r) + 1
    ensures BoundE(Bin(op, l, r), s.locals) <==> BoundE(l, s.locals) && BoundE(r, s.locals)
  {
    hide Encode;
  }

  /** The factor loop has built e so far. */
  lemma {:induction false} FactorReaches(s: Hc, e: Expr)
    requires s.Valid() && FitsE(s, e) && IsFactor(e) && Behind(s, e) != TkLParen
    ensures AfterE(s, e).Valid() && Factor(s) == FactorTail(AfterE(s, e), e)
    decreases e, 1
  {
    hide WellLexed, Encode, Primary, SpellE, EmitE, SitesE, SizeE, BoundE, FitsE, AfterE, Put, Factor, FactorTail,
      Behind;
    if e.Bin? && IsMulOp(e.op) {
      var t := AfterE(s, e.l);
      OperandIs(s, e.op, e.l, e.r, t);
      FactorReaches(s, e.l);
      PrimaryIs(Advance(t), e.r);
      FactorTurn(t, e.op, e.l, e.r, AfterE(Advance(t), e.r));
      AfterValid(s, e);
    } else {
      AfterValid(s, e);
      PrimaryIs(s, e);
      FactorStarts(s, AfterE(s, e), e);
    }
  }

  lemma FactorStarts(s: Hc, t: Hc, e: Expr)
    requires s.Valid() && Primary(s) == (t, e)
    ensures Factor(s) == FactorTail(t, e)
  {
    hide WellLexed, Primary, FactorTail;
  }

  lemma FactorTurn(t: Hc, op: BinOp, l: Expr, r: Expr, u: Hc)
    requires t.Valid() && !t.Failed() && Peek(t) == OpToken(op) && IsMulOp(op) && Primary(Advance(t)) == (u, r)
    ensures FactorTail(t, l) == FactorTail(Put(u, [OpcodeOf(op)]), Bin(op, l, r))
  {
    hide WellLexed, Primary, Put;
  }

  lemma {:induction false} FactorIs(s: Hc, e: Expr)
    requires s.Valid() && FitsE(s, e) && IsFactor(e) && Behind(s, e) != TkLParen && !IsFactorOp(Behind(s, e))
    ensures Factor(s) == (AfterE(s, e), e)
    decreases e, 2
  {
    hide WellLexed, Encode, SpellE, EmitE, SitesE, SizeE, BoundE, FitsE, AfterE, Factor;
    FactorReaches(s, e);
    AfterValid(s, e);
  }

  lemma {:induction false} TermReaches(s: Hc, e: Expr)
    requires s.Valid() && FitsE(s, e) && IsTerm(e) && Behind(s, e) != TkLParen && !IsFactorOp(Behind(s, e))
    ensures AfterE(s, e).Valid() && Term(s) == TermTail(AfterE(s, e), e)
    decreases e, 3
  {
    hide WellLexed, Encode, Factor, SpellE, EmitE, SitesE, SizeE, BoundE, FitsE, AfterE, Put, Term, TermTail, Behind;
    if e.Bin? && IsAddOp(e.op) {
      var t := AfterE(s, e.l);
      OperandIs(s, e.op, e.l, e.r, t);
      TermReaches(s, e.l);
      FactorIs(Advance(t), e.r);
      TermTurn(t, e.op, e.l, e.r, AfterE(Advance(t), e.r));
      AfterValid(s, e);
    } else {
      AfterValid(s, e);
      FactorIs(s, e);
      TermStarts(s, AfterE(s, e), e);
    }
  }

  lemma TermStarts(s: Hc, t: Hc, e: Expr)
    requires s.Valid() && Factor(s) == (t, e)
    ensures Term(s) == TermTail(t, e)
  {
    hide WellLexed, Factor, TermTail;
  }

  lemma TermTurn(t: Hc, op: BinOp, l: Expr, r: Expr, u: Hc)
    requires t.Valid() && !t.Failed() && Peek(t) == OpToken(op) && IsAddOp(op) && Factor(Advance(t)) == (u, r)
    ensures TermTail(t, l) == TermTail(Put(u, [OpcodeOf(op)]), Bin(op, l, r))
  {
    hide WellLexed, Factor, Put;
  }

  lemma {:induction false} TermIs(s: Hc, e: Expr)
    requires s.Valid() && FitsE(s, e) && IsTerm(e)
    requires Behind(s, e) != TkLParen && !IsFactorOp(Behind(s, e)) && !IsTermOp(Behind(s, e))
    ensures Term(s) == (AfterE(s, e), e)
    decreases e, 4
  {
    hide WellLexed, Encode, SpellE, EmitE, SitesE, SizeE, BoundE, FitsE, AfterE, Term;
    TermReaches(s, e);
    AfterValid(s, e);
  }

  /** What may follow an expression. */
  predicate Closing(t: Token) { t == TkRParen || t == TkSemi }

  /** An expression that stands next and fits is parsed as itself. */
  lemma {:induction false} ExpressionIs(s: Hc, e: Expr)
    requires s.Valid() && FitsE(s, e) && IsExpression(e) && Closing(Behind(s, e))
    ensures Expression(s) == (AfterE(s, e), e)
    decreases e, 5
  {
    hide WellLexed, Encode, Term, SpellE, EmitE, SitesE, SizeE, BoundE, FitsE, AfterE, Put, IsTerm, Expression, Behind;
    AfterValid(s, e);
    if e.Bin? && !IsAddOp(e.op) && !IsMulOp(e.op) {
      var t := AfterE(s, e.l);
      OperandIs(s, e.op, e.l, e.r, t);
      TermIs(s, e.l);
      TermIs(Advance(t), e.r);
      ComparisonTurn(s, t, e.op, e.l, e.r, AfterE(Advance(t), e.r));
    } else {
      TermIs(s, e);
      NoComparison(s, AfterE(s, e), e);
    }
  }

  lemma ComparisonOf(op: BinOp)
    requires !IsAddOp(op) && !IsMulOp(op)
    ensures Comparison(OpToken(op)) == Some(op) && OpToken(op) != TkEof
  {
  }

  lemma ComparisonTurn(s: Hc, t: Hc, op: BinOp, l: Expr, r: Expr, u: Hc)
    requires s.Valid() && t.Valid() && !t.Failed() && Term(s) == (t, l) && Peek(t) == OpToken(op) && !IsAddOp(op)
             && !IsMulOp(op)
    requires Term(Advance(t)) == (u, r)
    ensures Expression(s) == (Put(u, [OpcodeOf(op)]), Bin(op, l, r))
  {
    hide WellLexed, Term, Put, Comparison, OpToken, OpcodeOf;
    ComparisonOf(op);
  }

  lemma NoComparison(s: Hc, t: Hc, e: Expr)
    requires s.Valid() && t.Valid() && Term(s) == (t, e) && Closing(Peek(t))
    ensures Expression(s) == (t, e)
  {
    hide WellLexed, Term, Put;
  }
}
