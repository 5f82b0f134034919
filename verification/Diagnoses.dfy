/** What a compiler error says about the source: for every token list that is refused, the token reported and what
    stands before it, in terms of the tokens alone. */
module Diagnoses {
  import opened Common
  import opened Hbc
  import opened Source
  import opened Emission
  import opened Parser
  import opened Recognition
  import opened Statements
  import opened Programs
  import L = Language

  // ---------- places in a token list ----------

  /** An operand is wanted at k: after a bracket, an operator, `=` or `return`. */
  predicate OperandNext(T: seq<Token>, k: nat) {
    && 0 < k <= |T|
    && T[k - 1] in {TkLParen, TkAssign, TkReturn, TkMinus, TkPlus, TkStar, TkSlash, TkLt, TkLe, TkGt, TkGe, TkEq, TkNe}
  }

  /** A statement is wanted at k. */
  predicate StatementNext(T: seq<Token>, k: nat) {
    0 < k <= |T| && T[k - 1] in {TkSemi, TkLBrace, TkRBrace}
  }

  /** A block is wanted at k. */
  predicate BlockNext(T: seq<Token>, k: nat) {
    0 < k <= |T| && T[k - 1] in {TkRParen, TkElse}
  }

  /** A function definition is wanted at k. */
  predicate FunctionNext(T: seq<Token>, k: nat) {
    k <= |T| && (k == 0 || T[k - 1] == TkRBrace)
  }

  predicate StartsOperand(t: Token) {
    t.TkNumber? || t.TkIdent? || t == TkLParen || t == TkMinus
  }

  predicate StartsStatement(t: Token) {
    t.TkIdent? || t in {TkInt, TkReturn, TkIf, TkWhile, TkWrite, TkPrint, TkSleep, TkGpio, TkLBrace}
  }

  /** The tokens from a up to k spell an expression. */
  ghost predicate Operand(T: seq<Token>, a: nat, k: nat) {
    a <= k <= |T| && exists e :: IsExpression(e) && T[a..k] == SpellE(e)
  }

  /** The tokens from a up to k spell statements. */
  ghost predicate Body(T: seq<Token>, a: nat, k: nat) {
    a <= k <= |T| && exists ss: Stmts :: T[a..k] == SpellSs(ss)
  }

  /** `int name (` ends before f + 1: the function's own tokens start at f. */
  predicate Header(T: seq<Token>, f: nat) {
    2 <= f < |T| && T[f - 2] == TkInt && T[f - 1].TkIdent? && T[f] == TkLParen
  }

  /** The names that follow an `int`. */
  function Declared(ts: seq<Token>): seq<Name> {
    if |ts| < 2 then []
    else (if ts[0] == TkInt && ts[1].TkIdent? then [ts[1].name] else []) + Declared(ts[1..])
  }

  // ---------- what each error means ----------

  /** The tokens right before k are of these kinds. */
  predicate After(T: seq<Token>, k: nat, front: seq<Token>) {
    |front| <= k <= |T| && Fronts(T, k - |front|, front)
  }

  predicate Fronts(T: seq<Token>, a: nat, front: seq<Token>) {
    a + |front| <= |T| && forall j :: 0 <= j < |front| ==> SameKind(T[a + j], front[j])
  }

  /** From a up to k stand tokens of these kinds and then an expression. */
  ghost predicate AfterOperand(T: seq<Token>, k: nat, a: nat, front: seq<Token>) {
    a + |front| <= k <= |T| && Fronts(T, a, front) && Operand(T, a + |front|, k)
  }

  /** The tokens up to k spell the program. */
  predicate Spelled(T: seq<Token>, p: Program, k: nat) {
    k <= |T| && T[..k] == SpellProgram(p)
  }

  ghost predicate Fronted(T: seq<Token>, k: nat, front: seq<Token>) {
    exists a: nat :: AfterOperand(T, k, a, front)
  }

  /** These tokens and an expression stand before k, and then not `wanted`. */
  ghost predicate Unfinished(T: seq<Token>, k: nat, front: seq<Token>, wanted: Token)
    requires k < |T|
  {
    T[k] != wanted && Fronted(T, k, front)
  }

  /** A block opened at a is still open at k. */
  ghost predicate OpenBlock(T: seq<Token>, a: nat, k: nat) {
    a < k <= |T| && T[a] == TkLBrace && Body(T, a + 1, k)
  }

  /** The same for a statement that begins with its first token. */
  ghost predicate StatementUnfinished(T: seq<Token>, k: nat, front: seq<Token>, wanted: Token)
    requires k < |T|
  {
    T[k] != wanted && exists a: nat :: StatementNext(T, a) && AfterOperand(T, k, a, front)
  }

  /** A name declared, or not, in the function so far. */
  ghost predicate InFunction(T: seq<Token>, k: nat, f: nat) { Header(T, f) && f < k <= |T| }

  ghost predicate DeclaredBefore(T: seq<Token>, k: nat, n: Name) {
    exists f: nat :: InFunction(T, k, f) && n in Declared(T[f..k])
  }

  ghost predicate NotDeclaredBefore(T: seq<Token>, k: nat, n: Name) {
    exists f: nat :: InFunction(T, k, f) && n !in Declared(T[f..k])
  }

  ghost predicate EightDeclaredBefore(T: seq<Token>, k: nat) {
    exists f: nat :: InFunction(T, k, f) && |Declared(T[f..k])| >= 8
  }

  const WRITE_CALL: seq<Token> := [TkWrite, TkLParen, NUMBER, TkComma, STRING]

  /** Errors inside expressions and declarations. */
  ghost predicate OperandComplaint(T: seq<Token>, error: int, k: nat)
    requires k < |T|
  {
    var t := T[k];
    match error
    case -70 => t.TkIdent? && After(T, k, [TkInt]) && DeclaredBefore(T, k - 1, t.name)
    case -71 => t.TkIdent? && After(T, k, [TkInt]) && EightDeclaredBefore(T, k - 1)
    case -74 => t.TkIdent? && k + 1 < |T| && T[k + 1] == TkLParen && (OperandNext(T, k) || StatementNext(T, k))
    case -75 => t != TkRParen && After(T, k, [IDENT, TkLParen]) && OperandNext(T, k - 2)
    case -76 => t.TkIdent? && k + 1 < |T| && T[k + 1] != TkLParen && (OperandNext(T, k) || StatementNext(T, k))
                && NotDeclaredBefore(T, k, t.name)
    case -77 => t != TkRParen && exists a: nat :: OperandNext(T, a) && AfterOperand(T, k, a, [TkLParen])
    case -78 => !StartsOperand(t) && OperandNext(T, k)
    case -80 => !t.TkIdent? && After(T, k, [TkInt]) && StatementNext(T, k - 1)
    case -81 => (t !in {TkSemi, TkAssign} && After(T, k, [TkInt, IDENT]) && StatementNext(T, k - 2))
                || StatementUnfinished(T, k, [TkInt, IDENT, TkAssign], TkSemi)
    case _ => false
  }

  /** Errors of statements that call something built in. */
  ghost predicate CallComplaint(T: seq<Token>, error: int, k: nat)
    requires k < |T|
  {
    var t := T[k];
    match error
    case -79 => t.TkString? && Unescape(t.raw).None? && After(T, k, WRITE_CALL[..4])
    case -87 => t != TkLParen && After(T, k, WRITE_CALL[..1])
    case -88 => !t.TkNumber? && After(T, k, WRITE_CALL[..2])
    case -89 => t.TkNumber? && t.value != 1 && After(T, k, WRITE_CALL[..2])
    case -90 => t != TkComma && After(T, k, WRITE_CALL[..3])
    case -91 => !t.TkString? && After(T, k, WRITE_CALL[..4])
    case -92 => !t.TkNumber? && After(T, k, WRITE_CALL + [TkComma])
    case -93 => t != TkRParen
                && ((t != TkComma && After(T, k, WRITE_CALL)) || After(T, k, WRITE_CALL + [TkComma, NUMBER]))
    case -94 => t != TkSemi
                && (After(T, k, WRITE_CALL + [TkRParen]) || After(T, k, WRITE_CALL + [TkComma, NUMBER, TkRParen]))
    case -95 => t != TkLParen && After(T, k, [TkPrint])
    case -96 => Unfinished(T, k, [TkPrint, TkLParen], TkRParen)
    case -97 => t != TkSemi && k > 0 && T[k - 1] == TkRParen && Fronted(T, k - 1, [TkPrint, TkLParen])
    case -98 => t != TkLParen && After(T, k, [TkSleep])
    case -99 => !t.TkNumber? && After(T, k, [TkSleep, TkLParen])
    case -100 => t.TkNumber? && !(0 <= t.value <= 65535) && After(T, k, [TkSleep, TkLParen])
    case -101 => t != TkRParen && After(T, k, [TkSleep, TkLParen, NUMBER])
    case -102 => t != TkSemi && After(T, k, [TkSleep, TkLParen, NUMBER, TkRParen])
    case -103 => t != TkLParen && After(T, k, [TkGpio])
    case -104 => t != TkRParen && After(T, k, [TkGpio, TkLParen])
    case -105 => t != TkSemi && After(T, k, [TkGpio, TkLParen, TkRParen])
    case _ => false
  }

  /** Errors of the other statements and of blocks. */
  ghost predicate StatementComplaint(T: seq<Token>, error: int, k: nat)
    requires k < |T|
  {
    var t := T[k];
    match error
    case -82 => Unfinished(T, k, [TkReturn], TkSemi)
    case -83 => t != TkLParen && After(T, k, [TkIf])
    case -84 => Unfinished(T, k, [TkIf, TkLParen], TkRParen)
    case -85 => t != TkLParen && After(T, k, [TkWhile])
    case -86 => Unfinished(T, k, [TkWhile, TkLParen], TkRParen)
    case -106 => t == TkEof && exists a: nat :: StatementNext(T, a) && OpenBlock(T, a, k)
    case -107 => StatementUnfinished(T, k, [IDENT, TkAssign], TkSemi)
    case -108 => t != TkRParen && After(T, k, [IDENT, TkLParen]) && StatementNext(T, k - 2)
    case -109 => t != TkSemi && After(T, k, [IDENT, TkLParen, TkRParen]) && StatementNext(T, k - 3)
    case -110 => t.TkIdent? && StatementNext(T, k) && k + 1 < |T| && T[k + 1] !in {TkAssign, TkLParen}
    case -111 => StatementNext(T, k) && !StartsStatement(t) && t !in {TkRBrace, TkEof}
    case -112 => BlockNext(T, k) && t != TkLBrace
    case -113 => t == TkEof && exists a: nat :: BlockNext(T, a) && OpenBlock(T, a, k)
    case _ => false
  }

  /** Errors of definitions and of the whole. */
  ghost predicate ProgramComplaint(T: seq<Token>, error: int, k: nat)
    requires k < |T|
  {
    var t := T[k];
    match error
    case -72 => t.TkIdent? && After(T, k, [TkInt]) && exists p :: Spelled(T, p, k - 1) && Defined(p, t.name)
    case -73 => t.TkIdent? && After(T, k, [TkInt]) && exists p :: Spelled(T, p, k - 1) && |p| >= 6
    case -114 => t !in {TkInt, TkEof} && FunctionNext(T, k)
    case -115 => !t.TkIdent? && After(T, k, [TkInt]) && FunctionNext(T, k - 1)
    case -116 => t != TkLParen && After(T, k, [TkInt, IDENT]) && FunctionNext(T, k - 2)
    case -117 => t != TkRParen && After(T, k, [TkInt, IDENT, TkLParen]) && FunctionNext(T, k - 3)
    case -118 => t == TkEof
                 && exists p :: Spelled(T, p, k) && !AllKnown(SitesFs(p, ENTRY_SIZE, HALT), Table(p))
    case -119 => t == TkEof && exists p :: Spelled(T, p, k) && !Defined(p, MAIN)
    case _ => false
  }

  /** The error reported at token k is true of k and the tokens before it. That the code is full can be reported at any
      token. */
  ghost predicate Complaint(T: seq<Token>, error: int, k: nat)
    requires k < |T|
  {
    || error == -68 || OperandComplaint(T, error, k) || CallComplaint(T, error, k) || StatementComplaint(T, error, k)
    || ProgramComplaint(T, error, k)
  }

  /** If the state has failed, its error is true. */
  ghost predicate Told(t: Hc) {
    t.Valid() && (t.Failed() ==> Complaint(t.tokens, t.failure.value.error, t.failure.value.token))
  }

  /** Inside a function whose own tokens start at f. */
  ghost predicate Scope(s: Hc, f: nat) {
    && s.Valid() && !s.Failed() && Header(s.tokens, f) && f < s.current && s.tokens[s.current - 1] != TkInt
    && s.locals == Declared(s.tokens[f..s.current])
  }

  // ---------- single steps ----------

  lemma NothingToTell(s: Hc)
    requires s.Valid() && !s.Failed()
    ensures Told(s)
  {
    hide WellLexed, Complaint;
  }

  lemma StillTold(s: Hc, t: Hc)
    requires Told(s) && s.Failed() && Onward(s, t)
    ensures Told(t) && t.Failed()
  {
    hide Complaint, WellLexed;
  }

  lemma ExpectTold(s: Hc, kind: Token, error: int)
    requires Told(s) && kind != TkEof
    requires !s.Failed() && !SameKind(Peek(s), kind) ==> Complaint(s.tokens, error, s.current)
    ensures Told(Expect(s, kind, error))
  {
    hide Complaint, WellLexed, SameKind;
  }

  lemma PutTold(s: Hc, bytes: seq<byte>)
    requires Told(s)
    ensures Told(Put(s, bytes))
  {
    hide WellLexed, OperandComplaint, CallComplaint, StatementComplaint, ProgramComplaint;
  }

  lemma FailTold(s: Hc, error: int, token: nat)
    requires s.Valid() && !s.Failed() && token < |s.tokens| && Complaint(s.tokens, error, token)
    ensures Told(Fail(s, error, token))
  {
    hide Complaint, WellLexed;
  }

  lemma PutCallTold(s: Hc, token: nat)
    requires Told(s) && token < |s.tokens| && (!s.Failed() ==> Complaint(s.tokens, -74, token))
    ensures Told(PutCall(s, token))
  {
    hide Put, Complaint, WellLexed;
    var s1 := Put(s, [CALL]);
    PutTold(s, [CALL]);
    PutTold(s1, [0, 0]);
  }

  // ---------- scopes ----------

  predicate NoInt(ts: seq<Token>) { TkInt !in ts }

  lemma {:induction false} DeclaredSplit(a: seq<Token>, b: seq<Token>)
    requires a != [] ==> a[|a| - 1] != TkInt
    ensures Declared(a + b) == Declared(a) + Declared(b)
    decreases |a|
  {
    if a == [] {
      assert a + b == b;
    } else if |a| == 1 {
      assert (a + b)[1..] == b;
    } else {
      DeclaredSplit(a[1..], b);
      assert (a + b)[1..] == a[1..] + b;
    }
  }

  lemma {:induction false} NoneDeclared(ts: seq<Token>)
    requires NoInt(ts)
    ensures Declared(ts) == []
    decreases |ts|
  {
    if |ts| >= 2 { NoneDeclared(ts[1..]); }
  }

  /** The scope after some tokens that declare `names`. */
  lemma ScopeAfter(s: Hc, t: Hc, f: nat, toks: seq<Token>, names: seq<Name>)
    requires Scope(s, f) && t.Valid() && !t.Failed() && t.tokens == s.tokens && t.current == s.current + |toks|
    requires t.tokens[s.current..t.current] == toks && t.locals == s.locals + names && Declared(toks) == names
    requires toks != [] ==> toks[|toks| - 1] != TkInt
    ensures Scope(t, f)
  {
    hide WellLexed, Declared;
    var T := s.tokens;
    DeclaredSplit(T[f..s.current], toks);
    assert T[f..s.current][s.current - f - 1] == T[s.current - 1];
    assert T[f..t.current] == T[f..s.current] + toks;
    if toks != [] { assert T[t.current - 1] == toks[|toks| - 1]; }
  }

  /** One token that is no `int`. */
  lemma ScopeAdvance(s: Hc, t: Hc, f: nat)
    requires Scope(s, f) && Peek(s) != TkEof && Peek(s) != TkInt && t == Advance(s)
    ensures Scope(t, f) && Told(t)
  {
    hide WellLexed, Declared;
    assert s.tokens[s.current..t.current] == [Peek(s)];
    NoneDeclared([Peek(s)]);
    assert s.locals + [] == s.locals;
    ScopeAfter(s, t, f, [Peek(s)], []);
  }

  lemma {:induction false} SpellNoInt(e: Expr)
    ensures NoInt(SpellE(e)) && SpellE(e) != []
    decreases e
  {
    match e
    case Paren(i) => SpellNoInt(i);
    case Neg(i) => SpellNoInt(i);
    case Bin(op, l, r) => SpellNoInt(l); SpellNoInt(r);
    case _ =>
  }

  lemma ScopeOver(s: Hc, t: Hc, f: nat, e: Expr)
    requires Scope(s, f) && Compiled(s, t, e, s.locals)
    ensures Scope(t, f) && t.tokens[s.current..t.current] == SpellE(e)
  {
    hide WellLexed, Declared, SpellE, EmitE, SitesE, BoundE;
    SpellNoInt(e);
    NoneDeclared(SpellE(e));
    assert s.locals + [] == s.locals;
    ScopeAfter(s, t, f, SpellE(e), []);
  }

  lemma {:induction false} SlotIn(names: seq<Name>, n: Name)
    ensures Slot(names, n) == |names| <==> n !in names
    decreases |names|
  {
    if names != [] && names[0] != n { SlotIn(names[1..], n); }
  }

  lemma OperandIs(T: seq<Token>, a: nat, k: nat, e: Expr)
    requires a <= k <= |T| && IsExpression(e) && T[a..k] == SpellE(e)
    ensures Operand(T, a, k)
  {
  }

  // ---------- expressions ----------

  lemma UndeclaredTold(s: Hc, f: nat, k: nat)
    requires Scope(s, f) && k + 1 == s.current && s.tokens[k].TkIdent? && Peek(s) != TkLParen
    requires Slot(s.locals, s.tokens[k].name) == |s.locals| && (OperandNext(s.tokens, k) || StatementNext(s.tokens, k))
    requires f < k
    ensures Complaint(s.tokens, -76, k)
  {
    hide WellLexed, Declared, CallComplaint, StatementComplaint, ProgramComplaint;
    var T, n := s.tokens, s.tokens[k].name;
    SlotIn(s.locals, n);
    var before := T[f..k];
    assert T[f..k + 1] == before + [T[k]];
    NameEndsNothing(before, T[k]);
    assert InFunction(T, k, f);
  }

  lemma {:induction false} NameEndsNothing(ts: seq<Token>, last: Token)
    requires last != TkInt
    ensures forall n :: n in Declared(ts) ==> n in Declared(ts + [last])
    decreases |ts|
  {
    if |ts| >= 2 {
      NameEndsNothing(ts[1..], last);
      assert (ts + [last])[1..] == ts[1..] + [last];
    }
  }

  lemma {:induction false} PrimaryTold(s: Hc, f: nat)
    requires Scope(s, f) && OperandNext(s.tokens, s.current)
    ensures Told(Primary(s).0)
    decreases s.Left(), 0
  {
    hide WellLexed, Expression, Expect, Put, PutCall, Fail, Encode, Complaint, Told, Scope, OperandNext;
    InScope(s, f);
    match Peek(s)
    case TkNumber(v) => ScopeAdvance(s, Advance(s), f); PutTold(Advance(s), Encode(PushI32(v)));
    case TkIdent(n) => if Peek(Advance(s)) == TkLParen { CallTold(s, f); } else { VariableTold(s, f); }
    case TkLParen => ParenTold(s, f);
    case TkMinus => NegationTold(s, f);
    case _ => NoOperandTold(s, f);
  }

  lemma {:induction false} NegationTold(s: Hc, f: nat)
    requires Scope(s, f) && Peek(s) == TkMinus
    ensures Told(Primary(s).0)
    decreases s.Left(), -1
  {
    hide WellLexed, Put, Encode, Complaint, Told, Scope;
    InScope(s, f);
    var s2 := Put(Advance(s), Encode(PushI32(0)));
    NegationStarts(s, f);
    if s2.Failed() {
      StillTold(s2, Primary(s2).0);
    } else {
      PrimaryTold(s2, f);
    }
    PutTold(Primary(s2).0, [SUB]);
  }

  lemma InScope(s: Hc, f: nat)
    requires Scope(s, f)
    ensures s.Valid() && !s.Failed() && s.current > 0
  {
  }

  /** A variable in an expression. */
  lemma VariableTold(s: Hc, f: nat)
    requires Scope(s, f) && OperandNext(s.tokens, s.current) && Peek(s).TkIdent? && Peek(Advance(s)) != TkLParen
    ensures Told(Primary(s).0)
  {
    hide WellLexed, Declared, Expression, Put, Fail, Encode, Complaint, Told, Header;
    var s1, n := Advance(s), Peek(s).name;
    ScopeAdvance(s, s1, f);
    if Slot(s1.locals, n) == |s1.locals| {
      UndeclaredTold(s1, f, s.current);
      FailTold(s1, -76, s.current);
    } else {
      PutTold(s1, Encode(LoadLocal(Slot(s1.locals, n))));
    }
  }

  lemma NegationStarts(s: Hc, f: nat)
    requires Scope(s, f) && Peek(s) == TkMinus
    ensures var t := Put(Advance(s), Encode(PushI32(0)));
            Told(t) && (!t.Failed() ==> Scope(t, f) && OperandNext(t.tokens, t.current)) && Onward(s, t)
            && t.current == s.current + 1
  {
    hide WellLexed, Declared, Put, Encode, Complaint;
    ScopeAdvance(s, Advance(s), f);
    PutTold(Advance(s), Encode(PushI32(0)));
    var t := Put(Advance(s), Encode(PushI32(0)));
    if !t.Failed() { ScopePut(Advance(s), t, f); }
  }

  lemma NoOperandTold(s: Hc, f: nat)
    requires Scope(s, f) && OperandNext(s.tokens, s.current) && !StartsOperand(Peek(s))
    ensures Told(Fail(s, -78, s.current))
  {
    hide WellLexed, Declared, Fail, CallComplaint, StatementComplaint, ProgramComplaint;
    assert Complaint(s.tokens, -78, s.current);
    FailTold(s, -78, s.current);
  }

  lemma ScopePut(s: Hc, t: Hc, f: nat)
    requires Scope(s, f) && Onward(s, t) && !t.Failed() && t.locals == s.locals && t.current == s.current
    ensures Scope(t, f)
  {
    hide WellLexed, Declared;
  }

  /** A call in an expression. */
  lemma CallTold(s: Hc, f: nat)
    requires Scope(s, f) && OperandNext(s.tokens, s.current) && Peek(s).TkIdent? && Peek(Advance(s)) == TkLParen
    ensures Told(PutCall(Expect(Advance(Advance(s)), TkRParen, -75), s.current))
  {
    hide WellLexed, Declared, PutCall, Expect, CallComplaint, StatementComplaint, ProgramComplaint;
    var s2 := Advance(Advance(s));
    ExpectTold(s2, TkRParen, -75);
    PutCallTold(Expect(s2, TkRParen, -75), s.current);
  }

  lemma {:induction false} ParenTold(s: Hc, f: nat)
    requires Scope(s, f) && OperandNext(s.tokens, s.current) && Peek(s) == TkLParen
    ensures Told(Expect(Expression(Advance(s)).0, TkRParen, -77))
    decreases s.Left(), -1
  {
    hide WellLexed, Declared, Expression, Expect, Complaint, Compiled;
    var s0 := Advance(s);
    ScopeAdvance(s, s0, f);
    ExpressionTold(s0, f);
    var (s1, e) := Expression(s0);
    if !s1.Failed() {
      ExpressionOver(s0, f);
      ParenOpen(s.tokens, s.current, s1.current);
    }
    ExpectTold(s1, TkRParen, -77);
  }

  lemma ParenOpen(T: seq<Token>, a: nat, k: nat)
    requires k < |T| && OperandNext(T, a) && a + 1 <= k && T[a] == TkLParen && Operand(T, a + 1, k)
    ensures T[k] != TkRParen ==> Complaint(T, -77, k)
  {
    hide CallComplaint, StatementComplaint, ProgramComplaint, Operand;
    assert AfterOperand(T, k, a, [TkLParen]);
  }

  /** An expression that is accepted. */
  lemma ExpressionOver(s: Hc, f: nat)
    requires Scope(s, f) && !Expression(s).0.Failed()
    ensures var t := Expression(s).0; Scope(t, f) && Operand(s.tokens, s.current, t.current)
  {
    hide WellLexed, Declared, Expression, Compiled;
    var (t, e) := Expression(s);
    ExpressionCompiles(s, s.locals);
    ScopeOver(s, t, f, e);
    OperandIs(s.tokens, s.current, t.current, e);
  }

  lemma {:induction false} FactorRightTold(s: Hc, f: nat, code: byte)
    requires Scope(s, f) && (Peek(s) == TkStar || Peek(s) == TkSlash)
    ensures var t := Put(Primary(Advance(s)).0, [code]); Told(t) && (!t.Failed() ==> Scope(t, f))
    decreases s.Left(), 0
  {
    hide WellLexed, Declared, Primary, Put, Complaint, Compiled, Told;
    var s0 := Advance(s);
    ScopeAdvance(s, s0, f);
    PrimaryTold(s0, f);
    var (s1, right) := Primary(s0);
    PutTold(s1, [code]);
    if !Put(s1, [code]).Failed() {
      PrimaryCompiles(s0, s0.locals);
      ScopeOver(s0, s1, f, right);
      ScopePut(s1, Put(s1, [code]), f);
    }
  }

  lemma {:induction false} FactorTailTold(s: Hc, left: Expr, f: nat)
    requires Scope(s, f)
    ensures Told(FactorTail(s, left).0)
    decreases s.Left(), 1
  {
    hide WellLexed, Primary, Put, Complaint, Told, Scope;
    InScope(s, f);
    NothingToTell(s);
    if Peek(s) == TkStar || Peek(s) == TkSlash {
      var op := if Peek(s) == TkStar then Mul else Div;
      var (s1, right) := Primary(Advance(s));
      var s2 := Put(s1, [OpcodeOf(op)]);
      FactorRightTold(s, f, OpcodeOf(op));
      if s2.Failed() {
        StillTold(s2, FactorTail(s2, Bin(op, left, right)).0);
      } else {
        FactorTailTold(s2, Bin(op, left, right), f);
      }
    }
  }

  lemma {:induction false} FactorTold(s: Hc, f: nat)
    requires Scope(s, f) && OperandNext(s.tokens, s.current)
    ensures Told(Factor(s).0)
    decreases s.Left(), 2
  {
    hide WellLexed, Declared, Primary, FactorTail, Complaint, Compiled, Told;
    PrimaryTold(s, f);
    var (s1, e) := Primary(s);
    if s1.Failed() {
      StillTold(s1, FactorTail(s1, e).0);
    } else {
      PrimaryCompiles(s, s.locals);
      ScopeOver(s, s1, f, e);
      FactorTailTold(s1, e, f);
    }
  }

  lemma {:induction false} TermRightTold(s: Hc, f: nat, code: byte)
    requires Scope(s, f) && (Peek(s) == TkPlus || Peek(s) == TkMinus)
    ensures var t := Put(Factor(Advance(s)).0, [code]); Told(t) && (!t.Failed() ==> Scope(t, f))
    decreases s.Left(), 2
  {
    hide WellLexed, Declared, Factor, Put, Complaint, Compiled, Told;
    var s0 := Advance(s);
    ScopeAdvance(s, s0, f);
    FactorTold(s0, f);
    var (s1, right) := Factor(s0);
    PutTold(s1, [code]);
    if !Put(s1, [code]).Failed() {
      FactorCompiles(s0, s0.locals);
      ScopeOver(s0, s1, f, right);
      ScopePut(s1, Put(s1, [code]), f);
    }
  }

  lemma {:induction false} TermTailTold(s: Hc, left: Expr, f: nat)
    requires Scope(s, f)
    ensures Told(TermTail(s, left).0)
    decreases s.Left(), 3
  {
    hide WellLexed, Factor, Put, Complaint, Told, Scope;
    InScope(s, f);
    NothingToTell(s);
    if Peek(s) == TkPlus || Peek(s) == TkMinus {
      var op := if Peek(s) == TkPlus then Add else Sub;
      var (s1, right) := Factor(Advance(s));
      var s2 := Put(s1, [OpcodeOf(op)]);
      TermRightTold(s, f, OpcodeOf(op));
      if s2.Failed() {
        StillTold(s2, TermTail(s2, Bin(op, left, right)).0);
      } else {
        TermTailTold(s2, Bin(op, left, right), f);
      }
    }
  }

  lemma {:induction false} TermTold(s: Hc, f: nat)
    requires Scope(s, f) && OperandNext(s.tokens, s.current)
    ensures Told(Term(s).0)
    decreases s.Left(), 4
  {
    hide WellLexed, Declared, Factor, TermTail, Complaint, Compiled, Told;
    FactorTold(s, f);
    var (s1, e) := Factor(s);
    if s1.Failed() {
      StillTold(s1, TermTail(s1, e).0);
    } else {
      FactorCompiles(s, s.locals);
      ScopeOver(s, s1, f, e);
      TermTailTold(s1, e, f);
    }
  }

  lemma {:induction false} ExpressionTold(s: Hc, f: nat)
    requires Scope(s, f) && OperandNext(s.tokens, s.current)
    ensures Told(Expression(s).0)
    decreases s.Left(), 5
  {
    hide WellLexed, Declared, Term, Put, Complaint, Compiled, Told, Header;
    TermTold(s, f);
    var (s1, left) := Term(s);
    if !s1.Failed() && Comparison(Peek(s1)).Some? {
      var op, s2 := Comparison(Peek(s1)).value, Advance(s1);
      TermCompiles(s, s.locals);
      ScopeOver(s, s1, f, left);
      ScopeAdvance(s1, s2, f);
      TermTold(s2, f);
      PutTold(Term(s2).0, [OpcodeOf(op)]);
    }
  }

  // ---------- statements without blocks ----------

  lemma ExpectScope(s: Hc, kind: Token, error: int, f: nat)
    requires Scope(s, f) && kind != TkEof && kind != TkInt && SameKind(Peek(s), kind)
    ensures var t := Expect(s, kind, error);
            Scope(t, f) && t == Advance(s) && t.current == s.current + 1
  {
    hide WellLexed, Declared;
    ScopeAdvance(s, Advance(s), f);
  }

  /** An expression and the token that must follow it. */
  lemma ClosedTold(s: Hc, f: nat, a: nat, front: seq<Token>, wanted: Token, error: int)
    requires Scope(s, f) && OperandNext(s.tokens, s.current) && After(s.tokens, s.current, front)
    requires a + |front| == s.current && wanted in {TkSemi, TkRParen}
    requires forall k :: s.current <= k < |s.tokens| && Awaiting(s.tokens, k, a, front, wanted) ==>
               Complaint(s.tokens, error, k)
    ensures Told(Expect(Expression(s).0, wanted, error))
    ensures var s1, t := Expression(s).0, Expect(Expression(s).0, wanted, error);
            !t.Failed() ==> Scope(t, f) && t.current == s1.current + 1 && t.tokens[s1.current] == wanted
                            && s.current <= s1.current && AfterOperand(s.tokens, s1.current, a, front)
  {
    hide WellLexed, Declared, Expression, Expect, Complaint, Operand;
    ExpressionTold(s, f);
    var s1 := Expression(s).0;
    if !s1.Failed() {
      ExpressionOver(s, f);
      if SameKind(Peek(s1), wanted) { ExpectScope(s1, wanted, error, f); }
    }
    ExpectTold(s1, wanted, error);
  }

  ghost predicate Awaiting(T: seq<Token>, k: nat, a: nat, front: seq<Token>, wanted: Token)
    requires k < |T|
  {
    AfterOperand(T, k, a, front) && T[k] != wanted
  }

  lemma ReturnTold(s: Hc, f: nat)
    requires Scope(s, f) && s.tokens[s.current - 1] == TkReturn
    ensures Told(ReturnStatement(s).0)
  {
    hide WellLexed, Declared, Expression, Expect, Put, Complaint, AfterOperand;
    forall k | s.current <= k < |s.tokens| && Awaiting(s.tokens, k, s.current - 1, [TkReturn], TkSemi)
      ensures Complaint(s.tokens, -82, k)
    {
      ReturnComplaint(s.tokens, k, s.current - 1);
    }
    ClosedTold(s, f, s.current - 1, [TkReturn], TkSemi, -82);
    PutTold(Expect(Expression(s).0, TkSemi, -82), [RET]);
  }

  lemma ReturnComplaint(T: seq<Token>, k: nat, a: nat)
    requires k < |T| && Awaiting(T, k, a, [TkReturn], TkSemi)
    ensures Complaint(T, -82, k)
  {
    hide OperandComplaint, CallComplaint, ProgramComplaint, AfterOperand;
  }

  /** Not failed so far, with these tokens right behind; or failed for a true reason. */
  ghost predicate Reached(s: Hc, f: nat, front: seq<Token>) {
    Told(s) && (!s.Failed() ==> Scope(s, f) && After(s.tokens, s.current, front))
  }

  lemma ReachedOne(s: Hc, f: nat, token: Token)
    requires Scope(s, f) && s.tokens[s.current - 1] == token && !token.TkEof?
    ensures Reached(s, f, [token])
  {
    hide WellLexed, Declared, Complaint, Header;
    NothingToTell(s);
    assert SameKind(token, token);
  }

  lemma ReachedNext(s: Hc, f: nat, front: seq<Token>, kind: Token, error: int)
    requires Reached(s, f, front) && kind != TkEof && kind != TkInt
    requires !s.Failed() && !SameKind(Peek(s), kind) ==> Complaint(s.tokens, error, s.current)
    ensures Reached(Expect(s, kind, error), f, front + [kind])
  {
    hide WellLexed, Declared, Complaint, Header, Told;
    ToldValid(s);
    ExpectTold(s, kind, error);
    if !s.Failed() && SameKind(Peek(s), kind) {
      ExpectScope(s, kind, error, f);
      AfterMore(s.tokens, s.current, front, kind);
    }
  }

  lemma ToldValid(s: Hc)
    requires Told(s)
    ensures s.Valid()
  {
  }

  lemma AfterMore(T: seq<Token>, k: nat, front: seq<Token>, kind: Token)
    requires After(T, k, front) && k < |T| && SameKind(T[k], kind)
    ensures After(T, k + 1, front + [kind])
  {
    hide SameKind;
  }

  lemma GpioTold(s: Hc, f: nat)
    requires Scope(s, f) && s.tokens[s.current - 1] == TkGpio
    ensures Told(GpioStatement(s).0)
  {
    hide WellLexed, Declared, Expect, Put, Scope, Told, OperandComplaint, StatementComplaint, ProgramComplaint, After,
      Header;
    var T := s.tokens;
    InScope(s, f);
    ReachedOne(s, f, TkGpio);
    ReachedNext(s, f, [TkGpio], TkLParen, -103);
    var s1 := Expect(s, TkLParen, -103);
    assert [TkGpio] + [TkLParen] == [TkGpio, TkLParen];
    ReachedNext(s1, f, [TkGpio, TkLParen], TkRParen, -104);
    var s2 := Expect(s1, TkRParen, -104);
    assert [TkGpio, TkLParen] + [TkRParen] == [TkGpio, TkLParen, TkRParen];
    ReachedNext(s2, f, [TkGpio, TkLParen, TkRParen], TkSemi, -105);
    PutTold(Expect(s2, TkSemi, -105), [GPIO]);
  }

  lemma SleepComplaints(T: seq<Token>, k: nat)
    requires k < |T|
    ensures After(T, k, [TkSleep]) && T[k] != TkLParen ==> Complaint(T, -98, k)
    ensures After(T, k, [TkSleep, TkLParen]) && !T[k].TkNumber? ==> Complaint(T, -99, k)
    ensures After(T, k, [TkSleep, TkLParen, NUMBER]) && T[k] != TkRParen ==> Complaint(T, -101, k)
    ensures After(T, k, [TkSleep, TkLParen, NUMBER, TkRParen]) && T[k] != TkSemi ==> Complaint(T, -102, k)
  {
    hide OperandComplaint, StatementComplaint, ProgramComplaint, After;
  }

  lemma SleepTold(s: Hc, f: nat)
    requires Scope(s, f) && s.tokens[s.current - 1] == TkSleep
    ensures Told(SleepStatement(s).0)
  {
    hide WellLexed, Expect, Put, Scope, Told, Complaint, After, HalfBytes, Fail;
    InScope(s, f);
    ReachedOne(s, f, TkSleep);
    SleepComplaints(s.tokens, s.current);
    ReachedNext(s, f, [TkSleep], TkLParen, -98);
    var s1 := Expect(s, TkLParen, -98);
    assert [TkSleep] + [TkLParen] == [TkSleep, TkLParen];
    SleepComplaints(s.tokens, s1.current);
    ReachedNext(s1, f, [TkSleep, TkLParen], NUMBER, -99);
    var s2 := Expect(s1, NUMBER, -99);
    assert [TkSleep, TkLParen] + [NUMBER] == [TkSleep, TkLParen, NUMBER];
    var ms := TokenValue(Peek(s1));
    DurationTold(s1, s2, f);
    SleepCloses(if ms < 0 || ms > 65535 then Fail(s2, -100, s1.current) else s2, f, [SLEEP] + HalfBytes(ToU32(ms)));
  }

  lemma SleepCloses(s: Hc, f: nat, bytes: seq<byte>)
    requires Reached(s, f, [TkSleep, TkLParen, NUMBER])
    ensures Told(Put(Expect(Expect(s, TkRParen, -101), TkSemi, -102), bytes))
  {
    hide WellLexed, Expect, Put, Scope, Told, Complaint, After;
    ToldValid(s);
    SleepComplaints(s.tokens, s.current);
    ReachedNext(s, f, [TkSleep, TkLParen, NUMBER], TkRParen, -101);
    var s4 := Expect(s, TkRParen, -101);
    assert [TkSleep, TkLParen, NUMBER] + [TkRParen] == [TkSleep, TkLParen, NUMBER, TkRParen];
    SleepComplaints(s.tokens, s4.current);
    ReachedNext(s4, f, [TkSleep, TkLParen, NUMBER, TkRParen], TkSemi, -102);
    PutTold(Expect(s4, TkSemi, -102), bytes);
  }

  /** The duration is checked at its token. */
  lemma DurationTold(s1: Hc, s2: Hc, f: nat)
    requires Reached(s1, f, [TkSleep, TkLParen]) && Reached(s2, f, [TkSleep, TkLParen, NUMBER])
    requires s2 == Expect(s1, NUMBER, -99)
    ensures var ms := TokenValue(Peek(s1));
            Reached(if ms < 0 || ms > 65535 then Fail(s2, -100, s1.current) else s2, f, [TkSleep, TkLParen, NUMBER])
  {
    hide WellLexed, Declared, OperandComplaint, StatementComplaint, ProgramComplaint, After, Header, Scope;
    var ms := TokenValue(Peek(s1));
    if (ms < 0 || ms > 65535) && !s2.Failed() {
      DidExpect(s1, NUMBER, -99);
      FailTold(s2, -100, s1.current);
    }
  }

  lemma PrintTold(s: Hc, f: nat)
    requires Scope(s, f) && s.tokens[s.current - 1] == TkPrint
    ensures Told(PrintStatement(s).0)
  {
    hide WellLexed, Declared, Expect, Put, Scope, Told, Expression, AfterOperand, Header, CallComplaint, Complaint;
    InScope(s, f);
    var T, s1 := s.tokens, Expect(s, TkLParen, -95);
    var s2 := Expect(Expression(s1).0, TkRParen, -96);
    var s3 := Expect(s2, TkSemi, -97);
    ConditionTold(s, f, TkPrint, -95, -96);
    if !s2.Failed() && Peek(s2) != TkSemi { PrintComplaint(T, s2.current, s.current - 1); }
    ExpectTold(s2, TkSemi, -97);
    PutTold(s3, [PRINT_INT]);
  }

  lemma PrintComplaint(T: seq<Token>, k: nat, a: nat)
    requires 0 < k < |T| && T[k] != TkSemi && T[k - 1] == TkRParen && AfterOperand(T, k - 1, a, [TkPrint, TkLParen])
    ensures Complaint(T, -97, k)
  {
    hide OperandComplaint, StatementComplaint, ProgramComplaint, AfterOperand;
  }

  /** The complaints about the brackets of a condition. */
  lemma ConditionComplaints(T: seq<Token>, k: nat, a: nat, keyword: Token, e1: int, e2: int)
    requires (keyword, e1, e2) in {(TkIf, -83, -84), (TkWhile, -85, -86), (TkPrint, -95, -96)} && k < |T|
    ensures After(T, k, [keyword]) && T[k] != TkLParen ==> Complaint(T, e1, k)
    ensures Awaiting(T, k, a, [keyword, TkLParen], TkRParen) ==> Complaint(T, e2, k)
  {
    hide OperandComplaint, ProgramComplaint, AfterOperand;
    if Awaiting(T, k, a, [keyword, TkLParen], TkRParen) { assert Fronted(T, k, [keyword, TkLParen]); }
  }

  /** ( expression ) after a keyword. */
  lemma ConditionTold(s: Hc, f: nat, keyword: Token, e1: int, e2: int)
    requires Scope(s, f) && s.tokens[s.current - 1] == keyword
    requires (keyword, e1, e2) in {(TkIf, -83, -84), (TkWhile, -85, -86), (TkPrint, -95, -96)}
    ensures var s1 := Expect(s, TkLParen, e1);
            var t := Expect(Expression(s1).0, TkRParen, e2);
            && Told(t)
            && (!t.Failed() ==>
                  && Scope(t, f) && t.current > s.current && t.tokens[t.current - 1] == TkRParen
                  && AfterOperand(t.tokens, t.current - 1, s.current - 1, [keyword, TkLParen]))
  {
    hide WellLexed, Scope, Expect, Expression, AfterOperand, Complaint, Told, After, OperandNext;
    InScope(s, f);
    var s1 := Expect(s, TkLParen, e1);
    ConditionOpens(s, f, keyword, e1, e2);
    if s1.Failed() {
      StillTold(s1, Expect(Expression(s1).0, TkRParen, e2));
    } else {
      OpenedTold(s1, f, keyword, e1, e2);
    }
  }

  lemma ConditionOpens(s: Hc, f: nat, keyword: Token, e1: int, e2: int)
    requires Scope(s, f) && s.tokens[s.current - 1] == keyword
    requires (keyword, e1, e2) in {(TkIf, -83, -84), (TkWhile, -85, -86), (TkPrint, -95, -96)}
    ensures var t := Expect(s, TkLParen, e1);
            && Told(t)
            && (!t.Failed() ==>
                  && Scope(t, f) && t.current == s.current + 1 && OperandNext(t.tokens, t.current)
                  && After(t.tokens, t.current, [keyword, TkLParen]))
  {
    hide WellLexed, Declared, Expect, AfterOperand, Header, Complaint, Told, After, OperandNext;
    if !Expect(s, TkLParen, e1).Failed() { OpenedHere(s, Expect(s, TkLParen, e1), e1); }
    ReachedOne(s, f, keyword);
    ConditionComplaints(s.tokens, s.current, s.current - 1, keyword, e1, e2);
    ReachedNext(s, f, [keyword], TkLParen, e1);
    assert [keyword] + [TkLParen] == [keyword, TkLParen];
  }

  /** The same from behind the opening bracket. */
  lemma OpenedTold(s: Hc, f: nat, keyword: Token, e1: int, e2: int)
    requires Scope(s, f) && OperandNext(s.tokens, s.current) && After(s.tokens, s.current, [keyword, TkLParen])
    requires (keyword, e1, e2) in {(TkIf, -83, -84), (TkWhile, -85, -86), (TkPrint, -95, -96)}
    ensures var t := Expect(Expression(s).0, TkRParen, e2);
            && Told(t)
            && (!t.Failed() ==>
                  && Scope(t, f) && t.current > s.current && t.tokens[t.current - 1] == TkRParen
                  && AfterOperand(t.tokens, t.current - 1, s.current - 2, [keyword, TkLParen]))
  {
    hide WellLexed, Declared, Expect, Expression, AfterOperand, Header, Complaint, Told;
    var T, a := s.tokens, s.current - 2;
    forall k | s.current <= k < |T| && Awaiting(T, k, a, [keyword, TkLParen], TkRParen) ensures Complaint(T, e2, k) {
      ConditionComplaints(T, k, a, keyword, e1, e2);
    }
    ClosedTold(s, f, a, [keyword, TkLParen], TkRParen, e2);
  }

  lemma OpenedHere(s: Hc, t: Hc, error: int)
    requires s.Valid() && t == Expect(s, TkLParen, error) && !t.Failed()
    ensures t.current == s.current + 1 && t.tokens == s.tokens && OperandNext(t.tokens, t.current)
  {
    hide WellLexed;
  }

  // ---------- write ----------

  lemma WriteComplaints(T: seq<Token>, k: nat)
    requires k < |T|
    ensures After(T, k, WRITE_CALL[..1]) && T[k] != TkLParen ==> Complaint(T, -87, k)
    ensures After(T, k, WRITE_CALL[..2]) && !T[k].TkNumber? ==> Complaint(T, -88, k)
    ensures After(T, k, WRITE_CALL[..2]) && T[k].TkNumber? && T[k].value != 1 ==> Complaint(T, -89, k)
    ensures After(T, k, WRITE_CALL[..3]) && T[k] != TkComma ==> Complaint(T, -90, k)
    ensures After(T, k, WRITE_CALL[..4]) && !T[k].TkString? ==> Complaint(T, -91, k)
    ensures After(T, k, WRITE_CALL[..4]) && T[k].TkString? && Unescape(T[k].raw).None? ==> Complaint(T, -79, k)
  {
    hide OperandComplaint, StatementComplaint, ProgramComplaint, After, Unescape;
  }

  lemma WriteEndComplaints(T: seq<Token>, k: nat, long: bool)
    requires k < |T|
    ensures After(T, k, WRITE_CALL + [TkComma]) && !T[k].TkNumber? ==> Complaint(T, -92, k)
    ensures After(T, k, WriteArgs(long)) && T[k] != TkRParen && (!long ==> T[k] != TkComma) ==> Complaint(T, -93, k)
    ensures After(T, k, WriteArgs(long) + [TkRParen]) && T[k] != TkSemi ==> Complaint(T, -94, k)
  {
    hide OperandComplaint, StatementComplaint, ProgramComplaint, After, Unescape;
    assert WRITE_CALL + [TkComma, NUMBER] + [TkRParen] == WRITE_CALL + [TkComma, NUMBER, TkRParen];
  }

  /** The arguments of a write, with or without the length. */
  function WriteArgs(long: bool): seq<Token> {
    if long then WRITE_CALL + [TkComma, NUMBER] else WRITE_CALL
  }

  lemma WriteOpens(s: Hc, f: nat)
    requires Scope(s, f) && s.tokens[s.current - 1] == TkWrite
    ensures Reached(WriteOpening(s), f, WRITE_CALL[..4])
  {
    hide WellLexed, Expect, Scope, Told, Complaint, After, Fail;
    InScope(s, f);
    var T, s1 := s.tokens, Expect(s, TkLParen, -87);
    ReachedOne(s, f, TkWrite);
    assert [TkWrite] == WRITE_CALL[..1] && WRITE_CALL[..1] + [TkLParen] == WRITE_CALL[..2];
    assert WRITE_CALL[..2] + [NUMBER] == WRITE_CALL[..3] && WRITE_CALL[..3] + [TkComma] == WRITE_CALL[..4];
    WriteComplaints(T, s.current);
    ReachedNext(s, f, WRITE_CALL[..1], TkLParen, -87);
    WriteComplaints(T, s1.current);
    ReachedNext(s1, f, WRITE_CALL[..2], NUMBER, -88);
    var s2 := Expect(s1, NUMBER, -88);
    DescriptorTold(s1, s2, f);
    var s3 := if TokenValue(Peek(s1)) != 1 then Fail(s2, -89, s1.current) else s2;
    WriteComplaints(T, s3.current);
    ReachedNext(s3, f, WRITE_CALL[..3], TkComma, -90);
  }

  /** The descriptor is checked at its token. */
  lemma DescriptorTold(s1: Hc, s2: Hc, f: nat)
    requires Reached(s1, f, WRITE_CALL[..2]) && Reached(s2, f, WRITE_CALL[..3]) && s2 == Expect(s1, NUMBER, -88)
    ensures Reached(if TokenValue(Peek(s1)) != 1 then Fail(s2, -89, s1.current) else s2, f, WRITE_CALL[..3])
  {
    hide WellLexed, Declared, Complaint, After, Header, Scope;
    if TokenValue(Peek(s1)) != 1 && !s2.Failed() {
      DidExpect(s1, NUMBER, -88);
      WriteComplaints(s1.tokens, s1.current);
      FailTold(s2, -89, s1.current);
    }
  }

  /** The string, and the length if there is one. */
  lemma WriteArgsTold(s4: Hc, f: nat)
    requires Reached(s4, f, WRITE_CALL[..4])
    ensures var r := WriteLength(Expect(s4, STRING, -91));
            && Told(r.0)
            && (!r.0.Failed() ==> Reached(r.0, f, WriteArgs(r.1.Some?)) && (r.1.None? ==> Peek(r.0) != TkComma))
  {
    hide WellLexed, Expect, Scope, Complaint, After, Header, Declared;
    ToldValid(s4);
    WriteComplaints(s4.tokens, s4.current);
    assert WRITE_CALL[..4] + [STRING] == WRITE_CALL;
    ReachedNext(s4, f, WRITE_CALL[..4], STRING, -91);
    var s5 := Expect(s4, STRING, -91);
    if s5.Failed() {
      StillTold(s5, WriteLength(s5).0);
    } else if Peek(s5) == TkComma {
      LengthTold(s5, f);
    }
  }

  lemma LengthTold(s: Hc, f: nat)
    requires Reached(s, f, WRITE_CALL) && !s.Failed() && Peek(s) == TkComma
    ensures Reached(Expect(Advance(s), NUMBER, -92), f, WriteArgs(true))
  {
    hide WellLexed, Expect, Scope, Complaint, After, Header, Declared, Told;
    CommaReached(s, f);
    WriteEndComplaints(s.tokens, s.current + 1, true);
    assert WRITE_CALL + [TkComma] + [NUMBER] == WriteArgs(true);
    ReachedNext(Advance(s), f, WRITE_CALL + [TkComma], NUMBER, -92);
  }

  lemma CommaReached(s: Hc, f: nat)
    requires Reached(s, f, WRITE_CALL) && !s.Failed() && Peek(s) == TkComma
    ensures Reached(Advance(s), f, WRITE_CALL + [TkComma]) && s.current + 1 < |s.tokens|
  {
    hide WellLexed, Declared, Complaint, Header, After;
    ScopeAdvance(s, Advance(s), f);
    AfterMore(s.tokens, s.current, WRITE_CALL, TkComma);
  }

  lemma WriteCloses(s: Hc, f: nat, long: bool)
    requires Reached(s, f, WriteArgs(long)) && !s.Failed() && (!long ==> Peek(s) != TkComma)
    ensures Told(Expect(Expect(s, TkRParen, -93), TkSemi, -94))
  {
    hide WellLexed, Expect, Scope, Told, Complaint, After, WriteArgs;
    ToldValid(s);
    WriteEndComplaints(s.tokens, s.current, long);
    ReachedNext(s, f, WriteArgs(long), TkRParen, -93);
    var s1 := Expect(s, TkRParen, -93);
    WriteEndComplaints(s.tokens, s1.current, long);
    ReachedNext(s1, f, WriteArgs(long) + [TkRParen], TkSemi, -94);
  }

  lemma {:induction false} DecodedTold(s: Hc, raw: seq<byte>, token: nat)
    requires Told(s) && token < |s.tokens| && (Unescape(raw).None? ==> Complaint(s.tokens, -79, token))
    ensures Told(PutDecoded(s, raw, token))
    decreases |raw|
  {
    hide WellLexed, Put, Complaint, Told;
    ToldValid(s);
    if raw != [] && raw[0] != 92 {
      PutTold(s, [raw[0]]);
      DecodedTold(Put(s, [raw[0]]), raw[1..], token);
    } else if raw != [] && (|raw| == 1 || Escape(raw[1]).None?) {
      BadEscapeTold(s, token);
    } else if raw != [] {
      PutTold(s, [Escape(raw[1]).value]);
      DecodedTold(Put(s, [Escape(raw[1]).value]), raw[2..], token);
    }
  }

  lemma BadEscapeTold(s: Hc, token: nat)
    requires Told(s) && token < |s.tokens| && Complaint(s.tokens, -79, token)
    ensures Told(Fail(s, -79, token))
  {
    hide WellLexed, Complaint;
  }

  lemma StringTold(s: Hc, token: nat)
    requires Told(s) && token < |s.tokens|
    requires Unescape(TokenRaw(s.tokens[token])).None? ==> Complaint(s.tokens, -79, token)
    ensures Told(PutString(s, token))
  {
    hide WellLexed, Put, Complaint, PutDecoded, Unescape;
    PutTold(s, [WRITE, 0]);
    DecodedTold(Put(s, [WRITE, 0]), TokenRaw(s.tokens[token]), token);
  }

  lemma WriteTold(s: Hc, f: nat)
    requires Scope(s, f) && s.tokens[s.current - 1] == TkWrite
    ensures Told(WriteStatement(s).0)
  {
    hide WellLexed, Expect, Scope, Complaint, PutString, WriteOpening, After, WriteLength, Unescape, Told;
    InScope(s, f);
    var s4 := WriteOpening(s);
    WriteOpens(s, f);
    WriteArgsTold(s4, f);
    var (s5, length) := WriteLength(Expect(s4, STRING, -91));
    var s6 := Expect(Expect(s5, TkRParen, -93), TkSemi, -94);
    if s5.Failed() {
      StillTold(s5, s6);
    } else {
      WriteCloses(s5, f, length.Some?);
    }
    if s6.Failed() {
      StillTold(s6, PutString(s6, s4.current));
    } else {
      StringThere(s4);
      WriteComplaints(s4.tokens, s4.current);
      StringTold(s6, s4.current);
    }
  }

  lemma StringThere(s4: Hc)
    requires s4.Valid()
    ensures !s4.Failed() && !Expect(s4, STRING, -91).Failed() ==> Peek(s4).TkString?
  {
    hide WellLexed;
  }

  // ---------- declarations and names ----------

  lemma DeclareComplaints(T: seq<Token>, k: nat, f: nat)
    requires 0 < k < |T| && StatementNext(T, k - 1) && T[k - 1] == TkInt && InFunction(T, k - 1, f)
    ensures !T[k].TkIdent? ==> Complaint(T, -80, k)
    ensures T[k].TkIdent? && T[k].name in Declared(T[f..k - 1]) ==> Complaint(T, -70, k)
    ensures T[k].TkIdent? && |Declared(T[f..k - 1])| >= 8 ==> Complaint(T, -71, k)
  {
    hide CallComplaint, StatementComplaint, ProgramComplaint, Declared, InFunction;
    assert After(T, k, [TkInt]);
  }

  /** The name of a declaration. */
  lemma DeclareNameTold(s: Hc, f: nat)
    requires Scope(s, f) && Peek(s) == TkInt && StatementNext(s.tokens, s.current)
    ensures var s0 := Advance(s); var s2 := AddLocal(Expect(s0, IDENT, -80), s0.current);
            && Told(s2)
            && (!s2.Failed() ==> Scope(s2, f) && s2.current == s.current + 2 && s.tokens[s.current + 1].TkIdent?)
  {
    hide WellLexed, Complaint, Declared, Header;
    var T, s0 := s.tokens, Advance(s);
    assert InFunction(T, s.current, f);
    DeclareComplaints(T, s0.current, f);
    NothingToTell(s0);
    var s1 := Expect(s0, IDENT, -80);
    ExpectTold(s0, IDENT, -80);
    if !s1.Failed() {
      var n := TokenName(T[s0.current]);
      SlotIn(s1.locals, n);
      var s2 := AddLocal(s1, s0.current);
      if !s2.Failed() {
        assert T[s.current..s2.current] == [TkInt, TkIdent(n)];
        OneDeclared(n);
        ScopeAfter(s, s2, f, [TkInt, TkIdent(n)], [n]);
      }
    }
  }

  lemma OneDeclared(n: Name)
    ensures Declared([TkInt, TkIdent(n)]) == [n]
  {
    assert [TkInt, TkIdent(n)][1..] == [TkIdent(n)];
    assert Declared([TkIdent(n)]) == [];
  }

  lemma InitComplaints(T: seq<Token>, k: nat, a: nat)
    requires k < |T| && StatementNext(T, a)
    ensures Awaiting(T, k, a, [TkInt, IDENT, TkAssign], TkSemi) ==> Complaint(T, -81, k)
    ensures k == a + 2 && After(T, k, [TkInt, IDENT]) && T[k] !in {TkSemi, TkAssign} ==> Complaint(T, -81, k)
    ensures Awaiting(T, k, a, [IDENT, TkAssign], TkSemi) ==> Complaint(T, -107, k)
  {
    hide CallComplaint, ProgramComplaint, AfterOperand, After;
  }

  /** What follows the name of a declaration. */
  lemma DeclareRestTold(s2: Hc, f: nat, a: nat)
    requires Scope(s2, f) && StatementNext(s2.tokens, a) && s2.current == a + 2
    requires After(s2.tokens, s2.current, [TkInt, IDENT])
    ensures Peek(s2) == TkAssign ==> Told(Expect(Expression(Advance(s2)).0, TkSemi, -81))
    ensures Peek(s2) != TkAssign ==> Told(Expect(Put(s2, Encode(PushI32(0))), TkSemi, -81))
  {
    hide WellLexed, Declared, Header, Complaint, Expression, Expect, Put, Encode, AfterOperand, Told;
    var T := s2.tokens;
    NothingToTell(s2);
    InitComplaints(T, s2.current, a);
    if Peek(s2) == TkAssign {
      var s3 := Advance(s2);
      ScopeAdvance(s2, s3, f);
      AfterMore(T, s2.current, [TkInt, IDENT], TkAssign);
      assert [TkInt, IDENT] + [TkAssign] == [TkInt, IDENT, TkAssign];
      forall k | s3.current <= k < |T| && Awaiting(T, k, a, [TkInt, IDENT, TkAssign], TkSemi)
        ensures Complaint(T, -81, k)
      {
        InitComplaints(T, k, a);
      }
      ClosedTold(s3, f, a, [TkInt, IDENT, TkAssign], TkSemi, -81);
    } else {
      PutTold(s2, Encode(PushI32(0)));
      ExpectTold(Put(s2, Encode(PushI32(0))), TkSemi, -81);
    }
  }

  lemma DeclareTold(s: Hc, f: nat)
    requires Scope(s, f) && Peek(s) == TkInt && StatementNext(s.tokens, s.current)
    ensures Told(DeclareStatement(Advance(s)).0)
  {
    hide WellLexed, Declared, Header, Complaint, Expression, Expect, Put, Encode, Told, AddLocal, Scope;
    InScope(s, f);
    var s0 := Advance(s);
    var s1 := Expect(s0, IDENT, -80);
    var s2 := AddLocal(s1, s0.current);
    DeclareNameTold(s, f);
    var s3 := if Peek(s2) == TkAssign then Expression(Advance(s2)).0 else Put(s2, Encode(PushI32(0)));
    var s4 := Expect(s3, TkSemi, -81);
    if s2.Failed() {
      StillTold(s2, s4);
    } else {
      assert After(s.tokens, s2.current, [TkInt, IDENT]);
      DeclareRestTold(s2, f, s.current);
    }
    PutTold(s4, Encode(StoreLocal(|s1.locals|)));
  }

  lemma NameComplaints(T: seq<Token>, k: nat, a: nat)
    requires a <= k < |T| && StatementNext(T, a) && T[a].TkIdent?
    ensures k == a + 2 && T[a + 1] == TkLParen && T[k] != TkRParen ==> Complaint(T, -108, k)
    ensures k == a + 3 && T[a + 1] == TkLParen && T[a + 2] == TkRParen && T[k] != TkSemi ==> Complaint(T, -109, k)
    ensures k == a && k + 1 < |T| && T[k + 1] == TkLParen ==> Complaint(T, -74, k)
    ensures k == a && k + 1 < |T| && T[k + 1] !in {TkAssign, TkLParen} ==> Complaint(T, -110, k)
  {
    hide CallComplaint, ProgramComplaint, AfterOperand;
  }

  /** An assignment; s is behind the name. */
  lemma AssignTold(s: Hc, f: nat, n: Name)
    requires Scope(s, f) && Peek(s) == TkAssign && s.tokens[s.current - 1] == TkIdent(n)
    requires StatementNext(s.tokens, s.current - 1) && f < s.current - 1
    ensures Told(NameStatement(s, s.current - 1, n).0)
  {
    hide WellLexed, Declared, Header, Complaint, Expression, Expect, Put, Encode, AfterOperand, Told, Fail;
    var T, a, s1 := s.tokens, s.current - 1, Advance(s);
    var slot := Slot(s1.locals, n);
    ScopeAdvance(s, s1, f);
    if slot == |s1.locals| {
      UndeclaredTold(s, f, a);
      FailTold(s1, -76, a);
    } else {
      forall k | s1.current <= k < |T| && Awaiting(T, k, a, [IDENT, TkAssign], TkSemi) ensures Complaint(T, -107, k) {
        InitComplaints(T, k, a);
      }
      ClosedTold(s1, f, a, [IDENT, TkAssign], TkSemi, -107);
      PutTold(Expect(Expression(s1).0, TkSemi, -107), Encode(StoreLocal(slot)));
    }
  }

  /** A call as a statement; s is behind the name. */
  lemma CallStatementTold(s: Hc, f: nat, n: Name)
    requires Scope(s, f) && Peek(s) == TkLParen && s.tokens[s.current - 1] == TkIdent(n)
    requires StatementNext(s.tokens, s.current - 1)
    ensures Told(NameStatement(s, s.current - 1, n).0)
  {
    hide WellLexed, Declared, Header, Complaint, Put, PutCall, Expect, Told;
    var T, a, s1 := s.tokens, s.current - 1, Advance(s);
    ScopeAdvance(s, s1, f);
    NameComplaints(T, s1.current, a);
    NameComplaints(T, a, a);
    ExpectTold(s1, TkRParen, -108);
    var s2 := Expect(s1, TkRParen, -108);
    if !s2.Failed() { DidExpect(s1, TkRParen, -108); NameComplaints(T, s2.current, a); }
    ExpectTold(s2, TkSemi, -109);
    PutCallTold(Expect(s2, TkSemi, -109), a);
    PutTold(PutCall(Expect(s2, TkSemi, -109), a), [POP]);
  }

  lemma NameTold(s: Hc, f: nat)
    requires Scope(s, f) && Peek(s).TkIdent? && StatementNext(s.tokens, s.current)
    ensures Told(NameStatement(Advance(s), s.current, Peek(s).name).0)
  {
    hide WellLexed, Declared, Header, Complaint, Put, PutCall, Expect, Told, NameStatement, Fail, StatementNext;
    var s1, n := Advance(s), Peek(s).name;
    ScopeAdvance(s, s1, f);
    if Peek(s1) == TkAssign {
      AssignTold(s1, f, n);
    } else if Peek(s1) == TkLParen {
      CallStatementTold(s1, f, n);
    } else {
      NameComplaints(s.tokens, s.current, s.current);
      FailTold(s1, -110, s.current);
      OtherName(s1, s.current, n);
    }
  }

  lemma OtherName(s: Hc, token: nat, n: Name)
    requires s.Valid() && token < |s.tokens| && Peek(s) !in {TkAssign, TkLParen}
    ensures NameStatement(s, token, n).0 == Fail(s, -110, token)
  {
    hide WellLexed, Fail;
  }

  // ---------- what accepted statements leave behind ----------

  /** The names that the tokens of a statement declare are those of the statement, and its last token ends it. */
  lemma {:induction false} SpelledDeclares(st: Stmt)
    ensures Declared(SpellS(st)) == DeclaredS(st) && SpellS(st)[|SpellS(st)| - 1] in {TkSemi, TkRBrace}
    decreases st, 0
  {
    hide SpellE, SpellBlock, Declared, DeclaredSs;
    match st {
      case Declare(n) => PlainDeclares([TkInt, TkIdent(n), TkSemi], n);
      case DeclareInit(n, e) => InitDeclares(n, e);
      case If(c, t) => GuardDeclares(TkIf, c, t);
      case IfElse(c, t, e) => ElseDeclares(c, t, e);
      case While(c, b) => GuardDeclares(TkWhile, c, b);
      case Block(b) => BlockDeclares(b);
      case Assign(_, e) => SpellNoInt(e); NoneDeclared(SpellS(st));
      case Return(e) => SpellNoInt(e); NoneDeclared(SpellS(st));
      case PrintExpr(e) => SpellNoInt(e); NoneDeclared(SpellS(st));
      case _ => NoneDeclared(SpellS(st));
    }
  }

  lemma InitDeclares(n: Name, e: Expr)
    ensures Declared(SpellS(DeclareInit(n, e))) == [n]
  {
    hide SpellE, Declared;
    SpellNoInt(e);
    DeclaredParts([TkInt, TkIdent(n)], [TkAssign] + SpellE(e) + [TkSemi]);
    OneDeclared(n);
    assert SpellS(DeclareInit(n, e)) == [TkInt, TkIdent(n)] + ([TkAssign] + SpellE(e) + [TkSemi]);
  }

  lemma {:induction false} GuardDeclares(keyword: Token, c: Expr, b: Stmts)
    requires keyword in {TkIf, TkWhile}
    ensures var front := [keyword, TkLParen] + SpellE(c) + [TkRParen];
            && Declared(front + SpellBlock(b)) == DeclaredSs(b) && NoInt(front) && front[|front| - 1] == TkRParen
            && NoIntEnd(SpellBlock(b)) && SpellBlock(b) != []
    decreases b, 3
  {
    hide SpellE, Declared, DeclaredSs, SpellBlock;
    SpellNoInt(c);
    BlockDeclares(b);
    DeclaredBehind([keyword, TkLParen] + SpellE(c) + [TkRParen], SpellBlock(b));
  }

  lemma {:induction false} ElseDeclares(c: Expr, t: Stmts, e: Stmts)
    ensures var toks := SpellS(IfElse(c, t, e));
            Declared(toks) == DeclaredSs(t) + DeclaredSs(e) && toks[|toks| - 1] in {TkSemi, TkRBrace}
    decreases IfElse(c, t, e), -1
  {
    hide SpellE, Declared, DeclaredSs, SpellBlock;
    var front := [TkIf, TkLParen] + SpellE(c) + [TkRParen] + SpellBlock(t);
    GuardDeclares(TkIf, c, t);
    BlockDeclares(e);
    DeclaredSplit(front, [TkElse] + SpellBlock(e));
    DeclaredBehind([TkElse], SpellBlock(e));
    assert SpellS(IfElse(c, t, e)) == front + ([TkElse] + SpellBlock(e));
  }

  lemma PlainDeclares(ts: seq<Token>, n: Name)
    requires ts == [TkInt, TkIdent(n), TkSemi]
    ensures Declared(ts) == [n]
  {
    OneDeclared(n);
    NoneDeclared([TkSemi]);
    DeclaredSplit([TkInt, TkIdent(n)], [TkSemi]);
    assert ts == [TkInt, TkIdent(n)] + [TkSemi];
  }

  lemma DeclaredParts(a: seq<Token>, b: seq<Token>)
    requires a != [] && a[|a| - 1] != TkInt && NoInt(b)
    ensures Declared(a + b) == Declared(a)
  {
    DeclaredSplit(a, b);
    NoneDeclared(b);
  }

  lemma DeclaredBehind(a: seq<Token>, b: seq<Token>)
    requires NoInt(a)
    ensures Declared(a + b) == Declared(b)
  {
    DeclaredSplit(a, b);
    NoneDeclared(a);
  }

  lemma {:induction false} BlockDeclares(ss: Stmts)
    ensures Declared(SpellBlock(ss)) == DeclaredSs(ss) && NoIntEnd(SpellBlock(ss)) && SpellBlock(ss) != []
    decreases ss, 2
  {
    hide SpellSs, Declared;
    ListDeclares(ss);
    DeclaredBehind([TkLBrace], SpellSs(ss));
    DeclaredSplit([TkLBrace] + SpellSs(ss), [TkRBrace]);
    NoneDeclared([TkRBrace]);
  }

  predicate NoIntEnd(ts: seq<Token>) { ts != [] ==> ts[|ts| - 1] in {TkSemi, TkRBrace} }

  lemma {:induction false} ListDeclares(ss: Stmts)
    ensures Declared(SpellSs(ss)) == DeclaredSs(ss) && NoIntEnd(SpellSs(ss))
    decreases ss, 1
  {
    match ss
    case Nil =>
    case Cons(h, t) =>
      SpelledDeclares(h);
      ListDeclares(t);
      DeclaredSplit(SpellS(h), SpellSs(t));
  }

  /** After an accepted statement. */
  lemma StatementOver(s: Hc, f: nat)
    requires Scope(s, f) && !Statement(s).0.Failed()
    ensures var t := Statement(s).0; Scope(t, f) && StatementNext(t.tokens, t.current) && t.current > s.current
  {
    hide WellLexed, Declared, Header, Statement, SpellS, EmitS, SitesS, WellFormedS, DeclaredS;
    var (t, st) := Statement(s);
    StatementCompiles(s, t.locals);
    SpelledDeclares(st);
    ScopeAfter(s, t, f, SpellS(st), DeclaredS(st));
    assert EndsAs(t.tokens, s.current, t.current, SpellS(st));
  }

  predicate EndsAs(T: seq<Token>, a: nat, b: nat, toks: seq<Token>)
    requires a <= b <= |T| && T[a..b] == toks && toks != []
    ensures EndsAs(T, a, b, toks) && T[b - 1] == toks[|toks| - 1]
  {
    assert T[a..b][b - a - 1] == T[b - 1];
    true
  }

  // ---------- blocks ----------

  lemma BlockComplaints(T: seq<Token>, k: nat, a: nat)
    requires k < |T| && OpenBlock(T, a, k) && T[k] == TkEof
    ensures BlockNext(T, a) ==> Complaint(T, -113, k)
    ensures StatementNext(T, a) ==> Complaint(T, -106, k)
  {
    hide OperandComplaint, CallComplaint, ProgramComplaint, OpenBlock;
  }

  lemma BlockWanted(T: seq<Token>, k: nat)
    requires k < |T| && BlockNext(T, k) && T[k] != TkLBrace
    ensures Complaint(T, -112, k)
  {
    hide OperandComplaint, CallComplaint, ProgramComplaint;
  }

  lemma StatementWanted(T: seq<Token>, k: nat)
    requires k < |T| && StatementNext(T, k) && !StartsStatement(T[k]) && T[k] !in {TkRBrace, TkEof}
    ensures Complaint(T, -111, k)
  {
    hide OperandComplaint, CallComplaint, ProgramComplaint;
  }

  /** What a list of statements leaves when it is accepted. */
  lemma ListOver(s: Hc, f: nat)
    requires Scope(s, f) && !StatementList(s).0.Failed()
    ensures var t := StatementList(s).0;
            && Scope(t, f) && Body(s.tokens, s.current, t.current) && Peek(t) in {TkRBrace, TkEof}
  {
    hide WellLexed, Declared, Header, StatementList, SpellSs, EmitSs, SitesSs, WellFormedSs, DeclaredSs;
    var (t, ss) := StatementList(s);
    ListCompiles(s, t.locals);
    ListDeclares(ss);
    ScopeAfter(s, t, f, SpellSs(ss), DeclaredSs(ss));
  }

  lemma {:induction false} ListTold(s: Hc, f: nat)
    requires Scope(s, f) && StatementNext(s.tokens, s.current)
    ensures Told(StatementList(s).0)
    decreases s.Left(), 1, 2
  {
    hide WellLexed, Statement, Complaint, Told, Scope;
    InScope(s, f);
    NothingToTell(s);
    if Peek(s) != TkRBrace && Peek(s) != TkEof {
      StatementTold(s, f);
      var s1 := Statement(s).0;
      if s1.Failed() {
        StillTold(s1, StatementList(s1).0);
      } else {
        StatementOver(s, f);
        ListTold(s1, f);
      }
    }
  }

  /** Statements and the closing brace; the opening one stands at a. */
  lemma {:induction false} ClosingTold(s: Hc, f: nat, a: nat, error: int)
    requires Scope(s, f) && a + 1 == s.current && s.tokens[a] == TkLBrace
    requires (error == -113 && BlockNext(s.tokens, a)) || (error == -106 && StatementNext(s.tokens, a))
    ensures Told(Expect(StatementList(s).0, TkRBrace, error))
    decreases s.Left(), 1, 3
  {
    hide WellLexed, StatementList, Complaint, Told, Scope, Body, Expect;
    InScope(s, f);
    ListTold(s, f);
    var t := StatementList(s).0;
    if !t.Failed() {
      ListOver(s, f);
      if Peek(t) == TkEof { BlockComplaints(s.tokens, t.current, a); }
    }
    ExpectTold(t, TkRBrace, error);
  }

  lemma {:induction false} BlockTold(s: Hc, f: nat)
    requires Scope(s, f) && BlockNext(s.tokens, s.current)
    ensures Told(BlockOf(s).0)
    decreases s.Left(), 1, 3
  {
    hide WellLexed, StatementList, Complaint, Told, Expect, Declared, Header;
    var s0 := Expect(s, TkLBrace, -112);
    NothingToTell(s);
    if Peek(s) != TkLBrace { BlockWanted(s.tokens, s.current); }
    ExpectTold(s, TkLBrace, -112);
    if s0.Failed() {
      StillTold(s0, BlockOf(s).0);
    } else {
      BraceThere(s);
      ExpectScope(s, TkLBrace, -112, f);
      ClosingTold(s0, f, s.current, -113);
    }
  }

  lemma BraceThere(s: Hc)
    requires s.Valid() && !s.Failed() && !Expect(s, TkLBrace, -112).Failed()
    ensures Peek(s) == TkLBrace
  {
    hide WellLexed;
  }

  /** After an accepted block. */
  lemma BlockOver(s: Hc, f: nat)
    requires Scope(s, f) && !BlockOf(s).0.Failed()
    ensures var t := BlockOf(s).0; Scope(t, f) && |t.code| >= |s.code| && t.current > s.current
  {
    hide WellLexed, Declared, Header, BlockOf, SpellBlock, EmitSs, SitesSs, WellFormedSs, DeclaredSs;
    var (t, ss) := BlockOf(s);
    BlockCompiles(s, t.locals);
    BlockDeclares(ss);
    BlockEnds(ss);
    ScopeAfter(s, t, f, SpellBlock(ss), DeclaredSs(ss));
  }

  lemma BlockEnds(ss: Stmts)
    ensures SpellBlock(ss) != [] && SpellBlock(ss)[|SpellBlock(ss)| - 1] == TkRBrace
  {
    hide SpellSs;
  }

  lemma PatchTold(s: Hc, operand: nat, value: nat)
    requires Told(s) && (!s.Failed() ==> operand + 1 < |s.code|)
    ensures Told(Patch(s, operand, value)) && (Patch(s, operand, value).Failed() <==> s.Failed())
    ensures |Patch(s, operand, value).code| == |s.code|
  {
    hide WellLexed, Complaint;
  }

  /** A condition, its branch, and its block. */
  lemma {:induction false} GuardTold(s: Hc, f: nat, keyword: Token, e1: int, e2: int)
    requires Scope(s, f) && s.tokens[s.current - 1] == keyword
    requires (keyword, e1, e2) in {(TkIf, -83, -84), (TkWhile, -85, -86)}
    ensures var s2 := Expect(Expression(Expect(s, TkLParen, e1)).0, TkRParen, e2);
            var t := BlockOf(PutJump(s2, JZ)).0;
            && Told(t) && (!t.Failed() ==> Scope(t, f) && HoleAt(s2) + 1 < |t.code| && t.current > s.current)
    decreases s.Left(), 1, 4
  {
    hide WellLexed, Declared, Header, Complaint, Told, Expression, Expect, BlockOf, AfterOperand, Put;
    var s2 := Expect(Expression(Expect(s, TkLParen, e1)).0, TkRParen, e2);
    var g := PutJump(s2, JZ);
    ConditionTold(s, f, keyword, e1, e2);
    PutTold(s2, [JZ, 0, 0]);
    if g.Failed() {
      StillTold(g, BlockOf(g).0);
    } else {
      JumpPut(s2, JZ);
      ScopePut(s2, g, f);
      BlockTold(g, f);
      if !BlockOf(g).0.Failed() { BlockOver(g, f); }
    }
  }

  lemma JumpPut(s: Hc, opcode: byte)
    requires s.Valid() && !PutJump(s, opcode).Failed()
    ensures !s.Failed() && |PutJump(s, opcode).code| == |s.code| + 3 && HoleAt(s) == |s.code| + 1
  {
    hide WellLexed;
  }

  lemma {:induction false} WhileTold(s: Hc, f: nat, start: nat)
    requires Scope(s, f) && s.tokens[s.current - 1] == TkWhile
    ensures Told(WhileStatement(s, start).0)
    decreases s.Left(), 1, 5
  {
    hide WellLexed, Scope, Complaint, Told, Expression, Expect, BlockOf, Put, Patch, HalfBytes, PutJump;
    InScope(s, f);
    var s2 := Expect(Expression(Expect(s, TkLParen, -85)).0, TkRParen, -86);
    var s3 := BlockOf(PutJump(s2, JZ)).0;
    var s4 := Put(s3, [JMP] + HalfBytes(start));
    GuardTold(s, f, TkWhile, -85, -86);
    PutTold(s3, [JMP] + HalfBytes(start));
    if !s4.Failed() { PutGrows(s3, [JMP] + HalfBytes(start)); }
    PatchTold(s4, HoleAt(s2), |s4.code|);
  }

  lemma PutGrows(s: Hc, bytes: seq<byte>)
    requires s.Valid() && !Put(s, bytes).Failed()
    ensures !s.Failed() && |Put(s, bytes).code| == |s.code| + |bytes|
  {
    hide WellLexed;
  }

  lemma {:induction false} ElseTold(s: Hc, f: nat, hole: nat)
    requires Scope(s, f) && s.tokens[s.current - 1] == TkElse && hole + 1 < |s.code|
    ensures Told(ElseBranch(s, hole).0)
    decreases s.Left(), 1, 4
  {
    hide WellLexed, Declared, Header, Complaint, Told, BlockOf, Put, Patch;
    var s1 := PutJump(s, JMP);
    NothingToTell(s);
    PutTold(s, [JMP, 0, 0]);
    if s1.Failed() {
      var u := Patch(s1, hole, |s1.code|);
      StillTold(s1, u);
      StillTold(u, BlockOf(u).0);
      StillTold(BlockOf(u).0, ElseBranch(s, hole).0);
    } else {
      JumpPut(s, JMP);
      var u := Patch(s1, hole, |s1.code|);
      PatchTold(s1, hole, |s1.code|);
      ScopePut(s, u, f);
      BlockTold(u, f);
      if !BlockOf(u).0.Failed() { BlockOver(u, f); }
      PatchTold(BlockOf(u).0, HoleAt(s), |BlockOf(u).0.code|);
    }
  }

  lemma {:induction false} IfTold(s: Hc, f: nat)
    requires Scope(s, f) && s.tokens[s.current - 1] == TkIf
    ensures Told(IfStatement(s).0)
    decreases s.Left(), 1, 5
  {
    hide WellLexed, Scope, Complaint, Told, Expression, Expect, BlockOf, Patch, PutJump, ElseBranch;
    InScope(s, f);
    var s2 := Expect(Expression(Expect(s, TkLParen, -83)).0, TkRParen, -84);
    var s3 := BlockOf(PutJump(s2, JZ)).0;
    GuardTold(s, f, TkIf, -83, -84);
    if Peek(s3) == TkElse {
      if s3.Failed() {
        StillTold(s3, ElseBranch(Advance(s3), HoleAt(s2)).0);
      } else {
        ScopeAdvance(s3, Advance(s3), f);
        ElseTold(Advance(s3), f, HoleAt(s2));
      }
    } else {
      PatchTold(s3, HoleAt(s2), |s3.code|);
    }
  }

  lemma {:induction false} StatementTold(s: Hc, f: nat)
    requires Scope(s, f) && StatementNext(s.tokens, s.current) && Peek(s) !in {TkRBrace, TkEof}
    ensures Told(Statement(s).0)
    decreases s.Left(), 1, 0
  {
    hide WellLexed, Scope, Complaint, Told, Expression, Expect, DeclareStatement, ReturnStatement, IfStatement,
      WhileStatement, WriteStatement, PrintStatement, SleepStatement, GpioStatement, NameStatement, StatementList, Fail,
      StatementNext;
    InScope(s, f);
    match Peek(s)
    case TkInt => DeclareTold(s, f);
    case TkIdent(n) => NameTold(s, f);
    case TkEof =>
    case TkRBrace =>
    case TkReturn => ScopeAdvance(s, Advance(s), f); ReturnTold(Advance(s), f);
    case TkIf => ScopeAdvance(s, Advance(s), f); IfTold(Advance(s), f);
    case TkWhile => ScopeAdvance(s, Advance(s), f); WhileTold(Advance(s), f, |s.code|);
    case TkWrite => ScopeAdvance(s, Advance(s), f); WriteTold(Advance(s), f);
    case TkPrint => ScopeAdvance(s, Advance(s), f); PrintTold(Advance(s), f);
    case TkSleep => ScopeAdvance(s, Advance(s), f); SleepTold(Advance(s), f);
    case TkGpio => ScopeAdvance(s, Advance(s), f); GpioTold(Advance(s), f);
    case TkLBrace => ScopeAdvance(s, Advance(s), f); ClosingTold(Advance(s), f, s.current, -106);
    case _ =>
      StatementWanted(s.tokens, s.current);
      FailTold(s, -111, s.current);
  }

  // ---------- functions and programs ----------

  /** Between definitions, with p behind. */
  ghost predicate Between(s: Hc, p: Program) {
    && s.Valid() && !s.Failed() && Spelled(s.tokens, p, s.current) && FunctionNext(s.tokens, s.current) && s.code != []
    && |s.functions| == |p| && forall n :: Known(s.functions, n) <==> Defined(p, n)
  }

  lemma FunctionComplaints(T: seq<Token>, k: nat, i: nat)
    requires k < |T| && i < 4 && After(T, k, HEADER[..i]) && FunctionNext(T, k - i) && !SameKind(T[k], HEADER[i])
    requires i == 0 ==> T[k] != TkEof
    ensures Complaint(T, -114 - i, k)
  {
    hide OperandComplaint, CallComplaint, StatementComplaint, FunctionNext, After;
    assert HEADER[..1] == [TkInt] && HEADER[..2] == [TkInt, IDENT] && HEADER[..3] == [TkInt, IDENT, TkLParen];
  }

  lemma NameTaken(T: seq<Token>, k: nat, p: Program)
    requires 0 < k < |T| && After(T, k, [TkInt]) && T[k].TkIdent? && Spelled(T, p, k - 1)
    ensures Defined(p, T[k].name) ==> Complaint(T, -72, k)
    ensures |p| >= 6 ==> Complaint(T, -73, k)
  {
    hide OperandComplaint, CallComplaint, StatementComplaint, Spelled;
  }

  /** Not failed so far, with the first tokens of a definition right behind; or failed for a true reason. */
  ghost predicate Begun(s: Hc, front: seq<Token>) {
    Told(s) && (!s.Failed() ==> After(s.tokens, s.current, front) && FunctionNext(s.tokens, s.current - |front|))
  }

  const HEADER: seq<Token> := [TkInt, IDENT, TkLParen, TkRParen]

  /** The i-th token of a header. */
  lemma BegunNext(s: Hc, i: nat)
    requires i < 4 && Begun(s, HEADER[..i]) && (i == 0 && !s.Failed() ==> Peek(s) != TkEof)
    ensures Begun(Expect(s, HEADER[i], -114 - i), HEADER[..i + 1])
  {
    hide WellLexed, Complaint, Told, FunctionNext;
    var kind, error := HEADER[i], -114 - i;
    ToldValid(s);
    if !s.Failed() && !SameKind(Peek(s), kind) { FunctionComplaints(s.tokens, s.current, i); }
    assert HEADER[..i] + [kind] == HEADER[..i + 1];
    if !s.Failed() && SameKind(Peek(s), kind) { AfterMore(s.tokens, s.current, HEADER[..i], kind); }
    ExpectTold(s, kind, error);
  }

  /** The first tokens of a definition. */
  lemma HeaderTold(s: Hc, p: Program)
    requires Between(s, p) && Peek(s) != TkEof
    ensures Told(HeaderRead(s))
  {
    hide WellLexed, Complaint, Spelled, Known, Defined, FunctionNext, Expect, Begun;
    NothingToTell(s);
    NothingBegun(s);
    assert HEADER[..0] == [];
    BegunNext(s, 0);
    var s1 := Expect(s, TkInt, -114);
    BegunNext(s1, 1);
    var s2 := Expect(s1, IDENT, -115);
    BegunNext(s2, 2);
    var s3 := Expect(s2, TkLParen, -116);
    BegunNext(s3, 3);
    BegunTold(Expect(s3, TkRParen, -117), HEADER[..4]);
  }

  lemma BegunTold(s: Hc, front: seq<Token>)
    requires Begun(s, front)
    ensures Told(s)
  {
  }

  lemma NothingBegun(s: Hc)
    requires s.Valid() && !s.Failed() && FunctionNext(s.tokens, s.current)
    ensures Begun(s, [])
  {
    hide WellLexed, Complaint;
  }

  /** The table entry and the body. */
  lemma DefinitionRestTold(s: Hc, p: Program, s4: Hc, n: Name)
    requires Between(s, p) && Did(s, s4, [TkInt, TkIdent(n), TkLParen, TkRParen], [], [])
    ensures Told(BodyRead(s4, s.current + 1))
  {
    hide WellLexed, Complaint, BlockOf, Told, Scope, AddFunction;
    var s5 := AddFunction(s4, s.current + 1, |s4.code|).(locals := []);
    EntryTold(s, p, s4, n);
    if s5.Failed() {
      StillTold(s5, BlockOf(s5).0);
    } else {
      BlockTold(s5, s.current + 2);
    }
  }

  lemma EntryTold(s: Hc, p: Program, s4: Hc, n: Name)
    requires Between(s, p) && Did(s, s4, [TkInt, TkIdent(n), TkLParen, TkRParen], [], [])
    ensures var s5 := AddFunction(s4, s.current + 1, |s4.code|).(locals := []);
            Told(s5) && (!s5.Failed() ==> Scope(s5, s.current + 2) && BlockNext(s5.tokens, s5.current))
  {
    hide WellLexed, Complaint, Known, Defined, SpellProgram, Declared;
    var T, k := s.tokens, s.current + 1;
    var four := T[s.current..s4.current];
    assert T[k - 1] == four[0] && T[k] == four[1] && T[k + 1] == four[2] && T[k + 2] == four[3];
    NameTaken(T, k, p);
    assert T[k + 1..s4.current] == [TkLParen, TkRParen];
    NoneDeclared([TkLParen, TkRParen]);
  }

  /** A definition behind its header, and behind its body. */
  function HeaderRead(s: Hc): (t: Hc)
    requires s.Valid()
    ensures t.Valid() && t.tokens == s.tokens
  {
    hide WellLexed, Expect;
    Expect(Expect(Expect(Expect(s, TkInt, -114), IDENT, -115), TkLParen, -116), TkRParen, -117)
  }

  function BodyRead(s: Hc, name: nat): (t: Hc)
    requires s.Valid() && name < |s.tokens|
    ensures t.Valid()
  {
    hide WellLexed, AddFunction, BlockOf;
    BlockOf(AddFunction(s, name, |s.code|).(locals := [])).0
  }

  lemma FunctionParts(s: Hc)
    requires s.Valid() && !s.Failed()
    ensures var s4 := HeaderRead(s);
            var t := FunctionDefinition(s).0;
            if s4.Failed() then t == s4
            else && s.current + 1 < |s.tokens|
                 && (t == BodyRead(s4, s.current + 1) || t == Put(BodyRead(s4, s.current + 1), EPILOGUE))
  {
    hide WellLexed, SameKind, Expect, Put, AddFunction, BlockOf;
    NameBehind(s, Expect(s, TkInt, -114));
  }

  lemma HeaderPassed(s: Hc)
    requires s.Valid() && !HeaderRead(s).Failed()
    ensures !s.Failed() && exists n :: Did(s, HeaderRead(s), [TkInt, TkIdent(n), TkLParen, TkRParen], [], [])
  {
    hide WellLexed, Expect, Did;
    HeaderCompiles(s);
  }

  lemma FunctionTold(s: Hc, p: Program)
    requires Between(s, p) && Peek(s) != TkEof
    ensures Told(FunctionDefinition(s).0)
  {
    hide WellLexed, Complaint, BodyRead, HeaderRead, Spelled, Told, Put, Known, Defined, FunctionDefinition, Did;
    var s4 := HeaderRead(s);
    HeaderTold(s, p);
    FunctionParts(s);
    if !s4.Failed() {
      HeaderPassed(s);
      var n :| Did(s, s4, [TkInt, TkIdent(n), TkLParen, TkRParen], [], []);
      DefinitionRestTold(s, p, s4, n);
      PutTold(BodyRead(s4, s.current + 1), EPILOGUE);
    }
  }

  lemma NameBehind(s: Hc, s1: Hc)
    requires s.Valid() && !s.Failed() && s1 == Expect(s, TkInt, -114)
    ensures !s1.Failed() ==> s1.current == s.current + 1
  {
    hide WellLexed;
  }

  lemma {:induction false} SpellMore(p: Program, f: Function)
    ensures SpellProgram(p + [f]) == SpellProgram(p) + SpellF(f)
    ensures forall n :: Defined(p + [f], n) <==> Defined(p, n) || n == f.name
    decreases |p|
  {
    hide SpellF;
    if p == [] {
      assert [f][1..] == [] && p + [f] == [f];
      assert SpellProgram([f]) == SpellF(f) + SpellProgram([]);
    } else {
      SpellMore(p[1..], f);
      assert (p + [f])[1..] == p[1..] + [f];
    }
  }

  /** After an accepted definition. */
  lemma FunctionOver(s: Hc, p: Program)
    requires Between(s, p) && !FunctionDefinition(s).0.Failed()
    ensures var (t, f) := FunctionDefinition(s); Between(t, p + [f]) && t.current > s.current
  {
    hide WellLexed, FunctionDefinition, SpellProgram, EmitF, SitesSs, Known, Defined, WellFormedF;
    var (t, f) := FunctionDefinition(s);
    FunctionCompiles(s);
    SpellMore(p, f);
    FunctionEnds(f);
    assert EndsAs(t.tokens, s.current, t.current, SpellF(f));
    assert t.tokens[..t.current] == t.tokens[..s.current] + t.tokens[s.current..t.current];
    assert |EmitF(f, |s.code|, Last(s.code, 0), [])| >= 0;
    forall n ensures Known(t.functions, n) <==> Defined(p + [f], n) {
      KnownAppend(s.functions, Symbol(f.name, |s.code|), n);
    }
  }

  lemma FunctionEnds(f: Function)
    ensures SpellF(f) != [] && SpellF(f)[|SpellF(f)| - 1] == TkRBrace
  {
    hide SpellSs;
  }

  lemma {:induction false} DefinitionsTold(s: Hc, p: Program)
    requires Between(s, p)
    ensures Told(Definitions(s).0)
    decreases s.Left()
  {
    hide WellLexed, Complaint, FunctionDefinition, Told, Known, Defined, Spelled;
    NothingToTell(s);
    if Peek(s) != TkEof {
      FunctionTold(s, p);
      var (s1, f) := FunctionDefinition(s);
      if s1.Failed() {
        FailedStops(s1);
      } else {
        FunctionOver(s, p);
        DefinitionsTold(s1, p + [f]);
      }
    }
  }

  lemma FailedStops(s: Hc)
    requires s.Valid() && s.Failed()
    ensures Definitions(s) == (s, [])
  {
    hide WellLexed;
  }

  lemma ProgramComplaints(T: seq<Token>, k: nat, p: Program)
    requires k < |T| && T[k] == TkEof && Spelled(T, p, k)
    ensures !Defined(p, MAIN) ==> Complaint(T, -119, k)
    ensures !AllKnown(SitesFs(p, ENTRY_SIZE, HALT), Table(p)) ==> Complaint(T, -118, k)
  {
    hide OperandComplaint, CallComplaint, StatementComplaint, Spelled, Table;
  }

  /** Patching fails only for want of a callee. */
  lemma {:induction false} PatchingTold(s: Hc, k: nat)
    requires s.Valid() && !s.Failed() && k <= |s.calls| && L.Within(s.calls, |s.code|)
    requires forall j :: k <= j < |s.calls| && !Known(s.functions, s.calls[j].name) ==>
               Complaint(s.tokens, -118, s.current)
    ensures Told(PatchCalls(s, k))
    decreases |s.calls| - k
  {
    hide WellLexed, Known, Complaint, Patch, Fail;
    NothingToTell(s);
    if k < |s.calls| {
      if !Known(s.functions, s.calls[k].name) {
        FailTold(s, -118, s.current);
      } else {
        PatchKeeps(s, s.calls[k].address, Address(s.functions, s.calls[k].name));
        PatchingTold(Patch(s, s.calls[k].address, Address(s.functions, s.calls[k].name)), k + 1);
      }
    }
  }

  lemma PatchKeeps(s: Hc, operand: nat, value: nat)
    requires s.Valid() && !s.Failed() && operand + 1 < |s.code|
    ensures var t := Patch(s, operand, value); !t.Failed() && t == s.(code := t.code) && |t.code| == |s.code|
  {
    hide WellLexed;
  }

  /** Main result: whatever token list is refused, the error that is reported is true of the token it is reported at and
      of the tokens before it. */
  lemma RefusedProgramsMean(tokens: seq<Token>)
    requires WellLexed(tokens)
    ensures var s := CompileState(tokens).0;
            s.Failed() ==> Complaint(tokens, s.failure.value.error, s.failure.value.token)
  {
    hide WellLexed, Complaint, Definitions, PatchCalls, Known, Defined, Spelled, Table, SitesFs, AllKnown, L.Within;
    var s0 := Opening(tokens);
    NothingBehind(tokens);
    DefinitionsTold(s0, []);
    var (s, p) := Definitions(s0);
    if !s.Failed() {
      ProgramOver(tokens);
      ProgramComplaints(tokens, s.current, p);
      NothingToTell(s);
      if !Known(s.functions, MAIN) {
        FailTold(s, -119, s.current);
      } else {
        PatchingTold(s, 0);
      }
    }
  }

  lemma NothingBehind(tokens: seq<Token>)
    requires WellLexed(tokens)
    ensures Between(Opening(tokens), [])
  {
    assert tokens[..0] == [];
  }

  /** All definitions accepted: what remains to be checked. */
  lemma ProgramOver(tokens: seq<Token>)
    requires WellLexed(tokens) && !Definitions(Opening(tokens)).0.Failed()
    ensures var (s, p) := Definitions(Opening(tokens));
            && s.tokens == tokens && s.current < |tokens| && tokens[s.current] == TkEof && Spelled(tokens, p, s.current)
            && L.Within(s.calls, |s.code|) && (Known(s.functions, MAIN) <==> Defined(p, MAIN))
            && (Known(s.functions, MAIN) ==>
                  forall j :: 0 <= j < |s.calls| && !Known(s.functions, s.calls[j].name) ==>
                    !AllKnown(SitesFs(p, ENTRY_SIZE, HALT), Table(p)))
  {
    hide WellLexed, Definitions, EmitFs, SitesFs, Layout, SpellProgram, Known, Defined;
    var s0 := Opening(tokens);
    var (s, p) := Definitions(s0);
    DefinitionsCompile(s0);
    assert Last(s0.code, 0) == HALT && |s0.code| == ENTRY_SIZE;
    assert tokens[..s.current] == s0.tokens[s0.current..s.current];
    assert s.functions == Table(p);
    L.SitesInFs(p, ENTRY_SIZE, HALT);
    var sites := SitesFs(p, ENTRY_SIZE, HALT);
    assert s.calls == [Symbol(MAIN, 1)] + sites;
    TableKnows(p, ENTRY_SIZE, HALT, MAIN);
    forall j | 0 <= j < |s.calls| && !Known(s.functions, s.calls[j].name) && Known(s.functions, MAIN)
      ensures !AllKnown(sites, Table(p))
    {
      assert j > 0 && sites[j - 1] == s.calls[j];
    }
  }

  lemma {:induction false} TableKnows(p: Program, at: nat, prev: byte, n: Name)
    ensures Known(Layout(p, at, prev), n) <==> Defined(p, n)
    decreases |p|
  {
    hide SizeF;
    if p != [] { TableKnows(p[1..], at + SizeF(p[0], at, prev), RET, n); }
  }
}
