/** Exactly which programs the compiler accepts: statements, functions and whole programs that stand in the
    token stream, fit the tables and declare their names before they use them. */
module Compilable {
  import opened Common
  import opened Hbc
  import opened Source
  import opened Emission
  import opened Parser
  import opened Recognition
  import opened Statements
  import opened Programs
  import opened Completeness

  // ---------- declared before use ----------

  predicate OrderedS(s: Stmt, locals: seq<Name>)
    decreases s, 0
  {
    match s
    case Declare(n) => n !in locals
    case DeclareInit(n, e) => n !in locals && BoundE(e, locals + [n])
    case Assign(n, e) => n in locals && BoundE(e, locals)
    case Return(e) => BoundE(e, locals)
    case PrintExpr(e) => BoundE(e, locals)
    case If(c, t) => BoundE(c, locals) && Ordered(t, locals)
    case IfElse(c, t, e) => BoundE(c, locals) && Ordered(t, locals) && Ordered(e, locals + DeclaredSs(t))
    case While(c, b) => BoundE(c, locals) && Ordered(b, locals)
    case Block(b) => Ordered(b, locals)
    case _ => true
  }

  /** Every name is new when it is declared and declared when it is used; a declaration reaches to the end of
      the function. */
  predicate Ordered(ss: Stmts, locals: seq<Name>)
    decreases ss, 1
  {
    match ss
    case Nil => true
    case Cons(h, t) => OrderedS(h, locals) && Ordered(t, locals + DeclaredS(h))
  }

  // ---------- single statements ----------

  /** A statement, or the rest of one, stands next and fits. */
  predicate Fits(s: Hc, toks: seq<Token>, size: nat, sites: nat, declared: nat) {
    !s.Failed() && Spelled(s.tokens, s.current, toks) && Room(s, size, sites) && |s.locals| + declared <= LOCAL_COUNT
  }

  /** An expression and what closes it. */
  lemma ExprThen(s: Hc, e: Expr, c: Token, error: int)
    requires s.Valid() && !s.Failed() && Spelled(s.tokens, s.current, SpellE(e) + [c]) && Closing(c)
    requires IsExpression(e) && BoundE(e, s.locals) && Room(s, SizeE(e), |SitesE(e, |s.code|)|)
    ensures Expression(s) == (AfterE(s, e), e) && AfterE(s, e).Valid() && !AfterE(s, e).Failed()
    ensures Peek(AfterE(s, e)) == c && Expect(AfterE(s, e), c, error) == Advance(AfterE(s, e))
  {
    hide WellLexed, SpellE, EmitE, SitesE, SizeE, BoundE, IsExpression, Expression, SameKind;
    SpelledSplit(s.tokens, s.current, SpellE(e), [c]);
    SpelledFirst(s.tokens, s.current + |SpellE(e)|, [c]);
    ExpressionIs(s, e);
    AfterValid(s, e);
    Closes(AfterE(s, e), c, error);
  }

  lemma PutFits(s: Hc, bytes: seq<byte>)
    requires s.Valid() && !s.Failed() && |s.code| + |bytes| <= MAX_CODE
    ensures Put(s, bytes) == s.(code := s.code + bytes) && Put(s, bytes).Valid()
  {
    hide WellLexed;
  }

  lemma ReturnSucceeds(s: Hc, e: Expr)
    requires s.Valid() && Fits(s, SpellE(e) + [TkSemi], SizeE(e) + 1, |SitesE(e, |s.code|)|, 0)
    requires IsExpression(e) && BoundE(e, s.locals)
    ensures var (t, st) := ReturnStatement(s); !t.Failed() && st == Return(e)
  {
    hide WellLexed, SpellE, EmitE, SitesE, SizeE, BoundE, IsExpression, Expression, SameKind, Put, Expect;
    ExprThen(s, e, TkSemi, -82);
    PutFits(Advance(AfterE(s, e)), [RET]);
  }

  /** One fixed token. */
  lemma Token1(s: Hc, a: Token, rest: seq<Token>, error: int)
    requires s.Valid() && !s.Failed() && Spelled(s.tokens, s.current, [a] + rest) && a != TkEof && !a.TkIdent?
             && !a.TkNumber? && !a.TkString?
    ensures Peek(s) == a && Expect(s, a, error) == Advance(s) && Spelled(s.tokens, s.current + 1, rest)
  {
    SpelledSplit(s.tokens, s.current, [a], rest);
    SpelledFirst(s.tokens, s.current, [a]);
  }

  lemma PrintSucceeds(s: Hc, e: Expr)
    requires s.Valid() && Fits(s, [TkLParen] + SpellE(e) + [TkRParen, TkSemi], SizeE(e) + 1, |SitesE(e, |s.code|)|, 0)
    requires IsExpression(e) && BoundE(e, s.locals)
    ensures var (t, st) := PrintStatement(s); !t.Failed() && st == PrintExpr(e)
  {
    hide WellLexed, SpellE, EmitE, SitesE, SizeE, BoundE, IsExpression, Expression, SameKind, Put, Expect;
    assert [TkLParen] + SpellE(e) + [TkRParen, TkSemi] == [TkLParen] + ((SpellE(e) + [TkRParen]) + [TkSemi]);
    Token1(s, TkLParen, (SpellE(e) + [TkRParen]) + [TkSemi], -95);
    var s1 := Advance(s);
    SpelledSplit(s.tokens, s1.current, SpellE(e) + [TkRParen], [TkSemi]);
    ExprThen(s1, e, TkRParen, -96);
    var s2 := Advance(AfterE(s1, e));
    SpelledFirst(s.tokens, s2.current, [TkSemi]);
    Closes(s2, TkSemi, -97);
    PutFits(Advance(s2), [PRINT_INT]);
  }

  lemma GpioSucceeds(s: Hc)
    requires s.Valid() && Fits(s, [TkLParen, TkRParen, TkSemi], 1, 0, 0)
    ensures var (t, st) := GpioStatement(s); !t.Failed() && st == ToggleGpio
  {
    hide WellLexed, SameKind, Put, Expect;
    assert [TkLParen, TkRParen, TkSemi] == [TkLParen] + ([TkRParen] + [TkSemi]);
    Token1(s, TkLParen, [TkRParen] + [TkSemi], -103);
    Token1(Advance(s), TkRParen, [TkSemi], -104);
    var s2 := Advance(Advance(s));
    SpelledFirst(s.tokens, s2.current, [TkSemi]);
    Closes(s2, TkSemi, -105);
    PutFits(Advance(s2), [GPIO]);
  }

  lemma NumberHere(s: Hc, v: i32, error: int)
    requires s.Valid() && Peek(s) == TkNumber(v)
    ensures Expect(s, NUMBER, error) == Advance(s) && TokenValue(Peek(s)) == v
  {
  }

  lemma SleepTokens(s: Hc, ms: i32)
    requires s.Valid() && !s.Failed() && Spelled(s.tokens, s.current, [TkLParen, TkNumber(ms), TkRParen, TkSemi])
    ensures var (s1, s2, s3) := (s.current + 1, s.current + 2, s.current + 3);
            && s3 + 1 < |s.tokens| && s.tokens[s.current] == TkLParen && s.tokens[s1] == TkNumber(ms)
            && s.tokens[s2] == TkRParen && s.tokens[s3] == TkSemi
  {
    var toks := s.tokens[s.current..s.current + 4];
    assert toks[0] == s.tokens[s.current] && toks[1] == s.tokens[s.current + 1] && toks[2] == s.tokens[s.current + 2];
    assert toks[3] == s.tokens[s.current + 3];
  }

  lemma SleepSucceeds(s: Hc, ms: i32)
    requires s.Valid() && Fits(s, [TkLParen, TkNumber(ms), TkRParen, TkSemi], 3, 0, 0) && 0 <= ms < 0x1_0000
    ensures var (t, st) := SleepStatement(s); !t.Failed() && st == SleepFor(ms)
  {
    hide WellLexed, Put, HalfBytes, Expect, SameKind, TokenValue, Spelled;
    SleepTokens(s, ms);
    var s1 := Advance(s);
    var s2 := Advance(s1);
    var s3 := Advance(s2);
    Closes(s, TkLParen, -98);
    NumberHere(s1, ms, -99);
    Closes(s2, TkRParen, -101);
    Closes(s3, TkSemi, -102);
    PutFits(Advance(s3), [SLEEP] + HalfBytes(ms));
  }

  /** AddLocal for a new name while there is room. */
  lemma NewLocal(s: Hc, n: Name)
    requires s.Valid() && !s.Failed() && Peek(s) == TkIdent(n) && n !in s.locals && |s.locals| < LOCAL_COUNT
    ensures Expect(s, IDENT, -80) == Advance(s)
    ensures AddLocal(Advance(s), s.current) == Advance(s).(locals := s.locals + [n])
            && AddLocal(Advance(s), s.current).Valid()
    ensures Slot(s.locals, n) == |s.locals|
  {
  }

  lemma DeclareSucceeds(s: Hc, n: Name)
    requires s.Valid() && Fits(s, [TkIdent(n), TkSemi], 7, 0, 1) && n !in s.locals
    ensures var (t, st) := DeclareStatement(s); !t.Failed() && st == Declare(n)
  {
    hide WellLexed, Put, Expect, AddLocal, Slot, Encode, DeclareStatement, Spelled;
    assert [TkIdent(n), TkSemi] == [TkIdent(n)] + [TkSemi];
    SpelledSplit(s.tokens, s.current, [TkIdent(n)], [TkSemi]);
    SpelledFirst(s.tokens, s.current, [TkIdent(n)]);
    SpelledFirst(s.tokens, s.current + 1, [TkSemi]);
    NewLocal(s, n);
    var s2 := Advance(s).(locals := s.locals + [n]);
    var s3 := s2.(code := s2.code + Encode(PushI32(0)));
    PutFits(s2, Encode(PushI32(0)));
    Closes(s3, TkSemi, -81);
    PutFits(Advance(s3), Encode(StoreLocal(|s.locals|)));
    ZeroTurn(s, n, s2);
  }

  lemma ZeroTurn(s: Hc, n: Name, s2: Hc)
    requires s.Valid() && Peek(s) == TkIdent(n) && Slot(s.locals, n) == |s.locals| < LOCAL_COUNT
    requires Expect(s, IDENT, -80) == Advance(s) && AddLocal(Advance(s), s.current) == s2 && s2.Valid()
             && Peek(s2) == TkSemi
    ensures var s3 := Put(s2, Encode(PushI32(0)));
            DeclareStatement(s) == (Put(Expect(s3, TkSemi, -81), Encode(StoreLocal(|s.locals|))), Declare(n))
  {
    hide WellLexed, Put, Expect, AddLocal, Slot, Encode, Expression;
  }

  /** expression ; and the store of its value. */
  lemma StoreThen(s: Hc, e: Expr, slot: nat, error: int)
    requires s.Valid() && !s.Failed() && Spelled(s.tokens, s.current, SpellE(e) + [TkSemi]) && slot < LOCAL_COUNT
    requires IsExpression(e) && BoundE(e, s.locals) && Room(s, SizeE(e) + 2, |SitesE(e, |s.code|)|)
    ensures Expression(s).1 == e && !Put(Expect(Expression(s).0, TkSemi, error), Encode(StoreLocal(slot))).Failed()
  {
    hide WellLexed, Put, Expect, Encode, SpellE, EmitE, SitesE, SizeE, BoundE, IsExpression, Expression;
    ExprThen(s, e, TkSemi, error);
    PutFits(Advance(AfterE(s, e)), Encode(StoreLocal(slot)));
  }

  lemma InitTokens(s: Hc, n: Name, e: seq<Token>)
    requires s.Valid() && !s.Failed() && Spelled(s.tokens, s.current, [TkIdent(n), TkAssign] + e + [TkSemi])
    ensures Peek(s) == TkIdent(n) && Peek(Advance(s)) == TkAssign && Spelled(s.tokens, s.current + 2, e + [TkSemi])
  {
    hide WellLexed;
    assert [TkIdent(n), TkAssign] + e + [TkSemi] == [TkIdent(n)] + ([TkAssign] + (e + [TkSemi]));
    SpelledSplit(s.tokens, s.current, [TkIdent(n)], [TkAssign] + (e + [TkSemi]));
    SpelledSplit(s.tokens, s.current + 1, [TkAssign], e + [TkSemi]);
    SpelledFirst(s.tokens, s.current, [TkIdent(n)]);
    SpelledFirst(s.tokens, s.current + 1, [TkAssign]);
  }

  lemma InitTurn(s: Hc, n: Name, s2: Hc)
    requires s.Valid() && Peek(s) == TkIdent(n) && Slot(s.locals, n) == |s.locals| < LOCAL_COUNT
    requires Expect(s, IDENT, -80) == Advance(s) && AddLocal(Advance(s), s.current) == s2 && s2.Valid()
             && Peek(s2) == TkAssign
    ensures var (t, e) := Expression(Advance(s2));
            DeclareStatement(s) == (Put(Expect(t, TkSemi, -81), Encode(StoreLocal(|s.locals|))), DeclareInit(n, e))
  {
    hide WellLexed, Put, Expect, AddLocal, Slot, Encode, Expression;
  }

  lemma DeclareInitSucceeds(s: Hc, n: Name, e: Expr)
    requires s.Valid() && Fits(s, [TkIdent(n), TkAssign] + SpellE(e) + [TkSemi], SizeE(e) + 2, |SitesE(e, |s.code|)|, 1)
    requires n !in s.locals && IsExpression(e) && BoundE(e, s.locals + [n])
    ensures var (t, st) := DeclareStatement(s); !t.Failed() && st == DeclareInit(n, e)
  {
    hide WellLexed, Put, Expect, AddLocal, Slot, Encode, SpellE, EmitE, SitesE, SizeE, BoundE, IsExpression, Expression,
      DeclareStatement, Spelled;
    InitTokens(s, n, SpellE(e));
    NewLocal(s, n);
    var s2 := Advance(s).(locals := s.locals + [n]);
    InitTurn(s, n, s2);
    StoreThen(Advance(s2), e, |s.locals|, -81);
  }

  lemma AssignSucceeds(s: Hc, token: nat, n: Name, e: Expr)
    requires s.Valid() && token < |s.tokens|
             && Fits(s, [TkAssign] + SpellE(e) + [TkSemi], SizeE(e) + 2, |SitesE(e, |s.code|)|, 0)
    requires n in s.locals && IsExpression(e) && BoundE(e, s.locals)
    ensures var (t, st) := NameStatement(s, token, n); !t.Failed() && st == Assign(n, e)
  {
    hide WellLexed, Put, Expect, Encode, SpellE, EmitE, SitesE, SizeE, BoundE, IsExpression, Expression, Slot;
    assert [TkAssign] + SpellE(e) + [TkSemi] == [TkAssign] + (SpellE(e) + [TkSemi]);
    Token1(s, TkAssign, SpellE(e) + [TkSemi], 0);
    StoreThen(Advance(s), e, Slot(s.locals, n), -107);
  }

  lemma PutCallFits(s: Hc, token: nat)
    requires s.Valid() && token < |s.tokens| && !s.Failed() && Room(s, 3, 1)
    ensures var t := PutCall(s, token); !t.Failed() && t.Valid() && |t.code| == |s.code| + 3
  {
    hide WellLexed;
  }

  lemma ThreeHere(s: Hc, a: Token, b: Token, c: Token)
    requires s.Valid() && Spelled(s.tokens, s.current, [a, b, c])
    ensures s.current + 3 < |s.tokens| && s.tokens[s.current] == a && s.tokens[s.current + 1] == b
            && s.tokens[s.current + 2] == c
  {
    var toks := s.tokens[s.current..s.current + 3];
    assert toks[0] == s.tokens[s.current] && toks[1] == s.tokens[s.current + 1] && toks[2] == s.tokens[s.current + 2];
  }

  lemma CallSucceeds(s: Hc, token: nat, n: Name)
    requires s.Valid() && token < |s.tokens| && Fits(s, [TkLParen, TkRParen, TkSemi], 4, 1, 0)
    ensures var (t, st) := NameStatement(s, token, n); !t.Failed() && st == CallStmt(n)
  {
    hide WellLexed, Expect, PutCall, Put, Spelled;
    ThreeHere(s, TkLParen, TkRParen, TkSemi);
    var s1 := Advance(s);
    var s2 := Advance(s1);
    Closes(s1, TkRParen, -108);
    Closes(s2, TkSemi, -109);
    PutCallFits(Advance(s2), token);
    PutFits(PutCall(Advance(s2), token), [POP]);
  }

  // ---------- text ----------

  /** The first character of a literal, and how much of the source it takes. */
  lemma TextStep(raw: seq<byte>)
    requires raw != [] && Unescape(raw).Some?
    ensures raw[0] == 92 ==> |raw| > 1 && Escape(raw[1]).Some?
    ensures var (one, rest) := if raw[0] != 92 then (raw[0], raw[1..]) else (Escape(raw[1]).value, raw[2..]);
            Unescape(rest).Some? && Text(raw) == [one] + Text(rest)
  {
  }

  lemma DecodeTurn(s: Hc, raw: seq<byte>, token: nat)
    requires s.Valid() && token < |s.tokens| && raw != [] && (raw[0] == 92 ==> |raw| > 1 && Escape(raw[1]).Some?)
    ensures var (one, rest) := if raw[0] != 92 then (raw[0], raw[1..]) else (Escape(raw[1]).value, raw[2..]);
            PutDecoded(s, raw, token) == PutDecoded(Put(s, [one]), rest, token)
  {
    hide WellLexed, Put, Fail, Escape;
  }

  lemma {:induction false} DecodedFits(s: Hc, raw: seq<byte>, token: nat)
    requires s.Valid() && !s.Failed() && token < |s.tokens| && Unescape(raw).Some? && |s.code| + |Text(raw)| <= MAX_CODE
    ensures PutDecoded(s, raw, token) == s.(code := s.code + Text(raw))
    decreases |raw|
  {
    if raw == [] {
      assert s.code + [] == s.code;
    } else {
      hide WellLexed, Put, Fail, PutDecoded, Unescape, Text, Escape;
      TextStep(raw);
      DecodeTurn(s, raw, token);
      var (one, rest) := if raw[0] != 92 then (raw[0], raw[1..]) else (Escape(raw[1]).value, raw[2..]);
      PutFits(s, [one]);
      DecodedFits(s.(code := s.code + [one]), rest, token);
      assert (s.code + [one]) + Text(rest) == s.code + ([one] + Text(rest));
    }
  }

  lemma StringFits(s: Hc, token: nat)
    requires s.Valid() && !s.Failed() && token < |s.tokens|
    requires var raw := TokenRaw(s.tokens[token]); Unescape(raw).Some? && |s.code| + 2 + |Text(raw)| <= MAX_CODE
    ensures !PutString(s, token).Failed()
  {
    hide WellLexed, Put, Fail, PutDecoded, Unescape, Text;
    PutFits(s, [WRITE, 0]);
    DecodedFits(s.(code := s.code + [WRITE, 0]), TokenRaw(s.tokens[token]), token);
  }

  lemma SpelledAt(tokens: seq<Token>, at: nat, toks: seq<Token>, k: nat)
    requires Spelled(tokens, at, toks) && k < |toks|
    ensures at + k < |tokens| && tokens[at + k] == toks[k]
  {
    assert tokens[at..at + |toks|][k] == tokens[at + k];
  }

  lemma WriteSpelling(raw: seq<byte>, length: Option<i32>)
    ensures SpellS(WriteString(raw, length))[1..] ==
              [TkLParen, TkNumber(1), TkComma, TkString(raw)] +
              (if length.Some? then [TkComma, TkNumber(length.value)] else []) + [TkRParen, TkSemi]
  {
  }

  lemma OpenTokens(tokens: seq<Token>, at: nat, raw: seq<byte>)
    requires Spelled(tokens, at, [TkLParen, TkNumber(1), TkComma, TkString(raw)])
    ensures at + 4 < |tokens| && tokens[at] == TkLParen && tokens[at + 1] == TkNumber(1) && tokens[at + 2] == TkComma
    ensures tokens[at + 3] == TkString(raw)
  {
    var toks := [TkLParen, TkNumber(1), TkComma, TkString(raw)];
    SpelledAt(tokens, at, toks, 0);
    SpelledAt(tokens, at, toks, 1);
    SpelledAt(tokens, at, toks, 2);
    SpelledAt(tokens, at, toks, 3);
  }

  lemma TwoTokens(tokens: seq<Token>, at: nat, a: Token, b: Token)
    requires Spelled(tokens, at, [a, b])
    ensures at + 2 < |tokens| && tokens[at] == a && tokens[at + 1] == b
  {
    SpelledAt(tokens, at, [a, b], 0);
    SpelledAt(tokens, at, [a, b], 1);
  }

  lemma WriteTokens(s: Hc, raw: seq<byte>, length: Option<i32>)
    requires s.Valid() && Spelled(s.tokens, s.current, SpellS(WriteString(raw, length))[1..])
    ensures var (at, ts) := (s.current, s.tokens); var end := if length.Some? then at + 6 else at + 4;
            && end + 2 < |ts| && ts[at] == TkLParen && ts[at + 1] == TkNumber(1) && ts[at + 2] == TkComma
            && ts[at + 3] == TkString(raw)
            && (length.Some? ==> ts[at + 4] == TkComma && ts[at + 5] == TkNumber(length.value))
            && ts[end] == TkRParen && ts[end + 1] == TkSemi
  {
    hide WellLexed, SpellS, Spelled;
    WriteSpelling(raw, length);
    var open := [TkLParen, TkNumber(1), TkComma, TkString(raw)];
    var given := if length.Some? then [TkComma, TkNumber(length.value)] else [];
    SpelledSplit(s.tokens, s.current, open + given, [TkRParen, TkSemi]);
    SpelledSplit(s.tokens, s.current, open, given);
    OpenTokens(s.tokens, s.current, raw);
    if length.Some? { TwoTokens(s.tokens, s.current + 4, TkComma, TkNumber(length.value)); }
    TwoTokens(s.tokens, s.current + |open + given|, TkRParen, TkSemi);
  }

  lemma WriteOpens(s: Hc)
    requires s.Valid() && s.current + 3 < |s.tokens|
    requires Peek(s) == TkLParen && s.tokens[s.current + 1] == TkNumber(1) && s.tokens[s.current + 2] == TkComma
    ensures WriteOpening(s) == Advance(Advance(Advance(s)))
  {
    hide WellLexed, Expect, TokenValue;
    Closes(s, TkLParen, -87);
    NumberHere(Advance(s), 1, -88);
    Closes(Advance(Advance(s)), TkComma, -90);
  }

  /** Where the pieces of a write statement leave the cursor. */
  lemma WriteReads(s: Hc, raw: seq<byte>, length: Option<i32>)
    requires s.Valid() && !s.Failed() && Spelled(s.tokens, s.current, SpellS(WriteString(raw, length))[1..])
    ensures var (s4, s5) := (s.(current := s.current + 3), s.(current := s.current + if length.Some? then 6 else 4));
            && s4.Valid() && s5.Valid() && WriteOpening(s) == s4 && Peek(s4) == TkString(raw)
            && Expect(s4, STRING, -91) == Advance(s4) && WriteLength(Advance(s4)) == (s5, length)
            && Peek(s5) == TkRParen && Peek(Advance(s5)) == TkSemi
  {
    hide WellLexed, Expect, WriteOpening, WriteLength, Spelled, SpellS;
    WriteTokens(s, raw, length);
    WriteOpens(s);
    var s4 := s.(current := s.current + 3);
    StringHere(s4, raw);
    LengthHere(Advance(s4), length, s.(current := s.current + if length.Some? then 6 else 4));
  }

  lemma WriteSucceeds(s: Hc, raw: seq<byte>, length: Option<i32>)
    requires s.Valid() && Fits(s, SpellS(WriteString(raw, length))[1..], 2 + |Text(raw)|, 0, 0) && Unescape(raw).Some?
    ensures var (t, st) := WriteStatement(s); !t.Failed() && st == WriteString(raw, length)
  {
    hide WellLexed, Expect, PutString, WriteOpening, WriteLength, WriteStatement, Spelled, SpellS, Unescape, Text;
    WriteReads(s, raw, length);
    var s5 := s.(current := s.current + if length.Some? then 6 else 4);
    Closes(s5, TkRParen, -93);
    Closes(Advance(s5), TkSemi, -94);
    StringFits(Advance(Advance(s5)), s.current + 3);
    WriteTurn(s, s.(current := s.current + 3), s5, raw, length);
  }

  lemma WriteTurn(s: Hc, s4: Hc, s5: Hc, raw: seq<byte>, length: Option<i32>)
    requires s.Valid() && s4.Valid() && s5.Valid() && WriteOpening(s) == s4 && Peek(s4) == TkString(raw)
    requires Expect(s4, STRING, -91) == Advance(s4) && WriteLength(Advance(s4)) == (s5, length)
    ensures var t := Expect(Expect(s5, TkRParen, -93), TkSemi, -94);
            WriteStatement(s) == (PutString(t, s4.current), WriteString(raw, length))
  {
    hide WellLexed, Expect, PutString, WriteOpening, WriteLength;
  }

  lemma LengthHere(s: Hc, length: Option<i32>, t: Hc)
    requires s.Valid() && t == s.(current := s.current + if length.Some? then 2 else 0) && t.Valid()
    requires if length.Some? then Peek(s) == TkComma && s.tokens[s.current + 1] == TkNumber(length.value)
             else Peek(s) == TkRParen
    ensures WriteLength(s) == (t, length)
  {
    hide WellLexed, Expect;
    if length.Some? { NumberHere(Advance(s), length.value, -92); }
  }

  lemma StringHere(s: Hc, raw: seq<byte>)
    requires s.Valid() && Peek(s) == TkString(raw)
    ensures Expect(s, STRING, -91) == Advance(s) && TokenRaw(Peek(s)) == raw
  {
  }

  // ---------- blocks ----------

  /** A list in braces stands next and fits. */
  predicate FitsBlock(s: Hc, b: Stmts, names: seq<Name>) {
    && Fits(s, SpellBlock(b), SizeSs(b), |SitesSs(b, |s.code|)|, |DeclaredSs(b)|)
    && Ordered(b, s.locals) && WellFormedSs(b, names)
  }

  /** What an accepted block has done, in sizes. */
  ghost predicate Passed(s: Hc, t: Hc, toks: seq<Token>, size: nat, sites: nat, declared: seq<Name>) {
    && t.Valid() && !t.Failed() && t.tokens == s.tokens && t.current == s.current + |toks|
    && |t.code| == |s.code| + size
    && |t.calls| == |s.calls| + sites && t.locals == s.locals + declared && t.functions == s.functions
  }

  lemma BlockPassed(s: Hc, b: Stmts)
    requires s.Valid() && !BlockOf(s).0.Failed() && BlockOf(s).1 == b
    ensures Passed(s, BlockOf(s).0, SpellBlock(b), SizeSs(b), |SitesSs(b, |s.code|)|, DeclaredSs(b))
  {
    hide WellLexed, BlockOf, SpellBlock, EmitSs, SitesSs, SizeSs, DeclaredSs, WellFormedSs;
    BlockCompiles(s, BlockOf(s).0.locals);
  }

  lemma StatementPassed(s: Hc, st: Stmt)
    requires s.Valid() && !Statement(s).0.Failed() && Statement(s).1 == st
    ensures Passed(s, Statement(s).0, SpellS(st), SizeS(st), |SitesS(st, |s.code|)|, DeclaredS(st))
  {
    hide WellLexed, Statement, SpellS, EmitS, SitesS, SizeS, DeclaredS, WellFormedS;
    StatementCompiles(s, Statement(s).0.locals);
  }

  lemma GuardTokens(s: Hc, c: seq<Token>, rest: seq<Token>, error: int)
    requires s.Valid() && !s.Failed() && Spelled(s.tokens, s.current, [TkLParen] + c + [TkRParen] + rest)
    ensures Peek(s) == TkLParen && Expect(s, TkLParen, error) == Advance(s)
            && Spelled(s.tokens, s.current + 1, c + [TkRParen])
    ensures Spelled(s.tokens, s.current + |[TkLParen] + c + [TkRParen]|, rest)
  {
    hide WellLexed, SameKind, Expect;
    assert [TkLParen] + c + [TkRParen] + rest == [TkLParen] + ((c + [TkRParen]) + rest);
    Token1(s, TkLParen, (c + [TkRParen]) + rest, error);
    SpelledSplit(s.tokens, s.current + 1, c + [TkRParen], rest);
  }

  /** ( condition ) and the jump over what it guards. */
  lemma GuardSucceeds(s: Hc, c: Expr, rest: seq<Token>, error1: int, error2: int) returns (g: Hc)
    requires s.Valid() && !s.Failed() && Spelled(s.tokens, s.current, [TkLParen] + SpellE(c) + [TkRParen] + rest)
    requires IsExpression(c) && BoundE(c, s.locals) && Room(s, SizeE(c) + 3, |SitesE(c, |s.code|)|)
    ensures var (s1, e) := Expression(Expect(s, TkLParen, error1)); var s2 := Expect(s1, TkRParen, error2);
            && e == c && g == PutJump(s2, JZ) && HoleAt(s2) == |s.code| + SizeE(c) + 1
    ensures Passed(s, g, [TkLParen] + SpellE(c) + [TkRParen], SizeE(c) + 3, |SitesE(c, |s.code|)|, [])
            && Spelled(s.tokens, g.current, rest)
  {
    hide WellLexed, SpellE, EmitE, SitesE, SizeE, BoundE, IsExpression, Expression, SameKind, Put, Expect, Spelled;
    GuardTokens(s, SpellE(c), rest, error1);
    var s0 := Advance(s);
    ExprThen(s0, c, TkRParen, error2);
    var s2 := Advance(AfterE(s0, c));
    PutFits(s2, [JZ, 0, 0]);
    g := PutJump(s2, JZ);
    assert s.locals + [] == s.locals;
  }

  lemma PatchFits(s: Hc, operand: nat, value: nat)
    requires s.Valid() && !s.Failed() && operand + 1 < |s.code|
    ensures var t := Patch(s, operand, value);
            t.Valid() && !t.Failed() && t == s.(code := t.code) && |t.code| == |s.code|
  {
    hide WellLexed;
  }

  lemma {:induction false} IfSucceeds(s: Hc, c: Expr, b: Stmts, names: seq<Name>)
    requires s.Valid() && Fits(s, [TkLParen] + SpellE(c) + [TkRParen] + SpellBlock(b), SizeS(If(c, b)),
                               |SitesS(If(c, b), |s.code|)|, |DeclaredSs(b)|)
    requires OrderedS(If(c, b), s.locals) && WellFormedS(If(c, b), names)
    requires s.tokens[s.current + |[TkLParen] + SpellE(c) + [TkRParen] + SpellBlock(b)|] != TkElse
    ensures var (t, st) := IfStatement(s); !t.Failed() && st == If(c, b)
    decreases b, 3
  {
    hide WellLexed, SpellE, EmitE, SitesE, SizeE, BoundE, IsExpression, Expression, Put, Expect, Patch, PutJump, HoleAt,
      SpellBlock, SizeSs, SitesSs, DeclaredSs, WellFormedSs, Ordered, Spelled, BlockOf;
    var g := GuardSucceeds(s, c, SpellBlock(b), -83, -84);
    BlockSucceeds(g, b, names);
    BlockPassed(g, b);
    var s3 := BlockOf(g).0;
    PatchFits(s3, |s.code| + SizeE(c) + 1, |s3.code|);
  }

  lemma {:induction false} WhileSucceeds(s: Hc, c: Expr, b: Stmts, names: seq<Name>)
    requires s.Valid() && Fits(s, [TkLParen] + SpellE(c) + [TkRParen] + SpellBlock(b), SizeS(While(c, b)),
                               |SitesS(While(c, b), |s.code|)|, |DeclaredSs(b)|)
    requires OrderedS(While(c, b), s.locals) && WellFormedS(While(c, b), names)
    ensures var (t, st) := WhileStatement(s, |s.code|); !t.Failed() && st == While(c, b)
    decreases b, 3
  {
    hide WellLexed, SpellE, EmitE, SitesE, SizeE, BoundE, IsExpression, Expression, Put, Expect, Patch, PutJump, HoleAt,
      SpellBlock, SizeSs, SitesSs, DeclaredSs, WellFormedSs, Ordered, Spelled, BlockOf, HalfBytes;
    var g := GuardSucceeds(s, c, SpellBlock(b), -85, -86);
    BlockSucceeds(g, b, names);
    BlockPassed(g, b);
    var s3 := BlockOf(g).0;
    PutFits(s3, [JMP] + HalfBytes(|s.code|));
    var s4 := Put(s3, [JMP] + HalfBytes(|s.code|));
    PatchFits(s4, |s.code| + SizeE(c) + 1, |s4.code|);
  }

  lemma {:induction false} BlockSucceeds(s: Hc, b: Stmts, names: seq<Name>)
    requires s.Valid() && FitsBlock(s, b, names)
    ensures !BlockOf(s).0.Failed() && BlockOf(s).1 == b
    decreases b, 2
  {
    hide WellLexed, SpellSs, SizeSs, SitesSs, DeclaredSs, WellFormedSs, Ordered, Expect, StatementList;
    assert SpellBlock(b) == [TkLBrace] + (SpellSs(b) + [TkRBrace]);
    Token1(s, TkLBrace, SpellSs(b) + [TkRBrace], -112);
    ListSucceeds(Advance(s), b, names, -113);
  }

  /** A list and its closing brace. */
  lemma {:induction false} ListSucceeds(s: Hc, ss: Stmts, names: seq<Name>, error: int)
    requires s.Valid() && Fits(s, SpellSs(ss) + [TkRBrace], SizeSs(ss), |SitesSs(ss, |s.code|)|, |DeclaredSs(ss)|)
    requires Ordered(ss, s.locals) && WellFormedSs(ss, names)
    ensures !Expect(StatementList(s).0, TkRBrace, error).Failed() && StatementList(s).1 == ss
    decreases ss, 1
  {
    hide WellLexed, SizeS, SitesS, DeclaredS, WellFormedS, OrderedS, Statement, SpellS, SpellSs, Spelled, StatementList,
      Expect;
    match ss {
      case Nil => ListStops(s, error);
      case Cons(h, t) =>
        ListTokens(s.tokens, s.current, h, t);
        StatementSucceeds(s, h, names);
        StatementPassed(s, h);
        ListTurn(s, h);
        ListSucceeds(Statement(s).0, t, names, error);
    }
  }

  lemma ListTokens(tokens: seq<Token>, at: nat, h: Stmt, t: Stmts)
    requires Spelled(tokens, at, SpellSs(Cons(h, t)) + [TkRBrace])
    ensures Spelled(tokens, at, SpellS(h)) && Spelled(tokens, at + |SpellS(h)|, SpellSs(t) + [TkRBrace])
    ensures tokens[at] != TkRBrace && tokens[at] != TkEof && tokens[at + |SpellS(h)|] != TkElse
  {
    hide SpellS;
    assert SpellSs(Cons(h, t)) + [TkRBrace] == SpellS(h) + (SpellSs(t) + [TkRBrace]);
    SpelledSplit(tokens, at, SpellS(h), SpellSs(t) + [TkRBrace]);
    SpelledFirst(tokens, at, SpellS(h));
    SpelledFirst(tokens, at + |SpellS(h)|, SpellSs(t) + [TkRBrace]);
    FirstIs(h);
    NextIs(t);
  }

  lemma ListTurn(s: Hc, h: Stmt)
    requires s.Valid() && !s.Failed() && Peek(s) != TkRBrace && Peek(s) != TkEof && Statement(s).1 == h
    ensures var (t, rest) := StatementList(Statement(s).0); StatementList(s) == (t, Cons(h, rest))
  {
    hide WellLexed, Statement;
  }

  lemma ListStops(s: Hc, error: int)
    requires s.Valid() && !s.Failed() && Spelled(s.tokens, s.current, SpellSs(Nil) + [TkRBrace])
    ensures StatementList(s) == (s, Nil) && Expect(s, TkRBrace, error) == Advance(s)
  {
    SpelledFirst(s.tokens, s.current, [TkRBrace]);
  }

  lemma FirstIs(st: Stmt)
    ensures var f := SpellS(st)[0]; f != TkRBrace && f != TkEof && f != TkElse
  {
  }

  lemma NextIs(ss: Stmts)
    ensures var toks := SpellSs(ss) + [TkRBrace]; toks[0] != TkElse
  {
    if ss.Cons? { FirstIs(ss.head); }
  }

  lemma {:induction false} IfElseSucceeds(s: Hc, c: Expr, b: Stmts, e: Stmts, names: seq<Name>)
    requires var st := IfElse(c, b, e);
             s.Valid() && Fits(s, SpellS(st)[1..], SizeS(st), |SitesS(st, |s.code|)|, |DeclaredS(st)|)
             && OrderedS(st, s.locals) && WellFormedS(st, names)
    ensures var (t, st) := IfStatement(s); !t.Failed() && st == IfElse(c, b, e)
    decreases IfElse(c, b, e), -1
  {
    hide WellLexed, SpellE, EmitE, SitesE, SizeE, BoundE, IsExpression, Expression, Put, Expect, Patch, PutJump, HoleAt,
      SpellBlock, SizeSs, SitesSs, DeclaredSs, WellFormedSs, Ordered, Spelled, BlockOf, IfStatement, ElseBranch;
    var after := [TkElse] + SpellBlock(e);
    assert SpellS(IfElse(c, b, e))[1..] == [TkLParen] + SpellE(c) + [TkRParen] + (SpellBlock(b) + after);
    var g := GuardSucceeds(s, c, SpellBlock(b) + after, -83, -84);
    SpelledSplit(s.tokens, g.current, SpellBlock(b), after);
    BlockSucceeds(g, b, names);
    BlockPassed(g, b);
    var s3 := BlockOf(g).0;
    var hole := |s.code| + SizeE(c) + 1;
    ElseSucceeds(s3, hole, e, names);
    IfElseTurn(s, c, b, g, s3, hole);
  }

  lemma IfElseTurn(s: Hc, c: Expr, b: Stmts, g: Hc, s3: Hc, hole: nat)
    requires s.Valid() && g.Valid() && s3.Valid()
    requires var (s1, x) := Expression(Expect(s, TkLParen, -83)); var s2 := Expect(s1, TkRParen, -84);
             x == c && g == PutJump(s2, JZ) && HoleAt(s2) == hole
    requires BlockOf(g) == (s3, b) && Peek(s3) == TkElse
    ensures var (t, e) := ElseBranch(Advance(s3), hole); IfStatement(s) == (t, IfElse(c, b, e))
  {
    hide WellLexed, Expression, Put, Expect, Patch, PutJump, HoleAt, BlockOf, ElseBranch;
  }

  /** From `else` to the end. */
  lemma {:induction false} ElseSucceeds(s3: Hc, hole: nat, e: Stmts, names: seq<Name>)
    requires s3.Valid()
             && Fits(s3, [TkElse] + SpellBlock(e), 3 + SizeSs(e), |SitesSs(e, |s3.code| + 3)|, |DeclaredSs(e)|)
    requires Ordered(e, s3.locals) && WellFormedSs(e, names) && hole + 1 < |s3.code|
    ensures Peek(s3) == TkElse && !ElseBranch(Advance(s3), hole).0.Failed() && ElseBranch(Advance(s3), hole).1 == e
    decreases e, 3
  {
    hide WellLexed, Put, Expect, Patch, SpellBlock, SizeSs, SitesSs, DeclaredSs, WellFormedSs, Ordered, Spelled,
      BlockOf;
    Token1(s3, TkElse, SpellBlock(e), 0);
    var s4 := Advance(s3);
    PutFits(s4, [JMP, 0, 0]);
    var s5 := PutJump(s4, JMP);
    PatchFits(s5, hole, |s5.code|);
    var u := Patch(s5, hole, |s5.code|);
    BlockSucceeds(u, e, names);
    BlockPassed(u, e);
    PatchFits(BlockOf(u).0, HoleAt(s4), |BlockOf(u).0.code|);
  }

  lemma {:induction false} BracesSucceed(s: Hc, b: Stmts, names: seq<Name>)
    requires s.Valid() && FitsBlock(s, b, names)
    ensures Peek(s) == TkLBrace && !Expect(StatementList(Advance(s)).0, TkRBrace, -106).Failed()
            && StatementList(Advance(s)).1 == b
    decreases b, 2
  {
    hide WellLexed, SpellSs, SizeSs, SitesSs, DeclaredSs, WellFormedSs, Ordered, Expect, StatementList;
    assert SpellBlock(b) == [TkLBrace] + (SpellSs(b) + [TkRBrace]);
    Token1(s, TkLBrace, SpellSs(b) + [TkRBrace], -112);
    ListSucceeds(Advance(s), b, names, -106);
  }

  /** A statement's first token, and the rest of it. */
  lemma Begins(s: Hc, st: Stmt)
    requires s.Valid() && Spelled(s.tokens, s.current, SpellS(st))
    ensures Peek(s) == SpellS(st)[0] && Peek(s) != TkEof && Spelled(s.tokens, s.current + 1, SpellS(st)[1..])
  {
    hide SpellS;
    FirstIs(st);
    SpelledFirst(s.tokens, s.current, SpellS(st));
    assert SpellS(st) == [SpellS(st)[0]] + SpellS(st)[1..];
    SpelledSplit(s.tokens, s.current, [SpellS(st)[0]], SpellS(st)[1..]);
  }

  /** Statements around one expression. */
  lemma ValueSucceeds(s: Hc, st: Stmt, names: seq<Name>)
    requires s.Valid() && Fits(s, SpellS(st), SizeS(st), |SitesS(st, |s.code|)|, |DeclaredS(st)|)
    requires OrderedS(st, s.locals) && WellFormedS(st, names)
    requires st.DeclareInit? || st.Assign? || st.Return? || st.PrintExpr?
    ensures !Statement(s).0.Failed() && Statement(s).1 == st
  {
    hide WellLexed, SpellE, SitesE, SizeE, BoundE, IsExpression, SpellBlock, SizeSs, SitesSs, DeclaredSs, WellFormedSs,
      Ordered, Spelled, Unescape, Text, ReturnStatement, PrintStatement, GpioStatement, DeclareStatement, IfStatement,
      WhileStatement, WriteStatement, SleepStatement, NameStatement, StatementList, Expect;
    Begins(s, st);
    var s1 := Advance(s);
    var rest := SpellS(st)[1..];
    match st {
      case DeclareInit(n, e) =>
        assert rest == [TkIdent(n), TkAssign] + SpellE(e) + [TkSemi]; DeclareInitSucceeds(s1, n, e);
      case Assign(n, e) => assert rest == [TkAssign] + SpellE(e) + [TkSemi]; AssignSucceeds(s1, s.current, n, e);
      case Return(e) => assert rest == SpellE(e) + [TkSemi]; ReturnSucceeds(s1, e);
      case PrintExpr(e) => assert rest == [TkLParen] + SpellE(e) + [TkRParen, TkSemi]; PrintSucceeds(s1, e);
    }
  }

  /** Statements without expressions. */
  lemma PlainSucceeds(s: Hc, st: Stmt, names: seq<Name>)
    requires s.Valid() && Fits(s, SpellS(st), SizeS(st), |SitesS(st, |s.code|)|, |DeclaredS(st)|)
    requires OrderedS(st, s.locals) && WellFormedS(st, names)
    requires st.Declare? || st.WriteString? || st.SleepFor? || st.ToggleGpio? || st.CallStmt?
    ensures !Statement(s).0.Failed() && Statement(s).1 == st
  {
    hide WellLexed, SpellE, SitesE, SizeE, BoundE, IsExpression, SpellBlock, SizeSs, SitesSs, DeclaredSs, WellFormedSs,
      Ordered, Spelled, Unescape, Text, ReturnStatement, PrintStatement, GpioStatement, DeclareStatement, IfStatement,
      WhileStatement, WriteStatement, SleepStatement, NameStatement, StatementList, Expect;
    Begins(s, st);
    var s1 := Advance(s);
    var rest := SpellS(st)[1..];
    match st {
      case Declare(n) => assert rest == [TkIdent(n), TkSemi]; DeclareSucceeds(s1, n);
      case WriteString(raw, length) => WriteSucceeds(s1, raw, length);
      case SleepFor(ms) => assert rest == [TkLParen, TkNumber(ms), TkRParen, TkSemi]; SleepSucceeds(s1, ms);
      case ToggleGpio => assert rest == [TkLParen, TkRParen, TkSemi]; GpioSucceeds(s1);
      case CallStmt(n) => assert rest == [TkLParen, TkRParen, TkSemi]; CallSucceeds(s1, s.current, n);
    }
  }

  /** A statement that stands next and fits is parsed as itself. */
  lemma {:induction false} StatementSucceeds(s: Hc, st: Stmt, names: seq<Name>)
    requires s.Valid() && Fits(s, SpellS(st), SizeS(st), |SitesS(st, |s.code|)|, |DeclaredS(st)|)
    requires OrderedS(st, s.locals) && WellFormedS(st, names)
    requires s.tokens[s.current + |SpellS(st)|] != TkElse
    ensures !Statement(s).0.Failed() && Statement(s).1 == st
    decreases st, 0
  {
    if st.DeclareInit? || st.Assign? || st.Return? || st.PrintExpr? {
      hide *;
      ValueSucceeds(s, st, names);
    } else if st.Declare? || st.WriteString? || st.SleepFor? || st.ToggleGpio? || st.CallStmt? {
      hide *;
      PlainSucceeds(s, st, names);
    } else {
    hide WellLexed, SpellE, SitesE, SizeE, BoundE, IsExpression, SpellBlock, SizeSs, SitesSs, DeclaredSs, WellFormedSs,
      Ordered, Spelled, Unescape, Text, ReturnStatement, PrintStatement, GpioStatement, DeclareStatement, IfStatement,
      WhileStatement, WriteStatement, SleepStatement, NameStatement, StatementList, Expect;
      Begins(s, st);
      var s1 := Advance(s);
      var rest := SpellS(st)[1..];
      match st {
        case If(c, t) =>
          assert rest == [TkLParen] + SpellE(c) + [TkRParen] + SpellBlock(t); IfSucceeds(s1, c, t, names);
        case IfElse(c, t, e) => IfElseSucceeds(s1, c, t, e, names);
        case While(c, b) =>
          assert rest == [TkLParen] + SpellE(c) + [TkRParen] + SpellBlock(b); WhileSucceeds(s1, c, b, names);
        case Block(b) => BracesSucceed(s, b, names);
      }
    }
  }
}
