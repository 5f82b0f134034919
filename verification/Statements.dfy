/** Recognition of whole statements, functions and programs. */
module Statements {
  import opened Common
  import opened Hbc
  import opened Source
  import opened Emission
  import opened Parser
  import opened Recognition

  // ---------- statements without blocks ----------

  lemma ReturnCompiles(s: Hc, names: seq<Name>)
    requires s.Valid() && s.locals <= names
    requires !Put(Expect(Expression(s).0, TkSemi, -82), [RET]).Failed()
    ensures var (s1, e) := Expression(s); CompiledRest(s, Put(Expect(s1, TkSemi, -82), [RET]), Return(e), names)
  {
    hide Did, Expression, Expect, Put, Encode, EmitE, SitesE, SpellE, CompiledRest, WellLexed;
    var (s1, e) := Expression(s);
    var s2 := Expect(s1, TkSemi, -82);
    var code, sites := EmitE(e, names, []), SitesE(e, |s.code|);
    ExpressionCompiles(s, names);
    DidExpect(s1, TkSemi, -82);
    DidPut(s2, [RET]);
    ThenTokens(s, s1, s2, SpellE(e), code, sites, [TkSemi]);
    ThenBytes(s, s2, Put(s2, [RET]), SpellE(e) + [TkSemi], code, sites, [RET]);
    AsReturn(s, Put(s2, [RET]), e, names);
  }

  lemma PrintCompiles(s: Hc, names: seq<Name>)
    requires s.Valid() && s.locals <= names
    requires !Put(Expect(Expect(Expression(Expect(s, TkLParen, -95)).0, TkRParen, -96), TkSemi, -97),
                  [PRINT_INT]).Failed()
    ensures var (s1, e) := Expression(Expect(s, TkLParen, -95));
            CompiledRest(s, Put(Expect(Expect(s1, TkRParen, -96), TkSemi, -97), [PRINT_INT]), PrintExpr(e), names)
  {
    hide Did, Expression, Expect, Put, Encode, EmitE, SitesE, SpellE, WellFormedE, CompiledRest;
    var (s1, e) := Expression(Expect(s, TkLParen, -95));
    var s2 := Expect(s1, TkRParen, -96);
    var s3 := Expect(s2, TkSemi, -97);
    var toks, code, sites := [TkLParen] + SpellE(e) + [TkRParen], EmitE(e, names, []), SitesE(e, |s.code|);
    ConditionCompiles(s, -95, -96, names);
    DidExpect(s2, TkSemi, -97);
    DidPut(s3, [PRINT_INT]);
    ThenTokens(s, s2, s3, toks, code, sites, [TkSemi]);
    ThenBytes(s, s3, Put(s3, [PRINT_INT]), toks + [TkSemi], code, sites, [PRINT_INT]);
    AsPrint(s, Put(s3, [PRINT_INT]), e, names);
  }

  lemma ThreeTokens(s: Hc, a: Token, e1: int, b: Token, e2: int, c: Token, e3: int)
    requires s.Valid() && a != TkEof && b != TkEof && c != TkEof
    requires !a.TkIdent? && !a.TkNumber? && !a.TkString? && !b.TkIdent? && !b.TkNumber? && !b.TkString?
    requires !c.TkIdent? && !c.TkNumber? && !c.TkString?
    requires !Expect(Expect(Expect(s, a, e1), b, e2), c, e3).Failed()
    ensures Did(s, Expect(Expect(Expect(s, a, e1), b, e2), c, e3), [a, b, c], [], [])
  {
    hide Did, Expect;
    var s1 := Expect(s, a, e1);
    var s2 := Expect(s1, b, e2);
    var s3 := Expect(s2, c, e3);
    DidExpect(s, a, e1);
    DidExpect(s1, b, e2);
    DidExpect(s2, c, e3);
    ThenTokens(s, s1, s2, [a], [], [], [b]);
    ThenTokens(s, s2, s3, [a] + [b], [], [], [c]);
    assert [a] + [b] + [c] == [a, b, c];
  }

  lemma GpioCompiles(s: Hc, names: seq<Name>)
    requires s.Valid()
    requires !Put(Expect(Expect(Expect(s, TkLParen, -103), TkRParen, -104), TkSemi, -105), [GPIO]).Failed()
    ensures CompiledRest(s, Put(Expect(Expect(Expect(s, TkLParen, -103), TkRParen, -104), TkSemi, -105), [GPIO]),
                         ToggleGpio, names)
  {
    hide Did, Expect, Put, Encode, CompiledRest;
    var s3 := Expect(Expect(Expect(s, TkLParen, -103), TkRParen, -104), TkSemi, -105);
    ThreeTokens(s, TkLParen, -103, TkRParen, -104, TkSemi, -105);
    DidPut(s3, [GPIO]);
    ThenBytes(s, s3, Put(s3, [GPIO]), [TkLParen, TkRParen, TkSemi], [], [], [GPIO]);
    assert [] + [GPIO] == [GPIO];
    AsGpio(s, Put(s3, [GPIO]), names);
  }

  lemma SleepCompiles(s: Hc, names: seq<Name>)
    requires s.Valid() && !SleepStatement(s).0.Failed()
    ensures var (t, st) := SleepStatement(s); CompiledRest(s, t, st, names) && st.SleepFor?
  {
    hide Did, Expect, Put, Encode, HalfBytes, CompiledRest;
    var s1 := Expect(s, TkLParen, -98);
    var s2 := Expect(s1, NUMBER, -99);
    var ms := TokenValue(Peek(s1));
    var s3 := Expect(s2, TkRParen, -101);
    var s4 := Expect(s3, TkSemi, -102);
    DidExpect(s, TkLParen, -98);
    DidExpect(s1, NUMBER, -99);
    DidExpect(s2, TkRParen, -101);
    DidExpect(s3, TkSemi, -102);
    var code := [SLEEP] + HalfBytes(ms);
    DidPut(s4, code);
    ThenTokens(s, s1, s2, [TkLParen], [], [], [TkNumber(ms)]);
    ThenTokens(s, s2, s3, [TkLParen] + [TkNumber(ms)], [], [], [TkRParen]);
    ThenTokens(s, s3, s4, [TkLParen] + [TkNumber(ms)] + [TkRParen], [], [], [TkSemi]);
    var toks := [TkLParen] + [TkNumber(ms)] + [TkRParen] + [TkSemi];
    ThenBytes(s, s4, Put(s4, code), toks, [], [], code);
    assert [] + code == code;
    AsSleep(s, Put(s4, code), ms, names);
  }

  lemma StringSucceeds(s: Hc, token: nat)
    requires s.Valid() && token < |s.tokens| && !PutString(s, token).Failed()
    ensures var raw := TokenRaw(s.tokens[token]); var s2 := PutDecoded(Put(s, [WRITE, 0]), raw, token);
            && Unescape(raw).Some? && !s2.Failed() && |s.code| + 1 < |s2.code|
            && PutString(s, token) == s2.(code := s2.code[|s.code| + 1 := |Text(raw)| % 0x100])
  {
    hide Unescape, PutDecoded, WellLexed;
  }

  lemma StringCompiles(s: Hc, token: nat)
    requires s.Valid() && token < |s.tokens| && !PutString(s, token).Failed()
    ensures var raw := TokenRaw(s.tokens[token]);
            Unescape(raw).Some? && Did(s, PutString(s, token), [], Encode(Write(Text(raw))), [])
  {
    hide Unescape, PutDecoded, WellLexed, PutString, Put;
    var raw := TokenRaw(s.tokens[token]);
    var text := Text(raw);
    StringSucceeds(s, token);
    OpcodePut(s);
    assert |text| < 0x100;
    BackStored(s.code, text, |text|);
  }

  lemma OpcodePut(s: Hc)
    requires s.Valid() && !Put(s, [WRITE, 0]).Failed()
    ensures !s.Failed() && Put(s, [WRITE, 0]) == s.(code := s.code + [WRITE, 0])
  {
    hide WellLexed;
  }

  lemma BackStored(code: seq<byte>, text: seq<byte>, length: byte)
    ensures (code + [WRITE, 0] + text)[|code| + 1 := length] == code + ([WRITE, length] + text)
  {
  }

  /** The optional length argument. */
  lemma LengthCompiles(s: Hc)
    requires s.Valid() && !WriteLength(s).0.Failed()
    ensures var (t, n) := WriteLength(s);
            Did(s, t, if n.Some? then [TkComma, TkNumber(n.value)] else [], [], []) && t.locals == s.locals
  {
    hide Did, Expect;
    if Peek(s) == TkComma {
      var s1 := Advance(s);
      DidAdvance(s);
      DidExpect(s1, NUMBER, -92);
      ThenTokens(s, s1, Expect(s1, NUMBER, -92), [TkComma], [], [], [Peek(s1)]);
      assert [TkComma] + [Peek(s1)] == [TkComma, TkNumber(TokenValue(Peek(s1)))];
    } else {
      DidNothing(s, s);
    }
  }

  /** ( 1 , "text" */
  lemma WriteHead(s: Hc)
    requires s.Valid()
    requires !Expect(Expect(Expect(Expect(s, TkLParen, -87), NUMBER, -88), TkComma, -90), STRING, -91).Failed()
    requires TokenValue(Peek(Expect(s, TkLParen, -87))) == 1
    ensures var s4 := Expect(Expect(Expect(s, TkLParen, -87), NUMBER, -88), TkComma, -90);
            && Did(s, Expect(s4, STRING, -91), [TkLParen, TkNumber(1), TkComma, Peek(s4)], [], [])
            && Peek(s4).TkString? && Expect(s4, STRING, -91).locals == s.locals
  {
    hide Did, Expect;
    var s1 := Expect(s, TkLParen, -87);
    var s2 := Expect(s1, NUMBER, -88);
    var s4 := Expect(s2, TkComma, -90);
    var s5 := Expect(s4, STRING, -91);
    DidExpect(s, TkLParen, -87);
    DidExpect(s1, NUMBER, -88);
    DidExpect(s2, TkComma, -90);
    DidExpect(s4, STRING, -91);
    ThenTokens(s, s1, s2, [TkLParen], [], [], [TkNumber(1)]);
    ThenTokens(s, s2, s4, [TkLParen] + [TkNumber(1)], [], [], [TkComma]);
    ThenTokens(s, s4, s5, [TkLParen] + [TkNumber(1)] + [TkComma], [], [], [Peek(s4)]);
    assert [TkLParen] + [TkNumber(1)] + [TkComma] + [Peek(s4)] == [TkLParen, TkNumber(1), TkComma, Peek(s4)];
  }

  lemma WriteCompiles(s: Hc, names: seq<Name>)
    requires s.Valid() && !WriteStatement(s).0.Failed()
    ensures var (t, st) := WriteStatement(s); CompiledRest(s, t, st, names) && st.WriteString?
  {
    hide Did, Expect, Put, Encode, PutString, WriteLength, Unescape, CompiledRest;
    var s1 := Expect(s, TkLParen, -87);
    var s4 := Expect(Expect(s1, NUMBER, -88), TkComma, -90);
    var s5 := Expect(s4, STRING, -91);
    assert TokenValue(Peek(s1)) == 1;
    var (s6, n) := WriteLength(s5);
    var s7 := Expect(s6, TkRParen, -93);
    var s8 := Expect(s7, TkSemi, -94);
    var raw := TokenRaw(Peek(s4));
    var head := [TkLParen, TkNumber(1), TkComma, TkString(raw)];
    var length := if n.Some? then [TkComma, TkNumber(n.value)] else [];
    WriteHead(s);
    LengthCompiles(s5);
    DidExpect(s6, TkRParen, -93);
    DidExpect(s7, TkSemi, -94);
    StringCompiles(s8, s4.current);
    ThenTokens(s, s5, s6, head, [], [], length);
    ThenTokens(s, s6, s7, head + length, [], [], [TkRParen]);
    ThenTokens(s, s7, s8, head + length + [TkRParen], [], [], [TkSemi]);
    var code := Encode(Write(Text(raw)));
    ThenBytes(s, s8, PutString(s8, s4.current), head + length + [TkRParen] + [TkSemi], [], [], code);
    assert [] + code == code;
    AsWrite(s, PutString(s8, s4.current), raw, n, names);
  }

  // ---------- statements with blocks ----------

  lemma {:induction false} StatementCompiles(s: Hc, names: seq<Name>)
    requires s.Valid() && !Statement(s).0.Failed() && Statement(s).0.locals <= names
    ensures var (t, st) := Statement(s); CompiledS(s, t, st, names)
    decreases s.Left(), 1, 0
  {
    hide Did, Expect, Put, Encode, Expression, DeclareStatement, NameStatement, SleepStatement, WriteStatement,
      IfStatement, WhileStatement, StatementList, CompiledS, CompiledRest, SpellS;
    var (t, st) := Statement(s);
    match Peek(s) {
      case TkInt => DeclareCompiles(Advance(s), names);
      case TkReturn => ReturnCompiles(Advance(s), names);
      case TkIf => IfCompiles(Advance(s), names);
      case TkWhile => WhileCompiles(Advance(s), names);
      case TkWrite => WriteCompiles(Advance(s), names);
      case TkPrint => PrintCompiles(Advance(s), names);
      case TkSleep => SleepCompiles(Advance(s), names);
      case TkGpio => GpioCompiles(Advance(s), names);
      case TkLBrace => BracesCompile(Advance(s), names);
      case TkIdent(n) => NameCompiles(Advance(s), s.current, n, names);
      case _ =>
    }
    FirstOf(st);
    FirstToken(s, t, st, names);
  }

  lemma FirstOf(st: Stmt)
    ensures match st
            case Return(_) => SpellS(st)[0] == TkReturn
            case If(_, _) => SpellS(st)[0] == TkIf
            case IfElse(_, _, _) => SpellS(st)[0] == TkIf
            case While(_, _) => SpellS(st)[0] == TkWhile
            case WriteString(_, _) => SpellS(st)[0] == TkWrite
            case PrintExpr(_) => SpellS(st)[0] == TkPrint
            case SleepFor(_) => SpellS(st)[0] == TkSleep
            case ToggleGpio => SpellS(st)[0] == TkGpio
            case Block(_) => SpellS(st)[0] == TkLBrace
            case _ => true
  {
  }

  lemma {:induction false} IfCompiles(s: Hc, names: seq<Name>)
    requires s.Valid() && !IfStatement(s).0.Failed() && IfStatement(s).0.locals <= names
    ensures var (t, st) := IfStatement(s); CompiledRest(s, t, st, names) && (st.If? || st.IfElse?)
    decreases s.Left(), 1, 4
  {
    hide Did, Expect, Put, Encode, Expression, BlockOf, CompiledRest, Guarded, Opened;
    var (s1, c) := Expression(Expect(s, TkLParen, -83));
    var s2 := Expect(s1, TkRParen, -84);
    var g := PutJump(s2, JZ);
    var (s3, b) := BlockOf(g);
    GuardCompiles(s, -83, -84, names);
    BlockCompiles(g, names);
    if Peek(s3) == TkElse {
      var s4 := Advance(s3);
      var s5 := PutJump(s4, JMP);
      var u := Patch(s5, HoleAt(s2), |s5.code|);
      var (s6, e) := BlockOf(u);
      ElseOpens(s, g, c, s3, b, names);
      BlockCompiles(u, names);
      GuardLocals(s, g, c, names);
      DidPut(s4, [JMP, 0, 0]);
      DidCode(s4, s5, [], [JMP, 0, 0], []);
      assert HoleAt(s4) == |u.code| - 2;
      IfElseCloses(s, u, c, b, s6, e, names);
    } else {
      IfCloses(s, g, c, s3, b, names);
    }
  }

  lemma GuardLocals(s: Hc, g: Hc, c: Expr, names: seq<Name>)
    requires Guarded(s, g, c, names)
    ensures g.locals == s.locals && WellFormedE(c, names)
  {
  }

  lemma {:induction false} WhileCompiles(s: Hc, names: seq<Name>)
    requires s.Valid() && !WhileStatement(s, |s.code|).0.Failed() && WhileStatement(s, |s.code|).0.locals <= names
    ensures var (t, st) := WhileStatement(s, |s.code|); CompiledRest(s, t, st, names) && st.While?
    decreases s.Left(), 1, 4
  {
    hide Did, Expect, Put, Encode, Expression, BlockOf, CompiledRest, Guarded, HalfBytes;
    var (s1, c) := Expression(Expect(s, TkLParen, -85));
    var s2 := Expect(s1, TkRParen, -86);
    var g := PutJump(s2, JZ);
    var (s3, b) := BlockOf(g);
    GuardCompiles(s, -85, -86, names);
    BlockCompiles(g, names);
    WhileCloses(s, g, c, s3, b, names);
  }

  lemma {:induction false} ListCompiles(s: Hc, names: seq<Name>)
    requires s.Valid() && !StatementList(s).0.Failed() && StatementList(s).0.locals <= names
    ensures var (t, ss) := StatementList(s); CompiledSs(s, t, ss, names) && (Peek(t) == TkRBrace || Peek(t) == TkEof)
    decreases s.Left(), if s.Failed() then 0 else 1, 2
  {
    hide Did, Statement, EmitS, SitesS, SpellS, WellFormedS, DeclaredS, SizeS;
    if Peek(s) == TkRBrace || Peek(s) == TkEof {
      DidNothing(s, s);
    } else {
      var (s1, h) := Statement(s);
      var (s2, t) := StatementList(s1);
      StatementCompiles(s, names);
      ListCompiles(s1, names);
      DidCode(s, s1, SpellS(h), EmitS(h, |s.code|, names, []), SitesS(h, |s.code|));
      Then(s, s1, s2, SpellS(h), EmitS(h, |s.code|, names, []), SitesS(h, |s.code|),
           SpellSs(t), EmitSs(t, |s1.code|, names, []), SitesSs(t, |s1.code|));
      AppendNames(s.locals, DeclaredS(h), DeclaredSs(t));
    }
  }

  lemma {:induction false} BlockCompiles(s: Hc, names: seq<Name>)
    requires s.Valid() && !BlockOf(s).0.Failed() && BlockOf(s).0.locals <= names
    ensures var (t, ss) := BlockOf(s); CompiledBlock(s, t, ss, names) && t.Valid()
    decreases s.Left(), 1, 3
  {
    hide Did, Expect, EmitSs, SitesSs, SpellSs, WellLexed, WellFormedSs, DeclaredSs;
    var s0 := Expect(s, TkLBrace, -112);
    var (s1, ss) := StatementList(s0);
    DidExpect(s, TkLBrace, -112);
    ListCompiles(s0, names);
    DidExpect(s1, TkRBrace, -113);
    var code, sites := EmitSs(ss, |s.code|, names, []), SitesSs(ss, |s.code|);
    Then(s, s0, s1, [TkLBrace], [], [], SpellSs(ss), code, sites);
    assert [] + code == code && [] + sites == sites;
    ThenTokens(s, s1, Expect(s1, TkRBrace, -113), [TkLBrace] + SpellSs(ss), code, sites, [TkRBrace]);
  }

  /** A nested block, its opening brace consumed. */
  lemma {:induction false} BracesCompile(s: Hc, names: seq<Name>)
    requires s.Valid() && !Expect(StatementList(s).0, TkRBrace, -106).Failed()
    requires Expect(StatementList(s).0, TkRBrace, -106).locals <= names
    ensures var (s1, b) := StatementList(s); CompiledRest(s, Expect(s1, TkRBrace, -106), Block(b), names)
    decreases s.Left(), 1, 3
  {
    hide Did, Expect, EmitSs, SitesSs, SpellSs, CompiledRest;
    var (s1, b) := StatementList(s);
    ListCompiles(s, names);
    DidExpect(s1, TkRBrace, -106);
    ThenTokens(s, s1, Expect(s1, TkRBrace, -106), SpellSs(b), EmitSs(b, |s.code|, names, []), SitesSs(b, |s.code|),
               [TkRBrace]);
    AsBlock(s, Expect(s1, TkRBrace, -106), b, names);
  }
}
