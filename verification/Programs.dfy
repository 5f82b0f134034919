/** From tokens to a finished image: functions in sequence, then call patching. */
module Programs {
  import opened Common
  import opened Hbc
  import opened Source
  import opened Emission
  import opened Parser
  import opened Recognition
  import opened Statements

  // ---------- functions ----------

  /** Like Did, for steps that also define functions. */
  ghost predicate DidDefine(s: Hc, t: Hc, toks: seq<Token>, bytes: seq<byte>, sites: seq<Symbol>, fns: seq<Symbol>) {
    && s.Valid() && t.Valid() && !s.Failed() && !t.Failed()
    && t.tokens == s.tokens && t.current == s.current + |toks|
    && s.tokens[s.current..t.current] == toks
    && t.code == s.code + bytes && t.calls == s.calls + sites && t.functions == s.functions + fns
  }

  lemma HeaderCompiles(s: Hc)
    requires s.Valid()
             && !Expect(Expect(Expect(Expect(s, TkInt, -114), IDENT, -115), TkLParen, -116), TkRParen, -117).Failed()
    ensures var s1 := Expect(s, TkInt, -114);
            var s4 := Expect(Expect(Expect(s1, IDENT, -115), TkLParen, -116), TkRParen, -117);
            Did(s, s4, [TkInt, TkIdent(TokenName(Peek(s1))), TkLParen, TkRParen], [], [])
  {
    hide Did, Expect;
    var s1 := Expect(s, TkInt, -114);
    var s2 := Expect(s1, IDENT, -115);
    var s3 := Expect(s2, TkLParen, -116);
    var s4 := Expect(s3, TkRParen, -117);
    var id := TkIdent(TokenName(Peek(s1)));
    DidExpect(s, TkInt, -114);
    DidExpect(s1, IDENT, -115);
    DidExpect(s2, TkLParen, -116);
    DidExpect(s3, TkRParen, -117);
    ThenTokens(s, s1, s2, [TkInt], [], [], [id]);
    ThenTokens(s, s2, s3, [TkInt] + [id], [], [], [TkLParen]);
    ThenTokens(s, s3, s4, [TkInt] + [id] + [TkLParen], [], [], [TkRParen]);
    assert [TkInt] + [id] + [TkLParen] + [TkRParen] == [TkInt, id, TkLParen, TkRParen];
  }

  /** The part of FunctionDefinition after its header. */
  function FunctionRest(s5: Hc): (Hc, Stmts)
    requires s5.Valid()
  {
    var (s6, body) := BlockOf(s5);
    (if !s6.Failed() && Last(s6.code, 0) != RET then Put(s6, EPILOGUE) else s6, body)
  }

  lemma RestCompiles(s: Hc, name: Name)
    requires s.Valid() && s.code != [] && s.locals == [] && !FunctionRest(s).0.Failed()
    ensures var (t, body) := FunctionRest(s); var f := Function(name, body);
            && Did(s, t, SpellBlock(body), EmitF(f, |s.code|, Last(s.code, 0), []), SitesSs(body, |s.code|))
            && WellFormedF(f) && Last(t.code, 0) == RET
  {
    hide Did, Put, EmitSs, SitesSs, SpellBlock, WellFormedSs, WellLexed, DeclaredSs, BlockOf;
    var (s6, body) := BlockOf(s);
    BlockCompiles(s, s6.locals);
    assert s6.locals == DeclaredSs(body);
    var f := Function(name, body);
    var code, sites := EmitSs(body, |s.code|, DeclaredSs(body), []), SitesSs(body, |s.code|);
    DidCode(s, s6, SpellBlock(body), code, sites);
    assert Last(s6.code, 0) == Last(code, Last(s.code, 0));
    if Last(s6.code, 0) != RET {
      DidPut(s6, EPILOGUE);
      ThenBytes(s, s6, Put(s6, EPILOGUE), SpellBlock(body), code, sites, EPILOGUE);
      DidCode(s6, Put(s6, EPILOGUE), [], EPILOGUE, []);
      EpilogueReturns(s6.code);
    } else {
      assert code + [] == code;
    }
  }

  lemma EpilogueReturns(code: seq<byte>)
    ensures Last(code + EPILOGUE, 0) == RET
  {
    assert (code + EPILOGUE)[|code + EPILOGUE| - 1] == EPILOGUE[5];
  }

  /** One definition: spelled, emitted at the current position, entered in the table under a new name. */
  lemma FunctionCompiles(s: Hc)
    requires s.Valid() && s.code != [] && !FunctionDefinition(s).0.Failed()
    ensures var (t, f) := FunctionDefinition(s);
            && DidDefine(s, t, SpellF(f), EmitF(f, |s.code|, Last(s.code, 0), []), SitesSs(f.body, |s.code|),
                         [Symbol(f.name, |s.code|)])
            && WellFormedF(f) && !Known(s.functions, f.name) && Last(t.code, 0) == RET
  {
    hide Expect, Put, EmitF, SitesSs, SpellBlock, WellFormedF, WellLexed, Known, DeclaredSs, FunctionRest,
      FunctionDefinition, Did, DidDefine, AddFunction;
    var s1 := Expect(s, TkInt, -114);
    var name := TokenName(Peek(s1));
    var s4 := Expect(Expect(Expect(s1, IDENT, -115), TkLParen, -116), TkRParen, -117);
    var s5 := s4.(functions := s4.functions + [Symbol(name, |s4.code|)], locals := []);
    DefinitionParts(s, s1, s4, s5, name);
    HeaderCompiles(s);
    SameCode(s, s4, [TkInt, TkIdent(name), TkLParen, TkRParen]);
    RestCompiles(s5, name);
    var (t, body) := FunctionRest(s5);
    var f := Function(name, body);
    DefineAfter(s, s4, s5, t, [TkInt, TkIdent(name), TkLParen, TkRParen], SpellBlock(body),
                EmitF(f, |s.code|, Last(s.code, 0), []),
                SitesSs(body, |s.code|), Symbol(name, |s.code|));
  }

  lemma SameCode(s: Hc, t: Hc, toks: seq<Token>)
    requires Did(s, t, toks, [], [])
    ensures t.code == s.code && t.functions == s.functions
  {
  }

  lemma DefinitionParts(s: Hc, s1: Hc, s4: Hc, s5: Hc, name: Name)
    requires s.Valid() && s1 == Expect(s, TkInt, -114) && name == TokenName(Peek(s1))
    requires s4 == Expect(Expect(Expect(s1, IDENT, -115), TkLParen, -116), TkRParen, -117)
    requires s5 == s4.(functions := s4.functions + [Symbol(name, |s4.code|)], locals := [])
    requires !FunctionDefinition(s).0.Failed()
    ensures !s4.Failed() && s5.Valid()
            && FunctionDefinition(s) == (FunctionRest(s5).0, Function(name, FunctionRest(s5).1))
    ensures !Known(s4.functions, name)
  {
    hide Expect, Put, WellLexed, Known, BlockOf;
    assert AddFunction(s4, s1.current, |s4.code|).(locals := []) == s5;
  }

  /** A header, the table entry, the rest. */
  lemma DefineAfter(s: Hc, s4: Hc, s5: Hc, t: Hc, toks1: seq<Token>, toks2: seq<Token>, bytes: seq<byte>,
                    sites: seq<Symbol>, fn: Symbol)
    requires Did(s, s4, toks1, [], []) && s5 == s4.(functions := s4.functions + [fn], locals := [])
             && Did(s5, t, toks2, bytes, sites)
    ensures DidDefine(s, t, toks1 + toks2, bytes, sites, [fn])
  {
    assert s.tokens[s.current..t.current] == s.tokens[s.current..s4.current] + s.tokens[s4.current..t.current];
  }

  ghost predicate AllWellFormed(p: Program) {
    p != [] ==> WellFormedF(p[0]) && AllWellFormed(p[1..])
  }

  predicate Distinct(p: Program) {
    p != [] ==> !Defined(p[1..], p[0].name) && Distinct(p[1..])
  }

  lemma KnownAppend(fns: seq<Symbol>, f: Symbol, n: Name)
    ensures Known(fns + [f], n) <==> Known(fns, n) || n == f.name
  {
    if fns != [] {
      KnownAppend(fns[1..], f, n);
      assert (fns + [f])[1..] == fns[1..] + [f];
    }
  }

  lemma DefineThen(s: Hc, t: Hc, u: Hc, toks1: seq<Token>, bytes1: seq<byte>, sites1: seq<Symbol>, fns1: seq<Symbol>,
                   toks2: seq<Token>, bytes2: seq<byte>, sites2: seq<Symbol>, fns2: seq<Symbol>)
    requires DidDefine(s, t, toks1, bytes1, sites1, fns1) && DidDefine(t, u, toks2, bytes2, sites2, fns2)
    ensures DidDefine(s, u, toks1 + toks2, bytes1 + bytes2, sites1 + sites2, fns1 + fns2)
  {
    assert s.tokens[s.current..u.current] == s.tokens[s.current..t.current] + s.tokens[t.current..u.current];
    assert s.code + (bytes1 + bytes2) == (s.code + bytes1) + bytes2;
    assert s.calls + (sites1 + sites2) == (s.calls + sites1) + sites2;
    assert s.functions + (fns1 + fns2) == (s.functions + fns1) + fns2;
  }

  lemma DefineNone(s: Hc)
    requires s.Valid() && !s.Failed()
    ensures DidDefine(s, s, [], [], [], [])
  {
  }

  lemma DefinedOne(s: Hc, t: Hc, toks: seq<Token>, bytes: seq<byte>, sites: seq<Symbol>, fns: seq<Symbol>)
    requires DidDefine(s, t, toks, bytes, sites, fns)
    ensures |t.code| == |s.code| + |bytes| && t.functions == s.functions + fns && t.Valid() && !s.Failed()
            && !t.Failed()
  {
  }

  lemma {:induction false} DefinitionsCompile(s: Hc)
    requires s.Valid() && s.code != [] && !Definitions(s).0.Failed()
    ensures var (t, p) := Definitions(s); var (at, prev) := (|s.code|, Last(s.code, 0));
            && DidDefine(s, t, SpellProgram(p), EmitFs(p, at, prev, []), SitesFs(p, at, prev), Layout(p, at, prev))
            && Peek(t) == TkEof && AllWellFormed(p) && Distinct(p)
            && forall n :: Defined(p, n) ==> !Known(s.functions, n)
    decreases s.Left(), if s.Failed() then 0 else 1
  {
    hide FunctionDefinition, EmitF, SitesSs, SpellF, WellFormedF, WellLexed, Known, DidDefine;
    if Peek(s) == TkEof {
      DefineNone(s);
    } else {
      var (s1, f) := FunctionDefinition(s);
      var (s2, p) := Definitions(s1);
      var at, prev := |s.code|, Last(s.code, 0);
      FunctionCompiles(s);
      DefinedOne(s, s1, SpellF(f), EmitF(f, at, prev, []), SitesSs(f.body, at), [Symbol(f.name, at)]);
      DefinitionsCompile(s1);
      DefineThen(s, s1, s2, SpellF(f), EmitF(f, at, prev, []), SitesSs(f.body, at), [Symbol(f.name, at)],
                 SpellProgram(p), EmitFs(p, |s1.code|, RET, []), SitesFs(p, |s1.code|, RET), Layout(p, |s1.code|, RET));
      forall n ensures Known(s1.functions, n) <==> Known(s.functions, n) || n == f.name {
        KnownAppend(s.functions, Symbol(f.name, at), n);
      }
      assert ([f] + p)[1..] == p;
    }
  }

  // ---------- call patching ----------

  function Fill(code: seq<byte>, operand: nat, value: nat): (r: seq<byte>)
    ensures |r| == |code|
  {
    if operand + 1 >= |code| then code
    else code[operand := value % 0x100][operand + 1 := value / 0x100 % 0x100]
  }

  function FillAll(code: seq<byte>, calls: seq<Symbol>, fns: seq<Symbol>): seq<byte>
    decreases |calls|
  {
    if calls == [] then code
    else FillAll(Fill(code, calls[0].address, Address(fns, calls[0].name)), calls[1..], fns)
  }

  predicate AllKnown(calls: seq<Symbol>, fns: seq<Symbol>) {
    forall k :: 0 <= k < |calls| ==> Known(fns, calls[k].name)
  }

  lemma {:induction false} PatchCallsFills(s: Hc, k: nat)
    requires s.Valid() && !s.Failed() && k <= |s.calls| && !PatchCalls(s, k).Failed()
    ensures PatchCalls(s, k).code == FillAll(s.code, s.calls[k..], s.functions) && AllKnown(s.calls[k..], s.functions)
    decreases |s.calls| - k
  {
    if k < |s.calls| {
      var t := Patch(s, s.calls[k].address, Address(s.functions, s.calls[k].name));
      PatchCallsFills(t, k + 1);
      assert s.calls[k..] == [s.calls[k]] + s.calls[k + 1..];
    }
  }

  lemma {:induction false} FillAppend(code: seq<byte>, a: seq<Symbol>, b: seq<Symbol>, fns: seq<Symbol>)
    ensures FillAll(code, a + b, fns) == FillAll(FillAll(code, a, fns), b, fns)
    decreases |a|
  {
    if a == [] {
      assert a + b == b;
    } else {
      FillAppend(Fill(code, a[0].address, Address(fns, a[0].name)), a[1..], b, fns);
      assert (a + b)[1..] == a[1..] + b;
    }
  }

  // Regrouping of concatenations.

  lemma Assoc(a: seq<byte>, b: seq<byte>, c: seq<byte>)
    ensures a + (b + c) == (a + b) + c
  {
  }

  lemma Group2(a: seq<byte>, b: seq<byte>, c: seq<byte>, d: seq<byte>)
    ensures a + (b + c) + d == a + b + (c + d)
  {
    Assoc(a, b, c);
    Assoc(a + b, c, d);
  }

  lemma Group3(a: seq<byte>, b: seq<byte>, c: seq<byte>, d: seq<byte>, e: seq<byte>)
    ensures a + (b + c + d) + e == a + b + (c + d + e)
    ensures a + (b + c + d) + e == (a + b) + c + (d + e)
  {
    Group2(a, b + c, d, e);
    Assoc(a, b, c);
    Group2(a + b, c, d, e);
    Assoc(a + b, c, d + e);
    Assoc(c, d, e);
  }

  lemma FillHere(pre: seq<byte>, lo: byte, hi: byte, post: seq<byte>)
    ensures (pre + [CALL, 0, 0] + post)[|pre| + 1 := lo][|pre| + 2 := hi] == pre + [CALL, lo, hi] + post
  {
  }

  lemma FillCall(pre: seq<byte>, n: Name, post: seq<byte>, fns: seq<Symbol>)
    ensures FillAll(pre + Encode(Call(0)) + post, [Symbol(n, |pre| + 1)], fns) ==
            pre + Encode(Call(Address(fns, n))) + post
  {
    hide Encode, Address, HalfBytes;
    var code, v := pre + Encode(Call(0)) + post, Address(fns, n);
    CallBytes(v);
    CallBytes(0);
    FillHere(pre, v % 0x100, v / 0x100 % 0x100, post);
    FillOne(code, n, |pre| + 1, fns);
  }

  lemma FillOne(code: seq<byte>, n: Name, operand: nat, fns: seq<Symbol>)
    ensures FillAll(code, [Symbol(n, operand)], fns) == Fill(code, operand, Address(fns, n))
  {
    hide Fill, Address;
    assert [Symbol(n, operand)][1..] == [];
  }

  lemma CallBytes(v: nat)
    ensures Encode(Call(v)) == [CALL, v % 0x100, v / 0x100 % 0x100] && Encode(Halt) == [HALT]
  {
  }

  /** Patching the recorded sites of a fragment, wherever it stands, yields its final code. */
  lemma {:induction false} FillE(e: Expr, names: seq<Name>, fns: seq<Symbol>, pre: seq<byte>, post: seq<byte>)
    ensures FillAll(pre + EmitE(e, names, []) + post, SitesE(e, |pre|), fns) == pre + EmitE(e, names, fns) + post
    decreases e, 1
  {
    hide Encode, Fill;
    match e {
      case CallExpr(n) => FillCall(pre, n, post, fns);
      case Paren(i) => FillE(i, names, fns, pre, post);
      case Neg(i) =>
        var zero, sub := Encode(PushI32(0)), Encode(Binary(Sub));
        Group3(pre, zero, EmitE(i, names, []), sub, post);
        FillE(i, names, fns, pre + zero, sub + post);
        Group3(pre, zero, EmitE(i, names, fns), sub, post);
      case Bin(op, l, r) => FillBin(op, l, r, names, fns, pre, post);
      case _ =>
    }
  }

  lemma {:induction false} FillBin(op: BinOp, l: Expr, r: Expr, names: seq<Name>, fns: seq<Symbol>, pre: seq<byte>,
                                   post: seq<byte>)
    ensures var e := Bin(op, l, r);
            FillAll(pre + EmitE(e, names, []) + post, SitesE(e, |pre|), fns) == pre + EmitE(e, names, fns) + post
    decreases Bin(op, l, r), 0
  {
    hide Encode, Fill, FillAll;
    var o := Encode(Binary(op));
    var l0, r0, l1, r1 := EmitE(l, names, []), EmitE(r, names, []), EmitE(l, names, fns), EmitE(r, names, fns);
    Group3(pre, l0, r0, o, post);
    FillE(l, names, fns, pre, r0 + o + post);
    Group3(pre, l1, r0, o, post);
    FillE(r, names, fns, pre + l1, o + post);
    FillAppend(pre + (l0 + r0 + o) + post, SitesE(l, |pre|), SitesE(r, |pre| + SizeE(l)), fns);
    Group3(pre, l1, r1, o, post);
  }

  /** An expression followed by code without calls. */
  lemma FillTail(e: Expr, tail: seq<byte>, names: seq<Name>, fns: seq<Symbol>, pre: seq<byte>, post: seq<byte>)
    ensures FillAll(pre + (EmitE(e, names, []) + tail) + post, SitesE(e, |pre|), fns) ==
            pre + (EmitE(e, names, fns) + tail) + post
  {
    hide EmitE, SitesE, FillAll;
    Group2(pre, EmitE(e, names, []), tail, post);
    Group2(pre, EmitE(e, names, fns), tail, post);
    FillE(e, names, fns, pre, tail + post);
  }

  lemma {:induction false} FillS(s: Stmt, names: seq<Name>, fns: seq<Symbol>, pre: seq<byte>, post: seq<byte>)
    ensures FillAll(pre + EmitS(s, |pre|, names, []) + post, SitesS(s, |pre|), fns) ==
            pre + EmitS(s, |pre|, names, fns) + post
    decreases s, 1
  {
    hide Encode, Fill, EmitE, SitesE, EmitSs, SitesSs;
    match s {
      case DeclareInit(n, e) => FillTail(e, Encode(StoreLocal(Slot(names, n))), names, fns, pre, post);
      case Assign(n, e) => FillTail(e, Encode(StoreLocal(Slot(names, n))), names, fns, pre, post);
      case Return(e) => FillTail(e, Encode(Ret), names, fns, pre, post);
      case PrintExpr(e) => FillTail(e, Encode(PrintInt), names, fns, pre, post);
      case If(c, t) => FillIf(c, t, names, fns, pre, post);
      case IfElse(c, t, e) => FillIfElse(c, t, e, names, fns, pre, post);
      case While(c, b) => FillWhile(c, b, names, fns, pre, post);
      case Block(b) => FillSs(b, names, fns, pre, post);
      case CallStmt(n) =>
        Group2(pre, Encode(Call(0)), Encode(Pop), post);
        FillCall(pre, n, Encode(Pop) + post, fns);
        Group2(pre, Encode(Call(Address(fns, n))), Encode(Pop), post);
      case _ =>
    }
  }

  /** A condition, fixed glue, a block, fixed glue. */
  lemma {:induction false} FillGuarded(c: Expr, glue: seq<byte>, b: Stmts, names: seq<Name>, fns: seq<Symbol>,
                                       pre: seq<byte>, post: seq<byte>)
    requires |glue| == 3
    ensures var at := |pre| + SizeE(c) + 3;
            FillAll(pre + (EmitE(c, names, []) + glue + EmitSs(b, at, names, [])) + post,
                    SitesE(c, |pre|) + SitesSs(b, at), fns) ==
            pre + (EmitE(c, names, fns) + glue + EmitSs(b, at, names, fns)) + post
    decreases b, 2
  {
    hide Encode, Fill, EmitE, SitesE, EmitSs, SitesSs;
    var at := |pre| + SizeE(c) + 3;
    var c0, c1, b0, b1 := EmitE(c, names, []), EmitE(c, names, fns), EmitSs(b, at, names, []), EmitSs(b, at, names,
        fns);
    Group3(pre, c0, glue, b0, post);
    FillE(c, names, fns, pre, glue + b0 + post);
    Group3(pre, c1, glue, b0, post);
    Assoc(pre + c1 + glue, b0, post);
    FillSs(b, names, fns, pre + c1 + glue, post);
    FillAppend(pre + (c0 + glue + b0) + post, SitesE(c, |pre|), SitesSs(b, at), fns);
    Group3(pre, c1, glue, b1, post);
    Assoc(pre + c1 + glue, b1, post);
  }

  lemma {:induction false} FillIf(c: Expr, b: Stmts, names: seq<Name>, fns: seq<Symbol>, pre: seq<byte>,
                                  post: seq<byte>)
    ensures FillAll(pre + EmitS(If(c, b), |pre|, names, []) + post, SitesS(If(c, b), |pre|), fns) ==
            pre + EmitS(If(c, b), |pre|, names, fns) + post
    decreases b, 3
  {
    hide Encode, Fill, EmitE, SitesE, EmitSs, SitesSs, EmitS, SitesS, FillAll;
    var thenAt := |pre| + SizeE(c) + 3;
    IfCode(|pre|, c, b, names, [], thenAt);
    IfCode(|pre|, c, b, names, fns, thenAt);
    FillGuarded(c, Encode(Jz(thenAt + SizeSs(b))), b, names, fns, pre, post);
  }

  lemma {:induction false} FillWhile(c: Expr, b: Stmts, names: seq<Name>, fns: seq<Symbol>, pre: seq<byte>,
                                     post: seq<byte>)
    ensures FillAll(pre + EmitS(While(c, b), |pre|, names, []) + post, SitesS(While(c, b), |pre|), fns) ==
            pre + EmitS(While(c, b), |pre|, names, fns) + post
    decreases b, 3
  {
    hide Encode, Fill, EmitE, SitesE, EmitSs, SitesSs, EmitS, SitesS, FillAll;
    var at := |pre| + SizeE(c) + 3;
    WhileCode(|pre|, c, b, names, [], at);
    WhileCode(|pre|, c, b, names, fns, at);
    var jz, back := Encode(Jz(at + SizeSs(b) + 3)), Encode(Jmp(|pre|));
    var c0, c1, b0, b1 := EmitE(c, names, []), EmitE(c, names, fns), EmitSs(b, at, names, []), EmitSs(b, at, names,
        fns);
    FillGuarded(c, jz, b, names, fns, pre, back + post);
    Group2(pre, c0 + jz + b0, back, post);
    Group2(pre, c1 + jz + b1, back, post);
  }

  /** Filling the block of code that ends a longer piece. */
  lemma {:induction false} FillLast(front: seq<byte>, over: seq<byte>, e: Stmts, names: seq<Name>, fns: seq<Symbol>,
                                    pre: seq<byte>, post: seq<byte>)
    ensures var at := |pre| + |front| + |over|;
            FillAll(pre + (front + over + EmitSs(e, at, names, [])) + post, SitesSs(e, at), fns) ==
            pre + (front + over + EmitSs(e, at, names, fns)) + post
    decreases e, 2
  {
    hide Fill, EmitSs, SitesSs, FillAll;
    var at := |pre| + |front| + |over|;
    var e0, e1 := EmitSs(e, at, names, []), EmitSs(e, at, names, fns);
    Group3(pre, front, over, e0, post);
    Assoc(pre + front + over, e0, post);
    FillSs(e, names, fns, pre + front + over, post);
    Group3(pre, front, over, e1, post);
    Assoc(pre + front + over, e1, post);
  }

  /** Filling the front of a piece, then its end. */
  lemma FillInTurn(pre: seq<byte>, g0: seq<byte>, g1: seq<byte>, over: seq<byte>, e0: seq<byte>, e1: seq<byte>,
                   post: seq<byte>,
                   a: seq<Symbol>, b: seq<Symbol>, fns: seq<Symbol>)
    requires FillAll(pre + g0 + (over + e0 + post), a, fns) == pre + g1 + (over + e0 + post)
    requires FillAll(pre + (g1 + over + e0) + post, b, fns) == pre + (g1 + over + e1) + post
    ensures FillAll(pre + (g0 + over + e0) + post, a + b, fns) == pre + (g1 + over + e1) + post
  {
    hide FillAll;
    Group3(pre, g0, over, e0, post);
    Group3(pre, g1, over, e0, post);
    FillAppend(pre + (g0 + over + e0) + post, a, b, fns);
  }

  lemma {:induction false} FillIfElse(c: Expr, b: Stmts, e: Stmts, names: seq<Name>, fns: seq<Symbol>,
                                      pre: seq<byte>, post: seq<byte>)
    ensures FillAll(pre + EmitS(IfElse(c, b, e), |pre|, names, []) + post, SitesS(IfElse(c, b, e), |pre|), fns) ==
            pre + EmitS(IfElse(c, b, e), |pre|, names, fns) + post
    decreases IfElse(c, b, e), 0
  {
    hide Encode, Fill, EmitE, SitesE, EmitSs, SitesSs, FillAll, EmitS, SitesS;
    var at := |pre| + SizeE(c) + 3;
    var elseAt := at + SizeSs(b) + 3;
    var jz, over := Encode(Jz(elseAt)), Encode(Jmp(elseAt + SizeSs(e)));
    var g0 := EmitE(c, names, []) + jz + EmitSs(b, at, names, []);
    var g1 := EmitE(c, names, fns) + jz + EmitSs(b, at, names, fns);
    var e0 := EmitSs(e, elseAt, names, []);
    IfElseCode(|pre|, c, b, e, names, [], at, elseAt);
    IfElseCode(|pre|, c, b, e, names, fns, at, elseAt);
    IfElseSites(|pre|, c, b, e);
    FillGuarded(c, jz, b, names, fns, pre, over + e0 + post);
    FillLast(g1, over, e, names, fns, pre, post);
    FillInTurn(pre, g0, g1, over, e0, EmitSs(e, elseAt, names, fns), post, SitesE(c, |pre|) + SitesSs(b, at),
               SitesSs(e, elseAt), fns);
  }

  lemma {:induction false} FillSs(ss: Stmts, names: seq<Name>, fns: seq<Symbol>, pre: seq<byte>, post: seq<byte>)
    ensures FillAll(pre + EmitSs(ss, |pre|, names, []) + post, SitesSs(ss, |pre|), fns) ==
            pre + EmitSs(ss, |pre|, names, fns) + post
    decreases ss, 1
  {
    hide Fill, EmitS, SitesS;
    match ss {
      case Nil =>
      case Cons(h, t) =>
        var at := |pre| + SizeS(h);
        var h0, h1, t0, t1 := EmitS(h, |pre|, names, []), EmitS(h, |pre|, names, fns), EmitSs(t, at, names,
            []), EmitSs(t, at, names, fns);
        Group2(pre, h0, t0, post);
        FillS(h, names, fns, pre, t0 + post);
        Assoc(pre + h1, t0, post);
        FillSs(t, names, fns, pre + h1, post);
        FillAppend(pre + (h0 + t0) + post, SitesS(h, |pre|), SitesSs(t, at), fns);
        Group2(pre, h1, t1, post);
        Assoc(pre + h1, t1, post);
    }
  }

  lemma {:induction false} FillFs(p: Program, prev: byte, fns: seq<Symbol>, pre: seq<byte>)
    ensures FillAll(pre + EmitFs(p, |pre|, prev, []), SitesFs(p, |pre|, prev), fns) == pre + EmitFs(p, |pre|, prev, fns)
    decreases |p|
  {
    hide Fill, EmitSs, SitesSs, GetsEpilogue, EmitF;
    if p != [] {
      var f, at := p[0], |pre|;
      var next := at + SizeF(f, at, prev);
      var f0, f1 := EmitF(f, at, prev, []), EmitF(f, at, prev, fns);
      var r0, r1 := EmitFs(p[1..], next, RET, []), EmitFs(p[1..], next, RET, fns);
      Assoc(pre, f0, r0);
      FillF(f, prev, fns, pre, r0);
      FillFs(p[1..], RET, fns, pre + f1);
      FillAppend(pre + (f0 + r0), SitesSs(f.body, at), SitesFs(p[1..], next, RET), fns);
      Assoc(pre, f1, r1);
    }
  }

  lemma FillF(f: Function, prev: byte, fns: seq<Symbol>, pre: seq<byte>, post: seq<byte>)
    ensures FillAll(pre + EmitF(f, |pre|, prev, []) + post, SitesSs(f.body, |pre|), fns) ==
            pre + EmitF(f, |pre|, prev, fns) + post
  {
    hide Fill, EmitSs, SitesSs, GetsEpilogue, FillAll;
    var names, tail := DeclaredSs(f.body), if GetsEpilogue(f, |pre|, prev) then EPILOGUE else [];
    Group2(pre, EmitSs(f.body, |pre|, names, []), tail, post);
    FillSs(f.body, names, fns, pre, tail + post);
    Group2(pre, EmitSs(f.body, |pre|, names, fns), tail, post);
  }

  // ---------- the whole compiler ----------

  /** Every call made, and main, is defined. */
  predicate CallsDefined(p: Program) {
    Known(Table(p), MAIN) && AllKnown(SitesFs(p, ENTRY_SIZE, HALT), Table(p))
  }

  ghost predicate Proper(p: Program) {
    AllWellFormed(p) && Distinct(p) && CallsDefined(p) && |Image(p)| <= MAX_CODE
  }

  /** Main result: whatever the compiler accepts is the spelling of a proper program, and what it
      leaves in its buffer is that program's image. */
  lemma CompilerEmitsImage(tokens: seq<Token>)
    requires WellLexed(tokens) && !CompileState(tokens).0.Failed()
    ensures var (s, p) := CompileState(tokens);
            && s.current < |tokens| && tokens[..s.current] == SpellProgram(p) && tokens[s.current] == TkEof
            && Proper(p) && s.code == Image(p)
  {
    hide Definitions, PatchCalls, WellFormedF, EmitFs, SitesFs, Layout, WellLexed, SpellProgram, Known, FillAll;
    var s0 := Opening(tokens);
    var (s1, p) := Definitions(s0);
    DefinitionsCompile(s0);
    assert Last(s0.code, 0) == HALT;
    assert tokens[..s1.current] == s0.tokens[s0.current..s1.current];
    assert s1.functions == Table(p);
    PatchCallsFills(s1, 0);
    var sites := SitesFs(p, ENTRY_SIZE, HALT);
    assert s1.calls[0..] == [Symbol(MAIN, 1)] + sites;
    StubFills(p, sites);
    forall k | 0 <= k < |sites| ensures Known(Table(p), sites[k].name) {
      assert s1.calls[0..][k + 1] == sites[k];
    }
    assert CallsDefined(p);
  }

  lemma StubFills(p: Program, sites: seq<Symbol>)
    requires sites == SitesFs(p, ENTRY_SIZE, HALT)
    ensures FillAll([CALL, 0, 0, HALT] + EmitFs(p, ENTRY_SIZE, HALT, []), [Symbol(MAIN, 1)] + sites, Table(p)) ==
              Image(p)
  {
    hide EmitFs, SitesFs, Table, Fill, Address, FillAll, Encode;
    var code, call := EmitFs(p, ENTRY_SIZE, HALT, []), Encode(Call(Address(Table(p), MAIN)));
    var stub := call + Encode(Halt);
    CallBytes(0);
    assert [CALL, 0, 0, HALT] == [] + Encode(Call(0)) + [HALT];
    Assoc([] + Encode(Call(0)), [HALT], code);
    FillCall([], MAIN, [HALT] + code, Table(p));
    assert [] + call == call;
    Assoc(call, [HALT], code);
    FillFs(p, HALT, Table(p), stub);
    FillAppend([CALL, 0, 0, HALT] + code, [Symbol(MAIN, 1)], sites, Table(p));
  }
}
