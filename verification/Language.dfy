/** The language of the compiler: whole programs, and exactly which token streams it accepts. */
module Language {
  import opened Common
  import opened Hbc
  import opened Source
  import opened Emission
  import opened Parser
  import opened Recognition
  import opened Statements
  import opened Programs
  import opened Completeness
  import opened Compilable
  import opened Ordering

  // ---------- functions ----------

  lemma HeaderSucceeds(s: Hc, f: Function)
    requires s.Valid() && !s.Failed() && Spelled(s.tokens, s.current, SpellF(f))
    ensures Expect(s, TkInt, -114) == s.(current := s.current + 1) && TokenName(s.tokens[s.current + 1]) == f.name
    ensures var s1 := s.(current := s.current + 1);
            && s1.Valid() && Peek(s1) == TkIdent(f.name)
            && Expect(Expect(Expect(s1, IDENT, -115), TkLParen, -116), TkRParen, -117) == s.(current := s.current + 4)
    ensures s.current + 4 < |s.tokens| && Spelled(s.tokens, s.current + 4, SpellBlock(f.body))
  {
    hide WellLexed, SpellBlock, Spelled, Expect;
    var head := [TkInt, TkIdent(f.name), TkLParen, TkRParen];
    SpelledSplit(s.tokens, s.current, head, SpellBlock(f.body));
    HeadTokens(s.tokens, s.current, f.name);
    Closes(s, TkInt, -114);
    var s1 := s.(current := s.current + 1);
    NameHere(s1, f.name);
    Closes(s.(current := s.current + 2), TkLParen, -116);
    Closes(s.(current := s.current + 3), TkRParen, -117);
  }

  lemma NameHere(s: Hc, n: Name)
    requires s.Valid() && Peek(s) == TkIdent(n)
    ensures Expect(s, IDENT, -115) == Advance(s)
  {
  }

  lemma HeadTokens(tokens: seq<Token>, at: nat, n: Name)
    requires Spelled(tokens, at, [TkInt, TkIdent(n), TkLParen, TkRParen])
    ensures at + 4 < |tokens| && tokens[at] == TkInt && tokens[at + 1] == TkIdent(n) && tokens[at + 2] == TkLParen
    ensures tokens[at + 3] == TkRParen
  {
    var toks := [TkInt, TkIdent(n), TkLParen, TkRParen];
    SpelledAt(tokens, at, toks, 0);
    SpelledAt(tokens, at, toks, 1);
    SpelledAt(tokens, at, toks, 2);
    SpelledAt(tokens, at, toks, 3);
  }

  /** The body and the implicit return. */
  lemma RestSucceeds(s: Hc, f: Function)
    requires s.Valid() && !s.Failed() && s.code != [] && s.locals == []
             && Spelled(s.tokens, s.current, SpellBlock(f.body))
    requires WellFormedF(f) && Ordered(f.body, [])
             && Room(s, SizeF(f, |s.code|, Last(s.code, 0)), |SitesSs(f.body, |s.code|)|)
    ensures !FunctionRest(s).0.Failed() && FunctionRest(s).1 == f.body
  {
    hide WellLexed, SpellBlock, Spelled, EmitSs, SitesSs, SizeSs, DeclaredSs, WellFormedSs, Ordered, BlockOf, Put;
    BlockSucceeds(s, f.body, DeclaredSs(f.body));
    BlockPassed(s, f.body);
    var s6 := BlockOf(s).0;
    BlockCode(s, f);
    if Last(s6.code, 0) != RET { PutFits(s6, EPILOGUE); }
  }

  lemma BlockCode(s: Hc, f: Function)
    requires s.Valid() && s.code != [] && s.locals == [] && !BlockOf(s).0.Failed() && BlockOf(s).1 == f.body
    ensures Last(BlockOf(s).0.code, 0) != RET <==> GetsEpilogue(f, |s.code|, Last(s.code, 0))
  {
    hide WellLexed, BlockOf, SpellBlock, EmitSs, SitesSs, DeclaredSs, WellFormedSs;
    var s6 := BlockOf(s).0;
    BlockCompiles(s, s6.locals);
    assert s6.locals == DeclaredSs(f.body);
    var code := EmitSs(f.body, |s.code|, DeclaredSs(f.body), []);
    assert s6.code == s.code + code;
  }

  /** A function definition that stands next, fits and is new is parsed as itself. */
  lemma FunctionSucceeds(s: Hc, f: Function)
    requires s.Valid() && !s.Failed() && s.code != [] && Spelled(s.tokens, s.current, SpellF(f))
    requires !Known(s.functions, f.name) && |s.functions| < MAX_FUNCTIONS && WellFormedF(f) && Ordered(f.body, [])
    requires Room(s, SizeF(f, |s.code|, Last(s.code, 0)), |SitesSs(f.body, |s.code|)|)
    ensures !FunctionDefinition(s).0.Failed() && FunctionDefinition(s).1 == f
  {
    hide WellLexed, SpellBlock, Spelled, SizeF, SitesSs, WellFormedF, Ordered, BlockOf, Put, Expect, Known,
      FunctionRest;
    HeaderSucceeds(s, f);
    var s4 := s.(current := s.current + 4);
    var s5 := s4.(functions := s4.functions + [Symbol(f.name, |s4.code|)], locals := []);
    RestSucceeds(s5, f);
    FunctionTurn(s, f, s4, s5);
  }

  lemma FunctionTurn(s: Hc, f: Function, s4: Hc, s5: Hc)
    requires s.Valid() && !s.Failed() && s4 == s.(current := s.current + 4) && s4.Valid()
    requires Expect(s, TkInt, -114) == s.(current := s.current + 1) && TokenName(s.tokens[s.current + 1]) == f.name
    requires Expect(Expect(Expect(s.(current := s.current + 1), IDENT, -115), TkLParen, -116), TkRParen, -117) == s4
    requires !Known(s.functions, f.name) && |s.functions| < MAX_FUNCTIONS && s5.Valid()
    requires s5 == s4.(functions := s4.functions + [Symbol(f.name, |s4.code|)], locals := [])
    ensures FunctionDefinition(s) == (FunctionRest(s5).0, Function(f.name, FunctionRest(s5).1))
  {
    hide WellLexed, BlockOf, Put, Expect, Known;
    assert AddFunction(s4, s.current + 1, |s4.code|).(locals := []) == s5;
  }

  // ---------- sequences of functions ----------

  lemma DefinitionsTurn(s: Hc, f: Function)
    requires s.Valid() && !s.Failed() && Peek(s) != TkEof && FunctionDefinition(s).1 == f
    ensures var (t, q) := Definitions(FunctionDefinition(s).0); Definitions(s) == (t, [f] + q)
  {
    hide WellLexed, FunctionDefinition;
  }

  lemma {:induction false} ProgramTokens(tokens: seq<Token>, at: nat, p: Program)
    requires p != [] && Spelled(tokens, at, SpellProgram(p))
    ensures Spelled(tokens, at, SpellF(p[0])) && Spelled(tokens, at + |SpellF(p[0])|, SpellProgram(p[1..]))
            && tokens[at] == TkInt
    ensures |SpellProgram(p)| == |SpellF(p[0])| + |SpellProgram(p[1..])|
  {
    SpelledSplit(tokens, at, SpellF(p[0]), SpellProgram(p[1..]));
    SpelledFirst(tokens, at, SpellF(p[0]));
  }

  /** What an accepted definition has done, in sizes. */
  lemma FunctionPassed(s: Hc, f: Function)
    requires s.Valid() && s.code != [] && !FunctionDefinition(s).0.Failed() && FunctionDefinition(s).1 == f
    ensures var (t, at) := (FunctionDefinition(s).0, |s.code|);
            && t.Valid() && t.tokens == s.tokens && t.current == s.current + |SpellF(f)| && t.code != []
            && |t.code| == at + SizeF(f, at, Last(s.code, 0)) && |t.calls| == |s.calls| + |SitesSs(f.body, at)|
            && t.functions == s.functions + [Symbol(f.name, at)] && Last(t.code, 0) == RET
  {
    hide WellLexed, SpellF, EmitF, SizeF, SitesSs, WellFormedF, Known, FunctionDefinition;
    FunctionCompiles(s);
  }

  lemma ProgramSizes(p: Program, at: nat, prev: byte)
    requires p != []
    ensures var next := at + SizeF(p[0], at, prev);
            && |EmitFs(p, at, prev, [])| == SizeF(p[0], at, prev) + |EmitFs(p[1..], next, RET, [])|
            && |SitesFs(p, at, prev)| == |SitesSs(p[0].body, at)| + |SitesFs(p[1..], next, RET)|
  {
    hide EmitF, SizeF, SitesSs;
  }

  /** The names defined behind a function are still new after it. */
  lemma StillNew(p: Program, fns: seq<Symbol>, f: Symbol)
    requires p != [] && Distinct(p) && f.name == p[0].name
    requires forall n :: Defined(p, n) ==> !Known(fns, n)
    ensures forall n :: Defined(p[1..], n) ==> !Known(fns + [f], n)
  {
    hide Known;
    forall n | Defined(p[1..], n) ensures !Known(fns + [f], n) {
      KnownAppend(fns, f, n);
      assert Defined(p, n);
    }
  }

  /** Definitions that stand next, up to the end marker, are parsed as themselves. */
  lemma {:induction false} DefinitionsSucceed(s: Hc, p: Program)
    requires s.Valid() && !s.Failed() && s.code != [] && Spelled(s.tokens, s.current, SpellProgram(p))
    requires s.tokens[s.current + |SpellProgram(p)|] == TkEof
    requires Distinct(p) && AllWellFormed(p) && AllOrdered(p) && |s.functions| + |p| <= MAX_FUNCTIONS
    requires forall n :: Defined(p, n) ==> !Known(s.functions, n)
    requires Room(s, |EmitFs(p, |s.code|, Last(s.code, 0), [])|, |SitesFs(p, |s.code|, Last(s.code, 0))|)
    ensures !Definitions(s).0.Failed() && Definitions(s).1 == p
    decreases |p|
  {
    hide WellLexed, SpellF, SpellProgram, Spelled, EmitFs, SitesFs, EmitF, SizeF, SitesSs, WellFormedF, Ordered, Known,
      FunctionDefinition, Last, Defined, Definitions;
    if p == [] {
      NoDefinitions(s);
    } else {
      var f, at, prev := p[0], |s.code|, Last(s.code, 0);
      ProgramTokens(s.tokens, s.current, p);
      ProgramSizes(p, at, prev);
      FirstIsNew(s.functions, p);
      FunctionSucceeds(s, f);
      FunctionPassed(s, f);
      DefinitionsTurn(s, f);
      StillNew(p, s.functions, Symbol(f.name, at));
      DefinitionsSucceed(FunctionDefinition(s).0, p[1..]);
      assert [f] + p[1..] == p;
    }
  }

  lemma FirstIsNew(fns: seq<Symbol>, p: Program)
    requires p != [] && forall n :: Defined(p, n) ==> !Known(fns, n)
    ensures !Known(fns, p[0].name)
  {
    assert Defined(p, p[0].name);
  }

  lemma NoDefinitions(s: Hc)
    requires s.Valid() && !s.Failed() && s.tokens[s.current + |SpellProgram([])|] == TkEof
    ensures Definitions(s) == (s, [])
  {
  }

  // ---------- call sites lie inside the code ----------

  predicate Within(sites: seq<Symbol>, end: nat) {
    forall k :: 0 <= k < |sites| ==> sites[k].address + 1 < end
  }

  lemma {:induction false} SitesInE(e: Expr, at: nat)
    ensures Within(SitesE(e, at), at + SizeE(e))
  {
    match e {
      case Paren(i) => SitesInE(i, at);
      case Neg(i) => SitesInE(i, at + 5);
      case Bin(_, l, r) => SitesInE(l, at); SitesInE(r, at + SizeE(l));
      case _ =>
    }
  }

  lemma {:induction false} SitesInS(s: Stmt, at: nat)
    ensures Within(SitesS(s, at), at + SizeS(s))
    decreases s, 0
  {
    hide SitesE, SizeE, Text;
    match s {
      case DeclareInit(_, e) => SitesInE(e, at);
      case Assign(_, e) => SitesInE(e, at);
      case Return(e) => SitesInE(e, at);
      case PrintExpr(e) => SitesInE(e, at);
      case If(c, t) => SitesInE(c, at); SitesInSs(t, at + SizeE(c) + 3);
      case IfElse(c, t, e) => SitesInElse(c, t, e, at);
      case While(c, b) => SitesInE(c, at); SitesInSs(b, at + SizeE(c) + 3);
      case Block(b) => SitesInSs(b, at);
      case _ =>
    }
  }

  lemma {:induction false} SitesInElse(c: Expr, t: Stmts, e: Stmts, at: nat)
    ensures Within(SitesS(IfElse(c, t, e), at), at + SizeS(IfElse(c, t, e)))
    decreases IfElse(c, t, e), -1
  {
    hide SitesE, SizeE, SitesS, SitesSs, SizeSs;
    SitesInE(c, at);
    SitesInSs(t, at + SizeE(c) + 3);
    SitesInSs(e, at + SizeE(c) + 3 + SizeSs(t) + 3);
    IfElseSites(at, c, t, e);
  }

  lemma {:induction false} SitesInSs(ss: Stmts, at: nat)
    ensures Within(SitesSs(ss, at), at + SizeSs(ss))
    decreases ss, 1
  {
    hide SitesS, SizeS;
    match ss {
      case Nil =>
      case Cons(h, t) => SitesInS(h, at); SitesInSs(t, at + SizeS(h));
    }
  }

  lemma {:induction false} SitesInFs(p: Program, at: nat, prev: byte)
    ensures Within(SitesFs(p, at, prev), at + |EmitFs(p, at, prev, [])|)
    decreases |p|
  {
    hide SitesSs, EmitSs, SizeSs;
    if p != [] {
      SitesInSs(p[0].body, at);
      SitesInFs(p[1..], at + SizeF(p[0], at, prev), RET);
    }
  }

  lemma {:induction false} PatchCallsSucceed(s: Hc, k: nat)
    requires s.Valid() && !s.Failed() && k <= |s.calls| && AllKnown(s.calls, s.functions) && Within(s.calls, |s.code|)
    ensures !PatchCalls(s, k).Failed()
    decreases |s.calls| - k
  {
    hide WellLexed, Known, Patch;
    if k < |s.calls| {
      PatchFits(s, s.calls[k].address, Address(s.functions, s.calls[k].name));
      PatchCallsSucceed(Patch(s, s.calls[k].address, Address(s.functions, s.calls[k].name)), k + 1);
    }
  }

  lemma {:induction false} EmitFsSize(p: Program, at: nat, prev: byte, fns: seq<Symbol>)
    ensures |EmitFs(p, at, prev, fns)| == |EmitFs(p, at, prev, [])|
    decreases |p|
  {
    hide EmitF;
    if p != [] { EmitFsSize(p[1..], at + SizeF(p[0], at, prev), RET, fns); }
  }

  // ---------- whole programs ----------

  predicate ShortNames(toks: seq<Token>) {
    forall k :: 0 <= k < |toks| && toks[k].TkIdent? ==> |toks[k].name| < NAME_SIZE
  }

  /** A proper program that fits the tables and declares its names before it uses them. */
  ghost predicate Admissible(p: Program) {
    && Proper(p) && AllOrdered(p) && |p| <= MAX_FUNCTIONS && |SitesFs(p, ENTRY_SIZE, HALT)| < MAX_CALLS
    && ShortNames(SpellProgram(p))
  }

  lemma ImageSize(p: Program)
    ensures |Image(p)| == ENTRY_SIZE + |EmitFs(p, ENTRY_SIZE, HALT, [])|
  {
    hide EmitFs, Table, Address, Encode;
    EmitFsSize(p, ENTRY_SIZE, HALT, Table(p));
  }

  lemma DefinitionsAccepted(p: Program, tokens: seq<Token>)
    requires Admissible(p) && tokens == SpellProgram(p) + [TkEof] && WellLexed(tokens)
    ensures !Definitions(Opening(tokens)).0.Failed() && Definitions(Opening(tokens)).1 == p
  {
    hide WellLexed, SpellProgram, EmitFs, SitesFs, Known, Defined, AllWellFormed, Distinct, AllOrdered, ShortNames,
      Image, CallsDefined;
    var s := Opening(tokens);
    ImageSize(p);
    assert tokens[0..|SpellProgram(p)|] == SpellProgram(p);
    assert Last(s.code, 0) == HALT;
    forall n ensures !Known(s.functions, n) { NoneKnown(n); }
    DefinitionsSucceed(s, p);
  }

  lemma NoneKnown(n: Name)
    ensures !Known([], n)
  {
  }

  /** Main result: such a program's spelling is accepted, as that program, and compiled to its image. */
  lemma CompilesToItself(p: Program)
    requires Admissible(p)
    ensures var tokens := SpellProgram(p) + [TkEof];
            WellLexed(tokens) && var (s, q) := CompileState(tokens); !s.Failed() && q == p && s.code == Image(p)
  {
    hide SpellProgram, EmitFs, SitesFs, Known, AllWellFormed, Distinct, AllOrdered, Image, Definitions, PatchCalls,
      WellLexed, Layout;
    var tokens := SpellProgram(p) + [TkEof];
    LexedShape(p);
    var s0 := Opening(tokens);
    DefinitionsAccepted(p, tokens);
    DefinitionsCompile(s0);
    var s1 := Definitions(s0).0;
    assert Last(s0.code, 0) == HALT;
    var sites := SitesFs(p, ENTRY_SIZE, HALT);
    SitesInFs(p, ENTRY_SIZE, HALT);
    assert s1.calls == [Symbol(MAIN, 1)] + sites && s1.functions == Table(p);
    forall k | 0 <= k < |s1.calls|
      ensures Known(s1.functions, s1.calls[k].name) && s1.calls[k].address + 1 < |s1.code| {
      if k > 0 { assert s1.calls[k] == sites[k - 1]; }
    }
    PatchCallsSucceed(s1, 0);
    CompilerEmitsImage(tokens);
  }

  // ---------- exactly ----------

  lemma {:induction false} LayoutLength(p: Program, at: nat, prev: byte)
    ensures |Layout(p, at, prev)| == |p|
    decreases |p|
  {
    hide SizeF;
    if p != [] { LayoutLength(p[1..], at + SizeF(p[0], at, prev), RET); }
  }

  /** What fitted into the tables. */
  lemma TablesHold(tokens: seq<Token>)
    requires WellLexed(tokens) && !CompileState(tokens).0.Failed()
    ensures var p := CompileState(tokens).1;
            |p| <= MAX_FUNCTIONS && |SitesFs(p, ENTRY_SIZE, HALT)| < MAX_CALLS && AllOrdered(p)
  {
    hide Definitions, PatchCalls, EmitFs, SitesFs, Layout, WellLexed, SpellProgram, Known, AllOrdered, AllWellFormed,
      Distinct;
    var s0 := Opening(tokens);
    var (s1, p) := Definitions(s0);
    DefinitionsCompile(s0);
    DefinitionsOrdered(s0);
    assert Last(s0.code, 0) == HALT;
    LayoutLength(p, ENTRY_SIZE, HALT);
  }

  predicate EndsOnce(tokens: seq<Token>) {
    forall k :: 0 <= k < |tokens| - 1 ==> tokens[k] != TkEof
  }

  lemma AcceptedIsAdmissible(tokens: seq<Token>)
    requires WellLexed(tokens) && EndsOnce(tokens) && !CompileState(tokens).0.Failed()
    ensures var p := CompileState(tokens).1; Admissible(p) && tokens == SpellProgram(p) + [TkEof]
  {
    hide CompileState, SpellProgram, SitesFs, Image, Proper, AllOrdered;
    CompilerEmitsImage(tokens);
    TablesHold(tokens);
    var (s, p) := CompileState(tokens);
    assert s.current == |tokens| - 1;
    assert tokens == SpellProgram(p) + [TkEof];
    forall k | 0 <= k < |SpellProgram(p)| && SpellProgram(p)[k].TkIdent? ensures |SpellProgram(p)[k].name| < NAME_SIZE {
      assert tokens[k] == SpellProgram(p)[k];
    }
  }

  /** Main result: the token streams that the compiler accepts are exactly the spellings of admissible programs. */
  lemma CompilerAcceptsExactly(tokens: seq<Token>)
    requires WellLexed(tokens) && EndsOnce(tokens)
    ensures !CompileState(tokens).0.Failed() <==> exists p :: Admissible(p) && tokens == SpellProgram(p) + [TkEof]
  {
    hide CompileState, SpellProgram, Admissible, WellLexed, EndsOnce;
    if !CompileState(tokens).0.Failed() { AcceptedIsAdmissible(tokens); }
    if p: Program :| Admissible(p) && tokens == SpellProgram(p) + [TkEof] { CompilesToItself(p); }
  }

  /** No two admissible programs are spelled alike. */
  lemma SpellingIsUnambiguous(p: Program, q: Program)
    requires Admissible(p) && Admissible(q) && SpellProgram(p) == SpellProgram(q)
    ensures p == q
  {
    hide CompileState, SpellProgram, Admissible, Image;
    CompilesToItself(p);
    CompilesToItself(q);
  }

  lemma LexedShape(p: Program)
    requires ShortNames(SpellProgram(p))
    ensures WellLexed(SpellProgram(p) + [TkEof])
  {
    hide SpellProgram;
  }
}
