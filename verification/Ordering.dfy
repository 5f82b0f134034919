/** What is accepted declares its names before it uses them. */
module Ordering {
  import opened Hbc
  import opened Source
  import opened Emission
  import opened Parser
  import opened Recognition
  import opened Statements
  import opened Programs
  import opened Compilable

  predicate Compound(st: Stmt) { st.If? || st.IfElse? || st.While? || st.Block? }

  predicate Declares(st: Stmt) { st.Declare? || st.DeclareInit? }

  lemma DeclaredAdded(s: Hc)
    requires s.Valid() && !DeclareStatement(s).0.Failed()
    ensures Declares(DeclareStatement(s).1) && DeclareStatement(s).1.name == TokenName(Peek(s))
    ensures !AddLocal(Expect(s, IDENT, -80), s.current).Failed()
  {
    hide WellLexed, Expect, Expression, Put, Encode, AddLocal, Slot;
  }

  /** A declaration that is accepted is of a new name. */
  lemma DeclaredIsNew(s: Hc)
    requires s.Valid() && Peek(s) == TkInt && !Statement(s).0.Failed()
    ensures var st := Statement(s).1; Declares(st) && st.name !in s.locals
  {
    hide WellLexed, Expect, DeclareStatement, Declares;
    var s1 := Advance(s);
    assert Statement(s) == DeclareStatement(s1);
    hide Statement;
    DeclaredAdded(s1);
  }

  /** Without blocks inside, well formed with the names declared by its end is ordered. */
  lemma SimpleOrdered(st: Stmt, locals: seq<Name>)
    requires !Compound(st) && WellFormedS(st, locals + DeclaredS(st)) && (Declares(st) ==> st.name !in locals)
    ensures OrderedS(st, locals)
  {
    hide BoundE, IsExpression;
    assert locals + [] == locals;
  }

  /** The statement found begins with the token inspected. */
  lemma Begun(s: Hc)
    requires s.Valid() && !Statement(s).0.Failed()
    ensures Peek(s) == SpellS(Statement(s).1)[0]
  {
    hide WellLexed, Statement, SpellS, EmitS, SitesS, WellFormedS, DeclaredS;
    StatementCompiles(s, Statement(s).0.locals);
    var t := Statement(s).0;
    assert s.tokens[s.current..t.current][0] == s.tokens[s.current];
  }

  lemma FirstTells(st: Stmt)
    ensures SpellS(st)[0] == TkIf <==> st.If? || st.IfElse?
    ensures SpellS(st)[0] == TkWhile <==> st.While?
    ensures SpellS(st)[0] == TkLBrace <==> st.Block?
    ensures SpellS(st)[0] == TkInt <==> Declares(st)
  {
  }

  lemma {:induction false} StatementOrdered(s: Hc)
    requires s.Valid() && !Statement(s).0.Failed()
    ensures OrderedS(Statement(s).1, s.locals)
    decreases s.Left(), 1, 0
  {
    hide WellLexed, Expect, Ordered, IfStatement, WhileStatement, StatementList, DeclareStatement, ReturnStatement,
      WriteStatement, PrintStatement, SleepStatement, GpioStatement, NameStatement, SpellS;
    Begun(s);
    FirstTells(Statement(s).1);
    if Peek(s) == TkIf {
      IfOrdered(Advance(s));
    } else if Peek(s) == TkWhile {
      WhileOrdered(Advance(s), |s.code|);
    } else if Peek(s) == TkLBrace {
      ListOrdered(Advance(s));
    } else {
      if Peek(s) == TkInt { DeclaredIsNew(s); }
      SimpleIsOrdered(s);
    }
  }

  lemma SimpleIsOrdered(s: Hc)
    requires s.Valid() && !Statement(s).0.Failed()
    requires var st := Statement(s).1; !Compound(st) && (Declares(st) ==> st.name !in s.locals)
    ensures OrderedS(Statement(s).1, s.locals)
  {
    hide WellLexed, Statement, SpellS, EmitS, SitesS, WellFormedS, DeclaredS, OrderedS;
    StatementCompiles(s, Statement(s).0.locals);
    SimpleOrdered(Statement(s).1, s.locals);
  }

  lemma GuardOrdered(s: Hc, error1: int, error2: int)
    requires s.Valid()
    requires !PutJump(Expect(Expression(Expect(s, TkLParen, error1)).0, TkRParen, error2), JZ).Failed()
    ensures var (s1, c) := Expression(Expect(s, TkLParen, error1)); var g := PutJump(Expect(s1, TkRParen, error2), JZ);
            g.Valid() && g.locals == s.locals && BoundE(c, s.locals) && g.Left() < s.Left()
  {
    hide WellLexed, SpellE, EmitE, SitesE, BoundE, IsExpression, SameKind, Put, Expression;
    GuardCompiles(s, error1, error2, s.locals);
  }

  lemma {:induction false} IfOrdered(s: Hc)
    requires s.Valid() && !IfStatement(s).0.Failed()
    ensures OrderedS(IfStatement(s).1, s.locals)
    decreases s.Left(), 1, 4
  {
    hide WellLexed, Expect, Ordered, Expression, BlockOf, Patch, PutJump, BoundE, DeclaredSs;
    var (s1, c) := Expression(Expect(s, TkLParen, -83));
    var s2 := Expect(s1, TkRParen, -84);
    var g := PutJump(s2, JZ);
    var (s3, t) := BlockOf(g);
    GuardOrdered(s, -83, -84);
    BlockOrdered(g);
    if Peek(s3) == TkElse {
      var s5 := PutJump(Advance(s3), JMP);
      BlockPassed(g, t);
      BlockOrdered(Patch(s5, HoleAt(s2), |s5.code|));
    }
  }

  lemma {:induction false} WhileOrdered(s: Hc, start: nat)
    requires s.Valid() && !WhileStatement(s, start).0.Failed()
    ensures OrderedS(WhileStatement(s, start).1, s.locals)
    decreases s.Left(), 1, 4
  {
    hide WellLexed, Expect, Ordered, Expression, BlockOf, Patch, PutJump, BoundE, HalfBytes, Put;
    var g := PutJump(Expect(Expression(Expect(s, TkLParen, -85)).0, TkRParen, -86), JZ);
    GuardOrdered(s, -85, -86);
    BlockOrdered(g);
  }

  lemma {:induction false} BlockOrdered(s: Hc)
    requires s.Valid() && !BlockOf(s).0.Failed()
    ensures Ordered(BlockOf(s).1, s.locals)
    decreases s.Left(), 1, 3
  {
    hide WellLexed, Expect, Ordered, StatementList;
    ListOrdered(Expect(s, TkLBrace, -112));
  }

  lemma {:induction false} ListOrdered(s: Hc)
    requires s.Valid() && !StatementList(s).0.Failed()
    ensures Ordered(StatementList(s).1, s.locals)
    decreases s.Left(), if s.Failed() then 0 else 1, 2
  {
    hide WellLexed, OrderedS, Statement, DeclaredS;
    if Peek(s) != TkRBrace && Peek(s) != TkEof {
      var (s1, h) := Statement(s);
      StatementOrdered(s);
      StatementPassed(s, h);
      ListOrdered(s1);
    }
  }

  lemma FunctionOrdered(s: Hc)
    requires s.Valid() && !FunctionDefinition(s).0.Failed()
    ensures Ordered(FunctionDefinition(s).1.body, [])
  {
    hide WellLexed, Expect, Ordered, BlockOf, FunctionDefinition, Known, Put;
    var s1 := Expect(s, TkInt, -114);
    var name := TokenName(Peek(s1));
    var s4 := Expect(Expect(Expect(s1, IDENT, -115), TkLParen, -116), TkRParen, -117);
    var s5 := s4.(functions := s4.functions + [Symbol(name, |s4.code|)], locals := []);
    DefinitionParts(s, s1, s4, s5, name);
    BlockOrdered(s5);
  }

  predicate AllOrdered(p: Program) {
    forall k :: 0 <= k < |p| ==> Ordered(p[k].body, [])
  }

  lemma {:induction false} DefinitionsOrdered(s: Hc)
    requires s.Valid() && !Definitions(s).0.Failed()
    ensures AllOrdered(Definitions(s).1)
    decreases s.Left(), if s.Failed() then 0 else 1
  {
    hide WellLexed, Ordered, FunctionDefinition;
    if Peek(s) != TkEof {
      FunctionOrdered(s);
      DefinitionsOrdered(FunctionDefinition(s).0);
    }
  }
}
