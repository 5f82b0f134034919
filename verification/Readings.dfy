/** What source texts do, from their tokens to the events of the machine, with the meaning written out as
    arithmetic: operators, precedence, loops, branches, calls and console lines. */
module Readings {
  import opened Common
  import opened Hbc
  import opened Machine
  import opened Source
  import opened Emission
  import opened Lexer
  import P = Parser
  import opened Compilable
  import opened Ordering
  import opened Programs
  import opened Acceptance
  import opened Simulation
  import opened Toolchain
  import opened Language
  import opened Frontend
  import W = Witnesses
  import N = Instructions

  // ---------- a source and its end ----------

  /** The text is no longer than a source may be and has these tokens, however they are laid out. */
  predicate Reads(source: seq<byte>, ts: seq<Token>) {
    0 < |source| < 300 && Lex(source).Lexemes? && TokensOf(Lex(source).all) == ts + [TkEof]
  }

  /** The text compiles, and the machine, started on the image, ends like this. */
  ghost predicate Ends(source: seq<byte>, gpio: nat -> bool, r: Outcome) {
    && !r.Running? && Compilation(source).Built?
    && exists n: nat :: Run(Compilation(source).image, RESET, gpio, n) == r
  }

  const OPEN: seq<Token> := [TkInt, TkIdent([109, 97, 105, 110]), TkLParen, TkRParen, TkLBrace]

  function Main(body: Stmts): Program { [Function(MAIN, body)] }

  /** A body that stands for itself: well formed, small enough, without calls, and not ending like a return. */
  predicate Plain(body: Stmts) {
    && WellFormedSs(body, DeclaredSs(body)) && |DeclaredSs(body)| <= 8 && SizeSs(body) <= 246 && Ordered(body, [])
    && CallsOnly(body, {}) && !EndsRet(body, false)
  }

  lemma {:induction false} NoCallsE(e: Expr, at: nat)
    requires CallsOnlyE(e, {})
    ensures SitesE(e, at) == []
    decreases e
  {
    match e
    case Paren(i) => NoCallsE(i, at);
    case Neg(i) => NoCallsE(i, at + 5);
    case Bin(_, l, r) => NoCallsE(l, at); NoCallsE(r, at + SizeE(l));
    case _ =>
  }

  lemma {:induction false} NoCallsS(s: Stmt, at: nat)
    requires CallsOnlyS(s, {})
    ensures SitesS(s, at) == []
    decreases s, 0
  {
    match s
    case DeclareInit(_, e) => NoCallsE(e, at);
    case Assign(_, e) => NoCallsE(e, at);
    case Return(e) => NoCallsE(e, at);
    case PrintExpr(e) => NoCallsE(e, at);
    case If(c, t) => NoCallsE(c, at); NoCalls(t, at + SizeE(c) + 3);
    case IfElse(c, t, e) =>
      NoCallsE(c, at);
      NoCalls(t, at + SizeE(c) + 3);
      NoCalls(e, at + SizeE(c) + 3 + SizeSs(t) + 3);
    case While(c, b) => NoCallsE(c, at); NoCalls(b, at + SizeE(c) + 3);
    case Block(b) => NoCalls(b, at);
    case _ =>
  }

  lemma {:induction false} NoCalls(ss: Stmts, at: nat)
    requires CallsOnly(ss, {})
    ensures SitesSs(ss, at) == []
    decreases ss, 1
  {
    match ss
    case Nil =>
    case Cons(h, t) => NoCallsS(h, at); NoCalls(t, at + SizeS(h));
  }

  lemma {:induction false} CallsMoreE(e: Expr, a: set<Name>, b: set<Name>)
    requires a <= b && CallsOnlyE(e, a)
    ensures CallsOnlyE(e, b)
    decreases e
  {
    match e
    case Paren(i) => CallsMoreE(i, a, b);
    case Neg(i) => CallsMoreE(i, a, b);
    case Bin(_, l, r) => CallsMoreE(l, a, b); CallsMoreE(r, a, b);
    case _ =>
  }

  lemma {:induction false} CallsMoreS(s: Stmt, a: set<Name>, b: set<Name>)
    requires a <= b && CallsOnlyS(s, a)
    ensures CallsOnlyS(s, b)
    decreases s, 0
  {
    match s
    case DeclareInit(_, e) => CallsMoreE(e, a, b);
    case Assign(_, e) => CallsMoreE(e, a, b);
    case Return(e) => CallsMoreE(e, a, b);
    case PrintExpr(e) => CallsMoreE(e, a, b);
    case If(c, t) => CallsMoreE(c, a, b); CallsMore(t, a, b);
    case IfElse(c, t, e) => CallsMoreE(c, a, b); CallsMore(t, a, b); CallsMore(e, a, b);
    case While(c, t) => CallsMoreE(c, a, b); CallsMore(t, a, b);
    case Block(t) => CallsMore(t, a, b);
    case _ =>
  }

  lemma {:induction false} CallsMore(ss: Stmts, a: set<Name>, b: set<Name>)
    requires a <= b && CallsOnly(ss, a)
    ensures CallsOnly(ss, b)
    decreases ss, 1
  {
    match ss
    case Nil =>
    case Cons(h, t) => CallsMoreS(h, a, b); CallsMore(t, a, b);
  }

  /** What is asked of a list of statements, for its first one and for the rest. */
  lemma Headed(h: Stmt, t: Stmts, names: seq<Name>, locals: seq<Name>, prev: bool, calls: set<Name>)
    ensures var ss := Cons(h, t);
            && SpellSs(ss) == SpellS(h) + SpellSs(t) && DeclaredSs(ss) == DeclaredS(h) + DeclaredSs(t)
            && SizeSs(ss) == SizeS(h) + SizeSs(t)
            && (WellFormedSs(ss, names) <==> WellFormedS(h, names) && WellFormedSs(t, names))
            && (Ordered(ss, locals) <==> OrderedS(h, locals) && Ordered(t, locals + DeclaredS(h)))
            && (CallsOnly(ss, calls) <==> CallsOnlyS(h, calls) && CallsOnly(t, calls))
            && (EndsRet(ss, prev) <==> EndsRet(t, EndsRetS(h, prev)))
  {
    hide SpellS, DeclaredS, SizeS, WellFormedS, OrderedS, CallsOnlyS, EndsRetS;
  }

  lemma Headless(names: seq<Name>, locals: seq<Name>, prev: bool, calls: set<Name>)
    ensures SpellSs(Nil) == [] && DeclaredSs(Nil) == [] && SizeSs(Nil) == 0 && WellFormedSs(Nil, names)
            && Ordered(Nil, locals) && CallsOnly(Nil, calls) && (EndsRet(Nil, prev) <==> prev)
  {
  }

  /** A body of one statement. */
  lemma Single(s: Stmt, names: seq<Name>, locals: seq<Name>, prev: bool, calls: set<Name>)
    ensures var ss := Cons(s, Nil);
            && SpellSs(ss) == SpellS(s) && DeclaredSs(ss) == DeclaredS(s) && SizeSs(ss) == SizeS(s)
            && (WellFormedSs(ss, names) <==> WellFormedS(s, names)) && (Ordered(ss, locals) <==> OrderedS(s, locals))
            && (CallsOnly(ss, calls) <==> CallsOnlyS(s, calls)) && (EndsRet(ss, prev) <==> EndsRetS(s, prev))
  {
    hide SpellS, DeclaredS, SizeS, WellFormedS, OrderedS, CallsOnlyS, EndsRetS, SpellSs, DeclaredSs, SizeSs,
      WellFormedSs, Ordered, CallsOnly, EndsRet;
    Headed(s, Nil, names, locals, prev, calls);
    Headless(names, locals + DeclaredS(s), EndsRetS(s, prev), calls);
  }

  lemma PlainIsProper(body: Stmts)
    requires Plain(body)
    ensures var p := Main(body);
            Proper(p) && AllOrdered(p) && SitesFs(p, ENTRY_SIZE, HALT) == [] && AllTerminated(p, true, {MAIN})
  {
    hide WellFormedSs, Ordered, CallsOnly, EndsRet, SizeSs, EmitSs, DeclaredSs, Encode, SitesSs, AlwaysReturns;
    var p := Main(body);
    assert p[1..] == [];
    NoCalls(body, ENTRY_SIZE);
    CallsMore(body, {}, {MAIN});
    assert WellFormedF(p[0]);
    assert Layout(p[1..], ENTRY_SIZE + SizeF(p[0], ENTRY_SIZE, HALT), RET) == [];
    assert Table(p) == [Symbol(MAIN, ENTRY_SIZE)];
    assert SitesFs(p[1..], ENTRY_SIZE + SizeF(p[0], ENTRY_SIZE, HALT), RET) == [];
    ImageOfMain(body);
    hide Image;
    assert SitesFs(p, ENTRY_SIZE, HALT) == [];
    assert AllTerminated(p, true, {MAIN}) && AllOrdered(p);
    assert AllWellFormed(p) && Distinct(p);
    assert CallsDefined(p);
  }

  lemma ImageOfMain(body: Stmts)
    requires SizeSs(body) <= 246
    ensures |Image(Main(body))| <= 256
  {
    hide SizeSs, GetsEpilogue, EmitF, Table, SizeF, Address;
    var p, fns := Main(body), Table(Main(body));
    assert p[1..] == [];
    assert EmitFs(p[1..], ENTRY_SIZE + SizeF(p[0], ENTRY_SIZE, HALT), RET, fns) == [];
    assert |EmitF(p[0], ENTRY_SIZE, HALT, fns)| <= 252 by { MainSize(body); }
    assert |EmitFs(p, ENTRY_SIZE, HALT, fns)| <= 252;
    hide EmitFs;
  }

  lemma MainSize(body: Stmts)
    ensures SizeF(Function(MAIN, body), ENTRY_SIZE, HALT) <= SizeSs(body) + 6
  {
  }

  lemma MainSpelled(body: Stmts)
    ensures SpellProgram(Main(body)) == OPEN + SpellSs(body) + [TkRBrace]
  {
    hide SpellSs;
    assert Main(body)[1..] == [];
    assert SpellProgram([]) == [];
  }

  /** Every short printing of tokens is such a text, so the statements below are about real sources. */
  lemma PrintedReads(ts: seq<Token>)
    requires AllSpellable(ts) && |ts| < 80 && 0 < |Print(ts)| < 300
    ensures Reads(Print(ts), ts)
  {
    hide Lex, Print, AllSpellable;
    PrintedTokensAreLexed(ts);
  }

  lemma LexedNames(source: seq<byte>, ts: seq<Token>)
    requires Reads(source, ts)
    ensures ShortNames(ts) && P.WellLexed(ts + [TkEof])
  {
    hide Lex, Legal;
    LexedWell(source);
    var all := Lex(source).all;
    forall k | 0 <= k < |ts| && ts[k].TkIdent? ensures |ts[k].name| < P.NAME_SIZE {
      assert TokensOf(all)[k] == ts[k];
      LegalName(all[k].token);
    }
  }

  /** A source that spells a program of terminated functions ends as the program means. */
  lemma SourceEnds(source: seq<byte>, p: Program, names: set<Name>, gpio: nat -> bool, r: Outcome)
    requires Reads(source, SpellProgram(p)) && Proper(p) && AllOrdered(p) && |p| <= 6
    requires |SitesFs(p, ENTRY_SIZE, HALT)| < 12 && MAIN in names && AllTerminated(p, true, names)
    requires Means(p, gpio, r)
    ensures Ends(source, gpio, r)
  {
    hide Lex, SpellSs, Proper, AllOrdered, SitesFs, Image, Run, P.CompileState, SpellProgram, P.WellLexed,
      AllTerminated, Sealed, Means, ShortNames;
    LexedNames(source, SpellProgram(p));
    LexedWell(source);
    CompilesToItself(p);
    assert Compilation(source) == Built(Image(p));
    SealedExactly(p, names);
    MachineMatchesMeaning(p, gpio, names, r);
  }

  /** A source that spells a plain main ends as main's body means. */
  lemma PlainSourceEnds(source: seq<byte>, body: Stmts, gpio: nat -> bool, r: Outcome)
    requires Reads(source, OPEN + SpellSs(body) + [TkRBrace]) && Plain(body) && Means(Main(body), gpio, r)
    ensures Ends(source, gpio, r)
  {
    hide Lex, SpellSs, Proper, Plain, AllOrdered, SitesFs, SpellProgram, AllTerminated, Means, Ends;
    PlainIsProper(body);
    MainSpelled(body);
    SourceEnds(source, Main(body), {MAIN}, gpio, r);
  }

  // ---------- printed values ----------

  function Show(e: Expr): Stmts { Cons(PrintExpr(e), Nil) }

  /** `int main() { print(e); }` prints the value of e, or stops where e does. */
  lemma PrintedValue(source: seq<byte>, e: Expr, gpio: nat -> bool)
    requires Reads(source, OPEN + ([TkPrint, TkLParen] + SpellE(e) + [TkRParen, TkSemi]) + [TkRBrace])
    requires exists size: nat :: size <= 240 && Standing(e, size, 0)
    ensures var f := ValueOf(Main(Show(e)), e, 0, gpio);
            && (f.Gave? ==> Ends(source, gpio, Exited(f.trace + [Printed(f.v)])))
            && (f.Stuck? ==> Ends(source, gpio, Trapped(f.cause, f.trace)))
  {
    hide Lex, SpellE, Reads, Ends, Standing, Plain, ValueOf, Means;
    var body, p := Show(e), Main(Show(e));
    var f := ValueOf(p, e, 0, gpio);
    assert SpellSs(body) == [TkPrint, TkLParen] + SpellE(e) + [TkRParen, TkSemi] by { ShowSpelled(e); }
    ShowIsPlain(e);
    MeaningOfShow(e, gpio);
    if f.Gave? { PlainSourceEnds(source, body, gpio, Exited(f.trace + [Printed(f.v)])); }
    if f.Stuck? { PlainSourceEnds(source, body, gpio, Trapped(f.cause, f.trace)); }
  }

  lemma ShowSpelled(e: Expr)
    ensures SpellSs(Show(e)) == [TkPrint, TkLParen] + SpellE(e) + [TkRParen, TkSemi]
  {
    hide SpellE, SpellSs;
    Single(PrintExpr(e), [], [], false, {});
  }

  lemma ShowIsPlain(e: Expr)
    requires exists size: nat :: size <= 240 && Standing(e, size, 0)
    ensures Plain(Show(e))
  {
    hide IsExpression, BoundE, CallsOnlyE, SizeE, SpellSs, DeclaredSs, SizeSs, WellFormedSs, Ordered, CallsOnly,
      EndsRet;
    Single(PrintExpr(e), [], [], false, {});
  }

  lemma MeaningOfShow(e: Expr, gpio: nat -> bool)
    ensures var p := Main(Show(e)); var f := ValueOf(p, e, 0, gpio);
            && (f.Gave? ==> Means(p, gpio, Exited(f.trace + [Printed(f.v)])))
            && (f.Stuck? ==> Means(p, gpio, Trapped(f.cause, f.trace)))
  {
    hide Eval;
    var p := Main(Show(e));
    var f := ValueOf(p, e, 0, gpio);
    assert BodyOf(p, MAIN) == Show(e);
    var after := Exec(p, PrintExpr(e), map[], 0, 1, [], gpio, 0);
    assert after == if f.Gave? then Went(map[], f.trace + [Printed(f.v)]) else f;
    assert after.Went? ==> ExecAll(p, Nil, map[], 0, 1, after.trace, gpio, 0) == after;
    assert ExecAll(p, Show(e), map[], 0, 1, [], gpio, 0) == after;
    assert ExecAll(p, BodyOf(p, MAIN), map[], 0, 1, [], gpio, 0) == after;
    assert Invoke(p, MAIN, 0, 0, [], gpio, 1) == if f.Gave? then Gave(0, f.trace + [Printed(f.v)]) else f;
    assert Behaviour(p, gpio, 1) == if f.Gave? then Gave(0, f.trace + [Printed(f.v)]) else f;
  }

  // ---------- operators and their precedence ----------

  /** The ten operators, in the order of their opcodes from 4 on. */
  const SIGNS: seq<Token> := [TkPlus, TkMinus, TkStar, TkSlash, TkLt, TkLe, TkGt, TkGe, TkEq, TkNe]

  const OPERATORS: seq<BinOp> := [Add, Sub, Mul, Div, Lt, Le, Gt, Ge, Eq, Ne]

  function Operator(k: nat): BinOp
    requires k < 10
  {
    OPERATORS[k]
  }

  function Opcode(k: nat): byte
    requires k < 10
  {
    4 + k
  }

  /** How tightly the k-th operator binds. */
  function Rank(k: nat): nat { if k in {2, 3} then 2 else if k in {0, 1} then 1 else 0 }

  /** v is the value of `a j b`; a division by zero has none. */
  predicate Value2(j: nat, a: i32, b: i32, v: i32)
    requires j < 10
  {
    N.Gives(Opcode(j), a, b, v)
  }

  /** v is the value of `a j b k c`, the tighter operator first and equal ones from the left. */
  predicate Value3(j: nat, k: nat, a: i32, b: i32, c: i32, v: i32)
    requires j < 10 && k < 10
  {
    if Rank(j) < Rank(k) then exists w: i32 :: Value2(k, b, c, w) && Value2(j, a, w, v)
    else exists w: i32 :: Value2(j, a, b, w) && Value2(k, w, c, v)
  }

  /** The source prints this and ends. */
  ghost predicate Prints(source: seq<byte>, gpio: nat -> bool, v: i32) {
    Ends(source, gpio, Exited([Printed(v)]))
  }

  lemma Applied(k: nat, l: i32, r: i32)
    requires k < 10
    ensures var v := Apply(Operator(k), l, r);
            (v == ZeroDivisor <==> k == 3 && r == 0) && (v.Value? ==> Value2(k, l, r, v.v))
    ensures OpToken(Operator(k)) == SIGNS[k]
  {
    hide N.Gives, Apply;
    N.ApplyGives(Opcode(k), l, r);
  }

  /** `print(a j b)`. */
  lemma TwoOperands(source: seq<byte>, j: nat, a: i32, b: i32, gpio: nat -> bool)
    requires j < 10
    requires Reads(source, OPEN + [TkPrint, TkLParen, TkNumber(a), SIGNS[j], TkNumber(b), TkRParen, TkSemi, TkRBrace])
    ensures if j == 3 && b == 0 then Ends(source, gpio, Trapped(DivideByZero, []))
            else exists v: i32 :: Value2(j, a, b, v) && Prints(source, gpio, v)
  {
    hide Lex, Reads, Ends, Value2, Apply, ValueOf, Standing;
    StandingPair(j, a, b);
    var e := Bin(Operator(j), Num(a), Num(b));
    Applied(j, a, b);
    assert OPEN + [TkPrint, TkLParen, TkNumber(a), SIGNS[j], TkNumber(b), TkRParen, TkSemi, TkRBrace] ==
           OPEN + ([TkPrint, TkLParen] + SpellE(e) + [TkRParen, TkSemi]) + [TkRBrace];
    PrintedValue(source, e, gpio);
    var x := Apply(Operator(j), a, b);
    LiteralValue(Main(Show(e)), a, 0, gpio);
    LiteralValue(Main(Show(e)), b, 1, gpio);
    BinaryValue(Main(Show(e)), Operator(j), Num(a), Num(b), 0, gpio);
    if x.Value? {
      assert [] + [Printed(x.v)] == [Printed(x.v)];
      assert Value2(j, a, b, x.v) && Prints(source, gpio, x.v);
    }
  }

  /** The tree that `a j b k c` must be read as. */
  function Tree(j: nat, k: nat, a: i32, b: i32, c: i32): Expr
    requires j < 10 && k < 10
  {
    if Rank(j) < Rank(k) then Bin(Operator(j), Num(a), Bin(Operator(k), Num(b), Num(c)))
    else Bin(Operator(k), Bin(Operator(j), Num(a), Num(b)), Num(c))
  }

  lemma TreeSpelled(j: nat, k: nat, a: i32, b: i32, c: i32)
    requires j < 10 && k < 10
    ensures SpellE(Tree(j, k, a, b, c)) == [TkNumber(a), SIGNS[j], TkNumber(b), SIGNS[k], TkNumber(c)]
  {
    hide OpToken;
    Applied(j, a, b);
    Applied(k, b, c);
    var x, y := Bin(Operator(j), Num(a), Num(b)), Bin(Operator(k), Num(b), Num(c));
    assert SpellE(x) == [TkNumber(a), SIGNS[j], TkNumber(b)] && SpellE(y) == [TkNumber(b), SIGNS[k], TkNumber(c)];
  }

  lemma RankOf(k: nat)
    requires k < 10
    ensures (Rank(k) == 2 <==> IsMulOp(Operator(k))) && (Rank(k) == 1 <==> IsAddOp(Operator(k)))
  {
  }

  /** The expression stands for itself, of this size and at least this rank. */
  predicate Standing(e: Expr, size: nat, rank: nat) {
    && BoundE(e, []) && CallsOnlyE(e, {}) && SizeE(e) == size && IsExpression(e)
    && (rank >= 1 ==> IsTerm(e)) && (rank >= 2 ==> IsFactor(e)) && (rank >= 3 ==> IsPrimary(e))
  }

  lemma StandingNumber(v: i32)
    ensures Standing(Num(v), 5, 3)
  {
    assert IsPrimary(Num(v)) && IsFactor(Num(v)) && IsTerm(Num(v));
  }

  lemma StandingBinary(k: nat, l: Expr, r: Expr, m: nat, n: nat)
    requires k < 10 && (Standing(l, m, if Rank(k) == 0 then 1 else Rank(k))) && Standing(r, n, Rank(k) + 1)
    ensures Standing(Bin(Operator(k), l, r), m + n + 1, Rank(k))
  {
    var e := Bin(Operator(k), l, r);
    RankOf(k);
    hide Rank, IsMulOp, IsAddOp, Operator;
    assert Rank(k) <= 2 by { RankOf(k); }
    if Rank(k) == 2 { assert IsFactor(e); }
    if Rank(k) >= 1 { assert IsTerm(e); }
    assert IsExpression(e);
    assert Rank(k) == 2 ==> IsFactor(e);
  }

  lemma TreeIsStanding(j: nat, k: nat, a: i32, b: i32, c: i32)
    requires j < 10 && k < 10 && Rank(j) + Rank(k) > 0
    ensures Standing(Tree(j, k, a, b, c), 17, 0)
  {
    hide Standing, Operator;
    StandingNumber(a);
    StandingNumber(b);
    StandingNumber(c);
    if Rank(j) < Rank(k) {
      Looser(Num(b), 5, 3, Rank(k));
      Looser(Num(c), 5, 3, Rank(k) + 1);
      StandingBinary(k, Num(b), Num(c), 5, 5);
      var y := Bin(Operator(k), Num(b), Num(c));
      Looser(y, 11, Rank(k), Rank(j) + 1);
      Looser(Num(a), 5, 3, if Rank(j) == 0 then 1 else Rank(j));
      StandingBinary(j, Num(a), y, 5, 11);
      Looser(Tree(j, k, a, b, c), 17, Rank(j), 0);
    } else {
      Looser(Num(a), 5, 3, Rank(j));
      Looser(Num(b), 5, 3, Rank(j) + 1);
      StandingBinary(j, Num(a), Num(b), 5, 5);
      var x := Bin(Operator(j), Num(a), Num(b));
      Looser(x, 11, Rank(j), if Rank(k) == 0 then 1 else Rank(k));
      Looser(Num(c), 5, 3, Rank(k) + 1);
      StandingBinary(k, x, Num(c), 11, 5);
      Looser(Tree(j, k, a, b, c), 17, Rank(k), 0);
    }
  }

  lemma StandingPair(j: nat, a: i32, b: i32)
    requires j < 10
    ensures Standing(Bin(Operator(j), Num(a), Num(b)), 11, 0)
  {
    hide Standing, Operator;
    StandingNumber(a);
    StandingNumber(b);
    Looser(Num(a), 5, 3, if Rank(j) == 0 then 1 else Rank(j));
    Looser(Num(b), 5, 3, Rank(j) + 1);
    StandingBinary(j, Num(a), Num(b), 5, 5);
    Looser(Bin(Operator(j), Num(a), Num(b)), 11, Rank(j), 0);
  }

  lemma Looser(e: Expr, size: nat, m: nat, n: nat)
    requires Standing(e, size, m) && n <= m
    ensures Standing(e, size, n)
  {
  }

  /** The flow of an operation from those of its operands. */
  function Joined(op: BinOp, x: Flow, y: Flow): Flow {
    if !x.Gave? then x
    else if !y.Gave? then y
    else
      match Apply(op, x.v, y.v)
      case ZeroDivisor => Stuck(DivideByZero, y.trace)
      case Value(v) => Gave(v, y.trace)
  }

  /** The value of an expression in an empty frame, with h operands pending. */
  function ValueOf(p: Program, e: Expr, h: nat, gpio: nat -> bool): Flow {
    Eval(p, e, map[], h, 1, [], gpio, 0)
  }

  lemma BinaryValue(p: Program, op: BinOp, l: Expr, r: Expr, h: nat, gpio: nat -> bool)
    requires ValueOf(p, l, h, gpio).Gave? ==> ValueOf(p, l, h, gpio).trace == []
    ensures ValueOf(p, Bin(op, l, r), h, gpio) == Joined(op, ValueOf(p, l, h, gpio), ValueOf(p, r, h + 1, gpio))
  {
    hide Apply;
  }

  lemma LiteralValue(p: Program, v: i32, h: nat, gpio: nat -> bool)
    requires h < 16
    ensures ValueOf(p, Num(v), h, gpio) == Gave(v, [])
  {
  }

  lemma TreeValue(j: nat, k: nat, a: i32, b: i32, c: i32, p: Program, gpio: nat -> bool)
    requires j < 10 && k < 10
    ensures var f := ValueOf(p, Tree(j, k, a, b, c), 0, gpio);
            if (j == 3 && b == 0) || (k == 3 && c == 0) then f == Stuck(DivideByZero, [])
            else f.Gave? && f.trace == [] && Value3(j, k, a, b, c, f.v)
  {
    hide Value2, Apply, ValueOf;
    Applied(j, a, b);
    Applied(k, b, c);
    LiteralValue(p, a, 0, gpio);
    LiteralValue(p, b, 1, gpio);
    LiteralValue(p, c, 1, gpio);
    LiteralValue(p, c, 2, gpio);
    if Rank(j) < Rank(k) {
      BinaryValue(p, Operator(k), Num(b), Num(c), 1, gpio);
      BinaryValue(p, Operator(j), Num(a), Bin(Operator(k), Num(b), Num(c)), 0, gpio);
      var x := Apply(Operator(k), b, c);
      if x.Value? { Applied(j, a, x.v); }
    } else {
      BinaryValue(p, Operator(j), Num(a), Num(b), 0, gpio);
      BinaryValue(p, Operator(k), Bin(Operator(j), Num(a), Num(b)), Num(c), 0, gpio);
      var x := Apply(Operator(j), a, b);
      if x.Value? { Applied(k, x.v, c); }
    }
  }

  /** Main result: `print(a j b k c)` prints what the rules of arithmetic say, for all numbers and all operators
      except two comparisons. */
  lemma ThreeOperands(source: seq<byte>, j: nat, k: nat, a: i32, b: i32, c: i32, gpio: nat -> bool)
    requires j < 10 && k < 10 && Rank(j) + Rank(k) > 0
    requires Reads(source, OPEN + [TkPrint, TkLParen, TkNumber(a), SIGNS[j], TkNumber(b), SIGNS[k], TkNumber(c),
                                   TkRParen, TkSemi, TkRBrace])
    ensures if (j == 3 && b == 0) || (k == 3 && c == 0) then Ends(source, gpio, Trapped(DivideByZero, []))
            else exists v: i32 :: Value3(j, k, a, b, c, v) && Prints(source, gpio, v)
  {
    hide Lex, Reads, Ends, Value3, ValueOf, Tree, SpellE, Standing;
    var e := Tree(j, k, a, b, c);
    TreeSpelled(j, k, a, b, c);
    TreeIsStanding(j, k, a, b, c);
    assert OPEN + [TkPrint, TkLParen, TkNumber(a), SIGNS[j], TkNumber(b), SIGNS[k], TkNumber(c), TkRParen, TkSemi,
                   TkRBrace] ==
           OPEN + ([TkPrint, TkLParen] + SpellE(e) + [TkRParen, TkSemi]) + [TkRBrace];
    PrintedValue(source, e, gpio);
    var p := Main(Show(e));
    TreeValue(j, k, a, b, c, p, gpio);
    var f := ValueOf(p, e, 0, gpio);
    if f.Gave? {
      assert [] + [Printed(f.v)] == [Printed(f.v)];
      assert Value3(j, k, a, b, c, f.v) && Prints(source, gpio, f.v);
    }
  }

  // ---------- a sign in front ----------

  lemma NegatedValue(p: Program, a: i32, gpio: nat -> bool)
    ensures var f := ValueOf(p, Neg(Num(a)), 0, gpio);
            f.Gave? && f.trace == [] && Value2(1, 0, a, f.v)
  {
    hide N.Gives;
    Applied(1, 0, a);
    LiteralValue(p, a, 1, gpio);
  }

  lemma StandingNegated(a: i32)
    ensures Standing(Neg(Num(a)), 11, 3)
  {
    StandingNumber(a);
    assert IsPrimary(Neg(Num(a))) && IsFactor(Neg(Num(a))) && IsTerm(Neg(Num(a)));
  }

  /** `print(-a j b)`: the sign in front belongs to a alone. */
  lemma SignedOperand(source: seq<byte>, j: nat, a: i32, b: i32, gpio: nat -> bool)
    requires j < 10
    requires Reads(source, OPEN + [TkPrint, TkLParen, TkMinus, TkNumber(a), SIGNS[j], TkNumber(b), TkRParen, TkSemi,
                                   TkRBrace])
    ensures if j == 3 && b == 0 then Ends(source, gpio, Trapped(DivideByZero, []))
            else exists v: i32, w: i32 :: Value2(1, 0, a, w) && Value2(j, w, b, v) && Prints(source, gpio, v)
  {
    hide Lex, Reads, Ends, Value2, Apply, ValueOf, Standing;
    var n := Neg(Num(a));
    var e := Bin(Operator(j), n, Num(b));
    var p := Main(Show(e));
    StandingSigned(j, a, b);
    assert OPEN + [TkPrint, TkLParen, TkMinus, TkNumber(a), SIGNS[j], TkNumber(b), TkRParen, TkSemi, TkRBrace] ==
           OPEN + ([TkPrint, TkLParen] + SpellE(e) + [TkRParen, TkSemi]) + [TkRBrace] by {
      Applied(j, a, b);
      assert SpellE(n) == [TkMinus, TkNumber(a)];
    }
    PrintedValue(source, e, gpio);
    NegatedValue(p, a, gpio);
    LiteralValue(p, b, 1, gpio);
    BinaryValue(p, Operator(j), n, Num(b), 0, gpio);
    var w := ValueOf(p, n, 0, gpio).v;
    Applied(j, w, b);
    var x := Apply(Operator(j), w, b);
    if x.Value? {
      assert [] + [Printed(x.v)] == [Printed(x.v)];
      assert Value2(1, 0, a, w) && Value2(j, w, b, x.v) && Prints(source, gpio, x.v);
    }
  }

  lemma StandingSigned(j: nat, a: i32, b: i32)
    requires j < 10
    ensures Standing(Bin(Operator(j), Neg(Num(a)), Num(b)), 17, 0)
  {
    hide Standing, Operator;
    StandingNegated(a);
    StandingNumber(b);
    Looser(Neg(Num(a)), 11, 3, if Rank(j) == 0 then 1 else Rank(j));
    Looser(Num(b), 5, 3, Rank(j) + 1);
    StandingBinary(j, Neg(Num(a)), Num(b), 11, 5);
    Looser(Bin(Operator(j), Neg(Num(a)), Num(b)), 17, Rank(j), 0);
  }

  // ---------- loops ----------

  /** n, n - 1, and so on down to 1. */
  function Down(n: int): seq<Event> {
    if n <= 0 || n >= 0x8000_0000 then [] else [Printed(n)] + Down(n - 1)
  }

  function Turn(x: Name): Stmts {
    Cons(PrintExpr(Var(x)), Cons(Assign(x, Bin(Sub, Var(x), Num(1))), Nil))
  }

  function Loop(x: Name): Stmt { While(Bin(Gt, Var(x), Num(0)), Turn(x)) }

  function Counting(x: Name, n: i32): Stmts { Cons(DeclareInit(x, Num(n)), Cons(Loop(x), Nil)) }

  lemma TurnRuns(p: Program, x: Name, v: i32, trace: seq<Event>, gpio: nat -> bool, fuel: nat)
    requires v > 0
    ensures ExecAll(p, Turn(x), map[x := v], 0, 1, trace, gpio, fuel) ==
              Went(map[x := v - 1], trace + [Printed(v)])
  {
    var store: Store := map[x := v];
    var e := Bin(Sub, Var(x), Num(1));
    assert Eval(p, Var(x), store, 0, 1, trace, gpio, fuel) == Gave(v, trace);
    assert Exec(p, PrintExpr(Var(x)), store, 0, 1, trace, gpio, fuel) == Went(store, trace + [Printed(v)]);
    var seen := trace + [Printed(v)];
    assert Eval(p, Var(x), store, 0, 1, seen, gpio, fuel) == Gave(v, seen);
    assert Eval(p, Num(1), store, 1, 1, seen, gpio, fuel) == Gave(1, seen);
    assert Apply(Sub, v, 1) == Value(v - 1);
    assert Eval(p, e, store, 0, 1, seen, gpio, fuel) == Gave(v - 1, seen);
    assert store[x := v - 1] == map[x := v - 1];
    var less: Store := map[x := v - 1];
    var down := Assign(x, e);
    assert Exec(p, down, store, 0, 1, seen, gpio, fuel) == Went(less, seen);
    assert ExecAll(p, Nil, less, 0, 1, seen, gpio, fuel) == Went(less, seen);
    assert ExecAll(p, Cons(down, Nil), store, 0, 1, seen, gpio, fuel) == Went(less, seen);
  }

  lemma {:induction false} LoopRuns(p: Program, x: Name, v: i32, trace: seq<Event>, gpio: nat -> bool, fuel: nat)
    requires fuel > v && fuel > 0
    ensures var r := Exec(p, Loop(x), map[x := v], 0, 1, trace, gpio, fuel); r.Went? && r.trace == trace + Down(v)
    decreases fuel
  {
    hide ExecAll;
    var c, store: Store := Bin(Gt, Var(x), Num(0)), map[x := v];
    assert Eval(p, Var(x), store, 0, 1, trace, gpio, fuel) == Gave(v, trace);
    assert Eval(p, Num(0), store, 1, 1, trace, gpio, fuel) == Gave(0, trace);
    assert Eval(p, c, store, 0, 1, trace, gpio, fuel) == Gave(if v > 0 then 1 else 0, trace);
    if v > 0 {
      TurnRuns(p, x, v, trace, gpio, fuel);
      LoopRuns(p, x, v - 1, trace + [Printed(v)], gpio, fuel - 1);
      assert trace + [Printed(v)] + Down(v - 1) == trace + Down(v);
    } else {
      assert trace + [] == trace;
    }
  }

  lemma FirstRuns(p: Program, x: Name, n: i32, gpio: nat -> bool, fuel: nat)
    ensures Exec(p, DeclareInit(x, Num(n)), map[], 0, 1, [], gpio, fuel) == Went(map[x := n], [])
  {
    var none: Store := map[];
    assert Eval(p, Num(n), none, 0, 1, [], gpio, fuel) == Gave(n, []);
    assert none[x := n] == map[x := n];
  }

  lemma CountingMeans(x: Name, n: i32, gpio: nat -> bool)
    ensures Means(Main(Counting(x, n)), gpio, Exited(Down(n)))
  {
    hide Exec;
    var p, body := Main(Counting(x, n)), Counting(x, n);
    var fuel: nat := (if n < 0 then 0 else n) + 1;
    assert BodyOf(p, MAIN) == body;
    FirstRuns(p, x, n, gpio, fuel);
    LoopRuns(p, x, n, [], gpio, fuel);
    var r := Exec(p, Loop(x), map[x := n], 0, 1, [], gpio, fuel);
    assert ExecAll(p, Nil, r.store, 0, 1, r.trace, gpio, fuel) == r;
    assert ExecAll(p, body.tail, map[x := n], 0, 1, [], gpio, fuel) == r;
    assert ExecAll(p, body, map[], 0, 1, [], gpio, fuel) == r;
    assert [] + Down(n) == Down(n);
    assert Behaviour(p, gpio, fuel + 1) == Gave(0, Down(n));
  }

  /** A variable, an operator and a number. */
  lemma PairFacts(op: BinOp, x: Name, v: i32)
    ensures var e := Bin(op, Var(x), Num(v));
            && SizeE(e) == 8 && BoundE(e, [x]) && CallsOnlyE(e, {}) && IsExpression(e)
            && SpellE(e) == [TkIdent(x), OpToken(op), TkNumber(v)]
  {
    hide OpToken;
    var e, l, r := Bin(op, Var(x), Num(v)), Var(x), Num(v);
    assert SizeE(l) == 2 && SizeE(r) == 5 && CallsOnlyE(l, {}) && CallsOnlyE(r, {}) && BoundE(l, [x]) && BoundE(r, [x]);
    assert IsPrimary(l) && IsFactor(l) && IsTerm(l) && IsPrimary(r) && IsFactor(r) && IsTerm(r);
    assert IsMulOp(op) ==> IsFactor(e) && IsTerm(e);
    assert IsAddOp(op) ==> IsTerm(e);
  }

  lemma TurnFacts(x: Name)
    ensures var t := Turn(x);
            && DeclaredSs(t) == [] && SizeSs(t) == 13 && WellFormedSs(t, [x]) && Ordered(t, [x]) && CallsOnly(t, {})
            && SpellSs(t) == [TkPrint, TkLParen, TkIdent(x), TkRParen, TkSemi, TkIdent(x), TkAssign, TkIdent(x),
                              TkMinus, TkNumber(1), TkSemi]
  {
    hide SpellSs, DeclaredSs, SizeSs, WellFormedSs, Ordered, CallsOnly, EndsRet;
    PairFacts(Sub, x, 1);
    assert SizeE(Var(x)) == 2;
    var show, down := PrintExpr(Var(x)), Assign(x, Bin(Sub, Var(x), Num(1)));
    Single(down, [x], [x], false, {});
    Headed(show, Cons(down, Nil), [x], [x], false, {});
    assert [x] + [] == [x];
    assert SpellS(show) == [TkPrint, TkLParen, TkIdent(x), TkRParen, TkSemi];
    assert SpellS(down) == [TkIdent(x), TkAssign, TkIdent(x), TkMinus, TkNumber(1), TkSemi];
  }

  lemma NumberFacts(n: i32, x: Name)
    ensures IsExpression(Num(n)) && BoundE(Num(n), [x])
  {
    StandingNumber(n);
  }

  lemma LoopFacts(x: Name)
    ensures var s := Loop(x);
            && DeclaredS(s) == [] && SizeS(s) == 27 && WellFormedS(s, [x]) && OrderedS(s, [x]) && CallsOnlyS(s, {})
            && !EndsRetS(s, false)
            && SpellS(s) == [TkWhile, TkLParen, TkIdent(x), TkGt, TkNumber(0), TkRParen, TkLBrace, TkPrint, TkLParen,
                             TkIdent(x), TkRParen, TkSemi, TkIdent(x), TkAssign, TkIdent(x), TkMinus, TkNumber(1),
                             TkSemi, TkRBrace]
  {
    hide SpellSs, DeclaredSs, SizeSs, WellFormedSs, Ordered, CallsOnly, EndsRet, Turn, SpellE, BoundE, CallsOnlyE,
      IsExpression, SizeE;
    TurnFacts(x);
    PairFacts(Gt, x, 0);
  }

  lemma CountingIsPlain(x: Name, n: i32)
    ensures Plain(Counting(x, n))
  {
    hide SpellSs, DeclaredSs, SizeSs, WellFormedSs, Ordered, CallsOnly, EndsRet, Loop, IsExpression, BoundE, SpellS;
    var first, rest := DeclareInit(x, Num(n)), Loop(x);
    LoopFacts(x);
    NumberFacts(n, x);
    Single(rest, [x], [x], false, {});
    Headed(first, Cons(rest, Nil), [x], [], false, {});
    assert [] + [x] == [x] + [] == [x];
    assert SizeS(first) == 7;
  }

  lemma CountingSpelled(x: Name, n: i32)
    ensures SpellSs(Counting(x, n)) ==
              [TkInt, TkIdent(x), TkAssign, TkNumber(n), TkSemi, TkWhile, TkLParen, TkIdent(x), TkGt, TkNumber(0),
               TkRParen, TkLBrace, TkPrint, TkLParen, TkIdent(x), TkRParen, TkSemi, TkIdent(x), TkAssign, TkIdent(x),
               TkMinus, TkNumber(1), TkSemi, TkRBrace]
  {
    hide SpellSs, DeclaredSs, SizeSs, WellFormedSs, Ordered, CallsOnly, EndsRet, Loop, WellFormedS, OrderedS, SizeS,
      CallsOnlyS, EndsRetS, DeclaredS;
    var first, rest := DeclareInit(x, Num(n)), Loop(x);
    LoopFacts(x);
    Single(rest, [], [], false, {});
    Headed(first, Cons(rest, Nil), [], [], false, {});
    assert SpellS(first) == [TkInt, TkIdent(x), TkAssign, TkNumber(n), TkSemi];
    hide SpellS;
  }

  /** Main result: `int x = n; while (x > 0) { print(x); x = x - 1; }` prints n, n - 1, and so on down to 1, for
      every n and every name. */
  lemma LoopsCountDown(source: seq<byte>, x: Name, n: i32, gpio: nat -> bool)
    requires Reads(source, OPEN +
                     [TkInt, TkIdent(x), TkAssign, TkNumber(n), TkSemi, TkWhile, TkLParen, TkIdent(x), TkGt,
                      TkNumber(0), TkRParen, TkLBrace, TkPrint, TkLParen, TkIdent(x), TkRParen, TkSemi, TkIdent(x),
                      TkAssign, TkIdent(x), TkMinus, TkNumber(1), TkSemi, TkRBrace] +
                     [TkRBrace])
    ensures Ends(source, gpio, Exited(Down(n)))
  {
    hide Lex, Reads, Ends, Counting, SpellSs, Plain, Means;
    CountingSpelled(x, n);
    CountingIsPlain(x, n);
    CountingMeans(x, n, gpio);
    PlainSourceEnds(source, Counting(x, n), gpio, Exited(Down(n)));
  }

  // ---------- branches ----------

  function Branch(v: i32): Stmts { Cons(IfElse(Num(v), Show(Num(1)), Show(Num(2))), Nil) }

  lemma ShowRuns(p: Program, v: i32, gpio: nat -> bool)
    ensures ExecAll(p, Show(Num(v)), map[], 0, 1, [], gpio, 0) == Went(map[], [Printed(v)])
  {
    assert [] + [Printed(v)] == [Printed(v)];
    assert Exec(p, PrintExpr(Num(v)), map[], 0, 1, [], gpio, 0) == Went(map[], [Printed(v)]);
  }

  lemma BranchMeans(v: i32, gpio: nat -> bool)
    ensures Means(Main(Branch(v)), gpio, Exited([Printed(if v != 0 then 1 else 2)]))
  {
    hide ExecAll;
    var p := Main(Branch(v));
    assert BodyOf(p, MAIN) == Branch(v);
    ShowRuns(p, 1, gpio);
    ShowRuns(p, 2, gpio);
    var r := Exec(p, Branch(v).head, map[], 0, 1, [], gpio, 0);
    assert Eval(p, Num(v), map[], 0, 1, [], gpio, 0) == Gave(v, []);
    assert r == Went(map[], [Printed(if v != 0 then 1 else 2)]);
    OneRuns(p, Branch(v).head, r, gpio);
    assert Behaviour(p, gpio, 1) == Gave(0, r.trace);
  }

  lemma OneRuns(p: Program, s: Stmt, r: Flow, gpio: nat -> bool)
    requires r.Went? && r == Exec(p, s, map[], 0, 1, [], gpio, 0)
    ensures ExecAll(p, Cons(s, Nil), map[], 0, 1, [], gpio, 0) == r
  {
    hide Exec;
    assert ExecAll(p, Nil, r.store, 0, 1, r.trace, gpio, 0) == r;
  }

  lemma BranchIsPlain(v: i32)
    ensures Plain(Branch(v))
  {
    hide SpellSs, DeclaredSs, SizeSs, WellFormedSs, Ordered, CallsOnly, EndsRet, Standing;
    StandingNumber(1);
    StandingNumber(2);
    StandingNumber(v);
    Looser(Num(1), 5, 3, 0);
    Looser(Num(2), 5, 3, 0);
    ShowIsPlain(Num(1));
    ShowIsPlain(Num(2));
    Single(PrintExpr(Num(1)), [], [], false, {});
    Single(PrintExpr(Num(2)), [], [], false, {});
    Single(Branch(v).head, [], [], false, {});
    assert [] + DeclaredSs(Show(Num(1))) == [];
    assert IsExpression(Num(v)) && BoundE(Num(v), []) by { assert Standing(Num(v), 5, 3); }
    assert SizeE(Num(1)) == 5 == SizeE(Num(2)) && SizeE(Num(v)) == 5;
  }

  lemma ShownBlock(v: i32)
    ensures SpellBlock(Show(Num(v))) == [TkLBrace, TkPrint, TkLParen, TkNumber(v), TkRParen, TkSemi, TkRBrace]
  {
    ShowSpelled(Num(v));
  }

  lemma BranchSpelled(v: i32)
    ensures SpellSs(Branch(v)) ==
              [TkIf, TkLParen, TkNumber(v), TkRParen, TkLBrace, TkPrint, TkLParen, TkNumber(1), TkRParen, TkSemi,
               TkRBrace, TkElse, TkLBrace, TkPrint, TkLParen, TkNumber(2), TkRParen, TkSemi, TkRBrace]
  {
    hide SpellSs, SpellBlock;
    ShownBlock(1);
    ShownBlock(2);
    Single(Branch(v).head, [], [], false, {});
  }

  /** `if (v) { print(1); } else { print(2); }` takes the first branch exactly when v is not 0. */
  lemma BranchesTaken(source: seq<byte>, v: i32, gpio: nat -> bool)
    requires Reads(source, OPEN +
                     [TkIf, TkLParen, TkNumber(v), TkRParen, TkLBrace, TkPrint, TkLParen, TkNumber(1), TkRParen, TkSemi,
                      TkRBrace, TkElse, TkLBrace, TkPrint, TkLParen, TkNumber(2), TkRParen, TkSemi, TkRBrace] +
                     [TkRBrace])
    ensures Prints(source, gpio, if v != 0 then 1 else 2)
  {
    hide Lex, Reads, Ends, Branch, SpellSs, Plain, Means;
    BranchSpelled(v);
    BranchIsPlain(v);
    BranchMeans(v, gpio);
    PlainSourceEnds(source, Branch(v), gpio, Exited([Printed(if v != 0 then 1 else 2)]));
  }

  // ---------- console lines ----------

  lemma WritingMeans(raw: seq<byte>, text: seq<byte>, gpio: nat -> bool)
    requires Unescape(raw) == Some(text)
    ensures Means(Main(Cons(WriteString(raw, None), Nil)), gpio, Exited([Wrote(Line(text))]))
  {
    hide ExecAll;
    var s := WriteString(raw, None);
    var p := Main(Cons(s, Nil));
    assert BodyOf(p, MAIN) == Cons(s, Nil);
    var r := Exec(p, s, map[], 0, 1, [], gpio, 0);
    assert r == Went(map[], [] + [Wrote(Line(text))]);
    OneRuns(p, s, r, gpio);
    assert Behaviour(p, gpio, 1) == Gave(0, [Wrote(Line(text))]);
  }

  lemma WritingIsPlain(raw: seq<byte>, text: seq<byte>)
    requires Unescape(raw) == Some(text) && |text| <= 240 && (text != [] ==> text[|text| - 1] != 0x0F)
    ensures var body := Cons(WriteString(raw, None), Nil);
            && Plain(body)
            && SpellSs(body) == [TkWrite, TkLParen, TkNumber(1), TkComma, TkString(raw), TkRParen, TkSemi]
  {
    hide SpellSs, DeclaredSs, SizeSs, WellFormedSs, Ordered, CallsOnly, EndsRet;
    Single(WriteString(raw, None), [], [], false, {});
  }

  /** `write(1, raw)` puts the text and a line end on the console, unless the text ends in a newline. A text that
      ends in the byte of a return is left out: see MissingReturnGoesUnnoticed. */
  lemma LinesWritten(source: seq<byte>, raw: seq<byte>, text: seq<byte>, gpio: nat -> bool)
    requires Unescape(raw) == Some(text) && |text| <= 240 && (text != [] ==> text[|text| - 1] != 0x0F)
    requires Reads(source, OPEN + [TkWrite, TkLParen, TkNumber(1), TkComma, TkString(raw), TkRParen, TkSemi] +
                     [TkRBrace])
    ensures Ends(source, gpio,
                 Exited([Wrote(if text != [] && text[|text| - 1] == 10 then text else text + [13, 10])]))
  {
    hide Lex, Reads, Ends, Means, Plain, SpellSs, Unescape;
    var s := WriteString(raw, None);
    var body := Cons(s, Nil);
    WritingIsPlain(raw, text);
    WritingMeans(raw, text, gpio);
    PlainSourceEnds(source, body, gpio, Exited([Wrote(Line(text))]));
  }

  // ---------- calls ----------

  function CallerBody(x: Name, g: Name, a: i32): Stmts {
    Cons(DeclareInit(x, Num(a)), Cons(PrintExpr(CallExpr(g)), Cons(PrintExpr(Var(x)), Nil)))
  }

  function CalleeBody(x: Name, b: i32, returned: bool): Stmts {
    Cons(DeclareInit(x, Num(b)), if returned then Cons(Return(Var(x)), Nil) else Nil)
  }

  function Calling(x: Name, g: Name, a: i32, b: i32, returned: bool): Program {
    [Function(MAIN, CallerBody(x, g, a)), Function(g, CalleeBody(x, b, returned))]
  }

  lemma ExprFacts(e: Expr, x: Name, g: Name)
    requires e.Num? || e == Var(x) || e == CallExpr(g)
    ensures WellFormedE(e, [x]) && CallsOnlyE(e, {MAIN, g}) && (!e.CallExpr? ==> forall at :: SitesE(e, at) == [])
  {
    assert IsPrimary(e) && IsFactor(e) && IsTerm(e);
  }

  lemma Sited(h: Stmt, t: Stmts, at: nat)
    ensures SitesSs(Cons(h, t), at) == SitesS(h, at) + SitesSs(t, at + SizeS(h))
    ensures SitesSs(Nil, at + SizeS(h)) == []
  {
    hide SitesS;
  }

  lemma CallerFacts(x: Name, g: Name, a: i32)
    ensures var ss := CallerBody(x, g, a);
            && WellFormedF(Function(MAIN, ss)) && SizeSs(ss) == 14 && Ordered(ss, []) && !EndsRet(ss, false)
            && CallsOnly(ss, {MAIN, g})
            && SpellSs(ss) == [TkInt, TkIdent(x), TkAssign, TkNumber(a), TkSemi, TkPrint, TkLParen, TkIdent(g),
                               TkLParen, TkRParen, TkRParen, TkSemi, TkPrint, TkLParen, TkIdent(x), TkRParen, TkSemi]
  {
    hide SpellSs, DeclaredSs, SizeSs, WellFormedSs, Ordered, CallsOnly, EndsRet, IsExpression;
    var first, second, third := DeclareInit(x, Num(a)), PrintExpr(CallExpr(g)), PrintExpr(Var(x));
    ExprFacts(Num(a), x, g);
    ExprFacts(CallExpr(g), x, g);
    ExprFacts(Var(x), x, g);
    Single(third, [x], [x], false, {MAIN, g});
    Headed(second, Cons(third, Nil), [x], [x], false, {MAIN, g});
    Headed(first, Cons(second, Cons(third, Nil)), [x], [], false, {MAIN, g});
    assert [x] + [] == [x] == [] + [x];
    assert SizeE(Num(a)) == 5 && SizeE(CallExpr(g)) == 3 && SizeE(Var(x)) == 2;
    assert SpellS(first) == [TkInt, TkIdent(x), TkAssign, TkNumber(a), TkSemi];
    assert SpellS(second) == [TkPrint, TkLParen, TkIdent(g), TkLParen, TkRParen, TkRParen, TkSemi];
    assert SpellS(third) == [TkPrint, TkLParen, TkIdent(x), TkRParen, TkSemi];
  }

  lemma CallerSites(x: Name, g: Name, a: i32)
    ensures SitesSs(CallerBody(x, g, a), 4) == [Symbol(g, 12)]
  {
    hide SitesSs;
    var first, second, third := DeclareInit(x, Num(a)), PrintExpr(CallExpr(g)), PrintExpr(Var(x));
    assert SizeE(Num(a)) == 5 && SizeE(CallExpr(g)) == 3;
    Sited(first, Cons(second, Cons(third, Nil)), 4);
    Sited(second, Cons(third, Nil), 11);
    Sited(third, Nil, 15);
    assert SizeS(first) == 7 && SizeS(second) == 4;
    assert SitesE(CallExpr(g), 11) == [Symbol(g, 12)];
    assert SitesS(first, 4) == [];
    assert SitesS(second, 11) == [Symbol(g, 12)];
    assert SitesS(third, 15) == [];
    assert SitesSs(Cons(third, Nil), 15) == [];
    assert SitesSs(Cons(second, Cons(third, Nil)), 11) == [Symbol(g, 12)];
  }

  lemma CalleeFacts(x: Name, g: Name, b: i32, returned: bool)
    ensures var ss := CalleeBody(x, b, returned);
            && WellFormedF(Function(g, ss)) && SizeSs(ss) <= 10 && Ordered(ss, [])
            && (returned ==> AlwaysReturns(ss)) && (!returned ==> !EndsRet(ss, true)) && CallsOnly(ss, {MAIN, g})
            && SpellSs(ss) == [TkInt, TkIdent(x), TkAssign, TkNumber(b), TkSemi] +
                              if returned then [TkReturn, TkIdent(x), TkSemi] else []
  {
    hide SpellSs, DeclaredSs, SizeSs, WellFormedSs, Ordered, CallsOnly, EndsRet, IsExpression;
    var first, last := DeclareInit(x, Num(b)), Return(Var(x));
    ExprFacts(Num(b), x, g);
    ExprFacts(Var(x), x, g);
    Single(first, [x], [], true, {MAIN, g});
    Single(last, [x], [x], false, {MAIN, g});
    Headed(first, Cons(last, Nil), [x], [], true, {MAIN, g});
    assert [x] + [] == [x] == [] + [x];
    assert SizeE(Num(b)) == 5 && SizeE(Var(x)) == 2;
    assert SpellS(first) == [TkInt, TkIdent(x), TkAssign, TkNumber(b), TkSemi];
    assert SpellS(last) == [TkReturn, TkIdent(x), TkSemi];
    assert AlwaysReturnsS(last) && AlwaysReturns(Cons(last, Nil));
  }

  lemma CalleeSites(x: Name, b: i32, returned: bool, at: nat)
    ensures SitesSs(CalleeBody(x, b, returned), at) == []
  {
    hide SitesSs;
    var first, last := DeclareInit(x, Num(b)), Return(Var(x));
    assert SizeE(Num(b)) == 5;
    Sited(first, Nil, at);
    Sited(first, Cons(last, Nil), at);
    Sited(last, Nil, at + 7);
  }

  lemma CallingProper(x: Name, g: Name, a: i32, b: i32, returned: bool)
    requires g != MAIN
    ensures var p := Calling(x, g, a, b, returned);
            && Proper(p) && AllOrdered(p) && |SitesFs(p, ENTRY_SIZE, HALT)| < 12 && AllTerminated(p, true, {MAIN, g})
  {
    hide CallerBody, CalleeBody, EmitF, SizeF, WellFormedF, SitesSs, EmitFs, SitesFs, Layout, Ordered, CallsOnly,
      AlwaysReturns, EndsRet, Image, AllTerminated;
    var p := Calling(x, g, a, b, returned);
    var f, c := p[0], p[1];
    CallerFacts(x, g, a);
    CalleeFacts(x, g, b, returned);
    CallingLaidOut(x, g, a, b, returned);
    W.TwoWellFormed(f, c);
    assert p == [f, c];
    CallingTerminates(f, c);
  }

  lemma CallingTerminates(f: Function, c: Function)
    requires Terminated(f, true) && Terminated(c, false) && CallsOnly(f.body, {MAIN, c.name})
    requires CallsOnly(c.body, {MAIN, c.name})
    ensures AllTerminated([f, c], true, {MAIN, c.name})
  {
    hide Terminated, CallsOnly;
    assert [f, c][1..] == [c] && [c][1..] == [];
    assert AllTerminated([c], false, {MAIN, c.name});
  }

  lemma CallingLaidOut(x: Name, g: Name, a: i32, b: i32, returned: bool)
    requires g != MAIN
    ensures var p := Calling(x, g, a, b, returned);
            CallsDefined(p) && |Image(p)| <= 256 && |SitesFs(p, ENTRY_SIZE, HALT)| == 1
  {
    hide CallerBody, CalleeBody, EmitF, SizeF, SitesSs, EmitFs, SitesFs, Layout, Image, WellFormedF, SizeSs;
    var p := Calling(x, g, a, b, returned);
    var at := ENTRY_SIZE + SizeF(p[0], ENTRY_SIZE, HALT);
    CallerFacts(x, g, a);
    CalleeFacts(x, g, b, returned);
    W.TwoFunctions(p[0], p[1], ENTRY_SIZE, HALT, []);
    CallerSites(x, g, a);
    CalleeSites(x, b, returned, at);
    assert p == [p[0], p[1]];
    AtMostEpilogue(p[0], ENTRY_SIZE, HALT);
    AtMostEpilogue(p[1], at, RET);
    ImageSize(p);
    assert SitesFs(p, ENTRY_SIZE, HALT) == [Symbol(g, 12)];
    var second := Symbol(g, at);
    assert [Symbol(MAIN, ENTRY_SIZE), second][1..] == [second];
    assert Known([second], g);
  }

  lemma AtMostEpilogue(f: Function, at: nat, prev: byte)
    ensures SizeF(f, at, prev) <= SizeSs(f.body) + 6
  {
  }

  lemma CallingSpelled(x: Name, g: Name, a: i32, b: i32, returned: bool)
    ensures |Calling(x, g, a, b, returned)| == 2
    ensures SpellProgram(Calling(x, g, a, b, returned)) ==
              OPEN + [TkInt, TkIdent(x), TkAssign, TkNumber(a), TkSemi, TkPrint, TkLParen, TkIdent(g), TkLParen,
                      TkRParen, TkRParen, TkSemi, TkPrint, TkLParen, TkIdent(x), TkRParen, TkSemi, TkRBrace] +
              [TkInt, TkIdent(g), TkLParen, TkRParen, TkLBrace, TkInt, TkIdent(x), TkAssign, TkNumber(b), TkSemi] +
              (if returned then [TkReturn, TkIdent(x), TkSemi] else []) + [TkRBrace]
  {
    hide CallerBody, CalleeBody, SpellSs;
    var p := Calling(x, g, a, b, returned);
    CallerFacts(x, g, a);
    CalleeFacts(x, g, b, returned);
    W.TwoSpellings(p[0], p[1]);
  }

  /** What the callee gives: its variable, or 0 if nothing is returned. */
  lemma CalleeGives(p: Program, x: Name, g: Name, b: i32, returned: bool, gpio: nat -> bool)
    requires BodyOf(p, g) == CalleeBody(x, b, returned)
    ensures Invoke(p, g, 0, 1, [], gpio, 1) == Gave(if returned then b else 0, [])
  {
    var body, store: Store := CalleeBody(x, b, returned), map[];
    var first, last := DeclareInit(x, Num(b)), Return(Var(x));
    var own := store[x := b];
    assert Exec(p, first, store, 0, 2, [], gpio, 0) == Went(own, []);
    assert Exec(p, last, own, 0, 2, [], gpio, 0) == Gave(b, []);
    if returned {
      assert ExecAll(p, Cons(last, Nil), own, 0, 2, [], gpio, 0) == Gave(b, []);
    } else {
      assert ExecAll(p, Nil, own, 0, 2, [], gpio, 0) == Went(own, []);
    }
    assert ExecAll(p, body, store, 0, 2, [], gpio, 0) == if returned then Gave(b, []) else Went(own, []);
  }

  lemma CallingMeans(x: Name, g: Name, a: i32, b: i32, returned: bool, gpio: nat -> bool)
    requires g != MAIN
    ensures Means(Calling(x, g, a, b, returned), gpio, Exited([Printed(if returned then b else 0), Printed(a)]))
  {
    hide CalleeBody;
    var p, v: i32 := Calling(x, g, a, b, returned), if returned then b else 0;
    assert p[1..] == [p[1]];
    assert BodyOf([p[1]], g) == CalleeBody(x, b, returned);
    assert BodyOf(p, g) == CalleeBody(x, b, returned) && BodyOf(p, MAIN) == CallerBody(x, g, a);
    CalleeGives(p, x, g, b, returned, gpio);
    hide Invoke;
    CallerRuns(p, x, g, a, v, gpio);
    CallerEnds(p, x, g, a, v, gpio);
  }

  lemma CallerRuns(p: Program, x: Name, g: Name, a: i32, v: i32, gpio: nat -> bool)
    requires Invoke(p, g, 0, 1, [], gpio, 1) == Gave(v, [])
    ensures ExecAll(p, CallerBody(x, g, a), map[], 0, 1, [], gpio, 1) == Went(map[x := a], [Printed(v), Printed(a)])
  {
    hide Invoke;
    var first, second, third := DeclareInit(x, Num(a)), PrintExpr(CallExpr(g)), PrintExpr(Var(x));
    var store: Store, end := map[x := a], [Printed(v), Printed(a)];
    FirstRuns(p, x, a, gpio, 1);
    assert Eval(p, CallExpr(g), store, 0, 1, [], gpio, 1) == Gave(v, []);
    assert [] + [Printed(v)] == [Printed(v)] && [Printed(v)] + [Printed(a)] == end;
    assert Exec(p, second, store, 0, 1, [], gpio, 1) == Went(store, [Printed(v)]);
    assert Eval(p, Var(x), store, 0, 1, [Printed(v)], gpio, 1) == Gave(a, [Printed(v)]);
    assert Exec(p, third, store, 0, 1, [Printed(v)], gpio, 1) == Went(store, end);
    assert ExecAll(p, Nil, store, 0, 1, end, gpio, 1) == Went(store, end);
    assert ExecAll(p, Cons(third, Nil), store, 0, 1, [Printed(v)], gpio, 1) == Went(store, end);
    assert ExecAll(p, Cons(second, Cons(third, Nil)), store, 0, 1, [], gpio, 1) == Went(store, end);
  }

  lemma CallerEnds(p: Program, x: Name, g: Name, a: i32, v: i32, gpio: nat -> bool)
    requires BodyOf(p, MAIN) == CallerBody(x, g, a)
    requires ExecAll(p, CallerBody(x, g, a), map[], 0, 1, [], gpio, 1) == Went(map[x := a], [Printed(v), Printed(a)])
    ensures Means(p, gpio, Exited([Printed(v), Printed(a)]))
  {
    hide CallerBody, ExecAll;
    assert Behaviour(p, gpio, 2) == Gave(0, [Printed(v), Printed(a)]);
  }

  /** `int main() { int x = a; print(g()); print(x); } int g() { int x = b; return x; }` prints b and then a: the two
      variables are not one. Without the return it prints 0 and then a. */
  lemma CallsKeepVariables(source: seq<byte>, x: Name, g: Name, a: i32, b: i32, returned: bool, gpio: nat -> bool)
    requires g != [109, 97, 105, 110]
    requires Reads(source,
                   OPEN + [TkInt, TkIdent(x), TkAssign, TkNumber(a), TkSemi, TkPrint, TkLParen, TkIdent(g), TkLParen,
                           TkRParen, TkRParen, TkSemi, TkPrint, TkLParen, TkIdent(x), TkRParen, TkSemi, TkRBrace] +
                   [TkInt, TkIdent(g), TkLParen, TkRParen, TkLBrace, TkInt, TkIdent(x), TkAssign, TkNumber(b), TkSemi] +
                   (if returned then [TkReturn, TkIdent(x), TkSemi] else []) + [TkRBrace])
    ensures Ends(source, gpio, Exited([Printed(if returned then b else 0), Printed(a)]))
  {
    hide Lex, Reads, Ends, Calling, SpellProgram, Proper, AllOrdered, SitesFs, AllTerminated, Means;
    var p := Calling(x, g, a, b, returned);
    CallingSpelled(x, g, a, b, returned);
    CallingProper(x, g, a, b, returned);
    CallingMeans(x, g, a, b, returned, gpio);
    SourceEnds(source, p, {MAIN, g}, gpio, Exited([Printed(if returned then b else 0), Printed(a)]));
  }
}
