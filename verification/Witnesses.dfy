/** Concrete programs at the edges: compiled and loaded but run wrong, and compiled but never loaded. */
module Witnesses {
  import opened Common
  import opened Hbc
  import opened Machine
  import opened Source
  import opened Emission
  import opened Lexer
  import P = Parser
  import opened Compilable
  import opened Ordering
  import opened Programs
  import opened Verifier
  import opened Acceptance
  import opened Rejection
  import opened Simulation
  import opened Toolchain
  import opened Language
  import opened Frontend

  // ---------- a return that goes missing ----------

  const HELPER: Name := [103]

  /** `int main() { sleep(3840); } int g() { print_int(7); }`: the sleep operand ends in the byte 0x0F. */
  const SLEEPER: Program :=
    [Function(MAIN, Cons(SleepFor(3840), Nil)), Function(HELPER, Cons(PrintExpr(Num(7)), Nil))]

  /** Its image: an entry stub, main at 4, g at 7. */
  function SleeperCode(): seq<byte> {
    (Encode(Call(4)) + Encode(Halt)) +
    (Encode(Sleep(3840)) + (Encode(PushI32(7)) + Encode(PrintInt) + EPILOGUE))
  }

  lemma SleeperMain(fns: seq<Symbol>)
    ensures var f := SLEEPER[0];
            !GetsEpilogue(f, 4, HALT) && SizeF(f, 4, HALT) == 3 && EmitF(f, 4, HALT, fns) == Encode(Sleep(3840))
  {
    hide Encode, EmitSs;
    OneStatement(SleepFor(3840), 4, [], []);
    OneStatement(SleepFor(3840), 4, [], fns);
    LastInstr(Sleep(3840), HALT);
  }

  lemma OneStatement(s: Stmt, at: nat, names: seq<Name>, fns: seq<Symbol>)
    ensures EmitSs(Cons(s, Nil), at, names, fns) == EmitS(s, at, names, fns) && DeclaredSs(Cons(s, Nil)) == DeclaredS(s)
    ensures SitesSs(Cons(s, Nil), at) == SitesS(s, at)
  {
    hide EmitS, DeclaredS, SitesS;
  }

  lemma SleeperHelper(fns: seq<Symbol>)
    ensures var g := SLEEPER[1]; GetsEpilogue(g, 7, RET) && SizeF(g, 7, RET) == 12
    ensures EmitF(SLEEPER[1], 7, RET, fns) == Encode(PushI32(7)) + Encode(PrintInt) + EPILOGUE
  {
    hide Encode, EmitSs;
    OneStatement(PrintExpr(Num(7)), 7, [], []);
    OneStatement(PrintExpr(Num(7)), 7, [], fns);
    LastTail(Encode(PushI32(7)), PrintInt, RET);
    LastInstr(PrintInt, 0);
    Opcodes();
  }

  /** A program of two functions, laid out. */
  lemma TwoFunctions(f: Function, g: Function, at: nat, prev: byte, fns: seq<Symbol>)
    ensures var (p, next) := ([f, g], at + SizeF(f, at, prev));
            && Layout(p, at, prev) == [Symbol(f.name, at), Symbol(g.name, next)]
            && EmitFs(p, at, prev, fns) == EmitF(f, at, prev, fns) + EmitF(g, next, RET, fns)
            && SitesFs(p, at, prev) == SitesSs(f.body, at) + SitesSs(g.body, next)
            && SizeFs(p, at, prev) == SizeF(f, at, prev) + SizeF(g, next, RET)
  {
    hide EmitF, GetsEpilogue, SitesSs, SizeF;
    var p, next := [f, g], at + SizeF(f, at, prev);
    assert p[1..] == [g] && [g][1..] == [];
    assert Layout([g], next, RET) == [Symbol(g.name, next)];
    assert EmitFs([g], next, RET, fns) == EmitF(g, next, RET, fns);
    assert SitesFs([g], next, RET) == SitesSs(g.body, next);
    assert SizeFs([g], next, RET) == SizeF(g, next, RET);
  }

  lemma SleeperImage()
    ensures Table(SLEEPER) == [Symbol(MAIN, 4), Symbol(HELPER, 7)] && Image(SLEEPER) == SleeperCode()
    ensures SitesFs(SLEEPER, ENTRY_SIZE, HALT) == [] && SizeFs(SLEEPER, ENTRY_SIZE, HALT) == 15
  {
    hide EmitF, GetsEpilogue, EmitSs, DeclaredSs, SizeF, WellFormedF, EmitFs, SitesFs, Layout, SizeFs, SitesSs;
    var fns := [Symbol(MAIN, 4), Symbol(HELPER, 7)];
    SleeperMain(fns);
    SleeperHelper(fns);
    SleeperWellFormed();
    TwoFunctions(SLEEPER[0], SLEEPER[1], ENTRY_SIZE, HALT, fns);
    assert Address(fns, MAIN) == 4;
  }

  lemma LastFunction(p: Program, other: Name)
    requires |p| == 1 && p[0].name != other && WellFormedF(p[0])
    ensures AllWellFormed(p) && Distinct(p) && !Defined(p, other)
  {
    hide WellFormedF;
    assert p[1..] == [];
  }

  lemma TwoChecks(f: Function, g: Function, at: nat, prev: byte, calls: seq<Symbol>)
    requires WellFormedF(f) && WellFormedF(g) && f.name != g.name && GetsEpilogue(g, at + SizeF(f, at, prev), RET)
    requires Need(f.body) <= STACK_SIZE && Need(g.body) <= STACK_SIZE
    ensures AllWellFormed([f, g]) && Distinct([f, g]) && FitsStack([f, g], at, prev, false, calls)
            && !JumpsToEnd([f, g], at, prev)
  {
    hide GetsEpilogue, WellFormedF, Need, EndsInJump, Falls, Live, SizeSs;
    assert [f, g][1..] == [g] && [g][1..] == [];
    LastFunction([g], f.name);
    assert forall fell, next :: FitsStack([g], next, RET, fell, calls);
    assert !JumpsToEnd([g], at + SizeF(f, at, prev), RET);
  }

  lemma SleeperProper()
    ensures Proper(SLEEPER) && Loadable(SLEEPER)
  {
    hide WellFormedF, SitesFs, EmitFs, Encode, GetsEpilogue, AllWellFormed, Distinct, FitsStack, JumpsToEnd, Layout;
    SleeperImage();
    SleeperWellFormed();
    SleeperMain([]);
    SleeperHelper([]);
    SleeperSize();
    TwoChecks(SLEEPER[0], SLEEPER[1], ENTRY_SIZE, HALT, Calls(SLEEPER));
    assert Calls(SLEEPER) == [Symbol(MAIN, 1)];
    hide Image;
  }

  lemma SleeperSize()
    ensures |SleeperCode()| == 19
  {
    hide Encode;
  }

  lemma SleeperWellFormed()
    ensures WellFormedF(SLEEPER[0]) && WellFormedF(SLEEPER[1])
    ensures SitesSs(SLEEPER[0].body, 4) == SitesSs(SLEEPER[1].body, 7) == []
    ensures !CalledTerminated(SLEEPER)
  {
    assert DeclaredSs(SLEEPER[0].body) == [] && DeclaredSs(SLEEPER[1].body) == [];
  }

  lemma Then(code: seq<byte>, s: State, gpio: nat -> bool, i: Instr, t: State, n: nat)
    requires s.Valid() && t.Valid() && Encodable(i) && At(code, s.pc, Encode(i))
    requires i.LoadLocal? || i.StoreLocal? ==> i.slot < LOCAL_COUNT
    requires Execute(i, s.pc + Width(i), |code|, s, gpio) == Running(t)
    ensures Run(code, s, gpio, n + 1) == Run(code, t, gpio, n)
  {
    hide Execute, Run, Encode;
    One(code, s, gpio, i);
    RunCompose(code, s, gpio, 1, n);
  }

  lemma SleeperBytes()
    ensures var c := SleeperCode();
            && At(c, 0, Encode(Call(4))) && At(c, 3, Encode(Halt)) && At(c, 4, Encode(Sleep(3840)))
            && At(c, 7, Encode(PushI32(7)))
            && At(c, 12, Encode(PrintInt)) && At(c, 13, Encode(PushI32(0))) && At(c, 18, Encode(Ret)) && |c| == 19
  {
    hide Encode, At;
    var c, helper := SleeperCode(), Encode(PushI32(7)) + Encode(PrintInt);
    WholeAt(c);
    AtSplit(c, 0, Encode(Call(4)) + Encode(Halt), Encode(Sleep(3840)) + (helper + EPILOGUE));
    AtSplit(c, 0, Encode(Call(4)), Encode(Halt));
    AtSplit(c, 4, Encode(Sleep(3840)), helper + EPILOGUE);
    AtSplit(c, 7, helper, EPILOGUE);
    AtSplit(c, 7, Encode(PushI32(7)), Encode(PrintInt));
    AtSplit(c, 13, Encode(PushI32(0)), Encode(Ret));
  }

  /** Main's frame during the run. */
  function Inside(pc: nat, stack: seq<i32>, trace: seq<Event>): State {
    State(pc, stack, ZERO_LOCALS, [Frame(3, 0, ZERO_LOCALS)], trace)
  }

  lemma SleeperStarts(gpio: nat -> bool)
    ensures Run(SleeperCode(), RESET, gpio, 3) == Running(Inside(12, [7], [Slept(3840)]))
  {
    hide Run, Encode, At, SleeperCode;
    var c := SleeperCode();
    SleeperBytes();
    Then(c, RESET, gpio, Call(4), Inside(4, [], []), 2);
    Then(c, Inside(4, [], []), gpio, Sleep(3840), Inside(7, [], [Slept(3840)]), 1);
    One(c, Inside(7, [], [Slept(3840)]), gpio, PushI32(7));
  }

  lemma SleeperEnds(gpio: nat -> bool, trace: seq<Event>)
    ensures Run(SleeperCode(), Inside(13, [], trace), gpio, 3) == Exited(trace)
  {
    hide Run, Encode, At, SleeperCode;
    var c, out := SleeperCode(), State(3, [0], ZERO_LOCALS, [], trace);
    SleeperBytes();
    Then(c, Inside(13, [], trace), gpio, PushI32(0), Inside(18, [0], trace), 2);
    Then(c, Inside(18, [0], trace), gpio, Ret, out, 1);
    One(c, out, gpio, Halt);
  }

  lemma SleeperRuns(gpio: nat -> bool)
    ensures Run(SleeperCode(), RESET, gpio, 7) == Exited([Slept(3840), Printed(7)])
  {
    hide Run, Encode, At, SleeperCode;
    var c, s, t := SleeperCode(), Inside(12, [7], [Slept(3840)]), Inside(13, [], [Slept(3840), Printed(7)]);
    SleeperBytes();
    SleeperStarts(gpio);
    SleeperEnds(gpio, t.trace);
    Then(c, s, gpio, PrintInt, t, 3);
    RunCompose(c, RESET, gpio, 3, 4);
  }

  lemma SleeperMeans(gpio: nat -> bool)
    ensures Means(SLEEPER, gpio, Exited([Slept(3840)]))
  {
    var body, sleep := Cons(SleepFor(3840), Nil), SleepFor(3840);
    assert BodyOf(SLEEPER, MAIN) == body;
    assert Exec(SLEEPER, sleep, map[], 0, 1, [], gpio, 0) == Went(map[], [] + [Slept(3840)]);
    assert ExecAll(SLEEPER, Nil, map[], 0, 1, [] + [Slept(3840)], gpio, 0) == Went(map[], [Slept(3840)]);
    assert ExecAll(SLEEPER, body, map[], 0, 1, [], gpio, 0) == Went(map[], [Slept(3840)]);
    assert Behaviour(SLEEPER, gpio, 1) == Gave(0, [Slept(3840)]);
  }

  /** A run has one end. */
  lemma OneEnd(p: Program, gpio: nat -> bool, m: nat, a: Outcome, b: Outcome)
    requires Run(Image(p), RESET, gpio, m) == a && !a.Running? && Finishes(p, gpio, b)
    ensures a == b
  {
    hide Run, Image;
    var w := World(p, gpio, {});
    var n: nat :| Run(Image(p), RESET, gpio, n) == b;
    if n <= m { Settled(w, n, m); } else { Settled(w, m, n); }
  }

  // ---------- acceptance by the compiler ----------

  /** Spelled in at most eleven characters. */
  predicate Brief(t: Token) {
    Spellable(t) && !t.TkString? && (t.TkNumber? ==> t.value < 10_000)
  }

  lemma BriefSpelling(t: Token)
    requires Brief(t)
    ensures |Spelling(t)| <= 11
  {
    if t.TkNumber? { BriefNumber(t.value); }
  }

  lemma BriefNumber(v: nat)
    requires v < 10_000
    ensures |Decimal(v)| <= 4
  {
    hide Lexer.Value;
    assert v / 10 < 1000 && v / 10 / 10 < 100 && v / 10 / 10 / 10 < 10;
    assert |Decimal(v / 10 / 10 / 10)| == 1;
    assert |Decimal(v / 10 / 10)| <= 2;
    assert |Decimal(v / 10)| <= 3;
  }

  lemma {:induction false} BriefPrint(ts: seq<Token>)
    requires forall k :: 0 <= k < |ts| ==> Brief(ts[k])
    ensures AllSpellable(ts) && |Print(ts)| <= 12 * |ts| && (ts != [] ==> Print(ts) != [])
    decreases |ts|
  {
    hide Spelling, Brief, Spellable;
    BriefIsSpellable(ts);
    if ts != [] {
      BriefSpelling(ts[0]);
      BriefPrint(ts[1..]);
    }
  }

  lemma BriefIsSpellable(ts: seq<Token>)
    requires forall k :: 0 <= k < |ts| ==> Brief(ts[k])
    ensures AllSpellable(ts)
  {
    hide Spellable;
  }

  predicate CompiledTo(tokens: seq<Token>, p: Program, image: seq<byte>) {
    P.WellLexed(tokens) && var (s, q) := P.CompileState(tokens); !s.Failed() && q == p && s.code == image
  }

  /** The compiler accepts the program's tokens, and its printed text, and leaves its image. */
  ghost predicate Accepted(p: Program) {
    && CompiledTo(SpellProgram(p) + [TkEof], p, Image(p))
    && AllSpellable(SpellProgram(p)) && Compilation(Print(SpellProgram(p))) == Built(Image(p))
  }

  lemma SmallProgramsAreAccepted(p: Program, text: seq<Token>)
    requires Proper(p) && AllOrdered(p) && |p| <= P.MAX_FUNCTIONS && |SitesFs(p, ENTRY_SIZE, HALT)| < P.MAX_CALLS
    requires SpellProgram(p) == text && 0 < |text| < 25 && forall k :: 0 <= k < |text| ==> Brief(text[k])
    ensures Accepted(p)
  {
    hide P.CompileState, P.WellLexed, SpellProgram, Image, Print, AllSpellable, Proper, AllOrdered, SitesFs, Brief;
    BriefPrint(text);
    forall k | 0 <= k < |text| && text[k].TkIdent? ensures |text[k].name| < P.NAME_SIZE { BriefName(text[k]); }
    assert Admissible(p);
    CompilesToItself(p);
    PrintedProgramsCompile(p);
  }

  lemma BriefName(t: Token)
    requires Brief(t) && t.TkIdent?
    ensures |t.name| < P.NAME_SIZE
  {
  }

  lemma TwoSpellings(f: Function, g: Function)
    ensures SpellProgram([f, g]) == SpellF(f) + SpellF(g) && SpellProgram([f]) == SpellF(f)
  {
    hide SpellF;
    assert [f, g][1..] == [g] && [f][1..] == [] && [g][1..] == [];
    assert SpellProgram([g]) == SpellF(g);
  }

  /** The tokens of SLEEPER. */
  function SleeperText(): seq<Token> {
    [TkInt, TkIdent(MAIN), TkLParen, TkRParen, TkLBrace, TkSleep, TkLParen, TkNumber(3840), TkRParen, TkSemi, TkRBrace,
     TkInt, TkIdent(HELPER), TkLParen, TkRParen, TkLBrace, TkPrint, TkLParen, TkNumber(7), TkRParen, TkSemi, TkRBrace]
  }

  lemma SleeperSpelled()
    ensures SpellProgram(SLEEPER) == SleeperText()
  {
    TwoSpellings(SLEEPER[0], SLEEPER[1]);
    assert SpellF(SLEEPER[0]) == SleeperText()[..11];
    assert SpellF(SLEEPER[1]) == SleeperText()[11..];
  }

  lemma NamesAreNames()
    ensures Brief(TkIdent(MAIN)) && Brief(TkIdent(HELPER))
  {
  }

  lemma SleeperBrief()
    ensures forall k :: 0 <= k < |SleeperText()| ==> Brief(SleeperText()[k])
  {
    NamesAreNames();
  }

  lemma SleeperAccepted()
    ensures Accepted(SLEEPER)
  {
    hide SitesFs, Proper, Image, Accepted, Brief, SleeperText, SpellProgram, Ordered, Loadable;
    SleeperProper();
    SleeperImage();
    SleeperSpelled();
    SleeperBrief();
    SleeperFacts();
    SmallProgramsAreAccepted(SLEEPER, SleeperText());
  }

  lemma SleeperFacts()
    ensures |SleeperText()| == 22 && Ordered(SLEEPER[0].body, []) && Ordered(SLEEPER[1].body, [])
  {
  }

  /** The condition is needed: the compiler, from tokens and from text, and the verifier accept a program
      whose main runs on into the next function, so that the machine prints a number the program does not
      print. */
  lemma MissingReturnGoesUnnoticed(gpio: nat -> bool)
    ensures Accepted(SLEEPER) && Acceptable(Image(SLEEPER)) && !CalledTerminated(SLEEPER)
    ensures Means(SLEEPER, gpio, Exited([Slept(3840)])) && !Finishes(SLEEPER, gpio, Exited([Slept(3840)]))
    ensures Finishes(SLEEPER, gpio, Exited([Slept(3840), Printed(7)]))
  {
    hide Run, Loadable, Acceptable, Image, Proper, Table, SleeperCode, Means, Encode, CalledTerminated, Accepted;
    var wrong, right := Exited([Slept(3840), Printed(7)]), Exited([Slept(3840)]);
    SleeperImage();
    SleeperProper();
    SleeperAccepted();
    SleeperWellFormed();
    VerifierAcceptsLoadable(SLEEPER);
    SleeperRuns(gpio);
    SleeperMeans(gpio);
    assert Run(Image(SLEEPER), RESET, gpio, 7) == wrong;
    if Finishes(SLEEPER, gpio, right) { OneEnd(SLEEPER, gpio, 7, wrong, right); }
  }

  // ---------- accepted by the compiler, refused by the verifier ----------

  /** The compiler's test for the implicit return, read off the syntax. */
  lemma EpilogueExactly(f: Function, at: nat, prev: byte)
    requires WellFormedF(f) && at + SizeSs(f.body) <= MAX_CODE
    ensures GetsEpilogue(f, at, prev) <==> !EndsRet(f.body, prev == RET)
  {
    hide EmitSs, EndsRet;
    LastOfSs(f.body, at, DeclaredSs(f.body), [], prev);
  }

  function Returning(v: i32): Stmts { Cons(Return(Num(v)), Nil) }

  /** `int main() { if (1) { return 2; } else { return 3; } }`: the jump over the else branch leads to the end. */
  const BRANCHER: Program := [Function(MAIN, Cons(IfElse(Num(1), Returning(2), Returning(3)), Nil))]

  /** `int main() { g(); } int g() { }`: the empty body follows a return and gets none of its own. */
  const CALLER: Program := [Function(MAIN, Cons(CallStmt(HELPER), Nil)), Function(HELPER, Nil)]

  lemma OneFunction(f: Function, at: nat, prev: byte, fns: seq<Symbol>)
    ensures Layout([f], at, prev) == [Symbol(f.name, at)] && EmitFs([f], at, prev, fns) == EmitF(f, at, prev, fns)
    ensures SitesFs([f], at, prev) == SitesSs(f.body, at) && SizeFs([f], at, prev) == SizeF(f, at, prev)
    ensures JumpsToEnd([f], at, prev) <==> !GetsEpilogue(f, at, prev) && EndsInJump(f.body)
  {
    hide EmitF, GetsEpilogue, SitesSs, SizeF, EndsInJump;
    assert [f][1..] == [];
  }

  lemma BrancherFacts()
    ensures var f := BRANCHER[0];
            && WellFormedF(f) && SizeSs(f.body) == 23 && SitesSs(f.body, ENTRY_SIZE) == [] && EndsRet(f.body, false)
            && EndsInJump(f.body) && Ordered(f.body, [])
  {
    assert DeclaredSs(BRANCHER[0].body) == [];
  }

  lemma BrancherProper()
    ensures Proper(BRANCHER) && JumpsToEnd(BRANCHER, ENTRY_SIZE, HALT) && SitesFs(BRANCHER, ENTRY_SIZE, HALT) == []
  {
    hide EmitF, SitesSs, SizeSs, EndsRet, EndsInJump, WellFormedF, GetsEpilogue, Ordered, EmitFs, SitesFs, Layout,
      JumpsToEnd, Encode;
    var f := BRANCHER[0];
    BrancherFacts();
    EpilogueExactly(f, ENTRY_SIZE, HALT);
    assert Table(BRANCHER) == [Symbol(MAIN, ENTRY_SIZE)] by { OneFunction(f, ENTRY_SIZE, HALT, []); }
    OneFunction(f, ENTRY_SIZE, HALT, Table(BRANCHER));
    LastFunction(BRANCHER, HELPER);
  }

  function BrancherText(): seq<Token> {
    [TkInt, TkIdent(MAIN), TkLParen, TkRParen, TkLBrace, TkIf, TkLParen, TkNumber(1), TkRParen,
     TkLBrace, TkReturn, TkNumber(2), TkSemi, TkRBrace,
     TkElse, TkLBrace, TkReturn, TkNumber(3), TkSemi, TkRBrace, TkRBrace]
  }

  lemma BrancherSpelled()
    ensures SpellProgram(BRANCHER) == BrancherText() && |BrancherText()| == 21
  {
    hide SpellF;
    TwoSpellings(BRANCHER[0], BRANCHER[0]);
    BrancherBody();
  }

  lemma BranchSpelled(v: i32)
    ensures SpellBlock(Returning(v)) == [TkLBrace, TkReturn, TkNumber(v), TkSemi, TkRBrace]
  {
    hide SpellBlock;
    BlockSpelled(Return(Num(v)));
  }

  lemma BrancherBody()
    ensures SpellF(BRANCHER[0]) == BrancherText() && |BrancherText()| == 21
  {
    hide SpellBlock;
    BranchSpelled(2);
    BranchSpelled(3);
    BlockSpelled(IfElse(Num(1), Returning(2), Returning(3)));
  }

  lemma BlockSpelled(st: Stmt)
    ensures SpellBlock(Cons(st, Nil)) == [TkLBrace] + SpellS(st) + [TkRBrace]
  {
    hide SpellS;
    assert SpellSs(Nil) == [];
    assert SpellSs(Cons(st, Nil)) == SpellS(st) + [];
  }

  lemma BrancherBrief()
    ensures forall k :: 0 <= k < |BrancherText()| ==> Brief(BrancherText()[k])
  {
    NamesAreNames();
  }

  /** A last function that ends in an if whose two branches return compiles, and is never loaded. */
  lemma ReturningBranchesAreRefused()
    ensures Accepted(BRANCHER) && !Loadable(BRANCHER) && !Acceptable(Image(BRANCHER))
  {
    hide SitesFs, Proper, Image, Accepted, Brief, BrancherText, JumpsToEnd, FitsStack, CalleesHaveCode, Acceptable,
      Ordered, SpellProgram;
    BrancherProper();
    BrancherFacts();
    BrancherSpelled();
    BrancherBrief();
    SmallProgramsAreAccepted(BRANCHER, BrancherText());
    VerifierAcceptsLoadable(BRANCHER);
  }

  lemma CallerFacts()
    ensures var (f, g) := (CALLER[0], CALLER[1]);
            && WellFormedF(f) && SizeSs(f.body) == 4 && SitesSs(f.body, ENTRY_SIZE) == [Symbol(HELPER, 5)]
            && !EndsRet(f.body, false)
            && WellFormedF(g) && SizeSs(g.body) == 0 && SitesSs(g.body, 14) == [] && EndsRet(g.body, true)
            && Ordered(f.body, []) && Ordered(g.body, [])
  {
    assert DeclaredSs(CALLER[0].body) == [] && DeclaredSs(CALLER[1].body) == [];
  }

  lemma CallerLaidOut(fns: seq<Symbol>)
    ensures Table(CALLER) == [Symbol(MAIN, 4), Symbol(HELPER, 14)]
            && SitesFs(CALLER, ENTRY_SIZE, HALT) == [Symbol(HELPER, 5)]
    ensures |EmitFs(CALLER, ENTRY_SIZE, HALT, fns)| == 10
  {
    hide EmitF, SitesSs, SizeSs, EndsRet, WellFormedF, GetsEpilogue, Ordered, EmitFs, SitesFs, Layout;
    CallerFacts();
    EpilogueExactly(CALLER[0], ENTRY_SIZE, HALT);
    EpilogueExactly(CALLER[1], 14, RET);
    TwoFunctions(CALLER[0], CALLER[1], ENTRY_SIZE, HALT, fns);
  }

  lemma TwoWellFormed(f: Function, g: Function)
    requires WellFormedF(f) && WellFormedF(g) && f.name != g.name
    ensures AllWellFormed([f, g]) && Distinct([f, g])
  {
    hide WellFormedF;
    assert [f, g][1..] == [g];
    LastFunction([g], f.name);
  }

  lemma CallerProper()
    ensures Proper(CALLER) && !CalleesHaveCode(CALLER)
  {
    hide WellFormedF, EmitFs, SitesFs, Layout, Encode, Distinct, AllWellFormed, EndsRet, SitesSs, SizeSs, Ordered;
    CallerLaidOut(Table(CALLER));
    CallerFacts();
    TwoWellFormed(CALLER[0], CALLER[1]);
    assert CALLER == [CALLER[0], CALLER[1]];
    assert |Image(CALLER)| == 14;
    hide Image;
    assert Table(CALLER)[1..] == [Symbol(HELPER, 14)];
    assert Known(Table(CALLER)[1..], HELPER);
    assert Calls(CALLER)[1] == Symbol(HELPER, 5);
    assert Address(Table(CALLER), HELPER) == 14;
  }

  function CallerText(): seq<Token> {
    [TkInt, TkIdent(MAIN), TkLParen, TkRParen, TkLBrace, TkIdent(HELPER), TkLParen, TkRParen, TkSemi, TkRBrace,
     TkInt, TkIdent(HELPER), TkLParen, TkRParen, TkLBrace, TkRBrace]
  }

  lemma CallerSpelled()
    ensures SpellProgram(CALLER) == CallerText() && |CallerText()| == 16
  {
    TwoSpellings(CALLER[0], CALLER[1]);
    assert SpellF(CALLER[0]) == CallerText()[..10];
    assert SpellF(CALLER[1]) == CallerText()[10..];
  }

  lemma CallerBrief()
    ensures forall k :: 0 <= k < |CallerText()| ==> Brief(CallerText()[k])
  {
    NamesAreNames();
  }

  /** A call of an empty last function compiles, and is never loaded. */
  lemma EmptyCalleesAreRefused()
    ensures Accepted(CALLER) && !Loadable(CALLER) && !Acceptable(Image(CALLER))
  {
    hide SitesFs, Proper, Image, Accepted, Brief, CallerText, JumpsToEnd, FitsStack, CalleesHaveCode, Acceptable,
      Ordered, SpellProgram;
    CallerProper();
    CallerFacts();
    CallerLaidOut([]);
    CallerSpelled();
    CallerBrief();
    SmallProgramsAreAccepted(CALLER, CallerText());
    VerifierAcceptsLoadable(CALLER);
  }
}
