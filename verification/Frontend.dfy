/** From source text to a finished image, and what that image does. */
module Frontend {
  import opened Common
  import opened Hbc
  import opened Source
  import opened Emission
  import opened Lexer
  import opened Machine
  import P = Parser
  import opened Programs
  import opened Simulation
  import opened Acceptance
  import opened Verifier
  import opened Toolchain
  import opened Scanning
  import opened Compiler
  import opened Language

  const MAX_SOURCE: nat := 300

  /** An image, or the first error and the place reported for it. */
  datatype Build = Built(image: seq<byte>) | Rejected(error: int, line: nat, column: nat)

  function Compilation(source: seq<byte>): Build {
    if source == [] || |source| >= MAX_SOURCE then Rejected(-60, 0, 0)
    else
      match Lex(source)
      case Refused(why) => Rejected(why.error, why.line, why.column)
      case Lexemes(all) =>
        LexedWell(source);
        Verdict(all, P.CompileState(TokensOf(all)).0)
  }

  function Verdict(all: seq<Lexeme>, s: P.Hc): Build
    requires s.Valid() && |s.tokens| == |all|
  {
    if s.Failed() then
      var at := all[s.failure.value.token];
      Rejected(s.failure.value.error, at.line, at.column)
    else Built(s.code)
  }

  /** The source is checked for size, lexed and compiled. */
  method CompileSource(source: seq<byte>) returns (r: Build)
    ensures r == Compilation(source)
  {
    hide P.CompileState, P.WellLexed, Lexer.Lex, Proper, Image, SpellProgram;
    if |source| == 0 || |source| >= MAX_SOURCE { return Rejected(-60, 0, 0); }
    var scanner := new Scanner(source);
    var ok := scanner.Lex();
    if !ok {
      var why := scanner.failure.value;
      return Rejected(why.error, why.line, why.column);
    }
    LexedWell(source);
    var all := scanner.lexemes[..scanner.tokenCount];
    var hc := new HcCompiler(TokensOf(all));
    ok := hc.CompileGeneral();
    if !ok {
      var d := hc.failure.value;
      return Rejected(d.error, all[d.token].line, all[d.token].column);
    }
    return Built(hc.code[..hc.codeSize]);
  }

  /** The whole text is the spelling of p, and the image is p's. */
  ghost predicate Compiles(source: seq<byte>, image: seq<byte>, p: Program) {
    && Lex(source).Lexemes? && TokensOf(Lex(source).all) == SpellProgram(p) + [TkEof]
    && Proper(p) && image == Image(p)
  }

  /** Main result: text that is accepted spells, in full, a program; the image is accepted by the verifier
      exactly when the program is loadable, and, if the functions it calls are terminated, the machine finishes
      with exactly the outcomes that the program means. */
  lemma AcceptedSourcesRun(source: seq<byte>, gpio: nat -> bool, r: Outcome)
    requires Compilation(source).Built?
    ensures var image := Compilation(source).image;
            exists p :: Compiles(source, image, p) && (Acceptable(image) <==> Loadable(p)) &&
                        (CalledTerminated(p) ==> (Finishes(p, gpio, r) <==> Means(p, gpio, r)))
  {
    hide P.CompileState, P.WellLexed, Lex, Proper, Image, SpellProgram, Acceptable, Loadable, CalledTerminated,
      Finishes, Means, Legal;
    LexedWell(source);
    var tokens := TokensOf(Lex(source).all);
    CompilerEmitsImage(tokens);
    CompiledProgramsRun(tokens, gpio, r);
    var (s, p) := P.CompileState(tokens);
    assert s.current == |tokens| - 1 by {
      if s.current < |tokens| - 1 { LegalIsNoEnd(Lex(source).all[s.current].token); }
    }
    assert tokens == SpellProgram(p) + [TkEof];
    assert Compiles(source, Compilation(source).image, p);
  }

  /** Main result: a text is accepted exactly when it is short enough, lexes, and spells an admissible program. */
  lemma SourcesAcceptedExactly(source: seq<byte>)
    ensures Compilation(source).Built? <==>
              && source != [] && |source| < MAX_SOURCE && Lex(source).Lexemes?
              && exists p :: Admissible(p) && TokensOf(Lex(source).all) == SpellProgram(p) + [TkEof]
  {
    hide P.CompileState, P.WellLexed, Lex, SpellProgram, Admissible, Legal;
    if source != [] && |source| < MAX_SOURCE && Lex(source).Lexemes? {
      LexedWell(source);
      var all := Lex(source).all;
      forall k | 0 <= k < |all| - 1 ensures TokensOf(all)[k] != TkEof { LegalIsNoEnd(all[k].token); }
      CompilerAcceptsExactly(TokensOf(all));
    }
  }

  /** An admissible program, printed, compiles to its image. */
  lemma PrintedProgramsCompile(p: Program)
    requires var text := SpellProgram(p);
             Admissible(p) && AllSpellable(text) && |text| < MAX_TOKENS && 0 < |Print(text)| < MAX_SOURCE
    ensures Compilation(Print(SpellProgram(p))) == Built(Image(p))
  {
    hide P.CompileState, P.WellLexed, Lex, SpellProgram, Admissible, Image, Print, AllSpellable;
    PrintedTokensAreLexed(SpellProgram(p));
    LexedWell(Print(SpellProgram(p)));
    CompilesToItself(p);
  }

  lemma LegalIsNoEnd(t: Token)
    requires Legal(t)
    ensures t != TkEof
  {
  }

  /** Comments and spacing do not reach the image: a source without wrapped numbers compiles to what the
      plain printing of its tokens compiles to, if that is short enough to be a source. */
  lemma LayoutDoesNotReachTheImage(source: seq<byte>)
    requires Lex(source).Lexemes? && NoneWrapped(Lex(source).all) && Compilation(source).Built?
    ensures var front := Front(Lex(source).all);
            AllSpellable(front) && (|Print(front)| < MAX_SOURCE ==> Compilation(Print(front)) == Compilation(source))
  {
    hide P.CompileState, Lex, Legal;
    LayoutDoesNotMatter(source);
    var ts := TokensOf(Lex(source).all);
    LexedWell(source);
    if |ts| == 1 {
      assert ts == [TkEof];
      NothingToCompile();
    }
  }

  /** Comments alone are no program: there is no main. */
  lemma NothingToCompile()
    ensures P.WellLexed([TkEof]) && P.CompileState([TkEof]).0.Failed()
  {
    hide P.Fail, P.FunctionDefinition;
  }
}
