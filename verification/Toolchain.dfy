/** The toolchain end to end: from the tokens the compiler accepts to what the machine does. */
module Toolchain {
  import opened Common
  import opened Hbc
  import opened Machine
  import opened Source
  import opened Emission
  import opened Parser
  import opened Programs
  import opened Verifier
  import opened Acceptance
  import opened Rejection
  import opened Simulation

  // ---------- when the compiler thinks a body has returned ----------

  /** The last byte emitted for the statement is the RET opcode; `prev` tells whether the byte before it is. */
  predicate EndsRetS(s: Stmt, prev: bool) {
    match s
    case Return(_) => true
    case If(_, t) => EndsRet(t, false)
    case IfElse(_, _, e) => EndsRet(e, false)
    case WriteString(raw, _) => var t := Text(raw); t != [] && t[|t| - 1] == RET
    case SleepFor(ms) => 0x0F00 <= ms < 0x1000
    case Block(b) => EndsRet(b, prev)
    case _ => false
  }

  predicate EndsRet(ss: Stmts, prev: bool) {
    match ss
    case Nil => prev
    case Cons(h, t) => EndsRet(t, EndsRetS(h, prev))
  }

  lemma LastAppend(a: seq<byte>, b: seq<byte>, prev: byte)
    ensures Last(a + b, prev) == Last(b, Last(a, prev))
  {
  }

  lemma LastInstr(i: Instr, prev: byte)
    ensures Last(Encode(i), prev) ==
              match i
              case PushI32(v) => WordBytes(v)[3]
              case LoadLocal(slot) => slot % 0x100
              case StoreLocal(slot) => slot % 0x100
              case Write(t) => if t == [] then 0 else t[|t| - 1]
              case Call(t) => t / 0x100 % 0x100
              case Sleep(t) => t / 0x100 % 0x100
              case Jmp(t) => t / 0x100 % 0x100
              case Jz(t) => t / 0x100 % 0x100
              case _ => Encode(i)[0]
  {
    hide WordBytes, OpcodeOf;
  }

  lemma {:induction false} LastOfS(s: Stmt, at: nat, names: seq<Name>, fns: seq<Symbol>, prev: byte)
    requires WellFormedS(s, names) && |names| <= LOCAL_COUNT && at + SizeS(s) <= MAX_CODE
    ensures Last(EmitS(s, at, names, fns), prev) == RET <==> EndsRetS(s, prev == RET)
    decreases s, 1
  {
    hide Encode, EmitE, EmitSs, Last, SizeE, BoundE, IsExpression;
    match s {
      case If(c, t) =>
        var thenAt := at + SizeE(c) + 3;
        LastAppend(EmitE(c, names, fns), Encode(Jz(thenAt + SizeSs(t))), prev);
        LastAppend(EmitE(c, names, fns) + Encode(Jz(thenAt + SizeSs(t))), EmitSs(t, thenAt, names, fns), prev);
        var jz := Last(Encode(Jz(thenAt + SizeSs(t))), Last(EmitE(c, names, fns), prev));
        LastInstr(Jz(thenAt + SizeSs(t)), Last(EmitE(c, names, fns), prev));
        LastOfSs(t, thenAt, names, fns, jz);
      case IfElse(c, t, e) => LastOfElse(c, t, e, at, names, fns, prev);
      case While(c, b) =>
        var bodyAt := at + SizeE(c) + 3;
        WhileCode(at, c, b, names, fns, bodyAt);
        LastTail(EmitE(c, names, fns) + Encode(Jz(bodyAt + SizeSs(b) + 3)) + EmitSs(b, bodyAt, names, fns), Jmp(at),
                 prev);
      case Block(b) => LastOfSs(b, at, names, fns, prev);
      case _ => LastOfSimple(s, at, names, fns, prev);
    }
  }

  lemma LastTail(a: seq<byte>, i: Instr, prev: byte)
    ensures Last(a + Encode(i), prev) == Last(Encode(i), 0)
    ensures (i.Jmp? || i.Jz?) && i.target <= MAX_CODE ==> Last(a + Encode(i), prev) != RET
  {
    hide Encode;
    LastAppend(a, Encode(i), prev);
    LastInstr(i, 0);
  }

  lemma LastOfSimple(s: Stmt, at: nat, names: seq<Name>, fns: seq<Symbol>, prev: byte)
    requires Simple(s) && WellFormedS(s, names) && |names| <= LOCAL_COUNT && at + SizeS(s) <= MAX_CODE
    ensures Last(EmitS(s, at, names, fns), prev) == RET <==> EndsRetS(s, prev == RET)
  {
    hide Encode, EmitE, Last, SizeE, BoundE, IsExpression;
    match s {
      case Declare(n) =>
        LastTail(Encode(PushI32(0)), StoreLocal(Slot(names, n)), prev); LastInstr(StoreLocal(Slot(names, n)), 0);
      case DeclareInit(n, e) =>
        LastTail(EmitE(e, names, fns), StoreLocal(Slot(names, n)), prev); LastInstr(StoreLocal(Slot(names, n)), 0);
      case Assign(n, e) =>
        LastTail(EmitE(e, names, fns), StoreLocal(Slot(names, n)), prev); LastInstr(StoreLocal(Slot(names, n)), 0);
      case Return(e) => LastTail(EmitE(e, names, fns), Ret, prev); LastInstr(Ret, 0); Opcodes();
      case PrintExpr(e) => LastTail(EmitE(e, names, fns), PrintInt, prev); LastInstr(PrintInt, 0); Opcodes();
      case WriteString(raw, _) => LastInstr(Write(Text(raw)), prev);
      case SleepFor(ms) => LastInstr(Sleep(ms), prev);
      case ToggleGpio => LastInstr(Gpio, prev); Opcodes();
      case CallStmt(n) => LastTail(Encode(Call(Address(fns, n))), Pop, prev); LastInstr(Pop, 0); Opcodes();
    }
  }

  lemma Opcodes()
    ensures Encode(Ret)[0] == RET && Encode(PrintInt)[0] != RET && Encode(Gpio)[0] != RET && Encode(Pop)[0] != RET
  {
  }

  lemma {:induction false} LastOfElse(c: Expr, t: Stmts, e: Stmts, at: nat, names: seq<Name>, fns: seq<Symbol>,
                                      prev: byte)
    requires WellFormedS(IfElse(c, t, e), names) && |names| <= LOCAL_COUNT && at + SizeS(IfElse(c, t, e)) <= MAX_CODE
    ensures Last(EmitS(IfElse(c, t, e), at, names, fns), prev) == RET <==> EndsRet(e, false)
    decreases IfElse(c, t, e), 0
  {
    hide Encode, EmitE, EmitSs, EmitS, Last, SizeE, IsExpression, BoundE;
    var thenAt := at + SizeE(c) + 3;
    var elseAt := thenAt + SizeSs(t) + 3;
    var before := EmitE(c, names, fns) + Encode(Jz(elseAt)) + EmitSs(t, thenAt, names, fns);
    var jmp := Encode(Jmp(elseAt + SizeSs(e)));
    IfElseCode(at, c, t, e, names, fns, thenAt, elseAt);
    LastAppend(before + jmp, EmitSs(e, elseAt, names, fns), prev);
    LastTail(before, Jmp(elseAt + SizeSs(e)), prev);
    LastOfSs(e, elseAt, names, fns, Last(before + jmp, prev));
  }

  lemma {:induction false} LastOfSs(ss: Stmts, at: nat, names: seq<Name>, fns: seq<Symbol>, prev: byte)
    requires WellFormedSs(ss, names) && |names| <= LOCAL_COUNT && at + SizeSs(ss) <= MAX_CODE
    ensures Last(EmitSs(ss, at, names, fns), prev) == RET <==> EndsRet(ss, prev == RET)
    decreases ss, 0
  {
    hide EmitS;
    match ss {
      case Nil =>
      case Cons(h, t) =>
        var last := Last(EmitS(h, at, names, fns), prev);
        LastOfS(h, at, names, fns, prev);
        LastOfSs(t, at + SizeS(h), names, fns, last);
        LastAppend(EmitS(h, at, names, fns), EmitSs(t, at + SizeS(h), names, fns), prev);
    }
  }

  /** Control cannot run past the function's end: it got the implicit return or needs none. */
  predicate Terminated(f: Function, first: bool) {
    AlwaysReturns(f.body) || !EndsRet(f.body, !first)
  }

  /** The functions among `names` are terminated and call only each other. */
  predicate AllTerminated(p: Program, first: bool, names: set<Name>) {
    p != [] ==>
      && (p[0].name in names ==> Terminated(p[0], first) && CallsOnly(p[0].body, names))
      && AllTerminated(p[1..], false, names)
  }

  /** Every function that calls from main can reach is terminated. */
  ghost predicate CalledTerminated(p: Program) {
    exists names: set<Name> :: MAIN in names && AllTerminated(p, true, names)
  }

  lemma {:induction false} SealedFsExactly(p: Program, at: nat, prev: byte, names: set<Name>)
    requires AllWellFormed(p) && at + SizeFs(p, at, prev) <= MAX_CODE
    ensures SealedFs(p, at, prev, names) <==> AllTerminated(p, prev != RET, names)
    decreases |p|
  {
    hide EmitSs, DeclaredSs, AlwaysReturns, WellFormedSs, CallsOnly;
    if p != [] {
      LastOfSs(p[0].body, at, DeclaredSs(p[0].body), [], prev);
      SealedFsExactly(p[1..], at + SizeF(p[0], at, prev), RET, names);
    }
  }

  /** Which functions get the implicit return they need, read off their syntax. */
  lemma SealedExactly(p: Program, names: set<Name>)
    requires Proper(p)
    ensures Sealed(p, names) <==> AllTerminated(p, true, names)
  {
    hide EmitFs, SealedFs, AllTerminated, AllWellFormed, Distinct, CallsDefined, SizeFs;
    FsSizes(p, ENTRY_SIZE, HALT, Table(p), false, []);
    SealedFsExactly(p, ENTRY_SIZE, HALT, names);
  }

  // ---------- end to end ----------

  /** Main result: tokens the compiler accepts spell a program; its image is accepted by the verifier
      exactly when the program is loadable, and, if every function called is terminated, the machine
      finishes with an outcome exactly when the program means it. */
  lemma CompiledProgramsRun(tokens: seq<Token>, gpio: nat -> bool, r: Outcome)
    requires WellLexed(tokens) && !CompileState(tokens).0.Failed()
    ensures var (s, p) := CompileState(tokens);
            && tokens[..s.current] == SpellProgram(p) && Proper(p) && s.code == Image(p)
            && (Acceptable(s.code) <==> Loadable(p))
            && (CalledTerminated(p) ==> (Finishes(p, gpio, r) <==> Means(p, gpio, r)))
  {
    hide CompileState, Image, Acceptable, Loadable, AllTerminated, Finishes, Means, Proper, Sealed, WellLexed,
      SpellProgram;
    CompilerEmitsImage(tokens);
    var p := CompileState(tokens).1;
    VerifierAcceptsLoadable(p);
    if CalledTerminated(p) {
      var names: set<Name> :| MAIN in names && AllTerminated(p, true, names);
      SealedExactly(p, names);
      MachineMatchesMeaning(p, gpio, names, r);
    }
  }
}
