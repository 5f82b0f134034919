/** The converse of Acceptance: whatever depths the verifier settles on for a compiled image are the ones
    read off the syntax, so an accepted image comes from a loadable program. */
module Rejection {
  import opened Common
  import opened Hbc
  import opened Source
  import opened Emission
  import opened Programs
  import opened Verifier
  import opened Acceptance

  /** The verifier's verdict on `code`, with the depths it found. */
  ghost predicate Judged(code: seq<byte>, depth: seq<int>) {
    |code| <= MAX_CODE && Decodes(code, 0) && TargetsAreStarts(code) && Consistent(code, depth)
  }

  /** Linear decoding reaches `at`; if control does too, the depth there is d. */
  ghost predicate Enters(code: seq<byte>, depth: seq<int>, at: nat, live: bool, d: nat) {
    |depth| == |code| && Reach(code, at) && at <= |code| && (live && at < |code| ==> depth[at] == d)
  }

  /** What is known after an instruction that runs at depth d. */
  lemma ForceOne(code: seq<byte>, depth: seq<int>, at: nat, i: Instr, live: bool, d: nat)
    requires Judged(code, depth) && Enters(code, depth, at, live, d) && Encodable(i) && At(code, at, Encode(i))
    ensures live ==> d <= STACK_SIZE && 0 <= Effect(i, d) <= STACK_SIZE
    ensures Enters(code, depth, at + Width(i), live && FallsThrough(i), if live then Effect(i, d) else 0)
    ensures HasTarget(i) ==> IsStart(code, i.target)
    ensures i.Call? ==> depth[i.target] == 0
    ensures live && (i.Jmp? || i.Jz?) ==> depth[i.target] == Effect(i, d)
  {
    hide Decode, Encode, Start, Decodes, Effect;
    Instruction(code, at, i);
    AtBound(code, at, Encode(i));
    assert InstrAt(code, at) == i;
    if live { assert FlowOk(code, depth, at); }
  }

  lemma LandJoin(code: seq<byte>, depth: seq<int>, a: seq<Symbol>, b: seq<Symbol>, fns: seq<Symbol>)
    requires CallsLand(code, depth, a, fns) && CallsLand(code, depth, b, fns)
    ensures CallsLand(code, depth, a + b, fns)
  {
    hide IsStart;
    assert forall k :: 0 <= k < |a + b| ==> (a + b)[k] == if k < |a| then a[k] else b[k - |a|];
  }

  lemma {:induction false} ForceE(code: seq<byte>, depth: seq<int>, at: nat, e: Expr, d: nat, live: bool,
                                  names: seq<Name>, fns: seq<Symbol>)
    requires Judged(code, depth) && Setting(code, names, fns) && BoundE(e, names)
    requires Enters(code, depth, at, live, d) && At(code, at, EmitE(e, names, fns))
    ensures Enters(code, depth, at + SizeE(e), live, d + 1) && (live ==> d + NeedE(e) <= STACK_SIZE)
    ensures CallsLand(code, depth, SitesE(e, at), fns)
    decreases e, 1
  {
    hide Encode, Small, At, Reach, IsStart, CallsLand, Judged;
    match e {
      case Num(v) => ForceOne(code, depth, at, PushI32(v), live, d); NoCalls(code, depth, fns);
      case Var(n) => ForceOne(code, depth, at, LoadLocal(Slot(names, n)), live, d); NoCalls(code, depth, fns);
      case CallExpr(n) => ForceCall(code, depth, at, n, live, d, fns);
      case Paren(i) => ForceE(code, depth, at, i, d, live, names, fns);
      case Neg(i) => ForceNeg(code, depth, at, i, d, live, names, fns);
      case Bin(op, l, r) => ForceBin(code, depth, at, op, l, r, d, live, names, fns);
    }
  }

  lemma NoCalls(code: seq<byte>, depth: seq<int>, fns: seq<Symbol>)
    requires |depth| == |code|
    ensures CallsLand(code, depth, [], fns)
  {
  }

  lemma ForceCall(code: seq<byte>, depth: seq<int>, at: nat, n: Name, live: bool, d: nat, fns: seq<Symbol>)
    requires Judged(code, depth) && Small(fns) && Enters(code, depth, at, live, d)
             && At(code, at, Encode(Call(Address(fns, n))))
    ensures Enters(code, depth, at + 3, live, d + 1) && (live ==> d + 1 <= STACK_SIZE)
    ensures CallsLand(code, depth, [Symbol(n, at + 1)], fns)
  {
    hide Encode, Small, At, Reach, IsStart, Decodes, TargetsAreStarts;
    AddressSmall(fns, n);
    ForceOne(code, depth, at, Call(Address(fns, n)), live, d);
  }

  lemma {:induction false} ForceNeg(code: seq<byte>, depth: seq<int>, at: nat, i: Expr, d: nat, live: bool,
                                    names: seq<Name>, fns: seq<Symbol>)
    requires Judged(code, depth) && Setting(code, names, fns) && BoundE(i, names)
    requires Enters(code, depth, at, live, d) && At(code, at, EmitE(Neg(i), names, fns))
    ensures Enters(code, depth, at + SizeE(Neg(i)), live, d + 1) && (live ==> d + NeedE(Neg(i)) <= STACK_SIZE)
    ensures CallsLand(code, depth, SitesE(Neg(i), at), fns)
    decreases Neg(i), 0
  {
    hide Encode, Small, At, Reach, IsStart, CallsLand, Decodes, TargetsAreStarts, Consistent;
    var zero, ic, subAt := Encode(PushI32(0)), EmitE(i, names, fns), at + 5 + SizeE(i);
    AtSplit(code, at, zero + ic, Encode(Binary(Sub)));
    AtSplit(code, at, zero, ic);
    AtBound(code, subAt, Encode(Binary(Sub)));
    DepthSize(code, depth);
    ForceOne(code, depth, at, PushI32(0), live, d);
    ForceE(code, depth, at + 5, i, d + 1, live, names, fns);
    ForceOne(code, depth, subAt, Binary(Sub), live, d + 2);
  }

  lemma DepthSize(code: seq<byte>, depth: seq<int>)
    requires Consistent(code, depth)
    ensures |depth| == |code|
  {
  }

  lemma {:induction false} ForceBin(code: seq<byte>, depth: seq<int>, at: nat, op: BinOp, l: Expr, r: Expr, d: nat,
                                    live: bool,
                                    names: seq<Name>, fns: seq<Symbol>)
    requires Judged(code, depth) && Setting(code, names, fns) && BoundE(l, names) && BoundE(r, names)
    requires Enters(code, depth, at, live, d) && At(code, at, EmitE(Bin(op, l, r), names, fns))
    ensures var e := Bin(op, l, r);
            && Enters(code, depth, at + SizeE(e), live, d + 1) && (live ==> d + NeedE(e) <= STACK_SIZE)
            && CallsLand(code, depth, SitesE(e, at), fns)
    decreases Bin(op, l, r), 0
  {
    hide Encode, Small, At, Reach, IsStart, CallsLand, Decodes, TargetsAreStarts, Consistent;
    var rAt, opAt := at + SizeE(l), at + SizeE(l) + SizeE(r);
    AtSplit(code, at, EmitE(l, names, fns) + EmitE(r, names, fns), Encode(Binary(op)));
    AtSplit(code, at, EmitE(l, names, fns), EmitE(r, names, fns));
    AtBound(code, opAt, Encode(Binary(op)));
    DepthSize(code, depth);
    ForceE(code, depth, at, l, d, live, names, fns);
    ForceE(code, depth, rAt, r, d + 1, live, names, fns);
    ForceOne(code, depth, opAt, Binary(op), live, d + 2);
    LandJoin(code, depth, SitesE(l, at), SitesE(r, rAt), fns);
  }

  lemma ForceTail(code: seq<byte>, depth: seq<int>, at: nat, e: Expr, i: Instr, live: bool, names: seq<Name>,
                  fns: seq<Symbol>)
    requires Judged(code, depth) && Setting(code, names, fns) && BoundE(e, names)
    requires Enters(code, depth, at, live, 0) && Encodable(i) && !i.Call? && Effect(i, 1) >= 0
             && At(code, at, EmitE(e, names, fns) + Encode(i))
    ensures Enters(code, depth, at + SizeE(e) + Width(i), live && FallsThrough(i), Effect(i, 1))
    ensures (live ==> NeedE(e) <= STACK_SIZE) && CallsLand(code, depth, SitesE(e, at), fns)
    ensures HasTarget(i) ==> IsStart(code, i.target) && |depth| == |code| && (live ==> depth[i.target] == Effect(i, 1))
  {
    hide Encode, Small, At, Reach, IsStart, CallsLand, Decodes, TargetsAreStarts, Consistent, EmitE, SitesE, Effect,
      SizeE, NeedE;
    AtSplit(code, at, EmitE(e, names, fns), Encode(i));
    AtBound(code, at + SizeE(e), Encode(i));
    DepthSize(code, depth);
    ForceE(code, depth, at, e, 0, live, names, fns);
    ForceOne(code, depth, at + SizeE(e), i, live, 1);
  }

  /** What is known after a statement whose entry has depth 0. */
  ghost predicate After(code: seq<byte>, depth: seq<int>, next: nat, live: bool, completes: bool, jumps: bool,
                        need: nat,
                        sites: seq<Symbol>, fns: seq<Symbol>) {
    && Reach(code, next) && Fits(code, depth, next, live && completes, jumps)
    && (live ==> need <= STACK_SIZE) && CallsLand(code, depth, sites, fns)
  }

  lemma {:induction false} ForceS(code: seq<byte>, depth: seq<int>, at: nat, s: Stmt, live: bool, names: seq<Name>,
                                  fns: seq<Symbol>)
    requires Judged(code, depth) && Setting(code, names, fns) && WellFormedS(s, names)
    requires Enters(code, depth, at, live, 0) && At(code, at, EmitS(s, at, names, fns))
    ensures After(code, depth, at + SizeS(s), live, !AlwaysReturnsS(s), EndsInJumpS(s), NeedS(s), SitesS(s, at), fns)
    decreases s, 1
  {
    hide Encode, Small, At, Reach, IsStart, CallsLand, Decodes, TargetsAreStarts, Consistent, Enters, After, EmitE,
      EmitSs, SitesE, SitesSs, SizeE, NeedE;
    match s {
      case If(c, t) => ForceIf(code, depth, at, c, t, live, names, fns);
      case IfElse(c, t, e) => ForceIfElse(code, depth, at, c, t, e, live, names, fns);
      case While(c, b) => ForceWhile(code, depth, at, c, b, live, names, fns);
      case Block(b) => ForceSs(code, depth, at, b, live, names, fns);
      case _ => ForceSimple(code, depth, at, s, live, names, fns);
    }
  }

  /** A statement without jumps. */
  lemma NoJumps(code: seq<byte>, depth: seq<int>, next: nat, live: bool, completes: bool, need: nat, sites: seq<Symbol>,
                fns: seq<Symbol>)
    requires Enters(code, depth, next, live && completes, 0) && (live ==> need <= STACK_SIZE)
             && CallsLand(code, depth, sites, fns)
    ensures After(code, depth, next, live, completes, false, need, sites, fns)
  {
    hide Reach, IsStart, CallsLand, Decodes;
    ReachStart(code, next);
  }

  lemma ForceSimple(code: seq<byte>, depth: seq<int>, at: nat, s: Stmt, live: bool, names: seq<Name>, fns: seq<Symbol>)
    requires Simple(s) && Judged(code, depth) && Setting(code, names, fns) && WellFormedS(s, names)
    requires Enters(code, depth, at, live, 0) && At(code, at, EmitS(s, at, names, fns))
    ensures After(code, depth, at + SizeS(s), live, !AlwaysReturnsS(s), EndsInJumpS(s), NeedS(s), SitesS(s, at), fns)
  {
    hide Encode, Small, At, CallsLand, Judged, EmitE, EmitSs, SitesE, SitesSs, SizeE, NeedE, Enters, After, BoundE;
    EntersSize(code, depth, at, live);
    NoCalls(code, depth, fns);
    var next, completes := at + SizeS(s), !AlwaysReturnsS(s);
    assert Enters(code, depth, next, live && completes, 0) && (live ==> NeedS(s) <= STACK_SIZE)
           && CallsLand(code, depth, SitesS(s, at), fns) by {
      match s {
        case Declare(n) => ForceDeclare(code, depth, at, n, live, names, fns);
        case WriteString(raw, _) =>
          AtBound(code, at, Encode(Write(Text(raw)))); ForceOne(code, depth, at, Write(Text(raw)), live, 0);
        case SleepFor(ms) => ForceOne(code, depth, at, Sleep(ms), live, 0);
        case ToggleGpio => ForceOne(code, depth, at, Gpio, live, 0);
        case CallStmt(n) => ForceCallStmt(code, depth, at, n, live, names, fns);
        case _ => ForceTailS(code, depth, at, s, live, names, fns);
      }
    }
    NoJumps(code, depth, next, live, completes, NeedS(s), SitesS(s, at), fns);
  }

  predicate EndsOnValue(s: Stmt) {
    s.DeclareInit? || s.Assign? || s.Return? || s.PrintExpr?
  }

  lemma ForceTailS(code: seq<byte>, depth: seq<int>, at: nat, s: Stmt, live: bool, names: seq<Name>, fns: seq<Symbol>)
    requires EndsOnValue(s) && Judged(code, depth) && Setting(code, names, fns) && WellFormedS(s, names)
    requires Enters(code, depth, at, live, 0) && At(code, at, EmitS(s, at, names, fns))
    ensures |depth| == |code|
    ensures Enters(code, depth, at + SizeS(s), live && !AlwaysReturnsS(s), 0) && (live ==> NeedS(s) <= STACK_SIZE)
    ensures CallsLand(code, depth, SitesS(s, at), fns)
  {
    hide Encode, Small, At, CallsLand, Judged, EmitE, EmitSs, SitesE, SitesSs, SizeE, NeedE, Enters, BoundE;
    EntersSize(code, depth, at, live);
    match s {
      case DeclareInit(n, e) => ForceTail(code, depth, at, e, StoreLocal(Slot(names, n)), live, names, fns);
      case Assign(n, e) => ForceTail(code, depth, at, e, StoreLocal(Slot(names, n)), live, names, fns);
      case Return(e) => ForceTail(code, depth, at, e, Ret, live, names, fns);
      case PrintExpr(e) => ForceTail(code, depth, at, e, PrintInt, live, names, fns);
    }
    DeadEnd(code, depth, at + SizeS(s));
  }

  lemma EntersSize(code: seq<byte>, depth: seq<int>, at: nat, live: bool)
    requires Enters(code, depth, at, live, 0)
    ensures |depth| == |code|
  {
    hide Reach;
  }

  /** Nothing is claimed of the depth where control does not arrive. */
  lemma DeadEnd(code: seq<byte>, depth: seq<int>, at: nat)
    ensures Enters(code, depth, at, false, 1) ==> Enters(code, depth, at, false, 0)
  {
    hide Reach;
  }

  lemma ForceDeclare(code: seq<byte>, depth: seq<int>, at: nat, n: Name, live: bool, names: seq<Name>, fns: seq<Symbol>)
    requires Judged(code, depth) && Setting(code, names, fns) && n in names
    requires Enters(code, depth, at, live, 0) && At(code, at, EmitS(Declare(n), at, names, fns))
    ensures Enters(code, depth, at + 7, live, 0)
  {
    hide Encode, Small, At, Decodes, TargetsAreStarts, Consistent, Reach;
    AtSplit(code, at, Encode(PushI32(0)), Encode(StoreLocal(Slot(names, n))));
    ForceOne(code, depth, at, PushI32(0), live, 0);
    ForceOne(code, depth, at + 5, StoreLocal(Slot(names, n)), live, 1);
  }

  lemma ForceCallStmt(code: seq<byte>, depth: seq<int>, at: nat, n: Name, live: bool, names: seq<Name>,
                      fns: seq<Symbol>)
    requires Judged(code, depth) && Setting(code, names, fns)
    requires Enters(code, depth, at, live, 0) && At(code, at, EmitS(CallStmt(n), at, names, fns))
    ensures Enters(code, depth, at + 4, live, 0) && CallsLand(code, depth, [Symbol(n, at + 1)], fns)
  {
    hide Encode, Small, At, Decodes, TargetsAreStarts, Consistent, Reach, CallsLand;
    AtSplit(code, at, Encode(Call(Address(fns, n))), Encode(Pop));
    ForceCall(code, depth, at, n, live, 0, fns);
    ForceOne(code, depth, at + 3, Pop, live, 1);
  }

  lemma {:induction false} ForceSs(code: seq<byte>, depth: seq<int>, at: nat, ss: Stmts, live: bool, names: seq<Name>,
                                   fns: seq<Symbol>)
    requires Judged(code, depth) && Setting(code, names, fns) && WellFormedSs(ss, names)
    requires Enters(code, depth, at, live, 0) && At(code, at, EmitSs(ss, at, names, fns))
    ensures After(code, depth, at + SizeSs(ss), live, !AlwaysReturns(ss), EndsInJump(ss), Need(ss),
                  SitesSs(ss, at), fns)
    decreases ss, 0
  {
    hide Encode, Small, At, Reach, IsStart, CallsLand, Decodes, TargetsAreStarts, Consistent, EmitS, SitesS, SizeS,
      NeedS;
    match ss {
      case Nil => NoCalls(code, depth, fns); ReachStart(code, at);
      case Cons(h, t) =>
        var mid, live1 := at + SizeS(h), live && !AlwaysReturnsS(h);
        AtSplit(code, at, EmitS(h, at, names, fns), EmitSs(t, mid, names, fns));
        ForceS(code, depth, at, h, live, names, fns);
        ForceSs(code, depth, mid, t, live1, names, fns);
        LandJoin(code, depth, SitesS(h, at), SitesSs(t, mid), fns);
    }
  }

  lemma {:induction false} ForceIf(code: seq<byte>, depth: seq<int>, at: nat, c: Expr, t: Stmts, live: bool,
                                   names: seq<Name>, fns: seq<Symbol>)
    requires Judged(code, depth) && Setting(code, names, fns) && WellFormedS(If(c, t), names)
    requires Enters(code, depth, at, live, 0) && At(code, at, EmitS(If(c, t), at, names, fns))
    ensures var s := If(c, t);
            After(code, depth, at + SizeS(s), live, !AlwaysReturnsS(s), true, NeedS(s), SitesS(s, at), fns)
    decreases If(c, t), 0
  {
    hide Encode, Small, At, Reach, IsStart, CallsLand, Decodes, TargetsAreStarts, Consistent, EmitE, EmitSs, SitesE,
      SitesSs, SizeE, NeedE, Setting, FlowOk, SizeSs;
    var thenAt := at + SizeE(c) + 3;
    var next := thenAt + SizeSs(t);
    AtSplit(code, at, EmitE(c, names, fns) + Encode(Jz(next)), EmitSs(t, thenAt, names, fns));
    AtBound(code, thenAt, EmitSs(t, thenAt, names, fns));
    ForceTail(code, depth, at, c, Jz(next), live, names, fns);
    ForceSs(code, depth, thenAt, t, live, names, fns);
    LandJoin(code, depth, SitesE(c, at), SitesSs(t, thenAt), fns);
  }

  lemma {:induction false} ForceIfElse(code: seq<byte>, depth: seq<int>, at: nat, c: Expr, t: Stmts, e: Stmts,
                                       live: bool,
                                       names: seq<Name>, fns: seq<Symbol>)
    requires Judged(code, depth) && Setting(code, names, fns) && WellFormedS(IfElse(c, t, e), names)
    requires Enters(code, depth, at, live, 0) && At(code, at, EmitS(IfElse(c, t, e), at, names, fns))
    ensures var s := IfElse(c, t, e);
            After(code, depth, at + SizeS(s), live, !AlwaysReturnsS(s), true, NeedS(s), SitesS(s, at), fns)
    decreases IfElse(c, t, e), 0
  {
    hide Encode, Small, At, Reach, IsStart, CallsLand, Decodes, TargetsAreStarts, Consistent, EmitE, EmitSs, EmitS,
      SitesE, SitesSs, SitesS, SizeE, SizeSs, NeedE;
    var thenAt := at + SizeE(c) + 3;
    var jmpAt := thenAt + SizeSs(t);
    var elseAt := jmpAt + 3;
    var next, live1 := elseAt + SizeSs(e), live && !AlwaysReturns(t);
    ElseCode(code, at, c, t, e, names, fns);
    AtBound(code, elseAt, EmitSs(e, elseAt, names, fns));
    IfElseSites(at, c, t, e);
    ForceTail(code, depth, at, c, Jz(elseAt), live, names, fns);
    ForceSs(code, depth, thenAt, t, live, names, fns);
    ForceOne(code, depth, jmpAt, Jmp(next), live1, 0);
    ForceSs(code, depth, elseAt, e, live, names, fns);
    LandJoin(code, depth, SitesE(c, at), SitesSs(t, thenAt), fns);
    LandJoin(code, depth, SitesE(c, at) + SitesSs(t, thenAt), SitesSs(e, elseAt), fns);
  }

  lemma ElseCode(code: seq<byte>, at: nat, c: Expr, t: Stmts, e: Stmts, names: seq<Name>, fns: seq<Symbol>)
    requires At(code, at, EmitS(IfElse(c, t, e), at, names, fns))
    ensures var thenAt := at + SizeE(c) + 3; var jmpAt := thenAt + SizeSs(t); var elseAt := jmpAt + 3;
            && At(code, at, EmitE(c, names, fns) + Encode(Jz(elseAt)))
            && At(code, thenAt, EmitSs(t, thenAt, names, fns))
            && At(code, jmpAt, Encode(Jmp(elseAt + SizeSs(e)))) && At(code, elseAt, EmitSs(e, elseAt, names, fns))
  {
    hide Encode, At, EmitE, EmitSs, EmitS, SizeE, SizeSs;
    var thenAt := at + SizeE(c) + 3;
    var elseAt := thenAt + SizeSs(t) + 3;
    var jmp, tc, ec := Encode(Jmp(elseAt + SizeSs(e))), EmitSs(t, thenAt, names, fns), EmitSs(e, elseAt, names, fns);
    var guard := EmitE(c, names, fns) + Encode(Jz(elseAt));
    IfElseCode(at, c, t, e, names, fns, thenAt, elseAt);
    AtSplit(code, at, guard + tc + jmp, ec);
    AtSplit(code, at, guard + tc, jmp);
    AtSplit(code, at, guard, tc);
  }

  lemma {:induction false} ForceWhile(code: seq<byte>, depth: seq<int>, at: nat, c: Expr, b: Stmts, live: bool,
                                      names: seq<Name>, fns: seq<Symbol>)
    requires Judged(code, depth) && Setting(code, names, fns) && WellFormedS(While(c, b), names)
    requires Enters(code, depth, at, live, 0) && At(code, at, EmitS(While(c, b), at, names, fns))
    ensures var s := While(c, b);
            After(code, depth, at + SizeS(s), live, !AlwaysReturnsS(s), true, NeedS(s), SitesS(s, at), fns)
    decreases While(c, b), 0
  {
    hide Encode, Small, At, Reach, IsStart, CallsLand, Decodes, TargetsAreStarts, Consistent, EmitE, EmitSs, EmitS,
      SitesE, SitesSs, SitesS, SizeE, SizeSs, NeedE;
    var bodyAt := at + SizeE(c) + 3;
    var jmpAt := bodyAt + SizeSs(b);
    var next, bc := jmpAt + 3, EmitSs(b, bodyAt, names, fns);
    var guard := EmitE(c, names, fns) + Encode(Jz(next));
    WhileCode(at, c, b, names, fns, bodyAt);
    AtSplit(code, at, guard + bc, Encode(Jmp(at)));
    AtSplit(code, at, guard, bc);
    AtBound(code, jmpAt, Encode(Jmp(at)));
    ForceTail(code, depth, at, c, Jz(next), live, names, fns);
    ForceSs(code, depth, bodyAt, b, live, names, fns);
    ForceOne(code, depth, jmpAt, Jmp(at), false, 0);
    ReachStart(code, next);
    LandJoin(code, depth, SitesE(c, at), SitesSs(b, bodyAt), fns);
  }

  // ---------- functions and images ----------

  lemma ForceF(code: seq<byte>, depth: seq<int>, at: nat, f: Function, prev: byte, live: bool, fns: seq<Symbol>)
    requires Judged(code, depth) && Small(fns) && WellFormedF(f)
    requires Enters(code, depth, at, live, 0) && At(code, at, EmitF(f, at, prev, fns))
    ensures Enters(code, depth, at + SizeF(f, at, prev), Falls(f, at, prev, live), 0)
            && (live ==> Need(f.body) <= STACK_SIZE)
    ensures CallsLand(code, depth, SitesSs(f.body, at), fns)
    ensures EndsInJump(f.body) && !GetsEpilogue(f, at, prev) ==> IsStart(code, at + SizeF(f, at, prev))
  {
    hide Encode, Small, At, Reach, IsStart, CallsLand, Decodes, TargetsAreStarts, Consistent, EmitSs, SitesSs,
      GetsEpilogue, DeclaredSs;
    var names, end := DeclaredSs(f.body), at + SizeSs(f.body);
    var body := EmitSs(f.body, at, names, fns);
    assert body + [] == body;
    if GetsEpilogue(f, at, prev) {
      AtSplit(code, at, body, EPILOGUE);
    }
    ForceSs(code, depth, at, f.body, live, names, fns);
    if GetsEpilogue(f, at, prev) {
      AtSplit(code, end, Encode(PushI32(0)), Encode(Ret));
      ForceOne(code, depth, end, PushI32(0), false, 0);
      ForceOne(code, depth, end + 5, Ret, false, 0);
    }
  }

  lemma {:induction false} LandKnown(code: seq<byte>, depth: seq<int>, calls: seq<Symbol>, fns: seq<Symbol>, n: Name)
    requires CallsLand(code, depth, calls, fns) && Known(calls, n)
    ensures Address(fns, n) < |depth| == |code| && depth[Address(fns, n)] == 0
  {
    hide IsStart;
    if calls[0].name != n {
      assert forall k :: 0 <= k < |calls[1..]| ==> calls[1..][k] == calls[k + 1];
      LandKnown(code, depth, calls[1..], fns, n);
    }
  }

  /** The table gives every function of p its place in the layout. */
  ghost predicate Addressed(p: Program, at: nat, prev: byte, fns: seq<Symbol>) {
    forall n :: Defined(p, n) ==> Address(fns, n) == Address(Layout(p, at, prev), n)
  }

  lemma RestAddressed(p: Program, at: nat, prev: byte, fns: seq<Symbol>)
    requires p != [] && Distinct(p) && Addressed(p, at, prev, fns)
    ensures Address(fns, p[0].name) == at && Addressed(p[1..], at + SizeF(p[0], at, prev), RET, fns)
  {
    hide SizeF;
    assert Defined(p, p[0].name);
    forall n | Defined(p[1..], n)
      ensures Address(fns, n) == Address(Layout(p[1..], at + SizeF(p[0], at, prev), RET), n)
    {
      assert Defined(p, n) && n != p[0].name;
    }
  }

  lemma {:induction false} ForceFs(code: seq<byte>, depth: seq<int>, at: nat, p: Program, prev: byte, fell: bool,
                                   calls: seq<Symbol>,
                                   fns: seq<Symbol>)
    requires Judged(code, depth) && Small(fns) && AllWellFormed(p) && Distinct(p)
    requires Enters(code, depth, at, fell, 0) && At(code, at, EmitFs(p, at, prev, fns))
             && at + SizeFs(p, at, prev) == |code|
    requires CallsLand(code, depth, calls, fns)
    requires Addressed(p, at, prev, fns)
    ensures FitsStack(p, at, prev, fell, calls) && !JumpsToEnd(p, at, prev)
            && CallsLand(code, depth, SitesFs(p, at, prev), fns)
    decreases |p|
  {
    hide GetsEpilogue, EmitF, At, Small, Reach, Judged, WellFormedF, IsStart, SitesSs, CallsLand, Need, EndsInJump,
      Falls, Layout, Addressed;
    if p == [] {
      NoCalls(code, depth, fns);
    } else {
      var f, live := p[0], Live(p, fell, calls);
      var next, falls := at + SizeF(f, at, prev), Falls(f, at, prev, live);
      AtSplit(code, at, EmitF(f, at, prev, fns), EmitFs(p[1..], next, RET, fns));
      if Known(calls, f.name) {
        LandKnown(code, depth, calls, fns, f.name);
      }
      RestAddressed(p, at, prev, fns);
      ForceF(code, depth, at, f, prev, live, fns);
      ForceFs(code, depth, next, p[1..], RET, falls, calls, fns);
      LandJoin(code, depth, SitesSs(f.body, at), SitesFs(p[1..], next, RET), fns);
    }
  }

  /** Necessity. */
  lemma AcceptedImagesAreLoadable(p: Program)
    requires Proper(p) && Acceptable(Image(p))
    ensures Loadable(p)
  {
    hide Image, SitesFs, Layout, At, Small, Decodes, Encode, EmitFs, Start, CallsLand, AllWellFormed, TargetsAreStarts,
      ShapeFs, Distinct, CallsDefined, FitsStack, JumpsToEnd, Known, Address, IsStart, Reach, Consistent;
    var code, fns := Image(p), Table(p);
    var depth :| Consistent(code, depth);
    var main := Address(fns, MAIN);
    ImageParts(p);
    DepthSize(code, depth);
    EntryIsZero(code, depth);
    NoCalls(code, depth, fns);
    ForceCall(code, depth, 0, MAIN, true, 0, fns);
    ForceOne(code, depth, 3, Halt, true, 1);
    ForceFs(code, depth, ENTRY_SIZE, p, HALT, false, [], fns);
    SameSymbol(code, depth, fns);
    LandJoin(code, depth, [Symbol(MAIN, 1)], SitesFs(p, ENTRY_SIZE, HALT), fns);
    ForceFs(code, depth, ENTRY_SIZE, p, HALT, false, Calls(p), fns);
    LandsInside(p, depth);
  }

  lemma EntryIsZero(code: seq<byte>, depth: seq<int>)
    requires Consistent(code, depth)
    ensures depth[0] == 0
  {
  }

  lemma SameSymbol(code: seq<byte>, depth: seq<int>, fns: seq<Symbol>)
    requires CallsLand(code, depth, [Symbol(MAIN, 0 + 1)], fns)
    ensures CallsLand(code, depth, [Symbol(MAIN, 1)], fns)
  {
  }

  lemma LandsInside(p: Program, depth: seq<int>)
    requires CallsLand(Image(p), depth, Calls(p), Table(p))
    ensures CalleesHaveCode(p)
  {
    hide Image, Calls, Table, Start;
  }

  /** Main result: the verifier accepts a compiled image exactly when the program is loadable. */
  lemma VerifierAcceptsLoadable(p: Program)
    requires Proper(p)
    ensures Acceptable(Image(p)) <==> Loadable(p)
  {
    hide Acceptable, Loadable, Image, Proper;
    if Loadable(p) { LoadableImagesPass(p); }
    if Acceptable(Image(p)) { AcceptedImagesAreLoadable(p); }
  }
}
