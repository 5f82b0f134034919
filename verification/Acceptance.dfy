/** Which compiled images the load-time verifier accepts: exactly those whose reached code needs at most
    16 operands and in which no call or jump leads to the very end of the image. */
module Acceptance {
  import opened Common
  import opened Hbc
  import opened Source
  import opened Emission
  import opened Programs
  import opened Verifier

  // ---------- the condition, on syntax ----------

  function Max(a: nat, b: nat): nat {
    if a < b then b else a
  }

  /** Operand cells an expression needs. */
  function NeedE(e: Expr): (r: nat)
    ensures r > 0
  {
    match e
    case Paren(i) => NeedE(i)
    case Neg(i) => 1 + NeedE(i)
    case Bin(_, l, r) => Max(NeedE(l), 1 + NeedE(r))
    case _ => 1
  }

  /** Operand cells needed by the part of a statement that control can reach. */
  function NeedS(s: Stmt): nat {
    match s
    case Declare(_) => 1
    case DeclareInit(_, e) => NeedE(e)
    case Assign(_, e) => NeedE(e)
    case Return(e) => NeedE(e)
    case PrintExpr(e) => NeedE(e)
    case If(c, t) => Max(NeedE(c), Need(t))
    case IfElse(c, t, e) => Max(NeedE(c), Max(Need(t), Need(e)))
    case While(c, b) => Max(NeedE(c), Need(b))
    case Block(b) => Need(b)
    case CallStmt(_) => 1
    case _ => 0
  }

  /** Code after a statement that always returns is not reached. */
  function Need(ss: Stmts): nat {
    match ss
    case Nil => 0
    case Cons(h, t) => if AlwaysReturnsS(h) then NeedS(h) else Max(NeedS(h), Need(t))
  }

  /** Some jump emitted for the statement leads to its end. */
  predicate EndsInJumpS(s: Stmt) {
    match s
    case If(_, _) => true
    case IfElse(_, _, _) => true
    case While(_, _) => true
    case Block(b) => EndsInJump(b)
    case _ => false
  }

  predicate EndsInJump(ss: Stmts) {
    match ss
    case Nil => false
    case Cons(h, t) => EndsInJump(t) || (SizeSs(t) == 0 && EndsInJumpS(h))
  }

  // ---------- linear decoding of emitted code ----------

  /** `at` is an instruction start or the end of a decodable image. */
  predicate Reach(code: seq<byte>, at: nat) {
    Decodes(code, 0) && (at == |code| || IsStart(code, at))
  }

  /** An emitted instruction at a reached address: it decodes, nothing starts inside it, and the
      address after it is reached. */
  lemma Instruction(code: seq<byte>, at: nat, i: Instr)
    requires Reach(code, at) && Encodable(i) && At(code, at, Encode(i))
    ensures IsStart(code, at) && Decode(code, at) == Fetched(i, at + Width(i)) && Reach(code, at + Width(i))
    ensures forall k: nat :: at < k < at + Width(i) ==> !IsStart(code, k)
  {
    hide Decode, Encode, Start, Decodes;
    DecodeEncode(code, at, i);
    StartStep(code, 0, at);
    NoStartInside(code, 0, at);
  }

  /** Decoding from a gets to b, and on to the end. */
  predicate Linked(code: seq<byte>, a: nat, b: nat) {
    a <= b <= |code| && Decodes(code, a) && Decodes(code, b) && (b == |code| || Start(code, a, b))
  }

  lemma LinkHere(code: seq<byte>, a: nat)
    requires a <= |code| && Decodes(code, a)
    ensures Linked(code, a, a)
  {
    hide Decode;
  }

  lemma {:induction false} LinkJoin(code: seq<byte>, a: nat, b: nat, c: nat)
    requires Linked(code, a, b) && Linked(code, b, c)
    ensures Linked(code, a, c)
    decreases b - a
  {
    hide Decode;
    if b < |code| && a != b {
      LinkJoin(code, Decode(code, a).next, b, c);
    }
  }

  lemma LinkReach(code: seq<byte>, a: nat, b: nat)
    requires Reach(code, a) && Linked(code, a, b)
    ensures Reach(code, b)
  {
    hide Decode;
    if a < |code| {
      StartStep(code, 0, a);
      assert Linked(code, 0, a);
      LinkJoin(code, 0, a, b);
    }
  }

  lemma LinkInstr(code: seq<byte>, at: nat, i: Instr)
    requires Encodable(i) && At(code, at, Encode(i)) && Decodes(code, at + Width(i))
    ensures Decodes(code, at) && Linked(code, at, at + Width(i))
  {
    hide Decode, Encode;
    DecodeEncode(code, at, i);
    LinkHere(code, at + Width(i));
  }

  lemma {:induction false} LinkE(code: seq<byte>, at: nat, e: Expr, names: seq<Name>, fns: seq<Symbol>)
    requires |code| <= MAX_CODE && |names| <= LOCAL_COUNT && BoundE(e, names) && Small(fns)
    requires At(code, at, EmitE(e, names, fns)) && Decodes(code, at + SizeE(e))
    ensures Decodes(code, at) && Linked(code, at, at + SizeE(e))
    decreases e, 1
  {
    hide Encode, Linked, Decodes, Small, At;
    match e {
      case Num(v) => LinkInstr(code, at, PushI32(v));
      case Var(n) => LinkInstr(code, at, LoadLocal(Slot(names, n)));
      case CallExpr(n) => AddressSmall(fns, n); LinkInstr(code, at, Call(Address(fns, n)));
      case Paren(i) => LinkE(code, at, i, names, fns);
      case Neg(i) => LinkNeg(code, at, i, names, fns);
      case Bin(op, l, r) => LinkBin(code, at, op, l, r, names, fns);
    }
  }

  lemma {:induction false} LinkNeg(code: seq<byte>, at: nat, i: Expr, names: seq<Name>, fns: seq<Symbol>)
    requires |code| <= MAX_CODE && |names| <= LOCAL_COUNT && BoundE(i, names) && Small(fns)
    requires At(code, at, EmitE(Neg(i), names, fns)) && Decodes(code, at + SizeE(Neg(i)))
    ensures Decodes(code, at) && Linked(code, at, at + SizeE(Neg(i)))
    decreases Neg(i), 0
  {
    hide Encode, Linked, Decodes, Small, At;
    var zero, ic, subAt := Encode(PushI32(0)), EmitE(i, names, fns), at + 5 + SizeE(i);
    AtSplit(code, at, zero + ic, Encode(Binary(Sub)));
    AtSplit(code, at, zero, ic);
    LinkInstr(code, subAt, Binary(Sub));
    LinkE(code, at + 5, i, names, fns);
    LinkInstr(code, at, PushI32(0));
    LinkJoin(code, at, at + 5, subAt);
    LinkJoin(code, at, subAt, subAt + 1);
  }

  lemma {:induction false} LinkBin(code: seq<byte>, at: nat, op: BinOp, l: Expr, r: Expr, names: seq<Name>,
                                   fns: seq<Symbol>)
    requires |code| <= MAX_CODE && |names| <= LOCAL_COUNT && BoundE(l, names) && BoundE(r, names) && Small(fns)
    requires At(code, at, EmitE(Bin(op, l, r), names, fns)) && Decodes(code, at + SizeE(Bin(op, l, r)))
    ensures Decodes(code, at) && Linked(code, at, at + SizeE(Bin(op, l, r)))
    decreases Bin(op, l, r), 0
  {
    hide Encode, Linked, Decodes, Small, At;
    var rAt, opAt := at + SizeE(l), at + SizeE(l) + SizeE(r);
    AtSplit(code, at, EmitE(l, names, fns) + EmitE(r, names, fns), Encode(Binary(op)));
    AtSplit(code, at, EmitE(l, names, fns), EmitE(r, names, fns));
    LinkInstr(code, opAt, Binary(op));
    LinkE(code, rAt, r, names, fns);
    LinkE(code, at, l, names, fns);
    LinkJoin(code, at, rAt, opAt);
    LinkJoin(code, at, opAt, opAt + 1);
  }

  /** Function addresses fit a call operand. */
  predicate Small(fns: seq<Symbol>) {
    forall k :: 0 <= k < |fns| ==> fns[k].address <= MAX_CODE
  }

  lemma {:induction false} AddressSmall(fns: seq<Symbol>, n: Name)
    requires Small(fns)
    ensures Address(fns, n) <= MAX_CODE
  {
    if fns != [] && fns[0].name != n {
      assert forall k :: 0 <= k < |fns[1..]| ==> fns[1..][k] == fns[k + 1];
      AddressSmall(fns[1..], n);
    }
  }

  /** Fixed data of the fragment lemmas: the image, the slots and the addresses. */
  ghost predicate Setting(code: seq<byte>, names: seq<Name>, fns: seq<Symbol>) {
    |code| <= MAX_CODE && |names| <= LOCAL_COUNT && Small(fns)
  }

  lemma {:induction false} LinkS(code: seq<byte>, at: nat, s: Stmt, names: seq<Name>, fns: seq<Symbol>)
    requires Setting(code, names, fns) && WellFormedS(s, names)
    requires At(code, at, EmitS(s, at, names, fns)) && Decodes(code, at + SizeS(s))
    ensures Decodes(code, at) && Linked(code, at, at + SizeS(s))
    decreases s, 1
  {
    hide Encode, Linked, Decodes, Small, EmitE, EmitSs, At;
    match s {
      case If(c, t) => LinkIf(code, at, c, t, names, fns);
      case IfElse(c, t, e) => LinkIfElse(code, at, c, t, e, names, fns);
      case While(c, b) => LinkWhile(code, at, c, b, names, fns);
      case Block(b) => LinkSs(code, at, b, names, fns);
      case _ => LinkSimple(code, at, s, names, fns);
    }
  }

  predicate Simple(s: Stmt) {
    !s.If? && !s.IfElse? && !s.While? && !s.Block?
  }

  lemma LinkSimple(code: seq<byte>, at: nat, s: Stmt, names: seq<Name>, fns: seq<Symbol>)
    requires Simple(s) && Setting(code, names, fns) && WellFormedS(s, names)
    requires At(code, at, EmitS(s, at, names, fns)) && Decodes(code, at + SizeS(s))
    ensures Decodes(code, at) && Linked(code, at, at + SizeS(s))
  {
    hide Encode, Linked, Decodes, Small, EmitE, EmitSs, At, SizeE, BoundE;
    match s {
      case Declare(n) =>
        AtSplit(code, at, Encode(PushI32(0)), Encode(StoreLocal(Slot(names, n))));
        LinkInstr(code, at + 5, StoreLocal(Slot(names, n)));
        LinkInstr(code, at, PushI32(0));
        LinkJoin(code, at, at + 5, at + 7);
      case DeclareInit(n, e) => LinkTail(code, at, e, StoreLocal(Slot(names, n)), names, fns);
      case Assign(n, e) => LinkTail(code, at, e, StoreLocal(Slot(names, n)), names, fns);
      case Return(e) => LinkTail(code, at, e, Ret, names, fns);
      case PrintExpr(e) => LinkTail(code, at, e, PrintInt, names, fns);
      case WriteString(raw, _) => AtBound(code, at, Encode(Write(Text(raw)))); LinkInstr(code, at, Write(Text(raw)));
      case SleepFor(ms) => LinkInstr(code, at, Sleep(ms));
      case ToggleGpio => LinkInstr(code, at, Gpio);
      case CallStmt(n) =>
        AddressSmall(fns, n);
        AtSplit(code, at, Encode(Call(Address(fns, n))), Encode(Pop));
        LinkInstr(code, at + 3, Pop);
        LinkInstr(code, at, Call(Address(fns, n)));
        LinkJoin(code, at, at + 3, at + 4);
    }
  }

  lemma {:induction false} LinkIf(code: seq<byte>, at: nat, c: Expr, t: Stmts, names: seq<Name>, fns: seq<Symbol>)
    requires Setting(code, names, fns) && WellFormedS(If(c, t), names)
    requires At(code, at, EmitS(If(c, t), at, names, fns)) && Decodes(code, at + SizeS(If(c, t)))
    ensures Decodes(code, at) && Linked(code, at, at + SizeS(If(c, t)))
    decreases If(c, t), 0
  {
    hide Encode, Linked, Decodes, Small, EmitE, EmitSs, At;
    var thenAt := at + SizeE(c) + 3;
    AtSplit(code, at, EmitE(c, names, fns) + Encode(Jz(thenAt + SizeSs(t))), EmitSs(t, thenAt, names, fns));
    LinkSs(code, thenAt, t, names, fns);
    AtBound(code, thenAt, EmitSs(t, thenAt, names, fns));
    LinkTail(code, at, c, Jz(thenAt + SizeSs(t)), names, fns);
    LinkJoin(code, at, thenAt, thenAt + SizeSs(t));
  }

  lemma LinkTail(code: seq<byte>, at: nat, e: Expr, i: Instr, names: seq<Name>, fns: seq<Symbol>)
    requires Setting(code, names, fns) && BoundE(e, names) && Encodable(i)
    requires At(code, at, EmitE(e, names, fns) + Encode(i)) && Decodes(code, at + SizeE(e) + Width(i))
    ensures Decodes(code, at) && Linked(code, at, at + SizeE(e) + Width(i))
  {
    hide Encode, Linked, Decodes, Small, EmitE, At, SizeE, Width, Encodable, BoundE;
    var mid := at + SizeE(e);
    AtSplit(code, at, EmitE(e, names, fns), Encode(i));
    LinkInstr(code, mid, i);
    LinkE(code, at, e, names, fns);
    LinkJoin(code, at, mid, mid + Width(i));
  }

  lemma {:induction false} LinkIfElse(code: seq<byte>, at: nat, c: Expr, t: Stmts, e: Stmts, names: seq<Name>,
                                      fns: seq<Symbol>)
    requires Setting(code, names, fns) && WellFormedS(IfElse(c, t, e), names)
    requires At(code, at, EmitS(IfElse(c, t, e), at, names, fns)) && Decodes(code, at + SizeS(IfElse(c, t, e)))
    ensures Decodes(code, at) && Linked(code, at, at + SizeS(IfElse(c, t, e)))
    decreases IfElse(c, t, e), 0
  {
    hide Encode, Linked, Decodes, Small, EmitE, EmitSs, EmitS, At, SizeE;
    var thenAt := at + SizeE(c) + 3;
    var elseAt := thenAt + SizeSs(t) + 3;
    var next := elseAt + SizeSs(e);
    IfElseCode(at, c, t, e, names, fns, thenAt, elseAt);
    AtSplit5(code, at, EmitE(c, names, fns), Encode(Jz(elseAt)), EmitSs(t, thenAt, names, fns), Encode(Jmp(next)),
             EmitSs(e, elseAt, names, fns));
    AtBound(code, elseAt, EmitSs(e, elseAt, names, fns));
    LinkSs(code, elseAt, e, names, fns);
    LinkInstr(code, thenAt + SizeSs(t), Jmp(next));
    LinkSs(code, thenAt, t, names, fns);
    LinkInstr(code, at + SizeE(c), Jz(elseAt));
    LinkE(code, at, c, names, fns);
    LinkJoin(code, at, at + SizeE(c), thenAt);
    LinkJoin(code, at, thenAt, thenAt + SizeSs(t));
    LinkJoin(code, at, thenAt + SizeSs(t), elseAt);
    LinkJoin(code, at, elseAt, next);
  }

  lemma {:induction false} LinkWhile(code: seq<byte>, at: nat, c: Expr, b: Stmts, names: seq<Name>, fns: seq<Symbol>)
    requires Setting(code, names, fns) && WellFormedS(While(c, b), names)
    requires At(code, at, EmitS(While(c, b), at, names, fns)) && Decodes(code, at + SizeS(While(c, b)))
    ensures Decodes(code, at) && Linked(code, at, at + SizeS(While(c, b)))
    decreases While(c, b), 0
  {
    hide Encode, Linked, Decodes, Small, EmitE, EmitSs, EmitS, At, SizeE;
    var bodyAt := at + SizeE(c) + 3;
    var next := bodyAt + SizeSs(b) + 3;
    var jz, bc := Encode(Jz(next)), EmitSs(b, bodyAt, names, fns);
    WhileCode(at, c, b, names, fns, bodyAt);
    AtSplit(code, at, EmitE(c, names, fns) + jz + bc, Encode(Jmp(at)));
    AtSplit(code, at, EmitE(c, names, fns) + jz, bc);
    AtBound(code, bodyAt + SizeSs(b), Encode(Jmp(at)));
    LinkInstr(code, bodyAt + SizeSs(b), Jmp(at));
    LinkSs(code, bodyAt, b, names, fns);
    LinkTail(code, at, c, Jz(next), names, fns);
    LinkJoin(code, at, bodyAt, bodyAt + SizeSs(b));
    LinkJoin(code, at, bodyAt + SizeSs(b), next);
  }

  lemma {:induction false} LinkSs(code: seq<byte>, at: nat, ss: Stmts, names: seq<Name>, fns: seq<Symbol>)
    requires Setting(code, names, fns) && WellFormedSs(ss, names)
    requires At(code, at, EmitSs(ss, at, names, fns)) && Decodes(code, at + SizeSs(ss))
    ensures Decodes(code, at) && Linked(code, at, at + SizeSs(ss))
    decreases ss, 0
  {
    hide Encode, Linked, Decodes, Small, EmitS, At;
    match ss {
      case Nil => AtBound(code, at, EmitSs(ss, at, names, fns)); LinkHere(code, at);
      case Cons(h, t) =>
        AtSplit(code, at, EmitS(h, at, names, fns), EmitSs(t, at + SizeS(h), names, fns));
        LinkSs(code, at + SizeS(h), t, names, fns);
        LinkS(code, at, h, names, fns);
        LinkJoin(code, at, at + SizeS(h), at + SizeSs(ss));
    }
  }

  lemma {:induction false} LinkFs(code: seq<byte>, at: nat, p: Program, prev: byte, fns: seq<Symbol>)
    requires |code| <= MAX_CODE && Small(fns) && AllWellFormed(p)
    requires At(code, at, EmitFs(p, at, prev, fns)) && at + |EmitFs(p, at, prev, fns)| == |code|
    ensures Decodes(code, at) && Linked(code, at, |code|)
    decreases |p|
  {
    hide Encode, Small, EmitSs, At, GetsEpilogue, DeclaredSs;
    if p != [] {
      var f := p[0];
      var next := at + SizeF(f, at, prev);
      AtSplit(code, at, EmitF(f, at, prev, fns), EmitFs(p[1..], next, RET, fns));
      LinkFs(code, next, p[1..], RET, fns);
      LinkF(code, at, f, prev, fns);
      LinkJoin(code, at, next, |code|);
    } else {
      LinkHere(code, at);
    }
  }

  lemma LinkF(code: seq<byte>, at: nat, f: Function, prev: byte, fns: seq<Symbol>)
    requires |code| <= MAX_CODE && Small(fns) && WellFormedF(f)
    requires At(code, at, EmitF(f, at, prev, fns)) && Decodes(code, at + SizeF(f, at, prev))
    ensures Decodes(code, at) && Linked(code, at, at + SizeF(f, at, prev))
  {
    hide Encode, Small, EmitSs, At, GetsEpilogue, DeclaredSs, Linked, Decodes;
    var body, end := EmitSs(f.body, at, DeclaredSs(f.body), fns), at + SizeSs(f.body);
    if GetsEpilogue(f, at, prev) {
      AtSplit(code, at, body, EPILOGUE);
      AtSplit(code, end, Encode(PushI32(0)), Encode(Ret));
      LinkInstr(code, end + 5, Ret);
      LinkInstr(code, end, PushI32(0));
    } else {
      assert body + [] == body;
    }
    LinkSs(code, at, f.body, DeclaredSs(f.body), fns);
    if GetsEpilogue(f, at, prev) {
      LinkJoin(code, end, end + 5, end + 6);
      LinkJoin(code, at, end, end + 6);
    }
  }

  // ---------- the depths of emitted code ----------

  /** -1 everywhere in code that control does not reach. */
  function Cell(live: bool, d: int): int {
    if live then d else -1
  }

  function Blank(n: nat): (r: seq<int>)
    ensures |r| == n && forall k :: 0 <= k < n ==> r[k] == -1
  {
    seq(n, _ => -1)
  }

  /** One instruction of width n at depth d. */
  function Op(live: bool, d: int, n: nat): (r: seq<int>)
    requires n > 0
    ensures |r| == n && r[0] == Cell(live, d) && forall k :: 0 < k < n ==> r[k] == -1
  {
    [Cell(live, d)] + Blank(n - 1)
  }

  function ShapeE(e: Expr, d: int, live: bool): (r: seq<int>)
    ensures |r| == SizeE(e) > 0 && r[0] == Cell(live, d)
  {
    match e
    case Num(_) => Op(live, d, 5)
    case Var(_) => Op(live, d, 2)
    case CallExpr(_) => Op(live, d, 3)
    case Paren(i) => ShapeE(i, d, live)
    case Neg(i) => Op(live, d, 5) + ShapeE(i, d + 1, live) + Op(live, d + 2, 1)
    case Bin(_, l, r) => ShapeE(l, d, live) + ShapeE(r, d + 1, live) + Op(live, d + 2, 1)
  }

  /** An expression, then one instruction of width n on its value. */
  function ShapeTail(e: Expr, live: bool, n: nat): (r: seq<int>)
    requires n > 0
    ensures |r| == SizeE(e) + n && r[0] == Cell(live, 0)
  {
    ShapeE(e, 0, live) + Op(live, 1, n)
  }

  /** Two instructions, the first of which pushes. */
  function ShapePair(live: bool, m: nat, n: nat): (r: seq<int>)
    requires m > 0 && n > 0
    ensures |r| == m + n && r[0] == Cell(live, 0)
  {
    Op(live, 0, m) + Op(live, 1, n)
  }

  function ShapeSimple(s: Stmt, live: bool): (r: seq<int>)
    requires Simple(s)
    ensures |r| == SizeS(s) > 0 && r[0] == Cell(live, 0)
  {
    hide SizeE, ShapeE, Op;
    match s
    case Declare(_) => ShapePair(live, 5, 2)
    case DeclareInit(_, e) => ShapeTail(e, live, 2)
    case Assign(_, e) => ShapeTail(e, live, 2)
    case Return(e) => ShapeTail(e, live, 1)
    case PrintExpr(e) => ShapeTail(e, live, 1)
    case WriteString(raw, _) => Op(live, 0, 2 + |Text(raw)|)
    case SleepFor(_) => Op(live, 0, 3)
    case ToggleGpio => Op(live, 0, 1)
    case CallStmt(_) => ShapePair(live, 3, 1)
  }

  function ShapeS(s: Stmt, live: bool): (r: seq<int>)
    ensures |r| == SizeS(s) && (SizeS(s) > 0 ==> r[0] == Cell(live, 0))
    decreases s, 1
  {
    hide SizeE, ShapeE, Op;
    match s
    case If(c, t) => ShapeIf(c, t, live)
    case IfElse(c, t, e) => ShapeIfElse(c, t, e, live)
    case While(c, b) => ShapeWhile(c, b, live)
    case Block(b) => ShapeSs(b, live)
    case _ => ShapeSimple(s, live)
  }

  function ShapeIf(c: Expr, t: Stmts, live: bool): (r: seq<int>)
    ensures |r| == SizeE(c) + 3 + SizeSs(t) && r[0] == Cell(live, 0)
    decreases If(c, t), 0
  {
    ShapeE(c, 0, live) + Op(live, 1, 3) + ShapeSs(t, live)
  }

  function ShapeIfElse(c: Expr, t: Stmts, e: Stmts, live: bool): (r: seq<int>)
    ensures |r| == SizeE(c) + 6 + SizeSs(t) + SizeSs(e) && r[0] == Cell(live, 0)
    decreases IfElse(c, t, e), 0
  {
    ShapeE(c, 0, live) + Op(live, 1, 3) + ShapeSs(t, live) + Op(live && !AlwaysReturns(t), 0, 3) + ShapeSs(e, live)
  }

  function ShapeWhile(c: Expr, b: Stmts, live: bool): (r: seq<int>)
    ensures |r| == SizeE(c) + 6 + SizeSs(b) && r[0] == Cell(live, 0)
    decreases While(c, b), 0
  {
    ShapeE(c, 0, live) + Op(live, 1, 3) + ShapeSs(b, live) + Op(live && !AlwaysReturns(b), 0, 3)
  }

  function ShapeSs(ss: Stmts, live: bool): (r: seq<int>)
    ensures |r| == SizeSs(ss) && (SizeSs(ss) > 0 ==> r[0] == Cell(live, 0))
    decreases ss, 0
  {
    match ss
    case Nil => []
    case Cons(h, t) =>
      EmptyFallsThrough(h);
      ShapeS(h, live) + ShapeSs(t, live && !AlwaysReturnsS(h))
  }

  /** A statement without code completes. */
  lemma EmptyFallsThrough(s: Stmt)
    ensures SizeS(s) == 0 ==> !AlwaysReturnsS(s)
    decreases s, 1
  {
    if s.Block? { EmptyListFallsThrough(s.body); }
  }

  lemma EmptyListFallsThrough(ss: Stmts)
    ensures SizeSs(ss) == 0 ==> !AlwaysReturns(ss)
    decreases ss, 0
  {
    if ss.Cons? { EmptyFallsThrough(ss.head); EmptyListFallsThrough(ss.tail); }
  }

  predicate DepthAt(depth: seq<int>, at: nat, part: seq<int>) {
    at + |part| <= |depth| && depth[at..at + |part|] == part
  }

  lemma DepthSplit(depth: seq<int>, at: nat, a: seq<int>, b: seq<int>)
    requires DepthAt(depth, at, a + b)
    ensures DepthAt(depth, at, a) && DepthAt(depth, at + |a|, b)
  {
    var whole := depth[at..at + |a + b|];
    assert depth[at..at + |a|] == whole[..|a|] == a;
    assert depth[at + |a|..at + |a| + |b|] == whole[|a|..] == b;
  }

  lemma DepthFirst(depth: seq<int>, at: nat, part: seq<int>)
    requires DepthAt(depth, at, part) && part != []
    ensures depth[at] == part[0]
  {
    assert depth[at] == depth[at..at + |part|][0];
  }

  // ---------- fragments that the verifier passes ----------

  /** What the verifier checks at one address. */
  ghost predicate Passes(code: seq<byte>, depth: seq<int>, k: nat)
    requires |depth| == |code| && k < |code|
  {
    && (depth[k] >= 0 ==> IsStart(code, k) && FlowOk(code, depth, k))
    && (IsStart(code, k) && HasTarget(InstrAt(code, k)) ==> IsStart(code, InstrAt(code, k).target))
    && (IsStart(code, k) && InstrAt(code, k).Call? ==>
          InstrAt(code, k).target < |code| && depth[InstrAt(code, k).target] == 0)
    && -1 <= depth[k] <= STACK_SIZE
  }

  ghost predicate PassesAll(code: seq<byte>, depth: seq<int>, lo: nat, hi: nat) {
    |depth| == |code| && hi <= |code| && forall k: nat :: lo <= k < hi ==> Passes(code, depth, k)
  }

  /** Everything the fragment lemmas share. Called functions start at depth 0. */
  ghost predicate Stage(code: seq<byte>, depth: seq<int>, names: seq<Name>, fns: seq<Symbol>) {
    Setting(code, names, fns) && |depth| == |code|
  }

  /** The calls of the fragment lead to starts of depth 0. */
  ghost predicate CallsLand(code: seq<byte>, depth: seq<int>, sites: seq<Symbol>, fns: seq<Symbol>) {
    |depth| == |code| &&
    forall k :: 0 <= k < |sites| ==>
      IsStart(code, Address(fns, sites[k].name)) && depth[Address(fns, sites[k].name)] == 0
  }

  lemma LandSplit(code: seq<byte>, depth: seq<int>, a: seq<Symbol>, b: seq<Symbol>, fns: seq<Symbol>)
    requires CallsLand(code, depth, a + b, fns)
    ensures CallsLand(code, depth, a, fns) && CallsLand(code, depth, b, fns)
  {
    hide IsStart;
    assert forall k :: 0 <= k < |a| ==> (a + b)[k] == a[k];
    assert forall k :: 0 <= k < |b| ==> (a + b)[|a| + k] == b[k];
  }

  /** One emitted instruction passes if its successors have the right depth. */
  lemma PassOne(code: seq<byte>, depth: seq<int>, at: nat, i: Instr, live: bool, d: int)
    requires |depth| == |code| && Reach(code, at) && Encodable(i) && At(code, at, Encode(i))
    requires DepthAt(depth, at, Op(live, d, Width(i)))
    requires HasTarget(i) ==> IsStart(code, i.target)
    requires i.Call? ==> depth[i.target] == 0
    requires live ==> 0 <= d <= STACK_SIZE && 0 <= Effect(i, d) <= STACK_SIZE
    requires live && (i.Jmp? || i.Jz?) ==> depth[i.target] == Effect(i, d)
    requires live && FallsThrough(i) && at + Width(i) < |code| ==> depth[at + Width(i)] == Effect(i, d)
    ensures Reach(code, at + Width(i)) && PassesAll(code, depth, at, at + Width(i))
  {
    hide Decode, Encode, Start, Decodes, Effect;
    Instruction(code, at, i);
    AtBound(code, at, Encode(i));
    DepthFirst(depth, at, Op(live, d, Width(i)));
    forall k: nat | at <= k < at + Width(i) ensures Passes(code, depth, k) {
      if k > at {
        assert depth[k] == depth[at..at + Width(i)][k - at] == -1;
      }
    }
  }

  lemma PassJoin(code: seq<byte>, depth: seq<int>, lo: nat, mid: nat, hi: nat)
    requires lo <= mid <= hi && PassesAll(code, depth, lo, mid) && PassesAll(code, depth, mid, hi)
    ensures PassesAll(code, depth, lo, hi)
  {
    hide Passes;
  }

  lemma {:induction false} PassE(code: seq<byte>, depth: seq<int>, at: nat, e: Expr, d: nat, live: bool,
                                 names: seq<Name>, fns: seq<Symbol>)
    requires Stage(code, depth, names, fns) && BoundE(e, names) && Reach(code, at) && At(code, at, EmitE(e, names, fns))
    requires DepthAt(depth, at, ShapeE(e, d, live)) && CallsLand(code, depth, SitesE(e, at), fns)
    requires live ==> d + NeedE(e) <= STACK_SIZE
    requires live && at + SizeE(e) < |code| ==> depth[at + SizeE(e)] == d + 1
    ensures Reach(code, at + SizeE(e)) && PassesAll(code, depth, at, at + SizeE(e))
    decreases e, 1
  {
    hide Encode, Small, At, DepthAt, Reach, IsStart, PassesAll, CallsLand, Op;
    match e {
      case Num(v) => PassOne(code, depth, at, PushI32(v), live, d);
      case Var(n) => PassOne(code, depth, at, LoadLocal(Slot(names, n)), live, d);
      case CallExpr(n) =>
        AddressSmall(fns, n);
        LandOne(code, depth, n, at + 1, fns);
        PassOne(code, depth, at, Call(Address(fns, n)), live, d);
      case Paren(i) => PassE(code, depth, at, i, d, live, names, fns);
      case Neg(i) => PassNeg(code, depth, at, i, d, live, names, fns);
      case Bin(op, l, r) => PassBin(code, depth, at, op, l, r, d, live, names, fns);
    }
  }

  lemma {:induction false} PassNeg(code: seq<byte>, depth: seq<int>, at: nat, i: Expr, d: nat, live: bool,
                                   names: seq<Name>, fns: seq<Symbol>)
    requires var e := Neg(i);
             && Stage(code, depth, names, fns) && BoundE(e, names) && Reach(code, at)
             && At(code, at, EmitE(e, names, fns))
             && DepthAt(depth, at, ShapeE(e, d, live)) && CallsLand(code, depth, SitesE(e, at), fns)
             && (live ==> d + NeedE(e) <= STACK_SIZE)
             && (live && at + SizeE(e) < |code| ==> depth[at + SizeE(e)] == d + 1)
    ensures Reach(code, at + SizeE(Neg(i))) && PassesAll(code, depth, at, at + SizeE(Neg(i)))
    decreases Neg(i), 0
  {
    hide Encode, Small, At, DepthAt, Reach, IsStart, PassesAll, CallsLand, Op;
    var zero, ic, subAt := Encode(PushI32(0)), EmitE(i, names, fns), at + 5 + SizeE(i);
    AtSplit(code, at, zero + ic, Encode(Binary(Sub)));
    AtSplit(code, at, zero, ic);
    DepthSplit(depth, at, Op(live, d, 5) + ShapeE(i, d + 1, live), Op(live, d + 2, 1));
    DepthSplit(depth, at, Op(live, d, 5), ShapeE(i, d + 1, live));
    DepthFirst(depth, at + 5, ShapeE(i, d + 1, live));
    DepthFirst(depth, subAt, Op(live, d + 2, 1));
    PassOne(code, depth, at, PushI32(0), live, d);
    PassE(code, depth, at + 5, i, d + 1, live, names, fns);
    PassOne(code, depth, subAt, Binary(Sub), live, d + 2);
    PassJoin(code, depth, at, at + 5, subAt);
    PassJoin(code, depth, at, subAt, subAt + 1);
  }

  lemma LandOne(code: seq<byte>, depth: seq<int>, n: Name, operand: nat, fns: seq<Symbol>)
    requires CallsLand(code, depth, [Symbol(n, operand)], fns)
    ensures IsStart(code, Address(fns, n)) && depth[Address(fns, n)] == 0
  {
    assert [Symbol(n, operand)][0].name == n;
  }

  lemma {:induction false} PassBin(code: seq<byte>, depth: seq<int>, at: nat, op: BinOp, l: Expr, r: Expr, d: nat,
                                   live: bool,
                                   names: seq<Name>, fns: seq<Symbol>)
    requires var e := Bin(op, l, r);
             && Stage(code, depth, names, fns) && BoundE(e, names) && Reach(code, at)
             && At(code, at, EmitE(e, names, fns))
             && DepthAt(depth, at, ShapeE(e, d, live)) && CallsLand(code, depth, SitesE(e, at), fns)
             && (live ==> d + NeedE(e) <= STACK_SIZE)
             && (live && at + SizeE(e) < |code| ==> depth[at + SizeE(e)] == d + 1)
    ensures Reach(code, at + SizeE(Bin(op, l, r))) && PassesAll(code, depth, at, at + SizeE(Bin(op, l, r)))
    decreases Bin(op, l, r), 0
  {
    hide Encode, Small, At, DepthAt, Reach, IsStart, PassesAll, CallsLand, Op, Passes, FlowOk;
    var rAt, opAt := at + SizeE(l), at + SizeE(l) + SizeE(r);
    AtSplit(code, at, EmitE(l, names, fns) + EmitE(r, names, fns), Encode(Binary(op)));
    AtSplit(code, at, EmitE(l, names, fns), EmitE(r, names, fns));
    DepthSplit(depth, at, ShapeE(l, d, live) + ShapeE(r, d + 1, live), Op(live, d + 2, 1));
    DepthSplit(depth, at, ShapeE(l, d, live), ShapeE(r, d + 1, live));
    DepthFirst(depth, rAt, ShapeE(r, d + 1, live));
    DepthFirst(depth, opAt, Op(live, d + 2, 1));
    LandSplit(code, depth, SitesE(l, at), SitesE(r, rAt), fns);
    PassE(code, depth, at, l, d, live, names, fns);
    PassE(code, depth, rAt, r, d + 1, live, names, fns);
    PassOne(code, depth, opAt, Binary(op), live, d + 2);
    PassJoin(code, depth, at, rAt, opAt);
    PassJoin(code, depth, at, opAt, opAt + 1);
  }

  /** An expression, then an instruction that consumes its value; nothing jumps. */
  lemma PassTail(code: seq<byte>, depth: seq<int>, at: nat, e: Expr, i: Instr, live: bool, names: seq<Name>,
                 fns: seq<Symbol>)
    requires Stage(code, depth, names, fns) && BoundE(e, names) && Reach(code, at)
    requires Encodable(i) && !i.Call? && At(code, at, EmitE(e, names, fns) + Encode(i))
    requires DepthAt(depth, at, ShapeE(e, 0, live) + Op(live, 1, Width(i)))
             && CallsLand(code, depth, SitesE(e, at), fns)
    requires live ==> NeedE(e) <= STACK_SIZE && 0 <= Effect(i, 1) <= STACK_SIZE
    requires HasTarget(i) ==> IsStart(code, i.target)
    requires live && (i.Jmp? || i.Jz?) ==> depth[i.target] == Effect(i, 1)
    requires var next := at + SizeE(e) + Width(i);
             live && FallsThrough(i) && next < |code| ==> depth[next] == Effect(i, 1)
    ensures var next := at + SizeE(e) + Width(i); Reach(code, next) && PassesAll(code, depth, at, next)
  {
    hide Encode, Small, At, DepthAt, Reach, IsStart, PassesAll, CallsLand, Op, EmitE, ShapeE, SitesE, Effect;
    AtSplit(code, at, EmitE(e, names, fns), Encode(i));
    DepthSplit(depth, at, ShapeE(e, 0, live), Op(live, 1, Width(i)));
    DepthFirst(depth, at + SizeE(e), Op(live, 1, Width(i)));
    PassE(code, depth, at, e, 0, live, names, fns);
    PassOne(code, depth, at + SizeE(e), i, live, 1);
    PassJoin(code, depth, at, at + SizeE(e), at + SizeE(e) + Width(i));
  }

  /** A condition and its branch. */
  lemma PassGuard(code: seq<byte>, depth: seq<int>, at: nat, c: Expr, target: nat, live: bool, names: seq<Name>,
                  fns: seq<Symbol>)
    requires Stage(code, depth, names, fns) && BoundE(c, names) && Reach(code, at)
    requires At(code, at, EmitE(c, names, fns) + Encode(Jz(target))) && IsStart(code, target)
    requires DepthAt(depth, at, ShapeE(c, 0, live) + Op(live, 1, 3)) && CallsLand(code, depth, SitesE(c, at), fns)
    requires live ==> NeedE(c) <= STACK_SIZE && depth[target] == 0
    requires var next := at + SizeE(c) + 3; live && next < |code| ==> depth[next] == 0
    ensures var next := at + SizeE(c) + 3; Reach(code, next) && PassesAll(code, depth, at, next)
  {
    hide Encode, Small, At, DepthAt, Reach, PassesAll, CallsLand, Op, EmitE, ShapeE, SitesE, Start, SizeE, NeedE,
      BoundE;
    PassTail(code, depth, at, c, Jz(target), live, names, fns);
  }

  lemma PassJump(code: seq<byte>, depth: seq<int>, at: nat, target: nat, live: bool)
    requires |depth| == |code| <= MAX_CODE && Reach(code, at) && At(code, at, Encode(Jmp(target)))
             && IsStart(code, target)
    requires DepthAt(depth, at, Op(live, 0, 3)) && (live ==> depth[target] == 0)
    ensures Reach(code, at + 3) && PassesAll(code, depth, at, at + 3)
  {
    hide Encode, At, DepthAt, Reach, PassesAll, Op, Start;
    PassOne(code, depth, at, Jmp(target), live, 0);
  }

  /** What is asked of a statement's surroundings: what follows decodes; if the statement completes, the
      next address has depth 0; if one of its jumps leads to its end, there is code there. */
  ghost predicate Fits(code: seq<byte>, depth: seq<int>, next: nat, completes: bool, jumps: bool) {
    && |depth| == |code| && next <= |code| && Decodes(code, next)
    && (completes && next < |code| ==> depth[next] == 0)
    && (jumps ==> IsStart(code, next))
  }

  /** The entry of a list has depth 0, even if the list is empty. */
  lemma EntryDepth(code: seq<byte>, depth: seq<int>, at: nat, ss: Stmts, live: bool, jumps: bool)
    requires DepthAt(depth, at, ShapeSs(ss, live))
             && Fits(code, depth, at + SizeSs(ss), live && !AlwaysReturns(ss), jumps)
    ensures live && at < |code| ==> depth[at] == 0
  {
    hide ShapeSs, Decodes, IsStart;
    if SizeSs(ss) > 0 {
      DepthFirst(depth, at, ShapeSs(ss, live));
    } else {
      EmptyListFallsThrough(ss);
    }
  }

  /** The head and the tail of a list. */
  lemma ListPieces(code: seq<byte>, depth: seq<int>, at: nat, h: Stmt, t: Stmts, live: bool, names: seq<Name>,
                   fns: seq<Symbol>)
    requires At(code, at, EmitSs(Cons(h, t), at, names, fns)) && DepthAt(depth, at, ShapeSs(Cons(h, t), live))
    requires CallsLand(code, depth, SitesSs(Cons(h, t), at), fns)
    ensures var mid := at + SizeS(h);
            && At(code, at, EmitS(h, at, names, fns)) && At(code, mid, EmitSs(t, mid, names, fns))
            && DepthAt(depth, at, ShapeS(h, live)) && DepthAt(depth, mid, ShapeSs(t, live && !AlwaysReturnsS(h)))
            && CallsLand(code, depth, SitesS(h, at), fns) && CallsLand(code, depth, SitesSs(t, mid), fns)
  {
    hide At, DepthAt, CallsLand, EmitS, ShapeS, SitesS, SizeS, AlwaysReturnsS;
    var mid := at + SizeS(h);
    AtSplit(code, at, EmitS(h, at, names, fns), EmitSs(t, mid, names, fns));
    DepthSplit(depth, at, ShapeS(h, live), ShapeSs(t, live && !AlwaysReturnsS(h)));
    LandSplit(code, depth, SitesS(h, at), SitesSs(t, mid), fns);
  }

  lemma ListReach(code: seq<byte>, at: nat, h: Stmt, t: Stmts, names: seq<Name>, fns: seq<Symbol>)
    requires Setting(code, names, fns) && WellFormedSs(Cons(h, t), names) && Reach(code, at)
    requires At(code, at, EmitSs(Cons(h, t), at, names, fns)) && Decodes(code, at + SizeSs(Cons(h, t)))
    ensures var mid := at + SizeS(h);
            Reach(code, mid) && mid <= |code| && Decodes(code, mid) && (mid < |code| ==> IsStart(code, mid))
  {
    hide At, Reach, IsStart, Decodes, EmitS, SizeS, Linked, Small;
    var mid := at + SizeS(h);
    AtSplit(code, at, EmitS(h, at, names, fns), EmitSs(t, mid, names, fns));
    AtBound(code, mid, EmitSs(t, mid, names, fns));
    LinkSs(code, mid, t, names, fns);
    LinkS(code, at, h, names, fns);
    LinkReach(code, at, mid);
    ReachStart(code, mid);
  }

  lemma {:induction false} PassSs(code: seq<byte>, depth: seq<int>, at: nat, ss: Stmts, live: bool, names: seq<Name>,
                                  fns: seq<Symbol>)
    requires Stage(code, depth, names, fns) && WellFormedSs(ss, names) && Reach(code, at)
    requires At(code, at, EmitSs(ss, at, names, fns)) && DepthAt(depth, at, ShapeSs(ss, live))
    requires CallsLand(code, depth, SitesSs(ss, at), fns) && (live ==> Need(ss) <= STACK_SIZE)
    requires Fits(code, depth, at + SizeSs(ss), live && !AlwaysReturns(ss), EndsInJump(ss))
    ensures Reach(code, at + SizeSs(ss)) && PassesAll(code, depth, at, at + SizeSs(ss))
    decreases ss, 0
  {
    hide Encode, Small, At, DepthAt, Reach, IsStart, PassesAll, CallsLand, EmitS, ShapeS, SitesS, EmitSs, ShapeSs,
      SitesSs, Decodes, SizeS;
    match ss {
      case Nil => PassNone(code, depth, at, EmitSs(ss, at, names, fns));
      case Cons(h, t) =>
        var mid, next, live1 := at + SizeS(h), at + SizeSs(ss), live && !AlwaysReturnsS(h);
        ListPieces(code, depth, at, h, t, live, names, fns);
        ListReach(code, at, h, t, names, fns);
        EntryDepth(code, depth, mid, t, live1, EndsInJump(t));
        PassS(code, depth, at, h, live, names, fns);
        PassSs(code, depth, mid, t, live1, names, fns);
        PassJoin(code, depth, at, mid, next);
    }
  }

  lemma PassNone(code: seq<byte>, depth: seq<int>, at: nat, part: seq<byte>)
    requires |depth| == |code| && At(code, at, part)
    ensures PassesAll(code, depth, at, at)
  {
  }

  lemma ReachStart(code: seq<byte>, at: nat)
    requires Reach(code, at)
    ensures at <= |code| && (at < |code| ==> IsStart(code, at)) && Decodes(code, at)
  {
    hide Decode;
    if at < |code| { StartStep(code, 0, at); }
    if IsStart(code, at) { assert Linked(code, 0, at) by { StartDecodes(code, 0, at); } }
  }

  lemma {:induction false} StartDecodes(code: seq<byte>, from: nat, at: nat)
    requires from <= |code| && Decodes(code, from) && Start(code, from, at)
    ensures Decodes(code, at)
    decreases |code| - from
  {
    hide Decode;
    if at != from { StartDecodes(code, Decode(code, from).next, at); }
  }

  lemma {:induction false} PassS(code: seq<byte>, depth: seq<int>, at: nat, s: Stmt, live: bool, names: seq<Name>,
                                 fns: seq<Symbol>)
    requires Stage(code, depth, names, fns) && WellFormedS(s, names) && Reach(code, at)
    requires At(code, at, EmitS(s, at, names, fns)) && DepthAt(depth, at, ShapeS(s, live))
    requires CallsLand(code, depth, SitesS(s, at), fns) && (live ==> NeedS(s) <= STACK_SIZE)
    requires Fits(code, depth, at + SizeS(s), live && !AlwaysReturnsS(s), EndsInJumpS(s))
    ensures Reach(code, at + SizeS(s)) && PassesAll(code, depth, at, at + SizeS(s))
    decreases s, 1
  {
    hide Encode, Small, At, DepthAt, Reach, IsStart, PassesAll, CallsLand, Decodes, Op, EmitE, EmitSs, ShapeE, ShapeSs,
      SitesE, SitesSs, ShapeIf, ShapeIfElse, ShapeWhile;
    match s {
      case If(c, t) => PassIf(code, depth, at, c, t, live, names, fns);
      case IfElse(c, t, e) => PassIfElse(code, depth, at, c, t, e, live, names, fns);
      case While(c, b) => PassWhile(code, depth, at, c, b, live, names, fns);
      case Block(b) => PassSs(code, depth, at, b, live, names, fns);
      case _ => PassSimple(code, depth, at, s, live, names, fns);
    }
  }

  lemma PassSimple(code: seq<byte>, depth: seq<int>, at: nat, s: Stmt, live: bool, names: seq<Name>, fns: seq<Symbol>)
    requires Simple(s) && Stage(code, depth, names, fns) && WellFormedS(s, names) && Reach(code, at)
    requires At(code, at, EmitS(s, at, names, fns)) && DepthAt(depth, at, ShapeS(s, live))
    requires CallsLand(code, depth, SitesS(s, at), fns) && (live ==> NeedS(s) <= STACK_SIZE)
    requires Fits(code, depth, at + SizeS(s), live && !AlwaysReturnsS(s), false)
    ensures Reach(code, at + SizeS(s)) && PassesAll(code, depth, at, at + SizeS(s))
  {
    hide Encode, Small, At, DepthAt, Reach, IsStart, PassesAll, CallsLand, Decodes, Op, EmitE, EmitSs, ShapeE, ShapeSs,
      SitesE, SitesSs, ShapeIf, ShapeIfElse, ShapeWhile, SizeE, NeedE, BoundE, Need, FlowOk, Passes;
    match s {
      case Declare(n) => PassDeclare(code, depth, at, n, live, names, fns);
      case DeclareInit(n, e) => PassTail(code, depth, at, e, StoreLocal(Slot(names, n)), live, names, fns);
      case Assign(n, e) => PassTail(code, depth, at, e, StoreLocal(Slot(names, n)), live, names, fns);
      case Return(e) => PassTail(code, depth, at, e, Ret, live, names, fns);
      case PrintExpr(e) => PassTail(code, depth, at, e, PrintInt, live, names, fns);
      case WriteString(raw, _) =>
        AtBound(code, at, Encode(Write(Text(raw)))); PassOne(code, depth, at, Write(Text(raw)), live, 0);
      case SleepFor(ms) => PassOne(code, depth, at, Sleep(ms), live, 0);
      case ToggleGpio => PassOne(code, depth, at, Gpio, live, 0);
      case CallStmt(n) => PassCallStmt(code, depth, at, n, live, names, fns);
    }
  }

  lemma PassDeclare(code: seq<byte>, depth: seq<int>, at: nat, n: Name, live: bool, names: seq<Name>, fns: seq<Symbol>)
    requires var s := Declare(n);
             && Stage(code, depth, names, fns) && WellFormedS(s, names) && Reach(code, at)
             && At(code, at, EmitS(s, at, names, fns)) && DepthAt(depth, at, ShapeS(s, live))
             && Fits(code, depth, at + 7, live, false)
    ensures Reach(code, at + 7) && PassesAll(code, depth, at, at + 7)
  {
    hide Encode, At, DepthAt, Reach, IsStart, PassesAll, Decodes, Op;
    AtSplit(code, at, Encode(PushI32(0)), Encode(StoreLocal(Slot(names, n))));
    DepthSplit(depth, at, Op(live, 0, 5), Op(live, 1, 2));
    DepthFirst(depth, at + 5, Op(live, 1, 2));
    PassOne(code, depth, at, PushI32(0), live, 0);
    PassOne(code, depth, at + 5, StoreLocal(Slot(names, n)), live, 1);
    PassJoin(code, depth, at, at + 5, at + 7);
  }

  lemma PassCallStmt(code: seq<byte>, depth: seq<int>, at: nat, n: Name, live: bool, names: seq<Name>, fns: seq<Symbol>)
    requires var s := CallStmt(n);
             && Stage(code, depth, names, fns) && Reach(code, at)
             && At(code, at, EmitS(s, at, names, fns)) && DepthAt(depth, at, ShapeS(s, live))
             && CallsLand(code, depth, SitesS(s, at), fns) && Fits(code, depth, at + 4, live, false)
    ensures Reach(code, at + 4) && PassesAll(code, depth, at, at + 4)
  {
    hide Encode, At, DepthAt, Reach, IsStart, PassesAll, Decodes, Op, CallsLand, Small;
    AtSplit(code, at, Encode(Call(Address(fns, n))), Encode(Pop));
    DepthSplit(depth, at, Op(live, 0, 3), Op(live, 1, 1));
    DepthFirst(depth, at + 3, Op(live, 1, 1));
    AddressSmall(fns, n);
    LandOne(code, depth, n, at + 1, fns);
    PassOne(code, depth, at, Call(Address(fns, n)), live, 0);
    PassOne(code, depth, at + 3, Pop, live, 1);
    PassJoin(code, depth, at, at + 3, at + 4);
  }

  /** The pieces of an if. */
  lemma IfPieces(code: seq<byte>, depth: seq<int>, at: nat, c: Expr, t: Stmts, live: bool, names: seq<Name>,
                 fns: seq<Symbol>)
    requires At(code, at, EmitS(If(c, t), at, names, fns)) && DepthAt(depth, at, ShapeS(If(c, t), live))
    requires CallsLand(code, depth, SitesS(If(c, t), at), fns)
    ensures var thenAt := at + SizeE(c) + 3;
            && At(code, at, EmitE(c, names, fns) + Encode(Jz(thenAt + SizeSs(t))))
            && At(code, thenAt, EmitSs(t, thenAt, names, fns))
            && DepthAt(depth, at, ShapeE(c, 0, live) + Op(live, 1, 3)) && DepthAt(depth, thenAt, ShapeSs(t, live))
            && CallsLand(code, depth, SitesE(c, at), fns) && CallsLand(code, depth, SitesSs(t, thenAt), fns)
  {
    hide Encode, At, DepthAt, CallsLand, Op, EmitE, EmitSs, ShapeE, ShapeSs, SitesE, SitesSs, SizeE, SizeSs;
    var thenAt := at + SizeE(c) + 3;
    AtSplit(code, at, EmitE(c, names, fns) + Encode(Jz(thenAt + SizeSs(t))), EmitSs(t, thenAt, names, fns));
    DepthSplit(depth, at, ShapeE(c, 0, live) + Op(live, 1, 3), ShapeSs(t, live));
    LandSplit(code, depth, SitesE(c, at), SitesSs(t, thenAt), fns);
  }

  lemma {:induction false} PassIf(code: seq<byte>, depth: seq<int>, at: nat, c: Expr, t: Stmts, live: bool,
                                  names: seq<Name>, fns: seq<Symbol>)
    requires var s := If(c, t);
             && Stage(code, depth, names, fns) && WellFormedS(s, names) && Reach(code, at)
             && At(code, at, EmitS(s, at, names, fns)) && DepthAt(depth, at, ShapeS(s, live))
             && CallsLand(code, depth, SitesS(s, at), fns) && (live ==> NeedS(s) <= STACK_SIZE)
             && Fits(code, depth, at + SizeS(s), live, true)
    ensures Reach(code, at + SizeS(If(c, t))) && PassesAll(code, depth, at, at + SizeS(If(c, t)))
    decreases If(c, t), 0
  {
    hide Encode, Small, At, DepthAt, Reach, IsStart, PassesAll, CallsLand, Decodes, Op, EmitE, EmitSs, EmitS, ShapeE,
      ShapeSs, ShapeS, SitesE, SitesSs, SitesS;
    var thenAt := at + SizeE(c) + 3;
    var next := thenAt + SizeSs(t);
    IfPieces(code, depth, at, c, t, live, names, fns);
    EntryDepth(code, depth, thenAt, t, live, true);
    PassGuard(code, depth, at, c, next, live, names, fns);
    PassSs(code, depth, thenAt, t, live, names, fns);
    PassJoin(code, depth, at, thenAt, next);
  }

  /** The pieces of an if/else: code, depths, calls. */
  lemma ElsePieces(code: seq<byte>, depth: seq<int>, at: nat, c: Expr, t: Stmts, e: Stmts, live: bool, names: seq<Name>,
                   fns: seq<Symbol>)
    requires At(code, at, EmitS(IfElse(c, t, e), at, names, fns)) && DepthAt(depth, at, ShapeIfElse(c, t, e, live))
    requires CallsLand(code, depth, SitesS(IfElse(c, t, e), at), fns)
    ensures var thenAt := at + SizeE(c) + 3; var jmpAt := thenAt + SizeSs(t); var elseAt := jmpAt + 3;
            && At(code, at, EmitE(c, names, fns) + Encode(Jz(elseAt)))
            && At(code, thenAt, EmitSs(t, thenAt, names, fns))
            && At(code, jmpAt, Encode(Jmp(elseAt + SizeSs(e)))) && At(code, elseAt, EmitSs(e, elseAt, names, fns))
            && DepthAt(depth, at, ShapeE(c, 0, live) + Op(live, 1, 3)) && DepthAt(depth, thenAt, ShapeSs(t, live))
            && DepthAt(depth, jmpAt, Op(live && !AlwaysReturns(t), 0, 3)) && DepthAt(depth, elseAt, ShapeSs(e, live))
            && CallsLand(code, depth, SitesE(c, at), fns) && CallsLand(code, depth, SitesSs(t, thenAt), fns)
            && CallsLand(code, depth, SitesSs(e, elseAt), fns)
  {
    hide Encode, At, DepthAt, CallsLand, Op, EmitE, EmitSs, EmitS, ShapeE, ShapeSs, SitesE, SitesSs, SitesS, SizeE,
      SizeSs;
    var thenAt := at + SizeE(c) + 3;
    var elseAt := thenAt + SizeSs(t) + 3;
    var jmp, live1 := Encode(Jmp(elseAt + SizeSs(e))), live && !AlwaysReturns(t);
    var guard, tc, ec := EmitE(c, names, fns) + Encode(Jz(elseAt)), EmitSs(t, thenAt, names, fns), EmitSs(e, elseAt,
        names, fns);
    IfElseCode(at, c, t, e, names, fns, thenAt, elseAt);
    IfElseSites(at, c, t, e);
    AtSplit(code, at, guard + tc + jmp, ec);
    AtSplit(code, at, guard + tc, jmp);
    AtSplit(code, at, guard, tc);
    var s1 := ShapeE(c, 0, live) + Op(live, 1, 3);
    DepthSplit(depth, at, s1 + ShapeSs(t, live) + Op(live1, 0, 3), ShapeSs(e, live));
    DepthSplit(depth, at, s1 + ShapeSs(t, live), Op(live1, 0, 3));
    DepthSplit(depth, at, s1, ShapeSs(t, live));
    LandSplit(code, depth, SitesE(c, at) + SitesSs(t, thenAt), SitesSs(e, elseAt), fns);
    LandSplit(code, depth, SitesE(c, at), SitesSs(t, thenAt), fns);
  }

  lemma {:induction false} PassIfElse(code: seq<byte>, depth: seq<int>, at: nat, c: Expr, t: Stmts, e: Stmts,
                                      live: bool,
                                      names: seq<Name>, fns: seq<Symbol>)
    requires var s := IfElse(c, t, e);
             && Stage(code, depth, names, fns) && WellFormedS(s, names) && Reach(code, at)
             && At(code, at, EmitS(s, at, names, fns)) && DepthAt(depth, at, ShapeIfElse(c, t, e, live))
             && CallsLand(code, depth, SitesS(s, at), fns) && (live ==> NeedS(s) <= STACK_SIZE)
             && Fits(code, depth, at + SizeS(s), live && !AlwaysReturnsS(s), true)
    ensures Reach(code, at + SizeS(IfElse(c, t, e))) && PassesAll(code, depth, at, at + SizeS(IfElse(c, t, e)))
    decreases IfElse(c, t, e), 0
  {
    hide Encode, Small, At, DepthAt, Reach, IsStart, PassesAll, CallsLand, Decodes, Op, EmitE, EmitSs, EmitS, ShapeE,
      ShapeSs, SitesE, SitesSs, SitesS, Linked, ShapeIfElse;
    var thenAt := at + SizeE(c) + 3;
    var jmpAt := thenAt + SizeSs(t);
    var elseAt := jmpAt + 3;
    var next, live1 := elseAt + SizeSs(e), live && !AlwaysReturns(t);
    ElsePieces(code, depth, at, c, t, e, live, names, fns);
    ElseReach(code, at, c, t, e, names, fns);
    DepthFirst(depth, jmpAt, Op(live1, 0, 3));
    ReachStart(code, elseAt);
    EntryDepth(code, depth, elseAt, e, live, EndsInJump(e));
    ReachStart(code, jmpAt);
    EntryDepth(code, depth, thenAt, t, live, EndsInJump(t));
    PassGuard(code, depth, at, c, elseAt, live, names, fns);
    PassSs(code, depth, thenAt, t, live, names, fns);
    PassJump(code, depth, jmpAt, next, live1);
    PassSs(code, depth, elseAt, e, live, names, fns);
    PassJoin(code, depth, at, thenAt, jmpAt);
    PassJoin(code, depth, at, jmpAt, elseAt);
    PassJoin(code, depth, at, elseAt, next);
  }

  /** Every piece of an if/else is reached by linear decoding. */
  lemma ElseReach(code: seq<byte>, at: nat, c: Expr, t: Stmts, e: Stmts, names: seq<Name>, fns: seq<Symbol>)
    requires Setting(code, names, fns) && WellFormedS(IfElse(c, t, e), names) && Reach(code, at)
    requires At(code, at, EmitS(IfElse(c, t, e), at, names, fns)) && Decodes(code, at + SizeS(IfElse(c, t, e)))
    ensures var thenAt := at + SizeE(c) + 3; var jmpAt := thenAt + SizeSs(t); var elseAt := jmpAt + 3;
            && Reach(code, thenAt) && Reach(code, jmpAt) && Reach(code, elseAt)
            && Decodes(code, jmpAt) && Decodes(code, elseAt) && Reach(code, elseAt + SizeSs(e))
  {
    hide Encode, Small, At, Reach, IsStart, Decodes, EmitE, EmitSs, EmitS, Linked, SizeE;
    var thenAt := at + SizeE(c) + 3;
    var jmpAt := thenAt + SizeSs(t);
    var elseAt := jmpAt + 3;
    var next := elseAt + SizeSs(e);
    IfElseCode(at, c, t, e, names, fns, thenAt, elseAt);
    AtSplit5(code, at, EmitE(c, names, fns), Encode(Jz(elseAt)), EmitSs(t, thenAt, names, fns), Encode(Jmp(next)),
             EmitSs(e, elseAt, names, fns));
    AtBound(code, elseAt, EmitSs(e, elseAt, names, fns));
    LinkSs(code, elseAt, e, names, fns);
    LinkInstr(code, jmpAt, Jmp(next));
    LinkSs(code, thenAt, t, names, fns);
    LinkInstr(code, at + SizeE(c), Jz(elseAt));
    LinkE(code, at, c, names, fns);
    LinkReach(code, at, at + SizeE(c));
    LinkReach(code, at + SizeE(c), thenAt);
    LinkReach(code, thenAt, jmpAt);
    LinkReach(code, jmpAt, elseAt);
    LinkReach(code, elseAt, next);
  }

  /** The pieces of a loop. */
  lemma WhilePieces(code: seq<byte>, depth: seq<int>, at: nat, c: Expr, b: Stmts, live: bool, names: seq<Name>,
                    fns: seq<Symbol>)
    requires At(code, at, EmitS(While(c, b), at, names, fns)) && DepthAt(depth, at, ShapeWhile(c, b, live))
    requires CallsLand(code, depth, SitesS(While(c, b), at), fns)
    ensures var bodyAt := at + SizeE(c) + 3; var jmpAt := bodyAt + SizeSs(b);
            && At(code, at, EmitE(c, names, fns) + Encode(Jz(jmpAt + 3)))
            && At(code, bodyAt, EmitSs(b, bodyAt, names, fns))
            && At(code, jmpAt, Encode(Jmp(at)))
            && DepthAt(depth, at, ShapeE(c, 0, live) + Op(live, 1, 3)) && DepthAt(depth, bodyAt, ShapeSs(b, live))
            && DepthAt(depth, jmpAt, Op(live && !AlwaysReturns(b), 0, 3)) && depth[at] == Cell(live, 0)
            && CallsLand(code, depth, SitesE(c, at), fns) && CallsLand(code, depth, SitesSs(b, bodyAt), fns)
  {
    hide Encode, At, DepthAt, CallsLand, Op, EmitE, EmitSs, EmitS, ShapeE, ShapeSs, SitesE, SitesSs, SitesS, SizeE,
      SizeSs;
    var bodyAt := at + SizeE(c) + 3;
    var guard, bc := EmitE(c, names, fns) + Encode(Jz(bodyAt + SizeSs(b) + 3)), EmitSs(b, bodyAt, names, fns);
    WhileCode(at, c, b, names, fns, bodyAt);
    AtSplit(code, at, guard + bc, Encode(Jmp(at)));
    AtSplit(code, at, guard, bc);
    var s1 := ShapeE(c, 0, live) + Op(live, 1, 3);
    DepthFirst(depth, at, ShapeWhile(c, b, live));
    DepthSplit(depth, at, s1 + ShapeSs(b, live), Op(live && !AlwaysReturns(b), 0, 3));
    DepthSplit(depth, at, s1, ShapeSs(b, live));
    LandSplit(code, depth, SitesE(c, at), SitesSs(b, bodyAt), fns);
  }

  lemma {:induction false} PassWhile(code: seq<byte>, depth: seq<int>, at: nat, c: Expr, b: Stmts, live: bool,
                                     names: seq<Name>, fns: seq<Symbol>)
    requires var s := While(c, b);
             && Stage(code, depth, names, fns) && WellFormedS(s, names) && Reach(code, at)
             && At(code, at, EmitS(s, at, names, fns)) && DepthAt(depth, at, ShapeWhile(c, b, live))
             && CallsLand(code, depth, SitesS(s, at), fns) && (live ==> NeedS(s) <= STACK_SIZE)
             && Fits(code, depth, at + SizeS(s), live, true)
    ensures Reach(code, at + SizeS(While(c, b))) && PassesAll(code, depth, at, at + SizeS(While(c, b)))
    decreases While(c, b), 0
  {
    hide Encode, Small, At, DepthAt, Reach, IsStart, PassesAll, CallsLand, Decodes, Op, EmitE, EmitSs, EmitS, ShapeE,
      ShapeSs, SitesE, SitesSs, SitesS, Linked, ShapeWhile;
    var bodyAt := at + SizeE(c) + 3;
    var jmpAt := bodyAt + SizeSs(b);
    var next, live1 := jmpAt + 3, live && !AlwaysReturns(b);
    WhilePieces(code, depth, at, c, b, live, names, fns);
    WhileReach(code, at, c, b, names, fns);
    DepthFirst(depth, jmpAt, Op(live1, 0, 3));
    ReachStart(code, at);
    ReachStart(code, jmpAt);
    EntryDepth(code, depth, bodyAt, b, live, EndsInJump(b));
    PassGuard(code, depth, at, c, next, live, names, fns);
    PassSs(code, depth, bodyAt, b, live, names, fns);
    PassJump(code, depth, jmpAt, at, live1);
    PassJoin(code, depth, at, bodyAt, jmpAt);
    PassJoin(code, depth, at, jmpAt, next);
  }

  lemma WhileReach(code: seq<byte>, at: nat, c: Expr, b: Stmts, names: seq<Name>, fns: seq<Symbol>)
    requires Setting(code, names, fns) && WellFormedS(While(c, b), names) && Reach(code, at)
    requires At(code, at, EmitS(While(c, b), at, names, fns)) && Decodes(code, at + SizeS(While(c, b)))
    ensures var bodyAt := at + SizeE(c) + 3; var jmpAt := bodyAt + SizeSs(b);
            && Reach(code, bodyAt) && Reach(code, jmpAt) && Decodes(code, jmpAt) && Reach(code, jmpAt + 3)
            && jmpAt + 3 <= |code|
  {
    hide Encode, Small, At, Reach, IsStart, Decodes, EmitE, EmitSs, EmitS, Linked;
    var bodyAt := at + SizeE(c) + 3;
    var jmpAt := bodyAt + SizeSs(b);
    var jz, bc := Encode(Jz(jmpAt + 3)), EmitSs(b, bodyAt, names, fns);
    WhileCode(at, c, b, names, fns, bodyAt);
    AtSplit(code, at, EmitE(c, names, fns) + jz + bc, Encode(Jmp(at)));
    AtSplit(code, at, EmitE(c, names, fns) + jz, bc);
    AtBound(code, jmpAt, Encode(Jmp(at)));
    LinkInstr(code, jmpAt, Jmp(at));
    LinkSs(code, bodyAt, b, names, fns);
    LinkTail(code, at, c, Jz(jmpAt + 3), names, fns);
    LinkReach(code, at, bodyAt);
    LinkReach(code, bodyAt, jmpAt);
    LinkReach(code, jmpAt, jmpAt + 3);
  }

  // ---------- functions and images ----------

  /** Control runs past the function's end into the next one. */
  predicate Falls(f: Function, at: nat, prev: byte, live: bool) {
    live && !AlwaysReturns(f.body) && !GetsEpilogue(f, at, prev)
  }

  function ShapeF(f: Function, at: nat, prev: byte, live: bool): (r: seq<int>)
    ensures |r| == SizeF(f, at, prev)
  {
    var live1 := live && !AlwaysReturns(f.body);
    ShapeSs(f.body, live) + (if GetsEpilogue(f, at, prev) then Op(live1, 0, 5) + Op(live1, 1, 1) else [])
  }

  /** `fell`: control falls into the first function; `calls`: all call sites of the program. */
  predicate Live(p: Program, fell: bool, calls: seq<Symbol>) {
    p != [] && (fell || Known(calls, p[0].name))
  }

  function ShapeFs(p: Program, at: nat, prev: byte, fell: bool, calls: seq<Symbol>): seq<int> {
    if p == [] then []
    else
      var live := Live(p, fell, calls);
      ShapeF(p[0], at, prev, live) +
      ShapeFs(p[1..], at + SizeF(p[0], at, prev), RET, Falls(p[0], at, prev, live), calls)
  }

  function SizeFs(p: Program, at: nat, prev: byte): nat {
    if p == [] then 0
    else SizeF(p[0], at, prev) + SizeFs(p[1..], at + SizeF(p[0], at, prev), RET)
  }

  lemma {:induction false} FsSizes(p: Program, at: nat, prev: byte, fns: seq<Symbol>, fell: bool, calls: seq<Symbol>)
    ensures |EmitFs(p, at, prev, fns)| == |ShapeFs(p, at, prev, fell, calls)| == SizeFs(p, at, prev)
    decreases |p|
  {
    hide GetsEpilogue, AlwaysReturns, Known, EmitF, ShapeF, Falls;
    if p != [] {
      FsSizes(p[1..], at + SizeF(p[0], at, prev), RET, fns, Falls(p[0], at, prev, Live(p, fell, calls)), calls);
    }
  }

  /** Every function that control enters needs at most STACK_SIZE operands. */
  predicate FitsStack(p: Program, at: nat, prev: byte, fell: bool, calls: seq<Symbol>) {
    p != [] ==>
      var live := Live(p, fell, calls);
      && (live ==> Need(p[0].body) <= STACK_SIZE)
      && FitsStack(p[1..], at + SizeF(p[0], at, prev), RET, Falls(p[0], at, prev, live), calls)
  }

  /** Some jump leads to the very end of the image. */
  predicate JumpsToEnd(p: Program, at: nat, prev: byte) {
    p != [] &&
    var next := at + SizeF(p[0], at, prev);
    || JumpsToEnd(p[1..], next, RET)
    || (SizeFs(p[1..], next, RET) == 0 && !GetsEpilogue(p[0], at, prev) && EndsInJump(p[0].body))
  }

  function Calls(p: Program): seq<Symbol> {
    [Symbol(MAIN, 1)] + SitesFs(p, ENTRY_SIZE, HALT)
  }

  /** Every called function, and main, has code before the end of the image. */
  predicate CalleesHaveCode(p: Program) {
    forall k :: 0 <= k < |Calls(p)| ==> Address(Table(p), Calls(p)[k].name) < |Image(p)|
  }

  /** What the verifier demands of a compiled program, read off its syntax and layout. */
  predicate Loadable(p: Program) {
    CalleesHaveCode(p) && !JumpsToEnd(p, ENTRY_SIZE, HALT) && FitsStack(p, ENTRY_SIZE, HALT, false, Calls(p))
  }

  /** A live function has depth 0 at its address, if there is code at that address. */
  lemma {:induction false} FsEntry(depth: seq<int>, p: Program, at: nat, prev: byte, fell: bool, calls: seq<Symbol>)
    requires DepthAt(depth, at, ShapeFs(p, at, prev, fell, calls)) && at + SizeFs(p, at, prev) == |depth|
    ensures fell || Live(p, fell, calls) ==> at < |depth| ==> depth[at] == 0
    decreases |p|
  {
    hide GetsEpilogue, Known, ShapeSs, DepthAt, Op;
    if p != [] {
      var f, live := p[0], Live(p, fell, calls);
      var next := at + SizeF(f, at, prev);
      var rest := ShapeFs(p[1..], next, RET, Falls(f, at, prev, live), calls);
      DepthSplit(depth, at, ShapeF(f, at, prev, live), rest);
      FsEntry(depth, p[1..], next, RET, Falls(f, at, prev, live), calls);
      if ShapeF(f, at, prev, live) != [] {
        DepthFirst(depth, at, ShapeF(f, at, prev, live));
      }
      if SizeSs(f.body) == 0 {
        EmptyListFallsThrough(f.body);
        assert ShapeSs(f.body, live) == [];
      }
    }
  }

  /** Linear decoding reaches the function after the first. */
  lemma ReachNext(code: seq<byte>, at: nat, p: Program, prev: byte, fns: seq<Symbol>)
    requires p != [] && |code| <= MAX_CODE && Small(fns) && AllWellFormed(p) && Reach(code, at)
    requires At(code, at, EmitFs(p, at, prev, fns)) && at + SizeFs(p, at, prev) == |code|
    ensures var next := at + SizeF(p[0], at, prev);
            && Reach(code, next) && Decodes(code, next) && next <= |code|
            && At(code, at, EmitF(p[0], at, prev, fns)) && At(code, next, EmitFs(p[1..], next, RET, fns))
  {
    hide GetsEpilogue, EmitF, At, Small, Reach, Decodes, WellFormedF;
    var next := at + SizeF(p[0], at, prev);
    AtSplit(code, at, EmitF(p[0], at, prev, fns), EmitFs(p[1..], next, RET, fns));
    FsSizes(p[1..], next, RET, fns, false, []);
    AtBound(code, next, EmitFs(p[1..], next, RET, fns));
    LinkFs(code, next, p[1..], RET, fns);
    LinkF(code, at, p[0], prev, fns);
    LinkReach(code, at, next);
  }

  /** A called function with code is a start of depth 0. */
  lemma {:induction false} Lands(code: seq<byte>, depth: seq<int>, at: nat, p: Program, prev: byte, fell: bool,
                                 calls: seq<Symbol>,
                                 fns: seq<Symbol>, n: Name)
    requires |depth| == |code| <= MAX_CODE && Small(fns) && AllWellFormed(p) && Reach(code, at)
    requires At(code, at, EmitFs(p, at, prev, fns)) && at + SizeFs(p, at, prev) == |code|
    requires DepthAt(depth, at, ShapeFs(p, at, prev, fell, calls))
    requires Known(calls, n) && Known(Layout(p, at, prev), n) && Address(Layout(p, at, prev), n) < |code|
    ensures var a := Address(Layout(p, at, prev), n); IsStart(code, a) && depth[a] == 0
    decreases |p|
  {
    hide GetsEpilogue, EmitF, At, Small, Reach, Decodes, WellFormedF, DepthAt, ShapeF, IsStart, Falls;
    var next, live := at + SizeF(p[0], at, prev), Live(p, fell, calls);
    if p[0].name == n {
      FsEntry(depth, p, at, prev, fell, calls);
      ReachStart(code, at);
    } else {
      ReachNext(code, at, p, prev, fns);
      DepthSplit(depth, at, ShapeF(p[0], at, prev, live),
                 ShapeFs(p[1..], next, RET, Falls(p[0], at, prev, live), calls));
      Lands(code, depth, next, p[1..], RET, Falls(p[0], at, prev, live), calls, fns, n);
    }
  }

  lemma PassEpilogue(code: seq<byte>, depth: seq<int>, end: nat, live: bool)
    requires |depth| == |code| <= MAX_CODE && Reach(code, end) && At(code, end, EPILOGUE)
    requires DepthAt(depth, end, Op(live, 0, 5) + Op(live, 1, 1))
    ensures PassesAll(code, depth, end, end + 6) && IsStart(code, end) && depth[end] == Cell(live, 0)
  {
    hide Encode, At, DepthAt, Reach, IsStart, PassesAll, Op;
    AtSplit(code, end, Encode(PushI32(0)), Encode(Ret));
    DepthSplit(depth, end, Op(live, 0, 5), Op(live, 1, 1));
    DepthFirst(depth, end, Op(live, 0, 5));
    DepthFirst(depth, end + 5, Op(live, 1, 1));
    AtBound(code, end, Encode(PushI32(0)));
    ReachStart(code, end);
    PassOne(code, depth, end, PushI32(0), live, 0);
    PassOne(code, depth, end + 5, Ret, live, 1);
    PassJoin(code, depth, end, end + 5, end + 6);
  }

  lemma LinkEpilogue(code: seq<byte>, end: nat)
    requires At(code, end, EPILOGUE) && Decodes(code, end + 6)
    ensures Decodes(code, end)
  {
    hide Encode, At, Decodes, Linked;
    AtSplit(code, end, Encode(PushI32(0)), Encode(Ret));
    LinkInstr(code, end + 5, Ret);
    LinkInstr(code, end, PushI32(0));
  }

  lemma PassF(code: seq<byte>, depth: seq<int>, at: nat, f: Function, prev: byte, live: bool, fns: seq<Symbol>)
    requires |depth| == |code| <= MAX_CODE && Small(fns) && WellFormedF(f) && Reach(code, at)
    requires At(code, at, EmitF(f, at, prev, fns)) && DepthAt(depth, at, ShapeF(f, at, prev, live))
    requires CallsLand(code, depth, SitesSs(f.body, at), fns) && (live ==> Need(f.body) <= STACK_SIZE)
    requires Fits(code, depth, at + SizeF(f, at, prev), Falls(f, at, prev, live),
                  EndsInJump(f.body) && !GetsEpilogue(f, at, prev))
    ensures PassesAll(code, depth, at, at + SizeF(f, at, prev))
  {
    hide Encode, Small, At, DepthAt, Reach, IsStart, PassesAll, CallsLand, EmitSs, ShapeSs, SitesSs, Decodes,
      GetsEpilogue, DeclaredSs, Op, Linked;
    var names, end := DeclaredSs(f.body), at + SizeSs(f.body);
    var body, shape := EmitSs(f.body, at, names, fns), ShapeSs(f.body, live);
    if GetsEpilogue(f, at, prev) {
      var live1 := live && !AlwaysReturns(f.body);
      AtSplit(code, at, body, EPILOGUE);
      DepthSplit(depth, at, shape, Op(live1, 0, 5) + Op(live1, 1, 1));
      LinkEpilogue(code, end);
      LinkSs(code, at, f.body, names, fns);
      LinkReach(code, at, end);
      PassEpilogue(code, depth, end, live1);
      PassSs(code, depth, at, f.body, live, names, fns);
      PassJoin(code, depth, at, end, end + 6);
    } else {
      assert body + [] == body && shape + [] == shape;
      PassSs(code, depth, at, f.body, live, names, fns);
    }
  }

  lemma {:induction false} PassFs(code: seq<byte>, depth: seq<int>, at: nat, p: Program, prev: byte, fell: bool,
                                  calls: seq<Symbol>,
                                  fns: seq<Symbol>)
    requires |depth| == |code| <= MAX_CODE && Small(fns) && AllWellFormed(p) && Reach(code, at) && at <= |code|
    requires At(code, at, EmitFs(p, at, prev, fns)) && at + SizeFs(p, at, prev) == |code|
    requires DepthAt(depth, at, ShapeFs(p, at, prev, fell, calls)) && CallsLand(code, depth, SitesFs(p, at, prev), fns)
    requires FitsStack(p, at, prev, fell, calls) && !JumpsToEnd(p, at, prev)
    ensures PassesAll(code, depth, at, |code|)
    decreases |p|
  {
    hide GetsEpilogue, EmitF, At, Small, Reach, Decodes, WellFormedF, DepthAt, ShapeF, IsStart, SitesSs, CallsLand,
      PassesAll, Live, Need, EndsInJump;
    if p == [] {
      PassNone(code, depth, at, []);
    } else {
      var f, live := p[0], Live(p, fell, calls);
      var next, falls := at + SizeF(f, at, prev), Falls(f, at, prev, live);
      ReachNext(code, at, p, prev, fns);
      DepthSplit(depth, at, ShapeF(f, at, prev, live), ShapeFs(p[1..], next, RET, falls, calls));
      LandSplit(code, depth, SitesSs(f.body, at), SitesFs(p[1..], next, RET), fns);
      FsEntry(depth, p[1..], next, RET, falls, calls);
      ReachStart(code, next);
      PassF(code, depth, at, f, prev, live, fns);
      PassFs(code, depth, next, p[1..], RET, falls, calls, fns);
      PassJoin(code, depth, at, next, |code|);
    }
  }

  /** Entry stub, then the functions. */
  function ShapeImage(p: Program): seq<int> {
    Op(true, 0, 3) + Op(true, 1, 1) + ShapeFs(p, ENTRY_SIZE, HALT, false, Calls(p))
  }

  lemma {:induction false} TableSmall(p: Program, at: nat, prev: byte)
    requires at + SizeFs(p, at, prev) <= MAX_CODE
    ensures Small(Layout(p, at, prev))
    decreases |p|
  {
    hide GetsEpilogue;
    if p != [] {
      TableSmall(p[1..], at + SizeF(p[0], at, prev), RET);
    }
  }

  /** The parts of an image. */
  lemma ImageParts(p: Program)
    requires |Image(p)| <= MAX_CODE && AllWellFormed(p)
    ensures var code := Image(p);
            && At(code, 0, Encode(Call(Address(Table(p), MAIN)))) && At(code, 3, Encode(Halt))
            && At(code, ENTRY_SIZE, EmitFs(p, ENTRY_SIZE, HALT, Table(p)))
            && |code| == ENTRY_SIZE + SizeFs(p, ENTRY_SIZE, HALT) == |ShapeImage(p)| && Small(Table(p))
            && Reach(code, 0) && Reach(code, 3) && Reach(code, ENTRY_SIZE)
            && Encodable(Call(Address(Table(p), MAIN)))
  {
    hide EmitFs, Encode, Calls, At, Small, AllWellFormed, ShapeFs, Layout, Decodes, Linked, Address;
    var code, call := Image(p), Encode(Call(Address(Table(p), MAIN)));
    var rest := EmitFs(p, ENTRY_SIZE, HALT, Table(p));
    FsSizes(p, ENTRY_SIZE, HALT, Table(p), false, Calls(p));
    TableSmall(p, ENTRY_SIZE, HALT);
    AddressSmall(Table(p), MAIN);
    assert At(code, 0, call + Encode(Halt) + rest) by { WholeAt(code); }
    AtSplit(code, 0, call + Encode(Halt), rest);
    AtSplit(code, 0, call, Encode(Halt));
    LinkFs(code, ENTRY_SIZE, p, HALT, Table(p));
    LinkInstr(code, 3, Halt);
    LinkInstr(code, 0, Call(Address(Table(p), MAIN)));
    ReachZero(code);
    LinkReach(code, 0, 3);
    LinkReach(code, 3, ENTRY_SIZE);
  }

  lemma WholeAt(code: seq<byte>)
    ensures At(code, 0, code)
  {
  }

  lemma ReachZero(code: seq<byte>)
    requires Decodes(code, 0)
    ensures Reach(code, 0)
  {
    hide Decode;
    if 0 < |code| { FirstStart(code); }
  }

  /** A called function is defined. */
  lemma CallsKnown(p: Program, k: nat)
    requires Proper(p) && k < |Calls(p)|
    ensures Known(Table(p), Calls(p)[k].name) && Known(Calls(p), Calls(p)[k].name)
  {
    hide Image, SitesFs, Table, AllWellFormed, Distinct;
    var sites := SitesFs(p, ENTRY_SIZE, HALT);
    if k > 0 { assert Calls(p)[k] == sites[k - 1]; }
    KnownAt(Calls(p), k);
  }

  lemma {:induction false} KnownAt(calls: seq<Symbol>, k: nat)
    requires k < |calls|
    ensures Known(calls, calls[k].name)
  {
    if k > 0 { KnownAt(calls[1..], k - 1); }
  }

  /** Sufficiency: the depths read off the syntax satisfy the verifier. */
  lemma LoadableImagesPass(p: Program)
    requires Proper(p) && Loadable(p)
    ensures Acceptable(Image(p))
  {
    hide Image, SitesFs, Layout, Calls, At, Small, ShapeFs, Decodes, Encode, EmitFs, Start, CallsLand, PassesAll,
      AllWellFormed, Distinct, CallsDefined, FitsStack, JumpsToEnd, DepthAt, Op, Known, Address, IsStart, Reach;
    var code, depth, fns := Image(p), ShapeImage(p), Table(p);
    var main, shape := Address(fns, MAIN), ShapeFs(p, ENTRY_SIZE, HALT, false, Calls(p));
    ImageParts(p);
    WholeDepth(depth);
    DepthSplit(depth, 0, Op(true, 0, 3) + Op(true, 1, 1), shape);
    DepthSplit(depth, 0, Op(true, 0, 3), Op(true, 1, 1));
    DepthFirst(depth, 0, Op(true, 0, 3));
    DepthFirst(depth, 3, Op(true, 1, 1));
    assert CallsLand(code, depth, Calls(p), fns) by { AllLand(p); }
    SitesLand(p, code, depth);
    PassOne(code, depth, 0, Call(main), true, 0);
    PassOne(code, depth, 3, Halt, true, 1);
    PassFs(code, depth, ENTRY_SIZE, p, HALT, false, Calls(p), fns);
    PassJoin(code, depth, 0, 3, ENTRY_SIZE);
    PassJoin(code, depth, 0, ENTRY_SIZE, |code|);
    PassedImage(code, depth);
  }

  lemma WholeDepth(depth: seq<int>)
    ensures DepthAt(depth, 0, depth)
  {
  }

  lemma AllLand(p: Program)
    requires Proper(p) && Loadable(p)
    ensures CallsLand(Image(p), ShapeImage(p), Calls(p), Table(p))
  {
    hide Image, SitesFs, Layout, At, Small, ShapeFs, Decodes, Encode, EmitFs, IsStart, AllWellFormed, Distinct,
      CallsDefined, FitsStack, JumpsToEnd, DepthAt, Op, Known, Address, Reach, Calls;
    var code, depth := Image(p), ShapeImage(p);
    ImageParts(p);
    WholeDepth(depth);
    DepthSplit(depth, 0, Op(true, 0, 3) + Op(true, 1, 1), ShapeFs(p, ENTRY_SIZE, HALT, false, Calls(p)));
    forall k | 0 <= k < |Calls(p)|
      ensures var a := Address(Table(p), Calls(p)[k].name); IsStart(code, a) && depth[a] == 0
    {
      CallsKnown(p, k);
      Lands(code, depth, ENTRY_SIZE, p, HALT, false, Calls(p), Table(p), Calls(p)[k].name);
    }
  }

  lemma SitesLand(p: Program, code: seq<byte>, depth: seq<int>)
    requires CallsLand(code, depth, Calls(p), Table(p))
    ensures CallsLand(code, depth, SitesFs(p, ENTRY_SIZE, HALT), Table(p))
    ensures var a := Address(Table(p), MAIN); IsStart(code, a) && depth[a] == 0
  {
    hide IsStart, Table, SitesFs, CallsLand;
    LandSplit(code, depth, [Symbol(MAIN, 1)], SitesFs(p, ENTRY_SIZE, HALT), Table(p));
    LandOne(code, depth, MAIN, 1, Table(p));
  }

  lemma PassedImage(code: seq<byte>, depth: seq<int>)
    requires 0 < |code| <= MAX_CODE && Reach(code, 0) && PassesAll(code, depth, 0, |code|) && depth[0] == 0
    ensures Acceptable(code)
  {
    hide Decode, Decodes, Start, FlowOk;
    forall k: nat | k < |code| ensures -1 <= depth[k] <= STACK_SIZE { assert Passes(code, depth, k); }
    forall k: nat | IsStart(code, k) && HasTarget(InstrAt(code, k)) ensures IsStart(code, InstrAt(code, k).target) {
      assert Passes(code, depth, k);
    }
    forall k: nat | IsStart(code, k) && InstrAt(code, k).Call?
      ensures InstrAt(code, k).target < |code| && depth[InstrAt(code, k).target] == 0
    {
      assert Passes(code, depth, k);
    }
    forall k: nat | k < |code| && depth[k] >= 0 ensures IsStart(code, k) && FlowOk(code, depth, k) {
      assert Passes(code, depth, k);
    }
    assert Consistent(code, depth);
  }
}
