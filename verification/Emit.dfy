/** Reference code generation: the image that a syntax tree stands for, with absolute jump and call
    targets written directly. The compiler reaches the same bytes by emitting holes and patching. */
module Emission {
  import opened Common
  import opened Hbc
  import opened Source

  /** A defined function, or with `address` an operand position, a call still to be patched. */
  datatype Symbol = Symbol(name: Name, address: nat)

  /** Index of the first occurrence of n, |names| if there is none. */
  function Slot(names: seq<Name>, n: Name): (k: nat)
    ensures k <= |names| && (k < |names| <==> n in names)
    ensures k < |names| ==> names[k] == n
  {
    if names == [] then 0 else if names[0] == n then 0 else 1 + Slot(names[1..], n)
  }

  /** Address of the first symbol called n; 0, the unpatched operand, if there is none. */
  function Address(fns: seq<Symbol>, n: Name): nat {
    if fns == [] then 0 else if fns[0].name == n then fns[0].address else Address(fns[1..], n)
  }

  predicate Known(fns: seq<Symbol>, n: Name) {
    fns != [] && (fns[0].name == n || Known(fns[1..], n))
  }

  // ---------- sizes do not depend on addresses ----------

  function SizeE(e: Expr): nat {
    match e
    case Num(_) => 5
    case Var(_) => 2
    case CallExpr(_) => 3
    case Paren(i) => SizeE(i)
    case Neg(i) => 6 + SizeE(i)
    case Bin(_, l, r) => SizeE(l) + SizeE(r) + 1
  }

  function SizeS(s: Stmt): nat {
    match s
    case Declare(_) => 7
    case DeclareInit(_, e) => SizeE(e) + 2
    case Assign(_, e) => SizeE(e) + 2
    case Return(e) => SizeE(e) + 1
    case If(c, t) => SizeE(c) + 3 + SizeSs(t)
    case IfElse(c, t, e) => SizeE(c) + 6 + SizeSs(t) + SizeSs(e)
    case While(c, b) => SizeE(c) + 6 + SizeSs(b)
    case WriteString(raw, _) => 2 + |Text(raw)|
    case PrintExpr(e) => SizeE(e) + 1
    case SleepFor(_) => 3
    case ToggleGpio => 1
    case Block(b) => SizeSs(b)
    case CallStmt(_) => 4
  }

  function SizeSs(ss: Stmts): nat {
    match ss
    case Nil => 0
    case Cons(h, t) => SizeS(h) + SizeSs(t)
  }

  // ---------- code ----------

  /** `names` are the slots of the enclosing function, `fns` the addresses of all functions. */
  function EmitE(e: Expr, names: seq<Name>, fns: seq<Symbol>): (c: seq<byte>)
    ensures |c| == SizeE(e)
  {
    hide Encode;
    match e
    case Num(v) => Encode(PushI32(v))
    case Var(n) => Encode(LoadLocal(Slot(names, n)))
    case CallExpr(n) => Encode(Call(Address(fns, n)))
    case Paren(i) => EmitE(i, names, fns)
    case Neg(i) => Encode(PushI32(0)) + EmitE(i, names, fns) + Encode(Binary(Sub))
    case Bin(op, l, r) => EmitE(l, names, fns) + EmitE(r, names, fns) + Encode(Binary(op))
  }

  /** Condition, branch around the block, block. */
  function GlueIf(c: seq<byte>, t: seq<byte>, thenAt: nat): (code: seq<byte>)
    ensures |code| == |c| + 3 + |t|
  {
    c + Encode(Jz(thenAt + |t|)) + t
  }

  function GlueIfElse(c: seq<byte>, t: seq<byte>, e: seq<byte>, thenAt: nat): (code: seq<byte>)
    ensures |code| == |c| + 3 + |t| + 3 + |e|
  {
    c + Encode(Jz(thenAt + |t| + 3)) + t + Encode(Jmp(thenAt + |t| + 3 + |e|)) + e
  }

  function GlueWhile(c: seq<byte>, b: seq<byte>, at: nat, bodyAt: nat): (code: seq<byte>)
    ensures |code| == |c| + 3 + |b| + 3
  {
    c + Encode(Jz(bodyAt + |b| + 3)) + b + Encode(Jmp(at))
  }

  function EmitS(s: Stmt, at: nat, names: seq<Name>, fns: seq<Symbol>): (code: seq<byte>)
    ensures |code| == SizeS(s)
  {
    hide Encode, GlueIf, GlueIfElse, GlueWhile, EmitE, SizeE, Slot, Text;
    match s
    case Declare(n) => Encode(PushI32(0)) + Encode(StoreLocal(Slot(names, n)))
    case DeclareInit(n, e) => EmitE(e, names, fns) + Encode(StoreLocal(Slot(names, n)))
    case Assign(n, e) => EmitE(e, names, fns) + Encode(StoreLocal(Slot(names, n)))
    case Return(e) => EmitE(e, names, fns) + Encode(Ret)
    case If(c, t) =>
      var thenAt := at + SizeE(c) + 3;
      GlueIf(EmitE(c, names, fns), EmitSs(t, thenAt, names, fns), thenAt)
    case IfElse(c, t, e) =>
      var thenAt := at + SizeE(c) + 3;
      GlueIfElse(EmitE(c, names, fns), EmitSs(t, thenAt, names, fns),
                 EmitSs(e, thenAt + SizeSs(t) + 3, names, fns), thenAt)
    case While(c, b) =>
      var bodyAt := at + SizeE(c) + 3;
      GlueWhile(EmitE(c, names, fns), EmitSs(b, bodyAt, names, fns), at, bodyAt)
    case WriteString(raw, _) => Encode(Write(Text(raw)))
    case PrintExpr(e) => EmitE(e, names, fns) + Encode(PrintInt)
    case SleepFor(ms) => Encode(Sleep(if ms < 0 then 0 else ms))
    case ToggleGpio => Encode(Gpio)
    case Block(b) => EmitSs(b, at, names, fns)
    case CallStmt(n) => Encode(Call(Address(fns, n))) + Encode(Pop)
  }

  function EmitSs(ss: Stmts, at: nat, names: seq<Name>, fns: seq<Symbol>): (code: seq<byte>)
    ensures |code| == SizeSs(ss)
  {
    match ss
    case Nil => []
    case Cons(h, t) => EmitS(h, at, names, fns) + EmitSs(t, at + SizeS(h), names, fns)
  }

  const EPILOGUE: seq<byte> := Encode(PushI32(0)) + Encode(Ret)

  function Last(c: seq<byte>, prev: byte): byte {
    if c == [] then prev else c[|c| - 1]
  }

  /** The compiler's own test for a missing `return`: the last byte emitted so far is not RET.
      `prev` is the byte before the function. */
  predicate GetsEpilogue(f: Function, at: nat, prev: byte) {
    Last(EmitSs(f.body, at, DeclaredSs(f.body), []), prev) != RET
  }

  function SizeF(f: Function, at: nat, prev: byte): nat {
    SizeSs(f.body) + (if GetsEpilogue(f, at, prev) then 6 else 0)
  }

  function EmitF(f: Function, at: nat, prev: byte, fns: seq<Symbol>): (code: seq<byte>)
    ensures |code| == SizeF(f, at, prev)
  {
    EmitSs(f.body, at, DeclaredSs(f.body), fns) + (if GetsEpilogue(f, at, prev) then EPILOGUE else [])
  }

  /** Every function after the first follows a RET. */
  function EmitFs(p: Program, at: nat, prev: byte, fns: seq<Symbol>): seq<byte> {
    if p == [] then []
    else
      EmitF(p[0], at, prev, fns) + EmitFs(p[1..], at + SizeF(p[0], at, prev), RET, fns)
  }

  function Layout(p: Program, at: nat, prev: byte): seq<Symbol> {
    if p == [] then []
    else [Symbol(p[0].name, at)] + Layout(p[1..], at + SizeF(p[0], at, prev), RET)
  }

  const MAIN: Name := [109, 97, 105, 110]

  const ENTRY_SIZE: nat := 4

  function Table(p: Program): seq<Symbol> {
    Layout(p, ENTRY_SIZE, HALT)
  }

  /** Entry stub, then the functions in source order. */
  function Image(p: Program): seq<byte> {
    Encode(Call(Address(Table(p), MAIN))) + Encode(Halt) + EmitFs(p, ENTRY_SIZE, HALT, Table(p))
  }

  // ---------- where the calls are ----------

  function SitesE(e: Expr, at: nat): seq<Symbol> {
    match e
    case CallExpr(n) => [Symbol(n, at + 1)]
    case Paren(i) => SitesE(i, at)
    case Neg(i) => SitesE(i, at + 5)
    case Bin(_, l, r) => SitesE(l, at) + SitesE(r, at + SizeE(l))
    case _ => []
  }

  function SitesS(s: Stmt, at: nat): seq<Symbol> {
    match s
    case DeclareInit(_, e) => SitesE(e, at)
    case Assign(_, e) => SitesE(e, at)
    case Return(e) => SitesE(e, at)
    case PrintExpr(e) => SitesE(e, at)
    case If(c, t) => SitesE(c, at) + SitesSs(t, at + SizeE(c) + 3)
    case IfElse(c, t, e) =>
      var thenAt := at + SizeE(c) + 3;
      SitesE(c, at) + SitesSs(t, thenAt) + SitesSs(e, thenAt + SizeSs(t) + 3)
    case While(c, b) => SitesE(c, at) + SitesSs(b, at + SizeE(c) + 3)
    case Block(b) => SitesSs(b, at)
    case CallStmt(n) => [Symbol(n, at + 1)]
    case _ => []
  }

  function SitesSs(ss: Stmts, at: nat): seq<Symbol> {
    match ss
    case Nil => []
    case Cons(h, t) => SitesS(h, at) + SitesSs(t, at + SizeS(h))
  }

  function SitesFs(p: Program, at: nat, prev: byte): seq<Symbol> {
    if p == [] then []
    else
      SitesSs(p[0].body, at) + SitesFs(p[1..], at + SizeF(p[0], at, prev), RET)
  }

  // ---------- the compound statements, unfolded ----------

  lemma IfElseCode(at: nat, c: Expr, b: Stmts, e: Stmts, names: seq<Name>, fns: seq<Symbol>, thenAt: nat, elseAt: nat)
    requires thenAt == at + SizeE(c) + 3 && elseAt == thenAt + SizeSs(b) + 3
    ensures EmitS(IfElse(c, b, e), at, names, fns) ==
              EmitE(c, names, fns) + Encode(Jz(elseAt)) + EmitSs(b, thenAt, names, fns) +
              Encode(Jmp(elseAt + SizeSs(e))) + EmitSs(e, elseAt, names, fns)
  {
    hide Encode, EmitE, EmitSs, SizeE, SizeSs;
    IfElseGlued(at, c, b, e, names, fns, thenAt, elseAt);
    hide EmitS;
  }

  lemma IfElseGlued(at: nat, c: Expr, b: Stmts, e: Stmts, names: seq<Name>, fns: seq<Symbol>, thenAt: nat, elseAt: nat)
    requires thenAt == at + SizeE(c) + 3 && elseAt == thenAt + SizeSs(b) + 3
    ensures EmitS(IfElse(c, b, e), at, names, fns) ==
              GlueIfElse(EmitE(c, names, fns), EmitSs(b, thenAt, names, fns), EmitSs(e, elseAt, names, fns), thenAt)
  {
    hide Encode, EmitE, EmitSs, SizeE, SizeSs, GlueIf, GlueIfElse, GlueWhile;
  }

  lemma IfElseSites(at: nat, c: Expr, b: Stmts, e: Stmts)
    ensures SitesS(IfElse(c, b, e), at) ==
              SitesE(c, at) + SitesSs(b, at + SizeE(c) + 3) + SitesSs(e, at + SizeE(c) + 3 + SizeSs(b) + 3)
  {
    hide SitesE, SitesSs;
  }

  lemma IfCode(at: nat, c: Expr, t: Stmts, names: seq<Name>, fns: seq<Symbol>, thenAt: nat)
    requires thenAt == at + SizeE(c) + 3
    ensures EmitS(If(c, t), at, names, fns) ==
              EmitE(c, names, fns) + Encode(Jz(thenAt + SizeSs(t))) + EmitSs(t, thenAt, names, fns)
    ensures SitesS(If(c, t), at) == SitesE(c, at) + SitesSs(t, thenAt)
  {
    hide Encode, EmitE, EmitSs, SizeE, SizeSs, SitesE, SitesSs;
  }

  lemma WhileCode(at: nat, c: Expr, b: Stmts, names: seq<Name>, fns: seq<Symbol>, bodyAt: nat)
    requires bodyAt == at + SizeE(c) + 3
    ensures EmitS(While(c, b), at, names, fns) ==
              EmitE(c, names, fns) + Encode(Jz(bodyAt + SizeSs(b) + 3)) + EmitSs(b, bodyAt, names,
                  fns) + Encode(Jmp(at))
    ensures SitesS(While(c, b), at) == SitesE(c, at) + SitesSs(b, bodyAt)
  {
    hide Encode, EmitE, EmitSs, SizeE, SizeSs, SitesE, SitesSs;
  }
}
