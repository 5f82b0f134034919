/** Compiled code behaves as the semantics says: step-by-step simulation of the big-step semantics by
    the virtual machine, for expressions, statements, calls and whole programs. */
module Simulation {
  import opened Common
  import opened Hbc
  import opened Machine
  import opened Source
  import opened Emission
  import opened Programs

  /** A function whose body can complete without `return` must have got the implicit one. The
      compiler decides by the last byte emitted, which can be RET for other reasons. */
  predicate SealedF(f: Function, at: nat, prev: byte) {
    GetsEpilogue(f, at, prev) || AlwaysReturns(f.body)
  }

  /** The functions among `names` are sealed and call only each other. */
  predicate SealedFs(p: Program, at: nat, prev: byte, names: set<Name>) {
    p != [] ==>
      && (p[0].name in names ==> SealedF(p[0], at, prev) && CallsOnly(p[0].body, names))
      && SealedFs(p[1..], at + SizeF(p[0], at, prev), RET, names)
  }

  predicate Sealed(p: Program, names: set<Name>) {
    SealedFs(p, ENTRY_SIZE, HALT, names)
  }

  /** A compiled program on a board whose GPIO requests are answered by `gpio`, and functions of it that are
      known to be sealed. With none known, code that calls nothing can still be spoken about. */
  datatype World = World(p: Program, gpio: nat -> bool, sealed: set<Name>) {
    function Code(): seq<byte> { Image(p) }
    function Fns(): seq<Symbol> { Table(p) }
    ghost predicate Good() { Proper(p) && Sealed(p, sealed) }
  }

  /** The machine's locals hold the store. */
  ghost predicate Holds(names: seq<Name>, store: Store, locals: seq<i32>) {
    && |names| <= LOCAL_COUNT == |locals|
    && forall n :: n in names ==> locals[Slot(names, n)] == Get(store, n)
  }

  ghost predicate Ready(w: World, names: seq<Name>, s: State, store: Store) {
    w.Good() && s.Valid() && Holds(names, store, s.locals)
  }

  /** After n instructions from s the machine shows the outcome of an expression ending at `next`. */
  ghost predicate AfterE(w: World, s: State, n: nat, flow: Flow, next: nat, fuel: nat)
    requires s.Valid()
  {
    var r := Run(w.Code(), s, w.gpio, n);
    match flow
    case Gave(v, trace) => r == Running(s.(pc := next, stack := s.stack + [v], trace := trace))
    case Stuck(cause, trace) => r == Trapped(cause, trace)
    case Starved => r.Running? && n >= fuel
    case Went(_, _) => false
  }

  /** The same for a statement: completed at `next`, or standing at a RET with the value on top. */
  ghost predicate AfterS(w: World, names: seq<Name>, s: State, n: nat, flow: Flow, next: nat, fuel: nat)
    requires s.Valid()
  {
    var r := Run(w.Code(), s, w.gpio, n);
    match flow
    case Went(store, trace) =>
      && r.Running? && Holds(names, store, r.s.locals)
      && r.s == s.(pc := next, locals := r.s.locals, trace := trace)
    case Gave(v, trace) =>
      && r.Running? && At(w.Code(), r.s.pc, Encode(Ret))
      && r.s == s.(pc := r.s.pc, stack := s.stack + [v], locals := r.s.locals, trace := trace)
    case Stuck(cause, trace) => r == Trapped(cause, trace)
    case Starved => r.Running? && n >= fuel
  }

  // ---------- running one instruction, running in sequence ----------

  lemma One(code: seq<byte>, s: State, gpio: nat -> bool, i: Instr)
    requires s.Valid() && Encodable(i) && At(code, s.pc, Encode(i))
    ensures i.LoadLocal? || i.StoreLocal? ==> i.slot < LOCAL_COUNT
    ensures Run(code, s, gpio, 1) == Execute(i, s.pc + Width(i), |code|, s, gpio)
  {
    hide Decode, Encode, Execute;
    DecodeEncode(code, s.pc, i);
    assert Run(code, s, gpio, 1) == Step(code, s, gpio);
  }

  lemma Seq(w: World, s: State, m: nat, t: State, n: nat)
    requires s.Valid() && t.Valid() && Run(w.Code(), s, w.gpio, m) == Running(t)
    ensures Run(w.Code(), s, w.gpio, m + n) == Run(w.Code(), t, w.gpio, n)
  {
    RunCompose(w.Code(), s, w.gpio, m, n);
  }

  // ---------- expressions ----------

  lemma KnownSplit(a: seq<Symbol>, b: seq<Symbol>, fns: seq<Symbol>)
    requires AllKnown(a + b, fns)
    ensures AllKnown(a, fns) && AllKnown(b, fns)
  {
    assert forall k :: 0 <= k < |a| ==> (a + b)[k] == a[k];
    assert forall k :: 0 <= k < |b| ==> (a + b)[|a| + k] == b[k];
  }

  ghost predicate Loaded(w: World, names: seq<Name>, e: Expr, at: nat) {
    && At(w.Code(), at, EmitE(e, names, w.Fns()))
    && BoundE(e, names) && AllKnown(SitesE(e, at), w.Fns()) && CallsOnlyE(e, w.sealed)
  }

  lemma {:induction false} ExprRuns(w: World, names: seq<Name>, e: Expr, s: State, store: Store, fuel: nat)
    returns (n: nat)
    requires Ready(w, names, s, store) && Loaded(w, names, e, s.pc)
    ensures AfterE(w, s, n, Eval(w.p, e, store, |s.stack|, |s.frames|, s.trace, w.gpio, fuel), s.pc + SizeE(e), fuel)
    decreases fuel, 1, e, 1
  {
    hide Run, Execute, Encode, At, Proper, Sealed, Image, Table;
    match e {
      case Num(v) =>
        One(w.Code(), s, w.gpio, PushI32(v));
        PushRuns(v, s, w);
        n := 1;
      case Var(name) =>
        One(w.Code(), s, w.gpio, LoadLocal(Slot(names, name)));
        LoadRuns(Slot(names, name), s, w);
        n := 1;
      case CallExpr(name) =>
        assert Known(w.Fns(), SitesE(e, s.pc)[0].name);
        n := CallRuns(w, name, s, fuel);
      case Paren(i) => n := ExprRuns(w, names, i, s, store, fuel);
      case Neg(i) => n := NegRuns(w, names, i, s, store, fuel);
      case Bin(op, l, r) => n := BinRuns(w, names, op, l, r, s, store, fuel);
    }
  }

  lemma PushRuns(v: i32, s: State, w: World)
    requires s.Valid()
    ensures Execute(PushI32(v), s.pc + 5, |w.Code()|, s, w.gpio) ==
              if |s.stack| >= STACK_SIZE then Trapped(PushTrap, s.trace)
              else Running(s.(pc := s.pc + 5, stack := s.stack + [v], trace := s.trace))
  {
  }

  lemma LoadRuns(k: nat, s: State, w: World)
    requires s.Valid() && k < LOCAL_COUNT
    ensures Execute(LoadLocal(k), s.pc + 2, |w.Code()|, s, w.gpio) ==
              if |s.stack| >= STACK_SIZE then Trapped(LoadTrap, s.trace)
              else Running(s.(pc := s.pc + 2, stack := s.stack + [s.locals[k]], trace := s.trace))
  {
  }

  lemma NegLoaded(w: World, names: seq<Name>, i: Expr, at: nat)
    requires Loaded(w, names, Neg(i), at)
    ensures At(w.Code(), at, Encode(PushI32(0))) && Loaded(w, names, i, at + 5)
    ensures At(w.Code(), at + 5 + SizeE(i), Encode(Binary(Sub)))
  {
    hide Encode, At, AllKnown, Image, Table;
    var zero, code, sub := Encode(PushI32(0)), EmitE(i, names, w.Fns()), Encode(Binary(Sub));
    AtSplit(w.Code(), at, zero + code, sub);
    AtSplit(w.Code(), at, zero, code);
  }

  lemma BinUnfolded(w: World, names: seq<Name>, op: BinOp, l: Expr, r: Expr, at: nat)
    ensures var e := Bin(op, l, r);
            && EmitE(e, names, w.Fns()) == EmitE(l, names, w.Fns()) + EmitE(r, names, w.Fns()) + Encode(Binary(op))
            && SitesE(e, at) == SitesE(l, at) + SitesE(r, at + SizeE(l))
            && (BoundE(e, names) <==> BoundE(l, names) && BoundE(r, names))
            && (CallsOnlyE(e, w.sealed) <==> CallsOnlyE(l, w.sealed) && CallsOnlyE(r, w.sealed))
  {
    hide Encode, Table;
  }

  lemma BinLoaded(w: World, names: seq<Name>, op: BinOp, l: Expr, r: Expr, at: nat)
    requires Loaded(w, names, Bin(op, l, r), at)
    ensures Loaded(w, names, l, at) && Loaded(w, names, r, at + SizeE(l))
    ensures At(w.Code(), at + SizeE(l) + SizeE(r), Encode(Binary(op)))
  {
    hide Encode, At, AllKnown, Image, Table, EmitE, SitesE, BoundE, CallsOnlyE, SizeE;
    BinUnfolded(w, names, op, l, r, at);
    var lc, rc, o := EmitE(l, names, w.Fns()), EmitE(r, names, w.Fns()), Encode(Binary(op));
    AtSplit(w.Code(), at, lc + rc, o);
    AtSplit(w.Code(), at, lc, rc);
    KnownSplit(SitesE(l, at), SitesE(r, at + SizeE(l)), w.Fns());
  }

  lemma {:induction false} NegRuns(w: World, names: seq<Name>, i: Expr, s: State, store: Store, fuel: nat)
    returns (n: nat)
    requires Ready(w, names, s, store) && Loaded(w, names, Neg(i), s.pc)
    ensures AfterE(w, s, n, Eval(w.p, Neg(i), store, |s.stack|, |s.frames|, s.trace, w.gpio, fuel),
                   s.pc + SizeE(Neg(i)), fuel)
    decreases fuel, 1, Neg(i), 0
  {
    hide Run, Execute, Encode, Proper, Sealed, Image, Table, At, AllKnown, Loaded, Holds;
    NegLoaded(w, names, i, s.pc);
    One(w.Code(), s, w.gpio, PushI32(0));
    PushRuns(0, s, w);
    n := 1;
    if |s.stack| < STACK_SIZE {
      var s1 := s.(pc := s.pc + 5, stack := s.stack + [0]);
      var m := ExprRuns(w, names, i, s1, store, fuel);
      n := NegEnds(w, i, s, s1, m, Eval(w.p, i, store, |s1.stack|, |s.frames|, s.trace, w.gpio, fuel), fuel);
    }
  }

  /** The subtraction from 0 that negates. */
  lemma NegEnds(w: World, i: Expr, s: State, s1: State, m: nat, r: Flow, fuel: nat) returns (n: nat)
    requires s.Valid() && s1.Valid() && s1 == s.(pc := s.pc + 5, stack := s.stack + [0])
    requires Run(w.Code(), s, w.gpio, 1) == Running(s1) && AfterE(w, s1, m, r, s1.pc + SizeE(i), fuel)
    requires At(w.Code(), s.pc + 5 + SizeE(i), Encode(Binary(Sub)))
    ensures AfterE(w, s, n, if r.Gave? then Gave(ToI32(0 - r.v), r.trace) else r, s.pc + 6 + SizeE(i), fuel)
  {
    hide Run, Encode, Image, At, SizeE, ToI32;
    Seq(w, s, 1, s1, m);
    n := 1 + m;
    if r.Gave? {
      var s2 := s1.(pc := s1.pc + SizeE(i), stack := s1.stack + [r.v], trace := r.trace);
      assert s2.Valid() by { RunValid(w, s1, m); }
      assert s2.stack == s.stack + [0, r.v];
      n := BinaryStep(w, s, 1 + m, s2, Sub, 0, r.v);
    }
  }

  /** The operator after both operands. */
  lemma BinaryStep(w: World, s: State, m: nat, t: State, op: BinOp, a: i32, b: i32) returns (n: nat)
    requires s.Valid() && t.Valid() && Run(w.Code(), s, w.gpio, m) == Running(t)
    requires t.stack == s.stack + [a, b] && t == s.(pc := t.pc, stack := t.stack, trace := t.trace)
    requires At(w.Code(), t.pc, Encode(Binary(op)))
    ensures n == m + 1
    ensures var r := Apply(op, a, b);
            Run(w.Code(), s, w.gpio, n) ==
              if r.ZeroDivisor? then Trapped(DivideByZero, t.trace)
              else Running(s.(pc := t.pc + 1, stack := s.stack + [r.v], trace := t.trace))
  {
    hide Run, Encode, Image;
    One(w.Code(), t, w.gpio, Binary(op));
    Seq(w, s, m, t, 1);
    n := m + 1;
    assert t.stack[..|t.stack| - 2] == s.stack;
    assert t.stack[|t.stack| - 2] == a && t.stack[|t.stack| - 1] == b;
  }

  lemma {:induction false} BinRuns(w: World, names: seq<Name>, op: BinOp, l: Expr, r: Expr, s: State, store: Store,
                                   fuel: nat)
    returns (n: nat)
    requires Ready(w, names, s, store) && Loaded(w, names, Bin(op, l, r), s.pc)
    ensures AfterE(w, s, n, Eval(w.p, Bin(op, l, r), store, |s.stack|, |s.frames|, s.trace, w.gpio, fuel),
                   s.pc + SizeE(Bin(op, l, r)), fuel)
    decreases fuel, 1, Bin(op, l, r), 0
  {
    hide Run, Execute, Encode, Proper, Sealed, Image, Table, At, AllKnown, Loaded, Holds, Apply;
    BinLoaded(w, names, op, l, r, s.pc);
    n := ExprRuns(w, names, l, s, store, fuel);
    var a := Eval(w.p, l, store, |s.stack|, |s.frames|, s.trace, w.gpio, fuel);
    if a.Gave? {
      var s1 := s.(pc := s.pc + SizeE(l), stack := s.stack + [a.v], trace := a.trace);
      assert s1.Valid() by { RunValid(w, s, n); }
      var m := ExprRuns(w, names, r, s1, store, fuel);
      var b := Eval(w.p, r, store, |s1.stack|, |s.frames|, a.trace, w.gpio, fuel);
      n := BinEnds(w, op, a.v, r, s, n, s1, m, b, fuel);
    }
  }

  /** What an operator makes of its second operand's outcome. */
  function Combined(op: BinOp, a: i32, b: Flow): Flow {
    if !b.Gave? then b
    else
      match Apply(op, a, b.v)
      case ZeroDivisor => Stuck(DivideByZero, b.trace)
      case Value(v) => Gave(v, b.trace)
  }

  lemma BinEnds(w: World, op: BinOp, a: i32, r: Expr, s: State, k: nat, s1: State, m: nat, b: Flow, fuel: nat)
    returns (n: nat)
    requires s.Valid() && s1.Valid() && s1 == s.(pc := s1.pc, stack := s.stack + [a], trace := s1.trace)
    requires Run(w.Code(), s, w.gpio, k) == Running(s1) && AfterE(w, s1, m, b, s1.pc + SizeE(r), fuel)
    requires At(w.Code(), s1.pc + SizeE(r), Encode(Binary(op)))
    ensures AfterE(w, s, n, Combined(op, a, b), s1.pc + SizeE(r) + 1, fuel)
  {
    hide Run, Encode, Image, At, SizeE, Apply;
    Seq(w, s, k, s1, m);
    n := k + m;
    if b.Gave? {
      var s2 := s1.(pc := s1.pc + SizeE(r), stack := s1.stack + [b.v], trace := b.trace);
      assert s2.Valid() by { RunValid(w, s1, m); }
      assert s2.stack == s.stack + [a, b.v];
      n := BinaryStep(w, s, k + m, s2, op, a, b.v);
    }
  }

  lemma RunValid(w: World, s: State, n: nat)
    requires s.Valid()
    ensures var r := Run(w.Code(), s, w.gpio, n); r.Running? ==> r.s.Valid()
  {
  }

  // ---------- statements ----------

  ghost predicate LoadedS(w: World, names: seq<Name>, st: Stmt, at: nat) {
    && At(w.Code(), at, EmitS(st, at, names, w.Fns()))
    && WellFormedS(st, names) && AllKnown(SitesS(st, at), w.Fns()) && CallsOnlyS(st, w.sealed)
    && (at + SizeS(st) < |w.Code()| || AlwaysReturnsS(st))
  }

  ghost predicate LoadedSs(w: World, names: seq<Name>, ss: Stmts, at: nat) {
    && At(w.Code(), at, EmitSs(ss, at, names, w.Fns()))
    && WellFormedSs(ss, names) && AllKnown(SitesSs(ss, at), w.Fns()) && CallsOnly(ss, w.sealed)
    && (at + SizeSs(ss) < |w.Code()| || AlwaysReturns(ss))
  }

  lemma CodeSize(w: World)
    requires w.Good()
    ensures |w.Code()| <= MAX_CODE
  {
    hide Image, AllWellFormed, Distinct, CallsDefined, SealedFs;
  }

  lemma HoldsUpdate(names: seq<Name>, store: Store, locals: seq<i32>, n: Name, v: i32)
    requires Holds(names, store, locals) && n in names
    ensures Holds(names, store[n := v], locals[Slot(names, n) := v])
  {
    hide Slot;
  }

  /** The value on top goes to a variable's slot. */
  lemma StoreStep(w: World, names: seq<Name>, s: State, m: nat, t: State, store: Store, name: Name, v: i32, fuel: nat)
    returns (n: nat)
    requires s.Valid() && t.Valid() && Run(w.Code(), s, w.gpio, m) == Running(t)
    requires t == s.(pc := t.pc, stack := s.stack + [v], trace := t.trace) && Holds(names, store, s.locals)
             && name in names
    requires At(w.Code(), t.pc, Encode(StoreLocal(Slot(names, name))))
    ensures AfterS(w, names, s, n, Went(store[name := v], t.trace), t.pc + 2, fuel)
  {
    hide Run, Encode, Image;
    var k := Slot(names, name);
    One(w.Code(), t, w.gpio, StoreLocal(k));
    Seq(w, s, m, t, 1);
    n := m + 1;
    assert t.stack[..|t.stack| - 1] == s.stack;
    HoldsUpdate(names, store, s.locals, name, v);
  }

  /** Initialised declarations and assignments. */
  lemma {:induction false} AssignRuns(w: World, names: seq<Name>, name: Name, e: Expr, s: State, store: Store,
                                      fuel: nat)
    returns (n: nat)
    requires Ready(w, names, s, store) && name in names && Loaded(w, names, e, s.pc)
    requires At(w.Code(), s.pc + SizeE(e), Encode(StoreLocal(Slot(names, name))))
    ensures var r := Eval(w.p, e, store, |s.stack|, |s.frames|, s.trace, w.gpio, fuel);
            AfterS(w, names, s, n, if r.Gave? then Went(store[name := r.v], r.trace) else r, s.pc + SizeE(e) + 2, fuel)
    decreases fuel, 1, e, 2
  {
    hide Run, Encode, Image, Proper, Sealed, Table, Eval;
    n := ExprRuns(w, names, e, s, store, fuel);
    var r := Eval(w.p, e, store, |s.stack|, |s.frames|, s.trace, w.gpio, fuel);
    if r.Gave? {
      var t := s.(pc := s.pc + SizeE(e), stack := s.stack + [r.v], trace := r.trace);
      assert t.Valid() by { RunValid(w, s, n); }
      n := StoreStep(w, names, s, n, t, store, name, r.v, fuel);
    }
  }

  /** Execution of a simple instruction after an expression whose value it consumes. */
  lemma {:induction false} PrintRuns(w: World, names: seq<Name>, e: Expr, s: State, store: Store, fuel: nat)
    returns (n: nat)
    requires Ready(w, names, s, store) && Loaded(w, names, e, s.pc) && At(w.Code(), s.pc + SizeE(e), Encode(PrintInt))
    ensures AfterS(w, names, s, n, Exec(w.p, PrintExpr(e), store, |s.stack|, |s.frames|, s.trace, w.gpio, fuel),
                   s.pc + SizeE(e) + 1, fuel)
    decreases fuel, 1, e, 2
  {
    hide Run, Encode, Image, Proper, Sealed, Table, Eval;
    n := ExprRuns(w, names, e, s, store, fuel);
    var r := Eval(w.p, e, store, |s.stack|, |s.frames|, s.trace, w.gpio, fuel);
    if r.Gave? {
      var t := s.(pc := s.pc + SizeE(e), stack := s.stack + [r.v], trace := r.trace);
      assert t.Valid() by { RunValid(w, s, n); }
      One(w.Code(), t, w.gpio, PrintInt);
      Seq(w, s, n, t, 1);
      n := n + 1;
      assert t.stack[..|t.stack| - 1] == s.stack;
    }
  }

  /** A condition and its branch: falls through on a non-zero value, else goes to `target`. */
  lemma {:induction false} GuardRuns(w: World, names: seq<Name>, c: Expr, target: nat, s: State, store: Store,
                                     fuel: nat)
    returns (n: nat)
    requires Ready(w, names, s, store) && Loaded(w, names, c, s.pc) && target < |w.Code()| <= MAX_CODE
    requires At(w.Code(), s.pc + SizeE(c), Encode(Jz(target)))
    ensures var r := Eval(w.p, c, store, |s.stack|, |s.frames|, s.trace, w.gpio, fuel);
            if r.Gave? then
              n > 0 && Run(w.Code(), s, w.gpio, n) ==
                         Running(s.(pc := if r.v != 0 then s.pc + SizeE(c) + 3 else target, trace := r.trace))
            else AfterS(w, names, s, n, r, target, fuel)
    decreases fuel, 1, c, 2
  {
    hide Run, Encode, Image, Proper, Sealed, Table, Eval;
    n := ExprRuns(w, names, c, s, store, fuel);
    var r := Eval(w.p, c, store, |s.stack|, |s.frames|, s.trace, w.gpio, fuel);
    if r.Gave? {
      var t := s.(pc := s.pc + SizeE(c), stack := s.stack + [r.v], trace := r.trace);
      assert t.Valid() by { RunValid(w, s, n); }
      One(w.Code(), t, w.gpio, Jz(target));
      Seq(w, s, n, t, 1);
      n := n + 1;
      assert t.stack[..|t.stack| - 1] == s.stack;
    }
  }

  /** What follows a prefix of m steps to a state that differs only in pc, locals and trace. */
  lemma Resume(w: World, names: seq<Name>, s: State, m: nat, t: State, n: nat, flow: Flow, next: nat, fuel: nat)
    requires s.Valid() && t.Valid() && Run(w.Code(), s, w.gpio, m) == Running(t)
    requires t == s.(pc := t.pc, locals := t.locals, trace := t.trace) && AfterS(w, names, t, n, flow, next, fuel)
    ensures AfterS(w, names, s, m + n, flow, next, fuel)
    ensures m > 0 && flow.Starved? ==> AfterS(w, names, s, m + n, flow, next, fuel + 1)
  {
    hide Run, Image;
    Seq(w, s, m, t, n);
  }

  lemma {:induction false} StmtRuns(w: World, names: seq<Name>, st: Stmt, s: State, store: Store, fuel: nat)
    returns (n: nat)
    requires Ready(w, names, s, store) && LoadedS(w, names, st, s.pc)
    ensures AfterS(w, names, s, n, Exec(w.p, st, store, |s.stack|, |s.frames|, s.trace, w.gpio, fuel), s.pc + SizeS(st),
                   fuel)
    decreases fuel, 2, st, 1
  {
    hide Run, Image, Sealed, Table, Exec, SizeS, LoadedS, Ready;
    match st {
      case Declare(name) => n := DeclareRuns(w, names, name, s, store, fuel);
      case DeclareInit(name, e) => n := ValueRuns(w, names, st, e, s, store, fuel);
      case Assign(name, e) => n := ValueRuns(w, names, st, e, s, store, fuel);
      case Return(e) => n := ValueRuns(w, names, st, e, s, store, fuel);
      case If(c, t) => n := IfRuns(w, names, c, t, s, store, fuel);
      case IfElse(c, t, e) => n := IfElseRuns(w, names, c, t, e, s, store, fuel);
      case While(c, b) => n := WhileRuns(w, names, c, b, s, store, fuel);
      case WriteString(_, _) => n := PlainRuns(w, names, st, s, store, fuel);
      case PrintExpr(e) => n := ValueRuns(w, names, st, e, s, store, fuel);
      case SleepFor(_) => n := PlainRuns(w, names, st, s, store, fuel);
      case ToggleGpio => n := PlainRuns(w, names, st, s, store, fuel);
      case Block(b) => n := BlockRuns(w, names, b, s, store, fuel);
      case CallStmt(name) => n := CallStmtRuns(w, names, name, s, store, fuel);
    }
  }

  lemma DeclareRuns(w: World, names: seq<Name>, name: Name, s: State, store: Store, fuel: nat) returns (n: nat)
    requires Ready(w, names, s, store) && LoadedS(w, names, Declare(name), s.pc)
    ensures AfterS(w, names, s, n, Exec(w.p, Declare(name), store, |s.stack|, |s.frames|, s.trace, w.gpio, fuel),
                   s.pc + SizeS(Declare(name)), fuel)
  {
    hide Run, Encode, Image, Proper, Sealed, Table, Execute;
    AtSplit(w.Code(), s.pc, Encode(PushI32(0)), Encode(StoreLocal(Slot(names, name))));
    One(w.Code(), s, w.gpio, PushI32(0));
    PushRuns(0, s, w);
    n := 1;
    if |s.stack| < STACK_SIZE {
      n := StoreStep(w, names, s, 1, s.(pc := s.pc + 5, stack := s.stack + [0]), store, name, 0, fuel);
    }
  }

  /** Statements that evaluate one expression and use its value. */
  lemma {:induction false} ValueRuns(w: World, names: seq<Name>, st: Stmt, e: Expr, s: State, store: Store, fuel: nat)
    returns (n: nat)
    requires (st.DeclareInit? || st.Assign? || st.Return? || st.PrintExpr?) && e == st.e
    requires Ready(w, names, s, store) && LoadedS(w, names, st, s.pc)
    ensures AfterS(w, names, s, n, Exec(w.p, st, store, |s.stack|, |s.frames|, s.trace, w.gpio, fuel), s.pc + SizeS(st),
                   fuel)
    decreases fuel, 2, st, 0
  {
    hide Run, Encode, Image, Proper, Sealed, Table, Eval, EmitE, SitesE, Execute;
    match st {
      case Return(_) =>
        AtSplit(w.Code(), s.pc, EmitE(e, names, w.Fns()), Encode(Ret));
        n := ExprRuns(w, names, e, s, store, fuel);
      case PrintExpr(_) =>
        AtSplit(w.Code(), s.pc, EmitE(e, names, w.Fns()), Encode(PrintInt));
        n := PrintRuns(w, names, e, s, store, fuel);
      case DeclareInit(name, _) =>
        AtSplit(w.Code(), s.pc, EmitE(e, names, w.Fns()), Encode(StoreLocal(Slot(names, name))));
        n := AssignRuns(w, names, name, e, s, store, fuel);
      case Assign(name, _) =>
        AtSplit(w.Code(), s.pc, EmitE(e, names, w.Fns()), Encode(StoreLocal(Slot(names, name))));
        n := AssignRuns(w, names, name, e, s, store, fuel);
    }
  }

  lemma {:induction false} BlockRuns(w: World, names: seq<Name>, b: Stmts, s: State, store: Store, fuel: nat)
    returns (n: nat)
    requires Ready(w, names, s, store) && LoadedS(w, names, Block(b), s.pc)
    ensures AfterS(w, names, s, n, Exec(w.p, Block(b), store, |s.stack|, |s.frames|, s.trace, w.gpio, fuel),
                   s.pc + SizeS(Block(b)), fuel)
    decreases fuel, 2, Block(b), 0
  {
    hide Run, Encode, Image, Proper, Sealed, Table, EmitSs, SitesSs, Execute, ExecAll;
    n := ListRuns(w, names, b, s, store, fuel);
  }

  /** Statements that are one instruction. */
  lemma PlainRuns(w: World, names: seq<Name>, st: Stmt, s: State, store: Store, fuel: nat) returns (n: nat)
    requires st.WriteString? || st.SleepFor? || st.ToggleGpio?
    requires Ready(w, names, s, store) && LoadedS(w, names, st, s.pc)
    ensures AfterS(w, names, s, n, Exec(w.p, st, store, |s.stack|, |s.frames|, s.trace, w.gpio, fuel), s.pc + SizeS(st),
                   fuel)
  {
    hide Run, Encode, Image, Proper, Sealed, Table, Exec, Execute;
    match st {
      case WriteString(raw, _) => n := SimpleRuns(w, names, st, Write(Text(raw)), s, store, fuel);
      case SleepFor(ms) => n := SimpleRuns(w, names, st, Sleep(ms), s, store, fuel);
      case ToggleGpio => n := SimpleRuns(w, names, st, Gpio, s, store, fuel);
    }
  }

  lemma SimpleRuns(w: World, names: seq<Name>, st: Stmt, i: Instr, s: State, store: Store, fuel: nat) returns (n: nat)
    requires Ready(w, names, s, store) && At(w.Code(), s.pc, Encode(i))
    requires match st
             case WriteString(raw, _) => i == Write(Text(raw))
             case SleepFor(ms) => 0 <= ms < 0x1_0000 && i == Sleep(ms)
             case ToggleGpio => i == Gpio
             case _ => false
    ensures AfterS(w, names, s, n, Exec(w.p, st, store, |s.stack|, |s.frames|, s.trace, w.gpio, fuel), s.pc + Width(i),
                   fuel)
  {
    hide Run, Encode, Image, Table, Unescape, Sealed;
    n := 1;
    WriteFits(w, s.pc, i);
    One(w.Code(), s, w.gpio, i);
  }

  lemma WriteFits(w: World, at: nat, i: Instr)
    requires w.Good() && At(w.Code(), at, Encode(i))
    ensures i.Write? ==> |i.text| < 0x100
  {
    hide Encode, Image, Sealed;
    CodeSize(w);
  }

  lemma {:induction false} ListRuns(w: World, names: seq<Name>, ss: Stmts, s: State, store: Store, fuel: nat)
    returns (n: nat)
    requires Ready(w, names, s, store) && LoadedSs(w, names, ss, s.pc)
    ensures AfterS(w, names, s, n, ExecAll(w.p, ss, store, |s.stack|, |s.frames|, s.trace, w.gpio, fuel),
                   s.pc + SizeSs(ss), fuel)
    decreases fuel, 2, ss, 0
  {
    hide Encode, Image, Proper, Sealed, Table, Eval, EmitS, SitesS, Execute, Exec, LoadedS, LoadedSs;
    match ss {
      case Nil => n := 0;
      case Cons(h, t) =>
        LoadedHead(w, names, h, t, s.pc);
        n := StmtRuns(w, names, h, s, store, fuel);
        var r := Exec(w.p, h, store, |s.stack|, |s.frames|, s.trace, w.gpio, fuel);
        if r.Went? {
          ReturningS(w.p, h, store, |s.stack|, |s.frames|, s.trace, w.gpio, fuel);
          var s1 := Run(w.Code(), s, w.gpio, n).s;
          var m := ListRuns(w, names, t, s1, r.store, fuel);
          Resume(w, names, s, n, s1, m, ExecAll(w.p, t, r.store, |s.stack|, |s.frames|, r.trace, w.gpio, fuel),
                 s.pc + SizeSs(ss), fuel);
          n := n + m;
        }
    }
  }

  lemma LoadedHead(w: World, names: seq<Name>, h: Stmt, t: Stmts, at: nat)
    requires LoadedSs(w, names, Cons(h, t), at)
    ensures LoadedS(w, names, h, at)
    ensures !AlwaysReturnsS(h) ==> LoadedSs(w, names, t, at + SizeS(h))
  {
    hide Image, Table, EmitS, SitesS, At, AllKnown;
    AtSplit(w.Code(), at, EmitS(h, at, names, w.Fns()), EmitSs(t, at + SizeS(h), names, w.Fns()));
    KnownSplit(SitesS(h, at), SitesSs(t, at + SizeS(h)), w.Fns());
    AtBound(w.Code(), at + SizeS(h), EmitSs(t, at + SizeS(h), names, w.Fns()));
    ReturnsHasCode(t);
  }

  /** A list that always returns is not empty code. */
  lemma {:induction false} ReturnsHasCode(ss: Stmts)
    ensures AlwaysReturns(ss) ==> SizeSs(ss) > 0
    decreases ss, 1
  {
    match ss {
      case Nil =>
      case Cons(h, t) => ReturnsHasCodeS(h); ReturnsHasCode(t);
    }
  }

  lemma {:induction false} ReturnsHasCodeS(s: Stmt)
    ensures AlwaysReturnsS(s) ==> SizeS(s) > 0
    decreases s, 0
  {
    match s {
      case Block(b) => ReturnsHasCode(b);
      case _ =>
    }
  }

  /** AlwaysReturns is sound: such code never completes normally. */
  lemma {:induction false} ReturningS(p: Program, s: Stmt, store: Store, height: nat, depth: nat, trace: seq<Event>,
                                      gpio: nat -> bool, fuel: nat)
    ensures AlwaysReturnsS(s) ==> !Exec(p, s, store, height, depth, trace, gpio, fuel).Went?
    decreases s, 0
  {
    hide Eval;
    match s {
      case IfElse(c, t, e) =>
        var r := Eval(p, c, store, height, depth, trace, gpio, fuel);
        if r.Gave? {
          Returning(p, t, store, height, depth, r.trace, gpio, fuel);
          Returning(p, e, store, height, depth, r.trace, gpio, fuel);
        }
      case Block(b) => Returning(p, b, store, height, depth, trace, gpio, fuel);
      case _ =>
    }
  }

  lemma {:induction false} Returning(p: Program, ss: Stmts, store: Store, height: nat, depth: nat, trace: seq<Event>,
                                     gpio: nat -> bool, fuel: nat)
    ensures AlwaysReturns(ss) ==> !ExecAll(p, ss, store, height, depth, trace, gpio, fuel).Went?
    decreases ss, 1
  {
    hide Eval, Exec;
    match ss {
      case Nil =>
      case Cons(h, t) =>
        ReturningS(p, h, store, height, depth, trace, gpio, fuel);
        var r := Exec(p, h, store, height, depth, trace, gpio, fuel);
        if r.Went? {
          Returning(p, t, r.store, height, depth, r.trace, gpio, fuel);
        }
    }
  }

  lemma GlueIfParts(code: seq<byte>, at: nat, c: seq<byte>, t: seq<byte>, thenAt: nat)
    requires At(code, at, GlueIf(c, t, thenAt)) && thenAt == at + |c| + 3
    ensures At(code, at, c) && At(code, at + |c|, Encode(Jz(thenAt + |t|))) && At(code, thenAt, t)
  {
    hide At, Encode;
    AtSplit(code, at, c + Encode(Jz(thenAt + |t|)), t);
    AtSplit(code, at, c, Encode(Jz(thenAt + |t|)));
  }

  lemma IfParts(w: World, names: seq<Name>, c: Expr, t: Stmts, at: nat)
    requires At(w.Code(), at, EmitS(If(c, t), at, names, w.Fns())) && AllKnown(SitesS(If(c, t), at), w.Fns())
    ensures var thenAt := at + SizeE(c) + 3;
            && At(w.Code(), at, EmitE(c, names, w.Fns())) && At(w.Code(), at + SizeE(c), Encode(Jz(thenAt + SizeSs(t))))
            && At(w.Code(), thenAt, EmitSs(t, thenAt, names, w.Fns()))
            && AllKnown(SitesE(c, at), w.Fns()) && AllKnown(SitesSs(t, thenAt), w.Fns())
  {
    hide Encode, Image, Table, EmitE, SitesE, EmitSs, SitesSs, At, AllKnown, SizeE, GlueIf;
    var thenAt := at + SizeE(c) + 3;
    GlueIfParts(w.Code(), at, EmitE(c, names, w.Fns()), EmitSs(t, thenAt, names, w.Fns()), thenAt);
    KnownSplit(SitesE(c, at), SitesSs(t, thenAt), w.Fns());
  }

  lemma IfLoaded(w: World, names: seq<Name>, c: Expr, t: Stmts, at: nat)
    requires w.Good() && LoadedS(w, names, If(c, t), at)
    ensures var thenAt := at + SizeE(c) + 3;
            var next := thenAt + SizeSs(t);
            && Loaded(w, names, c, at) && At(w.Code(), at + SizeE(c), Encode(Jz(next))) && next < |w.Code()| <= MAX_CODE
            && LoadedSs(w, names, t, thenAt)
  {
    hide Encode, Image, Proper, Sealed, Table, EmitE, SitesE, EmitSs, SitesSs, EmitS, SitesS, At, AllKnown, SizeE;
    IfParts(w, names, c, t, at);
    CodeSize(w);
  }

  lemma {:induction false} IfRuns(w: World, names: seq<Name>, c: Expr, t: Stmts, s: State, store: Store, fuel: nat)
    returns (n: nat)
    requires Ready(w, names, s, store) && LoadedS(w, names, If(c, t), s.pc)
    ensures AfterS(w, names, s, n, Exec(w.p, If(c, t), store, |s.stack|, |s.frames|, s.trace, w.gpio, fuel),
                   s.pc + SizeS(If(c, t)), fuel)
    decreases fuel, 2, If(c, t), 0
  {
    hide Run, Encode, Image, Proper, Sealed, Table, Eval, EmitE, SitesE, EmitSs, SitesSs, ExecAll, Execute, LoadedS,
      LoadedSs, Loaded, Holds, At;
    var thenAt := s.pc + SizeE(c) + 3;
    var next := thenAt + SizeSs(t);
    IfLoaded(w, names, c, t, s.pc);
    n := GuardRuns(w, names, c, next, s, store, fuel);
    var r := Eval(w.p, c, store, |s.stack|, |s.frames|, s.trace, w.gpio, fuel);
    if r.Gave? && r.v != 0 {
      var s1 := s.(pc := thenAt, trace := r.trace);
      var m := ListRuns(w, names, t, s1, store, fuel);
      Resume(w, names, s, n, s1, m, ExecAll(w.p, t, store, |s.stack|, |s.frames|, r.trace, w.gpio, fuel), next, fuel);
      n := n + m;
    }
  }

  lemma {:induction false} IfElseRuns(w: World, names: seq<Name>, c: Expr, t: Stmts, e: Stmts, s: State, store: Store,
                                      fuel: nat)
    returns (n: nat)
    requires Ready(w, names, s, store) && LoadedS(w, names, IfElse(c, t, e), s.pc)
    ensures AfterS(w, names, s, n, Exec(w.p, IfElse(c, t, e), store, |s.stack|, |s.frames|, s.trace, w.gpio, fuel),
                   s.pc + SizeS(IfElse(c, t, e)), fuel)
    decreases fuel, 2, IfElse(c, t, e), 0
  {
    hide Run, Encode, Image, Proper, Sealed, Table, Eval, EmitE, SitesE, EmitSs, SitesSs, ExecAll, Execute, LoadedS,
      LoadedSs, Loaded, Holds, At;
    var thenAt := s.pc + SizeE(c) + 3;
    var elseAt := thenAt + SizeSs(t) + 3;
    var next := elseAt + SizeSs(e);
    ElseLoaded(w, names, c, t, e, s.pc);
    n := GuardRuns(w, names, c, elseAt, s, store, fuel);
    var r := Eval(w.p, c, store, |s.stack|, |s.frames|, s.trace, w.gpio, fuel);
    if r.Gave? && r.v == 0 {
      var s1 := s.(pc := elseAt, trace := r.trace);
      var m := ListRuns(w, names, e, s1, store, fuel);
      Resume(w, names, s, n, s1, m, ExecAll(w.p, e, store, |s.stack|, |s.frames|, r.trace, w.gpio, fuel), next, fuel);
      n := n + m;
    } else if r.Gave? {
      var s1 := s.(pc := thenAt, trace := r.trace);
      var m := ThenRuns(w, names, t, s1, store, next, fuel);
      Resume(w, names, s, n, s1, m, ExecAll(w.p, t, store, |s.stack|, |s.frames|, r.trace, w.gpio, fuel), next, fuel);
      n := n + m;
    }
  }

  /** A block with a jump behind it. */
  lemma {:induction false} ThenRuns(w: World, names: seq<Name>, t: Stmts, s: State, store: Store, next: nat, fuel: nat)
    returns (m: nat)
    requires Ready(w, names, s, store) && LoadedSs(w, names, t, s.pc) && (next < |w.Code()| || AlwaysReturns(t))
    requires At(w.Code(), s.pc + SizeSs(t), Encode(Jmp(next))) && |w.Code()| <= MAX_CODE
    ensures AfterS(w, names, s, m, ExecAll(w.p, t, store, |s.stack|, |s.frames|, s.trace, w.gpio, fuel), next, fuel)
    decreases fuel, 2, t, 1
  {
    hide Run, Encode, Image, Proper, Sealed, Table, EmitSs, SitesSs, ExecAll, LoadedSs, Holds, At;
    m := ListRuns(w, names, t, s, store, fuel);
    var x := ExecAll(w.p, t, store, |s.stack|, |s.frames|, s.trace, w.gpio, fuel);
    if x.Went? {
      Returning(w.p, t, store, |s.stack|, |s.frames|, s.trace, w.gpio, fuel);
      m := JumpRuns(w, names, s, m, x, s.pc + SizeSs(t), next, fuel);
    }
  }

  /** A completed statement followed by a jump. */
  lemma JumpRuns(w: World, names: seq<Name>, s: State, m: nat, flow: Flow, at: nat, target: nat, fuel: nat)
    returns (n: nat)
    requires s.Valid() && flow.Went? && AfterS(w, names, s, m, flow, at, fuel) && target < |w.Code()| <= MAX_CODE
    requires At(w.Code(), at, Encode(Jmp(target)))
    ensures n == m + 1 && AfterS(w, names, s, n, flow, target, fuel)
  {
    hide Run, Encode, Image;
    var t := Run(w.Code(), s, w.gpio, m).s;
    One(w.Code(), t, w.gpio, Jmp(target));
    Seq(w, s, m, t, 1);
    n := m + 1;
  }

  lemma ElseLoaded(w: World, names: seq<Name>, c: Expr, t: Stmts, e: Stmts, at: nat)
    requires w.Good() && LoadedS(w, names, IfElse(c, t, e), at)
    ensures var thenAt := at + SizeE(c) + 3;
            var elseAt := thenAt + SizeSs(t) + 3;
            var next := elseAt + SizeSs(e);
            && Loaded(w, names, c, at) && At(w.Code(), at + SizeE(c), Encode(Jz(elseAt)))
            && elseAt < |w.Code()| <= MAX_CODE
            && LoadedSs(w, names, t, thenAt) && LoadedSs(w, names, e, elseAt)
            && At(w.Code(), thenAt + SizeSs(t), Encode(Jmp(next))) && (next < |w.Code()| || AlwaysReturns(t))
  {
    hide Encode, Image, Proper, Sealed, Table, EmitE, SitesE, EmitSs, SitesSs, EmitS, SitesS, At, AllKnown, SizeE;
    ElseParts(w, names, c, t, e, at);
    AtBound(w.Code(), at + SizeE(c) + 6 + SizeSs(t), EmitSs(e, at + SizeE(c) + 6 + SizeSs(t), names, w.Fns()));
    ReturnsHasCode(e);
    CodeSize(w);
  }

  lemma ElseParts(w: World, names: seq<Name>, c: Expr, t: Stmts, e: Stmts, at: nat)
    requires At(w.Code(), at, EmitS(IfElse(c, t, e), at, names, w.Fns()))
    requires AllKnown(SitesS(IfElse(c, t, e), at), w.Fns())
    ensures var thenAt := at + SizeE(c) + 3;
            var elseAt := thenAt + SizeSs(t) + 3;
            && At(w.Code(), at, EmitE(c, names, w.Fns())) && At(w.Code(), at + SizeE(c), Encode(Jz(elseAt)))
            && At(w.Code(), thenAt, EmitSs(t, thenAt, names, w.Fns()))
            && At(w.Code(), thenAt + SizeSs(t), Encode(Jmp(elseAt + SizeSs(e))))
            && At(w.Code(), elseAt, EmitSs(e, elseAt, names, w.Fns()))
            && AllKnown(SitesE(c, at), w.Fns()) && AllKnown(SitesSs(t, thenAt), w.Fns())
            && AllKnown(SitesSs(e, elseAt), w.Fns())
  {
    hide Encode, EmitE, SitesE, EmitSs, SitesSs, EmitS, SitesS, SizeE, SizeSs, AllKnown, At, World.Code, World.Fns;
    var thenAt := at + SizeE(c) + 3;
    var elseAt := thenAt + SizeSs(t) + 3;
    var jz, jmp := Encode(Jz(elseAt)), Encode(Jmp(elseAt + SizeSs(e)));
    IfElseCode(at, c, t, e, names, w.Fns(), thenAt, elseAt);
    IfElseSites(at, c, t, e);
    AtSplit5(w.Code(), at, EmitE(c, names, w.Fns()), jz, EmitSs(t, thenAt, names, w.Fns()), jmp,
             EmitSs(e, elseAt, names, w.Fns()));
    assert |jz| == 3 && |jmp| == 3;
    KnownSplit(SitesE(c, at) + SitesSs(t, thenAt), SitesSs(e, elseAt), w.Fns());
    KnownSplit(SitesE(c, at), SitesSs(t, thenAt), w.Fns());
  }

  lemma {:induction false} WhileRuns(w: World, names: seq<Name>, c: Expr, b: Stmts, s: State, store: Store, fuel: nat)
    returns (n: nat)
    requires Ready(w, names, s, store) && LoadedS(w, names, While(c, b), s.pc)
    ensures AfterS(w, names, s, n, Exec(w.p, While(c, b), store, |s.stack|, |s.frames|, s.trace, w.gpio, fuel),
                   s.pc + SizeS(While(c, b)), fuel)
    decreases fuel, 2, While(c, b), 0
  {
    hide Encode, Image, Proper, Sealed, Table, Eval, EmitE, SitesE, EmitSs, SitesSs, ExecAll, Execute, EmitS, SitesS,
      LoadedS, LoadedSs, Loaded;
    n := 0;
    if fuel > 0 {
      LoopLoaded(w, names, c, b, s.pc);
      n := GuardRuns(w, names, c, s.pc + SizeS(While(c, b)), s, store, fuel);
      var r := Eval(w.p, c, store, |s.stack|, |s.frames|, s.trace, w.gpio, fuel);
      if r.Gave? && r.v != 0 {
        n := TurnRuns(w, names, c, b, s, store, n, r.trace, fuel);
      }
    }
  }

  /** The guard has fallen through after m instructions: the body, then the loop again. */
  lemma {:induction false} TurnRuns(w: World, names: seq<Name>, c: Expr, b: Stmts, s: State, store: Store, m: nat,
                                    trace: seq<Event>, fuel: nat)
    returns (n: nat)
    requires Ready(w, names, s, store) && LoadedS(w, names, While(c, b), s.pc) && m > 0 && fuel > 0
    requires Run(w.Code(), s, w.gpio, m) == Running(s.(pc := s.pc + SizeE(c) + 3, trace := trace))
    ensures var x := ExecAll(w.p, b, store, |s.stack|, |s.frames|, trace, w.gpio, fuel);
            AfterS(w, names, s, n,
                   if x.Went? then Exec(w.p, While(c, b), x.store, |s.stack|, |s.frames|, x.trace, w.gpio, fuel - 1)
                   else x,
                   s.pc + SizeS(While(c, b)), fuel)
    decreases fuel, 2, b, 3
  {
    hide Run, Encode, Image, Proper, Sealed, Table, EmitE, SitesE, EmitSs, SitesSs, Exec, ExecAll, EmitS, SitesS,
      LoadedS, LoadedSs, At, Loaded, Holds;
    var bodyAt := s.pc + SizeE(c) + 3;
    LoopLoaded(w, names, c, b, s.pc);
    var t := s.(pc := bodyAt, trace := trace);
    n := ListRuns(w, names, b, t, store, fuel);
    var x := ExecAll(w.p, b, store, |s.stack|, |s.frames|, trace, w.gpio, fuel);
    if x.Went? {
      n := JumpRuns(w, names, t, n, x, bodyAt + SizeSs(b), s.pc, fuel);
      Resume(w, names, s, m, t, n, x, s.pc, fuel);
      n := LoopAgain(w, names, c, b, s, m + n, x, fuel);
    } else {
      Resume(w, names, s, m, t, n, x, s.pc + SizeS(While(c, b)), fuel);
      n := m + n;
    }
  }

  lemma LoopParts(w: World, names: seq<Name>, c: Expr, b: Stmts, at: nat)
    requires At(w.Code(), at, EmitS(While(c, b), at, names, w.Fns())) && AllKnown(SitesS(While(c, b), at), w.Fns())
    ensures var bodyAt := at + SizeE(c) + 3;
            && At(w.Code(), at, EmitE(c, names, w.Fns()))
            && At(w.Code(), at + SizeE(c), Encode(Jz(bodyAt + SizeSs(b) + 3)))
            && At(w.Code(), bodyAt, EmitSs(b, bodyAt, names, w.Fns()))
            && At(w.Code(), bodyAt + SizeSs(b), Encode(Jmp(at)))
            && AllKnown(SitesE(c, at), w.Fns()) && AllKnown(SitesSs(b, bodyAt), w.Fns())
  {
    hide Encode, Image, Table, EmitE, SitesE, EmitSs, SitesSs, EmitS, SitesS, At, AllKnown, SizeE;
    var bodyAt := at + SizeE(c) + 3;
    var cc, jz, bc := EmitE(c, names, w.Fns()), Encode(Jz(bodyAt + SizeSs(b) + 3)), EmitSs(b, bodyAt, names, w.Fns());
    WhileCode(at, c, b, names, w.Fns(), bodyAt);
    AtSplit(w.Code(), at, cc + jz + bc, Encode(Jmp(at)));
    AtSplit(w.Code(), at, cc + jz, bc);
    AtSplit(w.Code(), at, cc, jz);
    KnownSplit(SitesE(c, at), SitesSs(b, bodyAt), w.Fns());
  }

  lemma LoopLoaded(w: World, names: seq<Name>, c: Expr, b: Stmts, at: nat)
    requires w.Good() && LoadedS(w, names, While(c, b), at)
    ensures var bodyAt := at + SizeE(c) + 3;
            var next := bodyAt + SizeSs(b) + 3;
            && Loaded(w, names, c, at) && At(w.Code(), at + SizeE(c), Encode(Jz(next))) && next < |w.Code()| <= MAX_CODE
            && LoadedSs(w, names, b, bodyAt) && At(w.Code(), bodyAt + SizeSs(b), Encode(Jmp(at)))
  {
    hide Encode, Image, Proper, Sealed, Table, EmitE, SitesE, EmitSs, SitesSs, EmitS, SitesS, At, AllKnown, SizeE;
    LoopParts(w, names, c, b, at);
    CodeSize(w);
  }

  /** Back at the loop head after one turn of m > 0 instructions. */
  lemma {:induction false} LoopAgain(w: World, names: seq<Name>, c: Expr, b: Stmts, s: State, m: nat, x: Flow,
                                     fuel: nat)
    returns (n: nat)
    requires w.Good() && s.Valid() && LoadedS(w, names, While(c, b), s.pc) && m > 0 && fuel > 0
    requires x.Went? && AfterS(w, names, s, m, x, s.pc, fuel)
    ensures AfterS(w, names, s, n, Exec(w.p, While(c, b), x.store, |s.stack|, |s.frames|, x.trace, w.gpio, fuel - 1),
                   s.pc + SizeS(While(c, b)), fuel)
    decreases fuel - 1, 3
  {
    hide Run, Encode, Image, Proper, Sealed, Table, Exec;
    var t := Run(w.Code(), s, w.gpio, m).s;
    assert t.Valid() by { RunValid(w, s, m); }
    var k := StmtRuns(w, names, While(c, b), t, x.store, fuel - 1);
    Resume(w, names, s, m, t, k, Exec(w.p, While(c, b), x.store, |s.stack|, |s.frames|, x.trace, w.gpio, fuel - 1),
           s.pc + SizeS(While(c, b)), fuel - 1);
    n := m + k;
  }

  lemma {:induction false} CallStmtRuns(w: World, names: seq<Name>, name: Name, s: State, store: Store, fuel: nat)
    returns (n: nat)
    requires Ready(w, names, s, store) && LoadedS(w, names, CallStmt(name), s.pc)
    ensures AfterS(w, names, s, n, Exec(w.p, CallStmt(name), store, |s.stack|, |s.frames|, s.trace, w.gpio, fuel),
                   s.pc + SizeS(CallStmt(name)), fuel)
    decreases fuel, 2, CallStmt(name), 0
  {
    hide Run, Encode, Image, Proper, Sealed, Table, Invoke;
    AtSplit(w.Code(), s.pc, Encode(Call(Address(w.Fns(), name))), Encode(Pop));
    assert Known(w.Fns(), SitesS(CallStmt(name), s.pc)[0].name);
    n := CallRuns(w, name, s, fuel);
    var r := Invoke(w.p, name, |s.stack|, |s.frames|, s.trace, w.gpio, fuel);
    if r.Gave? {
      var t := s.(pc := s.pc + 3, stack := s.stack + [r.v], trace := r.trace);
      assert t.Valid() by { RunValid(w, s, n); }
      One(w.Code(), t, w.gpio, Pop);
      Seq(w, s, n, t, 1);
      n := n + 1;
      assert t.stack[..|t.stack| - 1] == s.stack;
    }
  }

  // ---------- calls ----------

  /** Where the first function called n lies: its address, the byte before it, and its definition. */
  datatype Place = Place(at: nat, prev: byte, f: Function)

  function Locate(p: Program, at: nat, prev: byte, n: Name): Place
    requires Defined(p, n)
  {
    if p[0].name == n then Place(at, prev, p[0])
    else Locate(p[1..], at + SizeF(p[0], at, prev), RET, n)
  }

  lemma {:induction false} Located(p: Program, at: nat, prev: byte, n: Name, code: seq<byte>, fns: seq<Symbol>,
                                   names: set<Name>)
    requires Known(Layout(p, at, prev), n) && At(code, at, EmitFs(p, at, prev, fns))
    requires AllWellFormed(p) && SealedFs(p, at, prev, names) && n in names && AllKnown(SitesFs(p, at, prev), fns)
    ensures Defined(p, n)
    ensures var l := Locate(p, at, prev, n);
            && l.at == Address(Layout(p, at, prev), n) && l.f.body == BodyOf(p, n)
            && At(code, l.at, EmitF(l.f, l.at, l.prev, fns)) && WellFormedF(l.f) && SealedF(l.f, l.at, l.prev)
            && AllKnown(SitesSs(l.f.body, l.at), fns) && CallsOnly(l.f.body, names)
    decreases |p|
  {
    hide EmitF, SitesSs, WellFormedF, SealedF, GetsEpilogue, CallsOnly, At, AllKnown, SizeSs;
    assert p != [];
    var next := at + SizeF(p[0], at, prev);
    AtSplit(code, at, EmitF(p[0], at, prev, fns), EmitFs(p[1..], next, RET, fns));
    KnownSplit(SitesSs(p[0].body, at), SitesFs(p[1..], next, RET), fns);
    if p[0].name != n {
      assert Layout(p, at, prev)[1..] == Layout(p[1..], next, RET);
      Located(p[1..], next, RET, n, code, fns, names);
    }
  }

  /** A callable name has its function in the image, with room for a call to it. */
  lemma Entered(w: World, name: Name)
    requires w.Good() && Known(w.Fns(), name) && name in w.sealed
    ensures Defined(w.p, name)
    ensures var l := Locate(w.p, ENTRY_SIZE, HALT, name);
            && l.at == Address(w.Fns(), name) && l.f.body == BodyOf(w.p, name)
            && At(w.Code(), l.at, EmitF(l.f, l.at, l.prev, w.Fns())) && WellFormedF(l.f) && SealedF(l.f, l.at, l.prev)
            && AllKnown(SitesSs(l.f.body, l.at), w.Fns()) && CallsOnly(l.f.body, w.sealed)
            && l.at < |w.Code()| <= MAX_CODE
  {
    hide EmitF, SitesSs, WellFormedF, Encode, EmitFs, SitesFs, Locate;
    var stub := Encode(Call(Address(w.Fns(), MAIN))) + Encode(Halt);
    CodeSize(w);
    assert At(w.Code(), 0, stub + EmitFs(w.p, ENTRY_SIZE, HALT, w.Fns()));
    AtSplit(w.Code(), 0, stub, EmitFs(w.p, ENTRY_SIZE, HALT, w.Fns()));
    Located(w.p, ENTRY_SIZE, HALT, name, w.Code(), w.Fns(), w.sealed);
    var l := Locate(w.p, ENTRY_SIZE, HALT, name);
    ReturnsHasCode(l.f.body);
  }

  /** A body runs to a RET, by itself or through the implicit `return 0`. */
  function Completed(flow: Flow, height: nat): Flow {
    if !flow.Went? then flow
    else if height >= STACK_SIZE then Stuck(PushTrap, flow.trace)
    else Gave(0, flow.trace)
  }

  lemma {:induction false} BodyRuns(w: World, l: Place, t: State, fuel: nat) returns (m: nat)
    requires w.Good() && t.Valid() && t.pc == l.at && t.locals == ZERO_LOCALS
    requires At(w.Code(), l.at, EmitF(l.f, l.at, l.prev, w.Fns())) && WellFormedF(l.f) && SealedF(l.f, l.at, l.prev)
    requires AllKnown(SitesSs(l.f.body, l.at), w.Fns()) && CallsOnly(l.f.body, w.sealed)
    ensures var flow := ExecAll(w.p, l.f.body, map[], |t.stack|, |t.frames|, t.trace, w.gpio, fuel);
            AfterS(w, DeclaredSs(l.f.body), t, m, Completed(flow, |t.stack|), 0, fuel)
    decreases fuel, 3
  {
    hide Encode, EmitSs, SitesSs, WellFormedSs, Image, ExecAll, Table, GetsEpilogue, DeclaredSs, Proper, Sealed,
      Execute;
    var names, end := DeclaredSs(l.f.body), l.at + SizeSs(l.f.body);
    var body := EmitSs(l.f.body, l.at, names, w.Fns());
    var flow := ExecAll(w.p, l.f.body, map[], |t.stack|, |t.frames|, t.trace, w.gpio, fuel);
    if GetsEpilogue(l.f, l.at, l.prev) {
      AtSplit(w.Code(), l.at, body, EPILOGUE);
    } else {
      assert body + [] == body;
    }
    EmptyHolds(names);
    m := ListRuns(w, names, l.f.body, t, map[], fuel);
    if flow.Went? {
      Returning(w.p, l.f.body, map[], |t.stack|, |t.frames|, t.trace, w.gpio, fuel);
      m := EpilogueRuns(w, names, t, m, flow, end, fuel);
    }
  }

  lemma EmptyHolds(names: seq<Name>)
    requires |names| <= LOCAL_COUNT
    ensures Holds(names, map[], ZERO_LOCALS)
  {
    assert forall k :: 0 <= k < LOCAL_COUNT ==> ZERO_LOCALS[k] == 0;
  }

  lemma EpilogueRuns(w: World, names: seq<Name>, t: State, m: nat, flow: Flow, end: nat, fuel: nat) returns (n: nat)
    requires t.Valid() && flow.Went? && AfterS(w, names, t, m, flow, end, fuel) && At(w.Code(), end, EPILOGUE)
    ensures AfterS(w, names, t, n, Completed(flow, |t.stack|), 0, fuel)
  {
    hide Run, Encode, Image, Execute;
    var u := Run(w.Code(), t, w.gpio, m).s;
    assert u.Valid() by { RunValid(w, t, m); }
    AtSplit(w.Code(), end, Encode(PushI32(0)), Encode(Ret));
    One(w.Code(), u, w.gpio, PushI32(0));
    PushRuns(0, u, w);
    Seq(w, t, m, u, 1);
    n := m + 1;
  }

  lemma {:induction false} CallRuns(w: World, name: Name, s: State, fuel: nat) returns (n: nat)
    requires w.Good() && s.Valid() && Known(w.Fns(), name) && name in w.sealed
             && At(w.Code(), s.pc, Encode(Call(Address(w.Fns(), name))))
    ensures AfterE(w, s, n, Invoke(w.p, name, |s.stack|, |s.frames|, s.trace, w.gpio, fuel), s.pc + 3, fuel)
    decreases fuel, 0
  {
    hide Encode, ExecAll, EmitF, SealedF, WellFormedF, Image, SitesSs, Table, Proper, Sealed, Locate;
    Entered(w, name);
    var l := Locate(w.p, ENTRY_SIZE, HALT, name);
    One(w.Code(), s, w.gpio, Call(l.at));
    n := 1;
    if |s.frames| < FRAME_COUNT && fuel == 0 {
      n := 0;
    } else if |s.frames| < FRAME_COUNT {
      var t := s.(pc := l.at, locals := ZERO_LOCALS, frames := s.frames + [Frame(s.pc + 3, |s.stack|, s.locals)]);
      var m := BodyRuns(w, l, t, fuel - 1);
      n := ReturnRuns(w, s, t, DeclaredSs(l.f.body), m,
                      Completed(ExecAll(w.p, l.f.body, map[], |t.stack|, |t.frames|, t.trace, w.gpio, fuel - 1),
                                |t.stack|), fuel);
    }
  }

  /** Back from the callee: its result is pushed for the caller. */
  lemma ReturnRuns(w: World, s: State, t: State, names: seq<Name>, m: nat, flow: Flow, fuel: nat) returns (n: nat)
    requires s.Valid() && t.Valid() && fuel > 0 && !flow.Went?
    requires t == s.(pc := t.pc, locals := t.locals, frames := s.frames + [Frame(s.pc + 3, |s.stack|, s.locals)])
    requires Run(w.Code(), s, w.gpio, 1) == Running(t) && AfterS(w, names, t, m, flow, 0, fuel - 1)
    ensures AfterE(w, s, n, flow, s.pc + 3, fuel)
  {
    hide Run, Encode, Image;
    Seq(w, s, 1, t, m);
    n := 1 + m;
    if flow.Gave? {
      var u := Run(w.Code(), t, w.gpio, m).s;
      assert u.Valid() by { RunValid(w, t, m); }
      One(w.Code(), u, w.gpio, Ret);
      Seq(w, s, n, u, 1);
      n := n + 1;
      assert u.frames[..|u.frames| - 1] == s.frames;
    }
  }

  // ---------- programs ----------

  /** What a program does: main is called on an empty machine. */
  function Behaviour(p: Program, gpio: nat -> bool, fuel: nat): Flow {
    Invoke(p, MAIN, 0, 0, [], gpio, fuel)
  }

  /** The machine after n instructions from reset shows the behaviour. */
  ghost predicate Shows(w: World, n: nat, flow: Flow, fuel: nat) {
    var r := Run(w.Code(), RESET, w.gpio, n);
    match flow
    case Gave(_, trace) => r == Exited(trace)
    case Stuck(cause, trace) => r == Trapped(cause, trace)
    case Starved => r.Running? && n >= fuel
    case Went(_, _) => false
  }

  /** Main result: the image of a sealed program, run from reset, produces the events of the source
      semantics and stops as it says, or is still running if the semantics has not finished. */
  lemma ImageRuns(w: World, fuel: nat) returns (n: nat)
    requires w.Good() && MAIN in w.sealed
    ensures Shows(w, n, Behaviour(w.p, w.gpio, fuel), fuel)
  {
    hide Run, Encode, EmitFs, Invoke, AllWellFormed, Distinct, SealedFs;
    var call := Encode(Call(Address(w.Fns(), MAIN)));
    var rest := EmitFs(w.p, ENTRY_SIZE, HALT, w.Fns());
    assert At(w.Code(), 0, call + Encode(Halt) + rest);
    AtSplit(w.Code(), 0, call + Encode(Halt), rest);
    AtSplit(w.Code(), 0, call, Encode(Halt));
    n := CallRuns(w, MAIN, RESET, fuel);
    var r := Behaviour(w.p, w.gpio, fuel);
    if r.Gave? {
      var t := RESET.(pc := 3, stack := [] + [r.v], trace := r.trace);
      One(w.Code(), t, w.gpio, Halt);
      Seq(w, RESET, n, t, 1);
      n := n + 1;
    }
  }

  /** A finished run stays finished. */
  lemma Settled(w: World, m: nat, n: nat)
    requires m <= n && !Run(w.Code(), RESET, w.gpio, m).Running?
    ensures Run(w.Code(), RESET, w.gpio, n) == Run(w.Code(), RESET, w.gpio, m)
  {
    hide Image, Run;
    RunCompose(w.Code(), RESET, w.gpio, m, n - m);
  }

  ghost predicate Finishes(p: Program, gpio: nat -> bool, r: Outcome) {
    !r.Running? && exists n: nat :: Run(Image(p), RESET, gpio, n) == r
  }

  ghost predicate Means(p: Program, gpio: nat -> bool, r: Outcome) {
    exists fuel: nat ::
      match Behaviour(p, gpio, fuel)
      case Gave(_, trace) => r == Exited(trace)
      case Stuck(cause, trace) => r == Trapped(cause, trace)
      case _ => false
  }

  /** The machine finishes with an outcome exactly when the source program means it; so it runs for
      ever exactly when the source program does. Only functions that calls from main can reach need be sealed. */
  lemma MachineMatchesMeaning(p: Program, gpio: nat -> bool, sealed: set<Name>, r: Outcome)
    requires Proper(p) && MAIN in sealed && Sealed(p, sealed)
    ensures Finishes(p, gpio, r) <==> Means(p, gpio, r)
  {
    hide Image, Run, Invoke, Proper, Sealed;
    var w := World(p, gpio, sealed);
    if Finishes(p, gpio, r) {
      var n: nat :| Run(Image(p), RESET, gpio, n) == r;
      var fuel := n;
      var m := ImageRuns(w, fuel);
      var flow := Behaviour(p, gpio, fuel);
      if m <= n { if flow.Starved? {} else { Settled(w, m, n); } } else { Settled(w, n, m); }
    }
    if Means(p, gpio, r) {
      var fuel: nat :| match Behaviour(p, gpio, fuel)
                       case Gave(_, trace) => r == Exited(trace)
                       case Stuck(cause, trace) => r == Trapped(cause, trace)
                       case _ => false;
      var n := ImageRuns(w, fuel);
    }
  }

  // ---------- code that calls nothing ----------

  lemma {:induction false} NoneSealed(p: Program, at: nat, prev: byte)
    ensures SealedFs(p, at, prev, {})
    decreases |p|
  {
    hide SealedF;
    if p != [] { NoneSealed(p[1..], at + SizeF(p[0], at, prev), RET); }
  }

  /** Expressions without calls keep their meaning in every proper program. */
  lemma CallFreeExprRuns(p: Program, gpio: nat -> bool, names: seq<Name>, e: Expr, s: State, store: Store, fuel: nat)
    returns (n: nat)
    requires Proper(p) && s.Valid() && Holds(names, store, s.locals) && BoundE(e, names) && CallsOnlyE(e, {})
    requires At(Image(p), s.pc, EmitE(e, names, Table(p)))
    ensures AfterE(World(p, gpio, {}), s, n, Eval(p, e, store, |s.stack|, |s.frames|, s.trace, gpio, fuel),
                   s.pc + SizeE(e), fuel)
  {
    hide Image, Proper, Table, EmitE, Eval;
    NoneSealed(p, ENTRY_SIZE, HALT);
    NoCallsE(e, s.pc);
    n := ExprRuns(World(p, gpio, {}), names, e, s, store, fuel);
  }

  lemma {:induction false} NoCallsE(e: Expr, at: nat)
    requires CallsOnlyE(e, {})
    ensures SitesE(e, at) == []
  {
    match e {
      case Paren(i) => NoCallsE(i, at);
      case Neg(i) => NoCallsE(i, at + 5);
      case Bin(_, l, r) => NoCallsE(l, at); NoCallsE(r, at + SizeE(l));
      case _ =>
    }
  }

  /** And so do statements. */
  lemma CallFreeStmtRuns(p: Program, gpio: nat -> bool, names: seq<Name>, st: Stmt, s: State, store: Store, fuel: nat)
    returns (n: nat)
    requires Proper(p) && s.Valid() && Holds(names, store, s.locals) && WellFormedS(st, names) && CallsOnlyS(st, {})
    requires At(Image(p), s.pc, EmitS(st, s.pc, names, Table(p)))
    requires s.pc + SizeS(st) < |Image(p)| || AlwaysReturnsS(st)
    ensures AfterS(World(p, gpio, {}), names, s, n, Exec(p, st, store, |s.stack|, |s.frames|, s.trace, gpio, fuel),
                   s.pc + SizeS(st), fuel)
  {
    hide Image, Proper, Table, EmitS, Exec, WellFormedS;
    NoneSealed(p, ENTRY_SIZE, HALT);
    NoCallsS(st, s.pc);
    n := StmtRuns(World(p, gpio, {}), names, st, s, store, fuel);
  }

  lemma {:induction false} NoCallsS(s: Stmt, at: nat)
    requires CallsOnlyS(s, {})
    ensures SitesS(s, at) == []
    decreases s, 0
  {
    hide SitesE, CallsOnlyE, SizeE;
    match s {
      case DeclareInit(_, e) => NoCallsE(e, at);
      case Assign(_, e) => NoCallsE(e, at);
      case Return(e) => NoCallsE(e, at);
      case PrintExpr(e) => NoCallsE(e, at);
      case If(c, t) => NoCallsE(c, at); NoCallsSs(t, at + SizeE(c) + 3);
      case IfElse(c, t, e) =>
        NoCallsE(c, at);
        NoCallsSs(t, at + SizeE(c) + 3);
        NoCallsSs(e, at + SizeE(c) + 3 + SizeSs(t) + 3);
      case While(c, b) => NoCallsE(c, at); NoCallsSs(b, at + SizeE(c) + 3);
      case Block(b) => NoCallsSs(b, at);
      case _ =>
    }
  }

  lemma {:induction false} NoCallsSs(ss: Stmts, at: nat)
    requires CallsOnly(ss, {})
    ensures SitesSs(ss, at) == []
    decreases ss, 1
  {
    hide SitesS, CallsOnlyS;
    match ss {
      case Nil =>
      case Cons(h, t) => NoCallsS(h, at); NoCallsSs(t, at + SizeS(h));
    }
  }
}
