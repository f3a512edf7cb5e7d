module LoweringShape {
  // Lowered functions have the form the optimizer asks for.

  import opened Options
  import opened Ir
  import opened Lowering
  import A = Ast
  import Cfg = CfgSimplification
  import opened Graphs

  ghost predicate DefAt(blocks: seq<seq<Inst>>, b: int, k: int, r: nat) {
    0 <= b < |blocks| && 0 <= k < |blocks[b]| && r in Defs(blocks[b][k])
  }

  /** Terminators stand last, uses follow definitions in their block, and branches stay in range. */
  ghost predicate BlockShape(insts: seq<Inst>, limit: nat) {
    && (forall k :: 0 <= k < |insts| - 1 ==> !IsTerminator(insts[k]))
    && LocalUses(insts)
    && (forall k, t :: 0 <= k < |insts| && t in Targets(insts[k]) ==> t < limit)
  }

  ghost predicate DefsOk(blocks: seq<seq<Inst>>, nextReg: nat) {
    && (forall b, k, c, l, r :: DefAt(blocks, b, k, r) && DefAt(blocks, c, l, r) ==> b == c && k == l)
    && (forall b, k, r: nat :: DefAt(blocks, b, k, r) ==> r < nextReg)
  }

  ghost predicate Shaped(s: LState) {
    && s.Ok()
    && (forall b :: 0 <= b < |s.blocks| ==> BlockShape(s.blocks[b], |s.blocks|))
    && DefsOk(s.blocks, s.nextReg)
    && (s.loop.Some? ==> s.loop.value.stepBlock < |s.blocks| && s.loop.value.exitBlock < |s.blocks|)
  }

  ghost predicate Provided(insts: seq<Inst>, v: Value) { v.Reg? ==> DefinedBefore(insts, |insts|, v.id) }

  lemma SnocShape(insts: seq<Inst>, i: Inst, limit: nat)
    requires BlockShape(insts, limit) && !EndsBlock(insts)
    requires forall r :: r in UsedRegs(i) ==> DefinedBefore(insts, |insts|, r)
    requires forall t :: t in Targets(i) ==> t < limit
    ensures BlockShape(insts + [i], limit)
  {
    var t := insts + [i];
    forall k, r | 0 <= k < |t| && r in UsedRegs(t[k]) ensures DefinedBefore(t, k, r) {
      if k < |insts| { assert DefinedBefore(insts, k, r); }
      var j :| 0 <= j < k && j < |insts| && r in Defs(insts[j]);
      assert t[j] == insts[j];
    }
  }

  lemma SnocDefs(blocks: seq<seq<Inst>>, b: nat, i: Inst, nextReg: nat)
    requires DefsOk(blocks, nextReg) && b < |blocks| && (Dst(i).Some? ==> Dst(i).value == nextReg)
    ensures DefsOk(blocks[b := blocks[b] + [i]], if Dst(i).Some? then nextReg + 1 else nextReg)
  {
    var t := blocks[b := blocks[b] + [i]];
    forall c, k, r: nat | DefAt(t, c, k, r)
      ensures DefAt(blocks, c, k, r) || (c == b && k == |blocks[b]| && r == nextReg)
    {
      if c != b || k < |blocks[b]| { assert t[c][k] == blocks[c][k]; }
    }
  }

  /** Emitting an instruction whose operands the block provides. */
  lemma EmitShape(s: LState, i: Inst)
    requires Shaped(s) && !Terminated(s)
    requires forall r :: r in UsedRegs(i) ==> DefinedBefore(s.blocks[s.cur], |s.blocks[s.cur]|, r)
    requires forall t :: t in Targets(i) ==> t < |s.blocks|
    requires Dst(i).Some? ==> Dst(i).value == s.nextReg
    ensures Shaped(if Dst(i).Some? then EmitDef(s, i) else Emit(s, i))
    ensures Terminated(Emit(s, i)) <==> IsTerminator(i)
  {
    SnocShape(s.blocks[s.cur], i, |s.blocks|);
    SnocDefs(s.blocks, s.cur, i, s.nextReg);
  }

  lemma ProvidedPrefix(a: seq<Inst>, b: seq<Inst>, v: Value)
    requires a <= b && Provided(a, v)
    ensures Provided(b, v)
  {
    if v.Reg? {
      var j :| 0 <= j < |a| && v.id in Defs(a[j]);
      assert b[j] == a[j];
    }
  }

  lemma UsesProvided(insts: seq<Inst>, i: Inst)
    requires forall v :: v in Operands(i) ==> Provided(insts, v)
    ensures forall r :: r in UsedRegs(i) ==> DefinedBefore(insts, |insts|, r)
  {}

  /** What lowering an expression leaves as it was. */
  ghost predicate SameButCur(s: LState, t: LState) {
    && s.Ok() && t.Ok() && t.cur == s.cur && |t.blocks| == |s.blocks| && t.loop == s.loop && t.syms == s.syms
    && s.nextReg <= t.nextReg && s.blocks[s.cur] <= t.blocks[s.cur]
    && (forall b :: 0 <= b < |s.blocks| && b != s.cur ==> t.blocks[b] == s.blocks[b])
  }

  lemma DefExpr(s: LState, i: Inst)
    requires Shaped(s) && !Terminated(s) && Dst(i) == Some(s.nextReg) && Targets(i) == []
    requires forall v :: v in Operands(i) ==> Provided(s.blocks[s.cur], v)
    ensures Shaped(EmitDef(s, i)) && !Terminated(EmitDef(s, i)) && SameButCur(s, EmitDef(s, i))
    ensures Provided(EmitDef(s, i).blocks[s.cur], Reg(s.nextReg))
  {
    UsesProvided(s.blocks[s.cur], i);
    EmitShape(s, i);
    assert s.nextReg in Defs(EmitDef(s, i).blocks[s.cur][|s.blocks[s.cur]|]);
  }

  lemma ConstShape(s: LState, v: Value)
    requires Shaped(s) && !Terminated(s) && !v.Reg?
    ensures var t := EmitDef(s, Const(s.nextReg, v));
      Shaped(t) && !Terminated(t) && SameButCur(s, t) && Provided(t.blocks[t.cur], Reg(s.nextReg))
  { DefExpr(s, Const(s.nextReg, v)); }

  /** An operation on two operands, the first of them found before the second was lowered. */
  lemma BinShape(s: LState, s1: LState, a: Value, s2: LState, b: Value, op: BinOp)
    requires SameButCur(s, s1) && SameButCur(s1, s2) && Shaped(s2) && !Terminated(s2)
    requires Provided(s1.blocks[s1.cur], a) && Provided(s2.blocks[s2.cur], b)
    ensures var t := EmitDef(s2, Bin(op, s2.nextReg, a, b));
      Shaped(t) && !Terminated(t) && SameButCur(s, t) && Provided(t.blocks[t.cur], Reg(s2.nextReg))
  {
    hide Shaped;
    hide Provided;
    ProvidedPrefix(s1.blocks[s.cur], s2.blocks[s.cur], a);
    DefExpr(s2, Bin(op, s2.nextReg, a, b));
  }

  lemma {:induction false} ExprShape(s: LState, e: A.Expr)
    requires Shaped(s) && !Terminated(s)
    ensures var (t, v) := LowerExpr(s, e);
      Shaped(t) && !Terminated(t) && SameButCur(s, t) && Provided(t.blocks[t.cur], v)
    decreases e, 1
  {
    hide Shaped;
    hide Provided;
    hide Terminated;
    match e
    case IntLit(i) => ConstShape(s, ConstInt(i));
    case BoolLit(b) => ConstShape(s, ConstBool(b));
    case Ident(x) =>
      if x in s.syms { DefExpr(s, Load(s.nextReg, SlotName(x))); } else { ConstShape(s, ConstInt(0)); }
    case Binary(op, l, r) =>
      ExprShape(s, l);
      var (s1, a) := LowerExpr(s, l);
      ExprShape(s1, r);
      var (s2, b) := LowerExpr(s1, r);
      BinShape(s, s1, a, s2, b, op);
    case Unary(op, x) =>
      ExprShape(s, x);
      var (s1, a) := LowerExpr(s, x);
      DefExpr(s1, Un(op, s1.nextReg, a));
    case Invoke(f, args) =>
      ArgsShape(s, args);
      var (s1, vs) := LowerArgs(s, args);
      DefExpr(s1, Call(Some(s1.nextReg), f, vs));
  }

  lemma {:induction false} ArgsShape(s: LState, args: seq<A.Expr>)
    requires Shaped(s) && !Terminated(s)
    ensures var (t, vs) := LowerArgs(s, args);
      Shaped(t) && !Terminated(t) && SameButCur(s, t) && forall v :: v in vs ==> Provided(t.blocks[t.cur], v)
    decreases args, 0
  {
    if args != [] {
      ExprShape(s, args[0]);
      var (s1, v) := LowerExpr(s, args[0]);
      ArgsShape(s1, args[1..]);
      ProvidedPrefix(s1.blocks[s.cur], LowerArgs(s1, args[1..]).0.blocks[s.cur], v);
    }
  }

  // ----- Code with the slot declarations left out -----

  function Strip(insts: seq<Inst>): (r: seq<Inst>) {
    if insts == [] then []
    else Strip(insts[..|insts|-1]) + (if insts[|insts|-1].Alloca? then [] else [insts[|insts|-1]])
  }

  lemma StripSnoc(insts: seq<Inst>, i: Inst)
    ensures Strip(insts + [i]) == Strip(insts) + (if i.Alloca? then [] else [i])
  { assert (insts + [i])[..|insts|] == insts; }

  lemma StripAlloca(insts: seq<Inst>, slot: string)
    ensures Strip(WithAlloca(insts, slot)) == Strip(insts)
  {
    StripSnoc(insts, Alloca(slot));
    if EndsBlock(insts) {
      var front, last := insts[..|insts|-1], insts[|insts|-1];
      assert WithAlloca(insts, slot) == (front + [Alloca(slot)]) + [last];
      StripSnoc(front + [Alloca(slot)], last);
      StripSnoc(front, Alloca(slot));
    }
  }

  lemma {:induction false} StripPrefix(a: seq<Inst>, b: seq<Inst>)
    requires a <= b
    ensures Strip(a) <= Strip(b)
    decreases |b|
  {
    if |a| < |b| { StripPrefix(a, b[..|b|-1]); } else { assert a == b; }
  }

  lemma AllocaShape(insts: seq<Inst>, slot: string, limit: nat)
    requires BlockShape(insts, limit)
    ensures BlockShape(WithAlloca(insts, slot), limit) && (EndsBlock(WithAlloca(insts, slot)) <==> EndsBlock(insts))
  {
    var t := WithAlloca(insts, slot);
    var n := if EndsBlock(insts) then |insts| - 1 else |insts|;
    assert t[n] == Alloca(slot) && UsedRegs(t[n]) == {};
    assert forall k :: 0 <= k < n ==> t[k] == insts[k];
    assert forall k :: n < k < |t| ==> t[k] == insts[k-1];
    forall k, r | 0 <= k < |t| && r in UsedRegs(t[k]) ensures DefinedBefore(t, k, r) {
      var m := if k < n then k else k - 1;
      assert DefinedBefore(insts, m, r);
      var j :| 0 <= j < m && j < |insts| && r in Defs(insts[j]);
      assert t[j] == insts[j];
    }
  }

  lemma AllocaDefs(blocks: seq<seq<Inst>>, slot: string, nextReg: nat)
    requires DefsOk(blocks, nextReg) && blocks != []
    ensures DefsOk(blocks[0 := WithAlloca(blocks[0], slot)], nextReg)
  {
    var t := blocks[0 := WithAlloca(blocks[0], slot)];
    assert EndsBlock(blocks[0]) ==> Defs(blocks[0][|blocks[0]|-1]) == {};
    forall b, k, r: nat | DefAt(t, b, k, r) ensures DefAt(blocks, b, k, r) {}
  }

  lemma DeclareShape(s: LState, x: string)
    requires Shaped(s)
    ensures Shaped(Declare(s, x)) && Grows(s, Declare(s, x)) && (Terminated(Declare(s, x)) <==> Terminated(s))
  {
    AllocaShape(s.blocks[0], SlotName(x), |s.blocks|);
    AllocaDefs(s.blocks, SlotName(x), s.nextReg);
    StripAlloca(s.blocks[0], SlotName(x));
  }

  lemma NewBlockShape(s: LState)
    requires Shaped(s)
    ensures Shaped(NewBlock(s)) && (Terminated(NewBlock(s)) <==> Terminated(s))
  {
    var t := NewBlock(s);
    assert forall b, k, r: nat :: DefAt(t.blocks, b, k, r) ==> DefAt(s.blocks, b, k, r);
    forall b | 0 <= b < |t.blocks| ensures BlockShape(t.blocks[b], |t.blocks|) {
      if b < |s.blocks| { assert BlockShape(s.blocks[b], |s.blocks|); }
    }
  }

  // ----- What a stretch of lowering touches -----

  /** From `s` to `t`, of the blocks `s` has only `at` gained code or ended; slot declarations aside. */
  ghost predicate Frame(s: LState, t: LState, at: nat) {
    && s.Ok() && t.Ok() && |s.blocks| <= |t.blocks| && s.nextReg <= t.nextReg
    && (forall x :: x in s.syms ==> x in t.syms)
    && (forall b :: 0 <= b < |s.blocks| ==> Strip(s.blocks[b]) <= Strip(t.blocks[b]))
    && (forall b :: 0 <= b < |s.blocks| && b != at ==> Strip(t.blocks[b]) == Strip(s.blocks[b]))
    && (forall b :: 0 <= b < |s.blocks| && b != at ==> (EndsBlock(t.blocks[b]) <==> EndsBlock(s.blocks[b])))
  }

  /** Lowering a statement touches the current block and blocks it makes, and ends every one of them it leaves. */
  ghost predicate Grows(s: LState, t: LState) {
    && Frame(s, t, s.cur) && t.loop == s.loop
    && (t.cur == s.cur || (t.cur >= |s.blocks| && EndsBlock(t.blocks[s.cur])))
    && (forall b :: |s.blocks| <= b < |t.blocks| && b != t.cur ==> EndsBlock(t.blocks[b]))
  }

  lemma GrowsExpr(s: LState, t: LState)
    requires SameButCur(s, t)
    ensures Grows(s, t)
  { StripPrefix(s.blocks[s.cur], t.blocks[s.cur]); }

  lemma GrowsEmit(s: LState, i: Inst)
    requires s.Ok()
    ensures Grows(s, Emit(s, i))
  { StripPrefix(s.blocks[s.cur], s.blocks[s.cur] + [i]); }

  lemma FrameTrans(a: LState, b: LState, c: LState, at: nat, next: nat)
    requires Frame(a, b, at) && Frame(b, c, next) && (next == at || next >= |a.blocks|)
    ensures Frame(a, c, at)
  {
    hide EndsBlock;
    hide Strip;
    forall k | 0 <= k < |a.blocks| ensures Strip(a.blocks[k]) <= Strip(c.blocks[k]) {
      assert Strip(a.blocks[k]) <= Strip(b.blocks[k]) <= Strip(c.blocks[k]);
    }
  }

  lemma GrowsTrans(a: LState, b: LState, c: LState)
    requires Grows(a, b) && Grows(b, c)
    ensures Grows(a, c)
  {
    FrameTrans(a, b, c, a.cur, b.cur);
    hide EndsBlock;
    hide Strip;
  }

  // ----- Heads of branches and loops -----

  ghost predicate StmtOk(s: LState, t: LState) { Shaped(t) && Grows(s, t) }

  lemma EmitLast(s: LState, i: Inst)
    requires Shaped(s) && !Terminated(s) && Dst(i).None?
    requires forall v :: v in Operands(i) ==> Provided(s.blocks[s.cur], v)
    requires forall t :: t in Targets(i) ==> t < |s.blocks|
    ensures StmtOk(s, Emit(s, i)) && (IsTerminator(i) <==> Terminated(Emit(s, i)))
  {
    hide BlockShape;
    hide DefsOk;
    UsesProvided(s.blocks[s.cur], i);
    EmitShape(s, i);
    GrowsEmit(s, i);
  }

  lemma {:induction false} NewBlocksShape(s: LState, n: nat)
    requires Shaped(s)
    ensures var t := NewBlocks(s, n);
      && Shaped(t) && (Terminated(t) <==> Terminated(s)) && Frame(s, t, s.cur)
      && t == s.(blocks := t.blocks)
      && (forall b :: 0 <= b < |t.blocks| ==> t.blocks[b] == if b < |s.blocks| then s.blocks[b] else [])
  {
    hide BlockShape;
    hide DefsOk;
    if n > 0 {
      NewBlocksShape(s, n - 1);
      NewBlockShape(NewBlocks(s, n - 1));
    }
  }

  lemma BranchShape(s: LState, guard: Option<A.Expr>, ifTrue: nat, ifFalse: nat)
    requires Shaped(s) && !Terminated(s) && ifTrue < |s.blocks| && ifFalse < |s.blocks|
    ensures var t := Branch(s, guard, ifTrue, ifFalse);
      && Shaped(t) && Terminated(t) && Grows(s, t) && t.syms == s.syms
      && (forall b :: 0 <= b < |s.blocks| && b != s.cur ==> t.blocks[b] == s.blocks[b])
  {
    hide BlockShape;
    hide DefsOk;
    if guard.Some? { ExprShape(s, guard.value); }
    var (s1, c) := if guard.None? then (s, ConstBool(true)) else LowerExpr(s, guard.value);
    var i := CondBr(c, ifTrue, ifFalse);
    UsesProvided(s1.blocks[s.cur], i);
    EmitShape(s1, i);
    GrowsExpr(s, s1);
    GrowsEmit(s1, i);
    GrowsTrans(s, s1, Emit(s1, i));
  }

  lemma OpenBlock()
    ensures !EndsBlock([])
  {}

  lemma LoopHeadShape(s: LState, n: nat)
    requires Shaped(s) && !Terminated(s) && n > 0
    ensures var t := LoopHead(s, n);
      var m := |s.blocks|;
      && Shaped(t) && !Terminated(t) && Frame(s, t, s.cur) && EndsBlock(t.blocks[s.cur])
      && t.syms == s.syms && t.loop == s.loop && t.nextReg == s.nextReg
      && (forall b :: m <= b < m + n ==> t.blocks[b] == [])
      && Strip(t.blocks[s.cur]) == Strip(s.blocks[s.cur]) + [Br(m)]
  {
    hide BlockShape;
    hide DefsOk;
    hide Strip;
    hide EndsBlock;
    hide Provided;
    var m := |s.blocks|;
    OpenBlock();
    NewBlocksShape(s, n);
    var s0 := NewBlocks(s, n);
    hide NewBlocks;
    EmitShape(s0, Br(m));
    var s1 := Emit(s0, Br(m));
    GrowsEmit(s0, Br(m));
    FrameTrans(s, s0, s1, s.cur, s.cur);
    StripSnoc(s.blocks[s.cur], Br(m));
  }

  lemma IfHeadShape(s: LState, st: A.Stmt)
    requires Shaped(s) && !Terminated(s) && st.If?
    ensures var t := IfHead(s, st);
      && Shaped(t) && Terminated(t) && Frame(s, t, s.cur) && t.syms == s.syms && t.loop == s.loop
      && (forall b :: |s.blocks| <= b < |t.blocks| ==> t.blocks[b] == [])
  {
    hide Frame;
    hide DefinedBefore;
    hide EndsBlock;
    hide BlockShape;
    hide DefsOk;
    var n := if st.elseB.Some? then 3 else 2;
    ExprShape(s, st.cond);
    var (s1, c) := LowerExpr(s, st.cond);
    hide LowerExpr;
    GrowsExpr(s, s1);
    NewBlocksShape(s1, n);
    var s2 := NewBlocks(s1, n);
    hide NewBlocks;
    hide Provided;
    var i := CondBr(c, |s.blocks|, |s.blocks| + 1);
    assert Operands(i) == [c] && Targets(i) == [|s.blocks|, |s.blocks| + 1];
    EmitLast(s2, i);
    var t := Emit(s2, i);
    FrameTrans(s1, s2, t, s.cur, s.cur);
    FrameTrans(s, s1, t, s.cur, s.cur);
  }

  // ----- Statements -----

  /** An expression followed by an instruction that consumes its value. */
  lemma ExprThen(s: LState, e: A.Expr, i: Inst)
    requires Shaped(s) && !Terminated(s) && Dst(i).None? && Targets(i) == []
    requires Operands(i) == [LowerExpr(s, e).1]
    ensures var t := Emit(LowerExpr(s, e).0, i); StmtOk(s, t) && (IsTerminator(i) <==> Terminated(t))
  {
    hide BlockShape;
    hide DefsOk;
    ExprShape(s, e);
    var s1 := LowerExpr(s, e).0;
    hide LowerExpr;
    EmitLast(s1, i);
    GrowsExpr(s, s1);
    GrowsTrans(s, s1, Emit(s1, i));
  }

  lemma {:induction false} PrintsShape(s: LState, es: seq<A.Expr>)
    requires Shaped(s) && !Terminated(s)
    ensures StmtOk(s, LowerPrints(s, es)) && !Terminated(LowerPrints(s, es))
    decreases |es|
  {
    hide BlockShape;
    hide DefsOk;
    if es != [] {
      var (s1, v) := LowerExpr(s, es[0]);
      hide LowerExpr;
      ExprThen(s, es[0], Print(v));
      PrintsShape(Emit(s1, Print(v)), es[1..]);
      GrowsTrans(s, Emit(s1, Print(v)), LowerPrints(s, es));
    }
  }

  lemma LetShape(s: LState, x: string, init: Option<A.Expr>)
    requires Shaped(s) && !Terminated(s)
    ensures var t := LowerStmt(s, A.Let(x, init)); StmtOk(s, t) && !Terminated(t)
  {
    hide BlockShape;
    hide DefsOk;
    hide Frame;
    var s1 := Declare(s, x);
    DeclareShape(s, x);
    hide LowerExpr;
    hide Declare;
    if init.Some? {
      var (s2, v) := LowerExpr(s1, init.value);
      ExprThen(s1, init.value, Store(v, SlotName(x)));
      GrowsTrans(s, s1, Emit(s2, Store(v, SlotName(x))));
    }
  }

  /** One arm of a branch or loop: enter block `b`, lower, and leave to `target` unless already gone. */
  function Arm(s: LState, b: nat, st: A.Stmt, target: nat): (r: LState)
    requires s.Ok() && b < |s.blocks|
    ensures r.Ok()
  { EmitUnlessEnded(LowerStmt(MoveTo(s, b), st), Br(target)) }

  /** The step block of a `for`. */
  function StepArm(s: LState, st: A.Stmt, b: nat, target: nat): (r: LState)
    requires s.Ok() && st.For? && b < |s.blocks|
    ensures r.Ok()
  {
    var s1 := MoveTo(s, b);
    EmitUnlessEnded(if st.step.None? then s1 else LowerStmt(s1, st.step.value), Br(target))
  }

  /** An arm ends its block and every block it makes. */
  ghost predicate ArmOk(s: LState, t: LState, b: nat) {
    && Shaped(t) && Frame(s, t, b) && t.loop == s.loop && b < |t.blocks| && EndsBlock(t.blocks[b])
    && (forall k :: |s.blocks| <= k < |t.blocks| ==> EndsBlock(t.blocks[k]))
  }

  lemma EndArm(s: LState, u: LState, b: nat, target: nat)
    requires s.Ok() && b < |s.blocks| && StmtOk(MoveTo(s, b), u) && target < |s.blocks|
    ensures ArmOk(s, EmitUnlessEnded(u, Br(target)), b)
  {
    hide BlockShape;
    hide DefsOk;
    hide Strip;
    var m, t := MoveTo(s, b), EmitUnlessEnded(u, Br(target));
    if !Terminated(u) {
      EmitLast(u, Br(target));
      GrowsTrans(m, u, t);
    }
  }

  lemma JumpShape(s: LState, st: A.Stmt)
    requires Shaped(s) && !Terminated(s) && (st.Break? || st.Continue? || st.Return?)
    ensures StmtOk(s, LowerStmt(s, st))
  {
    hide BlockShape;
    hide DefsOk;
    hide Strip;
    hide LowerExpr;
    hide Frame;
    match st
    case Break => if s.loop.Some? { EmitLast(s, Br(s.loop.value.exitBlock)); } else { GrowsRefl(s); }
    case Continue => if s.loop.Some? { EmitLast(s, Br(s.loop.value.stepBlock)); } else { GrowsRefl(s); }
    case Return(None) => EmitLast(s, Ret(None));
    case Return(Some(e)) => ExprThen(s, e, Ret(Some(LowerExpr(s, e).1)));
  }

  lemma GrowsRefl(s: LState)
    requires Shaped(s)
    ensures Grows(s, s)
  {}

  lemma {:induction false} StmtShape(s: LState, st: A.Stmt)
    requires Shaped(s) && A.WellShaped(st)
    ensures StmtOk(s, LowerStmt(s, st))
    ensures A.Simple(st) && !Terminated(s) ==> !Terminated(LowerStmt(s, st))
    decreases st, 2
  {
    hide BlockShape;
    hide DefsOk;
    hide EndsBlock;
    hide StmtOk;
    hide LowerExpr;
    if Terminated(s) {
      StaysOk(s);
    } else {
      match st
      case Block(ss) => StmtsShape(s, ss);
      case Let(x, init) => LetShape(s, x, init);
      case Assign(x, e) =>
        if x in s.syms { ExprThen(s, e, Store(LowerExpr(s, e).1, SlotName(x))); } else { StaysOk(s); }
      case ExprStmt(e) => ExprStmtShape(s, e);
      case PrintStmt(es) => PrintsShape(s, es);
      case If(_, _, _) => IfShape(s, st);
      case While(_, _) => WhileShape(s, st);
      case For(start, _, _, _) =>
        if start.Some? { StmtShape(s, start.value); } else { StaysOk(s); }
        var s1 := if start.None? then s else LowerStmt(s, start.value);
        StmtOkShaped(s, s1);
        ForShape(s1, st);
        StmtOkTrans(s, s1, LowerFor(s1, st));
      case Break => JumpShape(s, st);
      case Continue => JumpShape(s, st);
      case Return(_) => JumpShape(s, st);
    }
  }

  lemma StaysOk(s: LState)
    requires Shaped(s)
    ensures StmtOk(s, s)
  { GrowsRefl(s); }

  lemma StmtOkShaped(s: LState, t: LState)
    requires StmtOk(s, t)
    ensures Shaped(t)
  {}

  lemma StmtOkTrans(a: LState, b: LState, c: LState)
    requires StmtOk(a, b) && StmtOk(b, c)
    ensures StmtOk(a, c)
  {
    hide Shaped;
    GrowsTrans(a, b, c);
  }

  lemma ExprStmtShape(s: LState, e: A.Expr)
    requires Shaped(s) && !Terminated(s)
    ensures StmtOk(s, LowerExpr(s, e).0) && !Terminated(LowerExpr(s, e).0)
  {
    hide BlockShape;
    hide DefsOk;
    ExprShape(s, e);
    GrowsExpr(s, LowerExpr(s, e).0);
  }

  lemma {:induction false} StmtsShape(s: LState, ss: seq<A.Stmt>)
    requires Shaped(s) && forall i :: 0 <= i < |ss| ==> A.WellShaped(ss[i])
    ensures StmtOk(s, LowerStmts(s, ss))
    decreases ss, 0
  {
    hide BlockShape;
    hide DefsOk;
    hide Strip;
    if ss != [] && !Terminated(s) {
      StmtShape(s, ss[0]);
      StmtsShape(LowerStmt(s, ss[0]), ss[1..]);
      GrowsTrans(s, LowerStmt(s, ss[0]), LowerStmts(s, ss));
    }
  }

  lemma {:induction false} ArmShape(s: LState, b: nat, st: A.Stmt, target: nat)
    requires Shaped(s) && b < |s.blocks| && target < |s.blocks| && A.WellShaped(st)
    ensures ArmOk(s, Arm(s, b, st, target), b)
    decreases st, 3
  {
    hide BlockShape;
    hide DefsOk;
    hide LowerStmt;
    StmtShape(MoveTo(s, b), st);
    EndArm(s, LowerStmt(MoveTo(s, b), st), b, target);
  }

  lemma {:induction false} StepShape(s: LState, st: A.Stmt, b: nat, target: nat)
    requires Shaped(s) && b < |s.blocks| && target < |s.blocks| && st.For? && A.WellShaped(st)
    ensures ArmOk(s, StepArm(s, st, b, target), b)
    decreases st, 0
  {
    hide BlockShape;
    hide DefsOk;
    hide LowerStmt;
    var s1 := MoveTo(s, b);
    if st.step.Some? { StmtShape(s1, st.step.value); }
    EndArm(s, if st.step.None? then s1 else LowerStmt(s1, st.step.value), b, target);
  }

  /** Control meets again at the top of block `b`, everything else made on the way having ended. */
  lemma Rejoin(s: LState, u: LState, b: nat)
    requires Shaped(s) && Shaped(u) && Frame(s, u, s.cur) && |s.blocks| <= b < |u.blocks| && EndsBlock(u.blocks[s.cur])
    requires forall k :: |s.blocks| <= k < |u.blocks| && k != b ==> EndsBlock(u.blocks[k])
    ensures StmtOk(s, MoveTo(u.(loop := s.loop), b))
  {
    hide BlockShape;
    hide DefsOk;
    hide Strip;
    hide EndsBlock;
  }

  /** The then arm done, only the else block (if any) and the merge block are still open. */
  lemma {:induction false} IfTail(s: LState, u: LState, st: A.Stmt, elseB: nat, mergeB: nat)
    requires Shaped(s) && Shaped(u) && Frame(s, u, s.cur) && u.loop == s.loop && EndsBlock(u.blocks[s.cur])
    requires st.If? && A.WellShaped(st) && |s.blocks| <= elseB <= mergeB < |u.blocks|
      && (st.elseB.Some? ==> elseB < mergeB)
    requires forall k :: |s.blocks| <= k < |u.blocks| && k != mergeB && k != elseB ==> EndsBlock(u.blocks[k])
    requires st.elseB.None? ==> elseB == mergeB
    ensures StmtOk(s, MoveTo(if st.elseB.None? then u else Arm(u, elseB, st.elseB.value, mergeB), mergeB))
    decreases st, 0
  {
    hide EndsBlock;
    hide BlockShape;
    hide DefsOk;
    hide Strip;
    if st.elseB.None? {
      Rejoin(s, u, mergeB);
      assert u.(loop := s.loop) == u;
    } else {
      ArmShape(u, elseB, st.elseB.value, mergeB);
      var t := Arm(u, elseB, st.elseB.value, mergeB);
      hide Arm;
      FrameTrans(s, u, t, s.cur, elseB);
      Rejoin(s, t, mergeB);
      assert t.(loop := s.loop) == t;
    }
  }

  lemma {:induction false} IfShape(s: LState, st: A.Stmt)
    requires Shaped(s) && !Terminated(s) && st.If? && A.WellShaped(st)
    ensures StmtOk(s, LowerIf(s, st))
    decreases st, 1
  {
    hide EndsBlock;
    hide BlockShape;
    hide DefsOk;
    hide Strip;
    hide IfHead;
    hide Arm;
    hide LowerIf;
    var n := |s.blocks|;
    var mergeB := n + (if st.elseB.Some? then 2 else 1);
    var h := IfHead(s, st);
    IfHeadShape(s, st);
    ArmShape(h, n, st.thenB, mergeB);
    var u := Arm(h, n, st.thenB, mergeB);
    FrameTrans(s, h, u, s.cur, n);
    IfTail(s, u, st, n + 1, mergeB);
    IfArms(s, st);
  }

  lemma IfArms(s: LState, st: A.Stmt)
    requires s.Ok() && st.If?
    ensures var n := |s.blocks|;
      var mergeB := n + (if st.elseB.Some? then 2 else 1);
      var u := Arm(IfHead(s, st), n, st.thenB, mergeB);
      LowerIf(s, st) == MoveTo(if st.elseB.None? then u else Arm(u, n + 1, st.elseB.value, mergeB), mergeB)
  {
    hide IfHead;
    hide LowerStmt;
    hide EmitUnlessEnded;
  }

  lemma LoopOpened(s: LState, n: nat, guard: Option<A.Expr>, exitB: nat, stepB: nat)
    requires Shaped(s) && !Terminated(s) && n > 1
    requires |s.blocks| < exitB < |s.blocks| + n && |s.blocks| <= stepB < |s.blocks| + n
    ensures var m := |s.blocks|;
      var t := Branch(LoopHead(s, n), guard, m + 1, exitB).(loop := Some(LoopScope(stepB, exitB)));
      && Shaped(t) && Terminated(t) && Frame(s, t, s.cur) && t.syms == s.syms
      && |t.blocks| == m + n && t.cur == m && (forall b :: m < b < m + n ==> t.blocks[b] == [])
      && EndsBlock(t.blocks[s.cur])
      && Strip(s.blocks[s.cur]) + [Br(m)] == Strip(t.blocks[s.cur])
  {
    hide BlockShape;
    hide DefsOk;
    hide Strip;
    hide EndsBlock;
    hide Provided;
    var m := |s.blocks|;
    LoopHeadShape(s, n);
    var h := LoopHead(s, n);
    hide LoopHead;
    BranchShape(h, guard, m + 1, exitB);
    var t := Branch(h, guard, m + 1, exitB);
    hide Branch;
    FrameTrans(s, h, t, s.cur, m);
  }

  lemma {:induction false} WhileShape(s: LState, st: A.Stmt)
    requires Shaped(s) && !Terminated(s) && st.While? && A.WellShaped(st)
    ensures StmtOk(s, LowerWhile(s, st))
    decreases st, 1
  {
    hide EndsBlock;
    hide BlockShape;
    hide DefsOk;
    hide Strip;
    hide Branch;
    hide LoopHead;
    hide LowerStmt;
    var m := |s.blocks|;
    LoopOpened(s, 3, Some(st.cond), m + 2, m);
    var s1 := Branch(LoopHead(s, 3), Some(st.cond), m + 1, m + 2).(loop := Some(LoopScope(m, m + 2)));
    ArmShape(s1, m + 1, st.body, m);
    var s2 := Arm(s1, m + 1, st.body, m);
    FrameTrans(s, s1, s2, s.cur, m + 1);
    Rejoin(s, s2, m + 2);
    assert LowerWhile(s, st) == MoveTo(s2.(loop := s.loop), m + 2);
  }

  lemma {:induction false} ForShape(s: LState, st: A.Stmt)
    requires Shaped(s) && !Terminated(s) && st.For? && A.WellShaped(st)
    ensures StmtOk(s, LowerFor(s, st))
    decreases st, 1
  {
    hide EndsBlock;
    hide BlockShape;
    hide DefsOk;
    hide Strip;
    hide Branch;
    hide LoopHead;
    hide Arm;
    hide StepArm;
    hide LowerFor;
    var m := |s.blocks|;
    LoopOpened(s, 4, st.guard, m + 3, m + 2);
    var s1 := Branch(LoopHead(s, 4), st.guard, m + 1, m + 3).(loop := Some(LoopScope(m + 2, m + 3)));
    ArmShape(s1, m + 1, st.body, m + 2);
    var s2 := Arm(s1, m + 1, st.body, m + 2);
    FrameTrans(s, s1, s2, s.cur, m + 1);
    StepShape(s2, st, m + 2, m);
    var s3 := StepArm(s2, st, m + 2, m);
    FrameTrans(s, s2, s3, s.cur, m + 2);
    Rejoin(s, s3, m + 3);
    ForArms(s, st);
  }

  lemma ForArms(s: LState, st: A.Stmt)
    requires s.Ok() && st.For?
    ensures var m := |s.blocks|;
      var s1 := Branch(LoopHead(s, 4), st.guard, m + 1, m + 3).(loop := Some(LoopScope(m + 2, m + 3)));
      LowerFor(s, st) == MoveTo(StepArm(Arm(s1, m + 1, st.body, m + 2), st, m + 2, m).(loop := s.loop), m + 3)
  {
    hide Branch;
    hide LoopHead;
    hide LowerStmt;
    hide EmitUnlessEnded;
  }

  // ----- Whole functions -----

  ghost predicate EntryOnly(s: LState) {
    Shaped(s) && !Terminated(s) && |s.blocks| == 1 && s.loop == None && s.cur == 0
  }

  lemma ParamShape(s: LState, x: string, p: nat)
    requires EntryOnly(s)
    ensures EntryOnly(Emit(Declare(s, x), Store(Param(p), SlotName(x))))
  {
    hide BlockShape;
    hide DefsOk;
    hide Grows;
    hide EndsBlock;
    DeclareShape(s, x);
    var s1 := Declare(s, x);
    EmitLast(s1, Store(Param(p), SlotName(x)));
  }

  lemma {:induction false} ParamsShape(params: seq<string>, n: nat)
    requires n <= |params|
    ensures EntryOnly(LowerParams(params, n))
  {
    if n > 0 {
      hide EntryOnly;
      ParamsShape(params, n - 1);
      ParamShape(LowerParams(params, n - 1), params[n-1], n - 1);
    }
  }

  lemma BodyShape(f: A.Function)
    requires A.WellShaped(f.body)
    ensures var s := LowerBody(f);
      Shaped(s) && forall b :: 0 <= b < |s.blocks| ==> EndsBlock(s.blocks[b])
  {
    hide DefinedBefore;
    hide EndsBlock;
    hide BlockShape;
    hide DefsOk;
    hide Strip;
    ParamsShape(f.params, |f.params|);
    var s0 := LowerParams(f.params, |f.params|);
    hide LowerParams;
    StmtShape(s0, f.body);
    var s := LowerStmt(s0, f.body);
    hide LowerStmt;
    if !Terminated(s) {
      if f.isVoid { EmitLast(s, Ret(None)); }
      else {
        DefExpr(s, Const(s.nextReg, ConstInt(0)));
        EmitLast(EmitDef(s, Const(s.nextReg, ConstInt(0))), Ret(Some(Reg(s.nextReg))));
      }
    }
  }

  lemma NumberedVerified(s: LState)
    requires Shaped(s) && forall b :: 0 <= b < |s.blocks| ==> EndsBlock(s.blocks[b])
    ensures Verified(Numbered(s.blocks))
  {
    hide DefsOk;
    hide LocalUses;
    var blocks := Numbered(s.blocks);
    forall i | 0 <= i < |blocks| ensures BlockOk(blocks[i]) {
      assert BlockShape(s.blocks[i], |s.blocks|) && EndsBlock(s.blocks[i]);
    }
    forall i, k, t | 0 <= i < |blocks| && 0 <= k < |blocks[i].insts| && t in Targets(blocks[i].insts[k])
      ensures HasBlock(blocks, t)
    { assert BlockShape(s.blocks[i], |s.blocks|); assert blocks[t].id == t; }
  }

  /** A lowered function satisfies the structural checks of the verifier and has the form the optimizer requires: the
      entry comes first, every block ends in its only terminator, branch targets exist, and every register has one
      definition, used later in the same block. */
  lemma LoweredIsWellFormed(f: A.Function)
    requires A.WellShaped(f.body)
    ensures var s := LowerBody(f);
      WellFormed(LowerFunction(f), s.nextReg) && Cfg.IdsBelow(LowerFunction(f), |s.blocks|)
        && LowerFunction(f)[0].id == 0
  {
    var s := LowerBody(f);
    var blocks := LowerFunction(f);
    BodyShape(f);
    hide LowerBody;
    NumberedVerified(s);
    hide Verified;
    forall i | 0 <= i < |blocks| ensures LocalUses(blocks[i].insts) { assert BlockShape(s.blocks[i], |s.blocks|); }
    hide LocalUses;
    assert forall i, k, r: nat :: DefinedAt(blocks, i, k, r) ==> DefAt(s.blocks, i, k, r);
  }
}
