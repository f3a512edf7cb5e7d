// Lowering of structured statements to basic blocks (src/ir/ir_lower.c, src/ir/ir.c:414-483, 558-746).

module Lowering {
  import opened Options
  import opened Ir
  import A = Ast

  /** Where `continue` and `break` of the enclosing loop go (`LoopScope`). */
  datatype LoopScope = LoopScope(stepBlock: nat, exitBlock: nat)

  /** The lowering context: the blocks made so far (a block's number is its position), the block instructions go to, the
      names with a stack slot, and the enclosing loop. */
  datatype LState = LState(blocks: seq<seq<Inst>>, cur: nat, syms: seq<string>, nextReg: nat, loop: Option<LoopScope>)
  {
    predicate Ok() { blocks != [] && cur < |blocks| }
  }

  const SLOT_BUFFER := 128

  /** Slot names are built in a buffer of 128 characters, terminator included. */
  function SlotName(x: string): string {
    var full := x + ".addr";
    if |full| < SLOT_BUFFER then full else full[..SLOT_BUFFER-1]
  }

  predicate EndsBlock(insts: seq<Inst>) { insts != [] && IsTerminator(insts[|insts|-1]) }

  predicate Terminated(s: LState)
    requires s.Ok()
  { EndsBlock(s.blocks[s.cur]) }

  function Emit(s: LState, i: Inst): (r: LState)
    requires s.Ok()
    ensures r.Ok()
  { s.(blocks := s.blocks[s.cur := s.blocks[s.cur] + [i]]) }

  /** An instruction that defines the next register. */
  function EmitDef(s: LState, i: Inst): (r: LState)
    requires s.Ok()
    ensures r.Ok()
  { Emit(s, i).(nextReg := s.nextReg + 1) }

  /** Adds a stack slot to a block, before its terminator when it already has one. */
  function WithAlloca(insts: seq<Inst>, slot: string): seq<Inst> {
    if EndsBlock(insts) then insts[..|insts|-1] + [Alloca(slot), insts[|insts|-1]] else insts + [Alloca(slot)]
  }

  /** Slots live in the entry block, wherever the declaration stands. */
  function Declare(s: LState, x: string): (r: LState)
    requires s.Ok()
    ensures r.Ok()
  { s.(blocks := s.blocks[0 := WithAlloca(s.blocks[0], SlotName(x))], syms := [x] + s.syms) }

  function NewBlock(s: LState): (r: LState)
    requires s.Ok()
    ensures r.Ok()
  { s.(blocks := s.blocks + [[]]) }

  function NewBlocks(s: LState, n: nat): (r: LState)
    requires s.Ok()
    ensures r.Ok() && |r.blocks| == |s.blocks| + n && r.cur == s.cur
  { if n == 0 then s else NewBlock(NewBlocks(s, n - 1)) }

  function MoveTo(s: LState, b: nat): (r: LState)
    requires s.Ok() && b < |s.blocks|
    ensures r.Ok()
  { s.(cur := b) }

  function EmitUnlessEnded(s: LState, i: Inst): (r: LState)
    requires s.Ok()
    ensures r.Ok()
  { if Terminated(s) then s else Emit(s, i) }

  function LowerExpr(s: LState, e: A.Expr): (r: (LState, Value))
    requires s.Ok()
    ensures r.0.Ok() && r.0.cur == s.cur && |r.0.blocks| == |s.blocks|
    decreases e, 1
  {
    match e
    case IntLit(i) => (EmitDef(s, Const(s.nextReg, ConstInt(i))), Reg(s.nextReg))
    case BoolLit(b) => (EmitDef(s, Const(s.nextReg, ConstBool(b))), Reg(s.nextReg))
    case Ident(x) =>
      if x in s.syms then (EmitDef(s, Load(s.nextReg, SlotName(x))), Reg(s.nextReg))
      else (EmitDef(s, Const(s.nextReg, ConstInt(0))), Reg(s.nextReg))
    case Binary(op, l, r) =>
      var (s1, a) := LowerExpr(s, l);
      var (s2, b) := LowerExpr(s1, r);
      (EmitDef(s2, Bin(op, s2.nextReg, a, b)), Reg(s2.nextReg))
    case Unary(op, x) =>
      var (s1, a) := LowerExpr(s, x);
      (EmitDef(s1, Un(op, s1.nextReg, a)), Reg(s1.nextReg))
    case Invoke(f, args) =>
      var (s1, vs) := LowerArgs(s, args);
      (EmitDef(s1, Call(Some(s1.nextReg), f, vs)), Reg(s1.nextReg))
  }

  function LowerArgs(s: LState, args: seq<A.Expr>): (r: (LState, seq<Value>))
    requires s.Ok()
    ensures r.0.Ok() && r.0.cur == s.cur && |r.0.blocks| == |s.blocks|
    decreases args, 0
  {
    if args == [] then (s, [])
    else
      var (s1, v) := LowerExpr(s, args[0]);
      var (s2, vs) := LowerArgs(s1, args[1..]);
      (s2, [v] + vs)
  }

  function LowerPrints(s: LState, es: seq<A.Expr>): (r: LState)
    requires s.Ok()
    ensures r.Ok() && |r.blocks| >= |s.blocks|
    decreases |es|
  {
    if es == [] then s
    else
      var (s1, v) := LowerExpr(s, es[0]);
      LowerPrints(Emit(s1, Print(v)), es[1..])
  }

  /** Nothing is emitted once the current block has ended. */
  function LowerStmt(s: LState, st: A.Stmt): (r: LState)
    requires s.Ok()
    ensures r.Ok() && |r.blocks| >= |s.blocks|
    decreases st, 1
  {
    if Terminated(s) then s
    else match st
      case Block(ss) => LowerStmts(s, ss)
      case Let(x, init) =>
        var s1 := Declare(s, x);
        if init.None? then s1
        else var (s2, v) := LowerExpr(s1, init.value); Emit(s2, Store(v, SlotName(x)))
      case Assign(x, e) =>
        if x !in s.syms then s
        else var (s1, v) := LowerExpr(s, e); Emit(s1, Store(v, SlotName(x)))
      case ExprStmt(e) => LowerExpr(s, e).0
      case PrintStmt(es) => LowerPrints(s, es)
      case If(c, a, b) => LowerIf(s, st)
      case While(c, b) => LowerWhile(s, st)
      case For(start, _, _, _) => LowerFor(if start.None? then s else LowerStmt(s, start.value), st)
      case Break => if s.loop.None? then s else Emit(s, Br(s.loop.value.exitBlock))
      case Continue => if s.loop.None? then s else Emit(s, Br(s.loop.value.stepBlock))
      case Return(None) => Emit(s, Ret(None))
      case Return(Some(e)) => var (s1, v) := LowerExpr(s, e); Emit(s1, Ret(Some(v)))
  }

  function LowerStmts(s: LState, ss: seq<A.Stmt>): (r: LState)
    requires s.Ok()
    ensures r.Ok() && |r.blocks| >= |s.blocks|
    decreases ss, 0
  { if ss == [] || Terminated(s) then s else LowerStmts(LowerStmt(s, ss[0]), ss[1..]) }

  /** The condition, then the branch out of the current block; a missing condition is true. */
  function Branch(s: LState, guard: Option<A.Expr>, ifTrue: nat, ifFalse: nat): (r: LState)
    requires s.Ok()
    ensures r.Ok() && r.cur == s.cur && |r.blocks| == |s.blocks|
  {
    var (s1, c) := if guard.None? then (s, ConstBool(true)) else LowerExpr(s, guard.value);
    Emit(s1, CondBr(c, ifTrue, ifFalse))
  }

  /** Makes the `n` blocks of a loop and enters the first. */
  function LoopHead(s: LState, n: nat): (r: LState)
    requires s.Ok() && n > 0
    ensures r.Ok() && r.cur == |s.blocks| && |r.blocks| == |s.blocks| + n
  { MoveTo(Emit(NewBlocks(s, n), Br(|s.blocks|)), |s.blocks|) }

  /** Condition and fresh blocks of an `if`, up to its branch; the blocks are then, else (if any) and merge. */
  function IfHead(s: LState, st: A.Stmt): (r: LState)
    requires s.Ok() && st.If?
    ensures r.Ok() && r.cur == s.cur && |r.blocks| == |s.blocks| + (if st.elseB.Some? then 3 else 2)
  {
    var (s1, c) := LowerExpr(s, st.cond);
    var n := |s.blocks|;
    Emit(NewBlocks(s1, if st.elseB.Some? then 3 else 2), CondBr(c, n, n + 1))
  }

  function LowerIf(s: LState, st: A.Stmt): (r: LState)
    requires s.Ok() && st.If?
    ensures r.Ok() && |r.blocks| >= |s.blocks|
    decreases st, 0
  {
    var thenB, mergeB := |s.blocks|, |s.blocks| + (if st.elseB.Some? then 2 else 1);
    var s1 := EmitUnlessEnded(LowerStmt(MoveTo(IfHead(s, st), thenB), st.thenB), Br(mergeB));
    var s2 := if st.elseB.None? then s1
              else EmitUnlessEnded(LowerStmt(MoveTo(s1, thenB + 1), st.elseB.value), Br(mergeB));
    MoveTo(s2, mergeB)
  }

  /** The blocks of a `while` are condition, body and end; `continue` goes back to the condition. */
  function LowerWhile(s: LState, st: A.Stmt): (r: LState)
    requires s.Ok() && st.While?
    ensures r.Ok() && |r.blocks| >= |s.blocks|
    decreases st, 0
  {
    var condB := |s.blocks|;
    var s1 := Branch(LoopHead(s, 3), Some(st.cond), condB + 1, condB + 2).(loop := Some(LoopScope(condB, condB + 2)));
    var s2 := EmitUnlessEnded(LowerStmt(MoveTo(s1, condB + 1), st.body), Br(condB));
    MoveTo(s2.(loop := s.loop), condB + 2)
  }

  /** The loop of a `for`, its start statement already lowered: condition, body, step and end. */
  function LowerFor(s: LState, st: A.Stmt): (r: LState)
    requires s.Ok() && st.For?
    ensures r.Ok() && |r.blocks| >= |s.blocks|
    decreases st, 0
  {
    var condB := |s.blocks|;
    var s1 := Branch(LoopHead(s, 4), st.guard, condB + 1, condB + 3).(loop := Some(LoopScope(condB + 2, condB + 3)));
    var s2 := EmitUnlessEnded(LowerStmt(MoveTo(s1, condB + 1), st.body), Br(condB + 2));
    var s3 := MoveTo(s2, condB + 2);
    var s4 := EmitUnlessEnded(if st.step.None? then s3 else LowerStmt(s3, st.step.value), Br(condB));
    MoveTo(s4.(loop := s.loop), condB + 3)
  }

  const EMPTY := LState([[]], 0, [], 0, None)

  /** One slot per parameter, filled with the incoming argument. */
  function LowerParams(params: seq<string>, n: nat): (r: LState)
    requires n <= |params|
    ensures r.Ok()
  {
    if n == 0 then EMPTY
    else
      var s := Declare(LowerParams(params, n - 1), params[n-1]);
      Emit(s, Store(Param(n - 1), SlotName(params[n-1])))
  }

  function LowerBody(f: A.Function): (r: LState)
    ensures r.Ok()
  {
    var s := LowerStmt(LowerParams(f.params, |f.params|), f.body);
    if Terminated(s) then s
    else if f.isVoid then Emit(s, Ret(None))
    else Emit(EmitDef(s, Const(s.nextReg, ConstInt(0))), Ret(Some(Reg(s.nextReg))))
  }

  function Numbered(blocks: seq<seq<Inst>>): (r: seq<Block>)
    ensures |r| == |blocks| && forall i :: 0 <= i < |r| ==> r[i] == Block(i, blocks[i])
  { seq(|blocks|, i requires 0 <= i < |blocks| => Block(i, blocks[i])) }

  /** `lower_function`. */
  function LowerFunction(f: A.Function): seq<Block> { Numbered(LowerBody(f).blocks) }
}
