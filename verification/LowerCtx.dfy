module LowerContext {
  // The lowering context that the recursion of src/ir/ir_lower.c updates, and the whole path from a function's
  // syntax tree to optimized blocks.

  import opened Options
  import opened Ir
  import opened Lowering
  import LoweringShape
  import opened LoweringSound
  import A = Ast
  import opened Optimizer
  import opened FinishedCode

  class LowerCtx {
    var blocks: seq<seq<Inst>>
    var cur: nat
    var syms: seq<string>
    var nextReg: nat
    var loop: Option<LoopScope>

    ghost function State(): LState
      reads this
    { LState(blocks, cur, syms, nextReg, loop) }

    constructor ()
      ensures State() == EMPTY
    { blocks, cur, syms, nextReg, loop := [[]], 0, [], 0, None; }

    predicate Ended()
      reads this
      requires State().Ok()
      ensures Ended() <==> Terminated(State())
    { EndsBlock(blocks[cur]) }

    method Append(i: Inst)
      requires State().Ok()
      modifies `blocks
      ensures State() == Emit(old(State()), i)
    { blocks := blocks[cur := blocks[cur] + [i]]; }

    method AppendDef(i: Inst) returns (v: Value)
      requires State().Ok()
      modifies `blocks, `nextReg
      ensures State() == EmitDef(old(State()), i) && v == Reg(old(nextReg))
    {
      Append(i);
      v := Reg(nextReg);
      nextReg := nextReg + 1;
    }

    method AppendUnlessEnded(i: Inst)
      requires State().Ok()
      modifies `blocks
      ensures State() == EmitUnlessEnded(old(State()), i) && |blocks| == old(|blocks|)
    { if !Ended() { Append(i); } }

    method DeclareSlot(x: string)
      requires State().Ok()
      modifies `blocks, `syms
      ensures State() == Declare(old(State()), x)
    {
      blocks := blocks[0 := WithAlloca(blocks[0], SlotName(x))];
      syms := [x] + syms;
    }

    method CreateBlock() returns (b: nat)
      requires State().Ok()
      modifies `blocks
      ensures State() == NewBlock(old(State())) && b == old(|blocks|)
    {
      b := |blocks|;
      blocks := blocks + [[]];
    }

    method Expr(e: A.Expr) returns (v: Value)
      requires State().Ok()
      modifies `blocks, `nextReg
      ensures (State(), v) == LowerExpr(old(State()), e)
      decreases e, 1
    {
      match e
      case IntLit(i) => v := AppendDef(Const(nextReg, ConstInt(i)));
      case BoolLit(b) => v := AppendDef(Const(nextReg, ConstBool(b)));
      case Ident(x) =>
        if x in syms { v := AppendDef(Load(nextReg, SlotName(x))); }
        else { v := AppendDef(Const(nextReg, ConstInt(0))); }
      case Binary(op, l, r) =>
        var a := Expr(l);
        var b := Expr(r);
        v := AppendDef(Bin(op, nextReg, a, b));
      case Unary(op, x) =>
        var a := Expr(x);
        v := AppendDef(Un(op, nextReg, a));
      case Invoke(f, args) =>
        var vs := Args(args);
        v := AppendDef(Call(Some(nextReg), f, vs));
    }

    method Args(args: seq<A.Expr>) returns (vs: seq<Value>)
      requires State().Ok()
      modifies `blocks, `nextReg
      ensures (State(), vs) == LowerArgs(old(State()), args)
      decreases args, 0
    {
      hide LowerArgs;
      hide LowerExpr;
      vs := [];
      ghost var was := State();
      assert args[0..] == args;
      for i := 0 to |args|
        invariant State().Ok()
        invariant LowerArgs(was, args).0 == LowerArgs(State(), args[i..]).0
        invariant LowerArgs(was, args).1 == vs + LowerArgs(State(), args[i..]).1
      {
        ArgsNext(State(), args, i);
        var v := Expr(args[i]);
        ghost var rest := LowerArgs(State(), args[i+1..]).1;
        assert vs + ([v] + rest) == vs + [v] + rest;
        vs := vs + [v];
      }
      assert args[|args|..] == [];
      ArgsDone(State());
      assert vs + [] == vs;
    }

    method Prints(es: seq<A.Expr>)
      requires State().Ok()
      modifies `blocks, `nextReg
      ensures State() == LowerPrints(old(State()), es)
    {
      ghost var was := State();
      for i := 0 to |es|
        invariant State().Ok() && LowerPrints(State(), es[i..]) == LowerPrints(was, es)
      {
        assert es[i..][0] == es[i] && es[i..][1..] == es[i+1..];
        var v := Expr(es[i]);
        Append(Print(v));
      }
    }

    method Stmt(st: A.Stmt)
      requires State().Ok()
      modifies this
      ensures State() == LowerStmt(old(State()), st)
      decreases st, 1
    {
      hide LowerIf;
      hide LowerWhile;
      hide LowerFor;
      hide LowerStmts;
      hide LowerPrints;
      hide LowerExpr;
      hide Declare;
      if Ended() { return; }
      match st
      case Block(ss) => Stmts(ss);
      case Let(x, init) =>
        DeclareSlot(x);
        if init.Some? {
          var v := Expr(init.value);
          Append(Store(v, SlotName(x)));
        }
      case Assign(x, e) =>
        if x in syms {
          var v := Expr(e);
          Append(Store(v, SlotName(x)));
        }
      case ExprStmt(e) => var v := Expr(e);
      case PrintStmt(es) => Prints(es);
      case If(_, _, _) => IfStmt(st);
      case While(_, _) => WhileStmt(st);
      case For(start, _, _, _) =>
        if start.Some? { Stmt(start.value); }
        ForStmt(st);
      case Break => if loop.Some? { Append(Br(loop.value.exitBlock)); }
      case Continue => if loop.Some? { Append(Br(loop.value.stepBlock)); }
      case Return(None) => Append(Ret(None));
      case Return(Some(e)) => var v := Expr(e); Append(Ret(Some(v)));
    }

    method Stmts(ss: seq<A.Stmt>)
      requires State().Ok()
      modifies this
      ensures State() == LowerStmts(old(State()), ss)
      decreases ss, 0
    {
      ghost var was := State();
      for i := 0 to |ss|
        invariant State().Ok() && LowerStmts(State(), ss[i..]) == LowerStmts(was, ss)
      {
        if Ended() { break; }
        assert ss[i..][0] == ss[i] && ss[i..][1..] == ss[i+1..];
        Stmt(ss[i]);
      }
    }

    method GuardBranch(guard: Option<A.Expr>, ifTrue: nat, ifFalse: nat)
      requires State().Ok()
      modifies `blocks, `nextReg
      ensures State() == Branch(old(State()), guard, ifTrue, ifFalse)
    {
      var c := ConstBool(true);
      if guard.Some? { c := Expr(guard.value); }
      Append(CondBr(c, ifTrue, ifFalse));
    }

    method CreateBlocks(n: nat)
      requires State().Ok()
      modifies `blocks
      ensures State() == NewBlocks(old(State()), n)
    {
      ghost var was := State();
      for i := 0 to n
        invariant State().Ok() && State() == NewBlocks(was, i)
      { var b := CreateBlock(); }
    }

    /** Lowers a statement into block `b`, which then goes on to block `next` unless it has ended already. */
    method StmtIn(b: nat, st: A.Stmt, next: nat)
      requires State().Ok() && b < |blocks|
      modifies this
      ensures State() == EmitUnlessEnded(LowerStmt(MoveTo(old(State()), b), st), Br(next))
      ensures State().Ok() && |blocks| >= old(|blocks|)
      decreases st, 2
    {
      hide EndsBlock;
      hide LowerStmt;
      hide EmitUnlessEnded;
      cur := b;
      Stmt(st);
      AppendUnlessEnded(Br(next));
    }

    method OpenIf(st: A.Stmt)
      requires State().Ok() && st.If?
      modifies `blocks, `nextReg
      ensures State() == IfHead(old(State()), st)
    {
      var thenB := |blocks|;
      var c := Expr(st.cond);
      CreateBlocks(if st.elseB.Some? then 3 else 2);
      Append(CondBr(c, thenB, thenB + 1));
    }

    method IfStmt(st: A.Stmt)
      requires State().Ok() && st.If?
      modifies this
      ensures State() == LowerIf(old(State()), st)
      decreases st, 0
    {
      hide EndsBlock;
      hide IfHead;
      hide LowerStmt;
      hide EmitUnlessEnded;
      var thenB := |blocks|;
      var mergeB := thenB + (if st.elseB.Some? then 2 else 1);
      OpenIf(st);
      StmtIn(thenB, st.thenB, mergeB);
      if st.elseB.Some? { StmtIn(thenB + 1, st.elseB.value, mergeB); }
      cur := mergeB;
    }

    method OpenLoop(n: nat) returns (condB: nat)
      requires State().Ok() && n > 0
      modifies `blocks, `cur
      ensures State() == LoopHead(old(State()), n) && condB == old(|blocks|)
    {
      condB := |blocks|;
      CreateBlocks(n);
      Append(Br(condB));
      cur := condB;
    }

    method WhileStmt(st: A.Stmt)
      requires State().Ok() && st.While?
      modifies this
      ensures State() == LowerWhile(old(State()), st)
      decreases st, 0
    {
      hide EndsBlock;
      hide LoopHead;
      hide Branch;
      hide LowerStmt;
      hide EmitUnlessEnded;
      var outer := loop;
      var condB := OpenLoop(3);
      GuardBranch(Some(st.cond), condB + 1, condB + 2);
      loop := Some(LoopScope(condB, condB + 2));
      StmtIn(condB + 1, st.body, condB);
      loop := outer;
      cur := condB + 2;
    }

    method ForStmt(st: A.Stmt)
      requires State().Ok() && st.For?
      modifies this
      ensures State() == LowerFor(old(State()), st)
      decreases st, 0
    {
      hide EndsBlock;
      hide LoopHead;
      hide Branch;
      hide LowerStmt;
      hide EmitUnlessEnded;
      var outer := loop;
      var condB := OpenLoop(4);
      GuardBranch(st.guard, condB + 1, condB + 3);
      loop := Some(LoopScope(condB + 2, condB + 3));
      StmtIn(condB + 1, st.body, condB + 2);
      cur := condB + 2;
      if st.step.Some? { Stmt(st.step.value); }
      AppendUnlessEnded(Br(condB));
      loop := outer;
      cur := condB + 3;
    }

    method Function(f: A.Function)
      requires State() == EMPTY
      modifies this
      ensures State() == LowerBody(f)
    {
      hide EndsBlock;
      hide WithAlloca;
      hide SlotName;
      hide LowerStmt;
      for p := 0 to |f.params|
        invariant State().Ok() && State() == LowerParams(f.params, p)
      {
        DeclareSlot(f.params[p]);
        Append(Store(Param(p), SlotName(f.params[p])));
      }
      Stmt(f.body);
      if !Ended() {
        if f.isVoid { Append(Ret(None)); }
        else {
          var zero := AppendDef(Const(nextReg, ConstInt(0)));
          Append(Ret(Some(zero)));
        }
      }
    }
  }

  lemma ArgsNext(s: LState, args: seq<A.Expr>, i: nat)
    requires s.Ok() && i < |args|
    ensures var (s1, v) := LowerExpr(s, args[i]); var (s2, vs) := LowerArgs(s1, args[i+1..]);
      LowerArgs(s, args[i..]) == (s2, [v] + vs)
  {
    hide LowerExpr;
    assert args[i..][0] == args[i] && args[i..][1..] == args[i+1..];
  }

  lemma ArgsDone(s: LState)
    requires s.Ok()
    ensures LowerArgs(s, []) == (s, [])
  {}

  /** Lowering and optimization together, at any level: the blocks that come out satisfy the structural checks of the
      verifier, and running them returns what the structured program returns, with the same prints and calls in the same
      order. */
  method CompileFunction(f: A.Function, optLevel: int, verifyEachPass: bool) returns (fn: IrFunction)
    requires A.WellShaped(f.body) && NamesApart(f)
    ensures fresh(fn) && fn.Valid() && (optLevel > 0 ==> Straightened(fn.blocks, fn.nextBlock))
    ensures forall env: Env, v: Option<Val>, trace: seq<Event> :: Safe(f, env) ==>
      (Ran(fn.blocks, env, v, trace) <==> Gives(f, env, v, trace))
  {
    var ctx := new LowerCtx();
    ctx.Function(f);
    fn := new IrFunction(Numbered(ctx.blocks), ctx.nextReg, |ctx.blocks|);
    LoweringShape.LoweredIsWellFormed(f);
    var ok, rounds := fn.Optimize(optLevel, verifyEachPass);
    forall env: Env, v: Option<Val>, trace: seq<Event> | Safe(f, env)
      ensures Ran(fn.blocks, env, v, trace) <==> Gives(f, env, v, trace)
    { RefinedPreservesMeaning(f, fn.blocks, env, v, trace); }
  }
}
