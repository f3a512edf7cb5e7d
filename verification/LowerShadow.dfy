module ShadowedNames {
  // Where lowering does not keep the block structure of names (src/ir/ir_lower.c:51-65).

  import opened Options
  import opened Ir
  import opened Lowering
  import opened LoweringSound
  import A = Ast

  /** `{ let x = a; { let y = b; } print x; }` */
  function Nested(x: string, y: string, a: int, b: int): A.Function {
    A.Function("f", [], true,
      A.Block([A.Let(x, Some(A.IntLit(a))), A.Block([A.Let(y, Some(A.IntLit(b)))]), A.PrintStmt([A.Ident(x)])]))
  }

  function Code(sx: string, sy: string, a: int, b: int): (r: seq<Inst>)
    ensures |r| == 9
  {
    [Alloca(sx), Const(0, ConstInt(a)), Store(Reg(0), sx),
     Alloca(sy), Const(1, ConstInt(b)), Store(Reg(1), sy),
     Load(2, sx), Print(Reg(2)), Ret(None)]
  }

  // ----- Its blocks -----

  lemma LetStep(s: LState, x: string, a: int)
    requires s.Ok() && |s.blocks| == 1 && s.cur == 0 && !Terminated(s)
    ensures LowerStmt(s, A.Let(x, Some(A.IntLit(a)))) ==
      s.(
        blocks := [s.blocks[0] +
          [Alloca(SlotName(x)), Const(s.nextReg, ConstInt(a)), Store(Reg(s.nextReg), SlotName(x))]],
        syms := [x] + s.syms,
        nextReg := s.nextReg + 1)
  {
    var c, slot, lit := s.blocks[0], SlotName(x), Const(s.nextReg, ConstInt(a));
    hide SlotName;
    assert Declare(s, x) == s.(blocks := [c + [Alloca(slot)]], syms := [x] + s.syms) by {
      assert s.blocks[0 := c + [Alloca(slot)]] == [c + [Alloca(slot)]];
    }
    hide Declare;
    hide EndsBlock;
    OneMore(Declare(s, x), lit);
    OneMore(EmitDef(Declare(s, x), lit), Store(Reg(s.nextReg), slot));
    hide Emit;
    assert c + [Alloca(slot)] + [lit] + [Store(Reg(s.nextReg), slot)] ==
      c + [Alloca(slot), lit, Store(Reg(s.nextReg), slot)];
  }

  lemma OneMore(s: LState, i: Inst)
    requires s.Ok() && |s.blocks| == 1 && s.cur == 0
    ensures Emit(s, i) == s.(blocks := [s.blocks[0] + [i]])
  { assert s.blocks[0 := s.blocks[0] + [i]] == [s.blocks[0] + [i]]; }

  lemma PrintStep(s: LState, x: string)
    requires s.Ok() && |s.blocks| == 1 && s.cur == 0 && !Terminated(s) && x in s.syms
    ensures LowerStmt(s, A.PrintStmt([A.Ident(x)])) ==
      s.(blocks := [s.blocks[0] + [Load(s.nextReg, SlotName(x)), Print(Reg(s.nextReg))]], nextReg := s.nextReg + 1)
  {
    hide SlotName;
    hide EndsBlock;
    var c, load, print1 := s.blocks[0], Load(s.nextReg, SlotName(x)), Print(Reg(s.nextReg));
    var (s1, v) := LowerExpr(s, A.Ident(x));
    assert [A.Ident(x)][1..] == [] && s.blocks[0 := c + [load]] == [c + [load]];
    assert s1 == s.(blocks := [c + [load]], nextReg := s.nextReg + 1) && v == Reg(s.nextReg);
    assert c + [load] + [print1] == c + [load, print1];
    assert Emit(s1, print1).blocks == [c + [load, print1]];
    assert LowerPrints(s, [A.Ident(x)]) == LowerPrints(Emit(s1, print1), []);
  }

  lemma Open(sx: string, sy: string, a: int, b: int)
    ensures !EndsBlock([]) && !EndsBlock(Code(sx, sy, a, b)[..3]) && !EndsBlock(Code(sx, sy, a, b)[..6])
  {}

  lemma Steps(x: string, y: string, a: int, b: int, s1: LState, s2: LState, s3: LState)
    requires s1 == LState([Code(SlotName(x), SlotName(y), a, b)[..3]], 0, [x], 1, None)
    requires s2 == LState([Code(SlotName(x), SlotName(y), a, b)[..6]], 0, [y, x], 2, None)
    requires s3 == LState([Code(SlotName(x), SlotName(y), a, b)[..8]], 0, [y, x], 3, None)
    ensures LowerStmt(EMPTY, A.Let(x, Some(A.IntLit(a)))) == s1
    ensures LowerStmt(s1, A.Let(y, Some(A.IntLit(b)))) == s2
    ensures LowerStmt(s2, A.PrintStmt([A.Ident(x)])) == s3
  {
    hide SlotName;
    hide LowerStmt;
    var sx, sy := SlotName(x), SlotName(y);
    var code := Code(sx, sy, a, b);
    assert [] + [Alloca(sx), Const(0, ConstInt(a)), Store(Reg(0), sx)] == code[..3];
    assert code[..3] + [Alloca(sy), Const(1, ConstInt(b)), Store(Reg(1), sy)] == code[..6];
    assert code[..6] + [Load(2, sx), Print(Reg(2))] == code[..8];
    Open(sx, sy, a, b);
    assert [x] + [] == [x] && [y] + [x] == [y, x];
    LetStep(EMPTY, x, a);
    LetStep(s1, y, b);
    PrintStep(s2, x);
  }

  lemma WholeBody(x: string, y: string, a: int, b: int, s1: LState, s2: LState, s3: LState)
    requires s1.Ok() && s2.Ok() && s3.Ok() && !Terminated(s1) && !Terminated(s2) && !Terminated(s3)
    requires LowerStmt(EMPTY, A.Let(x, Some(A.IntLit(a)))) == s1
    requires LowerStmt(s1, A.Let(y, Some(A.IntLit(b)))) == s2
    requires LowerStmt(s2, A.PrintStmt([A.Ident(x)])) == s3
    ensures LowerBody(Nested(x, y, a, b)) == Emit(s3, Ret(None))
  {
    hide EndsBlock;
    var l1, l2, p := A.Let(x, Some(A.IntLit(a))), A.Let(y, Some(A.IntLit(b))), A.PrintStmt([A.Ident(x)]);
    assert !Terminated(EMPTY) by { NotEnded(); }
    var body := Nested(x, y, a, b).body;
    assert body.stmts == [l1, A.Block([l2]), p] && body.stmts[1..] == [A.Block([l2]), p] && body.stmts[1..][1..] == [p]
      && [p][1..] == [];
    assert LowerStmt(s1, A.Block([l2])) == s2 by { assert LowerStmts(s1, [l2]) == LowerStmts(s2, [l2][1..]); }
    assert LowerStmts(EMPTY, body.stmts) == s3 by {
      assert LowerStmts(s2, [p]) == s3;
      assert LowerStmts(s1, [A.Block([l2]), p]) == s3;
    }
  }

  lemma NotEnded()
    ensures !Terminated(EMPTY)
  {}

  lemma Lowered(x: string, y: string, a: int, b: int)
    ensures LowerFunction(Nested(x, y, a, b)) == [Block(0, Code(SlotName(x), SlotName(y), a, b))]
  {
    hide SlotName;
    var code := Code(SlotName(x), SlotName(y), a, b);
    var s1 := LState([code[..3]], 0, [x], 1, None);
    var s2 := LState([code[..6]], 0, [y, x], 2, None);
    var s3 := LState([code[..8]], 0, [y, x], 3, None);
    Steps(x, y, a, b, s1, s2, s3);
    hide LowerStmt;
    WholeBody(x, y, a, b, s1, s2, s3);
    assert code[..8] + [Ret(None)] == code;
    assert LowerBody(Nested(x, y, a, b)).blocks == [code];
  }

  // ----- What they do -----

  lemma RunNext(insts: seq<Inst>, k: nat, st: State, st2: State, env: Env)
    requires k < |insts| && Step(insts[k], st, env) == Next(st2)
    ensures Run(insts[k..], st, env) == Run(insts[k+1..], st2, env)
  {}

  lemma FirstHalf(sx: string, sy: string, a: int, b: int, env: Env)
    ensures Run(Code(sx, sy, a, b), Fresh, env) == Run(Code(sx, sy, a, b)[4..],
      State(map[0 := VInt(a)], map[sx := VInt(a)], []), env)
  {
    var c := Code(sx, sy, a, b);
    var r1 := Fresh.regs[0 := VInt(a)];
    var m1 := Fresh.slots[sx := VInt(a)];
    hide Run;
    RunNext(c, 0, Fresh, Fresh, env);
    RunNext(c, 1, Fresh, State(r1, Fresh.slots, []), env);
    RunNext(c, 2, State(r1, Fresh.slots, []), State(r1, m1, []), env);
    RunNext(c, 3, State(r1, m1, []), State(r1, m1, []), env);
    assert c[0..] == c && r1 == map[0 := VInt(a)] && m1 == map[sx := VInt(a)];
  }

  lemma SecondHalf(sx: string, sy: string, a: int, b: int, env: Env, st: State) returns (end: State)
    requires st.slots == map[sx := VInt(a)] && st.trace == []
    ensures Run(Code(sx, sy, a, b)[4..], st, env) == Return(None, end)
      && end.trace == [Printed(VInt(if sx == sy then b else a))]
  {
    var c := Code(sx, sy, a, b);
    var r2 := st.regs[1 := VInt(b)];
    var m2 := st.slots[sy := VInt(b)];
    var r3 := r2[2 := VInt(if sx == sy then b else a)];
    var q2, q3 := State(r2, m2, []), State(r3, m2, []);
    end := State(r3, m2, [Printed(VInt(if sx == sy then b else a))]);
    assert Step(c[4], st, env) == Next(State(r2, st.slots, [])) && Step(c[5], State(r2, st.slots, []), env) == Next(q2);
    assert Step(c[6], q2, env) == Next(q3);
    assert Step(c[7], q3, env) == Next(end) by { assert [] + [Printed(r3[2])] == end.trace; }
    hide Run;
    hide Step;
    RunNext(c, 4, st, State(r2, st.slots, []), env);
    RunNext(c, 5, State(r2, st.slots, []), q2, env);
    RunNext(c, 6, q2, q3, env);
    RunNext(c, 7, q3, end, env);
    RunLast(c, end, env);
  }

  lemma RunLast(c: seq<Inst>, st: State, env: Env)
    requires |c| == 9 && c[8] == Ret(None)
    ensures Run(c[8..], st, env) == Return(None, st)
  {}

  lemma OneBlock(insts: seq<Inst>, env: Env, end: State, n: nat)
    requires Run(insts, Fresh, env) == Return(None, end)
    ensures if n == 0
      then Start([Block(0, insts)], env, n).Running?
      else Start([Block(0, insts)], env, n) == Done(None, end.trace)
  {}

  lemma Printing(x: string, y: string, a: int, b: int, env: Env, v: Option<Val>, trace: seq<Event>)
    ensures Ran(LowerFunction(Nested(x, y, a, b)), env, v, trace) <==>
      v == None && trace == [Printed(VInt(if SlotName(x) == SlotName(y) then b else a))]
  {
    var sx, sy := SlotName(x), SlotName(y);
    Lowered(x, y, a, b);
    hide SlotName;
    hide LowerFunction;
    hide Code;
    hide Run;
    hide Start;
    FirstHalf(sx, sy, a, b, env);
    var end := SecondHalf(sx, sy, a, b, env, State(map[0 := VInt(a)], map[sx := VInt(a)], []));
    forall n: nat ensures if n == 0 then Start([Block(0, Code(sx, sy, a, b))], env, n).Running?
      else Start([Block(0, Code(sx, sy, a, b))], env, n) == Done(None, end.trace)
    {
      OneBlock(Code(sx, sy, a, b), env, end, n);
    }
    assert Start([Block(0, Code(sx, sy, a, b))], env, 1) == Done(None, end.trace);
  }

  // ----- What it means -----

  lemma PrintMeans(x: string, a: int, env: Env)
    ensures var r: A.Store := map[x := Some(VInt(a))];
      A.ExecStmt(A.PrintStmt([A.Ident(x)]), r, [], env, 0) == A.Normal(r, [Printed(VInt(a))])
  {
    var r: A.Store := map[x := Some(VInt(a))];
    assert [A.Ident(x)][1..] == [];
    assert A.ExecPrints([A.Ident(x)], r, [], env) == A.ExecPrints([], r, [] + [Printed(VInt(a))], env);
    assert [] + [Printed(VInt(a))] == [Printed(VInt(a))];
  }

  lemma BodyMeans(x: string, y: string, a: int, b: int, env: Env)
    ensures var r0: A.Store := map[];
      A.ExecStmts(Nested(x, y, a, b).body.stmts, r0, [], env, 0) ==
        A.Normal(map[x := Some(VInt(a))], [Printed(VInt(a))])
  {
    var l1, l2, p := A.Let(x, Some(A.IntLit(a))), A.Let(y, Some(A.IntLit(b))), A.PrintStmt([A.Ident(x)]);
    var ss := Nested(x, y, a, b).body.stmts;
    assert ss == [l1, A.Block([l2]), p] && ss[1..] == [A.Block([l2]), p] && ss[1..][1..] == [p] && [p][1..] == [];
    var r0: A.Store := map[];
    var r1 := r0[x := Some(VInt(a))];
    assert A.ExecStmt(l1, r0, [], env, 0) == A.Normal(r1, []);
    InnerBlock(x, y, a, b, env);
    PrintMeans(x, a, env);
    hide A.ExecStmt;
    assert A.ExecStmts([p], r1, [], env, 0) == A.Normal(r1, [Printed(VInt(a))]);
    assert A.ExecStmts([A.Block([l2]), p], r1, [], env, 0) == A.Normal(r1, [Printed(VInt(a))]);
  }

  lemma Meaning(x: string, y: string, a: int, b: int, env: Env)
    requires env.params == []
    ensures A.ExecFunction(Nested(x, y, a, b), env, 0) == A.Returned(None, [Printed(VInt(a))])
  {
    BodyMeans(x, y, a, b, env);
    hide A.ExecStmts;
    var f := Nested(x, y, a, b);
    var r0, r1: A.Store := map[], map[x := Some(VInt(a))];
    assert A.Bind(f.params, env.params) == r0;
    assert A.ExecStmt(f.body, r0, [], env, 0) == A.Leave(A.Normal(r1, [Printed(VInt(a))]), r0);
    assert A.ExecScoped(f.body, r0, [], env, 0).Normal?;
  }

  lemma InnerBlock(x: string, y: string, a: int, b: int, env: Env)
    ensures var r: A.Store := map[x := Some(VInt(a))];
      A.ExecStmt(A.Block([A.Let(y, Some(A.IntLit(b)))]), r, [], env, 0) == A.Normal(r, [])
  {
    var r: A.Store := map[x := Some(VInt(a))];
    var l2 := A.Let(y, Some(A.IntLit(b)));
    var r2 := r[y := Some(VInt(b))];
    assert [l2][1..] == [];
    assert A.ExecStmt(l2, r, [], env, 0) == A.Normal(r2, []);
    assert A.ExecStmts([], r2, [], env, 0) == A.Normal(r2, []);
    if y == x {
      assert r2[x := Some(VInt(a))] == r;
      assert A.ExecStmts([l2], r, [], env, 0) == A.Normal(r, []);
      assert A.Restrict(r, r) == r;
    } else {
      assert A.ExecStmts([l2], r, [], env, 0) == A.Normal(r2, []);
      assert A.Restrict(r2, r) == r;
    }
  }

  lemma Gave(x: string, y: string, a: int, b: int, env: Env)
    requires env.params == []
    ensures Gives(Nested(x, y, a, b), env, None, [Printed(VInt(a))])
  {
    Meaning(x, y, a, b, env);
    hide A.ExecFunction;
  }

  /** A declaration in an inner block takes over the slot of an outer name, read afterwards, of the same slot name: the
      source prints the outer value, its blocks the inner one. They agree exactly when the slots differ or the values do
      not. */
  lemma ShadowingIsLost(x: string, y: string, a: int, b: int, env: Env)
    requires env.params == []
    ensures Gives(Nested(x, y, a, b), env, None, [Printed(VInt(a))])
    ensures Ran(LowerFunction(Nested(x, y, a, b)), env, None, [Printed(VInt(a))]) <==>
      SlotName(x) != SlotName(y) || a == b
    ensures SlotName(x) == SlotName(y) ==> Ran(LowerFunction(Nested(x, y, a, b)), env, None, [Printed(VInt(b))])
  {
    hide *;
    Gave(x, y, a, b, env);
    Printing(x, y, a, b, env, None, [Printed(VInt(a))]);
    Printing(x, y, a, b, env, None, [Printed(VInt(b))]);
  }

  /** The theorem that lowering preserves meaning speaks of such a program exactly when the slots differ. */
  lemma NestedApart(x: string, y: string, a: int, b: int)
    ensures NamesApart(Nested(x, y, a, b)) <==> SlotName(x) != SlotName(y)
  {
    hide SlotName;
    var l1, l2, p := A.Let(x, Some(A.IntLit(a))), A.Let(y, Some(A.IntLit(b))), A.PrintStmt([A.Ident(x)]);
    var ss := Nested(x, y, a, b).body.stmts;
    assert ss == [l1, A.Block([l2]), p] && ss[1..] == [A.Block([l2]), p] && ss[1..][1..] == [p] && [p][1..] == []
      && [l2][1..] == [];
    var none: set<string> := {};
    assert LoweringSound.Elems([]) == none;
    assert NoClash(l2, {x}) <==> SlotName(x) != SlotName(y) by { assert x in {x}; }
    assert NoClash(A.Block([l2]), {x}) <==> NoClash(l2, {x}) by { assert NoClashes([], After({x}, l2)); }
    assert NoClashes([p], {x}) by { assert NoClashes([], {x}); }
    assert NoClash(l1, none) && After(none, l1) == {x};
    assert NoClashes(ss, none) <==> NoClash(A.Block([l2]), {x});
  }
}
