module DeadCode {
  // Dead code elimination (src/ir/ir_opt.c:497-567).

  import opened Options
  import opened Ir
  import opened BlockRefinement

  /** `is_instruction_side_effecting`. */
  predicate SideEffecting(i: Inst) {
    i.Call? || i.Print? || i.Store? || i.Alloca? || i.Br? || i.CondBr? || i.Ret?
  }

  predicate Dead(i: Inst, used: set<nat>) { Defs(i) != {} && Defs(i) !! used && !SideEffecting(i) }

  function UsedIn(insts: seq<Inst>): set<nat> {
    if insts == [] then {} else UsedIn(insts[..|insts|-1]) + UsedRegs(insts[|insts|-1])
  }

  function UsedInBlocks(blocks: seq<Block>): set<nat> {
    if blocks == [] then {} else UsedInBlocks(blocks[..|blocks|-1]) + UsedIn(blocks[|blocks|-1].insts)
  }

  function Sweep(insts: seq<Inst>, used: set<nat>): (r: seq<Inst>)
    ensures |r| <= |insts|
  {
    if insts == [] then []
    else Sweep(insts[..|insts|-1], used) + (if Dead(insts[|insts|-1], used) then [] else [insts[|insts|-1]])
  }

  function SweepBlocks(blocks: seq<Block>, used: set<nat>): (r: seq<Block>)
    ensures |r| == |blocks| && forall i :: 0 <= i < |r| ==> r[i] == Block(blocks[i].id, Sweep(blocks[i].insts, used))
  { seq(|blocks|, i requires 0 <= i < |blocks| => Block(blocks[i].id, Sweep(blocks[i].insts, used))) }

  /** One round of the pass: use counts are taken once, before anything is removed. */
  function Round(blocks: seq<Block>): seq<Block> { SweepBlocks(blocks, UsedInBlocks(blocks)) }

  function Size(blocks: seq<Block>): nat { if blocks == [] then 0 else |blocks[0].insts| + Size(blocks[1..]) }

  lemma {:induction false} SmallerSize(a: seq<Block>, b: seq<Block>)
    requires |a| == |b| && forall i :: 0 <= i < |a| ==> |b[i].insts| <= |a[i].insts|
    ensures Size(b) <= Size(a)
    ensures (exists i :: 0 <= i < |a| && |b[i].insts| < |a[i].insts|) ==> Size(b) < Size(a)
  {
    if a != [] {
      SmallerSize(a[1..], b[1..]);
      if i :| 0 < i < |a| && |b[i].insts| < |a[i].insts| { assert |b[1..][i-1].insts| < |a[1..][i-1].insts|; }
    }
  }

  lemma {:induction false} SweepAll(insts: seq<Inst>, used: set<nat>)
    ensures |Sweep(insts, used)| == |insts| ==> Sweep(insts, used) == insts
    ensures Sweep(insts, used) == insts <==> forall k :: 0 <= k < |insts| ==> !Dead(insts[k], used)
  {
    if insts != [] { SweepAll(insts[..|insts|-1], used); }
  }

  lemma RoundShrinks(blocks: seq<Block>)
    ensures Round(blocks) != blocks ==> Size(Round(blocks)) < Size(blocks)
  {
    var used := UsedInBlocks(blocks);
    forall i | 0 <= i < |blocks|
      ensures |Round(blocks)[i].insts| == |blocks[i].insts| ==> Round(blocks)[i] == blocks[i]
    {
      SweepAll(blocks[i].insts, used);
    }
    SmallerSize(blocks, Round(blocks));
  }

  /** The pass: rounds until one removes nothing. */
  function Eliminate(blocks: seq<Block>): (res: seq<Block>)
    ensures SameIds(blocks, res)
    decreases Size(blocks)
  {
    var next := Round(blocks);
    RoundShrinks(blocks);
    if next == blocks then blocks else Eliminate(next)
  }

  ghost predicate NothingDead(blocks: seq<Block>) {
    forall i, k :: 0 <= i < |blocks| && 0 <= k < |blocks[i].insts| ==> !Dead(blocks[i].insts[k], UsedInBlocks(blocks))
  }

  /** When the pass stops, every remaining side-effect free definition is used somewhere. */
  lemma {:induction false} EliminateIsComplete(blocks: seq<Block>)
    ensures NothingDead(Eliminate(blocks))
    decreases Size(blocks)
  {
    RoundShrinks(blocks);
    if Round(blocks) == blocks {
      forall i | 0 <= i < |blocks|
        ensures forall k :: 0 <= k < |blocks[i].insts| ==> !Dead(blocks[i].insts[k], UsedInBlocks(blocks))
      {
        assert Round(blocks)[i].insts == blocks[i].insts;
        SweepAll(blocks[i].insts, UsedInBlocks(blocks));
      }
    } else {
      EliminateIsComplete(Round(blocks));
    }
  }

  // ----- Where the survivors come from -----

  /** The original position of the `k`-th survivor. */
  function Origin(insts: seq<Inst>, used: set<nat>, k: nat): (r: nat)
    requires k < |Sweep(insts, used)|
    ensures r < |insts| && insts[r] == Sweep(insts, used)[k] && !Dead(insts[r], used)
  {
    var front := insts[..|insts|-1];
    if k < |Sweep(front, used)| then Origin(front, used, k) else |insts| - 1
  }

  lemma {:induction false} OriginMonotone(insts: seq<Inst>, used: set<nat>, j: nat, k: nat)
    requires j < k < |Sweep(insts, used)|
    ensures Origin(insts, used, j) < Origin(insts, used, k)
  {
    var front := insts[..|insts|-1];
    if k < |Sweep(front, used)| { OriginMonotone(front, used, j, k); }
  }

  lemma {:induction false} Survives(insts: seq<Inst>, used: set<nat>, n: nat) returns (k: nat)
    requires n < |insts| && !Dead(insts[n], used)
    ensures k < |Sweep(insts, used)| && Origin(insts, used, k) == n
  {
    var front := insts[..|insts|-1];
    if n < |front| { k := Survives(front, used, n); } else { k := |Sweep(front, used)|; }
  }

  lemma {:induction false} UsedInHas(insts: seq<Inst>, k: nat)
    requires k < |insts|
    ensures UsedRegs(insts[k]) <= UsedIn(insts)
  {
    if k < |insts| - 1 { UsedInHas(insts[..|insts|-1], k); }
  }

  lemma {:induction false} UsedInBlocksHas(blocks: seq<Block>, i: nat, k: nat)
    requires i < |blocks| && k < |blocks[i].insts|
    ensures UsedRegs(blocks[i].insts[k]) <= UsedInBlocks(blocks)
  {
    if i < |blocks| - 1 { UsedInBlocksHas(blocks[..|blocks|-1], i, k); } else { UsedInHas(blocks[i].insts, k); }
  }

  lemma SweepLocal(insts: seq<Inst>, used: set<nat>)
    requires LocalUses(insts) && UsedIn(insts) <= used
    ensures LocalUses(Sweep(insts, used))
  {
    var t := Sweep(insts, used);
    forall k, r | 0 <= k < |t| && r in UsedRegs(t[k]) ensures DefinedBefore(t, k, r) {
      var n := Origin(insts, used, k);
      UsedInHas(insts, n);
      assert DefinedBefore(insts, n, r);
      var j :| 0 <= j < n && j < |insts| && r in Defs(insts[j]);
      var l := Survives(insts, used, j);
      if l > k { OriginMonotone(insts, used, k, l); }
      assert r in Defs(t[l]) && l < k;
    }
  }

  lemma SweepBlockOk(b: Block, used: set<nat>)
    requires BlockOk(b)
    ensures BlockOk(Block(b.id, Sweep(b.insts, used)))
  {
    var t := Sweep(b.insts, used);
    var last := |b.insts| - 1;
    assert IsTerminator(b.insts[last]);
    var k := Survives(b.insts, used, last);
    forall j | 0 <= j < |t| ensures IsTerminator(t[j]) <==> j == |t| - 1 {
      var n := Origin(b.insts, used, j);
      if j < k { OriginMonotone(b.insts, used, j, k); } else if j > k { OriginMonotone(b.insts, used, k, j); }
      if j == |t| - 1 { assert k <= j; }
    }
  }

  lemma RoundWellFormed(blocks: seq<Block>, nextReg: nat)
    requires WellFormed(blocks, nextReg)
    ensures WellFormed(Round(blocks), nextReg)
  {
    var used := UsedInBlocks(blocks);
    var t := Round(blocks);
    forall i | 0 <= i < |t| ensures BlockOk(t[i]) && LocalUses(t[i].insts) {
      SweepBlockOk(blocks[i], used);
      UsedOfBlock(blocks, i);
      SweepLocal(blocks[i].insts, used);
    }
    forall i, k, x | 0 <= i < |t| && 0 <= k < |t[i].insts| && x in Targets(t[i].insts[k]) ensures HasBlock(t, x) {
      var n := Origin(blocks[i].insts, used, k);
      assert x in Targets(blocks[i].insts[n]) && HasBlock(blocks, x);
      var j :| 0 <= j < |blocks| && blocks[j].id == x;
      assert t[j].id == x;
    }
    forall i, k, r: nat | DefinedAt(t, i, k, r) ensures DefinedAt(blocks, i, Origin(blocks[i].insts, used, k), r) {}
    forall i, k, j, l, r: nat | DefinedAt(t, i, k, r) && DefinedAt(t, j, l, r) ensures i == j && k == l {
      assert DefinedAt(blocks, i, Origin(blocks[i].insts, used, k), r);
      assert DefinedAt(blocks, j, Origin(blocks[j].insts, used, l), r);
      if k < l { OriginMonotone(blocks[i].insts, used, k, l); }
        else if l < k { OriginMonotone(blocks[i].insts, used, l, k); }
    }
  }

  lemma UsedOfBlock(blocks: seq<Block>, i: nat)
    requires i < |blocks|
    ensures UsedIn(blocks[i].insts) <= UsedInBlocks(blocks)
  {
    if i < |blocks| - 1 { UsedOfBlock(blocks[..|blocks|-1], i); }
  }

  // ----- Behaviour -----

  /** The two states differ at most in registers nobody reads. */
  ghost predicate Agree(used: set<nat>, a: State, b: State) {
    && a.slots == b.slots && a.trace == b.trace
    && forall r :: r in used ==> (r in a.regs <==> r in b.regs) && (r in a.regs ==> a.regs[r] == b.regs[r])
  }

  ghost predicate AgreeResult(used: set<nat>, a: StepResult, b: StepResult) {
    match a
    case Next(s) => b.Next? && Agree(used, s, b.st)
    case Jump(t, s) => b.Jump? && b.target == t && Agree(used, s, b.jst)
    case Return(v, s) => b.Return? && b.v == v && Agree(used, s, b.rst)
    case Trap => b.Trap?
  }

  lemma {:induction false} EvalAllAgree(vs: seq<Value>, used: set<nat>, a: State, b: State, env: Env)
    requires Agree(used, a, b) && forall v :: v in vs && v.Reg? ==> v.id in used
    ensures EvalAll(vs, a, env) == EvalAll(vs, b, env)
  {
    if vs != [] { assert vs[0] in vs; EvalAllAgree(vs[1..], used, a, b, env); }
  }

  lemma StepAgree(i: Inst, used: set<nat>, a: State, b: State, env: Env)
    requires Agree(used, a, b) && UsedRegs(i) <= used
    ensures AgreeResult(used, Step(i, a, env), Step(i, b, env))
  {
    forall v | v in Operands(i) ensures Eval(v, a, env) == Eval(v, b, env) { assert v.Reg? ==> v.id in UsedRegs(i); }
    if i.Call? {
      forall v | v in i.args && v.Reg? ensures v.id in used { assert v.id in UsedRegs(i); }
      EvalAllAgree(i.args, used, a, b, env);
    }
  }

  /** Same as `Sweep`, peeled from the front. */
  lemma {:induction false} SweepFront(insts: seq<Inst>, used: set<nat>)
    requires insts != []
    ensures Sweep(insts, used) == (if Dead(insts[0], used) then [] else [insts[0]]) + Sweep(insts[1..], used)
  {
    if |insts| > 1 {
      var front := insts[..|insts|-1];
      SweepFront(front, used);
      assert front[1..] == insts[1..][..|insts|-2];
    }
  }

  lemma DeadStep(i: Inst, used: set<nat>, a: State, b: State, env: Env)
    requires Dead(i, used) && Agree(used, a, b) && !Step(i, a, env).Trap?
    ensures Step(i, a, env).Next? && Agree(used, Step(i, a, env).st, b)
  {}

  lemma RunCons(i: Inst, rest: seq<Inst>, st: State, env: Env)
    ensures var s := Step(i, st, env); Run([i] + rest, st, env) == if s.Next? then Run(rest, s.st, env) else s
  { assert ([i] + rest)[1..] == rest; }

  lemma {:induction false} RunAgree(insts: seq<Inst>, used: set<nat>, a: State, b: State, env: Env)
    requires Agree(used, a, b) && UsedIn(insts) <= used && !Run(insts, a, env).Trap?
    ensures AgreeResult(used, Run(insts, a, env), Run(Sweep(insts, used), b, env))
    decreases |insts|
  {
    var i, tail := insts[0], insts[1..];
    assert insts == [i] + tail;
    SweepFront(insts, used);
    UsedInHas(insts, 0);
    UsedInTail(insts);
    RunCons(i, tail, a, env);
    if Dead(i, used) {
      DeadStep(i, used, a, b, env);
      assert Sweep(insts, used) == Sweep(tail, used);
      RunAgree(tail, used, Step(i, a, env).st, b, env);
    } else {
      RunCons(i, Sweep(tail, used), b, env);
      StepAgree(i, used, a, b, env);
      if Step(i, a, env).Next? { RunAgree(tail, used, Step(i, a, env).st, Step(i, b, env).st, env); }
    }
  }

  lemma {:induction false} UsedInTail(insts: seq<Inst>)
    requires insts != []
    ensures UsedIn(insts[1..]) <= UsedIn(insts)
  {
    if |insts| > 1 {
      UsedInTail(insts[..|insts|-1]);
      assert insts[1..][..|insts|-2] == insts[..|insts|-1][1..];
    }
  }

  lemma {:induction false} FindSwept(blocks: seq<Block>, used: set<nat>, id: nat)
    requires UsedInAll(blocks, used)
    ensures FindBlock(SweepBlocks(blocks, used), id) == (match FindBlock(blocks, id)
      case None => None case Some(b) => Some(Block(b.id, Sweep(b.insts, used))))
    ensures FindBlock(blocks, id).Some? ==> UsedIn(FindBlock(blocks, id).value.insts) <= used
  {
    if blocks != [] && blocks[0].id != id {
      FindSwept(blocks[1..], used, id);
      assert SweepBlocks(blocks, used)[1..] == SweepBlocks(blocks[1..], used);
    }
  }

  ghost predicate UsedInAll(blocks: seq<Block>, used: set<nat>) {
    forall i :: 0 <= i < |blocks| ==> UsedIn(blocks[i].insts) <= used
  }

  lemma {:induction false} ExecAgree(blocks: seq<Block>, used: set<nat>, id: nat, a: State, b: State, env: Env,
      fuel: nat)
    requires UsedInAll(blocks, used) && Agree(used, a, b)
    requires !Exec(blocks, id, a, env, fuel).Stuck?
    ensures Exec(SweepBlocks(blocks, used), id, b, env, fuel) == Exec(blocks, id, a, env, fuel)
    decreases fuel
  {
    if fuel > 0 {
      FindSwept(blocks, used, id);
      var insts := FindBlock(blocks, id).value.insts;
      RunAgree(insts, used, a, b, env);
      var r := Run(insts, a, env);
      if r.Jump? { ExecAgree(blocks, used, r.target, r.jst, Run(Sweep(insts, used), b, env).jst, env, fuel - 1); }
    }
  }

  lemma RoundRefines(blocks: seq<Block>)
    ensures Refines(blocks, Round(blocks))
  {
    var used := UsedInBlocks(blocks);
    forall i | 0 <= i < |blocks| ensures UsedIn(blocks[i].insts) <= used { UsedOfBlock(blocks, i); }
    forall env: Env, fuel: nat | !Start(blocks, env, fuel).Stuck?
      ensures Start(Round(blocks), env, fuel) == Start(blocks, env, fuel)
    { ExecAgree(blocks, used, blocks[0].id, Fresh, Fresh, env, fuel); }
  }

  /** Dead code elimination keeps the form of the function and every run that did not trap; a dead division by zero may
      disappear, which is why this is a refinement and not an equality. */
  lemma {:induction false} EliminateRefines(blocks: seq<Block>, nextReg: nat)
    requires WellFormed(blocks, nextReg)
    ensures WellFormed(Eliminate(blocks), nextReg) && Refines(blocks, Eliminate(blocks))
    decreases Size(blocks)
  {
    RoundShrinks(blocks);
    if Round(blocks) != blocks {
      RoundWellFormed(blocks, nextReg);
      RoundRefines(blocks);
      EliminateRefines(Round(blocks), nextReg);
      RefinesTrans(blocks, Round(blocks), Eliminate(Round(blocks)));
    }
  }

  lemma UsedInSnoc(insts: seq<Inst>, x: Inst)
    ensures UsedIn(insts + [x]) == UsedIn(insts) + UsedRegs(x)
  { assert (insts + [x])[..|insts|] == insts; }

  lemma SweepSnoc(insts: seq<Inst>, x: Inst, used: set<nat>)
    ensures Sweep(insts + [x], used) == Sweep(insts, used) + (if Dead(x, used) then [] else [x])
  { assert (insts + [x])[..|insts|] == insts; }

  lemma UsedInBlocksSnoc(blocks: seq<Block>, b: Block)
    ensures UsedInBlocks(blocks + [b]) == UsedInBlocks(blocks) + UsedIn(b.insts)
  { assert (blocks + [b])[..|blocks|] == blocks; }

  /** One round over a one-block function that reads no register. */
  lemma RoundOfOne(insts: seq<Inst>)
    requires UsedIn(insts) == {}
    ensures Round([Block(0, insts)]) == [Block(0, Sweep(insts, {}))]
  {
    UsedInBlocksSnoc([], Block(0, insts));
    assert [] + [Block(0, insts)] == [Block(0, insts)];
    assert UsedInBlocks([Block(0, insts)]) == {};
    assert Round([Block(0, insts)])[0] == Block(0, Sweep(insts, {}));
  }

  const TRAPPING := Bin(Div, 0, ConstInt(1), ConstInt(0))

  lemma DeadDivisionRounds()
    ensures Eliminate([Block(0, [TRAPPING, Ret(None)])]) == [Block(0, [Ret(None)])]
  {
    var i, ret := TRAPPING, Ret(None);
    var f, g := [Block(0, [i, ret])], [Block(0, [ret])];
    assert Round(f) == g by {
      assert Operands(i) == [ConstInt(1), ConstInt(0)];
      assert UsedRegs(i) == {} && UsedRegs(ret) == {} && Dead(i, {});
      assert [] + [i] == [i] && [i] + [ret] == [i, ret];
      UsedInSnoc([], i); UsedInSnoc([i], ret);
      SweepSnoc([], i, {}); SweepSnoc([i], ret, {});
      assert Sweep([i], {}) == [] && Sweep([i, ret], {}) == [ret];
      RoundOfOne([i, ret]);
    }
    assert Round(g) == g by {
      assert UsedRegs(ret) == {} && [] + [ret] == [ret];
      UsedInSnoc([], ret); SweepSnoc([], ret, {});
      RoundOfOne([ret]);
    }
    EliminateFixed(g);
    EliminateOnce(f);
  }

  lemma EliminateFixed(blocks: seq<Block>)
    requires Round(blocks) == blocks
    ensures Eliminate(blocks) == blocks
  {}

  lemma EliminateOnce(blocks: seq<Block>)
    ensures Eliminate(blocks) == Eliminate(Round(blocks))
  {}

  /** The refinement is strict: this function traps, and the pass removes the trap. */
  lemma DeadDivisionDisappears(env: Env)
    ensures var f := [Block(0, [TRAPPING, Ret(None)])];
      Start(f, env, 1) == Stuck && Start(Eliminate(f), env, 1) == Done(None, [])
  {
    DeadDivisionRounds();
    var insts := [TRAPPING, Ret(None)];
    assert Step(insts[0], Fresh, env) == Trap by { assert BinVal(Div, VInt(1), VInt(0)).None?; }
    OneBlockRun(insts, env);
    OneBlockRun([Ret(None)], env);
  }

  lemma OneBlockRun(insts: seq<Inst>, env: Env)
    requires insts != [] && !Step(insts[0], Fresh, env).Next?
    ensures Start([Block(0, insts)], env, 1) == (match Step(insts[0], Fresh, env)
      case Jump(t, st) => Running(t, st.slots, st.trace)
      case Return(v, st) => Done(v, st.trace)
      case _ => Stuck)
  {
    assert FindBlock([Block(0, insts)], 0) == Some(Block(0, insts));
  }
}
