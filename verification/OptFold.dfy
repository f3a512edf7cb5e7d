module BlockRefinement {
  // Instruction-by-instruction rewriting: constant folding and constant propagation (src/ir/ir_opt.c:79-333).

  import opened Options
  import opened Ir

  /** `b` does what `a` does from every state in which `a` does not trap. */
  ghost predicate RunRefines(a: seq<Inst>, b: seq<Inst>) {
    forall st: State, env: Env :: !Run(a, st, env).Trap? ==> Run(b, st, env) == Run(a, st, env)
  }

  ghost predicate InstRefines(a: Inst, b: Inst) {
    forall st: State, env: Env :: !Step(a, st, env).Trap? ==> Step(b, st, env) == Step(a, st, env)
  }

  ghost predicate BlocksRefine(a: seq<Block>, b: seq<Block>) {
    && |a| == |b|
    && forall i :: 0 <= i < |a| ==> a[i].id == b[i].id && RunRefines(a[i].insts, b[i].insts)
  }

  lemma {:induction false} PointwiseRun(a: seq<Inst>, b: seq<Inst>, st: State, env: Env)
    requires |a| == |b| && forall k :: 0 <= k < |a| ==> InstRefines(a[k], b[k])
    requires !Run(a, st, env).Trap?
    ensures Run(b, st, env) == Run(a, st, env)
    decreases |a|
  {
    assert InstRefines(a[0], b[0]);
    match Step(a[0], st, env)
    case Next(st') =>
      forall k | 0 <= k < |a| - 1 ensures InstRefines(a[1..][k], b[1..][k]) { assert InstRefines(a[k+1], b[k+1]); }
      PointwiseRun(a[1..], b[1..], st', env);
    case _ =>
  }

  /** Rewriting instructions one for one, each by one that refines it, refines the block. */
  lemma PointwiseRefines(a: seq<Inst>, b: seq<Inst>)
    requires |a| == |b| && forall k :: 0 <= k < |a| ==> InstRefines(a[k], b[k])
    ensures RunRefines(a, b)
  {
    forall st, env | !Run(a, st, env).Trap? ensures Run(b, st, env) == Run(a, st, env) { PointwiseRun(a, b, st, env); }
  }

  lemma {:induction false} FindCorresponds(a: seq<Block>, b: seq<Block>, id: nat)
    requires BlocksRefine(a, b)
    ensures FindBlock(a, id).None? <==> FindBlock(b, id).None?
    ensures FindBlock(a, id).Some? ==> RunRefines(FindBlock(a, id).value.insts, FindBlock(b, id).value.insts)
  {
    if a != [] && a[0].id != id { FindCorresponds(a[1..], b[1..], id); }
  }

  lemma {:induction false} ExecRefines(a: seq<Block>, b: seq<Block>, id: nat, st: State, env: Env, fuel: nat)
    requires BlocksRefine(a, b)
    requires !Exec(a, id, st, env, fuel).Stuck?
    ensures Exec(b, id, st, env, fuel) == Exec(a, id, st, env, fuel)
    decreases fuel
  {
    FindCorresponds(a, b, id);
    if fuel > 0 {
      var r := Run(FindBlock(a, id).value.insts, st, env);
      assert r == Run(FindBlock(b, id).value.insts, st, env);
      if r.Jump? { ExecRefines(a, b, r.target, r.jst, env, fuel - 1); }
    }
  }

  /** Block-wise refinement is refinement of the whole function, block for block. */
  lemma BlocksRefineRefines(a: seq<Block>, b: seq<Block>)
    requires BlocksRefine(a, b)
    ensures Refines(a, b)
  {
    forall env: Env, fuel: nat | !Start(a, env, fuel).Stuck?
      ensures Start(b, env, fuel) == Start(a, env, fuel)
    { ExecRefines(a, b, a[0].id, Fresh, env, fuel); }
  }

  /** What a one-for-one rewriting must leave alone for well-formedness to carry over. */
  ghost predicate SameShape(a: seq<Block>, b: seq<Block>) {
    && |a| == |b|
    && (forall i :: 0 <= i < |a| ==> a[i].id == b[i].id && |a[i].insts| == |b[i].insts|)
    && (forall i, k :: 0 <= i < |a| && 0 <= k < |a[i].insts| ==>
        && Defs(a[i].insts[k]) == Defs(b[i].insts[k])
        && (IsTerminator(a[i].insts[k]) <==> IsTerminator(b[i].insts[k]))
        && (forall t :: t in Targets(b[i].insts[k]) ==> t in Targets(a[i].insts[k])))
  }

  lemma SameShapeWellFormed(a: seq<Block>, b: seq<Block>, nextReg: nat)
    requires WellFormed(a, nextReg) && SameShape(a, b)
    requires forall i :: 0 <= i < |b| ==> LocalUses(b[i].insts)
    ensures WellFormed(b, nextReg)
  {
    forall i | 0 <= i < |b| ensures BlockOk(b[i]) { assert BlockOk(a[i]); }
    forall i, k, t | 0 <= i < |b| && 0 <= k < |b[i].insts| && t in Targets(b[i].insts[k])
      ensures HasBlock(b, t)
    {
      assert t in Targets(a[i].insts[k]) && HasBlock(a, t);
      var j :| 0 <= j < |a| && a[j].id == t;
      assert b[j].id == t;
    }
    assert forall i, k, r: nat :: DefinedAt(b, i, k, r) ==> DefinedAt(a, i, k, r);
  }

  /** Uses that only shrink stay local. */
  lemma FewerUsesLocal(a: seq<Inst>, b: seq<Inst>)
    requires |a| == |b| && LocalUses(a)
    requires forall k :: 0 <= k < |a| ==> Defs(a[k]) == Defs(b[k]) && UsedRegs(b[k]) <= UsedRegs(a[k])
    ensures LocalUses(b)
  {
    forall k, r | 0 <= k < |b| && r in UsedRegs(b[k]) ensures DefinedBefore(b, k, r) {
      assert DefinedBefore(a, k, r);
      var j :| 0 <= j < k && j < |a| && r in Defs(a[j]);
      assert r in Defs(b[j]);
    }
  }
}

module ConstantFolding {
  import opened Options
  import opened Ir
  import opened BlockRefinement

  /** The integer cases, in the order the pass tries them; a zero divisor is left to trap at run time. */
  function FoldInts(op: BinOp, a: int, b: int): Option<Value> {
    match op
    case Add => Some(ConstInt(a + b))
    case Sub => Some(ConstInt(a - b))
    case Mul => Some(ConstInt(a * b))
    case Div => if b != 0 then Some(ConstInt(TruncDiv(a, b))) else None
    case Mod => if b != 0 then Some(ConstInt(TruncMod(a, b))) else None
    case Eq => Some(ConstBool(a == b))
    case Ne => Some(ConstBool(a != b))
    case Lt => Some(ConstBool(a < b))
    case Le => Some(ConstBool(a <= b))
    case Gt => Some(ConstBool(a > b))
    case Ge => Some(ConstBool(a >= b))
    case _ => None
  }

  function FoldBools(op: BinOp, a: bool, b: bool): Option<Value> {
    match op
    case And => Some(ConstBool(a && b))
    case Or => Some(ConstBool(a || b))
    case _ => None
  }

  function Folded(d: nat, v: Option<Value>, i: Inst): Inst { if v.Some? then Const(d, v.value) else i }

  function FoldInst(i: Inst): Inst {
    match i
    case Bin(op, d, ConstInt(a), ConstInt(b)) => Folded(d, FoldInts(op, a, b), i)
    case Un(Neg, d, ConstInt(a)) => Const(d, ConstInt(-a))
    case Bin(op, d, ConstBool(a), ConstBool(b)) => Folded(d, FoldBools(op, a, b), i)
    case Un(Not, d, ConstBool(a)) => Const(d, ConstBool(!a))
    case _ => i
  }

  function FoldInsts(insts: seq<Inst>): (r: seq<Inst>)
    ensures |r| == |insts| && forall k :: 0 <= k < |r| ==> r[k] == FoldInst(insts[k])
  { seq(|insts|, k requires 0 <= k < |insts| => FoldInst(insts[k])) }

  function FoldBlocks(blocks: seq<Block>): (r: seq<Block>)
    ensures |r| == |blocks| && forall i :: 0 <= i < |r| ==> r[i] == Block(blocks[i].id, FoldInsts(blocks[i].insts))
  { seq(|blocks|, i requires 0 <= i < |blocks| => Block(blocks[i].id, FoldInsts(blocks[i].insts))) }

  lemma FoldInstRefines(i: Inst)
    ensures InstRefines(i, FoldInst(i))
    ensures Defs(FoldInst(i)) == Defs(i) && UsedRegs(FoldInst(i)) <= UsedRegs(i)
    ensures Targets(FoldInst(i)) == Targets(i) && (IsTerminator(FoldInst(i)) <==> IsTerminator(i))
  {
  }

  /** Folding keeps the behaviour and the form of the function. */
  lemma FoldRefines(blocks: seq<Block>, nextReg: nat)
    requires WellFormed(blocks, nextReg)
    ensures WellFormed(FoldBlocks(blocks), nextReg) && Refines(blocks, FoldBlocks(blocks))
  {
    var r := FoldBlocks(blocks);
    forall i | 0 <= i < |blocks|
      ensures RunRefines(blocks[i].insts, r[i].insts) && LocalUses(r[i].insts)
    {
      forall k | 0 <= k < |blocks[i].insts| ensures InstRefines(blocks[i].insts[k], r[i].insts[k])
        ensures Defs(blocks[i].insts[k]) == Defs(r[i].insts[k])
          && UsedRegs(r[i].insts[k]) <= UsedRegs(blocks[i].insts[k])
      { FoldInstRefines(blocks[i].insts[k]); }
      PointwiseRefines(blocks[i].insts, r[i].insts);
      FewerUsesLocal(blocks[i].insts, r[i].insts);
    }
    forall i, k | 0 <= i < |blocks| && 0 <= k < |blocks[i].insts|
      ensures Defs(blocks[i].insts[k]) == Defs(r[i].insts[k])
        && (IsTerminator(blocks[i].insts[k]) <==> IsTerminator(r[i].insts[k]))
        && Targets(r[i].insts[k]) == Targets(blocks[i].insts[k])
    { FoldInstRefines(blocks[i].insts[k]); }
    SameShapeWellFormed(blocks, r, nextReg);
    BlocksRefineRefines(blocks, r);
  }

  predicate Literal(v: Value) { v.ConstInt? || v.ConstBool? }

  /** After folding, an operation still standing on two literals of the same kind is one the pass must leave: a division
      by zero, an ordering or arithmetic on booleans, or a comparison of two booleans. */
  lemma FoldIsComplete(i: Inst)
    ensures var f := FoldInst(i);
      && FoldInst(f) == f
      && (f.Bin? && f.lhs.ConstInt? && f.rhs.ConstInt? ==>
           (f.op in {Div, Mod} && f.rhs.i == 0) || f.op in {And, Or})
      && (f.Bin? && f.lhs.ConstBool? && f.rhs.ConstBool? ==> f.op !in {And, Or})
      && !(f.Un? && Literal(f.src) && (f.uop.Neg? <==> f.src.ConstInt?))
  {
  }
}

module ConstantPropagation {
  import opened Options
  import opened Ir
  import opened BlockRefinement
  import opened ConstantFolding

  /** The instructions of the first `n` blocks, in order. */
  function Flat(blocks: seq<Block>, n: nat): seq<Inst>
    requires n <= |blocks|
  { if n == 0 then [] else Flat(blocks, n - 1) + blocks[n-1].insts }

  function DefCount(insts: seq<Inst>, r: nat): nat {
    if insts == [] then 0
    else DefCount(insts[..|insts|-1], r) + (if r in Defs(insts[|insts|-1]) then 1 else 0)
  }

  /** The table of registers known to hold a literal: those whose only definition is a literal `Const`. */
  function KnownConsts(insts: seq<Inst>, all: seq<Inst>): map<nat, Value> {
    if insts == [] then map[]
    else AddConst(KnownConsts(insts[..|insts|-1], all), insts[|insts|-1], all)
  }

  function AddConst(m: map<nat, Value>, i: Inst, all: seq<Inst>): map<nat, Value> {
    if i.Const? && Literal(i.src) && DefCount(all, i.dst) == 1 then m[i.dst := i.src] else m
  }

  function Subst(v: Value, m: map<nat, Value>): Value { if v.Reg? && v.id in m then m[v.id] else v }

  function SubstAll(vs: seq<Value>, m: map<nat, Value>): (r: seq<Value>)
    ensures |r| == |vs| && forall k :: 0 <= k < |vs| ==> r[k] == Subst(vs[k], m)
  { seq(|vs|, k requires 0 <= k < |vs| => Subst(vs[k], m)) }

  /** Operands are replaced everywhere but in `Const` instructions. */
  function SubstInst(i: Inst, m: map<nat, Value>): Inst {
    match i
    case Store(v, s) => Store(Subst(v, m), s)
    case Bin(op, d, l, r) => Bin(op, d, Subst(l, m), Subst(r, m))
    case Un(op, d, v) => Un(op, d, Subst(v, m))
    case Call(d, f, args) => Call(d, f, SubstAll(args, m))
    case Print(v) => Print(Subst(v, m))
    case CondBr(c, t, f) => CondBr(Subst(c, m), t, f)
    case Ret(Some(v)) => Ret(Some(Subst(v, m)))
    case _ => i
  }

  function SubstInsts(insts: seq<Inst>, m: map<nat, Value>): (r: seq<Inst>)
    ensures |r| == |insts| && forall k :: 0 <= k < |r| ==> r[k] == SubstInst(insts[k], m)
  { seq(|insts|, k requires 0 <= k < |insts| => SubstInst(insts[k], m)) }

  function SubstBlocks(blocks: seq<Block>, m: map<nat, Value>): (r: seq<Block>)
    ensures |r| == |blocks| && forall i :: 0 <= i < |r| ==> r[i] == Block(blocks[i].id, SubstInsts(blocks[i].insts, m))
  { seq(|blocks|, i requires 0 <= i < |blocks| => Block(blocks[i].id, SubstInsts(blocks[i].insts, m))) }

  function PropagateBlocks(blocks: seq<Block>): seq<Block> {
    var all := Flat(blocks, |blocks|);
    SubstBlocks(blocks, KnownConsts(all, all))
  }

  lemma {:induction false} FlatHas(blocks: seq<Block>, n: nat, x: Inst)
    requires n <= |blocks| && x in Flat(blocks, n)
    ensures exists i, k :: 0 <= i < n && 0 <= k < |blocks[i].insts| && blocks[i].insts[k] == x
  {
    if x in Flat(blocks, n - 1) { FlatHas(blocks, n - 1, x); }
  }

  lemma {:induction false} KnownConstsSound(insts: seq<Inst>, all: seq<Inst>, r: nat)
    requires r in KnownConsts(insts, all)
    ensures Literal(KnownConsts(insts, all)[r]) && Const(r, KnownConsts(insts, all)[r]) in insts
  {
    var last := insts[|insts|-1];
    if !(last.Const? && last.dst == r && Literal(last.src) && DefCount(all, r) == 1) {
      KnownConstsSound(insts[..|insts|-1], all, r);
    }
  }

  /** `m` only tells literals that every definition of the register in `insts` really delivers. */
  ghost predicate Truthful(insts: seq<Inst>, m: map<nat, Value>) {
    && (forall r :: r in m ==> Literal(m[r]))
    && forall k, r :: 0 <= k < |insts| && r in Defs(insts[k]) && r in m ==> insts[k] == Const(r, m[r])
  }

  ghost predicate Holds(insts: seq<Inst>, k: int, m: map<nat, Value>, st: State, env: Env) {
    forall r :: r in m && DefinedBefore(insts, k, r) ==> Eval(Reg(r), st, env) == Eval(m[r], st, env)
  }

  lemma {:induction false} EvalAllSubst(vs: seq<Value>, m: map<nat, Value>, st: State, env: Env)
    requires forall v :: v in vs ==> Eval(Subst(v, m), st, env) == Eval(v, st, env)
    ensures EvalAll(SubstAll(vs, m), st, env) == EvalAll(vs, st, env)
  {
    if vs != [] {
      assert vs[0] in vs;
      assert SubstAll(vs, m)[1..] == SubstAll(vs[1..], m);
      EvalAllSubst(vs[1..], m, st, env);
    }
  }

  lemma SubstStep(insts: seq<Inst>, k: nat, m: map<nat, Value>, st: State, env: Env)
    requires k < |insts| && LocalUses(insts) && Truthful(insts, m) && Holds(insts, k, m, st, env)
    ensures Step(SubstInst(insts[k], m), st, env) == Step(insts[k], st, env)
    ensures var s := Step(insts[k], st, env); s.Next? ==> Holds(insts, k + 1, m, s.st, env)
  {
    var i := insts[k];
    forall v | v in Operands(i) ensures Eval(Subst(v, m), st, env) == Eval(v, st, env) {
      if v.Reg? { assert v.id in UsedRegs(i); assert DefinedBefore(insts, k, v.id); }
    }
    if i.Call? { EvalAllSubst(i.args, m, st, env); }
    var s := Step(i, st, env);
    if s.Next? {
      forall r | r in m && DefinedBefore(insts, k + 1, r) ensures Eval(Reg(r), s.st, env) == Eval(m[r], s.st, env) {
        if r in Defs(i) { assert i == Const(r, m[r]); } else { assert DefinedBefore(insts, k, r); }
      }
    }
  }

  lemma {:induction false} SubstRun(insts: seq<Inst>, k: nat, m: map<nat, Value>, st: State, env: Env)
    requires k <= |insts| && LocalUses(insts) && Truthful(insts, m) && Holds(insts, k, m, st, env)
    ensures Run(SubstInsts(insts, m)[k..], st, env) == Run(insts[k..], st, env)
    decreases |insts| - k
  {
    if k < |insts| {
      SubstStep(insts, k, m, st, env);
      var t := SubstInsts(insts, m);
      assert t[k..][1..] == t[k+1..] && insts[k..][1..] == insts[k+1..];
      var s := Step(insts[k], st, env);
      if s.Next? { SubstRun(insts, k + 1, m, s.st, env); }
    }
  }

  lemma SubstShape(i: Inst, m: map<nat, Value>)
    requires forall r :: r in m ==> Literal(m[r])
    ensures Defs(SubstInst(i, m)) == Defs(i) && UsedRegs(SubstInst(i, m)) <= UsedRegs(i)
    ensures Targets(SubstInst(i, m)) == Targets(i) && (IsTerminator(SubstInst(i, m)) <==> IsTerminator(i))
    ensures !i.Const? ==> UsedRegs(SubstInst(i, m)) !! m.Keys
  {
    forall r | r in UsedRegs(SubstInst(i, m)) ensures r in UsedRegs(i) && (!i.Const? ==> r !in m) {
      var v :| v in Operands(SubstInst(i, m)) && v.Reg? && v.id == r;
      if i.Call? {
        var k :| 0 <= k < |i.args| && SubstAll(i.args, m)[k] == v;
        assert i.args[k] == v;
      }
      assert v in Operands(i);
    }
  }

  /** The table built from a well-formed function tells the truth about each of its blocks. */
  lemma KnownConstsTruthful(blocks: seq<Block>, nextReg: nat, i: nat)
    requires WellFormed(blocks, nextReg) && i < |blocks|
    ensures var all := Flat(blocks, |blocks|); Truthful(blocks[i].insts, KnownConsts(all, all))
  {
    var all := Flat(blocks, |blocks|);
    var m := KnownConsts(all, all);
    forall r | r in m ensures Literal(m[r]) { KnownConstsSound(all, all, r); }
    forall k, r | 0 <= k < |blocks[i].insts| && r in Defs(blocks[i].insts[k]) && r in m
      ensures blocks[i].insts[k] == Const(r, m[r])
    {
      KnownConstsSound(all, all, r);
      FlatHas(blocks, |blocks|, Const(r, m[r]));
      var j, l :| 0 <= j < |blocks| && 0 <= l < |blocks[j].insts| && blocks[j].insts[l] == Const(r, m[r]);
      assert DefinedAt(blocks, j, l, r) && DefinedAt(blocks, i, k, r);
    }
  }

  /** Constant propagation keeps the behaviour and the form of the function. */
  lemma PropagateRefines(blocks: seq<Block>, nextReg: nat)
    requires WellFormed(blocks, nextReg)
    ensures WellFormed(PropagateBlocks(blocks), nextReg) && Refines(blocks, PropagateBlocks(blocks))
  {
    var all := Flat(blocks, |blocks|);
    var m := KnownConsts(all, all);
    var r := PropagateBlocks(blocks);
    forall x | x in m ensures Literal(m[x]) { KnownConstsSound(all, all, x); }
    forall i | 0 <= i < |blocks| ensures RunRefines(blocks[i].insts, r[i].insts) && LocalUses(r[i].insts) {
      KnownConstsTruthful(blocks, nextReg, i);
      var insts := blocks[i].insts;
      forall st: State, env: Env ensures Run(r[i].insts, st, env) == Run(insts, st, env) {
        SubstRun(insts, 0, m, st, env);
        assert insts[0..] == insts && r[i].insts[0..] == r[i].insts;
      }
      forall k | 0 <= k < |insts|
        ensures Defs(insts[k]) == Defs(r[i].insts[k]) && UsedRegs(r[i].insts[k]) <= UsedRegs(insts[k])
      {
        SubstShape(insts[k], m);
      }
      FewerUsesLocal(insts, r[i].insts);
    }
    forall i, k | 0 <= i < |blocks| && 0 <= k < |blocks[i].insts|
      ensures Defs(blocks[i].insts[k]) == Defs(r[i].insts[k])
        && (IsTerminator(blocks[i].insts[k]) <==> IsTerminator(r[i].insts[k]))
        && Targets(r[i].insts[k]) == Targets(blocks[i].insts[k])
    { SubstShape(blocks[i].insts[k], m); }
    SameShapeWellFormed(blocks, r, nextReg);
    BlocksRefineRefines(blocks, r);
  }
}

module TruncatedDivision {
  // What `/` and `%` compute, folded or run (src/ir/ir_opt.c:103-110).

  import opened Options
  import opened Ir
  import opened ConstantFolding

  /** `q` and `r` are quotient and remainder: the remainder is smaller than the divisor and has the sign of the
      dividend. */
  predicate Divides(a: int, b: int, q: int, r: int) {
    && a == b * q + r
    && (if b < 0 then b < r < -b else -b < r < b)
    && (r == 0 || (r < 0 <==> a < 0))
  }

  lemma TruncDivides(a: int, b: int)
    requires b != 0
    ensures Divides(a, b, TruncDiv(a, b), TruncMod(a, b))
  {
    var n: int, d: int := Abs(a), Abs(b);
    var q: int, r: int := n / d, n % d;
    assert n == d * q + r && 0 <= r < d;
    var p: int := d * q;
    assert TruncDiv(a, b) == if (a < 0) == (b < 0) then q else -q;
    assert b * q == if b < 0 then -p else p;
    assert b * -q == if b < 0 then p else -p;
    assert b * TruncDiv(a, b) == if a < 0 then -p else p;
  }

  lemma {:induction false} MultipleGrows(b: int, k: int)
    requires b != 0 && k > 0
    ensures if b < 0 then b * k <= b else b * k >= b
  {
    if k > 1 {
      MultipleGrows(b, k - 1);
      assert b * k == b * (k - 1) + b;
    }
  }

  lemma SmallMultiple(b: int, k: int)
    requires b != 0 && if b < 0 then b < b * k < -b else -b < b * k < b
    ensures k == 0
  {
    if k > 0 {
      MultipleGrows(b, k);
    } else if k < 0 {
      assert b * -k == -(b * k);
      MultipleGrows(b, -k);
    }
  }

  lemma Difference(b: int, q: int, q': int)
    ensures b * (q - q') == b * q - b * q'
  {}

  /** There is just one such pair. */
  lemma QuotientUnique(a: int, b: int, q: int, r: int, q': int, r': int)
    requires b != 0 && Divides(a, b, q, r) && Divides(a, b, q', r')
    ensures q == q' && r == r'
  {
    Difference(b, q, q');
    var k, m := q - q', b * (q - q');
    assert if b < 0 then b < m < -b else -b < m < b by { Apart(a, b, b * q, r, b * q', r'); }
    SmallMultiple(b, k);
  }

  /** Remainders of one sign are less than the divisor apart. */
  lemma Apart(a: int, b: int, x: int, r: int, x': int, r': int)
    requires a == x + r && a == x' + r' && (r == 0 || (r < 0 <==> a < 0)) && (r' == 0 || (r' < 0 <==> a < 0))
    requires if b < 0 then b < r < -b && b < r' < -b else -b < r < b && -b < r' < b
    ensures if b < 0 then b < x - x' < -b else -b < x - x' < b
  {}

  /** What a division folds to, and what it gives when it runs: the one quotient and the one remainder there are. A zero
      divisor does neither. */
  lemma DivisionExactlyWhen(a: int, b: int, q: int, r: int)
    ensures b != 0 ==>
      (Divides(a, b, q, r) <==> FoldInts(Div, a, b) == Some(ConstInt(q)) && FoldInts(Mod, a, b) == Some(ConstInt(r)))
    ensures b != 0 ==>
      (Divides(a, b, q, r) <==>
        BinVal(Div, VInt(a), VInt(b)) == Some(VInt(q)) && BinVal(Mod, VInt(a), VInt(b)) == Some(VInt(r)))
    ensures b == 0 ==>
      && FoldInts(Div, a, b).None? && FoldInts(Mod, a, b).None?
      && BinVal(Div, VInt(a), VInt(b)).None? && BinVal(Mod, VInt(a), VInt(b)).None?
  {
    if b != 0 {
      TruncDivides(a, b);
      if Divides(a, b, q, r) { QuotientUnique(a, b, q, r, TruncDiv(a, b), TruncMod(a, b)); }
    }
    hide TruncDiv;
    hide TruncMod;
    hide Divides;
  }
}
