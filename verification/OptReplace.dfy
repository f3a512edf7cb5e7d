// Replacing every use of a register by another operand, and the two passes built on it:
// algebraic simplification and store-to-load forwarding (src/ir/ir_opt.c:15-61, 338-493).

module UseReplacement {
  import opened Options
  import opened Ir
  import opened BlockRefinement

  function ReplaceIn(v: Value, r: nat, w: Value): Value { if v == Reg(r) then w else v }

  function ReplaceArgs(vs: seq<Value>, r: nat, w: Value): (res: seq<Value>)
    ensures |res| == |vs| && forall k :: 0 <= k < |vs| ==> res[k] == ReplaceIn(vs[k], r, w)
  { seq(|vs|, k requires 0 <= k < |vs| => ReplaceIn(vs[k], r, w)) }

  function ReplaceInst(i: Inst, r: nat, w: Value): Inst {
    match i
    case Store(v, s) => Store(ReplaceIn(v, r, w), s)
    case Const(d, v) => Const(d, ReplaceIn(v, r, w))
    case Bin(op, d, a, b) => Bin(op, d, ReplaceIn(a, r, w), ReplaceIn(b, r, w))
    case Un(op, d, v) => Un(op, d, ReplaceIn(v, r, w))
    case Call(d, f, args) => Call(d, f, ReplaceArgs(args, r, w))
    case Print(v) => Print(ReplaceIn(v, r, w))
    case CondBr(c, t, f) => CondBr(ReplaceIn(c, r, w), t, f)
    case Ret(Some(v)) => Ret(Some(ReplaceIn(v, r, w)))
    case _ => i
  }

  function ReplaceInsts(insts: seq<Inst>, r: nat, w: Value): (res: seq<Inst>)
    ensures |res| == |insts| && forall k :: 0 <= k < |res| ==> res[k] == ReplaceInst(insts[k], r, w)
  { seq(|insts|, k requires 0 <= k < |insts| => ReplaceInst(insts[k], r, w)) }

  /** `replace_value_uses_in_fn`: every operand of every block. */
  function ReplaceUses(blocks: seq<Block>, r: nat, w: Value): (res: seq<Block>)
    ensures |res| == |blocks| && forall i ::
      0 <= i < |res| ==> res[i] == Block(blocks[i].id, ReplaceInsts(blocks[i].insts, r, w))
  { seq(|blocks|, i requires 0 <= i < |blocks| => Block(blocks[i].id, ReplaceInsts(blocks[i].insts, r, w))) }

  /** The state after the first `n` instructions, when they all run through. */
  function Straight(insts: seq<Inst>, n: nat, st: State, env: Env): Option<State>
    requires n <= |insts|
  {
    if n == 0 then Some(st)
    else match Straight(insts, n - 1, st, env)
      case None => None
      case Some(s) => match Step(insts[n-1], s, env) case Next(s') => Some(s') case _ => None
  }

  /** Instruction `k` leaves in register `r` what operand `w` stands for at that point. */
  ghost predicate Delivers(insts: seq<Inst>, k: nat, r: nat, w: Value)
    requires k < |insts|
  {
    && r in Defs(insts[k]) && w != Reg(r)
    && (w.Reg? ==> DefinedBefore(insts, k, w.id))
    && forall st: State, env: Env :: DeliveredFrom(insts, k, r, w, st, env)
  }

  ghost predicate Same(r: nat, w: Value, st: State, env: Env) { r in st.regs && Eval(w, st, env) == Some(st.regs[r]) }

  ghost predicate DeliveredFrom(insts: seq<Inst>, k: nat, r: nat, w: Value, st: State, env: Env)
    requires k < |insts|
  { var s := Straight(insts, k + 1, st, env); s.Some? ==> Same(r, w, s.value, env) }

  /** One block of a function with single definitions. */
  ghost predicate SingleDefBlock(insts: seq<Inst>) {
    forall k, j, r :: 0 <= k < |insts| && 0 <= j < |insts| && r in Defs(insts[k]) && r in Defs(insts[j]) ==> k == j
  }

  lemma {:induction false} EvalAllReplace(vs: seq<Value>, r: nat, w: Value, st: State, env: Env)
    requires forall v :: v in vs ==> Eval(ReplaceIn(v, r, w), st, env) == Eval(v, st, env)
    ensures EvalAll(ReplaceArgs(vs, r, w), st, env) == EvalAll(vs, st, env)
  {
    if vs != [] {
      assert vs[0] in vs;
      assert ReplaceArgs(vs, r, w)[1..] == ReplaceArgs(vs[1..], r, w);
      EvalAllReplace(vs[1..], r, w, st, env);
    }
  }

  lemma ReplaceStep(i: Inst, r: nat, w: Value, st: State, env: Env)
    requires r in UsedRegs(i) ==> Same(r, w, st, env)
    ensures Step(ReplaceInst(i, r, w), st, env) == Step(i, st, env)
  {
    forall v | v in Operands(i) ensures Eval(ReplaceIn(v, r, w), st, env) == Eval(v, st, env) {
      if v == Reg(r) { assert r in UsedRegs(i); }
    }
    if i.Call? { EvalAllReplace(i.args, r, w, st, env); }
  }

  lemma ReplaceShape(i: Inst, r: nat, w: Value)
    ensures var t := ReplaceInst(i, r, w);
      && Defs(t) == Defs(i) && Targets(t) == Targets(i) && (IsTerminator(t) <==> IsTerminator(i))
      && (forall x :: x in UsedRegs(t) ==> (x in UsedRegs(i) && x != r) || (r in UsedRegs(i) && w == Reg(x)))
    ensures r !in UsedRegs(i) ==> ReplaceInst(i, r, w) == i
  {
    var t := ReplaceInst(i, r, w);
    forall x | x in UsedRegs(t) ensures (x in UsedRegs(i) && x != r) || (r in UsedRegs(i) && w == Reg(x)) {
      var v :| v in Operands(t) && v.Reg? && v.id == x;
      if i.Call? {
        var k :| 0 <= k < |i.args| && ReplaceArgs(i.args, r, w)[k] == v;
        assert i.args[k] in Operands(i);
      }
      assert exists u :: u in Operands(i) && v == ReplaceIn(u, r, w);
    }
    if r !in UsedRegs(i) {
      forall v | v in Operands(i) ensures ReplaceIn(v, r, w) == v { assert v == Reg(r) ==> r in UsedRegs(i); }
      if i.Call? { assert ReplaceArgs(i.args, r, w) == i.args; }
    }
  }

  lemma SameKept(insts: seq<Inst>, k: nat, r: nat, w: Value, n: nat, st: State, env: Env)
    requires SingleDefBlock(insts) && k < n < |insts| && r in Defs(insts[k])
      && (w.Reg? ==> DefinedBefore(insts, k, w.id))
    requires Same(r, w, st, env) && Step(insts[n], st, env).Next?
    ensures Same(r, w, Step(insts[n], st, env).st, env)
  {
    assert r !in Defs(insts[n]);
    assert w.Reg? ==> w.id !in Defs(insts[n]);
  }

  /** What is replaced is used only behind its definition. */
  lemma UsedAfter(insts: seq<Inst>, k: nat, r: nat, w: Value, n: nat)
    requires LocalUses(insts) && SingleDefBlock(insts) && k < |insts| && Delivers(insts, k, r, w) && n < |insts|
    ensures r in UsedRegs(insts[n]) ==> n > k
  { if r in UsedRegs(insts[n]) { assert DefinedBefore(insts, n, r); } }

  lemma {:induction false} ReplaceRun(insts: seq<Inst>, k: nat, r: nat, w: Value, n: nat, st0: State, st: State,
      env: Env)
    requires LocalUses(insts) && SingleDefBlock(insts) && k < |insts| && Delivers(insts, k, r, w)
    requires n <= |insts| && Straight(insts, n, st0, env) == Some(st)
    requires n > k ==> Same(r, w, st, env)
    ensures Run(ReplaceInsts(insts, r, w)[n..], st, env) == Run(insts[n..], st, env)
    decreases |insts| - n
  {
    if n < |insts| {
      var t := ReplaceInsts(insts, r, w);
      assert t[n..][1..] == t[n+1..] && insts[n..][1..] == insts[n+1..];
      UsedAfter(insts, k, r, w, n);
      ReplaceStep(insts[n], r, w, st, env);
      hide Step;
      hide ReplaceInst;
      hide LocalUses;
      hide SingleDefBlock;
      hide UsedRegs;
      hide Same;
      var s := Step(insts[n], st, env);
      if s.Next? {
        assert Straight(insts, n + 1, st0, env) == Some(s.st);
        if n > k {
          SameKept(insts, k, r, w, n, st, env);
        } else if n == k {
          assert DeliveredFrom(insts, k, r, w, st0, env);
        }
        ReplaceRun(insts, k, r, w, n + 1, st0, s.st, env);
      }
    }
  }

  lemma SingleDefsBlock(blocks: seq<Block>, i: nat)
    requires SingleDefs(blocks) && i < |blocks|
    ensures SingleDefBlock(blocks[i].insts)
  {
    forall k, j, r | 0 <= k < |blocks[i].insts| && 0 <= j < |blocks[i].insts| && r in Defs(blocks[i].insts[k])
      && r in Defs(blocks[i].insts[j])
      ensures k == j
    { assert DefinedAt(blocks, i, k, r) && DefinedAt(blocks, i, j, r); }
  }

  lemma NoUseElsewhere(blocks: seq<Block>, nextReg: nat, i: nat, k: nat, r: nat, j: nat)
    requires WellFormed(blocks, nextReg) && DefinedAt(blocks, i, k, r) && j < |blocks| && j != i
    ensures forall n :: 0 <= n < |blocks[j].insts| ==> r !in UsedRegs(blocks[j].insts[n])
  {
    forall n | 0 <= n < |blocks[j].insts| ensures r !in UsedRegs(blocks[j].insts[n]) {
      if r in UsedRegs(blocks[j].insts[n]) {
        assert DefinedBefore(blocks[j].insts, n, r);
        var l :| 0 <= l < n && l < |blocks[j].insts| && r in Defs(blocks[j].insts[l]);
        assert DefinedAt(blocks, j, l, r);
      }
    }
  }

  lemma ReplaceLocal(insts: seq<Inst>, k: nat, r: nat, w: Value)
    requires LocalUses(insts) && SingleDefBlock(insts) && k < |insts| && Delivers(insts, k, r, w)
    ensures LocalUses(ReplaceInsts(insts, r, w))
  {
    var t := ReplaceInsts(insts, r, w);
    forall n | 0 <= n < |insts| ensures Defs(t[n]) == Defs(insts[n]) { ReplaceShape(insts[n], r, w); }
    forall n, x | 0 <= n < |t| && x in UsedRegs(t[n]) ensures DefinedBefore(t, n, x) {
      ReplaceShape(insts[n], r, w);
      if x in UsedRegs(insts[n]) {
        assert DefinedBefore(insts, n, x);
        var j :| 0 <= j < n && j < |insts| && x in Defs(insts[j]);
        assert x in Defs(t[j]);
      } else {
        assert DefinedBefore(insts, n, r);
        assert k < n;
        var j :| 0 <= j < k && j < |insts| && x in Defs(insts[j]);
        assert x in Defs(t[j]);
      }
    }
  }

  /** Replacing the uses of a register by an operand that its definition delivers changes no run at all. */
  lemma ReplaceUsesRefines(blocks: seq<Block>, nextReg: nat, i: nat, k: nat, r: nat, w: Value)
    requires WellFormed(blocks, nextReg) && i < |blocks| && k < |blocks[i].insts|
    requires Delivers(blocks[i].insts, k, r, w)
    ensures WellFormed(ReplaceUses(blocks, r, w), nextReg) && Refines(blocks, ReplaceUses(blocks, r, w))
  {
    var t := ReplaceUses(blocks, r, w);
    assert DefinedAt(blocks, i, k, r);
    forall j | 0 <= j < |blocks| ensures RunRefines(blocks[j].insts, t[j].insts) && LocalUses(t[j].insts) {
      var insts := blocks[j].insts;
      if j == i {
        SingleDefsBlock(blocks, i);
        ReplaceLocal(insts, k, r, w);
        forall st: State, env: Env ensures Run(t[j].insts, st, env) == Run(insts, st, env) {
          ReplaceRun(insts, k, r, w, 0, st, st, env);
          assert insts[0..] == insts && t[j].insts[0..] == t[j].insts;
        }
      } else {
        NoUseElsewhere(blocks, nextReg, i, k, r, j);
        forall n | 0 <= n < |insts| ensures t[j].insts[n] == insts[n] { ReplaceShape(insts[n], r, w); }
        assert t[j].insts == insts;
      }
    }
    forall j, n | 0 <= j < |blocks| && 0 <= n < |blocks[j].insts|
      ensures Defs(blocks[j].insts[n]) == Defs(t[j].insts[n])
        && (IsTerminator(blocks[j].insts[n]) <==> IsTerminator(t[j].insts[n]))
        && Targets(t[j].insts[n]) == Targets(blocks[j].insts[n])
    { ReplaceShape(blocks[j].insts[n], r, w); }
    SameShapeWellFormed(blocks, t, nextReg);
    BlocksRefineRefines(blocks, t);
  }

  function SetInst(blocks: seq<Block>, i: nat, k: nat, x: Inst): (res: seq<Block>)
    requires i < |blocks| && k < |blocks[i].insts|
  { blocks[i := blocks[i].(insts := blocks[i].insts[k := x])] }

  /** Overwriting one instruction by one that refines it and reads no more. */
  lemma SetInstRefines(blocks: seq<Block>, nextReg: nat, i: nat, k: nat, x: Inst)
    requires WellFormed(blocks, nextReg) && i < |blocks| && k < |blocks[i].insts|
    requires InstRefines(blocks[i].insts[k], x)
    requires Defs(x) == Defs(blocks[i].insts[k]) && UsedRegs(x) <= UsedRegs(blocks[i].insts[k])
    requires Targets(x) == Targets(blocks[i].insts[k]) && (IsTerminator(x) <==> IsTerminator(blocks[i].insts[k]))
    ensures WellFormed(SetInst(blocks, i, k, x), nextReg) && Refines(blocks, SetInst(blocks, i, k, x))
  {
    var t := SetInst(blocks, i, k, x);
    forall j | 0 <= j < |blocks| ensures RunRefines(blocks[j].insts, t[j].insts) && LocalUses(t[j].insts) {
      forall n | 0 <= n < |blocks[j].insts| ensures InstRefines(blocks[j].insts[n], t[j].insts[n]) {}
      PointwiseRefines(blocks[j].insts, t[j].insts);
      FewerUsesLocal(blocks[j].insts, t[j].insts);
    }
    SameShapeWellFormed(blocks, t, nextReg);
    BlocksRefineRefines(blocks, t);
  }
}

module AlgebraicSimplification {
  import opened Options
  import opened Ir
  import opened BlockRefinement
  import opened UseReplacement

  /** What a rule does with an instruction: nothing, forward an operand to all uses, or put a literal in its place. */
  datatype Rule = Keep | Forward(v: Value) | Literally(v: Value)

  /** The rules in the order the pass tries them. */
  function RuleFor(i: Inst): Rule {
    match i
    case Bin(Add, _, l, r) =>
      if r == ConstInt(0) then Forward(l) else if l == ConstInt(0) then Forward(r) else Keep
    case Bin(Sub, _, l, r) =>
      if r == ConstInt(0) then Forward(l) else if l == r then Literally(ConstInt(0)) else Keep
    case Bin(Mul, _, l, r) =>
      if r == ConstInt(1) then Forward(l) else if l == ConstInt(1) then Forward(r)
      else if r == ConstInt(0) || l == ConstInt(0) then Literally(ConstInt(0)) else Keep
    case Bin(Div, _, l, r) => if r == ConstInt(1) then Forward(l) else Keep
    case Bin(Eq, _, l, r) => if l == r then Literally(ConstBool(true)) else Keep
    case Bin(Ne, _, l, r) => if l == r then Literally(ConstBool(false)) else Keep
    case _ => Keep
  }

  /** One visit: uses are replaced throughout the function before the instruction itself is overwritten. */
  function Visit(blocks: seq<Block>, i: nat, k: nat): (res: seq<Block>)
    requires i < |blocks| && k < |blocks[i].insts|
    ensures SameIds(blocks, res) && forall j :: 0 <= j < |blocks| ==> |res[j].insts| == |blocks[j].insts|
  {
    var x := blocks[i].insts[k];
    match RuleFor(x)
    case Keep => blocks
    case Forward(v) => SetInst(ReplaceUses(blocks, x.dst, v), i, k, Const(x.dst, v))
    case Literally(v) => SetInst(blocks, i, k, Const(x.dst, v))
  }

  /** The pass from instruction `k` of block `i` to the end of the function. */
  function SimplifyFrom(blocks: seq<Block>, i: nat, k: nat): (res: seq<Block>)
    requires i <= |blocks| && (i < |blocks| ==> k <= |blocks[i].insts|)
    ensures SameIds(blocks, res)
    decreases |blocks| - i, if i < |blocks| then |blocks[i].insts| - k else 0
  {
    if i == |blocks| then blocks
    else if k == |blocks[i].insts| then SimplifyFrom(blocks, i + 1, 0)
    else SimplifyFrom(Visit(blocks, i, k), i, k + 1)
  }

  lemma TruncByOne(a: int)
    ensures TruncDiv(a, 1) == a
  {}

  lemma RuleRefines(x: Inst)
    ensures match RuleFor(x)
      case Keep => true
      case Forward(v) => InstRefines(x, Const(x.dst, v)) && UsedRegs(Const(x.dst, v)) <= UsedRegs(x)
      case Literally(v) => InstRefines(x, Const(x.dst, v)) && UsedRegs(Const(x.dst, v)) == {}
  {
    match RuleFor(x)
    case Keep =>
    case Forward(v) =>
      forall st: State, env: Env | !Step(x, st, env).Trap? ensures Step(Const(x.dst, v), st, env) == Step(x, st, env) {
        if x.op == Div { var a := Eval(x.lhs, st, env); if a.Some? && a.value.VInt? { TruncByOne(a.value.i); } }
      }
      assert v in Operands(x);
    case Literally(v) =>
      forall st: State, env: Env | !Step(x, st, env).Trap? ensures Step(Const(x.dst, v), st, env) == Step(x, st, env) {}
  }

  /** A `Const` delivers its own operand. */
  lemma ConstDelivers(insts: seq<Inst>, k: nat)
    requires LocalUses(insts) && SingleDefBlock(insts) && k < |insts| && insts[k].Const?
    ensures Delivers(insts, k, insts[k].dst, insts[k].src)
  {
    var x := insts[k];
    if x.src.Reg? {
      assert x.src in Operands(x) && x.src.id in UsedRegs(x);
      assert DefinedBefore(insts, k, x.src.id);
    }
  }

  lemma VisitRefines(blocks: seq<Block>, nextReg: nat, i: nat, k: nat)
    requires WellFormed(blocks, nextReg) && i < |blocks| && k < |blocks[i].insts|
    ensures WellFormed(Visit(blocks, i, k), nextReg) && Refines(blocks, Visit(blocks, i, k))
  {
    var x := blocks[i].insts[k];
    RuleRefines(x);
    match RuleFor(x)
    case Keep =>
    case Literally(v) => SetInstRefines(blocks, nextReg, i, k, Const(x.dst, v));
    case Forward(v) =>
      var c := SetInst(blocks, i, k, Const(x.dst, v));
      SetInstRefines(blocks, nextReg, i, k, Const(x.dst, v));
      SingleDefsBlock(c, i);
      ConstDelivers(c[i].insts, k);
      ReplaceUsesRefines(c, nextReg, i, k, x.dst, v);
      RefinesTrans(blocks, c, ReplaceUses(c, x.dst, v));
      assert ReplaceUses(c, x.dst, v)[i].insts == Visit(blocks, i, k)[i].insts;
      assert ReplaceUses(c, x.dst, v) == Visit(blocks, i, k);
  }

  /** Algebraic simplification keeps the behaviour and the form of the function. */
  lemma {:induction false} SimplifyRefines(blocks: seq<Block>, nextReg: nat, i: nat, k: nat)
    requires WellFormed(blocks, nextReg) && i <= |blocks| && (i < |blocks| ==> k <= |blocks[i].insts|)
    ensures WellFormed(SimplifyFrom(blocks, i, k), nextReg) && Refines(blocks, SimplifyFrom(blocks, i, k))
    decreases |blocks| - i, if i < |blocks| then |blocks[i].insts| - k else 0
  {
    if i == |blocks| {
    } else if k == |blocks[i].insts| {
      SimplifyRefines(blocks, nextReg, i + 1, 0);
    } else {
      var v := Visit(blocks, i, k);
      VisitRefines(blocks, nextReg, i, k);
      SimplifyRefines(v, nextReg, i, k + 1);
      RefinesTrans(blocks, v, SimplifyFrom(v, i, k + 1));
    }
  }
}

module CopyPropagation {
  import opened Options
  import opened Ir
  import opened BlockRefinement
  import opened UseReplacement

  /** The slot table of one block, keyed by slot name; it never takes more than 64 slots. */
  type Table = map<string, Value>

  const MAX_ENTRIES := 64

  function NextTable(table: Table, x: Inst): Table {
    match x
    case Store(v, s) => if s in table || |table| < MAX_ENTRIES then table[s := v] else table
    case Call(_, _, _) => map[]
    case _ => table
  }

  function Visit(blocks: seq<Block>, table: Table, x: Inst): (res: seq<Block>)
    ensures SameIds(blocks, res) && forall j :: 0 <= j < |blocks| ==> |res[j].insts| == |blocks[j].insts|
  {
    match x
    case Load(d, s) => if s in table then ReplaceUses(blocks, d, table[s]) else blocks
    case _ => blocks
  }

  /** The pass from instruction `k` of block `i` on, with the table collected so far in that block. */
  function ForwardFrom(blocks: seq<Block>, i: nat, k: nat, table: Table): (res: seq<Block>)
    requires i <= |blocks| && (i < |blocks| ==> k <= |blocks[i].insts|)
    ensures SameIds(blocks, res)
    decreases |blocks| - i, if i < |blocks| then |blocks[i].insts| - k else 0
  {
    if i == |blocks| then blocks
    else if k == |blocks[i].insts| then ForwardFrom(blocks, i + 1, 0, map[])
    else
      var x := blocks[i].insts[k];
      ForwardFrom(Visit(blocks, table, x), i, k + 1, NextTable(table, x))
  }

  lemma ForwardUnfold(blocks: seq<Block>, i: nat, k: nat, table: Table)
    requires i < |blocks| && k < |blocks[i].insts|
    ensures var x := blocks[i].insts[k];
      ForwardFrom(blocks, i, k, table) == ForwardFrom(Visit(blocks, table, x), i, k + 1, NextTable(table, x))
  {}

  /** The first `k` instructions store `v` to the slot, and nothing after that store touches the slot again. */
  ghost predicate Available(insts: seq<Inst>, k: int, slot: string, v: Value) {
    exists j :: 0 <= j < k <= |insts| && insts[j] == Store(v, slot)
      && forall n :: j < n < k ==> !(insts[n].Store? && insts[n].slot == slot)
  }

  ghost predicate TableOk(insts: seq<Inst>, k: int, table: Table) {
    forall s :: s in table ==> Available(insts, k, s, table[s])
  }

  lemma {:induction false} StoredValue(insts: seq<Inst>, j: nat, k: nat, st: State, env: Env)
    requires LocalUses(insts) && SingleDefBlock(insts) && j < k <= |insts| && insts[j].Store?
    requires forall n :: j < n < k ==> !(insts[n].Store? && insts[n].slot == insts[j].slot)
    requires Straight(insts, k, st, env).Some?
    ensures var s := Straight(insts, k, st, env).value;
      insts[j].slot in s.slots && Eval(insts[j].src, s, env) == Some(s.slots[insts[j].slot])
  {
    var v := insts[j].src;
    if k > j + 1 {
      StoredValue(insts, j, k - 1, st, env);
      if v.Reg? {
        assert v in Operands(insts[j]) && v.id in UsedRegs(insts[j]);
        assert DefinedBefore(insts, j, v.id);
        assert v.id !in Defs(insts[k-1]);
      }
    }
  }

  lemma LoadDelivers(insts: seq<Inst>, k: nat, v: Value)
    requires LocalUses(insts) && SingleDefBlock(insts) && k < |insts| && insts[k].Load?
    requires Available(insts, k, insts[k].slot, v)
    ensures Delivers(insts, k, insts[k].dst, v)
  {
    var d, slot := insts[k].dst, insts[k].slot;
    var j :| 0 <= j < k && insts[j] == Store(v, slot) && forall n ::
      j < n < k ==> !(insts[n].Store? && insts[n].slot == slot);
    if v.Reg? {
      assert v in Operands(insts[j]) && v.id in UsedRegs(insts[j]);
      assert DefinedBefore(insts, j, v.id);
      var l :| 0 <= l < j && l < |insts| && v.id in Defs(insts[l]);
      assert l < k && d in Defs(insts[k]);
    }
    forall st: State, env: Env ensures DeliveredFrom(insts, k, d, v, st, env) {
      if Straight(insts, k + 1, st, env).Some? { StoredValue(insts, j, k, st, env); }
    }
  }

  lemma AvailableStep(insts: seq<Inst>, k: nat, slot: string, v: Value)
    requires k < |insts| && Available(insts, k, slot, v) && !(insts[k].Store? && insts[k].slot == slot)
    ensures Available(insts, k + 1, slot, v)
  {
    var j :| 0 <= j < k && insts[j] == Store(v, slot) && forall n ::
      j < n < k ==> !(insts[n].Store? && insts[n].slot == slot);
  }

  lemma TableStep(insts: seq<Inst>, k: nat, table: Table)
    requires k < |insts| && TableOk(insts, k, table)
    ensures TableOk(insts, k + 1, NextTable(table, insts[k]))
  {
    var x := insts[k];
    var t := NextTable(table, x);
    if x.Store? { assert Available(insts, k + 1, x.slot, x.src); }
    forall s | s in t ensures Available(insts, k + 1, s, t[s]) {
      if !(x.Store? && x.slot == s) { AvailableStep(insts, k, s, t[s]); }
    }
  }

  lemma VisitRefines(blocks: seq<Block>, nextReg: nat, i: nat, k: nat, table: Table)
    requires WellFormed(blocks, nextReg) && i < |blocks| && k < |blocks[i].insts| && TableOk(blocks[i].insts, k, table)
    ensures var v := Visit(blocks, table, blocks[i].insts[k]);
      WellFormed(v, nextReg) && Refines(blocks, v) && v[i].insts[..k+1] == blocks[i].insts[..k+1]
  {
    var insts := blocks[i].insts;
    var x := insts[k];
    if x.Load? && x.slot in table {
      var v := table[x.slot];
      SingleDefsBlock(blocks, i);
      LoadDelivers(insts, k, v);
      ReplaceUsesRefines(blocks, nextReg, i, k, x.dst, v);
      forall n | 0 <= n <= k ensures ReplaceInst(insts[n], x.dst, v) == insts[n] {
        ReplaceShape(insts[n], x.dst, v);
        assert x.dst in UsedRegs(insts[n]) ==> DefinedBefore(insts, n, x.dst);
      }
    }
  }

  lemma TableOkPrefix(a: seq<Inst>, b: seq<Inst>, k: nat, table: Table)
    requires k <= |a| == |b| && a[..k] == b[..k] && TableOk(a, k, table)
    ensures TableOk(b, k, table)
  {
    forall s | s in table ensures Available(b, k, s, table[s]) {
      assert Available(a, k, s, table[s]);
      var j :| 0 <= j < k && a[j] == Store(table[s], s) && forall n :: j < n < k ==> !(a[n].Store? && a[n].slot == s);
      assert forall n :: 0 <= n < k ==> a[n] == a[..k][n] && b[n] == b[..k][n];
    }
  }

  /** Forwarding stored values to later loads of the same block keeps behaviour and form. */
  lemma {:induction false} ForwardRefines(blocks: seq<Block>, nextReg: nat, i: nat, k: nat, table: Table)
    requires WellFormed(blocks, nextReg) && i <= |blocks| && (i < |blocks| ==> k <= |blocks[i].insts|)
    requires i < |blocks| ==> TableOk(blocks[i].insts, k, table)
    ensures WellFormed(ForwardFrom(blocks, i, k, table), nextReg) && Refines(blocks, ForwardFrom(blocks, i, k, table))
    decreases |blocks| - i, if i < |blocks| then |blocks[i].insts| - k else 0
  {
    if i == |blocks| {
    } else if k == |blocks[i].insts| {
      ForwardRefines(blocks, nextReg, i + 1, 0, map[]);
    } else {
      var x := blocks[i].insts[k];
      var v := Visit(blocks, table, x);
      VisitRefines(blocks, nextReg, i, k, table);
      TableStep(blocks[i].insts, k, table);
      TableOkPrefix(blocks[i].insts, v[i].insts, k + 1, NextTable(table, x));
      ForwardRefines(v, nextReg, i, k + 1, NextTable(table, x));
      RefinesTrans(blocks, v, ForwardFrom(v, i, k + 1, NextTable(table, x)));
    }
  }
}
