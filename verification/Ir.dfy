// The quadruple IR of src/ir/ir.h on integers and booleans, and its small-step meaning.

module Options {
  datatype Option<+T> = None | Some(value: T)

  /** The values present, in order. */
  function Somes(options: seq<Option<nat>>): (r: seq<nat>)
    ensures forall v: nat :: v in r <==> Some(v) in options
  {
    if options == [] then []
    else
      var rest := Somes(options[1..]);
      assert options == [options[0]] + options[1..];
      (if options[0].Some? then [options[0].value] else []) + rest
  }
}

module Ir {
  import opened Options

  /** Run-time values. Integers are mathematical: constant folding works in 64 bits and never wraps to 32. */
  datatype Val = VInt(i: int) | VBool(b: bool)

  /** Operands (`IrValue`): literals, virtual registers and incoming parameters. */
  datatype Value = ConstInt(i: int) | ConstBool(b: bool) | Reg(id: nat) | Param(idx: nat)

  datatype BinOp = Add | Sub | Mul | Div | Mod | Eq | Ne | Lt | Le | Gt | Ge | And | Or
  datatype UnOp = Neg | Not

  /** One instruction. `Const` with a register operand is the copy that algebraic simplification leaves behind. */
  datatype Inst =
    | Alloca(slot: string)
    | Load(dst: nat, slot: string)
    | Store(src: Value, slot: string)
    | Const(dst: nat, src: Value)
    | Bin(op: BinOp, dst: nat, lhs: Value, rhs: Value)
    | Un(uop: UnOp, dst: nat, src: Value)
    | Call(result: Option<nat>, callee: string, args: seq<Value>)
    | Print(src: Value)
    | Br(target: nat)
    | CondBr(cond: Value, ifTrue: nat, ifFalse: nat)
    | Ret(val: Option<Value>)

  /** A basic block; `id` is its number, kept when the block list changes. */
  datatype Block = Block(id: nat, insts: seq<Inst>)

  predicate IsTerminator(i: Inst) { i.Br? || i.CondBr? || i.Ret? }

  /** The register an instruction defines, if any. */
  function Dst(i: Inst): Option<nat> {
    match i
    case Load(d, _) => Some(d)
    case Const(d, _) => Some(d)
    case Bin(_, d, _, _) => Some(d)
    case Un(_, d, _) => Some(d)
    case Call(r, _, _) => r
    case _ => None
  }

  function Defs(i: Inst): set<nat> { if Dst(i).Some? then {Dst(i).value} else {} }

  function Operands(i: Inst): seq<Value> {
    match i
    case Store(v, _) => [v]
    case Const(_, v) => [v]
    case Bin(_, _, l, r) => [l, r]
    case Un(_, _, v) => [v]
    case Call(_, _, args) => args
    case Print(v) => [v]
    case CondBr(c, _, _) => [c]
    case Ret(Some(v)) => [v]
    case _ => []
  }

  function UsedRegs(i: Inst): set<nat> { set v | v in Operands(i) && v.Reg? :: v.id }

  function Targets(i: Inst): seq<nat> {
    match i
    case Br(t) => [t]
    case CondBr(_, t, f) => [t, f]
    case _ => []
  }

  // ----- Meaning -----

  datatype Event = Printed(v: Val) | Called(callee: string, args: seq<Val>, result: Val)

  /** What the function is run against: its arguments, and the answers of the outside world to its calls, which may
      depend on everything observed so far. */
  datatype Env = Env(params: seq<Val>, world: (string, seq<Val>, seq<Event>) -> Val)

  datatype State = State(regs: map<nat, Val>, slots: map<string, Val>, trace: seq<Event>)

  datatype StepResult = Next(st: State) | Jump(target: nat, jst: State) | Return(v: Option<Val>, rst: State) | Trap

  function Eval(v: Value, st: State, env: Env): Option<Val> {
    match v
    case ConstInt(i) => Some(VInt(i))
    case ConstBool(b) => Some(VBool(b))
    case Reg(r) => if r in st.regs then Some(st.regs[r]) else None
    case Param(p) => if p < |env.params| then Some(env.params[p]) else None
  }

  function EvalAll(vs: seq<Value>, st: State, env: Env): Option<seq<Val>> {
    if vs == [] then Some([])
    else match Eval(vs[0], st, env)
      case None => None
      case Some(x) => match EvalAll(vs[1..], st, env)
        case None => None
        case Some(xs) => Some([x] + xs)
  }

  /** Division truncates toward zero, as in section 6.5.5 of ISO/IEC 9899:2011. */
  function TruncDiv(a: int, b: int): int
    requires b != 0
  {
    var q := Abs(a) / Abs(b);
    if (a < 0) == (b < 0) then q else -q
  }

  function TruncMod(a: int, b: int): int
    requires b != 0
  { a - b * TruncDiv(a, b) }

  function Abs(x: int): nat { if x < 0 then -x else x }

  /** None when the operation traps: a zero divisor, or operands of the wrong kind. */
  function BinVal(op: BinOp, a: Val, b: Val): Option<Val> {
    if a.VInt? && b.VInt? then
      match op
      case Add => Some(VInt(a.i + b.i))
      case Sub => Some(VInt(a.i - b.i))
      case Mul => Some(VInt(a.i * b.i))
      case Div => if b.i == 0 then None else Some(VInt(TruncDiv(a.i, b.i)))
      case Mod => if b.i == 0 then None else Some(VInt(TruncMod(a.i, b.i)))
      case Eq => Some(VBool(a.i == b.i))
      case Ne => Some(VBool(a.i != b.i))
      case Lt => Some(VBool(a.i < b.i))
      case Le => Some(VBool(a.i <= b.i))
      case Gt => Some(VBool(a.i > b.i))
      case Ge => Some(VBool(a.i >= b.i))
      case _ => None
    else if a.VBool? && b.VBool? then
      match op
      case Eq => Some(VBool(a.b == b.b))
      case Ne => Some(VBool(a.b != b.b))
      case And => Some(VBool(a.b && b.b))
      case Or => Some(VBool(a.b || b.b))
      case _ => None
    else None
  }

  function UnVal(op: UnOp, a: Val): Option<Val> {
    match op
    case Neg => if a.VInt? then Some(VInt(-a.i)) else None
    case Not => if a.VBool? then Some(VBool(!a.b)) else None
  }

  predicate Truthy(v: Val) { if v.VBool? then v.b else v.i != 0 }

  function SetReg(st: State, r: nat, v: Option<Val>): StepResult {
    if v.Some? then Next(st.(regs := st.regs[r := v.value])) else Trap
  }

  function Step(i: Inst, st: State, env: Env): StepResult {
    match i
    case Alloca(_) => Next(st)
    case Load(d, s) => SetReg(st, d, if s in st.slots then Some(st.slots[s]) else None)
    case Store(v, s) =>
      (match Eval(v, st, env) case Some(x) => Next(st.(slots := st.slots[s := x])) case None => Trap)
    case Const(d, v) => SetReg(st, d, Eval(v, st, env))
    case Bin(op, d, l, r) =>
      var (a, b) := (Eval(l, st, env), Eval(r, st, env));
      if a.Some? && b.Some? then SetReg(st, d, BinVal(op, a.value, b.value)) else Trap
    case Un(op, d, v) =>
      var a := Eval(v, st, env);
      if a.Some? then SetReg(st, d, UnVal(op, a.value)) else Trap
    case Call(d, f, args) =>
      (match EvalAll(args, st, env)
       case None => Trap
       case Some(xs) =>
         var res := env.world(f, xs, st.trace);
         var st' := st.(trace := st.trace + [Called(f, xs, res)]);
         Next(if d.Some? then st'.(regs := st'.regs[d.value := res]) else st'))
    case Print(v) =>
      (match Eval(v, st, env) case Some(x) => Next(st.(trace := st.trace + [Printed(x)])) case None => Trap)
    case Br(t) => Jump(t, st)
    case CondBr(c, t, f) =>
      (match Eval(c, st, env) case Some(x) => Jump(if Truthy(x) then t else f, st) case None => Trap)
    case Ret(None) => Return(None, st)
    case Ret(Some(v)) =>
      (match Eval(v, st, env) case Some(x) => Return(Some(x), st) case None => Trap)
  }

  /** Runs a stretch of instructions up to the first one that leaves it; falling off the end traps. */
  function Run(insts: seq<Inst>, st: State, env: Env): StepResult
    decreases |insts|
  {
    if insts == [] then Trap
    else match Step(insts[0], st, env)
      case Next(st') => Run(insts[1..], st', env)
      case r => r
  }

  function FindBlock(blocks: seq<Block>, id: nat): Option<Block> {
    if blocks == [] then None
    else if blocks[0].id == id then Some(blocks[0])
    else FindBlock(blocks[1..], id)
  }

  /** The observable result of a bounded run: where it is and what it has shown, or how it ended. */
  datatype Outcome =
    | Running(block: nat, slots: map<string, Val>, trace: seq<Event>)
    | Done(v: Option<Val>, trace: seq<Event>)
    | Stuck

  /** Runs at most `fuel` blocks, starting at the top of block `id`. */
  function Exec(blocks: seq<Block>, id: nat, st: State, env: Env, fuel: nat): Outcome
    decreases fuel
  {
    if fuel == 0 then Running(id, st.slots, st.trace)
    else match FindBlock(blocks, id)
      case None => Stuck
      case Some(b) => match Run(b.insts, st, env)
        case Jump(t, st') => Exec(blocks, t, st', env, fuel - 1)
        case Return(v, st') => Done(v, st'.trace)
        case _ => Stuck
  }

  const Fresh := State(map[], map[], [])

  /** A whole run: control enters at the first block with nothing computed yet. */
  function Start(blocks: seq<Block>, env: Env, fuel: nat): Outcome {
    if blocks == [] then Stuck else Exec(blocks, blocks[0].id, Fresh, env, fuel)
  }

  /** `tgt` behaves as `src` on every run of `src` that does not trap: after every number of blocks it is in the same
      block with the same slots and trace, and it ends, if it ends, with the same result. */
  ghost predicate Refines(src: seq<Block>, tgt: seq<Block>) {
    forall env: Env, fuel: nat :: !Start(src, env, fuel).Stuck? ==> Start(tgt, env, fuel) == Start(src, env, fuel)
  }

  lemma RefinesTrans(a: seq<Block>, b: seq<Block>, c: seq<Block>)
    requires Refines(a, b) && Refines(b, c)
    ensures Refines(a, c)
  {
    forall env: Env, fuel: nat | !Start(a, env, fuel).Stuck?
      ensures Start(c, env, fuel) == Start(a, env, fuel)
    { assert Start(b, env, fuel) == Start(a, env, fuel); }
  }

  // ----- Well-formedness -----

  /** ir_verify.c:352-387: a block is non-empty and its last instruction is its only terminator. */
  predicate BlockOk(b: Block) {
    && b.insts != []
    && forall k :: 0 <= k < |b.insts| ==> (IsTerminator(b.insts[k]) <==> k == |b.insts| - 1)
  }

  predicate UniqueIds(blocks: seq<Block>) {
    forall i, j :: 0 <= i < j < |blocks| ==> blocks[i].id != blocks[j].id
  }

  /** Same blocks in the same order, whatever they hold. */
  predicate SameIds(a: seq<Block>, b: seq<Block>) { |a| == |b| && forall i :: 0 <= i < |a| ==> a[i].id == b[i].id }

  predicate HasBlock(blocks: seq<Block>, id: nat) { exists i :: 0 <= i < |blocks| && blocks[i].id == id }

  /** ir_verify.c:258-288: the branch targets of every block are blocks of the function. */
  predicate TargetsExist(blocks: seq<Block>) {
    forall i, k, t :: 0 <= i < |blocks| && 0 <= k < |blocks[i].insts| && t in Targets(blocks[i].insts[k])
      ==> HasBlock(blocks, t)
  }

  /** The structural part of `ir_verify_function`. */
  predicate Verified(blocks: seq<Block>) {
    && blocks != []
    && (forall i :: 0 <= i < |blocks| ==> BlockOk(blocks[i]))
    && TargetsExist(blocks)
  }

  /** Register `r` is defined by instruction `k` of block `i`. */
  predicate DefinedAt(blocks: seq<Block>, i: int, k: int, r: nat) {
    0 <= i < |blocks| && 0 <= k < |blocks[i].insts| && r in Defs(blocks[i].insts[k])
  }

  /** Every register has at most one definition in the function. */
  ghost predicate SingleDefs(blocks: seq<Block>) {
    forall i, k, j, l, r :: DefinedAt(blocks, i, k, r) && DefinedAt(blocks, j, l, r) ==> i == j && k == l
  }

  /** The first `k` instructions define `r`. */
  ghost predicate DefinedBefore(insts: seq<Inst>, k: int, r: nat) {
    exists j :: 0 <= j < k && j < |insts| && r in Defs(insts[j])
  }

  /** Every register an instruction reads is defined earlier in the same block. */
  ghost predicate LocalUses(insts: seq<Inst>) {
    forall k, r :: 0 <= k < |insts| && r in UsedRegs(insts[k]) ==> DefinedBefore(insts, k, r)
  }

  /** The form `ir_lower` emits: verified, one definition per register, uses later in the defining block. */
  ghost predicate WellFormed(blocks: seq<Block>, nextReg: nat) {
    && Verified(blocks) && UniqueIds(blocks) && SingleDefs(blocks)
    && (forall i :: 0 <= i < |blocks| ==> LocalUses(blocks[i].insts))
    && (forall i, k, r: nat :: DefinedAt(blocks, i, k, r) ==> r < nextReg)
  }

  lemma {:induction false} FindBlockIs(blocks: seq<Block>, id: nat)
    ensures var f := FindBlock(blocks, id); f.Some? <==> HasBlock(blocks, id)
    ensures var f := FindBlock(blocks, id);
      f.Some? ==> exists i :: 0 <= i < |blocks| && blocks[i] == f.value && f.value.id == id
  {
    if blocks != [] && blocks[0].id != id {
      FindBlockIs(blocks[1..], id);
      assert forall i :: 0 < i < |blocks| ==> blocks[i] == blocks[1..][i-1];
    }
  }

  lemma {:induction false} FindBlockAt(blocks: seq<Block>, i: nat)
    requires UniqueIds(blocks) && i < |blocks|
    ensures FindBlock(blocks, blocks[i].id) == Some(blocks[i])
  {
    if i > 0 { FindBlockAt(blocks[1..], i - 1); }
  }
}
