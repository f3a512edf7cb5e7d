// Modules of functions in static single assignment form, with phis and calls between functions, and their meaning
// (src/ir/ir.h, src/ir/ir_ssa.c:464-700).

module SsaIr {
  import opened Options
  import opened Ir

  /** A phi and its incoming values, each with the predecessor block it is for. */
  datatype Phi = Phi(dst: nat, ins: seq<(nat, Value)>)

  /** A basic block: phis come first (ir_ssa.c:539-553). */
  datatype SsaBlock = SsaBlock(id: nat, phis: seq<Phi>, insts: seq<Inst>)

  /** The first block is the entry. */
  datatype Fn = Fn(name: string, params: nat, blocks: seq<SsaBlock>, nextReg: nat, nextBlock: nat)

  type Module = seq<Fn>

  /** The first function of that name, as `ir_callgraph_find_node` and `ir_module_find_function` find it. */
  function FindFn(m: Module, name: string): (r: Option<nat>)
    ensures r.Some? ==> r.value < |m| && m[r.value].name == name && forall j :: 0 <= j < r.value ==> m[j].name != name
    ensures r.None? ==> forall j :: 0 <= j < |m| ==> m[j].name != name
  {
    if m == [] then None
    else if m[0].name == name then Some(0)
    else
      var r := FindFn(m[1..], name);
      assert forall j :: 0 < j < |m| ==> m[j] == m[1..][j-1];
      if r.Some? then Some(r.value + 1) else None
  }

  function FindSsa(blocks: seq<SsaBlock>, id: nat): (r: Option<SsaBlock>)
    ensures r.Some? ==> r.value in blocks && r.value.id == id
    ensures r.None? ==> forall b :: b in blocks ==> b.id != id
  { if blocks == [] then None else if blocks[0].id == id then Some(blocks[0]) else FindSsa(blocks[1..], id) }

  predicate UniqueSsaIds(blocks: seq<SsaBlock>) {
    forall i, j :: 0 <= i < j < |blocks| ==> blocks[i].id != blocks[j].id
  }

  // ----- Meaning -----

  /** How an activation ends, within the fuel given: with a value and the trace of everything observed, or by
      trapping. */
  datatype Result = Ended(v: Option<Val>, trace: seq<Event>) | OutOfFuel | Trapped

  type World = (string, seq<Val>, seq<Event>) -> Val

  function Incoming(ins: seq<(nat, Value)>, pred: nat): Option<Value> {
    if ins == [] then None else if ins[0].0 == pred then Some(ins[0].1) else Incoming(ins[1..], pred)
  }

  /** The new register file after the phis of a block entered from `prev`: all are read before any is written. */
  function PhiRegs(phis: seq<Phi>, prev: Option<nat>, st: State, env: Env): Option<map<nat, Val>> {
    if phis == [] then Some(st.regs)
    else
      var p := phis[|phis|-1];
      var front := PhiRegs(phis[..|phis|-1], prev, st, env);
      if front.None? || prev.None? then None
      else match Incoming(p.ins, prev.value)
        case None => None
        case Some(v) => match Eval(v, st, env)
          case None => None
          case Some(x) => Some(front.value[p.dst := x])
  }

  /** Enters block `id` from block `prev`. */
  function RunBlock(m: Module, f: Fn, id: nat, prev: Option<nat>, st: State, env: Env, fuel: nat): Result
    decreases fuel, 0, 0
  {
    if fuel == 0 then OutOfFuel
    else match FindSsa(f.blocks, id)
      case None => Trapped
      case Some(b) => match PhiRegs(b.phis, prev, st, env)
        case None => Trapped
        case Some(regs) => RunInsts(m, f, id, b.insts, st.(regs := regs), env, fuel - 1)
  }

  /** Runs the rest of block `cur`. A call of a function of the module runs it; any other call asks the world. */
  function RunInsts(m: Module, f: Fn, cur: nat, insts: seq<Inst>, st: State, env: Env, fuel: nat): Result
    decreases fuel, 2, |insts|
  {
    if insts == [] then Trapped
    else if insts[0].Call? && FindFn(m, insts[0].callee).Some? then
      match EvalAll(insts[0].args, st, env)
      case None => Trapped
      case Some(xs) =>
        match CallFn(m, m[FindFn(m, insts[0].callee).value], xs, st.trace, env.world, fuel)
        case Ended(v, tr) =>
          (match Returned(insts[0].result, v, st.(trace := tr))
           case None => Trapped
           case Some(st') => RunInsts(m, f, cur, insts[1..], st', env, fuel))
        case r => r
    else match Step(insts[0], st, env)
      case Next(st') => RunInsts(m, f, cur, insts[1..], st', env, fuel)
      case Jump(t, st') => RunBlock(m, f, t, Some(cur), st', env, fuel)
      case Return(v, st') => Ended(v, st'.trace)
      case Trap => Trapped
  }

  /** The state of the caller after a call: a call that wants a result must get one. */
  function Returned(result: Option<nat>, v: Option<Val>, st: State): Option<State> {
    if result.None? then Some(st)
    else if v.None? then None
    else Some(st.(regs := st.regs[result.value := v.value]))
  }

  /** Runs function `f` on `args`, `tr` observed so far. */
  function CallFn(m: Module, f: Fn, args: seq<Val>, tr: seq<Event>, world: World, fuel: nat): Result
    decreases fuel, 1, 0
  {
    if f.blocks == [] then Trapped
    else RunBlock(m, f, f.blocks[0].id, None, State(map[], map[], tr), Env(args, world), fuel)
  }

  // ----- More fuel changes nothing once a run is over -----

  function Max(a: nat, b: nat): (r: nat)
    ensures r >= a && r >= b
  { if a < b then b else a }

  lemma {:induction false} MoreFuelInsts(m: Module, f: Fn, cur: nat, insts: seq<Inst>, st: State, env: Env, n: nat,
      k: nat)
    requires n <= k && !RunInsts(m, f, cur, insts, st, env, n).OutOfFuel?
    ensures RunInsts(m, f, cur, insts, st, env, k) == RunInsts(m, f, cur, insts, st, env, n)
    decreases n, 2, |insts|
  {
    if insts != [] {
      if insts[0].Call? && FindFn(m, insts[0].callee).Some? {
        match EvalAll(insts[0].args, st, env)
        case None =>
        case Some(xs) =>
          var g := m[FindFn(m, insts[0].callee).value];
          MoreFuelCall(m, g, xs, st.trace, env.world, n, k);
          match CallFn(m, g, xs, st.trace, env.world, n)
          case Ended(v, tr) =>
            var back := Returned(insts[0].result, v, st.(trace := tr));
            if back.Some? { MoreFuelInsts(m, f, cur, insts[1..], back.value, env, n, k); }
          case _ =>
      } else {
        match Step(insts[0], st, env)
        case Next(st') => MoreFuelInsts(m, f, cur, insts[1..], st', env, n, k);
        case Jump(t, st') => MoreFuelBlock(m, f, t, Some(cur), st', env, n, k);
        case _ =>
      }
    }
  }

  lemma {:induction false} MoreFuelBlock(m: Module, f: Fn, id: nat, prev: Option<nat>, st: State, env: Env, n: nat,
      k: nat)
    requires n <= k && !RunBlock(m, f, id, prev, st, env, n).OutOfFuel?
    ensures RunBlock(m, f, id, prev, st, env, k) == RunBlock(m, f, id, prev, st, env, n)
    decreases n, 0, 0
  {
    match FindSsa(f.blocks, id)
    case None =>
    case Some(b) =>
      match PhiRegs(b.phis, prev, st, env)
      case None =>
      case Some(regs) => MoreFuelInsts(m, f, id, b.insts, st.(regs := regs), env, n - 1, k - 1);
  }

  lemma {:induction false} MoreFuelCall(m: Module, f: Fn, args: seq<Val>, tr: seq<Event>, world: World, n: nat, k: nat)
    requires n <= k && !CallFn(m, f, args, tr, world, n).OutOfFuel?
    ensures CallFn(m, f, args, tr, world, k) == CallFn(m, f, args, tr, world, n)
    decreases n, 1, 0
  {
    if f.blocks != [] { MoreFuelBlock(m, f, f.blocks[0].id, None, State(map[], map[], tr), Env(args, world), n, k); }
  }
}
