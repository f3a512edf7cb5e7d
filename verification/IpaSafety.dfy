module InterproceduralSafety {
  // What the interprocedural results promise of runs: pure functions are quiet, and removing dead functions changes
  // nothing (src/ir/ir_ipa.c:285-360, 791-837).

  import opened Options
  import opened Ir
  import opened SsaIr
  import opened Graphs
  import opened CallGraphs
  import opened CallGraphBuild

  // ----- Purity -----

  /** Nothing function `i` can get to has an effect of its own. */
  ghost predicate Quiet(m: Module, i: nat) {
    forall w: nat :: w < |m| && Reach(GraphOf(CallsOf(m)), i, w) ==> Own(m, w) != SideEffecting
  }

  ghost predicate QuietInst(m: Module, i: Inst) {
    && !HasEffect(i)
    && (i.Call? ==> FindFn(m, i.callee).Some? && Quiet(m, FindFn(m, i.callee).value))
  }

  /** The same value, or the same kind of failure, with nothing observed on the way. */
  predicate Alike(r: Result, r': Result, tr: seq<Event>, tr': seq<Event>) {
    match r
    case Ended(v, t) => t == tr && r' == Ended(v, tr')
    case OutOfFuel => r'.OutOfFuel?
    case Trapped => r'.Trapped?
  }

  lemma NoEffect(blocks: seq<SsaBlock>, b: SsaBlock, k: nat)
    requires LocalPurity(blocks) != SideEffecting && b in blocks && k < |b.insts|
    ensures !HasEffect(b.insts[k])
  {
    var j :| 0 <= j < |blocks| && blocks[j] == b;
    assert !BlockHas(blocks[j], true);
    assert !InstHas(b.insts[k], true);
  }

  lemma QuietCode(m: Module, i: nat, b: SsaBlock, k: nat)
    requires i < |m| && Quiet(m, i) && b in m[i].blocks && k < |b.insts|
    ensures QuietInst(m, b.insts[k])
  {
    var inst, g := b.insts[k], GraphOf(CallsOf(m));
    ReachSelf(g, i);
    assert Own(m, i) != SideEffecting;
    NoEffect(m[i].blocks, b, k);
    if inst.Call? {
      var c := FindFn(m, inst.callee);
      assert HasCall(m, m[i].blocks, c);
      SitesAreCalls(m, m[i].blocks, c);
      assert c != None;
      CallEdges(CallsOf(m), i, c.value);
      CallsInModule(m);
      ValidCalls(CallsOf(m));
      ReachStep(g, i, i, c.value);
      forall w: nat | w < |m| && Reach(g, c.value, w)
        ensures Own(m, w) != SideEffecting
      {
        ReachTrans(g, i, c.value, w);
      }
    }
  }

  /** Two states that differ only in what has been observed. */
  predicate SameStore(st: State, st': State) { st.regs == st'.regs && st.slots == st'.slots }

  lemma QuietStep(inst: Inst, st: State, st': State, env: Env, env': Env)
    requires !HasEffect(inst) && !inst.Call? && SameStore(st, st') && env.params == env'.params
    ensures var r, r' := Step(inst, st, env), Step(inst, st', env');
      match r
      case Next(a) => r'.Next? && SameStore(a, r'.st) && a.trace == st.trace && r'.st.trace == st'.trace
      case Jump(t, a) =>
        r'.Jump? && t == r'.target && SameStore(a, r'.jst) && a.trace == st.trace && r'.jst.trace == st'.trace
      case Return(v, a) => r'.Return? && v == r'.v && a.trace == st.trace && r'.rst.trace == st'.trace
      case Trap => r'.Trap?
  { assert forall v :: Eval(v, st, env) == Eval(v, st', env'); }

  lemma {:induction false} SameArgs(vs: seq<Value>, st: State, st': State, env: Env, env': Env)
    requires SameStore(st, st') && env.params == env'.params
    ensures EvalAll(vs, st, env) == EvalAll(vs, st', env')
  { if vs != [] { SameArgs(vs[1..], st, st', env, env'); } }

  lemma {:induction false} SamePhis(phis: seq<Phi>, prev: Option<nat>, st: State, st': State, env: Env, env': Env)
    requires SameStore(st, st') && env.params == env'.params
    ensures PhiRegs(phis, prev, st, env) == PhiRegs(phis, prev, st', env')
  { if phis != [] { SamePhis(phis[..|phis|-1], prev, st, st', env, env'); } }

  lemma {:induction false} QuietInsts(m: Module, i: nat, cur: nat, insts: seq<Inst>, st: State, st': State, env: Env,
      env': Env, fuel: nat)
    requires i < |m| && (forall k :: 0 <= k < |insts| ==> QuietInst(m, insts[k])) && Quiet(m, i)
    requires SameStore(st, st') && env.params == env'.params
    ensures Alike(RunInsts(m, m[i], cur, insts, st, env, fuel), RunInsts(m, m[i], cur, insts, st', env', fuel),
      st.trace, st'.trace)
    decreases fuel, 2, |insts|
  {
    hide Quiet;
    hide HasEffect;
    if insts != [] {
      assert QuietInst(m, insts[0]);
      if insts[0].Call? {
        SameArgs(insts[0].args, st, st', env, env');
        if EvalAll(insts[0].args, st, env).Some? {
          var g := FindFn(m, insts[0].callee).value;
          var xs := EvalAll(insts[0].args, st, env).value;
          QuietCall(m, g, xs, st.trace, st'.trace, env.world, env'.world, fuel);
          var r := CallFn(m, m[g], xs, st.trace, env.world, fuel);
          if r.Ended? && Returned(insts[0].result, r.v, st.(trace := r.trace)).Some? {
            QuietInsts(m, i, cur, insts[1..], Returned(insts[0].result, r.v, st).value,
              Returned(insts[0].result, r.v, st').value, env, env', fuel);
          }
        }
      } else {
        QuietStep(insts[0], st, st', env, env');
        var r, r' := Step(insts[0], st, env), Step(insts[0], st', env');
        if r.Next? { QuietInsts(m, i, cur, insts[1..], r.st, r'.st, env, env', fuel); }
        if r.Jump? { QuietBlock(m, i, r.target, Some(cur), r.jst, r'.jst, env, env', fuel); }
      }
    }
  }

  lemma {:induction false} QuietBlock(m: Module, i: nat, id: nat, prev: Option<nat>, st: State, st': State, env: Env,
      env': Env, fuel: nat)
    requires i < |m| && Quiet(m, i) && SameStore(st, st') && env.params == env'.params
    ensures Alike(RunBlock(m, m[i], id, prev, st, env, fuel), RunBlock(m, m[i], id, prev, st', env', fuel), st.trace,
      st'.trace)
    decreases fuel, 0, 0
  {
    hide Quiet;
    var b := FindSsa(m[i].blocks, id);
    if fuel > 0 && b.Some? {
      SamePhis(b.value.phis, prev, st, st', env, env');
      var regs := PhiRegs(b.value.phis, prev, st, env);
      if regs.Some? {
        forall k | 0 <= k < |b.value.insts| ensures QuietInst(m, b.value.insts[k]) { QuietCode(m, i, b.value, k); }
        QuietInsts(m, i, id, b.value.insts, st.(regs := regs.value), st'.(regs := regs.value), env, env', fuel - 1);
      }
    }
  }

  lemma {:induction false} QuietCall(m: Module, i: nat, args: seq<Val>, tr: seq<Event>, tr': seq<Event>, world: World,
      world': World, fuel: nat)
    requires i < |m| && Quiet(m, i)
    ensures Alike(CallFn(m, m[i], args, tr, world, fuel), CallFn(m, m[i], args, tr', world', fuel), tr, tr')
    decreases fuel, 1, 0
  {
    hide Quiet;
    if m[i].blocks != [] {
      QuietBlock(m, i, m[i].blocks[0].id, None, State(map[], map[], tr), State(map[], map[], tr'), Env(args, world),
        Env(args, world'), fuel);
    }
  }

  /** A function that is not classed as side-effecting prints nothing and asks the world nothing, and what it returns
      depends on its arguments alone. */
  lemma PureRunsQuietly(m: Module, i: nat, p: Purity, args: seq<Val>, tr: seq<Event>, tr': seq<Event>, world: World,
      world': World, fuel: nat)
    requires i < |m| && PurityIs(m, i, p) && p != SideEffecting
    ensures Alike(CallFn(m, m[i], args, tr, world, fuel), CallFn(m, m[i], args, tr', world', fuel), tr, tr')
  {
    assert Quiet(m, i);
    QuietCall(m, i, args, tr, tr', world, world', fuel);
  }

  // ----- Dead functions -----

  /** Kept by dead function elimination: the entry, and what the entry can call; everything when there is no entry. The
      node consulted is the first one of that name. */
  ghost predicate Live(m: Module, name: string) {
    var (node, entry) := (FindFn(m, name), FindFn(m, MAIN));
    node.Some? && (name == MAIN || entry.None? || Reach(GraphOf(CallsOf(m)), entry.value, node.value))
  }

  /** The functions kept, in their order. */
  ghost function Kept(m: Module, fns: Module): Module {
    if fns == [] then []
    else Kept(m, fns[..|fns|-1]) + if Live(m, fns[|fns|-1].name) then [fns[|fns|-1]] else []
  }

  /** Unlinks every function that is neither an entry nor reachable from one. */
  method EliminateDead(m: Module) returns (kept: Module, removed: nat)
    requires OneMain(m)
    ensures kept == Kept(m, m) && removed == |m| - |kept|
  {
    hide *;
    var cg := new CallGraph(m);
    var isEntry, isReachable := cg.isEntry, cg.isReachable;
    assert |isEntry| == |isReachable| == |m|;
    kept, removed := [], 0;
    KeptStart(m);
    var i := 0;
    while i < |m|
      invariant 0 <= i <= |m| && kept == Kept(m, m[..i]) && removed == i - |kept|
    {
      var node := FindFn(m, m[i].name);
      LiveIs(m, m[i].name);
      KeptStep(m, i);
      if node.Some? && !isEntry[node.value] && !isReachable[node.value] {
        removed := removed + 1;
      } else {
        kept := kept + [m[i]];
      }
      i := i + 1;
    }
    assert m[..i] == m;
  }

  lemma KeptStart(m: Module)
    ensures Kept(m, m[..0]) == []
  {}

  lemma LiveIs(m: Module, name: string)
    ensures var (node, entry) := (FindFn(m, name), FindFn(m, MAIN));
      && (Live(m, name) <==>
        node.Some? && (name == MAIN || entry.None? || Reach(GraphOf(CallsOf(m)), entry.value, node.value)))
      && (node.Some? ==> node.value < |m| && m[node.value].name == name)
  {}

  lemma KeptStep(m: Module, i: nat)
    requires i < |m|
    ensures Kept(m, m[..i+1]) == Kept(m, m[..i]) + if Live(m, m[i].name) then [m[i]] else []
  {
    hide Live;
    hide FindFn;
    hide CallsOf;
    KeptLast(m, m[..i+1]);
    assert m[..i+1][..i] == m[..i];
  }

  lemma KeptLast(m: Module, fns: Module)
    requires fns != []
    ensures Kept(m, fns) == Kept(m, fns[..|fns|-1]) + if Live(m, fns[|fns|-1].name) then [fns[|fns|-1]] else []
  { hide Live; }

  /** Exactly the live functions are kept. */
  lemma {:induction false} KeptExactly(m: Module, fns: Module, f: Fn)
    ensures f in Kept(m, fns) <==> f in fns && Live(m, f.name)
  {
    if fns != [] {
      KeptExactly(m, fns[..|fns|-1], f);
      assert fns == fns[..|fns|-1] + [fns[|fns|-1]];
    }
  }

  lemma FindLast(m: Module, f: Fn, name: string)
    ensures FindFn(m + [f], name) == if FindFn(m, name).Some?
      then FindFn(m, name)
      else if f.name == name then Some(|m|) else None
  {
    var r := FindFn(m + [f], name);
    assert forall j :: 0 <= j < |m| ==> (m + [f])[j] == m[j];
    assert (m + [f])[|m|] == f;
  }

  /** A live name still finds the same function, and a dead one finds none. */
  lemma {:induction false} KeptFinds(m: Module, fns: Module, name: string)
    ensures var (a, b) := (FindFn(fns, name), FindFn(Kept(m, fns), name));
      if a.Some? && Live(m, name) then b.Some? && Kept(m, fns)[b.value] == fns[a.value] else b.None?
  {
    hide Live;
    hide FindFn;
    if fns == [] {
      NothingFound(name);
    } else {
      var front, last := fns[..|fns|-1], fns[|fns|-1];
      KeptFinds(m, front, name);
      assert fns == front + [last];
      FindLast(front, last, name);
      FindLast(Kept(m, front), last, name);
      assert Kept(m, fns) == Kept(m, front) + if Live(m, last.name) then [last] else [];
      assert !Live(m, last.name) ==> Kept(m, fns) == Kept(m, front);
    }
  }

  lemma NothingFound(name: string)
    ensures FindFn([], name).None?
  {}

  ghost predicate LiveInst(m: Module, i: Inst) { i.Call? && FindFn(m, i.callee).Some? ==> Live(m, i.callee) }

  lemma LiveCode(m: Module, i: nat, b: SsaBlock, k: nat)
    requires i < |m| && Live(m, m[i].name) && FindFn(m, m[i].name) == Some(i) && b in m[i].blocks && k < |b.insts|
    ensures LiveInst(m, b.insts[k])
  {
    var inst, g, entry := b.insts[k], GraphOf(CallsOf(m)), FindFn(m, MAIN);
    if inst.Call? && FindFn(m, inst.callee).Some? && entry.Some? {
      var c := FindFn(m, inst.callee);
      assert HasCall(m, m[i].blocks, c);
      SitesAreCalls(m, m[i].blocks, c);
      CallEdges(CallsOf(m), i, c.value);
      CallsInModule(m);
      ValidCalls(CallsOf(m));
      ReachSelf(g, entry.value);
      ReachStep(g, entry.value, i, c.value);
    }
  }


  /** Function `i` of the module is live, and is what its name finds. */
  ghost predicate LiveFn(m: Module, i: nat) { i < |m| && Live(m, m[i].name) && FindFn(m, m[i].name) == Some(i) }

  lemma {:induction false} KeptInsts(m: Module, i: nat, cur: nat, insts: seq<Inst>, st: State, env: Env, fuel: nat)
    requires LiveFn(m, i) && forall k :: 0 <= k < |insts| ==> LiveInst(m, insts[k])
    ensures RunInsts(Kept(m, m), m[i], cur, insts, st, env, fuel) == RunInsts(m, m[i], cur, insts, st, env, fuel)
    decreases fuel, 2, |insts|
  {
    hide Live;
    hide Kept;
    if insts != [] {
      var kept := Kept(m, m);
      if insts[0].Call? {
        var name, xs := insts[0].callee, EvalAll(insts[0].args, st, env);
        assert LiveInst(m, insts[0]);
        KeptFinds(m, m, name);
        var g := FindFn(m, name);
        if g.Some? {
          if xs.Some? {
            KeptCall(m, g.value, xs.value, st.trace, env.world, fuel);
            var r := CallFn(m, m[g.value], xs.value, st.trace, env.world, fuel);
            if r.Ended? && Returned(insts[0].result, r.v, st.(trace := r.trace)).Some? {
              KeptInsts(m, i, cur, insts[1..], Returned(insts[0].result, r.v, st.(trace := r.trace)).value, env, fuel);
            }
          }
        } else {
          var r := Step(insts[0], st, env);
          if r.Next? { KeptInsts(m, i, cur, insts[1..], r.st, env, fuel); }
        }
      } else {
        var r := Step(insts[0], st, env);
        if r.Next? { KeptInsts(m, i, cur, insts[1..], r.st, env, fuel); }
        if r.Jump? { KeptBlock(m, i, r.target, Some(cur), r.jst, env, fuel); }
      }
    }
  }

  lemma {:induction false} KeptBlock(m: Module, i: nat, id: nat, prev: Option<nat>, st: State, env: Env, fuel: nat)
    requires LiveFn(m, i)
    ensures RunBlock(Kept(m, m), m[i], id, prev, st, env, fuel) == RunBlock(m, m[i], id, prev, st, env, fuel)
    decreases fuel, 0, 0
  {
    hide Live;
    hide Kept;
    var b := FindSsa(m[i].blocks, id);
    if fuel > 0 && b.Some? {
      var regs := PhiRegs(b.value.phis, prev, st, env);
      if regs.Some? {
        forall k | 0 <= k < |b.value.insts| ensures LiveInst(m, b.value.insts[k]) { LiveCode(m, i, b.value, k); }
        KeptInsts(m, i, id, b.value.insts, st.(regs := regs.value), env, fuel - 1);
      }
    }
  }

  /** Whatever the entry can call runs in the smaller module exactly as in the whole one, from the entry on. */
  lemma {:induction false} KeptCall(m: Module, i: nat, args: seq<Val>, tr: seq<Event>, world: World, fuel: nat)
    requires LiveFn(m, i)
    ensures CallFn(Kept(m, m), m[i], args, tr, world, fuel) == CallFn(m, m[i], args, tr, world, fuel)
    decreases fuel, 1, 0
  {
    hide Live;
    hide Kept;
    if m[i].blocks != [] { KeptBlock(m, i, m[i].blocks[0].id, None, State(map[], map[], tr), Env(args, world), fuel); }
  }

  // ----- What the classes mean -----

  /** Has an effect: prints or stores, or calls the runtime or what the module does not have. */
  predicate Acts(m: Module, x: Inst) {
    || x.Print? || x.Store?
    || (x.Call? && (x.callee in {"printf", "malloc", "free", "exit"} || FindFn(m, x.callee).None?))
  }

  ghost predicate SomeAct(m: Module, i: nat)
    requires i < |m|
  { exists b, x :: b in m[i].blocks && x in b.insts && Acts(m, x) }

  ghost predicate SomeLoad(m: Module, i: nat)
    requires i < |m|
  { exists b, x :: b in m[i].blocks && x in b.insts && x.Load? }

  lemma BlocksHold(blocks: seq<SsaBlock>, effects: bool)
    ensures (exists j :: 0 <= j < |blocks| && BlockHas(blocks[j], effects)) <==>
      exists b, x :: b in blocks && x in b.insts && InstHas(x, effects)
  {
    if j :| 0 <= j < |blocks| && BlockHas(blocks[j], effects) {
      var k :| 0 <= k < |blocks[j].insts| && InstHas(blocks[j].insts[k], effects);
      assert blocks[j] in blocks && blocks[j].insts[k] in blocks[j].insts;
    }
    if b, x :| b in blocks && x in b.insts && InstHas(x, effects) {
      var j :| 0 <= j < |blocks| && blocks[j] == b;
      var k :| 0 <= k < |b.insts| && b.insts[k] == x;
      assert BlockHas(blocks[j], effects);
    }
  }

  lemma EffectActs(m: Module, x: Inst)
    ensures Acts(m, x) <==> InstHas(x, true) || (x.Call? && FindFn(m, x.callee) == None)
    ensures InstHas(x, false) <==> x.Load?
  {}

  lemma OwnIs(m: Module, i: nat)
    requires i < |m|
    ensures Own(m, i).SideEffecting? <==> SomeAct(m, i)
    ensures Own(m, i).Pure? <==> !SomeAct(m, i) && !SomeLoad(m, i)
  {
    SitesAreCalls(m, m[i].blocks, None);
    BlocksHold(m[i].blocks, true);
    BlocksHold(m[i].blocks, false);
    hide FindFn;
    hide BlockHas;
    hide InstHas;
    hide Acts;
    hide SitesOfBlocks;
    forall x ensures (Acts(m, x) <==> InstHas(x, true) || (x.Call? && FindFn(m, x.callee) == None))
      && (InstHas(x, false) <==> x.Load?)
    {
      EffectActs(m, x);
    }
  }

  /** A function is side-effecting exactly when it can get by calls to an instruction that acts, and pure exactly when
      it can get to none that acts or loads. */
  lemma ClassExactlyWhen(m: Module, i: nat, p: Purity)
    requires i < |m| && PurityIs(m, i, p)
    ensures p.SideEffecting? <==> exists w: nat :: w < |m| && Reach(GraphOf(CallsOf(m)), i, w) && SomeAct(m, w)
    ensures p.Pure? <==>
      forall w: nat :: w < |m| && Reach(GraphOf(CallsOf(m)), i, w) ==> !SomeAct(m, w) && !SomeLoad(m, w)
  {
    hide Own;
    hide Reach;
    hide SomeAct;
    hide SomeLoad;
    hide GraphOf;
    hide CallsOf;
    forall w: nat | w < |m| ensures (Own(m, w).SideEffecting? <==> SomeAct(m, w))
      && (Own(m, w).Pure? <==> !SomeAct(m, w) && !SomeLoad(m, w))
    {
      OwnIs(m, w);
    }
  }
}
