// The caller after inlining runs as before (src/ir/ir_ipa.c:428-664): a run of it and a run of what it has become go
// from block to block together, with the same registers but for the result of the call, which another value may
// stand for.

module InlineSafety {
  import opened Options
  import opened Ir
  import opened SsaIr
  import opened Graphs
  import opened Dominators
  import opened Inlining
  import opened InlineStructure
  import opened InlineCopies

  function Entry(s: Site): nat
    requires Ready(s)
  { s.caller.blocks[0].id }

  /** At instruction `q` of block `c` the call has been made on every run that gets there. */
  ghost predicate InZone(s: Site, c: nat, q: int)
    requires Ready(s) && c < |s.caller.blocks|
  { if c == s.bi then q > s.k else BlockDom(s.caller, s.Block().id, s.caller.blocks[c].id) }

  function Final(s: Site): Value
    requires s.Valid() && s.Replaced()
  { s.AllReturns()[0].1 }

  /** The value that replaces the result: the result itself, held by something no instruction in the zone changes. */
  ghost predicate FinalGood(s: Site, st: State, t: State, env: Env)
    requires s.Valid() && s.Replaced()
  {
    && s.Call().result.value in st.regs && Eval(Final(s), t, env) == Some(st.regs[s.Call().result.value])
    && (Final(s).Reg? ==> Final(s).id >= s.caller.nextReg || Final(s) in s.Call().args)
  }

  /** The caller before inlining in state `st` and after inlining in state `t`. */
  ghost predicate Rel(s: Site, st: State, t: State, env: Env)
    requires s.Valid()
  {
    && t.slots == st.slots && t.trace == st.trace
    && (forall r: nat :: r in st.regs ==> r < s.caller.nextReg)
    && (forall r: nat ::
      r in st.regs && !(s.Replaced() && s.Call().result == Some(r)) ==> r in t.regs && t.regs[r] == st.regs[r])
  }

  ghost predicate RelAt(s: Site, st: State, t: State, env: Env, c: nat, q: int)
    requires Ready(s) && c < |s.caller.blocks|
  { Rel(s, st, t, env) && (s.Replaced() && InZone(s, c, q) ==> FinalGood(s, st, t, env)) }

  ghost predicate Reached(s: Site, c: nat)
    requires Ready(s) && c < |s.caller.blocks|
  { Reachable(s.caller, s.caller.blocks[c].id) }

  // ----- Definitions and uses -----

  /** Where the call is reached, its arguments have been defined before it. */
  lemma CallArgs(s: Site)
    requires Ready(s) && Reached(s, s.bi)
    ensures ArgsOk(s)
  {
    var f, c := s.caller, s.Call();
    if c.result.Some? { assert DefAt(f, s.bi, s.k, c.result.value); }
    forall v | v in c.args && v.Reg? ensures v.id < f.nextReg && c.result != Some(v.id) {
      assert v in Operands(c) && v.id in UsedRegs(f.blocks[s.bi].insts[s.k]);
      assert UseOk(f, s.bi, s.k, v.id);
      var i: nat, pos: int :| DefAt(f, i, pos, v.id) && Before(f, i, pos, s.bi, s.k);
    }
  }

  lemma ResultDef(s: Site, i: nat, pos: int)
    requires Ready(s) && s.Call().result.Some? && DefAt(s.caller, i, pos, s.Call().result.value)
    ensures i == s.bi && pos == s.k
  { assert DefAt(s.caller, s.bi, s.k, s.Call().result.value); }

  /** Whatever uses the result is in the zone. */
  lemma UseInZone(s: Site, c: nat, q: nat)
    requires Ready(s) && c < |s.caller.blocks| && Reached(s, c) && q < |s.caller.blocks[c].insts|
      && s.Call().result.Some?
    requires s.Call().result.value in UsedRegs(s.caller.blocks[c].insts[q])
    ensures InZone(s, c, q)
  {
    var d := s.Call().result.value;
    assert UseOk(s.caller, c, q, d);
    var i: nat, pos: int :| DefAt(s.caller, i, pos, d) && Before(s.caller, i, pos, c, q);
    ResultDef(s, i, pos);
  }

  /** Nothing in the zone defines the result or what replaces it. */
  lemma ZoneKeeps(s: Site, c: nat, q: int, r: nat, v: Value)
    requires Ready(s) && c < |s.caller.blocks| && InZone(s, c, q) && Reached(s, c) && DefAt(s.caller, c, q, r)
    requires v.Reg? ==> v.id >= s.caller.nextReg || v in s.Call().args
    ensures v != Reg(r) && s.Call().result != Some(r)
  {
    if s.Call().result == Some(r) { ResultDef(s, c, q); }
    if v == Reg(r) && v in s.Call().args {
      if c != s.bi { DomReachable(Cfg(s.caller), Entry(s), s.Block().id, s.caller.blocks[c].id); }
      ArgDefinedBefore(s, c, q, r);
      if c != s.bi { Crossing(s, c); }
    }
  }

  lemma ArgDefinedBefore(s: Site, c: nat, q: int, r: nat)
    requires Ready(s) && Reached(s, s.bi) && Reg(r) in s.Call().args && DefAt(s.caller, c, q, r)
    ensures Before(s.caller, c, q, s.bi, s.k)
  {
    assert Reg(r) in Operands(s.Call()) && r in UsedRegs(s.Call());
    assert UseOk(s.caller, s.bi, s.k, r);
    var i: nat, pos: int :| DefAt(s.caller, i, pos, r) && Before(s.caller, i, pos, s.bi, s.k);
    assert i == c && pos == q;
  }

  /** Blocks that dominate each other are one. */
  lemma Crossing(s: Site, c: nat)
    requires Ready(s) && c < |s.caller.blocks| && Reached(s, c)
    requires BlockDom(s.caller, s.Block().id, s.caller.blocks[c].id)
      && BlockDom(s.caller, s.caller.blocks[c].id, s.Block().id)
    ensures c == s.bi
  {
    DomAntisymmetric(Cfg(s.caller), Entry(s), s.caller.blocks[c].id, s.Block().id);
    assert s.caller.blocks[c].id == s.caller.blocks[s.bi].id;
  }

  // ----- One step -----

  ghost predicate Usable(s: Site, v: Value, st: State, t: State, env: Env)
    requires s.Valid()
  { s.Replaced() && v == Reg(s.Call().result.value) ==> FinalGood(s, st, t, env) }

  lemma UseIs(s: Site, v: Value, st: State, t: State, env: Env)
    requires s.Valid() && Rel(s, st, t, env) && Eval(v, st, env).Some? && Usable(s, v, st, t, env)
    ensures Eval(s.Subst(v), t, env) == Eval(v, st, env)
  {}

  /** The operands of an instruction, when the ones that are the result may be used. */
  ghost predicate UsesReady(s: Site, i: Inst, st: State, t: State, env: Env)
    requires s.Valid()
  { Rel(s, st, t, env) && forall v :: v in Operands(i) ==> Usable(s, v, st, t, env) }

  lemma {:induction false} UseAll(s: Site, vs: seq<Value>, st: State, t: State, env: Env)
    requires s.Valid() && Rel(s, st, t, env) && EvalAll(vs, st, env).Some?
    requires forall v :: v in vs ==> Usable(s, v, st, t, env)
    ensures EvalAll(s.SubstAll(vs), t, env) == EvalAll(vs, st, env)
  {
    hide Rel;
    hide Usable;
    if vs != [] {
      assert vs[0] in vs;
      UseIs(s, vs[0], st, t, env);
      UseAll(s, vs[1..], st, t, env);
      assert s.SubstAll(vs)[1..] == s.SubstAll(vs[1..]);
    }
  }

  /** The register an instruction sets, if any, and the value. */
  lemma Set(s: Site, st: State, t: State, env: Env, r: nat, x: Val)
    requires s.Valid() && Rel(s, st, t, env) && r < s.caller.nextReg
    ensures Rel(s, st.(regs := st.regs[r := x]), t.(regs := t.regs[r := x]), env)
  {}

  lemma Outside(s: Site, st: State, t: State, env: Env)
    requires s.Valid() && Rel(s, st, t, env)
    ensures t.slots == st.slots && t.trace == st.trace
  {}

  lemma Stored(s: Site, st: State, t: State, env: Env, l: string, x: Val)
    requires s.Valid() && Rel(s, st, t, env)
    ensures Rel(s, st.(slots := st.slots[l := x]), t.(slots := t.slots[l := x]), env)
  {}

  lemma Told(s: Site, st: State, t: State, env: Env, tr: seq<Event>)
    requires s.Valid() && Rel(s, st, t, env)
    ensures Rel(s, st.(trace := tr), t.(trace := tr), env)
  {}

  lemma StepSame(s: Site, i: Inst, st: State, t: State, env: Env)
    requires s.Valid() && UsesReady(s, i, st, t, env) && (Dst(i).Some? ==> Dst(i).value < s.caller.nextReg)
    ensures var a, b := Step(i, st, env), Step(s.SubstInst(i), t, env);
      && (a.Next? ==> b.Next? && Rel(s, a.st, b.st, env))
      && (a.Jump? ==> a.jst == st && b == Jump(a.target, t))
      && (a.Return? ==> a.rst == st && b == Return(a.v, t))
  {
    hide s.Subst;
    hide Usable;
    hide Rel;
    hide BinVal;
    Outside(s, st, t, env);
    match i
    case Alloca(_) =>
    case Load(d, l) => if l in st.slots { Set(s, st, t, env, d, st.slots[l]); }
    case Store(v, l) =>
      if Eval(v, st, env).Some? { UseIs(s, v, st, t, env); Stored(s, st, t, env, l, Eval(v, st, env).value); }
    case Const(d, v) =>
      if Eval(v, st, env).Some? { UseIs(s, v, st, t, env); Set(s, st, t, env, d, Eval(v, st, env).value); }
    case Bin(op, d, l, r) => BinSame(s, op, d, l, r, st, t, env);
    case Un(op, d, v) =>
      if Eval(v, st, env).Some? {
        UseIs(s, v, st, t, env);
        var x := UnVal(op, Eval(v, st, env).value);
        if x.Some? { Set(s, st, t, env, d, x.value); }
      }
    case Call(d, f, args) => CallSame(s, d, f, args, st, t, env);
    case Print(v) =>
      if Eval(v, st, env).Some? {
        UseIs(s, v, st, t, env);
        Told(s, st, t, env, st.trace + [Printed(Eval(v, st, env).value)]);
      }
    case Br(_) =>
    case CondBr(c, _, _) => if Eval(c, st, env).Some? { UseIs(s, c, st, t, env); }
    case Ret(v) => if v.Some? && Eval(v.value, st, env).Some? { UseIs(s, v.value, st, t, env); }
  }

  lemma BinSame(s: Site, op: BinOp, d: nat, l: Value, r: Value, st: State, t: State, env: Env)
    requires s.Valid() && UsesReady(s, Bin(op, d, l, r), st, t, env) && d < s.caller.nextReg
    ensures var i := Bin(op, d, l, r); var a, b := Step(i, st, env), Step(s.SubstInst(i), t, env);
      a.Next? ==> b.Next? && Rel(s, a.st, b.st, env)
  {
    hide s.Subst;
    hide Usable;
    hide Rel;
    hide BinVal;
    assert Operands(Bin(op, d, l, r))[0] == l && Operands(Bin(op, d, l, r))[1] == r;
    var x, y := Eval(l, st, env), Eval(r, st, env);
    if x.Some? && y.Some? {
      UseIs(s, l, st, t, env);
      UseIs(s, r, st, t, env);
      var z := BinVal(op, x.value, y.value);
      if z.Some? { Set(s, st, t, env, d, z.value); }
    }
  }

  lemma CallSame(s: Site, d: Option<nat>, f: string, args: seq<Value>, st: State, t: State, env: Env)
    requires s.Valid() && UsesReady(s, Inst.Call(d, f, args), st, t, env) && (d.Some? ==> d.value < s.caller.nextReg)
    ensures var i := Inst.Call(d, f, args); var a, b := Step(i, st, env), Step(s.SubstInst(i), t, env);
      a.Next? ==> b.Next? && Rel(s, a.st, b.st, env)
  {
    hide s.Subst;
    hide Usable;
    hide Rel;
    Outside(s, st, t, env);
    if EvalAll(args, st, env).Some? {
      UseAll(s, args, st, t, env);
      var xs := EvalAll(args, st, env).value;
      var res := env.world(f, xs, st.trace);
      var tr := st.trace + [Called(f, xs, res)];
      Told(s, st, t, env, tr);
      if d.Some? { Set(s, st.(trace := tr), t.(trace := tr), env, d.value, res); }
    }
  }

  /** Only the register an instruction defines changes. */
  ghost predicate Moved(i: Inst, st: State, st': State) {
    forall r: nat ::
      Dst(i) != Some(r) ==> (r in st'.regs <==> r in st.regs) && (r in st.regs ==> st'.regs[r] == st.regs[r])
  }

  lemma StepMoves(s: Site, i: Inst, st: State, env: Env)
    requires s.Valid()
    ensures Step(i, st, env).Next? ==> Moved(i, st, Step(i, st, env).st)
    ensures Dst(s.SubstInst(i)) == Dst(i)
  {}

  lemma FinalMoved(s: Site, i: Inst, st: State, t: State, st': State, t': State, env: Env)
    requires s.Valid() && s.Replaced() && FinalGood(s, st, t, env) && Moved(i, st, st') && Moved(i, t, t')
    requires Dst(i).Some? ==> Final(s) != Reg(Dst(i).value) && s.Call().result != Dst(i)
    ensures FinalGood(s, st', t', env)
  {}

  /** One instruction other than the call that is inlined. */
  lemma StepAt(s: Site, c: nat, q: nat, st: State, t: State, env: Env)
    requires Ready(s) && c < |s.caller.blocks| && q < |s.caller.blocks[c].insts| && !(c == s.bi && q == s.k)
    requires Reached(s, c) && RelAt(s, st, t, env, c, q)
    ensures var i := s.caller.blocks[c].insts[q]; var a, b := Step(i, st, env), Step(s.SubstInst(i), t, env);
      && (a.Next? ==> b.Next? && RelAt(s, a.st, b.st, env, c, q + 1))
      && (a.Jump? ==> a.jst == st && b == Jump(a.target, t))
      && (a.Return? ==> a.rst == st && b == Return(a.v, t))
  {
    var i := s.caller.blocks[c].insts[q];
    DstBound(s, c, q);
    OperandsUsable(s, c, q, st, t, env);
    hide Ready;
    hide Rel;
    hide FinalGood;
    hide Reached;
    hide Step;
    hide BlockDom;
    hide s.SubstInst;
    hide s.Replaced;
    StepSame(s, i, st, t, env);
    StepMoves(s, i, st, env);
    StepMoves(s, s.SubstInst(i), t, env);
    MovedSame(s, i, t, env);
    if Step(i, st, env).Next? && s.Replaced() && InZone(s, c, q + 1) {
      FinalReg(s, st, t, env);
      if Dst(i).Some? { ZoneKeeps(s, c, q, Dst(i).value, Final(s)); }
      FinalMoved(s, i, st, t, Step(i, st, env).st, Step(s.SubstInst(i), t, env).st, env);
    }
  }

  lemma DstBound(s: Site, c: nat, q: nat)
    requires Ready(s) && c < |s.caller.blocks| && q < |s.caller.blocks[c].insts|
    ensures s.Valid()
    ensures var d := Dst(s.caller.blocks[c].insts[q]);
      d.Some? ==> d.value < s.caller.nextReg && DefAt(s.caller, c, q, d.value)
  {
    var i := s.caller.blocks[c].insts[q];
    if Dst(i).Some? { assert DefAt(s.caller, c, q, Dst(i).value); }
  }

  lemma FinalReg(s: Site, st: State, t: State, env: Env)
    requires s.Valid() && s.Replaced() && FinalGood(s, st, t, env)
    ensures Final(s).Reg? ==> Final(s).id >= s.caller.nextReg || Final(s) in s.Call().args
  {}

  lemma MovedSame(s: Site, i: Inst, t: State, env: Env)
    requires s.Valid()
    ensures Step(s.SubstInst(i), t, env).Next? ==> Moved(i, t, Step(s.SubstInst(i), t, env).st)
  {
    StepMoves(s, i, t, env);
    StepMoves(s, s.SubstInst(i), t, env);
  }

  // ----- Entering a block -----

  /** The block of the inlined caller that the end of block `a` is now in. */
  function TailId(s: Site, a: nat): nat
    requires s.Valid() && a < |s.caller.blocks|
  { if a == s.bi then s.SplitId() else s.caller.blocks[a].id }

  lemma {:induction false} IncomingMap(s: Site, ins: seq<(nat, Value)>, ins': seq<(nat, Value)>, prev: nat, prev': nat)
    requires s.Valid() && |ins'| == |ins|
    requires forall i :: 0 <= i < |ins| ==> ins'[i].1 == s.Subst(ins[i].1) && (ins'[i].0 == prev' <==> ins[i].0 == prev)
    ensures var v := Incoming(ins, prev); Incoming(ins', prev') == if v.Some? then Some(s.Subst(v.value)) else None
    ensures var v := Incoming(ins, prev); v.Some? ==> exists i :: 0 <= i < |ins| && ins[i] == (prev, v.value)
  {
    if ins != [] {
      assert ins'[0].1 == s.Subst(ins[0].1);
      IncomingMap(s, ins[1..], ins'[1..], prev, prev');
    }
  }

  function OldPhi(s: Site, c: nat, p: Phi): Phi
    requires s.Valid() && c < |s.caller.blocks|
  { s.SubstPhi(if s.caller.blocks[c].id in SuccIds(s.Block()) then s.RetargetPhi(p) else p) }

  lemma OldPhis(s: Site, c: nat)
    requires Ready(s) && c < |s.caller.blocks|
    ensures var phis, phis' := s.caller.blocks[c].phis, s.SubstBlock(s.OldBlock(c)).phis;
      |phis'| == |phis| && forall i :: 0 <= i < |phis| ==> phis'[i] == OldPhi(s, c, phis[i])
  {}

  /** What a phi reads on coming from block `a` is unchanged. */
  lemma PhiReads(s: Site, a: nat, c: nat, i: nat)
    requires Ready(s) && a < |s.caller.blocks| && c < |s.caller.blocks|
      && s.caller.blocks[c].id in SuccIds(s.caller.blocks[a])
    requires i < |s.caller.blocks[c].phis|
    ensures var p := s.caller.blocks[c].phis[i]; var v := Incoming(p.ins, s.caller.blocks[a].id);
      && OldPhi(s, c, p).dst == p.dst
      && Incoming(OldPhi(s, c, p).ins, TailId(s, a)) == (if v.Some? then Some(s.Subst(v.value)) else None)
      && (v.Some? ==> exists j :: 0 <= j < |p.ins| && p.ins[j] == (s.caller.blocks[a].id, v.value))
  {
    var p, p' := s.caller.blocks[c].phis[i], OldPhi(s, c, s.caller.blocks[c].phis[i]);
    var id, split := s.caller.blocks[a].id, s.SplitId();
    assert a != s.bi ==> id != s.Block().id && id != split;
    forall j | 0 <= j < |p.ins|
      ensures p'.ins[j].1 == s.Subst(p.ins[j].1) && (p'.ins[j].0 == TailId(s, a) <==> p.ins[j].0 == id)
    {
      assert p.ins[j].0 < s.caller.nextBlock;
    }
    IncomingMap(s, p.ins, p'.ins, id, TailId(s, a));
  }

  /** Only the registers listed change. */
  ghost predicate MovedBy(defs: seq<nat>, st: State, st': State) {
    forall r: nat :: r !in defs ==> (r in st'.regs <==> r in st.regs) && (r in st.regs ==> st'.regs[r] == st.regs[r])
  }

  /** The phis of a block and what has become of them, on coming from `prev` and from `prev'`. */
  ghost predicate PhisMatch(s: Site, phis: seq<Phi>, phis': seq<Phi>, prev: nat, prev': nat, st: State, t: State,
      env: Env)
    requires s.Valid()
  {
    && |phis'| == |phis|
    && forall i :: 0 <= i < |phis| ==> PhiMatch(s, phis[i], phis'[i], prev, prev', st, t, env)
  }

  ghost predicate PhiMatch(s: Site, p: Phi, p': Phi, prev: nat, prev': nat, st: State, t: State, env: Env)
    requires s.Valid()
  {
    var v := Incoming(p.ins, prev);
    && p'.dst == p.dst && p.dst < s.caller.nextReg
    && Incoming(p'.ins, prev') == (if v.Some? then Some(s.Subst(v.value)) else None)
    && (v.Some? ==> Usable(s, v.value, st, t, env))
  }

  lemma {:induction false} PhiListSame(s: Site, phis: seq<Phi>, phis': seq<Phi>, prev: nat, prev': nat, st: State,
      t: State, env: Env)
    requires s.Valid() && Rel(s, st, t, env) && PhisMatch(s, phis, phis', prev, prev', st, t, env)
      && PhiRegs(phis, Some(prev), st, env).Some?
    ensures PhiRegs(phis', Some(prev'), t, env).Some?
    ensures var st', t' := st.(regs := PhiRegs(phis, Some(prev), st, env).value),
      t.(regs := PhiRegs(phis', Some(prev'), t, env).value);
      Rel(s, st', t', env) && MovedBy(PhiDefs(phis), st, st') && MovedBy(PhiDefs(phis), t, t')
  {
    hide Rel;
    hide Usable;
    hide s.Subst;
    if phis != [] {
      var n := |phis| - 1;
      assert PhiMatch(s, phis[n], phis'[n], prev, prev', st, t, env);
      assert PhisMatch(s, phis[..n], phis'[..n], prev, prev', st, t, env);
      PhiListSame(s, phis[..n], phis'[..n], prev, prev', st, t, env);
      var v := Incoming(phis[n].ins, prev).value;
      UseIs(s, v, st, t, env);
      var a, b := PhiRegs(phis[..n], Some(prev), st, env).value, PhiRegs(phis'[..n], Some(prev'), t, env).value;
      Set(s, st.(regs := a), t.(regs := b), env, phis[n].dst, Eval(v, st, env).value);
      assert PhiDefs(phis) == PhiDefs(phis[..n]) + [phis[n].dst];
    }
  }

  lemma FinalMovedBy(s: Site, defs: seq<nat>, st: State, t: State, st': State, t': State, env: Env)
    requires s.Valid() && s.Replaced() && FinalGood(s, st, t, env) && MovedBy(defs, st, st') && MovedBy(defs, t, t')
    requires forall r :: r in defs ==> Final(s) != Reg(r) && s.Call().result != Some(r)
    ensures FinalGood(s, st', t', env)
  {}

  lemma CfgEdge(s: Site, a: nat, c: nat)
    requires Ready(s) && a < |s.caller.blocks| && c < |s.caller.blocks|
      && s.caller.blocks[c].id in SuccIds(s.caller.blocks[a])
    ensures Edge(Cfg(s.caller), s.caller.blocks[a].id, s.caller.blocks[c].id) && ValidGraph(Cfg(s.caller))
  {
    FindAt(s.caller.blocks, a);
    CfgValid(s.caller);
  }

  /** At the end of a block from which a block of the zone is entered, or which it needs the result from, the call has
      been made. */
  lemma ZoneAtEnd(s: Site, a: nat)
    requires Ready(s) && a < |s.caller.blocks| && BlockDom(s.caller, s.Block().id, s.caller.blocks[a].id)
    ensures InZone(s, a, |s.caller.blocks[a].insts| - 1)
  { assert EndsOnce(s.Block()); }

  lemma PhiUsable(s: Site, a: nat, c: nat, i: nat, st: State, t: State, env: Env)
    requires Ready(s) && a < |s.caller.blocks| && c < |s.caller.blocks| && i < |s.caller.blocks[c].phis|
    requires Reached(s, a) && s.caller.blocks[c].id in SuccIds(s.caller.blocks[a])
      && RelAt(s, st, t, env, a, |s.caller.blocks[a].insts| - 1)
    ensures PhiMatch(s, s.caller.blocks[c].phis[i], OldPhi(s, c, s.caller.blocks[c].phis[i]), s.caller.blocks[a].id,
      TailId(s, a), st, t, env)
  {
    var p := s.caller.blocks[c].phis[i];
    var v := Incoming(p.ins, s.caller.blocks[a].id);
    PhiReads(s, a, c, i);
    PhiBound(s, c, i);
    if v.Some? && s.Replaced() && v.value == Reg(s.Call().result.value) {
      var j :| 0 <= j < |p.ins| && p.ins[j] == (s.caller.blocks[a].id, v.value);
      assert PhiUseOk(s.caller, p.ins[j].0, p.ins[j].1.id);
      var x: nat, pos: int :| DefAt(s.caller, x, pos, v.value.id)
        && BlockDom(s.caller, s.caller.blocks[x].id, s.caller.blocks[a].id);
      ResultDef(s, x, pos);
      ZoneAtEnd(s, a);
    }
  }

  lemma PhiBound(s: Site, c: nat, i: nat)
    requires Ready(s) && c < |s.caller.blocks| && i < |s.caller.blocks[c].phis|
    ensures DefAt(s.caller, c, -1, s.caller.blocks[c].phis[i].dst) && s.caller.blocks[c].phis[i].dst < s.caller.nextReg
  {
    assert PhiDefs(s.caller.blocks[c].phis)[i] == s.caller.blocks[c].phis[i].dst;
    assert DefAt(s.caller, c, -1, s.caller.blocks[c].phis[i].dst);
  }

  lemma Distinct(s: Site, c: nat)
    requires Ready(s) && c < |s.caller.blocks| && c != s.bi
    ensures s.caller.blocks[c].id != s.Block().id
  {}

  /** Jumping from the end of block `a` to block `c`. */
  lemma EnterAt(s: Site, a: nat, c: nat, st: State, t: State, env: Env)
    requires Ready(s) && a < |s.caller.blocks| && c < |s.caller.blocks|
      && s.caller.blocks[c].id in SuccIds(s.caller.blocks[a])
    requires Reached(s, a) && RelAt(s, st, t, env, a, |s.caller.blocks[a].insts| - 1)
    requires PhiRegs(s.caller.blocks[c].phis, Some(s.caller.blocks[a].id), st, env).Some?
    ensures Reached(s, c) && PhiRegs(s.SubstBlock(s.OldBlock(c)).phis, Some(TailId(s, a)), t, env).Some?
    ensures RelAt(s, st.(regs := PhiRegs(s.caller.blocks[c].phis, Some(s.caller.blocks[a].id), st, env).value),
      t.(regs := PhiRegs(s.SubstBlock(s.OldBlock(c)).phis, Some(TailId(s, a)), t, env).value), env, c, 0)
  {
    hide PhiMatch;
    hide OldPhi;
    hide Rel;
    hide FinalGood;
    hide SsaForm;
    hide s.SubstBlock;
    hide s.OldBlock;
    hide TailId;
    var id, phis := s.caller.blocks[a].id, s.caller.blocks[c].phis;
    var phis' := s.SubstBlock(s.OldBlock(c)).phis;
    CfgEdge(s, a, c);
    ReachStep(Cfg(s.caller), Entry(s), id, s.caller.blocks[c].id);
    OldPhis(s, c);
    forall i | 0 <= i < |phis|
      ensures PhiMatch(s, phis[i], phis'[i], id, TailId(s, a), st, t, env)
    {
      PhiUsable(s, a, c, i, st, t, env);
    }
    PhiListSame(s, phis, phis', id, TailId(s, a), st, t, env);
    if s.Replaced() && InZone(s, c, 0) {
      Distinct(s, c);
      DomOverEdge(Cfg(s.caller), Entry(s), id, s.Block().id, s.caller.blocks[c].id);
      ZoneAtEnd(s, a);
      FinalReg(s, st, t, env);
      forall r | r in PhiDefs(phis)
        ensures Final(s) != Reg(r) && s.Call().result != Some(r)
      {
        ZoneKeeps(s, c, -1, r, Final(s));
      }
      FinalMovedBy(s, PhiDefs(phis), st, t, st.(regs := PhiRegs(phis, Some(id), st, env).value),
        t.(regs := PhiRegs(phis', Some(TailId(s, a)), t, env).value), env);
    }
  }

  // ----- Coming back from the copies -----

  /** What block `rb` of the callee returns, in the caller. */
  function ReturnValue(s: Site, rb: nat): Value
    requires s.Valid() && rb < |s.callee.blocks| && ReturnsAtEnd(s.callee.blocks[rb])
  {
    var i := s.callee.blocks[rb].insts[|s.callee.blocks[rb].insts|-1];
    if i.val.Some? then s.Remap(i.val.value) else ConstInt(0)
  }

  lemma {:induction false} NoReturns(s: Site, j: nat, n: nat)
    requires s.Valid() && j < |s.callee.blocks| && n <= |s.callee.blocks[j].insts|
    requires forall q :: 0 <= q < n ==> !s.callee.blocks[j].insts[q].Ret?
    ensures s.ReturnsIn(j, n) == []
  { if n > 0 { NoReturns(s, j, n - 1); } }

  /** A block that ends once returns at most once, at its end. */
  lemma BlockReturns(s: Site, j: nat)
    requires Ready(s) && j < |s.callee.blocks|
    ensures s.ReturnsIn(j, |s.callee.blocks[j].insts|) == if ReturnsAtEnd(s.callee.blocks[j])
      then [(s.CopyId(j), ReturnValue(s, j))]
      else []
  {
    hide SsaForm;
    var n := |s.callee.blocks[j].insts|;
    assert EndsOnce(s.callee.blocks[j]);
    NoReturns(s, j, n - 1);
  }

  lemma {:induction false} IncomingConcat(a: seq<(nat, Value)>, b: seq<(nat, Value)>, p: nat)
    ensures Incoming(a + b, p) == if Incoming(a, p).Some? then Incoming(a, p) else Incoming(b, p)
  {
    if a == [] {
      assert a + b == b;
    } else {
      IncomingConcat(a[1..], b, p);
      assert (a + b)[1..] == a[1..] + b;
    }
  }

  lemma IsCall(s: Site)
    requires Ready(s)
    ensures s.Valid() && s.Call().Call? && s.callee.blocks != [] && (s.Replaced() ==> s.Call().result.Some?)
    ensures s.bi < |s.caller.blocks| && s.Block() == s.caller.blocks[s.bi] && s.k < |s.Block().insts|
      && s.Call() == s.Block().insts[s.k]
  { hide SsaForm; }

  lemma {:induction false} ReturnsRead(s: Site, n: nat, rb: nat)
    requires Ready(s) && n <= |s.callee.blocks| && rb < |s.callee.blocks| && ReturnsAtEnd(s.callee.blocks[rb])
    ensures Incoming(s.Returns(n), s.CopyId(rb)) == if rb < n then Some(ReturnValue(s, rb)) else None
  {
    hide Ready;
    hide ReturnValue;
    hide s.ReturnsIn;
    IsCall(s);
    if n > 0 {
      ReturnsRead(s, n - 1, rb);
      BlockReturns(s, n - 1);
      var front, last := s.Returns(n - 1), s.ReturnsIn(n - 1, |s.callee.blocks[n-1].insts|);
      IncomingConcat(front, last, s.CopyId(rb));
      assert s.Returns(n) == front + last;
      assert Incoming(last, s.CopyId(rb)) == if rb == n - 1 then Some(ReturnValue(s, rb)) else None;
    }
  }

  lemma BackReturns(s: Site, base: State, rb: nat, v: Option<Val>, tr: seq<Event>, fin: State, env: Env)
    requires Ready(s) && ArgsOk(s) && Back(s, base, rb, v, tr, fin, env) && v.Some?
    ensures rb < |s.callee.blocks| && ReturnsAtEnd(s.callee.blocks[rb])
    ensures Incoming(s.AllReturns(), s.CopyId(rb)) == Some(ReturnValue(s, rb))
    ensures Eval(s.Subst(ReturnValue(s, rb)), fin, env) == v
    ensures var w := ReturnValue(s, rb);
      w.Reg? ==> (w.id >= s.caller.nextReg || w in s.Call().args) && s.Call().result != Some(w.id)
  {
    ReturnsRead(s, |s.callee.blocks|, rb);
    RenamingIs(s);
    hide SsaForm;
    hide s.Renaming;
    var w := s.callee.blocks[rb].insts[|s.callee.blocks[rb].insts|-1].val.value;
    assert ReturnValue(s, rb) == s.Remap(w);
    if w.Param? { assert s.Call().args[w.idx] in s.Call().args; }
  }

  lemma ReplacedBy(s: Site, p: nat)
    requires s.Valid() && s.Replaced() && Incoming(s.AllReturns(), p).Some?
    ensures Final(s) == Incoming(s.AllReturns(), p).value
  {}

  /** Registers other than the result are as the callee found them; `v` is the result. */
  ghost predicate OwnRelated(s: Site, st: State, fin: State, v: Option<Val>)
    requires s.Valid()
  {
    && fin.slots == st.slots && fin.trace == st.trace
    && (forall r: nat :: r in st.regs ==> r < s.caller.nextReg)
    && (forall r: nat :: r in st.regs && s.Call().result != Some(r) ==> r in fin.regs && fin.regs[r] == st.regs[r])
    && (s.Call().result.Some? ==> s.Call().result.value in st.regs && v == Some(st.regs[s.Call().result.value]))
  }

  lemma OwnRel(s: Site, st: State, t: State, env: Env, v: Option<Val>, tr: seq<Event>, fin: State, st': State)
    requires s.Valid() && Rel(s, st, t, env) && OwnKept(s, t, fin) && fin.trace == tr && fin.slots == t.slots
      && ArgsOk(s)
    requires Returned(s.Call().result, v, st.(trace := tr)) == Some(st')
    ensures OwnRelated(s, st', fin, v)
  {}

  lemma BackKeeps(s: Site, base: State, rb: nat, v: Option<Val>, tr: seq<Event>, fin: State, env: Env)
    requires s.Valid() && Back(s, base, rb, v, tr, fin, env)
    ensures OwnKept(s, base, fin) && fin.trace == tr && fin.slots == base.slots
  {}

  /** The phi at the top of the split block, if there is one, reads the value returned. */
  lemma SplitPhis(s: Site, rb: nat, fin: State, env: Env)
    requires Ready(s)
    requires s.Call().result.Some? && !s.Replaced() ==>
      rb < |s.callee.blocks| && ReturnsAtEnd(s.callee.blocks[rb])
        && Incoming(s.AllReturns(), s.CopyId(rb)) == Some(ReturnValue(s, rb))
    requires s.Call().result.Some? && !s.Replaced() ==> Eval(s.Subst(ReturnValue(s, rb)), fin, env).Some?
    ensures PhiRegs(s.SubstBlock(s.SplitBlock()).phis, Some(s.CopyId(rb)), fin, env) == Some(
      if s.Call().result.Some? && !s.Replaced()
        then fin.regs[s.Call().result.value := Eval(s.Subst(ReturnValue(s, rb)), fin, env).value]
        else fin.regs)
  {
    hide SsaForm;
    var phis, d := s.SubstBlock(s.SplitBlock()).phis, s.Call().result;
    if d.Some? && !s.Replaced() {
      assert |s.AllReturns()| > 1;
      hide ReturnValue;
      var p := Phi(d.value, s.AllReturns());
      assert phis == [s.SubstPhi(p)] && phis[..0] == [];
      IncomingMap(s, p.ins, s.SubstPhi(p).ins, s.CopyId(rb), s.CopyId(rb));
    } else {
      assert phis == [];
    }
  }

  /** After the call: the result is where the caller will look for it. */
  lemma AfterCall(s: Site, st: State, t: State, env: Env, rb: nat, v: Option<Val>, tr: seq<Event>, fin: State,
      st': State)
    requires Ready(s) && ArgsOk(s) && Rel(s, st, t, env) && Back(s, t, rb, v, tr, fin, env)
      && Returned(s.Call().result, v, st.(trace := tr)) == Some(st')
    ensures PhiRegs(s.SubstBlock(s.SplitBlock()).phis, Some(s.CopyId(rb)), fin, env).Some?
    ensures RelAt(s, st', fin.(regs := PhiRegs(s.SubstBlock(s.SplitBlock()).phis, Some(s.CopyId(rb)), fin, env).value),
      env, s.bi, s.k + 1)
  {
    hide *;
    IsCall(s);
    BackKeeps(s, t, rb, v, tr, fin, env);
    OwnRel(s, st, t, env, v, tr, fin, st');
    ResultGot(s, v, st.(trace := tr), st');
    if s.Call().result.Some? {
      BackReturns(s, t, rb, v, tr, fin, env);
      if s.Replaced() { ReplacedBy(s, s.CopyId(rb)); }
    }
    SplitPhis(s, rb, fin, env);
    Arrived(s, st', fin, v, rb, env);
  }

  lemma ResultGot(s: Site, v: Option<Val>, st: State, st': State)
    requires s.Valid() && Returned(s.Call().result, v, st) == Some(st')
    ensures s.Call().result.Some? ==> v.Some?
  {}

  lemma Arrived(s: Site, st: State, fin: State, v: Option<Val>, rb: nat, env: Env)
    requires Ready(s) && OwnRelated(s, st, fin, v)
    requires s.Call().result.Some? ==> rb < |s.callee.blocks| && ReturnsAtEnd(s.callee.blocks[rb])
    requires s.Call().result.Some? ==> Eval(s.Subst(ReturnValue(s, rb)), fin, env) == v && v.Some?
    requires s.Call().result.Some? ==>
      (ReturnValue(s, rb).Reg? ==>
        (ReturnValue(s, rb).id >= s.caller.nextReg || ReturnValue(s, rb) in s.Call().args)
          && s.Call().result != Some(ReturnValue(s, rb).id))
    requires s.Replaced() ==> Final(s) == ReturnValue(s, rb)
    ensures RelAt(s, st,
      fin.(regs := if s.Call().result.Some? && !s.Replaced()
        then fin.regs[s.Call().result.value := v.value]
        else fin.regs), env, s.bi, s.k + 1)
  {
    hide SsaForm;
    hide ReturnValue;
    hide s.AllReturns;
  }

  // ----- Whole runs -----

  /** The block of the inlined caller that position `q` of block `c` is in, and the code from there on. */
  function Cur(s: Site, c: nat, q: nat): nat
    requires s.Valid() && c < |s.caller.blocks|
  { if c == s.bi && q > s.k then s.SplitId() else s.caller.blocks[c].id }

  function Code(s: Site, c: nat, q: nat): seq<Inst>
    requires Ready(s) && c < |s.caller.blocks| && q <= |s.caller.blocks[c].insts|
  {
    if c == s.bi && q > s.k then s.SubstBlock(s.SplitBlock()).insts[q - s.k - 1..]
    else s.SubstBlock(s.OldBlock(c)).insts[q..]
  }

  function Rest(s: Site, c: nat, q: nat): seq<Inst>
    requires c < |s.caller.blocks| && q <= |s.caller.blocks[c].insts|
  { s.caller.blocks[c].insts[q..] }

  lemma CodeHere(s: Site, c: nat, q: nat)
    requires Ready(s) && c < |s.caller.blocks| && q < |s.caller.blocks[c].insts| && !(c == s.bi && q == s.k)
    ensures var i := s.caller.blocks[c].insts[q];
      && Rest(s, c, q) != [] && Rest(s, c, q)[0] == i && Rest(s, c, q)[1..] == Rest(s, c, q + 1)
      && Code(s, c, q) != [] && Code(s, c, q)[0] == s.SubstInst(i) && Code(s, c, q)[1..] == Code(s, c, q + 1)
      && Cur(s, c, q + 1) == Cur(s, c, q)
  { hide SsaForm; }

  lemma CodeAtSite(s: Site)
    requires Ready(s)
    ensures Rest(s, s.bi, s.k) != [] && Rest(s, s.bi, s.k)[0] == s.Call()
      && Rest(s, s.bi, s.k)[1..] == Rest(s, s.bi, s.k + 1)
    ensures Code(s, s.bi, s.k) == [Br(s.CopyId(0))] && Cur(s, s.bi, s.k) == s.Block().id
    ensures Code(s, s.bi, s.k + 1) == s.SubstBlock(s.SplitBlock()).insts && Cur(s, s.bi, s.k + 1) == s.SplitId()
  { hide SsaForm; }

  /** A jump is the last instruction of its block, after the call if the block has it. */
  lemma JumpAtEnd(s: Site, c: nat, q: nat, st: State, env: Env)
    requires Ready(s) && c < |s.caller.blocks| && q < |s.caller.blocks[c].insts|
      && Step(s.caller.blocks[c].insts[q], st, env).Jump?
    ensures q == |s.caller.blocks[c].insts| - 1 && Cur(s, c, q) == TailId(s, c)
    ensures Step(s.caller.blocks[c].insts[q], st, env).target in SuccIds(s.caller.blocks[c])
  { assert EndsOnce(s.caller.blocks[c]); }

  ghost predicate Resolves(m: Module, s: Site)
    requires Ready(s)
  { FindFn(m, s.Call().callee).Some? && m[FindFn(m, s.Call().callee).value] == s.callee }

  /** What a run of the caller with fuel `n` says of the run after inlining: it is as starved, and it ends as it does
      when given fuel `n2`. */
  ghost predicate SameInsts(m: Module, s: Site, c: nat, q: nat, st: State, t: State, env: Env, n: nat, n2: nat)
    requires Ready(s) && c < |s.caller.blocks| && q <= |s.caller.blocks[c].insts|
  {
    var r := RunInsts(m, s.caller, s.caller.blocks[c].id, Rest(s, c, q), st, env, n);
    && (r.OutOfFuel? ==> RunInsts(m, s.Inlined(), Cur(s, c, q), Code(s, c, q), t, env, n).OutOfFuel?)
    && (r.Ended? ==> RunInsts(m, s.Inlined(), Cur(s, c, q), Code(s, c, q), t, env, n2) == r)
  }

  ghost predicate SameBlock(m: Module, s: Site, a: nat, id: nat, st: State, t: State, env: Env, n: nat, n2: nat)
    requires Ready(s) && a < |s.caller.blocks|
  {
    var r := RunBlock(m, s.caller, id, Some(s.caller.blocks[a].id), st, env, n);
    && (r.OutOfFuel? ==> RunBlock(m, s.Inlined(), id, Some(TailId(s, a)), t, env, n).OutOfFuel?)
    && (r.Ended? ==> RunBlock(m, s.Inlined(), id, Some(TailId(s, a)), t, env, n2) == r)
  }

  /** A call of another function of the module. */
  lemma CallAt(s: Site, c: nat, q: nat, st: State, t: State, env: Env, v: Option<Val>, tr: seq<Event>)
    requires Ready(s) && c < |s.caller.blocks| && q < |s.caller.blocks[c].insts| && !(c == s.bi && q == s.k)
    requires Reached(s, c) && RelAt(s, st, t, env, c, q) && s.caller.blocks[c].insts[q].Call?
    ensures var i := s.caller.blocks[c].insts[q];
      && (EvalAll(i.args, st, env).Some? ==> EvalAll(s.SubstAll(i.args), t, env) == EvalAll(i.args, st, env))
      && var a, b := Returned(i.result, v, st.(trace := tr)), Returned(i.result, v, t.(trace := tr));
      (a.Some? ==> b.Some? && RelAt(s, a.value, b.value, env, c, q + 1))
  {
    var i := s.caller.blocks[c].insts[q];
    OperandsUsable(s, c, q, st, t, env);
    DstBound(s, c, q);
    hide Ready;
    hide FinalGood;
    hide Rel;
    hide Usable;
    hide Reached;
    hide BlockDom;
    hide s.Subst;
    hide s.Replaced;
    if EvalAll(i.args, st, env).Some? { UseAll(s, i.args, st, t, env); }
    Told(s, st, t, env, tr);
    var a, b := Returned(i.result, v, st.(trace := tr)), Returned(i.result, v, t.(trace := tr));
    if a.Some? {
      if i.result.Some? { Set(s, st.(trace := tr), t.(trace := tr), env, i.result.value, v.value); }
      if s.Replaced() && InZone(s, c, q + 1) {
        FinalReg(s, st, t, env);
        if i.result.Some? { ZoneKeeps(s, c, q, i.result.value, Final(s)); }
        FinalMoved(s, i, st, t, a.value, b.value, env);
      }
    }
  }

  lemma OperandsUsable(s: Site, c: nat, q: nat, st: State, t: State, env: Env)
    requires Ready(s) && c < |s.caller.blocks| && Reached(s, c) && q < |s.caller.blocks[c].insts|
      && RelAt(s, st, t, env, c, q)
    ensures UsesReady(s, s.caller.blocks[c].insts[q], st, t, env)
  {
    var i := s.caller.blocks[c].insts[q];
    forall v | v in Operands(i) ensures Usable(s, v, st, t, env) {
      if s.Replaced() && v == Reg(s.Call().result.value) {
        assert s.Call().result.value in UsedRegs(i);
        UseInZone(s, c, q);
      }
    }
  }

  lemma {:induction false} MainInsts(m: Module, s: Site, c: nat, q: nat, st: State, t: State, env: Env,
      n: nat) returns (n2: nat)
    requires Ready(s) && Resolves(m, s) && c < |s.caller.blocks| && q <= |s.caller.blocks[c].insts| && Reached(s, c)
      && RelAt(s, st, t, env, c, q)
    ensures SameInsts(m, s, c, q, st, t, env, n, n2)
    decreases n, 2, |s.caller.blocks[c].insts| - q, 1
  {
    hide *;
    IsCall(s);
    n2 := n;
    if q < |s.caller.blocks[c].insts| {
      if c == s.bi && q == s.k {
        n2 := ThroughSite(m, s, st, t, env, n);
      } else if s.caller.blocks[c].insts[q].Call? && FindFn(m, s.caller.blocks[c].insts[q].callee).Some? {
        n2 := ThroughCall(m, s, c, q, st, t, env, n);
      } else {
        n2 := ThroughStep(m, s, c, q, st, t, env, n);
      }
    } else {
      RanOff(m, s, c, q, st, t, env, n);
    }
  }

  lemma RanOff(m: Module, s: Site, c: nat, q: nat, st: State, t: State, env: Env, n: nat)
    requires Ready(s) && c < |s.caller.blocks| && q == |s.caller.blocks[c].insts|
    ensures SameInsts(m, s, c, q, st, t, env, n, n)
  {
    hide Ready;
    assert Rest(s, c, q) == [];
  }

  lemma {:induction false} ThroughStep(m: Module, s: Site, c: nat, q: nat, st: State, t: State, env: Env,
      n: nat) returns (n2: nat)
    requires Ready(s) && Resolves(m, s) && c < |s.caller.blocks| && q < |s.caller.blocks[c].insts| && Reached(s, c)
      && RelAt(s, st, t, env, c, q)
    requires !(c == s.bi && q == s.k)
      && !(s.caller.blocks[c].insts[q].Call? && FindFn(m, s.caller.blocks[c].insts[q].callee).Some?)
    ensures SameInsts(m, s, c, q, st, t, env, n, n2)
    decreases n, 2, |s.caller.blocks[c].insts| - q, 0
  {
    hide *;
    IsCall(s);
    n2 := n;
    var i := s.caller.blocks[c].insts[q];
    var a, b := Step(i, st, env), Step(s.SubstInst(i), t, env);
    StepAt(s, c, q, st, t, env);
    SameOutside(s, st, t, env, c, q);
    if a.Next? {
      n2 := MainInsts(m, s, c, q + 1, a.st, b.st, env, n);
      StepNext(m, s, c, q, st, t, env, n, n2);
    } else if a.Jump? {
      JumpAtEnd(s, c, q, st, env);
      n2 := MainBlock(m, s, c, a.target, st, t, env, n);
      StepJump(m, s, c, q, st, t, env, n, n2);
    } else {
      StepOut(m, s, c, q, st, t, env, n);
    }
  }

  /** One step of the inlined caller, at a position other than the site. */
  lemma Unfold(m: Module, s: Site, c: nat, q: nat, st: State, t: State, env: Env, k: nat)
    requires Ready(s) && c < |s.caller.blocks| && q < |s.caller.blocks[c].insts| && !(c == s.bi && q == s.k)
    requires !(s.caller.blocks[c].insts[q].Call? && FindFn(m, s.caller.blocks[c].insts[q].callee).Some?)
    ensures RunInsts(m, s.caller, s.caller.blocks[c].id, Rest(s, c, q), st, env, k) ==
      match Step(s.caller.blocks[c].insts[q], st, env)
      case Next(a) => RunInsts(m, s.caller, s.caller.blocks[c].id, Rest(s, c, q + 1), a, env, k)
      case Jump(x, a) => RunBlock(m, s.caller, x, Some(s.caller.blocks[c].id), a, env, k)
      case Return(v, a) => Ended(v, a.trace)
      case Trap => Trapped
    ensures RunInsts(m, s.Inlined(), Cur(s, c, q), Code(s, c, q), t, env, k) ==
      match Step(s.SubstInst(s.caller.blocks[c].insts[q]), t, env)
      case Next(a) => RunInsts(m, s.Inlined(), Cur(s, c, q), Code(s, c, q + 1), a, env, k)
      case Jump(x, a) => RunBlock(m, s.Inlined(), x, Some(Cur(s, c, q)), a, env, k)
      case Return(v, a) => Ended(v, a.trace)
      case Trap => Trapped
  {
    IsCall(s);
    CodeHere(s, c, q);
    SubstCalls(s, s.caller.blocks[c].insts[q]);
    hide Ready;
    hide s.SubstInst;
    hide s.Inlined;
    hide Code;
    hide Rest;
    hide Cur;
    hide Step;
  }

  lemma SubstCalls(s: Site, i: Inst)
    requires s.Valid()
    ensures s.SubstInst(i).Call? <==> i.Call?
    ensures i.Call? ==> s.SubstInst(i) == Inst.Call(i.result, i.callee, s.SubstAll(i.args))
  {}

  lemma StepNext(m: Module, s: Site, c: nat, q: nat, st: State, t: State, env: Env, n: nat, n2: nat)
    requires Ready(s) && c < |s.caller.blocks| && q < |s.caller.blocks[c].insts| && !(c == s.bi && q == s.k)
    requires !(s.caller.blocks[c].insts[q].Call? && FindFn(m, s.caller.blocks[c].insts[q].callee).Some?)
    requires var a, b := Step(s.caller.blocks[c].insts[q], st, env),
      Step(s.SubstInst(s.caller.blocks[c].insts[q]), t, env);
      a.Next? && b.Next? && SameInsts(m, s, c, q + 1, a.st, b.st, env, n, n2)
    ensures SameInsts(m, s, c, q, st, t, env, n, n2)
  {
    hide Ready;
    hide s.SubstInst;
    hide s.Inlined;
    hide Code;
    hide Rest;
    hide Cur;
    hide Step;
    hide RunInsts;
    IsCall(s);
    Unfold(m, s, c, q, st, t, env, n);
    Unfold(m, s, c, q, st, t, env, n2);
    CodeHere(s, c, q);
  }

  lemma StepJump(m: Module, s: Site, c: nat, q: nat, st: State, t: State, env: Env, n: nat, n2: nat)
    requires Ready(s) && c < |s.caller.blocks| && q < |s.caller.blocks[c].insts| && !(c == s.bi && q == s.k)
    requires !(s.caller.blocks[c].insts[q].Call? && FindFn(m, s.caller.blocks[c].insts[q].callee).Some?)
    requires var a, b := Step(s.caller.blocks[c].insts[q], st, env),
      Step(s.SubstInst(s.caller.blocks[c].insts[q]), t, env);
      a.Jump? && a.jst == st && b == Jump(a.target, t) && SameBlock(m, s, c, a.target, st, t, env, n, n2)
    requires Cur(s, c, q) == TailId(s, c)
    ensures SameInsts(m, s, c, q, st, t, env, n, n2)
  {
    hide Ready;
    hide s.SubstInst;
    hide s.Inlined;
    hide Code;
    hide Rest;
    hide Cur;
    hide TailId;
    hide Step;
    hide RunInsts;
    hide RunBlock;
    IsCall(s);
    Unfold(m, s, c, q, st, t, env, n);
    Unfold(m, s, c, q, st, t, env, n2);
  }

  lemma StepOut(m: Module, s: Site, c: nat, q: nat, st: State, t: State, env: Env, n: nat)
    requires Ready(s) && c < |s.caller.blocks| && q < |s.caller.blocks[c].insts| && !(c == s.bi && q == s.k)
    requires !(s.caller.blocks[c].insts[q].Call? && FindFn(m, s.caller.blocks[c].insts[q].callee).Some?)
    requires var a, b := Step(s.caller.blocks[c].insts[q], st, env),
      Step(s.SubstInst(s.caller.blocks[c].insts[q]), t, env);
      !a.Next? && !a.Jump? && (a.Return? ==> a.rst == st && b == Return(a.v, t) && t.trace == st.trace)
    ensures SameInsts(m, s, c, q, st, t, env, n, n)
  {
    hide Ready;
    hide s.SubstInst;
    hide s.Inlined;
    hide Code;
    hide Rest;
    hide Cur;
    hide Step;
    hide RunInsts;
    IsCall(s);
    Unfold(m, s, c, q, st, t, env, n);
  }

  /** The rest of a block in the inlined caller, once it has ended, ends the same with more fuel. */
  lemma MoreFuelRest(m: Module, s: Site, c: nat, q: nat, st: State, t: State, env: Env, n: nat, n2: nat, k: nat)
    requires Ready(s) && c < |s.caller.blocks| && q <= |s.caller.blocks[c].insts|
      && SameInsts(m, s, c, q, st, t, env, n, n2) && n2 <= k
    requires RunInsts(m, s.caller, s.caller.blocks[c].id, Rest(s, c, q), st, env, n).Ended?
    ensures SameInsts(m, s, c, q, st, t, env, n, k)
    ensures RunInsts(m, s.Inlined(), Cur(s, c, q), Code(s, c, q), t, env, k) == RunInsts(m, s.caller,
      s.caller.blocks[c].id, Rest(s, c, q), st, env, n)
  {
    hide Ready;
    hide RunInsts;
    hide s.Inlined;
    hide Code;
    hide Rest;
    hide Cur;
    IsCall(s);
    MoreFuelInsts(m, s.Inlined(), Cur(s, c, q), Code(s, c, q), t, env, n2, k);
  }

  lemma {:induction false} ThroughCall(m: Module, s: Site, c: nat, q: nat, st: State, t: State, env: Env,
      n: nat) returns (n2: nat)
    requires Ready(s) && Resolves(m, s) && c < |s.caller.blocks| && q < |s.caller.blocks[c].insts| && Reached(s, c)
      && RelAt(s, st, t, env, c, q)
    requires !(c == s.bi && q == s.k) && s.caller.blocks[c].insts[q].Call?
      && FindFn(m, s.caller.blocks[c].insts[q].callee).Some?
    ensures SameInsts(m, s, c, q, st, t, env, n, n2)
    decreases n, 2, |s.caller.blocks[c].insts| - q, 0
  {
    hide *;
    IsCall(s);
    n2 := n;
    var i := s.caller.blocks[c].insts[q];
    var h, xs := m[FindFn(m, i.callee).value], EvalAll(i.args, st, env);
    CallAt(s, c, q, st, t, env, None, st.trace);
    SameOutside(s, st, t, env, c, q);
    if xs.Some? {
      var r := CallFn(m, h, xs.value, st.trace, env.world, n);
      if r.Ended? {
        CallAt(s, c, q, st, t, env, r.v, r.trace);
        var a, b := Returned(i.result, r.v, st.(trace := r.trace)), Returned(i.result, r.v, t.(trace := r.trace));
        if a.Some? {
          var n3 := MainInsts(m, s, c, q + 1, a.value, b.value, env, n);
          CallBackIs(m, s, i, st, t, env, n);
          n2 := CallNext(m, s, c, q, st, t, env, n, n3, a.value, b.value);
          return;
        }
      }
    }
    CallOut(m, s, c, q, st, t, env, n);
  }

  lemma SameOutside(s: Site, st: State, t: State, env: Env, c: nat, q: nat)
    requires Ready(s) && c < |s.caller.blocks| && RelAt(s, st, t, env, c, q)
    ensures t.slots == st.slots && t.trace == st.trace && s.Valid() && Rel(s, st, t, env)
  { hide SsaForm; }

  /** A call of a function of the module, before and after inlining. */
  lemma UnfoldCall(m: Module, s: Site, c: nat, q: nat, st: State, t: State, env: Env, k: nat)
    requires Ready(s) && c < |s.caller.blocks| && q < |s.caller.blocks[c].insts| && !(c == s.bi && q == s.k)
    requires s.caller.blocks[c].insts[q].Call? && FindFn(m, s.caller.blocks[c].insts[q].callee).Some?
      && t.trace == st.trace
    requires var i := s.caller.blocks[c].insts[q];
      EvalAll(i.args, st, env).Some? ==> EvalAll(s.SubstAll(i.args), t, env) == EvalAll(i.args, st, env)
    ensures var i := s.caller.blocks[c].insts[q]; var xs := EvalAll(i.args, st, env);
      if xs.None? then RunInsts(m, s.caller, s.caller.blocks[c].id, Rest(s, c, q), st, env, k) == Trapped
      else
        var r := CallFn(m, m[FindFn(m, i.callee).value], xs.value, st.trace, env.world, k);
        && RunInsts(m, s.caller, s.caller.blocks[c].id, Rest(s, c, q), st, env, k) ==
          (if r.Ended? then
             var a := Returned(i.result, r.v, st.(trace := r.trace));
             if a.None?
               then Trapped
               else RunInsts(m, s.caller, s.caller.blocks[c].id, Rest(s, c, q + 1), a.value, env, k)
           else r)
        && RunInsts(m, s.Inlined(), Cur(s, c, q), Code(s, c, q), t, env, k) ==
          (if r.Ended? then
             var b := Returned(i.result, r.v, t.(trace := r.trace));
             if b.None? then Trapped else RunInsts(m, s.Inlined(), Cur(s, c, q), Code(s, c, q + 1), b.value, env, k)
           else r)
  {
    IsCall(s);
    CodeHere(s, c, q);
    SubstCalls(s, s.caller.blocks[c].insts[q]);
    hide Ready;
    hide s.SubstInst;
    hide s.Inlined;
    hide Code;
    hide Rest;
    hide Cur;
    hide Step;
    hide Returned;
    hide CallFn;
  }

  lemma CallOut(m: Module, s: Site, c: nat, q: nat, st: State, t: State, env: Env, n: nat)
    requires Ready(s) && c < |s.caller.blocks| && q < |s.caller.blocks[c].insts| && !(c == s.bi && q == s.k)
    requires s.caller.blocks[c].insts[q].Call? && FindFn(m, s.caller.blocks[c].insts[q].callee).Some?
      && t.trace == st.trace
    requires var i := s.caller.blocks[c].insts[q];
      EvalAll(i.args, st, env).Some? ==> EvalAll(s.SubstAll(i.args), t, env) == EvalAll(i.args, st, env)
    requires var i := s.caller.blocks[c].insts[q]; var xs := EvalAll(i.args, st, env); xs.Some? ==>
      var r := CallFn(m, m[FindFn(m, i.callee).value], xs.value, st.trace, env.world, n); r.Ended? ==>
        Returned(i.result, r.v, st.(trace := r.trace)).None?
    ensures SameInsts(m, s, c, q, st, t, env, n, n)
  {
    hide Ready;
    hide s.SubstInst;
    hide s.Inlined;
    hide Code;
    hide Rest;
    hide Cur;
    hide Returned;
    hide CallFn;
    hide RunInsts;
    IsCall(s);
    UnfoldCall(m, s, c, q, st, t, env, n);
  }

  /** The call has returned, within fuel `n`, leaving the caller in state `a` before inlining and `b` after it. */
  ghost predicate CallBack(m: Module, s: Site, i: Inst, st: State, t: State, env: Env, n: nat, a: State, b: State)
    requires s.Valid()
  {
    && i.Call? && FindFn(m, i.callee).Some? && t.trace == st.trace && EvalAll(i.args, st, env).Some?
    && EvalAll(s.SubstAll(i.args), t, env) == EvalAll(i.args, st, env)
    && var r := CallFn(m, m[FindFn(m, i.callee).value], EvalAll(i.args, st, env).value, st.trace, env.world, n);
    r.Ended? && Returned(i.result, r.v, st.(trace := r.trace)) == Some(a)
      && Returned(i.result, r.v, t.(trace := r.trace)) == Some(b)
  }

  lemma CallBackLater(m: Module, s: Site, i: Inst, st: State, t: State, env: Env, n: nat, a: State, b: State, k: nat)
    requires s.Valid() && CallBack(m, s, i, st, t, env, n, a, b) && n <= k
    ensures CallBack(m, s, i, st, t, env, k, a, b)
  {
    hide CallFn;
    hide Returned;
    hide EvalAll;
    MoreFuelCall(m, m[FindFn(m, i.callee).value], EvalAll(i.args, st, env).value, st.trace, env.world, n, k);
  }

  lemma AfterCallBack(m: Module, s: Site, c: nat, q: nat, st: State, t: State, env: Env, k: nat, a: State, b: State)
    requires Ready(s) && c < |s.caller.blocks| && q < |s.caller.blocks[c].insts| && !(c == s.bi && q == s.k)
    requires CallBack(m, s, s.caller.blocks[c].insts[q], st, t, env, k, a, b)
    ensures RunInsts(m, s.caller, s.caller.blocks[c].id, Rest(s, c, q), st, env, k) == RunInsts(m, s.caller,
      s.caller.blocks[c].id, Rest(s, c, q + 1), a, env, k)
    ensures RunInsts(m, s.Inlined(), Cur(s, c, q), Code(s, c, q), t, env, k) == RunInsts(m, s.Inlined(),
      Cur(s, c, q + 1), Code(s, c, q + 1), b, env, k)
  {
    hide Ready;
    hide s.SubstInst;
    hide s.Inlined;
    hide Code;
    hide Rest;
    hide Cur;
    hide Returned;
    hide CallFn;
    hide RunInsts;
    hide EvalAll;
    IsCall(s);
    UnfoldCall(m, s, c, q, st, t, env, k);
    CodeHere(s, c, q);
  }

  lemma CallNext(m: Module, s: Site, c: nat, q: nat, st: State, t: State, env: Env, n: nat, n3: nat, a: State,
      b: State) returns (n2: nat)
    requires Ready(s) && c < |s.caller.blocks| && q < |s.caller.blocks[c].insts| && !(c == s.bi && q == s.k)
    requires CallBack(m, s, s.caller.blocks[c].insts[q], st, t, env, n, a, b)
      && SameInsts(m, s, c, q + 1, a, b, env, n, n3)
    ensures SameInsts(m, s, c, q, st, t, env, n, n2)
  {
    hide Ready;
    hide CallBack;
    hide s.Inlined;
    hide Code;
    hide Rest;
    hide Cur;
    hide RunInsts;
    IsCall(s);
    n2 := Max(n, n3);
    AfterCallBack(m, s, c, q, st, t, env, n, a, b);
    CallBackLater(m, s, s.caller.blocks[c].insts[q], st, t, env, n, a, b, n2);
    AfterCallBack(m, s, c, q, st, t, env, n2, a, b);
    if RunInsts(m, s.caller, s.caller.blocks[c].id, Rest(s, c, q + 1), a, env, n).Ended? {
      MoreFuelRest(m, s, c, q + 1, a, b, env, n, n3, n2);
    }
  }

  lemma CallBackIs(m: Module, s: Site, i: Inst, st: State, t: State, env: Env, n: nat)
    requires s.Valid() && i.Call? && FindFn(m, i.callee).Some? && t.trace == st.trace && EvalAll(i.args, st, env).Some?
    requires EvalAll(s.SubstAll(i.args), t, env) == EvalAll(i.args, st, env)
    requires var r := CallFn(m, m[FindFn(m, i.callee).value], EvalAll(i.args, st, env).value, st.trace, env.world, n);
      r.Ended? && Returned(i.result, r.v, st.(trace := r.trace)).Some?
        && Returned(i.result, r.v, t.(trace := r.trace)).Some?
    ensures var r := CallFn(m, m[FindFn(m, i.callee).value], EvalAll(i.args, st, env).value, st.trace, env.world, n);
      CallBack(m, s, i, st, t, env, n, Returned(i.result, r.v, st.(trace := r.trace)).value,
        Returned(i.result, r.v, t.(trace := r.trace)).value)
  {}

  // ----- At the site -----

  lemma SiteArgs(s: Site, st: State, t: State, env: Env)
    requires Ready(s) && ArgsOk(s) && RelAt(s, st, t, env, s.bi, s.k) && EvalAll(s.Call().args, st, env).Some?
    ensures EvalAll(s.Call().args, t, env) == EvalAll(s.Call().args, st, env)
  {
    hide SsaForm;
    var args := s.Call().args;
    forall v | v in args ensures Usable(s, v, st, t, env) && s.Subst(v) == v {}
    assert s.SubstAll(args) == args;
    UseAll(s, args, st, t, env);
  }

  lemma UnfoldSite(m: Module, s: Site, st: State, t: State, env: Env, k: nat)
    requires Ready(s) && Resolves(m, s)
    ensures var xs := EvalAll(s.Call().args, st, env);
      RunInsts(m, s.caller, s.Block().id, Rest(s, s.bi, s.k), st, env, k) ==
        if xs.None? then Trapped
        else
          var r := CallFn(m, s.callee, xs.value, st.trace, env.world, k);
          if r.Ended? then
            var a := Returned(s.Call().result, r.v, st.(trace := r.trace));
            if a.None? then Trapped else RunInsts(m, s.caller, s.Block().id, Rest(s, s.bi, s.k + 1), a.value, env, k)
          else r
    ensures RunInsts(m, s.Inlined(), Cur(s, s.bi, s.k), Code(s, s.bi, s.k), t, env, k) ==
      RunBlock(m, s.Inlined(), s.CopyId(0), Some(s.Block().id), t, env, k)
  {
    hide *;
    IsCall(s);
    CodeAtSite(s);
    ResolvesIs(m, s);
    RunsCall(m, s.caller, s.Block().id, Rest(s, s.bi, s.k), st, env, k);
    RunsJump(m, s.Inlined(), Cur(s, s.bi, s.k), s.CopyId(0), t, env, k);
  }

  lemma ResolvesIs(m: Module, s: Site)
    requires Ready(s) && Resolves(m, s)
    ensures s.Valid() && FindFn(m, s.Call().callee).Some? && m[FindFn(m, s.Call().callee).value] == s.callee
  { hide SsaForm; }

  lemma RunsCall(m: Module, f: Fn, cur: nat, insts: seq<Inst>, st: State, env: Env, k: nat)
    requires insts != [] && insts[0].Call? && FindFn(m, insts[0].callee).Some?
    ensures var xs := EvalAll(insts[0].args, st, env);
      RunInsts(m, f, cur, insts, st, env, k) ==
        if xs.None? then Trapped
        else
          var r := CallFn(m, m[FindFn(m, insts[0].callee).value], xs.value, st.trace, env.world, k);
          if r.Ended? then
            var a := Returned(insts[0].result, r.v, st.(trace := r.trace));
            if a.None? then Trapped else RunInsts(m, f, cur, insts[1..], a.value, env, k)
          else r
  {
    hide CallFn;
    hide Returned;
    hide EvalAll;
  }

  lemma RunsJump(m: Module, f: Fn, cur: nat, id: nat, st: State, env: Env, k: nat)
    ensures RunInsts(m, f, cur, [Br(id)], st, env, k) == RunBlock(m, f, id, Some(cur), st, env, k)
  {}

  /** The state at the start of the split block. */
  ghost predicate SplitState(s: Site, rb: nat, fin: State, env: Env, t: State)
    requires Ready(s)
  { PhiRegs(s.SubstBlock(s.SplitBlock()).phis, Some(s.CopyId(rb)), fin, env) == Some(t.regs)
    && t == fin.(regs := t.regs) }

  lemma EnterSplit(m: Module, s: Site, rb: nat, fin: State, env: Env, t: State, k: nat)
    requires Ready(s) && SplitState(s, rb, fin, env, t)
    ensures RunBlock(m, s.Inlined(), s.SplitId(), Some(s.CopyId(rb)), fin, env, k) ==
      if k == 0
        then OutOfFuel
        else RunInsts(m, s.Inlined(), Cur(s, s.bi, s.k + 1), Code(s, s.bi, s.k + 1), t, env, k - 1)
  {
    FindSplit(s);
    CodeAtSite(s);
    hide Ready;
    hide s.Inlined;
    hide Code;
    hide Cur;
    hide RunInsts;
  }

  ghost predicate Starves(m: Module, s: Site, st: State, t: State, env: Env, n: nat)
    requires Ready(s)
  {
    RunInsts(m, s.caller, s.Block().id, Rest(s, s.bi, s.k), st, env, n).OutOfFuel? ==>
      RunInsts(m, s.Inlined(), Cur(s, s.bi, s.k), Code(s, s.bi, s.k), t, env, n).OutOfFuel?
  }

  /** The call has been made and has returned, and so has its copy. */
  ghost predicate CameBack(m: Module, s: Site, st: State, t: State, env: Env, n: nat, rb: nat, fin: State, cost: nat,
      st': State, t': State)
    requires Ready(s)
  {
    && Resolves(m, s) && EvalAll(s.Call().args, st, env).Some?
    && var r := CallFn(m, s.callee, EvalAll(s.Call().args, st, env).value, st.trace, env.world, n);
    r.Ended? && Returned(s.Call().result, r.v, st.(trace := r.trace)) == Some(st')
      && LandsFrom(m, s, s.CopyId(0), s.Block().id, t, env, n, rb, fin, cost) && SplitState(s, rb, fin, env, t')
  }

  lemma Landing(m: Module, s: Site, st: State, t: State, env: Env, n: nat, rb: nat, fin: State, cost: nat, st': State,
      t': State, k: nat)
    requires Ready(s) && CameBack(m, s, st, t, env, n, rb, fin, cost, st', t') && n <= k
    ensures cost <= n
    ensures RunInsts(m, s.caller, s.Block().id, Rest(s, s.bi, s.k), st, env, n) ==
      RunInsts(m, s.caller, s.Block().id, Rest(s, s.bi, s.k + 1), st', env, n)
    ensures RunInsts(m, s.Inlined(), Cur(s, s.bi, s.k), Code(s, s.bi, s.k), t, env, k) ==
      if k == cost
        then OutOfFuel
        else RunInsts(m, s.Inlined(), Cur(s, s.bi, s.k + 1), Code(s, s.bi, s.k + 1), t', env, k - cost - 1)
  {
    hide Ready;
    hide s.Inlined;
    hide Code;
    hide Rest;
    hide Cur;
    hide Returned;
    hide CallFn;
    hide RunInsts;
    hide RunBlock;
    hide Resolves;
    hide SplitState;
    IsCall(s);
    UnfoldSite(m, s, st, t, env, n);
    UnfoldSite(m, s, st, t, env, k);
    EnterSplit(m, s, rb, fin, env, t', k - cost);
  }

  lemma SiteStarved(m: Module, s: Site, st: State, t: State, env: Env, n: nat, rb: nat, fin: State, cost: nat,
      st': State, t': State, n4: nat)
    requires Ready(s) && CameBack(m, s, st, t, env, n, rb, fin, cost, st', t')
    requires cost < n ==> SameInsts(m, s, s.bi, s.k + 1, st', t', env, n - cost - 1, n4)
    ensures Starves(m, s, st, t, env, n)
  {
    hide Ready;
    hide s.Inlined;
    hide Code;
    hide Rest;
    hide Cur;
    hide RunInsts;
    hide CameBack;
    IsCall(s);
    Landing(m, s, st, t, env, n, rb, fin, cost, st', t', n);
    if cost < n && !RunInsts(m, s.caller, s.Block().id, Rest(s, s.bi, s.k + 1), st', env, n - cost - 1).OutOfFuel? {
      MoreFuelInsts(m, s.caller, s.Block().id, Rest(s, s.bi, s.k + 1), st', env, n - cost - 1, n);
    }
  }

  lemma SiteEnded(m: Module, s: Site, st: State, t: State, env: Env, n: nat, rb: nat, fin: State, cost: nat, st': State,
      t': State, n3: nat) returns (n2: nat)
    requires Ready(s) && CameBack(m, s, st, t, env, n, rb, fin, cost, st', t') && Starves(m, s, st, t, env, n)
    requires SameInsts(m, s, s.bi, s.k + 1, st', t', env, n, n3)
    ensures SameInsts(m, s, s.bi, s.k, st, t, env, n, n2)
  {
    hide Ready;
    hide s.Inlined;
    hide Code;
    hide Rest;
    hide Cur;
    hide RunInsts;
    hide CameBack;
    IsCall(s);
    n2 := Max(n, n3 + 1 + cost);
    Landing(m, s, st, t, env, n, rb, fin, cost, st', t', n2);
    if RunInsts(m, s.caller, s.Block().id, Rest(s, s.bi, s.k + 1), st', env, n).Ended? {
      MoreFuelRest(m, s, s.bi, s.k + 1, st', t', env, n, n3, n2 - cost - 1);
    }
  }

  lemma SiteOut(m: Module, s: Site, st: State, t: State, env: Env, n: nat)
    requires Ready(s) && Resolves(m, s)
    requires EvalAll(s.Call().args, st, env).Some? ==>
      var r := CallFn(m, s.callee, EvalAll(s.Call().args, st, env).value, st.trace, env.world, n);
      && (r.Ended? ==> Returned(s.Call().result, r.v, st.(trace := r.trace)).None?)
      && (r.OutOfFuel? ==> RunBlock(m, s.Inlined(), s.CopyId(0), Some(s.Block().id), t, env, n).OutOfFuel?)
    ensures SameInsts(m, s, s.bi, s.k, st, t, env, n, n)
  {
    hide Ready;
    hide s.Inlined;
    hide Code;
    hide Rest;
    hide Cur;
    hide Returned;
    hide CallFn;
    hide RunInsts;
    hide RunBlock;
    hide Resolves;
    UnfoldSite(m, s, st, t, env, n);
  }

  lemma {:induction false} ThroughSite(m: Module, s: Site, st: State, t: State, env: Env, n: nat) returns (n2: nat)
    requires Ready(s) && Resolves(m, s) && Reached(s, s.bi) && RelAt(s, st, t, env, s.bi, s.k)
    ensures SameInsts(m, s, s.bi, s.k, st, t, env, n, n2)
    decreases n, 2, |s.caller.blocks[s.bi].insts| - s.k, 0
  {
    hide *;
    IsCall(s);
    CallArgs(s);
    SameOutside(s, st, t, env, s.bi, s.k);
    var i := s.Call();
    var xs := EvalAll(i.args, st, env);
    n2 := n;
    if xs.Some? {
      SiteArgs(s, st, t, env);
      var rb, fin, cost := CopyEntry(m, s, xs.value, t, env, n);
      var r := CallFn(m, s.callee, xs.value, st.trace, env.world, n);
      if r.Ended? && Returned(i.result, r.v, st.(trace := r.trace)).Some? {
        var st' := Returned(i.result, r.v, st.(trace := r.trace)).value;
        AfterCall(s, st, t, env, rb, r.v, r.trace, fin, st');
        var t' := fin.(regs := PhiRegs(s.SubstBlock(s.SplitBlock()).phis, Some(s.CopyId(rb)), fin, env).value);
        CameBackIs(m, s, st, t, env, n, rb, fin, cost, st', t');
        var n3 := MainInsts(m, s, s.bi, s.k + 1, st', t', env, n);
        var n4 := n;
        if cost < n { n4 := MainInsts(m, s, s.bi, s.k + 1, st', t', env, n - cost - 1); }
        SiteStarved(m, s, st, t, env, n, rb, fin, cost, st', t', n4);
        n2 := SiteEnded(m, s, st, t, env, n, rb, fin, cost, st', t', n3);
        return;
      }
    }
    SiteOut(m, s, st, t, env, n);
  }

  lemma CameBackIs(m: Module, s: Site, st: State, t: State, env: Env, n: nat, rb: nat, fin: State, cost: nat,
      st': State, t': State)
    requires Ready(s) && Resolves(m, s) && EvalAll(s.Call().args, st, env).Some?
    requires var r := CallFn(m, s.callee, EvalAll(s.Call().args, st, env).value, st.trace, env.world, n);
      r.Ended? && Returned(s.Call().result, r.v, st.(trace := r.trace)) == Some(st')
    requires LandsFrom(m, s, s.CopyId(0), s.Block().id, t, env, n, rb, fin, cost)
    requires var regs := PhiRegs(s.SubstBlock(s.SplitBlock()).phis, Some(s.CopyId(rb)), fin, env);
      regs.Some? && t' == fin.(regs := regs.value)
    ensures CameBack(m, s, st, t, env, n, rb, fin, cost, st', t') && cost <= n
  {
    hide Ready;
    hide s.Inlined;
    hide RunBlock;
    hide CallFn;
    hide Returned;
    IsCall(s);
  }

  // ----- Entering blocks -----

  /** How a block of the caller starts, before and after inlining. */
  lemma UnfoldBlock(m: Module, s: Site, c: nat, prev: Option<nat>, prev': Option<nat>, st: State, t: State, env: Env,
      k: nat)
    requires Ready(s) && c < |s.caller.blocks|
    ensures var id := s.caller.blocks[c].id; var regs := PhiRegs(s.caller.blocks[c].phis, prev, st, env);
      RunBlock(m, s.caller, id, prev, st, env, k) ==
        if k == 0 then OutOfFuel else if regs.None? then Trapped
        else RunInsts(m, s.caller, id, Rest(s, c, 0), st.(regs := regs.value), env, k - 1)
    ensures var id := s.caller.blocks[c].id; var regs := PhiRegs(s.SubstBlock(s.OldBlock(c)).phis, prev', t, env);
      RunBlock(m, s.Inlined(), id, prev', t, env, k) ==
        if k == 0 then OutOfFuel else if regs.None? then Trapped
        else RunInsts(m, s.Inlined(), Cur(s, c, 0), Code(s, c, 0), t.(regs := regs.value), env, k - 1)
  {
    IsCall(s);
    FindOld(s, c);
    FindCaller(s, c);
    CodeStart(s, c);
    hide Ready;
    hide s.Inlined;
    hide Code;
    hide Rest;
    hide Cur;
    hide RunInsts;
    hide s.SubstBlock;
    hide s.OldBlock;
  }

  lemma FindCaller(s: Site, c: nat)
    requires Ready(s) && c < |s.caller.blocks|
    ensures FindSsa(s.caller.blocks, s.caller.blocks[c].id) == Some(s.caller.blocks[c])
  { FindAt(s.caller.blocks, c); }

  lemma CodeStart(s: Site, c: nat)
    requires Ready(s) && c < |s.caller.blocks|
    ensures Rest(s, c, 0) == s.caller.blocks[c].insts && Code(s, c, 0) == s.SubstBlock(s.OldBlock(c)).insts
    ensures Cur(s, c, 0) == s.caller.blocks[c].id
  { hide SsaForm; }

  lemma BlockSame(m: Module, s: Site, a: nat, c: nat, st: State, t: State, env: Env, st': State, t': State, n: nat,
      n3: nat)
    requires Ready(s) && a < |s.caller.blocks| && c < |s.caller.blocks| && n > 0
    requires PhiRegs(s.caller.blocks[c].phis, Some(s.caller.blocks[a].id), st, env) == Some(st'.regs)
      && st' == st.(regs := st'.regs)
    requires PhiRegs(s.SubstBlock(s.OldBlock(c)).phis, Some(TailId(s, a)), t, env) == Some(t'.regs)
      && t' == t.(regs := t'.regs)
    requires SameInsts(m, s, c, 0, st', t', env, n - 1, n3)
    ensures SameBlock(m, s, a, s.caller.blocks[c].id, st, t, env, n, n3 + 1)
  {
    hide Ready;
    hide s.Inlined;
    hide Code;
    hide Rest;
    hide Cur;
    hide TailId;
    hide RunInsts;
    hide RunBlock;
    IsCall(s);
    UnfoldBlock(m, s, c, Some(s.caller.blocks[a].id), Some(TailId(s, a)), st, t, env, n);
    UnfoldBlock(m, s, c, Some(s.caller.blocks[a].id), Some(TailId(s, a)), st, t, env, n3 + 1);
  }

  lemma BlockOut(m: Module, s: Site, a: nat, id: nat, st: State, t: State, env: Env, n: nat)
    requires Ready(s) && a < |s.caller.blocks|
    requires var at := IndexOf(s.caller.blocks, id);
      n == 0 || at.None? || PhiRegs(s.caller.blocks[at.value].phis, Some(s.caller.blocks[a].id), st, env).None?
    ensures SameBlock(m, s, a, id, st, t, env, n, n)
  {
    hide Ready;
    IsCall(s);
    Starved(m, s.Inlined(), id, Some(TailId(s, a)), t, env);
    var at := IndexOf(s.caller.blocks, id);
    if at.Some? { FindAt(s.caller.blocks, at.value); }
    hide s.Inlined;
  }

  lemma {:induction false} MainBlock(m: Module, s: Site, a: nat, id: nat, st: State, t: State, env: Env,
      n: nat) returns (n2: nat)
    requires Ready(s) && Resolves(m, s) && a < |s.caller.blocks| && id in SuccIds(s.caller.blocks[a])
    requires Reached(s, a) && RelAt(s, st, t, env, a, |s.caller.blocks[a].insts| - 1)
    ensures SameBlock(m, s, a, id, st, t, env, n, n2)
    decreases n, 0, 0, 0
  {
    hide *;
    IsCall(s);
    n2 := n;
    var at := IndexOf(s.caller.blocks, id);
    if n > 0 && at.Some? && PhiRegs(s.caller.blocks[at.value].phis, Some(s.caller.blocks[a].id), st, env).Some? {
      var c := at.value;
      EnterAt(s, a, c, st, t, env);
      var st' := st.(regs := PhiRegs(s.caller.blocks[c].phis, Some(s.caller.blocks[a].id), st, env).value);
      var t' := t.(regs := PhiRegs(s.SubstBlock(s.OldBlock(c)).phis, Some(TailId(s, a)), t, env).value);
      var n3 := MainInsts(m, s, c, 0, st', t', env, n - 1);
      BlockSame(m, s, a, c, st, t, env, st', t', n, n3);
      n2 := n3 + 1;
    } else {
      BlockOut(m, s, a, id, st, t, env, n);
    }
  }
}
