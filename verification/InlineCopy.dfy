// The copied blocks run as the callee does (src/ir/ir_ipa.c:528-597): parameters are what was passed, registers are the
// fresh ones, and a return comes out at the split block.

module InlineCopies {
  import opened Options
  import opened Ir
  import opened SsaIr
  import opened Inlining
  import opened InlineStructure

  /** What the copies may rely on of the arguments: they are registers of the caller other than the result. */
  predicate ArgsOk(s: Site)
    requires s.Valid()
  {
    && |s.Call().args| == s.callee.params
    && (forall v :: v in s.Call().args && v.Reg? ==> v.id < s.caller.nextReg && s.Call().result != Some(v.id))
    && (s.Call().result.Some? ==> s.Call().result.value < s.caller.nextReg)
  }

  /** The caller's own registers are as they were. */
  ghost predicate OwnKept(s: Site, base: State, t: State) {
    forall r: nat ::
      r < s.caller.nextReg ==> (r in t.regs <==> r in base.regs) && (r in t.regs ==> t.regs[r] == base.regs[r])
  }

  ghost predicate RegsCopied(s: Site, g: State, t: State) {
    forall r: nat ::
      r in g.regs ==> r in s.Renaming() && s.Renaming()[r] in t.regs && t.regs[s.Renaming()[r]] == g.regs[r]
  }

  /** The callee in state `g`, and the caller in state `t` somewhere in the copies; `base` is the caller at the call. */
  ghost predicate CopyRel(s: Site, g: State, ge: Env, t: State, te: Env, base: State)
    requires s.Valid()
  {
    && ArgsOk(s) && t.trace == g.trace && t.slots == base.slots && te.world == ge.world
    && |ge.params| == s.callee.params
      && (forall p :: 0 <= p < |ge.params| ==> Eval(s.Call().args[p], base, te) == Some(ge.params[p]))
    && OwnKept(s, base, t) && RegsCopied(s, g, t)
  }

  /** A value of the callee, in the caller. */
  function Here(s: Site, v: Value): Value
    requires s.Valid()
  { s.Subst(s.Remap(v)) }

  lemma HereIs(s: Site, v: Value, g: State, ge: Env, t: State, te: Env, base: State)
    requires s.Valid() && CopyRel(s, g, ge, t, te, base) && Eval(v, g, ge).Some?
    ensures Eval(Here(s, v), t, te) == Eval(v, g, ge)
  {
    RenamingIs(s);
    match v
    case Param(p) => assert s.Call().args[p] in s.Call().args;
    case Reg(r) => assert r in g.regs;
    case _ =>
  }

  lemma {:induction false} HereAll(s: Site, vs: seq<Value>, g: State, ge: Env, t: State, te: Env, base: State)
    requires s.Valid() && CopyRel(s, g, ge, t, te, base) && EvalAll(vs, g, ge).Some?
    ensures EvalAll(s.SubstAll(s.RemapAll(vs)), t, te) == EvalAll(vs, g, ge)
  {
    hide CopyRel;
    if vs != [] {
      HereIs(s, vs[0], g, ge, t, te, base);
      HereAll(s, vs[1..], g, ge, t, te, base);
      assert s.SubstAll(s.RemapAll(vs))[1..] == s.SubstAll(s.RemapAll(vs[1..]));
    }
  }

  lemma CopySet(s: Site, g: State, ge: Env, t: State, te: Env, base: State, r: nat, x: Val)
    requires s.Valid() && CopyRel(s, g, ge, t, te, base) && r in s.Renaming()
    ensures CopyRel(s, g.(regs := g.regs[r := x]), ge, t.(regs := t.regs[s.RemapDst(r) := x]), te, base)
  {
    RenamingIs(s);
    hide s.Renaming;
  }

  /** The copy of an instruction, as it ends up in the caller. */
  function Copied(s: Site, i: Inst): Inst
    requires s.Valid()
  { s.SubstInst(s.CopyInst(i)) }

  predicate NoSlots(i: Inst) { !i.Alloca? && !i.Load? && !i.Store? }

  /** One step of the callee and its copy: other than a return, which the copy turns into a jump to the split block. */
  lemma CopyStep(s: Site, i: Inst, g: State, ge: Env, t: State, te: Env, base: State)
    requires s.Valid() && CopyRel(s, g, ge, t, te, base) && NoSlots(i)
      && (Dst(i).Some? ==> Dst(i).value in s.Renaming())
    ensures var a, b := Step(i, g, ge), Step(Copied(s, i), t, te);
      && (a.Next? ==> b.Next? && CopyRel(s, a.st, ge, b.st, te, base))
      && (a.Jump? ==> a.jst == g && b == Jump(s.CopyOf(a.target), t))
      && (a.Return? ==> a.rst == g && i.Ret? && b == Jump(s.SplitId(), t))
  {
    hide s.Renaming;
    hide s.CopyOf;
    hide s.Subst;
    hide s.Remap;
    match i
    case Const(d, v) =>
      if Eval(v, g, ge).Some? {
        HereIs(s, v, g, ge, t, te, base);
        CopySet(s, g, ge, t, te, base, d, Eval(v, g, ge).value);
      }
    case Bin(op, d, l, r) => CopyBin(s, op, d, l, r, g, ge, t, te, base);
    case Un(op, d, v) =>
      if Eval(v, g, ge).Some? {
        HereIs(s, v, g, ge, t, te, base);
        var x := UnVal(op, Eval(v, g, ge).value);
        if x.Some? { CopySet(s, g, ge, t, te, base, d, x.value); }
      }
    case Call(d, f, args) => CopyCall(s, d, f, args, g, ge, t, te, base);
    case Print(v) =>
      if Eval(v, g, ge).Some? {
        HereIs(s, v, g, ge, t, te, base);
        CopyTrace(s, g, ge, t, te, base, g.trace + [Printed(Eval(v, g, ge).value)]);
      }
    case CondBr(c, _, _) => if Eval(c, g, ge).Some? { HereIs(s, c, g, ge, t, te, base); }
    case _ =>
  }

  lemma CopyTrace(s: Site, g: State, ge: Env, t: State, te: Env, base: State, tr: seq<Event>)
    requires s.Valid() && CopyRel(s, g, ge, t, te, base)
    ensures CopyRel(s, g.(trace := tr), ge, t.(trace := tr), te, base)
  {}

  lemma CopyBin(s: Site, op: BinOp, d: nat, l: Value, r: Value, g: State, ge: Env, t: State, te: Env, base: State)
    requires s.Valid() && CopyRel(s, g, ge, t, te, base) && d in s.Renaming()
    ensures var a, b := Step(Bin(op, d, l, r), g, ge), Step(Copied(s, Bin(op, d, l, r)), t, te);
      a.Next? ==> b.Next? && CopyRel(s, a.st, ge, b.st, te, base)
  {
    hide s.Renaming;
    hide s.Subst;
    hide s.Remap;
    hide CopyRel;
    hide BinVal;
    var x, y := Eval(l, g, ge), Eval(r, g, ge);
    if x.Some? && y.Some? {
      HereIs(s, l, g, ge, t, te, base);
      HereIs(s, r, g, ge, t, te, base);
      var z := BinVal(op, x.value, y.value);
      if z.Some? { CopySet(s, g, ge, t, te, base, d, z.value); }
    }
  }

  lemma CopyCall(s: Site, d: Option<nat>, f: string, args: seq<Value>, g: State, ge: Env, t: State, te: Env,
      base: State)
    requires s.Valid() && CopyRel(s, g, ge, t, te, base) && (d.Some? ==> d.value in s.Renaming())
    ensures var i := Inst.Call(d, f, args); var a, b := Step(i, g, ge), Step(Copied(s, i), t, te);
      a.Next? ==> b.Next? && CopyRel(s, a.st, ge, b.st, te, base)
  {
    hide s.Renaming;
    hide s.Subst;
    hide s.Remap;
    if EvalAll(args, g, ge).Some? {
      HereAll(s, args, g, ge, t, te, base);
      var xs := EvalAll(args, g, ge).value;
      var res := ge.world(f, xs, g.trace);
      var tr := g.trace + [Called(f, xs, res)];
      CopyTrace(s, g, ge, t, te, base, tr);
      if d.Some? { CopySet(s, g.(trace := tr), ge, t.(trace := tr), te, base, d.value, res); }
    }
  }

  // ----- Phis -----

  /** The copy of what a phi reads for a predecessor is what its copy reads for the copy of that predecessor. */
  lemma {:induction false} CopyIncoming(s: Site, ins: seq<(nat, Value)>, ins': seq<(nat, Value)>, prev: nat)
    requires s.Valid() && IndexOf(s.callee.blocks, prev).Some? && |ins'| == |ins|
    requires forall i :: 0 <= i < |ins| ==> ins'[i] == (s.CopyOf(ins[i].0), Here(s, ins[i].1))
    ensures var v := Incoming(ins, prev);
      Incoming(ins', s.CopyOf(prev)) == if v.Some? then Some(Here(s, v.value)) else None
  {
    if ins != [] {
      assert ins'[0] == (s.CopyOf(ins[0].0), Here(s, ins[0].1));
      CopyIncoming(s, ins[1..], ins'[1..], prev);
    }
  }

  function CopiedPhi(s: Site, p: Phi): Phi
    requires s.Valid()
  { s.SubstPhi(s.CopyPhi(p)) }

  lemma PhiIncoming(s: Site, p: Phi, prev: nat)
    requires s.Valid() && IndexOf(s.callee.blocks, prev).Some?
    ensures CopiedPhi(s, p).dst == s.RemapDst(p.dst)
    ensures var v := Incoming(p.ins, prev);
      Incoming(CopiedPhi(s, p).ins, s.CopyOf(prev)) == if v.Some? then Some(Here(s, v.value)) else None
  { CopyIncoming(s, p.ins, CopiedPhi(s, p).ins, prev); }

  lemma {:induction false} CopyPhiRegs(s: Site, phis: seq<Phi>, copies: seq<Phi>, prev: nat, g: State, ge: Env,
      t: State, te: Env, base: State)
    requires s.Valid() && CopyRel(s, g, ge, t, te, base) && IndexOf(s.callee.blocks, prev).Some?
    requires |copies| == |phis| && forall i ::
      0 <= i < |phis| ==> copies[i] == CopiedPhi(s, phis[i]) && phis[i].dst in s.Renaming()
    requires PhiRegs(phis, Some(prev), g, ge).Some?
    ensures PhiRegs(copies, Some(s.CopyOf(prev)), t, te).Some?
    ensures CopyRel(s, g.(regs := PhiRegs(phis, Some(prev), g, ge).value), ge,
      t.(regs := PhiRegs(copies, Some(s.CopyOf(prev)), t, te).value), te, base)
  {
    hide CopyRel;
    hide s.Renaming;
    hide s.CopyOf;
    hide Here;
    hide CopiedPhi;
    if phis != [] {
      var n := |phis| - 1;
      CopyPhiRegs(s, phis[..n], copies[..n], prev, g, ge, t, te, base);
      PhiIncoming(s, phis[n], prev);
      var v := Incoming(phis[n].ins, prev).value;
      HereIs(s, v, g, ge, t, te, base);
      var front, front' := PhiRegs(phis[..n], Some(prev), g, ge).value,
        PhiRegs(copies[..n], Some(s.CopyOf(prev)), t, te).value;
      CopySet(s, g.(regs := front), ge, t.(regs := front'), te, base, phis[n].dst, Eval(v, g, ge).value);
    }
  }

  // ----- Whole runs -----

  /** The code of the `j`-th copied block. */
  function CopyCode(s: Site, j: nat): (r: seq<Inst>)
    requires s.Valid() && j < |s.callee.blocks|
    ensures |r| == |s.callee.blocks[j].insts| && forall q ::
      0 <= q < |r| ==> r[q] == Copied(s, s.callee.blocks[j].insts[q])
  { s.SubstInsts(s.CopyInsts(s.callee.blocks[j].insts)) }

  /** The callee has returned `v` from its block `rb`: the caller is in state `fin` at the end of the copy of that
      block. */
  ghost predicate Back(s: Site, base: State, rb: nat, v: Option<Val>, tr: seq<Event>, fin: State, te: Env)
    requires s.Valid()
  {
    && rb < |s.callee.blocks| && OwnKept(s, base, fin) && fin.trace == tr && fin.slots == base.slots
    && var insts := s.callee.blocks[rb].insts;
    insts != [] && insts[|insts|-1].Ret?
      && match insts[|insts|-1].val
         case None => v.None?
         case Some(w) =>
           v.Some? && Eval(Here(s, w), fin, te) == v && (w.Reg? ==> w.id in s.Renaming())
             && (w.Param? ==> w.idx < s.callee.params)
  }

  /** From the copy, with as much fuel as the callee got, the caller gets to the split block. */
  ghost predicate LandsAt(m: Module, s: Site, j: nat, q: nat, t: State, te: Env, n: nat, rb: nat, fin: State, cost: nat)
    requires Ready(s) && j < |s.callee.blocks| && q <= |s.callee.blocks[j].insts|
  {
    cost <= n && forall k: nat :: n <= k ==>
      RunInsts(m, s.Inlined(), s.CopyId(j), CopyCode(s, j)[q..], t, te, k) ==
        RunBlock(m, s.Inlined(), s.SplitId(), Some(s.CopyId(rb)), fin, te, k - cost)
  }

  /** The same for a block entered from `prev`. */
  ghost predicate LandsFrom(m: Module, s: Site, id: nat, prev: nat, t: State, te: Env, n: nat, rb: nat, fin: State,
      cost: nat)
    requires Ready(s)
  {
    0 < cost <= n && forall k: nat :: n <= k ==>
      RunBlock(m, s.Inlined(), id, Some(prev), t, te, k) ==
        RunBlock(m, s.Inlined(), s.SplitId(), Some(s.CopyId(rb)), fin, te, k - cost)
  }

  lemma CodeAt(s: Site, j: nat, q: nat)
    requires Ready(s) && j < |s.callee.blocks| && q < |s.callee.blocks[j].insts|
    ensures var insts := s.callee.blocks[j].insts;
      && insts[q..] != [] && insts[q..][0] == insts[q] && insts[q..][1..] == insts[q+1..] && NoSlots(insts[q])
      && CopyCode(s, j)[q..] != [] && CopyCode(s, j)[q..][0] == Copied(s, insts[q])
        && CopyCode(s, j)[q..][1..] == CopyCode(s, j)[q+1..]
      && (IsTerminator(insts[q]) ==> q == |insts| - 1)
      && (Dst(insts[q]).Some? ==> Dst(insts[q]).value in s.Renaming())
  {
    hide SsaForm;
    var insts := s.callee.blocks[j].insts;
    assert EndsOnce(s.callee.blocks[j]);
    if Dst(insts[q]).Some? { DefinedIsRenamed(s, j, q, Dst(insts[q]).value); }
  }

  /** After a call has returned to the callee, and to its copy. */
  lemma CopyReturned(s: Site, i: Inst, v: Option<Val>, tr: seq<Event>, g: State, ge: Env, t: State, te: Env,
      base: State)
    requires s.Valid() && CopyRel(s, g, ge, t, te, base) && i.Call? && (Dst(i).Some? ==> Dst(i).value in s.Renaming())
    requires Returned(i.result, v, g.(trace := tr)).Some?
    ensures var t' := Returned(Copied(s, i).result, v, t.(trace := tr));
      t'.Some? && CopyRel(s, Returned(i.result, v, g.(trace := tr)).value, ge, t'.value, te, base)
  {
    CopyTrace(s, g, ge, t, te, base, tr);
    hide s.Renaming;
    if i.result.Some? { CopySet(s, g.(trace := tr), ge, t.(trace := tr), te, base, i.result.value, v.value); }
    hide CopyRel;
  }

  lemma CopiedCall(s: Site, i: Inst)
    requires s.Valid() && i.Call?
    ensures Copied(s, i).Call? && Copied(s, i).callee == i.callee && Copied(s, i).args == s.SubstAll(s.RemapAll(i.args))
    ensures Copied(s, i).result == if i.result.Some? then Some(s.RemapDst(i.result.value)) else None
  {}

  lemma {:induction false} CopyInstsRun(m: Module, s: Site, j: nat, q: nat, g: State, ge: Env, t: State, te: Env,
      base: State, n: nat)
    returns (rb: nat, fin: State, cost: nat)
    requires Ready(s) && j < |s.callee.blocks| && q <= |s.callee.blocks[j].insts| && CopyRel(s, g, ge, t, te, base)
    ensures var r := RunInsts(m, s.callee, s.callee.blocks[j].id, s.callee.blocks[j].insts[q..], g, ge, n);
      && (r.OutOfFuel? ==> RunInsts(m, s.Inlined(), s.CopyId(j), CopyCode(s, j)[q..], t, te, n).OutOfFuel?)
      && (r.Ended? ==> LandsAt(m, s, j, q, t, te, n, rb, fin, cost) && Back(s, base, rb, r.v, r.trace, fin, te))
    decreases n, 2, |s.callee.blocks[j].insts| - q
  {
    rb, fin, cost := 0, t, 0;
    var insts := s.callee.blocks[j].insts;
    if q < |insts| {
      CodeAt(s, j, q);
      if insts[q].Call? && FindFn(m, insts[q].callee).Some? {
        rb, fin, cost := CopyThroughCall(m, s, j, q, g, ge, t, te, base, n);
      } else {
        rb, fin, cost := CopyThroughStep(m, s, j, q, g, ge, t, te, base, n);
      }
    }
  }

  lemma {:induction false} CopyThroughCall(m: Module, s: Site, j: nat, q: nat, g: State, ge: Env, t: State, te: Env,
      base: State, n: nat)
    returns (rb: nat, fin: State, cost: nat)
    requires Ready(s) && j < |s.callee.blocks| && q < |s.callee.blocks[j].insts| && CopyRel(s, g, ge, t, te, base)
    requires s.callee.blocks[j].insts[q].Call? && FindFn(m, s.callee.blocks[j].insts[q].callee).Some?
    ensures var r := RunInsts(m, s.callee, s.callee.blocks[j].id, s.callee.blocks[j].insts[q..], g, ge, n);
      && (r.OutOfFuel? ==> RunInsts(m, s.Inlined(), s.CopyId(j), CopyCode(s, j)[q..], t, te, n).OutOfFuel?)
      && (r.Ended? ==> LandsAt(m, s, j, q, t, te, n, rb, fin, cost) && Back(s, base, rb, r.v, r.trace, fin, te))
    decreases n, 2, |s.callee.blocks[j].insts| - q, 0
  {
    hide Ready;
    hide Copied;
    hide CopyRel;
    hide CopyCode;
    hide s.Inlined;
    hide s.Renaming;
    hide s.CopyId;
    hide Returned;
    hide Back;
    ReadyIs(s);
    CodeAt(s, j, q);
    rb, fin, cost := 0, t, 0;
    var i, code := s.callee.blocks[j].insts[q], CopyCode(s, j)[q..];
    CopiedCall(s, i);
    var xs := EvalAll(i.args, g, ge);
    if xs.Some? {
      HereAll(s, i.args, g, ge, t, te, base);
      WorldSame(s, g, ge, t, te, base);
      var h := m[FindFn(m, i.callee).value];
      var r := CallFn(m, h, xs.value, g.trace, ge.world, n);
      if r.Ended? && Returned(i.result, r.v, g.(trace := r.trace)).Some? {
        CopyReturned(s, i, r.v, r.trace, g, ge, t, te, base);
        var g', t' := Returned(i.result, r.v, g.(trace := r.trace)).value,
          Returned(Copied(s, i).result, r.v, t.(trace := r.trace)).value;
        rb, fin, cost := CopyInstsRun(m, s, j, q + 1, g', ge, t', te, base, n);
        forall k: nat | n <= k
          ensures RunInsts(m, s.Inlined(), s.CopyId(j), code, t, te, k) ==
            RunInsts(m, s.Inlined(), s.CopyId(j), CopyCode(s, j)[q+1..], t', te, k)
        { MoreFuelCall(m, h, xs.value, g.trace, ge.world, n, k); }
      }
    }
  }

  lemma WorldSame(s: Site, g: State, ge: Env, t: State, te: Env, base: State)
    requires s.Valid() && CopyRel(s, g, ge, t, te, base)
    ensures g.trace == t.trace && ge.world == te.world
  {}

  lemma {:induction false} CopyThroughStep(m: Module, s: Site, j: nat, q: nat, g: State, ge: Env, t: State, te: Env,
      base: State, n: nat)
    returns (rb: nat, fin: State, cost: nat)
    requires Ready(s) && j < |s.callee.blocks| && q < |s.callee.blocks[j].insts| && CopyRel(s, g, ge, t, te, base)
    requires !(s.callee.blocks[j].insts[q].Call? && FindFn(m, s.callee.blocks[j].insts[q].callee).Some?)
    ensures var r := RunInsts(m, s.callee, s.callee.blocks[j].id, s.callee.blocks[j].insts[q..], g, ge, n);
      && (r.OutOfFuel? ==> RunInsts(m, s.Inlined(), s.CopyId(j), CopyCode(s, j)[q..], t, te, n).OutOfFuel?)
      && (r.Ended? ==> LandsAt(m, s, j, q, t, te, n, rb, fin, cost) && Back(s, base, rb, r.v, r.trace, fin, te))
    decreases n, 2, |s.callee.blocks[j].insts| - q, 0
  {
    hide Ready;
    hide Copied;
    hide CopyRel;
    hide CopyCode;
    hide Step;
    hide s.Inlined;
    hide s.Renaming;
    hide s.CopyId;
    hide s.CopyOf;
    hide Back;
    ReadyIs(s);
    CodeAt(s, j, q);
    rb, fin, cost := 0, t, 0;
    var i, code := s.callee.blocks[j].insts[q], CopyCode(s, j)[q..];
    NotModuleCall(m, s, i);
    CopyStep(s, i, g, ge, t, te, base);
    var a, b := Step(i, g, ge), Step(Copied(s, i), t, te);
    if a.Next? {
      rb, fin, cost := CopyInstsRun(m, s, j, q + 1, a.st, ge, b.st, te, base, n);
      forall k: nat | n <= k
        ensures RunInsts(m, s.Inlined(), s.CopyId(j), code, t, te, k) ==
          RunInsts(m, s.Inlined(), s.CopyId(j), CopyCode(s, j)[q+1..], b.st, te, k)
      {}
    } else if a.Jump? {
      CopyIs(s, j);
      rb, fin, cost := CopyBlockRun(m, s, a.target, s.callee.blocks[j].id, g, ge, t, te, base, n);
      forall k: nat | n <= k
        ensures RunInsts(m, s.Inlined(), s.CopyId(j), code, t, te, k) ==
          RunBlock(m, s.Inlined(), s.CopyOf(a.target), Some(s.CopyId(j)), t, te, k)
      {}
    } else if a.Return? {
      BackHere(s, j, g, ge, t, te, base);
      rb := j;
    }
  }

  lemma NotModuleCall(m: Module, s: Site, i: Inst)
    requires s.Valid() && !(i.Call? && FindFn(m, i.callee).Some?)
    ensures !(Copied(s, i).Call? && FindFn(m, Copied(s, i).callee).Some?)
  {}

  lemma BackHere(s: Site, j: nat, g: State, ge: Env, t: State, te: Env, base: State)
    requires Ready(s) && j < |s.callee.blocks| && CopyRel(s, g, ge, t, te, base)
    requires var insts := s.callee.blocks[j].insts; insts != [] && Step(insts[|insts|-1], g, ge).Return?
    ensures var r := Step(s.callee.blocks[j].insts[|s.callee.blocks[j].insts|-1], g, ge);
      Back(s, base, j, r.v, r.rst.trace, t, te)
  {
    var i := s.callee.blocks[j].insts[|s.callee.blocks[j].insts|-1];
    if i.val.Some? { HereIs(s, i.val.value, g, ge, t, te, base); }
  }

  lemma {:induction false} CopyBlockRun(m: Module, s: Site, id: nat, prev: nat, g: State, ge: Env, t: State, te: Env,
      base: State, n: nat)
    returns (rb: nat, fin: State, cost: nat)
    requires Ready(s) && CopyRel(s, g, ge, t, te, base) && IndexOf(s.callee.blocks, prev).Some?
    ensures var r := RunBlock(m, s.callee, id, Some(prev), g, ge, n);
      && (r.OutOfFuel? ==> RunBlock(m, s.Inlined(), s.CopyOf(id), Some(s.CopyOf(prev)), t, te, n).OutOfFuel?)
      && (r.Ended? ==>
        LandsFrom(m, s, s.CopyOf(id), s.CopyOf(prev), t, te, n, rb, fin, cost)
          && Back(s, base, rb, r.v, r.trace, fin, te))
    decreases n, 0, 0
  {
    hide *;
    ReadyIs(s);
    rb, fin, cost := 0, t, 0;
    var at := IndexOf(s.callee.blocks, id);
    EntersCallee(m, s, id, Some(prev), g, ge, n);
    Starved(m, s.Inlined(), s.CopyOf(id), Some(s.CopyOf(prev)), t, te);
    if n > 0 && at.Some? {
      var j := at.value;
      CopyIs(s, j);
      var regs := PhiRegs(s.callee.blocks[j].phis, Some(prev), g, ge);
      if regs.Some? {
        CopyPhisOf(s, j, prev, g, ge, t, te, base);
        var t' := t.(regs := PhiRegs(s.SubstBlock(s.CopyBlock(j)).phis, Some(s.CopyOf(prev)), t, te).value);
        rb, fin, cost := CopyInstsRun(m, s, j, 0, g.(regs := regs.value), ge, t', te, base, n - 1);
        EnterCopy(m, s, j, s.CopyOf(prev), t, te, t');
        if RunBlock(m, s.callee, id, Some(prev), g, ge, n).Ended? {
          LandsWhole(m, s, j, s.CopyOf(prev), t, te, t', n, rb, fin, cost);
        }
        cost := cost + 1;
      }
    }
  }

  lemma Starved(m: Module, f: Fn, id: nat, prev: Option<nat>, st: State, env: Env)
    ensures RunBlock(m, f, id, prev, st, env, 0) == OutOfFuel
  {}

  /** How a block of the callee starts. */
  lemma EntersCallee(m: Module, s: Site, id: nat, prev: Option<nat>, g: State, ge: Env, n: nat)
    requires Ready(s)
    ensures var at := IndexOf(s.callee.blocks, id); var r := RunBlock(m, s.callee, id, prev, g, ge, n);
      if n == 0 then r == OutOfFuel
      else if at.None? || PhiRegs(s.callee.blocks[at.value].phis, prev, g, ge).None? then r == Trapped
      else
        r == RunInsts(m, s.callee, s.callee.blocks[at.value].id, s.callee.blocks[at.value].insts[0..],
          g.(regs := PhiRegs(s.callee.blocks[at.value].phis, prev, g, ge).value), ge, n - 1) &&
        id == s.callee.blocks[at.value].id
  {
    hide Ready;
    var at := IndexOf(s.callee.blocks, id);
    if at.Some? {
      FindAt(s.callee.blocks, at.value);
      assert s.callee.blocks[at.value].insts[0..] == s.callee.blocks[at.value].insts;
    }
  }

  lemma LandsWhole(m: Module, s: Site, j: nat, prev: nat, t: State, te: Env, t': State, n: nat, rb: nat, fin: State,
      cost: nat)
    requires Ready(s) && j < |s.callee.blocks| && n > 0 && LandsAt(m, s, j, 0, t', te, n - 1, rb, fin, cost)
    requires forall k: nat :: k > 0 ==>
      RunBlock(m, s.Inlined(), s.CopyId(j), Some(prev), t, te, k) ==
        RunInsts(m, s.Inlined(), s.CopyId(j), CopyCode(s, j)[0..], t', te, k - 1)
    ensures LandsFrom(m, s, s.CopyId(j), prev, t, te, n, rb, fin, cost + 1)
  {
    hide Ready;
    hide RunBlock;
    hide RunInsts;
    hide CopyCode;
    hide s.Inlined;
    hide s.CopyId;
  }

  lemma CopyPhisOf(s: Site, j: nat, prev: nat, g: State, ge: Env, t: State, te: Env, base: State)
    requires Ready(s) && j < |s.callee.blocks| && CopyRel(s, g, ge, t, te, base) && IndexOf(s.callee.blocks, prev).Some?
    requires PhiRegs(s.callee.blocks[j].phis, Some(prev), g, ge).Some?
    ensures PhiRegs(s.SubstBlock(s.CopyBlock(j)).phis, Some(s.CopyOf(prev)), t, te).Some?
    ensures CopyRel(s, g.(regs := PhiRegs(s.callee.blocks[j].phis, Some(prev), g, ge).value), ge,
      t.(regs := PhiRegs(s.SubstBlock(s.CopyBlock(j)).phis, Some(s.CopyOf(prev)), t, te).value), te, base)
  {
    PhisRenamed(s, j);
    hide CopyRel;
    hide SsaForm;
    CopyPhiRegs(s, s.callee.blocks[j].phis, s.SubstBlock(s.CopyBlock(j)).phis, prev, g, ge, t, te, base);
  }

  /** Entering a copied block runs its code. */
  lemma EnterCopy(m: Module, s: Site, j: nat, prev: nat, t: State, te: Env, t': State)
    requires Ready(s) && j < |s.callee.blocks|
    requires var regs := PhiRegs(s.SubstBlock(s.CopyBlock(j)).phis, Some(prev), t, te);
      regs.Some? && t' == t.(regs := regs.value)
    ensures forall k: nat :: k > 0 ==>
      RunBlock(m, s.Inlined(), s.CopyId(j), Some(prev), t, te, k) ==
        RunInsts(m, s.Inlined(), s.CopyId(j), CopyCode(s, j)[0..], t', te, k - 1)
  {
    FindCopy(s, j);
    hide Ready;
    hide s.Inlined;
    hide s.CopyId;
    assert CopyCode(s, j)[0..] == s.SubstBlock(s.CopyBlock(j)).insts;
  }

  lemma PhisRenamed(s: Site, j: nat)
    requires Ready(s) && j < |s.callee.blocks|
    ensures forall i :: 0 <= i < |s.callee.blocks[j].phis| ==> s.callee.blocks[j].phis[i].dst in s.Renaming()
  {
    forall i | 0 <= i < |s.callee.blocks[j].phis| ensures s.callee.blocks[j].phis[i].dst in s.Renaming() {
      assert PhiDefs(s.callee.blocks[j].phis)[i] == s.callee.blocks[j].phis[i].dst;
      DefinedIsRenamed(s, j, -1, s.callee.blocks[j].phis[i].dst);
    }
  }

  /** From the end of the block with the call, where the arguments have been worked out. */
  lemma CopyEntry(m: Module, s: Site, xs: seq<Val>, t: State, te: Env, n: nat) returns (rb: nat, fin: State, cost: nat)
    requires Ready(s) && ArgsOk(s) && EvalAll(s.Call().args, t, te) == Some(xs)
    ensures var r := CallFn(m, s.callee, xs, t.trace, te.world, n);
      && (r.OutOfFuel? ==> RunBlock(m, s.Inlined(), s.CopyId(0), Some(s.Block().id), t, te, n).OutOfFuel?)
      && (r.Ended? ==>
        LandsFrom(m, s, s.CopyId(0), s.Block().id, t, te, n, rb, fin, cost) && Back(s, t, rb, r.v, r.trace, fin, te))
  {
    hide *;
    rb, fin, cost := 0, t, 0;
    ReadyIs(s);
    CallsCallee(m, s, xs, t.trace, te.world, n);
    Starved(m, s.Inlined(), s.CopyId(0), Some(s.Block().id), t, te);
    if n > 0 && s.callee.blocks[0].phis == [] {
      var g, ge := State(map[], map[], t.trace), Env(xs, te.world);
      StartRel(s, xs, t, te);
      rb, fin, cost := CopyInstsRun(m, s, 0, 0, g, ge, t, te, t, n - 1);
      EntryPhis(s, s.Block().id, t, te);
      EnterCopy(m, s, 0, s.Block().id, t, te, t);
      if CallFn(m, s.callee, xs, t.trace, te.world, n).Ended? {
        LandsWhole(m, s, 0, s.Block().id, t, te, t, n, rb, fin, cost);
      }
      cost := cost + 1;
    }
  }

  lemma CallsCallee(m: Module, s: Site, xs: seq<Val>, tr: seq<Event>, world: World, n: nat)
    requires Ready(s)
    ensures var r := CallFn(m, s.callee, xs, tr, world, n);
      if n == 0 then r == OutOfFuel
      else if s.callee.blocks[0].phis != [] then r == Trapped
      else
        r == RunInsts(m, s.callee, s.callee.blocks[0].id, s.callee.blocks[0].insts[0..], State(map[], map[], tr),
          Env(xs, world), n - 1)
  {
    hide SsaForm;
    IndexAt(s.callee.blocks, 0);
    EntersCallee(m, s, s.callee.blocks[0].id, None, State(map[], map[], tr), Env(xs, world), n);
  }

  lemma EntryPhis(s: Site, prev: nat, t: State, te: Env)
    requires Ready(s) && s.callee.blocks[0].phis == []
    ensures PhiRegs(s.SubstBlock(s.CopyBlock(0)).phis, Some(prev), t, te) == Some(t.regs)
  { assert s.SubstBlock(s.CopyBlock(0)).phis == []; }

  lemma {:induction false} ArgEval(args: seq<Value>, xs: seq<Val>, t: State, te: Env)
    requires EvalAll(args, t, te) == Some(xs)
    ensures |xs| == |args| && forall p :: 0 <= p < |xs| ==> Eval(args[p], t, te) == Some(xs[p])
  { if args != [] { ArgEval(args[1..], xs[1..], t, te); } }

  lemma StartRel(s: Site, xs: seq<Val>, t: State, te: Env)
    requires Ready(s) && ArgsOk(s) && EvalAll(s.Call().args, t, te) == Some(xs)
    ensures CopyRel(s, State(map[], map[], t.trace), Env(xs, te.world), t, te, t)
  {
    ArgEval(s.Call().args, xs, t, te);
    hide SsaForm;
  }
}
