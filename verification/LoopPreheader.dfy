module LoopPreheaders {
  // Giving a loop a preheader: a block of its own through which it is entered (src/ir/ir_loop.c:264-384).

  import opened Options
  import opened Ir
  import opened SsaIr
  import opened Exchanges
  import opened Graphs
  import opened Inlining
  import opened InlineEditing
  import opened InlineStructure
  import opened InlinePaths
  import opened LoopAnalysis
  import S = InlineSafety

  const MAX_OUTSIDE := 32

  /** The blocks outside the loop that lead to its header, in order. */
  function Outside(blocks: seq<SsaBlock>, loop: Loop): seq<nat> {
    if blocks == [] then []
    else
      var b := blocks[|blocks|-1];
      Outside(blocks[..|blocks|-1], loop) + if loop.header in SuccIds(b) && b.id !in loop.blocks then [b.id] else []
  }

  /** The ones there is room to note. */
  function Noticed(blocks: seq<SsaBlock>, loop: Loop): seq<nat> {
    var outs := Outside(blocks, loop);
    if |outs| <= MAX_OUTSIDE then outs else outs[..MAX_OUTSIDE]
  }

  // ----- What the function becomes -----

  /** The edit: preheader `pre`, header `header`, entered from `outs`; new registers from `next` on. */
  datatype Edit = Edit(outs: seq<nat>, header: nat, pre: nat, next: nat) {
    function Redirect(i: Inst): Inst {
      match i
      case Br(t) => Br(if t == header then pre else t)
      case CondBr(c, t, f) => CondBr(c, if t == header then pre else t, if f == header then pre else f)
      case _ => i
    }

    function RedirectLast(insts: seq<Inst>): (r: seq<Inst>)
      ensures |r| == |insts|
    { if insts == [] then [] else insts[|insts|-1 := Redirect(insts[|insts|-1])] }

    /** The inputs of a phi that come from the outside, or those that do not. */
    function Part(ins: seq<(nat, Value)>, outside: bool): seq<(nat, Value)> {
      if ins == [] then [] else (if (ins[0].0 in outs) == outside then [ins[0]] else []) + Part(ins[1..], outside)
    }

    function Renamed(ins: seq<(nat, Value)>): (r: seq<(nat, Value)>)
      ensures |r| == |ins|
      ensures forall q :: 0 <= q < |ins| ==> r[q] == (if ins[q].0 in outs then pre else ins[q].0, ins[q].1)
    { seq(|ins|, q requires 0 <= q < |ins| => (if ins[q].0 in outs then pre else ins[q].0, ins[q].1)) }

    /** The `k`-th phi of the header: with several outside predecessors, a phi of the preheader gathers what they
        send. */
    function HeaderPhi(p: Phi, k: nat): Phi {
      Phi(p.dst, if |outs| <= 1 then Renamed(p.ins) else Part(p.ins, false) + [(pre, Reg(next + k))])
    }

    function HeaderPhis(phis: seq<Phi>): (r: seq<Phi>)
      ensures |r| == |phis| && forall k :: 0 <= k < |phis| ==> r[k] == HeaderPhi(phis[k], k)
    { seq(|phis|, k requires 0 <= k < |phis| => HeaderPhi(phis[k], k)) }

    /** The phis of the preheader for the first `n` of the header, each put in front of those before it. */
    function PrePhis(phis: seq<Phi>, n: nat): (r: seq<Phi>)
      requires n <= |phis|
      ensures |r| == if |outs| <= 1 then 0 else n
    { if |outs| <= 1 || n == 0 then [] else [Phi(next + n - 1, Part(phis[n-1].ins, true))] + PrePhis(phis, n - 1) }

    function Block(b: SsaBlock): SsaBlock {
      SsaBlock(b.id, if b.id == header
        then HeaderPhis(b.phis)
        else b.phis, if b.id in outs then RedirectLast(b.insts) else b.insts)
    }

    function Blocks(blocks: seq<SsaBlock>): (r: seq<SsaBlock>)
      ensures |r| == |blocks| && forall i :: 0 <= i < |blocks| ==> r[i] == Block(blocks[i])
    { seq(|blocks|, i requires 0 <= i < |blocks| => Block(blocks[i])) }

    function Preheader(phis: seq<Phi>): SsaBlock { SsaBlock(pre, PrePhis(phis, |phis|), [Br(header)]) }
  }

  function EditOf(f: Fn, loop: Loop): Edit { Edit(Noticed(f.blocks, loop), loop.header, f.nextBlock, f.nextReg) }

  /** The phis of the header, none if there is no such block. */
  function PhisOf(blocks: seq<SsaBlock>, header: nat): seq<Phi> {
    if FindSsa(blocks, header).Some? then FindSsa(blocks, header).value.phis else []
  }

  function WithPreheader(f: Fn, loop: Loop): Fn {
    var e, phis := EditOf(f, loop), PhisOf(f.blocks, loop.header);
    f.(blocks := e.Blocks(f.blocks) + [e.Preheader(phis)], nextReg := f.nextReg + (if |e.outs| <= 1 then 0 else |phis|),
       nextBlock := f.nextBlock + 1)
  }

  /** A single outside predecessor that leads nowhere else serves as the preheader. */
  predicate Dedicated(f: Fn, loop: Loop) {
    && |Noticed(f.blocks, loop)| == 1
    && var b := FindSsa(f.blocks, Noticed(f.blocks, loop)[0]);
      b.Some? && forall t :: t in SuccIds(b.value) ==> t == loop.header
  }

  // ----- Parts -----

  predicate Below(f: Fn, v: Value) { v.Reg? ==> v.id < f.nextReg }

  predicate InstBelow(f: Fn, i: Inst) {
    (forall v :: v in Operands(i) ==> Below(f, v)) && (Dst(i).Some? ==> Dst(i).value < f.nextReg)
  }

  predicate PhiBelow(f: Fn, p: Phi) {
    p.dst < f.nextReg && forall q :: 0 <= q < |p.ins| ==> Below(f, p.ins[q].1) && p.ins[q].0 < f.nextBlock
  }

  predicate BlockBelow(f: Fn, b: SsaBlock) {
    && (forall k :: 0 <= k < |b.insts| ==> InstBelow(f, b.insts[k]))
    && (forall k :: 0 <= k < |b.phis| ==> PhiBelow(f, b.phis[k]))
  }

  /** Blocks that end once and lead to blocks; numbers of blocks and registers are below the next free ones. */
  predicate Regular(f: Fn) {
    && InlineStructure.Blocks(f) && Known(f)
    && forall i :: 0 <= i < |f.blocks| ==> BlockBelow(f, f.blocks[i])
  }

  lemma {:induction false} FindMapped(e: Edit, blocks: seq<SsaBlock>, id: nat)
    ensures var b := FindSsa(blocks, id);
      FindSsa(e.Blocks(blocks), id) == if b.Some? then Some(e.Block(b.value)) else None
  {
    if blocks != [] && blocks[0].id != id {
      FindMapped(e, blocks[1..], id);
      assert e.Blocks(blocks)[1..] == e.Blocks(blocks[1..]);
    }
  }

  lemma {:induction false} FindAppended(blocks: seq<SsaBlock>, last: SsaBlock, id: nat)
    ensures FindSsa(blocks + [last], id) ==
      if FindSsa(blocks, id).Some? then FindSsa(blocks, id) else if last.id == id then Some(last) else None
  {
    if blocks == [] {
      assert blocks + [last] == [last] && [last][1..] == [];
    } else if blocks[0].id != id {
      FindAppended(blocks[1..], last, id);
      assert (blocks + [last])[1..] == blocks[1..] + [last];
    }
  }

  /** The blocks of before are where they were, edited. */
  lemma FindEdited(f: Fn, loop: Loop, id: nat)
    requires Regular(f)
    ensures var e := EditOf(f, loop); var b := FindSsa(f.blocks, id);
      && (id != e.pre ==>
        FindSsa(WithPreheader(f, loop).blocks, id) == if b.Some? then Some(e.Block(b.value)) else None)
      && FindSsa(WithPreheader(f, loop).blocks, e.pre) == Some(e.Preheader(PhisOf(f.blocks, loop.header)))
  {
    var e, last := EditOf(f, loop), EditOf(f, loop).Preheader(PhisOf(f.blocks, loop.header));
    FindMapped(e, f.blocks, id);
    FindMapped(e, f.blocks, e.pre);
    FindAppended(e.Blocks(f.blocks), last, id);
    FindAppended(e.Blocks(f.blocks), last, e.pre);
    hide e.Block;
    assert forall b :: b in f.blocks ==> b.id < e.pre;
  }

  // ----- States -----

  /** The same registers but for the new ones. */
  ghost predicate Rel(f: Fn, st: State, t: State) {
    && t.slots == st.slots && t.trace == st.trace
    && (forall r: nat :: r in st.regs ==> r < f.nextReg)
    && (forall r: nat ::
      r < f.nextReg ==> (r in t.regs <==> r in st.regs) && (r in st.regs ==> t.regs[r] == st.regs[r]))
  }

  lemma EvalRel(f: Fn, v: Value, st: State, t: State, env: Env)
    requires Rel(f, st, t) && Below(f, v)
    ensures Eval(v, t, env) == Eval(v, st, env)
  {}

  lemma {:induction false} EvalAllRel(f: Fn, vs: seq<Value>, st: State, t: State, env: Env)
    requires Rel(f, st, t) && forall v :: v in vs ==> Below(f, v)
    ensures EvalAll(vs, t, env) == EvalAll(vs, st, env)
  {
    hide Rel;
    hide Below;
    if vs != [] {
      EvalRel(f, vs[0], st, t, env);
      EvalAllRel(f, vs[1..], st, t, env);
    }
  }

  lemma SetRel(f: Fn, st: State, t: State, r: nat, x: Val)
    requires Rel(f, st, t) && r < f.nextReg
    ensures Rel(f, st.(regs := st.regs[r := x]), t.(regs := t.regs[r := x]))
  {}

  lemma StepRel(f: Fn, i: Inst, st: State, t: State, env: Env)
    requires Rel(f, st, t) && InstBelow(f, i)
    ensures var a, b := Step(i, st, env), Step(i, t, env);
      && (a.Next? ==> b.Next? && Rel(f, a.st, b.st))
      && (a.Jump? ==> a.jst == st && b == Jump(a.target, t))
      && (a.Return? ==> a.rst == st && b == Return(a.v, t))
      && (a.Trap? ==> b.Trap?)
  {
    assert forall v :: v in Operands(i) ==> Below(f, v);
    match i {
      case Alloca(_) =>
      case Load(d, s) => if s in st.slots { SetRel(f, st, t, d, st.slots[s]); }
      case Store(v, _) => EvalRel(f, v, st, t, env);
      case Const(d, v) =>
        EvalRel(f, v, st, t, env);
        if Eval(v, st, env).Some? { SetRel(f, st, t, d, Eval(v, st, env).value); }
      case Bin(op, d, l, r) => BinRel(f, op, d, l, r, st, t, env);
      case Un(op, d, v) =>
        EvalRel(f, v, st, t, env);
        if Eval(v, st, env).Some? && UnVal(op, Eval(v, st, env).value).Some? {
          SetRel(f, st, t, d, UnVal(op, Eval(v, st, env).value).value);
        }
      case Call(_, _, args) => EvalAllRel(f, args, st, t, env);
      case Print(v) => EvalRel(f, v, st, t, env);
      case Br(_) =>
      case CondBr(c, _, _) => EvalRel(f, c, st, t, env);
      case Ret(None) =>
      case Ret(Some(v)) => EvalRel(f, v, st, t, env);
    }
  }

  lemma BinRel(f: Fn, op: BinOp, d: nat, l: Value, r: Value, st: State, t: State, env: Env)
    requires Rel(f, st, t) && InstBelow(f, Bin(op, d, l, r))
    ensures var a, b := Step(Bin(op, d, l, r), st, env), Step(Bin(op, d, l, r), t, env);
      (a.Next? && b.Next? && Rel(f, a.st, b.st)) || (a.Trap? && b.Trap?)
  {
    assert l in Operands(Bin(op, d, l, r)) && r in Operands(Bin(op, d, l, r));
    EvalRel(f, l, st, t, env);
    EvalRel(f, r, st, t, env);
    hide BinVal;
    var x, y := Eval(l, st, env), Eval(r, st, env);
    if x.Some? && y.Some? && BinVal(op, x.value, y.value).Some? {
      SetRel(f, st, t, d, BinVal(op, x.value, y.value).value);
    }
  }

  /** What a phi reads. */
  function Read(p: Phi, prev: Option<nat>, st: State, env: Env): Option<Val> {
    if prev.None? then None
    else match Incoming(p.ins, prev.value)
      case None => None
      case Some(v) => Eval(v, st, env)
  }

  /** Phis that read the same leave the same registers. */
  lemma {:induction false} PhisRel(f: Fn, phis: seq<Phi>, phis': seq<Phi>, prev: Option<nat>, prev': Option<nat>,
      st: State, t: State, env: Env)
    requires Rel(f, st, t) && |phis'| == |phis|
    requires forall k :: 0 <= k < |phis| ==>
      phis'[k].dst == phis[k].dst < f.nextReg && Read(phis'[k], prev', t, env) == Read(phis[k], prev, st, env)
    ensures var a, b := PhiRegs(phis, prev, st, env), PhiRegs(phis', prev', t, env);
      (a.None? && b.None?) || (a.Some? && b.Some? && Rel(f, st.(regs := a.value), t.(regs := b.value)))
  {
    hide Rel;
    if phis != [] {
      var n := |phis| - 1;
      PhisRel(f, phis[..n], phis'[..n], prev, prev', st, t, env);
      assert Read(phis'[n], prev', t, env) == Read(phis[n], prev, st, env);
      var a, b := PhiRegs(phis[..n], prev, st, env), PhiRegs(phis'[..n], prev', t, env);
      if a.Some? && Read(phis[n], prev, st, env).Some? {
        SetRel(f, st.(regs := a.value), t.(regs := b.value), phis[n].dst, Read(phis[n], prev, st, env).value);
      }
    }
  }

  // ----- What the phis read -----

  lemma {:induction false} PartIncoming(e: Edit, ins: seq<(nat, Value)>, outside: bool, prev: nat)
    ensures Incoming(e.Part(ins, outside), prev) == if (prev in e.outs) == outside then Incoming(ins, prev) else None
  {
    if ins != [] {
      PartIncoming(e, ins[1..], outside, prev);
      if (ins[0].0 in e.outs) == outside {
        assert ([ins[0]] + e.Part(ins[1..], outside))[1..] == e.Part(ins[1..], outside);
      } else {
        assert [] + e.Part(ins[1..], outside) == e.Part(ins[1..], outside);
      }
    }
  }

  lemma {:induction false} IncomingLast(ins: seq<(nat, Value)>, last: (nat, Value), prev: nat)
    ensures Incoming(ins + [last], prev) ==
      if Incoming(ins, prev).Some? then Incoming(ins, prev) else if last.0 == prev then Some(last.1) else None
  {
    if ins == [] {
      assert ins + [last] == [last] && [last][1..] == [];
    } else {
      IncomingLast(ins[1..], last, prev);
      assert (ins + [last])[1..] == ins[1..] + [last];
    }
  }

  lemma {:induction false} RenamedIncoming(e: Edit, ins: seq<(nat, Value)>, prev: nat)
    requires |e.outs| <= 1 && forall q :: 0 <= q < |ins| ==> ins[q].0 != e.pre
    ensures prev !in e.outs && prev != e.pre ==> Incoming(e.Renamed(ins), prev) == Incoming(ins, prev)
    ensures prev in e.outs ==> Incoming(e.Renamed(ins), e.pre) == Incoming(ins, prev)
  {
    if ins != [] {
      RenamedIncoming(e, ins[1..], prev);
      assert e.Renamed(ins)[1..] == e.Renamed(ins[1..]);
    }
  }

  lemma {:induction false} NoPre(e: Edit, ins: seq<(nat, Value)>, prev: nat)
    requires forall q :: 0 <= q < |ins| ==> ins[q].0 != prev
    ensures Incoming(ins, prev) == None
  { if ins != [] { NoPre(e, ins[1..], prev); } }

  /** A phi of the header reads as before when it is entered from within the loop. */
  lemma ReadInside(e: Edit, p: Phi, k: nat, prev: nat)
    requires prev !in e.outs && prev != e.pre && forall q :: 0 <= q < |p.ins| ==> p.ins[q].0 != e.pre
    ensures Incoming(e.HeaderPhi(p, k).ins, prev) == Incoming(p.ins, prev)
  {
    if |e.outs| <= 1 {
      RenamedIncoming(e, p.ins, prev);
    } else {
      PartIncoming(e, p.ins, false, prev);
      IncomingLast(e.Part(p.ins, false), (e.pre, Reg(e.next + k)), prev);
    }
  }

  /** Entered from the preheader, it reads what was sent from the outside, or the phi of the preheader. */
  lemma ReadOutside(e: Edit, p: Phi, k: nat, prev: nat)
    requires prev in e.outs && forall q :: 0 <= q < |p.ins| ==> p.ins[q].0 != e.pre
    ensures |e.outs| <= 1 ==> Incoming(e.HeaderPhi(p, k).ins, e.pre) == Incoming(p.ins, prev)
    ensures |e.outs| > 1 ==> Incoming(e.HeaderPhi(p, k).ins, e.pre) == Some(Reg(e.next + k))
  {
    if |e.outs| <= 1 {
      RenamedIncoming(e, p.ins, prev);
    } else {
      NoPre(e, p.ins, e.pre);
      PartIncoming(e, p.ins, false, e.pre);
      IncomingLast(e.Part(p.ins, false), (e.pre, Reg(e.next + k)), e.pre);
    }
  }

  lemma PhiStep(phis: seq<Phi>, prev: Option<nat>, st: State, env: Env)
    requires phis != []
    ensures var n := |phis| - 1;
      var a, x := PhiRegs(phis[..n], prev, st, env), Read(phis[n], prev, st, env);
      PhiRegs(phis, prev, st, env) == if a.Some? && x.Some? then Some(a.value[phis[n].dst := x.value]) else None
  {}

  lemma NoPhis(prev: Option<nat>, st: State, env: Env)
    ensures PhiRegs([], prev, st, env).Some?
  {}

  lemma {:induction false} PhiSome(phis: seq<Phi>, prev: Option<nat>, st: State, env: Env)
    ensures PhiRegs(phis, prev, st, env).Some? <==> forall k :: 0 <= k < |phis| ==> Read(phis[k], prev, st, env).Some?
  {
    hide *;
    if phis != [] {
      var n := |phis| - 1;
      PhiSome(phis[..n], prev, st, env);
      PhiStep(phis, prev, st, env);
      assert phis == phis[..n] + [phis[n]];
    } else {
      NoPhis(prev, st, env);
    }
  }

  /** A phi put in front of others changes its own register only. */
  lemma {:induction false} PhiFront(p: Phi, rest: seq<Phi>, prev: Option<nat>, st: State, env: Env)
    requires forall k :: 0 <= k < |rest| ==> rest[k].dst != p.dst
    ensures var a, x := PhiRegs(rest, prev, st, env), Read(p, prev, st, env);
      PhiRegs([p] + rest, prev, st, env) == if a.Some? && x.Some? then Some(a.value[p.dst := x.value]) else None
    decreases |rest|
  {
    var all := [p] + rest;
    if rest == [] {
      assert all == [p] && [p][..0] == [];
    } else {
      var n := |rest| - 1;
      PhiFront(p, rest[..n], prev, st, env);
      assert all[..|all|-1] == [p] + rest[..n] && all[|all|-1] == rest[n];
      var a, x, y := PhiRegs(rest[..n], prev, st, env), Read(p, prev, st, env), Read(rest[n], prev, st, env);
      if a.Some? && x.Some? && y.Some? {
        assert a.value[p.dst := x.value][rest[n].dst := y.value] == a.value[rest[n].dst := y.value][p.dst := x.value];
      }
    }
  }

  /** After the phis of the preheader their registers hold what the phis of the header would have read. */
  ghost predicate Gathered(e: Edit, phis: seq<Phi>, n: nat, o: nat, st: State, t: State, env: Env,
      regs: Option<map<nat, Val>>)
    requires n <= |phis|
  {
    && (regs.Some? <==> forall k :: 0 <= k < n ==> Read(phis[k], Some(o), st, env).Some?)
    && (regs.Some? ==>
      && (forall r: nat ::
        r < e.next || r >= e.next + n ==>
          (r in regs.value <==> r in t.regs) && (r in t.regs ==> regs.value[r] == t.regs[r]))
      && forall k :: 0 <= k < n ==> GatheredAt(e, phis[k], k, o, st, env, regs.value))
  }

  ghost predicate GatheredAt(e: Edit, p: Phi, k: nat, o: nat, st: State, env: Env, regs: map<nat, Val>) {
    e.next + k in regs && Some(regs[e.next + k]) == Read(p, Some(o), st, env)
  }

  lemma {:induction false} PreDsts(e: Edit, phis: seq<Phi>, n: nat)
    requires n <= |phis| && |e.outs| > 1
    ensures forall j :: 0 <= j < n ==> e.PrePhis(phis, n)[j].dst < e.next + n
  { if n > 0 { PreDsts(e, phis, n - 1); } }

  lemma GatherStep(e: Edit, phis: seq<Phi>, n: nat, o: nat, st: State, t: State, env: Env, a: Option<map<nat, Val>>)
    requires 0 < n <= |phis| && Gathered(e, phis, n - 1, o, st, t, env, a)
    ensures var x := Read(phis[n-1], Some(o), st, env);
      Gathered(e, phis, n, o, st, t, env, if a.Some? && x.Some? then Some(a.value[e.next + n - 1 := x.value]) else None)
  {
    hide Read;
    var x := Read(phis[n-1], Some(o), st, env);
    if a.None? {
      var k :| 0 <= k < n - 1 && Read(phis[k], Some(o), st, env).None?;
    } else if x.Some? {
      var regs := a.value[e.next + n - 1 := x.value];
      forall k: nat | k < n ensures GatheredAt(e, phis[k], k, o, st, env, regs) {
        if k < n - 1 { assert GatheredAt(e, phis[k], k, o, st, env, a.value); }
      }
    }
  }

  lemma PreReads(f: Fn, e: Edit, p: Phi, r: nat, o: nat, st: State, t: State, env: Env)
    requires o in e.outs && Rel(f, st, t) && PhiBelow(f, p)
    ensures Read(Phi(r, e.Part(p.ins, true)), Some(o), t, env) == Read(p, Some(o), st, env)
  {
    PartIncoming(e, p.ins, true, o);
    ReadBelow(f, p, o, st, t, env);
    hide Rel;
    hide PhiBelow;
  }

  lemma PreFirst(e: Edit, phis: seq<Phi>, n: nat)
    requires 0 < n <= |phis| && |e.outs| > 1
    ensures e.PrePhis(phis, n) == [Phi(e.next + n - 1, e.Part(phis[n-1].ins, true))] + e.PrePhis(phis, n - 1)
    ensures var rest := e.PrePhis(phis, n - 1); forall j :: 0 <= j < |rest| ==> rest[j].dst != e.next + n - 1
  { PreDsts(e, phis, n - 1); }

  lemma {:induction false} PreGathers(f: Fn, e: Edit, phis: seq<Phi>, n: nat, o: nat, st: State, t: State, env: Env)
    requires n <= |phis| && |e.outs| > 1 && o in e.outs && e.next == f.nextReg && Rel(f, st, t)
    requires forall k :: 0 <= k < |phis| ==> PhiBelow(f, phis[k])
    ensures Gathered(e, phis, n, o, st, t, env, PhiRegs(e.PrePhis(phis, n), Some(o), t, env))
  {
    hide *;
    if n > 0 {
      PreGathers(f, e, phis, n - 1, o, st, t, env);
      PreFirst(e, phis, n);
      var p, rest := Phi(e.next + n - 1, e.Part(phis[n-1].ins, true)), e.PrePhis(phis, n - 1);
      PhiFront(p, rest, Some(o), t, env);
      PreReads(f, e, phis[n-1], p.dst, o, st, t, env);
      GatherStep(e, phis, n, o, st, t, env, PhiRegs(rest, Some(o), t, env));
    } else {
      NothingGathered(e, phis, o, st, t, env);
    }
  }

  lemma NothingGathered(e: Edit, phis: seq<Phi>, o: nat, st: State, t: State, env: Env)
    ensures Gathered(e, phis, 0, o, st, t, env, PhiRegs(e.PrePhis(phis, 0), Some(o), t, env))
  {}

  lemma {:induction false} IncomingBelow(f: Fn, ins: seq<(nat, Value)>, prev: nat)
    requires forall q :: 0 <= q < |ins| ==> Below(f, ins[q].1)
    ensures Incoming(ins, prev).Some? ==> Below(f, Incoming(ins, prev).value)
  {
    hide Below;
    if ins != [] { IncomingBelow(f, ins[1..], prev); }
  }

  lemma ReadBelow(f: Fn, p: Phi, prev: nat, st: State, t: State, env: Env)
    requires Rel(f, st, t) && PhiBelow(f, p)
    ensures Read(p, Some(prev), t, env) == Read(p, Some(prev), st, env)
  {
    IncomingBelow(f, p.ins, prev);
    var v := Incoming(p.ins, prev);
    if v.Some? { EvalRel(f, v.value, st, t, env); }
  }

  // ----- Entering the header -----

  ghost predicate HeaderBelow(f: Fn, e: Edit, phis: seq<Phi>) {
    e.next == f.nextReg && e.pre == f.nextBlock && forall k :: 0 <= k < |phis| ==> PhiBelow(f, phis[k])
  }

  /** Both sides stop, or both go on in related states. */
  ghost predicate Alike(f: Fn, st: State, t: State, a: Option<map<nat, Val>>, b: Option<map<nat, Val>>) {
    (a.None? && b.None?) || (a.Some? && b.Some? && Rel(f, st.(regs := a.value), t.(regs := b.value)))
  }

  lemma EnterInside(f: Fn, e: Edit, phis: seq<Phi>, prev: Option<nat>, st: State, t: State, env: Env)
    requires HeaderBelow(f, e, phis) && Rel(f, st, t) && (prev.Some? ==> prev.value !in e.outs && prev.value < e.pre)
    ensures Alike(f, st, t, PhiRegs(phis, prev, st, env), PhiRegs(e.HeaderPhis(phis), prev, t, env))
  {
    hide Rel;
    hide e.HeaderPhi;
    forall k: nat | k < |phis|
      ensures e.HeaderPhi(phis[k], k).dst == phis[k].dst < f.nextReg
      ensures Read(e.HeaderPhi(phis[k], k), prev, t, env) == Read(phis[k], prev, st, env)
    {
      PhiDst(e, phis[k], k);
      if prev.Some? {
        ReadInside(e, phis[k], k, prev.value);
        ReadBelow(f, phis[k], prev.value, st, t, env);
      }
    }
    PhisRel(f, phis, e.HeaderPhis(phis), prev, prev, st, t, env);
  }

  lemma PhiDst(e: Edit, p: Phi, k: nat)
    ensures e.HeaderPhi(p, k).dst == p.dst
  {}

  /** A phi of the header reads through the preheader what it read of `o`. */
  lemma ReadThrough(f: Fn, e: Edit, p: Phi, k: nat, o: nat, st: State, t: State, env: Env)
    requires e.next == f.nextReg && e.pre == f.nextBlock && PhiBelow(f, p) && Rel(f, st, t) && o in e.outs
    requires |e.outs| > 1 ==> GatheredAt(e, p, k, o, st, env, t.regs)
    ensures Read(e.HeaderPhi(p, k), Some(e.pre), t, env) == Read(p, Some(o), st, env)
  {
    ReadOutside(e, p, k, o);
    ReadBelow(f, p, o, st, t, env);
    hide Rel;
    hide e.HeaderPhi;
  }

  ghost predicate ReadsThrough(f: Fn, e: Edit, phis: seq<Phi>, o: nat, st: State, t: State, env: Env) {
    forall k: nat :: k < |phis| ==>
      && e.HeaderPhi(phis[k], k).dst == phis[k].dst < f.nextReg
      && Read(e.HeaderPhi(phis[k], k), Some(e.pre), t, env) == Read(phis[k], Some(o), st, env)
  }

  lemma AllReadThrough(f: Fn, e: Edit, phis: seq<Phi>, o: nat, st: State, t: State, env: Env)
    requires HeaderBelow(f, e, phis) && Rel(f, st, t) && o in e.outs
    requires |e.outs| > 1 ==> forall k :: 0 <= k < |phis| ==> GatheredAt(e, phis[k], k, o, st, env, t.regs)
    ensures ReadsThrough(f, e, phis, o, st, t, env)
  {
    hide Rel;
    hide e.HeaderPhi;
    hide Read;
    hide GatheredAt;
    forall k: nat | k < |phis|
      ensures e.HeaderPhi(phis[k], k).dst == phis[k].dst < f.nextReg
      ensures Read(e.HeaderPhi(phis[k], k), Some(e.pre), t, env) == Read(phis[k], Some(o), st, env)
    {
      PhiDst(e, phis[k], k);
      ReadThrough(f, e, phis[k], k, o, st, t, env);
    }
  }

  lemma ThroughAlike(f: Fn, e: Edit, phis: seq<Phi>, o: nat, st: State, t: State, env: Env)
    requires Rel(f, st, t) && ReadsThrough(f, e, phis, o, st, t, env)
    ensures Alike(f, st, t, PhiRegs(phis, Some(o), st, env), PhiRegs(e.HeaderPhis(phis), Some(e.pre), t, env))
  {
    hide Rel;
    hide e.HeaderPhi;
    hide Read;
    PhisRel(f, phis, e.HeaderPhis(phis), Some(o), Some(e.pre), st, t, env);
  }

  /** What the phis of the preheader make of the registers. */
  lemma PreAlike(f: Fn, e: Edit, phis: seq<Phi>, o: nat, st: State, t: State, env: Env)
    requires HeaderBelow(f, e, phis) && Rel(f, st, t) && o in e.outs
    ensures var a, g := PhiRegs(phis, Some(o), st, env), PhiRegs(e.PrePhis(phis, |phis|), Some(o), t, env);
      && (g.None? ==> a.None?)
      && (g.Some? ==> Rel(f, st, t.(regs := g.value)))
      && (g.Some? && |e.outs| > 1 ==> forall k :: 0 <= k < |phis| ==> GatheredAt(e, phis[k], k, o, st, env, g.value))
  {
    PhiSome(phis, Some(o), st, env);
    if |e.outs| > 1 { PreGathers(f, e, phis, |phis|, o, st, t, env); }
    hide Read;
    hide PhiBelow;
    var g := PhiRegs(e.PrePhis(phis, |phis|), Some(o), t, env);
    if g.Some? { GatheredRel(f, e, phis, o, st, t, env, g); }
    hide Rel;
  }

  /** Coming through the preheader from outside block `o`. */
  lemma EnterOutside(f: Fn, e: Edit, phis: seq<Phi>, o: nat, st: State, t: State, env: Env)
    requires HeaderBelow(f, e, phis) && Rel(f, st, t) && o in e.outs
    ensures var a, g := PhiRegs(phis, Some(o), st, env), PhiRegs(e.PrePhis(phis, |phis|), Some(o), t, env);
      if g.None? then a.None?
      else Alike(f, st, t, a, PhiRegs(e.HeaderPhis(phis), Some(e.pre), t.(regs := g.value), env))
  {
    hide *;
    PreAlike(f, e, phis, o, st, t, env);
    var g := PhiRegs(e.PrePhis(phis, |phis|), Some(o), t, env);
    if g.Some? {
      var t1 := t.(regs := g.value);
      AllReadThrough(f, e, phis, o, st, t1, env);
      ThroughAlike(f, e, phis, o, st, t1, env);
      SameButRegs(f, st, t, PhiRegs(phis, Some(o), st, env), g.value,
        PhiRegs(e.HeaderPhis(phis), Some(e.pre), t1, env));
    }
  }

  lemma SameButRegs(f: Fn, st: State, t: State, a: Option<map<nat, Val>>, regs: map<nat, Val>, b: Option<map<nat, Val>>)
    requires Alike(f, st, t.(regs := regs), a, b)
    ensures Alike(f, st, t, a, b)
  {
    if b.Some? { assert t.(regs := regs).(regs := b.value) == t.(regs := b.value); }
  }

  lemma GatheredRel(f: Fn, e: Edit, phis: seq<Phi>, o: nat, st: State, t: State, env: Env, g: Option<map<nat, Val>>)
    requires Rel(f, st, t) && e.next == f.nextReg && g.Some? && g == PhiRegs(e.PrePhis(phis, |phis|), Some(o), t, env)
    requires |e.outs| > 1 ==> Gathered(e, phis, |phis|, o, st, t, env, g)
    ensures Rel(f, st, t.(regs := g.value))
  {}

  // ----- Every run -----

  /** Where a jump to block `id` from block `prev` goes now. */
  function Landing(e: Edit, id: nat, prev: Option<nat>): nat {
    if id == e.header && prev.Some? && prev.value in e.outs then e.pre else id
  }

  /** `r` is a run with some fuel, `more` the new run with twice as much and `same` with just as much. */
  predicate Keeps(r: Result, more: Result, same: Result) {
    (!r.OutOfFuel? ==> more == r) && (r.OutOfFuel? ==> same.OutOfFuel?)
  }

  /** A position of block `cur`, before and after. */
  ghost predicate Here(f: Fn, cur: nat, b: SsaBlock, st: State, t: State) {
    Regular(f) && FindSsa(f.blocks, cur) == Some(b) && Rel(f, st, t)
  }

  lemma HereIs(f: Fn, loop: Loop, cur: nat, b: SsaBlock, st: State, t: State)
    requires Here(f, cur, b, st, t)
    ensures BlockBelow(f, b) && EndsOnce(b) && b.id == cur < f.nextBlock && Regular(f) && Rel(f, st, t)
    ensures FindSsa(WithPreheader(f, loop).blocks, cur) == Some(EditOf(f, loop).Block(b))
      && |EditOf(f, loop).Block(b).insts| == |b.insts|
    ensures forall x :: x in SuccIds(b) ==> FindSsa(f.blocks, x).Some?
    ensures cur == loop.header ==> PhisOf(f.blocks, loop.header) == b.phis && HeaderBelow(f, EditOf(f, loop), b.phis)
  {
    FindEdited(f, loop, cur);
    var i := BlockAt(f, cur);
    assert BlockBelow(f, f.blocks[i]) && EndsOnce(f.blocks[i]);
    hide Rel;
    hide Outside;
    hide InstBelow;
    hide PhiBelow;
    hide UniqueSsaIds;
  }

  /** Running the rest of block `cur`, before and after. */
  ghost predicate InstsKept(m: Module, f: Fn, loop: Loop, cur: nat, b: SsaBlock, q: nat, st: State, t: State, env: Env,
      n: nat)
    requires q <= |b.insts|
  {
    var insts := EditOf(f, loop).Block(b).insts;
    && |insts| == |b.insts|
    && Keeps(RunInsts(m, f, cur, b.insts[q..], st, env, n),
      RunInsts(m, WithPreheader(f, loop), cur, insts[q..], t, env, 2 * n),
         RunInsts(m, WithPreheader(f, loop), cur, insts[q..], t, env, n))
  }

  /** Jumping to block `id`, before and after. */
  ghost predicate BlockKept(m: Module, f: Fn, loop: Loop, id: nat, prev: Option<nat>, st: State, t: State, env: Env,
      n: nat) {
    var l := Landing(EditOf(f, loop), id, prev);
    Keeps(RunBlock(m, f, id, prev, st, env, n), RunBlock(m, WithPreheader(f, loop), l, prev, t, env, 2 * n),
      RunBlock(m, WithPreheader(f, loop), l, prev, t, env, n))
  }

  lemma RunsOn(m: Module, f: Fn, cur: nat, insts: seq<Inst>, st: State, env: Env, n: nat)
    requires insts != [] && !(insts[0].Call? && FindFn(m, insts[0].callee).Some?)
    ensures var a := Step(insts[0], st, env);
      RunInsts(m, f, cur, insts, st, env, n) ==
        if a.Next? then RunInsts(m, f, cur, insts[1..], a.st, env, n)
        else if a.Jump? then RunBlock(m, f, a.target, Some(cur), a.jst, env, n)
        else if a.Return? then Ended(a.v, a.rst.trace)
        else Trapped
  { hide Step; }

  lemma RunsBlock(m: Module, f: Fn, id: nat, prev: Option<nat>, st: State, env: Env, n: nat)
    ensures var b := FindSsa(f.blocks, id);
      RunBlock(m, f, id, prev, st, env, n) ==
        if n == 0 then OutOfFuel
        else if b.None? || PhiRegs(b.value.phis, prev, st, env).None? then Trapped
        else RunInsts(m, f, id, b.value.insts, st.(regs := PhiRegs(b.value.phis, prev, st, env).value), env, n - 1)
  {
    hide PhiRegs;
    hide RunInsts;
  }

  lemma ReturnedRel(f: Fn, result: Option<nat>, v: Option<Val>, tr: seq<Event>, st: State, t: State)
    requires Rel(f, st, t) && (result.Some? ==> result.value < f.nextReg)
    ensures var a, b := Returned(result, v, st.(trace := tr)), Returned(result, v, t.(trace := tr));
      (a.None? && b.None?) || (a.Some? && b.Some? && Rel(f, a.value, b.value))
  {}

  /** What the edit makes of one instruction of a block. */
  lemma EditedInst(e: Edit, b: SsaBlock, q: nat)
    requires q < |b.insts| && EndsOnce(b)
    ensures |e.Block(b).insts| == |b.insts|
    ensures !b.insts[q].Br? && !b.insts[q].CondBr? ==> e.Block(b).insts[q] == b.insts[q]
    ensures b.insts[q].Br? || b.insts[q].CondBr? ==> q == |b.insts| - 1
    ensures b.insts[q].Br? || b.insts[q].CondBr? ==>
      e.Block(b).insts[q] == if b.id in e.outs then e.Redirect(b.insts[q]) else b.insts[q]
  {}

  lemma EditedStep(e: Edit, b: SsaBlock, q: nat, st: State, env: Env)
    requires q < |b.insts| && EndsOnce(b)
    ensures var a, c := Step(b.insts[q], st, env), Step(e.Block(b).insts[q], st, env);
      if a.Jump? then a.target in SuccIds(b) && c == Jump(Landing(e, a.target, Some(b.id)), a.jst) else c == a
  {
    EditedInst(e, b, q);
    hide e.Block;
    hide EvalAll;
    hide BinVal;
    hide UnVal;
  }

  lemma {:induction false} InstsSame(m: Module, f: Fn, loop: Loop, cur: nat, b: SsaBlock, q: nat, st: State, t: State,
      env: Env, n: nat)
    requires Here(f, cur, b, st, t) && q <= |b.insts|
    ensures InstsKept(m, f, loop, cur, b, q, st, t, env, n)
    decreases n, 2, |b.insts| - q
  {
    hide *;
    HereIs(f, loop, cur, b, st, t);
    if q == |b.insts| {
      NothingLeft(m, f, loop, cur, b, st, t, env, n);
    } else if b.insts[q].Call? && FindFn(m, b.insts[q].callee).Some? {
      CallSame(m, f, loop, cur, b, q, st, t, env, n);
    } else {
      StepSame(m, f, loop, cur, b, q, st, t, env, n);
    }
  }

  lemma NothingLeft(m: Module, f: Fn, loop: Loop, cur: nat, b: SsaBlock, st: State, t: State, env: Env, n: nat)
    requires Here(f, cur, b, st, t)
    ensures InstsKept(m, f, loop, cur, b, |b.insts|, st, t, env, n)
  { HereIs(f, loop, cur, b, st, t); }

  lemma InstBelowAt(f: Fn, b: SsaBlock, q: nat)
    requires BlockBelow(f, b) && q < |b.insts|
    ensures InstBelow(f, b.insts[q])
  {}

  lemma {:induction false} StepSame(m: Module, f: Fn, loop: Loop, cur: nat, b: SsaBlock, q: nat, st: State, t: State,
      env: Env, n: nat)
    requires Here(f, cur, b, st, t) && q < |b.insts| && !(b.insts[q].Call? && FindFn(m, b.insts[q].callee).Some?)
    ensures InstsKept(m, f, loop, cur, b, q, st, t, env, n)
    decreases n, 2, |b.insts| - q, 0
  {
    HereIs(f, loop, cur, b, st, t);
    var e := EditOf(f, loop);
    var f2, insts := WithPreheader(f, loop), e.Block(b).insts;
    EditedInst(e, b, q);
    InstBelowAt(f, b, q);
    hide Here;
    hide Regular;
    hide Rel;
    hide BlockBelow;
    hide InstBelow;
    hide EndsOnce;
    hide HeaderBelow;
    hide WithPreheader;
    hide EditOf;
    hide e.Block;
    hide RunInsts;
    hide RunBlock;
    hide Step;
    hide SuccIds;
    hide FindSsa;
    StepRel(f, b.insts[q], st, t, env);
    EditedStep(e, b, q, t, env);
    hide Landing;
    assert b.insts[q..][1..] == b.insts[q+1..] && insts[q..][1..] == insts[q+1..];
    RunsOn(m, f, cur, b.insts[q..], st, env, n);
    RunsOn(m, f2, cur, insts[q..], t, env, n);
    RunsOn(m, f2, cur, insts[q..], t, env, 2 * n);
    match Step(b.insts[q], st, env) {
      case Next(st') =>
        HereAgain(f, cur, b, st, t, st', Step(b.insts[q], t, env).st);
        InstsSame(m, f, loop, cur, b, q + 1, st', Step(b.insts[q], t, env).st, env, n);
      case Jump(x, _) =>
        BlockSame(m, f, loop, x, Some(cur), st, t, env, n);
      case _ =>
    }
  }

  lemma HereAgain(f: Fn, cur: nat, b: SsaBlock, st: State, t: State, st': State, t': State)
    requires Here(f, cur, b, st, t) && Rel(f, st', t')
    ensures Here(f, cur, b, st', t')
  {}

  lemma {:induction false} CallSame(m: Module, f: Fn, loop: Loop, cur: nat, b: SsaBlock, q: nat, st: State, t: State,
      env: Env, n: nat)
    requires Here(f, cur, b, st, t) && q < |b.insts| && b.insts[q].Call? && FindFn(m, b.insts[q].callee).Some?
    ensures InstsKept(m, f, loop, cur, b, q, st, t, env, n)
    decreases n, 2, |b.insts| - q, 0
  {
    hide *;
    HereIs(f, loop, cur, b, st, t);
    var e := EditOf(f, loop);
    var f2, insts, i := WithPreheader(f, loop), e.Block(b).insts, b.insts[q];
    EditedInst(e, b, q);
    InstBelowAt(f, b, q);
    ArgsRel(f, i, st, t, env);
    Onwards(b.insts, q);
    Onwards(insts, q);
    S.RunsCall(m, f, cur, b.insts[q..], st, env, n);
    S.RunsCall(m, f2, cur, insts[q..], t, env, n);
    S.RunsCall(m, f2, cur, insts[q..], t, env, 2 * n);
    var xs, g := EvalAll(i.args, st, env), m[FindFn(m, i.callee).value];
    if xs.Some? {
      var r := CallFn(m, g, xs.value, st.trace, env.world, n);
      if !r.OutOfFuel? { MoreFuelCall(m, g, xs.value, st.trace, env.world, n, 2 * n); }
      if r.Ended? {
        ReturnedRel(f, i.result, r.v, r.trace, st, t);
        var a, c := Returned(i.result, r.v, st.(trace := r.trace)), Returned(i.result, r.v, t.(trace := r.trace));
        if a.Some? {
          HereAgain(f, cur, b, st, t, a.value, c.value);
          InstsSame(m, f, loop, cur, b, q + 1, a.value, c.value, env, n);
          RestKept(m, f, loop, cur, b, q + 1, a.value, c.value, env, n);
        }
      }
    }
    PlaceKept(m, f, loop, cur, b, q, st, t, env, n);
  }

  lemma ArgsRel(f: Fn, i: Inst, st: State, t: State, env: Env)
    requires Rel(f, st, t) && i.Call? && InstBelow(f, i)
    ensures EvalAll(i.args, t, env) == EvalAll(i.args, st, env) && t.trace == st.trace
    ensures i.result.Some? ==> i.result.value < f.nextReg
  { EvalAllRel(f, i.args, st, t, env); }

  lemma Onwards(insts: seq<Inst>, q: nat)
    requires q < |insts|
    ensures insts[q..] != [] && insts[q..][0] == insts[q] && insts[q..][1..] == insts[q+1..]
  {}

  lemma RestKept(m: Module, f: Fn, loop: Loop, cur: nat, b: SsaBlock, q: nat, st: State, t: State, env: Env, n: nat)
    requires q <= |b.insts| && InstsKept(m, f, loop, cur, b, q, st, t, env, n)
    ensures var insts, r := EditOf(f, loop).Block(b).insts, RunInsts(m, f, cur, b.insts[q..], st, env, n);
      && |insts| == |b.insts|
      && (!r.OutOfFuel? ==> RunInsts(m, WithPreheader(f, loop), cur, insts[q..], t, env, 2 * n) == r)
      && (r.OutOfFuel? ==> RunInsts(m, WithPreheader(f, loop), cur, insts[q..], t, env, n).OutOfFuel?)
  {}

  lemma PlaceKept(m: Module, f: Fn, loop: Loop, cur: nat, b: SsaBlock, q: nat, st: State, t: State, env: Env, n: nat)
    requires q <= |b.insts| == |EditOf(f, loop).Block(b).insts|
    requires var insts := EditOf(f, loop).Block(b).insts;
      Keeps(RunInsts(m, f, cur, b.insts[q..], st, env, n),
        RunInsts(m, WithPreheader(f, loop), cur, insts[q..], t, env, 2 * n),
        RunInsts(m, WithPreheader(f, loop), cur, insts[q..], t, env, n))
    ensures InstsKept(m, f, loop, cur, b, q, st, t, env, n)
  {}

  lemma {:induction false} BlockSame(m: Module, f: Fn, loop: Loop, id: nat, prev: Option<nat>, st: State, t: State,
      env: Env, n: nat)
    requires Regular(f) && Rel(f, st, t) && FindSsa(f.blocks, id).Some? && (prev.Some? ==> prev.value < f.nextBlock)
    ensures BlockKept(m, f, loop, id, prev, st, t, env, n)
    decreases n, 0, 0
  {
    hide *;
    if n == 0 {
      NoFuel(m, f, loop, id, prev, st, t, env);
    } else if Landing(EditOf(f, loop), id, prev) == id {
      Directly(m, f, loop, id, prev, st, t, env, n);
    } else {
      Through(m, f, loop, id, prev, st, t, env, n);
    }
  }

  lemma NoFuel(m: Module, f: Fn, loop: Loop, id: nat, prev: Option<nat>, st: State, t: State, env: Env)
    ensures BlockKept(m, f, loop, id, prev, st, t, env, 0)
  {}

  /** The phis of a block that is not entered through the preheader. */
  lemma PhisAlike(f: Fn, loop: Loop, b: SsaBlock, prev: Option<nat>, st: State, t: State, env: Env)
    requires Here(f, b.id, b, st, t) && Landing(EditOf(f, loop), b.id, prev) == b.id
      && (prev.Some? ==> prev.value < f.nextBlock)
    ensures Alike(f, st, t, PhiRegs(b.phis, prev, st, env), PhiRegs(EditOf(f, loop).Block(b).phis, prev, t, env))
  {
    var e := EditOf(f, loop);
    HereIs(f, loop, b.id, b, st, t);
    hide Here;
    hide Regular;
    hide Rel;
    hide InstBelow;
    hide Noticed;
    if b.id == loop.header {
      EnterInside(f, e, b.phis, prev, st, t, env);
    } else {
      forall k: nat | k < |b.phis|
        ensures b.phis[k].dst < f.nextReg && Read(b.phis[k], prev, t, env) == Read(b.phis[k], prev, st, env)
      {
        if prev.Some? { ReadBelow(f, b.phis[k], prev.value, st, t, env); }
      }
      PhisRel(f, b.phis, b.phis, prev, prev, st, t, env);
    }
  }

  lemma Found(f: Fn, id: nat, st: State, t: State)
    requires Regular(f) && Rel(f, st, t) && FindSsa(f.blocks, id).Some?
    ensures var b := FindSsa(f.blocks, id).value; Here(f, id, b, st, t) && b.id == id
  {}

  lemma HereEntered(f: Fn, id: nat, b: SsaBlock, st: State, t: State, a: map<nat, Val>, c: map<nat, Val>)
    requires Here(f, id, b, st, t) && Alike(f, st, t, Some(a), Some(c))
    ensures Here(f, id, b, st.(regs := a), t.(regs := c))
  {}

  lemma {:induction false} Directly(m: Module, f: Fn, loop: Loop, id: nat, prev: Option<nat>, st: State, t: State,
      env: Env, n: nat)
    requires Regular(f) && Rel(f, st, t) && FindSsa(f.blocks, id).Some? && (prev.Some? ==> prev.value < f.nextBlock)
    requires n > 0 && Landing(EditOf(f, loop), id, prev) == id
    ensures BlockKept(m, f, loop, id, prev, st, t, env, n)
    decreases n, 0, 0, 0
  {
    hide *;
    Found(f, id, st, t);
    var b := FindSsa(f.blocks, id).value;
    HereIs(f, loop, id, b, st, t);
    var e, f2 := EditOf(f, loop), WithPreheader(f, loop);
    PhisAlike(f, loop, b, prev, st, t, env);
    RunsBlock(m, f, id, prev, st, env, n);
    RunsBlock(m, f2, id, prev, t, env, n);
    RunsBlock(m, f2, id, prev, t, env, 2 * n);
    var a, c := PhiRegs(b.phis, prev, st, env), PhiRegs(e.Block(b).phis, prev, t, env);
    AlikeIs(f, st, t, a, c);
    if a.Some? {
      var st', t' := st.(regs := a.value), t.(regs := c.value);
      HereEntered(f, id, b, st, t, a.value, c.value);
      InstsSame(m, f, loop, id, b, 0, st', t', env, n - 1);
      Same(m, f, loop, id, b, st', t', env, n);
      if !RunInsts(m, f, id, b.insts, st', env, n - 1).OutOfFuel? {
        MoreFuelInsts(m, f2, id, e.Block(b).insts, t', env, 2 * n - 2, 2 * n - 1);
      }
    }
    LandingKept(m, f, loop, id, prev, st, t, env, n);
  }

  lemma ThroughIs(f: Fn, loop: Loop, id: nat, prev: Option<nat>)
    requires Landing(EditOf(f, loop), id, prev) != id
    ensures var e := EditOf(f, loop);
      id == loop.header && prev.Some? && prev.value in e.outs && Landing(e, id, prev) == e.pre
        && e.header == loop.header
  {}

  lemma PreheaderIs(e: Edit, phis: seq<Phi>)
    ensures e.Preheader(phis).phis == e.PrePhis(phis, |phis|) && e.Preheader(phis).insts == [Br(e.header)]
  {}

  lemma EditIs(f: Fn, loop: Loop)
    ensures var e := EditOf(f, loop); e.header == loop.header && e.pre == f.nextBlock && e.next == f.nextReg
  {}

  /** Running the preheader comes to entering the header from it. */
  lemma RunsPreheader(m: Module, f: Fn, loop: Loop, b: SsaBlock, o: nat, st: State, t: State, env: Env, k: nat)
    requires Here(f, loop.header, b, st, t) && k > 0
    ensures var e := EditOf(f, loop);
      var g := PhiRegs(e.PrePhis(b.phis, |b.phis|), Some(o), t, env);
      RunBlock(m, WithPreheader(f, loop), e.pre, Some(o), t, env, k) ==
        if g.None? then Trapped
        else RunBlock(m, WithPreheader(f, loop), loop.header, Some(e.pre), t.(regs := g.value), env, k - 1)
  {
    hide *;
    var e, f2 := EditOf(f, loop), WithPreheader(f, loop);
    HereIs(f, loop, loop.header, b, st, t);
    FindEdited(f, loop, loop.header);
    PreheaderIs(e, b.phis);
    EditIs(f, loop);
    RunsBlock(m, f2, e.pre, Some(o), t, env, k);
    var g := PhiRegs(e.PrePhis(b.phis, |b.phis|), Some(o), t, env);
    if g.Some? { S.RunsJump(m, f2, e.pre, e.header, t.(regs := g.value), env, k - 1); }
  }

  /** The phis of the edited header are those of the edit. */
  lemma HeaderIs(f: Fn, loop: Loop, b: SsaBlock)
    requires b.id == loop.header
    ensures EditOf(f, loop).Block(b).phis == EditOf(f, loop).HeaderPhis(b.phis)
  {}

  lemma AlikeIs(f: Fn, st: State, t: State, a: Option<map<nat, Val>>, b: Option<map<nat, Val>>)
    requires Alike(f, st, t, a, b)
    ensures a.Some? <==> b.Some?
  {}

  lemma {:induction false} Through(m: Module, f: Fn, loop: Loop, id: nat, prev: Option<nat>, st: State, t: State,
      env: Env, n: nat)
    requires Regular(f) && Rel(f, st, t) && FindSsa(f.blocks, id).Some? && (prev.Some? ==> prev.value < f.nextBlock)
    requires n > 0 && Landing(EditOf(f, loop), id, prev) != id
    ensures BlockKept(m, f, loop, id, prev, st, t, env, n)
    decreases n, 0, 0, 0
  {
    hide *;
    Found(f, id, st, t);
    ThroughIs(f, loop, id, prev);
    var b, o := FindSsa(f.blocks, id).value, prev.value;
    HereIs(f, loop, id, b, st, t);
    HeaderIs(f, loop, b);
    var e, f2 := EditOf(f, loop), WithPreheader(f, loop);
    EnterOutside(f, e, b.phis, o, st, t, env);
    RunsBlock(m, f, id, prev, st, env, n);
    RunsPreheader(m, f, loop, b, o, st, t, env, n);
    RunsPreheader(m, f, loop, b, o, st, t, env, 2 * n);
    var a, g := PhiRegs(b.phis, Some(o), st, env), PhiRegs(e.PrePhis(b.phis, |b.phis|), Some(o), t, env);
    if g.Some? {
      var t1 := t.(regs := g.value);
      var c := PhiRegs(e.HeaderPhis(b.phis), Some(e.pre), t1, env);
      AlikeIs(f, st, t, a, c);
      RunsBlock(m, f2, id, Some(e.pre), t1, env, n - 1);
      RunsBlock(m, f2, id, Some(e.pre), t1, env, 2 * n - 1);
      if a.Some? {
        var st', t' := st.(regs := a.value), t.(regs := c.value);
        HereEntered(f, id, b, st, t, a.value, c.value);
        InstsSame(m, f, loop, id, b, 0, st', t', env, n - 1);
        Same(m, f, loop, id, b, st', t', env, n);
        assert t1.(regs := c.value) == t';
      }
    }
    LandingKept(m, f, loop, id, prev, st, t, env, n);
  }

  /** The new run with a little less fuel is no further on. */
  lemma Same(m: Module, f: Fn, loop: Loop, id: nat, b: SsaBlock, st: State, t: State, env: Env, n: nat)
    requires n > 0 && InstsKept(m, f, loop, id, b, 0, st, t, env, n - 1)
    ensures var r, f2, insts := RunInsts(m, f, id, b.insts, st, env, n - 1), WithPreheader(f, loop),
      EditOf(f, loop).Block(b).insts;
      && (!r.OutOfFuel? ==> RunInsts(m, f2, id, insts, t, env, 2 * n - 2) == r)
      && (r.OutOfFuel? ==> RunInsts(m, f2, id, insts, t, env, n - 1).OutOfFuel?)
      && (r.OutOfFuel? && n > 1 ==> RunInsts(m, f2, id, insts, t, env, n - 2).OutOfFuel?)
  {
    hide RunInsts;
    hide WithPreheader;
    var f2, insts := WithPreheader(f, loop), EditOf(f, loop).Block(b).insts;
    assert b.insts[0..] == b.insts && insts[0..] == insts;
    if n > 1 && !RunInsts(m, f2, id, insts, t, env, n - 2).OutOfFuel? {
      MoreFuelInsts(m, f2, id, insts, t, env, n - 2, n - 1);
    }
  }

  lemma LandingKept(m: Module, f: Fn, loop: Loop, id: nat, prev: Option<nat>, st: State, t: State, env: Env, n: nat)
    requires var l := Landing(EditOf(f, loop), id, prev);
      Keeps(RunBlock(m, f, id, prev, st, env, n), RunBlock(m, WithPreheader(f, loop), l, prev, t, env, 2 * n),
        RunBlock(m, WithPreheader(f, loop), l, prev, t, env, n))
    ensures BlockKept(m, f, loop, id, prev, st, t, env, n)
  {}

  lemma StartsSame(f: Fn, loop: Loop)
    requires Regular(f)
    ensures f.blocks != [] && WithPreheader(f, loop).blocks != []
      && WithPreheader(f, loop).blocks[0].id == f.blocks[0].id
    ensures FindSsa(f.blocks, f.blocks[0].id).Some?
  {
    var e := EditOf(f, loop);
    assert e.Blocks(f.blocks)[0] == e.Block(f.blocks[0]);
  }

  lemma CallsBlock(m: Module, f: Fn, args: seq<Val>, tr: seq<Event>, world: World, n: nat)
    requires f.blocks != []
    ensures CallFn(m, f, args, tr, world, n) ==
      RunBlock(m, f, f.blocks[0].id, None, State(map[], map[], tr), Env(args, world), n)
  {}

  lemma Fresh(f: Fn, tr: seq<Event>)
    ensures Rel(f, State(map[], map[], tr), State(map[], map[], tr))
  {}

  /** Giving a loop a preheader changes no run of the function: with twice the fuel it comes to the same end, by the
      same trace, be it a value or a trap, and a run that ends afterwards ended the same before. */
  lemma PreheaderKeepsRuns(m: Module, f: Fn, loop: Loop, args: seq<Val>, tr: seq<Event>, world: World, n: nat)
    requires Regular(f)
    ensures var r := CallFn(m, f, args, tr, world, n);
      !r.OutOfFuel? ==> CallFn(m, WithPreheader(f, loop), args, tr, world, 2 * n) == r
    ensures var r := CallFn(m, WithPreheader(f, loop), args, tr, world, n);
      !r.OutOfFuel? ==> CallFn(m, f, args, tr, world, n) == r
  {
    hide *;
    var f2, st := WithPreheader(f, loop), State(map[], map[], tr);
    StartsSame(f, loop);
    Fresh(f, tr);
    CallsBlock(m, f, args, tr, world, n);
    CallsBlock(m, f2, args, tr, world, n);
    CallsBlock(m, f2, args, tr, world, 2 * n);
    BlockSame(m, f, loop, f.blocks[0].id, None, st, st, Env(args, world), n);
    EntryKept(m, f, loop, f.blocks[0].id, st, Env(args, world), n);
    if !CallFn(m, f2, args, tr, world, n).OutOfFuel? { MoreFuelCall(m, f2, args, tr, world, n, 2 * n); }
  }

  lemma EntryKept(m: Module, f: Fn, loop: Loop, id: nat, st: State, env: Env, n: nat)
    requires BlockKept(m, f, loop, id, None, st, st, env, n)
    ensures var r, f2 := RunBlock(m, f, id, None, st, env, n), WithPreheader(f, loop);
      && (!r.OutOfFuel? ==> RunBlock(m, f2, id, None, st, env, 2 * n) == r)
      && (r.OutOfFuel? ==> RunBlock(m, f2, id, None, st, env, n).OutOfFuel?)
  {}

  lemma PreheaderFollows(m: Module, f: Fn, loop: Loop, args: seq<Val>, tr: seq<Event>, world: World, n: nat)
    requires Regular(f)
    ensures Follows(true, CallFn(m, f, args, tr, world, n), m, WithPreheader(f, loop), args, tr, world, n, 2 * n)
  {
    PreheaderKeepsRuns(m, f, loop, args, tr, world, n);
    hide CallFn;
    hide WithPreheader;
  }

  lemma PreheaderBehaves(m: Module, f: Fn, loop: Loop)
    requires Regular(f)
    ensures Behaves(true, m, f, WithPreheader(f, loop))
  {
    hide Regular;
    hide Follows;
    hide CallFn;
    hide WithPreheader;
    forall args: seq<Val>, tr: seq<Event>, world: World, n: nat
      ensures Meets(true, m, f, WithPreheader(f, loop), args, tr, world, n)
    {
      PreheaderFollows(m, f, loop, args, tr, world, n);
    }
  }

  lemma PreheaderExchanged(m: Module, m': Module, fi: nat, loop: Loop)
    requires fi < |m| && Regular(m[fi]) && m' == m[fi := WithPreheader(m[fi], loop)]
    ensures Exchanged(true, m, m', fi, WithPreheader(m[fi], loop))
  {
    assert WithPreheader(m[fi], loop).name == m[fi].name;
    hide WithPreheader;
    PreheaderBehaves(m', m[fi], loop);
    hide Regular;
    hide Behaves;
  }

  /** Giving a loop of one function a preheader changes no run of any function of the module, whoever calls it: a run
      that ends, with a value or a trap, ends the same afterwards, and one that ends afterwards ended so before. */
  lemma PreheaderKeepsResults(m: Module, m': Module, fi: nat, loop: Loop, name: string, args: seq<Val>, tr: seq<Event>,
      world: World, n: nat) returns (n2: nat)
    requires fi < |m| && Regular(m[fi]) && m' == m[fi := WithPreheader(m[fi], loop)] && FindFn(m, name).Some?
    ensures FindFn(m', name) == FindFn(m, name) && |m'| == |m|
    ensures var x := FindFn(m, name).value; var r := CallFn(m, m[x], args, tr, world, n);
      !r.OutOfFuel? ==> CallFn(m', m'[x], args, tr, world, n2) == r
    ensures var x := FindFn(m, name).value; var r := CallFn(m', m'[x], args, tr, world, n);
      !r.OutOfFuel? ==> CallFn(m, m[x], args, tr, world, n) == r
  {
    hide *;
    PreheaderExchanged(m, m', fi, loop);
    n2 := CallFollowed(true, m, m', fi, WithPreheader(m[fi], loop), name, args, tr, world, n);
    AllEnds(m, m', FindFn(m, name).value, args, tr, world, n, n2);
  }

  lemma AllEnds(m: Module, m': Module, x: nat, args: seq<Val>, tr: seq<Event>, world: World, n: nat, n2: nat)
    requires x < |m| == |m'| && Follows(true, CallFn(m, m[x], args, tr, world, n), m', m'[x], args, tr, world, n, n2)
    ensures var r := CallFn(m, m[x], args, tr, world, n); !r.OutOfFuel? ==> CallFn(m', m'[x], args, tr, world, n2) == r
    ensures var r := CallFn(m', m'[x], args, tr, world, n);
      !r.OutOfFuel? ==> CallFn(m, m[x], args, tr, world, n) == r
  {
    hide CallFn;
    if !CallFn(m', m'[x], args, tr, world, n).OutOfFuel? {
      MoreFuelCall(m', m'[x], args, tr, world, n, Max(n, n2));
      MoreFuelCall(m', m'[x], args, tr, world, n2, Max(n, n2));
    }
  }

  // ----- It is the way in -----

  lemma RedirectedSuccs(e: Edit, b: SsaBlock)
    requires e.pre != e.header
    ensures b.id in e.outs ==> e.header !in SuccIds(e.Block(b))
    ensures b.id !in e.outs ==> SuccIds(e.Block(b)) == SuccIds(b)
  {}

  /** Who outside leads to the header, except those redirected. */
  lemma {:induction false} OutsideLeft(e: Edit, blocks: seq<SsaBlock>, loop: Loop, id: nat)
    requires e.header == loop.header != e.pre
    ensures id in Outside(e.Blocks(blocks), loop) <==> id in Outside(blocks, loop) && id !in e.outs
  {
    if blocks != [] {
      var n := |blocks| - 1;
      OutsideLeft(e, blocks[..n], loop, id);
      assert e.Blocks(blocks)[..n] == e.Blocks(blocks[..n]);
      RedirectedSuccs(e, blocks[n]);
      hide SuccIds;
    }
  }

  lemma OutsideEdited(f: Fn, loop: Loop)
    requires Regular(f) && loop.header < f.nextBlock && f.nextBlock !in loop.blocks
    ensures var e := EditOf(f, loop);
      Outside(WithPreheader(f, loop).blocks, loop) == Outside(e.Blocks(f.blocks), loop) + [e.pre]
  {
    var e := EditOf(f, loop);
    var all := WithPreheader(f, loop).blocks;
    assert all[..|all|-1] == e.Blocks(f.blocks);
    assert e.header in SuccIds(all[|all|-1]) && all[|all|-1].id == e.pre;
  }

  lemma {:induction false} NotOutside(blocks: seq<SsaBlock>, loop: Loop, id: nat)
    requires forall b :: b in blocks ==> b.id != id
    ensures id !in Outside(blocks, loop)
  {
    hide SuccIds;
    if blocks != [] {
      assert blocks[|blocks|-1] in blocks;
      NotOutside(blocks[..|blocks|-1], loop, id);
    }
  }

  lemma {:induction false} OutsideOnce(blocks: seq<SsaBlock>, loop: Loop)
    requires UniqueSsaIds(blocks)
    ensures NoDup(Outside(blocks, loop))
  {
    hide SuccIds;
    if blocks != [] {
      var n := |blocks| - 1;
      OutsideOnce(blocks[..n], loop);
      NotOutside(blocks[..n], loop, blocks[n].id);
    }
  }

  lemma PreheaderSuccs(e: Edit, phis: seq<Phi>)
    ensures SuccIds(e.Preheader(phis)) == [e.header]
  {}

  /** Whoever outside still leads to the header, besides the preheader, went unnoticed. */
  lemma StillOutside(f: Fn, loop: Loop, id: nat)
    requires Regular(f) && loop.header < f.nextBlock && f.nextBlock !in loop.blocks
    ensures var e := EditOf(f, loop);
      id in Outside(e.Blocks(f.blocks), loop) <==> id in Outside(f.blocks, loop) && id !in Noticed(f.blocks, loop)
  { OutsideLeft(EditOf(f, loop), f.blocks, loop, id); }

  lemma AllNoticed(f: Fn, loop: Loop)
    requires Regular(f) && loop.header < f.nextBlock && f.nextBlock !in loop.blocks
    requires |Outside(f.blocks, loop)| <= MAX_OUTSIDE
    ensures Outside(EditOf(f, loop).Blocks(f.blocks), loop) == []
  {
    hide Regular;
    hide Outside;
    hide EditOf;
    var left := Outside(EditOf(f, loop).Blocks(f.blocks), loop);
    if left != [] { StillOutside(f, loop, left[0]); }
  }

  lemma SomeMissed(f: Fn, loop: Loop)
    requires Regular(f) && loop.header < f.nextBlock && f.nextBlock !in loop.blocks
    requires |Outside(f.blocks, loop)| > MAX_OUTSIDE
    ensures Outside(EditOf(f, loop).Blocks(f.blocks), loop) != []
  {
    OutsideOnce(f.blocks, loop);
    var outs := Outside(f.blocks, loop);
    hide Regular;
    hide Outside;
    hide EditOf;
    var missed := outs[MAX_OUTSIDE];
    assert missed !in outs[..MAX_OUTSIDE];
    StillOutside(f, loop, missed);
  }

  lemma DedicatedWhen(f: Fn, loop: Loop, left: seq<nat>, b: SsaBlock)
    requires Outside(f.blocks, loop) == left + [b.id] && FindSsa(f.blocks, b.id) == Some(b)
      && SuccIds(b) == [loop.header]
    ensures Dedicated(f, loop) <==> left == []
  {
    hide Outside;
    hide FindSsa;
    hide SuccIds;
    if left == [] { assert Noticed(f.blocks, loop) == [b.id]; } else { assert |Noticed(f.blocks, loop)| > 1; }
  }

  /** Afterwards the preheader is the one predecessor of the header outside the loop, exactly when there was room for
      all of them; otherwise the ones past the 32nd still go straight to the header. */
  lemma PreheaderIsDedicated(f: Fn, loop: Loop)
    requires Regular(f) && loop.header < f.nextBlock && f.nextBlock !in loop.blocks
    ensures Dedicated(WithPreheader(f, loop), loop) <==> |Outside(f.blocks, loop)| <= MAX_OUTSIDE
  {
    hide *;
    var e, phis := EditOf(f, loop), PhisOf(f.blocks, loop.header);
    OutsideEdited(f, loop);
    FindEdited(f, loop, e.pre);
    EditIs(f, loop);
    PreheaderSuccs(e, phis);
    PreheaderId(e, phis);
    if |Outside(f.blocks, loop)| <= MAX_OUTSIDE { AllNoticed(f, loop); } else { SomeMissed(f, loop); }
    DedicatedWhen(WithPreheader(f, loop), loop, Outside(e.Blocks(f.blocks), loop), e.Preheader(phis));
  }

  /** `n` blocks, each with a choice between the next one and the loop, which is a single block. */
  function Funnel(n: nat): Fn {
    Fn("funnel", 1, seq(n + 1, i requires 0 <= i <= n =>
      SsaBlock(i, [], [if i + 1 < n then CondBr(Param(0), n, i + 1) else Br(n)])), 0, n + 1)
  }

  function FunnelLoop(n: nat): Loop { Loop(n, [n], [n], None, [], 1) }

  lemma FunnelBlock(n: nat, i: nat)
    requires i <= n
    ensures var b := Funnel(n).blocks[i];
      b.id == i && b.phis == [] && EndsOnce(b) && BlockBelow(Funnel(n), b) && forall t :: t in SuccIds(b) ==> t <= n
  {}

  lemma FunnelBlocks(n: nat)
    ensures InlineStructure.Blocks(Funnel(n))
  {
    hide EndsOnce;
    hide BlockBelow;
    hide SuccIds;
    forall i: nat | i <= n ensures Funnel(n).blocks[i].id == i && EndsOnce(Funnel(n).blocks[i]) { FunnelBlock(n, i); }
  }

  lemma FunnelKnown(n: nat)
    ensures Known(Funnel(n))
  {
    var f := Funnel(n);
    assert |f.blocks| == n + 1;
    hide EndsOnce;
    hide BlockBelow;
    hide SuccIds;
    hide Funnel;
    FunnelBlocks(n);
    forall i: nat, t | i <= n && t in SuccIds(f.blocks[i]) ensures FindSsa(f.blocks, t).Some? {
      FunnelBlock(n, i);
      FunnelBlock(n, t);
      FindAt(f.blocks, t);
    }
  }

  lemma FunnelRegular(n: nat)
    ensures Regular(Funnel(n))
  {
    FunnelBlocks(n);
    FunnelKnown(n);
    hide InlineStructure.Blocks;
    hide Known;
    hide BlockBelow;
    forall i: nat | i <= n ensures BlockBelow(Funnel(n), Funnel(n).blocks[i]) { FunnelBlock(n, i); }
  }

  lemma FunnelLeads(n: nat, i: nat)
    requires i < n
    ensures n in SuccIds(Funnel(n).blocks[i]) && Funnel(n).blocks[i].id == i
  {}

  lemma {:induction false} FunnelOutside(n: nat, k: nat)
    requires k <= n
    ensures |Outside(Funnel(n).blocks[..k], FunnelLoop(n))| == k
  {
    var blocks := Funnel(n).blocks;
    assert |blocks| == n + 1;
    hide SuccIds;
    hide Funnel;
    if k > 0 {
      FunnelLeads(n, k - 1);
      FunnelOutside(n, k - 1);
      assert blocks[..k][..k-1] == blocks[..k-1] && blocks[..k][k-1] == blocks[k-1];
    }
  }

  lemma FunnelCount(n: nat)
    ensures |Outside(Funnel(n).blocks, FunnelLoop(n))| == n
  {
    var blocks := Funnel(n).blocks;
    FunnelOutside(n, n);
    FunnelBlock(n, n);
    hide Funnel;
    hide SuccIds;
    assert blocks[..|blocks|-1] == blocks[..n] && blocks[n].id in FunnelLoop(n).blocks;
  }

  /** A function with 33 blocks outside the loop that lead to its header is the smallest of these whose loop gets no
      preheader of its own. */
  lemma FunnelDedicatedExactlyWhen(n: nat)
    ensures Regular(Funnel(n)) && |Outside(Funnel(n).blocks, FunnelLoop(n))| == n
    ensures Dedicated(WithPreheader(Funnel(n), FunnelLoop(n)), FunnelLoop(n)) <==> n < 33
  {
    assert Funnel(n).nextBlock == n + 1 && MAX_OUTSIDE == 32;
    FunnelRegular(n);
    FunnelCount(n);
    hide *;
    PreheaderIsDedicated(Funnel(n), FunnelLoop(n));
  }

  lemma PreheaderId(e: Edit, phis: seq<Phi>)
    ensures e.Preheader(phis).id == e.pre
  {}

  // ----- As the program does it -----

  /** The outside predecessors there is room for, in order. */
  method CollectOutside(blocks: seq<SsaBlock>, loop: Loop) returns (outs: seq<nat>)
    ensures outs == Noticed(blocks, loop)
  {
    outs := [];
    var i := 0;
    while i < |blocks|
      invariant 0 <= i <= |blocks| && outs == Noticed(blocks[..i], loop)
    {
      assert blocks[..i+1][..i] == blocks[..i];
      var b := blocks[i];
      if loop.header in SuccIds(b) && b.id !in loop.blocks && |outs| < MAX_OUTSIDE { outs := outs + [b.id]; }
      i := i + 1;
    }
    assert blocks[..i] == blocks;
  }

  lemma {:induction false} PartSnoc(e: Edit, ins: seq<(nat, Value)>, last: (nat, Value), outside: bool)
    ensures e.Part(ins + [last], outside) == e.Part(ins, outside) + if (last.0 in e.outs) == outside then [last] else []
  {
    if ins == [] {
      assert ins + [last] == [last] && [last][1..] == [];
    } else {
      PartSnoc(e, ins[1..], last, outside);
      assert (ins + [last])[1..] == ins[1..] + [last];
    }
  }

  /** Shares the inputs of a phi out. */
  method SplitInputs(e: Edit, ins: seq<(nat, Value)>) returns (inside: seq<(nat, Value)>, outside: seq<(nat, Value)>)
    ensures inside == e.Part(ins, false) && outside == e.Part(ins, true)
  {
    inside, outside := [], [];
    var q := 0;
    while q < |ins|
      invariant 0 <= q <= |ins| && inside == e.Part(ins[..q], false) && outside == e.Part(ins[..q], true)
    {
      PartSnoc(e, ins[..q], ins[q], false);
      PartSnoc(e, ins[..q], ins[q], true);
      assert ins[..q+1] == ins[..q] + [ins[q]];
      if ins[q].0 in e.outs { outside := outside + [ins[q]]; } else { inside := inside + [ins[q]]; }
      q := q + 1;
    }
    assert ins[..q] == ins;
  }

  lemma PreNone(e: Edit, phis: seq<Phi>, n: nat)
    requires n <= |phis| && (n == 0 || |e.outs| <= 1)
    ensures e.PrePhis(phis, n) == []
  {}

  lemma HeaderPhiIs(e: Edit, p: Phi, k: nat)
    ensures e.HeaderPhi(p, k) ==
      Phi(p.dst, if |e.outs| <= 1 then e.Renamed(p.ins) else e.Part(p.ins, false) + [(e.pre, Reg(e.next + k))])
  {}

  /** The phis of the header and of the preheader; registers are taken one by one. */
  method SharePhis(e: Edit, phis: seq<Phi>) returns (header: seq<Phi>, pre: seq<Phi>, next: nat)
    ensures header == e.HeaderPhis(phis) && pre == e.PrePhis(phis, |phis|)
    ensures next == e.next + if |e.outs| <= 1 then 0 else |phis|
  {
    hide *;
    header, pre, next := [], [], e.next;
    PreNone(e, phis, 0);
    var k := 0;
    while k < |phis|
      invariant 0 <= k <= |phis| && pre == e.PrePhis(phis, k) && next == e.next + (if |e.outs| <= 1 then 0 else k)
      invariant |header| == k && forall j: nat :: j < k ==> header[j] == e.HeaderPhi(phis[j], j)
    {
      HeaderPhiIs(e, phis[k], k);
      if |e.outs| <= 1 {
        PreNone(e, phis, k);
        PreNone(e, phis, k + 1);
        header := header + [Phi(phis[k].dst, e.Renamed(phis[k].ins))];
      } else {
        PreFirst(e, phis, k + 1);
        var inside, outside := SplitInputs(e, phis[k].ins);
        header := header + [Phi(phis[k].dst, inside + [(e.pre, Reg(next))])];
        pre := [Phi(next, outside)] + pre;
        next := next + 1;
      }
      k := k + 1;
    }
  }

  /** Redirects the noted blocks to the preheader and gives the header its new phis. */
  method EditBlocks(e: Edit, blocks: seq<SsaBlock>, header: seq<Phi>) returns (r: seq<SsaBlock>)
    requires UniqueSsaIds(blocks) && header == e.HeaderPhis(PhisOf(blocks, e.header))
    ensures r == e.Blocks(blocks)
  {
    r := blocks;
    var i := 0;
    while i < |blocks|
      invariant 0 <= i <= |blocks| == |r|
      invariant forall j :: 0 <= j < |blocks| ==> r[j] == if j < i then e.Block(blocks[j]) else blocks[j]
    {
      var b := r[i];
      if b.id == e.header { FirstIs(blocks, i, b); }
      r := r[i := SsaBlock(b.id, if b.id == e.header then header else b.phis,
        if b.id in e.outs then e.RedirectLast(b.insts) else b.insts)];
      i := i + 1;
    }
  }

  /** Finds the preheader of a loop or makes one (`ir_loop_get_or_create_preheader`). */
  method GetOrCreatePreheader(f: SsaFunction, loop: Loop) returns (id: nat)
    requires InlineStructure.Blocks(f.Now())
    modifies f
    ensures old(Dedicated(f.Now(), loop)) ==> f.Now() == old(f.Now()) && id == old(Noticed(f.blocks, loop)[0])
    ensures !old(Dedicated(f.Now(), loop)) ==> f.Now() == WithPreheader(old(f.Now()), loop) && id == old(f.nextBlock)
  {
    DedicatedIs(f.Now(), loop);
    EditedIs(f.Now(), loop);
    UniqueIn(f.Now());
    hide InlineStructure.Blocks;
    hide Dedicated;
    hide WithPreheader;
    hide Edit.Blocks;
    hide Edit.Preheader;
    hide Noticed;
    hide PhisOf;
    hide FindSsa;
    hide SuccIds;
    hide UniqueSsaIds;
    var outs := CollectOutside(f.blocks, loop);
    if |outs| == 1 {
      var only := FindSsa(f.blocks, outs[0]);
      if only.Some? && forall t :: t in SuccIds(only.value) ==> t == loop.header { return outs[0]; }
    }
    id := f.nextBlock;
    var e := Edit(outs, loop.header, id, f.nextReg);
    var header, pre, next := SharePhis(e, PhisOf(f.blocks, loop.header));
    var blocks := EditBlocks(e, f.blocks, header);
    f.blocks, f.nextReg, f.nextBlock := blocks + [SsaBlock(id, pre, [Br(loop.header)])], next, id + 1;
  }

  lemma DedicatedIs(f: Fn, loop: Loop)
    ensures Dedicated(f, loop) <==>
      && |Noticed(f.blocks, loop)| == 1
      && var b := FindSsa(f.blocks, Noticed(f.blocks, loop)[0]);
        b.Some? && forall t :: t in SuccIds(b.value) ==> t == loop.header
  {}

  lemma EditedIs(f: Fn, loop: Loop)
    ensures var e := Edit(Noticed(f.blocks, loop), loop.header, f.nextBlock, f.nextReg);
      var phis := PhisOf(f.blocks, loop.header);
      WithPreheader(f, loop) == f.(
        blocks := e.Blocks(f.blocks) + [SsaBlock(f.nextBlock, e.PrePhis(phis, |phis|), [Br(loop.header)])],
        nextReg := f.nextReg + (if |e.outs| <= 1 then 0 else |phis|), nextBlock := f.nextBlock + 1)
  {
    hide Noticed;
    hide PhisOf;
    hide Edit.Blocks;
    hide Edit.PrePhis;
  }

  lemma UniqueIn(f: Fn)
    requires InlineStructure.Blocks(f)
    ensures UniqueSsaIds(f.blocks)
  {}

  lemma FirstIs(blocks: seq<SsaBlock>, i: nat, b: SsaBlock)
    requires UniqueSsaIds(blocks) && i < |blocks| && blocks[i] == b
    ensures PhisOf(blocks, b.id) == b.phis
  { FindAt(blocks, i); }
}
