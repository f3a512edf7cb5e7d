// Inlining one call site: what the caller looks like afterwards (src/ir/ir_ipa.c:428-664).

module Inlining {
  import opened Options
  import opened Ir
  import opened SsaIr
  import opened Graphs
  import opened Dominators

  /** The `k`-th instruction of the `bi`-th block of `caller`, a call of `callee`. */
  datatype Site = Site(caller: Fn, bi: nat, k: nat, callee: Fn) {
    predicate Valid() { bi < |caller.blocks| && k < |caller.blocks[bi].insts| && caller.blocks[bi].insts[k].Call? }

    function Block(): SsaBlock requires Valid() { caller.blocks[bi] }
    function Call(): Inst requires Valid() { Block().insts[k] }

    /** The block for what follows the call; every block created takes two numbers, one of them for its name. */
    function SplitId(): nat { caller.nextBlock + 1 }

    /** The copy of the `j`-th block of the callee. */
    function CopyId(j: nat): nat { caller.nextBlock + 3 + 2 * j }

    function CopyOf(id: nat): nat {
      var j := IndexOf(callee.blocks, id);
      if j.Some? then CopyId(j.value) else SplitId()
    }

    /** Fresh registers for everything the callee defines. */
    function Renaming(): map<nat, nat> { Renumber(DefsOf(callee.blocks), caller.nextReg) }

    /** What a value of the callee is in the caller. */
    function Remap(v: Value): Value
      requires Valid()
    {
      match v
      case Param(p) => if p < callee.params then (if p < |Call().args| then Call().args[p] else ConstInt(0)) else v
      case Reg(r) => if r in Renaming() then Reg(Renaming()[r]) else v
      case _ => v
    }

    function RemapDst(r: nat): nat { if r in Renaming() then Renaming()[r] else r }

    function RemapAll(vs: seq<Value>): (r: seq<Value>)
      requires Valid()
      ensures |r| == |vs| && forall i :: 0 <= i < |vs| ==> r[i] == Remap(vs[i])
    { seq(|vs|, i requires 0 <= i < |vs| => Remap(vs[i])) }

    /** The copy of an instruction: returns go to the split block. */
    function CopyInst(i: Inst): Inst
      requires Valid()
    {
      match i
      case Ret(_) => Br(SplitId())
      case Br(t) => Br(CopyOf(t))
      case CondBr(c, t, f) => CondBr(Remap(c), CopyOf(t), CopyOf(f))
      case Alloca(s) => i
      case Load(d, s) => Load(RemapDst(d), s)
      case Store(v, s) => Store(Remap(v), s)
      case Const(d, v) => Const(RemapDst(d), Remap(v))
      case Bin(op, d, l, r) => Bin(op, RemapDst(d), Remap(l), Remap(r))
      case Un(op, d, v) => Un(op, RemapDst(d), Remap(v))
      case Call(d, f, args) => Inst.Call(if d.Some? then Some(RemapDst(d.value)) else None, f, RemapAll(args))
      case Print(v) => Print(Remap(v))
    }

    function CopyInsts(insts: seq<Inst>): (r: seq<Inst>)
      requires Valid()
      ensures |r| == |insts| && forall i :: 0 <= i < |insts| ==> r[i] == CopyInst(insts[i])
    { seq(|insts|, i requires 0 <= i < |insts| => CopyInst(insts[i])) }

    function CopyPhi(p: Phi): Phi
      requires Valid()
    { Phi(RemapDst(p.dst), seq(|p.ins|, i requires 0 <= i < |p.ins| => (CopyOf(p.ins[i].0), Remap(p.ins[i].1)))) }

    function CopyPhis(phis: seq<Phi>): (r: seq<Phi>)
      requires Valid()
      ensures |r| == |phis| && forall i :: 0 <= i < |phis| ==> r[i] == CopyPhi(phis[i])
    { seq(|phis|, i requires 0 <= i < |phis| => CopyPhi(phis[i])) }

    function CopyBlock(j: nat): SsaBlock
      requires Valid() && j < |callee.blocks|
    { SsaBlock(CopyId(j), CopyPhis(callee.blocks[j].phis), CopyInsts(callee.blocks[j].insts)) }

    function Copies(): (r: seq<SsaBlock>)
      requires Valid()
      ensures |r| == |callee.blocks| && forall j :: 0 <= j < |r| ==> r[j] == CopyBlock(j)
    { seq(|callee.blocks|, j requires 0 <= j < |callee.blocks| => CopyBlock(j)) }

    /** Where the copies return from, and with what; a bare return gives 0. */
    function Returns(n: nat): seq<(nat, Value)>
      requires Valid() && n <= |callee.blocks|
    { if n == 0 then [] else Returns(n - 1) + ReturnsIn(n - 1, |callee.blocks[n-1].insts|) }

    function ReturnsIn(j: nat, n: nat): seq<(nat, Value)>
      requires Valid() && j < |callee.blocks| && n <= |callee.blocks[j].insts|
    {
      if n == 0 then []
      else
        var i := callee.blocks[j].insts[n-1];
        ReturnsIn(j, n - 1) + if i.Ret?
          then [(CopyId(j), if i.val.Some? then Remap(i.val.value) else ConstInt(0))]
          else []
    }

    /** The ones there is room to note. */
    function AllReturns(): seq<(nat, Value)> requires Valid() { Noted(Returns(|callee.blocks|)) }

    /** The result of the call is replaced everywhere by the one value returned. */
    predicate Replaced() requires Valid() { Call().result.Some? && |AllReturns()| == 1 }

    function Subst(v: Value): Value
      requires Valid()
    { if Replaced() && v == Reg(Call().result.value) then AllReturns()[0].1 else v }

    function SubstAll(vs: seq<Value>): (r: seq<Value>)
      requires Valid()
      ensures |r| == |vs| && forall i :: 0 <= i < |vs| ==> r[i] == Subst(vs[i])
    { seq(|vs|, i requires 0 <= i < |vs| => Subst(vs[i])) }

    function SubstInst(i: Inst): Inst
      requires Valid()
    {
      match i
      case Store(v, s) => Store(Subst(v), s)
      case Const(d, v) => Const(d, Subst(v))
      case Bin(op, d, l, r) => Bin(op, d, Subst(l), Subst(r))
      case Un(op, d, v) => Un(op, d, Subst(v))
      case Call(d, f, args) => Inst.Call(d, f, SubstAll(args))
      case Print(v) => Print(Subst(v))
      case CondBr(c, t, f) => CondBr(Subst(c), t, f)
      case Ret(Some(v)) => Ret(Some(Subst(v)))
      case _ => i
    }

    function SubstInsts(insts: seq<Inst>): (r: seq<Inst>)
      requires Valid()
      ensures |r| == |insts| && forall i :: 0 <= i < |insts| ==> r[i] == SubstInst(insts[i])
    { seq(|insts|, i requires 0 <= i < |insts| => SubstInst(insts[i])) }

    function SubstPhis(phis: seq<Phi>): (r: seq<Phi>)
      requires Valid()
      ensures |r| == |phis| && forall i :: 0 <= i < |phis| ==> r[i] == SubstPhi(phis[i])
    { seq(|phis|, i requires 0 <= i < |phis| => SubstPhi(phis[i])) }

    function SubstPhi(p: Phi): Phi
      requires Valid()
    { Phi(p.dst, seq(|p.ins|, i requires 0 <= i < |p.ins| => (p.ins[i].0, Subst(p.ins[i].1)))) }

    function SubstBlock(b: SsaBlock): SsaBlock
      requires Valid()
    { SsaBlock(b.id, SubstPhis(b.phis), SubstInsts(b.insts)) }

    /** Phis of the successors of the block now hear from the split block. */
    function Retarget(b: SsaBlock): SsaBlock
      requires Valid()
    { if b.id in SuccIds(Block()) then SsaBlock(b.id, RetargetPhis(b.phis), b.insts) else b }

    function RetargetPhis(phis: seq<Phi>): (r: seq<Phi>)
      requires Valid()
      ensures |r| == |phis| && forall i :: 0 <= i < |phis| ==> r[i] == RetargetPhi(phis[i])
    { seq(|phis|, i requires 0 <= i < |phis| => RetargetPhi(phis[i])) }

    function RetargetPhi(p: Phi): Phi
      requires Valid()
    {
      Phi(p.dst, seq(|p.ins|, i requires 0 <= i < |p.ins| =>
        (if p.ins[i].0 == Block().id then SplitId() else p.ins[i].0, p.ins[i].1)))
    }

    /** What the `i`-th block of the caller becomes. */
    function OldBlock(i: nat): SsaBlock
      requires Valid() && i < |caller.blocks| && callee.blocks != []
    {
      var b := Retarget(caller.blocks[i]);
      if i == bi then SsaBlock(b.id, b.phis, b.insts[..k] + [Br(CopyId(0))]) else b
    }

    function OldBlocks(): (r: seq<SsaBlock>)
      requires Valid() && callee.blocks != []
      ensures |r| == |caller.blocks| && forall i :: 0 <= i < |r| ==> r[i] == OldBlock(i)
    { seq(|caller.blocks|, i requires 0 <= i < |caller.blocks| => OldBlock(i)) }

    /** A phi gathers several returned values. */
    function SplitBlock(): SsaBlock
      requires Valid()
    {
      var phis := if Call().result.Some? && |AllReturns()| > 1 then [Phi(Call().result.value, AllReturns())] else [];
      SsaBlock(SplitId(), phis, Block().insts[k+1..])
    }

    function SubstBlocks(blocks: seq<SsaBlock>): (r: seq<SsaBlock>)
      requires Valid()
      ensures |r| == |blocks| && forall i :: 0 <= i < |r| ==> r[i] == SubstBlock(blocks[i])
    { seq(|blocks|, i requires 0 <= i < |blocks| => SubstBlock(blocks[i])) }

    /** The caller with the call inlined. */
    function Inlined(): Fn
      requires Valid() && callee.blocks != []
    {
      Fn(caller.name, caller.params, SubstBlocks(OldBlocks() + [SplitBlock()] + Copies()),
        caller.nextReg + |DefsOf(callee.blocks)|, caller.nextBlock + 2 + 2 * |callee.blocks|)
    }
  }

  const MAX_RETURNS := 64

  function Noted(all: seq<(nat, Value)>): seq<(nat, Value)> { if |all| <= MAX_RETURNS then all else all[..MAX_RETURNS] }

  function IndexOf(blocks: seq<SsaBlock>, id: nat): (r: Option<nat>)
    ensures r.Some? ==>
      r.value < |blocks| && blocks[r.value].id == id && forall j :: 0 <= j < r.value ==> blocks[j].id != id
    ensures r.None? ==> forall j :: 0 <= j < |blocks| ==> blocks[j].id != id
  {
    if blocks == [] then None
    else if blocks[0].id == id then Some(0)
    else
      var r := IndexOf(blocks[1..], id);
      assert forall j :: 0 < j < |blocks| ==> blocks[j] == blocks[1..][j-1];
      if r.Some? then Some(r.value + 1) else None
  }

  function SuccIds(b: SsaBlock): seq<nat> { if b.insts == [] then [] else Targets(b.insts[|b.insts|-1]) }

  function PhiDefs(phis: seq<Phi>): (r: seq<nat>)
    ensures |r| == |phis| && forall i :: 0 <= i < |r| ==> r[i] == phis[i].dst
  { seq(|phis|, i requires 0 <= i < |phis| => phis[i].dst) }

  function InstDefs(insts: seq<Inst>): seq<nat> {
    if insts == [] then []
    else InstDefs(insts[..|insts|-1]) + (if Dst(insts[|insts|-1]).Some? then [Dst(insts[|insts|-1]).value] else [])
  }

  /** Everything a function defines, in order. */
  function DefsOf(blocks: seq<SsaBlock>): seq<nat> {
    if blocks == [] then []
    else
      var b := blocks[|blocks|-1];
      DefsOf(blocks[..|blocks|-1]) + PhiDefs(b.phis) + InstDefs(b.insts)
  }

  /** Numbers the registers of a list from `next` on. */
  function Renumber(defs: seq<nat>, next: nat): map<nat, nat> {
    if defs == [] then map[] else Renumber(defs[..|defs|-1], next)[defs[|defs|-1] := next + |defs| - 1]
  }
}
