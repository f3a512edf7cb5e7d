module Optimizer {
  // The function object the passes rewrite in place, and the pipeline driver
  // (src/ir/ir_opt.c, src/ir/ir_verify.c:334-390, src/ir/ir.c:485-540).

  import opened Options
  import opened Ir
  import opened Graphs
  import Fold = ConstantFolding
  import Prop = ConstantPropagation
  import opened Uses = UseReplacement
  import Alg = AlgebraicSimplification
  import Copy = CopyPropagation
  import Dce = DeadCode
  import Cfg = CfgSimplification
  import opened FinishedCode

  /** The edge lists say what the terminators say, without repetition, and are each other's converse. */
  ghost predicate EdgesMatch(blocks: seq<Block>, nextBlock: nat, succs: seq<seq<nat>>, preds: seq<seq<nat>>) {
    && succs == Cfg.GraphOf(blocks, nextBlock)
    && Converse(succs, preds)
  }

  ghost predicate Converse(succs: seq<seq<nat>>, preds: seq<seq<nat>>) {
    && |preds| == |succs|
    && (forall a :: 0 <= a < |succs| ==> NoDup(succs[a]) && NoDup(preds[a]))
    && (forall a, b :: 0 <= a < |succs| && 0 <= b < |succs| ==> (b in succs[a] <==> a in preds[b]))
  }

  class IrFunction {
    var blocks: seq<Block>
    var nextReg: nat
    var nextBlock: nat
    var succs: seq<seq<nat>>
    var preds: seq<seq<nat>>

    constructor (blocks: seq<Block>, nextReg: nat, nextBlock: nat)
      ensures this.blocks == blocks && this.nextReg == nextReg && this.nextBlock == nextBlock
    {
      this.blocks, this.nextReg, this.nextBlock := blocks, nextReg, nextBlock;
      succs, preds := seq(nextBlock, _ => []), seq(nextBlock, _ => []);
    }

    ghost predicate Valid() reads this { WellFormed(blocks, nextReg) && Cfg.IdsBelow(blocks, nextBlock) }

    method BlockExists(id: nat) returns (found: bool)
      ensures found <==> HasBlock(blocks, id)
    {
      for i := 0 to |blocks|
        invariant forall j :: 0 <= j < i ==> blocks[j].id != id
      {
        if blocks[i].id == id { return true; }
      }
      return false;
    }

    method Verify() returns (ok: bool)
      ensures ok <==> Verified(blocks)
    {
      if blocks == [] { return false; }
      for i := 0 to |blocks|
        invariant forall j :: 0 <= j < i ==> BlockOk(blocks[j])
        invariant forall j, k, t ::
          0 <= j < i && 0 <= k < |blocks[j].insts| && t in Targets(blocks[j].insts[k]) ==> HasBlock(blocks, t)
      {
        var insts := blocks[i].insts;
        if insts == [] { return false; }
        for k := 0 to |insts|
          invariant forall j :: 0 <= j < k ==> !(IsTerminator(insts[j]) && j != |insts| - 1)
          invariant forall j, t :: 0 <= j < k && t in Targets(insts[j]) ==> HasBlock(blocks, t)
        {
          if IsTerminator(insts[k]) && k != |insts| - 1 { return false; }
          var targets := Targets(insts[k]);
          for n := 0 to |targets|
            invariant forall m :: 0 <= m < n ==> HasBlock(blocks, targets[m])
          {
            var found := BlockExists(targets[n]);
            if !found { assert targets[n] in Targets(insts[k]); return false; }
          }
        }
        if !IsTerminator(insts[|insts|-1]) { return false; }
      }
      return true;
    }

    method ReplaceInBlock(i: nat, r: nat, w: Value) returns (replaced: bool)
      requires i < |blocks|
      modifies `blocks
      ensures blocks == old(blocks)[i := Block(old(blocks)[i].id, ReplaceInsts(old(blocks)[i].insts, r, w))]
      ensures replaced <==> exists n :: 0 <= n < |old(blocks)[i].insts| && r in UsedRegs(old(blocks)[i].insts[n])
    {
      replaced := false;
      ghost var was := blocks;
      ghost var goal := ReplaceInsts(was[i].insts, r, w);
      for k := 0 to |blocks[i].insts|
        invariant |blocks| == |was| && blocks[i].id == was[i].id && |blocks[i].insts| == |was[i].insts|
        invariant forall j :: 0 <= j < |was| && j != i ==> blocks[j] == was[j]
        invariant forall n ::
          0 <= n < |was[i].insts| ==> blocks[i].insts[n] == if n < k then goal[n] else was[i].insts[n]
        invariant replaced <==> exists n :: 0 <= n < k && r in UsedRegs(was[i].insts[n])
      {
        var x := blocks[i].insts[k];
        if r in UsedRegs(x) {
          replaced := true;
          blocks := SetInst(blocks, i, k, ReplaceInst(x, r, w));
        } else {
          ReplaceShape(x, r, w);
        }
      }
      assert blocks[i].insts == goal;
      assert blocks == was[i := Block(was[i].id, goal)];
    }

    method ReplaceValueUses(r: nat, w: Value) returns (replaced: bool)
      modifies `blocks
      ensures blocks == ReplaceUses(old(blocks), r, w)
      ensures replaced <==> SomeUse(old(blocks), r)
    {
      replaced := false;
      ghost var was := blocks;
      ghost var all := ReplaceUses(was, r, w);
      for i := 0 to |blocks|
        invariant |blocks| == |was|
        invariant forall j :: 0 <= j < |was| ==> blocks[j] == if j < i then all[j] else was[j]
        invariant replaced <==> exists j, n :: 0 <= j < i && 0 <= n < |was[j].insts| && r in UsedRegs(was[j].insts[n])
      {
        var step := ReplaceInBlock(i, r, w);
        replaced := replaced || step;
      }
      assert blocks == all;
    }

    method FoldInBlock(i: nat) returns (changed: bool)
      requires i < |blocks|
      modifies `blocks
      ensures blocks == old(blocks)[i := Block(old(blocks)[i].id, Fold.FoldInsts(old(blocks)[i].insts))]
      ensures changed <==> blocks[i] != old(blocks)[i]
    {
      changed := false;
      ghost var was := blocks;
      ghost var goal := Fold.FoldInsts(was[i].insts);
      for k := 0 to |blocks[i].insts|
        invariant |blocks| == |was| && blocks[i].id == was[i].id && |blocks[i].insts| == |was[i].insts|
        invariant forall j :: 0 <= j < |was| && j != i ==> blocks[j] == was[j]
        invariant forall n ::
          0 <= n < |was[i].insts| ==> blocks[i].insts[n] == if n < k then goal[n] else was[i].insts[n]
        invariant changed <==> exists n :: 0 <= n < k && goal[n] != was[i].insts[n]
      {
        var x := blocks[i].insts[k];
        if Fold.FoldInst(x) != x {
          changed := true;
          blocks := SetInst(blocks, i, k, Fold.FoldInst(x));
        }
      }
      assert blocks[i].insts == goal;
      assert blocks == was[i := Block(was[i].id, goal)];
    }

    method ConstantFolding() returns (changed: bool)
      requires Valid()
      modifies `blocks
      ensures Valid() && Refines(old(blocks), blocks)
      ensures blocks == Fold.FoldBlocks(old(blocks))
      ensures changed <==> blocks != old(blocks)
    {
      Fold.FoldRefines(blocks, nextReg);
      changed := false;
      ghost var was := blocks;
      ghost var all := Fold.FoldBlocks(was);
      for i := 0 to |blocks|
        invariant |blocks| == |was|
        invariant forall j :: 0 <= j < |was| ==> blocks[j] == if j < i then all[j] else was[j]
        invariant changed <==> exists j :: 0 <= j < i && all[j] != was[j]
      {
        var step := FoldInBlock(i);
        changed := changed || step;
      }
      assert blocks == all;
    }

    /** How often the function defines each register. */
    method CountDefinitions() returns (count: array<nat>)
      requires Valid()
      ensures fresh(count) && count.Length == nextReg
      ensures var all := Prop.Flat(blocks, |blocks|);
        forall r :: 0 <= r < nextReg ==> count[r] == Prop.DefCount(all, r)
    {
      count := new nat[nextReg](_ => 0);
      for i := 0 to |blocks|
        invariant forall r :: 0 <= r < nextReg ==> count[r] == Prop.DefCount(Prop.Flat(blocks, i), r)
      {
        var insts := blocks[i].insts;
        ghost var before := Prop.Flat(blocks, i);
        assert before + insts[..0] == before;
        for k := 0 to |insts|
          invariant forall r :: 0 <= r < nextReg ==> count[r] == Prop.DefCount(before + insts[..k], r)
        {
          ghost var seen := before + insts[..k];
          assert before + insts[..k+1] == seen + [insts[k]];
          assert (seen + [insts[k]])[..|seen|] == seen;
          var d := Dst(insts[k]);
          if d.Some? {
            assert DefinedAt(blocks, i, k, d.value);
            count[d.value] := count[d.value] + 1;
          }
        }
        assert before + insts[..|insts|] == Prop.Flat(blocks, i + 1);
      }
    }

    /** Adds the literals that one block's `Const` instructions define. */
    method ScanConstants(insts: seq<Inst>, ghost before: seq<Inst>, count: array<nat>, ghost all: seq<Inst>,
        m: map<nat, Value>)
      returns (known: map<nat, Value>)
      requires forall r :: 0 <= r < count.Length ==> count[r] == Prop.DefCount(all, r)
      requires forall k :: 0 <= k < |insts| && insts[k].Const? ==> insts[k].dst < count.Length
      requires m == Prop.KnownConsts(before, all)
      ensures known == Prop.KnownConsts(before + insts, all)
    {
      known := m;
      assert before + insts[..0] == before;
      for k := 0 to |insts|
        invariant known == Prop.KnownConsts(before + insts[..k], all)
      {
        var x := insts[k];
        ghost var seen := before + insts[..k];
        assert before + insts[..k+1] == seen + [x];
        assert (seen + [x])[..|seen|] == seen;
        if x.Const? && Fold.Literal(x.src) && count[x.dst] == 1 { known := known[x.dst := x.src]; }
        assert known == Prop.AddConst(Prop.KnownConsts(seen, all), x, all);
      }
      assert before + insts[..|insts|] == before + insts;
    }

    /** The table of registers known to hold a literal. */
    method FindConstants() returns (known: map<nat, Value>)
      requires Valid()
      ensures var all := Prop.Flat(blocks, |blocks|); known == Prop.KnownConsts(all, all)
    {
      var count := CountDefinitions();
      ghost var all := Prop.Flat(blocks, |blocks|);
      known := map[];
      for i := 0 to |blocks|
        invariant known == Prop.KnownConsts(Prop.Flat(blocks, i), all)
        invariant forall r :: 0 <= r < count.Length ==> count[r] == Prop.DefCount(all, r)
      {
        forall k | 0 <= k < |blocks[i].insts| && blocks[i].insts[k].Const? ensures blocks[i].insts[k].dst < nextReg {
          assert DefinedAt(blocks, i, k, blocks[i].insts[k].dst);
        }
        known := ScanConstants(blocks[i].insts, Prop.Flat(blocks, i), count, all, known);
      }
    }

    method SubstituteInBlock(i: nat, known: map<nat, Value>) returns (changed: bool)
      requires i < |blocks|
      modifies `blocks
      ensures blocks == old(blocks)[i := Block(old(blocks)[i].id, Prop.SubstInsts(old(blocks)[i].insts, known))]
      ensures changed <==> blocks[i] != old(blocks)[i]
    {
      changed := false;
      ghost var was := blocks;
      ghost var goal := Prop.SubstInsts(was[i].insts, known);
      for k := 0 to |blocks[i].insts|
        invariant |blocks| == |was| && blocks[i].id == was[i].id && |blocks[i].insts| == |was[i].insts|
        invariant forall j :: 0 <= j < |was| && j != i ==> blocks[j] == was[j]
        invariant forall n ::
          0 <= n < |was[i].insts| ==> blocks[i].insts[n] == if n < k then goal[n] else was[i].insts[n]
        invariant changed <==> exists n :: 0 <= n < k && goal[n] != was[i].insts[n]
      {
        var x := blocks[i].insts[k];
        if Prop.SubstInst(x, known) != x {
          changed := true;
          blocks := SetInst(blocks, i, k, Prop.SubstInst(x, known));
        }
      }
      assert blocks[i].insts == goal;
      assert blocks == was[i := Block(was[i].id, goal)];
    }

    /** Replaces known registers in the operands of every instruction but the `Const`s. */
    method SubstituteConstants(known: map<nat, Value>) returns (changed: bool)
      modifies `blocks
      ensures blocks == Prop.SubstBlocks(old(blocks), known)
      ensures changed <==> blocks != old(blocks)
    {
      changed := false;
      ghost var was := blocks;
      ghost var all := Prop.SubstBlocks(was, known);
      for i := 0 to |blocks|
        invariant |blocks| == |was|
        invariant forall j :: 0 <= j < |was| ==> blocks[j] == if j < i then all[j] else was[j]
        invariant changed <==> exists j :: 0 <= j < i && all[j] != was[j]
      {
        var step := SubstituteInBlock(i, known);
        changed := changed || step;
      }
      assert blocks == all;
    }

    method ConstantPropagation() returns (changed: bool)
      requires Valid()
      modifies `blocks
      ensures Valid() && Refines(old(blocks), blocks)
      ensures blocks == Prop.PropagateBlocks(old(blocks))
      ensures changed <==> blocks != old(blocks)
    {
      var known := FindConstants();
      Prop.PropagateRefines(blocks, nextReg);
      changed := SubstituteConstants(known);
    }

    /** Visits one instruction. */
    method SimplifyAt(i: nat, k: nat) returns (changed: bool)
      requires i < |blocks| && k < |blocks[i].insts|
      modifies `blocks
      ensures blocks == Alg.Visit(old(blocks), i, k)
      ensures !changed ==> blocks == old(blocks)
    {
      var x := blocks[i].insts[k];
      changed := true;
      match Alg.RuleFor(x)
      case Keep => changed := false;
      case Forward(v) =>
        var _ := ReplaceValueUses(x.dst, v);
        blocks := SetInst(blocks, i, k, Const(x.dst, v));
      case Literally(v) =>
        blocks := SetInst(blocks, i, k, Const(x.dst, v));
    }

    method SimplifyAll() returns (changed: bool)
      modifies `blocks
      ensures blocks == Alg.SimplifyFrom(old(blocks), 0, 0)
      ensures !changed ==> blocks == old(blocks)
    {
      changed := false;
      ghost var was := blocks;
      for i := 0 to |blocks|
        invariant |blocks| == |was| && Alg.SimplifyFrom(blocks, i, 0) == Alg.SimplifyFrom(was, 0, 0)
        invariant !changed ==> blocks == was
      {
        var len := |blocks[i].insts|;
        for k := 0 to len
          invariant |blocks| == |was| && len == |blocks[i].insts|
          invariant Alg.SimplifyFrom(blocks, i, k) == Alg.SimplifyFrom(was, 0, 0)
          invariant !changed ==> blocks == was
        {
          var step := SimplifyAt(i, k);
          if step { changed := true; }
        }
      }
    }

    method AlgebraicSimplification() returns (changed: bool)
      requires Valid()
      modifies `blocks
      ensures Valid() && Refines(old(blocks), blocks)
      ensures blocks == Alg.SimplifyFrom(old(blocks), 0, 0)
      ensures !changed ==> blocks == old(blocks)
    {
      Alg.SimplifyRefines(blocks, nextReg, 0, 0);
      changed := SimplifyAll();
    }

    /** Visits one instruction: a load from a slot with a known content has its uses replaced. */
    method ForwardAt(i: nat, k: nat, table: Copy.Table) returns (next: Copy.Table, replaced: bool)
      requires i < |blocks| && k < |blocks[i].insts|
      modifies `blocks
      ensures SameIds(old(blocks), blocks) && |blocks[i].insts| == |old(blocks)[i].insts|
      ensures Copy.ForwardFrom(blocks, i, k + 1, next) == Copy.ForwardFrom(old(blocks), i, k, table)
      ensures !replaced ==> blocks == old(blocks)
    {
      var x := blocks[i].insts[k];
      replaced := false;
      if x.Load? && x.slot in table {
        replaced := ReplaceValueUses(x.dst, table[x.slot]);
        if !replaced { NoUseNoChange(old(blocks), x.dst, table[x.slot]); }
      }
      assert blocks == Copy.Visit(old(blocks), table, x);
      next := Copy.NextTable(table, x);
      Copy.ForwardUnfold(old(blocks), i, k, table);
    }

    method ForwardAll() returns (changed: bool)
      modifies `blocks
      ensures blocks == Copy.ForwardFrom(old(blocks), 0, 0, map[])
      ensures !changed ==> blocks == old(blocks)
    {
      changed := false;
      for i := 0 to |blocks|
        invariant |blocks| == |old(blocks)|
        invariant Copy.ForwardFrom(blocks, i, 0, map[]) == Copy.ForwardFrom(old(blocks), 0, 0, map[])
        invariant !changed ==> blocks == old(blocks)
      {
        var step := ForwardInBlock(i);
        if step { changed := true; }
      }
    }

    /** One block, with a slot table of its own. */
    method ForwardInBlock(i: nat) returns (changed: bool)
      requires i < |blocks|
      modifies `blocks
      ensures |blocks| == |old(blocks)|
      ensures Copy.ForwardFrom(blocks, i + 1, 0, map[]) == Copy.ForwardFrom(old(blocks), i, 0, map[])
      ensures !changed ==> blocks == old(blocks)
    {
      changed := false;
      var table: Copy.Table := map[];
      var len := |blocks[i].insts|;
      for k := 0 to len
        invariant |blocks| == |old(blocks)| && len == |blocks[i].insts|
        invariant Copy.ForwardFrom(blocks, i, k, table) == Copy.ForwardFrom(old(blocks), i, 0, map[])
        invariant !changed ==> blocks == old(blocks)
      {
        var replaced: bool;
        table, replaced := ForwardAt(i, k, table);
        changed := changed || replaced;
      }
    }

    method CopyPropagation() returns (changed: bool)
      requires Valid()
      modifies `blocks
      ensures Valid() && Refines(old(blocks), blocks)
      ensures blocks == Copy.ForwardFrom(old(blocks), 0, 0, map[])
      ensures !changed ==> blocks == old(blocks)
    {
      Copy.ForwardRefines(blocks, nextReg, 0, 0, map[]);
      changed := ForwardAll();
    }

    /** Counts the register operands of one instruction. */
    method CountOperands(x: Inst, count: array<nat>, ghost before: set<nat>)
      requires forall r :: 0 <= r < count.Length ==> (count[r] > 0 <==> r in before)
      modifies count
      ensures forall r :: 0 <= r < count.Length ==> (count[r] > 0 <==> r in before + UsedRegs(x))
    {
      var ops := Operands(x);
      for n := 0 to |ops|
        invariant forall r ::
          0 <= r < count.Length ==> (count[r] > 0 <==> r in before || exists m :: 0 <= m < n && ops[m] == Reg(r))
      {
        if ops[n].Reg? && ops[n].id < count.Length { count[ops[n].id] := count[ops[n].id] + 1; }
      }
    }

    /** One use count per register. */
    method CountUses() returns (count: array<nat>)
      ensures fresh(count) && count.Length == nextReg
      ensures forall r :: 0 <= r < nextReg ==> (count[r] > 0 <==> r in Dce.UsedInBlocks(blocks))
    {
      count := new nat[nextReg](_ => 0);
      assert blocks[..0] == [];
      for i := 0 to |blocks|
        invariant forall r :: 0 <= r < nextReg ==> (count[r] > 0 <==> r in Dce.UsedInBlocks(blocks[..i]))
      {
        var insts := blocks[i].insts;
        ghost var earlier := Dce.UsedInBlocks(blocks[..i]);
        assert insts[..0] == [];
        for k := 0 to |insts|
          invariant forall r :: 0 <= r < nextReg ==> (count[r] > 0 <==> r in earlier + Dce.UsedIn(insts[..k]))
        {
          CountOperands(insts[k], count, earlier + Dce.UsedIn(insts[..k]));
          assert insts[..k+1] == insts[..k] + [insts[k]];
          Dce.UsedInSnoc(insts[..k], insts[k]);
        }
        assert insts[..|insts|] == insts;
        assert blocks[..i+1] == blocks[..i] + [blocks[i]];
        Dce.UsedInBlocksSnoc(blocks[..i], blocks[i]);
      }
      assert blocks[..|blocks|] == blocks;
    }

    /** Unlinks, from block `i`, the instructions whose counted register nobody uses. */
    method SweepBlock(i: nat, count: array<nat>, ghost used: set<nat>) returns (removed: bool)
      requires i < |blocks| && count.Length == nextReg
      requires forall r :: 0 <= r < nextReg ==> (count[r] > 0 <==> r in used)
      requires forall k :: 0 <= k < |blocks[i].insts| ==> forall r :: r in Defs(blocks[i].insts[k]) ==> r < nextReg
      modifies `blocks
      ensures blocks == old(blocks)[i := Block(old(blocks)[i].id, Dce.Sweep(old(blocks)[i].insts, used))]
      ensures removed <==> blocks != old(blocks)
    {
      var insts := blocks[i].insts;
      var kept: seq<Inst> := [];
      removed := false;
      assert insts[..0] == [];
      for k := 0 to |insts|
        invariant kept == Dce.Sweep(insts[..k], used) && blocks == old(blocks)
        invariant removed <==> |kept| < k
        invariant |kept| <= k
      {
        var x := insts[k];
        assert insts[..k+1] == insts[..k] + [x];
        Dce.SweepSnoc(insts[..k], x, used);
        var d := Dst(x);
        if d.Some? && count[d.value] == 0 && !Dce.SideEffecting(x) { removed := true; } else { kept := kept + [x]; }
      }
      assert insts[..|insts|] == insts;
      Dce.SweepAll(insts, used);
      blocks := blocks[i := Block(blocks[i].id, kept)];
      assert old(blocks)[i] == Block(old(blocks)[i].id, insts);
    }

    /** One round: use counts first, then every block is swept with them. */
    method DeadCodeRound() returns (removed: bool)
      requires Valid()
      modifies `blocks
      ensures blocks == Dce.Round(old(blocks)) && (removed <==> blocks != old(blocks))
    {
      var count := CountUses();
      ghost var was := blocks;
      ghost var used := Dce.UsedInBlocks(was);
      ghost var all := Dce.Round(was);
      removed := false;
      for i := 0 to |blocks|
        invariant |blocks| == |was|
        invariant forall j :: 0 <= j < |was| ==> blocks[j] == if j < i then all[j] else was[j]
        invariant removed <==> exists j :: 0 <= j < i && all[j] != was[j]
        invariant forall r :: 0 <= r < nextReg ==> (count[r] > 0 <==> r in used)
      {
        forall k, r: nat | 0 <= k < |blocks[i].insts| && r in Defs(blocks[i].insts[k]) ensures r < nextReg {
          assert DefinedAt(was, i, k, r);
        }
        var some := SweepBlock(i, count, used);
        if some { removed := true; }
      }
      assert blocks == all;
    }

    method DeadCodeElimination() returns (changed: bool)
      requires Valid()
      modifies `blocks
      ensures Valid() && Refines(old(blocks), blocks)
      ensures blocks == Dce.Eliminate(old(blocks))
      ensures !changed ==> blocks == old(blocks)
    {
      changed := false;
      var again := true;
      while again
        invariant Valid() && Dce.Eliminate(blocks) == Dce.Eliminate(old(blocks))
        invariant !changed ==> blocks == old(blocks)
        invariant !again ==> Dce.Round(blocks) == blocks
        decreases Dce.Size(blocks), again
      {
        ghost var was := blocks;
        again := DeadCodeRound();
        if again { changed := true; }
        Dce.RoundShrinks(was);
        Dce.RoundWellFormed(was, nextReg);
        Dce.EliminateOnce(was);
      }
      Dce.EliminateFixed(blocks);
      Dce.EliminateRefines(old(blocks), nextReg);
    }

    /** `ir_block_add_successor`: both lists, without repetition. */
    method AddSuccessor(from: nat, to: nat)
      requires Converse(succs, preds) && from < |succs| && to < |succs|
      modifies `succs, `preds
      ensures Converse(succs, preds)
      ensures succs == old(succs)[from := if to in old(succs)[from] then old(succs)[from] else old(succs)[from] + [to]]
    {
      if to in succs[from] { assert succs == succs[from := succs[from]]; return; }
      ghost var s, p := succs, preds;
      succs := succs[from := succs[from] + [to]];
      preds := preds[to := preds[to] + [from]];
    }

    /** The edges one block's terminator calls for. */
    method AddEdges(b: Block)
      requires Converse(succs, preds) && |succs| == nextBlock && BlockOk(b) && b.id < nextBlock && succs[b.id] == []
      requires forall t :: t in Cfg.SuccsOf(b) ==> t < nextBlock
      modifies `succs, `preds
      ensures Converse(succs, preds) && succs == old(succs)[b.id := Cfg.SuccsOf(b)]
    {
      var last := b.insts[|b.insts|-1];
      ghost var targets := Cfg.SuccsOf(b);
      ghost var was := succs;
      if last.Br? {
        assert last.target in targets;
        AddSuccessor(b.id, last.target);
      } else if last.CondBr? {
        assert last.ifTrue in targets && last.ifFalse in targets;
        AddSuccessor(b.id, last.ifTrue);
        AddSuccessor(b.id, last.ifFalse);
      }
      assert succs[b.id] == targets;
      assert succs == was[b.id := targets];
    }

    /** `ir_recompute_cfg`: the lists are emptied and rebuilt from the terminators. */
    method RecomputeCfg()
      requires Verified(blocks) && UniqueIds(blocks) && Cfg.IdsBelow(blocks, nextBlock)
      modifies `succs, `preds
      ensures EdgesMatch(blocks, nextBlock, succs, preds)
    {
      succs, preds := seq(nextBlock, _ => []), seq(nextBlock, _ => []);
      for i := 0 to |blocks|
        invariant |succs| == nextBlock && Converse(succs, preds) && EdgesSoFar(blocks, i, succs)
      {
        EdgesStep(blocks, nextBlock, i, succs);
        AddEdges(blocks[i]);
      }
      EdgesComplete(blocks, nextBlock, succs);
    }

    /** Replaces constant and one-way conditional branches by plain branches. */
    method SimplifyBranches() returns (changed: bool)
      modifies `blocks
      ensures blocks == Cfg.SimplifyTerms(old(blocks)) && (changed <==> blocks != old(blocks))
    {
      changed := false;
      ghost var was := blocks;
      ghost var all := Cfg.SimplifyTerms(was);
      for i := 0 to |blocks|
        invariant |blocks| == |was|
        invariant forall j :: 0 <= j < |was| ==> blocks[j] == if j < i then all[j] else was[j]
        invariant changed <==> exists j :: 0 <= j < i && all[j] != was[j]
      {
        var insts := blocks[i].insts;
        if insts != [] {
          var t := Cfg.SimplifyTerm(insts[|insts|-1]);
          if t != insts[|insts|-1] {
            changed := true;
            blocks := SetInst(blocks, i, |insts| - 1, t);
            assert blocks[i].insts[|insts|-1] == t;
          }
        }
        assert insts != [] ==> all[i].insts[|insts|-1] == Cfg.SimplifyTerm(insts[|insts|-1]);
        assert blocks[i] == all[i];
      }
      assert blocks == all;
    }

    /** Unlinks the blocks that are neither the entry nor marked. */
    method UnlinkUnmarked(mark: array<bool>, ghost keep: set<nat>) returns (removed: bool)
      requires blocks != [] && Cfg.IdsBelow(blocks, nextBlock) && mark.Length == nextBlock
      requires forall id :: 0 <= id < nextBlock ==> (mark[id] <==> id in keep)
      requires blocks[0].id in keep
      modifies `blocks
      ensures blocks == Cfg.KeepBlocks(old(blocks), keep)
      ensures removed <==> blocks != old(blocks)
    {
      var kept: seq<Block> := [];
      var entry := blocks[0].id;
      removed := false;
      assert blocks[..0] == [];
      for i := 0 to |blocks|
        invariant kept == Cfg.KeepBlocks(blocks[..i], keep) && blocks == old(blocks) && |kept| <= i
        invariant if removed then |kept| < i else kept == blocks[..i]
      {
        assert blocks[..i+1][..i] == blocks[..i];
        if blocks[i].id != entry && !mark[blocks[i].id] { removed := true; } else { kept := kept + [blocks[i]]; }
      }
      assert blocks[..|blocks|] == blocks;
      blocks := kept;
    }

    method CfgSimplification() returns (changed: bool)
      requires Valid()
      modifies `blocks, `succs, `preds
      ensures Valid() && Refines(old(blocks), blocks)
      ensures blocks == Cfg.Simplified(old(blocks), nextBlock)
      ensures EdgesMatch(blocks, nextBlock, succs, preds)
      ensures !changed ==> blocks == old(blocks)
    {
      ghost var was := blocks;
      changed := SimplifyBranches();
      Cfg.SimplifyTermsRefines(was, nextReg);
      ghost var simple := blocks;
      RecomputeCfg();
      Cfg.GraphOfValid(blocks, nextBlock);
      var mark := MarkReachable(succs, blocks[0].id);
      Cfg.EntryReachable(blocks, nextBlock);
      var removed := UnlinkUnmarked(mark, Cfg.ReachableIds(blocks, nextBlock));
      if removed { changed := true; }
      Cfg.SimplifiedRefines(was, nextReg, nextBlock);
      RecomputeCfg();
    }

    /** One trip round the pipeline: every block left can be reached and every branch has something to decide. When it
        has changed nothing, nothing is left to do. */
    method OneIteration() returns (changed: bool)
      requires Valid()
      modifies `blocks, `succs, `preds
      ensures Valid() && Refines(old(blocks), blocks)
      ensures EdgesMatch(blocks, nextBlock, succs, preds)
      ensures blocks == Pipeline(old(blocks), nextBlock) && Straightened(blocks, nextBlock)
      ensures !changed ==> blocks == old(blocks) && Finished(blocks)
    {
      hide Refines;
      hide WellFormed;
      hide Finished;
      hide Straightened;
      hide Pipeline;
      hide EdgesMatch;
      hide Copy.ForwardFrom;
      hide Prop.PropagateBlocks;
      hide Alg.SimplifyFrom;
      hide Dce.Eliminate;
      hide Cfg.Simplified;
      changed := CopyPropagation();
      ghost var b1 := blocks;
      var step := ConstantPropagation();
      changed := changed || step;
      ghost var b2 := blocks;
      step := ConstantFolding();
      changed := changed || step;
      ghost var b3 := blocks;
      step := AlgebraicSimplification();
      changed := changed || step;
      ghost var b4 := blocks;
      step := DeadCodeElimination();
      changed := changed || step;
      ghost var b5 := blocks;
      NotEmpty(old(blocks), nextReg);
      step := CfgSimplification();
      changed := changed || step;
      StraighteningLeaves(b5, nextReg, nextBlock);
      if !changed { UnchangedIsFinished(blocks, nextReg); }
      PipelineIs(old(blocks), b1, b2, b3, b4, b5, nextBlock);
      RefinesTrans(b4, b5, blocks);
      RefinesTrans(b3, b4, blocks);
      RefinesTrans(b2, b3, blocks);
      RefinesTrans(b1, b2, blocks);
      RefinesTrans(old(blocks), b1, blocks);
    }

    /** The pipeline driver. It verifies before, after every round when asked, and at the end; on a well-formed function
        none of the structural checks modelled can fail. At any level above 0 it makes 10 rounds, or fewer when one has
        changed nothing, and then nothing is left to do. */
    method Optimize(optLevel: int, verifyEachPass: bool) returns (ok: bool, ghost rounds: nat)
      requires Valid()
      modifies `blocks, `succs, `preds
      ensures ok && Valid() && Refines(old(blocks), blocks)
      ensures blocks == Rounds(old(blocks), nextBlock, rounds) && rounds <= 10
      ensures if optLevel <= 0 then rounds == 0 else rounds > 0 && Straightened(blocks, nextBlock)
      ensures 0 < rounds < 10 ==> Finished(blocks) && Pipeline(blocks, nextBlock) == blocks
    {
      hide Refines;
      hide WellFormed;
      hide Verified;
      hide Finished;
      hide Straightened;
      hide Pipeline;
      hide EdgesMatch;
      RefinesSelf(blocks);
      NotEmpty(blocks, nextReg);
      rounds := 0;
      if optLevel <= 0 { return true, 0; }
      ok := Verify();
      if !ok { return; }
      var iter := 0;
      while iter < 10
        invariant Valid() && Refines(old(blocks), blocks) && rounds == iter <= 10
        invariant blocks == Rounds(old(blocks), nextBlock, rounds) && Verified(blocks)
        invariant rounds > 0 ==> Straightened(blocks, nextBlock)
      {
        ghost var was := blocks;
        var changed := OneIteration();
        rounds := rounds + 1;
        RefinesTrans(old(blocks), was, blocks);
        NotEmpty(blocks, nextReg);
        if verifyEachPass {
          ok := Verify();
          if !ok { return; }
        }
        if !changed { break; }
        iter := iter + 1;
      }
      ok := Verify();
    }
  }

  /** The lists of the first `n` blocks are filled, all others are empty. */
  ghost predicate EdgesSoFar(blocks: seq<Block>, n: nat, succs: seq<seq<nat>>)
    requires n <= |blocks| && Cfg.IdsBelow(blocks, |succs|)
  {
    && (forall j :: 0 <= j < n ==> succs[blocks[j].id] == Cfg.SuccsOf(blocks[j]))
    && (forall id :: 0 <= id < |succs| && !HasBlock(blocks[..n], id) ==> succs[id] == [])
  }

  lemma EdgesStep(blocks: seq<Block>, nextBlock: nat, i: nat, succs: seq<seq<nat>>)
    requires Verified(blocks) && UniqueIds(blocks) && Cfg.IdsBelow(blocks, nextBlock) && i < |blocks|
    requires |succs| == nextBlock && EdgesSoFar(blocks, i, succs)
    ensures BlockOk(blocks[i]) && succs[blocks[i].id] == []
    ensures forall t :: t in Cfg.SuccsOf(blocks[i]) ==> t < nextBlock
    ensures EdgesSoFar(blocks, i + 1, succs[blocks[i].id := Cfg.SuccsOf(blocks[i])])
  {
    assert BlockOk(blocks[i]);
    forall t | t in Cfg.SuccsOf(blocks[i]) ensures t < nextBlock { assert HasBlock(blocks, t); }
    forall id | 0 <= id < nextBlock && !HasBlock(blocks[..i+1], id)
      ensures id != blocks[i].id && !HasBlock(blocks[..i], id)
    {
      assert blocks[..i+1][i] == blocks[i];
      assert forall j :: 0 <= j < i ==> blocks[..i+1][j] == blocks[..i][j];
    }
  }

  lemma EdgesComplete(blocks: seq<Block>, nextBlock: nat, succs: seq<seq<nat>>)
    requires UniqueIds(blocks) && Cfg.IdsBelow(blocks, nextBlock) && |succs| == nextBlock
      && EdgesSoFar(blocks, |blocks|, succs)
    ensures succs == Cfg.GraphOf(blocks, nextBlock)
  {
    assert blocks[..|blocks|] == blocks;
    forall id | 0 <= id < nextBlock ensures succs[id] == Cfg.GraphOf(blocks, nextBlock)[id] {
      FindBlockIs(blocks, id);
      if FindBlock(blocks, id).Some? {
        var j :| 0 <= j < |blocks| && blocks[j] == FindBlock(blocks, id).value;
      }
    }
  }

  lemma NotEmpty(blocks: seq<Block>, nextReg: nat)
    requires WellFormed(blocks, nextReg)
    ensures blocks != [] && Verified(blocks)
  {}

  lemma RefinesSelf(blocks: seq<Block>)
    ensures Refines(blocks, blocks)
  {}

  lemma PipelineIs(b0: seq<Block>, b1: seq<Block>, b2: seq<Block>, b3: seq<Block>, b4: seq<Block>, b5: seq<Block>,
      nextBlock: nat)
    requires b0 != [] && b1 == Copy.ForwardFrom(b0, 0, 0, map[]) && b2 == Prop.PropagateBlocks(b1)
    requires b3 == Fold.FoldBlocks(b2) && b4 == Alg.SimplifyFrom(b3, 0, 0) && b5 == Dce.Eliminate(b4)
    ensures b5 != [] && Pipeline(b0, nextBlock) == Cfg.Simplified(b5, nextBlock)
  {}

  lemma NoUseNoChange(blocks: seq<Block>, r: nat, w: Value)
    requires !SomeUse(blocks, r)
    ensures ReplaceUses(blocks, r, w) == blocks
  {
    hide WellFormed;
    forall i | 0 <= i < |blocks| ensures ReplaceInsts(blocks[i].insts, r, w) == blocks[i].insts {
      forall k | 0 <= k < |blocks[i].insts| ensures ReplaceInst(blocks[i].insts[k], r, w) == blocks[i].insts[k] {
        ReplaceShape(blocks[i].insts[k], r, w);
      }
    }
  }
}
