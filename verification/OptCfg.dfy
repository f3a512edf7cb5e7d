module CfgSimplification {
  // Branch simplification, the rebuilt edge lists and removal of unreachable blocks
  // (src/ir/ir_opt.c:569-664, src/ir/ir.c:485-540).

  import opened Options
  import opened Ir
  import opened Graphs
  import opened BlockRefinement

  function SimplifyTerm(i: Inst): Inst {
    match i
    case CondBr(ConstBool(b), t, f) => Br(if b then t else f)
    case CondBr(ConstInt(n), t, f) => Br(if n != 0 then t else f)
    case CondBr(c, t, f) => if t == f then Br(t) else i
    case _ => i
  }

  function SimplifyLast(insts: seq<Inst>): (r: seq<Inst>)
    ensures |r| == |insts|
  { if insts == [] then [] else insts[|insts|-1 := SimplifyTerm(insts[|insts|-1])] }

  function SimplifyTerms(blocks: seq<Block>): (r: seq<Block>)
    ensures |r| == |blocks| && forall i :: 0 <= i < |r| ==> r[i] == Block(blocks[i].id, SimplifyLast(blocks[i].insts))
  { seq(|blocks|, i requires 0 <= i < |blocks| => Block(blocks[i].id, SimplifyLast(blocks[i].insts))) }

  lemma SimplifyTermRefines(i: Inst)
    ensures var t := SimplifyTerm(i);
      && InstRefines(i, t) && Defs(t) == Defs(i) && UsedRegs(t) <= UsedRegs(i)
      && (IsTerminator(t) <==> IsTerminator(i)) && (forall x :: x in Targets(t) ==> x in Targets(i))
  {}

  /** Folding constant branches keeps behaviour and form. */
  lemma SimplifyTermsRefines(blocks: seq<Block>, nextReg: nat)
    requires WellFormed(blocks, nextReg)
    ensures WellFormed(SimplifyTerms(blocks), nextReg) && Refines(blocks, SimplifyTerms(blocks))
  {
    var r := SimplifyTerms(blocks);
    forall i | 0 <= i < |blocks| ensures RunRefines(blocks[i].insts, r[i].insts) && LocalUses(r[i].insts) {
      var a, b := blocks[i].insts, r[i].insts;
      forall k | 0 <= k < |a|
        ensures InstRefines(a[k], b[k]) && Defs(a[k]) == Defs(b[k]) && UsedRegs(b[k]) <= UsedRegs(a[k])
      {
        SimplifyTermRefines(a[k]);
      }
      PointwiseRefines(a, b);
      FewerUsesLocal(a, b);
    }
    forall i, k | 0 <= i < |blocks| && 0 <= k < |blocks[i].insts|
      ensures Defs(blocks[i].insts[k]) == Defs(r[i].insts[k])
        && (IsTerminator(blocks[i].insts[k]) <==> IsTerminator(r[i].insts[k]))
        && (forall t :: t in Targets(r[i].insts[k]) ==> t in Targets(blocks[i].insts[k]))
    { SimplifyTermRefines(blocks[i].insts[k]); }
    SameShapeWellFormed(blocks, r, nextReg);
    BlocksRefineRefines(blocks, r);
  }

  /** The successors the rebuilt edge list of a block holds: its branch targets without repetition. */
  function SuccsOf(b: Block): (r: seq<nat>)
    ensures NoDup(r)
    ensures b.insts != [] ==> forall t :: t in r <==> t in Targets(b.insts[|b.insts|-1])
  {
    if b.insts == [] then []
    else match b.insts[|b.insts|-1]
      case Br(t) => [t]
      case CondBr(_, t, f) => if t == f then [t] else [t, f]
      case _ => []
  }

  predicate IdsBelow(blocks: seq<Block>, nextBlock: nat) { forall i :: 0 <= i < |blocks| ==> blocks[i].id < nextBlock }

  /** The control-flow graph, indexed by block number. */
  function GraphOf(blocks: seq<Block>, nextBlock: nat): (g: Graph)
    ensures |g| == nextBlock
  {
    seq(nextBlock, id requires 0 <= id < nextBlock =>
      if FindBlock(blocks, id).Some? then SuccsOf(FindBlock(blocks, id).value) else [])
  }

  lemma GraphOfValid(blocks: seq<Block>, nextBlock: nat)
    requires Verified(blocks) && IdsBelow(blocks, nextBlock)
    ensures ValidGraph(GraphOf(blocks, nextBlock))
  {
    var g := GraphOf(blocks, nextBlock);
    forall a, k | 0 <= a < |g| && 0 <= k < |g[a]| ensures g[a][k] < |g| {
      FindBlockIs(blocks, a);
      var b := FindBlock(blocks, a).value;
      var i :| 0 <= i < |blocks| && blocks[i] == b;
      assert BlockOk(blocks[i]) && g[a][k] in SuccsOf(b);
      assert HasBlock(blocks, g[a][k]);
    }
  }

  ghost function ReachableIds(blocks: seq<Block>, nextBlock: nat): (s: set<nat>)
    requires blocks != []
  { set id | 0 <= id < nextBlock && Reach(GraphOf(blocks, nextBlock), blocks[0].id, id) }

  function KeepBlocks(blocks: seq<Block>, keep: set<nat>): (r: seq<Block>) {
    if blocks == [] then []
    else KeepBlocks(blocks[..|blocks|-1], keep) + (if blocks[|blocks|-1].id in keep then [blocks[|blocks|-1]] else [])
  }

  /** The pass: constant branches are folded, then what the entry cannot reach is unlinked. */
  ghost function Simplified(blocks: seq<Block>, nextBlock: nat): seq<Block>
    requires blocks != []
  { var t := SimplifyTerms(blocks); KeepBlocks(t, ReachableIds(t, nextBlock)) }

  /** The original position of the `k`-th kept block. */
  function KeptFrom(blocks: seq<Block>, keep: set<nat>, k: nat): (r: nat)
    requires k < |KeepBlocks(blocks, keep)|
    ensures r < |blocks| && blocks[r] == KeepBlocks(blocks, keep)[k] && blocks[r].id in keep
  {
    var front := blocks[..|blocks|-1];
    if k < |KeepBlocks(front, keep)| then KeptFrom(front, keep, k) else |blocks| - 1
  }

  lemma {:induction false} KeptFromMonotone(blocks: seq<Block>, keep: set<nat>, j: nat, k: nat)
    requires j < k < |KeepBlocks(blocks, keep)|
    ensures KeptFrom(blocks, keep, j) < KeptFrom(blocks, keep, k)
  {
    var front := blocks[..|blocks|-1];
    if k < |KeepBlocks(front, keep)| { KeptFromMonotone(front, keep, j, k); }
  }

  lemma {:induction false} Kept(blocks: seq<Block>, keep: set<nat>, i: nat) returns (k: nat)
    requires i < |blocks| && blocks[i].id in keep
    ensures k < |KeepBlocks(blocks, keep)| && KeptFrom(blocks, keep, k) == i
    ensures (forall j :: 0 <= j <= i ==> blocks[j].id in keep) ==> k == i
  {
    var front := blocks[..|blocks|-1];
    if i < |front| { k := Kept(front, keep, i); }
    else {
      k := |KeepBlocks(front, keep)|;
      if forall j :: 0 <= j <= i ==> blocks[j].id in keep { KeepAll(front, keep); }
    }
  }

  lemma {:induction false} KeepAll(blocks: seq<Block>, keep: set<nat>)
    requires forall j :: 0 <= j < |blocks| ==> blocks[j].id in keep
    ensures KeepBlocks(blocks, keep) == blocks
  { if blocks != [] { KeepAll(blocks[..|blocks|-1], keep); } }

  lemma FindKept(blocks: seq<Block>, keep: set<nat>, id: nat)
    requires UniqueIds(blocks) && id in keep
    ensures FindBlock(KeepBlocks(blocks, keep), id) == FindBlock(blocks, id)
  {
    var t := KeepBlocks(blocks, keep);
    KeepUnique(blocks, keep);
    FindBlockIs(blocks, id);
    FindBlockIs(t, id);
    if FindBlock(blocks, id).Some? {
      var i :| 0 <= i < |blocks| && blocks[i] == FindBlock(blocks, id).value && blocks[i].id == id;
      var k := Kept(blocks, keep, i);
      FindBlockAt(t, k);
    } else {
      forall k | 0 <= k < |t| ensures t[k].id != id { assert t[k] == blocks[KeptFrom(blocks, keep, k)]; }
    }
  }

  lemma KeepUnique(blocks: seq<Block>, keep: set<nat>)
    requires UniqueIds(blocks)
    ensures UniqueIds(KeepBlocks(blocks, keep))
  {
    var t := KeepBlocks(blocks, keep);
    forall i, j | 0 <= i < j < |t| ensures t[i].id != t[j].id {
      KeptFromMonotone(blocks, keep, i, j);
    }
  }

  /** A run leaves a block only through one of its listed successors. */
  lemma {:induction false} RunJumps(insts: seq<Inst>, st: State, env: Env)
    requires Run(insts, st, env).Jump?
    ensures exists k :: 0 <= k < |insts| && Run(insts, st, env).target in Targets(insts[k])
    decreases |insts|
  {
    var s := Step(insts[0], st, env);
    if s.Next? {
      RunJumps(insts[1..], s.st, env);
      var k :| 0 <= k < |insts| - 1 && Run(insts, st, env).target in Targets(insts[1..][k]);
      assert insts[1..][k] == insts[k+1];
    } else {
      assert Run(insts, st, env).target in Targets(insts[0]);
    }
  }

  lemma JumpIsEdge(blocks: seq<Block>, nextBlock: nat, id: nat, st: State, env: Env)
    requires Verified(blocks) && IdsBelow(blocks, nextBlock) && id < nextBlock && FindBlock(blocks, id).Some?
    requires Run(FindBlock(blocks, id).value.insts, st, env).Jump?
    ensures Edge(GraphOf(blocks, nextBlock), id, Run(FindBlock(blocks, id).value.insts, st, env).target)
  {
    FindBlockIs(blocks, id);
    var b := FindBlock(blocks, id).value;
    var i :| 0 <= i < |blocks| && blocks[i] == b;
    assert BlockOk(blocks[i]);
    RunJumps(b.insts, st, env);
  }

  lemma {:induction false} ExecKept(blocks: seq<Block>, nextBlock: nat, id: nat, st: State, env: Env, fuel: nat)
    requires Verified(blocks) && UniqueIds(blocks) && IdsBelow(blocks, nextBlock)
      && id in ReachableIds(blocks, nextBlock)
    ensures Exec(KeepBlocks(blocks, ReachableIds(blocks, nextBlock)), id, st, env, fuel) ==
      Exec(blocks, id, st, env, fuel)
    decreases fuel
  {
    var keep := ReachableIds(blocks, nextBlock);
    if fuel > 0 {
      FindKept(blocks, keep, id);
      if FindBlock(blocks, id).Some? {
        var r := Run(FindBlock(blocks, id).value.insts, st, env);
        if r.Jump? {
          GraphOfValid(blocks, nextBlock);
          JumpIsEdge(blocks, nextBlock, id, st, env);
          ReachStep(GraphOf(blocks, nextBlock), blocks[0].id, id, r.target);
          ExecKept(blocks, nextBlock, r.target, r.jst, env, fuel - 1);
        }
      }
    }
  }

  lemma EntryReachable(blocks: seq<Block>, nextBlock: nat)
    requires blocks != [] && IdsBelow(blocks, nextBlock)
    ensures blocks[0].id in ReachableIds(blocks, nextBlock)
  { ReachSelf(GraphOf(blocks, nextBlock), blocks[0].id); }

  lemma KeepFirst(blocks: seq<Block>, keep: set<nat>)
    requires blocks != [] && blocks[0].id in keep
    ensures var t := KeepBlocks(blocks, keep); t != [] && t[0] == blocks[0]
  { var k := Kept(blocks, keep, 0); }

  /** Unlinking unreachable blocks changes no run, trapping ones included. */
  lemma KeepRefines(blocks: seq<Block>, nextReg: nat, nextBlock: nat)
    requires WellFormed(blocks, nextReg) && IdsBelow(blocks, nextBlock)
    ensures var t := KeepBlocks(blocks, ReachableIds(blocks, nextBlock));
      && WellFormed(t, nextReg) && IdsBelow(t, nextBlock) && t[0] == blocks[0]
      && forall env: Env, fuel: nat :: Start(t, env, fuel) == Start(blocks, env, fuel)
  {
    var keep := ReachableIds(blocks, nextBlock);
    var t := KeepBlocks(blocks, keep);
    EntryReachable(blocks, nextBlock);
    KeepFirst(blocks, keep);
    KeepUnique(blocks, keep);
    forall i | 0 <= i < |t| ensures BlockOk(t[i]) && LocalUses(t[i].insts) && t[i].id < nextBlock {
      assert t[i] == blocks[KeptFrom(blocks, keep, i)];
    }
    forall i, k, x | 0 <= i < |t| && 0 <= k < |t[i].insts| && x in Targets(t[i].insts[k]) ensures HasBlock(t, x) {
      KeptTarget(blocks, nextBlock, i, k, x);
    }
    forall i, j | 0 <= i < j < |t| ensures KeptFrom(blocks, keep, i) < KeptFrom(blocks, keep, j) {
      KeptFromMonotone(blocks, keep, i, j);
    }
    forall i, k, j, l, r: nat | DefinedAt(t, i, k, r) && DefinedAt(t, j, l, r) ensures i == j && k == l {
      assert DefinedAt(blocks, KeptFrom(blocks, keep, i), k, r) && DefinedAt(blocks, KeptFrom(blocks, keep, j), l, r);
    }
    forall i, k, r: nat | DefinedAt(t, i, k, r) ensures r < nextReg {
      assert DefinedAt(blocks, KeptFrom(blocks, keep, i), k, r);
    }
    forall env: Env, fuel: nat ensures Start(t, env, fuel) == Start(blocks, env, fuel) {
      ExecKept(blocks, nextBlock, blocks[0].id, Fresh, env, fuel);
    }
  }

  lemma KeptTarget(blocks: seq<Block>, nextBlock: nat, i: nat, k: nat, x: nat)
    requires Verified(blocks) && UniqueIds(blocks) && IdsBelow(blocks, nextBlock)
    requires var t := KeepBlocks(blocks, ReachableIds(blocks, nextBlock));
      i < |t| && k < |t[i].insts| && x in Targets(t[i].insts[k])
    ensures HasBlock(KeepBlocks(blocks, ReachableIds(blocks, nextBlock)), x)
  {
    var keep := ReachableIds(blocks, nextBlock);
    var t := KeepBlocks(blocks, keep);
    var n := KeptFrom(blocks, keep, i);
    var g := GraphOf(blocks, nextBlock);
    assert BlockOk(blocks[n]) && HasBlock(blocks, x);
    FindBlockAt(blocks, n);
    assert Edge(g, blocks[n].id, x);
    GraphOfValid(blocks, nextBlock);
    ReachStep(g, blocks[0].id, blocks[n].id, x);
    var j :| 0 <= j < |blocks| && blocks[j].id == x;
    var l := Kept(blocks, keep, j);
    assert t[l].id == x;
  }

  /** The whole pass keeps the form of the function and its runs, block for block. */
  lemma SimplifiedRefines(blocks: seq<Block>, nextReg: nat, nextBlock: nat)
    requires WellFormed(blocks, nextReg) && IdsBelow(blocks, nextBlock)
    ensures var t := Simplified(blocks, nextBlock);
      && WellFormed(t, nextReg) && IdsBelow(t, nextBlock) && Refines(blocks, t)
      && t[0].id == blocks[0].id
  {
    var s := SimplifyTerms(blocks);
    SimplifyTermsRefines(blocks, nextReg);
    KeepRefines(s, nextReg, nextBlock);
    var t := Simplified(blocks, nextBlock);
    assert Refines(s, t);
    RefinesTrans(blocks, s, t);
  }

  /** What is left is exactly what the entry reaches once constant branches are folded, and all of it is reachable in
      the graph of the result itself. */
  lemma SimplifiedIsReachable(blocks: seq<Block>, nextReg: nat, nextBlock: nat, id: nat)
    requires WellFormed(blocks, nextReg) && IdsBelow(blocks, nextBlock)
    ensures var t := Simplified(blocks, nextBlock);
      && (HasBlock(t, id) <==> id < nextBlock && Reach(GraphOf(SimplifyTerms(blocks), nextBlock), blocks[0].id, id))
      && (HasBlock(t, id) ==> Reach(GraphOf(t, nextBlock), blocks[0].id, id))
  {
    var s := SimplifyTerms(blocks);
    var t := Simplified(blocks, nextBlock);
    var g := GraphOf(s, nextBlock);
    var keep := ReachableIds(s, nextBlock);
    SimplifyTermsRefines(blocks, nextReg);
    GraphOfValid(s, nextBlock);
    if HasBlock(t, id) {
      var k :| 0 <= k < |t| && t[k].id == id;
      assert s[KeptFrom(s, keep, k)].id in keep;
    }
    if id < nextBlock && Reach(g, blocks[0].id, id) {
      var p :| Connects(g, p, blocks[0].id, id);
      SameReach(s, nextBlock, p, |p|);
      PathBlock(s, nextBlock, p, |p|);
      var j :| 0 <= j < |s| && s[j].id == id;
      var l := Kept(s, keep, j);
      assert t[l].id == id;
    }
  }

  lemma {:induction false} PathBlock(s: seq<Block>, nextBlock: nat, p: seq<nat>, k: nat)
    requires Verified(s) && UniqueIds(s) && IdsBelow(s, nextBlock) && 0 < k <= |p|
    requires IsPath(GraphOf(s, nextBlock), p) && p[0] == s[0].id
    ensures HasBlock(s, p[k-1])
  {
    if k > 1 {
      var g := GraphOf(s, nextBlock);
      assert Edge(g, p[k-2], p[k-1]);
      FindBlockIs(s, p[k-2]);
      var b := FindBlock(s, p[k-2]).value;
      var i :| 0 <= i < |s| && s[i] == b;
      assert BlockOk(s[i]);
    }
  }

  lemma {:induction false} SameReach(s: seq<Block>, nextBlock: nat, p: seq<nat>, k: nat)
    requires Verified(s) && UniqueIds(s) && IdsBelow(s, nextBlock) && 0 < k <= |p|
    requires IsPath(GraphOf(s, nextBlock), p) && p[0] == s[0].id
    ensures Reach(GraphOf(KeepBlocks(s, ReachableIds(s, nextBlock)), nextBlock), s[0].id, p[k-1])
  {
    var keep := ReachableIds(s, nextBlock);
    var t := KeepBlocks(s, keep);
    var g, h := GraphOf(s, nextBlock), GraphOf(t, nextBlock);
    if k == 1 { ReachSelf(h, s[0].id); }
    else {
      SameReach(s, nextBlock, p, k - 1);
      assert Connects(g, p[..k-1], s[0].id, p[k-2]);
      assert p[k-2] in keep;
      FindKept(s, keep, p[k-2]);
      assert Edge(g, p[k-2], p[k-1]);
      assert h[p[k-2]] == g[p[k-2]];
      var q :| Connects(h, q, s[0].id, p[k-2]);
      assert Connects(h, q + [p[k-1]], s[0].id, p[k-1]);
    }
  }
}
