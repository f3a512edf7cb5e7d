// What the code of functions weighs, and what one inlining does to the weight (src/ir/ir_ipa.c:690-758).

module InlineWeights {
  import opened Options
  import opened Ir
  import opened SsaIr
  import opened Graphs
  import opened CallGraphs
  import opened CallGraphBuild
  import opened Inlining

  /** Calls of functions that may be inlined. */
  function Inlinable(calls: Calls, can: seq<bool>): (g: Graph)
    ensures |g| == |calls|
  { seq(|calls|, i requires 0 <= i < |calls| => Allowed(Somes(calls[i]), can)) }

  function Allowed(callees: seq<nat>, can: seq<bool>): (r: seq<nat>)
    ensures forall v: nat :: v in r <==> v in callees && v < |can| && can[v]
  {
    if callees == [] then []
    else
      var front, last := callees[..|callees|-1], callees[|callees|-1];
      assert callees == front + [last];
      Allowed(front, can) + if last < |can| && can[last] then [last] else []
  }

  lemma InlinableEdge(calls: Calls, can: seq<bool>, u: nat, v: nat)
    requires |can| == |calls|
    ensures Edge(Inlinable(calls, can), u, v) <==> u < |calls| && Some(v) in calls[u] && v < |can| && can[v]
  {}

  /** No function can be inlined into itself through others. */
  ghost predicate Acyclic(g: Graph) { ValidGraph(g) && forall v: nat :: v < |g| ==> !OnCycle(g, v) }

  ghost function ReachSet(g: Graph, v: nat): set<nat> { set w | w in Below(|g|) && Reach(g, v, w) }

  lemma ReachShrinks(g: Graph, v: nat, w: nat)
    requires Acyclic(g) && Edge(g, v, w)
    ensures w < |g| && |ReachSet(g, w)| < |ReachSet(g, v)|
  {
    ReachSelf(g, v);
    ReachStep(g, v, v, w);
    assert !OnCycle(g, v);
    forall x | x in ReachSet(g, w) ensures x in ReachSet(g, v) && x != v { ReachTrans(g, v, w, x); }
    assert v in ReachSet(g, v);
    SubsetSize(ReachSet(g, w) + {v}, ReachSet(g, v));
  }

  ghost predicate Weighable(calls: Calls, can: seq<bool>) {
    |can| == |calls| && InModule(calls) && Acyclic(Inlinable(calls, can))
  }

  /** One more than what its own calls of functions that may be inlined weigh. */
  ghost function Weight(calls: Calls, can: seq<bool>, v: nat): nat
    requires Weighable(calls, can) && v < |calls|
    decreases |ReachSet(Inlinable(calls, can), v)|, |calls[v]| + 1
  { 1 + SitesWeight(calls, can, v, |calls[v]|) }

  ghost function SitesWeight(calls: Calls, can: seq<bool>, v: nat, k: nat): nat
    requires Weighable(calls, can) && v < |calls| && k <= |calls[v]|
    decreases |ReachSet(Inlinable(calls, can), v)|, k
  {
    if k == 0 then 0
    else
      var site := calls[v][k-1];
      SitesWeight(calls, can, v, k - 1) +
      if site.Some? && site.value < |can| && can[site.value] then
        assert site in calls[v];
        InlinableEdge(calls, can, v, site.value);
        ReachShrinks(Inlinable(calls, can), v, site.value);
        Weight(calls, can, site.value)
      else 0
  }

  lemma Wider(calls: Calls, can: seq<bool>, a: nat, b: nat)
    requires |can| == |calls| && Reach(Inlinable(calls, can), a, b)
    ensures Reach(GraphOf(calls), a, b)
  {
    var g := Inlinable(calls, can);
    var p :| Connects(g, p, a, b);
    forall i | 0 <= i < |p| - 1 ensures Edge(GraphOf(calls), p[i], p[i+1]) {
      assert Edge(g, p[i], p[i+1]);
      InlinableEdge(calls, can, p[i], p[i+1]);
      CallEdges(calls, p[i], p[i+1]);
    }
    assert Connects(GraphOf(calls), p, a, b);
  }

  lemma RecursiveCallee(calls: Calls, can: seq<bool>, v: nat, w: nat)
    requires InModule(calls) && |can| == |calls| && Edge(Inlinable(calls, can), v, w)
      && Reach(Inlinable(calls, can), w, v)
    ensures w < |calls| && can[w] && OnCycle(GraphOf(calls), w)
  {
    ValidCalls(calls);
    InlinableEdge(calls, can, v, w);
    CallEdges(calls, v, w);
    Wider(calls, can, w, v);
    ReachSelf(GraphOf(calls), v);
    ReachStep(GraphOf(calls), v, v, w);
    if w != v { CycleInside(GraphOf(calls), w, v); } else { SelfCycle(GraphOf(calls), v); }
  }

  /** When recursive functions are never inlined, which the flags ensure unless a component is too large, no cycle is
      left. */
  lemma FlagsMakeAcyclic(calls: Calls, flags: seq<bool>, can: seq<bool>)
    requires InModule(calls) && |flags| == |can| == |calls|
    requires forall v: nat :: v < |calls| && OnCycle(GraphOf(calls), v) ==> flags[v]
    requires forall v: nat :: v < |calls| && can[v] ==> !flags[v]
    ensures Weighable(calls, can)
  {
    var g := Inlinable(calls, can);
    ValidCalls(calls);
    forall a, k | 0 <= a < |g| && 0 <= k < |g[a]| ensures g[a][k] < |g| { assert g[a][k] in g[a]; }
    forall v: nat | v < |g| ensures !OnCycle(g, v) {
      if OnCycle(g, v) {
        var w: nat :| Edge(g, v, w) && Reach(g, w, v);
        RecursiveCallee(calls, can, v, w);
      }
    }
  }

  // ----- What code weighs -----

  /** What a call of a function of that name weighs. */
  ghost function NameWeight(m: Module, can: seq<bool>, name: string): nat
    requires Weighable(CallsOf(m), can)
  {
    var v := FindFn(m, name);
    if v.Some? && can[v.value] then Weight(CallsOf(m), can, v.value) else 0
  }

  ghost function InstWeight(m: Module, can: seq<bool>, i: Inst): nat
    requires Weighable(CallsOf(m), can)
  { if i.Call? then NameWeight(m, can, i.callee) else 0 }

  ghost function CodeWeight(m: Module, can: seq<bool>, insts: seq<Inst>): nat
    requires Weighable(CallsOf(m), can)
  { if insts == [] then 0 else CodeWeight(m, can, insts[..|insts|-1]) + InstWeight(m, can, insts[|insts|-1]) }

  ghost function BlocksWeight(m: Module, can: seq<bool>, blocks: seq<SsaBlock>): nat
    requires Weighable(CallsOf(m), can)
  { if blocks == []
    then 0
    else BlocksWeight(m, can, blocks[..|blocks|-1]) + CodeWeight(m, can, blocks[|blocks|-1].insts) }

  lemma {:induction false} CodeWeightConcat(m: Module, can: seq<bool>, a: seq<Inst>, b: seq<Inst>)
    requires Weighable(CallsOf(m), can)
    ensures CodeWeight(m, can, a + b) == CodeWeight(m, can, a) + CodeWeight(m, can, b)
  {
    hide Weighable;
    hide InstWeight;
    if b == [] {
      assert a + b == a;
    } else {
      CodeWeightConcat(m, can, a, b[..|b|-1]);
      assert (a + b)[..|a + b|-1] == a + b[..|b|-1];
    }
  }

  lemma {:induction false} BlocksWeightConcat(m: Module, can: seq<bool>, a: seq<SsaBlock>, b: seq<SsaBlock>)
    requires Weighable(CallsOf(m), can)
    ensures BlocksWeight(m, can, a + b) == BlocksWeight(m, can, a) + BlocksWeight(m, can, b)
  {
    hide Weighable;
    hide CodeWeight;
    if b == [] {
      assert a + b == a;
    } else {
      BlocksWeightConcat(m, can, a, b[..|b|-1]);
      assert (a + b)[..|a + b|-1] == a + b[..|b|-1];
    }
  }

  /** Code that makes the same calls weighs the same. */
  lemma {:induction false} SameCalls(m: Module, can: seq<bool>, a: seq<Inst>, b: seq<Inst>)
    requires Weighable(CallsOf(m), can) && |a| == |b|
    requires forall i :: 0 <= i < |a| ==> (a[i].Call? <==> b[i].Call?) && (a[i].Call? ==> a[i].callee == b[i].callee)
    ensures CodeWeight(m, can, a) == CodeWeight(m, can, b)
  {
    hide Weighable;
    if a != [] { SameCalls(m, can, a[..|a|-1], b[..|b|-1]); }
  }

  lemma {:induction false} SameBlockCalls(m: Module, can: seq<bool>, a: seq<SsaBlock>, b: seq<SsaBlock>)
    requires Weighable(CallsOf(m), can) && |a| == |b|
    requires forall i :: 0 <= i < |a| ==> CodeWeight(m, can, a[i].insts) == CodeWeight(m, can, b[i].insts)
    ensures BlocksWeight(m, can, a) == BlocksWeight(m, can, b)
  {
    hide Weighable;
    if a != [] { SameBlockCalls(m, can, a[..|a|-1], b[..|b|-1]); }
  }

  /** A function as the graph knows it weighs one more than its code. */
  lemma OwnWeight(m: Module, can: seq<bool>, v: nat)
    requires Weighable(CallsOf(m), can) && v < |m|
    ensures Weight(CallsOf(m), can, v) == 1 + BlocksWeight(m, can, m[v].blocks)
  {
    WeighSites(m, can, v, |CallsOf(m)[v]|);
    WeighBlocks(m, can, m[v].blocks);
    assert CallsOf(m)[v][..|CallsOf(m)[v]|] == CallsOf(m)[v];
  }

  /** The weight of a list of call sites. */
  ghost function ListWeight(m: Module, can: seq<bool>, sites: seq<Option<nat>>): nat
    requires Weighable(CallsOf(m), can)
  {
    if sites == [] then 0
    else
      var last := sites[|sites|-1];
      ListWeight(m, can, sites[..|sites|-1]) + if last.Some? && last.value < |can| && can[last.value]
        then Weight(CallsOf(m), can, last.value)
        else 0
  }

  lemma {:induction false} WeighSites(m: Module, can: seq<bool>, v: nat, k: nat)
    requires Weighable(CallsOf(m), can) && v < |m| && k <= |CallsOf(m)[v]|
    ensures SitesWeight(CallsOf(m), can, v, k) == ListWeight(m, can, CallsOf(m)[v][..k])
  {
    hide Weighable;
    hide Weight;
    if k > 0 {
      WeighSites(m, can, v, k - 1);
      assert CallsOf(m)[v][..k][..k-1] == CallsOf(m)[v][..k-1];
    }
  }

  lemma {:induction false} ListConcat(m: Module, can: seq<bool>, a: seq<Option<nat>>, b: seq<Option<nat>>)
    requires Weighable(CallsOf(m), can)
    ensures ListWeight(m, can, a + b) == ListWeight(m, can, a) + ListWeight(m, can, b)
  {
    hide Weighable;
    hide Weight;
    if b == [] {
      assert a + b == a;
    } else {
      ListConcat(m, can, a, b[..|b|-1]);
      assert (a + b)[..|a + b|-1] == a + b[..|b|-1];
    }
  }

  lemma {:induction false} WeighCode(m: Module, can: seq<bool>, insts: seq<Inst>)
    requires Weighable(CallsOf(m), can)
    ensures ListWeight(m, can, Sites(m, insts)) == CodeWeight(m, can, insts)
  {
    hide Weight;
    if insts != [] {
      var i := insts[0];
      WeighCode(m, can, insts[1..]);
      assert insts == [i] + insts[1..];
      CodeWeightConcat(m, can, [i], insts[1..]);
      var own := if i.Call? then [FindFn(m, i.callee)] else [];
      ListConcat(m, can, Sites(m, insts[1..]), own);
      assert [i][..0] == [];
      assert CodeWeight(m, can, [i]) == InstWeight(m, can, i);
      if i.Call? { assert own[..0] == []; }
    }
  }

  lemma {:induction false} WeighBlocks(m: Module, can: seq<bool>, blocks: seq<SsaBlock>)
    requires Weighable(CallsOf(m), can)
    ensures ListWeight(m, can, SitesOfBlocks(m, blocks)) == BlocksWeight(m, can, blocks)
  {
    hide Weighable;
    hide CodeWeight;
    if blocks != [] {
      var b := blocks[0];
      WeighBlocks(m, can, blocks[1..]);
      assert blocks == [b] + blocks[1..];
      BlocksWeightConcat(m, can, [b], blocks[1..]);
      ListConcat(m, can, SitesOfBlocks(m, blocks[1..]), Sites(m, b.insts));
      WeighCode(m, can, b.insts);
      assert [b][..0] == [];
      assert BlocksWeight(m, can, [b]) == CodeWeight(m, can, b.insts);
    }
  }

  // ----- What one inlining does to the weight -----

  /** The call goes and the callee's own calls come. */
  lemma InlinedWeight(m: Module, can: seq<bool>, s: Site)
    requires Weighable(CallsOf(m), can) && s.Valid() && s.callee.blocks != []
    ensures BlocksWeight(m, can, s.Inlined().blocks) + NameWeight(m, can, s.Call().callee)
      == BlocksWeight(m, can, s.caller.blocks) + BlocksWeight(m, can, s.callee.blocks)
  {
    hide *;
    var before, split, copies := s.OldBlocks(), [s.SplitBlock()], s.Copies();
    InlinedIs(s);
    SubstWeight(m, can, s, before + split + copies);
    BlocksWeightConcat(m, can, before + split, copies);
    BlocksWeightConcat(m, can, before, split);
    CopiesWeight(m, can, s);
    OldWeight(m, can, s);
    SplitWeight(m, can, s);
  }

  lemma InlinedIs(s: Site)
    requires s.Valid() && s.callee.blocks != []
    ensures s.Inlined().blocks == s.SubstBlocks(s.OldBlocks() + [s.SplitBlock()] + s.Copies())
  {}

  lemma SubstWeight(m: Module, can: seq<bool>, s: Site, blocks: seq<SsaBlock>)
    requires Weighable(CallsOf(m), can) && s.Valid()
    ensures BlocksWeight(m, can, s.SubstBlocks(blocks)) == BlocksWeight(m, can, blocks)
  {
    hide Weighable;
    hide CodeWeight;
    hide BlocksWeight;
    hide s.Subst;
    hide s.Replaced;
    forall i | 0 <= i < |blocks|
      ensures CodeWeight(m, can, s.SubstBlocks(blocks)[i].insts) == CodeWeight(m, can, blocks[i].insts)
    {
      SameCalls(m, can, s.SubstInsts(blocks[i].insts), blocks[i].insts);
    }
    SameBlockCalls(m, can, s.SubstBlocks(blocks), blocks);
  }

  lemma CopiesWeight(m: Module, can: seq<bool>, s: Site)
    requires Weighable(CallsOf(m), can) && s.Valid()
    ensures BlocksWeight(m, can, s.Copies()) == BlocksWeight(m, can, s.callee.blocks)
  {
    hide Weighable;
    hide CodeWeight;
    hide BlocksWeight;
    hide s.Remap;
    hide s.RemapDst;
    hide s.CopyOf;
    forall j | 0 <= j < |s.callee.blocks|
      ensures CodeWeight(m, can, s.Copies()[j].insts) == CodeWeight(m, can, s.callee.blocks[j].insts)
    {
      SameCalls(m, can, s.CopyInsts(s.callee.blocks[j].insts), s.callee.blocks[j].insts);
    }
    SameBlockCalls(m, can, s.Copies(), s.callee.blocks);
  }

  lemma {:induction false} OneChanged(m: Module, can: seq<bool>, a: seq<SsaBlock>, b: seq<SsaBlock>, x: nat)
    requires Weighable(CallsOf(m), can) && |a| == |b| && x < |a|
    requires forall i :: 0 <= i < |a| && i != x ==> CodeWeight(m, can, a[i].insts) == CodeWeight(m, can, b[i].insts)
    ensures BlocksWeight(m, can, b) + CodeWeight(m, can, a[x].insts) ==
      BlocksWeight(m, can, a) + CodeWeight(m, can, b[x].insts)
  {
    hide Weighable;
    hide CodeWeight;
    if x == |a| - 1 {
      SameBlockCalls(m, can, a[..x], b[..x]);
    } else {
      OneChanged(m, can, a[..|a|-1], b[..|b|-1], x);
    }
  }

  lemma OldWeight(m: Module, can: seq<bool>, s: Site)
    requires Weighable(CallsOf(m), can) && s.Valid() && s.callee.blocks != []
    ensures BlocksWeight(m, can, s.OldBlocks()) + CodeWeight(m, can, s.Block().insts)
      == BlocksWeight(m, can, s.caller.blocks) + CodeWeight(m, can, s.Block().insts[..s.k])
  {
    hide Weighable;
    hide BlocksWeight;
    OneChanged(m, can, s.caller.blocks, s.OldBlocks(), s.bi);
    var front := s.Block().insts[..s.k];
    assert (front + [Br(s.CopyId(0))])[..s.k] == front;
  }

  lemma SplitWeight(m: Module, can: seq<bool>, s: Site)
    requires Weighable(CallsOf(m), can) && s.Valid()
    ensures CodeWeight(m, can, s.Block().insts) == CodeWeight(m, can, s.Block().insts[..s.k]) + NameWeight(m, can,
      s.Call().callee) + BlocksWeight(m, can, [s.SplitBlock()])
  {
    hide Weighable;
    var insts, k := s.Block().insts, s.k;
    assert insts == insts[..k] + ([insts[k]] + insts[k+1..]);
    CodeWeightConcat(m, can, insts[..k], [insts[k]] + insts[k+1..]);
    CodeWeightConcat(m, can, [insts[k]], insts[k+1..]);
    assert [insts[k]][..0] == [] && [s.SplitBlock()][..0] == [];
    assert CodeWeight(m, can, [insts[k]]) == InstWeight(m, can, insts[k]);
    assert BlocksWeight(m, can, [s.SplitBlock()]) == CodeWeight(m, can, insts[k+1..]);
  }
}
