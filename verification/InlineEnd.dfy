module InlineEnding {
  // When the edits of a function must end, exactly, whichever calls are taken and whatever the check says of the edits:
  // a function stays edited when the check rejects it (src/ir/ir_ipa.c:666-758).

  import opened Options
  import opened Ir
  import opened SsaIr
  import opened Graphs
  import opened CallGraphs
  import opened CallGraphBuild
  import opened Inlining
  import opened InlineStructure
  import opened InlineWeights

  /** A call the inliner takes: of another function of the module that may be inlined. */
  predicate Eligible(m: Module, fi: nat, can: seq<bool>, i: Inst) {
    i.Call? && var v := FindFn(m, i.callee); v.Some? && v.value != fi && v.value < |can| && can[v.value]
  }

  /** No call the inliner would take is left. */
  predicate Settled(m: Module, fi: nat, can: seq<bool>, blocks: seq<SsaBlock>) {
    forall b, k :: 0 <= b < |blocks| && 0 <= k < |blocks[b].insts| ==> !Eligible(m, fi, can, blocks[b].insts[k])
  }

  /** One round: a call that is taken, and the callee as it is. */
  predicate Taken(m: Module, fi: nat, can: seq<bool>, s: Site) {
    && s.Valid() && s.callee.blocks != [] && Eligible(m, fi, can, s.Call())
    && s.callee == m[FindFn(m, s.Call().callee).value]
  }

  /** Rounds one after the other, the first in `f`. */
  ghost predicate Rounds(m: Module, fi: nat, can: seq<bool>, f: Fn, sites: seq<Site>) {
    && (forall i :: 0 <= i < |sites| ==> Taken(m, fi, can, sites[i]))
    && (sites != [] ==> sites[0].caller == f)
    && forall i :: 0 <= i < |sites| - 1 ==> sites[i+1].caller == sites[i].Inlined()
  }

  function Without(can: seq<bool>, fi: nat): seq<bool> { if fi < |can| then can[fi := false] else can }

  /** Calls of functions that may be inlined into `fi`. */
  ghost function Takable(m: Module, fi: nat, can: seq<bool>): Graph { Inlinable(CallsOf(m), Without(can, fi)) }

  /** A cycle can be got to. */
  ghost predicate Recurs(g: Graph, v: nat) { exists c: nat :: Reach(g, v, c) && OnCycle(g, c) }

  /** From a call the inliner would take, a cycle of functions that may be inlined can be got to. */
  ghost predicate Endless(m: Module, fi: nat, can: seq<bool>, blocks: seq<SsaBlock>) {
    exists w: nat :: LeadsOn(m, fi, can, blocks, w)
  }

  ghost predicate LeadsOn(m: Module, fi: nat, can: seq<bool>, blocks: seq<SsaBlock>, w: nat) {
    && w < |m| == |can| && Without(can, fi)[w] && HasCall(m, blocks, Some(w)) && Recurs(Takable(m, fi, can), w)
  }

  // ----- Steps into a cycle -----

  lemma TakableEdge(m: Module, fi: nat, can: seq<bool>, v: nat, w: nat)
    requires |can| == |m|
    ensures Edge(Takable(m, fi, can), v, w) <==>
      v < |m| && w < |m| && HasCall(m, m[v].blocks, Some(w)) && Without(can, fi)[w]
  {
    InlinableEdge(CallsOf(m), Without(can, fi), v, w);
    if v < |m| { SitesAreCalls(m, m[v].blocks, Some(w)); }
  }

  lemma TakableValid(m: Module, fi: nat, can: seq<bool>)
    requires |can| == |m|
    ensures ValidGraph(Takable(m, fi, can)) && |Takable(m, fi, can)| == |m|
  {
    var g := Takable(m, fi, can);
    forall a, k | 0 <= a < |g| && 0 <= k < |g[a]| ensures g[a][k] < |g| {
      assert g[a][k] in g[a] && Edge(g, a, g[a][k]);
      TakableEdge(m, fi, can, a, g[a][k]);
    }
  }

  /** What calls something that leads into a cycle does so too. */
  lemma RecursBack(g: Graph, v: nat, w: nat)
    requires ValidGraph(g) && Edge(g, v, w) && Recurs(g, w)
    ensures Recurs(g, v)
  {
    var c: nat :| Reach(g, w, c) && OnCycle(g, c);
    ReachSelf(g, v);
    ReachStep(g, v, v, w);
    ReachTrans(g, v, w, c);
  }

  /** What leads into a cycle calls something that does. */
  lemma RecursOn(g: Graph, v: nat) returns (w: nat)
    requires Recurs(g, v)
    ensures Edge(g, v, w) && Recurs(g, w)
  {
    var c: nat :| Reach(g, v, c) && OnCycle(g, c);
    var p :| Connects(g, p, v, c);
    if |p| == 1 {
      w :| Edge(g, v, w) && Reach(g, w, v);
    } else {
      w := p[1];
      assert Edge(g, p[0], p[1]);
      Suffix(g, p, v, c, 1);
    }
  }

  // ----- The calls of the inlined function -----

  lemma HasCallAt(m: Module, blocks: seq<SsaBlock>, x: nat, q: nat)
    requires x < |blocks| && q < |blocks[x].insts| && blocks[x].insts[q].Call?
    ensures HasCall(m, blocks, FindFn(m, blocks[x].insts[q].callee))
  { assert blocks[x] in blocks && blocks[x].insts[q] in blocks[x].insts; }

  lemma WhereCall(m: Module, blocks: seq<SsaBlock>, c: Option<nat>) returns (x: nat, q: nat)
    requires HasCall(m, blocks, c)
    ensures x < |blocks| && q < |blocks[x].insts| && blocks[x].insts[q].Call?
      && FindFn(m, blocks[x].insts[q].callee) == c
  {
    var b, i :| b in blocks && i in b.insts && i.Call? && FindFn(m, i.callee) == c;
    x :| 0 <= x < |blocks| && blocks[x] == b;
    q :| 0 <= q < |b.insts| && b.insts[q] == i;
  }

  lemma CallKept(s: Site, i: Inst)
    requires s.Valid() && i.Call?
    ensures s.SubstInst(i).Call? && s.SubstInst(i).callee == i.callee && s.SubstInst(s.CopyInst(i)).Call?
      && s.SubstInst(s.CopyInst(i)).callee == i.callee
  {}

  /** The copies make the callee's calls. */
  lemma CopiedCalls(m: Module, s: Site, c: Option<nat>)
    requires s.Valid() && s.callee.blocks != [] && HasCall(m, s.callee.blocks, c)
    ensures HasCall(m, s.Inlined().blocks, c)
  {
    var j, q := WhereCall(m, s.callee.blocks, c);
    CallKept(s, s.callee.blocks[j].insts[q]);
    var bs, x := s.Inlined().blocks, |s.caller.blocks| + 1 + j;
    CopiedInst(s, j, q);
    hide *;
    HasCallAt(m, bs, x, q);
  }

  lemma CopiedInst(s: Site, j: nat, q: nat)
    requires s.Valid() && s.callee.blocks != [] && j < |s.callee.blocks| && q < |s.callee.blocks[j].insts|
    ensures var bs, x := s.Inlined().blocks, |s.caller.blocks| + 1 + j;
      x < |bs| && q < |bs[x].insts| && bs[x].insts[q] == s.SubstInst(s.CopyInst(s.callee.blocks[j].insts[q]))
  {
    InlinedBlocks(s);
    SubstCopied(s, j, q);
    hide s.Inlined;
    hide s.SubstInst;
    hide s.CopyInst;
    hide s.SubstBlock;
    hide s.CopyBlock;
    hide s.OldBlock;
    hide s.SplitBlock;
  }

  lemma SubstCopied(s: Site, j: nat, q: nat)
    requires s.Valid() && j < |s.callee.blocks| && q < |s.callee.blocks[j].insts|
    ensures var insts := s.SubstBlock(s.CopyBlock(j)).insts;
      q < |insts| && insts[q] == s.SubstInst(s.CopyInst(s.callee.blocks[j].insts[q]))
  {
    hide s.SubstInst;
    hide s.CopyInst;
  }

  /** A call of the caller other than the one inlined is still there. */
  lemma OtherCalls(m: Module, s: Site, x: nat, q: nat)
    requires s.Valid() && s.callee.blocks != [] && x < |s.caller.blocks| && q < |s.caller.blocks[x].insts|
      && !(x == s.bi && q == s.k)
    requires s.caller.blocks[x].insts[q].Call?
    ensures HasCall(m, s.Inlined().blocks, FindFn(m, s.caller.blocks[x].insts[q].callee))
  {
    CallKept(s, s.caller.blocks[x].insts[q]);
    InlinedBlocks(s);
    var bs, n := s.Inlined().blocks, |s.caller.blocks|;
    hide s.Inlined;
    hide s.SubstInst;
    if x == s.bi && q > s.k {
      assert bs[n].insts[q - s.k - 1] == s.SubstInst(s.caller.blocks[x].insts[q]);
      HasCallAt(m, bs, n, q - s.k - 1);
    } else {
      assert bs[x].insts[q] == s.SubstInst(s.caller.blocks[x].insts[q]);
      HasCallAt(m, bs, x, q);
    }
  }

  lemma InstCalls(s: Site, i: Inst)
    requires s.Valid()
    ensures s.SubstInst(i).Call? <==> i.Call?
    ensures s.CopyInst(i).Call? <==> i.Call?
    ensures i.Call? ==> s.SubstInst(i).callee == i.callee && s.CopyInst(i).callee == i.callee
  {}

  /** The inlined function makes no call that neither caller nor callee made. */
  lemma NoNewCalls(m: Module, s: Site, c: Option<nat>)
    requires s.Valid() && s.callee.blocks != [] && HasCall(m, s.Inlined().blocks, c)
    ensures HasCall(m, s.caller.blocks, c) || HasCall(m, s.callee.blocks, c)
  {
    hide *;
    var x, q := WhereCall(m, s.Inlined().blocks, c);
    InlinedBlocks(s);
    var n := |s.caller.blocks|;
    if x < n {
      OldCall(m, s, x, q);
    } else if x == n {
      SplitCall(m, s, q);
    } else {
      CopyCall(m, s, x - n - 1, q);
    }
  }

  lemma CopyCall(m: Module, s: Site, j: nat, q: nat)
    requires s.Valid() && j < |s.callee.blocks|
    requires var insts := s.SubstBlock(s.CopyBlock(j)).insts; q < |insts| && insts[q].Call?
    ensures HasCall(m, s.callee.blocks, FindFn(m, s.SubstBlock(s.CopyBlock(j)).insts[q].callee))
  {
    var i := s.callee.blocks[j].insts[q];
    SubstCopied(s, j, q);
    InstCalls(s, i);
    InstCalls(s, s.CopyInst(i));
    hide *;
    HasCallAt(m, s.callee.blocks, j, q);
  }

  lemma OldCall(m: Module, s: Site, x: nat, q: nat)
    requires s.Valid() && s.callee.blocks != [] && x < |s.caller.blocks|
    requires var insts := s.SubstBlock(s.OldBlock(x)).insts; q < |insts| && insts[q].Call?
    ensures HasCall(m, s.caller.blocks, FindFn(m, s.SubstBlock(s.OldBlock(x)).insts[q].callee))
  {
    var i := s.OldBlock(x).insts[q];
    InstCalls(s, i);
    hide s.SubstInst;
    assert i == s.caller.blocks[x].insts[q];
    HasCallAt(m, s.caller.blocks, x, q);
  }

  lemma SplitCall(m: Module, s: Site, q: nat)
    requires s.Valid() && var insts := s.SubstBlock(s.SplitBlock()).insts; q < |insts| && insts[q].Call?
    ensures HasCall(m, s.caller.blocks, FindFn(m, s.SubstBlock(s.SplitBlock()).insts[q].callee))
  {
    var j := s.k + 1 + q;
    InstCalls(s, s.Block().insts[j]);
    hide s.SubstInst;
    HasCallAt(m, s.caller.blocks, s.bi, j);
  }

  // ----- Functions that cannot be inlined for ever -----

  /** Those from which no cycle can be got to. */
  ghost function Tame(m: Module, fi: nat, can: seq<bool>): (r: seq<bool>)
    requires |can| == |m|
    ensures |r| == |m|
  { seq(|m|, v requires 0 <= v < |m| => Without(can, fi)[v] && !Recurs(Takable(m, fi, can), v)) }

  lemma TameEdge(m: Module, fi: nat, can: seq<bool>, a: nat, b: nat)
    requires |can| == |m| && Edge(Inlinable(CallsOf(m), Tame(m, fi, can)), a, b)
    ensures Edge(Takable(m, fi, can), a, b) && b < |m| && Tame(m, fi, can)[b]
  {
    InlinableEdge(CallsOf(m), Tame(m, fi, can), a, b);
    InlinableEdge(CallsOf(m), Without(can, fi), a, b);
  }

  lemma TamePath(m: Module, fi: nat, can: seq<bool>, a: nat, b: nat)
    requires |can| == |m| && Reach(Inlinable(CallsOf(m), Tame(m, fi, can)), a, b)
    ensures Reach(Takable(m, fi, can), a, b)
  {
    var p :| Connects(Inlinable(CallsOf(m), Tame(m, fi, can)), p, a, b);
    TakableValid(m, fi, can);
    forall i | 0 <= i < |p| - 1 ensures Edge(Takable(m, fi, can), p[i], p[i+1]) {
      assert Edge(Inlinable(CallsOf(m), Tame(m, fi, can)), p[i], p[i+1]);
      TameEdge(m, fi, can, p[i], p[i+1]);
    }
    assert Connects(Takable(m, fi, can), p, a, b);
  }

  lemma TameWeighable(m: Module, fi: nat, can: seq<bool>)
    requires |can| == |m|
    ensures Weighable(CallsOf(m), Tame(m, fi, can))
  {
    var g := Inlinable(CallsOf(m), Tame(m, fi, can));
    CallsInModule(m);
    forall a, k | 0 <= a < |g| && 0 <= k < |g[a]| ensures g[a][k] < |g| {
      assert g[a][k] in g[a] && Edge(g, a, g[a][k]);
      TameEdge(m, fi, can, a, g[a][k]);
    }
    forall v: nat | v < |g| ensures !OnCycle(g, v) {
      if OnCycle(g, v) {
        var w: nat :| Edge(g, v, w) && Reach(g, w, v);
        TameEdge(m, fi, can, v, w);
        TamePath(m, fi, can, w, v);
      }
    }
  }

  /** While nothing called leads into a cycle, every round takes a tame function, keeps it so and makes the caller
      lighter. */
  lemma TameRound(m: Module, fi: nat, can: seq<bool>, s: Site)
    requires |can| == |m| && Taken(m, fi, can, s) && !Endless(m, fi, can, s.caller.blocks)
    ensures Weighable(CallsOf(m), Tame(m, fi, can)) && !Endless(m, fi, can, s.Inlined().blocks)
    ensures BlocksWeight(m, Tame(m, fi, can), s.Inlined().blocks) < BlocksWeight(m, Tame(m, fi, can), s.caller.blocks)
  {
    var v := FindFn(m, s.Call().callee).value;
    TakenIsCalled(m, fi, can, s);
    TameWeighable(m, fi, can);
    InlinedWeight(m, Tame(m, fi, can), s);
    OwnWeight(m, Tame(m, fi, can), v);
    hide Weighable;
    hide Weight;
    hide BlocksWeight;
    hide s.Inlined;
    hide HasCall;
    hide Recurs;
    hide Takable;
    assert !LeadsOn(m, fi, can, s.caller.blocks, v);
    forall w: nat ensures !LeadsOn(m, fi, can, s.Inlined().blocks, w) {
      if w < |m| && Without(can, fi)[w] && HasCall(m, s.Inlined().blocks, Some(w)) {
        NoNewCalls(m, s, Some(w));
        assert !LeadsOn(m, fi, can, s.caller.blocks, w);
        if HasCall(m, s.callee.blocks, Some(w)) && Recurs(Takable(m, fi, can), w) {
          TakableEdge(m, fi, can, v, w);
          TakableValid(m, fi, can);
          RecursBack(Takable(m, fi, can), v, w);
        }
      }
    }
  }

  lemma TakenIsCalled(m: Module, fi: nat, can: seq<bool>, s: Site)
    requires |can| == |m| && Taken(m, fi, can, s)
    ensures HasCall(m, s.caller.blocks, FindFn(m, s.Call().callee))
      && Without(can, fi)[FindFn(m, s.Call().callee).value]
  { HasCallAt(m, s.caller.blocks, s.bi, s.k); }

  /** Then there are no more rounds than the function weighs. */
  lemma {:induction false} TameRounds(m: Module, fi: nat, can: seq<bool>, f: Fn, sites: seq<Site>)
    requires |can| == |m| && Rounds(m, fi, can, f, sites) && !Endless(m, fi, can, f.blocks)
    ensures Weighable(CallsOf(m), Tame(m, fi, can)) && |sites| <= BlocksWeight(m, Tame(m, fi, can), f.blocks)
    decreases |sites|
  {
    hide *;
    TameWeighable(m, fi, can);
    if sites != [] {
      FirstRound(m, fi, can, f, sites);
      TameRound(m, fi, can, sites[0]);
      TameRounds(m, fi, can, sites[0].Inlined(), sites[1..]);
    }
  }

  lemma FirstRound(m: Module, fi: nat, can: seq<bool>, f: Fn, sites: seq<Site>)
    requires Rounds(m, fi, can, f, sites) && sites != []
    ensures Taken(m, fi, can, sites[0]) && sites[0].caller == f && sites[0].Valid() && sites[0].callee.blocks != []
    ensures Rounds(m, fi, can, sites[0].Inlined(), sites[1..])
  {}

  lemma MoreRounds(m: Module, fi: nat, can: seq<bool>, s: Site, sites: seq<Site>)
    requires Taken(m, fi, can, s) && s.Valid() && s.callee.blocks != [] && Rounds(m, fi, can, s.Inlined(), sites)
    ensures Rounds(m, fi, can, s.caller, [s] + sites)
  { hide Taken; }

  // ----- Functions that can -----

  /** Whatever call is taken, a call that leads into a cycle is left: the copies make one if the call taken was the
      last. */
  lemma EndlessKept(m: Module, fi: nat, can: seq<bool>, s: Site)
    requires |can| == |m| && Taken(m, fi, can, s) && Endless(m, fi, can, s.caller.blocks)
    ensures Endless(m, fi, can, s.Inlined().blocks)
  {
    hide s.Inlined;
    hide HasCall;
    hide Recurs;
    hide Takable;
    hide Taken;
    TakenIs(m, fi, can, s);
    var w: nat :| LeadsOn(m, fi, can, s.caller.blocks, w);
    var x, q := WhereCall(m, s.caller.blocks, Some(w));
    if x == s.bi && q == s.k {
      var u := RecursOn(Takable(m, fi, can), w);
      TakableEdge(m, fi, can, w, u);
      CopiedCalls(m, s, Some(u));
      assert LeadsOn(m, fi, can, s.Inlined().blocks, u);
    } else {
      OtherCalls(m, s, x, q);
      assert LeadsOn(m, fi, can, s.Inlined().blocks, w);
    }
  }

  lemma TakenIs(m: Module, fi: nat, can: seq<bool>, s: Site)
    requires Taken(m, fi, can, s)
    ensures s.Valid() && s.callee.blocks != [] && s.Call() == s.caller.blocks[s.bi].insts[s.k]
    ensures FindFn(m, s.Call().callee).Some? && s.callee == m[FindFn(m, s.Call().callee).value]
  {}

  /** There is always a call to take. */
  lemma EndlessTakes(m: Module, fi: nat, can: seq<bool>, f: Fn) returns (s: Site)
    requires |can| == |m| && Endless(m, fi, can, f.blocks) && forall v :: 0 <= v < |m| ==> m[v].blocks != []
    ensures Taken(m, fi, can, s) && s.caller == f && !Settled(m, fi, can, f.blocks)
  {
    hide HasCall;
    hide Recurs;
    hide Takable;
    var w: nat :| LeadsOn(m, fi, can, f.blocks, w);
    var x, q := WhereCall(m, f.blocks, Some(w));
    s := Site(f, x, q, m[w]);
    assert Eligible(m, fi, can, f.blocks[x].insts[q]);
  }

  lemma {:induction false} EndlessRounds(m: Module, fi: nat, can: seq<bool>, f: Fn, n: nat) returns (sites: seq<Site>)
    requires |can| == |m| && Endless(m, fi, can, f.blocks) && forall v :: 0 <= v < |m| ==> m[v].blocks != []
    ensures Rounds(m, fi, can, f, sites) && |sites| == n
    decreases n
  {
    NoRounds(m, fi, can, f);
    hide *;
    sites := [];
    if n > 0 {
      var s := EndlessTakes(m, fi, can, f);
      EndlessKept(m, fi, can, s);
      TakenIs(m, fi, can, s);
      var rest := EndlessRounds(m, fi, can, s.Inlined(), n - 1);
      MoreRounds(m, fi, can, s, rest);
      sites := [s] + rest;
    }
  }

  lemma NoRounds(m: Module, fi: nat, can: seq<bool>, f: Fn)
    ensures Rounds(m, fi, can, f, [])
  {}

  /** Nothing is settled while a cycle can be got to, whatever has been taken. */
  lemma NeverSettles(m: Module, fi: nat, can: seq<bool>, s: Site)
    requires |can| == |m| && (forall v :: 0 <= v < |m| ==> m[v].blocks != []) && Taken(m, fi, can, s)
      && Endless(m, fi, can, s.caller.blocks)
    ensures s.Valid() && s.callee.blocks != [] && !Settled(m, fi, can, s.Inlined().blocks)
  {
    hide *;
    TakenIs(m, fi, can, s);
    EndlessKept(m, fi, can, s);
    var next := EndlessTakes(m, fi, can, s.Inlined());
  }

  ghost predicate AtMost(m: Module, fi: nat, can: seq<bool>, f: Fn, n: nat) {
    forall sites :: Rounds(m, fi, can, f, sites) ==> |sites| <= n
  }

  /** Inlining into `fi` ends exactly when no cycle of functions that may be inlined can be got to from a call it would
      take: then the weight bounds the rounds, and otherwise there are rounds without end whichever calls are taken. A
      round is an edit, accepted or not. */
  lemma InliningEndsExactlyWhen(m: Module, fi: nat, can: seq<bool>, f: Fn)
    requires |can| == |m| && forall v :: 0 <= v < |m| ==> m[v].blocks != []
    ensures !Endless(m, fi, can, f.blocks) <==> exists n: nat :: AtMost(m, fi, can, f, n)
  {
    hide Endless;
    hide Rounds;
    if !Endless(m, fi, can, f.blocks) {
      TameWeighable(m, fi, can);
      var n := BlocksWeight(m, Tame(m, fi, can), f.blocks);
      forall sites | Rounds(m, fi, can, f, sites) ensures |sites| <= n { TameRounds(m, fi, can, f, sites); }
      assert AtMost(m, fi, can, f, n);
    } else {
      forall n: nat ensures !AtMost(m, fi, can, f, n) { var sites := EndlessRounds(m, fi, can, f, n + 1); }
    }
  }
}
