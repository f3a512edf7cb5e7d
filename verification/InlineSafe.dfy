// Inlining one call site keeps what the caller does (src/ir/ir_ipa.c:428-664): structure of the result.

module InlineStructure {
  import opened Options
  import opened Ir
  import opened SsaIr
  import opened Graphs
  import opened Dominators
  import opened Inlining

  /** A non-empty block whose last instruction is its only terminator. */
  predicate EndsOnce(b: SsaBlock) {
    b.insts != [] && forall k :: 0 <= k < |b.insts| ==> (IsTerminator(b.insts[k]) <==> k == |b.insts| - 1)
  }

  predicate ReturnsAtEnd(b: SsaBlock) { b.insts != [] && b.insts[|b.insts|-1].Ret? }

  /** Numbers in use are below the next free ones. */
  predicate NumbersBelow(f: Fn) {
    forall i :: 0 <= i < |f.blocks| ==>
      && f.blocks[i].id < f.nextBlock
      && (forall p, q ::
        0 <= p < |f.blocks[i].phis| && 0 <= q < |f.blocks[i].phis[p].ins| ==>
          f.blocks[i].phis[p].ins[q].0 < f.nextBlock)
  }

  predicate Blocks(f: Fn) {
    f.blocks != [] && UniqueSsaIds(f.blocks) && NumbersBelow(f) && forall i ::
      0 <= i < |f.blocks| ==> EndsOnce(f.blocks[i])
  }

  /** Register `r` is defined by instruction `pos` of block `i`, or by one of its phis when `pos` is -1. */
  predicate DefAt(f: Fn, i: nat, pos: int, r: nat) {
    && i < |f.blocks|
    && if pos == -1
      then r in PhiDefs(f.blocks[i].phis)
      else 0 <= pos < |f.blocks[i].insts| && Dst(f.blocks[i].insts[pos]) == Some(r)
  }

  /** The control-flow graph, by block number. */
  function Cfg(f: Fn): (g: Graph)
    ensures |g| == f.nextBlock
  {
    seq(f.nextBlock, id requires 0 <= id < f.nextBlock =>
      if FindSsa(f.blocks, id).Some? then KnownIds(SuccIds(FindSsa(f.blocks, id).value), f.nextBlock) else [])
  }

  function KnownIds(ids: seq<nat>, n: nat): (r: seq<nat>)
    ensures forall x :: x in r <==> x in ids && x < n
  {
    if ids == [] then []
    else
      var front := KnownIds(ids[..|ids|-1], n);
      var last := ids[|ids|-1];
      assert ids == ids[..|ids|-1] + [last];
      if last < n then front + [last] else front
  }

  lemma CfgValid(f: Fn)
    ensures ValidGraph(Cfg(f))
  {
    var g := Cfg(f);
    forall a, k | 0 <= a < |g| && 0 <= k < |g[a]| ensures g[a][k] < |g| { assert g[a][k] in g[a]; }
  }

  ghost predicate BlockDom(f: Fn, a: nat, b: nat)
    requires f.blocks != []
  { Dom(Cfg(f), f.blocks[0].id, a, b) }

  /** A definition at `(i, pos)` comes before position `(j, q)` on every run. */
  ghost predicate Before(f: Fn, i: nat, pos: int, j: nat, q: int)
    requires i < |f.blocks| && j < |f.blocks|
  { if i == j then pos < q else BlockDom(f, f.blocks[i].id, f.blocks[j].id) }

  ghost predicate UseOk(f: Fn, j: nat, q: int, r: nat)
    requires j < |f.blocks|
  { exists i: nat, pos: int :: DefAt(f, i, pos, r) && Before(f, i, pos, j, q) }

  ghost predicate PhiUseOk(f: Fn, pred: nat, r: nat)
    requires f.blocks != []
  { exists i: nat, pos: int :: DefAt(f, i, pos, r) && BlockDom(f, f.blocks[i].id, pred) }

  /** Some run of branches gets from the entry to block `id`. */
  ghost predicate Reachable(f: Fn, id: nat)
    requires f.blocks != []
  { Reach(Cfg(f), f.blocks[0].id, id) }

  ghost predicate UsesFollow(f: Fn)
    requires f.blocks != []
  {
    forall j: nat, q: nat, r: nat {:trigger UseOk(f, j, q, r)} ::
      (j < |f.blocks| && Reachable(f, f.blocks[j].id) && q < |f.blocks[j].insts|
       && r in UsedRegs(f.blocks[j].insts[q])) ==> UseOk(f, j, q, r)
  }

  ghost predicate PhisFollow(f: Fn)
    requires f.blocks != []
  {
    forall j: nat, p: nat, q: nat :: j < |f.blocks| && p < |f.blocks[j].phis| && q < |f.blocks[j].phis[p].ins| ==>
      var (pred, v) := f.blocks[j].phis[p].ins[q];
      v.Reg? && Reachable(f, pred) ==> PhiUseOk(f, pred, v.id)
  }

  /** Static single assignment form: one definition per register, and it comes before every use that can be reached;
      what a phi reads is defined by the end of the predecessor it is read for. */
  ghost predicate SsaForm(f: Fn) {
    && Blocks(f)
    && (forall i: nat, p: int, j: nat, q: int, r: nat :: DefAt(f, i, p, r) && DefAt(f, j, q, r) ==> i == j && p == q)
    && (forall i: nat, p: int, r: nat :: DefAt(f, i, p, r) ==> r < f.nextReg)
    && UsesFollow(f) && PhisFollow(f)
  }

  /** No stack slots are used: the callee's allocas have been promoted to registers. */
  predicate SlotFree(f: Fn) {
    forall i, k :: 0 <= i < |f.blocks| && 0 <= k < |f.blocks[i].insts| ==>
      !f.blocks[i].insts[k].Alloca? && !f.blocks[i].insts[k].Load? && !f.blocks[i].insts[k].Store?
  }

  ghost predicate Ready(s: Site) {
    && s.Valid() && SsaForm(s.caller) && Blocks(s.callee) && SlotFree(s.callee)
    && |s.Call().args| == s.callee.params && |s.Returns(|s.callee.blocks|)| <= MAX_RETURNS
  }

  // ----- Finding blocks -----

  lemma {:induction false} FindAt(blocks: seq<SsaBlock>, i: nat)
    requires i < |blocks| && forall j :: 0 <= j < i ==> blocks[j].id != blocks[i].id
    ensures FindSsa(blocks, blocks[i].id) == Some(blocks[i])
  { if i > 0 { FindAt(blocks[1..], i - 1); } }

  lemma {:induction false} IndexAt(blocks: seq<SsaBlock>, i: nat)
    requires i < |blocks| && UniqueSsaIds(blocks)
    ensures IndexOf(blocks, blocks[i].id) == Some(i)
  { assert forall j :: 0 <= j < |blocks| && j != i ==> blocks[j].id != blocks[i].id; }

  /** Blocks have numbers of their own, all used up. */
  predicate Tidy(f: Fn) {
    f.blocks != [] && UniqueSsaIds(f.blocks) && forall i :: 0 <= i < |f.blocks| ==> f.blocks[i].id < f.nextBlock
  }

  lemma ReadyIs(s: Site)
    requires Ready(s)
    ensures s.Valid() && Tidy(s.caller) && Tidy(s.callee) && s.callee.blocks != []
  { SsaBlocks(s.caller); }

  lemma InlinedBlocks(s: Site)
    requires s.Valid() && s.callee.blocks != []
    ensures var bs, n := s.Inlined().blocks, |s.caller.blocks|;
      && |bs| == n + 1 + |s.callee.blocks|
      && (forall i :: 0 <= i < n ==> bs[i] == s.SubstBlock(s.OldBlock(i)) && bs[i].id == s.caller.blocks[i].id)
      && bs[n] == s.SubstBlock(s.SplitBlock()) && bs[n].id == s.SplitId()
      && (forall j ::
        0 <= j < |s.callee.blocks| ==> bs[n + 1 + j] == s.SubstBlock(s.CopyBlock(j)) && bs[n + 1 + j].id == s.CopyId(j))
  {
    BlockIds(s);
    hide s.SubstBlock;
    hide s.OldBlock;
    hide s.SplitBlock;
    hide s.CopyBlock;
    hide s.CopyId;
    hide s.SplitId;
  }

  lemma BlockIds(s: Site)
    requires s.Valid() && s.callee.blocks != []
    ensures forall i :: 0 <= i < |s.caller.blocks| ==> s.SubstBlock(s.OldBlock(i)).id == s.caller.blocks[i].id
    ensures s.SubstBlock(s.SplitBlock()).id == s.SplitId()
    ensures forall j :: 0 <= j < |s.callee.blocks| ==> s.SubstBlock(s.CopyBlock(j)).id == s.CopyId(j)
  {
    hide s.SubstInsts;
    hide s.SubstPhis;
    hide s.CopyInsts;
    hide s.CopyPhis;
    hide s.Replaced;
    hide s.AllReturns;
    hide s.RetargetPhis;
    hide SuccIds;
    hide s.CopyId;
    hide s.SplitId;
  }

  lemma IdAt(s: Site, x: nat)
    requires s.Valid() && s.callee.blocks != [] && x < |s.Inlined().blocks|
    ensures var n := |s.caller.blocks|;
      s.Inlined().blocks[x].id == if x < n
        then s.caller.blocks[x].id
        else if x == n then s.SplitId() else s.CopyId(x - n - 1)
  {
    InlinedBlocks(s);
    var n := |s.caller.blocks|;
    hide *;
    if x > n {
      var j := x - n - 1;
      assert n + 1 + j == x;
    }
  }

  lemma InlinedIds(s: Site)
    requires s.Valid() && Tidy(s.caller) && Tidy(s.callee)
    ensures UniqueSsaIds(s.Inlined().blocks)
  {
    hide s.Inlined;
    var bs, n := s.Inlined().blocks, |s.caller.blocks|;
    forall i, j | 0 <= i < j < |bs| ensures bs[i].id != bs[j].id {
      IdAt(s, i);
      IdAt(s, j);
    }
  }

  lemma SsaBlocks(f: Fn)
    requires SsaForm(f)
    ensures Blocks(f)
  {}

  lemma FindIn(blocks: seq<SsaBlock>, i: nat)
    requires UniqueSsaIds(blocks) && i < |blocks|
    ensures FindSsa(blocks, blocks[i].id) == Some(blocks[i])
  { FindAt(blocks, i); }

  lemma FindOld(s: Site, i: nat)
    requires Ready(s) && i < |s.caller.blocks|
    ensures FindSsa(s.Inlined().blocks, s.caller.blocks[i].id) == Some(s.SubstBlock(s.OldBlock(i)))
  {
    hide *;
    ReadyIs(s);
    InlinedBlocks(s);
    InlinedIds(s);
    FindIn(s.Inlined().blocks, i);
  }

  lemma FindSplit(s: Site)
    requires Ready(s)
    ensures FindSsa(s.Inlined().blocks, s.SplitId()) == Some(s.SubstBlock(s.SplitBlock()))
  {
    hide *;
    ReadyIs(s);
    InlinedBlocks(s);
    InlinedIds(s);
    FindIn(s.Inlined().blocks, |s.caller.blocks|);
  }

  lemma FindCopy(s: Site, j: nat)
    requires Ready(s) && j < |s.callee.blocks|
    ensures FindSsa(s.Inlined().blocks, s.CopyId(j)) == Some(s.SubstBlock(s.CopyBlock(j)))
  {
    hide *;
    ReadyIs(s);
    InlinedBlocks(s);
    InlinedIds(s);
    FindIn(s.Inlined().blocks, |s.caller.blocks| + 1 + j);
  }

  lemma CopyIs(s: Site, j: nat)
    requires Ready(s) && j < |s.callee.blocks|
    ensures s.CopyOf(s.callee.blocks[j].id) == s.CopyId(j)
  {
    hide SsaForm;
    IndexAt(s.callee.blocks, j);
  }

  // ----- Fresh registers -----

  ghost predicate Numbering(m: map<nat, nat>, defs: seq<nat>, next: nat) {
    && (forall r: nat :: r in m <==> r in defs)
    && (forall r: nat :: r in m ==> next <= m[r] < next + |defs| && defs[m[r] - next] == r)
  }

  lemma {:induction false} RenumberIs(defs: seq<nat>, next: nat)
    ensures Numbering(Renumber(defs, next), defs, next)
  {
    if defs != [] {
      RenumberIs(defs[..|defs|-1], next);
      assert defs == defs[..|defs|-1] + [defs[|defs|-1]];
    }
  }

  lemma {:induction false} InstDefsHold(insts: seq<Inst>, k: nat, r: nat)
    requires k < |insts| && Dst(insts[k]) == Some(r)
    ensures r in InstDefs(insts)
  { if k < |insts| - 1 { InstDefsHold(insts[..|insts|-1], k, r); } }

  lemma {:induction false} DefsHold(blocks: seq<SsaBlock>, i: nat, r: nat)
    requires i < |blocks| && (r in PhiDefs(blocks[i].phis) || r in InstDefs(blocks[i].insts))
    ensures r in DefsOf(blocks)
  { if i < |blocks| - 1 { DefsHold(blocks[..|blocks|-1], i, r); } }

  /** Everything the callee defines gets a register of its own, new to the caller. */
  lemma RenamingIs(s: Site)
    ensures forall r: nat :: r in s.Renaming() ==> s.caller.nextReg <= s.Renaming()[r]
    ensures forall r: nat, q: nat ::
      r in s.Renaming() && q in s.Renaming() && s.Renaming()[r] == s.Renaming()[q] ==> r == q
  {
    hide Renumber;
    hide DefsOf;
    RenumberIs(DefsOf(s.callee.blocks), s.caller.nextReg);
    NumberingIs(s.Renaming(), DefsOf(s.callee.blocks), s.caller.nextReg);
  }

  lemma NumberingIs(m: map<nat, nat>, defs: seq<nat>, next: nat)
    requires Numbering(m, defs, next)
    ensures forall r: nat :: r in m ==> next <= m[r]
    ensures forall r: nat, q: nat :: r in m && q in m && m[r] == m[q] ==> r == q
  {}

  lemma DefinedIsRenamed(s: Site, i: nat, pos: int, r: nat)
    requires DefAt(s.callee, i, pos, r)
    ensures r in s.Renaming()
  {
    if pos != -1 { InstDefsHold(s.callee.blocks[i].insts, pos, r); }
    DefsHold(s.callee.blocks, i, r);
    RenumberIs(DefsOf(s.callee.blocks), s.caller.nextReg);
  }
}
