module InlineHealth {
  // What a module must be for inlining to keep its meaning, and that inlining keeps it so (src/ir/ir_ipa.c:428-664).

  import opened Options
  import opened Ir
  import opened SsaIr
  import opened Inlining
  import opened InlineStructure
  import opened InlinePaths
  import InlineForm
  import InlineSound
  import S = InlineSafety
  import P = Exchanges
  import opened InlineEnding

  function CountReturns(blocks: seq<SsaBlock>): nat {
    if blocks == [] then 0 else CountReturns(blocks[..|blocks|-1]) + if ReturnsAtEnd(blocks[|blocks|-1]) then 1 else 0
  }

  /** An inlined callee must have its variables in registers, and no more returns than there is room to note. */
  predicate Fit(f: Fn) { SlotFree(f) && CountReturns(f.blocks) <= MAX_RETURNS }

  predicate CallFits(m: Module, can: seq<bool>, i: Inst) {
    i.Call? ==>
      var w := FindFn(m, i.callee); w.Some? && w.value < |can| && can[w.value] ==> |i.args| == m[w.value].params
  }

  predicate CallsFit(m: Module, can: seq<bool>, blocks: seq<SsaBlock>) {
    forall b, k :: 0 <= b < |blocks| && 0 <= k < |blocks[b].insts| ==> CallFits(m, can, blocks[b].insts[k])
  }

  /** Every function is in static single assignment form, those that may be inlined are fit for it, and they are called
      with as many arguments as they have parameters. */
  ghost predicate Healthy(m: Module, can: seq<bool>) {
    && |can| == |m|
    && forall v: nat :: v < |m| ==> Checked(m[v]) && CallsFit(m, can, m[v].blocks) && (can[v] ==> Fit(m[v]))
  }

  // ----- Returns -----

  lemma {:induction false} CountAppend(a: seq<SsaBlock>, b: seq<SsaBlock>)
    ensures CountReturns(a + b) == CountReturns(a) + CountReturns(b)
  {
    if b == [] {
      assert a + b == a;
    } else {
      CountAppend(a, b[..|b|-1]);
      assert (a + b)[..|a + b|-1] == a + b[..|b|-1];
    }
  }

  lemma {:induction false} CountNone(blocks: seq<SsaBlock>)
    requires forall i :: 0 <= i < |blocks| ==> !ReturnsAtEnd(blocks[i])
    ensures CountReturns(blocks) == 0
  { if blocks != [] { CountNone(blocks[..|blocks|-1]); } }

  /** Leaving one block's return out. */
  lemma {:induction false} CountBut(a: seq<SsaBlock>, b: seq<SsaBlock>, x: nat)
    requires |a| == |b| && x < |a| && !ReturnsAtEnd(b[x])
    requires forall i :: 0 <= i < |a| && i != x ==> (ReturnsAtEnd(b[i]) <==> ReturnsAtEnd(a[i]))
    ensures CountReturns(a) == CountReturns(b) + if ReturnsAtEnd(a[x]) then 1 else 0
  {
    if x < |a| - 1 {
      CountBut(a[..|a|-1], b[..|b|-1], x);
    } else {
      CountSame(a[..|a|-1], b[..|b|-1]);
    }
  }

  lemma {:induction false} CountSame(a: seq<SsaBlock>, b: seq<SsaBlock>)
    requires |a| == |b| && forall i :: 0 <= i < |a| ==> (ReturnsAtEnd(b[i]) <==> ReturnsAtEnd(a[i]))
    ensures CountReturns(a) == CountReturns(b)
  { if a != [] { CountSame(a[..|a|-1], b[..|b|-1]); } }

  // ----- What the blocks of the inlined caller are -----

  lemma SubstReturns(s: Site, b: SsaBlock)
    requires s.Valid()
    ensures ReturnsAtEnd(s.SubstBlock(b)) <==> ReturnsAtEnd(b)
  { if b.insts != [] { SubstTargets(s, b.insts[|b.insts|-1]); } }

  lemma OldReturns(s: Site, i: nat)
    requires s.Valid() && s.callee.blocks != [] && i < |s.caller.blocks|
    ensures ReturnsAtEnd(s.SubstBlock(s.OldBlock(i))) <==> i != s.bi && ReturnsAtEnd(s.caller.blocks[i])
  {
    SubstReturns(s, s.OldBlock(i));
    hide s.SubstBlock;
  }

  lemma SplitReturns(s: Site)
    requires s.Valid() && s.k < |s.Block().insts| - 1
    ensures ReturnsAtEnd(s.SubstBlock(s.SplitBlock())) <==> ReturnsAtEnd(s.Block())
  {
    SubstReturns(s, s.SplitBlock());
    hide s.SubstBlock;
    hide s.AllReturns;
  }

  lemma CopyReturns(s: Site, j: nat)
    requires s.Valid() && j < |s.callee.blocks| && s.callee.blocks[j].insts != []
    ensures !ReturnsAtEnd(s.SubstBlock(s.CopyBlock(j)))
  {
    SubstReturns(s, s.CopyBlock(j));
    var insts := s.callee.blocks[j].insts;
    CopyTargets(s, insts[|insts|-1], 0);
    hide s.SubstBlock;
    hide s.CopyInst;
  }

  lemma OldReturning(s: Site, i: nat)
    requires s.Valid() && s.callee.blocks != [] && i < |s.caller.blocks|
    ensures i < |s.Inlined().blocks|
      && (ReturnsAtEnd(s.Inlined().blocks[i]) <==> i != s.bi && ReturnsAtEnd(s.caller.blocks[i]))
  {
    InlineSound.OldAt(s, i);
    OldReturns(s, i);
    hide *;
  }

  lemma CopyReturning(s: Site, j: nat)
    requires Apt(s) && s.Valid() && s.callee.blocks != [] && j < |s.callee.blocks|
    ensures var x := |s.caller.blocks| + 1 + j; x < |s.Inlined().blocks| && !ReturnsAtEnd(s.Inlined().blocks[x])
  {
    InlineSound.AllEnd(s);
    InlineSound.EndsAt(s.callee.blocks[j]);
    InlineSound.CopyHere(s, j);
    CopyReturns(s, j);
    hide *;
  }

  lemma CountParts(blocks: seq<SsaBlock>, n: nat)
    requires n < |blocks|
    ensures CountReturns(blocks) == CountReturns(blocks[..n]) + (if ReturnsAtEnd(blocks[n])
      then 1
      else 0) + CountReturns(blocks[n+1..])
  {
    hide *;
    assert blocks == blocks[..n] + [blocks[n]] + blocks[n+1..];
    CountAppend(blocks[..n] + [blocks[n]], blocks[n+1..]);
    CountAppend(blocks[..n], [blocks[n]]);
    LoneCount(blocks[n]);
  }

  /** Inlining neither adds nor loses a return of the caller. */
  lemma ReturnsKept(s: Site)
    requires Apt(s) && s.Valid() && s.callee.blocks != []
    ensures CountReturns(s.Inlined().blocks) == CountReturns(s.caller.blocks)
  {
    hide *;
    var bs, n := s.Inlined().blocks, |s.caller.blocks|;
    InlineSound.AllEnd(s);
    InlineSound.BlockIs(s);
    InlineSound.Size(s);
    InlineSound.SplitAt(s);
    SplitReturns(s);
    CountParts(bs, n);
    forall i: nat | i < n
      ensures ReturnsAtEnd(bs[..n][i]) <==> i != s.bi && ReturnsAtEnd(s.caller.blocks[i])
    {
      OldReturning(s, i);
    }
    CountBut(s.caller.blocks, bs[..n], s.bi);
    var copies := bs[n+1..];
    forall j: nat | j < |copies| ensures !ReturnsAtEnd(copies[j]) {
      CopyReturning(s, j);
      assert copies[j] == bs[n + 1 + j];
    }
    CountNone(copies);
  }

  lemma LoneCount(b: SsaBlock)
    ensures CountReturns([b]) == if ReturnsAtEnd(b) then 1 else 0
  { assert [b][..0] == []; }

  // ----- Instructions -----

  predicate SlotInst(i: Inst) { i.Alloca? || i.Load? || i.Store? }

  lemma InstKept(s: Site, m: Module, can: seq<bool>, i: Inst)
    requires s.Valid()
    ensures SlotInst(s.SubstInst(i)) <==> SlotInst(i)
    ensures SlotInst(s.CopyInst(i)) <==> SlotInst(i)
    ensures CallFits(m, can, s.SubstInst(i)) <==> CallFits(m, can, i)
    ensures CallFits(m, can, s.CopyInst(i)) <==> CallFits(m, can, i)
  {}

  /** An instruction of the inlined caller: the branch to the copies, or one of the caller's or the callee's. */
  lemma InstFrom(s: Site, x: nat, q: nat) returns (o: Inst)
    requires Apt(s) && s.Valid() && s.callee.blocks != [] && x < |s.Inlined().blocks|
      && q < |s.Inlined().blocks[x].insts|
    ensures o.Br? || Has(s.caller, o) || Has(s.callee, o)
    ensures var i := s.Inlined().blocks[x].insts[q]; i == o || i == s.SubstInst(o) || i == s.SubstInst(s.CopyInst(o))
  {
    hide *;
    InlineSound.Size(s);
    InlineSound.AllEnd(s);
    InlineSound.BlockIs(s);
    var n := |s.caller.blocks|;
    if x < n {
      InlineSound.OldAt(s, x);
      InlineForm.OldInsts(s, x);
      if x == s.bi && q == s.k {
        o := Br(s.CopyId(0));
      } else {
        o := s.caller.blocks[x].insts[q];
        HasAt(s.caller, x, q);
      }
    } else if x == n {
      InlineSound.SplitAt(s);
      InlineForm.SplitInsts(s);
      o := s.Block().insts[s.k + 1 + q];
      HasAt(s.caller, s.bi, s.k + 1 + q);
    } else {
      InlineSound.CopyHere(s, x - n - 1);
      InlineForm.CopyInsts(s, x - n - 1);
      o := s.callee.blocks[x - n - 1].insts[q];
      HasAt(s.callee, x - n - 1, q);
    }
  }

  predicate Has(f: Fn, i: Inst) {
    exists b, k :: 0 <= b < |f.blocks| && 0 <= k < |f.blocks[b].insts| && f.blocks[b].insts[k] == i
  }

  lemma HasAt(f: Fn, b: nat, k: nat)
    requires b < |f.blocks| && k < |f.blocks[b].insts|
    ensures Has(f, f.blocks[b].insts[k])
  {}

  lemma SlotFreeHas(f: Fn, i: Inst)
    requires SlotFree(f) && Has(f, i)
    ensures !SlotInst(i)
  {}

  lemma CallsFitHas(m: Module, can: seq<bool>, f: Fn, i: Inst)
    requires CallsFit(m, can, f.blocks) && Has(f, i)
    ensures CallFits(m, can, i)
  {}

  lemma InlinedSlotFree(s: Site)
    requires Apt(s) && s.Valid() && s.callee.blocks != [] && SlotFree(s.caller) && SlotFree(s.callee)
    ensures SlotFree(s.Inlined())
  {
    hide Apt;
    hide s.Inlined;
    hide s.SubstInst;
    hide s.CopyInst;
    var f := s.Inlined();
    forall x: nat, q: nat | x < |f.blocks| && q < |f.blocks[x].insts| ensures !SlotInst(f.blocks[x].insts[q]) {
      var o := InstFrom(s, x, q);
      if Has(s.caller, o) { SlotFreeHas(s.caller, o); } else if Has(s.callee, o) { SlotFreeHas(s.callee, o); }
      InstKept(s, [], [], o);
      InstKept(s, [], [], s.CopyInst(o));
    }
  }

  lemma InlinedCallsFit(s: Site, m: Module, can: seq<bool>)
    requires Apt(s) && s.Valid() && s.callee.blocks != [] && CallsFit(m, can, s.caller.blocks)
      && CallsFit(m, can, s.callee.blocks)
    ensures CallsFit(m, can, s.Inlined().blocks)
  {
    hide Apt;
    hide s.Inlined;
    hide s.SubstInst;
    hide s.CopyInst;
    var f := s.Inlined();
    forall x: nat, q: nat | x < |f.blocks| && q < |f.blocks[x].insts| ensures CallFits(m, can, f.blocks[x].insts[q]) {
      var o := InstFrom(s, x, q);
      if Has(s.caller, o) { CallsFitHas(m, can, s.caller, o); }
        else if Has(s.callee, o) { CallsFitHas(m, can, s.callee, o); }
      InstKept(s, m, can, o);
      InstKept(s, m, can, s.CopyInst(o));
    }
  }

  // ----- A round -----

  lemma RoundApt(m: Module, can: seq<bool>, fi: nat, s: Site)
    requires Healthy(m, can) && fi < |m| && s.caller == m[fi] && Taken(m, fi, can, s)
    ensures Apt(s) && s.Valid() && s.callee.blocks != [] && Ready(s)
  {
    var w := FindFn(m, s.Call().callee).value;
    assert CallFits(m, can, m[fi].blocks[s.bi].insts[s.k]);
    assert Checked(m[fi]) && Checked(m[w]) && Fit(m[w]);
    hide Healthy;
    hide CallsFit;
    hide FindFn;
    NearlyReady(s);
  }

  lemma NearlyReady(s: Site)
    requires s.Valid() && Checked(s.caller) && Checked(s.callee) && Fit(s.callee) && |s.Call().args| == s.callee.params
    ensures Apt(s)
  {
    SsaBlocks(s.callee);
    hide SsaForm;
    hide Blocks;
    hide Known;
    hide Hears;
    hide SlotFree;
    FewReturns(s);
  }

  lemma FewReturns(s: Site)
    requires s.Valid() && Blocks(s.callee) && CountReturns(s.callee.blocks) <= MAX_RETURNS
    ensures |s.Returns(|s.callee.blocks|)| <= MAX_RETURNS
  {
    ReturnsCounted(s, |s.callee.blocks|);
    assert s.callee.blocks[..|s.callee.blocks|] == s.callee.blocks;
  }

  /** The list of returns has one for every block that returns. */
  lemma {:induction false} ReturnsCounted(s: Site, n: nat)
    requires s.Valid() && Blocks(s.callee) && n <= |s.callee.blocks|
    ensures |s.Returns(n)| == CountReturns(s.callee.blocks[..n])
  {
    if n > 0 {
      ReturnsCounted(s, n - 1);
      assert EndsOnce(s.callee.blocks[n-1]);
      hide Blocks;
      S.NoReturns(s, n - 1, |s.callee.blocks[n-1].insts| - 1);
      hide s.Remap;
      assert s.callee.blocks[..n][..n-1] == s.callee.blocks[..n-1];
    }
  }

  lemma InlinedKeeps(s: Site)
    requires s.Valid() && s.callee.blocks != []
    ensures s.Inlined().name == s.caller.name && s.Inlined().params == s.caller.params
  {}

  lemma SameCalls(m: Module, can: seq<bool>, fi: nat, f: Fn, i: Inst)
    requires fi < |m| && f.name == m[fi].name && f.params == m[fi].params
    ensures CallFits(m[fi := f], can, i) <==> CallFits(m, can, i)
  { if i.Call? { P.SameNames(m, fi, f, i.callee); } }

  lemma SameCallsFit(m: Module, can: seq<bool>, fi: nat, f: Fn, blocks: seq<SsaBlock>)
    requires fi < |m| && f.name == m[fi].name && f.params == m[fi].params && CallsFit(m, can, blocks)
    ensures CallsFit(m[fi := f], can, blocks)
  {
    hide CallFits;
    forall b, k | 0 <= b < |blocks| && 0 <= k < |blocks[b].insts|
      ensures CallFits(m[fi := f], can, blocks[b].insts[k])
    {
      SameCalls(m, can, fi, f, blocks[b].insts[k]);
    }
  }

  /** A round of inlining finds the site fit for it and leaves the module as healthy as it was. */
  lemma RoundHealthy(m: Module, can: seq<bool>, fi: nat, s: Site)
    requires Healthy(m, can) && fi < |m| && s.caller == m[fi] && Taken(m, fi, can, s)
    ensures Ready(s) && s.Valid() && s.callee.blocks != [] && Healthy(m[fi := s.Inlined()], can)
  {
    hide *;
    RoundApt(m, can, fi, s);
    var f := s.Inlined();
    InlineSound.InlinedKeepsForm(s);
    InlinedKeeps(s);
    RoundFit(m, can, fi, s);
    ReplacedHealthy(m, can, fi, f);
  }

  lemma RoundFit(m: Module, can: seq<bool>, fi: nat, s: Site)
    requires Healthy(m, can) && fi < |m| && s.caller == m[fi] && Taken(m, fi, can, s) && Apt(s) && s.Valid()
      && s.callee.blocks != []
    ensures |can| == |m| && (can[fi] ==> Fit(s.Inlined())) && CallsFit(m, can, s.Inlined().blocks)
  {
    var w := FindFn(m, s.Call().callee).value;
    assert CallsFit(m, can, m[fi].blocks) && CallsFit(m, can, m[w].blocks) && Fit(m[w]) && (can[fi] ==> Fit(m[fi]));
    hide Healthy;
    hide Apt;
    hide s.Inlined;
    hide CallsFit;
    hide SlotFree;
    hide FindFn;
    InlinedCallsFit(s, m, can);
    if can[fi] {
      InlinedSlotFree(s);
      ReturnsKept(s);
    }
  }

  lemma ReplacedHealthy(m: Module, can: seq<bool>, fi: nat, f: Fn)
    requires Healthy(m, can) && fi < |m| && |can| == |m| && f.name == m[fi].name && f.params == m[fi].params
    requires Checked(f) && (can[fi] ==> Fit(f)) && CallsFit(m, can, f.blocks)
    ensures Healthy(m[fi := f], can)
  {
    hide Checked;
    hide Fit;
    hide CallsFit;
    var p := m[fi := f];
    forall v: nat | v < |p| ensures Checked(p[v]) && CallsFit(p, can, p[v].blocks) && (can[v] ==> Fit(p[v])) {
      assert v != fi ==> CallsFit(m, can, m[v].blocks);
      SameCallsFit(m, can, fi, f, p[v].blocks);
    }
  }
}
