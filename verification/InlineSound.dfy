module InlineSound {
  // Inlining a call keeps static single assignment form, as far as blocks can be reached. What the check that follows
  // the edit makes of the rest is the subject of module InlineCheck.

  import opened Options
  import opened Ir
  import opened SsaIr
  import opened Graphs
  import opened Dominators
  import opened Inlining
  import opened InlineStructure
  import opened InlinePaths
  import opened InlineForm
  import opened InlineUses
  import S = InlineSafety

  /** The block of the inlined caller that what the caller's block `i` ends with is now in. */
  function EndOf(s: Site, i: nat): nat { if i == s.bi then |s.caller.blocks| else i }

  lemma OldAt(s: Site, i: nat)
    requires s.Valid() && s.callee.blocks != [] && i < |s.caller.blocks|
    ensures i < |s.Inlined().blocks| && s.Inlined().blocks[i] == s.SubstBlock(s.OldBlock(i))
      && s.Inlined().blocks[i].id == s.caller.blocks[i].id
  {
    InlinedBlocks(s);
    hide *;
  }

  lemma SplitAt(s: Site)
    requires s.Valid() && s.callee.blocks != []
    ensures var n := |s.caller.blocks|;
      n < |s.Inlined().blocks| && s.Inlined().blocks[n] == s.SubstBlock(s.SplitBlock())
        && s.Inlined().blocks[n].id == s.SplitId()
  {
    InlinedBlocks(s);
    hide *;
  }

  lemma CopyHere(s: Site, j: nat)
    requires s.Valid() && s.callee.blocks != [] && j < |s.callee.blocks|
    ensures var x := |s.caller.blocks| + 1 + j;
      x < |s.Inlined().blocks| && s.Inlined().blocks[x] == s.SubstBlock(s.CopyBlock(j))
        && s.Inlined().blocks[x].id == s.CopyId(j)
  {
    InlinedBlocks(s);
    hide *;
  }

  lemma Size(s: Site)
    requires s.Valid() && s.callee.blocks != []
    ensures |s.Inlined().blocks| == |s.caller.blocks| + 1 + |s.callee.blocks|
  {
    InlinedBlocks(s);
    hide *;
  }

  // ----- Blocks end once -----

  lemma EndsAt(b: SsaBlock)
    requires EndsOnce(b)
    ensures b.insts != [] && forall k :: 0 <= k < |b.insts| ==> (IsTerminator(b.insts[k]) <==> k == |b.insts| - 1)
  {}

  lemma AllEnd(s: Site)
    requires Apt(s) && s.Valid()
    ensures (forall i :: 0 <= i < |s.caller.blocks| ==> EndsOnce(s.caller.blocks[i])) && s.k < |s.Block().insts| - 1
    ensures forall j :: 0 <= j < |s.callee.blocks| ==> EndsOnce(s.callee.blocks[j])
  {
    AptIs(s);
    hide Apt;
    hide UniqueSsaIds;
    assert EndsOnce(s.Block());
  }

  lemma OldEnds(s: Site, i: nat)
    requires Apt(s) && s.Valid() && s.callee.blocks != [] && i < |s.caller.blocks|
    ensures EndsOnce(s.SubstBlock(s.OldBlock(i)))
  {
    AllEnd(s);
    OldInsts(s, i);
    var b, insts := s.SubstBlock(s.OldBlock(i)), s.caller.blocks[i].insts;
    EndsAt(s.caller.blocks[i]);
    hide Apt;
    hide s.SubstBlock;
    hide s.OldBlock;
    hide s.SubstInst;
    forall q | 0 <= q < |b.insts| ensures IsTerminator(b.insts[q]) <==> q == |b.insts| - 1 {
      if !(i == s.bi && q == s.k) { SubstTargets(s, insts[q]); }
    }
  }

  lemma SplitEnds(s: Site)
    requires Apt(s) && s.Valid()
    ensures EndsOnce(s.SubstBlock(s.SplitBlock()))
  {
    AllEnd(s);
    SplitInsts(s);
    var b := s.SubstBlock(s.SplitBlock());
    EndsAt(s.Block());
    hide Apt;
    hide s.SubstBlock;
    hide s.SplitBlock;
    hide s.SubstInst;
    forall q | 0 <= q < |b.insts|
      ensures IsTerminator(b.insts[q]) <==> q == |b.insts| - 1
    {
      SubstTargets(s, s.Block().insts[s.k + 1 + q]);
    }
  }

  lemma CopyEnds(s: Site, j: nat)
    requires Apt(s) && s.Valid() && j < |s.callee.blocks|
    ensures EndsOnce(s.SubstBlock(s.CopyBlock(j)))
  {
    AllEnd(s);
    CopyInsts(s, j);
    var b, insts := s.SubstBlock(s.CopyBlock(j)), s.callee.blocks[j].insts;
    EndsAt(s.callee.blocks[j]);
    hide Apt;
    hide s.SubstBlock;
    hide s.CopyBlock;
    hide s.SubstInst;
    hide s.CopyInst;
    forall q | 0 <= q < |b.insts| ensures IsTerminator(b.insts[q]) <==> q == |b.insts| - 1 {
      SubstTargets(s, s.CopyInst(insts[q]));
      CopyTargets(s, insts[q], 0);
    }
  }

  lemma InlinedEnds(s: Site, x: nat)
    requires Apt(s) && s.Valid() && s.callee.blocks != [] && x < |s.Inlined().blocks|
    ensures EndsOnce(s.Inlined().blocks[x])
  {
    hide *;
    Size(s);
    var n := |s.caller.blocks|;
    if x < n {
      OldAt(s, x);
      OldEnds(s, x);
    } else if x == n {
      SplitAt(s);
      SplitEnds(s);
    } else {
      CopyHere(s, x - n - 1);
      CopyEnds(s, x - n - 1);
    }
  }

  // ----- Branches go to blocks -----

  lemma FoundAt(blocks: seq<SsaBlock>, x: nat)
    requires x < |blocks|
    ensures FindSsa(blocks, blocks[x].id).Some?
  {}

  /** What the caller branched to is still there. */
  lemma OldTarget(s: Site, i: nat, t: nat)
    requires Apt(s) && s.Valid() && s.callee.blocks != [] && i < |s.caller.blocks| && t in SuccIds(s.caller.blocks[i])
    ensures FindSsa(s.Inlined().blocks, t).Some?
  {
    AptIs(s);
    var c := BlockAt(s.caller, t);
    hide *;
    OldAt(s, c);
    FoundAt(s.Inlined().blocks, c);
  }

  lemma CopyTarget(s: Site, j: nat, t: nat)
    requires Apt(s) && s.Valid() && s.callee.blocks != [] && j < |s.callee.blocks|
      && t in SuccIds(s.SubstBlock(s.CopyBlock(j)))
    ensures FindSsa(s.Inlined().blocks, t).Some?
  {
    AptIs(s);
    AllEnd(s);
    EndsAt(s.callee.blocks[j]);
    hide Apt;
    hide s.SubstBlock;
    hide s.CopyBlock;
    hide s.Inlined;
    hide SuccIds;
    hide s.CopyOf;
    hide Blocks;
    CopySuccs(s, j, t);
    if u :| u in SuccIds(s.callee.blocks[j]) && t == s.CopyOf(u) {
      var i := BlockAt(s.callee, u);
      CopyAt(s, i);
      CopyHere(s, i);
      FoundAt(s.Inlined().blocks, |s.caller.blocks| + 1 + i);
    } else {
      SplitAt(s);
      FoundAt(s.Inlined().blocks, |s.caller.blocks|);
    }
  }

  lemma InlinedKnown(s: Site, x: nat, t: nat)
    requires Apt(s) && s.Valid() && s.callee.blocks != [] && x < |s.Inlined().blocks|
      && t in SuccIds(s.Inlined().blocks[x])
    ensures FindSsa(s.Inlined().blocks, t).Some?
  {
    hide *;
    Size(s);
    var n := |s.caller.blocks|;
    if x < n {
      OldAt(s, x);
      OldSuccs(s, x);
      if x == s.bi {
        CopyHere(s, 0);
        FoundAt(s.Inlined().blocks, n + 1 + 0);
      } else {
        OldTarget(s, x, t);
      }
    } else if x == n {
      SplitAt(s);
      AptIs(s);
      AllEnd(s);
      BlockIs(s);
      SplitSuccs(s);
      OldTarget(s, s.bi, t);
    } else {
      CopyHere(s, x - n - 1);
      CopyTarget(s, x - n - 1, t);
    }
  }

  lemma BlockIs(s: Site)
    requires s.Valid()
    ensures s.bi < |s.caller.blocks| && s.Block() == s.caller.blocks[s.bi] && SiteId(s) == s.Block().id
  {}

  // ----- Phis hear from predecessors -----

  lemma PredIs(f: Fn, x: nat, y: nat)
    requires x < |f.blocks| && y < |f.blocks| && f.blocks[x].id in SuccIds(f.blocks[y])
    ensures HasPred(f, x, f.blocks[y].id)
  {}

  lemma PredAt(f: Fn, x: nat, id: nat) returns (y: nat)
    requires x < |f.blocks| && HasPred(f, x, id)
    ensures y < |f.blocks| && f.blocks[y].id == id && f.blocks[x].id in SuccIds(f.blocks[y])
  { y :| 0 <= y < |f.blocks| && f.blocks[y].id == id && f.blocks[x].id in SuccIds(f.blocks[y]); }

  /** The end of block `i` of the caller leads to block `c` still. */
  lemma EndLeads(s: Site, i: nat, c: nat)
    requires Apt(s) && s.Valid() && s.callee.blocks != [] && i < |s.caller.blocks| && c < |s.caller.blocks|
    requires s.caller.blocks[c].id in SuccIds(s.caller.blocks[i])
    ensures EndOf(s, i) < |s.Inlined().blocks| && c < |s.Inlined().blocks|
      && s.Inlined().blocks[c].id in SuccIds(s.Inlined().blocks[EndOf(s, i)])
    ensures s.Inlined().blocks[EndOf(s, i)].id == if i == s.bi then s.SplitId() else s.caller.blocks[i].id
  {
    OldAt(s, c);
    OldAt(s, i);
    SplitAt(s);
    OldSuccs(s, i);
    AllEnd(s);
    BlockIs(s);
    if i == s.bi { SplitSuccs(s); }
    hide Apt;
    hide s.Inlined;
    hide s.SubstBlock;
    hide s.OldBlock;
    hide s.SplitBlock;
    hide SuccIds;
  }

  /** Input `q` of phi `p` of the caller's block `c`, after inlining: where it is heard from and what it is. */
  lemma OldInput(s: Site, c: nat, p: nat, q: nat) returns (i: nat)
    requires Apt(s) && s.Valid() && s.callee.blocks != [] && c < |s.caller.blocks| && p < |s.caller.blocks[c].phis|
      && q < |s.caller.blocks[c].phis[p].ins|
    ensures i < |s.caller.blocks| && s.caller.blocks[c].phis[p].ins[q].0 == s.caller.blocks[i].id
      && s.caller.blocks[c].id in SuccIds(s.caller.blocks[i])
    ensures c < |s.Inlined().blocks| && EndOf(s, i) < |s.Inlined().blocks|
      && |s.Inlined().blocks[c].phis| == |s.caller.blocks[c].phis|
    ensures |s.Inlined().blocks[c].phis[p].ins| == |s.caller.blocks[c].phis[p].ins|
    ensures s.Inlined().blocks[c].phis[p].ins[q] == (s.Inlined().blocks[EndOf(s, i)].id,
      s.Subst(s.caller.blocks[c].phis[p].ins[q].1))
  {
    AptForms(s);
    i := PredAt(s.caller, c, s.caller.blocks[c].phis[p].ins[q].0);
    OldAt(s, c);
    OldPhi(s, c, p);
    EndLeads(s, i, c);
    OldId(s, i);
    BlockIs(s);
    hide Apt;
    hide SsaForm;
    hide Hears;
    hide s.Inlined;
    hide s.SubstBlock;
    hide s.OldBlock;
    hide s.Subst;
    hide SuccIds;
  }

  lemma SplitInput(s: Site, q: nat) returns (j: nat)
    requires Apt(s) && s.Valid() && s.callee.blocks != []
    requires var n := |s.caller.blocks|;
      n < |s.Inlined().blocks| && |s.Inlined().blocks[n].phis| > 0 && q < |s.Inlined().blocks[n].phis[0].ins|
    ensures j < |s.callee.blocks| && ReturnsAtEnd(s.callee.blocks[j])
      && |s.caller.blocks| + 1 + j < |s.Inlined().blocks|
    ensures |s.Inlined().blocks[|s.caller.blocks|].phis| == 1
    ensures s.Inlined().blocks[|s.caller.blocks|].phis[0].ins[q] ==
      (s.Inlined().blocks[|s.caller.blocks| + 1 + j].id, s.Subst(S.ReturnValue(s, j)))
  {
    SplitAt(s);
    SplitPhi(s);
    AptArgs(s);
    AptIs(s);
    hide Apt;
    hide Ready;
    hide s.Inlined;
    hide s.SubstBlock;
    hide s.SplitBlock;
    hide s.Subst;
    hide s.Returns;
    hide S.ReturnValue;
    j := ReturnsFrom(s, |s.callee.blocks|, q);
    CopyHere(s, j);
  }

  predicate Input(bs: seq<SsaBlock>, x: nat, p: nat, q: nat, pred: nat, v: Value) {
    x < |bs| && p < |bs[x].phis| && q < |bs[x].phis[p].ins| && bs[x].phis[p].ins[q] == (pred, v)
  }

  lemma InputIs(bs: seq<SsaBlock>, x: nat, p: nat, q: nat, pred: nat, v: Value)
    requires Input(bs, x, p, q, pred, v)
    ensures x < |bs| && p < |bs[x].phis| && q < |bs[x].phis[p].ins| && bs[x].phis[p].ins[q] == (pred, v)
  {}

  lemma CopyInput(s: Site, j: nat, p: nat, q: nat) returns (i: nat)
    requires Apt(s) && s.Valid() && s.callee.blocks != [] && j < |s.callee.blocks| && p < |s.callee.blocks[j].phis|
      && q < |s.callee.blocks[j].phis[p].ins|
    ensures i < |s.callee.blocks| && s.callee.blocks[j].phis[p].ins[q].0 == s.callee.blocks[i].id
      && s.callee.blocks[j].id in SuccIds(s.callee.blocks[i])
    ensures Input(s.Inlined().blocks, |s.caller.blocks| + 1 + j, p, q, s.CopyId(i),
      s.Subst(s.Remap(s.callee.blocks[j].phis[p].ins[q].1)))
  {
    AptForms(s);
    i := PredAt(s.callee, j, s.callee.blocks[j].phis[p].ins[q].0);
    CopyHere(s, j);
    CopyHere(s, i);
    CopyAt(s, i);
    CopyPhi(s, j, p);
    hide Apt;
    hide SsaForm;
    hide Hears;
    hide s.Inlined;
    hide s.SubstBlock;
    hide s.CopyBlock;
    hide s.CopyOf;
    hide s.Subst;
    hide s.Remap;
    hide SuccIds;
  }

  lemma CopyLeads(s: Site, i: nat, j: nat)
    requires Apt(s) && s.Valid() && s.callee.blocks != [] && i < |s.callee.blocks| && j < |s.callee.blocks|
    requires s.callee.blocks[j].id in SuccIds(s.callee.blocks[i])
    ensures var n, bs := |s.caller.blocks|, s.Inlined().blocks;
      n + 1 + i < |bs| && n + 1 + j < |bs| && bs[n + 1 + j].id in SuccIds(bs[n + 1 + i])
  {
    CopyHere(s, i);
    CopyHere(s, j);
    CopyAt(s, j);
    AllEnd(s);
    EndsAt(s.callee.blocks[i]);
    CopySuccs(s, i, s.CopyId(j));
    hide *;
  }

  lemma ReturnLeads(s: Site, j: nat)
    requires Apt(s) && s.Valid() && s.callee.blocks != [] && j < |s.callee.blocks| && ReturnsAtEnd(s.callee.blocks[j])
    ensures var n, bs := |s.caller.blocks|, s.Inlined().blocks;
      n < |bs| && n + 1 + j < |bs| && bs[n].id in SuccIds(bs[n + 1 + j])
  {
    CopyHere(s, j);
    SplitAt(s);
    AllEnd(s);
    EndsAt(s.callee.blocks[j]);
    CopySuccs(s, j, s.SplitId());
    hide *;
  }

  lemma OldHears(s: Site, c: nat, p: nat, q: nat)
    requires Apt(s) && s.Valid() && s.callee.blocks != [] && c < |s.caller.blocks| && c < |s.Inlined().blocks|
    requires p < |s.Inlined().blocks[c].phis| && q < |s.Inlined().blocks[c].phis[p].ins|
    ensures HasPred(s.Inlined(), c, s.Inlined().blocks[c].phis[p].ins[q].0)
  {
    hide *;
    OldPhiCount(s, c, p);
    var i := OldInput(s, c, p, q);
    EndLeads(s, i, c);
    PredIs(s.Inlined(), c, EndOf(s, i));
  }

  lemma OldPhiCount(s: Site, c: nat, p: nat)
    requires s.Valid() && s.callee.blocks != [] && c < |s.caller.blocks| && c < |s.Inlined().blocks|
      && p < |s.Inlined().blocks[c].phis|
    ensures |s.Inlined().blocks[c].phis| == |s.caller.blocks[c].phis|
      && |s.Inlined().blocks[c].phis[p].ins| == |s.caller.blocks[c].phis[p].ins|
  {
    OldAt(s, c);
    OldPhiDefs(s, c);
    hide s.Inlined;
    assert |PhiDefs(s.Inlined().blocks[c].phis)| == |PhiDefs(s.caller.blocks[c].phis)|;
    OldPhi(s, c, p);
    hide s.SubstBlock;
    hide s.OldBlock;
  }

  lemma CopyPhiCount(s: Site, j: nat, p: nat)
    requires s.Valid() && s.callee.blocks != [] && j < |s.callee.blocks|
    requires var x := |s.caller.blocks| + 1 + j; x < |s.Inlined().blocks| && p < |s.Inlined().blocks[x].phis|
    ensures var x := |s.caller.blocks| + 1 + j;
      |s.Inlined().blocks[x].phis| == |s.callee.blocks[j].phis|
        && |s.Inlined().blocks[x].phis[p].ins| == |s.callee.blocks[j].phis[p].ins|
  {
    CopyHere(s, j);
    hide s.Inlined;
    assert |s.SubstBlock(s.CopyBlock(j)).phis| == |s.callee.blocks[j].phis| by { hide s.SubstInsts; hide s.CopyInsts; }
    CopyPhi(s, j, p);
    hide s.SubstBlock;
    hide s.CopyBlock;
  }

  lemma InlinedHears(s: Site, x: nat, p: nat, q: nat)
    requires Apt(s) && s.Valid() && s.callee.blocks != [] && x < |s.Inlined().blocks|
    requires p < |s.Inlined().blocks[x].phis| && q < |s.Inlined().blocks[x].phis[p].ins|
    ensures HasPred(s.Inlined(), x, s.Inlined().blocks[x].phis[p].ins[q].0)
  {
    hide *;
    Size(s);
    var n := |s.caller.blocks|;
    if x < n {
      OldHears(s, x, p, q);
    } else if x == n {
      OnePhi(s);
      var j := SplitInput(s, q);
      ReturnLeads(s, j);
      PredIs(s.Inlined(), n, n + 1 + j);
    } else {
      var j := x - n - 1;
      CopyPhiCount(s, j, p);
      var i := CopyInput(s, j, p, q);
      InputIs(s.Inlined().blocks, |s.caller.blocks| + 1 + j, p, q, s.CopyId(i),
        s.Subst(s.Remap(s.callee.blocks[j].phis[p].ins[q].1)));
      CopyHere(s, i);
      CopyLeads(s, i, j);
      PredIs(s.Inlined(), n + 1 + j, n + 1 + i);
    }
  }

  lemma OnePhi(s: Site)
    requires s.Valid() && s.callee.blocks != [] && |s.caller.blocks| < |s.Inlined().blocks|
    ensures |s.Inlined().blocks[|s.caller.blocks|].phis| <= 1
  {
    SplitAt(s);
    SplitPhi(s);
    hide s.Inlined;
    hide s.SubstBlock;
    hide s.SplitBlock;
    hide s.AllReturns;
  }

  // ----- Uses come after definitions -----

  /** What a phi hears of a predecessor may be used at the end of it, and the other way round. */
  lemma PhiToUse(f: Fn, y: nat, r: nat)
    requires f.blocks != [] && UniqueSsaIds(f.blocks) && y < |f.blocks| && PhiUseOk(f, f.blocks[y].id, r)
    ensures UseOk(f, y, |f.blocks[y].insts|, r)
  {
    hide BlockDom;
    var i: nat, pos: int :| DefAt(f, i, pos, r) && BlockDom(f, f.blocks[i].id, f.blocks[y].id);
    assert Before(f, i, pos, y, |f.blocks[y].insts|);
  }

  lemma UseToPhi(f: Fn, y: nat, q: int, r: nat)
    requires f.blocks != [] && y < |f.blocks| && UseOk(f, y, q, r)
    ensures PhiUseOk(f, f.blocks[y].id, r)
  {
    hide Cfg;
    var i: nat, pos: int :| DefAt(f, i, pos, r) && Before(f, i, pos, y, q);
    EntryDominates(Cfg(f), f.blocks[0].id, f.blocks[y].id);
    assert BlockDom(f, f.blocks[i].id, f.blocks[y].id);
  }

  lemma UsedSubst(s: Site, i: Inst, r: nat) returns (v: Value)
    requires s.Valid() && r in UsedRegs(s.SubstInst(i))
    ensures v in Operands(i) && s.Subst(v) == Reg(r)
  {
    hide s.Subst;
    assert Reg(r) in Operands(s.SubstInst(i));
    v :| v in Operands(i) && s.Subst(v) == Reg(r);
  }

  lemma UsedCopy(s: Site, i: Inst, w: Value) returns (v: Value)
    requires s.Valid() && w in Operands(s.CopyInst(i))
    ensures v in Operands(i) && s.Remap(v) == w
  {
    hide s.Remap;
    hide s.CopyOf;
    hide s.RemapDst;
    v :| v in Operands(i) && s.Remap(v) == w;
  }

  /** A use of the caller, where it is now. */
  lemma OldUse(s: Site, i: nat, q: nat, r: nat)
    requires Apt(s) && s.Valid() && s.callee.blocks != [] && i < |s.caller.blocks| && q < |s.caller.blocks[i].insts|
      && !(i == s.bi && q == s.k)
    requires var x := MovedUse(s, i, q).0; x < |s.Inlined().blocks| && Reachable(s.Inlined(), s.Inlined().blocks[x].id)
    requires r in UsedRegs(s.SubstInst(s.caller.blocks[i].insts[q]))
    ensures var (x, y) := MovedUse(s, i, q); UseOk(s.Inlined(), x, y, r)
  {
    hide *;
    var v := UsedSubst(s, s.caller.blocks[i].insts[q], r);
    WasReached(s, i, q);
    AptForms(s);
    UsedFits(s.caller, i, q, v);
    UseMoved(s, i, q, v);
    FitsReg(s.Inlined(), MovedUse(s, i, q).0, MovedUse(s, i, q).1, s.Subst(v), r);
  }

  lemma FitsReg(f: Fn, x: nat, q: int, v: Value, r: nat)
    requires x < |f.blocks| && Fits(f, x, q, v) && v == Reg(r)
    ensures UseOk(f, x, q, r)
  {}

  lemma WasReached(s: Site, i: nat, q: int)
    requires Apt(s) && s.Valid() && s.callee.blocks != [] && i < |s.caller.blocks|
    requires var x := MovedUse(s, i, q).0; x < |s.Inlined().blocks| && Reachable(s.Inlined(), s.Inlined().blocks[x].id)
    ensures s.caller.blocks != [] && Reachable(s.caller, s.caller.blocks[i].id)
  {
    var x := MovedUse(s, i, q).0;
    IdAt(s, x);
    ReachedBefore(s, s.Inlined().blocks[x].id);
    OldId(s, i);
    BlockIs(s);
    hide Apt;
    hide s.Inlined;
    hide Reachable;
  }

  lemma CopyUse(s: Site, j: nat, q: nat, r: nat)
    requires Apt(s) && s.Valid() && s.callee.blocks != [] && j < |s.callee.blocks| && q < |s.callee.blocks[j].insts|
    requires s.Inlined().blocks != [] && Reachable(s.Inlined(), s.CopyId(j))
      && r in UsedRegs(s.SubstInst(s.CopyInst(s.callee.blocks[j].insts[q])))
    ensures var x := |s.caller.blocks| + 1 + j; x < |s.Inlined().blocks| && UseOk(s.Inlined(), x, q, r)
  {
    hide *;
    var i := s.callee.blocks[j].insts[q];
    var w := UsedSubst(s, s.CopyInst(i), r);
    var v := UsedCopy(s, i, w);
    ReachedInCallee(s, j);
    AptForms(s);
    UsedFits(s.callee, j, q, v);
    CopyFits(s, j, q, v);
    FitsReg(s.Inlined(), |s.caller.blocks| + 1 + j, q, s.Remap(v), r);
  }

  lemma BranchUsesNothing(t: nat)
    ensures UsedRegs(Br(t)) == {}
  {}

  /** Every use that can be reached comes after the definition of what it uses. */
  lemma InlinedUse(s: Site, x: nat, q: nat, r: nat)
    requires Apt(s) && s.Valid() && s.callee.blocks != [] && x < |s.Inlined().blocks|
      && Reachable(s.Inlined(), s.Inlined().blocks[x].id)
    requires q < |s.Inlined().blocks[x].insts| && r in UsedRegs(s.Inlined().blocks[x].insts[q])
    ensures UseOk(s.Inlined(), x, q, r)
  {
    hide *;
    Size(s);
    var n := |s.caller.blocks|;
    if x < n {
      OldAt(s, x);
      OldInsts(s, x);
      AllEnd(s);
      BlockIs(s);
      BranchUsesNothing(s.CopyId(0));
      MovedPast(s, x, q);
      if !(x == s.bi && q == s.k) { OldUse(s, x, q, r); }
    } else if x == n {
      SplitAt(s);
      SplitInsts(s);
      BlockIs(s);
      MovedPast(s, s.bi, s.k + 1 + q);
      OldUse(s, s.bi, s.k + 1 + q, r);
    } else {
      CopyHere(s, x - n - 1);
      CopyInsts(s, x - n - 1);
      CopyUse(s, x - n - 1, q, r);
    }
  }

  lemma PhiFits(f: Fn, c: nat, p: nat, q: nat, i: nat)
    requires SsaForm(f) && c < |f.blocks| && p < |f.blocks[c].phis| && q < |f.blocks[c].phis[p].ins| && i < |f.blocks|
    requires f.blocks[c].phis[p].ins[q].0 == f.blocks[i].id && Reachable(f, f.blocks[i].id)
    ensures Fits(f, i, |f.blocks[i].insts|, f.blocks[c].phis[p].ins[q].1)
  {
    hide UseOk;
    hide PhiUseOk;
    hide Reachable;
    hide UsesFollow;
    if f.blocks[c].phis[p].ins[q].1.Reg? { PhiToUse(f, i, f.blocks[c].phis[p].ins[q].1.id); }
  }

  lemma FitsToPhi(f: Fn, y: nat, q: int, v: Value)
    requires f.blocks != [] && y < |f.blocks| && Fits(f, y, q, v) && v.Reg?
    ensures PhiUseOk(f, f.blocks[y].id, v.id)
  { UseToPhi(f, y, q, v.id); }

  lemma EndMoved(s: Site, i: nat)
    requires Apt(s) && s.Valid() && i < |s.caller.blocks|
    ensures MovedUse(s, i, |s.caller.blocks[i].insts|).0 == EndOf(s, i)
  {
    AllEnd(s);
    BlockIs(s);
    hide Apt;
  }

  lemma OldPhiUse(s: Site, c: nat, p: nat, q: nat)
    requires Apt(s) && s.Valid() && s.callee.blocks != [] && c < |s.caller.blocks| && c < |s.Inlined().blocks|
    requires p < |s.Inlined().blocks[c].phis| && q < |s.Inlined().blocks[c].phis[p].ins|
    requires s.Inlined().blocks[c].phis[p].ins[q].1.Reg?
      && Reachable(s.Inlined(), s.Inlined().blocks[c].phis[p].ins[q].0)
    ensures PhiUseOk(s.Inlined(), s.Inlined().blocks[c].phis[p].ins[q].0, s.Inlined().blocks[c].phis[p].ins[q].1.id)
  {
    hide *;
    OldPhiCount(s, c, p);
    var i := OldInput(s, c, p, q);
    var l, v := |s.caller.blocks[i].insts|, s.caller.blocks[c].phis[p].ins[q].1;
    EndMoved(s, i);
    WasReached(s, i, l);
    AptForms(s);
    PhiFits(s.caller, c, p, q, i);
    UseMoved(s, i, l, v);
    FitsToPhi(s.Inlined(), EndOf(s, i), MovedUse(s, i, l).1, s.Subst(v));
  }

  lemma CopyPhiUse(s: Site, j: nat, p: nat, q: nat)
    requires Apt(s) && s.Valid() && s.callee.blocks != [] && j < |s.callee.blocks|
      && |s.caller.blocks| + 1 + j < |s.Inlined().blocks|
    requires var phis := s.Inlined().blocks[|s.caller.blocks| + 1 + j].phis;
      p < |phis| && q < |phis[p].ins| && phis[p].ins[q].1.Reg? && Reachable(s.Inlined(), phis[p].ins[q].0)
    ensures var phis := s.Inlined().blocks[|s.caller.blocks| + 1 + j].phis;
      PhiUseOk(s.Inlined(), phis[p].ins[q].0, phis[p].ins[q].1.id)
  {
    hide *;
    CopyPhiCount(s, j, p);
    var i := CopyInput(s, j, p, q);
    var l, v := |s.callee.blocks[i].insts|, s.callee.blocks[j].phis[p].ins[q].1;
    InputIs(s.Inlined().blocks, |s.caller.blocks| + 1 + j, p, q, s.CopyId(i),
      s.Subst(s.Remap(s.callee.blocks[j].phis[p].ins[q].1)));
    CopyHere(s, i);
    ReachedInCallee(s, i);
    AptForms(s);
    PhiFits(s.callee, j, p, q, i);
    CopyFits(s, i, l, v);
    FitsToPhi(s.Inlined(), |s.caller.blocks| + 1 + i, l, s.Remap(v));
  }

  lemma InlinedPhiUse(s: Site, x: nat, p: nat, q: nat)
    requires Apt(s) && s.Valid() && s.callee.blocks != [] && x < |s.Inlined().blocks|
    requires p < |s.Inlined().blocks[x].phis| && q < |s.Inlined().blocks[x].phis[p].ins|
    requires s.Inlined().blocks[x].phis[p].ins[q].1.Reg?
      && Reachable(s.Inlined(), s.Inlined().blocks[x].phis[p].ins[q].0)
    ensures PhiUseOk(s.Inlined(), s.Inlined().blocks[x].phis[p].ins[q].0, s.Inlined().blocks[x].phis[p].ins[q].1.id)
  {
    hide *;
    Size(s);
    var n := |s.caller.blocks|;
    if x < n {
      OldPhiUse(s, x, p, q);
    } else if x == n {
      OnePhi(s);
      var j := SplitInput(s, q);
      CopyHere(s, j);
      ReturnFits(s, j);
      FitsToPhi(s.Inlined(), n + 1 + j, |s.callee.blocks[j].insts| - 1, S.ReturnValue(s, j));
    } else {
      CopyPhiUse(s, x - n - 1, p, q);
    }
  }

  // ----- All of it -----

  lemma IdBelow(s: Site, x: nat)
    requires Apt(s) && s.Valid() && s.callee.blocks != [] && x < |s.Inlined().blocks|
    ensures s.Inlined().blocks[x].id < s.Inlined().nextBlock
  {
    assert s.Inlined().nextBlock == s.caller.nextBlock + 2 + 2 * |s.callee.blocks|;
    Size(s);
    IdAt(s, x);
    if x < |s.caller.blocks| { OldId(s, x); }
    hide Apt;
    hide s.Inlined;
  }

  lemma InlinedBlocksOk(s: Site)
    requires Apt(s) && s.Valid() && s.callee.blocks != []
    ensures Blocks(s.Inlined()) && Hears(s.Inlined()) && Known(s.Inlined())
  {
    Entered(s);
    BlocksOf(s);
    hide Apt;
    hide s.Inlined;
    hide SuccIds;
    hide EndsOnce;
    hide HasPred;
    hide UniqueSsaIds;
    var f := s.Inlined();
    forall x: nat | x < |f.blocks| ensures EndsOnce(f.blocks[x]) && f.blocks[x].id < f.nextBlock {
      InlinedEnds(s, x);
      IdBelow(s, x);
    }
    forall x: nat, p: nat, q: nat | x < |f.blocks| && p < |f.blocks[x].phis| && q < |f.blocks[x].phis[p].ins|
      ensures HasPred(f, x, f.blocks[x].phis[p].ins[q].0) && f.blocks[x].phis[p].ins[q].0 < f.nextBlock
    {
      InlinedHears(s, x, p, q);
      var y := PredAt(f, x, f.blocks[x].phis[p].ins[q].0);
      IdBelow(s, y);
    }
    forall x: nat, t: nat | x < |f.blocks| && t in SuccIds(f.blocks[x])
      ensures FindSsa(f.blocks, t).Some?
    {
      InlinedKnown(s, x, t);
    }
  }

  /** Inlining a call keeps single assignment, definitions before the uses that can be reached, and phis that hear from
      predecessors: of caller and callee in that form, the caller comes out in that form, whatever the number of
      returns. */
  lemma InlinedKeepsForm(s: Site)
    requires Apt(s)
    ensures s.Valid() && s.callee.blocks != [] && Checked(s.Inlined())
  {
    AptIs(s);
    InlinedBlocksOk(s);
    Entered(s);
    hide Apt;
    hide s.Inlined;
    hide Blocks;
    hide Hears;
    hide Known;
    hide DefAt;
    hide UseOk;
    hide PhiUseOk;
    hide Reachable;
    hide UsedRegs;
    var f := s.Inlined();
    forall i: nat, p: int, j: nat, q: int, r: nat | DefAt(f, i, p, r) && DefAt(f, j, q, r)
      ensures i == j && p == q
    {
      InlinedOnce(s, i, p, j, q, r);
    }
    forall i: nat, p: int, r: nat | DefAt(f, i, p, r) ensures r < f.nextReg { InlinedBelow(s, i, p, r); }
    forall j: nat, q: nat, r: nat | j < |f.blocks| && Reachable(f, f.blocks[j].id) && q < |f.blocks[j].insts|
      && r in UsedRegs(f.blocks[j].insts[q])
      ensures UseOk(f, j, q, r)
    {
      InlinedUse(s, j, q, r);
    }
    forall j: nat, p: nat, q: nat | j < |f.blocks| && p < |f.blocks[j].phis| && q < |f.blocks[j].phis[p].ins|
      ensures var (pred, v) := f.blocks[j].phis[p].ins[q]; v.Reg? && Reachable(f, pred) ==> PhiUseOk(f, pred, v.id)
    {
      if f.blocks[j].phis[p].ins[q].1.Reg? && Reachable(f, f.blocks[j].phis[p].ins[q].0) { InlinedPhiUse(s, j, p, q); }
    }
  }

  /** A callee of which no return is noted leaves the result without a definition. */
  lemma ResultWithoutReturn(s: Site, x: nat, pos: int)
    requires Apt(s) && s.Valid() && s.callee.blocks != [] && s.Call().result.Some? && |s.AllReturns()| == 0
    ensures !DefAt(s.Inlined(), x, pos, s.Call().result.value)
  {
    var r := s.Call().result.value;
    if DefAt(s.Inlined(), x, pos, r) {
      var own, i, p := Origin(s, x, pos, r);
      AptForms(s);
      ResultDefined(s, r);
      hide Apt;
      hide SsaForm;
      hide s.RemapDst;
      hide s.AllReturns;
      if own {
        DefinedOnce(s.caller, i, p, s.bi, s.k, r);
        SplitDefs(s, pos, r);
      } else {
        DefinedBelow(s.caller, s.bi, s.k, r);
        var r0: nat :| DefAt(s.callee, i, p, r0) && r == s.RemapDst(r0);
        FreshIs(s, i, p, r0);
      }
    }
  }
}
