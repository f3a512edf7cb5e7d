// Inlining a call keeps static single assignment form (src/ir/ir_ipa.c:428-664).

module InlineForm {
  import opened Options
  import opened Ir
  import opened SsaIr
  import opened Graphs
  import opened Dominators
  import opened Inlining
  import opened InlineStructure
  import opened InlinePaths

  // ----- The blocks of the inlined caller -----

  /** Phi `p` of a caller's block after inlining hears from the split block where it heard from the block of the
      call. */
  predicate PhiFollows(s: Site, c: nat, p: Phi, p': Phi)
    requires s.Valid() && c < |s.caller.blocks|
  {
    && p'.dst == p.dst && |p'.ins| == |p.ins|
    && forall q :: 0 <= q < |p.ins| ==>
      p'.ins[q] == (if s.caller.blocks[c].id in SuccIds(s.Block()) && p.ins[q].0 == SiteId(s)
        then s.SplitId()
        else p.ins[q].0, s.Subst(p.ins[q].1))
  }

  lemma OldPhi(s: Site, c: nat, i: nat)
    requires s.Valid() && s.callee.blocks != [] && c < |s.caller.blocks| && i < |s.caller.blocks[c].phis|
    ensures var b := s.SubstBlock(s.OldBlock(c));
      |b.phis| == |s.caller.blocks[c].phis| && PhiFollows(s, c, s.caller.blocks[c].phis[i], b.phis[i])
  {
    hide SuccIds;
    hide s.Subst;
    hide s.SubstInsts;
  }

  lemma OldInsts(s: Site, i: nat)
    requires s.Valid() && s.callee.blocks != [] && i < |s.caller.blocks|
    ensures var b, insts := s.SubstBlock(s.OldBlock(i)), s.caller.blocks[i].insts;
      && |b.insts| == (if i == s.bi then s.k + 1 else |insts|)
      && forall q ::
        0 <= q < |b.insts| ==> b.insts[q] == if i == s.bi && q == s.k then Br(s.CopyId(0)) else s.SubstInst(insts[q])
  {
    hide SuccIds;
    hide s.SubstPhis;
    hide s.RetargetPhis;
    var b := s.OldBlock(i);
    assert s.SubstInst(Br(s.CopyId(0))) == Br(s.CopyId(0));
    hide s.SubstInst;
    assert forall q ::
      0 <= q < |b.insts| ==>
        b.insts[q] == if i == s.bi && q == s.k then Br(s.CopyId(0)) else s.caller.blocks[i].insts[q];
  }

  lemma OldPhiDefs(s: Site, i: nat)
    requires s.Valid() && s.callee.blocks != [] && i < |s.caller.blocks|
    ensures PhiDefs(s.SubstBlock(s.OldBlock(i)).phis) == PhiDefs(s.caller.blocks[i].phis)
  {
    var phis, phis' := s.caller.blocks[i].phis, s.SubstBlock(s.OldBlock(i)).phis;
    assert |phis'| == |phis| by { hide s.SubstInsts; hide SuccIds; }
    hide s.SubstBlock;
    hide s.OldBlock;
    forall k | 0 <= k < |phis| ensures phis'[k].dst == phis[k].dst { OldPhi(s, i, k); }
  }

  lemma SplitInsts(s: Site)
    requires s.Valid()
    ensures var b := s.SubstBlock(s.SplitBlock());
      && |b.insts| == |s.Block().insts| - s.k - 1 && forall q ::
        0 <= q < |b.insts| ==> b.insts[q] == s.SubstInst(s.Block().insts[s.k + 1 + q])
  {
    hide s.SubstInst;
    hide s.AllReturns;
  }

  lemma SplitPhi(s: Site)
    requires s.Valid()
    ensures var b := s.SubstBlock(s.SplitBlock());
      if s.Call().result.Some? && |s.AllReturns()| > 1 then
        && |b.phis| == 1 && b.phis[0].dst == s.Call().result.value && |b.phis[0].ins| == |s.AllReturns()|
        && forall q ::
          0 <= q < |s.AllReturns()| ==> b.phis[0].ins[q] == (s.AllReturns()[q].0, s.Subst(s.AllReturns()[q].1))
      else b.phis == []
  {
    hide s.AllReturns;
    hide s.SubstInsts;
    hide s.Subst;
  }

  lemma CopyInsts(s: Site, j: nat)
    requires s.Valid() && j < |s.callee.blocks|
    ensures var b, insts := s.SubstBlock(s.CopyBlock(j)), s.callee.blocks[j].insts;
      && |b.insts| == |insts| && forall q :: 0 <= q < |b.insts| ==> b.insts[q] == s.SubstInst(s.CopyInst(insts[q]))
  {
    hide s.SubstInst;
    hide s.CopyInst;
  }

  lemma CopyPhi(s: Site, j: nat, i: nat)
    requires s.Valid() && j < |s.callee.blocks| && i < |s.callee.blocks[j].phis|
    ensures var b, p := s.SubstBlock(s.CopyBlock(j)), s.callee.blocks[j].phis[i];
      && |b.phis| == |s.callee.blocks[j].phis| && b.phis[i].dst == s.RemapDst(p.dst) && |b.phis[i].ins| == |p.ins|
      && forall q :: 0 <= q < |p.ins| ==> b.phis[i].ins[q] == (s.CopyOf(p.ins[q].0), s.Subst(s.Remap(p.ins[q].1)))
  {
    hide s.SubstInsts;
    hide s.CopyInsts;
    hide s.CopyOf;
    hide s.Remap;
    hide s.RemapDst;
    hide s.Subst;
  }

  lemma Entered(s: Site)
    requires Apt(s) && s.Valid() && s.callee.blocks != []
    ensures var f := s.Inlined(); f.blocks != [] && f.blocks[0].id == s.caller.blocks[0].id < s.caller.nextBlock
    ensures |s.Inlined().blocks| == |s.caller.blocks| + 1 + |s.callee.blocks| && s.caller.blocks != []
  {
    AptIs(s);
    InlinedBlocks(s);
    hide s.Inlined;
    hide s.SubstBlock;
    hide s.OldBlock;
    assert s.Inlined().blocks[0].id == s.caller.blocks[0].id;
  }

  // ----- Definitions -----

  lemma OldDefs(s: Site, i: nat, pos: int, r: nat)
    requires s.Valid() && s.callee.blocks != [] && i < |s.caller.blocks|
    ensures DefAt(s.Inlined(), i, pos, r) <==> DefAt(s.caller, i, pos, r) && (i == s.bi ==> pos < s.k)
  {
    InlinedBlocks(s);
    OldInsts(s, i);
    OldPhiDefs(s, i);
    hide s.Inlined;
    hide s.SubstBlock;
    hide s.OldBlock;
    hide s.SubstInst;
    if pos >= 0 && pos < |s.caller.blocks[i].insts| { SubstTargets(s, s.caller.blocks[i].insts[pos]); }
  }

  lemma SplitDefs(s: Site, pos: int, r: nat)
    requires s.Valid() && s.callee.blocks != []
    ensures DefAt(s.Inlined(), |s.caller.blocks|, pos, r) <==>
      if pos == -1
        then s.Call().result == Some(r) && |s.AllReturns()| > 1
        else pos >= 0 && DefAt(s.caller, s.bi, pos + s.k + 1, r)
  {
    InlinedBlocks(s);
    SplitInsts(s);
    SplitPhi(s);
    hide s.Inlined;
    hide s.SubstBlock;
    hide s.SplitBlock;
    hide s.SubstInst;
    if pos >= 0 && pos + s.k + 1 < |s.Block().insts| { SubstTargets(s, s.Block().insts[s.k + 1 + pos]); }
  }

  lemma CopyDst(s: Site, i: Inst)
    requires s.Valid()
    ensures Dst(s.SubstInst(s.CopyInst(i))) == if Dst(i).Some? then Some(s.RemapDst(Dst(i).value)) else None
  {
    hide s.RemapDst;
    hide s.Remap;
    hide s.CopyOf;
  }

  /** The copies define the fresh names of what the callee defines. */
  lemma CopyDefs(s: Site, j: nat, pos: int, r: nat)
    requires s.Valid() && s.callee.blocks != [] && j < |s.callee.blocks|
    ensures DefAt(s.Inlined(), |s.caller.blocks| + 1 + j, pos, r) <==>
      exists r0: nat :: DefAt(s.callee, j, pos, r0) && r == s.RemapDst(r0)
  {
    InlinedBlocks(s);
    var b, c := s.SubstBlock(s.CopyBlock(j)), s.callee.blocks[j];
    CopyInsts(s, j);
    var x := |s.caller.blocks| + 1 + j;
    assert s.Inlined().blocks[x] == b;
    hide s.Inlined;
    hide s.SubstBlock;
    hide s.CopyBlock;
    hide s.SubstInst;
    hide s.CopyInst;
    hide s.RemapDst;
    if pos == -1 {
      CopyPhiDefs(s, j, r);
    } else if 0 <= pos < |c.insts| {
      CopyDst(s, c.insts[pos]);
      assert Dst(c.insts[pos]).Some? ==> DefAt(s.callee, j, pos, Dst(c.insts[pos]).value);
    }
  }

  lemma CopyPhiDefs(s: Site, j: nat, r: nat)
    requires s.Valid() && j < |s.callee.blocks|
    ensures r in PhiDefs(s.SubstBlock(s.CopyBlock(j)).phis) <==>
      exists r0: nat :: DefAt(s.callee, j, -1, r0) && r == s.RemapDst(r0)
  {
    var phis, phis' := s.callee.blocks[j].phis, s.SubstBlock(s.CopyBlock(j)).phis;
    assert |phis'| == |phis| by { hide s.SubstInsts; hide s.CopyInsts; }
    hide s.SubstBlock;
    hide s.CopyBlock;
    hide s.RemapDst;
    forall i | 0 <= i < |phis| ensures phis'[i].dst == s.RemapDst(phis[i].dst) && DefAt(s.callee, j, -1, phis[i].dst) {
      CopyPhi(s, j, i);
      assert PhiDefs(phis)[i] == phis[i].dst;
    }
    if r in PhiDefs(phis') {
      var i :| 0 <= i < |phis'| && PhiDefs(phis')[i] == r;
      assert DefAt(s.callee, j, -1, phis[i].dst);
    }
    if r0: nat :| DefAt(s.callee, j, -1, r0) && r == s.RemapDst(r0) {
      var i :| 0 <= i < |phis| && PhiDefs(phis)[i] == r0;
      assert PhiDefs(phis')[i] == r;
    }
  }

  // ----- One definition each -----

  /** Where position `p` of block `i` of the caller is after inlining; the call itself becomes the phi. */
  function Moved(s: Site, i: nat, p: int): (nat, int) {
    if i == s.bi && p >= s.k then (|s.caller.blocks|, p - s.k - 1) else (i, p)
  }

  ghost predicate FromCallee(s: Site, i: nat, p: int, r: nat)
    requires s.Valid()
  { exists r0: nat :: DefAt(s.callee, i, p, r0) && r == s.RemapDst(r0) }

  /** What is defined in the inlined caller comes from the caller or from the callee. */
  lemma Origin(s: Site, x: nat, pos: int, r: nat) returns (own: bool, i: nat, p: int)
    requires Apt(s) && s.Valid() && s.callee.blocks != [] && DefAt(s.Inlined(), x, pos, r)
    ensures own ==> DefAt(s.caller, i, p, r) && (x, pos) == Moved(s, i, p)
    ensures !own ==> FromCallee(s, i, p, r) && (x, pos) == (|s.caller.blocks| + 1 + i, p)
  {
    hide *;
    var n := |s.caller.blocks|;
    InDef(s.Inlined(), x, pos, r);
    Entered(s);
    AptIs(s);
    if x < n {
      OldDefs(s, x, pos, r);
      MovedIs(s, x, pos);
      own, i, p := true, x, pos;
    } else if x == n {
      SplitDefs(s, pos, r);
      MovedIs(s, s.bi, pos + s.k + 1);
      own, i, p := true, s.bi, pos + s.k + 1;
      if pos == -1 { ResultDefined(s, r); }
    } else {
      own, i, p := false, x - n - 1, pos;
      assert n + 1 + i == x;
      CopyDefs(s, i, pos, r);
      FromCalleeIs(s, i, pos, r);
    }
  }

  lemma MovedIs(s: Site, i: nat, p: int)
    ensures Moved(s, i, p) == if i == s.bi && p >= s.k then (|s.caller.blocks|, p - s.k - 1) else (i, p)
  {}

  lemma FromCalleeIs(s: Site, i: nat, p: int, r: nat)
    requires s.Valid() && exists r0: nat :: DefAt(s.callee, i, p, r0) && r == s.RemapDst(r0)
    ensures FromCallee(s, i, p, r)
  {}

  lemma InDef(f: Fn, x: nat, pos: int, r: nat)
    requires DefAt(f, x, pos, r)
    ensures x < |f.blocks|
  {}

  lemma ResultDefined(s: Site, r: nat)
    requires s.Valid() && s.Call().result == Some(r)
    ensures DefAt(s.caller, s.bi, s.k, r)
  {}

  lemma FreshIs(s: Site, i: nat, p: int, r0: nat)
    requires DefAt(s.callee, i, p, r0)
    ensures r0 in s.Renaming() && s.RemapDst(r0) == s.Renaming()[r0]
      && s.caller.nextReg <= s.RemapDst(r0) < s.caller.nextReg + |DefsOf(s.callee.blocks)|
  {
    DefinedIsRenamed(s, i, p, r0);
    RenumberIs(DefsOf(s.callee.blocks), s.caller.nextReg);
  }

  lemma FreshOnce(s: Site, i: nat, p: int, r: nat, i': nat, p': int, r': nat)
    requires SsaForm(s.callee) && DefAt(s.callee, i, p, r) && DefAt(s.callee, i', p', r')
      && s.RemapDst(r) == s.RemapDst(r')
    ensures i == i' && p == p'
  {
    FreshIs(s, i, p, r);
    FreshIs(s, i', p', r');
    RenamingIs(s);
    hide s.Renaming;
    hide s.RemapDst;
    DefinedOnce(s.callee, i, p, i', p', r);
  }

  lemma DefinedOnce(f: Fn, i: nat, p: int, j: nat, q: int, r: nat)
    requires SsaForm(f) && DefAt(f, i, p, r) && DefAt(f, j, q, r)
    ensures i == j && p == q
  {}

  lemma DefinedBelow(f: Fn, i: nat, p: int, r: nat)
    requires SsaForm(f) && DefAt(f, i, p, r)
    ensures r < f.nextReg
  {}

  lemma AptForms(s: Site)
    requires Apt(s)
    ensures SsaForm(s.caller) && SsaForm(s.callee) && Hears(s.caller) && Hears(s.callee)
  {}

  lemma InlinedOnce(s: Site, x: nat, pos: int, x': nat, pos': int, r: nat)
    requires Apt(s) && s.Valid() && s.callee.blocks != [] && DefAt(s.Inlined(), x, pos, r)
      && DefAt(s.Inlined(), x', pos', r)
    ensures x == x' && pos == pos'
  {
    var own, i, p := Origin(s, x, pos, r);
    var own', i', p' := Origin(s, x', pos', r);
    AptForms(s);
    hide Apt;
    hide s.Inlined;
    hide DefAt;
    hide SsaForm;
    hide s.RemapDst;
    if own { DefinedBelow(s.caller, i, p, r); }
    if own' { DefinedBelow(s.caller, i', p', r); }
    if own && own' {
      DefinedOnce(s.caller, i, p, i', p', r);
    } else {
      if !own {
        var r0: nat :| DefAt(s.callee, i, p, r0) && r == s.RemapDst(r0);
        FreshIs(s, i, p, r0);
        if !own' {
          var r1: nat :| DefAt(s.callee, i', p', r1) && r == s.RemapDst(r1);
          FreshOnce(s, i, p, r0, i', p', r1);
        }
      }
      if !own' {
        var r1: nat :| DefAt(s.callee, i', p', r1) && r == s.RemapDst(r1);
        FreshIs(s, i', p', r1);
      }
    }
  }

  lemma InlinedBelow(s: Site, x: nat, pos: int, r: nat)
    requires Apt(s) && s.Valid() && s.callee.blocks != [] && DefAt(s.Inlined(), x, pos, r)
    ensures r < s.Inlined().nextReg
  {
    var own, i, p := Origin(s, x, pos, r);
    AptForms(s);
    assert s.Inlined().nextReg == s.caller.nextReg + |DefsOf(s.callee.blocks)|;
    hide Apt;
    hide s.Inlined;
    hide DefAt;
    hide SsaForm;
    hide s.RemapDst;
    hide DefsOf;
    if own {
      DefinedBelow(s.caller, i, p, r);
    } else {
      var r0: nat :| DefAt(s.callee, i, p, r0) && r == s.RemapDst(r0);
      FreshIs(s, i, p, r0);
    }
  }

  lemma MovedDef(s: Site, i: nat, p: int, r: nat)
    requires Apt(s) && s.Valid() && s.callee.blocks != [] && DefAt(s.caller, i, p, r)
      && (s.Call().result == Some(r) ==> |s.AllReturns()| > 1)
    ensures DefAt(s.Inlined(), Moved(s, i, p).0, Moved(s, i, p).1, r)
  {
    InDef(s.caller, i, p, r);
    AptForms(s);
    hide Apt;
    hide s.Inlined;
    hide SsaForm;
    hide s.AllReturns;
    if i == s.bi && p >= s.k {
      SplitDefs(s, p - s.k - 1, r);
    } else {
      OldDefs(s, i, p, r);
    }
  }

  // ----- Definitions still come before uses -----

  /** Where a use at position `q` of block `i` of the caller is after inlining. */
  function MovedUse(s: Site, i: nat, q: int): (nat, int) {
    if i == s.bi && q > s.k then (|s.caller.blocks|, q - s.k - 1) else (i, q)
  }

  lemma IdOf(s: Site, x: nat)
    requires Apt(s) && s.Valid() && s.callee.blocks != [] && x <= |s.caller.blocks|
    ensures x < |s.Inlined().blocks| && s.Inlined().blocks[x].id == if x < |s.caller.blocks|
      then s.caller.blocks[x].id
      else s.SplitId()
  {
    Entered(s);
    IdAt(s, x);
  }

  lemma OldId(s: Site, i: nat)
    requires Apt(s) && s.Valid() && i < |s.caller.blocks|
    ensures s.caller.blocks[i].id < s.caller.nextBlock < s.SplitId()
      && (s.caller.blocks[i].id == SiteId(s) <==> i == s.bi)
  { AptIs(s); }

  lemma MovedBefore(s: Site, d: nat, p: int, i: nat, q: int)
    requires Apt(s) && s.Valid() && s.callee.blocks != [] && d < |s.caller.blocks| && i < |s.caller.blocks|
      && Before(s.caller, d, p, i, q)
    ensures var (x, y), (x', y') := Moved(s, d, p), MovedUse(s, i, q);
      x < |s.Inlined().blocks| && x' < |s.Inlined().blocks| && Before(s.Inlined(), x, y, x', y')
  {
    var n := |s.caller.blocks|;
    var e := s.caller.blocks[0].id;
    Entered(s);
    IdOf(s, n);
    IdOf(s, d);
    IdOf(s, i);
    OldId(s, d);
    OldId(s, i);
    OldId(s, s.bi);
    hide Apt;
    hide Dom;
    hide Cfg;
    hide s.Inlined;
    hide s.SplitId;
    if d != s.bi {
      if d != i {
        OldDominates(s, e, s.caller.blocks[d].id, s.caller.blocks[i].id);
        OldDominates(s, e, s.caller.blocks[d].id, if i == s.bi then s.SplitId() else s.caller.blocks[i].id);
      }
    } else if i == s.bi {
      ZoneDominated(s, e, s.SplitId());
    } else {
      SplitDominates(s, e, s.caller.blocks[i].id);
    }
  }
}
