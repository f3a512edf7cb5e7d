module InlineAccept {
  // Inlining calls that are reached, of callees that can return: what the check asks then (src/ir/ir_ipa.c:666-675).

  import opened Options
  import opened Ir
  import opened SsaIr
  import opened Graphs
  import opened Inlining
  import opened InlineStructure
  import opened InlinePaths
  import opened InlineForm
  import opened InlineUses
  import opened InlineSound
  import opened InlineReach
  import opened SsaCheck
  import opened InlineCheck

  // ----- What the check sees of an edited instruction -----

  lemma FirstGrows(rs: seq<nat>, more: seq<nat>)
    requires |more| <= 1
    ensures FirstSeen(rs + more) == if |rs| < MAX_SEEN then rs + more else FirstSeen(rs)
    ensures |rs| < MAX_SEEN ==> FirstSeen(rs) == rs
  {}

  function RegIn(v: Value): (rs: seq<nat>)
    ensures |rs| <= 1
  { if v.Reg? then [v.id] else [] }

  lemma RegsSnoc(vs: seq<Value>)
    requires vs != []
    ensures var n := |vs| - 1; RegsOf(vs) == RegsOf(vs[..n]) + RegIn(vs[n])
  {}

  /** Replacing a register that is not seen changes nothing that is seen. */
  lemma {:induction false} SubstRegs(s: Site, vs: seq<Value>)
    requires s.Valid() && s.Replaced()
    ensures var r, was, now := s.Call().result.value, RegsOf(vs), RegsOf(s.SubstAll(vs));
      (r !in was ==> now == was) && (r !in FirstSeen(was) ==> FirstSeen(now) == FirstSeen(was))
  {
    hide s.AllReturns;
    if vs != [] {
      var front, v := vs[..|vs|-1], vs[|vs|-1];
      SubstRegs(s, front);
      var all := s.SubstAll(vs);
      assert all[..|vs|-1] == s.SubstAll(front) && all[|vs|-1] == s.Subst(v);
      RegsSnoc(vs);
      RegsSnoc(all);
      hide RegsOf;
      FirstGrows(RegsOf(front), RegIn(v));
      FirstGrows(RegsOf(s.SubstAll(front)), RegIn(s.Subst(v)));
      SubstOne(s, RegsOf(front), RegsOf(s.SubstAll(front)), v);
    }
  }

  lemma SubstOne(s: Site, was: seq<nat>, now: seq<nat>, v: Value)
    requires s.Valid() && s.Replaced()
    requires var r := s.Call().result.value;
      (r !in was ==> now == was) && (r !in FirstSeen(was) ==> FirstSeen(now) == FirstSeen(was))
    ensures var r, was2, now2 := s.Call().result.value, was + RegIn(v), now + RegIn(s.Subst(v));
      (r !in was2 ==> now2 == was2) && (r !in FirstSeen(was2) ==> FirstSeen(now2) == FirstSeen(was2))
  {
    hide s.AllReturns;
    var r := s.Call().result.value;
    FirstGrows(was, RegIn(v));
    FirstGrows(now, RegIn(s.Subst(v)));
    if r !in RegIn(v) { assert s.Subst(v) == v; }
    if |was| < MAX_SEEN && r !in FirstSeen(was + RegIn(v)) {
      assert r !in was && r !in RegIn(v);
    }
  }

  lemma SubstOperands(s: Site, i: Inst)
    requires s.Valid()
    ensures Operands(s.SubstInst(i)) == s.SubstAll(Operands(i))
  { hide s.Subst; }

  lemma SubstNothing(s: Site, vs: seq<Value>)
    requires s.Valid() && !s.Replaced()
    ensures s.SubstAll(vs) == vs
  {}

  lemma SeenSubst(s: Site, i: Inst)
    requires s.Valid() && (s.Call().result.Some? ==> s.Call().result.value !in Seen(i))
    ensures Seen(s.SubstInst(i)) == Seen(i)
  {
    hide s.SubstInst;
    hide s.SubstAll;
    hide s.AllReturns;
    SubstOperands(s, i);
    if s.Replaced() { SubstRegs(s, Operands(i)); } else { SubstNothing(s, Operands(i)); }
  }

  lemma CopyOperands(s: Site, i: Inst)
    requires s.Valid()
    ensures Operands(s.CopyInst(i)) == if i.Ret? then [] else s.RemapAll(Operands(i))
  {
    hide s.Remap;
    hide s.RemapDst;
    hide s.CopyOf;
  }

  ghost predicate FromParam(s: Site, vs: seq<Value>, r: nat)
    requires s.Valid()
  { exists p: nat :: Param(p) in vs && s.Remap(Param(p)) == Reg(r) }

  ghost predicate FromReg(s: Site, rs: seq<nat>, r: nat)
    requires s.Valid()
  { exists r0: nat :: r0 in rs && s.Remap(Reg(r0)) == Reg(r) }

  lemma {:induction false} RemapRegs(s: Site, vs: seq<Value>, r: nat)
    requires s.Valid()
    ensures |RegsOf(vs)| <= |RegsOf(s.RemapAll(vs))|
    ensures r in FirstSeen(RegsOf(s.RemapAll(vs))) ==>
      FromParam(s, vs, r) || FromReg(s, FirstSeen(RegsOf(vs)), r)
  {
    hide *;
    if vs != [] {
      var front, v := vs[..|vs|-1], vs[|vs|-1];
      RemapRegs(s, front, r);
      RemapSnoc(s, vs);
      RegsSnoc(vs);
      RegsSnoc(s.RemapAll(vs));
      var was, now := RegsOf(front), RegsOf(s.RemapAll(front));
      FirstGrows(now, RegIn(s.Remap(v)));
      RegInMapped(s, v);
      if FromParam(s, front, r) {
        FromParamMore(s, vs, r);
      } else if FromReg(s, FirstSeen(was), r) {
        FromRegMore(s, was, RegIn(v), r);
      } else if r in FirstSeen(now + RegIn(s.Remap(v))) {
        LastMapped(s, v, r);
        FromLast(s, vs, was, r);
      }
    } else {
      NothingMapped(s, r);
    }
  }

  lemma NothingMapped(s: Site, r: nat)
    requires s.Valid()
    ensures |RegsOf([])| == 0 && r !in FirstSeen(RegsOf(s.RemapAll([])))
  {}

  lemma RemapSnoc(s: Site, vs: seq<Value>)
    requires s.Valid() && vs != []
    ensures var n, all := |vs| - 1, s.RemapAll(vs);
      |all| == n + 1 && all[..n] == s.RemapAll(vs[..n]) && all[n] == s.Remap(vs[n])
  { hide s.Remap; }

  lemma RegInMapped(s: Site, v: Value)
    requires s.Valid()
    ensures |RegIn(v)| <= |RegIn(s.Remap(v))|
  { hide s.Renaming; }

  lemma FromParamMore(s: Site, vs: seq<Value>, r: nat)
    requires s.Valid() && vs != [] && FromParam(s, vs[..|vs|-1], r)
    ensures FromParam(s, vs, r)
  {
    hide s.Remap;
    var p: nat :| Param(p) in vs[..|vs|-1] && s.Remap(Param(p)) == Reg(r);
    assert Param(p) in vs;
  }

  lemma FromLast(s: Site, vs: seq<Value>, was: seq<nat>, r: nat)
    requires s.Valid() && vs != [] && |was| < MAX_SEEN
    requires var v := vs[|vs|-1]; s.Remap(v) == Reg(r) && (v.Reg? || v.Param?)
    ensures FromParam(s, vs, r) || FromReg(s, FirstSeen(was + RegIn(vs[|vs|-1])), r)
  {
    hide s.Remap;
    var v := vs[|vs|-1];
    if v.Reg? { assert v.id in was + RegIn(v); } else { assert v in vs; }
  }

  lemma FromRegMore(s: Site, was: seq<nat>, more: seq<nat>, r: nat)
    requires s.Valid() && FromReg(s, FirstSeen(was), r) && |more| <= 1
    ensures FromReg(s, FirstSeen(was + more), r)
  {
    hide s.Remap;
    var r0: nat :| r0 in FirstSeen(was) && s.Remap(Reg(r0)) == Reg(r);
    assert r0 in FirstSeen(was + more);
  }

  lemma LastMapped(s: Site, v: Value, r: nat)
    requires s.Valid() && r in RegIn(s.Remap(v))
    ensures s.Remap(v) == Reg(r) && (v.Reg? || v.Param?)
  { hide s.Renaming; }

  // ----- Copies of blocks that cannot be reached -----

  lemma PlaceOf(f: Fn, i: nat, r: nat) returns (p: int)
    requires i < |f.blocks| && r in DefsIn(f.blocks[i])
    ensures DefAt(f, i, p, r)
  {
    DefinedIs(f, i, r);
    hide DefsIn;
    hide DefAt;
    p :| DefAt(f, i, p, r);
  }

  lemma DefinedAt(f: Fn, i: nat, p: int, r: nat)
    requires DefAt(f, i, p, r)
    ensures i < |f.blocks| && r in DefsIn(f.blocks[i])
  {
    InDef(f, i, p, r);
    DefinedIs(f, i, r);
    hide DefsIn;
    hide DefAt;
  }

  lemma CopyDefFrom(s: Site, j: nat, pos: int, r: nat) returns (r0: nat)
    requires s.Valid() && s.callee.blocks != [] && j < |s.callee.blocks|
      && DefAt(s.Inlined(), |s.caller.blocks| + 1 + j, pos, r)
    ensures DefAt(s.callee, j, pos, r0) && r == s.RemapDst(r0)
  {
    CopyDefs(s, j, pos, r);
    hide *;
    r0 :| DefAt(s.callee, j, pos, r0) && r == s.RemapDst(r0);
  }

  lemma CopyDefAs(s: Site, j: nat, pos: int, r0: nat)
    requires s.Valid() && s.callee.blocks != [] && j < |s.callee.blocks| && DefAt(s.callee, j, pos, r0)
    ensures DefAt(s.Inlined(), |s.caller.blocks| + 1 + j, pos, s.RemapDst(r0))
  {
    CopyDefs(s, j, pos, s.RemapDst(r0));
    hide *;
  }

  /** What a copy defines, the block copied defines under its own name. */
  lemma CopyDefinesFrom(s: Site, j: nat, r: nat) returns (r0: nat)
    requires s.Valid() && s.callee.blocks != [] && j < |s.callee.blocks| && r in DefsIn(s.SubstBlock(s.CopyBlock(j)))
    ensures r0 in DefsIn(s.callee.blocks[j]) && r == s.RemapDst(r0)
  {
    hide *;
    CopyHere(s, j);
    var p := PlaceOf(s.Inlined(), |s.caller.blocks| + 1 + j, r);
    r0 := CopyDefFrom(s, j, p, r);
    DefinedAt(s.callee, j, p, r0);
  }

  lemma CopyDefinesAs(s: Site, j: nat, r0: nat)
    requires s.Valid() && s.callee.blocks != [] && j < |s.callee.blocks| && r0 in DefsIn(s.callee.blocks[j])
    ensures s.RemapDst(r0) in DefsIn(s.SubstBlock(s.CopyBlock(j)))
  {
    hide *;
    CopyHere(s, j);
    var p := PlaceOf(s.callee, j, r0);
    CopyDefAs(s, j, p, r0);
    DefinedAt(s.Inlined(), |s.caller.blocks| + 1 + j, p, s.RemapDst(r0));
  }

  lemma FreshDefined(s: Site, j: nat, r0: nat)
    requires Apt(s) && s.Valid() && j < |s.callee.blocks| && r0 in DefsIn(s.callee.blocks[j])
    ensures s.RemapDst(r0) >= s.caller.nextReg && s.Remap(Reg(r0)) == Reg(s.RemapDst(r0))
  {
    DefinedIs(s.callee, j, r0);
    hide Apt;
    hide DefAt;
    hide s.Renaming;
    var p: int :| DefAt(s.callee, j, p, r0);
    FreshIs(s, j, p, r0);
  }

  lemma UnreachedDefines(f: Fn, j: nat, q: nat, r: nat)
    requires Checked(f) && Accepts(f) && j < |f.blocks| && !Reachable(f, f.blocks[j].id) && q < |f.blocks[j].insts|
      && r in Seen(f.blocks[j].insts[q])
    ensures r in DefsIn(f.blocks[j])
  {
    hide SsaForm;
    hide Known;
    hide Hears;
    hide SingleHomes;
    hide Seen;
    hide DefsIn;
    hide Reachable;
    hide DefinedAbove;
    assert UseAccepted(f, j, q, r);
    UnreachedUse(f, j, r);
  }

  lemma ResultBelow(s: Site)
    requires Apt(s) && s.Valid()
    ensures s.Call().result.Some? ==> s.Call().result.value < s.caller.nextReg
  {
    AptForms(s);
    hide Apt;
    hide SsaForm;
    if s.Call().result.Some? {
      ResultDefined(s, s.Call().result.value);
      DefinedBelow(s.caller, s.bi, s.k, s.Call().result.value);
    }
  }

  lemma ParamIsArg(s: Site, p: nat, r: nat)
    requires s.Valid() && s.Remap(Param(p)) == Reg(r)
    ensures Reg(r) in s.Call().args
  {}

  /** A use in the copy of a block that cannot be reached is of something the copy defines, unless it is of an
      argument. */
  lemma CopyUse(s: Site, j: nat, q: nat, r: nat)
    requires Apt(s) && s.Valid() && s.callee.blocks != [] && Accepts(s.callee) && SiteReached(s)
    requires j < |s.callee.blocks| && !Reachable(s.callee, s.callee.blocks[j].id) && q < |s.callee.blocks[j].insts|
      && r in Seen(s.CopyInst(s.callee.blocks[j].insts[q]))
    ensures s.Call().result != Some(r)
    ensures r in DefsIn(s.SubstBlock(s.CopyBlock(j))) <==> r >= s.caller.nextReg
  {
    var i := s.callee.blocks[j].insts[q];
    AptChecked(s);
    AptForms(s);
    SsaBlocks(s.caller);
    assert s.caller.blocks != [];
    hide *;
    ResultBelow(s);
    SeenCopy(s, i, r);
    if FromReg(s, Seen(i), r) {
      var r0 := RegOf(s, Seen(i), r);
      UnreachedDefines(s.callee, j, q, r0);
      FreshDefined(s, j, r0);
      CopyDefinesAs(s, j, r0);
    } else {
      ArgOf(s, Operands(i), r);
      ArgUse(s, Reg(r));
      if r in DefsIn(s.SubstBlock(s.CopyBlock(j))) {
        var r0 := CopyDefinesFrom(s, j, r);
        FreshDefined(s, j, r0);
      }
    }
  }

  lemma SeenCopy(s: Site, i: Inst, r: nat)
    requires s.Valid() && r in Seen(s.CopyInst(i))
    ensures FromParam(s, Operands(i), r) || FromReg(s, Seen(i), r)
  {
    CopyOperands(s, i);
    hide s.CopyInst;
    hide s.RemapAll;
    hide FromParam;
    hide FromReg;
    RemapRegs(s, Operands(i), r);
  }

  lemma RegOf(s: Site, rs: seq<nat>, r: nat) returns (r0: nat)
    requires s.Valid() && FromReg(s, rs, r)
    ensures r0 in rs && s.Remap(Reg(r0)) == Reg(r)
  { r0 :| r0 in rs && s.Remap(Reg(r0)) == Reg(r); }

  lemma ArgOf(s: Site, vs: seq<Value>, r: nat)
    requires s.Valid() && FromParam(s, vs, r)
    ensures Reg(r) in s.Call().args
  {
    var p: nat :| Param(p) in vs && s.Remap(Param(p)) == Reg(r);
    ParamIsArg(s, p, r);
  }

  /** The copy of block `j` of the callee reads no register of the caller. */
  predicate ReadsNoArgument(s: Site, j: nat)
    requires s.Valid() && j < |s.callee.blocks|
  {
    forall q, r :: 0 <= q < |s.callee.blocks[j].insts| && r in Seen(s.CopyInst(s.callee.blocks[j].insts[q])) ==>
      r >= s.caller.nextReg
  }

  lemma CopyContained(s: Site, j: nat)
    requires Apt(s) && s.Valid() && s.callee.blocks != [] && Accepts(s.callee) && SiteReached(s)
    requires j < |s.callee.blocks| && !Reachable(s.callee, s.callee.blocks[j].id)
    ensures SelfContained(s.SubstBlock(s.CopyBlock(j))) <==> ReadsNoArgument(s, j)
  {
    CopyInsts(s, j);
    hide Apt;
    hide Accepts;
    hide SiteReached;
    hide Reachable;
    hide s.SubstBlock;
    hide s.CopyBlock;
    hide s.CopyInst;
    hide s.SubstInst;
    hide Seen;
    hide DefsIn;
    var b, insts := s.SubstBlock(s.CopyBlock(j)), s.callee.blocks[j].insts;
    forall q | 0 <= q < |insts|
      ensures Seen(b.insts[q]) == Seen(s.CopyInst(insts[q]))
      ensures forall r :: r in Seen(b.insts[q]) ==> (r in DefsIn(b) <==> r >= s.caller.nextReg)
    {
      var i := s.CopyInst(insts[q]);
      forall r | r in Seen(i) ensures s.Call().result != Some(r) && (r in DefsIn(b) <==> r >= s.caller.nextReg) {
        CopyUse(s, j, q, r);
      }
      SeenSubst(s, i);
    }
  }

  // ----- Blocks of the caller that could not be reached -----

  lemma OldDefines(s: Site, i: nat, r: nat)
    requires s.Valid() && s.callee.blocks != [] && i < |s.caller.blocks| && i != s.bi && r in DefsIn(s.caller.blocks[i])
    ensures r in DefsIn(s.SubstBlock(s.OldBlock(i)))
  {
    hide *;
    OldAt(s, i);
    var p := PlaceOf(s.caller, i, r);
    OldDefs(s, i, p, r);
    DefinedAt(s.Inlined(), i, p, r);
  }

  lemma ResultElsewhere(s: Site, i: nat)
    requires Apt(s) && s.Valid() && i < |s.caller.blocks| && i != s.bi && s.Call().result.Some?
    ensures s.Call().result.value !in DefsIn(s.caller.blocks[i])
  {
    var r := s.Call().result.value;
    AptForms(s);
    ResultDefined(s, r);
    DefinedIs(s.caller, i, r);
    hide Apt;
    hide SsaForm;
    hide DefsIn;
    hide DefAt;
    if p: int :| DefAt(s.caller, i, p, r) { DefinedOnce(s.caller, i, p, s.bi, s.k, r); }
  }

  lemma OldContained(s: Site, i: nat)
    requires Apt(s) && s.Valid() && s.callee.blocks != [] && Accepts(s.caller) && i < |s.caller.blocks| && i != s.bi
      && s.caller.blocks != [] && !Reachable(s.caller, s.caller.blocks[i].id)
    ensures SelfContained(s.SubstBlock(s.OldBlock(i)))
  {
    OldInsts(s, i);
    AptChecked(s);
    hide Apt;
    hide Checked;
    hide Accepts;
    hide Reachable;
    hide s.SubstBlock;
    hide s.OldBlock;
    hide s.SubstInst;
    hide Seen;
    hide DefsIn;
    var b, insts := s.SubstBlock(s.OldBlock(i)), s.caller.blocks[i].insts;
    forall q, r | 0 <= q < |insts| && r in Seen(b.insts[q]) ensures r in DefsIn(b) {
      if s.Call().result.Some? {
        ResultElsewhere(s, i);
        if s.Call().result.value in Seen(insts[q]) {
          UnreachedDefines(s.caller, i, q, s.Call().result.value);
          assert false;
        }
      }
      SeenSubst(s, insts[q]);
      UnreachedDefines(s.caller, i, q, r);
      OldDefines(s, i, r);
    }
  }

  // ----- Calls that are reached -----

  /** Of a call that is reached, and a callee that can return, the check accepts the inlining exactly when no block of
      the callee that cannot be reached reads an argument passed in a register. */
  lemma ReachedCallAccepted(s: Site)
    requires Apt(s) && s.Valid() && s.callee.blocks != [] && Accepts(s.caller) && Accepts(s.callee)
    requires SiteReached(s) && CanReturn(s.callee)
    ensures Accepts(s.Inlined()) <==>
      forall j :: 0 <= j < |s.callee.blocks| && !Reachable(s.callee, s.callee.blocks[j].id) ==> ReadsNoArgument(s, j)
  {
    AcceptedExactlyWhen(s);
    hide Apt;
    hide Accepts;
    hide SelfContained;
    hide ReadsNoArgument;
    hide CanReturn;
    hide Reach;
    hide s.Inlined;
    hide s.SubstBlock;
    hide s.OldBlock;
    hide s.SplitBlock;
    hide s.CopyBlock;
    forall j | 0 <= j < |s.callee.blocks| && !Reachable(s.callee, s.callee.blocks[j].id)
      ensures SelfContained(s.SubstBlock(s.CopyBlock(j))) <==> ReadsNoArgument(s, j)
    {
      CopyContained(s, j);
    }
    forall i | 0 <= i < |s.caller.blocks| && !StillReached(s, i) ensures SelfContained(s.SubstBlock(s.OldBlock(i))) {
      OldContained(s, i);
    }
  }

  // ----- Callees that never return -----

  lemma NowhereDefined(s: Site, x: nat)
    requires Apt(s) && s.Valid() && s.callee.blocks != [] && s.Call().result.Some? && |s.AllReturns()| == 0
      && x < |s.Inlined().blocks|
    ensures s.Call().result.value !in DefsIn(s.Inlined().blocks[x])
  {
    var r := s.Call().result.value;
    hide *;
    if r in DefsIn(s.Inlined().blocks[x]) {
      var p := PlaceOf(s.Inlined(), x, r);
      ResultWithoutReturn(s, x, p);
    }
  }

  lemma SeenWhereMoved(s: Site, i: nat, q: nat)
    requires Apt(s) && s.Valid() && s.callee.blocks != [] && !s.Replaced()
    requires i < |s.caller.blocks| && q < |s.caller.blocks[i].insts| && !(i == s.bi && q == s.k)
    ensures var (x, y) := MovedUse(s, i, q);
      x < |s.Inlined().blocks| && 0 <= y < |s.Inlined().blocks[x].insts|
        && Seen(s.Inlined().blocks[x].insts[y]) == Seen(s.caller.blocks[i].insts[q])
  {
    var inst := s.caller.blocks[i].insts[q];
    OldAt(s, i);
    SplitAt(s);
    OldInsts(s, i);
    SplitInsts(s);
    SubstOperands(s, inst);
    SubstNothing(s, Operands(inst));
    hide Apt;
    hide s.Inlined;
    hide s.SubstBlock;
    hide s.OldBlock;
    hide s.SplitBlock;
    hide s.SubstInst;
    hide s.SubstAll;
    hide s.Replaced;
    hide FirstSeen;
    hide Operands;
    if i == s.bi && q > s.k {
      assert s.Block().insts[s.k + 1 + (q - s.k - 1)] == inst;
    }
  }

  lemma UseRefused(f: Fn, x: nat, y: nat, r: nat)
    requires Accepts(f) && x < |f.blocks| && y < |f.blocks[x].insts| && r in Seen(f.blocks[x].insts[y])
    ensures exists i :: 0 <= i < |f.blocks| && r in DefsIn(f.blocks[i])
  {
    hide Seen;
    hide DefsIn;
    hide SingleHomes;
    hide Hears;
    assert UseAccepted(f, x, y, r);
  }

  /** Where no return of the callee was noted, any use of the result, reached or not, makes the check reject the
      edit. */
  lemma ResultUsedRejected(s: Site, i: nat, q: nat)
    requires Apt(s) && s.Valid() && s.callee.blocks != [] && s.Call().result.Some? && |s.AllReturns()| == 0
    requires i < |s.caller.blocks| && q < |s.caller.blocks[i].insts| && !(i == s.bi && q == s.k)
      && s.Call().result.value in Seen(s.caller.blocks[i].insts[q])
    ensures !Accepts(s.Inlined())
  {
    assert !s.Replaced();
    hide *;
    SeenWhereMoved(s, i, q);
    var (x, y) := MovedUse(s, i, q);
    if Accepts(s.Inlined()) {
      UseRefused(s.Inlined(), x, y, s.Call().result.value);
      var z :| 0 <= z < |s.Inlined().blocks| && s.Call().result.value in DefsIn(s.Inlined().blocks[z]);
      NowhereDefined(s, z);
    }
  }
}
