// Inlining a call keeps static single assignment form: uses (src/ir/ir_ipa.c:428-664).

module InlineUses {
  import opened Options
  import opened Ir
  import opened SsaIr
  import opened Graphs
  import opened Dominators
  import opened Inlining
  import opened InlineStructure
  import opened InlinePaths
  import opened InlineForm
  import S = InlineSafety

  /** Value `v` may be used at position `q` of block `x`. */
  ghost predicate Fits(f: Fn, x: nat, q: int, v: Value)
    requires x < |f.blocks|
  { v.Reg? ==> UseOk(f, x, q, v.id) }

  lemma Later(f: Fn, x: nat, q: int, q': int, v: Value)
    requires x < |f.blocks| && Fits(f, x, q, v) && q <= q'
    ensures Fits(f, x, q', v)
  {
    hide BlockDom;
    if v.Reg? {
      var i: nat, pos: int :| DefAt(f, i, pos, v.id) && Before(f, i, pos, x, q);
      assert Before(f, i, pos, x, q');
    }
  }

  /** What may be used in a block may be used in the other blocks it dominates. */
  lemma Carry(f: Fn, y: nat, q: int, x: nat, q': int, v: Value)
    requires UniqueSsaIds(f.blocks) && y < |f.blocks| && x < |f.blocks| && y != x && Fits(f, y, q, v)
    requires BlockDom(f, f.blocks[y].id, f.blocks[x].id) && Reachable(f, f.blocks[x].id)
    ensures Fits(f, x, q', v)
  {
    hide Cfg;
    hide Dom;
    if v.Reg? {
      var i: nat, pos: int :| DefAt(f, i, pos, v.id) && Before(f, i, pos, y, q);
      InDef(f, i, pos, v.id);
      var g, e := Cfg(f), f.blocks[0].id;
      if i != y {
        DomTrans(g, e, f.blocks[i].id, f.blocks[y].id, f.blocks[x].id);
        if i == x { DomAntisymmetric(g, e, f.blocks[x].id, f.blocks[y].id); }
      }
      assert i != x;
      assert Before(f, i, pos, x, q');
    }
  }

  // ----- What can be reached could be reached before -----

  lemma ReachedBefore(s: Site, x: nat)
    requires Apt(s) && s.Valid() && s.callee.blocks != [] && s.Inlined().blocks != [] && Reachable(s.Inlined(), x)
    ensures s.caller.blocks != [] && Reachable(s.caller, Home(s, x))
  {
    Entered(s);
    hide Apt;
    hide Cfg;
    hide s.Inlined;
    var p :| Connects(NewCfg(s), p, s.caller.blocks[0].id, x);
    var q := Project(s, s.caller.blocks[0].id, p, x);
  }

  lemma ReachedInCallee(s: Site, j: nat)
    requires Apt(s) && s.Valid() && s.callee.blocks != [] && j < |s.callee.blocks| && s.Inlined().blocks != []
      && Reachable(s.Inlined(), s.CopyId(j))
    ensures Reachable(s.callee, s.callee.blocks[j].id)
  {
    Entered(s);
    hide Apt;
    hide Cfg;
    hide s.Inlined;
    var p :| Connects(NewCfg(s), p, s.caller.blocks[0].id, s.CopyId(j));
    var q := CopyPath(s, s.caller.blocks[0].id, p, j);
  }

  /** The split block is reached from a block that returns. */
  lemma SplitReached(s: Site) returns (j: nat)
    requires Apt(s) && s.Valid() && s.callee.blocks != [] && s.Inlined().blocks != []
      && Reachable(s.Inlined(), s.SplitId())
    ensures j < |s.callee.blocks| && ReturnsAtEnd(s.callee.blocks[j]) && Reachable(s.Inlined(), s.CopyId(j))
  {
    Entered(s);
    hide Apt;
    hide Cfg;
    hide s.Inlined;
    var e := s.caller.blocks[0].id;
    var p :| Connects(NewCfg(s), p, e, s.SplitId());
    assert Edge(NewCfg(s), p[|p|-2], p[|p|-1]);
    Suffix(NewCfg(s), p, e, s.SplitId(), |p| - 2);
    IntoSplit(s, p[|p|-2]);
    j :| 0 <= j < |s.callee.blocks| && p[|p|-2] == s.CopyId(j) && ReturnsAtEnd(s.callee.blocks[j]);
  }

  // ----- Values of the caller -----

  /** What the caller may use it may still use, unless it is a result no phi stands for. */
  lemma OldFits(s: Site, i: nat, q: int, v: Value)
    requires Apt(s) && s.Valid() && s.callee.blocks != [] && i < |s.caller.blocks| && Fits(s.caller, i, q, v)
    requires v.Reg? && s.Call().result == Some(v.id) ==> |s.AllReturns()| > 1
    ensures var (x, y) := MovedUse(s, i, q); x < |s.Inlined().blocks| && Fits(s.Inlined(), x, y, v)
  {
    IdOf(s, if i == s.bi && q > s.k then |s.caller.blocks| else i);
    hide Apt;
    hide s.Inlined;
    hide s.AllReturns;
    hide DefAt;
    hide Before;
    if v.Reg? {
      var d: nat, p: int :| DefAt(s.caller, d, p, v.id) && Before(s.caller, d, p, i, q);
      InDef(s.caller, d, p, v.id);
      MovedDef(s, d, p, v.id);
      MovedBefore(s, d, p, i, q);
    }
  }

  lemma BlocksOf(s: Site)
    requires Apt(s) && s.Valid() && s.callee.blocks != []
    ensures UniqueSsaIds(s.Inlined().blocks)
  {
    AptIs(s);
    hide *;
    ReadyIs(s);
    InlinedIds(s);
  }

  lemma ArgUse(s: Site, a: Value)
    requires Apt(s) && s.Valid() && s.caller.blocks != [] && a in s.Call().args && Reachable(s.caller, SiteId(s))
    ensures Fits(s.caller, s.bi, s.k, a)
    ensures a.Reg? ==> a.id < s.caller.nextReg && s.Call().result != Some(a.id)
  {
    AptForms(s);
    hide Apt;
    hide s.AllReturns;
    hide Cfg;
    if a.Reg? {
      assert a in Operands(s.Call()) && a.id in UsedRegs(s.Call());
      assert UseOk(s.caller, s.bi, s.k, a.id);
      var d: nat, p: int :| DefAt(s.caller, d, p, a.id) && Before(s.caller, d, p, s.bi, s.k);
      if s.Call().result == Some(a.id) {
        ResultDefined(s, a.id);
        DefinedOnce(s.caller, d, p, s.bi, s.k, a.id);
      }
    }
  }

  /** Arguments may be used anywhere in the split block and the copies. */
  lemma ArgFits(s: Site, a: Value, x: nat)
    requires Apt(s) && s.Valid() && s.callee.blocks != [] && a in s.Call().args
      && |s.caller.blocks| <= x < |s.Inlined().blocks|
    requires Reachable(s.Inlined(), s.Inlined().blocks[x].id)
    ensures Fits(s.Inlined(), x, 0, a) && s.Subst(a) == a
  {
    Entered(s);
    IdAt(s, x);
    ReachedBefore(s, s.Inlined().blocks[x].id);
    NewIds(s, x);
    hide Apt;
    hide s.Inlined;
    hide s.AllReturns;
    hide Fits;
    hide Reachable;
    hide Dom;
    hide Cfg;
    ArgUse(s, a);
    Unresulting(s, s.bi, s.k, a);
    OldId(s, s.bi);
    IdOf(s, s.bi);
    ZoneDominated(s, s.caller.blocks[0].id, s.Inlined().blocks[x].id);
    BlocksOf(s);
    Carry(s.Inlined(), s.bi, s.k, x, 0, a);
  }

  lemma NewIds(s: Site, x: nat)
    requires s.Valid() && s.callee.blocks != [] && |s.caller.blocks| <= x < |s.Inlined().blocks|
    ensures s.Inlined().blocks[x].id >= s.caller.nextBlock
  { IdAt(s, x); }

  lemma Unresulting(s: Site, i: nat, q: int, v: Value)
    requires Apt(s) && s.Valid() && s.callee.blocks != [] && i < |s.caller.blocks| && Fits(s.caller, i, q, v)
    requires v.Reg? ==> s.Call().result != Some(v.id)
    ensures var (x, y) := MovedUse(s, i, q); x < |s.Inlined().blocks| && Fits(s.Inlined(), x, y, v)
    ensures s.Subst(v) == v
  {
    OldFits(s, i, q, v);
    hide Apt;
    hide s.Inlined;
    hide s.AllReturns;
    hide Fits;
  }

  // ----- Values of the callee -----

  /** What the callee may use, its copy may use. */
  lemma CopyFits(s: Site, j: nat, q: int, v: Value)
    requires Apt(s) && s.Valid() && s.callee.blocks != [] && j < |s.callee.blocks| && q >= 0 && Fits(s.callee, j, q, v)
    requires s.Inlined().blocks != [] && Reachable(s.Inlined(), s.CopyId(j))
    ensures var x := |s.caller.blocks| + 1 + j; x < |s.Inlined().blocks| && Fits(s.Inlined(), x, q, s.Remap(v))
    ensures s.Subst(s.Remap(v)) == s.Remap(v)
  {
    hide *;
    CopyIdAt(s, j);
    match v {
      case Reg(r) =>
        FitsUse(s.callee, j, q, r);
        CopyRegFits(s, j, q, r);
      case Param(p) => CopyParamFits(s, j, q, p);
      case _ => CopyPlainFits(s, j, q, v);
    }
  }

  lemma FitsUse(f: Fn, j: nat, q: int, r: nat)
    requires j < |f.blocks| && Fits(f, j, q, Reg(r))
    ensures UseOk(f, j, q, r)
  {}

  /** A parameter is replaced by an argument of the call. */
  lemma CopyParamFits(s: Site, j: nat, q: int, p: nat)
    requires Apt(s) && s.Valid() && s.callee.blocks != [] && j < |s.callee.blocks| && q >= 0
    requires s.Inlined().blocks != [] && Reachable(s.Inlined(), s.CopyId(j))
    ensures var x := |s.caller.blocks| + 1 + j; x < |s.Inlined().blocks| && Fits(s.Inlined(), x, q, s.Remap(Param(p)))
    ensures s.Subst(s.Remap(Param(p))) == s.Remap(Param(p))
  {
    var x := |s.caller.blocks| + 1 + j;
    hide *;
    CopyIdAt(s, j);
    AptArgs(s);
    if p < s.callee.params {
      var a := Argument(s, p);
      ArgFits(s, a, x);
      Later(s.Inlined(), x, 0, q, a);
    } else {
      CopyPlainFits(s, j, q, Param(p));
    }
  }

  lemma Argument(s: Site, p: nat) returns (a: Value)
    requires s.Valid() && p < s.callee.params == |s.Call().args|
    ensures a in s.Call().args && s.Remap(Param(p)) == a
  { a := s.Call().args[p]; }

  /** Everything but registers and parameters of the callee is copied as it is. */
  lemma CopyPlainFits(s: Site, j: nat, q: int, v: Value)
    requires s.Valid() && s.callee.blocks != [] && j < |s.callee.blocks|
    requires !v.Reg? && (v.Param? ==> v.idx >= s.callee.params)
    ensures var x := |s.caller.blocks| + 1 + j; x < |s.Inlined().blocks| && Fits(s.Inlined(), x, q, s.Remap(v))
    ensures s.Subst(s.Remap(v)) == s.Remap(v)
  {
    CopyIdAt(s, j);
    hide s.Inlined;
    hide s.AllReturns;
    hide s.Renaming;
    hide s.CopyId;
  }

  lemma AptArgs(s: Site)
    requires Apt(s) && s.Valid()
    ensures |s.Call().args| == s.callee.params && |s.Returns(|s.callee.blocks|)| <= MAX_RETURNS
      && s.AllReturns() == s.Returns(|s.callee.blocks|)
  {}

  lemma CopyRegFits(s: Site, j: nat, q: int, r: nat)
    requires Apt(s) && s.Valid() && s.callee.blocks != [] && j < |s.callee.blocks| && UseOk(s.callee, j, q, r)
    ensures var x := |s.caller.blocks| + 1 + j; x < |s.Inlined().blocks| && Fits(s.Inlined(), x, q, s.Remap(Reg(r)))
    ensures s.Subst(s.Remap(Reg(r))) == s.Remap(Reg(r))
  {
    hide *;
    var i, p := DefOfUse(s.callee, j, q, r);
    CopyDefAt(s, i, p, r);
    FreshIs(s, i, p, r);
    CopyBefore(s, i, p, j, q);
    FreshStays(s, r);
    UseIs(s.Inlined(), |s.caller.blocks| + 1 + i, p, |s.caller.blocks| + 1 + j, q, s.RemapDst(r));
    FitsIs(s.Inlined(), |s.caller.blocks| + 1 + j, q, s.RemapDst(r));
  }

  lemma DefOfUse(f: Fn, j: nat, q: int, r: nat) returns (i: nat, p: int)
    requires j < |f.blocks| && UseOk(f, j, q, r)
    ensures i < |f.blocks| && DefAt(f, i, p, r) && Before(f, i, p, j, q)
  { i, p :| DefAt(f, i, p, r) && Before(f, i, p, j, q); }

  lemma CopyDefAt(s: Site, i: nat, p: int, r: nat)
    requires s.Valid() && s.callee.blocks != [] && DefAt(s.callee, i, p, r)
    ensures i < |s.callee.blocks| && DefAt(s.Inlined(), |s.caller.blocks| + 1 + i, p, s.RemapDst(r))
  {
    InDef(s.callee, i, p, r);
    CopyDefs(s, i, p, s.RemapDst(r));
    hide *;
  }

  lemma FitsIs(f: Fn, j: nat, q: int, r: nat)
    requires j < |f.blocks| && UseOk(f, j, q, r)
    ensures Fits(f, j, q, Reg(r))
  {}

  lemma UseIs(f: Fn, i: nat, p: int, j: nat, q: int, r: nat)
    requires i < |f.blocks| && j < |f.blocks| && DefAt(f, i, p, r) && Before(f, i, p, j, q)
    ensures UseOk(f, j, q, r)
  {}

  lemma FreshStays(s: Site, r: nat)
    requires Apt(s) && s.Valid() && r in s.Renaming() && s.RemapDst(r) == s.Renaming()[r] >= s.caller.nextReg
    ensures s.Remap(Reg(r)) == Reg(s.RemapDst(r)) && s.Subst(s.Remap(Reg(r))) == s.Remap(Reg(r))
  {
    if s.Call().result.Some? {
      AptForms(s);
      ResultDefined(s, s.Call().result.value);
      DefinedBelow(s.caller, s.bi, s.k, s.Call().result.value);
    }
    hide Apt;
    hide s.AllReturns;
    hide SsaForm;
    hide s.Renaming;
  }

  lemma CopyIdAt(s: Site, j: nat)
    requires s.Valid() && s.callee.blocks != [] && j < |s.callee.blocks|
    ensures var x := |s.caller.blocks| + 1 + j; x < |s.Inlined().blocks| && s.Inlined().blocks[x].id == s.CopyId(j)
  {
    InlinedBlocks(s);
    hide *;
  }

  lemma CopyBefore(s: Site, i: nat, p: int, j: nat, q: int)
    requires Apt(s) && s.Valid() && s.callee.blocks != [] && i < |s.callee.blocks| && j < |s.callee.blocks|
      && Before(s.callee, i, p, j, q)
    ensures var n := |s.caller.blocks|;
      n + 1 + i < |s.Inlined().blocks| && n + 1 + j < |s.Inlined().blocks|
        && Before(s.Inlined(), n + 1 + i, p, n + 1 + j, q)
  {
    Entered(s);
    CopyIdAt(s, i);
    CopyIdAt(s, j);
    hide Apt;
    hide s.Inlined;
    hide s.CopyId;
    hide Dom;
    hide Cfg;
    if i != j { CopyDominates(s, s.caller.blocks[0].id, i, j); }
  }

  // ----- Returned values -----

  /** A block that returns, as item `k` of the list of returns. */
  ghost predicate Item(s: Site, list: seq<(nat, Value)>, k: nat, j: nat)
    requires s.Valid()
  {
    && k < |list| && j < |s.callee.blocks| && ReturnsAtEnd(s.callee.blocks[j])
    && list[k] == (s.CopyId(j), S.ReturnValue(s, j))
  }

  lemma {:induction false} ReturnsFrom(s: Site, n: nat, k: nat) returns (j: nat)
    requires Ready(s) && s.Valid() && n <= |s.callee.blocks| && k < |s.Returns(n)|
    ensures j < n && Item(s, s.Returns(n), k, j)
  {
    hide Ready;
    hide S.ReturnValue;
    hide s.ReturnsIn;
    var front := s.Returns(n - 1);
    if k < |front| {
      j := ReturnsFrom(s, n - 1, k);
    } else {
      S.BlockReturns(s, n - 1);
      j := n - 1;
    }
  }

  lemma {:induction false} ReturnsWith(s: Site, n: nat, j: nat) returns (k: nat)
    requires Ready(s) && s.Valid() && j < n <= |s.callee.blocks| && ReturnsAtEnd(s.callee.blocks[j])
    ensures Item(s, s.Returns(n), k, j)
  {
    hide Ready;
    hide S.ReturnValue;
    hide s.ReturnsIn;
    S.BlockReturns(s, n - 1);
    if j < n - 1 { k := ReturnsWith(s, n - 1, j); } else { k := |s.Returns(n - 1)|; }
  }

  /** A lone return is from the only block that returns. */
  lemma LoneReturn(s: Site, j: nat)
    requires Apt(s) && s.Valid() && j < |s.callee.blocks| && ReturnsAtEnd(s.callee.blocks[j]) && |s.AllReturns()| <= 1
    ensures |s.AllReturns()| == 1 && s.AllReturns()[0] == (s.CopyId(j), S.ReturnValue(s, j))
    ensures forall i :: 0 <= i < |s.callee.blocks| && ReturnsAtEnd(s.callee.blocks[i]) ==> i == j
  {
    AptIs(s);
    AptArgs(s);
    hide Apt;
    hide Ready;
    hide s.Returns;
    hide S.ReturnValue;
    var k := ReturnsWith(s, |s.callee.blocks|, j);
    forall i | 0 <= i < |s.callee.blocks| && ReturnsAtEnd(s.callee.blocks[i]) ensures i == j {
      var l := ReturnsWith(s, |s.callee.blocks|, i);
    }
  }

  /** What a block returns may be used at the end of its copy. */
  lemma ReturnFits(s: Site, j: nat)
    requires Apt(s) && s.Valid() && s.callee.blocks != [] && j < |s.callee.blocks| && ReturnsAtEnd(s.callee.blocks[j])
    requires s.Inlined().blocks != [] && Reachable(s.Inlined(), s.CopyId(j))
    ensures var x := |s.caller.blocks| + 1 + j;
      x < |s.Inlined().blocks| && Fits(s.Inlined(), x, |s.callee.blocks[j].insts| - 1, S.ReturnValue(s, j))
    ensures s.Subst(S.ReturnValue(s, j)) == S.ReturnValue(s, j)
  {
    var q := |s.callee.blocks[j].insts| - 1;
    var i := s.callee.blocks[j].insts[q];
    CopyIdAt(s, j);
    ReachedInCallee(s, j);
    AptForms(s);
    hide Apt;
    hide s.Inlined;
    hide Reachable;
    hide s.AllReturns;
    hide s.Remap;
    if i.val.Some? {
      var v := i.val.value;
      if v.Reg? { UsedFits(s.callee, j, q, v); }
      CopyFits(s, j, q, v);
    }
  }

  /** What is used where it can be reached may be used there. */
  lemma UsedFits(f: Fn, j: nat, q: nat, v: Value)
    requires SsaForm(f) && j < |f.blocks| && q < |f.blocks[j].insts| && v in Operands(f.blocks[j].insts[q])
      && Reachable(f, f.blocks[j].id)
    ensures Fits(f, j, q, v)
  {
    hide Reachable;
    hide UseOk;
    if v.Reg? { assert v.id in UsedRegs(f.blocks[j].insts[q]); }
  }

  // ----- The result -----

  /** The value that stands for the result may be used from the split block on. */
  lemma FinalFits(s: Site)
    requires Apt(s) && s.Valid() && s.callee.blocks != [] && s.Inlined().blocks != []
      && Reachable(s.Inlined(), s.SplitId()) && |s.AllReturns()| <= 1
    ensures |s.AllReturns()| == 1 && |s.caller.blocks| < |s.Inlined().blocks|
      && Fits(s.Inlined(), |s.caller.blocks|, 0, s.AllReturns()[0].1)
  {
    hide *;
    var j := SplitReached(s);
    LoneReturn(s, j);
    ReturnFits(s, j);
    Entered(s);
    IdOf(s, |s.caller.blocks|);
    CopyIdAt(s, j);
    ReturnDominates(s, s.caller.blocks[0].id, j);
    BlocksOf(s);
    DomNow(s, s.CopyId(j), s.SplitId());
    Carry(s.Inlined(), |s.caller.blocks| + 1 + j, |s.callee.blocks[j].insts| - 1, |s.caller.blocks|, 0,
      S.ReturnValue(s, j));
  }

  lemma DomNow(s: Site, a: nat, b: nat)
    requires Apt(s) && s.Valid() && s.callee.blocks != [] && s.caller.blocks != []
      && Dom(NewCfg(s), s.caller.blocks[0].id, a, b)
    ensures s.Inlined().blocks != [] && BlockDom(s.Inlined(), a, b)
  {
    Entered(s);
    hide Apt;
    hide s.Inlined;
    hide Dom;
    hide Cfg;
  }

  /** Wherever the caller may use the result it may use what stands for it now. */
  lemma ResultFits(s: Site, i: nat, q: int, r: nat)
    requires Apt(s) && s.Valid() && s.callee.blocks != [] && i < |s.caller.blocks| && s.Call().result == Some(r)
      && |s.AllReturns()| <= 1
    requires UseOk(s.caller, i, q, r)
    requires var x := MovedUse(s, i, q).0; x < |s.Inlined().blocks| && Reachable(s.Inlined(), s.Inlined().blocks[x].id)
    ensures var (x, y) := MovedUse(s, i, q); Fits(s.Inlined(), x, y, s.Subst(Reg(r)))
  {
    hide *;
    var n, f := |s.caller.blocks|, s.Inlined();
    UseOfResult(s, i, q, r);
    Entered(s);
    IdOf(s, n);
    IdOf(s, i);
    if i == s.bi {
      MovedPast(s, i, q);
      FinalFits(s);
      SubstResult(s, r);
      Later(f, n, 0, q - s.k - 1, s.Subst(Reg(r)));
    } else {
      OldId(s, i);
      MovedPast(s, i, q);
      OutsideZone(s, i);
      SplitDominates(s, s.caller.blocks[0].id, s.caller.blocks[i].id);
      SplitAlso(s, s.caller.blocks[i].id);
      FinalFits(s);
      SubstResult(s, r);
      BlocksOf(s);
      DomNow(s, s.SplitId(), s.caller.blocks[i].id);
      Carry(f, n, 0, i, q, s.Subst(Reg(r)));
    }
  }

  lemma OutsideZone(s: Site, i: nat)
    requires Apt(s) && s.Valid() && i < |s.caller.blocks| && i != s.bi
    ensures !Zone(s, s.caller.blocks[i].id)
  { OldId(s, i); }

  lemma MovedPast(s: Site, i: nat, q: int)
    ensures MovedUse(s, i, q) == if i == s.bi && q > s.k then (|s.caller.blocks|, q - s.k - 1) else (i, q)
  {}

  lemma SplitAlso(s: Site, x: nat)
    requires Apt(s) && s.Valid() && s.callee.blocks != [] && s.caller.blocks != [] && s.Inlined().blocks != []
    requires Reachable(s.Inlined(), x) && Dom(NewCfg(s), s.caller.blocks[0].id, s.SplitId(), x)
    ensures Reachable(s.Inlined(), s.SplitId())
  {
    Entered(s);
    hide Apt;
    hide s.Inlined;
    hide Dom;
    hide Cfg;
    DomReachable(NewCfg(s), s.caller.blocks[0].id, s.SplitId(), x);
  }

  lemma UseOfResult(s: Site, i: nat, q: int, r: nat)
    requires Apt(s) && s.Valid() && i < |s.caller.blocks| && s.Call().result == Some(r) && UseOk(s.caller, i, q, r)
    ensures s.caller.blocks != [] && if i == s.bi
      then q > s.k
      else Dom(OldCfg(s), s.caller.blocks[0].id, SiteId(s), s.caller.blocks[i].id)
  {
    AptForms(s);
    var d, p := DefOfUse(s.caller, i, q, r);
    ResultDefined(s, r);
    DefinedOnce(s.caller, d, p, s.bi, s.k, r);
    hide Apt;
    hide SsaForm;
    hide Dom;
    hide Cfg;
  }

  lemma SubstResult(s: Site, r: nat)
    requires s.Valid() && s.Call().result == Some(r) && |s.AllReturns()| == 1
    ensures s.Subst(Reg(r)) == s.AllReturns()[0].1
  {}

  /** Whatever the caller may use, it may use what stands for it at the same place. */
  lemma UseMoved(s: Site, i: nat, q: int, v: Value)
    requires Apt(s) && s.Valid() && s.callee.blocks != [] && i < |s.caller.blocks| && Fits(s.caller, i, q, v)
    requires var x := MovedUse(s, i, q).0; x < |s.Inlined().blocks| && Reachable(s.Inlined(), s.Inlined().blocks[x].id)
    ensures var (x, y) := MovedUse(s, i, q); Fits(s.Inlined(), x, y, s.Subst(v))
  {
    hide Apt;
    hide s.Inlined;
    hide s.AllReturns;
    hide Reachable;
    hide UseOk;
    if v.Reg? && s.Call().result == Some(v.id) && |s.AllReturns()| <= 1 {
      ResultFits(s, i, q, v.id);
    } else {
      OldFits(s, i, q, v);
    }
  }
}
