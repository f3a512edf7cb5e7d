module InlineCheck {
  // When the check that follows inlining a call accepts the function, exactly (src/ir/ir_ipa.c:666-675).

  import opened Options
  import opened Ir
  import opened SsaIr
  import opened Graphs
  import opened Dominators
  import opened Inlining
  import opened InlineStructure
  import opened InlinePaths
  import opened InlineForm
  import opened InlineUses
  import opened InlineSound
  import opened InlineReach
  import opened SsaCheck

  /** No piece of the edited caller that cannot be reached uses what another piece defines: neither blocks of the caller
      that could not be reached, or not without coming back from the call; nor what follows the call; nor copies. Which
      pieces those are is known from caller and callee. */
  ghost predicate StaysTogether(s: Site)
    requires s.Valid() && s.callee.blocks != []
  {
    && (forall i :: 0 <= i < |s.caller.blocks| && !StillReached(s, i) ==> SelfContained(s.SubstBlock(s.OldBlock(i))))
    && (!(SiteReached(s) && CanReturn(s.callee)) ==> SelfContained(s.SubstBlock(s.SplitBlock())))
    && forall j :: 0 <= j < |s.callee.blocks| && !(SiteReached(s) && Reachable(s.callee, s.callee.blocks[j].id)) ==>
         SelfContained(s.SubstBlock(s.CopyBlock(j)))
  }

  // ----- Phis -----

  lemma AcceptedPhis(f: Fn)
    requires Checked(f) && SingleHomes(f)
    ensures PhisApart(f)
  {
    hide UsesFollow;
    hide PhisFollow;
    hide Blocks;
    hide Known;
    hide Hears;
    forall i, x, y | 0 <= i < |f.blocks| && 0 <= x < y < |f.blocks[i].phis|
      ensures f.blocks[i].phis[x].dst != f.blocks[i].phis[y].dst
    {
      var defs, r := DefsIn(f.blocks[i]), f.blocks[i].phis[x].dst;
      assert Apart(defs, Limit(f)) && defs[x] == r && defs[y] == f.blocks[i].phis[y].dst;
      assert DefAt(f, i, -1, r);
    }
  }

  lemma ApartAt(f: Fn, i: nat, x: nat, y: nat)
    requires PhisApart(f) && i < |f.blocks| && x < y < |f.blocks[i].phis|
    ensures f.blocks[i].phis[x].dst != f.blocks[i].phis[y].dst
  {}

  lemma OldPhisApart(s: Site, i: nat, x: nat, y: nat)
    requires s.Valid() && s.callee.blocks != [] && PhisApart(s.caller) && i < |s.caller.blocks|
    requires x < y < |s.SubstBlock(s.OldBlock(i)).phis|
    ensures var phis := s.SubstBlock(s.OldBlock(i)).phis; phis[x].dst != phis[y].dst
  {
    OldPhiDefs(s, i);
    var phis, was := s.SubstBlock(s.OldBlock(i)).phis, s.caller.blocks[i].phis;
    hide s.SubstBlock;
    hide s.OldBlock;
    hide PhisApart;
    assert PhiDefs(phis)[x] == PhiDefs(was)[x] && PhiDefs(phis)[y] == PhiDefs(was)[y];
    ApartAt(s.caller, i, x, y);
  }

  lemma CopyPhisApart(s: Site, j: nat, x: nat, y: nat)
    requires s.Valid() && PhisApart(s.callee) && j < |s.callee.blocks|
    requires x < y < |s.SubstBlock(s.CopyBlock(j)).phis|
    ensures var phis := s.SubstBlock(s.CopyBlock(j)).phis; phis[x].dst != phis[y].dst
  {
    var was := s.callee.blocks[j].phis;
    assert |s.SubstBlock(s.CopyBlock(j)).phis| == |was| by { hide s.SubstInsts; hide s.CopyInsts; }
    CopyPhi(s, j, x);
    CopyPhi(s, j, y);
    ApartAt(s.callee, j, x, y);
    assert DefAt(s.callee, j, -1, was[x].dst) && DefAt(s.callee, j, -1, was[y].dst) by {
      assert PhiDefs(was)[x] == was[x].dst && PhiDefs(was)[y] == was[y].dst;
    }
    hide s.SubstBlock;
    hide s.CopyBlock;
    hide PhisApart;
    FreshIs(s, j, -1, was[x].dst);
    FreshIs(s, j, -1, was[y].dst);
    RenamingIs(s);
    hide s.Renaming;
    hide s.RemapDst;
  }

  lemma PiecePhisApart(s: Site, i: nat, x: nat, y: nat)
    requires Apt(s) && s.Valid() && s.callee.blocks != [] && PhisApart(s.caller) && PhisApart(s.callee)
    requires i < |s.Inlined().blocks| && x < y < |s.Inlined().blocks[i].phis|
    ensures s.Inlined().blocks[i].phis[x].dst != s.Inlined().blocks[i].phis[y].dst
  {
    hide *;
    Entered(s);
    var n := |s.caller.blocks|;
    if i < n {
      OldAt(s, i);
      OldPhisApart(s, i, x, y);
    } else if i == n {
      SplitAt(s);
      SplitPhi(s);
      assert false;
    } else {
      CopyHere(s, i - n - 1);
      CopyPhisApart(s, i - n - 1, x, y);
    }
  }

  lemma InlinedPhisApart(s: Site)
    requires Apt(s) && s.Valid() && s.callee.blocks != [] && PhisApart(s.caller) && PhisApart(s.callee)
    ensures PhisApart(s.Inlined())
  {
    hide Apt;
    hide s.Inlined;
    var f := s.Inlined();
    forall i: nat, x: nat, y: nat | i < |f.blocks| && x < y < |f.blocks[i].phis|
      ensures f.blocks[i].phis[x].dst != f.blocks[i].phis[y].dst
    {
      PiecePhisApart(s, i, x, y);
    }
  }

  // ----- The condition -----

  lemma TogetherOld(s: Site, i: nat)
    requires s.Valid() && s.callee.blocks != [] && StaysTogether(s) && i < |s.caller.blocks| && !StillReached(s, i)
    ensures SelfContained(s.SubstBlock(s.OldBlock(i)))
  {}

  lemma TogetherSplit(s: Site)
    requires s.Valid() && s.callee.blocks != [] && StaysTogether(s) && !(SiteReached(s) && CanReturn(s.callee))
    ensures SelfContained(s.SubstBlock(s.SplitBlock()))
  {}

  lemma TogetherCopy(s: Site, j: nat)
    requires s.Valid() && s.callee.blocks != [] && StaysTogether(s) && j < |s.callee.blocks|
      && !(SiteReached(s) && Reachable(s.callee, s.callee.blocks[j].id))
    ensures SelfContained(s.SubstBlock(s.CopyBlock(j)))
  {}

  lemma PieceReached(s: Site, x: nat)
    requires Apt(s) && s.Valid() && s.callee.blocks != [] && x < |s.Inlined().blocks| && s.Inlined().blocks != []
      && StaysTogether(s) && !Reachable(s.Inlined(), s.Inlined().blocks[x].id)
    ensures SelfContained(s.Inlined().blocks[x])
  {
    hide *;
    ReachedExactly(s, x);
    var n := |s.caller.blocks|;
    if x < n {
      OldAt(s, x);
      TogetherOld(s, x);
    } else if x == n {
      SplitAt(s);
      TogetherSplit(s);
    } else {
      CopyHere(s, x - n - 1);
      TogetherCopy(s, x - n - 1);
    }
  }

  lemma ContainedAt(f: Fn, x: nat)
    requires f.blocks != [] && UnreachedSelfContained(f) && x < |f.blocks| && !Reachable(f, f.blocks[x].id)
    ensures SelfContained(f.blocks[x])
  {}

  lemma OldPiece(s: Site, i: nat)
    requires Apt(s) && s.Valid() && s.callee.blocks != [] && s.Inlined().blocks != []
      && UnreachedSelfContained(s.Inlined())
    requires i < |s.caller.blocks| && !StillReached(s, i)
    ensures SelfContained(s.SubstBlock(s.OldBlock(i)))
  {
    hide *;
    OldAt(s, i);
    ReachedExactly(s, i);
    ContainedAt(s.Inlined(), i);
  }

  lemma SplitPiece(s: Site)
    requires Apt(s) && s.Valid() && s.callee.blocks != [] && s.Inlined().blocks != []
      && UnreachedSelfContained(s.Inlined())
    requires !(SiteReached(s) && CanReturn(s.callee))
    ensures SelfContained(s.SubstBlock(s.SplitBlock()))
  {
    hide *;
    SplitAt(s);
    ReachedExactly(s, |s.caller.blocks|);
    ContainedAt(s.Inlined(), |s.caller.blocks|);
  }

  lemma CopyPiece(s: Site, j: nat)
    requires Apt(s) && s.Valid() && s.callee.blocks != [] && s.Inlined().blocks != []
      && UnreachedSelfContained(s.Inlined())
    requires j < |s.callee.blocks| && !(SiteReached(s) && Reachable(s.callee, s.callee.blocks[j].id))
    ensures SelfContained(s.SubstBlock(s.CopyBlock(j)))
  {
    hide *;
    CopyHere(s, j);
    var x := |s.caller.blocks| + 1 + j;
    ReachedExactly(s, x);
    assert x - |s.caller.blocks| - 1 == j;
    ContainedAt(s.Inlined(), x);
  }

  lemma PiecesTogether(s: Site)
    requires Apt(s) && s.Valid() && s.callee.blocks != [] && s.Inlined().blocks != []
      && UnreachedSelfContained(s.Inlined())
    ensures StaysTogether(s)
  {
    hide Apt;
    hide s.SubstBlock;
    hide s.OldBlock;
    hide s.SplitBlock;
    hide s.CopyBlock;
    hide s.Inlined;
    hide SelfContained;
    hide StillReached;
    hide SiteReached;
    hide CanReturn;
    hide Reachable;
    hide UnreachedSelfContained;
    if !(SiteReached(s) && CanReturn(s.callee)) { SplitPiece(s); }
    forall i | 0 <= i < |s.caller.blocks| && !StillReached(s, i) ensures SelfContained(s.SubstBlock(s.OldBlock(i))) {
      OldPiece(s, i);
    }
    forall j | 0 <= j < |s.callee.blocks| && !(SiteReached(s) && Reachable(s.callee, s.callee.blocks[j].id))
      ensures SelfContained(s.SubstBlock(s.CopyBlock(j)))
    {
      CopyPiece(s, j);
    }
  }

  lemma AcceptedIs(f: Fn)
    requires Accepts(f)
    ensures f.blocks != [] && SingleHomes(f)
  {}

  lemma AptChecked(s: Site)
    requires Apt(s)
    ensures Checked(s.caller) && Checked(s.callee)
  {}

  /** The check accepts the edited caller exactly when its pieces stay together. */
  lemma AcceptedExactlyWhen(s: Site)
    requires Apt(s) && s.Valid() && s.callee.blocks != [] && Accepts(s.caller) && Accepts(s.callee)
    ensures Accepts(s.Inlined()) <==> StaysTogether(s)
  {
    hide *;
    AptChecked(s);
    AcceptedIs(s.caller);
    AcceptedIs(s.callee);
    AcceptedPhis(s.caller);
    AcceptedPhis(s.callee);
    InlinedKeepsForm(s);
    InlinedPhisApart(s);
    AcceptsExactlyWhen(s.Inlined());
    if StaysTogether(s) { AllTogether(s); }
    if UnreachedSelfContained(s.Inlined()) { PiecesTogether(s); }
  }

  lemma AllTogether(s: Site)
    requires Apt(s) && s.Valid() && s.callee.blocks != [] && s.Inlined().blocks != [] && StaysTogether(s)
    ensures UnreachedSelfContained(s.Inlined())
  {
    hide Apt;
    hide s.Inlined;
    hide StaysTogether;
    hide SelfContained;
    hide Reachable;
    forall x: nat | x < |s.Inlined().blocks| && !Reachable(s.Inlined(), s.Inlined().blocks[x].id)
      ensures SelfContained(s.Inlined().blocks[x])
    {
      PieceReached(s, x);
    }
  }
}
