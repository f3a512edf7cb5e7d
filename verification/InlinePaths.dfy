// The control-flow graph of a caller after inlining: its paths are paths of the caller with stretches through the copy
// of the callee put in for the call (src/ir/ir_ipa.c:428-664).

module InlinePaths {
  import opened Options
  import opened Ir
  import opened SsaIr
  import opened Graphs
  import opened Dominators
  import opened Inlining
  import opened InlineStructure

  /** Branches go to blocks of the function. */
  predicate Known(f: Fn) {
    forall i, t :: 0 <= i < |f.blocks| && t in SuccIds(f.blocks[i]) ==> FindSsa(f.blocks, t).Some?
  }

  predicate HasPred(f: Fn, j: nat, id: nat)
    requires j < |f.blocks|
  { exists i :: 0 <= i < |f.blocks| && f.blocks[i].id == id && f.blocks[j].id in SuccIds(f.blocks[i]) }

  /** Phis hear from predecessors of their block only (the last check of `ir_ssa_verify_function`). */
  predicate Hears(f: Fn) {
    forall j, p, q :: 0 <= j < |f.blocks| && 0 <= p < |f.blocks[j].phis| && 0 <= q < |f.blocks[j].phis[p].ins| ==>
      HasPred(f, j, f.blocks[j].phis[p].ins[q].0)
  }

  ghost predicate Checked(f: Fn) { SsaForm(f) && Known(f) && Hears(f) }

  ghost predicate Apt(s: Site) { Ready(s) && Checked(s.caller) && Checked(s.callee) }

  lemma AptIs(s: Site)
    requires Apt(s)
    ensures Ready(s) && s.Valid() && Known(s.caller) && Known(s.callee) && Blocks(s.caller) && Blocks(s.callee)
  { SsaBlocks(s.caller); }

  // ----- Where blocks lead -----

  lemma SubstTargets(s: Site, i: Inst)
    requires s.Valid()
    ensures Targets(s.SubstInst(i)) == Targets(i) && (s.SubstInst(i).Ret? <==> i.Ret?)
      && (IsTerminator(s.SubstInst(i)) <==> IsTerminator(i))
    ensures Dst(s.SubstInst(i)) == Dst(i)
  {}

  lemma SubstSuccs(s: Site, b: SsaBlock)
    requires s.Valid()
    ensures SuccIds(s.SubstBlock(b)) == SuccIds(b)
  { if b.insts != [] { SubstTargets(s, b.insts[|b.insts|-1]); } }

  lemma OldSuccs(s: Site, i: nat)
    requires s.Valid() && s.callee.blocks != [] && i < |s.caller.blocks|
    ensures SuccIds(s.SubstBlock(s.OldBlock(i))) == if i == s.bi then [s.CopyId(0)] else SuccIds(s.caller.blocks[i])
  {
    SubstSuccs(s, s.OldBlock(i));
    hide s.SubstBlock;
  }

  lemma SplitSuccs(s: Site)
    requires s.Valid() && EndsOnce(s.Block())
    ensures SuccIds(s.SubstBlock(s.SplitBlock())) == SuccIds(s.Block())
  {
    SubstSuccs(s, s.SplitBlock());
    hide s.SubstBlock;
    assert s.k < |s.Block().insts| - 1;
  }

  lemma CopyTargets(s: Site, i: Inst, t: nat)
    requires s.Valid()
    ensures t in Targets(s.CopyInst(i)) <==>
      (i.Ret? && t == s.SplitId()) || exists u :: u in Targets(i) && t == s.CopyOf(u)
    ensures (IsTerminator(s.CopyInst(i)) <==> IsTerminator(i)) && !s.CopyInst(i).Ret?
  {
    hide s.CopyOf;
    match i {
      case Br(u) => assert u in Targets(i);
      case CondBr(_, u, v) => assert u in Targets(i) && v in Targets(i);
      case _ =>
    }
  }

  lemma CopyLast(s: Site, j: nat)
    requires s.Valid() && j < |s.callee.blocks| && s.callee.blocks[j].insts != []
    ensures SuccIds(s.CopyBlock(j)) == Targets(s.CopyInst(s.callee.blocks[j].insts[|s.callee.blocks[j].insts|-1]))
  {
    hide s.CopyInst;
    hide s.CopyPhis;
  }

  lemma CopySuccs(s: Site, j: nat, t: nat)
    requires s.Valid() && j < |s.callee.blocks| && s.callee.blocks[j].insts != []
    ensures var b := s.callee.blocks[j];
      t in SuccIds(s.SubstBlock(s.CopyBlock(j))) <==>
        (ReturnsAtEnd(b) && t == s.SplitId()) || exists u :: u in SuccIds(b) && t == s.CopyOf(u)
  {
    hide s.SubstBlock;
    hide s.CopyBlock;
    hide s.CopyInst;
    hide s.CopyOf;
    SubstSuccs(s, s.CopyBlock(j));
    CopyLast(s, j);
    CopyTargets(s, s.callee.blocks[j].insts[|s.callee.blocks[j].insts|-1], t);
  }

  // ----- Edges -----

  /** An edge of a control-flow graph is from a block to one of its targets. */
  lemma CfgStep(f: Fn, a: nat, b: nat)
    requires Edge(Cfg(f), a, b)
    ensures FindSsa(f.blocks, a).Some? && b in SuccIds(FindSsa(f.blocks, a).value) && b < f.nextBlock
  {}

  lemma CfgHas(f: Fn, i: nat, t: nat)
    requires Blocks(f) && Known(f) && i < |f.blocks| && t in SuccIds(f.blocks[i])
    ensures Edge(Cfg(f), f.blocks[i].id, t) && t < f.nextBlock
  {
    FindAt(f.blocks, i);
    assert FindSsa(f.blocks, t).value in f.blocks;
  }

  lemma BlockAt(f: Fn, id: nat) returns (i: nat)
    requires FindSsa(f.blocks, id).Some?
    ensures i < |f.blocks| && f.blocks[i].id == id && f.blocks[i] == FindSsa(f.blocks, id).value
  { i :| 0 <= i < |f.blocks| && f.blocks[i] == FindSsa(f.blocks, id).value; }

  /** Where a number of a block of the inlined caller comes from. */
  lemma Kinds(s: Site, x: nat)
    requires Apt(s) && FindSsa(s.Inlined().blocks, x).Some?
    ensures s.Valid() && s.callee.blocks != []
    ensures var b := FindSsa(s.Inlined().blocks, x).value;
      || (exists i :: 0 <= i < |s.caller.blocks| && x == s.caller.blocks[i].id && b == s.SubstBlock(s.OldBlock(i)))
      || (x == s.SplitId() && b == s.SubstBlock(s.SplitBlock()))
      || (exists j :: 0 <= j < |s.callee.blocks| && x == s.CopyId(j) && b == s.SubstBlock(s.CopyBlock(j)))
  {
    hide *;
    AptIs(s);
    ReadyIs(s);
    InlinedBlocks(s);
    var i := BlockAt(s.Inlined(), x);
    var n := |s.caller.blocks|;
    if i > n {
      var j := i - n - 1;
      assert s.Inlined().blocks[n + 1 + j] == s.SubstBlock(s.CopyBlock(j));
    }
  }

  ghost function OldCfg(s: Site): Graph { Cfg(s.caller) }

  ghost function NewCfg(s: Site): Graph requires s.Valid() && s.callee.blocks != [] { Cfg(s.Inlined()) }

  /** The block the call was in. */
  function SiteId(s: Site): nat requires s.Valid() { s.Block().id }

  /** The block of the call, the split block and the copies. */
  predicate Zone(s: Site, x: nat) requires s.Valid() { x == SiteId(s) || x >= s.caller.nextBlock }

  function Home(s: Site, x: nat): nat requires s.Valid() { if x >= s.caller.nextBlock then SiteId(s) else x }

  /** What an edge was before inlining. */
  lemma Steps(s: Site, y: nat, x: nat)
    requires Apt(s) && s.Valid() && s.callee.blocks != [] && Edge(NewCfg(s), y, x)
    ensures !Zone(s, y) ==> x < s.caller.nextBlock && Edge(OldCfg(s), y, x)
    ensures y == SiteId(s) ==> x == s.CopyId(0)
    ensures y >= s.caller.nextBlock && y != s.SplitId() ==> x >= s.caller.nextBlock
    ensures y == s.SplitId() ==> x < s.caller.nextBlock && Edge(OldCfg(s), SiteId(s), x)
  {
    AptIs(s);
    CfgStep(s.Inlined(), y, x);
    Kinds(s, y);
    hide *;
    if i :| (0 <= i < |s.caller.blocks| && y == s.caller.blocks[i].id
             && FindSsa(s.Inlined().blocks, y).value == s.SubstBlock(s.OldBlock(i))) {
      OldStep(s, i, x);
    } else if y == s.SplitId() {
      SplitStep(s, x);
    } else {
      var j :| 0 <= j < |s.callee.blocks| && y == s.CopyId(j)
        && FindSsa(s.Inlined().blocks, y).value == s.SubstBlock(s.CopyBlock(j));
      CopyStep(s, j, x);
    }
  }

  lemma OldStep(s: Site, i: nat, x: nat)
    requires Apt(s) && s.Valid() && s.callee.blocks != [] && i < |s.caller.blocks|
      && x in SuccIds(s.SubstBlock(s.OldBlock(i)))
    ensures s.caller.blocks[i].id < s.caller.nextBlock < s.SplitId()
    ensures if s.caller.blocks[i].id == SiteId(s) then x == s.CopyId(0)
      else !Zone(s, s.caller.blocks[i].id) && x < s.caller.nextBlock && Edge(OldCfg(s), s.caller.blocks[i].id, x)
  {
    AptIs(s);
    hide Apt;
    hide s.SubstBlock;
    hide s.OldBlock;
    hide Cfg;
    hide SuccIds;
    OldSuccs(s, i);
    if i != s.bi { CfgHas(s.caller, i, x); }
  }

  lemma SplitStep(s: Site, x: nat)
    requires Apt(s) && s.Valid() && s.callee.blocks != [] && x in SuccIds(s.SubstBlock(s.SplitBlock()))
    ensures s.caller.nextBlock < s.SplitId() && SiteId(s) < s.caller.nextBlock && x < s.caller.nextBlock
      && Edge(OldCfg(s), SiteId(s), x)
    ensures Zone(s, s.SplitId())
  {
    AptIs(s);
    hide Apt;
    hide s.SubstBlock;
    hide s.SplitBlock;
    hide Cfg;
    hide SuccIds;
    SplitSuccs(s);
    CfgHas(s.caller, s.bi, x);
  }

  lemma CopyStep(s: Site, j: nat, x: nat)
    requires Apt(s) && s.Valid() && j < |s.callee.blocks| && x in SuccIds(s.SubstBlock(s.CopyBlock(j)))
    ensures x >= s.caller.nextBlock && s.CopyId(j) >= s.caller.nextBlock > SiteId(s) && Zone(s, s.CopyId(j))
      && s.CopyId(j) != s.SplitId()
  {
    AptIs(s);
    hide Apt;
    hide s.SubstBlock;
    hide s.CopyBlock;
    hide SuccIds;
    hide s.CopyOf;
    CopySuccs(s, j, x);
    CopyOfNew(s);
  }

  lemma CopyOfNew(s: Site)
    ensures forall u: nat :: s.CopyOf(u) >= s.caller.nextBlock
  {}

  /** How the copies are entered. */
  lemma IntoCopy(s: Site, y: nat, j: nat)
    requires Apt(s) && s.Valid() && s.callee.blocks != [] && j < |s.callee.blocks| && Edge(NewCfg(s), y, s.CopyId(j))
    ensures (y == SiteId(s) && j == 0)
      || exists i ::
        0 <= i < |s.callee.blocks| && y == s.CopyId(i)
          && Edge(Cfg(s.callee), s.callee.blocks[i].id, s.callee.blocks[j].id)
  {
    AptIs(s);
    CfgStep(s.Inlined(), y, s.CopyId(j));
    Steps(s, y, s.CopyId(j));
    hide Ready;
    hide s.Inlined;
    hide s.SubstBlock;
    hide s.OldBlock;
    hide s.SplitBlock;
    hide s.CopyBlock;
    hide Cfg;
    hide SuccIds;
    hide s.CopyOf;
    Kinds(s, y);
    if y != SiteId(s) {
      assert Zone(s, y) && y >= s.caller.nextBlock && y != s.SplitId();
      var i :| 0 <= i < |s.callee.blocks| && y == s.CopyId(i)
        && FindSsa(s.Inlined().blocks, y).value == s.SubstBlock(s.CopyBlock(i));
      CopySuccs(s, i, s.CopyId(j));
      var u :| u in SuccIds(s.callee.blocks[i]) && s.CopyId(j) == s.CopyOf(u);
      CopyOfIs(s, u, j);
      CfgHas(s.callee, i, u);
    }
  }

  lemma CopyOfIs(s: Site, u: nat, j: nat)
    requires s.CopyOf(u) == s.CopyId(j) && j < |s.callee.blocks|
    ensures u == s.callee.blocks[j].id
  {}

  /** How the split block is entered. */
  lemma IntoSplit(s: Site, y: nat)
    requires Apt(s) && s.Valid() && s.callee.blocks != [] && Edge(NewCfg(s), y, s.SplitId())
    ensures exists i :: 0 <= i < |s.callee.blocks| && y == s.CopyId(i) && ReturnsAtEnd(s.callee.blocks[i])
  {
    AptIs(s);
    CfgStep(s.Inlined(), y, s.SplitId());
    Steps(s, y, s.SplitId());
    hide Ready;
    hide s.Inlined;
    hide s.SubstBlock;
    hide s.OldBlock;
    hide s.SplitBlock;
    hide s.CopyBlock;
    hide Cfg;
    hide SuccIds;
    hide s.CopyOf;
    Kinds(s, y);
    var i :| 0 <= i < |s.callee.blocks| && y == s.CopyId(i)
      && FindSsa(s.Inlined().blocks, y).value == s.SubstBlock(s.CopyBlock(i));
    CopySuccs(s, i, s.SplitId());
    if !ReturnsAtEnd(s.callee.blocks[i]) {
      var u :| u in SuccIds(s.callee.blocks[i]) && s.SplitId() == s.CopyOf(u);
      KnownCopy(s, u);
    }
  }

  lemma KnownCopy(s: Site, u: nat)
    requires FindSsa(s.callee.blocks, u).Some?
    ensures s.CopyOf(u) != s.SplitId()
  {
    assert FindSsa(s.callee.blocks, u).value in s.callee.blocks;
  }

  // ----- Paths -----

  /** A path after inlining, with the stretches inside the zone left out, is a path of before. The zone is entered by
      the block of the call and left from the split block. */
  lemma {:induction false} Project(s: Site, e: nat, p: seq<nat>, x: nat) returns (q: seq<nat>)
    requires Apt(s) && s.Valid() && s.callee.blocks != [] && e < s.caller.nextBlock && Connects(NewCfg(s), p, e, x)
    ensures Connects(OldCfg(s), q, e, Home(s, x))
    ensures forall v :: v in q && v != SiteId(s) ==> v in p
    ensures Zone(s, x) ==> SiteId(s) in p
    ensures !Zone(s, x) && SiteId(s) in q ==> SiteId(s) in p && s.SplitId() in p
    decreases |p|
  {
    hide Apt;
    hide Cfg;
    hide s.Inlined;
    GraphSizes(s);
    if |p| == 1 {
      q := [e];
    } else {
      var front, y := p[..|p|-1], p[|p|-2];
      assert Edge(NewCfg(s), p[|p|-2], p[|p|-1]);
      Suffix(NewCfg(s), p, e, x, |p| - 2);
      var r := Project(s, e, front, y);
      Steps(s, y, x);
      if !Zone(s, y) || y == s.SplitId() {
        Extend(OldCfg(s), r, e, Home(s, y), x);
        q := r + [x];
      } else {
        q := r;
      }
    }
  }

  lemma GraphSizes(s: Site)
    requires Apt(s) && s.Valid() && s.callee.blocks != []
    ensures ValidGraph(OldCfg(s)) && |OldCfg(s)| == s.caller.nextBlock && SiteId(s) < s.caller.nextBlock
  {
    AptIs(s);
    CfgValid(s.caller);
  }

  /** The end of a path to a copy is the copy of a path of the callee. */
  lemma {:induction false} CopyPath(s: Site, e: nat, p: seq<nat>, j: nat) returns (q: seq<nat>)
    requires Apt(s) && s.Valid() && s.callee.blocks != [] && e < s.caller.nextBlock && j < |s.callee.blocks|
      && Connects(NewCfg(s), p, e, s.CopyId(j))
    ensures Connects(Cfg(s.callee), q, s.callee.blocks[0].id, s.callee.blocks[j].id)
    ensures forall v :: v in q ==> s.CopyOf(v) in p
    decreases |p|
  {
    hide Apt;
    hide Cfg;
    hide s.Inlined;
    hide s.CopyOf;
    CalleeGraph(s);
    CopyAt(s, j);
    var front, y := p[..|p|-1], p[|p|-2];
    assert Edge(NewCfg(s), p[|p|-2], p[|p|-1]);
    Suffix(NewCfg(s), p, e, s.CopyId(j), |p| - 2);
    IntoCopy(s, y, j);
    if y == SiteId(s) && j == 0 {
      q := [s.callee.blocks[0].id];
    } else {
      var i :| 0 <= i < |s.callee.blocks| && y == s.CopyId(i)
        && Edge(Cfg(s.callee), s.callee.blocks[i].id, s.callee.blocks[j].id);
      var r := CopyPath(s, e, front, i);
      Extend(Cfg(s.callee), r, s.callee.blocks[0].id, s.callee.blocks[i].id, s.callee.blocks[j].id);
      q := r + [s.callee.blocks[j].id];
    }
  }

  lemma CopyAt(s: Site, j: nat)
    requires Apt(s) && j < |s.callee.blocks|
    ensures s.CopyOf(s.callee.blocks[j].id) == s.CopyId(j)
  {
    hide Ready;
    AptIs(s);
    CopyIs(s, j);
  }

  lemma CalleeGraph(s: Site)
    requires Apt(s) && s.Valid() && s.callee.blocks != []
    ensures ValidGraph(Cfg(s.callee)) && forall i ::
      0 <= i < |s.callee.blocks| ==> s.callee.blocks[i].id < |Cfg(s.callee)|
  {
    AptIs(s);
    CfgValid(s.callee);
  }

  // ----- Domination -----

  /** Blocks other than the one of the call dominate what they did. */
  lemma OldDominates(s: Site, e: nat, a: nat, x: nat)
    requires Apt(s) && s.Valid() && s.callee.blocks != [] && e < s.caller.nextBlock && a != SiteId(s)
      && Dom(OldCfg(s), e, a, Home(s, x))
    ensures Dom(NewCfg(s), e, a, x)
  {
    hide Apt;
    hide Cfg;
    hide s.Inlined;
    forall p | Connects(NewCfg(s), p, e, x) ensures a in p { var q := Project(s, e, p, x); }
  }

  /** The block of the call dominates the zone. */
  lemma ZoneDominated(s: Site, e: nat, x: nat)
    requires Apt(s) && s.Valid() && s.callee.blocks != [] && e < s.caller.nextBlock && Zone(s, x)
    ensures Dom(NewCfg(s), e, SiteId(s), x)
  {
    hide Apt;
    hide Cfg;
    hide s.Inlined;
    forall p | Connects(NewCfg(s), p, e, x) ensures SiteId(s) in p { var q := Project(s, e, p, x); }
  }

  /** What the block of the call dominated, it and the split block dominate. */
  lemma SplitDominates(s: Site, e: nat, x: nat)
    requires Apt(s) && s.Valid() && s.callee.blocks != [] && e < s.caller.nextBlock && !Zone(s, x)
      && Dom(OldCfg(s), e, SiteId(s), x)
    ensures Dom(NewCfg(s), e, SiteId(s), x) && Dom(NewCfg(s), e, s.SplitId(), x)
  {
    hide Apt;
    hide Cfg;
    hide s.Inlined;
    forall p | Connects(NewCfg(s), p, e, x) ensures SiteId(s) in p && s.SplitId() in p { var q := Project(s, e, p, x); }
  }

  /** Copies dominate each other as the blocks of the callee do. */
  lemma CopyDominates(s: Site, e: nat, i: nat, j: nat)
    requires Apt(s) && s.Valid() && s.callee.blocks != [] && e < s.caller.nextBlock && i < |s.callee.blocks|
      && j < |s.callee.blocks|
    requires Dom(Cfg(s.callee), s.callee.blocks[0].id, s.callee.blocks[i].id, s.callee.blocks[j].id)
    ensures Dom(NewCfg(s), e, s.CopyId(i), s.CopyId(j))
  {
    hide Apt;
    hide Cfg;
    hide s.Inlined;
    hide s.CopyOf;
    CopyAt(s, i);
    forall p | Connects(NewCfg(s), p, e, s.CopyId(j)) ensures s.CopyId(i) in p { var q := CopyPath(s, e, p, j); }
  }

  /** When one block returns, its copy dominates the split block. */
  lemma ReturnDominates(s: Site, e: nat, i: nat)
    requires Apt(s) && s.Valid() && s.callee.blocks != [] && e < s.caller.nextBlock && i < |s.callee.blocks|
    requires forall j :: 0 <= j < |s.callee.blocks| && ReturnsAtEnd(s.callee.blocks[j]) ==> j == i
    ensures Dom(NewCfg(s), e, s.CopyId(i), s.SplitId())
  {
    hide Apt;
    hide Cfg;
    hide s.Inlined;
    forall p | Connects(NewCfg(s), p, e, s.SplitId()) ensures s.CopyId(i) in p {
      assert Edge(NewCfg(s), p[|p|-2], p[|p|-1]);
      IntoSplit(s, p[|p|-2]);
    }
  }
}
