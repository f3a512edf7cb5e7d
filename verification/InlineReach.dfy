module InlineReach {
  // Which blocks can be reached once a call has been inlined, exactly (src/ir/ir_ipa.c:461-664).

  import opened Options
  import opened Ir
  import opened SsaIr
  import opened Graphs
  import opened Dominators
  import opened Inlining
  import opened InlineStructure
  import opened InlinePaths
  import opened InlineForm
  import opened InlineUses
  import opened InlineSound

  /** Some run of branches gets to a block that returns. */
  ghost predicate CanReturn(f: Fn)
    requires f.blocks != []
  { exists j: nat :: j < |f.blocks| && ReturnsAtEnd(f.blocks[j]) && Reachable(f, f.blocks[j].id) }

  ghost predicate SiteReached(s: Site)
    requires s.Valid()
  { Reachable(s.caller, SiteId(s)) }

  /** The caller's block `i` can still be reached: what comes after the call only if the callee can return. */
  ghost predicate StillReached(s: Site, i: nat)
    requires s.Valid() && s.callee.blocks != [] && i < |s.caller.blocks|
  {
    var id := s.caller.blocks[i].id;
    Reachable(s.caller, id) && (i == s.bi || CanReturn(s.callee) || !BlockDom(s.caller, SiteId(s), id))
  }

  // ----- Edges there are -----

  lemma NewEdge(s: Site, x: nat, t: nat)
    requires Apt(s) && s.Valid() && s.callee.blocks != [] && x < |s.Inlined().blocks|
      && t in SuccIds(s.Inlined().blocks[x])
    ensures Edge(NewCfg(s), s.Inlined().blocks[x].id, t)
  {
    InlinedBlocksOk(s);
    hide Apt;
    hide s.Inlined;
    hide Cfg;
    hide SuccIds;
    CfgHas(s.Inlined(), x, t);
  }

  lemma BlockOf(f: Fn, i: nat, t: nat)
    requires Blocks(f) && i < |f.blocks| && Edge(Cfg(f), f.blocks[i].id, t)
    ensures t in SuccIds(f.blocks[i])
  {
    FindAt(f.blocks, i);
    hide SuccIds;
    CfgStep(f, f.blocks[i].id, t);
  }

  lemma OldEdge(s: Site, i: nat, t: nat)
    requires Apt(s) && s.Valid() && s.callee.blocks != [] && i < |s.caller.blocks| && i != s.bi
    requires Edge(OldCfg(s), s.caller.blocks[i].id, t)
    ensures Edge(NewCfg(s), s.caller.blocks[i].id, t)
  {
    AptIs(s);
    hide Cfg;
    hide Apt;
    BlockOf(s.caller, i, t);
    hide *;
    OldAt(s, i);
    OldSuccs(s, i);
    NewEdge(s, i, t);
  }

  lemma SiteEdge(s: Site)
    requires Apt(s) && s.Valid() && s.callee.blocks != []
    ensures Edge(NewCfg(s), SiteId(s), s.CopyId(0))
  {
    var i := s.bi;
    assert i < |s.caller.blocks| && SiteId(s) == s.caller.blocks[i].id;
    hide *;
    OldAt(s, i);
    OldSuccs(s, i);
    OneOf(s.CopyId(0));
    NewEdge(s, i, s.CopyId(0));
  }

  lemma OneOf(x: nat)
    ensures x in [x]
  {}

  lemma SplitEdge(s: Site, t: nat)
    requires Apt(s) && s.Valid() && s.callee.blocks != [] && Edge(OldCfg(s), SiteId(s), t)
    ensures Edge(NewCfg(s), s.SplitId(), t)
  {
    AptIs(s);
    AllEnd(s);
    assert SiteId(s) == s.caller.blocks[s.bi].id && s.Block() == s.caller.blocks[s.bi];
    hide Cfg;
    hide Apt;
    BlockOf(s.caller, s.bi, t);
    assert EndsOnce(s.Block());
    hide *;
    SplitAt(s);
    SplitSuccs(s);
    NewEdge(s, |s.caller.blocks|, t);
  }

  lemma CopyEdge(s: Site, i: nat, j: nat)
    requires Apt(s) && s.Valid() && s.callee.blocks != [] && i < |s.callee.blocks| && j < |s.callee.blocks|
    requires Edge(Cfg(s.callee), s.callee.blocks[i].id, s.callee.blocks[j].id)
    ensures Edge(NewCfg(s), s.CopyId(i), s.CopyId(j))
  {
    hide *;
    AptIs(s);
    CopyNonEmpty(s, i);
    BlockOf(s.callee, i, s.callee.blocks[j].id);
    CopyHere(s, i);
    CopyAt(s, j);
    CopySuccs(s, i, s.CopyId(j));
    NewEdge(s, |s.caller.blocks| + 1 + i, s.CopyId(j));
  }

  lemma CopyNonEmpty(s: Site, j: nat)
    requires Apt(s) && s.Valid() && j < |s.callee.blocks|
    ensures s.callee.blocks[j].insts != []
  {
    AllEnd(s);
    hide Apt;
    EndsAt(s.callee.blocks[j]);
  }

  lemma ReturnEdge(s: Site, j: nat)
    requires Apt(s) && s.Valid() && s.callee.blocks != [] && j < |s.callee.blocks| && ReturnsAtEnd(s.callee.blocks[j])
    ensures Edge(NewCfg(s), s.CopyId(j), s.SplitId())
  {
    hide *;
    CopyNonEmpty(s, j);
    CopyHere(s, j);
    CopySuccs(s, j, s.SplitId());
    NewEdge(s, |s.caller.blocks| + 1 + j, s.SplitId());
  }

  // ----- What can be reached -----

  ghost predicate Now(s: Site, x: nat)
    requires s.Valid() && s.callee.blocks != []
  { Reach(NewCfg(s), s.caller.blocks[0].id, x) }

  lemma NowIs(s: Site, x: nat)
    requires Apt(s) && s.Valid() && s.callee.blocks != []
    ensures s.Inlined().blocks != [] && s.caller.blocks != [] && (Now(s, x) <==> Reachable(s.Inlined(), x))
  {
    Entered(s);
    hide Apt;
    hide s.Inlined;
    hide Cfg;
    hide Reach;
  }

  lemma NowStep(s: Site, x: nat, y: nat)
    requires Apt(s) && s.Valid() && s.callee.blocks != [] && Now(s, x) && Edge(NewCfg(s), x, y)
    ensures Now(s, y)
  {
    CfgValid(s.Inlined());
    hide Apt;
    hide s.Inlined;
    hide Cfg;
    ReachStep(NewCfg(s), s.caller.blocks[0].id, x, y);
  }

  lemma Place(s: Site, x: nat) returns (i: nat)
    requires Apt(s) && s.Valid() && FindSsa(s.caller.blocks, x).Some?
    ensures i < |s.caller.blocks| && s.caller.blocks[i].id == x && (i == s.bi <==> x == SiteId(s))
  {
    i := BlockAt(s.caller, x);
    OldId(s, i);
  }

  lemma EdgePlace(f: Fn, a: nat, b: nat)
    requires Edge(Cfg(f), a, b)
    ensures FindSsa(f.blocks, a).Some?
  { CfgStep(f, a, b); }

  /** A path of before that does not leave the block of the call is a path still. */
  lemma {:induction false} PathKept(s: Site, p: seq<nat>, x: nat)
    requires Apt(s) && s.Valid() && s.callee.blocks != [] && Connects(OldCfg(s), p, s.caller.blocks[0].id, x)
    requires SiteId(s) !in p[..|p|-1]
    ensures Now(s, x)
    decreases |p|
  {
    var e := s.caller.blocks[0].id;
    Started(s);
    hide Apt;
    hide Cfg;
    hide s.Inlined;
    if |p| > 1 {
      var y := p[|p|-2];
      assert y in p[..|p|-1] && Edge(OldCfg(s), p[|p|-2], p[|p|-1]);
      Suffix(OldCfg(s), p, e, x, |p| - 2);
      var front := p[..|p|-1];
      assert forall v :: v in front[..|front|-1] ==> v in front;
      PathKept(s, front, y);
      EdgePlace(s.caller, y, x);
      var i := Place(s, y);
      OldEdge(s, i, x);
      NowStep(s, y, x);
    }
  }

  lemma Started(s: Site)
    requires Apt(s) && s.Valid() && s.callee.blocks != []
    ensures s.caller.blocks != [] && Now(s, s.caller.blocks[0].id)
  {
    Entered(s);
    AptIs(s);
    assert |NewCfg(s)| == s.Inlined().nextBlock > s.caller.nextBlock;
    hide Apt;
    hide Cfg;
    hide s.Inlined;
    ReachSelf(NewCfg(s), s.caller.blocks[0].id);
  }

  /** The first way into a block, up to where it first meets it. */
  lemma {:induction false} FirstMeeting(g: Graph, p: seq<nat>, a: nat, b: nat, x: nat) returns (q: seq<nat>)
    requires Connects(g, p, a, b) && x in p
    ensures Connects(g, q, a, x) && x !in q[..|q|-1] && forall v :: v in q ==> v in p
    decreases |p|
  {
    if x in p[..|p|-1] {
      Suffix(g, p, a, b, |p| - 2);
      q := FirstMeeting(g, p[..|p|-1], a, p[|p|-2], x);
    } else {
      q := p;
    }
  }

  lemma SiteStays(s: Site)
    requires Apt(s) && s.Valid() && s.callee.blocks != [] && SiteReached(s)
    ensures Now(s, SiteId(s))
  {
    hide Apt;
    hide Cfg;
    hide s.Inlined;
    var p :| Connects(OldCfg(s), p, s.caller.blocks[0].id, SiteId(s));
    var q := FirstMeeting(OldCfg(s), p, s.caller.blocks[0].id, SiteId(s), SiteId(s));
    PathKept(s, q, SiteId(s));
  }

  lemma {:induction false} CopiesFollow(s: Site, p: seq<nat>, j: nat)
    requires Apt(s) && s.Valid() && s.callee.blocks != [] && j < |s.callee.blocks| && SiteReached(s)
    requires Connects(Cfg(s.callee), p, s.callee.blocks[0].id, s.callee.blocks[j].id)
    ensures Now(s, s.CopyId(j))
    decreases |p|
  {
    AptIs(s);
    var e := s.callee.blocks[0].id;
    hide Apt;
    hide Ready;
    hide Known;
    hide Cfg;
    hide s.Inlined;
    if |p| == 1 {
      assert j == 0;
      SiteStays(s);
      SiteEdge(s);
      NowStep(s, SiteId(s), s.CopyId(0));
    } else {
      var y := p[|p|-2];
      assert Edge(Cfg(s.callee), p[|p|-2], p[|p|-1]);
      Suffix(Cfg(s.callee), p, e, s.callee.blocks[j].id, |p| - 2);
      EdgePlace(s.callee, y, s.callee.blocks[j].id);
      var i := BlockAt(s.callee, y);
      CopiesFollow(s, p[..|p|-1], i);
      CopyEdge(s, i, j);
      NowStep(s, s.CopyId(i), s.CopyId(j));
    }
  }

  /** A copy is reached exactly when the call is and the block copied is. */
  lemma CopyReached(s: Site, j: nat)
    requires Apt(s) && s.Valid() && s.callee.blocks != [] && j < |s.callee.blocks|
    ensures Now(s, s.CopyId(j)) <==> SiteReached(s) && Reachable(s.callee, s.callee.blocks[j].id)
  {
    NowIs(s, s.CopyId(j));
    AptIs(s);
    hide Apt;
    hide Ready;
    hide Known;
    hide Cfg;
    hide s.Inlined;
    if Now(s, s.CopyId(j)) {
      ReachedBefore(s, s.CopyId(j));
      ReachedInCallee(s, j);
    }
    if SiteReached(s) && Reachable(s.callee, s.callee.blocks[j].id) {
      var p :| Connects(Cfg(s.callee), p, s.callee.blocks[0].id, s.callee.blocks[j].id);
      CopiesFollow(s, p, j);
    }
  }

  /** What follows the call is reached exactly when the call is and the callee can return. */
  lemma SplitReachedExactly(s: Site)
    requires Apt(s) && s.Valid() && s.callee.blocks != []
    ensures Now(s, s.SplitId()) <==> SiteReached(s) && CanReturn(s.callee)
  {
    NowIs(s, s.SplitId());
    hide Apt;
    hide Reach;
    hide Cfg;
    hide s.Inlined;
    if Now(s, s.SplitId()) {
      var j := SplitReached(s);
      NowIs(s, s.CopyId(j));
      CopyReached(s, j);
    }
    if SiteReached(s) && CanReturn(s.callee) {
      var j: nat :| j < |s.callee.blocks| && ReturnsAtEnd(s.callee.blocks[j])
        && Reachable(s.callee, s.callee.blocks[j].id);
      CopyReached(s, j);
      ReturnEdge(s, j);
      NowStep(s, s.CopyId(j), s.SplitId());
    }
  }

  /** If the callee can return, what could be reached still can. */
  lemma {:induction false} PathResumes(s: Site, p: seq<nat>, x: nat)
    requires Apt(s) && s.Valid() && s.callee.blocks != [] && Connects(OldCfg(s), p, s.caller.blocks[0].id, x)
      && CanReturn(s.callee)
    ensures Now(s, x)
    decreases |p|
  {
    var e := s.caller.blocks[0].id;
    Started(s);
    hide Apt;
    hide Cfg;
    hide s.Inlined;
    hide CanReturn;
    if |p| > 1 {
      var y := p[|p|-2];
      assert Edge(OldCfg(s), p[|p|-2], p[|p|-1]);
      Suffix(OldCfg(s), p, e, x, |p| - 2);
      PathResumes(s, p[..|p|-1], y);
      EdgePlace(s.caller, y, x);
      var i := Place(s, y);
      if y == SiteId(s) {
        assert SiteReached(s) by { assert Connects(OldCfg(s), p[..|p|-1], e, y); }
        SplitReachedExactly(s);
        SplitEdge(s, x);
        NowStep(s, s.SplitId(), x);
      } else {
        OldEdge(s, i, x);
        NowStep(s, y, x);
      }
    }
  }

  lemma OldStill(s: Site, i: nat)
    requires Apt(s) && s.Valid() && s.callee.blocks != [] && i < |s.caller.blocks| && StillReached(s, i)
    ensures Now(s, s.caller.blocks[i].id)
  {
    OldId(s, i);
    hide Apt;
    hide Cfg;
    hide s.Inlined;
    hide CanReturn;
    var e, x := s.caller.blocks[0].id, s.caller.blocks[i].id;
    if i == s.bi {
      SiteStays(s);
    } else if CanReturn(s.callee) {
      var p :| Connects(OldCfg(s), p, e, x);
      PathResumes(s, p, x);
    } else {
      var p :| Connects(OldCfg(s), p, e, x) && SiteId(s) !in p;
      PathKept(s, p, x);
    }
  }

  lemma OldWas(s: Site, i: nat)
    requires Apt(s) && s.Valid() && s.callee.blocks != [] && i < |s.caller.blocks| && Now(s, s.caller.blocks[i].id)
    ensures StillReached(s, i)
  {
    var e, x := s.caller.blocks[0].id, s.caller.blocks[i].id;
    OldId(s, i);
    Entered(s);
    NowIs(s, x);
    hide Apt;
    hide Cfg;
    hide s.Inlined;
    hide CanReturn;
    hide Reach;
    hide Dom;
    ReachedBefore(s, x);
    if i != s.bi && BlockDom(s.caller, SiteId(s), x) {
      SplitDominates(s, e, x);
      DomReachable(NewCfg(s), e, s.SplitId(), x);
      SplitReachedExactly(s);
    }
  }

  /** Every block that can be reached afterwards, in terms of before: blocks of the caller as StillReached says, what
      follows the call if the call is reached and the callee can return, copies if the call and what they copy are. */
  lemma ReachedExactly(s: Site, x: nat)
    requires Apt(s) && s.Valid() && s.callee.blocks != [] && x < |s.Inlined().blocks|
    ensures |s.Inlined().blocks| == |s.caller.blocks| + 1 + |s.callee.blocks| && s.Inlined().blocks != []
    ensures var n := |s.caller.blocks|;
      Reachable(s.Inlined(), s.Inlined().blocks[x].id) <==>
        if x < n then StillReached(s, x)
        else if x == n then SiteReached(s) && CanReturn(s.callee)
        else SiteReached(s) && Reachable(s.callee, s.callee.blocks[x - n - 1].id)
  {
    hide *;
    Entered(s);
    IdAt(s, x);
    NowIs(s, s.Inlined().blocks[x].id);
    var n := |s.caller.blocks|;
    if x < n {
      if StillReached(s, x) { OldStill(s, x); }
      if Now(s, s.caller.blocks[x].id) { OldWas(s, x); }
    } else if x == n {
      SplitReachedExactly(s);
    } else {
      CopyReached(s, x - n - 1);
    }
  }
}
