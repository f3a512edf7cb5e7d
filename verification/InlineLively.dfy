module InlineLively {
  // Modules on which the check accepts every inlining (src/ir/ir_ipa.c:646-675).

  import opened Options
  import opened Ir
  import opened SsaIr
  import opened Graphs
  import opened Inlining
  import opened InlineStructure
  import opened InlinePaths
  import opened InlineForm
  import opened InlineSound
  import opened InlineReach
  import opened SsaCheck
  import opened InlineCheck
  import opened InlineEnding
  import opened InlineHealth
  import opened InlineScan
  import opened Exchanges

  /** No dead code, and no two phis of a block for one register. */
  ghost predicate AllReached(f: Fn) {
    f.blocks != [] && PhisApart(f) && forall j :: 0 <= j < |f.blocks| ==> Reachable(f, f.blocks[j].id)
  }

  predicate HasReturn(f: Fn) { exists j :: 0 <= j < |f.blocks| && ReturnsAtEnd(f.blocks[j]) }

  /** No function has dead code, and those that may be inlined have a return. */
  ghost predicate Lively(m: Module, can: seq<bool>) {
    |can| == |m| && forall v :: 0 <= v < |m| ==> AllReached(m[v]) && (can[v] ==> HasReturn(m[v]))
  }

  lemma ReturnReached(f: Fn)
    requires AllReached(f) && HasReturn(f)
    ensures CanReturn(f)
  { hide Reachable; }

  lemma ReachedAt(f: Fn, j: nat)
    requires AllReached(f) && j < |f.blocks|
    ensures Reachable(f, f.blocks[j].id)
  {}

  lemma PieceStillReached(s: Site, x: nat)
    requires Apt(s) && s.Valid() && s.callee.blocks != [] && AllReached(s.caller) && AllReached(s.callee)
      && CanReturn(s.callee) && x < |s.Inlined().blocks| && s.Inlined().blocks != []
    ensures Reachable(s.Inlined(), s.Inlined().blocks[x].id)
  {
    ReachedExactly(s, x);
    ReachedAt(s.caller, s.bi);
    var n := |s.caller.blocks|;
    if x < n { ReachedAt(s.caller, x); } else if x > n { ReachedAt(s.callee, x - n - 1); }
    hide Apt;
    hide AllReached;
    hide Reachable;
    hide CanReturn;
    hide s.Inlined;
  }

  lemma PhisOfReached(f: Fn)
    requires AllReached(f)
    ensures PhisApart(f)
  {}

  lemma InlinedAllReached(s: Site)
    requires Apt(s) && s.Valid() && s.callee.blocks != [] && AllReached(s.caller) && AllReached(s.callee)
      && CanReturn(s.callee)
    ensures AllReached(s.Inlined())
  {
    Entered(s);
    PhisOfReached(s.caller);
    PhisOfReached(s.callee);
    hide PhisApart;
    InlinedPhisApart(s);
    hide Apt;
    hide Reachable;
    hide CanReturn;
    hide s.Inlined;
    var f := s.Inlined();
    forall x: nat | x < |f.blocks| ensures Reachable(f, f.blocks[x].id) {
      hide AllReached;
      PieceStillReached(s, x);
    }
  }

  lemma LastSubst(s: Site, b: SsaBlock)
    requires s.Valid()
    ensures ReturnsAtEnd(s.SubstBlock(b)) <==> ReturnsAtEnd(b)
  { if b.insts != [] { SubstTargets(s, b.insts[|b.insts|-1]); } }

  lemma ReturnKept(s: Site)
    requires Apt(s) && s.Valid() && s.callee.blocks != [] && HasReturn(s.caller)
    ensures HasReturn(s.Inlined())
  {
    var j :| 0 <= j < |s.caller.blocks| && ReturnsAtEnd(s.caller.blocks[j]);
    AllEnd(s);
    Entered(s);
    hide Apt;
    hide s.Inlined;
    hide EndsOnce;
    if j == s.bi {
      SplitAt(s);
      SplitLast(s);
      LastSubst(s, s.SplitBlock());
    } else {
      OldAt(s, j);
      OldLast(s, j);
      LastSubst(s, s.OldBlock(j));
    }
  }

  lemma SplitLast(s: Site)
    requires s.Valid() && s.k < |s.Block().insts| - 1 && ReturnsAtEnd(s.Block())
    ensures ReturnsAtEnd(s.SplitBlock())
  {}

  lemma OldLast(s: Site, j: nat)
    requires s.Valid() && s.callee.blocks != [] && j < |s.caller.blocks| && j != s.bi
      && ReturnsAtEnd(s.caller.blocks[j])
    ensures ReturnsAtEnd(s.OldBlock(j))
  {}

  lemma TakenParts(m: Module, can: seq<bool>, fi: nat, s: Site)
    requires Lively(m, can) && fi < |m| && s.caller == m[fi] && Taken(m, fi, can, s)
    ensures AllReached(s.caller) && AllReached(s.callee) && HasReturn(s.callee)
  {
    hide AllReached;
    hide HasReturn;
  }

  /** A round of inlining in such a module passes the check, and leaves such a module. */
  lemma LivelyRound(m: Module, can: seq<bool>, fi: nat, s: Site)
    requires Healthy(m, can) && Lively(m, can) && fi < |m| && s.caller == m[fi] && Taken(m, fi, can, s)
    ensures s.Valid() && s.callee.blocks != [] && Accepts(s.Inlined())
    ensures Healthy(m[fi := s.Inlined()], can) && Lively(m[fi := s.Inlined()], can)
  {
    hide *;
    RoundHealthy(m, can, fi, s);
    RoundApt(m, can, fi, s);
    TakenParts(m, can, fi, s);
    ReturnReached(s.callee);
    InlinedAllReached(s);
    InlinedKeepsForm(s);
    ReachedAccepted(s.Inlined());
    if fi < |can| && can[fi] {
      CandidateReturns(m, can, fi);
      ReturnKept(s);
    }
    ReplacedLively(m, can, fi, s.Inlined());
  }

  lemma CandidateReturns(m: Module, can: seq<bool>, fi: nat)
    requires Lively(m, can) && fi < |m| && fi < |can| && can[fi]
    ensures HasReturn(m[fi])
  {}

  lemma ReachedAccepted(f: Fn)
    requires Checked(f) && AllReached(f)
    ensures Accepts(f)
  {
    hide Checked;
    hide Accepts;
    hide Reachable;
    hide PhisApart;
    AllReachedAccepts(f);
  }

  lemma ReplacedLively(m: Module, can: seq<bool>, fi: nat, f: Fn)
    requires Lively(m, can) && fi < |m| && AllReached(f) && (fi < |can| && can[fi] ==> HasReturn(f))
    ensures Lively(m[fi := f], can)
  {
    hide AllReached;
    hide HasReturn;
  }

  // ----- The scan -----

  /** What the scan keeps of a healthy, lively module: it is that still, and nothing has been rejected. */
  ghost predicate Thrives(m: Module, fi: nat, can: seq<bool>, st: Scan) {
    !st.Astray? && fi < |m| && st.f.name == m[fi].name && Healthy(m[fi := st.f], can) && Lively(m[fi := st.f], can)
  }

  lemma TakenNow(m: Module, fi: nat, can: seq<bool>, s: Site)
    requires fi < |m| && s.caller.name == m[fi].name && Taken(m, fi, can, s)
    ensures Taken(m[fi := s.caller], fi, can, s)
  { SameNames(m, fi, s.caller, s.Call().callee); }

  lemma Moves(m: Module, fi: nat, can: seq<bool>, f: Fn, bi: nat, k: nat)
    requires Modular(m, can) && Thrives(m, fi, can, Scanning(f, bi, k))
    requires bi < |f.blocks| && k < |f.blocks[bi].insts| && Eligible(m, fi, can, f.blocks[bi].insts[k])
    ensures var st := Advance(m, fi, can, Scanning(f, bi, k));
      st.Scanning? && st.bi == 0 && st.k == 0 && Accepts(st.f) && Thrives(m, fi, can, st)
  {
    hide *;
    ThrivesIs(m, fi, can, Scanning(f, bi, k));
    var s := EditIs(m, fi, can, f, bi, k);
    TakenNow(m, fi, can, s);
    ReplacedTwice(m, fi, f, s.Inlined());
    LivelyRound(m[fi := f], can, fi, s);
    InlinedKeeps(s);
    ThrivesStill(m, fi, can, s.Inlined());
  }

  lemma ReplacedTwice(m: Module, fi: nat, f: Fn, g: Fn)
    requires fi < |m|
    ensures m[fi := f][fi := g] == m[fi := g]
  {}

  lemma ThrivesIs(m: Module, fi: nat, can: seq<bool>, st: Scan)
    requires Thrives(m, fi, can, st)
    ensures !st.Astray? && fi < |m| && st.f.name == m[fi].name && Healthy(m[fi := st.f], can)
      && Lively(m[fi := st.f], can)
  {}

  lemma ThrivesStill(m: Module, fi: nat, can: seq<bool>, g: Fn)
    requires fi < |m| && g.name == m[fi].name && Healthy(m[fi := g], can) && Lively(m[fi := g], can)
    ensures Thrives(m, fi, can, Scanning(g, 0, 0))
  {
    hide Healthy;
    hide Lively;
  }

  lemma StaysThriving(m: Module, fi: nat, can: seq<bool>, st: Scan)
    requires Modular(m, can) && Thrives(m, fi, can, st)
    ensures Thrives(m, fi, can, Advance(m, fi, can, st))
  {
    hide Healthy;
    hide Lively;
    hide Accepts;
    hide TakesAfter;
    hide Modular;
    if st.Scanning? && st.bi < |st.f.blocks| && st.k < |st.f.blocks[st.bi].insts|
      && Eligible(m, fi, can, st.f.blocks[st.bi].insts[st.k]) {
      hide Advance;
      hide Eligible;
      Moves(m, fi, can, st.f, st.bi, st.k);
    }
  }

  lemma {:induction false} ThrivesOn(m: Module, fi: nat, can: seq<bool>, n: nat)
    requires Modular(m, can) && fi < |m| && Healthy(m, can) && Lively(m, can)
    ensures Thrives(m, fi, can, After(m, fi, can, Scanning(m[fi], 0, 0), n))
  {
    hide Advance;
    hide Healthy;
    hide Lively;
    if n > 0 {
      ThrivesOn(m, fi, can, n - 1);
      hide Thrives;
      StaysThriving(m, fi, can, After(m, fi, can, Scanning(m[fi], 0, 0), n - 1));
    } else {
      assert m[fi := m[fi]] == m;
    }
  }

  /** In such a module no edit is rejected, and the scan of a function comes to an end exactly when no cycle of
      functions that may be inlined can be got to from a call it would take. */
  lemma LivelyScanEndsExactlyWhen(m: Module, fi: nat, can: seq<bool>)
    requires Modular(m, can) && fi < |m| && Healthy(m, can) && Lively(m, can)
    ensures !GoesAstray(m, fi, can, m[fi])
    ensures ComesToAnEnd(m, fi, can, m[fi]) <==> !Endless(m, fi, can, m[fi].blocks)
  {
    hide After;
    hide Healthy;
    hide Lively;
    hide Endless;
    forall n: nat ensures !After(m, fi, can, Scanning(m[fi], 0, 0), n).Astray? { ThrivesOn(m, fi, can, n); }
    ScanEndsExactlyWhen(m, fi, can, m[fi]);
  }
}
