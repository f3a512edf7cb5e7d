module InlineReject {
  // Calls whose inlining the check rejects although caller and callee have passed it, and what the scan does then
  // (src/ir/ir_ipa.c:666-675, 746-752).

  import opened Options
  import opened Ir
  import opened SsaIr
  import opened Graphs
  import opened Inlining
  import opened InlineStructure
  import opened InlinePaths
  import opened InlineForm
  import opened InlineReach
  import opened SsaCheck
  import opened InlineCheck
  import opened InlineEnding
  import opened InlineScan
  import opened InlineLively

  function OneBlock(name: string, params: nat, insts: seq<Inst>, regs: nat): Fn {
    Fn(name, params, [SsaBlock(0, [], insts)], regs, 1)
  }

  /** `return p0 + 1`. */
  const PLUS := OneBlock("g", 1, [Bin(Add, 0, Param(0), ConstInt(1)), Ret(Some(Reg(0)))], 1)

  /** Goes round for ever. */
  const SPIN := OneBlock("spin", 0, [Br(0)], 0)

  const HALT := OneBlock("h", 0, [Ret(None)], 0)

  /** `return;`, and after it a call of `g` whose result is printed. */
  const DEAD_CALL := Fn("f", 1, [SsaBlock(0, [], [Ret(None)]),
    SsaBlock(1, [], [Call(Some(0), "g", [Param(0)]), Print(Reg(0)), Ret(None)])], 1, 2)

  /** Prints what `spin` returns. */
  const PRINTS_SPIN := OneBlock("f", 0, [Call(Some(0), "spin", []), Print(Reg(0)), Ret(None)], 1)

  /** Calls `spin`. */
  const CALLS_SPIN := OneBlock("f", 0, [Call(None, "spin", []), Ret(None)], 0)

  /** Calls `spin` and `h`, and prints what `spin` returned. */
  const CALLS_BOTH := OneBlock("f", 0, [Call(Some(0), "spin", []), Call(None, "h", []), Print(Reg(0)), Ret(None)], 1)

  const BOTH := [CALLS_BOTH, SPIN, HALT]

  // ----- Functions of one block -----

  predicate EndsHere(insts: seq<Inst>) {
    && insts != [] && (forall k :: 0 <= k < |insts| ==> (IsTerminator(insts[k]) <==> k == |insts| - 1))
    && Targets(insts[|insts|-1]) in {[], [0]}
  }

  /** At most the first instruction defines something, register 0. */
  predicate FirstDefines(insts: seq<Inst>, regs: nat) {
    forall k :: 0 <= k < |insts| && Dst(insts[k]).Some? ==> k == 0 && Dst(insts[k]) == Some(0) && regs > 0
  }

  /** Nothing else is used, and not by the first. */
  predicate UsesFirst(insts: seq<Inst>) {
    forall k, v :: 0 <= k < |insts| && v in Operands(insts[k]) && v.Reg? ==>
      k > 0 && v.id == 0 && Dst(insts[0]) == Some(0)
  }

  predicate Straight(insts: seq<Inst>, regs: nat) { EndsHere(insts) && FirstDefines(insts, regs) && UsesFirst(insts) }

  lemma OneBlocks(name: string, params: nat, insts: seq<Inst>, regs: nat)
    requires EndsHere(insts)
    ensures var f := OneBlock(name, params, insts, regs);
      Blocks(f) && Known(f) && Hears(f) && PhisFollow(f) && AllReached(f)
  {
    var f := OneBlock(name, params, insts, regs);
    hide IsTerminator;
    hide Targets;
    ReachSelf(Cfg(f), 0);
    assert FindSsa(f.blocks, 0) == Some(f.blocks[0]);
    hide Cfg;
    assert EndsOnce(f.blocks[0]);
    hide EndsOnce;
    assert SuccIds(f.blocks[0]) in {[], [0]};
    hide SuccIds;
  }

  lemma StraightUses(name: string, params: nat, insts: seq<Inst>, regs: nat)
    requires EndsHere(insts) && UsesFirst(insts)
    ensures UsesFollow(OneBlock(name, params, insts, regs))
  {
    var f := OneBlock(name, params, insts, regs);
    hide IsTerminator;
    hide Targets;
    hide Operands;
    hide Reachable;
    forall j: nat, q: nat, r: nat | j < |f.blocks| && Reachable(f, f.blocks[j].id) && q < |f.blocks[j].insts|
      && r in UsedRegs(f.blocks[j].insts[q])
      ensures UseOk(f, j, q, r)
    {
      assert Reg(r) in Operands(insts[q]);
      assert DefAt(f, 0, 0, r) && Before(f, 0, 0, 0, q);
    }
  }

  lemma StraightForm(name: string, params: nat, insts: seq<Inst>, regs: nat)
    requires Straight(insts, regs)
    ensures Checked(OneBlock(name, params, insts, regs))
  {
    var f := OneBlock(name, params, insts, regs);
    OneBlocks(name, params, insts, regs);
    StraightUses(name, params, insts, regs);
    assert forall i, p, r: nat :: DefAt(f, i, p, r) ==> i == 0 && p == 0 && r == 0 && regs > 0;
    assert f.nextReg == regs;
    hide OneBlock;
    hide DefAt;
    hide Straight;
    hide UsesFollow;
    hide PhisFollow;
    hide Blocks;
    hide Known;
    hide Hears;
  }

  lemma StraightPasses(name: string, params: nat, insts: seq<Inst>, regs: nat)
    requires Straight(insts, regs)
    ensures var f := OneBlock(name, params, insts, regs); Checked(f) && AllReached(f) && Accepts(f)
  {
    StraightForm(name, params, insts, regs);
    OneBlocks(name, params, insts, regs);
    hide *;
    ReachedAccepted(OneBlock(name, params, insts, regs));
  }

  lemma PlusPasses()
    ensures Checked(PLUS) && AllReached(PLUS) && Accepts(PLUS)
  {
    assert Straight(PLUS.blocks[0].insts, PLUS.nextReg);
    hide Checked;
    hide AllReached;
    hide Accepts;
    hide Straight;
    StraightPasses(PLUS.name, PLUS.params, PLUS.blocks[0].insts, PLUS.nextReg);
  }

  lemma SpinPasses()
    ensures Checked(SPIN) && AllReached(SPIN) && Accepts(SPIN)
  {
    assert Straight(SPIN.blocks[0].insts, SPIN.nextReg);
    hide Checked;
    hide AllReached;
    hide Accepts;
    hide Straight;
    StraightPasses(SPIN.name, SPIN.params, SPIN.blocks[0].insts, SPIN.nextReg);
  }

  lemma PrintsPasses()
    ensures Checked(PRINTS_SPIN) && AllReached(PRINTS_SPIN) && Accepts(PRINTS_SPIN)
  {
    assert Straight(PRINTS_SPIN.blocks[0].insts, PRINTS_SPIN.nextReg);
    hide Checked;
    hide AllReached;
    hide Accepts;
    hide Straight;
    StraightPasses(PRINTS_SPIN.name, PRINTS_SPIN.params, PRINTS_SPIN.blocks[0].insts, PRINTS_SPIN.nextReg);
  }

  lemma CallsPasses()
    ensures Checked(CALLS_SPIN) && AllReached(CALLS_SPIN) && Accepts(CALLS_SPIN)
  {
    assert Straight(CALLS_SPIN.blocks[0].insts, CALLS_SPIN.nextReg);
    hide Checked;
    hide AllReached;
    hide Accepts;
    hide Straight;
    StraightPasses(CALLS_SPIN.name, CALLS_SPIN.params, CALLS_SPIN.blocks[0].insts, CALLS_SPIN.nextReg);
  }

  lemma BothPasses()
    ensures Checked(CALLS_BOTH) && AllReached(CALLS_BOTH) && Accepts(CALLS_BOTH)
  {
    assert Straight(CALLS_BOTH.blocks[0].insts, CALLS_BOTH.nextReg);
    hide Checked;
    hide AllReached;
    hide Accepts;
    hide Straight;
    StraightPasses(CALLS_BOTH.name, CALLS_BOTH.params, CALLS_BOTH.blocks[0].insts, CALLS_BOTH.nextReg);
  }

  // ----- Printing what is defined elsewhere -----

  lemma {:induction false} NoDefs(insts: seq<Inst>)
    requires forall k :: 0 <= k < |insts| ==> Dst(insts[k]) == None
    ensures InstDefs(insts) == []
  { if insts != [] { NoDefs(insts[..|insts|-1]); } }

  lemma SeesRegister(r: nat)
    ensures r in Seen(Print(Reg(r)))
  { assert [Reg(r)][..0] == [] && RegsOf([Reg(r)]) == [r]; }

  lemma ContainedUse(b: SsaBlock, q: nat, r: nat)
    requires SelfContained(b) && q < |b.insts| && r in Seen(b.insts[q])
    ensures r in DefsIn(b)
  {
    hide Seen;
    hide DefsIn;
  }

  /** A block that defines nothing and prints a register. */
  lemma PrintsForeign(b: SsaBlock, q: nat, r: nat)
    requires q < |b.insts| && b.insts[q] == Print(Reg(r)) && b.phis == []
    requires forall k :: 0 <= k < |b.insts| ==> Dst(b.insts[k]) == None
    ensures !SelfContained(b)
  {
    NoDefs(b.insts);
    SeesRegister(r);
    assert r !in DefsIn(b);
    hide *;
    if SelfContained(b) { ContainedUse(b, q, r); }
  }

  lemma SubstSame(s: Site, i: Inst)
    requires s.Valid() && !s.Replaced()
    ensures s.SubstInst(i) == i
  {
    hide s.Replaced;
    if i.Call? { assert s.SubstAll(i.args) == i.args; }
  }

  lemma SplitSame(s: Site)
    requires s.Valid() && !s.Replaced() && |s.AllReturns()| == 0
    ensures var b := s.SubstBlock(s.SplitBlock()); b.phis == [] && b.insts == s.Block().insts[s.k+1..]
  {
    SplitPhi(s);
    SplitInsts(s);
    hide s.SubstBlock;
    hide s.SplitBlock;
    hide s.AllReturns;
    hide s.SubstInst;
    var b := s.SubstBlock(s.SplitBlock());
    forall q | 0 <= q < |b.insts| ensures b.insts[q] == s.Block().insts[s.k+1..][q] {
      SubstSame(s, s.Block().insts[s.k + 1 + q]);
    }
  }

  // ----- A callee that never returns -----

  lemma SpinNeverReturns()
    ensures !CanReturn(SPIN)
  { hide Reachable; }

  lemma SpinSite(s: Site)
    requires s.Valid() && s.callee == SPIN
    ensures s.Returns(1) == [] && s.AllReturns() == [] && !s.Replaced() && |s.callee.blocks| == 1
    ensures SlotFree(SPIN) && SPIN.params == 0
  {
    assert s.ReturnsIn(0, 1) == s.ReturnsIn(0, 0) == [] && s.Returns(0) == [];
  }

  lemma SpinApt(s: Site)
    requires s.Valid() && s.callee == SPIN && Checked(s.caller) && s.Call().args == []
    ensures Apt(s)
  {
    SpinPasses();
    SpinSite(s);
    ReadyAndChecked(s);
  }

  lemma ReadyAndChecked(s: Site)
    requires s.Valid() && Checked(s.caller) && Checked(s.callee) && SlotFree(s.callee)
    requires |s.Call().args| == s.callee.params && |s.Returns(|s.callee.blocks|)| <= MAX_RETURNS
    ensures Apt(s)
  {
    SsaBlocks(s.callee);
    hide SsaForm;
    hide Blocks;
    hide Known;
    hide Hears;
    hide SlotFree;
  }

  lemma SplitCrosses(s: Site)
    requires s.Valid() && s.callee.blocks != [] && !CanReturn(s.callee)
      && !SelfContained(s.SubstBlock(s.SplitBlock()))
    ensures !StaysTogether(s)
  {
    hide CanReturn;
    hide SelfContained;
  }

  /** A use of the result of a callee that never returns, in what follows the call. */
  lemma SpinRejected(s: Site, q: nat, r: nat)
    requires s.Valid() && s.callee == SPIN && Apt(s) && Accepts(s.caller)
    requires var rest := s.Block().insts[s.k+1..];
      q < |rest| && rest[q] == Print(Reg(r)) && forall k :: 0 <= k < |rest| ==> Dst(rest[k]) == None
    ensures s.callee.blocks != [] && !Accepts(s.Inlined())
  {
    hide *;
    SpinPasses();
    SpinSite(s);
    SpinNeverReturns();
    SplitSame(s);
    PrintsForeign(s.SubstBlock(s.SplitBlock()), q, r);
    SplitCrosses(s);
    AcceptedExactlyWhen(s);
  }

  lemma PrintsSite(s: Site)
    requires s == Site(PRINTS_SPIN, 0, 0, SPIN)
    ensures s.Valid() && s.Call().args == [] && s.callee.blocks != []
    ensures var rest := s.Block().insts[s.k+1..];
      |rest| == 2 && rest[0] == Print(Reg(0)) && forall k :: 0 <= k < 2 ==> Dst(rest[k]) == None
  {}

  /** A callee that never returns, with a result that is used: both pass the check, and the inlining does not. */
  lemma UsedResultRejected()
    ensures var s := Site(PRINTS_SPIN, 0, 0, SPIN);
      Apt(s) && s.Valid() && s.callee.blocks != [] && Accepts(s.caller) && Accepts(s.callee) && !Accepts(s.Inlined())
  {
    hide *;
    var s := Site(PRINTS_SPIN, 0, 0, SPIN);
    PrintsPasses();
    SpinPasses();
    PrintsSite(s);
    SpinApt(s);
    SpinRejected(s, 0, 0);
  }

  lemma CallsSite(s: Site)
    requires s == Site(CALLS_SPIN, 0, 0, SPIN)
    ensures s.Valid() && s.Call().args == [] && s.callee.blocks != [] && s.Block().insts[s.k+1..] == [Ret(None)]
    ensures |s.caller.blocks| == 1 == |s.callee.blocks| && SiteId(s) == s.caller.blocks[0].id
  {}

  /** With nothing used across the call, such a callee can be inlined. */
  lemma UnusedResultAccepted()
    ensures var s := Site(CALLS_SPIN, 0, 0, SPIN);
      Apt(s) && s.Valid() && s.callee.blocks != [] && !CanReturn(s.callee) && Accepts(s.Inlined())
  {
    hide *;
    var s := Site(CALLS_SPIN, 0, 0, SPIN);
    CallsPasses();
    SpinPasses();
    SpinNeverReturns();
    CallsSite(s);
    ReachedAt(s.caller, 0);
    ReachedAt(s.callee, 0);
    SpinApt(s);
    SpinSite(s);
    SplitSame(s);
    NothingUsed(s);
    AcceptedExactlyWhen(s);
  }

  lemma ReturnContained(b: SsaBlock)
    requires b.insts == [Ret(None)]
    ensures SelfContained(b)
  { assert Seen(Ret(None)) == []; }

  lemma SiteStill(s: Site)
    requires s.Valid() && s.callee.blocks != [] && SiteReached(s)
    ensures StillReached(s, s.bi)
  {
    hide Reachable;
    hide CanReturn;
  }

  lemma NothingUsed(s: Site)
    requires s.Valid() && |s.caller.blocks| == 1 == |s.callee.blocks|
    requires SiteId(s) == s.caller.blocks[0].id && Reachable(s.caller, s.caller.blocks[0].id)
      && Reachable(s.callee, s.callee.blocks[0].id)
    requires s.SubstBlock(s.SplitBlock()).insts == [Ret(None)]
    ensures StaysTogether(s)
  {
    ReturnContained(s.SubstBlock(s.SplitBlock()));
    assert SiteReached(s);
    SiteStill(s);
    assert s.bi == 0;
    hide s.SubstBlock;
    hide s.OldBlock;
    hide s.SplitBlock;
    hide s.CopyBlock;
    hide SelfContained;
    hide StillReached;
    hide Reachable;
    hide CanReturn;
  }

  // ----- A call that is never reached -----

  lemma FirstEdge(g: Graph, p: seq<nat>)
    requires IsPath(g, p) && |p| > 1
    ensures p[0] < |g| && p[1] in g[p[0]]
  { assert Edge(g, p[0], p[1]); }

  lemma DeadCallReach()
    ensures !Reachable(DEAD_CALL, 1)
  {
    var g := Cfg(DEAD_CALL);
    assert FindSsa(DEAD_CALL.blocks, 0) == Some(DEAD_CALL.blocks[0]);
    assert SuccIds(DEAD_CALL.blocks[0]) == [] && g[0] == KnownIds([], 2) && g[0] == [];
    hide Cfg;
    hide IsPath;
    forall p | IsPath(g, p) && p[0] == 0 ensures |p| <= 1 {
      if |p| > 1 {
        FirstEdge(g, p);
        assert false;
      }
    }
  }

  lemma DeadCallDefs(i: nat, p: int, r: nat)
    requires DefAt(DEAD_CALL, i, p, r)
    ensures i == 1 && p == 0 && r == 0
  {}

  lemma DeadCallBlocks()
    ensures Blocks(DEAD_CALL)
  {}

  lemma DeadCallLinks()
    ensures Known(DEAD_CALL) && Hears(DEAD_CALL) && PhisApart(DEAD_CALL)
  {}

  lemma DeadCallUses()
    ensures UsesFollow(DEAD_CALL) && PhisFollow(DEAD_CALL)
  {
    var f := DEAD_CALL;
    DeadCallReach();
    hide Reachable;
    assert f.blocks[0].insts == [Ret(None)] && UsedRegs(Ret(None)) == {};
    hide UsedRegs;
  }

  lemma DeadCallChecked()
    ensures Checked(DEAD_CALL) && PhisApart(DEAD_CALL)
  {
    DeadCallBlocks();
    DeadCallLinks();
    DeadCallUses();
    assert DEAD_CALL.nextReg == 1;
    hide DEAD_CALL;
    hide DefAt;
    hide UsesFollow;
    hide PhisFollow;
    hide Blocks;
    forall i: nat, p: int, j: nat, q: int, r: nat | DefAt(DEAD_CALL, i, p, r) && DefAt(DEAD_CALL, j, q, r)
      ensures i == j && p == q
    {
      DeadCallDefs(i, p, r);
      DeadCallDefs(j, q, r);
    }
    forall i: nat, p: int, r: nat | DefAt(DEAD_CALL, i, p, r) ensures r < DEAD_CALL.nextReg { DeadCallDefs(i, p, r); }
  }

  lemma TailContained()
    ensures SelfContained(DEAD_CALL.blocks[1])
  {
    var b := DEAD_CALL.blocks[1];
    InstDefsHold(b.insts, 0, 0);
    hide InstDefs;
    assert Operands(b.insts[0]) == [Param(0)] && Operands(b.insts[1]) == [Reg(0)] && Operands(b.insts[2]) == [];
    hide Operands;
    forall q, r | 0 <= q < |b.insts| && r in Seen(b.insts[q]) ensures r in DefsIn(b) {
      assert Reg(r) in Operands(b.insts[q]);
    }
  }

  lemma OtherReached()
    ensures DEAD_CALL.blocks != [] && UnreachedSelfContained(DEAD_CALL)
  {
    TailContained();
    assert |DEAD_CALL.blocks| == 2 && DEAD_CALL.blocks[0].insts == [Ret(None)] && Seen(Ret(None)) == [];
    hide Seen;
    hide DefsIn;
    hide Reachable;
  }

  lemma DeadCallPasses()
    ensures Checked(DEAD_CALL) && Accepts(DEAD_CALL)
  {
    hide *;
    DeadCallChecked();
    OtherReached();
    AcceptsExactlyWhen(DEAD_CALL);
  }

  lemma PlusDefs()
    ensures DefsOf(PLUS.blocks) == [0]
  {
    var b := PLUS.blocks[0];
    assert PLUS.blocks[..0] == [] && b.insts[..1][..0] == [] && b.insts[..1] == [b.insts[0]];
    assert InstDefs(b.insts[..1]) == [0];
    assert InstDefs(b.insts) == InstDefs(b.insts[..1]) + [];
    assert DefsOf(PLUS.blocks) == DefsOf([]) + PhiDefs([]) + InstDefs(b.insts);
  }

  lemma PlusRenamed(s: Site)
    requires s.callee == PLUS && s.caller.nextReg == 1
    ensures s.Renaming() == map[0 := 1]
  {
    PlusDefs();
    hide DefsOf;
    assert [0][..0] == [];
  }

  lemma PlusReturns(s: Site)
    requires s.Valid() && s.callee == PLUS && s.caller.nextReg == 1
    ensures s.Returns(1) == [(s.CopyId(0), Reg(1))] && s.AllReturns() == [(s.CopyId(0), Reg(1))]
  {
    PlusRenamed(s);
    hide s.Renaming;
    var insts := PLUS.blocks[0].insts;
    assert s.Remap(Reg(0)) == Reg(1);
    hide s.Remap;
    assert s.ReturnsIn(0, 1) == s.ReturnsIn(0, 0) + [] == [];
    assert s.ReturnsIn(0, 2) == s.ReturnsIn(0, 1) + [(s.CopyId(0), s.Remap(Reg(0)))];
    assert s.Returns(1) == s.Returns(0) + s.ReturnsIn(0, 2);
  }

  lemma DeadInsts()
    ensures var insts := DEAD_CALL.blocks[1].insts;
      |insts| == 3 && insts[0] == Call(Some(0), "g", [Param(0)]) && insts[1] == Print(Reg(0)) && insts[2] == Ret(None)
    ensures |DEAD_CALL.blocks| == 2 && DEAD_CALL.nextReg == 1
  {}

  lemma PrintReplaced(s: Site)
    requires s.Valid() && s.Call().result == Some(0) && |s.AllReturns()| == 1 && s.AllReturns()[0].1 == Reg(1)
    ensures s.SubstInst(Print(Reg(0))) == Print(Reg(1)) && s.SubstInst(Ret(None)) == Ret(None)
    ensures Dst(Print(Reg(1))) == None && Dst(Ret(None)) == None
  { hide s.AllReturns; }

  lemma DeadSite(s: Site)
    requires s == Site(DEAD_CALL, 1, 0, PLUS)
    ensures s.Valid() && s.Block() == DEAD_CALL.blocks[1] && s.Call() == s.Block().insts[0]
    ensures s.callee.blocks != [] && |s.callee.blocks| == 1 && !SiteReached(s) && SlotFree(s.callee)
      && |s.Call().args| == s.callee.params && s.caller.nextReg == 1
  {
    DeadCallReach();
    hide Reachable;
  }

  lemma DeadSplit(s: Site)
    requires s == Site(DEAD_CALL, 1, 0, PLUS)
    ensures s.Valid() && var b := s.SubstBlock(s.SplitBlock());
      && b.phis == [] && |b.insts| == 2 && b.insts[0] == Print(Reg(1))
      && forall k :: 0 <= k < 2 ==> Dst(b.insts[k]) == None
  {
    hide *;
    DeadInsts();
    DeadSite(s);
    PlusReturns(s);
    SplitPhi(s);
    SplitInsts(s);
    PrintReplaced(s);
    var b := s.SubstBlock(s.SplitBlock());
    assert b.insts[0] == s.SubstInst(s.Block().insts[s.k + 1 + 0]);
    assert b.insts[1] == s.SubstInst(s.Block().insts[s.k + 1 + 1]);
  }

  lemma DeadCrosses(s: Site)
    requires s.Valid() && s.callee.blocks != [] && !SiteReached(s) && !SelfContained(s.SubstBlock(s.SplitBlock()))
    ensures !StaysTogether(s)
  {
    hide SiteReached;
    hide SelfContained;
  }

  lemma DeadApt(s: Site)
    requires s == Site(DEAD_CALL, 1, 0, PLUS)
    ensures Apt(s)
  {
    hide *;
    PlusPasses();
    DeadCallPasses();
    DeadSite(s);
    PlusReturns(s);
    OneLong(s.Returns(1), (s.CopyId(0), Reg(1)));
    ReadyAndChecked(s);
  }

  lemma OneLong<T>(xs: seq<T>, x: T)
    requires xs == [x]
    ensures |xs| <= MAX_RETURNS
  {}

  lemma PlusCanReturn()
    ensures CanReturn(PLUS)
  {
    PlusPasses();
    assert HasReturn(PLUS) by { assert ReturnsAtEnd(PLUS.blocks[0]); }
    hide AllReached;
    ReturnReached(PLUS);
  }

  /** A call after a return: caller and callee pass the check and the callee returns, but the inlining does not pass:
      what follows the call prints a register of the copied block, and neither block can be reached. */
  lemma DeadCallRejected()
    ensures var s := Site(DEAD_CALL, 1, 0, PLUS);
      Apt(s) && s.Valid() && Accepts(DEAD_CALL) && Accepts(PLUS) && CanReturn(PLUS) && !Accepts(s.Inlined())
  {
    hide *;
    var s := Site(DEAD_CALL, 1, 0, PLUS);
    PlusPasses();
    DeadCallPasses();
    PlusCanReturn();
    DeadSite(s);
    DeadApt(s);
    DeadSplit(s);
    PrintsForeign(s.SubstBlock(s.SplitBlock()), 0, 1);
    DeadCrosses(s);
    AcceptedExactlyWhen(s);
  }

  // ----- Astray -----

  const CANDIDATES := [false, true, true]

  lemma BothFound()
    ensures FindFn(BOTH, "spin") == Some(1) && FindFn(BOTH, "h") == Some(2)
  {
    var a, b := FindFn(BOTH, "spin"), FindFn(BOTH, "h");
    assert BOTH[1].name == "spin" && BOTH[2].name == "h" && BOTH[0].name == "f";
    assert |"spin"| == 4 && |"h"| == 1 && |"f"| == 1 && "h"[0] != "f"[0];
  }

  lemma BothTaken()
    ensures Modular(BOTH, CANDIDATES) && |CALLS_BOTH.blocks| == 1 && |CALLS_BOTH.blocks[0].insts| == 4
    ensures var insts := CALLS_BOTH.blocks[0].insts;
      Eligible(BOTH, 0, CANDIDATES, insts[0]) && TakesAfter(BOTH, 0, CANDIDATES, insts, 0)
        && FindFn(BOTH, insts[0].callee) == Some(1) && BOTH[1] == SPIN
  {
    BothFound();
    hide FindFn;
    var insts := CALLS_BOTH.blocks[0].insts;
    assert Eligible(BOTH, 0, CANDIDATES, insts[1]);
  }

  lemma BothSite(s: Site)
    requires s == Site(CALLS_BOTH, 0, 0, SPIN)
    ensures s.Valid() && s.Call().args == [] && s.Block() == CALLS_BOTH.blocks[0]
    ensures var rest := s.Block().insts[s.k+1..];
      |rest| == 3 && rest[1] == Print(Reg(0)) && forall k :: 0 <= k < 3 ==> Dst(rest[k]) == None
  {}

  lemma TheSite(s: Site)
    requires s.caller == CALLS_BOTH && s.bi == 0 && s.k == 0 && Taken(BOTH, 0, CANDIDATES, s)
      && FindFn(BOTH, CALLS_BOTH.blocks[0].insts[0].callee) == Some(1) && BOTH[1] == SPIN
    ensures s == Site(CALLS_BOTH, 0, 0, SPIN)
  { hide FindFn; }

  lemma AstrayAfter(m: Module, can: seq<bool>, f: Fn, g: Fn)
    requires Modular(m, can) && Advance(m, 0, can, Scanning(f, 0, 0)) == Astray(g)
    ensures GoesAstray(m, 0, can, f)
  {
    OneStep(m, 0, can, Scanning(f, 0, 0));
    hide Advance;
    hide After;
  }

  /** The edit is rejected, and the next instruction is a call that would be taken: the first step leads astray. */
  lemma ScanGoesAstray()
    ensures Modular(BOTH, CANDIDATES) && GoesAstray(BOTH, 0, CANDIDATES, CALLS_BOTH)
  {
    hide *;
    BothTaken();
    var s := EditIs(BOTH, 0, CANDIDATES, CALLS_BOTH, 0, 0);
    TheSite(s);
    BothSite(s);
    BothPasses();
    SpinApt(s);
    SpinRejected(s, 1, 0);
    AstrayAfter(BOTH, CANDIDATES, CALLS_BOTH, s.Inlined());
  }
}
