module AcceptedForm {
  // What it means that the check of static single assignment form passes a function, and what it does not look at
  // (src/ir/ir_ssa.c:464-585).

  import opened Options
  import opened Ir
  import opened SsaIr
  import opened Graphs
  import opened Dominators
  import opened Inlining
  import opened InlineStructure
  import opened InlinePaths
  import opened SsaCheck

  // ----- What acceptance says -----

  /** Whatever a phi names is a block with an edge to the phi's. */
  lemma AcceptedPhis(f: Fn, j: nat, p: nat, q: nat)
    requires Accepts(f) && j < |f.blocks| && p < |f.blocks[j].phis| && q < |f.blocks[j].phis[p].ins|
    ensures exists i ::
      0 <= i < |f.blocks| && f.blocks[i].id == f.blocks[j].phis[p].ins[q].0 && f.blocks[j].id in SuccIds(f.blocks[i])
  {
    hide SingleHomes;
    hide UsesAccepted;
    hide SuccIds;
    assert HasPred(f, j, f.blocks[j].phis[p].ins[q].0);
  }

  /** No register is defined at two places. */
  lemma AcceptedPlaces(f: Fn, i: nat, p: int, j: nat, q: int, r: nat)
    requires Accepts(f) && DefAt(f, i, p, r) && DefAt(f, j, q, r) && r < f.nextReg + 32
    ensures i == j && p == q
  {
    hide UsesAccepted;
    hide Hears;
    if i != j {
      DefinedIs(f, i, r);
      DefinedIs(f, j, r);
      assert false;
    } else if p < q {
      Ordered(f, i, p, q, r);
    } else if q < p {
      Ordered(f, i, q, p, r);
    }
  }

  lemma {:induction false} InstDefsLast(insts: seq<Inst>, k: nat)
    requires k < |insts| && Dst(insts[k]).Some?
    ensures |InstDefs(insts[..k])| < |InstDefs(insts)| && InstDefs(insts)[|InstDefs(insts[..k])|] == Dst(insts[k]).value
  {
    var front := insts[..|insts|-1];
    if k < |front| {
      InstDefsLast(front, k);
      assert front[..k] == insts[..k];
    }
  }

  lemma {:induction false} DefsGrow(insts: seq<Inst>, l: nat)
    requires l <= |insts|
    ensures |InstDefs(insts[..l])| <= |InstDefs(insts)|
  {
    if l < |insts| {
      DefsGrow(insts[..|insts|-1], l);
      assert insts[..|insts|-1][..l] == insts[..l];
    } else {
      assert insts[..l] == insts;
    }
  }

  /** The place of a definition among those of its block. */
  lemma PlaceOf(f: Fn, i: nat, p: int, r: nat) returns (x: nat)
    requires DefAt(f, i, p, r)
    ensures x < |DefsIn(f.blocks[i])| && DefsIn(f.blocks[i])[x] == r
    ensures var b := f.blocks[i]; if p == -1 then x < |b.phis| else x == |b.phis| + |InstDefs(b.insts[..p])|
  {
    var b := f.blocks[i];
    if p == -1 {
      x :| 0 <= x < |b.phis| && PhiDefs(b.phis)[x] == r;
    } else {
      InstDefsLast(b.insts, p);
      x := |b.phis| + |InstDefs(b.insts[..p])|;
    }
  }

  lemma Ordered(f: Fn, i: nat, p: int, q: int, r: nat)
    requires SingleHomes(f) && DefAt(f, i, p, r) && DefAt(f, i, q, r) && p < q
    ensures r >= f.nextReg + 32
  {
    var b := f.blocks[i];
    var x := PlaceOf(f, i, p, r);
    var y := PlaceOf(f, i, q, r);
    if p != -1 { DefsBetween(b.insts, p, q); }
    assert Apart(DefsIn(b), Limit(f));
  }

  lemma DefsBetween(insts: seq<Inst>, p: nat, q: nat)
    requires p < q <= |insts| && Dst(insts[p]).Some?
    ensures |InstDefs(insts[..p])| < |InstDefs(insts[..q])|
  {
    DefsGrow(insts[..q], p + 1);
    assert insts[..q][..p+1] == insts[..p+1] && insts[..p+1][..p] == insts[..p];
  }

  /** Nor by two phis of one block. */
  lemma AcceptedPhiDefs(f: Fn, i: nat, x: nat, y: nat)
    requires Accepts(f) && i < |f.blocks| && x < y < |f.blocks[i].phis| && f.blocks[i].phis[x].dst < f.nextReg + 32
    ensures f.blocks[i].phis[x].dst != f.blocks[i].phis[y].dst
  {
    hide UsesAccepted;
    hide Hears;
    var defs := DefsIn(f.blocks[i]);
    assert Apart(defs, Limit(f)) && defs[x] == f.blocks[i].phis[x].dst && defs[y] == f.blocks[i].phis[y].dst;
  }

  /** One of the first 32 register operands of a reachable instruction is defined in its block, or in one that is on
      every path to it. */
  lemma AcceptedUse(f: Fn, j: nat, q: nat, k: nat) returns (i: nat, p: int)
    requires Accepts(f) && j < |f.blocks| && q < |f.blocks[j].insts| && Reachable(f, f.blocks[j].id)
    requires k < 32 && k < |RegsOf(Operands(f.blocks[j].insts[q]))|
    ensures DefAt(f, i, p, RegsOf(Operands(f.blocks[j].insts[q]))[k])
    ensures f.blocks[i].id == f.blocks[j].id || BlockDom(f, f.blocks[i].id, f.blocks[j].id)
  {
    var rs := RegsOf(Operands(f.blocks[j].insts[q]));
    var r := rs[k];
    hide SingleHomes;
    hide Hears;
    hide BlockDom;
    hide Reachable;
    assert FirstSeen(rs)[k] == r;
    assert UseAccepted(f, j, q, r);
    i :| 0 <= i < |f.blocks| && r in DefsIn(f.blocks[i]) && Dominated(f, f.blocks[i].id, f.blocks[j].id);
    DefinedIs(f, i, r);
    p :| DefAt(f, i, p, r);
  }

  // ----- Acceptance and form -----

  ghost predicate EverythingReached(f: Fn) {
    f.blocks != [] && forall j :: 0 <= j < |f.blocks| ==> Reachable(f, f.blocks[j].id)
  }

  /** No instruction has more register operands than are looked at. */
  predicate FewOperands(f: Fn) {
    forall j, q ::
      0 <= j < |f.blocks| && 0 <= q < |f.blocks[j].insts| ==> |RegsOf(Operands(f.blocks[j].insts[q]))| <= 32
  }

  ghost predicate DefsBelow(f: Fn) { forall i: nat, p: int, r: nat :: DefAt(f, i, p, r) ==> r < f.nextReg }

  /** What a block defines and uses it uses after it has defined it. */
  ghost predicate InOrder(f: Fn) {
    forall j: nat, p: int, q: nat, r: nat ::
      DefAt(f, j, p, r) && q < |f.blocks[j].insts| && r in UsedRegs(f.blocks[j].insts[q]) ==> p < q
  }

  /** Well-formed blocks, all reachable, with registers and operands in bounds. */
  ghost predicate Bounded(f: Fn) {
    Blocks(f) && Known(f) && DefsBelow(f) && EverythingReached(f) && FewOperands(f)
  }

  lemma UseFollows(f: Fn, j: nat, q: nat, r: nat)
    requires Bounded(f) && Accepts(f) && InOrder(f)
    requires j < |f.blocks| && q < |f.blocks[j].insts| && r in UsedRegs(f.blocks[j].insts[q])
    ensures UseOk(f, j, q, r)
  {
    var rs := RegsOf(Operands(f.blocks[j].insts[q]));
    assert Reg(r) in Operands(f.blocks[j].insts[q]) && r in rs;
    var k :| 0 <= k < |rs| && rs[k] == r;
    assert UniqueSsaIds(f.blocks) && Reachable(f, f.blocks[j].id);
    var i, p := AcceptedUse(f, j, q, k);
    hide Accepts;
    hide BlockDom;
    hide Reachable;
    hide Blocks;
    if f.blocks[i].id == f.blocks[j].id { assert i == j; }
    DefInside(f, i, p, r);
    assert Before(f, i, p, j, q);
  }

  lemma DefInside(f: Fn, i: nat, p: int, r: nat)
    requires DefAt(f, i, p, r)
    ensures i < |f.blocks|
  {}

  lemma AcceptedHasForm(f: Fn)
    requires Bounded(f) && Accepts(f) && InOrder(f) && PhisFollow(f)
    ensures SsaForm(f) && Hears(f) && PhisApart(f)
  {
    assert Blocks(f) && Hears(f);
    forall i: nat, p: int, j: nat, q: int, r: nat | DefAt(f, i, p, r) && DefAt(f, j, q, r) ensures i == j && p == q {
      AcceptedPlaces(f, i, p, j, q, r);
    }
    forall j: nat, q: nat, r: nat | j < |f.blocks| && q < |f.blocks[j].insts| && r in UsedRegs(f.blocks[j].insts[q])
      ensures UseOk(f, j, q, r)
    {
      UseFollows(f, j, q, r);
    }
    forall i: nat, x, y | i < |f.blocks| && 0 <= x < y < |f.blocks[i].phis|
      ensures f.blocks[i].phis[x].dst != f.blocks[i].phis[y].dst
    {
      assert DefAt(f, i, -1, f.blocks[i].phis[x].dst) by { PhiDefined(f, i, x); }
      AcceptedPhiDefs(f, i, x, y);
    }
    hide Accepts;
    hide DefAt;
    hide Blocks;
    hide PhisFollow;
    hide UseOk;
  }

  lemma PhiDefined(f: Fn, i: nat, x: nat)
    requires i < |f.blocks| && x < |f.blocks[i].phis|
    ensures DefAt(f, i, -1, f.blocks[i].phis[x].dst)
  { assert PhiDefs(f.blocks[i].phis)[x] == f.blocks[i].phis[x].dst; }

  lemma FormInOrder(f: Fn)
    requires SsaForm(f) && EverythingReached(f)
    ensures InOrder(f)
  {
    forall j: nat, p: int, q: nat, r: nat | DefAt(f, j, p, r) && q < |f.blocks[j].insts|
      && r in UsedRegs(f.blocks[j].insts[q])
      ensures p < q
    {
      assert Reachable(f, f.blocks[j].id) && UseOk(f, j, q, r);
    }
  }

  /** Of a function all of whose blocks can be reached the check asks for static single assignment form, but for two
      things it does not look at: the order within a block, and what phis read. */
  lemma FormExactlyWhen(f: Fn)
    requires Bounded(f)
    ensures SsaForm(f) && Hears(f) && PhisApart(f) <==> Accepts(f) && InOrder(f) && PhisFollow(f)
  {
    hide *;
    BoundedBlocks(f);
    if SsaForm(f) && Hears(f) && PhisApart(f) {
      BoundedIs(f);
      FormInOrder(f);
      FormPhis(f);
      AllReachedAccepts(f);
    }
    if Accepts(f) && InOrder(f) && PhisFollow(f) { AcceptedHasForm(f); }
  }

  lemma BoundedBlocks(f: Fn)
    requires Bounded(f)
    ensures Blocks(f) && f.blocks != []
  {}

  lemma BoundedIs(f: Fn)
    requires Bounded(f) && SsaForm(f) && Hears(f)
    ensures Checked(f) && EverythingReached(f) && f.blocks != []
    ensures forall j :: 0 <= j < |f.blocks| ==> Reachable(f, f.blocks[j].id)
  {}

  lemma FormPhis(f: Fn)
    requires SsaForm(f)
    ensures PhisFollow(f)
  {}

  // ----- What it passes all the same -----

  /** `print %0; %0 = 1; return;`. */
  const EARLY := Fn("f", 0, [SsaBlock(0, [], [Print(Reg(0)), Const(0, ConstInt(1)), Ret(None)])], 1, 1)

  /** A phi that reads a register nobody defines. */
  const GROUNDLESS := Fn("f", 0, [SsaBlock(0, [], [Br(1)]), SsaBlock(1, [Phi(0, [(0, Reg(1))])], [Ret(None)])], 2, 2)

  lemma DefsSnoc(insts: seq<Inst>, x: Inst)
    ensures InstDefs(insts + [x]) == InstDefs(insts) + if Dst(x).Some? then [Dst(x).value] else []
  { assert (insts + [x])[..|insts|] == insts; }

  lemma EarlyDefs()
    ensures DefsIn(EARLY.blocks[0]) == [0]
  {
    var a, b, c := Print(Reg(0)), Const(0, ConstInt(1)), Ret(None);
    DefsSnoc([], a);
    DefsSnoc([a], b);
    DefsSnoc([a, b], c);
    assert [] + [a] == [a] && [a] + [b] == [a, b] && [a, b] + [c] == EARLY.blocks[0].insts;
    assert PhiDefs(EARLY.blocks[0].phis) == [];
  }

  lemma EarlyUses(q: nat, r: nat)
    requires q < 3 && r in Seen(EARLY.blocks[0].insts[q])
    ensures r == 0
  {
    SeenUsed(EARLY.blocks[0].insts[q], r);
    hide Seen;
  }

  /** A register used before the instruction of the same block that defines it. */
  lemma EarlyUseAccepted()
    ensures Accepts(EARLY) && !SsaForm(EARLY)
  {
    var f := EARLY;
    EarlyDefs();
    ReachSelf(Cfg(f), 0);
    assert Dominated(f, f.blocks[0].id, f.blocks[0].id) && Limit(f) == 33;
    assert Reg(0) in Operands(f.blocks[0].insts[0]) && 0 in UsedRegs(f.blocks[0].insts[0]);
    assert !UseOk(f, 0, 0, 0) by {
      forall i: nat, pos: int | DefAt(f, i, pos, 0) ensures !Before(f, i, pos, 0, 0) { assert pos == 1; }
    }
    hide Dominated;
    hide DefsIn;
    hide Seen;
    hide Cfg;
    hide UseOk;
    hide PhisFollow;
    forall j: nat, q: nat, r: nat | j < |f.blocks| && q < |f.blocks[j].insts| && r in Seen(f.blocks[j].insts[q])
      ensures UseAccepted(f, j, q, r)
    {
      EarlyUses(q, r);
    }
  }

  lemma GroundlessDefs()
    ensures DefsIn(GROUNDLESS.blocks[0]) == [] && DefsIn(GROUNDLESS.blocks[1]) == [0]
  {
    DefsSnoc([], Br(1));
    DefsSnoc([], Ret(None));
    assert [] + [Br(1)] == [Br(1)] && [] + [Ret(None)] == [Ret(None)];
    assert PhiDefs(GROUNDLESS.blocks[0].phis) == [] && PhiDefs(GROUNDLESS.blocks[1].phis) == [0];
  }

  lemma NothingSeen(i: Inst)
    requires i.Br? || i == Ret(None)
    ensures Seen(i) == []
  {}

  lemma GroundlessUses()
    ensures UsesAccepted(GROUNDLESS)
  {
    var f := GROUNDLESS;
    NothingSeen(f.blocks[0].insts[0]);
    NothingSeen(f.blocks[1].insts[0]);
    hide Seen;
    hide UseAccepted;
    assert forall j: nat, q: nat :: j < |f.blocks| && q < |f.blocks[j].insts| ==> Seen(f.blocks[j].insts[q]) == [];
  }

  lemma GroundlessHears()
    ensures Hears(GROUNDLESS)
  {
    var f := GROUNDLESS;
    assert f.blocks[0].id == 0 && f.blocks[1].id in SuccIds(f.blocks[0]);
    assert HasPred(f, 1, 0);
  }

  lemma GroundlessReads()
    ensures !PhisFollow(GROUNDLESS)
  {
    var f := GROUNDLESS;
    ReachSelf(Cfg(f), 0);
    hide Cfg;
    assert Reachable(f, 0) && f.blocks[1].phis[0].ins[0] == (0, Reg(1));
    hide Reachable;
    forall i: nat, pos: int ensures !DefAt(f, i, pos, 1) {}
    assert !PhiUseOk(f, 0, 1);
    hide PhiUseOk;
  }

  /** A phi that reads what is defined nowhere. */
  lemma GroundlessPhiAccepted()
    ensures Accepts(GROUNDLESS) && !SsaForm(GROUNDLESS)
  {
    GroundlessDefs();
    GroundlessUses();
    GroundlessHears();
    GroundlessReads();
    hide DefsIn;
    hide UsesAccepted;
    hide Hears;
    hide PhisFollow;
    hide UsesFollow;
    hide Blocks;
  }
}
