module InlineCrowd {
  // A module the inliner never gets done with: its functions call each other in one component too large for the buffer
  // the recursion flags are set from (src/ir/ir_ipa.c:145-162, 681-755).

  import opened Options
  import opened Ir
  import opened SsaIr
  import opened Graphs
  import opened CallGraphs
  import opened CallGraphBuild
  import T = TarjanState
  import Interprocedural
  import opened InlineStructure
  import opened InlineWeights
  import opened InlineEnding
  import opened InlineDriving
  import opened Inlining
  import opened InlinePaths
  import opened InlineHealth
  import opened InlineScan
  import opened InlineLively

  function Name(i: nat): string { if i == 0 then MAIN else seq(i, _ => 'f') }

  function CallTo(i: nat): Inst { Call(None, Name(i), []) }

  function Plain(name: string, insts: seq<Inst>): Fn { Fn(name, 0, [SsaBlock(0, [], insts + [Ret(None)])], 0, 1) }

  function Neighbours(i: nat, n: nat): seq<Inst> {
    (if i > 1 then [CallTo(i - 1)] else []) + (if i < n then [CallTo(i + 1)] else [])
  }

  /** Functions 1 to `n` in a row, each calling those next to it, and a main function that calls them all. */
  function Row(n: nat): (m: Module)
    ensures |m| == n + 1 && m[0] == Plain(MAIN, seq(n, k requires 0 <= k < n => CallTo(k + 1)))
    ensures forall i: nat :: 1 <= i <= n ==> m[i] == Plain(Name(i), Neighbours(i, n))
  {
    seq(n + 1, i requires 0 <= i <= n =>
      if i == 0 then Plain(MAIN, seq(n, k requires 0 <= k < n => CallTo(k + 1))) else Plain(Name(i), Neighbours(i, n)))
  }

  // ----- Its calls -----

  lemma NamesDiffer(i: nat, j: nat)
    requires i != j
    ensures Name(i) != Name(j)
  {
    if i == 0 {
      assert Name(j)[0] == 'f';
    } else if j == 0 {
      assert Name(i)[0] == 'f';
    } else {
      assert |Name(i)| != |Name(j)|;
    }
  }

  lemma NameFound(n: nat, i: nat)
    requires i <= n
    ensures FindFn(Row(n), Name(i)) == Some(i)
  {
    var r := FindFn(Row(n), Name(i));
    assert Row(n)[i].name == Name(i);
    assert Row(n)[r.value].name == Name(r.value);
    if r.value != i { NamesDiffer(i, r.value); }
  }

  lemma RowTidy(n: nat)
    ensures OneMain(Row(n)) && forall v: nat ::
      v < |Row(n)| ==> Tidy(Row(n)[v]) && (v > 0 ==> InlineCost(Row(n)[v].blocks) <= DEFAULT_THRESHOLD)
  {
    var m := Row(n);
    forall i: nat | i <= n ensures m[i].name == Name(i) && (m[i].name == MAIN <==> i == 0) {
      if i != 0 { NamesDiffer(i, 0); }
    }
    forall v: nat | 0 < v <= n ensures InlineCost(m[v].blocks) <= DEFAULT_THRESHOLD {
      var insts := m[v].blocks[0].insts;
      assert InlineCost([]) == 0 && m[v].blocks[..0] == [];
      CheapInsts(insts);
    }
  }

  lemma {:induction false} CheapInsts(insts: seq<Inst>)
    ensures InstsCost(insts) <= 3 * |insts|
  { if insts != [] { CheapInsts(insts[..|insts|-1]); } }

  /** Who calls whom. */
  lemma RowCalls(n: nat, i: nat, j: nat)
    requires i <= n && 1 <= j <= n && (i == 0 || i == j + 1 || j == i + 1)
    ensures HasCall(Row(n), Row(n)[i].blocks, Some(j))
  {
    NameFound(n, j);
    var b := Row(n)[i].blocks[0];
    if i == 0 {
      assert b.insts[j - 1] == CallTo(j);
    } else {
      assert CallTo(j) in Neighbours(i, n);
    }
    hide FindFn;
    assert b in Row(n)[i].blocks && CallTo(j) in b.insts;
  }

  lemma NeighboursOnly(i: nat, n: nat, y: Inst)
    requires y.Call? && y in Neighbours(i, n) + [Ret(None)]
    ensures (i > 1 && y == CallTo(i - 1)) || (i < n && y == CallTo(i + 1))
  { hide Name; }

  lemma RowCallsOnly(n: nat, i: nat)
    requires 1 <= i <= n
    ensures !HasCall(Row(n), Row(n)[i].blocks, Some(i))
  {
    var m := Row(n);
    assert m[i].blocks == [SsaBlock(0, [], Neighbours(i, n) + [Ret(None)])];
    hide Row;
    hide Neighbours;
    hide Name;
    hide FindFn;
    forall x, y | x in m[i].blocks && y in x.insts && y.Call? ensures FindFn(m, y.callee) != Some(i) {
      NeighboursOnly(i, n, y);
      if i > 1 && y == CallTo(i - 1) { NameFound(n, i - 1); } else { NameFound(n, i + 1); }
    }
  }

  lemma RowEdge(n: nat, i: nat, j: nat)
    requires 1 <= i <= n && 1 <= j <= n && (i == j + 1 || j == i + 1)
    ensures Edge(GraphOf(CallsOf(Row(n))), i, j)
  {
    RowCalls(n, i, j);
    SitesAreCalls(Row(n), Row(n)[i].blocks, Some(j));
    CallEdges(CallsOf(Row(n)), i, j);
  }

  lemma RowValid(n: nat)
    ensures ValidGraph(GraphOf(CallsOf(Row(n)))) && |GraphOf(CallsOf(Row(n)))| == n + 1
  {
    CallsInModule(Row(n));
    ValidCalls(CallsOf(Row(n)));
  }

  /** The row is one component. */
  lemma {:induction false} RowMutual(n: nat, i: nat)
    requires 1 <= i <= n
    ensures Reach(GraphOf(CallsOf(Row(n))), 1, i) && Reach(GraphOf(CallsOf(Row(n))), i, 1)
  {
    hide *;
    var g := GraphOf(CallsOf(Row(n)));
    RowValid(n);
    if i == 1 {
      ReachSelf(g, 1);
    } else {
      RowMutual(n, i - 1);
      RowEdge(n, i - 1, i);
      RowEdge(n, i, i - 1);
      ReachStep(g, 1, i - 1, i);
      ReachSelf(g, i);
      ReachStep(g, i, i, i - 1);
      ReachTrans(g, i, i - 1, 1);
    }
  }

  // ----- Its flags -----

  ghost predicate PairHit(flagged: set<nat>, k: nat) { 2 * k + 1 in flagged || 2 * k + 2 in flagged }

  ghost function Upto(flagged: set<nat>, n: nat): set<nat> { set x | x in flagged && x <= n }

  /** As many members as pairs are needed to have one of each pair. */
  lemma {:induction false} PairsNeed(flagged: set<nat>, k: nat)
    requires forall j: nat :: j < k ==> PairHit(flagged, j)
    ensures |Upto(flagged, 2 * k)| >= k
  {
    if k > 0 {
      PairsNeed(flagged, k - 1);
      assert PairHit(flagged, k - 1);
      var x := if 2 * k - 1 in flagged then 2 * k - 1 else 2 * k;
      SubsetSize(Upto(flagged, 2 * (k - 1)) + {x}, Upto(flagged, 2 * k));
    }
  }

  ghost function Members(n: nat): (r: set<nat>)
    ensures |r| == n && forall x: nat :: x in r <==> 1 <= x <= n
  {
    assert 0 in Below(n + 1);
    Below(n + 1) - {0}
  }

  /** The component is too large for the buffer, so as many are flagged as it holds. */
  lemma RowFlags(n: nat, flags: seq<bool>)
    requires n > SCC_BUFFER && |flags| == n + 1 && Interprocedural.RightlyFlagged(GraphOf(CallsOf(Row(n))), 1, flags)
    ensures BufferFlagged(GraphOf(CallsOf(Row(n))), 1, flags)
    ensures forall x: nat :: 1 <= x <= n ==> x in Component(GraphOf(CallsOf(Row(n))), 1)
  {
    hide BufferFlagged;
    hide Reach;
    hide Row;
    hide CallsOf;
    hide GraphOf;
    var g := GraphOf(CallsOf(Row(n)));
    RowValid(n);
    forall x: nat | 1 <= x <= n ensures x in Component(g, 1) { RowMutual(n, x); }
    SubsetSize(Members(n), Component(g, 1));
  }

  lemma PairMissed(flagged: set<nat>, n: nat) returns (k: nat)
    requires |flagged| < n
    ensures k < n && !PairHit(flagged, k)
  {
    SubsetSize(Upto(flagged, 2 * n), flagged);
    if forall j: nat :: j < n ==> PairHit(flagged, j) { PairsNeed(flagged, n); }
    k :| k < n && !PairHit(flagged, k);
  }

  /** Of more than twice as many functions as the buffer holds, two neighbours are left without a flag. */
  lemma TwoUnflagged(n: nat, flags: seq<bool>) returns (i: nat)
    requires n > 2 * SCC_BUFFER + 1 && |flags| == n + 1
      && Interprocedural.RightlyFlagged(GraphOf(CallsOf(Row(n))), 1, flags)
    ensures 1 <= i < n && !flags[i] && !flags[i+1]
  {
    hide *;
    var g := GraphOf(CallsOf(Row(n)));
    RowFlags(n, flags);
    RowSize(n);
    BufferHolds(g, flags);
    var k := PairMissed(FlaggedIn(g, 1, flags), SCC_BUFFER + 1);
    i := 2 * k + 1;
    MissedIsUnflagged(g, flags, k);
  }

  lemma RowSize(n: nat)
    ensures |GraphOf(CallsOf(Row(n)))| == n + 1 && SCC_BUFFER == 64
  {}

  lemma BufferHolds(g: Graph, flags: seq<bool>)
    requires 1 < |flags| == |g| && BufferFlagged(g, 1, flags)
    ensures |FlaggedIn(g, 1, flags)| < SCC_BUFFER + 1
  {}

  lemma MissedIsUnflagged(g: Graph, flags: seq<bool>, k: nat)
    requires 2 * k + 2 < |flags| == |g| && !PairHit(FlaggedIn(g, 1, flags), k)
    requires forall x: nat :: 1 <= x < |g| ==> x in Component(g, 1)
    ensures !flags[2*k+1] && !flags[2*k+2]
  { hide Component; }

  // ----- It is never done -----

  /** Whatever functions of the row are left without a flag, inlining into the main function has no end. */
  lemma RowEndless(n: nat, flags: seq<bool>, can: seq<bool>)
    requires n > 2 * SCC_BUFFER + 1 && |flags| == |can| == n + 1
      && Interprocedural.RightlyFlagged(GraphOf(CallsOf(Row(n))), 1, flags)
    requires forall v: nat :: 1 <= v <= n ==> (can[v] <==> !flags[v])
    ensures Endless(Row(n), 0, can, Row(n)[0].blocks)
  {
    var m := Row(n);
    var i := TwoUnflagged(n, flags);
    var g := Takable(m, 0, can);
    RowCalls(n, 0, i);
    RowCalls(n, i, i + 1);
    RowCalls(n, i + 1, i);
    TakableEdge(m, 0, can, i, i + 1);
    TakableEdge(m, 0, can, i + 1, i);
    TakableValid(m, 0, can);
    ReachSelf(g, i);
    ReachSelf(g, i + 1);
    ReachStep(g, i + 1, i + 1, i);
    assert OnCycle(g, i);
    assert LeadsOn(m, 0, can, m[0].blocks, i);
  }

  lemma NoSelfCalls(n: nat, v: nat)
    requires 1 <= v <= n
    ensures Some(v) !in CallsOf(Row(n))[v]
  {
    RowCallsOnly(n, v);
    SitesAreCalls(Row(n), Row(n)[v].blocks, Some(v));
  }

  // ----- Every edit passes the check -----

  predicate BareCalls(insts: seq<Inst>) {
    forall k :: 0 <= k < |insts| ==> insts[k].Call? && insts[k] == Call(None, insts[k].callee, [])
  }

  lemma RowCallsBare(n: nat, i: nat) returns (insts: seq<Inst>)
    requires i <= n
    ensures Row(n)[i] == Plain(Name(i), insts) && BareCalls(insts)
  {
    insts := if i == 0 then seq(n, k requires 0 <= k < n => CallTo(k + 1)) else Neighbours(i, n);
    hide Name;
  }

  lemma BlockIs(name: string, insts: seq<Inst>)
    requires BareCalls(insts)
    ensures var b := Plain(name, insts).blocks[0];
      EndsOnce(b) && ReturnsAtEnd(b) && SuccIds(b) == [] && b.phis == [] && b.id == 0
    ensures var b := Plain(name, insts).blocks[0]; forall k :: 0 <= k < |b.insts| ==>
      Dst(b.insts[k]) == None && Operands(b.insts[k]) == [] && (b.insts[k].Call? || b.insts[k].Ret?)
        && (b.insts[k].Call? ==> b.insts[k].args == [])
  {}

  lemma PlainChecked(name: string, insts: seq<Inst>)
    requires BareCalls(insts)
    ensures Checked(Plain(name, insts))
  {
    BlockIs(name, insts);
    var f := Plain(name, insts);
    hide SuccIds;
    hide BareCalls;
    assert forall i, p, r :: !DefAt(f, i, p, r);
    hide DefAt;
    assert forall j, k :: 0 <= j < |f.blocks| && 0 <= k < |f.blocks[j].insts| ==> UsedRegs(f.blocks[j].insts[k]) == {};
    hide UsedRegs;
  }

  lemma PlainFit(name: string, insts: seq<Inst>)
    requires BareCalls(insts)
    ensures Fit(Plain(name, insts)) && AllReached(Plain(name, insts)) && HasReturn(Plain(name, insts))
  {
    BlockIs(name, insts);
    var f := Plain(name, insts);
    hide SuccIds;
    hide BareCalls;
    assert f.blocks[..0] == [] && CountReturns(f.blocks) == CountReturns(f.blocks[..0]) + 1;
    ReachSelf(Cfg(f), 0);
  }

  lemma PlainCallsFit(m: Module, can: seq<bool>, name: string, insts: seq<Inst>)
    requires BareCalls(insts) && forall v :: 0 <= v < |m| ==> m[v].params == 0
    ensures CallsFit(m, can, Plain(name, insts).blocks)
  {
    BlockIs(name, insts);
    hide FindFn;
    hide BareCalls;
  }

  lemma RowHealthy(n: nat, can: seq<bool>)
    requires |can| == n + 1
    ensures Healthy(Row(n), can) && Lively(Row(n), can)
  {
    var m := Row(n);
    hide Row;
    hide Checked;
    hide Fit;
    hide AllReached;
    hide HasReturn;
    hide CallsFit;
    hide BareCalls;
    forall v: nat | v < |m| ensures m[v].params == 0 { var insts := RowCallsBare(n, v); }
    forall v: nat | v < |m|
      ensures Checked(m[v]) && CallsFit(m, can, m[v].blocks) && Fit(m[v]) && AllReached(m[v]) && HasReturn(m[v])
    {
      var insts := RowCallsBare(n, v);
      PlainChecked(Name(v), insts);
      PlainFit(Name(v), insts);
      PlainCallsFit(m, can, Name(v), insts);
    }
  }

  lemma ScansOn(n: nat, can: seq<bool>, k: nat)
    requires |can| == n + 1 && Modular(Row(n), can) && Endless(Row(n), 0, can, Row(n)[0].blocks)
    ensures After(Row(n), 0, can, Scanning(Row(n)[0], 0, 0), k).Scanning?
  {
    hide *;
    var st := Scanning(Row(n)[0], 0, 0);
    RowHealthy(n, can);
    ThrivesOn(Row(n), 0, can, k);
    ThrivesIs(Row(n), 0, can, After(Row(n), 0, can, st, k));
    StuckFirst(Row(n), 0, can, Row(n)[0]);
    StuckForever(Row(n), 0, can, st, k);
    NotFinished(Row(n), 0, can, After(Row(n), 0, can, st, k));
  }

  lemma StuckFirst(m: Module, fi: nat, can: seq<bool>, f: Fn)
    requires Endless(m, fi, can, f.blocks)
    ensures Restless(m, fi, can, Scanning(f, 0, 0))
  {}

  lemma NotFinished(m: Module, fi: nat, can: seq<bool>, st: Scan)
    requires Restless(m, fi, can, st)
    ensures !st.Finished?
  {}

  lemma RowModular(n: nat, can: seq<bool>)
    requires |can| == n + 1
    ensures Modular(Row(n), can)
  {}

  /** The program's own flags and candidates for a row of functions, each cheap and none calling itself: every edit
      passes the check, and the scan of the main function has no end. */
  method NeverDone(n: nat, threshold: int) returns (can: seq<bool>)
    requires n > 2 * SCC_BUFFER + 1 && threshold >= DEFAULT_THRESHOLD
    ensures |can| == |Row(n)| && Modular(Row(n), can) && Endless(Row(n), 0, can, Row(n)[0].blocks)
    ensures Healthy(Row(n), can) && Lively(Row(n), can)
    ensures forall rounds: nat :: !AtMost(Row(n), 0, can, Row(n)[0], rounds)
    ensures forall steps: nat :: After(Row(n), 0, can, Scanning(Row(n)[0], 0, 0), steps).Scanning?
  {
    hide Row;
    hide Endless;
    hide AtMost;
    hide InlineCost;
    hide CallsOf;
    hide GraphOf;
    hide Interprocedural.RightlyFlagged;
    hide Modular;
    hide After;
    hide Healthy;
    hide Lively;
    var m := Row(n);
    RowTidy(n);
    var cg := new CallGraph(m);
    can := Candidates(cg, threshold);
    forall v: nat | 1 <= v <= n ensures can[v] <==> !cg.inRecursiveCycle[v] {
      NoSelfCalls(n, v);
      NamesDiffer(v, 0);
    }
    RowEndless(n, cg.inRecursiveCycle, can);
    RowModular(n, can);
    RowHealthy(n, can);
    forall steps: nat ensures After(m, 0, can, Scanning(m[0], 0, 0), steps).Scanning? { ScansOn(n, can, steps); }
    RowTidyBlocks(n);
    InliningEndsExactlyWhen(m, 0, can, m[0]);
  }

  lemma RowTidyBlocks(n: nat)
    ensures forall v :: 0 <= v < |Row(n)| ==> Row(n)[v].blocks != []
  {}
}
