module CallGraphBuild {
  // Building the call graph of a module: call sites, recursion, reachability and purity (src/ir/ir_ipa.c:170-360).

  import opened Options
  import opened Ir
  import opened SsaIr
  import opened Graphs
  import opened CallGraphs
  import opened Interprocedural
  import T = TarjanState

  const MAIN := "main"

  /** The call sites of a stretch of code, the last one first, as the list of a node is linked. */
  function Sites(m: Module, insts: seq<Inst>): seq<Option<nat>> {
    if insts == [] then []
    else Sites(m, insts[1..]) + if insts[0].Call? then [FindFn(m, insts[0].callee)] else []
  }

  function SitesOfBlocks(m: Module, blocks: seq<SsaBlock>): seq<Option<nat>> {
    if blocks == [] then [] else SitesOfBlocks(m, blocks[1..]) + Sites(m, blocks[0].insts)
  }

  function CallsOf(m: Module): (r: Calls)
    ensures |r| == |m| && forall i :: 0 <= i < |r| ==> r[i] == SitesOfBlocks(m, m[i].blocks)
  { seq(|m|, i requires 0 <= i < |m| => SitesOfBlocks(m, m[i].blocks)) }

  /** `f` holds the instruction `i`. */
  predicate Holds(f: Fn, i: Inst) { exists b :: b in f.blocks && i in b.insts }

  /** `f` has a call that resolves to `c` (None: to nothing in the module). */
  ghost predicate HasCall(m: Module, blocks: seq<SsaBlock>, c: Option<nat>) {
    exists b, i :: b in blocks && i in b.insts && i.Call? && FindFn(m, i.callee) == c
  }

  lemma {:induction false} SitesIs(m: Module, insts: seq<Inst>, c: Option<nat>)
    ensures c in Sites(m, insts) <==> exists i :: i in insts && i.Call? && FindFn(m, i.callee) == c
  {
    if insts != [] {
      SitesIs(m, insts[1..], c);
      assert insts == [insts[0]] + insts[1..];
    }
  }

  /** The list of a node holds exactly the calls of its function. */
  lemma {:induction false} SitesAreCalls(m: Module, blocks: seq<SsaBlock>, c: Option<nat>)
    ensures c in SitesOfBlocks(m, blocks) <==> HasCall(m, blocks, c)
  {
    if blocks != [] {
      SitesAreCalls(m, blocks[1..], c);
      SitesIs(m, blocks[0].insts, c);
      assert blocks == [blocks[0]] + blocks[1..];
    }
  }

  lemma CallsInModule(m: Module)
    ensures InModule(CallsOf(m))
  {
    var r: Calls := CallsOf(m);
    forall i, k | 0 <= i < |r| && 0 <= k < |r[i]| && r[i][k].Some? ensures r[i][k].value < |r| {
      SitesAreCalls(m, m[i].blocks, r[i][k]);
    }
  }

  /** At most one function is the entry. */
  predicate OneMain(m: Module) { forall i, j :: 0 <= i < j < |m| ==> !(m[i].name == MAIN && m[j].name == MAIN) }

  // ----- Purity -----

  datatype Purity = Pure | ReadOnly | SideEffecting {
    function Rank(): (r: nat) ensures r <= 2 { if Pure? then 0 else if ReadOnly? then 1 else 2 }
  }

  const RUNTIME_CALLS := ["printf", "malloc", "free", "exit"]

  predicate HasEffect(i: Inst) { i.Print? || i.Store? || (i.Call? && i.callee in RUNTIME_CALLS) }

  predicate BlockHas(b: SsaBlock, effects: bool) { exists k :: 0 <= k < |b.insts| && InstHas(b.insts[k], effects) }

  predicate InstHas(i: Inst, effects: bool) { if effects then HasEffect(i) else i.Load? }

  /** What a function does by itself, calls to functions of the module aside. */
  function LocalPurity(blocks: seq<SsaBlock>): Purity {
    if exists j :: 0 <= j < |blocks| && BlockHas(blocks[j], true) then SideEffecting
    else if exists j :: 0 <= j < |blocks| && BlockHas(blocks[j], false) then ReadOnly
    else Pure
  }

  /** Its class if only its own code counted; a call to outside the module counts as an effect. */
  function Own(m: Module, i: nat): Purity
    requires i < |m|
  { if None in CallsOf(m)[i] then SideEffecting else LocalPurity(m[i].blocks) }

  /** The greatest class of any function that function `i` can get to by calls. */
  ghost predicate PurityIs(m: Module, i: nat, p: Purity) {
    var g := GraphOf(CallsOf(m));
    && (forall w: nat :: w < |m| && Reach(g, i, w) ==> Own(m, w).Rank() <= p.Rank())
    && exists w: nat :: w < |m| && Reach(g, i, w) && Own(m, w) == p
  }

  /** Some function that `i` can get to has a class as great as `p`. */
  ghost predicate Justified(m: Module, i: nat, p: Purity) {
    exists w: nat :: w < |m| && Reach(GraphOf(CallsOf(m)), i, w) && p.Rank() <= Own(m, w).Rank()
  }

  /** Below `i`'s class or the call site is settled. */
  predicate SiteSettled(purity: seq<Purity>, p: Purity, site: Option<nat>) {
    if site.None? then p.SideEffecting? else site.value < |purity| && purity[site.value].Rank() <= p.Rank()
  }

  predicate NodeSettled(m: Module, purity: seq<Purity>, i: nat)
    requires i < |m| == |purity|
  { forall k :: 0 <= k < |CallsOf(m)[i]| ==> SiteSettled(purity, purity[i], CallsOf(m)[i][k]) }

  ghost predicate PurityInv(m: Module, purity: seq<Purity>) {
    && |purity| == |m|
    && forall i: nat :: i < |m| ==> LocalPurity(m[i].blocks).Rank() <= purity[i].Rank() && Justified(m, i, purity[i])
  }

  lemma JustifiedSelf(m: Module, i: nat)
    requires i < |m|
    ensures Justified(m, i, LocalPurity(m[i].blocks))
    ensures None in CallsOf(m)[i] ==> Justified(m, i, SideEffecting)
  { ReachSelf(GraphOf(CallsOf(m)), i); }

  lemma JustifiedCall(m: Module, i: nat, v: nat, p: Purity)
    requires i < |m| && Some(v) in CallsOf(m)[i] && Justified(m, v, p)
    ensures Justified(m, i, p)
  {
    var g := GraphOf(CallsOf(m));
    CallsInModule(m);
    ValidCalls(CallsOf(m));
    CallEdges(CallsOf(m), i, v);
    var w: nat :| w < |m| && Reach(g, v, w) && p.Rank() <= Own(m, w).Rank();
    ReachSelf(g, i);
    ReachStep(g, i, i, v);
    ReachTrans(g, i, v, w);
  }

  /** Along calls the settled class never goes up. */
  lemma {:induction false} SettledPath(m: Module, purity: seq<Purity>, p: seq<nat>, k: nat)
    requires |purity| == |m| && (forall i: nat :: i < |m| ==> NodeSettled(m, purity, i))
    requires IsPath(GraphOf(CallsOf(m)), p) && k < |p|
    ensures p[k] < |m| && purity[p[k]].Rank() <= purity[p[0]].Rank()
  {
    if k > 0 {
      SettledPath(m, purity, p, k - 1);
      assert Edge(GraphOf(CallsOf(m)), p[k-1], p[k]);
      CallEdges(CallsOf(m), p[k-1], p[k]);
      var j :| 0 <= j < |CallsOf(m)[p[k-1]]| && CallsOf(m)[p[k-1]][j] == Some(p[k]);
      assert NodeSettled(m, purity, p[k-1]) && SiteSettled(purity, purity[p[k-1]], CallsOf(m)[p[k-1]][j]);
    }
  }

  lemma OwnBelow(m: Module, purity: seq<Purity>, i: nat)
    requires PurityInv(m, purity) && i < |m| && NodeSettled(m, purity, i)
    ensures Own(m, i).Rank() <= purity[i].Rank()
  {
    if None in CallsOf(m)[i] {
      var k :| 0 <= k < |CallsOf(m)[i]| && CallsOf(m)[i][k] == None;
      assert SiteSettled(purity, purity[i], CallsOf(m)[i][k]);
    }
  }

  /** When no call site has anything left to pass on, every class is right: the fixed point is the least one. */
  lemma SettledIsRight(m: Module, purity: seq<Purity>, i: nat)
    requires PurityInv(m, purity) && i < |m| && (forall j: nat :: j < |m| ==> NodeSettled(m, purity, j))
    ensures PurityIs(m, i, purity[i])
  {
    hide *;
    InvLength(m, purity);
    forall w: nat | w < |m| && Reach(GraphOf(CallsOf(m)), i, w) ensures Own(m, w).Rank() <= purity[i].Rank() {
      SettledBound(m, purity, i, w);
    }
    RightIfBound(m, purity, i);
  }

  lemma SettledBound(m: Module, purity: seq<Purity>, i: nat, w: nat)
    requires PurityInv(m, purity) && i < |m| && w < |m| && (forall j: nat :: j < |m| ==> NodeSettled(m, purity, j))
    requires Reach(GraphOf(CallsOf(m)), i, w)
    ensures |purity| == |m| && Own(m, w).Rank() <= purity[i].Rank()
  {
    var p := T.PathOf(GraphOf(CallsOf(m)), i, w);
    hide *;
    InvLength(m, purity);
    SettledPath(m, purity, p, |p| - 1);
    OwnBelow(m, purity, w);
  }

  lemma InvLength(m: Module, purity: seq<Purity>)
    requires PurityInv(m, purity)
    ensures |purity| == |m|
  {}

  lemma RightIfBound(m: Module, purity: seq<Purity>, i: nat)
    requires PurityInv(m, purity) && i < |m|
    requires forall w: nat :: w < |m| && Reach(GraphOf(CallsOf(m)), i, w) ==> Own(m, w).Rank() <= purity[i].Rank()
    ensures PurityIs(m, i, purity[i])
  {
    var w := JustifiedBy(m, purity, i);
    hide GraphOf;
    hide CallsOf;
    hide Reach;
    hide Own;
    hide PurityInv;
    assert Own(m, w) == purity[i];
  }

  lemma JustifiedBy(m: Module, purity: seq<Purity>, i: nat) returns (w: nat)
    requires PurityInv(m, purity) && i < |m|
    ensures |purity| == |m| && w < |m| && Reach(GraphOf(CallsOf(m)), i, w) && purity[i].Rank() <= Own(m, w).Rank()
  {
    hide GraphOf;
    hide CallsOf;
    hide Reach;
    hide Own;
    assert Justified(m, i, purity[i]);
    w :| w < |m| && Reach(GraphOf(CallsOf(m)), i, w) && purity[i].Rank() <= Own(m, w).Rank();
  }

  /** How far the classes can still be raised. */
  function Deficit(purity: seq<Purity>): nat {
    if purity == [] then 0 else 2 - purity[0].Rank() + Deficit(purity[1..])
  }

  lemma {:induction false} DeficitFalls(purity: seq<Purity>, i: nat, p: Purity)
    requires i < |purity| && purity[i].Rank() < p.Rank()
    ensures Deficit(purity[i := p]) < Deficit(purity)
  {
    if i == 0 {
      assert purity[0 := p][1..] == purity[1..];
    } else {
      DeficitFalls(purity[1..], i - 1, p);
      assert purity[i := p][1..] == purity[1..][i-1 := p];
    }
  }

  lemma CalleeInside(m: Module, i: nat, k: nat)
    requires i < |m| && k < |CallsOf(m)[i]| && CallsOf(m)[i][k].Some?
    ensures CallsOf(m)[i][k].value < |m|
  { CallsInModule(m); }

  /** Raising `i` to a class its call site `k` calls for. */
  lemma Raise(m: Module, purity: seq<Purity>, i: nat, k: nat, p: Purity)
    requires PurityInv(m, purity) && i < |m| && k < |CallsOf(m)[i]| && |purity| == |m| && purity[i].Rank() < p.Rank()
    requires if CallsOf(m)[i][k].None? then p.SideEffecting?
      else CallsOf(m)[i][k].value < |m| && purity[CallsOf(m)[i][k].value] == p
    ensures PurityInv(m, purity[i := p]) && Deficit(purity[i := p]) < Deficit(purity)
  {
    hide *;
    var site := CallsOf(m)[i][k];
    assert site in CallsOf(m)[i];
    DeficitFalls(purity, i, p);
    if site.None? {
      JustifiedSelf(m, i);
      TopOnly(p);
    } else {
      JustifiedAt(m, purity, site.value);
      JustifiedCall(m, i, site.value, p);
    }
    RaisedInv(m, purity, i, p);
  }

  lemma TopOnly(p: Purity)
    ensures p.SideEffecting? ==> p == SideEffecting
  {}

  lemma Ranks()
    ensures Pure.Rank() == 0 && ReadOnly.Rank() == 1 && SideEffecting.Rank() == 2
  {}

  lemma JustifiedAt(m: Module, purity: seq<Purity>, i: nat)
    requires PurityInv(m, purity) && i < |m|
    ensures |purity| == |m| && Justified(m, i, purity[i])
  {}

  lemma RaisedInv(m: Module, purity: seq<Purity>, i: nat, p: Purity)
    requires PurityInv(m, purity) && i < |m| == |purity| && purity[i].Rank() < p.Rank() && Justified(m, i, p)
    ensures PurityInv(m, purity[i := p])
  {
    hide Justified;
    hide LocalPurity;
  }

  lemma TopSettled(m: Module, purity: seq<Purity>, i: nat)
    requires i < |m| == |purity| && purity[i].SideEffecting?
    ensures NodeSettled(m, purity, i)
  {
    hide CallsOf;
    hide LocalPurity;
    forall k | 0 <= k < |CallsOf(m)[i]| ensures SiteSettled(purity, purity[i], CallsOf(m)[i][k]) {
      if CallsOf(m)[i][k].Some? { CalleeInside(m, i, k); }
    }
  }

  lemma Settle(purity: seq<Purity>, p: Purity, site: Option<nat>)
    requires site.Some? && site.value < |purity| && !purity[site.value].SideEffecting?
    ensures (p.Pure? && purity[site.value].ReadOnly?) || SiteSettled(purity, p, site)
  {}

  lemma NodeIs(m: Module, purity: seq<Purity>, i: nat)
    requires i < |m| == |purity| && forall k ::
      0 <= k < |CallsOf(m)[i]| ==> SiteSettled(purity, purity[i], CallsOf(m)[i][k])
    ensures NodeSettled(m, purity, i)
  {}

  // ----- The graph -----

  /** With one entry the last one found is the first. */
  lemma FirstMain(m: Module, entry: Option<nat>)
    requires OneMain(m)
    requires if entry.None?
      then forall v :: 0 <= v < |m| ==> m[v].name != MAIN
      else entry.value < |m| && m[entry.value].name == MAIN
    ensures entry == FindFn(m, MAIN)
  { hide FindFn; }

  class CallGraph {
    const fns: Module
    var calls: Calls
    var isRecursive: seq<bool>
    var isEntry: seq<bool>
    var entry: Option<nat>
    var isReachable: seq<bool>
    var sccId: seq<int>
    var inRecursiveCycle: seq<bool>
    var purity: seq<Purity>

    /** Collects the call sites of function `i`, each linked in at the front, and notes a call of itself. */
    method LinkCalls(i: nat) returns (sites: seq<Option<nat>>, recursive: bool)
      requires i < |fns|
      ensures sites == CallsOf(fns)[i] && (recursive <==> Some(i) in sites)
    {
      sites, recursive := [], false;
      var blocks := fns[i].blocks;
      var b := 0;
      while b < |blocks|
        invariant 0 <= b <= |blocks| && SitesOfBlocks(fns, blocks[b..]) + sites == SitesOfBlocks(fns, blocks)
        invariant recursive <==> Some(i) in sites
      {
        assert blocks[b..][1..] == blocks[b+1..];
        sites, recursive := LinkBlock(i, blocks[b].insts, sites, recursive);
        b := b + 1;
      }
      assert blocks[b..] == [];
    }

    method LinkBlock(i: nat, insts: seq<Inst>, sites: seq<Option<nat>>,
        recursive: bool) returns (sites': seq<Option<nat>>, recursive': bool)
      requires recursive <==> Some(i) in sites
      ensures sites' == Sites(fns, insts) + sites && (recursive' <==> Some(i) in sites')
    {
      sites', recursive' := sites, recursive;
      var k := 0;
      while k < |insts|
        invariant 0 <= k <= |insts| && Sites(fns, insts[k..]) + sites' == Sites(fns, insts) + sites
        invariant recursive' <==> Some(i) in sites'
      {
        assert insts[k..][1..] == insts[k+1..];
        if insts[k].Call? {
          var callee := FindFn(fns, insts[k].callee);
          sites' := [callee] + sites';
          if callee == Some(i) { recursive' := true; }
        }
        k := k + 1;
      }
      assert insts[k..] == [];
    }

    /** The class of a function before its calls are looked at. */
    method Scan(i: nat) returns (p: Purity)
      requires i < |fns|
      ensures p == LocalPurity(fns[i].blocks)
    {
      var hasLoad, hasSideEffects, blocks := false, false, fns[i].blocks;
      var b := 0;
      while b < |blocks|
        invariant 0 <= b <= |blocks|
        invariant hasSideEffects <==> exists j :: 0 <= j < b && BlockHas(blocks[j], true)
        invariant hasLoad <==> exists j :: 0 <= j < b && BlockHas(blocks[j], false)
      {
        var k, insts := 0, blocks[b].insts;
        ghost var load, effects := hasLoad, hasSideEffects;
        while k < |insts|
          invariant 0 <= k <= |insts|
          invariant hasSideEffects <==> effects || exists j :: 0 <= j < k && InstHas(insts[j], true)
          invariant hasLoad <==> load || exists j :: 0 <= j < k && InstHas(insts[j], false)
        {
          match insts[k] {
            case Print(_) => hasSideEffects := true;
            case Store(_, _) => hasSideEffects := true;
            case Load(_, _) => hasLoad := true;
            case Call(_, f, _) => if f in RUNTIME_CALLS { hasSideEffects := true; }
            case _ =>
          }
          k := k + 1;
        }
        b := b + 1;
      }
      p := if hasSideEffects then SideEffecting else if hasLoad then ReadOnly else Pure;
    }

    /** Builds the whole graph of a module. */
    constructor (m: Module)
      requires OneMain(m)
      ensures fns == m && calls == CallsOf(m) && entry == FindFn(m, MAIN)
      ensures |isEntry| == |isRecursive| == |isReachable| == |sccId| == |inRecursiveCycle| == |purity| == |m|
      ensures forall v: nat :: v < |m| ==> (isEntry[v] <==> m[v].name == MAIN)
      ensures forall v: nat :: v < |m| ==> (isRecursive[v] <==> Some(v) in calls[v])
      ensures forall v: nat, w: nat :: v < |m| && w < |m| ==> (sccId[v] == sccId[w] <==> T.Mutual(GraphOf(calls), v, w))
      ensures forall v: nat :: v < |m| ==> RightlyFlagged(GraphOf(calls), v, inRecursiveCycle)
      ensures forall v: nat :: v < |m| ==> (isReachable[v] <==> entry.None? || Reach(GraphOf(calls), entry.value, v))
      ensures forall v: nat :: v < |m| ==> PurityIs(m, v, purity[v])
    {
      fns := m;
      calls, isRecursive, isEntry, entry, isReachable, sccId, inRecursiveCycle, purity := [], [], [], None, [], [], [],
        [];
      new;
      hide *;
      AddNodes();
      CallsInModule(m);
      var search := new SccSearch(calls, isRecursive);
      sccId, inRecursiveCycle := search.sccId, search.inRecursiveCycle;
      MarkCalled();
      StartPurity();
      Spread();
    }

    method AddNodes()
      requires OneMain(fns)
      modifies `isEntry, `entry, `calls, `isRecursive
      ensures calls == CallsOf(fns) && entry == FindFn(fns, MAIN) && |isEntry| == |isRecursive| == |fns|
      ensures forall v: nat :: v < |fns| ==> (isEntry[v] <==> fns[v].name == MAIN)
      ensures forall v: nat :: v < |fns| ==> (isRecursive[v] <==> Some(v) in calls[v])
    {
      hide FindFn;
      hide SitesOfBlocks;
      calls, isRecursive, isEntry, entry := [], [], [], None;
      var i := 0;
      while i < |fns|
        invariant 0 <= i <= |fns| && |calls| == |isRecursive| == |isEntry| == i
        invariant forall v: nat :: v < i ==> calls[v] == CallsOf(fns)[v] && (isRecursive[v] <==> Some(v) in calls[v])
        invariant forall v: nat :: v < i ==> (isEntry[v] <==> fns[v].name == MAIN)
        invariant if entry.None?
          then forall v :: 0 <= v < i ==> fns[v].name != MAIN
          else entry.value < i && fns[entry.value].name == MAIN
      {
        if fns[i].name == MAIN { entry := Some(i); }
        isEntry := isEntry + [fns[i].name == MAIN];
        var sites, recursive := LinkCalls(i);
        calls, isRecursive := calls + [sites], isRecursive + [recursive];
        i := i + 1;
      }
      assert calls == CallsOf(fns);
      FirstMain(fns, entry);
    }

    /** Marks what the entry can call; without an entry everything counts as called (ir_ipa.c:260-283). */
    method MarkCalled()
      requires calls == CallsOf(fns) && (entry.Some? ==> entry.value < |fns|)
      modifies `isReachable
      ensures |isReachable| == |fns|
      ensures forall v: nat :: v < |fns| ==> (isReachable[v] <==> entry.None? || Reach(GraphOf(calls), entry.value, v))
    {
      hide *;
      CallsInModule(fns);
      ValidCalls(calls);
      if entry.Some? {
        var mark := MarkReachable(GraphOf(calls), entry.value);
        isReachable := mark[..];
      } else {
        isReachable := seq(|fns|, i => true);
      }
    }

    method StartPurity()
      modifies `purity
      ensures PurityInv(fns, purity)
    {
      purity := [];
      var i := 0;
      while i < |fns|
        invariant 0 <= i <= |fns| && |purity| == i
        invariant forall j: nat :: j < i ==> purity[j] == LocalPurity(fns[j].blocks)
      {
        var p := Scan(i);
        purity := purity + [p];
        i := i + 1;
      }
      forall j: nat | j < |fns| ensures Justified(fns, j, purity[j]) { JustifiedSelf(fns, j); }
    }

    /** Takes over the classes of the callees of one function. */
    method SpreadNode(i: nat) returns (raised: bool)
      requires calls == CallsOf(fns) && PurityInv(fns, purity) && i < |fns|
      modifies `purity
      ensures PurityInv(fns, purity) && |purity| == |old(purity)|
      ensures if raised
        then Deficit(purity) < Deficit(old(purity))
        else purity == old(purity) && NodeSettled(fns, purity, i)
    {
      hide *;
      InvLength(fns, purity);
      Ranks();
      raised := false;
      if purity[i].SideEffecting? {
        TopSettled(fns, purity, i);
        return;
      }
      var k := 0;
      while k < |calls[i]|
        invariant 0 <= k <= |calls[i]| && PurityInv(fns, purity) && |purity| == |fns| && !purity[i].SideEffecting?
        invariant if raised then Deficit(purity) < Deficit(old(purity)) else purity == old(purity)
        invariant !raised ==> forall j :: 0 <= j < k ==> SiteSettled(purity, purity[i], calls[i][j])
      {
        var callee := calls[i][k];
        if callee.None? {
          Raise(fns, purity, i, k, SideEffecting);
          purity := purity[i := SideEffecting];
          raised := true;
          return;
        }
        CalleeInside(fns, i, k);
        if purity[callee.value].SideEffecting? {
          Raise(fns, purity, i, k, SideEffecting);
          purity := purity[i := SideEffecting];
          raised := true;
          return;
        }
        Settle(purity, purity[i], callee);
        if purity[callee.value].ReadOnly? && purity[i].Pure? {
          Raise(fns, purity, i, k, ReadOnly);
          purity := purity[i := ReadOnly];
          raised := true;
        }
        k := k + 1;
      }
      if !raised { NodeIs(fns, purity, i); }
    }

    /** Repeats until no class changes (`changed` in ir_ipa.c:331-358). */
    method Spread()
      requires calls == CallsOf(fns) && PurityInv(fns, purity)
      modifies `purity
      ensures |purity| == |fns| && forall i: nat :: i < |fns| ==> PurityIs(fns, i, purity[i])
    {
      hide *;
      InvLength(fns, purity);
      var changed := true;
      while changed
        invariant PurityInv(fns, purity) && |purity| == |fns|
        invariant !changed ==> forall i: nat :: i < |fns| ==> NodeSettled(fns, purity, i)
        decreases Deficit(purity), if changed then 1 else 0
      {
        changed := false;
        ghost var start := purity;
        var i := 0;
        while i < |fns|
          invariant 0 <= i <= |fns| && PurityInv(fns, purity) && |purity| == |fns|
          invariant if changed then Deficit(purity) < Deficit(start) else purity == start
          invariant !changed ==> forall j: nat :: j < i ==> NodeSettled(fns, purity, j)
        {
          var raised := SpreadNode(i);
          if raised { changed := true; }
          i := i + 1;
        }
      }
      forall i: nat | i < |fns| ensures PurityIs(fns, i, purity[i]) { SettledIsRight(fns, purity, i); }
    }
  }
}
