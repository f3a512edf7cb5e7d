module SsaCheck {
  // The check of static single assignment form that follows an edit (src/ir/ir_ssa.c:464-585).

  import opened Options
  import opened Ir
  import opened SsaIr
  import opened Graphs
  import opened Dominators
  import opened Dominance
  import opened Inlining
  import opened InlineStructure
  import opened InlinePaths

  const REG_SLACK := 32
  const MAX_SEEN := 32

  /** Registers from here on are not looked at. */
  function Limit(f: Fn): nat { f.nextReg + REG_SLACK }

  function RegsOf(vs: seq<Value>): (rs: seq<nat>)
    ensures forall r: nat :: r in rs <==> Reg(r) in vs
  {
    if vs == [] then []
    else
      var v := vs[|vs|-1];
      assert vs == vs[..|vs|-1] + [v];
      RegsOf(vs[..|vs|-1]) + if v.Reg? then [v.id] else []
  }

  function FirstSeen(rs: seq<nat>): seq<nat> { if |rs| <= MAX_SEEN then rs else rs[..MAX_SEEN] }

  /** The register operands of an instruction that are looked at; there is room for 32. */
  function Seen(i: Inst): seq<nat> { FirstSeen(RegsOf(Operands(i))) }

  /** What a block defines. */
  function DefsIn(b: SsaBlock): seq<nat> { PhiDefs(b.phis) + InstDefs(b.insts) }

  predicate Apart(defs: seq<nat>, limit: nat) {
    forall x, y :: 0 <= x < y < |defs| && defs[x] == defs[y] ==> defs[x] >= limit
  }

  /** No register is defined twice. */
  predicate SingleHomes(f: Fn) {
    && (forall i :: 0 <= i < |f.blocks| ==> Apart(DefsIn(f.blocks[i]), Limit(f)))
    && forall i, j, r ::
      0 <= i < j < |f.blocks| && r in DefsIn(f.blocks[i]) && r in DefsIn(f.blocks[j]) ==> r >= Limit(f)
  }

  /** What the dominance query answers: a block that cannot be reached is dominated by itself alone. */
  ghost predicate Dominated(f: Fn, a: nat, b: nat)
    requires f.blocks != []
  { a == b || (Reachable(f, b) && BlockDom(f, a, b)) }

  ghost predicate DefinedAbove(f: Fn, j: nat, r: nat)
    requires j < |f.blocks|
  {
    r < Limit(f) && exists i ::
      0 <= i < |f.blocks| && r in DefsIn(f.blocks[i]) && Dominated(f, f.blocks[i].id, f.blocks[j].id)
  }

  /** Everything used by an instruction other than a phi, reached or not, is defined in a block that dominates its. */
  ghost predicate UsesAccepted(f: Fn) {
    forall j: nat, q: nat, r: nat {:trigger UseAccepted(f, j, q, r)} ::
      j < |f.blocks| && q < |f.blocks[j].insts| && r in Seen(f.blocks[j].insts[q]) ==> UseAccepted(f, j, q, r)
  }

  ghost predicate UseAccepted(f: Fn, j: nat, q: nat, r: nat)
    requires j < |f.blocks|
  { DefinedAbove(f, j, r) }

  /** `ir_ssa_verify_function`. */
  ghost predicate Accepts(f: Fn) { f.blocks != [] && SingleHomes(f) && UsesAccepted(f) && Hears(f) }

  // ----- What it asks of blocks that cannot be reached -----

  /** Whatever a block uses it defines. */
  predicate SelfContained(b: SsaBlock) {
    forall q, r :: 0 <= q < |b.insts| && r in Seen(b.insts[q]) ==> r in DefsIn(b)
  }

  predicate PhisApart(f: Fn) {
    forall i, x, y :: 0 <= i < |f.blocks| && 0 <= x < y < |f.blocks[i].phis| ==>
      f.blocks[i].phis[x].dst != f.blocks[i].phis[y].dst
  }

  ghost predicate UnreachedSelfContained(f: Fn)
    requires f.blocks != []
  { forall j: nat :: j < |f.blocks| && !Reachable(f, f.blocks[j].id) ==> SelfContained(f.blocks[j]) }

  lemma {:induction false} InstDefsAt(insts: seq<Inst>, x: nat) returns (k: nat)
    requires x < |InstDefs(insts)|
    ensures k < |insts| && Dst(insts[k]) == Some(InstDefs(insts)[x]) && x == |InstDefs(insts[..k])|
  {
    var n := |insts| - 1;
    if x < |InstDefs(insts[..n])| {
      k := InstDefsAt(insts[..n], x);
      assert insts[..n][..k] == insts[..k];
    } else {
      k := n;
    }
  }

  /** Defined in a block is defined at some place in it. */
  lemma DefinedIs(f: Fn, i: nat, r: nat)
    requires i < |f.blocks|
    ensures r in DefsIn(f.blocks[i]) <==> exists p: int :: DefAt(f, i, p, r)
  {
    var b := f.blocks[i];
    if r in PhiDefs(b.phis) {
      assert DefAt(f, i, -1, r);
    } else if r in InstDefs(b.insts) {
      var x :| 0 <= x < |InstDefs(b.insts)| && InstDefs(b.insts)[x] == r;
      var k := InstDefsAt(b.insts, x);
      assert DefAt(f, i, k, r);
    }
    if p: int :| DefAt(f, i, p, r) {
      if p != -1 { InstDefsHold(b.insts, p, r); }
    }
  }

  lemma SeenUsed(i: Inst, r: nat)
    requires r in Seen(i)
    ensures r in UsedRegs(i)
  { assert Reg(r) in Operands(i); }

  /** The place of the `x`-th definition of a block. */
  lemma PlaceIn(f: Fn, i: nat, x: nat) returns (p: int)
    requires i < |f.blocks| && x < |DefsIn(f.blocks[i])|
    ensures DefAt(f, i, p, DefsIn(f.blocks[i])[x])
    ensures var b := f.blocks[i];
      if x < |b.phis| then p == -1 else 0 <= p < |b.insts| && x - |b.phis| == |InstDefs(b.insts[..p])|
  {
    var b := f.blocks[i];
    p := -1;
    if x >= |b.phis| { p := InstDefsAt(b.insts, x - |b.phis|); }
  }

  lemma OnePlace(f: Fn, i: nat, p: int, r: nat, q: int, r': nat)
    requires SsaForm(f) && DefAt(f, i, p, r) && DefAt(f, i, q, r') && p != q
    ensures r != r'
  {}

  lemma Different(f: Fn, i: nat, x: nat, y: nat)
    requires SsaForm(f) && PhisApart(f) && i < |f.blocks| && x < y < |DefsIn(f.blocks[i])|
    ensures DefsIn(f.blocks[i])[x] != DefsIn(f.blocks[i])[y]
  {
    var b := f.blocks[i];
    if y < |b.phis| {
      assert b.phis[x].dst != b.phis[y].dst;
    } else {
      var p := PlaceIn(f, i, x);
      var q := PlaceIn(f, i, y);
      hide SsaForm;
      hide DefAt;
      OnePlace(f, i, p, DefsIn(b)[x], q, DefsIn(b)[y]);
    }
  }

  lemma NotBoth(f: Fn, i: nat, j: nat, r: nat)
    requires SsaForm(f) && i < j < |f.blocks| && r in DefsIn(f.blocks[i])
    ensures r !in DefsIn(f.blocks[j])
  {
    DefinedIs(f, i, r);
    DefinedIs(f, j, r);
    hide UsesFollow;
    hide PhisFollow;
    hide Blocks;
    hide DefsIn;
    hide DefAt;
  }

  lemma FormSingle(f: Fn)
    requires SsaForm(f) && PhisApart(f)
    ensures SingleHomes(f)
  {
    hide SsaForm;
    hide PhisApart;
    hide DefsIn;
    forall i, x, y | 0 <= i < |f.blocks| && 0 <= x < y < |DefsIn(f.blocks[i])|
      ensures DefsIn(f.blocks[i])[x] != DefsIn(f.blocks[i])[y]
    {
      Different(f, i, x, y);
    }
    forall i, j, r: nat | 0 <= i < j < |f.blocks| && r in DefsIn(f.blocks[i]) ensures r !in DefsIn(f.blocks[j]) {
      NotBoth(f, i, j, r);
    }
  }

  /** A use that can be reached passes. */
  lemma ReachedUse(f: Fn, j: nat, q: nat, r: nat)
    requires SsaForm(f) && j < |f.blocks| && q < |f.blocks[j].insts| && r in Seen(f.blocks[j].insts[q])
    requires Reachable(f, f.blocks[j].id)
    ensures DefinedAbove(f, j, r)
  {
    SeenUsed(f.blocks[j].insts[q], r);
    assert UseOk(f, j, q, r);
    hide Seen;
    hide UsesFollow;
    hide PhisFollow;
    hide Blocks;
    hide BlockDom;
    hide Reachable;
    var i: nat, pos: int :| DefAt(f, i, pos, r) && Before(f, i, pos, j, q);
    hide DefAt;
    DefinedIs(f, i, r);
    InBlocks(f, i, pos, r);
  }

  lemma InBlocks(f: Fn, i: nat, pos: int, r: nat)
    requires SsaForm(f) && DefAt(f, i, pos, r)
    ensures i < |f.blocks| && r < f.nextReg
  {}

  /** A use that cannot be reached passes only if its own block defines what it uses. */
  lemma UnreachedUse(f: Fn, j: nat, r: nat)
    requires SsaForm(f) && j < |f.blocks| && !Reachable(f, f.blocks[j].id)
    ensures DefinedAbove(f, j, r) <==> r in DefsIn(f.blocks[j])
  {
    SsaBlocks(f);
    hide UsesFollow;
    hide PhisFollow;
    hide Reachable;
    hide BlockDom;
    hide DefsIn;
    if r in DefsIn(f.blocks[j]) {
      DefinedIs(f, j, r);
      var p: int :| DefAt(f, j, p, r);
      assert Dominated(f, f.blocks[j].id, f.blocks[j].id);
    }
  }

  /** Of a function in the form inlining keeps, the check asks just this besides: that phis of a block define different
      registers, and that blocks that cannot be reached use only what they define themselves. */
  lemma AcceptsExactlyWhen(f: Fn)
    requires Checked(f) && PhisApart(f)
    ensures f.blocks != [] && (Accepts(f) <==> UnreachedSelfContained(f))
  {
    SsaBlocks(f);
    FormSingle(f);
    hide SsaForm;
    hide SingleHomes;
    hide Known;
    hide Hears;
    hide DefinedAbove;
    hide Seen;
    hide DefsIn;
    hide Reachable;
    if UnreachedSelfContained(f) {
      forall j: nat, q: nat, r: nat | j < |f.blocks| && q < |f.blocks[j].insts| && r in Seen(f.blocks[j].insts[q])
        ensures UseAccepted(f, j, q, r)
      {
        if Reachable(f, f.blocks[j].id) {
          ReachedUse(f, j, q, r);
        } else {
          assert SelfContained(f.blocks[j]);
          UnreachedUse(f, j, r);
        }
      }
    }
    if Accepts(f) {
      forall j: nat | j < |f.blocks| && !Reachable(f, f.blocks[j].id) ensures SelfContained(f.blocks[j]) {
        forall q, r | 0 <= q < |f.blocks[j].insts| && r in Seen(f.blocks[j].insts[q]) ensures r in DefsIn(f.blocks[j]) {
          assert UseAccepted(f, j, q, r);
          UnreachedUse(f, j, r);
        }
      }
    }
  }

  /** A function all of whose blocks can be reached passes. */
  lemma AllReachedAccepts(f: Fn)
    requires Checked(f) && PhisApart(f)
    requires f.blocks != [] && forall j :: 0 <= j < |f.blocks| ==> Reachable(f, f.blocks[j].id)
    ensures Accepts(f)
  {
    AcceptsExactlyWhen(f);
    hide Accepts;
    hide Checked;
  }

  // ----- As the program does it -----

  /** Predecessor lists for successor lists. */
  method Reverse(succs: Graph) returns (preds: Graph)
    requires ValidGraph(succs)
    ensures Mirrors(succs, preds) && ValidGraph(preds)
  {
    preds := seq(|succs|, _ => []);
    var a := 0;
    while a < |succs|
      invariant 0 <= a <= |succs| && |preds| == |succs|
      invariant forall b: nat, v: nat {:trigger v in preds[b]} ::
        b < |succs| ==> (v in preds[b] <==> v < a && b in succs[v])
    {
      preds := AddTo(preds, a, succs[a]);
      a := a + 1;
    }
    forall b: nat, k: nat | b < |preds| && k < |preds[b]| ensures preds[b][k] < |preds| {
      var v: nat := preds[b][k];
      assert v in preds[b] && v < a;
    }
  }

  /** Notes block `a` as a predecessor of its targets. */
  method AddTo(preds: Graph, a: nat, targets: seq<nat>) returns (r: Graph)
    requires forall t :: t in targets ==> t < |preds|
    ensures |r| == |preds|
    ensures forall b: nat, v: nat :: b < |preds| ==> (v in r[b] <==> v in preds[b] || (v == a && b in targets))
  {
    r := preds;
    var k := 0;
    while k < |targets|
      invariant 0 <= k <= |targets| && |r| == |preds|
      invariant forall b: nat, v: nat :: b < |preds| ==> (v in r[b] <==> v in preds[b] || (v == a && b in targets[..k]))
    {
      var t := targets[k];
      assert t in targets;
      if a !in r[t] { r := r[t := r[t] + [a]]; }
      k := k + 1;
    }
  }

  /** Notes block `i` as the home of what it defines, unless something of it has one already. */
  method NoteDefs(home: array<Option<nat>>, i: nat, defs: seq<nat>) returns (ok: bool)
    modifies home
    ensures ok ==> Apart(defs, home.Length) && forall r: nat ::
      r < home.Length ==> home[r] == if r in defs then Some(i) else old(home[r])
    ensures ok <==> Apart(defs, home.Length) && forall r: nat :: r < home.Length && r in defs ==> old(home[r]).None?
  {
    var x := 0;
    while x < |defs|
      invariant 0 <= x <= |defs| && Apart(defs[..x], home.Length)
      invariant forall r: nat :: r < home.Length ==> home[r] == if r in defs[..x] then Some(i) else old(home[r])
      invariant forall r: nat :: r < home.Length && r in defs[..x] ==> old(home[r]).None?
    {
      var r := defs[x];
      if r < home.Length {
        if home[r].Some? {
          assert r in defs;
          if r in defs[..x] {
            var y :| 0 <= y < x && defs[..x][y] == r;
            assert defs[y] == defs[x];
          }
          return false;
        }
        home[r] := Some(i);
      }
      x := x + 1;
    }
    assert defs[..x] == defs;
    return true;
  }

  /** One block for every register noted, and every definition in the first `n` blocks is. */
  ghost predicate Homes(f: Fn, home: seq<Option<nat>>, n: nat)
    requires n <= |f.blocks|
  {
    && |home| == Limit(f)
    && (forall r: nat :: r < |home| && home[r].Some? ==> home[r].value < n && r in DefsIn(f.blocks[home[r].value]))
    && forall i: nat, r: nat :: i < n && r < |home| && r in DefsIn(f.blocks[i]) ==> home[r] == Some(i)
  }

  /** The first loop: no register is defined twice. */
  method NoteAll(f: Fn) returns (ok: bool, home: array<Option<nat>>)
    ensures fresh(home) && (ok <==> SingleHomes(f)) && (ok ==> Homes(f, home[..], |f.blocks|))
  {
    hide DefsIn;
    home := new Option<nat>[Limit(f)](_ => None);
    var i := 0;
    while i < |f.blocks|
      invariant 0 <= i <= |f.blocks| && home.Length == Limit(f) && Homes(f, home[..], i)
      invariant forall x :: 0 <= x < i ==> Apart(DefsIn(f.blocks[x]), Limit(f))
      invariant forall x, y, r ::
        0 <= x < y < i && r in DefsIn(f.blocks[x]) && r in DefsIn(f.blocks[y]) ==> r >= Limit(f)
    {
      ok := NoteDefs(home, i, DefsIn(f.blocks[i]));
      if !ok {
        return;
      }
      i := i + 1;
    }
    ok := true;
  }

  /** The second loop: what an instruction uses has its home above. */
  method CheckUses(f: Fn, home: array<Option<nat>>, dom: DomInfo) returns (ok: bool)
    requires Tidy(f) && Homes(f, home[..], |f.blocks|) && dom.TablesRight() && dom.succs == Cfg(f)
      && dom.entry == f.blocks[0].id
    ensures ok <==> UsesAccepted(f)
  {
    hide Seen;
    hide DefinedAbove;
    var j := 0;
    while j < |f.blocks|
      invariant 0 <= j <= |f.blocks|
      invariant forall x: nat, q: nat, r: nat {:trigger UseAccepted(f, x, q, r)} ::
        x < j && q < |f.blocks[x].insts| && r in Seen(f.blocks[x].insts[q]) ==> UseAccepted(f, x, q, r)
    {
      var q := 0;
      while q < |f.blocks[j].insts|
        invariant 0 <= q <= |f.blocks[j].insts|
        invariant forall y: nat, r: nat {:trigger UseAccepted(f, j, y, r)} ::
          y < q && r in Seen(f.blocks[j].insts[y]) ==> UseAccepted(f, j, y, r)
      {
        var rs := Seen(f.blocks[j].insts[q]);
        var k := 0;
        while k < |rs|
          invariant 0 <= k <= |rs| && forall z :: 0 <= z < k ==> UseAccepted(f, j, q, rs[z])
        {
          var fine := CheckUse(f, home, dom, j, rs[k]);
          if !fine {
            assert rs[k] in rs && !UseAccepted(f, j, q, rs[k]);
            return false;
          }
          k := k + 1;
        }
        q := q + 1;
      }
      j := j + 1;
    }
    return true;
  }

  method CheckUse(f: Fn, home: array<Option<nat>>, dom: DomInfo, j: nat, r: nat) returns (ok: bool)
    requires Tidy(f) && Homes(f, home[..], |f.blocks|) && dom.TablesRight() && dom.succs == Cfg(f)
      && dom.entry == f.blocks[0].id && j < |f.blocks|
    ensures ok <==> DefinedAbove(f, j, r)
  {
    hide DefsIn;
    if r >= Limit(f) { return false; }
    ghost var was := home[..];
    assert was[r] == home[r];
    if home[r].None? { return false; }
    ok := dom.Dominates(f.blocks[home[r].value].id, f.blocks[j].id);
  }

  /** The third loop: phis hear from predecessors. */
  method CheckPhis(f: Fn) returns (ok: bool)
    ensures ok <==> Hears(f)
  {
    hide HasPred;
    var j := 0;
    while j < |f.blocks|
      invariant 0 <= j <= |f.blocks|
      invariant forall x, p, q :: 0 <= x < j && 0 <= p < |f.blocks[x].phis| && 0 <= q < |f.blocks[x].phis[p].ins| ==>
        HasPred(f, x, f.blocks[x].phis[p].ins[q].0)
    {
      var p := 0;
      while p < |f.blocks[j].phis|
        invariant 0 <= p <= |f.blocks[j].phis|
        invariant forall y, q :: 0 <= y < p && 0 <= q < |f.blocks[j].phis[y].ins| ==>
          HasPred(f, j, f.blocks[j].phis[y].ins[q].0)
      {
        var q, ins := 0, f.blocks[j].phis[p].ins;
        while q < |ins|
          invariant 0 <= q <= |ins| && forall z :: 0 <= z < q ==> HasPred(f, j, ins[z].0)
        {
          var found := IsPredecessor(f, j, ins[q].0);
          if !found { return false; }
          q := q + 1;
        }
        p := p + 1;
      }
      j := j + 1;
    }
    return true;
  }

  method IsPredecessor(f: Fn, j: nat, id: nat) returns (found: bool)
    requires j < |f.blocks|
    ensures found <==> HasPred(f, j, id)
  {
    hide SuccIds;
    var i := 0;
    while i < |f.blocks|
      invariant 0 <= i <= |f.blocks|
      invariant forall x :: 0 <= x < i ==> !(f.blocks[x].id == id && f.blocks[j].id in SuccIds(f.blocks[x]))
    {
      if f.blocks[i].id == id && f.blocks[j].id in SuccIds(f.blocks[i]) { return true; }
      i := i + 1;
    }
    return false;
  }

  /** The whole check. */
  method VerifyFunction(f: Fn) returns (ok: bool)
    requires Tidy(f)
    ensures ok <==> Accepts(f)
  {
    CfgValid(f);
    var graph := Cfg(f);
    hide Cfg;
    var preds := Reverse(graph);
    var dom := new DomInfo(graph, preds, f.blocks[0].id);
    var single, home := NoteAll(f);
    if !single { return false; }
    var uses := CheckUses(f, home, dom);
    if !uses { return false; }
    ok := CheckPhis(f);
  }
}
