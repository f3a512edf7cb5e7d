module FinishedCode {
  // What the passes leave nothing of, and the whole pipeline (src/ir/ir_opt.c:81-732).

  import opened Options
  import opened Ir
  import opened Graphs
  import opened BlockRefinement
  import Fold = ConstantFolding
  import Prop = ConstantPropagation
  import opened Uses = UseReplacement
  import Alg = AlgebraicSimplification
  import Copy = CopyPropagation
  import Dce = DeadCode
  import Cfg = CfgSimplification

  // ----- What may be left -----

  /** Nothing to compute at compile time: no operation on literals but those that trap or are left alone. */
  predicate Unfoldable(i: Inst) {
    match i
    case Bin(op, _, ConstInt(_), ConstInt(b)) => op == And || op == Or || ((op == Div || op == Mod) && b == 0)
    case Bin(op, _, ConstBool(_), ConstBool(_)) => op != And && op != Or
    case Un(Neg, _, ConstInt(_)) => false
    case Un(Not, _, ConstBool(_)) => false
    case _ => true
  }

  /** No operand is neutral or absorbing, and no value is compared with itself or subtracted from itself. */
  predicate NoIdentity(i: Inst) {
    match i
    case Bin(Add, _, l, r) => l != ConstInt(0) && r != ConstInt(0)
    case Bin(Sub, _, l, r) => r != ConstInt(0) && l != r
    case Bin(Mul, _, l, r) => l != ConstInt(0) && r != ConstInt(0) && l != ConstInt(1) && r != ConstInt(1)
    case Bin(Div, _, _, r) => r != ConstInt(1)
    case Bin(Eq, _, l, r) => l != r
    case Bin(Ne, _, l, r) => l != r
    case _ => true
  }

  /** A branch has something to decide. */
  predicate Undecided(i: Inst) { i.CondBr? ==> !i.cond.ConstInt? && !i.cond.ConstBool? && i.ifTrue != i.ifFalse }

  ghost predicate SomeUse(blocks: seq<Block>, r: nat) {
    exists i, k :: 0 <= i < |blocks| && 0 <= k < |blocks[i].insts| && r in UsedRegs(blocks[i].insts[k])
  }

  /** What loads, computes or copies a value does it for someone. */
  ghost predicate AllNeeded(blocks: seq<Block>) {
    forall i, k :: 0 <= i < |blocks| && 0 <= k < |blocks[i].insts| ==>
      var x := blocks[i].insts[k]; x.Load? || x.Const? || x.Bin? || x.Un? ==> SomeUse(blocks, x.dst)
  }

  /** Some instruction puts a literal in the register. */
  ghost predicate KnownLiteral(blocks: seq<Block>, r: nat) {
    exists i, k, v :: 0 <= i < |blocks| && 0 <= k < |blocks[i].insts| && blocks[i].insts[k] == Const(r, v)
      && (v.ConstInt? || v.ConstBool?)
  }

  /** Only copies read a register that holds a literal. */
  ghost predicate NoKnownUse(blocks: seq<Block>) {
    forall i, k :: 0 <= i < |blocks| && 0 <= k < |blocks[i].insts| && !blocks[i].insts[k].Const? ==>
      forall r :: r in UsedRegs(blocks[i].insts[k]) ==> !KnownLiteral(blocks, r)
  }

  function StoredSlots(insts: seq<Inst>, k: nat): (s: set<string>)
    requires k <= |insts|
  { set n | 0 <= n < k && insts[n].Store? :: insts[n].slot }

  /** Load `k` finds what store `j` left: no call comes between, and the table has had room for every slot. */
  predicate Forwardable(insts: seq<Inst>, j: int, k: int) {
    && 0 <= j < k < |insts| && insts[k].Load? && insts[j].Store? && insts[j].slot == insts[k].slot
    && (forall n :: j < n < k ==> !insts[n].Call?) && |StoredSlots(insts, k)| <= 64
  }

  /** Loads that could be forwarded have no uses left. */
  ghost predicate AllForwarded(blocks: seq<Block>) {
    forall i, j, k :: 0 <= i < |blocks| && Forwardable(blocks[i].insts, j, k) ==>
      !SomeUse(blocks, blocks[i].insts[k].dst)
  }

  /** Every block can be reached, and every branch has something to decide. */
  ghost predicate Straightened(blocks: seq<Block>, nextBlock: nat) {
    && blocks != []
    && (forall i :: 0 <= i < |blocks| ==> Reach(Cfg.GraphOf(blocks, nextBlock), blocks[0].id, blocks[i].id))
    && (forall i, k :: 0 <= i < |blocks| && 0 <= k < |blocks[i].insts| ==> Undecided(blocks[i].insts[k]))
  }

  /** Nothing is left to do. */
  ghost predicate Finished(blocks: seq<Block>) {
    && (forall i, k :: 0 <= i < |blocks| && 0 <= k < |blocks[i].insts| ==>
      Unfoldable(blocks[i].insts[k]) && NoIdentity(blocks[i].insts[k]))
    && AllNeeded(blocks) && NoKnownUse(blocks)
    && (forall i, j, k :: 0 <= i < |blocks| ==> !Forwardable(blocks[i].insts, j, k))
  }

  // ----- Folding -----

  lemma FoldingLeaves(blocks: seq<Block>)
    ensures forall i, k :: 0 <= i < |blocks| && 0 <= k < |blocks[i].insts| ==>
      Unfoldable(Fold.FoldBlocks(blocks)[i].insts[k])
  {}

  // ----- Propagation of constants -----

  lemma {:induction false} DefCountNone(insts: seq<Inst>, r: nat)
    requires forall k :: 0 <= k < |insts| ==> r !in Defs(insts[k])
    ensures Prop.DefCount(insts, r) == 0
  { if insts != [] { DefCountNone(insts[..|insts|-1], r); } }

  lemma {:induction false} DefCountSum(a: seq<Inst>, b: seq<Inst>, r: nat)
    ensures Prop.DefCount(a + b, r) == Prop.DefCount(a, r) + Prop.DefCount(b, r)
  {
    if b == [] {
      assert a + b == a;
    } else {
      var front, last := b[..|b|-1], b[|b|-1];
      DefCountSum(a, front, r);
      assert (a + b)[..|a + b| - 1] == a + front && (a + b)[|a + b| - 1] == last;
    }
  }

  lemma {:induction false} DefCountOne(insts: seq<Inst>, k: nat, r: nat)
    requires SingleDefBlock(insts) && k < |insts| && r in Defs(insts[k])
    ensures Prop.DefCount(insts, r) == 1
  {
    var front := insts[..|insts|-1];
    if k == |front| { DefCountNone(front, r); } else { DefCountOne(front, k, r); }
  }

  lemma {:induction false} FlatCount(blocks: seq<Block>, n: nat, i: nat, k: nat, r: nat)
    requires SingleDefs(blocks) && n <= |blocks| && DefinedAt(blocks, i, k, r)
    ensures Prop.DefCount(Prop.Flat(blocks, n), r) == if i < n then 1 else 0
  {
    if n > 0 {
      var insts := blocks[n-1].insts;
      FlatCount(blocks, n - 1, i, k, r);
      DefCountSum(Prop.Flat(blocks, n - 1), insts, r);
      if i == n - 1 {
        SingleDefsBlock(blocks, i);
        DefCountOne(insts, k, r);
      } else {
        forall l | 0 <= l < |insts| ensures r !in Defs(insts[l]) {
          if r in Defs(insts[l]) { assert DefinedAt(blocks, n - 1, l, r); }
        }
        DefCountNone(insts, r);
      }
    }
  }

  lemma {:induction false} FlatHolds(blocks: seq<Block>, n: nat, i: nat, k: nat)
    requires i < n <= |blocks| && k < |blocks[i].insts|
    ensures blocks[i].insts[k] in Prop.Flat(blocks, n)
  { if i < n - 1 { FlatHolds(blocks, n - 1, i, k); } }

  lemma {:induction false} TableHolds(insts: seq<Inst>, all: seq<Inst>, r: nat, v: Value)
    requires Const(r, v) in insts && Fold.Literal(v) && Prop.DefCount(all, r) == 1
    ensures r in Prop.KnownConsts(insts, all)
  {
    var front, last := insts[..|insts|-1], insts[|insts|-1];
    assert insts == front + [last];
    if last != Const(r, v) { TableHolds(front, all, r, v); }
  }

  /** Substitution puts literals into no instruction that defines one. */
  lemma SubstConst(i: Inst, m: map<nat, Value>)
    ensures Prop.SubstInst(i, m).Const? <==> i.Const?
    ensures i.Const? ==> Prop.SubstInst(i, m) == i
  {}

  lemma LiteralWas(blocks: seq<Block>, m: map<nat, Value>, r: nat) returns (i: nat, k: nat, v: Value)
    requires KnownLiteral(Prop.SubstBlocks(blocks, m), r)
    ensures i < |blocks| && k < |blocks[i].insts| && blocks[i].insts[k] == Const(r, v) && Fold.Literal(v)
  {
    var t := Prop.SubstBlocks(blocks, m);
    i, k, v :| 0 <= i < |t| && 0 <= k < |t[i].insts| && t[i].insts[k] == Const(r, v) && (v.ConstInt? || v.ConstBool?);
    SubstConst(blocks[i].insts[k], m);
  }

  lemma NoKnownIn(x: Inst, m: map<nat, Value>, r: nat)
    requires (forall r :: r in m ==> Fold.Literal(m[r])) && !x.Const? && r in UsedRegs(Prop.SubstInst(x, m))
    ensures r !in m
  {
    Prop.SubstShape(x, m);
    assert r in m ==> r in m.Keys;
  }

  lemma KnownIsTabled(blocks: seq<Block>, m: map<nat, Value>, r: nat)
    requires SingleDefs(blocks) && var all := Prop.Flat(blocks, |blocks|); m == Prop.KnownConsts(all, all)
    ensures KnownLiteral(Prop.SubstBlocks(blocks, m), r) ==> r in m
  {
    if KnownLiteral(Prop.SubstBlocks(blocks, m), r) {
      var i, k, v := LiteralWas(blocks, m, r);
      LiteralTabled(blocks, i, k, r, v);
    }
  }

  lemma PropagationLeaves(blocks: seq<Block>, nextReg: nat)
    requires WellFormed(blocks, nextReg)
    ensures NoKnownUse(Prop.PropagateBlocks(blocks))
  {
    var all := Prop.Flat(blocks, |blocks|);
    var m := Prop.KnownConsts(all, all);
    var t := Prop.SubstBlocks(blocks, m);
    assert SingleDefs(blocks) && t == Prop.PropagateBlocks(blocks);
    hide WellFormed;
    hide SingleDefs;
    hide KnownLiteral;
    hide Prop.KnownConsts;
    hide Prop.SubstInst;
    hide Prop.PropagateBlocks;
    hide UsedRegs;
    forall r | r in m ensures Fold.Literal(m[r]) { Prop.KnownConstsSound(all, all, r); }
    forall i, k, r: nat | 0 <= i < |t| && 0 <= k < |t[i].insts| && !t[i].insts[k].Const?
      && r in UsedRegs(t[i].insts[k])
      ensures !KnownLiteral(t, r)
    {
      SubstConst(blocks[i].insts[k], m);
      NoKnownIn(blocks[i].insts[k], m, r);
      KnownIsTabled(blocks, m, r);
    }
  }

  lemma LiteralTabled(blocks: seq<Block>, i: nat, k: nat, r: nat, v: Value)
    requires SingleDefs(blocks) && i < |blocks| && k < |blocks[i].insts| && blocks[i].insts[k] == Const(r, v)
      && Fold.Literal(v)
    ensures var all := Prop.Flat(blocks, |blocks|); r in Prop.KnownConsts(all, all)
  {
    var all := Prop.Flat(blocks, |blocks|);
    assert DefinedAt(blocks, i, k, r);
    FlatCount(blocks, |blocks|, i, k, r);
    FlatHolds(blocks, |blocks|, i, k);
    TableHolds(all, all, r, v);
  }

  // ----- Identities -----

  lemma KeptHasNone(x: Inst)
    ensures Alg.RuleFor(x).Keep? ==> NoIdentity(x)
  {}

  ghost predicate CleanBefore(blocks: seq<Block>, i: nat, k: nat) {
    forall j, n :: 0 <= j < |blocks| && 0 <= n < |blocks[j].insts| && (j < i || (j == i && n < k)) ==>
      NoIdentity(blocks[j].insts[n])
  }

  /** A register is used only behind its definition. */
  lemma UseIsBehind(blocks: seq<Block>, nextReg: nat, i: nat, k: nat, r: nat, j: nat, n: nat)
    requires WellFormed(blocks, nextReg) && DefinedAt(blocks, i, k, r)
    requires j < |blocks| && n < |blocks[j].insts| && r in UsedRegs(blocks[j].insts[n])
    ensures j == i && k < n
  {
    assert DefinedBefore(blocks[j].insts, n, r);
    var l :| 0 <= l < n && l < |blocks[j].insts| && r in Defs(blocks[j].insts[l]);
    assert DefinedAt(blocks, j, l, r);
  }

  lemma VisitedStaysClean(blocks: seq<Block>, nextReg: nat, i: nat, k: nat)
    requires WellFormed(blocks, nextReg) && i < |blocks| && k < |blocks[i].insts| && CleanBefore(blocks, i, k)
    ensures CleanBefore(Alg.Visit(blocks, i, k), i, k + 1)
  {
    var x, t := blocks[i].insts[k], Alg.Visit(blocks, i, k);
    KeptHasNone(x);
    hide NoIdentity;
    forall j, n | 0 <= j < |t| && 0 <= n < |t[j].insts| && (j < i || (j == i && n < k + 1))
      ensures NoIdentity(t[j].insts[n])
    {
      if j == i && n == k {
        ConstHasNone(t[j].insts[n]);
      } else if Alg.RuleFor(x).Forward? {
        assert DefinedAt(blocks, i, k, x.dst);
        if x.dst in UsedRegs(blocks[j].insts[n]) { UseIsBehind(blocks, nextReg, i, k, x.dst, j, n); }
        ReplaceShape(blocks[j].insts[n], x.dst, Alg.RuleFor(x).v);
      }
    }
  }

  lemma ConstHasNone(x: Inst)
    requires x.Const? || NoIdentity(x)
    ensures NoIdentity(x)
  {}

  lemma {:induction false} SimplificationLeavesFrom(blocks: seq<Block>, nextReg: nat, i: nat, k: nat)
    requires WellFormed(blocks, nextReg) && i <= |blocks| && (i < |blocks| ==> k <= |blocks[i].insts|)
    requires CleanBefore(blocks, i, if i < |blocks| then k else 0)
    ensures var t := Alg.SimplifyFrom(blocks, i, k); CleanBefore(t, |t|, 0)
    decreases |blocks| - i, if i < |blocks| then |blocks[i].insts| - k else 0
  {
    hide NoIdentity;
    hide WellFormed;
    hide Alg.Visit;
    if i == |blocks| {
    } else if k == |blocks[i].insts| {
      SimplificationLeavesFrom(blocks, nextReg, i + 1, 0);
    } else {
      VisitedStaysClean(blocks, nextReg, i, k);
      Alg.VisitRefines(blocks, nextReg, i, k);
      SimplificationLeavesFrom(Alg.Visit(blocks, i, k), nextReg, i, k + 1);
    }
  }

  /** No instruction is left that an identity applies to: what a replacement does comes after it. */
  lemma SimplificationLeaves(blocks: seq<Block>, nextReg: nat)
    requires WellFormed(blocks, nextReg)
    ensures var t := Alg.SimplifyFrom(blocks, 0, 0);
      forall i, k :: 0 <= i < |t| && 0 <= k < |t[i].insts| ==> NoIdentity(t[i].insts[k])
  { SimplificationLeavesFrom(blocks, nextReg, 0, 0); }

  // ----- Dead code -----

  lemma {:induction false} UsedInFrom(insts: seq<Inst>, r: nat) returns (k: nat)
    requires r in Dce.UsedIn(insts)
    ensures k < |insts| && r in UsedRegs(insts[k])
  {
    k := |insts| - 1;
    if r !in UsedRegs(insts[k]) { k := UsedInFrom(insts[..k], r); }
  }

  lemma {:induction false} UsedFrom(blocks: seq<Block>, r: nat)
    requires r in Dce.UsedInBlocks(blocks)
    ensures SomeUse(blocks, r)
  {
    var n := |blocks| - 1;
    if r in Dce.UsedIn(blocks[n].insts) {
      var k := UsedInFrom(blocks[n].insts, r);
    } else {
      UsedFrom(blocks[..n], r);
      var i, k :| 0 <= i < n && 0 <= k < |blocks[..n][i].insts| && r in UsedRegs(blocks[..n][i].insts[k]);
      assert r in UsedRegs(blocks[i].insts[k]);
    }
  }

  lemma NeededAt(blocks: seq<Block>, i: nat, k: nat)
    requires Dce.NothingDead(blocks) && i < |blocks| && k < |blocks[i].insts|
    ensures var x := blocks[i].insts[k]; x.Load? || x.Const? || x.Bin? || x.Un? ==> SomeUse(blocks, x.dst)
  {
    var x := blocks[i].insts[k];
    assert !Dce.Dead(x, Dce.UsedInBlocks(blocks));
    hide SomeUse;
    hide Dce.NothingDead;
    hide Dce.UsedInBlocks;
    if x.Load? || x.Const? || x.Bin? || x.Un? { UsedFrom(blocks, x.dst); }
  }

  lemma EliminationLeaves(blocks: seq<Block>)
    ensures AllNeeded(Dce.Eliminate(blocks))
  {
    var t := Dce.Eliminate(blocks);
    Dce.EliminateIsComplete(blocks);
    hide Dce.Eliminate;
    hide Dce.NothingDead;
    hide SomeUse;
    forall i, k | 0 <= i < |t| && 0 <= k < |t[i].insts|
      ensures var x := t[i].insts[k]; x.Load? || x.Const? || x.Bin? || x.Un? ==> SomeUse(t, x.dst)
    {
      NeededAt(t, i, k);
    }
  }

  // ----- Branches -----

  lemma LastUndecided(insts: seq<Inst>)
    requires insts != []
    ensures var t := Cfg.SimplifyLast(insts); Undecided(t[|t|-1])
  {}

  lemma StraighteningLeaves(blocks: seq<Block>, nextReg: nat, nextBlock: nat)
    requires WellFormed(blocks, nextReg) && Cfg.IdsBelow(blocks, nextBlock)
    ensures Straightened(Cfg.Simplified(blocks, nextBlock), nextBlock)
  {
    var s, t := Cfg.SimplifyTerms(blocks), Cfg.Simplified(blocks, nextBlock);
    var keep := Cfg.ReachableIds(s, nextBlock);
    Cfg.SimplifiedRefines(blocks, nextReg, nextBlock);
    forall i | 0 <= i < |t| ensures Reach(Cfg.GraphOf(t, nextBlock), t[0].id, t[i].id) {
      assert HasBlock(t, t[i].id);
      Cfg.SimplifiedIsReachable(blocks, nextReg, nextBlock, t[i].id);
    }
    forall i, k | 0 <= i < |t| && 0 <= k < |t[i].insts| ensures Undecided(t[i].insts[k]) {
      assert BlockOk(t[i]);
      var n := Cfg.KeptFrom(s, keep, i);
      assert t[i].insts == Cfg.SimplifyLast(blocks[n].insts);
      if k == |t[i].insts| - 1 { LastUndecided(blocks[n].insts); }
    }
  }

  // ----- Forwarding -----

  lemma UnusedStaysUnused(blocks: seq<Block>, d: nat, v: Value, r: nat)
    requires !SomeUse(blocks, r) && v != Reg(r)
    ensures !SomeUse(ReplaceUses(blocks, d, v), r)
  {
    var t := ReplaceUses(blocks, d, v);
    forall i, k | 0 <= i < |t| && 0 <= k < |t[i].insts| ensures r !in UsedRegs(t[i].insts[k]) {
      ReplaceShape(blocks[i].insts[k], d, v);
    }
  }

  lemma ReplacedIsUnused(blocks: seq<Block>, d: nat, v: Value)
    requires v != Reg(d)
    ensures !SomeUse(ReplaceUses(blocks, d, v), d)
  {
    var t := ReplaceUses(blocks, d, v);
    forall i, k | 0 <= i < |t| && 0 <= k < |t[i].insts| ensures d !in UsedRegs(t[i].insts[k]) {
      ReplaceShape(blocks[i].insts[k], d, v);
    }
  }

  lemma StoreUses(x: Inst, r: nat)
    ensures x.Store? && x.src == Reg(r) ==> r in UsedRegs(x)
  { assert x.Store? ==> x.src in Operands(x); }

  lemma TableSkips(blocks: seq<Block>, i: nat, k: nat, table: Copy.Table, r: nat)
    requires i < |blocks| && k < |blocks[i].insts| && !SomeUse(blocks, r)
    requires forall s :: s in table ==> table[s] != Reg(r)
    ensures var next := Copy.NextTable(table, blocks[i].insts[k]); forall s :: s in next ==> next[s] != Reg(r)
  { StoreUses(blocks[i].insts[k], r); }

  /** What has no use gets none, as long as the table does not know it. */
  lemma {:induction false} UnusedToTheEnd(blocks: seq<Block>, i: nat, k: nat, table: Copy.Table, r: nat)
    requires i <= |blocks| && (i < |blocks| ==> k <= |blocks[i].insts|) && !SomeUse(blocks, r)
    requires forall s :: s in table ==> table[s] != Reg(r)
    ensures !SomeUse(Copy.ForwardFrom(blocks, i, k, table), r)
    decreases |blocks| - i, if i < |blocks| then |blocks[i].insts| - k else 0
  {
    hide SomeUse;
    if i == |blocks| {
    } else if k == |blocks[i].insts| {
      UnusedToTheEnd(blocks, i + 1, 0, map[], r);
    } else {
      var x := blocks[i].insts[k];
      if x.Load? && x.slot in table { UnusedStaysUnused(blocks, x.dst, table[x.slot], r); }
      TableSkips(blocks, i, k, table, r);
      UnusedToTheEnd(Copy.Visit(blocks, table, x), i, k + 1, Copy.NextTable(table, x), r);
    }
  }

  /** The table knows of every store behind the last call. */
  ghost predicate TableFull(insts: seq<Inst>, k: nat, table: Copy.Table)
    requires k <= |insts|
  {
    && table.Keys <= StoredSlots(insts, k)
    && (|StoredSlots(insts, k)| <= 64 ==> KnowsAll(insts, k, table))
  }

  ghost predicate KnowsAll(insts: seq<Inst>, k: nat, table: Copy.Table)
    requires k <= |insts|
  {
    forall j ::
      0 <= j < k && insts[j].Store? && (forall n :: j < n < k ==> !insts[n].Call?) ==> insts[j].slot in table
  }

  lemma StoredNext(insts: seq<Inst>, k: nat)
    requires k < |insts|
    ensures StoredSlots(insts, k + 1) == StoredSlots(insts, k) + if insts[k].Store? then {insts[k].slot} else {}
    ensures |StoredSlots(insts, k)| <= |StoredSlots(insts, k + 1)|
  {
    var a, b := StoredSlots(insts, k), StoredSlots(insts, k + 1);
    assert a <= b;
    SmallerSet(a, b);
  }

  lemma SmallerSet<T>(a: set<T>, b: set<T>)
    requires a <= b
    ensures |a| <= |b|
  { assert b == a + (b - a); }

  lemma NextKnowsAll(insts: seq<Inst>, k: nat, table: Copy.Table)
    requires k < |insts| && KnowsAll(insts, k, table)
    requires insts[k].Store? ==> insts[k].slot in table || |table| < 64
    ensures KnowsAll(insts, k + 1, Copy.NextTable(table, insts[k]))
  {
    var x, next := insts[k], Copy.NextTable(table, insts[k]);
    forall j | 0 <= j < k + 1 && insts[j].Store? && (forall n :: j < n < k + 1 ==> !insts[n].Call?)
      ensures insts[j].slot in next
    {
      if j < k { assert !x.Call?; }
    }
  }

  lemma RoomForOneMore(table: Copy.Table, slot: string, stored: set<string>)
    requires table.Keys + {slot} <= stored && |stored| <= 64 && slot !in table
    ensures |table| < 64
  {
    SmallerSet(table.Keys + {slot}, stored);
    assert |table.Keys + {slot}| == |table.Keys| + 1;
  }

  lemma TableFullNext(insts: seq<Inst>, k: nat, table: Copy.Table)
    requires k < |insts| && TableFull(insts, k, table)
    ensures TableFull(insts, k + 1, Copy.NextTable(table, insts[k]))
  {
    var x := insts[k];
    StoredNext(insts, k);
    hide StoredSlots;
    hide KnowsAll;
    if |StoredSlots(insts, k + 1)| <= 64 {
      if x.Store? && x.slot !in table { RoomForOneMore(table, x.slot, StoredSlots(insts, k + 1)); }
      NextKnowsAll(insts, k, table);
    }
  }

  /** What forwarding goes by is the same. */
  predicate Alike(a: Inst, b: Inst) {
    && (a.Store? <==> b.Store?) && (a.Store? ==> a.slot == b.slot) && (a.Call? <==> b.Call?)
    && (a.Load? <==> b.Load?) && (a.Load? ==> a == b)
  }

  predicate AllAlike(a: seq<Inst>, b: seq<Inst>) { |a| == |b| && forall k :: 0 <= k < |a| ==> Alike(a[k], b[k]) }

  predicate BlocksAlike(a: seq<Block>, b: seq<Block>) {
    |a| == |b| && forall i :: 0 <= i < |a| ==> AllAlike(a[i].insts, b[i].insts)
  }

  lemma AlikeForwardable(a: seq<Inst>, b: seq<Inst>, j: int, k: int)
    requires AllAlike(a, b) && Forwardable(b, j, k)
    ensures Forwardable(a, j, k) && a[k] == b[k]
  { assert Alike(a[k], b[k]) && Alike(a[j], b[j]); AlikeSlots(a, b, k); }

  lemma AlikeSlots(a: seq<Inst>, b: seq<Inst>, k: nat)
    requires AllAlike(a, b) && k <= |a|
    ensures StoredSlots(a, k) == StoredSlots(b, k)
  {
    forall s ensures s in StoredSlots(a, k) <==> s in StoredSlots(b, k) {
      if s in StoredSlots(a, k) {
        var n :| 0 <= n < k && a[n].Store? && a[n].slot == s;
        assert Alike(a[n], b[n]) && b[n].slot == s;
      }
      if s in StoredSlots(b, k) {
        var n :| 0 <= n < k && b[n].Store? && b[n].slot == s;
        assert Alike(a[n], b[n]) && a[n].slot == s;
      }
    }
  }

  lemma AlikeFull(a: seq<Inst>, b: seq<Inst>, k: nat, table: Copy.Table)
    requires AllAlike(a, b) && k <= |a| && TableFull(a, k, table)
    ensures TableFull(b, k, table)
  {
    AlikeSlots(a, b, k);
    hide StoredSlots;
    if KnowsAll(a, k, table) {
      forall j | 0 <= j < k && b[j].Store? && (forall n :: j < n < k ==> !b[n].Call?) ensures b[j].slot in table {
        assert Alike(a[j], b[j]);
        assert forall n :: j < n < k ==> Alike(a[n], b[n]);
      }
    }
  }

  lemma VisitAlike(blocks: seq<Block>, table: Copy.Table, x: Inst)
    ensures BlocksAlike(blocks, Copy.Visit(blocks, table, x))
  {
    var t := Copy.Visit(blocks, table, x);
    forall i, k | 0 <= i < |blocks| && 0 <= k < |blocks[i].insts| ensures Alike(blocks[i].insts[k], t[i].insts[k]) {}
  }

  lemma {:induction false} ForwardAlike(blocks: seq<Block>, i: nat, k: nat, table: Copy.Table)
    requires i <= |blocks| && (i < |blocks| ==> k <= |blocks[i].insts|)
    ensures BlocksAlike(blocks, Copy.ForwardFrom(blocks, i, k, table))
    decreases |blocks| - i, if i < |blocks| then |blocks[i].insts| - k else 0
  {
    hide Alike;
    if i == |blocks| {
      AlikeSelf(blocks);
    } else if k == |blocks[i].insts| {
      ForwardAlike(blocks, i + 1, 0, map[]);
    } else {
      var x := blocks[i].insts[k];
      var v := Copy.Visit(blocks, table, x);
      VisitAlike(blocks, table, x);
      ForwardAlike(v, i, k + 1, Copy.NextTable(table, x));
      AlikeTrans(blocks, v, Copy.ForwardFrom(v, i, k + 1, Copy.NextTable(table, x)));
    }
  }

  lemma AlikeSelf(a: seq<Block>)
    ensures BlocksAlike(a, a)
  {}

  lemma AlikeTrans(a: seq<Block>, b: seq<Block>, c: seq<Block>)
    requires BlocksAlike(a, b) && BlocksAlike(b, c)
    ensures BlocksAlike(a, c)
  {
    forall i, k | 0 <= i < |a| && 0 <= k < |a[i].insts| ensures Alike(a[i].insts[k], c[i].insts[k]) {
      assert AllAlike(a[i].insts, b[i].insts) && AllAlike(b[i].insts, c[i].insts);
      assert Alike(a[i].insts[k], b[i].insts[k]) && Alike(b[i].insts[k], c[i].insts[k]);
    }
  }

  /** What stands where the pass looks next. */
  ghost predicate Looking(blocks: seq<Block>, nextReg: nat, i: nat, k: nat, table: Copy.Table) {
    && WellFormed(blocks, nextReg) && i < |blocks| && k <= |blocks[i].insts|
    && Copy.TableOk(blocks[i].insts, k, table) && TableFull(blocks[i].insts, k, table)
  }

  lemma LooksOn(blocks: seq<Block>, nextReg: nat, i: nat, k: nat, table: Copy.Table)
    requires Looking(blocks, nextReg, i, k, table) && k < |blocks[i].insts|
    ensures var x := blocks[i].insts[k];
      Looking(Copy.Visit(blocks, table, x), nextReg, i, k + 1, Copy.NextTable(table, x))
  {
    var insts, x := blocks[i].insts, blocks[i].insts[k];
    var v, next := Copy.Visit(blocks, table, x), Copy.NextTable(table, x);
    Copy.VisitRefines(blocks, nextReg, i, k, table);
    Copy.TableStep(insts, k, table);
    Copy.TableOkPrefix(insts, v[i].insts, k + 1, next);
    TableFullNext(insts, k, table);
    VisitAlike(blocks, table, x);
    AlikeFull(insts, v[i].insts, k + 1, next);
    hide WellFormed;
    hide Copy.TableOk;
    hide TableFull;
    hide Copy.Visit;
    hide Copy.NextTable;
  }

  lemma LooksFirst(blocks: seq<Block>, nextReg: nat, i: nat)
    requires WellFormed(blocks, nextReg) && i < |blocks|
    ensures Looking(blocks, nextReg, i, 0, map[])
  {}

  /** A register is not in the table before it is defined. */
  lemma NotYetTabled(blocks: seq<Block>, nextReg: nat, i: nat, k: nat, table: Copy.Table, r: nat)
    requires Looking(blocks, nextReg, i, k, table) && DefinedAt(blocks, i, k, r)
    ensures forall s :: s in table ==> table[s] != Reg(r)
  {
    var insts := blocks[i].insts;
    forall s | s in table ensures table[s] != Reg(r) {
      assert Copy.Available(insts, k, s, table[s]);
      var j :| 0 <= j < k && insts[j] == Store(table[s], s);
      StoreUses(insts[j], r);
      if r in UsedRegs(insts[j]) { UseIsBehind(blocks, nextReg, i, k, r, i, j); }
    }
  }

  lemma LoadFound(blocks: seq<Block>, nextReg: nat, i: nat, j: nat, k: nat, table: Copy.Table)
    requires Looking(blocks, nextReg, i, k, table) && Forwardable(blocks[i].insts, j, k)
    ensures blocks[i].insts[k].slot in table
  {
    hide WellFormed;
    hide Copy.TableOk;
    hide StoredSlots;
  }

  lemma LoadDefines(blocks: seq<Block>, i: nat, k: nat)
    requires i < |blocks| && k < |blocks[i].insts| && blocks[i].insts[k].Load?
    ensures DefinedAt(blocks, i, k, blocks[i].insts[k].dst)
  {}

  lemma VisitLoad(blocks: seq<Block>, table: Copy.Table, x: Inst)
    requires x.Load? && x.slot in table
    ensures Copy.Visit(blocks, table, x) == ReplaceUses(blocks, x.dst, table[x.slot])
      && Copy.NextTable(table, x) == table
  {}

  lemma LoadForwarded(blocks: seq<Block>, nextReg: nat, i: nat, j: nat, k: nat, table: Copy.Table)
    requires Looking(blocks, nextReg, i, k, table) && Forwardable(blocks[i].insts, j, k)
    ensures !SomeUse(Copy.ForwardFrom(blocks, i, k, table), blocks[i].insts[k].dst)
  {
    hide *;
    LookingIs(blocks, nextReg, i, k, table);
    ForwardableIs(blocks[i].insts, j, k);
    var x := blocks[i].insts[k];
    LoadFound(blocks, nextReg, i, j, k, table);
    LoadDefines(blocks, i, k);
    NotYetTabled(blocks, nextReg, i, k, table, x.dst);
    VisitLoad(blocks, table, x);
    ReplacedIsUnused(blocks, x.dst, table[x.slot]);
    Copy.ForwardUnfold(blocks, i, k, table);
    UnusedToTheEnd(Copy.Visit(blocks, table, x), i, k + 1, table, x.dst);
  }

  lemma LookingIs(blocks: seq<Block>, nextReg: nat, i: nat, k: nat, table: Copy.Table)
    requires Looking(blocks, nextReg, i, k, table)
    ensures WellFormed(blocks, nextReg) && i < |blocks| && k <= |blocks[i].insts|
  {}

  lemma ForwardableIs(insts: seq<Inst>, j: int, k: int)
    requires Forwardable(insts, j, k)
    ensures 0 <= k < |insts| && insts[k].Load?
  {}

  lemma NextBlock(blocks: seq<Block>, i: nat, k: nat, table: Copy.Table)
    requires i < |blocks| && k == |blocks[i].insts|
    ensures Copy.ForwardFrom(blocks, i, k, table) == Copy.ForwardFrom(blocks, i + 1, 0, map[])
  {}

  lemma {:induction false} ForwardsAt(blocks: seq<Block>, nextReg: nat, i: nat, k: nat, table: Copy.Table, b: nat,
      j: nat, l: nat)
    requires Looking(blocks, nextReg, i, k, table)
    requires b < |blocks| && Forwardable(blocks[b].insts, j, l) && (i < b || (i == b && k <= l))
    ensures !SomeUse(Copy.ForwardFrom(blocks, i, k, table), blocks[b].insts[l].dst)
    decreases |blocks| - i, if i < |blocks| then |blocks[i].insts| - k else 0
  {
    hide *;
    LookingIs(blocks, nextReg, i, k, table);
    ForwardableIs(blocks[b].insts, j, l);
    if i == b && k == l {
      LoadForwarded(blocks, nextReg, i, j, k, table);
    } else if k == |blocks[i].insts| {
      LooksFirst(blocks, nextReg, i + 1);
      ForwardsAt(blocks, nextReg, i + 1, 0, map[], b, j, l);
      NextBlock(blocks, i, k, table);
    } else {
      var x := blocks[i].insts[k];
      var v := Copy.Visit(blocks, table, x);
      LooksOn(blocks, nextReg, i, k, table);
      VisitAlike(blocks, table, x);
      AlikeBack(blocks, v, b, j, l);
      Copy.ForwardUnfold(blocks, i, k, table);
      LookingIs(v, nextReg, i, k + 1, Copy.NextTable(table, x));
      ForwardsAt(v, nextReg, i, k + 1, Copy.NextTable(table, x), b, j, l);
    }
  }

  lemma AlikeBack(a: seq<Block>, b: seq<Block>, i: nat, j: nat, k: nat)
    requires BlocksAlike(a, b) && i < |a| && Forwardable(a[i].insts, j, k)
    ensures Forwardable(b[i].insts, j, k) && a[i].insts[k] == b[i].insts[k]
  {
    forall n | 0 <= n < |a[i].insts| ensures Alike(b[i].insts[n], a[i].insts[n]) {
      assert AllAlike(a[i].insts, b[i].insts) && Alike(a[i].insts[n], b[i].insts[n]);
    }
    assert AllAlike(b[i].insts, a[i].insts);
    AlikeForwardable(b[i].insts, a[i].insts, j, k);
  }

  /** A load of what the block has stored before, with no call in between, has no use left. */
  lemma ForwardingLeaves(blocks: seq<Block>, nextReg: nat)
    requires WellFormed(blocks, nextReg)
    ensures AllForwarded(Copy.ForwardFrom(blocks, 0, 0, map[]))
  {
    var t := Copy.ForwardFrom(blocks, 0, 0, map[]);
    ForwardAlike(blocks, 0, 0, map[]);
    forall i: nat, j, k | i < |t| && Forwardable(t[i].insts, j, k) ensures !SomeUse(t, t[i].insts[k].dst) {
      assert AllAlike(blocks[i].insts, t[i].insts);
      AlikeForwardable(blocks[i].insts, t[i].insts, j, k);
      LooksFirst(blocks, nextReg, 0);
      ForwardsAt(blocks, nextReg, 0, 0, map[], i, j, k);
    }
  }

  // ----- The pipeline -----

  /** One trip round the passes. */
  ghost function Pipeline(blocks: seq<Block>, nextBlock: nat): seq<Block> {
    if blocks == [] then []
    else
      var propagated := Prop.PropagateBlocks(Copy.ForwardFrom(blocks, 0, 0, map[]));
      Cfg.Simplified(Dce.Eliminate(Alg.SimplifyFrom(Fold.FoldBlocks(propagated), 0, 0)), nextBlock)
  }

  ghost function Rounds(blocks: seq<Block>, nextBlock: nat, n: nat): seq<Block> {
    if n == 0 then blocks else Pipeline(Rounds(blocks, nextBlock, n - 1), nextBlock)
  }

  /** Where no pass changes anything, nothing is left to do. */
  lemma UnchangedIsFinished(blocks: seq<Block>, nextReg: nat)
    requires WellFormed(blocks, nextReg)
    requires Copy.ForwardFrom(blocks, 0, 0, map[]) == blocks && Prop.PropagateBlocks(blocks) == blocks
    requires Fold.FoldBlocks(blocks) == blocks && Alg.SimplifyFrom(blocks, 0, 0) == blocks
      && Dce.Eliminate(blocks) == blocks
    ensures Finished(blocks)
  {
    hide WellFormed;
    hide Copy.ForwardFrom;
    hide Prop.PropagateBlocks;
    hide Alg.SimplifyFrom;
    hide Dce.Eliminate;
    hide NoKnownUse;
    hide SomeUse;
    hide NoIdentity;
    hide Unfoldable;
    hide Forwardable;
    ForwardingLeaves(blocks, nextReg);
    PropagationLeaves(blocks, nextReg);
    FoldingLeaves(blocks);
    SimplificationLeaves(blocks, nextReg);
    EliminationLeaves(blocks);
    forall i, j, k | 0 <= i < |blocks| ensures !Forwardable(blocks[i].insts, j, k) { NoneForwardable(blocks, i, j, k); }
  }

  lemma NoneForwardable(blocks: seq<Block>, i: nat, j: int, k: int)
    requires AllForwarded(blocks) && AllNeeded(blocks) && i < |blocks|
    ensures !Forwardable(blocks[i].insts, j, k)
  { hide SomeUse; }
}
