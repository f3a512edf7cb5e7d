module InlineProgram {
  // Inlining one call site: the caller, and every function of the module, give the same results as before.

  import opened Options
  import opened Ir
  import opened SsaIr
  import opened Exchanges
  import opened Graphs
  import opened Dominators
  import opened Inlining
  import opened InlineStructure
  import opened InlineCopies
  import opened InlineSafety

  lemma EntryRel(s: Site, args: seq<Val>, tr: seq<Event>, world: World)
    requires Ready(s)
    ensures s.caller.blocks != [] && Reached(s, 0)
      && RelAt(s, State(map[], map[], tr), State(map[], map[], tr), Env(args, world), 0, 0)
  {
    SsaBlocks(s.caller);
    assert s.caller.blocks[0].id < s.caller.nextBlock;
    ReachSelf(Cfg(s.caller), Entry(s));
    if s.bi != 0 && BlockDom(s.caller, s.Block().id, Entry(s)) {
      OnlyEntryDominatesEntry(Cfg(s.caller), Entry(s), s.Block().id);
    }
  }

  lemma EntersWithoutPhis(m: Module, f: Fn, args: seq<Val>, tr: seq<Event>, world: World, n: nat)
    requires f.blocks != []
    ensures CallFn(m, f, args, tr, world, n) ==
      if n == 0 then OutOfFuel
      else if f.blocks[0].phis != [] then Trapped
      else RunInsts(m, f, f.blocks[0].id, f.blocks[0].insts, State(map[], map[], tr), Env(args, world), n - 1)
  {
    FindAt(f.blocks, 0);
    assert State(map[], map[], tr).(regs := map[]) == State(map[], map[], tr);
  }

  lemma InlinedEntry(s: Site)
    requires Ready(s)
    ensures s.Inlined().blocks != [] && s.caller.blocks != []
    ensures s.Inlined().blocks[0].id == s.caller.blocks[0].id == Cur(s, 0, 0)
    ensures |s.Inlined().blocks[0].phis| == |s.caller.blocks[0].phis|
    ensures s.Inlined().blocks[0].insts == Code(s, 0, 0) && s.caller.blocks[0].insts == Rest(s, 0, 0)
  {
    ReadyIs(s);
    InlinedBlocks(s);
    CodeStart(s, 0);
    OldPhis(s, 0);
  }

  /** The caller gives the same results after inlining. */
  lemma InliningFollows(m: Module, s: Site, args: seq<Val>, tr: seq<Event>, world: World, n: nat) returns (n2: nat)
    requires Ready(s) && Resolves(m, s)
    ensures s.callee.blocks != [] && s.Valid()
      && Follows(false, CallFn(m, s.caller, args, tr, world, n), m, s.Inlined(), args, tr, world, n, n2)
  {
    hide Ready;
    hide s.Inlined;
    hide Code;
    hide Rest;
    hide Cur;
    hide RunInsts;
    hide CallFn;
    hide Reached;
    hide RelAt;
    IsCall(s);
    n2 := n;
    EntryRel(s, args, tr, world);
    InlinedEntry(s);
    EntersWithoutPhis(m, s.caller, args, tr, world, n);
    EntersWithoutPhis(m, s.Inlined(), args, tr, world, n);
    if n > 0 && s.caller.blocks[0].phis == [] {
      var st := State(map[], map[], tr);
      n2 := MainInsts(m, s, 0, 0, st, st, Env(args, world), n - 1);
      n2 := n2 + 1;
      EntersWithoutPhis(m, s.Inlined(), args, tr, world, n2);
    }
  }

  // ----- The whole module -----

  /** The module with function `ci`, the caller of the site, replaced by the inlined one. */
  predicate Replacement(m: Module, m': Module, s: Site, ci: nat)
    requires s.Valid() && s.callee.blocks != []
  { ci < |m| && m[ci] == s.caller && m' == m[ci := s.Inlined()] }

  lemma InlinedName(s: Site)
    requires s.Valid() && s.callee.blocks != []
    ensures s.Inlined().name == s.caller.name
  {}

  lemma SiteBehaves(m: Module, s: Site)
    requires Ready(s) && Resolves(m, s)
    ensures s.Valid() && s.callee.blocks != [] && Behaves(false, m, s.caller, s.Inlined())
  {
    IsCall(s);
    hide Ready;
    hide Resolves;
    hide Follows;
    hide CallFn;
    hide s.Inlined;
    forall args: seq<Val>, tr: seq<Event>, world: World, n: nat
      ensures Meets(false, m, s.caller, s.Inlined(), args, tr, world, n)
    {
      var n2 := InliningFollows(m, s, args, tr, world, n);
    }
  }

  /** The callee is another function of the module. */
  lemma SiteExchanged(m: Module, m': Module, s: Site, ci: nat)
    requires Ready(s) && Resolves(m, s) && Replacement(m, m', s, ci) && FindFn(m, s.Call().callee) != Some(ci)
    ensures Exchanged(false, m, m', ci, s.Inlined())
  {
    IsCall(s);
    InlinedName(s);
    SameNames(m, ci, s.Inlined(), s.Call().callee);
    hide SsaForm;
    hide Ready;
    hide s.Inlined;
    hide Behaves;
    SiteBehaves(m', s);
  }

  /** Inlining one call site changes nothing that can be observed of a call of any function of the module: a run that
      ends ends with the same value and trace, and where the run after inlining ends, the one before does too, in the
      same way, unless it traps. */
  lemma InliningKeepsResults(m: Module, m': Module, s: Site, ci: nat, name: string, args: seq<Val>, tr: seq<Event>,
      world: World, n: nat) returns (n2: nat)
    requires Ready(s) && Resolves(m, s) && Replacement(m, m', s, ci) && FindFn(m, s.Call().callee) != Some(ci)
      && FindFn(m, name).Some?
    ensures FindFn(m', name) == FindFn(m, name) && |m'| == |m|
    ensures var x := FindFn(m, name).value;
      var r := CallFn(m, m[x], args, tr, world, n); r.Ended? ==> CallFn(m', m'[x], args, tr, world, n2) == r
    ensures var x := FindFn(m, name).value; var r := CallFn(m', m'[x], args, tr, world, n);
      r.Ended? ==> CallFn(m, m[x], args, tr, world, n) == r || CallFn(m, m[x], args, tr, world, n).Trapped?
  {
    SiteExchanged(m, m', s, ci);
    hide *;
    n2 := CallFollowed(false, m, m', ci, s.Inlined(), name, args, tr, world, n);
    BothWays(m, m', FindFn(m, name).value, args, tr, world, n, n2);
  }

  lemma BothWays(m: Module, m': Module, x: nat, args: seq<Val>, tr: seq<Event>, world: World, n: nat, n2: nat)
    requires x < |m| == |m'| && Follows(false, CallFn(m, m[x], args, tr, world, n), m', m'[x], args, tr, world, n, n2)
    ensures var r := CallFn(m, m[x], args, tr, world, n); r.Ended? ==> CallFn(m', m'[x], args, tr, world, n2) == r
    ensures var r := CallFn(m', m'[x], args, tr, world, n);
      r.Ended? ==> CallFn(m, m[x], args, tr, world, n) == r || CallFn(m, m[x], args, tr, world, n).Trapped?
  {
    hide CallFn;
    if CallFn(m', m'[x], args, tr, world, n).Ended? {
      MoreFuelCall(m', m'[x], args, tr, world, n, Max(n, n2));
      if CallFn(m, m[x], args, tr, world, n).Ended? { MoreFuelCall(m', m'[x], args, tr, world, n2, Max(n, n2)); }
    }
  }
}
