module InlineDriving {
  // Inlining throughout a module (src/ir/ir_ipa.c:666-789).

  import opened Options
  import opened Ir
  import opened SsaIr
  import opened Graphs
  import opened CallGraphs
  import opened CallGraphBuild
  import Interprocedural
  import opened Inlining
  import opened InlineStructure
  import opened InlineSafety
  import opened Exchanges
  import opened InlineProgram
  import opened InlineEditing
  import opened InlineWeights
  import opened InlineEnding
  import opened InlineHealth
  import opened SsaCheck
  import opened InlineScan
  import opened InlineLively

  /** One site inlined into function `ci`. */
  datatype Round = Round(site: Site, ci: nat)

  ghost function Apply(m: Module, rounds: seq<Round>): Module {
    if rounds == [] then m
    else
      var p, r := Apply(m, rounds[..|rounds|-1]), rounds[|rounds|-1];
      if r.ci < |p| && r.site.Valid() && r.site.callee.blocks != [] then p[r.ci := r.site.Inlined()] else p
  }

  /** The site is in function `ci` of the module, and its callee is a function that may be inlined, as it now is. */
  ghost predicate InPlace(p: Module, can: seq<bool>, r: Round) {
    r.ci < |p| && p[r.ci] == r.site.caller && Taken(p, r.ci, can, r.site)
  }

  ghost predicate Proper(m: Module, can: seq<bool>, rounds: seq<Round>) {
    rounds == []
      || (Proper(m, can, rounds[..|rounds|-1]) && InPlace(Apply(m, rounds[..|rounds|-1]), can, rounds[|rounds|-1]))
  }

  predicate NamesKept(m: Module, p: Module) { |p| == |m| && forall i :: 0 <= i < |m| ==> p[i].name == m[i].name }

  lemma FindKept(m: Module, p: Module, name: string)
    requires NamesKept(m, p)
    ensures FindFn(p, name) == FindFn(m, name)
  {
    var a, b := FindFn(m, name), FindFn(p, name);
    assert a.Some? && b.Some? ==> m[a.value].name == p[a.value].name && m[b.value].name == p[b.value].name;
  }

  lemma InlinedTidy(s: Site)
    requires s.Valid() && Tidy(s.caller) && Tidy(s.callee)
    ensures Tidy(s.Inlined()) && s.Inlined().name == s.caller.name
  {
    InlinedIds(s);
    var f := s.Inlined();
    assert f.name == s.caller.name && f.nextBlock == s.caller.nextBlock + 2 + 2 * |s.callee.blocks|;
    InlinedSize(s);
    hide s.Inlined;
    forall x: nat | x < |f.blocks| ensures f.blocks[x].id < f.nextBlock { IdAt(s, x); }
  }

  lemma InlinedSize(s: Site)
    requires s.Valid() && s.callee.blocks != []
    ensures |s.Inlined().blocks| == |s.caller.blocks| + 1 + |s.callee.blocks|
  {
    InlinedBlocks(s);
    hide *;
  }

  /** A call that is taken makes the function lighter, whatever may be inlined besides. */
  lemma RoundLighter(m: Module, fi: nat, can: seq<bool>, s: Site)
    requires |can| == |m| && Weighable(CallsOf(m), can) && Taken(m, fi, can, s)
    ensures BlocksWeight(m, can, s.Inlined().blocks) < BlocksWeight(m, can, s.caller.blocks)
  {
    InlinedWeight(m, can, s);
    OwnWeight(m, can, FindFn(m, s.Call().callee).value);
    hide Weighable;
    hide Weight;
    hide s.Inlined;
  }

  /** What one round does to the record of rounds. */
  lemma RoundInPlace(m: Module, rounds: seq<Round>, p: Module, fi: nat, can: seq<bool>, s: Site)
    requires fi < |p| && Proper(m, can, rounds) && Apply(m, rounds) == p[fi := s.caller]
    requires Taken(p, fi, can, s) && s.Valid() && s.callee.blocks != [] && s.caller.name == p[fi].name
    ensures Proper(m, can, rounds + [Round(s, fi)]) && Apply(m, rounds + [Round(s, fi)]) == p[fi := s.Inlined()]
  {
    hide s.Inlined;
    hide FindFn;
    var next, q := rounds + [Round(s, fi)], p[fi := s.caller];
    assert next[..|next|-1] == rounds;
    SameNames(p, fi, s.caller, s.Call().callee);
    assert q[fi := s.Inlined()] == p[fi := s.Inlined()];
  }

  /** The rounds of whose edits the check approved. */
  ghost function Passed(rounds: seq<Round>): nat {
    if rounds == [] then 0
    else
      var s := rounds[|rounds|-1].site;
      Passed(rounds[..|rounds|-1]) + if s.Valid() && s.callee.blocks != [] && Accepts(s.Inlined()) then 1 else 0
  }

  lemma PassedMore(rounds: seq<Round>, s: Site, fi: nat)
    requires s.Valid() && s.callee.blocks != []
    ensures Passed(rounds + [Round(s, fi)]) == Passed(rounds) + if Accepts(s.Inlined()) then 1 else 0
  {
    hide Accepts;
    hide s.Inlined;
    assert (rounds + [Round(s, fi)])[..|rounds|] == rounds;
  }

  /** Function `fi` as the scan has left it, and the record of rounds. */
  ghost predicate Sound(m0: Module, m: Module, fi: nat, can: seq<bool>, g: Fn, rounds: seq<Round>) {
    && |can| == |m| && fi < |m| && g.name == m[fi].name && Tidy(g) && !Endless(m, fi, can, g.blocks)
    && Proper(m0, can, rounds) && Apply(m0, rounds) == m[fi := g]
    && (Weighable(CallsOf(m), can) ==> BlocksWeight(m, can, g.blocks) <= BlocksWeight(m, can, m[fi].blocks))
  }

  lemma SoundIs(m0: Module, m: Module, fi: nat, can: seq<bool>, g: Fn, rounds: seq<Round>)
    requires Sound(m0, m, fi, can, g, rounds)
    ensures |can| == |m| && fi < |m| && g.name == m[fi].name && Tidy(g) && !Endless(m, fi, can, g.blocks)
    ensures Proper(m0, can, rounds) && Apply(m0, rounds) == m[fi := g]
    ensures Weighable(CallsOf(m), can) ==> BlocksWeight(m, can, g.blocks) <= BlocksWeight(m, can, m[fi].blocks)
  {}

  lemma SoundFirst(m0: Module, m: Module, fi: nat, can: seq<bool>, rounds: seq<Round>)
    requires |can| == |m| && fi < |m| && !Endless(m, fi, can, m[fi].blocks) && Tidy(m[fi])
    requires Proper(m0, can, rounds) && Apply(m0, rounds) == m
    ensures Sound(m0, m, fi, can, m[fi], rounds)
  {
    hide Endless;
    hide Tidy;
    hide Proper;
    hide Apply;
    hide Weighable;
    hide BlocksWeight;
    assert m[fi := m[fi]] == m;
  }

  predicate AllTidy(m: Module) { forall v: nat :: v < |m| ==> Tidy(m[v]) }

  /** An edit, whatever the check says of it. */
  lemma SoundEdit(m0: Module, m: Module, fi: nat, can: seq<bool>, s: Site, rounds: seq<Round>)
    requires Sound(m0, m, fi, can, s.caller, rounds) && Taken(m, fi, can, s) && AllTidy(m)
    ensures s.Valid() && s.callee.blocks != [] && UniqueSsaIds(s.callee.blocks)
    ensures |can| == |m| && Burden(m, fi, can, s.Inlined()) < Burden(m, fi, can, s.caller)
    ensures Sound(m0, m, fi, can, s.Inlined(), rounds + [Round(s, fi)])
  {
    hide *;
    SoundIs(m0, m, fi, can, s.caller, rounds);
    TakenIs(m, fi, can, s);
    CalleeTidy(m, fi, can, s);
    Lightened(m, fi, can, s);
    if Weighable(CallsOf(m), can) { RoundLighter(m, fi, can, s); }
    InlinedTidy(s);
    RoundInPlace(m0, rounds, m, fi, can, s);
    SoundNext(m0, m, fi, can, s.caller, s.Inlined(), rounds + [Round(s, fi)]);
  }

  lemma CalleeTidy(m: Module, fi: nat, can: seq<bool>, s: Site)
    requires AllTidy(m) && Taken(m, fi, can, s)
    ensures Tidy(s.callee) && UniqueSsaIds(s.callee.blocks)
  {
    hide FindFn;
    assert Tidy(m[FindFn(m, s.Call().callee).value]);
  }

  lemma SoundNext(m0: Module, m: Module, fi: nat, can: seq<bool>, g: Fn, h: Fn, rounds: seq<Round>)
    requires |can| == |m| && fi < |m| && g.name == h.name == m[fi].name && Tidy(h) && !Endless(m, fi, can, h.blocks)
    requires Proper(m0, can, rounds) && Apply(m0, rounds) == m[fi := h]
    requires Weighable(CallsOf(m), can) ==> BlocksWeight(m, can, g.blocks) <= BlocksWeight(m, can, m[fi].blocks)
    requires Weighable(CallsOf(m), can) ==> BlocksWeight(m, can, h.blocks) < BlocksWeight(m, can, g.blocks)
    ensures Sound(m0, m, fi, can, h, rounds)
  {
    hide Endless;
    hide Tidy;
    hide Proper;
    hide Apply;
    hide Weighable;
    hide BlocksWeight;
  }

  // ----- Steps of the scan -----

  lemma Stepped(m: Module, fi: nat, can: seq<bool>, st: Scan, n: nat)
    requires Modular(m, can)
    ensures After(m, fi, can, st, n + 1) == Advance(m, fi, can, After(m, fi, can, st, n))
  { hide Advance; }

  lemma PassesOver(m: Module, fi: nat, can: seq<bool>, f: Fn, bi: nat, k: nat)
    requires Modular(m, can) && bi < |f.blocks| && k <= |f.blocks[bi].insts|
    requires k < |f.blocks[bi].insts| ==> !Eligible(m, fi, can, f.blocks[bi].insts[k])
    ensures Advance(m, fi, can, Scanning(f, bi, k)) ==
      if k < |f.blocks[bi].insts| then Scanning(f, bi, k + 1) else Scanning(f, bi + 1, 0)
  {}

  lemma Ends(m: Module, fi: nat, can: seq<bool>, f: Fn)
    requires Modular(m, can)
    ensures Advance(m, fi, can, Scanning(f, |f.blocks|, 0)) == Finished(f)
  {}

  lemma ModularIs(m: Module, can: seq<bool>)
    requires |can| == |m| && AllTidy(m)
    ensures Modular(m, can)
  {}

  /** Whether what follows holds a call to take. */
  method TakesLater(m: Module, fi: nat, can: seq<bool>, insts: seq<Inst>, k: nat) returns (yes: bool)
    ensures yes <==> TakesAfter(m, fi, can, insts, k)
  {
    var q := k + 1;
    while q < |insts|
      invariant k < q && forall j :: k < j < q && j < |insts| ==> !Eligible(m, fi, can, insts[j])
    {
      if Eligible(m, fi, can, insts[q]) { return true; }
      q := q + 1;
    }
    return false;
  }

  /** Scans one block, up to the first call it takes: makes the edit and has the function checked. */
  method ScanBlock(ghost m0: Module, m: Module, fi: nat, can: seq<bool>, f: SsaFunction, bi: nat, ghost start: Scan,
      ghost n: nat, ghost before: seq<Round>)
    returns (changed: bool, strayed: bool, ghost rounds: seq<Round>, ghost steps: nat)
    requires Sound(m0, m, fi, can, f.Now(), before) && AllTidy(m) && |can| == |m| && bi < |f.blocks|
    requires Modular(m, can) && After(m, fi, can, start, n) == Scanning(f.Now(), bi, 0)
    modifies f
    ensures Sound(m0, m, fi, can, f.Now(), rounds) && !(changed && strayed)
    ensures After(m, fi, can, start, steps) ==
      if strayed then Astray(f.Now()) else if changed then Scanning(f.Now(), 0, 0) else Scanning(f.Now(), bi + 1, 0)
    ensures (f.Now() == old(f.Now()) && !changed && !strayed)
      || Burden(m, fi, can, f.Now()) < Burden(m, fi, can, old(f.Now()))
    ensures bi < |f.Now().blocks| && Passed(rounds) == Passed(before) + if changed then 1 else 0
    ensures strayed ==> Passed(rounds) < |rounds|
  {
    hide *;
    changed, strayed, rounds, steps := false, false, before, n;
    Reading(f);
    var k, insts := 0, f.blocks[bi].insts;
    while k < |insts|
      invariant 0 <= k <= |insts| && f.Now() == old(f.Now()) && bi < |f.blocks| && f.blocks[bi].insts == insts
      invariant After(m, fi, can, start, steps) == Scanning(f.Now(), bi, k)
    {
      Reading(f);
      Stepped(m, fi, can, start, steps);
      steps := steps + 1;
      if Eligible(m, fi, can, insts[k]) {
        ghost var s := EditIs(m, fi, can, f.Now(), bi, k);
        SoundEdit(m0, m, fi, can, s, before);
        EligibleFinds(m, fi, can, insts[k]);
        TakenCallee(m, fi, can, s);
        PassedMore(before, s, fi);
        rounds := before + [Round(s, fi)];
        f.InlineCallSite(bi, k, m[FindFn(m, insts[k].callee).value]);
        SoundIs(m0, m, fi, can, f.Now(), rounds);
        InlinedSize(s);
        changed := VerifyFunction(f.Now());
        if !changed {
          strayed := TakesLater(m, fi, can, insts, k);
          PassedBound(before);
        }
        return;
      }
      PassesOver(m, fi, can, f.Now(), bi, k);
      k := k + 1;
    }
    Reading(f);
    PassesOver(m, fi, can, f.Now(), bi, k);
    Stepped(m, fi, can, start, steps);
    steps := steps + 1;
  }

  lemma TakenCallee(m: Module, fi: nat, can: seq<bool>, s: Site)
    requires Taken(m, fi, can, s)
    ensures s.Valid() && FindFn(m, s.Call().callee).Some? && FindFn(m, s.Call().callee).value < |m|
      && s.callee == m[FindFn(m, s.Call().callee).value] && s.Call() == s.caller.blocks[s.bi].insts[s.k]
    ensures s == Site(s.caller, s.bi, s.k, s.callee)
  {}

  lemma {:induction false} PassedBound(rounds: seq<Round>)
    ensures Passed(rounds) <= |rounds|
  { if rounds != [] { PassedBound(rounds[..|rounds|-1]); } }

  /** Inlines into function `fi` until nothing is left to take, whatever the check says of the edits on the way, or
      until the scan goes astray; it is called where that comes (ScanEndsExactlyWhen). */
  method InlineFunction(ghost m0: Module, m: Module, fi: nat, can: seq<bool>, f: SsaFunction, ghost before: seq<Round>)
    returns (inlined: nat, strayed: bool, ghost rounds: seq<Round>, ghost steps: nat)
    requires |can| == |m| && fi < |m| && f.Now() == m[fi] && !Endless(m, fi, can, m[fi].blocks)
    requires AllTidy(m) && Proper(m0, can, before) && Apply(m0, before) == m
    modifies f
    ensures Modular(m, can) && After(m, fi, can, Scanning(m[fi], 0, 0), steps) ==
      if strayed then Astray(f.Now()) else Finished(f.Now())
    ensures !strayed ==> Settled(m, fi, can, f.blocks)
    ensures f.Now().name == m[fi].name && Tidy(f.Now())
    ensures Proper(m0, can, rounds) && Apply(m0, rounds) == m[fi := f.Now()]
    ensures Passed(rounds) == Passed(before) + inlined && (strayed ==> Passed(rounds) < |rounds|)
    ensures Weighable(CallsOf(m), can) ==> BlocksWeight(m, can, f.blocks) <= BlocksWeight(m, can, m[fi].blocks)
  {
    hide *;
    ModularIs(m, can);
    inlined, strayed, rounds, steps := 0, false, before, 0;
    ghost var start := Scanning(m[fi], 0, 0);
    TidyAt(m, fi);
    SoundFirst(m0, m, fi, can, before);
    NoStep(m, fi, can, start);
    var changed := true;
    while changed
      invariant Sound(m0, m, fi, can, f.Now(), rounds) && Passed(rounds) == Passed(before) + inlined
      invariant After(m, fi, can, start, steps) == if changed then Scanning(f.Now(), 0, 0) else Finished(f.Now())
      decreases Burden(m, fi, can, f.Now()), changed
    {
      changed := false;
      ghost var load := Burden(m, fi, can, f.Now());
      var bi := 0;
      Reading(f);
      while bi < |f.blocks| && !changed
        invariant 0 <= bi && Sound(m0, m, fi, can, f.Now(), rounds) && Passed(rounds) == Passed(before) + inlined
        invariant After(m, fi, can, start, steps) == Scanning(f.Now(), if changed then 0 else bi, 0)
        invariant Burden(m, fi, can, f.Now()) <= load && (changed ==> Burden(m, fi, can, f.Now()) < load)
        invariant !changed ==> bi <= |f.Now().blocks|
        decreases Burden(m, fi, can, f.Now()), |f.blocks| - bi
      {
        ghost var was := f.Now();
        Reading(f);
        changed, strayed, rounds, steps := ScanBlock(m0, m, fi, can, f, bi, start, steps, rounds);
        Reading(f);
        if strayed {
          SoundIs(m0, m, fi, can, f.Now(), rounds);
          return;
        }
        if changed { inlined := inlined + 1; }
        bi := bi + 1;
      }
      if !changed {
        Reading(f);
        Ends(m, fi, can, f.Now());
        Stepped(m, fi, can, start, steps);
        steps := steps + 1;
      }
    }
    Reading(f);
    SoundIs(m0, m, fi, can, f.Now(), rounds);
    FinishedIsSettled(m, fi, can, m[fi], steps);
    LookedIs(m, fi, can, f.Now());
  }

  lemma LookedIs(m: Module, fi: nat, can: seq<bool>, f: Fn)
    requires Looked(m, fi, can, Finished(f))
    ensures Settled(m, fi, can, f.blocks)
  {}

  lemma TidyAt(m: Module, fi: nat)
    requires AllTidy(m) && fi < |m|
    ensures Tidy(m[fi])
  {}

  lemma Reading(f: SsaFunction)
    ensures f.Now() == Fn(f.name, f.params, f.blocks, f.nextReg, f.nextBlock)
  {}

  lemma EligibleFinds(m: Module, fi: nat, can: seq<bool>, i: Inst)
    requires Eligible(m, fi, can, i)
    ensures i.Call? && FindFn(m, i.callee).Some? && FindFn(m, i.callee).value < |m|
  {}

  /** A call of a function by name that ends with some fuel in the one module ends the same in the other, and one that
      ends in the other ended the same in the one, unless it trapped there. */
  ghost predicate SameResults(m: Module, p: Module, name: string, args: seq<Val>, tr: seq<Event>, world: World,
      n: nat) {
    FindFn(m, name).Some? ==>
      && FindFn(p, name) == FindFn(m, name)
      && var r, r' := CallFn(m, m[FindFn(m, name).value], args, tr, world, n),
        CallFn(p, p[FindFn(p, name).value], args, tr, world, n);
      && (r.Ended? ==> exists n2: nat :: CallFn(p, p[FindFn(p, name).value], args, tr, world, n2) == r)
      && (r'.Ended? ==> r == r' || r.Trapped?)
  }

  /** The whole module, function by function, up to where the scan of one goes astray if it does. Either way a healthy
      module keeps the results of all its functions; in a lively one every edit passes the check and no scan goes
      astray. */
  method InlineModule(m0: Module, can: seq<bool>)
    returns (m: Module, inlined: nat, strayed: bool, ghost rounds: seq<Round>)
    requires |can| == |m0| && Weighable(CallsOf(m0), can) && AllTidy(m0)
    ensures NamesKept(m0, m) && Proper(m0, can, rounds) && Apply(m0, rounds) == m && Passed(rounds) == inlined
    ensures strayed ==> inlined < |rounds|
    ensures !strayed ==> forall fi: nat :: fi < |m| ==> Settled(m0, fi, can, m[fi].blocks)
    ensures Healthy(m0, can) ==> Healthy(m, can)
    ensures Healthy(m0, can) && Lively(m0, can) ==> !strayed && inlined == |rounds| && Lively(m, can)
    ensures Healthy(m0, can) ==>
      forall name, args, tr, world, n: nat {:trigger SameResults(m0, m, name, args, tr, world, n)} ::
        SameResults(m0, m, name, args, tr, world, n)
  {
    hide *;
    m, inlined, strayed, rounds := m0, 0, false, [];
    Unchanged(m0, can);
    var fi := 0;
    while fi < |m0| && !strayed
      invariant 0 <= fi <= |m0| == |m| && NamesKept(m0, m) && AllTidy(m)
      invariant !strayed ==> Weighable(CallsOf(m), can)
      invariant Proper(m0, can, rounds) && Apply(m0, rounds) == m && Passed(rounds) == inlined
      invariant strayed ==> Passed(rounds) < |rounds|
      invariant forall x: nat :: x < fi && !strayed ==> Settled(m0, x, can, m[x].blocks)
    {
      var f := new SsaFunction(m[fi]);
      WeighableEnds(m, fi, can, m[fi].blocks);
      var count;
      ghost var steps;
      count, strayed, rounds, steps := InlineFunction(m0, m, fi, can, f, rounds);
      Reading(f);
      if !strayed { SettledKept(m0, m, fi, can, f.blocks); }
      StaysWeighable(m, fi, can, f.Now());
      NamesStay(m0, m, fi, f.Now());
      StaysTidy(m, fi, f.Now());
      m := m[fi := f.Now()];
      inlined := inlined + count;
      fi := fi + 1;
    }
    if Healthy(m0, can) {
      StaysHealthy(m0, can, rounds);
      AllSame(m0, can, rounds);
      if Lively(m0, can) { AllPass(m0, can, rounds); }
    }
  }

  lemma StaysTidy(m: Module, fi: nat, f: Fn)
    requires AllTidy(m) && fi < |m| && Tidy(f)
    ensures AllTidy(m[fi := f])
  { hide Tidy; }

  lemma AllSame(m: Module, can: seq<bool>, rounds: seq<Round>)
    requires Healthy(m, can) && Proper(m, can, rounds)
    ensures forall name, args, tr, world,
      n: nat {:trigger SameResults(m, Apply(m, rounds), name, args, tr, world, n)} ::
      SameResults(m, Apply(m, rounds), name, args, tr, world, n)
  {
    hide *;
    var p := Apply(m, rounds);
    forall name, args, tr, world, n: nat ensures SameResults(m, p, name, args, tr, world, n) {
      if FindFn(m, name).Some? {
        var n2 := InliningModuleKeepsResults(m, can, rounds, name, args, tr, world, n);
        Same(m, p, name, args, tr, world, n, n2);
      } else {
        StaysHealthy(m, can, rounds);
        Absent(m, p, name, args, tr, world, n);
      }
    }
  }

  lemma Same(m: Module, p: Module, name: string, args: seq<Val>, tr: seq<Event>, world: World, n: nat, n2: nat)
    requires FindFn(p, name) == FindFn(m, name) && |p| == |m| && FindFn(m, name).Some?
    requires var x := FindFn(m, name).value;
      var r := CallFn(m, m[x], args, tr, world, n); r.Ended? ==> CallFn(p, p[x], args, tr, world, n2) == r
    requires var x := FindFn(m, name).value; var r := CallFn(p, p[x], args, tr, world, n);
      r.Ended? ==> CallFn(m, m[x], args, tr, world, n) == r || CallFn(m, m[x], args, tr, world, n).Trapped?
    ensures SameResults(m, p, name, args, tr, world, n)
  { hide CallFn; }

  lemma Absent(m: Module, p: Module, name: string, args: seq<Val>, tr: seq<Event>, world: World, n: nat)
    requires FindFn(m, name).None?
    ensures SameResults(m, p, name, args, tr, world, n)
  {}

  lemma Unchanged(m0: Module, can: seq<bool>)
    ensures NamesKept(m0, m0) && Proper(m0, can, []) && Apply(m0, []) == m0 && Passed([]) == 0
  {}

  lemma NamesStay(m0: Module, m: Module, fi: nat, f: Fn)
    requires NamesKept(m0, m) && fi < |m| && f.name == m[fi].name
    ensures NamesKept(m0, m[fi := f])
  {}

  /** Without cycles among what may be inlined, inlining into any function ends. */
  lemma WeighableEnds(m: Module, fi: nat, can: seq<bool>, blocks: seq<SsaBlock>)
    requires |can| == |m| && Weighable(CallsOf(m), can)
    ensures !Endless(m, fi, can, blocks)
  {
    hide HasCall;
    hide Takable;
    hide Without;
    forall w: nat ensures !Recurs(Takable(m, fi, can), w) {
      if Recurs(Takable(m, fi, can), w) {
        var c: nat :| OnCycle(Takable(m, fi, can), c);
        WithoutCycle(m, fi, can, c);
      }
    }
  }

  lemma WithoutCycle(m: Module, fi: nat, can: seq<bool>, c: nat)
    requires |can| == |m| && OnCycle(Takable(m, fi, can), c)
    ensures OnCycle(Inlinable(CallsOf(m), can), c) && c < |Inlinable(CallsOf(m), can)|
  {
    hide Takable;
    hide Reach;
    hide Inlinable;
    var w: nat :| Edge(Takable(m, fi, can), c, w) && Reach(Takable(m, fi, can), w, c);
    WithoutEdge(m, fi, can, c, w);
    WithoutPath(m, fi, can, w, c);
  }

  lemma WithoutEdge(m: Module, fi: nat, can: seq<bool>, a: nat, b: nat)
    requires |can| == |m| && Edge(Takable(m, fi, can), a, b)
    ensures Edge(Inlinable(CallsOf(m), can), a, b)
  {
    InlinableEdge(CallsOf(m), Without(can, fi), a, b);
    InlinableEdge(CallsOf(m), can, a, b);
  }

  lemma WithoutPath(m: Module, fi: nat, can: seq<bool>, a: nat, b: nat)
    requires |can| == |m| && Reach(Takable(m, fi, can), a, b)
    ensures Reach(Inlinable(CallsOf(m), can), a, b)
  {
    hide Takable;
    hide Inlinable;
    var p :| Connects(Takable(m, fi, can), p, a, b);
    SameSize(m, fi, can);
    forall i | 0 <= i < |p| - 1 ensures Edge(Inlinable(CallsOf(m), can), p[i], p[i+1]) {
      assert Edge(Takable(m, fi, can), p[i], p[i+1]);
      WithoutEdge(m, fi, can, p[i], p[i+1]);
    }
    assert Connects(Inlinable(CallsOf(m), can), p, a, b);
  }

  lemma SameSize(m: Module, fi: nat, can: seq<bool>)
    ensures |Takable(m, fi, can)| == |Inlinable(CallsOf(m), can)|
  {}

  lemma SettledKept(m0: Module, m: Module, fi: nat, can: seq<bool>, blocks: seq<SsaBlock>)
    requires NamesKept(m0, m) && Settled(m, fi, can, blocks)
    ensures Settled(m0, fi, can, blocks)
  {
    forall b, k | 0 <= b < |blocks| && 0 <= k < |blocks[b].insts| ensures !Eligible(m0, fi, can, blocks[b].insts[k]) {
      if blocks[b].insts[k].Call? { FindKept(m0, m, blocks[b].insts[k].callee); }
      assert !Eligible(m, fi, can, blocks[b].insts[k]);
    }
  }

  /** A function that weighs no more than before closes no cycle: along calls the weights of before go down. */
  lemma StaysWeighable(m: Module, fi: nat, can: seq<bool>, f: Fn)
    requires |can| == |m| && Weighable(CallsOf(m), can) && fi < |m| && f.name == m[fi].name
    requires BlocksWeight(m, can, f.blocks) <= BlocksWeight(m, can, m[fi].blocks)
    ensures Weighable(CallsOf(m[fi := f]), can)
  {
    var p, g := m[fi := f], Inlinable(CallsOf(m[fi := f]), can);
    CallsInModule(p);
    forall a, k | 0 <= a < |g| && 0 <= k < |g[a]| ensures g[a][k] < |g| { assert g[a][k] in g[a]; }
    forall v: nat | v < |g| ensures !OnCycle(g, v) {
      if OnCycle(g, v) {
        var w: nat :| Edge(g, v, w) && Reach(g, w, v);
        EdgeDown(m, fi, can, f, v, w);
        var path :| Connects(g, path, w, v);
        PathDown(m, fi, can, f, path, |path| - 1);
      }
    }
  }

  lemma EdgeDown(m: Module, fi: nat, can: seq<bool>, f: Fn, v: nat, w: nat)
    requires |can| == |m| && Weighable(CallsOf(m), can) && fi < |m| && f.name == m[fi].name
    requires BlocksWeight(m, can, f.blocks) <= BlocksWeight(m, can, m[fi].blocks)
    requires Edge(Inlinable(CallsOf(m[fi := f]), can), v, w)
    ensures v < |m| && w < |m| && Weight(CallsOf(m), can, w) < Weight(CallsOf(m), can, v)
  {
    var p := m[fi := f];
    InlinableEdge(CallsOf(p), can, v, w);
    SitesAreCalls(p, p[v].blocks, Some(w));
    OwnWeight(m, can, v);
    var x, q := WhereCall(p, p[v].blocks, Some(w));
    SameNames(m, fi, f, p[v].blocks[x].insts[q].callee);
    CallWeighs(m, can, p[v].blocks, x, q);
  }

  /** A call is part of what its function weighs. */
  lemma {:induction false} CallWeighs(m: Module, can: seq<bool>, blocks: seq<SsaBlock>, x: nat, q: nat)
    requires Weighable(CallsOf(m), can) && x < |blocks| && q < |blocks[x].insts|
    ensures InstWeight(m, can, blocks[x].insts[q]) <= BlocksWeight(m, can, blocks)
  {
    hide Weighable;
    hide InstWeight;
    if x < |blocks| - 1 {
      CallWeighs(m, can, blocks[..|blocks|-1], x, q);
    } else {
      InstWeighs(m, can, blocks[x].insts, q);
    }
  }

  lemma {:induction false} InstWeighs(m: Module, can: seq<bool>, insts: seq<Inst>, q: nat)
    requires Weighable(CallsOf(m), can) && q < |insts|
    ensures InstWeight(m, can, insts[q]) <= CodeWeight(m, can, insts)
  {
    hide Weighable;
    hide InstWeight;
    if q < |insts| - 1 { InstWeighs(m, can, insts[..|insts|-1], q); }
  }

  lemma {:induction false} PathDown(m: Module, fi: nat, can: seq<bool>, f: Fn, path: seq<nat>, k: nat)
    requires |can| == |m| && Weighable(CallsOf(m), can) && fi < |m| && f.name == m[fi].name
    requires BlocksWeight(m, can, f.blocks) <= BlocksWeight(m, can, m[fi].blocks)
    requires IsPath(Inlinable(CallsOf(m[fi := f]), can), path) && k < |path|
    ensures path[0] < |m| && path[k] < |m| && Weight(CallsOf(m), can, path[k]) <= Weight(CallsOf(m), can, path[0])
  {
    hide Weighable;
    hide Weight;
    hide BlocksWeight;
    if k > 0 {
      PathDown(m, fi, can, f, path, k - 1);
      assert Edge(Inlinable(CallsOf(m[fi := f]), can), path[k-1], path[k]);
      EdgeDown(m, fi, can, f, path[k-1], path[k]);
    }
  }

  // ----- Results -----

  ghost predicate AllReady(rounds: seq<Round>) { forall i :: 0 <= i < |rounds| ==> Ready(rounds[i].site) }

  lemma ReadyLast(rounds: seq<Round>)
    requires rounds != [] && AllReady(rounds[..|rounds|-1]) && Ready(rounds[|rounds|-1].site)
    ensures AllReady(rounds)
  {
    hide Ready;
    forall i | 0 <= i < |rounds| ensures Ready(rounds[i].site) {
      if i < |rounds| - 1 { assert rounds[..|rounds|-1][i] == rounds[i]; }
    }
  }

  lemma NoRoundsYet(m: Module)
    ensures AllReady([]) && Apply(m, []) == m && Passed([]) == 0
  {}

  /** A healthy module stays healthy, and every site is fit for inlining when its turn comes. */
  lemma {:induction false} StaysHealthy(m: Module, can: seq<bool>, rounds: seq<Round>)
    requires Healthy(m, can) && Proper(m, can, rounds)
    ensures Healthy(Apply(m, rounds), can) && |Apply(m, rounds)| == |m| && AllReady(rounds)
    decreases |rounds|
  {
    hide *;
    NoRoundsYet(m);
    if rounds != [] {
      var front, r := rounds[..|rounds|-1], rounds[|rounds|-1];
      RoundApplied(m, can, rounds);
      StaysHealthy(m, can, front);
      RoundTaken(Apply(m, front), can, r);
      RoundHealthy(Apply(m, front), can, r.ci, r.site);
      ReadyLast(rounds);
    }
  }

  /** In a lively module every round passes the check. */
  lemma {:induction false} AllPass(m: Module, can: seq<bool>, rounds: seq<Round>)
    requires Healthy(m, can) && Lively(m, can) && Proper(m, can, rounds)
    ensures Lively(Apply(m, rounds), can) && Passed(rounds) == |rounds|
    decreases |rounds|
  {
    hide *;
    NoRoundsYet(m);
    if rounds != [] {
      var front, r := rounds[..|rounds|-1], rounds[|rounds|-1];
      RoundApplied(m, can, rounds);
      StaysHealthy(m, can, front);
      AllPass(m, can, front);
      RoundTaken(Apply(m, front), can, r);
      LivelyRound(Apply(m, front), can, r.ci, r.site);
      PassedMore(front, r.site, r.ci);
      assert rounds == front + [Round(r.site, r.ci)];
    }
  }

  lemma RoundTaken(p: Module, can: seq<bool>, r: Round)
    requires InPlace(p, can, r)
    ensures r.ci < |p| && p[r.ci] == r.site.caller && Taken(p, r.ci, can, r.site)
  {}

  /** Every round keeps what every function of the module gives. */
  lemma {:induction false} RoundsFollow(m: Module, can: seq<bool>, rounds: seq<Round>, name: string, args: seq<Val>,
      tr: seq<Event>, world: World, n: nat)
    returns (n2: nat)
    requires Healthy(m, can) && Proper(m, can, rounds) && FindFn(m, name).Some?
    ensures FindFn(Apply(m, rounds), name) == FindFn(m, name) && |Apply(m, rounds)| == |m|
    ensures var x := FindFn(m, name).value;
      Follows(false, CallFn(m, m[x], args, tr, world, n), Apply(m, rounds), Apply(m, rounds)[x], args, tr, world, n, n2)
    decreases |rounds|
  {
    hide CallFn;
    hide Ready;
    hide InPlace;
    hide Healthy;
    n2 := n;
    if rounds != [] {
      var front, r, x := rounds[..|rounds|-1], rounds[|rounds|-1], FindFn(m, name).value;
      n2 := RoundsFollow(m, can, front, name, args, tr, world, n);
      var p, q := Apply(m, front), Apply(m, rounds);
      RoundApplied(m, can, rounds);
      StaysHealthy(m, can, rounds);
      assert Ready(rounds[|rounds|-1].site);
      RoundSetting(p, can, q, r);
      var n3 := CallFollowed(false, p, q, r.ci, r.site.Inlined(), name, args, tr, world, n);
      var n4 := CallFollowed(false, p, q, r.ci, r.site.Inlined(), name, args, tr, world, n2);
      FollowsOn(false, CallFn(m, m[x], args, tr, world, n), p, p[x], q, q[x], args, tr, world, n, n2, n3, n4);
      n2 := n4;
    } else {
      Itself(m, name, args, tr, world, n);
    }
  }

  lemma RoundApplied(m: Module, can: seq<bool>, rounds: seq<Round>)
    requires rounds != [] && Proper(m, can, rounds)
    ensures Proper(m, can, rounds[..|rounds|-1])
    ensures var p, r := Apply(m, rounds[..|rounds|-1]), rounds[|rounds|-1];
      InPlace(p, can, r) && r.ci < |p| && r.site.Valid() && r.site.callee.blocks != []
        && Apply(m, rounds) == p[r.ci := r.site.Inlined()]
  {}

  lemma Itself(m: Module, name: string, args: seq<Val>, tr: seq<Event>, world: World, n: nat)
    requires FindFn(m, name).Some?
    ensures var f := m[FindFn(m, name).value];
      Follows(false, CallFn(m, f, args, tr, world, n), m, f, args, tr, world, n, n)
  {}

  lemma RoundSetting(p: Module, can: seq<bool>, q: Module, r: Round)
    requires Ready(r.site) && InPlace(p, can, r) && q == p[r.ci := r.site.Inlined()]
    ensures Exchanged(false, p, q, r.ci, r.site.Inlined())
  {
    IsCall(r.site);
    hide SsaForm;
    SiteExchanged(p, q, r.site, r.ci);
  }

  /** Inlining throughout a module changes no result: a run that ends ends the same afterwards, and one that ends
      afterwards did before, unless it trapped. All it takes is a healthy module to begin with. */
  lemma InliningModuleKeepsResults(m: Module, can: seq<bool>, rounds: seq<Round>, name: string, args: seq<Val>,
      tr: seq<Event>, world: World, n: nat)
    returns (n2: nat)
    requires Healthy(m, can) && Proper(m, can, rounds) && FindFn(m, name).Some?
    ensures FindFn(Apply(m, rounds), name) == FindFn(m, name) && |Apply(m, rounds)| == |m|
    ensures var x := FindFn(m, name).value; var r := CallFn(m, m[x], args, tr, world, n);
      r.Ended? ==> CallFn(Apply(m, rounds), Apply(m, rounds)[x], args, tr, world, n2) == r
    ensures var x := FindFn(m, name).value; var r := CallFn(Apply(m, rounds), Apply(m, rounds)[x], args, tr, world, n);
      r.Ended? ==> CallFn(m, m[x], args, tr, world, n) == r || CallFn(m, m[x], args, tr, world, n).Trapped?
  {
    hide *;
    n2 := RoundsFollow(m, can, rounds, name, args, tr, world, n);
    BothWays(m, Apply(m, rounds), FindFn(m, name).value, args, tr, world, n, n2);
  }

  // ----- What may be inlined -----

  const DEFAULT_THRESHOLD := 35
  const HARD_CEILING := 80

  function InstCost(i: Inst): nat {
    match i
    case Const(_, _) => 0
    case Ret(_) => 0
    case CondBr(_, _, _) => 2
    case Load(_, _) => 2
    case Store(_, _) => 2
    case Print(_) => 2
    case Call(_, _, _) => 3
    case _ => 1
  }

  function InstsCost(insts: seq<Inst>): nat {
    if insts == [] then 0 else InstsCost(insts[..|insts|-1]) + InstCost(insts[|insts|-1])
  }

  /** What inlining a function is taken to cost; phis count one each. */
  function InlineCost(blocks: seq<SsaBlock>): nat {
    if blocks == [] then 0
    else
      var b := blocks[|blocks|-1];
      InlineCost(blocks[..|blocks|-1]) + |b.phis| + InstsCost(b.insts)
  }

  predicate Light(i: Inst) { i.Bin? || i.Un? || i.Br? || i.Alloca? }

  predicate Heavy(i: Inst) { i.Load? || i.Store? || i.Print? || i.CondBr? }

  predicate Costly(i: Inst) { i.Call? }

  function Count(insts: seq<Inst>, p: Inst -> bool): nat {
    if insts == [] then 0 else Count(insts[..|insts|-1], p) + if p(insts[|insts|-1]) then 1 else 0
  }

  function CountAll(blocks: seq<SsaBlock>, p: Inst -> bool): nat {
    if blocks == [] then 0 else CountAll(blocks[..|blocks|-1], p) + Count(blocks[|blocks|-1].insts, p)
  }

  function CountPhis(blocks: seq<SsaBlock>): nat {
    if blocks == [] then 0 else CountPhis(blocks[..|blocks|-1]) + |blocks[|blocks|-1].phis|
  }

  lemma {:induction false} InstsCostIs(insts: seq<Inst>)
    ensures InstsCost(insts) == Count(insts, Light) + 2 * Count(insts, Heavy) + 3 * Count(insts, Costly)
  { if insts != [] { InstsCostIs(insts[..|insts|-1]); } }

  /** One for a phi, an operation or a plain branch, two for what goes to memory, prints or chooses, three for a
      call. */
  function Counted(blocks: seq<SsaBlock>): nat {
    CountPhis(blocks) + CountAll(blocks, Light) + 2 * CountAll(blocks, Heavy) + 3 * CountAll(blocks, Costly)
  }

  lemma {:induction false} InlineCostIs(blocks: seq<SsaBlock>)
    ensures InlineCost(blocks) == Counted(blocks)
  {
    if blocks != [] {
      InlineCostIs(blocks[..|blocks|-1]);
      InstsCostIs(blocks[|blocks|-1].insts);
    }
  }

  /** Adds it up instruction by instruction (`calculate_inline_cost`). */
  method CalculateInlineCost(blocks: seq<SsaBlock>) returns (cost: nat)
    ensures cost == InlineCost(blocks)
  {
    cost := 0;
    var b := 0;
    while b < |blocks|
      invariant 0 <= b <= |blocks| && cost == InlineCost(blocks[..b])
    {
      assert blocks[..b+1][..b] == blocks[..b];
      var base := cost + |blocks[b].phis|;
      cost := base;
      var k, insts := 0, blocks[b].insts;
      while k < |insts|
        invariant 0 <= k <= |insts| && cost == base + InstsCost(insts[..k])
      {
        assert insts[..k+1][..k] == insts[..k];
        cost := cost + InstCost(insts[k]);
        k := k + 1;
      }
      assert insts[..k] == insts;
      b := b + 1;
    }
    assert blocks[..b] == blocks;
  }

  /** Function `v` may be inlined: it is neither recursive nor an entry, and cheap enough. */
  predicate Candidate(cg: CallGraph, threshold: int, v: nat)
    requires v < |cg.isEntry| == |cg.isRecursive| == |cg.inRecursiveCycle| == |cg.fns|
    reads cg
  {
    && !cg.isEntry[v] && !cg.isRecursive[v] && !cg.inRecursiveCycle[v]
    && InlineCost(cg.fns[v].blocks) <= HARD_CEILING && InlineCost(cg.fns[v].blocks) <= threshold
  }

  /** Candidates are what is neither entry nor flagged and weighs at most 80 and the threshold. */
  lemma CandidateExactlyWhen(cg: CallGraph, threshold: int, v: nat)
    requires |cg.isEntry| == |cg.isRecursive| == |cg.inRecursiveCycle| == |cg.fns| && v < |cg.fns|
    ensures Candidate(cg, threshold, v) <==>
      && !cg.isEntry[v] && !cg.isRecursive[v] && !cg.inRecursiveCycle[v]
      && Counted(cg.fns[v].blocks) <= 80 && Counted(cg.fns[v].blocks) <= threshold
  { InlineCostIs(cg.fns[v].blocks); }

  /** The tests a callee has to pass (ir_ipa.c:719-743), without a profile. */
  method Candidates(cg: CallGraph, threshold: int) returns (can: seq<bool>)
    requires |cg.isEntry| == |cg.isRecursive| == |cg.inRecursiveCycle| == |cg.fns|
    ensures |can| == |cg.fns| && forall v: nat :: v < |can| ==> (can[v] <==> Candidate(cg, threshold, v))
  {
    can := [];
    var v := 0;
    while v < |cg.fns|
      invariant 0 <= v <= |cg.fns| && |can| == v
      invariant forall w: nat :: w < v ==> (can[w] <==> Candidate(cg, threshold, w))
    {
      var cost := CalculateInlineCost(cg.fns[v].blocks);
      can := can + [!cg.isEntry[v] && !cg.isRecursive[v] && !cg.inRecursiveCycle[v] && cost <= HARD_CEILING
        && cost <= threshold];
      v := v + 1;
    }
  }

  /** With the flags of the call graph, and components that fit their buffer, inlining ends. */
  lemma CandidatesEnd(m: Module, flags: seq<bool>, can: seq<bool>)
    requires |flags| == |can| == |m|
    requires forall v: nat :: v < |m| ==> Interprocedural.RightlyFlagged(GraphOf(CallsOf(m)), v, flags)
    requires forall v: nat :: v < |m| ==> |Component(GraphOf(CallsOf(m)), v)| <= SCC_BUFFER
    requires forall v: nat :: v < |m| && can[v] ==> !flags[v]
    ensures Weighable(CallsOf(m), can)
  {
    CallsInModule(m);
    hide OnCycle;
    hide Component;
    hide GraphOf;
    hide CallsOf;
    forall v: nat | v < |m| && OnCycle(GraphOf(CallsOf(m)), v) ensures flags[v] {
      assert Interprocedural.RightlyFlagged(GraphOf(CallsOf(m)), v, flags);
    }
    FlagsMakeAcyclic(CallsOf(m), flags, can);
  }
}
