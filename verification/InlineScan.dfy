module InlineScan {
  // The inliner's scan of a function, with the check after every edit, and when it ends (src/ir/ir_ipa.c:685-758).

  import opened Options
  import opened Ir
  import opened SsaIr
  import opened Graphs
  import opened CallGraphs
  import opened Inlining
  import opened InlineStructure
  import opened InlineWeights
  import opened InlineEnding
  import opened SsaCheck

  /** Where the scan is: looking at instruction `k` of block `bi`; at its end; or astray. It goes astray when an edit is
      rejected and a later call of the same block would be taken too: the instructions scanned are by then in the block
      for what follows the rejected call, and the next edit would be made to the wrong block. */
  datatype Scan = Scanning(f: Fn, bi: nat, k: nat) | Finished(f: Fn) | Astray(f: Fn)

  ghost predicate Modular(m: Module, can: seq<bool>) { |can| == |m| && forall v :: 0 <= v < |m| ==> m[v].blocks != [] }

  function SiteAt(m: Module, f: Fn, bi: nat, k: nat, w: nat): Site
    requires w < |m|
  { Site(f, bi, k, m[w]) }

  predicate TakesAfter(m: Module, fi: nat, can: seq<bool>, insts: seq<Inst>, k: nat) {
    exists q :: k < q < |insts| && Eligible(m, fi, can, insts[q])
  }

  /** One step. An accepted edit starts the scan over; after a rejected one it goes on with the next block. */
  ghost function Advance(m: Module, fi: nat, can: seq<bool>, st: Scan): Scan
    requires Modular(m, can)
  {
    match st
    case Scanning(f, bi, k) =>
      if bi >= |f.blocks| then Finished(f)
      else if k >= |f.blocks[bi].insts| then Scanning(f, bi + 1, 0)
      else if !Eligible(m, fi, can, f.blocks[bi].insts[k]) then Scanning(f, bi, k + 1)
      else
        var g := SiteAt(m, f, bi, k, FindFn(m, f.blocks[bi].insts[k].callee).value).Inlined();
        if Accepts(g) then Scanning(g, 0, 0)
        else if TakesAfter(m, fi, can, f.blocks[bi].insts, k) then Astray(g)
        else Scanning(g, bi + 1, 0)
    case _ => st
  }

  ghost function After(m: Module, fi: nat, can: seq<bool>, st: Scan, n: nat): Scan
    requires Modular(m, can)
  { if n == 0 then st else Advance(m, fi, can, After(m, fi, can, st, n - 1)) }

  lemma {:induction false} AfterStep(m: Module, fi: nat, can: seq<bool>, st: Scan, n: nat)
    requires Modular(m, can)
    ensures After(m, fi, can, Advance(m, fi, can, st), n) == After(m, fi, can, st, n + 1)
  {
    hide Advance;
    if n > 0 { AfterStep(m, fi, can, st, n - 1); }
  }

  /** The edit made at the cursor, if there is a call to take. */
  lemma EditIs(m: Module, fi: nat, can: seq<bool>, f: Fn, bi: nat, k: nat) returns (s: Site)
    requires Modular(m, can) && bi < |f.blocks| && k < |f.blocks[bi].insts|
      && Eligible(m, fi, can, f.blocks[bi].insts[k])
    ensures Taken(m, fi, can, s) && s.caller == f && s.bi == bi && s.k == k && s.Valid() && s.callee.blocks != []
    ensures Advance(m, fi, can, Scanning(f, bi, k)) ==
      if Accepts(s.Inlined()) then Scanning(s.Inlined(), 0, 0)
      else if TakesAfter(m, fi, can, f.blocks[bi].insts, k) then Astray(s.Inlined())
      else Scanning(s.Inlined(), bi + 1, 0)
  {
    s := SiteAt(m, f, bi, k, FindFn(m, f.blocks[bi].insts[k].callee).value);
    hide Accepts;
    hide TakesAfter;
    hide s.Inlined;
  }

  // ----- It ends -----

  /** While no cycle can be got to, the scan comes to its end or goes astray. */
  lemma {:induction false} ScanEnds(m: Module, fi: nat, can: seq<bool>, f: Fn, bi: nat, k: nat) returns (n: nat)
    requires Modular(m, can) && !Endless(m, fi, can, f.blocks)
    ensures !After(m, fi, can, Scanning(f, bi, k), n).Scanning?
    decreases Burden(m, fi, can, f), if bi < |f.blocks| then |f.blocks| - bi else 0,
      if bi < |f.blocks| && k < |f.blocks[bi].insts| then |f.blocks[bi].insts| - k else 0
  {
    var st := Scanning(f, bi, k);
    hide Endless;
    hide Burden;
    hide Eligible;
    hide Accepts;
    hide TakesAfter;
    hide After;
    if bi >= |f.blocks| {
      n := 1;
      OneStep(m, fi, can, st);
    } else if k >= |f.blocks[bi].insts| {
      n := ScanEnds(m, fi, can, f, bi + 1, 0);
      AfterStep(m, fi, can, st, n);
      n := n + 1;
    } else if !Eligible(m, fi, can, f.blocks[bi].insts[k]) {
      n := ScanEnds(m, fi, can, f, bi, k + 1);
      AfterStep(m, fi, can, st, n);
      n := n + 1;
    } else {
      var s := EditIs(m, fi, can, f, bi, k);
      hide Advance;
      Lightened(m, fi, can, s);
      var g := s.Inlined();
      hide s.Inlined;
      if Accepts(g) {
        n := ScanEnds(m, fi, can, g, 0, 0);
      } else if !TakesAfter(m, fi, can, f.blocks[bi].insts, k) {
        n := ScanEnds(m, fi, can, g, bi + 1, 0);
      } else {
        n := 0;
        NoStep(m, fi, can, Astray(g));
      }
      AfterStep(m, fi, can, st, n);
      n := n + 1;
    }
  }

  lemma NoStep(m: Module, fi: nat, can: seq<bool>, st: Scan)
    requires Modular(m, can)
    ensures After(m, fi, can, st, 0) == st
  {}

  lemma OneStep(m: Module, fi: nat, can: seq<bool>, st: Scan)
    requires Modular(m, can)
    ensures After(m, fi, can, st, 1) == Advance(m, fi, can, st)
  { assert After(m, fi, can, st, 0) == st; }

  /** What is left to inline, at most. */
  ghost function Burden(m: Module, fi: nat, can: seq<bool>, f: Fn): nat
    requires |can| == |m|
  {
    TameWeighable(m, fi, can);
    BlocksWeight(m, Tame(m, fi, can), f.blocks)
  }

  lemma Lightened(m: Module, fi: nat, can: seq<bool>, s: Site)
    requires |can| == |m| && Taken(m, fi, can, s) && !Endless(m, fi, can, s.caller.blocks)
    ensures s.Valid() && s.callee.blocks != [] && !Endless(m, fi, can, s.Inlined().blocks)
      && Burden(m, fi, can, s.Inlined()) < Burden(m, fi, can, s.caller)
  {
    TakenIs(m, fi, can, s);
    TameRound(m, fi, can, s);
    hide Endless;
    hide Taken;
    hide s.Inlined;
    hide Weighable;
    hide BlocksWeight;
  }

  // ----- It does not -----

  /** No call before the cursor would be taken. */
  predicate NoneBefore(m: Module, fi: nat, can: seq<bool>, f: Fn, bi: nat, k: nat) {
    forall b, q :: 0 <= b < |f.blocks| && 0 <= q < |f.blocks[b].insts| && (b < bi || (b == bi && q < k)) ==>
      !Eligible(m, fi, can, f.blocks[b].insts[q])
  }

  lemma SubstEligible(m: Module, fi: nat, can: seq<bool>, s: Site, i: Inst)
    requires s.Valid()
    ensures Eligible(m, fi, can, s.SubstInst(i)) <==> Eligible(m, fi, can, i)
  {
    InstCalls(s, i);
    hide s.SubstInst;
  }

  /** What has been looked at stays looked at when an edit is rejected and the rest of the block holds nothing to
      take. */
  lemma NoneStill(m: Module, fi: nat, can: seq<bool>, s: Site)
    requires s.Valid() && s.callee.blocks != [] && NoneBefore(m, fi, can, s.caller, s.bi, s.k)
    ensures NoneBefore(m, fi, can, s.Inlined(), s.bi + 1, 0)
  {
    InlinedBlocks(s);
    hide s.Inlined;
    hide s.SubstBlock;
    hide s.OldBlock;
    hide s.SplitBlock;
    hide s.CopyBlock;
    hide s.SubstInst;
    hide Eligible;
    var g := s.Inlined();
    forall b, q | 0 <= b < |g.blocks| && 0 <= q < |g.blocks[b].insts| && b < s.bi + 1
      ensures !Eligible(m, fi, can, g.blocks[b].insts[q])
    {
      OldLooked(s, b, q);
      if b == s.bi && q == s.k {
        BranchNotTaken(m, fi, can, s.CopyId(0));
      } else {
        SubstEligible(m, fi, can, s, s.caller.blocks[b].insts[q]);
      }
    }
  }

  lemma BranchNotTaken(m: Module, fi: nat, can: seq<bool>, t: nat)
    ensures !Eligible(m, fi, can, Br(t))
  {}

  lemma OldLooked(s: Site, b: nat, q: nat)
    requires s.Valid() && s.callee.blocks != [] && b < |s.caller.blocks| && q < |s.SubstBlock(s.OldBlock(b)).insts|
    ensures b == s.bi ==> q <= s.k
    ensures !(b == s.bi && q == s.k) ==> q < |s.caller.blocks[b].insts|
    ensures s.SubstBlock(s.OldBlock(b)).insts[q] ==
      if b == s.bi && q == s.k then Br(s.CopyId(0)) else s.SubstInst(s.caller.blocks[b].insts[q])
  {
    assert s.SubstInst(Br(s.CopyId(0))) == Br(s.CopyId(0));
    hide s.SubstInst;
    hide SuccIds;
    hide s.RetargetPhis;
    hide s.SubstPhis;
  }

  lemma NoneAtEnd(m: Module, fi: nat, can: seq<bool>, f: Fn, bi: nat)
    requires NoneBefore(m, fi, can, f, bi, 0) && bi >= |f.blocks|
    ensures Settled(m, fi, can, f.blocks)
  {}

  /** What every state of the scan keeps where a cycle can be got to. */
  ghost predicate Restless(m: Module, fi: nat, can: seq<bool>, st: Scan) {
    match st
    case Scanning(f, bi, k) => Endless(m, fi, can, f.blocks) && NoneBefore(m, fi, can, f, bi, k)
    case Finished(_) => false
    case Astray(_) => true
  }

  lemma StaysStuck(m: Module, fi: nat, can: seq<bool>, st: Scan)
    requires Modular(m, can) && Restless(m, fi, can, st)
    ensures Restless(m, fi, can, Advance(m, fi, can, st))
  {
    hide Endless;
    hide Accepts;
    hide TakesAfter;
    if st.Scanning? {
      var f, bi, k := st.f, st.bi, st.k;
      if bi >= |f.blocks| {
        NotSettled(m, fi, can, f);
        NoneAtEnd(m, fi, can, f, bi);
        assert false;
      } else if k < |f.blocks[bi].insts| && Eligible(m, fi, can, f.blocks[bi].insts[k]) {
        var s := EditIs(m, fi, can, f, bi, k);
        hide Advance;
        hide Eligible;
        EndlessKept(m, fi, can, s);
        NoneStill(m, fi, can, s);
      }
    }
  }

  lemma NotSettled(m: Module, fi: nat, can: seq<bool>, f: Fn)
    requires Modular(m, can) && Endless(m, fi, can, f.blocks)
    ensures !Settled(m, fi, can, f.blocks)
  { var s := EndlessTakes(m, fi, can, f); }

  lemma {:induction false} StuckForever(m: Module, fi: nat, can: seq<bool>, st: Scan, n: nat)
    requires Modular(m, can) && Restless(m, fi, can, st)
    ensures Restless(m, fi, can, After(m, fi, can, st, n))
  {
    hide Advance;
    hide Restless;
    if n > 0 {
      StuckForever(m, fi, can, st, n - 1);
      StaysStuck(m, fi, can, After(m, fi, can, st, n - 1));
    }
  }

  // ----- What the end means -----

  /** A scan that has not gone astray has looked at everything before its cursor. */
  ghost predicate Looked(m: Module, fi: nat, can: seq<bool>, st: Scan) {
    match st
    case Scanning(f, bi, k) => NoneBefore(m, fi, can, f, bi, k)
    case Finished(f) => Settled(m, fi, can, f.blocks)
    case Astray(_) => true
  }

  lemma StaysLooked(m: Module, fi: nat, can: seq<bool>, st: Scan)
    requires Modular(m, can) && Looked(m, fi, can, st)
    ensures Looked(m, fi, can, Advance(m, fi, can, st))
  {
    hide Accepts;
    hide TakesAfter;
    if st.Scanning? {
      var f, bi, k := st.f, st.bi, st.k;
      if bi >= |f.blocks| {
        NoneAtEnd(m, fi, can, f, bi);
      } else if k < |f.blocks[bi].insts| && Eligible(m, fi, can, f.blocks[bi].insts[k]) {
        var s := EditIs(m, fi, can, f, bi, k);
        hide Advance;
        hide Eligible;
        NoneStill(m, fi, can, s);
      }
    }
  }

  /** The scan of a function ends with no call left that it would take, whatever the check said on the way. */
  lemma {:induction false} FinishedIsSettled(m: Module, fi: nat, can: seq<bool>, f: Fn, n: nat)
    requires Modular(m, can)
    ensures Looked(m, fi, can, After(m, fi, can, Scanning(f, 0, 0), n))
  {
    hide Advance;
    hide Looked;
    if n > 0 {
      FinishedIsSettled(m, fi, can, f, n - 1);
      StaysLooked(m, fi, can, After(m, fi, can, Scanning(f, 0, 0), n - 1));
    } else {
      LookedFirst(m, fi, can, f);
    }
  }

  lemma LookedFirst(m: Module, fi: nat, can: seq<bool>, f: Fn)
    ensures Looked(m, fi, can, Scanning(f, 0, 0))
  {}

  // ----- The condition -----

  lemma {:induction false} StaysPut(m: Module, fi: nat, can: seq<bool>, st: Scan, n: nat, k: nat)
    requires Modular(m, can) && n <= k && !After(m, fi, can, st, n).Scanning?
    ensures After(m, fi, can, st, k) == After(m, fi, can, st, n)
    decreases k
  {
    hide Advance;
    if n < k {
      StaysPut(m, fi, can, st, n, k - 1);
      Still(m, fi, can, After(m, fi, can, st, n));
    }
  }

  lemma Still(m: Module, fi: nat, can: seq<bool>, st: Scan)
    requires Modular(m, can) && !st.Scanning?
    ensures Advance(m, fi, can, st) == st
  {
    hide Accepts;
    hide Eligible;
    hide TakesAfter;
  }

  ghost predicate GoesAstray(m: Module, fi: nat, can: seq<bool>, f: Fn)
    requires Modular(m, can)
  { exists n :: After(m, fi, can, Scanning(f, 0, 0), n).Astray? }

  ghost predicate ComesToAnEnd(m: Module, fi: nat, can: seq<bool>, f: Fn)
    requires Modular(m, can)
  { exists n :: After(m, fi, can, Scanning(f, 0, 0), n).Finished? }

  /** Whatever the check says of the edits, the scan comes to an end exactly when no cycle of functions that may be
      inlined can be got to from a call it would take, and it does not go astray. */
  lemma ScanEndsExactlyWhen(m: Module, fi: nat, can: seq<bool>, f: Fn)
    requires Modular(m, can)
    ensures ComesToAnEnd(m, fi, can, f) <==> !Endless(m, fi, can, f.blocks) && !GoesAstray(m, fi, can, f)
  {
    var st := Scanning(f, 0, 0);
    hide Advance;
    if !Endless(m, fi, can, f.blocks) {
      hide Endless;
      var n := ScanEnds(m, fi, can, f, 0, 0);
      if i: nat :| After(m, fi, can, st, i).Finished? {
        forall j: nat ensures !After(m, fi, can, st, j).Astray? {
          StaysPut(m, fi, can, st, i, if i < j then j else i);
          if After(m, fi, can, st, j).Astray? { StaysPut(m, fi, can, st, j, if i < j then j else i); }
        }
      }
    } else {
      hide Endless;
      forall n: nat ensures !After(m, fi, can, st, n).Finished? { StuckForever(m, fi, can, st, n); }
    }
  }
}
