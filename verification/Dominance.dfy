// Dominators: the paths-based definition, and what the iterative tables of src/ir/ir_dominance.c say about it.

module Dominators {
  import opened Graphs

  /** Every path from the entry to `b` goes through `d`. */
  ghost predicate Dom(g: Graph, e: nat, d: nat, b: nat) { forall p :: Connects(g, p, e, b) ==> d in p }

  ghost function StrictDoms(g: Graph, e: nat, b: nat): (s: set<nat>)
    ensures s <= Below(|g|)
  { set d | d in Below(|g|) && d != b && Dom(g, e, d, b) }

  lemma DomTrans(g: Graph, e: nat, a: nat, b: nat, c: nat)
    requires Dom(g, e, a, b) && Dom(g, e, b, c)
    ensures Dom(g, e, a, c)
  {
    forall p | Connects(g, p, e, c) ensures a in p {
      var k :| 0 <= k < |p| && p[k] == b;
      Suffix(g, p, e, c, k);
      assert a in p[..k+1];
    }
  }

  lemma EntryDominates(g: Graph, e: nat, b: nat)
    ensures Dom(g, e, e, b) && Dom(g, e, b, b)
  {}

  lemma DomReachable(g: Graph, e: nat, d: nat, b: nat)
    requires Reach(g, e, b) && Dom(g, e, d, b)
    ensures Reach(g, e, d) && d < |g|
  {
    var p :| Connects(g, p, e, b);
    var k :| 0 <= k < |p| && p[k] == d;
    Suffix(g, p, e, b, k);
  }

  lemma OnlyEntryDominatesEntry(g: Graph, e: nat, d: nat)
    requires e < |g| && Dom(g, e, d, e)
    ensures d == e
  { assert Connects(g, [e], e, e); }

  /** A strict dominator of a block dominates each of its predecessors. */
  lemma DomOverEdge(g: Graph, e: nat, q: nat, d: nat, b: nat)
    requires ValidGraph(g) && Edge(g, q, b) && Dom(g, e, d, b) && d != b
    ensures Dom(g, e, d, q)
  {
    forall p | Connects(g, p, e, q) ensures d in p { Extend(g, p, e, q, b); }
  }

  lemma {:induction false} NoDescent(g: Graph, e: nat, a: nat, b: nat, p: seq<nat>)
    requires a != b && Dom(g, e, a, b) && Dom(g, e, b, a) && Connects(g, p, e, a)
    ensures false
    decreases |p|
  {
    var k :| 0 <= k < |p| && p[k] == b;
    Suffix(g, p, e, a, k);
    var q := p[..k+1];
    var j :| 0 <= j < |q| && q[j] == a;
    Suffix(g, q, e, b, j);
    NoDescent(g, e, a, b, q[..j+1]);
  }

  lemma DomAntisymmetric(g: Graph, e: nat, a: nat, b: nat)
    requires Reach(g, e, a) && Dom(g, e, a, b) && Dom(g, e, b, a)
    ensures a == b
  {
    var p :| Connects(g, p, e, a);
    if a != b { NoDescent(g, e, a, b, p); }
  }

  /** A strict dominator that all other strict dominators dominate. */
  ghost predicate IsIdom(g: Graph, e: nat, c: nat, b: nat) {
    && c in StrictDoms(g, e, b)
    && forall o :: o in StrictDoms(g, e, b) && o != c ==> Dom(g, e, o, c)
  }

  /** The strict dominator met last on some path is immediate. */
  lemma LastIsIdom(g: Graph, e: nat, b: nat, p: seq<nat>, k: nat)
    requires Connects(g, p, e, b) && k < |p| && p[k] in StrictDoms(g, e, b)
    requires forall j :: k < j < |p| ==> p[j] !in StrictDoms(g, e, b)
    ensures IsIdom(g, e, p[k], b)
  {
    var c := p[k];
    forall o | o in StrictDoms(g, e, b) && o != c ensures Dom(g, e, o, c) {
      forall q | Connects(g, q, e, c) ensures o in q {
        Suffix(g, p, e, b, k);
        Join(g, q, p[k..], e, c, b);
        var rest := p[k..][1..];
        assert o in q + rest;
        assert forall j :: 0 <= j < |rest| ==> rest[j] == p[k+1+j];
      }
    }
  }

  lemma {:induction false} LastIn(p: seq<nat>, s: set<nat>, from: nat) returns (k: nat)
    requires from < |p| && p[from] in s
    ensures k < |p| && p[k] in s && forall j :: k < j < |p| ==> p[j] !in s
    decreases |p| - from
  {
    if j :| from < j < |p| && p[j] in s { k := LastIn(p, s, j); } else { k := from; }
  }

  /** Every reachable block but the entry has exactly one immediate dominator. */
  lemma IdomExists(g: Graph, e: nat, b: nat) returns (c: nat)
    requires Reach(g, e, b) && b != e
    ensures IsIdom(g, e, c, b)
  {
    var p :| Connects(g, p, e, b);
    EntryDominates(g, e, b);
    assert p[0] in StrictDoms(g, e, b);
    var k := LastIn(p, StrictDoms(g, e, b), 0);
    LastIsIdom(g, e, b, p, k);
    c := p[k];
  }

  lemma IdomUnique(g: Graph, e: nat, c: nat, d: nat, b: nat)
    requires Reach(g, e, b) && IsIdom(g, e, c, b) && IsIdom(g, e, d, b)
    ensures c == d
  {
    if c != d {
      DomReachable(g, e, c, b);
      DomAntisymmetric(g, e, c, d);
    }
  }

  /** The strict dominators of a block are its immediate dominator and that one's strict dominators. */
  lemma IdomStep(g: Graph, e: nat, c: nat, b: nat)
    requires Reach(g, e, b) && IsIdom(g, e, c, b)
    ensures StrictDoms(g, e, b) == StrictDoms(g, e, c) + {c} && c !in StrictDoms(g, e, c) && Reach(g, e, c)
    ensures |StrictDoms(g, e, b)| == |StrictDoms(g, e, c)| + 1
  {
    DomReachable(g, e, c, b);
    forall o | o in StrictDoms(g, e, c) ensures o in StrictDoms(g, e, b) {
      DomTrans(g, e, o, c, b);
      if o == b { DomAntisymmetric(g, e, c, b); }
    }
    assert StrictDoms(g, e, b) == StrictDoms(g, e, c) + {c};
  }

  lemma DepthBound(g: Graph, e: nat, b: nat)
    requires b < |g|
    ensures |StrictDoms(g, e, b)| < |g|
  {
    SubsetSize(StrictDoms(g, e, b) + {b}, Below(|g|));
  }

  /** A block strictly below `top` hangs below one of the children of `top` in the dominator tree. */
  lemma {:induction false} ChildAbove(g: Graph, e: nat, top: nat, b: nat) returns (child: nat)
    requires Reach(g, e, b) && top in StrictDoms(g, e, b)
    ensures Reach(g, e, child) && IsIdom(g, e, top, child) && Dom(g, e, child, b) && child != e
    decreases |StrictDoms(g, e, b)|
  {
    if b == e { OnlyEntryDominatesEntry(g, e, top); }
    var c := IdomExists(g, e, b);
    IdomStep(g, e, c, b);
    if c == top { child := b; }
    else {
      child := ChildAbove(g, e, top, c);
      DomTrans(g, e, child, c, b);
    }
  }

  // ----- Tables -----

  /** `t[b][d]` for "`d` dominates `b`". */
  type Table = seq<seq<bool>>

  predicate Square(t: Table, n: nat) { |t| == n && forall i :: 0 <= i < n ==> |t[i]| == n }

  /** The dataflow equation: `j` is `i` itself or common to all reachable predecessors of `i`. */
  ghost predicate FlowsIn(g: Graph, e: nat, t: Table, i: nat, j: nat)
    requires Square(t, |g|) && j < |g|
  { j == i || forall p: nat :: Edge(g, p, i) && Reach(g, e, p) ==> t[p][j] }

  ghost predicate Inner(g: Graph, e: nat, i: nat) { i < |g| && i != e && Reach(g, e, i) }

  ghost predicate BothReached(g: Graph, e: nat, b: nat, d: nat) { Reach(g, e, b) && Reach(g, e, d) }

  /** What every step of the iteration keeps: it has lost no dominator, only reachable blocks are marked, the entry has
      only itself, and recomputing a row never adds to it. */
  ghost predicate Sound(g: Graph, e: nat, t: Table) {
    && Square(t, |g|) && e < |g|
    && (forall b: nat, d: nat :: b < |g| && d < |g| && Reach(g, e, b) && Dom(g, e, d, b) ==> t[b][d])
    && (forall b: nat, d: nat :: b < |g| && d < |g| && t[b][d] ==> BothReached(g, e, b, d))
    && (forall d: nat :: d < |g| ==> (t[e][d] <==> d == e))
    && (forall i: nat, j: nat :: j < |g| && Inner(g, e, i) && FlowsIn(g, e, t, i, j) ==> t[i][j])
  }

  ghost predicate RowSteady(g: Graph, e: nat, t: Table, i: nat)
    requires Square(t, |g|)
  { Inner(g, e, i) ==> forall j :: 0 <= j < |g| && t[i][j] ==> FlowsIn(g, e, t, i, j) }

  /** The table says exactly which blocks dominate which. */
  ghost predicate Exact(g: Graph, e: nat, t: Table) {
    && Square(t, |g|) && e < |g|
    && forall b: nat, d: nat :: b < |g| && d < |g| ==> (t[b][d] <==> Reach(g, e, b) && Dom(g, e, d, b))
  }

  /** A reachable block other than the entry has a reachable predecessor. */
  lemma ReachablePred(g: Graph, e: nat, i: nat) returns (q: nat)
    requires Inner(g, e, i)
    ensures Edge(g, q, i) && Reach(g, e, q)
  {
    var p :| Connects(g, p, e, i);
    q := p[|p|-2];
    Suffix(g, p, e, i, |p| - 2);
    assert Edge(g, p[|p|-2], p[|p|-1]);
  }

  lemma RowKeeps(g: Graph, e: nat, t: Table, i: nat, row: seq<bool>)
    requires ValidGraph(g) && Sound(g, e, t) && Inner(g, e, i) && |row| == |g|
    requires forall j :: 0 <= j < |g| ==> (row[j] <==> FlowsIn(g, e, t, i, j))
    ensures Sound(g, e, t[i := row]) && forall j :: 0 <= j < |g| && row[j] ==> t[i][j]
  {
    var u := t[i := row];
    forall b: nat, d: nat | b < |g| && d < |g| && Reach(g, e, b) && Dom(g, e, d, b) ensures u[b][d] {
      if b == i && d != i {
        forall p: nat | Edge(g, p, i) && Reach(g, e, p) ensures t[p][d] { DomOverEdge(g, e, p, d, i); }
        assert FlowsIn(g, e, t, i, d);
      }
    }
    forall b: nat, j: nat | j < |g| && Inner(g, e, b) && FlowsIn(g, e, u, b, j) ensures u[b][j] {
      if j != b { forall p: nat | Edge(g, p, b) && Reach(g, e, p) ensures t[p][j] { assert u[p][j]; } }
      assert FlowsIn(g, e, t, b, j);
    }
  }

  lemma {:induction false} SteadyOnPath(g: Graph, e: nat, t: Table, p: seq<nat>, b: nat, d: nat)
    requires Sound(g, e, t) && (forall i :: 0 <= i < |g| ==> RowSteady(g, e, t, i))
    requires Connects(g, p, e, b) && d < |g| && t[b][d]
    ensures d in p
    decreases |p|
  {
    if b != e && b != d {
      var q := p[|p|-2];
      assert Edge(g, p[|p|-2], p[|p|-1]);
      Suffix(g, p, e, b, |p| - 2);
      var front := p[..|p|-1];
      assert Inner(g, e, b) && RowSteady(g, e, t, b) && FlowsIn(g, e, t, b, d) && Reach(g, e, q);
      SteadyOnPath(g, e, t, front, q, d);
    }
  }

  /** A table at which the iteration stands still is exact. */
  lemma SteadyIsExact(g: Graph, e: nat, t: Table)
    requires Sound(g, e, t) && forall i :: 0 <= i < |g| ==> RowSteady(g, e, t, i)
    ensures Exact(g, e, t)
  {
    forall b: nat, d: nat | b < |g| && d < |g| ensures t[b][d] <==> Reach(g, e, b) && Dom(g, e, d, b) {
      if t[b][d] {
        forall p | Connects(g, p, e, b) ensures d in p { SteadyOnPath(g, e, t, p, b, d); }
      }
    }
  }

  /** The table the iteration starts from. */
  lemma StartIsSound(g: Graph, e: nat, t: Table)
    requires ValidGraph(g) && Square(t, |g|) && e < |g|
    requires forall b: nat, d: nat :: b < |g| && d < |g| ==>
      (t[b][d] <==> if b == e then d == e else BothReached(g, e, b, d))
    ensures Sound(g, e, t)
  {
    ReachSelf(g, e);
    forall b: nat, d: nat | b < |g| && d < |g| && Reach(g, e, b) && Dom(g, e, d, b) ensures t[b][d] {
      DomReachable(g, e, d, b);
      if b == e { OnlyEntryDominatesEntry(g, e, d); }
    }
    forall i: nat, j: nat | j < |g| && Inner(g, e, i) && FlowsIn(g, e, t, i, j) ensures t[i][j] {
      if j != i { var p := ReachablePred(g, e, i); assert t[p][j]; }
    }
  }

  function TruePairs(t: Table): set<(nat, nat)> { set i: nat, j: nat | i < |t| && j < |t[i]| && t[i][j] :: (i, j) }
}

module Dominance {
  import opened Options
  import opened Graphs
  import opened Dominators

  /** The bool rows of the nodes hold the table `t`. */
  ghost predicate Holds(d: array2<bool>, t: Table)
    reads d
  { d.Length0 == d.Length1 && Square(t, d.Length0) && forall i, j ::
    0 <= i < d.Length0 && 0 <= j < d.Length0 ==> d[i, j] == t[i][j] }

  ghost function Rows(d: array2<bool>): Table
    requires d.Length0 == d.Length1
    reads d
  { seq(d.Length0,
    i requires 0 <= i < d.Length0 reads d => seq(d.Length0, j requires 0 <= j < d.Length0 reads d => d[i, j])) }

  method StartTable(g: Graph, e: nat, reachable: array<bool>) returns (d: array2<bool>)
    requires e < |g| == reachable.Length && ValidGraph(g)
    requires forall b: nat :: b < |g| ==> (reachable[b] <==> Reach(g, e, b))
    ensures fresh(d) && d.Length0 == d.Length1 == |g| && Sound(g, e, Rows(d))
  {
    var n := |g|;
    d := new bool[n, n]((_, _) => false);
    d[e, e] := true;
    for i := 0 to n
      invariant forall b: nat, j: nat :: b < n && j < n ==>
        (d[b, j] <==> if b == e then j == e else b < i && reachable[b] && reachable[j])
    {
      if i != e && reachable[i] {
        for j := 0 to n
          invariant forall b: nat, k: nat :: b < n && k < n ==>
            (d[b, k] <==>
              if b == e
                then k == e
                else if b == i then k < j && reachable[k] else b < i && reachable[b] && reachable[k])
        {
          if reachable[j] { d[i, j] := true; }
        }
      }
    }
    StartIsSound(g, e, Rows(d));
  }

  /** `j` is marked in the row of every reachable block among `qs`. */
  ghost predicate Common(t: Table, qs: seq<nat>, reached: seq<bool>, j: nat) {
    |reached| == |t| && forall k :: 0 <= k < |qs| ==> InRow(t, qs[k], reached, j)
  }

  ghost predicate InRow(t: Table, q: nat, reached: seq<bool>, j: nat) {
    q < |t| && q < |reached| && j < |t[q]| && (reached[q] ==> t[q][j])
  }

  lemma CommonSnoc(t: Table, qs: seq<nat>, q: nat, reached: seq<bool>, j: nat)
    ensures Common(t, qs + [q], reached, j) <==> Common(t, qs, reached, j) && InRow(t, q, reached, j)
  {
    var all := qs + [q];
    if Common(t, all, reached, j) {
      assert InRow(t, all[|qs|], reached, j);
      forall k | 0 <= k < |qs| ensures InRow(t, qs[k], reached, j) { assert InRow(t, all[k], reached, j); }
    }
  }

  /** The intersection of the rows of the reachable predecessors, as long as there is one. */
  method Meet(d: array2<bool>, qs: seq<nat>, reachable: array<bool>, ghost t: Table) returns (row: array<bool>)
    requires Holds(d, t) && reachable.Length == |t| && (forall k :: 0 <= k < |qs| ==> qs[k] < |t|)
    requires exists k :: 0 <= k < |qs| && reachable[qs[k]]
    ensures fresh(row) && row.Length == |t|
    ensures forall j: nat :: j < |t| ==> (row[j] <==> Common(t, qs, reachable[..], j))
  {
    row := new bool[d.Length0](_ => false);
    var first := true;
    for p := 0 to |qs|
      invariant first ==> forall k :: 0 <= k < p ==> !reachable[qs[k]]
      invariant !first ==> forall j: nat :: j < |t| ==> (row[j] <==> Common(t, qs[..p], reachable[..], j))
    {
      var q := qs[p];
      ghost var before := row[..];
      if reachable[q] {
        for j := 0 to d.Length0
          invariant forall k: nat :: k < row.Length ==>
            (row[k] <==> if k < j then (first || before[k]) && d[q, k] else before[k])
        {
          row[j] := (first || row[j]) && d[q, j];
        }
        MeetStep(t, qs, p, reachable[..], before, row[..], first);
        first := false;
      } else {
        MeetStep(t, qs, p, reachable[..], before, row[..], first);
      }
    }
    assert qs[..|qs|] == qs;
  }

  lemma MeetStep(t: Table, qs: seq<nat>, p: nat, reached: seq<bool>, before: seq<bool>, row: seq<bool>, first: bool)
    requires p < |qs| && qs[p] < |t| == |reached| == |before| == |row| && Square(t, |t|)
    requires forall k :: 0 <= k < |qs| ==> qs[k] < |t|
    requires first ==> forall k :: 0 <= k < p ==> !reached[qs[k]]
    requires !first ==> forall j: nat :: j < |t| ==> (before[j] <==> Common(t, qs[..p], reached, j))
    requires forall j: nat ::
      j < |t| ==> (row[j] <==> if reached[qs[p]] then (first || before[j]) && t[qs[p]][j] else before[j])
    ensures !(first && !reached[qs[p]]) ==> forall j: nat :: j < |t| ==> (row[j] <==> Common(t, qs[..p+1], reached, j))
  {
    assert qs[..p+1] == qs[..p] + [qs[p]];
    forall j: nat | j < |t| && !(first && !reached[qs[p]]) ensures row[j] <==> Common(t, qs[..p+1], reached, j) {
      CommonSnoc(t, qs[..p], qs[p], reached, j);
    }
  }

  lemma CommonIsFlow(g: Graph, preds: Graph, e: nat, t: Table, i: nat, reached: seq<bool>, j: nat)
    requires Mirrors(g, preds) && Square(t, |g|) && |reached| == |g| && i < |g| && j < |g|
    requires forall k :: 0 <= k < |preds[i]| ==> preds[i][k] < |g|
    requires forall b: nat :: b < |g| ==> (reached[b] <==> Reach(g, e, b))
    ensures (j == i || Common(t, preds[i], reached, j)) <==> FlowsIn(g, e, t, i, j)
  {
    if Common(t, preds[i], reached, j) {
      forall p: nat | Edge(g, p, i) && Reach(g, e, p) ensures t[p][j] {
        assert p in preds[i];
        var k :| 0 <= k < |preds[i]| && preds[i][k] == p;
        assert InRow(t, preds[i][k], reached, j);
      }
    }
    if j != i && FlowsIn(g, e, t, i, j) {
      forall k | 0 <= k < |preds[i]| ensures InRow(t, preds[i][k], reached, j) {
        var p := preds[i][k];
        assert p in preds[i] && Edge(g, p, i);
      }
    }
  }

  /** Overwrites row `i`, reporting whether anything in it was different. */
  method StoreRow(d: array2<bool>, i: nat, row: array<bool>, ghost t: Table) returns (changed: bool)
    requires Holds(d, t) && i < d.Length0 == row.Length
    modifies d
    ensures Holds(d, t[i := row[..]]) && (changed <==> row[..] != t[i])
  {
    changed := false;
    for j := 0 to row.Length
      invariant forall b, k ::
        0 <= b < d.Length0 && 0 <= k < d.Length0 ==> d[b, k] == if b == i && k < j then row[k] else t[b][k]
      invariant changed <==> exists k :: 0 <= k < j && row[k] != t[i][k]
    {
      if d[i, j] != row[j] {
        d[i, j] := row[j];
        changed := true;
      }
    }
    if !changed { assert row[..] == t[i]; }
    else { ghost var k :| 0 <= k < row.Length && row[k] != t[i][k]; assert row[..][k] != t[i][k]; }
  }

  lemma FewerPairs(t: Table, i: nat, row: seq<bool>, n: nat)
    requires Square(t, n) && i < n && |row| == n && row != t[i] && forall j :: 0 <= j < n && row[j] ==> t[i][j]
    ensures |TruePairs(t[i := row])| < |TruePairs(t)|
  {
    var j :| 0 <= j < n && row[j] != t[i][j];
    var u := t[i := row];
    assert (i, j) in TruePairs(t) && (i, j) !in TruePairs(u);
    forall q | q in TruePairs(u) ensures q in TruePairs(t) { assert u[q.0][q.1] && t[q.0][q.1]; }
    SubsetSize(TruePairs(u) + {(i, j)}, TruePairs(t));
  }

  /** One visit of row `i`: the table stays sound, and shrinks if it changes at all. */
  method VisitRow(g: Graph, preds: Graph, e: nat, reachable: array<bool>, d: array2<bool>, i: nat, ghost t: Table)
    returns (changed: bool, ghost u: Table)
    requires ValidGraph(g) && ValidGraph(preds) && Mirrors(g, preds) && Sound(g, e, t) && Holds(d, t) && Inner(g, e, i)
    requires reachable.Length == |g| && forall b: nat :: b < |g| ==> (reachable[b] <==> Reach(g, e, b))
    modifies d
    ensures Sound(g, e, u) && Holds(d, u)
    ensures if changed then |TruePairs(u)| < |TruePairs(t)| else u == t && RowSteady(g, e, t, i)
  {
    ghost var q := ReachablePred(g, e, i);
    ghost var k :| 0 <= k < |preds[i]| && preds[i][k] == q;
    var row := Meet(d, preds[i], reachable, t);
    row[i] := true;
    forall j: nat | j < |g| ensures row[j] <==> FlowsIn(g, e, t, i, j) {
      CommonIsFlow(g, preds, e, t, i, reachable[..], j);
    }
    RowKeeps(g, e, t, i, row[..]);
    changed := StoreRow(d, i, row, t);
    u := t[i := row[..]];
    if changed { FewerPairs(t, i, row[..], |g|); }
    else { assert u == t; assert forall j :: 0 <= j < |g| ==> row[j] == t[i][j]; }
  }

  lemma RowsHold(d: array2<bool>)
    requires d.Length0 == d.Length1
    ensures Holds(d, Rows(d))
  {}

  lemma SoundSquare(g: Graph, e: nat, t: Table)
    requires Sound(g, e, t)
    ensures Square(t, |g|) && e < |g|
  {}

  lemma Skipped(g: Graph, e: nat, t: Table, i: nat)
    requires Square(t, |g|)
    ensures !Inner(g, e, i) ==> RowSteady(g, e, t, i)
  {}

  /** The fixed-point loop ends, at the latest when no pair is left to unmark, with the exact dominators. */
  method Iterate(g: Graph, preds: Graph, e: nat, reachable: array<bool>, d: array2<bool>) returns (ghost t: Table)
    requires ValidGraph(g) && ValidGraph(preds) && Mirrors(g, preds) && d.Length0 == d.Length1 && Sound(g, e, Rows(d))
    requires reachable.Length == |g| && forall b: nat :: b < |g| ==> (reachable[b] <==> Reach(g, e, b))
    modifies d
    ensures Exact(g, e, t) && Holds(d, t)
  {
    hide Holds;
    hide Exact;
    hide Rows;
    hide FlowsIn;
    hide TruePairs;
    hide Reach;
    t := Rows(d);
    RowsHold(d);
    SoundSquare(g, e, t);
    hide RowSteady;
    hide Sound;
    var changed := true;
    while changed
      invariant Square(t, |g|) && Sound(g, e, t) && Holds(d, t)
      invariant !changed ==> forall k: nat :: k < |g| ==> RowSteady(g, e, t, k)
      decreases |TruePairs(t)|, if changed then 1 else 0
    {
      changed := false;
      ghost var start := t;
      for i := 0 to |g|
        invariant Square(t, |g|) && Sound(g, e, t) && Holds(d, t)
        invariant if changed
          then |TruePairs(t)| < |TruePairs(start)|
          else t == start && forall k: nat :: k < i ==> RowSteady(g, e, t, k)
      {
        Skipped(g, e, t, i);
        if i != e && reachable[i] {
          var differs;
          differs, t := VisitRow(g, preds, e, reachable, d, i, t);
          SoundSquare(g, e, t);
          changed := changed || differs;
        }
      }
    }
    SteadyIsExact(g, e, t);
  }

  /** A candidate that every other strict dominator in row `i` dominates. */
  method Closest(d: array2<bool>, i: nat, c: nat) returns (yes: bool)
    requires d.Length0 == d.Length1 && i < d.Length0 && c < d.Length0
    ensures yes <==> forall o: nat :: o < d.Length0 && o != i && o != c && d[i, o] ==> d[c, o]
  {
    for o := 0 to d.Length0
      invariant forall k: nat :: k < o && k != i && k != c && d[i, k] ==> d[c, k]
    {
      if o != i && o != c && d[i, o] && !d[c, o] { return false; }
    }
    return true;
  }

  lemma ClosestIsIdom(g: Graph, e: nat, t: Table, i: nat, c: nat)
    requires Exact(g, e, t) && Inner(g, e, i) && c < |g| && c != i && t[i][c]
    ensures (forall o: nat :: o < |g| && o != i && o != c && t[i][o] ==> t[c][o]) <==> IsIdom(g, e, c, i)
  { DomReachable(g, e, c, i); }

  /** The first block of row `i` that qualifies; for a reachable block other than the entry there is one. */
  method FindIdom(d: array2<bool>, i: nat, ghost g: Graph, ghost e: nat, ghost t: Table) returns (c: nat)
    requires Exact(g, e, t) && Holds(d, t) && Inner(g, e, i)
    ensures IsIdom(g, e, c, i)
  {
    ghost var best := IdomExists(g, e, i);
    for k := 0 to d.Length0
      invariant k <= best < d.Length0
    {
      if k != i && d[i, k] {
        ClosestIsIdom(g, e, t, i, k);
        var yes := Closest(d, i, k);
        assert forall o: nat :: o < |g| ==> d[i, o] == t[i][o] && d[k, o] == t[k][o];
        if yes { return k; }
      }
    }
    assert false;
  }

  /** `children[c]` lists, among the first `n` blocks, those whose immediate dominator is `c`. */
  ghost predicate Tree(g: Graph, e: nat, idom: seq<Option<nat>>, children: seq<seq<nat>>, n: nat) {
    && |idom| == |children| == |g| && n <= |g|
    && (forall b: nat ::
      b < |g| ==> if b < n && Inner(g, e, b) then idom[b].Some? && IsIdom(g, e, idom[b].value, b) else idom[b] == None)
    && (forall c: nat ::
      c < |g| ==> NoDup(children[c]) && forall b: nat :: b in children[c] <==> b < |g| && idom[b] == Some(c))
  }

  lemma TreeStep(g: Graph, e: nat, idom: seq<Option<nat>>, children: seq<seq<nat>>, i: nat, c: nat)
    requires Tree(g, e, idom, children, i) && Inner(g, e, i) && IsIdom(g, e, c, i)
    ensures c < |g| && Tree(g, e, idom[i := Some(c)], children[c := children[c] + [i]], i + 1)
  {
    assert c in Below(|g|);
    assert idom[i] == None && i !in children[c];
  }

  lemma ExactSquare(g: Graph, e: nat, t: Table)
    requires Exact(g, e, t)
    ensures Square(t, |g|) && e < |g|
  {}

  method BuildTree(d: array2<bool>, reachable: array<bool>, ghost g: Graph, e: nat, ghost t: Table)
    returns (idom: array<Option<nat>>, children: array<seq<nat>>)
    requires Exact(g, e, t) && Holds(d, t)
    requires reachable.Length == |g| && forall b: nat :: b < |g| ==> (reachable[b] <==> Reach(g, e, b))
    ensures fresh(idom) && fresh(children) && Tree(g, e, idom[..], children[..], |g|)
  {
    hide Exact;
    hide IsIdom;
    hide Reach;
    ExactSquare(g, e, t);
    idom := new Option<nat>[d.Length0](_ => None);
    children := new seq<nat>[d.Length0](_ => []);
    for i := 0 to d.Length0
      invariant Tree(g, e, idom[..], children[..], i)
    {
      if i != e && reachable[i] {
        var c := FindIdom(d, i, g, e, t);
        TreeStep(g, e, idom[..], children[..], i, c);
        ghost var next, more := idom[..][i := Some(c)], children[..][c := children[..][c] + [i]];
        idom[i] := Some(c);
        children[c] := children[c] + [i];
        assert idom[..] == next && children[..] == more;
      }
    }
  }

  lemma ChildDepth(g: Graph, e: nat, node: nat, child: nat)
    requires Reach(g, e, child) && child < |g| && IsIdom(g, e, node, child)
    ensures Reach(g, e, node) && Dom(g, e, node, child)
    ensures |StrictDoms(g, e, child)| == |StrictDoms(g, e, node)| + 1 && |StrictDoms(g, e, child)| < |g|
  {
    IdomStep(g, e, node, child);
    DepthBound(g, e, child);
  }

  ghost predicate InTree(g: Graph, e: nat, node: nat, kids: seq<nat>, b: nat) {
    Reach(g, e, b) && (b == node || exists k :: 0 <= k < |kids| && Dom(g, e, kids[k], b))
  }

  lemma WholeTree(g: Graph, e: nat, idom: seq<Option<nat>>, children: seq<seq<nat>>, node: nat, b: nat)
    requires Tree(g, e, idom, children, |g|) && Reach(g, e, b) && node < |g| && Dom(g, e, node, b) && b < |g|
    ensures InTree(g, e, node, children[node], b)
  {
    if b != node {
      var child := ChildAbove(g, e, node, b);
      DomReachable(g, e, child, b);
      IdomUnique(g, e, node, idom[child].value, child);
      assert child in children[node];
      var k :| 0 <= k < |children[node]| && children[node][k] == child;
    }
  }

  /** Walks the dominator tree below `node`; the depth of a block is the number of its strict dominators. */
  method SetDepths(g: Graph, e: nat, idom: array<Option<nat>>, children: array<seq<nat>>, depth: array<nat>, node: nat,
      current: nat)
    requires e < |g| && Tree(g, e, idom[..], children[..], |g|) && depth.Length == |g|
    requires node < |g| && Reach(g, e, node) && current == |StrictDoms(g, e, node)|
    modifies depth
    ensures forall b: nat :: b < |g| && Reach(g, e, b) && Dom(g, e, node, b) ==> depth[b] == |StrictDoms(g, e, b)|
    ensures forall b: nat ::
      b < |g| && (!Reach(g, e, b) || |StrictDoms(g, e, b)| == old(depth[b])) ==> depth[b] == old(depth[b])
    decreases |g| - |StrictDoms(g, e, node)|
  {
    hide StrictDoms;
    hide Reach;
    hide Dom;
    hide IsIdom;
    depth[node] := current;
    var kids := children[node];
    DepthBound(g, e, node);
    for k := 0 to |kids|
      invariant forall b: nat :: b < |g| && InTree(g, e, node, kids[..k], b) ==> depth[b] == |StrictDoms(g, e, b)|
      invariant forall b: nat ::
        b < |g| && (!Reach(g, e, b) || |StrictDoms(g, e, b)| == old(depth[b])) ==> depth[b] == old(depth[b])
    {
      var child := kids[k];
      assert child in children[node] && idom[child] == Some(node);
      assert Inner(g, e, child);
      ChildDepth(g, e, node, child);
      SetDepths(g, e, idom, children, depth, child, current + 1);
      forall b: nat | b < |g| && InTree(g, e, node, kids[..k+1], b) ensures depth[b] == |StrictDoms(g, e, b)| {
        if !Dom(g, e, child, b) { assert InTree(g, e, node, kids[..k], b); }
      }
    }
    assert kids[..|kids|] == kids;
    forall b: nat | b < |g| && Reach(g, e, b) && Dom(g, e, node, b) ensures depth[b] == |StrictDoms(g, e, b)| {
      WholeTree(g, e, idom[..], children[..], node, b);
    }
  }

  ghost predicate DominatesPred(g: Graph, e: nat, x: nat, y: nat) {
    exists q: nat :: Edge(g, q, y) && Reach(g, e, q) && Dom(g, e, x, q)
  }

  /** `x` dominates a predecessor of `y` without strictly dominating `y`. */
  ghost predicate InFrontier(g: Graph, e: nat, x: nat, y: nat) {
    x < |g| && y < |g| && Reach(g, e, x) && Reach(g, e, y) && DominatesPred(g, e, x, y) && !(x != y && Dom(g, e, x, y))
  }

  method MarksPred(d: array2<bool>, qs: seq<nat>, x: nat) returns (found: bool)
    requires d.Length0 == d.Length1 && x < d.Length0 && forall k :: 0 <= k < |qs| ==> qs[k] < d.Length0
    ensures found <==> exists k :: 0 <= k < |qs| && d[qs[k], x]
  {
    for p := 0 to |qs|
      invariant forall k :: 0 <= k < p ==> !d[qs[k], x]
    {
      if d[qs[p], x] { return true; }
    }
    return false;
  }

  lemma MarkedPred(g: Graph, preds: Graph, e: nat, t: Table, x: nat, y: nat)
    requires ValidGraph(g) && ValidGraph(preds) && Mirrors(g, preds) && Exact(g, e, t) && x < |g| && y < |g|
    ensures (exists k :: 0 <= k < |preds[y]| && t[preds[y][k]][x]) <==> DominatesPred(g, e, x, y)
  {
    if k :| 0 <= k < |preds[y]| && t[preds[y][k]][x] {
      assert preds[y][k] in preds[y];
      assert Edge(g, preds[y][k], y);
    }
    if q: nat :| Edge(g, q, y) && Reach(g, e, q) && Dom(g, e, x, q) {
      assert q in preds[y];
      var k :| 0 <= k < |preds[y]| && preds[y][k] == q;
      assert t[preds[y][k]][x];
    }
  }

  ghost predicate FrontiersUpTo(g: Graph, e: nat, frontier: seq<seq<nat>>, x: nat, y: nat) {
    && |frontier| == |g|
    && forall a: nat :: a < |g| ==>
      NoDup(frontier[a]) && forall b: nat ::
        b in frontier[a] <==> InFrontier(g, e, a, b) && (a < x || (a == x && b < y))
  }

  lemma FrontierStep(g: Graph, e: nat, frontier: seq<seq<nat>>, x: nat, y: nat)
    requires FrontiersUpTo(g, e, frontier, x, y) && x < |g|
    ensures if InFrontier(g, e, x, y)
      then FrontiersUpTo(g, e, frontier[x := frontier[x] + [y]], x, y + 1) && y !in frontier[x]
            else FrontiersUpTo(g, e, frontier, x, y + 1)
  { hide InFrontier; }

  lemma FrontierRow(g: Graph, e: nat, frontier: seq<seq<nat>>, x: nat)
    ensures FrontiersUpTo(g, e, frontier, x, |g|) ==> FrontiersUpTo(g, e, frontier, x + 1, 0)
    ensures !Reach(g, e, x) && FrontiersUpTo(g, e, frontier, x, 0) ==> FrontiersUpTo(g, e, frontier, x + 1, 0)
  {}

  method BuildFrontiers(g: Graph, preds: Graph, e: nat, reachable: array<bool>, d: array2<bool>, ghost t: Table)
    returns (frontier: array<seq<nat>>)
    requires ValidGraph(g) && ValidGraph(preds) && Mirrors(g, preds) && Exact(g, e, t) && Holds(d, t)
    requires reachable.Length == |g| && forall b: nat :: b < |g| ==> (reachable[b] <==> Reach(g, e, b))
    ensures fresh(frontier) && FrontiersUpTo(g, e, frontier[..], |g|, 0)
  {
    hide Exact;
    hide Reach;
    hide Dom;
    ExactSquare(g, e, t);
    frontier := new seq<nat>[|g|](_ => []);
    for x := 0 to |g|
      invariant FrontiersUpTo(g, e, frontier[..], x, 0)
    {
      FrontierRow(g, e, frontier[..], x);
      if reachable[x] {
        for y := 0 to |g|
          invariant FrontiersUpTo(g, e, frontier[..], x, y)
        {
          MarkedPred(g, preds, e, t, x, y);
          var marks := MarksPred(d, preds[y], x);
          ExactAt(g, e, t, y, x);
          FrontierStep(g, e, frontier[..], x, y);
          if reachable[y] && marks && !(x != y && d[y, x]) {
            assert InFrontier(g, e, x, y);
            ghost var next := frontier[..][x := frontier[..][x] + [y]];
            frontier[x] := frontier[x] + [y];
            assert frontier[..] == next;
          }
        }
        FrontierRow(g, e, frontier[..], x);
      }
    }
  }

  lemma ExactAt(g: Graph, e: nat, t: Table, b: nat, d: nat)
    requires Exact(g, e, t) && b < |g| && d < |g|
    ensures |t| == |g| && |t[b]| == |g| && (t[b][d] <==> Reach(g, e, b) && Dom(g, e, d, b))
  {}

  /** What the query `ir_dominates` answers. */
  ghost predicate PredDominated(g: Graph, e: nat, x: nat, q: nat) { x == q || (Reach(g, e, q) && Dom(g, e, x, q)) }

  /** A chain of immediate dominators from `b` up to the entry. */
  ghost predicate ChainToRoot(idom: seq<Option<nat>>, e: nat, b: nat) {
    exists chain: seq<nat> :: IsChain(idom, e, b, chain)
  }

  ghost predicate IsChain(idom: seq<Option<nat>>, e: nat, b: nat, chain: seq<nat>) {
    && |chain| > 0 && chain[0] == b && chain[|chain|-1] == e
    && forall k: nat :: k < |chain| - 1 ==> chain[k] < |idom| && idom[chain[k]] == Some(chain[k+1])
  }

  /** The result of the analysis (`IrDomInfo`), one entry per block in each array. */
  class DomInfo {
    const succs: Graph
    const preds: Graph
    const entry: nat
    const reachable: array<bool>
    const domBy: array2<bool>
    const idom: array<Option<nat>>
    const children: array<seq<nat>>
    const depth: array<nat>
    const frontier: array<seq<nat>>

    ghost predicate Shape() {
      && ValidGraph(succs) && ValidGraph(preds) && Mirrors(succs, preds) && entry < |succs| == reachable.Length
      && domBy.Length0 == domBy.Length1 == idom.Length == children.Length == depth.Length == frontier.Length == |succs|
    }

    /** The dominance queries can be trusted. */
    ghost predicate TablesRight()
      reads reachable, domBy
    {
      && Shape()
      && (forall b: nat :: b < |succs| ==> (reachable[b] <==> Reach(succs, entry, b)))
      && (forall b: nat, d: nat :: b < |succs| && d < |succs| ==>
        (domBy[b, d] <==> Reach(succs, entry, b) && Dom(succs, entry, d, b)))
    }

    ghost predicate Valid()
      reads reachable, domBy, idom, children, depth, frontier
    {
      && TablesRight()
      && Tree(succs, entry, idom[..], children[..], |succs|)
      && (forall b: nat :: b < |succs| && Reach(succs, entry, b) ==> depth[b] == |StrictDoms(succs, entry, b)|)
      && FrontiersUpTo(succs, entry, frontier[..], |succs|, 0)
    }

    /** `ir_dominance_compute`. */
    constructor (succs: Graph, preds: Graph, entry: nat)
      requires ValidGraph(succs) && ValidGraph(preds) && Mirrors(succs, preds) && entry < |succs|
      ensures this.succs == succs && this.preds == preds && this.entry == entry && Valid()
      ensures fresh(reachable) && fresh(domBy) && fresh(idom) && fresh(children) && fresh(depth) && fresh(frontier)
    {
      hide Exact;
      hide Sound;
      hide Rows;
      hide Reach;
      hide Dom;
      hide Tree;
      hide FrontiersUpTo;
      hide Mirrors;
      hide StrictDoms;
      hide Holds;
      hide ValidGraph;
      var reachable := MarkReachable(succs, entry);
      var domBy := StartTable(succs, entry, reachable);
      ghost var t := Iterate(succs, preds, entry, reachable, domBy);
      var idom, children := BuildTree(domBy, reachable, succs, entry, t);
      TreeSizes(succs, entry, idom[..], children[..]);
      var depth := new nat[|succs|](_ => 0);
      ReachSelf(succs, entry);
      EntryDepth(succs, entry);
      SetDepths(succs, entry, idom, children, depth, entry, 0);
      var frontier := BuildFrontiers(succs, preds, entry, reachable, domBy, t);
      FrontierSizes(succs, entry, frontier[..]);
      this.succs, this.preds, this.entry := succs, preds, entry;
      this.reachable, this.domBy, this.idom, this.children, this.depth, this.frontier := reachable, domBy, idom,
        children, depth, frontier;
      new;
      RowsExact(domBy, succs, entry, t);
      forall b: nat | b < |succs| && Reach(succs, entry, b) ensures depth[b] == |StrictDoms(succs, entry, b)| {
        EntryDominates(succs, entry, b);
      }
    }

    /** `ir_dominates`: every block dominates itself, reachable or not; nothing else dominates an unreachable one. */
    method Dominates(a: nat, b: nat) returns (yes: bool)
      requires TablesRight() && a < |succs| && b < |succs|
      ensures yes <==> a == b || (Reach(succs, entry, b) && Dom(succs, entry, a, b))
    {
      if a == b { return true; }
      if !reachable[b] { return false; }
      return domBy[b, a];
    }

    method StrictlyDominates(a: nat, b: nat) returns (yes: bool)
      requires TablesRight() && a < |succs| && b < |succs|
      ensures yes <==> Reach(succs, entry, b) && a in StrictDoms(succs, entry, b)
    {
      if a == b { return false; }
      yes := Dominates(a, b);
    }

    method GetIdom(b: nat) returns (c: Option<nat>)
      requires Valid() && b < |succs|
      ensures c.None? <==> b == entry || !Reach(succs, entry, b)
      ensures c.Some? ==> IsIdom(succs, entry, c.value, b)
    {
      if !reachable[b] { return None; }
      return idom[b];
    }

    method GetFrontier(b: nat) returns (df: seq<nat>)
      requires Valid() && b < |succs|
      ensures NoDup(df) && forall y: nat :: y in df <==> InFrontier(succs, entry, b, y)
    {
      if !reachable[b] { return []; }
      return frontier[b];
    }

    /** Following immediate dominators up from `b` gets to the entry. */
    method ChainReachesRoot(b: nat) returns (ok: bool)
      requires Shape() && b < |succs| && forall k: nat :: k < |succs| && idom[k].Some? ==> idom[k].value < |succs|
      ensures ok ==> ChainToRoot(idom[..], entry, b)
      ensures Valid() && Reach(succs, entry, b) ==> ok
    {
      var curr: Option<nat> := Some(b);
      var steps := 0;
      ghost var chain: seq<nat> := [b];
      while curr.Some? && curr.value != entry
        invariant |chain| > 0 && chain[0] == b && (curr.Some? ==> curr.value == chain[|chain|-1] < |succs|)
        invariant forall k: nat :: k < |chain| - 1 ==> chain[k] < |succs| && idom[chain[k]] == Some(chain[k+1])
        invariant steps <= |succs|
        invariant Valid() && Reach(succs, entry, b) ==>
          (curr.Some? && Reach(succs, entry, curr.value)
          && steps + |StrictDoms(succs, entry, curr.value)| == |StrictDoms(succs, entry, b)|)
        decreases |succs| - steps
      {
        if Valid() && Reach(succs, entry, b) {
          IdomStep(succs, entry, idom[curr.value].value, curr.value);
          DepthBound(succs, entry, b);
        }
        curr := idom[curr.value];
        steps := steps + 1;
        if steps > |succs| { return false; }
        if curr.Some? { chain := chain + [curr.value]; }
      }
      if curr.Some? { assert IsChain(idom[..], entry, b, chain); }
      return curr.Some?;
    }

    ghost predicate NodeAccepted(b: nat)
      requires Shape() && b < |succs|
      reads idom
    {
      Inner(succs, entry, b) ==>
        idom[b].Some? && idom[b].value in StrictDoms(succs, entry, b) && ChainToRoot(idom[..], entry, b)
    }

    ghost predicate FrontierEntryAccepted(x: nat, y: nat)
      requires Shape()
    {
      && y < |succs| && !(Reach(succs, entry, y) && x in StrictDoms(succs, entry, y))
      && exists k :: 0 <= k < |preds[y]| && PredDominated(succs, entry, x, preds[y][k])
    }

    method CheckNode(b: nat) returns (ok: bool)
      requires TablesRight() && b < |succs| && Inner(succs, entry, b)
      requires forall k: nat :: k < |succs| && idom[k].Some? ==> idom[k].value < |succs|
      ensures ok <== Valid()
      ensures ok ==> NodeAccepted(b)
    {
      hide FrontiersUpTo;
      if idom[b].None? { return false; }
      var below := StrictlyDominates(idom[b].value, b);
      if !below { return false; }
      ok := ChainReachesRoot(b);
    }

    method CheckFrontierEntry(x: nat, y: nat) returns (ok: bool)
      requires TablesRight() && x < |succs| && y < |succs|
      ensures ok <==> FrontierEntryAccepted(x, y)
    {
      var strict := StrictlyDominates(x, y);
      if strict { return false; }
      for p := 0 to |preds[y]|
        invariant forall k :: 0 <= k < p ==> !PredDominated(succs, entry, x, preds[y][k])
      {
        var dominated := Dominates(x, preds[y][p]);
        if dominated { return true; }
      }
      return false;
    }

    method CheckTree() returns (ok: bool)
      requires TablesRight()
      requires forall k: nat :: k < |succs| && idom[k].Some? ==> idom[k].value < |succs|
      ensures ok <== Valid()
      ensures ok ==> idom[entry] == None && forall b: nat :: b < |succs| ==> NodeAccepted(b)
    {
      hide FrontiersUpTo;
      hide StrictDoms;
      hide ChainToRoot;
      hide Dom;
      if idom[entry].Some? { return false; }
      for i := 0 to |succs|
        invariant forall b: nat :: b < i ==> NodeAccepted(b)
      {
        if reachable[i] && i != entry {
          var fine := CheckNode(i);
          if !fine { return false; }
        }
      }
      return true;
    }

    method CheckFrontier(x: nat) returns (ok: bool)
      requires TablesRight() && x < |succs| && forall n :: 0 <= n < |frontier[x]| ==> frontier[x][n] < |succs|
      ensures ok <== Valid()
      ensures ok ==> forall n: nat :: n < |frontier[x]| ==> FrontierEntryAccepted(x, frontier[x][n])
    {
      hide StrictDoms;
      hide Tree;
      hide Dom;
      for n := 0 to |frontier[x]|
        invariant forall k: nat :: k < n ==> FrontierEntryAccepted(x, frontier[x][k])
      {
        var y := frontier[x][n];
        if Valid() {
          assert y in frontier[..][x];
          FrontierAccepted(succs, preds, entry, x, y);
        }
        var fine := CheckFrontierEntry(x, y);
        if !fine { return false; }
      }
      return true;
    }

    /** `ir_dominance_verify`: accepts every result of the analysis, and nothing whose tree or frontiers are wrong. */
    method Verify() returns (ok: bool)
      requires TablesRight()
      requires forall k: nat :: k < |succs| && idom[k].Some? ==> idom[k].value < |succs|
      requires forall k: nat, n: nat :: k < |succs| && n < |frontier[k]| ==> frontier[k][n] < |succs|
      ensures ok <== Valid()
      ensures ok ==> idom[entry] == None && forall b: nat :: b < |succs| ==> NodeAccepted(b)
      ensures ok ==>
        forall x: nat, n: nat ::
          x < |succs| && reachable[x] && n < |frontier[x]| ==> FrontierEntryAccepted(x, frontier[x][n])
    {
      hide FrontiersUpTo;
      hide Tree;
      hide StrictDoms;
      hide ChainToRoot;
      hide Dom;
      hide PredDominated;
      hide Reach;
      ok := CheckTree();
      if !ok { return; }
      for x := 0 to |succs|
        invariant forall a: nat, n: nat ::
          a < x && reachable[a] && n < |frontier[a]| ==> FrontierEntryAccepted(a, frontier[a][n])
      {
        if reachable[x] {
          var fine := CheckFrontier(x);
          if !fine { return false; }
        }
      }
    }
  }

  lemma FrontierAccepted(g: Graph, preds: Graph, e: nat, x: nat, y: nat)
    requires Mirrors(g, preds) && InFrontier(g, e, x, y)
    ensures !(Reach(g, e, y) && x in StrictDoms(g, e, y))
    ensures exists k :: 0 <= k < |preds[y]| && PredDominated(g, e, x, preds[y][k])
  {
    var q: nat :| Edge(g, q, y) && Reach(g, e, q) && Dom(g, e, x, q);
    assert q in preds[y];
    var k :| 0 <= k < |preds[y]| && preds[y][k] == q;
    assert PredDominated(g, e, x, preds[y][k]);
  }

  lemma RowsExact(d: array2<bool>, g: Graph, e: nat, t: Table)
    requires Exact(g, e, t) && Holds(d, t)
    ensures d.Length0 == d.Length1 == |g|
    ensures forall b: nat, c: nat :: b < |g| && c < |g| ==> (d[b, c] <==> Reach(g, e, b) && Dom(g, e, c, b))
  {
    hide Reach;
    hide Dom;
  }

  lemma TreeSizes(g: Graph, e: nat, idom: seq<Option<nat>>, children: seq<seq<nat>>)
    requires Tree(g, e, idom, children, |g|)
    ensures |idom| == |children| == |g|
  {}

  lemma FrontierSizes(g: Graph, e: nat, frontier: seq<seq<nat>>)
    requires FrontiersUpTo(g, e, frontier, |g|, 0)
    ensures |frontier| == |g|
  {}

  lemma EntryDepth(g: Graph, e: nat)
    requires e < |g|
    ensures |StrictDoms(g, e, e)| == 0
  {
    forall d | d in StrictDoms(g, e, e) ensures false { OnlyEntryDominatesEntry(g, e, d); }
    assert StrictDoms(g, e, e) == {};
  }
}
