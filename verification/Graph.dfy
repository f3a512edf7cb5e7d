// Directed graphs given by successor lists, paths through them, and the breadth-first marking that
// src/ir/ir_dominance.c:78-95, src/ir/ir_opt.c:612-632 and src/ir/ir_ipa.c:260-283 share.

module Graphs {
  type Graph = seq<seq<nat>>

  predicate ValidGraph(g: Graph) { forall a, k :: 0 <= a < |g| && 0 <= k < |g[a]| ==> g[a][k] < |g| }

  predicate Edge(g: Graph, a: nat, b: nat) { a < |g| && b in g[a] }

  predicate IsPath(g: Graph, p: seq<nat>) {
    && p != []
    && (forall i :: 0 <= i < |p| ==> p[i] < |g|)
    && (forall i :: 0 <= i < |p| - 1 ==> Edge(g, p[i], p[i+1]))
  }

  predicate Connects(g: Graph, p: seq<nat>, a: nat, b: nat) { IsPath(g, p) && p[0] == a && p[|p|-1] == b }

  ghost predicate Reach(g: Graph, a: nat, b: nat) { exists p :: Connects(g, p, a, b) }

  predicate NoDup<T(==)>(s: seq<T>) { forall i, j :: 0 <= i < j < |s| ==> s[i] != s[j] }

  /** Predecessor lists that say the same as the successor lists. */
  predicate Mirrors(succs: Graph, preds: Graph) {
    && |preds| == |succs|
    && forall a: nat, b: nat :: a < |succs| && b < |succs| ==> (b in succs[a] <==> a in preds[b])
  }

  lemma ReachSelf(g: Graph, a: nat)
    requires a < |g|
    ensures Reach(g, a, a)
  { assert Connects(g, [a], a, a); }

  lemma Extend(g: Graph, p: seq<nat>, a: nat, b: nat, c: nat)
    requires ValidGraph(g) && Connects(g, p, a, b) && Edge(g, b, c)
    ensures Connects(g, p + [c], a, c)
  {}

  lemma ReachStep(g: Graph, a: nat, b: nat, c: nat)
    requires ValidGraph(g) && Reach(g, a, b) && Edge(g, b, c)
    ensures Reach(g, a, c)
  {
    var p :| Connects(g, p, a, b);
    Extend(g, p, a, b, c);
  }

  lemma Join(g: Graph, p: seq<nat>, q: seq<nat>, a: nat, b: nat, c: nat)
    requires Connects(g, p, a, b) && Connects(g, q, b, c)
    ensures Connects(g, p + q[1..], a, c)
  {}

  lemma Suffix(g: Graph, p: seq<nat>, a: nat, b: nat, k: nat)
    requires Connects(g, p, a, b) && k < |p|
    ensures Connects(g, p[k..], p[k], b) && Connects(g, p[..k+1], a, p[k])
  {}

  lemma ReachTrans(g: Graph, a: nat, b: nat, c: nat)
    requires Reach(g, a, b) && Reach(g, b, c)
    ensures Reach(g, a, c)
  {
    var p :| Connects(g, p, a, b);
    var q :| Connects(g, q, b, c);
    Join(g, p, q, a, b, c);
  }

  /** A set that holds the start of a path and is closed under edges holds all of it. */
  lemma {:induction false} ClosedHoldsPath(g: Graph, s: set<nat>, p: seq<nat>, k: nat)
    requires IsPath(g, p) && p[0] in s && k < |p|
    requires forall a, b :: a in s && Edge(g, a, b) ==> b in s
    ensures p[k] in s
  {
    if k > 0 { ClosedHoldsPath(g, s, p, k - 1); assert Edge(g, p[k-1], p[k]); }
  }

  function Below(n: nat): (s: set<nat>)
    ensures |s| == n && forall x: nat :: x in s <==> x < n
  { if n == 0 then {} else Below(n - 1) + {n - 1} }

  function Elems<T>(s: seq<T>): set<T> { set x | x in s }

  lemma {:induction false} NoDupSize<T>(s: seq<T>)
    requires NoDup(s)
    ensures |Elems(s)| == |s|
  {
    if s != [] {
      var front, last := s[..|s|-1], s[|s|-1];
      NoDupSize(front);
      assert Elems(s) == Elems(front) + {last};
      assert last !in Elems(front);
    }
  }

  lemma SubsetSize<T>(a: set<T>, b: set<T>)
    requires a <= b
    ensures |a| <= |b|
  { assert b == a + (b - a) && a !! (b - a); }

  /** Distinct numbers below `n` that miss one of them are fewer than `n`. */
  lemma Pigeonhole(s: seq<nat>, n: nat, missing: nat)
    requires NoDup(s) && (forall x :: x in s ==> x < n) && missing < n && missing !in s
    ensures |s| < n
  {
    NoDupSize(s);
    SubsetSize(Elems(s) + {missing}, Below(n));
  }

  /** Everything the queue holds is marked and reached; everything before `head` has had its successors marked. */
  ghost predicate Frontier(g: Graph, root: nat, queue: seq<nat>, head: nat, mark: seq<bool>) {
    && |mark| == |g| && head <= |queue| <= |g|
    && NoDup(queue) && root in queue
    && (forall b :: b in queue ==> b < |g| && Reach(g, root, b))
    && (forall b :: 0 <= b < |g| ==> (mark[b] <==> b in queue))
    && (forall i, b :: 0 <= i < head && Edge(g, queue[i], b) ==> b in queue)
  }

  lemma FrontierPush(g: Graph, root: nat, queue: seq<nat>, head: nat, mark: seq<bool>, curr: nat, succ: nat)
    requires ValidGraph(g) && Frontier(g, root, queue, head, mark) && curr in queue && succ in g[curr] && !mark[succ]
    ensures Frontier(g, root, queue + [succ], head, mark[succ := true])
  {
    ReachStep(g, root, curr, succ);
    Pigeonhole(queue, |g|, succ);
  }

  lemma FrontierDone(g: Graph, root: nat, queue: seq<nat>, mark: seq<bool>, b: nat)
    requires ValidGraph(g) && Frontier(g, root, queue, |queue|, mark) && b < |g|
    ensures mark[b] <==> Reach(g, root, b)
  {
    var marked := Elems(queue);
    if Reach(g, root, b) {
      var p :| Connects(g, p, root, b);
      ClosedHoldsPath(g, marked, p, |p| - 1);
    }
  }

  /** Marks exactly the nodes that some path from `root` reaches; the queue never outgrows the graph. */
  method MarkReachable(g: Graph, root: nat) returns (mark: array<bool>)
    requires ValidGraph(g) && root < |g|
    ensures fresh(mark) && mark.Length == |g|
    ensures forall b :: 0 <= b < |g| ==> (mark[b] <==> Reach(g, root, b))
  {
    mark := new bool[|g|](_ => false);
    mark[root] := true;
    var queue, head := [root], 0;
    ReachSelf(g, root);
    while head < |queue|
      invariant 0 <= head <= |queue| && Frontier(g, root, queue, head, mark[..])
      decreases |g| - head
    {
      var curr := queue[head];
      assert curr in queue;
      var s := 0;
      while s < |g[curr]|
        invariant curr < |g| && 0 <= s <= |g[curr]| && head < |queue| && queue[head] == curr
        invariant Frontier(g, root, queue, head, mark[..])
        invariant forall j :: 0 <= j < s ==> g[curr][j] in queue
      {
        var succ := g[curr][s];
        if !mark[succ] {
          FrontierPush(g, root, queue, head, mark[..], curr, succ);
          ghost var next := mark[..][succ := true];
          mark[succ] := true;
          assert mark[..] == next;
          queue := queue + [succ];
        }
        s := s + 1;
      }
      head := head + 1;
    }
    forall b | 0 <= b < |g| ensures mark[b] <==> Reach(g, root, b) { FrontierDone(g, root, queue, mark[..], b); }
  }
}
