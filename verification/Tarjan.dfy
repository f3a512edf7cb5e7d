// Strongly connected components by one depth-first search with a stack and low links (src/ir/ir_ipa.c:118-168).

module TarjanState {
  import opened Graphs

  /** The search so far: visit numbers (-1 when unvisited), low links, component numbers (-1 until known), the stack. */
  datatype State = State(idx: seq<int>, low: seq<int>, scc: seq<int>, stack: seq<nat>, next: nat, count: nat)

  ghost predicate Mutual(g: Graph, v: nat, w: nat) { Reach(g, v, w) && Reach(g, w, v) }

  function Idx(t: State, v: nat): int { if v < |t.idx| then t.idx[v] else -1 }

  function Scc(t: State, v: nat): int { if v < |t.scc| then t.scc[v] else -1 }

  predicate Seen(t: State, v: nat) { Idx(t, v) >= 0 }

  predicate Finished(t: State, v: nat) { Seen(t, v) && v !in t.stack }

  /** From `y` the search path can be got back to, at or below `y` in the stack. */
  ghost predicate ReturnsTo(g: Graph, t: State, gray: set<nat>, y: nat) {
    exists x :: x in gray && Idx(t, x) <= Idx(t, y) && Reach(g, y, x)
  }

  ghost predicate Sizes(g: Graph, t: State) {
    && ValidGraph(g) && |t.idx| == |t.low| == |t.scc| == |g|
    && (forall v: nat :: v < |g| ==> -1 <= Idx(t, v) < t.next)
    && NoDup(t.stack) && (forall v :: v in t.stack ==> Seen(t, v))
    && (forall i, j :: 0 <= i < j < |t.stack| ==> Idx(t, t.stack[i]) < Idx(t, t.stack[j]))
  }

  /** Components have numbers once they are finished, and only then. */
  ghost predicate Numbered(g: Graph, t: State) {
    forall v: nat :: v < |g| ==> if Finished(t, v) then 0 <= Scc(t, v) < t.count else Scc(t, v) == -1
  }

  /** Off the search path, everything seen has had its successors seen. */
  ghost predicate Covered(g: Graph, t: State, gray: set<nat>) {
    && (forall v :: v in gray ==> v in t.stack)
    && (forall v: nat, w: nat :: Seen(t, v) && v !in gray && Edge(g, v, w) ==> Seen(t, w))
  }

  /** Finished components lead nowhere else. */
  ghost predicate Closed(g: Graph, t: State) {
    forall v: nat, w: nat :: Finished(t, v) && Edge(g, v, w) ==> Finished(t, w)
  }

  /** The stack leads upwards. */
  ghost predicate Ordered(g: Graph, t: State) {
    forall i, j :: 0 <= i <= j < |t.stack| ==> Reach(g, t.stack[i], t.stack[j])
  }

  ghost predicate Returning(g: Graph, t: State, gray: set<nat>) {
    forall y {:trigger ReturnsTo(g, t, gray, y)} :: y in t.stack ==> ReturnsTo(g, t, gray, y)
  }

  /** Finished vertices have the same number exactly when each reaches the other. */
  ghost predicate Classified(g: Graph, t: State) {
    forall v: nat, w: nat :: Finished(t, v) && Finished(t, w) ==> (Scc(t, v) == Scc(t, w) <==> Mutual(g, v, w))
  }

  /** `gray` is the search path. */
  ghost predicate Inv(g: Graph, t: State, gray: set<nat>) {
    && Sizes(g, t) && Numbered(g, t) && Covered(g, t, gray) && Closed(g, t) && Ordered(g, t) && Returning(g, t, gray)
    && Classified(g, t)
  }

  /** What a search below keeps of what was there before. */
  ghost predicate Extends(t: State, u: State) {
    && |t.idx| == |u.idx| == |t.low| == |u.low| == |t.scc| == |u.scc| && t.stack <= u.stack && t.next <= u.next
    && (forall v: nat :: Seen(t, v) ==> Idx(u, v) == Idx(t, v) && u.low[v] == t.low[v] && Scc(u, v) == Scc(t, v))
    && (forall v: nat :: Finished(t, v) ==> Finished(u, v))
  }

  /** No edge goes from the stack above position `base` to something below it with a visit number under `n`. */
  ghost predicate NoCrossing(g: Graph, t: State, base: nat, n: int) {
    forall i, j ::
      base <= i < |t.stack| && 0 <= j < base && j < |t.stack| && Edge(g, t.stack[i], t.stack[j]) ==>
        n <= Idx(t, t.stack[j])
  }

  ghost predicate LowReached(g: Graph, t: State, u: nat, n: int) {
    exists y :: y in t.stack && Idx(t, y) == n && Reach(g, u, y)
  }

  /** The outcome of searching from `u`: it is the root of a finished component, or it stays on the stack with a link
      further down. */
  ghost predicate Searched(g: Graph, t: State, d: State, u: nat) {
    && Extends(t, d) && Idx(d, u) == t.next && u < |d.low|
    && (if d.low[u] == Idx(d, u) then d.stack == t.stack
        else d.low[u] < Idx(d, u) && |d.stack| > |t.stack| && d.stack[|t.stack|] == u && LowReached(g, d, u, d.low[u]))
    && NoCrossing(g, d, |t.stack|, d.low[u])
  }

  function Pushed(t: State, u: nat): State
    requires u < |t.idx| == |t.low|
  { t.(idx := t.idx[u := t.next], low := t.low[u := t.next], stack := t.stack + [u], next := t.next + 1) }

  // ----- Pushing an unvisited vertex -----

  lemma PushSizes(g: Graph, t: State, u: nat)
    requires Sizes(g, t) && u < |g| && !Seen(t, u)
    ensures Sizes(g, Pushed(t, u)) && u !in t.stack
    ensures forall v: nat ::
      v != u ==> Idx(Pushed(t, u), v) == Idx(t, v) && (Finished(Pushed(t, u), v) <==> Finished(t, v))
    ensures Idx(Pushed(t, u), u) == t.next && !Finished(Pushed(t, u), u)
  {
    var d := Pushed(t, u);
    assert d.stack[|t.stack|] == u;
    assert forall v: nat :: Idx(d, v) == if v == u then t.next else Idx(t, v);
    assert forall v :: v in d.stack ==> Seen(d, v);
    forall i, j | 0 <= i < j < |d.stack| ensures Idx(d, d.stack[i]) < Idx(d, d.stack[j]) && d.stack[i] != d.stack[j] {
      assert d.stack[i] == t.stack[i] && t.stack[i] in t.stack;
      if j < |t.stack| { assert t.stack[j] in t.stack; }
    }
  }

  lemma PushOrdered(g: Graph, t: State, gray: set<nat>, u: nat)
    requires Ordered(g, t) && Returning(g, t, gray) && u < |g| == |t.idx| == |t.low| && forall x ::
      x in gray ==> Reach(g, x, u)
    ensures Ordered(g, Pushed(t, u))
  {
    var d := Pushed(t, u);
    ReachSelf(g, u);
    forall i, j | 0 <= i <= j < |d.stack| ensures Reach(g, d.stack[i], d.stack[j]) {
      if i < |t.stack| && j == |t.stack| {
        assert ReturnsTo(g, t, gray, t.stack[i]);
        var x :| x in gray && Reach(g, t.stack[i], x);
        ReachTrans(g, t.stack[i], x, u);
      }
    }
  }

  lemma PushReturning(g: Graph, t: State, gray: set<nat>, u: nat)
    requires Sizes(g, t) && Returning(g, t, gray) && u < |g| && !Seen(t, u) && forall x :: x in gray ==> x in t.stack
    ensures Returning(g, Pushed(t, u), gray + {u})
  {
    hide Reach;
    hide ValidGraph;
    var d := Pushed(t, u);
    PushSizes(g, t, u);
    ReachSelf(g, u);
    hide Sizes;
    hide Idx;
    forall y | y in d.stack ensures ReturnsTo(g, d, gray + {u}, y) {
      if y in t.stack {
        assert ReturnsTo(g, t, gray, y);
        var x :| x in gray && Idx(t, x) <= Idx(t, y) && Reach(g, y, x);
        assert x in gray + {u} && Idx(d, x) <= Idx(d, y);
      } else {
        assert y == u && u in gray + {u} && Idx(d, u) <= Idx(d, y);
      }
    }
  }

  lemma PushInv(g: Graph, t: State, gray: set<nat>, u: nat)
    requires Inv(g, t, gray) && u < |g| && !Seen(t, u) && forall x :: x in gray ==> Reach(g, x, u)
    ensures Inv(g, Pushed(t, u), gray + {u})
  {
    PushSizes(g, t, u);
    PushOrdered(g, t, gray, u);
    PushReturning(g, t, gray, u);
    hide Sizes;
    hide Returning;
    hide Ordered;
    hide Finished;
    hide Mutual;
    hide Idx;
    assert Numbered(g, Pushed(t, u));
    assert Classified(g, Pushed(t, u));
  }

  // ----- When all successors of `u` have been seen -----

  /** The search path of which the stack element at `base` is the last. */
  ghost predicate PathTo(t: State, gray: set<nat>, base: nat) {
    base < |t.stack| && forall x :: x in gray ==> x in t.stack[..base] || x == t.stack[base]
  }

  ghost predicate RootClosed(g: Graph, t: State, gray: set<nat>, base: nat) {
    && Inv(g, t, gray) && PathTo(t, gray, base) && (forall w: nat :: Edge(g, t.stack[base], w) ==> Seen(t, w))
    && NoCrossing(g, t, base, Idx(t, t.stack[base]))
  }

  lemma NotGrayAbove(t: State, gray: set<nat>, base: nat, i: nat)
    requires NoDup(t.stack) && PathTo(t, gray, base) && base <= i < |t.stack|
    ensures i > base ==> t.stack[i] !in gray
    ensures t.stack[i] !in t.stack[..base]
  { assert forall j :: 0 <= j < base ==> t.stack[..base][j] != t.stack[i]; }

  lemma InOrAbove(t: State, base: nat, b: nat)
    requires base <= |t.stack|
    ensures b in t.stack <==> b in t.stack[..base] || b in t.stack[base..]
  { assert t.stack == t.stack[..base] + t.stack[base..]; }

  /** An edge from above the root goes to above the root, or to something finished. */
  lemma EdgeAbove(g: Graph, t: State, gray: set<nat>, base: nat, i: nat, b: nat)
    requires RootClosed(g, t, gray, base) && base <= i < |t.stack| && Edge(g, t.stack[i], b)
    ensures b in t.stack[base..] || Finished(t, b)
  {
    NotGrayAbove(t, gray, base, i);
    assert t.stack[i] in t.stack && Seen(t, t.stack[i]);
    assert Seen(t, b);
    forall j | 0 <= j < base ensures t.stack[j] != b { assert Idx(t, t.stack[j]) < Idx(t, t.stack[base]); }
    InOrAbove(t, base, b);
  }

  /** A path that starts above the root stays there, or runs into what is finished for good. */
  lemma {:induction false} StaysAbove(g: Graph, t: State, gray: set<nat>, base: nat, p: seq<nat>, k: nat)
    requires RootClosed(g, t, gray, base) && IsPath(g, p) && p[0] in t.stack[base..] && k < |p|
    ensures p[k] in t.stack[base..] || Finished(t, p[k])
  {
    if k > 0 {
      StaysAbove(g, t, gray, base, p, k - 1);
      assert Edge(g, p[k-1], p[k]);
      if p[k-1] in t.stack[base..] {
        var i :| base <= i < |t.stack| && t.stack[i] == p[k-1];
        EdgeAbove(g, t, gray, base, i, p[k]);
      }
    }
  }

  lemma {:induction false} FinishedStays(g: Graph, t: State, p: seq<nat>, k: nat)
    requires Closed(g, t) && IsPath(g, p) && Finished(t, p[0]) && k < |p|
    ensures Finished(t, p[k])
  {
    if k > 0 { FinishedStays(g, t, p, k - 1); assert Edge(g, p[k-1], p[k]); }
  }

  lemma FinishedReach(g: Graph, t: State, v: nat, w: nat)
    requires Closed(g, t) && Finished(t, v) && Reach(g, v, w)
    ensures Finished(t, w)
  {
    var p :| Connects(g, p, v, w);
    FinishedStays(g, t, p, |p| - 1);
  }

  lemma RootOnly(g: Graph, t: State, gray: set<nat>, base: nat, x: nat)
    requires RootClosed(g, t, gray, base) && x in gray && (x in t.stack[base..] || Finished(t, x))
    ensures x == t.stack[base]
  {
    assert x in t.stack && x in t.stack[base..];
    var j :| base <= j < |t.stack| && t.stack[j] == x;
    NotGrayAbove(t, gray, base, j);
  }

  lemma PathOf(g: Graph, a: nat, b: nat) returns (p: seq<nat>)
    requires Reach(g, a, b)
    ensures IsPath(g, p) && p[0] == a && p[|p|-1] == b
  { p :| Connects(g, p, a, b); }

  lemma AboveReachesRoot(g: Graph, t: State, gray: set<nat>, base: nat, y: nat)
    requires RootClosed(g, t, gray, base) && y in t.stack[base..]
    ensures Mutual(g, t.stack[base], y)
  {
    hide Reach;
    hide Sizes;
    hide Covered;
    hide Closed;
    hide Numbered;
    hide Classified;
    hide NoCrossing;
    hide PathTo;
    hide Finished;
    var i :| base <= i < |t.stack| && t.stack[i] == y;
    assert Reach(g, t.stack[base], t.stack[i]);
    assert y in t.stack && ReturnsTo(g, t, gray, y);
    var x :| x in gray && Idx(t, x) <= Idx(t, y) && Reach(g, y, x);
    var p := PathOf(g, y, x);
    StaysAbove(g, t, gray, base, p, |p| - 1);
    RootOnly(g, t, gray, base, x);
  }

  lemma MutualIsAbove(g: Graph, t: State, gray: set<nat>, base: nat, y: nat)
    requires RootClosed(g, t, gray, base) && Mutual(g, t.stack[base], y)
    ensures y in t.stack[base..]
  {
    var u := t.stack[base];
    assert t.stack[base..][0] == u;
    var p :| Connects(g, p, u, y);
    StaysAbove(g, t, gray, base, p, |p| - 1);
    if Finished(t, y) { FinishedReach(g, t, y, u); }
  }

  /** Popping the component: everything from the root on gets the next component number. */
  ghost predicate Popped(t: State, d: State, base: nat) {
    && base < |t.stack| && |t.scc| == |t.idx| == |d.scc|
      && d == State(t.idx, t.low, d.scc, t.stack[..base], t.next, t.count + 1)
    && forall v: nat :: v < |t.scc| ==> d.scc[v] == if v in t.stack[base..] then t.count else t.scc[v]
  }

  lemma PopFinished(g: Graph, t: State, d: State, gray: set<nat>, base: nat, v: nat)
    requires RootClosed(g, t, gray, base) && Popped(t, d, base)
    ensures Finished(d, v) <==> Finished(t, v) || v in t.stack[base..]
    ensures v in t.stack[base..] ==> !Finished(t, v)
  {
    InOrAbove(t, base, v);
    if v in t.stack[base..] {
      var i :| base <= i < |t.stack| && t.stack[i] == v;
      NotGrayAbove(t, gray, base, i);
    }
  }

  lemma PopClosed(g: Graph, t: State, d: State, gray: set<nat>, base: nat)
    requires RootClosed(g, t, gray, base) && Popped(t, d, base)
    ensures Closed(g, d)
  {
    forall v: nat, w: nat | Finished(d, v) && Edge(g, v, w) ensures Finished(d, w) {
      PopFinished(g, t, d, gray, base, v);
      PopFinished(g, t, d, gray, base, w);
      if v in t.stack[base..] {
        var i :| base <= i < |t.stack| && t.stack[i] == v;
        EdgeAbove(g, t, gray, base, i, w);
      }
    }
  }

  lemma PopClassified(g: Graph, t: State, d: State, gray: set<nat>, base: nat)
    requires RootClosed(g, t, gray, base) && Popped(t, d, base)
    ensures Classified(g, d)
  {
    var u := t.stack[base];
    forall v: nat, w: nat | Finished(d, v) && Finished(d, w) ensures Scc(d, v) == Scc(d, w) <==> Mutual(g, v, w) {
      PopFinished(g, t, d, gray, base, v);
      PopFinished(g, t, d, gray, base, w);
      assert v < |g| && w < |g|;
      if v in t.stack[base..] {
        AboveReachesRoot(g, t, gray, base, v);
        if w in t.stack[base..] {
          AboveReachesRoot(g, t, gray, base, w);
          ReachTrans(g, v, u, w);
          ReachTrans(g, w, u, v);
        } else { Apart(g, t, gray, base, v, w); }
      } else if w in t.stack[base..] { Apart(g, t, gray, base, w, v); }
    }
  }

  lemma Apart(g: Graph, t: State, gray: set<nat>, base: nat, v: nat, w: nat)
    requires RootClosed(g, t, gray, base) && v in t.stack[base..] && Finished(t, w) && w < |g|
    ensures !Mutual(g, v, w) && Scc(t, w) < t.count
  {
    if Reach(g, w, v) {
      FinishedReach(g, t, w, v);
    }
  }

  lemma PopReturning(g: Graph, t: State, d: State, gray: set<nat>, base: nat)
    requires RootClosed(g, t, gray, base) && Popped(t, d, base)
    ensures Returning(g, d, gray - {t.stack[base]})
  {
    hide Reach;
    hide Covered;
    hide Closed;
    hide Numbered;
    hide Classified;
    hide NoCrossing;
    hide Ordered;
    forall y | y in d.stack ensures ReturnsTo(g, d, gray - {t.stack[base]}, y) {
      var j :| 0 <= j < base && t.stack[j] == y;
      assert y in t.stack && ReturnsTo(g, t, gray, y);
      var x :| x in gray && Idx(t, x) <= Idx(t, y) && Reach(g, y, x);
      assert Idx(t, t.stack[j]) < Idx(t, t.stack[base]);
      assert x in gray - {t.stack[base]} && Idx(d, x) <= Idx(d, y);
    }
  }

  lemma PopInv(g: Graph, t: State, d: State, gray: set<nat>, base: nat)
    requires RootClosed(g, t, gray, base) && Popped(t, d, base) && t.stack[base] in gray
    ensures Inv(g, d, gray - {t.stack[base]})
  {
    PopClosed(g, t, d, gray, base);
    PopClassified(g, t, d, gray, base);
    PopReturning(g, t, d, gray, base);
    forall v: nat
      ensures (Finished(d, v) <==> Finished(t, v) || v in t.stack[base..]) && (v in t.stack[base..] ==> !Finished(t, v))
    {
      PopFinished(g, t, d, gray, base, v);
    }
    PopRest(g, t, d, gray, base);
  }

  lemma PopRest(g: Graph, t: State, d: State, gray: set<nat>, base: nat)
    requires RootClosed(g, t, gray, base) && Popped(t, d, base) && t.stack[base] in gray
    requires forall v: nat :: Finished(d, v) <==> Finished(t, v) || v in t.stack[base..]
    ensures Sizes(g, d) && Numbered(g, d) && Covered(g, d, gray - {t.stack[base]}) && Ordered(g, d)
  {
    hide Reach;
    hide ReturnsTo;
    hide Mutual;
    assert forall v :: v in d.stack ==> v in t.stack;
    assert forall v: nat :: Idx(d, v) == Idx(t, v);
    assert forall i :: 0 <= i < |d.stack| ==> d.stack[i] == t.stack[i];
    forall v: nat | v < |g| ensures if Finished(d, v) then 0 <= Scc(d, v) < d.count else Scc(d, v) == -1 {
      assert v in t.stack[base..] ==> v in t.stack;
    }
    forall v: nat, w: nat | Seen(d, v) && v !in gray - {t.stack[base]} && Edge(g, v, w) ensures Seen(d, w) {}
    NotGrayAbove(t, gray, base, base);
  }

  lemma StayReturning(g: Graph, t: State, gray: set<nat>, u: nat, n: int)
    requires Returning(g, t, gray) && n < Idx(t, u) && LowReached(g, t, u, n)
    ensures Returning(g, t, gray - {u})
  {
    hide Reach;
    hide Idx;
    var z :| z in t.stack && Idx(t, z) == n && Reach(g, u, z);
    assert ReturnsTo(g, t, gray, z);
    var b :| b in gray && Idx(t, b) <= Idx(t, z) && Reach(g, z, b);
    forall y | y in t.stack ensures ReturnsTo(g, t, gray - {u}, y) {
      assert ReturnsTo(g, t, gray, y);
      var x :| x in gray && Idx(t, x) <= Idx(t, y) && Reach(g, y, x);
      if x == u {
        ReachTrans(g, y, u, z);
        ReachTrans(g, y, z, b);
        assert b in gray - {u};
      } else {
        assert x in gray - {u};
      }
    }
  }

  /** A vertex that is not a root stays on the stack and leaves the search path. */
  lemma StayInv(g: Graph, t: State, gray: set<nat>, base: nat, n: int)
    requires Inv(g, t, gray) && PathTo(t, gray, base) && (forall w: nat :: Edge(g, t.stack[base], w) ==> Seen(t, w))
    requires n < Idx(t, t.stack[base]) && LowReached(g, t, t.stack[base], n)
    ensures Inv(g, t, gray - {t.stack[base]})
  {
    StayReturning(g, t, gray, t.stack[base], n);
    hide Returning;
    hide Reach;
    hide LowReached;
  }
}
