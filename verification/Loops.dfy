// Natural loops: what their blocks are, how two of them can lie, and the analysis of src/ir/ir_loop.c:67-256.

module NaturalLoops {
  import opened Options
  import opened Graphs
  import opened Dominators
  import opened Dominance

  /** An edge into a block that the dominance query says dominates its source; an unreachable block can only have itself
      as latch. */
  ghost predicate BackEdge(g: Graph, e: nat, latch: nat, h: nat) { Edge(g, latch, h) && PredDominated(g, e, h, latch) }

  ghost predicate Escapes(g: Graph, h: nat, latch: nat, b: nat) { exists p :: Connects(g, p, b, latch) && h !in p }

  /** The header, and what gets to one of the latches without passing it. */
  ghost predicate InBody(g: Graph, h: nat, latches: set<nat>, b: nat) {
    b == h || exists l :: l in latches && Escapes(g, h, l, b)
  }

  ghost function Latches(g: Graph, e: nat, h: nat): set<nat>
  { set l | l in Below(|g|) && BackEdge(g, e, l, h) }

  ghost predicate InLoop(g: Graph, e: nat, h: nat, b: nat) { InBody(g, h, Latches(g, e, h), b) }

  lemma EscapesBack(g: Graph, h: nat, latch: nat, b: nat, c: nat)
    requires ValidGraph(g) && Edge(g, b, c) && b < |g| && b != h && Escapes(g, h, latch, c)
    ensures Escapes(g, h, latch, b)
  {
    var p :| Connects(g, p, c, latch) && h !in p;
    assert Connects(g, [b] + p, b, latch);
  }

  lemma EscapesSelf(g: Graph, h: nat, latch: nat)
    requires latch < |g| && latch != h
    ensures Escapes(g, h, latch, latch)
  { assert Connects(g, [latch], latch, latch); }

  /** A set that holds the latch of a path and is closed under predecessors, the header aside, holds the whole path. */
  lemma {:induction false} ClosedBackwards(g: Graph, preds: Graph, h: nat, s: set<nat>, p: seq<nat>, b: nat, latch: nat)
    requires Mirrors(g, preds) && Connects(g, p, b, latch) && h !in p && latch in s
    requires forall c: nat, q: nat :: c in s && c != h && c < |g| && q < |g| && q in preds[c] ==> q in s
    ensures b in s
    decreases |p|
  {
    if |p| > 1 {
      assert Connects(g, p[1..], p[1], latch);
      ClosedBackwards(g, preds, h, s, p[1..], p[1], latch);
      assert Edge(g, p[0], p[1]);
      assert p[1] in p;
    }
  }

  // ----- Position of loops relative to each other -----

  /** A path that ends in `b` and avoids `h` cannot start at the entry if `h` dominates `b`. */
  lemma NoWayAround(g: Graph, e: nat, h: nat, a: nat, b: nat, p: seq<nat>)
    requires Connects(g, p, a, b) && h !in p && Dom(g, e, h, b) && Reach(g, e, a)
    ensures Dom(g, e, h, a)
  {
    forall q | Connects(g, q, e, a) ensures h in q {
      Join(g, q, p, e, a, b);
      assert h in q + p[1..];
    }
  }

  lemma HeaderDominates(g: Graph, e: nat, h: nat, b: nat)
    requires InLoop(g, e, h, b) && Reach(g, e, b)
    ensures Dom(g, e, h, b)
  {
    if b != h {
      var l :| l in Latches(g, e, h) && Escapes(g, h, l, b);
      var p :| Connects(g, p, b, l) && h !in p;
      assert p[|p|-1] in p;
      NoWayAround(g, e, h, b, l, p);
    }
  }

  lemma DominatorsComparable(g: Graph, e: nat, a: nat, b: nat, c: nat)
    requires Reach(g, e, c) && Dom(g, e, a, c) && Dom(g, e, b, c)
    ensures Dom(g, e, a, b) || Dom(g, e, b, a)
  {
    if !Dom(g, e, a, b) && !Dom(g, e, b, a) {
      var p :| Connects(g, p, e, c);
      var s := {a, b};
      var from :| 0 <= from < |p| && p[from] == a;
      var k := LastIn(p, s, from);
      var x := p[k];
      var y := if x == a then b else a;
      var q :| Connects(g, q, e, x) && y !in q;
      Suffix(g, p, e, c, k);
      var rest := p[k..][1..];
      assert forall j :: 0 <= j < |rest| ==> rest[j] == p[k+1+j];
      assert y !in q + rest;
      Join(g, q, p[k..], e, x, c);
    }
  }

  /** A block between two headers: from the inner header on, it can be got to without passing the outer one. */
  lemma FromInnerHeader(g: Graph, e: nat, outer: nat, inner: nat, b: nat) returns (p: seq<nat>)
    requires Reach(g, e, b) && Reach(g, e, outer) && Dom(g, e, inner, b) && !Dom(g, e, inner, outer)
    ensures Connects(g, p, inner, b) && outer !in p
  {
    var q :| Connects(g, q, e, b);
    var from :| 0 <= from < |q| && q[from] == inner;
    var k := LastIn(q, {inner}, from);
    Suffix(g, q, e, b, k);
    p := q[k..];
    if outer in p {
      var j :| 0 <= j < |p| && p[j] == outer;
      Suffix(g, p, inner, b, j);
      var r := p[j..];
      EntryDominates(g, e, outer);
      assert j != 0;
      assert forall i :: 0 <= i < |r| ==> r[i] == q[k + j + i];
      NoWayAround(g, e, inner, outer, b, r);
    }
  }

  lemma InnerHeaderInside(g: Graph, e: nat, outer: nat, inner: nat, b: nat)
    requires Reach(g, e, b) && Reach(g, e, outer) && InLoop(g, e, outer, b) && InLoop(g, e, inner, b)
    requires outer != inner && !Dom(g, e, inner, outer)
    ensures InLoop(g, e, outer, inner)
  {
    HeaderDominates(g, e, inner, b);
    assert b != outer;
    var p := FromInnerHeader(g, e, outer, inner, b);
    var l :| l in Latches(g, e, outer) && Escapes(g, outer, l, b);
    var q :| Connects(g, q, b, l) && outer !in q;
    Join(g, p, q, inner, b, l);
    assert outer !in p + q[1..];
  }

  /** Nothing that gets around the inner loop passes the outer header. */
  lemma InnerPathAvoidsOuter(g: Graph, e: nat, outer: nat, inner: nat, l: nat, x: nat, p: seq<nat>)
    requires Reach(g, e, outer) && !Dom(g, e, inner, outer)
    requires BackEdge(g, e, l, inner) && l != inner && Connects(g, p, x, l) && inner !in p
    ensures outer !in p
  {
    if outer in p {
      var j :| 0 <= j < |p| && p[j] == outer;
      Suffix(g, p, x, l, j);
      assert forall i :: 0 <= i < |p| - j ==> p[j..][i] == p[j + i];
      NoWayAround(g, e, inner, outer, l, p[j..]);
    }
  }

  lemma InnerInside(g: Graph, e: nat, outer: nat, inner: nat, x: nat)
    requires ValidGraph(g) && Reach(g, e, outer) && outer != inner && !Dom(g, e, inner, outer)
    requires InLoop(g, e, outer, inner) && InLoop(g, e, inner, x)
    ensures InLoop(g, e, outer, x) && x != outer
  {
    if x != inner {
      var l :| l in Latches(g, e, inner) && Escapes(g, inner, l, x);
      var p :| Connects(g, p, x, l) && inner !in p;
      assert p[|p|-1] in p;
      InnerPathAvoidsOuter(g, e, outer, inner, l, x, p);
      assert p[0] in p;
      var m :| m in Latches(g, e, outer) && Escapes(g, outer, m, inner);
      var q :| Connects(g, q, inner, m) && outer !in q;
      Extend(g, p, x, l, inner);
      Join(g, p + [inner], q, x, inner, m);
      assert outer !in (p + [inner]) + q[1..];
    }
  }

  /** Two loops with different reachable headers that share a reachable block: one lies strictly inside the other. */
  lemma Nested(g: Graph, e: nat, h1: nat, h2: nat, b: nat)
    requires ValidGraph(g) && h1 != h2 && Reach(g, e, h1) && Reach(g, e, h2) && Reach(g, e, b)
    requires InLoop(g, e, h1, b) && InLoop(g, e, h2, b)
    ensures StrictlyInside(g, e, h1, h2) || StrictlyInside(g, e, h2, h1)
  {
    HeaderDominates(g, e, h1, b);
    HeaderDominates(g, e, h2, b);
    DominatorsComparable(g, e, h1, h2, b);
    var outer, inner := if Dom(g, e, h1, h2) then h1 else h2, if Dom(g, e, h1, h2) then h2 else h1;
    if Dom(g, e, inner, outer) { DomAntisymmetric(g, e, inner, outer); }
    InnerHeaderInside(g, e, outer, inner, b);
    forall x | InLoop(g, e, inner, x)
      ensures InLoop(g, e, outer, x) && x != outer
    {
      InnerInside(g, e, outer, inner, x);
    }
    assert InLoop(g, e, outer, outer);
    assert StrictlyInside(g, e, inner, outer);
  }

  ghost predicate StrictlyInside(g: Graph, e: nat, inner: nat, outer: nat) {
    && (forall x: nat :: InLoop(g, e, inner, x) ==> InLoop(g, e, outer, x))
    && exists x: nat :: InLoop(g, e, outer, x) && !InLoop(g, e, inner, x)
  }

  /** A loop whose header cannot be reached is that block alone. */
  lemma UnreachableHeader(g: Graph, e: nat, h: nat, b: nat)
    requires !Reach(g, e, h) && ValidGraph(g) && InLoop(g, e, h, b)
    ensures b == h
  {
    if b != h {
      var l :| l in Latches(g, e, h) && Escapes(g, h, l, b);
      var p :| Connects(g, p, b, l) && h !in p;
      assert p[|p|-1] in p && l != h;
      ReachStep(g, e, l, h);
    }
  }
}

module LoopAnalysis {
  import opened Options
  import opened Graphs
  import opened Dominators
  import opened Dominance
  import opened NaturalLoops

  /** One natural loop (`IrLoop`); parent and children are positions in the list of loops. */
  datatype Loop = Loop(header: nat, latches: seq<nat>, blocks: seq<nat>, parent: Option<nat>, children: seq<nat>,
    depth: nat)

  function Added(s: seq<nat>, x: nat): seq<nat> { if x in s then s else s + [x] }

  ghost predicate BodyExact(g: Graph, h: nat, latches: seq<nat>, blocks: seq<nat>) {
    NoDup(blocks) && forall b: nat :: b in blocks <==> b < |g| && InBody(g, h, Elems(latches), b)
  }

  /** The worklist at work: everything found belongs, and only what is still queued may have unseen predecessors. */
  ghost predicate Growing(g: Graph, preds: Graph, h: nat, latches: seq<nat>, blocks: seq<nat>, queue: seq<nat>,
      head: nat) {
    && head <= |queue| && NoDup(blocks) && NoDup(queue) && h in blocks && h !in queue
    && (forall b: nat :: b in blocks ==> b < |g| && InBody(g, h, Elems(latches), b))
    && (forall b :: b in queue ==> b in blocks) && (forall l: nat :: l in latches ==> l in blocks)
    && (forall b: nat, q: nat :: b in blocks && b != h && b !in queue[head..] && q in PredsOf(preds, b) ==> q in blocks)
  }

  function PredsOf(preds: Graph, b: nat): seq<nat> { if b < |preds| then preds[b] else [] }

  lemma BodyMonotone(g: Graph, h: nat, a: set<nat>, b: set<nat>, x: nat)
    requires a <= b && InBody(g, h, a, x)
    ensures InBody(g, h, b, x)
  {}

  lemma StartGrowing(g: Graph, preds: Graph, h: nat, latches: seq<nat>, blocks: seq<nat>, latch: nat)
    requires ValidGraph(g) && ValidGraph(preds) && Mirrors(g, preds) && BodyExact(g, h, latches, blocks)
    requires h < |g| && latch < |g| && latch != h && forall l :: l in latches ==> l < |g|
    ensures Growing(g, preds, h, Added(latches, latch), Added(blocks, latch), [latch], 0)
  {
    var now, all := Added(latches, latch), Added(blocks, latch);
    EscapesSelf(g, h, latch);
    assert latch in Elems(now);
    forall b: nat | b in all ensures b < |g| && InBody(g, h, Elems(now), b) {
      if b in blocks { BodyMonotone(g, h, Elems(latches), Elems(now), b); }
    }
    forall l: nat | l in now ensures l in all { if l != h && l in latches { EscapesSelf(g, h, l); } }
    forall b: nat, q: nat | b in all && b != h && b !in [latch][0..] && q in PredsOf(preds, b) ensures q in all {
      assert [latch][0..] == [latch];
      if q != h {
        var l :| l in Elems(latches) && Escapes(g, h, l, b);
        EscapesBack(g, h, l, q, b);
      }
    }
  }

  lemma PredInBody(g: Graph, preds: Graph, h: nat, latches: set<nat>, curr: nat, q: nat)
    requires ValidGraph(g) && ValidGraph(preds) && Mirrors(g, preds) && curr < |g| && q in preds[curr]
    requires curr != h && InBody(g, h, latches, curr)
    ensures q < |g| && InBody(g, h, latches, q)
  {
    assert Edge(g, q, curr);
    var l :| l in latches && Escapes(g, h, l, curr);
    if q != h { EscapesBack(g, h, l, q, curr); }
  }

  lemma PushBlock(g: Graph, preds: Graph, h: nat, latches: seq<nat>, blocks: seq<nat>, queue: seq<nat>, head: nat,
      curr: nat, q: nat)
    requires ValidGraph(g) && ValidGraph(preds) && Mirrors(g, preds)
      && Growing(g, preds, h, latches, blocks, queue, head)
    requires curr in queue && curr < |g| && q in preds[curr] && q !in blocks
    ensures Growing(g, preds, h, latches, blocks + [q], if q == h then queue else queue + [q], head)
  {
    hide InBody;
    hide ValidGraph;
    hide Mirrors;
    hide Elems;
    PredInBody(g, preds, h, Elems(latches), curr, q);
    assert (queue + [q])[head..] == queue[head..] + [q];
  }

  lemma GrownIsExact(g: Graph, preds: Graph, h: nat, latches: seq<nat>, blocks: seq<nat>, queue: seq<nat>)
    requires ValidGraph(g) && ValidGraph(preds) && Mirrors(g, preds) && h < |g|
    requires Growing(g, preds, h, latches, blocks, queue, |queue|)
    ensures BodyExact(g, h, latches, blocks)
  {
    assert queue[|queue|..] == [];
    forall b: nat | b < |g| && InBody(g, h, Elems(latches), b) ensures b in blocks {
      if b != h {
        var l :| l in Elems(latches) && Escapes(g, h, l, b);
        var p :| Connects(g, p, b, l) && h !in p;
        forall c: nat, q: nat | c in Elems(blocks) && c != h && c < |g| && q < |g| && q in preds[c]
          ensures q in Elems(blocks)
        {
          assert q in PredsOf(preds, c);
        }
        ClosedBackwards(g, preds, h, Elems(blocks), p, b, l);
      }
    }
  }

  lemma HeaderLatch(g: Graph, h: nat, latches: seq<nat>, blocks: seq<nat>)
    requires BodyExact(g, h, latches, blocks)
    ensures BodyExact(g, h, Added(latches, h), blocks)
  {
    forall b: nat ensures InBody(g, h, Elems(Added(latches, h)), b) <==> InBody(g, h, Elems(latches), b) {
      if b != h && InBody(g, h, Elems(Added(latches, h)), b) {
        var l :| l in Elems(Added(latches, h)) && Escapes(g, h, l, b);
        var p :| Connects(g, p, b, l) && h !in p;
        assert p[|p|-1] in p;
      }
    }
  }

  /** The loops made from some of the back edges: one for each header, with all its latches and exactly its blocks. */
  ghost predicate Grouped(g: Graph, loops: seq<Loop>, edges: seq<(nat, nat)>) {
    && (forall i, j :: 0 <= i < j < |loops| ==> loops[i].header != loops[j].header)
    && (forall i :: 0 <= i < |loops| ==> LoopExact(g, loops[i], edges))
    && (forall x :: x in edges ==> exists i :: 0 <= i < |loops| && loops[i].header == x.1)
  }

  ghost predicate LoopExact(g: Graph, loop: Loop, edges: seq<(nat, nat)>) {
    && loop.header < |g| && loop.parent == None && loop.children == [] && loop.depth == 1
    && loop.latches != [] && NoDup(loop.latches) && BodyExact(g, loop.header, loop.latches, loop.blocks)
    && (forall l: nat :: l in loop.latches <==> (l, loop.header) in edges)
  }

  lemma GroupedNext(g: Graph, loops: seq<Loop>, edges: seq<(nat, nat)>, l: nat, loop: Loop, latch: nat, h: nat)
    requires Grouped(g, loops, edges) && l < |loops| && loops[l].header == h
    requires loop == loops[l].(latches := Added(loops[l].latches, latch), blocks := loop.blocks)
    requires BodyExact(g, h, loop.latches, loop.blocks)
    ensures Grouped(g, loops[l := loop], edges + [(latch, h)])
  {
    hide BodyExact;
    var now, more := loops[l := loop], edges + [(latch, h)];
    forall i | 0 <= i < |now| ensures LoopExact(g, now[i], more) { assert LoopExact(g, loops[i], edges); }
    forall x | x in more ensures exists i :: 0 <= i < |now| && now[i].header == x.1 {
      if x in edges { var i :| 0 <= i < |loops| && loops[i].header == x.1; assert now[i].header == x.1; }
      else { assert now[l].header == x.1; }
    }
  }

  lemma GroupedNew(g: Graph, loops: seq<Loop>, edges: seq<(nat, nat)>, loop: Loop, latch: nat, h: nat)
    requires Grouped(g, loops, edges) && h < |g| && forall i :: 0 <= i < |loops| ==> loops[i].header != h
    requires loop == Loop(h, [latch], loop.blocks, None, [], 1) && BodyExact(g, h, [latch], loop.blocks)
    ensures Grouped(g, loops + [loop], edges + [(latch, h)])
  {
    hide BodyExact;
    var now, more := loops + [loop], edges + [(latch, h)];
    forall x | x in edges ensures x.1 != h { var j :| 0 <= j < |loops| && loops[j].header == x.1; }
    assert forall l: nat :: (l, h) in edges ==> (l, h).1 == h;
    forall i | 0 <= i < |now| ensures LoopExact(g, now[i], more) {
      if i < |loops| { assert LoopExact(g, loops[i], edges); }
    }
    forall x | x in more ensures exists i :: 0 <= i < |now| && now[i].header == x.1 {
      if x in edges { var i :| 0 <= i < |loops| && loops[i].header == x.1; assert now[i].header == x.1; }
      else { assert now[|loops|].header == x.1; }
    }
  }

  lemma NewBody(g: Graph, h: nat)
    requires h < |g|
    ensures BodyExact(g, h, [], [h])
  {}

  // ----- Nesting -----

  /** The list holds exactly the natural loops of the graph, one for each header with a back edge. */
  ghost predicate LoopsRight(g: Graph, e: nat, loops: seq<Loop>) {
    && (forall i, j :: 0 <= i < j < |loops| ==> loops[i].header != loops[j].header)
    && (forall i :: 0 <= i < |loops| ==> LoopRight(g, e, loops[i]))
    && (forall l: nat, h: nat ::
      l < |g| && BackEdge(g, e, l, h) ==> exists i :: 0 <= i < |loops| && loops[i].header == h)
  }

  ghost predicate LoopRight(g: Graph, e: nat, loop: Loop) {
    && loop.header < |g| && Elems(loop.latches) == Latches(g, e, loop.header) && loop.latches != []
    && NoDup(loop.latches) && NoDup(loop.blocks)
    && (forall b: nat :: b in loop.blocks <==> b < |g| && InLoop(g, e, loop.header, b))
  }

  lemma GroupedIsRight(g: Graph, e: nat, loops: seq<Loop>, edges: seq<(nat, nat)>)
    requires ValidGraph(g) && Grouped(g, loops, edges)
    requires forall l: nat, h: nat :: (l, h) in edges <==> l < |g| && BackEdge(g, e, l, h)
    ensures LoopsRight(g, e, loops)
  {
    hide BackEdge;
    hide InBody;
    forall i | 0 <= i < |loops| ensures LoopRight(g, e, loops[i]) {
      assert LoopExact(g, loops[i], edges);
      var h := loops[i].header;
      forall l: nat
        ensures l in loops[i].latches <==> l in Latches(g, e, h)
      {
        assert (l, h) in edges <==> l in loops[i].latches;
      }
      assert Elems(loops[i].latches) == Latches(g, e, h);
    }
    forall l: nat, h: nat | l < |g| && BackEdge(g, e, l, h)
      ensures exists i :: 0 <= i < |loops| && loops[i].header == h
    {
      assert (l, h) in edges;
      var i :| 0 <= i < |loops| && loops[i].header == (l, h).1;
    }
  }

  /** The blocks of loop `i` are some, but not all, of the blocks of loop `j`. */
  ghost predicate Inside(loops: seq<Loop>, i: nat, j: nat) {
    i < |loops| && j < |loops| && Elems(loops[i].blocks) < Elems(loops[j].blocks)
  }

  lemma InsideSize(loops: seq<Loop>, i: nat, j: nat)
    requires i < |loops| && j < |loops| && NoDup(loops[i].blocks) && NoDup(loops[j].blocks)
    ensures Inside(loops, i, j) ==> |loops[i].blocks| < |loops[j].blocks|
    ensures Elems(loops[i].blocks) <= Elems(loops[j].blocks) && |loops[i].blocks| < |loops[j].blocks| ==>
      Inside(loops, i, j)
  {
    NoDupSize(loops[i].blocks);
    NoDupSize(loops[j].blocks);
    var a, b := Elems(loops[i].blocks), Elems(loops[j].blocks);
    assert a <= b && b <= a ==> a == b;
    if Inside(loops, i, j) {
      var x :| x in Elems(loops[j].blocks) && x !in Elems(loops[i].blocks);
      SubsetSize(Elems(loops[i].blocks) + {x}, Elems(loops[j].blocks));
    }
  }

  /** The parent is a smallest loop around, if there is one. */
  ghost predicate ParentRight(loops: seq<Loop>, i: nat)
    requires i < |loops|
  {
    match loops[i].parent
    case None => forall j: nat :: !Inside(loops, i, j)
    case Some(p) =>
      Inside(loops, i, p) && forall j: nat :: Inside(loops, i, j) ==> |loops[p].blocks| <= |loops[j].blocks|
  }

  /** The children of loop `p` are those among the first `n` loops whose parent it is. */
  ghost predicate ChildrenRight(loops: seq<Loop>, p: nat, n: nat)
    requires p < |loops|
  { NoDup(loops[p].children) && forall c: nat ::
    c in loops[p].children <==> c < n && c < |loops| && loops[c].parent == Some(p) }

  ghost predicate Forest(loops: seq<Loop>) {
    && (forall i: nat :: i < |loops| ==> NoDup(loops[i].blocks) && ParentRight(loops, i))
    && (forall p: nat :: p < |loops| ==> ChildrenRight(loops, p, |loops|))
  }

  ghost function Enclosing(loops: seq<Loop>, i: nat): set<nat> { set j | j in Below(|loops|) && Inside(loops, i, j) }

  /** Number of loops on the way up from loop `i`, itself included. */
  ghost function ChainLength(loops: seq<Loop>, limit: nat, i: nat): nat
    requires Forest(loops) && i < |loops| && forall k: nat :: k < |loops| ==> |loops[k].blocks| <= limit
    decreases limit - |loops[i].blocks|
  {
    if loops[i].parent.None? then 1
    else
      assert ParentRight(loops, i);
      InsideSize(loops, i, loops[i].parent.value);
      1 + ChainLength(loops, limit, loops[i].parent.value)
  }

  /** Loops that share a reachable block lie one strictly inside the other. */
  lemma SharedBlock(g: Graph, e: nat, loops: seq<Loop>, i: nat, j: nat, b: nat)
    requires ValidGraph(g) && LoopsRight(g, e, loops) && i < |loops| && j < |loops| && i != j
    requires Reach(g, e, b) && b in loops[i].blocks && b in loops[j].blocks
    ensures Inside(loops, i, j) || Inside(loops, j, i)
  {
    hide InLoop;
    var h1, h2 := loops[i].header, loops[j].header;
    assert LoopRight(g, e, loops[i]) && LoopRight(g, e, loops[j]);
    assert h1 != h2 by { if i < j { assert loops[i].header != loops[j].header; }
      else { assert loops[j].header != loops[i].header; } }
    if !Reach(g, e, h1) { UnreachableHeader(g, e, h1, b); }
    if !Reach(g, e, h2) { UnreachableHeader(g, e, h2, b); }
    Nested(g, e, h1, h2, b);
    InLoopBound(g, e);
    if StrictlyInside(g, e, h1, h2) { StrictInside(g, e, loops, i, j); } else { StrictInside(g, e, loops, j, i); }
  }

  lemma InLoopBound(g: Graph, e: nat)
    ensures forall h: nat, b: nat :: h < |g| && InLoop(g, e, h, b) ==> b < |g|
  {
    forall h: nat, b: nat | h < |g| && InLoop(g, e, h, b) ensures b < |g| {
      if b != h {
        var l :| l in Latches(g, e, h) && Escapes(g, h, l, b);
        var p :| Connects(g, p, b, l) && h !in p;
      }
    }
  }

  lemma StrictInside(g: Graph, e: nat, loops: seq<Loop>, i: nat, j: nat)
    requires LoopsRight(g, e, loops) && i < |loops| && j < |loops|
      && StrictlyInside(g, e, loops[i].header, loops[j].header)
    requires forall h: nat, b: nat :: h < |g| && InLoop(g, e, h, b) ==> b < |g|
    ensures Inside(loops, i, j)
  {
    hide InLoop;
    assert LoopRight(g, e, loops[i]) && LoopRight(g, e, loops[j]);
    var x: nat :| InLoop(g, e, loops[j].header, x) && !InLoop(g, e, loops[i].header, x);
    assert x in Elems(loops[j].blocks) && x !in Elems(loops[i].blocks);
    assert Elems(loops[i].blocks) <= Elems(loops[j].blocks);
  }

  lemma HeaderInside(g: Graph, e: nat, loops: seq<Loop>, i: nat)
    requires LoopsRight(g, e, loops) && i < |loops|
    ensures loops[i].header in loops[i].blocks
  { assert LoopRight(g, e, loops[i]); }

  /** The loops around a loop with a reachable header are its parent and the loops around that. */
  lemma EnclosingStep(g: Graph, e: nat, loops: seq<Loop>, i: nat, p: nat)
    requires ValidGraph(g) && LoopsRight(g, e, loops) && Forest(loops) && i < |loops| && Reach(g, e, loops[i].header)
    requires loops[i].parent == Some(p)
    ensures p < |loops| && Enclosing(loops, i) == Enclosing(loops, p) + {p} && p !in Enclosing(loops, p)
    ensures Reach(g, e, loops[p].header)
  {
    hide LoopRight;
    assert ParentRight(loops, i);
    var b := loops[i].header;
    HeaderInside(g, e, loops, i);
    assert b in Elems(loops[i].blocks);
    forall j: nat | Inside(loops, i, j) && j != p ensures Inside(loops, p, j) {
      SharedBlock(g, e, loops, p, j, b);
      InsideSize(loops, j, p);
    }
    ReachableHeader(g, e, loops, p, b);
    assert Enclosing(loops, i) == Enclosing(loops, p) + {p};
  }

  lemma ReachableHeader(g: Graph, e: nat, loops: seq<Loop>, p: nat, b: nat)
    requires ValidGraph(g) && LoopsRight(g, e, loops) && p < |loops| && Reach(g, e, b) && b in loops[p].blocks
    ensures Reach(g, e, loops[p].header)
  {
    assert LoopRight(g, e, loops[p]);
    if !Reach(g, e, loops[p].header) { UnreachableHeader(g, e, loops[p].header, b); }
  }

  /** The depth of a loop with a reachable header is one more than the number of loops around it. */
  lemma {:induction false} ChainCounts(g: Graph, e: nat, loops: seq<Loop>, limit: nat, i: nat)
    requires ValidGraph(g) && LoopsRight(g, e, loops) && Forest(loops) && i < |loops| && Reach(g, e, loops[i].header)
    requires forall k: nat :: k < |loops| ==> |loops[k].blocks| <= limit
    ensures ChainLength(loops, limit, i) == 1 + |Enclosing(loops, i)|
    decreases limit - |loops[i].blocks|
  {
    hide LoopsRight;
    hide Inside;
    assert ParentRight(loops, i);
    if loops[i].parent.None? { assert Enclosing(loops, i) == {}; }
    else {
      var p := loops[i].parent.value;
      EnclosingStep(g, e, loops, i, p);
      InsideSize(loops, i, p);
      ChainCounts(g, e, loops, limit, p);
    }
  }

  /** A loop strictly inside another is deeper. */
  lemma InnerIsDeeper(loops: seq<Loop>, i: nat, j: nat)
    requires Inside(loops, i, j)
    ensures |Enclosing(loops, i)| > |Enclosing(loops, j)|
  {
    assert j !in Enclosing(loops, j);
    SubsetSize(Enclosing(loops, j) + {j}, Enclosing(loops, i));
  }

  class LoopInfo {
    var loops: seq<Loop>

    /** `ir_loop_contains`. */
    method Contains(l: nat, b: nat) returns (found: bool)
      requires l < |loops|
      ensures found <==> b in loops[l].blocks
    {
      for i := 0 to |loops[l].blocks|
        invariant b !in loops[l].blocks[..i]
      {
        if loops[l].blocks[i] == b { return true; }
      }
      assert loops[l].blocks[..|loops[l].blocks|] == loops[l].blocks;
      return false;
    }

    method AddBlock(l: nat, b: nat)
      requires l < |loops|
      modifies this
      ensures loops == old(loops)[l := old(loops)[l].(blocks := Added(old(loops)[l].blocks, b))]
    {
      var found := Contains(l, b);
      if !found { loops := loops[l := loops[l].(blocks := loops[l].blocks + [b])]; }
    }

    method AddLatch(l: nat, latch: nat)
      requires l < |loops|
      modifies this
      ensures loops == old(loops)[l := old(loops)[l].(latches := Added(old(loops)[l].latches, latch))]
    {
      for i := 0 to |loops[l].latches|
        invariant loops == old(loops) && latch !in loops[l].latches[..i]
      {
        if loops[l].latches[i] == latch { return; }
      }
      assert loops[l].latches[..|loops[l].latches|] == loops[l].latches;
      loops := loops[l := loops[l].(latches := loops[l].latches + [latch])];
    }

    /** Adds the predecessors of one block of the worklist. */
    method AddPreds(dom: DomInfo, l: nat, queue: seq<nat>, head: nat,
        ghost latches: seq<nat>) returns (longer: seq<nat>)
      requires dom.Shape() && l < |loops| && head < |queue|
      requires Growing(dom.succs, dom.preds, loops[l].header, latches, loops[l].blocks, queue, head)
      modifies this
      ensures BlocksGrew(old(loops), loops, l) && |longer| >= |queue|
      ensures Growing(dom.succs, dom.preds, loops[l].header, latches, loops[l].blocks, longer, head + 1)
    {
      hide Growing;
      hide ValidGraph;
      hide Mirrors;
      hide Added;
      longer := queue;
      var curr, h := queue[head], loops[l].header;
      QueueFits(dom.succs, dom.preds, h, latches, loops[l].blocks, queue, head);
      assert curr in queue;
      for p := 0 to |dom.preds[curr]|
        invariant BlocksGrew(old(loops), loops, l) && |queue| <= |longer| && longer[head] == curr
        invariant Growing(dom.succs, dom.preds, h, latches, loops[l].blocks, longer, head)
        invariant forall k :: 0 <= k < p ==> dom.preds[curr][k] in loops[l].blocks
      {
        var pred := dom.preds[curr][p];
        var found := Contains(l, pred);
        if !found {
          PushBlock(dom.succs, dom.preds, h, latches, loops[l].blocks, longer, head, curr, pred);
          ghost var was := loops[l].blocks;
          AddBlock(l, pred);
          assert loops[l].blocks == was + [pred] by { AddedNew(was, pred); }
          if pred != h { longer := longer + [pred]; }
        }
      }
      PopBlock(dom.succs, dom.preds, h, latches, loops[l].blocks, longer, head);
    }

    /** The backward worklist from one latch. It never holds the header nor a block twice, so it never outgrows the
        function. */
    method Collect(dom: DomInfo, l: nat, latch: nat, ghost before: Loop)
      requires dom.Shape() && l < |loops| && latch < |dom.succs| && before.header < |dom.succs|
        && latch != before.header
      requires BodyExact(dom.succs, before.header, before.latches, before.blocks) && forall x ::
        x in before.latches ==> x < |dom.succs|
      requires loops[l] == before.(latches := Added(before.latches, latch), blocks := Added(before.blocks, latch))
      modifies this
      ensures BlocksGrew(old(loops), loops, l)
      ensures BodyExact(dom.succs, before.header, Added(before.latches, latch), loops[l].blocks)
    {
      hide Growing;
      hide BodyExact;
      hide Added;
      var h := loops[l].header;
      ghost var latches := Added(before.latches, latch);
      StartGrowing(dom.succs, dom.preds, h, before.latches, before.blocks, latch);
      var queue, head := [latch], 0;
      while head < |queue|
        invariant BlocksGrew(old(loops), loops, l) && head <= |queue|
        invariant Growing(dom.succs, dom.preds, h, latches, loops[l].blocks, queue, head)
        decreases |dom.succs| - head
      {
        QueueFits(dom.succs, dom.preds, h, latches, loops[l].blocks, queue, head);
        queue := AddPreds(dom, l, queue, head, latches);
        head := head + 1;
      }
      GrownIsExact(dom.succs, dom.preds, h, latches, loops[l].blocks, queue);
    }

    /** The edges from a block to one that dominates it. */
    method FindBackEdges(dom: DomInfo) returns (edges: seq<(nat, nat)>)
      requires dom.TablesRight()
      ensures forall l: nat, h: nat :: (l, h) in edges <==> l < |dom.succs| && BackEdge(dom.succs, dom.entry, l, h)
    {
      hide PredDominated;
      edges := [];
      for b := 0 to |dom.succs|
        invariant forall l: nat, h: nat :: (l, h) in edges <==> l < b && BackEdge(dom.succs, dom.entry, l, h)
      {
        for s := 0 to |dom.succs[b]|
          invariant forall l: nat, h: nat :: (l, h) in edges <==>
            BackEdge(dom.succs, dom.entry, l, h) && (l < b || (l == b && h in dom.succs[b][..s]))
        {
          var succ := dom.succs[b][s];
          var back := dom.Dominates(succ, b);
          QueryIsBackEdge(dom.succs, dom.entry, succ, b);
          if back { edges := edges + [(b, succ)]; }
          assert dom.succs[b][..s+1] == dom.succs[b][..s] + [succ];
        }
        assert dom.succs[b][..|dom.succs[b]|] == dom.succs[b];
      }
    }

    method FindHeader(h: nat) returns (l: Option<nat>)
      ensures l.Some? ==> l.value < |loops| && loops[l.value].header == h
      ensures l.None? ==> forall i :: 0 <= i < |loops| ==> loops[i].header != h
    {
      for i := 0 to |loops|
        invariant forall k :: 0 <= k < i ==> loops[k].header != h
      {
        if loops[i].header == h { return Some(i); }
      }
      return None;
    }

    /** One back edge: into the loop of its header, made when it is the first. */
    method AddBackEdge(dom: DomInfo, latch: nat, h: nat, ghost edges: seq<(nat, nat)>)
      requires dom.Shape() && latch < |dom.succs| && h < |dom.succs|
      requires Grouped(dom.succs, loops, edges) && forall x :: x in edges ==> x.0 < |dom.succs|
      modifies this
      ensures Grouped(dom.succs, loops, edges + [(latch, h)])
    {
      hide Grouped;
      hide LoopExact;
      hide BodyExact;
      var found := FindHeader(h);
      NewBody(dom.succs, h);
      ghost var before := Loop(h, [], [h], None, [], 1);
      ghost var was := loops;
      var l := |loops|;
      if found.Some? {
        l := found.value;
        before := loops[l];
        GroupedFacts(dom.succs, loops, edges, l);
      } else {
        loops := loops + [Loop(h, [], [h], None, [], 1)];
      }
      ghost var with := loops;
      AddLatch(l, latch);
      AddBlock(l, latch);
      if latch != h { Collect(dom, l, latch, before); }
      else {
        HeaderLatch(dom.succs, h, before.latches, before.blocks);
        HeaderHeld(dom.succs, h, before.latches, before.blocks);
      }
      if found.Some? {
        GroupedNext(dom.succs, was, edges, l, loops[l], latch, h);
        assert loops == was[l := loops[l]];
      } else {
        assert Added([], latch) == [latch];
        GroupedNew(dom.succs, was, edges, loops[l], latch, h);
        assert loops == was + [loops[l]];
      }
    }

    /** All back edges, grouped by header. */
    method Detect(dom: DomInfo)
      requires dom.TablesRight()
      modifies this
      ensures LoopsRight(dom.succs, dom.entry, loops)
      ensures forall i :: 0 <= i < |loops| ==> loops[i].parent == None && loops[i].children == []
    {
      hide BackEdge;
      hide LoopExact;
      hide LoopRight;
      loops := [];
      var edges := FindBackEdges(dom);
      EdgeTargets(dom.succs, dom.entry);
      for k := 0 to |edges|
        invariant Grouped(dom.succs, loops, edges[..k])
      {
        assert edges[k] in edges && edges[k] == (edges[k].0, edges[k].1);
        assert edges[..k+1] == edges[..k] + [(edges[k].0, edges[k].1)];
        forall x | x in edges[..k] ensures x.0 < |dom.succs| { assert (x.0, x.1) in edges; }
        AddBackEdge(dom, edges[k].0, edges[k].1, edges[..k]);
      }
      assert edges[..|edges|] == edges;
      GroupedIsRight(dom.succs, dom.entry, loops, edges);
      forall i | 0 <= i < |loops|
        ensures loops[i].parent == None && loops[i].children == []
      {
        LoopStarts(dom.succs, loops[i], edges);
      }
    }

    /** Whether loop `sub` has fewer blocks than loop `cand`, all of them blocks of `cand`. */
    method LiesInside(sub: nat, cand: nat) returns (yes: bool)
      requires sub < |loops| && cand < |loops| && NoDup(loops[sub].blocks) && NoDup(loops[cand].blocks)
      ensures yes <==> Inside(loops, sub, cand)
    {
      InsideSize(loops, sub, cand);
      if |loops[sub].blocks| >= |loops[cand].blocks| { return false; }
      for b := 0 to |loops[sub].blocks|
        invariant forall k :: 0 <= k < b ==> loops[sub].blocks[k] in loops[cand].blocks
      {
        var found := Contains(cand, loops[sub].blocks[b]);
        if !found {
          assert loops[sub].blocks[b] in Elems(loops[sub].blocks);
          return false;
        }
      }
      return true;
    }

    method FindParent(i: nat) returns (best: Option<nat>)
      requires i < |loops| && forall k :: 0 <= k < |loops| ==> NoDup(loops[k].blocks)
      ensures ParentRight(loops[i := loops[i].(parent := best)], i)
    {
      best := None;
      for j := 0 to |loops|
        invariant best.None? ==> forall k: nat :: k < j ==> !Inside(loops, i, k)
        invariant best.Some? ==> best.value < |loops| && Inside(loops, i, best.value)
        invariant best.Some? ==>
          forall k: nat :: k < j && Inside(loops, i, k) ==> |loops[best.value].blocks| <= |loops[k].blocks|
      {
        if i != j {
          var yes := LiesInside(i, j);
          if yes && (best.None? || |loops[j].blocks| < |loops[best.value].blocks|) { best := Some(j); }
        }
      }
      ghost var now := loops[i := loops[i].(parent := best)];
      forall j: nat ensures Inside(now, i, j) <==> Inside(loops, i, j) {}
    }

    /** Parent and child links. */
    method Nest()
      requires forall i ::
        0 <= i < |loops| ==> loops[i].parent == None && loops[i].children == [] && NoDup(loops[i].blocks)
      modifies this
      ensures Forest(loops) && Relinked(old(loops), loops)
    {
      hide ParentRight;
      for i := 0 to |loops|
        invariant Relinked(old(loops), loops) && NestedUpTo(loops, i)
      {
        var best := FindParent(i);
        ghost var was := loops;
        loops := loops[i := loops[i].(parent := best)];
        if best.Some? {
          LinkBound(loops, i);
          loops := loops[best.value := loops[best.value].(children := loops[best.value].children + [i])];
        }
        NestStep(was, i, best, loops);
      }
    }

    ghost predicate Bounded(limit: nat)
      reads this
    { forall k: nat :: k < |loops| ==> |loops[k].blocks| <= limit }

    method CountUp(i: nat, ghost limit: nat) returns (d: nat)
      requires i < |loops| && Forest(loops) && Bounded(limit)
      ensures d == ChainLength(loops, limit, i)
    {
      d := 1;
      var p := loops[i].parent;
      ghost var at: nat := i;
      while p.Some?
        invariant at < |loops| && p == loops[at].parent
          && d - 1 + ChainLength(loops, limit, at) == ChainLength(loops, limit, i)
        decreases limit - |loops[at].blocks|
      {
        assert ParentRight(loops, at);
        InsideSize(loops, at, p.value);
        d := d + 1;
        at := p.value;
        p := loops[p.value].parent;
      }
    }

    method SetDepths(ghost limit: nat)
      requires Forest(loops) && Bounded(limit)
      modifies this
      ensures Relinked(old(loops), loops) && Forest(loops) && Bounded(limit)
      ensures forall i: nat :: i < |loops| ==> loops[i].depth == ChainLength(loops, limit, i)
    {
      hide Forest;
      for i := 0 to |loops|
        invariant |loops| == |old(loops)| && Redepthed(old(loops), loops) && Forest(loops) && Bounded(limit)
        invariant forall k: nat :: k < i ==> loops[k].depth == ChainLength(loops, limit, k)
      {
        var d := CountUp(i, limit);
        ghost var was := loops;
        loops := loops[i := loops[i].(depth := d)];
        DepthOnly(was, loops, limit);
      }
    }

    /** What a finished analysis of the graph says: the loops, their nesting, and how deep they are. */
    ghost predicate Valid(g: Graph, e: nat)
      reads this
    {
      && ValidGraph(g) && LoopsRight(g, e, loops) && Forest(loops) && Bounded(|g|)
      && forall i: nat :: i < |loops| ==> loops[i].depth == ChainLength(loops, |g|, i)
    }

    /** `ir_loop_analysis_compute`. */
    constructor (dom: DomInfo)
      requires dom.TablesRight()
      ensures Valid(dom.succs, dom.entry)
    {
      loops := [];
      new;
      hide LoopsRight;
      hide Forest;
      Detect(dom);
      RightLists(dom.succs, dom.entry, loops);
      ghost var found := loops;
      Nest();
      RelinkedRight(dom.succs, dom.entry, found, loops);
      ghost var linked := loops;
      SetDepths(|dom.succs|);
      RelinkedRight(dom.succs, dom.entry, linked, loops);
    }

    /** `ir_loop_for_block`: the innermost loop around a reachable block, the one inside all others that hold it. */
    method ForBlock(b: nat, ghost g: Graph, ghost e: nat) returns (best: Option<nat>)
      requires Valid(g, e)
      ensures best.None? <==> forall i :: 0 <= i < |loops| ==> b !in loops[i].blocks
      ensures best.Some? ==> best.value < |loops| && b in loops[best.value].blocks
      ensures best.Some? && Reach(g, e, b) ==>
        forall i: nat :: i < |loops| && i != best.value && b in loops[i].blocks ==> Inside(loops, best.value, i)
    {
      hide LoopsRight;
      hide Forest;
      hide Reach;
      best := None;
      for i := 0 to |loops|
        invariant best.None? ==> forall k :: 0 <= k < i ==> b !in loops[k].blocks
        invariant best.Some? ==> best.value < |loops| && b in loops[best.value].blocks
        invariant best.Some? ==>
          forall k :: 0 <= k < i && b in loops[k].blocks ==> loops[k].depth <= loops[best.value].depth
      {
        var found := Contains(i, b);
        if found && (best.None? || loops[i].depth > loops[best.value].depth) { best := Some(i); }
      }
      if best.Some? && Reach(g, e, b) {
        forall i: nat | i < |loops| && i != best.value && b in loops[i].blocks ensures Inside(loops, best.value, i) {
          DeepestIsInside(g, e, loops, |g|, best.value, i, b);
        }
      }
    }

    /** `ir_loop_depth`: the number of loops that hold a reachable block. */
    method BlockDepth(b: nat, ghost g: Graph, ghost e: nat) returns (d: nat)
      requires Valid(g, e)
      ensures Reach(g, e, b) ==> d == |Holding(loops, b)|
    {
      hide LoopsRight;
      hide Forest;
      var l := ForBlock(b, g, e);
      if l.None? {
        assert Holding(loops, b) == {};
        return 0;
      }
      if Reach(g, e, b) {
        ReachableHeader(g, e, loops, l.value, b);
        ChainCounts(g, e, loops, |g|, l.value);
        HoldingIs(loops, l.value, b);
      }
      return loops[l.value].depth;
    }
  }

  ghost function Holding(loops: seq<Loop>, b: nat): set<nat> { set i | i in Below(|loops|) && b in loops[i].blocks }

  lemma HoldingIs(loops: seq<Loop>, l: nat, b: nat)
    requires l < |loops| && b in loops[l].blocks
    requires forall i: nat :: i < |loops| && i != l && b in loops[i].blocks ==> Inside(loops, l, i)
    ensures |Holding(loops, b)| == 1 + |Enclosing(loops, l)|
  {
    assert b in Elems(loops[l].blocks);
    assert Holding(loops, b) == Enclosing(loops, l) + {l};
  }

  lemma DeepestIsInside(g: Graph, e: nat, loops: seq<Loop>, limit: nat, best: nat, i: nat, b: nat)
    requires ValidGraph(g) && LoopsRight(g, e, loops) && Forest(loops) && best < |loops| && i < |loops| && i != best
    requires forall k: nat :: k < |loops| ==> |loops[k].blocks| <= limit
    requires forall k: nat :: k < |loops| ==> loops[k].depth == ChainLength(loops, limit, k)
    requires Reach(g, e, b) && b in loops[best].blocks && b in loops[i].blocks && loops[i].depth <= loops[best].depth
    ensures Inside(loops, best, i)
  {
    hide LoopsRight;
    hide Forest;
    SharedBlock(g, e, loops, best, i, b);
    if Inside(loops, i, best) {
      InnerIsDeeper(loops, i, best);
      ReachableHeader(g, e, loops, i, b);
      ReachableHeader(g, e, loops, best, b);
      ChainCounts(g, e, loops, limit, i);
      ChainCounts(g, e, loops, limit, best);
    }
  }

  ghost predicate Redepthed(was: seq<Loop>, now: seq<Loop>) {
    |now| == |was| && forall i :: 0 <= i < |was| ==> now[i] == was[i].(depth := now[i].depth)
  }

  lemma {:induction false} DepthOnly(was: seq<Loop>, now: seq<Loop>, limit: nat)
    requires Redepthed(was, now) && Forest(was) && forall k: nat :: k < |was| ==> |was[k].blocks| <= limit
    ensures Forest(now) && forall k: nat :: k < |now| ==> ChainLength(now, limit, k) == ChainLength(was, limit, k)
  {
    forall k: nat | k < |now| ensures ParentRight(now, k) {
      assert ParentRight(was, k);
      InsideRelinked(was, now, k);
    }
    forall p: nat | p < |now| ensures ChildrenRight(now, p, |now|) { assert ChildrenRight(was, p, |was|); }
    forall k: nat | k < |now|
      ensures ChainLength(now, limit, k) == ChainLength(was, limit, k)
    {
      SameChain(was, now, limit, k);
    }
  }

  lemma {:induction false} SameChain(was: seq<Loop>, now: seq<Loop>, limit: nat, k: nat)
    requires Redepthed(was, now) && Forest(was) && Forest(now) && k < |was| && forall i: nat ::
      i < |was| ==> |was[i].blocks| <= limit
    ensures ChainLength(now, limit, k) == ChainLength(was, limit, k)
    decreases limit - |was[k].blocks|
  {
    if was[k].parent.Some? {
      assert ParentRight(was, k);
      InsideSize(was, k, was[k].parent.value);
      SameChain(was, now, limit, was[k].parent.value);
    }
  }

  lemma RightLists(g: Graph, e: nat, loops: seq<Loop>)
    requires LoopsRight(g, e, loops)
    ensures forall i: nat :: i < |loops| ==> NoDup(loops[i].blocks) && |loops[i].blocks| <= |g|
  {
    forall i: nat | i < |loops| ensures NoDup(loops[i].blocks) && |loops[i].blocks| <= |g| {
      assert LoopRight(g, e, loops[i]);
      NoDupSize(loops[i].blocks);
      SubsetSize(Elems(loops[i].blocks), Below(|g|));
    }
  }

  lemma RelinkedRight(g: Graph, e: nat, was: seq<Loop>, now: seq<Loop>)
    requires LoopsRight(g, e, was) && Relinked(was, now)
    ensures LoopsRight(g, e, now)
  {
    forall i | 0 <= i < |now| ensures LoopRight(g, e, now[i]) { assert LoopRight(g, e, was[i]); }
    forall l: nat, h: nat | l < |g| && BackEdge(g, e, l, h) ensures exists i :: 0 <= i < |now| && now[i].header == h {
      var i :| 0 <= i < |was| && was[i].header == h;
      assert now[i].header == h;
    }
  }

  /** The same loops, differently linked. */
  ghost predicate Relinked(was: seq<Loop>, now: seq<Loop>) {
    |now| == |was| && forall i :: 0 <= i < |was| ==>
      now[i] == was[i].(parent := now[i].parent, children := now[i].children, depth := now[i].depth)
  }

  /** The first `n` loops know their parents, and those their children. */
  ghost predicate NestedUpTo(loops: seq<Loop>, n: nat) {
    && n <= |loops|
    && (forall i: nat ::
      i < |loops| ==> NoDup(loops[i].blocks) && (if i < n then ParentRight(loops, i) else loops[i].parent == None))
    && (forall p: nat :: p < |loops| ==> ChildrenRight(loops, p, n))
  }

  lemma LinkBound(loops: seq<Loop>, i: nat)
    requires i < |loops| && ParentRight(loops, i)
    ensures loops[i].parent.Some? ==> loops[i].parent.value < |loops| && loops[i].parent.value != i
  {}

  lemma InsideRelinked(was: seq<Loop>, now: seq<Loop>, i: nat)
    requires Relinked(was, now) && i < |was| && now[i].parent == was[i].parent
    ensures (forall j: nat, k: nat :: Inside(now, j, k) <==> Inside(was, j, k))
      && (ParentRight(now, i) <==> ParentRight(was, i))
  {
    forall j: nat, k: nat ensures Inside(now, j, k) <==> Inside(was, j, k) {}
  }

  lemma NestStep(was: seq<Loop>, i: nat, best: Option<nat>, now: seq<Loop>)
    requires NestedUpTo(was, i) && i < |was|
    requires var mid := was[i := was[i].(parent := best)];
      && ParentRight(mid, i) && (best.Some? ==> best.value < |was| && best.value != i)
      && now == if best.None?
        then mid
        else mid[best.value := mid[best.value].(children := mid[best.value].children + [i])]
    ensures NestedUpTo(now, i + 1)
  {
    hide ParentRight;
    var mid := was[i := was[i].(parent := best)];
    InsideRelinked(mid, now, i);
    forall k: nat | k < |now|
      ensures NoDup(now[k].blocks) && (if k < i + 1 then ParentRight(now, k) else now[k].parent == None)
    {
      if k != i { InsideRelinked(was, now, k); }
    }
    var n := i + 1;
    forall p: nat | p < |now| ensures ChildrenRight(now, p, n) { assert ChildrenRight(was, p, i); }
  }

  lemma EdgeTargets(g: Graph, e: nat)
    ensures forall l: nat, h: nat :: ValidGraph(g) && BackEdge(g, e, l, h) ==> l < |g| && h < |g|
  {}

  lemma LoopStarts(g: Graph, loop: Loop, edges: seq<(nat, nat)>)
    ensures LoopExact(g, loop, edges) ==> loop.parent == None && loop.children == [] && loop.depth == 1
  {}

  lemma QueryIsBackEdge(g: Graph, e: nat, h: nat, l: nat)
    ensures BackEdge(g, e, l, h) <==> Edge(g, l, h) && (h == l || (Reach(g, e, l) && Dom(g, e, h, l)))
  {}

  lemma GroupedFacts(g: Graph, loops: seq<Loop>, edges: seq<(nat, nat)>, l: nat)
    requires Grouped(g, loops, edges) && l < |loops| && forall x :: x in edges ==> x.0 < |g|
    ensures var loop := loops[l];
      BodyExact(g, loop.header, loop.latches, loop.blocks) && forall x :: x in loop.latches ==> x < |g|
  {
    hide BodyExact;
    assert LoopExact(g, loops[l], edges);
    forall x | x in loops[l].latches
      ensures x < |g|
    {
      assert (x, loops[l].header) in edges;
      assert (x, loops[l].header).0 < |g|;
    }
  }

  lemma HeaderHeld(g: Graph, h: nat, latches: seq<nat>, blocks: seq<nat>)
    requires BodyExact(g, h, latches, blocks) && h < |g|
    ensures Added(blocks, h) == blocks
  {}

  lemma AddedNew(s: seq<nat>, x: nat)
    requires x !in s
    ensures Added(s, x) == s + [x]
  {}

  /** Only the block list of loop `l` has changed. */
  ghost predicate BlocksGrew(was: seq<Loop>, now: seq<Loop>, l: nat) {
    && |now| == |was| && l < |was| && now[l] == was[l].(blocks := now[l].blocks)
    && forall k :: 0 <= k < |was| && k != l ==> now[k] == was[k]
  }

  lemma QueueFits(g: Graph, preds: Graph, h: nat, latches: seq<nat>, blocks: seq<nat>, queue: seq<nat>, head: nat)
    requires Mirrors(g, preds) && Growing(g, preds, h, latches, blocks, queue, head)
    ensures |queue| < |g| == |preds| && forall b :: b in queue ==> b < |g|
  { Pigeonhole(queue, |g|, h); }

  lemma PopBlock(g: Graph, preds: Graph, h: nat, latches: seq<nat>, blocks: seq<nat>, queue: seq<nat>, head: nat)
    requires Growing(g, preds, h, latches, blocks, queue, head) && head < |queue|
    requires forall q: nat :: q in PredsOf(preds, queue[head]) ==> q in blocks
    ensures Growing(g, preds, h, latches, blocks, queue, head + 1)
  {
    forall b: nat, q: nat | b in blocks && b != h && b !in queue[head+1..] && q in PredsOf(preds, b)
      ensures q in blocks
    {
      if b in queue[head..] { assert queue[head..] == [queue[head]] + queue[head+1..]; }
    }
  }
}
