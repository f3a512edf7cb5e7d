// The call graph and what is computed on it (src/ir/ir_ipa.c:98-360).

module CallGraphs {
  import opened Options
  import opened Graphs
  import T = TarjanState

  /** The call sites of every function: the callee, or None when the module does not define it. */
  type Calls = seq<seq<Option<nat>>>

  function GraphOf(calls: Calls): (g: Graph)
    ensures |g| == |calls| && forall i :: 0 <= i < |g| ==> g[i] == Somes(calls[i])
  { seq(|calls|, i requires 0 <= i < |calls| => Somes(calls[i])) }

  predicate InModule(calls: Calls) {
    forall i, k :: 0 <= i < |calls| && 0 <= k < |calls[i]| && calls[i][k].Some? ==> calls[i][k].value < |calls|
  }

  lemma CallEdges(calls: Calls, u: nat, v: nat)
    ensures Edge(GraphOf(calls), u, v) <==> u < |calls| && Some(v) in calls[u]
  {}

  /** `v` calls itself, directly or through others. */
  ghost predicate OnCycle(g: Graph, v: nat) { exists w: nat :: Edge(g, v, w) && Reach(g, w, v) }

  ghost function Component(g: Graph, v: nat): set<nat> { set w | w in Below(|g|) && T.Mutual(g, v, w) }

  const SCC_BUFFER := 64

  /** Recursion flags: none is wrong, and only components too large for the buffer lack any; those have a buffer
      full. */
  ghost predicate Flagged(g: Graph, t: T.State, flags: seq<bool>) {
    && |flags| == |g|
    && (forall v: nat :: v < |g| && flags[v] ==> T.Finished(t, v) && OnCycle(g, v))
    && (forall v: nat :: v < |g| && T.Finished(t, v) && OnCycle(g, v) && |Component(g, v)| <= SCC_BUFFER ==> flags[v])
    && (forall v: nat :: v < |g| && T.Finished(t, v) && |Component(g, v)| > SCC_BUFFER ==> BufferFlagged(g, v, flags))
  }

  ghost function FlaggedIn(g: Graph, v: nat, flags: seq<bool>): set<nat> {
    set w | w in Component(g, v) && w < |flags| && flags[w]
  }

  /** As many members as the buffer holds are flagged, and no more. */
  ghost predicate BufferFlagged(g: Graph, v: nat, flags: seq<bool>) { |FlaggedIn(g, v, flags)| == SCC_BUFFER }

  /** Vertices reaching each other and different are on a cycle; so is one that calls itself. */
  lemma CycleInside(g: Graph, v: nat, w: nat)
    requires v != w && T.Mutual(g, v, w)
    ensures OnCycle(g, v)
  {
    var p :| Connects(g, p, v, w);
    assert Edge(g, p[0], p[1]);
    Suffix(g, p, v, w, 1);
    ReachTrans(g, p[1], w, v);
  }

  lemma SelfCycle(g: Graph, v: nat)
    requires ValidGraph(g) && Edge(g, v, v)
    ensures OnCycle(g, v)
  { ReachSelf(g, v); }

  lemma CycleMate(g: Graph, v: nat)
    requires ValidGraph(g) && OnCycle(g, v)
    ensures Edge(g, v, v) || exists w: nat :: w != v && w < |g| && T.Mutual(g, v, w)
  {
    var w: nat :| Edge(g, v, w) && Reach(g, w, v);
    ReachSelf(g, v);
    ReachStep(g, v, v, w);
    if w != v { assert T.Mutual(g, v, w); }
  }

  /** The search below `u` has left this much for the rest of the work at `u`, `done` of its call sites looked at. */
  ghost predicate Halfway(calls: Calls, t0: T.State, d: T.State, u: nat, gray: set<nat>, done: nat) {
    && OnStack(GraphOf(calls), t0, d, u, gray) && done <= |calls[u]|
    && LowGood(GraphOf(calls), d, |t0.stack|, u, d.low[u])
    && SitesDone(calls[u][..done], d, |t0.stack|, d.low[u])
  }

  ghost predicate OnStack(g: Graph, t0: T.State, d: T.State, u: nat, gray: set<nat>) {
    && T.Sizes(g, t0) && u < |g| && !T.Seen(t0, u) && |d.low| == |g|
    && T.Extends(t0, d) && |t0.stack| < |d.stack| && d.stack[|t0.stack|] == u && T.Idx(d, u) == t0.next
    && (forall x :: x in gray ==> x in t0.stack)
  }

  /** `n` is a possible low link of `u`. */
  ghost predicate LowGood(g: Graph, d: T.State, base: nat, u: nat, n: int) {
    n <= T.Idx(d, u) && T.LowReached(g, d, u, n) && AboveLow(g, d, base, n)
  }

  /** Edges from strictly above position `base` to below it do not go under `n`. */
  ghost predicate AboveLow(g: Graph, d: T.State, base: nat, n: int) {
    forall i, j ::
      base < i < |d.stack| && 0 <= j < base && Edge(g, d.stack[i], d.stack[j]) ==> n <= T.Idx(d, d.stack[j])
  }

  ghost predicate SitesDone(sites: seq<Option<nat>>, d: T.State, base: nat, n: int) {
    forall m :: 0 <= m < |sites| && sites[m].Some? ==> SiteDone(d, base, sites[m].value, n)
  }

  ghost predicate SiteDone(d: T.State, base: nat, v: nat, n: int) {
    T.Seen(d, v) && base <= |d.stack| && (v in d.stack[..base] ==> n <= T.Idx(d, v))
  }

  lemma ValidCalls(calls: Calls)
    requires InModule(calls)
    ensures ValidGraph(GraphOf(calls))
  {
    var g := GraphOf(calls);
    forall a, k | 0 <= a < |g| && 0 <= k < |g[a]| ensures g[a][k] < |g| {
      assert g[a][k] in Somes(calls[a]);
      var m :| 0 <= m < |calls[a]| && calls[a][m] == Some(g[a][k]);
    }
  }

  lemma HalfwayStart(calls: Calls, t0: T.State, u: nat, gray: set<nat>)
    requires var g := GraphOf(calls); T.Inv(g, t0, gray) && u < |g| && !T.Seen(t0, u)
    ensures Halfway(calls, t0, T.Pushed(t0, u), u, gray, 0)
  {
    var g, d := GraphOf(calls), T.Pushed(t0, u);
    T.PushSizes(g, t0, u);
    ReachSelf(g, u);
    assert d.stack[|t0.stack|] == u && u in d.stack && T.Idx(d, u) == d.low[u] && Reach(g, u, u);
    assert forall v: nat :: v != u ==> T.Scc(d, v) == T.Scc(t0, v);
  }

  lemma HalfwayPath(calls: Calls, t0: T.State, d: T.State, u: nat, gray: set<nat>, done: nat)
    requires Halfway(calls, t0, d, u, gray, done)
    ensures T.PathTo(d, gray + {u}, |t0.stack|) && d.stack[..|t0.stack|] == t0.stack && u !in gray
  {}

  /** The low link goes down to `n` when the next call site has been looked at. */
  lemma Lowered(calls: Calls, t0: T.State, d: T.State, u: nat, gray: set<nat>, done: nat, n: int)
    requires var g := GraphOf(calls);
      OnStack(g, t0, d, u, gray) && T.Inv(g, d, gray + {u}) && LowGood(g, d, |t0.stack|, u, n)
    requires done < |calls[u]| && SitesDone(calls[u][..done], d, |t0.stack|, d.low[u]) && n <= d.low[u]
    requires calls[u][done].Some? ==> SiteDone(d, |t0.stack|, calls[u][done].value, n)
    ensures var e := d.(low := d.low[u := n]);
      Halfway(calls, t0, e, u, gray, done + 1) && T.Inv(GraphOf(calls), e, gray + {u})
  {
    hide T.Inv;
    hide Reach;
    hide GraphOf;
    hide T.Sizes;
    hide T.Finished;
    var g, e, base := GraphOf(calls), d.(low := d.low[u := n]), |t0.stack|;
    LowChanged(g, d, e, gray + {u});
    LoweredFrame(g, t0, d, u, gray, n);
    var sites := calls[u][..done+1];
    forall m | 0 <= m < |sites| && sites[m].Some? ensures SiteDone(e, base, sites[m].value, n) {
      if m < done { assert calls[u][..done][m] == sites[m]; }
    }
  }

  lemma LoweredFrame(g: Graph, t0: T.State, d: T.State, u: nat, gray: set<nat>, n: int)
    requires OnStack(g, t0, d, u, gray) && LowGood(g, d, |t0.stack|, u, n)
    ensures var e := d.(low := d.low[u := n]); OnStack(g, t0, e, u, gray) && LowGood(g, e, |t0.stack|, u, n)
  {
    hide Reach;
    hide T.Sizes;
    var e := d.(low := d.low[u := n]);
    assert forall v: nat :: T.Idx(e, v) == T.Idx(d, v) && T.Scc(e, v) == T.Scc(d, v);
    var y :| y in d.stack && T.Idx(d, y) == n && Reach(g, u, y);
    assert y in e.stack && T.Idx(e, y) == n;
  }

  /** A call site without a callee, or to a vertex already seen. */
  lemma HalfwaySeen(calls: Calls, t0: T.State, d: T.State, u: nat, gray: set<nat>, done: nat, n: int)
    requires Halfway(calls, t0, d, u, gray, done) && T.Inv(GraphOf(calls), d, gray + {u}) && done < |calls[u]|
      && InModule(calls)
    requires calls[u][done].Some? ==> T.Seen(d, calls[u][done].value)
    requires n == if calls[u][done].Some? && calls[u][done].value in d.stack
      && T.Idx(d, calls[u][done].value) < d.low[u]
      then T.Idx(d, calls[u][done].value)
      else d.low[u]
    ensures var e := d.(low := d.low[u := n]);
      Halfway(calls, t0, e, u, gray, done + 1) && T.Inv(GraphOf(calls), e, gray + {u})
  {
    hide T.Inv;
    hide Reach;
    hide GraphOf;
    hide T.Sizes;
    hide InModule;
    hide T.Extends;
    var g := GraphOf(calls);
    if n != d.low[u] {
      SiteReached(calls, u, done);
      assert T.LowReached(g, d, u, n);
    }
    Lowered(calls, t0, d, u, gray, done, n);
  }

  lemma ExtendsTrans(t: T.State, u: T.State, v: T.State)
    requires T.Extends(t, u) && T.Extends(u, v)
    ensures T.Extends(t, v)
  { hide T.Finished; }

  /** After the search from an unvisited callee the low link goes down to the callee's. */
  lemma HalfwayCall(calls: Calls, t0: T.State, d: T.State, f: T.State, u: nat, gray: set<nat>, done: nat, n: int)
    requires var g := GraphOf(calls);
      Halfway(calls, t0, d, u, gray, done) && T.Inv(g, d, gray + {u}) && T.Inv(g, f, gray + {u})
    requires InModule(calls) && done < |calls[u]| && calls[u][done].Some? && !T.Seen(d, calls[u][done].value)
    requires T.Searched(GraphOf(calls), d, f, calls[u][done].value)
    requires n == if f.low[calls[u][done].value] < f.low[u] then f.low[calls[u][done].value] else f.low[u]
    ensures var e := f.(low := f.low[u := n]);
      Halfway(calls, t0, e, u, gray, done + 1) && T.Inv(GraphOf(calls), e, gray + {u})
  {
    hide T.Inv;
    hide Reach;
    hide GraphOf;
    hide InModule;
    hide T.Finished;
    hide T.Sizes;
    hide Edge;
    var g, base, v := GraphOf(calls), |t0.stack|, calls[u][done].value;
    ExtendsTrans(t0, d, f);
    CallLow(calls, t0, d, f, u, gray, done, n);
    Lowered(calls, t0, f, u, gray, done, n);
  }

  lemma CallLow(calls: Calls, t0: T.State, d: T.State, f: T.State, u: nat, gray: set<nat>, done: nat, n: int)
    requires var g := GraphOf(calls);
      Halfway(calls, t0, d, u, gray, done) && T.Inv(g, d, gray + {u}) && T.Inv(g, f, gray + {u})
    requires InModule(calls) && done < |calls[u]| && calls[u][done].Some? && !T.Seen(d, calls[u][done].value)
    requires T.Searched(GraphOf(calls), d, f, calls[u][done].value) && T.Extends(t0, f)
    requires n == if f.low[calls[u][done].value] < f.low[u] then f.low[calls[u][done].value] else f.low[u]
    ensures OnStack(GraphOf(calls), t0, f, u, gray) && LowGood(GraphOf(calls), f, |t0.stack|, u, n) && n <= f.low[u]
    ensures SitesDone(calls[u][..done], f, |t0.stack|, f.low[u]) && SiteDone(f, |t0.stack|, calls[u][done].value, n)
  {
    var g, base, v := GraphOf(calls), |t0.stack|, calls[u][done].value;
    SiteReached(calls, u, done);
    hide InModule;
    hide GraphOf;
    hide Reach;
    hide Edge;
    hide T.Finished;
    hide T.Numbered;
    hide T.Covered;
    hide T.Closed;
    hide T.Ordered;
    hide T.Returning;
    hide T.Classified;
    hide T.NoCrossing;
    hide AboveLow;
    hide SitesDone;
    hide T.LowReached;
    CallKeeps(g, d, f, u);
    CallLowReached(g, d, f, u, v, n);
    CallAbove(g, d, f, base, u, v, n);
    CallSites(calls[u][..done], g, d, f, base, v, d.low[u], n);
  }

  lemma CallKeeps(g: Graph, d: T.State, f: T.State, u: nat)
    requires T.Extends(d, f) && T.Seen(d, u) && u < |d.low| && T.Sizes(g, d) && u < |g|
    ensures f.low[u] == d.low[u] && T.Idx(f, u) == T.Idx(d, u) < d.next && T.Seen(f, u)
  {}

  lemma CallSites(sites: seq<Option<nat>>, g: Graph, d: T.State, f: T.State, base: nat, v: nat, low: int, n: int)
    requires T.Extends(d, f) && SitesDone(sites, d, base, low) && base <= |d.stack| && !T.Seen(d, v) && T.Seen(f, v)
      && T.Sizes(g, d)
    ensures SitesDone(sites, f, base, low) && SiteDone(f, base, v, n)
  {
    assert f.stack[..base] == d.stack[..base];
    forall m | 0 <= m < |sites| && sites[m].Some? ensures SiteDone(f, base, sites[m].value, low) {
      assert SiteDone(d, base, sites[m].value, low);
    }
  }

  lemma CallAbove(g: Graph, d: T.State, f: T.State, base: nat, u: nat, v: nat, n: int)
    requires T.Searched(g, d, f, v) && u < |d.low| && AboveLow(g, d, base, d.low[u]) && base <= |d.stack|
      && T.Sizes(g, d)
    requires n <= d.low[u] && n <= f.low[v]
    ensures AboveLow(g, f, base, n)
  {
    hide Edge;
    hide T.Finished;
    hide T.LowReached;
    forall i, j | base < i < |f.stack| && 0 <= j < base && Edge(g, f.stack[i], f.stack[j])
      ensures n <= T.Idx(f, f.stack[j])
    {
      assert f.stack[j] == d.stack[j] && d.stack[j] in d.stack && T.Seen(d, d.stack[j]);
      if i < |d.stack| { assert f.stack[i] == d.stack[i]; }
    }
  }

  lemma CallLowReached(g: Graph, d: T.State, f: T.State, u: nat, v: nat, n: int)
    requires u < |d.low| && T.LowReached(g, d, u, d.low[u]) && T.Searched(g, d, f, v) && Reach(g, u, v) && T.Sizes(g, d)
    requires f.low[u] == d.low[u] && v < |g| && n == if f.low[v] < f.low[u] then f.low[v] else f.low[u]
    requires d.low[u] <= T.Idx(d, u) < d.next
    ensures T.LowReached(g, f, u, n)
  {
    hide Reach;
    hide T.Finished;
    if f.low[v] < f.low[u] {
      var y :| y in f.stack && T.Idx(f, y) == n && Reach(g, v, y);
      ReachTrans(g, u, v, y);
    } else {
      var y :| y in d.stack && T.Idx(d, y) == d.low[u] && Reach(g, u, y);
      assert y in f.stack;
    }
  }

  lemma SiteReached(calls: Calls, u: nat, m: nat)
    requires u < |calls| && m < |calls[u]| && calls[u][m].Some? && InModule(calls)
    ensures Edge(GraphOf(calls), u, calls[u][m].value) && Reach(GraphOf(calls), u, calls[u][m].value)
  {
    ValidCalls(calls);
    assert calls[u][m] in calls[u];
    CallEdges(calls, u, calls[u][m].value);
    ReachSelf(GraphOf(calls), u);
    ReachStep(GraphOf(calls), u, u, calls[u][m].value);
  }

  /** The invariant does not speak of low links. */
  lemma LowChanged(g: Graph, d: T.State, e: T.State, gray: set<nat>)
    requires T.Inv(g, d, gray) && e == d.(low := e.low) && |e.low| == |d.low|
    ensures T.Inv(g, e, gray)
  {
    assert forall v: nat ::
      T.Idx(e, v) == T.Idx(d, v) && T.Scc(e, v) == T.Scc(d, v) && (T.Finished(e, v) <==> T.Finished(d, v));
    forall y ensures T.ReturnsTo(g, e, gray, y) <==> T.ReturnsTo(g, d, gray, y) {}
    hide T.ReturnsTo;
    hide Reach;
    hide T.Mutual;
    hide T.Idx;
    hide T.Scc;
    hide T.Finished;
  }

  // ----- When all call sites of `u` have been looked at -----

  lemma AllSitesDone(calls: Calls, t0: T.State, d: T.State, u: nat, gray: set<nat>)
    requires u < |calls| && Halfway(calls, t0, d, u, gray, |calls[u]|) && T.Inv(GraphOf(calls), d, gray + {u})
    ensures T.PathTo(d, gray + {u}, |t0.stack|) && u !in gray && d.stack[..|t0.stack|] == t0.stack
    ensures T.NoCrossing(GraphOf(calls), d, |t0.stack|, d.low[u])
    ensures forall w: nat :: Edge(GraphOf(calls), u, w) ==> T.Seen(d, w)
    ensures d.low[u] == T.Idx(d, u) ==> T.RootClosed(GraphOf(calls), d, gray + {u}, |t0.stack|)
  {
    hide T.Inv;
    hide Reach;
    var g, base := GraphOf(calls), |t0.stack|;
    HalfwayPath(calls, t0, d, u, gray, |calls[u]|);
    forall w: nat | Edge(g, u, w) ensures SiteDone(d, base, w, d.low[u]) {
      CallEdges(calls, u, w);
      var m :| 0 <= m < |calls[u]| && calls[u][m] == Some(w);
      assert calls[u][..|calls[u]|][m] == Some(w);
    }
    forall i, j | base <= i < |d.stack| && 0 <= j < base && Edge(g, d.stack[i], d.stack[j])
      ensures d.low[u] <= T.Idx(d, d.stack[j])
    {
      assert d.stack[j] == d.stack[..base][j];
      if i == base { assert SiteDone(d, base, d.stack[j], d.low[u]); }
    }
  }

  /** `u` is not a root: it stays on the stack. */
  lemma Stays(calls: Calls, t0: T.State, d: T.State, u: nat, gray: set<nat>)
    requires u < |calls| && Halfway(calls, t0, d, u, gray, |calls[u]|) && T.Inv(GraphOf(calls), d, gray + {u})
    requires d.low[u] != T.Idx(d, u)
    ensures T.Inv(GraphOf(calls), d, gray) && T.Searched(GraphOf(calls), t0, d, u)
  {
    AllSitesDone(calls, t0, d, u, gray);
    T.StayInv(GraphOf(calls), d, gray + {u}, |t0.stack|, d.low[u]);
    assert gray + {u} - {u} == gray;
  }

  /** `u` is a root: its component leaves the stack. */
  lemma Leaves(calls: Calls, t0: T.State, d: T.State, e: T.State, u: nat, gray: set<nat>)
    requires u < |calls| && Halfway(calls, t0, d, u, gray, |calls[u]|) && T.Inv(GraphOf(calls), d, gray + {u})
    requires d.low[u] == T.Idx(d, u) && T.Popped(d, e, |t0.stack|)
    ensures T.Inv(GraphOf(calls), e, gray) && T.Searched(GraphOf(calls), t0, e, u)
  {
    var g := GraphOf(calls);
    AllSitesDone(calls, t0, d, u, gray);
    T.PopInv(g, d, e, gray + {u}, |t0.stack|);
    assert gray + {u} - {u} == gray;
    LeavesExtends(g, t0, d, e, u, gray);
  }

  lemma LeavesExtends(g: Graph, t0: T.State, d: T.State, e: T.State, u: nat, gray: set<nat>)
    requires OnStack(g, t0, d, u, gray) && T.Sizes(g, d) && T.Popped(d, e, |t0.stack|) && T.Sizes(g, e)
      && u !in t0.stack
    ensures T.Extends(t0, e)
  {
    var base := |t0.stack|;
    forall i | base <= i < |d.stack| ensures !T.Seen(t0, d.stack[i]) {
      assert T.Idx(d, d.stack[base]) <= T.Idx(d, d.stack[i]);
    }
    forall v: nat | T.Seen(t0, v)
      ensures T.Idx(e, v) == T.Idx(t0, v) && T.Scc(e, v) == T.Scc(t0, v) && e.low[v] == t0.low[v]
    {
      assert v !in d.stack[base..];
    }
  }

  // ----- Recursion flags -----

  /** How popping a component flags it: the first members popped, when there are several; a lone one if it calls
      itself. */
  ghost predicate FlagStep(t: T.State, base: nat, callsItself: bool, before: seq<bool>, after: seq<bool>) {
    && base < |t.stack| && |after| == |before|
    && var size := |t.stack| - base;
    var kept := if size <= SCC_BUFFER then base else |t.stack| - SCC_BUFFER;
    forall v: nat :: v < |after| ==>
      (after[v] <==> before[v] || (if size > 1 then v in t.stack[kept..] else v == t.stack[base] && callsItself))
  }

  /** The members of the component of `v` are what is popped. */
  lemma ComponentPopped(g: Graph, t: T.State, gray: set<nat>, base: nat, v: nat)
    requires T.RootClosed(g, t, gray, base) && v in t.stack[base..]
    ensures Component(g, v) == Elems(t.stack[base..]) && |Component(g, v)| == |t.stack| - base
  {
    var u := t.stack[base];
    T.AboveReachesRoot(g, t, gray, base, v);
    forall w: nat ensures w in Component(g, v) <==> w in t.stack[base..] {
      if w in t.stack[base..] {
        assert w in t.stack;
        T.AboveReachesRoot(g, t, gray, base, w);
        ReachTrans(g, v, u, w);
        ReachTrans(g, w, u, v);
      } else if T.Mutual(g, v, w) {
        ReachTrans(g, u, v, w);
        ReachTrans(g, w, v, u);
        T.MutualIsAbove(g, t, gray, base, w);
      }
    }
    NoDupSize(t.stack[base..]);
  }

  /** A member of the popped component is on a cycle exactly when it has company or calls itself. */
  lemma CyclePopped(g: Graph, t: T.State, gray: set<nat>, base: nat, v: nat)
    requires T.RootClosed(g, t, gray, base) && v in t.stack[base..]
    ensures OnCycle(g, v) <==> |t.stack| - base > 1 || Edge(g, v, v)
  {
    ComponentPopped(g, t, gray, base, v);
    var comp := t.stack[base..];
    if |comp| > 1 {
      var w := if comp[0] == v then comp[1] else comp[0];
      assert w != v by { assert t.stack[base] != t.stack[base+1]; }
      assert w in Component(g, v);
      CycleInside(g, v, w);
    } else if Edge(g, v, v) {
      SelfCycle(g, v);
    } else {
      forall w: nat | w < |g| && T.Mutual(g, v, w) ensures w == v { assert w in Component(g, v) && comp[0] == v; }
      if OnCycle(g, v) { CycleMate(g, v); }
    }
  }

  /** Popping keeps the flags right. */
  lemma FlagsRight(g: Graph, t: T.State, d: T.State, gray: set<nat>, base: nat, before: seq<bool>, after: seq<bool>)
    requires T.RootClosed(g, t, gray, base) && T.Popped(t, d, base) && Flagged(g, t, before)
    requires FlagStep(t, base, Edge(g, t.stack[base], t.stack[base]), before, after)
    ensures Flagged(g, d, after)
  {
    forall v: nat | v < |g|
      ensures after[v] ==> T.Finished(d, v) && OnCycle(g, v)
      ensures T.Finished(d, v) && OnCycle(g, v) && |Component(g, v)| <= SCC_BUFFER ==> after[v]
      ensures T.Finished(d, v) && |Component(g, v)| > SCC_BUFFER ==> BufferFlagged(g, v, after)
    {
      T.PopFinished(g, t, d, gray, base, v);
      if v in t.stack[base..] { FlagInside(g, t, gray, base, v, before, after); }
        else { FlagOutside(g, t, gray, base, v, before, after); }
    }
  }

  lemma FlagInside(g: Graph, t: T.State, gray: set<nat>, base: nat, v: nat, before: seq<bool>, after: seq<bool>)
    requires T.RootClosed(g, t, gray, base) && Flagged(g, t, before) && v in t.stack[base..] && v < |g|
    requires FlagStep(t, base, Edge(g, t.stack[base], t.stack[base]), before, after)
    ensures after[v] ==> OnCycle(g, v)
    ensures OnCycle(g, v) && |Component(g, v)| <= SCC_BUFFER ==> after[v]
    ensures |Component(g, v)| > SCC_BUFFER ==> BufferFlagged(g, v, after)
  {
    hide *;
    RootFacts(g, t, gray, base);
    ComponentPopped(g, t, gray, base, v);
    CyclePopped(g, t, gray, base, v);
    StackUnflagged(g, t, before);
    Kept(t, base, v, Edge(g, t.stack[base], t.stack[base]), before, after);
    if |t.stack| - base > SCC_BUFFER { BufferFull(g, t, base, v, after); }
  }

  lemma RootFacts(g: Graph, t: T.State, gray: set<nat>, base: nat)
    requires T.RootClosed(g, t, gray, base)
    ensures T.Sizes(g, t) && NoDup(t.stack) && base < |t.stack|
    ensures t.stack[base] in Elems(t.stack[base..]) && t.stack[base] < |g|
  { assert t.stack[base..][0] == t.stack[base] && T.Seen(t, t.stack[base]); }

  lemma BufferFull(g: Graph, t: T.State, base: nat, v: nat, flags: seq<bool>)
    requires NoDup(t.stack) && base < |t.stack| - SCC_BUFFER && Component(g, v) == Elems(t.stack[base..])
    requires forall w :: w in t.stack[base..] ==> w < |flags| && (flags[w] <==> w in t.stack[|t.stack| - SCC_BUFFER..])
    ensures BufferFlagged(g, v, flags)
  {
    var kept := t.stack[|t.stack| - SCC_BUFFER..];
    assert forall w :: w in kept ==> w in t.stack[base..];
    NoDupSize(kept);
    assert FlaggedIn(g, v, flags) == Elems(kept);
  }

  /** What the buffer of a component keeps. */
  lemma Kept(t: T.State, base: nat, v: nat, callsItself: bool, before: seq<bool>, after: seq<bool>)
    requires NoDup(t.stack) && base < |t.stack| && v in t.stack[base..] && FlagStep(t, base, callsItself, before, after)
    requires forall x :: x in t.stack ==> x < |before| && !before[x]
    ensures v < |after| == |before| && t.stack[base] < |after|
    ensures 1 < |t.stack| - base <= SCC_BUFFER ==> after[v]
    ensures |t.stack| - base > SCC_BUFFER ==>
      forall w :: w in t.stack[base..] ==> w < |after| && (after[w] <==> w in t.stack[|t.stack| - SCC_BUFFER..])
    ensures |t.stack| - base == 1 ==> v == t.stack[base] && (after[v] <==> callsItself)
  {
    assert v in t.stack && t.stack[base] in t.stack;
    assert forall w :: w in t.stack[base..] ==> w in t.stack;
  }

  lemma StackUnflagged(g: Graph, t: T.State, flags: seq<bool>)
    requires Flagged(g, t, flags) && T.Sizes(g, t)
    ensures |flags| == |g| && forall x :: x in t.stack ==> x < |flags| && !flags[x]
  { forall x | x in t.stack ensures x < |flags| { assert T.Seen(t, x); } }

  lemma FlagOutside(g: Graph, t: T.State, gray: set<nat>, base: nat, v: nat, before: seq<bool>, after: seq<bool>)
    requires T.RootClosed(g, t, gray, base) && Flagged(g, t, before) && v !in t.stack[base..] && v < |g|
    requires FlagStep(t, base, Edge(g, t.stack[base], t.stack[base]), before, after)
    ensures after[v] == before[v]
    ensures T.Finished(t, v) && |Component(g, v)| > SCC_BUFFER ==> BufferFlagged(g, v, after)
  {
    assert forall k :: base <= k < |t.stack| ==> forall x :: x in t.stack[k..] ==> x in t.stack[base..];
    if T.Finished(t, v) && |Component(g, v)| > SCC_BUFFER {
      forall w | w in Component(g, v) ensures after[w] == before[w] {
        T.FinishedReach(g, t, v, w);
        assert w in t.stack[base..] ==> w in t.stack;
      }
      assert FlaggedIn(g, v, after) == FlaggedIn(g, v, before);
    }
  }
}
