module Interprocedural {
  // The interprocedural analyses as the program runs them: call graph, components, reachability and purity
  // (src/ir/ir_ipa.c:98-360).

  import opened Options
  import opened Graphs
  import opened CallGraphs
  import T = TarjanState

  /** The vertices not visited yet. */
  ghost function Unseen(g: Graph, t: T.State): set<nat> { set v | v in Below(|g|) && !T.Seen(t, v) }

  lemma ExtendsUnseen(g: Graph, t: T.State, d: T.State)
    requires T.Extends(t, d)
    ensures |Unseen(g, d)| <= |Unseen(g, t)|
  { SubsetSize(Unseen(g, d), Unseen(g, t)); }

  lemma PushUnseen(g: Graph, t: T.State, u: nat)
    requires T.Sizes(g, t) && u < |g| && !T.Seen(t, u)
    ensures |Unseen(g, T.Pushed(t, u))| < |Unseen(g, t)|
  {
    T.PushSizes(g, t, u);
    assert u in Unseen(g, t);
    SubsetSize(Unseen(g, T.Pushed(t, u)), Unseen(g, t) - {u});
  }

  /** Flagged only when recursive, and always when recursive in a component that fits the buffer. */
  ghost predicate RightlyFlagged(g: Graph, v: nat, flags: seq<bool>)
    requires v < |flags| == |g|
  {
    && (flags[v] ==> OnCycle(g, v))
    && (if |Component(g, v)| <= SCC_BUFFER then OnCycle(g, v) ==> flags[v] else BufferFlagged(g, v, flags))
  }

  /** The flags speak of finished vertices only. */
  lemma FlaggedSame(g: Graph, t: T.State, d: T.State, flags: seq<bool>)
    requires Flagged(g, t, flags) && forall v: nat :: T.Finished(d, v) <==> T.Finished(t, v)
    ensures Flagged(g, d, flags)
  {
    hide T.Finished;
    hide OnCycle;
    hide BufferFlagged;
    hide Component;
  }

  /** Tarjan's search (`tarjan_scc`): the fields of the call-graph nodes it writes, and its own state. */
  class SccSearch {
    const calls: Calls
    const isRecursive: seq<bool>
    var dfsIndex: seq<int>
    var dfsLowlink: seq<int>
    var sccId: seq<int>
    var onStack: seq<bool>
    var inRecursiveCycle: seq<bool>
    var stack: seq<nat>
    var index: nat
    var sccCount: nat

    ghost function Now(): T.State
      reads `dfsIndex, `dfsLowlink, `sccId, `stack, `index, `sccCount
    { T.State(dfsIndex, dfsLowlink, sccId, stack, index, sccCount) }

    ghost predicate Valid()
      reads `onStack, `stack
    {
      && InModule(calls) && |isRecursive| == |calls| == |onStack|
      && (forall v: nat :: v < |calls| ==> (isRecursive[v] <==> Some(v) in calls[v]))
      && (forall v: nat :: v < |calls| ==> (onStack[v] <==> v in stack))
    }

    /** Runs the whole search (ir_ipa.c:246-258): component numbers are equal exactly for functions that call each other
        in a circle, and the recursion flags are right except for what the buffer of a component has no room for. */
    constructor (calls: Calls, isRecursive: seq<bool>)
      requires InModule(calls) && |isRecursive| == |calls| && forall v: nat ::
        v < |calls| ==> (isRecursive[v] <==> Some(v) in calls[v])
      ensures this.calls == calls && |sccId| == |inRecursiveCycle| == |calls|
      ensures forall v: nat, w: nat ::
        v < |calls| && w < |calls| ==> (sccId[v] == sccId[w] <==> T.Mutual(GraphOf(calls), v, w))
      ensures forall v: nat :: v < |calls| ==> RightlyFlagged(GraphOf(calls), v, inRecursiveCycle)
    {
      this.calls, this.isRecursive := calls, isRecursive;
      var none := seq(|calls|, i => -1);
      dfsIndex, dfsLowlink, sccId := none, none, none;
      var no := seq(|calls|, i => false);
      onStack, inRecursiveCycle := no, no;
      stack, index, sccCount := [], 0, 0;
      new;
      ghost var g := GraphOf(calls);
      assert Valid();
      AtStart(calls, Now(), no);
      hide *;
      var i := 0;
      while i < |calls|
        invariant 0 <= i <= |calls| && Valid() && this.calls == calls
        invariant T.Inv(g, Now(), {}) && Flagged(g, Now(), inRecursiveCycle)
        invariant forall v: nat :: v < i ==> T.Seen(Now(), v)
      {
        ghost var t := Now();
        Reading();
        InvLengths(g, t, {});
        SeenIs(t, i);
        if dfsIndex[i] == -1 {
          Search(i, {});
          SeenNow(g, t, Now(), i);
        }
        i := i + 1;
      }
      Reading();
      AtEnd(calls, Now(), inRecursiveCycle);
    }

    /** The members a component of the stack above `base` keeps in the buffer: the last ones pushed. */
    ghost predicate Buffered(s: seq<nat>, base: nat, members: seq<nat>) {
      && base <= |s|
      && var kept := if |s| - base <= SCC_BUFFER then base else |s| - SCC_BUFFER;
      |members| == |s| - kept && forall x :: x in members <==> x in s[kept..]
    }

    lemma BufferOne(s: seq<nat>, top: nat, members: seq<nat>)
      requires top < |s| && Buffered(s, top + 1, members)
      ensures Buffered(s, top, if |members| < SCC_BUFFER then members + [s[top]] else members)
    { assert s[top..] == [s[top]] + s[top+1..]; }

    /** Pops the component of `u` off the stack, numbers it and collects its members. */
    method PopMembers(u: nat, ghost base: nat) returns (members: seq<nat>)
      requires Valid() && T.Sizes(GraphOf(calls), Now()) && base < |stack| && stack[base] == u
      modifies `stack, `onStack, `sccId, `sccCount
      ensures Valid() && T.Popped(old(Now()), Now(), base) && Buffered(old(stack), base, members)
    {
      hide T.Extends;
      ghost var t, g := Now(), GraphOf(calls);
      hide InModule;
      hide GraphOf;
      var id := sccCount;
      sccCount := sccCount + 1;
      members := [];
      while |stack| > 0
        invariant base < |stack| <= |t.stack| && sccCount == t.count + 1
        invariant Popping(g, t, |stack|, stack, onStack, sccId)
        invariant Buffered(t.stack, |stack|, members)
        decreases |stack|
      {
        var w := stack[|stack|-1];
        PopOne(g, t, |stack| - 1, stack, onStack, sccId);
        BufferOne(t.stack, |stack| - 1, members);
        stack := stack[..|stack|-1];
        onStack := onStack[w := false];
        sccId := sccId[w := id];
        if |members| < SCC_BUFFER { members := members + [w]; }
        if w == u { break; }
      }
    }

    method FlagAll(members: seq<nat>)
      requires forall x :: x in members ==> x < |inRecursiveCycle|
      modifies `inRecursiveCycle
      ensures |inRecursiveCycle| == |old(inRecursiveCycle)|
      ensures forall v: nat ::
        v < |inRecursiveCycle| ==> (inRecursiveCycle[v] <==> old(inRecursiveCycle)[v] || v in members)
    {
      var i := 0;
      while i < |members|
        invariant 0 <= i <= |members| && |inRecursiveCycle| == |old(inRecursiveCycle)|
        invariant forall v: nat ::
          v < |inRecursiveCycle| ==> (inRecursiveCycle[v] <==> old(inRecursiveCycle)[v] || v in members[..i])
      {
        assert members[i] in members;
        inRecursiveCycle := inRecursiveCycle[members[i] := true];
        assert members[..i+1] == members[..i] + [members[i]];
        i := i + 1;
      }
      assert members[..i] == members;
    }

    /** Pops the component of `u` and flags its recursive members. */
    method PopComponent(u: nat, ghost base: nat)
      requires Valid() && T.Sizes(GraphOf(calls), Now()) && base < |stack| && stack[base] == u && u < |calls|
        && |inRecursiveCycle| == |calls|
      modifies `stack, `onStack, `sccId, `sccCount, `inRecursiveCycle
      ensures Valid() && T.Popped(old(Now()), Now(), base)
      ensures FlagStep(old(Now()), base, isRecursive[u], old(inRecursiveCycle), inRecursiveCycle)
    {
      ghost var s, t := stack, Now();
      StackInside(GraphOf(calls), t);
      assert |isRecursive| == |calls|;
      hide *;
      var members := PopMembers(u, base);
      BufferedInside(s, base, members, |calls|);
      if |members| > 1 {
        FlagAll(members);
      } else if |members| == 1 && isRecursive[u] {
        inRecursiveCycle := inRecursiveCycle[u := true];
      }
      FlagStepIs(t, base, members, isRecursive[u], old(inRecursiveCycle), inRecursiveCycle);
    }

    method Enter(u: nat)
      requires Valid() && T.Sizes(GraphOf(calls), Now()) && u < |calls| && !T.Seen(Now(), u)
      modifies `dfsIndex, `dfsLowlink, `index, `stack, `onStack
      ensures Valid() && Now() == T.Pushed(old(Now()), u)
    {
      hide InModule;
      dfsIndex := dfsIndex[u := index];
      dfsLowlink := dfsLowlink[u := index];
      index := index + 1;
      stack := stack + [u];
      onStack := onStack[u := true];
    }

    /** Searches from the unvisited vertex `u`; `gray` is the search path down to it. */
    method Search(u: nat, ghost gray: set<nat>)
      requires Valid() && T.Inv(GraphOf(calls), Now(), gray) && Flagged(GraphOf(calls), Now(), inRecursiveCycle)
      requires u < |calls| && !T.Seen(Now(), u) && forall x :: x in gray ==> Reach(GraphOf(calls), x, u)
      modifies this
      ensures Valid() && T.Inv(GraphOf(calls), Now(), gray) && T.Searched(GraphOf(calls), old(Now()), Now(), u)
      ensures Flagged(GraphOf(calls), Now(), inRecursiveCycle)
      decreases |Unseen(GraphOf(calls), Now())|, 0
    {
      hide *;
      ghost var g, t0 := GraphOf(calls), Now();
      InvSizes(g, t0, gray);
      Entered(calls, t0, u, gray, inRecursiveCycle);
      Enter(u);
      var k := 0;
      while k < |calls[u]|
        invariant 0 <= k <= |calls[u]| && Valid()
        invariant Halfway(calls, t0, Now(), u, gray, k) && T.Inv(g, Now(), gray + {u})
          && Flagged(g, Now(), inRecursiveCycle)
        invariant |Unseen(g, Now())| < |Unseen(g, t0)|
      {
        Look(u, k, gray, t0);
        k := k + 1;
      }
      Decide(u, gray, t0);
    }

    /** Looks at one call site of `u`. */
    method Look(u: nat, k: nat, ghost gray: set<nat>, ghost t0: T.State)
      requires Valid() && u < |calls| && k < |calls[u]| && Flagged(GraphOf(calls), Now(), inRecursiveCycle)
      requires Halfway(calls, t0, Now(), u, gray, k) && T.Inv(GraphOf(calls), Now(), gray + {u})
      modifies this
      ensures Valid() && Flagged(GraphOf(calls), Now(), inRecursiveCycle)
      ensures Halfway(calls, t0, Now(), u, gray, k + 1) && T.Inv(GraphOf(calls), Now(), gray + {u})
      ensures |Unseen(GraphOf(calls), Now())| <= |Unseen(GraphOf(calls), old(Now()))|
      decreases |Unseen(GraphOf(calls), Now())|, 1
    {
      hide *;
      ghost var g, d := GraphOf(calls), Now();
      Reading();
      LookFacts(calls, t0, d, u, gray, k);
      var callee := calls[u][k];
      if callee.None? {
        Unresolved(calls, t0, d, u, gray, k);
        return;
      }
      var v := callee.value;
      if dfsIndex[v] == -1 {
        Search(v, gray + {u});
        ghost var f := Now();
        Reading();
        InvLengths(g, f, gray + {u});
        if dfsLowlink[v] < dfsLowlink[u] { dfsLowlink := dfsLowlink[u := dfsLowlink[v]]; }
        Reading();
        Called(calls, t0, d, f, Now(), u, gray, k, inRecursiveCycle);
      } else {
        if onStack[v] {
          if dfsIndex[v] < dfsLowlink[u] { dfsLowlink := dfsLowlink[u := dfsIndex[v]]; }
        }
        Reading();
        SeenBefore(calls, t0, d, Now(), u, gray, k, inRecursiveCycle);
      }
    }

    lemma LookFacts(cs: Calls, t0: T.State, t: T.State, u: nat, gray: set<nat>, k: nat)
      requires InModule(cs) && u < |cs| && k < |cs[u]| && Halfway(cs, t0, t, u, gray, k)
        && T.Inv(GraphOf(cs), t, gray + {u})
      ensures |t.low| == |t.idx| == |cs| && (forall v: nat :: v < |cs| ==> T.Idx(t, v) == t.idx[v])
      ensures cs[u][k].Some? ==> cs[u][k].value < |cs| && (T.Seen(t, cs[u][k].value) <==> t.idx[cs[u][k].value] != -1)
      ensures cs[u][k].Some? ==> forall x :: x in gray + {u} ==> Reach(GraphOf(cs), x, cs[u][k].value)
    {
      if cs[u][k].Some? {
        var g, v, base := GraphOf(cs), cs[u][k].value, |t0.stack|;
        SiteReached(cs, u, k);
        HalfwayPath(cs, t0, t, u, gray, k);
        forall x | x in gray + {u} ensures Reach(g, x, v) {
          if x in gray {
            var i :| 0 <= i < base && t0.stack[i] == x;
            assert t.stack[..base][i] == x;
            assert Reach(g, t.stack[i], t.stack[base]);
            ReachTrans(g, x, u, v);
          }
        }
      }
    }

    lemma SeenIs(t: T.State, v: nat)
      requires v < |t.idx|
      ensures T.Idx(t, v) == t.idx[v] && (T.Seen(t, v) <==> t.idx[v] >= 0)
    {}

    lemma AtStart(cs: Calls, t: T.State, no: seq<bool>)
      requires InModule(cs) && |no| == |cs| && (forall v: nat :: v < |cs| ==> !no[v])
      requires |t.idx| == |t.low| == |t.scc| == |cs| && t.stack == [] && t.next == t.count == 0
      requires forall v: nat :: v < |cs| ==> t.idx[v] == t.low[v] == t.scc[v] == -1
      ensures T.Inv(GraphOf(cs), t, {}) && Flagged(GraphOf(cs), t, no)
    {
      ValidCalls(cs);
      assert forall v: nat :: !T.Seen(t, v);
    }

    lemma SeenNow(g: Graph, t: T.State, d: T.State, u: nat)
      requires T.Searched(g, t, d, u)
      ensures forall v: nat :: T.Seen(t, v) || v == u ==> T.Seen(d, v)
    {}

    /** Nothing is on the search path any more, so nothing is on the stack. */
    lemma AtEnd(cs: Calls, t: T.State, flags: seq<bool>)
      requires var g := GraphOf(cs);
        T.Inv(g, t, {}) && Flagged(g, t, flags) && forall v: nat :: v < |g| ==> T.Seen(t, v)
      ensures |t.scc| == |flags| == |cs|
      ensures forall v: nat, w: nat :: v < |cs| && w < |cs| ==> (t.scc[v] == t.scc[w] <==> T.Mutual(GraphOf(cs), v, w))
      ensures forall v: nat :: v < |cs| ==> RightlyFlagged(GraphOf(cs), v, flags)
    {
      var g := GraphOf(cs);
      assert t.stack != [] ==> T.ReturnsTo(g, t, {}, t.stack[0]);
      assert t.stack == [];
      forall v: nat | v < |cs| ensures T.Finished(t, v) && T.Scc(t, v) == t.scc[v] {}
      hide T.Inv;
      hide T.Finished;
    }

    lemma FlaggedLength(g: Graph, t: T.State, flags: seq<bool>)
      requires Flagged(g, t, flags)
      ensures |flags| == |g|
    {}

    lemma InvLengths(g: Graph, t: T.State, gray: set<nat>)
      requires T.Inv(g, t, gray)
      ensures |t.low| == |t.idx| == |g|
    {}

    /** What the fields say of the state of the search. */
    lemma Reading()
      ensures Now() == T.State(dfsIndex, dfsLowlink, sccId, stack, index, sccCount)
      ensures Valid() ==> |onStack| == |calls| == |isRecursive| && InModule(calls)
      ensures Valid() ==> forall v: nat :: v < |calls| ==> (onStack[v] <==> v in stack)
    {}

    lemma Unresolved(cs: Calls, t0: T.State, d: T.State, u: nat, gray: set<nat>, k: nat)
      requires InModule(cs) && u < |cs| && k < |cs[u]| && Halfway(cs, t0, d, u, gray, k)
        && T.Inv(GraphOf(cs), d, gray + {u}) && cs[u][k].None?
      ensures Halfway(cs, t0, d, u, gray, k + 1)
    {
      HalfwaySeen(cs, t0, d, u, gray, k, d.low[u]);
      assert d.low[u := d.low[u]] == d.low;
    }

    lemma SeenBefore(cs: Calls, t0: T.State, d: T.State, e: T.State, u: nat, gray: set<nat>, k: nat, flags: seq<bool>)
      requires InModule(cs) && u < |cs| && k < |cs[u]| && Halfway(cs, t0, d, u, gray, k)
        && T.Inv(GraphOf(cs), d, gray + {u})
      requires cs[u][k].Some? && T.Seen(d, cs[u][k].value) && Flagged(GraphOf(cs), d, flags)
      requires e == if cs[u][k].value in d.stack && T.Idx(d, cs[u][k].value) < d.low[u]
        then d.(low := d.low[u := T.Idx(d, cs[u][k].value)])
        else d
      ensures Halfway(cs, t0, e, u, gray, k + 1) && T.Inv(GraphOf(cs), e, gray + {u}) && Flagged(GraphOf(cs), e, flags)
      ensures |Unseen(GraphOf(cs), e)| <= |Unseen(GraphOf(cs), d)|
    {
      HalfwaySeen(cs, t0, d, u, gray, k, e.low[u]);
      assert e == d.(low := d.low[u := e.low[u]]);
      RelinkedSame(GraphOf(cs), d, e, flags);
    }

    /** Low links have no bearing on the flags or on what is unvisited. */
    lemma RelinkedSame(g: Graph, d: T.State, e: T.State, flags: seq<bool>)
      requires Flagged(g, d, flags) && e == d.(low := e.low)
      ensures Flagged(g, e, flags) && Unseen(g, e) == Unseen(g, d)
    {
      assert forall v: nat :: T.Idx(e, v) == T.Idx(d, v) && (T.Finished(e, v) <==> T.Finished(d, v));
      FlaggedSame(g, d, e, flags);
    }

    lemma Called(cs: Calls, t0: T.State, d: T.State, f: T.State, e: T.State, u: nat, gray: set<nat>, k: nat,
        flags: seq<bool>)
      requires InModule(cs) && u < |cs| && k < |cs[u]| && Halfway(cs, t0, d, u, gray, k)
        && T.Inv(GraphOf(cs), d, gray + {u})
      requires cs[u][k].Some? && !T.Seen(d, cs[u][k].value) && Flagged(GraphOf(cs), f, flags)
        && T.Inv(GraphOf(cs), f, gray + {u})
      requires T.Searched(GraphOf(cs), d, f, cs[u][k].value)
      requires e == if f.low[cs[u][k].value] < f.low[u] then f.(low := f.low[u := f.low[cs[u][k].value]]) else f
      ensures Halfway(cs, t0, e, u, gray, k + 1) && T.Inv(GraphOf(cs), e, gray + {u}) && Flagged(GraphOf(cs), e, flags)
      ensures |Unseen(GraphOf(cs), e)| <= |Unseen(GraphOf(cs), d)|
    {
      HalfwayCall(cs, t0, d, f, u, gray, k, e.low[u]);
      assert e == f.(low := f.low[u := e.low[u]]);
      RelinkedSame(GraphOf(cs), f, e, flags);
      ExtendsUnseen(GraphOf(cs), d, f);
    }

    /** Ends the search at `u`: pops its component if it is a root. */
    method Decide(u: nat, ghost gray: set<nat>, ghost t0: T.State)
      requires Valid() && u < |calls| && Flagged(GraphOf(calls), Now(), inRecursiveCycle)
      requires Halfway(calls, t0, Now(), u, gray, |calls[u]|) && T.Inv(GraphOf(calls), Now(), gray + {u})
      modifies `stack, `onStack, `sccId, `sccCount, `inRecursiveCycle
      ensures Valid() && T.Inv(GraphOf(calls), Now(), gray) && T.Searched(GraphOf(calls), t0, Now(), u)
      ensures Flagged(GraphOf(calls), Now(), inRecursiveCycle)
    {
      ghost var d, before := Now(), inRecursiveCycle;
      FlaggedLength(GraphOf(calls), d, before);
      DecideFacts(calls, t0, d, u, gray, isRecursive);
      hide *;
      Reading();
      if dfsLowlink[u] == dfsIndex[u] {
        PopComponent(u, |t0.stack|);
        Left(calls, t0, d, Now(), u, gray, isRecursive[u], before, inRecursiveCycle);
      } else {
        Stays(calls, t0, d, u, gray);
      }
    }

    lemma DecideFacts(cs: Calls, t0: T.State, d: T.State, u: nat, gray: set<nat>, selfCalls: seq<bool>)
      requires InModule(cs) && u < |cs| == |selfCalls| && Halfway(cs, t0, d, u, gray, |cs[u]|)
        && T.Inv(GraphOf(cs), d, gray + {u})
      requires forall v: nat :: v < |cs| ==> (selfCalls[v] <==> Some(v) in cs[v])
      ensures |d.low| == |d.idx| == |cs| && T.Idx(d, u) == d.idx[u] && T.Sizes(GraphOf(cs), d)
      ensures |t0.stack| < |d.stack| && d.stack[|t0.stack|] == u && (selfCalls[u] <==> Edge(GraphOf(cs), u, u))
    { CallEdges(cs, u, u); }

    lemma Left(cs: Calls, t0: T.State, d: T.State, e: T.State, u: nat, gray: set<nat>, callsItself: bool,
        before: seq<bool>, after: seq<bool>)
      requires u < |cs| && Halfway(cs, t0, d, u, gray, |cs[u]|) && T.Inv(GraphOf(cs), d, gray + {u})
      requires d.low[u] == T.Idx(d, u) && T.Popped(d, e, |t0.stack|) && Flagged(GraphOf(cs), d, before)
      requires (callsItself <==> Edge(GraphOf(cs), u, u)) && FlagStep(d, |t0.stack|, callsItself, before, after)
      ensures T.Inv(GraphOf(cs), e, gray) && T.Searched(GraphOf(cs), t0, e, u) && Flagged(GraphOf(cs), e, after)
    {
      AllSitesDone(cs, t0, d, u, gray);
      Leaves(cs, t0, d, e, u, gray);
      FlagsRight(GraphOf(cs), d, e, gray + {u}, |t0.stack|, before, after);
    }

    lemma InvSizes(g: Graph, t: T.State, gray: set<nat>)
      requires T.Inv(g, t, gray)
      ensures T.Sizes(g, t)
    {}

    lemma Entered(cs: Calls, t0: T.State, u: nat, gray: set<nat>, flags: seq<bool>)
      requires var g := GraphOf(cs); T.Inv(g, t0, gray) && u < |g| && !T.Seen(t0, u) && Flagged(g, t0, flags)
      requires forall x :: x in gray ==> Reach(GraphOf(cs), x, u)
      ensures var g, t := GraphOf(cs), T.Pushed(t0, u);
        Halfway(cs, t0, t, u, gray, 0) && T.Inv(g, t, gray + {u}) && Flagged(g, t, flags)
          && |Unseen(g, t)| < |Unseen(g, t0)|
    {
      var g := GraphOf(cs);
      T.PushInv(g, t0, gray, u);
      HalfwayStart(cs, t0, u, gray);
      PushUnseen(g, t0, u);
      T.PushSizes(g, t0, u);
      FlaggedSame(g, t0, T.Pushed(t0, u), flags);
    }

    lemma StackInside(g: Graph, t: T.State)
      requires T.Sizes(g, t)
      ensures forall x :: x in t.stack ==> x < |g|
    { forall x | x in t.stack ensures x < |g| { assert T.Seen(t, x); } }

    lemma BufferedInside(s: seq<nat>, base: nat, members: seq<nat>, n: nat)
      requires Buffered(s, base, members) && forall x :: x in s ==> x < n
      ensures forall x :: x in members ==> x < n
    { forall x | x in members ensures x in s {} }

    lemma FlagStepIs(t: T.State, base: nat, members: seq<nat>, callsItself: bool, before: seq<bool>, after: seq<bool>)
      requires base < |t.stack| && Buffered(t.stack, base, members) && |after| == |before|
      requires forall v: nat :: v < |after| ==>
        (after[v] <==>
          before[v] || (if |members| > 1 then v in members else |members| == 1 && v == t.stack[base] && callsItself))
      ensures FlagStep(t, base, callsItself, before, after)
    {
      var kept := if |t.stack| - base <= SCC_BUFFER then base else |t.stack| - SCC_BUFFER;
      assert |members| > 1 <==> |t.stack| - base > 1;
      forall v: nat | v < |after|
        ensures after[v] <==>
          before[v] || (if |t.stack| - base > 1 then v in t.stack[kept..] else v == t.stack[base] && callsItself)
      {}
    }

    /** The stack down to position `top`. */
    ghost predicate Popping(g: Graph, t: T.State, top: nat, left: seq<nat>, marks: seq<bool>, ids: seq<int>) {
      && top <= |t.stack| && left == t.stack[..top] && |marks| == |g| == |ids| == |t.scc|
      && (forall v: nat :: v < |g| ==> (marks[v] <==> v in left))
      && (forall v: nat :: v < |g| ==> ids[v] == if v in t.stack[top..] then t.count else t.scc[v])
    }

    lemma PopOne(g: Graph, t: T.State, top: nat, left: seq<nat>, marks: seq<bool>, ids: seq<int>)
      requires T.Sizes(g, t) && top < |t.stack| && Popping(g, t, top + 1, left, marks, ids)
      ensures var w := left[top];
        w == t.stack[top] && w < |g| && Popping(g, t, top, left[..top], marks[w := false], ids[w := t.count])
    {
      var s := t.stack;
      assert s[top..] == [s[top]] + s[top+1..] && s[..top+1] == s[..top] + [s[top]];
      assert s[top] in s && T.Seen(t, s[top]);
      assert s[top] !in s[..top];
    }
  }
}
