module OwnershipLimits {
  // Programs the checker accepts although the side conditions of the soundness theorems fail, and what then goes wrong.

  import opened Options
  import opened Graphs
  import opened Ownership
  import Facts = OwnershipFacts
  import Release = ReleaseSafety
  import opened UseSafety

  /** `consume x; if { x = new; consume y; }  read y`. */
  const FORGETFUL_BRANCH := Function(["x", "y"], [
    Consume("x", BLANK),
    If([], Block([Assign("x", New, BLANK), Consume("y", BLANK)], BLANK), None),
    Borrow("y")])

  /** `consume x; while { x = new; }  read x`. */
  const FORGETFUL_LOOP := Function(["x"], [
    Consume("x", BLANK),
    While([], Block([Assign("x", New, BLANK)], BLANK)),
    Borrow("x")])

  /** `if { consume x; }  x = new`. */
  const LEAKY_ASSIGN := Function(["x"], [If([], Block([Consume("x", BLANK)], BLANK), None), Assign("x", New, BLANK)])

  /** `while { return x; }`. */
  const LEAKY_RETURN := Function(["x"], [While([], Block([Return(Some("x"), BLANK)], BLANK))])

  lemma LookupParams(params: seq<string>, more: seq<Scope>, x: string)
    requires NoDup(params) && x in params && forall k :: 0 <= k < |more| ==> more[k].vars == []
    ensures FindVar(Walk(Start(params).scopes + more, true), x) == Some(OwnVar(x, 0))
    decreases |more|
  {
    var scopes := Start(params).scopes + more;
    if more == [] {
      assert scopes == Start(params).scopes;
      assert Walk(scopes, true) == scopes[0].vars + Walk(scopes[..0], true);
      assert Walk(scopes, true) == scopes[0].vars;
      var i :| 0 <= i < |params| && params[i] == x;
      FindAt(scopes[0].vars, i);
    } else {
      assert scopes[..|scopes|-1] == Start(params).scopes + more[..|more|-1];
      assert scopes[|scopes|-1] == more[|more|-1];
      LookupParams(params, more[..|more|-1], x);
      assert Walk(scopes, true) == [] + Walk(scopes[..|scopes|-1], true);
      assert Walk(scopes, true) == Walk(scopes[..|scopes|-1], true);
    }
  }

  lemma {:induction false} FindAt(vs: seq<OwnVar>, i: nat)
    requires i < |vs| && forall k :: 0 <= k < i ==> vs[k].name != vs[i].name
    ensures FindVar(vs, vs[i].name) == Some(vs[i])
  { if i > 0 { FindAt(vs[1..], i - 1); } }

  lemma Cons(c: Ctx, ss: seq<Stmt>, c1: Ctx, s1: Stmt, c2: Ctx, rest: seq<Stmt>)
    requires c.scopes != [] && c1.scopes != [] && ss != []
    requires Analyze(c, ss[0]) == Accepted(c1, s1) && AnalyzeAll(c1, ss[1..]) == AcceptedAll(c2, rest)
    ensures AnalyzeAll(c, ss) == AcceptedAll(c2, [s1] + rest)
  {}

  lemma One(c: Ctx, s: Stmt, c1: Ctx, s1: Stmt)
    requires c.scopes != [] && Analyze(c, s) == Accepted(c1, s1)
    ensures AnalyzeAll(c, [s]) == AcceptedAll(c1, [s1])
  {
    hide Analyze;
    assert [s][1..] == [];
    assert [s1] + [] == [s1];
  }

  lemma Two(c: Ctx, s: Stmt, t: Stmt, c1: Ctx, s1: Stmt, c2: Ctx, t2: Stmt)
    requires c.scopes != [] && c1.scopes != [] && Analyze(c, s) == Accepted(c1, s1)
      && Analyze(c1, t) == Accepted(c2, t2)
    ensures AnalyzeAll(c, [s, t]) == AcceptedAll(c2, [s1, t2])
  {
    hide Analyze;
    One(c1, t, c2, t2);
    assert [s, t][1..] == [t] && [s1] + [t2] == [s1, t2];
    Cons(c, [s, t], c1, s1, c2, [t2]);
  }

  lemma Three(c: Ctx, s: Stmt, t: Stmt, u: Stmt, c1: Ctx, s1: Stmt, c2: Ctx, t2: Stmt, c3: Ctx, u3: Stmt)
    requires c.scopes != [] && c1.scopes != [] && c2.scopes != []
    requires Analyze(c, s) == Accepted(c1, s1) && Analyze(c1, t) == Accepted(c2, t2)
      && Analyze(c2, u) == Accepted(c3, u3)
    ensures AnalyzeAll(c, [s, t, u]) == AcceptedAll(c3, [s1, t2, u3])
  {
    hide Analyze;
    Two(c1, t, u, c2, t2, c3, u3);
    assert [s, t, u][1..] == [t, u] && [s1] + [t2, u3] == [s1, t2, u3];
    Cons(c, [s, t, u], c1, s1, c3, [t2, u3]);
  }

  lemma BranchBody(b: Ctx)
    requires b.scopes != [] && b.loopDepth == 0 && b.moved == [Moved("x", false)] && Lookup(b, "x").Some?
      && Lookup(b, "y").Some?
    ensures AnalyzeAll(b, [Assign("x", New, BLANK), Consume("y", BLANK)]) ==
      AcceptedAll(b.(moved := [Moved("y", false)]), [Assign("x", New, BLANK), Consume("y", Note([], ["y"], false))])
  {
    hide Walk;
    hide FindVar;
    var b1, b2 := b.(moved := []), b.(moved := [Moved("y", false)]);
    assert Unmark([Moved("x", false)], "x") == [];
    assert Analyze(b, Assign("x", New, BLANK)) == Accepted(b1, Assign("x", New, BLANK));
    assert Analyze(b1, Consume("y", BLANK)) == Accepted(b2, Consume("y", Note([], ["y"], false)));
    Two(b, Assign("x", New, BLANK), Consume("y", BLANK), b1, Assign("x", New, BLANK), b2,
      Consume("y", Note([], ["y"], false)));
  }

  lemma BranchIf(c: Ctx)
    requires |c.scopes| == 1 && c.loopDepth == 0 && c.moved == [Moved("x", false)]
    requires var b := c.(scopes := c.scopes + [Scope([], false)]); Lookup(b, "x").Some? && Lookup(b, "y").Some?
    ensures Analyze(c, If([], Block([Assign("x", New, BLANK), Consume("y", BLANK)], BLANK), None)) ==
      Accepted(c, If([], Block([Assign("x", New, BLANK), Consume("y", Note([], ["y"], false))], BLANK), None))
  {
    hide Walk;
    hide FindVar;
    hide AnalyzeAll;
    hide Unmark;
    hide Mark;
    var mx, my := [Moved("x", false)], [Moved("y", false)];
    BranchBody(c.(scopes := c.scopes + [Scope([], false)]));
    var body := Block([Assign("x", New, BLANK), Consume("y", BLANK)], BLANK);
    var out := Block([Assign("x", New, BLANK), Consume("y", Note([], ["y"], false))], BLANK);
    NothingPending(my);
    assert Analyze(c, body) == Accepted(c.(moved := my), out);
    assert Tail(my, 1) == [];
    assert Merge(c, my, mx, false, false, false) == Some(mx);
    assert !EndsInJump(body);
    assert AnalyzeIf(c, If([], body, None)) == Accepted(c, If([], out, None));
  }

  lemma BranchAccepted()
    ensures Check(FORGETFUL_BRANCH) == AcceptedAll(Start(["x", "y"]).(moved := [Moved("x", false)]), [
      Consume("x", Note([], ["x"], false)),
      If([], Block([Assign("x", New, BLANK), Consume("y", Note([], ["y"], false))], BLANK), None),
      Borrow("y")])
  {
    var c0 := Start(["x", "y"]);
    var inner := [Scope([], false)];
    LookupParams(["x", "y"], [], "x");
    LookupParams(["x", "y"], [], "y");
    LookupParams(["x", "y"], inner, "x");
    LookupParams(["x", "y"], inner, "y");
    assert c0.scopes + [] == c0.scopes;
    hide Walk;
    hide FindVar;
    hide AnalyzeAll;
    hide AnalyzeIf;
    hide AnalyzeBlock;
    var c1 := c0.(moved := [Moved("x", false)]);
    var k := Consume("x", Note([], ["x"], false));
    assert Mark([], "x", false) == c1.moved;
    assert Analyze(c0, Consume("x", BLANK)) == Accepted(c1, k);
    BranchIf(c1);
    var f := If([], Block([Assign("x", New, BLANK), Consume("y", BLANK)], BLANK), None);
    var g := If([], Block([Assign("x", New, BLANK), Consume("y", Note([], ["y"], false))], BLANK), None);
    assert Analyze(c1, Borrow("y")) == Accepted(c1, Borrow("y"));
    Three(c0, Consume("x", BLANK), f, Borrow("y"), c1, k, c1, g, c1, Borrow("y"));
  }

  lemma TwoParams()
    ensures NoDup(["x", "y"]) && Entry(["x", "y"]).vars == map["x" := Some(0), "y" := Some(1)]
      && Release.Named(["x", "y"]) == {"x", "y"}
  {
    assert EntryVars(["x", "y"], 1) == map["x" := Some(0)];
    assert EntryVars(["x", "y"], 2) == map["x" := Some(0), "y" := Some(1)];
  }

  lemma OneParam()
    ensures NoDup(["x"]) && Entry(["x"]).vars == map["x" := Some(0)] && Release.Named(["x"]) == {"x"}
  { assert EntryVars(["x"], 1) == map["x" := Some(0)]; }

  lemma ExecCons(ss: seq<Stmt>, r: RState, ch: seq<bool>, r1: RState, ch1: seq<bool>)
    requires ss != [] && Exec(ss[0], r, ch) == Normal(r1, ch1)
    ensures ExecAll(ss, r, ch) == ExecAll(ss[1..], r1, ch1)
  {}

  lemma NullNone(r: RState)
    ensures NullAll(r, []) == r
  { assert (map x | x in r.vars :: if x in [] then None else r.vars[x]) == r.vars; }

  lemma NewRuns(r: RState)
    ensures Exec(Assign("x", New, BLANK), r, []) ==
      Normal(r.(vars := r.vars["x" := Some(r.next)], next := r.next + 1), [])
  {
    NullNone(r.(vars := r.vars["x" := Some(r.next)], next := r.next + 1));
    hide NullAll;
  }

  lemma ConsumeRuns(r: RState, id: nat)
    requires r.vars == map["x" := Some(id), "y" := Some(1)]
    ensures Exec(Consume("y", Note([], ["y"], false)), r,
      []) == Normal(r.(vars := map["x" := Some(id), "y" := None], handed := r.handed + [1]), [])
  { assert NullAll(r, ["y"]).vars == map["x" := Some(id), "y" := None]; }

  lemma BranchRuns(r: RState)
    requires r.vars == map["x" := None, "y" := Some(1)]
    ensures var body := Block([Assign("x", New, BLANK), Consume("y", Note([], ["y"], false))], BLANK);
      var o := Exec(body, r, []);
      o.Normal? && o.ch == [] && o.r.vars == map["x" := Some(r.next), "y" := None]
  {
    var s, t := Assign("x", New, BLANK), Consume("y", Note([], ["y"], false));
    var r1 := r.(vars := map["x" := Some(r.next), "y" := Some(1)], next := r.next + 1);
    var r2 := r1.(vars := map["x" := Some(r.next), "y" := None], handed := r.handed + [1]);
    assert r.vars["x" := Some(r.next)] == map["x" := Some(r.next), "y" := Some(1)];
    NewRuns(r);
    ConsumeRuns(r1, r.next);
    ExecCons([s, t], r, [], r1, []);
    assert [s, t][1..] == [t];
    ExecCons([t], r1, [], r2, []);
    assert [t][1..] == [];
    assert Restrict(r2, r.vars.Keys) == r2;
    hide NullAll;
    hide Yield;
  }

  /** The merge after an `if` looks only at entries beyond those the table had before it. A branch that re-initialises
      one of those and then moves another variable puts the new entry in its place, where the merge does not see it: the
      program is accepted and reads `y` after it was given away. */
  lemma BranchForgetsMove()
    ensures Release.WellScoped(FORGETFUL_BRANCH) && Check(FORGETFUL_BRANCH).AcceptedAll?
    ensures Call(FORGETFUL_BRANCH.params, Check(FORGETFUL_BRANCH).ss, Closing(Check(FORGETFUL_BRANCH).c),
      [true]).NullUse?
  {
    BranchAccepted();
    TwoParams();
    var s := Consume("x", Note([], ["x"], false));
    var body := Block([Assign("x", New, BLANK), Consume("y", Note([], ["y"], false))], BLANK);
    var t, u := If([], body, None), Borrow("y");
    var r0 := Entry(["x", "y"]);
    var r1 := r0.(vars := map["x" := None, "y" := Some(1)], handed := [0]);
    assert Exec(s, r0, [true]) == Normal(r1, [true]) by { assert NullAll(r0.(handed := [0]), ["x"]) == r1; }
    BranchRuns(r1);
    var o := Exec(body, r1, []);
    assert [true][1..] == [];
    assert Exec(t, r1, [true]) == o;
    ExecCons([s, t, u], r0, [true], r1, [true]);
    assert [s, t, u][1..] == [t, u];
    ExecCons([t, u], r1, [true], o.r, []);
    assert [t, u][1..] == [u];
    assert ExecAll([u], o.r, []).NullUse?;
    ForgetfulScoped();
  }

  lemma ForgetfulScoped()
    ensures Release.WellScoped(FORGETFUL_BRANCH)
  {
    TwoParams();
    var scope := {"x", "y"};
    var b1, b2 := Assign("x", New, BLANK), Consume("y", BLANK);
    ScopedTwo(b1, b2, scope);
    assert Facts.Scoped(Block([b1, b2], BLANK), scope);
    ScopedThree(Consume("x", BLANK), If([], Block([b1, b2], BLANK), None), Borrow("y"), scope);
  }

  // ----- A loop -----

  lemma LoopBody(c: Ctx)
    requires |c.scopes| == 1 && c.loopDepth == 0 && c.moved == [Moved("x", false)]
    requires Lookup(Ctx(c.moved, c.scopes + [Scope([], true)], 1), "x").Some?
    ensures var w := While([], Block([Assign("x", New, BLANK)], BLANK)); Analyze(c, w) == Accepted(c.(moved := []), w)
  {
    hide Walk;
    hide FindVar;
    hide AnalyzeAll;
    var a := Assign("x", New, BLANK);
    var b := Ctx(c.moved, c.scopes + [Scope([], true)], 1);
    assert Unmark([Moved("x", false)], "x") == [];
    hide Unmark;
    hide Mark;
    assert Analyze(b, a) == Accepted(b.(moved := []), a);
    One(b, a, b.(moved := []), a);
    NothingPending([]);
    hide Pending;
    assert AnalyzeBlock(c.(loopDepth := 1), Block([a], BLANK), true) ==
      Accepted(Ctx([], c.scopes, 1), Block([a], BLANK));
  }

  lemma LoopAccepted()
    ensures Check(FORGETFUL_LOOP) == AcceptedAll(Start(["x"]), [
      Consume("x", Note([], ["x"], false)), While([], Block([Assign("x", New, BLANK)], BLANK)), Borrow("x")])
  {
    var c0 := Start(["x"]);
    OneParam();
    LookupParams(["x"], [], "x");
    LookupParams(["x"], [Scope([], true)], "x");
    assert c0.scopes + [] == c0.scopes;
    hide Walk;
    hide FindVar;
    hide AnalyzeAll;
    hide AnalyzeBlock;
    var c1 := c0.(moved := [Moved("x", false)]);
    var k := Consume("x", Note([], ["x"], false));
    assert Mark([], "x", false) == c1.moved;
    assert Analyze(c0, Consume("x", BLANK)) == Accepted(c1, k);
    LoopBody(c1);
    var w := While([], Block([Assign("x", New, BLANK)], BLANK));
    assert Analyze(c0, Borrow("x")) == Accepted(c0, Borrow("x"));
    Three(c0, Consume("x", BLANK), w, Borrow("x"), c1, k, c0, w, c0, Borrow("x"));
  }

  lemma ScopedThree(s: Stmt, t: Stmt, u: Stmt, scope: set<string>)
    requires Facts.Scoped(s, scope) && Facts.Scoped(t, scope) && Facts.Scoped(u, scope) && !s.Let? && !t.Let? && !u.Let?
    ensures Facts.ScopedAll([s, t, u], scope)
  {
    hide Facts.Scoped;
    ScopedTwo(t, u, scope);
    assert [s, t, u][1..] == [t, u];
  }

  lemma ScopedOne(t: Stmt, scope: set<string>)
    requires Facts.Scoped(t, scope)
    ensures Facts.ScopedAll([t], scope)
  {
    hide Facts.Scoped;
    assert [t][1..] == [];
  }

  lemma ScopedTwo(t: Stmt, u: Stmt, scope: set<string>)
    requires Facts.Scoped(t, scope) && Facts.Scoped(u, scope) && !t.Let? && !u.Let?
    ensures Facts.ScopedAll([t, u], scope) && Facts.ScopedAll([t], scope)
  {
    hide Facts.Scoped;
    assert [t, u][1..] == [u] && [t][1..] == [] && [u][1..] == [];
    assert Facts.ScopedAll([u], scope);
  }

  lemma LoopScoped()
    ensures Release.WellScoped(FORGETFUL_LOOP)
  {
    OneParam();
    var a := Assign("x", New, BLANK);
    ScopedTwo(a, a, {"x"});
    var w := While([], Block([a], BLANK));
    assert Facts.Scoped(Block([a], BLANK), {"x"});
    ScopedThree(Consume("x", BLANK), w, Borrow("x"), {"x"});
  }

  /** The state after a loop is the state after its body, even for a body that re-initialises a moved variable and may
      not run at all. */
  lemma LoopForgetsMove()
    ensures Release.WellScoped(FORGETFUL_LOOP) && Check(FORGETFUL_LOOP).AcceptedAll?
    ensures Call(FORGETFUL_LOOP.params, Check(FORGETFUL_LOOP).ss, Closing(Check(FORGETFUL_LOOP).c), [false]).NullUse?
  {
    LoopAccepted();
    LoopScoped();
    OneParam();
    var s, w, u := Consume("x", Note([], ["x"], false)), While([], Block([Assign("x", New, BLANK)], BLANK)),
      Borrow("x");
    var r0 := Entry(["x"]);
    var r1 := r0.(vars := map["x" := None], handed := [0]);
    assert Exec(s, r0, [false]) == Normal(r1, [false]) by { assert NullAll(r0.(handed := [0]), ["x"]) == r1; }
    assert [false][1..] == [];
    assert Exec(w, r1, [false]) == Normal(r1, []);
    ExecCons([s, w, u], r0, [false], r1, [false]);
    assert [s, w, u][1..] == [w, u];
    ExecCons([w, u], r1, [false], r1, []);
    assert [w, u][1..] == [u];
    assert ExecAll([u], r1, []).NullUse?;
  }

  // ----- Leaks -----

  lemma ConsumeBody(c: Ctx)
    requires |c.scopes| == 1 && c.loopDepth == 0 && c.moved == []
      && Lookup(c.(scopes := c.scopes + [Scope([], false)]), "x").Some?
    ensures Analyze(c, Block([Consume("x", BLANK)], BLANK)) ==
      Accepted(c.(moved := [Moved("x", false)]), Block([Consume("x", Note([], ["x"], false))], BLANK))
  {
    hide Walk;
    hide FindVar;
    hide AnalyzeAll;
    var k, k1 := Consume("x", BLANK), Consume("x", Note([], ["x"], false));
    var sure := [Moved("x", false)];
    var b := c.(scopes := c.scopes + [Scope([], false)]);
    assert Mark([], "x", false) == sure;
    assert Analyze(b, k) == Accepted(b.(moved := sure), k1);
    One(b, k, b.(moved := sure), k1);
    NothingPending(sure);
  }

  lemma MergeOne(c: Ctx)
    requires c.loopDepth == 0 && c.moved == [] && Lookup(c, "x").Some?
    ensures Merge(c, [Moved("x", false)], [], false, false, false) == Some([Moved("x", true)])
  {
    hide Walk;
    hide FindVar;
    var sure, maybe := [Moved("x", false)], [Moved("x", true)];
    assert Mark([], "x", true) == maybe && maybe[1..] == [];
    assert Tail(sure, 0) == sure && AllMaybe(sure) == maybe;
    assert Remark(c, [], maybe) == Remark(c, maybe, []);
  }

  lemma AssignIf(c: Ctx)
    requires |c.scopes| == 1 && c.loopDepth == 0 && c.moved == [] && Lookup(c, "x").Some?
    requires Lookup(c.(scopes := c.scopes + [Scope([], false)]), "x").Some?
    ensures Analyze(c, If([], Block([Consume("x", BLANK)], BLANK), None)) ==
      Accepted(c.(moved := [Moved("x", true)]), If([], Block([Consume("x", Note([], ["x"], false))], BLANK), None))
  {
    hide Walk;
    hide FindVar;
    hide AnalyzeAll;
    hide AnalyzeBlock;
    hide Merge;
    ConsumeBody(c);
    MergeOne(c);
    var body, out := Block([Consume("x", BLANK)], BLANK), Block([Consume("x", Note([], ["x"], false))], BLANK);
    assert !EndsInJump(body);
    assert AnalyzeIf(c, If([], body, None)) == Accepted(c.(moved := [Moved("x", true)]), If([], out, None));
  }

  lemma AssignAccepted()
    ensures Check(LEAKY_ASSIGN) == AcceptedAll(Start(["x"]), [
      If([], Block([Consume("x", Note([], ["x"], false))], BLANK), None), Assign("x", New, BLANK)])
  {
    var c0 := Start(["x"]);
    OneParam();
    LookupParams(["x"], [], "x");
    LookupParams(["x"], [Scope([], false)], "x");
    assert c0.scopes + [] == c0.scopes;
    hide Walk;
    hide FindVar;
    hide AnalyzeAll;
    hide AnalyzeIf;
    AssignIf(c0);
    var maybe := [Moved("x", true)];
    var c1 := c0.(moved := maybe);
    assert Unmark(maybe, "x") == [];
    var a := Assign("x", New, BLANK);
    assert Analyze(c1, a) == Accepted(c0, a);
    Two(c0, If([], Block([Consume("x", BLANK)], BLANK), None), a, c1,
      If([], Block([Consume("x", Note([], ["x"], false))], BLANK), None), c0, a);
  }

  lemma ReleaseX(r: RState, id: nat)
    requires r.vars == map["x" := Some(id)]
    ensures ReleaseAll(r, ["x"]) == r.(released := r.released + [id])
  {
    assert ["x"][1..] == [];
    assert ReleaseAll(r, ["x"]) == ReleaseAll(ReleaseVar(r, "x"), []);
  }

  lemma LeakRuns(f: Stmt, r: RState)
    requires f == If([], Block([Consume("x", Note([], ["x"], false))], BLANK), None)
    ensures ExecAll([f, Assign("x", New, BLANK)], r,
      [false]) == Normal(r.(vars := r.vars["x" := Some(r.next)], next := r.next + 1), [])
  {
    var a := Assign("x", New, BLANK);
    var r1 := r.(vars := r.vars["x" := Some(r.next)], next := r.next + 1);
    assert [false][1..] == [];
    assert Exec(f, r, [false]) == Normal(r, []);
    NewRuns(r);
    hide Exec;
    ExecCons([f, a], r, [false], r, []);
    assert [f, a][1..] == [a];
    ExecCons([a], r, [], r1, []);
    assert [a][1..] == [];
  }

  lemma LeakyAssignScoped()
    ensures Release.WellScoped(LEAKY_ASSIGN)
  {
    OneParam();
    ScopedOne(Consume("x", BLANK), {"x"});
    ScopedTwo(If([], Block([Consume("x", BLANK)], BLANK), None), Assign("x", New, BLANK), {"x"});
  }

  lemma LeakyReturnScoped()
    ensures Release.WellScoped(LEAKY_RETURN)
  {
    OneParam();
    ScopedOne(Return(Some("x"), BLANK), {"x"});
    ScopedOne(LEAKY_RETURN.body[0], {"x"});
  }

  /** Reassigning a variable that only one branch moved releases nothing: on the other path its object is lost. */
  lemma ReassignmentLeaks()
    ensures Release.WellScoped(LEAKY_ASSIGN) && Check(LEAKY_ASSIGN).AcceptedAll?
    ensures var o := Call(LEAKY_ASSIGN.params, Check(LEAKY_ASSIGN).ss, Closing(Check(LEAKY_ASSIGN).c), [false]);
      o.Returned? && o.r.next == 2 && !Release.Logged(o.r, 0)
  {
    hide AnalyzeAll;
    hide ExecAll;
    hide ReleaseAll;
    hide EntryVars;
    hide Pending;
    AssignAccepted();
    LeakyAssignScoped();
    OneParam();
    var r0 := Entry(["x"]);
    assert r0.vars["x" := Some(1)] == map["x" := Some(1)];
    LeakRuns(If([], Block([Consume("x", Note([], ["x"], false))], BLANK), None), r0);
    OnlyX(Start(["x"]));
    ReleaseX(r0.(vars := map["x" := Some(1)], next := 2), 1);
  }

  lemma OnlyX(c: Ctx)
    requires c == Start(["x"])
    ensures Closing(c) == ["x"]
  {
    var vs := c.scopes[0].vars;
    assert vs == [OwnVar("x", 0)] && vs[..0] == [];
    assert Pending([], vs) == Pending([], vs[..0]) + ["x"];
  }

  lemma WalkX(b: Ctx)
    requires b == Ctx([], Start(["x"]).scopes + [Scope([], true)], 1)
    ensures Walk(b.scopes, true) == [OwnVar("x", 0)] && Lookup(b, "x") == Some(OwnVar("x", 0))
  {
    var c0 := Start(["x"]);
    assert b.scopes[..1] == c0.scopes && c0.scopes[..0] == [];
    assert Walk(c0.scopes, true) == [OwnVar("x", 0)] + [];
    assert Walk(b.scopes, true) == [] + Walk(c0.scopes, true);
  }

  lemma MovedNotPending()
    ensures Pending([Moved("x", false)], [OwnVar("x", 0)]) == []
  {
    var vs := [OwnVar("x", 0)];
    assert vs[..0] == [];
    assert Pending([Moved("x", false)], vs) == Pending([Moved("x", false)], vs[..0]);
  }

  lemma ReturnAccepted()
    ensures Check(LEAKY_RETURN) == AcceptedAll(Start(["x"]).(moved := [Moved("x", false)]), [
      While([], Block([Return(Some("x"), BLANK)], BLANK))])
  {
    var c0 := Start(["x"]);
    var sure := [Moved("x", false)];
    var b := Ctx([], c0.scopes + [Scope([], true)], 1);
    WalkX(b);
    MovedNotPending();
    NothingPending(sure);
    hide Walk;
    hide FindVar;
    hide AnalyzeAll;
    hide Pending;
    var ret := Return(Some("x"), BLANK);
    assert Mark([], "x", false) == sure;
    assert Move(b, "x", true) == Some(b.(moved := sure));
    assert Analyze(b, ret) == Accepted(b.(moved := sure), ret);
    One(b, ret, b.(moved := sure), ret);
    var w := While([], Block([ret], BLANK));
    assert Analyze(c0, w) == Accepted(c0.(moved := sure), w);
    One(c0, w, c0.(moved := sure), w);
  }

  lemma NothingPending(m: seq<Moved>)
    ensures Pending(m, []) == []
  {}

  /** A loop body that returns a variable marks it as moved for the code after the loop as well, which is reached when
      the body does not run: the variable is then never released. */
  lemma ReturnInLoopLeaks()
    ensures Release.WellScoped(LEAKY_RETURN) && Check(LEAKY_RETURN).AcceptedAll?
    ensures var o := Call(LEAKY_RETURN.params, Check(LEAKY_RETURN).ss, Closing(Check(LEAKY_RETURN).c), [false]);
      o.Returned? && o.r.next == 1 && !Release.Logged(o.r, 0)
  {
    ReturnAccepted();
    LeakyReturnScoped();
    OneParam();
    var w := While([], Block([Return(Some("x"), BLANK)], BLANK));
    var r0 := Entry(["x"]);
    assert [false][1..] == [];
    assert Exec(w, r0, [false]) == Normal(r0, []);
    ExecCons([w], r0, [false], r0, []);
    assert [w][1..] == [];
    var c := Start(["x"]).(moved := [Moved("x", false)]);
    assert c.scopes[0].vars == [OwnVar("x", 0)];
    MovedNotPending();
  }

  // ----- Forgetting that does no harm -----

  /** `if { x = new; while { return y; } }`. */
  const HARMLESS := If([],
    Block([Assign("x", New, BLANK), While([], Block([Return(Some("y"), BLANK)], BLANK))], BLANK), None)

  const X_MOVED := Start(["x", "y"]).(moved := [Moved("x", false)])

  function Returning(note: Note): Stmt { While([], Block([Return(Some("y"), note)], BLANK)) }

  function ReturnNote(b: Ctx): Note {
    Note(Pending([Moved("y", false)], Walk(b.scopes + [Scope([], true)], true)), [], false)
  }

  lemma ReturningAccepted(b: Ctx)
    requires 0 < |b.scopes| < MAX_SCOPES && b.moved == [] && b.loopDepth == 0
    requires Lookup(Ctx([], b.scopes + [Scope([], true)], 1), "y").Some?
    ensures Analyze(b, Returning(BLANK)) == Accepted(b.(moved := [Moved("y", false)]), Returning(ReturnNote(b)))
  {
    var my := [Moved("y", false)];
    var inner := Ctx([], b.scopes + [Scope([], true)], 1);
    hide Walk;
    hide FindVar;
    hide AnalyzeAll;
    NothingPending(my);
    hide Pending;
    assert Mark([], "y", false) == my;
    hide Mark;
    var ret, done := Return(Some("y"), BLANK), Return(Some("y"), ReturnNote(b));
    assert Analyze(inner, ret) == Accepted(inner.(moved := my), done);
    One(inner, ret, inner.(moved := my), done);
    assert AnalyzeBlock(b.(loopDepth := 1), Block([ret], BLANK), true) ==
      Accepted(Ctx(my, b.scopes, 1), Block([done], BLANK));
  }

  lemma HarmlessBranch(c: Ctx)
    requires |c.scopes| == 1 && c.loopDepth == 0 && c.moved == [Moved("x", false)]
    requires var b := c.scopes + [Scope([], false)];
      Lookup(c.(scopes := b), "x").Some? && Lookup(Ctx([], b + [Scope([], true)], 1), "y").Some?
    ensures var note := ReturnNote(c.(scopes := c.scopes + [Scope([], false)]));
      Analyze(c, HARMLESS.thenB) ==
        Accepted(c.(moved := [Moved("y", false)]), Block([Assign("x", New, BLANK), Returning(note)], BLANK))
  {
    var my := [Moved("y", false)];
    var b := c.(scopes := c.scopes + [Scope([], false)]);
    var b1 := b.(moved := []);
    hide Walk;
    hide FindVar;
    hide AnalyzeAll;
    assert Unmark([Moved("x", false)], "x") == [];
    hide Unmark;
    NothingPending(my);
    hide Pending;
    ReturningAccepted(b1);
    assert Analyze(b, Assign("x", New, BLANK)) == Accepted(b1, Assign("x", New, BLANK));
    hide AnalyzeIf;
    Two(b, Assign("x", New, BLANK), Returning(BLANK), b1, Assign("x", New, BLANK), b1.(moved := my),
      Returning(ReturnNote(b1)));
    assert ReturnNote(b1) == ReturnNote(b);
  }

  lemma HarmlessAccepted()
    ensures var first, note := HARMLESS.thenB, ReturnNote(X_MOVED.(scopes := X_MOVED.scopes + [Scope([], false)]));
      var body := Block([Assign("x", New, BLANK), Returning(note)], BLANK);
      && Analyze(X_MOVED, first) == Accepted(X_MOVED.(moved := [Moved("y", false)]), body)
      && Analyze(X_MOVED, HARMLESS) == Accepted(X_MOVED, If([], body, None))
  {
    var inner, loop := [Scope([], false)], [Scope([], false), Scope([], true)];
    LookupParams(["x", "y"], inner, "x");
    LookupParams(["x", "y"], loop, "y");
    var c, mx, my := X_MOVED, [Moved("x", false)], [Moved("y", false)];
    assert c.scopes + inner + [Scope([], true)] == c.scopes + loop;
    hide Walk;
    hide FindVar;
    HarmlessBranch(c);
    hide Analyze;
    assert Tail(my, 1) == [];
    assert Merge(c, my, mx, false, false, false) == Some(mx);
    IfWithout(c, HARMLESS.thenB, my, Analyze(c, HARMLESS.thenB).st);
  }

  lemma IfWithout(c: Ctx, first: Stmt, m: seq<Moved>, out: Stmt)
    requires c.scopes != [] && Analyze(c, first) == Accepted(c.(moved := m), out) && !EndsInJump(first)
    requires Merge(c, m, c.moved, false, false, false) == Some(c.moved)
    ensures Analyze(c, If([], first, None)) == Accepted(c, If([], out, None))
  {
    hide Merge;
    assert c.(moved := c.moved) == c;
  }

  lemma ReturningRuns(note: Note, r: RState, ch: seq<bool>)
    requires Holds(r, "y")
    ensures var o := Exec(Returning(note), r, ch); !o.NullUse? && (o.Normal? ==> Holds(o.r, "y"))
  {
    hide ReleaseAll;
    if ch != [] && ch[0] {
      var ret := Return(Some("y"), note);
      assert Exec(ret, r, ch[1..]).Returned?;
      assert ExecAll([ret], r, ch[1..]).Returned?;
      assert Exec(Block([ret], BLANK), r, ch[1..]).Returned?;
    }
  }

  lemma HarmlessRuns(note: Note, r: RState, ch: seq<bool>)
    requires r.vars.Keys == {"x", "y"} && Holds(r, "y")
    ensures var o := Exec(Block([Assign("x", New, BLANK), Returning(note)], BLANK), r, ch);
      !o.NullUse? && (o.Normal? ==> Holds(o.r, "y"))
  {
    var s, t := Assign("x", New, BLANK), Returning(note);
    var r1 := r.(vars := r.vars["x" := Some(r.next)], next := r.next + 1);
    NullNone(r1);
    assert Exec(s, r, ch) == Normal(r1, ch);
    ReturningRuns(note, r1, ch);
    hide Exec;
    assert [s, t][1..] == [t] && [t][1..] == [];
    var o := Exec(t, r1, ch);
    assert ExecAll([s, t], r, ch) == ExecAll([t], r1, ch);
    assert ExecAll([t], r1, ch) == o;
    BlockOf([s, t], r, ch, o);
  }

  lemma BlockOf(ss: seq<Stmt>, r: RState, ch: seq<bool>, o: Out)
    requires ExecAll(ss, r, ch) == o && !o.NullUse? && r.vars.Keys == {"x", "y"} && (o.Normal? ==> Holds(o.r, "y"))
    ensures var q := Exec(Block(ss, BLANK), r, ch); !q.NullUse? && (q.Normal? ==> Holds(q.r, "y"))
  {}

  lemma BorrowAfter(s: Stmt, r: RState, ch: seq<bool>)
    requires var o := Exec(s, r, ch); !o.NullUse? && (o.Normal? ==> Holds(o.r, "y"))
    ensures !ExecAll([s, Borrow("y")], r, ch).NullUse?
  {
    var o := Exec(s, r, ch);
    assert [s, Borrow("y")][1..] == [Borrow("y")];
    if o.Normal? { BorrowRuns(o.r, o.ch); }
    hide Exec;
  }

  lemma BorrowRuns(r: RState, ch: seq<bool>)
    requires Holds(r, "y")
    ensures ExecAll([Borrow("y")], r, ch) == Normal(r, ch)
  { assert [Borrow("y")][1..] == []; }

  lemma IfRuns(body: Stmt, r: RState, ch: seq<bool>)
    requires Holds(r, "y")
      && (ch != [] ==> var o := Exec(body, r, ch[1..]); !o.NullUse? && (o.Normal? ==> Holds(o.r, "y")))
    ensures !ExecAll([If([], body, None), Borrow("y")], r, ch).NullUse?
  { BorrowAfter(If([], body, None), r, ch); }

  lemma XMoved()
    ensures Facts.All(X_MOVED) == {"x", "y"} && Names(X_MOVED.moved) == {"x"} && "y" in Names([Moved("y", false)])
    ensures Names([]) == {}
  {
    var vs := X_MOVED.scopes[0].vars;
    assert X_MOVED.scopes[..0] == [];
    assert Walk(X_MOVED.scopes, true) == vs + [] == vs;
    assert vs[0].name == "x" && vs[1].name == "y";
    assert X_MOVED.moved[0].name == "x" && [Moved("y", false)][0].name == "y";
  }

  lemma YHeld(r: RState)
    requires Good(X_MOVED, r)
    ensures r.vars.Keys == {"x", "y"} && Holds(r, "y")
  { XMoved(); }

  lemma Forgotten(st: Stmt)
    requires st.If? && !EndsInJump(st.thenB) && st.elseB.None?
    requires Analyze(X_MOVED, st.thenB).Accepted? && Analyze(X_MOVED, st.thenB).c.moved == [Moved("y", false)]
    ensures !IfRemembers(X_MOVED, st)
  {
    hide Analyze;
    XMoved();
    hide Names;
    assert Head([Moved("y", false)], 1) == [Moved("y", false)] && Tail([Moved("y", false)], 1) == [];
    assert Tail(X_MOVED.moved, 1) == [];
  }

  lemma ReadX(st: Stmt)
    requires Analyze(X_MOVED, st).Accepted? && Analyze(X_MOVED, st).c == X_MOVED
    ensures AnalyzeAll(X_MOVED, [st, Borrow("x")]).RejectedAll?
  {
    LookupParams(["x", "y"], [], "x");
    assert X_MOVED.scopes + [] == X_MOVED.scopes;
    XMoved();
    hide Walk;
    hide FindVar;
    assert Analyze(X_MOVED, Borrow("x")).Rejected?;
    hide Analyze;
    assert [st, Borrow("x")][1..] == [Borrow("x")];
  }

  lemma ReadY(st: Stmt)
    requires Analyze(X_MOVED, st).Accepted? && Analyze(X_MOVED, st).c == X_MOVED
    ensures AnalyzeAll(X_MOVED, [st, Borrow("y")]) == AcceptedAll(X_MOVED, [Analyze(X_MOVED, st).st, Borrow("y")])
  {
    XMoved();
    assert Analyze(X_MOVED, Borrow("y")) == Accepted(X_MOVED, Borrow("y"));
    hide Analyze;
    Two(X_MOVED, st, Borrow("y"), X_MOVED, Analyze(X_MOVED, st).st, X_MOVED, Borrow("y"));
  }

  /** Why the condition on an `if` is exact only for branches without loops and jumps: here the merge forgets that `y`
      was moved, but only by runs that have returned, and what may be read afterwards is always there. */
  lemma ForgettingMayBeHarmless(z: string, r: RState, ch: seq<bool>)
    requires z in Facts.All(X_MOVED) && Good(X_MOVED, r)
    ensures Analyze(X_MOVED, HARMLESS).Accepted? && !IfRemembers(X_MOVED, HARMLESS)
    ensures var v := AnalyzeAll(X_MOVED, [HARMLESS, Borrow(z)]); v.AcceptedAll? ==> !ExecAll(v.ss, r, ch).NullUse?
  {
    hide *;
    HarmlessAccepted();
    XMoved();
    YHeld(r);
    HarmlessIs();
    Forgotten(HARMLESS);
    if z == "x" {
      ReadX(HARMLESS);
    } else {
      var note := ReturnNote(X_MOVED.(scopes := X_MOVED.scopes + [Scope([], false)]));
      ReadY(HARMLESS);
      if ch != [] { HarmlessRuns(note, r, ch[1..]); }
      IfRuns(Block([Assign("x", New, BLANK), Returning(note)], BLANK), r, ch);
    }
  }

  lemma HarmlessIs()
    ensures HARMLESS.If? && HARMLESS.elseB.None? && !EndsInJump(HARMLESS.thenB)
  {}
}
