// What the checker keeps about its scopes and its moved table.

module OwnershipFacts {
  import opened Options
  import opened Ownership

  ghost predicate DistinctNames(vs: seq<OwnVar>) { forall i, j :: 0 <= i < j < |vs| ==> vs[i].name != vs[j].name }

  ghost predicate TableOk(m: seq<Moved>) { forall i, j :: 0 <= i < j < |m| ==> m[i].name != m[j].name }

  /** All variables in scope; those declared in the innermost loop body (in the whole function, outside loops); the
      rest. */
  ghost function All(c: Ctx): set<string> { VarNames(Walk(c.scopes, true)) }
  ghost function Here(c: Ctx): set<string> { VarNames(Walk(c.scopes, false)) }
  ghost function Outside(c: Ctx): set<string> { All(c) - Here(c) }

  ghost predicate DepthRight(c: Ctx, v: OwnVar) {
    if v.name in Here(c) then v.declDepth == c.loopDepth else v.declDepth < c.loopDepth
  }

  /** Names are in scope once, declaration depths tell what lies outside the loop, and table entries are distinct. */
  ghost predicate Wf(c: Ctx) {
    && c.scopes != [] && TableOk(c.moved) && DistinctNames(Walk(c.scopes, true)) && Here(c) <= All(c)
    && forall v :: v in Walk(c.scopes, true) ==> DepthRight(c, v)
  }

  function After(scope: set<string>, st: Stmt): set<string> { if st.Let? then scope + {st.x} else scope }

  predicate RhsScoped(rhs: Rhs, scope: set<string>) { rhs.New? || rhs.y in scope }

  /** Every variable mentioned is in scope, no declaration hides another one, and branches and loop bodies are blocks
      (or `else if` chains), as the parser makes them. */
  predicate Scoped(st: Stmt, scope: set<string>)
    decreases st
  {
    match st
    case Let(x, rhs, _) => x !in scope && RhsScoped(rhs, scope)
    case Assign(x, rhs, _) => x in scope && RhsScoped(rhs, scope)
    case Borrow(y) => y in scope
    case Consume(y, _) => y in scope
    case Block(ss, _) => ScopedAll(ss, scope)
    case If(cond, a, b) =>
      && (forall k :: 0 <= k < |cond| ==> cond[k].y in scope) && a.Block? && Scoped(a, scope)
      && (b.Some? ==> (b.value.Block? || b.value.If?) && Scoped(b.value, scope))
    case While(cond, body) => (forall k :: 0 <= k < |cond| ==> cond[k].y in scope) && body.Block? && Scoped(body, scope)
    case Return(Some(y), _) => y in scope
    case _ => true
  }

  predicate ScopedAll(ss: seq<Stmt>, scope: set<string>)
    decreases ss
  { ss == [] || (Scoped(ss[0], scope) && ScopedAll(ss[1..], After(scope, ss[0]))) }

  // ----- Tables -----

  lemma SurelyAt(m: seq<Moved>, y: string)
    requires TableOk(m)
    ensures Surely(m, y) <==> Moved(y, false) in m
  {
    var i := IndexOf(m, y);
    if k :| 0 <= k < |m| && m[k] == Moved(y, false) { assert m[k].name == y && i <= k; }
  }

  lemma NameAt(m: seq<Moved>, y: string)
    ensures y in Names(m) <==> Moved(y, false) in m || Moved(y, true) in m
  {
    if y in Names(m) { var k :| 0 <= k < |m| && m[k].name == y; assert m[k] == Moved(y, m[k].maybe); }
    if k :| 0 <= k < |m| && m[k] == Moved(y, false) { assert m[k].name == y; }
    if k :| 0 <= k < |m| && m[k] == Moved(y, true) { assert m[k].name == y; }
  }

  lemma MarkEntries(m: seq<Moved>, x: string, maybe: bool)
    requires TableOk(m)
    ensures var r := Mark(m, x, maybe);
      && TableOk(r) && (forall e :: e in r && e.name != x <==> e in m && e.name != x)
      && (Moved(x, false) in r <==> !maybe && (x !in Names(m) || Moved(x, false) in m))
      && x in Names(r)
  {
    var r, i := Mark(m, x, maybe), IndexOf(m, x);
    assert r[i].name == x;
    forall e | e in m && e.name != x ensures e in r { var k :| 0 <= k < |m| && m[k] == e; assert r[k] == e; }
    if i < |m| && Moved(x, false) in m { SurelyAt(m, x); assert m[i] == Moved(x, false); }
    if k :| 0 <= k < |r| && r[k] == Moved(x, false) { assert k == i; }
  }

  lemma MarkFacts(m: seq<Moved>, x: string, maybe: bool)
    requires TableOk(m)
    ensures var r := Mark(m, x, maybe); TableOk(r) && Names(r) == Names(m) + {x}
    ensures x !in Names(m) ==> Mark(m, x, maybe) == m + [Moved(x, maybe)]
    ensures var r := Mark(m, x, maybe);
      forall y :: Surely(r, y) <==> if y == x then !maybe && (x !in Names(m) || Surely(m, x)) else Surely(m, y)
  {
    var r := Mark(m, x, maybe);
    MarkEntries(m, x, maybe);
    hide Mark;
    hide Surely;
    hide TableOk;
    hide Names;
    forall y
      ensures (y in Names(r) <==> y == x || y in Names(m))
        && (Surely(r, y) <==> if y == x then !maybe && (x !in Names(m) || Surely(m, x)) else Surely(m, y))
    {
      NameAt(r, y);
      NameAt(m, y);
      SurelyAt(r, y);
      SurelyAt(m, y);
    }
    MarkNew(m, x, maybe);
  }

  lemma MarkNew(m: seq<Moved>, x: string, maybe: bool)
    ensures x !in Names(m) ==> Mark(m, x, maybe) == m + [Moved(x, maybe)]
  {}

  lemma UnmarkEntries(m: seq<Moved>, x: string)
    requires TableOk(m)
    ensures var r := Unmark(m, x); TableOk(r) && forall e :: e in r <==> e in m && e.name != x
  {
    var r, i := Unmark(m, x), IndexOf(m, x);
    if i < |m| {
      assert forall k :: 0 <= k < |r| ==> r[k] == if k == i then m[|m|-1] else m[k];
      forall e | e in m && e.name != x ensures e in r {
        var k :| 0 <= k < |m| && m[k] == e;
        assert if k == |m| - 1 then r[i] == e else r[k] == e;
      }
      forall e | e in r ensures e in m && e.name != x { var k :| 0 <= k < |r| && r[k] == e; }
    } else {
      forall e | e in m ensures e.name != x { var k :| 0 <= k < |m| && m[k] == e; }
    }
  }

  lemma UnmarkFacts(m: seq<Moved>, x: string)
    requires TableOk(m)
    ensures var r := Unmark(m, x); TableOk(r) && Names(r) == Names(m) - {x}
    ensures x !in Names(m) ==> Unmark(m, x) == m
    ensures var r := Unmark(m, x); forall y :: Surely(r, y) <==> y != x && Surely(m, y)
  {
    var r := Unmark(m, x);
    UnmarkEntries(m, x);
    UnmarkAbsent(m, x);
    hide Unmark;
    hide Surely;
    hide TableOk;
    hide Names;
    forall y ensures (y in Names(r) <==> y != x && y in Names(m)) && (Surely(r, y) <==> y != x && Surely(m, y)) {
      NameAt(r, y);
      NameAt(m, y);
      SurelyAt(r, y);
      SurelyAt(m, y);
    }
  }

  lemma UnmarkAbsent(m: seq<Moved>, x: string)
    ensures x !in Names(m) ==> Unmark(m, x) == m
  {}

  /** Unmarking an entry that stands in the later part of the table leaves the earlier part alone. */
  // ----- Scopes -----

  lemma {:induction false} FindIn(vs: seq<OwnVar>, x: string)
    ensures FindVar(vs, x).Some? <==> x in VarNames(vs)
    ensures FindVar(vs, x).Some? ==> FindVar(vs, x).value in vs && FindVar(vs, x).value.name == x
  {
    if vs != [] {
      FindIn(vs[1..], x);
      assert vs[0].name in VarNames(vs);
      if x in VarNames(vs) && vs[0].name != x {
        var k :| 0 <= k < |vs| && vs[k].name == x;
        assert vs[1..][k-1].name == x;
      }
      if x in VarNames(vs[1..]) {
        var k :| 0 <= k < |vs[1..]| && vs[1..][k].name == x;
        assert vs[k+1].name == x;
      }
    }
  }

  lemma LookupIs(c: Ctx, x: string)
    requires Wf(c)
    ensures Lookup(c, x).Some? <==> x in All(c)
    ensures x in All(c) ==> (LoopAllows(c, x) <==> x in Here(c))
  { FindIn(Walk(c.scopes, true), x); }

  lemma VarNamesConcat(a: seq<OwnVar>, b: seq<OwnVar>)
    ensures VarNames(a + b) == VarNames(a) + VarNames(b)
  {
    var s := a + b;
    forall x | x in VarNames(a) + VarNames(b) ensures x in VarNames(s) {
      if x in VarNames(a) { var k :| 0 <= k < |a| && a[k].name == x; assert s[k].name == x; }
      else { var k :| 0 <= k < |b| && b[k].name == x; assert s[|a| + k].name == x; }
    }
  }

  /** The walk as the innermost scope and what lies around it. */
  function Around(scopes: seq<Scope>, all: bool): seq<OwnVar>
    requires scopes != []
  {
    var top := scopes[|scopes|-1];
    if top.isLoop && !all then [] else Walk(scopes[..|scopes|-1], all)
  }

  lemma WalkSplit(scopes: seq<Scope>, all: bool)
    requires scopes != []
    ensures Walk(scopes, all) == scopes[|scopes|-1].vars + Around(scopes, all)
    ensures VarNames(Walk(scopes, all)) == VarNames(scopes[|scopes|-1].vars) + VarNames(Around(scopes, all))
  { VarNamesConcat(scopes[|scopes|-1].vars, Around(scopes, all)); }

  lemma DeclareWalk(c: Ctx, x: string, all: bool)
    requires c.scopes != []
    ensures var top := c.scopes[|c.scopes|-1].vars; var v := OwnVar(x, c.loopDepth); var d := Declare(c, x);
      && Walk(c.scopes, all) == top + Around(c.scopes, all) && Walk(d.scopes, all) == top + [v] + Around(c.scopes, all)
      && VarNames(Walk(d.scopes, all)) == VarNames(Walk(c.scopes, all)) + {x}
  {
    var d, n := Declare(c, x), |c.scopes| - 1;
    var top, v := c.scopes[n].vars, OwnVar(x, c.loopDepth);
    assert d.scopes[..n] == c.scopes[..n];
    WalkSplit(c.scopes, all);
    WalkSplit(d.scopes, all);
    VarNamesConcat(top, [v]);
    assert VarNames([v]) == {x} by { assert [v][0].name == x; }
  }

  lemma DistinctInsert(a: seq<OwnVar>, v: OwnVar, b: seq<OwnVar>)
    requires DistinctNames(a + b) && v.name !in VarNames(a + b)
    ensures DistinctNames(a + [v] + b)
  {
    var w, u := a + b, a + [v] + b;
    assert forall i :: 0 <= i < |w| ==> w[i].name in VarNames(w);
    forall i, j | 0 <= i < j < |u| ensures u[i].name != u[j].name {
      var k, l := if i < |a| then i else i - 1, if j < |a| then j else j - 1;
      if i != |a| { assert u[i] == w[k]; }
      if j != |a| { assert u[j] == w[l]; }
    }
  }

  lemma DeclareFacts(c: Ctx, x: string)
    requires Wf(c) && x !in All(c)
    ensures var d := Declare(c, x); Wf(d) && All(d) == All(c) + {x} && Outside(d) == Outside(c) && x in Here(d)
    ensures var d := Declare(c, x);
      d.scopes[|d.scopes|-1].vars == c.scopes[|c.scopes|-1].vars + [OwnVar(x, c.loopDepth)]
    ensures var d := Declare(c, x); d.scopes[..|d.scopes|-1] == c.scopes[..|c.scopes|-1] && d.loopDepth == c.loopDepth
  {
    var d := Declare(c, x);
    var top, v := c.scopes[|c.scopes|-1].vars, OwnVar(x, c.loopDepth);
    UnmarkFacts(c.moved, x);
    DeclareWalk(c, x, true);
    DeclareWalk(c, x, false);
    DistinctInsert(top, v, Around(c.scopes, true));
    hide Walk;
    hide Around;
    hide VarNames;
    hide Unmark;
    hide TableOk;
    hide DistinctNames;
    forall q | q in Walk(d.scopes, true)
      ensures DepthRight(d, q)
    {
      if q != v { assert q in Walk(c.scopes, true); assert DepthRight(c, q); }
    }
  }

  lemma PushWalk(scopes: seq<Scope>, isLoop: bool, all: bool)
    ensures Walk(scopes + [Scope([], isLoop)], all) == if isLoop && !all then [] else Walk(scopes, all)
  { assert (scopes + [Scope([], isLoop)])[..|scopes|] == scopes; }

  /** Entering a block, and entering the body of a loop. */
  lemma PushFacts(c: Ctx)
    requires Wf(c)
    ensures var d := c.(scopes := c.scopes + [Scope([], false)]); Wf(d) && All(d) == All(c) && Here(d) == Here(c)
    ensures var d := Ctx(c.moved, c.scopes + [Scope([], true)], c.loopDepth + 1);
      Wf(d) && All(d) == All(c) && Here(d) == {}
  {
    PushWalk(c.scopes, false, true);
    PushWalk(c.scopes, false, false);
    PushWalk(c.scopes, true, true);
    PushWalk(c.scopes, true, false);
    assert VarNames([]) == {};
    hide Walk;
    hide VarNames;
    hide DistinctNames;
    hide TableOk;
    var b := c.(scopes := c.scopes + [Scope([], false)]);
    forall v | v in Walk(b.scopes, true) ensures DepthRight(b, v) { assert DepthRight(c, v); }
    var d := Ctx(c.moved, c.scopes + [Scope([], true)], c.loopDepth + 1);
    forall v | v in Walk(d.scopes, true) ensures DepthRight(d, v) { assert DepthRight(c, v); }
  }

  // ----- Analysis steps -----

  lemma MoveFacts(c: Ctx, y: string, exempt: bool)
    requires Wf(c) && y in All(c) && Move(c, y, exempt).Some?
    ensures var d := Move(c, y, exempt).value;
      && d == c.(moved := c.moved + [Moved(y, false)]) && y !in Names(c.moved) && (exempt || y in Here(c))
      && TableOk(d.moved) && Names(d.moved) == Names(c.moved) + {y}
      && (forall z :: Surely(d.moved, z) <==> z == y || Surely(c.moved, z))
  {
    LookupIs(c, y);
    MarkFacts(c.moved, y, false);
  }

  lemma SameScopes(c: Ctx, d: Ctx)
    requires Wf(c) && d == c.(moved := d.moved) && TableOk(d.moved)
    ensures Wf(d) && All(d) == All(c) && Here(d) == Here(c)
  {
    forall v | v in Walk(d.scopes, true) ensures DepthRight(d, v) { assert DepthRight(c, v); }
  }

  lemma RhsFacts(c: Ctx, rhs: Rhs, x: string, assigning: bool)
    requires Wf(c) && RhsScoped(rhs, All(c)) && MoveRhs(c, rhs, x, assigning).Some?
    ensures var d := MoveRhs(c, rhs, x, assigning).value;
      Wf(d) && All(d) == All(c) && Here(d) == Here(c) && d == c.(moved := d.moved)
  {
    if rhs.Var? && !(assigning && rhs.y == x) {
      MoveFacts(c, rhs.y, false);
      SameScopes(c, Move(c, rhs.y, false).value);
    }
    if rhs.CallOf? {
      MoveFacts(c, rhs.y, assigning && rhs.y == x);
      SameScopes(c, Move(c, rhs.y, assigning && rhs.y == x).value);
    }
  }

  lemma NamesCons(m: seq<Moved>)
    requires m != []
    ensures Names(m) == {m[0].name} + Names(m[1..])
  {
    assert forall k :: 0 < k < |m| ==> m[k] == m[1..][k-1];
    forall x | x in Names(m[1..])
      ensures x in Names(m)
    {
      var k :| 0 <= k < |m[1..]| && m[1..][k].name == x;
      assert m[k+1].name == x;
    }
    assert m[0].name in Names(m);
    forall x | x in Names(m) && x != m[0].name
      ensures x in Names(m[1..])
    {
      var k :| 0 <= k < |m| && m[k].name == x;
      assert m[1..][k-1].name == x;
    }
  }

  lemma NoNames()
    ensures Names([]) == {}
  {}

  lemma {:induction false} RemarkNames(c: Ctx, m: seq<Moved>, adds: seq<Moved>)
    requires Wf(c) && TableOk(m) && Remark(c, m, adds).Some?
    ensures var r := Remark(c, m, adds).value;
      TableOk(r) && forall x :: x in Names(r) <==> x in Names(m) || (x in Names(adds) && x in All(c))
    decreases |adds|
  {
    hide Wf;
    hide All;
    hide Names;
    hide Mark;
    hide Surely;
    hide TableOk;
    hide Lookup;
    NoNames();
    if adds != [] {
      NamesCons(adds);
      LookupIs(c, adds[0].name);
      MarkFacts(m, adds[0].name, adds[0].maybe);
      RemarkNames(c, if Lookup(c, adds[0].name).None? then m else Mark(m, adds[0].name, adds[0].maybe), adds[1..]);
    }
  }

  lemma MergeTable(c: Ctx, t: seq<Moved>, f: seq<Moved>, tEnds: bool, fEnds: bool, hasElse: bool)
    requires Wf(c) && TableOk(t) && TableOk(f) && Merge(c, t, f, tEnds, fEnds, hasElse).Some?
    ensures TableOk(Merge(c, t, f, tEnds, fEnds, hasElse).value)
  {
    hide Remark;
    if !tEnds && !fEnds {
      var n := |c.moved|;
      if !hasElse { RemarkNames(c, c.moved, AllMaybe(Tail(t, n))); }
      else {
        RemarkNames(c, c.moved, Both(Tail(t, n), Tail(f, n)));
        var m := Remark(c, c.moved, Both(Tail(t, n), Tail(f, n))).value;
        RemarkNames(c, m, AllMaybe(Without(Tail(f, n), Names(Tail(t, n)))));
      }
    }
  }

  /** The state after a statement: in shape, with its declaration (if any) added to the innermost scope. */
  ghost predicate Kept(c: Ctx, d: Ctx, declared: set<string>) {
    && Wf(d) && All(d) == All(c) + declared && Outside(d) == Outside(c) && d.loopDepth == c.loopDepth
      && |d.scopes| == |c.scopes|
    && |c.scopes| > 0 && d.scopes[..|d.scopes|-1] == c.scopes[..|c.scopes|-1]
    && d.scopes[|d.scopes|-1].isLoop == c.scopes[|c.scopes|-1].isLoop
    && (declared == {} ==> d.scopes == c.scopes)
    && VarNames(d.scopes[|d.scopes|-1].vars) == VarNames(c.scopes[|c.scopes|-1].vars) + declared
  }

  lemma KeptTable(c: Ctx, d: Ctx)
    requires Wf(c) && d == c.(moved := d.moved) && TableOk(d.moved)
    ensures Kept(c, d, {})
  { SameScopes(c, d); }

  lemma KeptTrans(a: Ctx, b: Ctx, c: Ctx, x: set<string>, y: set<string>)
    requires Kept(a, b, x) && Kept(b, c, y)
    ensures Kept(a, c, x + y)
  {
    hide Wf;
    hide All;
    hide Outside;
    hide VarNames;
  }

  function Declared(st: Stmt): set<string> { if st.Let? then {st.x} else {} }

  lemma {:induction false} KeptStmt(c: Ctx, st: Stmt)
    requires Wf(c) && Scoped(st, All(c)) && Analyze(c, st).Accepted?
    ensures Kept(c, Analyze(c, st).c, Declared(st))
    decreases st, 1
  {
    hide Wf;
    hide All;
    hide Here;
    hide TableOk;
    hide Move;
    var d := Analyze(c, st).c;
    match st
    case Let(x, rhs, _) =>
      RhsFacts(c, rhs, x, false);
      DeclareKept(c, MoveRhs(c, rhs, x, false).value, x);
    case Assign(x, rhs, _) =>
      RhsFacts(c, rhs, x, true);
      var c1 := MoveRhs(c, rhs, x, true).value;
      WfTable(c1);
      UnmarkFacts(c1.moved, x);
      KeptTable(c, d);
    case Borrow(y) => WfTable(c); KeptTable(c, d);
    case Consume(y, _) => MoveFacts(c, y, false); KeptTable(c, d);
    case Block(_, _) => KeptBlock(c, st, false);
    case If(_, _, _) => KeptIf(c, st);
    case While(cond, body) => KeptWhile(c, st);
    case Break(_) => WfTable(c); KeptTable(c, d);
    case Continue(_) => WfTable(c); KeptTable(c, d);
    case Return(None, _) => WfTable(c); KeptTable(c, d);
    case Return(Some(y), _) => MoveFacts(c, y, true); KeptTable(c, d);
  }

  lemma WfTable(c: Ctx)
    requires Wf(c)
    ensures TableOk(c.moved) && c.scopes != []
  {}

  lemma DeclareKept(c: Ctx, d: Ctx, x: string)
    requires Wf(c) && Wf(d) && d == c.(moved := d.moved) && x !in All(c)
    ensures Kept(c, Declare(d, x), {x})
  {
    DeclareFacts(d, x);
    VarNamesConcat(c.scopes[|c.scopes|-1].vars, [OwnVar(x, c.loopDepth)]);
    assert VarNames([OwnVar(x, c.loopDepth)]) == {x} by { assert [OwnVar(x, c.loopDepth)][0].name == x; }
  }

  lemma {:induction false} KeptAll(c: Ctx, ss: seq<Stmt>) returns (declared: set<string>)
    requires Wf(c) && ScopedAll(ss, All(c)) && AnalyzeAll(c, ss).AcceptedAll?
    ensures Kept(c, AnalyzeAll(c, ss).c, declared)
    decreases ss, 0
  {
    if ss == [] {
      declared := {};
      KeptTable(c, c);
    } else {
      KeptStmt(c, ss[0]);
      var d := Analyze(c, ss[0]).c;
      assert After(All(c), ss[0]) == All(c) + Declared(ss[0]);
      var more := KeptAll(d, ss[1..]);
      KeptTrans(c, d, AnalyzeAll(c, ss).c, Declared(ss[0]), more);
      declared := Declared(ss[0]) + more;
    }
  }

  /** The state inside a block, before its first statement. */
  function Inside(c: Ctx, isLoop: bool): Ctx {
    Ctx(c.moved, c.scopes + [Scope([], isLoop)], if isLoop then c.loopDepth + 1 else c.loopDepth)
  }

  lemma {:induction false} KeptBlock(c: Ctx, st: Stmt, isLoop: bool)
    requires Wf(c) && Scoped(st, All(c)) && st.Block?
    requires var d := if isLoop then c.(loopDepth := c.loopDepth + 1) else c; AnalyzeBlock(d, st, isLoop).Accepted?
    ensures var d := if isLoop then c.(loopDepth := c.loopDepth + 1) else c;
      Kept(c, AnalyzeBlock(d, st, isLoop).c.(loopDepth := c.loopDepth), {})
    decreases st, 0
  {
    hide AnalyzeAll;
    var d := if isLoop then c.(loopDepth := c.loopDepth + 1) else c;
    var inner := Inside(c, isLoop);
    PushFacts(c);
    var declared := KeptAll(inner, st.body);
    var last := AnalyzeAll(inner, st.body).c;
    WfTable(last);
    KeptTable(c, c.(moved := last.moved));
  }

  lemma {:induction false} KeptWhile(c: Ctx, st: Stmt)
    requires Wf(c) && Scoped(st, All(c)) && st.While? && Analyze(c, st).Accepted?
    ensures Kept(c, Analyze(c, st).c, {})
    decreases st, 0
  {
    hide AnalyzeBlock;
    KeptBlock(c, st.loopBody, true);
  }

  lemma {:induction false} KeptIf(c: Ctx, st: Stmt)
    requires Wf(c) && Scoped(st, All(c)) && st.If? && AnalyzeIf(c, st).Accepted?
    ensures Kept(c, AnalyzeIf(c, st).c, {})
    decreases st, 0
  {
    hide Wf;
    hide All;
    hide Merge;
    hide EndsInJump;
    KeptStmt(c, st.thenB);
    WfTable(Analyze(c, st.thenB).c);
    WfTable(c);
    if st.elseB.Some? {
      KeptStmt(c, st.elseB.value);
      WfTable(Analyze(c, st.elseB.value).c);
      MergeTable(c, Analyze(c, st.thenB).c.moved, Analyze(c, st.elseB.value).c.moved, EndsInJump(st.thenB),
        EndsInJump(st.elseB.value), true);
    } else {
      MergeTable(c, Analyze(c, st.thenB).c.moved, c.moved, EndsInJump(st.thenB), false, false);
    }
    KeptTable(c, AnalyzeIf(c, st).c);
  }
}
