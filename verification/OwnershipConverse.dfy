module OwnershipConverse {
  // Where the conditions of the ownership theorems fail, something goes wrong: in a state the checker's table allows,
  // an accepted read meets a variable that holds nothing, or an object is lost
  // (src/frontend/scope_analysis.c:1295-1765).

  import opened Options
  import opened Graphs
  import opened Ownership
  import Facts = OwnershipFacts
  import Release = ReleaseSafety
  import opened UseSafety
  import Use = UseSafety
  import opened ReleaseExactness

  // ----- States the table allows -----

  /** Consistent with the table: what holds nothing is in it, what it is sure of holds nothing, and every object is
      accounted for once. */
  ghost predicate Possible(c: Ctx, r: RState) { Good(c, r) && Exact(c, r) && Release.Sane(r, Facts.All(c)) }

  ghost function Nulls(r: RState, s: set<string>): set<string> { set x | x in s && !Holds(r, x) }

  /** One object for every variable; those of `gone` have been handed over. */
  ghost function Filled(vs: seq<OwnVar>, gone: set<string>): RState {
    if vs == [] then RState(map[], 0, [], [])
    else
      var x, r := vs[|vs|-1].name, Filled(vs[..|vs|-1], gone);
      if x in gone then RState(r.vars[x := None], r.next + 1, r.released, r.handed + [r.next])
      else RState(r.vars[x := Some(r.next)], r.next + 1, r.released, r.handed)
  }

  lemma {:induction false} FilledIs(vs: seq<OwnVar>, gone: set<string>)
    requires Facts.DistinctNames(vs)
    ensures var r, s := Filled(vs, gone), VarNames(vs);
      r.vars.Keys == s && Nulls(r, s) == s * gone && Release.Sane(r, s) && Full(r, s)
  {
    if vs != [] {
      var front, x := vs[..|vs|-1], vs[|vs|-1].name;
      FilledIs(front, gone);
      Facts.VarNamesConcat(front, [vs[|vs|-1]]);
      assert vs == front + [vs[|vs|-1]];
      assert VarNames([vs[|vs|-1]]) == {x} by { assert [vs[|vs|-1]][0].name == x; }
      forall k | 0 <= k < |front| ensures front[k].name != x {}
      hide Release.Sane;
      hide Full;
      hide Facts.DistinctNames;
      FilledStep(Filled(front, gone), VarNames(front), x, gone);
    }
  }

  lemma FilledSane(r: RState, s: set<string>, x: string)
    requires r.vars.Keys == s && x !in s && Release.Sane(r, s)
    ensures Release.Sane(RState(r.vars[x := None], r.next + 1, r.released, r.handed + [r.next]), s + {x})
    ensures Release.Sane(RState(r.vars[x := Some(r.next)], r.next + 1, r.released, r.handed), s + {x})
  {
    var a, b := RState(r.vars[x := None], r.next + 1, r.released, r.handed + [r.next]),
      RState(r.vars[x := Some(r.next)], r.next + 1, r.released, r.handed);
    forall z | z in s && Holds(r, z) ensures r.vars[z].value < r.next && !Release.Logged(r, r.vars[z].value) {}
    forall z | z in s ensures a.vars[z] == r.vars[z] == b.vars[z] {}
    forall i | 0 <= i < |r.handed| ensures r.handed[i] < r.next { assert r.handed[i] in r.handed; }
    assert NoDup(a.handed) && forall i :: i in a.handed ==> i in r.handed || i == r.next;
    assert forall i :: i in r.released || i in r.handed ==> i < r.next;
  }

  lemma FilledStep(r: RState, s: set<string>, x: string, gone: set<string>)
    requires r.vars.Keys == s && x !in s && Nulls(r, s) == s * gone && Release.Sane(r, s) && Full(r, s)
    ensures var q := if x in gone then RState(r.vars[x := None], r.next + 1, r.released, r.handed + [r.next])
        else RState(r.vars[x := Some(r.next)], r.next + 1, r.released, r.handed);
      q.vars.Keys == s + {x} && Nulls(q, s + {x}) == (s + {x}) * gone && Release.Sane(q, s + {x}) && Full(q, s + {x})
  {
    var q := if x in gone then RState(r.vars[x := None], r.next + 1, r.released, r.handed + [r.next])
      else RState(r.vars[x := Some(r.next)], r.next + 1, r.released, r.handed);
    FilledSane(r, s, x);
    hide Release.Sane;
    assert forall z :: z in s ==> q.vars[z] == r.vars[z] && (Holds(q, z) <==> Holds(r, z));
    forall z ensures z in Nulls(q, s + {x}) <==> z in (s + {x}) * gone { assert z in Nulls(r, s) <==> z in s * gone; }
    forall i: nat | i < q.next && !Release.Logged(q, i) ensures Kept(q, s + {x}, i) {
      if i < r.next {
        assert !Release.Logged(r, i);
        var z :| z in s && z in r.vars && r.vars[z] == Some(i);
        assert q.vars[z] == Some(i);
      } else {
        assert q.vars[x] == Some(i);
      }
    }
  }

  /** For any choice of null variables that the table allows there is a state. */
  lemma SomeState(c: Ctx, gone: set<string>) returns (r: RState)
    requires Facts.Wf(c) && gone <= Facts.All(c) && (forall x :: x in gone ==> x in Names(c.moved))
    requires forall x :: x in Facts.All(c) && Surely(c.moved, x) ==> x in gone
    ensures Possible(c, r) && Nulls(r, Facts.All(c)) == gone
  {
    var vs := Walk(c.scopes, true);
    r := Filled(vs, gone);
    FilledIs(vs, gone);
    hide Filled;
    hide Names;
    hide Surely;
    hide Full;
    hide Release.Sane;
    assert Facts.All(c) == VarNames(vs) && Nulls(r, Facts.All(c)) == gone;
    forall x | x in Facts.All(c)
      ensures Holds(r, x) <==> x !in gone
    {
      assert x in Nulls(r, Facts.All(c)) <==> x in gone;
    }
  }

  // ----- Loops: reads -----

  /** On some path, reading `y` after `st` is accepted and finds nothing. */
  ghost predicate ReadsNull(c: Ctx, st: Stmt, y: string, r: RState, ch: seq<bool>)
    requires c.scopes != []
  { var v := AnalyzeAll(c, [st, Borrow(y)]); v.AcceptedAll? && ExecAll(v.ss, r, ch).NullUse? }

  lemma TwoAccepted(c: Ctx, st: Stmt, t: Stmt)
    requires c.scopes != [] && Analyze(c, st).Accepted? && Analyze(Analyze(c, st).c, t).Accepted?
    ensures var v, w := Analyze(c, st), Analyze(Analyze(c, st).c, t);
      AnalyzeAll(c, [st, t]) == AcceptedAll(w.c, [v.st, w.st])
  {
    hide Analyze;
    var v := Analyze(c, st);
    assert [st, t][1..] == [t] && [t][1..] == [];
    var w := Analyze(v.c, t);
    assert [w.st] + [] == [w.st] && [v.st] + [w.st] == [v.st, w.st];
    assert AnalyzeAll(v.c, [t]) == AcceptedAll(w.c, [w.st]);
  }

  lemma ReadIs(c: Ctx, st: Stmt, y: string)
    requires Entered(c, st) && !st.Let? && y in Facts.All(c) && y !in Names(Analyze(c, st).c.moved)
    ensures var v := AnalyzeAll(c, [st, Borrow(y)]); v.AcceptedAll? && v.ss == [Analyze(c, st).st, Borrow(y)]
  {
    hide Names;
    hide Facts.All;
    hide Facts.Wf;
    Facts.KeptStmt(c, st);
    Facts.LookupIs(Analyze(c, st).c, y);
    TwoAccepted(c, st, Borrow(y));
  }

  lemma ReadRuns(s: Stmt, y: string, r: RState, ch: seq<bool>)
    requires var o := Exec(s, r, ch); o.Normal? && !Holds(o.r, y)
    ensures ExecAll([s, Borrow(y)], r, ch).NullUse?
  {
    hide Exec;
    var o := Exec(s, r, ch);
    assert [s, Borrow(y)][1..] == [Borrow(y)];
    ReadFails(y, o.r, o.ch);
  }

  lemma ReadFails(y: string, r: RState, ch: seq<bool>)
    requires !Holds(r, y)
    ensures ExecAll([Borrow(y)], r, ch).NullUse?
  {}

  /** Under the discipline no read after the statement finds nothing. */
  lemma ReadSafe(c: Ctx, st: Stmt, y: string, r: RState, ch: seq<bool>)
    requires Entered(c, st) && !st.Let? && Disciplined(c, st) && Good(c, r) && y in Facts.All(c)
    ensures !ReadsNull(c, st, y, r, ch)
  {
    if AnalyzeAll(c, [st, Borrow(y)]).AcceptedAll? {
      ReadScoped(c, st, y);
      AllUse(c, [st, Borrow(y)], r, ch);
    }
  }

  lemma ReadScoped(c: Ctx, st: Stmt, y: string)
    requires Entered(c, st) && !st.Let? && Disciplined(c, st) && y in Facts.All(c)
    ensures Facts.ScopedAll([st, Borrow(y)], Facts.All(c)) && DisciplinedAll(c, [st, Borrow(y)])
  {
    hide Facts.All;
    hide Disciplined;
    hide Analyze;
    var d := Analyze(c, st).c;
    assert [st, Borrow(y)][1..] == [Borrow(y)] && [Borrow(y)][1..] == [];
    BorrowScoped(d, y, Facts.All(c));
  }

  lemma BorrowScoped(c: Ctx, y: string, s: set<string>)
    requires c.scopes != [] && y in s
    ensures Facts.ScopedAll([Borrow(y)], s) && DisciplinedAll(c, [Borrow(y)])
  {
    assert [Borrow(y)][1..] == [];
  }

  /** A loop may be passed by. */
  lemma LoopSkips(c: Ctx, st: Stmt, r: RState)
    requires Entered(c, st) && st.While? && Good(c, r)
    ensures Exec(Analyze(c, st).st, r, [false]) == Normal(r, [])
  {
    hide AnalyzeBlock;
    hide CondAllowed;
    hide CondRuns;
    hide Facts.All;
    hide Facts.Wf;
    Use.CondUse(c, st.cond, r, true);
    assert [false][1..] == [];
  }

  /** No read after a loop finds nothing, exactly when the body leaves the entries from before the loop in the table. */
  lemma LoopReadsExactlyWhen(c: Ctx, st: Stmt)
    requires Entered(c, st) && st.While? && DisciplinedBlock(c, st.loopBody, true)
    ensures LoopRemembers(c, st) <==>
      forall r, ch, y :: Possible(c, r) && y in Facts.All(c) ==> !ReadsNull(c, st, y, r, ch)
  {
    hide Facts.Wf;
    hide Facts.All;
    hide Exact;
    hide Names;
    hide ReadsNull;
    hide Good;
    hide DisciplinedBlock;
    if LoopRemembers(c, st) {
      forall r, ch, y | Possible(c, r) && y in Facts.All(c)
        ensures !ReadsNull(c, st, y, r, ch)
      {
        ReadSafe(c, st, y, r, ch);
      }
    } else {
      var x :| x in Facts.All(c) && x in Names(c.moved) && x !in Names(Analyze(c, st).c.moved);
      var r := LoopForgets(c, st, x);
      assert Possible(c, r) && ReadsNull(c, st, x, r, [false]);
    }
  }

  lemma LoopForgets(c: Ctx, st: Stmt, x: string) returns (r: RState)
    requires Entered(c, st) && st.While? && x in Facts.All(c) && x in Names(c.moved)
      && x !in Names(Analyze(c, st).c.moved)
    ensures Possible(c, r) && ReadsNull(c, st, x, r, [false])
  {
    SureNames(c.moved);
    r := SomeState(c, Facts.All(c) * Names(c.moved));
    hide Facts.Wf;
    hide Facts.All;
    hide Exact;
    hide Names;
    hide Good;
    hide Exec;
    hide Analyze;
    LoopSkips(c, st, r);
    assert x in Nulls(r, Facts.All(c));
    ReadIs(c, st, x);
    ReadRuns(Analyze(c, st).st, x, r, [false]);
  }

  lemma SureNames(m: seq<Moved>)
    ensures forall x :: Surely(m, x) ==> x in Names(m)
  {}

  // ----- Branches without nested control -----

  predicate Plain(st: Stmt) { st.Assign? || st.Borrow? || st.Consume? }

  predicate PlainBlock(st: Stmt) { st.Block? && forall k :: 0 <= k < |st.body| ==> Plain(st.body[k]) }

  /** What a plain statement makes of the set of null variables, and of a set of table entries. */
  function Passed(st: Stmt, s: set<string>): set<string>
    requires Plain(st)
  {
    match st
    case Assign(x, rhs, _) => s + Taken(rhs, x, true) - {x}
    case Consume(y, _) => s + {y}
    case Borrow(_) => s
  }

  function PassedAll(ss: seq<Stmt>, s: set<string>): set<string>
    requires forall k :: 0 <= k < |ss| ==> Plain(ss[k])
  { if ss == [] then s else PassedAll(ss[1..], Passed(ss[0], s)) }

  lemma {:induction false} PassedMore(ss: seq<Stmt>, s: set<string>, t: set<string>)
    requires s <= t && forall k :: 0 <= k < |ss| ==> Plain(ss[k])
    ensures PassedAll(ss, s) <= PassedAll(ss, t)
  { if ss != [] { PassedMore(ss[1..], Passed(ss[0], s), Passed(ss[0], t)); } }

  ghost function Sures(m: seq<Moved>): set<string> { set i | 0 <= i < |m| && Surely(m, m[i].name) :: m[i].name }

  lemma SuresAre(m: seq<Moved>)
    ensures forall x :: x in Sures(m) <==> Surely(m, x)
  {
    forall x | Surely(m, x) ensures x in Sures(m) { assert m[IndexOf(m, x)].name == x; }
  }

  lemma PlainTable(c: Ctx, st: Stmt)
    requires Entered(c, st) && Plain(st)
    ensures var d := Analyze(c, st).c;
      && d == c.(moved := d.moved) && Names(d.moved) == Passed(st, Names(c.moved))
      && forall x :: Surely(d.moved, x) <==> x in Passed(st, Sures(c.moved))
  {
    SuresAre(c.moved);
    Facts.WfTable(c);
    match st {
      case Assign(x, rhs, _) =>
        RhsSummary(c, rhs, x, true);
        Facts.RhsFacts(c, rhs, x, true);
        Facts.LookupIs(c, x);
        Facts.UnmarkFacts(MoveRhs(c, rhs, x, true).value.moved, x);
        RhsSurely(c, rhs, x);
      case Consume(y, _) =>
        Facts.LookupIs(c, y);
        Facts.MoveFacts(c, y, false);
      case Borrow(_) =>
    }
    hide Facts.Wf;
    hide Facts.All;
    hide Facts.TableOk;
    hide Names;
    hide Surely;
    hide Sures;
    hide Move;
    hide MoveRhs;
    hide Unmark;
  }

  lemma RhsSurely(c: Ctx, rhs: Rhs, x: string)
    requires Facts.Wf(c) && Facts.RhsScoped(rhs, Facts.All(c)) && MoveRhs(c, rhs, x, true).Some?
    ensures var m := MoveRhs(c, rhs, x, true).value.moved;
      forall z :: Surely(m, z) <==> Surely(c.moved, z) || z in Taken(rhs, x, true)
  {
    if !rhs.New? && rhs != Var(x) { Facts.MoveFacts(c, rhs.y, rhs.y == x); }
    hide Facts.Wf;
    hide Move;
    hide Surely;
  }

  lemma PlainRun(c: Ctx, st: Stmt, r: RState, ch: seq<bool>)
    requires Entered(c, st) && Plain(st) && Good(c, r)
    ensures var o := Exec(Analyze(c, st).st, r, ch);
      o.Normal? && o.ch == ch && o.r.vars.Keys == Facts.All(c)
        && Nulls(o.r, Facts.All(c)) == Passed(st, Nulls(r, Facts.All(c)))
  {
    match st {
      case Assign(x, rhs, _) => AssignNulls(c, st, r, ch);
      case Consume(y, _) => ConsumeNulls(c, st, r, ch);
      case Borrow(y) => BorrowUse(c, y, r);
    }
    hide Facts.Wf;
    hide Facts.All;
    hide May;
    hide Holds;
  }

  lemma AssignNulls(c: Ctx, st: Stmt, r: RState, ch: seq<bool>)
    requires Entered(c, st) && st.Assign? && Good(c, r)
    ensures var o := Exec(Analyze(c, st).st, r, ch);
      o.Normal? && o.ch == ch && o.r.vars.Keys == Facts.All(c)
        && Nulls(o.r, Facts.All(c)) == Passed(st, Nulls(r, Facts.All(c)))
  {
    RhsSummary(c, st.rhs, st.x, true);
    Facts.LookupIs(c, st.x);
    hide Facts.Wf;
    hide Facts.All;
    hide Facts.TableOk;
    hide MoveRhs;
    hide RhsNulls;
    hide Names;
    hide Unmark;
    hide Surely;
    hide Lookup;
    StoreUse(r, Facts.All(c), st.rhs, st.x, true, Analyze(c, st).st, ch, Names(c.moved));
    assert Facts.All(c) + {st.x} == Facts.All(c);
    StoreNulls(r, Facts.All(c), st.rhs, st.x, Analyze(c, st).st, ch);
  }

  lemma StoreNulls(r: RState, s: set<string>, rhs: Rhs, x: string, st: Stmt, ch: seq<bool>)
    requires r.vars.Keys == s && x in s && Facts.RhsScoped(rhs, s) && st.Assign? && st.x == x && st.rhs == rhs
    requires st.note.nulls == if rhs.New? || rhs.y == x then [] else [rhs.y]
    requires Exec(st, r, ch).Normal?
    ensures var o := Exec(st, r, ch); o.ch == ch && Nulls(o.r, s) == Nulls(r, s) + Taken(rhs, x, true) - {x}
  {
    var o := Exec(st, r, ch);
    forall z | z in s ensures Holds(o.r, z) <==> z == x || (Holds(r, z) && z !in Taken(rhs, x, true)) {}
  }

  lemma ConsumeNulls(c: Ctx, st: Stmt, r: RState, ch: seq<bool>)
    requires Entered(c, st) && st.Consume? && Good(c, r)
    ensures var o := Exec(Analyze(c, st).st, r, ch);
      o.Normal? && o.ch == ch && o.r.vars.Keys == Facts.All(c)
        && Nulls(o.r, Facts.All(c)) == Nulls(r, Facts.All(c)) + {st.y}
  {
    Facts.LookupIs(c, st.y);
    Facts.MoveFacts(c, st.y, false);
    hide Facts.Wf;
    hide Facts.All;
    hide Facts.TableOk;
    hide Move;
    hide Names;
    hide Surely;
    var o := Exec(Analyze(c, st).st, r, ch);
    forall z | z in Facts.All(c) ensures Holds(o.r, z) <==> z != st.y && Holds(r, z) {}
  }

  /** A run of plain statements ends normally, and does to the null variables what the checker does to its table. */
  lemma {:induction false} PlainAll(c: Ctx, ss: seq<Stmt>, r: RState, ch: seq<bool>)
    requires Facts.ScopedAll(ss, Facts.All(c)) && Good(c, r) && AnalyzeAll(c, ss).AcceptedAll? && forall k ::
      0 <= k < |ss| ==> Plain(ss[k])
    ensures var d := AnalyzeAll(c, ss).c;
      && d == c.(moved := d.moved) && Names(d.moved) == PassedAll(ss, Names(c.moved))
      && Sures(d.moved) == PassedAll(ss, Sures(c.moved))
    ensures var o := ExecAll(AnalyzeAll(c, ss).ss, r, ch);
      o.Normal? && o.r.vars.Keys == Facts.All(c) && Nulls(o.r, Facts.All(c)) == PassedAll(ss, Nulls(r, Facts.All(c)))
    decreases |ss|
  {
    hide Facts.Wf;
    hide Facts.All;
    hide Exec;
    hide Analyze;
    hide Holds;
    hide Names;
    hide Sures;
    hide May;
    hide Nulls;
    if ss != [] {
      var d, s1 := Analyze(c, ss[0]).c, Analyze(c, ss[0]).st;
      PlainTable(c, ss[0]);
      SuresSame(c, ss[0]);
      PlainRun(c, ss[0], r, ch);
      PlainDisciplined(c, ss[0]);
      StmtUse(c, ss[0], r, ch);
      Facts.KeptStmt(c, ss[0]);
      assert Facts.After(Facts.All(c), ss[0]) == Facts.All(c);
      var rest := AnalyzeAll(d, ss[1..]).ss;
      assert ([s1] + rest)[1..] == rest;
      SameScopes(c, d);
      PlainAll(d, ss[1..], Exec(s1, r, ch).r, ch);
    }
  }

  lemma SuresSame(c: Ctx, st: Stmt)
    requires Entered(c, st) && Plain(st)
    ensures Sures(Analyze(c, st).c.moved) == Passed(st, Sures(c.moved))
  {
    PlainTable(c, st);
    SuresAre(Analyze(c, st).c.moved);
    hide Surely;
    hide Sures;
    hide Analyze;
  }

  lemma SameScopes(c: Ctx, d: Ctx)
    requires d == c.(moved := d.moved)
    ensures Facts.All(d) == Facts.All(c)
  {}

  lemma PlainDisciplined(c: Ctx, st: Stmt)
    requires c.scopes != [] && Plain(st)
    ensures Disciplined(c, st)
  {}

  lemma PlainNoJump(st: Stmt)
    requires PlainBlock(st)
    ensures !EndsInJump(st)
  {}

  /** A plain block ends normally, and does to the null variables what the checker does to its table. */
  lemma PlainBranch(c: Ctx, st: Stmt, r: RState, ch: seq<bool>)
    requires Entered(c, st) && PlainBlock(st) && Good(c, r)
    ensures Names(Analyze(c, st).c.moved) == PassedAll(st.body, Names(c.moved))
      && Sures(Analyze(c, st).c.moved) == PassedAll(st.body, Sures(c.moved))
    ensures var o := Exec(Analyze(c, st).st, r, ch);
      o.Normal? && o.r.vars.Keys == Facts.All(c)
        && Nulls(o.r, Facts.All(c)) == PassedAll(st.body, Nulls(r, Facts.All(c)))
  {
    var inner := Facts.Inside(c, false);
    Release.InsideOutside(c, false);
    assert Analyze(c, st) == AnalyzeBlock(c, st, false);
    hide Facts.Wf;
    hide Facts.All;
    hide AnalyzeAll;
    hide ExecAll;
    hide Holds;
    hide Names;
    hide Sures;
    hide May;
    hide PassedAll;
    hide Exec;
    Release.BlockRuns(c, st, false, r, ch);
    PlainAll(inner, st.body, r, ch);
    var o := ExecAll(AnalyzeAll(inner, st.body).ss, r, ch);
    ReleaseKeepsVars(o.r, Closing(AnalyzeAll(inner, st.body).c));
    RestrictSame(ReleaseAll(o.r, Closing(AnalyzeAll(inner, st.body).c)), Facts.All(c));
    SameNulls(ReleaseAll(o.r, Closing(AnalyzeAll(inner, st.body).c)), o.r, Facts.All(c));
  }

  lemma RestrictSame(r: RState, s: set<string>)
    requires r.vars.Keys == s
    ensures Restrict(r, s) == r
  { assert Restrict(r, s).vars == r.vars; }

  lemma SameNulls(r: RState, q: RState, s: set<string>)
    requires r.vars == q.vars
    ensures Nulls(r, s) == Nulls(q, s)
  {}

  // ----- Branches: reads -----

  /** The table of the branch taken when the condition's answer is `first`, and the table after the `if`. */
  ghost function BranchTable(c: Ctx, st: Stmt, first: bool): seq<Moved>
    requires c.scopes != [] && st.If? && Analyze(c, st.thenB).Accepted?
      && (st.elseB.Some? ==> Analyze(c, st.elseB.value).Accepted?)
  { if first
    then Analyze(c, st.thenB).c.moved
    else if st.elseB.Some? then Analyze(c, st.elseB.value).c.moved else c.moved }

  predicate PlainIf(st: Stmt) { st.If? && PlainBlock(st.thenB) && (st.elseB.Some? ==> PlainBlock(st.elseB.value)) }

  function BranchBody(st: Stmt, first: bool): (ss: seq<Stmt>)
    requires PlainIf(st)
    ensures forall k :: 0 <= k < |ss| ==> Plain(ss[k])
  { if first then st.thenB.body else if st.elseB.Some? then st.elseB.value.body else [] }

  lemma PlainIfParts(c: Ctx, st: Stmt)
    requires Entered(c, st) && PlainIf(st)
    ensures Entered(c, st.thenB) && (st.elseB.Some? ==> Entered(c, st.elseB.value)) && CondAllowed(c, st.cond)
    ensures !EndsInJump(st.thenB) && (st.elseB.Some? ==> !EndsInJump(st.elseB.value))
    ensures Merge(c, BranchTable(c, st, true), BranchTable(c, st, false), false, false,
      st.elseB.Some?) == Some(Analyze(c, st).c.moved)
    ensures forall k :: 0 <= k < |st.cond| ==> st.cond[k].y in Facts.All(c)
  {
    IfParts(c, st);
    PlainNoJump(st.thenB);
    if st.elseB.Some? { PlainNoJump(st.elseB.value); }
    assert Analyze(c, st) == AnalyzeIf(c, st);
    hide Facts.Wf;
    hide Facts.All;
    hide Merge;
    hide EndsInJump;
    hide CondAllowed;
    hide AnalyzeBlock;
  }

  /** Taking a branch: the null variables change as the table of the branch does. */
  lemma IfRuns(c: Ctx, st: Stmt, r: RState, first: bool)
    requires Entered(c, st) && PlainIf(st) && Good(c, r)
    ensures Entered(c, st.thenB) && (st.elseB.Some? ==> Entered(c, st.elseB.value))
    ensures Names(BranchTable(c, st, first)) == PassedAll(BranchBody(st, first), Names(c.moved))
    ensures Sures(BranchTable(c, st, first)) == PassedAll(BranchBody(st, first), Sures(c.moved))
    ensures var o := Exec(Analyze(c, st).st, r, [first]);
      o.Normal? && Nulls(o.r, Facts.All(c)) == PassedAll(BranchBody(st, first), Nulls(r, Facts.All(c)))
  {
    PlainIfParts(c, st);
    Use.CondUse(c, st.cond, r, false);
    assert Analyze(c, st) == AnalyzeIf(c, st);
    assert [first][1..] == [];
    if first { PlainBranch(c, st.thenB, r, []); } else if st.elseB.Some? { PlainBranch(c, st.elseB.value, r, []); }
    hide Facts.Wf;
    hide Facts.All;
    hide Merge;
    hide EndsInJump;
    hide CondAllowed;
    hide CondRuns;
    hide AnalyzeBlock;
    hide Names;
    hide Sures;
    hide Nulls;
    hide May;
  }

  /** After an `if` with branches free of nested control, no read finds nothing, exactly when what the branches have put
      among the first entries of their tables is remembered. */
  lemma IfReadsExactlyWhen(c: Ctx, st: Stmt)
    requires Entered(c, st) && PlainIf(st)
    ensures IfRemembers(c, st) <==>
      forall r, ch, y :: Possible(c, r) && y in Facts.All(c) ==> !ReadsNull(c, st, y, r, ch)
  {
    PlainIfDisciplined(c, st);
    hide Facts.Wf;
    hide Facts.All;
    hide Exact;
    hide Names;
    hide ReadsNull;
    hide Good;
    hide IfRemembers;
    if IfRemembers(c, st) {
      forall r, ch, y | Possible(c, r) && y in Facts.All(c)
        ensures !ReadsNull(c, st, y, r, ch)
      {
        ReadSafe(c, st, y, r, ch);
      }
    } else {
      var r, first, x := IfForgets(c, st);
      assert Possible(c, r) && ReadsNull(c, st, x, r, [first]);
    }
  }

  lemma PlainIfDisciplined(c: Ctx, st: Stmt)
    requires Entered(c, st) && PlainIf(st)
    ensures IfRemembers(c, st) ==> Disciplined(c, st)
  {
    hide IfRemembers;
    PlainAllDisciplined(Facts.Inside(c, false), st.thenB.body);
    assert Disciplined(c, st.thenB);
    if st.elseB.Some? {
      PlainAllDisciplined(Facts.Inside(c, false), st.elseB.value.body);
      assert Disciplined(c, st.elseB.value);
    }
  }

  lemma {:induction false} PlainAllDisciplined(c: Ctx, ss: seq<Stmt>)
    requires c.scopes != [] && forall k :: 0 <= k < |ss| ==> Plain(ss[k])
    ensures DisciplinedAll(c, ss)
    decreases |ss|
  {
    hide Analyze;
    if ss != [] {
      PlainDisciplined(c, ss[0]);
      if Analyze(c, ss[0]).Accepted? { PlainAllDisciplined(Analyze(c, ss[0]).c, ss[1..]); }
    }
  }

  lemma Forgotten(c: Ctx, st: Stmt) returns (first: bool, x: string)
    requires Entered(c, st) && PlainIf(st) && !IfRemembers(c, st)
    ensures Analyze(c, st.thenB).Accepted? && (st.elseB.Some? ==> Analyze(c, st.elseB.value).Accepted?)
    ensures x in Facts.All(c) && x in Names(BranchTable(c, st, first)) && x !in Names(Analyze(c, st).c.moved)
  {
    PlainIfParts(c, st);
    Facts.KeptStmt(c, st.thenB);
    Facts.WfTable(Analyze(c, st.thenB).c);
    Facts.WfTable(c);
    if st.elseB.Some? {
      Facts.KeptStmt(c, st.elseB.value);
      Facts.WfTable(Analyze(c, st.elseB.value).c);
    }
    hide Facts.Wf;
    hide Facts.All;
    hide Facts.TableOk;
    hide Merge;
    hide Names;
    hide Remembers;
    hide Analyze;
    var t, f, m := BranchTable(c, st, true), BranchTable(c, st, false), Analyze(c, st).c.moved;
    MergeForgetsExactlyWhen(c, t, f, st.elseB.Some?);
    x :| x in Facts.All(c) && x in Names(t) + Names(f) && x !in Names(m);
    first := x in Names(t);
  }

  lemma IfForgets(c: Ctx, st: Stmt) returns (r: RState, first: bool, x: string)
    requires Entered(c, st) && PlainIf(st) && !IfRemembers(c, st)
    ensures Possible(c, r) && x in Facts.All(c) && ReadsNull(c, st, x, r, [first])
  {
    first, x := Forgotten(c, st);
    var gone := Facts.All(c) * Names(c.moved);
    SureNames(c.moved);
    r := SomeState(c, gone);
    hide Facts.Wf;
    hide Facts.All;
    hide Exact;
    hide Names;
    hide Good;
    hide Exec;
    hide Analyze;
    hide IfRemembers;
    hide Nulls;
    IfRuns(c, st, r, first);
    PassedIn(BranchBody(st, first), Names(c.moved), Facts.All(c));
    NullIn(Exec(Analyze(c, st).st, r, [first]).r, Facts.All(c), x);
    ReadIs(c, st, x);
    ReadRuns(Analyze(c, st).st, x, r, [first]);
  }

  lemma NullIn(r: RState, s: set<string>, x: string)
    ensures x in Nulls(r, s) <==> x in s && !Holds(r, x)
  {}

  lemma {:induction false} PassedIn(ss: seq<Stmt>, s: set<string>, all: set<string>)
    requires forall k :: 0 <= k < |ss| ==> Plain(ss[k])
    ensures PassedAll(ss, s) * all <= PassedAll(ss, all * s)
  {
    if ss != [] {
      PassedIn(ss[1..], Passed(ss[0], s), all);
      PassedMore(ss[1..], all * Passed(ss[0], s), Passed(ss[0], all * s));
    }
  }

  // ----- Branches: certainty -----

  /** After an `if` with branches free of nested control, what the table is sure of holds nothing, exactly when it is
      sure of nothing that a branch is not sure of. */
  lemma IfSureExactlyWhen(c: Ctx, st: Stmt)
    requires Entered(c, st) && PlainIf(st)
    ensures IfSure(c, st) <==> forall r, first :: Possible(c, r) ==> IfTrue(c, st, r, first)
  {
    hide Facts.Wf;
    hide Facts.All;
    hide Exact;
    hide Names;
    hide Good;
    hide IfSure;
    hide IfTrue;
    if IfSure(c, st) {
      forall r, first | Possible(c, r) ensures IfTrue(c, st, r, first) { SureIsTrue(c, st, r, first); }
    } else {
      var r, first := SureIsFalse(c, st);
      assert Possible(c, r) && !IfTrue(c, st, r, first);
    }
  }

  /** What the table is sure of after the `if` holds nothing. */
  ghost predicate IfTrue(c: Ctx, st: Stmt, r: RState, first: bool)
    requires Entered(c, st)
  { var o := Exec(Analyze(c, st).st, r, [first]); o.Normal? ==> Must(o.r, Analyze(c, st).c.moved, Facts.All(c)) }

  lemma IfSureIs(c: Ctx, st: Stmt)
    requires Entered(c, st) && PlainIf(st)
    ensures Analyze(c, st.thenB).Accepted? && (st.elseB.Some? ==> Analyze(c, st.elseB.value).Accepted?)
    ensures IfSure(c, st) <==>
      forall first, z ::
        z in Facts.All(c) && Surely(Analyze(c, st).c.moved, z) ==> z in Sures(BranchTable(c, st, first))
  {
    PlainIfParts(c, st);
    SuresAre(BranchTable(c, st, true));
    SuresAre(BranchTable(c, st, false));
    hide Facts.Wf;
    hide Facts.All;
    hide Merge;
    hide EndsInJump;
    hide CondAllowed;
    hide Surely;
    hide Sures;
    hide Analyze;
  }

  lemma SureIsTrue(c: Ctx, st: Stmt, r: RState, first: bool)
    requires Entered(c, st) && PlainIf(st) && IfSure(c, st) && Possible(c, r)
    ensures IfTrue(c, st, r, first)
  {
    IfSureIs(c, st);
    IfRuns(c, st, r, first);
    SuresNull(c, r);
    hide Facts.Wf;
    hide Facts.All;
    hide Exact;
    hide Good;
    hide Exec;
    hide Analyze;
    hide Surely;
    hide IfSure;
    hide Sures;
    hide Nulls;
    hide Holds;
    var o := Exec(Analyze(c, st).st, r, [first]);
    PassedIn(BranchBody(st, first), Sures(c.moved), Facts.All(c));
    PassedMore(BranchBody(st, first), Facts.All(c) * Sures(c.moved), Nulls(r, Facts.All(c)));
    forall z | z in Facts.All(c) && Surely(Analyze(c, st).c.moved, z)
      ensures !Holds(o.r, z)
    {
      NullIn(o.r, Facts.All(c), z);
    }
  }

  lemma SuresNull(c: Ctx, r: RState)
    requires Possible(c, r)
    ensures Facts.All(c) * Sures(c.moved) <= Nulls(r, Facts.All(c))
  {
    SuresAre(c.moved);
    hide Facts.All;
    hide Surely;
    hide Sures;
    hide Good;
    hide Full;
    hide Release.Sane;
  }

  lemma SureIsFalse(c: Ctx, st: Stmt) returns (r: RState, first: bool)
    requires Entered(c, st) && PlainIf(st) && !IfSure(c, st)
    ensures Possible(c, r) && !IfTrue(c, st, r, first)
  {
    IfSureIs(c, st);
    SureNames(c.moved);
    SuresAre(c.moved);
    r := SomeState(c, Facts.All(c) * Sures(c.moved));
    var z: string;
    first, z :| z in Facts.All(c) && Surely(Analyze(c, st).c.moved, z) && z !in Sures(BranchTable(c, st, first));
    hide Facts.Wf;
    hide Facts.All;
    hide Exact;
    hide Good;
    hide Exec;
    hide Analyze;
    hide Surely;
    hide IfSure;
    hide Sures;
    hide Nulls;
    hide Names;
    IfRuns(c, st, r, first);
    PassedMore(BranchBody(st, first), Facts.All(c) * Sures(c.moved), Sures(c.moved));
    NullIn(Exec(Analyze(c, st).st, r, [first]).r, Facts.All(c), z);
  }

  // ----- Reassignment -----

  /** The accounts after an assignment: every object is still held or has been dealt with. */
  ghost predicate StillFull(c: Ctx, st: Stmt, r: RState)
    requires Entered(c, st)
  { var o := Exec(Analyze(c, st).st, r, []); o.Normal? && Full(o.r, Facts.All(c)) }

  /** An assignment loses no object, exactly when the variable is not one that only some branches moved. */
  lemma AssignKeepsExactlyWhen(c: Ctx, st: Stmt)
    requires Entered(c, st) && st.Assign?
    ensures Careful(c, st) <==> forall r :: Possible(c, r) ==> StillFull(c, st, r)
  {
    hide Facts.Wf;
    hide Facts.All;
    hide Exact;
    hide Good;
    hide Careful;
    hide StillFull;
    hide Release.Sane;
    if Careful(c, st) {
      forall r | Possible(c, r) ensures StillFull(c, st, r) { AssignKeeps(c, st, r); }
    } else {
      var r := AssignLoses(c, st);
      assert Possible(c, r) && !StillFull(c, st, r);
    }
  }

  lemma AssignKeeps(c: Ctx, st: Stmt, r: RState)
    requires Entered(c, st) && st.Assign? && Careful(c, st) && Possible(c, r)
    ensures StillFull(c, st, r)
  {
    AssignExact(c, st, r, []);
    PlainRun(c, st, r, []);
    hide Facts.Wf;
    hide Facts.All;
    hide Exact;
    hide Good;
    hide Careful;
    hide Release.Sane;
    hide Exec;
    hide Analyze;
    hide Must;
  }

  lemma UncarefulAssign(c: Ctx, st: Stmt)
    requires Entered(c, st) && st.Assign? && !Careful(c, st)
    ensures st.x in Facts.All(c) && st.x in Names(c.moved) && !Surely(c.moved, st.x)
      && st.x !in Taken(st.rhs, st.x, true)
    ensures Facts.RhsScoped(st.rhs, Facts.All(c)) && !st.rhs.New? ==>
      st.rhs.y !in Names(c.moved) && st.rhs.y in Facts.All(c)
    ensures Analyze(c, st).st == Assign(st.x, st.rhs, Note([], if st.rhs.New? then [] else [st.rhs.y], false))
      && (!st.rhs.New? ==> st.rhs.y != st.x)
  {
    RhsSummary(c, st.rhs, st.x, true);
    RhsSurely(c, st.rhs, st.x);
    Facts.LookupIs(c, st.x);
    hide Facts.Wf;
    hide Facts.All;
    hide Facts.TableOk;
    hide MoveRhs;
    hide RhsNulls;
    hide Names;
    hide Unmark;
    hide Surely;
    hide Lookup;
  }

  lemma AssignLoses(c: Ctx, st: Stmt) returns (r: RState)
    requires Entered(c, st) && st.Assign? && !Careful(c, st)
    ensures Possible(c, r) && !StillFull(c, st, r)
  {
    UncarefulAssign(c, st);
    SureNames(c.moved);
    SuresAre(c.moved);
    r := SomeState(c, Facts.All(c) * Sures(c.moved));
    hide Facts.Wf;
    hide Facts.All;
    hide Surely;
    hide Names;
    hide Sures;
    hide Good;
    NullIn(r, Facts.All(c), st.x);
    if !st.rhs.New? { NullIn(r, Facts.All(c), st.rhs.y); }
    StoreLoses(r, Facts.All(c), st.rhs, st.x, Analyze(c, st).st);
  }

  /** Storing over a variable that holds an object, without releasing it. */
  lemma StoreLoses(r: RState, s: set<string>, rhs: Rhs, x: string, st: Stmt)
    requires r.vars.Keys == s && x in s && Release.Sane(r, s) && Holds(r, x) && (!rhs.New? ==> rhs.y in s && rhs.y != x)
    requires st == Assign(x, rhs, Note([], if rhs.New? then [] else [rhs.y], false))
    ensures var o := Exec(st, r, []); o.Normal? ==> !Full(o.r, s)
  {
    var o, i := Exec(st, r, []), r.vars[x].value;
    if o.Normal? {
      assert i < o.r.next && !Release.Logged(o.r, i);
      forall z | z in s && z in o.r.vars ensures o.r.vars[z] != Some(i) {}
      assert !Kept(o.r, s, i);
    }
  }

  // ----- Leaving after a loop -----

  /** Returning right after passing a loop by leaves no object behind. */
  ghost predicate LeavesNothing(c: Ctx, st: Stmt, r: RState)
    requires c.scopes != []
  {
    var v := AnalyzeAll(c, [st, Return(None, BLANK)]);
    v.AcceptedAll? && var o := ExecAll(v.ss, r, [false]); o.Returned? && Full(o.r, {})
  }

  lemma LeavingIs(c: Ctx, st: Stmt, r: RState)
    requires Entered(c, st) && st.While? && Good(c, r)
    ensures var v := AnalyzeAll(c, [st, Return(None, BLANK)]);
      v.AcceptedAll?
        && ExecAll(v.ss, r, [false]) == Returned(ReleaseAll(r, Pending(Analyze(c, st).c.moved, Walk(c.scopes, true))))
  {
    LoopSkips(c, st, r);
    Facts.KeptStmt(c, st);
    hide Facts.Wf;
    hide Facts.All;
    hide Pending;
    hide Walk;
    hide AnalyzeBlock;
    hide CondAllowed;
    var d, s1 := Analyze(c, st).c, Analyze(c, st).st;
    TwoAccepted(c, st, Return(None, BLANK));
    var ret := Return(None, Note(Pending(d.moved, Walk(d.scopes, true)), [], false));
    assert [s1, ret][1..] == [ret];
    ExecTwo(s1, ret, r, [false], r, []);
  }

  lemma ExecTwo(s: Stmt, t: Stmt, r: RState, ch: seq<bool>, q: RState, ch': seq<bool>)
    requires Exec(s, r, ch) == Normal(q, ch') && t.Return? && t.value.None?
    ensures ExecAll([s, t], r, ch) == Returned(ReleaseAll(q, t.note.releases))
  {
    assert [s, t][1..] == [t];
    assert ExecAll([t], q, ch') == Exec(t, q, ch');
  }

  /** Where a loop is passed by and the function then left, no object is lost, exactly when the loop makes the checker
      sure of nothing new: a body that returns a variable does make it sure of that. */
  lemma LoopLeavesExactlyWhen(c: Ctx, st: Stmt)
    requires Entered(c, st) && st.While?
    ensures (forall z :: z in Facts.All(c) && Surely(Analyze(c, st).c.moved, z) ==> Surely(c.moved, z)) <==>
      forall r :: Possible(c, r) ==> LeavesNothing(c, st, r)
  {
    hide Facts.Wf;
    hide Facts.All;
    hide Exact;
    hide Good;
    hide LeavesNothing;
    hide Release.Sane;
    hide Surely;
    hide Analyze;
    if forall z :: z in Facts.All(c) && Surely(Analyze(c, st).c.moved, z) ==> Surely(c.moved, z) {
      forall r | Possible(c, r) ensures LeavesNothing(c, st, r) { LoopLeaves(c, st, r); }
    } else {
      var z :| z in Facts.All(c) && Surely(Analyze(c, st).c.moved, z) && !Surely(c.moved, z);
      var r := LoopStrands(c, st, z);
      assert Possible(c, r) && !LeavesNothing(c, st, r);
    }
  }

  lemma LoopLeaves(c: Ctx, st: Stmt, r: RState)
    requires Entered(c, st) && st.While? && Possible(c, r)
    requires forall z :: z in Facts.All(c) && Surely(Analyze(c, st).c.moved, z) ==> Surely(c.moved, z)
    ensures LeavesNothing(c, st, r)
  {
    LeavingIs(c, st, r);
    hide Facts.Wf;
    hide Good;
    hide Release.Sane;
    hide Surely;
    hide Analyze;
    hide AnalyzeAll;
    hide ExecAll;
    hide Full;
    PendingFull(r, Analyze(c, st).c.moved, Walk(c.scopes, true), Facts.All(c), {});
  }

  lemma LoopStrands(c: Ctx, st: Stmt, z: string) returns (r: RState)
    requires Entered(c, st) && st.While? && z in Facts.All(c) && Surely(Analyze(c, st).c.moved, z)
      && !Surely(c.moved, z)
    ensures Possible(c, r) && !LeavesNothing(c, st, r)
  {
    SureNames(c.moved);
    SuresAre(c.moved);
    r := SomeState(c, Facts.All(c) * Sures(c.moved));
    LeavingIs(c, st, r);
    Release.PendingFacts(Analyze(c, st).c.moved, Walk(c.scopes, true));
    hide Facts.Wf;
    hide Surely;
    hide Names;
    hide Sures;
    hide Good;
    hide Analyze;
    hide AnalyzeAll;
    hide ExecAll;
    hide Pending;
    hide Walk;
    NullIn(r, Facts.All(c), z);
    Stranded(r, Pending(Analyze(c, st).c.moved, Walk(c.scopes, true)), Facts.All(c), z);
  }

  /** Releasing other variables does not deal with what `z` holds. */
  lemma Stranded(r: RState, xs: seq<string>, s: set<string>, z: string)
    requires Release.Sane(r, s) && r.vars.Keys == s && z in s && Holds(r, z) && z !in xs && Release.Named(xs) <= s
    ensures !Full(ReleaseAll(r, xs), {})
  {
    var i := r.vars[z].value;
    forall x | x in xs
      ensures x in s && x != z && (Holds(r, x) ==> r.vars[x] != Some(i))
    {
      assert x in Release.Named(xs);
    }
    Unreleased(r, xs, i);
    assert !Kept(ReleaseAll(r, xs), {}, i);
  }

  lemma {:induction false} Unreleased(r: RState, xs: seq<string>, i: nat)
    requires !Release.Logged(r, i) && forall x :: x in xs && Holds(r, x) ==> r.vars[x] != Some(i)
    ensures !Release.Logged(ReleaseAll(r, xs), i) && ReleaseAll(r, xs).next == r.next
    decreases |xs|
  {
    if xs != [] {
      assert xs[0] in xs;
      Unreleased(ReleaseVar(r, xs[0]), xs[1..], i);
    }
  }
}
