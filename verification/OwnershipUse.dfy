module UseSafety {
  // No accepted program reads or gives away a variable whose value has been moved.

  import opened Options
  import opened Graphs
  import opened Ownership
  import Facts = OwnershipFacts
  import Release = ReleaseSafety

  function Head(m: seq<Moved>, n: nat): seq<Moved> { if n <= |m| then m[..n] else m }

  /** Of what the branches of an `if` have put among the first entries of their tables, as many as there were before it,
      nothing was new there, or it is found beyond them as well. */
  ghost predicate Remembers(c: Ctx, t: seq<Moved>, f: seq<Moved>) {
    var n := |c.moved|;
    forall x ::
      x in Facts.All(c) && x in Names(Head(t, n)) + Names(Head(f, n)) ==>
        x in Names(c.moved) + Names(Tail(t, n)) + Names(Tail(f, n))
  }

  ghost predicate IfRemembers(c: Ctx, st: Stmt)
    requires c.scopes != [] && st.If?
  {
    var a, b := Analyze(c, st.thenB), if st.elseB.Some? then Analyze(c, st.elseB.value) else Accepted(c, st);
    a.Accepted? && b.Accepted? && !EndsInJump(st.thenB) && (st.elseB.Some? ==> !EndsInJump(st.elseB.value)) ==>
      Remembers(c, a.c.moved, b.c.moved)
  }

  /** The body of a loop leaves the entries from before the loop in the table. */
  ghost predicate LoopRemembers(c: Ctx, st: Stmt)
    requires c.scopes != [] && st.While?
  { Analyze(c, st).Accepted? ==>
    forall x :: x in Facts.All(c) && x in Names(c.moved) ==> x in Names(Analyze(c, st).c.moved) }

  /** No `if` and no loop makes the checker forget a move. */
  ghost predicate Disciplined(c: Ctx, st: Stmt)
    requires c.scopes != []
    decreases st, 1
  {
    match st
    case Block(_, _) => DisciplinedBlock(c, st, false)
    case If(_, a, b) => IfRemembers(c, st) && Disciplined(c, a) && (b.Some? ==> Disciplined(c, b.value))
    case While(_, body) => LoopRemembers(c, st) && DisciplinedBlock(c, body, true)
    case _ => true
  }

  ghost predicate DisciplinedBlock(c: Ctx, st: Stmt, isLoop: bool)
    decreases st, 0
  { st.Block? ==> DisciplinedAll(Facts.Inside(c, isLoop), st.body) }

  ghost predicate DisciplinedAll(c: Ctx, ss: seq<Stmt>)
    requires c.scopes != []
    decreases ss, 0
  {
    ss == []
      || (Disciplined(c, ss[0]) && (Analyze(c, ss[0]).Accepted? ==> DisciplinedAll(Analyze(c, ss[0]).c, ss[1..])))
  }

  // ----- Names in tables -----

  ghost predicate Entered(c: Ctx, st: Stmt) {
    Facts.Wf(c) && Facts.Scoped(st, Facts.All(c)) && Analyze(c, st).Accepted?
  }

  lemma MaybeNames(m: seq<Moved>)
    ensures Names(AllMaybe(m)) == Names(m)
  {
    var r := AllMaybe(m);
    forall x | x in Names(m) ensures x in Names(r) { var i :| 0 <= i < |m| && m[i].name == x; assert r[i].name == x; }
  }

  lemma BothNames(m: seq<Moved>, f: seq<Moved>)
    ensures Names(Both(m, f)) == Names(m)
  {
    hide Surely;
    var r := Both(m, f);
    forall x | x in Names(m) ensures x in Names(r) { var i :| 0 <= i < |m| && m[i].name == x; assert r[i].name == x; }
    forall x | x in Names(r) ensures x in Names(m) { var i :| 0 <= i < |r| && r[i].name == x; assert m[i].name == x; }
  }

  lemma {:induction false} WithoutNames(m: seq<Moved>, names: set<string>)
    ensures Names(Without(m, names)) == Names(m) - names
  {
    if m != [] {
      WithoutNames(m[1..], names);
      Facts.NamesCons(m);
      if m[0].name !in names {
        Facts.NamesCons([m[0]] + Without(m[1..], names));
        assert ([m[0]] + Without(m[1..], names))[1..] == Without(m[1..], names);
      } else {
        assert [] + Without(m[1..], names) == Without(m[1..], names);
      }
    }
  }

  lemma NamesSplit(m: seq<Moved>, n: nat)
    requires n <= |m|
    ensures Names(m) == Names(m[..n]) + Names(Tail(m, n))
  {
    var t := Tail(m, n);
    forall x | x in Names(m[..n]) + Names(t) ensures x in Names(m) {
      if x in Names(m[..n]) { var k :| 0 <= k < n && m[..n][k].name == x; assert m[k].name == x; }
      else { var k :| 0 <= k < |t| && t[k].name == x; assert m[n + k].name == x; }
    }
    forall x | x in Names(m) ensures x in Names(m[..n]) + Names(t) {
      var k :| 0 <= k < |m| && m[k].name == x;
      if k < n { assert m[..n][k].name == x; } else { assert t[k - n].name == x; }
    }
  }

  // ----- Exactly when a merge forgets -----

  lemma HeadTail(m: seq<Moved>, n: nat)
    ensures Names(m) == Names(Head(m, n)) + Names(Tail(m, n))
  { if n <= |m| { NamesSplit(m, n); } else { Facts.NoNames(); } }

  /** The merge of two branches that both end normally loses a move exactly when a branch has put a variable among the
      first entries of its table, as many as there were before the branch, that was not in the table then and is not
      found beyond them either. A branch can do that only by unmarking one of those entries. */
  lemma MergeForgetsExactlyWhen(c: Ctx, t: seq<Moved>, f: seq<Moved>, hasElse: bool)
    requires Facts.Wf(c) && Facts.TableOk(t) && Facts.TableOk(f) && Merge(c, t, f, false, false, hasElse).Some?
    requires !hasElse ==> f == c.moved
    ensures var m := Merge(c, t, f, false, false, hasElse).value;
      (forall x :: x in Facts.All(c) && x in Names(t) + Names(f) ==> x in Names(m)) <==> Remembers(c, t, f)
  {
    var n := |c.moved|;
    var m := Merge(c, t, f, false, false, hasElse).value;
    Facts.WfTable(c);
    HeadTail(t, n);
    HeadTail(f, n);
    MaybeNames(Tail(t, n));
    BothNames(Tail(t, n), Tail(f, n));
    var rest := Without(Tail(f, n), Names(Tail(t, n)));
    WithoutNames(Tail(f, n), Names(Tail(t, n)));
    MaybeNames(rest);
    Facts.NoNames();
    assert Tail(c.moved, n) == [];
    hide Facts.Wf;
    hide Remark;
    hide Names;
    hide Tail;
    hide Head;
    hide Both;
    hide Without;
    hide Facts.All;
    hide Facts.TableOk;
    if !hasElse { Facts.RemarkNames(c, c.moved, AllMaybe(Tail(t, n))); }
    else {
      Facts.RemarkNames(c, c.moved, Both(Tail(t, n), Tail(f, n)));
      Facts.RemarkNames(c, Remark(c, c.moved, Both(Tail(t, n), Tail(f, n))).value, AllMaybe(rest));
    }
    assert forall x ::
      x in Facts.All(c) ==> (x in Names(m) <==> x in Names(c.moved) + Names(Tail(t, n)) + Names(Tail(f, n)));
  }

  // ----- Every run -----

  /** A variable in scope that holds nothing is in the table. */
  ghost predicate May(r: RState, m: seq<Moved>, s: set<string>) { forall x :: x in s && !Holds(r, x) ==> x in Names(m) }

  /** What held something still does. */
  ghost predicate Alive(r: RState, q: RState, s: set<string>) { forall x :: x in s && Holds(r, x) ==> Holds(q, x) }

  ghost predicate OutUse(o: Out, r: RState, c: Ctx, m: seq<Moved>, after: set<string>) {
    match o
    case Normal(q, _) => q.vars.Keys == after && May(q, m, after) && Alive(r, q, Facts.Outside(c))
    case Broke(q, _) => Facts.Outside(c) <= q.vars.Keys && Alive(r, q, Facts.Outside(c)) && c.loopDepth > 0
    case Continued(q, _) => Facts.Outside(c) <= q.vars.Keys && Alive(r, q, Facts.Outside(c)) && c.loopDepth > 0
    case NullUse => false
    case _ => true
  }

  ghost predicate Good(c: Ctx, r: RState) {
    Facts.Wf(c) && r.vars.Keys == Facts.All(c) && May(r, c.moved, Facts.All(c))
  }

  /** What a right-hand side takes: the variable given away by it, if any. */
  function Taken(rhs: Rhs, x: string, assigning: bool): set<string> {
    if rhs.New? || (assigning && rhs == Var(x)) then {} else {rhs.y}
  }

  lemma RhsSummary(c: Ctx, rhs: Rhs, x: string, assigning: bool)
    requires Facts.Wf(c) && Facts.RhsScoped(rhs, Facts.All(c)) && MoveRhs(c, rhs, x, assigning).Some?
    ensures var m := MoveRhs(c, rhs, x, assigning).value.moved;
      Facts.TableOk(m) && Names(m) == Names(c.moved) + Taken(rhs, x, assigning)
    ensures !rhs.New? ==> rhs.y !in Names(c.moved) && (!(assigning && rhs.y == x) ==> rhs.y !in Facts.Outside(c))
    ensures RhsNulls(c, rhs, x, assigning) == if rhs.New? || (assigning && rhs.y == x) then [] else [rhs.y]
  {
    Facts.WfTable(c);
    if !rhs.New? {
      Facts.LookupIs(c, rhs.y);
      if !(assigning && rhs == Var(x)) { Facts.MoveFacts(c, rhs.y, assigning && rhs.y == x); }
    }
    hide Facts.Wf;
    hide Facts.TableOk;
    hide Move;
    hide Names;
    hide Surely;
  }

  /** Storing a value in `x`: nothing but the variable given away loses its value. */
  lemma StoreUse(r: RState, s: set<string>, rhs: Rhs, x: string, assigning: bool, st: Stmt, ch: seq<bool>,
      moved: set<string>)
    requires r.vars.Keys == s && (assigning ==> x in s) && (!assigning ==> x !in s) && Facts.RhsScoped(rhs, s)
    requires (forall z :: z in s && !Holds(r, z) ==> z in moved) && (!rhs.New? ==> rhs.y !in moved)
    requires (if assigning then st.Assign? else st.Let?) && st.x == x && st.rhs == rhs
    requires st.note.nulls == if rhs.New? || (assigning && rhs.y == x) then [] else [rhs.y]
    ensures var o := Exec(st, r, ch);
      && o.Normal? && o.r.vars.Keys == s + {x}
      && (forall z :: z in s + {x} && !Holds(o.r, z) ==> z in moved + Taken(rhs, x, assigning) && z != x)
      && (forall z :: z in s && z != x && (rhs.New? || z != rhs.y) && Holds(r, z) ==> Holds(o.r, z))
      && Holds(o.r, x)
  {}

  lemma LetUse(c: Ctx, st: Stmt, r: RState, ch: seq<bool>)
    requires Entered(c, st) && st.Let? && Good(c, r)
    ensures OutUse(Exec(Analyze(c, st).st, r, ch), r, c, Analyze(c, st).c.moved, Facts.After(Facts.All(c), st))
  {
    RhsSummary(c, st.rhs, st.x, false);
    Facts.UnmarkFacts(MoveRhs(c, st.rhs, st.x, false).value.moved, st.x);
    Release.OutsideIn(c);
    hide Facts.Wf;
    hide Facts.All;
    hide Facts.Outside;
    hide Facts.TableOk;
    hide MoveRhs;
    hide RhsNulls;
    hide Names;
    hide Unmark;
    hide Surely;
    StoreUse(r, Facts.All(c), st.rhs, st.x, false, Analyze(c, st).st, ch, Names(c.moved));
    hide Exec;
  }

  lemma AssignUse(c: Ctx, st: Stmt, r: RState, ch: seq<bool>)
    requires Entered(c, st) && st.Assign? && Good(c, r)
    ensures OutUse(Exec(Analyze(c, st).st, r, ch), r, c, Analyze(c, st).c.moved, Facts.All(c))
  {
    RhsSummary(c, st.rhs, st.x, true);
    Facts.LookupIs(c, st.x);
    Facts.UnmarkFacts(MoveRhs(c, st.rhs, st.x, true).value.moved, st.x);
    Release.OutsideIn(c);
    hide Facts.Wf;
    hide Facts.All;
    hide Facts.Outside;
    hide Facts.TableOk;
    hide MoveRhs;
    hide RhsNulls;
    hide Names;
    hide Unmark;
    hide Surely;
    hide Lookup;
    StoreUse(r, Facts.All(c), st.rhs, st.x, true, Analyze(c, st).st, ch, Names(c.moved));
    assert Facts.All(c) + {st.x} == Facts.All(c);
    hide Exec;
  }

  lemma ConsumeUse(c: Ctx, st: Stmt, r: RState, ch: seq<bool>)
    requires Entered(c, st) && st.Consume? && Good(c, r)
    ensures OutUse(Exec(Analyze(c, st).st, r, ch), r, c, Analyze(c, st).c.moved, Facts.All(c))
  {
    Facts.LookupIs(c, st.y);
    Facts.MoveFacts(c, st.y, false);
    hide Facts.Wf;
    hide Facts.TableOk;
    hide Move;
    hide Names;
    hide Surely;
  }

  lemma {:induction false} ReleaseKeepsVars(r: RState, xs: seq<string>)
    ensures ReleaseAll(r, xs).vars == r.vars
    decreases |xs|
  { if xs != [] { ReleaseKeepsVars(ReleaseVar(r, xs[0]), xs[1..]); } }

  lemma JumpUse(c: Ctx, st: Stmt, r: RState, ch: seq<bool>)
    requires Entered(c, st) && (st.Break? || st.Continue?) && Good(c, r)
    ensures OutUse(Exec(Analyze(c, st).st, r, ch), r, c, Analyze(c, st).c.moved, Facts.All(c))
  {
    ReleaseKeepsVars(r, Pending(c.moved, Walk(c.scopes, false)));
    Release.OutsideIn(c);
    hide Facts.Wf;
    hide Facts.All;
    hide Facts.Outside;
    hide Names;
    hide Pending;
    hide Walk;
  }

  lemma ReturnUse(c: Ctx, st: Stmt, r: RState, ch: seq<bool>)
    requires Entered(c, st) && st.Return? && Good(c, r)
    ensures Exec(Analyze(c, st).st, r, ch).Returned?
  {
    if st.value.Some? { Facts.LookupIs(c, st.value.value); Facts.MoveFacts(c, st.value.value, true); }
    hide Facts.Wf;
    hide Facts.All;
    hide Move;
    hide Names;
    hide Pending;
    hide Walk;
    hide Surely;
    hide ReleaseAll;
  }

  lemma CondUse(c: Ctx, cond: seq<CondUse>, r: RState, isLoop: bool)
    requires Good(c, r) && CondAllowed(Release.LoopCtx(c, isLoop), cond) && forall k ::
      0 <= k < |cond| ==> cond[k].y in Facts.All(c)
    ensures CondRuns(r, cond)
  {
    forall k | 0 <= k < |cond| ensures Holds(r, cond[k].y) { Facts.LookupIs(c, cond[k].y); }
  }

  lemma {:induction false} StmtUse(c: Ctx, st: Stmt, r: RState, ch: seq<bool>)
    requires Entered(c, st) && Good(c, r) && Disciplined(c, st)
    ensures OutUse(Exec(Analyze(c, st).st, r, ch), r, c, Analyze(c, st).c.moved, Facts.After(Facts.All(c), st))
    decreases |ch|, st, 2
  {
    hide Good;
    hide Facts.Wf;
    hide Facts.All;
    hide Facts.Outside;
    match st
    case Let(_, _, _) => LetUse(c, st, r, ch);
    case Assign(_, _, _) => AssignUse(c, st, r, ch);
    case Borrow(y) => BorrowUse(c, y, r);
    case Consume(_, _) => ConsumeUse(c, st, r, ch);
    case Block(_, _) => BlockUse(c, st, false, r, ch);
    case If(_, _, _) => IfUse(c, st, r, ch);
    case While(_, _) => WhileUse(c, st, r, ch);
    case Break(_) => JumpUse(c, st, r, ch);
    case Continue(_) => JumpUse(c, st, r, ch);
    case Return(_, _) => ReturnUse(c, st, r, ch);
  }

  lemma BorrowUse(c: Ctx, y: string, r: RState)
    requires Good(c, r) && y in Facts.All(c) && UseAllowed(c, y)
    ensures Holds(r, y) && r.vars.Keys == Facts.All(c) && May(r, c.moved, Facts.All(c)) && Alive(r, r, Facts.Outside(c))
  { Facts.LookupIs(c, y); }

  lemma {:induction false} AllUse(c: Ctx, ss: seq<Stmt>, r: RState, ch: seq<bool>)
    requires Facts.ScopedAll(ss, Facts.All(c)) && Good(c, r) && AnalyzeAll(c, ss).AcceptedAll? && DisciplinedAll(c, ss)
    ensures OutUse(ExecAll(AnalyzeAll(c, ss).ss, r, ch), r, c, AnalyzeAll(c, ss).c.moved,
      Facts.All(AnalyzeAll(c, ss).c))
    decreases |ch|, ss, 0
  {
    hide Facts.Wf;
    hide Facts.All;
    hide Facts.Outside;
    hide Exec;
    hide Analyze;
    hide Disciplined;
    hide Holds;
    hide Names;
    if ss != [] {
      var d, s1 := Analyze(c, ss[0]).c, Analyze(c, ss[0]).st;
      Facts.KeptStmt(c, ss[0]);
      StmtUse(c, ss[0], r, ch);
      assert Facts.After(Facts.All(c), ss[0]) == Facts.All(c) + Facts.Declared(ss[0]);
      assert ([s1] + AnalyzeAll(d, ss[1..]).ss)[1..] == AnalyzeAll(d, ss[1..]).ss;
      var o := Exec(s1, r, ch);
      if o.Normal? { AllUse(d, ss[1..], o.r, o.ch); }
    }
  }

  lemma LeaveUse(o: Out, r: RState, inner: Ctx, m: seq<Moved>, after: set<string>, xs: seq<string>, s: set<string>)
    requires OutUse(o, r, inner, m, after) && s <= after && Facts.Outside(inner) <= s && r.vars.Keys == s
    ensures var e := Leave(if o.Normal? then Normal(ReleaseAll(o.r, xs), o.ch) else o, s);
      && OutUse(e, r, inner, m, s)
      && (e.Normal? || e.Broke? || e.Continued? ==> Facts.Outside(inner) <= e.r.vars.Keys <= s)
  {
    if o.Normal? { ReleaseKeepsVars(o.r, xs); }
    hide Facts.Outside;
    hide Names;
  }

  /** A block, seen from inside; for a loop body, everything around it counts as outside. */
  lemma {:induction false} BlockUse(c: Ctx, st: Stmt, isLoop: bool, r: RState, ch: seq<bool>)
    requires Facts.Scoped(st, Facts.All(c)) && st.Block? && Good(c, r)
      && AnalyzeBlock(Release.LoopCtx(c, isLoop), st, isLoop).Accepted?
    requires DisciplinedBlock(c, st, isLoop)
    ensures var v := AnalyzeBlock(Release.LoopCtx(c, isLoop), st, isLoop); var o := Exec(v.st, r, ch);
      && OutUse(o, r, Facts.Inside(c, isLoop), v.c.moved, Facts.All(c))
      && (isLoop && (o.Normal? || o.Broke? || o.Continued?) ==> o.r.vars.Keys == Facts.All(c))
      && (!isLoop ==> OutUse(o, r, c, v.c.moved, Facts.All(c)))
    decreases |ch|, st, 1
  {
    var inner := Facts.Inside(c, isLoop);
    Release.InsideOutside(c, isLoop);
    Release.OutsideIn(c);
    hide Facts.Wf;
    hide Facts.All;
    hide Facts.Outside;
    hide Facts.Kept;
    hide AnalyzeAll;
    hide ExecAll;
    hide Pending;
    hide May;
    hide Alive;
    hide Exec;
    hide AnalyzeBlock;
    hide VarNames;
    hide DisciplinedAll;
    hide Facts.ScopedAll;
    Release.BlockRuns(c, st, isLoop, r, ch);
    AllUse(inner, st.body, r, ch);
    var declared := Facts.KeptAll(inner, st.body);
    var last := AnalyzeAll(inner, st.body).c;
    Release.KeptSize(inner, last, declared);
    Release.BlockNames(c, isLoop, last, declared);
    var o := ExecAll(AnalyzeAll(inner, st.body).ss, r, ch);
    LeaveUse(o, r, inner, last.moved, Facts.All(last), Closing(last), Facts.All(c));
  }

  lemma {:induction false} JumpEndsRun(ss: seq<Stmt>, c: Ctx, r: RState, ch: seq<bool>)
    requires c.scopes != [] && ss != [] && IsJump(ss[|ss|-1]) && AnalyzeAll(c, ss).AcceptedAll?
    ensures !ExecAll(AnalyzeAll(c, ss).ss, r, ch).Normal?
    decreases ss
  {
    var d, s1 := Analyze(c, ss[0]).c, Analyze(c, ss[0]).st;
    var rest := AnalyzeAll(d, ss[1..]).ss;
    assert ([s1] + rest)[1..] == rest;
    if |ss| > 1 {
      var o := Exec(s1, r, ch);
      if o.Normal? { JumpEndsRun(ss[1..], d, o.r, o.ch); }
    }
  }

  lemma EndedNotNormal(c: Ctx, st: Stmt, r: RState, ch: seq<bool>)
    requires c.scopes != [] && EndsInJump(st) && Analyze(c, st).Accepted?
    ensures !Exec(Analyze(c, st).st, r, ch).Normal?
  {
    if st.Block? {
      hide AnalyzeAll;
      hide ExecAll;
      JumpEndsRun(st.body, Facts.Inside(c, false), r, ch);
    }
  }

  lemma Covered(o: Out, r: RState, c: Ctx, m: seq<Moved>, merged: seq<Moved>, s: set<string>)
    requires OutUse(o, r, c, m, s) && (o.Normal? ==> forall x :: x in Names(m) && x in s ==> x in Names(merged))
    ensures OutUse(o, r, c, merged, s)
  { hide Names; }

  lemma {:induction false} IfUse(c: Ctx, st: Stmt, r: RState, ch: seq<bool>)
    requires Entered(c, st) && st.If? && Good(c, r) && Disciplined(c, st)
    ensures OutUse(Exec(Analyze(c, st).st, r, ch), r, c, Analyze(c, st).c.moved, Facts.All(c))
    decreases |ch|, st, 1
  {
    hide Facts.Wf;
    hide Facts.All;
    hide Facts.Outside;
    hide Merge;
    hide Names;
    hide CondAllowed;
    hide CondRuns;
    hide EndsInJump;
    hide May;
    hide Alive;
    IfCovers(c, st);
    CondUse(c, st.cond, r, false);
    var d := Analyze(c, st).c.moved;
    if ch != [] {
      var rest := ch[1..];
      if ch[0] {
        StmtUse(c, st.thenB, r, rest);
        if EndsInJump(st.thenB) { EndedNotNormal(c, st.thenB, r, rest); }
        Covered(Exec(Analyze(c, st.thenB).st, r, rest), r, c, Analyze(c, st.thenB).c.moved, d, Facts.All(c));
      } else if st.elseB.Some? {
        StmtUse(c, st.elseB.value, r, rest);
        if EndsInJump(st.elseB.value) { EndedNotNormal(c, st.elseB.value, r, rest); }
        Covered(Exec(Analyze(c, st.elseB.value).st, r, rest), r, c, Analyze(c, st.elseB.value).c.moved, d,
          Facts.All(c));
      } else {
        StaysUse(c, r, rest, d);
      }
    }
  }

  lemma StaysUse(c: Ctx, r: RState, ch: seq<bool>, m: seq<Moved>)
    requires Good(c, r) && forall x :: x in Facts.All(c) && x in Names(c.moved) ==> x in Names(m)
    ensures OutUse(Normal(r, ch), r, c, m, Facts.All(c))
  {}

  /** After an `if`, the table covers what either branch that can end normally has moved. */
  lemma IfCovers(c: Ctx, st: Stmt)
    requires Entered(c, st) && st.If? && Disciplined(c, st)
    ensures CondAllowed(c, st.cond)
    ensures Entered(c, st.thenB) && Disciplined(c, st.thenB)
    ensures var d := Analyze(c, st).c.moved; !EndsInJump(st.thenB) ==>
      forall x :: x in Names(Analyze(c, st.thenB).c.moved) && x in Facts.All(c) ==> x in Names(d)
    ensures st.elseB.Some? ==> Entered(c, st.elseB.value) && Disciplined(c, st.elseB.value)
    ensures var d := Analyze(c, st).c.moved; st.elseB.Some? && !EndsInJump(st.elseB.value) ==>
      forall x :: x in Names(Analyze(c, st.elseB.value).c.moved) && x in Facts.All(c) ==> x in Names(d)
    ensures var d := Analyze(c, st).c.moved;
      st.elseB.None? ==> forall x :: x in Names(c.moved) && x in Facts.All(c) ==> x in Names(d)
  {
    hide Facts.Wf;
    hide Facts.All;
    hide Names;
    hide EndsInJump;
    hide CondAllowed;
    hide Facts.TableOk;
    hide Remembers;
    assert Analyze(c, st) == AnalyzeIf(c, st);
    Facts.KeptStmt(c, st.thenB);
    Facts.WfTable(Analyze(c, st.thenB).c);
    Facts.WfTable(c);
    var t := Analyze(c, st.thenB).c.moved;
    if st.elseB.Some? {
      Facts.KeptStmt(c, st.elseB.value);
      Facts.WfTable(Analyze(c, st.elseB.value).c);
      MergeRemembers(c, t, Analyze(c, st.elseB.value).c.moved, EndsInJump(st.thenB), EndsInJump(st.elseB.value), true);
    } else {
      MergeRemembers(c, t, c.moved, EndsInJump(st.thenB), false, false);
    }
  }

  lemma MergeRemembers(c: Ctx, t: seq<Moved>, f: seq<Moved>, tEnds: bool, fEnds: bool, hasElse: bool)
    requires Facts.Wf(c) && Facts.TableOk(t) && Facts.TableOk(f) && Merge(c, t, f, tEnds, fEnds, hasElse).Some?
    requires !hasElse ==> f == c.moved && !fEnds
    requires !tEnds && !fEnds ==> Remembers(c, t, f)
    ensures var m := Merge(c, t, f, tEnds, fEnds, hasElse).value;
      forall x :: x in Facts.All(c) && ((!tEnds && x in Names(t)) || (!fEnds && x in Names(f))) ==> x in Names(m)
  {
    if !tEnds && !fEnds { MergeForgetsExactlyWhen(c, t, f, hasElse); }
    hide Facts.Wf;
    hide Facts.All;
    hide Facts.TableOk;
    hide Names;
    hide Remembers;
    hide Remark;
  }

  lemma {:induction false} WhileUse(c: Ctx, st: Stmt, r: RState, ch: seq<bool>)
    requires Entered(c, st) && st.While? && Good(c, r) && Disciplined(c, st)
    ensures OutUse(Exec(Analyze(c, st).st, r, ch), r, c, Analyze(c, st).c.moved, Facts.All(c))
    decreases |ch|, st, 1
  {
    hide Facts.Wf;
    hide Facts.All;
    hide Facts.Outside;
    hide AnalyzeBlock;
    hide CondAllowed;
    hide CondRuns;
    hide May;
    hide Alive;
    hide Names;
    CondUse(c, st.cond, r, true);
    var v := AnalyzeBlock(Release.LoopCtx(c, true), st.loopBody, true);
    LoopTable(c, st);
    if ch != [] {
      var rest := ch[1..];
      if !ch[0] { StaysUse(c, r, rest, v.c.moved); }
      else {
        BlockUse(c, st.loopBody, true, r, rest);
        var o := Exec(v.st, r, rest);
        if o.Normal? || o.Continued? || o.Broke? {
          LoopGood(c, r, o.r, v.c.moved, o.ch);
          if !o.Broke? {
            WhileUse(c, st, o.r, o.ch);
            AliveFrom(Exec(Analyze(c, st).st, o.r, o.ch), r, o.r, c, v.c.moved, Facts.All(c));
          }
        }
      }
    }
  }

  lemma LoopTable(c: Ctx, st: Stmt)
    requires Entered(c, st) && st.While? && Disciplined(c, st)
    ensures var v := AnalyzeBlock(Release.LoopCtx(c, true), st.loopBody, true);
      v.Accepted? && forall x :: x in Facts.All(c) && x in Names(c.moved) ==> x in Names(v.c.moved)
  {
    hide AnalyzeBlock;
    hide Names;
    hide Facts.All;
  }

  /** After any number of rounds, what was alive around the loop still is. */
  lemma LoopGood(c: Ctx, r: RState, q: RState, m: seq<Moved>, ch: seq<bool>)
    requires Good(c, r) && q.vars.Keys == Facts.All(c) && Alive(r, q, Facts.Outside(Facts.Inside(c, true)))
    requires forall x :: x in Facts.All(c) && x in Names(c.moved) ==> x in Names(m)
    ensures Good(c, q) && Alive(r, q, Facts.All(c)) && OutUse(Normal(q, ch), r, c, m, Facts.All(c))
  {
    Release.InsideOutside(c, true);
    hide Facts.Wf;
    hide Names;
    hide Facts.Inside;
  }

  lemma AliveFrom(o: Out, r: RState, q: RState, c: Ctx, m: seq<Moved>, s: set<string>)
    requires OutUse(o, q, c, m, s) && Alive(r, q, Facts.All(c))
    ensures OutUse(o, r, c, m, s)
  { hide Names; }

  /** Ownership soundness: on every path and loop iteration, an accepted function in which no `if` and no loop makes the
      checker forget a move never reads, moves or consumes a variable that holds nothing. Nor does a jump leave a loop
      it is not in. */
  lemma NoUseAfterMove(f: Function, ch: seq<bool>)
    requires Release.WellScoped(f) && Check(f).AcceptedAll? && DisciplinedAll(Start(f.params), f.body)
    ensures var o := Call(f.params, Check(f).ss, Closing(Check(f).c), ch); o.Returned? || o.Starved?
  {
    var c := Start(f.params);
    Release.StartFacts(f.params);
    Release.EntrySane(f.params);
    EntryHolds(f.params);
    hide Facts.Wf;
    hide Facts.All;
    hide AnalyzeAll;
    hide ExecAll;
    hide Entry;
    hide Pending;
    hide Release.Sane;
    hide DisciplinedAll;
    AllUse(c, f.body, Entry(f.params), ch);
  }

  lemma EntryHolds(params: seq<string>)
    requires NoDup(params)
    ensures forall x :: x in Release.Named(params) ==> Holds(Entry(params), x)
  {
    Release.EntryFacts(params, |params|);
    assert params[..|params|] == params;
    forall x | x in Release.Named(params)
      ensures Holds(Entry(params), x)
    {
      var i :| 0 <= i < |params| && params[i] == x;
    }
  }
}
