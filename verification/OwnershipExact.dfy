module ReleaseExactness {
  // Every object is released or handed over, where the checker's table is exact.

  import opened Options
  import opened Graphs
  import opened Ownership
  import Facts = OwnershipFacts
  import Release = ReleaseSafety
  import opened UseSafety

  /** The variables a statement declares or assigns, at any depth. */
  ghost function Rebound(st: Stmt): set<string>
    decreases st
  {
    match st
    case Let(x, _, _) => {x}
    case Assign(x, _, _) => {x}
    case Block(ss, _) => ReboundAll(ss)
    case If(_, a, b) => Rebound(a) + (if b.Some? then Rebound(b.value) else {})
    case While(_, body) => Rebound(body)
    case _ => {}
  }

  ghost function ReboundAll(ss: seq<Stmt>): set<string>
    decreases ss
  { if ss == [] then {} else Rebound(ss[0]) + ReboundAll(ss[1..]) }

  /** After an `if` the table is sure of nothing that a branch ending normally is not sure of. */
  ghost predicate IfSure(c: Ctx, st: Stmt)
    requires c.scopes != [] && st.If?
  {
    var v, a, b := Analyze(c, st), Analyze(c, st.thenB), if st.elseB.Some?
      then Analyze(c, st.elseB.value)
      else Accepted(c, st);
    v.Accepted? && a.Accepted? && b.Accepted? ==> forall z :: z in Facts.All(c) && Surely(v.c.moved, z) ==>
      && (!EndsInJump(st.thenB) ==> Surely(a.c.moved, z))
      && (st.elseB.None? || !EndsInJump(st.elseB.value) ==> Surely(b.c.moved, z))
  }

  /** After a loop the table is sure of nothing it was not sure of before, and the body re-initialises nothing it was
      sure of. */
  ghost predicate LoopSure(c: Ctx, st: Stmt)
    requires c.scopes != [] && st.While?
  {
    && (Analyze(c, st).Accepted? ==>
      forall z :: z in Facts.All(c) && Surely(Analyze(c, st).c.moved, z) ==> Surely(c.moved, z))
    && (forall z :: z in Facts.All(c) && Surely(c.moved, z) ==> z !in Rebound(st.loopBody))
  }

  /** No variable that only some branches moved is reassigned, and no `if` and no loop makes the checker sure of a move
      that may not have happened. */
  ghost predicate Careful(c: Ctx, st: Stmt)
    requires c.scopes != []
    decreases st, 1
  {
    match st
    case Assign(x, rhs, _) =>
      MoveRhs(c, rhs, x, true).Some? ==>
        var m := MoveRhs(c, rhs, x, true).value.moved; x in Names(m) ==> Surely(m, x)
    case Block(_, _) => CarefulBlock(c, st, false)
    case If(_, a, b) => IfSure(c, st) && Careful(c, a) && (b.Some? ==> Careful(c, b.value))
    case While(_, body) => LoopSure(c, st) && CarefulBlock(c, body, true)
    case _ => true
  }

  ghost predicate CarefulBlock(c: Ctx, st: Stmt, isLoop: bool)
    decreases st, 0
  { st.Block? ==> CarefulAll(Facts.Inside(c, isLoop), st.body) }

  ghost predicate CarefulAll(c: Ctx, ss: seq<Stmt>)
    requires c.scopes != []
    decreases ss, 0
  { ss == [] || (Careful(c, ss[0]) && (Analyze(c, ss[0]).Accepted? ==> CarefulAll(Analyze(c, ss[0]).c, ss[1..]))) }

  // ----- What holds nothing stays that way unless it is rebound -----

  ghost predicate StaysNull(r: RState, o: Out, rebound: set<string>) {
    (o.Normal? || o.Broke? || o.Continued?) ==> forall x :: x !in rebound && !Holds(r, x) ==> !Holds(o.r, x)
  }

  lemma {:induction false} NullStays(st: Stmt, r: RState, ch: seq<bool>)
    ensures StaysNull(r, Exec(st, r, ch), Rebound(st))
    decreases |ch|, st, 1
  {
    match st
    case Let(_, _, _) =>
    case Assign(_, _, _) =>
    case Borrow(_) =>
    case Consume(_, _) =>
    case Block(ss, note) =>
      NullStaysAll(ss, r, ch);
      var o := ExecAll(ss, r, ch);
      if o.Normal? { ReleaseKeepsVars(o.r, note.releases); }
    case If(cond, a, b) =>
      if ch != [] {
        if ch[0] { NullStays(a, r, ch[1..]); } else if b.Some? { NullStays(b.value, r, ch[1..]); }
      }
    case While(cond, body) => NullStaysLoop(st, r, ch);
    case Break(note) => ReleaseKeepsVars(r, note.releases);
    case Continue(note) => ReleaseKeepsVars(r, note.releases);
    case Return(_, _) =>
  }

  lemma {:induction false} NullStaysLoop(st: Stmt, r: RState, ch: seq<bool>)
    requires st.While?
    ensures StaysNull(r, Exec(st, r, ch), Rebound(st))
    decreases |ch|, st, 0
  {
    if ch != [] && ch[0] && CondRuns(r, st.cond) {
      NullStays(st.loopBody, r, ch[1..]);
      var o := Exec(st.loopBody, r, ch[1..]);
      if o.Normal? || o.Continued? {
        NullStaysLoop(st, o.r, o.ch);
        NullChain(r, o.r, Exec(st, o.r, o.ch), Rebound(st));
      }
    }
  }

  lemma NullChain(r: RState, q: RState, o: Out, rebound: set<string>)
    requires forall x :: x !in rebound && !Holds(r, x) ==> !Holds(q, x)
    requires StaysNull(q, o, rebound)
    ensures StaysNull(r, o, rebound)
  {}

  lemma {:induction false} NullStaysAll(ss: seq<Stmt>, r: RState, ch: seq<bool>)
    ensures StaysNull(r, ExecAll(ss, r, ch), ReboundAll(ss))
    decreases |ch|, ss, 0
  {
    if ss != [] {
      NullStays(ss[0], r, ch);
      var o := Exec(ss[0], r, ch);
      if o.Normal? { NullStaysAll(ss[1..], o.r, o.ch); }
    }
  }

  /** The annotations change nothing about what is rebound. */
  lemma {:induction false} ReboundSame(c: Ctx, st: Stmt)
    requires c.scopes != [] && Analyze(c, st).Accepted?
    ensures Rebound(Analyze(c, st).st) == Rebound(st)
    decreases st, 1
  {
    hide Move;
    hide Merge;
    hide Pending;
    hide CondAllowed;
    hide EndsInJump;
    match st
    case Block(_, _) => ReboundSameBlock(c, st, false);
    case While(_, body) => ReboundSameBlock(c, body, true);
    case If(_, a, b) =>
      assert Analyze(c, st) == AnalyzeIf(c, st);
      ReboundSame(c, a);
      if b.Some? { ReboundSame(c, b.value); }
    case Let(_, _, _) =>
    case Assign(_, _, _) =>
    case Borrow(_) =>
    case Consume(_, _) =>
    case Break(_) =>
    case Continue(_) =>
    case Return(_, _) =>
  }

  lemma {:induction false} ReboundSameBlock(c: Ctx, st: Stmt, isLoop: bool)
    requires st.Block? && AnalyzeBlock(Release.LoopCtx(c, isLoop), st, isLoop).Accepted?
    ensures Rebound(AnalyzeBlock(Release.LoopCtx(c, isLoop), st, isLoop).st) == Rebound(st)
    decreases st, 0
  {
    hide AnalyzeAll;
    ReboundSameAll(Facts.Inside(c, isLoop), st.body);
  }

  lemma {:induction false} ReboundSameAll(c: Ctx, ss: seq<Stmt>)
    requires c.scopes != [] && AnalyzeAll(c, ss).AcceptedAll?
    ensures ReboundAll(AnalyzeAll(c, ss).ss) == ReboundAll(ss)
    decreases ss, 0
  {
    hide Analyze;
    if ss != [] {
      ReboundSame(c, ss[0]);
      var d, s1 := Analyze(c, ss[0]).c, Analyze(c, ss[0]).st;
      ReboundSameAll(d, ss[1..]);
      assert ([s1] + AnalyzeAll(d, ss[1..]).ss)[1..] == AnalyzeAll(d, ss[1..]).ss;
    }
  }

  // ----- Accounting -----

  /** What the table is sure of holds nothing. */
  ghost predicate Must(r: RState, m: seq<Moved>, s: set<string>) { forall x :: x in s && Surely(m, x) ==> !Holds(r, x) }

  ghost predicate Kept(r: RState, s: set<string>, i: nat) { exists x :: x in s && x in r.vars && r.vars[x] == Some(i) }

  /** Every object made so far is logged, or held by a variable of `s`. */
  ghost predicate Full(r: RState, s: set<string>) {
    forall i: nat :: i < r.next && !Release.Logged(r, i) ==> Kept(r, s, i)
  }

  ghost predicate OutFull(o: Out, c: Ctx, m: seq<Moved>, after: set<string>) {
    match o
    case Normal(q, _) => q.vars.Keys == after && Must(q, m, after) && Full(q, after)
    case Broke(q, _) => Facts.Outside(c) <= q.vars.Keys && Full(q, Facts.Outside(c))
    case Continued(q, _) => Facts.Outside(c) <= q.vars.Keys && Full(q, Facts.Outside(c))
    case Returned(q) => Full(q, {})
    case Starved(_) => true
    case NullUse => true
  }

  ghost predicate Exact(c: Ctx, r: RState) {
    Facts.Wf(c) && r.vars.Keys == Facts.All(c) && Must(r, c.moved, Facts.All(c)) && Full(r, Facts.All(c))
  }

  lemma {:induction false} ReleaseFull(r: RState, xs: seq<string>, s: set<string>)
    requires Full(r, s)
    ensures var q := ReleaseAll(r, xs); Full(q, s - Release.Named(xs)) && q.vars == r.vars && q.next == r.next
    decreases |xs|
  {
    if xs != [] {
      var q := ReleaseVar(r, xs[0]);
      forall i: nat | i < q.next && !Release.Logged(q, i) ensures Kept(q, s - {xs[0]}, i) {
        assert !Release.Logged(r, i);
        var x :| x in s && x in r.vars && r.vars[x] == Some(i);
        assert x != xs[0];
      }
      ReleaseFull(q, xs[1..], s - {xs[0]});
      assert s - Release.Named(xs) == s - {xs[0]} - Release.Named(xs[1..]);
    } else { assert s - Release.Named(xs) == s; }
  }

  /** Leaving out variables that hold nothing. */
  lemma FullWithout(r: RState, s: set<string>, t: set<string>)
    requires Full(r, s) && forall x :: x in s && x !in t ==> !Holds(r, x)
    ensures Full(r, t)
  {
    forall i: nat | i < r.next && !Release.Logged(r, i) ensures Kept(r, t, i) {
      var x :| x in s && x in r.vars && r.vars[x] == Some(i);
    }
  }

  /** Releasing all of a list of variables but those that surely hold nothing. */
  lemma PendingFull(r: RState, m: seq<Moved>, vs: seq<OwnVar>, s: set<string>, t: set<string>)
    requires Full(r, s) && s - VarNames(vs) <= t && forall x ::
      x in s && x in VarNames(vs) && Surely(m, x) ==> !Holds(r, x)
    ensures Full(ReleaseAll(r, Pending(m, vs)), t)
  {
    var p := Pending(m, vs);
    Release.PendingFacts(m, vs);
    ReleaseFull(r, p, s);
    hide Pending;
    hide Surely;
    hide Full;
    FullWithout(ReleaseAll(r, p), s - Release.Named(p), t);
  }

  /** Storing a value: the object of the variable given away moves on, the old value is released or was gone. */
  lemma StoreFull(r: RState, s: set<string>, rhs: Rhs, x: string, assigning: bool, st: Stmt, ch: seq<bool>)
    requires r.vars.Keys == s && (assigning ==> x in s) && (!assigning ==> x !in s) && Facts.RhsScoped(rhs, s)
      && Full(r, s)
    requires (if assigning then st.Assign? else st.Let?) && st.x == x && st.rhs == rhs
    requires st.note.nulls == if rhs.New? || (assigning && rhs.y == x) then [] else [rhs.y]
    requires assigning && !st.note.releaseOld && rhs != CallOf(x) ==> !Holds(r, x)
    ensures var o := Exec(st, r, ch); o.Normal? ==> o.r.vars.Keys == s + {x} && Full(o.r, s + {x})
    ensures var o := Exec(st, r, ch); o.Normal? ==>
      (forall z :: z in s && z != x && !Holds(r, z) ==> !Holds(o.r, z))
        && (!rhs.New? && rhs.y != x ==> !Holds(o.r, rhs.y))
    ensures var o := Exec(st, r, ch); o.Normal? || o.NullUse?
  {
    var o := Exec(st, r, ch);
    if o.Normal? {
      var id := Yield(r, rhs).value.1;
      assert o.r.vars[x] == Some(id);
      forall i: nat | i < o.r.next && !Release.Logged(o.r, i) ensures Kept(o.r, s + {x}, i) {
        if i != id {
          assert i < r.next && !Release.Logged(r, i);
          var z :| z in s && z in r.vars && r.vars[z] == Some(i);
          assert z != x && (rhs.New? || z != rhs.y);
          assert o.r.vars[z] == Some(i);
        }
      }
    }
  }

  /** What the table is sure of after a right-hand side: what it was sure of, and what that gave away. */
  lemma RhsSure(c: Ctx, rhs: Rhs, x: string, assigning: bool)
    requires Facts.Wf(c) && Facts.RhsScoped(rhs, Facts.All(c)) && MoveRhs(c, rhs, x, assigning).Some?
    ensures var m := MoveRhs(c, rhs, x, assigning).value.moved;
      forall z :: Surely(m, z) ==> Surely(c.moved, z) || z in Taken(rhs, x, assigning)
  {
    if !rhs.New? && !(assigning && rhs == Var(x)) { Facts.MoveFacts(c, rhs.y, assigning && rhs.y == x); }
    hide Facts.Wf;
    hide Move;
    hide Surely;
  }

  lemma LetExact(c: Ctx, st: Stmt, r: RState, ch: seq<bool>)
    requires Entered(c, st) && st.Let? && Exact(c, r)
    ensures OutFull(Exec(Analyze(c, st).st, r, ch), c, Analyze(c, st).c.moved, Facts.After(Facts.All(c), st))
  {
    RhsSummary(c, st.rhs, st.x, false);
    RhsSure(c, st.rhs, st.x, false);
    Facts.UnmarkFacts(MoveRhs(c, st.rhs, st.x, false).value.moved, st.x);
    hide Facts.Wf;
    hide Facts.All;
    hide Facts.TableOk;
    hide MoveRhs;
    hide RhsNulls;
    hide Names;
    hide Unmark;
    hide Surely;
    hide Full;
    StoreFull(r, Facts.All(c), st.rhs, st.x, false, Analyze(c, st).st, ch);
    hide Exec;
    hide Holds;
  }

  lemma AssignExact(c: Ctx, st: Stmt, r: RState, ch: seq<bool>)
    requires Entered(c, st) && st.Assign? && Exact(c, r) && Careful(c, st)
    ensures OutFull(Exec(Analyze(c, st).st, r, ch), c, Analyze(c, st).c.moved, Facts.All(c))
  {
    var m := MoveRhs(c, st.rhs, st.x, true).value.moved;
    RhsSummary(c, st.rhs, st.x, true);
    RhsSure(c, st.rhs, st.x, true);
    Facts.LookupIs(c, st.x);
    Facts.UnmarkFacts(m, st.x);
    hide Facts.Wf;
    hide Facts.All;
    hide Facts.TableOk;
    hide MoveRhs;
    hide RhsNulls;
    hide Names;
    hide Unmark;
    hide Surely;
    hide Full;
    hide Lookup;
    var t := Analyze(c, st).st;
    assert t.note.releaseOld <==> st.x !in Names(m);
    if !t.note.releaseOld && st.rhs != CallOf(st.x) {
      assert Surely(m, st.x);
      assert st.x in Taken(st.rhs, st.x, true) ==> false;
    }
    StoreFull(r, Facts.All(c), st.rhs, st.x, true, t, ch);
    assert Facts.All(c) + {st.x} == Facts.All(c);
    hide Exec;
    hide Holds;
  }

  lemma HandFull(r: RState, s: set<string>, y: string)
    requires Full(r, s) && y in s && Holds(r, y)
    ensures Full(r.(handed := r.handed + [r.vars[y].value]), s - {y})
  {
    var q := r.(handed := r.handed + [r.vars[y].value]);
    forall i: nat | i < q.next && !Release.Logged(q, i) ensures Kept(q, s - {y}, i) {
      assert !Release.Logged(r, i);
      var x :| x in s && x in r.vars && r.vars[x] == Some(i);
    }
  }

  lemma NullFull(r: RState, s: set<string>, y: string)
    requires Full(r, s - {y})
    ensures Full(NullAll(r, [y]), s)
  {
    var q := NullAll(r, [y]);
    forall i: nat | i < q.next && !Release.Logged(q, i) ensures Kept(q, s, i) {
      assert !Release.Logged(r, i);
      var x :| x in s - {y} && x in r.vars && r.vars[x] == Some(i);
      assert q.vars[x] == Some(i);
    }
  }

  lemma ConsumeExact(c: Ctx, st: Stmt, r: RState, ch: seq<bool>)
    requires Entered(c, st) && st.Consume? && Exact(c, r)
    ensures OutFull(Exec(Analyze(c, st).st, r, ch), c, Analyze(c, st).c.moved, Facts.All(c))
  {
    Facts.LookupIs(c, st.y);
    Facts.MoveFacts(c, st.y, false);
    hide Facts.Wf;
    hide Facts.All;
    hide Facts.TableOk;
    hide Move;
    hide Names;
    hide Surely;
    hide Full;
    hide Exec;
    hide Holds;
    ConsumeFull(r, Facts.All(c), st.y, ch);
  }

  lemma ConsumeFull(r: RState, s: set<string>, y: string, ch: seq<bool>)
    requires r.vars.Keys == s && Full(r, s) && y in s
    ensures var o := Exec(Consume(y, Note([], [y], false)), r, ch); o.Normal? || o.NullUse?
    ensures var o := Exec(Consume(y, Note([], [y], false)), r, ch); o.Normal? ==>
      o.r.vars.Keys == s && Full(o.r, s) && !Holds(o.r, y) && forall z :: z in s && !Holds(r, z) ==> !Holds(o.r, z)
  {
    hide Full;
    if Holds(r, y) {
      HandFull(r, s, y);
      NullFull(r.(handed := r.handed + [r.vars[y].value]), s, y);
    }
  }

  lemma JumpExact(c: Ctx, st: Stmt, r: RState, ch: seq<bool>)
    requires Entered(c, st) && (st.Break? || st.Continue?) && Exact(c, r)
    ensures OutFull(Exec(Analyze(c, st).st, r, ch), c, Analyze(c, st).c.moved, Facts.All(c))
  {
    Release.WalkOutside(c);
    Release.OutsideIn(c);
    hide Facts.Wf;
    hide Facts.All;
    hide Facts.Outside;
    hide Names;
    hide Pending;
    hide Walk;
    hide VarNames;
    hide Surely;
    hide Full;
    ReleaseKeepsVars(r, Pending(c.moved, Walk(c.scopes, false)));
    PendingFull(r, c.moved, Walk(c.scopes, false), Facts.All(c), Facts.Outside(c));
  }

  /** Handing over the result and releasing the rest leaves nothing. */
  lemma ReturnFull(r: RState, m: seq<Moved>, vs: seq<OwnVar>, s: set<string>, value: Option<string>)
    requires Full(r, s) && s == VarNames(vs) && (value.Some? ==> value.value in s && Holds(r, value.value))
    requires forall x :: x in s && Some(x) != value && Surely(m, x) ==> !Holds(r, x)
    ensures var q := if value.Some? then r.(handed := r.handed + [r.vars[value.value].value]) else r;
      Full(ReleaseAll(q, Pending(m, vs)), {})
  {
    hide Pending;
    hide Surely;
    hide VarNames;
    hide Full;
    if value.None? { PendingFull(r, m, vs, s, {}); }
    else {
      HandFull(r, s, value.value);
      PendingFull(r.(handed := r.handed + [r.vars[value.value].value]), m, vs, s - {value.value}, {});
    }
  }

  lemma ReturnExact(c: Ctx, st: Stmt, r: RState, ch: seq<bool>)
    requires Entered(c, st) && st.Return? && Exact(c, r)
    ensures OutFull(Exec(Analyze(c, st).st, r, ch), c, Analyze(c, st).c.moved, Facts.All(c))
  {
    Release.WalkOutside(c);
    if st.value.Some? { Facts.MoveFacts(c, st.value.value, true); }
    hide Facts.Wf;
    hide Facts.All;
    hide Facts.TableOk;
    hide Move;
    hide Names;
    hide Pending;
    hide Walk;
    hide VarNames;
    hide Surely;
    hide Full;
    hide ReleaseAll;
    if st.value.None? || Holds(r, st.value.value) {
      ReturnFull(r, Analyze(c, st).c.moved, Walk(c.scopes, true), Facts.All(c), st.value);
    }
  }

  // ----- Every run -----

  lemma {:induction false} StmtExact(c: Ctx, st: Stmt, r: RState, ch: seq<bool>)
    requires Entered(c, st) && Exact(c, r) && Careful(c, st)
    ensures OutFull(Exec(Analyze(c, st).st, r, ch), c, Analyze(c, st).c.moved, Facts.After(Facts.All(c), st))
    decreases |ch|, st, 2
  {
    hide Exact;
    hide Facts.Wf;
    hide Facts.All;
    hide Facts.Outside;
    match st
    case Let(_, _, _) => LetExact(c, st, r, ch);
    case Assign(_, _, _) => AssignExact(c, st, r, ch);
    case Borrow(_) => BorrowExact(c, r);
    case Consume(_, _) => ConsumeExact(c, st, r, ch);
    case Block(_, _) => BlockExact(c, st, false, r, ch);
    case If(_, _, _) => IfExact(c, st, r, ch);
    case While(_, _) => WhileExact(c, st, r, ch);
    case Break(_) => JumpExact(c, st, r, ch);
    case Continue(_) => JumpExact(c, st, r, ch);
    case Return(_, _) => ReturnExact(c, st, r, ch);
  }

  lemma BorrowExact(c: Ctx, r: RState)
    requires Exact(c, r)
    ensures r.vars.Keys == Facts.All(c) && Must(r, c.moved, Facts.All(c)) && Full(r, Facts.All(c))
  {}

  lemma {:induction false} AllExact(c: Ctx, ss: seq<Stmt>, r: RState, ch: seq<bool>)
    requires Facts.ScopedAll(ss, Facts.All(c)) && Exact(c, r) && AnalyzeAll(c, ss).AcceptedAll?
    requires CarefulAll(c, ss)
    ensures OutFull(ExecAll(AnalyzeAll(c, ss).ss, r, ch), c, AnalyzeAll(c, ss).c.moved, Facts.All(AnalyzeAll(c, ss).c))
    decreases |ch|, ss, 0
  {
    hide Facts.Wf;
    hide Facts.All;
    hide Facts.Outside;
    hide Exec;
    hide Analyze;
    hide Careful;
    hide Must;
    hide Full;
    if ss != [] {
      var d, s1 := Analyze(c, ss[0]).c, Analyze(c, ss[0]).st;
      Facts.KeptStmt(c, ss[0]);
      StmtExact(c, ss[0], r, ch);
      assert Facts.After(Facts.All(c), ss[0]) == Facts.All(c) + Facts.Declared(ss[0]);
      assert ([s1] + AnalyzeAll(d, ss[1..]).ss)[1..] == AnalyzeAll(d, ss[1..]).ss;
      var o := Exec(s1, r, ch);
      if o.Normal? { AllExact(d, ss[1..], o.r, o.ch); }
    }
  }

  lemma LeaveFull(o: Out, inner: Ctx, m: seq<Moved>, own: seq<OwnVar>, s: set<string>)
    requires OutFull(o, inner, m, s + VarNames(own)) && VarNames(own) !! s && Facts.Outside(inner) <= s
    ensures var e := Leave(if o.Normal? then Normal(ReleaseAll(o.r, Pending(m, own)), o.ch) else o, s);
      OutFull(e, inner, m, s)
  {
    hide Pending;
    hide Surely;
    hide VarNames;
    hide Facts.Outside;
    if o.Normal? {
      PendingFull(o.r, m, own, s + VarNames(own), s);
      ReleaseKeepsVars(o.r, Pending(m, own));
      RestrictFull(ReleaseAll(o.r, Pending(m, own)), s, s);
    } else if o.Broke? || o.Continued? {
      RestrictFull(o.r, Facts.Outside(inner), s);
    }
  }

  lemma RestrictFull(r: RState, s: set<string>, keys: set<string>)
    requires Full(r, s) && s <= keys && s <= r.vars.Keys
    ensures Full(Restrict(r, keys), s) && s <= Restrict(r, keys).vars.Keys <= keys
  {
    var q := Restrict(r, keys);
    forall i: nat | i < q.next && !Release.Logged(q, i) ensures Kept(q, s, i) {
      assert !Release.Logged(r, i);
      var x :| x in s && x in r.vars && r.vars[x] == Some(i);
      assert x in q.vars && q.vars[x] == Some(i);
    }
  }

  lemma SameOutside(o: Out, c: Ctx, d: Ctx, m: seq<Moved>, s: set<string>)
    requires OutFull(o, c, m, s) && Facts.Outside(c) == Facts.Outside(d)
    ensures OutFull(o, d, m, s)
  {
    hide Must;
    hide Full;
  }

  lemma InsideExact(c: Ctx, isLoop: bool, r: RState)
    requires Exact(c, r)
    ensures Exact(Facts.Inside(c, isLoop), r) && r.vars.Keys == Facts.All(c)
  {
    Release.InsideOutside(c, isLoop);
    hide Facts.Wf;
    hide Facts.All;
    hide Full;
    hide Surely;
  }

  lemma BlockEntry(c: Ctx, st: Stmt, isLoop: bool, r: RState)
    requires Facts.Scoped(st, Facts.All(c)) && st.Block? && Exact(c, r)
      && AnalyzeBlock(Release.LoopCtx(c, isLoop), st, isLoop).Accepted?
    requires CarefulBlock(c, st, isLoop)
    ensures var inner := Facts.Inside(c, isLoop);
      && inner.scopes != [] && Facts.Wf(c) && Facts.Wf(inner) && r.vars.Keys == Facts.All(c)
        && Facts.Outside(inner) <= Facts.All(c)
      && Facts.ScopedAll(st.body, Facts.All(inner)) && Exact(inner, r)
      && AnalyzeAll(inner, st.body).AcceptedAll? && CarefulAll(inner, st.body)
      && (!isLoop ==> Facts.Outside(inner) == Facts.Outside(c))
  {
    Release.InsideOutside(c, isLoop);
    Release.OutsideIn(c);
    InsideExact(c, isLoop, r);
    hide Facts.Wf;
    hide Facts.All;
    hide Facts.Outside;
    hide AnalyzeAll;
    hide CarefulAll;
    hide Facts.ScopedAll;
    hide Must;
    hide Full;
  }

  lemma {:induction false} BlockExact(c: Ctx, st: Stmt, isLoop: bool, r: RState, ch: seq<bool>)
    requires Facts.Scoped(st, Facts.All(c)) && st.Block? && Exact(c, r)
      && AnalyzeBlock(Release.LoopCtx(c, isLoop), st, isLoop).Accepted?
    requires CarefulBlock(c, st, isLoop)
    ensures var v := AnalyzeBlock(Release.LoopCtx(c, isLoop), st, isLoop); var o := Exec(v.st, r, ch);
      && OutFull(o, Facts.Inside(c, isLoop), v.c.moved, Facts.All(c))
      && (!isLoop ==> OutFull(o, c, v.c.moved, Facts.All(c)))
    decreases |ch|, st, 1
  {
    hide *;
    var inner := Facts.Inside(c, isLoop);
    BlockEntry(c, st, isLoop, r);
    Release.BlockRuns(c, st, isLoop, r, ch);
    AllExact(inner, st.body, r, ch);
    var declared := Facts.KeptAll(inner, st.body);
    var last := AnalyzeAll(inner, st.body).c;
    Release.BlockNames(c, isLoop, last, declared);
    var own := last.scopes[|c.scopes|].vars;
    ClosingIs(last, |c.scopes|);
    LeaveFull(ExecAll(AnalyzeAll(inner, st.body).ss, r, ch), inner, last.moved, own, Facts.All(c));
    var o := Exec(AnalyzeBlock(Release.LoopCtx(c, isLoop), st, isLoop).st, r, ch);
    if !isLoop { SameOutside(o, inner, c, last.moved, Facts.All(c)); }
  }

  lemma ClosingIs(c: Ctx, n: nat)
    requires |c.scopes| == n + 1
    ensures Closing(c) == Pending(c.moved, c.scopes[n].vars)
  {}

  lemma SureAfter(o: Out, c: Ctx, m: seq<Moved>, merged: seq<Moved>, s: set<string>)
    requires OutFull(o, c, m, s) && (o.Normal? ==> forall z :: z in s && Surely(merged, z) ==> Surely(m, z))
    ensures OutFull(o, c, merged, s)
  { hide Surely; }

  lemma IfParts(c: Ctx, st: Stmt)
    requires Entered(c, st) && st.If?
    ensures Entered(c, st.thenB) && (st.elseB.Some? ==> Entered(c, st.elseB.value))
  {
    assert Analyze(c, st) == AnalyzeIf(c, st);
    hide Facts.Wf;
    hide Facts.All;
    hide Merge;
    hide EndsInJump;
    hide CondAllowed;
  }

  lemma {:induction false} IfExact(c: Ctx, st: Stmt, r: RState, ch: seq<bool>)
    requires Entered(c, st) && st.If? && Exact(c, r) && Careful(c, st)
    ensures OutFull(Exec(Analyze(c, st).st, r, ch), c, Analyze(c, st).c.moved, Facts.All(c))
    decreases |ch|, st, 1
  {
    hide Facts.Wf;
    hide Facts.All;
    hide Facts.Outside;
    hide Merge;
    hide Names;
    hide CondAllowed;
    hide CondRuns;
    hide EndsInJump;
    hide Must;
    hide Full;
    hide Surely;
    IfParts(c, st);
    var d := Analyze(c, st).c.moved;
    if ch != [] && CondRuns(r, st.cond) {
      var rest := ch[1..];
      if ch[0] {
        StmtExact(c, st.thenB, r, rest);
        if EndsInJump(st.thenB) { EndedNotNormal(c, st.thenB, r, rest); }
        SureAfter(Exec(Analyze(c, st.thenB).st, r, rest), c, Analyze(c, st.thenB).c.moved, d, Facts.All(c));
      } else if st.elseB.Some? {
        StmtExact(c, st.elseB.value, r, rest);
        if EndsInJump(st.elseB.value) { EndedNotNormal(c, st.elseB.value, r, rest); }
        SureAfter(Exec(Analyze(c, st.elseB.value).st, r, rest), c, Analyze(c, st.elseB.value).c.moved, d, Facts.All(c));
      } else {
        BorrowExact(c, r);
        SureAfter(Normal(r, rest), c, c.moved, d, Facts.All(c));
      }
    }
  }

  /** One round of a loop keeps the accounts, and revives nothing the table is sure of. */
  lemma LoopExact(c: Ctx, st: Stmt, r: RState, o: Out, m: seq<Moved>)
    requires Exact(c, r) && st.While? && forall z ::
      z in Facts.All(c) && Surely(c.moved, z) ==> z !in Rebound(st.loopBody)
    requires OutFull(o, Facts.Inside(c, true), m, Facts.All(c)) && StaysNull(r, o, Rebound(st.loopBody))
    requires (o.Broke? || o.Continued?) ==> o.r.vars.Keys == Facts.All(c)
    ensures o.Normal? || o.Broke? || o.Continued? ==> Exact(c, o.r)
  {
    Release.InsideOutside(c, true);
    hide Facts.Wf;
    hide Names;
    hide Surely;
    hide Facts.Inside;
  }

  lemma {:induction false} WhileExact(c: Ctx, st: Stmt, r: RState, ch: seq<bool>)
    requires Entered(c, st) && st.While? && Exact(c, r) && Careful(c, st)
    ensures OutFull(Exec(Analyze(c, st).st, r, ch), c, Analyze(c, st).c.moved, Facts.All(c))
    decreases |ch|, st, 1
  {
    hide Facts.Wf;
    hide Facts.All;
    hide Facts.Outside;
    hide AnalyzeBlock;
    hide CondAllowed;
    hide CondRuns;
    hide Must;
    hide Full;
    hide Names;
    hide Surely;
    hide StaysNull;
    var v := AnalyzeBlock(Release.LoopCtx(c, true), st.loopBody, true);
    if ch != [] && CondRuns(r, st.cond) {
      var rest := ch[1..];
      if !ch[0] { ExitExact(c, r, v.c.moved); }
      else {
        BlockExact(c, st.loopBody, true, r, rest);
        BlockKeys(c, st.loopBody, r, rest);
        ReboundSameBlock(c, st.loopBody, true);
        NullStays(v.st, r, rest);
        var o := Exec(v.st, r, rest);
        LoopExact(c, st, r, o, v.c.moved);
        if o.Normal? || o.Continued? { WhileExact(c, st, o.r, o.ch); }
        else if o.Broke? { ExitExact(c, o.r, v.c.moved); }
      }
    }
  }

  lemma ExitExact(c: Ctx, r: RState, m: seq<Moved>)
    requires Exact(c, r) && forall z :: z in Facts.All(c) && Surely(m, z) ==> Surely(c.moved, z)
    ensures r.vars.Keys == Facts.All(c) && Must(r, m, Facts.All(c)) && Full(r, Facts.All(c))
  { hide Surely; }

  lemma BlockKeys(c: Ctx, st: Stmt, r: RState, ch: seq<bool>)
    requires Facts.Wf(c) && st.Block? && Facts.Scoped(st, Facts.All(c))
      && AnalyzeBlock(Release.LoopCtx(c, true), st, true).Accepted?
    requires r.vars.Keys == Facts.All(c)
    requires OutFull(Exec(AnalyzeBlock(Release.LoopCtx(c, true), st, true).st, r, ch), Facts.Inside(c, true),
      AnalyzeBlock(Release.LoopCtx(c, true), st, true).c.moved, Facts.All(c))
    ensures var o := Exec(AnalyzeBlock(Release.LoopCtx(c, true), st, true).st, r, ch);
      (o.Broke? || o.Continued?) ==> o.r.vars.Keys == Facts.All(c)
  {
    Release.InsideOutside(c, true);
    hide Facts.Wf;
    hide Facts.All;
    hide AnalyzeAll;
    hide ExecAll;
    hide Must;
    hide Full;
    hide Facts.Inside;
  }

  /** Under the same discipline, and where the checker is not made sure of moves that may not have happened, every
      object a finished call made or was given has been released or handed over, and not both, and not twice. */
  lemma ExactlyOnce(f: Function, ch: seq<bool>)
    requires Release.WellScoped(f) && Check(f).AcceptedAll?
    requires DisciplinedAll(Start(f.params), f.body) && CarefulAll(Start(f.params), f.body)
    ensures var o := Call(f.params, Check(f).ss, Closing(Check(f).c), ch);
      && (o.Returned? || o.Starved?)
      && (o.Returned? ==> Release.LogOk(o.r) && forall i: nat :: i < o.r.next <==> Release.Logged(o.r, i))
  {
    var c := Start(f.params);
    Release.StartFacts(f.params);
    Release.EntrySane(f.params);
    StartExact(f.params);
    NoUseAfterMove(f, ch);
    Release.NoDoubleRelease(f, ch);
    hide Facts.Wf;
    hide Facts.All;
    hide AnalyzeAll;
    hide ExecAll;
    hide Entry;
    hide Pending;
    hide Release.Sane;
    hide DisciplinedAll;
    hide CarefulAll;
    AllExact(c, f.body, Entry(f.params), ch);
    var last := AnalyzeAll(c, f.body).c;
    var declared := Facts.KeptAll(c, f.body);
    Release.OnlyScope(last);
    var o := ExecAll(AnalyzeAll(c, f.body).ss, Entry(f.params), ch);
    hide Release.LogOk;
    hide Release.Logged;
    hide Full;
    hide Must;
    hide ReleaseAll;
    hide Surely;
    if o.Normal? { PendingFull(o.r, last.moved, last.scopes[0].vars, Facts.All(last), {}); }
    var whole := Call(f.params, Check(f).ss, Closing(Check(f).c), ch);
    if whole.Returned? { Accounted(whole.r); }
  }

  lemma Accounted(r: RState)
    requires Release.LogOk(r) && Full(r, {})
    ensures forall i: nat :: i < r.next <==> Release.Logged(r, i)
  {}

  lemma StartExact(params: seq<string>)
    requires NoDup(params)
    ensures Exact(Start(params), Entry(params))
  {
    Release.StartFacts(params);
    Release.EntrySane(params);
    var r := Entry(params);
    forall i: nat | i < r.next && !Release.Logged(r, i) ensures Kept(r, Release.Named(params), i) {
      var x :| x in Release.Named(params) && r.vars[x] == Some(i);
    }
  }
}
