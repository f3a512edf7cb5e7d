// The checker as it works: one mutable scope stack and moved table, updated during the traversal.

module OwnershipChecker {
  import opened Options
  import opened Ownership

  lemma {:induction false} FindConcat(a: seq<OwnVar>, b: seq<OwnVar>, x: string)
    ensures FindVar(a + b, x) == if FindVar(a, x).Some? then FindVar(a, x) else FindVar(b, x)
  {
    if a == [] { assert a + b == b; }
    else {
      assert (a + b)[1..] == a[1..] + b;
      FindConcat(a[1..], b, x);
    }
  }

  lemma WalkStep(scopes: seq<Scope>, i: nat, all: bool)
    requires i < |scopes|
    ensures Walk(scopes[..i+1], all) == scopes[i].vars + (if scopes[i].isLoop && !all
      then []
      else Walk(scopes[..i], all))
  { assert scopes[..i+1][..i] == scopes[..i]; }

  lemma Regroup(a: seq<OwnVar>, b: seq<OwnVar>, c: seq<OwnVar>)
    ensures a + (b + c) == a + b + c && a + b + [] == a + b
  {}

  lemma WalkNothing(all: bool)
    ensures Walk([], all) == []
  {}

  /** Branches are blocks or `else if` chains, loop bodies blocks, as the parser builds them. */
  predicate Shaped(st: Stmt)
    decreases st
  {
    match st
    case Block(ss, _) => forall i :: 0 <= i < |ss| ==> Shaped(ss[i])
    case If(_, a, b) => a.Block? && Shaped(a) && (b.Some? ==> (b.value.Block? || b.value.If?) && Shaped(b.value))
    case While(_, body) => body.Block? && Shaped(body)
    case _ => true
  }

  /** What an analysis leaves behind: nothing is promised once it has rejected. */
  ghost predicate Follows(v: Verdict, ok: bool, c: Ctx, out: Stmt) {
    match v case Rejected => !ok case Accepted(d, st) => ok && c == d && out == st
  }

  ghost predicate FollowsMove(v: Option<Ctx>, ok: bool, c: Ctx) {
    match v case None => !ok case Some(d) => ok && c == d
  }

  class OwnChecker {
    var moved: seq<Moved>
    var scopes: seq<Scope>
    var loopDepth: nat

    function State(): Ctx
      reads this
    { Ctx(moved, scopes, loopDepth) }

    constructor (params: seq<string>)
      ensures State() == Start(params)
    {
      moved, loopDepth := [], 0;
      scopes := [Scope(seq(|params|, i requires 0 <= i < |params| => OwnVar(params[i], 0)), false)];
    }

    /** `find_own_var`: innermost scope first. */
    method FindOwnVar(x: string) returns (v: Option<OwnVar>)
      ensures v == Lookup(State(), x)
    {
      var i := |scopes|;
      assert scopes[..i] == scopes;
      while i > 0
        invariant i <= |scopes| && FindVar(Walk(scopes[..i], true), x) == Lookup(State(), x)
      {
        i := i - 1;
        WalkStep(scopes, i, true);
        FindConcat(scopes[i].vars, Walk(scopes[..i], true), x);
        var vs := scopes[i].vars;
        for j := 0 to |vs|
          invariant FindVar(vs, x) == FindVar(vs[j..], x)
        {
          if vs[j].name == x { return Some(vs[j]); }
        }
      }
      return None;
    }

    /** `find_moved_var`, as a position. */
    method FindMoved(x: string) returns (i: nat)
      ensures i == IndexOf(moved, x)
    {
      i := 0;
      while i < |moved| && moved[i].name != x
        invariant i <= |moved| && forall k :: 0 <= k < i ==> moved[k].name != x
      { i := i + 1; }
      assert IndexOf(moved, x) == i by {
        var k := IndexOf(moved, x);
        assert k < |moved| ==> moved[k].name == x;
      }
    }

    method MarkMoved(x: string, maybe: bool)
      modifies `moved
      ensures moved == Mark(old(moved), x, maybe)
    {
      var i := FindMoved(x);
      if i < |moved| {
        if maybe { moved := moved[i := Moved(x, true)]; }
      } else {
        moved := moved + [Moved(x, maybe)];
      }
    }

    method UnmarkMoved(x: string)
      modifies `moved
      ensures moved == Unmark(old(moved), x)
    {
      var i := FindMoved(x);
      if i < |moved| { moved := moved[i := moved[|moved|-1]][..|moved|-1]; }
    }

    method CheckUse(y: string) returns (ok: bool)
      ensures ok <==> UseAllowed(State(), y)
    {
      var v := FindOwnVar(y);
      var i := FindMoved(y);
      return v.None? || i == |moved|;
    }

    method MoveVar(y: string, exempt: bool) returns (ok: bool)
      modifies `moved
      ensures FollowsMove(Move(old(State()), y, exempt), ok, State())
    {
      var v := FindOwnVar(y);
      if v.None? { return true; }
      var i := FindMoved(y);
      if i < |moved| { return false; }
      if !exempt && loopDepth > 0 && v.value.declDepth < loopDepth { return false; }
      MarkMoved(y, false);
      return true;
    }

    method MoveValue(rhs: Rhs, x: string, assigning: bool) returns (ok: bool)
      modifies `moved
      ensures FollowsMove(MoveRhs(old(State()), rhs, x, assigning), ok, State())
    {
      match rhs
      case New => return true;
      case Var(y) =>
        if assigning && y == x { ok := CheckUse(y); }
        else { ok := MoveVar(y, false); }
      case CallOf(y) => ok := MoveVar(y, assigning && y == x);
    }

    method NullsOf(rhs: Rhs, x: string, assigning: bool) returns (nulls: seq<string>)
      ensures nulls == RhsNulls(State(), rhs, x, assigning)
    {
      if rhs.New? || (assigning && rhs.y == x) { return []; }
      var v := FindOwnVar(rhs.y);
      return if v.Some? then [rhs.y] else [];
    }

    method CheckCond(cond: seq<CondUse>) returns (ok: bool)
      ensures ok <==> CondAllowed(State(), cond)
    {
      for k := 0 to |cond|
        invariant forall j ::
          0 <= j < k ==> UseAllowed(State(), cond[j].y) && (cond[j].Takes? ==> Lookup(State(), cond[j].y).None?)
      {
        var fine := CheckUse(cond[k].y);
        if !fine { return false; }
        var v := FindOwnVar(cond[k].y);
        if cond[k].Takes? && v.Some? { return false; }
      }
      return true;
    }

    /** The variables of a scope that are still owned. */
    method CollectFrom(vs: seq<OwnVar>) returns (releases: seq<string>)
      ensures releases == Pending(moved, vs)
    {
      releases := [];
      for k := 0 to |vs|
        invariant releases == Pending(moved, vs[..k])
      {
        assert vs[..k+1][..k] == vs[..k];
        var x := vs[k].name;
        var i := FindMoved(x);
        if !(i < |moved| && !moved[i].maybe) && x !in releases { releases := releases + [x]; }
      }
      assert vs[..|vs|] == vs;
    }

    /** The scope walk of `break`, `continue` and `return`. */
    method WalkScopes(all: bool) returns (vs: seq<OwnVar>)
      ensures vs == Walk(scopes, all)
    {
      hide Walk;
      vs := [];
      var i := |scopes|;
      assert scopes[..i] == scopes && [] + Walk(scopes, all) == Walk(scopes, all);
      while i > 0
        invariant i <= |scopes| && vs + Walk(scopes[..i], all) == Walk(scopes, all)
      {
        i := i - 1;
        WalkStep(scopes, i, all);
        ghost var rest := if scopes[i].isLoop && !all then [] else Walk(scopes[..i], all);
        Regroup(vs, scopes[i].vars, rest);
        vs := vs + scopes[i].vars;
        if scopes[i].isLoop && !all { return; }
      }
      WalkNothing(all);
    }

    method Remember(adds: seq<Moved>) returns (ok: bool)
      modifies `moved
      ensures match Remark(old(State()), old(moved), adds) case None => !ok case Some(m) => ok && moved == m
    {
      ghost var c, m := State(), moved;
      for k := 0 to |adds|
        invariant Remark(c, moved, adds[k..]) == Remark(c, m, adds)
        invariant State() == c.(moved := moved)
      {
        assert adds[k..][0] == adds[k] && adds[k..][1..] == adds[k+1..];
        var a := adds[k];
        var v := FindOwnVar(a.name);
        if v.Some? {
          if !a.maybe && loopDepth > 0 && v.value.declDepth < loopDepth { return false; }
          MarkMoved(a.name, a.maybe);
        }
      }
      assert adds[|adds|..] == [];
      return true;
    }

    /** The merge after an `if`, with `moved` restored to what it was before the branches. */
    method MergeBranches(thenM: seq<Moved>, elseM: seq<Moved>, thenEnds: bool, elseEnds: bool,
        hasElse: bool) returns (ok: bool)
      modifies `moved
      ensures FollowsMerge(Merge(old(State()), thenM, elseM, thenEnds, elseEnds, hasElse), ok, moved)
    {
      var n := |moved|;
      if thenEnds && elseEnds { return true; }
      if thenEnds { moved := elseM; return true; }
      if elseEnds { moved := thenM; return true; }
      if !hasElse { ok := Remember(AllMaybe(Tail(thenM, n))); return; }
      ghost var c := State();
      ok := Remember(Both(Tail(thenM, n), Tail(elseM, n)));
      if !ok { return; }
      ghost var m := moved;
      SameRemark(c, c.(moved := m), m, AllMaybe(Without(Tail(elseM, n), Names(Tail(thenM, n)))));
      ok := Remember(AllMaybe(Without(Tail(elseM, n), Names(Tail(thenM, n)))));
    }

    method Stmt(st: Stmt) returns (ok: bool, out: Stmt)
      requires scopes != [] && Shaped(st)
      modifies this
      ensures Follows(Analyze(old(State()), st), ok, State(), out)
      decreases st, 1
    {
      ok, out := true, st;
      match st
      case Let(x, rhs, _) =>
        var nulls := NullsOf(rhs, x, false);
        ok := MoveValue(rhs, x, false);
        if ok {
          UnmarkMoved(x);
          var n := |scopes| - 1;
          scopes := scopes[n := scopes[n].(vars := scopes[n].vars + [OwnVar(x, loopDepth)])];
          out := Let(x, rhs, Note([], nulls, false));
        }
      case Assign(x, rhs, _) =>
        var nulls := NullsOf(rhs, x, true);
        ok := MoveValue(rhs, x, true);
        if ok {
          var v := FindOwnVar(x);
          var i := FindMoved(x);
          out := Assign(x, rhs, Note([], nulls, v.Some? && i == |moved|));
          if v.Some? { UnmarkMoved(x); }
        }
      case Borrow(y) => ok := CheckUse(y);
      case Consume(y, _) =>
        var v := FindOwnVar(y);
        ok := MoveVar(y, false);
        out := Consume(y, Note([], if v.Some? then [y] else [], false));
      case Block(_, _) => ok, out := BlockStmt(st, false);
      case If(_, _, _) => ok, out := IfStmt(st);
      case While(cond, body) =>
        loopDepth := loopDepth + 1;
        ok := CheckCond(cond);
        ok := ok && body.Block?;
        if ok {
          var b;
          ok, b := BlockStmt(body, true);
          if ok { loopDepth := loopDepth - 1; }
          out := While(cond, b);
        }
      case Break(_) =>
        var vs := WalkScopes(false);
        var releases := CollectFrom(vs);
        ok, out := loopDepth > 0, Break(Note(releases, [], false));
      case Continue(_) =>
        var vs := WalkScopes(false);
        var releases := CollectFrom(vs);
        ok, out := loopDepth > 0, Continue(Note(releases, [], false));
      case Return(value, _) =>
        if value.Some? { ok := MoveVar(value.value, true); }
        var vs := WalkScopes(true);
        var releases := CollectFrom(vs);
        out := Return(value, Note(releases, [], false));
    }

    method IfStmt(st: Stmt) returns (ok: bool, out: Stmt)
      requires scopes != [] && st.If? && Shaped(st)
      modifies this
      ensures Follows(AnalyzeIf(old(State()), st), ok, State(), out)
      decreases st, 0
    {
      hide Merge;
      hide EndsInJump;
      hide CondAllowed;
      hide Analyze;
      IfUnfold(State(), st);
      out := st;
      ok := CheckCond(st.cond);
      if !ok { return; }
      var before := moved;
      var a, b := st.thenB, st.elseB;
      ok, a := Stmt(st.thenB);
      if !ok { return; }
      var thenM := moved;
      moved := before;
      if st.elseB.Some? {
        var e;
        ok, e := Stmt(st.elseB.value);
        if !ok { return; }
        b := Some(e);
      }
      var elseM := moved;
      moved := before;
      ok := MergeBranches(thenM, elseM, EndsInJump(st.thenB), st.elseB.Some?
        && EndsInJump(st.elseB.value), st.elseB.Some?);
      out := If(st.cond, a, b);
    }

    method Stmts(ss: seq<Stmt>) returns (ok: bool, outs: seq<Stmt>)
      requires scopes != [] && forall i :: 0 <= i < |ss| ==> Shaped(ss[i])
      modifies this
      ensures match AnalyzeAll(old(State()), ss)
        case RejectedAll => !ok
        case AcceptedAll(c, rest) => ok && State() == c && outs == rest
      decreases ss, 0
    {
      outs := [];
      ghost var c := State();
      for i := 0 to |ss|
        invariant scopes != []
        invariant Rest(AnalyzeAll(c, ss), AnalyzeAll(State(), ss[i..]), outs)
      {
        assert ss[i..][0] == ss[i] && ss[i..][1..] == ss[i+1..];
        ghost var was := State();
        var s1;
        ok, s1 := Stmt(ss[i]);
        if !ok { return; }
        RestStep(AnalyzeAll(c, ss), AnalyzeAll(was, ss[i..]), AnalyzeAll(State(), ss[i+1..]), outs, s1);
        outs := outs + [s1];
      }
      assert ss[|ss|..] == [] && outs + [] == outs;
      ok := true;
    }

    method BlockStmt(st: Stmt, isLoop: bool) returns (ok: bool, out: Stmt)
      requires st.Block? && Shaped(st)
      modifies this
      ensures Follows(AnalyzeBlock(old(State()), st, isLoop), ok, State(), out)
      decreases st, 0
    {
      out := st;
      if |scopes| >= MAX_SCOPES { return false, st; }
      var around, depth := scopes, loopDepth;
      scopes := scopes + [Scope([], isLoop)];
      var ss;
      ok, ss := Stmts(st.body);
      if !ok { return; }
      var releases := CollectFrom(scopes[|scopes|-1].vars);
      scopes, loopDepth := around, depth;
      out := Block(ss, Note(releases, [], false));
    }
  }

  lemma IfUnfold(c: Ctx, st: Stmt)
    requires c.scopes != [] && st.If?
    ensures var t := Analyze(c, st.thenB); var v := AnalyzeIf(c, st);
      var e := if st.elseB.None? then Accepted(c, st) else Analyze(c, st.elseB.value);
      && (!CondAllowed(c, st.cond) || t.Rejected? || e.Rejected? ==> v.Rejected?)
      && (CondAllowed(c, st.cond) && t.Accepted? && e.Accepted? ==>
        var m := Merge(c, t.c.moved, e.c.moved, EndsInJump(st.thenB), st.elseB.Some?
          && EndsInJump(st.elseB.value), st.elseB.Some?);
        v == if m.None? then Rejected
             else Accepted(c.(moved := m.value), If(st.cond, t.st, if st.elseB.None? then None else Some(e.st))))
      && (t.Accepted? && st.thenB.Block? ==> t.c.scopes == c.scopes && t.c.loopDepth == c.loopDepth)
      && (e.Accepted? && st.elseB.Some? && (st.elseB.value.Block? || st.elseB.value.If?) ==>
        e.c.scopes == c.scopes && e.c.loopDepth == c.loopDepth)
  {
    hide Merge;
    hide EndsInJump;
    hide CondAllowed;
  }

  ghost predicate FollowsMerge(v: Option<seq<Moved>>, ok: bool, m: seq<Moved>) {
    match v case None => !ok case Some(r) => ok && m == r
  }

  /** Re-marking does not look at the table it started from. */
  lemma {:induction false} SameRemark(c: Ctx, d: Ctx, m: seq<Moved>, adds: seq<Moved>)
    requires c.scopes == d.scopes && c.loopDepth == d.loopDepth
    ensures Remark(c, m, adds) == Remark(d, m, adds)
    decreases |adds|
  {
    if adds != [] {
      SameRemark(c, d, m, adds[1..]);
      SameRemark(c, d, Mark(m, adds[0].name, adds[0].maybe), adds[1..]);
    }
  }

  ghost predicate Rest(whole: Verdicts, rest: Verdicts, done: seq<Stmt>) {
    match rest
    case RejectedAll => whole.RejectedAll?
    case AcceptedAll(c, ss) => whole == AcceptedAll(c, done + ss)
  }

  lemma RestStep(whole: Verdicts, now: Verdicts, next: Verdicts, done: seq<Stmt>, s1: Stmt)
    requires Rest(whole, now, done)
    requires now == match next case RejectedAll => RejectedAll case AcceptedAll(c, rest) => AcceptedAll(c, [s1] + rest)
    ensures Rest(whole, next, done + [s1])
  { if next.AcceptedAll? { assert done + ([s1] + next.ss) == done + [s1] + next.ss; } }

  /** The third pass over one function. */
  method CheckFunction(f: Function) returns (v: Verdicts)
    requires forall i :: 0 <= i < |f.body| ==> Shaped(f.body[i])
    ensures v == Check(f)
  {
    var checker := new OwnChecker(f.params);
    var ok, ss := checker.Stmts(f.body);
    return if ok then AcceptedAll(checker.State(), ss) else RejectedAll;
  }
}
