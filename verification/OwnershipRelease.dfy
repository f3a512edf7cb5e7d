module ReleaseSafety {
  // No object is released twice, or released after it was handed over.

  import opened Options
  import opened Graphs
  import opened Ownership
  import Facts = OwnershipFacts

  /** Every object is logged at most once, as released or as handed over. */
  ghost predicate LogOk(r: RState) {
    && NoDup(r.released) && NoDup(r.handed)
    && (forall i :: i in r.released ==> i < r.next && i !in r.handed)
    && (forall i :: i in r.handed ==> i < r.next)
  }

  ghost predicate Logged(r: RState, i: nat) { i in r.released || i in r.handed }

  /** The variables of `s` hold different objects, none of them gone. */
  ghost predicate Sane(r: RState, s: set<string>) {
    && LogOk(r)
    && (forall x :: x in s && Holds(r, x) ==> r.vars[x].value < r.next && !Logged(r, r.vars[x].value))
    && (forall x, y :: x in s && y in s && x != y && Holds(r, x) && Holds(r, y) ==> r.vars[x] != r.vars[y])
  }

  ghost predicate OutSane(o: Out, keep: set<string>, after: set<string>) {
    match o
    case Normal(r, _) => r.vars.Keys == after && Sane(r, after)
    case Broke(r, _) => keep <= r.vars.Keys && Sane(r, keep)
    case Continued(r, _) => keep <= r.vars.Keys && Sane(r, keep)
    case Returned(r) => LogOk(r)
    case Starved(r) => LogOk(r)
    case NullUse => true
  }

  lemma SaneLess(r: RState, s: set<string>, t: set<string>)
    requires Sane(r, s) && t <= s
    ensures Sane(r, t)
  {}

  lemma ReleaseOne(r: RState, x: string, s: set<string>)
    requires Sane(r, s) && x in s
    ensures Sane(ReleaseVar(r, x), s - {x})
  {}

  function Named(xs: seq<string>): set<string> { set x | x in xs }

  lemma {:induction false} ReleaseMany(r: RState, xs: seq<string>, s: set<string>)
    requires Sane(r, s) && NoDup(xs) && Named(xs) <= s
    ensures var q := ReleaseAll(r, xs);
      Sane(q, s - Named(xs)) && q.vars == r.vars && q.next == r.next && q.handed == r.handed
    decreases |xs|
  {
    if xs != [] {
      assert xs[0] in Named(xs);
      ReleaseOne(r, xs[0], s);
      assert Named(xs[1..]) <= s - {xs[0]};
      ReleaseMany(ReleaseVar(r, xs[0]), xs[1..], s - {xs[0]});
      assert s - Named(xs) == s - {xs[0]} - Named(xs[1..]);
    } else {
      assert s - Named(xs) == s;
    }
  }

  lemma {:induction false} PendingFacts(m: seq<Moved>, vs: seq<OwnVar>)
    ensures var p := Pending(m, vs); NoDup(p) && Named(p) <= VarNames(vs)
    ensures forall x :: x in VarNames(vs) && !Surely(m, x) ==> x in Pending(m, vs)
    ensures forall x :: x in Pending(m, vs) ==> !Surely(m, x)
  {
    if vs != [] {
      var front, last := vs[..|vs|-1], vs[|vs|-1];
      PendingFacts(m, front);
      Facts.VarNamesConcat(front, [last]);
      assert vs == front + [last];
      assert VarNames([last]) == {last.name} by { assert [last][0].name == last.name; }
      hide Surely;
    }
  }

  lemma NullKeeps(r: RState, xs: seq<string>, s: set<string>)
    requires Sane(r, s)
    ensures Sane(NullAll(r, xs), s) && NullAll(r, xs).vars.Keys == r.vars.Keys
  {}

  // ----- Declarations and assignments -----

  /** The state when a value has been computed: `id` is held by nothing that will keep it. */
  ghost predicate Ready(r: RState, s: set<string>, id: nat, giver: Option<string>) {
    && LogOk(r) && id < r.next && !Logged(r, id)
    && (forall z ::
      z in s && Some(z) != giver && Holds(r, z) ==>
        r.vars[z].value < r.next && !Logged(r, r.vars[z].value) && r.vars[z].value != id)
    && (forall y, z ::
      y in s && z in s && y != z && Some(y) != giver && Some(z) != giver && Holds(r, y) && Holds(r, z) ==>
        r.vars[y] != r.vars[z])
  }

  function Giver(rhs: Rhs): Option<string> { if rhs.New? then None else Some(rhs.y) }

  lemma YieldReady(r: RState, rhs: Rhs, s: set<string>)
    requires Sane(r, s) && Yield(r, rhs).Some? && (rhs.New? || rhs.y in s)
    ensures var p := Yield(r, rhs).value; Ready(p.0, s, p.1, Giver(rhs)) && p.0.vars == r.vars
    ensures rhs.New? ==> Sane(Yield(r, rhs).value.0, s)
  {}

  /** Giving the value to `x` and nulling the variable it came from, unless that is `x` itself. */
  lemma StoreSane(r: RState, s: set<string>, id: nat, giver: Option<string>, x: string, nulls: seq<string>)
    requires Ready(r, s, id, giver) && (giver.Some? && giver.value != x && giver.value in s ==> giver.value in nulls)
      && x !in nulls
    ensures Sane(NullAll(r.(vars := r.vars[x := Some(id)]), nulls), s + {x})
  {}

  /** Releasing what `x` held before. */
  lemma ReleaseOldReady(r: RState, s: set<string>, id: nat, giver: Option<string>, x: string)
    requires Ready(r, s, id, giver) && x in s && Some(x) != giver
    ensures Ready(ReleaseVar(r, x).(vars := r.vars[x := None]), s, id, giver)
  {}

  lemma ForgetOld(r: RState, x: string, id: nat, nulls: seq<string>)
    ensures r.(vars := r.vars[x := None]).(vars := r.vars[x := None][x := Some(id)]) ==
      r.(vars := r.vars[x := Some(id)])
  { assert r.vars[x := None][x := Some(id)] == r.vars[x := Some(id)]; }

  /** What the checker writes into a declaration or assignment: the giver, unless it is the variable itself, is nulled,
      and an old value is released only when it was not given away by the statement itself. */
  ghost predicate Noted(rhs: Rhs, x: string, note: Note) {
    && x !in note.nulls && (!rhs.New? && rhs.y != x ==> rhs.y in note.nulls)
    && (note.releaseOld ==> rhs != CallOf(x))
  }

  lemma LetNoted(c: Ctx, st: Stmt)
    requires st.Let? && Facts.Wf(c) && Facts.Scoped(st, Facts.All(c)) && Analyze(c, st).Accepted?
    ensures var t := Analyze(c, st).st; t == Let(st.x, st.rhs, t.note) && Noted(st.rhs, st.x, t.note)
  { if !st.rhs.New? { Facts.LookupIs(c, st.rhs.y); } }

  lemma AssignNoted(c: Ctx, st: Stmt)
    requires st.Assign? && Facts.Wf(c) && Facts.Scoped(st, Facts.All(c)) && Analyze(c, st).Accepted?
    ensures var t := Analyze(c, st).st; t == Assign(st.x, st.rhs, t.note) && Noted(st.rhs, st.x, t.note)
  {
    if !st.rhs.New? { Facts.LookupIs(c, st.rhs.y); }
    if st.rhs == CallOf(st.x) { Facts.MoveFacts(c, st.x, true); }
  }

  lemma LetRuns(r: RState, s: set<string>, x: string, rhs: Rhs, note: Note, ch: seq<bool>, keep: set<string>)
    requires Noted(rhs, x, note) && r.vars.Keys == s && Sane(r, s) && x !in s && Facts.RhsScoped(rhs, s)
    ensures OutSane(Exec(Let(x, rhs, note), r, ch), keep, s + {x})
  {
    hide Sane;
    hide Ready;
    if Yield(r, rhs).Some? {
      var p := Yield(r, rhs).value;
      YieldReady(r, rhs, s);
      StoreSane(p.0, s, p.1, Giver(rhs), x, note.nulls);
    }
  }

  lemma SelfAssign(r: RState, s: set<string>, x: string, nulls: seq<string>)
    requires Sane(r, s) && x in s && Holds(r, x) && x !in nulls
    ensures Sane(NullAll(r.(vars := r.vars[x := Some(r.vars[x].value)]), nulls), s)
  {
    assert r.vars[x := Some(r.vars[x].value)] == r.vars;
    NullKeeps(r, nulls, s);
  }

  lemma AssignRuns(r: RState, s: set<string>, x: string, rhs: Rhs, note: Note, ch: seq<bool>, keep: set<string>)
    requires Noted(rhs, x, note) && r.vars.Keys == s && Sane(r, s) && x in s && Facts.RhsScoped(rhs, s)
    ensures OutSane(Exec(Assign(x, rhs, note), r, ch), keep, s)
  {
    hide Sane;
    hide Ready;
    assert s + {x} == s;
    if Yield(r, rhs).Some? {
      var p := Yield(r, rhs).value;
      YieldReady(r, rhs, s);
      var q := ReleaseVar(p.0, x);
      if rhs == Var(x) {
        SelfAssign(r, s, x, note.nulls);
      } else if note.releaseOld && Holds(p.0, x) && p.0.vars[x].value != p.1 {
        ReleaseOldReady(p.0, s, p.1, Giver(rhs), x);
        ForgetOld(q, x, p.1, note.nulls);
        StoreSane(q.(vars := p.0.vars[x := None]), s, p.1, Giver(rhs), x, note.nulls);
      } else {
        StoreSane(p.0, s, p.1, Giver(rhs), x, note.nulls);
      }
    }
  }

  lemma HandOver(r: RState, s: set<string>, y: string)
    requires Sane(r, s) && y in s && Holds(r, y)
    ensures Sane(r.(handed := r.handed + [r.vars[y].value]), s - {y})
  {}

  lemma NulledBack(r: RState, s: set<string>, y: string, nulls: seq<string>)
    requires Sane(r, s - {y}) && y in s && y in nulls
    ensures Sane(NullAll(r, nulls), s)
  {}

  lemma ConsumeSane(c: Ctx, st: Stmt, r: RState, ch: seq<bool>)
    requires st.Consume? && Facts.Wf(c) && Facts.Scoped(st, Facts.All(c)) && Analyze(c, st).Accepted?
    requires r.vars.Keys == Facts.All(c) && Sane(r, Facts.All(c))
    ensures OutSane(Exec(Analyze(c, st).st, r, ch), Facts.Outside(c), Facts.All(c))
  {
    Facts.LookupIs(c, st.y);
    hide Facts.Wf;
    hide Facts.All;
    hide Move;
    hide Sane;
    if Holds(r, st.y) {
      HandOver(r, Facts.All(c), st.y);
      NulledBack(r.(handed := r.handed + [r.vars[st.y].value]), Facts.All(c), st.y, [st.y]);
    }
  }

  // ----- Jumps -----

  lemma WalkOutside(c: Ctx)
    requires Facts.Wf(c)
    ensures VarNames(Walk(c.scopes, false)) == Facts.All(c) - Facts.Outside(c)
    ensures VarNames(Walk(c.scopes, true)) == Facts.All(c)
  {}

  /** `break` and `continue` release what belongs to the loop body, and only that. */
  lemma JumpSane(c: Ctx, r: RState)
    requires Facts.Wf(c) && r.vars.Keys == Facts.All(c) && Sane(r, Facts.All(c))
    ensures var q := ReleaseAll(r, Pending(c.moved, Walk(c.scopes, false)));
      Facts.Outside(c) <= q.vars.Keys && Sane(q, Facts.Outside(c))
  {
    var p := Pending(c.moved, Walk(c.scopes, false));
    PendingFacts(c.moved, Walk(c.scopes, false));
    WalkOutside(c);
    hide Facts.Wf;
    hide Sane;
    hide Pending;
    ReleaseMany(r, p, Facts.All(c));
    SaneLess(ReleaseAll(r, p), Facts.All(c) - Named(p), Facts.Outside(c));
  }

  lemma ReturnNoted(c: Ctx, st: Stmt)
    requires st.Return? && Facts.Wf(c) && Facts.Scoped(st, Facts.All(c)) && Analyze(c, st).Accepted?
    ensures var t := Analyze(c, st).st;
      && t == Return(st.value, t.note) && NoDup(t.note.releases)
        && Named(t.note.releases) <= Facts.All(c) - (if st.value.Some? then {st.value.value} else {})
  {
    var c1 := Analyze(c, st).c;
    PendingFacts(c1.moved, Walk(c1.scopes, true));
    if st.value.Some? { Facts.MoveFacts(c, st.value.value, true); }
    hide Pending;
    hide Walk;
    hide VarNames;
    hide Move;
  }

  lemma ReturnRuns(r: RState, s: set<string>, value: Option<string>, note: Note, ch: seq<bool>)
    requires Sane(r, s) && (value.Some? ==> value.value in s) && NoDup(note.releases)
    requires Named(note.releases) <= s - (if value.Some? then {value.value} else {})
    ensures var o := Exec(Return(value, note), r, ch); o.Returned? ==> LogOk(o.r)
    ensures var o := Exec(Return(value, note), r, ch); o.Returned? || o.NullUse?
  {
    hide Sane;
    if value.None? {
      ReleaseMany(r, note.releases, s);
      SaneLog(ReleaseAll(r, note.releases), s - Named(note.releases));
    } else if Holds(r, value.value) {
      var q := r.(handed := r.handed + [r.vars[value.value].value]);
      HandOver(r, s, value.value);
      ReleaseMany(q, note.releases, s - {value.value});
      SaneLog(ReleaseAll(q, note.releases), s - {value.value} - Named(note.releases));
    }
  }

  lemma SaneLog(r: RState, s: set<string>)
    requires Sane(r, s)
    ensures LogOk(r)
  {}

  // ----- Every run -----

  ghost predicate Before(c: Ctx, st: Stmt, r: RState) {
    Facts.Wf(c) && Facts.Scoped(st, Facts.All(c)) && Analyze(c, st).Accepted? && r.vars.Keys == Facts.All(c)
      && Sane(r, Facts.All(c))
  }

  lemma {:induction false} StmtSane(c: Ctx, st: Stmt, r: RState, ch: seq<bool>)
    requires Before(c, st, r)
    ensures OutSane(Exec(Analyze(c, st).st, r, ch), Facts.Outside(c), Facts.After(Facts.All(c), st))
    decreases |ch|, st, 2
  {
    hide Sane;
    hide Facts.Wf;
    hide Facts.All;
    hide Facts.Outside;
    hide Move;
    hide Pending;
    match st
    case Let(x, rhs, _) =>
      LetNoted(c, st);
      LetRuns(r, Facts.All(c), x, rhs, Analyze(c, st).st.note, ch, Facts.Outside(c));
    case Assign(x, rhs, _) =>
      AssignNoted(c, st);
      AssignRuns(r, Facts.All(c), x, rhs, Analyze(c, st).st.note, ch, Facts.Outside(c));
    case Borrow(_) =>
    case Consume(_, _) => ConsumeSane(c, st, r, ch);
    case Block(_, _) => BlockSane(c, st, false, r, ch);
    case If(_, _, _) => IfSane(c, st, r, ch);
    case While(_, _) => WhileSane(c, st, r, ch);
    case Break(_) => JumpSane(c, r);
    case Continue(_) => JumpSane(c, r);
    case Return(value, _) =>
      ReturnNoted(c, st);
      ReturnRuns(r, Facts.All(c), value, Analyze(c, st).st.note, ch);
  }

  lemma {:induction false} AllSane(c: Ctx, ss: seq<Stmt>, r: RState, ch: seq<bool>)
    requires Facts.Wf(c) && Facts.ScopedAll(ss, Facts.All(c)) && AnalyzeAll(c, ss).AcceptedAll?
    requires r.vars.Keys == Facts.All(c) && Sane(r, Facts.All(c))
    ensures OutSane(ExecAll(AnalyzeAll(c, ss).ss, r, ch), Facts.Outside(c), Facts.All(AnalyzeAll(c, ss).c))
    decreases |ch|, ss, 0
  {
    hide Sane;
    hide Facts.Wf;
    hide Facts.All;
    hide Facts.Outside;
    hide Exec;
    if ss != [] {
      var d, s1 := Analyze(c, ss[0]).c, Analyze(c, ss[0]).st;
      hide Analyze;
      Facts.KeptStmt(c, ss[0]);
      StmtSane(c, ss[0], r, ch);
      assert Facts.After(Facts.All(c), ss[0]) == Facts.All(c) + Facts.Declared(ss[0]);
      assert ([s1] + AnalyzeAll(d, ss[1..]).ss)[1..] == AnalyzeAll(d, ss[1..]).ss;
      var o := Exec(s1, r, ch);
      if o.Normal? { AllSane(d, ss[1..], o.r, o.ch); }
    }
  }

  /** The variables a block declares are not those around it. */
  lemma BlockNames(c: Ctx, isLoop: bool, last: Ctx, declared: set<string>)
    requires Facts.Wf(c) && Facts.Kept(Facts.Inside(c, isLoop), last, declared)
    ensures var own := VarNames(last.scopes[|c.scopes|].vars);
      own !! Facts.All(c) && Facts.All(last) == Facts.All(c) + own
  {
    var inner := Facts.Inside(c, isLoop);
    Facts.PushFacts(c);
    Facts.WalkSplit(last.scopes, true);
    assert inner.scopes[..|c.scopes|] == c.scopes;
    var own := last.scopes[|c.scopes|].vars;
    assert VarNames([]) == {};
    assert Walk(last.scopes, true) == own + Walk(c.scopes, true);
    DistinctSplit(own, Walk(c.scopes, true));
  }

  lemma DistinctSplit(a: seq<OwnVar>, b: seq<OwnVar>)
    requires Facts.DistinctNames(a + b)
    ensures VarNames(a) !! VarNames(b)
  {
    if x :| x in VarNames(a) && x in VarNames(b) {
      var i :| 0 <= i < |a| && a[i].name == x;
      var j :| 0 <= j < |b| && b[j].name == x;
      assert (a + b)[i].name == (a + b)[|a| + j].name;
    }
  }

  lemma RestrictSane(r: RState, s: set<string>, keep: set<string>, keys: set<string>)
    requires Sane(r, s) && keep <= s && keep <= keys && keep <= r.vars.Keys
    ensures Sane(Restrict(r, keys), keep) && keep <= Restrict(r, keys).vars.Keys <= keys
  {}

  /** The context a loop body is analyzed in, before its scope is pushed. */
  function LoopCtx(c: Ctx, isLoop: bool): Ctx { if isLoop then c.(loopDepth := c.loopDepth + 1) else c }

  lemma InsideOutside(c: Ctx, isLoop: bool)
    requires Facts.Wf(c)
    ensures var inner := Facts.Inside(c, isLoop);
      && Facts.Wf(inner) && Facts.All(inner) == Facts.All(c)
        && Facts.Outside(inner) == (if isLoop then Facts.All(c) else Facts.Outside(c))
  { Facts.PushFacts(c); }

  /** Running an annotated block: its statements, then its releases, then out of its scope. */
  lemma BlockRuns(c: Ctx, st: Stmt, isLoop: bool, r: RState, ch: seq<bool>)
    requires st.Block? && AnalyzeBlock(LoopCtx(c, isLoop), st, isLoop).Accepted?
    ensures var v := AnalyzeAll(Facts.Inside(c, isLoop), st.body);
      var b := AnalyzeBlock(LoopCtx(c, isLoop), st, isLoop);
      v.AcceptedAll? && |v.c.scopes| == |c.scopes| + 1 && b.c.moved == v.c.moved &&
      (var o := ExecAll(v.ss, r, ch);
       Exec(b.st, r, ch) == Leave(if o.Normal? then Normal(ReleaseAll(o.r, Closing(v.c)), o.ch) else o, r.vars.Keys))
  {
    hide AnalyzeAll;
    hide ExecAll;
    hide Pending;
    hide Restrict;
    hide ReleaseAll;
  }

  lemma {:induction false} BlockSane(c: Ctx, st: Stmt, isLoop: bool, r: RState, ch: seq<bool>)
    requires Facts.Wf(c) && st.Block? && Facts.Scoped(st, Facts.All(c))
      && AnalyzeBlock(LoopCtx(c, isLoop), st, isLoop).Accepted?
    requires r.vars.Keys == Facts.All(c) && Sane(r, Facts.All(c))
    ensures OutSane(Exec(AnalyzeBlock(LoopCtx(c, isLoop), st, isLoop).st, r, ch),
                    if isLoop then Facts.All(c) else Facts.Outside(c), Facts.All(c))
    ensures isLoop ==> LoopKeys(Exec(AnalyzeBlock(LoopCtx(c, isLoop), st, isLoop).st, r, ch), Facts.All(c))
    decreases |ch|, st, 1
  {
    hide Sane;
    hide Facts.Wf;
    hide Facts.All;
    hide Facts.Outside;
    hide Facts.Kept;
    hide AnalyzeAll;
    hide ExecAll;
    hide Pending;
    hide Restrict;
    hide Exec;
    hide AnalyzeBlock;
    hide VarNames;
    BlockRuns(c, st, isLoop, r, ch);
    var s := Facts.All(c);
    var inner := Facts.Inside(c, isLoop);
    InsideOutside(c, isLoop);
    OutsideIn(c);
    AllSane(inner, st.body, r, ch);
    var declared := Facts.KeptAll(inner, st.body);
    var last := AnalyzeAll(inner, st.body).c;
    KeptSize(inner, last, declared);
    BlockNames(c, isLoop, last, declared);
    var own := last.scopes[|c.scopes|].vars;
    var p := Pending(last.moved, own);
    PendingFacts(last.moved, own);
    var o := ExecAll(AnalyzeAll(inner, st.body).ss, r, ch);
    match o
    case Normal(r1, _) =>
      ReleaseMany(r1, p, Facts.All(last));
      RestrictSane(ReleaseAll(r1, p), Facts.All(last) - Named(p), s, s);
    case Broke(r1, _) => RestrictSane(r1, Facts.Outside(inner), Facts.Outside(inner), s);
    case Continued(r1, _) => RestrictSane(r1, Facts.Outside(inner), Facts.Outside(inner), s);
    case Returned(_) =>
    case Starved(_) =>
    case NullUse =>
  }

  ghost predicate LoopKeys(o: Out, s: set<string>) {
    (o.Normal? || o.Broke? || o.Continued?) ==> o.r.vars.Keys == s
  }

  lemma KeptSize(c: Ctx, d: Ctx, declared: set<string>)
    requires Facts.Kept(c, d, declared)
    ensures |d.scopes| == |c.scopes|
  {}

  lemma OutsideIn(c: Ctx)
    ensures Facts.Outside(c) <= Facts.All(c)
  {}

  lemma {:induction false} IfSane(c: Ctx, st: Stmt, r: RState, ch: seq<bool>)
    requires Before(c, st, r) && st.If?
    ensures OutSane(Exec(Analyze(c, st).st, r, ch), Facts.Outside(c), Facts.All(c))
    decreases |ch|, st, 1
  {
    hide Sane;
    hide Facts.Wf;
    hide Facts.All;
    hide Facts.Outside;
    hide Merge;
    hide CondAllowed;
    hide CondRuns;
    assert Analyze(c, st) == AnalyzeIf(c, st);
    if ch != [] && CondRuns(r, st.cond) {
      if ch[0] { StmtSane(c, st.thenB, r, ch[1..]); }
      else if st.elseB.Some? { StmtSane(c, st.elseB.value, r, ch[1..]); }
    } else { SaneLog(r, Facts.All(c)); }
  }

  lemma {:induction false} WhileSane(c: Ctx, st: Stmt, r: RState, ch: seq<bool>)
    requires Before(c, st, r) && st.While?
    ensures OutSane(Exec(Analyze(c, st).st, r, ch), Facts.Outside(c), Facts.All(c))
    decreases |ch|, st, 1
  {
    hide Sane;
    hide Facts.Wf;
    hide Facts.All;
    hide Facts.Outside;
    hide AnalyzeBlock;
    hide CondAllowed;
    hide CondRuns;
    var b1 := AnalyzeBlock(LoopCtx(c, true), st.loopBody, true).st;
    if ch == [] || !CondRuns(r, st.cond) { SaneLog(r, Facts.All(c)); }
    else if ch[0] {
      BlockSane(c, st.loopBody, true, r, ch[1..]);
      var o := Exec(b1, r, ch[1..]);
      if o.Normal? || o.Continued? { WhileSane(c, st, o.r, o.ch); }
    }
  }

  // ----- Whole functions -----

  /** Parameter names differ, and every name in the body is in scope and hides no other. */
  predicate WellScoped(f: Function) { NoDup(f.params) && Facts.ScopedAll(f.body, Named(f.params)) }

  lemma StartFacts(params: seq<string>)
    requires NoDup(params)
    ensures var c := Start(params); Facts.Wf(c) && Facts.All(c) == Named(params) && Facts.Outside(c) == {}
  {
    var c := Start(params);
    var vs := c.scopes[0].vars;
    assert c.scopes[..0] == [] && vs + [] == vs;
    assert Walk(c.scopes, true) == vs && Walk(c.scopes, false) == vs;
    assert forall i :: 0 <= i < |vs| ==> vs[i].name == params[i];
    assert VarNames(vs) == Named(params) by {
      forall x | x in Named(params)
        ensures x in VarNames(vs)
      {
        var i :| 0 <= i < |params| && params[i] == x;
        assert vs[i].name == x;
      }
    }
    forall v | v in vs ensures Facts.DepthRight(c, v) {
      var i :| 0 <= i < |vs| && vs[i] == v;
      assert vs[i].name in VarNames(vs);
    }
  }

  lemma {:induction false} EntryFacts(params: seq<string>, n: nat)
    requires NoDup(params) && n <= |params|
    ensures var vars := EntryVars(params, n); vars.Keys == Named(params[..n])
    ensures forall i :: 0 <= i < n ==> params[i] in EntryVars(params, n) && EntryVars(params, n)[params[i]] == Some(i)
  {
    if n > 0 {
      EntryFacts(params, n - 1);
      assert params[..n] == params[..n-1] + [params[n-1]];
    }
  }

  lemma EntrySane(params: seq<string>)
    requires NoDup(params)
    ensures Entry(params).vars.Keys == Named(params) && Sane(Entry(params), Named(params))
    ensures forall i: nat :: i < |params| ==> exists x :: x in Named(params) && Entry(params).vars[x] == Some(i)
  {
    EntryFacts(params, |params|);
    assert params[..|params|] == params;
    var r := Entry(params);
    forall x | x in Named(params) ensures exists i :: 0 <= i < |params| && params[i] == x && r.vars[x] == Some(i) {
      var i :| 0 <= i < |params| && params[i] == x;
    }
    forall i: nat | i < |params|
      ensures exists x :: x in Named(params) && r.vars[x] == Some(i)
    {
      assert params[i] in Named(params);
    }
  }

  lemma OnlyScope(c: Ctx)
    requires Facts.Wf(c) && |c.scopes| == 1
    ensures Facts.All(c) == VarNames(c.scopes[0].vars)
  { assert Walk(c.scopes, true) == c.scopes[0].vars; }

  /** Release safety: whatever way a checked function runs, and wherever the run is stopped, no object has been released
      twice, and none that was handed over has been released. */
  lemma NoDoubleRelease(f: Function, ch: seq<bool>)
    requires WellScoped(f) && Check(f).AcceptedAll?
    ensures var o := Call(f.params, Check(f).ss, Closing(Check(f).c), ch); !o.NullUse? ==> LogOk(o.r)
  {
    var c := Start(f.params);
    StartFacts(f.params);
    EntrySane(f.params);
    hide Sane;
    hide Facts.Wf;
    hide Facts.All;
    hide AnalyzeAll;
    hide ExecAll;
    hide Entry;
    hide Pending;
    var last := AnalyzeAll(c, f.body).c;
    var declared := Facts.KeptAll(c, f.body);
    AllSane(c, f.body, Entry(f.params), ch);
    OnlyScope(last);
    var o := ExecAll(AnalyzeAll(c, f.body).ss, Entry(f.params), ch);
    PendingFacts(last.moved, last.scopes[0].vars);
    match o
    case Normal(r, _) =>
      ReleaseMany(r, Closing(last), Facts.All(last));
      SaneLog(ReleaseAll(r, Closing(last)), Facts.All(last) - Named(Closing(last)));
    case Broke(r, _) => SaneLog(r, Facts.Outside(c));
    case Continued(r, _) => SaneLog(r, Facts.Outside(c));
    case Returned(_) =>
    case Starved(_) =>
    case NullUse =>
  }
}
