module CheckerComplete {
  // What the ownership checker does not refuse (src/frontend/scope_analysis.c:871-971, 1295-1765).

  import opened Options
  import opened Graphs
  import opened Ownership
  import Facts = OwnershipFacts
  import Release = ReleaseSafety
  import Use = UseSafety
  import opened ReleaseExactness
  import Conv = OwnershipConverse
  import Limits = OwnershipLimits

  // ----- Functions that give nothing away -----

  predicate OnlyLooks(cond: seq<CondUse>) { forall k :: 0 <= k < |cond| ==> cond[k].Looks? }

  /** Makes objects, reads them and branches on them, and jumps only out of loops; gives nothing away. */
  predicate Harmless(st: Stmt, inLoop: bool)
    decreases st
  {
    match st
    case Let(_, rhs, _) => rhs.New?
    case Assign(x, rhs, _) => rhs.New? || rhs == Var(x)
    case Borrow(_) => true
    case Consume(_, _) => false
    case Block(ss, _) => AllHarmless(ss, inLoop)
    case If(cond, a, b) => OnlyLooks(cond) && Harmless(a, inLoop) && (b.Some? ==> Harmless(b.value, inLoop))
    case While(cond, body) => OnlyLooks(cond) && body.Block? && Harmless(body, true)
    case Break(_) => inLoop
    case Continue(_) => inLoop
    case Return(value, _) => value.None?
  }

  predicate AllHarmless(ss: seq<Stmt>, inLoop: bool)
    decreases ss
  { forall k :: 0 <= k < |ss| ==> Harmless(ss[k], inLoop) }

  /** How deep blocks are nested. */
  function Depth(st: Stmt): nat
    decreases st
  {
    match st
    case Block(ss, _) => 1 + MaxDepth(ss)
    case If(_, a, b) => if b.None? || Depth(a) >= Depth(b.value) then Depth(a) else Depth(b.value)
    case While(_, body) => Depth(body)
    case _ => 0
  }

  function MaxDepth(ss: seq<Stmt>): nat
    decreases ss
  { if ss == [] then 0 else if Depth(ss[0]) >= MaxDepth(ss[1..]) then Depth(ss[0]) else MaxDepth(ss[1..]) }

  lemma NothingMoved(c: Ctx, y: string)
    requires c.moved == []
    ensures UseAllowed(c, y) && forall x :: Unmark([], x) == []
  {}

  lemma NothingMerged(c: Ctx, tEnds: bool, fEnds: bool, hasElse: bool)
    requires c.moved == []
    ensures Merge(c, [], [], tEnds, fEnds, hasElse) == Some([])
  {
    assert Tail([], 0) == [] && AllMaybe([]) == [] && Both([], []) == [] && Without([], Names([])) == [];
  }

  lemma {:induction false} HarmlessStmt(c: Ctx, st: Stmt)
    requires c.scopes != [] && c.moved == [] && Harmless(st, c.loopDepth > 0) && |c.scopes| + Depth(st) <= 128
    ensures var v := Analyze(c, st); v.Accepted? && v.c.moved == [] && v.c.loopDepth == c.loopDepth
    decreases st, 1
  {
    NothingMoved(c, "");
    match st
    case Let(x, rhs, _) =>
    case Assign(x, rhs, _) => NothingMoved(c, x);
    case Borrow(y) => NothingMoved(c, y);
    case Consume(_, _) =>
    case Block(_, _) => HarmlessBlock(c, st, false);
    case If(cond, a, b) =>
      forall k | 0 <= k < |cond| ensures UseAllowed(c, cond[k].y) { NothingMoved(c, cond[k].y); }
      HarmlessStmt(c, a);
      if b.Some? { HarmlessStmt(c, b.value); }
      HarmlessIf(c, st);
    case While(cond, body) =>
      var inner := c.(loopDepth := c.loopDepth + 1);
      forall k | 0 <= k < |cond| ensures UseAllowed(inner, cond[k].y) { NothingMoved(inner, cond[k].y); }
      HarmlessBlock(inner, body, true);
    case Break(_) =>
    case Continue(_) =>
    case Return(_, _) =>
  }

  lemma HarmlessIf(c: Ctx, st: Stmt)
    requires c.scopes != [] && c.moved == [] && st.If? && CondAllowed(c, st.cond)
    requires var v := Analyze(c, st.thenB); v.Accepted? && v.c.moved == []
    requires st.elseB.Some? ==> var v := Analyze(c, st.elseB.value); v.Accepted? && v.c.moved == []
    ensures var v := Analyze(c, st); v.Accepted? && v.c.moved == [] && v.c.loopDepth == c.loopDepth
  {
    NothingMerged(c, EndsInJump(st.thenB), st.elseB.Some? && EndsInJump(st.elseB.value), st.elseB.Some?);
    hide Merge;
    hide CondAllowed;
    hide EndsInJump;
    assert Analyze(c, st) == AnalyzeIf(c, st);
  }

  lemma {:induction false} HarmlessBlock(c: Ctx, st: Stmt, isLoop: bool)
    requires c.scopes != [] && c.moved == [] && st.Block? && Harmless(st, c.loopDepth > 0)
      && |c.scopes| + Depth(st) <= 128
    ensures var v := AnalyzeBlock(c, st, isLoop); v.Accepted? && v.c.moved == [] && v.c.loopDepth == c.loopDepth
    decreases st, 0
  { HarmlessAll(c.(scopes := c.scopes + [Scope([], isLoop)]), st.body); }

  lemma {:induction false} HarmlessAll(c: Ctx, ss: seq<Stmt>)
    requires c.scopes != [] && c.moved == [] && AllHarmless(ss, c.loopDepth > 0) && |c.scopes| + MaxDepth(ss) <= 128
    ensures var v := AnalyzeAll(c, ss); v.AcceptedAll? && v.c.moved == []
    decreases ss, 0
  {
    if ss != [] {
      HarmlessStmt(c, ss[0]);
      hide Analyze;
      HarmlessAll(Analyze(c, ss[0]).c, ss[1..]);
    }
  }

  /** A function that makes, reads and branches on objects, in whatever loops, and gives nothing away, is accepted
      unless its blocks nest too deep. */
  lemma HarmlessAccepted(f: Function)
    requires AllHarmless(f.body, false) && MaxDepth(f.body) <= 127
    ensures Check(f).AcceptedAll?
  { HarmlessAll(Start(f.params), f.body); }

  // ----- What the language says of moves -----

  /** The variable a value is taken from, unless it is the one the value is for. */
  function Emptied(rhs: Rhs, x: string, assigning: bool): seq<string> {
    if rhs.New? || (assigning && rhs.y == x) then [] else [rhs.y]
  }

  /** The program with nothing but moves: what is given away holds nothing afterwards, and nothing is released. */
  function Nulled(st: Stmt): Stmt
    decreases st
  {
    match st
    case Let(x, rhs, _) => Let(x, rhs, Note([], Emptied(rhs, x, false), false))
    case Assign(x, rhs, _) => Assign(x, rhs, Note([], Emptied(rhs, x, true), false))
    case Borrow(y) => st
    case Consume(y, _) => Consume(y, Note([], [y], false))
    case Block(ss, _) => Block(AllNulled(ss), BLANK)
    case If(cond, a, b) => If(cond, Nulled(a), if b.None? then None else Some(Nulled(b.value)))
    case While(cond, body) => While(cond, Nulled(body))
    case Break(_) => Break(BLANK)
    case Continue(_) => Continue(BLANK)
    case Return(value, _) => Return(value, BLANK)
  }

  function AllNulled(ss: seq<Stmt>): (r: seq<Stmt>)
    decreases ss
  { if ss == [] then [] else [Nulled(ss[0])] + AllNulled(ss[1..]) }

  predicate Simple(st: Stmt) { st.Let? || st.Assign? || st.Borrow? || st.Consume? }

  /** What a statement reads or takes. */
  function Needs(st: Stmt): set<string> {
    match st
    case Let(_, rhs, _) => if rhs.New? then {} else {rhs.y}
    case Assign(_, rhs, _) => if rhs.New? then {} else {rhs.y}
    case Borrow(y) => {y}
    case Consume(y, _) => {y}
    case Return(Some(y), _) => {y}
    case _ => {}
  }

  /** Whether `z` is empty after a simple statement. */
  predicate Empty(st: Stmt, z: string, was: bool) {
    match st
    case Let(x, rhs, _) => z != x && (was || z in Use.Taken(rhs, x, false))
    case Assign(x, rhs, _) => z != x && (was || z in Use.Taken(rhs, x, true))
    case Consume(y, _) => was || z == y
    case _ => was
  }

  /** Running a simple statement fails exactly when something it needs is gone. */
  lemma SimpleRuns(st: Stmt, s: set<string>, r: RState, ch: seq<bool>)
    requires Simple(st) && r.vars.Keys == s && Facts.Scoped(st, s)
    ensures var o := Exec(Nulled(st), r, ch);
      && (o.NullUse? <==> exists y :: y in Needs(st) && !Holds(r, y))
      && (!o.NullUse? ==>
        && o.Normal? && o.ch == ch && o.r.vars.Keys == Facts.After(s, st)
        && forall z :: z in Facts.After(s, st) ==> (!Holds(o.r, z) <==> Empty(st, z, !Holds(r, z))))
  {
    if y :| y in Needs(st) && !Holds(r, y) {
    } else {
      match st
      case Let(x, rhs, _) => StoreRuns(st, x, rhs, false, s, r, ch);
      case Assign(x, rhs, _) => StoreRuns(st, x, rhs, true, s, r, ch);
      case Borrow(y) => assert y in Needs(st);
      case Consume(y, _) => assert y in Needs(st);
    }
  }

  lemma StoreRuns(st: Stmt, x: string, rhs: Rhs, assigning: bool, s: set<string>, r: RState, ch: seq<bool>)
    requires if assigning then st.Assign? else st.Let?
    requires st.x == x && st.rhs == rhs && r.vars.Keys == s && Facts.Scoped(st, s) && (!rhs.New? ==> Holds(r, rhs.y))
    ensures var o := Exec(Nulled(st), r, ch);
      && o.Normal? && o.ch == ch && o.r.vars.Keys == s + {x}
      && forall z :: z in s + {x} ==> (!Holds(o.r, z) <==> Empty(st, z, !Holds(r, z)))
    ensures Facts.After(s, st) == s + {x}
  {
    var o := Exec(Nulled(st), r, ch);
    assert o.Normal? && o.r.vars.Keys == s + {x};
    forall z | z in s + {x} ensures !Holds(o.r, z) <==> Empty(st, z, !Holds(r, z)) {}
  }

  /** The checker accepts one exactly when nothing it needs is in the table, and changes the table accordingly. */
  lemma SimpleTable(c: Ctx, st: Stmt)
    requires Facts.Wf(c) && c.loopDepth == 0 && Simple(st) && Facts.Scoped(st, Facts.All(c))
    ensures Analyze(c, st).Accepted? <==> Needs(st) !! Names(c.moved)
    ensures Analyze(c, st).Accepted? ==> var d := Analyze(c, st).c;
      && Facts.Wf(d) && d.loopDepth == 0 && |d.scopes| == |c.scopes| && Facts.All(d) == Facts.After(Facts.All(c), st)
      && forall z :: z in Facts.All(d) ==> (z in Names(d.moved) <==> Empty(st, z, z in Names(c.moved)))
  {
    SimpleAccepted(c, st);
    if Analyze(c, st).Accepted? {
      Facts.KeptStmt(c, st);
      SimpleNames(c, st);
    }
    hide Facts.Wf;
    hide Facts.All;
    hide Analyze;
    hide Names;
  }

  lemma SimpleAccepted(c: Ctx, st: Stmt)
    requires Facts.Wf(c) && c.loopDepth == 0 && Simple(st) && Facts.Scoped(st, Facts.All(c))
    ensures Analyze(c, st).Accepted? <==> Needs(st) !! Names(c.moved)
  {
    if y :| y in Needs(st) { Facts.LookupIs(c, y); }
    hide Facts.Wf;
    hide Facts.All;
    hide Names;
    hide Lookup;
  }

  lemma SimpleNames(c: Ctx, st: Stmt)
    requires Facts.Wf(c) && Simple(st) && Facts.Scoped(st, Facts.All(c)) && Analyze(c, st).Accepted?
    ensures var d := Analyze(c, st).c; forall z :: z in Names(d.moved) <==> Empty(st, z, z in Names(c.moved))
  {
    match st {
      case Let(x, rhs, _) =>
        Use.RhsSummary(c, rhs, x, false);
        Facts.UnmarkFacts(MoveRhs(c, rhs, x, false).value.moved, x);
      case Assign(x, rhs, _) =>
        Use.RhsSummary(c, rhs, x, true);
        Facts.LookupIs(c, x);
        Facts.UnmarkFacts(MoveRhs(c, rhs, x, true).value.moved, x);
      case Borrow(_) =>
      case Consume(y, _) => Facts.MoveFacts(c, y, false);
    }
    hide Facts.Wf;
    hide Facts.All;
    hide Facts.TableOk;
    hide MoveRhs;
    hide Move;
    hide Names;
    hide Unmark;
    hide Lookup;
    hide Surely;
  }

  // ----- Straight-line functions -----

  /** Simple statements, and perhaps a return at the end. */
  predicate Straight(ss: seq<Stmt>) {
    ss == [] || if |ss| == 1 && ss[0].Return? then true else Simple(ss[0]) && Straight(ss[1..])
  }

  /** What is empty is in the table, and nothing else. */
  ghost predicate Mirrored(c: Ctx, r: RState) {
    && Facts.Wf(c) && c.loopDepth == 0 && r.vars.Keys == Facts.All(c)
    && forall z :: z in Facts.All(c) ==> (z in Names(c.moved) <==> !Holds(r, z))
  }

  lemma MirroredNext(c: Ctx, st: Stmt, r: RState, ch: seq<bool>)
    requires Mirrored(c, r) && Simple(st) && Facts.Scoped(st, Facts.All(c))
    ensures Analyze(c, st).Rejected? <==> Exec(Nulled(st), r, ch).NullUse?
    ensures Analyze(c, st).Accepted? ==> var o := Exec(Nulled(st), r, ch);
      o.Normal? && o.ch == ch && Mirrored(Analyze(c, st).c, o.r)
    ensures Analyze(c, st).Accepted? ==> Facts.All(Analyze(c, st).c) == Facts.After(Facts.All(c), st)
  {
    SimpleTable(c, st);
    SimpleRuns(st, Facts.All(c), r, ch);
    NeedsScoped(st, Facts.All(c));
    hide Facts.Wf;
    hide Facts.All;
    hide Analyze;
    hide Exec;
    hide Nulled;
    hide Names;
    hide Holds;
    hide Empty;
    hide Needs;
  }

  lemma NeedsScoped(st: Stmt, s: set<string>)
    requires (Simple(st) || st.Return?) && Facts.Scoped(st, s)
    ensures Needs(st) <= s
  {}

  lemma ReturnMirrored(c: Ctx, st: Stmt, r: RState, ch: seq<bool>)
    requires Mirrored(c, r) && st.Return? && Facts.Scoped(st, Facts.All(c))
    ensures Analyze(c, st).Rejected? <==> Exec(Nulled(st), r, ch).NullUse?
    ensures !Exec(Nulled(st), r, ch).Normal?
  {
    if st.value.Some? { Facts.LookupIs(c, st.value.value); }
    hide Facts.Wf;
    hide Facts.All;
    hide Names;
    hide Lookup;
  }

  lemma {:induction false} StraightRuns(c: Ctx, ss: seq<Stmt>, r: RState, ch: seq<bool>)
    requires Mirrored(c, r) && Straight(ss) && Facts.ScopedAll(ss, Facts.All(c))
    ensures c.scopes != [] && (AnalyzeAll(c, ss).RejectedAll? <==> ExecAll(AllNulled(ss), r, ch).NullUse?)
    decreases |ss|
  {
    Facts.WfTable(c);
    hide Mirrored;
    hide Analyze;
    hide Exec;
    hide Nulled;
    hide Facts.Scoped;
    if ss != [] {
      var st := ss[0];
      NulledRun(ss, r, ch);
      if |ss| == 1 && st.Return? {
        ReturnMirrored(c, st, r, ch);
        OneAnalyzed(c, ss);
      } else {
        MirroredNext(c, st, r, ch);
        if Analyze(c, st).Accepted? { StraightRuns(Analyze(c, st).c, ss[1..], Exec(Nulled(st), r, ch).r, ch); }
      }
    }
  }

  lemma NulledRun(ss: seq<Stmt>, r: RState, ch: seq<bool>)
    requires ss != []
    ensures var o := Exec(Nulled(ss[0]), r, ch);
      ExecAll(AllNulled(ss), r, ch) == if o.Normal? then ExecAll(AllNulled(ss[1..]), o.r, o.ch) else o
  {
    hide Exec;
    hide Nulled;
    assert AllNulled(ss)[0] == Nulled(ss[0]) && AllNulled(ss)[1..] == AllNulled(ss[1..]);
  }

  lemma OneAnalyzed(c: Ctx, ss: seq<Stmt>)
    requires c.scopes != [] && |ss| == 1
    ensures AnalyzeAll(c, ss).RejectedAll? <==> Analyze(c, ss[0]).Rejected?
  { hide Analyze; }

  lemma EntryMirrored(f: Function)
    requires Release.WellScoped(f)
    ensures Mirrored(Start(f.params), Entry(f.params)) && Facts.All(Start(f.params)) == Release.Named(f.params)
  {
    Release.StartFacts(f.params);
    Release.EntrySane(f.params);
    Use.EntryHolds(f.params);
    hide Facts.Wf;
    hide Facts.All;
    hide Release.Sane;
    hide Entry;
  }

  /** A straight-line function is refused exactly when running it uses what has been given away. */
  lemma StraightRejectedExactlyWhen(f: Function, ch: seq<bool>)
    requires Release.WellScoped(f) && Straight(f.body)
    ensures Check(f).RejectedAll? <==> ExecAll(AllNulled(f.body), Entry(f.params), ch).NullUse?
  {
    EntryMirrored(f);
    hide Mirrored;
    hide AnalyzeAll;
    hide ExecAll;
    hide Entry;
    StraightRuns(Start(f.params), f.body, Entry(f.params), ch);
  }

  // ----- Branches -----

  /** Loops apart: simple statements, blocks, and branches on what is only looked at, of which at most one returns. */
  predicate Flowing(st: Stmt)
    decreases st, 0
  {
    match st
    case Block(ss, _) => AllFlowing(ss, false)
    case If(cond, a, b) =>
      && OnlyLooks(cond) && Branch(a) && (b.Some? ==> Branch(b.value))
      && !(b.Some? && EndsInJump(a) && EndsInJump(b.value))
    case _ => Simple(st)
  }

  predicate Branch(st: Stmt)
    decreases st, 1
  { if st.Block? then AllFlowing(st.body, true) else Flowing(st) }

  predicate AllFlowing(ss: seq<Stmt>, mayReturn: bool)
    decreases ss
  {
    ss == [] || if |ss| == 1 && ss[0].Return? then mayReturn else Flowing(ss[0]) && AllFlowing(ss[1..], mayReturn)
  }

  /** Both branches give `z` a new value, and it stays in the table all the same. */
  ghost predicate Revives(c: Ctx, st: Stmt, z: string)
    requires c.scopes != [] && st.If?
  {
    && st.elseB.Some? && !EndsInJump(st.thenB) && !EndsInJump(st.elseB.value)
    && Analyze(c, st.thenB).Accepted? && Analyze(c, st.elseB.value).Accepted?
    && z in Facts.All(c) && z in Names(c.moved)
    && z !in Names(Analyze(c, st.thenB).c.moved) && z !in Names(Analyze(c, st.elseB.value).c.moved)
  }

  /** No variable of the table gets a new value in both branches of an `if`. */
  ghost predicate Unrevived(c: Ctx, st: Stmt)
    requires c.scopes != []
    decreases st, 1
  {
    match st
    case Block(ss, _) => AllUnrevived(Facts.Inside(c, false), ss)
    case If(_, a, b) =>
      Unrevived(c, a) && (b.Some? ==> Unrevived(c, b.value)) && forall z :: !Revives(c, st, z)
    case _ => true
  }

  ghost predicate AllUnrevived(c: Ctx, ss: seq<Stmt>)
    requires c.scopes != []
    decreases ss, 0
  {
    ss == [] ||
      (Unrevived(c, ss[0]) && (Analyze(c, ss[0]).Accepted? ==> AllUnrevived(Analyze(c, ss[0]).c, ss[1..])))
  }

  // ----- States a program gets to -----

  /** Answering the conditions with `b` takes a run from `r` to `q`. */
  ghost predicate Goes(st: Stmt, r: RState, b: seq<bool>, q: RState) {
    forall ch: seq<bool> {:trigger Exec(st, r, b + ch)} :: Exec(st, r, b + ch) == Normal(q, ch)
  }

  ghost predicate AllGo(ss: seq<Stmt>, r: RState, b: seq<bool>, q: RState) {
    forall ch: seq<bool> {:trigger ExecAll(ss, r, b + ch)} :: ExecAll(ss, r, b + ch) == Normal(q, ch)
  }

  ghost predicate Leads(s: iset<RState>, st: Stmt, t: iset<RState>) {
    forall q :: q in t ==> exists r, b :: r in s && Goes(st, r, b, q)
  }

  ghost predicate AllLead(s: iset<RState>, ss: seq<Stmt>, t: iset<RState>) {
    forall q :: q in t ==> exists r, b :: r in s && AllGo(ss, r, b, q)
  }

  ghost predicate NeverNull(s: iset<RState>, st: Stmt) {
    forall r, ch :: r in s ==> !Exec(st, r, ch).NullUse?
  }

  ghost predicate NeverNulls(s: iset<RState>, ss: seq<Stmt>) {
    forall r, ch :: r in s ==> !ExecAll(ss, r, ch).NullUse?
  }

  /** For everything in the table there is a state in which it is empty. */
  ghost predicate Blamed(c: Ctx, s: iset<RState>) {
    && Facts.Wf(c) && c.loopDepth == 0 && (exists r :: r in s)
    && (forall r :: r in s ==> r.vars.Keys == Facts.All(c))
    && (forall z :: z in Names(c.moved) && z in Facts.All(c) ==> exists r :: r in s && !Holds(r, z))
  }

  function StateOf(o: Out, r: RState): RState { if o.Normal? then o.r else r }

  lemma SimpleGoes(st: Stmt, r: RState)
    requires Simple(st) && Exec(Nulled(st), r, []).Normal?
    ensures Goes(Nulled(st), r, [], Exec(Nulled(st), r, []).r)
  {
    forall ch: seq<bool> ensures Exec(Nulled(st), r, [] + ch) == Normal(Exec(Nulled(st), r, []).r, ch) {
      assert [] + ch == ch;
    }
  }

  /** If nothing fails in the states given, the checker accepts, and blames what it blames with reason. */
  lemma SimpleCompletes(c: Ctx, st: Stmt, s: iset<RState>) returns (t: iset<RState>)
    requires Blamed(c, s) && Simple(st) && Facts.Scoped(st, Facts.All(c)) && NeverNull(s, Nulled(st))
    ensures c.scopes != [] && Analyze(c, st).Accepted? && Blamed(Analyze(c, st).c, t) && Leads(s, Nulled(st), t)
  {
    SimpleTable(c, st);
    NeedsScoped(st, Facts.All(c));
    Facts.WfTable(c);
    hide Facts.Wf;
    hide Facts.All;
    hide Analyze;
    hide Exec;
    hide Nulled;
    hide Names;
    hide Holds;
    hide Empty;
    hide Needs;
    hide Goes;
    hide Facts.After;
    hide Facts.Scoped;
    t := iset r | r in s :: StateOf(Exec(Nulled(st), r, []), r);
    forall r | r in s ensures StateOf(Exec(Nulled(st), r, []), r) in t
      && Goes(Nulled(st), r, [], StateOf(Exec(Nulled(st), r, []), r))
    {
      SimpleRuns(st, Facts.All(c), r, []);
      SimpleGoes(st, r);
    }
    if y :| y in Needs(st) && y in Names(c.moved) {
      var r :| r in s && !Holds(r, y);
      SimpleRuns(st, Facts.All(c), r, []);
    }
    SimpleBlamed(c, st, s, t);
  }

  lemma SimpleBlamed(c: Ctx, st: Stmt, s: iset<RState>, t: iset<RState>)
    requires Blamed(c, s) && Simple(st) && Facts.Scoped(st, Facts.All(c)) && NeverNull(s, Nulled(st))
    requires c.scopes != [] && Analyze(c, st).Accepted?
    requires t == iset r | r in s :: StateOf(Exec(Nulled(st), r, []), r)
    ensures Blamed(Analyze(c, st).c, t)
  {
    SimpleTable(c, st);
    var d := Analyze(c, st).c;
    hide Facts.Wf;
    hide Facts.All;
    hide Analyze;
    hide Exec;
    hide Nulled;
    hide Names;
    hide Holds;
    hide Empty;
    hide Facts.After;
    hide Facts.Scoped;
    forall r | r in s
      ensures var q := StateOf(Exec(Nulled(st), r, []), r);
        && q in t && q.vars.Keys == Facts.All(d)
        && forall z :: z in Facts.All(d) ==> (!Holds(q, z) <==> Empty(st, z, !Holds(r, z)))
    {
      SimpleRuns(st, Facts.All(c), r, []);
    }
    forall z | z in Names(d.moved) && z in Facts.All(d) ensures exists q :: q in t && !Holds(q, z) {
      var r := Culprit(c, st, s, z);
      assert !Holds(StateOf(Exec(Nulled(st), r, []), r), z) by { EmptyFrom(st, z, z in Names(c.moved), !Holds(r, z)); }
    }
  }

  /** A state in which what has been in the table is empty; any state, for what has not. */
  lemma Culprit(c: Ctx, st: Stmt, s: iset<RState>, z: string) returns (r: RState)
    requires Blamed(c, s) && (z in Names(c.moved) ==> z in Facts.After(Facts.All(c), st)) && Simple(st)
    requires Empty(st, z, z in Names(c.moved))
    ensures r in s && (z in Names(c.moved) ==> !Holds(r, z))
  {
    hide Facts.Wf;
    hide Facts.All;
    hide Names;
    hide Holds;
    if z in Names(c.moved) {
      assert z in Facts.All(c) by { assert !(st.Let? && z == st.x); }
      r :| r in s && !Holds(r, z);
    } else {
      r :| r in s;
    }
  }

  lemma EmptyFrom(st: Stmt, z: string, was: bool, now: bool)
    requires Empty(st, z, was) && (was ==> now)
    ensures Empty(st, z, now)
  {}

  // ----- Lists -----

  lemma NeverNullsParts(s: iset<RState>, ss: seq<Stmt>)
    requires NeverNulls(s, AllNulled(ss)) && ss != []
    ensures NeverNull(s, Nulled(ss[0]))
    ensures forall t :: Leads(s, Nulled(ss[0]), t) ==> NeverNulls(t, AllNulled(ss[1..]))
  {
    hide Exec;
    hide ExecAll;
    hide Nulled;
    hide AllNulled;
    hide Goes;
    forall r, ch | r in s ensures !Exec(Nulled(ss[0]), r, ch).NullUse? { NulledRun(ss, r, ch); }
    forall t, q, ch | Leads(s, Nulled(ss[0]), t) && q in t ensures !ExecAll(AllNulled(ss[1..]), q, ch).NullUse? {
      var r, b :| r in s && Goes(Nulled(ss[0]), r, b, q);
      NulledRun(ss, r, b + ch);
      GoesTo(Nulled(ss[0]), r, b, q, ch);
    }
  }

  lemma GoesTo(st: Stmt, r: RState, b: seq<bool>, q: RState, ch: seq<bool>)
    requires Goes(st, r, b, q)
    ensures Exec(st, r, b + ch) == Normal(q, ch)
  {}

  lemma AllGoTo(ss: seq<Stmt>, r: RState, b: seq<bool>, q: RState, ch: seq<bool>)
    requires AllGo(ss, r, b, q)
    ensures ExecAll(ss, r, b + ch) == Normal(q, ch)
  {}

  lemma LeadOn(s: iset<RState>, ss: seq<Stmt>, t: iset<RState>, u: iset<RState>)
    requires ss != [] && Leads(s, Nulled(ss[0]), t) && AllLead(t, AllNulled(ss[1..]), u)
    ensures AllLead(s, AllNulled(ss), u)
  {
    hide Exec;
    hide ExecAll;
    hide Nulled;
    hide AllNulled;
    hide Goes;
    hide AllGo;
    forall q | q in u ensures exists r, b :: r in s && AllGo(AllNulled(ss), r, b, q) {
      var m, b2 :| m in t && AllGo(AllNulled(ss[1..]), m, b2, q);
      var r, b1 :| r in s && Goes(Nulled(ss[0]), r, b1, m);
      GoOn(ss, r, b1, m, b2, q);
    }
  }

  lemma GoOn(ss: seq<Stmt>, r: RState, b1: seq<bool>, m: RState, b2: seq<bool>, q: RState)
    requires ss != [] && Goes(Nulled(ss[0]), r, b1, m) && AllGo(AllNulled(ss[1..]), m, b2, q)
    ensures AllGo(AllNulled(ss), r, b1 + b2, q)
  {
    hide Exec;
    hide Nulled;
    hide AllNulled;
    hide Goes;
    forall ch: seq<bool> ensures ExecAll(AllNulled(ss), r, b1 + b2 + ch) == Normal(q, ch) {
      assert b1 + b2 + ch == b1 + (b2 + ch);
      NulledRun(ss, r, b1 + (b2 + ch));
      GoesTo(Nulled(ss[0]), r, b1, m, b2 + ch);
      AllGoTo(AllNulled(ss[1..]), m, b2, q, ch);
    }
  }

  lemma LeadNowhere(s: iset<RState>)
    ensures AllLead(s, AllNulled([]), s)
  {
    forall r | r in s ensures AllGo(AllNulled([]), r, [], r) {
      forall ch: seq<bool> ensures ExecAll(AllNulled([]), r, [] + ch) == Normal(r, ch) { assert [] + ch == ch; }
    }
  }

  // ----- Blocks -----

  lemma InsideBlamed(c: Ctx, s: iset<RState>)
    requires Blamed(c, s)
    ensures Blamed(Facts.Inside(c, false), s) && Facts.All(Facts.Inside(c, false)) == Facts.All(c) && c.scopes != []
  {
    Release.InsideOutside(c, false);
    Facts.WfTable(c);
    hide Facts.Wf;
    hide Facts.All;
    hide Names;
    hide Holds;
  }

  lemma BlockNull(st: Stmt, s: iset<RState>)
    requires st.Block? && NeverNull(s, Nulled(st))
    ensures NeverNulls(s, AllNulled(st.body))
  {
    hide ExecAll;
    forall r, ch | r in s ensures !ExecAll(AllNulled(st.body), r, ch).NullUse? {
      assert !Exec(Nulled(st), r, ch).NullUse?;
    }
  }

  lemma BlockGoes(st: Stmt, r: RState, b: seq<bool>, q: RState, keys: set<string>)
    requires st.Block? && AllGo(AllNulled(st.body), r, b, q) && r.vars.Keys == keys
    ensures Goes(Nulled(st), r, b, Restrict(q, keys))
  {
    hide ExecAll;
    hide AllGo;
    forall ch: seq<bool> ensures Exec(Nulled(st), r, b + ch) == Normal(Restrict(q, keys), ch) {
      AllGoTo(AllNulled(st.body), r, b, q, ch);
      assert ReleaseAll(q, []) == q;
    }
  }

  lemma BlockTable(c: Ctx, st: Stmt)
    requires Facts.Wf(c) && c.loopDepth == 0 && st.Block? && Facts.Scoped(st, Facts.All(c)) && c.scopes != []
      && |c.scopes| < 128
    requires AnalyzeAll(Facts.Inside(c, false), st.body).AcceptedAll?
    ensures var d := AnalyzeAll(Facts.Inside(c, false), st.body).c; var v := Analyze(c, st);
      && v.Accepted? && v.c == c.(moved := d.moved) && Facts.Wf(v.c) && Facts.All(v.c) == Facts.All(c)
      && Facts.All(c) <= Facts.All(d)
  {
    assert Analyze(c, st) == AnalyzeBlock(c, st, false);
    Facts.KeptStmt(c, st);
    Release.InsideOutside(c, false);
    var declared := Facts.KeptAll(Facts.Inside(c, false), st.body);
    hide Facts.Wf;
    hide Facts.All;
    hide AnalyzeAll;
  }

  ghost function Left(s: iset<RState>, keys: set<string>): iset<RState> { iset q | q in s :: Restrict(q, keys) }

  lemma LeftIs(s: iset<RState>, keys: set<string>)
    ensures forall q :: q in s ==> Restrict(q, keys) in Left(s, keys)
    ensures forall p :: p in Left(s, keys) ==> exists q :: q in s && p == Restrict(q, keys)
  {}

  lemma LeftLeads(st: Stmt, s: iset<RState>, inner: iset<RState>, keys: set<string>)
    requires st.Block? && AllLead(s, AllNulled(st.body), inner) && forall r :: r in s ==> r.vars.Keys == keys
    ensures Leads(s, Nulled(st), Left(inner, keys))
  {
    LeftIs(inner, keys);
    hide Left;
    hide Restrict;
    hide Nulled;
    hide Goes;
    hide AllGo;
    forall p | p in Left(inner, keys) ensures exists r, b :: r in s && Goes(Nulled(st), r, b, p) {
      var q :| q in inner && p == Restrict(q, keys);
      var r, b :| r in s && AllGo(AllNulled(st.body), r, b, q);
      BlockGoes(st, r, b, q, keys);
    }
  }

  lemma LeftBlamed(c: Ctx, d: Ctx, inner: iset<RState>)
    requires Blamed(d, inner) && Facts.Wf(c) && c.loopDepth == 0 && c.moved == d.moved
      && Facts.All(c) <= Facts.All(d)
    ensures Blamed(c, Left(inner, Facts.All(c)))
  {
    var keys := Facts.All(c);
    LeftIs(inner, keys);
    hide Left;
    hide Facts.Wf;
    hide Facts.All;
    hide Names;
    forall q | q in inner ensures Restrict(q, keys).vars.Keys == keys
      && forall z :: z in keys ==> (Holds(Restrict(q, keys), z) <==> Holds(q, z))
    {}
    hide Restrict;
    hide Holds;
    forall z | z in Names(c.moved) && z in keys ensures exists p :: p in Left(inner, keys) && !Holds(p, z) {
      var q :| q in inner && !Holds(q, z);
      assert !Holds(Restrict(q, keys), z);
    }
  }

  lemma LeaveBlock(c: Ctx, st: Stmt, s: iset<RState>, inner: iset<RState>) returns (t: iset<RState>)
    requires Blamed(c, s) && st.Block? && Facts.Scoped(st, Facts.All(c)) && c.scopes != []
    requires var v := AnalyzeAll(Facts.Inside(c, false), st.body);
      v.AcceptedAll? && Blamed(v.c, inner) && |c.scopes| < 128
    requires AllLead(s, AllNulled(st.body), inner)
    ensures Analyze(c, st).Accepted? && Blamed(Analyze(c, st).c, t) && Leads(s, Nulled(st), t)
  {
    BlamedIs(c, s);
    hide *;
    BlockTable(c, st);
    t := Left(inner, Facts.All(c));
    LeftLeads(st, s, inner, Facts.All(c));
    LeftBlamed(Analyze(c, st).c, AnalyzeAll(Facts.Inside(c, false), st.body).c, inner);
  }

  lemma BlamedIs(c: Ctx, s: iset<RState>)
    requires Blamed(c, s)
    ensures Facts.Wf(c) && c.loopDepth == 0 && c.scopes != [] && forall r :: r in s ==> r.vars.Keys == Facts.All(c)
  {
    Facts.WfTable(c);
    hide Facts.Wf;
    hide Facts.All;
  }

  // ----- Branches: what is merged -----

  lemma {:induction false} RemarkSome(c: Ctx, m: seq<Moved>, adds: seq<Moved>)
    requires c.loopDepth == 0
    ensures Remark(c, m, adds).Some?
    decreases |adds|
  {
    hide Lookup;
    hide Mark;
    if adds != [] {
      RemarkSome(c, m, adds[1..]);
      RemarkSome(c, Mark(m, adds[0].name, adds[0].maybe), adds[1..]);
    }
  }

  lemma TailNames(m: seq<Moved>, n: nat)
    ensures Names(Tail(m, n)) <= Names(m)
  {
    forall x | x in Names(Tail(m, n)) ensures x in Names(m) {
      var i :| 0 <= i < |Tail(m, n)| && Tail(m, n)[i].name == x;
      assert m[n + i].name == x;
    }
  }

  /** A merge blames only what a table blames that flows into it, or the one before. */
  lemma MergeNames(c: Ctx, t: seq<Moved>, f: seq<Moved>, tEnds: bool, fEnds: bool, hasElse: bool)
    requires Facts.Wf(c) && Facts.TableOk(t) && Facts.TableOk(f) && Merge(c, t, f, tEnds, fEnds, hasElse).Some?
    ensures var m := Merge(c, t, f, tEnds, fEnds, hasElse).value;
      && Facts.TableOk(m)
      && (!(tEnds && fEnds) ==> forall x :: x in Names(m) ==>
        (!tEnds && x in Names(t)) || (!fEnds && x in Names(f)) || (!tEnds && !fEnds && x in Names(c.moved)))
      && (!tEnds && !fEnds ==> Names(c.moved) <= Names(m))
  {
    Facts.WfTable(c);
    var n := |c.moved|;
    TailNames(t, n);
    TailNames(f, n);
    Use.MaybeNames(Tail(t, n));
    Use.BothNames(Tail(t, n), Tail(f, n));
    Use.WithoutNames(Tail(f, n), Names(Tail(t, n)));
    Use.MaybeNames(Without(Tail(f, n), Names(Tail(t, n))));
    hide Facts.Wf;
    hide Facts.All;
    hide Facts.TableOk;
    hide Remark;
    hide Names;
    hide Tail;
    hide Both;
    hide AllMaybe;
    hide Without;
    if !tEnds && !fEnds {
      if !hasElse {
        Facts.RemarkNames(c, c.moved, AllMaybe(Tail(t, n)));
      } else {
        Facts.RemarkNames(c, c.moved, Both(Tail(t, n), Tail(f, n)));
        var m := Remark(c, c.moved, Both(Tail(t, n), Tail(f, n))).value;
        Facts.RemarkNames(c, m, AllMaybe(Without(Tail(f, n), Names(Tail(t, n)))));
      }
    }
  }

  lemma MergeSome(c: Ctx, t: seq<Moved>, f: seq<Moved>, tEnds: bool, fEnds: bool, hasElse: bool)
    requires c.loopDepth == 0
    ensures Merge(c, t, f, tEnds, fEnds, hasElse).Some?
  {
    var n := |c.moved|;
    hide Remark;
    RemarkSome(c, c.moved, AllMaybe(Tail(t, n)));
    RemarkSome(c, c.moved, Both(Tail(t, n), Tail(f, n)));
    var m := Remark(c, c.moved, Both(Tail(t, n), Tail(f, n))).value;
    RemarkSome(c, m, AllMaybe(Without(Tail(f, n), Names(Tail(t, n)))));
  }

  // ----- Branches: what is run -----

  lemma CondFine(c: Ctx, st: Stmt, s: iset<RState>)
    requires Blamed(c, s) && st.If? && OnlyLooks(st.cond) && Facts.Scoped(st, Facts.All(c))
    requires NeverNull(s, Nulled(st))
    ensures CondAllowed(c, st.cond) && forall r :: r in s ==> CondRuns(r, st.cond)
  {
    forall r | r in s ensures CondRuns(r, st.cond) { assert !Exec(Nulled(st), r, []).NullUse?; }
    hide Exec;
    hide Nulled;
    hide Facts.Wf;
    hide Facts.All;
    hide Names;
    hide Holds;
    forall k | 0 <= k < |st.cond| ensures st.cond[k].y !in Names(c.moved) {
      assert forall r :: r in s ==> Holds(r, st.cond[k].y);
    }
  }

  /** Taking the branch that `first` stands for. */
  lemma IfExec(st: Stmt, r: RState, first: bool, ch: seq<bool>)
    requires st.If? && CondRuns(r, st.cond)
    ensures Exec(Nulled(st), r, [first] + ch) ==
      if first then Exec(Nulled(st.thenB), r, ch)
      else if st.elseB.Some? then Exec(Nulled(st.elseB.value), r, ch) else Normal(r, ch)
  { assert ([first] + ch)[0] == first && ([first] + ch)[1..] == ch; }

  lemma IfNull(st: Stmt, s: iset<RState>)
    requires st.If? && NeverNull(s, Nulled(st)) && forall r :: r in s ==> CondRuns(r, st.cond)
    ensures NeverNull(s, Nulled(st.thenB)) && (st.elseB.Some? ==> NeverNull(s, Nulled(st.elseB.value)))
  {
    hide Exec;
    hide Nulled;
    hide CondRuns;
    forall r, ch | r in s
      ensures !Exec(Nulled(st.thenB), r, ch).NullUse?
        && (st.elseB.Some? ==> !Exec(Nulled(st.elseB.value), r, ch).NullUse?)
    {
      IfExec(st, r, true, ch);
      IfExec(st, r, false, ch);
    }
  }

  lemma IfGoes(st: Stmt, r: RState, first: bool, b: seq<bool>, q: RState)
    requires st.If? && CondRuns(r, st.cond)
    requires if first then Goes(Nulled(st.thenB), r, b, q)
      else if st.elseB.Some? then Goes(Nulled(st.elseB.value), r, b, q) else b == [] && q == r
    ensures Goes(Nulled(st), r, [first] + b, q)
  {
    hide Exec;
    hide Nulled;
    hide CondRuns;
    hide Goes;
    forall ch: seq<bool> ensures Exec(Nulled(st), r, [first] + b + ch) == Normal(q, ch) {
      assert [first] + b + ch == [first] + (b + ch);
      IfExec(st, r, first, b + ch);
      if first { GoesTo(Nulled(st.thenB), r, b, q, ch); }
      else if st.elseB.Some? { GoesTo(Nulled(st.elseB.value), r, b, q, ch); }
      else { assert b + ch == ch; }
    }
    GoesIs(Nulled(st), r, [first] + b, q);
  }

  lemma GoesIs(st: Stmt, r: RState, b: seq<bool>, q: RState)
    requires forall ch: seq<bool> {:trigger Exec(st, r, b + ch)} :: Exec(st, r, b + ch) == Normal(q, ch)
    ensures Goes(st, r, b, q)
  {}

  lemma IfLeads(st: Stmt, s: iset<RState>, first: bool, t: iset<RState>)
    requires st.If? && forall r :: r in s ==> CondRuns(r, st.cond)
    requires if first then Leads(s, Nulled(st.thenB), t)
      else if st.elseB.Some? then Leads(s, Nulled(st.elseB.value), t) else t == s
    ensures Leads(s, Nulled(st), t)
  {
    hide Nulled;
    hide CondRuns;
    hide Goes;
    forall q | q in t ensures exists r, b :: r in s && Goes(Nulled(st), r, b, q) {
      if first {
        var r, b :| r in s && Goes(Nulled(st.thenB), r, b, q);
        IfGoes(st, r, true, b, q);
      } else if st.elseB.Some? {
        var r, b :| r in s && Goes(Nulled(st.elseB.value), r, b, q);
        IfGoes(st, r, false, b, q);
      } else {
        IfGoes(st, q, false, [], q);
      }
    }
  }

  lemma LeadsBoth(st: Stmt, s: iset<RState>, t: iset<RState>, u: iset<RState>)
    requires Leads(s, st, t) && Leads(s, st, u)
    ensures Leads(s, st, t + u)
  { hide Goes; }

  /** Blame shared by two tables is blame of one of them. */
  lemma BlamedBoth(c: Ctx, d: Ctx, e: Ctx, m: seq<Moved>, t: iset<RState>, u: iset<RState>)
    requires Blamed(d, t) && Blamed(e, u) && d == c.(moved := d.moved) && e == c.(moved := e.moved)
    requires Facts.Wf(c.(moved := m)) && c.loopDepth == 0
    requires forall z :: z in Names(m) && z in Facts.All(c) ==> z in Names(d.moved) || z in Names(e.moved)
    ensures Blamed(c.(moved := m), t + u)
  {
    Conv.SameScopes(c, d);
    Conv.SameScopes(c, e);
    Conv.SameScopes(c, c.(moved := m));
    hide Facts.Wf;
    hide Facts.All;
    hide Names;
    hide Holds;
    forall z | z in Names(m) && z in Facts.All(c) ensures exists q :: q in t + u && !Holds(q, z) {
      if z in Names(d.moved) {
        var q :| q in t && !Holds(q, z);
        assert q in t + u;
      } else {
        var q :| q in u && !Holds(q, z);
        assert q in t + u;
      }
    }
  }

  lemma BlamedOne(c: Ctx, d: Ctx, m: seq<Moved>, t: iset<RState>)
    requires Blamed(d, t) && d == c.(moved := d.moved) && Facts.Wf(c.(moved := m)) && c.loopDepth == 0
    requires forall z :: z in Names(m) && z in Facts.All(c) ==> z in Names(d.moved)
    ensures Blamed(c.(moved := m), t)
  {
    Conv.SameScopes(c, d);
    Conv.SameScopes(c, c.(moved := m));
    hide Facts.Wf;
    hide Facts.All;
    hide Names;
    hide Holds;
  }

  lemma MergeHolds(c: Ctx, m: seq<Moved>)
    requires Facts.Wf(c) && Facts.TableOk(m)
    ensures Facts.Wf(c.(moved := m))
  { Facts.SameScopes(c, c.(moved := m)); }

  /** A branch is a block or another `if`: scopes stay as they are. */
  lemma BranchScopes(c: Ctx, st: Stmt)
    requires c.scopes != [] && (st.Block? || st.If?) && Analyze(c, st).Accepted?
    ensures var d := Analyze(c, st).c; d == c.(moved := d.moved)
  {
    if st.Block? { assert Analyze(c, st) == AnalyzeBlock(c, st, false); }
    else { assert Analyze(c, st) == AnalyzeIf(c, st); }
  }

  ghost function ElseTable(c: Ctx, st: Stmt): seq<Moved>
    requires c.scopes != [] && st.If? && (st.elseB.Some? ==> Analyze(c, st.elseB.value).Accepted?)
  { if st.elseB.Some? then Analyze(c, st.elseB.value).c.moved else c.moved }

  predicate ElseEnds(st: Stmt)
    requires st.If?
  { st.elseB.Some? && EndsInJump(st.elseB.value) }

  lemma IfAnalyzed(c: Ctx, st: Stmt, m: seq<Moved>)
    requires c.scopes != [] && st.If? && CondAllowed(c, st.cond) && Analyze(c, st.thenB).Accepted?
      && (st.elseB.Some? ==> Analyze(c, st.elseB.value).Accepted?)
    requires Merge(c, Analyze(c, st.thenB).c.moved, ElseTable(c, st), EndsInJump(st.thenB), ElseEnds(st),
      st.elseB.Some?) == Some(m)
    ensures Analyze(c, st).Accepted? && Analyze(c, st).c == c.(moved := m)
  {
    assert Analyze(c, st) == AnalyzeIf(c, st);
    hide Merge;
    hide CondAllowed;
    hide EndsInJump;
  }

  lemma BranchTables(c: Ctx, st: Stmt)
    requires Facts.Wf(c) && c.scopes != [] && st.If? && Facts.Scoped(st, Facts.All(c))
    requires Analyze(c, st.thenB).Accepted? && (st.elseB.Some? ==> Analyze(c, st.elseB.value).Accepted?)
    ensures Facts.TableOk(Analyze(c, st.thenB).c.moved) && Facts.TableOk(ElseTable(c, st))
  {
    Facts.KeptStmt(c, st.thenB);
    Facts.WfTable(Analyze(c, st.thenB).c);
    Facts.WfTable(c);
    if st.elseB.Some? {
      Facts.KeptStmt(c, st.elseB.value);
      Facts.WfTable(Analyze(c, st.elseB.value).c);
    }
    hide Facts.Wf;
    hide Facts.All;
    hide Analyze;
  }

  /** What the checker makes of an `if` whose branches it accepts. */
  lemma IfTable(c: Ctx, st: Stmt)
    requires Facts.Wf(c) && c.loopDepth == 0 && c.scopes != [] && st.If? && Facts.Scoped(st, Facts.All(c))
    requires CondAllowed(c, st.cond) && Analyze(c, st.thenB).Accepted?
      && (st.elseB.Some? ==> Analyze(c, st.elseB.value).Accepted?)
    requires !(EndsInJump(st.thenB) && ElseEnds(st)) && forall z :: !Revives(c, st, z)
    ensures var v := Analyze(c, st); v.Accepted? && v.c == c.(moved := v.c.moved) && Facts.Wf(v.c)
    ensures var m := Analyze(c, st).c.moved; forall z :: z in Names(m) && z in Facts.All(c) ==>
      || (!EndsInJump(st.thenB) && z in Names(Analyze(c, st.thenB).c.moved))
      || (!ElseEnds(st) && z in Names(ElseTable(c, st)))
  {
    hide *;
    var t, f := Analyze(c, st.thenB).c.moved, ElseTable(c, st);
    BranchTables(c, st);
    MergeSome(c, t, f, EndsInJump(st.thenB), ElseEnds(st), st.elseB.Some?);
    MergeNames(c, t, f, EndsInJump(st.thenB), ElseEnds(st), st.elseB.Some?);
    var m := Merge(c, t, f, EndsInJump(st.thenB), ElseEnds(st), st.elseB.Some?).value;
    IfAnalyzed(c, st, m);
    MergeHolds(c, m);
    forall z | z in Names(m) && z in Facts.All(c)
      ensures (!EndsInJump(st.thenB) && z in Names(t)) || (!ElseEnds(st) && z in Names(f))
    {
      if !EndsInJump(st.thenB) && !ElseEnds(st) && z in Names(c.moved) { NotRevived(c, st, z); }
    }
  }

  lemma NotRevived(c: Ctx, st: Stmt, z: string)
    requires c.scopes != [] && st.If? && !Revives(c, st, z) && z in Facts.All(c) && z in Names(c.moved)
    requires Analyze(c, st.thenB).Accepted? && (st.elseB.Some? ==> Analyze(c, st.elseB.value).Accepted?)
    requires !EndsInJump(st.thenB) && !ElseEnds(st)
    ensures z in Names(Analyze(c, st.thenB).c.moved) || z in Names(ElseTable(c, st))
  {
    hide Analyze;
    hide Names;
    hide Facts.All;
    hide EndsInJump;
  }

  // ----- Loop-free functions -----

  lemma BodyEnds(st: Stmt)
    requires st.Block? && AllFlowing(st.body, true)
    ensures EndsInJump(st) <==> st.body != [] && st.body[|st.body|-1].Return?
  { if st.body != [] { LastFlowing(st.body, true); } }

  lemma {:induction false} LastFlowing(ss: seq<Stmt>, mayReturn: bool)
    requires AllFlowing(ss, mayReturn) && ss != []
    ensures var last := ss[|ss|-1]; last.Return? || (Flowing(last) && !IsJump(last))
    ensures ss[|ss|-1].Return? ==> mayReturn
    decreases |ss|
  {
    if |ss| > 1 {
      LastFlowing(ss[1..], mayReturn);
    }
  }

  lemma NoReturnInside(ss: seq<Stmt>)
    requires AllFlowing(ss, false)
    ensures ss == [] || !ss[|ss|-1].Return?
  { if ss != [] { LastFlowing(ss, false); } }

  lemma {:induction false} StmtCompletes(c: Ctx, st: Stmt, s: iset<RState>) returns (t: iset<RState>)
    requires Blamed(c, s) && c.scopes != [] && Facts.Scoped(st, Facts.All(c)) && Flowing(st) && Unrevived(c, st)
    requires |c.scopes| + Depth(st) <= 128 && NeverNull(s, Nulled(st))
    ensures Analyze(c, st).Accepted? && Blamed(Analyze(c, st).c, t) && Leads(s, Nulled(st), t)
    decreases st, 2
  {
    if st.If? {
      t := IfCompletes(c, st, s);
    } else if st.Block? {
      NoReturnInside(st.body);
      t := BlockCompletes(c, st, s, false);
    } else {
      t := SimpleCompletes(c, st, s);
    }
  }

  lemma {:induction false} BranchCompletes(c: Ctx, st: Stmt, s: iset<RState>) returns (t: iset<RState>)
    requires Blamed(c, s) && c.scopes != [] && Facts.Scoped(st, Facts.All(c)) && Branch(st) && Unrevived(c, st)
    requires |c.scopes| + Depth(st) <= 128 && NeverNull(s, Nulled(st)) && (st.Block? || st.If?)
    ensures Analyze(c, st).Accepted?
    ensures !EndsInJump(st) ==> Blamed(Analyze(c, st).c, t) && Leads(s, Nulled(st), t)
    decreases st, 3
  {
    if st.Block? {
      BodyEnds(st);
      t := BlockCompletes(c, st, s, true);
    } else {
      t := StmtCompletes(c, st, s);
    }
  }

  lemma {:induction false} BlockCompletes(c: Ctx, st: Stmt, s: iset<RState>, mayReturn: bool)
      returns (t: iset<RState>)
    requires Blamed(c, s) && c.scopes != [] && Facts.Scoped(st, Facts.All(c)) && Unrevived(c, st)
    requires st.Block? && AllFlowing(st.body, mayReturn)
    requires |c.scopes| + Depth(st) <= 128 && NeverNull(s, Nulled(st))
    ensures Analyze(c, st).Accepted?
    ensures (st.body == [] || !st.body[|st.body|-1].Return?) ==>
      Blamed(Analyze(c, st).c, t) && Leads(s, Nulled(st), t)
    decreases st, 1
  {
    hide *;
    InsideBlamed(c, s);
    BlamedIs(c, s);
    BlockNull(st, s);
    BodyParts(c, st);
    var inner := AllComplete(Facts.Inside(c, false), st.body, s, mayReturn);
    BlockTable(c, st);
    t := inner;
    if st.body == [] || !st.body[|st.body|-1].Return? { t := LeaveBlock(c, st, s, inner); }
  }

  lemma BodyParts(c: Ctx, st: Stmt)
    requires c.scopes != [] && st.Block? && Facts.Scoped(st, Facts.All(c)) && Unrevived(c, st)
    ensures var inner := Facts.Inside(c, false);
      && inner.scopes != [] && |inner.scopes| == |c.scopes| + 1 && Depth(st) == 1 + MaxDepth(st.body)
      && Facts.ScopedAll(st.body, Facts.All(c)) && AllUnrevived(inner, st.body)
  {
    hide Facts.All;
    hide Facts.ScopedAll;
    hide AllUnrevived;
  }

  lemma {:induction false} IfCompletes(c: Ctx, st: Stmt, s: iset<RState>) returns (t: iset<RState>)
    requires Blamed(c, s) && c.scopes != [] && Facts.Scoped(st, Facts.All(c)) && Flowing(st) && Unrevived(c, st)
    requires |c.scopes| + Depth(st) <= 128 && NeverNull(s, Nulled(st)) && st.If?
    ensures Analyze(c, st).Accepted? && Blamed(Analyze(c, st).c, t) && Leads(s, Nulled(st), t)
    decreases st, 1
  {
    BlamedIs(c, s);
    CondFine(c, st, s);
    IfNull(st, s);
    var a := BranchCompletes(c, st.thenB, s);
    var b := s;
    if st.elseB.Some? { b := BranchCompletes(c, st.elseB.value, s); }
    IfTable(c, st);
    t := IfJoins(c, st, s, a, b);
  }

  lemma IfJoins(c: Ctx, st: Stmt, s: iset<RState>, a: iset<RState>, b: iset<RState>) returns (t: iset<RState>)
    requires Blamed(c, s) && c.scopes != [] && st.If? && Facts.Scoped(st, Facts.All(c))
      && forall r :: r in s ==> CondRuns(r, st.cond)
    requires Analyze(c, st.thenB).Accepted? && (st.elseB.Some? ==> Analyze(c, st.elseB.value).Accepted?)
    requires !EndsInJump(st.thenB) ==> Blamed(Analyze(c, st.thenB).c, a) && Leads(s, Nulled(st.thenB), a)
    requires st.elseB.None? ==> b == s
    requires st.elseB.Some? && !ElseEnds(st) ==>
      Blamed(Analyze(c, st.elseB.value).c, b) && Leads(s, Nulled(st.elseB.value), b)
    requires !(EndsInJump(st.thenB) && ElseEnds(st))
    requires var v := Analyze(c, st); v.Accepted? && v.c == c.(moved := v.c.moved) && Facts.Wf(v.c)
    requires var m := Analyze(c, st).c.moved; forall z :: z in Names(m) && z in Facts.All(c) ==>
      || (!EndsInJump(st.thenB) && z in Names(Analyze(c, st.thenB).c.moved))
      || (!ElseEnds(st) && z in Names(ElseTable(c, st)))
    ensures Blamed(Analyze(c, st).c, t) && Leads(s, Nulled(st), t)
  {
    var m := Analyze(c, st).c.moved;
    var d := Analyze(c, st.thenB).c;
    var e := c.(moved := ElseTable(c, st));
    BlamedIs(c, s);
    ScopedBranches(st, Facts.All(c));
    BranchScopes(c, st.thenB);
    if st.elseB.Some? { BranchScopes(c, st.elseB.value); }
    hide *;
    if ElseEnds(st) {
      t := a;
      IfLeads(st, s, true, a);
      BlamedOne(c, d, m, a);
    } else if EndsInJump(st.thenB) {
      t := b;
      IfLeads(st, s, false, b);
      BlamedOne(c, e, m, b);
    } else {
      t := a + b;
      IfLeads(st, s, true, a);
      IfLeads(st, s, false, b);
      LeadsBoth(Nulled(st), s, a, b);
      BlamedBoth(c, d, e, m, a, b);
    }
  }

  lemma ScopedBranches(st: Stmt, scope: set<string>)
    requires st.If? && Facts.Scoped(st, scope)
    ensures st.thenB.Block? && Facts.Scoped(st.thenB, scope)
    ensures st.elseB.Some? ==> (st.elseB.value.Block? || st.elseB.value.If?) && Facts.Scoped(st.elseB.value, scope)
  {}

  lemma {:induction false} AllComplete(c: Ctx, ss: seq<Stmt>, s: iset<RState>, mayReturn: bool)
      returns (t: iset<RState>)
    requires Blamed(c, s) && c.scopes != [] && Facts.ScopedAll(ss, Facts.All(c)) && AllFlowing(ss, mayReturn)
    requires AllUnrevived(c, ss) && |c.scopes| + MaxDepth(ss) <= 128 && NeverNulls(s, AllNulled(ss))
    ensures AnalyzeAll(c, ss).AcceptedAll?
    ensures (ss == [] || !ss[|ss|-1].Return?) ==>
      Blamed(AnalyzeAll(c, ss).c, t) && AllLead(s, AllNulled(ss), t)
    decreases ss, 0
  {
    hide *;
    t := s;
    if ss == [] {
      LeadNowhere(s);
      NothingAnalyzed(c);
    } else if |ss| == 1 && ss[0].Return? {
      ReturnCompletes(c, ss, s);
    } else {
      NeverNullsParts(s, ss);
      BlamedIs(c, s);
      FlowingParts(c, ss, mayReturn);
      var u := StmtCompletes(c, ss[0], s);
      ScopeAfter(c, ss[0]);
      AnalyzedParts(c, ss);
      t := AllComplete(Analyze(c, ss[0]).c, ss[1..], u, mayReturn);
      if !ss[|ss|-1].Return? { LeadOn(s, ss, u, t); }
    }
  }

  lemma NothingAnalyzed(c: Ctx)
    requires c.scopes != []
    ensures AnalyzeAll(c, []) == AcceptedAll(c, [])
  {}

  lemma FlowingParts(c: Ctx, ss: seq<Stmt>, mayReturn: bool)
    requires c.scopes != [] && Facts.ScopedAll(ss, Facts.All(c)) && AllFlowing(ss, mayReturn) && AllUnrevived(c, ss)
    requires ss != [] && !(|ss| == 1 && ss[0].Return?)
    ensures Facts.Scoped(ss[0], Facts.All(c)) && Facts.ScopedAll(ss[1..], Facts.After(Facts.All(c), ss[0]))
    ensures Flowing(ss[0]) && AllFlowing(ss[1..], mayReturn) && Unrevived(c, ss[0])
    ensures Analyze(c, ss[0]).Accepted? ==> AllUnrevived(Analyze(c, ss[0]).c, ss[1..])
    ensures Depth(ss[0]) <= MaxDepth(ss) && MaxDepth(ss[1..]) <= MaxDepth(ss)
    ensures |ss| > 1 ==> ss[1..][|ss[1..]|-1] == ss[|ss|-1]
    ensures |ss| == 1 ==> !ss[0].Return?
  {
    hide Facts.All;
    hide Analyze;
    hide Flowing;
    hide Facts.Scoped;
    hide Depth;
    hide Unrevived;
  }

  lemma ScopeAfter(c: Ctx, st: Stmt)
    requires Facts.Wf(c) && c.scopes != [] && Facts.Scoped(st, Facts.All(c)) && Analyze(c, st).Accepted?
    ensures var d := Analyze(c, st).c;
      Facts.All(d) == Facts.After(Facts.All(c), st) && |d.scopes| == |c.scopes| && d.scopes != []
  {
    Facts.KeptStmt(c, st);
    hide Facts.Wf;
    hide Facts.All;
    hide Analyze;
    hide Facts.Outside;
  }

  lemma AnalyzedParts(c: Ctx, ss: seq<Stmt>)
    requires c.scopes != [] && ss != [] && Analyze(c, ss[0]).Accepted?
    ensures var d := Analyze(c, ss[0]).c;
      && d.scopes != [] && (AnalyzeAll(c, ss).AcceptedAll? <==> AnalyzeAll(d, ss[1..]).AcceptedAll?)
      && (AnalyzeAll(c, ss).AcceptedAll? ==> AnalyzeAll(c, ss).c == AnalyzeAll(d, ss[1..]).c)
  { hide Analyze; }

  lemma ReturnCompletes(c: Ctx, ss: seq<Stmt>, s: iset<RState>)
    requires Blamed(c, s) && c.scopes != [] && Facts.ScopedAll(ss, Facts.All(c)) && |ss| == 1 && ss[0].Return?
    requires NeverNulls(s, AllNulled(ss))
    ensures AnalyzeAll(c, ss).AcceptedAll?
  {
    NeverNullsParts(s, ss);
    OneAnalyzed(c, ss);
    var st := ss[0];
    if st.value.Some? {
      Facts.LookupIs(c, st.value.value);
      forall r | r in s ensures Holds(r, st.value.value) { assert !Exec(Nulled(st), r, []).NullUse?; }
    }
    hide Facts.Wf;
    hide Facts.All;
    hide Names;
    hide Holds;
    hide Lookup;
    hide AllNulled;
    hide ExecAll;
  }

  lemma EntryBlamed(f: Function)
    requires Release.WellScoped(f)
    ensures Blamed(Start(f.params), iset{Entry(f.params)}) && Facts.ScopedAll(f.body, Facts.All(Start(f.params)))
  {
    EntryMirrored(f);
    assert Entry(f.params) in iset{Entry(f.params)};
    hide Facts.Wf;
    hide Facts.All;
    hide Facts.ScopedAll;
    hide Entry;
    hide Holds;
  }

  lemma FunctionCompletes(f: Function)
    requires Release.WellScoped(f) && AllFlowing(f.body, true) && AllUnrevived(Start(f.params), f.body)
    requires MaxDepth(f.body) <= 127 && NeverNulls(iset{Entry(f.params)}, AllNulled(f.body))
    ensures Check(f).AcceptedAll?
  {
    EntryBlamed(f);
    var t := AllComplete(Start(f.params), f.body, iset{Entry(f.params)}, true);
  }

  /** A loop-free function, none of whose variables is given a new value in both branches of an `if` while the checker
      holds it for moved, is refused only if some run of it uses what has been given away. */
  lemma RejectedOnlyWhenNull(f: Function)
    requires Release.WellScoped(f) && AllFlowing(f.body, true) && AllUnrevived(Start(f.params), f.body)
    requires MaxDepth(f.body) <= 127 && Check(f).RejectedAll?
    ensures exists ch :: ExecAll(AllNulled(f.body), Entry(f.params), ch).NullUse?
  {
    hide ExecAll;
    hide AllNulled;
    hide Entry;
    hide Check;
    hide AllUnrevived;
    hide AllFlowing;
    hide Release.WellScoped;
    if forall ch :: !ExecAll(AllNulled(f.body), Entry(f.params), ch).NullUse? { FunctionCompletes(f); }
  }

  /** Taking a variable in a condition is always refused. */
  lemma TakenInCondition(c: Ctx, st: Stmt, k: nat)
    requires Facts.Wf(c) && c.scopes != [] && (st.If? || st.While?) && k < |st.cond|
    requires st.cond[k].Takes? && st.cond[k].y in Facts.All(c)
    ensures Analyze(c, st).Rejected?
  {
    Facts.LookupIs(c, st.cond[k].y);
    hide Facts.Wf;
    hide Facts.All;
    hide UseAllowed;
    assert !CondAllowed(c, st.cond);
    assert Lookup(c.(loopDepth := c.loopDepth + 1), st.cond[k].y) == Lookup(c, st.cond[k].y);
    assert !CondAllowed(c.(loopDepth := c.loopDepth + 1), st.cond);
  }

  // ----- What is refused without reason -----

  /** What the table holds before an `if`, it holds after it, whatever the branches have done about it. */
  lemma StaysInTable(c: Ctx, st: Stmt)
    requires Use.Entered(c, st) && c.scopes != [] && st.If? && !EndsInJump(st.thenB) && !ElseEnds(st)
    ensures Names(c.moved) <= Names(Analyze(c, st).c.moved)
    ensures Analyze(c, st.thenB).Accepted? && (st.elseB.Some? ==> Analyze(c, st.elseB.value).Accepted?)
    ensures var m := Analyze(c, st).c.moved; forall z :: z in Names(m) && z in Facts.All(c) && !Revives(c, st, z) ==>
      z in Names(Analyze(c, st.thenB).c.moved) || z in Names(ElseTable(c, st))
  {
    hide *;
    EnteredIf(c, st);
    BranchTables(c, st);
    MergeNames(c, Analyze(c, st.thenB).c.moved, ElseTable(c, st), false, false, st.elseB.Some?);
    var m := Analyze(c, st).c.moved;
    forall z | z in Names(m) && z in Facts.All(c) && !Revives(c, st, z)
      ensures z in Names(Analyze(c, st.thenB).c.moved) || z in Names(ElseTable(c, st))
    {
      if z in Names(c.moved) { NotRevived(c, st, z); }
    }
  }

  lemma EnteredIf(c: Ctx, st: Stmt)
    requires Use.Entered(c, st) && c.scopes != [] && st.If? && !EndsInJump(st.thenB) && !ElseEnds(st)
    ensures Facts.Wf(c) && Facts.Scoped(st, Facts.All(c))
    ensures Analyze(c, st).Accepted? && Analyze(c, st.thenB).Accepted?
      && (st.elseB.Some? ==> Analyze(c, st.elseB.value).Accepted?)
    ensures Merge(c, Analyze(c, st.thenB).c.moved, ElseTable(c, st), false, false,
      st.elseB.Some?) == Some(Analyze(c, st).c.moved)
  {
    assert Analyze(c, st) == AnalyzeIf(c, st);
    hide Facts.Wf;
    hide Facts.All;
    hide Merge;
    hide CondAllowed;
    hide EndsInJump;
  }

  /** Some run through the `if` from a possible state leaves `z` empty. */
  ghost predicate EmptyOnSomePath(c: Ctx, st: Stmt, z: string)
    requires Use.Entered(c, st)
  {
    exists r, first ::
      Conv.Possible(c, r) && var o := Exec(Analyze(c, st).st, r, [first]); o.Normal? && !Holds(o.r, z)
  }

  /** After an `if` with branches free of nested control, everything the checker blames is empty on some path, exactly
      when no variable of the table has got a new value in both branches. */
  lemma IfBlamesExactlyWhen(c: Ctx, st: Stmt)
    requires Use.Entered(c, st) && c.scopes != [] && Conv.PlainIf(st)
    ensures (forall z :: !Revives(c, st, z)) <==>
      forall z :: z in Facts.All(c) && z in Names(Analyze(c, st).c.moved) ==> EmptyOnSomePath(c, st, z)
  {
    Conv.PlainIfParts(c, st);
    hide *;
    PlainEnds(st);
    StaysInTable(c, st);
    forall z | z in Facts.All(c) && z in Names(Analyze(c, st).c.moved)
      ensures EmptyOnSomePath(c, st, z) <==> !Revives(c, st, z)
    {
      if Revives(c, st, z) {
        RevivedIsFull(c, st, z);
      } else {
        BlamedOnPath(c, st, z, z in Names(Analyze(c, st.thenB).c.moved));
      }
    }
    forall z | Revives(c, st, z) ensures z in Facts.All(c) && z in Names(c.moved) { RevivedIs(c, st, z); }
  }

  lemma PlainEnds(st: Stmt)
    requires Conv.PlainIf(st)
    ensures st.If? && !EndsInJump(st.thenB) && !ElseEnds(st)
  {}

  lemma RevivedIs(c: Ctx, st: Stmt, z: string)
    requires c.scopes != [] && st.If? && Revives(c, st, z)
    ensures z in Facts.All(c) && z in Names(c.moved)
  {
    hide Facts.All;
    hide Analyze;
    hide Names;
  }

  lemma TableOfBranch(c: Ctx, st: Stmt, first: bool)
    requires c.scopes != [] && st.If? && Analyze(c, st.thenB).Accepted?
      && (st.elseB.Some? ==> Analyze(c, st.elseB.value).Accepted?)
    ensures Conv.BranchTable(c, st, first) == if first then Analyze(c, st.thenB).c.moved else ElseTable(c, st)
  { hide Analyze; }

  lemma BlamedOnPath(c: Ctx, st: Stmt, z: string, first: bool)
    requires Use.Entered(c, st) && c.scopes != [] && Conv.PlainIf(st) && z in Facts.All(c)
    requires Analyze(c, st.thenB).Accepted? && (st.elseB.Some? ==> Analyze(c, st.elseB.value).Accepted?)
    requires z in Names(if first then Analyze(c, st.thenB).c.moved else ElseTable(c, st))
    ensures EmptyOnSomePath(c, st, z)
  {
    Conv.SureNames(c.moved);
    var gone := Facts.All(c) * Names(c.moved);
    var r := Conv.SomeState(c, gone);
    TableOfBranch(c, st, first);
    hide Facts.Wf;
    hide Facts.All;
    hide Exact;
    hide Names;
    hide Use.Good;
    hide Exec;
    hide Analyze;
    hide Conv.Nulls;
    hide Conv.BranchTable;
    Conv.IfRuns(c, st, r, first);
    Conv.PassedIn(Conv.BranchBody(st, first), Names(c.moved), Facts.All(c));
    Conv.NullIn(Exec(Analyze(c, st).st, r, [first]).r, Facts.All(c), z);
  }

  lemma RevivedIsFull(c: Ctx, st: Stmt, z: string)
    requires Use.Entered(c, st) && c.scopes != [] && Conv.PlainIf(st) && Revives(c, st, z)
    ensures !EmptyOnSomePath(c, st, z)
  {
    forall r, first | Conv.Possible(c, r)
      ensures var o := Exec(Analyze(c, st).st, r, [first]); o.Normal? ==> Holds(o.r, z)
    {
      RevivedHolds(c, st, z, r, first);
    }
    hide Conv.Possible;
    hide Exec;
    hide Analyze;
    hide Revives;
    hide Use.Entered;
    hide Holds;
  }

  lemma RevivedHolds(c: Ctx, st: Stmt, z: string, r: RState, first: bool)
    requires Use.Entered(c, st) && c.scopes != [] && Conv.PlainIf(st) && Revives(c, st, z) && Conv.Possible(c, r)
    ensures var o := Exec(Analyze(c, st).st, r, [first]); o.Normal? ==> Holds(o.r, z)
  {
    NullsNamed(c, r);
    hide Facts.Wf;
    hide Facts.All;
    hide Exact;
    hide Names;
    hide Use.Good;
    hide Exec;
    hide Analyze;
    hide Conv.Nulls;
    Conv.IfRuns(c, st, r, first);
    Conv.PassedMore(Conv.BranchBody(st, first), Conv.Nulls(r, Facts.All(c)), Names(c.moved));
    TableOfBranch(c, st, first);
    Conv.NullIn(Exec(Analyze(c, st).st, r, [first]).r, Facts.All(c), z);
  }

  lemma NullsNamed(c: Ctx, r: RState)
    requires Conv.Possible(c, r)
    ensures Conv.Nulls(r, Facts.All(c)) <= Names(c.moved)
  {
    hide Facts.Wf;
    hide Facts.All;
    hide Names;
    hide Exact;
    hide Release.Sane;
  }

  /** `consume x; if { x = new; } else { x = new; } read x`. */
  const REVIVED := Function(["x"], [Consume("x", BLANK),
    If([], Block([Assign("x", New, BLANK)], BLANK), Some(Block([Assign("x", New, BLANK)], BLANK))), Borrow("x")])

  lemma {:induction false} ScopedRevived()
    ensures Release.WellScoped(REVIVED)
  {
    Limits.OneParam();
    var a := Assign("x", New, BLANK);
    Limits.ScopedOne(a, {"x"});
    Limits.ScopedThree(REVIVED.body[0], REVIVED.body[1], REVIVED.body[2], {"x"});
  }

  lemma AnalyzedOne(c: Ctx, st: Stmt)
    requires c.scopes != [] && Analyze(c, st).Accepted?
    ensures AnalyzeAll(c, [st]).AcceptedAll? && AnalyzeAll(c, [st]).c == Analyze(c, st).c
  {
    hide Analyze;
    assert [st][1..] == [];
  }

  const RENEW := Assign("x", New, BLANK)

  lemma RenewAccepted(c: Ctx)
    requires Facts.Wf(c) && c.loopDepth == 0 && Facts.All(c) == {"x"} && c.scopes != [] && |c.scopes| < 128
    ensures Facts.Scoped(Block([RENEW], BLANK), {"x"}) && Analyze(c, Block([RENEW], BLANK)).Accepted?
  {
    Limits.ScopedOne(RENEW, {"x"});
    Release.InsideOutside(c, false);
    SimpleTable(Facts.Inside(c, false), RENEW);
    assert Needs(RENEW) == {};
    hide Facts.Wf;
    hide Facts.All;
    hide Analyze;
    hide AnalyzeAll;
    AnalyzedOne(Facts.Inside(c, false), RENEW);
    BlockTable(c, Block([RENEW], BLANK));
  }

  /** The `if` is accepted where `x` has been moved. */
  lemma RevivingAccepted(c: Ctx)
    requires Facts.Wf(c) && c.loopDepth == 0 && Facts.All(c) == {"x"} && c.scopes != [] && |c.scopes| < 128
    ensures Facts.Scoped(REVIVED.body[1], {"x"}) && Analyze(c, REVIVED.body[1]).Accepted?
  {
    var b := Block([RENEW], BLANK);
    var st := If([], b, Some(b));
    RenewAccepted(c);
    assert st == REVIVED.body[1] && !EndsInJump(b) && CondAllowed(c, []);
    hide Facts.Wf;
    hide Facts.All;
    hide Analyze;
    hide Merge;
    MergeSome(c, Analyze(c, b).c.moved, ElseTable(c, st), false, false, true);
    IfAnalyzed(c, st, Merge(c, Analyze(c, b).c.moved, ElseTable(c, st), false, false, true).value);
  }

  /** Giving a moved variable a new value in both branches does not help: reading it afterwards is refused, although it
      holds something on every path. */
  lemma RevivedRejected(ch: seq<bool>)
    ensures Release.WellScoped(REVIVED) && Check(REVIVED).RejectedAll?
    ensures Check(REVIVED.(body := REVIVED.body[..2])).AcceptedAll?
    ensures !ExecAll(AllNulled(REVIVED.body), Entry(["x"]), ch).NullUse?
  {
    ScopedRevived();
    RevivedTable();
    RevivedRuns(ch);
  }

  /** One scope with `x`, which is in the table. */
  ghost predicate XMoved(c: Ctx) {
    && Facts.Wf(c) && c.loopDepth == 0 && c.scopes != [] && |c.scopes| == 1 && Facts.All(c) == {"x"}
    && "x" in Names(c.moved)
  }

  lemma RevivedFirst()
    ensures var v := Analyze(Start(["x"]), REVIVED.body[0]); v.Accepted? && XMoved(v.c)
  {
    Limits.OneParam();
    Release.StartFacts(["x"]);
    NothingNamed();
    var st := REVIVED.body[0];
    assert Needs(st) == {"x"} && Empty(st, "x", false) && Simple(st);
    assert |Start(["x"]).scopes| == 1 && Start(["x"]).moved == [] && Start(["x"]).loopDepth == 0;
    assert Facts.Scoped(st, {"x"}) && Facts.After({"x"}, st) == {"x"};
    hide Start;
    hide Facts.Wf;
    hide Facts.All;
    hide Analyze;
    hide Names;
    hide Empty;
    SimpleTable(Start(["x"]), st);
  }

  lemma RevivedSecond(c: Ctx)
    requires XMoved(c)
    ensures var v := Analyze(c, REVIVED.body[1]); v.Accepted? && XMoved(v.c)
  {
    var st := REVIVED.body[1];
    RevivingAccepted(c);
    assert st.If? && !EndsInJump(st.thenB) && !ElseEnds(st);
    StaysInTable(c, st);
    ScopeAfter(c, st);
    Facts.KeptStmt(c, st);
    hide Facts.Wf;
    hide Facts.All;
    hide Analyze;
    hide Names;
    hide Facts.Scoped;
  }

  lemma RevivedThird(c: Ctx)
    requires XMoved(c)
    ensures c.scopes != [] && Analyze(c, REVIVED.body[2]).Rejected?
  {
    var st := REVIVED.body[2];
    assert Needs(st) == {"x"} && Simple(st) && Facts.Scoped(st, {"x"});
    hide Facts.Wf;
    hide Facts.All;
    hide Analyze;
    hide Names;
    SimpleTable(c, st);
  }

  lemma RevivedTable()
    ensures Check(REVIVED).RejectedAll? && Check(REVIVED.(body := REVIVED.body[..2])).AcceptedAll?
  {
    var c := Start(["x"]);
    var s, t, u := REVIVED.body[0], REVIVED.body[1], REVIVED.body[2];
    assert REVIVED.body[..2] == [s, t] && REVIVED.body == [s, t] + [u] && [s, t] + [] == [s, t];
    assert REVIVED.params == ["x"];
    RevivedFirst();
    hide XMoved;
    hide Analyze;
    hide AnalyzeAll;
    hide Start;
    var d := Analyze(c, s).c;
    RevivedSecond(d);
    var e := Analyze(d, t).c;
    RevivedThird(e);
    AnalyzedTwo(c, s, t, [u]);
    AnalyzedTwo(c, s, t, []);
    NothingAnalyzed(e);
    OneAnalyzed(e, [u]);
  }

  lemma NothingNamed()
    ensures Names([]) == {}
  {}

  lemma AnalyzedTwo(c: Ctx, s: Stmt, t: Stmt, rest: seq<Stmt>)
    requires c.scopes != [] && Analyze(c, s).Accepted? && Analyze(Analyze(c, s).c, t).Accepted?
    ensures AnalyzeAll(c, [s, t] + rest).AcceptedAll? <==> AnalyzeAll(Analyze(Analyze(c, s).c, t).c, rest).AcceptedAll?
  {
    hide Analyze;
    var all := [s, t] + rest;
    assert all[0] == s && all[1..][0] == t && all[1..][1..] == rest;
    AnalyzedParts(c, all);
    AnalyzedParts(Analyze(c, s).c, all[1..]);
  }

  lemma RevivedRuns(ch: seq<bool>)
    ensures !ExecAll(AllNulled(REVIVED.body), Entry(["x"]), ch).NullUse?
  {
    Limits.OneParam();
    var ss := REVIVED.body;
    var r, s := Entry(["x"]), {"x"};
    NulledRun(ss, r, ch);
    SimpleRuns(ss[0], s, r, ch);
    var o := Exec(Nulled(ss[0]), r, ch);
    NulledRun(ss[1..], o.r, ch);
    RevivingRuns(o.r, ch);
    var p := Exec(Nulled(ss[1]), o.r, ch);
    if p.Normal? {
      NulledRun(ss[2..], p.r, p.ch);
      SimpleRuns(ss[2], s, p.r, p.ch);
      assert ss[2..][1..] == [];
    }
  }

  lemma RevivingRuns(r: RState, ch: seq<bool>)
    requires r.vars.Keys == {"x"}
    ensures var p := Exec(Nulled(REVIVED.body[1]), r, ch);
      !p.NullUse? && (p.Normal? ==> p.r.vars.Keys == {"x"} && Holds(p.r, "x"))
  {
    var st, a := REVIVED.body[1], Assign("x", New, BLANK);
    if ch != [] {
      IfExec(st, r, ch[0], ch[1..]);
      assert [ch[0]] + ch[1..] == ch;
      NulledRun([a], r, ch[1..]);
      SimpleRuns(a, {"x"}, r, ch[1..]);
      assert [a][1..] == [];
    }
  }
}
