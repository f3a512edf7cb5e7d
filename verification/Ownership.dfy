// The ownership checker on a core language (src/frontend/scope_analysis.c:585-971, 1295-1765, 2388-2502), and what the
// checked and annotated program does when it runs (src/backend/c11/codegen.c:1470-1521, 2575-2647, 2937-3000,
// 3218-3246).

module Ownership {
  import opened Options

  /** What a variable is given: a new object, another variable, or the result of a call that consumes one. */
  datatype Rhs = New | Var(y: string) | CallOf(y: string)

  /** What a condition does with a variable. */
  datatype CondUse = Looks(y: string) | Takes(y: string)

  /** What the analysis writes into a statement: variables to release before control leaves, variables to set to null
      after it, and whether an assignment releases the old value. */
  datatype Note = Note(releases: seq<string>, nulls: seq<string>, releaseOld: bool)

  const BLANK := Note([], [], false)

  datatype Stmt =
    | Let(x: string, rhs: Rhs, note: Note)
    | Assign(x: string, rhs: Rhs, note: Note)
    | Borrow(y: string)
    | Consume(y: string, note: Note)
    | Block(body: seq<Stmt>, note: Note)
    | If(cond: seq<CondUse>, thenB: Stmt, elseB: Option<Stmt>)
    | While(cond: seq<CondUse>, loopBody: Stmt)
    | Break(note: Note)
    | Continue(note: Note)
    | Return(value: Option<string>, note: Note)

  // ----- The checker -----

  /** An entry of the moved table; `maybe` when only some branches moved the variable. */
  datatype Moved = Moved(name: string, maybe: bool)

  datatype OwnVar = OwnVar(name: string, declDepth: nat)

  datatype Scope = Scope(vars: seq<OwnVar>, isLoop: bool)

  datatype Ctx = Ctx(moved: seq<Moved>, scopes: seq<Scope>, loopDepth: nat)

  const MAX_SCOPES := 128

  function Names(m: seq<Moved>): set<string> { set i | 0 <= i < |m| :: m[i].name }

  function VarNames(vs: seq<OwnVar>): set<string> { set i | 0 <= i < |vs| :: vs[i].name }

  /** The variables of the scopes, innermost first; up to the nearest loop scope, or all of them. */
  function Walk(scopes: seq<Scope>, all: bool): seq<OwnVar> {
    if scopes == [] then []
    else
      var top := scopes[|scopes|-1];
      top.vars + (if top.isLoop && !all then [] else Walk(scopes[..|scopes|-1], all))
  }

  function FindVar(vs: seq<OwnVar>, x: string): Option<OwnVar> {
    if vs == [] then None else if vs[0].name == x then Some(vs[0]) else FindVar(vs[1..], x)
  }

  function Lookup(c: Ctx, x: string): Option<OwnVar> { FindVar(Walk(c.scopes, true), x) }

  function IndexOf(m: seq<Moved>, x: string): (i: nat)
    ensures i <= |m| && (i < |m| ==> m[i].name == x) && (forall k :: 0 <= k < i ==> m[k].name != x)
    ensures i < |m| <==> x in Names(m)
  { if m == [] || m[0].name == x then 0 else 1 + IndexOf(m[1..], x) }

  /** An entry for `x` that is not just a possibility. */
  predicate Surely(m: seq<Moved>, x: string) { IndexOf(m, x) < |m| && !m[IndexOf(m, x)].maybe }

  function Mark(m: seq<Moved>, x: string, maybe: bool): seq<Moved> {
    var i := IndexOf(m, x);
    if i == |m| then m + [Moved(x, maybe)] else if maybe then m[i := Moved(x, true)] else m
  }

  /** The last entry takes the place of the one removed. */
  function Unmark(m: seq<Moved>, x: string): seq<Moved> {
    var i := IndexOf(m, x);
    if i == |m| then m else m[i := m[|m|-1]][..|m|-1]
  }

  predicate UseAllowed(c: Ctx, y: string) { Lookup(c, y).Some? ==> y !in Names(c.moved) }

  /** Nothing declared outside the loop may be moved in it. */
  predicate LoopAllows(c: Ctx, y: string) {
    c.loopDepth == 0 || Lookup(c, y).None? || Lookup(c, y).value.declDepth >= c.loopDepth
  }

  function Move(c: Ctx, y: string, exempt: bool): Option<Ctx> {
    if Lookup(c, y).None? then Some(c)
    else if y in Names(c.moved) || !(exempt || LoopAllows(c, y)) then None
    else Some(c.(moved := Mark(c.moved, y, false)))
  }

  function NullsFor(c: Ctx, y: string): seq<string> { if Lookup(c, y).Some? then [y] else [] }

  /** The value of a declaration or assignment to `x`. */
  function MoveRhs(c: Ctx, rhs: Rhs, x: string, assigning: bool): Option<Ctx> {
    match rhs
    case New => Some(c)
    case Var(y) => if assigning && y == x then (if UseAllowed(c, y) then Some(c) else None) else Move(c, y, false)
    case CallOf(y) => Move(c, y, assigning && y == x)
  }

  function RhsNulls(c: Ctx, rhs: Rhs, x: string, assigning: bool): seq<string> {
    if rhs.New? || (assigning && rhs.y == x) then [] else NullsFor(c, rhs.y)
  }

  predicate CondAllowed(c: Ctx, cond: seq<CondUse>) {
    forall k :: 0 <= k < |cond| ==> UseAllowed(c, cond[k].y) && (cond[k].Takes? ==> Lookup(c, cond[k].y).None?)
  }

  /** The variables still to be released, each once. */
  function Pending(m: seq<Moved>, vs: seq<OwnVar>): seq<string> {
    if vs == [] then []
    else
      var rest := Pending(m, vs[..|vs|-1]);
      var x := vs[|vs|-1].name;
      if Surely(m, x) || x in rest then rest else rest + [x]
  }

  predicate IsJump(s: Stmt) { s.Return? || s.Break? || s.Continue? }

  /** `is_block_terminator`. */
  predicate EndsInJump(s: Stmt) { IsJump(s) || (s.Block? && s.body != [] && IsJump(s.body[|s.body|-1])) }

  function Tail(m: seq<Moved>, from: nat): seq<Moved> { if from <= |m| then m[from..] else [] }

  /** Entries a branch added, marked again after the merge; variables gone out of scope are left out. */
  function Remark(c: Ctx, m: seq<Moved>, adds: seq<Moved>): Option<seq<Moved>>
    decreases |adds|
  {
    if adds == [] then Some(m)
    else
      var a := adds[0];
      if Lookup(c, a.name).None? then Remark(c, m, adds[1..])
      else if !a.maybe && !LoopAllows(c, a.name) then None
      else Remark(c, Mark(m, a.name, a.maybe), adds[1..])
  }

  function AllMaybe(m: seq<Moved>): (r: seq<Moved>)
    ensures |r| == |m| && forall k :: 0 <= k < |m| ==> r[k] == Moved(m[k].name, true)
  { seq(|m|, k requires 0 <= k < |m| => Moved(m[k].name, true)) }

  /** Sure only when both branches are. */
  function Both(first: seq<Moved>, second: seq<Moved>): (r: seq<Moved>)
    ensures |r| == |first| && forall k :: 0 <= k < |first| ==>
      r[k] == Moved(first[k].name, first[k].maybe || !Surely(second, first[k].name))
  { seq(|first|,
    k requires 0 <= k < |first| => Moved(first[k].name, first[k].maybe || !Surely(second, first[k].name))) }

  function Without(m: seq<Moved>, names: set<string>): seq<Moved> {
    if m == [] then []
    else (if m[0].name in names then [] else [m[0]]) + Without(m[1..], names)
  }

  /** The table after an `if`, from the tables before it and after each branch. */
  function Merge(c: Ctx, thenM: seq<Moved>, elseM: seq<Moved>, thenEnds: bool, elseEnds: bool,
      hasElse: bool): Option<seq<Moved>> {
    var n := |c.moved|;
    if thenEnds && elseEnds then Some(c.moved)
    else if thenEnds then Some(elseM)
    else if elseEnds then Some(thenM)
    else if !hasElse then Remark(c, c.moved, AllMaybe(Tail(thenM, n)))
    else match Remark(c, c.moved, Both(Tail(thenM, n), Tail(elseM, n)))
      case None => None
      case Some(m) => Remark(c, m, AllMaybe(Without(Tail(elseM, n), Names(Tail(thenM, n)))))
  }

  datatype Verdict = Rejected | Accepted(c: Ctx, st: Stmt)
  datatype Verdicts = RejectedAll | AcceptedAll(c: Ctx, ss: seq<Stmt>)

  function Declare(c: Ctx, x: string): Ctx
    requires c.scopes != []
  {
    var n := |c.scopes| - 1;
    var top := c.scopes[n];
    Ctx(Unmark(c.moved, x), c.scopes[n := top.(vars := top.vars + [OwnVar(x, c.loopDepth)])], c.loopDepth)
  }

  function Analyze(c: Ctx, st: Stmt): (v: Verdict)
    requires c.scopes != []
    ensures v.Accepted? ==> v.c.scopes != [] && |v.c.scopes| == |c.scopes|
    decreases st, 1
  {
    match st
    case Let(x, rhs, _) =>
      (match MoveRhs(c, rhs, x, false)
       case None => Rejected
       case Some(c1) => Accepted(Declare(c1, x), Let(x, rhs, Note([], RhsNulls(c, rhs, x, false), false))))
    case Assign(x, rhs, _) =>
      (match MoveRhs(c, rhs, x, true)
       case None => Rejected
       case Some(c1) =>
         if Lookup(c, x).None? then Accepted(c1, Assign(x, rhs, Note([], RhsNulls(c, rhs, x, true), false)))
         else Accepted(c1.(moved := Unmark(c1.moved, x)),
                       Assign(x, rhs, Note([], RhsNulls(c, rhs, x, true), x !in Names(c1.moved)))))
    case Borrow(y) => if UseAllowed(c, y) then Accepted(c, st) else Rejected
    case Consume(y, _) =>
      (match Move(c, y, false)
       case None => Rejected
       case Some(c1) => Accepted(c1, Consume(y, Note([], NullsFor(c, y), false))))
    case Block(_, _) => AnalyzeBlock(c, st, false)
    case If(_, _, _) => AnalyzeIf(c, st)
    case While(cond, body) =>
      var inner := c.(loopDepth := c.loopDepth + 1);
      if !CondAllowed(inner, cond) || !body.Block? then Rejected
      else (match AnalyzeBlock(inner, body, true)
        case Rejected => Rejected
        case Accepted(c1, b1) => Accepted(c1.(loopDepth := c.loopDepth), While(cond, b1)))
    case Break(_) =>
      if c.loopDepth == 0 then Rejected
      else Accepted(c, Break(Note(Pending(c.moved, Walk(c.scopes, false)), [], false)))
    case Continue(_) =>
      if c.loopDepth == 0 then Rejected
      else Accepted(c, Continue(Note(Pending(c.moved, Walk(c.scopes, false)), [], false)))
    case Return(value, _) =>
      (match (if value.None? then Some(c) else Move(c, value.value, true))
       case None => Rejected
       case Some(c1) => Accepted(c1, Return(value, Note(Pending(c1.moved, Walk(c1.scopes, true)), [], false))))
  }

  function AnalyzeIf(c: Ctx, st: Stmt): (v: Verdict)
    requires c.scopes != [] && st.If?
    ensures v.Accepted? ==> v.c.scopes == c.scopes && v.c.loopDepth == c.loopDepth
    decreases st, 0
  {
    if !CondAllowed(c, st.cond) then Rejected
    else match Analyze(c, st.thenB)
      case Rejected => Rejected
      case Accepted(c1, a) =>
        if st.elseB.None? then
          (match Merge(c, c1.moved, c.moved, EndsInJump(st.thenB), false, false)
           case None => Rejected
           case Some(m) => Accepted(c.(moved := m), If(st.cond, a, None)))
        else (match Analyze(c, st.elseB.value)
          case Rejected => Rejected
          case Accepted(c2, b) =>
            (match Merge(c, c1.moved, c2.moved, EndsInJump(st.thenB), EndsInJump(st.elseB.value), true)
             case None => Rejected
             case Some(m) => Accepted(c.(moved := m), If(st.cond, a, Some(b)))))
  }

  /** A block in a scope of its own, closed by the releases of what is still owned. */
  function AnalyzeBlock(c: Ctx, st: Stmt, isLoop: bool): (v: Verdict)
    requires st.Block?
    ensures v.Accepted? ==> v.c.scopes == c.scopes && v.c.loopDepth == c.loopDepth
    decreases st, 0
  {
    if |c.scopes| >= MAX_SCOPES then Rejected
    else match AnalyzeAll(c.(scopes := c.scopes + [Scope([], isLoop)]), st.body)
      case RejectedAll => Rejected
      case AcceptedAll(c1, ss) =>
        Accepted(Ctx(c1.moved, c.scopes, c.loopDepth),
          Block(ss, Note(Pending(c1.moved, c1.scopes[|c1.scopes|-1].vars), [], false)))
  }

  function AnalyzeAll(c: Ctx, ss: seq<Stmt>): (v: Verdicts)
    requires c.scopes != []
    ensures v.AcceptedAll? ==> v.c.scopes != [] && |v.c.scopes| == |c.scopes|
    decreases ss, 0
  {
    if ss == [] then AcceptedAll(c, [])
    else match Analyze(c, ss[0])
      case Rejected => RejectedAll
      case Accepted(c1, s1) => match AnalyzeAll(c1, ss[1..])
        case RejectedAll => RejectedAll
        case AcceptedAll(c2, rest) => AcceptedAll(c2, [s1] + rest)
  }

  /** A function: its parameters are owned by the outermost scope. */
  function Start(params: seq<string>): Ctx {
    Ctx([], [Scope(seq(|params|, i requires 0 <= i < |params| => OwnVar(params[i], 0)), false)], 0)
  }

  datatype Function = Function(params: seq<string>, body: seq<Stmt>)

  function Check(f: Function): Verdicts { AnalyzeAll(Start(f.params), f.body) }

  function Closing(c: Ctx): seq<string>
    requires c.scopes != []
  { Pending(c.moved, c.scopes[|c.scopes|-1].vars) }

  // ----- Running the annotated program -----

  /** What the variables hold, how many objects there are, and what has become of those no longer held. */
  datatype RState = RState(vars: map<string, Option<nat>>, next: nat, released: seq<nat>, handed: seq<nat>)

  datatype Out =
    | Normal(r: RState, ch: seq<bool>)
    | Broke(r: RState, ch: seq<bool>)
    | Continued(r: RState, ch: seq<bool>)
    | Returned(r: RState)
    | Starved(r: RState)
    | NullUse

  predicate Holds(r: RState, x: string) { x in r.vars && r.vars[x].Some? }

  function ReleaseVar(r: RState, x: string): RState {
    if Holds(r, x) then r.(released := r.released + [r.vars[x].value]) else r
  }

  function ReleaseAll(r: RState, xs: seq<string>): RState
    decreases |xs|
  { if xs == [] then r else ReleaseAll(ReleaseVar(r, xs[0]), xs[1..]) }

  /** Nulling a variable that a statement moved. */
  function NullAll(r: RState, xs: seq<string>): RState {
    r.(vars := map x | x in r.vars :: if x in xs then None else r.vars[x])
  }

  /** The object a right-hand side yields. */
  function Yield(r: RState, rhs: Rhs): Option<(RState, nat)> {
    match rhs
    case New => Some((r.(next := r.next + 1), r.next))
    case Var(y) => if Holds(r, y) then Some((r, r.vars[y].value)) else None
    case CallOf(y) =>
      if Holds(r, y) then Some((r.(handed := r.handed + [r.vars[y].value], next := r.next + 1), r.next)) else None
  }

  predicate CondRuns(r: RState, cond: seq<CondUse>) { forall k :: 0 <= k < |cond| ==> Holds(r, cond[k].y) }

  function Restrict(r: RState, keys: set<string>): RState { r.(vars := map x | x in r.vars && x in keys :: r.vars[x]) }

  function Leave(o: Out, keys: set<string>): Out {
    match o
    case Normal(r, ch) => Normal(Restrict(r, keys), ch)
    case Broke(r, ch) => Broke(Restrict(r, keys), ch)
    case Continued(r, ch) => Continued(Restrict(r, keys), ch)
    case _ => o
  }

  /** Runs a statement; each test of a condition takes its answer from `ch`, so that running on all `ch` is running on
      all paths. */
  function Exec(st: Stmt, r: RState, ch: seq<bool>): (o: Out)
    ensures (o.Normal? || o.Broke? || o.Continued?) ==> |o.ch| <= |ch|
    decreases |ch|, st, 1
  {
    match st
    case Let(x, rhs, note) =>
      (match Yield(r, rhs)
       case None => NullUse
       case Some(p) => Normal(NullAll(p.0.(vars := p.0.vars[x := Some(p.1)]), note.nulls), ch))
    case Assign(x, rhs, note) =>
      (match Yield(r, rhs)
       case None => NullUse
       case Some(p) =>
         var r1 := if note.releaseOld && Holds(p.0, x) && p.0.vars[x].value != p.1 then ReleaseVar(p.0, x) else p.0;
         Normal(NullAll(r1.(vars := r1.vars[x := Some(p.1)]), note.nulls), ch))
    case Borrow(y) => if Holds(r, y) then Normal(r, ch) else NullUse
    case Consume(y, note) =>
      if Holds(r, y) then Normal(NullAll(r.(handed := r.handed + [r.vars[y].value]), note.nulls), ch) else NullUse
    case Block(ss, note) =>
      var end := match ExecAll(ss, r, ch) {
          case Normal(r1, ch1) => Normal(ReleaseAll(r1, note.releases), ch1)
          case o => o
        };
      Leave(end, r.vars.Keys)
    case If(cond, a, b) =>
      if !CondRuns(r, cond) then NullUse
      else if ch == [] then Starved(r)
      else if ch[0] then Exec(a, r, ch[1..])
      else if b.Some? then Exec(b.value, r, ch[1..]) else Normal(r, ch[1..])
    case While(cond, body) =>
      if !CondRuns(r, cond) then NullUse
      else if ch == [] then Starved(r)
      else if !ch[0] then Normal(r, ch[1..])
      else (match Exec(body, r, ch[1..])
        case Normal(r1, ch1) => Exec(st, r1, ch1)
        case Continued(r1, ch1) => Exec(st, r1, ch1)
        case Broke(r1, ch1) => Normal(r1, ch1)
        case o => o)
    case Break(note) => Broke(ReleaseAll(r, note.releases), ch)
    case Continue(note) => Continued(ReleaseAll(r, note.releases), ch)
    case Return(None, note) => Returned(ReleaseAll(r, note.releases))
    case Return(Some(y), note) =>
      if Holds(r, y) then Returned(ReleaseAll(r.(handed := r.handed + [r.vars[y].value]), note.releases)) else NullUse
  }

  function ExecAll(ss: seq<Stmt>, r: RState, ch: seq<bool>): (o: Out)
    ensures (o.Normal? || o.Broke? || o.Continued?) ==> |o.ch| <= |ch|
    decreases |ch|, ss, 0
  {
    if ss == [] then Normal(r, ch)
    else match Exec(ss[0], r, ch)
      case Normal(r1, ch1) => ExecAll(ss[1..], r1, ch1)
      case o => o
  }

  /** A call: the parameters hold one object each, and falling off the end releases what is left. */
  function Call(params: seq<string>, body: seq<Stmt>, closing: seq<string>, ch: seq<bool>): Out {
    match ExecAll(body, Entry(params), ch)
    case Normal(r, ch1) => Returned(ReleaseAll(r, closing))
    case o => o
  }

  function EntryVars(params: seq<string>, n: nat): map<string, Option<nat>>
    requires n <= |params|
  { if n == 0 then map[] else EntryVars(params, n - 1)[params[n-1] := Some(n - 1)] }

  function Entry(params: seq<string>): RState { RState(EntryVars(params, |params|), |params|, [], []) }
}
