// Lowering preserves meaning: what a structured program prints, calls and returns, its basic blocks do too.

module LoweringSound {
  import opened Options
  import opened Ir
  import opened Lowering
  import opened LoweringShape
  import A = Ast

  /** A place in the code: a block and an offset into it. */
  datatype Point = Point(block: nat, pos: nat)

  /** The finished code, slot declarations left out, and what it runs against. */
  datatype Machine = Machine(code: seq<seq<Inst>>, env: Env)

  /** Runs from any place, taking at most `fuel` jumps. */
  function At(m: Machine, p: Point, st: State, fuel: nat): Outcome
    decreases fuel, if p.block < |m.code| && p.pos < |m.code[p.block]| then |m.code[p.block]| - p.pos else 0
  {
    if p.block >= |m.code| || p.pos >= |m.code[p.block]| then Stuck
    else match Step(m.code[p.block][p.pos], st, m.env)
      case Next(st2) => At(m, Point(p.block, p.pos + 1), st2, fuel)
      case Jump(t, st2) =>
        if fuel == 0 then Running(t, st2.slots, st2.trace) else At(m, Point(t, 0), st2, fuel - 1)
      case Return(v, st2) => Done(v, st2.trace)
      case Trap => Stuck
  }

  /** From `p` control gets to `q` after `k` jumps. */
  ghost predicate Leads(m: Machine, p: Point, st: State, q: Point, st2: State, k: nat) {
    forall n: nat :: if n < k then At(m, p, st, n).Running? else At(m, p, st, n) == At(m, q, st2, n - k)
  }

  ghost predicate Ends(m: Machine, p: Point, st: State, v: Option<Val>, trace: seq<Event>, k: nat) {
    forall n: nat :: if n < k then At(m, p, st, n).Running? else At(m, p, st, n) == Done(v, trace)
  }

  /** Every variable with a value has it in its slot. */
  ghost predicate Match(store: A.Store, slots: map<string, Val>) {
    forall x :: x in store && store[x].Some? ==> SlotName(x) in slots && slots[SlotName(x)] == store[x].value
  }

  ghost predicate Arrives(m: Machine, p: Point, st: State, q: Point, store: A.Store, trace: seq<Event>, k: nat,
      st2: State) {
    Leads(m, p, st, q, st2, k) && st2.trace == trace && Match(store, st2.slots)
  }

  /** The code at `p` does what the statement did: it goes on at `next`, at the exit or step block of the enclosing
      loop, ends the run, or keeps running. */
  ghost predicate Lands(m: Machine, p: Point, st: State, next: Point, loop: Option<LoopScope>, out: A.Out, fuel: nat,
      k: nat, st2: State) {
    match out
    case Normal(store, tr) => Arrives(m, p, st, next, store, tr, k, st2)
    case Broke(store, tr) => loop.Some? ==> Arrives(m, p, st, Point(loop.value.exitBlock, 0), store, tr, k, st2)
    case Continued(store, tr) => loop.Some? ==> Arrives(m, p, st, Point(loop.value.stepBlock, 0), store, tr, k, st2)
    case Returned(v, tr) => Ends(m, p, st, v, tr, k)
    case TimedOut => forall n: nat :: n <= fuel ==> At(m, p, st, n).Running?
    case Failed => true
  }

  lemma LeadsTrans(m: Machine, p: Point, s1: State, q: Point, s2: State, r: Point, s3: State, k: nat, l: nat)
    requires Leads(m, p, s1, q, s2, k) && Leads(m, q, s2, r, s3, l)
    ensures Leads(m, p, s1, r, s3, k + l)
  {}

  /** A detour of `k` jumps in front; each jump may pay for one iteration. */
  lemma LandsAfter(m: Machine, p: Point, s1: State, q: Point, s2: State, k: nat, next: Point, loop: Option<LoopScope>,
      out: A.Out, fuel: nat, l: nat, s3: State, more: nat)
    requires Leads(m, p, s1, q, s2, k) && Lands(m, q, s2, next, loop, out, fuel, l, s3) && more <= fuel + k
    ensures Lands(m, p, s1, next, loop, out, more, k + l, s3)
  {}

  lemma EndsAfter(m: Machine, p: Point, s1: State, q: Point, s2: State, k: nat, v: Option<Val>, trace: seq<Event>,
      l: nat)
    requires Leads(m, p, s1, q, s2, k) && Ends(m, q, s2, v, trace, l)
    ensures Ends(m, p, s1, v, trace, k + l)
  {}

  lemma LandsLeave(m: Machine, p: Point, st: State, next: Point, loop: Option<LoopScope>, out: A.Out, fuel: nat, k: nat,
      st2: State, outer: A.Store)
    requires Lands(m, p, st, next, loop, out, fuel, k, st2)
    ensures Lands(m, p, st, next, loop, A.Leave(out, outer), fuel, k, st2)
  {
    hide Leads;
    hide Ends;
  }

  // ----- Code in place -----

  /** What has been lowered so far is, block by block, the beginning of the finished code. */
  ghost predicate Fits(m: Machine, s: LState) {
    |s.blocks| <= |m.code| && forall b :: 0 <= b < |s.blocks| ==> Strip(s.blocks[b]) <= m.code[b]
  }

  function End(s: LState): Point
    requires s.Ok()
  { Point(s.cur, |Strip(s.blocks[s.cur])|) }

  lemma FitsBefore(m: Machine, s: LState, t: LState, at: nat)
    requires Frame(s, t, at) && Fits(m, t)
    ensures Fits(m, s)
  {
    hide Strip;
    hide EndsBlock;
  }

  lemma Emitted(m: Machine, s: LState, i: Inst)
    requires s.Ok() && !i.Alloca? && Fits(m, Emit(s, i))
    ensures var e := End(s); e.block < |m.code| && e.pos < |m.code[e.block]| && m.code[e.block][e.pos] == i
    ensures End(Emit(s, i)) == Point(s.cur, End(s).pos + 1)
  {
    StripSnoc(s.blocks[s.cur], i);
    hide Strip;
    assert Strip(Emit(s, i).blocks[s.cur]) <= m.code[s.cur];
  }

  lemma EmitNext(m: Machine, s: LState, i: Inst, st: State, st2: State)
    requires s.Ok() && !i.Alloca? && Fits(m, Emit(s, i)) && Step(i, st, m.env) == Next(st2)
    ensures Leads(m, End(s), st, End(Emit(s, i)), st2, 0)
  {
    Emitted(m, s, i);
    hide Step;
    hide End;
  }

  lemma EmitJump(m: Machine, s: LState, i: Inst, st: State, target: nat, st2: State)
    requires s.Ok() && !i.Alloca? && Fits(m, Emit(s, i)) && Step(i, st, m.env) == Jump(target, st2)
    ensures Leads(m, End(s), st, Point(target, 0), st2, 1)
  {
    Emitted(m, s, i);
    hide Step;
    hide End;
  }

  lemma EmitReturn(m: Machine, s: LState, i: Inst, st: State, v: Option<Val>, st2: State)
    requires s.Ok() && !i.Alloca? && Fits(m, Emit(s, i)) && Step(i, st, m.env) == Return(v, st2)
    ensures Ends(m, End(s), st, v, st2.trace, 0)
  {
    Emitted(m, s, i);
    hide Step;
    hide End;
  }

  // ----- Expressions -----

  ghost predicate Known(store: A.Store, s: LState) { forall x :: x in store ==> x in s.syms }

  ghost predicate Keeps(st: State, st2: State, below: nat) {
    forall r: nat :: r < below && r in st.regs ==> r in st2.regs && st2.regs[r] == st.regs[r]
  }

  /** After the code of an expression: its value, the same slots, and no older register lost. */
  ghost predicate Yields(m: Machine, s: LState, t: LState, st: State, st2: State, v: Value, x: Val, trace: seq<Event>) {
    && s.Ok() && t.Ok() && Leads(m, End(s), st, End(t), st2, 0) && st2.slots == st.slots && st2.trace == trace
    && Keeps(st, st2, s.nextReg) && s.nextReg <= t.nextReg && v.Reg? && v.id < t.nextReg
      && Eval(v, st2, m.env) == Some(x)
  }

  lemma ExprFits(m: Machine, s: LState, e: A.Expr)
    requires Shaped(s) && !Terminated(s) && Fits(m, LowerExpr(s, e).0)
    ensures var t := LowerExpr(s, e).0; Fits(m, s) && Shaped(t) && !Terminated(t) && t.syms == s.syms && Grows(s, t)
  {
    hide BlockShape;
    hide DefsOk;
    ExprShape(s, e);
    hide LowerExpr;
    GrowsExpr(s, LowerExpr(s, e).0);
    FitsBefore(m, s, LowerExpr(s, e).0, s.cur);
  }

  lemma ArgsFits(m: Machine, s: LState, es: seq<A.Expr>)
    requires Shaped(s) && !Terminated(s) && Fits(m, LowerArgs(s, es).0)
    ensures var t := LowerArgs(s, es).0; Fits(m, s) && Shaped(t) && !Terminated(t) && t.syms == s.syms && Grows(s, t)
  {
    hide BlockShape;
    hide DefsOk;
    ArgsShape(s, es);
    hide LowerArgs;
    GrowsExpr(s, LowerArgs(s, es).0);
    FitsBefore(m, s, LowerArgs(s, es).0, s.cur);
  }

  lemma DefYields(m: Machine, s: LState, i: Inst, st: State, x: Val, trace: seq<Event>)
    requires s.Ok() && !i.Alloca? && Fits(m, EmitDef(s, i))
    requires Step(i, st, m.env) == Next(State(st.regs[s.nextReg := x], st.slots, trace))
    ensures Yields(m, s, EmitDef(s, i), st, State(st.regs[s.nextReg := x], st.slots, trace), Reg(s.nextReg), x, trace)
  {
    var st2 := State(st.regs[s.nextReg := x], st.slots, trace);
    assert Fits(m, Emit(s, i));
    EmitNext(m, s, i, st, st2);
    hide Leads;
    hide Strip;
  }

  lemma YieldsAfter(m: Machine, s: LState, t: LState, u: LState, s1: State, s2: State, s3: State, v: Value, x: Val,
      tr: seq<Event>, w: Value, y: Val, tr2: seq<Event>)
    requires Yields(m, s, t, s1, s2, v, x, tr) && Yields(m, t, u, s2, s3, w, y, tr2)
    ensures Yields(m, s, u, s1, s3, w, y, tr2) && Eval(v, s3, m.env) == Some(x)
  {
    LeadsTrans(m, End(s), s1, End(t), s2, End(u), s3, 0, 0);
    hide Leads;
  }

  lemma FitsEmit(m: Machine, s: LState, i: Inst)
    requires s.Ok() && Fits(m, Emit(s, i))
    ensures Fits(m, s)
  {
    GrowsEmit(s, i);
    FitsBefore(m, s, Emit(s, i), s.cur);
  }

  /** After the code of an argument list. */
  ghost predicate YieldsAll(m: Machine, s: LState, t: LState, st: State, st2: State, vs: seq<Value>, xs: seq<Val>,
      trace: seq<Event>) {
    && s.Ok() && t.Ok() && Leads(m, End(s), st, End(t), st2, 0) && st2.slots == st.slots && st2.trace == trace
    && Keeps(st, st2, s.nextReg) && s.nextReg <= t.nextReg && EvalAll(vs, st2, m.env) == Some(xs)
  }

  lemma YieldsCons(m: Machine, s: LState, t: LState, u: LState, s1: State, s2: State, s3: State, v: Value, x: Val,
      tr: seq<Event>, vs: seq<Value>, xs: seq<Val>, tr2: seq<Event>)
    requires Yields(m, s, t, s1, s2, v, x, tr) && YieldsAll(m, t, u, s2, s3, vs, xs, tr2)
    ensures YieldsAll(m, s, u, s1, s3, [v] + vs, [x] + xs, tr2)
  {
    LeadsTrans(m, End(s), s1, End(t), s2, End(u), s3, 0, 0);
    hide Leads;
    assert ([v] + vs)[1..] == vs;
  }

  /** An instruction that turns the values just computed into a value of its own. */
  lemma YieldsDef(m: Machine, s: LState, t: LState, i: Inst, st: State, st2: State, x: Val, trace: seq<Event>)
    requires s.Ok() && t.Ok() && !i.Alloca? && Fits(m, EmitDef(t, i)) && Leads(m, End(s), st, End(t), st2, 0)
    requires st2.slots == st.slots && Keeps(st, st2, s.nextReg) && s.nextReg <= t.nextReg
    requires Step(i, st2, m.env) == Next(State(st2.regs[t.nextReg := x], st2.slots, trace))
    ensures Yields(m, s, EmitDef(t, i), st, State(st2.regs[t.nextReg := x], st2.slots, trace), Reg(t.nextReg), x, trace)
  {
    var st3 := State(st2.regs[t.nextReg := x], st2.slots, trace);
    DefYields(m, t, i, st2, x, trace);
    LeadsTrans(m, End(s), st, End(t), st2, End(EmitDef(t, i)), st3, 0, 0);
    hide Leads;
    hide End;
  }

  /** The code of an expression computes its value, with the same calls in the same order, and leaves the slots
      alone. */
  lemma {:induction false} ExprSound(m: Machine, s: LState, e: A.Expr, store: A.Store, st: State) returns (st2: State)
    requires Shaped(s) && !Terminated(s) && Fits(m, LowerExpr(s, e).0) && Known(store, s) && Match(store, st.slots)
    requires A.EvalExpr(e, store, st.trace, m.env).Value?
    ensures var (t, v) := LowerExpr(s, e); var x := A.EvalExpr(e, store, st.trace, m.env);
      Yields(m, s, t, st, st2, v, x.v, x.trace)
    decreases e, 1
  {
    hide Shaped;
    hide Fits;
    hide Strip;
    hide EndsBlock;
    hide Leads;
    hide Keeps;
    hide Yields;
    var x := A.EvalExpr(e, store, st.trace, m.env);
    st2 := State(st.regs[s.nextReg := x.v], st.slots, x.trace);
    match e
    case IntLit(i) => DefYields(m, s, Const(s.nextReg, ConstInt(i)), st, x.v, x.trace);
    case BoolLit(b) => DefYields(m, s, Const(s.nextReg, ConstBool(b)), st, x.v, x.trace);
    case Ident(name) => DefYields(m, s, Load(s.nextReg, SlotName(name)), st, x.v, x.trace);
    case Binary(_, _, _) => st2 := BinarySound(m, s, e, store, st);
    case Unary(_, _) => st2 := UnarySound(m, s, e, store, st);
    case Invoke(_, _) => st2 := InvokeSound(m, s, e, store, st);
  }

  lemma {:induction false} UnarySound(m: Machine, s: LState, e: A.Expr, store: A.Store, st: State) returns (st2: State)
    requires Shaped(s) && !Terminated(s) && Fits(m, LowerExpr(s, e).0) && Known(store, s) && Match(store, st.slots)
    requires e.Unary? && A.EvalExpr(e, store, st.trace, m.env).Value?
    ensures var (t, v) := LowerExpr(s, e); var x := A.EvalExpr(e, store, st.trace, m.env);
      Yields(m, s, t, st, st2, v, x.v, x.trace)
    decreases e, 0
  {
    hide Shaped;
    hide Fits;
    hide Strip;
    hide EndsBlock;
    hide Leads;
    hide Keeps;
    var x := A.EvalExpr(e, store, st.trace, m.env);
    var (t, v) := LowerExpr(s, e.operand);
    var i := Un(e.uop, t.nextReg, v);
    assert Fits(m, EmitDef(t, i));
    FitsDef(m, t, i);
    var st1 := ExprSound(m, s, e.operand, store, st);
    YieldsDef(m, s, t, i, st, st1, x.v, x.trace);
    st2 := State(st1.regs[t.nextReg := x.v], st1.slots, x.trace);
  }

  lemma FitsDef(m: Machine, s: LState, i: Inst)
    requires s.Ok() && Fits(m, EmitDef(s, i))
    ensures Fits(m, s)
  {
    assert Fits(m, Emit(s, i));
    FitsEmit(m, s, i);
  }

  lemma {:induction false} BinarySound(m: Machine, s: LState, e: A.Expr, store: A.Store, st: State) returns (st2: State)
    requires Shaped(s) && !Terminated(s) && Fits(m, LowerExpr(s, e).0) && Known(store, s) && Match(store, st.slots)
    requires e.Binary? && A.EvalExpr(e, store, st.trace, m.env).Value?
    ensures var (t, v) := LowerExpr(s, e); var x := A.EvalExpr(e, store, st.trace, m.env);
      Yields(m, s, t, st, st2, v, x.v, x.trace)
    decreases e, 0
  {
    hide Shaped;
    hide Fits;
    hide Strip;
    hide EndsBlock;
    hide Leads;
    hide Keeps;
    var x := A.EvalExpr(e, store, st.trace, m.env);
    var (s1, v) := LowerExpr(s, e.left);
    var (t, w) := LowerExpr(s1, e.right);
    var i := Bin(e.op, t.nextReg, v, w);
    assert Fits(m, EmitDef(t, i));
    FitsDef(m, t, i);
    ExprShape(s, e.left);
    ExprFits(m, s1, e.right);
    var st1 := ExprSound(m, s, e.left, store, st);
    var a := A.EvalExpr(e.left, store, st.trace, m.env);
    var st3 := ExprSound(m, s1, e.right, store, st1);
    var b := A.EvalExpr(e.right, store, a.trace, m.env);
    YieldsAfter(m, s, s1, t, st, st1, st3, v, a.v, a.trace, w, b.v, b.trace);
    YieldsDef(m, s, t, i, st, st3, x.v, x.trace);
    st2 := State(st3.regs[t.nextReg := x.v], st3.slots, x.trace);
  }

  lemma {:induction false} InvokeSound(m: Machine, s: LState, e: A.Expr, store: A.Store, st: State) returns (st2: State)
    requires Shaped(s) && !Terminated(s) && Fits(m, LowerExpr(s, e).0) && Known(store, s) && Match(store, st.slots)
    requires e.Invoke? && A.EvalExpr(e, store, st.trace, m.env).Value?
    ensures var (t, v) := LowerExpr(s, e); var x := A.EvalExpr(e, store, st.trace, m.env);
      Yields(m, s, t, st, st2, v, x.v, x.trace)
    decreases e, 0
  {
    hide Shaped;
    hide Fits;
    hide Strip;
    hide EndsBlock;
    hide Leads;
    hide Keeps;
    var x := A.EvalExpr(e, store, st.trace, m.env);
    var (t, vs) := LowerArgs(s, e.args);
    var i := Call(Some(t.nextReg), e.callee, vs);
    assert Fits(m, EmitDef(t, i));
    FitsDef(m, t, i);
    var st1 := ArgsSound(m, s, e.args, store, st);
    YieldsDef(m, s, t, i, st, st1, x.v, x.trace);
    st2 := State(st1.regs[t.nextReg := x.v], st1.slots, x.trace);
  }

  lemma {:induction false} ArgsSound(m: Machine, s: LState, es: seq<A.Expr>, store: A.Store,
      st: State) returns (st2: State)
    requires Shaped(s) && !Terminated(s) && Fits(m, LowerArgs(s, es).0) && Known(store, s) && Match(store, st.slots)
    requires A.EvalArgs(es, store, st.trace, m.env).Values?
    ensures var (t, vs) := LowerArgs(s, es); var x := A.EvalArgs(es, store, st.trace, m.env);
      YieldsAll(m, s, t, st, st2, vs, x.vs, x.trace)
    decreases es, 0
  {
    hide Shaped;
    hide Fits;
    hide Strip;
    hide EndsBlock;
    hide Keeps;
    st2 := st;
    if es != [] {
      hide Leads;
      var (s1, v) := LowerExpr(s, es[0]);
      var (t, vs) := LowerArgs(s1, es[1..]);
      ExprShape(s, es[0]);
      ArgsFits(m, s1, es[1..]);
      var st1 := ExprSound(m, s, es[0], store, st);
      var a := A.EvalExpr(es[0], store, st.trace, m.env);
      st2 := ArgsSound(m, s1, es[1..], store, st1);
      var xs := A.EvalArgs(es[1..], store, a.trace, m.env);
      YieldsCons(m, s, s1, t, st, st1, st2, v, a.v, a.trace, vs, xs.vs, xs.trace);
    } else {
      LeadsRefl(m, End(s), st);
      KeepsRefl(st, s.nextReg);
    }
  }

  lemma LeadsRefl(m: Machine, p: Point, st: State)
    ensures Leads(m, p, st, p, st, 0)
  {}

  lemma KeepsRefl(st: State, below: nat)
    ensures Keeps(st, st, below)
  {}

  // ----- Names -----

  ghost predicate Apart(names: set<string>) {
    forall x, y :: x in names && y in names && SlotName(x) == SlotName(y) ==> x == y
  }

  function After(scope: set<string>, st: A.Stmt): set<string> { if st.Let? then scope + {st.name} else scope }

  /** No declaration takes the slot of a variable that is in scope there: no shadowing, and no two names in scope with
      the same slot name. Declaring each name once is enough for the former. */
  ghost predicate NoClash(st: A.Stmt, scope: set<string>)
    decreases st
  {
    match st
    case Let(x, _) => forall y :: y in scope ==> SlotName(y) != SlotName(x)
    case Block(ss) => NoClashes(ss, scope)
    case If(_, a, b) => NoClash(a, scope) && (b.Some? ==> NoClash(b.value, scope))
    case While(_, b) => NoClash(b, scope)
    case For(start, _, step, b) =>
      && (start.Some? ==> NoClash(start.value, scope))
      && NoClash(b, if start.Some? then After(scope, start.value) else scope)
    case _ => true
  }

  ghost predicate NoClashes(ss: seq<A.Stmt>, scope: set<string>)
    decreases ss
  { ss == [] || (NoClash(ss[0], scope) && NoClashes(ss[1..], After(scope, ss[0]))) }

  /** The variables in scope have slots of their own, which hold their values. */
  ghost predicate Ready(s: LState, scope: set<string>, store: A.Store, slots: map<string, Val>) {
    && Apart(scope) && store.Keys <= scope && (forall x :: x in scope ==> x in s.syms) && Match(store, slots)
  }

  /** What is known of the lowering state once a statement has ended normally. */
  ghost predicate Settled(t: LState, scope: set<string>, out: A.Out) {
    out.Normal? ==>
      t.Ok() && !Terminated(t) && Apart(scope) && out.store.Keys <= scope && (forall x :: x in scope ==> x in t.syms)
  }

  ghost predicate Entry(s: LState, st: A.Stmt, scope: set<string>, store: A.Store, stt: State) {
    Shaped(s) && !Terminated(s) && A.WellShaped(st) && NoClash(st, scope) && Ready(s, scope, store, stt.slots)
  }

  // ----- Straight-line statements -----

  lemma ReadyKnown(s: LState, scope: set<string>, store: A.Store, slots: map<string, Val>)
    requires Ready(s, scope, store, slots)
    ensures Known(store, s) && Match(store, slots)
  {}

  /** An expression whose value is then consumed in place. */
  lemma ConsumeSound(m: Machine, s: LState, e: A.Expr, i: Inst, store: A.Store, st: State) returns (st1: State)
    requires Shaped(s) && !Terminated(s) && Known(store, s) && Match(store, st.slots)
    requires A.EvalExpr(e, store, st.trace, m.env).Value? && !i.Alloca? && Fits(m, Emit(LowerExpr(s, e).0, i))
    ensures var (t, v) := LowerExpr(s, e); var x := A.EvalExpr(e, store, st.trace, m.env);
      Leads(m, End(s), st, End(t), st1, 0) && st1.slots == st.slots && st1.trace == x.trace
        && Eval(v, st1, m.env) == Some(x.v)
  {
    hide Shaped;
    hide Fits;
    hide Leads;
    FitsEmit(m, LowerExpr(s, e).0, i);
    st1 := ExprSound(m, s, e, store, st);
  }

  lemma StoreSound(m: Machine, s: LState, e: A.Expr, slot: string, store: A.Store, st: State) returns (st2: State)
    requires Shaped(s) && !Terminated(s) && Known(store, s) && Match(store, st.slots)
    requires A.EvalExpr(e, store, st.trace, m.env).Value?
    requires var (t, v) := LowerExpr(s, e); Fits(m, Emit(t, Store(v, slot)))
    ensures var (t, v) := LowerExpr(s, e); var x := A.EvalExpr(e, store, st.trace, m.env);
      Leads(m, End(s), st, End(Emit(t, Store(v, slot))), st2, 0) && st2.slots == st.slots[slot := x.v]
        && st2.trace == x.trace
  {
    hide Shaped;
    hide Fits;
    hide Leads;
    hide End;
    var (t, v) := LowerExpr(s, e);
    hide LowerExpr;
    var i := Store(v, slot);
    var st1 := ConsumeSound(m, s, e, i, store, st);
    var x := A.EvalExpr(e, store, st.trace, m.env);
    st2 := st1.(slots := st1.slots[slot := x.v]);
    EmitNext(m, t, i, st1, st2);
    LeadsTrans(m, End(s), st, End(t), st1, End(Emit(t, i)), st2, 0, 0);
  }

  lemma MatchStored(store: A.Store, scope: set<string>, slots: map<string, Val>, x: string, v: Val)
    requires Match(store, slots) && store.Keys <= scope
    requires forall y :: y in scope && y != x ==> SlotName(y) != SlotName(x)
    ensures Match(store[x := Some(v)], slots[SlotName(x) := v])
  { hide SlotName; }

  lemma EndDeclare(s: LState, x: string)
    requires s.Ok()
    ensures End(Declare(s, x)) == End(s)
  { StripAlloca(s.blocks[0], SlotName(x)); }

  lemma LetDeclares(s: LState, x: string, init: Option<A.Expr>)
    requires Shaped(s) && !Terminated(s)
    ensures x in LowerStmt(s, A.Let(x, init)).syms
  {
    hide BlockShape;
    hide DefsOk;
    DeclareShape(s, x);
    if init.Some? { ExprShape(Declare(s, x), init.value); }
  }

  lemma LetSound(m: Machine, s: LState, st: A.Stmt, scope: set<string>, store: A.Store, stt: State,
      fuel: nat) returns (st2: State)
    requires Entry(s, st, scope, store, stt) && st.Let? && Fits(m, LowerStmt(s, st))
    ensures var out := A.ExecStmt(st, store, stt.trace, m.env, fuel); var t := LowerStmt(s, st);
      Lands(m, End(s), stt, End(t), s.loop, out, fuel, 0, st2) && Settled(t, After(scope, st), out)
  {
    hide BlockShape;
    hide DefsOk;
    hide Fits;
    hide Strip;
    hide SlotName;
    hide End;
    hide WithAlloca;
    var s1 := Declare(s, st.name);
    DeclareShape(s, st.name);
    hide EndsBlock;
    EndDeclare(s, st.name);
    LetShape(s, st.name, st.init);
    LetDeclares(s, st.name, st.init);
    st2 := stt;
    if st.init.None? {
      LeadsRefl(m, End(s), stt);
      hide Leads;
    } else if A.EvalExpr(st.init.value, store, stt.trace, m.env).Value? {
      hide Leads;
      assert Known(store, s1);
      st2 := StoreSound(m, s1, st.init.value, SlotName(st.name), store, stt);
      hide LowerExpr;
      MatchStored(store, scope, stt.slots, st.name, A.EvalExpr(st.init.value, store, stt.trace, m.env).v);
    }
  }

  lemma AssignSound(m: Machine, s: LState, st: A.Stmt, scope: set<string>, store: A.Store, stt: State,
      fuel: nat) returns (st2: State)
    requires Entry(s, st, scope, store, stt) && st.Assign? && Fits(m, LowerStmt(s, st))
    ensures var out := A.ExecStmt(st, store, stt.trace, m.env, fuel); var t := LowerStmt(s, st);
      Lands(m, End(s), stt, End(t), s.loop, out, fuel, 0, st2) && Settled(t, scope, out)
  {
    hide BlockShape;
    hide DefsOk;
    hide Fits;
    hide Strip;
    hide SlotName;
    hide End;
    hide Leads;
    st2 := stt;
    if st.name in s.syms && A.EvalExpr(st.value, store, stt.trace, m.env).Value? && st.name in store {
      ReadyKnown(s, scope, store, stt.slots);
      ExprShape(s, st.value);
      st2 := StoreSound(m, s, st.value, SlotName(st.name), store, stt);
      hide LowerExpr;
      MatchStored(store, scope, stt.slots, st.name, A.EvalExpr(st.value, store, stt.trace, m.env).v);
    }
  }

  lemma ExprStmtSound(m: Machine, s: LState, st: A.Stmt, scope: set<string>, store: A.Store, stt: State,
      fuel: nat) returns (st2: State)
    requires Entry(s, st, scope, store, stt) && st.ExprStmt? && Fits(m, LowerStmt(s, st))
    ensures var out := A.ExecStmt(st, store, stt.trace, m.env, fuel); var t := LowerStmt(s, st);
      Lands(m, End(s), stt, End(t), s.loop, out, fuel, 0, st2) && Settled(t, scope, out)
  {
    hide BlockShape;
    hide DefsOk;
    hide Fits;
    hide Strip;
    hide SlotName;
    hide End;
    hide Leads;
    st2 := stt;
    if A.EvalExpr(st.e, store, stt.trace, m.env).Value? {
      ReadyKnown(s, scope, store, stt.slots);
      ExprShape(s, st.e);
      st2 := ExprSound(m, s, st.e, store, stt);
      hide LowerExpr;
    }
  }

  lemma {:induction false} PrintsSound(m: Machine, s: LState, es: seq<A.Expr>, store: A.Store,
      stt: State) returns (st2: State)
    requires Shaped(s) && !Terminated(s) && Known(store, s) && Match(store, stt.slots) && Fits(m, LowerPrints(s, es))
    ensures var out := A.ExecPrints(es, store, stt.trace, m.env); var t := LowerPrints(s, es);
      && t.syms == s.syms
      && (out.Normal? ==>
        Leads(m, End(s), stt, End(t), st2, 0) && st2.slots == stt.slots && st2.trace == out.trace && out.store == store)
      && (out.Normal? || out.Failed?)
    decreases |es|
  {
    hide BlockShape;
    hide DefsOk;
    hide Strip;
    hide SlotName;
    hide End;
    st2 := stt;
    if es == [] { LeadsRefl(m, End(s), stt); }
    else {
      hide Leads;
      var (s1, v) := LowerExpr(s, es[0]);
      var s2 := Emit(s1, Print(v));
      ExprShape(s, es[0]);
      ExprThen(s, es[0], Print(v));
      PrintsShape(s2, es[1..]);
      FitsBefore(m, s2, LowerPrints(s, es), s2.cur);
      hide Fits;
      hide EndsBlock;
      hide Frame;
      var x := A.EvalExpr(es[0], store, stt.trace, m.env);
      if x.Value? {
        var st1 := ConsumeSound(m, s, es[0], Print(v), store, stt);
        hide LowerExpr;
        var mid := st1.(trace := x.trace + [Printed(x.v)]);
        EmitNext(m, s1, Print(v), st1, mid);
        LeadsTrans(m, End(s), stt, End(s1), st1, End(s2), mid, 0, 0);
        st2 := PrintsSound(m, s2, es[1..], store, mid);
        if A.ExecPrints(es, store, stt.trace, m.env).Normal? {
          LeadsTrans(m, End(s), stt, End(s2), mid, End(LowerPrints(s, es)), st2, 0, 0);
        }
      } else {
        var rest := PrintsSound(m, s2, es[1..], store, stt);
      }
    }
  }

  lemma PrintStmtSound(m: Machine, s: LState, st: A.Stmt, scope: set<string>, store: A.Store, stt: State,
      fuel: nat) returns (st2: State)
    requires Entry(s, st, scope, store, stt) && st.PrintStmt? && Fits(m, LowerStmt(s, st))
    ensures var out := A.ExecStmt(st, store, stt.trace, m.env, fuel); var t := LowerStmt(s, st);
      Lands(m, End(s), stt, End(t), s.loop, out, fuel, 0, st2) && Settled(t, scope, out)
  {
    hide BlockShape;
    hide DefsOk;
    hide Fits;
    hide Strip;
    hide SlotName;
    hide End;
    hide Leads;
    ReadyKnown(s, scope, store, stt.slots);
    PrintsShape(s, st.values);
    st2 := PrintsSound(m, s, st.values, store, stt);
    hide LowerPrints;
    hide A.ExecPrints;
  }

  lemma ReturnSound(m: Machine, s: LState, st: A.Stmt, scope: set<string>, store: A.Store, stt: State,
      fuel: nat) returns (st2: State)
    requires Entry(s, st, scope, store, stt) && st.Return? && Fits(m, LowerStmt(s, st))
    ensures var out := A.ExecStmt(st, store, stt.trace, m.env, fuel); var t := LowerStmt(s, st);
      Lands(m, End(s), stt, End(t), s.loop, out, fuel, 0, st2) && !out.Normal?
  {
    hide BlockShape;
    hide DefsOk;
    hide Fits;
    hide Strip;
    hide SlotName;
    hide End;
    hide Leads;
    hide Ends;
    st2 := stt;
    if st.result.None? { EmitReturn(m, s, Ret(None), stt, None, stt); }
    else if A.EvalExpr(st.result.value, store, stt.trace, m.env).Value? {
      var (s1, v) := LowerExpr(s, st.result.value);
      var x := A.EvalExpr(st.result.value, store, stt.trace, m.env);
      ReadyKnown(s, scope, store, stt.slots);
      st2 := ConsumeSound(m, s, st.result.value, Ret(Some(v)), store, stt);
      hide LowerExpr;
      EmitReturn(m, s1, Ret(Some(v)), st2, Some(x.v), st2);
      LandsAfter(m, End(s), stt, End(s1), st2, 0, End(LowerStmt(s, st)), s.loop, A.Returned(Some(x.v), x.trace), fuel,
        0, st2, fuel);
    }
  }

  lemma JumpSound(m: Machine, s: LState, st: A.Stmt, scope: set<string>, store: A.Store, stt: State, fuel: nat)
    requires Entry(s, st, scope, store, stt) && (st.Break? || st.Continue?) && Fits(m, LowerStmt(s, st))
    ensures var out := A.ExecStmt(st, store, stt.trace, m.env, fuel); var t := LowerStmt(s, st);
      Lands(m, End(s), stt, End(t), s.loop, out, fuel, 1, stt) && !out.Normal?
  {
    hide BlockShape;
    hide DefsOk;
    hide Fits;
    hide Strip;
    hide SlotName;
    hide End;
    hide Leads;
    if s.loop.Some? {
      var b := if st.Break? then s.loop.value.exitBlock else s.loop.value.stepBlock;
      EmitJump(m, s, Br(b), stt, b, stt);
    }
  }

  // ----- Branches -----

  /** A block that nothing has been put in yet, slot declarations aside. */
  ghost predicate Empty(s: LState, b: nat) { b < |s.blocks| && Strip(s.blocks[b]) == [] && !EndsBlock(s.blocks[b]) }

  lemma EmptyFrame(s: LState, t: LState, at: nat, b: nat)
    requires Frame(s, t, at) && Empty(s, b) && b != at
    ensures Empty(t, b)
  {
    hide Strip;
    hide EndsBlock;
  }

  lemma EmptyEnd(s: LState, b: nat)
    requires s.Ok() && Empty(s, b)
    ensures End(MoveTo(s, b)) == Point(b, 0) && !Terminated(MoveTo(s, b))
  {}

  lemma Moved(m: Machine, s: LState, b: nat, loop: Option<LoopScope>)
    requires s.Ok() && b < |s.blocks|
    ensures Fits(m, MoveTo(s.(loop := loop), b)) <==> Fits(m, s)
  {}

  lemma FitsBranch(m: Machine, s: LState, guard: Option<A.Expr>, ifTrue: nat, ifFalse: nat)
    requires Shaped(s) && !Terminated(s) && Fits(m, Branch(s, guard, ifTrue, ifFalse)) && ifTrue < |s.blocks|
      && ifFalse < |s.blocks|
    ensures Fits(m, s)
  {
    hide BlockShape;
    hide DefsOk;
    BranchShape(s, guard, ifTrue, ifFalse);
    hide Branch;
    FitsBefore(m, s, Branch(s, guard, ifTrue, ifFalse), s.cur);
  }

  function GuardValue(guard: Option<A.Expr>, store: A.Store, trace: seq<Event>, env: Env): A.ExprOut {
    if guard.None? then A.Value(VBool(true), trace) else A.EvalExpr(guard.value, store, trace, env)
  }

  lemma BranchSound(m: Machine, s: LState, guard: Option<A.Expr>, ifTrue: nat, ifFalse: nat, store: A.Store,
      st: State) returns (st2: State)
    requires Shaped(s) && !Terminated(s) && Known(store, s) && Match(store, st.slots)
      && Fits(m, Branch(s, guard, ifTrue, ifFalse))
    requires GuardValue(guard, store, st.trace, m.env).Value?
    ensures var x := GuardValue(guard, store, st.trace, m.env);
      Leads(m, End(s), st, Point(if Truthy(x.v) then ifTrue else ifFalse, 0), st2, 1) && st2.slots == st.slots
        && st2.trace == x.trace
  {
    hide Shaped;
    hide Fits;
    hide Leads;
    hide End;
    var x := GuardValue(guard, store, st.trace, m.env);
    var b := if Truthy(x.v) then ifTrue else ifFalse;
    if guard.None? {
      st2 := st;
      EmitJump(m, s, CondBr(ConstBool(true), ifTrue, ifFalse), st, b, st2);
    } else {
      var (s1, c) := LowerExpr(s, guard.value);
      hide LowerExpr;
      st2 := ConsumeSound(m, s, guard.value, CondBr(c, ifTrue, ifFalse), store, st);
      EmitJump(m, s1, CondBr(c, ifTrue, ifFalse), st2, b, st2);
      LeadsTrans(m, End(s), st, End(s1), st2, Point(b, 0), st2, 0, 1);
    }
  }

  lemma FitsNewBlocks(m: Machine, s: LState, n: nat)
    requires Shaped(s) && Fits(m, NewBlocks(s, n))
    ensures Fits(m, s) && End(NewBlocks(s, n)) == End(s)
  {
    hide BlockShape;
    hide DefsOk;
    hide EndsBlock;
    NewBlocksShape(s, n);
    hide NewBlocks;
    hide Strip;
    hide Frame;
    var t := NewBlocks(s, n);
    forall b | 0 <= b < |s.blocks| ensures Strip(s.blocks[b]) <= m.code[b] { assert t.blocks[b] == s.blocks[b]; }
  }

  lemma IfHeadFits(m: Machine, s: LState, st: A.Stmt)
    requires Shaped(s) && !Terminated(s) && st.If? && Fits(m, IfHead(s, st))
    ensures var (s1, c) := LowerExpr(s, st.cond); var s2 := NewBlocks(s1, if st.elseB.Some? then 3 else 2);
      Fits(m, s1) && Fits(m, Emit(s2, CondBr(c, |s.blocks|, |s.blocks| + 1))) && End(s1) == End(s2)
        && s1.cur == s2.cur == s.cur
  {
    hide BlockShape;
    hide DefsOk;
    hide EndsBlock;
    hide Strip;
    hide NewBlocks;
    hide Fits;
    var (s1, c) := LowerExpr(s, st.cond);
    var n := if st.elseB.Some? then 3 else 2;
    ExprShape(s, st.cond);
    hide LowerExpr;
    hide SameButCur;
    FitsEmit(m, NewBlocks(s1, n), CondBr(c, |s.blocks|, |s.blocks| + 1));
    FitsNewBlocks(m, s1, n);
  }

  lemma IfHeadSound(m: Machine, s: LState, st: A.Stmt, store: A.Store, stt: State) returns (st2: State)
    requires Shaped(s) && !Terminated(s) && st.If? && Known(store, s) && Match(store, stt.slots)
      && Fits(m, IfHead(s, st))
    requires A.EvalExpr(st.cond, store, stt.trace, m.env).Value?
    ensures var x := A.EvalExpr(st.cond, store, stt.trace, m.env); var n := |s.blocks|;
      Leads(m, End(s), stt, Point(if Truthy(x.v) then n else n + 1, 0), st2, 1) && st2.slots == stt.slots
        && st2.trace == x.trace
  {
    hide BlockShape;
    hide DefsOk;
    hide Strip;
    hide EndsBlock;
    hide Fits;
    hide Leads;
    hide Known;
    hide Match;
    hide End;
    hide NewBlocks;
    hide LowerExpr;
    hide A.EvalExpr;
    hide IfHead;
    var x := A.EvalExpr(st.cond, store, stt.trace, m.env);
    var n := |s.blocks|;
    var (s1, c) := LowerExpr(s, st.cond);
    var s2 := NewBlocks(s1, if st.elseB.Some? then 3 else 2);
    IfHeadFits(m, s, st);
    st2 := ExprSound(m, s, st.cond, store, stt);
    var b := if Truthy(x.v) then n else n + 1;
    EmitJump(m, s2, CondBr(c, n, n + 1), st2, b, st2);
    LeadsTrans(m, End(s), stt, End(s1), st2, Point(b, 0), st2, 0, 1);
  }

  // ----- Statements -----

  /** What lowering an `if` leaves where, before and after each arm. */
  lemma IfParts(m: Machine, s: LState, st: A.Stmt)
    requires Shaped(s) && !Terminated(s) && st.If? && A.WellShaped(st) && Fits(m, LowerIf(s, st))
    ensures var n := |s.blocks|; var mergeB := n + (if st.elseB.Some? then 2 else 1);
      var h := IfHead(s, st); var u := Arm(h, n, st.thenB, mergeB); var t := LowerIf(s, st);
      && Shaped(h) && Fits(m, h) && Empty(h, n) && h.syms == s.syms && h.loop == s.loop && mergeB < |h.blocks|
      && Shaped(u) && Fits(m, u) && (forall x :: x in s.syms ==> x in u.syms) && u.loop == s.loop && mergeB < |u.blocks|
      && (st.elseB.Some? ==> Empty(u, n + 1) && Fits(m, Arm(u, n + 1, st.elseB.value, mergeB)))
      && t.cur == mergeB && Empty(t, mergeB) && (forall x :: x in s.syms ==> x in t.syms)
  {
    hide BlockShape;
    hide DefsOk;
    hide Strip;
    hide EndsBlock;
    hide Fits;
    hide IfHead;
    hide Arm;
    var n := |s.blocks|;
    var mergeB := n + (if st.elseB.Some? then 2 else 1);
    var h := IfHead(s, st);
    IfOpened(s, st);
    ArmShape(h, n, st.thenB, mergeB);
    var u := Arm(h, n, st.thenB, mergeB);
    EmptyFrame(h, u, n, mergeB);
    EmptyFrame(h, u, n, n + 1);
    var v := if st.elseB.Some? then Arm(u, n + 1, st.elseB.value, mergeB) else u;
    IfIs(s, st);
    hide LowerIf;
    if st.elseB.Some? {
      ArmShape(u, n + 1, st.elseB.value, mergeB);
      EmptyFrame(u, v, n + 1, mergeB);
      Moved(m, v, mergeB, v.loop);
      FitsBefore(m, u, v, n + 1);
    } else {
      Moved(m, u, mergeB, u.loop);
    }
    FitsBefore(m, h, u, n);
  }

  lemma IfOpened(s: LState, st: A.Stmt)
    requires Shaped(s) && !Terminated(s) && st.If?
    ensures var h := IfHead(s, st); Shaped(h) && h.syms == s.syms && h.loop == s.loop
    ensures var h := IfHead(s, st); forall b :: |s.blocks| <= b < |h.blocks| ==> Empty(h, b)
  {
    hide BlockShape;
    hide DefsOk;
    hide Frame;
    IfHeadShape(s, st);
    hide IfHead;
  }

  lemma IfIs(s: LState, st: A.Stmt)
    requires s.Ok() && st.If?
    ensures var n := |s.blocks|; var mergeB := n + (if st.elseB.Some? then 2 else 1);
      var u := Arm(IfHead(s, st), n, st.thenB, mergeB);
      LowerIf(s, st) == MoveTo(if st.elseB.Some? then Arm(u, n + 1, st.elseB.value, mergeB) else u, mergeB)
  {
    hide LowerStmt;
    hide IfHead;
    hide EmitUnlessEnded;
  }

  lemma EmptyNew(s: LState, b: nat)
    requires b < |s.blocks| && s.blocks[b] == []
    ensures Empty(s, b)
  {}

  /** Entering a loop: one jump to its condition block. */
  lemma LoopEnter(m: Machine, s: LState, count: nat, stt: State)
    requires Shaped(s) && !Terminated(s) && count > 0 && Fits(m, LoopHead(s, count))
    ensures Leads(m, End(s), stt, Point(|s.blocks|, 0), stt, 1)
  {
    hide BlockShape;
    hide DefsOk;
    hide Strip;
    var n := |s.blocks|;
    var s0 := NewBlocks(s, count);
    NewBlocksShape(s, count);
    Moved(m, Emit(s0, Br(n)), n, s0.loop);
    hide NewBlocks;
    hide EndsBlock;
    hide Frame;
    assert End(s0) == End(s);
    EmitJump(m, s0, Br(n), stt, n, stt);
  }

  /** The head of a loop, made from `s`: its condition block, and the state its arms start from. */
  lemma LoopParts(m: Machine, s: LState, count: nat, guard: Option<A.Expr>, exitB: nat, stepB: nat)
    requires Shaped(s) && !Terminated(s) && count > 1
    requires |s.blocks| < exitB < |s.blocks| + count && |s.blocks| <= stepB < |s.blocks| + count
    requires Fits(m, Branch(LoopHead(s, count), guard, |s.blocks| + 1, exitB))
    ensures var n := |s.blocks|; var h := LoopHead(s, count);
      && Shaped(h) && !Terminated(h) && End(h) == Point(n, 0) && h.syms == s.syms && Fits(m, h)
  {
    hide BlockShape;
    hide DefsOk;
    hide Strip;
    LoopHeadShape(s, count);
    EmptyNew(LoopHead(s, count), |s.blocks|);
    EmptyEnd(LoopHead(s, count), |s.blocks|);
    hide EndsBlock;
    FitsBranch(m, LoopHead(s, count), guard, |s.blocks| + 1, exitB);
  }

  lemma WhileParts(m: Machine, s: LState, st: A.Stmt)
    requires Shaped(s) && !Terminated(s) && st.While? && A.WellShaped(st) && Fits(m, LowerWhile(s, st))
    ensures var n := |s.blocks|; var h := LoopHead(s, 3); var b := Branch(h, Some(st.cond), n + 1, n + 2);
      var s1 := b.(loop := Some(LoopScope(n, n + 2))); var t := LowerWhile(s, st);
      && Shaped(h) && !Terminated(h) && End(h) == Point(n, 0) && h.syms == s.syms && Fits(m, h) && Fits(m, b)
      && Shaped(s1) && Empty(s1, n + 1) && s1.syms == s.syms && Fits(m, Arm(s1, n + 1, st.body, n))
      && t.cur == n + 2 && Empty(t, n + 2) && (forall x :: x in s.syms ==> x in t.syms)
  {
    hide BlockShape;
    hide DefsOk;
    hide Strip;
    var n := |s.blocks|;
    LoopOpened(s, 3, Some(st.cond), n + 2, n);
    var b := Branch(LoopHead(s, 3), Some(st.cond), n + 1, n + 2);
    var s1 := b.(loop := Some(LoopScope(n, n + 2)));
    EmptyNew(s1, n + 1);
    EmptyNew(s1, n + 2);
    ArmShape(s1, n + 1, st.body, n);
    var u := Arm(s1, n + 1, st.body, n);
    assert LowerWhile(s, st) == MoveTo(u.(loop := s.loop), n + 2);
    EmptyFrame(s1, u, n + 1, n + 2);
    Moved(m, u, n + 2, s.loop);
    hide Arm;
    FitsBefore(m, s1, u, n + 1);
    assert Fits(m, b);
    hide Branch;
    hide Fits;
    LoopParts(m, s, 3, Some(st.cond), n + 2, n);
  }

  /** The arms of a `for` whose head is `s1` and whose blocks start at `n`. */
  lemma ForArms(m: Machine, s1: LState, st: A.Stmt, n: nat)
    requires Shaped(s1) && A.WellShaped(st) && st.For? && Empty(s1, n + 1) && Empty(s1, n + 2) && Empty(s1, n + 3)
    requires Fits(m, StepArm(Arm(s1, n + 1, st.body, n + 2), st, n + 2, n))
    ensures var u := Arm(s1, n + 1, st.body, n + 2); var v := StepArm(u, st, n + 2, n);
      && Shaped(u) && Empty(u, n + 2) && u.loop == s1.loop && (forall x :: x in s1.syms ==> x in u.syms) && Fits(m, u)
        && Fits(m, s1)
      && Empty(v, n + 3) && (forall x :: x in s1.syms ==> x in v.syms)
  {
    hide BlockShape;
    hide DefsOk;
    hide Strip;
    hide EndsBlock;
    hide Fits;
    ArmShape(s1, n + 1, st.body, n + 2);
    var u := Arm(s1, n + 1, st.body, n + 2);
    hide Arm;
    EmptyFrame(s1, u, n + 1, n + 2);
    EmptyFrame(s1, u, n + 1, n + 3);
    StepShape(u, st, n + 2, n);
    var v := StepArm(u, st, n + 2, n);
    hide StepArm;
    EmptyFrame(u, v, n + 2, n + 3);
    FitsBefore(m, u, v, n + 2);
    FitsBefore(m, s1, u, n + 1);
  }

  function ForOpened(s: LState, st: A.Stmt): (r: LState)
    requires s.Ok() && st.For?
    ensures r.Ok() && |r.blocks| == |s.blocks| + 4
  {
    var n := |s.blocks|;
    Branch(LoopHead(s, 4), st.guard, n + 1, n + 3).(loop := Some(LoopScope(n + 2, n + 3)))
  }

  function ForBody(s: LState, st: A.Stmt): (r: LState)
    requires s.Ok() && st.For?
    ensures r.Ok() && |r.blocks| >= |s.blocks| + 4
  { Arm(ForOpened(s, st), |s.blocks| + 1, st.body, |s.blocks| + 2) }

  function ForStep(s: LState, st: A.Stmt): (r: LState)
    requires s.Ok() && st.For?
    ensures r.Ok()
  { StepArm(ForBody(s, st), st, |s.blocks| + 2, |s.blocks|) }

  lemma ForHead(s: LState, st: A.Stmt)
    requires Shaped(s) && !Terminated(s) && st.For?
    ensures var s1 := ForOpened(s, st); var n := |s.blocks|;
      && Shaped(s1) && s1.syms == s.syms && Empty(s1, n + 1) && Empty(s1, n + 2) && Empty(s1, n + 3)
  {
    hide BlockShape;
    hide DefsOk;
    hide Frame;
    hide EndsBlock;
    hide Branch;
    hide LoopHead;
    hide Empty;
    var n := |s.blocks|;
    var s1 := ForOpened(s, st);
    LoopOpened(s, 4, st.guard, n + 3, n + 2);
    hide Strip;
    EmptyNew(s1, n + 1);
    EmptyNew(s1, n + 2);
    EmptyNew(s1, n + 3);
  }

  lemma ForIs(m: Machine, s: LState, st: A.Stmt)
    requires s.Ok() && st.For?
    ensures var n := |s.blocks|; var v := StepArm(Arm(ForOpened(s, st), n + 1, st.body, n + 2), st, n + 2, n);
      LowerFor(s, st) == MoveTo(v.(loop := s.loop), n + 3) && (Fits(m, LowerFor(s, st)) <==> Fits(m, v))
  {
    hide Branch;
    hide LoopHead;
    hide LowerStmt;
    hide EmitUnlessEnded;
    hide Strip;
    hide Terminated;
  }

  /** What lowering a `for` leaves where, before and after each of its blocks. */
  lemma ForParts(m: Machine, s: LState, st: A.Stmt)
    requires Shaped(s) && !Terminated(s) && st.For? && A.WellShaped(st) && Fits(m, LowerFor(s, st))
    ensures var n := |s.blocks|;
      var s1 := ForOpened(s, st); var u := ForBody(s, st); var t := LowerFor(s, st);
      && Shaped(s1) && Empty(s1, n + 1) && s1.syms == s.syms && Fits(m, s1) && Fits(m, u)
      && Shaped(u) && Empty(u, n + 2) && u.loop == s1.loop && (forall x :: x in s.syms ==> x in u.syms)
      && Fits(m, ForStep(s, st))
      && t.cur == n + 3 && Empty(t, n + 3) && (forall x :: x in s.syms ==> x in t.syms)
  {
    hide BlockShape;
    hide DefsOk;
    hide Strip;
    hide EndsBlock;
    hide Frame;
    hide LowerFor;
    hide Arm;
    hide StepArm;
    hide ForOpened;
    hide LowerStmt;
    hide EmitUnlessEnded;
    hide Fits;
    ForHead(s, st);
    ForIs(m, s, st);
    ForArms(m, ForOpened(s, st), st, |s.blocks|);
    hide Shaped;
  }

  lemma ForGuard(m: Machine, s: LState, st: A.Stmt)
    requires Shaped(s) && !Terminated(s) && st.For? && Fits(m, ForOpened(s, st))
    ensures var n := |s.blocks|; var h := LoopHead(s, 4);
      Shaped(h) && !Terminated(h) && End(h) == Point(n, 0) && h.syms == s.syms && Fits(m, h)
        && Fits(m, Branch(h, st.guard, n + 1, n + 3))
  {
    hide BlockShape;
    hide DefsOk;
    hide Strip;
    hide EndsBlock;
    hide LoopHead;
    hide Branch;
    var n := |s.blocks|;
    assert Fits(m, Branch(LoopHead(s, 4), st.guard, n + 1, n + 3));
    LoopParts(m, s, 4, st.guard, n + 3, n + 2);
  }

  lemma SettledReady(s: LState, t: LState, scope: set<string>, store: A.Store, slots: map<string, Val>)
    requires Apart(scope) && store.Keys <= scope && (forall x :: x in scope ==> x in s.syms) && Match(store, slots)
    requires forall x :: x in s.syms ==> x in t.syms
    ensures Ready(t, scope, store, slots)
  {}

  lemma RunOut(m: Machine, p: Point, s1: State, q: Point, s2: State, k: nat, next: Point, loop: Option<LoopScope>)
    requires Leads(m, p, s1, q, s2, k) && k > 0
    ensures Lands(m, p, s1, next, loop, A.TimedOut, 0, k, s2)
  {}

  // ----- The simulation -----

  /** Every statement that runs to an end, or runs out of fuel, is matched by the code made for it. */
  lemma {:induction false} StmtSound(m: Machine, s: LState, st: A.Stmt, scope: set<string>, store: A.Store, stt: State,
      fuel: nat)
    returns (k: nat, st2: State)
    requires Entry(s, st, scope, store, stt) && Fits(m, LowerStmt(s, st))
    ensures var out := A.ExecStmt(st, store, stt.trace, m.env, fuel); var t := LowerStmt(s, st);
      Lands(m, End(s), stt, End(t), s.loop, out, fuel, k, st2) && Settled(t, After(scope, st), out)
    decreases fuel, st, 5
  {
    k := 0;
    match st
    case Let(_, _) => st2 := LetSound(m, s, st, scope, store, stt, fuel);
    case Assign(_, _) => st2 := AssignSound(m, s, st, scope, store, stt, fuel);
    case ExprStmt(_) => st2 := ExprStmtSound(m, s, st, scope, store, stt, fuel);
    case PrintStmt(_) => st2 := PrintStmtSound(m, s, st, scope, store, stt, fuel);
    case Block(_) => k, st2 := BlockSound(m, s, st, scope, store, stt, fuel);
    case If(_, _, _) => k, st2 := IfSound(m, s, st, scope, store, stt, fuel);
    case While(_, _) => k, st2 := WhileSound(m, s, st, scope, store, stt, fuel);
    case For(_, _, _, _) => k, st2 := ForSound(m, s, st, scope, store, stt, fuel);
    case Return(_) => st2 := ReturnSound(m, s, st, scope, store, stt, fuel);
    case Break => k, st2 := 1, stt; JumpSound(m, s, st, scope, store, stt, fuel);
    case Continue => k, st2 := 1, stt; JumpSound(m, s, st, scope, store, stt, fuel);
  }

  lemma NoShadow(st: A.Stmt, scope: set<string>, store: A.Store)
    requires NoClash(st, scope) && store.Keys <= scope
    ensures forall out: A.Out :: A.Unshadow(out, st, store) == out
  { hide SlotName; }

  lemma {:induction false} BlockSound(m: Machine, s: LState, st: A.Stmt, scope: set<string>, store: A.Store, stt: State,
      fuel: nat)
    returns (k: nat, st2: State)
    requires Entry(s, st, scope, store, stt) && st.Block? && Fits(m, LowerStmt(s, st))
    ensures var out := A.ExecStmt(st, store, stt.trace, m.env, fuel); var t := LowerStmt(s, st);
      Lands(m, End(s), stt, End(t), s.loop, out, fuel, k, st2) && Settled(t, scope, out)
    decreases fuel, st, 2
  {
    hide BlockShape;
    hide DefsOk;
    hide EndsBlock;
    hide Strip;
    hide Lands;
    hide SlotName;
    hide End;
    hide Fits;
    ghost var last: set<string>;
    k, st2, last := StmtsSound(m, s, st.stmts, scope, store, stt, fuel);
    var out := A.ExecStmts(st.stmts, store, stt.trace, m.env, fuel);
    StmtsShape(s, st.stmts);
    hide A.ExecStmts;
    hide LowerStmts;
    LandsLeave(m, End(s), stt, End(LowerStmt(s, st)), s.loop, out, fuel, k, st2, store);
  }

  lemma {:induction false} StmtsSound(m: Machine, s: LState, ss: seq<A.Stmt>, scope: set<string>, store: A.Store,
      stt: State, fuel: nat)
    returns (k: nat, st2: State, last: set<string>)
    requires Shaped(s) && !Terminated(s) && (forall i :: 0 <= i < |ss| ==> A.WellShaped(ss[i])) && NoClashes(ss, scope)
    requires Ready(s, scope, store, stt.slots) && Fits(m, LowerStmts(s, ss))
    ensures var out := A.ExecStmts(ss, store, stt.trace, m.env, fuel); var t := LowerStmts(s, ss);
      Lands(m, End(s), stt, End(t), s.loop, out, fuel, k, st2) && Settled(t, last, out)
    decreases fuel, ss, 0
  {
    hide BlockShape;
    hide DefsOk;
    hide EndsBlock;
    hide Strip;
    hide SlotName;
    hide End;
    hide Leads;
    hide Match;
    hide Apart;
    hide LowerStmt;
    hide A.ExecStmt;
    if ss == [] {
      k, st2, last := 0, stt, scope;
      LeadsRefl(m, End(s), stt);
    } else {
      var t, u := LowerStmt(s, ss[0]), LowerStmts(s, ss);
      StmtShape(s, ss[0]);
      StmtsShape(t, ss[1..]);
      FitsBefore(m, t, u, t.cur);
      hide Fits;
      k, st2 := StmtSound(m, s, ss[0], scope, store, stt, fuel);
      last := After(scope, ss[0]);
      var out := A.ExecStmt(ss[0], store, stt.trace, m.env, fuel);
      if out.Normal? {
        NoShadow(ss[0], scope, store);
        SettledReady(t, t, last, out.store, st2.slots);
        var k2, st3;
        k2, st3, last := StmtsSound(m, t, ss[1..], last, out.store, st2, fuel);
        var out2 := A.ExecStmts(ss[1..], out.store, out.trace, m.env, fuel);
        LandsAfter(m, End(s), stt, End(t), st2, k, End(u), s.loop, out2, fuel, k2, st3, fuel);
        k, st2 := k + k2, st3;
      }
    }
  }

  lemma ArmFits(m: Machine, s: LState, b: nat, st: A.Stmt, target: nat)
    requires s.Ok() && b < |s.blocks| && Fits(m, Arm(s, b, st, target))
    ensures var t := LowerStmt(MoveTo(s, b), st); Fits(m, t) && (!Terminated(t) ==> Fits(m, Emit(t, Br(target))))
  {
    hide LowerStmt;
    hide Fits;
    var t := LowerStmt(MoveTo(s, b), st);
    if !Terminated(t) { FitsEmit(m, t, Br(target)); }
  }

  /** An arm leads to its target when it ends normally. */
  lemma {:induction false} ArmSound(m: Machine, s: LState, b: nat, st: A.Stmt, target: nat, scope: set<string>,
      store: A.Store, stt: State, fuel: nat)
    returns (k: nat, st2: State)
    requires Shaped(s) && Empty(s, b) && A.WellShaped(st) && NoClash(st, scope) && Ready(s, scope, store, stt.slots)
    requires target < |s.blocks| && Fits(m, Arm(s, b, st, target))
    ensures var out := A.ExecScoped(st, store, stt.trace, m.env, fuel);
      Lands(m, Point(b, 0), stt, Point(target, 0), s.loop, out, fuel, k, st2)
    decreases fuel, st, 6
  {
    hide BlockShape;
    hide DefsOk;
    hide Strip;
    hide SlotName;
    hide End;
    hide Ready;
    hide Arm;
    hide Fits;
    hide EndsBlock;
    hide LowerStmt;
    hide A.ExecStmt;
    hide Leads;
    var s1 := MoveTo(s, b);
    EmptyEnd(s, b);
    hide Empty;
    ReadyMoved(s, b, scope, store, stt.slots);
    var t := LowerStmt(s1, st);
    ArmFits(m, s, b, st, target);
    k, st2 := StmtSound(m, s1, st, scope, store, stt, fuel);
    var out := A.ExecStmt(st, store, stt.trace, m.env, fuel);
    if out.Normal? {
      EmitJump(m, t, Br(target), st2, target, st2);
      LeadsTrans(m, Point(b, 0), stt, End(t), st2, Point(target, 0), st2, k, 1);
      k := k + 1;
    }
    LandsLeave(m, Point(b, 0), stt, Point(target, 0), s.loop, out, fuel, k, st2, store);
  }

  lemma ReadyMoved(s: LState, b: nat, scope: set<string>, store: A.Store, slots: map<string, Val>)
    requires s.Ok() && b < |s.blocks| && Ready(s, scope, store, slots)
    ensures Ready(MoveTo(s, b), scope, store, slots)
  {}

  lemma {:induction false} IfSound(m: Machine, s: LState, st: A.Stmt, scope: set<string>, store: A.Store, stt: State,
      fuel: nat)
    returns (k: nat, st2: State)
    requires Entry(s, st, scope, store, stt) && st.If? && Fits(m, LowerStmt(s, st))
    ensures var out := A.ExecStmt(st, store, stt.trace, m.env, fuel); var t := LowerStmt(s, st);
      Lands(m, End(s), stt, End(t), s.loop, out, fuel, k, st2) && Settled(t, scope, out)
    decreases fuel, st, 2
  {
    hide BlockShape;
    hide DefsOk;
    hide EndsBlock;
    hide Strip;
    hide SlotName;
    hide Fits;
    hide Leads;
    hide Match;
    hide Apart;
    hide LowerIf;
    hide IfHead;
    hide Arm;
    var n := |s.blocks|;
    var mergeB := n + (if st.elseB.Some? then 2 else 1);
    var t := LowerStmt(s, st);
    k, st2 := 0, stt;
    IfParts(m, s, st);
    var h := IfHead(s, st);
    EmptyEnd(t, mergeB);
    assert MoveTo(t, mergeB) == t;
    hide End;
    hide Empty;
    var x := A.EvalExpr(st.cond, store, stt.trace, m.env);
    if x.Value? {
      ReadyKnown(s, scope, store, stt.slots);
      st2 := IfHeadSound(m, s, st, store, stt);
      if Truthy(x.v) {
        SettledReady(s, h, scope, store, st2.slots);
        var k2, st3 := ArmSound(m, h, n, st.thenB, mergeB, scope, store, st2, fuel);
        LandsAfter(m, End(s), stt, Point(n, 0), st2, 1, Point(mergeB, 0), s.loop,
          A.ExecScoped(st.thenB, store, x.trace, m.env, fuel), fuel, k2, st3, fuel);
        k, st2 := 1 + k2, st3;
      } else if st.elseB.Some? {
        var u := Arm(h, n, st.thenB, mergeB);
        SettledReady(s, u, scope, store, st2.slots);
        var k2, st3 := ArmSound(m, u, n + 1, st.elseB.value, mergeB, scope, store, st2, fuel);
        LandsAfter(m, End(s), stt, Point(n + 1, 0), st2, 1, Point(mergeB, 0), s.loop,
          A.ExecScoped(st.elseB.value, store, x.trace, m.env, fuel), fuel, k2, st3, fuel);
        k, st2 := 1 + k2, st3;
      } else {
        k := 1;
      }
    }
  }

  lemma {:induction false} WhileSound(m: Machine, s: LState, st: A.Stmt, scope: set<string>, store: A.Store, stt: State,
      fuel: nat)
    returns (k: nat, st2: State)
    requires Entry(s, st, scope, store, stt) && st.While? && Fits(m, LowerStmt(s, st))
    ensures var out := A.ExecStmt(st, store, stt.trace, m.env, fuel); var t := LowerStmt(s, st);
      Lands(m, End(s), stt, End(t), s.loop, out, fuel, k, st2) && Settled(t, scope, out)
    decreases fuel, st, 2
  {
    hide BlockShape;
    hide DefsOk;
    hide EndsBlock;
    hide Strip;
    hide SlotName;
    hide Fits;
    hide Leads;
    hide Lands;
    var n := |s.blocks|;
    var t := LowerStmt(s, st);
    WhileParts(m, s, st);
    EmptyEnd(t, n + 2);
    assert MoveTo(t, n + 2) == t;
    assert Fits(m, LoopHead(s, 3));
    hide LowerWhile;
    hide End;
    hide Empty;
    hide A.ExecStmt;
    LoopEnter(m, s, 3, stt);
    k, st2 := WhileRuns(m, s, st, scope, store, stt, fuel);
    LandsAfter(m, End(s), stt, Point(n, 0), stt, 1, End(t), s.loop, A.ExecStmt(st, store, stt.trace, m.env, fuel),
      fuel, k, st2, fuel);
    k := k + 1;
  }

  lemma WhileUnfold(st: A.Stmt, store: A.Store, trace: seq<Event>, env: Env, fuel: nat)
    requires st.While?
    ensures var x := A.EvalExpr(st.cond, store, trace, env); var all := A.ExecStmt(st, store, trace, env, fuel);
      && (x.Wrong? ==> all == A.Failed)
      && (x.Value? && !Truthy(x.v) ==> all == A.Normal(store, x.trace))
      && (x.Value? && Truthy(x.v) ==>
        var o := A.ExecScoped(st.body, store, x.trace, env, fuel);
        all == if o.Normal? || o.Continued?
          then (if fuel == 0 then A.TimedOut else A.ExecStmt(st, o.store, o.trace, env, fuel - 1))
               else if o.Broke? then A.Normal(o.store, o.trace) else o)
  {
    hide A.EvalExpr;
    hide A.ExecScoped;
  }

  /** From the condition block of a `while`, by induction on the fuel. */
  lemma {:induction false} WhileRuns(m: Machine, s: LState, st: A.Stmt, scope: set<string>, store: A.Store, stt: State,
      fuel: nat)
    returns (k: nat, st2: State)
    requires Entry(s, st, scope, store, stt) && st.While? && Fits(m, LowerWhile(s, st))
    ensures var out := A.ExecStmt(st, store, stt.trace, m.env, fuel); var n := |s.blocks|;
      Lands(m, Point(n, 0), stt, Point(n + 2, 0), s.loop, out, fuel, k, st2)
        && (out.Normal? ==> out.store.Keys <= store.Keys)
    decreases fuel, st, 1
  {
    hide BlockShape;
    hide DefsOk;
    hide EndsBlock;
    hide Strip;
    hide SlotName;
    hide Fits;
    hide Leads;
    hide LoopHead;
    hide Branch;
    hide Arm;
    hide LowerWhile;
    hide End;
    hide Empty;
    hide Match;
    hide Apart;
    hide A.ExecStmt;
    hide A.EvalExpr;
    WhileUnfold(st, store, stt.trace, m.env, fuel);
    var n := |s.blocks|;
    var next, body := Point(n, 0), Point(n + 1, 0);
    k, st2 := 0, stt;
    WhileParts(m, s, st);
    var h := LoopHead(s, 3);
    var s1 := Branch(h, Some(st.cond), n + 1, n + 2).(loop := Some(LoopScope(n, n + 2)));
    var x := A.EvalExpr(st.cond, store, stt.trace, m.env);
    if x.Value? {
      ReadyKnown(h, scope, store, stt.slots);
      st2 := BranchSound(m, h, Some(st.cond), n + 1, n + 2, store, stt);
      k := 1;
      if Truthy(x.v) {
        SettledReady(s, s1, scope, store, st2.slots);
        var k1, st1 := ArmSound(m, s1, n + 1, st.body, n, scope, store, st2, fuel);
        var out := A.ExecScoped(st.body, store, x.trace, m.env, fuel);
        LandsAfter(m, next, stt, body, st2, 1, next, s1.loop, out, fuel, k1, st1, fuel);
        k, st2 := 1 + k1, st1;
        if out.Normal? || out.Continued? {
          if fuel == 0 { RunOut(m, next, stt, next, st1, k, Point(n + 2, 0), s.loop); }
          else {
            SettledReady(s, s, scope, out.store, st1.slots);
            var k2, st3 := WhileRuns(m, s, st, scope, out.store, st1, fuel - 1);
            LandsAfter(m, next, stt, next, st1, k, Point(n + 2, 0), s.loop,
              A.ExecStmt(st, out.store, out.trace, m.env, fuel - 1), fuel - 1, k2, st3, fuel);
            k, st2 := k + k2, st3;
          }
        }
      }
    }
  }

  lemma {:induction false} ForSound(m: Machine, s: LState, st: A.Stmt, scope: set<string>, store: A.Store, stt: State,
      fuel: nat)
    returns (k: nat, st2: State)
    requires Entry(s, st, scope, store, stt) && st.For? && Fits(m, LowerStmt(s, st))
    ensures var out := A.ExecStmt(st, store, stt.trace, m.env, fuel); var t := LowerStmt(s, st);
      Lands(m, End(s), stt, End(t), s.loop, out, fuel, k, st2) && Settled(t, scope, out)
    decreases fuel, st, 4
  {
    hide Shaped;
    hide EndsBlock;
    hide Strip;
    hide End;
    hide Fits;
    hide LowerFor;
    hide Lands;
    hide Ready;
    hide A.ExecFor;
    if st.start.None? { k, st2 := LoopSound(m, s, st, scope, store, stt, fuel); }
    else { k, st2 := StartSound(m, s, st, scope, store, stt, fuel); }
  }

  /** A start statement, then the loop. */
  lemma {:induction false} StartSound(m: Machine, s: LState, st: A.Stmt, scope: set<string>, store: A.Store, stt: State,
      fuel: nat)
    returns (k: nat, st2: State)
    requires Entry(s, st, scope, store, stt) && st.For? && st.start.Some?
      && Fits(m, LowerFor(LowerStmt(s, st.start.value), st))
    ensures var out := A.ExecStmt(st, store, stt.trace, m.env, fuel);
      var t := LowerFor(LowerStmt(s, st.start.value), st);
      Lands(m, End(s), stt, End(t), s.loop, out, fuel, k, st2) && Settled(t, scope, out)
    decreases fuel, st, 2
  {
    hide BlockShape;
    hide DefsOk;
    hide EndsBlock;
    hide Strip;
    hide SlotName;
    hide End;
    hide Fits;
    hide Leads;
    hide LowerFor;
    hide LowerStmt;
    hide A.ExecFor;
    hide Match;
    hide Apart;
    var s1 := LowerStmt(s, st.start.value);
    StmtShape(s, st.start.value);
    ForShape(s1, st);
    FitsBefore(m, s1, LowerFor(s1, st), s1.cur);
    k, st2 := StmtSound(m, s, st.start.value, scope, store, stt, fuel);
    hide Frame;
    var out := A.ExecStmt(st.start.value, store, stt.trace, m.env, fuel);
    if out.Normal? {
      var inner := After(scope, st.start.value);
      NoShadow(st.start.value, scope, store);
      SettledReady(s1, s1, inner, out.store, st2.slots);
      var k2, st3 := LoopSound(m, s1, st, inner, out.store, st2, fuel);
      var out2 := A.ExecFor(st, out.store, out.trace, m.env, fuel);
      hide Lands;
      LandsAfter(m, End(s), stt, End(s1), st2, k, End(LowerFor(s1, st)), s.loop, out2, fuel, k2, st3, fuel);
      k, st2 := k + k2, st3;
      LandsLeave(m, End(s), stt, End(LowerFor(s1, st)), s.loop, out2, fuel, k, st2, store);
    }
  }

  ghost predicate ForEntry(s: LState, st: A.Stmt, scope: set<string>, store: A.Store, stt: State) {
    && Shaped(s) && !Terminated(s) && st.For? && A.WellShaped(st) && NoClash(st.body, scope)
    && Ready(s, scope, store, stt.slots)
  }

  lemma {:induction false} LoopSound(m: Machine, s: LState, st: A.Stmt, scope: set<string>, store: A.Store, stt: State,
      fuel: nat)
    returns (k: nat, st2: State)
    requires ForEntry(s, st, scope, store, stt) && Fits(m, LowerFor(s, st))
    ensures var out := A.ExecFor(st, store, stt.trace, m.env, fuel); var t := LowerFor(s, st);
      Lands(m, End(s), stt, End(t), s.loop, out, fuel, k, st2) && Settled(t, scope, out)
    decreases fuel, st, 1
  {
    hide BlockShape;
    hide DefsOk;
    hide EndsBlock;
    hide Strip;
    hide SlotName;
    hide Leads;
    hide Lands;
    hide LowerStmt;
    hide EmitUnlessEnded;
    hide LoopHead;
    hide Branch;
    var n := |s.blocks|;
    var t := LowerFor(s, st);
    hide LowerFor;
    ForParts(m, s, st);
    hide Fits;
    EmptyEnd(t, n + 3);
    assert MoveTo(t, n + 3) == t;
    ForGuard(m, s, st);
    hide End;
    hide Empty;
    hide A.ExecFor;
    LoopEnter(m, s, 4, stt);
    k, st2 := ForRuns(m, s, st, scope, store, stt, fuel);
    LandsAfter(m, End(s), stt, Point(n, 0), stt, 1, End(t), s.loop, A.ExecFor(st, store, stt.trace, m.env, fuel), fuel,
      k, st2, fuel);
    k := k + 1;
  }

  lemma ForUnfold(st: A.Stmt, store: A.Store, trace: seq<Event>, env: Env, fuel: nat)
    requires st.For?
    ensures var x := GuardValue(st.guard, store, trace, env); var all := A.ExecFor(st, store, trace, env, fuel);
      && (x.Wrong? ==> all == A.Failed)
      && (x.Value? && !Truthy(x.v) ==> all == A.Normal(store, x.trace))
      && (x.Value? && Truthy(x.v) ==>
        var o := A.ExecScoped(st.body, store, x.trace, env, fuel);
        all == if o.Normal? || o.Continued? then A.AfterBody(st, o.store, o.trace, env, fuel)
               else if o.Broke? then A.Normal(o.store, o.trace) else o)
    ensures fuel == 0 ==> A.AfterBody(st, store, trace, env, fuel) == A.TimedOut
  {
    hide A.EvalExpr;
    hide A.ExecScoped;
  }

  /** From the condition block of a `for`, by induction on the fuel. */
  lemma {:induction false} ForRuns(m: Machine, s: LState, st: A.Stmt, scope: set<string>, store: A.Store, stt: State,
      fuel: nat)
    returns (k: nat, st2: State)
    requires ForEntry(s, st, scope, store, stt) && Fits(m, LowerFor(s, st))
    ensures var out := A.ExecFor(st, store, stt.trace, m.env, fuel); var n := |s.blocks|;
      Lands(m, Point(n, 0), stt, Point(n + 3, 0), s.loop, out, fuel, k, st2)
        && (out.Normal? ==> out.store.Keys <= scope)
    decreases fuel, st, 0
  {
    hide BlockShape;
    hide DefsOk;
    hide EndsBlock;
    hide Strip;
    hide SlotName;
    hide Leads;
    hide LowerStmt;
    hide EmitUnlessEnded;
    hide LoopHead;
    hide Branch;
    hide LowerFor;
    hide Arm;
    hide StepArm;
    hide Empty;
    hide End;
    hide Match;
    hide Apart;
    hide A.ExecFor;
    hide A.AfterBody;
    hide GuardValue;
    ForUnfold(st, store, stt.trace, m.env, fuel);
    var n := |s.blocks|;
    var next := Point(n, 0);
    k, st2 := 0, stt;
    ForParts(m, s, st);
    hide Fits;
    ForGuard(m, s, st);
    var h := LoopHead(s, 4);
    var s1 := ForOpened(s, st);
    var x := GuardValue(st.guard, store, stt.trace, m.env);
    if x.Value? {
      ReadyKnown(h, scope, store, stt.slots);
      st2 := BranchSound(m, h, st.guard, n + 1, n + 3, store, stt);
      k := 1;
      if Truthy(x.v) {
        SettledReady(s, s1, scope, store, st2.slots);
        var k1, st1 := ArmSound(m, s1, n + 1, st.body, n + 2, scope, store, st2, fuel);
        var out := A.ExecScoped(st.body, store, x.trace, m.env, fuel);
        LandsAfter(m, next, stt, Point(n + 1, 0), st2, 1, Point(n + 2, 0), s1.loop, out, fuel, k1, st1, fuel);
        k, st2 := 1 + k1, st1;
        if out.Normal? || out.Continued? {
          if fuel == 0 {
            ForUnfold(st, out.store, out.trace, m.env, 0);
            RunOut(m, next, stt, Point(n + 2, 0), st1, k, Point(n + 3, 0), s.loop);
          }
          else {
            var k2, st3 := StepThenRuns(m, s, st, scope, out.store, st1, fuel);
            LandsAfter(m, next, stt, Point(n + 2, 0), st1, k, Point(n + 3, 0), s.loop,
              A.AfterBody(st, out.store, out.trace, m.env, fuel), fuel - 1, k2, st3, fuel);
            k, st2 := k + k2, st3;
          }
        }
      }
    }
  }

  /** The step block, then the loop again. */
  lemma {:induction false} StepThenRuns(m: Machine, s: LState, st: A.Stmt, scope: set<string>, store: A.Store,
      stt: State, fuel: nat)
    returns (k: nat, st2: State)
    requires fuel > 0 && ForEntry(s, st, scope, store, stt) && Fits(m, LowerFor(s, st))
    ensures var out := A.AfterBody(st, store, stt.trace, m.env, fuel); var n := |s.blocks|;
      Lands(m, Point(n + 2, 0), stt, Point(n + 3, 0), s.loop, out, fuel - 1, k, st2)
        && (out.Normal? ==> out.store.Keys <= scope)
    decreases fuel - 1, st, 7
  {
    hide BlockShape;
    hide DefsOk;
    hide EndsBlock;
    hide Strip;
    hide SlotName;
    hide Leads;
    hide LowerStmt;
    hide EmitUnlessEnded;
    hide ForOpened;
    hide LowerFor;
    hide Arm;
    hide StepArm;
    var n := |s.blocks|;
    var u := Arm(ForOpened(s, st), n + 1, st.body, n + 2);
    ForParts(m, s, st);
    hide Fits;
    SettledReady(s, u, scope, store, stt.slots);
    var k1, st1 := StepSound(m, u, st, n + 2, n, scope, store, stt, fuel - 1);
    k, st2 := k1, st1;
    hide Empty;
    var mid := if st.step.None?
      then A.Normal(store, stt.trace)
      else A.ExecStmt(st.step.value, store, stt.trace, m.env, fuel - 1);
    hide A.ExecStmt;
    if mid.Normal? {
      SettledReady(s, s, scope, mid.store, st1.slots);
      var k2, st3 := ForRuns(m, s, st, scope, mid.store, st1, fuel - 1);
      LandsAfter(m, Point(n + 2, 0), stt, Point(n, 0), st1, k1, Point(n + 3, 0), s.loop,
        A.ExecFor(st, mid.store, mid.trace, m.env, fuel - 1), fuel - 1, k2, st3, fuel - 1);
      k, st2 := k1 + k2, st3;
    }
  }

  lemma {:induction false} StepSound(m: Machine, s: LState, st: A.Stmt, b: nat, target: nat, scope: set<string>,
      store: A.Store, stt: State, fuel: nat)
    returns (k: nat, st2: State)
    requires Shaped(s) && Empty(s, b) && st.For? && A.WellShaped(st) && Ready(s, scope, store, stt.slots)
    requires target < |s.blocks| && Fits(m, StepArm(s, st, b, target))
    ensures var out := if st.step.None?
      then A.Normal(store, stt.trace)
      else A.ExecStmt(st.step.value, store, stt.trace, m.env, fuel);
      && Lands(m, Point(b, 0), stt, Point(target, 0), s.loop, out, fuel, k, st2)
      && (out.Normal? ==> out.store.Keys <= scope) && (out.Normal? || out.Failed?)
    decreases fuel, st, 5
  {
    hide BlockShape;
    hide DefsOk;
    hide Strip;
    hide SlotName;
    hide End;
    var s1 := MoveTo(s, b);
    EmptyEnd(s, b);
    ReadyMoved(s, b, scope, store, stt.slots);
    var t := if st.step.None? then s1 else LowerStmt(s1, st.step.value);
    if !Terminated(t) { FitsEmit(m, t, Br(target)); }
    hide Fits;
    hide EndsBlock;
    if st.step.None? {
      hide Leads;
      k, st2 := 1, stt;
      EmitJump(m, s1, Br(target), stt, target, stt);
    } else {
      k, st2 := StmtSound(m, s1, st.step.value, scope, store, stt, fuel);
      var out := A.ExecStmt(st.step.value, store, stt.trace, m.env, fuel);
      hide Leads;
      hide LowerStmt;
      if out.Normal? {
        EmitJump(m, t, Br(target), st2, target, st2);
        LeadsTrans(m, Point(b, 0), stt, End(t), st2, Point(target, 0), st2, k, 1);
        k := k + 1;
      }
    }
  }

  // ----- Whole functions -----

  /** Parameters and declarations take slots of their own while they are in scope. */
  ghost predicate NamesApart(f: A.Function) {
    && (forall i, j :: 0 <= i < j < |f.params| ==> SlotName(f.params[i]) != SlotName(f.params[j]))
    && NoClash(f.body, Elems(f.params))
  }

  function Elems(names: seq<string>): set<string> { set x | x in names }

  ghost predicate ParamsStored(params: seq<string>, n: nat, env: Env, slots: map<string, Val>)
    requires n <= |params| == |env.params|
  { forall i :: 0 <= i < n ==> SlotName(params[i]) in slots && slots[SlotName(params[i])] == env.params[i] }

  function WithParam(s: LState, x: string, p: nat): (r: LState)
    requires s.Ok()
    ensures r.Ok()
  { Emit(Declare(s, x), Store(Param(p), SlotName(x))) }

  lemma ParamFits(m: Machine, s: LState, x: string, p: nat)
    requires EntryOnly(s) && Fits(m, WithParam(s, x, p))
    ensures Fits(m, s)
  {
    hide BlockShape;
    hide DefsOk;
    hide SlotName;
    hide EndsBlock;
    hide Strip;
    var d := Declare(s, x);
    FitsEmit(m, d, Store(Param(p), SlotName(x)));
    DeclareShape(s, x);
    FitsBefore(m, s, d, s.cur);
  }

  lemma ParamSound(m: Machine, s: LState, x: string, p: nat, st: State) returns (st2: State)
    requires s.Ok() && Fits(m, WithParam(s, x, p)) && p < |m.env.params|
    ensures Leads(m, End(s), st, End(WithParam(s, x, p)), st2, 0)
      && st2 == st.(slots := st.slots[SlotName(x) := m.env.params[p]])
  {
    hide SlotName;
    hide WithAlloca;
    hide Strip;
    EndDeclare(s, x);
    hide Fits;
    hide End;
    hide Leads;
    st2 := st.(slots := st.slots[SlotName(x) := m.env.params[p]]);
    EmitNext(m, Declare(s, x), Store(Param(p), SlotName(x)), st, st2);
  }

  lemma StoredNext(params: seq<string>, n: nat, env: Env, slots: map<string, Val>)
    requires n < |params| == |env.params| && ParamsStored(params, n, env, slots)
    requires forall i, j :: 0 <= i < j < |params| ==> SlotName(params[i]) != SlotName(params[j])
    ensures ParamsStored(params, n + 1, env, slots[SlotName(params[n]) := env.params[n]])
  { hide SlotName; }

  lemma ParamsNext(params: seq<string>, n: nat)
    requires n < |params|
    ensures LowerParams(params, n + 1) == WithParam(LowerParams(params, n), params[n], n)
    ensures LowerParams(params, n + 1).syms == [params[n]] + LowerParams(params, n).syms
  {}

  lemma NoParams(m: Machine, params: seq<string>)
    ensures var s := LowerParams(params, 0);
      s.syms == [] && Fresh.trace == [] && Leads(m, Point(0, 0), Fresh, End(s), Fresh, 0)
        && (|params| == |m.env.params| ==> ParamsStored(params, 0, m.env, Fresh.slots))
  { LeadsRefl(m, Point(0, 0), Fresh); }

  lemma {:induction false} ParamsNamed(params: seq<string>, n: nat)
    requires n <= |params|
    ensures forall i :: 0 <= i < n ==> params[i] in LowerParams(params, n).syms
  {
    hide *;
    if n > 0 {
      ParamsNext(params, n - 1);
      ParamsNamed(params, n - 1);
      var before := LowerParams(params, n - 1).syms;
      forall i | 0 <= i < n ensures params[i] in [params[n-1]] + before {
        if i == n - 1 { assert ([params[n-1]] + before)[0] == params[i]; } else { assert params[i] in before; }
      }
    }
  }

  lemma {:induction false} ParamsSound(m: Machine, params: seq<string>, n: nat) returns (st: State)
    requires n <= |params| == |m.env.params| && Fits(m, LowerParams(params, n))
    requires forall i, j :: 0 <= i < j < |params| ==> SlotName(params[i]) != SlotName(params[j])
    ensures var s := LowerParams(params, n);
      Leads(m, Point(0, 0), Fresh, End(s), st, 0) && st.trace == [] && ParamsStored(params, n, m.env, st.slots)
  {
    hide *;
    if n == 0 {
      st := Fresh;
      NoParams(m, params);
    } else {
      var s, x := LowerParams(params, n - 1), params[n-1];
      ParamsNext(params, n - 1);
      ParamsShape(params, n - 1);
      ParamFits(m, s, x, n - 1);
      var st1 := ParamsSound(m, params, n - 1);
      st := ParamSound(m, s, x, n - 1, st1);
      StoredNext(params, n - 1, m.env, st1.slots);
      LeadsTrans(m, Point(0, 0), Fresh, End(s), st1, End(LowerParams(params, n)), st, 0, 0);
    }
  }

  lemma ParamsApart(params: seq<string>)
    requires forall i, j :: 0 <= i < j < |params| ==> SlotName(params[i]) != SlotName(params[j])
    ensures Apart(Elems(params))
  {
    hide SlotName;
    forall x, y | x in Elems(params) && y in Elems(params) && SlotName(x) == SlotName(y) ensures x == y {
      var i, j := A.IndexIn(params, x), A.IndexIn(params, y);
      assert SlotName(params[i]) == SlotName(params[j]);
    }
  }

  lemma ParamsMatch(params: seq<string>, env: Env, slots: map<string, Val>)
    requires |params| == |env.params| && ParamsStored(params, |params|, env, slots)
    ensures Match(A.Bind(params, env.params), slots) && A.Bind(params, env.params).Keys == Elems(params)
  {
    hide SlotName;
    var store := A.Bind(params, env.params);
    forall x | x in store ensures SlotName(x) in slots && slots[SlotName(x)] == store[x].value {
      var i := A.IndexIn(params, x);
      assert SlotName(params[i]) in slots;
    }
  }

  lemma ElemsNamed(params: seq<string>)
    ensures forall x :: x in Elems(params) ==> x in LowerParams(params, |params|).syms
  {
    ParamsNamed(params, |params|);
    hide LowerParams;
    forall x | x in Elems(params) ensures x in LowerParams(params, |params|).syms { var i := A.IndexIn(params, x); }
  }

  lemma ParamsReady(f: A.Function, env: Env, slots: map<string, Val>)
    requires NamesApart(f) && |f.params| == |env.params| && ParamsStored(f.params, |f.params|, env, slots)
    ensures Ready(LowerParams(f.params, |f.params|), Elems(f.params), A.Bind(f.params, env.params), slots)
  {
    hide SlotName;
    hide NoClash;
    hide LowerParams;
    hide Elems;
    hide A.Bind;
    hide Match;
    hide Apart;
    hide ParamsStored;
    ParamsApart(f.params);
    ParamsMatch(f.params, env, slots);
    ElemsNamed(f.params);
  }

  lemma BodyFits(m: Machine, f: A.Function)
    requires A.WellShaped(f.body) && Fits(m, LowerBody(f))
    ensures var s0 := LowerParams(f.params, |f.params|); var s := LowerStmt(s0, f.body);
      && Shaped(s0) && !Terminated(s0) && Fits(m, s0) && Shaped(s) && Fits(m, s) && s0.loop == None
  {
    hide BlockShape;
    hide DefsOk;
    hide Strip;
    hide EndsBlock;
    var s0 := LowerParams(f.params, |f.params|);
    var s := LowerStmt(s0, f.body);
    ParamsShape(f.params, |f.params|);
    hide LowerParams;
    StmtShape(s0, f.body);
    hide LowerStmt;
    if !Terminated(s) {
      if f.isVoid { FitsEmit(m, s, Ret(None)); }
      else {
        FitsEmit(m, EmitDef(s, Const(s.nextReg, ConstInt(0))), Ret(Some(Reg(s.nextReg))));
        FitsDef(m, s, Const(s.nextReg, ConstInt(0)));
      }
    }
    FitsBefore(m, s0, s, s0.cur);
  }

  /** What a call of the function does, from the first instruction on. */
  lemma BodySound(m: Machine, f: A.Function, fuel: nat) returns (k: nat)
    requires A.WellShaped(f.body) && NamesApart(f) && |m.env.params| == |f.params| && Fits(m, LowerBody(f))
    ensures var out := A.ExecFunction(f, m.env, fuel);
      && (out.Returned? ==> Ends(m, Point(0, 0), Fresh, out.v, out.trace, k))
      && (out.TimedOut? ==> forall n: nat :: n <= fuel ==> At(m, Point(0, 0), Fresh, n).Running?)
      && (out.Returned? || out.TimedOut? || out.Failed?)
  {
    hide BlockShape;
    hide DefsOk;
    hide Strip;
    hide SlotName;
    hide EndsBlock;
    hide Leads;
    hide Ends;
    hide Fits;
    hide LowerBody;
    hide End;
    hide LowerStmt;
    hide LowerParams;
    hide Ready;
    hide At;
    var s0 := LowerParams(f.params, |f.params|);
    var s := LowerStmt(s0, f.body);
    var scope := Elems(f.params);
    var store := A.Bind(f.params, m.env.params);
    hide A.Bind;
    hide Elems;
    BodyFits(m, f);
    var st0 := ParamsSound(m, f.params, |f.params|);
    ParamsReady(f, m.env, st0.slots);
    var k1, st1 := StmtSound(m, s0, f.body, scope, store, st0, fuel);
    var out := A.ExecStmt(f.body, store, [], m.env, fuel);
    hide A.ExecStmt;
    LandsAfter(m, Point(0, 0), Fresh, End(s0), st0, 0, End(s), s0.loop, out, fuel, k1, st1, fuel);
    k := k1;
    if out.Normal? { LastReturn(m, f, s, st1, k1); }
  }

  lemma LastReturnVoid(m: Machine, s: LState, st: State, k: nat)
    requires s.Ok() && Fits(m, Emit(s, Ret(None))) && Leads(m, Point(0, 0), Fresh, End(s), st, k)
    ensures Ends(m, Point(0, 0), Fresh, None, st.trace, k)
  {
    hide Strip;
    hide Leads;
    hide Ends;
    hide Fits;
    EmitReturn(m, s, Ret(None), st, None, st);
    EndsAfter(m, Point(0, 0), Fresh, End(s), st, k, None, st.trace, 0);
  }

  lemma LastReturnZero(m: Machine, s: LState, st: State, k: nat)
    requires s.Ok() && Leads(m, Point(0, 0), Fresh, End(s), st, k)
    requires Fits(m, Emit(EmitDef(s, Const(s.nextReg, ConstInt(0))), Ret(Some(Reg(s.nextReg)))))
    ensures Ends(m, Point(0, 0), Fresh, Some(VInt(0)), st.trace, k)
  {
    hide Strip;
    hide Leads;
    hide Ends;
    var c, ret := Const(s.nextReg, ConstInt(0)), Ret(Some(Reg(s.nextReg)));
    var s1, st1 := EmitDef(s, c), st.(regs := st.regs[s.nextReg := VInt(0)]);
    FitsEmit(m, s1, ret);
    assert Fits(m, Emit(s, c));
    hide Fits;
    EmitNext(m, s, c, st, st1);
    EmitReturn(m, s1, ret, st1, Some(VInt(0)), st1);
    assert End(s1) == End(Emit(s, c));
    hide End;
    LeadsTrans(m, Point(0, 0), Fresh, End(s), st, End(s1), st1, k, 0);
    EndsAfter(m, Point(0, 0), Fresh, End(s1), st1, k, Some(VInt(0)), st.trace, 0);
  }

  /** A body that falls off its end returns nothing, or 0. */
  lemma LastReturn(m: Machine, f: A.Function, s: LState, st: State, k: nat)
    requires s.Ok() && s == LowerStmt(LowerParams(f.params, |f.params|), f.body) && !Terminated(s)
      && Fits(m, LowerBody(f))
    requires Leads(m, Point(0, 0), Fresh, End(s), st, k)
    ensures Ends(m, Point(0, 0), Fresh, if f.isVoid then None else Some(VInt(0)), st.trace, k)
  {
    hide Strip;
    hide EndsBlock;
    hide LowerStmt;
    hide LowerParams;
    hide Fits;
    hide Leads;
    hide Ends;
    if f.isVoid { LastReturnVoid(m, s, st, k); } else { LastReturnZero(m, s, st, k); }
  }

  // ----- Places and blocks -----

  lemma StripNil()
    ensures Strip([]) == []
  {}

  lemma {:induction false} StripCons(i: Inst, rest: seq<Inst>)
    ensures Strip([i] + rest) == (if i.Alloca? then [] else [i]) + Strip(rest)
    decreases |rest|
  {
    hide Strip;
    if rest == [] {
      assert [i] + rest == [] + [i];
      StripNil();
      StripSnoc([], i);
    } else {
      var front, last := rest[..|rest|-1], rest[|rest|-1];
      StripCons(i, front);
      StripSnoc([i] + front, last);
      StripSnoc(front, last);
      assert rest == front + [last];
      assert [i] + rest == ([i] + front) + [last];
    }
  }

  /** Slot declarations do nothing when they are run. */
  lemma {:induction false} RunStrip(insts: seq<Inst>, st: State, env: Env)
    ensures Run(Strip(insts), st, env) == Run(insts, st, env)
    decreases |insts|
  {
    if insts != [] {
      assert insts == [insts[0]] + insts[1..];
      StripCons(insts[0], insts[1..]);
      match Step(insts[0], st, env)
      case Next(st2) =>
        RunStrip(insts[1..], st2, env);
        if insts[0].Alloca? { assert Strip(insts) == Strip(insts[1..]); }
        else { assert Strip(insts)[1..] == Strip(insts[1..]); }
      case Jump(_, _) =>
      case Return(_, _) =>
      case Trap =>
    }
  }

  lemma {:induction false} AtRuns(m: Machine, p: Point, st: State, fuel: nat)
    requires p.block < |m.code| && p.pos <= |m.code[p.block]|
    ensures At(m, p, st, fuel) == match Run(m.code[p.block][p.pos..], st, m.env)
      case Jump(t, st2) => (if fuel == 0 then Running(t, st2.slots, st2.trace) else At(m, Point(t, 0), st2, fuel - 1))
      case Return(v, st2) => Done(v, st2.trace)
      case Next(_) => Stuck
      case Trap => Stuck
    decreases |m.code[p.block]| - p.pos
  {
    var rest := m.code[p.block][p.pos..];
    if rest != [] {
      assert rest[1..] == m.code[p.block][p.pos + 1..];
      match Step(rest[0], st, m.env)
      case Next(st2) => AtRuns(m, Point(p.block, p.pos + 1), st2, fuel);
      case Jump(_, _) =>
      case Return(_, _) =>
      case Trap =>
    }
  }

  function MachineFor(code: seq<seq<Inst>>, env: Env): Machine {
    Machine(seq(|code|, b requires 0 <= b < |code| => Strip(code[b])), env)
  }

  lemma FindNumbered(code: seq<seq<Inst>>, id: nat)
    ensures FindBlock(Numbered(code), id) == if id < |code| then Some(Block(id, code[id])) else None
  {
    var blocks := Numbered(code);
    if id < |code| { FindBlockAt(blocks, id); }
    else { FindBlockIs(blocks, id); }
  }

  /** Running block by block and running instruction by instruction agree. */
  lemma {:induction false} ExecIsAt(code: seq<seq<Inst>>, id: nat, st: State, env: Env, fuel: nat)
    ensures Exec(Numbered(code), id, st, env, fuel + 1) == At(MachineFor(code, env), Point(id, 0), st, fuel)
    decreases fuel
  {
    FindNumbered(code, id);
    var m := MachineFor(code, env);
    if id < |code| {
      RunStrip(code[id], st, env);
      AtRuns(m, Point(id, 0), st, fuel);
      assert m.code[id][0..] == Strip(code[id]);
      match Run(code[id], st, env)
      case Jump(t, st2) => if fuel > 0 { ExecIsAt(code, t, st2, env, fuel - 1); }
      case Next(_) =>
      case Return(_, _) =>
      case Trap =>
    }
  }

  lemma CodeFits(f: A.Function, env: Env)
    ensures Fits(MachineFor(LowerBody(f).blocks, env), LowerBody(f))
  {}

  lemma ArityMatters(f: A.Function, env: Env, fuel: nat)
    requires |env.params| != |f.params|
    ensures A.ExecFunction(f, env, fuel).Failed?
  {}

  lemma StartIsAt(f: A.Function, env: Env, n: nat)
    ensures Start(LowerFunction(f), env, n) ==
      if n == 0
        then Running(0, Fresh.slots, [])
        else At(MachineFor(LowerBody(f).blocks, env), Point(0, 0), Fresh, n - 1)
  {
    hide LowerBody;
    if n > 0 { ExecIsAt(LowerBody(f).blocks, 0, Fresh, env, n - 1); }
  }

  /** Whatever the structured program does within `fuel` iterations of each loop, its basic blocks do: they return the
      same value with the same trace after some number of blocks, or are still running. */
  lemma RunsAlike(f: A.Function, env: Env, fuel: nat) returns (k: nat)
    requires A.WellShaped(f.body) && NamesApart(f)
    ensures var out := A.ExecFunction(f, env, fuel); var code := LowerFunction(f);
      && (out.Returned? ==>
        forall n: nat :: if n < k then Start(code, env, n).Running? else Start(code, env, n) == Done(out.v, out.trace))
      && (out.TimedOut? ==> forall n: nat :: n <= fuel ==> Start(code, env, n).Running?)
      && (out.Returned? || out.TimedOut? || out.Failed?)
  {
    hide LowerBody;
    hide LowerFunction;
    hide A.ExecFunction;
    hide Start;
    hide At;
    k := 0;
    if |env.params| == |f.params| {
      var m := MachineFor(LowerBody(f).blocks, env);
      CodeFits(f, env);
      k := BodySound(m, f, fuel);
      k := k + 1;
      forall n: nat
        ensures Start(LowerFunction(f), env, n) == if n == 0
          then Running(0, Fresh.slots, [])
          else At(m, Point(0, 0), Fresh, n - 1)
      {
        StartIsAt(f, env, n);
      }
    } else { ArityMatters(f, env, fuel); }
  }

  /** A program that never goes wrong on the given arguments. */
  ghost predicate Safe(f: A.Function, env: Env) { forall fuel: nat :: !A.ExecFunction(f, env, fuel).Failed? }

  ghost predicate Gives(f: A.Function, env: Env, v: Option<Val>, trace: seq<Event>) {
    exists fuel: nat :: A.ExecFunction(f, env, fuel) == A.Returned(v, trace)
  }

  ghost predicate Ran(blocks: seq<Block>, env: Env, v: Option<Val>, trace: seq<Event>) {
    exists n: nat :: Start(blocks, env, n) == Done(v, trace)
  }

  lemma NeverStuck(f: A.Function, env: Env, n: nat)
    requires A.WellShaped(f.body) && NamesApart(f) && Safe(f, env)
    ensures !Start(LowerFunction(f), env, n).Stuck?
  {
    hide LowerFunction;
    hide A.ExecFunction;
    var k := RunsAlike(f, env, n);
  }

  /** Lowering preserves meaning: a safe program and its basic blocks return the same results with the same traces, and
      one runs forever exactly when the other does. */
  lemma LoweringPreservesMeaning(f: A.Function, env: Env, v: Option<Val>, trace: seq<Event>)
    requires A.WellShaped(f.body) && NamesApart(f) && Safe(f, env)
    ensures Ran(LowerFunction(f), env, v, trace) <==> Gives(f, env, v, trace)
  {
    hide LowerFunction;
    hide A.ExecFunction;
    if Gives(f, env, v, trace) {
      var fuel: nat :| A.ExecFunction(f, env, fuel) == A.Returned(v, trace);
      var k := RunsAlike(f, env, fuel);
      assert Start(LowerFunction(f), env, k) == Done(v, trace);
    }
    if Ran(LowerFunction(f), env, v, trace) {
      var n: nat :| Start(LowerFunction(f), env, n) == Done(v, trace);
      var k := RunsAlike(f, env, n);
    }
  }

  /** Any refinement of the lowered code, such as what the optimizer makes of it, still means the source program. */
  lemma RefinedPreservesMeaning(f: A.Function, blocks: seq<Block>, env: Env, v: Option<Val>, trace: seq<Event>)
    requires A.WellShaped(f.body) && NamesApart(f) && Safe(f, env) && Refines(LowerFunction(f), blocks)
    ensures Ran(blocks, env, v, trace) <==> Gives(f, env, v, trace)
  {
    forall n: nat ensures Start(blocks, env, n) == Start(LowerFunction(f), env, n) { NeverStuck(f, env, n); }
    hide LowerFunction;
    hide A.ExecFunction;
    LoweringPreservesMeaning(f, env, v, trace);
  }
}
