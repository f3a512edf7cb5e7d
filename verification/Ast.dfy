// The int/bool statements that lowering handles, and their structured meaning (src/frontend/ast.h,
// src/ir/ir_lower.c:101-428).

module Ast {
  import opened Options
  import Ir

  datatype Expr =
    | IntLit(i: int)
    | BoolLit(b: bool)
    | Ident(name: string)
    | Binary(op: Ir.BinOp, left: Expr, right: Expr)
    | Unary(uop: Ir.UnOp, operand: Expr)
    | Invoke(callee: string, args: seq<Expr>)

  datatype Stmt =
    | Block(stmts: seq<Stmt>)
    | Let(name: string, init: Option<Expr>)
    | Assign(name: string, value: Expr)
    | ExprStmt(e: Expr)
    | PrintStmt(values: seq<Expr>)
    | If(cond: Expr, thenB: Stmt, elseB: Option<Stmt>)
    | While(cond: Expr, body: Stmt)
    | For(start: Option<Stmt>, guard: Option<Expr>, step: Option<Stmt>, body: Stmt)
    | Break
    | Continue
    | Return(result: Option<Expr>)

  datatype Function = Function(name: string, params: seq<string>, isVoid: bool, body: Stmt)

  /** The variables in scope; None is declared but not yet given a value. */
  type Store = map<string, Option<Ir.Val>>

  datatype ExprOut = Value(v: Ir.Val, trace: seq<Ir.Event>) | Wrong

  datatype ArgsOut = Values(vs: seq<Ir.Val>, trace: seq<Ir.Event>) | WrongArgs

  /** Operands are evaluated left to right; `&&` and `||` evaluate both, as their lowering does. */
  function EvalExpr(e: Expr, store: Store, trace: seq<Ir.Event>, env: Ir.Env): ExprOut
    decreases e, 1
  {
    match e
    case IntLit(i) => Value(Ir.VInt(i), trace)
    case BoolLit(b) => Value(Ir.VBool(b), trace)
    case Ident(x) => if x in store && store[x].Some? then Value(store[x].value, trace) else Wrong
    case Binary(op, l, r) =>
      (match EvalExpr(l, store, trace, env)
       case Wrong => Wrong
       case Value(a, t1) =>
         match EvalExpr(r, store, t1, env)
         case Wrong => Wrong
         case Value(b, t2) => if Ir.BinVal(op, a, b).Some? then Value(Ir.BinVal(op, a, b).value, t2) else Wrong)
    case Unary(op, x) =>
      (match EvalExpr(x, store, trace, env)
       case Wrong => Wrong
       case Value(a, t1) => if Ir.UnVal(op, a).Some? then Value(Ir.UnVal(op, a).value, t1) else Wrong)
    case Invoke(f, args) =>
      (match EvalArgs(args, store, trace, env)
       case WrongArgs => Wrong
       case Values(vs, t1) => var res := env.world(f, vs, t1); Value(res, t1 + [Ir.Called(f, vs, res)]))
  }

  function EvalArgs(args: seq<Expr>, store: Store, trace: seq<Ir.Event>, env: Ir.Env): (r: ArgsOut)
    ensures r.Values? ==> |r.vs| == |args|
    decreases args, 0
  {
    if args == [] then Values([], trace)
    else match EvalExpr(args[0], store, trace, env)
      case Wrong => WrongArgs
      case Value(a, t1) => match EvalArgs(args[1..], store, t1, env)
        case WrongArgs => WrongArgs
        case Values(vs, t2) => Values([a] + vs, t2)
  }

  /** How a statement ends. `Failed` covers everything the language gives no meaning to. */
  datatype Out =
    | Normal(store: Store, trace: seq<Ir.Event>)
    | Broke(store: Store, trace: seq<Ir.Event>)
    | Continued(store: Store, trace: seq<Ir.Event>)
    | Returned(v: Option<Ir.Val>, trace: seq<Ir.Event>)
    | Failed
    | TimedOut

  /** Leaving a scope forgets what was declared in it. */
  function Restrict(inner: Store, outer: Store): Store { map x | x in inner && x in outer :: inner[x] }

  function Leave(o: Out, outer: Store): Out {
    match o
    case Normal(s, t) => Normal(Restrict(s, outer), t)
    case Broke(s, t) => Broke(Restrict(s, outer), t)
    case Continued(s, t) => Continued(Restrict(s, outer), t)
    case _ => o
  }

  /** Where the scope of a declaration ends, a variable it shadowed is seen again. */
  function Unshadow(o: Out, declared: Stmt, before: Store): Out {
    if !declared.Let? || declared.name !in before then o
    else match o
      case Normal(s, t) => Normal(s[declared.name := before[declared.name]], t)
      case Broke(s, t) => Broke(s[declared.name := before[declared.name]], t)
      case Continued(s, t) => Continued(s[declared.name := before[declared.name]], t)
      case _ => o
  }

  /** A statement run in a scope of its own. */
  function ExecScoped(s: Stmt, store: Store, trace: seq<Ir.Event>, env: Ir.Env, fuel: nat): Out
    decreases fuel, s, 2
  { Leave(ExecStmt(s, store, trace, env, fuel), store) }

  /** Big-step meaning; `fuel` bounds the number of iterations of any one loop. */
  function ExecStmt(s: Stmt, store: Store, trace: seq<Ir.Event>, env: Ir.Env, fuel: nat): Out
    decreases fuel, s, 1
  {
    match s
    case Block(ss) => Leave(ExecStmts(ss, store, trace, env, fuel), store)
    case Let(x, None) => Normal(store[x := None], trace)
    case Let(x, Some(e)) =>
      (match EvalExpr(e, store, trace, env)
       case Wrong => Failed
       case Value(v, t) => Normal(store[x := Some(v)], t))
    case Assign(x, e) =>
      (match EvalExpr(e, store, trace, env)
       case Wrong => Failed
       case Value(v, t) => if x in store then Normal(store[x := Some(v)], t) else Failed)
    case ExprStmt(e) =>
      (match EvalExpr(e, store, trace, env) case Wrong => Failed case Value(v, t) => Normal(store, t))
    case PrintStmt(es) => ExecPrints(es, store, trace, env)
    case If(c, a, b) =>
      (match EvalExpr(c, store, trace, env)
       case Wrong => Failed
       case Value(v, t) =>
         if Ir.Truthy(v) then ExecScoped(a, store, t, env, fuel)
         else if b.Some? then ExecScoped(b.value, store, t, env, fuel) else Normal(store, t))
    case While(c, body) =>
      (match EvalExpr(c, store, trace, env)
       case Wrong => Failed
       case Value(v, t) =>
         if !Ir.Truthy(v) then Normal(store, t)
         else (match ExecScoped(body, store, t, env, fuel)
           case Normal(s1, t1) => if fuel == 0 then TimedOut else ExecStmt(s, s1, t1, env, fuel - 1)
           case Continued(s1, t1) => if fuel == 0 then TimedOut else ExecStmt(s, s1, t1, env, fuel - 1)
           case Broke(s1, t1) => Normal(s1, t1)
           case o => o))
    case For(start, _, _, _) =>
      if start.None? then ExecFor(s, store, trace, env, fuel)
      else (match ExecStmt(start.value, store, trace, env, fuel)
        case Normal(s1, t1) => Leave(Unshadow(ExecFor(s, s1, t1, env, fuel), start.value, store), store)
        case TimedOut => TimedOut
        case _ => Failed)
    case Break => Broke(store, trace)
    case Continue => Continued(store, trace)
    case Return(None) => Returned(None, trace)
    case Return(Some(e)) =>
      (match EvalExpr(e, store, trace, env) case Wrong => Failed case Value(v, t) => Returned(Some(v), t))
  }

  function ExecPrints(es: seq<Expr>, store: Store, trace: seq<Ir.Event>, env: Ir.Env): Out {
    if es == [] then Normal(store, trace)
    else match EvalExpr(es[0], store, trace, env)
      case Wrong => Failed
      case Value(v, t) => ExecPrints(es[1..], store, t + [Ir.Printed(v)], env)
  }

  function ExecStmts(ss: seq<Stmt>, store: Store, trace: seq<Ir.Event>, env: Ir.Env, fuel: nat): Out
    decreases fuel, ss, 0
  {
    if ss == [] then Normal(store, trace)
    else match ExecStmt(ss[0], store, trace, env, fuel)
      case Normal(s1, t1) => Unshadow(ExecStmts(ss[1..], s1, t1, env, fuel), ss[0], store)
      case o => o
  }

  /** The loop of a `for` once its start statement has run. */
  function ExecFor(s: Stmt, store: Store, trace: seq<Ir.Event>, env: Ir.Env, fuel: nat): Out
    requires s.For?
    decreases fuel, s, 0
  {
    match (if s.guard.None? then Value(Ir.VBool(true), trace) else EvalExpr(s.guard.value, store, trace, env))
    case Wrong => Failed
    case Value(v, t) =>
      if !Ir.Truthy(v) then Normal(store, t)
      else match ExecScoped(s.body, store, t, env, fuel)
        case Normal(s1, t1) => AfterBody(s, s1, t1, env, fuel)
        case Continued(s1, t1) => AfterBody(s, s1, t1, env, fuel)
        case Broke(s1, t1) => Normal(s1, t1)
        case o => o
  }

  function AfterBody(s: Stmt, store: Store, trace: seq<Ir.Event>, env: Ir.Env, fuel: nat): Out
    requires s.For?
    decreases fuel, s, -1
  {
    if fuel == 0 then TimedOut
    else if s.step.None? then ExecFor(s, store, trace, env, fuel - 1)
    else match ExecStmt(s.step.value, store, trace, env, fuel - 1)
      case Normal(s2, t2) => ExecFor(s, s2, t2, env, fuel - 1)
      case TimedOut => TimedOut
      case _ => Failed
  }

  /** The parameters, holding the arguments. */
  function Bind(params: seq<string>, args: seq<Ir.Val>): Store
    requires |params| == |args|
  { map x | x in params :: Some(args[IndexIn(params, x)]) }

  /** A call of the function: a missing return yields nothing, or 0 where a result is due. */
  function ExecFunction(f: Function, env: Ir.Env, fuel: nat): Out {
    if |env.params| != |f.params| then Failed
    else match ExecScoped(f.body, Bind(f.params, env.params), [], env, fuel)
      case Normal(_, t) => Returned(if f.isVoid then None else Some(Ir.VInt(0)), t)
      case Returned(v, t) => Returned(v, t)
      case TimedOut => TimedOut
      case _ => Failed
  }

  function IndexIn(names: seq<string>, x: string): (i: nat)
    requires x in names
    ensures i < |names| && names[i] == x
  { if names[0] == x then 0 else 1 + IndexIn(names[1..], x) }

  /** Start and step of a `for` as the parser builds them. */
  predicate Simple(s: Stmt) { s.Let? || s.Assign? || s.ExprStmt? }

  predicate WellShaped(s: Stmt)
    decreases s
  {
    match s
    case Block(ss) => forall i :: 0 <= i < |ss| ==> WellShaped(ss[i])
    case If(_, a, b) => WellShaped(a) && (b.Some? ==> WellShaped(b.value))
    case While(_, b) => WellShaped(b)
    case For(start, _, step, b) =>
      && (start.Some? ==> Simple(start.value))
      && (step.Some? ==> Simple(step.value) && !step.value.Let?)
      && WellShaped(b)
    case _ => true
  }
}
