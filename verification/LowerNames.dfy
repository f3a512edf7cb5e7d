module OrdinaryNames {
  // Programs whose variables get slots of their own: none hides another, and their names are not cut
  // (src/ir/ir_lower.c:51-65, 236-252).

  import opened Options
  import opened Ir
  import opened Graphs
  import opened Lowering
  import opened LoweringSound
  import opened LowerContext
  import opened Optimizer
  import opened FinishedCode
  import A = Ast

  /** Names of up to so many characters fit the buffer with what is added to them. */
  const MAX_NAME := 122

  /** Every declaration has a name that fits and is not in scope already. */
  predicate Unshadowed(st: A.Stmt, scope: set<string>)
    decreases st
  {
    match st
    case Let(x, _) => |x| <= MAX_NAME && x !in scope
    case Block(ss) => AllUnshadowed(ss, scope)
    case If(_, a, b) => Unshadowed(a, scope) && (b.Some? ==> Unshadowed(b.value, scope))
    case While(_, b) => Unshadowed(b, scope)
    case For(start, _, _, b) =>
      && (start.Some? ==> Unshadowed(start.value, scope))
      && Unshadowed(b, if start.Some? then After(scope, start.value) else scope)
    case _ => true
  }

  predicate AllUnshadowed(ss: seq<A.Stmt>, scope: set<string>)
    decreases ss
  { ss == [] || (Unshadowed(ss[0], scope) && AllUnshadowed(ss[1..], After(scope, ss[0]))) }

  predicate Ordinary(f: A.Function) {
    && NoDup(f.params) && (forall x :: x in f.params ==> |x| <= MAX_NAME)
    && Unshadowed(f.body, set x | x in f.params)
  }

  /** Different names that fit have different slots. */
  lemma ShortNamesApart(x: string, y: string)
    requires |x| <= MAX_NAME && |y| <= MAX_NAME && SlotName(x) == SlotName(y)
    ensures x == y
  {
    assert |x| == |y|;
    assert forall k :: 0 <= k < |x| ==> x[k] == (x + ".addr")[k] && y[k] == (y + ".addr")[k];
  }

  /** Longer ones need not: it is the first 127 characters that count. */
  lemma LongNamesMeet(x: string, y: string)
    requires |x| >= 127 && |y| >= 127
    ensures SlotName(x) == SlotName(y) <==> x[..127] == y[..127]
  { assert (x + ".addr")[..127] == x[..127] && (y + ".addr")[..127] == y[..127]; }

  predicate Fitting(scope: set<string>) { forall x :: x in scope ==> |x| <= MAX_NAME }

  lemma {:induction false} UnshadowedApart(st: A.Stmt, scope: set<string>)
    requires Unshadowed(st, scope) && Fitting(scope)
    ensures NoClash(st, scope) && Fitting(After(scope, st))
    decreases st, 1
  {
    hide SlotName;
    match st
    case Let(x, _) => forall y | y in scope ensures SlotName(y) != SlotName(x) { Differ(x, y); }
    case Block(ss) => AllUnshadowedApart(ss, scope);
    case If(_, a, b) =>
      UnshadowedApart(a, scope);
      if b.Some? { UnshadowedApart(b.value, scope); }
    case While(_, b) => UnshadowedApart(b, scope);
    case For(start, _, _, b) =>
      if start.Some? { UnshadowedApart(start.value, scope); }
      UnshadowedApart(b, if start.Some? then After(scope, start.value) else scope);
    case _ =>
  }

  lemma {:induction false} AllUnshadowedApart(ss: seq<A.Stmt>, scope: set<string>)
    requires AllUnshadowed(ss, scope) && Fitting(scope)
    ensures NoClashes(ss, scope)
    decreases ss, 0
  {
    if ss != [] {
      UnshadowedApart(ss[0], scope);
      AllUnshadowedApart(ss[1..], After(scope, ss[0]));
    }
  }

  lemma Differ(x: string, y: string)
    requires |x| <= MAX_NAME && |y| <= MAX_NAME && x != y
    ensures SlotName(y) != SlotName(x)
  { if SlotName(x) == SlotName(y) { ShortNamesApart(x, y); } }

  lemma OrdinaryApart(f: A.Function)
    requires Ordinary(f)
    ensures NamesApart(f)
  {
    hide SlotName;
    forall i, j | 0 <= i < j < |f.params| ensures SlotName(f.params[i]) != SlotName(f.params[j]) {
      Differ(f.params[j], f.params[i]);
    }
    UnshadowedApart(f.body, LoweringSound.Elems(f.params));
  }

  // ----- Names declared once -----

  /** The names a statement declares, in order. */
  function Declared(st: A.Stmt): seq<string>
    decreases st
  {
    match st
    case Let(x, _) => [x]
    case Block(ss) => AllDeclared(ss)
    case If(_, a, b) => Declared(a) + if b.Some? then Declared(b.value) else []
    case While(_, b) => Declared(b)
    case For(start, _, _, b) => (if start.Some? then Declared(start.value) else []) + Declared(b)
    case _ => []
  }

  function AllDeclared(ss: seq<A.Stmt>): seq<string>
    decreases ss
  { if ss == [] then [] else Declared(ss[0]) + AllDeclared(ss[1..]) }

  /** Different names that fit, none of them in scope yet. */
  predicate Anew(names: seq<string>, scope: set<string>) {
    NoDup(names) && forall x :: x in names ==> |x| <= MAX_NAME && x !in scope
  }

  lemma AnewParts(a: seq<string>, b: seq<string>, scope: set<string>)
    requires Anew(a + b, scope)
    ensures Anew(a, scope) && Anew(b, scope) && forall x :: x in a ==> x !in b
  {
    var all := a + b;
    assert forall i :: 0 <= i < |a| ==> all[i] == a[i];
    assert forall i :: 0 <= i < |b| ==> all[|a| + i] == b[i];
    forall i, j | 0 <= i < |a| && 0 <= j < |b| ensures a[i] != b[j] { assert all[i] == a[i] && all[|a| + j] == b[j]; }
    assert forall x :: x in a || x in b ==> x in all;
  }

  lemma {:induction false} OnceUnshadowed(st: A.Stmt, scope: set<string>)
    requires Anew(Declared(st), scope)
    ensures Unshadowed(st, scope) && After(scope, st) <= scope + (set x | x in Declared(st))
    decreases st, 1
  {
    hide Anew;
    match st
    case Let(x, _) => LetAnew(x, scope);
    case Block(ss) => AllOnceUnshadowed(ss, scope);
    case If(_, a, b) =>
      AnewParts(Declared(a), if b.Some? then Declared(b.value) else [], scope);
      OnceUnshadowed(a, scope);
      if b.Some? { OnceUnshadowed(b.value, scope); }
    case While(_, b) => OnceUnshadowed(b, scope);
    case For(start, _, _, b) =>
      var first := if start.Some? then Declared(start.value) else [];
      AnewParts(first, Declared(b), scope);
      if start.Some? {
        OnceUnshadowed(start.value, scope);
        AnewLater(Declared(b), scope, After(scope, start.value), first);
        OnceUnshadowed(b, After(scope, start.value));
      } else {
        OnceUnshadowed(b, scope);
      }
    case _ =>
  }

  lemma LetAnew(x: string, scope: set<string>)
    requires Anew([x], scope)
    ensures |x| <= MAX_NAME && x !in scope
  { assert x in [x]; }

  lemma AnewLater(names: seq<string>, scope: set<string>, after: set<string>, first: seq<string>)
    requires Anew(names, scope) && after <= scope + (set x | x in first) && forall x :: x in first ==> x !in names
    ensures Anew(names, after)
  {}

  lemma {:induction false} AllOnceUnshadowed(ss: seq<A.Stmt>, scope: set<string>)
    requires Anew(AllDeclared(ss), scope)
    ensures AllUnshadowed(ss, scope)
    decreases ss, 0
  {
    hide Anew;
    if ss != [] {
      AnewParts(Declared(ss[0]), AllDeclared(ss[1..]), scope);
      OnceUnshadowed(ss[0], scope);
      AnewLater(AllDeclared(ss[1..]), scope, After(scope, ss[0]), Declared(ss[0]));
      AllOnceUnshadowed(ss[1..], After(scope, ss[0]));
    }
  }

  /** Parameters and declarations all have different names, and none is too long. */
  lemma DifferentNamesOrdinary(f: A.Function)
    requires NoDup(f.params + Declared(f.body)) && forall x :: x in f.params + Declared(f.body) ==> |x| <= MAX_NAME
    ensures Ordinary(f)
  {
    AnewParts(f.params, Declared(f.body), {});
    OnceUnshadowed(f.body, set x | x in f.params);
  }

  // ----- Lowering such programs -----

  /** A safe program none of whose variables hides another, with names of at most 122 characters, means what its blocks
      do. */
  lemma OrdinaryPreservesMeaning(f: A.Function, env: Env, v: Option<Val>, trace: seq<Event>)
    requires A.WellShaped(f.body) && Ordinary(f) && Safe(f, env)
    ensures Ran(LowerFunction(f), env, v, trace) <==> Gives(f, env, v, trace)
  {
    hide *;
    OrdinaryApart(f);
    LoweringPreservesMeaning(f, env, v, trace);
  }

  /** And so do the blocks that the optimizer makes of it. */
  method CompileOrdinary(f: A.Function, optLevel: int, verifyEachPass: bool) returns (fn: IrFunction)
    requires A.WellShaped(f.body) && Ordinary(f)
    ensures fresh(fn) && fn.Valid() && (optLevel > 0 ==> Straightened(fn.blocks, fn.nextBlock))
    ensures forall env: Env, v: Option<Val>, trace: seq<Event> :: Safe(f, env) ==>
      (Ran(fn.blocks, env, v, trace) <==> Gives(f, env, v, trace))
  {
    OrdinaryApart(f);
    fn := CompileFunction(f, optLevel, verifyEachPass);
  }
}
