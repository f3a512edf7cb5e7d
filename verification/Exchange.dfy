module Exchanges {
  // Exchanging one function of a module for another that behaves like it: every function of the module behaves as
  // before.

  import opened Options
  import opened Ir
  import opened SsaIr

  /** The ends a pass must keep: a value and a trace, and traps too where it is exact. */
  predicate Counts(exact: bool, r: Result) { r.Ended? || (exact && r.Trapped?) }

  /** What a run says of a call of `g` in `m`: as starved, and the same end given fuel `n2`. */
  ghost predicate Follows(exact: bool, r: Result, m: Module, g: Fn, args: seq<Val>, tr: seq<Event>, world: World,
      n: nat, n2: nat) {
    && (r.OutOfFuel? ==> CallFn(m, g, args, tr, world, n).OutOfFuel?)
    && (Counts(exact, r) ==> CallFn(m, g, args, tr, world, n2) == r)
  }

  ghost predicate Meets(exact: bool, m: Module, f: Fn, g: Fn, args: seq<Val>, tr: seq<Event>, world: World, n: nat) {
    exists n2: nat :: Follows(exact, CallFn(m, f, args, tr, world, n), m, g, args, tr, world, n, n2)
  }

  /** In `m`, any call of `g` follows the same call of `f`. */
  ghost predicate Behaves(exact: bool, m: Module, f: Fn, g: Fn) {
    forall args, tr, world, n :: Meets(exact, m, f, g, args, tr, world, n)
  }

  /** `m'` is `m` with function `ci` exchanged for `g`. */
  ghost predicate Exchanged(exact: bool, m: Module, m': Module, ci: nat, g: Fn) {
    ci < |m| && g.name == m[ci].name && m' == m[ci := g] && Behaves(exact, m', m[ci], g)
  }

  /** Names find the same functions as before. */
  lemma {:induction false} SameNames(m: Module, ci: nat, f: Fn, name: string)
    requires ci < |m| && f.name == m[ci].name
    ensures FindFn(m[ci := f], name) == FindFn(m, name)
  {
    var a, b := FindFn(m, name), FindFn(m[ci := f], name);
    assert forall j :: 0 <= j < |m| ==> m[ci := f][j].name == m[j].name;
  }

  lemma ExchangedFinds(exact: bool, m: Module, m': Module, ci: nat, g: Fn, name: string)
    requires Exchanged(exact, m, m', ci, g)
    ensures FindFn(m', name) == FindFn(m, name) && |m'| == |m|
    ensures var x := FindFn(m, name); x.Some? && x.value != ci ==> m'[x.value] == m[x.value]
    ensures ci < |m| && m'[ci] == g
  {
    SameNames(m, ci, g, name);
    hide Behaves;
  }

  ghost predicate FollowsInsts(exact: bool, m: Module, m': Module, f: Fn, cur: nat, insts: seq<Inst>, st: State,
      env: Env, n: nat, n2: nat) {
    var r := RunInsts(m, f, cur, insts, st, env, n);
    && (r.OutOfFuel? ==> RunInsts(m', f, cur, insts, st, env, n).OutOfFuel?)
    && (Counts(exact, r) ==> RunInsts(m', f, cur, insts, st, env, n2) == r)
  }

  ghost predicate FollowsBlock(exact: bool, m: Module, m': Module, f: Fn, id: nat, prev: Option<nat>, st: State,
      env: Env, n: nat, n2: nat) {
    var r := RunBlock(m, f, id, prev, st, env, n);
    && (r.OutOfFuel? ==> RunBlock(m', f, id, prev, st, env, n).OutOfFuel?)
    && (Counts(exact, r) ==> RunBlock(m', f, id, prev, st, env, n2) == r)
  }

  /** The same code runs the same in the changed module. */
  lemma {:induction false} InstsFollow(exact: bool, m: Module, m': Module, ci: nat, g: Fn, f: Fn, cur: nat,
      insts: seq<Inst>, st: State, env: Env, n: nat)
    returns (n2: nat)
    requires Exchanged(exact, m, m', ci, g)
    ensures FollowsInsts(exact, m, m', f, cur, insts, st, env, n, n2)
    decreases n, 2, |insts|, 1
  {
    hide Exchanged;
    hide CallFn;
    hide Step;
    n2 := n;
    if insts != [] {
      var i := insts[0];
      if i.Call? && FindFn(m, i.callee).Some? {
        n2 := CallInstFollows(exact, m, m', ci, g, f, cur, insts, st, env, n);
      } else {
        if i.Call? { ExchangedFinds(exact, m, m', ci, g, i.callee); }
        var r := Step(i, st, env);
        if r.Next? { n2 := InstsFollow(exact, m, m', ci, g, f, cur, insts[1..], r.st, env, n); }
        if r.Jump? { n2 := BlockFollows(exact, m, m', ci, g, f, r.target, Some(cur), r.jst, env, n); }
      }
    }
  }

  lemma {:induction false} BlockFollows(exact: bool, m: Module, m': Module, ci: nat, g: Fn, f: Fn, id: nat,
      prev: Option<nat>, st: State, env: Env, n: nat)
    returns (n2: nat)
    requires Exchanged(exact, m, m', ci, g)
    ensures FollowsBlock(exact, m, m', f, id, prev, st, env, n, n2)
    decreases n, 0, 0, 0
  {
    hide Exchanged;
    hide RunInsts;
    n2 := n;
    var b := FindSsa(f.blocks, id);
    if n > 0 && b.Some? && PhiRegs(b.value.phis, prev, st, env).Some? {
      n2 := InstsFollow(exact, m, m', ci, g, f, id, b.value.insts,
        st.(regs := PhiRegs(b.value.phis, prev, st, env).value), env, n - 1);
      n2 := n2 + 1;
    }
  }

  /** The same body, run in the changed module. */
  lemma {:induction false} BodyFollows(exact: bool, m: Module, m': Module, ci: nat, g: Fn, f: Fn, args: seq<Val>,
      tr: seq<Event>, world: World, n: nat)
    returns (n2: nat)
    requires Exchanged(exact, m, m', ci, g)
    ensures Follows(exact, CallFn(m, f, args, tr, world, n), m', f, args, tr, world, n, n2)
    decreases n, 1, 0, 0
  {
    hide Exchanged;
    hide RunBlock;
    n2 := n;
    if f.blocks != [] {
      n2 := BlockFollows(exact, m, m', ci, g, f, f.blocks[0].id, None, State(map[], map[], tr), Env(args, world), n);
    }
  }

  lemma Behaving(exact: bool, m: Module, m': Module, ci: nat, g: Fn, args: seq<Val>, tr: seq<Event>, world: World,
      n: nat)
    returns (n2: nat)
    requires Exchanged(exact, m, m', ci, g)
    ensures Follows(exact, CallFn(m', m[ci], args, tr, world, n), m', g, args, tr, world, n, n2)
  {
    hide Follows;
    hide CallFn;
    assert Meets(exact, m', m[ci], g, args, tr, world, n);
    n2 :| Follows(exact, CallFn(m', m[ci], args, tr, world, n), m', g, args, tr, world, n, n2);
  }

  /** A call by name gives the same in the changed module. */
  lemma {:induction false} CallFollowed(exact: bool, m: Module, m': Module, ci: nat, g: Fn, name: string,
      args: seq<Val>, tr: seq<Event>, world: World, n: nat)
    returns (n2: nat)
    requires Exchanged(exact, m, m', ci, g) && FindFn(m, name).Some?
    ensures FindFn(m', name) == FindFn(m, name) && |m'| == |m|
    ensures var x := FindFn(m, name).value;
      Follows(exact, CallFn(m, m[x], args, tr, world, n), m', m'[x], args, tr, world, n, n2)
    decreases n, 1, 1, 0
  {
    hide *;
    var x := FindFn(m, name).value;
    ExchangedFinds(exact, m, m', ci, g, name);
    n2 := BodyFollows(exact, m, m', ci, g, m[x], args, tr, world, n);
    if x == ci {
      var n3 := Behaving(exact, m, m', ci, g, args, tr, world, n);
      var n4 := Behaving(exact, m, m', ci, g, args, tr, world, n2);
      FollowsOn(exact, CallFn(m, m[x], args, tr, world, n), m', m[x], m', g, args, tr, world, n, n2, n3, n4);
      n2 := n4;
    }
  }

  /** One exchange after another. */
  lemma FollowsOn(exact: bool, r: Result, p: Module, f: Fn, q: Module, g: Fn, args: seq<Val>, tr: seq<Event>,
      world: World, n: nat, n2: nat, n3: nat, n4: nat)
    requires Follows(exact, r, p, f, args, tr, world, n, n2)
      && Follows(exact, CallFn(p, f, args, tr, world, n), q, g, args, tr, world, n, n3)
    requires Follows(exact, CallFn(p, f, args, tr, world, n2), q, g, args, tr, world, n2, n4)
    ensures Follows(exact, r, q, g, args, tr, world, n, n4)
  { hide CallFn; }

  lemma {:induction false} CallInstFollows(exact: bool, m: Module, m': Module, ci: nat, g: Fn, f: Fn, cur: nat,
      insts: seq<Inst>, st: State, env: Env, n: nat)
    returns (n2: nat)
    requires Exchanged(exact, m, m', ci, g) && insts != [] && insts[0].Call? && FindFn(m, insts[0].callee).Some?
    ensures FollowsInsts(exact, m, m', f, cur, insts, st, env, n, n2)
    decreases n, 2, |insts|, 0
  {
    hide Exchanged;
    hide CallFn;
    hide Returned;
    n2 := n;
    var i := insts[0];
    var xs := EvalAll(i.args, st, env);
    ExchangedFinds(exact, m, m', ci, g, i.callee);
    if xs.Some? {
      var x := FindFn(m, i.callee).value;
      var r := CallFn(m, m[x], xs.value, st.trace, env.world, n);
      n2 := CallFollowed(exact, m, m', ci, g, i.callee, xs.value, st.trace, env.world, n);
      if r.Ended? && Returned(i.result, r.v, st.(trace := r.trace)).Some? {
        var a := Returned(i.result, r.v, st.(trace := r.trace)).value;
        var k2 := InstsFollow(exact, m, m', ci, g, f, cur, insts[1..], a, env, n);
        n2 := ReturnFollows(exact, m, m', f, cur, insts, st, env, n, x, xs.value, r, a, n2, k2);
      }
    }
  }

  /** A call that comes back, in both modules. */
  lemma ReturnFollows(exact: bool, m: Module, m': Module, f: Fn, cur: nat, insts: seq<Inst>, st: State, env: Env,
      n: nat, x: nat, xs: seq<Val>, r: Result, a: State, k: nat, k2: nat)
    returns (n2: nat)
    requires insts != [] && insts[0].Call? && FindFn(m, insts[0].callee) == FindFn(m', insts[0].callee) == Some(x)
      && EvalAll(insts[0].args, st, env) == Some(xs)
    requires r == CallFn(m, m[x], xs, st.trace, env.world, n) && r.Ended?
      && Returned(insts[0].result, r.v, st.(trace := r.trace)) == Some(a)
    requires Follows(exact, r, m', m'[x], xs, st.trace, env.world, n, k)
      && FollowsInsts(exact, m, m', f, cur, insts[1..], a, env, n, k2)
    ensures FollowsInsts(exact, m, m', f, cur, insts, st, env, n, n2)
  {
    hide CallFn;
    hide Returned;
    hide EvalAll;
    n2 := Max(k, k2);
    MoreFuelCall(m', m'[x], xs, st.trace, env.world, k, n2);
    if Counts(exact, RunInsts(m, f, cur, insts[1..], a, env, n)) {
      MoreFuelInsts(m', f, cur, insts[1..], a, env, k2, n2);
    }
    if !CallFn(m', m'[x], xs, st.trace, env.world, n).OutOfFuel? {
      MoreFuelCall(m', m'[x], xs, st.trace, env.world, n, Max(n, k));
      MoreFuelCall(m', m'[x], xs, st.trace, env.world, k, Max(n, k));
    }
  }
}
