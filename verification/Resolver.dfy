module ModuleResolver {
  // Resolving a program's imports (src/frontend/module_resolver.c:141-533).

  import opened Options
  import opened Graphs

  /** A function has a name, or is an operator on a class. */
  datatype Fun = Named(name: string) | Operator(symbol: string, params: nat, onClass: Option<string>)

  /** Declarations, by what the resolver compares. */
  datatype Decl =
    | Class(name: string)
    | Struct(name: string)
    | Enum(name: string)
    | Interface(name: string)
    | Impl(of: string, forClass: string)
    | Function(fun: Fun)

  /** A parsed file: its imports, each as the file it names (None: there is none), whether it has top-level statements,
      and its declarations, kind by kind. */
  datatype File = File(imports: seq<Option<nat>>, topLevel: bool, classes: seq<string>, structs: seq<string>,
    enums: seq<string>, interfaces: seq<string>, impls: seq<(string, string)>, functions: seq<Fun>)
  {
    /** In the order in which they are merged. */
    function Decls(): seq<Decl> {
      seq(|classes|, i requires 0 <= i < |classes| => Class(classes[i]))
      + seq(|structs|, i requires 0 <= i < |structs| => Struct(structs[i]))
      + seq(|enums|, i requires 0 <= i < |enums| => Enum(enums[i]))
      + seq(|interfaces|, i requires 0 <= i < |interfaces| => Interface(interfaces[i]))
      + seq(|impls|, i requires 0 <= i < |impls| => Impl(impls[i].0, impls[i].1))
      + seq(|functions|, i requires 0 <= i < |functions| => Function(functions[i]))
    }
  }

  datatype Error =
    | Missing(importer: nat)
    | Circular(chain: seq<nat>)
    | TopLevel(file: nat)
    | Duplicate(earlier: Decl, later: Decl)

  const MAX_FILES := 128

  // ----- Clashes -----

  datatype Kind = AClass | AStruct | AnEnum | AnInterface | AnImpl | AFunction

  function KindOf(d: Decl): Kind {
    match d
    case Class(_) => AClass
    case Struct(_) => AStruct
    case Enum(_) => AnEnum
    case Interface(_) => AnInterface
    case Impl(_, _) => AnImpl
    case Function(_) => AFunction
  }

  /** The kinds a new declaration is compared with, in this order. */
  function ComparedWith(d: Decl): seq<Kind> {
    match d
    case Class(_) => [AClass, AStruct]
    case Struct(_) => [AStruct, AClass]
    case Enum(_) => [AnEnum, AClass, AStruct]
    case Interface(_) => [AnInterface, AClass, AStruct, AnEnum]
    case Impl(_, _) => [AnImpl]
    case Function(_) => [AFunction]
  }

  predicate IsType(d: Decl) { d.Class? || d.Struct? || d.Enum? || d.Interface? }

  predicate Alike(a: Decl, b: Decl) {
    if IsType(a) && IsType(b) then a.name == b.name
    else if a.Function? && b.Function? then SameFun(a.fun, b.fun)
    else a == b
  }

  /** Operators are the same when they have the same symbol, as many parameters and the same class first, if it is known
      and there is a first. */
  predicate SameFun(a: Fun, b: Fun) {
    if a.Operator? && b.Operator? then
      a.symbol == b.symbol && a.params == b.params && (a.params == 0 || (a.onClass.Some? && a.onClass == b.onClass))
    else a.Named? && a == b
  }

  /** What adding `later` finds wrong with the already merged `earlier`. */
  predicate Clash(earlier: Decl, later: Decl) { KindOf(earlier) in ComparedWith(later) && Alike(earlier, later) }

  predicate NoClash(decls: seq<Decl>) { forall i, j :: 0 <= i < j < |decls| ==> !Clash(decls[i], decls[j]) }

  function FirstAlike(merged: seq<Decl>, kind: Kind, d: Decl): (r: Option<Decl>)
    ensures r.None? <==> forall e :: e in merged ==> !(KindOf(e) == kind && Alike(e, d))
    ensures r.Some? ==> r.value in merged && KindOf(r.value) == kind && Alike(r.value, d)
  {
    if merged == [] then None
    else
      var front, last := FirstAlike(merged[..|merged|-1], kind, d), merged[|merged|-1];
      assert merged == merged[..|merged|-1] + [last];
      if front.Some? then front else if KindOf(last) == kind && Alike(last, d) then Some(last) else None
  }

  /** The merged declaration that is reported: the first of the first kind that has one. */
  function CulpritAmong(merged: seq<Decl>, d: Decl, kinds: seq<Kind>): (r: Option<Decl>)
    ensures r.None? <==> forall e :: e in merged ==> !(KindOf(e) in kinds && Alike(e, d))
    ensures r.Some? ==> r.value in merged && KindOf(r.value) in kinds && Alike(r.value, d)
  {
    if kinds == [] then None
    else
      var first := FirstAlike(merged, kinds[0], d);
      if first.Some? then first else CulpritAmong(merged, d, kinds[1..])
  }

  function Culprit(merged: seq<Decl>, d: Decl): (r: Option<Decl>)
    ensures r.None? <==> forall e :: e in merged ==> !Clash(e, d)
    ensures r.Some? ==> r.value in merged && Clash(r.value, d)
  { CulpritAmong(merged, d, ComparedWith(d)) }

  function ImportGraph(files: seq<File>): (g: Graph)
    ensures |g| == |files| && forall i :: 0 <= i < |g| ==> g[i] == Somes(files[i].imports)
  { seq(|files|, i requires 0 <= i < |files| => Somes(files[i].imports)) }

  predicate Inside(files: seq<File>) {
    forall i, k ::
      0 <= i < |files| && 0 <= k < |files[i].imports| && files[i].imports[k].Some? ==>
        files[i].imports[k].value < |files|
  }

  lemma ImportsValid(files: seq<File>)
    requires Inside(files)
    ensures ValidGraph(ImportGraph(files))
  {
    var g := ImportGraph(files);
    forall a, k | 0 <= a < |g| && 0 <= k < |g[a]| ensures g[a][k] < |g| {
      assert g[a][k] in Somes(files[a].imports);
      var m :| 0 <= m < |files[a].imports| && files[a].imports[m] == Some(g[a][k]);
    }
  }

  // ----- The state between files -----

  function DeclsIn(files: seq<File>, x: nat): seq<Decl> { if x < |files| then files[x].Decls() else [] }

  /** The declarations of files one after the other. */
  function DeclsOf(files: seq<File>, order: seq<nat>): seq<Decl> {
    if order == [] then [] else DeclsOf(files, order[..|order|-1]) + DeclsIn(files, order[|order|-1])
  }

  /** The order of merging: depth first, the imports of a file before the file, in their order, and every file once. A
      file that is being worked on, on the stack, or done already is not visited. */
  function Visit(files: seq<File>, stack: seq<nat>, done: seq<nat>, f: nat): (r: seq<nat>)
    ensures done <= r
    decreases |files| - |stack|, 0, 0
  {
    if f >= |files| || f in stack || f in done || |stack| >= |files| then done
    else VisitAll(files, stack + [f], done, files[f].imports) + [f]
  }

  function VisitAll(files: seq<File>, stack: seq<nat>, done: seq<nat>, imports: seq<Option<nat>>): (r: seq<nat>)
    ensures done <= r
    decreases |files| - |stack|, 1, |imports|
  {
    if imports == [] then done
    else
      var front, last := VisitAll(files, stack, done, imports[..|imports|-1]), imports[|imports|-1];
      if last.None? then front else Visit(files, stack, front, last.value)
  }

  function Order(files: seq<File>, entry: nat): seq<nat> { Visit(files, [], [], entry) }

  /** The error is the first clash met in merging files in this order. */
  ghost predicate Found(files: seq<File>, order: seq<nat>, e: Error) {
    e.Duplicate? && exists j: nat :: FoundAt(DeclsOf(files, order), j, e)
  }

  ghost predicate FoundAt(all: seq<Decl>, j: nat, e: Error)
    requires e.Duplicate?
  { j < |all| && NoClash(all[..j]) && all[j] == e.later && Culprit(all[..j], all[j]) == Some(e.earlier) }

  lemma {:induction false} DeclsPrefix(files: seq<File>, a: seq<nat>, b: seq<nat>)
    requires a <= b
    ensures DeclsOf(files, a) <= DeclsOf(files, b)
    decreases |b|
  {
    if |a| == |b| {
      assert a == b;
    } else {
      DeclsPrefix(files, a, b[..|b|-1]);
    }
  }

  lemma FoundLater(files: seq<File>, a: seq<nat>, b: seq<nat>, e: Error)
    requires Found(files, a, e) && a <= b
    ensures Found(files, b, e)
  {
    DeclsPrefix(files, a, b);
    hide NoClash;
    hide Culprit;
    hide DeclsOf;
    var was, now := DeclsOf(files, a), DeclsOf(files, b);
    var j: nat :| FoundAt(was, j, e);
    assert now[..j] == was[..j];
    assert FoundAt(now, j, e);
  }

  lemma {:induction false} VisitedSoFar(files: seq<File>, stack: seq<nat>, done: seq<nat>, imports: seq<Option<nat>>,
      i: nat)
    requires i <= |imports|
    ensures VisitAll(files, stack, done, imports[..i]) <= VisitAll(files, stack, done, imports)
    decreases |imports|
  {
    if i < |imports| {
      VisitedSoFar(files, stack, done, imports[..|imports|-1], i);
      assert imports[..|imports|-1][..i] == imports[..i];
    } else {
      assert imports[..i] == imports;
    }
  }

  lemma VisitedNext(files: seq<File>, stack: seq<nat>, done: seq<nat>, imports: seq<Option<nat>>, i: nat)
    requires i < |imports| && imports[i].Some?
    ensures VisitAll(files, stack, done, imports[..i+1]) ==
      Visit(files, stack, VisitAll(files, stack, done, imports[..i]), imports[i].value)
  { assert imports[..i+1][..i] == imports[..i] && imports[..i+1][i] == imports[i]; }

  /** File `v` and everything it imports have been found, the imports earlier. */
  predicate ImportsBefore(files: seq<File>, order: seq<nat>, i: nat)
    requires i < |order| && order[i] < |files|
  { forall k ::
    0 <= k < |files[order[i]].imports| ==> var v := files[order[i]].imports[k]; v.Some? && v.value in order[..i] }

  /** The files done so far: each once, imports before importers, merged without clashes. */
  ghost predicate Done(files: seq<File>, order: seq<nat>, merged: seq<Decl>) {
    && NoDup(order) && (forall i :: 0 <= i < |order| ==> order[i] < |files|)
    && (forall i: nat :: i < |order| ==> ImportsBefore(files, order, i))
    && merged == DeclsOf(files, order) && NoClash(merged)
  }

  /** The files being worked on: each imports the next. */
  ghost predicate Chain(files: seq<File>, entry: nat, stack: seq<nat>) {
    && NoDup(stack) && (stack != [] ==> stack[0] == entry)
    && (forall x :: x in stack ==> x < |files| && Reach(ImportGraph(files), entry, x))
    && (forall i :: 0 <= i < |stack| - 1 ==> Edge(ImportGraph(files), stack[i], stack[i+1]))
  }

  /** A chain of files each importing the next, and the last the first. */
  ghost predicate IsCycle(g: Graph, chain: seq<nat>) { IsPath(g, chain) && Edge(g, chain[|chain|-1], chain[0]) }

  /** The errors say what is the case. */
  ghost predicate Truthful(files: seq<File>, entry: nat, e: Error) {
    var g := ImportGraph(files);
    match e
    case Missing(x) => x < |files| && Reach(g, entry, x) && None in files[x].imports
    case Circular(chain) => IsCycle(g, chain) && Reach(g, entry, chain[0])
    case TopLevel(x) => x < |files| && x != entry && Reach(g, entry, x) && files[x].topLevel
    case Duplicate(a, b) =>
      Clash(a, b) && exists x: nat, y: nat, i: nat, j: nat ::
        IsDecl(files, entry, x, i, a) && IsDecl(files, entry, y, j, b) && (x, i) != (y, j)
  }

  ghost predicate IsDecl(files: seq<File>, entry: nat, x: nat, i: nat, d: Decl) {
    x < |files| && Reach(ImportGraph(files), entry, x) && i < |files[x].Decls()| && files[x].Decls()[i] == d
  }

  /** Everything done so far is reachable, apart from what is being worked on, and has no business being an entry. */
  ghost predicate Apart(files: seq<File>, entry: nat, stack: seq<nat>, order: seq<nat>) {
    forall x ::
      x in order ==>
        x !in stack && x < |files| && Reach(ImportGraph(files), entry, x) && (x != entry ==> !files[x].topLevel)
  }

  lemma {:induction false} DeclAt(files: seq<File>, order: seq<nat>, k: nat) returns (x: nat, i: nat)
    requires (forall j :: 0 <= j < |order| ==> order[j] < |files|) && k < |DeclsOf(files, order)|
    ensures x in order && x < |files| && i < |files[x].Decls()| && files[x].Decls()[i] == DeclsOf(files, order)[k]
  {
    var front, last := order[..|order|-1], order[|order|-1];
    if k < |DeclsOf(files, front)| {
      x, i := DeclAt(files, front, k);
    } else {
      x, i := last, k - |DeclsOf(files, front)|;
    }
  }

  /** A declaration merged so far, or earlier in file `f`, is one of a file done or of `f`. */
  lemma MergedFrom(files: seq<File>, order: seq<nat>, before: seq<Decl>, f: nat, i: nat, d: Decl)
      returns (x: nat, j: nat)
    requires f < |files| && f !in order && i < |files[f].Decls()| && Done(files, order, before)
    requires forall x :: x in order ==> x < |files|
    requires d in before + files[f].Decls()[..i]
    ensures x < |files| && j < |files[x].Decls()| && files[x].Decls()[j] == d && (x in order || x == f)
    ensures (x, j) != (f, i)
  {
    hide File.Decls;
    hide NoClash;
    var decls := files[f].Decls();
    var k :| 0 <= k < |before + decls[..i]| && (before + decls[..i])[k] == d;
    if k < |before| { x, j := DeclAt(files, order, k); } else { x, j := f, k - |before|; }
  }

  lemma TwoDecls(files: seq<File>, entry: nat, x: nat, y: nat, i: nat, j: nat, e: Error)
    requires e.Duplicate? && Clash(e.earlier, e.later)
    requires IsDecl(files, entry, x, i, e.earlier) && IsDecl(files, entry, y, j, e.later) && (x, i) != (y, j)
    ensures Truthful(files, entry, e)
  {
    hide Clash;
    hide IsDecl;
    hide Reach;
  }

  /** A clash found while merging file `f` is between two declarations of reachable files. */
  lemma ClashIsTruthful(files: seq<File>, entry: nat, order: seq<nat>, before: seq<Decl>, f: nat, i: nat, e: Error)
    requires f < |files| && Reach(ImportGraph(files), entry, f) && f !in order && i < |files[f].Decls()|
    requires Done(files, order, before) && forall x :: x in order ==> x < |files| && Reach(ImportGraph(files), entry, x)
    requires e.Duplicate? && e.later == files[f].Decls()[i] && e.earlier in before + files[f].Decls()[..i]
      && Clash(e.earlier, e.later)
    ensures Truthful(files, entry, e)
  {
    hide Clash;
    hide Done;
    hide Reach;
    hide Truthful;
    hide File.Decls;
    var x, j := MergedFrom(files, order, before, f, i, e.earlier);
    TwoDecls(files, entry, x, f, j, i, e);
  }

  class Resolver {
    const files: seq<File>
    var stack: seq<nat>
    var resolved: seq<nat>
    var merged: seq<Decl>

    constructor (files: seq<File>)
      ensures this.files == files && stack == [] && resolved == [] && merged == []
    { this.files, stack, resolved, merged := files, [], [], []; }

    method FindInStack(f: nat) returns (at: int)
      ensures if at == -1 then f !in stack else 0 <= at < |stack| && stack[at] == f
    {
      at := 0;
      while at < |stack|
        invariant 0 <= at <= |stack| && f !in stack[..at]
      {
        if stack[at] == f { return; }
        at := at + 1;
      }
      at := -1;
    }

    method IsResolved(f: nat) returns (yes: bool)
      ensures yes <==> f in resolved
    {
      var i := 0;
      while i < |resolved|
        invariant 0 <= i <= |resolved| && f !in resolved[..i]
      {
        if resolved[i] == f { return true; }
        i := i + 1;
      }
      return false;
    }

    /** Adds one declaration unless a merged one stands in its way: one list of merged declarations after the other is
        looked through. */
    method Add(d: Decl) returns (err: Option<Error>)
      modifies `merged
      ensures err == if Culprit(old(merged), d).Some? then Some(Duplicate(Culprit(old(merged), d).value, d)) else None
      ensures err.None? ==> merged == old(merged) + [d]
    {
      hide *;
      CulpritStarts(merged, d);
      var kinds, k := ComparedWith(d), 0;
      while k < |kinds|
        invariant 0 <= k <= |kinds| && merged == old(merged)
        invariant Culprit(merged, d) == CulpritAmong(merged, d, kinds[k..])
      {
        var i := 0;
        FirstStarts(merged, kinds[k], d);
        while i < |merged|
          invariant 0 <= i <= |merged| && merged == old(merged) && FirstAlike(merged[..i], kinds[k], d).None?
        {
          FirstNext(merged, i, kinds[k], d);
          if KindOf(merged[i]) == kinds[k] && Alike(merged[i], d) {
            CulpritNext(merged, d, kinds, k);
            return Some(Duplicate(merged[i], d));
          }
          i := i + 1;
        }
        WholeList(merged, i);
        CulpritNext(merged, d, kinds, k);
        k := k + 1;
      }
      CulpritEnds(merged, d, kinds, k);
      merged := merged + [d];
      return None;
    }

    /** Merges the declarations of file `f`, when all it imports is done. */
    method Merge(f: nat, ghost entry: nat) returns (err: Option<Error>)
      requires Working(files, entry, stack, resolved, merged) && f in stack && f < |files|
      modifies `merged
      ensures err.None? ==> merged == old(merged) + files[f].Decls() && NoClash(merged)
      ensures err.Some? ==> Truthful(files, entry, err.value) && Found(files, resolved + [f], err.value)
    {
      hide *;
      ghost var before := merged;
      var decls := files[f].Decls();
      MayMerge(files, entry, stack, resolved, merged, f);
      DoneIs(files, resolved, merged);
      NoneTaken(before, decls);
      var i := 0;
      while i < |decls|
        invariant 0 <= i <= |decls| && merged == before + decls[..i] && NoClash(merged)
      {
        ghost var was := merged;
        CulpritIs(was, decls[i]);
        err := Add(decls[i]);
        if err.Some? {
          ClashIsTruthful(files, entry, resolved, before, f, i, err.value);
          FoundHere(files, resolved, before, f, i, err.value);
          return;
        }
        NoClashMore(was, decls[i]);
        TakeNext(before, decls, i);
        i := i + 1;
      }
      WholeList(decls, i);
      return None;
    }

    /** Resolves one file: nothing if it is done already, otherwise its imports first, depth first. */
    method ResolveFile(file: Option<nat>, importer: Option<nat>, ghost entry: nat) returns (err: Option<Error>)
      requires Working(files, entry, stack, resolved, merged) && Asked(files, entry, stack, resolved, file, importer)
      modifies this
      ensures err.None? ==>
        Working(files, entry, stack, resolved, merged) && stack == old(stack) && old(resolved) <= resolved
      ensures err.None? ==>
        file.Some? && file.value in resolved && resolved == Visit(files, old(stack), old(resolved), file.value)
      ensures err.Some? ==> Truthful(files, entry, err.value)
      ensures err.Some? && err.value.Duplicate? ==>
        file.Some? && Found(files, Visit(files, old(stack), old(resolved), file.value), err.value)
      decreases |files| - |stack|
    {
      hide *;
      if file.None? {
        NotFound(files, entry, stack, resolved, merged, importer);
        return Some(Missing(importer.value));
      }
      var f := file.value;
      Enters(files, entry, stack, resolved, merged, f, importer);
      var at := FindInStack(f);
      if at != -1 {
        LoopsBack(files, entry, stack, resolved, merged, at);
        return Some(Circular(stack[at..]));
      }
      var seen := IsResolved(f);
      VisitIs(files, stack, resolved, f);
      if seen { return None; }
      Pushed(files, entry, stack, resolved, merged, f);
      stack := stack + [f];
      if importer.Some? && files[f].topLevel {
        Statements(files, entry, old(stack), resolved, merged, f, importer);
        return Some(TopLevel(f));
      }
      EntryAlone(files, entry, old(stack), resolved, f, importer);
      NothingVisited(files, stack, resolved, files[f].imports);
      NoneImported(files, f, resolved);
      var i := 0;
      while i < |files[f].imports|
        invariant 0 <= i <= |files[f].imports| && Working(files, entry, stack, resolved, merged)
        invariant stack == old(stack) + [f] && old(resolved) <= resolved && Imported(files, f, i, resolved)
        invariant resolved == VisitAll(files, stack, old(resolved), files[f].imports[..i])
      {
        ghost var was := resolved;
        Asking(files, entry, stack, resolved, f, i);
        err := ResolveFile(files[f].imports[i], Some(f), entry);
        if files[f].imports[i].Some? { VisitedNext(files, old(stack) + [f], old(resolved), files[f].imports, i); }
        if err.Some? {
          if err.value.Duplicate? { FoundBelow(files, old(stack), old(resolved), f, i + 1, err.value); }
          return;
        }
        ImportedNext(files, f, i, was, resolved);
        i := i + 1;
      }
      WholeList(files[f].imports, i);
      ghost var before := merged;
      err := Merge(f, entry);
      if err.Some? { return; }
      Finished(files, entry, old(stack), resolved, before, merged, f);
      resolved := resolved + [f];
      stack := stack[..|stack|-1];
    }
  }

  lemma WholeList<T>(xs: seq<T>, i: nat)
    requires i == |xs|
    ensures xs[..i] == xs
  {}

  lemma NothingVisited(files: seq<File>, stack: seq<nat>, done: seq<nat>, imports: seq<Option<nat>>)
    ensures VisitAll(files, stack, done, imports[..0]) == done
  {}

  lemma VisitIs(files: seq<File>, stack: seq<nat>, done: seq<nat>, f: nat)
    ensures Visit(files, stack, done, f) ==
      if f >= |files| || f in stack || f in done || |stack| >= |files| then done
      else VisitAll(files, stack + [f], done, files[f].imports) + [f]
  {}

  lemma FoundBelow(files: seq<File>, stack: seq<nat>, done: seq<nat>, f: nat, i: nat, e: Error)
    requires f < |files| && f !in stack && f !in done && |stack| < |files| && i <= |files[f].imports|
    requires Found(files, VisitAll(files, stack + [f], done, files[f].imports[..i]), e)
    ensures Found(files, Visit(files, stack, done, f), e)
  {
    VisitedSoFar(files, stack + [f], done, files[f].imports, i);
    hide Found;
    hide VisitAll;
    FoundLater(files, VisitAll(files, stack + [f], done, files[f].imports[..i]), Visit(files, stack, done, f), e);
  }

  lemma {:induction false} FirstOfMore(merged: seq<Decl>, i: nat, kind: Kind, d: Decl)
    requires i <= |merged| && FirstAlike(merged[..i], kind, d).Some?
    ensures FirstAlike(merged, kind, d) == FirstAlike(merged[..i], kind, d)
    decreases |merged|
  {
    if i < |merged| {
      FirstOfMore(merged[..|merged|-1], i, kind, d);
      assert merged[..|merged|-1][..i] == merged[..i];
    } else {
      assert merged[..i] == merged;
    }
  }

  lemma FirstStarts(merged: seq<Decl>, kind: Kind, d: Decl)
    ensures FirstAlike(merged[..0], kind, d).None?
  {}

  lemma FirstNext(merged: seq<Decl>, i: nat, kind: Kind, d: Decl)
    requires i < |merged| && FirstAlike(merged[..i], kind, d).None?
    ensures if KindOf(merged[i]) == kind && Alike(merged[i], d) then FirstAlike(merged, kind, d) == Some(merged[i])
      else FirstAlike(merged[..i+1], kind, d).None?
  {
    hide KindOf;
    hide Alike;
    assert merged[..i+1][..i] == merged[..i] && merged[..i+1][i] == merged[i];
    if FirstAlike(merged[..i+1], kind, d).Some? { FirstOfMore(merged, i + 1, kind, d); }
  }

  lemma CulpritStarts(merged: seq<Decl>, d: Decl)
    ensures Culprit(merged, d) == CulpritAmong(merged, d, ComparedWith(d)[0..])
  {
    hide CulpritAmong;
    hide ComparedWith;
    hide Clash;
    assert ComparedWith(d)[0..] == ComparedWith(d);
  }

  lemma CulpritNext(merged: seq<Decl>, d: Decl, kinds: seq<Kind>, k: nat)
    requires k < |kinds|
    ensures CulpritAmong(merged, d, kinds[k..]) ==
      if FirstAlike(merged, kinds[k], d).Some? then FirstAlike(merged, kinds[k], d)
      else CulpritAmong(merged, d, kinds[k+1..])
  {
    hide FirstAlike;
    assert kinds[k..][0] == kinds[k] && kinds[k..][1..] == kinds[k+1..];
  }

  lemma CulpritEnds(merged: seq<Decl>, d: Decl, kinds: seq<Kind>, k: nat)
    requires k == |kinds|
    ensures CulpritAmong(merged, d, kinds[k..]).None?
  {}

  lemma NoneTaken<T>(before: seq<T>, xs: seq<T>)
    ensures before + xs[..0] == before
  {}

  lemma TakeNext<T>(before: seq<T>, xs: seq<T>, i: nat)
    requires i < |xs|
    ensures before + xs[..i] + [xs[i]] == before + xs[..i+1]
  { assert xs[..i+1] == xs[..i] + [xs[i]]; }

  lemma CulpritIs(merged: seq<Decl>, d: Decl)
    ensures Culprit(merged, d).Some? ==> Culprit(merged, d).value in merged && Clash(Culprit(merged, d).value, d)
  {}

  lemma DoneIs(files: seq<File>, order: seq<nat>, merged: seq<Decl>)
    requires Done(files, order, merged)
    ensures merged == DeclsOf(files, order) && NoClash(merged)
  {}

  lemma NoClashMore(merged: seq<Decl>, d: Decl)
    requires NoClash(merged) && Culprit(merged, d).None?
    ensures NoClash(merged + [d])
  { hide Clash; }

  lemma FoundThere(files: seq<File>, order: seq<nat>, all: seq<Decl>, before: seq<Decl>, decls: seq<Decl>, i: nat,
      e: Error)
    requires i < |decls| && all == DeclsOf(files, order) == before + decls && NoClash(before + decls[..i])
    requires e.Duplicate? && e.later == decls[i] && Culprit(before + decls[..i], e.later) == Some(e.earlier)
    ensures Found(files, order, e)
  {
    hide NoClash;
    hide Culprit;
    hide DeclsOf;
    assert all[..|before| + i] == before + decls[..i];
    assert FoundAt(all, |before| + i, e);
  }

  /** A clash found while merging file `f` is the first in the files done and this one. */
  lemma FoundHere(files: seq<File>, order: seq<nat>, before: seq<Decl>, f: nat, i: nat, e: Error)
    requires f < |files| && i < |files[f].Decls()| && before == DeclsOf(files, order)
    requires var merged := before + files[f].Decls()[..i];
      NoClash(merged) && e.Duplicate? && e.later == files[f].Decls()[i] && Culprit(merged, e.later) == Some(e.earlier)
    ensures Found(files, order + [f], e)
  {
    var decls := files[f].Decls();
    assert (order + [f])[..|order|] == order;
    var all := DeclsOf(files, order + [f]);
    assert all == before + decls;
    hide *;
    FoundThere(files, order + [f], all, before, decls, i, e);
  }

  ghost predicate Working(files: seq<File>, entry: nat, stack: seq<nat>, order: seq<nat>, merged: seq<Decl>) {
    && Inside(files) && |files| <= MAX_FILES && Chain(files, entry, stack) && Done(files, order, merged)
    && Apart(files, entry, stack, order) && entry < |files|
  }

  /** Either the program's own file is asked for, before anything else, or one that the file being worked on imports. */
  ghost predicate Asked(files: seq<File>, entry: nat, stack: seq<nat>, order: seq<nat>, file: Option<nat>,
      importer: Option<nat>) {
    if importer.None? then file == Some(entry) && stack == [] && order == []
    else
      && stack != [] && stack[|stack|-1] == importer.value
      && importer.value < |files| && file in files[importer.value].imports
  }

  lemma NotFound(files: seq<File>, entry: nat, stack: seq<nat>, order: seq<nat>, merged: seq<Decl>,
      importer: Option<nat>)
    requires Working(files, entry, stack, order, merged) && Asked(files, entry, stack, order, None, importer)
    ensures importer.Some? && Truthful(files, entry, Missing(importer.value))
  { assert importer.Some? ==> importer.value in stack; }

  /** The file is there, reachable, and imported by the one being worked on. */
  lemma Enters(files: seq<File>, entry: nat, stack: seq<nat>, order: seq<nat>, merged: seq<Decl>, f: nat,
      importer: Option<nat>)
    requires Working(files, entry, stack, order, merged) && Asked(files, entry, stack, order, Some(f), importer)
    ensures f < |files| && Reach(ImportGraph(files), entry, f) && (stack == [] ==> f == entry && importer.None?)
    ensures stack != [] ==> importer.Some? && Edge(ImportGraph(files), stack[|stack|-1], f)
  {
    ReachSelf(ImportGraph(files), entry);
    ImportsValid(files);
    if stack != [] {
      var p := stack[|stack|-1];
      assert p in stack;
      var k :| 0 <= k < |files[p].imports| && files[p].imports[k] == Some(f);
      ReachStep(ImportGraph(files), entry, p, f);
    }
  }

  lemma ChainCloses(files: seq<File>, entry: nat, stack: seq<nat>, at: nat)
    requires Chain(files, entry, stack) && at < |stack| && Edge(ImportGraph(files), stack[|stack|-1], stack[at])
    ensures Truthful(files, entry, Circular(stack[at..]))
  {
    hide Reach;
    hide Edge;
    hide NoDup;
    hide ImportGraph;
    var chain := stack[at..];
    assert chain[0] in stack && chain[|chain|-1] == stack[|stack|-1];
    assert forall i :: 0 <= i < |chain| ==> chain[i] in stack;
  }

  lemma LoopsBack(files: seq<File>, entry: nat, stack: seq<nat>, order: seq<nat>, merged: seq<Decl>, at: nat)
    requires Working(files, entry, stack, order, merged) && at < |stack|
      && Edge(ImportGraph(files), stack[|stack|-1], stack[at])
    ensures Truthful(files, entry, Circular(stack[at..]))
  {
    ChainOf(files, entry, stack, order, merged);
    hide *;
    ChainCloses(files, entry, stack, at);
  }

  lemma ChainOf(files: seq<File>, entry: nat, stack: seq<nat>, order: seq<nat>, merged: seq<Decl>)
    requires Working(files, entry, stack, order, merged)
    ensures Chain(files, entry, stack) && Done(files, order, merged) && Apart(files, entry, stack, order)
    ensures Inside(files) && |files| <= MAX_FILES && entry < |files|
  {
    hide Chain;
    hide Done;
    hide Apart;
    hide Inside;
  }

  lemma PushedChain(files: seq<File>, entry: nat, stack: seq<nat>, f: nat)
    requires Chain(files, entry, stack) && f < |files| && f !in stack && Reach(ImportGraph(files), entry, f)
    requires if stack == [] then f == entry else Edge(ImportGraph(files), stack[|stack|-1], f)
    ensures Chain(files, entry, stack + [f])
  {
    hide Reach;
    hide Edge;
    hide ImportGraph;
  }

  /** Neither the stack nor the list of files done is full while there is another file. */
  lemma RoomFor(files: seq<File>, entry: nat, stack: seq<nat>, order: seq<nat>, merged: seq<Decl>, f: nat)
    requires Chain(files, entry, stack) && Done(files, order, merged) && Apart(files, entry, stack, order)
    requires f < |files| && f !in stack && f !in order
    ensures |stack| < |files| && |order| < |files|
  {
    hide DeclsOf;
    hide NoClash;
    hide ImportsBefore;
    hide Reach;
    hide Edge;
    hide ImportGraph;
    Pigeonhole(stack, |files|, f);
    Pigeonhole(order, |files|, f);
  }

  lemma PushedApart(files: seq<File>, entry: nat, stack: seq<nat>, order: seq<nat>, f: nat)
    requires Apart(files, entry, stack, order) && f !in order
    ensures Apart(files, entry, stack + [f], order)
  {
    hide Reach;
    hide ImportGraph;
  }

  lemma WorkingWith(files: seq<File>, entry: nat, stack: seq<nat>, order: seq<nat>, merged: seq<Decl>)
    requires Inside(files) && |files| <= MAX_FILES && entry < |files|
    requires Chain(files, entry, stack) && Done(files, order, merged) && Apart(files, entry, stack, order)
    ensures Working(files, entry, stack, order, merged)
  {
    hide Chain;
    hide Done;
    hide Apart;
    hide Inside;
  }

  /** The stack has room for a file that is not on it. */
  lemma Pushed(files: seq<File>, entry: nat, stack: seq<nat>, order: seq<nat>, merged: seq<Decl>, f: nat)
    requires Working(files, entry, stack, order, merged) && f < |files| && f !in stack && f !in order
      && Reach(ImportGraph(files), entry, f)
    requires if stack == [] then f == entry else Edge(ImportGraph(files), stack[|stack|-1], f)
    ensures |stack| < |files| <= MAX_FILES && |order| < MAX_FILES && Working(files, entry, stack + [f], order, merged)
  {
    var most := MAX_FILES;
    hide *;
    ChainOf(files, entry, stack, order, merged);
    PushedChain(files, entry, stack, f);
    RoomFor(files, entry, stack, order, merged, f);
    PushedApart(files, entry, stack, order, f);
    WorkingWith(files, entry, stack + [f], order, merged);
  }

  lemma Statements(files: seq<File>, entry: nat, stack: seq<nat>, order: seq<nat>, merged: seq<Decl>, f: nat,
      importer: Option<nat>)
    requires Working(files, entry, stack, order, merged) && importer.Some? && f !in stack && f < |files|
      && files[f].topLevel
    requires Reach(ImportGraph(files), entry, f) && Asked(files, entry, stack, order, Some(f), importer)
    ensures Truthful(files, entry, TopLevel(f))
  { assert entry in stack; }

  lemma EntryAlone(files: seq<File>, entry: nat, stack: seq<nat>, order: seq<nat>, f: nat, importer: Option<nat>)
    requires Asked(files, entry, stack, order, Some(f), importer)
    ensures importer.None? ==> f == entry
  {}

  lemma Asking(files: seq<File>, entry: nat, stack: seq<nat>, order: seq<nat>, f: nat, i: nat)
    requires f < |files| && i < |files[f].imports| && stack != [] && stack[|stack|-1] == f
    ensures Asked(files, entry, stack, order, files[f].imports[i], Some(f))
  {}


  lemma MayMerge(files: seq<File>, entry: nat, stack: seq<nat>, order: seq<nat>, merged: seq<Decl>, f: nat)
    requires Working(files, entry, stack, order, merged) && f in stack
    ensures Done(files, order, merged) && f !in order && Reach(ImportGraph(files), entry, f)
    ensures forall x :: x in order ==> x < |files| && Reach(ImportGraph(files), entry, x)
  {
    hide Done;
    hide Reach;
    hide Inside;
  }

  ghost predicate Imported(files: seq<File>, f: nat, i: nat, order: seq<nat>) {
    && f < |files| && i <= |files[f].imports|
    && forall k :: 0 <= k < i ==> files[f].imports[k].Some? && files[f].imports[k].value in order
  }

  lemma NoneImported(files: seq<File>, f: nat, order: seq<nat>)
    requires f < |files|
    ensures Imported(files, f, 0, order)
  {}

  lemma ImportedNext(files: seq<File>, f: nat, i: nat, order: seq<nat>, next: seq<nat>)
    requires Imported(files, f, i, order) && i < |files[f].imports| && order <= next
    requires files[f].imports[i].Some? && files[f].imports[i].value in next
    ensures Imported(files, f, i + 1, next)
  { assert forall x :: x in order ==> x in next; }

  /** A file is done when all it imports is done and its declarations have been merged. */
  lemma Finished(files: seq<File>, entry: nat, stack: seq<nat>, order: seq<nat>, before: seq<Decl>, merged: seq<Decl>,
      f: nat)
    requires Working(files, entry, stack + [f], order, before) && f < |files| && (f != entry ==> !files[f].topLevel)
    requires Imported(files, f, |files[f].imports|, order)
    requires merged == before + files[f].Decls() && NoClash(merged)
    ensures Working(files, entry, stack, order + [f], merged)
  {
    assert f in stack + [f] && forall x :: x in stack ==> x in stack + [f];
    FinishedDone(files, order, before, merged, f);
    FinishedChain(files, entry, stack, f);
    hide Done;
    hide Chain;
    hide Inside;
    hide Reach;
  }

  lemma FinishedChain(files: seq<File>, entry: nat, stack: seq<nat>, f: nat)
    requires Chain(files, entry, stack + [f])
    ensures Chain(files, entry, stack) && f !in stack && f < |files| && Reach(ImportGraph(files), entry, f)
  {
    var all := stack + [f];
    assert all[|stack|] == f && forall i :: 0 <= i < |stack| ==> all[i] == stack[i];
    forall x | x in stack ensures x in all {}
    assert f in all;
  }

  lemma FinishedDone(files: seq<File>, order: seq<nat>, before: seq<Decl>, merged: seq<Decl>, f: nat)
    requires Done(files, order, before) && f < |files| && f !in order
    requires forall k :: 0 <= k < |files[f].imports| ==> files[f].imports[k].Some? && files[f].imports[k].value in order
    requires merged == before + files[f].Decls() && NoClash(merged)
    ensures Done(files, order + [f], merged)
  {
    var next := order + [f];
    assert next[..|next|-1] == order;
    forall i: nat | i < |next| ensures ImportsBefore(files, next, i) {
      if i < |order| {
        assert ImportsBefore(files, order, i) && next[..i] == order[..i];
      } else {
        assert next[..i] == order;
      }
    }
  }

  // ----- When clashes go unnoticed -----

  /** Types are merged kind by kind within a file, and a new one is compared with those of its own rank and below. */
  function TypeRank(d: Decl): nat
    requires IsType(d)
  { if d.Class? || d.Struct? then 0 else if d.Enum? then 1 else 2 }

  /** Two types of one name go together when the one of the higher rank is merged first. */
  predicate Overlooked(earlier: Decl, later: Decl) {
    IsType(earlier) && IsType(later) && TypeRank(earlier) > TypeRank(later)
  }

  /** No file says the same twice. What two files both say are types, of a higher rank in the one merged first. */
  ghost predicate Distinct(files: seq<File>, order: seq<nat>) {
    && (forall p :: 0 <= p < |order| ==> OneFile(DeclsIn(files, order[p])))
    && (forall p, q :: 0 <= p < q < |order| ==> TwoFiles(DeclsIn(files, order[p]), DeclsIn(files, order[q])))
  }

  predicate OneFile(ds: seq<Decl>) { forall i, j :: 0 <= i < j < |ds| ==> !Alike(ds[i], ds[j]) }

  ghost predicate TwoFiles(xs: seq<Decl>, ys: seq<Decl>) {
    forall a, b :: a in xs && b in ys && Alike(a, b) ==> Overlooked(a, b)
  }

  lemma ClashIsAlike(a: Decl, b: Decl)
    ensures Clash(a, b) <==> Alike(a, b) && !Overlooked(a, b)
  {}

  /** What may be merged after what, case by case. */
  predicate MayFollow(earlier: Decl, later: Decl) {
    match (earlier, later)
    case (Function(Named(m)), Function(Named(n))) => m != n
    case (Function(Operator(s, p, c)), Function(Operator(s', p', c'))) =>
      s != s' || p != p' || (p > 0 && (c == None || c != c'))
    case (Impl(i, c), Impl(i', c')) => i != i' || c != c'
    case (Class(m), Class(n)) => m != n
    case (Class(m), Struct(n)) => m != n
    case (Class(m), Enum(n)) => m != n
    case (Class(m), Interface(n)) => m != n
    case (Struct(m), Class(n)) => m != n
    case (Struct(m), Struct(n)) => m != n
    case (Struct(m), Enum(n)) => m != n
    case (Struct(m), Interface(n)) => m != n
    case (Enum(m), Enum(n)) => m != n
    case (Enum(m), Interface(n)) => m != n
    case (Interface(m), Interface(n)) => m != n
    case _ => true
  }

  lemma ClashIs(a: Decl, b: Decl)
    ensures Clash(a, b) <==> !MayFollow(a, b)
  {}

  /** No function, operator or implementation twice, and no two types of one name but those that are overlooked. */
  lemma NoClashMeans(ds: seq<Decl>)
    ensures NoClash(ds) <==> forall i, j :: 0 <= i < j < |ds| ==> MayFollow(ds[i], ds[j])
  {
    hide Clash;
    hide MayFollow;
    forall a, b ensures Clash(a, b) <==> !MayFollow(a, b) { ClashIs(a, b); }
  }

  lemma RanksAscend(file: File, i: nat, j: nat)
    requires i < j < |file.Decls()| && IsType(file.Decls()[i]) && IsType(file.Decls()[j])
    ensures TypeRank(file.Decls()[i]) <= TypeRank(file.Decls()[j])
  {}

  lemma OneFileExactlyWhen(files: seq<File>, x: nat)
    ensures NoClash(DeclsIn(files, x)) <==> OneFile(DeclsIn(files, x))
  {
    var ds := DeclsIn(files, x);
    forall i, j | 0 <= i < j < |ds| ensures Clash(ds[i], ds[j]) <==> Alike(ds[i], ds[j]) {
      ClashIsAlike(ds[i], ds[j]);
      if IsType(ds[i]) && IsType(ds[j]) { RanksAscend(files[x], i, j); }
    }
  }

  ghost predicate NoneAcross(xs: seq<Decl>, ys: seq<Decl>) { forall a, b :: a in xs && b in ys ==> !Clash(a, b) }

  lemma NoClashSum(xs: seq<Decl>, ys: seq<Decl>)
    ensures NoClash(xs + ys) <==> NoClash(xs) && NoClash(ys) && NoneAcross(xs, ys)
  {
    hide Clash;
    var all := xs + ys;
    if NoClash(all) {
      forall i, j | 0 <= i < j < |ys| ensures !Clash(ys[i], ys[j]) {
        assert !Clash(all[|xs| + i], all[|xs| + j]);
      }
      forall i, j | 0 <= i < j < |xs| ensures !Clash(xs[i], xs[j]) { assert !Clash(all[i], all[j]); }
      forall i, j | 0 <= i < |xs| && 0 <= j < |ys| ensures !Clash(xs[i], ys[j]) {
        assert !Clash(all[i], all[|xs| + j]);
      }
    } else if NoClash(xs) && NoClash(ys) {
      var i, j :| 0 <= i < j < |all| && Clash(all[i], all[j]);
      assert i < |xs| <= j && all[i] in xs && all[j] == ys[j - |xs|];
    }
  }

  lemma AcrossExactlyWhen(xs: seq<Decl>, ys: seq<Decl>)
    ensures NoneAcross(xs, ys) <==> TwoFiles(xs, ys)
  {
    hide Clash;
    hide Alike;
    hide Overlooked;
    forall a, b ensures Clash(a, b) <==> Alike(a, b) && !Overlooked(a, b) { ClashIsAlike(a, b); }
  }

  lemma NothingAcross(ys: seq<Decl>)
    ensures NoneAcross([], ys)
  {}

  lemma AcrossSum(ws: seq<Decl>, xs: seq<Decl>, ys: seq<Decl>)
    ensures NoneAcross(ws + xs, ys) <==> NoneAcross(ws, ys) && NoneAcross(xs, ys)
  {
    hide Clash;
    assert forall a :: a in ws + xs <==> a in ws || a in xs;
  }

  /** What is merged comes from one of the files. */
  lemma {:induction false} AcrossFiles(files: seq<File>, order: seq<nat>, ys: seq<Decl>)
    ensures NoneAcross(DeclsOf(files, order), ys) <==>
      forall p :: 0 <= p < |order| ==> NoneAcross(DeclsIn(files, order[p]), ys)
  {
    hide NoneAcross;
    hide DeclsIn;
    if order == [] {
      NothingAcross(ys);
    } else {
      var front, last := order[..|order|-1], order[|order|-1];
      AcrossFiles(files, front, ys);
      AcrossSum(DeclsOf(files, front), DeclsIn(files, last), ys);
      assert forall p :: 0 <= p < |front| ==> order[p] == front[p];
    }
  }

  /** Merging files in an order meets no clash exactly when no file says the same twice and what two files both say are
      types, the one merged first of a higher rank. */
  lemma {:induction false} NoClashExactlyWhen(files: seq<File>, order: seq<nat>)
    ensures NoClash(DeclsOf(files, order)) <==> Distinct(files, order)
  {
    hide NoClash;
    hide NoneAcross;
    hide OneFile;
    hide TwoFiles;
    hide DeclsIn;
    if order == [] {
      NothingMerged();
    } else {
      var front, last := order[..|order|-1], order[|order|-1];
      NoClashExactlyWhen(files, front);
      NoClashSum(DeclsOf(files, front), DeclsIn(files, last));
      OneFileExactlyWhen(files, last);
      AcrossFiles(files, front, DeclsIn(files, last));
      forall p | 0 <= p < |front|
        ensures NoneAcross(DeclsIn(files, front[p]), DeclsIn(files, last)) <==>
          TwoFiles(DeclsIn(files, front[p]), DeclsIn(files, last))
      { AcrossExactlyWhen(DeclsIn(files, front[p]), DeclsIn(files, last)); }
      DistinctNext(files, front, last);
      assert order == front + [last];
    }
  }

  lemma NothingMerged()
    ensures NoClash([])
  {}

  lemma DistinctNext(files: seq<File>, front: seq<nat>, last: nat)
    ensures Distinct(files, front + [last]) <==>
      Distinct(files, front) && OneFile(DeclsIn(files, last))
      && forall p :: 0 <= p < |front| ==> TwoFiles(DeclsIn(files, front[p]), DeclsIn(files, last))
  {
    hide OneFile;
    hide TwoFiles;
    hide DeclsIn;
    var order := front + [last];
    assert forall p :: 0 <= p < |front| ==> order[p] == front[p];
    assert order[|front|] == last;
  }

  // ----- The whole program -----

  /** No chain of imports from the entry closes. */
  ghost predicate Acyclic(files: seq<File>, entry: nat) {
    forall chain :: IsCycle(ImportGraph(files), chain) ==> !Reach(ImportGraph(files), entry, chain[0])
  }

  /** Nothing to complain of but cycles and clashes. */
  ghost predicate Complete(files: seq<File>, entry: nat) {
    forall x: nat ::
      x < |files| && Reach(ImportGraph(files), entry, x) ==>
        None !in files[x].imports && (x != entry ==> !files[x].topLevel)
  }

  /** Reachable declarations do not clash, in whichever order they are merged. */
  ghost predicate Compatible(files: seq<File>, entry: nat) {
    forall x: nat, y: nat, i: nat, j: nat, a, b ::
      IsDecl(files, entry, x, i, a) && IsDecl(files, entry, y, j, b) && (x, i) != (y, j) ==> !Clash(a, b)
  }

  /** A resolved program: each reachable file once, imports before importers, with the declarations in that order. */
  ghost predicate Resolved(files: seq<File>, entry: nat, order: seq<nat>, merged: seq<Decl>) {
    Done(files, order, merged) && forall x: nat :: x in order <==> x < |files| && Reach(ImportGraph(files), entry, x)
  }

  /** Resolves a program: it succeeds exactly when nothing is missing or out of place, no imports go round in a circle,
      and no declaration clashes with one merged before it. A clash reported is the first. */
  method ResolveProgram(files: seq<File>, entry: nat) returns (err: Option<Error>, order: seq<nat>, merged: seq<Decl>)
    requires Inside(files) && |files| <= MAX_FILES && entry < |files|
    ensures err.None? <==>
      Complete(files, entry) && Acyclic(files, entry) && NoClash(DeclsOf(files, Order(files, entry)))
    ensures err.None? <==> Complete(files, entry) && Acyclic(files, entry) && Distinct(files, Order(files, entry))
    ensures err.None? ==>
      order == Order(files, entry) && merged == DeclsOf(files, order) && Resolved(files, entry, order, merged)
    ensures err.Some? ==> Truthful(files, entry, err.value)
    ensures err.Some? && err.value.Duplicate? ==> Found(files, Order(files, entry), err.value)
    ensures Complete(files, entry) && Compatible(files, entry) ==>
      (err.Some? <==> !Acyclic(files, entry)) && (err.Some? ==> err.value.Circular?)
  {
    var r := new Resolver(files);
    assert Working(files, entry, [], [], []);
    hide Visit;
    hide NoClash;
    hide Distinct;
    NoClashExactlyWhen(files, Order(files, entry));
    err := r.ResolveFile(Some(entry), None, entry);
    order, merged := r.resolved, r.merged;
    if err.Some? {
      OnlyCycles(files, entry, err.value);
      Refused(files, entry, err.value);
    } else {
      AllDone(files, entry, order, merged);
    }
  }

  lemma FoundClashes(all: seq<Decl>, j: nat, e: Error)
    requires e.Duplicate? && FoundAt(all, j, e)
    ensures !NoClash(all)
  {
    hide Clash;
    var i :| 0 <= i < j && all[..j][i] == e.earlier;
    assert Clash(all[i], all[j]);
  }

  /** Whatever is reported, something is wrong with the program. */
  lemma Refused(files: seq<File>, entry: nat, e: Error)
    requires Truthful(files, entry, e) && (e.Duplicate? ==> Found(files, Order(files, entry), e))
    ensures !(Complete(files, entry) && Acyclic(files, entry) && NoClash(DeclsOf(files, Order(files, entry))))
  {
    hide NoClash;
    hide DeclsOf;
    hide Order;
    hide Reach;
    if e.Duplicate? {
      var j: nat :| FoundAt(DeclsOf(files, Order(files, entry)), j, e);
      hide FoundAt;
      FoundClashes(DeclsOf(files, Order(files, entry)), j, e);
    }
  }

  lemma OnlyCycles(files: seq<File>, entry: nat, e: Error)
    requires Truthful(files, entry, e)
    ensures Complete(files, entry) && Compatible(files, entry) ==> e.Circular? && !Acyclic(files, entry)
  {}

  lemma Position(order: seq<nat>, x: nat) returns (i: nat)
    requires x in order
    ensures i < |order| && order[i] == x
  { i :| 0 <= i < |order| && order[i] == x; }

  /** An import of a file that is done comes before it. */
  lemma EdgeBack(files: seq<File>, order: seq<nat>, merged: seq<Decl>, i: nat, v: nat)
    requires Done(files, order, merged) && i < |order| && Edge(ImportGraph(files), order[i], v)
    ensures v in order[..i]
  {
    var x := order[i];
    assert ImportsBefore(files, order, i);
    var k :| 0 <= k < |files[x].imports| && files[x].imports[k] == Some(v);
  }

  /** Along imports the positions go down. */
  lemma {:induction false} PathBack(files: seq<File>, order: seq<nat>, merged: seq<Decl>, p: seq<nat>, i: nat,
      k: nat) returns (j: nat)
    requires Done(files, order, merged) && IsPath(ImportGraph(files), p) && k < |p| && i < |order| && order[i] == p[0]
    ensures j + k <= i && order[j] == p[k]
  {
    j := i;
    if k > 0 {
      var m := PathBack(files, order, merged, p, i, k - 1);
      assert Edge(ImportGraph(files), p[k-1], p[k]);
      EdgeBack(files, order, merged, m, p[k]);
      j := Position(order[..m], p[k]);
    }
  }

  /** Everything reachable is done, with nothing missing. */
  lemma ReachedDone(files: seq<File>, entry: nat, order: seq<nat>, merged: seq<Decl>, x: nat)
    requires Done(files, order, merged) && entry in order && Reach(ImportGraph(files), entry, x)
    ensures x in order && x < |files| && None !in files[x].imports
  {
    hide NoClash;
    hide DeclsOf;
    var g := ImportGraph(files);
    var e := Position(order, entry);
    var p :| Connects(g, p, entry, x);
    var i := PathBack(files, order, merged, p, e, |p| - 1);
    assert ImportsBefore(files, order, i);
  }

  lemma NoCycle(files: seq<File>, order: seq<nat>, merged: seq<Decl>, chain: seq<nat>)
    requires Done(files, order, merged) && IsCycle(ImportGraph(files), chain)
    ensures chain[0] !in order
  {
    hide NoClash;
    hide DeclsOf;
    if chain[0] in order {
      var i := Position(order, chain[0]);
      var j := PathBack(files, order, merged, chain, i, |chain| - 1);
      assert forall k :: 0 <= k < j ==> order[..j][k] != order[i];
      EdgeBack(files, order, merged, j, chain[0]);
    }
  }

  lemma AllDone(files: seq<File>, entry: nat, order: seq<nat>, merged: seq<Decl>)
    requires Working(files, entry, [], order, merged) && entry in order
    ensures Resolved(files, entry, order, merged) && Complete(files, entry) && Acyclic(files, entry)
  {
    ChainOf(files, entry, [], order, merged);
    hide Done;
    hide Chain;
    hide Inside;
    hide Reach;
    hide IsCycle;
    forall x: nat | Reach(ImportGraph(files), entry, x)
      ensures x in order && x < |files| && None !in files[x].imports
    { ReachedDone(files, entry, order, merged, x); }
    forall chain | IsCycle(ImportGraph(files), chain)
      ensures chain != [] && !Reach(ImportGraph(files), entry, chain[0])
    {
      CycleStarts(ImportGraph(files), chain);
      NoCycle(files, order, merged, chain);
    }
  }

  lemma CycleStarts(g: Graph, chain: seq<nat>)
    requires IsCycle(g, chain)
    ensures chain != []
  {}

  // ----- Two files with one type each -----

  /** A file that holds one type. */
  function Holding(imports: seq<Option<nat>>, d: Decl): (file: File)
    requires IsType(d)
    ensures file.imports == imports && !file.topLevel
  {
    match d
    case Class(n) => File(imports, false, [n], [], [], [], [], [])
    case Struct(n) => File(imports, false, [], [n], [], [], [], [])
    case Enum(n) => File(imports, false, [], [], [n], [], [], [])
    case Interface(n) => File(imports, false, [], [], [], [n], [], [])
  }

  lemma HoldingIs(imports: seq<Option<nat>>, d: Decl)
    requires IsType(d)
    ensures Holding(imports, d).Decls() == [d]
  {}

  /** The entry holds one type and imports a file that holds another. */
  function Pair(entry: Decl, imported: Decl): seq<File>
    requires IsType(entry) && IsType(imported)
  { [Holding([Some(1)], entry), Holding([], imported)] }

  /** Such a program resolves exactly when the names differ or the imported type is of a higher rank. */
  lemma PairResolvesExactlyWhen(entry: Decl, imported: Decl)
    requires IsType(entry) && IsType(imported)
    ensures var files := Pair(entry, imported);
      && Inside(files) && Complete(files, 0) && Acyclic(files, 0) && Order(files, 0) == [1, 0]
      && DeclsOf(files, [1, 0]) == [imported, entry]
      && (NoClash(DeclsOf(files, [1, 0])) <==>
        entry.name != imported.name || TypeRank(imported) > TypeRank(entry))
  {
    hide *;
    PairOrder(entry, imported);
    PairDecls(entry, imported);
    PairAcyclic(entry, imported);
    PairClash(entry, imported);
  }

  lemma PairClash(entry: Decl, imported: Decl)
    requires IsType(entry) && IsType(imported)
    ensures NoClash([imported, entry]) <==> entry.name != imported.name || TypeRank(imported) > TypeRank(entry)
  {
    ClashIsAlike(imported, entry);
    hide Clash;
    var ds := [imported, entry];
    assert ds[0] == imported && ds[1] == entry;
  }

  lemma PairDecls(entry: Decl, imported: Decl)
    requires IsType(entry) && IsType(imported)
    ensures DeclsOf(Pair(entry, imported), [1, 0]) == [imported, entry]
  {
    var files := Pair(entry, imported);
    HoldingIs([Some(1)], entry);
    HoldingIs([], imported);
    hide Holding;
    hide File.Decls;
    assert [1, 0][..1] == [1] && [1][..0] == [];
    assert DeclsOf(files, [1]) == DeclsOf(files, []) + [imported];
  }

  lemma PairOrder(entry: Decl, imported: Decl)
    requires IsType(entry) && IsType(imported)
    ensures Order(Pair(entry, imported), 0) == [1, 0]
  {
    var files := Pair(entry, imported);
    VisitIs(files, [], [], 0);
    OneImport(files, [0], [], 1);
    VisitIs(files, [0], [], 1);
    assert VisitAll(files, [0] + [1], [], []) == [];
    hide Visit;
    hide VisitAll;
    assert [] + [0] == [0];
  }

  lemma OneImport(files: seq<File>, stack: seq<nat>, done: seq<nat>, v: nat)
    ensures VisitAll(files, stack, done, [Some(v)]) == Visit(files, stack, done, v)
  { assert [Some(v)][..0] == []; }

  lemma OnPath(g: Graph, p: seq<nat>)
    requires IsPath(g, p) && |p| > 1
    ensures Edge(g, p[0], p[1])
  {}

  lemma PairAcyclic(entry: Decl, imported: Decl)
    requires IsType(entry) && IsType(imported)
    ensures var files := Pair(entry, imported); Inside(files) && Complete(files, 0) && Acyclic(files, 0)
  {
    var files := Pair(entry, imported);
    var g := ImportGraph(files);
    hide Holding;
    hide Reach;
    assert files[0].imports == [Some(1)] && files[1].imports == [];
    assert g[1] == [] && forall v :: v in g[0] ==> v == 1;
    forall chain | IsCycle(g, chain) ensures false {
      assert Edge(g, chain[|chain|-1], chain[0]);
      if |chain| > 1 { OnPath(g, chain); }
    }
  }

  /** A class in the entry file and an interface of the same name in a file it imports: both are merged. The other way
      round the program is refused. */
  lemma SameNameUnnoticed(name: string)
    ensures var files := Pair(Class(name), Interface(name));
      && Complete(files, 0) && Acyclic(files, 0) && NoClash(DeclsOf(files, Order(files, 0)))
      && DeclsOf(files, Order(files, 0)) == [Interface(name), Class(name)]
    ensures var files := Pair(Interface(name), Class(name)); !NoClash(DeclsOf(files, Order(files, 0)))
  {
    hide NoClash;
    hide DeclsOf;
    hide Order;
    hide Complete;
    hide Acyclic;
    PairResolvesExactlyWhen(Class(name), Interface(name));
    PairResolvesExactlyWhen(Interface(name), Class(name));
  }
}
