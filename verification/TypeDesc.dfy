module TypeDescriptors {
  // Type descriptors, their printed form and its parser (src/frontend/ast.c:106-226, src/frontend/parser.c:178-264).

  import opened Options

  datatype Prim = Int | Float | Char | Bool | String | Void

  datatype TypeDesc =
    | Primitive(prim: Prim)
    | ClassType(name: string)
    | EnumType(name: string)
    | NamedType(name: string)
    | ArrayOf(elem: TypeDesc)
    | MapOf(key: TypeDesc, val: TypeDesc)

  datatype Token =
    | Amp | ImplKw | MapKw | LBracket | RBracket | LParen | RParen | SelfKw | Other
    | Type(prim: Prim)
    | Ident(name: string)

  predicate NamedLike(t: TypeDesc) { t.ClassType? || t.EnumType? || t.NamedType? }

  /** `type_desc_equals`: kinds must agree, so a class and a name are different even when they read the same. */
  predicate Equals(a: TypeDesc, b: TypeDesc) {
    match a
    case Primitive(p) => b.Primitive? && b.prim == p
    case ClassType(n) => b.ClassType? && b.name == n
    case EnumType(n) => b.EnumType? && b.name == n
    case NamedType(n) => b.NamedType? && b.name == n
    case ArrayOf(e) => b.ArrayOf? && Equals(e, b.elem)
    case MapOf(k, v) => b.MapOf? && Equals(k, b.key) && Equals(v, b.val)
  }

  /** `type_desc_is_compatible`: any kind of name will do, and so will some primitives for each other. */
  predicate Compatible(expected: TypeDesc, actual: TypeDesc) {
    if expected.Primitive? && actual.Primitive? then
      || expected.prim == actual.prim
      || (expected.prim, actual.prim) in {(Float, Int), (Int, Float), (Char, Int), (Int, Char)}
    else if expected.ArrayOf? && actual.ArrayOf? then Compatible(expected.elem, actual.elem)
    else if expected.MapOf? && actual.MapOf? then
      Compatible(expected.key, actual.key) && Compatible(expected.val, actual.val)
    else NamedLike(expected) && NamedLike(actual) && expected.name == actual.name
  }

  /** `type_desc_clone`: classes and enums come out as plain names. */
  function Clone(t: TypeDesc): TypeDesc {
    match t
    case Primitive(p) => t
    case ArrayOf(e) => ArrayOf(Clone(e))
    case MapOf(k, v) => MapOf(Clone(k), Clone(v))
    case _ => NamedType(t.name)
  }

  /** No class or enum anywhere. */
  predicate OnlyNames(t: TypeDesc) {
    match t
    case ArrayOf(e) => OnlyNames(e)
    case MapOf(k, v) => OnlyNames(k) && OnlyNames(v)
    case _ => !t.ClassType? && !t.EnumType?
  }

  lemma {:induction false} EqualsIsEquality(a: TypeDesc, b: TypeDesc)
    ensures Equals(a, b) <==> a == b
  {
    match a
    case ArrayOf(e) => if b.ArrayOf? { EqualsIsEquality(e, b.elem); }
    case MapOf(k, v) => if b.MapOf? { EqualsIsEquality(k, b.key); EqualsIsEquality(v, b.val); }
    case _ =>
  }

  /** A clone is equal to its original exactly when there is no class or enum in it; it is always compatible. */
  lemma {:induction false} CloneEquals(t: TypeDesc)
    ensures Equals(t, Clone(t)) <==> OnlyNames(t)
    ensures Compatible(t, Clone(t)) && OnlyNames(Clone(t)) && Clone(Clone(t)) == Clone(t)
  {
    match t
    case ArrayOf(e) => CloneEquals(e);
    case MapOf(k, v) => CloneEquals(k); CloneEquals(v);
    case _ =>
  }

  // ----- Printing -----

  function NameToken(name: string): Token { if name == "Self" then SelfKw else Ident(name) }

  /** The printed form, as the lexer splits it. A map inside an array is parenthesised. */
  function Print(t: TypeDesc): (r: seq<Token>)
    ensures r != []
  {
    match t
    case Primitive(p) => [Type(p)]
    case ArrayOf(e) =>
      if e.MapOf? then [LParen] + Print(e) + [RParen, LBracket, RBracket] else Print(e) + [LBracket, RBracket]
    case MapOf(k, v) => [MapKw, LBracket] + Print(k) + [RBracket] + Print(v)
    case _ => [NameToken(t.name)]
  }

  /** What the parser can produce: keys are int or string, and Self only where it is allowed. */
  predicate Shaped(t: TypeDesc, allowSelf: bool) {
    match t
    case Primitive(_) => true
    case ArrayOf(e) => Shaped(e, allowSelf)
    case MapOf(k, v) => k in {Primitive(Int), Primitive(String)} && Shaped(v, allowSelf)
    case _ => t.name == "Self" ==> allowSelf
  }

  // ----- Parsing -----

  datatype Parsed = Ok(desc: TypeDesc, rest: seq<Token>) | Fail

  predicate Starts(tokens: seq<Token>, t: Token) { tokens != [] && tokens[0] == t }

  /** The array brackets after a type. */
  function Brackets(base: TypeDesc, tokens: seq<Token>): (r: Parsed)
    ensures r.Ok? ==> |r.rest| <= |tokens| && !Starts(r.rest, LBracket)
    decreases |tokens|
  {
    if !Starts(tokens, LBracket) then Ok(base, tokens)
    else if !Starts(tokens[1..], RBracket) then Fail
    else Brackets(ArrayOf(base), tokens[2..])
  }

  function AfterImpl(tokens: seq<Token>, allowImpl: bool): (r: Parsed)
    ensures r.Ok? ==> |r.rest| < |tokens|
  { if allowImpl && tokens != [] && tokens[0].Ident? then Ok(NamedType(tokens[0].name), tokens[1..]) else Fail }

  /** A type, `&` and `impl` apart. */
  function ParseType(tokens: seq<Token>, allowSelf: bool, allowImpl: bool): (r: Parsed)
    ensures r.Ok? ==> |r.rest| < |tokens|
    decreases |tokens|
  {
    var rest := if Starts(tokens, Amp) then tokens[1..] else tokens;
    if rest == [] then Fail
    else if rest[0] == ImplKw then AfterImpl(rest[1..], allowImpl)
    else
      var base := ParseBase(rest, allowSelf, allowImpl);
      if base.Fail? then Fail else Brackets(base.desc, base.rest)
  }

  function ParseBase(tokens: seq<Token>, allowSelf: bool, allowImpl: bool): (r: Parsed)
    requires tokens != []
    ensures r.Ok? ==> |r.rest| < |tokens|
    decreases |tokens|, 0
  {
    match tokens[0]
    case MapKw =>
      if |tokens| > 3 && tokens[1] == LBracket && tokens[2] in {Type(Int), Type(String)} && tokens[3] == RBracket then
        var val := ParseType(tokens[4..], allowSelf, false);
        if val.Ok? then Ok(MapOf(Primitive(tokens[2].prim), val.desc), val.rest) else Fail
      else Fail
    case LParen =>
      var inner := ParseType(tokens[1..], allowSelf, allowImpl);
      if inner.Ok? && Starts(inner.rest, RParen) then Ok(inner.desc, inner.rest[1..]) else Fail
    case Type(p) => Ok(Primitive(p), tokens[1..])
    case SelfKw => if allowSelf then Ok(NamedType("Self"), tokens[1..]) else Fail
    case Ident(n) => Ok(NamedType(n), tokens[1..])
    case _ => Fail
  }

  // ----- Printing and parsing -----

  /** A type that starts with neither `&` nor `impl`. */
  lemma FromBase(tokens: seq<Token>, allowSelf: bool, allowImpl: bool)
    requires tokens != [] && tokens[0] != Amp && tokens[0] != ImplKw
    ensures var base := ParseBase(tokens, allowSelf, allowImpl);
      ParseType(tokens, allowSelf, allowImpl) == if base.Fail? then Fail else Brackets(base.desc, base.rest)
  {}

  lemma BaseMap(tokens: seq<Token>, key: Prim, rest: seq<Token>, allowSelf: bool, allowImpl: bool)
    requires key in {Int, String} && tokens == [MapKw, LBracket, Type(key), RBracket] + rest
    ensures var val := ParseType(rest, allowSelf, false);
      ParseBase(tokens, allowSelf, allowImpl) == if val.Ok? then Ok(MapOf(Primitive(key), val.desc), val.rest) else Fail
  { assert tokens[4..] == rest; }

  lemma BaseParen(rest: seq<Token>, allowSelf: bool, allowImpl: bool)
    ensures var inner := ParseType(rest, allowSelf, allowImpl);
      ParseBase([LParen] + rest, allowSelf, allowImpl) == if inner.Ok? && Starts(inner.rest, RParen)
        then Ok(inner.desc, inner.rest[1..])
        else Fail
  { assert ([LParen] + rest)[1..] == rest; }

  lemma BaseWord(t: TypeDesc, rest: seq<Token>, allowSelf: bool, allowImpl: bool)
    requires !t.ArrayOf? && !t.MapOf? && Shaped(t, allowSelf)
    ensures ParseBase(Print(t) + rest, allowSelf, allowImpl) == Ok(Clone(t), rest)
  { assert (Print(t) + rest)[1..] == rest; }

  /** A printed type other than a map reads as the type with whatever brackets follow; a map must not be followed by
      one. */
  lemma {:induction false} ReadsBack(t: TypeDesc, rest: seq<Token>, allowSelf: bool, allowImpl: bool)
    requires Shaped(t, allowSelf) && (t.MapOf? ==> !Starts(rest, LBracket))
    ensures ParseType(Print(t) + rest, allowSelf, allowImpl) == if t.MapOf?
      then Ok(Clone(t), rest)
      else Brackets(Clone(t), rest)
    decreases t
  {
    hide ParseType;
    hide ParseBase;
    hide Brackets;
    hide Print;
    match t
    case ArrayOf(e) =>
      if e.MapOf? {
        ReadsBack(e, [RParen, LBracket, RBracket] + rest, allowSelf, allowImpl);
        ReadsArrayOfMap(e, rest, allowSelf, allowImpl);
      } else {
        ReadsBack(e, [LBracket, RBracket] + rest, allowSelf, allowImpl);
        ReadsArray(e, rest, allowSelf, allowImpl);
      }
    case MapOf(k, v) =>
      ReadsBack(v, rest, allowSelf, false);
      ReadsMap(k, v, rest, allowSelf, allowImpl);
    case _ => ReadsWord(t, rest, allowSelf, allowImpl);
  }

  lemma ReadsWord(t: TypeDesc, rest: seq<Token>, allowSelf: bool, allowImpl: bool)
    requires !t.ArrayOf? && !t.MapOf? && Shaped(t, allowSelf)
    ensures ParseType(Print(t) + rest, allowSelf, allowImpl) == Brackets(Clone(t), rest)
  {
    hide ParseType;
    hide ParseBase;
    hide Brackets;
    BaseWord(t, rest, allowSelf, allowImpl);
    FromBase(Print(t) + rest, allowSelf, allowImpl);
  }

  lemma ReadsArray(e: TypeDesc, rest: seq<Token>, allowSelf: bool, allowImpl: bool)
    requires !e.MapOf?
      && ParseType(Print(e) + ([LBracket, RBracket] + rest), allowSelf, allowImpl) ==
        Brackets(Clone(e), [LBracket, RBracket] + rest)
    ensures ParseType(Print(ArrayOf(e)) + rest, allowSelf, allowImpl) == Brackets(ArrayOf(Clone(e)), rest)
  {
    hide ParseType;
    OneBracket(Clone(e), rest);
    hide Brackets;
    assert Print(ArrayOf(e)) + rest == Print(e) + ([LBracket, RBracket] + rest);
  }

  lemma ReadsArrayOfMap(e: TypeDesc, rest: seq<Token>, allowSelf: bool, allowImpl: bool)
    requires e.MapOf?
      && ParseType(Print(e) + ([RParen, LBracket, RBracket] + rest), allowSelf, allowImpl) ==
        Ok(Clone(e), [RParen, LBracket, RBracket] + rest)
    ensures ParseType(Print(ArrayOf(e)) + rest, allowSelf, allowImpl) == Brackets(ArrayOf(Clone(e)), rest)
  {
    hide ParseType;
    hide ParseBase;
    var after := [RParen, LBracket, RBracket] + rest;
    BaseParen(Print(e) + after, allowSelf, allowImpl);
    OneBracket(Clone(e), rest);
    hide Brackets;
    assert Print(ArrayOf(e)) + rest == [LParen] + (Print(e) + after);
    FromBase([LParen] + (Print(e) + after), allowSelf, allowImpl);
    assert after[1..] == [LBracket, RBracket] + rest;
  }

  lemma ReadsMap(k: TypeDesc, v: TypeDesc, rest: seq<Token>, allowSelf: bool, allowImpl: bool)
    requires k in {Primitive(Int), Primitive(String)} && !Starts(rest, LBracket)
    requires ParseType(Print(v) + rest, allowSelf, false) == if v.MapOf?
      then Ok(Clone(v), rest)
      else Brackets(Clone(v), rest)
    ensures ParseType(Print(MapOf(k, v)) + rest, allowSelf, allowImpl) == Ok(MapOf(k, Clone(v)), rest)
  {
    hide ParseType;
    hide ParseBase;
    var tokens := Print(MapOf(k, v)) + rest;
    assert Print(k) == [Type(k.prim)];
    assert tokens == [MapKw, LBracket, Type(k.prim), RBracket] + (Print(v) + rest);
    BaseMap(tokens, k.prim, Print(v) + rest, allowSelf, allowImpl);
    FromBase(tokens, allowSelf, allowImpl);
  }

  lemma OneBracket(base: TypeDesc, rest: seq<Token>)
    ensures Brackets(base, [LBracket, RBracket] + rest) == Brackets(ArrayOf(base), rest)
  {
    var tokens := [LBracket, RBracket] + rest;
    assert tokens[1..][0] == RBracket && tokens[2..] == rest;
  }

  /** Parsing the printed form of a type gives it back, classes and enums as plain names, and stops right after it. */
  lemma RoundTrip(t: TypeDesc, rest: seq<Token>, allowSelf: bool, allowImpl: bool)
    requires Shaped(t, allowSelf) && !Starts(rest, LBracket)
    ensures ParseType(Print(t) + rest, allowSelf, allowImpl) == Ok(Clone(t), rest)
    ensures Equals(t, Clone(t)) <==> OnlyNames(t)
  {
    ReadsBack(t, rest, allowSelf, allowImpl);
    CloneEquals(t);
  }

  /** No two different types print the same. */
  lemma PrintIsInjective(a: TypeDesc, b: TypeDesc)
    requires Shaped(a, true) && Shaped(b, true) && Print(a) == Print(b)
    ensures Clone(a) == Clone(b)
    ensures OnlyNames(a) && OnlyNames(b) ==> a == b
  {
    RoundTrip(a, [], true, false);
    RoundTrip(b, [], true, false);
    assert Print(a) + [] == Print(b) + [];
    EqualsIsEquality(a, Clone(a));
    EqualsIsEquality(b, Clone(b));
  }

  /** A printer that never writes parentheses. */
  function PrintBare(t: TypeDesc): seq<Token> {
    match t
    case ArrayOf(e) => PrintBare(e) + [LBracket, RBracket]
    case MapOf(k, v) => [MapKw, LBracket] + PrintBare(k) + [RBracket] + PrintBare(v)
    case _ => Print(t)
  }

  /** Without the parentheses an array of maps and a map to arrays are printed alike; with them they are not. */
  lemma ParenthesesMatter(k: TypeDesc, v: TypeDesc)
    ensures PrintBare(ArrayOf(MapOf(k, v))) == PrintBare(MapOf(k, ArrayOf(v)))
    ensures Print(ArrayOf(MapOf(k, v))) != Print(MapOf(k, ArrayOf(v)))
  {
    var key, value, brackets := [MapKw, LBracket] + PrintBare(k) + [RBracket], PrintBare(v), [LBracket, RBracket];
    assert key + value + brackets == key + (value + brackets);
    assert Print(ArrayOf(MapOf(k, v)))[0] == LParen;
    assert Print(MapOf(k, ArrayOf(v)))[0] == MapKw;
  }

  /** The lexer has a token of its own for Self. */
  predicate Lexed(tokens: seq<Token>) { forall i :: 0 <= i < |tokens| ==> tokens[i] != Ident("Self") }

  ghost predicate Good(r: Parsed, allowSelf: bool) {
    r.Ok? ==> Shaped(r.desc, allowSelf) && OnlyNames(r.desc) && Lexed(r.rest)
  }

  /** Everything the parser accepts has the shape it can print and read again. */
  lemma {:induction false} ParsedIsShaped(tokens: seq<Token>, allowSelf: bool, allowImpl: bool)
    requires Lexed(tokens)
    ensures Good(ParseType(tokens, allowSelf, allowImpl), allowSelf)
    decreases |tokens|, 1
  {
    hide ParseBase;
    hide Brackets;
    var rest := if Starts(tokens, Amp) then tokens[1..] else tokens;
    if rest != [] && rest[0] != ImplKw {
      BaseIsShaped(rest, allowSelf, allowImpl);
      var base := ParseBase(rest, allowSelf, allowImpl);
      if base.Ok? { BracketsShaped(base.desc, base.rest, allowSelf); }
    }
  }

  lemma {:induction false} BaseIsShaped(tokens: seq<Token>, allowSelf: bool, allowImpl: bool)
    requires tokens != [] && Lexed(tokens)
    ensures Good(ParseBase(tokens, allowSelf, allowImpl), allowSelf)
    decreases |tokens|, 0
  {
    hide ParseType;
    match tokens[0]
    case MapKw =>
      if |tokens| > 3 && tokens[2] in {Type(Int), Type(String)} {
        ParsedIsShaped(tokens[4..], allowSelf, false);
        var val := ParseType(tokens[4..], allowSelf, false);
        assert val.Ok? ==>
          Shaped(MapOf(Primitive(tokens[2].prim), val.desc), allowSelf)
            && OnlyNames(MapOf(Primitive(tokens[2].prim), val.desc));
      }
    case LParen => ParsedIsShaped(tokens[1..], allowSelf, allowImpl);
    case _ =>
  }

  lemma {:induction false} BracketsShaped(base: TypeDesc, tokens: seq<Token>, allowSelf: bool)
    requires Shaped(base, allowSelf) && OnlyNames(base) && Lexed(tokens)
    ensures Good(Brackets(base, tokens), allowSelf)
    decreases |tokens|
  {
    if Starts(tokens, LBracket) && Starts(tokens[1..], RBracket) {
      BracketsShaped(ArrayOf(base), tokens[2..], allowSelf);
    }
  }

  /** Printing what was parsed and parsing it again changes nothing. */
  lemma ParsePrintParse(tokens: seq<Token>, rest: seq<Token>, allowSelf: bool, allowImpl: bool)
    requires Lexed(tokens) && !Starts(rest, LBracket)
    ensures var r := ParseType(tokens, allowSelf, allowImpl);
      r.Ok? ==> ParseType(Print(r.desc) + rest, allowSelf, allowImpl) == Ok(r.desc, rest)
  {
    ParsedIsShaped(tokens, allowSelf, allowImpl);
    var r := ParseType(tokens, allowSelf, allowImpl);
    if r.Ok? {
      RoundTrip(r.desc, rest, allowSelf, allowImpl);
      EqualsIsEquality(r.desc, Clone(r.desc));
    }
  }

  // ----- The parser's cursor -----

  lemma TypeIs(tokens: seq<Token>, rest: seq<Token>, allowSelf: bool, allowImpl: bool)
    requires rest == if Starts(tokens, Amp) then tokens[1..] else tokens
    ensures ParseType(tokens, allowSelf, allowImpl) ==
      if rest == [] then Fail
      else if rest[0] == ImplKw then AfterImpl(rest[1..], allowImpl)
      else
        var base := ParseBase(rest, allowSelf, allowImpl);
        if base.Fail? then Fail else Brackets(base.desc, base.rest)
  {
    hide ParseBase;
    hide Brackets;
    hide AfterImpl;
  }

  class Parser {
    const tokens: seq<Token>
    var current: nat

    constructor (tokens: seq<Token>)
      ensures this.tokens == tokens && current == 0
    { this.tokens, current := tokens, 0; }

    ghost predicate Valid()
      reads this
    { current <= |tokens| }

    function Left(): seq<Token>
      requires Valid()
      reads this
    { tokens[current..] }

    method Match(t: Token) returns (yes: bool)
      requires Valid()
      modifies this
      ensures Valid() && yes == Starts(old(Left()), t) && Left() == if yes then old(Left())[1..] else old(Left())
    {
      yes := current < |tokens| && tokens[current] == t;
      if yes { current := current + 1; }
    }

    /** The descriptor at the cursor, which moves past it; None for what ends the compilation with an error. */
    method ParseTypeDesc(allowSelf: bool, allowImpl: bool) returns (desc: Option<TypeDesc>, borrowed: bool,
        implTrait: bool)
      requires Valid()
      modifies this
      ensures Valid() && borrowed == Starts(old(Left()), Amp)
      ensures Gives(desc, ParseType(old(Left()), allowSelf, allowImpl))
      ensures implTrait == Starts(if borrowed then old(Left())[1..] else old(Left()), ImplKw)
      decreases |Left()|, 1
    {
      hide ParseType;
      hide ParseBase;
      hide Brackets;
      ghost var all := Left();
      borrowed := Match(Amp);
      TypeIs(all, Left(), allowSelf, allowImpl);
      implTrait := Match(ImplKw);
      if implTrait {
        desc := ParseImpl(allowImpl);
      } else {
        desc := ParseBaseDesc(allowSelf, allowImpl);
        if desc.Some? { desc := ParseBrackets(desc.value); }
      }
    }

    /** The name after `impl`. */
    method ParseImpl(allowImpl: bool) returns (desc: Option<TypeDesc>)
      requires Valid()
      modifies this
      ensures Valid() && Gives(desc, AfterImpl(old(Left()), allowImpl))
    {
      if allowImpl && current < |tokens| && tokens[current].Ident? {
        current := current + 1;
        return Some(NamedType(tokens[current-1].name));
      }
      return None;
    }

    ghost predicate Gives(desc: Option<TypeDesc>, r: Parsed)
      requires Valid()
      reads this
    { if r.Ok? then desc == Some(r.desc) && Left() == r.rest else desc == None }

    method ParseBrackets(start: TypeDesc) returns (desc: Option<TypeDesc>)
      requires Valid()
      modifies this
      ensures Valid() && Gives(desc, Brackets(start, old(Left())))
    {
      hide Brackets;
      var base := start;
      ghost var all := Left();
      var more := Match(LBracket);
      assert all == if more then [LBracket] + Left() else Left();
      while more
        invariant Valid() && Brackets(base, if more then [LBracket] + Left() else Left()) == Brackets(start, all)
        invariant !more ==> !Starts(Left(), LBracket)
        decreases |Left()|, more
      {
        Opened(base, Left());
        var closed := Match(RBracket);
        if !closed { return None; }
        base := ArrayOf(base);
        ghost var after := Left();
        more := Match(LBracket);
        assert after == if more then [LBracket] + Left() else Left();
      }
      Opened(base, Left());
      return Some(base);
    }

    /** After an opening bracket, and where there is none. */
    lemma Opened(base: TypeDesc, rest: seq<Token>)
      ensures Brackets(base, [LBracket] + rest) == if Starts(rest, RBracket)
        then Brackets(ArrayOf(base), rest[1..])
        else Fail
      ensures !Starts(rest, LBracket) ==> Brackets(base, rest) == Ok(base, rest)
    {
      assert ([LBracket] + rest)[1..] == rest;
      if rest != [] { assert ([LBracket] + rest)[2..] == rest[1..]; }
    }

    method ParseBaseDesc(allowSelf: bool, allowImpl: bool) returns (desc: Option<TypeDesc>)
      requires Valid()
      modifies this
      ensures Valid()
      ensures if old(Left()) == [] then desc == None else Gives(desc, ParseBase(old(Left()), allowSelf, allowImpl))
      decreases |Left()|, 0
    {
      hide ParseType;
      if current == |tokens| { return None; }
      ghost var left := Left();
      assert left[0] == tokens[current];
      match tokens[current]
      case MapKw =>
        if current + 3 < |tokens| && tokens[current+1] == LBracket && tokens[current+2] in {Type(Int), Type(String)}
          && tokens[current+3] == RBracket {
          var key := tokens[current+2].prim;
          current := current + 4;
          assert Left() == left[4..];
          var val, _, _ := ParseTypeDesc(allowSelf, false);
          if val.Some? { return Some(MapOf(Primitive(key), val.value)); }
        }
        return None;
      case LParen =>
        current := current + 1;
        assert Left() == left[1..];
        var inner, _, _ := ParseTypeDesc(allowSelf, allowImpl);
        if inner.None? { return None; }
        var closed := Match(RParen);
        return if closed then inner else None;
      case Type(p) =>
        current := current + 1;
        assert Left() == left[1..];
        return Some(Primitive(p));
      case SelfKw =>
        current := current + 1;
        assert Left() == left[1..];
        return if allowSelf then Some(NamedType("Self")) else None;
      case Ident(n) =>
        current := current + 1;
        assert Left() == left[1..];
        return Some(NamedType(n));
      case _ => return None;
    }
  }
}
