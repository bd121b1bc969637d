/** The licence expression reader, against the ways to satisfy an expression. */
module Licence {
  import opened Wrappers

  // ----- tokens

  /** The characters that `\s` of a Python string pattern matches. */
  predicate Space(c: char) {
    var v := c as int;
    || 9 <= v <= 13 || 28 <= v <= 32 || v == 0x85 || v == 0xA0 || v == 0x1680 || 0x2000 <= v <= 0x200A
    || v == 0x2028 || v == 0x2029 || v == 0x202F || v == 0x205F || v == 0x3000
  }

  predicate Mark(c: char) {
    c == '(' || c == ')' || c == '/'
  }

  predicate Letter(c: char) {
    !Space(c) && !Mark(c)
  }

  /** The length of the run of letters at the start of a text. */
  function WordLength(s: string): (n: nat)
    ensures n <= |s|
  {
    if s == "" || !Letter(s[0]) then 0 else 1 + WordLength(s[1..])
  }

  /** Each bracket, each slash and each longest run of letters. */
  function Tokens(s: string): seq<string> {
    if s == "" then []
    else if Space(s[0]) then Tokens(s[1..])
    else if Mark(s[0]) then [s[..1]] + Tokens(s[1..])
    else [s[..WordLength(s)]] + Tokens(s[WordLength(s)..])
  }

  // ----- the parser

  /** Whether the part read is permissive, and the position after it. */
  datatype Parsed = Parsed(permissive: bool, next: nat)

  function Peek(t: seq<string>, i: nat): Option<string> {
    if i < |t| then Some(t[i]) else None
  }

  predicate OrNext(t: seq<string>, i: nat) {
    Peek(t, i) == Some("OR") || Peek(t, i) == Some("/")
  }

  /** Whether a name is of the GPL family: it holds the letters GPL. */
  predicate Gpl(name: string) {
    |name| >= 3 && (name[..3] == "GPL" || Gpl(name[1..]))
  }

  function Left(t: seq<string>, i: nat): nat {
    if i < |t| then |t| - i else 0
  }

  function Either(t: seq<string>, i: nat): (r: Parsed)
    ensures r.next > i
    decreases Left(t, i), 3, 0
  {
    EitherFrom(t, Both(t, i))
  }

  /** The loop over the alternatives after the first. */
  function EitherFrom(t: seq<string>, p: Parsed): (r: Parsed)
    ensures r.next >= p.next
    decreases Left(t, p.next), 2, 0
  {
    if OrNext(t, p.next) then
      EitherFrom(t, OrElse(p.permissive, Both(t, p.next + 1)))
    else p
  }

  function OrElse(a: bool, p: Parsed): Parsed {
    Parsed(p.permissive || a, p.next)
  }

  function Both(t: seq<string>, i: nat): (r: Parsed)
    ensures r.next > i
    decreases Left(t, i), 2, 0
  {
    BothFrom(t, One(t, i))
  }

  function BothFrom(t: seq<string>, p: Parsed): (r: Parsed)
    ensures r.next >= p.next
    decreases Left(t, p.next), 1, 0
  {
    if Peek(t, p.next) == Some("AND") then
      BothFrom(t, AndThen(p.permissive, One(t, p.next + 1)))
    else p
  }

  function AndThen(a: bool, p: Parsed): Parsed {
    Parsed(p.permissive && a, p.next)
  }

  function One(t: seq<string>, i: nat): (r: Parsed)
    ensures r.next > i
    decreases Left(t, i), 1, 0
  {
    if Peek(t, i) == Some("(") then
      var p := Either(t, i + 1);
      Parsed(p.permissive, p.next + 1)
    else
      Parsed(i < |t| && !Gpl(t[i]), if Peek(t, i + 1) == Some("WITH") then i + 3 else i + 1)
  }

  function Copyleft(expression: Option<string>): bool {
    match expression
    case None => true
    case Some(s) => if s == "" then true else !Either(Tokens(s), 0).permissive
  }

  /** The nested parser functions of the source and the position that they share. */
  class Parser {
    const tokens: seq<string>
    var position: nat

    constructor (tokens: seq<string>)
      ensures this.tokens == tokens && position == 0
    {
      this.tokens := tokens;
      position := 0;
    }

    /** The next token; the position moves even past the end. */
    method Take() returns (token: Option<string>)
      modifies this`position
      ensures position == old(position) + 1 && token == Peek(tokens, old(position))
    {
      position := position + 1;
      token := if position <= |tokens| then Some(tokens[position - 1]) else None;
    }

    method ParseEither() returns (permissive: bool)
      modifies this`position
      ensures Parsed(permissive, position) == Either(tokens, old(position))
      decreases Left(tokens, position), 3
    {
      permissive := ParseBoth();
      while OrNext(tokens, position)
        invariant position > old(position)
        invariant EitherFrom(tokens, Parsed(permissive, position)) == Either(tokens, old(position))
        decreases Left(tokens, position)
      {
        var _ := Take();
        var more := ParseBoth();
        permissive := more || permissive;
      }
    }

    method ParseBoth() returns (permissive: bool)
      modifies this`position
      ensures Parsed(permissive, position) == Both(tokens, old(position))
      decreases Left(tokens, position), 2
    {
      permissive := ParseOne();
      while Peek(tokens, position) == Some("AND")
        invariant position > old(position)
        invariant BothFrom(tokens, Parsed(permissive, position)) == Both(tokens, old(position))
        decreases Left(tokens, position)
      {
        var _ := Take();
        var more := ParseOne();
        permissive := more && permissive;
      }
    }

    method ParseOne() returns (permissive: bool)
      modifies this`position
      ensures Parsed(permissive, position) == One(tokens, old(position))
      decreases Left(tokens, position), 1
    {
      var token := Take();
      if token == Some("(") {
        permissive := ParseEither();
        var _ := Take();
        return;
      }
      if Peek(tokens, position) == Some("WITH") {
        var _ := Take();
        var _ := Take();
      }
      permissive := token.Some? && !Gpl(token.value);
    }
  }

  method IsCopyleft(expression: Option<string>) returns (r: bool)
    ensures r == Copyleft(expression)
  {
    if expression.None? || expression.value == "" { return true; }
    var parser := new Parser(Tokens(expression.value));
    var permissive := parser.ParseEither();
    return !permissive;
  }

  // ----- expressions

  datatype Expr =
    | Name(name: string)
    | With(name: string, exception: string)
    | Brackets(inner: Expr)
    | And(left: Expr, right: Expr)
    | Or(left: Expr, right: Expr, slash: bool)

  predicate Word(s: string) {
    s != "" && forall c | c in s :: Letter(c)
  }

  predicate LicenceName(s: string) {
    Word(s) && s !in ["OR", "AND", "WITH"]
  }

  predicate WellFormed(e: Expr) {
    match e
    case Name(n) => LicenceName(n)
    case With(n, x) => LicenceName(n) && Word(x)
    case Brackets(inner) => WellFormed(inner)
    case And(l, r) => WellFormed(l) && WellFormed(r)
    case Or(l, r, _) => WellFormed(l) && WellFormed(r)
  }

  /** The tokens of an expression: AND binds tighter than OR, so an OR inside an AND takes brackets. */
  function Spelled(e: Expr): seq<string>
    decreases e, 0
  {
    match e
    case Name(n) => [n]
    case With(n, x) => [n, "WITH", x]
    case Brackets(inner) => ["("] + Spelled(inner) + [")"]
    case And(l, r) => Factor(l) + ["AND"] + Factor(r)
    case Or(l, r, slash) => Spelled(l) + [if slash then "/" else "OR"] + Spelled(r)
  }

  function Factor(e: Expr): seq<string>
    decreases e, 1
  {
    if e.Or? then ["("] + Spelled(e) + [")"] else Spelled(e)
  }

  /** The sets of licence names that satisfy an expression. */
  ghost function Ways(e: Expr): iset<iset<string>> {
    match e
    case Name(n) => iset{iset{n}}
    case With(n, _) => iset{iset{n}}
    case Brackets(inner) => Ways(inner)
    case And(l, r) => iset a, b | a in Ways(l) && b in Ways(r) :: a + b
    case Or(l, r, _) => Ways(l) + Ways(r)
  }

  /** Every way to satisfy the expression takes a GPL family licence. */
  ghost predicate TakesGpl(e: Expr) {
    forall w | w in Ways(e) :: exists n | n in w :: Gpl(n)
  }

  predicate Permissive(e: Expr) {
    match e
    case Name(n) => !Gpl(n)
    case With(n, _) => !Gpl(n)
    case Brackets(inner) => Permissive(inner)
    case And(l, r) => Permissive(l) && Permissive(r)
    case Or(l, r, _) => Permissive(l) || Permissive(r)
  }

  ghost predicate Free(w: iset<string>) {
    forall n | n in w :: !Gpl(n)
  }

  lemma {:induction false} PermissiveIffWay(e: Expr)
    ensures Permissive(e) <==> exists w | w in Ways(e) :: Free(w)
  {
    hide Gpl;
    match e
    case Name(n) => OneWay(n);
    case With(n, x) => OneWay(n);
    case Brackets(inner) => PermissiveIffWay(inner);
    case Or(l, r, _) =>
      PermissiveIffWay(l);
      PermissiveIffWay(r);
    case And(l, r) =>
      PermissiveIffWay(l);
      PermissiveIffWay(r);
      BothWays(l, r);
  }

  lemma OneWay(n: string)
    ensures !Gpl(n) <==> exists w | w in iset{iset{n}} :: Free(w)
  {
    hide Gpl;
    var own := iset{n};
    assert own in iset{own} && n in own;
    assert Free(own) <==> !Gpl(n);
  }

  lemma BothWays(l: Expr, r: Expr)
    ensures (exists w | w in Ways(And(l, r)) :: Free(w)) <==>
            (exists a | a in Ways(l) :: Free(a)) && (exists b | b in Ways(r) :: Free(b))
  {
    hide Free;
    if exists w | w in Ways(And(l, r)) :: Free(w) {
      var w :| w in Ways(And(l, r)) && Free(w);
      var a, b :| a in Ways(l) && b in Ways(r) && w == a + b;
      FreeUnion(a, b);
    }
    if (exists a | a in Ways(l) :: Free(a)) && (exists b | b in Ways(r) :: Free(b)) {
      var a :| a in Ways(l) && Free(a);
      var b :| b in Ways(r) && Free(b);
      FreeUnion(a, b);
      assert a + b in Ways(And(l, r));
    }
  }

  lemma FreeUnion(a: iset<string>, b: iset<string>)
    ensures Free(a + b) <==> Free(a) && Free(b)
  {
    hide Gpl;
    if Free(a + b) { assert forall n | n in a || n in b :: n in a + b; }
  }

  // ----- the parser reads what is spelled

  predicate At(t: seq<string>, i: nat, part: seq<string>) {
    i + |part| <= |t| && t[i..i + |part|] == part
  }

  lemma AtThree(t: seq<string>, i: nat, a: seq<string>, x: string, b: seq<string>)
    requires At(t, i, a + [x] + b)
    ensures At(t, i, a) && Peek(t, i + |a|) == Some(x) && At(t, i + |a| + 1, b)
  {
    var all := a + [x] + b;
    assert t[i..i + |a|] == t[i..i + |all|][..|a|];
    assert all[..|a|] == a && all[|a|] == x && all[|a| + 1..] == b;
    assert t[i + |a|] == t[i..i + |all|][|a|];
    assert t[i + |a| + 1..i + |a| + 1 + |b|] == t[i..i + |all|][|a| + 1..];
  }

  lemma AtGroup(t: seq<string>, i: nat, a: seq<string>)
    requires At(t, i, ["("] + a + [")"])
    ensures Peek(t, i) == Some("(") && At(t, i + 1, a) && Peek(t, i + 1 + |a|) == Some(")")
  {
    assert ["("] + a + [")"] == [] + ["("] + (a + [")"]);
    AtThree(t, i, [], "(", a + [")"]);
    assert a + [")"] == a + [")"] + [];
    AtThree(t, i + 1, a, ")", []);
  }

  /** An expression in brackets. */
  lemma {:induction false} ReadsGroup(e: Expr, t: seq<string>, i: nat)
    requires WellFormed(e) && At(t, i, ["("] + Spelled(e) + [")"])
    ensures One(t, i) == Parsed(Permissive(e), i + |Spelled(e)| + 2)
    decreases e, 2
  {
    AtGroup(t, i, Spelled(e));
    ReadsTerms(e, t, i + 1, false);
    hide At, Spelled, Permissive, WellFormed, Both;
  }

  /** The terms of an expression join the alternatives before them. */
  lemma {:induction false} ReadsTerms(e: Expr, t: seq<string>, i: nat, a: bool)
    requires WellFormed(e) && At(t, i, Spelled(e))
    requires Peek(t, i + |Spelled(e)|) != Some("AND") && Peek(t, i + |Spelled(e)|) != Some("WITH")
    ensures EitherFrom(t, OrElse(a, Both(t, i))) == EitherFrom(t, Parsed(Permissive(e) || a, i + |Spelled(e)|))
    decreases e, if e.Or? then 0 else 1
  {
    hide At, Both, EitherFrom, Spelled, WellFormed, Permissive, Peek;
    if e.Or? {
      ReadsOr(e, t, i);
      var l, sofar := i + |Spelled(e.left)|, Permissive(e.left) || a;
      ReadsTerms(e.left, t, i, a);
      NextTerm(t, Parsed(sofar, l));
      ReadsTerms(e.right, t, l + 1, sofar);
    } else {
      FactorIsSpelled(e);
      ReadsFactors(e, t, i, true);
      BothReads(e, t, i);
    }
  }

  lemma ReadsOr(e: Expr, t: seq<string>, i: nat)
    requires e.Or? && WellFormed(e) && At(t, i, Spelled(e))
    ensures var l := i + |Spelled(e.left)|;
      && At(t, i, Spelled(e.left)) && OrNext(t, l) && At(t, l + 1, Spelled(e.right))
      && i + |Spelled(e)| == l + 1 + |Spelled(e.right)|
      && Peek(t, l) != Some("AND") && Peek(t, l) != Some("WITH")
    ensures WellFormed(e.left) && WellFormed(e.right)
    ensures Permissive(e) <==> Permissive(e.left) || Permissive(e.right)
  {
    hide At;
    AtThree(t, i, Spelled(e.left), if e.slash then "/" else "OR", Spelled(e.right));
  }

  lemma NextTerm(t: seq<string>, p: Parsed)
    requires OrNext(t, p.next)
    ensures EitherFrom(t, p) == EitherFrom(t, OrElse(p.permissive, Both(t, p.next + 1)))
  {
  }

  lemma BothReads(e: Expr, t: seq<string>, i: nat)
    requires BothFrom(t, AndThen(true, One(t, i))) == BothFrom(t, Parsed(Permissive(e) && true, i + |Spelled(e)|))
    requires Peek(t, i + |Spelled(e)|) != Some("AND")
    ensures Both(t, i) == Parsed(Permissive(e), i + |Spelled(e)|)
  {
    hide One, Permissive, Spelled;
    assert AndThen(true, One(t, i)) == One(t, i);
  }

  /** The factors of an expression join the factors before them. */
  lemma {:induction false} ReadsFactors(e: Expr, t: seq<string>, i: nat, a: bool)
    requires WellFormed(e) && At(t, i, Factor(e)) && Peek(t, i + |Factor(e)|) != Some("WITH")
    ensures BothFrom(t, AndThen(a, One(t, i))) == BothFrom(t, Parsed(Permissive(e) && a, i + |Factor(e)|))
    decreases e, if e.Or? then 3 else 0
  {
    hide At, BothFrom, One, Spelled, Factor, WellFormed, Permissive, Peek, Gpl;
    match e
    case Name(n) => FactorIsSpelled(e); ReadsName(e, t, i);
    case With(n, x) => FactorIsSpelled(e); ReadsName(e, t, i);
    case Brackets(inner) => BracketsParts(e); ReadsGroup(inner, t, i);
    case Or(_, _, _) => OrFactor(e); ReadsGroup(e, t, i);
    case And(l, r) =>
      ReadsAnd(e, t, i);
      var next, sofar := i + |Factor(l)|, Permissive(l) && a;
      ReadsFactors(l, t, i, a);
      NextFactor(t, Parsed(sofar, next));
      ReadsFactors(r, t, next + 1, sofar);
  }

  lemma FactorIsSpelled(e: Expr)
    requires !e.Or?
    ensures Factor(e) == Spelled(e)
  {
    hide Spelled;
  }

  lemma OrFactor(e: Expr)
    requires e.Or?
    ensures Factor(e) == ["("] + Spelled(e) + [")"] && |Factor(e)| == |Spelled(e)| + 2
  {
    hide Spelled;
  }

  lemma BracketsParts(e: Expr)
    requires e.Brackets? && WellFormed(e)
    ensures Factor(e) == ["("] + Spelled(e.inner) + [")"] && |Factor(e)| == |Spelled(e.inner)| + 2
    ensures WellFormed(e.inner) && (Permissive(e) <==> Permissive(e.inner))
  {
  }

  lemma ReadsAnd(e: Expr, t: seq<string>, i: nat)
    requires e.And? && WellFormed(e) && At(t, i, Factor(e))
    ensures var l := i + |Factor(e.left)|;
      && At(t, i, Factor(e.left)) && Peek(t, l) == Some("AND") && At(t, l + 1, Factor(e.right))
      && i + |Factor(e)| == l + 1 + |Factor(e.right)|
    ensures WellFormed(e.left) && WellFormed(e.right)
    ensures Permissive(e) <==> Permissive(e.left) && Permissive(e.right)
  {
    hide At;
    AtThree(t, i, Factor(e.left), "AND", Factor(e.right));
  }

  lemma NextFactor(t: seq<string>, p: Parsed)
    requires Peek(t, p.next) == Some("AND")
    ensures BothFrom(t, p) == BothFrom(t, AndThen(p.permissive, One(t, p.next + 1)))
  {
  }

  lemma ReadsName(e: Expr, t: seq<string>, i: nat)
    requires (e.Name? || e.With?) && WellFormed(e) && At(t, i, Spelled(e)) && Peek(t, i + |Spelled(e)|) != Some("WITH")
    ensures One(t, i) == Parsed(Permissive(e), i + |Spelled(e)|)
  {
    hide Gpl;
    assert t[i] == t[i..i + |Spelled(e)|][0] == e.name;
    assert Letter(e.name[0]);
    if e.With? { assert t[i + 1] == t[i..i + |Spelled(e)|][1] == "WITH"; }
  }

  /** After an expression that no OR, AND or WITH follows, nothing is read. */
  lemma ReadsWhole(e: Expr, t: seq<string>)
    requires WellFormed(e) && At(t, 0, Spelled(e))
    requires Peek(t, |Spelled(e)|) != Some("AND") && Peek(t, |Spelled(e)|) != Some("WITH") && !OrNext(t, |Spelled(e)|)
    ensures Either(t, 0) == Parsed(Permissive(e), |Spelled(e)|)
  {
    ReadsTerms(e, t, 0, false);
    assert OrElse(false, Both(t, 0)) == Both(t, 0);
    hide Both, Spelled, Permissive, At, WellFormed;
  }

  /** For every expression and every text of it, the reader answers whether each way to satisfy the
      expression takes a GPL family licence. */
  lemma CopyleftIsTakesGpl(e: Expr, s: string)
    requires WellFormed(e) && Tokens(s) == Spelled(e)
    ensures Copyleft(Some(s)) <==> TakesGpl(e)
  {
    hide Spelled, Permissive, Either, WellFormed, Ways, TakesGpl, Tokens, At;
    SpelledAll(e);
    ReadsWhole(e, Tokens(s));
    PermissiveIffWay(e);
    NoFreeWay(e);
    assert Tokens("") == [] by { EmptyText(); }
  }

  lemma EmptyText()
    ensures Tokens("") == []
  {
  }

  lemma NoFreeWay(e: Expr)
    ensures TakesGpl(e) <==> !exists w | w in Ways(e) :: Free(w)
  {
    hide Ways, Gpl;
    forall w | w in Ways(e)
      ensures Free(w) <==> !exists n | n in w :: Gpl(n)
    {
    }
  }

  lemma SpelledAll(e: Expr)
    ensures Spelled(e) != [] && At(Spelled(e), 0, Spelled(e))
  {
    assert Spelled(e)[0..|Spelled(e)|] == Spelled(e);
  }

  // ----- texts

  /** A text of an expression with a space between tokens. */
  function Text(tokens: seq<string>): string {
    if tokens == [] then "" else tokens[0] + " " + Text(tokens[1..])
  }

  predicate Token(s: string) {
    Word(s) || s in ["(", ")", "/"]
  }

  ghost predicate AllTokens(tokens: seq<string>) {
    forall x | x in tokens :: Token(x)
  }

  lemma {:induction false} WordEnds(w: string, rest: string)
    requires forall c | c in w :: Letter(c)
    ensures WordLength(w + " " + rest) == |w|
  {
    if w == "" {
      assert (w + " " + rest)[0] == ' ';
    } else {
      assert Letter(w[0]) && (w + " " + rest)[1..] == w[1..] + " " + rest;
      WordEnds(w[1..], rest);
    }
  }

  lemma TokenEnds(x: string, rest: string)
    requires Token(x)
    ensures Tokens(x + " " + rest) == [x] + Tokens(rest)
  {
    var s, after := x + " " + rest, " " + rest;
    assert after[0] == ' ' && after[1..] == rest;
    assert Tokens(after) == Tokens(rest);
    assert x != "" && s[0] == x[0] && s[|x|..] == after && s[..|x|] == x;
    if Word(x) {
      assert Letter(x[0]);
      WordEnds(x, rest);
    }
  }

  lemma {:induction false} TextTokens(tokens: seq<string>)
    requires AllTokens(tokens)
    ensures Tokens(Text(tokens)) == tokens
  {
    if tokens != [] {
      TextTokens(tokens[1..]);
      TokenEnds(tokens[0], Text(tokens[1..]));
      hide Tokens, Token;
      assert [tokens[0]] + tokens[1..] == tokens;
    }
  }

  lemma {:induction false} SpelledTokens(e: Expr)
    requires WellFormed(e)
    ensures AllTokens(Spelled(e)) && AllTokens(Factor(e))
    decreases e
  {
    KeywordsAreTokens();
    match e
    case Name(n) =>
    case With(n, x) =>
    case Brackets(inner) => SpelledTokens(inner);
    case And(l, r) => SpelledTokens(l); SpelledTokens(r);
    case Or(l, r, _) => SpelledTokens(l); SpelledTokens(r);
  }

  lemma KeywordsAreTokens()
    ensures Token("OR") && Token("AND") && Token("WITH") && Token("(") && Token(")") && Token("/")
  {
  }

  /** The answer for the text of every expression. */
  lemma CopyleftOfText(e: Expr)
    requires WellFormed(e)
    ensures Copyleft(Some(Text(Spelled(e)))) <==> TakesGpl(e)
  {
    hide Spelled, Copyleft, TakesGpl, WellFormed, Tokens, Text, AllTokens;
    SpelledTokens(e);
    TextTokens(Spelled(e));
    CopyleftIsTakesGpl(e, Text(Spelled(e)));
  }

  // ----- what the reader does not check

  /** A text without a token takes a GPL licence, as no text does. */
  lemma BlankIsCopyleft(s: string)
    requires Tokens(s) == []
    ensures Copyleft(Some(s)) && Copyleft(None)
  {
    assert One([], 0) == Parsed(false, 1);
    hide One, Tokens;
  }

  /** Tokens after an expression change nothing, unless the first is AND, WITH or an OR. */
  lemma TrailingIgnored(e: Expr, s: string, rest: seq<string>)
    requires WellFormed(e) && Tokens(s) == Spelled(e) + rest
    requires rest == [] || rest[0] !in ["AND", "WITH", "OR", "/"]
    ensures Copyleft(Some(s)) <==> TakesGpl(e)
  {
    hide Spelled, Permissive, Either, WellFormed, Ways, TakesGpl, Tokens;
    var t := Tokens(s);
    SpelledAll(e);
    assert t[0..|Spelled(e)|] == Spelled(e);
    assert rest != [] ==> t[|Spelled(e)|] == rest[0];
    ReadsWhole(e, t);
    PermissiveIffWay(e);
    NoFreeWay(e);
    EmptyText();
  }

  /** So a second name without an operator is never looked at, GPL or not. */
  lemma SecondNameIsMissed(n: string, w: string)
    requires LicenceName(n) && LicenceName(w)
    ensures Copyleft(Some(n + " " + w)) <==> Gpl(n)
  {
    hide Gpl, Copyleft, TakesGpl, Tokens;
    assert Token(n);
    TokenEnds(n, w);
    AllLetters(w);
    assert Letter(w[0]);
    var e := Name(n);
    assert Spelled(e) == [n] && Permissive(e) == !Gpl(n);
    TrailingIgnored(e, n + " " + w, [w]);
    PermissiveIffWay(e);
    NoFreeWay(e);
  }

  lemma AllLetters(w: string)
    requires Word(w)
    ensures Tokens(w) == [w]
  {
    WholeWord(w);
    assert w[..|w|] == w && w[|w|..] == "";
  }

  lemma {:induction false} WholeWord(w: string)
    requires forall c | c in w :: Letter(c)
    ensures WordLength(w) == |w|
  {
    if w != "" { WholeWord(w[1..]); }
  }

  // ----- the family of a name

  /** A name is of the GPL family exactly when the three letters stand in it. */
  lemma {:induction false} GplMeans(name: string)
    ensures Gpl(name) <==> exists before, after :: name == before + "GPL" + after
  {
    if Gpl(name) {
      var before := GplFound(name);
    }
    forall before: string, after: string | name == before + "GPL" + after
      ensures Gpl(name)
    {
      GplInside(before, after);
    }
  }

  lemma {:induction false} GplFound(name: string) returns (before: string)
    requires Gpl(name)
    ensures exists after :: name == before + "GPL" + after
  {
    if name[..3] == "GPL" {
      before := "";
      assert name == before + "GPL" + name[3..];
    } else {
      var rest := GplFound(name[1..]);
      var after :| name[1..] == rest + "GPL" + after;
      before := name[..1] + rest;
      assert name == name[..1] + name[1..] == before + "GPL" + after;
    }
  }

  lemma {:induction false} GplInside(before: string, after: string)
    ensures Gpl(before + "GPL" + after)
  {
    var name := before + "GPL" + after;
    if before == "" {
      assert name[..3] == "GPL";
    } else {
      GplInside(before[1..], after);
      assert name[1..] == before[1..] + "GPL" + after;
    }
  }

  /** Brackets and slashes end a word without a space. */
  lemma WordBeforeMark(w: string, mark: char, rest: string)
    requires Word(w) && mark in ['(', ')', '/']
    ensures Tokens(w + [mark] + rest) == [w, [mark]] + Tokens(rest)
  {
    var s, after := w + [mark] + rest, [mark] + rest;
    assert after[0] == mark && after[1..] == rest && after[..1] == [mark];
    assert Letter(w[0]) && s[0] == w[0];
    WordStops(w, after);
    assert s == w + after && s[|w|..] == after && s[..|w|] == w;
  }

  lemma {:induction false} WordStops(w: string, after: string)
    requires (forall c | c in w :: Letter(c)) && after != "" && !Letter(after[0])
    ensures WordLength(w + after) == |w|
  {
    if w != "" {
      assert Letter(w[0]) && (w + after)[1..] == w[1..] + after;
      WordStops(w[1..], after);
    } else {
      assert w + after == after;
    }
  }
}
