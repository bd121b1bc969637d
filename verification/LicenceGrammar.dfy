/** Which texts are licence expressions: a strict reader that refuses what the reader of the source lets
    pass, and the texts on which the answer of the source has a meaning. */
module LicenceGrammar {
  import opened Wrappers
  import opened Licence

  // ----- the strict reader

  /** The position after an expression, or none: every operand is a licence name, every bracket is closed,
      and WITH names an exception. */
  function StrictEither(t: seq<string>, i: nat): (r: Option<nat>)
    ensures r.Some? ==> r.value > i
    decreases Left(t, i), 3, 0
  {
    EitherAfter(t, StrictBoth(t, i))
  }

  function EitherAfter(t: seq<string>, p: Option<nat>): (r: Option<nat>)
    ensures r.Some? ==> p.Some? && r.value >= p.value
    decreases if p.None? then 0 else Left(t, p.value), 2, 0
  {
    if p.None? || !OrNext(t, p.value) then p else EitherAfter(t, StrictBoth(t, p.value + 1))
  }

  function StrictBoth(t: seq<string>, i: nat): (r: Option<nat>)
    ensures r.Some? ==> r.value > i
    decreases Left(t, i), 2, 0
  {
    BothAfter(t, StrictOne(t, i))
  }

  function BothAfter(t: seq<string>, p: Option<nat>): (r: Option<nat>)
    ensures r.Some? ==> p.Some? && r.value >= p.value
    decreases if p.None? then 0 else Left(t, p.value), 1, 0
  {
    if p.None? || Peek(t, p.value) != Some("AND") then p else BothAfter(t, StrictOne(t, p.value + 1))
  }

  function StrictOne(t: seq<string>, i: nat): (r: Option<nat>)
    ensures r.Some? ==> r.value > i
    decreases Left(t, i), 1, 0
  {
    if Peek(t, i) == Some("(") then
      var p := StrictEither(t, i + 1);
      if p.Some? && Peek(t, p.value) == Some(")") then Some(p.value + 1) else None
    else if !(i < |t| && LicenceName(t[i])) then None
    else if Peek(t, i + 1) != Some("WITH") then Some(i + 1)
    else if i + 2 < |t| && Word(t[i + 2]) then Some(i + 3)
    else None
  }

  /** The tokens are one expression to their end. */
  predicate Strict(t: seq<string>) {
    StrictEither(t, 0) == Some(|t|)
  }

  // ----- every expression is accepted

  lemma {:induction false} AcceptsGroup(e: Expr, t: seq<string>, i: nat)
    requires WellFormed(e) && At(t, i, ["("] + Spelled(e) + [")"])
    ensures StrictOne(t, i) == Some(i + |Spelled(e)| + 2)
    decreases e, 2
  {
    hide At, Spelled, WellFormed, StrictBoth;
    AtGroup(t, i, Spelled(e));
    AcceptsTerms(e, t, i + 1);
  }

  lemma {:induction false} AcceptsTerms(e: Expr, t: seq<string>, i: nat)
    requires WellFormed(e) && At(t, i, Spelled(e))
    requires Peek(t, i + |Spelled(e)|) != Some("AND") && Peek(t, i + |Spelled(e)|) != Some("WITH")
    ensures EitherAfter(t, StrictBoth(t, i)) == EitherAfter(t, Some(i + |Spelled(e)|))
    decreases e, if e.Or? then 0 else 1
  {
    hide At, StrictBoth, EitherAfter, Spelled, WellFormed, Permissive, Peek;
    if e.Or? {
      ReadsOr(e, t, i);
      var l := i + |Spelled(e.left)|;
      AcceptsTerms(e.left, t, i);
      NextTermAccepted(t, l);
      AcceptsTerms(e.right, t, l + 1);
    } else {
      FactorIsSpelled(e);
      AcceptsFactors(e, t, i);
      FactorsEnd(t, i, i + |Spelled(e)|);
    }
  }

  lemma NextTermAccepted(t: seq<string>, i: nat)
    requires OrNext(t, i)
    ensures EitherAfter(t, Some(i)) == EitherAfter(t, StrictBoth(t, i + 1))
  {
    hide StrictBoth;
  }

  lemma FactorsEnd(t: seq<string>, i: nat, end: nat)
    requires BothAfter(t, StrictOne(t, i)) == BothAfter(t, Some(end)) && Peek(t, end) != Some("AND")
    ensures StrictBoth(t, i) == Some(end)
  {
    hide StrictOne;
  }

  lemma {:induction false} AcceptsFactors(e: Expr, t: seq<string>, i: nat)
    requires WellFormed(e) && At(t, i, Factor(e)) && Peek(t, i + |Factor(e)|) != Some("WITH")
    ensures BothAfter(t, StrictOne(t, i)) == BothAfter(t, Some(i + |Factor(e)|))
    decreases e, if e.Or? then 3 else 0
  {
    hide At, BothAfter, StrictOne, Spelled, Factor, WellFormed, Permissive, Peek;
    match e
    case Name(n) => FactorIsSpelled(e); AcceptsName(e, t, i);
    case With(n, x) => FactorIsSpelled(e); AcceptsName(e, t, i);
    case Brackets(inner) => BracketsParts(e); AcceptsGroup(inner, t, i);
    case Or(_, _, _) => OrFactor(e); AcceptsGroup(e, t, i);
    case And(l, r) =>
      ReadsAnd(e, t, i);
      var next := i + |Factor(l)|;
      AcceptsFactors(l, t, i);
      NextFactorAccepted(t, next);
      AcceptsFactors(r, t, next + 1);
  }

  lemma NextFactorAccepted(t: seq<string>, i: nat)
    requires Peek(t, i) == Some("AND")
    ensures BothAfter(t, Some(i)) == BothAfter(t, StrictOne(t, i + 1))
  {
    hide StrictOne;
  }

  lemma AcceptsName(e: Expr, t: seq<string>, i: nat)
    requires (e.Name? || e.With?) && WellFormed(e) && At(t, i, Spelled(e)) && Peek(t, i + |Spelled(e)|) != Some("WITH")
    ensures StrictOne(t, i) == Some(i + |Spelled(e)|)
  {
    var s := t[i..i + |Spelled(e)|];
    assert t[i] == s[0] == e.name;
    assert Letter(e.name[0]);
    if e.With? { assert t[i + 1] == s[1] == "WITH" && t[i + 2] == s[2] == e.exception; }
    hide Word, StrictEither;
  }

  // ----- what is accepted is an expression

  /** The tokens from i to j spell an expression that is no OR, or any expression. */
  ghost predicate Spells(t: seq<string>, i: nat, j: nat, e: Expr) {
    WellFormed(e) && At(t, i, Spelled(e)) && j == i + |Spelled(e)|
  }

  lemma {:induction false} SpellsOr(t: seq<string>, i: nat, j: nat, k: nat, l: Expr, r: Expr)
    requires Spells(t, i, j, l) && OrNext(t, j) && Spells(t, j + 1, k, r)
    ensures Spells(t, i, k, Or(l, r, Peek(t, j) == Some("/")))
  {
    var x := if Peek(t, j) == Some("/") then "/" else "OR";
    AtJoined(t, i, Spelled(l), x, Spelled(r));
    hide At;
  }

  lemma {:induction false} SpellsAnd(t: seq<string>, i: nat, j: nat, k: nat, l: Expr, r: Expr)
    requires Spells(t, i, j, l) && Peek(t, j) == Some("AND") && Spells(t, j + 1, k, r) && !l.Or? && !r.Or?
    ensures Spells(t, i, k, And(l, r))
  {
    FactorIsSpelled(l);
    FactorIsSpelled(r);
    AtJoined(t, i, Spelled(l), "AND", Spelled(r));
    hide At;
  }

  lemma {:induction false} SpellsBrackets(t: seq<string>, i: nat, j: nat, e: Expr)
    requires Peek(t, i) == Some("(") && Spells(t, i + 1, j, e) && Peek(t, j) == Some(")")
    ensures Spells(t, i, j + 1, Brackets(e))
  {
    hide Spelled;
    AtBetween(t, i, Spelled(e));
    BracketsSpelled(e);
    hide At;
  }

  lemma BracketsSpelled(e: Expr)
    ensures Spelled(Brackets(e)) == ["("] + Spelled(e) + [")"] && |Spelled(Brackets(e))| == |Spelled(e)| + 2
  {
  }

  lemma AtBetween(t: seq<string>, i: nat, a: seq<string>)
    requires Peek(t, i) == Some("(") && At(t, i + 1, a) && Peek(t, i + 1 + |a|) == Some(")")
    ensures At(t, i, ["("] + a + [")"])
  {
    assert t[i..i + |a| + 2] == [t[i]] + t[i + 1..i + 1 + |a|] + [t[i + 1 + |a|]];
  }

  lemma AtJoined(t: seq<string>, i: nat, a: seq<string>, x: string, b: seq<string>)
    requires At(t, i, a) && Peek(t, i + |a|) == Some(x) && At(t, i + |a| + 1, b)
    ensures At(t, i, a + [x] + b)
  {
    assert t[i..i + |a| + 1 + |b|] == t[i..i + |a|] + [t[i + |a|]] + t[i + |a| + 1..i + |a| + 1 + |b|];
  }

  lemma {:induction false} EitherSpells(t: seq<string>, i: nat, j: nat) returns (e: Expr)
    requires StrictEither(t, i) == Some(j)
    ensures Spells(t, i, j, e)
    decreases Left(t, i), 3, 0
  {
    var l := BothSpells(t, i, StrictBoth(t, i).value);
    hide StrictBoth, Spells;
    e := MoreSpells(t, i, StrictBoth(t, i).value, j, l);
  }

  lemma {:induction false} MoreSpells(t: seq<string>, i: nat, j: nat, k: nat, l: Expr) returns (e: Expr)
    requires Spells(t, i, j, l) && EitherAfter(t, Some(j)) == Some(k) && i < j
    ensures Spells(t, i, k, e)
    decreases Left(t, j), 2, 0
  {
    hide Spells;
    if OrNext(t, j) {
      var m := StrictBoth(t, j + 1).value;
      var r := BothSpells(t, j + 1, m);
      SpellsOr(t, i, j, m, l, r);
      hide StrictBoth;
      e := MoreSpells(t, i, m, k, Or(l, r, Peek(t, j) == Some("/")));
    } else {
      e := l;
    }
  }

  lemma {:induction false} BothSpells(t: seq<string>, i: nat, j: nat) returns (e: Expr)
    requires StrictBoth(t, i) == Some(j)
    ensures Spells(t, i, j, e) && !e.Or?
    decreases Left(t, i), 2, 0
  {
    var l := OneSpells(t, i, StrictOne(t, i).value);
    hide StrictOne, Spells;
    e := FactorsSpell(t, i, StrictOne(t, i).value, j, l);
  }

  lemma {:induction false} FactorsSpell(t: seq<string>, i: nat, j: nat, k: nat, l: Expr) returns (e: Expr)
    requires Spells(t, i, j, l) && !l.Or? && BothAfter(t, Some(j)) == Some(k) && i < j
    ensures Spells(t, i, k, e) && !e.Or?
    decreases Left(t, j), 1, 0
  {
    hide Spells;
    if Peek(t, j) == Some("AND") {
      var m := StrictOne(t, j + 1).value;
      var r := OneSpells(t, j + 1, m);
      SpellsAnd(t, i, j, m, l, r);
      hide StrictOne;
      e := FactorsSpell(t, i, m, k, And(l, r));
    } else {
      e := l;
    }
  }

  lemma {:induction false} OneSpells(t: seq<string>, i: nat, j: nat) returns (e: Expr)
    requires StrictOne(t, i) == Some(j)
    ensures Spells(t, i, j, e) && !e.Or?
    decreases Left(t, i), 1, 0
  {
    hide StrictEither;
    if Peek(t, i) == Some("(") {
      var inner := EitherSpells(t, i + 1, j - 1);
      SpellsBrackets(t, i, j - 1, inner);
      e := Brackets(inner);
    } else if Peek(t, i + 1) == Some("WITH") {
      e := With(t[i], t[i + 2]);
      assert t[i..i + 3] == [t[i], "WITH", t[i + 2]];
    } else {
      e := Name(t[i]);
      assert t[i..i + 1] == [t[i]];
    }
  }

  /** The strict reader accepts exactly the spellings of expressions. */
  lemma StrictIffSpelled(t: seq<string>)
    ensures Strict(t) <==> exists e :: WellFormed(e) && Spelled(e) == t
  {
    hide StrictEither, WellFormed, Spelled, At;
    if Strict(t) {
      var e := EitherSpells(t, 0, |t|);
      AtWhole(t, Spelled(e));
      assert WellFormed(e) && Spelled(e) == t;
    }
    forall e | WellFormed(e) && Spelled(e) == t
      ensures Strict(t)
    {
      SpelledAll(e);
      AcceptsTerms(e, t, 0);
      EndOfTerms(t);
    }
  }

  lemma AtWhole(t: seq<string>, part: seq<string>)
    requires At(t, 0, part) && |part| == |t|
    ensures part == t
  {
  }

  lemma EndOfTerms(t: seq<string>)
    requires EitherAfter(t, StrictBoth(t, 0)) == EitherAfter(t, Some(|t|))
    ensures Strict(t)
  {
    hide StrictBoth;
  }

  /** A text that the strict reader accepts spells an expression, and the answer of the source is right
      whatever tree one reads in it. */
  lemma RightOnStrict(s: string)
    requires Strict(Tokens(s))
    ensures exists e :: WellFormed(e) && Spelled(e) == Tokens(s)
    ensures forall e | WellFormed(e) && Spelled(e) == Tokens(s) :: Copyleft(Some(s)) <==> TakesGpl(e)
  {
    hide Strict, Tokens, Copyleft, TakesGpl, WellFormed, Spelled;
    StrictIffSpelled(Tokens(s));
    forall e | WellFormed(e) && Spelled(e) == Tokens(s)
      ensures Copyleft(Some(s)) <==> TakesGpl(e)
    {
      CopyleftIsTakesGpl(e, s);
    }
  }

  // ----- texts that are no expression and pass as permissive

  /** A licence name is no bracket and no operator. */
  lemma NameIsWord(n: string)
    requires LicenceName(n)
    ensures n != "(" && n != ")" && n != "/" && n != "OR" && n != "AND" && n != "WITH"
  {
    assert n[0] in n;
  }

  /** The text of some tokens reads back as those tokens, and is not empty. */
  lemma TextReads(t: seq<string>)
    requires t != [] && forall x | x in t :: Token(x)
    ensures Tokens(Text(t)) == t && (Copyleft(Some(Text(t))) <==> !Either(t, 0).permissive)
  {
    hide Tokens, Text, Token, Either;
    TextTokens(t);
    EmptyText();
  }

  /** Nothing follows OR but a bracket: the bracket is taken for a name that is not GPL. */
  lemma DanglingOr(n: string)
    requires LicenceName(n)
    ensures !Strict([n, "OR", ")"]) && !Copyleft(Some(Text([n, "OR", ")"])))
  {
    var t := [n, "OR", ")"];
    NameIsWord(n);
    assert Token(n) && Token("OR") && Token(")");
    TextReads(t);
    hide Copyleft, Tokens, Text, Token;
    assert One(t, 0).next == 1 && One(t, 2) == Parsed(true, 3);
    assert Both(t, 0).next == 1 && Both(t, 2) == Parsed(true, 3);
    hide Both, One;
    assert EitherFrom(t, Parsed(true, 3)) == Parsed(true, 3);
    assert EitherFrom(t, Both(t, 0)) == EitherFrom(t, OrElse(Both(t, 0).permissive, Both(t, 2)));
    RefusesBracket(t);
  }

  lemma RefusesBracket(t: seq<string>)
    requires |t| == 3 && t[0] != "(" && OrNext(t, 1) && t[2] == ")"
    ensures !Strict(t)
  {
    assert !Letter(t[2][0]) && t[2][0] in t[2];
    assert StrictOne(t, 2) == None;
    assert StrictBoth(t, 2) == None;
    assert StrictOne(t, 0).None? || StrictOne(t, 0) == Some(1);
    assert StrictBoth(t, 0).None? || StrictBoth(t, 0) == Some(1);
    hide StrictOne, StrictBoth;
    assert EitherAfter(t, Some(1)) == EitherAfter(t, StrictBoth(t, 2));
  }

  /** An operator alone is taken for a name. */
  lemma OperatorAlone()
    ensures !Strict(["OR"]) && !Copyleft(Some(Text(["OR"])))
  {
    assert Token("OR");
    TextReads(["OR"]);
    hide Copyleft, Tokens, Text, Token;
    assert StrictOne(["OR"], 0) == None;
  }

  /** A bracket that is not closed swallows the name after its first operand. */
  lemma UnclosedBracket(n: string, w: string)
    requires LicenceName(n) && LicenceName(w)
    ensures !Strict(["(", n, w]) && (Copyleft(Some(Text(["(", n, w]))) <==> Gpl(n))
  {
    var t := ["(", n, w];
    NameIsWord(n);
    NameIsWord(w);
    assert Token("(") && Token(n) && Token(w);
    TextReads(t);
    hide Copyleft, Tokens, Text, Token, Gpl, LicenceName;
    assert One(t, 1) == Parsed(!Gpl(n), 2);
    assert Both(t, 1) == Parsed(!Gpl(n), 2);
    assert Either(t, 1) == Parsed(!Gpl(n), 2) by { hide Both; }
    hide Both, Either;
    assert One(t, 0) == Parsed(!Gpl(n), 3);
    hide One;
    ThirdIsLast(t, One(t, 0));
    RefusesUnclosed(t);
  }

  lemma ThirdIsLast(t: seq<string>, p: Parsed)
    requires |t| == 3 && p == One(t, 0) && p.next == 3
    ensures Either(t, 0) == p
  {
    hide One;
    assert Both(t, 0) == p;
    hide Both;
  }

  lemma RefusesUnclosed(t: seq<string>)
    requires |t| == 3 && t[0] == "(" && LicenceName(t[1]) && LicenceName(t[2])
    ensures !Strict(t)
  {
    NameIsWord(t[1]);
    NameIsWord(t[2]);
    assert StrictOne(t, 1) == Some(2);
    hide LicenceName;
    assert StrictBoth(t, 1) == Some(2);
    assert StrictEither(t, 1) == Some(2) by { hide StrictBoth; }
    hide StrictBoth, StrictEither;
    assert StrictOne(t, 0) == None;
    NoneStaysNone(t);
  }

  lemma NoneStaysNone(t: seq<string>)
    requires StrictOne(t, 0) == None
    ensures !Strict(t)
  {
    hide StrictOne;
    assert StrictBoth(t, 0) == None;
    hide StrictBoth;
  }
}
