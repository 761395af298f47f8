/** Fragments of SQL text: pieces that are scanned on their own, balance their
    parentheses and keep their commas inside them. Fragments compose. */
module Fragments {
  import opened Text
  import opened Sqlhl
  import opened SqlhlLocality
  import opened Literal

  /** Where the parentheses stand after a text, or what first broke it. */
  datatype Nesting = Depth(depth: nat) | Commented | Semicolon | Unopened | LooseComma

  /** Reads the operator characters of s, starting `depth` parentheses deep, and
      stops at a comment: the rule ValidateExpression applies to its tokens. */
  function Nest(s: string, ks: seq<Kind>, depth: nat): Nesting
    requires |s| == |ks|
  {
    if s == [] then Depth(depth)
    else if ks[0] == Comment then Commented
    else if ks[0] != Operator then Nest(s[1..], ks[1..], depth)
    else if s[0] == ';' then Semicolon
    else if s[0] == '(' then Nest(s[1..], ks[1..], depth + 1)
    else if s[0] == ')' then if depth == 0 then Unopened else Nest(s[1..], ks[1..], depth - 1)
    else if s[0] == ',' && depth == 0 then LooseComma
    else Nest(s[1..], ks[1..], depth)
  }

  lemma {:induction false} NestAppend(s: string, ks: seq<Kind>, t: string, kt: seq<Kind>, depth: nat)
    requires |s| == |ks| && |t| == |kt|
    ensures Nest(s + t, ks + kt, depth) ==
            var m := Nest(s, ks, depth); if m.Depth? then Nest(t, kt, m.depth) else m
  {
    if s == [] {
      assert s + t == t && ks + kt == kt;
    } else {
      assert (s + t)[1..] == s[1..] + t && (ks + kt)[1..] == ks[1..] + kt;
      var d := if ks[0] == Operator && s[0] == '(' then depth + 1
               else if ks[0] == Operator && s[0] == ')' && depth > 0 then depth - 1
               else depth;
      NestAppend(s[1..], ks[1..], t, kt, d);
    }
  }

  /** Nothing but letters, digits, spaces and the operators that stand for
      themselves: what type names, numbers and the words of a statement are
      made of. */
  predicate SimpleChar(c: char) {
    IsAsciiLetter(c) || '0' <= c <= '9' || c in "_ (),.[]+-"
  }

  predicate Simple(s: string) {
    && (forall i :: 0 <= i < |s| ==> SimpleChar(s[i]))
    && (forall i :: 0 < i < |s| ==> s[i] != '-' || s[i - 1] != '-')
  }

  predicate IsParenOrComma(c: char) { c == '(' || c == ')' || c == ',' }

  /** What one scanning step makes of simple text: it stays inside, and a
      parenthesis or a comma is a token of its own. */
  lemma SimpleLead(L: Lexis, a: string)
    requires L.Valid() && a != [] && Simple(a) && a[|a| - 1] != ' '
    ensures var l := Lead(L, a + SENTINEL);
            && l.len <= |a|
            && l.kind != Comment
            && (l.kind == Operator ==> l.len == 1)
            && (l.kind != Operator ==> forall i :: 0 <= i < l.len ==> !IsParenOrComma(a[i]))
  {
    hide DollarLead, WordLead, HoleLead, NumberLen, QuotedBody, BlockBody, IndexOrEnd, Run, TagBody;
    var s, c := a + SENTINEL, a[0];
    assert s[0] == c && SimpleChar(c);
    assert At(s, 1) == if |a| > 1 then a[1] else ' ';
    if c == ' ' {
      SpacesInside(L, a);
    } else if '0' <= c <= '9' || (c == '.' && DigitAt(s, 1)) {
      NumberStops(a, SENTINEL);
      NumberFree(a);
    } else if IsAsciiLetter(c) || c == '_' {
      SimpleWord(L, a);
    }
  }

  lemma SpacesInside(L: Lexis, a: string)
    requires L.Valid() && a != [] && Simple(a) && a[|a| - 1] != ' '
    ensures var n := Run(L.space, a + SENTINEL); n <= |a| && forall i :: 0 <= i < n ==> !IsParenOrComma(a[i])
  {
    hide Run;
    var s := a + SENTINEL;
    assert L.space * {'(', ')', ','} == {};
    assert SimpleChar(a[|a| - 1]) && s[|a| - 1] == a[|a| - 1];
    assert forall i :: 0 <= i < |a| ==> s[i] == a[i];
  }

  lemma NumberFree(a: string)
    requires a != []
    ensures forall i :: 0 <= i < NumberLen(a) ==> !IsParenOrComma(a[i])
  {
    if a[0] == '0' && (At(a, 1) == 'x' || At(a, 1) == 'X') {
      assert forall i :: 2 <= i < NumberLen(a) ==> a[i] == a[2..][i - 2];
    } else {
      var d := Run(AsciiDigits, a);
      FractionFree(a, d);
      ExponentFree(a, FractionEnd(a, d));
    }
  }

  lemma FractionFree(a: string, p: nat)
    requires p <= |a|
    ensures forall i :: p <= i < FractionEnd(a, p) ==> !IsParenOrComma(a[i])
  {
    assert p < |a| ==> forall i :: p + 1 <= i < FractionEnd(a, p) ==> a[i] == a[p + 1..][i - (p + 1)];
  }

  lemma ExponentFree(a: string, p: nat)
    requires p <= |a|
    ensures forall i :: p <= i < ExponentEnd(a, p) ==> !IsParenOrComma(a[i])
  {
    var k := if At(a, p + 1) == '+' || At(a, p + 1) == '-' then p + 2 else p + 1;
    if k <= |a| {
      assert forall i :: k <= i < ExponentEnd(a, p) ==> a[i] == a[k..][i - k];
    }
  }

  lemma SimpleWord(L: Lexis, a: string)
    requires L.Valid() && a != [] && Simple(a) && L.IdentStart(a[0])
    ensures var l := WordLead(L, a + SENTINEL);
            l.len <= |a| && l.kind != Operator && l.kind != Comment && forall i :: 0 <= i < l.len ==> !IsParenOrComma(a[i])
  {
    hide Run, QuotedBody;
    StopOutside(L, SENTINEL);
    RunStops(L.IdentPart(), a, SENTINEL);
    var end := Run(L.IdentPart(), a);
    assert end < |a| ==> SimpleChar(a[end]) && a[end] != '\'';
    assert L.IdentPart() * {'(', ')', ','} == {};
  }

  lemma {:induction false} SimpleSettles(L: Lexis, a: string)
    requires L.Valid() && Simple(a) && (a != [] ==> a[|a| - 1] != ' ')
    ensures Settles(L, a)
    ensures forall i :: 0 <= i < |a| && IsParenOrComma(a[i]) ==> Kinds(L, a)[i] == Operator
    ensures Comment !in Kinds(L, a)
    decreases |a|
  {
    hide Lead;
    if a != [] {
      SimpleLead(L, a);
      var e: string := [];
      LeadCloses(L, a, e);
      assert a + e == a;
      var n := Lead(L, a).len;
      SimpleSettles(L, a[n..]);
      forall i | 0 <= i < |a| && IsParenOrComma(a[i])
        ensures Kinds(L, a)[i] == Operator
      {
        if i >= n { assert a[n..][i - n] == a[i]; }
      }
    }
  }

  /** A text that is scanned on its own, balances, and keeps its commas in
      parentheses. */
  ghost predicate Fragment(L: Lexis, f: string) {
    Settles(L, f) && Nest(f, Kinds(L, f), 0) == Depth(0)
  }

  lemma FragmentAppend(L: Lexis, f: string, g: string)
    requires L.Valid() && Fragment(L, f) && Fragment(L, g) && Stopper(g)
    ensures Fragment(L, f + g)
    ensures Kinds(L, f + g) == Kinds(L, f) + Kinds(L, g)
  {
    hide Lead, Settles, Nest;
    SettlesAppend(L, f, g);
    Locality(L, f, g);
    NestAppend(f, Kinds(L, f), g, Kinds(L, g), 0);
  }

  /** A space in front keeps a fragment a fragment. */
  lemma FragmentSpace(L: Lexis, v: string)
    requires L.Valid() && Fragment(L, v) && v != []
    ensures Fragment(L, " " + v)
    ensures Kinds(L, " " + v) == [Plain] + Kinds(L, v)
  {
    var s := " " + v;
    assert ' ' in L.space && s[0] == ' ' && s[1..] == v;
    SpaceKinds(L, ' ', v);
    NestSkip(s, Kinds(L, s), 0);
    SpaceSettles(L, v);
  }

  lemma NestSkip(s: string, ks: seq<Kind>, depth: nat)
    requires |s| == |ks| && s != [] && ks[0] != Operator && ks[0] != Comment
    ensures Nest(s, ks, depth) == Nest(s[1..], ks[1..], depth)
  {
  }

  lemma SpaceSettles(L: Lexis, v: string)
    requires L.Valid() && Settles(L, v) && v != []
    ensures Settles(L, " " + v)
  {
    hide Lead, Run;
    var s, b := " " + v, v + SENTINEL;
    var sb := s + SENTINEL;
    assert ' ' in L.space;
    assert sb[0] == ' ' && sb[1..] == b && s[1..] == v && b[0] == v[0];
    LeadSpace(L, sb);
    var n := Run(L.space, b);
    assert sb == [' '] + b;
    RunUnique(L.space, sb, n + 1);
    if v[0] in L.space {
      LeadSpace(L, b);
      assert s[n + 1..] == v[n..];
    } else {
      assert n == 0;
      assert s[1..] == v;
    }
  }

  /** An operator character that stands for itself in front of a text. */
  lemma OperatorKinds(L: Lexis, c: char, r: string)
    requires L.Valid() && (c == '(' || c == ')' || c == ',')
    ensures Lead(L, [c] + r) == Lexeme(Operator, 1)
    ensures Kinds(L, [c] + r) == [Operator] + Kinds(L, r)
  {
    var s := [c] + r;
    assert s[0] == c && s[1..] == r;
    assert c !in L.space && c !in L.letter && c !in L.digit;
    assert Lead(L, s) == Lexeme(Operator, 1);
    hide Lead;
    assert Kinds(L, s) == Rep(Operator, 1) + Kinds(L, r);
    assert Rep(Operator, 1) == [Operator];
  }

  lemma OperatorSettles(L: Lexis, c: char, v: string)
    requires L.Valid() && (c == '(' || c == ')' || c == ',') && Settles(L, v)
    ensures Settles(L, [c] + v)
  {
    hide Lead;
    assert ([c] + v) + SENTINEL == [c] + (v + SENTINEL);
    OperatorKinds(L, c, v + SENTINEL);
    assert ([c] + v)[1..] == v;
  }

  /** Reading a text that balances from depth 0 balances it from any depth. */
  lemma {:induction false} NestLift(s: string, ks: seq<Kind>, depth: nat, more: nat)
    requires |s| == |ks| && Nest(s, ks, depth).Depth?
    ensures Nest(s, ks, depth + more) == Depth(Nest(s, ks, depth).depth + more)
  {
    if s != [] {
      var d := if ks[0] == Operator && s[0] == '(' then depth + 1
               else if ks[0] == Operator && s[0] == ')' then depth - 1
               else depth;
      NestLift(s[1..], ks[1..], d, more);
    }
  }

  function Parens(v: string): string { "(" + v + ")" }

  /** Parentheses around a settled text are tokens of their own. */
  lemma ParensKinds(L: Lexis, v: string)
    requires L.Valid() && Settles(L, v)
    ensures Settles(L, Parens(v))
    ensures Kinds(L, Parens(v)) == [Operator] + Kinds(L, v) + [Operator]
  {
    hide Lead, Settles;
    var s, r := Parens(v), v + ")";
    var e: string := [];
    assert ")" == [')'] + e && s == ['('] + r;
    SettlesEmpty(L);
    OperatorSettles(L, ')', e);
    OperatorKinds(L, ')', e);
    OperatorKinds(L, '(', r);
    Locality(L, v, ")");
    SettlesAppend(L, v, ")");
    OperatorSettles(L, '(', r);
    assert Kinds(L, ")") == [Operator] by { assert Kinds(L, e) == []; }
  }

  /** A text that balances, once its loose commas are inside parentheses, makes
      a fragment in parentheses. */
  lemma FragmentParens(L: Lexis, v: string)
    requires L.Valid() && Settles(L, v) && Nest(v, Kinds(L, v), 1) == Depth(1)
    ensures Fragment(L, Parens(v))
  {
    hide Lead, Settles;
    var s, ks := Parens(v), Kinds(L, v);
    ParensKinds(L, v);
    NestAppend(v, ks, ")", [Operator], 1);
    assert Nest(")", [Operator], 1) == Depth(0) by {
      assert ")"[1..] == "";
    }
    NestOpen(s, Kinds(L, s));
    assert s[1..] == v + ")" && Kinds(L, s)[1..] == ks + [Operator];
  }

  lemma SettlesEmpty(L: Lexis)
    ensures Settles(L, [])
  {
  }

  lemma NestOpen(s: string, ks: seq<Kind>)
    requires |s| == |ks| && s != [] && ks[0] == Operator && s[0] == '('
    ensures Nest(s, ks, 0) == Nest(s[1..], ks[1..], 1)
  {
  }

  /** Simple text with its depth counted character by character, the way
      ValidateTypeName counts, is what Nest makes of its operators. */
  function CharNest(s: string, depth: nat): Nesting {
    if s == [] then Depth(depth)
    else if s[0] == '(' then CharNest(s[1..], depth + 1)
    else if s[0] == ')' then if depth == 0 then Unopened else CharNest(s[1..], depth - 1)
    else if s[0] == ',' && depth == 0 then LooseComma
    else CharNest(s[1..], depth)
  }

  lemma {:induction false} CharNestIsNest(s: string, ks: seq<Kind>, depth: nat)
    requires |s| == |ks| && Simple(s)
    requires forall i :: 0 <= i < |s| && IsParenOrComma(s[i]) ==> ks[i] == Operator
    requires Comment !in ks
    ensures Nest(s, ks, depth) == CharNest(s, depth)
  {
    if s != [] {
      assert SimpleChar(s[0]);
      assert Simple(s[1..]);
      assert forall i :: 0 <= i < |s| - 1 && IsParenOrComma(s[1..][i]) ==> ks[1..][i] == Operator;
      var d := if s[0] == '(' then depth + 1 else if s[0] == ')' && depth > 0 then depth - 1 else depth;
      CharNestIsNest(s[1..], ks[1..], d);
    }
  }

  lemma SimpleFragment(L: Lexis, s: string)
    requires L.Valid() && Simple(s) && (s != [] ==> s[|s| - 1] != ' ')
    requires CharNest(s, 0) == Depth(0)
    ensures Fragment(L, s)
  {
    hide Lead, Settles;
    SimpleSettles(L, s);
    CharNestIsNest(s, Kinds(L, s), 0);
  }

  /** One lexeme that is not an operator is a fragment. */
  lemma LexemeFragment(L: Lexis, f: string)
    requires L.Valid() && f != [] && Lead(L, f + SENTINEL).len == |f| && Lead(L, f).len == |f|
    requires Lead(L, f).kind != Operator && Lead(L, f).kind != Comment
    ensures Fragment(L, f)
    ensures Kinds(L, f) == Rep(Lead(L, f).kind, |f|)
  {
    hide Lead;
    LeadWhole(L, f);
    SettlesEmpty(L);
    assert f[|f|..] == [];
    assert Settles(L, f);
    NestNone(f, Kinds(L, f), 0);
  }

  lemma {:induction false} NestNone(s: string, ks: seq<Kind>, depth: nat)
    requires |s| == |ks| && Operator !in ks && Comment !in ks
    ensures Nest(s, ks, depth) == Depth(depth)
  {
    if s != [] {
      NestNone(s[1..], ks[1..], depth);
    }
  }

  lemma QuoteStringFragment(L: Lexis, e: Engine, s: string)
    requires L.Valid() && L.d == e.For()
    ensures Fragment(L, QuoteString(e, s))
    ensures Kinds(L, QuoteString(e, s)) == Rep(String, |QuoteString(e, s)|)
  {
    hide Lead;
    var lit := QuoteString(e, s);
    QuoteStringReadsBack(L, e, s, SENTINEL);
    QuoteStringReadsBack(L, e, s, []);
    assert lit + [] == lit;
    LexemeFragment(L, lit);
  }

  lemma QuoteIdentFragment(L: Lexis, e: Engine, name: string)
    requires L.Valid() && L.d == e.For()
    ensures Fragment(L, QuoteIdent(e, name))
    ensures Kinds(L, QuoteIdent(e, name)) == Rep(QuotedIdent, |QuoteIdent(e, name)|)
  {
    hide Lead;
    var id := QuoteIdent(e, name);
    QuoteIdentReadsBack(L, e, name, SENTINEL);
    QuoteIdentReadsBack(L, e, name, []);
    assert id + [] == id;
    LexemeFragment(L, id);
  }
}
