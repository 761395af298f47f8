/** When a CREATE TABLE is accepted, said of the request alone: of its names, of
    the text of its types, numbers and expressions, and of its columns taken
    together. */
module RequestReading {
  import opened Text
  import opened Sqlhl
  import opened Ddl
  import opened ExpressionReading
  import TokenReading

  // ---------- names ----------

  predicate Blank(L: Lexis, s: string) { forall i :: 0 <= i < |s| ==> s[i] in L.space }

  lemma BlankTrims(L: Lexis, s: string)
    ensures Blank(L, s) <==> Trim(L.space, s) == []
  {
    var n := Run(L.space, s);
    if Blank(L, s) {
      assert n == |s|;
    }
  }

  lemma NamePasses(L: Lexis, name: string)
    ensures NeedName(L, name) == Pass <==> !Blank(L, name) && '\0' !in name
  {
    hide Trim, Blank;
    BlankTrims(L, name);
  }

  // ---------- numbers ----------

  predicate AllDigits(s: string) { forall i :: 0 <= i < |s| ==> '0' <= s[i] <= '9' }

  predicate Sign(s: string) { s == "" || s == "+" || s == "-" }

  /** Nothing, or a point and digits. */
  predicate PointText(s: string) { s == "" || (s[0] == '.' && AllDigits(s[1..])) }

  /** Nothing, or an e, a sign or none, and some digits. */
  predicate ExponentText(s: string) {
    s == "" || ((s[0] == 'e' || s[0] == 'E') && |s| > 1 &&
                if s[1] == '+' || s[1] == '-' then |s| > 2 && AllDigits(s[2..]) else AllDigits(s[1..]))
  }

  /** The parts of a number: a digit before the point or after it. */
  predicate NumberParts(sign: string, whole: string, point: string, exponent: string) {
    && Sign(sign) && AllDigits(whole) && PointText(point) && ExponentText(exponent)
    && (whole != "" || |point| > 1)
  }

  ghost predicate WrittenNumber(s: string) {
    exists sign, whole, point, exponent ::
      NumberParts(sign, whole, point, exponent) && s == sign + (whole + (point + exponent))
  }

  lemma DigitRun(a: string, t: string)
    requires AllDigits(a) && (t != "" ==> !('0' <= t[0] <= '9'))
    ensures Run(AsciiDigits, a + t) == |a| && (a + t)[|a|..] == t
  {
    RunUnique(AsciiDigits, a + t, |a|);
  }

  lemma ExponentIs(s: string)
    ensures ExponentPart(s) <==> ExponentText(s)
  {
    if s != "" && (s[0] == 'e' || s[0] == 'E') {
      var r := SkipSign(s[1..]);
      assert |s| > 1 ==> s[1..][0] == s[1] && s[1..][1..] == s[2..];
      assert Run(AsciiDigits, r) == |r| <==> AllDigits(r) by { DigitsAre(r); }
    }
  }

  lemma {:induction false} DigitsAre(r: string)
    ensures Run(AsciiDigits, r) == |r| <==> AllDigits(r)
  {
  }

  /** Where the exponent of a number starts, found the way the pattern goes. */
  function ExponentAt(u: string): (n: nat)
    ensures n <= |u|
  {
    var d := Run(AsciiDigits, u);
    if d < |u| && u[d] == '.' then d + 1 + Run(AsciiDigits, u[d + 1..]) else d
  }

  lemma {:induction false} LiteralIs(s: string)
    ensures var u := SkipSign(s);
            var n := ExponentAt(u);
            NumberLiteral(s) <==>
            ExponentPart(u[n..]) && n > 0 && (u[0] in AsciiDigits || (u[0] == '.' && n > 1))
  {
    hide ExponentPart;
    var u := SkipSign(s);
    var d := Run(AsciiDigits, u);
    assert d == 0 && u != "" && u[0] == '.' ==> u[d + 1..] == u[1..];
  }

  lemma {:induction false} ExponentAtOf(whole: string, point: string, exponent: string)
    requires AllDigits(whole) && PointText(point) && ExponentText(exponent)
    ensures var u := whole + (point + exponent);
            var n := ExponentAt(u);
            n == |whole| + |point| && u[n..] == exponent
  {
    var r := point + exponent;
    var u := whole + r;
    DigitRun(whole, r);
    if point != "" {
      DigitRun(point[1..], exponent);
      hide Run;
      assert r[0] == '.' && r[1..] == point[1..] + exponent && u[|whole|] == '.' && u[|whole| + 1..] == r[1..];
    } else {
      assert r == exponent;
    }
  }

  /** The pattern of a numeric literal finds the parts of a number. */
  lemma {:induction false} NumberTaken(s: string, sign: string, whole: string, point: string, exponent: string)
    requires NumberParts(sign, whole, point, exponent) && s == sign + (whole + (point + exponent))
    ensures NumberLiteral(s)
  {
    hide ExponentPart, ExponentText, ExponentAt, NumberLiteral;
    var u := whole + (point + exponent);
    ExponentIs(exponent);
    ExponentAtOf(whole, point, exponent);
    assert u[0] == if whole != "" then whole[0] else '.';
    if sign == "" {
      assert s == u;
    } else {
      assert s[1..] == u;
    }
    LiteralIs(s);
  }

  lemma {:induction false} SignTaken(s: string)
    ensures var u := SkipSign(s); |u| <= |s| && Sign(s[..|s| - |u|]) && s == s[..|s| - |u|] + u
  {
    if SkipSign(s) == s { assert s[..0] == ""; } else { assert s[..1] == [s[0]]; }
  }

  lemma PartsWrite(s: string, sign: string, whole: string, point: string, exponent: string)
    requires NumberParts(sign, whole, point, exponent) && s == sign + (whole + (point + exponent))
    ensures WrittenNumber(s)
  {
    hide NumberParts;
  }

  lemma ThreeParts(u: string, d: nat, n: nat)
    requires d <= n <= |u|
    ensures u == u[..d] + (u[d..n] + u[n..])
  {
  }

  lemma {:induction false} NumberSplit(s: string)
    requires NumberLiteral(s)
    ensures WrittenNumber(s)
  {
    hide ExponentPart, NumberLiteral, ExponentText, PointText, AllDigits, SkipSign, Run, ExponentAt, Sign,
      WrittenNumber;
    LiteralIs(s);
    SignTaken(s);
    var u := SkipSign(s);
    PointFound(u);
    var n, d := ExponentAt(u), Run(AsciiDigits, u);
    ThreeParts(u, d, n);
    ExponentIs(u[n..]);
    assert NumberParts(s[..|s| - |u|], u[..d], u[d..n], u[n..]);
    hide NumberParts;
    PartsWrite(s, s[..|s| - |u|], u[..d], u[d..n], u[n..]);
  }

  lemma {:induction false} PointFound(u: string)
    ensures var n, d := ExponentAt(u), Run(AsciiDigits, u);
            && d <= n && AllDigits(u[..d]) && PointText(u[d..n])
            && (n > 0 && (u[0] in AsciiDigits || n > 1) ==> d > 0 || n - d > 1)
  {
    var n, d := ExponentAt(u), Run(AsciiDigits, u);
    var whole, point := u[..d], u[d..n];
    assert forall i :: 0 <= i < d ==> whole[i] == u[i];
    if n > d {
      var r := u[d + 1..];
      var p := Run(AsciiDigits, r);
      assert n == d + 1 + p;
      assert point[0] == u[d] && point[1..] == r[..p];
      assert forall i :: 0 <= i < p ==> point[1..][i] == r[i];
    }
  }

  /** A number is accepted exactly when it is written as one: a sign or none,
      digits with a point somewhere or nowhere, an exponent or none. */
  lemma NumberReads(s: string)
    ensures NumberLiteral(s) <==> WrittenNumber(s)
  {
    hide NumberLiteral, NumberParts;
    if NumberLiteral(s) {
      NumberSplit(s);
    }
    if WrittenNumber(s) {
      var sign, whole, point, exponent :|
        NumberParts(sign, whole, point, exponent) && s == sign + (whole + (point + exponent));
      NumberTaken(s, sign, whole, point, exponent);
    }
  }

  // ---------- requests ----------

  /** What a type has to be. */
  ghost predicate GoodType(t: string) {
    && t != [] && TypeLetter(t[0])
    && (forall i :: 0 <= i < |t| ==> TypeLetter(t[i]) || '0' <= t[i] <= '9' || t[i] in " (),.[]")
    && Balanced(t, Rep(Operator, |t|), 0, 0)
  }

  /** What a DEFAULT expression has to be. */
  ghost predicate GoodExpression(L: Lexis, x: string) {
    x != [] && Closed(L, x) && Balanced(x, TokenReading.Reading(L, TokenReading.Code, x), 0, 0)
  }

  ghost predicate GoodDefault(L: Lexis, def: ColumnDefault) {
    match def.kind
    case DefaultNone => true
    case DefaultNull => true
    case DefaultText => '\0' !in def.value
    case DefaultNumber => WrittenNumber(Trim(L.space, def.value))
    case DefaultExpr => GoodExpression(L, Trim(L.space, def.value))
    case DefaultKeep => false
  }

  ghost predicate GoodColumn(L: Lexis, c: ColumnDef) {
    !Blank(L, c.name) && '\0' !in c.name && GoodType(Trim(L.space, c.typ)) && GoodDefault(L, c.default)
  }

  ghost predicate GoodRequest(L: Lexis, c: CreateTable) {
    && !Blank(L, c.table) && '\0' !in c.table && c.columns != []
    && (forall i :: 0 <= i < |c.columns| ==> GoodColumn(L, c.columns[i]))
    && (forall i, j :: 0 <= i < j < |c.columns| ==> c.columns[i].name != c.columns[j].name)
  }

  lemma ColumnAccepted(L: Lexis, c: ColumnDef)
    requires L.Valid()
    ensures ColumnOutcome(L, c) == Pass <==> GoodColumn(L, c)
  {
    hide Trim, Blank, NeedName, TypeOutcome, ExpressionOutcome, NumberLiteral, WrittenNumber, Balanced, Closed,
      TypeLetter, TokenReading.Reading;
    NamePasses(L, c.name);
    TypeReads(L, c.typ);
    match c.default.kind {
      case DefaultNumber => NumberReads(Trim(L.space, c.default.value));
      case DefaultExpr => ExpressionReads(L, c.default.value);
      case _ =>
    }
  }

  /** A CREATE TABLE is accepted exactly when it is good: the table and every
      column have a name, no two columns the same, every type and default is
      what it has to be, and there is a column. */
  lemma AcceptsGood(L: Lexis, c: CreateTable)
    requires L.Valid()
    ensures Accepts(L, c) <==> GoodRequest(L, c)
  {
    hide ColumnOutcome, GoodColumn, NeedName, Blank;
    NamePasses(L, c.table);
    forall i | 0 <= i < |c.columns|
      ensures ColumnOutcome(L, c.columns[i]) == Pass <==> GoodColumn(L, c.columns[i])
    {
      ColumnAccepted(L, c.columns[i]);
    }
  }
}
