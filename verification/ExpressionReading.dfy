/** What the validators of types and DEFAULT expressions accept, said of a text
    read one character at a time: nothing left open, no comment, no semicolon,
    balanced parentheses and every comma inside of them. */
module ExpressionReading {
  import opened Text
  import opened Sqlhl
  import opened SqlhlLocality
  import opened Fragments
  import opened Ddl
  import TokenReading

  // ---------- parentheses, counted ----------

  /** By how much the first n characters change the depth. */
  function Level(s: string, ks: seq<Kind>, n: nat): int
    requires n <= |s| == |ks|
  {
    if n == 0 then 0
    else
      Level(s, ks, n - 1) +
      if ks[n - 1] != Operator then 0 else if s[n - 1] == '(' then 1 else if s[n - 1] == ')' then -1 else 0
  }

  /** No comment and no semicolon; read from depth d, no parenthesis closes that
      was not open, every comma is inside of some, and the depth is m at the
      end. */
  ghost predicate Balanced(s: string, ks: seq<Kind>, d: int, m: int)
    requires |s| == |ks|
  {
    && (forall i :: 0 <= i < |s| ==> ks[i] != Comment && !(ks[i] == Operator && s[i] == ';'))
    && (forall n :: 0 <= n <= |s| ==> d + Level(s, ks, n) >= 0)
    && (forall i :: 0 <= i < |s| && ks[i] == Operator && s[i] == ',' ==> d + Level(s, ks, i) > 0)
    && d + Level(s, ks, |s|) == m
  }

  lemma {:induction false} LevelShift(s: string, ks: seq<Kind>, n: nat)
    requires 1 <= n <= |s| == |ks|
    ensures Level(s, ks, n) == Level(s, ks, 1) + Level(s[1..], ks[1..], n - 1)
    decreases n
  {
    if n > 1 {
      LevelShift(s, ks, n - 1);
      assert s[1..][n - 2] == s[n - 1] && ks[1..][n - 2] == ks[n - 1];
    }
  }

  /** The first character, and the rest from the depth after it. */
  lemma BalancedFirst(s: string, ks: seq<Kind>, d: int, m: int)
    requires |s| == |ks| > 0
    ensures Balanced(s, ks, d, m) <==>
            && d >= 0 && ks[0] != Comment && !(ks[0] == Operator && s[0] == ';')
            && (ks[0] == Operator && s[0] == ',' ==> d > 0)
            && Balanced(s[1..], ks[1..], d + Level(s, ks, 1), m)
  {
    var r, kr, c := s[1..], ks[1..], Level(s, ks, 1);
    hide Level;
    assert Level(s, ks, 0) == 0 by { LevelNone(s, ks); }
    forall n | 1 <= n <= |s|
      ensures Level(s, ks, n) == c + Level(r, kr, n - 1)
    {
      LevelShift(s, ks, n);
    }
    assert forall i :: 1 <= i < |s| ==> s[i] == r[i - 1] && ks[i] == kr[i - 1];
    if Balanced(s, ks, d, m) { BalancedRest(s, ks, d, m, c); }
  }

  lemma BalancedRest(s: string, ks: seq<Kind>, d: int, m: int, c: int)
    requires |s| == |ks| > 0 && Balanced(s, ks, d, m)
    requires forall n :: 1 <= n <= |s| ==> Level(s, ks, n) == c + Level(s[1..], ks[1..], n - 1)
    ensures Balanced(s[1..], ks[1..], d + c, m)
  {
    hide Level;
    var r, kr := s[1..], ks[1..];
    forall n | 0 <= n <= |r|
      ensures Level(r, kr, n) == Level(s, ks, n + 1) - c
    {
    }
    assert forall i :: 0 <= i < |r| ==> r[i] == s[i + 1] && kr[i] == ks[i + 1];
  }

  lemma LevelNone(s: string, ks: seq<Kind>)
    requires |s| == |ks|
    ensures Level(s, ks, 0) == 0
  {
  }

  /** The depth counter of the validator ends at m exactly when the text is
      balanced so. */
  lemma {:induction false} NestCounts(s: string, ks: seq<Kind>, d: nat, m: nat)
    requires |s| == |ks|
    ensures Nest(s, ks, d) == Depth(m) <==> Balanced(s, ks, d, m)
    decreases |s|
  {
    if s == [] {
      assert Level(s, ks, 0) == 0;
    } else {
      BalancedFirst(s, ks, d, m);
      var c := Level(s, ks, 1);
      assert c == if ks[0] != Operator then 0 else if s[0] == '(' then 1 else if s[0] == ')' then -1 else 0 by {
        LevelNone(s, ks);
      }
      hide Level;
      if d + c >= 0 {
        NestCounts(s[1..], ks[1..], d + c, m);
      } else {
        NotBelow(s[1..], ks[1..], d + c, m);
      }
    }
  }

  lemma NotBelow(s: string, ks: seq<Kind>, d: int, m: int)
    requires |s| == |ks| && d < 0
    ensures !Balanced(s, ks, d, m)
  {
    LevelNone(s, ks);
  }

  // ---------- expressions ----------

  /** Nothing is open after x: what follows a space is read afresh. */
  predicate Closed(L: Lexis, x: string) {
    TokenReading.Reading(L, TokenReading.Code, x + SENTINEL)[|x|..] == [Plain, Operator]
  }

  /** An expression is accepted exactly when, read one character at a time, it
      leaves nothing open, has no comment and no semicolon, closes what it opens
      and has every comma in parentheses. */
  lemma ExpressionReads(L: Lexis, expr: string)
    requires L.Valid()
    ensures var x := Trim(L.space, expr);
            ExpressionOutcome(L, expr) == Pass <==>
            x != [] && Closed(L, x) && Balanced(x, TokenReading.Reading(L, TokenReading.Code, x), 0, 0)
  {
    hide Settles, Nest, ExpressionOutcome, Kinds, TokenReading.Reading, Balanced, Trim;
    var x := Trim(L.space, expr);
    ExpressionFragment(L, expr);
    TokenReading.KindsRead(L, x);
    TokenReading.KindsRead(L, x + SENTINEL);
    NestCounts(x, Kinds(L, x), 0, 0);
    if x != [] {
      SentinelSettles(L, x);
      var ks := Kinds(L, x + SENTINEL);
      if Settles(L, x) {
        Locality(L, x, SENTINEL);
        SentinelKinds(L);
        assert (Kinds(L, x) + [Plain, Operator])[|x|..] == [Plain, Operator];
      } else if ks[|x|..] == [Plain, Operator] {
        LastTwo(ks, |x|);
      }
    }
  }

  lemma LastTwo(ks: seq<Kind>, n: nat)
    requires n + 2 == |ks| && ks[n..] == [Plain, Operator]
    ensures ks[n] == Plain && ks[n + 1] == Operator
  {
    assert ks[n] == ks[n..][0] && ks[n + 1] == ks[n..][1];
  }

  // ---------- types ----------

  predicate TypeLetter(c: char) { 'a' <= c <= 'z' || 'A' <= c <= 'Z' || c == '_' }

  /** The same for a type: it starts with a letter or an underscore, holds
      nothing but letters, digits, underscores, spaces, parentheses, commas,
      dots and brackets, closes what it opens and has every comma in
      parentheses. */
  lemma TypeReads(L: Lexis, typ: string)
    ensures var t := Trim(L.space, typ);
            TypeOutcome(L, typ) == Pass <==>
            && t != [] && TypeLetter(t[0])
            && (forall i :: 0 <= i < |t| ==> TypeLetter(t[i]) || '0' <= t[i] <= '9' || t[i] in " (),.[]")
            && Balanced(t, Rep(Operator, |t|), 0, 0)
  {
    hide Trim, Balanced;
    var t := Trim(L.space, typ);
    NestCounts(t, Rep(Operator, |t|), 0, 0);
    if TypePattern(t) {
      NoSemicolon(t);
      CharNestIsNest(t, Rep(Operator, |t|), 0);
    }
  }

  lemma NoSemicolon(t: string)
    requires TypePattern(t)
    ensures Simple(t)
  {
    forall i | 0 <= i < |t|
      ensures SimpleChar(t[i]) && t[i] != '-'
    {
      assert TypeChar(t[i]);
    }
  }

  // ---------- a line comment ----------

  /** Text without a line break behind `--` is a comment to its end. */
  lemma DashesKinds(L: Lexis, t: string)
    requires L.Valid() && '\n' !in t
    ensures Kinds(L, "--" + t) == Rep(Comment, |t| + 2)
  {
    var s := "--" + t;
    assert '-' !in L.space;
    IndexOrEndUnique(s, '\n', |s|);
    assert Lead(L, s) == Lexeme(Comment, |s|);
    hide Lead;
    assert s[|s|..] == [];
  }

  /** Behind an accepted expression, too, a line comment is one, and with it the
      text is refused: it would take what follows the expression with it. */
  lemma LineCommentRefused(L: Lexis, expr: string, t: string)
    requires L.Valid() && ExpressionOutcome(L, expr) == Pass && '\n' !in t
    ensures var x := Trim(L.space, expr);
            && Kinds(L, x + (" --" + t)) == Kinds(L, x) + ([Plain] + Rep(Comment, |t| + 2))
            && ExpressionOutcome(L, x + (" --" + t)) == Fail(LeftOpen)
  {
    hide ExpressionOutcome, Settles, Nest, Kinds, Trim;
    var x := Trim(L.space, expr);
    ExpressionFragment(L, expr);
    var k := TrimmedComment(L, x, t);
    CommentKinds(L, x, t);
    var u := t[..k] + SENTINEL;
    CommentKinds(L, x, u);
    var e := x + (" --" + t[..k]);
    assert e + SENTINEL == x + (" --" + u);
    LastIsComment(L, x, u);
    OpenOutcome(L, x + (" --" + t), e);
  }

  lemma CommentKinds(L: Lexis, x: string, t: string)
    requires L.Valid() && Settles(L, x) && '\n' !in t
    ensures Kinds(L, x + (" --" + t)) == Kinds(L, x) + ([Plain] + Rep(Comment, |t| + 2))
  {
    hide Settles, Kinds, Lead;
    SpacedKinds(L, t);
    var c := " --" + t;
    assert c[0] == ' ';
    Locality(L, x, c);
  }

  lemma SpacedKinds(L: Lexis, t: string)
    requires L.Valid() && '\n' !in t
    ensures Kinds(L, " --" + t) == [Plain] + Rep(Comment, |t| + 2)
  {
    hide Kinds, Lead;
    DashesKinds(L, t);
    assert " --" + t == [' '] + ("--" + t) && ' ' in L.space;
    assert ("--" + t)[0] == '-' && '-' !in L.space;
    SpaceKinds(L, ' ', "--" + t);
  }

  lemma LastIsComment(L: Lexis, x: string, u: string)
    requires |u| >= 2 && Kinds(L, x + (" --" + u)) == Kinds(L, x) + ([Plain] + Rep(Comment, |u| + 2))
    ensures var ks := Kinds(L, x + (" --" + u)); ks[|ks| - 1] == Comment
  {
    hide Kinds;
    var ks := Kinds(L, x) + ([Plain] + Rep(Comment, |u| + 2));
    assert ks[|ks| - 1] == Rep(Comment, |u| + 2)[|u| + 1];
  }

  lemma OpenOutcome(L: Lexis, text: string, e: string)
    requires Trim(L.space, text) == e != []
    requires var ks := Kinds(L, e + SENTINEL); ks[|ks| - 1] == Comment
    ensures ExpressionOutcome(L, text) == Fail(LeftOpen)
  {
    hide Kinds, Trim, Nest;
  }

  /** Trimming takes only spaces off the end of the comment. */
  lemma TrimmedComment(L: Lexis, x: string, t: string) returns (k: nat)
    requires L.Valid() && x != [] && x[0] !in L.space
    ensures k <= |t| && Trim(L.space, x + (" --" + t)) == x + (" --" + t[..k])
  {
    hide TrimRight;
    var y := x + (" --" + t);
    assert y[0..] == y;
    var r := TrimRight(L.space, y);
    var n := |x| + 3;
    assert y[n - 1] == '-' && '-' !in L.space;
    assert |r| >= n;
    k := |r| - n;
    assert y[..|r|] == x + (" --" + t[..k]);
  }
}
