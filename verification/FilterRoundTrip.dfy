/** A structured filter's text, parsed, is that filter again: when exactly. */
module FilterRoundTrip {
  import opened Wrappers
  import opened Text
  import opened Literal
  import opened Ddl
  import opened Filters
  import opened FilterParse
  import Placeholders
  import Sqlhl

  // ---------- the conditions of the round trip ----------

  predicate Bare(col: string) {
    col != [] && BareStart(col[0]) && forall i :: 0 <= i < |col| ==> IdentByte(col[i])
  }

  /** col is the word kw, in any case. */
  predicate IsKeyword(col: string, kw: string) { |col| == |kw| && HasPrefixFold(col, kw) }

  /** What the text says of the value: text is quoted and reads as text, an
      integer as an integer; a float has to be spelled with digits and not as an
      integer, a boolean with true or false. */
  predicate Faithful(env: Env, c: Cond) {
    var v := Trim(env.space, c.value);
    c.op.NeedsValue() ==>
      match BindValue(env, c)
      case Some(Float(_)) => NumberLiteral(v) && ParseInt(v) == None
      case Some(Bool(_)) => Lower(v) == "true" || Lower(v) == "false"
      case _ => true
  }

  // ---------- values ----------

  lemma TrimPad(cs: set<char>, a: string, s: string, b: string)
    requires s != [] && s[0] !in cs && s[|s| - 1] !in cs
    requires (forall i :: 0 <= i < |a| ==> a[i] in cs) && (forall i :: 0 <= i < |b| ==> b[i] in cs)
    ensures Trim(cs, a + s + b) == s
  {
    hide TrimRight;
    var all := a + s + b;
    assert all[|a|] == s[0];
    RunUnique(cs, all, |a|);
    assert all[|a|..] == s + b;
    TrimRightPad(cs, s, b);
  }

  lemma {:induction false} TrimRightPad(cs: set<char>, s: string, b: string)
    requires s != [] && s[|s| - 1] !in cs && forall i :: 0 <= i < |b| ==> b[i] in cs
    ensures TrimRight(cs, s + b) == s
  {
    if b == [] {
      assert s + b == s;
    } else {
      var n := |b| - 1;
      TrimRightPad(cs, s, b[..n]);
      assert (s + b)[..|s + b| - 1] == s + b[..n];
    }
  }

  lemma TrimSame(cs: set<char>, s: string)
    requires s != [] ==> s[0] !in cs && s[|s| - 1] !in cs
    ensures Trim(cs, s) == s
  {
    assert s[0..] == s;
  }

  /** Doubled quotes are all there is. */
  lemma {:induction false} StripDouble(v: string)
    ensures '\'' !in Strip(Double(v, '\''))
  {
    if v != [] {
      StripDouble(v[1..]);
      var d := Double(v, '\'');
      var r := Double(v[1..], '\'');
      if v[0] == '\'' {
        assert d == ['\'', '\''] + r && d[2..] == r;
      } else {
        assert d == [v[0]] + r && d[1..] == r;
      }
    }
  }

  lemma TextReads(env: Env, v: string)
    requires env.Valid()
    ensures var s := "'" + Double(v, '\'') + "'"; ParseLiteral(env, s) == Some(Text(v))
  {
    hide Strip, Unescape, Double, ParseInt, NumberLiteral, Trim;
    var s := "'" + Double(v, '\'') + "'";
    assert '\'' !in env.space;
    TrimSame(env.space, s);
    StripDouble(v);
    OnePass(v, '\'');
    EscapeDecodes(v, '\'', false);
    assert Inside(s) == Double(v, '\'');
  }

  lemma IntReads(env: Env, s: string)
    requires ParseInt(s).Some? && Trim(env.space, s) == s
    ensures ParseLiteral(env, s) == Some(Int(ParseInt(s).value))
  {
    hide Trim, DigitsValue, NumberLiteral, Unescape, Strip;
    IntStart(s);
    assert Lower(s)[0] == s[0];
  }

  lemma IntStart(s: string)
    requires IntText(s)
    ensures s != [] && ('0' <= s[0] <= '9' || s[0] == '+' || s[0] == '-')
  {
    assert SkipSign(s)[0] in Sqlhl.AsciiDigits;
  }

  /** A float reads as one when it is spelled as a number and not as an integer. */
  lemma FloatReads(env: Env, s: string)
    requires env.Valid() && env.parseFloat(s).Some? && Trim(env.space, s) == s
    ensures ParseLiteral(env, s) == ToFloat(env, s) <==> NumberLiteral(s) && ParseInt(s) == None
  {
    hide Trim, ParseInt, NumberLiteral, Unescape, Strip;
    assert FloatShape(s);
    assert FloatChar(s[0]);
    assert s[0] != '\'';
    NotAWord(s);
  }

  lemma FloatCharEnds(c: char)
    requires FloatChar(c)
    ensures LowerChar(c) != 'r' && LowerChar(c) != 'l' && c != '\''
  {
  }

  lemma NotAWord(s: string)
    requires FloatShape(s)
    ensures Lower(s) != "true" && Lower(s) != "false"
  {
    hide FloatChar, HasPrefixFold;
    assert "true"[1] == 'r' && "false"[2] == 'l';
    if |s| == 4 { FloatCharEnds(s[1]); }
    if |s| == 5 { FloatCharEnds(s[2]); }
  }

  lemma BoolReads(env: Env, s: string)
    requires ParseBool(s).Some? && Trim(env.space, s) == s
    ensures ParseLiteral(env, s) == Some(Bool(ParseBool(s).value)) <==> Lower(s) == "true" || Lower(s) == "false"
  {
    hide Trim, ParseInt, NumberLiteral, Unescape, Strip;
    if |s| == 4 {
      assert Lower(s) == "true";
    } else if |s| == 5 {
      assert Lower(s) == "false";
    } else {
      assert |s| == 1;
    }
  }

  /** The text of a value reads back as the value exactly when it is faithful. */
  lemma LiteralReads(env: Env, c: Cond)
    requires env.Valid() && c.op.NeedsValue() && BindValue(env, c).Some?
    ensures ParseLiteral(env, Shown(env, c)) == BindValue(env, c) <==> Faithful(env, c)
  {
    hide Trim, ParseInt, NumberLiteral, ParseLiteral, ParseBool, BindValue, Lower;
    var v := Trim(env.space, c.value);
    TrimmedTwice(env.space, c.value);
    ValueIs(env, c);
    match BindValue(env, c).value {
      case Text(t) => TextReads(env, c.value);
      case Int(n) => IntReads(env, v);
      case Float(f) => FloatReads(env, v);
      case Bool(b) => BoolReads(env, v);
    }
  }

  /** What each kind of value was parsed from. */
  lemma ValueIs(env: Env, c: Cond)
    requires BindValue(env, c).Some?
    ensures var v := Trim(env.space, c.value);
            match BindValue(env, c).value
            case Text(t) => t == c.value
            case Int(n) => ParseInt(v) == Some(n)
            case Float(f) => env.parseFloat(v) == Some(f)
            case Bool(b) => ParseBool(v) == Some(b)
  {
    hide Trim, ParseInt, NumberLiteral, ParseBool, TypeClass;
  }

  lemma TrimmedTwice(cs: set<char>, s: string)
    ensures Trim(cs, Trim(cs, s)) == Trim(cs, s)
  {
    var t := Trim(cs, s);
    hide Trim;
    TrimSame(cs, t);
  }

  /** The shown value starts and ends with something that is neither a blank nor
      an L. */
  lemma ShownEnds(env: Env, c: Cond)
    requires env.Valid() && c.op.NeedsValue() && BindValue(env, c).Some?
    ensures var s := Shown(env, c);
            && s != [] && s[0] !in env.space && s[|s| - 1] !in env.space
            && s[|s| - 1] != 'l' && s[|s| - 1] != 'L'
  {
    hide NumberLiteral, TypeClass, Lower, Double, Trim, DigitsValue, ParseBool, FloatChar;
    var v := Trim(env.space, c.value);
    assert '\'' !in env.space;
    match BindValue(env, c).value {
      case Text(t) =>
      case Int(n) => IntEnd(v);
      case Float(f) => assert FloatShape(v); FloatCharEnds(v[|v| - 1]);
      case Bool(b) => BoolEnd(v);
    }
  }

  lemma BoolEnd(s: string)
    requires ParseBool(s).Some?
    ensures s != [] && s[|s| - 1] != 'l' && s[|s| - 1] != 'L'
  {
  }

  lemma IntEnd(s: string)
    requires IntText(s)
    ensures s != [] && '0' <= s[|s| - 1] <= '9'
  {
    var u := SkipSign(s);
    assert u[|u| - 1] == s[|s| - 1];
    assert u[|u| - 1] in Sqlhl.AsciiDigits;
  }

  // ---------- one term ----------

  predicate Pad(p: string) { p == "" || p == " " }

  /** The identifier of a term is the whole column. */
  lemma ColumnRead(pre: string, col: string, rest: string)
    requires Pad(pre) && Bare(col) && rest != [] && rest[0] == ' '
    ensures var t := SkipBlank(pre + col + rest);
            t == col + rest && IdentLen(t) == |col| && t[..|col|] == col && t[|col|..] == rest && BareStart(t[0])
  {
    hide Run;
    var s := pre + col + rest;
    assert s[|pre|] == col[0] && col[0] !in Blank;
    RunUnique(Blank, s, |pre|);
    var t := col + rest;
    assert s[|pre|..] == t;
    assert forall c :: IdentByte(c) <==> c in IdentBytes;
    RunUnique(IdentBytes, t, |col|);
  }

  /** Whether the last character of r that is not blank is an L. */
  ghost predicate EndsInL(r: string) {
    exists k :: 0 <= k < |r| && Upper(r[k]) == 'L' && forall j :: k < j < |r| ==> r[j] in Blank
  }

  lemma EndsInLater(r: string, n: nat)
    requires n <= |r| && EndsInL(r[n..])
    ensures EndsInL(r)
  {
    var x := r[n..];
    var k :| 0 <= k < |x| && Upper(x[k]) == 'L' && forall j :: k < j < |x| ==> x[j] in Blank;
    assert r[n + k] == x[k] && forall j :: n + k < j < |r| ==> r[j] == x[j - n];
  }

  lemma NullWordEnds(r: string)
    requires NullWord(r)
    ensures EndsInL(r)
  {
    assert Upper(r[3]) == "NULL"[3] == 'L';
    assert forall j :: 3 < j < |r| ==> r[j] == r[4..][j - 4];
  }

  lemma NullTailEnds(r: string)
    requires NullTail(r).Some?
    ensures EndsInL(r)
  {
    hide Run, NullWord, EndsInL;
    var a := SkipBlank(r);
    var b := SkipBlank(a[2..]);
    if NullTail(r).value {
      NullWordEnds(SkipBlank(b[3..]));
      EndsInLater(b[3..], Run(Blank, b[3..]));
      EndsInLater(b, 3);
    } else {
      NullWordEnds(b);
    }
    EndsInLater(a[2..], Run(Blank, a[2..]));
    EndsInLater(a, 2);
    EndsInLater(r, Run(Blank, r));
  }

  lemma {:induction false} NoNullFrom(t: string, n: nat)
    requires n <= |t| && !EndsInL(t)
    ensures NullFrom(t, n) == None
  {
    hide NullTail, EndsInL;
    if n > 0 {
      if NullTail(t[n..]).Some? {
        NullTailEnds(t[n..]);
        EndsInLater(t, n);
      }
      NoNullFrom(t, n - 1);
    }
  }

  lemma NotEndsInL(t: string, shown: string, post: string)
    requires shown != [] && shown[|shown| - 1] !in Blank && Upper(shown[|shown| - 1]) != 'L' && Pad(post)
    ensures !EndsInL(t + shown + post)
  {
    var s, n := t + shown + post, |t + shown|;
    assert s[n - 1] == shown[|shown| - 1];
    assert forall k :: n <= k < |s| ==> s[k] == ' ';
  }

  /** The operator is read as it was spelled. */
  lemma OpReads(op: Op, rest: string)
    requires op.NeedsValue() && rest != [] && rest[0] == ' '
    ensures OpTail(" " + op.Spelling() + rest) == Some((op.Spelling(), rest))
  {
    hide NotLike;
    var r := op.Spelling() + rest;
    var s := " " + op.Spelling() + rest;
    RunUnique(Blank, s, 1);
    assert s[1..] == r;
    hide Run;
    assert r[|op.Spelling()|..] == rest;
    NoOps(r, []);
    if op.Like? {
      assert NotLike(r) == None by { NotNotLike(r); }
      assert AfterOp(r, "LIKE") == Some(rest);
      SymbolsNeedSymbols(r);
    } else {
      SymbolReads(op, r, rest);
    }
  }

  lemma NoOps(r: string, ops: seq<string>)
    ensures ops == [] ==> FirstOp(r, ops) == None
  {
  }

  lemma NotNotLike(r: string)
    requires r != [] && Upper(r[0]) != 'N'
    ensures NotLike(r) == None
  {
    assert "NOT"[0] == 'N';
  }

  lemma SymbolsNeedSymbols(r: string)
    requires r != [] && Upper(r[0]) != '=' && Upper(r[0]) != '<' && Upper(r[0]) != '!' && Upper(r[0]) != '>'
    ensures FirstOp(r, ["=", "<>", "!=", ">=", "<=", ">", "<"]) == None
  {
    assert AfterOp(r, "=") == None && AfterOp(r, "<>") == None && AfterOp(r, "!=") == None && AfterOp(r, ">=") == None;
    assert AfterOp(r, "<=") == None && AfterOp(r, ">") == None && AfterOp(r, "<") == None;
    hide AfterOp;
    var ops := ["=", "<>", "!=", ">=", "<=", ">", "<"];
    Skip(r, ops, 0);
    Skip(r, ops, 1);
    Skip(r, ops, 2);
    Skip(r, ops, 3);
    Skip(r, ops, 4);
    Skip(r, ops, 5);
    Skip(r, ops, 6);
    NoOps(r, ops[7..]);
    assert ops[0..] == ops;
  }

  lemma Skip(r: string, ops: seq<string>, i: nat)
    requires i < |ops|
    ensures FirstOp(r, ops[i..]) ==
            match AfterOp(r, ops[i]) case Some(rest) => Some((ops[i], rest)) case None => FirstOp(r, ops[i + 1..])
  {
    assert ops[i..][1..] == ops[i + 1..];
  }

  lemma SymbolReads(op: Op, r: string, rest: string)
    requires op.NeedsValue() && !op.Like? && rest != [] && rest[0] == ' ' && r == op.Spelling() + rest
    ensures FirstOp(r, ["=", "<>", "!=", ">=", "<=", ">", "<"]) == Some((op.Spelling(), rest))
  {
    var ops := ["=", "<>", "!=", ">=", "<=", ">", "<"];
    assert ops[0..] == ops;
    var p := op.Spelling();
    assert r[|p|..] == rest && AfterOp(r, p) == Some(rest);
    assert |p| == 1 ==> r[1] == ' ';
    Skip(r, ops, 0);
    if op != Eq {
      assert AfterOp(r, "=") == None;
      Skip(r, ops, 1);
      assert AfterOp(r, "<>") == None;
      Skip(r, ops, 2);
      if op != Ne {
        assert AfterOp(r, "!=") == None;
        Skip(r, ops, 3);
        if op != Ge {
          assert AfterOp(r, ">=") == None;
          Skip(r, ops, 4);
          if op != Le {
            assert AfterOp(r, "<=") == None;
            Skip(r, ops, 5);
            if op != Gt {
              assert AfterOp(r, ">") == None;
              Skip(r, ops, 6);
            }
          }
        }
      }
    }
  }

  /** The pieces of a comparison's text. */
  lemma CompareText(env: Env, c: Cond, pre: string, post: string)
    requires c.op.NeedsValue()
    ensures var rest := " " + c.op.Spelling() + (" " + Shown(env, c) + post);
            && pre + Raw(env, c) + post == pre + c.column + rest
            && c.column + rest == (c.column + (" " + c.op.Spelling() + " ")) + Shown(env, c) + post
  {
    hide Shown, Op.Spelling;
    var col, op, shown := c.column, c.op.Spelling(), Shown(env, c);
    assert pre + (col + (" " + (op + (" " + shown)))) + post == pre + col + (" " + op + (" " + shown + post));
  }

  /** A comparison's text is parsed into that comparison and its literal. */
  lemma CompareReads(env: Env, c: Cond, pre: string, post: string)
    requires env.Valid() && Bare(c.column) && c.op.NeedsValue() && BindValue(env, c).Some? && Pad(pre) && Pad(post)
    ensures var term := pre + Raw(env, c) + post;
            NullMatch(term) == None
            && CompareMatch(term) == Some((c.column, c.op.Spelling(), " " + Shown(env, c) + post))
  {
    hide Run, BindValue, NullFrom, OpTail, EndsInL, IdentLen, Shown, Op.Spelling, Raw, SkipBlank, Pad, Bare;
    var shown, op := Shown(env, c), c.op.Spelling();
    ShownEnds(env, c);
    CompareText(env, c, pre, post);
    ColumnRead(pre, c.column, " " + op + (" " + shown + post));
    OpReads(c.op, " " + shown + post);
    BlankIsSpace(env, shown[|shown| - 1]);
    NotEndsInL(c.column + (" " + op + " "), shown, post);
    NoNullFrom(SkipBlank(pre + Raw(env, c) + post), |c.column|);
  }

  lemma BlankIsSpace(env: Env, c: char)
    requires env.Valid()
    ensures c in Blank ==> c in env.space
  {
  }

  lemma RunBlank(a: string, r: string)
    requires Pad(a) && (r != [] ==> r[0] !in Blank)
    ensures Run(Blank, a + r) == |a| && SkipBlank(a + r) == r
  {
    hide Run;
    RunUnique(Blank, a + r, |a|);
    assert (a + r)[|a|..] == r;
  }

  lemma NullWordReads(post: string)
    requires Pad(post)
    ensures var n := "NULL" + post;
            NullWord(n) && !HasPrefixFold(n, "NOT") && SkipBlank(" " + n) == n && Run(Blank, " " + n) == 1
  {
    hide Run, SkipBlank;
    var n := "NULL" + post;
    assert n[4..] == post;
    RunBlank(post, "");
    assert post + "" == post;
    RunBlank(" ", n);
    assert Upper(n[1]) == 'U' && "NOT"[1] == 'O';
  }

  lemma IsNullTail(post: string)
    requires Pad(post)
    ensures NullTail(" IS NULL" + post) == Some(false)
  {
    hide Run, SkipBlank, NullWord;
    NullWordReads(post);
    RunBlank(" ", "IS NULL" + post);
    assert " IS NULL" + post == " " + ("IS NULL" + post);
    assert ("IS NULL" + post)[2..] == " " + ("NULL" + post);
  }

  lemma IsNotNullTail(post: string)
    requires Pad(post)
    ensures NullTail(" IS NOT NULL" + post) == Some(true)
  {
    hide Run, SkipBlank, NullWord;
    NullWordReads(post);
    RunBlank(" ", "IS NOT NULL" + post);
    RunBlank(" ", "NOT NULL" + post);
    assert " IS NOT NULL" + post == " " + ("IS NOT NULL" + post);
    assert ("IS NOT NULL" + post)[2..] == " " + ("NOT NULL" + post);
    assert ("NOT NULL" + post)[3..] == " " + ("NULL" + post);
  }

  lemma NullText(env: Env, c: Cond, pre: string, post: string)
    requires !c.op.NeedsValue()
    ensures pre + Raw(env, c) + post == pre + c.column + ((if c.op == IsNotNull then " IS NOT NULL" else " IS NULL") + post)
  {
    hide Shown;
    assert " " + ("IS NULL" + "") == " IS NULL";
    assert " " + ("IS NOT NULL" + "") == " IS NOT NULL";
  }

  lemma IsNullReads(env: Env, c: Cond, pre: string, post: string)
    requires Bare(c.column) && !c.op.NeedsValue() && Pad(pre) && Pad(post)
    ensures NullMatch(pre + Raw(env, c) + post) == Some((c.column, c.op == IsNotNull))
  {
    hide Run, NullTail, IdentLen, Raw, Pad, Bare, SkipBlank, Op.Spelling;
    NullText(env, c, pre, post);
    IsNullTail(post);
    IsNotNullTail(post);
    var tail := if c.op == IsNotNull then " IS NOT NULL" else " IS NULL";
    assert tail[0] == ' ' && (tail + post)[0] == ' ';
    ColumnRead(pre, c.column, tail + post);
  }

  lemma BareUnquoted(col: string)
    requires Bare(col)
    ensures UnquoteIdent(col) == col
  {
  }

  /** The term of a condition parses to its expression; the value is what its
      literal reads as. */
  lemma TermReads(env: Env, e: Engine, c: Cond, pre: string, post: string, n: nat)
    requires env.Valid() && Bare(c.column) && Refuses(env, c) == None && Pad(pre) && Pad(post)
    ensures var r := ParseTerm(env, e, pre + Raw(env, c) + post, n);
            if !c.op.NeedsValue() then r == Some(Term(Expr(e, c, n), None))
            else
              var v := ParseLiteral(env, Shown(env, c));
              r == if v == None then None else Some(Term(Expr(e, c, n), v))
  {
    hide BindValue, Trim, Raw, Shown, NullMatch, CompareMatch, QuoteIdent, Placeholders.Marker, UnquoteIdent;
    BareUnquoted(c.column);
    if c.op.NeedsValue() {
      hide Op.Spelling;
      CompareReads(env, c, pre, post);
      ShownTrimmed(env, c, post);
    } else {
      IsNullReads(env, c, pre, post);
      assert c.op.Spelling() + "" == c.op.Spelling();
    }
  }

  lemma ShownTrimmed(env: Env, c: Cond, post: string)
    requires env.Valid() && c.op.NeedsValue() && BindValue(env, c).Some? && Pad(post)
    ensures ParseLiteral(env, " " + Shown(env, c) + post) == ParseLiteral(env, Shown(env, c))
  {
    hide BindValue, Trim, Shown, ParseLiteral;
    var shown := Shown(env, c);
    ShownEnds(env, c);
    assert ' ' in env.space;
    TrimPad(env.space, " ", shown, post);
    TrimSame(env.space, shown);
    ParseTrimmed(env, " " + shown + post, shown);
  }

  lemma ParseTrimmed(env: Env, a: string, b: string)
    requires Trim(env.space, a) == Trim(env.space, b)
    ensures ParseLiteral(env, a) == ParseLiteral(env, b)
  {
    hide Trim, Strip, Unescape, ParseInt, NumberLiteral, ToFloat;
  }
}
