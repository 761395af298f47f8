/** The text of a structured filter splits at the ANDs that were put in and at
    no other, and parses back to the filter exactly when every value is written
    the way it reads and no column is one of the words WHERE, AND and OR. */
module FilterTheorem {
  import opened Wrappers
  import opened Text
  import opened Literal
  import opened Ddl
  import opened Filters
  import opened FilterParse
  import opened FilterRoundTrip
  import Sqlhl

  // ---------- reading on through a text ----------

  /** Split takes the character at k as it is. */
  predicate PlainAt(s: string, k: nat) {
    k < |s| && !IsQuote(s[k]) && s[k] != '(' && s[k] != ')' && s[k] != ';' && !KeywordAt(s, k, "OR") && !KeywordAt(s, k, "AND")
  }

  lemma {:induction false} SkipPlain(s: string, i: nat, j: nat, cur: string)
    requires i <= j <= |s| && forall k :: i <= k < j ==> PlainAt(s, k)
    ensures Split(s, i, cur) == Split(s, j, cur + s[i..j])
    decreases j - i
  {
    hide KeywordAt;
    if i == j {
      assert cur + s[i..j] == cur;
    } else {
      assert PlainAt(s, i);
      SkipPlain(s, i + 1, j, cur + [s[i]]);
      assert cur + [s[i]] + s[i + 1..j] == cur + s[i..j];
    }
  }

  /** At a column, the only keyword there can be is the column itself. */
  lemma ColumnKeyword(s: string, p: nat, col: string, kw: string)
    requires Bare(col) && p + |col| < |s| && s[p..p + |col|] == col && s[p + |col|] == ' '
    requires p > 0 ==> s[p - 1] == ' '
    requires forall i :: 0 <= i < |kw| ==> 'A' <= kw[i] <= 'Z'
    ensures KeywordAt(s, p, kw) <==> IsKeyword(col, kw)
  {
    var r := s[p..];
    assert forall i :: 0 <= i < |col| ==> r[i] == s[p..p + |col|][i] == col[i];
    assert r[|col|] == ' ';
    if |kw| < |col| {
      assert s[p + |kw|] == col[|kw|];
    }
  }

  lemma ColumnPlain(s: string, p: nat, col: string)
    requires Bare(col) && p + |col| < |s| && s[p..p + |col|] == col && s[p + |col|] == ' '
    requires p > 0 ==> s[p - 1] == ' '
    requires !IsKeyword(col, "OR") && !IsKeyword(col, "AND")
    ensures forall k :: p <= k < p + |col| ==> PlainAt(s, k)
  {
    ColumnKeyword(s, p, col, "OR");
    ColumnKeyword(s, p, col, "AND");
    forall k | p <= k < p + |col|
      ensures PlainAt(s, k)
    {
      hide HasPrefixFold, IsKeyword;
      assert s[k] == s[p..p + |col|][k - p] == col[k - p];
      if k > p { assert s[k - 1] == s[p..p + |col|][k - 1 - p] == col[k - 1 - p]; }
    }
  }

  /** A text without quotes, parentheses and semicolons in which no AND and no
      O starts a word. */
  predicate Calm(t: string) {
    forall i :: 0 <= i < |t| ==> CalmAt(t, i)
  }

  predicate CalmAt(t: string, i: nat)
    requires i < |t|
  {
    && !IsQuote(t[i]) && t[i] != '(' && t[i] != ')' && t[i] != ';'
    && (Upper(t[i]) == 'O' || HasPrefixFold(t[i..], "AND") ==> i > 0 && IdentByte(t[i - 1]))
  }

  lemma CalmPlain(s: string, p: nat, t: string)
    requires Calm(t) && p + |t| <= |s| && s[p..p + |t|] == t
    requires p + |t| < |s| ==> s[p + |t|] == ' ' || s[p + |t|] == '\''
    ensures forall k :: p <= k < p + |t| ==> PlainAt(s, k)
  {
    forall k | p <= k < p + |t|
      ensures PlainAt(s, k)
    {
      var i := k - p;
      assert CalmAt(t, i);
      assert forall j :: 0 <= j < |t| ==> s[p + j] == s[p..p + |t|][j] == t[j];
      if i == 0 || !IdentByte(t[i - 1]) {
        assert Upper(s[k]) != 'O';
        NoAnd(s, p, t, i);
        assert "OR"[0] == 'O' && s[k..][0] == s[k];
      }
    }
  }

  lemma NoAnd(s: string, p: nat, t: string, i: nat)
    requires i < |t| && p + |t| <= |s| && (forall j :: 0 <= j < |t| ==> s[p + j] == t[j])
    requires p + |t| < |s| ==> s[p + |t|] == ' ' || s[p + |t|] == '\''
    requires !HasPrefixFold(t[i..], "AND")
    ensures !HasPrefixFold(s[p + i..], "AND")
  {
    var r, w := s[p + i..], t[i..];
    assert forall j :: 0 <= j < |w| ==> r[j] == w[j];
    assert |r| > |w| ==> r[|w|] == s[p + |t|];
    assert "AND"[1] == 'N' && "AND"[2] == 'D';
  }

  /** Quoted text is skipped whole. */
  lemma {:induction false} QuoteEndDouble(pre: string, v: string, post: string)
    requires post == [] || post[0] != '\''
    ensures var d := Double(v, '\'');
            QuoteEnd(pre + d + (['\''] + post), |pre|, '\'') == Some(|pre| + |d| + 1)
    decreases v
  {
    var s := pre + Double(v, '\'') + (['\''] + post);
    if v == [] {
      assert s == pre + (['\''] + post);
      assert post != [] ==> s[|pre| + 1] == post[0];
    } else {
      var head := if v[0] == '\'' then ['\'', '\''] else [v[0]];
      QuoteEndDouble(pre + head, v[1..], post);
      assert s == (pre + head) + Double(v[1..], '\'') + (['\''] + post);
    }
  }

  // ---------- one condition ----------

  /** Between the column and the value. */
  function Mid(c: Cond): string { " " + c.op.Spelling() + " " }

  lemma AndNeeds(t: string, i: nat)
    requires i < |t|
    ensures HasPrefixFold(t[i..], "AND") ==> Upper(t[i]) == 'A' && i + 1 < |t| && Upper(t[i + 1]) == 'N'
  {
    if HasPrefixFold(t[i..], "AND") {
      assert "AND"[0] == 'A' && "AND"[1] == 'N';
      assert t[i..][0] == t[i] && t[i..][1] == t[i + 1];
    }
  }

  lemma MidCalm(c: Cond)
    ensures Calm(Mid(c))
  {
    var t := Mid(c);
    forall i | 0 <= i < |t|
      ensures CalmAt(t, i)
    {
      AndNeeds(t, i);
    }
  }

  /** A value that is not quoted. */
  lemma ShownCalm(env: Env, c: Cond)
    requires env.Valid() && c.op.NeedsValue() && BindValue(env, c).Some? && !BindValue(env, c).value.Text?
    ensures Calm(Shown(env, c))
  {
    hide NumberLiteral, TypeClass, Lower, Trim, DigitsValue;
    var v := Trim(env.space, c.value);
    match BindValue(env, c).value {
      case Int(n) => IntCalm(v);
      case Float(f) =>
        assert FloatShape(v);
        FloatCalm(v);
      case Bool(b) => BoolCalm(v);
    }
  }

  lemma IntCalm(s: string)
    requires IntText(s)
    ensures Calm(s)
  {
    var u := SkipSign(s);
    forall i | 0 <= i < |s|
      ensures CalmAt(s, i)
    {
      assert i >= |s| - |u| ==> s[i] == u[i - (|s| - |u|)] && s[i] in Sqlhl.AsciiDigits;
      AndNeeds(s, i);
    }
  }

  lemma FloatCharCalm(c: char)
    requires FloatChar(c)
    ensures !IsQuote(c) && c != '(' && c != ')' && c != ';' && Upper(c) != 'O'
  {
  }

  lemma FloatCalm(s: string)
    requires FloatShape(s)
    ensures Calm(s)
  {
    forall i | 0 <= i < |s|
      ensures CalmAt(s, i)
    {
      hide HasPrefixFold, FloatChar;
      FloatCharCalm(s[i]);
    }
  }

  lemma BoolCalm(s: string)
    requires ParseBool(s).Some?
    ensures Calm(s)
  {
    forall i | 0 <= i < |s|
      ensures CalmAt(s, i)
    {
      AndNeeds(s, i);
    }
  }

  lemma TwoParts(s: string, p: nat, a: string, b: string)
    requires p + |a| + |b| <= |s| && s[p..p + |a| + |b|] == a + b
    ensures s[p..p + |a|] == a && s[p + |a|..p + |a| + |b|] == b
  {
    var w := s[p..p + |a| + |b|];
    assert s[p..p + |a|] == w[..|a|];
    assert s[p + |a|..p + |a| + |b|] == w[|a|..];
  }

  /** Calm text, then a quoted one. */
  lemma TextScan(s: string, p: nat, mid: string, v: string, cur: string)
    requires var t := "'" + Double(v, '\'') + "'";
             Calm(mid) && p + |mid| + |t| <= |s| && s[p..p + |mid| + |t|] == mid + t
             && (p + |mid| + |t| < |s| ==> s[p + |mid| + |t|] == ' ')
    ensures var t := "'" + Double(v, '\'') + "'"; Split(s, p, cur) == Split(s, p + |mid| + |t|, cur + (mid + t))
  {
    hide Double, Split, Calm, PlainAt;
    var t := "'" + Double(v, '\'') + "'";
    TwoParts(s, p, mid, t);
    assert s[p + |mid|] == t[0];
    CalmPlain(s, p, mid);
    SkipPlain(s, p, p + |mid|, cur);
    QuotedScan(s, p + |mid|, v, cur + mid);
    assert cur + mid + t == cur + (mid + t);
  }

  /** What comes after the column is read on through. */
  lemma BodyScan(env: Env, c: Cond, s: string, p: nat, cur: string)
    requires env.Valid() && Refuses(env, c) == None
    requires var b := Body(env, c); p + |b| <= |s| && s[p..p + |b|] == b && (p + |b| < |s| ==> s[p + |b|] == ' ')
    ensures Split(s, p, cur) == Split(s, p + |Body(env, c)|, cur + Body(env, c))
  {
    hide BindValue, Trim, Calm, PlainAt, Split, Shown, Op.Spelling;
    var b, mid := Body(env, c), Mid(c);
    if c.op.NeedsValue() && BindValue(env, c).value.Text? {
      ShownQuoted(env, c);
      MidCalm(c);
      assert b == mid + Shown(env, c);
      TextScan(s, p, mid, c.value, cur);
    } else {
      if c.op.NeedsValue() {
        assert b == mid + Shown(env, c);
        MidCalm(c);
        ShownCalm(env, c);
        CalmBoth(mid, Shown(env, c));
      } else {
        NullCalm(c);
        assert b == " " + c.op.Spelling();
      }
      CalmPlain(s, p, b);
      SkipPlain(s, p, p + |b|, cur);
    }
  }

  lemma NullCalm(c: Cond)
    requires !c.op.NeedsValue()
    ensures Calm(" " + c.op.Spelling())
  {
    var t := " " + c.op.Spelling();
    forall i | 0 <= i < |t|
      ensures CalmAt(t, i)
    {
      AndNeeds(t, i);
    }
  }

  lemma CalmBoth(a: string, b: string)
    requires Calm(a) && Calm(b) && a != [] && a[|a| - 1] == ' '
    ensures Calm(a + b)
  {
    var t := a + b;
    forall i | 0 <= i < |t|
      ensures CalmAt(t, i)
    {
      if i < |a| {
        assert CalmAt(a, i);
        if HasPrefixFold(t[i..], "AND") { AndInside(a, b, i); }
      } else {
        assert CalmAt(b, i - |a|);
        assert t[i..] == b[i - |a|..];
      }
    }
  }

  lemma AndInside(a: string, b: string, i: nat)
    requires i < |a| && a[|a| - 1] == ' ' && HasPrefixFold((a + b)[i..], "AND")
    ensures HasPrefixFold(a[i..], "AND")
  {
    var r := (a + b)[i..];
    assert forall j :: i <= j < |a| ==> r[j - i] == a[j];
    assert "AND"[0] == 'A' && "AND"[1] == 'N' && "AND"[2] == 'D';
    assert r[|a| - 1 - i] == ' ';
  }

  lemma ShownQuoted(env: Env, c: Cond)
    requires BindValue(env, c).Some? && BindValue(env, c).value.Text?
    ensures Shown(env, c) == "'" + Double(c.value, '\'') + "'"
  {
    hide BindValue;
  }

  lemma QuotedScan(s: string, q: nat, v: string, cur: string)
    requires var t := "'" + Double(v, '\'') + "'"; q + |t| <= |s| && s[q..q + |t|] == t && (q + |t| < |s| ==> s[q + |t|] == ' ')
    ensures var t := "'" + Double(v, '\'') + "'"; Split(s, q, cur) == Split(s, q + |t|, cur + t)
  {
    hide Double, QuoteEnd, Split;
    var t, d := "'" + Double(v, '\'') + "'", Double(v, '\'');
    var pre, post := s[..q] + ['\''], s[q + |t|..];
    assert s[q] == s[q..q + |t|][0] == '\'';
    assert s == s[..q] + s[q..q + |t|] + post;
    assert s == pre + d + (['\''] + post);
    QuoteEndDouble(pre, v, post);
    SplitQuote(s, q, cur, q + |t|);
  }

  lemma SplitQuote(s: string, q: nat, cur: string, n: nat)
    requires q < |s| && IsQuote(s[q]) && QuoteEnd(s, q + 1, s[q]) == Some(n)
    ensures n <= |s| && Split(s, q, cur) == Split(s, n, cur + s[q..n])
  {
    hide QuoteEnd;
  }

  /** Everything of a condition after its column. */
  function Body(env: Env, c: Cond): string {
    " " + c.op.Spelling() + if c.op.NeedsValue() then " " + Shown(env, c) else ""
  }

  lemma RawIs(env: Env, c: Cond)
    ensures Raw(env, c) == c.column + Body(env, c) && Body(env, c) != [] && Body(env, c)[0] == ' '
  {
    hide Shown;
  }

  predicate AndOr(col: string) { IsKeyword(col, "AND") || IsKeyword(col, "OR") }

  /** A condition is read on through. */
  lemma RawScan(env: Env, c: Cond, s: string, p: nat, cur: string)
    requires env.Valid() && Refuses(env, c) == None && Bare(c.column) && !AndOr(c.column)
    requires p <= |s| && (p > 0 ==> s[p - 1] == ' ')
    requires var r := Raw(env, c); p + |r| <= |s| && s[p..p + |r|] == r && (p + |r| < |s| ==> s[p + |r|] == ' ')
    ensures Split(s, p, cur) == Split(s, p + |Raw(env, c)|, cur + Raw(env, c))
  {
    hide Split, Body, Raw, PlainAt, Refuses, IsKeyword;
    RawIs(env, c);
    var r, col, b := Raw(env, c), c.column, Body(env, c);
    var q := p + |col|;
    assert s[p..q] == r[..|col|] == col;
    assert s[q..q + |b|] == r[|col|..] == b;
    assert s[q] == b[0];
    ColumnPlain(s, p, col);
    SkipPlain(s, p, q, cur);
    BodyScan(env, c, s, q, cur + col);
    assert cur + col + b == cur + r;
  }

  // ---------- all conditions ----------

  /** The texts from condition i on, joined by AND. */
  function TailFrom(raws: seq<string>, i: nat): string
    requires i < |raws|
    decreases |raws| - i
  {
    if i == |raws| - 1 then raws[i] else raws[i] + (" AND " + TailFrom(raws, i + 1))
  }

  lemma Joined(j: string, sep: string, a: string, b: string)
    ensures (j + sep + a) + (sep + b) == j + (sep + (a + (sep + b))) && j + sep + a == j + (sep + a)
  {
  }

  lemma {:induction false} JoinIsTail(raws: seq<string>, i: nat)
    requires i < |raws|
    ensures Join(raws, " AND ") == if i == 0 then TailFrom(raws, 0) else Join(raws[..i], " AND ") + (" AND " + TailFrom(raws, i))
    decreases |raws| - i
  {
    hide Join;
    JoinSnoc(raws[..i], raws[i], " AND ");
    var j := Join(raws[..i], " AND ");
    if i == |raws| - 1 {
      assert raws[..i] + [raws[i]] == raws;
      Joined(j, " AND ", raws[i], "");
    } else {
      JoinIsTail(raws, i + 1);
      assert raws[..i + 1] == raws[..i] + [raws[i]];
      Joined(j, " AND ", raws[i], TailFrom(raws, i + 1));
    }
  }

  function Opening(i: nat): string { if i == 0 then "" else " " }

  function Closing(n: nat, i: nat): string { if i + 1 == n then "" else " " }

  /** The term that splitting makes of condition i. */
  function TermAt(env: Env, conds: seq<Cond>, i: nat): string
    requires i < |conds|
  {
    Opening(i) + Raw(env, conds[i]) + Closing(|conds|, i)
  }

  function TermsFrom(env: Env, conds: seq<Cond>, i: nat): (r: seq<string>)
    requires i <= |conds|
    ensures |r| == |conds| - i
  {
    seq(|conds| - i, k requires 0 <= k < |conds| - i => TermAt(env, conds, i + k))
  }

  /** Splitting that makes ParseFilter give up. */
  predicate Spoiled(space: set<char>, r: Option<seq<string>>) {
    r == None || !NoBlank(space, r.value)
  }

  lemma TermsStep(env: Env, conds: seq<Cond>, i: nat)
    requires i < |conds|
    ensures TermsFrom(env, conds, i) == [TermAt(env, conds, i)] + TermsFrom(env, conds, i + 1)
  {
    hide TermAt;
  }

  lemma SpoiledMore(space: set<char>, t: string, r: Option<seq<string>>)
    requires Spoiled(space, r)
    ensures Spoiled(space, match r case None => None case Some(more) => Some([t] + more))
  {
    if r.Some? {
      var i :| 0 <= i < |r.value| && Trim(space, r.value[i]) == [];
      assert ([t] + r.value)[i + 1] == r.value[i];
    }
  }

  /** A column that is one of the words spoils the splitting. */
  lemma AndOrSpoils(env: Env, c: Cond, s: string, p: nat, cur: string)
    requires env.Valid() && Bare(c.column) && AndOr(c.column) && Pad(cur)
    requires p <= |s| && (p > 0 ==> s[p - 1] == ' ')
    requires p + |c.column| < |s| && s[p..p + |c.column|] == c.column && s[p + |c.column|] == ' '
    ensures Spoiled(env.space, Split(s, p, cur))
  {
    hide IsKeyword, Trim;
    var col := c.column;
    ColumnKeyword(s, p, col, "OR");
    ColumnKeyword(s, p, col, "AND");
    assert s[p] == s[p..p + |col|][0] == col[0];
    hide KeywordAt;
    if !KeywordAt(s, p, "OR") {
      PadIsBlank(env, cur);
      if Split(s, p, cur).Some? {
        assert Split(s, p, cur).value[0] == cur;
      }
    }
  }

  lemma PadIsBlank(env: Env, cur: string)
    requires env.Valid() && Pad(cur)
    ensures Trim(env.space, cur) == []
  {
    assert ' ' in env.space;
  }

  /** The AND between two conditions. */
  lemma AndScan(s: string, q: nat, cur: string)
    requires q + 5 <= |s| && s[q..q + 5] == " AND "
    ensures Split(s, q, cur) ==
            match Split(s, q + 5, " ") { case None => None case Some(more) => Some([cur + " "] + more) }
  {
    assert s[q] == s[q..q + 5][0] == ' ' && s[q + 1] == s[q..q + 5][1] == 'A' && s[q + 2] == s[q..q + 5][2] == 'N';
    assert s[q + 3] == s[q..q + 5][3] == 'D' && s[q + 4] == s[q..q + 5][4] == ' ';
    assert KeywordAt(s, q + 1, "AND") by {
      assert s[q + 1..][0] == 'A' && s[q + 1..][1] == 'N' && s[q + 1..][2] == 'D';
    }
    assert !HasPrefixFold(s[q + 1..], "OR") by { assert "OR"[0] == 'O'; assert s[q + 1..][0] == 'A'; }
    SpacePlain(s, q);
    SpacePlain(s, q + 4);
    hide KeywordAt;
    assert Split(s, q, cur) == Split(s, q + 1, cur + [' ']);
    assert Split(s, q + 4, "") == Split(s, q + 5, "" + [' ']);
    assert "" + [' '] == " " && cur + [' '] == cur + " ";
  }

  lemma SpacePlain(s: string, k: nat)
    requires k < |s| && s[k] == ' '
    ensures PlainAt(s, k)
  {
    assert s[k..][0] == ' ';
    assert "OR"[0] == 'O' && "AND"[0] == 'A';
  }

  predicate NoWords(conds: seq<Cond>, i: nat) {
    forall j :: i <= j < |conds| ==> !AndOr(conds[j].column)
  }

  predicate AllBare(conds: seq<Cond>) { forall j :: 0 <= j < |conds| ==> Bare(conds[j].column) }

  /** One condition, up to the next one. */
  lemma SplitOne(env: Env, c: Cond, s: string, p: nat, cur: string, rest: string)
    requires env.Valid() && Refuses(env, c) == None && Bare(c.column) && !AndOr(c.column)
    requires p <= |s| && s[p..] == Raw(env, c) + rest && (p > 0 ==> s[p - 1] == ' ') && (rest != [] ==> rest[0] == ' ')
    ensures p + |Raw(env, c)| <= |s| && s[p + |Raw(env, c)|..] == rest
    ensures Split(s, p, cur) == Split(s, p + |Raw(env, c)|, cur + Raw(env, c))
  {
    hide Split, Raw, Refuses, Bare, AndOr;
    PartsOf(s, p, Raw(env, c), rest);
    RawScan(env, c, s, p, cur);
  }

  /** The AND, and the rest of the conditions. */
  lemma SplitAnother(s: string, q: nat, cur: string, tail: string)
    requires q <= |s| && s[q..] == " AND " + tail
    ensures q + 5 <= |s| && s[q + 5..] == tail && s[q + 4] == ' '
    ensures Split(s, q, cur) ==
            match Split(s, q + 5, " ") { case None => None case Some(more) => Some([cur + " "] + more) }
  {
    hide Split;
    PartsOf(s, q, " AND ", tail);
    AndScan(s, q, cur);
  }

  lemma SplitBad(env: Env, c: Cond, s: string, p: nat, cur: string, rest: string)
    requires env.Valid() && Bare(c.column) && AndOr(c.column) && Pad(cur)
    requires p <= |s| && s[p..] == Raw(env, c) + rest && (p > 0 ==> s[p - 1] == ' ')
    ensures Spoiled(env.space, Split(s, p, cur))
  {
    hide Split, Raw, Bare, AndOr, Body, Spoiled;
    RawIs(env, c);
    assert Raw(env, c) + rest == c.column + (Body(env, c) + rest);
    PartsOf(s, p, c.column, Body(env, c) + rest);
    AndOrSpoils(env, c, s, p, cur);
  }

  lemma {:induction false} SplitFrom(env: Env, conds: seq<Cond>, s: string, p: nat, i: nat)
    requires env.Valid() && Accepted(env, conds) && AllBare(conds) && i < |conds|
    requires p <= |s| && s[p..] == TailFrom(Raws(env, conds), i) && (p > 0 ==> s[p - 1] == ' ')
    ensures if NoWords(conds, i) then Split(s, p, Opening(i)) == Some(TermsFrom(env, conds, i))
            else Spoiled(env.space, Split(s, p, Opening(i)))
    decreases |conds| - i
  {
    hide Split, Raw, Refuses, Trim, Spoiled, TermAt, TermsFrom, Bare, AndOr;
    var c, raws := conds[i], Raws(env, conds);
    var q := p + |Raw(env, c)|;
    var rest := if i == |conds| - 1 then "" else " AND " + TailFrom(raws, i + 1);
    assert s[p..] == Raw(env, c) + rest;
    if AndOr(c.column) {
      SplitBad(env, c, s, p, Opening(i), rest);
    } else {
      SplitOne(env, c, s, p, Opening(i), rest);
      TermsStep(env, conds, i);
      if i == |conds| - 1 {
        SplitEnd(s, Opening(i) + Raw(env, c));
        LastTerm(env, conds, i);
        assert [TermAt(env, conds, i)] + [] == [TermAt(env, conds, i)];
      } else {
        SplitAnother(s, q, Opening(i) + Raw(env, c), TailFrom(raws, i + 1));
        SplitFrom(env, conds, s, q + 5, i + 1);
        InnerTerm(env, conds, i);
        if !NoWords(conds, i + 1) { SpoiledMore(env.space, TermAt(env, conds, i), Split(s, q + 5, " ")); }
      }
    }
  }

  lemma PartsOf(s: string, p: nat, a: string, b: string)
    requires p <= |s| && s[p..] == a + b
    ensures p + |a| <= |s| && s[p..p + |a|] == a && s[p + |a|..] == b
    ensures b != [] ==> p + |a| < |s| && s[p + |a|] == b[0]
    ensures b == [] ==> p + |a| == |s|
    ensures a != [] ==> s[p + |a| - 1] == a[|a| - 1]
  {
    var w := s[p..];
    assert |w| == |a| + |b|;
    assert s[p..p + |a|] == w[..|a|] && s[p + |a|..] == w[|a|..];
    assert a != [] ==> w[|a| - 1] == a[|a| - 1];
    assert b != [] ==> w[|a|] == b[0];
  }

  lemma SplitEnd(s: string, cur: string)
    ensures Split(s, |s|, cur) == Some([cur])
  {
  }

  lemma LastTerm(env: Env, conds: seq<Cond>, i: nat)
    requires i + 1 == |conds|
    ensures TermAt(env, conds, i) == Opening(i) + Raw(env, conds[i]) && TermsFrom(env, conds, i + 1) == []
  {
    hide Raw;
    assert Opening(i) + Raw(env, conds[i]) + "" == Opening(i) + Raw(env, conds[i]);
  }

  lemma InnerTerm(env: Env, conds: seq<Cond>, i: nat)
    requires i + 1 < |conds|
    ensures TermAt(env, conds, i) == Opening(i) + Raw(env, conds[i]) + " "
  {
  }

  // ---------- parsing the terms back ----------

  predicate AllFaithful(env: Env, conds: seq<Cond>, n: nat)
    requires n <= |conds|
  {
    forall j :: 0 <= j < n ==> Faithful(env, conds[j])
  }

  lemma TermBack(env: Env, e: Engine, conds: seq<Cond>, i: nat, n: nat)
    requires env.Valid() && Accepted(env, conds) && AllBare(conds) && i < |conds|
    ensures var c := conds[i];
            var r := ParseTerm(env, e, TermAt(env, conds, i), n);
            && (r == None ==> !Faithful(env, c))
            && (r.Some? ==> r.value.expr == Expr(e, c, n) && (r.value.value.Some? <==> c.op.NeedsValue()))
            && (r.Some? && c.op.NeedsValue() ==> (r.value.value == BindValue(env, c) <==> Faithful(env, c)))
            && (!c.op.NeedsValue() ==> Faithful(env, c))
  {
    hide BindValue, Raw, Shown, ParseTerm, ParseLiteral, Expr, Trim, NumberLiteral, Lower;
    var c := conds[i];
    TermReads(env, e, c, Opening(i), Closing(|conds|, i), n);
    if c.op.NeedsValue() { LiteralReads(env, c); }
  }

  /** The first j terms parse to the expressions of the first j conditions, and
      to their values exactly when all of them are faithful. */
  lemma {:induction false} ParsedTo(env: Env, e: Engine, conds: seq<Cond>, j: nat)
    requires env.Valid() && Accepted(env, conds) && AllBare(conds) && j <= |conds|
    ensures var r := ParseTerms(env, e, TermsFrom(env, conds, 0)[..j]);
            var args := Args(env, conds[..j]);
            && (r == None ==> !AllFaithful(env, conds, j))
            && (r.Some? ==> r.value.exprs == Exprs(env, e, conds[..j]) && |r.value.args| == |args|
                            && (r.value.args == args <==> AllFaithful(env, conds, j)))
  {
    hide BindValue, TermAt, ParseTerm, Expr, Faithful, Args, Exprs, Refuses, ParseTerms, Bare;
    var ts := TermsFrom(env, conds, 0);
    if j == 0 {
      NothingBuilt(env, e);
      assert conds[..0] == [] && ts[..0] == [];
      ParseNone(env, e);
    } else {
      var i := j - 1;
      ParsedTo(env, e, conds, i);
      ParseStep(env, e, ts, i);
      var r := ParseTerms(env, e, ts[..i]);
      OneMore(env, e, conds, i);
      if r.Some? {
        TermBack(env, e, conds, i, |r.value.args| + 1);
        AcceptedValue(env, conds[i]);
        var t := ParseTerm(env, e, ts[i], |r.value.args| + 1);
        if t.Some? {
          var got, want := r.value.args, Args(env, conds[..i]);
          if conds[i].op.NeedsValue() {
            LastEqual(got, t.value.value.value, want, BindValue(env, conds[i]).value);
          } else {
            assert got + [] == got && want + [] == want;
          }
        }
      }
    }
  }

  lemma ParseNone(env: Env, e: Engine)
    ensures ParseTerms(env, e, []) == Some(Parsed([], []))
  {
  }

  lemma ParseStep(env: Env, e: Engine, ts: seq<string>, i: nat)
    requires i < |ts|
    ensures ParseTerms(env, e, ts[..i + 1]) ==
            match ParseTerms(env, e, ts[..i]) {
              case None => None
              case Some(p) =>
                match ParseTerm(env, e, ts[i], |p.args| + 1)
                case None => None
                case Some(t) => Some(Parsed(p.exprs + [t.expr], p.args + match t.value case Some(v) => [v] case None => []))
            }
  {
    hide ParseTerm;
    assert ts[..i + 1][..i] == ts[..i];
  }

  lemma AcceptedValue(env: Env, c: Cond)
    requires Refuses(env, c) == None
    ensures c.op.NeedsValue() ==> BindValue(env, c).Some?
  {
    hide BindValue;
  }

  lemma LastEqual<T>(a: seq<T>, x: T, b: seq<T>, y: T)
    requires |a| == |b|
    ensures a + [x] == b + [y] <==> a == b && x == y
  {
    if a + [x] == b + [y] {
      assert a == (a + [x])[..|a|] == (b + [y])[..|b|] == b;
      assert (a + [x])[|a|] == (b + [y])[|b|];
    }
  }

  lemma TermsNotBlank(env: Env, conds: seq<Cond>)
    requires env.Valid() && AllBare(conds)
    ensures NoBlank(env.space, TermsFrom(env, conds, 0))
  {
    hide Raw, Trim;
    var ts := TermsFrom(env, conds, 0);
    forall i | 0 <= i < |ts|
      ensures Trim(env.space, ts[i]) != []
    {
      var c := conds[i];
      RawIs(env, c);
      assert Bare(c.column);
      var t := ts[i];
      assert t[|Opening(i)|] == c.column[0];
      NotBlankAt(env.space, t, |Opening(i)|);
    }
  }

  lemma NotBlankAt(cs: set<char>, s: string, i: nat)
    requires i < |s| && s[i] !in cs
    ensures Trim(cs, s) != []
  {
    var n := Run(cs, s);
    assert n <= i;
    var r := s[n..];
    var t := TrimRight(cs, r);
    assert r[i - n] == s[i];
  }

  /** The text as a whole: it starts with the first column and ends with the
      last value. */
  lemma TextEnds(env: Env, conds: seq<Cond>)
    requires env.Valid() && Accepted(env, conds) && AllBare(conds) && conds != []
    ensures var s := Join(Raws(env, conds), " AND ");
            var col := conds[0].column;
            && s == TailFrom(Raws(env, conds), 0)
            && |s| > |col| && s[..|col|] == col && s[|col|] == ' '
            && Trim(env.space, s) == s
  {
    hide Raw, Trim, Join;
    var raws := Raws(env, conds);
    JoinIsTail(raws, 0);
    var s := TailFrom(raws, 0);
    RawIs(env, conds[0]);
    var col, b := conds[0].column, Body(env, conds[0]);
    var rest := if |raws| == 1 then "" else " AND " + TailFrom(raws, 1);
    assert s == raws[0] + rest == col + (b + rest);
    TailEnds(env, conds, 0);
    assert Bare(col);
    TrimSame(env.space, s);
  }

  lemma {:induction false} TailEnds(env: Env, conds: seq<Cond>, i: nat)
    requires env.Valid() && Accepted(env, conds) && i < |conds|
    ensures var s := TailFrom(Raws(env, conds), i); s != [] && s[|s| - 1] !in env.space
    decreases |conds| - i
  {
    hide Raw, Refuses;
    var raws := Raws(env, conds);
    if i == |conds| - 1 {
      RawEnds(env, conds[i]);
    } else {
      TailEnds(env, conds, i + 1);
      var t := TailFrom(raws, i + 1);
      var s := TailFrom(raws, i);
      assert s[|s| - 1] == t[|t| - 1];
    }
  }

  lemma RawEnds(env: Env, c: Cond)
    requires env.Valid() && Refuses(env, c) == None
    ensures var s := Raw(env, c); s != [] && s[|s| - 1] !in env.space
  {
    hide Shown, BindValue, Trim;
    var s, b := Raw(env, c), Body(env, c);
    RawIs(env, c);
    assert s[|s| - 1] == b[|b| - 1];
    if c.op.NeedsValue() {
      hide Op.Spelling;
      ShownEnds(env, c);
      var shown := Shown(env, c);
      assert b[|b| - 1] == shown[|shown| - 1];
    } else {
      assert b[|b| - 1] == 'L';
    }
  }

  /** When the first column is not the word WHERE, the text reads back to the
      filter exactly when every value is written the way it reads and no column
      is AND or OR. */
  lemma ReadsBack(env: Env, e: Engine, conds: seq<Cond>)
    requires env.Valid() && Accepted(env, conds) && AllBare(conds) && conds != []
    requires !IsKeyword(conds[0].column, "WHERE")
    ensures var f := Whole(env, e, conds);
            Parse(env, e, f.raw) == Some(f) <==> NoWords(conds, 0) && AllFaithful(env, conds, |conds|)
  {
    hide Refuses, Raw, Trim, Join, Split, TermAt, TermsFrom, ParseTerms, Exprs, Args, Faithful, Bare, AndOr, IsKeyword;
    var f := Whole(env, e, conds);
    TextEnds(env, conds);
    assert Bare(conds[0].column);
    assert f.raw[0..|conds[0].column|] == f.raw[..|conds[0].column|];
    ColumnKeyword(f.raw, 0, conds[0].column, "WHERE");
    assert f.raw[0..] == f.raw;
    SplitFrom(env, conds, f.raw, 0, 0);
    TermsNotBlank(env, conds);
    ParsedTo(env, e, conds, |conds|);
    var ts := TermsFrom(env, conds, 0);
    assert ts[..|conds|] == ts && conds[..|conds|] == conds;
  }

  // ---------- the word WHERE in front ----------

  lemma {:induction false} SplitPrefix(s: string, i: nat, cur: string)
    requires i <= |s|
    ensures var r := Split(s, i, cur); r.Some? ==> r.value != [] && |cur| <= |r.value[0]| && r.value[0][..|cur|] == cur
    decreases |s| - i
  {
    hide KeywordAt;
    if i < |s| && Split(s, i, cur).Some? {
      if IsQuote(s[i]) {
        var n := QuoteEnd(s, i + 1, s[i]).value;
        SplitPrefix(s, n, cur + s[i..n]);
      } else if !KeywordAt(s, i, "AND") {
        SplitPrefix(s, i + 1, cur + [s[i]]);
      }
    }
  }

  /** Neither an operator nor a null test starts at the first character of r
      that is not blank. */
  lemma TailNone(r: string, k: nat)
    requires k < |r| && (forall i :: 0 <= i < k ==> r[i] in Blank) && r[k] !in Blank
    requires var c := Upper(r[k]); c != '=' && c != '<' && c != '!' && c != '>' && c != 'N' && c != 'L'
    requires Upper(r[k]) == 'I' ==> k + 1 < |r| && Upper(r[k + 1]) != 'S' && Upper(r[k + 1]) != 'L'
    ensures NullTail(r) == None && OpTail(r) == None
  {
    hide Run;
    RunUnique(Blank, r, k);
    var x := r[k..];
    assert x[0] == r[k] && (k + 1 < |r| ==> x[1] == r[k + 1]);
    assert "IS"[0] == 'I' && "IS"[1] == 'S';
    SymbolsNeedSymbols(x);
    NotNotLike(x);
    NoLike(x);
  }

  lemma NoLike(x: string)
    requires x != [] && Upper(x[0]) != 'L' && (Upper(x[0]) == 'I' ==> |x| > 1 && Upper(x[1]) != 'L')
    ensures FirstOp(x, ["LIKE", "ILIKE"]) == None
  {
    assert "LIKE"[0] == 'L' && "ILIKE"[0] == 'I' && "ILIKE"[1] == 'L';
    var ops := ["LIKE", "ILIKE"];
    assert AfterOp(x, "LIKE") == None && AfterOp(x, "ILIKE") == None;
    Skip(x, ops, 0);
    Skip(x, ops, 1);
    NoOps(x, ops[2..]);
    assert ops[0..] == ops;
  }

  /** `NULL` and `NOT NULL` after a name that should be an IS. */
  lemma NullTextNone(r: string)
    requires (|r| >= 5 && r[..5] == " NULL") || (|r| >= 9 && r[..9] == " NOT NULL")
    ensures NullTail(r) == None && OpTail(r) == None
  {
    hide Run;
    var x := r[1..];
    assert r[0] == ' ' && r[1] == 'N';
    RunUnique(Blank, r, 1);
    assert x[0] == 'N';
    assert "IS"[0] == 'I';
    SymbolsNeedSymbols(x);
    NoLike(x);
    if x[1] == 'U' {
      assert "NOT"[1] == 'O';
    } else {
      assert r[..9][2] == r[2] && r[..9][3] == r[3] && r[..9][4] == r[4] && r[..9][5] == r[5];
      var y := x[3..];
      assert y[0] == ' ' && y[1] == 'N';
      RunUnique(Blank, y, 1);
      assert SkipBlank(y)[0] == 'N' && "LIKE"[0] == 'L';
    }
  }

  predicate Unmatched(t: string) { NullMatch(t) == None && CompareMatch(t) == None }

  lemma NoName(t: string)
    requires t != [] && t[0] !in Blank && !BareStart(t[0]) && t[0] != '"' && t[0] != '`'
    ensures Unmatched(t)
  {
    assert t[0..] == t;
  }

  /** A name of n characters with nothing to follow it, however short it is
      taken. */
  lemma {:induction false} NameOnly(t: string, n: nat)
    requires n <= |t| && forall k :: 1 <= k <= n ==> NullTail(t[k..]) == None && OpTail(t[k..]) == None
    ensures NullFrom(t, n) == None && CompareFrom(t, n) == None
  {
    hide NullTail, OpTail;
    if n > 0 {
      NameOnly(t, n - 1);
    }
  }

  lemma LikeUnmatched(t: string)
    requires |t| >= 6 && t[..6] == "LIKE '"
    ensures Unmatched(t)
  {
    hide Run, NullTail, OpTail, NullFrom, CompareFrom;
    var h := t[..6];
    assert t[0] == h[0] == 'L' && t[1] == h[1] == 'I' && t[2] == h[2] == 'K' && t[3] == h[3] == 'E';
    assert t[4] == h[4] == ' ' && t[5] == h[5] == '\'';
    assert forall c :: IdentByte(c) <==> c in IdentBytes;
    RunUnique(IdentBytes, t, 4);
    RunUnique(Blank, t, 0);
    assert t[0..] == t;
    TailNone(t[4..], 1);
    TailNone(t[3..], 0);
    TailNone(t[2..], 0);
    TailNone(t[1..], 0);
    NameOnly(t, 4);
  }

  lemma IsUnmatched(t: string, tail: string)
    requires tail == " NULL" || tail == " NOT NULL"
    requires |t| >= 2 + |tail| && t[..2 + |tail|] == "IS" + tail
    ensures Unmatched(t)
  {
    hide Run, NullTail, OpTail, NullFrom, CompareFrom;
    var h := t[..2 + |tail|];
    assert t[0] == h[0] == 'I' && t[1] == h[1] == 'S' && t[2] == h[2] == ' ';
    assert forall c :: IdentByte(c) <==> c in IdentBytes;
    RunUnique(IdentBytes, t, 2);
    RunUnique(Blank, t, 0);
    assert t[0..] == t;
    assert t[2..][..|tail|] == h[2..] == tail;
    NullTextNone(t[2..]);
    TailNone(t[1..], 0);
    NameOnly(t, 2);
  }

  /** What is left of a condition without its column does not start with a term. */
  lemma HeadlessUnmatched(env: Env, c: Cond, w: string)
    requires env.Valid() && Refuses(env, c) == None
    requires var b := Body(env, c)[1..]; |b| <= |w| && w[..|b|] == b && (|b| < |w| ==> w[|b|] == ' ')
    ensures var r := Split(w, 0, ""); r.Some? ==> r.value != [] && Unmatched(r.value[0])
  {
    hide Split, BindValue, Trim, Shown, Unmatched, Body, Op.Spelling, Refuses;
    RawIs(env, c);
    BodyHead(env, c);
    var b := Body(env, c)[1..];
    if c.op == Like {
      PrefixThrough("LIKE '", b, w);
      LikeHead(env, c, w);
    } else if c.op.NeedsValue() {
      PrefixThrough(c.op.Spelling(), b, w);
      SymbolHead(env, c, w);
    } else {
      NullHead(c, w);
    }
  }

  lemma PrefixThrough(a: string, b: string, w: string)
    requires a <= b && |b| <= |w| && w[..|b|] == b
    ensures a <= w
  {
    assert w[..|a|] == b[..|a|];
  }

  lemma BodyHead(env: Env, c: Cond)
    requires Refuses(env, c) == None
    ensures Body(env, c) != []
    ensures var b := Body(env, c)[1..];
            && (c.op.NeedsValue() ==> c.op.Spelling() <= b)
            && (c.op == Like ==> "LIKE '" <= b)
            && (!c.op.NeedsValue() ==> b == c.op.Spelling())
  {
    hide Op.Spelling, Shown, Refuses, BindValue;
    var sp := c.op.Spelling();
    if c.op.NeedsValue() {
      assert Body(env, c)[1..] == sp + (" " + Shown(env, c));
      if c.op == Like {
        LikeIsText(env, c);
        ShownQuoted(env, c);
        LikeQuote(sp, Shown(env, c), Body(env, c)[1..]);
      }
    } else {
      assert Body(env, c) == " " + sp + "";
    }
  }

  lemma LikeIsText(env: Env, c: Cond)
    requires c.op == Like
    ensures BindValue(env, c) == Some(Text(c.value))
  {
  }

  lemma LikeQuote(sp: string, shown: string, b: string)
    requires sp == Like.Spelling() && shown != [] && shown[0] == '\'' && b == sp + (" " + shown)
    ensures "LIKE '" <= b
  {
    assert b[4] == ' ' && b[5] == shown[0];
    assert b[..4] == "LIKE";
  }

  lemma NullHead(c: Cond, w: string)
    requires !c.op.NeedsValue()
    requires var b := c.op.Spelling(); |b| <= |w| && w[..|b|] == b && (|b| < |w| ==> w[|b|] == ' ')
    ensures var r := Split(w, 0, ""); r.Some? ==> r.value != [] && Unmatched(r.value[0])
  {
    hide Split, Unmatched, PlainAt, Calm;
    var b := c.op.Spelling();
    var tail := if c.op == IsNull then " NULL" else " NOT NULL";
    assert b == "IS" + tail;
    hide Op.Spelling;
    assert w[0..|b|] == w[..|b|];
    NullOpCalm(c.op);
    CalmPlain(w, 0, b);
    SkipPlain(w, 0, |b|, "");
    assert "" + w[0..|b|] == b;
    SplitPrefix(w, |b|, b);
    var r := Split(w, 0, "");
    if r.Some? { IsUnmatched(r.value[0], tail); }
  }

  lemma NullOpCalm(op: Op)
    requires !op.NeedsValue()
    ensures Calm(op.Spelling())
  {
    var t := op.Spelling();
    forall i | 0 <= i < |t|
      ensures CalmAt(t, i)
    {
      AndNeeds(t, i);
    }
  }

  lemma SymbolHead(env: Env, c: Cond, w: string)
    requires c.op.NeedsValue() && !c.op.Like? && c.op.Spelling() <= w
    ensures var r := Split(w, 0, ""); r.Some? ==> r.value != [] && Unmatched(r.value[0])
  {
    hide Unmatched, Split;
    assert w[0] == c.op.Spelling()[0];
    assert PlainAt(w, 0) by { assert w[0..][0] == w[0]; assert "OR"[0] == 'O' && "AND"[0] == 'A'; }
    SkipPlain(w, 0, 1, "");
    assert "" + w[0..1] == [w[0]];
    SplitPrefix(w, 1, [w[0]]);
    var r := Split(w, 0, "");
    if r.Some? {
      assert r.value[0][..1][0] == w[0];
      NoName(r.value[0]);
    }
  }

  lemma LikeHead(env: Env, c: Cond, w: string)
    requires c.op == Like && "LIKE '" <= w
    ensures var r := Split(w, 0, ""); r.Some? ==> r.value != [] && Unmatched(r.value[0])
  {
    hide Unmatched;
    var h := "LIKE ";
    assert w[..5] == h && w[5] == '\'' && w[0..5] == h;
    LikeCalm();
    CalmPlain(w, 0, h);
    SkipPlain(w, 0, 5, "");
    assert "" + w[0..5] == h;
    assert Split(w, 0, "") == Split(w, 5, h);
    var r := Split(w, 5, h);
    if r.Some? {
      var n := QuoteEnd(w, 6, '\'').value;
      SplitPrefix(w, n, h + w[5..n]);
      var t := r.value[0];
      assert t[..|h + w[5..n]|][..6] == t[..6];
      assert (h + w[5..n])[..6] == "LIKE '";
      LikeUnmatched(t);
    }
  }

  lemma LikeCalm()
    ensures Calm("LIKE ")
  {
    var t := "LIKE ";
    forall i | 0 <= i < |t|
      ensures CalmAt(t, i)
    {
      AndNeeds(t, i);
    }
  }

  /** The text after a column called WHERE. */
  function Headless(env: Env, conds: seq<Cond>): string
    requires conds != []
  {
    Body(env, conds[0])[1..] + if |conds| == 1 then "" else " AND " + TailFrom(Raws(env, conds), 1)
  }

  lemma WhereCut(env: Env, conds: seq<Cond>)
    requires env.Valid() && Accepted(env, conds) && AllBare(conds) && conds != []
    requires IsKeyword(conds[0].column, "WHERE")
    ensures var s := Join(Raws(env, conds), " AND "); Trim(env.space, s) != [] && Fragment(env.space, s) == Headless(env, conds)
  {
    hide Raw, Trim, Join, Body, IsKeyword, KeywordAt, Refuses;
    var col, raws := conds[0].column, Raws(env, conds);
    var s := Join(raws, " AND ");
    KeywordLength(col);
    TextEnds(env, conds);
    assert s[0..|col|] == s[..|col|];
    ColumnKeyword(s, 0, col, "WHERE");
    RawIs(env, conds[0]);
    var b, w := Body(env, conds[0]), Headless(env, conds);
    var rest := if |raws| == 1 then "" else " AND " + TailFrom(raws, 1);
    assert s == raws[0] + rest == col + (b + rest);
    BodyEnds(env, conds[0]);
    assert b == " " + b[1..];
    assert s[5..] == " " + w + "";
    TailEnds(env, conds, 0);
    assert w[|w| - 1] == s[|s| - 1];
    assert ' ' in env.space;
    TrimPad(env.space, " ", w, "");
  }

  /** A first column called WHERE is cut off as the keyword. */
  lemma WhereLost(env: Env, e: Engine, conds: seq<Cond>)
    requires env.Valid() && Accepted(env, conds) && AllBare(conds) && conds != []
    requires IsKeyword(conds[0].column, "WHERE")
    ensures var f := Whole(env, e, conds); Parse(env, e, f.raw) == Some(Filter(Fragment(env.space, f.raw), [], f.raw, true))
  {
    hide Raw, Trim, Join, Split, ParseTerm, Exprs, Args, Body, Unmatched, IsKeyword, Fragment, NoBlank, Refuses, ParseTerms, TailFrom;
    WhereCut(env, conds);
    BodyEnds(env, conds[0]);
    var b, w := Body(env, conds[0]), Headless(env, conds);
    assert w[..|b| - 1] == b[1..];
    HeadlessUnmatched(env, conds[0], w);
    if SplitTerms(env.space, w).Some? {
      var ts := SplitTerms(env.space, w).value;
      UnmatchedTerm(env, e, ts[0]);
      ParseStep(env, e, ts, 0);
      assert ts[..0] == [];
      ParseNone(env, e);
      ParseStops(env, e, ts, 1);
    }
  }

  lemma KeywordLength(col: string)
    requires IsKeyword(col, "WHERE")
    ensures |col| == 5
  {
  }

  lemma BodyEnds(env: Env, c: Cond)
    requires env.Valid()
    ensures var b := Body(env, c); |b| > 1 && b[1] !in env.space
  {
    hide Shown;
    assert Body(env, c)[1] == c.op.Spelling()[0];
  }

  lemma UnmatchedTerm(env: Env, e: Engine, t: string)
    requires Unmatched(t)
    ensures ParseTerm(env, e, t, 1) == None
  {
  }

  /** The text of a filter on bare columns, parsed, is that filter exactly when
      every value is written the way it reads, no column is AND or OR, and the
      first is not WHERE. */
  lemma RoundTrip(env: Env, e: Engine, conds: seq<Cond>)
    requires env.Valid() && Accepted(env, conds) && AllBare(conds) && conds != []
    ensures var f := Whole(env, e, conds);
            Parse(env, e, f.raw) == Some(f) <==>
            !IsKeyword(conds[0].column, "WHERE") && NoWords(conds, 0) && AllFaithful(env, conds, |conds|)
  {
    hide Parse, Fragment, NoWords, AllFaithful, IsKeyword, Accepted, AllBare;
    if IsKeyword(conds[0].column, "WHERE") {
      WhereLost(env, e, conds);
    } else {
      ReadsBack(env, e, conds);
    }
  }

  /** Text, LIKE and null tests are always written the way they read: whatever
      quotes, parentheses or ANDs the values hold. */
  lemma TextRoundTrip(env: Env, e: Engine, conds: seq<Cond>)
    requires env.Valid() && Accepted(env, conds) && AllBare(conds) && conds != []
    requires !IsKeyword(conds[0].column, "WHERE") && NoWords(conds, 0)
    requires forall i :: 0 <= i < |conds| ==>
               !conds[i].op.NeedsValue() || conds[i].op == Like || TypeClass(env, conds[i].typ) == TextClass
    ensures Parse(env, e, Whole(env, e, conds).raw) == Some(Whole(env, e, conds))
  {
    hide Parse, Whole, Accepted, AllBare, IsKeyword, NoWords, TypeClass, BindValue, Faithful;
    forall i | 0 <= i < |conds|
      ensures Faithful(env, conds[i])
    {
      TextFaithful(env, conds[i]);
    }
    RoundTrip(env, e, conds);
  }

  lemma TextFaithful(env: Env, c: Cond)
    requires !c.op.NeedsValue() || c.op == Like || TypeClass(env, c.typ) == TextClass
    ensures Faithful(env, c)
  {
    hide TypeClass, NumberLiteral, Trim, Lower;
  }

  /** A boolean typed as t is shown as t, which reads as no value. */
  lemma BooleanLetterLost(env: Env, e: Engine)
    requires env.Valid() && "bool" in env.types && env.types["bool"] == BoolClass
    ensures var conds := [Cond("ok", Eq, "t", "bool")];
            Accepted(env, conds) && Parse(env, e, Whole(env, e, conds).raw) != Some(Whole(env, e, conds))
  {
    hide Parse, Whole, Accepted, AllBare, AllFaithful, IsKeyword, NoWords;
    BooleanLetter(env);
    RoundTrip(env, e, [Cond("ok", Eq, "t", "bool")]);
  }

  lemma BooleanLetter(env: Env)
    requires env.Valid() && "bool" in env.types && env.types["bool"] == BoolClass
    ensures var conds := [Cond("ok", Eq, "t", "bool")];
            Accepted(env, conds) && AllBare(conds) && !AllFaithful(env, conds, 1)
  {
    hide Trim, Lower, CutAt, NumberLiteral, ParseInt, ParseBool, TypeClass;
    var c := Cond("ok", Eq, "t", "bool");
    BoolName();
    LettersTrimmed(env);
    BoolClassed(env);
    assert BindValue(env, c) == Some(Bool(true));
    assert [c][0] == c;
  }

  lemma LettersTrimmed(env: Env)
    requires env.Valid()
    ensures Trim(env.space, "t") == "t" && Trim(env.space, "ok") == "ok" && Trim(env.space, "bool") == "bool"
  {
    assert 'o' !in env.space && 'k' !in env.space && 't' !in env.space && 'b' !in env.space && 'l' !in env.space;
    hide Trim;
    TrimSame(env.space, "t");
    TrimSame(env.space, "ok");
    TrimSame(env.space, "bool");
  }

  lemma BoolClassed(env: Env)
    requires env.Valid() && "bool" in env.types && env.types["bool"] == BoolClass
    ensures TypeClass(env, "bool") == BoolClass
  {
    hide Trim, Lower, CutAt;
    LettersTrimmed(env);
    BoolName();
  }

  lemma BoolName()
    ensures Lower("bool") == "bool" && CutAt("bool") == "bool" && Lower("t") == "t" && ParseBool("t") == Some(true)
  {
    assert "bool"[1..] == "ool" && "ool"[1..] == "ol" && "ol"[1..] == "l" && "l"[1..] == "";
    assert CutAt("l") == "l" && CutAt("ol") == "ol" && CutAt("ool") == "ool";
  }
}
