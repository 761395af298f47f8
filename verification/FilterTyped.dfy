/** What a filter's values and a typed filter's words stand for: the parameter a
    value is bound as is the value that was typed, and the comparison a typed
    term is parsed into has the term's own column, operator and literal. */
module FilterTyped {
  import opened Wrappers
  import opened Text
  import Sqlhl
  import opened Literal
  import opened Ddl
  import opened Filters
  import opened FilterParse
  import opened FilterMeaning
  import opened InsertReading
  import opened ParameterReading
  import Placeholders

  // ---------- values ----------

  /** The text is n in decimal, with a sign or without. */
  predicate WritesSigned(text: string, n: int) {
    var signed := text != "" && (text[0] == '+' || text[0] == '-');
    var digits := if signed then text[1..] else text;
    && digits != "" && (forall i :: 0 <= i < |digits| ==> '0' <= digits[i] <= '9')
    && n == if signed && text[0] == '-' then -DigitsValue(digits) else DigitsValue(digits)
  }

  predicate Int64(n: int) { -0x8000_0000_0000_0000 <= n < 0x8000_0000_0000_0000 }

  /** The words strconv.ParseBool takes. */
  predicate WritesBool(text: string, b: bool) {
    if b then text in ["1", "t", "T", "true", "True", "TRUE"] else text in ["0", "f", "F", "false", "False", "FALSE"]
  }

  /** The argument is the value of the condition: text as it was typed, a number
      or a boolean without the space around it. */
  predicate ValueStands(env: Env, c: Cond, v: Arg) {
    var s := Trim(env.space, c.value);
    match v
    case Text(t) => t == c.value
    case Int(n) => WritesSigned(s, n) && Int64(n)
    case Float(f) => env.parseFloat(s) == Some(f)
    case Bool(b) => WritesBool(s, b)
  }

  /** The kinds of argument that go with a column: its declared type decides,
      and a LIKE always compares text. */
  predicate KindFits(env: Env, c: Cond, v: Arg) {
    if c.op == Like then v.Text?
    else
      match TypeClass(env, c.typ)
      case IntClass => v.Int? || v.Float?
      case FloatClass => v.Float?
      case BoolClass => v.Bool?
      case TextClass => v.Text?
      case UnknownClass => !v.Bool?
  }

  lemma IntWritten(s: string)
    requires ParseInt(s).Some?
    ensures WritesSigned(s, ParseInt(s).value) && Int64(ParseInt(s).value)
  {
    hide DigitsValue;
    var u := SkipSign(s);
    assert Run(Sqlhl.AsciiDigits, u) == |u|;
    assert s != "";
  }

  /** A condition's argument stands for its value, and is of a kind that goes
      with its column. */
  lemma ValueBound(env: Env, c: Cond)
    requires BindValue(env, c).Some?
    ensures var v := BindValue(env, c).value; ValueStands(env, c, v) && KindFits(env, c, v)
  {
    hide Trim, TypeClass, WritesSigned, ParseInt, NumberLiteral;
    var s := Trim(env.space, c.value);
    if ParseInt(s).Some? { IntWritten(s); }
  }

  // ---------- literals ----------

  /** The literal of a typed term, without the space around it, stands for the
      argument. */
  predicate LiteralStands(env: Env, lit: string, v: Arg) {
    var s := Trim(env.space, lit);
    match v
    case Text(t) => ReadQuoted(s, '\'', false) == Some(Found(t, ""))
    case Int(n) => WritesSigned(s, n) && Int64(n)
    case Float(f) => env.parseFloat(s) == Some(f)
    case Bool(b) => Spells(s, if b then "TRUE" else "FALSE")
  }

  /** Without a lone quote in it, a text is closed by the quote after it. */
  lemma {:induction false} NoLoneQuote(b: string)
    requires '\'' !in Strip(b)
    ensures QuotedBody(b + "'", '\'', false) == |b| + 1
  {
    var s := b + "'";
    if b == "" {
    } else if |b| > 1 && b[0] == '\'' && b[1] == '\'' {
      NoLoneQuote(b[2..]);
      assert s[2..] == b[2..] + "'";
    } else {
      assert b[0] == Strip(b)[0];
      NoLoneQuote(b[1..]);
      assert s[1..] == b[1..] + "'";
      assert forall c :: c in Strip(b[1..]) ==> c in Strip(b);
    }
  }

  lemma TextLiteral(s: string)
    requires |s| >= 2 && s[0] == '\'' && s[|s| - 1] == '\'' && '\'' !in Strip(Inside(s))
    ensures ReadQuoted(s, '\'', false) == Some(Found(Unescape(Inside(s), '\'', false), ""))
  {
    NoLoneQuote(Inside(s));
    hide QuotedBody, Unescape, Strip;
    assert s[1..] == Inside(s) + "'";
    assert s[1..|s| - 1] == Inside(s) && s[|s|..] == "";
  }

  lemma BoolWord(s: string, b: bool)
    requires Lower(s) == if b then "true" else "false"
    ensures Spells(s, if b then "TRUE" else "FALSE")
  {
    var w, l := if b then "TRUE" else "FALSE", Lower(s);
    assert |s| == |l| == |w|;
    forall i | 0 <= i < |w|
      ensures s[i] == w[i] || s[i] == LowerChar(w[i])
    {
      assert l[i] == LowerChar(s[i]);
    }
  }

  lemma LiteralParsed(env: Env, lit: string)
    requires ParseLiteral(env, lit).Some?
    ensures LiteralStands(env, lit, ParseLiteral(env, lit).value)
  {
    hide Trim, Strip, Unescape, ReadQuoted, WritesSigned, ParseInt, NumberLiteral, Spells, Lower;
    var s := Trim(env.space, lit);
    if |s| >= 2 && s[0] == '\'' && s[|s| - 1] == '\'' {
      TextLiteral(s);
    } else if Lower(s) == "true" {
      BoolWord(s, true);
    } else if Lower(s) == "false" {
      BoolWord(s, false);
    } else if ParseInt(s).Some? {
      IntWritten(s);
    }
  }

  // ---------- names ----------

  /** A name in a typed term: what stands between its quotes, or itself. */
  predicate NameStands(name: string, column: string) {
    if name != "" && (name[0] == '"' || name[0] == '`') then ReadQuoted(name, name[0], false) == Some(Found(column, ""))
    else column == name
  }

  lemma {:induction false} QuoteEndCloses(s: string, i: nat, q: char)
    requires i <= |s| && QuoteEnd(s, i, q).Some?
    ensures var n := QuoteEnd(s, i, q).value; QuotedBody(s[i..n], q, false) == n - i && s[n - 1] == q
    decreases |s| - i
  {
    var n := QuoteEnd(s, i, q).value;
    var b := s[i..n];
    if s[i] != q {
      QuoteEndCloses(s, i + 1, q);
      assert b[1..] == s[i + 1..n];
    } else if i + 1 < |s| && s[i + 1] == q {
      QuoteEndCloses(s, i + 2, q);
      assert b[2..] == s[i + 2..n] && b[1] == q;
    }
  }

  lemma NameFound(t: string, n: nat)
    requires t != "" && 0 < n <= IdentLen(t) && (!BareStart(t[0]) ==> n == IdentLen(t))
    ensures NameStands(t[..n], UnquoteIdent(t[..n]))
  {
    var name, q := t[..n], t[0];
    if !BareStart(q) {
      QuoteEndCloses(t, 1, q);
      hide QuotedBody, Unescape, QuoteEnd;
      assert name[1..] == t[1..n] && name[|name|..] == "";
      assert name[1..|name| - 1] == Inside(name);
    }
  }

  // ---------- words ----------

  /** s without its blanks. */
  function Unblanked(s: string): string {
    if s == "" then "" else (if s[0] in Blank then "" else [s[0]]) + Unblanked(s[1..])
  }

  predicate AllBlank(s: string) { forall i :: 0 <= i < |s| ==> s[i] in Blank }

  lemma {:induction false} BlankGone(s: string, t: string)
    requires AllBlank(s)
    ensures Unblanked(s + t) == Unblanked(t)
  {
    if s == "" {
      assert s + t == t;
    } else {
      BlankGone(s[1..], t);
      assert (s + t)[1..] == s[1..] + t;
    }
  }

  lemma {:induction false} WordKept(w: string, t: string)
    requires forall i :: 0 <= i < |w| ==> w[i] !in Blank
    ensures Unblanked(w + t) == w + Unblanked(t)
  {
    if w == "" {
      assert w + t == t && "" + Unblanked(t) == Unblanked(t);
    } else {
      WordKept(w[1..], t);
      assert (w + t)[1..] == w[1..] + t;
      assert [w[0]] + (w[1..] + Unblanked(t)) == w + Unblanked(t);
    }
  }

  lemma PrefixSpells(s: string, p: string)
    requires HasPrefixFold(s, p) && forall i :: 0 <= i < |p| ==> p[i] !in Blank
    ensures Spells(s[..|p|], p) && forall i :: 0 <= i < |p| ==> s[i] !in Blank
  {
    forall i | 0 <= i < |p|
      ensures (s[i] == p[i] || s[i] == LowerChar(p[i])) && s[i] !in Blank
    {
      assert Upper(s[i]) == p[i];
    }
  }

  lemma SpellsBoth(a: string, p: string, b: string, q: string)
    requires Spells(a, p) && Spells(b, q)
    ensures Spells(a + b, p + q)
  {
  }

  /** What is left of the blanks at the front. */
  lemma BlanksCut(s: string)
    ensures var g := s[..Run(Blank, s)]; AllBlank(g) && s == g + SkipBlank(s)
  {
  }

  // ---------- operators ----------

  const SYMBOLS := ["=", "<>", "!=", ">=", "<=", ">", "<"]

  lemma {:induction false} FirstOpTyped(r: string, ops: seq<string>)
    requires FirstOp(r, ops).Some? && forall p :: p in ops ==> forall i :: 0 <= i < |p| ==> p[i] !in Blank
    ensures var (p, lit) := FirstOp(r, ops).value;
            && p in ops && |p| <= |r| && r == r[..|p|] + lit && lit != "" && Spells(Unblanked(r[..|p|]), p)
  {
    if AfterOp(r, ops[0]).Some? {
      var p := ops[0];
      assert p in ops;
      PrefixSpells(r, p);
      WordKept(r[..|p|], "");
      assert r[..|p|] + "" == r[..|p|] && Unblanked("") == "";
    } else {
      FirstOpTyped(r, ops[1..]);
    }
  }

  lemma LikeAlone(b: string)
    requires HasPrefixFold(b, "LIKE")
    ensures |b| >= 4 && Spells(Unblanked(b[..4]), "LIKE")
  {
    hide Spells, Unblanked;
    PrefixSpells(b, "LIKE");
    WordKept(b[..4], "");
    NothingUnblanked();
    assert b[..4] + "" == b[..4];
  }

  lemma NotThen(r: string, g: string, like: string)
    requires HasPrefixFold(r, "NOT") && AllBlank(g) && Spells(Unblanked(like), "LIKE")
    ensures Spells(Unblanked(r[..3] + (g + like)), "NOTLIKE")
  {
    hide Spells, Unblanked;
    PrefixSpells(r, "NOT");
    WordKept(r[..3], g + like);
    BlankGone(g, like);
    SpellsBoth(r[..3], "NOT", Unblanked(like), "LIKE");
    assert "NOT" + "LIKE" == "NOTLIKE";
  }

  lemma NotLikeTyped(r: string) returns (typed: string)
    requires NotLike(r).Some?
    ensures var (p, lit) := NotLike(r).value;
            p == "NOT LIKE" && r == typed + lit && lit != "" && Spells(Unblanked(typed), "NOTLIKE")
  {
    hide Spells, Unblanked, Run, SkipBlank, AllBlank;
    var a := r[3..];
    var g, b := a[..Run(Blank, a)], SkipBlank(a);
    BlanksCut(a);
    LikeAlone(b);
    NotThen(r, g, b[..4]);
    typed := r[..3] + (g + b[..4]);
    Regrouped(r[..3], g, b[..4], b[4..]);
    assert r == r[..3] + a && b == b[..4] + b[4..];
  }

  lemma Regrouped(a: string, g: string, l: string, rest: string)
    ensures a + (g + (l + rest)) == (a + (g + l)) + rest
  {
  }

  lemma NothingUnblanked()
    ensures Unblanked("") == ""
  {
  }

  const COMPARING := SYMBOLS + ["NOT LIKE", "LIKE", "ILIKE"]

  /** The words of an operator, in any case and with any blanks between them. */
  predicate WritesSymbol(typed: string, symbol: string) { Spells(Unblanked(typed), Unblanked(symbol)) }

  lemma SymbolsPlain()
    ensures forall p :: p in SYMBOLS || p in ["LIKE", "ILIKE"] ==> p in COMPARING && Unblanked(p) == p
    ensures "NOT LIKE" in COMPARING && Unblanked("NOT LIKE") == "NOTLIKE"
  {
    hide Unblanked;
    forall p | p in SYMBOLS || p in ["LIKE", "ILIKE"]
      ensures p in COMPARING && Unblanked(p) == p
    {
      WordKept(p, "");
      NothingUnblanked();
      assert p + "" == p;
    }
    WordKept("NOT", " LIKE");
    BlankGone(" ", "LIKE");
    assert "NOT" + " LIKE" == "NOT LIKE" && " " + "LIKE" == " LIKE" && "NOT" + "LIKE" == "NOTLIKE";
  }

  lemma OpTailTyped(s: string) returns (gap: string, typed: string)
    requires OpTail(s).Some?
    ensures var (symbol, lit) := OpTail(s).value;
            && s == gap + (typed + lit) && AllBlank(gap) && lit != ""
            && symbol in COMPARING && WritesSymbol(typed, symbol)
  {
    hide Unblanked, Spells, Run, NotLike, FirstOp;
    var r := SkipBlank(s);
    gap := s[..Run(Blank, s)];
    BlanksCut(s);
    SymbolsPlain();
    if FirstOp(r, SYMBOLS).Some? {
      FirstOpTyped(r, SYMBOLS);
      typed := r[..|FirstOp(r, SYMBOLS).value.0|];
    } else if NotLike(r).Some? {
      typed := NotLikeTyped(r);
    } else {
      FirstOpTyped(r, ["LIKE", "ILIKE"]);
      typed := r[..|FirstOp(r, ["LIKE", "ILIKE"]).value.0|];
    }
  }

  lemma {:induction false} CompareFromAt(t: string, n: nat) returns (k: nat)
    requires n <= |t| && CompareFrom(t, n).Some?
    ensures 0 < k <= n && (!BareStart(t[0]) ==> k == n)
    ensures CompareFrom(t, n).value.0 == t[..k]
    ensures OpTail(t[k..]) == Some((CompareFrom(t, n).value.1, CompareFrom(t, n).value.2))
    decreases n
  {
    hide OpTail;
    if OpTail(t[n..]).Some? {
      k := n;
    } else {
      k := CompareFromAt(t, n - 1);
    }
  }

  /** A comparing operator is read as it stands in front of a marker. */
  lemma SymbolRead(symbol: string, u: string)
    requires symbol in COMPARING && u != "" && u[0] == ' '
    ensures ReadSymbol(symbol + u) == symbol && symbol != "IS NULL" && symbol != "IS NOT NULL"
  {
    var s := symbol + u;
    if symbol == "NOT LIKE" {
      assert symbol <= s && s[0] == 'N';
    } else {
      assert s[0] == symbol[0] && (symbol[0] == 'I' ==> s[1] == 'L') && symbol[0] != 'N';
      IndexOrEndUnique(s, ' ', |symbol|);
      assert s[..|symbol|] == symbol;
    }
  }

  lemma TermRead(e: Engine, column: string, symbol: string, n: nat)
    requires symbol in COMPARING
    ensures var m := Placeholders.Marker(e, n);
            ReadComparison(e, QuoteIdent(e, column) + (" " + (symbol + (" " + m)))) ==
            Some(Found(Comparison(column, symbol, m), ""))
  {
    hide QuoteIdent, ReadName, ReadSymbol, Placeholders.Marker;
    var m := Placeholders.Marker(e, n);
    var t := symbol + (" " + m);
    NameOf(e, column, " " + t);
    SkipOf(" ", t);
    SymbolRead(symbol, " " + m);
    SkipOf(symbol, " " + m);
    SkipOf(" ", m);
    MarkerWord(e, n);
    IndexOrEndUnique(m, ' ', |m|);
    assert m[..|m|] == m && m[|m|..] == "";
  }

  /** A literal does not go on with the characters of an operator, so the
      operator in front of it was taken whole. */
  lemma LiteralBegins(env: Env, lit: string)
    requires env.Valid() && ParseLiteral(env, lit).Some? && lit != ""
    ensures lit[0] !in "=<>"
  {
    hide Strip, Unescape, ReadQuoted, ParseInt, Lower;
    var s := Trim(env.space, lit);
    if lit[0] in "=<>" {
      assert lit[0] !in env.space;
      TrimStarts(env.space, lit);
      assert s[0] == lit[0];
      NotABool(s);
      NotANumber(s);
    }
  }

  lemma TrimStarts(cs: set<char>, s: string)
    requires s != "" && s[0] !in cs
    ensures Trim(cs, s) != "" && Trim(cs, s)[0] == s[0]
  {
    assert s[0..] == s;
    var r := TrimRight(cs, s);
  }

  lemma NotABool(s: string)
    requires s != "" && s[0] in "=<>"
    ensures Lower(s) != "true" && Lower(s) != "false"
  {
    assert Lower(s)[0] == LowerChar(s[0]);
  }

  lemma NotANumber(s: string)
    requires s != "" && s[0] in "=<>"
    ensures ParseInt(s) == None && !NumberLiteral(s)
  {
    assert SkipSign(s) == s && Run(Sqlhl.AsciiDigits, s) == 0;
  }

  /** A typed comparison that is parsed keeps its meaning: the term is a name,
      an operator and a literal, and the filter compares the named column, by
      that operator, with the literal's value. */
  lemma TypedKept(env: Env, e: Engine, term: string, n: nat)
    returns (name: string, gap: string, typed: string, lit: string)
    requires env.Valid() && NullMatch(term) == None && ParseTerm(env, e, term, n).Some?
    ensures SkipBlank(term) == name + (gap + (typed + lit)) && AllBlank(gap) && lit != "" && lit[0] !in "=<>"
    ensures var p := ParseTerm(env, e, term, n).value;
            var c := ReadComparison(e, p.expr);
            && p.value.Some? && LiteralStands(env, lit, p.value.value)
            && c.Some? && c.value.rest == "" && c.value.value.marker == Placeholders.Marker(e, n)
            && NameStands(name, c.value.value.column)
            && c.value.value.symbol in COMPARING && WritesSymbol(typed, c.value.value.symbol)
  {
    hide NullMatch, SkipBlank, QuoteIdent, OpTail, IdentLen, UnquoteIdent, ParseLiteral, LiteralStands, NameStands,
      Placeholders.Marker, ReadComparison, WritesSymbol, AllBlank, COMPARING;
    var t := SkipBlank(term);
    var k := CompareFromAt(t, IdentLen(t));
    name := t[..k];
    lit := CompareMatch(term).value.2;
    gap, typed := OpTailTyped(t[k..]);
    NameFound(t, k);
    LiteralParsed(env, lit);
    LiteralBegins(env, lit);
    TermRead(e, UnquoteIdent(name), CompareMatch(term).value.1, n);
    assert t == name + t[k..];
  }

  // ---------- null tests ----------

  lemma {:induction false} NullFromAt(t: string, n: nat) returns (k: nat)
    requires n <= |t| && NullFrom(t, n).Some?
    ensures 0 < k <= n && (!BareStart(t[0]) ==> k == n)
    ensures NullFrom(t, n).value.0 == t[..k] && NullTail(t[k..]) == Some(NullFrom(t, n).value.1)
    decreases n
  {
    hide NullTail;
    if NullTail(t[n..]).Some? {
      k := n;
    } else {
      k := NullFromAt(t, n - 1);
    }
  }

  lemma NullWordTyped(r: string)
    requires NullWord(r)
    ensures Spells(Unblanked(r), "NULL")
  {
    hide Spells, Unblanked;
    PrefixSpells(r, "NULL");
    assert AllBlank(r[4..]) && r == r[..4] + r[4..] && r[4..] + "" == r[4..];
    WordKept(r[..4], r[4..]);
    BlankGone(r[4..], "");
    NothingUnblanked();
    assert r[..4] + "" == r[..4];
  }

  /** A word, blanks and the rest. */
  lemma WordThen(s: string, w: string, g: string, rest: string, v: string)
    requires HasPrefixFold(s, w) && (forall i :: 0 <= i < |w| ==> w[i] !in Blank)
    requires s[|w|..] == g + rest && AllBlank(g) && Spells(Unblanked(rest), v)
    ensures Spells(Unblanked(s), w + v)
  {
    hide Spells, Unblanked;
    PrefixSpells(s, w);
    assert s == s[..|w|] + s[|w|..];
    WordKept(s[..|w|], g + rest);
    BlankGone(g, rest);
    SpellsBoth(s[..|w|], w, Unblanked(rest), v);
  }

  lemma PrefixFits(s: string, p: string)
    requires HasPrefixFold(s, p)
    ensures |p| <= |s|
  {
  }

  lemma NotNullTyped(b: string)
    requires HasPrefixFold(b, "NOT") && NullWord(SkipBlank(b[3..]))
    ensures Spells(Unblanked(b), "NOTNULL")
  {
    hide Spells, Unblanked, NullWord, Run, HasPrefixFold;
    PrefixFits(b, "NOT");
    BlanksCut(b[3..]);
    NullWordTyped(SkipBlank(b[3..]));
    WordThen(b, "NOT", b[3..][..Run(Blank, b[3..])], SkipBlank(b[3..]), "NULL");
    assert "NOT" + "NULL" == "NOTNULL";
  }

  lemma IsTyped(a: string, v: string)
    requires HasPrefixFold(a, "IS") && Spells(Unblanked(SkipBlank(a[2..])), v)
    ensures Spells(Unblanked(a), "IS" + v)
  {
    hide Spells, Unblanked, Run, HasPrefixFold;
    PrefixFits(a, "IS");
    BlanksCut(a[2..]);
    WordThen(a, "IS", a[2..][..Run(Blank, a[2..])], SkipBlank(a[2..]), v);
  }

  lemma NullTailTyped(r: string)
    requires NullTail(r).Some?
    ensures Spells(Unblanked(r), if NullTail(r).value then "ISNOTNULL" else "ISNULL")
  {
    hide Spells, Unblanked, NullWord, SkipBlank, AllBlank;
    var a := SkipBlank(r);
    BlanksCut(r);
    BlankGone(r[..Run(Blank, r)], a);
    PrefixFits(a, "IS");
    var b := SkipBlank(a[2..]);
    if NullTail(r).value {
      NotNullTyped(b);
      IsTyped(a, "NOTNULL");
      assert "IS" + "NOTNULL" == "ISNOTNULL";
    } else {
      NullWordTyped(b);
      IsTyped(a, "NULL");
      assert "IS" + "NULL" == "ISNULL";
    }
  }

  /** A typed null test keeps its meaning: a name, and IS NULL or IS NOT NULL in
      any case and with any blanks. */
  lemma NullKept(env: Env, e: Engine, term: string, n: nat) returns (name: string, typed: string)
    requires NullMatch(term).Some?
    ensures SkipBlank(term) == name + typed && ParseTerm(env, e, term, n).Some?
    ensures var p := ParseTerm(env, e, term, n).value;
            var c := ReadComparison(e, p.expr);
            && p.value == None && c.Some? && c.value.rest == "" && c.value.value.marker == ""
            && NameStands(name, c.value.value.column)
            && (c.value.value.symbol == "IS NULL" || c.value.value.symbol == "IS NOT NULL")
            && WritesSymbol(typed, c.value.value.symbol)
  {
    hide SkipBlank, QuoteIdent, NullTail, IdentLen, UnquoteIdent, NameStands, ReadComparison, Spells, Unblanked;
    var t := SkipBlank(term);
    var k := NullFromAt(t, IdentLen(t));
    name, typed := t[..k], t[k..];
    NameFound(t, k);
    NullTailTyped(typed);
    NullRead(e, UnquoteIdent(name), NullTail(typed).value);
    NullSymbols();
    assert t == name + typed;
  }

  lemma NullRead(e: Engine, column: string, negated: bool)
    ensures var symbol := if negated then "IS NOT NULL" else "IS NULL";
            ReadComparison(e, QuoteIdent(e, column) + (" " + symbol)) == Some(Found(Comparison(column, symbol, ""), ""))
  {
    hide QuoteIdent, ReadName;
    var symbol := if negated then "IS NOT NULL" else "IS NULL";
    NameOf(e, column, " " + symbol);
    SkipOf(" ", symbol);
    SkipOf(symbol, "");
    assert symbol + "" == symbol && ReadSymbol(symbol) == symbol;
  }

  lemma NullSymbols()
    ensures Unblanked("IS NULL") == "ISNULL" && Unblanked("IS NOT NULL") == "ISNOTNULL"
  {
    hide Unblanked;
    NothingUnblanked();
    WordKept("NULL", "");
    BlankGone(" ", "NULL");
    WordKept("IS", " NULL");
    WordKept("NOT", " NULL");
    BlankGone(" ", "NOT NULL");
    WordKept("IS", " NOT NULL");
    assert "NULL" + "" == "NULL" && " " + "NULL" == " NULL" && "IS" + " NULL" == "IS NULL" && "IS" + "NULL" == "ISNULL";
    assert "NOT" + " NULL" == "NOT NULL" && " " + "NOT NULL" == " NOT NULL" && "IS" + " NOT NULL" == "IS NOT NULL";
    assert "NOT" + "NULL" == "NOTNULL" && "IS" + "NOTNULL" == "ISNOTNULL";
  }
}
