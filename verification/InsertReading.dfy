/** Reading an INSERT back: the table, the columns and the values that the text
    names, found without knowing how it was written. */
module InsertReading {
  import opened Wrappers
  import opened Text
  import opened Literal
  import opened InsertScript
  import Ddl

  // ---------- the reader ----------

  /** Something read off the front of a text, and the rest. */
  datatype Found<T> = Found(value: T, rest: string)

  /** A literal: NULL, TRUE or FALSE, a number by its text, or a quoted text. */
  datatype Constant = NullConstant | BoolConstant(b: bool) | NumberConstant(text: string) | TextConstant(text: string)

  datatype Inserted = Inserted(database: string, table: string, cols: seq<string>, values: seq<Constant>)

  /** The text between quotes that s starts with. */
  function ReadQuoted(s: string, q: char, backslash: bool): Option<Found<string>> {
    if s == [] || s[0] != q then None
    else
      var n := QuotedBody(s[1..], q, backslash);
      if n == 0 || s[n] != q then None
      else Some(Found(Unescape(s[1..n], q, backslash), s[n + 1..]))
  }

  function ReadName(e: Engine, s: string): Option<Found<string>> {
    ReadQuoted(s, if e == EngineMySQL || e == EngineMariaDB then '`' else '"', false)
  }

  /** A database, a dot and a table, or the table alone. */
  function ReadTable(e: Engine, s: string): Option<Found<(string, string)>> {
    match ReadName(e, s)
    case None => None
    case Some(Found(a, r)) =>
      if r == [] || r[0] != '.' then Some(Found(("", a), r))
      else
        match ReadName(e, r[1..])
        case None => None
        case Some(Found(b, t)) => Some(Found((a, b), t))
  }

  function ReadLiteral(e: Engine, s: string): Option<Found<Constant>> {
    if s != [] && s[0] == '\'' then
      match ReadQuoted(s, '\'', e == EngineMySQL || e == EngineMariaDB)
      case None => None
      case Some(Found(t, r)) => Some(Found(TextConstant(t), r))
    else
      var n := WordEnd(s);
      var w := s[..n];
      Some(Found(if w == "NULL" then NullConstant
                 else if w == "TRUE" then BoolConstant(true)
                 else if w == "FALSE" then BoolConstant(false)
                 else NumberConstant(w), s[n..]))
  }

  /** The first comma or closing parenthesis. */
  function WordEnd(s: string): (n: nat)
    ensures n <= |s|
  {
    if s == [] || s[0] == ',' || s[0] == ')' then 0 else 1 + WordEnd(s[1..])
  }

  function Skip(s: string, word: string): Option<string> { if word <= s then Some(s[|word|..]) else None }

  /** Names, or nothing, up to a closing parenthesis. */
  function ReadNames(e: Engine, s: string, n: nat): Option<Found<seq<string>>>
    decreases n
  {
    if s != [] && s[0] == ')' then Some(Found([], s))
    else
      match ReadName(e, s)
      case None => None
      case Some(Found(a, r)) =>
        if n == 0 || !(", " <= r) then Some(Found([a], r))
        else
          match ReadNames(e, r[2..], n - 1)
          case None => None
          case Some(Found(more, t)) => Some(Found([a] + more, t))
  }

  function ReadLiterals(e: Engine, s: string, n: nat): Option<Found<seq<Constant>>>
    decreases n
  {
    if s != [] && s[0] == ')' then Some(Found([], s))
    else
      match ReadLiteral(e, s)
      case None => None
      case Some(Found(a, r)) =>
        if n == 0 || !(", " <= r) then Some(Found([a], r))
        else
          match ReadLiterals(e, r[2..], n - 1)
          case None => None
          case Some(Found(more, t)) => Some(Found([a] + more, t))
  }

  /** A whole INSERT and nothing after it. */
  function ReadInsert(e: Engine, s: string): Option<Inserted> {
    match Skip(s, "INSERT INTO ")
    case None => None
    case Some(a) =>
      match ReadTable(e, a)
      case None => None
      case Some(Found(at, b)) => ReadColumns(e, at, b)
  }

  /** What follows the table of an INSERT. */
  function ReadColumns(e: Engine, at: (string, string), b: string): Option<Inserted> {
    match Skip(b, " (")
    case None => None
    case Some(c) =>
      match ReadNames(e, c, |c|)
      case None => None
      case Some(Found(cols, d)) => ReadRow(e, at, cols, d)
  }

  /** What follows the column names of an INSERT. */
  function ReadRow(e: Engine, at: (string, string), cols: seq<string>, d: string): Option<Inserted> {
    match Skip(d, ") VALUES (")
    case None => None
    case Some(f) =>
      match ReadLiterals(e, f, |f|)
      case None => None
      case Some(Found(values, g)) => if g == ")" then Some(Inserted(at.0, at.1, cols, values)) else None
  }

  // ---------- what a literal stands for ----------

  /** The text is n in decimal, with a minus sign when it is negative. */
  predicate WritesInt(text: string, n: int) {
    var minus := text != [] && text[0] == '-';
    var digits := if minus then text[1..] else text;
    && digits != [] && (forall i :: 0 <= i < |digits| ==> '0' <= digits[i] <= '9')
    && n == if minus then -DigitsValue(digits) else DigitsValue(digits)
  }

  /** The literal stands for the value on the engine: MySQL and MariaDB know
      booleans as the numbers 1 and 0. */
  predicate StandsFor(e: Engine, c: Constant, v: Value) {
    match v
    case Null => c == NullConstant
    case TextValue(s) => c == TextConstant(s)
    case IntValue(n) => c.NumberConstant? && WritesInt(c.text, n)
    case FloatValue(s) => c == NumberConstant(s)
    case NotFiniteValue(s) => c == TextConstant(s)
    case TimeValue(s) => c == TextConstant(s)
    case BoolValue(b) =>
      if e == EngineMySQL || e == EngineMariaDB then c == NumberConstant(if b then "1" else "0")
      else c == BoolConstant(b)
  }

  /** The literals stand for the values of the row from column k on, in their
      order, NULL past the end of a short row. */
  ghost predicate RowStands(e: Engine, cs: seq<Constant>, row: seq<Value>, k: nat) {
    forall i :: 0 <= i < |cs| ==> StandsFor(e, cs[i], if k + i < |row| then row[k + i] else Null)
  }

  /** The text inserts the row: the named columns of the table, a value each. */
  ghost predicate Inserts(e: Engine, sql: string, database: string, table: string, cols: seq<string>, row: seq<Value>) {
    var r := ReadInsert(e, sql);
    && r.Some?
    && r.value.database == database && r.value.table == table && r.value.cols == cols
    && |r.value.values| == |cols| && RowStands(e, r.value.values, row, 0)
  }

  // ---------- reading back ----------

  lemma QuotedOf(text: string, q: char, backslash: bool, t: string)
    requires q != '\\' && (t == [] || t[0] != q)
    ensures ReadQuoted([q] + Escape(text, q, backslash) + [q] + t, q, backslash) == Some(Found(text, t))
  {
    var b := Escape(text, q, backslash);
    EscapeCloses(text, q, backslash, t);
    EscapeDecodes(text, q, backslash);
    hide Escape, Unescape, QuotedBody;
    Quotes(b, q, t);
  }

  /** The parts of a text between quotes. */
  lemma Quotes(b: string, q: char, t: string)
    ensures var s := [q] + b + [q] + t;
            && s[0] == q && s[1..] == b + [q] + t && s[|b| + 1] == q
            && s[1..|b| + 1] == b && s[|b| + 2..] == t
  {
  }

  lemma NameOf(e: Engine, name: string, t: string)
    requires t == [] || t[0] !in "`\""
    ensures ReadName(e, QuoteIdent(e, name) + t) == Some(Found(name, t))
  {
    hide Escape, Double, ReadQuoted;
    OnePass(name, e.IdentQuote());
    QuotedOf(name, e.IdentQuote(), false, t);
  }

  lemma TableOf(e: Engine, database: string, table: string, t: string)
    requires t != [] && t[0] == ' '
    ensures ReadTable(e, QualifiedTable(e, database, table) + t) == Some(Found((database, table), t))
  {
    hide QuoteIdent, ReadName;
    NameOf(e, table, t);
    if database != "" {
      var d, n := QuoteIdent(e, database), QuoteIdent(e, table);
      NameOf(e, database, "." + (n + t));
      assert (d + "." + n) + t == d + ("." + (n + t));
      assert ("." + (n + t))[1..] == n + t;
    }
  }

  lemma TextOf(e: Engine, text: string, t: string)
    requires t == [] || t[0] != '\''
    ensures ReadLiteral(e, QuoteString(e, text) + t) == Some(Found(TextConstant(text), t))
  {
    hide Escape, Double, ReadQuoted, QuoteString, WordEnd;
    var b := Escape(text, '\'', e.MySQLish());
    QuoteStringIsEscape(e, text);
    QuotedOf(text, '\'', e.MySQLish(), t);
    var s := QuoteString(e, text) + t;
    assert s == ['\''] + b + ['\''] + t;
  }

  lemma {:induction false} WordEndOf(w: string, t: string)
    requires t != [] && (t[0] == ',' || t[0] == ')')
    requires forall i :: 0 <= i < |w| ==> w[i] != ',' && w[i] != ')'
    ensures WordEnd(w + t) == |w|
  {
    if w == [] {
      assert w + t == t;
    } else {
      assert (w + t)[1..] == w[1..] + t;
      WordEndOf(w[1..], t);
    }
  }

  lemma WordOf(e: Engine, w: string, t: string)
    requires t != [] && (t[0] == ',' || t[0] == ')')
    requires w != [] && w[0] != '\'' && forall i :: 0 <= i < |w| ==> w[i] != ',' && w[i] != ')'
    ensures ReadLiteral(e, w + t) ==
            Some(Found(if w == "NULL" then NullConstant
                       else if w == "TRUE" then BoolConstant(true)
                       else if w == "FALSE" then BoolConstant(false)
                       else NumberConstant(w), t))
  {
    WordEndOf(w, t);
    hide WordEnd, ReadQuoted;
    assert (w + t)[..|w|] == w && (w + t)[|w|..] == t;
  }

  lemma NumberOf(e: Engine, w: string, t: string)
    requires t != [] && (t[0] == ',' || t[0] == ')')
    requires Ddl.NumberChars(w) && w != []
    ensures ReadLiteral(e, w + t) == Some(Found(NumberConstant(w), t))
  {
    hide ReadLiteral;
    WordOf(e, w, t);
    assert "NULL"[0] == 'N' && "TRUE"[0] == 'T' && "FALSE"[0] == 'F';
  }

  lemma FormatIntWrites(n: int)
    ensures WritesInt(FormatInt(n), n)
  {
    var m := if n < 0 then -n else n;
    DecimalChars(m);
    DecimalValue(m);
    hide DigitsValue, Decimal;
    if n < 0 { assert FormatInt(n)[1..] == Decimal(m); }
  }

  lemma LiteralOf(e: Engine, v: Value, t: string) returns (c: Constant)
    requires v.WellSpelled() && t != [] && (t[0] == ',' || t[0] == ')')
    ensures ReadLiteral(e, QuoteLiteral(e, v) + t) == Some(Found(c, t)) && StandsFor(e, c, v)
  {
    hide ReadLiteral, QuoteString, Ddl.NumberLiteral, Ddl.NumberChars, FormatInt, WritesInt;
    match v
    case Null =>
      c := NullConstant;
      WordOf(e, "NULL", t);
    case TextValue(s) =>
      c := TextConstant(s);
      TextOf(e, s, t);
    case IntValue(n) =>
      c := NumberConstant(FormatInt(n));
      FormatIntChars(n);
      NumberOf(e, FormatInt(n), t);
      FormatIntWrites(n);
    case FloatValue(s) =>
      c := NumberConstant(s);
      Ddl.NumberLiteralChars(s);
      NumberOf(e, s, t);
    case NotFiniteValue(s) =>
      c := TextConstant(s);
      TextOf(e, s, t);
    case BoolValue(b) =>
      c := if e.MySQLish() then NumberConstant(if b then "1" else "0") else BoolConstant(b);
      WordOf(e, BoolLiteral(e, b), t);
    case TimeValue(s) =>
      c := TextConstant(s);
      TextOf(e, s, t);
  }

  lemma {:induction false} NamesOf(e: Engine, names: seq<string>, t: string, n: nat)
    requires t != [] && t[0] == ')' && n >= |names|
    ensures ReadNames(e, Join(Ddl.QuoteEach(e, names), ", ") + t, n) == Some(Found(names, t))
    decreases |names|
  {
    hide QuoteIdent, ReadName, Join;
    if names == [] {
      assert Ddl.QuoteEach(e, names) == [];
      JoinEmpty();
      assert "" + t == t;
    } else {
      var q, rest := QuoteIdent(e, names[0]), Ddl.QuoteEach(e, names[1..]);
      assert Ddl.QuoteEach(e, names) == [q] + rest;
      JoinFront(q, rest, ", ");
      NameBegins(e, names[0]);
      if rest == [] {
        NameOf(e, names[0], t);
        assert names == [names[0]];
      } else {
        var u := ", " + (Join(rest, ", ") + t);
        NameOf(e, names[0], u);
        NamesOf(e, names[1..], t, n - 1);
        assert (q + (", " + Join(rest, ", "))) + t == q + u;
        assert u[2..] == Join(rest, ", ") + t && ", " <= u;
        assert names == [names[0]] + names[1..];
      }
    }
  }

  lemma NameBegins(e: Engine, name: string)
    ensures QuoteIdent(e, name) != [] && QuoteIdent(e, name)[0] != ')'
  {
  }

  lemma LiteralBegins(e: Engine, v: Value)
    requires v.WellSpelled()
    ensures QuoteLiteral(e, v) != [] && QuoteLiteral(e, v)[0] != ')'
  {
    hide Ddl.NumberLiteral, Double, FormatInt;
    if v.FloatValue? { Ddl.NumberLiteralChars(v.spelling); }
    if v.IntValue? { FormatIntChars(v.n); }
  }

  /** There is a character for every part. */
  lemma {:induction false} JoinLong(parts: seq<string>, sep: string)
    requires forall i :: 0 <= i < |parts| ==> parts[i] != []
    ensures |Join(parts, sep)| >= |parts|
  {
    var n := |parts| - 1;
    if n > 0 {
      JoinLong(parts[..n], sep);
    }
  }

  lemma NamesLong(e: Engine, names: seq<string>)
    ensures |Join(Ddl.QuoteEach(e, names), ", ")| >= |names|
  {
    hide QuoteIdent, Join;
    var parts := Ddl.QuoteEach(e, names);
    forall i | 0 <= i < |parts|
      ensures parts[i] != []
    {
      NameBegins(e, names[i]);
    }
    JoinLong(parts, ", ");
  }

  lemma LiteralsLong(e: Engine, m: nat, values: seq<Value>)
    requires forall i :: 0 <= i < |values| ==> values[i].WellSpelled()
    ensures |Join(Literals(e, m, values), ", ")| >= m
  {
    hide QuoteLiteral, Join;
    var parts := Literals(e, m, values);
    forall i | 0 <= i < |parts|
      ensures parts[i] != []
    {
      LiteralBegins(e, ValueAt(values, i));
    }
    JoinLong(parts, ", ");
  }

  lemma LastLiteral(e: Engine, q: string, c: Constant, t: string, n: nat)
    requires q != [] && q[0] != ')' && t != [] && t[0] == ')'
    requires ReadLiteral(e, q + t) == Some(Found(c, t))
    ensures ReadLiterals(e, q + t, n) == Some(Found([c], t))
  {
    hide ReadLiteral;
    assert (q + t)[0] == q[0];
  }

  lemma OneMoreLiteral(e: Engine, q: string, c: Constant, s: string, more: seq<Constant>, t: string, n: nat)
    requires q != [] && q[0] != ')' && n > 0
    requires ReadLiteral(e, q + (", " + s)) == Some(Found(c, ", " + s))
    requires ReadLiterals(e, s, n - 1) == Some(Found(more, t))
    ensures ReadLiterals(e, q + (", " + s), n) == Some(Found([c] + more, t))
  {
    hide ReadLiteral;
    var u := ", " + s;
    assert (q + u)[0] == q[0];
    assert ", " <= u && u[2..] == s;
  }

  lemma RowStandsCons(e: Engine, c: Constant, more: seq<Constant>, row: seq<Value>, k: nat)
    requires StandsFor(e, c, if k < |row| then row[k] else Null) && RowStands(e, more, row, k + 1)
    ensures RowStands(e, [c] + more, row, k)
  {
    hide StandsFor;
    var cs := [c] + more;
    forall i | 0 <= i < |cs|
      ensures StandsFor(e, cs[i], if k + i < |row| then row[k + i] else Null)
    {
      if i > 0 { assert cs[i] == more[i - 1] && k + i == (k + 1) + (i - 1); }
    }
  }

  /** The literals from column k on. */
  lemma {:induction false} LiteralsOf(e: Engine, m: nat, values: seq<Value>, k: nat, t: string, n: nat)
    returns (cs: seq<Constant>)
    requires forall i :: 0 <= i < |values| ==> values[i].WellSpelled()
    requires t != [] && t[0] == ')' && k <= m && n >= m - k
    ensures |cs| == m - k
    ensures ReadLiterals(e, Join(Literals(e, m, values)[k..], ", ") + t, n) == Some(Found(cs, t))
    ensures RowStands(e, cs, values, k)
    decreases m - k
  {
    hide QuoteLiteral, ReadLiteral, ReadLiterals, RowStands, StandsFor, Join, Value.WellSpelled;
    var all := Literals(e, m, values);
    if k == m {
      cs := [];
      assert all[k..] == [];
      NoLiterals(e, values, k, t, n);
    } else {
      var v := if k < |values| then values[k] else Null;
      NullSpelled();
      var q, rest := QuoteLiteral(e, v), all[k + 1..];
      assert all[k..] == [q] + rest;
      JoinFront(q, rest, ", ");
      LiteralBegins(e, v);
      NoLiterals(e, values, k + 1, t, n);
      if rest == [] {
        var c := LiteralOf(e, v, t);
        cs := [c];
        assert cs == [c] + [];
        LastLiteral(e, q, c, t, n);
        RowStandsCons(e, c, [], values, k);
      } else {
        var j := Join(rest, ", ");
        var c := LiteralOf(e, v, ", " + (j + t));
        var more := LiteralsOf(e, m, values, k + 1, t, n - 1);
        cs := [c] + more;
        OneMoreLiteral(e, q, c, j + t, more, t, n);
        RowStandsCons(e, c, more, values, k);
        assert (q + (", " + j)) + t == q + (", " + (j + t));
      }
    }
  }

  lemma NullSpelled()
    ensures Null.WellSpelled()
  {
  }

  lemma NoLiterals(e: Engine, row: seq<Value>, k: nat, t: string, n: nat)
    requires t != [] && t[0] == ')'
    ensures ReadLiterals(e, Join([], ", ") + t, n) == Some(Found([], t)) && RowStands(e, [], row, k)
  {
    JoinEmpty();
    assert "" + t == t;
  }

  /** A written INSERT inserts the row it was written for: read back, it names
      the database, the table and the columns asked for, and its literal number
      i stands for the value of column i. */
  lemma InsertReads(e: Engine, database: string, table: string, cols: seq<string>, values: seq<Value>)
    requires forall i :: 0 <= i < |values| ==> values[i].WellSpelled()
    ensures Inserts(e, InsertBody(e, database, table, cols, values), database, table, cols, values)
  {
    hide ReadTable, ReadNames, ReadLiterals, RowStands, QualifiedTable, Join, Literals, Ddl.QuoteEach;
    var names, all := Join(Ddl.QuoteEach(e, cols), ", "), Literals(e, |cols|, values);
    var lits := Join(all, ", ");
    var f := lits + ")";
    var d := ") VALUES (" + f;
    var c := names + d;
    var b := " (" + c;
    assert all[0..] == all;
    NamesLong(e, cols);
    NamesOf(e, cols, d, |c|);
    LiteralsLong(e, |cols|, values);
    var cs := LiteralsOf(e, |cols|, values, 0, ")", |f|);
    TableOf(e, database, table, b);
    SkipOf("INSERT INTO ", QualifiedTable(e, database, table) + b);
    SkipOf(" (", c);
    SkipOf(") VALUES (", f);
    InsertAssoc("INSERT INTO ", QualifiedTable(e, database, table), " (", names, ") VALUES (", lits, ")", "");
    assert f + "" == f && ")" + "" == ")";
  }

  lemma SkipOf(word: string, t: string)
    ensures Skip(word + t, word) == Some(t)
  {
    assert word <= word + t;
    assert (word + t)[|word|..] == t;
  }
}
