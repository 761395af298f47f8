/** The INSERT statements of a copy or an export (internal/db/literal.go and the
    SQL writer of internal/export/export.go), and the proof that the splitter
    takes the script apart into exactly the statements that were written. */
module InsertScript {
  import opened Text
  import opened Literal
  import opened Statements
  import Ddl

  /** A normalized cell value. A finite float carries its decimal spelling, a
      time its spelling for the engine. */
  datatype Value =
    | Null
    | TextValue(text: string)
    | IntValue(n: int)
    | FloatValue(spelling: string)
    | NotFiniteValue(spelling: string)
    | BoolValue(b: bool)
    | TimeValue(spelling: string)
  {
    /** Floats are spelled the way numbers are. */
    predicate WellSpelled() { FloatValue? ==> Ddl.NumberLiteral(spelling) }
  }

  function BoolLiteral(e: Engine, b: bool): string {
    if e.MySQLish() then (if b then "1" else "0") else (if b then "TRUE" else "FALSE")
  }

  function QuoteLiteral(e: Engine, v: Value): string {
    match v
    case Null => "NULL"
    case TextValue(s) => QuoteString(e, s)
    case IntValue(n) => FormatInt(n)
    case FloatValue(s) => s
    case NotFiniteValue(s) => QuoteString(e, s)
    case BoolValue(b) => BoolLiteral(e, b)
    case TimeValue(s) => QuoteString(e, s)
  }

  /** The value of column i: NULL past the end of a short row. */
  function ValueAt(values: seq<Value>, i: nat): Value {
    if i < |values| then values[i] else Null
  }

  function Literals(e: Engine, n: nat, values: seq<Value>): (r: seq<string>)
    ensures |r| == n
  {
    seq(n, i requires 0 <= i < n => QuoteLiteral(e, ValueAt(values, i)))
  }

  /** An INSERT without its semicolon. */
  function InsertBody(e: Engine, database: string, table: string, cols: seq<string>, values: seq<Value>): string {
    "INSERT INTO " + (QualifiedTable(e, database, table) + (" (" + (Join(Ddl.QuoteEach(e, cols), ", ") +
    (") VALUES (" + (Join(Literals(e, |cols|, values), ", ") + ")")))))
  }

  /** The string builder of InsertStatement. */
  method InsertStatement(e: Engine, database: string, table: string, cols: seq<string>, values: seq<Value>)
    returns (b: string)
    ensures b == InsertBody(e, database, table, cols, values) + ";"
  {
    hide QuoteIdent, QualifiedTable, QuoteLiteral, Join;
    var q := QualifiedTable(e, database, table);
    b := "INSERT INTO ";
    b := b + q;
    b := b + " (";
    var names := "";
    ghost var ns, vs := Ddl.QuoteEach(e, cols), Literals(e, |cols|, values);
    JoinEmpty();
    for i := 0 to |cols|
      invariant names == Join(ns[..i], ", ")
    {
      assert ns[..i + 1] == ns[..i] + [ns[i]];
      JoinSnoc(ns[..i], ns[i], ", ");
      if i > 0 {
        names := names + ", ";
      }
      names := names + QuoteIdent(e, cols[i]);
    }
    b := b + names;
    b := b + ") VALUES (";
    var lits := "";
    for i := 0 to |cols|
      invariant lits == Join(vs[..i], ", ")
    {
      assert vs[..i + 1] == vs[..i] + [vs[i]];
      JoinSnoc(vs[..i], vs[i], ", ");
      if i > 0 {
        lits := lits + ", ";
      }
      var v := if i < |values| then values[i] else Null;
      lits := lits + QuoteLiteral(e, v);
    }
    b := b + lits;
    b := b + ");";
    assert ns[..|cols|] == ns && vs[..|cols|] == vs;
    InsertParts(q, names, lits);
  }

  lemma JoinEmpty()
    ensures Join([], ", ") == ""
  {
  }

  lemma InsertParts(q: string, names: string, lits: string)
    ensures "INSERT INTO " + q + " (" + names + ") VALUES (" + lits + ");" ==
            ("INSERT INTO " + (q + (" (" + (names + (") VALUES (" + (lits + ")")))))) + ";"
  {
    var a, b, c := "INSERT INTO ", " (", ") VALUES (";
    assert ");" == ")" + ";";
  }

  // ---------- nothing in a statement separates ----------

  /** The characters the splitter always steps over one at a time. */
  predicate Ordinary(c: char) { c !in "-#/'\"`$;" }

  lemma {:induction false} OrdinaryPassed(e: Engine, x: string, t: string)
    requires forall i :: 0 <= i < |x| ==> Ordinary(x[i])
    ensures FirstSep(e, x + t) == |x| + FirstSep(e, t)
  {
    if x == [] {
      assert x + t == t;
    } else {
      var s := x + t;
      assert Ordinary(s[0]) && s[1..] == x[1..] + t;
      assert Item(e, s) == 1;
      hide Item;
      OrdinaryPassed(e, x[1..], t);
    }
  }

  lemma {:induction false} NumberPassed(e: Engine, x: string, t: string)
    requires Ddl.NumberChars(x) && (t == [] || t[0] != '-')
    ensures FirstSep(e, x + t) == |x| + FirstSep(e, t)
  {
    if x == [] {
      assert x + t == t;
    } else {
      var s := x + t;
      assert s[1..] == x[1..] + t;
      assert x[0] == '-' && |s| > 1 ==> s[1] != '-';
      NumberItem(e, s);
      hide Item;
      NumberPassed(e, x[1..], t);
    }
  }

  lemma NumberItem(e: Engine, s: string)
    requires s != [] && ('0' <= s[0] <= '9' || s[0] in ".eE+-") && !Starts(s, '-', '-')
    ensures s[0] != ';' && Item(e, s) == 1
  {
  }

  lemma QuoteItem(e: Engine, s: string)
    requires s != [] && (s[0] == '\'' || s[0] == e.IdentQuote())
    ensures s[0] != ';'
    ensures Item(e, s) == 1 + QuotedBody(s[1..], s[0], s[0] == '\'' && e.MySQLish())
  {
    hide QuotedBody;
  }

  lemma IdentPassed(e: Engine, name: string, t: string)
    requires t == [] || t[0] != e.IdentQuote()
    ensures FirstSep(e, QuoteIdent(e, name) + t) == |QuoteIdent(e, name)| + FirstSep(e, t)
  {
    var q, id := e.IdentQuote(), QuoteIdent(e, name);
    var b := Escape(name, q, false);
    OnePass(name, q);
    EscapeCloses(name, q, false, t);
    hide Escape, Double, QuotedBody, FirstSep, Item;
    var s := id + t;
    assert s[0] == q && s[1..] == b + [q] + t;
    QuoteItem(e, s);
    StepOver(e, s, id, t);
  }

  lemma StringPassed(e: Engine, text: string, t: string)
    requires t == [] || t[0] != '\''
    ensures FirstSep(e, QuoteString(e, text) + t) == |QuoteString(e, text)| + FirstSep(e, t)
  {
    hide Escape, Double, QuotedBody, FirstSep, Item, QuoteString;
    var lit, b := QuoteString(e, text), Escape(text, '\'', e.MySQLish());
    QuoteStringIsEscape(e, text);
    EscapeCloses(text, '\'', e.MySQLish(), t);
    var s := lit + t;
    assert lit == ['\''] + b + ['\''];
    assert s[0] == '\'' && s[1..] == b + ['\''] + t;
    QuoteItem(e, s);
    StepOver(e, s, lit, t);
  }

  lemma StepOver(e: Engine, s: string, x: string, t: string)
    requires x != [] && s == x + t && s[0] != ';' && Item(e, s) == |x|
    ensures FirstSep(e, s) == |x| + FirstSep(e, t)
  {
    hide Item;
    assert s[|x|..] == t;
  }

  lemma TablePassed(e: Engine, database: string, table: string, t: string)
    requires t != [] && t[0] == ' '
    ensures var q := QualifiedTable(e, database, table); FirstSep(e, q + t) == |q| + FirstSep(e, t)
  {
    hide FirstSep, QuoteIdent;
    IdentPassed(e, table, t);
    if database != "" {
      var d, n := QuoteIdent(e, database), QuoteIdent(e, table);
      IdentPassed(e, database, "." + n + t);
      OrdinaryPassed(e, ".", n + t);
      assert "." + n + t == "." + (n + t);
      assert (d + "." + n) + t == d + ("." + n + t);
    }
  }

  lemma FormatIntChars(n: int)
    ensures Ddl.NumberChars(FormatInt(n)) && FormatInt(n) != []
  {
    DecimalChars(if n < 0 then -n else n);
  }

  lemma LiteralPassed(e: Engine, v: Value, t: string)
    requires v.WellSpelled() && t != [] && (t[0] == ',' || t[0] == ')')
    ensures FirstSep(e, QuoteLiteral(e, v) + t) == |QuoteLiteral(e, v)| + FirstSep(e, t)
  {
    hide FirstSep, QuoteString, Ddl.NumberLiteral, FormatInt;
    match v
    case Null => OrdinaryPassed(e, "NULL", t);
    case TextValue(s) => StringPassed(e, s, t);
    case IntValue(n) =>
      FormatIntChars(n);
      NumberPassed(e, FormatInt(n), t);
    case FloatValue(s) =>
      Ddl.NumberLiteralChars(s);
      NumberPassed(e, s, t);
    case NotFiniteValue(s) => StringPassed(e, s, t);
    case BoolValue(b) => OrdinaryPassed(e, BoolLiteral(e, b), t);
    case TimeValue(s) => StringPassed(e, s, t);
  }

  lemma {:induction false} NamesPassed(e: Engine, names: seq<string>, t: string)
    requires t != [] && (t[0] == ',' || t[0] == ')')
    ensures var j := Join(Ddl.QuoteEach(e, names), ", "); FirstSep(e, j + t) == |j| + FirstSep(e, t)
  {
    hide FirstSep, QuoteIdent, Join;
    var n := |names| - 1;
    if n < 0 {
      assert Ddl.QuoteEach(e, names) == [];
      JoinEmpty();
      assert "" + t == t;
    } else {
      var less := Ddl.QuoteEach(e, names[..n]);
      var q := QuoteIdent(e, names[n]);
      assert Ddl.QuoteEach(e, names) == less + [q];
      JoinSnoc(less, q, ", ");
      IdentPassed(e, names[n], t);
      var j := Join(less, ", ");
      if n > 0 {
        OrdinaryPassed(e, ", ", q + t);
        NamesPassed(e, names[..n], ", " + (q + t));
        assert (j + ", " + q) + t == j + (", " + (q + t));
      }
    }
  }

  lemma {:induction false} LiteralsPassed(e: Engine, n: nat, values: seq<Value>, t: string)
    requires (forall i :: 0 <= i < |values| ==> values[i].WellSpelled())
    requires t != [] && (t[0] == ',' || t[0] == ')')
    ensures var j := Join(Literals(e, n, values), ", "); FirstSep(e, j + t) == |j| + FirstSep(e, t)
  {
    hide FirstSep, QuoteLiteral, Join;
    if n == 0 {
      assert Literals(e, n, values) == [];
      JoinEmpty();
      assert "" + t == t;
    } else {
      var less := Literals(e, n - 1, values);
      var q := QuoteLiteral(e, ValueAt(values, n - 1));
      assert Literals(e, n, values) == less + [q];
      JoinSnoc(less, q, ", ");
      LiteralPassed(e, ValueAt(values, n - 1), t);
      var j := Join(less, ", ");
      if n > 1 {
        OrdinaryPassed(e, ", ", q + t);
        LiteralsPassed(e, n - 1, values, ", " + (q + t));
        assert (j + ", " + q) + t == j + (", " + (q + t));
      }
    }
  }

  /** A statement that was written has no separator in it, whatever its names
      and values hold. */
  lemma InsertPassed(e: Engine, database: string, table: string, cols: seq<string>, values: seq<Value>, t: string)
    requires forall i :: 0 <= i < |values| ==> values[i].WellSpelled()
    ensures var b := InsertBody(e, database, table, cols, values); FirstSep(e, b + t) == |b| + FirstSep(e, t)
  {
    hide FirstSep, QualifiedTable, Join, Literals, Ddl.QuoteEach, Value.WellSpelled;
    var q, names := QualifiedTable(e, database, table), Join(Ddl.QuoteEach(e, cols), ", ");
    var lits := Join(Literals(e, |cols|, values), ", ");
    var t5 := ")" + t;
    var t4 := lits + t5;
    var t3 := ") VALUES (" + t4;
    var t2 := names + t3;
    var t1 := " (" + t2;
    OrdinaryPassed(e, ")", t);
    LiteralsPassed(e, |cols|, values, t5);
    WordsPassed(e, t4, t2, q + t1);
    NamesPassed(e, cols, t3);
    TablePassed(e, database, table, t1);
    InsertAssoc("INSERT INTO ", q, " (", names, ") VALUES (", lits, ")", t);
  }

  /** The words of an INSERT, each in front of what follows it. */
  lemma WordsPassed(e: Engine, values: string, names: string, table: string)
    ensures FirstSep(e, ") VALUES (" + values) == 10 + FirstSep(e, values)
    ensures FirstSep(e, " (" + names) == 2 + FirstSep(e, names)
    ensures FirstSep(e, "INSERT INTO " + table) == 12 + FirstSep(e, table)
  {
    hide FirstSep;
    OrdinaryPassed(e, ") VALUES (", values);
    OrdinaryPassed(e, " (", names);
    OrdinaryPassed(e, "INSERT INTO ", table);
  }

  lemma InsertAssoc(a: string, b: string, c: string, d: string, f: string, g: string, h: string, t: string)
    ensures (a + (b + (c + (d + (f + (g + h)))))) + t == a + (b + (c + (d + (f + (g + (h + t))))))
  {
  }

  // ---------- scripts ----------

  /** The statements of a script: their texts. */
  function Sqls(spans: seq<Span>): (r: seq<string>)
    ensures |r| == |spans|
  {
    seq(|spans|, i requires 0 <= i < |spans| => spans[i].sql)
  }

  /** Statements one to a line, each with its semicolon. */
  function Script(stmts: seq<string>): string {
    if stmts == [] then "" else Script(stmts[..|stmts| - 1]) + (stmts[|stmts| - 1] + ";" + "\n")
  }

  /** A text that is one statement: trimmed, and passed over as a whole in
      front of a semicolon. */
  ghost predicate OneStatement(e: Engine, s: string) {
    && s != [] && s[0] !in Spaces && s[|s| - 1] !in Spaces
    && forall t :: FirstSep(e, s + (";" + t)) == |s|
  }

  lemma PushLine(lead: string, s: string, base: nat)
    requires (lead == "" || lead == "\n") && s != [] && s[0] !in Spaces && s[|s| - 1] !in Spaces
    ensures Sqls(Push(lead + s, base)) == [s]
  {
    var u := lead + s;
    RunUnique(Spaces, u, |lead|);
    assert u[|lead|..] == s;
    TrimTrimmed(s);
    assert Trim(Spaces, s) == s && Run(Spaces, s) == 0;
    assert s[0..] == s;
    assert TrimRight(Spaces, s) == s;
    assert Trim(Spaces, u) == s;
  }

  function Lines(stmts: seq<string>): string {
    if stmts == [] then "\n" else "\n" + (stmts[0] + (";" + Lines(stmts[1..])))
  }

  lemma {:induction false} LinesSplit(e: Engine, stmts: seq<string>, base: nat)
    requires forall i :: 0 <= i < |stmts| ==> OneStatement(e, stmts[i])
    ensures Sqls(Split(e, Lines(stmts), base)) == stmts
  {
    hide Item, Push, OneStatement, Split, FirstSep;
    if stmts == [] {
      BlankLine(e, base);
    } else {
      var s, rest := stmts[0], Lines(stmts[1..]);
      LineSplit(e, "\n", s, rest, base);
      LinesSplit(e, stmts[1..], base + 1 + |s| + 1);
    }
  }

  lemma BlankLine(e: Engine, base: nat)
    ensures Split(e, "\n", base) == []
  {
    hide Item, FirstSep, Push;
    var s := "\n";
    NewlineAlone(e);
    NewlinePushed(base);
    assert s[..1] == s;
  }

  lemma NewlineAlone(e: Engine)
    ensures FirstSep(e, "\n") == 1
  {
    var s := "\n";
    assert Item(e, s) == 1 && s[1..] == "";
  }

  lemma NewlinePushed(base: nat)
    ensures Push("\n", base) == []
  {
    var s := "\n";
    RunUnique(Spaces, s, 1);
    assert s[1..] == "";
  }

  lemma SqlsAppend(a: seq<Span>, b: seq<Span>)
    ensures Sqls(a + b) == Sqls(a) + Sqls(b)
  {
  }

  lemma SplitUnfold(e: Engine, s: string, base: nat)
    requires FirstSep(e, s) < |s|
    ensures var n := FirstSep(e, s); Split(e, s, base) == Push(s[..n], base) + Split(e, s[n + 1..], base + n + 1)
  {
    hide FirstSep, Push;
  }

  lemma LineSplit(e: Engine, lead: string, s: string, rest: string, base: nat)
    requires (lead == "" || lead == "\n") && OneStatement(e, s)
    ensures var t := lead + (s + (";" + rest));
            Sqls(Split(e, t, base)) == [s] + Sqls(Split(e, rest, base + |lead| + |s| + 1))
  {
    hide Item, Push, FirstSep, Split, Sqls;
    var t := lead + (s + (";" + rest));
    assert FirstSep(e, s + (";" + rest)) == |s|;
    OrdinaryPassed(e, lead, s + (";" + rest));
    var n := |lead| + |s|;
    assert t[..n] == lead + s && t[n + 1..] == rest;
    PushLine(lead, s, base);
    SplitUnfold(e, t, base);
    SqlsAppend(Push(lead + s, base), Split(e, rest, base + n + 1));
  }

  lemma {:induction false} ScriptLines(stmts: seq<string>)
    ensures "\n" + Script(stmts) == Lines(stmts)
    decreases |stmts|
  {
    var n := |stmts| - 1;
    if n == 0 {
      var l := stmts[0] + ";" + "\n";
      assert Script(stmts[..0]) == "" && stmts[1..] == [];
      assert Lines(stmts[1..]) == "\n";
      assert l == stmts[0] + (";" + "\n");
      assert Script(stmts) == "" + l == l;
    } else if n > 0 {
      ScriptLines(stmts[1..]);
      ScriptHead(stmts);
      var l := stmts[0] + ";" + "\n";
      assert "\n" + (l + Script(stmts[1..])) == "\n" + (stmts[0] + (";" + ("\n" + Script(stmts[1..]))));
    }
  }

  lemma {:induction false} ScriptHead(stmts: seq<string>)
    requires stmts != []
    ensures Script(stmts) == (stmts[0] + ";" + "\n") + Script(stmts[1..])
    decreases |stmts|
  {
    var n := |stmts| - 1;
    var l := stmts[0] + ";" + "\n";
    if n == 0 {
      assert Script(stmts[..0]) == "" && Script(stmts[1..]) == "";
      assert Script(stmts) == "" + l;
    } else {
      var less, last := stmts[..n], stmts[n] + ";" + "\n";
      ScriptHead(less);
      assert stmts[1..][..n - 1] == less[1..];
      assert Script(stmts[1..]) == Script(less[1..]) + last;
      assert (l + Script(less[1..])) + last == l + (Script(less[1..]) + last);
    }
  }

  /** The script splits into exactly its statements. */
  lemma ScriptSplits(e: Engine, stmts: seq<string>)
    requires forall i :: 0 <= i < |stmts| ==> OneStatement(e, stmts[i])
    ensures Sqls(Split(e, Script(stmts), 0)) == stmts
  {
    hide Item, Push, OneStatement, Split, FirstSep;
    if stmts == [] {
      NothingSplits(e);
    } else {
      ScriptHead(stmts);
      ScriptLines(stmts[1..]);
      var s, rest := stmts[0], Lines(stmts[1..]);
      assert (s + ";" + "\n") + Script(stmts[1..]) == "" + (s + (";" + ("\n" + Script(stmts[1..]))));
      LineSplit(e, "", s, rest, 0);
      LinesSplit(e, stmts[1..], |s| + 1);
    }
  }

  lemma NothingSplits(e: Engine)
    ensures Split(e, "", 0) == []
  {
    assert ""[..0] == "";
  }

  lemma InsertIsOneStatement(e: Engine, database: string, table: string, cols: seq<string>, values: seq<Value>)
    requires forall i :: 0 <= i < |values| ==> values[i].WellSpelled()
    ensures OneStatement(e, InsertBody(e, database, table, cols, values))
  {
    hide QualifiedTable, Join, Literals, Ddl.QuoteEach, Item, Value.WellSpelled;
    var b := InsertBody(e, database, table, cols, values);
    assert b[0] == 'I' && b[|b| - 1] == ')';
    forall t
      ensures FirstSep(e, b + (";" + t)) == |b|
    {
      InsertPassed(e, database, table, cols, values, ";" + t);
      assert (";" + t)[0] == ';';
    }
  }
}
