/** The quoting of literal.go and of every dialect's QuoteIdent, and the proof
    that the tokenizer reads back what was quoted: one token, and the text it
    stands for. */
module Literal {
  import opened Text
  import opened Sqlhl

  datatype Engine = EngineMySQL | EngineMariaDB | EnginePostgres | EngineSQLite | EngineDuckDB {
    /** MariaDB shares MySQL's dialect. */
    predicate MySQLish() { EngineMySQL? || EngineMariaDB? }

    /** The tokenizer dialect of an engine: sqlhl.For. */
    function For(): Dialect {
      match this
      case EngineMySQL => MySQL
      case EngineMariaDB => MySQL
      case EnginePostgres => Postgres
      case EngineSQLite => SQLite
      case EngineDuckDB => DuckDB
    }

    /** The character a dialect's QuoteIdent puts around an identifier. */
    function IdentQuote(): char { if MySQLish() then '`' else '"' }
  }

  /** strings.ReplaceAll(s, c, cc). */
  function Double(s: string, c: char): string {
    if s == [] then [] else (if s[0] == c then [c, c] else [s[0]]) + Double(s[1..], c)
  }

  function QuoteIdent(e: Engine, ident: string): string {
    [e.IdentQuote()] + Double(ident, e.IdentQuote()) + [e.IdentQuote()]
  }

  function QuoteString(e: Engine, s: string): string {
    "'" + Double(if e.MySQLish() then Double(s, '\\') else s, '\'') + "'"
  }

  function QualifiedTable(e: Engine, database: string, table: string): string {
    if database == "" then QuoteIdent(e, table) else QuoteIdent(e, database) + "." + QuoteIdent(e, table)
  }

  /** Both escapes at once, character by character. */
  function Escape(s: string, q: char, bs: bool): string {
    if s == [] then []
    else (if s[0] == q || (bs && s[0] == '\\') then [s[0], s[0]] else [s[0]]) + Escape(s[1..], q, bs)
  }

  /** What the text between the quotes stands for. */
  function Unescape(b: string, q: char, bs: bool): string {
    if b == [] then []
    else if |b| > 1 && ((bs && b[0] == '\\') || (b[0] == q && b[1] == q)) then [b[1]] + Unescape(b[2..], q, bs)
    else [b[0]] + Unescape(b[1..], q, bs)
  }

  /** The backslash pass and the quote pass never see each other's output. */
  lemma {:induction false} TwoPasses(s: string)
    ensures Double(Double(s, '\\'), '\'') == Escape(s, '\'', true)
  {
    if s != [] {
      TwoPasses(s[1..]);
      var r := Double(s[1..], '\\');
      if s[0] == '\\' {
        var d := Double(s, '\\');
        assert d == ['\\', '\\'] + r && d[1..] == ['\\'] + r && d[1..][1..] == r;
      } else {
        var d := Double(s, '\\');
        assert d == [s[0]] + r && d[1..] == r;
      }
    }
  }

  lemma {:induction false} OnePass(s: string, q: char)
    ensures Double(s, q) == Escape(s, q, false)
  {
    if s != [] {
      OnePass(s[1..], q);
    }
  }

  /** An escaped text is closed by the quote after it and by nothing in it. */
  lemma {:induction false} EscapeCloses(s: string, q: char, bs: bool, t: string)
    requires q != '\\' && (t == [] || t[0] != q)
    ensures QuotedBody(Escape(s, q, bs) + [q] + t, q, bs) == |Escape(s, q, bs)| + 1
  {
    var b := Escape(s, q, bs) + [q] + t;
    if s != [] {
      var r := Escape(s[1..], q, bs) + [q] + t;
      EscapeCloses(s[1..], q, bs, t);
      if s[0] == q || (bs && s[0] == '\\') {
        assert b == [s[0], s[0]] + r && b[2..] == r;
      } else {
        assert b == [s[0]] + r && b[1..] == r;
      }
    }
  }

  lemma {:induction false} EscapeDecodes(s: string, q: char, bs: bool)
    requires q != '\\'
    ensures Unescape(Escape(s, q, bs), q, bs) == s
  {
    if s != [] {
      var b, r := Escape(s, q, bs), Escape(s[1..], q, bs);
      EscapeDecodes(s[1..], q, bs);
      if s[0] == q || (bs && s[0] == '\\') {
        assert b == [s[0], s[0]] + r && b[2..] == r;
      } else {
        assert b == [s[0]] + r && b[1..] == r;
      }
    }
  }

  /** The text between the first and the last character. */
  function Inside(s: string): string
    requires |s| >= 2
  {
    s[1..|s| - 1]
  }

  lemma QuoteStringIsEscape(e: Engine, s: string)
    ensures QuoteString(e, s) == "'" + Escape(s, '\'', e.MySQLish()) + "'"
  {
    if e.MySQLish() { TwoPasses(s); } else { OnePass(s, '\''); }
  }

  /** A quoted string is one String token in front of anything but one more
      quote, and it stands for the text that was quoted. */
  lemma QuoteStringReadsBack(L: Lexis, e: Engine, s: string, t: string)
    requires L.Valid() && L.d == e.For()
    requires t == [] || t[0] != '\''
    ensures var lit := QuoteString(e, s);
            && Lead(L, lit + t) == Lexeme(String, |lit|)
            && |lit| >= 2
            && Unescape(Inside(lit), '\'', e.MySQLish()) == s
  {
    var lit, b := QuoteString(e, s), Escape(s, '\'', e.MySQLish());
    QuoteStringIsEscape(e, s);
    EscapeCloses(s, '\'', e.MySQLish(), t);
    EscapeDecodes(s, '\'', e.MySQLish());
    hide Escape, Double, Unescape, QuotedBody;
    assert Inside(lit) == b;
    var all := lit + t;
    assert all[0] == '\'' && all[1..] == b + ['\''] + t;
    assert '\'' !in L.space;
  }

  /** A quoted identifier is one QuotedIdent token in front of anything but one
      more quote, and it names what was quoted. */
  lemma QuoteIdentReadsBack(L: Lexis, e: Engine, name: string, t: string)
    requires L.Valid() && L.d == e.For()
    requires t == [] || t[0] != e.IdentQuote()
    ensures var id := QuoteIdent(e, name);
            && Lead(L, id + t) == Lexeme(QuotedIdent, |id|)
            && |id| >= 2
            && Unescape(Inside(id), e.IdentQuote(), false) == name
  {
    var q := e.IdentQuote();
    var id, b := QuoteIdent(e, name), Escape(name, q, false);
    OnePass(name, q);
    EscapeCloses(name, q, false, t);
    EscapeDecodes(name, q, false);
    hide Escape, Double, Unescape, QuotedBody;
    assert Inside(id) == b;
    var all := id + t;
    assert all[0] == q && all[1..] == b + [q] + t;
    assert q !in L.space;
  }
}
