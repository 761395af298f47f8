/** Staged schema changes (internal/db/ddl.go): what a typed column type or
    DEFAULT expression has to look like, and how CREATE TABLE and ADD COLUMN
    spell it. The validators are proved to admit exactly fragments: text that
    cannot end the clause it is put in. */
module Ddl {
  import opened Wrappers
  import opened Text
  import opened Sqlhl
  import opened SqlhlLocality
  import opened Literal
  import opened Fragments

  datatype DefaultKind = DefaultNone | DefaultText | DefaultNumber | DefaultNull | DefaultExpr | DefaultKeep
  datatype ColumnDefault = ColumnDefault(kind: DefaultKind, value: string)
  datatype ColumnDef =
    ColumnDef(name: string, typ: string, notNull: bool, default: ColumnDefault, primaryKey: bool)
  datatype CreateTable = CreateTable(database: string, table: string, columns: seq<ColumnDef>)
  datatype AddColumn = AddColumn(database: string, table: string, column: ColumnDef)

  /** Why a change is refused. */
  datatype Fault =
    | NameRequired | NameHasNul | TypeRequired | TypeHasBadChar | ValueRequired | NotANumber | TextHasNul
    | LeftOpen | HasComment | HasSemicolon | ClosesUnopened | CommaOutside | ParenOpen
    | NothingToKeep | NoColumns | ColumnTwice

  datatype Outcome = Pass | Fail(fault: Fault)

  // ---------- types ----------

  predicate TypeStart(c: char) { IsAsciiLetter(c) || c == '_' }
  predicate TypeChar(c: char) { TypeStart(c) || '0' <= c <= '9' || c in " (),.[]" }

  /** The character pattern of a type expression. */
  predicate TypePattern(t: string) {
    t != [] && TypeStart(t[0]) && forall i :: 0 <= i < |t| ==> TypeChar(t[i])
  }

  function NestingOutcome(n: Nesting): Outcome {
    match n
    case Depth(d) => if d == 0 then Pass else Fail(ParenOpen)
    case Commented => Fail(HasComment)
    case Semicolon => Fail(HasSemicolon)
    case Unopened => Fail(ClosesUnopened)
    case LooseComma => Fail(CommaOutside)
  }

  function TypeOutcome(L: Lexis, typ: string): Outcome {
    var t := Trim(L.space, typ);
    if t == [] then Fail(TypeRequired)
    else if !TypePattern(t) then Fail(TypeHasBadChar)
    else NestingOutcome(CharNest(t, 0))
  }

  method ValidateTypeName(L: Lexis, typ: string) returns (r: Outcome)
    ensures r == TypeOutcome(L, typ)
  {
    hide Trim, TypePattern;
    var t := Trim(L.space, typ);
    if t == [] {
      return Fail(TypeRequired);
    }
    if !TypePattern(t) {
      return Fail(TypeHasBadChar);
    }
    var depth := 0;
    for i := 0 to |t|
      invariant depth >= 0
      invariant CharNest(t[i..], depth) == CharNest(t, 0)
    {
      assert t[i..][1..] == t[i + 1..];
      match t[i] {
        case '(' => depth := depth + 1;
        case ')' =>
          depth := depth - 1;
          if depth < 0 {
            return Fail(ClosesUnopened);
          }
        case ',' =>
          if depth == 0 {
            return Fail(CommaOutside);
          }
        case _ =>
      }
    }
    if depth != 0 {
      return Fail(ParenOpen);
    }
    return Pass;
  }

  /** An accepted type is a fragment. */
  lemma TypeFragment(L: Lexis, typ: string)
    requires L.Valid() && TypeOutcome(L, typ) == Pass
    ensures var t := Trim(L.space, typ); Fragment(L, t) && t != []
  {
    var t := Trim(L.space, typ);
    assert ' ' in L.space;
    assert forall i :: 0 <= i < |t| ==> TypeChar(t[i]) ==> SimpleChar(t[i]) && t[i] != '-';
    SimpleFragment(L, t);
  }

  // ---------- expressions ----------

  function ExpressionOutcome(L: Lexis, expr: string): Outcome {
    var e := Trim(L.space, expr);
    if e == [] then Fail(ValueRequired)
    else if !SentinelAlone(L, e) then Fail(LeftOpen)
    else NestingOutcome(Nest(e + " ", Kinds(L, e + SENTINEL)[..|e| + 1], 0))
  }

  /** The last token starts at the last character exactly when that is of
      another kind than the one before it. */
  lemma LastTokenAlone(ks: seq<Kind>)
    requires |ks| >= 2
    ensures var out := Runs(ks);
            out != [] && (out[|out| - 1].start == |ks| - 1 <==> ks[|ks| - 2] != ks[|ks| - 1])
  {
    hide Runs;
    var n := |ks| - 1;
    RunsChained(ks[..n]);
    RunsSnoc(ks[..n], ks[n]);
    assert ks[..n] + [ks[n]] == ks;
  }

  lemma {:induction false} NestSkipRun(s: string, ks: seq<Kind>, n: nat, depth: nat)
    requires |s| == |ks| && n <= |s|
    requires forall i :: 0 <= i < n ==> ks[i] != Operator && ks[i] != Comment
    ensures Nest(s, ks, depth) == Nest(s[n..], ks[n..], depth)
  {
    if n > 0 {
      NestSkipRun(s[1..], ks[1..], n - 1, depth);
      assert s[1..][n - 1..] == s[n..] && ks[1..][n - 1..] == ks[n..];
    } else {
      assert s[0..] == s && ks[0..] == ks;
    }
  }

  /** The inner loop of ValidateExpression: the characters of one operator
      token. */
  method NestOperator(s: string, ghost ks: seq<Kind>, start: nat, end: nat, depth0: nat) returns (n: Nesting)
    requires |s| == |ks| && start <= end <= |s|
    requires forall i :: start <= i < end ==> ks[i] == Operator
    ensures if n.Depth? then Nest(s[end..], ks[end..], n.depth) == Nest(s[start..], ks[start..], depth0)
            else n == Nest(s[start..], ks[start..], depth0)
  {
    var depth := depth0;
    for i := start to end
      invariant Nest(s[i..], ks[i..], depth) == Nest(s[start..], ks[start..], depth0)
    {
      assert s[i..][1..] == s[i + 1..] && ks[i..][1..] == ks[i + 1..];
      match s[i] {
        case ';' => return Semicolon;
        case '(' => depth := depth + 1;
        case ')' =>
          if depth == 0 {
            return Unopened;
          }
          depth := depth - 1;
        case ',' =>
          if depth == 0 {
            return LooseComma;
          }
        case _ =>
      }
    }
    return Depth(depth);
  }

  /** The outer loop of ValidateExpression: one token. */
  method NestToken(s: string, ghost ks: seq<Kind>, t: Token, depth: nat) returns (n: Nesting)
    requires |s| == |ks| && t.start <= t.end <= |s|
    requires t.start < t.end
    requires forall p :: t.start <= p < t.end ==> ks[p] == t.kind
    ensures if n.Depth? then Nest(s[t.end..], ks[t.end..], n.depth) == Nest(s[t.start..], ks[t.start..], depth)
            else n == Nest(s[t.start..], ks[t.start..], depth)
  {
    if t.kind == Comment {
      return Commented;
    }
    if t.kind == Operator {
      n := NestOperator(s, ks, t.start, t.end, depth);
      return;
    }
    NestSkipRun(s[t.start..], ks[t.start..], t.end - t.start, depth);
    assert s[t.start..][t.end - t.start..] == s[t.end..];
    assert ks[t.start..][t.end - t.start..] == ks[t.end..];
    return Depth(depth);
  }

  method ValidateExpression(L: Lexis, expr: string) returns (r: Outcome)
    ensures r == ExpressionOutcome(L, expr)
  {
    hide Nest, Kinds, Runs, NestingOutcome, Trim;
    var e := Trim(L.space, expr);
    if e == [] {
      return Fail(ValueRequired);
    }
    var src := e + SENTINEL;
    var toks := Tokenize(L, src);
    ghost var all := Kinds(L, src);
    RunsTile(all);
    LastTokenAlone(all);
    var last := toks[|toks| - 1];
    if last.kind != Operator || last.Text(src) != ")" || last.end != |src| {
      assert last.start == |src| - 1 ==> last.Text(src) == [src[|src| - 1]] == ")";
      return Fail(LeftOpen);
    }
    assert |last.Text(src)| == last.end - last.start;
    assert SentinelAlone(L, e);
    r := NestTokens(L, e, toks);
  }

  /** The loop over all tokens but the sentinel's own. */
  method NestTokens(L: Lexis, e: string, toks: seq<Token>) returns (r: Outcome)
    requires Tiles(toks, Kinds(L, e + SENTINEL)) && toks != [] && toks[|toks| - 1].start == |e| + 1
    ensures r == NestingOutcome(Nest(e + " ", Kinds(L, e + SENTINEL)[..|e| + 1], 0))
  {
    hide Nest, Kinds;
    var body := e + " ";
    ghost var ks := Kinds(L, e + SENTINEL)[..|e| + 1];
    var depth := 0;
    assert body[0..] == body && ks[0..] == ks;
    for i := 0 to |toks| - 1
      invariant toks[i].start <= |e| + 1
      invariant Nest(body[toks[i].start..], ks[toks[i].start..], depth) == Nest(body, ks, 0)
    {
      var t := toks[i];
      TokensInOrder(toks, |e| + 2, i + 1);
      var n := NestToken(body, ks, t, depth);
      if !n.Depth? {
        return NestingOutcome(n);
      }
      depth := n.depth;
    }
    NestEnd(body, ks, depth);
    return if depth != 0 then Fail(ParenOpen) else Pass;
  }

  lemma NestEnd(s: string, ks: seq<Kind>, depth: nat)
    requires |s| == |ks|
    ensures Nest(s[|s|..], ks[|s|..], depth) == Depth(depth)
  {
  }

  /** Tokens come in order: none starts after the last one. */
  lemma {:induction false} TokensInOrder(out: seq<Token>, n: nat, i: nat)
    requires Chained(out, n) && i < |out|
    ensures out[i].start <= out[|out| - 1].start
    decreases |out| - i
  {
    if i < |out| - 1 {
      TokensInOrder(out, n, i + 1);
    }
  }

  /** ValidateExpression accepts exactly the expressions that are fragments:
      nothing in one is left open, commented, ended or closed early, and no
      comma is outside parentheses. */
  lemma ExpressionFragment(L: Lexis, expr: string)
    requires L.Valid()
    ensures var e := Trim(L.space, expr);
            ExpressionOutcome(L, expr) == Pass <==> e != [] && Fragment(L, e)
  {
    hide Lead, Settles, Nest;
    var e := Trim(L.space, expr);
    if e != [] {
      SentinelSettles(L, e);
      if SentinelAlone(L, e) {
        Locality(L, e, SENTINEL);
        SentinelKinds(L);
        assert Kinds(L, e + SENTINEL)[..|e| + 1] == Kinds(L, e) + [Plain];
        NestAppend(e, Kinds(L, e), " ", [Plain], 0);
        var n := Nest(e, Kinds(L, e), 0);
        if n.Depth? { NestPlain(n.depth); }
      }
    }
  }

  lemma NestPlain(depth: nat)
    ensures Nest(" ", [Plain], depth) == Depth(depth)
  {
    assert " "[1..] == "" && [Plain][1..] == [];
  }

  // ---------- numbers and defaults ----------

  function SkipSign(s: string): string {
    if s != [] && (s[0] == '+' || s[0] == '-') then s[1..] else s
  }

  predicate Digits(s: string) { s != [] && Run(AsciiDigits, s) == |s| }

  /** An optional exponent, and nothing after it. */
  predicate ExponentPart(s: string) {
    s == [] || ((s[0] == 'e' || s[0] == 'E') && Digits(SkipSign(s[1..])))
  }

  /** The pattern of a numeric literal: a sign, digits with a point somewhere,
      an exponent. */
  predicate NumberLiteral(s: string) {
    var u := SkipSign(s);
    var d := Run(AsciiDigits, u);
    if d > 0 then
      ExponentPart(if d < |u| && u[d] == '.' then u[d + 1 + Run(AsciiDigits, u[d + 1..])..] else u[d..])
    else
      u != [] && u[0] == '.' && Run(AsciiDigits, u[1..]) > 0 && ExponentPart(u[1 + Run(AsciiDigits, u[1..])..])
  }

  lemma DigitsSimple(s: string)
    requires Run(AsciiDigits, s) == |s|
    ensures NumberChars(s)
  {
  }

  /** What numeric literals are written in, signs apart from one another. */
  predicate NumberChars(s: string) {
    && (forall i :: 0 <= i < |s| ==> '0' <= s[i] <= '9' || s[i] in ".eE+-")
    && (forall i :: 0 < i < |s| ==> s[i] != '-' || s[i - 1] != '-')
  }

  lemma {:induction false} NumberCharsNest(s: string)
    requires NumberChars(s)
    ensures CharNest(s, 0) == Depth(0)
  {
    if s != [] {
      NumberCharsNest(s[1..]);
    }
  }

  lemma SignedChars(s: string)
    requires NumberChars(SkipSign(s)) && (SkipSign(s) != [] ==> SkipSign(s)[0] != '-')
    ensures NumberChars(s)
  {
    if SkipSign(s) != s {
      assert forall i :: 0 < i < |s| ==> s[i] == s[1..][i - 1];
    }
  }

  lemma ExponentChars(s: string)
    requires ExponentPart(s)
    ensures NumberChars(s) && (s != [] ==> s[0] != '-')
  {
    if s != [] {
      DigitsSimple(SkipSign(s[1..]));
      SignedChars(s[1..]);
      assert forall i :: 0 < i < |s| ==> s[i] == s[1..][i - 1];
    }
  }

  /** A run of digits in front keeps the characters of a number apart. */
  lemma DigitsInFront(s: string, d: nat)
    requires d <= |s| && (forall i :: 0 <= i < d ==> s[i] in AsciiDigits) && NumberChars(s[d..])
    requires d < |s| ==> s[d] != '-'
    ensures NumberChars(s)
  {
    assert forall i :: d <= i < |s| ==> s[i] == s[d..][i - d];
  }

  lemma NumberLiteralChars(s: string)
    requires NumberLiteral(s)
    ensures NumberChars(s) && s != []
  {
    hide ExponentPart, NumberChars, Run;
    var u := SkipSign(s);
    var d := Run(AsciiDigits, u);
    if d > 0 {
      var r := u[d..];
      assert u[0] in AsciiDigits;
      if r != [] && r[0] == '.' {
        assert r[1..] == u[d + 1..];
        assert r[1 + Run(AsciiDigits, r[1..])..] == u[d + 1 + Run(AsciiDigits, u[d + 1..])..];
        PointChars(r);
      } else {
        ExponentChars(r);
      }
      DigitsInFront(u, d);
    } else {
      PointChars(u);
    }
    SignedChars(s);
  }

  lemma NumberFragment(L: Lexis, s: string)
    requires L.Valid() && NumberLiteral(s)
    ensures Fragment(L, s) && s != []
  {
    hide NumberLiteral, Fragment, CharNest;
    NumberLiteralChars(s);
    NumberCharsNest(s);
    assert Simple(s);
    SimpleFragment(L, s);
  }

  lemma PointChars(r: string)
    requires r != [] && r[0] == '.' && ExponentPart(r[1 + Run(AsciiDigits, r[1..])..])
    ensures NumberChars(r)
  {
    var t := r[1..];
    var f := Run(AsciiDigits, t);
    assert t[f..] == r[1 + f..];
    ExponentChars(t[f..]);
    DigitsInFront(t, f);
    assert forall i :: 0 < i < |r| ==> r[i] == t[i - 1];
  }

  // ---------- validation ----------

  function NeedName(L: Lexis, name: string): Outcome {
    if Trim(L.space, name) == [] then Fail(NameRequired)
    else if '\0' in name then Fail(NameHasNul)
    else Pass
  }

  function DefaultOutcome(L: Lexis, def: ColumnDefault): Outcome {
    match def.kind
    case DefaultNumber => if NumberLiteral(Trim(L.space, def.value)) then Pass else Fail(NotANumber)
    case DefaultExpr => ExpressionOutcome(L, def.value)
    case DefaultText => if '\0' in def.value then Fail(TextHasNul) else Pass
    case _ => Pass
  }

  function ColumnOutcome(L: Lexis, c: ColumnDef): Outcome {
    if NeedName(L, c.name) != Pass then NeedName(L, c.name)
    else if TypeOutcome(L, c.typ) != Pass then TypeOutcome(L, c.typ)
    else if c.default.kind == DefaultKeep then Fail(NothingToKeep)
    else DefaultOutcome(L, c.default)
  }

  /** Everything validateSchemaChange asks of a CREATE TABLE. */
  predicate Accepts(L: Lexis, c: CreateTable) {
    && NeedName(L, c.table) == Pass
    && c.columns != []
    && (forall i :: 0 <= i < |c.columns| ==> ColumnOutcome(L, c.columns[i]) == Pass)
    && (forall i, j :: 0 <= i < j < |c.columns| ==> c.columns[i].name != c.columns[j].name)
  }

  method ValidateColumnDef(L: Lexis, c: ColumnDef) returns (r: Outcome)
    ensures r == ColumnOutcome(L, c)
  {
    r := NeedName(L, c.name);
    if r != Pass {
      return;
    }
    r := ValidateTypeName(L, c.typ);
    if r != Pass {
      return;
    }
    if c.default.kind == DefaultKeep {
      return Fail(NothingToKeep);
    }
    if c.default.kind == DefaultExpr {
      r := ValidateExpression(L, c.default.value);
      return;
    }
    return DefaultOutcome(L, c.default);
  }

  method ValidateCreateTable(L: Lexis, c: CreateTable) returns (r: Outcome)
    ensures r == Pass <==> Accepts(L, c)
  {
    hide ColumnOutcome, NeedName;
    r := NeedName(L, c.table);
    if r != Pass {
      return;
    }
    if |c.columns| == 0 {
      return Fail(NoColumns);
    }
    var seen: set<string> := {};
    for i := 0 to |c.columns|
      invariant seen == set k | 0 <= k < i :: c.columns[k].name
      invariant forall k :: 0 <= k < i ==> ColumnOutcome(L, c.columns[k]) == Pass
      invariant forall j, k :: 0 <= j < k < i ==> c.columns[j].name != c.columns[k].name
    {
      var col := c.columns[i];
      r := ValidateColumnDef(L, col);
      if r != Pass {
        return;
      }
      if col.name in seen {
        return Fail(ColumnTwice);
      }
      seen := seen + {col.name};
    }
    return Pass;
  }

  // ---------- rendering ----------

  /** c as an upper-case ASCII letter. */
  function Upper(c: char): char {
    if 'a' <= c <= 'z' then ((c as int) - 32) as char else c
  }

  predicate HasPrefixFold(s: string, prefix: string) {
    |prefix| <= |s| && forall i :: 0 <= i < |prefix| ==> Upper(s[i]) == prefix[i]
  }

  /** The defaults that MySQL takes without parentheses. */
  predicate BareFamily(s: string) {
    HasPrefixFold(s, "CURRENT_TIMESTAMP") || HasPrefixFold(s, "NOW(") || HasPrefixFold(s, "LOCALTIME")
    || HasPrefixFold(s, "CURRENT_DATE") || HasPrefixFold(s, "CURRENT_TIME")
  }

  /** How MySQL wants an expression default: in parentheses, except the
      CURRENT_TIMESTAMP family and what already looks parenthesized. */
  function MysqlExprDefault(L: Lexis, expr: string): string {
    var e := Trim(L.space, expr);
    if BareFamily(e) then e
    else if e != [] && e[0] == '(' && e[|e| - 1] == ')' then e
    else Parens(e)
  }

  /** The value part of a DEFAULT clause, if there is one. */
  function DefaultValue(L: Lexis, e: Engine, def: ColumnDefault): Option<string> {
    match def.kind
    case DefaultText => Some(QuoteString(e, def.value))
    case DefaultNumber => Some(Trim(L.space, def.value))
    case DefaultExpr => Some(if e.MySQLish() then MysqlExprDefault(L, def.value) else Trim(L.space, def.value))
    case DefaultNull => Some("NULL")
    case _ => None
  }

  function DefaultClause(L: Lexis, e: Engine, def: ColumnDefault): string {
    match DefaultValue(L, e, def)
    case Some(v) => " DEFAULT" + (" " + v)
    case None => ""
  }

  function ColumnDefSQL(L: Lexis, e: Engine, c: ColumnDef): string {
    QuoteIdent(e, c.name) + ((" " + Trim(L.space, c.typ)) +
    ((if c.notNull then " NOT NULL" else "") + DefaultClause(L, e, c.default)))
  }

  function ColumnDefs(L: Lexis, e: Engine, cols: seq<ColumnDef>): (r: seq<string>)
    ensures |r| == |cols|
  {
    seq(|cols|, i requires 0 <= i < |cols| => ColumnDefSQL(L, e, cols[i]))
  }

  /** The names of the primary key columns, in column order. */
  function KeyNames(cols: seq<ColumnDef>): seq<string> {
    if cols == [] then []
    else
      var n := |cols| - 1;
      KeyNames(cols[..n]) + if cols[n].primaryKey then [cols[n].name] else []
  }

  function QuoteEach(e: Engine, names: seq<string>): (r: seq<string>)
    ensures |r| == |names|
  {
    seq(|names|, i requires 0 <= i < |names| => QuoteIdent(e, names[i]))
  }

  function QuoteAll(e: Engine, names: seq<string>): string {
    Join(QuoteEach(e, names), ", ")
  }

  function KeyClause(e: Engine, names: seq<string>): string {
    "PRIMARY KEY" + (" " + Parens(QuoteAll(e, names)))
  }

  /** What stands in the parentheses of a CREATE TABLE: the columns and, if
      any is a key column, the key. */
  function Definitions(L: Lexis, e: Engine, c: CreateTable): seq<string> {
    ColumnDefs(L, e, c.columns) +
    if KeyNames(c.columns) == [] then [] else [KeyClause(e, KeyNames(c.columns))]
  }

  function CreateTableHead(e: Engine, c: CreateTable): string {
    "CREATE TABLE" + (" " + QualifiedTable(e, c.database, c.table))
  }

  function CreateTableSQL(L: Lexis, e: Engine, c: CreateTable): string {
    CreateTableHead(e, c) + (" " + Parens(Join(Definitions(L, e, c), ", ")))
  }

  method RenderColumnDef(L: Lexis, e: Engine, c: ColumnDef) returns (b: string)
    ensures b == ColumnDefSQL(L, e, c)
  {
    hide QuoteIdent, Trim, DefaultClause;
    b := QuoteIdent(e, c.name);
    b := b + " ";
    b := b + Trim(L.space, c.typ);
    var nullness := "";
    if c.notNull {
      nullness := " NOT NULL";
    }
    b := b + nullness;
    b := b + DefaultClause(L, e, c.default);
    Regroup(QuoteIdent(e, c.name), " ", Trim(L.space, c.typ), nullness, DefaultClause(L, e, c.default));
  }

  lemma Regroup(name: string, space: string, typ: string, nullness: string, default: string)
    ensures name + space + typ + nullness + default == name + ((space + typ) + (nullness + default))
  {
  }

  /** The column loop of createTableSQL, after `head`. */
  method RenderColumns(L: Lexis, e: Engine, cols: seq<ColumnDef>, head: string) returns (b: string, pk: seq<string>)
    ensures b == head + Join(ColumnDefs(L, e, cols), ", ") && pk == KeyNames(cols)
  {
    hide ColumnDefSQL, Join;
    b, pk := head, [];
    ghost var defs := ColumnDefs(L, e, cols);
    assert head == head + Join([], ", ") by { JoinNone(); }
    for i := 0 to |cols|
      invariant pk == KeyNames(cols[..i])
      invariant b == head + Join(defs[..i], ", ")
    {
      assert cols[..i + 1][..i] == cols[..i];
      assert defs[..i + 1] == defs[..i] + [defs[i]];
      JoinSnoc(defs[..i], defs[i], ", ");
      if i > 0 {
        b := b + ", ";
      }
      var def := RenderColumnDef(L, e, cols[i]);
      b := b + def;
      if i == 0 { JoinNone(); }
      if cols[i].primaryKey {
        pk := pk + [cols[i].name];
      }
    }
    assert cols[..|cols|] == cols && defs[..|cols|] == defs;
  }

  lemma JoinNone()
    ensures Join([], ", ") == ""
  {
  }

  /** The string builder of createTableSQL. */
  method RenderCreateTable(L: Lexis, e: Engine, c: CreateTable) returns (b: string)
    requires c.columns != []
    ensures b == CreateTableSQL(L, e, c)
  {
    hide ColumnDefSQL, QuoteIdent, QuoteAll, Join, KeyNames, QualifiedTable;
    var q := QualifiedTable(e, c.database, c.table);
    b := "CREATE TABLE ";
    b := b + q;
    b := b + " (";
    var head := b;
    var pk: seq<string>;
    b, pk := RenderColumns(L, e, c.columns, head);
    ghost var defs := ColumnDefs(L, e, c.columns);
    if |pk| > 0 {
      b := b + (", PRIMARY KEY (" + QuoteAll(e, pk) + ")");
      JoinSnoc(defs, KeyClause(e, pk), ", ");
      assert ", PRIMARY KEY (" + QuoteAll(e, pk) + ")" == ", " + KeyClause(e, pk);
      assert b == head + (Join(defs, ", ") + ", " + KeyClause(e, pk));
    } else {
      assert defs + [] == defs;
    }
    assert b == head + Join(Definitions(L, e, c), ", ");
    b := b + ")";
    assert head == ("CREATE TABLE" + (" " + q)) + " (";
    Bracket("CREATE TABLE" + (" " + q), Join(Definitions(L, e, c), ", "));
  }

  lemma Bracket(head: string, body: string)
    ensures (head + " (") + body + ")" == head + (" " + Parens(body))
  {
    assert " (" == " " + "(";
  }
}
