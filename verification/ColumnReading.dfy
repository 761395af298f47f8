/** Reading a column definition back, as it stands in a CREATE TABLE or after
    ADD COLUMN: a name, the text of a type, NOT NULL and a DEFAULT, told apart by
    their words and without knowing how they were written. */
module ColumnReading {
  import opened Wrappers
  import opened Text
  import opened Sqlhl
  import opened Literal
  import opened Fragments
  import opened Ddl
  import opened CreateTableStructure
  import opened InsertReading
  import AlterColumns

  // ---------- the reader ----------

  /** A definition as it reads: the default is the text after its word. */
  datatype ColumnText = ColumnText(name: string, typ: string, notNull: bool, default: Option<string>)

  predicate WordChar(c: char) { IsAsciiLetter(c) || '0' <= c <= '9' || c == '_' }

  /** s starts with the word, in any mixture of cases, and the word ends there. */
  predicate WordThere(s: string, word: string) {
    |word| <= |s| && Spells(s[..|word|], word) && (|s| > |word| ==> !WordChar(s[|word|]))
  }

  predicate ClauseWord(s: string) { WordThere(s, "NOT") || WordThere(s, "DEFAULT") }

  /** Where a type ends: at the first NOT or DEFAULT outside parentheses that is
      a word of its own, neither part of a word nor qualified. */
  function TypeEnd(s: string, depth: nat, joined: bool): (n: nat)
    ensures n <= |s|
  {
    if s == [] || (depth == 0 && !joined && ClauseWord(s)) then 0
    else
      var d := if s[0] == '(' then depth + 1 else if s[0] == ')' && depth > 0 then depth - 1 else depth;
      1 + TypeEnd(s[1..], d, WordChar(s[0]) || s[0] == '.')
  }

  /** Nothing, or DEFAULT and its text. */
  function ReadDefault(r: string): Option<Option<string>> {
    if r == "" then Some(None)
    else if |r| > 8 && Spells(r[..8], "DEFAULT ") then Some(Some(r[8..]))
    else None
  }

  /** What follows a type. */
  function ReadClauses(name: string, typ: string, r: string): Option<ColumnText> {
    var notNull := |r| >= 8 && Spells(r[..8], "NOT NULL");
    var rest := if notNull then r[8..] else r;
    match ReadDefault(if notNull && rest != "" && rest[0] == ' ' then rest[1..] else rest)
    case None => None
    case Some(d) => Some(ColumnText(name, typ, notNull, d))
  }

  function ReadColumn(e: Engine, item: string): Option<ColumnText> {
    match ReadName(e, item)
    case None => None
    case Some(Found(name, r)) =>
      match Skip(r, " ")
      case None => None
      case Some(s) =>
        var n := TypeEnd(s, 0, false);
        ReadClauses(name, TrimRight({' '}, s[..n]), s[n..])
  }

  /** The item defines the column that was asked for: its name, its type without
      the space around it, its nullability, and a default exactly when one was
      asked for, that stands for what was asked. */
  ghost predicate Defines(L: Lexis, e: Engine, item: string, c: ColumnDef) {
    var r := ReadColumn(e, item);
    && r.Some?
    && r.value.name == c.name && r.value.typ == Trim(L.space, c.typ) && r.value.notNull == c.notNull
    && match r.value.default
       case None => c.default.kind == DefaultNone || c.default.kind == DefaultKeep
       case Some(v) =>
         && c.default.kind != DefaultNone && c.default.kind != DefaultKeep
         && AlterColumns.Meaning(L, e, v) == AlterColumns.Wanted(L, e, c.default)
  }

  /** The type has a word NOT or DEFAULT outside parentheses. */
  predicate HoldsClause(typ: string) { TypeEnd(typ, 0, false) < |typ| }

  // ---------- where a type ends ----------

  lemma WordThereCut(t: string, tail: string, word: string)
    requires (tail == "" || tail[0] == ' ') && forall i :: 0 <= i < |word| ==> 'A' <= word[i] <= 'Z'
    ensures WordThere(t + tail, word) <==> WordThere(t, word)
  {
    var s := t + tail;
    if |word| <= |t| {
      assert s[..|word|] == t[..|word|];
    } else if |word| <= |s| {
      assert s[..|word|][|t|] == ' ';
      assert LowerChar(word[|t|]) != ' ' && ' ' != word[|t|];
    }
  }

  lemma ClauseWordCut(t: string, tail: string)
    requires tail == "" || tail[0] == ' '
    ensures ClauseWord(t + tail) <==> ClauseWord(t)
  {
    hide WordThere;
    WordThereCut(t, tail, "NOT");
    WordThereCut(t, tail, "DEFAULT");
  }

  lemma NoClause(s: string)
    requires s == "" || s[0] == ' '
    ensures !ClauseWord(s)
  {
    if s != "" { assert LowerChar('N') != ' ' && LowerChar('D') != ' '; }
  }

  /** What comes after a type does not change where a clause begins in it. */
  lemma {:induction false} TypeEndOf(t: string, tail: string, depth: nat, joined: bool)
    requires (tail == "" || tail[0] == ' ') && CharNest(t, depth) == Depth(0)
    ensures TypeEnd(t + tail, depth, joined) ==
            if TypeEnd(t, depth, joined) < |t| then TypeEnd(t, depth, joined)
            else |t| + if tail == "" then 0 else 1 + TypeEnd(tail[1..], 0, false)
    decreases |t|
  {
    hide ClauseWord;
    if t == "" {
      assert t + tail == tail;
      NoClause(tail);
    } else {
      var d := if t[0] == '(' then depth + 1 else if t[0] == ')' && depth > 0 then depth - 1 else depth;
      ClauseWordCut(t, tail);
      assert (t + tail)[0] == t[0] && (t + tail)[1..] == t[1..] + tail;
      TypeEndOf(t[1..], tail, d, WordChar(t[0]) || t[0] == '.');
    }
  }

  /** The clauses after a type, without their leading space. */
  lemma ClausesRead(name: string, typ: string, notNull: bool, v: Option<string>, r: string)
    requires var d := if v.Some? then "DEFAULT " + v.value else "";
             r == if notNull then "NOT NULL" + (if v.Some? then " " + d else "") else d
    requires v.Some? ==> v.value != ""
    ensures ReadClauses(name, typ, r) == Some(ColumnText(name, typ, notNull, v))
    ensures r != "" ==> ClauseWord(r)
  {
    var d := if v.Some? then "DEFAULT " + v.value else "";
    DefaultRead(v, d);
    if notNull {
      assert r[..8] == "NOT NULL" && r[..3] == "NOT";
      if v.Some? {
        assert r[8..] == " " + d && r[8..][1..] == d;
      } else {
        assert r[8..] == "";
      }
    } else if v.Some? {
      assert r[0] == 'D' && r[..8][0] == 'D' && LowerChar('N') != 'D';
      assert r[..7] == "DEFAULT";
    }
  }

  lemma DefaultRead(v: Option<string>, d: string)
    requires d == if v.Some? then "DEFAULT " + v.value else ""
    requires v.Some? ==> v.value != ""
    ensures ReadDefault(d) == Some(v)
  {
    if v.Some? { assert d[..8] == "DEFAULT " && d[8..] == v.value; }
  }

  /** The space between a type and what follows it goes. */
  lemma SpaceDropped(t: string)
    requires t != [] && t[|t| - 1] != ' '
    ensures TrimRight({' '}, t) == t && TrimRight({' '}, t + " ") == t
  {
    assert (t + " ")[..|t|] == t;
  }

  /** How ColumnDefSQL puts a definition together. */
  function Clauses(L: Lexis, e: Engine, c: ColumnDef): string {
    var v := DefaultValue(L, e, c.default);
    var d := if v.Some? then "DEFAULT " + v.value else "";
    if c.notNull then "NOT NULL" + (if v.Some? then " " + d else "") else d
  }

  /** The clauses after a type, with their space if there are any. */
  lemma ClausesJoined(notNull: bool, v: Option<string>)
    ensures var d := if v.Some? then "DEFAULT " + v.value else "";
            var r := if notNull then "NOT NULL" + (if v.Some? then " " + d else "") else d;
            (if notNull then " NOT NULL" else "") + (if v.Some? then " DEFAULT" + (" " + v.value) else "") ==
            if r == "" then "" else " " + r
  {
    if v.Some? {
      var d := "DEFAULT " + v.value;
      DefaultSpaced(v.value);
      if notNull {
        assert " NOT NULL" == " " + "NOT NULL";
        assert (" " + "NOT NULL") + (" " + d) == " " + ("NOT NULL" + (" " + d));
      }
    } else if notNull {
      assert " NOT NULL" == " " + "NOT NULL";
    }
  }

  lemma DefaultSpaced(v: string)
    ensures " DEFAULT" + (" " + v) == " " + ("DEFAULT " + v)
  {
    assert " DEFAULT" == " " + "DEFAULT" && "DEFAULT " == "DEFAULT" + " ";
  }

  lemma DefinitionParts(L: Lexis, e: Engine, c: ColumnDef)
    ensures var r := Clauses(L, e, c);
            ColumnDefSQL(L, e, c) ==
            QuoteIdent(e, c.name) + (" " + (Trim(L.space, c.typ) + if r == "" then "" else " " + r))
  {
    hide QuoteIdent, Trim, DefaultValue;
    var v, t := DefaultValue(L, e, c.default), Trim(L.space, c.typ);
    ClausesJoined(c.notNull, v);
    var tail := (if c.notNull then " NOT NULL" else "") + DefaultClause(L, e, c.default);
    assert (" " + t) + tail == " " + (t + tail);
  }

  lemma DefaultThere(L: Lexis, e: Engine, def: ColumnDefault)
    requires DefaultOutcome(L, def) == Pass
    ensures var v := DefaultValue(L, e, def); v.Some? ==> v.value != ""
  {
    hide Trim, Nest, Kinds, Double, BareFamily;
    if def.kind == DefaultNumber {
      NumberLiteralChars(Trim(L.space, def.value));
    }
  }

  lemma TypeCloses(L: Lexis, typ: string)
    requires L.Valid() && TypeOutcome(L, typ) == Pass
    ensures var t := Trim(L.space, typ); t != [] && t[|t| - 1] != ' ' && CharNest(t, 0) == Depth(0)
  {
    hide TypePattern, CharNest;
    var t := Trim(L.space, typ);
    hide Trim;
    assert ' ' in L.space;
  }

  lemma ClauseAtOnce(r: string)
    requires r != "" ==> ClauseWord(r)
    ensures TypeEnd(r, 0, false) == 0
  {
  }

  /** A type and what follows it, told apart. */
  lemma TypeRead(t: string, r: string)
    requires t != [] && t[|t| - 1] != ' ' && CharNest(t, 0) == Depth(0) && (r != "" ==> ClauseWord(r))
    ensures var s := t + if r == "" then "" else " " + r;
            var n := TypeEnd(s, 0, false);
            if HoldsClause(t) then n < |t|
            else TrimRight({' '}, s[..n]) == t && s[n..] == r
  {
    hide ClauseWord, TypeEnd, TrimRight, CharNest;
    var tail := if r == "" then "" else " " + r;
    var s := t + tail;
    TypeEndOf(t, tail, 0, false);
    ClauseAtOnce(r);
    SpaceDropped(t);
    if r == "" {
      assert s == t && s[..|t|] == t && s[|t|..] == r;
    } else {
      assert tail[1..] == r;
      assert s[..|t| + 1] == t + " " && s[|t| + 1..] == r;
    }
  }

  /** The reader on the text of a definition. */
  lemma DefinitionRead(L: Lexis, e: Engine, c: ColumnDef)
    requires L.Valid() && ColumnOutcome(L, c) == Pass
    ensures var r, t := ReadColumn(e, ColumnDefSQL(L, e, c)), Trim(L.space, c.typ);
            if HoldsClause(t) then r.Some? ==> r.value.typ != t
            else r == Some(ColumnText(c.name, t, c.notNull, DefaultValue(L, e, c.default)))
  {
    hide Trim, DefaultValue, DefaultOutcome, TypeOutcome, NeedName, QuoteIdent, ReadName, TypeEnd, ReadDefault,
      TrimRight, ColumnDefSQL, ClauseWord, HoldsClause, Spells;
    var t, r := Trim(L.space, c.typ), Clauses(L, e, c);
    DefinitionParts(L, e, c);
    DefaultThere(L, e, c.default);
    ClausesRead(c.name, t, c.notNull, DefaultValue(L, e, c.default), r);
    TypeCloses(L, c.typ);
    hide ReadClauses, Clauses;
    var s := t + if r == "" then "" else " " + r;
    NameOf(e, c.name, " " + s);
    SkipOf(" ", s);
    TypeRead(t, r);
  }

  /** A definition that is accepted reads back as the column that was asked for
      exactly when its type has no word NOT or DEFAULT outside parentheses, which
      the check of types does not look for. */
  lemma ColumnReads(L: Lexis, e: Engine, c: ColumnDef)
    requires L.Valid() && L.d == e.For() && ColumnOutcome(L, c) == Pass
    ensures Defines(L, e, ColumnDefSQL(L, e, c), c) <==> !HoldsClause(Trim(L.space, c.typ))
  {
    hide ReadColumn, ColumnDefSQL, HoldsClause, Trim, AlterColumns.Meaning, AlterColumns.Wanted, DefaultOutcome;
    DefinitionRead(L, e, c);
    var S := AlterColumns.Server((p, s) => true, (a, b) => true);
    AlterColumns.DefaultMeans(S, L, e, AlterColumns.InSetDefault, c.default);
  }

  // ---------- whole statements ----------

  /** The statement starts with the words and then names the table. */
  function TableNamed(e: Engine, sql: string, words: string): Option<Found<(string, string)>> {
    match Skip(sql, words)
    case None => None
    case Some(a) => ReadTable(e, a)
  }

  /** An item of a list without the space that follows the comma. */
  function Item(item: string): string { if item != [] && item[0] == ' ' then item[1..] else item }

  lemma HeadRead(e: Engine, words: string, database: string, table: string, rest: string)
    requires rest != [] && rest[0] == ' '
    ensures TableNamed(e, words + (QualifiedTable(e, database, table) + rest), words) ==
            Some(Found((database, table), rest))
  {
    hide QualifiedTable, ReadTable;
    SkipOf(words, QualifiedTable(e, database, table) + rest);
    TableOf(e, database, table, rest);
  }

  /** An accepted CREATE TABLE names the database and the table that were asked
      for, and its list has an item for every column, in their order, that
      defines the column exactly when its type holds no clause of its own. */
  lemma CreateTableDefines(L: Lexis, e: Engine, c: CreateTable)
    requires L.Valid() && L.d == e.For() && Accepts(L, c)
    ensures var sql := CreateTableSQL(L, e, c);
            var all, head := ReadAll(Before, sql, Kinds(L, sql)), TableNamed(e, sql, "CREATE TABLE ");
            && head.Some? && head.value.value == (c.database, c.table)
            && all.After? && |c.columns| <= |all.items| <= |c.columns| + 1
            && forall i :: 0 <= i < |c.columns| ==>
                 (Defines(L, e, Item(all.items[i]), c.columns[i]) <==> !HoldsClause(Trim(L.space, c.columns[i].typ)))
  {
    hide ColumnDefSQL, Defines, HoldsClause, ReadAll, QualifiedTable, Join, Trim, KeyNames, TableNamed, Kinds,
      ColumnOutcome;
    CreateTableReads(L, e, c);
    var defs := Definitions(L, e, c);
    var rest := " " + Parens(Join(defs, ", "));
    HeadRead(e, "CREATE TABLE ", c.database, c.table, rest);
    assert "CREATE TABLE " + (QualifiedTable(e, c.database, c.table) + rest) == CreateTableHead(e, c) + rest;
    forall i | 0 <= i < |c.columns|
      ensures Defines(L, e, Item(Items(defs)[i]), c.columns[i]) <==> !HoldsClause(Trim(L.space, c.columns[i].typ))
    {
      ColumnReads(L, e, c.columns[i]);
      NameFirst(L, e, c.columns[i]);
      assert defs[i] == ColumnDefSQL(L, e, c.columns[i]);
    }
  }

  lemma NameFirst(L: Lexis, e: Engine, c: ColumnDef)
    ensures var d := ColumnDefSQL(L, e, c); d != [] && d[0] != ' ' && (" " + d)[1..] == d
  {
  }

  /** The same for ADD COLUMN: the table, the words, and the column. */
  lemma AddColumnDefines(L: Lexis, e: Engine, c: AddColumn)
    requires L.Valid() && L.d == e.For() && ColumnOutcome(L, c.column) == Pass
    ensures var head := TableNamed(e, AddColumnSQL(L, e, c), "ALTER TABLE ");
            && head.Some? && head.value.value == (c.database, c.table)
            && var item := Skip(head.value.rest, " ADD COLUMN ");
               && item.Some?
               && (Defines(L, e, item.value, c.column) <==> !HoldsClause(Trim(L.space, c.column.typ)))
  {
    hide ColumnDefSQL, Defines, HoldsClause, QualifiedTable, Trim, TableNamed, ColumnOutcome;
    ColumnReads(L, e, c.column);
    var q, d := QualifiedTable(e, c.database, c.table), ColumnDefSQL(L, e, c.column);
    var rest := " ADD COLUMN " + d;
    HeadRead(e, "ALTER TABLE ", c.database, c.table, rest);
    SkipOf(" ADD COLUMN ", d);
    assert AddColumnSQL(L, e, c) == "ALTER TABLE " + (q + rest);
  }

  const HIDDEN := "int NOT NULL"

  /** The failing input: asked for a nullable column of type `int NOT NULL`, the
      check passes, and the definition makes the column an int that is not. */
  lemma TypeTakesClause(L: Lexis, e: Engine)
    requires L.Valid() && L.d == e.For()
    ensures var c := ColumnDef("id", HIDDEN, false, ColumnDefault(DefaultNone, ""), false);
            && ColumnOutcome(L, c) == Pass && HoldsClause(Trim(L.space, c.typ))
            && ReadColumn(e, ColumnDefSQL(L, e, c)) == Some(ColumnText("id", "int", true, None))
  {
    hide Trim, QuoteIdent, ReadName, TypeEnd, CharNest, TypePattern, TrimRight, ReadClauses, ColumnDefSQL;
    var c := ColumnDef("id", HIDDEN, false, ColumnDefault(DefaultNone, ""), false);
    HiddenTrimmed(L);
    HiddenType();
    DefinitionParts(L, e, c);
    NameOf(e, "id", " " + HIDDEN);
    SkipOf(" ", HIDDEN);
    ClausesRead("id", "int", true, None, "NOT NULL");
    assert ColumnDefSQL(L, e, c) == QuoteIdent(e, "id") + (" " + HIDDEN) by { assert HIDDEN + "" == HIDDEN; }
  }

  lemma HiddenTrimmed(L: Lexis)
    requires L.Valid()
    ensures Trim(L.space, HIDDEN) == HIDDEN && Trim(L.space, "id") == "id"
  {
    hide Trim;
    var t, id := HIDDEN, "id";
    assert t[0] == 'i' && t[|t| - 1] == 'L' && id[0] == 'i' && id[1] == 'd';
    AlterColumns.TrimKeeps(L.space, t);
    AlterColumns.TrimKeeps(L.space, id);
  }

  lemma HiddenType()
    ensures TypePattern(HIDDEN) && CharNest(HIDDEN, 0) == Depth(0)
    ensures TypeEnd(HIDDEN, 0, false) == 4 && TrimRight({' '}, HIDDEN[..4]) == "int" && HIDDEN[4..] == "NOT NULL"
  {
    hide TypeEnd, CharNest, TrimRight;
    FlatNest(HIDDEN);
    FlatNest("int");
    IntEnds();
    assert "NOT NULL"[..3] == "NOT";
    assert ClauseWord("NOT NULL");
    hide ClauseWord;
    TypeRead("int", "NOT NULL");
    assert HIDDEN == "int" + (" " + "NOT NULL");
    TypeEndOf("int", " NOT NULL", 0, false);
    ClauseAtOnce("NOT NULL");
    assert " NOT NULL"[1..] == "NOT NULL";
  }

  lemma IntEnds()
    ensures TypeEnd("int", 0, false) == 3
  {
    var t := "int";
    assert t[1..] == "nt" && t[1..][1..] == "t" && t[1..][1..][1..] == "";
    assert t[..3][1] == 'n' && LowerChar('O') == 'o';
  }

  lemma {:induction false} FlatNest(t: string)
    requires forall i :: 0 <= i < |t| ==> !IsParenOrComma(t[i])
    ensures CharNest(t, 0) == Depth(0)
  {
    if t != "" {
      FlatNest(t[1..]);
    }
  }
}
