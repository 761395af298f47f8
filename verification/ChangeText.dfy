/** The statements of a commit as text and arguments (multiUpdateSQL, DeleteSQL
    and InsertSQL in internal/db/changeset.go), what each change does to the
    database, and the proof that a text read back with its arguments is the
    statement that was meant. */
module ChangeTexts {
  import opened Wrappers
  import opened Text
  import opened Literal
  import opened Changesets
  import opened Merge
  import opened InsertReading
  import opened ParameterReading
  import Ddl
  import Placeholders

  // ---------- what a change does ----------

  /** The row's key columns hold the values; NULL is no value. */
  predicate HasKey(row: Row, cols: seq<string>, vals: seq<Value>) {
    |cols| == |vals| && forall i :: 0 <= i < |cols| ==> vals[i] != Nil && cols[i] in row && row[cols[i]] == vals[i]
  }

  /** The rows without that key, in their order. */
  function Others(t: Rows, cols: seq<string>, vals: seq<Value>): Rows {
    if t == [] then []
    else
      var n := |t| - 1;
      Others(t[..n], cols, vals) + if HasKey(t[n], cols, vals) then [] else [t[n]]
  }

  /** What a change asks of the rows of its table. */
  ghost predicate RowsChanged(server: Server, c: Change, t: Rows, u: Rows) {
    match c
    case Cell(x) =>
      |u| == |t| && forall i :: 0 <= i < |t| ==>
                      u[i] == if HasKey(t[i], x.pkCols, x.pkVals) then t[i][x.column := x.newValue] else t[i]
    case Delete(x) => u == Others(t, x.pkCols, x.pkVals)
    case Insert(x) => u == t + [server.stored(x)]
    case Schema(_) => true
  }

  lemma HasKeyMatches(row: Row, cols: seq<string>, vals: seq<Value>)
    ensures HasKey(row, cols, vals) <==> Matches(row, cols, vals)
  {
  }

  lemma {:induction false} UpdatedAt(t: Rows, sets: seq<Assign>, cols: seq<string>, vals: seq<Value>, i: nat)
    requires i < |t|
    ensures |UpdateRows(t, sets, cols, vals)| == |t|
    ensures UpdateRows(t, sets, cols, vals)[i] == UpdateRow(t[i], sets, cols, vals)
  {
    hide UpdateRow;
    if |t| > 1 { UpdatedAt(t[1..], sets, cols, vals, if i == 0 then 0 else i - 1); }
    if t[1..] == [] { assert UpdateRows(t[1..], sets, cols, vals) == []; }
  }

  lemma UpdatedOne(row: Row, x: CellChange)
    ensures UpdateRow(row, UpdateOf(x).sets, x.pkCols, x.pkVals) ==
            if HasKey(row, x.pkCols, x.pkVals) then row[x.column := x.newValue] else row
  {
    HasKeyMatches(row, x.pkCols, x.pkVals);
    hide Matches;
    var sets := UpdateOf(x).sets;
    assert sets[..0] == [] && SetAll(row, []) == row;
  }

  lemma {:induction false} DeletedOthers(t: Rows, cols: seq<string>, vals: seq<Value>)
    ensures DeleteRows(t, cols, vals) == Others(t, cols, vals)
  {
    hide Matches, HasKey;
    if t != [] {
      var n := |t| - 1;
      DeletedOthers(t[..n], cols, vals);
      DeletedLast(t[..n], t[n], cols, vals);
      HasKeyMatches(t[n], cols, vals);
      assert t == t[..n] + [t[n]];
    }
  }

  lemma {:induction false} DeletedLast(t: Rows, r: Row, cols: seq<string>, vals: seq<Value>)
    ensures DeleteRows(t + [r], cols, vals) == DeleteRows(t, cols, vals) + if Matches(r, cols, vals) then [] else [r]
  {
    hide Matches;
    if t == [] {
      assert t + [r] == [r] && [r][1..] == [];
      assert DeleteRows([], cols, vals) == [];
    } else {
      assert (t + [r])[1..] == t[1..] + [r];
      DeletedLast(t[1..], r, cols, vals);
    }
  }

  /** Every staged change, run on its own, does what was asked for: an edit sets
      one column of the rows with its key, a delete drops those rows, an insert
      adds the row it stores, and no other table is touched. */
  lemma ChangeDoes(server: Server, c: Change, id: TableId, db: DB)
    requires c.Cell? ==> id == TableId(c.cell.database, c.cell.table)
    requires c.Delete? ==> id == TableId(c.del.database, c.del.table)
    requires c.Insert? ==> id == TableId(c.ins.database, c.ins.table)
    ensures var after := Exec(server, StmtOf(c), db);
            if c.Schema? then after == server.alter(c.schema, db)
            else
              && after.Keys == db.Keys
              && (forall o :: o in db && o != id ==> after[o] == db[o])
              && (id in db ==> RowsChanged(server, c, db[id], after[id]))
  {
    hide UpdateRows, DeleteRows, UpdateRow, Others, HasKey;
    if id in db {
      var t := db[id];
      match c
      case Cell(x) =>
        var sets := UpdateOf(x).sets;
        assert t == [] ==> UpdateRows(t, sets, x.pkCols, x.pkVals) == [] by { NoRows(sets, x.pkCols, x.pkVals); }
        forall i | 0 <= i < |t|
          ensures |UpdateRows(t, sets, x.pkCols, x.pkVals)| == |t|
          ensures UpdateRows(t, sets, x.pkCols, x.pkVals)[i] ==
                  if HasKey(t[i], x.pkCols, x.pkVals) then t[i][x.column := x.newValue] else t[i]
        {
          UpdatedAt(t, sets, x.pkCols, x.pkVals, i);
          UpdatedOne(t[i], x);
        }
        if t != [] { UpdatedAt(t, sets, x.pkCols, x.pkVals, 0); }
      case Delete(x) => DeletedOthers(t, x.pkCols, x.pkVals);
      case _ =>
    }
  }

  lemma NoRows(sets: seq<Assign>, cols: seq<string>, vals: seq<Value>)
    ensures UpdateRows([], sets, cols, vals) == []
  {
  }

  // ---------- the texts ----------

  datatype Statement = Statement(sql: string, args: seq<Value>)

  /** Column i compared with, or set to, parameter from + i + 1. */
  function Pairs(e: Engine, cols: seq<string>, from: nat): (r: seq<string>)
    ensures |r| == |cols|
  {
    seq(|cols|, i requires 0 <= i < |cols| => QuoteIdent(e, cols[i]) + (" = " + Placeholders.Marker(e, from + i + 1)))
  }

  function KeyText(e: Engine, cols: seq<string>, from: nat): string { " WHERE " + Join(Pairs(e, cols, from), " AND ") }

  function SetColumns(cells: seq<CellChange>): (r: seq<string>)
    ensures |r| == |cells|
  {
    seq(|cells|, i requires 0 <= i < |cells| => cells[i].column)
  }

  function NewValues(cells: seq<CellChange>): (r: seq<Value>)
    ensures |r| == |cells|
  {
    seq(|cells|, i requires 0 <= i < |cells| => cells[i].newValue)
  }

  function UpdateText(e: Engine, cells: seq<CellChange>): string
    requires cells != []
  {
    var c := cells[0];
    "UPDATE " + (QualifiedTable(e, c.database, c.table) + (" SET " +
    (Join(Pairs(e, SetColumns(cells), 0), ", ") + KeyText(e, c.pkCols, |cells|))))
  }

  function DeleteText(e: Engine, d: RowDelete): string {
    "DELETE FROM " + (QualifiedTable(e, d.database, d.table) + KeyText(e, d.pkCols, 0))
  }

  /** defaultValuesClause. */
  function DefaultValues(e: Engine): string { if e.MySQLish() then " () VALUES ()" else " DEFAULT VALUES" }

  function InsertMarks(e: Engine, n: nat): (r: seq<string>)
    ensures |r| == n
  {
    seq(n, i requires 0 <= i < n => Placeholders.Marker(e, i + 1))
  }

  function InsertText(e: Engine, r: RowInsert): string {
    "INSERT INTO " + (QualifiedTable(e, r.database, r.table) +
    if r.columns == [] then DefaultValues(e)
    else
      " (" + (Join(Ddl.QuoteEach(e, r.columns), ", ") +
      (") VALUES (" + (Join(InsertMarks(e, |r.columns|), ", ") + ")"))))
  }

  // ---------- the reader ----------

  /** Columns with the arguments they are set to, or compared with. */
  datatype PairsRead = PairsRead(cols: seq<string>, vals: seq<Value>)

  /** Column, equals sign and marker, at most n + 1 times with sep between, after
      `before` other markers. */
  function ReadPairs(e: Engine, s: string, sep: string, args: seq<Value>, before: nat, n: nat): Option<Found<PairsRead>>
    decreases n
  {
    match ReadPair(e, s, args, before)
    case None => None
    case Some(Found((col, v), r)) =>
      match Skip(r, sep)
      case None => Some(Found(PairsRead([col], [v]), r))
      case Some(t) =>
        if n == 0 then None
        else
          match ReadPairs(e, t, sep, args, before + 1, n - 1)
          case None => None
          case Some(Found(more, u)) => Some(Found(PairsRead([col] + more.cols, [v] + more.vals), u))
  }

  function ReadPair(e: Engine, s: string, args: seq<Value>, before: nat): Option<Found<(string, Value)>> {
    match ReadName(e, s)
    case None => None
    case Some(Found(col, r)) =>
      match Skip(r, " = ")
      case None => None
      case Some(t) =>
        match ReadParameter(e, t, args, before)
        case None => None
        case Some(Found(v, u)) => Some(Found((col, v), u))
  }

  /** The key at the end of a statement. */
  function ReadKey(e: Engine, s: string, args: seq<Value>, before: nat): Option<PairsRead> {
    match Skip(s, " WHERE ")
    case None => None
    case Some(t) =>
      match ReadPairs(e, t, " AND ", args, before, |t|)
      case None => None
      case Some(Found(key, r)) => if r == "" then Some(key) else None
  }

  function Sets(p: PairsRead): seq<Assign>
    requires |p.cols| == |p.vals|
  {
    seq(|p.cols|, i requires 0 <= i < |p.cols| => Assign(p.cols[i], p.vals[i]))
  }

  function ReadUpdate(e: Engine, st: Statement): Option<Stmt> {
    match Skip(st.sql, "UPDATE ")
    case None => None
    case Some(a) =>
      match ReadTable(e, a)
      case None => None
      case Some(Found(at, b)) => ReadSet(e, TableId(at.0, at.1), b, st.args)
  }

  /** What follows the table of an UPDATE. */
  function ReadSet(e: Engine, id: TableId, b: string, args: seq<Value>): Option<Stmt> {
    match Skip(b, " SET ")
    case None => None
    case Some(s) =>
      match ReadPairs(e, s, ", ", args, 0, |s|)
      case None => None
      case Some(Found(sets, r)) =>
        match ReadKey(e, r, args, |sets.cols|)
        case None => None
        case Some(key) => if |sets.cols| == |sets.vals| then Some(Update(id, Sets(sets), key.cols, key.vals)) else None
  }

  function ReadDelete(e: Engine, st: Statement): Option<Stmt> {
    match Skip(st.sql, "DELETE FROM ")
    case None => None
    case Some(a) =>
      match ReadTable(e, a)
      case None => None
      case Some(Found(at, r)) =>
        match ReadKey(e, r, st.args, 0)
        case None => None
        case Some(key) => Some(DeleteFrom(TableId(at.0, at.1), key.cols, key.vals))
  }

  // ---------- pairs read back ----------

  lemma PairRead(e: Engine, col: string, args: seq<Value>, k: nat, t: string)
    requires k < |args| && (t != "" ==> t[0] in " ,)")
    ensures ReadPair(e, QuoteIdent(e, col) + (" = " + Placeholders.Marker(e, k + 1)) + t, args, k) ==
            Some(Found((col, args[k]), t))
  {
    hide QuoteIdent, ReadName, ReadParameter, Placeholders.Marker;
    var q, m := QuoteIdent(e, col), Placeholders.Marker(e, k + 1);
    assert q + (" = " + m) + t == q + (" = " + (m + t));
    NameOf(e, col, " = " + (m + t));
    SkipOf(" = ", m + t);
    ParameterOf(e, args, k, t);
  }

  /** What may follow a list with that separator. */
  predicate Follows(sep: string, t: string) {
    (sep == ", " || sep == " AND ") && (t == "" || (t[0] == ' ' && !(sep <= t)))
  }

  lemma LastPair(e: Engine, col: string, sep: string, args: seq<Value>, k: nat, t: string, n: nat)
    requires k < |args| && Follows(sep, t)
    ensures ReadPairs(e, QuoteIdent(e, col) + (" = " + Placeholders.Marker(e, k + 1)) + t, sep, args, k, n) ==
            Some(Found(PairsRead([col], [args[k]]), t))
  {
    hide QuoteIdent, ReadPair, Placeholders.Marker;
    PairRead(e, col, args, k, t);
    if t == "" { assert !(sep <= t); }
  }

  lemma OneMorePair(e: Engine, col: string, sep: string, args: seq<Value>, k: nat, s: string, n: nat)
    requires k < |args| && n > 0 && (sep == ", " || sep == " AND ")
    ensures var p := QuoteIdent(e, col) + (" = " + Placeholders.Marker(e, k + 1));
            ReadPairs(e, p + (sep + s), sep, args, k, n) == match ReadPairs(e, s, sep, args, k + 1, n - 1) {
                   case None => None
                   case Some(Found(more, u)) => Some(Found(PairsRead([col] + more.cols, [args[k]] + more.vals), u))
                 }
  {
    hide QuoteIdent, ReadPair, Placeholders.Marker;
    PairRead(e, col, args, k, sep + s);
    SkipOf(sep, s);
  }

  lemma PairsFirst(e: Engine, cols: seq<string>, sep: string, from: nat, i: nat)
    requires i < |cols|
    ensures var all := Pairs(e, cols, from);
            var p := QuoteIdent(e, cols[i]) + (" = " + Placeholders.Marker(e, from + i + 1));
            Join(all[i..], sep) == if i + 1 == |cols| then p else p + (sep + Join(all[i + 1..], sep))
  {
    hide QuoteIdent, Placeholders.Marker, Join;
    var all := Pairs(e, cols, from);
    assert all[i..] == [all[i]] + all[i + 1..];
    JoinFront(all[i], all[i + 1..], sep);
  }

  lemma FirstAndRest<T>(s: seq<T>, i: nat, j: nat)
    requires i < j <= |s|
    ensures s[i..j] == [s[i]] + s[i + 1..j]
    ensures i + 1 == j ==> s[i..j] == [s[i]]
  {
  }

  /** The pairs from column i on. */
  lemma {:induction false} PairsOf(e: Engine, cols: seq<string>, sep: string, args: seq<Value>, from: nat, i: nat,
                                   t: string, n: nat)
    requires i < |cols| && from + |cols| <= |args| && Follows(sep, t) && n >= |cols| - i
    ensures ReadPairs(e, Join(Pairs(e, cols, from)[i..], sep) + t, sep, args, from + i, n) ==
            Some(Found(PairsRead(cols[i..|cols|], args[from + i..from + |cols|]), t))
    decreases |cols| - i
  {
    hide QuoteIdent, Placeholders.Marker, ReadPairs, Join, Pairs, Follows;
    var m, k := |cols|, from + i;
    PairsFirst(e, cols, sep, from, i);
    FirstAndRest(cols, i, m);
    FirstAndRest(args, k, from + m);
    if i + 1 == m {
      LastPair(e, cols[i], sep, args, k, t, n);
    } else {
      var j := Join(Pairs(e, cols, from)[i + 1..], sep);
      KnownSeparator(sep, t);
      OneMorePair(e, cols[i], sep, args, k, j + t, n);
      PairsOf(e, cols, sep, args, from, i + 1, t, n - 1);
      var p := QuoteIdent(e, cols[i]) + (" = " + Placeholders.Marker(e, k + 1));
      assert (p + (sep + j)) + t == p + (sep + (j + t));
    }
  }

  lemma KnownSeparator(sep: string, t: string)
    requires Follows(sep, t)
    ensures sep == ", " || sep == " AND "
  {
  }

  lemma PairsLong(e: Engine, cols: seq<string>, from: nat, sep: string)
    ensures |Join(Pairs(e, cols, from), sep)| >= |cols|
  {
    hide QuoteIdent, Join, Placeholders.Marker;
    var parts := Pairs(e, cols, from);
    assert forall i :: 0 <= i < |parts| ==> parts[i] != [];
    JoinLong(parts, sep);
  }

  /** A key is read back; without columns there is none to read. */
  lemma KeyOf(e: Engine, cols: seq<string>, args: seq<Value>, from: nat)
    requires from + |cols| == |args|
    ensures ReadKey(e, KeyText(e, cols, from), args, from) ==
            if cols == [] then None else Some(PairsRead(cols, args[from..]))
  {
    hide ReadPairs, Join, Pairs;
    var j := Join(Pairs(e, cols, from), " AND ");
    SkipOf(" WHERE ", j);
    if cols == [] {
      NoPairs(e, args, from);
    } else {
      PairsLong(e, cols, from, " AND ");
      PairsOf(e, cols, " AND ", args, from, 0, "", |j|);
      assert Pairs(e, cols, from)[0..] == Pairs(e, cols, from) && j + "" == j && cols[0..|cols|] == cols;
      assert args[from + 0..from + |cols|] == args[from..];
    }
  }

  lemma NoPairs(e: Engine, args: seq<Value>, from: nat)
    ensures Join(Pairs(e, [], from), " AND ") == "" && ReadPairs(e, "", " AND ", args, from, 0) == None
  {
  }

  // ---------- statements read back ----------

  /** The UPDATE of a row's cells, read back with its arguments, is the UPDATE
      that was meant: every new value goes to its own column and every key value
      to its own key column. Without key columns it is no statement. */
  lemma UpdateReads(e: Engine, cells: seq<CellChange>)
    requires cells != [] && |cells[0].pkCols| == |cells[0].pkVals|
    ensures ReadUpdate(e, Statement(UpdateText(e, cells), NewValues(cells) + cells[0].pkVals)) ==
            if cells[0].pkCols == [] then None else Some(MultiUpdate(cells))
  {
    hide ReadTable, QualifiedTable, Join, ReadPairs, ReadKey, Pairs, KeyText;
    var c := cells[0];
    var cols, args, key := SetColumns(cells), NewValues(cells) + c.pkVals, KeyText(e, c.pkCols, |cells|);
    var sets := Join(Pairs(e, cols, 0), ", ");
    var s := sets + key;
    SkipOf("UPDATE ", QualifiedTable(e, c.database, c.table) + (" SET " + s));
    InsertReading.TableOf(e, c.database, c.table, " SET " + s);
    SkipOf(" SET ", s);
    KeyFollows(e, c.pkCols, |cells|);
    PairsLong(e, cols, 0, ", ");
    PairsOf(e, cols, ", ", args, 0, 0, key, |s|);
    assert Pairs(e, cols, 0)[0..] == Pairs(e, cols, 0) && cols[0..|cols|] == cols;
    assert args[0 + 0..0 + |cols|] == NewValues(cells) && args[|cells|..] == c.pkVals;
    KeyOf(e, c.pkCols, args, |cells|);
    assert Sets(PairsRead(cols, NewValues(cells))) == MultiUpdate(cells).sets;
  }

  lemma KeyFollows(e: Engine, cols: seq<string>, from: nat)
    ensures Follows(", ", KeyText(e, cols, from))
  {
    hide Join, Pairs;
    assert KeyText(e, cols, from)[0] == ' ';
  }

  lemma DeleteReads(e: Engine, d: RowDelete)
    requires |d.pkCols| == |d.pkVals|
    ensures ReadDelete(e, Statement(DeleteText(e, d), d.pkVals)) ==
            if d.pkCols == [] then None else Some(StmtOf(Delete(d)))
  {
    hide ReadTable, QualifiedTable, ReadKey, KeyText;
    var key := KeyText(e, d.pkCols, 0);
    SkipOf("DELETE FROM ", QualifiedTable(e, d.database, d.table) + key);
    assert key != [] && key[0] == ' ' by { KeyFollows(e, d.pkCols, 0); KeySpace(e, d.pkCols); }
    InsertReading.TableOf(e, d.database, d.table, key);
    KeyOf(e, d.pkCols, d.pkVals, 0);
    assert d.pkVals[0..] == d.pkVals;
  }

  lemma KeySpace(e: Engine, cols: seq<string>)
    ensures KeyText(e, cols, 0) != "" && KeyText(e, cols, 0)[0] == ' '
  {
    hide Join, Pairs;
  }

  // ---------- inserts ----------

  /** A row that an INSERT names: the columns given and their values. */
  datatype RowRead = RowRead(id: TableId, cols: seq<string>, vals: seq<Value>)

  /** Markers between commas, at most n + 1 of them. */
  function ReadMarks(e: Engine, s: string, args: seq<Value>, before: nat, n: nat): Option<Found<seq<Value>>>
    decreases n
  {
    match ReadParameter(e, s, args, before)
    case None => None
    case Some(Found(v, r)) =>
      match Skip(r, ", ")
      case None => Some(Found([v], r))
      case Some(t) =>
        if n == 0 then None
        else
          match ReadMarks(e, t, args, before + 1, n - 1)
          case None => None
          case Some(Found(more, u)) => Some(Found([v] + more, u))
  }

  function ReadInsertInto(e: Engine, st: Statement): Option<RowRead> {
    match Skip(st.sql, "INSERT INTO ")
    case None => None
    case Some(a) =>
      match ReadTable(e, a)
      case None => None
      case Some(Found(at, b)) =>
        // A row of defaults: MySQL and MariaDB write it as two empty lists.
        if b == (if e == EngineMySQL || e == EngineMariaDB then " () VALUES ()" else " DEFAULT VALUES") then
          Some(RowRead(TableId(at.0, at.1), [], []))
        else ReadGiven(e, TableId(at.0, at.1), b, st.args)
  }

  function ReadGiven(e: Engine, id: TableId, b: string, args: seq<Value>): Option<RowRead> {
    match Skip(b, " (")
    case None => None
    case Some(c) =>
      match ReadNames(e, c, |c|)
      case None => None
      case Some(Found(cols, d)) =>
        match Skip(d, ") VALUES (")
        case None => None
        case Some(f) =>
          match ReadMarks(e, f, args, 0, |f|)
          case None => None
          case Some(Found(vals, r)) => if r == ")" then Some(RowRead(id, cols, vals)) else None
  }

  /** The values of an insert, one for every column: NULL where none is given. */
  function Padded(r: RowInsert): (v: seq<Value>)
    ensures |v| == |r.columns|
    ensures forall i :: 0 <= i < |v| ==> v[i] == if i < |r.values| then r.values[i] else Nil
  {
    seq(|r.columns|, i requires 0 <= i < |r.columns| => if i < |r.values| then r.values[i] else Nil)
  }

  lemma MarksFirst(e: Engine, m: nat, i: nat)
    requires i < m
    ensures var all := InsertMarks(e, m);
            var p := Placeholders.Marker(e, i + 1);
            Join(all[i..], ", ") == if i + 1 == m then p else p + (", " + Join(all[i + 1..], ", "))
  {
    hide Placeholders.Marker, Join;
    var all := InsertMarks(e, m);
    assert all[i..] == [all[i]] + all[i + 1..];
    JoinFront(all[i], all[i + 1..], ", ");
  }

  lemma LastMark(e: Engine, args: seq<Value>, k: nat, t: string, n: nat)
    requires k < |args| && t != "" && t[0] == ')'
    ensures ReadMarks(e, Placeholders.Marker(e, k + 1) + t, args, k, n) == Some(Found([args[k]], t))
  {
    hide Placeholders.Marker, ReadParameter;
    ParameterOf(e, args, k, t);
  }

  lemma OneMoreMark(e: Engine, args: seq<Value>, k: nat, s: string, n: nat)
    requires k < |args| && n > 0
    ensures ReadMarks(e, Placeholders.Marker(e, k + 1) + (", " + s), args, k, n) ==
            match ReadMarks(e, s, args, k + 1, n - 1) {
              case None => None
              case Some(Found(more, u)) => Some(Found([args[k]] + more, u))
            }
  {
    hide Placeholders.Marker, ReadParameter;
    ParameterOf(e, args, k, ", " + s);
    SkipOf(", ", s);
  }

  lemma {:induction false} MarksOf(e: Engine, args: seq<Value>, i: nat, t: string, n: nat)
    requires i < |args| && t != "" && t[0] == ')' && n >= |args| - i
    ensures ReadMarks(e, Join(InsertMarks(e, |args|)[i..], ", ") + t, args, i, n) == Some(Found(args[i..|args|], t))
    decreases |args| - i
  {
    hide Placeholders.Marker, Join, ReadMarks, InsertMarks;
    var m := |args|;
    MarksFirst(e, m, i);
    FirstAndRest(args, i, m);
    if i + 1 == m {
      LastMark(e, args, i, t, n);
    } else {
      var p, j := Placeholders.Marker(e, i + 1), Join(InsertMarks(e, m)[i + 1..], ", ");
      OneMoreMark(e, args, i, j + t, n);
      MarksOf(e, args, i + 1, t, n - 1);
      assert (p + (", " + j)) + t == p + (", " + (j + t));
    }
  }

  lemma MarksLong(e: Engine, n: nat)
    ensures |Join(InsertMarks(e, n), ", ")| >= n
  {
    hide Join, Placeholders.Marker;
    var parts := InsertMarks(e, n);
    forall i | 0 <= i < |parts|
      ensures parts[i] != []
    {
      MarkerWord(e, i + 1);
    }
    JoinLong(parts, ", ");
  }

  /** An INSERT, read back with its arguments, gives every named column its own
      value, NULL where none was given; without columns it is a row of defaults
      in the engine's own spelling. */
  lemma InsertIntoReads(e: Engine, r: RowInsert)
    ensures ReadInsertInto(e, Statement(InsertText(e, r), Padded(r))) ==
            Some(RowRead(TableId(r.database, r.table), r.columns, Padded(r)))
  {
    hide ReadTable, QualifiedTable, Join, ReadNames, ReadMarks, Ddl.QuoteEach, InsertMarks, Padded;
    var q, args := QualifiedTable(e, r.database, r.table), Padded(r);
    if r.columns == [] {
      var b := DefaultValues(e);
      SkipOf("INSERT INTO ", q + b);
      InsertReading.TableOf(e, r.database, r.table, b);
      assert args == [];
    } else {
      var f := Join(InsertMarks(e, |r.columns|), ", ") + ")";
      var d := ") VALUES (" + f;
      var c := Join(Ddl.QuoteEach(e, r.columns), ", ") + d;
      var b := " (" + c;
      SkipOf("INSERT INTO ", q + b);
      InsertReading.TableOf(e, r.database, r.table, b);
      NotDefaults(e, r.columns, d);
      SkipOf(" (", c);
      NamesLong(e, r.columns);
      NamesOf(e, r.columns, d, |c|);
      SkipOf(") VALUES (", f);
      MarksLong(e, |r.columns|);
      MarksOf(e, args, 0, ")", |f|);
      assert InsertMarks(e, |args|)[0..] == InsertMarks(e, |args|) && args[0..|args|] == args;
    }
  }

  lemma NotDefaults(e: Engine, cols: seq<string>, d: string)
    requires cols != []
    ensures var b := " (" + (Join(Ddl.QuoteEach(e, cols), ", ") + d); b != " () VALUES ()" && b != " DEFAULT VALUES"
  {
    hide QuoteIdent, Join;
    var parts := Ddl.QuoteEach(e, cols);
    var q, j := parts[0], Join(parts, ", ");
    JoinFront(q, parts[1..], ", ");
    assert parts == [q] + parts[1..];
    NameBegins(e, cols[0]);
    var b := " (" + (j + d);
    assert j[0] == q[0] && b[2] == j[0] && b[1] == '(';
    assert " () VALUES ()"[2] == ')' && " DEFAULT VALUES"[1] == 'D';
  }

  // ---------- the string builders ----------

  lemma PairsSnoc(e: Engine, cols: seq<string>, from: nat, i: nat)
    requires i < |cols|
    ensures var p := QuoteIdent(e, cols[i]) + (" = " + Placeholders.Marker(e, from + i + 1));
            Pairs(e, cols, from)[..i + 1] == Pairs(e, cols, from)[..i] + [p]
  {
    hide QuoteIdent, Placeholders.Marker;
  }

  lemma NamesSnoc(e: Engine, cols: seq<string>, i: nat)
    requires i < |cols|
    ensures var ns := Ddl.QuoteEach(e, cols); ns[i] == QuoteIdent(e, cols[i]) && ns[..i + 1] == ns[..i] + [ns[i]]
  {
    hide QuoteIdent;
  }

  lemma MarksSnoc(e: Engine, n: nat, i: nat)
    requires i < n
    ensures var ms := InsertMarks(e, n); ms[i] == Placeholders.Marker(e, i + 1) && ms[..i + 1] == ms[..i] + [ms[i]]
  {
    hide Placeholders.Marker;
  }

  lemma NoParts()
    ensures Join([], ", ") == "" && Join([], " AND ") == ""
  {
  }

  /** writeKeyPredicates. */
  method WriteKeyPredicates(b0: string, e: Engine, cols: seq<string>, vals: seq<Value>, args0: seq<Value>)
    returns (b: string, args: seq<Value>)
    requires |cols| <= |vals|
    ensures b == b0 + KeyText(e, cols, |args0|) && args == args0 + vals[..|cols|]
  {
    hide QuoteIdent, Placeholders.Marker, Join, Pairs;
    b, args := b0 + " WHERE ", args0;
    ghost var ps := Pairs(e, cols, |args0|);
    var key := "";
    NoParts();
    for i := 0 to |cols|
      invariant key == Join(ps[..i], " AND ") && args == args0 + vals[..i]
    {
      PairsSnoc(e, cols, |args0|, i);
      OneMoreValue(args0, vals, i);
      JoinSnoc(ps[..i], ps[i], " AND ");
      if i > 0 {
        key := key + " AND ";
      }
      key := key + (QuoteIdent(e, cols[i]) + (" = " + Placeholders.Marker(e, |args| + 1)));
      args := args + [vals[i]];
    }
    Assoc(b0, " WHERE ", key);
    b := b + key;
    assert ps[..|cols|] == ps;
  }

  lemma OneMoreValue(args: seq<Value>, vals: seq<Value>, i: nat)
    requires i < |vals|
    ensures args + vals[..i + 1] == (args + vals[..i]) + [vals[i]]
  {
    assert vals[..i + 1] == vals[..i] + [vals[i]];
    Assoc(args, vals[..i], [vals[i]]);
  }

  /** multiUpdateSQL. */
  method MultiUpdateSQL(e: Engine, cells: seq<CellChange>) returns (st: Statement)
    requires cells != [] && |cells[0].pkCols| == |cells[0].pkVals|
    ensures st == Statement(UpdateText(e, cells), NewValues(cells) + cells[0].pkVals)
    ensures ReadUpdate(e, st) == if cells[0].pkCols == [] then None else Some(MultiUpdate(cells))
  {
    hide QuoteIdent, Placeholders.Marker, Join, QualifiedTable, ReadUpdate, KeyText;
    var first := cells[0];
    var args: seq<Value> := [];
    var b := "UPDATE ";
    var q := QualifiedTable(e, first.database, first.table);
    b := b + q;
    b := b + " SET ";
    ghost var ps := Pairs(e, SetColumns(cells), 0);
    var sets := "";
    NoParts();
    for i := 0 to |cells|
      invariant sets == Join(ps[..i], ", ") && args == NewValues(cells)[..i]
    {
      PairsSnoc(e, SetColumns(cells), 0, i);
      JoinSnoc(ps[..i], ps[i], ", ");
      if i > 0 {
        sets := sets + ", ";
      }
      sets := sets + (QuoteIdent(e, cells[i].column) + (" = " + Placeholders.Marker(e, |args| + 1)));
      args := args + [cells[i].newValue];
    }
    assert ps[..|cells|] == ps;
    b := b + sets;
    b, args := WriteKeyPredicates(b, e, first.pkCols, first.pkVals, args);
    st := Statement(b, args);
    UpdateParts(q, sets, KeyText(e, first.pkCols, |cells|));
    UpdateReads(e, cells);
  }

  lemma UpdateParts(q: string, sets: string, key: string)
    ensures "UPDATE " + q + " SET " + sets + key == "UPDATE " + (q + (" SET " + (sets + key)))
  {
  }

  /** DeleteSQL. */
  method DeleteSQL(e: Engine, d: RowDelete) returns (st: Statement)
    requires |d.pkCols| == |d.pkVals|
    ensures st == Statement(DeleteText(e, d), d.pkVals)
    ensures ReadDelete(e, st) == if d.pkCols == [] then None else Some(StmtOf(Delete(d)))
  {
    hide QualifiedTable, ReadDelete, KeyText;
    var b := "DELETE FROM ";
    var q := QualifiedTable(e, d.database, d.table);
    b := b + q;
    var args: seq<Value>;
    b, args := WriteKeyPredicates(b, e, d.pkCols, d.pkVals, []);
    st := Statement(b, args);
    assert "DELETE FROM " + q + KeyText(e, d.pkCols, 0) == "DELETE FROM " + (q + KeyText(e, d.pkCols, 0));
    assert [] + d.pkVals[..|d.pkCols|] == d.pkVals;
    DeleteReads(e, d);
  }

  /** InsertSQL. */
  method InsertSQL(e: Engine, r: RowInsert) returns (st: Statement)
    ensures st == Statement(InsertText(e, r), Padded(r))
    ensures ReadInsertInto(e, st) == Some(RowRead(TableId(r.database, r.table), r.columns, Padded(r)))
  {
    hide QuoteIdent, Placeholders.Marker, Join, QualifiedTable, ReadInsertInto, DefaultValues, Ddl.QuoteEach, InsertMarks,
      Padded;
    InsertIntoReads(e, r);
    var b := "INSERT INTO ";
    var q := QualifiedTable(e, r.database, r.table);
    b := b + q;
    if |r.columns| == 0 {
      b := b + DefaultValues(e);
      assert "INSERT INTO " + q + DefaultValues(e) == "INSERT INTO " + (q + DefaultValues(e));
      assert Padded(r) == [];
      return Statement(b, []);
    }
    var args: seq<Value> := [];
    b := b + " (";
    ghost var ns, ms := Ddl.QuoteEach(e, r.columns), InsertMarks(e, |r.columns|);
    var names := "";
    NoParts();
    for i := 0 to |r.columns|
      invariant names == Join(ns[..i], ", ")
    {
      NamesSnoc(e, r.columns, i);
      JoinSnoc(ns[..i], ns[i], ", ");
      if i > 0 {
        names := names + ", ";
      }
      names := names + QuoteIdent(e, r.columns[i]);
    }
    b := b + names;
    b := b + ") VALUES (";
    var marks := "";
    for i := 0 to |r.columns|
      invariant marks == Join(ms[..i], ", ") && args == Padded(r)[..i]
    {
      MarksSnoc(e, |r.columns|, i);
      JoinSnoc(ms[..i], ms[i], ", ");
      if i > 0 {
        marks := marks + ", ";
      }
      marks := marks + Placeholders.Marker(e, i + 1);
      if i < |r.values| {
        args := args + [r.values[i]];
      } else {
        args := args + [Nil];
      }
    }
    b := b + marks;
    b := b + ")";
    assert ns[..|r.columns|] == ns && ms[..|r.columns|] == ms;
    GivenParts(q, names, marks);
    st := Statement(b, args);
  }

  lemma GivenParts(q: string, names: string, marks: string)
    ensures "INSERT INTO " + q + " (" + names + ") VALUES (" + marks + ")" ==
            "INSERT INTO " + (q + (" (" + (names + (") VALUES (" + (marks + ")")))))
  {
  }
}
