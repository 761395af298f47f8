/** The SQL export (the SQL writer of internal/export/export.go): a script of one
    INSERT a row, which splits into its statements and reads back as its rows. */
module InsertExport {
  import opened Text
  import opened Literal
  import opened Statements
  import opened InsertScript
  import opened InsertReading

  /** The SQL writer: one INSERT a row. */
  class SqlWriter {
    const engine: Engine
    const database: string
    const table: string
    var w: string
    var cols: seq<string>
    ghost var written: seq<string>  // the statements so far

    ghost predicate Valid()
      reads this
    {
      w == Script(written) && forall i :: 0 <= i < |written| ==> OneStatement(engine, written[i])
    }

    constructor (engine: Engine, database: string, table: string)
      ensures Valid() && written == [] && w == ""
      ensures this.engine == engine && this.database == database && this.table == table
    {
      this.engine, this.database, this.table := engine, database, table;
      w, cols, written := "", [], [];
    }

    method Begin(names: seq<string>)
      requires Valid()
      modifies `cols
      ensures Valid() && cols == names
    {
      cols := names;
    }

    method Row(values: seq<Value>)
      requires Valid() && forall i :: 0 <= i < |values| ==> values[i].WellSpelled()
      modifies `w, `written
      ensures Valid()
      ensures |written| == |old(written)| + 1 && written[..|old(written)|] == old(written)
      ensures Inserts(engine, written[|old(written)|], database, table, cols, values)
    {
      hide InsertBody, OneStatement, Value.WellSpelled, Inserts, Script;
      InsertReads(engine, database, table, cols, values);
      ScriptSnoc(written, InsertBody(engine, database, table, cols, values));
      var stmt := InsertStatement(engine, database, table, cols, values);
      InsertIsOneStatement(engine, database, table, cols, values);
      ghost var more := written + [InsertBody(engine, database, table, cols, values)];
      assert more[..|written|] == written;
      w := w + (stmt + "\n");
      written := more;
    }
  }

  lemma ScriptSnoc(stmts: seq<string>, s: string)
    ensures Script(stmts + [s]) == Script(stmts) + (s + ";" + "\n")
  {
    assert (stmts + [s])[..|stmts|] == stmts;
  }

  /** An exported script of n rows splits, under its own engine's rules, into n
      statements, and statement k inserts row k: it names the table and the
      columns, and its literals stand for the row's values in their order. */
  method Export(e: Engine, database: string, table: string, cols: seq<string>, rows: seq<seq<Value>>)
    returns (script: string)
    requires forall r :: 0 <= r < |rows| ==> forall i :: 0 <= i < |rows[r]| ==> rows[r][i].WellSpelled()
    ensures var stmts := Sqls(Split(e, script, 0));
            && |stmts| == |rows|
            && forall k :: 0 <= k < |rows| ==> Inserts(e, stmts[k], database, table, cols, rows[k])
  {
    hide Script, OneStatement, Split, Sqls, Inserts, Value.WellSpelled;
    var w := new SqlWriter(e, database, table);
    w.Begin(cols);
    for r := 0 to |rows|
      invariant w.Valid() && w.engine == e && w.database == database && w.table == table && w.cols == cols
      invariant |w.written| == r
      invariant forall k :: 0 <= k < r ==> Inserts(e, w.written[k], database, table, cols, rows[k])
    {
      ghost var before := w.written;
      w.Row(rows[r]);
      assert forall k :: 0 <= k < r ==> w.written[k] == w.written[..r][k] == before[k];
    }
    script := w.w;
    ScriptSplits(e, w.written);
  }
}
