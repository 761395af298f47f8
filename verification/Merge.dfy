/** What a commit of the staged changeset does to the database, and the proof
    that merging the cell edits of a row into one UPDATE changes nothing about
    it (Statements in internal/db/changeset.go). */
module Merge {
  import opened Changesets

  // ---------- a small database ----------

  type Row = map<string, Value>
  type Rows = seq<Row>
  datatype TableId = TableId(database: string, table: string)
  type DB = map<TableId, Rows>

  /** What the model leaves to the engine: the row an INSERT stores once
      defaults and generated keys are filled in, and what a schema change does. */
  datatype Server = Server(stored: RowInsert -> Row, alter: (SchemaChange, DB) -> DB)

  datatype Assign = Assign(column: string, value: Value)

  /** A statement. A schema change stands for all the statements its dialect
      renders. */
  datatype Stmt =
    | Update(id: TableId, sets: seq<Assign>, cols: seq<string>, vals: seq<Value>)
    | DeleteFrom(id: TableId, cols: seq<string>, vals: seq<Value>)
    | InsertInto(id: TableId, ins: RowInsert)
    | Ddl(change: SchemaChange)

  /** The WHERE clause of writeKeyPredicates: every key column equals its value,
      and NULL equals nothing. */
  predicate Matches(row: Row, cols: seq<string>, vals: seq<Value>) {
    |cols| == |vals| &&
    forall i :: 0 <= i < |cols| ==> cols[i] in row && row[cols[i]] == vals[i] && vals[i] != Nil
  }

  function SetAll(row: Row, sets: seq<Assign>): Row {
    if sets == [] then row
    else
      var n := |sets| - 1;
      SetAll(row, sets[..n])[sets[n].column := sets[n].value]
  }

  function UpdateRow(row: Row, sets: seq<Assign>, cols: seq<string>, vals: seq<Value>): Row {
    if Matches(row, cols, vals) then SetAll(row, sets) else row
  }

  function UpdateRows(t: Rows, sets: seq<Assign>, cols: seq<string>, vals: seq<Value>): Rows {
    if t == [] then [] else [UpdateRow(t[0], sets, cols, vals)] + UpdateRows(t[1..], sets, cols, vals)
  }

  function DeleteRows(t: Rows, cols: seq<string>, vals: seq<Value>): Rows {
    if t == [] then [] else (if Matches(t[0], cols, vals) then [] else [t[0]]) + DeleteRows(t[1..], cols, vals)
  }

  function OnTable(st: Stmt, server: Server, t: Rows): Rows
    requires !st.Ddl?
  {
    match st
    case Update(_, sets, cols, vals) => UpdateRows(t, sets, cols, vals)
    case DeleteFrom(_, cols, vals) => DeleteRows(t, cols, vals)
    case InsertInto(_, ins) => t + [server.stored(ins)]
  }

  function Exec(server: Server, st: Stmt, db: DB): DB {
    if st.Ddl? then server.alter(st.change, db)
    else if st.id in db then db[st.id := OnTable(st, server, db[st.id])]
    else db
  }

  function ExecAll(server: Server, sts: seq<Stmt>, db: DB): DB {
    if sts == [] then db
    else
      var n := |sts| - 1;
      Exec(server, sts[n], ExecAll(server, sts[..n], db))
  }

  // ---------- rendering ----------

  function TableOf(c: CellChange): TableId { TableId(c.database, c.table) }

  function UpdateOf(c: CellChange): Stmt {
    Update(TableOf(c), [Assign(c.column, c.newValue)], c.pkCols, c.pkVals)
  }

  /** multiUpdateSQL: one SET per cell, in order, where the first cell's key
      says. */
  function MultiUpdate(cells: seq<CellChange>): Stmt
    requires cells != []
  {
    Update(TableOf(cells[0]), seq(|cells|, i requires 0 <= i < |cells| => Assign(cells[i].column, cells[i].newValue)),
           cells[0].pkCols, cells[0].pkVals)
  }

  function StmtOf(c: Change): Stmt {
    match c
    case Cell(x) => UpdateOf(x)
    case Delete(x) => DeleteFrom(TableId(x.database, x.table), x.pkCols, x.pkVals)
    case Insert(x) => InsertInto(TableId(x.database, x.table), x)
    case Schema(x) => Ddl(x)
  }

  /** Every staged change on its own, in staging order. */
  function Each(ops: seq<Change>): (r: seq<Stmt>)
    ensures |r| == |ops|
  {
    seq(|ops|, i requires 0 <= i < |ops| => StmtOf(ops[i]))
  }

  /** rowIdentity: the text that names a row. */
  function RowId(database: string, table: string, pkVals: seq<Value>): string {
    JoinNul([database, table] + RenderAll(pkVals))
  }

  function CellRow(c: CellChange): string { RowId(c.database, c.table, c.pkVals) }

  function DeletedRows(ops: seq<Change>): set<string> {
    set i | 0 <= i < |ops| && ops[i].Delete? :: RowId(ops[i].del.database, ops[i].del.table, ops[i].del.pkVals)
  }

  /** A cell edit that takes part in merging: its row has no staged delete. */
  predicate Merges(c: Change, gone: set<string>) { c.Cell? && CellRow(c.cell) !in gone }

  /** The merging edits of one row, in staging order. */
  function CellsFor(ops: seq<Change>, gone: set<string>, rid: string): (r: seq<CellChange>)
    ensures forall i :: 0 <= i < |r| ==> CellRow(r[i]) == rid
  {
    if ops == [] then []
    else
      var n := |ops| - 1;
      CellsFor(ops[..n], gone, rid) +
      if Merges(ops[n], gone) && CellRow(ops[n].cell) == rid then [ops[n].cell] else []
  }

  /** The position of the first edit of a row, or |ops|. */
  function FirstAt(ops: seq<Change>, gone: set<string>, rid: string): (i: nat)
    ensures i <= |ops|
    ensures i < |ops| ==> Merges(ops[i], gone) && CellRow(ops[i].cell) == rid
    ensures forall j :: 0 <= j < i ==> !(Merges(ops[j], gone) && CellRow(ops[j].cell) == rid)
  {
    if ops == [] || (Merges(ops[0], gone) && CellRow(ops[0].cell) == rid) then 0
    else 1 + FirstAt(ops[1..], gone, rid)
  }

  /** What position i of the op list contributes to the commit: a row's first
      edit stands for all of them, its later ones for nothing, and everything
      else for itself. */
  function Slot(ops: seq<Change>, gone: set<string>, i: nat): seq<Stmt>
    requires i < |ops|
  {
    if !Merges(ops[i], gone) then [StmtOf(ops[i])]
    else if FirstAt(ops, gone, CellRow(ops[i].cell)) == i then
      CellsForSome(ops, gone, i);
      [MultiUpdate(CellsFor(ops, gone, CellRow(ops[i].cell)))]
    else []
  }

  lemma {:induction false} CellsForSome(ops: seq<Change>, gone: set<string>, i: nat)
    requires i < |ops| && Merges(ops[i], gone)
    ensures CellsFor(ops, gone, CellRow(ops[i].cell)) != []
  {
    if i < |ops| - 1 {
      CellsForSome(ops[..|ops| - 1], gone, i);
    }
  }

  /** The slots of the first n positions, end to end. */
  function Slots(ops: seq<Change>, gone: set<string>, n: nat): seq<Stmt>
    requires n <= |ops|
  {
    if n == 0 then [] else Slots(ops, gone, n - 1) + Slot(ops, gone, n - 1)
  }

  /** The statements of a commit. */
  function Merged(ops: seq<Change>): seq<Stmt> {
    Slots(ops, DeletedRows(ops), |ops|)
  }

  // ---------- rows ----------

  /** No assignment touches a key column. */
  ghost predicate SparesKey(sets: seq<Assign>, cols: seq<string>) {
    forall i :: 0 <= i < |sets| ==> sets[i].column !in cols
  }

  lemma {:induction false} SetAllKeeps(row: Row, sets: seq<Assign>, cols: seq<string>)
    requires SparesKey(sets, cols)
    ensures forall c :: c in cols ==> (c in SetAll(row, sets) <==> c in row)
    ensures forall c :: c in cols && c in row ==> SetAll(row, sets)[c] == row[c]
  {
    if sets != [] {
      SetAllKeeps(row, sets[..|sets| - 1], cols);
    }
  }

  lemma UpdateKeepsMatch(row: Row, sets: seq<Assign>, cols: seq<string>, vals: seq<Value>, vals': seq<Value>)
    requires SparesKey(sets, cols)
    ensures Matches(UpdateRow(row, sets, cols, vals), cols, vals') == Matches(row, cols, vals')
  {
    hide SetAll;
    SetAllKeeps(row, sets, cols);
  }

  lemma MatchesOne(row: Row, cols: seq<string>, vals: seq<Value>, vals': seq<Value>)
    requires Matches(row, cols, vals) && Matches(row, cols, vals')
    ensures vals == vals'
  {
    assert forall i :: 0 <= i < |cols| ==> vals[i] == row[cols[i]] == vals'[i];
  }

  /** The assignments never turn a row with the key vals into one with the key
      to. */
  ghost predicate NeverLands(sets: seq<Assign>, cols: seq<string>, vals: seq<Value>, to: seq<Value>) {
    forall r: Row :: Matches(r, cols, vals) ==> !Matches(SetAll(r, sets), cols, to)
  }

  /** The key a row ends up with when one of its columns is set. */
  function KeyAfter(cols: seq<string>, vals: seq<Value>, a: Assign): seq<Value>
    requires |cols| == |vals|
  {
    seq(|cols|, i requires 0 <= i < |cols| => if cols[i] == a.column then a.value else vals[i])
  }

  /** Only the last assignment sets a key column, if any does. */
  lemma SetsLand(sets: seq<Assign>, a: Assign, cols: seq<string>, vals: seq<Value>, to: seq<Value>)
    requires SparesKey(sets, cols) && (|cols| == |vals| ==> KeyAfter(cols, vals, a) != to)
    ensures NeverLands(sets + [a], cols, vals, to)
  {
    hide SetAll;
    forall r: Row | Matches(r, cols, vals)
      ensures !Matches(SetAll(r, sets + [a]), cols, to)
    {
      var k := SetAll(r, sets);
      SetAllKeeps(r, sets, cols);
      SetAllSnoc(r, sets, a);
      if Matches(k[a.column := a.value], cols, to) { LandsOn(k, a, cols, vals, to); }
    }
  }

  lemma LandsOn(r: Row, a: Assign, cols: seq<string>, vals: seq<Value>, to: seq<Value>)
    requires Matches(r, cols, vals) && Matches(r[a.column := a.value], cols, to)
    ensures |cols| == |vals| && KeyAfter(cols, vals, a) == to
  {
  }

  lemma SetAllSnoc(r: Row, sets: seq<Assign>, a: Assign)
    ensures SetAll(r, sets + [a]) == SetAll(r, sets)[a.column := a.value]
  {
    assert (sets + [a])[..|sets|] == sets;
  }

  lemma {:induction false} UpdatesCommute(t: Rows, sets: seq<Assign>, sets': seq<Assign>, cols: seq<string>, vals: seq<Value>, vals': seq<Value>)
    requires vals != vals' && NeverLands(sets, cols, vals, vals') && NeverLands(sets', cols, vals', vals)
    ensures UpdateRows(UpdateRows(t, sets, cols, vals), sets', cols, vals') ==
            UpdateRows(UpdateRows(t, sets', cols, vals'), sets, cols, vals)
  {
    hide UpdateRow, NeverLands, SparesKey;
    if t != [] {
      var r := t[0];
      var a, b := UpdateRow(r, sets, cols, vals), UpdateRow(r, sets', cols, vals');
      UpdateRowsCommute(r, sets, sets', cols, vals, vals');
      UpdatesCommute(t[1..], sets, sets', cols, vals, vals');
      var p, q := UpdateRows(t[1..], sets, cols, vals), UpdateRows(t[1..], sets', cols, vals');
      assert ([a] + p)[1..] == p && ([b] + q)[1..] == q;
    }
  }

  lemma UpdateRowsCommute(r: Row, sets: seq<Assign>, sets': seq<Assign>, cols: seq<string>, vals: seq<Value>, vals': seq<Value>)
    requires vals != vals' && NeverLands(sets, cols, vals, vals') && NeverLands(sets', cols, vals', vals)
    ensures UpdateRow(UpdateRow(r, sets, cols, vals), sets', cols, vals') ==
            UpdateRow(UpdateRow(r, sets', cols, vals'), sets, cols, vals)
  {
    hide SetAll, Matches;
    if Matches(r, cols, vals) && Matches(r, cols, vals') {
      MatchesOne(r, cols, vals, vals');
    }
  }

  lemma UpdateMissesKey(r: Row, sets: seq<Assign>, cols: seq<string>, vals: seq<Value>, vals': seq<Value>)
    requires vals != vals' && NeverLands(sets, cols, vals, vals')
    ensures Matches(UpdateRow(r, sets, cols, vals), cols, vals') == Matches(r, cols, vals')
    ensures Matches(r, cols, vals') ==> UpdateRow(r, sets, cols, vals) == r
  {
    hide SetAll, Matches;
    if Matches(r, cols, vals) && Matches(r, cols, vals') {
      MatchesOne(r, cols, vals, vals');
    }
  }

  lemma {:induction false} UpdateDeleteCommute(t: Rows, sets: seq<Assign>, cols: seq<string>, vals: seq<Value>, vals': seq<Value>)
    requires vals != vals' && NeverLands(sets, cols, vals, vals')
    ensures DeleteRows(UpdateRows(t, sets, cols, vals), cols, vals') ==
            UpdateRows(DeleteRows(t, cols, vals'), sets, cols, vals)
  {
    hide UpdateRow, Matches, NeverLands;
    if t != [] {
      var r := t[0];
      var a := UpdateRow(r, sets, cols, vals);
      UpdateMissesKey(r, sets, cols, vals, vals');
      UpdateDeleteCommute(t[1..], sets, cols, vals, vals');
      var p, q := UpdateRows(t[1..], sets, cols, vals), DeleteRows(t[1..], cols, vals');
      assert ([a] + p)[1..] == p;
      if Matches(r, cols, vals') {
        assert [] + q == q && [] + DeleteRows(p, cols, vals') == DeleteRows(p, cols, vals');
      } else {
        assert ([r] + q)[1..] == q;
      }
    }
  }

  lemma {:induction false} UpdateAppend(t: Rows, r: Row, sets: seq<Assign>, cols: seq<string>, vals: seq<Value>)
    ensures UpdateRows(t + [r], sets, cols, vals) == UpdateRows(t, sets, cols, vals) + [UpdateRow(r, sets, cols, vals)]
  {
    hide UpdateRow;
    if t == [] {
      assert t + [r] == [r] && [r][1..] == [];
    } else {
      assert (t + [r])[1..] == t[1..] + [r];
      UpdateAppend(t[1..], r, sets, cols, vals);
    }
  }

  lemma {:induction false} UpdateTwice(t: Rows, sets: seq<Assign>, a: Assign, cols: seq<string>, vals: seq<Value>)
    requires SparesKey(sets, cols)
    ensures UpdateRows(t, sets + [a], cols, vals) == UpdateRows(UpdateRows(t, sets, cols, vals), [a], cols, vals)
  {
    hide UpdateRow;
    if t != [] {
      var r := t[0];
      UpdateRowTwice(r, sets, a, cols, vals);
      UpdateTwice(t[1..], sets, a, cols, vals);
      var p := UpdateRows(t[1..], sets, cols, vals);
      assert ([UpdateRow(r, sets, cols, vals)] + p)[1..] == p;
    }
  }

  lemma UpdateRowTwice(r: Row, sets: seq<Assign>, a: Assign, cols: seq<string>, vals: seq<Value>)
    requires SparesKey(sets, cols)
    ensures UpdateRow(r, sets + [a], cols, vals) == UpdateRow(UpdateRow(r, sets, cols, vals), [a], cols, vals)
  {
    hide Matches;
    UpdateKeepsMatch(r, sets, cols, vals, vals);
    assert (sets + [a])[..|sets|] == sets;
    assert [a][..0] == [];
    assert SetAll(SetAll(r, sets), [a]) == SetAll(r, sets)[a.column := a.value];
  }

  // ---------- statements that do not interfere ----------

  /** A schema change leaves a table alone and does not look at its rows. */
  ghost predicate Spares(server: Server, c: SchemaChange, id: TableId) {
    forall db: DB, t: Rows :: SparesWith(server, c, id, db, t)
  }

  ghost predicate SparesWith(server: Server, c: SchemaChange, id: TableId, db: DB, t: Rows) {
    && (id in server.alter(c, db) <==> id in db)
    && (id in db ==> server.alter(c, db[id := t]) == server.alter(c, db)[id := t])
  }

  /** Why a statement and an UPDATE can change places. */
  ghost predicate Apart(server: Server, u: Stmt, st: Stmt)
    requires u.Update?
  {
    match st
    case Ddl(c) => Spares(server, c, u.id)
    case Update(id, sets, cols, vals) =>
      id == u.id ==>
        cols == u.cols && vals != u.vals && NeverLands(sets, cols, vals, u.vals) && NeverLands(u.sets, cols, u.vals, vals)
    case DeleteFrom(id, cols, vals) =>
      id == u.id ==> cols == u.cols && vals != u.vals && NeverLands(u.sets, cols, u.vals, vals)
    case InsertInto(id, ins) => id == u.id ==> !Matches(server.stored(ins), u.cols, u.vals)
  }

  lemma SameTableCommute(server: Server, u: Stmt, st: Stmt, t: Rows)
    requires u.Update? && Apart(server, u, st)
    requires !st.Ddl? && st.id == u.id
    ensures OnTable(st, server, OnTable(u, server, t)) == OnTable(u, server, OnTable(st, server, t))
  {
    hide UpdateRows, DeleteRows, Matches, NeverLands;
    match st
    case Update(_, sets, cols, vals) => UpdatesCommute(t, u.sets, sets, cols, u.vals, vals);
    case DeleteFrom(_, cols, vals) => UpdateDeleteCommute(t, u.sets, cols, u.vals, vals);
    case InsertInto(_, ins) => UpdateAppend(t, server.stored(ins), u.sets, u.cols, u.vals);
  }

  lemma Commute(server: Server, u: Stmt, st: Stmt, db: DB)
    requires u.Update? && Apart(server, u, st)
    ensures Exec(server, st, Exec(server, u, db)) == Exec(server, u, Exec(server, st, db))
  {
    hide OnTable, Matches, Spares, NeverLands;
    if st.Ddl? {
      DdlCommute(server, u, st.change, db);
    } else if st.id == u.id {
      if u.id in db {
        SameTableCommute(server, u, st, db[u.id]);
      }
    } else if st.id in db && u.id in db {
      var a, b := OnTable(st, server, db[st.id]), OnTable(u, server, db[u.id]);
      assert db[u.id := b][st.id := a] == db[st.id := a][u.id := b];
    }
  }

  lemma DdlCommute(server: Server, u: Stmt, c: SchemaChange, db: DB)
    requires u.Update? && Spares(server, c, u.id)
    ensures Exec(server, Ddl(c), Exec(server, u, db)) == Exec(server, u, Exec(server, Ddl(c), db))
  {
    hide OnTable;
    var id := u.id;
    var after := server.alter(c, db);
    assert SparesWith(server, c, id, db, []);
    if id in db {
      assert SparesWith(server, c, id, db, db[id]);
      assert db[id := db[id]] == db;
      assert after[id] == db[id];
      assert SparesWith(server, c, id, db, OnTable(u, server, db[id]));
    }
  }

  // ---------- when merging is safe ----------

  /** The table, key columns and key values of a change that names a row. */
  predicate Keyed(c: Change) { c.Cell? || c.Delete? }
  function KeyTable(c: Change): TableId
    requires Keyed(c)
  {
    if c.Cell? then TableOf(c.cell) else TableId(c.del.database, c.del.table)
  }
  function KeyCols(c: Change): seq<string>
    requires Keyed(c)
  {
    if c.Cell? then c.cell.pkCols else c.del.pkCols
  }

  /** Two edits that go into one UPDATE. */
  predicate MergesWith(a: Change, b: Change, gone: set<string>) {
    Merges(a, gone) && Merges(b, gone) && CellRow(a.cell) == CellRow(b.cell)
  }

  /** The edit, run on a row with the key it goes by, leaves it another key
      than vals. */
  predicate Avoids(c: CellChange, vals: seq<Value>) {
    |c.pkCols| == |c.pkVals| ==> KeyAfter(c.pkCols, c.pkVals, Assign(c.column, c.newValue)) != vals
  }

  /** An edit can move in front of a change: neither gives a row the key that
      the other goes by, the change inserts none with the edit's, and it is no
      schema change that touches the table. */
  ghost predicate Passes(server: Server, a: Change, c: CellChange) {
    match a
    case Cell(d) => TableOf(d) == TableOf(c) && d.pkVals != c.pkVals ==> Avoids(d, c.pkVals) && Avoids(c, d.pkVals)
    case Delete(d) => TableId(d.database, d.table) == TableOf(c) ==> Avoids(c, d.pkVals)
    case Insert(d) => TableId(d.database, d.table) == TableOf(c) ==> !Matches(server.stored(d), c.pkCols, c.pkVals)
    case Schema(d) => Spares(server, d, TableOf(c))
  }

  predicate OneKey(a: Change, b: Change) {
    Keyed(a) && Keyed(b) && KeyTable(a) == KeyTable(b) ==> KeyCols(a) == KeyCols(b)
  }

  /** The side conditions, for the rows in gone out of merging. */
  ghost predicate MergeableUnder(server: Server, ops: seq<Change>, gone: set<string>) {
    && DeletedRows(ops) <= gone
    && (forall i :: 0 <= i < |ops| ==> NulFreeChange(ops[i]))
    && (forall i, j :: 0 <= i < |ops| && 0 <= j < |ops| ==> OneKey(ops[i], ops[j]))
    && KeysLast(ops, gone)
    && (forall h, i, j :: 0 <= h < i < j < |ops| && MergesWith(ops[h], ops[j], gone) ==> Passes(server, ops[i], ops[j].cell))
  }

  predicate SparesOwnKey(c: CellChange) { c.column !in c.pkCols }

  /** No edit but a row's last sets a key column. */
  predicate KeysLast(ops: seq<Change>, gone: set<string>) {
    forall h, j :: 0 <= h < j < |ops| && MergesWith(ops[h], ops[j], gone) ==> SparesOwnKey(ops[h].cell)
  }

  /** When merging is safe: names and key values are NUL-free, a table has one
      list of key columns, no edit but a row's last sets one of them, and nothing
      staged between two edits of one row gets in the way of the second moving
      up to the first. */
  ghost predicate Mergeable(server: Server, ops: seq<Change>) { MergeableUnder(server, ops, DeletedRows(ops)) }

  lemma MergeablePrefix(server: Server, ops: seq<Change>, gone: set<string>, n: nat)
    requires MergeableUnder(server, ops, gone) && n <= |ops|
    ensures MergeableUnder(server, ops[..n], gone)
  {
    hide NulFreeChange, OneKey, MergesWith, Passes, RowId;
    assert DeletedRows(ops[..n]) <= DeletedRows(ops);
  }

  /** The row text names the row. */
  lemma RowIdIsRow(a: CellChange, b: CellChange)
    requires NulFreeChange(Cell(a)) && NulFreeChange(Cell(b)) && CellRow(a) == CellRow(b)
    ensures a.database == b.database && a.table == b.table && a.pkVals == b.pkVals
  {
    hide JoinNul, Render, RenderAll;
    var p, q := [a.database, a.table] + RenderAll(a.pkVals), [b.database, b.table] + RenderAll(b.pkVals);
    RenderAllNulFree(a.pkVals);
    RenderAllNulFree(b.pkVals);
    JoinNulInjective(p, q);
    assert p[0] == q[0] && p[1] == q[1];
    assert p[2..] == RenderAll(a.pkVals) && q[2..] == RenderAll(b.pkVals);
    RenderAllInjective(a.pkVals, b.pkVals);
  }

  // ---------- the proof ----------

  /** Everything that is true of the groups of a prefix. */
  lemma {:induction false} CellsForIn(ops: seq<Change>, gone: set<string>, rid: string)
    ensures forall c :: c in CellsFor(ops, gone, rid) ==> exists i :: 0 <= i < |ops| && ops[i] == Cell(c) && Merges(ops[i], gone)
  {
    hide CellRow;
    if ops != [] {
      var n := |ops| - 1;
      CellsForIn(ops[..n], gone, rid);
      forall c | c in CellsFor(ops, gone, rid)
        ensures exists i :: 0 <= i < |ops| && ops[i] == Cell(c) && Merges(ops[i], gone)
      {
        if c in CellsFor(ops[..n], gone, rid) {
          var i :| 0 <= i < n && ops[..n][i] == Cell(c) && Merges(ops[..n][i], gone);
          assert ops[i] == Cell(c);
        } else {
          assert ops[n] == Cell(c);
        }
      }
    }
  }

  predicate AllButLastSpare(cells: seq<CellChange>) {
    forall k :: 0 <= k < |cells| - 1 ==> SparesOwnKey(cells[k])
  }

  /** All edits of a row but its last spare the key. */
  lemma {:induction false} EarlierSpareKey(ops: seq<Change>, gone: set<string>, rid: string)
    requires KeysLast(ops, gone)
    ensures AllButLastSpare(CellsFor(ops, gone, rid))
    decreases |ops|
  {
    hide CellRow;
    if ops != [] {
      var n := |ops| - 1;
      var p := ops[..n];
      EarlierSpareKey(p, gone, rid);
      var less := CellsFor(p, gone, rid);
      if Merges(ops[n], gone) && CellRow(ops[n].cell) == rid {
        CellsForIn(p, gone, rid);
        forall k | 0 <= k < |less|
          ensures SparesOwnKey(less[k])
        {
          assert less[k] in less;
          var h :| 0 <= h < n && p[h] == Cell(less[k]) && Merges(p[h], gone);
          assert MergesWith(ops[h], ops[n], gone);
        }
      } else {
        assert CellsFor(ops, gone, rid) == less + [] == less;
      }
    }
  }

  /** The merged UPDATE of a row names that row, by its table's key columns, and
      only its last assignment may set one of them. */
  lemma GroupShape(server: Server, ops: seq<Change>, gone: set<string>, c: CellChange)
    requires MergeableUnder(server, ops, gone) && Cell(c) in ops
    requires CellsFor(ops, gone, CellRow(c)) != []
    ensures var cells := CellsFor(ops, gone, CellRow(c));
            var u, n := MultiUpdate(cells), |cells| - 1;
            && u.id == TableOf(c) && u.cols == c.pkCols && u.vals == c.pkVals && SparesKey(u.sets[..n], u.cols)
            && u.sets == u.sets[..n] + [Assign(cells[n].column, cells[n].newValue)]
            && TableOf(cells[n]) == TableOf(c) && cells[n].pkCols == c.pkCols && cells[n].pkVals == c.pkVals
  {
    hide CellRow, NulFreeChange, Matches, Spares, Passes, CellsFor, KeysLast, DeletedRows;
    var rid := CellRow(c);
    var cells := CellsFor(ops, gone, rid);
    CellsForIn(ops, gone, rid);
    EarlierSpareKey(ops, gone, rid);
    var p :| 0 <= p < |ops| && ops[p] == Cell(c);
    forall k | 0 <= k < |cells|
      ensures TableOf(cells[k]) == TableOf(c) && cells[k].pkCols == c.pkCols && cells[k].pkVals == c.pkVals
    {
      assert cells[k] in cells;
      var i :| 0 <= i < |ops| && ops[i] == Cell(cells[k]) && Merges(ops[i], gone);
      assert NulFreeChange(ops[i]) && NulFreeChange(ops[p]);
      RowIdIsRow(cells[k], c);
      assert OneKey(ops[i], ops[p]);
    }
  }

  lemma SingleUpdate(c: CellChange)
    ensures MultiUpdate([c]) == UpdateOf(c)
  {
    var sets := seq(1, i requires 0 <= i < 1 => Assign([c][i].column, [c][i].newValue));
    assert sets == [Assign(c.column, c.newValue)];
  }

  /** Nothing between a row's first edit and a later one, the last of ops, minds
      the later one moving past it. */
  lemma SlotApart(server: Server, ops: seq<Change>, gone: set<string>, c: CellChange, i: nat, st: Stmt)
    requires MergeableUnder(server, ops, gone) && ops != [] && ops[|ops| - 1] == Cell(c) && Merges(Cell(c), gone)
    requires FirstAt(ops, gone, CellRow(c)) < i < |ops| - 1 && st in Slot(ops, gone, i)
    ensures Apart(server, UpdateOf(c), st)
  {
    hide NulFreeChange, Matches, Spares, JoinNul, RenderAll, NeverLands, CellsFor, SparesKey, Avoids, KeysLast;
    var f, n := FirstAt(ops, gone, CellRow(c)), |ops| - 1;
    BetweenPasses(server, ops, gone, f, i, n);
    match ops[i]
    case Cell(d) =>
      if Merges(ops[i], gone) {
        GroupApart(server, ops, gone, c, i);
      } else {
        SetsAt(d);
        EditApart(server, c, d, st);
      }
    case Delete(d) =>
      assert RowId(d.database, d.table, d.pkVals) in DeletedRows(ops);
      if TableId(d.database, d.table) == TableOf(c) { AvoidsNever(c, d.pkVals); }
    case Insert(d) =>
    case Schema(d) =>
  }

  lemma SetsAt(c: CellChange)
    ensures var u := UpdateOf(c); u.sets[..0] == [] && SparesKey(u.sets[..0], u.cols) && u.sets == u.sets[..0] + [u.sets[0]]
  {
  }

  lemma AvoidsNever(c: CellChange, vals: seq<Value>)
    requires Avoids(c, vals)
    ensures NeverLands(UpdateOf(c).sets, c.pkCols, c.pkVals, vals)
  {
    hide NeverLands, KeyAfter;
    assert [] + UpdateOf(c).sets == UpdateOf(c).sets;
    SetsLand([], Assign(c.column, c.newValue), c.pkCols, c.pkVals, vals);
  }

  /** A row's last edit stands no earlier than its first. */
  lemma LastStands(ops: seq<Change>, gone: set<string>, rid: string) returns (k: nat)
    requires FirstAt(ops, gone, rid) < |ops|
    ensures var cells := CellsFor(ops, gone, rid);
            && cells != [] && FirstAt(ops, gone, rid) <= k < |ops| && ops[k] == Cell(cells[|cells| - 1])
            && Merges(ops[k], gone) && CellRow(ops[k].cell) == rid
  {
    hide CellRow, CellsFor;
    CellsForSome(ops, gone, FirstAt(ops, gone, rid));
    CellsForIn(ops, gone, rid);
    var cells := CellsFor(ops, gone, rid);
    var d := cells[|cells| - 1];
    assert d in cells;
    k :| 0 <= k < |ops| && ops[k] == Cell(d) && Merges(ops[k], gone);
  }

  lemma BetweenPasses(server: Server, ops: seq<Change>, gone: set<string>, h: nat, i: nat, j: nat)
    requires MergeableUnder(server, ops, gone) && h < i < j < |ops| && MergesWith(ops[h], ops[j], gone)
    ensures Passes(server, ops[i], ops[j].cell) && OneKey(ops[i], ops[j])
  {
    hide NulFreeChange, Passes, OneKey, MergesWith, KeysLast, DeletedRows;
  }

  /** The last edit of a row that is first edited in between is itself in
      between. */
  lemma GroupPasses(server: Server, ops: seq<Change>, gone: set<string>, c: CellChange, i: nat)
    requires MergeableUnder(server, ops, gone) && ops != [] && ops[|ops| - 1] == Cell(c) && Merges(Cell(c), gone)
    requires FirstAt(ops, gone, CellRow(c)) < i < |ops| - 1 && Merges(ops[i], gone)
    requires FirstAt(ops, gone, CellRow(ops[i].cell)) == i
    ensures var rid := CellRow(ops[i].cell);
            var cells := CellsFor(ops, gone, rid);
            cells != [] && rid != CellRow(c) &&
            var d := cells[|cells| - 1]; CellRow(d) == rid && Passes(server, Cell(d), c) && OneKey(Cell(d), Cell(c))
  {
    hide MergeableUnder, Passes, OneKey, CellRow, CellsFor;
    var f, n := FirstAt(ops, gone, CellRow(c)), |ops| - 1;
    var k := LastStands(ops, gone, CellRow(ops[i].cell));
    assert k != n;
    BetweenPasses(server, ops, gone, f, k, n);
  }

  /** Another row's statement in between. */
  lemma GroupApart(server: Server, ops: seq<Change>, gone: set<string>, c: CellChange, i: nat)
    requires MergeableUnder(server, ops, gone) && ops != [] && ops[|ops| - 1] == Cell(c) && Merges(Cell(c), gone)
    requires FirstAt(ops, gone, CellRow(c)) < i < |ops| - 1 && Merges(ops[i], gone)
    requires FirstAt(ops, gone, CellRow(ops[i].cell)) == i
    ensures var cells := CellsFor(ops, gone, CellRow(ops[i].cell));
            cells != [] && Apart(server, UpdateOf(c), MultiUpdate(cells))
  {
    hide MergeableUnder, Passes, OneKey, CellRow, CellsFor, SparesKey, Apart, UpdateOf, FirstAt;
    GroupPasses(server, ops, gone, c, i);
    assert ops[i] in ops && ops[i] == Cell(ops[i].cell);
    GroupShape(server, ops, gone, ops[i].cell);
    var cells := CellsFor(ops, gone, CellRow(ops[i].cell));
    EditApart(server, c, cells[|cells| - 1], MultiUpdate(cells));
  }

  lemma EditApart(server: Server, c: CellChange, d: CellChange, st: Stmt)
    requires CellRow(d) != CellRow(c) && Passes(server, Cell(d), c) && OneKey(Cell(d), Cell(c))
    requires st.Update? && st.id == TableOf(d) && st.cols == d.pkCols && st.vals == d.pkVals && st.sets != []
    requires var n := |st.sets| - 1;
             SparesKey(st.sets[..n], st.cols) && st.sets == st.sets[..n] + [Assign(d.column, d.newValue)]
    ensures Apart(server, UpdateOf(c), st)
  {
    hide NeverLands, KeyAfter, JoinNul, RenderAll, SparesKey;
    if TableOf(d) == TableOf(c) {
      assert d.pkVals != c.pkVals;
      SetsLand(st.sets[..|st.sets| - 1], Assign(d.column, d.newValue), d.pkCols, d.pkVals, c.pkVals);
      AvoidsNever(c, d.pkVals);
    }
  }

  /** Runs the slots lo..hi. */
  function ExecSlots(server: Server, ops: seq<Change>, gone: set<string>, lo: nat, hi: nat, db: DB): DB
    requires lo <= hi <= |ops|
  {
    if lo == hi then db
    else ExecAll(server, Slot(ops, gone, hi - 1), ExecSlots(server, ops, gone, lo, hi - 1, db))
  }

  lemma ExecOne(server: Server, st: Stmt, db: DB)
    ensures ExecAll(server, [st], db) == Exec(server, st, db)
    ensures ExecAll(server, [], db) == db
  {
    assert [st][..0] == [];
  }

  lemma {:induction false} ExecAppend(server: Server, a: seq<Stmt>, b: seq<Stmt>, db: DB)
    ensures ExecAll(server, a + b, db) == ExecAll(server, b, ExecAll(server, a, db))
  {
    hide Exec;
    if b == [] {
      assert a + b == a;
    } else {
      var n := |b| - 1;
      assert (a + b)[..|a| + n] == a + b[..n];
      ExecAppend(server, a, b[..n], db);
    }
  }

  lemma {:induction false} SlotsExec(server: Server, ops: seq<Change>, gone: set<string>, n: nat, db: DB)
    requires n <= |ops|
    ensures ExecAll(server, Slots(ops, gone, n), db) == ExecSlots(server, ops, gone, 0, n, db)
  {
    hide Exec, Slot;
    if n > 0 {
      SlotsExec(server, ops, gone, n - 1, db);
      ExecAppend(server, Slots(ops, gone, n - 1), Slot(ops, gone, n - 1), db);
    }
  }

  lemma {:induction false} SlotsSplit(server: Server, ops: seq<Change>, gone: set<string>, lo: nat, mid: nat, hi: nat, db: DB)
    requires lo <= mid <= hi <= |ops|
    ensures ExecSlots(server, ops, gone, lo, hi, db) ==
            ExecSlots(server, ops, gone, mid, hi, ExecSlots(server, ops, gone, lo, mid, db))
  {
    hide ExecAll, Slot;
    if mid < hi {
      SlotsSplit(server, ops, gone, lo, mid, hi - 1, db);
    }
  }

  lemma {:induction false} SlotsSame(server: Server, a: seq<Change>, b: seq<Change>, gone: set<string>, lo: nat, hi: nat, db: DB)
    requires lo <= hi <= |a| && hi <= |b|
    requires forall i :: lo <= i < hi ==> Slot(a, gone, i) == Slot(b, gone, i)
    ensures ExecSlots(server, a, gone, lo, hi, db) == ExecSlots(server, b, gone, lo, hi, db)
  {
    hide ExecAll, Slot;
    if lo < hi {
      SlotsSame(server, a, b, gone, lo, hi - 1, db);
    }
  }

  lemma SlotShort(ops: seq<Change>, gone: set<string>, i: nat)
    requires i < |ops|
    ensures var s := Slot(ops, gone, i); s == [] || s == [s[0]]
  {
  }

  /** The last edit moves from before a range of slots behind its row's first to
      after it. */
  lemma {:induction false} MovePast(server: Server, ops: seq<Change>, gone: set<string>, c: CellChange, lo: nat, hi: nat, db: DB)
    requires MergeableUnder(server, ops, gone) && ops != [] && ops[|ops| - 1] == Cell(c) && Merges(Cell(c), gone)
    requires FirstAt(ops, gone, CellRow(c)) < lo <= hi < |ops|
    ensures ExecSlots(server, ops, gone, lo, hi, Exec(server, UpdateOf(c), db)) ==
            Exec(server, UpdateOf(c), ExecSlots(server, ops, gone, lo, hi, db))
  {
    hide Exec, Slot, Merges, CellRow, MergeableUnder, Apart;
    if lo < hi {
      MovePast(server, ops, gone, c, lo, hi - 1, db);
      var s, mid := Slot(ops, gone, hi - 1), ExecSlots(server, ops, gone, lo, hi - 1, db);
      SlotShort(ops, gone, hi - 1);
      if s != [] {
        SlotApart(server, ops, gone, c, hi - 1, s[0]);
        ExecOne(server, s[0], mid);
        ExecOne(server, s[0], Exec(server, UpdateOf(c), mid));
        Commute(server, UpdateOf(c), s[0], mid);
      }
    }
  }

  /** One more assignment to the same row is one more UPDATE of it. */
  lemma UpdateGrows(server: Server, id: TableId, sets: seq<Assign>, a: Assign, cols: seq<string>, vals: seq<Value>, db: DB)
    requires SparesKey(sets, cols)
    ensures Exec(server, Update(id, sets + [a], cols, vals), db) ==
            Exec(server, Update(id, [a], cols, vals), Exec(server, Update(id, sets, cols, vals), db))
  {
    hide UpdateRows;
    if id in db {
      UpdateTwice(db[id], sets, a, cols, vals);
      var t := UpdateRows(db[id], sets, cols, vals);
      assert db[id := t][id := UpdateRows(t, [a], cols, vals)] == db[id := UpdateRows(t, [a], cols, vals)];
    }
  }

  lemma CellsForSnoc(p: seq<Change>, gone: set<string>, c: Change, rid: string)
    ensures CellsFor(p + [c], gone, rid) ==
            CellsFor(p, gone, rid) + if Merges(c, gone) && CellRow(c.cell) == rid then [c.cell] else []
  {
    assert (p + [c])[..|p|] == p;
  }

  lemma FirstAtSnoc(p: seq<Change>, gone: set<string>, c: Change, rid: string)
    ensures var f := FirstAt(p, gone, rid);
            FirstAt(p + [c], gone, rid) ==
            if f < |p| then f else if Merges(c, gone) && CellRow(c.cell) == rid then |p| else |p| + 1
  {
    hide Merges, CellRow;
    var q := p + [c];
    var f, g := FirstAt(p, gone, rid), FirstAt(q, gone, rid);
    assert forall i :: 0 <= i < |p| ==> q[i] == p[i];
    assert q[|p|] == c;
  }

  lemma SlotSnoc(p: seq<Change>, gone: set<string>, c: Change, i: nat)
    requires i < |p|
    requires !(Merges(c, gone) && Merges(p[i], gone) && CellRow(p[i].cell) == CellRow(c.cell) &&
               FirstAt(p, gone, CellRow(c.cell)) == i)
    ensures Slot(p + [c], gone, i) == Slot(p, gone, i)
  {
    hide CellRow, CellsFor, FirstAt;
    if Merges(p[i], gone) {
      CellsForSnoc(p, gone, c, CellRow(p[i].cell));
      FirstAtSnoc(p, gone, c, CellRow(p[i].cell));
      var cells := CellsFor(p, gone, CellRow(p[i].cell));
      assert cells + [] == cells;
    }
  }

  /** Staging one more change does one more change to the database, merged or
      not. */
  lemma MergeStep(server: Server, p: seq<Change>, c: Change, gone: set<string>, db: DB)
    requires MergeableUnder(server, p + [c], gone)
    ensures var q := p + [c];
            ExecSlots(server, q, gone, 0, |q|, db) == Exec(server, StmtOf(c), ExecSlots(server, p, gone, 0, |p|, db))
  {
    hide Exec, ExecAll, MergeableUnder, Slot, CellRow, FirstAt, CellsFor;
    var q, n := p + [c], |p|;
    var f := if Merges(c, gone) then FirstAt(p, gone, CellRow(c.cell)) else n;
    if f < n {
      MergeInto(server, p, c, gone, db);
    } else {
      forall i | 0 <= i < n
        ensures Slot(q, gone, i) == Slot(p, gone, i)
      {
        SlotSnoc(p, gone, c, i);
      }
      SlotsSame(server, p, q, gone, 0, n, db);
      LastSlot(p, gone, c);
      ExecOne(server, StmtOf(c), ExecSlots(server, p, gone, 0, n, db));
    }
  }

  /** A change with no earlier edit of its row has a slot of its own. */
  lemma LastSlot(p: seq<Change>, gone: set<string>, c: Change)
    requires Merges(c, gone) ==> FirstAt(p, gone, CellRow(c.cell)) == |p|
    ensures Slot(p + [c], gone, |p|) == [StmtOf(c)]
  {
    hide CellRow, FirstAt;
    var q := p + [c];
    if Merges(c, gone) {
      var rid := CellRow(c.cell);
      FirstAtSnoc(p, gone, c, rid);
      CellsForSnoc(p, gone, c, rid);
      CellsForNone(p, gone, rid);
      assert [] + [c.cell] == [c.cell];
      SingleUpdate(c.cell);
    }
  }

  lemma {:induction false} CellsForNone(p: seq<Change>, gone: set<string>, rid: string)
    requires FirstAt(p, gone, rid) == |p|
    ensures CellsFor(p, gone, rid) == []
  {
    if p != [] {
      var n := |p| - 1;
      FirstAtSnoc(p[..n], gone, p[n], rid);
      assert p[..n] + [p[n]] == p;
      CellsForNone(p[..n], gone, rid);
    }
  }

  /** The case that merges: the new edit joins the statement at its row's first
      edit, and that is as if it had run last. */
  lemma MergeInto(server: Server, p: seq<Change>, c: Change, gone: set<string>, db: DB)
    requires MergeableUnder(server, p + [c], gone)
    requires Merges(c, gone) && FirstAt(p, gone, CellRow(c.cell)) < |p|
    ensures var q := p + [c];
            ExecSlots(server, q, gone, 0, |q|, db) == Exec(server, StmtOf(c), ExecSlots(server, p, gone, 0, |p|, db))
  {
    hide Exec, ExecAll, MergeableUnder, Slot, CellRow, FirstAt, CellsFor;
    var q, n, rid := p + [c], |p|, CellRow(c.cell);
    var f := FirstAt(p, gone, rid);
    var u := UpdateOf(c.cell);
    forall i | 0 <= i < n && i != f
      ensures Slot(q, gone, i) == Slot(p, gone, i)
    {
      SlotSnoc(p, gone, c, i);
    }
    var before := ExecSlots(server, p, gone, 0, f, db);
    SlotsSame(server, p, q, gone, 0, f, db);
    GroupGrows(server, p, c, gone, before);
    var mid := ExecAll(server, Slot(p, gone, f), before);
    assert ExecAll(server, Slot(q, gone, f), before) == Exec(server, u, mid);
    SlotsSplit(server, p, gone, 0, f + 1, n, db);
    SlotsSplit(server, q, gone, 0, f + 1, n, db);
    SlotsSame(server, p, q, gone, f + 1, n, Exec(server, u, mid));
    LaterSlot(p, gone, c);
    ExecOne(server, u, db);
    assert q[n] == c == Cell(c.cell);
    FirstAtSnoc(p, gone, c, rid);
    SlotsSame(server, p, q, gone, f + 1, n, mid);
    MovePast(server, q, gone, c.cell, f + 1, n, mid);
    ExecNone(server, ExecSlots(server, q, gone, 0, n, db));
  }

  lemma ExecNone(server: Server, db: DB)
    ensures ExecAll(server, [], db) == db
  {
  }

  /** A later edit has no slot of its own. */
  lemma LaterSlot(p: seq<Change>, gone: set<string>, c: Change)
    requires Merges(c, gone) && FirstAt(p, gone, CellRow(c.cell)) < |p|
    ensures Slot(p + [c], gone, |p|) == []
  {
    hide CellRow, FirstAt;
    FirstAtSnoc(p, gone, c, CellRow(c.cell));
  }

  lemma GroupGrows(server: Server, p: seq<Change>, c: Change, gone: set<string>, db: DB)
    requires MergeableUnder(server, p + [c], gone)
    requires Merges(c, gone) && FirstAt(p, gone, CellRow(c.cell)) < |p|
    ensures var f := FirstAt(p, gone, CellRow(c.cell));
            ExecAll(server, Slot(p + [c], gone, f), db) ==
            Exec(server, UpdateOf(c.cell), ExecAll(server, Slot(p, gone, f), db))
  {
    hide Exec, ExecAll, CellRow, FirstAt, CellsFor, MergeableUnder;
    var q, rid := p + [c], CellRow(c.cell);
    var f := FirstAt(p, gone, rid);
    assert q[f] == p[f];
    var cells := CellsFor(p, gone, rid);
    CellsForSome(p, gone, f);
    CellsForSnoc(p, gone, c, rid);
    FirstAtSnoc(p, gone, c, rid);
    var more := cells + [c.cell];
    var u, v := MultiUpdate(cells), MultiUpdate(more);
    assert q[|p|] == c == Cell(c.cell);
    GroupShape(server, q, gone, c.cell);
    assert more[0] == cells[0];
    assert v.sets == u.sets + [Assign(c.cell.column, c.cell.newValue)];
    forall i | 0 <= i < |u.sets|
      ensures u.sets[i].column !in u.cols
    {
      assert v.sets[..|cells|][i] == v.sets[i] == u.sets[i];
    }
    UpdateGrows(server, u.id, u.sets, Assign(c.cell.column, c.cell.newValue), u.cols, u.vals, db);
    ExecOne(server, u, db);
    ExecOne(server, v, db);
  }

  lemma {:induction false} MergePrefix(server: Server, ops: seq<Change>, gone: set<string>, db: DB)
    requires MergeableUnder(server, ops, gone)
    ensures ExecSlots(server, ops, gone, 0, |ops|, db) == ExecAll(server, Each(ops), db)
    decreases |ops|
  {
    hide Exec, MergeableUnder, Slot;
    if ops != [] {
      var n := |ops| - 1;
      var p := ops[..n];
      assert p + [ops[n]] == ops;
      MergeablePrefix(server, ops, gone, n);
      MergePrefix(server, p, gone, db);
      MergeStep(server, p, ops[n], gone, db);
      assert Each(ops)[..n] == Each(p);
    }
  }

  /** The main result: the statements of a commit leave the database as running
      every staged change one by one, in staging order, would. */
  lemma MergingPreservesMeaning(server: Server, ops: seq<Change>, db: DB)
    requires Mergeable(server, ops)
    ensures ExecAll(server, Merged(ops), db) == ExecAll(server, Each(ops), db)
  {
    hide Exec, MergeableUnder, Slot, ExecAll;
    SlotsExec(server, ops, DeletedRows(ops), |ops|, db);
    MergePrefix(server, ops, DeletedRows(ops), db);
  }

  /** An edit of a row with a staged delete is never merged. */
  lemma DeletedRowNotMerged(ops: seq<Change>, i: nat, j: nat)
    requires i < |ops| && j < |ops| && ops[i].Cell? && ops[j].Delete?
    requires IsDeleteOf(ops[j], ops[i].cell.database, ops[i].cell.table, ops[i].cell.pkVals)
    ensures Slot(ops, DeletedRows(ops), i) == [UpdateOf(ops[i].cell)]
  {
    hide JoinNul;
    assert CellRow(ops[i].cell) == RowId(ops[j].del.database, ops[j].del.table, ops[j].del.pkVals);
  }

  /** A merged UPDATE sets no column twice. */
  lemma MergedColumnsDistinct(ops: seq<Change>, gone: set<string>, rid: string)
    requires DistinctKeys(ops) && forall i :: 0 <= i < |ops| ==> NulFreeChange(ops[i])
    ensures var cells := CellsFor(ops, gone, rid);
            forall a, b :: 0 <= a < b < |cells| ==> cells[a].column != cells[b].column
    decreases |ops|
  {
    hide Key, CellRow, NulFreeChange;
    if ops != [] {
      var n := |ops| - 1;
      MergedColumnsDistinct(ops[..n], gone, rid);
      var less := CellsFor(ops[..n], gone, rid);
      if Merges(ops[n], gone) && CellRow(ops[n].cell) == rid {
        CellsForIn(ops[..n], gone, rid);
        forall a | 0 <= a < |less|
          ensures less[a].column != ops[n].cell.column
        {
          assert less[a] in less;
          var i :| 0 <= i < n && ops[..n][i] == Cell(less[a]) && Merges(ops[..n][i], gone);
          assert ops[i] == Cell(less[a]) && Key(ops[i]) != Key(ops[n]);
          assert NulFreeChange(ops[i]) && NulFreeChange(ops[n]);
          RowIdIsRow(less[a], ops[n].cell);
          KeyIsTarget(ops[i], ops[n]);
        }
      }
    }
  }

  /** The condition on key columns is needed: an edit of a row's own key and a
      later edit of another of its columns, one by one, leave the second without
      a row to hit, while the merged UPDATE makes both. */
  lemma KeyEditMatters(server: Server)
    ensures var a := Cell(CellChange("", "t", ["id"], [Int(1)], "id", Int(1), Int(2)));
            var b := Cell(CellChange("", "t", ["id"], [Int(1)], "name", Str("a"), Str("x")));
            var db: DB := map[TableId("", "t") := [map["id" := Int(1), "name" := Str("a")]]];
            ExecAll(server, Merged([a, b]), db) != ExecAll(server, Each([a, b]), db)
  {
    var ca := CellChange("", "t", ["id"], [Int(1)], "id", Int(1), Int(2));
    var cb := CellChange("", "t", ["id"], [Int(1)], "name", Str("a"), Str("x"));
    var ops, id := [Cell(ca), Cell(cb)], TableId("", "t");
    var r: Row := map["id" := Int(1), "name" := Str("a")];
    var db: DB := map[id := [r]];
    KeyEditMerged(ca, cb);
    var u := MultiUpdate([ca, cb]);
    ExecOne(server, u, db);
    OneRow(r, u.sets, u.cols, u.vals);
    assert u.sets == [Assign("id", Int(2)), Assign("name", Str("x"))];
    assert u.sets[..1] == [Assign("id", Int(2))] && u.sets[..1][..0] == [];
    var m := SetAll(r, u.sets);
    assert m["name"] == Str("x");
    var e1, e2 := UpdateOf(ca), UpdateOf(cb);
    assert Each(ops) == [e1] + [e2];
    ExecAppend(server, [e1], [e2], db);
    ExecOne(server, e1, db);
    OneRow(r, e1.sets, e1.cols, e1.vals);
    assert e1.sets[..0] == [];
    var r1 := r["id" := Int(2)];
    var db1 := db[id := [r1]];
    assert Exec(server, e1, db) == db1;
    ExecOne(server, e2, db1);
    OneRow(r1, e2.sets, e2.cols, e2.vals);
    assert !Matches(r1, e2.cols, e2.vals) by {
      assert r1[e2.cols[0]] == Int(2) != e2.vals[0];
    }
    assert Exec(server, e2, db1)[id] == [r1] && r1["name"] == Str("a");
    assert Exec(server, u, db)[id] == [m];
  }

  lemma OneRow(r: Row, sets: seq<Assign>, cols: seq<string>, vals: seq<Value>)
    ensures UpdateRows([r], sets, cols, vals) == [UpdateRow(r, sets, cols, vals)]
  {
    assert [r][1..] == [];
  }

  lemma KeyEditMerged(a: CellChange, b: CellChange)
    requires CellRow(a) == CellRow(b)
    ensures Merged([Cell(a), Cell(b)]) == [MultiUpdate([a, b])]
  {
    hide JoinNul, RenderAll, MultiUpdate;
    var p, c := [Cell(a)], Cell(b);
    var ops, gone, rid := [Cell(a), Cell(b)], DeletedRows([Cell(a), Cell(b)]), CellRow(a);
    assert gone == {};
    assert p + [c] == ops;
    assert FirstAt(p, gone, rid) == 0;
    LaterSlot(p, gone, c);
    CellsForSnoc(p, gone, c, rid);
    assert [] + p == p;
    CellsForSnoc([], gone, Cell(a), rid);
    assert CellsFor(p, gone, rid) == [a];
    assert [a] + [b] == [a, b];
    FirstAtSnoc(p, gone, c, rid);
    assert Slot(ops, gone, 0) == [MultiUpdate([a, b])];
    assert Slot(ops, gone, 1) == [];
    assert Slots(ops, gone, 0) == [];
    assert Slots(ops, gone, 1) == [] + [MultiUpdate([a, b])] == [MultiUpdate([a, b])];
  }

  // ---------- Statements ----------

  datatype Rendered = Ok(stmts: seq<Stmt>) | Unsupported(change: SchemaChange)

  /** The first schema change the dialect cannot render, if any. */
  predicate AllSupported(ops: seq<Change>, supported: SchemaChange -> bool) {
    forall i :: 0 <= i < |ops| && ops[i].Schema? ==> supported(ops[i].schema)
  }

  lemma FirstAtPrefix(ops: seq<Change>, gone: set<string>, rid: string, i: nat)
    requires i <= |ops|
    ensures FirstAt(ops[..i], gone, rid) == if FirstAt(ops, gone, rid) < i then FirstAt(ops, gone, rid) else i
  {
    hide CellRow;
    var f, g := FirstAt(ops, gone, rid), FirstAt(ops[..i], gone, rid);
    assert forall j :: 0 <= j < i ==> ops[..i][j] == ops[j];
  }

  /** Whether position i keeps its slot. */
  predicate Kept(ops: seq<Change>, gone: set<string>, i: nat)
    requires i < |ops|
  {
    !Merges(ops[i], gone) || FirstAt(ops, gone, CellRow(ops[i].cell)) == i
  }

  /** What the render loop has gathered after i changes. */
  ghost predicate Gathered(ops: seq<Change>, gone: set<string>, firstAt: map<string, nat>,
                           cellsFor: map<string, seq<CellChange>>, i: nat)
    requires i <= |ops|
  {
    && firstAt.Keys == cellsFor.Keys
    && (forall rid :: rid in firstAt <==> FirstAt(ops, gone, rid) < i)
    && (forall rid :: rid in firstAt ==> firstAt[rid] == FirstAt(ops, gone, rid))
    && (forall rid :: rid in cellsFor ==> cellsFor[rid] == CellsFor(ops[..i], gone, rid))
  }

  lemma GatherCell(ops: seq<Change>, gone: set<string>, firstAt: map<string, nat>,
                   cellsFor: map<string, seq<CellChange>>, i: nat)
    requires i < |ops| && Gathered(ops, gone, firstAt, cellsFor, i) && Merges(ops[i], gone)
    ensures var c := ops[i].cell;
            var rid := CellRow(c);
            var first := if rid in firstAt then firstAt else firstAt[rid := i];
            var cells := (if rid in cellsFor then cellsFor[rid] else []) + [c];
            && (rid !in firstAt <==> FirstAt(ops, gone, rid) == i)
            && Gathered(ops, gone, first, cellsFor[rid := cells], i + 1)
  {
    hide CellRow, CellsFor, FirstAt;
    var rid := CellRow(ops[i].cell);
    forall r
      ensures CellsFor(ops[..i + 1], gone, r) ==
              if r == rid then CellsFor(ops[..i], gone, r) + [ops[i].cell] else CellsFor(ops[..i], gone, r)
      ensures r != rid ==> FirstAt(ops, gone, r) != i
      ensures r == rid ==> FirstAt(ops, gone, r) <= i
    {
      GatherRow(ops, gone, i, r);
    }
    if rid !in firstAt {
      FirstAtPrefix(ops, gone, rid, i);
      CellsForNone(ops[..i], gone, rid);
    }
  }

  lemma GatherRow(ops: seq<Change>, gone: set<string>, i: nat, r: string)
    requires i < |ops| && Merges(ops[i], gone)
    ensures var rid := CellRow(ops[i].cell);
            && CellsFor(ops[..i + 1], gone, r) ==
               (if r == rid then CellsFor(ops[..i], gone, r) + [ops[i].cell] else CellsFor(ops[..i], gone, r))
            && (r != rid ==> FirstAt(ops, gone, r) != i)
            && (r == rid ==> FirstAt(ops, gone, r) <= i)
  {
    hide CellRow, CellsFor, FirstAt;
    assert ops[..i + 1] == ops[..i] + [ops[i]];
    CellsForSnoc(ops[..i], gone, ops[i], r);
    assert CellsFor(ops[..i], gone, r) + [] == CellsFor(ops[..i], gone, r);
  }

  lemma GatherOther(ops: seq<Change>, gone: set<string>, firstAt: map<string, nat>,
                    cellsFor: map<string, seq<CellChange>>, i: nat)
    requires i < |ops| && Gathered(ops, gone, firstAt, cellsFor, i) && !Merges(ops[i], gone)
    ensures Gathered(ops, gone, firstAt, cellsFor, i + 1)
  {
    hide CellRow;
    assert ops[..i + 1] == ops[..i] + [ops[i]];
    forall r
      ensures CellsFor(ops[..i + 1], gone, r) == CellsFor(ops[..i], gone, r)
      ensures FirstAt(ops, gone, r) != i
    {
      CellsForSnoc(ops[..i], gone, ops[i], r);
      assert CellsFor(ops[..i], gone, r) + [] == CellsFor(ops[..i], gone, r);
    }
  }

  /** The deletedRows loop. */
  method CollectDeleted(ops: seq<Change>) returns (gone: set<string>)
    ensures gone == DeletedRows(ops)
  {
    hide RowId;
    gone := {};
    for i := 0 to |ops|
      invariant gone == DeletedRows(ops[..i])
    {
      assert ops[..i + 1] == ops[..i] + [ops[i]];
      match ops[i]
      case Delete(d) => gone := gone + {RowId(d.database, d.table, d.pkVals)};
      case _ =>
    }
    assert ops[..|ops|] == ops;
  }

  /** Statements: one pass that gathers the edits of each row, one that renders
      them where the row was first edited, one that lays the slots end to end. */
  method Statements(cs: Changeset, supported: SchemaChange -> bool) returns (r: Rendered)
    requires cs.Valid()
    ensures r.Ok? <==> AllSupported(cs.ops, supported)
    ensures r.Ok? ==> r.stmts == Merged(cs.ops)
  {
    hide CellRow, DeletedRows, Slot, MultiUpdate, Indexed, InsertsBelow, Gathered, CellsFor;
    var ops := cs.ops;
    var gone := CollectDeleted(ops);
    var n := |ops|;
    var out := new seq<Stmt>[n](i => []);
    var kept := new bool[n](i => false);
    var firstAt: map<string, nat> := map[];
    var cellsFor: map<string, seq<CellChange>> := map[];
    assert Gathered(ops, gone, firstAt, cellsFor, 0) by { GatheredNone(ops, gone); }
    for i := 0 to n
      invariant AllSupported(ops[..i], supported)
      invariant Gathered(ops, gone, firstAt, cellsFor, i)
      invariant forall j :: 0 <= j < i ==> kept[j] == Kept(ops, gone, j)
      invariant forall j :: i <= j < n ==> !kept[j]
      invariant forall j :: 0 <= j < i && !Merges(ops[j], gone) ==> out[j] == [StmtOf(ops[j])]
    {
      if !ops[i].Cell? {
        if ops[i].Schema? && !supported(ops[i].schema) {
          return Unsupported(ops[i].schema);
        }
        GatherOther(ops, gone, firstAt, cellsFor, i);
        out[i], kept[i] := [StmtOf(ops[i])], true;
      } else {
        var c := ops[i].cell;
        var rid := CellRow(c);
        if rid in gone {
          GatherOther(ops, gone, firstAt, cellsFor, i);
          out[i], kept[i] := [UpdateOf(c)], true;
        } else {
          GatherCell(ops, gone, firstAt, cellsFor, i);
          if rid !in firstAt {
            firstAt := firstAt[rid := i];
            kept[i] := true;
          }
          cellsFor := cellsFor[rid := (if rid in cellsFor then cellsFor[rid] else []) + [c]];
        }
      }
    }
    assert ops[..n] == ops;
    FillGroups(ops, gone, firstAt, cellsFor, out);
    var stmts := Flatten(ops, gone, out, kept);
    r := Ok(stmts);
  }

  lemma GatheredNone(ops: seq<Change>, gone: set<string>)
    ensures Gathered(ops, gone, map[], map[], 0)
  {
  }

  /** Whether position i keeps its slot and is none of the rows still to do. */
  predicate Done(ops: seq<Change>, gone: set<string>, todo: set<string>, i: nat)
    requires i < |ops|
  {
    Kept(ops, gone, i) && (Merges(ops[i], gone) ==> CellRow(ops[i].cell) !in todo)
  }

  lemma DoneAtFirst(ops: seq<Change>, gone: set<string>, firstAt: map<string, nat>,
                    cellsFor: map<string, seq<CellChange>>, i: nat)
    requires i < |ops| && Gathered(ops, gone, firstAt, cellsFor, |ops|) && Done(ops, gone, firstAt.Keys, i)
    ensures !Merges(ops[i], gone) && Slot(ops, gone, i) == [StmtOf(ops[i])]
  {
    hide CellRow;
  }

  lemma DoneNext(ops: seq<Change>, gone: set<string>, todo: set<string>, rid: string, i: nat)
    requires i < |ops| && Done(ops, gone, todo - {rid}, i) && i != FirstAt(ops, gone, rid)
    ensures Done(ops, gone, todo, i)
  {
    hide CellRow;
  }

  /** The slot of a row, at its first edit. */
  lemma RowSlot(ops: seq<Change>, gone: set<string>, firstAt: map<string, nat>,
                cellsFor: map<string, seq<CellChange>>, rid: string)
    requires Gathered(ops, gone, firstAt, cellsFor, |ops|) && rid in firstAt
    ensures firstAt[rid] == FirstAt(ops, gone, rid) < |ops| && rid in cellsFor && cellsFor[rid] != []
    ensures Slot(ops, gone, firstAt[rid]) == [MultiUpdate(cellsFor[rid])]
  {
    hide CellRow, MultiUpdate, CellsFor;
    assert ops[..|ops|] == ops;
    CellsForSome(ops, gone, firstAt[rid]);
  }

  /** The loop over firstAt, in any order. */
  method FillGroups(ops: seq<Change>, gone: set<string>, firstAt: map<string, nat>,
                    cellsFor: map<string, seq<CellChange>>, out: array<seq<Stmt>>)
    requires out.Length == |ops| && Gathered(ops, gone, firstAt, cellsFor, |ops|)
    requires forall j :: 0 <= j < |ops| && !Merges(ops[j], gone) ==> out[j] == [StmtOf(ops[j])]
    modifies out
    ensures forall j :: 0 <= j < |ops| && Kept(ops, gone, j) ==> out[j] == Slot(ops, gone, j)
  {
    hide CellRow, MultiUpdate, CellsFor, FirstAt, Slot, Gathered, Merges, StmtOf, Done, Kept;
    var todo := firstAt.Keys;
    forall j | 0 <= j < |ops| && Done(ops, gone, todo, j)
      ensures out[j] == Slot(ops, gone, j)
    {
      DoneAtFirst(ops, gone, firstAt, cellsFor, j);
    }
    while todo != {}
      invariant todo <= firstAt.Keys
      invariant forall j :: 0 <= j < |ops| && Done(ops, gone, todo, j) ==> out[j] == Slot(ops, gone, j)
      decreases todo
    {
      var rid :| rid in todo;
      RowSlot(ops, gone, firstAt, cellsFor, rid);
      out[firstAt[rid]] := [MultiUpdate(cellsFor[rid])];
      forall j | 0 <= j < |ops| && j != firstAt[rid] && Done(ops, gone, todo - {rid}, j)
        ensures Done(ops, gone, todo, j)
      {
        DoneNext(ops, gone, todo, rid, j);
      }
      todo := todo - {rid};
    }
    forall j | 0 <= j < |ops| && Kept(ops, gone, j)
      ensures Done(ops, gone, {}, j)
    {
      KeptDone(ops, gone, j);
    }
  }

  lemma KeptDone(ops: seq<Change>, gone: set<string>, i: nat)
    requires i < |ops| && Kept(ops, gone, i)
    ensures Done(ops, gone, {}, i)
  {
  }

  /** The last loop: the kept slots end to end. */
  method Flatten(ops: seq<Change>, gone: set<string>, out: array<seq<Stmt>>, kept: array<bool>) returns (r: seq<Stmt>)
    requires out.Length == |ops| == kept.Length
    requires forall j :: 0 <= j < |ops| ==> kept[j] == Kept(ops, gone, j)
    requires forall j :: 0 <= j < |ops| && Kept(ops, gone, j) ==> out[j] == Slot(ops, gone, j)
    ensures r == Slots(ops, gone, |ops|)
  {
    hide CellRow, MultiUpdate, CellsFor, FirstAt;
    r := [];
    for i := 0 to |ops|
      invariant r == Slots(ops, gone, i)
    {
      if kept[i] {
        r := r + out[i];
      } else {
        assert Slot(ops, gone, i) == [];
        assert r + [] == r;
      }
    }
  }
}
